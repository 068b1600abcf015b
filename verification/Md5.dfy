/**
  The streaming interface of MD5 (src/lib/md5c.c:77-176) against the one-shot definition in sections 3.1
  to 3.5 of RFC 1321. The block transformation of section 3.4 is a parameter.
 */
module Md5 {

  type Byte = bv8
  type Word = w: nat | w < 0x1_0000_0000

  const WORD: nat := 0x1_0000_0000

  datatype State = State(a: Word, b: Word, c: Word, d: Word)

  type Transform = (State, seq<Byte>) -> State

  /** Section 3.3. */
  const START := State(0x67452301, 0xefcdab89, 0x98badcfe, 0x10325476)

  function Low(x: nat): (w: Word) { x % 0x1_0000_0000 }

  function High(x: nat): (w: Word) { x / 0x1_0000_0000 % 0x1_0000_0000 }

  /** A word, low-order byte first. */
  function Bytes4(w: Word): (s: seq<Byte>)
    ensures |s| == 4
  { [(w % 256) as Byte, (w / 256 % 256) as Byte, (w / 65536 % 256) as Byte, (w / 16777216) as Byte] }

  // ---------------------------------------------------------------- the one-shot definition

  function Zeros(n: nat): (s: seq<Byte>)
    ensures |s| == n
  { seq(n, _ => 0) }

  /** Section 3.1: one bit and then zeros, to 56 bytes modulo 64, always at least the bit. */
  function PadLen(index: nat): (n: nat)
    requires index < 64
    ensures 1 <= n <= 64 && (index + n) % 64 == 56
  { if index < 56 then 56 - index else 120 - index }

  /** Section 3.2: the length of the message in bits, as two words, low-order word first. */
  function LengthBytes(len: nat): (s: seq<Byte>)
    ensures |s| == 8
  { Bytes4(Low(8 * len)) + Bytes4(High(8 * len)) }

  function Padding(len: nat): (s: seq<Byte>) {
    [0x80] + Zeros(PadLen(len % 64) - 1) + LengthBytes(len)
  }

  /** Section 3.4: the transformation over the complete 64-byte blocks, in order. */
  function Fold(f: Transform, s: State, m: seq<Byte>): (r: State)
    decreases |m|
  {
    if |m| < 64 then s else Fold(f, f(s, m[..64]), m[64..])
  }

  /** Section 3.5: the four words of the result, low-order byte first. */
  function Output(r: State): (d: seq<Byte>) { Bytes4(r.a) + Bytes4(r.b) + Bytes4(r.c) + Bytes4(r.d) }

  /** The digest of a message, from a given chaining value. */
  function Digest(f: Transform, start: State, m: seq<Byte>): (d: seq<Byte>) {
    Output(Fold(f, start, m + Padding(|m|)))
  }

  // ---------------------------------------------------------------- what the bytes say

  /** Four bytes and the number they denote, low-order byte first. */
  predicate Denotes(s: seq<Byte>, a: nat, b: nat, c: nat, d: nat, n: nat) {
    && a < 256 && b < 256 && c < 256 && d < 256 && s == [a as Byte, b as Byte, c as Byte, d as Byte]
    && n == a + 256 * b + 65536 * c + 16777216 * d
  }

  ghost predicate Word4(s: seq<Byte>, n: nat) { exists a, b, c, d :: Denotes(s, a, b, c, d, n) }

  lemma Base256(w: Word, a: nat, b: nat, c: nat, d: nat)
    requires a == w % 256 && b == w / 256 % 256 && c == w / 65536 % 256 && d == w / 16777216
    ensures a + 256 * b + 65536 * c + 16777216 * d == w
  {
    var q := w / 256;
    var r := q / 256;
    assert w / 65536 == r && w / 16777216 == r / 256;
  }

  /** A word's four bytes denote it. */
  lemma Bytes4Denote(w: Word)
    ensures Word4(Bytes4(w), w)
  {
    Base256(w, w % 256, w / 256 % 256, w / 65536 % 256, w / 16777216);
    assert Denotes(Bytes4(w), w % 256, w / 256 % 256, w / 65536 % 256, w / 16777216, w);
  }

  /** A number of bits, as two words, modulo 2^64. */
  lemma TwoWords(x: nat)
    ensures Low(x) + 0x1_0000_0000 * High(x) == x % 0x1_0000_0000_0000_0000
  {
    var q := x / 0x1_0000_0000;
    var p := q / 0x1_0000_0000;
    LongRemainder(x, p, Low(x) + 0x1_0000_0000 * High(x));
  }

  lemma LongRemainder(x: nat, p: nat, r: nat)
    requires x == 0x1_0000_0000_0000_0000 * p + r && r < 0x1_0000_0000_0000_0000
    ensures x % 0x1_0000_0000_0000_0000 == r
  {
  }

  /** The eight length bytes denote the message's length in bits modulo 2^64. */
  lemma LengthDenotes(len: nat)
    ensures
      var b, lo, hi := LengthBytes(len), Low(8 * len), High(8 * len);
      Word4(b[..4], lo) && Word4(b[4..], hi) && lo + 0x1_0000_0000 * hi == 8 * len % 0x1_0000_0000_0000_0000
  {
    var lo, hi := Low(8 * len), High(8 * len);
    Bytes4Denote(lo);
    Bytes4Denote(hi);
    assert LengthBytes(len)[..4] == Bytes4(lo) && LengthBytes(len)[4..] == Bytes4(hi);
    TwoWords(8 * len);
  }

  /** The padding: a byte 0x80, zeros up to 56 bytes modulo 64, and the length. */
  lemma PaddingBytes(len: nat, k: nat)
    requires k < |Padding(len)|
    ensures |Padding(len)| >= 9
    ensures k == 0 ==> Padding(len)[k] == 0x80
    ensures 0 < k < |Padding(len)| - 8 ==> Padding(len)[k] == 0
    ensures Padding(len)[|Padding(len)| - 8..] == LengthBytes(len)
  {
  }

  /** The words of the digest, in order, each low-order byte first. */
  lemma OutputDenotes(r: State)
    ensures
      var d := Output(r);
      && |d| == 16 && Word4(d[..4], r.a) && Word4(d[4..8], r.b)
      && Word4(d[8..12], r.c) && Word4(d[12..], r.d)
  {
    var d := Output(r);
    assert d[..4] == Bytes4(r.a) && d[4..8] == Bytes4(r.b) && d[8..12] == Bytes4(r.c) && d[12..] == Bytes4(r.d);
    Bytes4Denote(r.a);
    Bytes4Denote(r.b);
    Bytes4Denote(r.c);
    Bytes4Denote(r.d);
  }

  /** Section 3.3 gives the initial words as bytes, low-order bytes first. */
  lemma StartBytes()
    ensures Word4([0x01, 0x23, 0x45, 0x67], START.a) && Word4([0x89, 0xab, 0xcd, 0xef], START.b)
    ensures Word4([0xfe, 0xdc, 0xba, 0x98], START.c) && Word4([0x76, 0x54, 0x32, 0x10], START.d)
  {
    assert Denotes([0x01, 0x23, 0x45, 0x67], 0x01, 0x23, 0x45, 0x67, START.a);
    assert Denotes([0x89, 0xab, 0xcd, 0xef], 0x89, 0xab, 0xcd, 0xef, START.b);
    assert Denotes([0xfe, 0xdc, 0xba, 0x98], 0xfe, 0xdc, 0xba, 0x98, START.c);
    assert Denotes([0x76, 0x54, 0x32, 0x10], 0x76, 0x54, 0x32, 0x10, START.d);
  }

  // ---------------------------------------------------------------- folding piece by piece

  lemma {:induction false} FoldBlock(f: Transform, s: State, x: seq<Byte>, q: nat, b: seq<Byte>)
    requires |x| == 64 * q && |b| == 64
    ensures Fold(f, s, x + b) == f(Fold(f, s, x), b)
    decreases q
  {
    if q == 0 {
      assert x + b == b && b[..64] == b && Fold(f, f(s, b), b[64..]) == f(s, b);
    } else {
      assert (x + b)[..64] == x[..64] && (x + b)[64..] == x[64..] + b;
      FoldBlock(f, f(s, x[..64]), x[64..], q - 1, b);
    }
  }

  lemma {:induction false} FoldTail(f: Transform, s: State, x: seq<Byte>, q: nat, t: seq<Byte>)
    requires |x| == 64 * q && |t| < 64
    ensures Fold(f, s, x + t) == Fold(f, s, x)
    decreases q
  {
    if q > 0 {
      assert (x + t)[..64] == x[..64] && (x + t)[64..] == x[64..] + t;
      FoldTail(f, f(s, x[..64]), x[64..], q - 1, t);
    }
  }

  /** Adding to a length, modulo 64. */
  lemma Advance(len: nat, n: nat)
    requires len % 64 + n <= 64
    ensures (len + n) % 64 == if len % 64 + n == 64 then 0 else len % 64 + n
  {
    assert len == 64 * (len / 64) + len % 64;
  }

  lemma PaddingIs(m: seq<Byte>)
    ensures m + ([0x80] + Zeros(PadLen(|m| % 64) - 1)) + LengthBytes(|m|) == m + Padding(|m|)
  {
  }

  lemma Quotient(n: nat, q: nat, r: nat)
    requires n == 64 * q + r && r < 64
    ensures n / 64 == q && n % 64 == r
  {
  }

  /** The padded message is a whole number of blocks, so the digest covers all of it. */
  lemma PaddedWhole(len: nat)
    ensures (len + |Padding(len)|) % 64 == 0
  {
    var q, r := len / 64, len % 64;
    var padded := len + |Padding(len)|;
    assert padded == len + PadLen(r) + 8;
    Quotient(padded, if r < 56 then q + 1 else q + 2, 0);
  }

  // ---------------------------------------------------------------- the bit counter

  /** The byte position the counter encodes. */
  lemma IndexIs(len: nat)
    ensures Low(8 * len) / 8 % 64 == len % 64
  {
    var q, r := len / 0x2000_0000, len % 0x2000_0000;
    assert 8 * len == 0x1_0000_0000 * q + 8 * r;
    assert Low(8 * len) == 8 * r;
  }

  /** A number written in base 2^32. */
  lemma Split(k: nat, r: Word)
    ensures Low(0x1_0000_0000 * k + r) == r && High(0x1_0000_0000 * k + r) == Low(k)
  {
  }

  lemma LowAdd(a: nat, b: nat)
    ensures Low(Low(a) + b) == Low(a + b)
  {
    var k := a / 0x1_0000_0000;
    assert a == 0x1_0000_0000 * k + Low(a);
    var j, r := (Low(a) + b) / 0x1_0000_0000, Low(Low(a) + b);
    assert a + b == 0x1_0000_0000 * (k + j) + r;
    Split(k + j, r);
  }

  /** The sum of two words wraps exactly when it comes out below one of them. */
  lemma Carry(a: Word, b: Word)
    ensures a + b == 0x1_0000_0000 * (if Low(a + b) < b then 1 else 0) + Low(a + b)
  {
    if a + b < 0x1_0000_0000 { Split(0, a + b); } else { Split(1, a + b - 0x1_0000_0000); }
  }

  lemma ShiftIs(n: Word)
    ensures 8 * n == 0x1_0000_0000 * (n / 0x2000_0000) + Low(8 * n)
  {
    Split(n / 0x2000_0000, 8 * (n % 0x2000_0000));
  }

  /** Adding n << 3 with a carry, and n >> 29, adds 8 n modulo 2^64. */
  lemma CountStep(len: nat, n: Word, c0: Word, c1: Word, carry: nat)
    requires c0 == Low(8 * len) && c1 == High(8 * len)
    requires carry == if Low(c0 + Low(8 * n)) < Low(8 * n) then 1 else 0
    ensures Low(c0 + Low(8 * n)) == Low(8 * (len + n))
    ensures Low(Low(c1 + carry) + n / 0x2000_0000) == High(8 * (len + n))
    ensures Low(c1) == c1
  {
    Split(0, c1);
    var k := 8 * len / 0x1_0000_0000;
    var b1, d0 := n / 0x2000_0000, Low(c0 + Low(8 * n));
    ShiftIs(n);
    Carry(c0, Low(8 * n));
    Sum(8 * len, 8 * n, k, c0, b1, Low(8 * n), carry, d0);
    Split(k + b1 + carry, d0);
    assert c1 == Low(k);
    LowAdd(k, carry);
    LowAdd(k + carry, b1);
  }

  lemma Sum(x: nat, y: nat, k: nat, c0: Word, b1: nat, b0: Word, carry: nat, d0: Word)
    requires x == 0x1_0000_0000 * k + c0 && y == 0x1_0000_0000 * b1 + b0
    requires c0 + b0 == 0x1_0000_0000 * carry + d0
    ensures x + y == 0x1_0000_0000 * (k + b1 + carry) + d0
  {
  }

  // ---------------------------------------------------------------- the loop bound

  /** Where the loop over whole blocks stops: fewer than 64 bytes of input are left. */
  function Stop(index: nat, n: nat): (i: nat)
    requires index < 64 && n >= 64 - index
    ensures i <= n < i + 64 && (index + i) % 64 == 0
  { n - (index + n) % 64 }

  /** No test of the loop computes an i + 63 that wraps. */
  predicate NoWrap(index: nat, n: nat)
    requires index < 64
  { n >= 64 - index ==> Stop(index, n) + 63 < WORD }

  /** A position the loop comes to: at every earlier one its test, in 32 bits, let it go on. */
  ghost predicate Reached(index: nat, n: Word, i: Word)
    requires index < 64 && n >= 64 - index
  {
    && (index + i) % 64 == 0 && 64 - index <= i
    && forall j: Word :: 64 - index <= j < i && (index + j) % 64 == 0 ==> GoesOn(j, n)
  }

  /** The loop's test. */
  predicate GoesOn(i: Word, n: Word) { Low(i + 63) < n }

  lemma BeforeStop(index: nat, n: Word, i: Word)
    requires index < 64 && n >= 64 - index && (index + i) % 64 == 0 && i < Stop(index, n)
    ensures i + 64 <= Stop(index, n) && GoesOn(i, n)
  {
    var stop, k, l := Stop(index, n), (index + i) / 64, (index + Stop(index, n)) / 64;
    assert index + i == 64 * k && index + stop == 64 * l;
    Split(0, i + 63);
  }

  lemma StopReached(index: nat, n: Word)
    requires index < 64 && n >= 64 - index
    ensures Stop(index, n) < WORD && Reached(index, n, Stop(index, n))
  {
    var stop, l := Stop(index, n), (index + Stop(index, n)) / 64;
    assert index + stop == 64 * l;
    forall j: Word | 64 - index <= j < stop && (index + j) % 64 == 0 ensures GoesOn(j, n) { BeforeStop(index, n, j); }
  }

  /** Where no test wraps the loop leaves at the stop; where one does it goes on from there, past the input. */
  lemma LeavesIff(index: nat, n: Word)
    requires index < 64 && n >= 64 - index
    ensures NoWrap(index, n) <==> !GoesOn(Stop(index, n), n)
  {
    var stop := Stop(index, n);
    if stop + 63 < WORD { Split(0, stop + 63); } else { Split(1, stop + 63 - WORD); }
  }

  /** Every block the loop transforms lies within the input. */
  ghost predicate StaysWithin(index: nat, n: Word)
    requires index < 64 && n >= 64 - index
  { forall i: Word :: Reached(index, n, i) && GoesOn(i, n) ==> i + 64 <= n }

  /**
    The loop always comes to the stop. It leaves there, having transformed blocks of the input only, if and
    only if no test wraps; otherwise it transforms a block that ends beyond the input.
   */
  lemma NoWrapIff(index: nat, n: Word)
    requires index < 64 && n >= 64 - index
    ensures Reached(index, n, Stop(index, n))
    ensures NoWrap(index, n) <==> !GoesOn(Stop(index, n), n)
    ensures NoWrap(index, n) <==> StaysWithin(index, n)
  {
    var stop: Word := Stop(index, n);
    StopReached(index, n);
    LeavesIff(index, n);
    if NoWrap(index, n) {
      forall i: Word | Reached(index, n, i) && GoesOn(i, n) ensures i + 64 <= n {
        if i < stop { BeforeStop(index, n, i); }
      }
    }
  }

  lemma InRange(index: nat, n: Word, i: nat, k: nat)
    requires index < 64 && n >= 64 - index && i <= n && index + i == 64 * k && NoWrap(index, n)
    ensures Low(i + 63) == i + 63
  {
    assert n - (index + n) % 64 >= i;
    Split(0, i + 63);
  }

  /** Inputs of at most 2^32 - 64 bytes are safe whatever the buffer holds. */
  lemma ShortInputs(index: nat, n: nat)
    requires index < 64 && n <= WORD - 64
    ensures NoWrap(index, n)
  {
  }

  /** The bound is met: with 63 bytes buffered, 2^32 - 1 more bytes run the test past 2^32 and the loop past them. */
  lemma LongInputWraps()
    ensures !NoWrap(63, WORD - 1) && !StaysWithin(63, WORD - 1)
    ensures GoesOn(Stop(63, WORD - 1), WORD - 1) && Stop(63, WORD - 1) + 64 > WORD - 1
  {
    NoWrapIff(63, WORD - 1);
  }

  // ---------------------------------------------------------------- the context

  /** What a context holds after the bytes of m: counter, chaining value and the incomplete block. */
  ghost predicate Holds(f: Transform, start: State, c0: Word, c1: Word, state: State, buffer: seq<Byte>, m: seq<Byte>) {
    && c0 == Low(8 * |m|) && c1 == High(8 * |m|)
    && state == Fold(f, start, m)
    && |buffer| == 64 && buffer[..|m| % 64] == m[64 * (|m| / 64)..]
  }

  /** Input that does not fill the block, the last k bytes of m being still incomplete. */
  lemma Appended(f: Transform, s: State, m: seq<Byte>, q: nat, k: nat, t: seq<Byte>)
    requires |m| == 64 * q + k && k + |t| < 64
    ensures Fold(f, s, m + t) == Fold(f, s, m)
    ensures (m + t)[64 * q..] == m[64 * q..] + t
  {
    var x, y := m[..64 * q], m[64 * q..];
    assert m == x + y && m + t == x + (y + t);
    FoldTail(f, s, x, q, y);
    FoldTail(f, s, x, q, y + t);
  }

  /** Input that completes it. */
  lemma Completed(f: Transform, s: State, m: seq<Byte>, q: nat, k: nat, t: seq<Byte>)
    requires |m| == 64 * q + k && k < 64 && k + |t| == 64
    ensures Fold(f, s, m + t) == f(Fold(f, s, m), m[64 * q..] + t)
  {
    var x, y := m[..64 * q], m[64 * q..];
    assert m == x + y && m + t == x + (y + t);
    FoldTail(f, s, x, q, y);
    FoldBlock(f, s, x, q, y + t);
  }

  lemma Joined(m: seq<Byte>, input: seq<Byte>, i: nat, j: nat)
    requires i <= j <= |input|
    ensures m + input[..i] + input[i..j] == m + input[..j]
  {
  }

  lemma BlockStep(f: Transform, s: State, m: seq<Byte>, q: nat, input: seq<Byte>, i: nat)
    requires |m| + i == 64 * q && i + 64 <= |input|
    ensures Fold(f, s, m + input[..i + 64]) == f(Fold(f, s, m + input[..i]), input[i..i + 64])
  {
    FoldBlock(f, s, m + input[..i], q, input[i..i + 64]);
    Joined(m, input, i, i + 64);
  }

  /** MD5_CTX, with the bytes taken in so far. */
  class Context {
    const f: Transform
    const start: State
    const buffer: array<Byte>
    var count0: Word
    var count1: Word
    var state: State
    ghost var message: seq<Byte>

    ghost predicate Valid()
      reads this, buffer
    { Holds(f, start, count0, count1, state, buffer[..], message) }

    /** `MD5Init`. */
    constructor (f: Transform)
      ensures Valid() && this.f == f && start == START && message == [] && fresh(buffer)
    {
      this.f := f;
      start := START;
      buffer := new Byte[64](_ => 0);
      count0, count1, state, message := 0, 0, START, [];
    }

    method Copy(index: nat, data: seq<Byte>)
      requires index + |data| <= buffer.Length
      modifies buffer
      ensures buffer[..index + |data|] == old(buffer[..index]) + data
      ensures buffer[index + |data|..] == old(buffer[index + |data|..])
    {
      for k := 0 to |data|
        invariant forall j :: 0 <= j < buffer.Length ==>
          buffer[j] == if index <= j < index + k then data[j - index] else old(buffer[j])
      {
        buffer[index + k] := data[k];
      }
    }

    method Count(n: Word)
      requires count0 == Low(8 * |message|) && count1 == High(8 * |message|)
      modifies `count0, `count1
      ensures count0 == Low(8 * (|message| + n)) && count1 == High(8 * (|message| + n))
    {
      var bits := Low(8 * n);
      ghost var carry := if Low(count0 + bits) < bits then 1 else 0;
      CountStep(|message|, n, count0, count1, carry);
      count0 := Low(count0 + bits);
      if count0 < bits {
        count1 := Low(count1 + 1);
      }
      assert count1 == Low(old(count1) + carry);
      count1 := Low(count1 + n / 0x2000_0000);
    }

    /** The first bytes of the input complete the buffered block. */
    method FillBlock(ghost q: nat, index: nat, data: seq<Byte>)
      requires |message| == 64 * q + index && index < 64 && index + |data| == 64 == buffer.Length
      requires state == Fold(f, start, message) && buffer[..index] == message[64 * q..]
      modifies buffer, `state
      ensures state == Fold(f, start, message + data)
    {
      Copy(index, data);
      assert buffer[..64] == buffer[..];
      Completed(f, start, message, q, index, data);
      state := f(state, buffer[..]);
    }

    /** What is left of the input goes to the buffer. */
    method Rest(ghost q: nat, index: nat, input: seq<Byte>, i: nat)
      requires i <= |input| && index + (|input| - i) < 64 == buffer.Length && |message| + i == 64 * q + index
      requires count0 == Low(8 * (|message| + |input|)) && count1 == High(8 * (|message| + |input|))
      requires state == Fold(f, start, message + input[..i])
      requires buffer[..index] == (message + input[..i])[64 * q..]
      modifies buffer, `message
      ensures Valid() && message == old(message) + input
    {
      ghost var m := message + input[..i];
      Appended(f, start, m, q, index, input[i..]);
      assert m + input[i..] == message + input;
      Copy(index, input[i..]);
      message := message + input;
      Quotient(|message|, q, index + |input| - i);
    }

    /** The whole blocks of the input go straight to the transformation. */
    method Blocks(input: seq<Byte>, ghost q0: nat, ghost index: nat, part: nat) returns (i: nat, ghost q: nat)
      requires |input| < WORD && index < 64 && |message| == 64 * q0 + index
      requires part == 64 - index <= |input| && NoWrap(index, |input|)
      requires state == Fold(f, start, message + input[..part])
      modifies `state
      ensures i <= |input| < i + 64 && |message| + i == 64 * q
      ensures state == Fold(f, start, message + input[..i])
    {
      i, q := part, q0 + 1;
      InRange(index, |input|, i, 1);
      while Low(i + 63) < |input|
        invariant i <= |input| && q0 < q && index + i == 64 * (q - q0) && Low(i + 63) == i + 63
        invariant state == Fold(f, start, message + input[..i])
        decreases |input| - i
      {
        BlockStep(f, start, message, q, input, i);
        state := f(state, input[i..i + 64]);
        i, q := i + 64, q + 1;
        InRange(index, |input|, i, q - q0);
      }
    }

    /** Input that reaches the end of the buffered block. */
    method Absorb(ghost q: nat, index: nat, input: seq<Byte>)
      requires |message| == 64 * q + index && index < 64 <= index + |input| && |input| < WORD && NoWrap(index, |input|)
      requires count0 == Low(8 * (|message| + |input|)) && count1 == High(8 * (|message| + |input|))
      requires buffer.Length == 64 && state == Fold(f, start, message) && buffer[..index] == message[64 * q..]
      modifies this, buffer
      ensures Valid() && message == old(message) + input
    {
      FillBlock(q, index, input[..64 - index]);
      var i; ghost var r;
      i, r := Blocks(input, q, index, 64 - index);
      assert buffer[..0] == (message + input[..i])[64 * r..];
      Rest(r, 0, input, i);
    }

    /** `MD5Update`. */
    method Update(input: seq<Byte>)
      requires Valid() && |input| < WORD && NoWrap(|message| % 64, |input|)
      modifies this, buffer
      ensures Valid() && message == old(message) + input
    {
      var index := count0 / 8 % 64;
      IndexIs(|message|);
      ghost var q := |message| / 64;
      assert |message| == 64 * q + index;
      Count(|input|);
      if |input| >= 64 - index {
        Absorb(q, index, input);
      } else {
        assert message + input[..0] == message;
        Rest(q, index, input, 0);
      }
    }

    /** The first half of `MD5Pad`: the bit and the zeros. */
    method PadZeros()
      requires Valid()
      modifies this, buffer
      ensures Valid() && message == old(message) + ([0x80] + Zeros(PadLen(old(|message|) % 64) - 1))
    {
      var index := count0 / 8 % 64;
      IndexIs(|message|);
      ShortInputs(index, PadLen(index));
      Update([0x80] + Zeros(PadLen(index) - 1));
    }

    /** `MD5Pad`: the padding and then the length before it. */
    method Pad()
      requires Valid()
      modifies this, buffer
      ensures Valid() && message == old(message) + Padding(old(|message|))
    {
      var bits := Bytes4(count0) + Bytes4(count1);
      PaddingIs(message);
      PadZeros();
      ShortInputs(|message| % 64, 8);
      Update(bits);
    }

    /** `MD5Final`: the digest of everything taken in, and a context with nothing left of it. */
    method Final() returns (digest: seq<Byte>)
      requires Valid()
      modifies this, buffer
      ensures digest == Digest(f, start, old(message))
      ensures count0 == count1 == 0 && state == State(0, 0, 0, 0) && buffer[..] == Zeros(64)
    {
      Pad();
      digest := Output(state);
      Wipe();
    }

    method Wipe()
      requires buffer.Length == 64
      modifies this, buffer
      ensures count0 == count1 == 0 && state == State(0, 0, 0, 0) && buffer[..] == Zeros(64)
    {
      count0, count1, state := 0, 0, State(0, 0, 0, 0);
      Copy(0, Zeros(64));
    }
  }

  function Concat(parts: seq<seq<Byte>>): (m: seq<Byte>) {
    if parts == [] then [] else parts[0] + Concat(parts[1..])
  }

  /** No part wraps the loop bound, given how many bytes came before it. */
  predicate Safe(parts: seq<seq<Byte>>, len: nat) {
    parts == [] ||
    (|parts[0]| < WORD && NoWrap(len % 64, |parts[0]|) && Safe(parts[1..], len + |parts[0]|))
  }

  /** Parts of at most 2^32 - 64 bytes are always safe. */
  lemma {:induction false} ShortSafe(parts: seq<seq<Byte>>, len: nat)
    requires forall k :: 0 <= k < |parts| ==> |parts[k]| <= WORD - 64
    ensures Safe(parts, len)
  {
    if parts != [] {
      ShortInputs(len % 64, |parts[0]|);
      ShortSafe(parts[1..], len + |parts[0]|);
    }
  }

  /** Any safe way of cutting a message into updates takes in the whole. */
  method UpdateAll(c: Context, parts: seq<seq<Byte>>)
    requires c.Valid() && Safe(parts, |c.message|)
    modifies c, c.buffer
    ensures c.Valid() && c.message == old(c.message) + Concat(parts)
  {
    if parts == [] {
      assert c.message == c.message + [];
    } else {
      c.Update(parts[0]);
      UpdateAll(c, parts[1..]);
      assert c.message == old(c.message) + (parts[0] + Concat(parts[1..]));
    }
  }

  /** So any such sequence of updates, once finished, gives the digest of the whole. */
  method DigestOf(f: Transform, parts: seq<seq<Byte>>) returns (digest: seq<Byte>)
    requires Safe(parts, 0)
    ensures digest == Digest(f, START, Concat(parts))
  {
    var c := new Context(f);
    UpdateAll(c, parts);
    assert c.message == Concat(parts);
    digest := c.Final();
  }
}
