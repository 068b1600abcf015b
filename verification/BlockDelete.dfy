/**
  TRIM on a sparse backing file (src/lib/block_if.c:57-63, 221-297): the aligned middle of a range is
  punched out, its unaligned ends are overwritten with zeroes. Offsets and lengths are size_t, so the
  alignment macros work modulo 2^w, w being 64 where the source runs.
 */
module BlockDelete {
  import opened Bits
  import opened Prelude

  /** ALIGNUP(x, a), where size_t counts modulo `u`. */
  function AlignUp(x: nat, a: nat, u: nat): (r: nat)
    requires 0 < a <= u
  {
    (And((x - 1) % u, u - 1 - (a - 1)) + a) % u
  }

  /** ALIGNDOWN(x, a). */
  function AlignDown(x: nat, a: nat, u: nat): (r: nat)
    requires 0 < a <= u
  {
    And(u - a, x)
  }

  /** The distance from `x` to the next multiple of `a`. */
  function Gap(x: nat, a: nat): (g: nat)
    requires a > 0
    ensures g < a
  {
    if x % a == 0 then 0 else a - x % a
  }

  lemma GapAligns(x: nat, a: nat)
    requires a > 0
    ensures (x + Gap(x, a)) % a == 0
  {
    var q, r := x / a, x % a;
    assert x == a * q + r;
    if r != 0 {
      assert x + Gap(x, a) == a * (q + 1) by { assert a * (q + 1) == a * q + a; }
      ModUnique(x + Gap(x, a), a, q + 1, 0);
    }
  }

  lemma MinusOneMod(a: nat, c: nat)
    requires a > 0 && c > 0
    ensures a <= a * c && (a * c - 1) % a == a - 1
  {
    MulStrict(a, 0, c);
    assert a * (c - 1) == a * c - a;
    ModUnique(a * c - 1, a, c - 1, a - 1);
  }

  /** At offset zero the subtraction wraps around, and wraps back. */
  lemma AlignUpZero(a: nat, u: nat)
    requires 0 < a <= u && (u - 1) % a == a - 1 && And(u - 1, u - a) == u - 1 - (u - 1) % a
    ensures AlignUp(0, a, u) == 0
  {
    WrapMinusOne(u);
    ModUnique(u, u, 1, 0);
  }

  lemma AlignUpPositive(x: nat, a: nat, u: nat)
    requires 0 < x && 0 < a && x + a <= u && And(x - 1, u - a) == x - 1 - (x - 1) % a
    ensures AlignUp(x, a, u) == x + Gap(x, a)
  {
    SmallMod(x - 1, u);
    PrevMultiple(x, a);
    SmallMod(x + Gap(x, a), u);
  }

  lemma ProductMinusOne(a: nat, c: nat, u: nat)
    requires a > 0 && c > 0 && a * c == u
    ensures a <= u && (u - 1) % a == a - 1
  {
    MinusOneMod(a, c);
  }

  lemma Pow2MinusOne(k: nat, w: nat)
    requires k <= w
    ensures Pow2(k) <= Pow2(w) && (Pow2(w) - 1) % Pow2(k) == Pow2(k) - 1
  {
    Pow2Add(k, w - k);
    ProductMinusOne(Pow2(k), Pow2(w - k), Pow2(w));
  }

  lemma AlignUpAtZero(k: nat, w: nat, a: nat, u: nat)
    requires k <= w && a == Pow2(k) && u == Pow2(w)
    ensures a <= u && AlignUp(0, a, u) == 0
  {
    Pow2MinusOne(k, w);
    AndHighMod(u - 1, w, k);
    AlignUpZero(a, u);
  }

  lemma AlignUpElsewhere(x: nat, k: nat, w: nat)
    requires 0 < x && k <= w && x + Pow2(k) <= Pow2(w)
    ensures AlignUp(x, Pow2(k), Pow2(w)) == x + Gap(x, Pow2(k))
  {
    AndHighMod(x - 1, w, k);
    AlignUpPositive(x, Pow2(k), Pow2(w));
  }

  /** The macro rounds up, for every power-of-two alignment and every offset whose block fits in size_t. */
  lemma AlignUpRounds(x: nat, k: nat, w: nat)
    requires k <= w && x + Pow2(k) <= Pow2(w)
    ensures AlignUp(x, Pow2(k), Pow2(w)) == x + Gap(x, Pow2(k))
  {
    if x == 0 {
      AlignUpAtZero(k, w, Pow2(k), Pow2(w));
      SmallMod(0, Pow2(k));
    } else {
      AlignUpElsewhere(x, k, w);
    }
  }

  lemma WrapMinusOne(u: nat)
    requires u > 0
    ensures (-1) % u == u - 1
  {
    var q, r := (-1) / u, (-1) % u;
    assert -1 == u * q + r && 0 <= r < u;
    if q <= -2 { assert u * q <= -2 * u by { NegMul(u, q); } }
  }

  lemma NegMul(u: nat, q: int)
    requires q <= -2
    ensures u * q <= -2 * u
    decreases -q
  {
    if q < -2 { NegMul(u, q + 1); assert u * q == u * (q + 1) - u; }
  }

  lemma PrevMultiple(x: nat, a: nat)
    requires x > 0 && a > 0
    ensures x - 1 - (x - 1) % a + a == x + Gap(x, a)
  {
    var q, r := (x - 1) / a, (x - 1) % a;
    assert x - 1 == a * q + r;
    if r == a - 1 {
      assert x == a * (q + 1) by { assert a * (q + 1) == a * q + a; }
      ModUnique(x, a, q + 1, 0);
    } else {
      ModUnique(x, a, q, r + 1);
    }
  }

  lemma AlignDownRounds(x: nat, k: nat, w: nat)
    requires k <= w && x < Pow2(w)
    ensures Pow2(k) <= Pow2(w) && AlignDown(x, Pow2(k), Pow2(w)) == x - x % Pow2(k)
  {
    AndHighMod(x, w, k);
    AndSym(x, Pow2(w) - Pow2(k));
  }

  /** The bytes of the whole blocks in a length. */
  function Blocks(len: nat, a: nat): (n: nat)
    requires a > 0
    ensures n <= len
  { len - len % a }

  /** The three parts of a range: up to the first aligned byte, the whole blocks, the rest. */
  function HeadLen(off: nat, len: nat, a: nat): (n: nat)
    requires a > 0
  { Min(len, Gap(off, a)) }

  function MidLen(off: nat, len: nat, a: nat): (n: nat)
    requires a > 0
  { Blocks(len - HeadLen(off, len, a), a) }

  function TailLen(off: nat, len: nat, a: nat): (n: nat)
    requires a > 0
  { (len - HeadLen(off, len, a)) % a }

  /** The parts cover the range, the middle is aligned at both ends, and the ends are shorter than a block. */
  lemma Parts(off: nat, len: nat, a: nat)
    requires a > 0
    ensures HeadLen(off, len, a) + MidLen(off, len, a) + TailLen(off, len, a) == len
    ensures HeadLen(off, len, a) < a && TailLen(off, len, a) < a
    ensures MidLen(off, len, a) % a == 0
    ensures HeadLen(off, len, a) < len ==>
      (off + HeadLen(off, len, a)) % a == 0 && (off + HeadLen(off, len, a) + MidLen(off, len, a)) % a == 0
  {
    var h := HeadLen(off, len, a);
    WholeBlocks(len - h, a);
    if h < len {
      GapAligns(off, a);
      SumAligned(off + h, MidLen(off, len, a), a);
    }
  }

  /** The result of a system call that transfers bytes: -1 or a count. */
  datatype Xfer = Failed | Moved(n: nat)

  predicate Within(x: nat, off: nat, n: nat) { off <= x < off + n }

  /** Bytes a call zeroed. */
  function Count(r: Xfer): (n: nat) { if r.Moved? then r.n else 0 }

  /** A byte zeroed by a delete whose end writes transferred `n1` and `n2` bytes. */
  predicate Hit(x: nat, off: nat, len: nat, a: nat, n1: nat, n2: nat)
    requires a > 0
  {
    var h, m := HeadLen(off, len, a), MidLen(off, len, a);
    Within(x, off, n1) || Within(x, off + h, m) || Within(x, off + h + m, n2)
  }

  /** With no short write the bytes hit are exactly the range; a short one leaves some of it behind. */
  lemma HitsAllIff(off: nat, len: nat, a: nat, n1: nat, n2: nat)
    requires a > 0 && n1 <= HeadLen(off, len, a) && n2 <= TailLen(off, len, a)
    ensures (forall x: nat :: Hit(x, off, len, a, n1, n2) <==> Within(x, off, len)) <==>
      n1 == HeadLen(off, len, a) && n2 == TailLen(off, len, a)
  {
    Parts(off, len, a);
    var h, m := HeadLen(off, len, a), MidLen(off, len, a);
    if n1 < h {
      assert Within(off + n1, off, len) && !Hit(off + n1, off, len, a, n1, n2);
    }
    if n2 < TailLen(off, len, a) {
      assert Within(off + h + m + n2, off, len) && !Hit(off + h + m + n2, off, len, a, n1, n2);
    }
  }

  /** Two of three bytes written from offset 1 in a block of 4: the third is left. */
  lemma ShortWriteLeaves()
    ensures HeadLen(1, 3, 4) == 3 && TailLen(1, 3, 4) == 0 && Within(3, 1, 3) && !Hit(3, 1, 3, 4, 2, 0)
  {
    assert Gap(1, 4) == 3;
  }

  class BackingFile {
    var disk: nat -> bv8
    const w: nat                       // width of size_t in bits
    const k: nat                       // bc_delete_alignment is 2^k
    ghost var punched: seq<(nat, nat)> // every F_PUNCHHOLE issued

    constructor (disk: nat -> bv8, w: nat, k: nat)
      ensures this.disk == disk && this.w == w && this.k == k && punched == []
    {
      this.disk, this.w, this.k, punched := disk, w, k, [];
    }

    /** Zeroes on `n` bytes from `off`. */
    method Zero(off: nat, n: nat)
      modifies this`disk
      ensures forall x: nat :: disk(x) == if Within(x, off, n) then 0 else old(disk)(x)
    {
      var was := disk;
      disk := (x: nat) => if Within(x, off, n) then 0 else was(x);
    }

    /** F_PUNCHHOLE; the kernel demands alignment. */
    method PunchHole(off: nat, n: nat, ok: bool)
      requires off % Pow2(k) == 0 && n % Pow2(k) == 0
      modifies this
      ensures forall x: nat :: disk(x) == if Within(x, off, if ok then n else 0) then 0 else old(disk)(x)
      ensures punched == old(punched) + [(off, n)]
    {
      punched := punched + [(off, n)];
      Zero(off, if ok then n else 0);
    }

    /** The rest of `block_delete` once the range starts on a block boundary. */
    method DeleteAligned(offset: nat, len: nat, ok: bool, r2: Xfer) returns (ret: int)
      requires k <= w && len < Pow2(w) && (len > 0 ==> offset % Pow2(k) == 0) && Count(r2) <= len % Pow2(k)
      modifies this
      ensures var a := Pow2(k); ret == if (Blocks(len, a) > 0 && !ok) || (len % a > 0 && r2.Failed?) then -1 else 0
      ensures var a := Pow2(k);
        forall x: nat :: disk(x) ==
          if || Within(x, offset, if ok then Blocks(len, a) else 0)
             || (ret == 0 && Within(x, offset + Blocks(len, a), Count(r2)))
          then 0 else old(disk)(x)
      ensures punched == old(punched) + if Blocks(len, Pow2(k)) > 0 then [(offset, Blocks(len, Pow2(k)))] else []
      ensures punched != old(punched) ==> offset % Pow2(k) == 0 && Blocks(len, Pow2(k)) % Pow2(k) == 0
    {
      var a := Pow2(k);
      ret := -1;
      var fpOffset, fpLength := offset, len;
      AlignDownRounds(len, k, w);
      WholeBlocks(len, a);
      var alignedLength := AlignDown(fpLength, a, Pow2(w));
      if alignedLength >= a {
        assert fpOffset % a == 0;
        PunchHole(fpOffset, alignedLength, ok);
        if !ok { return; }
        fpOffset, fpLength := fpOffset + alignedLength, fpLength - alignedLength;
        SumAligned(offset, alignedLength, a);
      }
      if fpLength > 0 {
        assert fpLength < a;
        assert fpOffset % a == 0;
        Zero(fpOffset, Count(r2));
        if r2.Failed? { return; }
      }
      ret := 0;
    }

    /** The first part of `block_delete`: overwrite up to the first block boundary. */
    method DeleteHead(offset: nat, len: nat, r1: Xfer) returns (head: nat, failed: bool)
      requires k <= w && offset + len + Pow2(k) <= Pow2(w) && Count(r1) <= HeadLen(offset, len, Pow2(k))
      modifies `disk
      ensures head == HeadLen(offset, len, Pow2(k)) && (failed <==> Gap(offset, Pow2(k)) > 0 && r1.Failed?)
      ensures forall x: nat :: disk(x) == if Within(x, offset, Count(r1)) then 0 else old(disk)(x)
    {
      var a := Pow2(k);
      AlignUpRounds(offset, k, w);
      var alignedOffset := AlignUp(offset, a, Pow2(w));
      head, failed := 0, false;
      if alignedOffset != offset {
        head := Min(len, alignedOffset - offset);
        assert head < a;
        Zero(offset, Count(r1));
        failed := r1.Failed?;
      }
    }

    /**
      `block_delete` on a plain file. `r1` and `r2` are the outcomes of writing the unaligned ends and
      `ok` of the punch. Only -1 is looked for, so a short write goes unnoticed. The checks of
      bc_candelete and bc_rdonly set errno and nothing else, so they are not part of the outcome.
     */
    method Delete(offset: nat, len: nat, r1: Xfer, ok: bool, r2: Xfer) returns (ret: int)
      requires k <= w && offset + len + Pow2(k) <= Pow2(w)
      requires Count(r1) <= HeadLen(offset, len, Pow2(k)) && Count(r2) <= TailLen(offset, len, Pow2(k))
      modifies this
      ensures var a := Pow2(k);
        ret ==
          if || (Gap(offset, a) > 0 && r1.Failed?)
             || (MidLen(offset, len, a) > 0 && !ok)
             || (TailLen(offset, len, a) > 0 && r2.Failed?)
          then -1 else 0
      ensures ret == 0 ==>
        forall x: nat :: disk(x) == if Hit(x, offset, len, Pow2(k), Count(r1), Count(r2)) then 0 else old(disk)(x)
      ensures forall x: nat :: !Within(x, offset, len) ==> disk(x) == old(disk)(x)
      ensures punched == old(punched) || exists o, n ::
        punched == old(punched) + [(o, n)] && o % Pow2(k) == 0 && n % Pow2(k) == 0
    {
      Parts(offset, len, Pow2(k));
      var head, failed := DeleteHead(offset, len, r1);
      if failed {
        return -1;
      }
      ret := DeleteAligned(offset + head, len - head, ok, r2);
    }
  }

  lemma WholeBlocks(len: nat, a: nat)
    requires a > 0
    ensures Blocks(len, a) % a == 0 && (Blocks(len, a) == 0 || Blocks(len, a) >= a)
  {
    var q := len / a;
    assert Blocks(len, a) == a * q + 0;
    ModUnique(Blocks(len, a), a, q, 0);
    MultipleSmall(Blocks(len, a), a);
  }

  lemma SumAligned(x: nat, y: nat, a: nat)
    requires a > 0 && x % a == 0 && y % a == 0
    ensures (x + y) % a == 0
  {
    var p, q := x / a, y / a;
    assert x + y == a * (p + q) + 0 by { assert a * (p + q) == a * p + a * q; }
    ModUnique(x + y, a, p + q, 0);
  }

  lemma MultipleSmall(m: nat, a: nat)
    requires a > 0 && m % a == 0
    ensures m == 0 || m >= a
  {
    if m < a { SmallMod(m, a); }
  }
}
