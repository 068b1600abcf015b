/**
  How the AHCI device turns a guest's physical region descriptor table into disk requests
  (src/lib/pci_ahci.c:563-615, 617-691, 1901-1922): a request holds a limited number of segments, so a
  long transfer is cut into sector-aligned batches, each continuing where the previous one stopped.
 */
module AhciIov {
  import opened Iovec
  import opened Prelude
  import Bits

  /** BLOCKIF_IOV_MAX. */
  const IOV_MAX: nat := 126

  /** A table entry: its low 22 bits of dbc hold the byte count less one. */
  datatype Prd = Prd(dba: nat, dbc: nat)

  function Seg(e: Prd): (v: Iov)
    ensures v.len > 0
  { Iov(e.dba, e.dbc % 0x40_0000 + 1) }

  /** The count as the register holds it: DBCMASK picks the low 22 bits. */
  lemma SegIs(e: Prd)
    ensures Seg(e).base == e.dba && Seg(e).len == Bits.And(e.dbc, 0x3f_ffff) + 1
  {
    Bits.Pow2Of22();
    Bits.AndLowMask(e.dbc, 22);
    Bits.RemIsMod(e.dbc, Bits.Pow2(22));
  }

  function Segs(prdt: seq<Prd>): (v: seq<Iov>)
    ensures |v| == |prdt| && forall i :: 0 <= i < |v| ==> v[i] == Seg(prdt[i])
  { seq(|prdt|, i requires 0 <= i < |prdt| => Seg(prdt[i])) }

  predicate Solid(v: seq<Iov>) { forall i :: 0 <= i < |v| ==> v[i].len > 0 }

  /** The first loop of `ahci_build_iov`: the segments it collects and the entries it passes. */
  function Fetch(v: seq<Iov>, skip: nat, left: nat, room: nat): (r: (seq<Iov>, nat)) {
    if v == [] || room == 0 || left == 0 then ([], 0)
    else if v[0].len <= skip then
      var (w, i) := Fetch(v[1..], skip - v[0].len, left, room);
      (w, i + 1)
    else
      var n := Min(v[0].len - skip, left);
      var (w, i) := Fetch(v[1..], 0, left - n, room - 1);
      ([Iov(v[0].base + skip, n)] + w, i + 1)
  }

  /** The second loop: `extra` bytes off the end. */
  function Trim(w: seq<Iov>, extra: nat): (r: seq<Iov>) {
    if extra == 0 || w == [] then w
    else
      var last := w[|w| - 1];
      if last.len > extra then w[..|w| - 1] + [Iov(last.base, last.len - extra)]
      else Trim(w[..|w| - 1], extra - last.len)
  }

  /** The length of a list in bytes. */
  function Bytes(v: seq<Iov>): (n: nat) {
    if v == [] then 0 else v[0].len + Bytes(v[1..])
  }

  // ---------------------------------------------------------------- what the loops collect

  lemma {:induction false} BytesAddrs(v: seq<Iov>)
    ensures |Addrs(v)| == Bytes(v)
  {
    if v != [] { BytesAddrs(v[1..]); }
  }

  /** From the start of a list: a prefix of its addresses, as long as room and `left` allow. */
  lemma {:induction false} FrontAddrs(v: seq<Iov>, left: nat, room: nat)
    requires Solid(v)
    ensures Addrs(Fetch(v, 0, left, room).0) <= Addrs(v)
  {
    if v != [] && room > 0 && left > 0 {
      var n := Min(v[0].len, left);
      var w := Fetch(v[1..], 0, left - n, room - 1).0;
      FrontAddrs(v[1..], left - n, room - 1);
      assert ([Iov(v[0].base, n)] + w)[1..] == w;
      SpanSplit(v[0].base, v[0].len, n);
      if n < v[0].len { assert w == []; }
    }
  }

  lemma {:induction false} SkipIsPull(v: seq<Iov>, skip: nat, left: nat, room: nat)
    requires Solid(v)
    ensures Fetch(v, skip, left, room).0 == Fetch(Pulled(v, skip), 0, left, room).0
  {
    if v != [] && room > 0 && left > 0 && skip > 0 {
      if v[0].len <= skip {
        SkipIsPull(v[1..], skip - v[0].len, left, room);
      } else {
        assert Pulled(v, skip)[1..] == v[1..];
      }
    }
  }

  lemma {:induction false} FetchSize(v: seq<Iov>, skip: nat, left: nat, room: nat)
    requires Solid(v)
    ensures
      var (w, i) := Fetch(v, skip, left, room);
      && Solid(w) && |w| <= room && i <= |v| && Bytes(w) <= left
      && (|w| < room ==> Bytes(w) == left || skip + Bytes(w) >= Bytes(v))
      && (Bytes(w) < left && i == |v| ==> skip + Bytes(w) >= Bytes(v))
  {
    if v != [] && room > 0 && left > 0 {
      if v[0].len <= skip {
        FetchSize(v[1..], skip - v[0].len, left, room);
      } else {
        var n := Min(v[0].len - skip, left);
        FetchSize(v[1..], 0, left - n, room - 1);
        var w := Fetch(v[1..], 0, left - n, room - 1).0;
        assert ([Iov(v[0].base + skip, n)] + w)[1..] == w;
      }
    }
  }

  /** The batch visits the table's addresses from `skip` on, none left out and none repeated. */
  lemma FetchAddrs(v: seq<Iov>, skip: nat, left: nat, room: nat)
    requires Solid(v) && skip <= |Addrs(v)|
    ensures Addrs(Fetch(v, skip, left, room).0) <= Addrs(v)[skip..]
  {
    SkipIsPull(v, skip, left, room);
    PulledAddrs(v, skip);
    PulledSolid(v, skip);
    FrontAddrs(Pulled(v, skip), left, room);
  }

  lemma {:induction false} PulledSolid(v: seq<Iov>, skip: nat)
    requires Solid(v)
    ensures Solid(Pulled(v, skip))
  {
    if skip > 0 && v != [] && v[0].len <= skip { PulledSolid(v[1..], skip - v[0].len); }
  }

  lemma {:induction false} TrimAddrs(w: seq<Iov>, extra: nat)
    requires extra <= |Addrs(w)|
    ensures Addrs(Trim(w, extra)) == Addrs(w)[..|Addrs(w)| - extra]
    decreases |w|
  {
    if extra > 0 && w != [] {
      var n := |w| - 1;
      var last := w[n];
      assert w == w[..n] + [last];
      AddrsConcat(w[..n], [last]);
      AddrsOne(last);
      if last.len > extra {
        AddrsConcat(w[..n], [Iov(last.base, last.len - extra)]);
        AddrsOne(Iov(last.base, last.len - extra));
        SpanSplit(last.base, last.len, last.len - extra);
      } else {
        TrimAddrs(w[..n], extra - last.len);
      }
    }
  }

  lemma AddrsOne(e: Iov)
    ensures Addrs([e]) == Span(e.base, e.len)
  {
    assert [e][1..] == [];
  }

  // ---------------------------------------------------------------- one batch

  datatype Batch = Batch(iov: seq<Iov>, todo: nat, more: bool)

  /** `ahci_build_iov`: a batch limited by its segments is rounded down to whole sectors. */
  function Build(v: seq<Iov>, done: nat, len: nat, sect: nat): (r: Batch)
    requires sect > 0 && done <= len
  {
    var (w, i) := Fetch(v, done, len - done, IOV_MAX);
    var extra := if |w| == IOV_MAX then Bytes(w) % sect else 0;
    var todo := Bytes(w) - extra;
    Batch(Trim(w, extra), todo, done + todo < len && i < |v|)
  }

  /** The assertion that rounding down leaves something. */
  predicate AssertHolds(v: seq<Iov>, done: nat, len: nat, sect: nat)
    requires sect > 0 && done <= len
  {
    |Fetch(v, done, len - done, IOV_MAX).0| == IOV_MAX ==> Build(v, done, len, sect).todo > 0
  }

  lemma RoundDown(n: nat, sect: nat)
    requires sect > 0
    ensures n % sect <= n && (n - n % sect) % sect == 0
    ensures n - n % sect > 0 <==> n >= sect
  {
    var q := n / sect;
    assert n == sect * q + n % sect;
    Bits.ModUnique(n - n % sect, sect, q, 0);
    if q > 0 { Bits.MulStrict(sect, 0, q); } else { assert sect * q == 0; }
  }

  lemma AlignedSum(a: nat, b: nat, sect: nat)
    requires sect > 0 && a % sect == 0
    ensures (a + b) % sect == b % sect
  {
    var q, p := a / sect, b / sect;
    assert a + b == sect * (q + p) + b % sect by { assert sect * (q + p) == sect * q + sect * p; }
    Bits.ModUnique(a + b, sect, q + p, b % sect);
  }

  /** It fails when the batch is full and holds less than one sector. */
  lemma ShortBatch(v: seq<Iov>, done: nat, len: nat, sect: nat)
    requires sect > 0 && done <= len
    ensures AssertHolds(v, done, len, sect) <==>
      var w := Fetch(v, done, len - done, IOV_MAX).0; !(|w| == IOV_MAX && Bytes(w) < sect)
  {
    RoundDown(Bytes(Fetch(v, done, len - done, IOV_MAX).0), sect);
  }

  /** The entry that holds a byte of the table. */
  function EntryAt(v: seq<Iov>, pos: nat): (j: nat)
    ensures pos < Bytes(v) ==> j < |v|
  { if v == [] || pos < v[0].len then 0 else 1 + EntryAt(v[1..], pos - v[0].len) }

  /** The bytes of the first k entries. */
  function Upto(v: seq<Iov>, k: nat): (n: nat)
    requires k <= |v|
  { if k == 0 then 0 else v[0].len + Upto(v[1..], k - 1) }

  /** Which byte an entry holds, said without the recursion. */
  lemma {:induction false} EntryAtIs(v: seq<Iov>, pos: nat)
    requires pos < Bytes(v)
    ensures var j := EntryAt(v, pos); j < |v| && Upto(v, j) <= pos < Upto(v, j + 1)
  {
    if pos >= v[0].len { EntryAtIs(v[1..], pos - v[0].len); }
  }

  lemma {:induction false} FrontIff(v: seq<Iov>, left: nat, room: nat)
    requires Solid(v)
    ensures
      var w := Fetch(v, 0, left, room).0;
      && (|w| == room && Bytes(w) < left <==> room <= |v| && Upto(v, room) < left)
      && (|w| == room && Bytes(w) < left ==> Bytes(w) == Upto(v, room))
  {
    if v != [] && room > 0 && left > 0 {
      var n := Min(v[0].len, left);
      var w := Fetch(v[1..], 0, left - n, room - 1).0;
      assert ([Iov(v[0].base, n)] + w)[1..] == w;
      FrontIff(v[1..], left - n, room - 1);
    }
  }

  /** A batch is full, short of the command's end, when the entries from the one at `skip` on allow it. */
  lemma {:induction false} FetchIff(v: seq<Iov>, skip: nat, left: nat, room: nat)
    requires Solid(v) && room > 0 && left > 0 && skip < Bytes(v)
    ensures
      var w, j := Fetch(v, skip, left, room).0, EntryAt(v, skip);
      && (|w| == room && Bytes(w) < left <==> j + room <= |v| && Upto(v, j + room) < skip + left)
      && (|w| == room && Bytes(w) < left ==> Bytes(w) == Upto(v, j + room) - skip)
  {
    if v[0].len <= skip {
      FetchIff(v[1..], skip - v[0].len, left, room);
    } else {
      var n := Min(v[0].len - skip, left);
      var w := Fetch(v[1..], 0, left - n, room - 1).0;
      assert ([Iov(v[0].base + skip, n)] + w)[1..] == w;
      FrontIff(v[1..], left - n, room - 1);
    }
  }

  /**
    Said of the table: for a command of whole sectors the assertion fails exactly when 126 entries follow
    from the one that holds the first byte still to move, and they end before the next sector does.
   */
  lemma AssertHoldsIff(v: seq<Iov>, done: nat, len: nat, sect: nat)
    requires sect > 0 && Covered(v, done, len, sect) && done < len
    ensures
      var j := EntryAt(v, done);
      AssertHolds(v, done, len, sect) <==> !(j + IOV_MAX <= |v| && Upto(v, j + IOV_MAX) < done + sect)
  {
    ShortBatch(v, done, len, sect);
    BytesAddrs(v);
    FetchIff(v, done, len - done, IOV_MAX);
    FetchSize(v, done, len - done, IOV_MAX);
    SectorLeft(done, len, sect);
  }

  lemma SectorLeft(done: nat, len: nat, sect: nat)
    requires sect > 0 && done < len && done % sect == 0 && len % sect == 0
    ensures len - done >= sect
  {
    WholeLeft(done, len, sect);
    if len - done < sect { Bits.SmallMod(len - done, sect); }
  }

  /** 127 two-byte entries make such a table. */
  lemma AssertCanFail()
    ensures
      var v := seq(127, _ => Iov(0, 2));
      Solid(v) && !AssertHolds(v, 0, 512, 512)
  {
    var v := seq(127, _ => Iov(0, 2));
    FetchTwos(v, 512, IOV_MAX);
    ShortBatch(v, 0, 512, 512);
  }

  lemma {:induction false} FetchTwos(v: seq<Iov>, left: nat, room: nat)
    requires room < |v| && 2 * room < left && forall i :: 0 <= i < |v| ==> v[i] == Iov(0, 2)
    ensures var w := Fetch(v, 0, left, room).0; |w| == room && Bytes(w) == 2 * room
  {
    if room > 0 {
      FetchTwos(v[1..], left - 2, room - 1);
      var w := Fetch(v[1..], 0, left - 2, room - 1).0;
      assert ([v[0]] + w)[1..] == w;
    }
  }

  /** A command of whole sectors, covered by its table and done up to a sector boundary. */
  predicate Covered(v: seq<Iov>, done: nat, len: nat, sect: nat)
    requires sect > 0
  { Solid(v) && done <= len <= |Addrs(v)| && done % sect == 0 && len % sect == 0 }

  lemma TrimmedPrefix(a: seq<nat>, skip: nat, w: seq<Iov>, extra: nat)
    requires skip <= |a| && Addrs(w) <= a[skip..] && extra <= |Addrs(w)|
    ensures skip + |Addrs(w)| <= |a| && Addrs(Trim(w, extra)) == a[skip..skip + |Addrs(w)| - extra]
  {
    TrimAddrs(w, extra);
  }

  lemma BatchAddrs(v: seq<Iov>, done: nat, left: nat, w: seq<Iov>, extra: nat)
    requires Solid(v) && done <= |Addrs(v)| && w == Fetch(v, done, left, IOV_MAX).0 && extra <= Bytes(w)
    ensures Bytes(w) <= left && done + Bytes(w) <= |Addrs(v)|
    ensures Addrs(Trim(w, extra)) == Addrs(v)[done..done + (Bytes(w) - extra)]
  {
    FetchSize(v, done, left, IOV_MAX);
    FetchAddrs(v, done, left, IOV_MAX);
    BytesAddrs(w);
    TrimmedPrefix(Addrs(v), done, w, extra);
  }

  lemma BuildAddrs(v: seq<Iov>, done: nat, len: nat, sect: nat)
    requires Solid(v) && sect > 0 && done <= len <= |Addrs(v)|
    ensures done + Build(v, done, len, sect).todo <= len
    ensures Addrs(Build(v, done, len, sect).iov) == Addrs(v)[done..done + Build(v, done, len, sect).todo]
  {
    var w := Fetch(v, done, len - done, IOV_MAX).0;
    RoundDown(Bytes(w), sect);
    BatchAddrs(v, done, len - done, w, if |w| == IOV_MAX then Bytes(w) % sect else 0);
  }

  lemma BuildAligned(v: seq<Iov>, done: nat, len: nat, sect: nat)
    requires sect > 0 && Covered(v, done, len, sect)
    ensures (done + Build(v, done, len, sect).todo) % sect == 0
  {
    var w := Fetch(v, done, len - done, IOV_MAX).0;
    FetchSize(v, done, len - done, IOV_MAX);
    BytesAddrs(v);
    RoundDown(Bytes(w), sect);
    AlignedSum(done, Build(v, done, len, sect).todo, sect);
    WholeLeft(done, len, sect);
  }

  lemma BuildMore(v: seq<Iov>, done: nat, len: nat, sect: nat)
    requires sect > 0 && Covered(v, done, len, sect)
    ensures Build(v, done, len, sect).more <==> done + Build(v, done, len, sect).todo < len
  {
    var (w, i) := Fetch(v, done, len - done, IOV_MAX);
    FetchSize(v, done, len - done, IOV_MAX);
    BytesAddrs(v);
    WholeLeft(done, len, sect);
  }

  /**
    One batch of such a command: it covers the table from `done` on, stays on sector boundaries, and says
    there is more exactly when the command is not finished.
   */
  lemma BuildIs(v: seq<Iov>, done: nat, len: nat, sect: nat)
    requires sect > 0 && Covered(v, done, len, sect)
    ensures
      var b := Build(v, done, len, sect);
      && Covered(v, done + b.todo, len, sect)
      && Addrs(b.iov) == Addrs(v)[done..done + b.todo]
      && (b.more <==> done + b.todo < len)
  {
    BuildAddrs(v, done, len, sect);
    BuildAligned(v, done, len, sect);
    BuildMore(v, done, len, sect);
  }

  lemma WholeLeft(done: nat, len: nat, sect: nat)
    requires sect > 0 && done <= len && done % sect == 0 && len % sect == 0
    ensures (len - done) % sect == 0
  {
    AlignedSum(done, len - done, sect);
  }

  // ---------------------------------------------------------------- a whole transfer

  /** A request as it reaches the disk: where it starts, relative to the command's first sector, and its segments. */
  datatype Chunk = Chunk(off: nat, iov: seq<Iov>)

  /** The requests issued for a command: each completion with `more` set builds the next batch. */
  ghost predicate Transfers(v: seq<Iov>, done: nat, len: nat, sect: nat, chunks: seq<Chunk>)
    requires sect > 0
    decreases |chunks|
  {
    && done <= len && chunks != [] && AssertHolds(v, done, len, sect)
    && var b := Build(v, done, len, sect);
       && chunks[0] == Chunk(done, b.iov)
       && if b.more then Transfers(v, done + b.todo, len, sect, chunks[1..]) else |chunks| == 1
  }

  function Visited(chunks: seq<Chunk>): (s: seq<nat>) {
    if chunks == [] then [] else Addrs(chunks[0].iov) + Visited(chunks[1..])
  }

  /** Each request starts on a sector boundary, where the bytes of the earlier ones end. */
  predicate Contiguous(chunks: seq<Chunk>, done: nat, sect: nat)
    requires sect > 0
  {
    chunks == [] ||
    (chunks[0].off == done && done % sect == 0 && Contiguous(chunks[1..], done + |Addrs(chunks[0].iov)|, sect))
  }

  lemma Joined(a: seq<nat>, i: nat, j: nat, k: nat)
    requires i <= j <= k <= |a|
    ensures a[i..j] + a[j..k] == a[i..k]
  {
  }

  lemma VisitedStep(a: seq<nat>, chunks: seq<Chunk>, from: nat, mid: nat, done: nat)
    requires from <= mid <= done <= |a| && chunks != []
    requires Addrs(chunks[0].iov) == a[from..mid] && Visited(chunks[1..]) == a[mid..done]
    ensures Visited(chunks) == a[from..done]
  {
    Joined(a, from, mid, done);
  }

  lemma {:induction false} TransferVisits(v: seq<Iov>, done: nat, len: nat, sect: nat, chunks: seq<Chunk>)
    requires sect > 0 && Covered(v, done, len, sect) && Transfers(v, done, len, sect, chunks)
    ensures Visited(chunks) == Addrs(v)[done..len]
    decreases |chunks|
  {
    BuildIs(v, done, len, sect);
    var b := Build(v, done, len, sect);
    if b.more {
      TransferVisits(v, done + b.todo, len, sect, chunks[1..]);
    } else {
      assert chunks[1..] == [] && Addrs(v)[done + b.todo..len] == [];
    }
    VisitedStep(Addrs(v), chunks, done, done + b.todo, len);
  }

  lemma {:induction false} TransferContiguous(v: seq<Iov>, done: nat, len: nat, sect: nat, chunks: seq<Chunk>)
    requires sect > 0 && Covered(v, done, len, sect) && Transfers(v, done, len, sect, chunks)
    ensures Contiguous(chunks, done, sect)
    decreases |chunks|
  {
    BuildIs(v, done, len, sect);
    var b := Build(v, done, len, sect);
    if b.more {
      TransferContiguous(v, done + b.todo, len, sect, chunks[1..]);
    } else {
      assert chunks[1..] == [];
    }
  }

  /**
    The requests of a command, taken together, move exactly its bytes: their segments visit the table's
    first `len` addresses in order, and their disk offsets follow one another by whole sectors.
   */
  lemma TransferExact(v: seq<Iov>, len: nat, sect: nat, chunks: seq<Chunk>)
    requires sect > 0 && Covered(v, 0, len, sect) && Transfers(v, 0, len, sect, chunks)
    ensures Visited(chunks) == Addrs(v)[..len] && Contiguous(chunks, 0, sect)
  {
    TransferVisits(v, 0, len, sect, chunks);
    TransferContiguous(v, 0, len, sect, chunks);
  }

  /** How far the command has got after n batches. */
  function DoneAfter(v: seq<Iov>, done: nat, len: nat, sect: nat, n: nat): (d: nat)
    requires sect > 0 && Covered(v, done, len, sect)
    ensures Covered(v, d, len, sect)
    decreases n
  {
    BuildIs(v, done, len, sect);
    var b := Build(v, done, len, sect);
    if n == 0 || !b.more then done else DoneAfter(v, done + b.todo, len, sect, n - 1)
  }

  /** Every batch that is reached passes the assertion. */
  ghost predicate EachHolds(v: seq<Iov>, done: nat, len: nat, sect: nat)
    requires sect > 0 && Covered(v, done, len, sect)
  { forall n: nat :: AssertHolds(v, DoneAfter(v, done, len, sect, n), len, sect) }

  /** The batches from the second on. */
  lemma EachTail(v: seq<Iov>, done: nat, len: nat, sect: nat)
    requires sect > 0 && Covered(v, done, len, sect) && Build(v, done, len, sect).more
    ensures
      var d := done + Build(v, done, len, sect).todo;
      && Covered(v, d, len, sect)
      && (EachHolds(v, done, len, sect) <==> AssertHolds(v, done, len, sect) && EachHolds(v, d, len, sect))
  {
    BuildIs(v, done, len, sect);
    var d := done + Build(v, done, len, sect).todo;
    if EachHolds(v, done, len, sect) {
      assert DoneAfter(v, done, len, sect, 0) == done;
      forall n: nat ensures AssertHolds(v, DoneAfter(v, d, len, sect, n), len, sect) {
        assert DoneAfter(v, done, len, sect, n + 1) == DoneAfter(v, d, len, sect, n);
      }
    }
    if AssertHolds(v, done, len, sect) && EachHolds(v, d, len, sect) {
      forall n: nat ensures AssertHolds(v, DoneAfter(v, done, len, sect, n), len, sect) {
        if n > 0 { assert DoneAfter(v, done, len, sect, n) == DoneAfter(v, d, len, sect, n - 1); }
      }
    }
  }

  /** Then the chain of batches comes to an end. */
  lemma {:induction false} TransferEnds(v: seq<Iov>, done: nat, len: nat, sect: nat) returns (chunks: seq<Chunk>)
    requires sect > 0 && Covered(v, done, len, sect) && EachHolds(v, done, len, sect)
    ensures Transfers(v, done, len, sect, chunks)
    decreases len - done
  {
    BuildIs(v, done, len, sect);
    assert AssertHolds(v, DoneAfter(v, done, len, sect, 0), len, sect);
    var b := Build(v, done, len, sect);
    chunks := [Chunk(done, b.iov)];
    if b.more {
      BatchMoves(v, done, len, sect);
      EachTail(v, done, len, sect);
      var rest := TransferEnds(v, done + b.todo, len, sect);
      chunks := chunks + rest;
      assert chunks[1..] == rest;
    }
  }

  lemma {:induction false} EndedHolds(v: seq<Iov>, done: nat, len: nat, sect: nat, chunks: seq<Chunk>)
    requires sect > 0 && Covered(v, done, len, sect) && Transfers(v, done, len, sect, chunks)
    ensures EachHolds(v, done, len, sect)
    decreases |chunks|
  {
    BuildIs(v, done, len, sect);
    var b := Build(v, done, len, sect);
    if b.more {
      EndedHolds(v, done + b.todo, len, sect, chunks[1..]);
      EachTail(v, done, len, sect);
    } else {
      forall n: nat ensures DoneAfter(v, done, len, sect, n) == done {}
    }
  }

  /** The command ends after finitely many requests. */
  ghost predicate Completes(v: seq<Iov>, done: nat, len: nat, sect: nat)
    requires sect > 0
  { exists chunks :: Transfers(v, done, len, sect, chunks) }

  /** It does if and only if every batch it reaches passes the assertion. */
  lemma CompletesIff(v: seq<Iov>, done: nat, len: nat, sect: nat)
    requires sect > 0 && Covered(v, done, len, sect)
    ensures Completes(v, done, len, sect) <==> EachHolds(v, done, len, sect)
  {
    if EachHolds(v, done, len, sect) {
      var chunks := TransferEnds(v, done, len, sect);
      assert Transfers(v, done, len, sect, chunks);
    }
    if Completes(v, done, len, sect) {
      var chunks :| Transfers(v, done, len, sect, chunks);
      EndedHolds(v, done, len, sect, chunks);
    }
  }

  /** Any 125 neighbouring entries hold a sector. */
  ghost predicate Wide(v: seq<Iov>, sect: nat) {
    forall j: nat :: j + IOV_MAX <= |v| ==> Next125(v, j) >= sect
  }

  /** The bytes of the 125 entries after the j-th. */
  function Next125(v: seq<Iov>, j: nat): (n: int)
    requires j + IOV_MAX <= |v|
  { Upto(v, j + IOV_MAX) - Upto(v, j + 1) }

  /** On such a table every command completes. */
  lemma WideCompletes(v: seq<Iov>, done: nat, len: nat, sect: nat)
    requires sect > 0 && Covered(v, done, len, sect) && Wide(v, sect)
    ensures Completes(v, done, len, sect)
  {
    forall n: nat ensures AssertHolds(v, DoneAfter(v, done, len, sect, n), len, sect) {
      WideHolds(v, DoneAfter(v, done, len, sect, n), len, sect);
    }
    CompletesIff(v, done, len, sect);
  }

  lemma WideHolds(v: seq<Iov>, done: nat, len: nat, sect: nat)
    requires sect > 0 && Covered(v, done, len, sect) && Wide(v, sect)
    ensures AssertHolds(v, done, len, sect)
  {
    if done < len {
      AssertHoldsIff(v, done, len, sect);
      BytesAddrs(v);
      EntryAtIs(v, done);
      assert EntryAt(v, done) + IOV_MAX <= |v| ==> Next125(v, EntryAt(v, done)) >= sect;
    }
  }

  lemma BatchMoves(v: seq<Iov>, done: nat, len: nat, sect: nat)
    requires Solid(v) && sect > 0 && done < len <= |Addrs(v)| && AssertHolds(v, done, len, sect)
    ensures Build(v, done, len, sect).todo > 0
  {
    FetchSize(v, done, len - done, IOV_MAX);
    BytesAddrs(v);
  }

  // ---------------------------------------------------------------- the request being built

  lemma {:induction false} BytesSnoc(w: seq<Iov>, e: Iov)
    ensures Bytes(w + [e]) == Bytes(w) + e.len
  {
    if w != [] {
      assert (w + [e])[1..] == w[1..] + [e];
      BytesSnoc(w[1..], e);
    }
  }

  /** One turn of the second loop. */
  lemma TrimStep(w: seq<Iov>, rest: nat)
    requires 0 < rest < Bytes(w)
    ensures w != []
    ensures
      var n, last := |w| - 1, w[|w| - 1];
      && Bytes(w) == Bytes(w[..n]) + last.len
      && Trim(w, rest) ==
           if last.len > rest then w[..n] + [Iov(last.base, last.len - rest)] else Trim(w[..n], rest - last.len)
  {
    var n := |w| - 1;
    assert w == w[..n] + [w[n]];
    BytesSnoc(w[..n], w[n]);
  }

  /** What the first loop has, w after i entries, and what it will still add make up f. */
  ghost predicate Ahead(f: (seq<Iov>, nat), w: seq<Iov>, v: seq<Iov>, i: nat, skip: nat, left: nat, room: nat)
    requires i <= |v|
  {
    var g := Fetch(v[i..], skip, left, room);
    f == (w + g.0, i + g.1)
  }

  lemma AheadStart(v: seq<Iov>, skip: nat, left: nat, room: nat, w: seq<Iov>)
    requires w == []
    ensures Ahead(Fetch(v, skip, left, room), w, v, 0, skip, left, room)
  {
    var f := Fetch(v, skip, left, room);
    assert v[0..] == v && w + f.0 == f.0;
  }

  lemma AheadSkip(f: (seq<Iov>, nat), w: seq<Iov>, v: seq<Iov>, i: nat, skip: nat, left: nat, room: nat)
    requires i < |v| && room > 0 && left > 0 && v[i].len <= skip && Ahead(f, w, v, i, skip, left, room)
    ensures Ahead(f, w, v, i + 1, skip - v[i].len, left, room)
  {
    assert v[i..][1..] == v[i + 1..];
  }

  lemma AheadTake(f: (seq<Iov>, nat), w: seq<Iov>, v: seq<Iov>, i: nat, skip: nat, left: nat, room: nat, n: nat)
    requires i < |v| && room > 0 && left > 0 && v[i].len > skip && Ahead(f, w, v, i, skip, left, room)
    requires n == Min(v[i].len - skip, left)
    ensures Ahead(f, w + [Iov(v[i].base + skip, n)], v, i + 1, 0, left - n, room - 1)
  {
    assert v[i..][1..] == v[i + 1..];
    var g := Fetch(v[i + 1..], 0, left - n, room - 1);
    var e := Iov(v[i].base + skip, n);
    assert w + ([e] + g.0) == (w + [e]) + g.0;
  }

  lemma AheadDone(f: (seq<Iov>, nat), w: seq<Iov>, v: seq<Iov>, i: nat, skip: nat, left: nat, room: nat)
    requires i <= |v| && (i == |v| || room == 0 || left == 0) && Ahead(f, w, v, i, skip, left, room)
    ensures f == (w, i)
  {
    assert w + [] == w;
  }

  /** struct ahci_ioreq with the segment array of its block request. */
  class IoReq {
    const iov: array<Iov>
    var iovcnt: nat
    var resid: nat
    var len: nat
    var done: nat
    var more: bool

    constructor ()
      ensures iov.Length == IOV_MAX && fresh(iov)
    {
      iov := new Iov[IOV_MAX](_ => Iov(0, 0));
      iovcnt, resid, len, done, more := 0, 0, 0, 0, false;
    }

    method Put(j: nat, e: Iov)
      requires j < iov.Length
      modifies iov
      ensures iov[..j + 1] == old(iov[..j]) + [e] && Bytes(iov[..j + 1]) == old(Bytes(iov[..j])) + e.len
    {
      BytesSnoc(iov[..j], e);
      iov[j] := e;
      assert iov[..j + 1] == old(iov[..j]) + [e];
    }

    /** The first loop: segments up to the table's end, the array's end or the command's end. */
    method Collect(v: seq<Iov>) returns (i: nat, j: nat, todo: nat)
      requires iov.Length == IOV_MAX && done <= len
      modifies iov
      ensures j <= IOV_MAX && (iov[..j], i) == Fetch(v, done, len - done, IOV_MAX) && todo == Bytes(iov[..j])
    {
      var skip: nat, left: nat := done, len - done;
      ghost var f := Fetch(v, skip, left, IOV_MAX);
      i, j, todo := 0, 0, 0;
      AheadStart(v, skip, left, IOV_MAX, iov[..0]);
      while i < |v| && j < IOV_MAX && left > 0
        invariant i <= |v| && j <= IOV_MAX && todo == Bytes(iov[..j])
        invariant Ahead(f, iov[..j], v, i, skip, left, IOV_MAX - j)
        decreases |v| - i
      {
        var dbcsz := v[i].len;
        if dbcsz <= skip {
          AheadSkip(f, iov[..j], v, i, skip, left, IOV_MAX - j);
          skip := skip - dbcsz;
        } else {
          dbcsz := Min(dbcsz - skip, left);
          AheadTake(f, iov[..j], v, i, skip, left, IOV_MAX - j, dbcsz);
          Put(j, Iov(v[i].base + skip, dbcsz));
          todo, left, skip, j := todo + dbcsz, left - dbcsz, 0, j + 1;
        }
        i := i + 1;
      }
      AheadDone(f, iov[..j], v, i, skip, left, IOV_MAX - j);
    }

    /** The second loop: drop `extra` bytes, whole segments first. */
    method Shorten(n: nat, extra: nat) returns (j: nat)
      requires n <= iov.Length && extra < Bytes(iov[..n])
      modifies iov
      ensures j <= n && iov[..j] == Trim(old(iov[..n]), extra)
    {
      j := n;
      var rest: nat := extra;
      while rest > 0
        invariant j <= n && rest < Bytes(iov[..j]) && iov[..] == old(iov[..])
        invariant Trim(old(iov[..n]), extra) == Trim(iov[..j], rest)
        decreases j
      {
        ghost var w := iov[..j];
        TrimStep(w, rest);
        assert w[..j - 1] == iov[..j - 1];
        if iov[j - 1].len > rest {
          ShortenLast(j, rest);
          return;
        }
        rest, j := rest - iov[j - 1].len, j - 1;
      }
    }

    method ShortenLast(j: nat, rest: nat)
      requires 0 < j <= iov.Length && iov[j - 1].len > rest
      modifies iov
      ensures iov[..j] == old(iov[..j - 1]) + [Iov(old(iov[j - 1]).base, old(iov[j - 1]).len - rest)]
    {
      iov[j - 1] := Iov(iov[j - 1].base, iov[j - 1].len - rest);
    }

    /** `ahci_build_iov`. */
    method BuildIov(prdt: seq<Prd>, sect: nat)
      requires iov.Length == IOV_MAX && sect > 0 && done <= len
      requires AssertHolds(Segs(prdt), done, len, sect)
      modifies this, iov
      ensures iovcnt <= IOV_MAX && len == old(len) && done == old(done) + resid
      ensures Batch(iov[..iovcnt], resid, more) == Build(Segs(prdt), old(done), len, sect)
    {
      var i, j, todo := Collect(Segs(prdt));
      if j == IOV_MAX {
        var extra := todo % sect;
        RoundDown(todo, sect);
        todo := todo - extra;
        assert todo > 0;
        j := Shorten(j, extra);
      }
      iovcnt, resid, done := j, todo, done + todo;
      more := done < len && i < |prdt|;
    }
  }
}
