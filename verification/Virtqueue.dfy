/**
  The descriptor walk of the virtqueue engine (src/lib/virtio.c:197-367; sections 2.6.5 and 2.6.5.3 of
  VIRTIO 1.1): a published chain, direct or through indirect tables, is flattened into an iovec.

  Guest memory is read through `Memory`, a snapshot taken when the walk starts.
 */
module Virtqueue {
  import opened Iovec

  const VQ_MAX_DESCRIPTORS: nat := 512

  datatype Flags = Flags(next: bool, write: bool, indirect: bool)

  datatype Desc = Desc(addr: nat, len: nat, flags: Flags, next: nat)

  /** The descriptor table, what the device allows, and the descriptor at any guest address. */
  datatype Memory = Memory(desc: seq<Desc>, indirectOk: bool, descAt: nat -> Desc)

  /** Entry `k` of the indirect table at `base`. */
  function Entry(m: Memory, base: nat, k: nat): (d: Desc) { m.descAt(EntryAddr(base, k)) }

  function EntryAddr(base: nat, k: nat): (a: nat) { base + 16 * k }

  /** The entries of a table of `len` bytes follow one another from its first byte and fill it to the last. */
  lemma TableLayout(base: nat, len: nat, k: nat)
    requires len % 16 == 0 && k < len / 16
    ensures EntryAddr(base, 0) == base && EntryAddr(base, k + 1) == EntryAddr(base, k) + 16
    ensures EntryAddr(base, k) + 16 <= base + len && EntryAddr(base, len / 16) == base + len
  {
  }

  // ---------------------------------------------------------------- what a chain denotes

  /** From entry `next` on, the indirect table of `n` entries at `base` denotes exactly `out`. */
  predicate IndirectFlat(m: Memory, base: nat, n: nat, next: nat, out: seq<Desc>)
    decreases |out|
  {
    && out != [] && next < n
    && out[0] == Entry(m, base, next) && !out[0].flags.indirect
    && (if out[0].flags.next then IndirectFlat(m, base, n, out[0].next, out[1..]) else |out| == 1)
  }

  /** A direct descriptor pointing at an acceptable indirect table. */
  predicate ValidTable(m: Memory, d: Desc) {
    m.indirectOk && d.len % 16 == 0 && d.len / 16 > 0
  }

  /** From direct descriptor `next` on, the chain denotes exactly `out`. */
  predicate Flat(m: Memory, next: nat, out: seq<Desc>)
    decreases |out|
  {
    && next < |m.desc|
    && var d := m.desc[next];
       if d.flags.indirect then
         && ValidTable(m, d)
         && exists k | 0 < k <= |out| :: IndirectFlat(m, d.addr, d.len / 16, 0, out[..k]) && Follows(m, d, out, k)
       else
         out != [] && out[0] == d && Follows(m, d, out, 1)
  }

  /** After the first `k` descriptors, which `d` stands for, the chain ends or goes on. */
  predicate Follows(m: Memory, d: Desc, out: seq<Desc>, k: nat)
    requires 0 < k <= |out|
    decreases |out|, 0
  {
    if d.flags.next then Flat(m, d.next, out[k..]) else k == |out|
  }

  /** A table denotes at most one sequence. */
  lemma {:induction false} IndirectUnique(m: Memory, base: nat, n: nat, next: nat, a: seq<Desc>, b: seq<Desc>)
    requires IndirectFlat(m, base, n, next, a) && IndirectFlat(m, base, n, next, b)
    ensures a == b
    decreases |a|
  {
    if a[0].flags.next {
      IndirectUnique(m, base, n, a[0].next, a[1..], b[1..]);
    }
    assert a == [a[0]] + a[1..] && b == [b[0]] + b[1..];
  }

  /** What remains to be walked: `acc` is done and the walk stands at `next`. */
  ghost predicate Walked(m: Memory, head: nat, acc: seq<Desc>, next: nat) {
    && (forall rest :: Flat(m, next, rest) ==> Flat(m, head, acc + rest))
    && (forall out :: Flat(m, head, out) ==> acc <= out && Flat(m, next, out[|acc|..]))
  }

  ghost predicate IndirectWalked(m: Memory, base: nat, n: nat, acc: seq<Desc>, next: nat) {
    && (forall rest :: IndirectFlat(m, base, n, next, rest) ==> IndirectFlat(m, base, n, 0, acc + rest))
    && (forall out :: IndirectFlat(m, base, n, 0, out) ==>
          acc <= out && IndirectFlat(m, base, n, next, out[|acc|..]))
  }

  // ---------------------------------------------------------------- one step of the walk

  lemma IndirectStep(m: Memory, base: nat, n: nat, acc: seq<Desc>, next: nat)
    requires IndirectWalked(m, base, n, acc, next) && next < n
    requires var d := Entry(m, base, next); !d.flags.indirect && d.flags.next
    ensures IndirectWalked(m, base, n, acc + [Entry(m, base, next)], Entry(m, base, next).next)
  {
    var d := Entry(m, base, next);
    forall rest | IndirectFlat(m, base, n, d.next, rest) ensures IndirectFlat(m, base, n, 0, acc + [d] + rest) {
      assert ([d] + rest)[1..] == rest;
      assert IndirectFlat(m, base, n, next, [d] + rest);
      assert acc + [d] + rest == acc + ([d] + rest);
    }
    forall out | IndirectFlat(m, base, n, 0, out)
      ensures acc + [d] <= out && IndirectFlat(m, base, n, d.next, out[|acc| + 1..])
    {
      var tail := out[|acc|..];
      assert out == acc + tail && tail[1..] == out[|acc| + 1..];
    }
  }

  lemma IndirectEnd(m: Memory, base: nat, n: nat, acc: seq<Desc>, next: nat)
    requires IndirectWalked(m, base, n, acc, next) && next < n
    requires var d := Entry(m, base, next); !d.flags.indirect && !d.flags.next
    ensures IndirectFlat(m, base, n, 0, acc + [Entry(m, base, next)])
  {
    assert IndirectFlat(m, base, n, next, [Entry(m, base, next)]);
  }

  lemma Extend(m: Memory, head: nat, acc: seq<Desc>, next: nat, seg: seq<Desc>, rest: seq<Desc>)
    requires Walked(m, head, acc, next) && next < |m.desc| && StandsFor(m, m.desc[next], seg)
    requires m.desc[next].flags.next && Flat(m, m.desc[next].next, rest)
    ensures Flat(m, head, acc + seg + rest)
  {
    FlatIff(m, next, seg, seg + rest);
    assert (seg + rest)[|seg|..] == rest;
    assert acc + seg + rest == acc + (seg + rest);
  }

  lemma Peel(m: Memory, head: nat, acc: seq<Desc>, next: nat, seg: seq<Desc>, out: seq<Desc>)
    requires Walked(m, head, acc, next) && next < |m.desc| && StandsFor(m, m.desc[next], seg)
    requires m.desc[next].flags.next && Flat(m, head, out)
    ensures acc + seg <= out && Flat(m, m.desc[next].next, out[|acc + seg|..])
  {
    FlatIff(m, next, seg, out[|acc|..]);
    assert out[|acc|..][|seg|..] == out[|acc + seg|..];
    assert out == acc + out[|acc|..];
  }

  /** One direct step: `seg` is what descriptor `next` stands for. */
  lemma WalkStep(m: Memory, head: nat, acc: seq<Desc>, next: nat, seg: seq<Desc>)
    requires Walked(m, head, acc, next) && next < |m.desc| && StandsFor(m, m.desc[next], seg)
    ensures m.desc[next].flags.next ==> Walked(m, head, acc + seg, m.desc[next].next)
    ensures !m.desc[next].flags.next ==> Flat(m, head, acc + seg)
  {
    var d := m.desc[next];
    if d.flags.next {
      forall rest | Flat(m, d.next, rest) ensures Flat(m, head, acc + seg + rest) {
        Extend(m, head, acc, next, seg, rest);
      }
      forall out | Flat(m, head, out) ensures acc + seg <= out && Flat(m, d.next, out[|acc + seg|..]) {
        Peel(m, head, acc, next, seg, out);
      }
    } else {
      FlatIff(m, next, seg, seg);
      assert seg[..|seg|] == seg;
    }
  }

  /** The descriptors a direct descriptor stands for: itself, or its table's. */
  predicate StandsFor(m: Memory, d: Desc, seg: seq<Desc>) {
    if d.flags.indirect then ValidTable(m, d) && IndirectFlat(m, d.addr, d.len / 16, 0, seg) else seg == [d]
  }

  lemma FlatIff(m: Memory, next: nat, seg: seq<Desc>, out: seq<Desc>)
    requires next < |m.desc| && StandsFor(m, m.desc[next], seg)
    ensures |seg| > 0
    ensures Flat(m, next, out) <==> seg <= out && Follows(m, m.desc[next], out, |seg|)
  {
    var d := m.desc[next];
    if d.flags.indirect {
      if Flat(m, next, out) {
        var k :| 0 < k <= |out| && IndirectFlat(m, d.addr, d.len / 16, 0, out[..k]) && Follows(m, d, out, k);
        IndirectUnique(m, d.addr, d.len / 16, 0, out[..k], seg);
      }
      if seg <= out && Follows(m, d, out, |seg|) {
        assert out[..|seg|] == seg;
      }
    }
  }

  /** A chain denotes at most one sequence, so the one `WalkChain` records is the chain's meaning. */
  lemma {:induction false} FlatUnique(m: Memory, next: nat, a: seq<Desc>, b: seq<Desc>)
    requires Flat(m, next, a) && Flat(m, next, b)
    ensures a == b
    decreases |a|
  {
    var d := m.desc[next];
    var k := 1;
    if d.flags.indirect {
      k :| 0 < k <= |a| && IndirectFlat(m, d.addr, d.len / 16, 0, a[..k]) && Follows(m, d, a, k);
    }
    var seg := if d.flags.indirect then a[..k] else [d];
    FlatIff(m, next, seg, a);
    FlatIff(m, next, seg, b);
    if d.flags.next {
      FlatUnique(m, d.next, a[|seg|..], b[|seg|..]);
    }
    assert a == a[..|seg|] + a[|seg|..] && b == b[..|seg|] + b[|seg|..];
  }

  // ---------------------------------------------------------------- the walk itself

  /** A flags array, where the caller passes one, is as long as the iovec. */
  predicate Fits(iov: array<Iov>, flags: array?<Flags>) { flags != null ==> flags.Length >= iov.Length }

  /** The first descriptors of `acc`, as far as the arrays reach; flags only where wanted. */
  ghost predicate Recorded(iov: array<Iov>, flags: array?<Flags>, acc: seq<Desc>)
    requires Fits(iov, flags)
    reads iov, flags
  {
    && (forall j :: 0 <= j < |acc| && j < iov.Length ==> iov[j] == Iov(acc[j].addr, acc[j].len))
    && (flags != null ==> forall j :: 0 <= j < |acc| && j < iov.Length ==> flags[j] == acc[j].flags)
  }

  /** `_vq_record`. */
  method Record(i: nat, d: Desc, iov: array<Iov>, flags: array?<Flags>, ghost acc: seq<Desc>)
    requires Fits(iov, flags) && |acc| == i && Recorded(iov, flags, acc)
    modifies iov, flags
    ensures Recorded(iov, flags, acc + [d])
  {
    if i >= iov.Length { return; }
    iov[i] := Iov(d.addr, d.len);
    if flags != null {
      flags[i] := d.flags;
    }
  }

  /**
    The inner loop of `vq_getchain`, over one indirect table. It stops with a count, or refuses the
    table exactly when no valid reading of it fits in what is left of VQ_MAX_DESCRIPTORS.
   */
  method WalkTable(
    m: Memory, base: nat, n: nat, i: nat, iov: array<Iov>, flags: array?<Flags>, ghost acc: seq<Desc>)
    returns (ok: bool, i': nat, ghost seg: seq<Desc>)
    requires Fits(iov, flags) && |acc| == i <= VQ_MAX_DESCRIPTORS && n > 0 && Recorded(iov, flags, acc)
    modifies iov, flags
    ensures ok ==> IndirectFlat(m, base, n, 0, seg) && i' == i + |seg| <= VQ_MAX_DESCRIPTORS
    ensures ok ==> Recorded(iov, flags, acc + seg)
    ensures !ok ==> forall t :: IndirectFlat(m, base, n, 0, t) ==> i + |t| > VQ_MAX_DESCRIPTORS
  {
    var next: nat := 0;
    i', seg := i, [];
    assert acc + seg == acc;
    EmptyWalk(m, base, n);
    while true
      invariant next < n && i' == i + |seg| <= VQ_MAX_DESCRIPTORS
      invariant IndirectWalked(m, base, n, seg, next)
      invariant Recorded(iov, flags, acc + seg)
      decreases VQ_MAX_DESCRIPTORS - i'
    {
      var d := Entry(m, base, next);
      if d.flags.indirect {
        return false, i', seg;
      }
      Record(i', d, iov, flags, acc + seg);
      assert acc + seg + [d] == acc + (seg + [d]);
      i' := i' + 1;
      if i' > VQ_MAX_DESCRIPTORS {
        return false, i', seg;
      }
      if !d.flags.next {
        IndirectEnd(m, base, n, seg, next);
        return true, i', seg + [d];
      }
      IndirectStep(m, base, n, seg, next);
      seg := seg + [d];
      next := d.next;
      if next >= n {
        return false, i', seg;
      }
    }
  }

  lemma EmptyWalk(m: Memory, base: nat, n: nat)
    ensures IndirectWalked(m, base, n, [], 0)
  {
    forall out: seq<Desc> ensures out[0..] == out && [] + out == out {}
  }

  lemma StartWalk(m: Memory, head: nat)
    ensures Walked(m, head, [], head)
  {
    forall out: seq<Desc> ensures out[0..] == out && [] + out == out {}
  }

  /**
    The walk of `vq_getchain` from a published head. It returns the number of descriptors exactly when
    the chain denotes a valid sequence of at most VQ_MAX_DESCRIPTORS, with as many of them recorded, in
    order, as the arrays hold; -1 means there is no such sequence.
   */
  method WalkChain(m: Memory, head: nat, iov: array<Iov>, flags: array?<Flags>) returns (r: int, ghost out: seq<Desc>)
    requires Fits(iov, flags)
    modifies iov, flags
    ensures r == -1 || 1 <= r <= VQ_MAX_DESCRIPTORS
    ensures r >= 1 ==> Flat(m, head, out) && |out| == r && Recorded(iov, flags, out)
    ensures r == -1 ==> forall t :: Flat(m, head, t) ==> |t| > VQ_MAX_DESCRIPTORS
  {
    var i: nat, next: nat := 0, head;
    out := [];
    StartWalk(m, head);
    while i < VQ_MAX_DESCRIPTORS
      invariant i == |out| <= VQ_MAX_DESCRIPTORS
      invariant Walked(m, head, out, next)
      invariant Recorded(iov, flags, out)
      decreases VQ_MAX_DESCRIPTORS - i
    {
      if next >= |m.desc| {
        return -1, out;
      }
      var vdir := m.desc[next];
      ghost var seg := [vdir];
      if !vdir.flags.indirect {
        Record(i, vdir, iov, flags, out);
        i := i + 1;
      } else if !m.indirectOk {
        return -1, out;
      } else {
        var n := vdir.len / 16;
        if vdir.len % 16 != 0 || n == 0 {
          return -1, out;
        }
        var ok;
        ok, i, seg := WalkTable(m, vdir.addr, n, i, iov, flags, out);
        if !ok {
          TableRefused(m, head, out, next);
          return -1, out;
        }
      }
      WalkStep(m, head, out, next, seg);
      out := out + seg;
      if !vdir.flags.next {
        return i, out;
      }
      next := vdir.next;
    }
    r := -1;
  }

  /** A table that does not fit makes every reading of the chain too long. */
  lemma TableRefused(m: Memory, head: nat, acc: seq<Desc>, next: nat)
    requires Walked(m, head, acc, next) && next < |m.desc| && m.desc[next].flags.indirect
    requires
      var d := m.desc[next];
      forall t :: IndirectFlat(m, d.addr, d.len / 16, 0, t) ==> |acc| + |t| > VQ_MAX_DESCRIPTORS
    ensures forall t :: Flat(m, head, t) ==> |t| > VQ_MAX_DESCRIPTORS
  {
    var d := m.desc[next];
    forall t | Flat(m, head, t) ensures |t| > VQ_MAX_DESCRIPTORS {
      var rest := t[|acc|..];
      assert Flat(m, next, rest);
      var k :| 0 < k <= |rest| && IndirectFlat(m, d.addr, d.len / 16, 0, rest[..k]) && Follows(m, d, rest, k);
      assert |rest[..k]| == k;
    }
  }
}
