/**
  The avail and used rings of a virtqueue (src/lib/virtio.c:276-297, 375-467, src/include/xhyve/virtio.h:434-439;
  sections 2.6.6 and 2.6.8 of VIRTIO 1.1). Indices run freely modulo 2^16 and are masked to ring slots;
  `History` counts without wrapping what the guest published and the device took and returned.
 */
module VirtRing {
  import opened Bits

  /** Reduction to a uint16_t. */
  function Mod16(x: int): (r: nat)
    ensures r < 65536
  {
    x % 65536
  }

  datatype Used = Used(id: nat, len: nat)

  datatype History = History(
    published: seq<nat>,   // heads the guest has made available
    taken: nat,            // chains taken and not returned
    used: seq<Used>,       // chains released to the guest
    saved: nat)            // how many of them the last vq_endchains knew of

  /** Guest-visible rings and the device's private indices; the queue size is 2^k. */
  datatype Ring = Ring(
    k: nat, availIdx: nat, availRing: seq<nat>, usedIdx: nat, usedRing: seq<Used>,
    lastAvail: nat, saveUsed: nat, hist: History)

  /** The slot a free-running index stands for. */
  function Slot(idx: nat, k: nat): (s: nat) { Rem(idx, Pow2(k)) }

  /** The guest makes a chain available. */
  function Publish(q: Ring, head: nat): (r: Ring)
    requires Slot(q.availIdx, q.k) < |q.availRing|
  {
    q.(availRing := q.availRing[Slot(q.availIdx, q.k) := head], availIdx := Mod16(q.availIdx + 1),
       hist := q.hist.(published := q.hist.published + [head]))
  }

  /** `vq_has_descs` on a ready ring, and the count `vq_getchain` computes. */
  predicate HasDescs(q: Ring) { q.lastAvail != q.availIdx }

  function NDesc(q: Ring): (n: nat) { Mod16(q.availIdx - q.lastAvail) }

  /** The head `vq_getchain` reads before it walks the chain. */
  function Head(q: Ring): (h: nat)
    requires Slot(q.lastAvail, q.k) < |q.availRing|
  {
    q.availRing[Slot(q.lastAvail, q.k)]
  }

  function Take(q: Ring): (r: Ring) {
    q.(lastAvail := Mod16(q.lastAvail + 1), hist := q.hist.(taken := q.hist.taken + 1))
  }

  /** `vq_retchain`. */
  function Return(q: Ring): (r: Ring)
    requires q.hist.taken > 0
  {
    q.(lastAvail := Mod16(q.lastAvail - 1), hist := q.hist.(taken := q.hist.taken - 1))
  }

  /** `vq_relchain`. */
  function Release(q: Ring, u: Used): (r: Ring)
    requires Slot(q.usedIdx, q.k) < |q.usedRing|
  {
    q.(usedRing := q.usedRing[Slot(q.usedIdx, q.k) := u], usedIdx := Mod16(q.usedIdx + 1),
       hist := q.hist.(used := q.hist.used + [u]))
  }

  /** What `vq_endchains` remembers. */
  function End(q: Ring): (r: Ring) { q.(saveUsed := q.usedIdx, hist := q.hist.(saved := |q.hist.used|)) }

  // ---------------------------------------------------------------- invariant

  predicate Shape(q: Ring) { q.k <= 15 && |q.availRing| == |q.usedRing| == Pow2(q.k) }

  /** At most a ring's worth of chains is published and not taken. */
  predicate Window(q: Ring) { q.hist.taken <= |q.hist.published| <= q.hist.taken + Pow2(q.k) }

  predicate Indices(q: Ring) {
    && q.availIdx == Mod16(|q.hist.published|)
    && q.lastAvail == Mod16(q.hist.taken)
    && q.usedIdx == Mod16(|q.hist.used|)
    && q.saveUsed == Mod16(q.hist.saved) && q.hist.saved <= |q.hist.used|
  }

  /** A ring still holds the last ring's worth of what was ever put in it. */
  predicate Latest<T(==)>(m: nat, ring: seq<T>, all: seq<T>)
    requires m > 0 && |ring| == m
  {
    forall j :: 0 <= j < |all| && |all| <= j + m ==> ring[Rem(j, m)] == all[j]
  }

  predicate Inv(q: Ring) {
    && Shape(q) && Window(q) && Indices(q)
    && Latest(Pow2(q.k), q.availRing, q.hist.published)
    && Latest(Pow2(q.k), q.usedRing, q.hist.used)
  }

  lemma RingSize(k: nat)
    requires k <= 15
    ensures Pow2(k) <= 32768
  {
    Pow2Of16();
    Pow2Mono(k, 15);
  }

  lemma SixteenSplit(k: nat)
    requires k <= 15
    ensures Pow2(k) * Pow2(16 - k) == 65536
  {
    Pow2Of16();
    Pow2Add(k, 16 - k);
  }

  /** Stepping a wrapped index wraps the stepped counter. */
  lemma IndexStep(n: nat)
    ensures Mod16(Mod16(n) + 1) == Mod16(n + 1)
    ensures n > 0 ==> Mod16(Mod16(n) - 1) == Mod16(n - 1)
  {}

  /** The source's mask, idx & (qsize - 1), picks that slot. */
  lemma MaskIsSlot(idx: nat, k: nat)
    ensures And(idx, Pow2(k) - 1) == Slot(idx, k)
  {
    AndLowMask(idx, k);
  }

  lemma {:induction false} SlotDrop(n: nat, m: nat, q: nat)
    requires m > 0
    ensures Rem(n + m * q, m) == Rem(n, m)
    decreases q
  {
    if q > 0 {
      assert n + m * q - m == n + m * (q - 1) && m * q >= m;
      SlotDrop(n, m, q - 1);
    }
  }

  /** A wrapped index stands for the slot of the unwrapped one, across every wrap. */
  lemma SlotOf(n: nat, k: nat)
    requires k <= 15
    ensures Slot(Mod16(n), k) == Rem(n, Pow2(k))
  {
    SixteenSplit(k);
    Unwrap(n, Pow2(k), Pow2(16 - k));
  }

  lemma Unwrap(n: nat, m: nat, c: nat)
    requires m > 0 && m * c == 65536
    ensures Rem(Mod16(n), m) == Rem(n, m)
  {
    var t := n / 65536;
    assert n == Mod16(n) + 65536 * t;
    assert m * (c * t) == (m * c) * t;
    SlotDrop(Mod16(n), m, c * t);
  }

  /** Entries less than a ring apart have different slots. */
  lemma {:induction false} SlotsApart(a: nat, b: nat, m: nat)
    requires m > 0 && a < b < a + m
    ensures Rem(a, m) != Rem(b, m)
  {
    if a >= m {
      SlotsApart(a - m, b - m, m);
    }
  }

  lemma LatestStep<T>(m: nat, ring: seq<T>, all: seq<T>, x: T)
    requires m > 0 && |ring| == m && Latest(m, ring, all)
    ensures Latest(m, ring[Rem(|all|, m) := x], all + [x])
  {
    forall j | 0 <= j < |all| && |all| + 1 <= j + m ensures Rem(j, m) != Rem(|all|, m) {
      SlotsApart(j, |all|, m);
    }
  }

  lemma PublishInv(q: Ring, head: nat)
    requires Inv(q) && |q.hist.published| < q.hist.taken + Pow2(q.k)
    ensures Slot(q.availIdx, q.k) < |q.availRing| && Inv(Publish(q, head))
  {
    SlotOf(|q.hist.published|, q.k);
    IndexStep(|q.hist.published|);
    LatestStep(Pow2(q.k), q.availRing, q.hist.published, head);
  }

  /** What `vq_getchain` sees: no more than a ring's worth, and the next published head in order. */
  lemma TakeReadsNext(q: Ring)
    requires Inv(q)
    ensures HasDescs(q) <==> q.hist.taken < |q.hist.published|
    ensures NDesc(q) == |q.hist.published| - q.hist.taken <= Pow2(q.k)
    ensures Slot(q.lastAvail, q.k) < |q.availRing|
    ensures HasDescs(q) ==> Head(q) == q.hist.published[q.hist.taken]
  {
    RingSize(q.k);
    SlotOf(q.hist.taken, q.k);
    Distance(|q.hist.published|, q.hist.taken);
  }

  lemma TakeInv(q: Ring)
    requires Inv(q) && HasDescs(q)
    ensures Inv(Take(q))
  {
    TakeReadsNext(q);
    IndexStep(q.hist.taken);
  }

  lemma Distance(a: nat, b: nat)
    requires b <= a < b + 65536
    ensures Mod16(Mod16(a) - Mod16(b)) == a - b
    ensures Mod16(a) == Mod16(b) <==> a == b
  {
    var q, r, d := b / 65536, Mod16(b), a - b;
    if r + d < 65536 {
      Residue(a, q, r + d);
      Residue(d, 0, d);
    } else {
      Residue(a, q + 1, r + d - 65536);
      Residue(d - 65536, -1, d);
    }
  }

  lemma Residue(x: int, q: int, r: nat)
    requires x == 65536 * q + r && r < 65536
    ensures Mod16(x) == r
  {}

  /** `vq_retchain` exactly undoes the last take. */
  lemma ReturnUndoesTake(q: Ring)
    requires Inv(q)
    ensures Return(Take(q)) == q
    ensures 0 < q.hist.taken && |q.hist.published| < q.hist.taken + Pow2(q.k) ==> Inv(Return(q))
  {
    IndexStep(q.hist.taken);
    IndexStep(q.hist.taken + 1);
  }

  lemma ReleaseInv(q: Ring, u: Used)
    requires Inv(q)
    ensures Slot(q.usedIdx, q.k) == Rem(|q.hist.used|, Pow2(q.k)) < |q.usedRing|
    ensures Inv(Release(q, u))
  {
    SlotOf(|q.hist.used|, q.k);
    IndexStep(|q.hist.used|);
    LatestStep(Pow2(q.k), q.usedRing, q.hist.used, u);
  }

  // ---------------------------------------------------------------- runs

  datatype Event = DoPublish(head: nat) | DoTake | DoReturn | DoRelease(u: Used) | DoEnd

  /** The guest publishes, and the device returns a chain, while at most a ring's worth is left untaken. */
  predicate Enabled(q: Ring, e: Event) {
    match e
    case DoPublish(_) => |q.hist.published| < q.hist.taken + Pow2(q.k) && Slot(q.availIdx, q.k) < |q.availRing|
    case DoTake => HasDescs(q)
    case DoReturn => 0 < q.hist.taken && |q.hist.published| < q.hist.taken + Pow2(q.k)
    case DoRelease(_) => Slot(q.usedIdx, q.k) < |q.usedRing|
    case DoEnd => true
  }

  function Apply(q: Ring, e: Event): (r: Ring)
    requires Enabled(q, e)
  {
    match e
    case DoPublish(head) => Publish(q, head)
    case DoTake => Take(q)
    case DoReturn => Return(q)
    case DoRelease(u) => Release(q, u)
    case DoEnd => End(q)
  }

  predicate Run(q: Ring, es: seq<Event>, r: Ring)
    decreases |es|
  {
    if es == [] then q == r else Enabled(q, es[0]) && Run(Apply(q, es[0]), es[1..], r)
  }

  /** `vi_vq_init`: a queue of size 2^k before anything is published. */
  predicate Fresh(q: Ring) {
    Shape(q) && q.availIdx == q.usedIdx == q.lastAvail == q.saveUsed == 0 && q.hist == History([], 0, [], 0)
  }

  lemma {:induction false} RunInv(q: Ring, es: seq<Event>, r: Ring)
    requires Inv(q) && Run(q, es, r)
    ensures Inv(r) && r.k == q.k
    decreases |es|
  {
    if es != [] {
      match es[0] {
        case DoPublish(head) => PublishInv(q, head);
        case DoTake => TakeInv(q);
        case DoReturn => ReturnUndoesTake(q);
        case DoRelease(u) => ReleaseInv(q, u);
        case DoEnd =>
      }
      RunInv(Apply(q, es[0]), es[1..], r);
    }
  }

  /** The heads published, the chains released and the net number taken in a run, read off its events. */
  function PublishedIn(es: seq<Event>): (heads: seq<nat>) {
    if es == [] then [] else (if es[0].DoPublish? then [es[0].head] else []) + PublishedIn(es[1..])
  }

  function ReleasedIn(es: seq<Event>): (us: seq<Used>) {
    if es == [] then [] else (if es[0].DoRelease? then [es[0].u] else []) + ReleasedIn(es[1..])
  }

  function TakenIn(es: seq<Event>): (n: int) {
    if es == [] then 0
    else (if es[0].DoTake? then 1 else if es[0].DoReturn? then -1 else 0) + TakenIn(es[1..])
  }

  /** How many were released when the last `vq_endchains` of the run was made, with so many before. */
  function EndedAt(saved: nat, used: nat, es: seq<Event>): (n: nat)
    decreases |es|
  {
    if es == [] then saved
    else EndedAt(if es[0].DoEnd? then used else saved, if es[0].DoRelease? then used + 1 else used, es[1..])
  }

  /** The record the ring carries is what happened in the run. */
  lemma {:induction false} HistoryIs(q: Ring, es: seq<Event>, r: Ring)
    requires Run(q, es, r)
    ensures r.hist.published == q.hist.published + PublishedIn(es) && r.hist.used == q.hist.used + ReleasedIn(es)
    ensures r.hist.taken == q.hist.taken + TakenIn(es) && r.hist.saved == EndedAt(q.hist.saved, |q.hist.used|, es)
    decreases |es|
  {
    if es != [] { HistoryIs(Apply(q, es[0]), es[1..], r); }
  }

  /**
    Over runs of any length with at most a ring's worth published and untaken, whatever is still to be
    released, the masked 16-bit indices are a FIFO: the next take reads the next
    published head, the driver never looks confused, and the k-th release sits in used slot k modulo
    the queue size until a ring's worth of later ones has followed.
   */
  lemma RingIsFifo(q: Ring, es: seq<Event>, r: Ring)
    requires Fresh(q) && Run(q, es, r)
    ensures HasDescs(r) <==> r.hist.taken < |r.hist.published|
    ensures NDesc(r) <= Pow2(r.k)
    ensures Slot(r.lastAvail, r.k) < |r.availRing| && (HasDescs(r) ==> Head(r) == r.hist.published[r.hist.taken])
    ensures |r.usedRing| == Pow2(r.k)
    ensures forall j :: 0 <= j < |r.hist.used| && |r.hist.used| <= j + Pow2(r.k) ==>
      r.usedRing[Rem(j, Pow2(r.k))] == r.hist.used[j]
    ensures r.usedIdx == Mod16(|r.hist.used|)
    ensures r.hist.published == PublishedIn(es) && r.hist.used == ReleasedIn(es) && r.hist.taken == TakenIn(es)
  {
    RunInv(q, es, r);
    TakeReadsNext(r);
    HistoryIs(q, es, r);
  }

  // ---------------------------------------------------------------- interrupts

  /** What the guest negotiated and asked for. */
  datatype Ask = Ask(notifyOnEmpty: bool, eventIdx: bool, usedEvent: nat, noInterrupt: bool)

  /** The decision of `vq_endchains`. */
  predicate Interrupts(oldIdx: nat, newIdx: nat, usedAll: bool, a: Ask) {
    if usedAll && a.notifyOnEmpty then true
    else if a.eventIdx then Mod16(newIdx - a.usedEvent - 1) < Mod16(newIdx - oldIdx)
    else newIdx != oldIdx && !a.noInterrupt
  }

  /** Entry `n` of those added from number `before` on is the one the guest asked to hear about. */
  ghost predicate Crossed(before: nat, after: nat, usedEvent: nat) {
    exists n: nat :: before <= n < after && Mod16(n) == usedEvent
  }

  /** With event indices the 16-bit comparison is exact for fewer than 2^16 added entries. */
  lemma EventIdxExact(before: nat, after: nat, a: Ask, usedAll: bool)
    requires before <= after < before + 65536 && a.usedEvent < 65536
    requires a.eventIdx && !(usedAll && a.notifyOnEmpty)
    ensures Interrupts(Mod16(before), Mod16(after), usedAll, a) <==> Crossed(before, after, a.usedEvent)
  {
    Distance(after, before);
    var e, d := a.usedEvent, Mod16(Mod16(after) - a.usedEvent - 1);
    if Crossed(before, after, e) {
      var n: nat :| before <= n < after && Mod16(n) == e;
      LastIs(after, n, e);
    } else if d < after - before {
      LastCounts(after, d, e);
    }
  }

  /** Of all the entries added, those the 16-bit comparison sees: the last ones, as many as the remainder. */
  function SeenFrom(before: nat, after: nat): (n: nat)
    requires before <= after
    ensures before <= n <= after && after - n < 65536
    ensures after < before + 65536 ==> n == before
  { after - (after - before) % 65536 }

  /** However many were added, the guest is interrupted exactly if the entry it asked about is one of these. */
  lemma EventIdxSeen(before: nat, after: nat, a: Ask, usedAll: bool)
    requires before <= after && a.usedEvent < 65536
    requires a.eventIdx && !(usedAll && a.notifyOnEmpty)
    ensures Interrupts(Mod16(before), Mod16(after), usedAll, a) <==>
      Crossed(SeenFrom(before, after), after, a.usedEvent)
  {
    var from := SeenFrom(before, after);
    SameRemainder(before, from, (after - before) / 65536);
    EventIdxExact(from, after, a, usedAll);
  }

  lemma SameRemainder(before: nat, from: nat, k: nat)
    requires from == before + 65536 * k
    ensures Mod16(from) == Mod16(before)
  {
    Residue(from, before / 65536 + k, Mod16(before));
  }

  /** From 2^16 entries on, some entry is always the one asked about, seen or not. */
  lemma EventIdxLate(before: nat, after: nat, e: nat)
    requires before + 65536 <= after && e < 65536
    ensures Crossed(before, after, e)
  {
    var d := Mod16(Mod16(after) - e - 1);
    LastCounts(after, d, e);
    assert Mod16(after - 1 - d) == e;
  }

  /** With 2^16 entries since the last time the event at the first of them is missed. */
  lemma EventMissed(a: Ask, usedAll: bool)
    requires a.usedEvent == 0 && a.eventIdx && !(usedAll && a.notifyOnEmpty)
    ensures Crossed(0, 65536, 0) && !Interrupts(Mod16(0), Mod16(65536), usedAll, a)
  {
    EventIdxLate(0, 65536, 0);
    EventIdxSeen(0, 65536, a, usedAll);
  }

  /** Without event indices a wrapped index looks unchanged just when a multiple of 2^16 entries was added. */
  lemma SameIndexIff(before: nat, after: nat)
    requires before <= after
    ensures Mod16(after) == Mod16(before) <==> (after - before) % 65536 == 0
  {
    var from := SeenFrom(before, after);
    SameRemainder(before, from, (after - before) / 65536);
    Distance(after, from);
  }

  /** What the guest should be told of the entries from `before` to `after`, by what it negotiated and asked. */
  ghost predicate Told(before: nat, after: nat, usedAll: bool, a: Ask)
    requires before <= after
  {
    || (usedAll && a.notifyOnEmpty)
    || (a.eventIdx && Crossed(SeenFrom(before, after), after, a.usedEvent))
    || (!a.eventIdx && !a.noInterrupt && (after - before) % 65536 != 0)
  }

  lemma InterruptsIff(before: nat, after: nat, a: Ask, usedAll: bool)
    requires before <= after && a.usedEvent < 65536
    ensures Interrupts(Mod16(before), Mod16(after), usedAll, a) <==> Told(before, after, usedAll, a)
  {
    if !(usedAll && a.notifyOnEmpty) {
      if a.eventIdx { EventIdxSeen(before, after, a, usedAll); } else { SameIndexIff(before, after); }
    }
  }

  /**
    After any run and for every guest, `vq_endchains` interrupts always when all was used up and the guest asked
    for that; with event indices exactly when the chain asked about is among the last of those released since the
    previous call, as many as their number modulo 2^16; and without them exactly when that number is not zero and
    the guest did not ask for silence. The event-index answer is whether the chain was released at all since then,
    unless it was released 2^16 or more ago and not again.
   */
  lemma InterruptsExact(q: Ring, es: seq<Event>, r: Ring, a: Ask, usedAll: bool)
    requires Fresh(q) && Run(q, es, r) && a.usedEvent < 65536
    ensures r.hist.saved <= |r.hist.used|
    ensures r.hist.saved == EndedAt(0, 0, es) && |r.hist.used| == |ReleasedIn(es)|
    ensures
      var before, after := r.hist.saved, |r.hist.used|;
      && (Interrupts(r.saveUsed, r.usedIdx, usedAll, a) <==> Told(before, after, usedAll, a))
      && (a.eventIdx && !(usedAll && a.notifyOnEmpty) ==>
           ((Interrupts(r.saveUsed, r.usedIdx, usedAll, a) <==> Crossed(before, after, a.usedEvent)) <==>
             after < before + 65536 || Crossed(SeenFrom(before, after), after, a.usedEvent)))
  {
    RunInv(q, es, r);
    HistoryIs(q, es, r);
    var before, after := r.hist.saved, |r.hist.used|;
    InterruptsIff(before, after, a, usedAll);
    if before + 65536 <= after { EventIdxLate(before, after, a.usedEvent); }
  }

  lemma LastIs(after: nat, n: nat, e: nat)
    requires n < after <= n + 65536 && Mod16(n) == e
    ensures Mod16(Mod16(after) - e - 1) == after - n - 1
  {
    var q, d := n / 65536, after - n - 1;
    if e + 1 + d < 65536 {
      Residue(after, q, e + 1 + d);
      Residue(d, 0, d);
    } else {
      Residue(after, q + 1, e + 1 + d - 65536);
      Residue(d - 65536, -1, d);
    }
  }

  lemma LastCounts(after: nat, d: nat, e: nat)
    requires e < 65536 && d == Mod16(Mod16(after) - e - 1) && d < after
    ensures Mod16(after - 1 - d) == e
  {
    var q, m := after / 65536, Mod16(after);
    if m > e {
      Residue(m - e - 1, 0, m - e - 1);
      Residue(after - 1 - d, q, e);
    } else {
      Residue(m - e - 1, -1, m - e - 1 + 65536);
      Residue(after - 1 - d, q - 1, e);
    }
  }
}
