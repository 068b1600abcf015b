/**
  Matching 9P replies to requests in the virtio-9p device (src/lib/pci_virtio_9p.c:265-286, 384-431).

  The notifying thread takes the first free slot and fills it under a lock; the reader thread looks replies
  up by tag, without the lock and without asking whether the slot is in use, and takes the lock only to
  release. A guest does not reuse the tag of an outstanding request, nor the descriptor at the head of a chain
  that was not yet returned, and the server answers only outstanding requests.
 */
module NinePTags {

  /** VT9P_RINGSZ: slots of the table, and descriptors of the queue. */
  const RINGSZ: nat := 256

  /** `idx` is the head of the request's descriptor chain. */
  datatype Slot = Slot(inuse: bool, tag: nat, otag: nat, idx: nat)

  /** A slot taken and not yet filled: it still carries the tags of its previous request. */
  datatype Fill = NoFill | Filling(slot: nat, tag: nat, otag: nat, idx: nat)

  /** The reader: idle, about to handle a reply (or the flush part of one), or holding the slot it found. */
  datatype Reader = Idle | Flush(tag: nat) | Victim(j: nat, tag: nat) | Scan(tag: nat) | Found(i: nat)

  /** `held` are the heads of the chains taken off the queue and not returned. */
  datatype Dev = Dev(
    slots: seq<Slot>, inflight: int, fill: Fill, reader: Reader, outstanding: set<nat>, held: set<nat>)

  /** The first slot from k on that is not in use, or the length of the table. */
  function FirstFree(slots: seq<Slot>, k: nat): (i: nat)
    requires k <= |slots|
    ensures k <= i <= |slots| && (i < |slots| ==> !slots[i].inuse)
    ensures forall j :: k <= j < i ==> slots[j].inuse
    decreases |slots| - k
  { if k == |slots| || !slots[k].inuse then k else FirstFree(slots, k + 1) }

  /** The reader's lookup: the first slot with the tag. */
  function FirstTag(slots: seq<Slot>, tag: nat, k: nat): (i: nat)
    requires k <= |slots|
    ensures k <= i <= |slots| && (i < |slots| ==> slots[i].tag == tag)
    ensures forall j :: k <= j < i ==> slots[j].tag != tag
    decreases |slots| - k
  { if k == |slots| || slots[k].tag == tag then k else FirstTag(slots, tag, k + 1) }

  /** The lookup of a flushed request: the first slot in use with the tag. */
  function FirstUsed(slots: seq<Slot>, tag: nat, k: nat): (i: nat)
    requires k <= |slots|
    ensures k <= i <= |slots| && (i < |slots| ==> slots[i].tag == tag && slots[i].inuse)
    ensures forall j :: k <= j < i ==> !(slots[j].tag == tag && slots[j].inuse)
    decreases |slots| - k
  { if k == |slots| || (slots[k].tag == tag && slots[k].inuse) then k else FirstUsed(slots, tag, k + 1) }

  function InUse(slots: seq<Slot>): (n: nat) {
    if slots == [] then 0 else InUse(slots[1..]) + (if slots[0].inuse then 1 else 0)
  }

  lemma {:induction false} InUseSet(slots: seq<Slot>, i: nat, s: Slot)
    requires i < |slots|
    ensures InUse(slots[i := s]) == InUse(slots) - (if slots[i].inuse then 1 else 0) + (if s.inuse then 1 else 0)
  {
    if i == 0 {
      assert slots[0 := s][1..] == slots[1..];
    } else {
      assert slots[i := s][1..] == slots[1..][i - 1 := s];
      InUseSet(slots[1..], i - 1, s);
    }
  }

  // ---------------------------------------------------------------- steps

  datatype Event =
    | Take(tag: nat, otag: nat, idx: nat)   // a request arrives: the first free slot is marked in use
    | Store                                 // its tags are stored and it goes to the server
    | Answer(tag: nat, flush: bool)
    | LookUpFlushed                         // Rflush: find the slot of the flushed request
    | FreeFlushed
    | LookUp                                // find the slot of the answered request
    | Release

  /** What the flush that is being answered was to flush. */
  function Flushed(d: Dev): (otag: nat)
    requires d.reader.Flush?
  {
    var i := FirstTag(d.slots, d.reader.tag, 0);
    if i < |d.slots| then d.slots[i].otag else 0
  }

  /**
    A lookup that goes wrong: the flush names itself, or a request that is gone while a slot still carrying
    its tag is being filled.
   */
  predicate Misled(d: Dev)
    requires d.reader.Flush?
  {
    || Flushed(d) == d.reader.tag
    || (d.fill.Filling? && d.fill.slot < |d.slots| && d.slots[d.fill.slot].tag == Flushed(d)
        && Flushed(d) !in d.outstanding)
  }

  /** A request the guest may send. */
  predicate Offered(d: Dev, tag: nat, idx: nat) { tag !in d.outstanding && idx < RINGSZ && idx !in d.held }

  /** The lock is held from taking a slot to filling it, so nothing is released in between. */
  predicate Enabled(d: Dev, e: Event) {
    match e
    case Take(tag, _, idx) => d.fill.NoFill? && Offered(d, tag, idx) && FirstFree(d.slots, 0) < |d.slots|
    case Store => d.fill.Filling? && d.fill.slot < |d.slots|
    case Answer(tag, _) => d.reader.Idle? && tag in d.outstanding
    case LookUpFlushed => d.reader.Flush?
    case FreeFlushed => d.reader.Victim? && d.fill.NoFill? && d.reader.j < |d.slots|
    case LookUp => d.reader.Scan?
    case Release => d.reader.Found? && d.fill.NoFill? && d.reader.i < |d.slots|
  }

  function Apply(d: Dev, e: Event): (r: Dev)
    requires Enabled(d, e)
  {
    match e
    case Take(tag, otag, idx) =>
      var i := FirstFree(d.slots, 0);
      d.(slots := d.slots[i := d.slots[i].(inuse := true)], inflight := d.inflight + 1,
         fill := Filling(i, tag, otag, idx), held := d.held + {idx})
    case Store =>
      d.(slots := d.slots[d.fill.slot := Slot(true, d.fill.tag, d.fill.otag, d.fill.idx)], fill := NoFill,
         outstanding := d.outstanding + {d.fill.tag})
    case Answer(tag, flush) => d.(reader := if flush then Flush(tag) else Scan(tag))
    case LookUpFlushed =>
      var i := FirstTag(d.slots, d.reader.tag, 0);
      var j := if i < |d.slots| then FirstUsed(d.slots, d.slots[i].otag, 0) else |d.slots|;
      d.(reader := if j < |d.slots| then Victim(j, d.reader.tag) else Scan(d.reader.tag))
    case FreeFlushed => Freed(d, d.reader.j).(reader := Scan(d.reader.tag))
    case LookUp =>
      var i := FirstTag(d.slots, d.reader.tag, 0);
      d.(reader := if i < |d.slots| then Found(i) else Idle)
    case Release => Freed(d, d.reader.i).(reader := Idle)
  }

  /** A slot's chain is returned to the guest; its tags stay behind. */
  function Freed(d: Dev, i: nat): (r: Dev)
    requires i < |d.slots|
  {
    d.(slots := d.slots[i := d.slots[i].(inuse := false)], inflight := d.inflight - 1,
       outstanding := d.outstanding - {d.slots[i].tag}, held := d.held - {d.slots[i].idx})
  }

  // ---------------------------------------------------------------- invariant

  /** In use, filled. */
  predicate Live(slots: seq<Slot>, fill: Fill, i: nat)
    requires i < |slots|
  { slots[i].inuse && !(fill.Filling? && fill.slot == i) }

  /** No lower slot carries the tag of a live one, not even a stale tag. */
  ghost predicate Shielded(slots: seq<Slot>, fill: Fill) {
    forall i, j :: 0 <= j < i < |slots| && Live(slots, fill, i) ==> slots[j].tag != slots[i].tag
  }

  ghost predicate Named(slots: seq<Slot>, fill: Fill, outstanding: set<nat>) {
    && (forall i :: 0 <= i < |slots| && Live(slots, fill, i) ==> slots[i].tag in outstanding)
    && (forall t :: t in outstanding ==> exists i :: 0 <= i < |slots| && Live(slots, fill, i) && slots[i].tag == t)
  }

  /** Everything below a slot being filled is in use. */
  predicate FillOk(slots: seq<Slot>, fill: Fill, outstanding: set<nat>) {
    fill.Filling? ==>
      && fill.slot < |slots| && fill.tag !in outstanding
      && forall j :: 0 <= j <= fill.slot ==> slots[j].inuse
  }

  predicate ReaderOk(slots: seq<Slot>, fill: Fill, outstanding: set<nat>, reader: Reader) {
    match reader
    case Idle => true
    case Flush(tag) => tag in outstanding
    case Victim(j, tag) => j < |slots| && Live(slots, fill, j) && tag in outstanding && slots[j].tag != tag
    case Scan(tag) => tag in outstanding
    case Found(i) => i < |slots| && Live(slots, fill, i)
  }

  /** The chain of a slot in use. */
  function HeadOf(slots: seq<Slot>, fill: Fill, i: nat): (h: nat)
    requires i < |slots|
  { if fill.Filling? && fill.slot == i then fill.idx else slots[i].idx }

  /** Slots in use have chains of their own, and these are all the chains held. */
  ghost predicate Heads(slots: seq<Slot>, fill: Fill, held: set<nat>) {
    && (forall i :: 0 <= i < |slots| && slots[i].inuse ==> HeadOf(slots, fill, i) in held)
    && (forall i, j :: 0 <= i < j < |slots| && slots[i].inuse && slots[j].inuse ==>
          HeadOf(slots, fill, i) != HeadOf(slots, fill, j))
    && (forall h :: h in held ==>
          h < RINGSZ && exists i :: 0 <= i < |slots| && slots[i].inuse && HeadOf(slots, fill, i) == h)
  }

  ghost predicate Inv(d: Dev) { |d.slots| == RINGSZ && Heads(d.slots, d.fill, d.held) && TagsOk(d) }

  ghost predicate TagsOk(d: Dev) {
    && Shielded(d.slots, d.fill) && Named(d.slots, d.fill, d.outstanding)
    && FillOk(d.slots, d.fill, d.outstanding) && ReaderOk(d.slots, d.fill, d.outstanding, d.reader)
    && d.inflight == InUse(d.slots)
  }

  /** The lookup finds the live slot of an outstanding tag. */
  lemma LookUpLive(d: Dev, tag: nat)
    requires TagsOk(d) && tag in d.outstanding
    ensures
      var i := FirstTag(d.slots, tag, 0);
      i < |d.slots| && Live(d.slots, d.fill, i) && FirstUsed(d.slots, tag, 0) == i
  {
    var i :| 0 <= i < |d.slots| && Live(d.slots, d.fill, i) && d.slots[i].tag == tag;
    assert forall j :: 0 <= j < i ==> d.slots[j].tag != tag;
  }

  lemma {:induction false} FewHeads(hs: seq<nat>, m: nat)
    requires forall i :: 0 <= i < |hs| ==> hs[i] < m
    requires forall i, j :: 0 <= i < j < |hs| ==> hs[i] != hs[j]
    ensures |hs| <= m
    decreases m
  {
    if hs != [] {
      assert hs[0] < m;
      if k :| 0 <= k < |hs| && hs[k] == m - 1 {
        FewHeads(hs[..k] + hs[k + 1..], m - 1);
      } else {
        FewHeads(hs, m - 1);
      }
    }
  }

  /** With a descriptor left to the guest there is a slot left in the table. */
  lemma SlotLeft(d: Dev, idx: nat)
    requires Inv(d) && idx < RINGSZ && idx !in d.held
    ensures FirstFree(d.slots, 0) < |d.slots|
  {
    if FirstFree(d.slots, 0) == |d.slots| {
      var hs := seq(|d.slots|, i requires 0 <= i < |d.slots| => HeadOf(d.slots, d.fill, i));
      forall i | 0 <= i < |hs| ensures hs[i] < RINGSZ && hs[i] != idx {
        assert d.slots[i].inuse;
      }
      FewHeads(hs + [idx], RINGSZ);
    }
  }

  lemma TakeHeads(d: Dev, tag: nat, otag: nat, idx: nat)
    requires Heads(d.slots, d.fill, d.held) && Enabled(d, Take(tag, otag, idx))
    ensures var r := Apply(d, Take(tag, otag, idx)); Heads(r.slots, r.fill, r.held)
  {
    var r := Apply(d, Take(tag, otag, idx));
    var s := FirstFree(d.slots, 0);
    assert forall i :: 0 <= i < |d.slots| && i != s ==> HeadOf(r.slots, r.fill, i) == HeadOf(d.slots, d.fill, i);
    forall h | h in r.held
      ensures h < RINGSZ && exists i :: 0 <= i < |r.slots| && r.slots[i].inuse && HeadOf(r.slots, r.fill, i) == h
    {
      if h == idx {
        assert HeadOf(r.slots, r.fill, s) == h;
      } else {
        var i :| 0 <= i < |d.slots| && d.slots[i].inuse && HeadOf(d.slots, d.fill, i) == h;
        assert r.slots[i].inuse && HeadOf(r.slots, r.fill, i) == h;
      }
    }
  }

  lemma StoreHeads(d: Dev)
    requires Heads(d.slots, d.fill, d.held) && FillOk(d.slots, d.fill, d.outstanding) && Enabled(d, Store)
    ensures var r := Apply(d, Store); Heads(r.slots, r.fill, r.held)
  {
    var r := Apply(d, Store);
    assert forall i :: 0 <= i < |d.slots| ==>
      HeadOf(r.slots, r.fill, i) == HeadOf(d.slots, d.fill, i) && r.slots[i].inuse == d.slots[i].inuse;
  }

  lemma FreedHeads(d: Dev, s: nat)
    requires Heads(d.slots, d.fill, d.held) && d.fill.NoFill? && s < |d.slots| && d.slots[s].inuse
    ensures var r := Freed(d, s); Heads(r.slots, r.fill, r.held)
  {
    var r := Freed(d, s);
    assert forall i :: 0 <= i < |d.slots| ==> HeadOf(r.slots, r.fill, i) == HeadOf(d.slots, d.fill, i);
    forall h | h in r.held
      ensures h < RINGSZ && exists i :: 0 <= i < |r.slots| && r.slots[i].inuse && HeadOf(r.slots, r.fill, i) == h
    {
      var i :| 0 <= i < |d.slots| && d.slots[i].inuse && HeadOf(d.slots, d.fill, i) == h;
      assert i != s && r.slots[i].inuse && HeadOf(r.slots, r.fill, i) == h;
    }
  }

  lemma TakeTags(d: Dev, tag: nat, otag: nat, idx: nat)
    requires TagsOk(d) && Enabled(d, Take(tag, otag, idx))
    ensures TagsOk(Apply(d, Take(tag, otag, idx)))
  {
    var r := Apply(d, Take(tag, otag, idx));
    var i := FirstFree(d.slots, 0);
    InUseSet(d.slots, i, d.slots[i].(inuse := true));
    assert forall k :: 0 <= k < |d.slots| ==> (Live(r.slots, r.fill, k) <==> Live(d.slots, d.fill, k));
  }

  lemma StoreTags(d: Dev)
    requires TagsOk(d) && Enabled(d, Store)
    ensures TagsOk(Apply(d, Store))
  {
    var r := Apply(d, Store);
    var s := d.fill.slot;
    InUseSet(d.slots, s, r.slots[s]);
    assert forall k :: 0 <= k < |d.slots| && k != s ==> (Live(r.slots, r.fill, k) <==> Live(d.slots, d.fill, k));
    assert Live(r.slots, r.fill, s);
  }

  lemma FreedTags(d: Dev, i: nat)
    requires TagsOk(d) && d.fill.NoFill? && i < |d.slots| && Live(d.slots, d.fill, i)
    ensures TagsOk(Freed(d, i).(reader := Idle))
    ensures forall t :: t in d.outstanding && t != d.slots[i].tag ==> t in Freed(d, i).outstanding
  {
    var r := Freed(d, i);
    InUseSet(d.slots, i, r.slots[i]);
    assert forall k :: 0 <= k < |d.slots| && k != i ==> (Live(r.slots, r.fill, k) <==> Live(d.slots, d.fill, k));
  }

  lemma FreeFlushedInv(d: Dev)
    requires Inv(d) && Enabled(d, FreeFlushed)
    ensures Inv(Apply(d, FreeFlushed))
  {
    FreedHeads(d, d.reader.j);
    FreedTags(d, d.reader.j);
  }

  lemma ReleaseInv(d: Dev)
    requires Inv(d) && Enabled(d, Release)
    ensures Inv(Apply(d, Release))
  {
    FreedHeads(d, d.reader.i);
    FreedTags(d, d.reader.i);
  }

  /** What a flush lookup should find: the live slot of the flushed request, another one's than its own, or none. */
  ghost predicate FlushRight(d: Dev, r: Reader)
    requires d.reader.Flush?
  {
    if Flushed(d) in d.outstanding
    then r.Victim? && r.j < |d.slots| && Live(d.slots, d.fill, r.j) && d.slots[r.j].tag == Flushed(d) != d.reader.tag
    else r.Scan?
  }

  /** It finds that exactly when it is not misled. */
  lemma FlushRightIff(d: Dev)
    requires TagsOk(d) && d.reader.Flush?
    ensures FlushRight(d, Apply(d, LookUpFlushed).reader) <==> !Misled(d)
  {
    LookUpLive(d, d.reader.tag);
    if Flushed(d) in d.outstanding {
      LookUpLive(d, Flushed(d));
    }
  }

  lemma LookUpFlushedInv(d: Dev)
    requires Inv(d) && d.reader.Flush? && !Misled(d)
    ensures Inv(Apply(d, LookUpFlushed))
  {
    LookUpLive(d, d.reader.tag);
    FlushRightIff(d);
    if Flushed(d) in d.outstanding {
      LookUpLive(d, Flushed(d));
    }
  }

  lemma StepKeepsInv(d: Dev, e: Event)
    requires Inv(d) && Enabled(d, e) && (e.LookUpFlushed? ==> !Misled(d))
    ensures Inv(Apply(d, e))
  {
    match e
    case Take(tag, otag, idx) => TakeHeads(d, tag, otag, idx); TakeTags(d, tag, otag, idx);
    case Store => StoreHeads(d); StoreTags(d);
    case Answer(_, _) =>
    case LookUpFlushed => LookUpFlushedInv(d);
    case FreeFlushed => FreeFlushedInv(d);
    case LookUp => LookUpLive(d, d.reader.tag);
    case Release => ReleaseInv(d);
  }

  // ---------------------------------------------------------------- runs

  /** A run in which no flush lookup is misled. */
  ghost predicate Run(d: Dev, events: seq<Event>, r: Dev)
    decreases |events|
  {
    if events == [] then r == d
    else
      && Enabled(d, events[0]) && (events[0].LookUpFlushed? ==> !Misled(d))
      && Run(Apply(d, events[0]), events[1..], r)
  }

  predicate Initial(d: Dev) {
    && d.slots == seq(RINGSZ, _ => Slot(false, 0, 0, 0)) && d.inflight == 0
    && d.fill.NoFill? && d.reader.Idle? && d.outstanding == {} && d.held == {}
  }

  lemma {:induction false} NoneInUse(slots: seq<Slot>)
    requires forall i :: 0 <= i < |slots| ==> !slots[i].inuse
    ensures InUse(slots) == 0
  {
    if slots != [] { NoneInUse(slots[1..]); }
  }

  lemma {:induction false} RunInv(d: Dev, events: seq<Event>, r: Dev)
    requires Inv(d) && Run(d, events, r)
    ensures Inv(r)
    decreases |events|
  {
    if events != [] {
      StepKeepsInv(d, events[0]);
      RunInv(Apply(d, events[0]), events[1..], r);
    }
  }

  /**
    Although the reader never asks whether a slot is in use, in every such run the first slot with the tag of
    a reply is the live slot of the request it answers, the only one; and v9sc_inflight is the number of
    slots in use, flushes included.
   */
  lemma RepliesMatch(d: Dev, events: seq<Event>, r: Dev, tag: nat)
    requires Initial(d) && Run(d, events, r)
    ensures r.inflight == InUse(r.slots)
    ensures tag in r.outstanding ==>
      var i := FirstTag(r.slots, tag, 0);
      && i < |r.slots| && Live(r.slots, r.fill, i)
      && forall k :: 0 <= k < |r.slots| && Live(r.slots, r.fill, k) && r.slots[k].tag == tag ==> k == i
  {
    NoneInUse(d.slots);
    RunInv(d, events, r);
    if tag in r.outstanding { LookUpLive(r, tag); }
  }

  /**
    In every such run the table is never full for a request the guest may send, and the chains it holds are
    exactly those of its slots in use, each of one slot only.
   */
  lemma NeverFull(d: Dev, events: seq<Event>, r: Dev, tag: nat, idx: nat)
    requires Initial(d) && Run(d, events, r)
    ensures Offered(r, tag, idx) ==> FirstFree(r.slots, 0) < RINGSZ
    ensures Heads(r.slots, r.fill, r.held)
  {
    NoneInUse(d.slots);
    RunInv(d, events, r);
    if Offered(r, tag, idx) { SlotLeft(r, idx); }
  }

  /** A flush that names itself is released twice: the count of requests in flight ends one too low. */
  lemma SelfFlushMiscounts(d: Dev)
    requires TagsOk(d) && d.reader.Flush? && d.fill.NoFill? && Flushed(d) == d.reader.tag
    ensures
      var a := Apply(d, LookUpFlushed);
      && Enabled(a, FreeFlushed) && var b := Apply(a, FreeFlushed);
      && Enabled(b, LookUp) && var c := Apply(b, LookUp);
      && Enabled(c, Release) && var r := Apply(c, Release);
      r.inflight == InUse(r.slots) - 1
  {
    var tag := d.reader.tag;
    LookUpLive(d, tag);
    var i := FirstTag(d.slots, tag, 0);
    var b := Freed(d, i);
    InUseSet(d.slots, i, b.slots[i]);
    assert b.slots[i].tag == tag && forall j :: 0 <= j < i ==> b.slots[j].tag != tag;
    assert FirstTag(b.slots, tag, 0) == i;
    InUseSet(b.slots, i, b.slots[i].(inuse := false));
  }

  /** A flush of a request already answered, met by a new request in the old one's slot, drops the new one. */
  lemma RaceDropsRequest(d: Dev)
    requires TagsOk(d) && d.reader.Flush? && Misled(d) && Flushed(d) != d.reader.tag
    ensures
      && Enabled(d, LookUpFlushed) && var a := Apply(d, LookUpFlushed);
      && Enabled(a, Store) && var b := Apply(a, Store);
      && d.fill.tag in b.outstanding
      && Enabled(b, FreeFlushed) && d.fill.tag !in Apply(b, FreeFlushed).outstanding
  {
    LookUpLive(d, d.reader.tag);
    var j := FirstUsed(d.slots, Flushed(d), 0);
    assert d.slots[d.fill.slot].inuse;
    assert j <= d.fill.slot;
    assert !Live(d.slots, d.fill, j);
  }

  // ---------------------------------------------------------------- runs to both

  lemma {:induction false} RunSnoc(d: Dev, events: seq<Event>, q: Dev, e: Event)
    requires Run(d, events, q) && Enabled(q, e) && !e.LookUpFlushed?
    ensures Run(d, events + [e], Apply(q, e))
    decreases |events|
  {
    if events == [] {
      assert events + [e] == [e] && [e][1..] == [];
    } else {
      assert (events + [e])[1..] == events[1..] + [e];
      RunSnoc(Apply(d, events[0]), events[1..], q, e);
    }
  }

  /** A request, on the chain numbered like its tag, goes to the first free slot, here the i-th. */
  lemma Sent(d: Dev, events: seq<Event>, q: Dev, i: nat, tag: nat, otag: nat)
    returns (more: seq<Event>, r: Dev)
    requires Run(d, events, q) && q.fill.NoFill? && Offered(q, tag, tag)
    requires i < |q.slots| && !q.slots[i].inuse && forall j :: 0 <= j < i ==> q.slots[j].inuse
    ensures Run(d, more, r) && r.fill.NoFill? && r.reader == q.reader
    ensures r.slots == q.slots[i := Slot(true, tag, otag, tag)]
    ensures r.outstanding == q.outstanding + {tag} && r.held == q.held + {tag}
  {
    var take := Take(tag, otag, tag);
    assert FirstFree(q.slots, 0) == i;
    RunSnoc(d, events, q, take);
    var a := Apply(q, take);
    RunSnoc(d, events + [take], a, Store);
    more, r := events + [take] + [Store], Apply(a, Store);
  }

  /** A reply to the request in the i-th slot, the first with its tag. */
  lemma Replying(d: Dev, events: seq<Event>, q: Dev, i: nat) returns (more: seq<Event>, r: Dev)
    requires Run(d, events, q) && q.fill.NoFill? && q.reader.Idle? && i < |q.slots| && q.slots[i].tag in q.outstanding
    requires forall j :: 0 <= j < i ==> q.slots[j].tag != q.slots[i].tag
    ensures Run(d, more, r) && r == Freed(q, i)
  {
    var tag := q.slots[i].tag;
    assert FirstTag(q.slots, tag, 0) == i;
    RunSnoc(d, events, q, Answer(tag, false));
    var a := Apply(q, Answer(tag, false));
    RunSnoc(d, events + [Answer(tag, false)], a, LookUp);
    var b := Apply(a, LookUp);
    RunSnoc(d, events + [Answer(tag, false)] + [LookUp], b, Release);
    more, r := events + [Answer(tag, false)] + [LookUp] + [Release], Apply(b, Release);
  }

  /** A guest that flushes tag 5 under tag 5. */
  lemma SelfFlushReached(d: Dev) returns (events: seq<Event>, r: Dev)
    requires Initial(d)
    ensures Run(d, events, r) && r.reader.Flush? && r.fill.NoFill? && Flushed(r) == r.reader.tag
  {
    assert Run(d, [], d);
    var es, q := Sent(d, [], d, 0, 5, 5);
    RunSnoc(d, es, q, Answer(5, true));
    events, r := es + [Answer(5, true)], Apply(q, Answer(5, true));
    assert FirstTag(r.slots, 5, 0) == 0;
  }

  /** Tag 5 is answered; its flush, under tag 6, is answered while a request under tag 7 takes the old slot. */
  lemma RaceReached(d: Dev) returns (events: seq<Event>, r: Dev)
    requires Initial(d)
    ensures Run(d, events, r) && r.reader == Flush(6) && Misled(r) && Flushed(r) == 5
    ensures r.fill == Filling(0, 7, 0, 7)
  {
    assert Run(d, [], d);
    var es, q := Sent(d, [], d, 0, 5, 0);
    es, q := Sent(d, es, q, 1, 6, 5);
    es, q := Replying(d, es, q, 0);
    RunSnoc(d, es, q, Answer(6, true));
    es, q := es + [Answer(6, true)], Apply(q, Answer(6, true));
    assert FirstFree(q.slots, 0) == 0;
    RunSnoc(d, es, q, Take(7, 0, 7));
    events, r := es + [Take(7, 0, 7)], Apply(q, Take(7, 0, 7));
    assert r.slots[0].tag == 5 && r.slots[1] == Slot(true, 6, 5, 6);
    assert FirstTag(r.slots, 6, 0) == 1;
  }

  // ---------------------------------------------------------------- the table

  /** One reply handled from start to end with no request arriving meanwhile. */
  function Replied(d: Dev, tag: nat, flush: bool): (r: Dev)
    requires Enabled(d, Answer(tag, flush)) && d.fill.NoFill?
  {
    var a := Apply(d, Answer(tag, flush));
    var b := if flush then Apply(a, LookUpFlushed) else a;
    var c := if b.reader.Victim? then Apply(b, FreeFlushed) else b;
    var e := Apply(c, LookUp);
    if e.reader.Found? then Apply(e, Release) else e
  }

  function WithoutFlushed(d: Dev, tag: nat): (r: Dev) {
    var i := FirstTag(d.slots, tag, 0);
    var j := if i < |d.slots| then FirstUsed(d.slots, d.slots[i].otag, 0) else |d.slots|;
    if j < |d.slots| then Freed(d, j) else d
  }

  function WithoutTag(d: Dev, tag: nat): (r: Dev) {
    var i := FirstTag(d.slots, tag, 0);
    if i < |d.slots| then Freed(d, i) else d
  }

  lemma RepliedIs(d: Dev, tag: nat, flush: bool)
    requires Enabled(d, Answer(tag, flush)) && d.fill.NoFill?
    ensures Replied(d, tag, flush) == WithoutTag(if flush then WithoutFlushed(d, tag) else d, tag)
  {
  }

  /** A slot released by a reply to `tag`, or by the flush of `otag` it answers. */
  predicate Released(s: Slot, tag: nat, flush: bool, otag: nat) {
    s.inuse && (s.tag == tag || (flush && s.tag == otag))
  }

  lemma FreedExact(d: Dev, i: nat, tag: nat)
    requires Inv(d) && d.fill.NoFill? && i < |d.slots| && d.slots[i].inuse && d.slots[i].tag == tag
    ensures
      var r := Freed(d, i);
      && r.outstanding == d.outstanding - {tag} && r.inflight == d.inflight - 1 && |r.slots| == |d.slots|
      && forall k :: 0 <= k < |d.slots| ==>
           r.slots[k] == if d.slots[k].inuse && d.slots[k].tag == tag then d.slots[k].(inuse := false) else d.slots[k]
  {
    forall k | 0 <= k < |d.slots| && d.slots[k].inuse && d.slots[k].tag == tag ensures k == i {
      assert Live(d.slots, d.fill, k) && Live(d.slots, d.fill, i);
    }
  }

  lemma TagReleased(d: Dev, tag: nat)
    requires Inv(d) && d.fill.NoFill? && tag in d.outstanding
    ensures
      var r := WithoutTag(d, tag);
      && r.outstanding == d.outstanding - {tag} && r.inflight == d.inflight - 1 && |r.slots| == |d.slots|
      && forall k :: 0 <= k < |d.slots| ==>
           r.slots[k] == if d.slots[k].inuse && d.slots[k].tag == tag then d.slots[k].(inuse := false) else d.slots[k]
  {
    LookUpLive(d, tag);
    FreedExact(d, FirstTag(d.slots, tag, 0), tag);
  }

  lemma FlushedReleased(d: Dev, tag: nat)
    requires Inv(d) && d.fill.NoFill? && tag in d.outstanding && !Misled(d.(reader := Flush(tag)))
    ensures
      var r, otag := WithoutFlushed(d, tag), Flushed(d.(reader := Flush(tag)));
      && otag != tag && r.outstanding == d.outstanding - {otag} && |r.slots| == |d.slots|
      && r.inflight == d.inflight - (if otag in d.outstanding then 1 else 0)
      && Inv(r.(reader := Idle)) && r.fill.NoFill?
      && forall k :: 0 <= k < |d.slots| ==>
           r.slots[k] == if d.slots[k].inuse && d.slots[k].tag == otag then d.slots[k].(inuse := false) else d.slots[k]
  {
    LookUpLive(d, tag);
    var otag := Flushed(d.(reader := Flush(tag)));
    if otag in d.outstanding {
      LookUpLive(d, otag);
      var j := FirstUsed(d.slots, otag, 0);
      FreedExact(d, j, otag);
      FreedHeads(d, j);
      FreedTags(d, j);
    } else {
      NoneLive(d, otag);
    }
  }

  /** A tag that is not outstanding is in no slot in use. */
  lemma NoneLive(d: Dev, tag: nat)
    requires Inv(d) && d.fill.NoFill? && tag !in d.outstanding
    ensures FirstUsed(d.slots, tag, 0) == |d.slots|
    ensures forall k :: 0 <= k < |d.slots| && d.slots[k].inuse ==> d.slots[k].tag != tag
  {
    forall k | 0 <= k < |d.slots| && d.slots[k].inuse ensures d.slots[k].tag != tag {
      assert Live(d.slots, d.fill, k);
    }
  }

  /**
    A reply takes its request out of the table and, if it answers a flush that is not misled, the flushed request
    with it; every other slot stays as it is.
   */
  lemma ReplyExact(d: Dev, tag: nat, flush: bool)
    requires Inv(d) && d.reader.Idle? && d.fill.NoFill? && tag in d.outstanding
    requires flush ==> !Misled(d.(reader := Flush(tag)))
    ensures
      var r, otag := Replied(d, tag, flush), Flushed(d.(reader := Flush(tag)));
      && r.outstanding == d.outstanding - {tag} - (if flush then {otag} else {}) && |r.slots| == |d.slots|
      && r.inflight == d.inflight - 1 - (if flush && otag in d.outstanding then 1 else 0)
      && forall k :: 0 <= k < |d.slots| ==>
           r.slots[k] == if Released(d.slots[k], tag, flush, otag) then d.slots[k].(inuse := false) else d.slots[k]
  {
    RepliedIs(d, tag, flush);
    if flush {
      FlushedReleased(d, tag);
      var b := WithoutFlushed(d, tag);
      TagReleased(b.(reader := Idle), tag);
      assert WithoutTag(b, tag).slots == WithoutTag(b.(reader := Idle), tag).slots;
    } else {
      TagReleased(d, tag);
    }
  }

  /** A request takes the first free slot, with its tags and its chain; every other slot stays as it is. */
  lemma SendExact(d: Dev, tag: nat, otag: nat, idx: nat)
    requires Inv(d) && Enabled(d, Take(tag, otag, idx))
    ensures Enabled(Apply(d, Take(tag, otag, idx)), Store)
    ensures
      var r, i := Apply(Apply(d, Take(tag, otag, idx)), Store), FirstFree(d.slots, 0);
      && r.slots == d.slots[i := Slot(true, tag, otag, idx)] && r.fill.NoFill? && r.reader == d.reader
      && r.outstanding == d.outstanding + {tag} && r.held == d.held + {idx} && r.inflight == d.inflight + 1
      && forall j :: 0 <= j < i ==> d.slots[j].inuse
  {
  }

  /** v9sc_out and v9sc_inflight, updated in place. */
  class Table {
    const out: array<Slot>
    var inflight: int
    ghost var outstanding: set<nat>
    ghost var held: set<nat>

    constructor ()
      ensures Initial(View()) && fresh(out)
    {
      out := new Slot[RINGSZ](_ => Slot(false, 0, 0, 0));
      inflight, outstanding, held := 0, {}, {};
    }

    ghost function View(): (d: Dev)
      reads this, out
    { Dev(out[..], inflight, NoFill, Idle, outstanding, held) }

    /** The locked section of `pci_vt9p_notify`: the device stops when every slot is in use, which is never so. */
    method Notify(tag: nat, otag: nat, idx: nat) returns (full: bool)
      requires Offered(View(), tag, idx)
      modifies this, out
      ensures full <==> forall i :: 0 <= i < out.Length ==> old(out[i].inuse)
      ensures !full ==>
        && Enabled(old(View()), Take(tag, otag, idx))
        && View() == Apply(Apply(old(View()), Take(tag, otag, idx)), Store)
      ensures old(Inv(View())) ==> !full
    {
      ghost var was := View();
      inflight := inflight + 1;
      var i := FindFree();
      full := i == out.Length;
      if Inv(was) { SlotLeft(was, idx); }
      if !full {
        out[i] := Slot(true, tag, otag, idx);
        outstanding, held := outstanding + {tag}, held + {idx};
      }
    }

    method FindFree() returns (i: nat)
      ensures i == FirstFree(out[..], 0)
    {
      i := 0;
      while i < out.Length && out[i].inuse
        invariant i <= out.Length && FirstFree(out[..], 0) == FirstFree(out[..], i)
      {
        i := i + 1;
      }
    }

    method FindTag(tag: nat) returns (i: nat)
      ensures i == FirstTag(out[..], tag, 0)
    {
      i := 0;
      while i < out.Length && out[i].tag != tag
        invariant i <= out.Length && FirstTag(out[..], tag, 0) == FirstTag(out[..], tag, i)
      {
        i := i + 1;
      }
    }

    method FindUsed(tag: nat) returns (j: nat)
      ensures j == FirstUsed(out[..], tag, 0)
    {
      j := 0;
      while j < out.Length && !(out[j].tag == tag && out[j].inuse)
        invariant j <= out.Length && FirstUsed(out[..], tag, 0) == FirstUsed(out[..], tag, j)
      {
        j := j + 1;
      }
    }

    method Free(i: nat)
      requires i < out.Length
      modifies this, out
      ensures View() == Freed(old(View()), i)
    {
      outstanding, held := outstanding - {out[i].tag}, held - {out[i].idx};
      out[i] := out[i].(inuse := false);
      inflight := inflight - 1;
    }

    /** The loops of `pci_vt9p_thread` over the table, for one reply. */
    method Reply(tag: nat, flush: bool)
      requires tag in outstanding
      modifies this, out
      ensures View() == Replied(old(View()), tag, flush)
    {
      ghost var was := View();
      RepliedIs(was, tag, flush);
      if flush {
        FreeFlushed(tag);
      }
      var i := FindTag(tag);
      if i < out.Length {
        Free(i);
      }
    }

    /** What an Rflush does before its own slot is released. */
    method FreeFlushed(tag: nat)
      modifies this, out
      ensures View() == WithoutFlushed(old(View()), tag)
    {
      var i := FindTag(tag);
      if i < out.Length {
        var j := FindUsed(out[i].otag);
        if j < out.Length {
          Free(j);
        }
      }
    }
  }
}
