/**
  An AHCI port's commands in flight (src/lib/pci_ahci.c:411-480, 674-731, 793-845, 1411-1433, 1843-2033):
  command slots, the in-flight mask, and the pool of i/o requests shared by commands, continuations,
  completions and cancellations. Every step runs under the controller's mutex.
 */
module AhciPort {
  import opened Prelude
  import BlockQueue
  import BlockScheduler

  const SLOTS: nat := 32

  /** A busy request: which one of the pool, for which slot, with more to come, and for an NCQ command. */
  datatype Req = Req(id: nat, slot: nat, more: bool, ncq: bool)

  /**
    The registers are sets of slots; `started` and `ended` count, slot by slot, the commands that went in
    flight and those completed or cancelled.
   */
  datatype Port = Port(
    running: bool, ccs: nat, busyBit: bool, waitforclear: bool,
    ci: set<nat>, sact: set<nat>, pending: set<nat>,
    free: seq<nat>, busy: seq<Req>,
    started: seq<nat>, ended: seq<nat>)

  /** What a command does when it is first looked at. */
  datatype Outcome =
    | Queue(more: bool, ncq: bool, early: bool)   // goes to the disk; `early` when its CI bit is cleared already
    | Finish(ncq: bool)                           // completed on the spot; an NCQ one is a trim with no ranges
    | Fail(noted: bool)                           // refused; `noted` when the error FIS could be delivered
    | Drop                                        // not a host-to-device FIS

  /** What a continuation does: another request, or nothing left to trim. */
  datatype Next = Again(more: bool) | NoMore

  function Remove<T>(s: seq<T>, k: nat): (r: seq<T>)
    requires k < |s|
    ensures |r| == |s| - 1
  { s[..k] + s[k + 1..] }

  function Bump(s: seq<nat>, i: nat): (r: seq<nat>)
    ensures |r| == |s|
  { if i < |s| then s[i := s[i] + 1] else s }

  /** A request off the free list, onto the head of the busy list. */
  function Take(p: Port, slot: nat, more: bool, ncq: bool): (r: Port)
    requires p.free != []
  {
    p.(free := p.free[1..], busy := [Req(p.free[0], slot, more, ncq)] + p.busy, pending := p.pending + {slot})
  }

  /** A busy request back to the tail of the free list. */
  function Give(p: Port, k: nat): (r: Port)
    requires k < |p.busy|
  { p.(free := p.free + [p.busy[k].id], busy := Remove(p.busy, k)) }

  /** `ahci_check_stopped`. */
  function CheckStopped(p: Port): (r: Port) {
    if !p.running && p.pending == {} then p.(ccs := 0, ci := {}, sact := {}, waitforclear := false) else p
  }

  /** The command leaves the in-flight mask. */
  function End(p: Port, slot: nat): (r: Port) {
    CheckStopped(p.(pending := p.pending - {slot}, ended := Bump(p.ended, slot)))
  }

  /** A slot the search of `ahci_handle_port` may act on. */
  predicate Issuable(p: Port, slot: nat) {
    p.running && !p.busyBit && !p.waitforclear && slot < SLOTS && slot in p.ci && slot !in p.pending
  }

  /** `ahci_handle_slot`. */
  function HandleSlot(p: Port, slot: nat, o: Outcome): (r: Port)
    requires Issuable(p, slot) && (o.Queue? ==> p.free != [])
  {
    match o
    case Queue(more, ncq, early) =>
      var q := Take(p, slot, more, ncq);
      q.(busyBit := !early, ci := if early then p.ci - {slot} else p.ci, started := Bump(p.started, slot))
    case Finish(ncq) =>
      p.(busyBit := false, ci := p.ci - {slot}, sact := if ncq then p.sact - {slot} else p.sact)
    case Fail(noted) => p.(busyBit := false, waitforclear := noted)
    case Drop => p
  }

  /** A callback's last request: the registers change, the lists and counts do not. */
  function Completed(p: Port, req: Req, err: bool, noted: bool): (r: Port)
    ensures r.busy == p.busy && r.free == p.free && r.pending == p.pending
    ensures r.started == p.started && r.ended == p.ended
  {
    var h := if err then p.(waitforclear := p.waitforclear || noted)
             else if req.ncq then p.(sact := p.sact - {req.slot})
             else p.(ci := p.ci - {req.slot});
    if req.ncq then h else h.(busyBit := false)
  }

  /** `ata_ioreq_cb` and `atapi_ioreq_cb`, up to the search for new commands. */
  function Callback(p: Port, k: nat, err: bool, noted: bool, next: Next): (r: Port)
    requires k < |p.busy|
  {
    var req := p.busy[k];
    var g := Give(p, k);
    if !err && req.more && next.Again? then Take(g, req.slot, next.more, req.ncq)
    else End(Completed(g, req, err, noted), req.slot)
  }

  /** One cancelled request of `ahci_port_stop`. */
  function StopOne(p: Port, k: nat, ncq: bool): (r: Port)
    requires k < |p.busy|
    ensures |r.busy| == |p.busy| - 1
  {
    var req := p.busy[k];
    var g := Give(p, k);
    var h := if ncq || req.ncq then g.(sact := g.sact - {req.slot}) else g.(ci := g.ci - {req.slot});
    h.(pending := h.pending - {req.slot}, ended := Bump(h.ended, req.slot))
  }

  /** The loop of `ahci_port_stop`: `ncq` is never reset, so it sticks once an NCQ command was cancelled. */
  function StopLoop(p: Port, k: nat, ncq: bool, cancelled: set<nat>): (r: Port)
    requires k <= |p.busy|
    decreases |p.busy| - k
  {
    if k == |p.busy| then p
    else if p.busy[k].id !in cancelled then StopLoop(p, k + 1, ncq, cancelled)
    else StopLoop(StopOne(p, k, ncq), k, ncq || p.busy[k].ncq, cancelled)
  }

  /** `ahci_port_stop`; `cancelled` are the requests that blockif_cancel could still take back. */
  function Stop(p: Port, cancelled: set<nat>): (r: Port) {
    CheckStopped(StopLoop(p.(running := false), 0, false, cancelled))
  }

  // ---------------------------------------------------------------- invariant

  ghost predicate Distinct<T>(s: seq<T>) { forall i, j :: 0 <= i < j < |s| ==> s[i] != s[j] }

  /** Slots of busy requests are distinct and make up the in-flight mask. */
  ghost predicate SlotsOk(busy: seq<Req>, pending: set<nat>) {
    && (forall i :: 0 <= i < |busy| ==> busy[i].slot in pending)
    && (forall s :: s in pending ==> s < SLOTS && exists i :: 0 <= i < |busy| && busy[i].slot == s)
    && (forall i, j :: 0 <= i < j < |busy| ==> busy[i].slot != busy[j].slot)
  }

  /** Every request of the pool is on exactly one of the two lists. */
  ghost predicate PoolOk(free: seq<nat>, busy: seq<Req>, n: nat) {
    && |free| + |busy| == n
    && (forall i :: 0 <= i < |free| ==> free[i] < n)
    && (forall i :: 0 <= i < |busy| ==> busy[i].id < n)
    && Distinct(free)
    && (forall i, j :: 0 <= i < j < |busy| ==> busy[i].id != busy[j].id)
    && (forall i, j :: 0 <= i < |free| && 0 <= j < |busy| ==> free[i] != busy[j].id)
  }

  /** A command that went in flight ended once, or is still in flight. */
  ghost predicate CountsOk(started: seq<nat>, ended: seq<nat>, pending: set<nat>) {
    && |started| == |ended| == SLOTS
    && forall s :: 0 <= s < SLOTS ==> started[s] == ended[s] + if s in pending then 1 else 0
  }

  ghost predicate Parts(
    free: seq<nat>, busy: seq<Req>, pending: set<nat>, started: seq<nat>, ended: seq<nat>, n: nat)
  { SlotsOk(busy, pending) && PoolOk(free, busy, n) && CountsOk(started, ended, pending) }

  ghost predicate Inv(p: Port, n: nat) { Parts(p.free, p.busy, p.pending, p.started, p.ended, n) }

  /** Distinct slots below m number at most m. */
  lemma {:induction false} FewSlots(busy: seq<Req>, m: nat)
    requires forall i :: 0 <= i < |busy| ==> busy[i].slot < m
    requires forall i, j :: 0 <= i < j < |busy| ==> busy[i].slot != busy[j].slot
    ensures |busy| <= m
    decreases m
  {
    if busy != [] {
      assert busy[0].slot < m;
      if k :| 0 <= k < |busy| && busy[k].slot == m - 1 {
        FewSlots(Remove(busy, k), m - 1);
      } else {
        FewSlots(busy, m - 1);
      }
    }
  }

  lemma TakePool(free: seq<nat>, busy: seq<Req>, r: Req, n: nat)
    requires free != [] && PoolOk(free, busy, n) && r.id == free[0]
    ensures PoolOk(free[1..], [r] + busy, n)
  {
  }

  lemma TakeSlots(busy: seq<Req>, pending: set<nat>, r: Req)
    requires r.slot < SLOTS && SlotsOk(busy, pending - {r.slot})
    ensures SlotsOk([r] + busy, pending + {r.slot})
  {
    var more := [r] + busy;
    forall s | s in pending + {r.slot} ensures s < SLOTS && exists i :: 0 <= i < |more| && more[i].slot == s {
      if s == r.slot {
        assert more[0].slot == s;
      } else {
        assert s in pending - {r.slot};
        var i :| 0 <= i < |busy| && busy[i].slot == s;
        assert more[i + 1].slot == s;
      }
    }
  }

  lemma TakeInv(p: Port, slot: nat, more: bool, ncq: bool, n: nat)
    requires p.free != [] && PoolOk(p.free, p.busy, n) && slot < SLOTS
    requires SlotsOk(p.busy, p.pending - {slot})
    ensures PoolOk(Take(p, slot, more, ncq).free, Take(p, slot, more, ncq).busy, n)
    ensures SlotsOk(Take(p, slot, more, ncq).busy, p.pending + {slot})
  {
    TakePool(p.free, p.busy, Req(p.free[0], slot, more, ncq), n);
    TakeSlots(p.busy, p.pending, Req(p.free[0], slot, more, ncq));
  }

  lemma GivePool(free: seq<nat>, busy: seq<Req>, k: nat, n: nat)
    requires k < |busy| && PoolOk(free, busy, n)
    ensures PoolOk(free + [busy[k].id], Remove(busy, k), n)
  {
  }

  lemma GiveSlots(busy: seq<Req>, pending: set<nat>, k: nat)
    requires k < |busy| && SlotsOk(busy, pending)
    ensures SlotsOk(Remove(busy, k), pending - {busy[k].slot})
  {
    var rest := Remove(busy, k);
    forall s | s in pending && s != busy[k].slot
      ensures s < SLOTS && exists i :: 0 <= i < |rest| && rest[i].slot == s
    {
      var i :| 0 <= i < |busy| && busy[i].slot == s;
      assert rest[if i < k then i else i - 1].slot == s;
    }
  }

  lemma GiveInv(p: Port, k: nat, n: nat)
    requires k < |p.busy| && PoolOk(p.free, p.busy, n) && SlotsOk(p.busy, p.pending)
    ensures PoolOk(Give(p, k).free, Give(p, k).busy, n)
    ensures SlotsOk(Give(p, k).busy, p.pending - {p.busy[k].slot})
  {
    GivePool(p.free, p.busy, k, n);
    GiveSlots(p.busy, p.pending, k);
  }

  /** While a slot is free of requests there is one left in a pool of 32 or more. */
  lemma Room(p: Port, slot: nat, n: nat)
    requires PoolOk(p.free, p.busy, n) && SlotsOk(p.busy, p.pending - {slot}) && slot < SLOTS <= n
    ensures |p.busy| < SLOTS && p.free != []
  {
    FewSlots([Req(0, slot, false, false)] + p.busy, SLOTS);
  }

  lemma HandleSlotInv(p: Port, slot: nat, o: Outcome, n: nat)
    requires Inv(p, n) && Issuable(p, slot) && n >= SLOTS
    ensures p.free != [] && Inv(HandleSlot(p, slot, o), n)
  {
    assert p.pending - {slot} == p.pending;
    Room(p, slot, n);
    if o.Queue? {
      TakeInv(p, slot, o.more, o.ncq, n);
    }
  }

  /** Ending the one command whose request was given back. */
  lemma EndInv(p: Port, slot: nat, n: nat)
    requires SlotsOk(p.busy, p.pending - {slot}) && PoolOk(p.free, p.busy, n) && slot in p.pending && slot < SLOTS
    requires CountsOk(p.started, p.ended, p.pending)
    ensures Inv(End(p, slot), n)
  {
  }

  lemma CallbackInv(p: Port, k: nat, err: bool, noted: bool, next: Next, n: nat)
    requires Inv(p, n) && k < |p.busy|
    ensures Inv(Callback(p, k, err, noted, next), n)
  {
    var req := p.busy[k];
    assert req.slot in p.pending;
    GiveInv(p, k, n);
    if !err && req.more && next.Again? {
      TakeInv(Give(p, k), req.slot, next.more, req.ncq, n);
      assert p.pending + {req.slot} == p.pending;
    } else {
      EndInv(Completed(Give(p, k), req, err, noted), req.slot, n);
    }
  }

  lemma StopOneInv(p: Port, k: nat, ncq: bool, n: nat)
    requires Inv(p, n) && k < |p.busy|
    ensures Inv(StopOne(p, k, ncq), n)
  {
    assert p.busy[k].slot in p.pending;
    GiveInv(p, k, n);
  }

  lemma {:induction false} StopLoopInv(p: Port, k: nat, ncq: bool, cancelled: set<nat>, n: nat)
    requires Inv(p, n) && k <= |p.busy|
    ensures Inv(StopLoop(p, k, ncq, cancelled), n)
    decreases |p.busy| - k
  {
    if k < |p.busy| {
      if p.busy[k].id !in cancelled {
        StopLoopInv(p, k + 1, ncq, cancelled, n);
      } else {
        StopOneInv(p, k, ncq, n);
        StopLoopInv(StopOne(p, k, ncq), k, ncq || p.busy[k].ncq, cancelled, n);
      }
    }
  }

  // ---------------------------------------------------------------- runs

  datatype Event =
    | Issue(slot: nat, o: Outcome)
    | Complete(k: nat, err: bool, noted: bool, next: Next)
    | Halt(cancelled: set<nat>)                       // the guest clears the start bit
    | Start                                           // the guest sets it
    | WriteCi(slots: set<nat>)
    | WriteSact(slots: set<nat>)
    | ClearBusy                                       // command list override
    | Reset(all: bool)                                // ahci_port_reset, or ahci_reset of the whole controller

  predicate Enabled(p: Port, e: Event) {
    match e
    case Issue(slot, _) => Issuable(p, slot)
    case Complete(k, _, _, _) => k < |p.busy|
    case _ => true
  }

  /** The step, or None where an assertion that a free request exists would fail. */
  function Apply(p: Port, e: Event): (r: Option<Port>)
    requires Enabled(p, e)
  {
    match e
    case Issue(slot, o) => if o.Queue? && p.free == [] then None else Some(HandleSlot(p, slot, o))
    case Complete(k, err, noted, next) => Some(Callback(p, k, err, noted, next))
    case Halt(cancelled) => Some(Stop(p, cancelled))
    case Start => Some(p.(running := true))
    case WriteCi(slots) => Some(p.(ci := p.ci + slots))
    case WriteSact(slots) => Some(p.(sact := p.sact + slots))
    case ClearBusy => Some(p.(busyBit := false))
    // a controller reset clears the start bit and cancels nothing
    case Reset(all) => Some(p.(sact := {}, busyBit := false, running := p.running && !all))
  }

  ghost predicate Run(p: Port, events: seq<Event>, r: Option<Port>)
    decreases |events|
  {
    if events == [] then r == Some(p)
    else if !Enabled(p, events[0]) then false
    else if Apply(p, events[0]).None? then r == None
    else Run(Apply(p, events[0]).value, events[1..], r)
  }

  /** `pci_ahci_ioreq_init`: the whole pool is free. */
  predicate Initial(p: Port, n: nat) {
    && p.pending == {} && p.busy == [] && p.free == seq(n, i => i)
    && p.started == p.ended == seq(SLOTS, _ => 0)
  }

  lemma StepKeepsInv(p: Port, e: Event, n: nat)
    requires Inv(p, n) && Enabled(p, e) && n >= SLOTS
    ensures Apply(p, e).Some? && Inv(Apply(p, e).value, n)
  {
    match e
    case Issue(slot, o) => HandleSlotInv(p, slot, o, n);
    case Complete(k, err, noted, next) => CallbackInv(p, k, err, noted, next, n);
    case Halt(cancelled) => StopLoopInv(p.(running := false), 0, false, cancelled, n);
    case _ =>
  }

  lemma {:induction false} RunInv(p: Port, events: seq<Event>, r: Option<Port>, n: nat)
    requires Inv(p, n) && Run(p, events, r) && n >= SLOTS
    ensures r.Some? && Inv(r.value, n)
    decreases |events|
  {
    if events != [] {
      StepKeepsInv(p, events[0], n);
      RunInv(Apply(p, events[0]).value, events[1..], r, n);
    }
  }

  /**
    In every run over a pool of blockif_queuesz() requests no assertion that a free one exists fails; at
    most 32 requests are busy, for 32 different slots, which are exactly the slots marked in flight; each
    request is on one list; and each command that went in flight was ended once, unless it still is.
   */
  lemma InFlightExact(p: Port, events: seq<Event>, r: Option<Port>)
    requires Initial(p, BlockQueue.BLOCKIF_MAXREQ - 1) && Run(p, events, r)
    ensures r.Some? && |r.value.busy| <= SLOTS
    ensures SlotsOk(r.value.busy, r.value.pending)
    ensures PoolOk(r.value.free, r.value.busy, BlockQueue.BLOCKIF_MAXREQ - 1)
    ensures CountsOk(r.value.started, r.value.ended, r.value.pending)
    ensures forall s :: 0 <= s < SLOTS ==> r.value.started[s] == StartsIn(events, s)
  {
    RunInv(p, events, r, BlockQueue.BLOCKIF_MAXREQ - 1);
    FewSlots(r.value.busy, SLOTS);
    forall s | 0 <= s < SLOTS ensures r.value.started[s] == StartsIn(events, s) {
      StartsCounted(p, events, r.value, s);
    }
  }

  /**
    What the guest sees of a command's last completion: the slot is free again, its CI or SACT bit is gone
    if and only if it succeeded or the port has come to a stop, and no other slot's bits changed until then.
   */
  lemma CompletionVisible(p: Port, k: nat, err: bool, noted: bool, next: Next, n: nat)
    requires Inv(p, n) && k < |p.busy| && (err || !p.busy[k].more || next.NoMore?)
    requires p.busy[k].slot in (if p.busy[k].ncq then p.sact else p.ci)
    ensures
      var slot, ncq, r := p.busy[k].slot, p.busy[k].ncq, Callback(p, k, err, noted, next);
      var stopped := !p.running && p.pending == {slot};
      && slot !in r.pending
      && (slot !in (if ncq then r.sact else r.ci) <==> !err || stopped)
      && (!stopped ==> (err && noted ==> r.waitforclear))
      && (!stopped ==> r.ci - {slot} == p.ci - {slot} && r.sact - {slot} == p.sact - {slot})
      && (stopped ==> r.ci == {} && r.sact == {} && !r.waitforclear)
  {
    var slot := p.busy[k].slot;
    assert slot in p.pending;
    assert p.pending - {slot} == {} <==> p.pending == {slot};
  }

  /** A continuation leaves the command issued and in flight, with a request of its own for what is left. */
  lemma ContinuationVisible(p: Port, k: nat, noted: bool, next: Next, n: nat)
    requires Inv(p, n) && k < |p.busy| && p.busy[k].more && next.Again?
    ensures
      var was, r := p.busy[k], Callback(p, k, false, noted, next);
      && r.ci == p.ci && r.sact == p.sact && r.pending == p.pending && r.busyBit == p.busyBit
      && r.waitforclear == p.waitforclear && r.busy != [] && r.ended == p.ended
      && r.busy[0].slot == was.slot && r.busy[0].ncq == was.ncq && r.busy[0].more == next.more
  {
    assert p.busy[k].slot in p.pending;
  }

  /** What the guest sees of a command taken up: whether it stays issued, goes in flight, or stops the port. */
  lemma IssueVisible(p: Port, slot: nat, o: Outcome, s: nat)
    requires Issuable(p, slot) && (o.Queue? ==> p.free != [])
    ensures
      var r := HandleSlot(p, slot, o);
      && (s in r.ci <==> s in p.ci && !(s == slot && (o.Finish? || (o.Queue? && o.early))))
      && (s in r.sact <==> s in p.sact && !(s == slot && o.Finish? && o.ncq))
      && (s in r.pending <==> s in p.pending || (s == slot && o.Queue?))
      && (r.busyBit <==> o.Queue? && !o.early) && (r.waitforclear <==> o.Fail? && o.noted)
      && (o.Queue? ==> r.busy == [Req(p.free[0], slot, o.more, o.ncq)] + p.busy && r.free == p.free[1..])
      && (!o.Queue? ==> r.busy == p.busy && r.free == p.free)
  {
  }

  /** What a register write or reset changes of a slot's bits, and of the port's. */
  lemma WriteVisible(p: Port, e: Event, s: nat)
    requires Enabled(p, e) && !e.Issue? && !e.Complete? && !e.Halt?
    ensures
      var r := Apply(p, e);
      && r.Some? && r.value.busy == p.busy && r.value.free == p.free && r.value.pending == p.pending
      && (s in r.value.ci <==> s in p.ci || (e.WriteCi? && s in e.slots))
      && (s in r.value.sact <==> !e.Reset? && (s in p.sact || (e.WriteSact? && s in e.slots)))
      && (r.value.busyBit <==> p.busyBit && !e.ClearBusy? && !e.Reset?)
      && (r.value.running <==> e.Start? || (p.running && !(e.Reset? && e.all)))
  {
  }

  /** Commands sent to the disk in a run, slot by slot. */
  function StartsIn(events: seq<Event>, slot: nat): (n: nat) {
    if events == [] then 0
    else StartsIn(events[1..], slot) + (if Sends(events[0], slot) then 1 else 0)
  }

  predicate Sends(e: Event, slot: nat) { e.Issue? && e.slot == slot && e.o.Queue? }

  lemma StartStep(p: Port, e: Event, slot: nat)
    requires Enabled(p, e) && Apply(p, e).Some? && slot < |p.started|
    ensures
      var r := Apply(p, e).value;
      && |r.started| == |p.started|
      && r.started[slot] == p.started[slot] + (if Sends(e, slot) then 1 else 0)
  {
    if e.Halt? { StopStarted(p.(running := false), 0, false, e.cancelled); }
  }

  lemma {:induction false} StopStarted(p: Port, k: nat, ncq: bool, cancelled: set<nat>)
    requires k <= |p.busy|
    ensures StopLoop(p, k, ncq, cancelled).started == p.started
    decreases |p.busy| - k
  {
    if k < |p.busy| {
      if p.busy[k].id !in cancelled {
        StopStarted(p, k + 1, ncq, cancelled);
      } else {
        StopStarted(StopOne(p, k, ncq), k, ncq || p.busy[k].ncq, cancelled);
      }
    }
  }

  lemma {:induction false} StartsCounted(p: Port, events: seq<Event>, r: Port, slot: nat)
    requires Run(p, events, Some(r)) && slot < |p.started|
    ensures |r.started| == |p.started| && r.started[slot] == p.started[slot] + StartsIn(events, slot)
    decreases |events|
  {
    if events != [] {
      StartStep(p, events[0], slot);
      StartsCounted(Apply(p, events[0]).value, events[1..], r, slot);
    }
  }

  // ---------------------------------------------------------------- which register a cancelled command leaves

  /** Whether an NCQ command was cancelled at or before position i. */
  predicate NcqSeen(busy: seq<Req>, i: nat, cancelled: set<nat>)
    requires i < |busy|
  { exists j :: 0 <= j <= i && busy[j].id in cancelled && busy[j].ncq }

  /** A slot with a request that is cancelled before any NCQ one. */
  predicate Cleared(busy: seq<Req>, ncq: bool, cancelled: set<nat>, slot: nat) {
    && !ncq
    && exists i ::
         0 <= i < |busy| && busy[i].slot == slot && busy[i].id in cancelled && !NcqSeen(busy, i, cancelled)
  }

  /**
    Cancelling clears a slot's CI bit exactly when it was cancelled before every NCQ command: once one is
    met, later commands lose their SACT bit instead, NCQ or not.
   */
  lemma {:induction false} StopClearsIff(p: Port, k: nat, ncq: bool, cancelled: set<nat>, slot: nat)
    requires k <= |p.busy|
    ensures slot in StopLoop(p, k, ncq, cancelled).ci <==> slot in p.ci && !Cleared(p.busy[k..], ncq, cancelled, slot)
    decreases |p.busy| - k
  {
    if k < |p.busy| {
      ClearedStep(p.busy[k..], ncq, cancelled, slot);
      assert p.busy[k..][1..] == p.busy[k + 1..];
      if p.busy[k].id !in cancelled {
        StopClearsIff(p, k + 1, ncq, cancelled, slot);
      } else {
        var q := StopOne(p, k, ncq);
        assert q.busy[k..] == p.busy[k + 1..];
        StopClearsIff(q, k, ncq || p.busy[k].ncq, cancelled, slot);
      }
    }
  }

  lemma ClearedStep(busy: seq<Req>, ncq: bool, cancelled: set<nat>, slot: nat)
    requires busy != []
    ensures
      var hit := busy[0].id in cancelled;
      Cleared(busy, ncq, cancelled, slot) <==>
        || (hit && !ncq && !busy[0].ncq && busy[0].slot == slot)
        || Cleared(busy[1..], ncq || (hit && busy[0].ncq), cancelled, slot)
  {
    var rest := busy[1..];
    forall i | 0 <= i < |rest|
      ensures NcqSeen(busy, i + 1, cancelled) <==>
        (busy[0].id in cancelled && busy[0].ncq) || NcqSeen(rest, i, cancelled)
    {
      SeenStep(busy, i, cancelled);
    }
    if Cleared(busy, ncq, cancelled, slot) {
      var i :| 0 <= i < |busy| && busy[i].slot == slot && busy[i].id in cancelled && !NcqSeen(busy, i, cancelled);
      if i > 0 { assert rest[i - 1] == busy[i]; }
    }
    if Cleared(rest, ncq || (busy[0].id in cancelled && busy[0].ncq), cancelled, slot) {
      var i :| 0 <= i < |rest| && rest[i].slot == slot && rest[i].id in cancelled && !NcqSeen(rest, i, cancelled);
      assert busy[i + 1] == rest[i];
    }
  }

  lemma SeenStep(busy: seq<Req>, i: nat, cancelled: set<nat>)
    requires i + 1 < |busy|
    ensures NcqSeen(busy, i + 1, cancelled) <==>
      (busy[0].id in cancelled && busy[0].ncq) || NcqSeen(busy[1..], i, cancelled)
  {
    var rest := busy[1..];
    if NcqSeen(busy, i + 1, cancelled) {
      var j :| 0 <= j <= i + 1 && busy[j].id in cancelled && busy[j].ncq;
      if j > 0 { assert rest[j - 1].ncq && rest[j - 1].id in cancelled; }
    }
    if NcqSeen(rest, i, cancelled) {
      var j :| 0 <= j <= i && rest[j].id in cancelled && rest[j].ncq;
      assert busy[j + 1].ncq && busy[j + 1].id in cancelled;
    }
  }

  /** A slot with a request that is cancelled once an NCQ one was, itself included. */
  predicate ClearedNcq(busy: seq<Req>, ncq: bool, cancelled: set<nat>, slot: nat) {
    exists i ::
      0 <= i < |busy| && busy[i].slot == slot && busy[i].id in cancelled && (ncq || NcqSeen(busy, i, cancelled))
  }

  /** And its SACT bit exactly when it was cancelled after the first NCQ command, or is that one. */
  lemma {:induction false} StopClearsSactIff(p: Port, k: nat, ncq: bool, cancelled: set<nat>, slot: nat)
    requires k <= |p.busy|
    ensures slot in StopLoop(p, k, ncq, cancelled).sact <==>
      slot in p.sact && !ClearedNcq(p.busy[k..], ncq, cancelled, slot)
    decreases |p.busy| - k
  {
    if k < |p.busy| {
      ClearedNcqStep(p.busy[k..], ncq, cancelled, slot);
      assert p.busy[k..][1..] == p.busy[k + 1..];
      if p.busy[k].id !in cancelled {
        StopClearsSactIff(p, k + 1, ncq, cancelled, slot);
      } else {
        var q := StopOne(p, k, ncq);
        assert q.busy[k..] == p.busy[k + 1..];
        StopClearsSactIff(q, k, ncq || p.busy[k].ncq, cancelled, slot);
      }
    }
  }

  lemma ClearedNcqStep(busy: seq<Req>, ncq: bool, cancelled: set<nat>, slot: nat)
    requires busy != []
    ensures
      var hit := busy[0].id in cancelled;
      ClearedNcq(busy, ncq, cancelled, slot) <==>
        || (hit && (ncq || busy[0].ncq) && busy[0].slot == slot)
        || ClearedNcq(busy[1..], ncq || (hit && busy[0].ncq), cancelled, slot)
  {
    var rest, hit := busy[1..], busy[0].id in cancelled;
    if ClearedNcq(busy, ncq, cancelled, slot) {
      var i :| 0 <= i < |busy| && busy[i].slot == slot && busy[i].id in cancelled
        && (ncq || NcqSeen(busy, i, cancelled));
      if i > 0 {
        SeenStep(busy, i - 1, cancelled);
        assert rest[i - 1] == busy[i];
      }
    }
    if ClearedNcq(rest, ncq || (hit && busy[0].ncq), cancelled, slot) {
      var i :| 0 <= i < |rest| && rest[i].slot == slot && rest[i].id in cancelled
        && (ncq || (hit && busy[0].ncq) || NcqSeen(rest, i, cancelled));
      SeenStep(busy, i, cancelled);
      assert busy[i + 1] == rest[i];
    }
    if hit && busy[0].ncq { assert NcqSeen(busy, 0, cancelled); }
  }

  /** A stop takes out of flight exactly the commands whose requests were cancelled. */
  lemma {:induction false} StopPendingIff(p: Port, k: nat, ncq: bool, cancelled: set<nat>, slot: nat)
    requires k <= |p.busy|
    ensures slot in StopLoop(p, k, ncq, cancelled).pending <==>
      slot in p.pending && forall i :: k <= i < |p.busy| && p.busy[i].slot == slot ==> p.busy[i].id !in cancelled
    decreases |p.busy| - k
  {
    if k < |p.busy| {
      if p.busy[k].id !in cancelled {
        StopPendingIff(p, k + 1, ncq, cancelled, slot);
      } else {
        var q := StopOne(p, k, ncq);
        assert forall i :: k <= i < |q.busy| ==> q.busy[i] == p.busy[i + 1];
        assert forall i :: k < i < |p.busy| ==> p.busy[i] == q.busy[i - 1];
        StopPendingIff(q, k, ncq || p.busy[k].ncq, cancelled, slot);
      }
    }
  }

  /** A stopped port: with nothing left in flight all its bits are gone, and else those the two lemmas above say. */
  lemma StopVisible(p: Port, cancelled: set<nat>, slot: nat)
    ensures
      var r := Stop(p, cancelled);
      && !r.running
      && (slot in r.pending <==>
            slot in p.pending && forall i :: 0 <= i < |p.busy| && p.busy[i].slot == slot ==> p.busy[i].id !in cancelled)
      && (r.pending == {} ==> r.ci == {} && r.sact == {} && r.ccs == 0 && !r.waitforclear)
      && (r.pending != {} ==>
            && (slot in r.ci <==> slot in p.ci && !Cleared(p.busy, false, cancelled, slot))
            && (slot in r.sact <==> slot in p.sact && !ClearedNcq(p.busy, false, cancelled, slot)))
  {
    var q := p.(running := false);
    assert q.busy[0..] == p.busy;
    StopClearsIff(q, 0, false, cancelled, slot);
    StopClearsSactIff(q, 0, false, cancelled, slot);
    StopPendingIff(q, 0, false, cancelled, slot);
    StopHalted(q, 0, false, cancelled);
  }

  lemma {:induction false} StopHalted(p: Port, k: nat, ncq: bool, cancelled: set<nat>)
    requires k <= |p.busy|
    ensures StopLoop(p, k, ncq, cancelled).running == p.running
    decreases |p.busy| - k
  {
    if k < |p.busy| {
      if p.busy[k].id !in cancelled {
        StopHalted(p, k + 1, ncq, cancelled);
      } else {
        StopHalted(StopOne(p, k, ncq), k, ncq || p.busy[k].ncq, cancelled);
      }
    }
  }

  /** With an NCQ command ahead of it and another request still in flight, a cancelled command stays issued. */
  lemma StickyStop(p: Port)
    requires p.busy == [Req(2, 2, false, true), Req(1, 1, false, false), Req(0, 0, false, false)]
    requires p.pending == {0, 1, 2} && p.ci == {0, 1}
    ensures 1 in Stop(p, {1, 2}).ci && 1 !in Stop(p, {1, 2}).pending
  {
    var c := {1, 2};
    var p' := p.(running := false);
    var q := StopOne(p', 0, false);
    assert StopLoop(p', 0, false, c) == StopLoop(q, 0, true, c);
    assert q.busy == [Req(1, 1, false, false), Req(0, 0, false, false)];
    var r := StopOne(q, 0, true);
    assert StopLoop(q, 0, true, c) == StopLoop(r, 0, true, c);
    assert r.busy == [Req(0, 0, false, false)];
    assert StopLoop(r, 0, true, c) == StopLoop(r, 1, true, c) == r;
    assert 0 in r.pending;
  }

  lemma {:induction false} RunSnoc(p: Port, events: seq<Event>, q: Port, e: Event)
    requires Run(p, events, Some(q)) && Enabled(q, e) && Apply(q, e).Some?
    ensures Run(p, events + [e], Apply(q, e))
    decreases |events|
  {
    if events == [] {
      assert events + [e] == [e] && [e][1..] == [];
      assert Run(Apply(q, e).value, [], Apply(q, e));
    } else {
      assert (events + [e])[1..] == events[1..] + [e];
      RunSnoc(Apply(p, events[0]).value, events[1..], q, e);
    }
  }

  /** One command to the disk, its busy bit cleared by a command list override. */
  lemma Issued(p: Port, events: seq<Event>, q: Port, slot: nat, ncq: bool) returns (more: seq<Event>, r: Port)
    requires Run(p, events, Some(q)) && Issuable(q, slot) && q.free != []
    ensures Run(p, more, Some(r)) && r.free == q.free[1..] && r.busy == [Req(q.free[0], slot, false, ncq)] + q.busy
    ensures r.pending == q.pending + {slot} && r.ci == (if ncq then q.ci - {slot} else q.ci)
    ensures r.running && !r.busyBit && !r.waitforclear
  {
    var e := Issue(slot, Queue(false, ncq, ncq));
    var q' := Apply(q, e).value;
    RunSnoc(p, events, q, e);
    RunSnoc(p, events + [e], q', ClearBusy);
    more, r := events + [e] + [ClearBusy], Apply(q', ClearBusy).value;
  }

  /** The port after `pci_ahci_ioreq_init` and a register reset. */
  predicate Cold(p: Port, n: nat) {
    Initial(p, n) && p.ccs == 0 && p.ci == {} && !p.busyBit && !p.waitforclear
  }

  lemma Started(p: Port) returns (events: seq<Event>, q: Port)
    requires p.ci == {} && !p.busyBit && !p.waitforclear
    ensures Run(p, events, Some(q)) && q == p.(running := true, ci := {0, 1, 2})
  {
    assert Run(p, [], Some(p));
    RunSnoc(p, [], p, Start);
    var s := Apply(p, Start).value;
    RunSnoc(p, [] + [Start], s, WriteCi({0, 1, 2}));
    events, q := [] + [Start] + [WriteCi({0, 1, 2})], Apply(s, WriteCi({0, 1, 2})).value;
  }

  /** And a guest can bring it about: plain commands in slots 0 and 1, an NCQ command in slot 2, and a stop. */
  lemma StickyNcq(p: Port, n: nat) returns (events: seq<Event>, q: Port, r: Port)
    requires Cold(p, n) && n >= 3
    ensures Run(p, events, Some(q)) && r == Stop(q, {1, 2})
    ensures Req(1, 1, false, false) in q.busy && 1 in r.ci && 1 !in r.pending
  {
    events, q := Started(p);
    events, q := Issued(p, events, q, 0, false);
    events, q := Issued(p, events, q, 1, false);
    events, q := Issued(p, events, q, 2, true);
    assert q.busy == [Req(2, 2, false, true), Req(1, 1, false, false), Req(0, 0, false, false)];
    assert q.busy[1] == Req(1, 1, false, false);
    StickyStop(q);
    r := Stop(q, {1, 2});
  }

  // ---------------------------------------------------------------- the search for commands to issue

  function Open(p: Port): (slots: set<nat>) { p.ci - p.pending }

  /** The search of `ahci_handle_port` has another turn. */
  predicate Going(p: Port) { p.running && Open(p) != {} && !p.busyBit && !p.waitforclear }

  /** A slot the search gets past: it leaves CI, goes in flight, or stops the search. */
  predicate Passes(o: Outcome) { !o.Drop? && (o.Fail? ==> o.noted) }

  /** A slot that leaves the port busy or in error. */
  predicate Halts(o: Outcome) { (o.Queue? && !o.early) || (o.Fail? && o.noted) }

  predicate InRange(p: Port) { p.ccs < SLOTS && forall s :: s in p.ci ==> s < SLOTS }

  /** (ccs + 1) & 31. */
  function Next32(ccs: nat): (r: nat)
    requires ccs < SLOTS
    ensures r < SLOTS
  { if ccs + 1 == SLOTS then 0 else ccs + 1 }

  /** What the search leaves alone, and in which direction it moves the rest. */
  predicate Onward(p: Port, r: Port) {
    r.ci <= p.ci && p.pending <= r.pending && r.ended == p.ended && r.running == p.running
  }

  /** One turn, or None where there is no free request. */
  function Turn(p: Port, outcome: nat -> Outcome): (r: Option<Port>)
    requires InRange(p) && Going(p)
    ensures r.Some? ==> InRange(r.value) && Onward(p, r.value)
  {
    var q := if p.ccs in Open(p) then Apply(p, Issue(p.ccs, outcome(p.ccs))) else Some(p);
    if q.None? then None else Some(q.value.(ccs := Next32(p.ccs)))
  }

  /** The port after so many turns, or where the search came to an end before. */
  function Searched(p: Port, outcome: nat -> Outcome, turns: nat): (r: Option<Port>)
    requires InRange(p)
    ensures r.Some? ==> InRange(r.value) && Onward(p, r.value)
    decreases turns
  {
    if turns == 0 || !Going(p) then Some(p)
    else if Turn(p, outcome).None? then None
    else Searched(Turn(p, outcome).value, outcome, turns - 1)
  }

  predicate Over(p: Option<Port>) { p.None? || !Going(p.value) }

  lemma {:induction false} SearchedMore(p: Port, outcome: nat -> Outcome, t: nat)
    requires InRange(p) && !Over(Searched(p, outcome, t))
    ensures Searched(p, outcome, t + 1) == Turn(Searched(p, outcome, t).value, outcome)
    decreases t
  {
    if t == 0 {
      var q := Turn(p, outcome);
      assert q.Some? ==> Searched(q.value, outcome, 0) == q;
    } else {
      SearchedMore(Turn(p, outcome).value, outcome, t - 1);
    }
  }

  lemma TurnSound(p: Port, outcome: nat -> Outcome, n: nat)
    requires InRange(p) && Going(p) && Inv(p, n) && n >= SLOTS
    ensures Turn(p, outcome).Some? && Inv(Turn(p, outcome).value, n)
  {
    if p.ccs in Open(p) { HandleSlotInv(p, p.ccs, outcome(p.ccs), n); }
  }

  /** In a sound port a search never lacks a request. */
  lemma {:induction false} SearchSound(p: Port, outcome: nat -> Outcome, n: nat, t: nat)
    requires InRange(p) && Inv(p, n) && n >= SLOTS
    ensures Searched(p, outcome, t).Some? && Inv(Searched(p, outcome, t).value, n)
    decreases t
  {
    if t > 0 && Going(p) {
      TurnSound(p, outcome, n);
      SearchSound(Turn(p, outcome).value, outcome, n, t - 1);
    }
  }

  /** No turn lacks a request. */
  ghost predicate Supplied(p: Port, outcome: nat -> Outcome)
    requires InRange(p)
  { forall t: nat :: Searched(p, outcome, t).Some? }

  lemma NeverLacks(p: Port, outcome: nat -> Outcome, n: nat)
    requires InRange(p) && Inv(p, n) && n >= SLOTS
    ensures Supplied(p, outcome)
  {
    forall t: nat ensures Searched(p, outcome, t).Some? { SearchSound(p, outcome, n, t); }
  }

  /** Every open slot gets past, or one of them halts the search. */
  predicate EndsWhen(p: Port, outcome: nat -> Outcome) {
    || !Going(p)
    || (exists s :: s in Open(p) && Halts(outcome(s)))
    || (forall s :: s in Open(p) ==> Passes(outcome(s)))
  }

  /** How far ccs is from a slot, going round. */
  function Gap(ccs: nat, slot: nat): (d: nat)
    requires ccs < SLOTS
  { if ccs <= slot then slot - ccs else slot + SLOTS - ccs }

  lemma Nearer(ccs: nat, slot: nat)
    requires ccs < SLOTS && slot < SLOTS && ccs != slot
    ensures Gap(Next32(ccs), slot) < Gap(ccs, slot)
  {
  }

  lemma Shrinks(small: set<nat>, big: set<nat>, x: nat)
    requires small <= big && x in big && x !in small
    ensures |small| < |big|
  {
    var rest := big - {x};
    assert small <= rest;
    BlockScheduler.Fewer(small, rest);
  }

  lemma {:induction false} HaltEnds(p: Port, outcome: nat -> Outcome, s: nat) returns (t: nat)
    requires InRange(p) && Going(p) && s in Open(p) && Halts(outcome(s))
    ensures Over(Searched(p, outcome, t))
    decreases Gap(p.ccs, s)
  {
    var q := Turn(p, outcome);
    if Over(q) {
      t := OneTurn(p, outcome);
    } else {
      Nearer(p.ccs, s);
      var rest := HaltEnds(q.value, outcome, s);
      t := rest + 1;
    }
  }

  lemma OneTurn(p: Port, outcome: nat -> Outcome) returns (t: nat)
    requires InRange(p) && Going(p) && Over(Turn(p, outcome))
    ensures Over(Searched(p, outcome, t))
  {
    t := 1;
    assert Turn(p, outcome).Some? ==> Searched(Turn(p, outcome).value, outcome, 0) == Turn(p, outcome);
  }

  /** A turn leaves fewer slots open, or comes nearer to one. */
  lemma TurnNearer(p: Port, outcome: nat -> Outcome, s: nat) returns (s': nat)
    requires InRange(p) && Going(p) && s in Open(p) && !Over(Turn(p, outcome))
    requires p.ccs in Open(p) ==> Passes(outcome(p.ccs))
    ensures
      var q := Turn(p, outcome).value;
      && s' in Open(q) && Open(q) <= Open(p)
      && (|Open(q)| < |Open(p)| || (|Open(q)| == |Open(p)| && Gap(q.ccs, s') < Gap(p.ccs, s)))
  {
    var q := Turn(p, outcome).value;
    if p.ccs in Open(p) {
      Shrinks(Open(q), Open(p), p.ccs);
      s' :| s' in Open(q);
    } else {
      Nearer(p.ccs, s);
      s' := s;
    }
  }

  lemma {:induction false} PassEnds(p: Port, outcome: nat -> Outcome, s: nat) returns (t: nat)
    requires InRange(p) && Going(p) && s in Open(p)
    requires forall s :: s in Open(p) ==> Passes(outcome(s))
    ensures Over(Searched(p, outcome, t))
    decreases |Open(p)|, Gap(p.ccs, s)
  {
    var q := Turn(p, outcome);
    if Over(q) {
      t := OneTurn(p, outcome);
    } else {
      var s' := TurnNearer(p, outcome, s);
      var rest := PassEnds(q.value, outcome, s');
      t := rest + 1;
    }
  }

  lemma SearchEnds(p: Port, outcome: nat -> Outcome) returns (t: nat)
    requires InRange(p) && EndsWhen(p, outcome)
    ensures Over(Searched(p, outcome, t))
  {
    if !Going(p) {
      t := 0;
    } else if s :| s in Open(p) && Halts(outcome(s)) {
      t := HaltEnds(p, outcome, s);
    } else {
      var s :| s in Open(p);
      t := PassEnds(p, outcome, s);
    }
  }

  lemma {:induction false} SearchGoesOn(p: Port, outcome: nat -> Outcome, s: nat, t: nat)
    requires InRange(p) && Going(p) && s in Open(p) && !Passes(outcome(s))
    requires forall s :: s in Open(p) ==> !Halts(outcome(s))
    ensures var r := Searched(p, outcome, t); r.Some? ==> Going(r.value)
    decreases t
  {
    if t > 0 && Turn(p, outcome).Some? {
      var q := Turn(p, outcome).value;
      assert s in Open(q);
      SearchGoesOn(q, outcome, s, t - 1);
    }
  }

  /** The search comes to an end. */
  ghost predicate Stops(p: Port, outcome: nat -> Outcome)
    requires InRange(p)
  { exists t: nat :: Over(Searched(p, outcome, t)) }

  /**
    It does if and only if every open slot gets past it or one of them leaves the port busy or in error.
    Otherwise, with a slot that stays open and nothing to stop at, it goes round for ever.
   */
  lemma SearchEndsIff(p: Port, outcome: nat -> Outcome, n: nat)
    requires InRange(p) && Inv(p, n) && n >= SLOTS
    ensures Stops(p, outcome) <==> EndsWhen(p, outcome)
    ensures forall t :: Searched(p, outcome, t).Some? && Inv(Searched(p, outcome, t).value, n)
  {
    forall t: nat ensures Searched(p, outcome, t).Some? && Inv(Searched(p, outcome, t).value, n) {
      SearchSound(p, outcome, n, t);
    }
    if EndsWhen(p, outcome) {
      var t := SearchEnds(p, outcome);
      assert Over(Searched(p, outcome, t));
    } else {
      var s :| s in Open(p) && !Passes(outcome(s));
      forall t: nat ensures !Over(Searched(p, outcome, t)) { SearchGoesOn(p, outcome, s, t); }
    }
  }

  /** Nothing but FISes of another kind than host-to-device. */
  function AllDropped(slot: nat): (o: Outcome) { Drop }

  /** A guest that issues one brings that about. */
  lemma SearchCanSpin(p: Port, n: nat)
    requires Cold(p, n) && n >= SLOTS
    ensures
      var q := p.(running := true, ci := {0});
      Run(p, [Start, WriteCi({0})], Some(q)) && InRange(q) && !Stops(q, AllDropped)
  {
    var q, s := p.(running := true, ci := {0}), p.(running := true);
    assert [Start, WriteCi({0})][1..] == [WriteCi({0})] && [WriteCi({0})][1..] == [];
    assert p.ci + {0} == {0};
    assert Run(q, [], Some(q)) && Run(s, [WriteCi({0})], Some(q));
    assert 0 in Open(q) && !Passes(AllDropped(0));
    SearchEndsIff(q, AllDropped, n);
  }

  // ---------------------------------------------------------------- the port

  /** struct ahci_port, the parts commands in flight go through. */
  class AhciPortState {
    var running: bool
    var ccs: nat
    var busyBit: bool
    var waitforclear: bool
    var ci: set<nat>
    var sact: set<nat>
    var pending: set<nat>
    var free: seq<nat>
    var busy: seq<Req>
    ghost var started: seq<nat>
    ghost var ended: seq<nat>

    constructor (n: nat)
      ensures Initial(View(), n)
    {
      running, ccs, busyBit, waitforclear, ci, sact, pending := false, 0, false, false, {}, {}, {};
      free, busy, started, ended := seq(n, i => i), [], seq(SLOTS, _ => 0), seq(SLOTS, _ => 0);
    }

    ghost function View(): (p: Port)
      reads this
    { Port(running, ccs, busyBit, waitforclear, ci, sact, pending, free, busy, started, ended) }

    /** The part `ahci_handle_rw`, `ahci_handle_flush`, `ahci_handle_dsm_trim` and `atapi_read` share. */
    method TakeReq(slot: nat, more: bool, ncq: bool)
      requires free != []
      modifies `free, `busy, `pending
      ensures View() == Take(old(View()), slot, more, ncq)
    {
      var aior := free[0];
      free := free[1..];
      pending := pending + {slot};
      busy := [Req(aior, slot, more, ncq)] + busy;
    }

    method GiveReq(k: nat)
      requires k < |busy|
      modifies `free, `busy
      ensures View() == Give(old(View()), k)
    {
      var aior := busy[k];
      busy := Remove(busy, k);
      free := free + [aior.id];
    }

    /** `ahci_handle_slot`, for a command with the given outcome. */
    method Handle(slot: nat, o: Outcome)
      requires Issuable(View(), slot) && (o.Queue? ==> free != [])
      modifies this
      ensures View() == HandleSlot(old(View()), slot, o)
    {
      match o
      case Queue(more, ncq, early) =>
        TakeReq(slot, more, ncq);
        started := Bump(started, slot);
        busyBit := !early;
        if early { ci := ci - {slot}; }
      case Finish(ncq) =>
        busyBit := false;
        ci := ci - {slot};
        if ncq { sact := sact - {slot}; }
      case Fail(noted) =>
        busyBit := false;
        waitforclear := noted;
      case Drop =>
    }

    /** `ahci_handle_port`, where the search ends: with nothing left to issue, or the port busy or in error. */
    method HandlePort(outcome: nat -> Outcome, ghost n: nat) returns (ghost turns: nat)
      requires InRange(View()) && Inv(View(), n) && n >= SLOTS && EndsWhen(View(), outcome)
      modifies this
      ensures Searched(old(View()), outcome, turns) == Some(View()) && Inv(View(), n)
      ensures !running || ci - pending == {} || busyBit || waitforclear
    {
      ghost var last := SearchEnds(View(), outcome);
      NeverLacks(View(), outcome, n);
      turns := Search(outcome, last);
      SearchSound(old(View()), outcome, n, turns);
    }

    method Search(outcome: nat -> Outcome, ghost last: nat) returns (ghost turns: nat)
      requires InRange(View()) && Over(Searched(View(), outcome, last)) && Supplied(View(), outcome)
      modifies this
      ensures Searched(old(View()), outcome, turns) == Some(View()) && !Going(View())
    {
      ghost var was := View();
      turns := 0;
      if !running {
        return;
      }
      while ci - pending != {}
        invariant Searched(was, outcome, turns) == Some(View()) && running && turns <= last
        decreases last - turns
      {
        if busyBit || waitforclear {
          break;
        }
        SearchedMore(was, outcome, turns);
        SearchTurn(outcome);
        turns := turns + 1;
      }
    }

    method SearchTurn(outcome: nat -> Outcome)
      requires InRange(View()) && Going(View()) && Turn(View(), outcome).Some?
      modifies this
      ensures Turn(old(View()), outcome) == Some(View())
    {
      if ccs in ci - pending {
        Handle(ccs, outcome(ccs));
      }
      ccs := Next32(ccs);
    }

    /** `ata_ioreq_cb` and `atapi_ioreq_cb`, up to the search for new commands. */
    method IoreqCb(k: nat, err: bool, noted: bool, next: Next)
      requires k < |busy|
      modifies this
      ensures View() == Callback(old(View()), k, err, noted, next)
    {
      var aior := busy[k];
      GiveReq(k);
      if !err && aior.more && next.Again? {
        TakeReq(aior.slot, next.more, aior.ncq);
        return;
      }
      WriteFis(aior, err, noted);
      EndCommand(aior.slot);
    }

    method EndCommand(slot: nat)
      modifies this
      ensures View() == End(old(View()), slot)
    {
      pending := pending - {slot};
      ended := Bump(ended, slot);
      CheckStop();
    }

    /** The registers' part of `ahci_write_fis_sdb` and `ahci_write_fis_d2h`. */
    method WriteFis(aior: Req, err: bool, noted: bool)
      modifies `waitforclear, `sact, `ci, `busyBit
      ensures View() == Completed(old(View()), aior, err, noted)
    {
      if err {
        waitforclear := waitforclear || noted;
      } else if aior.ncq {
        sact := sact - {aior.slot};
      } else {
        ci := ci - {aior.slot};
      }
      if !aior.ncq {
        busyBit := false;
      }
    }

    method CheckStop()
      modifies this
      ensures View() == CheckStopped(old(View()))
    {
      if !running && pending == {} {
        ccs, ci, sact, waitforclear := 0, {}, {}, false;
      }
    }

    method CancelOne(k: nat, ncq: bool)
      requires k < |busy|
      modifies this
      ensures View() == StopOne(old(View()), k, ncq)
    {
      var aior := busy[k];
      if ncq || aior.ncq {
        sact := sact - {aior.slot};
      } else {
        ci := ci - {aior.slot};
      }
      pending := pending - {aior.slot};
      GiveReq(k);
      ended := Bump(ended, aior.slot);
    }

    /** `ahci_port_stop`, after the start bit is cleared. */
    method PortStop(cancelled: set<nat>)
      modifies this
      ensures View() == Stop(old(View()), cancelled)
    {
      running := false;
      ghost var was := View();
      var ncq := false;
      var k: nat := 0;
      while k < |busy|
        invariant k <= |busy| && StopLoop(View(), k, ncq, cancelled) == StopLoop(was, 0, false, cancelled)
        decreases |busy| - k
      {
        var aior := busy[k];
        if aior.id !in cancelled {
          k := k + 1;
          continue;
        }
        CancelOne(k, ncq);
        ncq := ncq || aior.ncq;
      }
      CheckStop();
    }
  }
}
