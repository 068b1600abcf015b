/**
  An AHCI port together with the block scheduler behind it (src/lib/pci_ahci.c:430-480, 674-691, 1871-1939;
  src/lib/block_if.c:525-563, 868-1004).

  The port's steps run under the controller's mutex, the scheduler's under its own, so the worker may move on
  while a port is being stopped. A callback is entered without the port's mutex: from then until the port has
  it, the request is off the scheduler's books and still on the port's.
 */
module AhciBlock {
  import BQ = BlockQueue
  import BS = BlockScheduler
  import AP = AhciPort

  /** The loop of `ahci_port_stop`, holding the mutex: where it is, and its NCQ flag. */
  datatype Stopping = NotStopping | AtReq(k: nat, ncq: bool)

  /** `due` counts callbacks entered and still waiting for the port's mutex. */
  datatype Both = Both(port: AP.Port, disk: BS.Sys, due: nat, stopping: Stopping)

  datatype Event =
    | Port(e: AP.Event)                                  // a step of the port that submits and cancels nothing
    | Issue(slot: nat, o: AP.Outcome, r: BQ.Req, op: BQ.Op)
    | Complete(k: nat, err: bool, noted: bool, next: AP.Next, r: BQ.Req, op: BQ.Op)
    | StopBegin | StopOne | StopEnd
    | Disk(d: BS.Event)                                  // a step of the worker

  predicate Quiet(e: AP.Event) { !e.Issue? && !e.Complete? && !e.Halt? }

  predicate Enabled(b: Both, e: Event) {
    match e
    case Port(p) => b.stopping.NotStopping? && Quiet(p) && AP.Enabled(b.port, p)
    case Issue(slot, o, r, _) =>
      && b.stopping.NotStopping? && AP.Issuable(b.port, slot)
      && (o.Queue? ==> b.port.free != [] && r.id == b.port.free[0])
    case Complete(k, _, _, _, _, _) => b.stopping.NotStopping? && b.due > 0 && k < |b.port.busy|
    case StopBegin => b.stopping.NotStopping?
    case StopOne => b.stopping.AtReq? && b.stopping.k < |b.port.busy|
    case StopEnd => b.stopping.AtReq? && b.stopping.k == |b.port.busy|
    case Disk(d) => BS.ByWorker(d) && BS.Enabled(b.disk, d) && (d.Retire? ==> b.due == 0)
  }

  /** The request a step of the port hands to the scheduler, if any. */
  predicate Submits(b: Both, e: Event)
    requires Enabled(b, e)
  {
    match e
    case Issue(_, o, _, _) => o.Queue?
    case Complete(k, err, _, next, _, _) => !err && b.port.busy[k].more && next.Again?
    case _ => false
  }

  function Submitted(s: BS.Sys, yes: bool, r: BQ.Req, op: BQ.Op): (t: BS.Sys)
    requires BQ.Statuses(s.q)
  { if yes then BS.Apply(s, BS.Submit(r, op)) else s }

  function Apply(b: Both, e: Event): (c: Both)
    requires Enabled(b, e) && BQ.Statuses(b.disk.q)
  {
    match e
    case Port(p) => b.(port := AP.Apply(b.port, p).value)
    case Issue(slot, o, r, op) =>
      b.(port := AP.HandleSlot(b.port, slot, o), disk := Submitted(b.disk, Submits(b, e), r, op))
    case Complete(k, err, noted, next, r, op) =>
      b.(port := AP.Callback(b.port, k, err, noted, next), disk := Submitted(b.disk, Submits(b, e), r, op),
         due := b.due - 1)
    case StopBegin => b.(port := b.port.(running := false), stopping := AtReq(0, false))
    case StopOne =>
      var AtReq(k, ncq) := b.stopping;
      var cancel := BS.CancelReq(b.port.busy[k].id);
      if BQ.Cancel(b.disk.q, b.port.busy[k].id).1.Cancelled? then
        b.(port := AP.StopOne(b.port, k, ncq), disk := BS.Apply(b.disk, cancel),
           stopping := AtReq(k, ncq || b.port.busy[k].ncq))
      else b.(stopping := AtReq(k + 1, ncq))
    case StopEnd => b.(port := AP.CheckStopped(b.port), stopping := NotStopping)
    case Disk(d) => b.(disk := BS.Apply(b.disk, d), due := if d.CallBack? then b.due + 1 else b.due)
  }

  const POOL: nat := BQ.BLOCKIF_MAXREQ - 1

  /** The scheduler's outstanding requests and the callbacks due are exactly the port's busy requests. */
  predicate Booked(b: Both) { b.disk.outstanding + b.due == |b.port.busy| }

  ghost predicate Inv(b: Both) {
    && AP.Inv(b.port, POOL) && BS.SysInv(b.disk) && Booked(b)
    && (b.stopping.AtReq? ==> b.stopping.k <= |b.port.busy|)
  }

  predicate Initial(b: Both) {
    AP.Initial(b.port, POOL) && b.disk == BS.Initial() && b.due == 0 && b.stopping.NotStopping?
  }

  lemma AtMost32(p: AP.Port, n: nat)
    requires AP.Inv(p, n)
    ensures |p.busy| <= AP.SLOTS
  {
    AP.FewSlots(p.busy, AP.SLOTS);
  }

  /** Whatever the port submits finds a free element. */
  lemma SubmitAccepted(b: Both, e: Event, r: BQ.Req, op: BQ.Op)
    requires Inv(b) && Enabled(b, e)
    ensures b.disk.q.freeq != [] && BS.SysInv(BS.Apply(b.disk, BS.Submit(r, op)))
    ensures BS.Apply(b.disk, BS.Submit(r, op)).outstanding == b.disk.outstanding + 1
  {
    AtMost32(b.port, POOL);
    BS.RoomLeft(b.disk);
    BS.SubmitStep(b.disk, r, op);
  }

  lemma IssueInv(b: Both, e: Event)
    requires Inv(b) && e.Issue? && Enabled(b, e)
    ensures Inv(Apply(b, e))
  {
    AP.HandleSlotInv(b.port, e.slot, e.o, POOL);
    SubmitAccepted(b, e, e.r, e.op);
  }

  lemma ContinueInv(b: Both, e: Event)
    requires Inv(b) && e.Complete? && Enabled(b, e) && Submits(b, e)
    ensures Inv(Apply(b, e))
  {
    AP.CallbackInv(b.port, e.k, e.err, e.noted, e.next, POOL);
    SubmitAccepted(b, e, e.r, e.op);
    assert |AP.Callback(b.port, e.k, e.err, e.noted, e.next).busy| == |b.port.busy|;
  }

  lemma EndInv(b: Both, e: Event)
    requires Inv(b) && e.Complete? && Enabled(b, e) && !Submits(b, e)
    ensures Inv(Apply(b, e))
  {
    AP.CallbackInv(b.port, e.k, e.err, e.noted, e.next, POOL);
    assert |AP.Callback(b.port, e.k, e.err, e.noted, e.next).busy| == |b.port.busy| - 1;
  }

  lemma CompleteInv(b: Both, e: Event)
    requires Inv(b) && e.Complete? && Enabled(b, e)
    ensures Inv(Apply(b, e))
  {
    if Submits(b, e) { ContinueInv(b, e); } else { EndInv(b, e); }
  }

  lemma StopOneInv(b: Both)
    requires Inv(b) && Enabled(b, StopOne)
    ensures Inv(Apply(b, StopOne))
  {
    var id := b.port.busy[b.stopping.k].id;
    AP.StopOneInv(b.port, b.stopping.k, b.stopping.ncq, POOL);
    if BQ.Cancel(b.disk.q, id).1.Cancelled? {
      BS.CancelStep(b.disk, id);
    }
  }

  lemma DiskInv(b: Both, d: BS.Event)
    requires Inv(b) && Enabled(b, Disk(d))
    ensures Inv(Apply(b, Disk(d)))
  {
    BS.StepKeepsInv(b.disk, d);
  }

  lemma StepKeepsInv(b: Both, e: Event)
    requires Inv(b) && Enabled(b, e)
    ensures Inv(Apply(b, e))
  {
    match e
    case Port(p) => AP.StepKeepsInv(b.port, p, POOL);
    case Issue(_, _, _, _) => IssueInv(b, e);
    case Complete(_, _, _, _, _, _) => CompleteInv(b, e);
    case StopBegin =>
    case StopOne => StopOneInv(b);
    case StopEnd =>
    case Disk(d) => DiskInv(b, d);
  }

  ghost predicate Run(b: Both, events: seq<Event>, r: Both)
    decreases |events|
  {
    if events == [] then r == b
    else Enabled(b, events[0]) && BQ.Statuses(b.disk.q) && Run(Apply(b, events[0]), events[1..], r)
  }

  lemma {:induction false} RunInv(b: Both, events: seq<Event>, r: Both)
    requires Inv(b) && Run(b, events, r)
    ensures Inv(r)
    decreases |events|
  {
    if events != [] {
      StepKeepsInv(b, events[0]);
      RunInv(Apply(b, events[0]), events[1..], r);
    }
  }

  lemma InitialInv(b: Both)
    requires Initial(b)
    ensures Inv(b)
  {
    BS.InitialInv();
  }

  /**
    In every run of a port and its scheduler, callbacks, continuations and cancellations included, the block
    layer never refuses a request of the port: the assertions that blockif_read, blockif_write, blockif_flush
    and blockif_delete succeed all hold.
   */
  lemma NeverRefused(b: Both, events: seq<Event>, r: Both, e: Event, req: BQ.Req, op: BQ.Op)
    requires Initial(b) && Run(b, events, r) && Enabled(r, e) && Submits(r, e)
    ensures !BS.Refused(r.disk, BS.Submit(req, op)) && Booked(r)
  {
    InitialInv(b);
    RunInv(b, events, r);
    SubmitAccepted(r, e, req, op);
  }
  // ---------------------------------------------------------------- stopping while the worker moves on

  /** The loop only asks which of the requests still ahead were cancelled. */
  lemma {:induction false} StopLoopOnly(p: AP.Port, k: nat, ncq: bool, a: set<nat>, b: set<nat>)
    requires k <= |p.busy| && forall i :: k <= i < |p.busy| ==> (p.busy[i].id in a <==> p.busy[i].id in b)
    ensures AP.StopLoop(p, k, ncq, a) == AP.StopLoop(p, k, ncq, b)
    decreases |p.busy| - k
  {
    if k < |p.busy| {
      if p.busy[k].id !in a {
        StopLoopOnly(p, k + 1, ncq, a, b);
      } else {
        var q := AP.StopOne(p, k, ncq);
        assert forall i :: k <= i < |q.busy| ==> q.busy[i] == p.busy[i + 1];
        StopLoopOnly(q, k, ncq || p.busy[k].ncq, a, b);
      }
    }
  }

  predicate Stops(e: Event) { e.StopOne? || e.Disk? }

  /** The ids are those of requests from the k-th on. */
  ghost predicate Among(ids: set<nat>, busy: seq<AP.Req>, k: nat) {
    forall id :: id in ids ==> exists i :: k <= i < |busy| && busy[i].id == id
  }

  lemma StopTaken(p: AP.Port, k: nat, ncq: bool, rest: set<nat>)
    requires AP.Inv(p, POOL) && k < |p.busy| && Among(rest, AP.StopOne(p, k, ncq).busy, k)
    ensures AP.StopLoop(p, k, ncq, rest + {p.busy[k].id})
         == AP.StopLoop(AP.StopOne(p, k, ncq), k, ncq || p.busy[k].ncq, rest)
    ensures Among(rest + {p.busy[k].id}, p.busy, k)
  {
    var q, id := AP.StopOne(p, k, ncq), p.busy[k].id;
    assert forall i :: k <= i < |q.busy| ==> q.busy[i] == p.busy[i + 1];
    StopLoopOnly(q, k, ncq || p.busy[k].ncq, rest + {id}, rest);
    forall x | x in rest + {id} ensures exists i :: k <= i < |p.busy| && p.busy[i].id == x {
      if x != id {
        var i :| k <= i < |q.busy| && q.busy[i].id == x;
        assert p.busy[i + 1].id == x;
      }
    }
  }

  lemma StopPassed(p: AP.Port, k: nat, ncq: bool, rest: set<nat>)
    requires AP.Inv(p, POOL) && k < |p.busy| && Among(rest, p.busy, k + 1)
    ensures AP.StopLoop(p, k, ncq, rest) == AP.StopLoop(p, k + 1, ncq, rest) && Among(rest, p.busy, k)
  {
    assert forall i :: k + 1 <= i < |p.busy| ==> p.busy[i].id != p.busy[k].id;
  }

  lemma StopStepRefines(b: Both, e: Event, rest: set<nat>) returns (cancelled: set<nat>)
    requires AP.Inv(b.port, POOL) && BQ.Statuses(b.disk.q) && b.stopping.AtReq? && b.stopping.k <= |b.port.busy|
    requires Enabled(b, e) && Stops(e) && Apply(b, e).stopping.AtReq?
    requires Apply(b, e).stopping.k <= |Apply(b, e).port.busy|
    requires Among(rest, Apply(b, e).port.busy, Apply(b, e).stopping.k)
    ensures Among(cancelled, b.port.busy, b.stopping.k)
    ensures
      var c := Apply(b, e);
      AP.StopLoop(b.port, b.stopping.k, b.stopping.ncq, cancelled)
      == AP.StopLoop(c.port, c.stopping.k, c.stopping.ncq, rest)
  {
    cancelled := rest;
    if e.StopOne? {
      var AtReq(k, ncq) := b.stopping;
      if BQ.Cancel(b.disk.q, b.port.busy[k].id).1.Cancelled? {
        StopTaken(b.port, k, ncq, rest);
        cancelled := rest + {b.port.busy[k].id};
      } else {
        StopPassed(b.port, k, ncq, rest);
      }
    }
  }

  lemma {:induction false} StopRefines(b: Both, events: seq<Event>, r: Both) returns (cancelled: set<nat>)
    requires Inv(b) && b.stopping.AtReq? && Run(b, events, r) && Enabled(r, StopEnd)
    requires forall k :: 0 <= k < |events| ==> Stops(events[k])
    ensures b.stopping.k <= |b.port.busy| && Among(cancelled, b.port.busy, b.stopping.k)
    ensures r.port == AP.StopLoop(b.port, b.stopping.k, b.stopping.ncq, cancelled)
    decreases |events|
  {
    cancelled := {};
    if events != [] {
      assert Stops(events[0]);
      StepKeepsInv(b, events[0]);
      var rest := StopRefines(Apply(b, events[0]), events[1..], r);
      cancelled := StopStepRefines(b, events[0], rest);
    }
  }

  /**
    Although the worker may move on between one cancellation and the next, the loop of `ahci_port_stop` leaves the
    port as one stop at once would that finds some of its requests still to be cancelled.
   */
  lemma StopIsHalt(b: Both, events: seq<Event>, r: Both) returns (cancelled: set<nat>)
    requires Inv(b) && Enabled(b, StopBegin) && Run(Apply(b, StopBegin), events, r) && Enabled(r, StopEnd)
    requires forall k :: 0 <= k < |events| ==> Stops(events[k])
    ensures BQ.Statuses(r.disk.q) && Apply(r, StopEnd).port == AP.Stop(b.port, cancelled)
  {
    StepKeepsInv(b, StopBegin);
    RunInv(Apply(b, StopBegin), events, r);
    cancelled := StopRefines(Apply(b, StopBegin), events, r);
  }
}
