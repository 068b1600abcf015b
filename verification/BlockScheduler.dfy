/**
  The block scheduler as clients and its worker thread see it (src/lib/block_if.c:525-563, 868-1034):
  submissions, cancellations and worker steps interleave, each under bc_mtx except that the worker
  sets BST_DONE and calls back without it. Waiting on bc_cond is the worker state `Parked`, whose flag
  says whether a signal is on its way.
 */
module BlockScheduler {
  import opened BlockQueue
  import opened Prelude

  datatype Worker =
    | Ready                     // about to run blockif_dequeue
    | Working(i: nat)           // in blockif_proc, element busy
    | Finished(i: nat)          // element done, callback not yet entered
    | CalledBack(i: nat)        // in or after the callback, element not yet completed
    | Parked(signalled: bool)   // in pthread_cond_wait
    | Exited

  /**
    `outstanding` counts requests accepted and neither called back nor cancelled; `live` are the
    requests accepted and not cancelled, in order of submission, and `started` those given to the worker.
   */
  datatype Sys = Sys(q: Queues, w: Worker, closing: bool, outstanding: int, live: seq<Sub>, started: seq<Sub>)

  /** A request with the operation it was submitted for. */
  datatype Sub = Sub(req: Req, op: Op)

  datatype Event =
    | Submit(r: Req, op: Op)
    | CancelReq(id: nat)
    | Take
    | Finish
    | CallBack
    | Retire
    | Wake
    | Close

  /** `blockif_open`: all elements free, the worker about to look for work. */
  function Initial(): (s: Sys) {
    Sys(Queues(seq(BLOCKIF_MAXREQ, _ => Elem(Free, None, OpRead, 0)), seq(BLOCKIF_MAXREQ, i => i), [], []),
        Ready, false, 0, [], [])
  }

  predicate Enabled(s: Sys, e: Event) {
    match e
    case Submit(_, _) => true
    case CancelReq(_) => true
    case Take => s.w.Ready?
    case Finish => s.w.Working? && s.w.i < |s.q.elems|
    case CallBack => s.w.Finished?
    case Retire => s.w.CalledBack? && s.w.i < |s.q.elems|
    case Wake => s.w.Parked?
    case Close => !s.closing
  }

  /** `blockif_request` answers E2BIG. */
  predicate Refused(s: Sys, e: Event) { e.Submit? && s.q.freeq == [] }

  function Signal(w: Worker): (r: Worker) { if w.Parked? then Parked(true) else w }

  /** The scheduler without its k-th pending request. */
  function WithoutPend(s: Sys, k: nat): (t: Sys)
    requires k < |s.q.pendq| && s.q.pendq[k] < |s.q.elems|
  {
    s.(q := BlockQueue.Complete(s.q, s.q.pendq[k]), outstanding := s.outstanding - 1,
       live := DropSub(s.live, |s.started| + k))
  }

  function Apply(s: Sys, e: Event): (t: Sys)
    requires Enabled(s, e) && Statuses(s.q)
  {
    match e
    case Submit(r, op) =>
      if s.q.freeq == [] then s
      else
        var q := Enqueue(s.q, r, op);
        var runnable := q.elems[s.q.freeq[0]].status == Pend;
        s.(q := q, w := if runnable then Signal(s.w) else s.w, outstanding := s.outstanding + 1,
           live := s.live + [Sub(r, op)])
    case CancelReq(id) =>
      var k := FindReq(s.q.elems, s.q.pendq, id);
      if k < |s.q.pendq| then WithoutPend(s, k) else s
    case Take =>
      var (q, i) := Dequeue(s.q);
      (match i
       case None => s.(w := if s.closing then Exited else Parked(false))
       case Some(i) => s.(q := q, w := Working(i), started := s.started + SubOf(s.q.elems[i])))
    case Finish =>
      s.(q := s.q.(elems := s.q.elems[s.w.i := s.q.elems[s.w.i].(status := Done)]), w := Finished(s.w.i))
    case CallBack => s.(w := CalledBack(s.w.i), outstanding := s.outstanding - 1)
    case Retire => s.(q := BlockQueue.Complete(s.q, s.w.i), w := Ready)
    case Wake => s.(w := Ready)
    case Close => s.(closing := true, w := Signal(s.w))
  }

  function SubOf(e: Elem): (r: seq<Sub>) { if e.req.Some? then [Sub(e.req.value, e.op)] else [] }

  function DropSub(s: seq<Sub>, k: nat): (r: seq<Sub>) {
    if k < |s| then s[..k] + s[k + 1..] else s
  }

  /** The requests held by a list of elements, in order. */
  function Subs(elems: seq<Elem>, list: seq<nat>): (r: seq<Sub>)
    requires Listed(elems, list, Block, Pend)
  {
    seq(|list|, k requires 0 <= k < |list| => Sub(elems[list[k]].req.value, elems[list[k]].op))
  }

  // ---------------------------------------------------------------- invariant

  /** One worker: at most one element is busy, and its status tells how far the worker is. */
  predicate WorkerOk(q: Queues, w: Worker) {
    match w
    case Working(i) => q.busyq == [i] && i < |q.elems| && q.elems[i].status == Busy
    case Finished(i) => q.busyq == [i] && i < |q.elems| && q.elems[i].status == Done
    case CalledBack(i) => q.busyq == [i] && i < |q.elems| && q.elems[i].status == Done
    case _ => q.busyq == []
  }

  ghost predicate SysInv(s: Sys) {
    && BlockQueue.Inv(s.q) && |s.q.elems| == BLOCKIF_MAXREQ && WorkerOk(s.q, s.w)
    && s.outstanding == |s.q.pendq| + (if s.w.Working? || s.w.Finished? then 1 else 0)
    && s.live == s.started + Subs(s.q.elems, s.q.pendq)
    && (s.w == Parked(false) ==> s.q.pendq == [] && !s.closing)
  }

  lemma InitialInv()
    ensures SysInv(Initial())
  {}

  lemma SubmitStep(s: Sys, r: Req, op: Op)
    requires SysInv(s) && s.q.freeq != []
    ensures SysInv(Apply(s, Submit(r, op)))
  {
    var q', i := Enqueue(s.q, r, op), s.q.freeq[0];
    EnqueueInv(s.q, r, op);
    assert Subs(q'.elems, q'.pendq) == Subs(s.q.elems, s.q.pendq) + [Sub(r, op)];
    assert s.live + [Sub(r, op)] == s.started + Subs(q'.elems, q'.pendq);
  }

  /** Completing a pending element takes its request out of the list and keeps the others. */
  lemma PendSubs(q: Queues, k: nat)
    requires Partition(q) && k < |q.pendq|
    ensures var q' := Complete(q, q.pendq[k]);
      && Listed(q'.elems, q'.pendq, Block, Pend) && |q'.pendq| == |q.pendq| - 1
      && Subs(q'.elems, q'.pendq) == DropSub(Subs(q.elems, q.pendq), k)
  {
    CompletePendPartition(q, k);
    var elems := Complete(q, q.pendq[k]).elems;
    forall p | 0 <= p < |q.pendq| && p != k
      ensures elems[q.pendq[p]].req == q.elems[q.pendq[p]].req && elems[q.pendq[p]].op == q.elems[q.pendq[p]].op
    {
      StillBlocked(q, k, p);
    }
    SubsDrop(q.elems, elems, q.pendq, k);
  }

  lemma SubsDrop(elems: seq<Elem>, elems': seq<Elem>, pendq: seq<nat>, k: nat)
    requires Listed(elems, pendq, Block, Pend) && k < |pendq| && Listed(elems', Drop(pendq, k), Block, Pend)
    requires |elems'| == |elems|
    requires forall p :: 0 <= p < |pendq| && p != k ==>
      elems'[pendq[p]].req == elems[pendq[p]].req && elems'[pendq[p]].op == elems[pendq[p]].op
    ensures Subs(elems', Drop(pendq, k)) == DropSub(Subs(elems, pendq), k)
  {
    var a, b := Subs(elems', Drop(pendq, k)), Subs(elems, pendq);
    forall j | 0 <= j < |a| ensures a[j] == DropSub(b, k)[j] {
      var p := if j < k then j else j + 1;
      assert Drop(pendq, k)[j] == pendq[p] && DropSub(b, k)[j] == b[p];
    }
  }

  lemma PendWorker(q: Queues, k: nat, w: Worker)
    requires Partition(q) && k < |q.pendq| && WorkerOk(q, w)
    ensures WorkerOk(Complete(q, q.pendq[k]), w)
  {
    var i, d := q.pendq[k], Drop(q.pendq, k);
    RemoveIsDrop(q.pendq, k);
    assert Listed(q.elems, d, Block, Pend);
    UnblockListed(q.elems, d, q.elems[i].block, q.busyq, Busy, Done);
  }

  lemma CancelStep(s: Sys, id: nat)
    requires SysInv(s) && Cancel(s.q, id).1.Cancelled?
    ensures SysInv(Apply(s, CancelReq(id)))
  {
    PendStep(s, FindReq(s.q.elems, s.q.pendq, id));
  }

  /** The step is what `blockif_cancel` does to the queues. */
  lemma CancelIs(s: Sys, id: nat)
    requires Statuses(s.q)
    ensures Apply(s, CancelReq(id)).q == Cancel(s.q, id).0
    ensures Apply(s, CancelReq(id)) != s ==> Cancel(s.q, id).1.Cancelled?
  {
  }

  lemma PendStep(s: Sys, k: nat)
    requires SysInv(s) && k < |s.q.pendq|
    ensures s.q.pendq[k] < |s.q.elems| && SysInv(WithoutPend(s, k))
  {
    CompletePendInv(s.q, k);
    PendSubs(s.q, k);
    PendWorker(s.q, k, s.w);
    DropTail(s.started, Subs(s.q.elems, s.q.pendq), k);
  }

  lemma DropTail(a: seq<Sub>, b: seq<Sub>, k: nat)
    requires k < |b|
    ensures DropSub(a + b, |a| + k) == a + DropSub(b, k)
  {}

  lemma TakeSubs(elems: seq<Elem>, pendq: seq<nat>, e: Elem)
    requires pendq != [] && NoDup(pendq) && Listed(elems, pendq, Block, Pend)
    ensures var elems' := elems[pendq[0] := e];
      && Listed(elems', pendq[1..], Block, Pend)
      && Subs(elems, pendq) == [Sub(elems[pendq[0]].req.value, elems[pendq[0]].op)] + Subs(elems', pendq[1..])
  {}

  lemma TakeStep(s: Sys)
    requires SysInv(s) && s.w.Ready?
    ensures SysInv(Apply(s, Take))
    ensures s.q.pendq != [] ==> Apply(s, Take).w == Working(s.q.pendq[0])
  {
    if s.q.pendq != [] {
      DequeueHead(s.q);
      DequeueInv(s.q);
      var q' := Dequeue(s.q).0;
      TakeSubs(s.q.elems, s.q.pendq, q'.elems[s.q.pendq[0]]);
      var r := SubOf(s.q.elems[s.q.pendq[0]]);
      assert s.started + (r + Subs(q'.elems, q'.pendq)) == s.started + r + Subs(q'.elems, q'.pendq);
    }
  }

  /** Only the status of a busy element changes, so nobody's blocker does. */
  lemma DoneBlockers(elems: seq<Elem>, pendq: seq<nat>, busyq: seq<nat>, i: nat, e: Elem)
    requires Listed(elems, pendq, Block, Pend) && Blockers(elems, pendq, busyq)
    requires i < |elems| && (forall k :: 0 <= k < |pendq| ==> pendq[k] != i) && e == elems[i].(status := e.status)
    ensures Listed(elems[i := e], pendq, Block, Pend) && Blockers(elems[i := e], pendq, busyq)
  {
    var elems' := elems[i := e];
    forall list: seq<nat>, off | Ends(elems, list, off) ensures Ends(elems', list, off) {
      var k :| 0 <= k < |list| && list[k] < |elems| && elems[list[k]].block == off;
      assert elems'[list[k]].block == off;
    }
  }

  lemma FinishStep(s: Sys)
    requires SysInv(s) && s.w.Working?
    ensures SysInv(Apply(s, Finish))
  {
    var i, q' := s.w.i, Apply(s, Finish).q;
    assert i == s.q.busyq[0];
    DoneBlockers(s.q.elems, s.q.pendq, s.q.busyq, i, q'.elems[i]);
    DonePartition(s.q, i, q'.elems[i]);
    assert Subs(q'.elems, q'.pendq) == Subs(s.q.elems, s.q.pendq);
  }

  lemma DonePartition(q: Queues, i: nat, e: Elem)
    requires Partition(q) && q.busyq == [i] && Noted(q.elems, q.pendq) && Noted(q.elems, q.busyq)
    requires i < |q.elems| && e == q.elems[i].(status := Done)
    ensures
      var q' := q.(elems := q.elems[i := e]);
      Partition(q') && Noted(q'.elems, q'.pendq) && Noted(q'.elems, q'.busyq)
  {
    assert q.busyq[0] == i;
    ReplaceListed(q.elems, q.freeq, i, Free, Free, e);
    ReplaceListed(q.elems, q.pendq, i, Block, Pend, e);
    NotedElsewhere(q.elems, q.pendq, i, e);
  }

  lemma RetireStep(s: Sys)
    requires SysInv(s) && s.w.CalledBack?
    ensures SysInv(Apply(s, Retire))
  {
    var i, q' := s.w.i, Apply(s, Retire).q;
    assert i == s.q.busyq[0];
    CompleteBusyInv(s.q);
    CompleteBusyPartition(s.q);
    UnblockPend(s.q.elems, s.q.pendq, s.q.elems[i].block);
    assert Subs(q'.elems, q'.pendq) == Subs(s.q.elems, s.q.pendq);
  }

  lemma StepKeepsInv(s: Sys, e: Event)
    requires SysInv(s) && Enabled(s, e)
    ensures SysInv(Apply(s, e))
  {
    match e
    case Submit(r, op) => if s.q.freeq != [] { SubmitStep(s, r, op); }
    case CancelReq(id) => if Cancel(s.q, id).1.Cancelled? { CancelStep(s, id); }
    case Take => TakeStep(s);
    case Finish => FinishStep(s);
    case Retire => RetireStep(s);
    case _ =>
  }

  // ---------------------------------------------------------------- theorems

  ghost predicate Run(s: Sys, es: seq<Event>, t: Sys)
    decreases |es|
  {
    if es == [] then s == t else Enabled(s, es[0]) && Statuses(s.q) && Run(Apply(s, es[0]), es[1..], t)
  }

  ghost predicate Reachable(s: Sys) {
    exists es :: Run(Initial(), es, s)
  }

  lemma {:induction false} RunKeepsInv(s: Sys, es: seq<Event>, t: Sys)
    requires SysInv(s) && Run(s, es, t)
    ensures SysInv(t)
    decreases |es|
  {
    if es != [] {
      StepKeepsInv(s, es[0]);
      RunKeepsInv(Apply(s, es[0]), es[1..], t);
    }
  }

  lemma ReachableInv(s: Sys)
    requires Reachable(s)
    ensures SysInv(s)
  {
    var es :| Run(Initial(), es, s);
    InitialInv();
    RunKeepsInv(Initial(), es, s);
  }

  /** Conservation: the lists always partition the pool, each status naming its element's list. */
  lemma QueuesConserved(s: Sys, i: nat)
    requires Reachable(s) && i < BLOCKIF_MAXREQ
    ensures |s.q.elems| == BLOCKIF_MAXREQ == |s.q.freeq| + |s.q.pendq| + |s.q.busyq|
    ensures NoDup(s.q.freeq) && NoDup(s.q.pendq) && NoDup(s.q.busyq)
    ensures s.q.elems[i].status == Free <==> i in s.q.freeq
    ensures s.q.elems[i].status == Block || s.q.elems[i].status == Pend <==> i in s.q.pendq
    ensures s.q.elems[i].status == Busy || s.q.elems[i].status == Done <==> i in s.q.busyq
    ensures |s.q.busyq| <= BLOCKIF_NUMTHR
  {
    ReachableInv(s);
    var all := s.q.freeq + s.q.pendq + s.q.busyq;
    assert NoDup(all);
    Pigeonhole(all, i);
  }

  function Below(n: nat): (r: set<nat>)
    ensures |r| == n && forall k: nat :: k in r <==> k < n
  {
    if n == 0 then {} else Below(n - 1) + {n - 1}
  }

  function Elements(s: seq<nat>): (r: set<nat>)
    ensures forall x :: x in r <==> x in s
    ensures NoDup(s) ==> |r| == |s|
  {
    if s == [] then {}
    else
      assert NoDup(s) ==> s[0] !in s[1..];
      assert s == [s[0]] + s[1..];
      Elements(s[1..]) + {s[0]}
  }

  /** Distinct numbers below their own count are all of them. */
  lemma Pigeonhole(s: seq<nat>, i: nat)
    requires NoDup(s) && i < |s| && forall k :: 0 <= k < |s| ==> s[k] < |s|
    ensures i in s
  {
    if i !in s {
      assert Elements(s) <= Below(|s|) - {i};
      Fewer(Elements(s), Below(|s|) - {i});
    }
  }

  lemma {:induction false} Fewer(a: set<nat>, b: set<nat>)
    requires a <= b
    ensures |a| <= |b|
  {
    if x :| x in a { Fewer(a - {x}, b - {x}); }
  }

  /** No deadlock: with nothing in flight, the oldest pending request is runnable. */
  lemma NoDeadlock(s: Sys)
    requires Reachable(s) && s.q.busyq == [] && s.q.pendq != []
    ensures s.q.pendq[0] < |s.q.elems| && s.q.elems[s.q.pendq[0]].status == Pend
  {
    ReachableInv(s);
    HeadRunnable(s.q);
  }

  /** No lost wake-up: a worker asleep with no signal on its way has nothing to do. */
  lemma NoLostWakeUp(s: Sys)
    requires Reachable(s) && s.w == Parked(false)
    ensures s.q.pendq == [] && s.q.busyq == []
  {
    ReachableInv(s);
  }

  /**
    A client with fewer than blockif_queuesz() = BLOCKIF_MAXREQ - 1 requests that were neither called
    back nor cancelled is never refused, even when it submits from inside a callback.
   */
  lemma NeverTooBig(s: Sys, e: Event)
    requires Reachable(s) && s.outstanding < BLOCKIF_MAXREQ - 1
    ensures !Refused(s, e)
  {
    ReachableInv(s);
    RoomLeft(s);
  }

  lemma RoomLeft(s: Sys)
    requires SysInv(s) && s.outstanding < BLOCKIF_MAXREQ - 1
    ensures s.q.freeq != []
  {
  }

  /** The bound is exact: one more, submitted while a callback runs, is refused. */
  lemma RefusedIff(s: Sys, r: Req, op: Op)
    requires Reachable(s)
    ensures Refused(s, Submit(r, op)) <==>
      s.outstanding == BLOCKIF_MAXREQ - (if s.w.CalledBack? then 1 else 0)
  {
    ReachableInv(s);
  }

  /**
    First in, first out: the worker only ever takes the oldest live request, with nothing else in
    flight, so requests start exactly in order of submission and none overtakes one it follows on disk.
   */
  lemma StartsInOrder(s: Sys, e: Event)
    requires Reachable(s) && Enabled(s, e)
    ensures s.started <= s.live
    ensures |s.live| - |s.started| == |s.q.pendq|
    ensures e.Take? && s.q.pendq != [] ==>
      && Statuses(s.q) && Apply(s, e).started == s.live[..|s.started| + 1]
      && s.q.busyq == []
  {
    ReachableInv(s);
    if e.Take? && s.q.pendq != [] {
      TakeStep(s);
      DequeueHead(s.q);
      assert SubOf(s.q.elems[s.q.pendq[0]]) == [Subs(s.q.elems, s.q.pendq)[0]];
    }
  }

  /**
    What a submission does in any reachable state: refused with no element free, else accepted as the latest
    request, held back if and only if a request pending or in flight ends where it starts. A sleeping worker
    is told exactly of a request that is not held back.
   */
  lemma SubmitExact(s: Sys, r: Req, op: Op)
    requires Reachable(s)
    ensures Statuses(s.q)
    ensures
      var t := Apply(s, Submit(r, op));
      if s.q.freeq == [] then t == s
      else
        && t.live == s.live + [Sub(r, op)] && t.started == s.started && t.outstanding == s.outstanding + 1
        && t.q.pendq == s.q.pendq + [s.q.freeq[0]] && s.q.freeq[0] < |t.q.elems|
        && (t.q.elems[s.q.freeq[0]].status == Block <==> Follows(s.q, r.offset))
        && t.w == (if s.w.Parked? then Parked(s.w.signalled || !Follows(s.q, r.offset)) else s.w)
  {
    ReachableInv(s);
    if s.q.freeq != [] { EnqueueExact(s.q, r, op); }
  }

  /** The k-th of the requests not yet started, the first of them with the id, is gone; the others stay in order. */
  ghost predicate OldestDropped(s: Sys, t: Sys, k: nat, id: nat) {
    var j := |s.started| + k;
    && j < |s.live| && s.live[j].req.id == id && (forall i :: |s.started| <= i < j ==> s.live[i].req.id != id)
    && t.live == s.live[..j] + s.live[j + 1..] && t.started == s.started && t.outstanding == s.outstanding - 1
  }

  /** The k-th of the pending requests is the first of them with the id. */
  predicate FirstId(subs: seq<Sub>, k: nat, id: nat) {
    k < |subs| && subs[k].req.id == id && forall j :: 0 <= j < k ==> subs[j].req.id != id
  }

  lemma PendingId(q: Queues, id: nat)
    requires Statuses(q) && FindReq(q.elems, q.pendq, id) < |q.pendq|
    ensures FirstId(Subs(q.elems, q.pendq), FindReq(q.elems, q.pendq, id), id)
  {
  }

  lemma FirstDropped(s: Sys, subs: seq<Sub>, k: nat, id: nat)
    requires s.live == s.started + subs && FirstId(subs, k, id) && k < |s.q.pendq| && s.q.pendq[k] < |s.q.elems|
    ensures OldestDropped(s, WithoutPend(s, k), k, id)
  {
    var j := |s.started| + k;
    forall i | |s.started| <= i < j ensures s.live[i].req.id != id { assert s.live[i] == subs[i - |s.started|]; }
  }

  lemma CancelApplies(s: Sys, id: nat, k: nat)
    requires Statuses(s.q) && FindReq(s.q.elems, s.q.pendq, id) == k && k < |s.q.pendq|
    ensures Apply(s, CancelReq(id)) == WithoutPend(s, k) && Cancel(s.q, id).1.Cancelled?
  {
  }

  lemma LiveIs(s: Sys)
    requires Reachable(s)
    ensures Statuses(s.q) && s.live == s.started + Subs(s.q.elems, s.q.pendq)
  {
    ReachableInv(s);
  }

  /** A cancellation drops the oldest pending request with its id from those to be served, and no other. */
  lemma CancelDrops(s: Sys, id: nat)
    requires Reachable(s) && FindReq(s.q.elems, s.q.pendq, id) < |s.q.pendq|
    ensures Statuses(s.q) && Cancel(s.q, id).1.Cancelled?
    ensures OldestDropped(s, Apply(s, CancelReq(id)), FindReq(s.q.elems, s.q.pendq, id), id)
  {
    var k := FindReq(s.q.elems, s.q.pendq, id);
    LiveIs(s);
    PendingId(s.q, id);
    FirstDropped(s, Subs(s.q.elems, s.q.pendq), k, id);
    CancelApplies(s, id, k);
  }

  /** A worker asleep with no signal on its way has not been told to stop either. */
  lemma CloseWakes(s: Sys)
    requires Reachable(s) && s.closing
    ensures s.w != Parked(false)
    ensures Statuses(s.q) && (s.w.Ready? && s.q.pendq == [] ==> Apply(s, Take).w.Exited?)
  {
    ReachableInv(s);
  }

  // ---------------------------------------------------------------- progress

  predicate ByWorker(e: Event) { e.Take? || e.Finish? || e.CallBack? || e.Retire? || e.Wake? }

  /** The worker has nothing left to do and sleeps, or was told to stop. */
  predicate AtRest(s: Sys) { s.w == Parked(false) || s.w.Exited? }

  /** How many steps the worker is from there. */
  function Rank(s: Sys): (n: nat) {
    5 * |s.q.pendq| + match s.w
      case Working(_) => 4
      case Finished(_) => 3
      case CalledBack(_) => 2
      case Parked(signalled) => if signalled then 2 else 0
      case Ready => 1
      case Exited => 0
  }

  /** What the worker does next. */
  function NextWork(s: Sys): (e: Event) {
    match s.w
    case Working(_) => Finish
    case Finished(_) => CallBack
    case CalledBack(_) => Retire
    case Parked(_) => Wake
    case _ => Take
  }

  lemma WorkOn(s: Sys)
    requires SysInv(s) && !AtRest(s)
    ensures Enabled(s, NextWork(s)) && Rank(Apply(s, NextWork(s))) < Rank(s)
    ensures Apply(s, NextWork(s)).live == s.live
  {
    if s.w.Ready? { TakeStep(s); if s.q.pendq != [] { DequeueHead(s.q); } }
  }

  lemma {:induction false} Serves(s: Sys) returns (es: seq<Event>, t: Sys)
    requires SysInv(s) && !s.w.Exited?
    ensures Run(s, es, t) && (forall k :: 0 <= k < |es| ==> ByWorker(es[k])) && |es| <= Rank(s)
    ensures SysInv(t) && AtRest(t) && t.live == s.live && t.q.pendq == []
    decreases Rank(s)
  {
    es, t := [], s;
    if !AtRest(s) {
      var e := NextWork(s);
      WorkOn(s);
      StepKeepsInv(s, e);
      if Apply(s, e).w.Exited? {
        es, t := [e], Apply(s, e);
        assert es[1..] == [] && Run(t, [], t);
        assert s.w.Ready? && s.q.pendq == [];
      } else {
        var rest;
        rest, t := Serves(Apply(s, e));
        es := [e] + rest;
        assert es[1..] == rest;
      }
    }
  }

  /**
    Every accepted request is served: from any reachable state the worker alone, in a bounded number of its
    own steps, starts all live requests in order and calls each of them back.
   */
  lemma EveryRequestServed(s: Sys) returns (es: seq<Event>, t: Sys)
    requires Reachable(s) && !s.w.Exited?
    ensures Run(s, es, t) && (forall k :: 0 <= k < |es| ==> ByWorker(es[k])) && |es| <= Rank(s)
    ensures t.started == t.live == s.live && t.outstanding == 0 && |t.q.freeq| == BLOCKIF_MAXREQ
  {
    ReachableInv(s);
    es, t := Serves(s);
    assert t.started + Subs(t.q.elems, []) == t.started;
  }
}
