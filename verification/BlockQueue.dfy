/**
  The block request queues (src/lib/block_if.c:334-415, 868-1004): free, pending and busy lists of a
  fixed pool of elements, with a request held back while an earlier one ends where it starts.

  `Queues` is the value of the queue fields of `struct blockif_ctxt`; class `BlockCtx.Ctx` is the struct
  itself, whose methods are proved against the functions on that value.
 */
module BlockQueue {
  import opened Prelude

  const BLOCKIF_NUMTHR: nat := 1
  const BLOCKIF_MAXREQ: nat := 128 + BLOCKIF_NUMTHR
  const OFF_MAX: int := 0x7fff_ffff_ffff_ffff

  datatype Op = OpRead | OpWrite | OpFlush | OpDelete

  datatype Status = Free | Block | Pend | Busy | Done

  /** A `struct blockif_req`, named by `id`; `lens` are the lengths of its segments. */
  datatype Req = Req(id: nat, offset: int, lens: seq<nat>)

  datatype Elem = Elem(status: Status, req: Option<Req>, op: Op, block: int)

  datatype Queues = Queues(elems: seq<Elem>, freeq: seq<nat>, pendq: seq<nat>, busyq: seq<nat>)

  function Sum(lens: seq<nat>): (n: nat) {
    if lens == [] then 0 else lens[0] + Sum(lens[1..])
  }

  /** Where a request ends: a later request starting there must wait for it. */
  function EndOffset(r: Req, op: Op): (off: int) {
    if op == OpFlush then OFF_MAX else r.offset + Sum(r.lens)
  }

  /** Some listed element ends at `off`. */
  predicate Ends(elems: seq<Elem>, list: seq<nat>, off: int) {
    exists k :: 0 <= k < |list| && list[k] < |elems| && elems[list[k]].block == off
  }

  predicate Starts(e: Elem, off: int) { e.req.Some? && e.req.value.offset == off }

  function Remove(s: seq<nat>, x: nat): (r: seq<nat>) {
    if s == [] then [] else if s[0] == x then s[1..] else [s[0]] + Remove(s[1..], x)
  }

  /** `blockif_enqueue`. */
  function Enqueue(q: Queues, r: Req, op: Op): (q': Queues)
    requires q.freeq != [] && q.freeq[0] < |q.elems|
  {
    var waits := Ends(q.elems, q.pendq, r.offset) || Ends(q.elems, q.busyq, r.offset);
    var e := Elem(if waits then Block else Pend, Some(r), op, EndOffset(r, op));
    Queues(q.elems[q.freeq[0] := e], q.freeq[1..], q.pendq + [q.freeq[0]], q.busyq)
  }

  /** The first pending element that is not held back, as a position in the list. */
  function FirstPend(elems: seq<Elem>, pendq: seq<nat>): (k: nat)
    ensures k <= |pendq|
    ensures forall j :: 0 <= j < k ==> pendq[j] >= |elems| || elems[pendq[j]].status != Pend
    ensures k < |pendq| ==> pendq[k] < |elems| && elems[pendq[k]].status == Pend
  {
    if pendq == [] then 0
    else if pendq[0] < |elems| && elems[pendq[0]].status == Pend then 0
    else 1 + FirstPend(elems, pendq[1..])
  }

  /** `blockif_dequeue`: the element taken, if any. */
  function Dequeue(q: Queues): (r: (Queues, Option<nat>)) {
    var k := FirstPend(q.elems, q.pendq);
    if k == |q.pendq| then (q, None)
    else
      var i := q.pendq[k];
      (Queues(q.elems[i := q.elems[i].(status := Busy)], q.freeq, q.pendq[..k] + q.pendq[k + 1..], q.busyq + [i]),
       Some(i))
  }

  /** Every listed element starting at `off` becomes runnable. */
  function Unblock(elems: seq<Elem>, list: seq<nat>, off: int): (r: seq<Elem>)
    ensures |r| == |elems|
  {
    seq(|elems|, i requires 0 <= i < |elems| =>
      if i in list && Starts(elems[i], off) then elems[i].(status := Pend) else elems[i])
  }

  /** `blockif_complete`. */
  function Complete(q: Queues, i: nat): (q': Queues)
    requires i < |q.elems|
  {
    var e := q.elems[i];
    var busy := e.status == Done || e.status == Busy;
    var pendq := if busy then q.pendq else Remove(q.pendq, i);
    var busyq := if busy then Remove(q.busyq, i) else q.busyq;
    Queues(Unblock(q.elems, pendq, e.block)[i := e.(status := Free, req := None)], q.freeq + [i], pendq, busyq)
  }

  /** Position of the element holding request `id` in a list, or its length. */
  function FindReq(elems: seq<Elem>, list: seq<nat>, id: nat): (k: nat)
    ensures k <= |list|
    ensures forall j :: 0 <= j < k ==> list[j] >= |elems| || !Holds(elems[list[j]], id)
    ensures k < |list| ==> list[k] < |elems| && Holds(elems[list[k]], id)
  {
    if list == [] then 0
    else if list[0] < |elems| && Holds(elems[list[0]], id) then 0
    else 1 + FindReq(elems, list[1..], id)
  }

  predicate Holds(e: Elem, id: nat) { e.req.Some? && e.req.value.id == id }

  datatype CancelResult = Cancelled | InFlight | NotFound

  /** `blockif_cancel`; interrupting a request already being processed is not modelled beyond its result. */
  function Cancel(q: Queues, id: nat): (r: (Queues, CancelResult)) {
    var k := FindReq(q.elems, q.pendq, id);
    if k < |q.pendq| then (Complete(q, q.pendq[k]), Cancelled)
    else if FindReq(q.elems, q.busyq, id) < |q.busyq| then (q, InFlight)
    else (q, NotFound)
  }

  // ---------------------------------------------------------------- invariant

  predicate NoDup(s: seq<nat>) { forall j, k :: 0 <= j < k < |s| ==> s[j] != s[k] }

  predicate Listed(elems: seq<Elem>, list: seq<nat>, a: Status, b: Status) {
    forall k :: 0 <= k < |list| ==>
      && list[k] < |elems| && (elems[list[k]].status == a || elems[list[k]].status == b)
      && (elems[list[k]].req.Some? <==> a != Free)
  }

  /** Each element's status names its list. */
  predicate Statuses(q: Queues) {
    && Listed(q.elems, q.freeq, Free, Free)
    && Listed(q.elems, q.pendq, Block, Pend)
    && Listed(q.elems, q.busyq, Busy, Done)
  }

  /** No list repeats an element and together they are as long as the pool, so they partition it. */
  predicate Partition(q: Queues) {
    && Statuses(q)
    && NoDup(q.freeq) && NoDup(q.pendq) && NoDup(q.busyq)
    && |q.freeq| + |q.pendq| + |q.busyq| == |q.elems|
  }

  /** A held-back request has its blocker in flight or ahead of it. */
  predicate Blockers(elems: seq<Elem>, pendq: seq<nat>, busyq: seq<nat>)
    requires Listed(elems, pendq, Block, Pend)
  {
    forall p :: 0 <= p < |pendq| && elems[pendq[p]].status == Block ==>
      var off := elems[pendq[p]].req.value.offset;
      Ends(elems, pendq[..p], off) || Ends(elems, busyq, off)
  }

  /** A request ends where its segments do; a flush, which has none, at the largest offset. */
  predicate EndsAt(r: Req, op: Op, off: int) {
    if op.OpFlush? then off == OFF_MAX else off - r.offset == Sum(r.lens)
  }

  /** Every element on a list notes the end of the request it holds. */
  predicate Noted(elems: seq<Elem>, list: seq<nat>) {
    forall k :: 0 <= k < |list| && list[k] < |elems| && elems[list[k]].req.Some? ==>
      EndsAt(elems[list[k]].req.value, elems[list[k]].op, elems[list[k]].block)
  }

  predicate Inv(q: Queues) {
    && Partition(q) && Blockers(q.elems, q.pendq, q.busyq)
    && Noted(q.elems, q.pendq) && Noted(q.elems, q.busyq)
  }

  /** A request pending or in flight ends at the offset. */
  ghost predicate Follows(q: Queues, off: int) {
    exists i :: (i in q.pendq || i in q.busyq) && HoldsEnd(q.elems, i, off)
  }

  predicate HoldsEnd(elems: seq<Elem>, i: nat, off: int) {
    i < |elems| && elems[i].req.Some? && EndsAt(elems[i].req.value, elems[i].op, off)
  }

  // ---------------------------------------------------------------- lists

  function Drop(s: seq<nat>, m: nat): (r: seq<nat>)
    requires m < |s|
  {
    s[..m] + s[m + 1..]
  }

  lemma {:induction false} RemoveIsDrop(s: seq<nat>, m: nat)
    requires m < |s| && NoDup(s)
    ensures Remove(s, s[m]) == Drop(s, m)
  {
    if m == 0 {
    } else {
      assert s[m] == s[1..][m - 1];
      RemoveIsDrop(s[1..], m - 1);
      assert Drop(s, m) == [s[0]] + Drop(s[1..], m - 1);
    }
  }

  /** Dropping one of distinct elements keeps the others, in order. */
  lemma DropKeeps(s: seq<nat>, m: nat)
    requires m < |s| && NoDup(s)
    ensures NoDup(Drop(s, m))
    ensures forall k :: 0 <= k < |Drop(s, m)| ==>
      Drop(s, m)[k] == s[if k < m then k else k + 1] && Drop(s, m)[k] != s[m]
  {}

  // ---------------------------------------------------------------- preservation

  /** An element off the live lists changes no blocker. */
  lemma EndsElsewhere(elems: seq<Elem>, list: seq<nat>, i: nat, e: Elem, off: int)
    requires i < |elems| && i !in list
    ensures Ends(elems[i := e], list, off) <==> Ends(elems, list, off)
  {
    var elems' := elems[i := e];
    if Ends(elems, list, off) {
      var k :| 0 <= k < |list| && list[k] < |elems| && elems[list[k]].block == off;
      assert elems'[list[k]].block == off;
    }
    if Ends(elems', list, off) {
      var k :| 0 <= k < |list| && list[k] < |elems'| && elems'[list[k]].block == off;
      assert elems[list[k]].block == off;
    }
  }

  /** Replacing an element keeps every list it is not on, and lets a list it suits gain it. */
  lemma ReplaceListed(elems: seq<Elem>, list: seq<nat>, i: nat, a: Status, b: Status, e: Elem)
    requires i < |elems| && Listed(elems, list, a, b) && forall k :: 0 <= k < |list| ==> list[k] != i
    ensures Listed(elems[i := e], list, a, b)
    ensures (e.status == a || e.status == b) && (e.req.Some? <==> a != Free) ==> Listed(elems[i := e], list + [i], a, b)
    ensures NoDup(list) ==> NoDup(list + [i])
  {}

  lemma EnqueuePartition(q: Queues, r: Req, op: Op)
    requires Partition(q) && q.freeq != []
    ensures Partition(Enqueue(q, r, op))
  {
    var e, i := Enqueue(q, r, op).elems[q.freeq[0]], q.freeq[0];
    assert NoDup(q.freeq[1..]) && forall k :: 0 <= k < |q.freeq[1..]| ==> q.freeq[1..][k] != i;
    ReplaceListed(q.elems, q.freeq[1..], i, Free, Free, e);
    ReplaceListed(q.elems, q.pendq, i, Block, Pend, e);
    ReplaceListed(q.elems, q.busyq, i, Busy, Done, e);
  }

  lemma EnqueueBlockers(q: Queues, r: Req, op: Op)
    requires Statuses(q) && Blockers(q.elems, q.pendq, q.busyq) && q.freeq != []
    requires Statuses(Enqueue(q, r, op))
    ensures var q' := Enqueue(q, r, op); Blockers(q'.elems, q'.pendq, q'.busyq)
  {
    var q', i := Enqueue(q, r, op), q.freeq[0];
    forall p | 0 <= p < |q'.pendq| && q'.elems[q'.pendq[p]].status == Block
      ensures var off := q'.elems[q'.pendq[p]].req.value.offset;
        Ends(q'.elems, q'.pendq[..p], off) || Ends(q'.elems, q'.busyq, off)
    {
      var off := q'.elems[q'.pendq[p]].req.value.offset;
      assert q'.pendq[..p] == q.pendq[..p];
      if p == |q.pendq| { assert q.pendq[..p] == q.pendq; }
      EndsElsewhere(q.elems, q.pendq[..p], i, q'.elems[i], off);
      EndsElsewhere(q.elems, q.busyq, i, q'.elems[i], off);
    }
  }

  /** Replacing an element off a list changes nothing noted on it. */
  lemma NotedElsewhere(elems: seq<Elem>, list: seq<nat>, i: nat, e: Elem)
    requires i < |elems| && Noted(elems, list) && forall k :: 0 <= k < |list| ==> list[k] != i
    ensures Noted(elems[i := e], list)
  {
  }

  lemma EnqueueNoted(q: Queues, r: Req, op: Op)
    requires Statuses(q) && q.freeq != [] && Noted(q.elems, q.pendq) && Noted(q.elems, q.busyq)
    ensures var q' := Enqueue(q, r, op); Noted(q'.elems, q'.pendq) && Noted(q'.elems, q'.busyq)
  {
    var q', i := Enqueue(q, r, op), q.freeq[0];
    NotedElsewhere(q.elems, q.pendq, i, q'.elems[i]);
    NotedElsewhere(q.elems, q.busyq, i, q'.elems[i]);
  }

  lemma EnqueueInv(q: Queues, r: Req, op: Op)
    requires Inv(q) && q.freeq != []
    ensures Inv(Enqueue(q, r, op))
  {
    EnqueuePartition(q, r, op);
    EnqueueBlockers(q, r, op);
    EnqueueNoted(q, r, op);
  }

  /** The scans over the noted ends find out whether a request ends at the offset. */
  lemma EndsIff(q: Queues, off: int)
    requires Statuses(q) && Noted(q.elems, q.pendq) && Noted(q.elems, q.busyq)
    ensures Ends(q.elems, q.pendq, off) || Ends(q.elems, q.busyq, off) <==> Follows(q, off)
  {
    if Ends(q.elems, q.pendq, off) {
      var k :| 0 <= k < |q.pendq| && q.pendq[k] < |q.elems| && q.elems[q.pendq[k]].block == off;
      assert q.pendq[k] in q.pendq && HoldsEnd(q.elems, q.pendq[k], off);
    }
    if Ends(q.elems, q.busyq, off) {
      var k :| 0 <= k < |q.busyq| && q.busyq[k] < |q.elems| && q.elems[q.busyq[k]].block == off;
      assert q.busyq[k] in q.busyq && HoldsEnd(q.elems, q.busyq[k], off);
    }
    if Follows(q, off) {
      var i :| (i in q.pendq || i in q.busyq) && HoldsEnd(q.elems, i, off);
      if i in q.pendq {
        var k :| 0 <= k < |q.pendq| && q.pendq[k] == i;
      } else {
        var k :| 0 <= k < |q.busyq| && q.busyq[k] == i;
      }
    }
  }

  /**
    An accepted request goes to the end of the pending list with its operation. It is held back if and only
    if one pending or in flight ends where it starts, and is runnable otherwise.
   */
  lemma EnqueueExact(q: Queues, r: Req, op: Op)
    requires Inv(q) && q.freeq != []
    ensures
      var q', i := Enqueue(q, r, op), q.freeq[0];
      var e := q'.elems[i];
      && q'.pendq == q.pendq + [i] && q'.busyq == q.busyq && q'.freeq == q.freeq[1..]
      && e.req == Some(r) && e.op == op && EndsAt(r, op, e.block)
      && (e.status == Block <==> Follows(q, r.offset)) && (e.status == Pend <==> !Follows(q, r.offset))
      && forall j :: 0 <= j < |q.elems| && j != i ==> q'.elems[j] == q.elems[j]
  {
    EndsIff(q, r.offset);
  }

  /** The pending list loses the element at `m`, which either becomes busy or no longer blocks anyone. */
  lemma DropBlockers(elems: seq<Elem>, elems': seq<Elem>, pendq: seq<nat>, m: nat, busyq: seq<nat>, busyq': seq<nat>)
    requires Listed(elems, pendq, Block, Pend) && Blockers(elems, pendq, busyq) && m < |pendq|
    requires |elems'| == |elems| && Listed(elems', Drop(pendq, m), Block, Pend)
    requires forall p :: 0 <= p < |pendq| && p != m ==>
      && elems'[pendq[p]].block == elems[pendq[p]].block && elems'[pendq[p]].req == elems[pendq[p]].req
      && (elems'[pendq[p]].status == Block ==> elems[pendq[p]].status == Block)
      && (elems'[pendq[p]].status == Block && elems[pendq[p]].req.value.offset == elems[pendq[m]].block ==>
            Ends(elems', busyq', elems[pendq[m]].block))
    requires forall off :: Ends(elems, busyq, off) ==> Ends(elems', busyq', off)
    ensures Blockers(elems', Drop(pendq, m), busyq')
  {
    var d := Drop(pendq, m);
    forall p' | 0 <= p' < |d| && elems'[d[p']].status == Block
      ensures var off := elems'[d[p']].req.value.offset; Ends(elems', d[..p'], off) || Ends(elems', busyq', off)
    {
      var p := if p' < m then p' else p' + 1;
      assert d[p'] == pendq[p];
      var off := elems[pendq[p]].req.value.offset;
      if Ends(elems, pendq[..p], off) {
        var k :| 0 <= k < p && elems[pendq[..p][k]].block == off;
        if k != m {
          var k' := if k < m then k else k - 1;
          assert d[..p'][k'] == pendq[k];
        }
      }
    }
  }

  /** With nothing in flight the head of the pending list is runnable. */
  lemma HeadRunnable(q: Queues)
    requires Inv(q) && q.busyq == [] && q.pendq != []
    ensures q.elems[q.pendq[0]].status == Pend && FirstPend(q.elems, q.pendq) == 0
  {
    assert q.pendq[..0] == [];
  }

  /** With nothing in flight, what is taken is the head of the pending list. */
  lemma DequeueHead(q: Queues)
    requires Inv(q) && q.busyq == [] && q.pendq != []
    ensures
      var i := q.pendq[0];
      Dequeue(q) == (Queues(q.elems[i := q.elems[i].(status := Busy)], q.freeq, q.pendq[1..], [i]), Some(i))
  {
    HeadRunnable(q);
    assert q.pendq[..0] + q.pendq[1..] == q.pendq[1..];
    assert q.busyq + [q.pendq[0]] == [q.pendq[0]];
  }

  lemma TakenPartition(q: Queues, e: Elem)
    requires Partition(q) && q.busyq == [] && q.pendq != [] && e.status == Busy && e.req.Some?
    ensures Partition(Queues(q.elems[q.pendq[0] := e], q.freeq, q.pendq[1..], [q.pendq[0]]))
  {}

  lemma DequeueInv(q: Queues)
    requires Inv(q) && q.busyq == [] && q.pendq != []
    ensures Inv(Dequeue(q).0)
  {
    DequeueHead(q);
    var i := q.pendq[0];
    var e := q.elems[i].(status := Busy);
    TakenPartition(q, e);
    TakenBlockers(q.elems, q.elems[i := e], q.pendq);
    NotedElsewhere(q.elems, q.pendq[1..], i, e);
  }

  lemma TakenBlockers(elems: seq<Elem>, elems': seq<Elem>, pendq: seq<nat>)
    requires pendq != [] && NoDup(pendq) && Listed(elems, pendq, Block, Pend) && Blockers(elems, pendq, [])
    requires elems' == elems[pendq[0] := elems[pendq[0]].(status := Busy)] && Listed(elems', pendq[1..], Block, Pend)
    ensures Blockers(elems', pendq[1..], [pendq[0]])
  {
    assert Drop(pendq, 0) == pendq[1..];
    assert elems'[[pendq[0]][0]].block == elems[pendq[0]].block;
    assert Ends(elems', [pendq[0]], elems[pendq[0]].block);
    DropBlockers(elems, elems', pendq, 0, [], [pendq[0]]);
  }

  /** Unblocking touches nothing but the pending list. */
  lemma UnblockListed(elems: seq<Elem>, pendq: seq<nat>, off: int, list: seq<nat>, a: Status, b: Status)
    requires Listed(elems, pendq, Block, Pend) && Listed(elems, list, a, b)
    requires a != Block && a != Pend && b != Block && b != Pend
    ensures forall k :: 0 <= k < |list| ==> Unblock(elems, pendq, off)[list[k]] == elems[list[k]]
  {
    forall k | 0 <= k < |list| ensures list[k] !in pendq {}
  }

  lemma UnblockPend(elems: seq<Elem>, pendq: seq<nat>, off: int)
    requires Listed(elems, pendq, Block, Pend)
    ensures Listed(Unblock(elems, pendq, off), pendq, Block, Pend)
    ensures forall k :: 0 <= k < |pendq| ==>
      var e, e' := elems[pendq[k]], Unblock(elems, pendq, off)[pendq[k]];
      && e'.block == e.block && e'.req == e.req && e'.op == e.op
      && (e'.status == Block <==> e.status == Block && e.req.value.offset != off)
  {
    forall k | 0 <= k < |pendq| ensures pendq[k] in pendq {}
  }

  lemma CompletePendPartition(q: Queues, m: nat)
    requires Partition(q) && m < |q.pendq|
    ensures Partition(Complete(q, q.pendq[m])) && Complete(q, q.pendq[m]).pendq == Drop(q.pendq, m)
  {
    var i, d := q.pendq[m], Drop(q.pendq, m);
    RemoveIsDrop(q.pendq, m);
    DropKeeps(q.pendq, m);
    assert Listed(q.elems, d, Block, Pend);
    UnblockListed(q.elems, d, q.elems[i].block, q.freeq, Free, Free);
    UnblockListed(q.elems, d, q.elems[i].block, q.busyq, Busy, Done);
    UnblockPend(q.elems, d, q.elems[i].block);
    var elems := Unblock(q.elems, d, q.elems[i].block);
    ReplaceListed(elems, q.freeq, i, Free, Free, q.elems[i].(status := Free, req := None));
    ReplaceListed(elems, d, i, Block, Pend, q.elems[i].(status := Free, req := None));
    ReplaceListed(elems, q.busyq, i, Busy, Done, q.elems[i].(status := Free, req := None));
  }

  lemma CompleteBusyPartition(q: Queues)
    requires Partition(q) && |q.busyq| == 1
    ensures Partition(Complete(q, q.busyq[0])) && Complete(q, q.busyq[0]).busyq == []
  {
    var i := q.busyq[0];
    UnblockListed(q.elems, q.pendq, q.elems[i].block, q.freeq, Free, Free);
    UnblockPend(q.elems, q.pendq, q.elems[i].block);
    var elems := Unblock(q.elems, q.pendq, q.elems[i].block);
    ReplaceListed(elems, q.freeq, i, Free, Free, q.elems[i].(status := Free, req := None));
    ReplaceListed(elems, q.pendq, i, Block, Pend, q.elems[i].(status := Free, req := None));
  }

  /** Of the pending elements left, those still held back do not wait for the one removed. */
  lemma StillBlocked(q: Queues, m: nat, p: nat)
    requires Partition(q) && m < |q.pendq| && p < |q.pendq| && p != m
    ensures var e, e', i := q.elems[q.pendq[p]], Complete(q, q.pendq[m]).elems[q.pendq[p]], q.pendq[m];
      && e'.block == e.block && e'.req == e.req && e'.op == e.op
      && (e'.status == Block <==> e.status == Block && e.req.value.offset != q.elems[i].block)
  {
    var d := Drop(q.pendq, m);
    RemoveIsDrop(q.pendq, m);
    assert q.pendq[p] == d[if p < m then p else p - 1];
  }

  lemma StillEnds(q: Queues, m: nat, off: int)
    requires Partition(q) && m < |q.pendq| && Ends(q.elems, q.busyq, off)
    ensures Ends(Complete(q, q.pendq[m]).elems, q.busyq, off)
  {
    var k :| 0 <= k < |q.busyq| && q.busyq[k] < |q.elems| && q.elems[q.busyq[k]].block == off;
    assert Complete(q, q.pendq[m]).elems[q.busyq[k]].block == off;
  }

  lemma PendBlockers(q: Queues, m: nat)
    requires Inv(q) && m < |q.pendq|
    requires var q' := Complete(q, q.pendq[m]); Statuses(q') && q'.pendq == Drop(q.pendq, m)
    ensures var q' := Complete(q, q.pendq[m]); Blockers(q'.elems, q'.pendq, q'.busyq)
  {
    var elems := Complete(q, q.pendq[m]).elems;
    forall off | Ends(q.elems, q.busyq, off) ensures Ends(elems, q.busyq, off) {
      StillEnds(q, m, off);
    }
    forall p | 0 <= p < |q.pendq| && p != m
      ensures elems[q.pendq[p]].block == q.elems[q.pendq[p]].block && elems[q.pendq[p]].req == q.elems[q.pendq[p]].req
      ensures elems[q.pendq[p]].status == Block ==>
        q.elems[q.pendq[p]].status == Block && q.elems[q.pendq[p]].req.value.offset != q.elems[q.pendq[m]].block
    {
      StillBlocked(q, m, p);
    }
    DropBlockers(q.elems, elems, q.pendq, m, q.busyq, q.busyq);
  }

  /** The blocker of an element still held back is one pending ahead of it. */
  lemma BlockerAhead(q: Queues, p: nat)
    requires Inv(q) && |q.busyq| == 1 && p < |q.pendq|
    requires Complete(q, q.busyq[0]).elems[q.pendq[p]].status == Block
    ensures
      var q' := Complete(q, q.busyq[0]);
      && q'.elems[q.pendq[p]].req == q.elems[q.pendq[p]].req && q.elems[q.pendq[p]].req.Some?
      && Ends(q'.elems, q.pendq[..p], q.elems[q.pendq[p]].req.value.offset)
  {
    var i, q' := q.busyq[0], Complete(q, q.busyq[0]);
    assert q.pendq[p] in q.pendq;
    var off := q.elems[q.pendq[p]].req.value.offset;
    assert off != q.elems[i].block;
    var k :| 0 <= k < p && q.elems[q.pendq[..p][k]].block == off;
    assert q'.elems[q.pendq[..p][k]].block == off;
  }

  lemma BusyBlockers(q: Queues)
    requires Inv(q) && |q.busyq| == 1
    requires var q' := Complete(q, q.busyq[0]); Statuses(q') && q'.busyq == []
    ensures var q' := Complete(q, q.busyq[0]); Blockers(q'.elems, q'.pendq, q'.busyq)
  {
    var q' := Complete(q, q.busyq[0]);
    forall p | 0 <= p < |q.pendq| && q'.elems[q.pendq[p]].status == Block
      ensures Ends(q'.elems, q.pendq[..p], q'.elems[q.pendq[p]].req.value.offset)
    {
      BlockerAhead(q, p);
    }
  }

  lemma BusyNoted(q: Queues)
    requires Partition(q) && |q.busyq| == 1 && Noted(q.elems, q.pendq)
    ensures Noted(Complete(q, q.busyq[0]).elems, q.pendq)
  {
    var i := q.busyq[0];
    UnblockPend(q.elems, q.pendq, q.elems[i].block);
    NotedElsewhere(Unblock(q.elems, q.pendq, q.elems[i].block), q.pendq, i, Complete(q, i).elems[i]);
  }

  lemma PendNoted(q: Queues, m: nat)
    requires Partition(q) && m < |q.pendq| && Noted(q.elems, q.pendq) && Noted(q.elems, q.busyq)
    ensures Noted(Complete(q, q.pendq[m]).elems, Drop(q.pendq, m)) && Noted(Complete(q, q.pendq[m]).elems, q.busyq)
  {
    var elems, i, d := Complete(q, q.pendq[m]).elems, q.pendq[m], Drop(q.pendq, m);
    RemoveIsDrop(q.pendq, m);
    DropKeeps(q.pendq, m);
    assert Listed(q.elems, d, Block, Pend);
    UnblockListed(q.elems, d, q.elems[i].block, q.busyq, Busy, Done);
    forall k | 0 <= k < |d| && d[k] < |elems| && elems[d[k]].req.Some?
      ensures EndsAt(elems[d[k]].req.value, elems[d[k]].op, elems[d[k]].block)
    {
      StillBlocked(q, m, if k < m then k else k + 1);
    }
  }

  lemma CompleteBusyInv(q: Queues)
    requires Inv(q) && |q.busyq| == 1
    ensures Inv(Complete(q, q.busyq[0]))
  {
    CompleteBusyPartition(q);
    BusyBlockers(q);
    BusyNoted(q);
  }

  /** Finishing the request in flight makes runnable exactly the held-back requests that start where it ends. */
  lemma CompleteReleases(q: Queues, p: nat)
    requires Inv(q) && |q.busyq| == 1 && p < |q.pendq|
    ensures
      var e, e', b := q.elems[q.pendq[p]], Complete(q, q.busyq[0]).elems[q.pendq[p]], q.elems[q.busyq[0]];
      && e'.req == e.req && e.req.Some? && e'.op == e.op && b.req.Some?
      && (e'.status == Block <==> e.status == Block && !EndsAt(b.req.value, b.op, e.req.value.offset))
  {
    UnblockPend(q.elems, q.pendq, q.elems[q.busyq[0]].block);
  }

  lemma CompletePendInv(q: Queues, m: nat)
    requires Inv(q) && m < |q.pendq|
    ensures Inv(Complete(q, q.pendq[m])) && Complete(q, q.pendq[m]).pendq == Drop(q.pendq, m)
  {
    CompletePendPartition(q, m);
    PendBlockers(q, m);
    PendNoted(q, m);
  }

  /** So does cancelling a pending one. */
  lemma CancelReleases(q: Queues, m: nat, p: nat)
    requires Inv(q) && m < |q.pendq| && p < |q.pendq| && p != m
    ensures
      var e, e', b := q.elems[q.pendq[p]], Complete(q, q.pendq[m]).elems[q.pendq[p]], q.elems[q.pendq[m]];
      && e'.req == e.req && e.req.Some? && e'.op == e.op && b.req.Some?
      && (e'.status == Block <==> e.status == Block && !EndsAt(b.req.value, b.op, e.req.value.offset))
  {
    StillBlocked(q, m, p);
  }

  /** A pending request with the id is cancelled, else one in flight is reported, else none was found. */
  lemma CancelExact(q: Queues, id: nat)
    requires Statuses(q)
    ensures
      var pending := exists k :: 0 <= k < |q.pendq| && q.elems[q.pendq[k]].req.value.id == id;
      var busy := exists k :: 0 <= k < |q.busyq| && q.elems[q.busyq[k]].req.value.id == id;
      && (Cancel(q, id).1.Cancelled? <==> pending) && (Cancel(q, id).1.InFlight? <==> !pending && busy)
      && (!pending ==> Cancel(q, id).0 == q)
  {
  }
}
