/**
  The queue fields of `struct blockif_ctxt`, updated in place by the loops of src/lib/block_if.c.
  Each method is proved against its value form in `BlockQueue`.
 */
module BlockCtx {
  import opened BlockQueue
  import opened Prelude

  lemma {:induction false} SumSnoc(lens: seq<nat>, i: nat)
    requires i < |lens|
    ensures Sum(lens[..i + 1]) == Sum(lens[..i]) + lens[i]
  {
    if i > 0 {
      SumSnoc(lens[1..], i - 1);
      assert lens[..i + 1][1..] == lens[1..][..i] && lens[..i][1..] == lens[1..][..i - 1];
    }
  }

  lemma UnblockSnoc(elems: seq<Elem>, list: seq<nat>, k: nat, off: int)
    requires k < |list| && list[k] < |elems|
    ensures var r, i := Unblock(elems, list[..k], off), list[k];
      && Unblock(elems, list[..k + 1], off) == (if Starts(elems[i], off) then r[i := elems[i].(status := Pend)] else r)
      && r[i].req == elems[i].req && r[i].(status := Pend) == elems[i].(status := Pend)
  {
    assert list[..k + 1] == list[..k] + [list[k]];
  }

  class Ctx {
    const elems: array<Elem>
    var freeq: seq<nat>
    var pendq: seq<nat>
    var busyq: seq<nat>

    function View(): (q: Queues)
      reads this, elems
    {
      Queues(elems[..], freeq, pendq, busyq)
    }

    /** The scan of one list for an element ending at `off`. */
    method FindEnd(list: seq<nat>, off: int) returns (found: bool)
      requires forall k :: 0 <= k < |list| ==> list[k] < elems.Length
      ensures found <==> Ends(elems[..], list, off)
    {
      for k := 0 to |list|
        invariant forall j :: 0 <= j < k ==> elems[list[j]].block != off
      {
        if elems[list[k]].block == off {
          assert elems[..][list[k]].block == off;
          return true;
        }
      }
      return false;
    }

    /** The end of a request, summed over its segments. */
    method EndOf(r: Req, op: Op) returns (off: int)
      ensures off == EndOffset(r, op)
    {
      if op == OpFlush {
        return OFF_MAX;
      }
      off := r.offset;
      for k := 0 to |r.lens|
        invariant off == r.offset + Sum(r.lens[..k])
      {
        SumSnoc(r.lens, k);
        off := off + r.lens[k];
      }
      assert r.lens[..|r.lens|] == r.lens;
    }

    /** `blockif_enqueue`; the answer says whether the worker must be told. */
    method BlockifEnqueue(r: Req, op: Op) returns (runnable: bool)
      requires Statuses(View()) && freeq != []
      modifies this, elems
      ensures View() == Enqueue(old(View()), r, op)
      ensures runnable <==> elems[old(freeq)[0]].status == Pend
      ensures old(BlockQueue.Inv(View())) ==> (runnable <==> !old(Follows(View(), r.offset)))
    {
      if BlockQueue.Inv(View()) { EnqueueExact(View(), r, op); }
      var i := freeq[0];
      var off := EndOf(r, op);
      var waits := FindEnd(pendq, r.offset);
      if !waits {
        waits := FindEnd(busyq, r.offset);
      }
      freeq := freeq[1..];
      elems[i] := Elem(if waits then Block else Pend, Some(r), op, off);
      pendq := pendq + [i];
      runnable := !waits;
    }

    /** `blockif_dequeue`. */
    method BlockifDequeue() returns (taken: Option<nat>)
      requires Statuses(View())
      modifies this, elems
      ensures (View(), taken) == Dequeue(old(View()))
    {
      var k := 0;
      while k < |pendq| && elems[pendq[k]].status != Pend
        invariant 0 <= k <= |pendq|
        invariant forall j :: 0 <= j < k ==> elems[pendq[j]].status != Pend
      {
        assert elems[pendq[k]].status == Block;
        k := k + 1;
      }
      FirstPendIs(elems[..], pendq, k);
      if k == |pendq| {
        return None;
      }
      var i := pendq[k];
      pendq := pendq[..k] + pendq[k + 1..];
      elems[i] := elems[i].(status := Busy);
      busyq := busyq + [i];
      return Some(i);
    }

    /** The loop of `blockif_complete` over the pending list. */
    method ReleaseWaiters(off: int)
      requires forall k :: 0 <= k < |pendq| ==> pendq[k] < elems.Length && elems[pendq[k]].req.Some?
      modifies elems
      ensures elems[..] == Unblock(old(elems[..]), pendq, off)
    {
      assert elems[..] == Unblock(elems[..], pendq[..0], off);
      for k := 0 to |pendq|
        invariant elems[..] == Unblock(old(elems[..]), pendq[..k], off)
      {
        UnblockSnoc(old(elems[..]), pendq, k, off);
        if elems[pendq[k]].req.value.offset == off {
          elems[pendq[k]] := elems[pendq[k]].(status := Pend);
        }
      }
      assert pendq[..|pendq|] == pendq;
    }

    /** `blockif_complete`. */
    method BlockifComplete(i: nat)
      requires Partition(View()) && (i in pendq || i in busyq)
      modifies this, elems
      ensures View() == Complete(old(View()), i)
    {
      var off := elems[i].block;
      LiveAfterRemove(View(), i);
      if elems[i].status == Done || elems[i].status == Busy {
        busyq := Remove(busyq, i);
      } else {
        pendq := Remove(pendq, i);
      }
      assert pendq == PendingAfter(old(View()), i);
      ReleaseWaiters(off);
      assert elems[i] == old(elems[i]) by { assert i !in pendq; }
      elems[i] := elems[i].(status := Free, req := None);
      freeq := freeq + [i];
    }

    /** `blockif_request`: false is E2BIG. */
    method BlockifRequest(r: Req, op: Op) returns (accepted: bool, signal: bool)
      requires Statuses(View())
      modifies this, elems
      ensures accepted <==> old(freeq) != []
      ensures View() == if accepted then Enqueue(old(View()), r, op) else old(View())
      ensures signal <==> accepted && elems[old(freeq)[0]].status == Pend
      ensures old(BlockQueue.Inv(View())) ==> (signal <==> accepted && !old(Follows(View(), r.offset)))
    {
      accepted := freeq != [];
      signal := false;
      if accepted {
        signal := BlockifEnqueue(r, op);
      }
    }

    /** `blockif_cancel`. */
    method BlockifCancel(id: nat) returns (result: CancelResult)
      requires Partition(View())
      modifies this, elems
      ensures (View(), result) == Cancel(old(View()), id)
    {
      var k := FindId(pendq, id);
      if k < |pendq| {
        BlockifComplete(pendq[k]);
        return Cancelled;
      }
      k := FindId(busyq, id);
      return if k < |busyq| then InFlight else NotFound;
    }

    method FindId(list: seq<nat>, id: nat) returns (k: nat)
      requires forall k :: 0 <= k < |list| ==> list[k] < elems.Length
      ensures k == FindReq(elems[..], list, id)
    {
      k := 0;
      while k < |list| && !Holds(elems[list[k]], id)
        invariant 0 <= k <= |list|
        invariant forall j :: 0 <= j < k ==> !Holds(elems[list[j]], id)
      {
        k := k + 1;
      }
      FindReqIs(elems[..], list, id, k);
    }
  }

  /** A scan that stops at the first hit stops where `FirstPend` says. */
  lemma FirstPendIs(elems: seq<Elem>, pendq: seq<nat>, k: nat)
    requires k <= |pendq| && forall j :: 0 <= j < k ==> pendq[j] < |elems| && elems[pendq[j]].status != Pend
    requires k < |pendq| ==> pendq[k] < |elems| && elems[pendq[k]].status == Pend
    ensures k == FirstPend(elems, pendq)
  {}

  lemma FindReqIs(elems: seq<Elem>, list: seq<nat>, id: nat, k: nat)
    requires k <= |list| && forall j :: 0 <= j < k ==> list[j] < |elems| && !Holds(elems[list[j]], id)
    requires k < |list| ==> list[k] < |elems| && Holds(elems[list[k]], id)
    ensures k == FindReq(elems, list, id)
  {}

  /** Every listed element but the one dropped still holds a request. */
  lemma LiveAfterDrop(elems: seq<Elem>, pendq: seq<nat>, m: nat)
    requires NoDup(pendq) && Listed(elems, pendq, Block, Pend) && m < |pendq|
    ensures forall k :: 0 <= k < |Drop(pendq, m)| ==>
      Drop(pendq, m)[k] != pendq[m] && Drop(pendq, m)[k] < |elems| && elems[Drop(pendq, m)[k]].req.Some?
  {
    DropKeeps(pendq, m);
  }

  /** A busy element is not on the pending list, whose elements hold requests. */
  lemma LiveElsewhere(elems: seq<Elem>, pendq: seq<nat>, i: nat)
    requires Listed(elems, pendq, Block, Pend) && i < |elems| && elems[i].status != Block && elems[i].status != Pend
    ensures forall k :: 0 <= k < |pendq| ==> pendq[k] != i && pendq[k] < |elems| && elems[pendq[k]].req.Some?
  {
  }

  /** What `blockif_complete` takes off the pending list: the element, unless it is busy. */
  function PendingAfter(q: Queues, i: nat): (pendq: seq<nat>)
    requires i < |q.elems|
  { if q.elems[i].status == Done || q.elems[i].status == Busy then q.pendq else Remove(q.pendq, i) }

  /** What is left of the pending list still holds requests, none of them in element `i`. */
  lemma LiveAfterRemove(q: Queues, i: nat)
    requires Partition(q) && (i in q.pendq || i in q.busyq)
    ensures i < |q.elems|
    ensures
      var pendq := PendingAfter(q, i);
      forall k :: 0 <= k < |pendq| ==> pendq[k] != i && pendq[k] < |q.elems| && q.elems[pendq[k]].req.Some?
  {
    if i in q.pendq {
      var m :| 0 <= m < |q.pendq| && q.pendq[m] == i;
      RemoveIsDrop(q.pendq, m);
      LiveAfterDrop(q.elems, q.pendq, m);
    } else {
      var m :| 0 <= m < |q.busyq| && q.busyq[m] == i;
      LiveElsewhere(q.elems, q.pendq, i);
    }
  }
}
