/**
  An AHCI port's read and write commands from issue to completion (src/lib/pci_ahci.c:563-691, 1395-1433,
  1871-1994): the port's requests in flight together with the batches a command's table is cut into. What a
  request still has to come, and what a completion continues with, is here what `ahci_build_iov` says.
 */
module AhciTransfer {
  import opened Iovec
  import opened Prelude
  import AI = AhciIov
  import AP = AhciPort
  import BQ = BlockQueue

  /** A read or write command: its table and its length in bytes. */
  datatype Cmd = Cmd(prdt: seq<AI.Prd>, len: nat)

  /**
    Such a command in flight: the request on the disk, the `done` of its ahci_ioreq, the byte count last
    stored in the command header, and the requests completed so far.
   */
  datatype Job = Job(cmd: Cmd, cur: AI.Chunk, done: nat, prdbc: nat, moved: seq<AI.Chunk>)

  /** A command the guest was told the end of. */
  datatype Report = Report(cmd: Cmd, ok: bool, prdbc: nat, moved: seq<AI.Chunk>)

  /** The commands in flight that are reads or writes, by slot, and the ends reported so far. */
  datatype Dev = Dev(sect: nat, port: AP.Port, jobs: map<nat, Job>, reports: seq<Report>)

  function Table(c: Cmd): (v: seq<Iov>)
    ensures AI.Solid(v)
  { AI.Segs(c.prdt) }

  /** The assertion of `ahci_build_iov` holds for the batch from `done` on. */
  predicate Buildable(c: Cmd, done: nat, sect: nat) {
    sect > 0 && done <= c.len && AI.AssertHolds(Table(c), done, c.len, sect)
  }

  function Batch(c: Cmd, done: nat, sect: nat): (b: AI.Batch)
    requires Buildable(c, done, sect)
  { AI.Build(Table(c), done, c.len, sect) }

  /** The job whose next request starts where the earlier ones stopped. */
  function NextJob(c: Cmd, done: nat, moved: seq<AI.Chunk>, sect: nat): (j: Job)
    requires Buildable(c, done, sect)
  {
    var b := Batch(c, done, sect);
    Job(c, AI.Chunk(done, b.iov), done + b.todo, done, moved)
  }

  // ---------------------------------------------------------------- steps

  datatype Event =
    | Issue(slot: nat, cmd: Cmd, ncq: bool)      // `ahci_handle_rw` or `atapi_read` of a new command
    | Complete(k: nat, err: bool, noted: bool)   // the callback of a read or write
    | Other(e: AP.Event)                         // anything else that happens to the port

  predicate Continues(d: Dev, e: Event)
    requires e.Complete? && e.k < |d.port.busy|
  { !e.err && d.port.busy[e.k].more }

  predicate Enabled(d: Dev, e: Event) {
    match e
    case Issue(slot, cmd, _) => AP.Issuable(d.port, slot) && cmd.len > 0 && Buildable(cmd, 0, d.sect)
    case Complete(k, _, _) =>
      && k < |d.port.busy| && d.port.busy[k].slot in d.jobs
      && var j := d.jobs[d.port.busy[k].slot]; Continues(d, e) ==> Buildable(j.cmd, j.done, d.sect)
    case Other(p) => AP.Enabled(d.port, p) && (p.Complete? ==> d.port.busy[p.k].slot !in d.jobs)
  }

  /** What the port sees of the step. */
  function PortEvent(d: Dev, e: Event): (p: AP.Event)
    requires Enabled(d, e)
    ensures AP.Enabled(d.port, p)
  {
    match e
    case Issue(slot, cmd, ncq) => AP.Issue(slot, AP.Queue(Batch(cmd, 0, d.sect).more, ncq, ncq))
    case Complete(k, err, noted) =>
      var j := d.jobs[d.port.busy[k].slot];
      AP.Complete(k, err, noted,
                  if Continues(d, e) then AP.Again(Batch(j.cmd, j.done, d.sect).more) else AP.NoMore)
    case Other(p) => p
  }

  /** The commands among those still in flight. */
  function Kept(jobs: map<nat, Job>, pending: set<nat>): (r: map<nat, Job>) {
    map s | s in jobs && s in pending :: jobs[s]
  }

  /** The step, or None where no free request is left. */
  function Apply(d: Dev, e: Event): (r: Option<Dev>)
    requires Enabled(d, e)
  {
    var p := AP.Apply(d.port, PortEvent(d, e));
    if p.None? then None
    else match e
      case Issue(slot, cmd, _) => Some(d.(port := p.value, jobs := d.jobs[slot := NextJob(cmd, 0, [], d.sect)]))
      case Complete(k, err, _) => Some(Completed(d, e, p.value))
      case Other(_) => Some(d.(port := p.value, jobs := Kept(d.jobs, p.value.pending)))
  }

  function Completed(d: Dev, e: Event, p: AP.Port): (r: Dev)
    requires e.Complete? && Enabled(d, e)
  {
    var slot := d.port.busy[e.k].slot;
    var j := d.jobs[slot];
    if Continues(d, e) then d.(port := p, jobs := d.jobs[slot := NextJob(j.cmd, j.done, j.moved + [j.cur], d.sect)])
    else
      var report := if e.err then Report(j.cmd, false, j.prdbc, j.moved)
                    else Report(j.cmd, true, j.done, j.moved + [j.cur]);
      d.(port := p, jobs := d.jobs - {slot}, reports := d.reports + [report])
  }

  // ---------------------------------------------------------------- the requests of one command

  /** `chunks` are the batches from `from` on, one after the other, and they lead to `done` with or without more. */
  ghost predicate Leads(
    v: seq<Iov>, len: nat, sect: nat, going: bool, from: nat, chunks: seq<AI.Chunk>, done: nat, more: bool)
    requires sect > 0
    decreases |chunks|
  {
    if chunks == [] then done == from && more == going
    else
      && going && from <= len && AI.AssertHolds(v, from, len, sect)
      && var b := AI.Build(v, from, len, sect);
         && chunks[0] == AI.Chunk(from, b.iov)
         && Leads(v, len, sect, b.more, from + b.todo, chunks[1..], done, more)
  }

  lemma {:induction false} LeadsOn(
    v: seq<Iov>, len: nat, sect: nat, going: bool, from: nat, chunks: seq<AI.Chunk>, done: nat)
    requires sect > 0 && Leads(v, len, sect, going, from, chunks, done, true)
    requires done <= len && AI.AssertHolds(v, done, len, sect)
    ensures
      var b := AI.Build(v, done, len, sect);
      Leads(v, len, sect, going, from, chunks + [AI.Chunk(done, b.iov)], done + b.todo, b.more)
    decreases |chunks|
  {
    var b := AI.Build(v, done, len, sect);
    var next := AI.Chunk(done, b.iov);
    if chunks == [] {
      assert chunks + [next] == [next] && [next][1..] == [];
      assert Leads(v, len, sect, b.more, from + b.todo, [], done + b.todo, b.more);
    } else {
      var c := AI.Build(v, from, len, sect);
      assert (chunks + [next])[1..] == chunks[1..] + [next];
      LeadsOn(v, len, sect, c.more, from + c.todo, chunks[1..], done);
    }
  }

  /** Once nothing more is to come they are all the requests of the command. */
  lemma {:induction false} LeadsToEnd(v: seq<Iov>, len: nat, sect: nat, from: nat, chunks: seq<AI.Chunk>, done: nat)
    requires sect > 0 && Leads(v, len, sect, true, from, chunks, done, false)
    ensures AI.Transfers(v, from, len, sect, chunks)
    decreases |chunks|
  {
    var b := AI.Build(v, from, len, sect);
    if b.more { LeadsToEnd(v, len, sect, from + b.todo, chunks[1..], done); }
  }

  lemma BuildWithin(v: seq<Iov>, from: nat, len: nat, sect: nat)
    requires sect > 0 && AI.Solid(v) && from <= len && from <= |Addrs(v)|
    ensures
      var b := AI.Build(v, from, len, sect);
      && from + b.todo <= len && from + b.todo <= |Addrs(v)|
      && Addrs(b.iov) == Addrs(v)[from..from + b.todo]
  {
    var w := AI.Fetch(v, from, len - from, AI.IOV_MAX).0;
    AI.RoundDown(AI.Bytes(w), sect);
    AI.BatchAddrs(v, from, len - from, w, if |w| == AI.IOV_MAX then AI.Bytes(w) % sect else 0);
  }

  /** They visit the table's addresses from `from` up to `done`, whether or not the table covers the command. */
  lemma {:induction false} LeadsVisits(
    v: seq<Iov>, len: nat, sect: nat, going: bool, from: nat, chunks: seq<AI.Chunk>, done: nat, more: bool)
    requires sect > 0 && AI.Solid(v) && from <= len && from <= |Addrs(v)|
    requires Leads(v, len, sect, going, from, chunks, done, more)
    ensures from <= done <= len && done <= |Addrs(v)| && AI.Visited(chunks) == Addrs(v)[from..done]
    decreases |chunks|
  {
    if chunks != [] {
      var b := AI.Build(v, from, len, sect);
      BuildWithin(v, from, len, sect);
      LeadsVisits(v, len, sect, b.more, from + b.todo, chunks[1..], done, more);
      AI.VisitedStep(Addrs(v), chunks, from, from + b.todo, done);
    }
  }

  /** On a table that covers the command there is more to come exactly while it is not done. */
  lemma {:induction false} LeadsMore(
    v: seq<Iov>, len: nat, sect: nat, going: bool, from: nat, chunks: seq<AI.Chunk>, done: nat, more: bool)
    requires sect > 0 && AI.Covered(v, from, len, sect) && (going ==> chunks != []) && (!going ==> from == len)
    requires Leads(v, len, sect, going, from, chunks, done, more)
    ensures more <==> done < len
    decreases |chunks|
  {
    if chunks != [] {
      var b := AI.Build(v, from, len, sect);
      AI.BuildIs(v, from, len, sect);
      if b.more && chunks[1..] == [] {
        assert done == from + b.todo && more;
      } else {
        LeadsMore(v, len, sect, b.more, from + b.todo, chunks[1..], done, more);
      }
    }
  }

  // ---------------------------------------------------------------- invariant

  /** The requests moved lead to where the one on the disk starts; `more` is what it left for its completion. */
  ghost predicate JobOk(j: Job, more: bool, sect: nat) {
    && Buildable(j.cmd, j.prdbc, sect)
    && Leads(Table(j.cmd), j.cmd.len, sect, true, 0, j.moved, j.prdbc, true)
    && j == NextJob(j.cmd, j.prdbc, j.moved, sect) && more == Batch(j.cmd, j.prdbc, sect).more
  }

  ghost predicate JobsOk(busy: seq<AP.Req>, jobs: map<nat, Job>, sect: nat) {
    forall q :: q in busy && q.slot in jobs ==> JobOk(jobs[q.slot], q.more, sect)
  }

  /**
    What an end reported to the guest says: the requests that succeeded visited the table's first prdbc
    addresses in order; a command reported done went through all of its requests; and where its table covers
    it in whole sectors, it moved all of its bytes, at consecutive sector-aligned offsets.
   */
  ghost predicate ReportOk(r: Report, sect: nat)
    requires sect > 0
  {
    var v := Table(r.cmd);
    && r.prdbc <= r.cmd.len && r.prdbc <= |Addrs(v)| && AI.Visited(r.moved) == Addrs(v)[..r.prdbc]
    && (r.ok ==>
          && AI.Transfers(v, 0, r.cmd.len, sect, r.moved)
          && (AI.Covered(v, 0, r.cmd.len, sect) ==> r.prdbc == r.cmd.len && AI.Contiguous(r.moved, 0, sect)))
  }

  ghost predicate ReportsOk(reports: seq<Report>, sect: nat)
    requires sect > 0
  { forall i :: 0 <= i < |reports| ==> ReportOk(reports[i], sect) }

  const POOL: nat := BQ.BLOCKIF_MAXREQ - 1

  ghost predicate Inv(d: Dev) {
    && d.sect > 0 && AP.Inv(d.port, POOL) && d.jobs.Keys <= d.port.pending
    && JobsOk(d.port.busy, d.jobs, d.sect) && ReportsOk(d.reports, d.sect)
  }

  predicate Initial(d: Dev) { d.sect > 0 && AP.Initial(d.port, POOL) && d.jobs == map[] && d.reports == [] }

  // ---------------------------------------------------------------- preservation

  /** The command after its request has succeeded. */
  lemma Moved(j: Job, more: bool, sect: nat)
    requires JobOk(j, more, sect)
    ensures Leads(Table(j.cmd), j.cmd.len, sect, true, 0, j.moved + [j.cur], j.done, more)
    ensures j.done <= j.cmd.len
  {
    var v := Table(j.cmd);
    LeadsOn(v, j.cmd.len, sect, true, 0, j.moved, j.prdbc);
    LeadsVisits(v, j.cmd.len, sect, true, 0, j.moved + [j.cur], j.done, more);
  }

  lemma FailedReport(j: Job, more: bool, sect: nat)
    requires JobOk(j, more, sect)
    ensures ReportOk(Report(j.cmd, false, j.prdbc, j.moved), sect)
  {
    LeadsVisits(Table(j.cmd), j.cmd.len, sect, true, 0, j.moved, j.prdbc, true);
  }

  lemma DoneReport(j: Job, sect: nat)
    requires JobOk(j, false, sect)
    ensures ReportOk(Report(j.cmd, true, j.done, j.moved + [j.cur]), sect)
  {
    var v, len, chunks := Table(j.cmd), j.cmd.len, j.moved + [j.cur];
    Moved(j, false, sect);
    LeadsVisits(v, len, sect, true, 0, chunks, j.done, false);
    LeadsToEnd(v, len, sect, 0, chunks, j.done);
    if AI.Covered(v, 0, len, sect) {
      LeadsMore(v, len, sect, true, 0, chunks, j.done, false);
      AI.TransferContiguous(v, 0, len, sect, chunks);
    }
  }

  lemma {:induction false} StopBusy(p: AP.Port, k: nat, ncq: bool, cancelled: set<nat>, q: AP.Req)
    requires k <= |p.busy| && q in AP.StopLoop(p, k, ncq, cancelled).busy
    ensures q in p.busy
    decreases |p.busy| - k
  {
    if k < |p.busy| {
      if p.busy[k].id !in cancelled {
        StopBusy(p, k + 1, ncq, cancelled, q);
      } else {
        StopBusy(AP.StopOne(p, k, ncq), k, ncq || p.busy[k].ncq, cancelled, q);
      }
    }
  }

  lemma TakenFrom(p: AP.Port, slot: nat, more: bool, ncq: bool, q: AP.Req)
    requires p.free != [] && q in AP.Take(p, slot, more, ncq).busy
    ensures q in p.busy || q == AP.Req(p.free[0], slot, more, ncq)
  {
  }

  lemma GivenFrom(p: AP.Port, k: nat, q: AP.Req)
    requires k < |p.busy| && q in AP.Give(p, k).busy
    ensures exists i :: 0 <= i < |p.busy| && i != k && p.busy[i] == q
  {
    var rest := AP.Remove(p.busy, k);
    var j :| 0 <= j < |rest| && rest[j] == q;
    assert p.busy[if j < k then j else j + 1] == q;
  }

  /** After a completion: the requests of other slots, and the one it may have put there. */
  lemma CallbackFrom(p: AP.Port, e: AP.Event, q: AP.Req)
    requires AP.Inv(p, POOL) && e.Complete? && AP.Enabled(p, e) && q in AP.Apply(p, e).value.busy
    ensures
      var was := p.busy[e.k];
      || (q in p.busy && q.slot != was.slot)
      || (!e.err && was.more && e.next.Again? && q.slot == was.slot && q.more == e.next.more)
  {
    var was, g := p.busy[e.k], AP.Give(p, e.k);
    if !e.err && was.more && e.next.Again? { TakenFrom(g, was.slot, e.next.more, was.ncq, q); }
    if q in g.busy { GivenFrom(p, e.k, q); }
  }

  lemma IssueFrom(p: AP.Port, e: AP.Event, q: AP.Req)
    requires AP.Inv(p, POOL) && e.Issue? && AP.Enabled(p, e) && AP.Apply(p, e).Some?
    requires q in AP.Apply(p, e).value.busy
    ensures (q in p.busy && q.slot != e.slot) || (e.o.Queue? && q.slot == e.slot && q.more == e.o.more)
  {
    if e.o.Queue? { TakenFrom(p, e.slot, e.o.more, e.o.ncq, q); }
    if q in p.busy { assert q.slot in p.pending; }
  }

  lemma IssueInv(d: Dev, e: Event)
    requires Inv(d) && e.Issue? && Enabled(d, e) && Apply(d, e).Some?
    ensures JobsOk(Apply(d, e).value.port.busy, Apply(d, e).value.jobs, d.sect)
  {
    var r := Apply(d, e).value;
    forall q | q in r.port.busy && q.slot in r.jobs ensures JobOk(r.jobs[q.slot], q.more, d.sect) {
      IssueFrom(d.port, PortEvent(d, e), q);
    }
  }

  lemma ContinueInv(d: Dev, e: Event)
    requires Inv(d) && e.Complete? && Enabled(d, e) && Continues(d, e)
    ensures JobsOk(Apply(d, e).value.port.busy, Apply(d, e).value.jobs, d.sect)
  {
    var r, was := Apply(d, e).value, d.port.busy[e.k];
    assert was in d.port.busy;
    Moved(d.jobs[was.slot], true, d.sect);
    forall q | q in r.port.busy && q.slot in r.jobs ensures JobOk(r.jobs[q.slot], q.more, d.sect) {
      CallbackFrom(d.port, PortEvent(d, e), q);
    }
  }

  lemma EndInv(d: Dev, e: Event)
    requires Inv(d) && e.Complete? && Enabled(d, e) && !Continues(d, e)
    ensures JobsOk(Apply(d, e).value.port.busy, Apply(d, e).value.jobs, d.sect)
  {
    var r := Apply(d, e).value;
    forall q | q in r.port.busy && q.slot in r.jobs ensures JobOk(r.jobs[q.slot], q.more, d.sect) {
      CallbackFrom(d.port, PortEvent(d, e), q);
    }
  }

  lemma ReportInv(d: Dev, e: Event, p: AP.Port)
    requires d.sect > 0 && JobsOk(d.port.busy, d.jobs, d.sect) && ReportsOk(d.reports, d.sect)
    requires e.Complete? && Enabled(d, e) && !Continues(d, e)
    ensures ReportsOk(Completed(d, e, p).reports, d.sect)
  {
    var was := d.port.busy[e.k];
    var j := d.jobs[was.slot];
    assert was in d.port.busy;
    if e.err { FailedReport(j, was.more, d.sect); } else { DoneReport(j, d.sect); }
  }

  /** Every request on the busy list was there before, or is the one the step has put there. */
  lemma BusyFrom(p: AP.Port, e: AP.Event, q: AP.Req)
    requires AP.Inv(p, POOL) && AP.Enabled(p, e) && AP.Apply(p, e).Some? && q in AP.Apply(p, e).value.busy
    ensures
      || q in p.busy || (e.Issue? && q.slot == e.slot)
      || (e.Complete? && q.slot == p.busy[e.k].slot)
  {
    if e.Issue? { IssueFrom(p, e, q); }
    else if e.Complete? { CallbackFrom(p, e, q); }
    else if e.Halt? { StopBusy(p.(running := false), 0, false, e.cancelled, q); }
  }

  lemma OtherInv(d: Dev, e: Event)
    requires Inv(d) && e.Other? && Enabled(d, e) && AP.Apply(d.port, e.e).Some?
    ensures var p := AP.Apply(d.port, e.e).value; JobsOk(p.busy, Kept(d.jobs, p.pending), d.sect)
  {
    var p := AP.Apply(d.port, e.e).value;
    forall q | q in p.busy && q.slot in Kept(d.jobs, p.pending) ensures JobOk(d.jobs[q.slot], q.more, d.sect) {
      BusyFrom(d.port, e.e, q);
    }
  }

  lemma IssuePending(p: AP.Port, e: AP.Event)
    requires e.Issue? && AP.Enabled(p, e) && AP.Apply(p, e).Some? && e.o.Queue?
    ensures AP.Apply(p, e).value.pending == p.pending + {e.slot}
  {
  }

  /** A completion drops from the mask the slot it ends, and no other. */
  lemma CallbackPending(p: AP.Port, e: AP.Event)
    requires e.Complete? && AP.Enabled(p, e)
    ensures
      var r := AP.Apply(p, e).value.pending;
      if !e.err && p.busy[e.k].more && e.next.Again? then p.pending <= r else p.pending - {p.busy[e.k].slot} == r
  {
  }

  lemma PendingInv(d: Dev, e: Event)
    requires d.jobs.Keys <= d.port.pending && Enabled(d, e) && Apply(d, e).Some?
    ensures Apply(d, e).value.jobs.Keys <= Apply(d, e).value.port.pending
  {
    match e
    case Issue(_, _, _) => IssuePending(d.port, PortEvent(d, e));
    case Complete(_, _, _) => CallbackPending(d.port, PortEvent(d, e));
    case Other(_) =>
  }

  lemma JobsInv(d: Dev, e: Event)
    requires Inv(d) && Enabled(d, e) && Apply(d, e).Some?
    ensures JobsOk(Apply(d, e).value.port.busy, Apply(d, e).value.jobs, d.sect)
  {
    match e
    case Issue(_, _, _) => IssueInv(d, e);
    case Complete(_, _, _) => if Continues(d, e) { ContinueInv(d, e); } else { EndInv(d, e); }
    case Other(_) => OtherInv(d, e);
  }

  lemma ReportsInv(d: Dev, e: Event)
    requires d.sect > 0 && JobsOk(d.port.busy, d.jobs, d.sect) && ReportsOk(d.reports, d.sect)
    requires Enabled(d, e) && Apply(d, e).Some?
    ensures ReportsOk(Apply(d, e).value.reports, d.sect)
  {
    if e.Complete? && !Continues(d, e) { ReportInv(d, e, Apply(d, e).value.port); }
  }

  lemma StepKeepsInv(d: Dev, e: Event)
    requires Inv(d) && Enabled(d, e)
    ensures Apply(d, e).Some? && Inv(Apply(d, e).value)
  {
    AP.StepKeepsInv(d.port, PortEvent(d, e), POOL);
    PendingInv(d, e);
    JobsInv(d, e);
    ReportsInv(d, e);
  }

  // ---------------------------------------------------------------- runs

  ghost predicate Run(d: Dev, events: seq<Event>, r: Option<Dev>)
    decreases |events|
  {
    if events == [] then r == Some(d)
    else if !Enabled(d, events[0]) then false
    else if Apply(d, events[0]).None? then r == None
    else Run(Apply(d, events[0]).value, events[1..], r)
  }

  lemma {:induction false} RunInv(d: Dev, events: seq<Event>, r: Option<Dev>)
    requires Inv(d) && Run(d, events, r)
    ensures r.Some? && Inv(r.value) && r.value.sect == d.sect
    decreases |events|
  {
    if events != [] {
      StepKeepsInv(d, events[0]);
      RunInv(Apply(d, events[0]).value, events[1..], r);
    }
  }

  /** A read or write taken up: nothing moved yet, and its first request, from byte 0, on the disk. */
  lemma IssueStarts(d: Dev, e: Event)
    requires Inv(d) && e.Issue? && Enabled(d, e)
    ensures
      var r := Apply(d, e);
      && r.Some? && r.value.reports == d.reports && e.slot in r.value.jobs
      && (var j := r.value.jobs[e.slot]; j.cmd == e.cmd && j.moved == [] && j.cur.off == 0 && j.prdbc == 0)
      && forall s :: s in d.jobs && s != e.slot ==> s in r.value.jobs && r.value.jobs[s] == d.jobs[s]
  {
    AP.StepKeepsInv(d.port, PortEvent(d, e), POOL);
  }

  /** A request that succeeded with more to come: it counts as moved, and the next starts where it ended. */
  lemma ContinueMoves(d: Dev, e: Event)
    requires Inv(d) && e.Complete? && Enabled(d, e) && Continues(d, e)
    ensures
      var r, slot := Apply(d, e).value, d.port.busy[e.k].slot;
      && r.reports == d.reports && slot in r.jobs
      && (var j, j' := d.jobs[slot], r.jobs[slot];
          j'.cmd == j.cmd && j'.moved == j.moved + [j.cur] && j'.cur.off == j'.prdbc == j.done)
  {
  }

  /**
    The last request of a command ends it: the guest is told of success exactly when that request succeeded, with
    the bytes done, its own included, and else with those done before it.
   */
  lemma EndReported(d: Dev, e: Event)
    requires Inv(d) && e.Complete? && Enabled(d, e) && !Continues(d, e)
    ensures
      var r, slot := Apply(d, e).value, d.port.busy[e.k].slot;
      && slot !in r.jobs && |r.reports| == |d.reports| + 1 && r.reports[..|d.reports|] == d.reports
      && (var j, report := d.jobs[slot], r.reports[|d.reports|];
          && report.cmd == j.cmd && (report.ok <==> !e.err)
          && report.prdbc == (if e.err then j.prdbc else j.done)
          && report.moved == (if e.err then j.moved else j.moved + [j.cur]))
  {
  }

  /** Anything else keeps the reads and writes still in flight as they are, and reports nothing. */
  lemma OthersKept(d: Dev, e: Event, slot: nat)
    requires Inv(d) && e.Other? && Enabled(d, e)
    ensures
      var r := Apply(d, e);
      && r.Some? && r.value.reports == d.reports
      && (slot in r.value.jobs <==> slot in d.jobs && slot in r.value.port.pending)
      && (slot in r.value.jobs ==> r.value.jobs[slot] == d.jobs[slot])
  {
    AP.StepKeepsInv(d.port, e.e, POOL);
  }

  /** A run here is a run of the port. */
  lemma {:induction false} PortRuns(d: Dev, events: seq<Event>, r: Dev) returns (es: seq<AP.Event>)
    requires Run(d, events, Some(r))
    ensures AP.Run(d.port, es, Some(r.port))
    decreases |events|
  {
    es := [];
    if events != [] {
      var p := PortEvent(d, events[0]);
      var rest := PortRuns(Apply(d, events[0]).value, events[1..], r);
      es := [p] + rest;
      assert es[1..] == rest;
    }
  }

  /**
    Over every run of a port, with other commands, stops and resets in between: each read or write reported to
    the guest is as `ReportOk` says, and each one in flight has moved the first bytes of its table, up to where
    the request on the disk goes on.
   */
  lemma CommandsExact(d: Dev, events: seq<Event>, r: Option<Dev>)
    requires Initial(d) && Run(d, events, r)
    ensures r.Some? && r.value.sect > 0
    ensures forall i :: 0 <= i < |r.value.reports| ==> ReportOk(r.value.reports[i], r.value.sect)
    ensures forall q :: q in r.value.port.busy && q.slot in r.value.jobs ==> InFlight(r.value.jobs[q.slot])
  {
    RunInv(d, events, r);
    forall q | q in r.value.port.busy && q.slot in r.value.jobs ensures InFlight(r.value.jobs[q.slot]) {
      JobInFlight(r.value.jobs[q.slot], q.more, r.value.sect);
    }
  }

  /** The bytes moved, and those of the request on the disk, are the table's first ones. */
  ghost predicate InFlight(j: Job) {
    var a := Addrs(Table(j.cmd));
    && j.prdbc <= j.done <= j.cmd.len && j.done <= |a| && j.cur.off == j.prdbc
    && AI.Visited(j.moved) == a[..j.prdbc] && Addrs(j.cur.iov) == a[j.prdbc..j.done]
  }

  lemma JobInFlight(j: Job, more: bool, sect: nat)
    requires JobOk(j, more, sect)
    ensures InFlight(j)
  {
    var v := Table(j.cmd);
    LeadsVisits(v, j.cmd.len, sect, true, 0, j.moved, j.prdbc, true);
    BuildWithin(v, j.prdbc, j.cmd.len, sect);
  }
}
