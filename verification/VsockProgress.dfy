/**
  What the two threads of the virtio-vsock device bring about (src/lib/pci_virtio_sock.c:1456-1640, 1840-1930):
  each connection's part in a run of the device is a run of that connection, and the close protocol makes
  progress: what TX hands over RX closes, and what RX closes it frees.
 */
module VsockProgress {
  import opened Prelude
  import opened VsockSock
  import opened VsockThreads

  // ---------------------------------------------------------------- one connection among the others

  /** What a step of the device is to one sock. */
  function StepOn(d: Dev, e: Event, i: nat): (step: Option<SockStep>)
    requires Enabled(d, e) && i < |d.tab.socks|
  {
    var s := d.tab.socks[i];
    match e
    case TxScanSock(j, expired) =>
      if j != i then None
      else if s.state == ClosingTx && !s.Buffering() then Some(TxHandOver)
      else if s.state == Connected && s.local == ALL && expired then Some(TxExpire)
      else None
    case TxDrainSock(j, w) => if j == i then Some(SockStep.TxDrain(w)) else None
    case TxHandle(j, p) => if j == i then Some(TxPacket(p)) else None
    case RxRead(j, r) => if j == i then Some(RxData(r)) else None
    case RxSendCredit(j) => if j == i then Some(RxCredit) else None
    case _ => None
  }

  /** A step that allocates, sets up, closes or frees the sock. */
  predicate Renews(d: Dev, e: Event, i: nat)
    requires Enabled(d, e) && i < |d.tab.socks|
  {
    match e
    case TxAccept(j) => j == i
    case TxConnect(j) => j == i
    case TxAccepted(_, _) => d.held == i
    case TxConnected(_, _, _, _) => d.held == i
    case RxScanSock(j, _) => j == i && d.tab.socks[i].state == ClosingRx
    case RxFreeSock(j) => j == i
    case _ => false
  }

  /** Any other step does to an in-use sock just what that step of the connection does, or nothing. */
  lemma StepProjects(d: Dev, e: Event, i: nat)
    requires Inv(d) && Enabled(d, e) && InUse(d.tab, i) && !Renews(d, e, i)
    ensures InUse(Apply(d, e).tab, i)
    ensures
      var s, t, step := d.tab.socks[i], Apply(d, e).tab.socks[i], StepOn(d, e, i);
      if step.Some? then StepEnabled(s, step.value) && t == SockApply(s, step.value) else t == s
  {
    RenewsOnly(d, e, i);
    if ActsOn(e, i) {
      if IsRx(e) { RxActs(d, e, i); } else { TxActs(d, e, i); }
    } else {
      OthersStay(d, e, i);
    }
  }

  /** The sock a step is about. */
  predicate ActsOn(e: Event, i: nat) {
    && (e.TxScanSock? || e.TxDrainSock? || e.TxHandle? || e.RxScanSock? || e.RxRead? || e.RxSendCredit?)
    && e.i == i
  }

  lemma TxActs(d: Dev, e: Event, i: nat)
    requires Inv(d) && Enabled(d, e) && ActsOn(e, i) && !IsRx(e)
    ensures
      var s, t, step := d.tab.socks[i], Apply(d, e).tab.socks[i], StepOn(d, e, i);
      if step.Some? then StepEnabled(s, step.value) && t == SockApply(s, step.value) else t == s
  {
    assert Flags(d.tab.socks[i]) by { assert SockInv(d.tab.socks[i]); }
    if e.TxDrainSock? { assert Drainable(d.tab.socks[i]); }
  }

  lemma RxActs(d: Dev, e: Event, i: nat)
    requires Enabled(d, e) && ActsOn(e, i) && IsRx(e) && !Renews(d, e, i)
    ensures
      var s, t, step := d.tab.socks[i], Apply(d, e).tab.socks[i], StepOn(d, e, i);
      if step.Some? then StepEnabled(s, step.value) && t == SockApply(s, step.value) else t == s
  {
  }

  lemma OthersStay(d: Dev, e: Event, i: nat)
    requires Enabled(d, e) && !ActsOn(e, i) && i < |d.tab.socks| && !Renews(d, e, i)
    ensures Apply(d, e).tab.socks[i] == d.tab.socks[i] && StepOn(d, e, i).None?
  {
  }

  /** The lists change only where a sock is allocated or freed. */
  lemma RenewsOnly(d: Dev, e: Event, i: nat)
    requires Lists(d.tab) && Held(d.tab, d.files, d.held, d.tx) && Enabled(d, e) && InUse(d.tab, i) && !Renews(d, e, i)
    ensures InUse(Apply(d, e).tab, i)
  {
    if e.RxFreeSock? {
      FreeInUse(d.tab, e.i);
    } else if (e.TxConnected? || e.TxAccepted?) && !e.ok {
      FreeInUse(d.tab, d.held);
    } else {
      ListsStay(d, e, i);
    }
  }

  lemma ListsStay(d: Dev, e: Event, i: nat)
    requires Enabled(d, e) && InUse(d.tab, i) && !e.RxFreeSock? && !((e.TxConnected? || e.TxAccepted?) && !e.ok)
    ensures InUse(Apply(d, e).tab, i)
  {
  }

  /** The steps of one connection in a run of the device. */
  function StepsOn(d: Dev, es: seq<Event>, i: nat): (steps: seq<SockStep>)
    decreases |es|
  {
    if es == [] || !Enabled(d, es[0]) || i >= |d.tab.socks| then []
    else
      var step, rest := StepOn(d, es[0], i), StepsOn(Apply(d, es[0]), es[1..], i);
      if step.Some? then [step.value] + rest else rest
  }

  predicate Undisturbed(d: Dev, es: seq<Event>, i: nat)
    decreases |es|
  {
    es == [] || (Enabled(d, es[0]) && i < |d.tab.socks| && !Renews(d, es[0], i)
                 && Undisturbed(Apply(d, es[0]), es[1..], i))
  }

  lemma {:induction false} RunProjects(d: Dev, es: seq<Event>, r: Dev, i: nat)
    requires Inv(d) && InUse(d.tab, i) && Run(d, es, r) && Undisturbed(d, es, i)
    ensures InUse(r.tab, i) && SockRun(d.tab.socks[i], StepsOn(d, es, i), r.tab.socks[i])
    decreases |es|
  {
    if es != [] {
      StepKeepsInv(d, es[0]);
      StepProjects(d, es[0], i);
      RunProjects(Apply(d, es[0]), es[1..], r, i);
      var rest := StepsOn(Apply(d, es[0]), es[1..], i);
      if StepOn(d, es[0], i).Some? { assert ([StepOn(d, es[0], i).value] + rest)[1..] == rest; }
    }
  }

  /**
    Whatever the two threads do with other socks, a connection from its set-up on is one of the runs of
    `VsockSock`: its descriptor took the accepted payload in order, as much as its answers say.
   */
  lemma ConnectionsAccounted(n: nat, d: Dev, es: seq<Event>, r: Dev, i: nat)
    requires Reachable(n, d) && InUse(d.tab, i) && Established(d.tab.socks[i])
    requires Run(d, es, r) && Undisturbed(d, es, i)
    ensures InUse(r.tab, i) && SockRun(d.tab.socks[i], StepsOn(d, es, i), r.tab.socks[i])
    ensures
      var a := AccountOf(d.tab.socks[i], StepsOn(d, es, i));
      && a.written <= |a.accepted| && r.tab.socks[i].hist.written == a.accepted[..a.written]
      && r.tab.socks[i].rxCnt == Mod32(a.sent)
  {
    ReachableInv(n, d);
    RunProjects(d, es, r, i);
    StreamAccounted(d.tab.socks[i], StepsOn(d, es, i), r.tab.socks[i]);
  }

  /** TX takes a free sock, fresh and held: for a connection to the host with no descriptor yet, else with a new one. */
  lemma AllocHolds(n: nat, d: Dev, e: Event)
    requires Reachable(n, d) && Enabled(d, e) && (e.TxConnect? || e.TxAccept?)
    ensures d.held == -1 && Apply(d, e).held == e.i && e.i in d.tab.free && e.i !in Apply(d, e).tab.free
    ensures InUse(Apply(d, e).tab, e.i)
    ensures
      var s, f := Apply(d, e).tab.socks[e.i], Apply(d, e).files;
      && s == Fresh().(fd := s.fd) && (e.TxConnect? ==> s.fd == -1 && f == d.files)
      && (e.TxAccept? ==> s.fd >= 0 && s.fd as nat !in d.files.open && f.open == d.files.open + {s.fd as nat}
                          && Owns(f, e.i, s.fd))
  {
    ReachableInv(n, d);
    assert d.tab.free[e.i] == 1;
  }

  /** A set-up that succeeds leaves such a connection, with an open descriptor of its own and the guest's figures. */
  lemma SetUpEstablishes(n: nat, d: Dev, e: Event)
    requires Reachable(n, d) && Enabled(d, e) && SetsUp(e)
    ensures 0 <= d.held && InUse(Apply(d, e).tab, d.held)
    ensures
      var s, f := Apply(d, e).tab.socks[d.held], Apply(d, e).files;
      && Established(s) && s.fd as nat in f.established && Owns(f, d.held, s.fd) && s.bufAlloc == e.bufAlloc
      && (e.TxConnected? ==> s.state == Connected && s.peerBufAlloc == e.peerBufAlloc && s.peerFwdCnt == e.peerFwdCnt)
      && (e.TxAccepted? ==> s.state == Connecting && s.fd == d.tab.socks[d.held].fd)
    ensures Apply(d, e).held == -1
  {
    ReachableInv(n, d);
  }

  /** One that fails leaves the sock free, on the free list, and nothing open that was opened for it. */
  lemma GivingUpFrees(n: nat, d: Dev, e: Event)
    requires Reachable(n, d) && Enabled(d, e) && GivesUp(e)
    ensures 0 <= d.held && d.held in Apply(d, e).tab.free && Apply(d, e).tab.socks[d.held].state == Free
    ensures Apply(d, e).files.open == d.files.open - Fd(d.tab.socks[d.held]) && Apply(d, e).held == -1
  {
    ReachableInv(n, d);
  }

  // ---------------------------------------------------------------- the close protocol makes progress

  /** RX closes a handed-over sock when its scan comes to it: that descriptor, and no other. */
  lemma CloseExact(n: nat, d: Dev, i: nat, poll: bool)
    requires Reachable(n, d) && Enabled(d, RxScanSock(i, poll)) && d.tab.socks[i].state == ClosingRx
    ensures
      var fd, r := d.tab.socks[i].fd, Apply(d, RxScanSock(i, poll));
      && fd >= 0 && fd as nat in d.files.open
      && r.files.open == d.files.open - {fd as nat} && r.files.closed == d.files.closed + multiset{fd as nat}
      && r.tab.socks[i].fd == -1 && i in Closing(r.rx)
      && forall j: nat :: j < |d.tab.socks| && j != i ==> r.tab.socks[j] == d.tab.socks[j]
  {
    ReachableInv(n, d);
  }

  /** During a scan: still to be visited, with its descriptor, or closed. */
  ghost predicate Handed(d: Dev, i: nat, fd: nat) {
    && d.rx.RxScan? && InUse(d.tab, i) && d.tab.socks[i].state == ClosingRx
    && (if i in d.rx.closing then d.tab.socks[i].fd == -1 && fd in d.files.closed && fd !in d.files.open
        else i in d.rx.todo && d.tab.socks[i].fd == fd)
  }

  lemma HandedStep(d: Dev, e: Event, i: nat, fd: nat)
    requires Inv(d) && Enabled(d, e) && !e.RxEndScan? && Handed(d, i, fd)
    ensures Handed(Apply(d, e), i, fd)
  {
    if e.RxScanSock? && e.i == i {
      assert i !in d.rx.closing;
    } else {
      StepProjects(d, e, i);
      assert StepOn(d, e, i).None?;
      ScanGoesOn(d, e, i);
      if i in d.rx.closing { ClosedStays(d, e, fd); }
    }
  }

  /** Until its end a scan forgets no sock, and a closed descriptor stays closed. */
  lemma ScanGoesOn(d: Dev, e: Event, i: nat)
    requires d.rx.RxScan? && Enabled(d, e) && !e.RxEndScan? && !(e.RxScanSock? && e.i == i)
    ensures
      var r := Apply(d, e);
      && r.rx.RxScan? && (i in d.rx.todo <==> i in r.rx.todo) && (i in d.rx.closing <==> i in r.rx.closing)
  {
  }

  lemma ClosedStays(d: Dev, e: Event, fd: nat)
    requires Log(d.tab, d.files) && Enabled(d, e) && fd in d.files.closed && fd !in d.files.open
    ensures fd in Apply(d, e).files.closed && fd !in Apply(d, e).files.open
  {
    assert fd < d.files.nextFd;
  }

  lemma {:induction false} RunHanded(d: Dev, es: seq<Event>, r: Dev, i: nat, fd: nat)
    requires Inv(d) && Handed(d, i, fd) && Run(d, es, r) && RxEndScan !in es
    ensures Handed(r, i, fd)
    decreases |es|
  {
    if es != [] {
      assert es[0] in es && forall e :: e in es[1..] ==> e in es;
      HandedStep(d, es[0], i, fd);
      StepKeepsInv(d, es[0]);
      RunHanded(Apply(d, es[0]), es[1..], r, i, fd);
    }
  }

  /** Every sock handed over before a scan is closed by the end of it, and queued to be freed. */
  lemma ScanClosesAll(n: nat, d: Dev, es: seq<Event>, r: Dev, i: nat)
    requires Reachable(n, d) && Enabled(d, RxStartScan) && InUse(d.tab, i) && d.tab.socks[i].state == ClosingRx
    requires Run(Apply(d, RxStartScan), es, r) && RxEndScan !in es && Enabled(r, RxEndScan)
    ensures d.tab.socks[i].fd >= 0
    ensures d.tab.socks[i].fd as nat in r.files.closed && d.tab.socks[i].fd as nat !in r.files.open
    ensures i < |r.tab.socks| && r.tab.socks[i].fd == -1
    ensures Apply(r, RxEndScan).rx.RxFree? && i in Apply(r, RxEndScan).rx.closing
  {
    ReachableInv(n, d);
    StepKeepsInv(d, RxStartScan);
    RunHanded(Apply(d, RxStartScan), es, r, i, d.tab.socks[i].fd);
  }

  predicate Allocates(e: Event, i: nat) { (e.TxAccept? || e.TxConnect?) && e.i == i }

  lemma {:induction false} StaysFree(d: Dev, es: seq<Event>, r: Dev, i: nat)
    requires Inv(d) && i in d.tab.free && Run(d, es, r) && forall e :: e in es ==> !Allocates(e, i)
    ensures i in r.tab.free
    decreases |es|
  {
    if es != [] {
      assert es[0] in es && forall e :: e in es[1..] ==> e in es;
      StepKeepsInv(d, es[0]);
      FreeStep(d, es[0], i);
      StaysFree(Apply(d, es[0]), es[1..], r, i);
    }
  }

  lemma FreeStep(d: Dev, e: Event, i: nat)
    requires i in d.tab.free && Enabled(d, e) && !Allocates(e, i)
    ensures i in Apply(d, e).tab.free
  {
  }

  lemma FreeIsFree(t: Table, i: nat)
    requires Lists(t) && i in t.free
    ensures i < |t.socks| && t.socks[i].state == Free
  {
  }

  lemma ClosingStep(d: Dev, e: Event, i: nat)
    requires Inv(d) && d.rx.RxFree? && i in d.rx.closing && Enabled(d, e) && e != RxFreeSock(i)
    ensures Apply(d, e).rx.RxFree? && i in Apply(d, e).rx.closing
  {
  }

  /** And every sock queued is free again, on the free list, by the end of that, unless TX has taken it anew. */
  lemma {:induction false} FreesAll(d: Dev, es: seq<Event>, r: Dev, i: nat)
    requires Inv(d) && d.rx.RxFree? && i in d.rx.closing
    requires Run(d, es, r) && Enabled(r, RxEndFree) && RxEndFree !in es
    ensures RxFreeSock(i) in es
    ensures (forall e :: e in es ==> !Allocates(e, i)) ==>
      i in r.tab.free && i < |r.tab.socks| && r.tab.socks[i].state == Free
    decreases |es|
  {
    assert es != [];
    assert es[0] in es && forall e :: e in es[1..] ==> e in es;
    StepKeepsInv(d, es[0]);
    if es[0] == RxFreeSock(i) {
      if forall e :: e in es ==> !Allocates(e, i) {
        StaysFree(Apply(d, es[0]), es[1..], r, i);
        RunKeepsInv(Apply(d, es[0]), es[1..], r);
        FreeIsFree(r.tab, i);
      }
    } else {
      ClosingStep(d, es[0], i);
      FreesAll(Apply(d, es[0]), es[1..], r, i);
    }
  }

  /** What the TX scan has done for a sock, or has still to do: hand it over, or queue it for draining. */
  predicate Awaited(d: Dev, i: nat) {
    d.tx.TxScan? && d.held == -1 && InUse(d.tab, i) && i in d.tx.todo
  }

  predicate Done(d: Dev, i: nat, over: bool) {
    d.tx.TxScan? && InUse(d.tab, i) && if over then d.tab.socks[i].state == ClosingRx else i in d.tx.q
  }

  predicate Due(s: Sock, over: bool) {
    if over then s.state == ClosingTx && !s.Buffering() else Drainable(s)
  }

  lemma DueStep(d: Dev, e: Event, i: nat, over: bool)
    requires Inv(d) && Enabled(d, e) && !e.TxEndScan? && Awaited(d, i) && Due(d.tab.socks[i], over)
    ensures Done(Apply(d, e), i, over) || (Awaited(Apply(d, e), i) && Due(Apply(d, e).tab.socks[i], over))
  {
    TxScanning(d, e);
    if e.TxScanSock? && e.i == i {
      DueVisited(d, e, over);
    } else {
      DueStays(d, e, i, over);
      TodoStays(d, e, i);
    }
  }

  lemma TodoStays(d: Dev, e: Event, i: nat)
    requires d.tx.TxScan? && d.held == -1 && i in d.tx.todo && Enabled(d, e) && !e.TxEndScan?
    requires !(e.TxScanSock? && e.i == i)
    ensures Apply(d, e).tx.TxScan? && i in Apply(d, e).tx.todo
  {
  }

  lemma DueStays(d: Dev, e: Event, i: nat, over: bool)
    requires Inv(d) && Enabled(d, e) && !e.TxEndScan? && Awaited(d, i) && Due(d.tab.socks[i], over)
    requires !(e.TxScanSock? && e.i == i)
    ensures InUse(Apply(d, e).tab, i) && Due(Apply(d, e).tab.socks[i], over)
  {
    StepProjects(d, e, i);
    var step := StepOn(d, e, i);
    if step.Some? {
      assert step.value.RxData? || step.value.RxCredit?;
      if step.value.RxData? { assert SockInv(d.tab.socks[i]); ReadKeepsDrainable(d.tab.socks[i], e.r); }
    }
  }

  lemma DueVisited(d: Dev, e: Event, over: bool)
    requires Inv(d) && e.TxScanSock? && Enabled(d, e) && Due(d.tab.socks[e.i], over)
    ensures Done(Apply(d, e), e.i, over)
  {
    assert Flags(d.tab.socks[e.i]) by { assert SockInv(d.tab.socks[e.i]); }
  }

  lemma DoneStep(d: Dev, e: Event, i: nat, over: bool)
    requires Inv(d) && Enabled(d, e) && !e.TxEndScan? && d.held == -1 && Done(d, i, over)
    ensures Done(Apply(d, e), i, over) && Apply(d, e).held == -1
  {
    TxScanning(d, e);
    if over {
      if e.RxScanSock? && e.i == i { assert InUse(Apply(d, e).tab, i); } else { StepProjects(d, e, i); }
    } else {
      StepKeepsInv(d, e);
      QueuedStays(d, e, i);
    }
  }

  lemma TxScanning(d: Dev, e: Event)
    requires d.tx.TxScan? && d.held == -1 && Enabled(d, e) && !e.TxEndScan?
    ensures Apply(d, e).tx.TxScan? && Apply(d, e).held == -1 && !(e.RxFreeSock? || e.TxAccept? || e.TxConnect?)
  {
  }

  lemma QueuedStays(d: Dev, e: Event, i: nat)
    requires d.tx.TxScan? && i in d.tx.q && Enabled(d, e) && d.held == -1 && !e.TxEndScan?
    requires TxOk(Apply(d, e).tab, Apply(d, e).held, Apply(d, e).tx)
    ensures i in Apply(d, e).tx.q && InUse(Apply(d, e).tab, i)
  {
    assert i in Apply(d, e).tx.q;
  }

  lemma {:induction false} RunDue(d: Dev, es: seq<Event>, r: Dev, i: nat, over: bool)
    requires Inv(d) && Run(d, es, r) && TxEndScan !in es && d.held == -1
    requires Done(d, i, over) || (Awaited(d, i) && Due(d.tab.socks[i], over))
    ensures Done(r, i, over) || Awaited(r, i)
    decreases |es|
  {
    if es != [] {
      assert es[0] in es && forall e :: e in es[1..] ==> e in es;
      if Done(d, i, over) { DoneStep(d, es[0], i, over); } else { DueStep(d, es[0], i, over); }
      TxScanning(d, es[0]);
      StepKeepsInv(d, es[0]);
      RunDue(Apply(d, es[0]), es[1..], r, i, over);
    }
  }

  /**
    Every sock closed by TX with nothing left to write is handed over by the end of the next TX scan, and
    every one with bytes left to write is queued for draining.
   */
  lemma TxScanServesAll(n: nat, d: Dev, es: seq<Event>, r: Dev, i: nat)
    requires Reachable(n, d) && Enabled(d, TxStartScan) && InUse(d.tab, i)
    requires Run(Apply(d, TxStartScan), es, r) && TxEndScan !in es && Enabled(r, TxEndScan)
    ensures InUse(d.tab, i) && d.tab.socks[i].state == ClosingTx && !d.tab.socks[i].Buffering() ==>
      InUse(r.tab, i) && r.tab.socks[i].state == ClosingRx
    ensures Drainable(d.tab.socks[i]) ==> i in r.tx.q
  {
    ReachableInv(n, d);
    StepKeepsInv(d, TxStartScan);
    var d' := Apply(d, TxStartScan);
    assert d'.tab == d.tab;
    if Due(d.tab.socks[i], true) { RunDue(d', es, r, i, true); }
    if Due(d.tab.socks[i], false) { RunDue(d', es, r, i, false); }
  }

  /** What the TX scan has queued is drained once its select returns. */
  lemma DrainFollows(n: nat, d: Dev, i: nat, w: WriteResult)
    requires Reachable(n, d) && Enabled(d, TxEndScan) && i in d.tx.q
    requires w.Wrote? ==> w.n == 0
    ensures Enabled(Apply(d, TxEndScan), TxWake(false))
    ensures Enabled(Apply(Apply(d, TxEndScan), TxWake(false)), TxDrainSock(i, w))
  {
    ReachableInv(n, d);
    assert SockInv(d.tab.socks[i]);
  }

  /** And what the RX scan has queued is looked at: read from if it was polled and is connected still. */
  lemma WorkFollows(n: nat, d: Dev, i: nat, r: ReadResult)
    requires Reachable(n, d) && Enabled(d, RxEndScan) && i in d.rx.polled && (r.Read? ==> r.n > 0)
    requires d.rx.closing == {} && i < |d.tab.socks| && d.tab.socks[i].state == Connected
    ensures Enabled(Apply(d, RxEndScan), RxWake)
    ensures
      var t := Apply(Apply(d, RxEndScan), RxWake);
      && (d.tab.socks[i].fd in d.rx.rfd <==> Enabled(t, RxRead(i, r)))
      && (d.tab.socks[i].credit <==> Enabled(t, RxSendCredit(i)))
  {
    ReachableInv(n, d);
    PolledInUse(d, i);
    WorkReady(d, i, r);
  }

  lemma PolledInUse(d: Dev, i: nat)
    requires RxOk(d.tab, d.held, d.rx) && i in d.rx.polled
    ensures IsSock(d, i)
  {
  }

  lemma WorkReady(d: Dev, i: nat, r: ReadResult)
    requires d.rx.RxScan? && d.rx.todo == {} && d.rx.closing == {} && i in d.rx.polled && IsSock(d, i)
    requires d.tab.socks[i].state == Connected && (r.Read? ==> r.n > 0)
    ensures Enabled(d, RxEndScan) && Enabled(Apply(d, RxEndScan), RxWake)
    ensures
      var t := Apply(Apply(d, RxEndScan), RxWake);
      && (d.tab.socks[i].fd in d.rx.rfd <==> Enabled(t, RxRead(i, r)))
      && (d.tab.socks[i].credit <==> Enabled(t, RxSendCredit(i)))
  {
    var t := Apply(Apply(d, RxEndScan), RxWake);
    assert t == d.(rx := RxWork(d.rx.polled, d.rx.rfd));
  }

  /** RX queues a connected sock when it may read from it or owes it an update, and polls it when it may read. */
  lemma PollExact(n: nat, d: Dev, i: nat, poll: bool)
    requires Reachable(n, d) && Enabled(d, RxScanSock(i, poll)) && d.tab.socks[i].state == Connected
    ensures
      var s, r := d.tab.socks[i], Apply(d, RxScanSock(i, poll)).rx;
      var readable := poll && !s.hist.eof && !s.peer.rx && PeerFree(s) != 0;
      && r.RxScan? && s.fd >= 0 && (s.fd as nat in r.rfd <==> readable)
      && (i in r.polled <==> readable || (poll && s.credit))
  {
    ReachableInv(n, d);
    var s := d.tab.socks[i];
    assert SockInv(s);
    NotPolledYet(d, i);
  }

  lemma NotPolledYet(d: Dev, i: nat)
    requires Inv(d) && d.rx.RxScan? && i in d.rx.todo && InUse(d.tab, i) && d.tab.socks[i].fd >= 0
    ensures i !in d.rx.polled && d.tab.socks[i].fd as nat !in d.rx.rfd
  {
    var fd: nat := d.tab.socks[i].fd;
    forall j: nat | j in d.rx.polled ensures d.rx.polled[j] != fd {
      assert Owns(d.files, j, d.rx.polled[j]) && Owns(d.files, i, fd);
    }
  }
}
