/**
  The two threads of the virtio-vsock device (src/lib/pci_virtio_sock.c:168-233, 1456-2088) as an
  interleaved transition system.

  A step is one critical section under a socket's mutex, or one change of the free and in-use
  lists. A thread that scans a list holds list_rwlock for reading, so list changes by the other
  thread are disabled while it does. A descriptor is identified with the open file it names, so
  using a descriptor after close is visible even though the kernel reuses numbers.
 */
module VsockThreads {
  import opened VsockSock

  /** Where the TX thread is; `q` maps each queued sock to the descriptor put in the write set. */
  datatype TxPhase =
    | TxScan(todo: set<nat>, q: map<nat, nat>)
    | TxSelect(q: map<nat, nat>)
    | TxDrain(q: map<nat, nat>)
    | TxMain(q: map<nat, nat>)

  /** Where the RX thread is; `polled` maps each sock queued by the scan to its descriptor. */
  datatype RxPhase =
    | RxScan(todo: set<nat>, closing: set<nat>, polled: map<nat, nat>, rfd: set<nat>)
    | RxFree(closing: set<nat>, polled: map<nat, nat>, rfd: set<nat>)
    | RxSelect(polled: map<nat, nat>, rfd: set<nat>)
    | RxWork(polled: map<nat, nat>, rfd: set<nat>)

  /** The sock array and the two lists. */
  datatype Table = Table(socks: seq<Sock>, free: multiset<nat>, inuse: multiset<nat>)

  /** What the kernel knows of the descriptors, and who closed them. */
  datatype Files = Files(
    nextFd: nat,
    open: set<nat>,            // descriptors that are open
    owner: map<nat, nat>,      // the sock a descriptor was given to
    established: set<nat>,     // descriptors of connections that were set up
    closed: multiset<nat>)     // every close of an established descriptor

  /** `held` is the sock whose mutex the TX thread keeps while connecting, or -1. */
  datatype Dev = Dev(tab: Table, files: Files, held: int, tx: TxPhase, rx: RxPhase)

  /** Socks the RX scan has closed but not yet put back on the free list. */
  function Closing(rx: RxPhase): (r: set<nat>) {
    match rx
    case RxScan(_, c, _, _) => c
    case RxFree(c, _, _) => c
    case _ => {}
  }

  function Upto(n: nat): (m: multiset<nat>)
    ensures forall i: nat :: m[i] == if i < n then 1 else 0
  {
    if n == 0 then multiset{} else Upto(n - 1) + multiset{n - 1}
  }

  /** The device after initialisation: every sock free, both threads about to scan. */
  function Initial(n: nat): (d: Dev) {
    Dev(Table(seq(n, _ => Fresh().(state := Free)), Upto(n), multiset{}), Files(0, {}, map[], {}, multiset{}),
        -1, TxMain(map[]), RxWork(map[], {}))
  }

  datatype Event =
    // TX thread
    | TxStartScan
    | TxScanSock(i: nat, expired: bool)
    | TxEndScan
    | TxWake(interrupted: bool)
    | TxAccept(i: nat)
    | TxAccepted(ok: bool, bufAlloc: nat)
    | TxDrainSock(i: nat, w: WriteResult)
    | TxEndDrain
    | TxConnect(i: nat)
    | TxConnected(ok: bool, bufAlloc: nat, peerBufAlloc: nat, peerFwdCnt: nat)
    | TxHandle(i: nat, p: Packet)
    // RX thread
    | RxStartScan
    | RxScanSock(i: nat, poll: bool)
    | RxEndScan
    | RxFreeSock(i: nat)
    | RxEndFree
    | RxWake
    | RxRead(i: nat, r: ReadResult)
    | RxSendCredit(i: nat)

  /** The TX thread is between critical sections. */
  predicate TxIdle(d: Dev) { d.held == -1 }

  predicate IsSock(d: Dev, i: nat) { i < |d.tab.socks| && i in d.tab.inuse && d.held != i }

  predicate Enabled(d: Dev, e: Event) {
    match e
    case TxStartScan => TxIdle(d) && d.tx.TxMain?
    case TxScanSock(i, _) => TxIdle(d) && d.tx.TxScan? && i in d.tx.todo && IsSock(d, i)
    case TxEndScan => TxIdle(d) && d.tx.TxScan? && d.tx.todo == {}
    case TxWake(_) => TxIdle(d) && d.tx.TxSelect?
    // alloc_sock: list_rwlock for writing, so the RX thread is not scanning
    case TxAccept(i) => TxIdle(d) && d.tx.TxDrain? && !d.rx.RxScan? && i < |d.tab.socks| && i in d.tab.free
    case TxAccepted(ok, b) =>
      d.tx.TxDrain? && 0 <= d.held < |d.tab.socks| && b <= WRITE_BUF_LENGTH && (!ok ==> !d.rx.RxScan?)
    case TxDrainSock(i, w) =>
      && TxIdle(d) && d.tx.TxDrain? && i in d.tx.q && IsSock(d, i)
      && d.tab.socks[i].head <= |d.tab.socks[i].buf| && (w.Wrote? ==> w.n <= |d.tab.socks[i].buf| - d.tab.socks[i].head)
    case TxEndDrain => TxIdle(d) && d.tx.TxDrain?
    case TxConnect(i) => TxIdle(d) && d.tx.TxMain? && !d.rx.RxScan? && i < |d.tab.socks| && i in d.tab.free
    case TxConnected(ok, b, pb, pf) =>
      && d.tx.TxMain? && 0 <= d.held < |d.tab.socks| && b <= WRITE_BUF_LENGTH && pb < U32 && pf < U32
      && (!ok ==> !d.rx.RxScan?)
    case TxHandle(i, p) =>
      && TxIdle(d) && d.tx.TxMain? && IsSock(d, i) && OkPacket(p)
      && (d.tab.socks[i].state == Connected || d.tab.socks[i].state == Connecting)
    case RxStartScan => d.rx.RxWork?
    case RxScanSock(i, _) => d.rx.RxScan? && i in d.rx.todo && IsSock(d, i)
    case RxEndScan => d.rx.RxScan? && d.rx.todo == {}
    case RxFreeSock(i) => d.rx.RxFree? && i in d.rx.closing && !d.tx.TxScan? && IsSock(d, i)
    case RxEndFree => d.rx.RxFree? && d.rx.closing == {}
    case RxWake => d.rx.RxSelect?
    case RxRead(i, r) =>
      && (r.Read? ==> r.n > 0) && d.rx.RxWork? && i in d.rx.polled && IsSock(d, i)
      && d.tab.socks[i].state == Connected && d.tab.socks[i].fd in d.rx.rfd
    case RxSendCredit(i) =>
      && d.rx.RxWork? && i in d.rx.polled && IsSock(d, i)
      && d.tab.socks[i].state == Connected && d.tab.socks[i].credit
  }

  function SetSock(d: Dev, i: nat, s: Sock): (r: Dev)
    requires i < |d.tab.socks|
  {
    d.(tab := d.tab.(socks := d.tab.socks[i := s]))
  }

  /** `alloc_sock`: from the free to the in-use list. */
  function Alloc(t: Table, i: nat, s: Sock): (r: Table)
    requires i < |t.socks|
  {
    Table(t.socks[i := s], t.free - multiset{i}, t.inuse + multiset{i})
  }

  /** `free_sock`. */
  function FreeSock(t: Table, i: nat): (r: Table)
    requires i < |t.socks|
  {
    Table(t.socks[i := t.socks[i].(state := Free)], t.free + multiset{i}, t.inuse - multiset{i})
  }

  /** A new descriptor for sock `i`, from accept or socket and connect. */
  function Open(f: Files, i: nat): (r: Files) {
    f.(nextFd := f.nextFd + 1, open := f.open + {f.nextFd}, owner := f.owner[f.nextFd := i])
  }

  function Fd(s: Sock): (r: set<nat>) {
    if s.fd >= 0 then {s.fd as nat} else {}
  }

  /** One sock of the TX scan: hand over, expire, queue for draining, or pass by. */
  function ScanTx(d: Dev, i: nat, expired: bool): (r: Dev)
    requires d.tx.TxScan? && i < |d.tab.socks|
  {
    var s := d.tab.socks[i];
    var d := d.(tx := d.tx.(todo := d.tx.todo - {i}));
    if s.state == ClosingTx && !s.Buffering() then SetSock(d, i, s.(state := ClosingRx))
    else if s.state != Connected && s.state != ClosingTx then d
    else if s.local == ALL && expired then SetSock(d, i, Reset(s))
    else if s.local.rx || !s.Buffering() || s.fd < 0 then d
    else d.(tx := d.tx.(q := d.tx.q[i := s.fd]))
  }

  /** One sock of the RX scan: close it, or queue and poll it, or pass by. */
  function ScanRx(d: Dev, i: nat, poll: bool): (r: Dev)
    requires d.rx.RxScan? && i < |d.tab.socks|
  {
    var s := d.tab.socks[i];
    var RxScan(todo, closing, polled, rfd) := d.rx;
    var todo := todo - {i};
    if s.state == ClosingRx then
      SetSock(d, i, s.(fd := -1)).(
        files := d.files.(open := d.files.open - Fd(s), closed := d.files.closed + multiset(Fd(s))),
        rx := RxScan(todo, closing + {i}, polled, rfd))
    else if s.state != Connected || !poll || s.fd < 0 then d.(rx := RxScan(todo, closing, polled, rfd))
    else if !s.local.tx && !s.peer.rx && PeerFree(s) != 0 then
      d.(rx := RxScan(todo, closing, polled[i := s.fd], rfd + Fd(s)))
    else if s.credit then
      d.(rx := RxScan(todo, closing, polled[i := s.fd], rfd))
    else d.(rx := RxScan(todo, closing, polled, rfd))
  }

  /** The device with sock `i` off the RX queue and its descriptor out of the read set. */
  function Unpolled(d: Dev, i: nat): (r: Dev)
    requires d.rx.RxWork? && i < |d.tab.socks|
  {
    d.(rx := RxWork(d.rx.polled - {i}, d.rx.rfd - Fd(d.tab.socks[i])))
  }

  function Apply(d: Dev, e: Event): (r: Dev)
    requires Enabled(d, e)
    ensures (e.RxScanSock? && d.tab.socks[e.i].state == ClosingRx) || r.files.closed == d.files.closed
  {
    match e
    case TxStartScan => d.(tx := TxScan(set i | i in d.tab.inuse, map[]))
    case TxScanSock(i, expired) => ScanTx(d, i, expired)
    case TxEndScan => d.(tx := TxSelect(d.tx.q))
    case TxWake(interrupted) => d.(tx := if interrupted then TxMain(map[]) else TxPhase.TxDrain(d.tx.q))
    case TxAccept(i) =>
      d.(tab := Alloc(d.tab, i, Fresh().(fd := d.files.nextFd)), files := Open(d.files, i), held := i)
    case TxAccepted(ok, b) =>
      var s := d.tab.socks[d.held];
      if ok then
        SetSock(d, d.held, s.(bufAlloc := b)).(
          held := -1, files := d.files.(established := d.files.established + Fd(s)))
      else d.(tab := FreeSock(d.tab, d.held), held := -1, files := d.files.(open := d.files.open - Fd(s)))
    case TxDrainSock(i, w) =>
      var s := d.tab.socks[i];
      var d1 := d.(tx := TxPhase.TxDrain(d.tx.q - {i}));
      if s.state == Connected || s.state == ClosingTx then SetSock(d1, i, Drain(s, w)) else d1
    case TxEndDrain => d.(tx := TxMain(map[]))
    case TxConnect(i) => d.(tab := Alloc(d.tab, i, Fresh()), held := i)
    case TxConnected(ok, b, pb, pf) =>
      if ok then
        var s := d.tab.socks[d.held].(
          state := Connected, fd := d.files.nextFd, bufAlloc := b, peerBufAlloc := pb, peerFwdCnt := pf);
        SetSock(d, d.held, s).(
          held := -1, files := Open(d.files, d.held).(established := d.files.established + {d.files.nextFd}))
      else d.(tab := FreeSock(d.tab, d.held), held := -1)
    case TxHandle(i, p) => SetSock(d, i, ProcTx(d.tab.socks[i], p))
    case RxStartScan => d.(rx := RxScan(set i | i in d.tab.inuse, {}, map[], {}))
    case RxScanSock(i, poll) => ScanRx(d, i, poll)
    case RxEndScan =>
      d.(rx := if d.rx.closing == {} then RxSelect(d.rx.polled, d.rx.rfd)
               else RxFree(d.rx.closing, d.rx.polled, d.rx.rfd))
    case RxFreeSock(i) => d.(tab := FreeSock(d.tab, i), rx := RxFree(d.rx.closing - {i}, d.rx.polled, d.rx.rfd))
    case RxEndFree => d.(rx := RxSelect(d.rx.polled, d.rx.rfd))
    case RxWake => d.(rx := RxWork(d.rx.polled, d.rx.rfd))
    case RxRead(i, r) =>
      // a result of zero takes the sock off the queue and out of the read set
      var d1 := if r.Read? && PeerFree(d.tab.socks[i]) != 0 then d else Unpolled(d, i);
      SetSock(d1, i, ProcRx(d.tab.socks[i], r))
    case RxSendCredit(i) => SetSock(d, i, CreditExit(d.tab.socks[i]))
  }

  // ---------------------------------------------------------------- invariant

  predicate InUse(t: Table, i: nat) { i < |t.socks| && i in t.inuse }

  /** Every sock is on exactly one list, exactly once, and on the free list exactly when it is free. */
  ghost predicate Lists(t: Table) {
    && (forall i: nat :: i < |t.socks| ==> t.free[i] + t.inuse[i] == 1)
    && (forall i: nat :: i < |t.socks| ==> (i in t.free <==> t.socks[i].state == Free))
    && (forall i: nat :: i in t.free || i in t.inuse ==> i < |t.socks|)
  }

  ghost predicate Socks(t: Table) {
    forall i: nat {:trigger SockInv(t.socks[i])} :: InUse(t, i) ==> SockInv(t.socks[i])
  }

  predicate Owns(f: Files, i: nat, fd: nat) { fd in f.open && fd in f.owner && f.owner[fd] == i }

  /** An in-use sock owns an open descriptor, except while connecting or already closed. */
  ghost predicate Fds(t: Table, f: Files, held: int, connecting: bool, closing: set<nat>) {
    && (forall i: nat :: InUse(t, i) && t.socks[i].fd >= 0 ==> Owns(f, i, t.socks[i].fd))
    && (forall i: nat :: InUse(t, i) && t.socks[i].fd < 0 ==>
          t.socks[i].fd == -1 && ((i == held && connecting) || i in closing))
    && (forall i: nat :: i in closing ==>
          InUse(t, i) && t.socks[i].fd == -1 && t.socks[i].state == ClosingRx && i != held)
    && (forall i: nat :: InUse(t, i) && t.socks[i].fd >= 0 && i != held ==> t.socks[i].fd as nat in f.established)
  }

  /** Every established descriptor is either open and owned, or was closed exactly once. */
  ghost predicate Log(t: Table, f: Files) {
    && (forall d :: d in f.open || d in f.established || d in f.closed ==> d < f.nextFd)
    && (forall d :: d in f.established ==> f.closed[d] + (if d in f.open then 1 else 0) == 1)
    && (forall d :: d in f.closed ==> d in f.established)
    && (forall d :: d in f.established && d in f.open ==>
          d in f.owner && InUse(t, f.owner[d]) && t.socks[f.owner[d]].fd == d)
  }

  /** The sock whose mutex the TX thread keeps is one it has just allocated. */
  ghost predicate Held(t: Table, f: Files, held: int, tx: TxPhase) {
    held != -1 ==>
      && 0 <= held && InUse(t, held)
      && (tx.TxMain? || tx.TxDrain?)
      && t.socks[held] == Fresh().(fd := t.socks[held].fd)
      && (tx.TxMain? <==> t.socks[held].fd < 0)
      && (t.socks[held].fd >= 0 ==> t.socks[held].fd as nat !in f.established)
  }

  /** A sock waiting to be drained. */
  predicate Drainable(s: Sock) {
    (s.state == Connected || s.state == ClosingTx) && s.Buffering() && !s.local.rx
  }

  ghost predicate TxOk(t: Table, held: int, tx: TxPhase) {
    && (forall i: nat :: i in tx.q ==>
          InUse(t, i) && i != held && Drainable(t.socks[i]) && t.socks[i].fd == tx.q[i])
    && (tx.TxMain? ==> tx.q == map[])
  }

  /** A sock the RX thread has queued: not yet closed, and not read to end of file if still polled. */
  predicate Polled(s: Sock, fd: nat, rfd: set<nat>) {
    && (s.state == Connected || s.Closing())
    && s.fd == fd
    && (fd in rfd ==> !s.hist.eof)
  }

  ghost predicate RxOk(t: Table, held: int, rx: RxPhase) {
    && (forall i: nat :: i in rx.polled ==>
          InUse(t, i) && i != held && Polled(t.socks[i], rx.polled[i], rx.rfd)
          && (rx.RxScan? ==> i !in rx.todo))
    && (rx.RxScan? ==> rx.todo !! rx.closing)
    && (forall f :: f in rx.rfd ==> exists i: nat :: i in rx.polled && rx.polled[i] == f)
  }

  ghost predicate Inv(d: Dev) {
    && Lists(d.tab) && Socks(d.tab)
    && Fds(d.tab, d.files, d.held, d.tx.TxMain?, Closing(d.rx)) && Log(d.tab, d.files)
    && Held(d.tab, d.files, d.held, d.tx) && TxOk(d.tab, d.held, d.tx) && RxOk(d.tab, d.held, d.rx)
  }

  lemma InitialInv(n: nat)
    ensures Inv(Initial(n))
  {}

  // ---------------------------------------------------------------- preservation

  lemma KeepLists(t: Table, i: nat, s: Sock)
    requires Lists(t) && InUse(t, i) && s.state != Free
    ensures Lists(t.(socks := t.socks[i := s]))
  {}

  lemma KeepFds(d: Dev, i: nat, s: Sock)
    requires Fds(d.tab, d.files, d.held, d.tx.TxMain?, Closing(d.rx)) && Log(d.tab, d.files)
    requires InUse(d.tab, i) && i !in Closing(d.rx) && s.fd == d.tab.socks[i].fd
    ensures var t := d.tab.(socks := d.tab.socks[i := s]);
      Fds(t, d.files, d.held, d.tx.TxMain?, Closing(d.rx)) && Log(t, d.files)
  {}

  lemma KeepSocks(t: Table, i: nat, s: Sock)
    requires Socks(t) && InUse(t, i) && SockInv(s)
    ensures Socks(t.(socks := t.socks[i := s]))
  {
    var r := t.(socks := t.socks[i := s]);
    forall j: nat | InUse(r, j) ensures SockInv(r.socks[j]) {
      assert InUse(t, j);
    }
  }

  lemma KeepQueues(d: Dev, i: nat, s: Sock)
    requires TxOk(d.tab, d.held, d.tx) && RxOk(d.tab, d.held, d.rx)
    requires InUse(d.tab, i) && s.fd == d.tab.socks[i].fd && (i in d.tx.q ==> Drainable(s))
    requires i in d.rx.polled ==> Polled(s, d.rx.polled[i], d.rx.rfd)
    ensures var t := d.tab.(socks := d.tab.socks[i := s]); TxOk(t, d.held, d.tx) && RxOk(t, d.held, d.rx)
  {}

  /** A critical section on one in-use sock that keeps its descriptor and what the queues rely on. */
  lemma SockStepKeeps(d: Dev, i: nat, s: Sock)
    requires Inv(d) && IsSock(d, i) && i !in Closing(d.rx)
    requires SockInv(s) && s.fd == d.tab.socks[i].fd
    requires i in d.tx.q ==> Drainable(s)
    requires i in d.rx.polled ==> Polled(s, d.rx.polled[i], d.rx.rfd)
    ensures Inv(SetSock(d, i, s))
  {
    KeepLists(d.tab, i, s);
    KeepFds(d, i, s);
    KeepSocks(d.tab, i, s);
    KeepQueues(d, i, s);
  }

  /** Steps that only move a thread on. */
  lemma TxPhaseStep(d: Dev, e: Event)
    requires Inv(d) && Enabled(d, e)
    requires e.TxStartScan? || e.TxEndScan? || e.TxWake? || e.TxEndDrain?
    ensures Inv(Apply(d, e))
  {}

  lemma RxPhaseStep(d: Dev, e: Event)
    requires Inv(d) && Enabled(d, e)
    requires e.RxStartScan? || e.RxEndScan? || e.RxEndFree? || e.RxWake?
    ensures Inv(Apply(d, e))
  {
    var rx := Apply(d, e).rx;
    assert Closing(rx) == Closing(d.rx);
    assert RxOk(d.tab, d.held, rx);
  }

  lemma TxScanStep(d: Dev, e: Event)
    requires Inv(d) && e.TxScanSock? && Enabled(d, e)
    ensures Inv(Apply(d, e))
  {
    var i := e.i;
    var s := d.tab.socks[i];
    var d1 := d.(tx := TxScan(d.tx.todo - {i}, d.tx.q));
    PassStep(d, i);
    if s.state == ClosingTx && !s.Buffering() {
      HandOverStep(d1, i);
    } else if s.state != Connected && s.state != ClosingTx {
    } else if s.local == ALL && e.expired {
      ExpireStep(d1, i);
    } else if !(s.local.rx || !s.Buffering() || s.fd < 0) {
      QueueStep(d1, i);
    }
  }

  lemma PassStep(d: Dev, i: nat)
    requires Inv(d) && d.tx.TxScan?
    ensures Inv(d.(tx := TxScan(d.tx.todo - {i}, d.tx.q)))
  {
  }

  lemma QueueStep(d: Dev, i: nat)
    requires Inv(d) && d.tx.TxScan? && IsSock(d, i) && Drainable(d.tab.socks[i]) && d.tab.socks[i].fd >= 0
    ensures Inv(d.(tx := d.tx.(q := d.tx.q[i := d.tab.socks[i].fd])))
  {
  }

  lemma HandOverStep(d: Dev, i: nat)
    requires Inv(d) && d.tx.TxScan? && IsSock(d, i)
    requires d.tab.socks[i].state == ClosingTx && !d.tab.socks[i].Buffering()
    ensures Inv(SetSock(d, i, d.tab.socks[i].(state := ClosingRx)))
  {
    assert SockInv(d.tab.socks[i]);
    HandOverInv(d.tab.socks[i]);
    SockStepKeeps(d, i, d.tab.socks[i].(state := ClosingRx));
  }

  lemma ExpireStep(d: Dev, i: nat)
    requires Inv(d) && d.tx.TxScan? && IsSock(d, i)
    requires d.tab.socks[i].state == Connected || d.tab.socks[i].state == ClosingTx
    requires d.tab.socks[i].local == ALL
    ensures Inv(SetSock(d, i, Reset(d.tab.socks[i])))
  {
    assert SockInv(d.tab.socks[i]);
    CloseInv(d.tab.socks[i]);
    SockStepKeeps(d, i, Reset(d.tab.socks[i]));
  }

  lemma TxHandleStep(d: Dev, e: Event)
    requires Inv(d) && e.TxHandle? && Enabled(d, e)
    ensures Inv(Apply(d, e))
  {
    var i, p := e.i, e.p;
    assert SockInv(d.tab.socks[i]);
    ProcTxInv(d.tab.socks[i], p);
    SockStepKeeps(d, i, ProcTx(d.tab.socks[i], p));
  }

  lemma TxDrainStep(d: Dev, e: Event)
    requires Inv(d) && e.TxDrainSock? && Enabled(d, e)
    ensures Inv(Apply(d, e))
  {
    var i, w := e.i, e.w;
    var s := d.tab.socks[i];
    var d1 := d.(tx := TxPhase.TxDrain(d.tx.q - {i}));
    assert Inv(d1);
    DrainInv(s, w);
    SockStepKeeps(d1, i, Drain(s, w));
  }

  lemma ReadKeepsDrainable(s: Sock, r: ReadResult)
    requires SockInv(s) && s.state == Connected && Drainable(s)
    ensures Drainable(ProcRx(s, r))
  {}

  lemma UnpolledOk(d: Dev, i: nat)
    requires RxOk(d.tab, d.held, d.rx) && d.rx.RxWork? && i in d.rx.polled
    ensures i < |d.tab.socks| && RxOk(d.tab, d.held, Unpolled(d, i).rx)
  {
    var rx := Unpolled(d, i).rx;
    forall f | f in rx.rfd ensures exists j: nat :: j in rx.polled && rx.polled[j] == f {
      var j: nat :| j in d.rx.polled && d.rx.polled[j] == f;
      assert j in rx.polled;
    }
  }

  lemma ReadKeeps(d: Dev, i: nat, r: ReadResult)
    requires Inv(d) && IsSock(d, i) && d.rx.RxWork? && d.tab.socks[i].state == Connected
    requires i in d.rx.polled ==> !r.Eof?
    ensures Inv(SetSock(d, i, ProcRx(d.tab.socks[i], r)))
  {
    var s := d.tab.socks[i];
    ProcRxInv(s, r);
    if i in d.tx.q { ReadKeepsDrainable(s, r); }
    SockStepKeeps(d, i, ProcRx(s, r));
  }

  lemma RxReadStep(d: Dev, e: Event)
    requires Inv(d) && e.RxRead? && Enabled(d, e)
    ensures Inv(Apply(d, e))
  {
    var i, r := e.i, e.r;
    var s := d.tab.socks[i];
    if r.Read? && PeerFree(s) != 0 {
      ReadKeeps(d, i, r);
    } else {
      UnpolledOk(d, i);
      ReadKeeps(Unpolled(d, i), i, r);
    }
  }

  lemma RxCreditStep(d: Dev, e: Event)
    requires Inv(d) && e.RxSendCredit? && Enabled(d, e)
    ensures Inv(Apply(d, e))
  {
    var i := e.i;
    AdvertiseInv(d.tab.socks[i]);
    SockStepKeeps(d, i, CreditExit(d.tab.socks[i]));
  }

  lemma AllocInUse(t: Table, i: nat, s: Sock)
    requires Lists(t) && i < |t.socks| && i in t.free
    ensures !InUse(t, i)
    ensures forall j: nat :: InUse(Alloc(t, i, s), j) <==> InUse(t, j) || j == i
  {
    assert t.inuse[i] == 0;
  }

  lemma FreeInUse(t: Table, i: nat)
    requires Lists(t) && InUse(t, i)
    ensures forall j: nat :: InUse(FreeSock(t, i), j) <==> InUse(t, j) && j != i
  {
    assert t.inuse[i] == 1;
  }

  lemma AllocKeeps(t: Table, i: nat, s: Sock)
    requires Lists(t) && Socks(t) && i < |t.socks| && i in t.free && SockInv(s)
    ensures Lists(Alloc(t, i, s)) && Socks(Alloc(t, i, s))
  {
    AllocInUse(t, i, s);
    var r := Alloc(t, i, s);
    forall j: nat | InUse(r, j) ensures SockInv(r.socks[j]) {
      if j != i { assert InUse(t, j); }
    }
  }

  lemma FreeKeeps(t: Table, i: nat)
    requires Lists(t) && Socks(t) && InUse(t, i)
    ensures Lists(FreeSock(t, i)) && Socks(FreeSock(t, i))
  {
    FreeInUse(t, i);
    var r := FreeSock(t, i);
    forall j: nat | InUse(r, j) ensures SockInv(r.socks[j]) {
      assert InUse(t, j);
    }
  }

  // Descriptors under allocation, set-up, release and close. `main` tells connect_sock from handle_connect_fd.

  lemma ConnectFiles(t: Table, f: Files, closing: set<nat>, i: nat, s: Sock)
    requires Lists(t) && Fds(t, f, -1, true, closing) && Log(t, f) && i < |t.socks| && i in t.free && s.fd == -1
    ensures Fds(Alloc(t, i, s), f, i, true, closing) && Log(Alloc(t, i, s), f)
  {
    AllocInUse(t, i, s);
  }

  lemma AcceptFds(t: Table, f: Files, closing: set<nat>, i: nat, s: Sock)
    requires Lists(t) && Fds(t, f, -1, false, closing) && Log(t, f) && i < |t.socks| && i in t.free && s.fd == f.nextFd
    ensures Fds(Alloc(t, i, s), Open(f, i), i, false, closing)
  {
    AllocInUse(t, i, s);
  }

  lemma AcceptLog(t: Table, f: Files, i: nat, s: Sock)
    requires Lists(t) && Log(t, f) && i < |t.socks| && i in t.free
    ensures Log(Alloc(t, i, s), Open(f, i))
  {
    AllocInUse(t, i, s);
    assert f.nextFd !in f.established && f.nextFd !in f.closed;
  }

  lemma AllocQueues(t: Table, tx: TxPhase, rx: RxPhase, i: nat, s: Sock)
    requires Lists(t) && TxOk(t, -1, tx) && RxOk(t, -1, rx) && !rx.RxScan? && i < |t.socks| && i in t.free
    ensures TxOk(Alloc(t, i, s), i, tx) && RxOk(Alloc(t, i, s), i, rx)
  {
    AllocInUse(t, i, s);
  }

  lemma TxAllocStep(d: Dev, e: Event)
    requires Inv(d) && Enabled(d, e) && (e.TxAccept? || e.TxConnect?)
    ensures Inv(Apply(d, e))
  {
    var s := if e.TxAccept? then Fresh().(fd := d.files.nextFd) else Fresh();
    assert SockInv(s);
    AllocKeeps(d.tab, e.i, s);
    if e.TxConnect? {
      ConnectFiles(d.tab, d.files, Closing(d.rx), e.i, s);
    } else {
      AcceptFds(d.tab, d.files, Closing(d.rx), e.i, s);
      AcceptLog(d.tab, d.files, e.i, s);
    }
    AllocQueues(d.tab, d.tx, d.rx, e.i, s);
  }

  lemma SetupFiles(t: Table, f: Files, closing: set<nat>, i: nat, main: bool, s: Sock)
    requires Fds(t, f, i, main, closing) && Log(t, f) && InUse(t, i)
    requires main <==> t.socks[i].fd < 0
    requires !main ==> t.socks[i].fd as nat !in f.established
    requires s.fd == if main then f.nextFd else t.socks[i].fd
    ensures var f1 := if main then Open(f, i) else f;
      var f' := f1.(established := f.established + {s.fd as nat});
      Fds(t.(socks := t.socks[i := s]), f', -1, main, closing) && Log(t.(socks := t.socks[i := s]), f')
  {}

  lemma TxSetupStep(d: Dev, e: Event)
    requires Inv(d) && Enabled(d, e) && (e.TxAccepted? || e.TxConnected?) && e.ok
    ensures Inv(Apply(d, e))
  {
    var i, s := d.held as nat, Apply(d, e).tab.socks[d.held];
    assert SockInv(s);
    KeepLists(d.tab, i, s);
    KeepSocks(d.tab, i, s);
    SetupFiles(d.tab, d.files, Closing(d.rx), i, e.TxConnected?, s);
    SetupQueues(d.tab, d.tx, d.rx, i, s);
  }

  lemma SetupQueues(t: Table, tx: TxPhase, rx: RxPhase, i: nat, s: Sock)
    requires TxOk(t, i, tx) && RxOk(t, i, rx) && InUse(t, i)
    ensures TxOk(t.(socks := t.socks[i := s]), -1, tx) && RxOk(t.(socks := t.socks[i := s]), -1, rx)
  {}

  lemma AbortFds(t: Table, f: Files, closing: set<nat>, i: nat, main: bool)
    requires Lists(t) && Fds(t, f, i, main, closing) && InUse(t, i)
    ensures Fds(FreeSock(t, i), f.(open := f.open - Fd(t.socks[i])), -1, main, closing)
  {
    FreeInUse(t, i);
  }

  lemma AbortLog(t: Table, f: Files, i: nat)
    requires Lists(t) && Log(t, f) && InUse(t, i)
    requires t.socks[i].fd >= 0 ==> t.socks[i].fd as nat !in f.established
    requires forall d :: d in f.established && d in f.open && d in f.owner && f.owner[d] == i ==> t.socks[i].fd == d
    ensures Log(FreeSock(t, i), f.(open := f.open - Fd(t.socks[i])))
  {
    FreeInUse(t, i);
  }

  lemma AbortQueues(t: Table, tx: TxPhase, rx: RxPhase, i: nat)
    requires Lists(t) && TxOk(t, i, tx) && RxOk(t, i, rx) && InUse(t, i)
    ensures TxOk(FreeSock(t, i), -1, tx) && RxOk(FreeSock(t, i), -1, rx)
  {
    FreeInUse(t, i);
  }

  lemma TxAbortStep(d: Dev, e: Event)
    requires Inv(d) && Enabled(d, e) && (e.TxAccepted? || e.TxConnected?) && !e.ok
    ensures Inv(Apply(d, e))
  {
    FreeKeeps(d.tab, d.held);
    AbortFds(d.tab, d.files, Closing(d.rx), d.held, d.tx.TxMain?);
    AbortLog(d.tab, d.files, d.held);
    AbortQueues(d.tab, d.tx, d.rx, d.held);
    assert e.TxConnected? ==> d.files.open - Fd(d.tab.socks[d.held]) == d.files.open;
  }

  lemma FreeFiles(t: Table, f: Files, held: int, main: bool, closing: set<nat>, i: nat)
    requires Lists(t) && Fds(t, f, held, main, closing) && Log(t, f) && i in closing
    ensures Fds(FreeSock(t, i), f, held, main, closing - {i}) && Log(FreeSock(t, i), f)
  {
    FreeInUse(t, i);
  }

  lemma FreeQueues(t: Table, f: Files, held: int, tx: TxPhase, rx: RxPhase, i: nat)
    requires Lists(t) && TxOk(t, held, tx) && RxOk(t, held, rx) && Held(t, f, held, tx) && InUse(t, i)
    requires rx.RxFree? && t.socks[i].fd < 0 && t.socks[i].state == ClosingRx
    ensures TxOk(FreeSock(t, i), held, tx) && Held(FreeSock(t, i), f, held, tx)
    ensures RxOk(FreeSock(t, i), held, RxFree(rx.closing - {i}, rx.polled, rx.rfd))
  {
    FreeInUse(t, i);
  }

  lemma RxFreeStep(d: Dev, e: Event)
    requires Inv(d) && e.RxFreeSock? && Enabled(d, e)
    ensures Inv(Apply(d, e))
  {
    var i := e.i;
    FreeKeeps(d.tab, i);
    FreeFiles(d.tab, d.files, d.held, d.tx.TxMain?, Closing(d.rx), i);
    FreeQueues(d.tab, d.files, d.held, d.tx, d.rx, i);
  }

  lemma CloseFiles(t: Table, f: Files, held: int, main: bool, closing: set<nat>, i: nat)
    requires Fds(t, f, held, main, closing) && Log(t, f) && InUse(t, i) && i != held && i !in closing
    requires t.socks[i].state == ClosingRx
    ensures t.socks[i].fd >= 0
    ensures var t' := t.(socks := t.socks[i := t.socks[i].(fd := -1)]);
      var f' := f.(open := f.open - Fd(t.socks[i]), closed := f.closed + multiset(Fd(t.socks[i])));
      Fds(t', f', held, main, closing + {i}) && Log(t', f')
  {}

  lemma FdIrrelevant(s: Sock)
    requires SockInv(s)
    ensures SockInv(s.(fd := -1))
  {}

  /** The RX scan closes a handed-over sock, exactly once. */
  lemma RxCloseStep(d: Dev, e: Event)
    requires Inv(d) && e.RxScanSock? && Enabled(d, e) && d.tab.socks[e.i].state == ClosingRx
    ensures Inv(Apply(d, e))
  {
    var i, poll := e.i, e.poll;
    var s := d.tab.socks[i].(fd := -1);
    FdIrrelevant(d.tab.socks[i]);
    KeepLists(d.tab, i, s);
    KeepSocks(d.tab, i, s);
    CloseFiles(d.tab, d.files, d.held, d.tx.TxMain?, Closing(d.rx), i);
    CloseQueues(d.tab, d.held, d.tx, d.rx, i);
  }

  lemma CloseQueues(t: Table, held: int, tx: TxPhase, rx: RxPhase, i: nat)
    requires TxOk(t, held, tx) && RxOk(t, held, rx) && InUse(t, i)
    requires rx.RxScan? && i in rx.todo && t.socks[i].state == ClosingRx
    ensures var t' := t.(socks := t.socks[i := t.socks[i].(fd := -1)]);
      TxOk(t', held, tx) && RxOk(t', held, RxScan(rx.todo - {i}, rx.closing + {i}, rx.polled, rx.rfd))
  {}

  lemma PollQueues(t: Table, f: Files, held: int, rx: RxPhase, i: nat, polling: bool)
    requires RxOk(t, held, rx) && InUse(t, i) && rx.RxScan? && i in rx.todo && i != held
    requires t.socks[i].state == Connected && t.socks[i].fd >= 0 && (polling ==> !t.socks[i].hist.eof)
    requires forall j: nat :: InUse(t, j) && t.socks[j].fd >= 0 ==> Owns(f, j, t.socks[j].fd)
    ensures RxOk(t, held, RxScan(rx.todo - {i}, rx.closing, rx.polled[i := t.socks[i].fd],
                                 if polling then rx.rfd + Fd(t.socks[i]) else rx.rfd))
  {
    var fd: nat := t.socks[i].fd;
    var rx' := RxScan(rx.todo - {i}, rx.closing, rx.polled[i := fd], if polling then rx.rfd + {fd} else rx.rfd);
    forall j: nat | j in rx.polled ensures rx.polled[j] != fd {
      assert Owns(f, j, rx.polled[j]) && Owns(f, i, fd);
    }
    forall g | g in rx'.rfd ensures exists j: nat :: j in rx'.polled && rx'.polled[j] == g {
      if g in rx.rfd {
        var j: nat :| j in rx.polled && rx.polled[j] == g;
        assert j in rx'.polled && rx'.polled[j] == g;
      } else {
        assert rx'.polled[i] == g;
      }
    }
  }

  lemma PassQueues(t: Table, held: int, rx: RxPhase, i: nat)
    requires RxOk(t, held, rx) && rx.RxScan?
    ensures RxOk(t, held, RxScan(rx.todo - {i}, rx.closing, rx.polled, rx.rfd))
  {}

  /** A step that moves nothing but the scan. */
  lemma ScanMoves(d: Dev, rx: RxPhase)
    requires Inv(d) && RxOk(d.tab, d.held, rx) && Closing(rx) == Closing(d.rx)
    ensures Inv(d.(rx := rx))
  {}

  /** A sock that still sends has not met the end of its file. */
  lemma NotEnded(s: Sock)
    requires SockInv(s) && !s.local.tx
    ensures !s.hist.eof
  {}

  lemma RxQueued(d: Dev, i: nat, polling: bool)
    requires Inv(d) && d.rx.RxScan? && i in d.rx.todo && InUse(d.tab, i) && i != d.held
    requires d.tab.socks[i].state == Connected && d.tab.socks[i].fd >= 0 && (polling ==> !d.tab.socks[i].local.tx)
    ensures
      var s := d.tab.socks[i];
      Inv(d.(rx := RxScan(d.rx.todo - {i}, d.rx.closing, d.rx.polled[i := s.fd],
                          if polling then d.rx.rfd + Fd(s) else d.rx.rfd)))
  {
    var s := d.tab.socks[i];
    if polling { NotEnded(s); }
    PollQueues(d.tab, d.files, d.held, d.rx, i, polling);
    ScanMoves(d, RxScan(d.rx.todo - {i}, d.rx.closing, d.rx.polled[i := s.fd],
                        if polling then d.rx.rfd + Fd(s) else d.rx.rfd));
  }

  lemma RxPassed(d: Dev, i: nat)
    requires Inv(d) && d.rx.RxScan?
    ensures Inv(d.(rx := RxScan(d.rx.todo - {i}, d.rx.closing, d.rx.polled, d.rx.rfd)))
  {
    PassQueues(d.tab, d.held, d.rx, i);
    ScanMoves(d, RxScan(d.rx.todo - {i}, d.rx.closing, d.rx.polled, d.rx.rfd));
  }

  lemma RxPollStep(d: Dev, e: Event)
    requires Inv(d) && e.RxScanSock? && Enabled(d, e) && d.tab.socks[e.i].state != ClosingRx
    ensures Inv(Apply(d, e))
  {
    var s := d.tab.socks[e.i];
    var polling := !s.local.tx && !s.peer.rx && PeerFree(s) != 0;
    if s.state == Connected && e.poll && s.fd >= 0 && (polling || s.credit) {
      RxQueued(d, e.i, polling);
    } else {
      RxPassed(d, e.i);
    }
  }

  lemma TxStepKeepsInv(d: Dev, e: Event)
    requires Inv(d) && Enabled(d, e) && !IsRx(e)
    ensures Inv(Apply(d, e))
  {
    if e.TxScanSock? { TxScanStep(d, e); }
    else if e.TxAccept? || e.TxConnect? { TxAllocStep(d, e); }
    else if e.TxAccepted? || e.TxConnected? { if e.ok { TxSetupStep(d, e); } else { TxAbortStep(d, e); } }
    else if e.TxDrainSock? { TxDrainStep(d, e); }
    else if e.TxHandle? { TxHandleStep(d, e); }
    else { TxPhaseStep(d, e); }
  }

  lemma RxStepKeepsInv(d: Dev, e: Event)
    requires Inv(d) && Enabled(d, e) && IsRx(e)
    ensures Inv(Apply(d, e))
  {
    if e.RxScanSock? { if d.tab.socks[e.i].state == ClosingRx { RxCloseStep(d, e); } else { RxPollStep(d, e); } }
    else if e.RxFreeSock? { RxFreeStep(d, e); }
    else if e.RxRead? { RxReadStep(d, e); }
    else if e.RxSendCredit? { RxCreditStep(d, e); }
    else { RxPhaseStep(d, e); }
  }

  predicate IsRx(e: Event) {
    e.RxStartScan? || e.RxScanSock? || e.RxEndScan? || e.RxFreeSock? || e.RxEndFree? || e.RxWake?
    || e.RxRead? || e.RxSendCredit?
  }

  /** Every step of either thread keeps the invariant. */
  lemma StepKeepsInv(d: Dev, e: Event)
    requires Inv(d) && Enabled(d, e)
    ensures Inv(Apply(d, e))
  {
    if IsRx(e) { RxStepKeepsInv(d, e); } else { TxStepKeepsInv(d, e); }
  }

  // ---------------------------------------------------------------- theorems

  /** `es` is an interleaving leading from `d` to `r`. */
  predicate Run(d: Dev, es: seq<Event>, r: Dev)
    decreases |es|
  {
    if es == [] then d == r else Enabled(d, es[0]) && Run(Apply(d, es[0]), es[1..], r)
  }

  /** Reachable by some interleaving of the two threads. */
  ghost predicate Reachable(n: nat, d: Dev) {
    exists es: seq<Event> :: Run(Initial(n), es, d)
  }

  lemma {:induction false} RunKeepsInv(d: Dev, es: seq<Event>, r: Dev)
    requires Inv(d) && Run(d, es, r)
    ensures Inv(r)
    decreases |es|
  {
    if es != [] {
      StepKeepsInv(d, es[0]);
      RunKeepsInv(Apply(d, es[0]), es[1..], r);
    }
  }

  lemma ReachableInv(n: nat, d: Dev)
    requires Reachable(n, d)
    ensures Inv(d)
  {
    var es :| Run(Initial(n), es, d);
    InitialInv(n);
    RunKeepsInv(Initial(n), es, d);
  }

  /** The descriptors a step reads, writes, shuts down, sets up or closes, but for one it opens itself. */
  function Uses(d: Dev, e: Event): (fds: set<int>)
    requires Enabled(d, e)
  {
    match e
    case TxScanSock(i, expired) =>
      var s := d.tab.socks[i];
      if s.state == Connected || (s.state == ClosingTx && s.Buffering()) then {s.fd} else {}
    case TxAccepted(_, _) => {d.tab.socks[d.held].fd}
    case TxDrainSock(i, _) => {d.tab.socks[i].fd}
    case TxHandle(i, _) => {d.tab.socks[i].fd}
    case RxScanSock(i, poll) =>
      var s := d.tab.socks[i];
      if s.state == ClosingRx || (s.state == Connected && poll) then {s.fd} else {}
    case RxRead(i, _) => {d.tab.socks[i].fd}
    case RxSendCredit(i) => {d.tab.socks[i].fd}
    case _ => {}
  }

  /** The descriptor sets the threads sleep on in select. */
  function Selected(d: Dev): (fds: set<nat>) {
    (if d.tx.TxSelect? then d.tx.q.Values else {}) + (if d.rx.RxSelect? then d.rx.rfd else {})
  }

  /** Lists: each sock is on exactly one of the two lists, the free one exactly when it is free. */
  lemma ExactlyOneList(n: nat, d: Dev, i: nat)
    requires Reachable(n, d) && i < |d.tab.socks|
    ensures d.tab.free[i] + d.tab.inuse[i] == 1
    ensures d.tab.free[i] == 1 <==> d.tab.socks[i].state == Free
  {
    ReachableInv(n, d);
  }

  /** In no interleaving does a thread touch, or sleep on, a descriptor that is not open. */
  lemma NoClosedDescriptorUsed(n: nat, d: Dev, e: Event)
    requires Reachable(n, d) && Enabled(d, e)
    ensures forall fd :: fd in Uses(d, e) ==> fd >= 0 && fd as nat in d.files.open
    ensures Selected(d) <= d.files.open
  {
    ReachableInv(n, d);
    SelectedOpen(d);
  }

  lemma SelectedOpen(d: Dev)
    requires Fds(d.tab, d.files, d.held, d.tx.TxMain?, Closing(d.rx))
    requires TxOk(d.tab, d.held, d.tx) && RxOk(d.tab, d.held, d.rx)
    ensures Selected(d) <= d.files.open
  {
    forall f | f in Selected(d) ensures f in d.files.open {
      if d.tx.TxSelect? && f in d.tx.q.Values {
        var i: nat :| i in d.tx.q && d.tx.q[i] == f;
        assert Owns(d.files, i, f);
      } else {
        var i: nat :| i in d.rx.polled && d.rx.polled[i] == f;
        assert Owns(d.files, i, f);
      }
    }
  }

  /**
    Every descriptor of an established connection is closed exactly once or still open; only the RX
    scan closes one, and only a sock the TX thread has handed over, with every accepted byte written
    unless the pipe had broken.
   */
  lemma ClosedExactlyOnce(n: nat, d: Dev, e: Event)
    requires Reachable(n, d) && Enabled(d, e)
    ensures forall f :: f in d.files.established ==> d.files.closed[f] + (if f in d.files.open then 1 else 0) == 1
    ensures Apply(d, e).files.closed != d.files.closed ==>
      && e.RxScanSock? && d.tab.socks[e.i].state == ClosingRx && d.tab.socks[e.i].fd >= 0
      && Apply(d, e).files.closed == d.files.closed + multiset{d.tab.socks[e.i].fd as nat}
      && d.tab.socks[e.i].buf == []
      && (d.tab.socks[e.i].hist.written == d.tab.socks[e.i].hist.accepted || d.tab.socks[e.i].hist.epipe)
  {
    ReachableInv(n, d);
    if e.RxScanSock? {
      var s := d.tab.socks[e.i];
      assert SockInv(s);
      StreamFacts(s);
    }
  }

  /**
    Stream integrity and the shutdown rule in every interleaving: at any time the bytes written
    followed by the buffered ones are the accepted ones until the receive side is shut, and the write
    half of a descriptor is shut only once the buffer is empty.
   */
  lemma StreamsInEveryInterleaving(n: nat, d: Dev, i: nat)
    requires Reachable(n, d) && InUse(d.tab, i)
    ensures var s := d.tab.socks[i];
      && s.head <= |s.buf| <= WRITE_BUF_LENGTH
      && (!s.local.rx ==> s.hist.accepted == s.hist.written + s.buf[s.head..])
      && (s.local.rx || s.hist.wrShut || s.state == ClosingRx ==> s.buf == [])
      && (s.hist.wrShut && !s.hist.epipe ==> s.hist.written == s.hist.accepted)
  {
    ReachableInv(n, d);
    var s := d.tab.socks[i];
    assert SockInv(s);
    StreamFacts(s);
  }

  /** A call of `shutdown_local_sock` made by the step on sock `s`. */
  predicate CallsShutdownLocal(s: Sock, e: Event) {
    || (e.TxDrainSock? && e.w.EPipe?)
    || (e.TxHandle? && Accepting(s, e.p.op) && !s.Buffering() && e.p.op.w.EPipe?)
    || (e.RxRead? && e.r.Eof? && PeerFree(s) != 0)
  }

  lemma ReachableSock(n: nat, d: Dev, i: nat)
    requires Reachable(n, d) && InUse(d.tab, i)
    ensures SockInv(d.tab.socks[i])
  {
    ReachableInv(n, d);
  }

  lemma ReachableDrain(n: nat, d: Dev, e: Event)
    requires Reachable(n, d) && e.TxDrainSock? && Enabled(d, e)
    ensures Drainable(d.tab.socks[e.i])
  {
    ReachableInv(n, d);
  }

  /** The source's assertions on closing, draining and credit hold in every interleaving. */
  lemma AssertionsHold(n: nat, d: Dev, e: Event)
    requires Reachable(n, d) && Enabled(d, e)
    ensures e.TxScanSock? || e.RxScanSock? ==>
      d.tab.socks[e.i].Closing() ==> d.tab.socks[e.i].local == ALL || d.tab.socks[e.i].peer == ALL
    ensures e.TxDrainSock? ==>
      Drainable(d.tab.socks[e.i]) && d.tab.socks[e.i].head < |d.tab.socks[e.i].buf|
    ensures e.TxDrainSock? || e.TxHandle? ==>
      CallsShutdownLocal(d.tab.socks[e.i], e) ==> MayShutdownLocal(d.tab.socks[e.i])
    ensures e.RxRead? ==> !ProcRx(d.tab.socks[e.i], e.r).credit
  {
    if e.TxDrainSock? { ReachableDrain(n, d, e); }
    if e.TxScanSock? || e.RxScanSock? || e.TxDrainSock? || e.TxHandle? {
      ReachableSock(n, d, e.i);
      ShutTwice(d.tab.socks[e.i]);
    }
  }

  /** A connected sock still accepting payload is not shut on both sides. */
  lemma ShutTwice(s: Sock)
    requires SockInv(s)
    ensures s.Closing() ==> s.peer == ALL
    ensures !s.local.rx ==> MayShutdownLocal(s)
  {
  }

  /**
    The assertion that the local side is not yet shut completely is the exception: at an end of file
    it fails exactly when the guest has shut its receive side and an earlier write met EPIPE.
   */
  lemma EofAssertionIff(n: nat, d: Dev, i: nat)
    requires Reachable(n, d) && Enabled(d, RxRead(i, Eof))
    ensures var s := d.tab.socks[i]; MayShutdownLocal(s) <==> !(s.peer.rx && s.hist.epipe)
  {
    ReachableInv(n, d);
    var s := d.tab.socks[i];
    assert Flags(s) && States(s) by { assert SockInv(s); }
    assert Polled(s, d.rx.polled[i], d.rx.rfd);
  }

  lemma {:induction false} RunSnoc(d: Dev, es: seq<Event>, r: Dev, e: Event)
    requires Run(d, es, r) && Enabled(r, e)
    ensures Run(d, es + [e], Apply(r, e))
    decreases |es|
  {
    if es == [] {
      assert es + [e] == [e];
    } else {
      assert (es + [e])[1..] == es[1..] + [e];
      RunSnoc(Apply(d, es[0]), es[1..], r, e);
    }
  }

  lemma ReachStep(n: nat, d: Dev, e: Event)
    requires Reachable(n, d) && Enabled(d, e)
    ensures Reachable(n, Apply(d, e))
  {
    var es :| Run(Initial(n), es, d);
    RunSnoc(Initial(n), es, d, e);
  }

  /** A device with one sock, `s`, and an idle TX thread. */
  predicate OneSock(d: Dev, s: Sock) {
    d.tab.socks == [s] && d.tab.inuse == multiset{0} && d.held == -1 && d.tx.TxMain?
  }

  const PEERED := Fresh().(state := Connected, fd := 0, peerBufAlloc := 1)

  lemma WitnessConnect() returns (d: Dev)
    ensures Reachable(1, d) && OneSock(d, PEERED) && d.rx.RxWork?
  {
    d := Initial(1);
    assert Run(Initial(1), [], d);
    ReachStep(1, d, TxConnect(0));
    d := Apply(d, TxConnect(0));
    ReachStep(1, d, TxConnected(true, WRITE_BUF_LENGTH, 1, 0));
    d := Apply(d, TxConnected(true, WRITE_BUF_LENGTH, 1, 0));
  }

  lemma WitnessPacket(d: Dev, s: Sock, p: Packet) returns (r: Dev)
    requires Reachable(1, d) && OneSock(d, s) && s.state == Connected && OkPacket(p)
    ensures Reachable(1, r) && OneSock(r, ProcTx(s, p)) && r.rx == d.rx
  {
    ReachStep(1, d, TxHandle(0, p));
    r := Apply(d, TxHandle(0, p));
  }

  lemma WitnessScan(d: Dev, s: Sock) returns (r: Dev)
    requires Reachable(1, d) && OneSock(d, s) && d.rx.RxWork? && s.state == Connected
    requires !s.local.tx && !s.peer.rx && PeerFree(s) != 0 && s.fd == 0
    ensures Reachable(1, r) && OneSock(r, s) && r.rx.RxScan? && r.rx.todo == {} && r.rx.closing == {}
    ensures 0 in r.rx.polled && 0 in r.rx.rfd
  {
    ReachStep(1, d, RxStartScan);
    r := Apply(d, RxStartScan);
    assert r.rx.todo == {0};
    ReachStep(1, r, RxScanSock(0, true));
    r := Apply(r, RxScanSock(0, true));
  }

  lemma WitnessPoll(d: Dev, s: Sock) returns (r: Dev)
    requires Reachable(1, d) && OneSock(d, s) && d.rx.RxWork? && s.state == Connected
    requires !s.local.tx && !s.peer.rx && PeerFree(s) != 0 && s.fd == 0
    ensures Reachable(1, r) && OneSock(r, s) && r.rx.RxWork? && 0 in r.rx.polled && 0 in r.rx.rfd
  {
    r := WitnessScan(d, s);
    ReachStep(1, r, RxEndScan);
    r := Apply(r, RxEndScan);
    ReachStep(1, r, RxWake);
    r := Apply(r, RxWake);
  }

  const BROKEN_WRITE := Packet(1, 0, Rw([0], EPipe))
  const SHUT_RECEIVE := Packet(1, 0, Shutdown(Shut(true, false), false))

  lemma WitnessSocks()
    ensures var s := ProcTx(PEERED, BROKEN_WRITE);
      && s.state == Connected && s.local == Shut(true, false) && s.peer == NONE && s.fd == 0 && PeerFree(s) == 1
      && (var r := ProcTx(s, SHUT_RECEIVE); r.state == Connected && r.local == ALL && r.fd == 0 && PeerFree(r) == 1)
  {}

  /** And that does happen: a run in which the assertion fails. */
  lemma EofAssertionCanFail() returns (d: Dev)
    ensures Reachable(1, d) && Enabled(d, RxRead(0, Eof))
    ensures PeerFree(d.tab.socks[0]) != 0 && !MayShutdownLocal(d.tab.socks[0])
  {
    WitnessSocks();
    d := WitnessConnect();
    d := WitnessPacket(d, PEERED, BROKEN_WRITE);
    var s := ProcTx(PEERED, BROKEN_WRITE);
    d := WitnessPoll(d, s);
    d := WitnessPacket(d, s, SHUT_RECEIVE);
    assert d.tab.socks[0] == ProcTx(s, SHUT_RECEIVE);
  }

  // ---------------------------------------------------------------- lock order

  /**
    TX gives up on a sock it has just allocated. It then wants list_rwlock for writing with the sock's
    mutex held, against the documented order.
   */
  predicate GivesUp(e: Event) { (e.TxConnected? || e.TxAccepted?) && !e.ok }

  predicate SetsUp(e: Event) { (e.TxConnected? || e.TxAccepted?) && e.ok }

  /** A scan under way has the held sock still to do: it began after the sock was allocated. */
  predicate HeldTodo(d: Dev) { d.held >= 0 && d.rx.RxScan? ==> d.held in d.rx.todo }

  lemma HeldTodoStep(d: Dev, e: Event)
    requires Inv(d) && HeldTodo(d) && Enabled(d, e)
    ensures HeldTodo(Apply(d, e))
  {
    if IsRx(e) { HeldTodoRx(d, e); } else { HeldTodoTx(d, e); }
  }

  lemma HeldTodoTx(d: Dev, e: Event)
    requires HeldTodo(d) && Enabled(d, e) && !IsRx(e)
    ensures HeldTodo(Apply(d, e))
  {
    assert Apply(d, e).rx == d.rx;
  }

  lemma HeldTodoRx(d: Dev, e: Event)
    requires Held(d.tab, d.files, d.held, d.tx) && HeldTodo(d) && Enabled(d, e) && IsRx(e)
    ensures HeldTodo(Apply(d, e))
  {
    assert Apply(d, e).held == d.held;
  }

  lemma {:induction false} RunHeldTodo(d: Dev, es: seq<Event>, r: Dev)
    requires Inv(d) && HeldTodo(d) && Run(d, es, r)
    ensures HeldTodo(r)
    decreases |es|
  {
    if es != [] {
      StepKeepsInv(d, es[0]);
      HeldTodoStep(d, es[0]);
      RunHeldTodo(Apply(d, es[0]), es[1..], r);
    }
  }

  lemma ReachableHeldTodo(n: nat, d: Dev)
    requires Reachable(n, d)
    ensures HeldTodo(d)
  {
    var es :| Run(Initial(n), es, d);
    InitialInv(n);
    RunHeldTodo(Initial(n), es, d);
  }

  /** RX scans under the read lock and waits for the held sock's mutex, or will. */
  predicate Locked(d: Dev) { d.held >= 0 && d.rx.RxScan? && d.held in d.rx.todo }

  lemma LockedStep(d: Dev, e: Event)
    requires Locked(d) && Enabled(d, e) && !SetsUp(e)
    ensures e.RxScanSock? && Locked(Apply(d, e)) && Apply(d, e).rx.todo == d.rx.todo - {e.i} && e.i in d.rx.todo
  {
  }

  predicate NoSetUp(es: seq<Event>) { forall k :: 0 <= k < |es| ==> !SetsUp(es[k]) }

  lemma {:induction false} LockedForGood(d: Dev, es: seq<Event>, r: Dev)
    requires Locked(d) && Run(d, es, r) && NoSetUp(es)
    ensures Locked(r) && |es| < |d.rx.todo|
    decreases |es|
  {
    if es == [] {
      assert d.held in d.rx.todo;
    } else {
      LockedStep(d, es[0]);
      LockedForGood(Apply(d, es[0]), es[1..], r);
    }
  }

  /** Unless the set-up succeeds after all, at most m more steps follow, none of them giving up. */
  ghost predicate StopsWithin(d: Dev, m: nat) {
    forall es, r :: Run(d, es, r) && NoSetUp(es) ==> |es| <= m && forall e :: Enabled(r, e) ==> !GivesUp(e)
  }

  ghost predicate Deadlocks(d: Dev) { exists m: nat :: StopsWithin(d, m) }

  lemma ScanDeadlocks(d: Dev)
    requires Locked(d)
    ensures Deadlocks(d)
  {
    forall es, r | Run(d, es, r) && NoSetUp(es)
      ensures |es| <= |d.rx.todo| && forall e :: Enabled(r, e) ==> !GivesUp(e)
    {
      LockedForGood(d, es, r);
    }
    assert StopsWithin(d, |d.rx.todo|);
  }

  lemma FreeToGiveUp(d: Dev)
    requires Held(d.tab, d.files, d.held, d.tx) && d.held >= 0 && !d.rx.RxScan?
    ensures exists e :: Enabled(d, e) && GivesUp(e)
  {
    var e := if d.tx.TxMain? then TxConnected(false, 0, 0, 0) else TxAccepted(false, 0);
    assert Enabled(d, e) && GivesUp(e);
  }

  /**
    Whether a failed set-up can be undone: in every interleaving TX, holding a new sock that it must give up,
    and RX deadlock exactly when RX is in its scan at that moment.
   */
  lemma DeadlockIff(n: nat, d: Dev)
    requires Reachable(n, d) && d.held >= 0
    ensures Deadlocks(d) <==> d.rx.RxScan?
  {
    ReachableInv(n, d);
    ReachableHeldTodo(n, d);
    if d.rx.RxScan? {
      ScanDeadlocks(d);
    } else {
      FreeToGiveUp(d);
      assert Run(d, [], d) && NoSetUp([]);
    }
  }

  lemma ConnectBegun() returns (d: Dev)
    ensures Reachable(1, d) && d.held == 0 && d.tab.inuse == multiset{0} && d.rx.RxWork?
  {
    d := Initial(1);
    assert Run(Initial(1), [], d);
    ReachStep(1, d, TxConnect(0));
    d := Apply(d, TxConnect(0));
  }

  /** And that does happen: one sock being connected, one scan begun, and nothing but success can go on. */
  lemma DeadlockReached() returns (d: Dev)
    ensures Reachable(1, d) && d.held == 0 && d.rx.RxScan?
    ensures forall e :: Enabled(d, e) ==> SetsUp(e)
  {
    d := ConnectBegun();
    ReachStep(1, d, RxStartScan);
    d := Apply(d, RxStartScan);
    assert d.rx.todo == {0} && Locked(d);
    forall e | Enabled(d, e) && !SetsUp(e) ensures false {
      LockedStep(d, e);
    }
  }
}
