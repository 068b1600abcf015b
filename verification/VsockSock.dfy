/**
  One virtio-vsock socket (src/lib/pci_virtio_sock.c): the write buffer, the credit
  counters and the shutdown flags.

  `Sock` is the value of a `struct pci_vtsock_sock` together with a `History` of what the
  guest and the file descriptor have seen. The functions below are the source's functions on
  that value; class `Socket` is the mutable struct, whose methods are proved against them.
 */
module VsockSock {
  import opened Iovec
  import opened Prelude

  const WRITE_BUF_LENGTH: nat := 131072
  const U32: nat := 0x1_0000_0000

  /** Reduction to a uint32_t. */
  function Mod32(x: int): (r: nat)
    ensures r < U32
  {
    x % 0x1_0000_0000
  }

  datatype SockState = Free | Connecting | Connected | ClosingTx | ClosingRx

  /** A pair of shutdown flags. */
  datatype Shut = Shut(rx: bool, tx: bool)
  const NONE := Shut(false, false)
  const ALL := Shut(true, true)

  function Union(a: Shut, b: Shut): (c: Shut) {
    Shut(a.rx || b.rx, a.tx || b.tx)
  }

  /** What has happened on a connection, in unbounded counters and whole byte streams. */
  datatype History = History(
    accepted: seq<bv8>,  // payload taken from the guest: written at once or buffered
    written: seq<bv8>,   // bytes the file descriptor has taken
    lost: seq<bv8>,      // bytes discarded from the buffer after EPIPE
    fwd: nat,            // fwd_cnt before reduction modulo 2^32
    adv: nat,            // value of fwd in the last header sent to the guest
    sent: nat,           // rx_cnt before reduction modulo 2^32
    epipe: bool,         // a write failed with EPIPE while connected
    eof: bool,           // a read returned end of file while connected
    wrShut: bool,        // SHUT_WR or SHUT_RDWR has been issued on the descriptor
    rdShut: bool)        // SHUT_RD or SHUT_RDWR has been issued on the descriptor

  const NO_HISTORY := History([], [], [], 0, 0, 0, false, false, false, false)

  /** `buf` is write_buf[..write_buf_tail]; `head` is write_buf_head. */
  datatype Sock = Sock(
    state: SockState, fd: int, local: Shut, peer: Shut,
    bufAlloc: nat, fwdCnt: nat, credit: bool,
    rxCnt: nat, peerBufAlloc: nat, peerFwdCnt: nat,
    buf: seq<bv8>, head: nat, hist: History)
  {
    predicate Buffering() { |buf| > 0 }
    predicate Closing() { state == ClosingTx || state == ClosingRx }
  }

  // ---------------------------------------------------------------- operations

  /** What every operation but an accepted payload leaves alone or only moves forward. */
  predicate Kept(s: Sock, r: Sock) {
    && r.fd == s.fd && r.bufAlloc == s.bufAlloc
    && r.hist.accepted == s.hist.accepted
    && (s.hist.adv <= s.hist.fwd ==> s.hist.adv <= r.hist.adv)
    && s.hist.fwd <= r.hist.fwd
    && (s.local.rx ==> r.local.rx)
    && (s.Closing() ==> r.Closing())
    && (s.state == Connected ==> r.state == Connected || r.Closing())
  }

  /** `alloc_sock`: the fields of a freshly allocated sock. */
  function Fresh(): (s: Sock) {
    Sock(Connecting, -1, NONE, NONE, WRITE_BUF_LENGTH, 0, false, 0, 0, 0, [], 0, NO_HISTORY)
  }

  /** Sending any header: it carries the current fwd_cnt. */
  function Advertise(s: Sock): (r: Sock)
    ensures Kept(s, r) && r.hist.eof == s.hist.eof
  {
    s.(hist := s.hist.(adv := s.hist.fwd))
  }

  /** `shutdown_peer_local_fd`: reflect the peer's shutdown, deferring SHUT_WR while buffering. */
  function ShutdownPeer(s: Sock, mode: Shut): (r: Sock)
    ensures Kept(s, r) && r.hist.eof == s.hist.eof
  {
    var peer' := Union(s.peer, mode);
    var setRx, setTx := peer'.rx && !s.peer.rx, peer'.tx && !s.peer.tx;
    var wr := setTx && !s.Buffering();
    s.(peer := peer',
       local := Union(s.local, Shut(wr, setRx)),
       hist := s.hist.(wrShut := s.hist.wrShut || wr, rdShut := s.hist.rdShut || setRx))
  }

  /** `close_sock`. */
  function Close(s: Sock): (r: Sock)
    ensures Kept(s, r) && r.hist.eof == s.hist.eof
  {
    ShutdownPeer(s, ALL).(state := ClosingTx)
  }

  /** The assertion at the top of `shutdown_local_sock`. */
  predicate MayShutdownLocal(s: Sock) {
    s.state == Connected ==> s.local != ALL
  }

  /** `shutdown_local_sock`: only a connected sock is affected; RX discards the buffer. */
  function ShutdownLocal(s: Sock, mode: Shut): (r: Sock)
    ensures Kept(s, r) && r.hist.eof == s.hist.eof
  {
    if s.state != Connected then s
    else
      var local' := Union(s.local, mode);
      if local'.rx && s.Buffering() && s.head <= |s.buf| then
        s.(local := local', buf := [], head := 0, hist := s.hist.(lost := s.hist.lost + s.buf[s.head..]))
      else
        s.(local := local')
  }

  datatype WriteResult = Wrote(n: nat) | EPipe | EAgain | WriteError

  /** An EPIPE, as both write paths treat it: RX shutdown, then an OP_SHUTDOWN reply. */
  function BrokenPipe(s: Sock): (r: Sock)
    ensures Kept(s, r) && r.hist.eof == s.hist.eof
  {
    var s1 := ShutdownLocal(s, Shut(true, false));
    Advertise(if s.state == Connected then s1.(hist := s1.hist.(epipe := true)) else s1)
  }

  /** The end of `buffer_drain`: an emptied buffer updates fwd_cnt and performs the deferred SHUT_WR. */
  function Emptied(s: Sock): (r: Sock)
    ensures Kept(s, r) && r.hist.eof == s.hist.eof
  {
    var late := s.peer.tx && !s.local.rx;
    s.(fwdCnt := Mod32(s.fwdCnt + s.head), buf := [], head := 0, credit := true,
       local := Union(s.local, Shut(late, false)),
       hist := s.hist.(fwd := s.hist.fwd + s.head, wrShut := s.hist.wrShut || late))
  }

  /** The sock between the write and what is done about an emptied buffer. */
  function Advanced(s: Sock, n: nat): (r: Sock)
    requires s.head + n <= |s.buf|
  { s.(head := s.head + n, hist := s.hist.(written := s.hist.written + s.buf[s.head..s.head + n])) }

  /** `buffer_drain` after a write of `n` bytes. */
  function Drained(s: Sock, n: nat): (r: Sock)
    requires s.head + n <= |s.buf|
    ensures Kept(s, r) && r.hist.eof == s.hist.eof
  {
    var s1 := Advanced(s, n);
    if s1.head == |s.buf| then Emptied(s1) else s1
  }

  /** `buffer_drain` with the outcome of its write. */
  function Drain(s: Sock, w: WriteResult): (r: Sock)
    requires s.head <= |s.buf| && (w.Wrote? ==> w.n <= |s.buf| - s.head)
    ensures Kept(s, r) && r.hist.eof == s.hist.eof
  {
    match w
    case EPipe => BrokenPipe(s)
    case EAgain => s
    case WriteError => Close(Advertise(s))
    case Wrote(n) => Drained(s, n)
  }

  /** Bytes a write has taken. */
  function Taken(w: WriteResult): (n: nat) {
    if w.Wrote? then w.n else 0
  }

  datatype Rc = Update | NoUpdate | Refused

  /** `buffer_write` of a well-formed remainder. */
  function BufferWrite(s: Sock, data: seq<bv8>): (r: (Sock, Rc))
    ensures r.0.fd == s.fd && r.0.bufAlloc == s.bufAlloc && r.0.hist.eof == s.hist.eof && r.0.state == s.state
  {
    if |data| > WRITE_BUF_LENGTH - |s.buf| then (s, Refused)
    else (s.(buf := s.buf + data, hist := s.hist.(accepted := s.hist.accepted + data)), NoUpdate)
  }

  /** The descriptor took the first `n` bytes of a packet at once. */
  function DirectWrite(s: Sock, data: seq<bv8>, n: nat): (r: Sock)
    requires n <= |data|
  {
    s.(fwdCnt := Mod32(s.fwdCnt + n),
       hist := s.hist.(fwd := s.hist.fwd + n, accepted := s.hist.accepted + data[..n],
                       written := s.hist.written + data[..n]))
  }

  /** `handle_write` of a well-formed packet with the outcome of its writev. */
  function HandleWrite(s: Sock, data: seq<bv8>, w: WriteResult): (r: (Sock, Rc))
    requires w.Wrote? ==> w.n <= |data|
    ensures r.0.fd == s.fd && r.0.bufAlloc == s.bufAlloc && r.0.hist.eof == s.hist.eof && r.0.state == s.state
  {
    if s.Buffering() then BufferWrite(s, data)
    else if w.EPipe? then (BrokenPipe(s), NoUpdate)
    else if w.WriteError? then (s, Refused)
    else
      var n := Taken(w);
      var s1 := DirectWrite(s, data, n);
      if n == |data| then (s1, Update) else BufferWrite(s1, data[n..])
  }

  /** The `do_rst` exit of `pci_vtsock_proc_tx`. */
  function Reset(s: Sock): (r: Sock)
    ensures Kept(s, r) && r.hist.eof == s.hist.eof
  {
    Close(Advertise(s))
  }

  /** A packet for an existing sock. The flags of a shutdown are all the bits of the header field. */
  datatype Op =
    | Invalid | Request | Response | Rst
    | Shutdown(flags: Shut, reserved: bool)
    | Rw(data: seq<bv8>, w: WriteResult)
    | CreditUpdate | CreditRequest | Unknown

  datatype Packet = Packet(bufAlloc: nat, fwdCnt: nat, op: Op)

  predicate OkPacket(p: Packet) {
    p.bufAlloc < U32 && p.fwdCnt < U32
    && (p.op.Rw? && p.op.w.Wrote? ==> p.op.w.n <= |p.op.data|)
  }

  /** A payload that reaches `handle_write`. */
  predicate Accepting(s: Sock, op: Op) {
    op.Rw? && s.state == Connected && !s.peer.tx && !s.local.rx
  }

  /** OP_SHUTDOWN to a connected sock: the last half to go is answered with a reset. */
  function OnShutdown(s: Sock, flags: Shut): (r: Sock)
    ensures Kept(s, r) && r.hist.eof == s.hist.eof
  {
    var s1 := ShutdownPeer(s, flags);
    if s1.peer == ALL then Reset(s1) else s1
  }

  /** OP_RW to a sock that still accepts payload. */
  function OnRw(s: Sock, data: seq<bv8>, w: WriteResult): (r: Sock)
    requires w.Wrote? ==> w.n <= |data|
    ensures r.fd == s.fd && r.bufAlloc == s.bufAlloc && r.hist.eof == s.hist.eof
    ensures s.state == Connected ==> r.state == Connected || r.Closing()
  {
    var (s1, rc) := HandleWrite(s, data, w);
    match rc
    case Refused => Reset(s1)
    case Update => s1.(credit := true)
    case NoUpdate => s1
  }

  /** The switch of `pci_vtsock_proc_tx`. */
  function Dispatch(s: Sock, op: Op): (r: Sock)
    requires op.Rw? && op.w.Wrote? ==> op.w.n <= |op.data|
    ensures r.fd == s.fd && r.bufAlloc == s.bufAlloc && r.hist.eof == s.hist.eof
    ensures s.state == Connected ==> r.state == Connected || r.Closing()
    ensures Accepting(s, op) || Kept(s, r)
  {
    match op
    case Invalid => Reset(s)
    case Request => Reset(s)
    case Response => if s.state == Connecting then s.(state := Connected) else Reset(s)
    case Rst => Close(s)
    case Shutdown(flags, reserved) =>
      if s.state != Connected || reserved || flags == NONE then Reset(s) else OnShutdown(s, flags)
    case Rw(data, w) => if Accepting(s, op) then OnRw(s, data, w) else Reset(s)
    case CreditUpdate => if s.state != Connected then Reset(s) else s
    case CreditRequest => if s.state != Connected then Reset(s) else s.(credit := true)
    case Unknown => s
  }

  /** Every header updates what is known of the guest's buffer. */
  function Heard(s: Sock, p: Packet): (r: Sock) { s.(peerBufAlloc := p.bufAlloc, peerFwdCnt := p.fwdCnt) }

  /** `pci_vtsock_proc_tx` once `lookup_sock` has found `s`. */
  function ProcTx(s: Sock, p: Packet): (r: Sock)
    requires OkPacket(p)
    ensures r.fd == s.fd && r.bufAlloc == s.bufAlloc && r.hist.eof == s.hist.eof
    ensures s.state == Connected ==> r.state == Connected || r.Closing()
    ensures Accepting(s, p.op) || Kept(s, r)
  {
    Dispatch(Heard(s, p), p.op)
  }

  /** Room the guest has left for us, in the source's 32-bit arithmetic. */
  function PeerFree(s: Sock): (r: nat) {
    Mod32(s.peerBufAlloc - Mod32(s.rxCnt - s.peerFwdCnt))
  }

  datatype ReadResult = Read(n: nat) | Eof | ReadAgain | ReadError

  /** The `credit_update` exit of `pci_vtsock_proc_rx`, also `send_credit_update`. */
  function CreditExit(s: Sock): (r: Sock)
    ensures Kept(s, r) && r.hist.eof == s.hist.eof
  {
    if s.credit then Advertise(s).(credit := false) else s
  }

  /** `pci_vtsock_proc_rx` with a descriptor chain at hand and the outcome of its readv. */
  function ProcRx(s: Sock, r: ReadResult): (s': Sock)
    ensures Kept(s, s')
    ensures !r.Eof? ==> s'.hist.eof == s.hist.eof
  { RxInto(s, PeerFree(s), r) }

  /** With `free` bytes of room: nothing is read without any, and never more than it. */
  function RxInto(s: Sock, free: nat, r: ReadResult): (s': Sock)
    ensures Kept(s, s')
    ensures !r.Eof? ==> s'.hist.eof == s.hist.eof
  {
    if free == 0 then CreditExit(s)
    else match r
      case ReadAgain => CreditExit(s)
      case ReadError => Close(Advertise(s).(credit := false))
      case Eof =>
        var s1 := ShutdownLocal(s, Shut(false, true));
        Advertise(s1.(credit := false, hist := s1.hist.(eof := s1.hist.eof || s.state == Connected)))
      case Read(n) => Received(Advertise(s).(credit := false), Min(n, free))
  }

  function Received(s: Sock, n: nat): (r: Sock)
    ensures Kept(s, r) && r.hist.eof == s.hist.eof
  { s.(rxCnt := Mod32(s.rxCnt + n), hist := s.hist.(sent := s.hist.sent + n)) }

  // ---------------------------------------------------------------- invariants

  /** Buffer geometry and the 32-bit counters. */
  predicate Counters(s: Sock) {
    && s.head <= |s.buf| <= WRITE_BUF_LENGTH
    && (s.Buffering() ==> s.head < |s.buf|)
    && s.bufAlloc <= WRITE_BUF_LENGTH
    && s.fwdCnt == Mod32(s.hist.fwd)
    && s.rxCnt == Mod32(s.hist.sent)
    && s.hist.adv <= s.hist.fwd
  }

  /** Written, then buffered, then discarded bytes make up the accepted ones, in order. */
  predicate Whole(buf: seq<bv8>, head: nat, accepted: seq<bv8>, written: seq<bv8>, lost: seq<bv8>) {
    head <= |buf| && accepted == written + buf[head..] + lost
  }

  /** No byte is lost, duplicated or reordered, and the counters measure the streams. */
  predicate Stream(s: Sock) {
    && Whole(s.buf, s.head, s.hist.accepted, s.hist.written, s.hist.lost)
    && (!s.hist.epipe ==> s.hist.lost == [] && |s.hist.written| == s.hist.fwd + s.head)
  }

  /** The shutdown flags say exactly what happened on the connection. */
  predicate Flags(s: Sock) {
    && (s.local.rx <==> s.hist.epipe || (s.peer.tx && !s.Buffering()))
    && (s.local.tx <==> s.peer.rx || s.hist.eof)
    && (s.local.rx ==> !s.Buffering())
    && (s.hist.wrShut ==> s.peer.tx && s.local.rx)
    && (s.local.rx && !s.hist.epipe ==> s.hist.wrShut)
    && (s.hist.rdShut <==> s.peer.rx)
  }

  /** The states agree with the flags. */
  predicate States(s: Sock) {
    && (s.Closing() ==> s.peer == ALL)
    && (s.state == ClosingRx ==> !s.Buffering())
    && (s.state == Connected || s.state == Connecting ==> s.peer != ALL)
    && (s.state == Connecting ==> s.local == NONE && s.peer == NONE && s.hist.accepted == [] && s.hist.fwd == 0)
    && (s.state == Connected && !s.Buffering() && s.hist.adv < s.hist.fwd ==> s.credit)
  }

  /** Everything that holds of a sock on the in-use list between critical sections. */
  predicate SockInv(s: Sock) {
    s.state != Free && Counters(s) && Stream(s) && Flags(s) && States(s)
  }

  // ---------------------------------------------------------------- preservation

  lemma CloseInv(s: Sock)
    requires SockInv(s)
    ensures SockInv(Close(s)) && SockInv(Reset(s))
    ensures Close(s).state == ClosingTx && Close(s).fd == s.fd
  {}

  /** Draining keeps the stream whole and issues a deferred SHUT_WR only on an empty buffer. */
  lemma DrainInv(s: Sock, w: WriteResult)
    requires SockInv(s) && s.Buffering() && (s.state == Connected || s.state == ClosingTx)
    requires w.Wrote? ==> w.n <= |s.buf| - s.head
    ensures SockInv(Drain(s, w))
  {
    match w
    case Wrote(n) => DrainedInv(s, n);
    case EPipe => BrokenPipeInv(s);
    case EAgain =>
    case WriteError => CloseInv(s);
  }

  lemma WholeDrained(buf: seq<bv8>, head: nat, n: nat, accepted: seq<bv8>, written: seq<bv8>, lost: seq<bv8>)
    requires Whole(buf, head, accepted, written, lost) && head + n <= |buf|
    ensures Whole(buf, head + n, accepted, written + buf[head..head + n], lost)
  {
    assert buf[head..] == buf[head..head + n] + buf[head + n..];
  }

  lemma AdvancedInv(s: Sock, n: nat)
    requires SockInv(s) && s.Buffering() && s.head + n < |s.buf|
    ensures SockInv(Advanced(s, n))
  {
    WholeDrained(s.buf, s.head, n, s.hist.accepted, s.hist.written, s.hist.lost);
  }

  lemma EmptiedStream(s: Sock)
    requires SockInv(s) && s.Buffering()
    ensures var r := Emptied(Advanced(s, |s.buf| - s.head)); Counters(r) && Stream(r)
  {
    var n := |s.buf| - s.head;
    WholeDrained(s.buf, s.head, n, s.hist.accepted, s.hist.written, s.hist.lost);
    CounterMod(s.hist.fwd, |s.buf|);
    var r := Emptied(Advanced(s, n));
    assert s.buf[|s.buf|..] == [] == r.buf[r.head..];
  }

  lemma EmptiedFlags(s: Sock)
    requires SockInv(s) && s.Buffering() && (s.state == Connected || s.state == ClosingTx)
    ensures var r := Emptied(Advanced(s, |s.buf| - s.head)); Flags(r) && States(r)
  {
  }

  lemma DrainedInv(s: Sock, n: nat)
    requires SockInv(s) && s.Buffering() && (s.state == Connected || s.state == ClosingTx) && n <= |s.buf| - s.head
    ensures SockInv(Drained(s, n))
  {
    if s.head + n < |s.buf| {
      AdvancedInv(s, n);
    } else {
      EmptiedStream(s);
      EmptiedFlags(s);
    }
  }

  lemma CounterMod(a: nat, b: nat)
    ensures Mod32(Mod32(a) + b) == Mod32(a + b)
  {}

  /** A header may go out at any time, and once it has no credit update is owed. */
  lemma AdvertiseInv(s: Sock)
    requires SockInv(s)
    ensures SockInv(Advertise(s).(credit := false)) && SockInv(CreditExit(s))
  {
    var r := Advertise(s).(credit := false);
    AdvertiseCounters(s);
    assert Whole(r.buf, r.head, r.hist.accepted, r.hist.written, r.hist.lost);
    assert Stream(r);
    assert Flags(r);
    assert States(r);
  }

  lemma AdvertiseCounters(s: Sock)
    requires Counters(s)
    ensures Counters(Advertise(s).(credit := false))
  {
  }

  lemma ReceivedCounters(s: Sock, n: nat)
    requires Counters(s)
    ensures Counters(Received(s, n))
  {
    CounterMod(s.hist.sent, n);
  }

  lemma ReceivedInv(s: Sock, n: nat)
    requires SockInv(s)
    ensures SockInv(Received(s, n))
  {
    ReceivedCounters(s, n);
    var r := Received(s, n);
    assert Stream(r) && Flags(r) && States(r);
  }

  lemma BufferWriteInv(s: Sock, data: seq<bv8>)
    requires Counters(s) && Stream(s) && Flags(s) && s.state == Connected
    requires !s.peer.tx && !s.local.rx
    requires s.Buffering() || data != []
    requires |data| <= WRITE_BUF_LENGTH - |s.buf|
    ensures SockInv(BufferWrite(s, data).0)
  {
    var h := s.hist;
    calc {
      h.accepted + data;
      { assert h.lost == []; }
      h.written + s.buf[s.head..] + data;
      { assert (s.buf + data)[s.head..] == s.buf[s.head..] + data; }
      h.written + (s.buf + data)[s.head..] + h.lost;
    }
  }

  /** What a refused or completed direct write leaves behind: all but the credit obligation. */
  lemma DirectWriteInv(s: Sock, data: seq<bv8>, n: nat)
    requires SockInv(s) && s.state == Connected && !s.Buffering() && n <= |data|
    requires !s.hist.epipe
    ensures var s1 := DirectWrite(s, data, n); Counters(s1) && Stream(s1) && Flags(s1)
  {
    CounterMod(s.hist.fwd, n);
  }

  lemma BrokenPipeInv(s: Sock)
    requires SockInv(s)
    ensures SockInv(BrokenPipe(s)) && BrokenPipe(s).state == s.state
  {
    if s.state != Connected {
      AdvertiseKeeps(s);
    } else {
      var h, r := s.hist, BrokenPipe(s);
      assert r.buf == [] && r.head == 0;
      assert r.buf[r.head..] == [];
      assert h.accepted == h.written + [] + r.hist.lost by {
        if s.Buffering() {
          assert h.lost == [] && r.hist.lost == [] + s.buf[s.head..];
        }
      }
      assert Counters(r) && Stream(r);
      assert r.local.rx && r.hist.epipe;
      assert Flags(r);
    }
  }

  lemma AdvertiseKeeps(s: Sock)
    requires SockInv(s)
    ensures SockInv(Advertise(s))
  {}

  lemma RefusedInv(s: Sock)
    requires Counters(s) && Stream(s) && Flags(s) && s.state == Connected
    ensures SockInv(Reset(s)) && Reset(s).fd == s.fd
  {}

  lemma RwInv(s: Sock, data: seq<bv8>, w: WriteResult)
    requires SockInv(s) && s.state == Connected && !s.peer.tx && !s.local.rx
    requires w.Wrote? ==> w.n <= |data|
    ensures SockInv(OnRw(s, data, w))
  {
    if s.Buffering() {
      if |data| <= WRITE_BUF_LENGTH - |s.buf| { BufferWriteInv(s, data); } else { RefusedInv(s); }
    } else if w.EPipe? {
      BrokenPipeInv(s);
    } else if w.WriteError? {
      RefusedInv(s);
    } else {
      var n := Taken(w);
      DirectWriteInv(s, data, n);
      var s1 := DirectWrite(s, data, n);
      if |data| - n > WRITE_BUF_LENGTH { RefusedInv(s1); }
      else if n < |data| { BufferWriteInv(s1, data[n..]); }
      else { assert SockInv(s1.(credit := true)); }
    }
  }

  lemma ShutdownPeerInv(s: Sock, mode: Shut)
    requires SockInv(s) && s.state == Connected
    ensures SockInv(OnShutdown(s, mode))
  {
    var s1 := ShutdownPeer(s, mode);
    assert Counters(s1) && Stream(s1);
    assert Flags(s1);
    if s1.peer == ALL {
      RefusedInv(s1);
    } else {
      assert States(s1);
    }
  }

  lemma DispatchInv(s: Sock, op: Op)
    requires SockInv(s) && (s.state == Connected || s.state == Connecting)
    requires op.Rw? && op.w.Wrote? ==> op.w.n <= |op.data|
    ensures SockInv(Dispatch(s, op))
  {
    if Accepting(s, op) {
      RwInv(s, op.data, op.w);
    } else if op.Shutdown? && s.state == Connected {
      ShutdownPeerInv(s, op.flags);
      CloseInv(s);
    } else {
      CloseInv(s);
      assert SockInv(s.(credit := true));
    }
  }

  lemma HeaderInv(s: Sock, p: Packet)
    requires SockInv(s)
    ensures SockInv(Heard(s, p))
  {
  }

  lemma ProcTxInv(s: Sock, p: Packet)
    requires SockInv(s) && (s.state == Connected || s.state == Connecting) && OkPacket(p)
    ensures SockInv(ProcTx(s, p))
  {
    HeaderInv(s, p);
    DispatchInv(Heard(s, p), p.op);
  }

  lemma EofInv(s: Sock)
    requires SockInv(s) && s.state == Connected
    ensures var s1 := ShutdownLocal(s, Shut(false, true));
      SockInv(Advertise(s1.(credit := false, hist := s1.hist.(eof := true))))
  {
    assert !(s.local.rx && s.Buffering());
  }

  lemma RxIntoInv(s: Sock, free: nat, r: ReadResult)
    requires SockInv(s) && s.state == Connected
    ensures SockInv(RxInto(s, free, r))
  {
    AdvertiseInv(s);
    match r
    case Eof => EofInv(s);
    case Read(n) => ReceivedInv(Advertise(s).(credit := false), Min(n, free));
    case ReadError => CloseInv(Advertise(s).(credit := false));
    case ReadAgain =>
  }

  lemma ProcRxInv(s: Sock, r: ReadResult)
    requires SockInv(s) && s.state == Connected
    ensures SockInv(ProcRx(s, r))
  {
    RxIntoInv(s, PeerFree(s), r);
  }

  // ---------------------------------------------------------------- runs of one connection

  /** One critical section on an in-use sock, by whichever thread. */
  datatype SockStep =
    | TxPacket(p: Packet)       // TX thread, pci_vtsock_proc_tx
    | TxDrain(w: WriteResult)   // TX thread, buffer_drain
    | TxExpire                  // TX thread, RST deadline passed
    | TxHandOver                // TX thread, CLOSING_TX to CLOSING_RX
    | RxData(r: ReadResult)     // RX thread, pci_vtsock_proc_rx
    | RxCredit                  // RX thread, send_credit_update

  predicate StepEnabled(s: Sock, e: SockStep) {
    match e
    case TxPacket(p) => (s.state == Connected || s.state == Connecting) && OkPacket(p)
    case TxDrain(w) =>
      && s.Buffering() && s.head <= |s.buf| && (s.state == Connected || s.state == ClosingTx)
      && (w.Wrote? ==> w.n <= |s.buf| - s.head)
    case TxExpire => s.state == Connected && s.local == ALL
    case TxHandOver => s.state == ClosingTx && !s.Buffering()
    case RxData(_) => s.state == Connected
    case RxCredit => s.state == Connected && s.credit
  }

  function SockApply(s: Sock, e: SockStep): (t: Sock)
    requires StepEnabled(s, e)
    ensures t.fd == s.fd && t.bufAlloc == s.bufAlloc
    ensures (e.TxPacket? && Accepting(s, e.p.op)) || Kept(s, t)
  {
    match e
    case TxPacket(p) => ProcTx(s, p)
    case TxDrain(w) => Drain(s, w)
    case TxExpire => Reset(s)
    case TxHandOver => s.(state := ClosingRx)
    case RxData(r) => ProcRx(s, r)
    case RxCredit => CreditExit(s)
  }

  lemma HandOverInv(s: Sock)
    requires SockInv(s) && s.state == ClosingTx && !s.Buffering()
    ensures SockInv(s.(state := ClosingRx))
  {}

  lemma StepInv(s: Sock, e: SockStep)
    requires SockInv(s) && StepEnabled(s, e)
    ensures SockInv(SockApply(s, e))
  {
    match e
    case TxPacket(p) => ProcTxInv(s, p);
    case TxDrain(w) => DrainInv(s, w);
    case RxData(r) => ProcRxInv(s, r);
    case TxExpire => CloseInv(s);
    case TxHandOver => HandOverInv(s);
    case RxCredit => AdvertiseInv(s);
  }

  /** `es` leads from `s` to `t`. */
  predicate SockRun(s: Sock, es: seq<SockStep>, t: Sock)
    decreases |es|
  {
    if es == [] then s == t
    else StepEnabled(s, es[0]) && SockRun(SockApply(s, es[0]), es[1..], t)
  }

  /** A connection as `connect_sock` or `handle_connect_fd` leaves it. */
  predicate Established(s: Sock) {
    && (s.state == Connecting || s.state == Connected) && s.fd >= 0
    && s.bufAlloc <= WRITE_BUF_LENGTH && s.peerBufAlloc < U32 && s.peerFwdCnt < U32
    && s == Fresh().(state := s.state, fd := s.fd, bufAlloc := s.bufAlloc,
                     peerBufAlloc := s.peerBufAlloc, peerFwdCnt := s.peerFwdCnt)
  }

  lemma {:induction false} RunInv(s: Sock, es: seq<SockStep>, t: Sock)
    requires SockInv(s) && SockRun(s, es, t)
    ensures SockInv(t)
    decreases |es|
  {
    if es != [] {
      StepInv(s, es[0]);
      RunInv(SockApply(s, es[0]), es[1..], t);
    }
  }

  // ---------------------------------------------------------------- what each step does

  /** The payload reaches the descriptor at once: the sock accepts payload and nothing is waiting ahead of it. */
  predicate Direct(s: Sock, op: Op) { Accepting(s, op) && !s.Buffering() }

  /** A packet that ends a connection, read off the packet and the sock before it. */
  predicate Fatal(s: Sock, op: Op) {
    match op
    case Invalid => true
    case Request => true
    case Response => s.state != Connecting
    case Rst => true
    case Shutdown(flags, reserved) =>
      || s.state != Connected || reserved || (!flags.rx && !flags.tx)
      || ((s.peer.rx || flags.rx) && (s.peer.tx || flags.tx))
    case Rw(data, w) =>
      || s.state != Connected || s.peer.tx || s.local.rx
      || (s.Buffering() && |s.buf| + |data| > WRITE_BUF_LENGTH)
      || (!s.Buffering() && w.WriteError?)
      || (!s.Buffering() && w.EAgain? && |data| > WRITE_BUF_LENGTH)
      || (!s.Buffering() && w.Wrote? && |data| > w.n + WRITE_BUF_LENGTH)
    case CreditUpdate => s.state != Connected
    case CreditRequest => s.state != Connected
    case Unknown => false
  }

  /** The state and the guest's shut halves after a packet. */
  predicate After(s: Sock, op: Op, r: Sock) {
    && r.state == (if Fatal(s, op) then ClosingTx else if op.Response? then Connected else s.state)
    && (r.peer.rx <==> s.peer.rx || Fatal(s, op) || (op.Shutdown? && op.flags.rx))
    && (r.peer.tx <==> s.peer.tx || Fatal(s, op) || (op.Shutdown? && op.flags.tx))
  }

  lemma RwAfter(s: Sock, data: seq<bv8>, w: WriteResult)
    requires Accepting(s, Rw(data, w)) && (w.Wrote? ==> w.n <= |data|)
    ensures After(s, Rw(data, w), OnRw(s, data, w))
  {
    assert HandleWrite(s, data, w).0.peer == s.peer;
    assert HandleWrite(s, data, w).1.Refused? <==> Fatal(s, Rw(data, w));
  }

  lemma DispatchAfter(s: Sock, op: Op)
    requires s.state == Connected || s.state == Connecting
    requires op.Rw? && op.w.Wrote? ==> op.w.n <= |op.data|
    ensures After(s, op, Dispatch(s, op))
  {
    if Accepting(s, op) {
      RwAfter(s, op.data, op.w);
    } else {
      assert Reset(s).peer == Close(s).peer == ALL;
    }
  }

  /**
    A packet ends a connection exactly when it is fatal, and shuts the halves it names; its header is taken
    over as the guest's buffer size and count.
   */
  lemma PacketExact(s: Sock, p: Packet)
    requires (s.state == Connected || s.state == Connecting) && OkPacket(p)
    ensures After(s, p.op, ProcTx(s, p))
    ensures ProcTx(s, p).peerBufAlloc == p.bufAlloc && ProcTx(s, p).peerFwdCnt == p.fwdCnt
  {
    DispatchAfter(Heard(s, p), p.op);
    DispatchPeer(Heard(s, p), p.op);
  }

  /** A packet that carries no payload and is not fatal does nothing else but what its name says. */
  lemma PacketElse(s: Sock, p: Packet)
    requires (s.state == Connected || s.state == Connecting) && OkPacket(p)
    requires !Fatal(s, p.op) && !p.op.Rw? && !p.op.Shutdown?
    ensures
      var r := ProcTx(s, p);
      && (r.credit <==> s.credit || p.op.CreditRequest?)
      && r == s.(peerBufAlloc := p.bufAlloc, peerFwdCnt := p.fwdCnt, credit := r.credit, state := r.state)
  {
  }

  /** How many bytes the descriptor says, in this step, that it took. */
  function WroteBy(s: Sock, e: SockStep): (n: nat) {
    match e
    case TxPacket(p) => if Direct(s, p.op) && p.op.w.Wrote? then p.op.w.n else 0
    case TxDrain(w) => if w.Wrote? then w.n else 0
    case _ => 0
  }

  /** The payload a step takes over from the guest: all of it, or what was written before the rest was refused. */
  function AcceptedBy(s: Sock, e: SockStep): (data: seq<bv8>)
    requires StepEnabled(s, e)
  {
    if e.TxPacket? && e.p.op.Rw? && !Fatal(s, e.p.op) && !(Direct(s, e.p.op) && e.p.op.w.EPipe?) then e.p.op.data
    else if e.TxPacket? && e.p.op.Rw? && Direct(s, e.p.op) && e.p.op.w.Wrote? then e.p.op.data[..e.p.op.w.n]
    else []
  }

  /** How many bytes a step reads for the guest. */
  function SentBy(s: Sock, e: SockStep): (n: nat) {
    if e.RxData? && e.r.Read? then Min(e.r.n, PeerFree(s)) else 0
  }

  /** A write of this step meets EPIPE on a connected sock. */
  predicate Breaks(s: Sock, e: SockStep) {
    || (e.TxPacket? && Direct(s, e.p.op) && e.p.op.w.EPipe?)
    || (e.TxDrain? && e.w.EPipe? && s.state == Connected)
  }

  /** A step that sends the guest a header, whatever its operation. */
  predicate Sends(s: Sock, e: SockStep) {
    match e
    case TxPacket(p) => (Fatal(s, p.op) && !p.op.Rst?) || Breaks(s, e)
    case TxDrain(w) => w.EPipe? || w.WriteError?
    case TxExpire => true
    case TxHandOver => false
    case RxData(r) => if PeerFree(s) == 0 || r.ReadAgain? then s.credit else true
    case RxCredit => true
  }

  /** The connection's own account of a step agrees with what the guest sent and the descriptor answered. */
  predicate Accounts(s: Sock, e: SockStep, t: Sock)
    requires StepEnabled(s, e)
  {
    && |t.hist.written| == |s.hist.written| + WroteBy(s, e)
    && t.hist.accepted == s.hist.accepted + AcceptedBy(s, e)
    && t.hist.sent == s.hist.sent + SentBy(s, e)
  }

  lemma StepAccounts(s: Sock, e: SockStep)
    requires StepEnabled(s, e)
    ensures Accounts(s, e, SockApply(s, e))
  {
    match e
    case TxPacket(p) => PacketAccounts(s, p);
    case TxDrain(w) => DrainAccounts(s, w);
    case RxData(r) => ReadAccounts(s, PeerFree(s), r);
    case _ => ShutBytes(s, ALL);
  }

  lemma DrainAccounts(s: Sock, w: WriteResult)
    requires StepEnabled(s, TxDrain(w))
    ensures Accounts(s, TxDrain(w), Drain(s, w))
  {
    match w
    case EPipe => LocalBytes(s, Shut(true, false));
    case WriteError => ShutBytes(Advertise(s), ALL);
    case _ =>
  }

  lemma ReadAccounts(s: Sock, free: nat, r: ReadResult)
    ensures
      var t := RxInto(s, free, r);
      && t.hist.written == s.hist.written && t.hist.accepted == s.hist.accepted
      && t.hist.sent == s.hist.sent + (if r.Read? then Min(r.n, free) else 0)
  {
    ReadBytes(s, free, r);
  }

  lemma LocalBytes(s: Sock, mode: Shut)
    ensures
      var t := ShutdownLocal(s, mode);
      SameBytes(s, t) && t.hist.adv == s.hist.adv && t.hist.eof == s.hist.eof && t.state == s.state
  {
  }

  /** Every outcome of a read, by what it leaves of the account. */
  lemma ReadBytes(s: Sock, free: nat, r: ReadResult)
    ensures
      var t := RxInto(s, free, r);
      && SameBytes(s.(credit := t.credit), t.(hist := t.hist.(sent := s.hist.sent)))
      && t.hist.sent == s.hist.sent + (if r.Read? then Min(r.n, free) else 0)
      && t.hist.adv == (if free == 0 || r.ReadAgain? then if s.credit then s.hist.fwd else s.hist.adv else s.hist.fwd)
  {
    if free != 0 {
      match r
      case Eof => LocalBytes(s, Shut(false, true));
      case ReadError => ShutBytes(Advertise(s).(credit := false), ALL);
      case _ =>
    }
  }

  lemma PacketAccounts(s: Sock, p: Packet)
    requires (s.state == Connected || s.state == Connecting) && OkPacket(p)
    ensures Accounts(s, TxPacket(p), ProcTx(s, p))
  {
    if Accepting(s, p.op) {
      RwAccount(Heard(s, p), p.op.data, p.op.w);
      HandedOn(s, p);
    } else {
      ElseBytes(Heard(s, p), p.op);
    }
  }

  /** Shutting halves and sending headers move no bytes. */
  predicate SameBytes(s: Sock, t: Sock) {
    && t.hist.written == s.hist.written && t.hist.accepted == s.hist.accepted && t.hist.sent == s.hist.sent
    && t.hist.fwd == s.hist.fwd && t.hist.epipe == s.hist.epipe && t.credit == s.credit
  }

  lemma ShutBytes(s: Sock, mode: Shut)
    ensures SameBytes(s, ShutdownPeer(s, mode)) && ShutdownPeer(s, mode).hist.adv == s.hist.adv
    ensures SameBytes(s, Close(s)) && Close(s).hist.adv == s.hist.adv
    ensures SameBytes(s, Reset(s)) && Reset(s).hist.adv == s.hist.fwd
  {
  }

  lemma OnShutdownBytes(s: Sock, flags: Shut)
    ensures SameBytes(s, OnShutdown(s, flags))
    ensures OnShutdown(s, flags).hist.adv == if Union(s.peer, flags) == ALL then s.hist.fwd else s.hist.adv
  {
    ShutBytes(s, flags);
    ShutBytes(ShutdownPeer(s, flags), ALL);
  }

  lemma ElseBytes(s: Sock, op: Op)
    requires !Accepting(s, op) && (s.state == Connected || s.state == Connecting)
    requires op.Rw? && op.w.Wrote? ==> op.w.n <= |op.data|
    ensures
      var t := Dispatch(s, op);
      && SameBytes(s.(credit := t.credit), t) && (t.credit <==> s.credit || AsksCredit(s, op))
      && t.hist.adv == (if Fatal(s, op) && !op.Rst? then s.hist.fwd else s.hist.adv)
  {
    ShutBytes(s, ALL);
    if op.Shutdown? { OnShutdownBytes(s, op.flags); }
  }

  lemma RwAccount(s: Sock, data: seq<bv8>, w: WriteResult)
    requires Accepting(s, Rw(data, w)) && (w.Wrote? ==> w.n <= |data|)
    ensures
      var t, op := OnRw(s, data, w), Rw(data, w);
      && |t.hist.written| == |s.hist.written| + (if !s.Buffering() && w.Wrote? then w.n else 0)
      && t.hist.sent == s.hist.sent
      && t.hist.accepted == s.hist.accepted +
           if !Fatal(s, op) && !(!s.Buffering() && w.EPipe?) then data
           else if !s.Buffering() && w.Wrote? then data[..w.n] else []
  {
    if s.Buffering() {
      BufferAccount(s, data);
    } else if w.EPipe? {
      LocalBytes(s, Shut(true, false));
    } else if w.WriteError? {
      ShutBytes(s, ALL);
    } else {
      DirectAccount(s, data, w);
    }
  }

  lemma BufferAccount(s: Sock, data: seq<bv8>)
    ensures
      var (t, rc) := BufferWrite(s, data);
      && t.hist.written == s.hist.written && t.hist.sent == s.hist.sent
      && (rc.Refused? <==> |s.buf| + |data| > WRITE_BUF_LENGTH) && (rc.Refused? ==> t == s)
      && (!rc.Refused? ==> t.hist.accepted == s.hist.accepted + data)
    ensures SameBytes(s, Reset(s))
  {
    ShutBytes(s, ALL);
  }

  lemma DirectAccount(s: Sock, data: seq<bv8>, w: WriteResult)
    requires Accepting(s, Rw(data, w)) && !s.Buffering() && (w.Wrote? || w.EAgain?) && (w.Wrote? ==> w.n <= |data|)
    ensures
      var t, n := OnRw(s, data, w), if w.Wrote? then w.n else 0;
      && |t.hist.written| == |s.hist.written| + n && t.hist.sent == s.hist.sent
      && t.hist.accepted == s.hist.accepted + if |data| > n + WRITE_BUF_LENGTH then data[..n] else data
  {
    var n := Taken(w);
    var s1 := DirectWrite(s, data, n);
    BufferAccount(s1, data[n..]);
    assert s.hist.accepted + data[..n] + data[n..] == s.hist.accepted + data;
    if n == |data| { assert data[..n] == data; }
  }

  /** What a step tells of the two ends: a broken pipe, an end of file, a header sent. */
  predicate Notes(s: Sock, e: SockStep, t: Sock) {
    && (t.hist.epipe <==> s.hist.epipe || Breaks(s, e))
    && (t.hist.eof <==> s.hist.eof || (e.RxData? && e.r.Eof? && PeerFree(s) != 0))
    && t.hist.adv == (if Sends(s, e) then t.hist.fwd else s.hist.adv)
  }

  lemma StepNotes(s: Sock, e: SockStep)
    requires StepEnabled(s, e)
    ensures Notes(s, e, SockApply(s, e))
  {
    match e
    case TxPacket(p) => PacketNotes(s, p);
    case TxDrain(w) => DrainNotes(s, w);
    case RxData(r) => ReadNotes(s, PeerFree(s), r);
    case _ => ShutBytes(s, ALL);
  }

  lemma ReadNotes(s: Sock, free: nat, r: ReadResult)
    requires s.state == Connected
    ensures
      var t := RxInto(s, free, r);
      && t.hist.epipe == s.hist.epipe && (t.hist.eof <==> s.hist.eof || (r.Eof? && free != 0))
      && t.hist.adv == (if (if free == 0 || r.ReadAgain? then s.credit else true) then t.hist.fwd else s.hist.adv)
  {
    ReadBytes(s, free, r);
    if r.Eof? { LocalBytes(s, Shut(false, true)); }
  }

  lemma DrainNotes(s: Sock, w: WriteResult)
    requires StepEnabled(s, TxDrain(w))
    ensures Notes(s, TxDrain(w), Drain(s, w))
  {
    match w
    case EPipe => LocalBytes(s, Shut(true, false));
    case WriteError => ShutBytes(Advertise(s), ALL);
    case _ =>
  }

  lemma RwNotes(s: Sock, data: seq<bv8>, w: WriteResult)
    requires Accepting(s, Rw(data, w)) && (w.Wrote? ==> w.n <= |data|)
    ensures
      var t, broken := OnRw(s, data, w), !s.Buffering() && w.EPipe?;
      && (t.hist.epipe <==> s.hist.epipe || broken)
      && t.hist.adv == (if Fatal(s, Rw(data, w)) || broken then t.hist.fwd else s.hist.adv)
  {
    assert HandleWrite(s, data, w).1.Refused? <==> Fatal(s, Rw(data, w));
  }

  lemma PacketNotes(s: Sock, p: Packet)
    requires (s.state == Connected || s.state == Connecting) && OkPacket(p)
    ensures Notes(s, TxPacket(p), ProcTx(s, p))
  {
    if Accepting(s, p.op) {
      RwNotes(Heard(s, p), p.op.data, p.op.w);
      HandedOn(s, p);
    } else {
      ElseBytes(Heard(s, p), p.op);
    }
  }

  /** A packet after which an update is owed: a request for one, or a payload that went whole. */
  predicate AsksCredit(s: Sock, op: Op) {
    || (op.CreditRequest? && s.state == Connected)
    || (Direct(s, op) && (if op.w.Wrote? then op.w.n == |op.data| else op.w.EAgain? && op.data == []))
  }

  lemma RwCredit(s: Sock, data: seq<bv8>, w: WriteResult)
    requires Accepting(s, Rw(data, w)) && (w.Wrote? ==> w.n <= |data|)
    ensures OnRw(s, data, w).credit <==> s.credit || AsksCredit(s, Rw(data, w))
  {
  }

  lemma PacketCredit(s: Sock, p: Packet)
    requires (s.state == Connected || s.state == Connecting) && OkPacket(p)
    ensures ProcTx(s, p).credit <==> s.credit || AsksCredit(s, p.op)
  {
    if Accepting(s, p.op) {
      RwCredit(Heard(s, p), p.op.data, p.op.w);
      HandedOn(s, p);
    } else {
      ElseBytes(Heard(s, p), p.op);
    }
  }

  /** The buffer becomes empty because all of it was written. */
  predicate Drains(s: Sock, e: SockStep) { e.TxDrain? && e.w.Wrote? && s.head + e.w.n == |s.buf| }

  /** An update is owed from the first reason for one to the next header RX sends, and at no other time. */
  lemma StepCredit(s: Sock, e: SockStep)
    requires StepEnabled(s, e)
    ensures SockApply(s, e).credit <==>
      && !e.RxData? && !e.RxCredit?
      && (s.credit || Drains(s, e) || (e.TxPacket? && AsksCredit(s, e.p.op)))
  {
    if e.TxPacket? { PacketCredit(s, e.p); }
  }

  /** The state after each step that is not a packet. */
  lemma StepState(s: Sock, e: SockStep)
    requires StepEnabled(s, e) && !e.TxPacket?
    ensures SockApply(s, e).state ==
      match e
      case TxDrain(w) => if w.WriteError? then ClosingTx else s.state
      case TxExpire => ClosingTx
      case TxHandOver => ClosingRx
      case RxData(r) => if r.ReadError? && PeerFree(s) != 0 then ClosingTx else Connected
      case _ => Connected
  {
  }

  /** What the descriptor took, what was taken over from the guest, and what was read for it. */
  datatype Account = Account(written: nat, accepted: seq<bv8>, sent: nat)

  function AccountBy(s: Sock, e: SockStep): (a: Account)
    requires StepEnabled(s, e)
  { Account(WroteBy(s, e), AcceptedBy(s, e), SentBy(s, e)) }

  function Plus(a: Account, b: Account): (c: Account) {
    Account(a.written + b.written, a.accepted + b.accepted, a.sent + b.sent)
  }

  function HistAccount(s: Sock): (a: Account) { Account(|s.hist.written|, s.hist.accepted, s.hist.sent) }

  /** Over a run. */
  function AccountOf(s: Sock, es: seq<SockStep>): (a: Account)
    decreases |es|
  {
    if es == [] || !StepEnabled(s, es[0]) then Account(0, [], 0)
    else Plus(AccountBy(s, es[0]), AccountOf(SockApply(s, es[0]), es[1..]))
  }

  lemma PlusAssoc(a: Account, b: Account, c: Account)
    ensures Plus(Plus(a, b), c) == Plus(a, Plus(b, c))
  {
  }

  lemma StepAdds(s: Sock, e: SockStep)
    requires StepEnabled(s, e)
    ensures HistAccount(SockApply(s, e)) == Plus(HistAccount(s), AccountBy(s, e))
  {
    StepAccounts(s, e);
  }

  lemma {:induction false} RunAccounts(s: Sock, es: seq<SockStep>, t: Sock)
    requires SockRun(s, es, t)
    ensures HistAccount(t) == Plus(HistAccount(s), AccountOf(s, es))
    decreases |es|
  {
    if es != [] {
      var r := SockApply(s, es[0]);
      StepAdds(s, es[0]);
      RunAccounts(r, es[1..], t);
      PlusAssoc(HistAccount(s), AccountBy(s, es[0]), AccountOf(r, es[1..]));
    }
  }

  /**
    What the descriptor has taken is a prefix of the payload accepted from the guest, as long as its answers
    say; and what the guest was sent is as much as was read.
   */
  lemma StreamAccounted(s: Sock, es: seq<SockStep>, t: Sock)
    requires Established(s) && SockRun(s, es, t)
    ensures
      var a := AccountOf(s, es);
      && a.written <= |a.accepted| && t.hist.written == a.accepted[..a.written] && t.rxCnt == Mod32(a.sent)
      && t.head <= |t.buf| && (!t.local.rx ==> t.buf[t.head..] == a.accepted[a.written..])
  {
    NoHistory(s);
    RunInv(s, es, t);
    RunAccounts(s, es, t);
    assert HistAccount(t) == AccountOf(s, es);
    SentCounted(t);
    Cuts(t, AccountOf(s, es).accepted, AccountOf(s, es).written);
  }

  lemma NoHistory(s: Sock)
    requires Established(s)
    ensures SockInv(s) && s.hist.written == s.hist.accepted == [] && s.hist.sent == 0
  {
  }

  lemma SentCounted(t: Sock)
    requires SockInv(t)
    ensures t.rxCnt == Mod32(t.hist.sent) && t.head <= |t.buf|
  {
  }

  lemma Cuts(t: Sock, accepted: seq<bv8>, n: nat)
    requires SockInv(t) && t.hist.accepted == accepted && |t.hist.written| == n
    ensures n <= |accepted| && t.hist.written == accepted[..n]
    ensures t.head <= |t.buf| && (!t.local.rx ==> t.buf[t.head..] == accepted[n..])
  {
    StreamFacts(t);
    Cut(accepted, t.hist.written, t.buf[t.head..]);
  }

  /** Where a stream is cut by how much of it was written. */
  lemma Cut(accepted: seq<bv8>, written: seq<bv8>, rest: seq<bv8>)
    ensures written <= accepted ==> written == accepted[..|written|]
    ensures accepted == written + rest ==> rest == accepted[|written|..]
  {
  }

  /**
    Byte stream integrity, over every run of one connection. Until the sock shuts its receive
    side, what the descriptor took followed by the buffered bytes is exactly what the guest was
    told had been accepted, and the 32-bit counters measure both. Once the write side of the
    descriptor has been shut, or the sock handed over for closing, nothing is left behind
    unless the far end had broken the pipe.
   */
  lemma StreamIntegrity(s: Sock, es: seq<SockStep>, t: Sock)
    requires Established(s) && SockRun(s, es, t)
    ensures t.head <= |t.buf| <= WRITE_BUF_LENGTH
    ensures !t.local.rx ==>
      && t.hist.accepted == t.hist.written + t.buf[t.head..]
      && Mod32(|t.hist.accepted|) == Mod32(t.fwdCnt + |t.buf|)
      && Mod32(|t.hist.written|) == Mod32(t.fwdCnt + t.head)
    ensures t.hist.written <= t.hist.accepted
    ensures t.local.rx ==> t.buf == []
    ensures t.hist.wrShut || t.state == ClosingRx ==>
      t.buf == [] && (t.hist.written == t.hist.accepted || t.hist.epipe)
    ensures t.local.rx && !t.hist.epipe ==> t.hist.wrShut
  {
    RunInv(s, es, t);
    StreamFacts(t);
  }

  lemma StreamFacts(t: Sock)
    requires SockInv(t)
    ensures !t.local.rx ==>
      && t.hist.accepted == t.hist.written + t.buf[t.head..]
      && Mod32(|t.hist.accepted|) == Mod32(t.fwdCnt + |t.buf|)
      && Mod32(|t.hist.written|) == Mod32(t.fwdCnt + t.head)
    ensures t.hist.written <= t.hist.accepted
    ensures !t.Buffering() && !t.hist.epipe ==> t.hist.written == t.hist.accepted
  {
    CounterMod(t.hist.fwd, |t.buf|);
    CounterMod(t.hist.fwd, t.head);
  }

  /** No credit update is ever forgotten: an idle connected sock whose guest is behind owes one. */
  lemma CreditUpdateOwed(s: Sock, es: seq<SockStep>, t: Sock)
    requires Established(s) && SockRun(s, es, t)
    requires t.state == Connected && t.buf == [] && t.hist.adv != t.hist.fwd
    ensures t.credit
  {
    RunInv(s, es, t);
  }

  // ---------------------------------------------------------------- credit

  /** Room the guest computes for itself from the last header it was sent, in 32-bit arithmetic. */
  function GuestFree(s: Sock): (r: nat) {
    Mod32(s.bufAlloc - Mod32(Mod32(|s.hist.accepted|) - Mod32(s.hist.adv)))
  }

  /** No payload beyond the guest's credit, and no answer of the descriptor but a count, EAGAIN or EPIPE. */
  predicate Obeys(s: Sock, e: SockStep) {
    e.TxPacket? && e.p.op.Rw? ==> |e.p.op.data| <= GuestFree(s) && !e.p.op.w.WriteError?
  }

  predicate ObedientRun(s: Sock, es: seq<SockStep>, t: Sock)
    decreases |es|
  {
    if es == [] then s == t
    else StepEnabled(s, es[0]) && Obeys(s, es[0]) && ObedientRun(SockApply(s, es[0]), es[1..], t)
  }

  /** What an obedient guest can have in flight. */
  predicate WithinCredit(s: Sock) {
    !s.local.rx && !s.Closing() ==> |s.hist.accepted| <= s.hist.adv + s.bufAlloc
  }

  lemma GuestFreeExact(s: Sock)
    requires SockInv(s) && WithinCredit(s) && !s.local.rx && !s.Closing()
    ensures GuestFree(s) == s.hist.adv + s.bufAlloc - |s.hist.accepted|
  {
    assert |s.hist.accepted| == s.hist.fwd + |s.buf|;
    CounterDiff(|s.hist.accepted|, s.hist.adv);
  }

  /** A 32-bit difference of two counters less than 2^32 apart is their true distance. */
  lemma CounterDiff(a: nat, b: nat)
    requires b <= a < b + U32
    ensures Mod32(Mod32(a) - Mod32(b)) == a - b
  {}

  /** `buffer_write` never refuses a packet within the guest's credit. */
  lemma NeverRefused(s: Sock, data: seq<bv8>, w: WriteResult)
    requires SockInv(s) && WithinCredit(s) && s.state == Connected && !s.local.rx
    requires |data| <= GuestFree(s) && !w.WriteError? && (w.Wrote? ==> w.n <= |data|)
    ensures !HandleWrite(s, data, w).1.Refused?
    ensures WithinCredit(HandleWrite(s, data, w).0)
  {
    GuestFreeExact(s);
    assert |s.hist.accepted| == s.hist.fwd + |s.buf|;
  }

  lemma WithinCreditStep(s: Sock, e: SockStep)
    requires SockInv(s) && WithinCredit(s) && StepEnabled(s, e) && Obeys(s, e)
    ensures WithinCredit(SockApply(s, e))
  {
    if e.TxPacket? && Accepting(s, e.p.op) {
      RwWithinCredit(s, e.p);
    } else {
      assert Kept(s, SockApply(s, e));
    }
  }

  lemma RwWithinCredit(s: Sock, p: Packet)
    requires SockInv(s) && WithinCredit(s) && OkPacket(p) && Accepting(s, p.op)
    requires |p.op.data| <= GuestFree(s) && !p.op.w.WriteError?
    ensures WithinCredit(ProcTx(s, p))
  {
    HeaderInv(s, p);
    HeaderCredit(s, p);
    OnRwWithinCredit(Heard(s, p), p.op.data, p.op.w);
    HandedOn(s, p);
  }

  lemma HeaderCredit(s: Sock, p: Packet)
    ensures GuestFree(Heard(s, p)) == GuestFree(s) && (WithinCredit(s) ==> WithinCredit(Heard(s, p)))
  {
  }

  lemma HandedOn(s: Sock, p: Packet)
    requires OkPacket(p) && Accepting(s, p.op)
    ensures ProcTx(s, p) == OnRw(Heard(s, p), p.op.data, p.op.w)
  {
  }

  lemma OnRwWithinCredit(s: Sock, data: seq<bv8>, w: WriteResult)
    requires SockInv(s) && WithinCredit(s) && s.state == Connected && !s.local.rx
    requires |data| <= GuestFree(s) && !w.WriteError? && (w.Wrote? ==> w.n <= |data|)
    ensures WithinCredit(OnRw(s, data, w))
  {
    NeverRefused(s, data, w);
  }

  lemma {:induction false} ObedientInv(s: Sock, es: seq<SockStep>, t: Sock)
    requires SockInv(s) && WithinCredit(s) && ObedientRun(s, es, t)
    ensures SockInv(t) && WithinCredit(t)
    decreases |es|
  {
    if es != [] {
      StepInv(s, es[0]);
      WithinCreditStep(s, es[0]);
      ObedientInv(SockApply(s, es[0]), es[1..], t);
    }
  }

  /**
    Flow control is sound: after any run in which the guest stayed within the last advertised
    fwd_cnt + buf_alloc (modulo 2^32), the next packet within that credit is not refused.
   */
  lemma FlowControl(s: Sock, es: seq<SockStep>, t: Sock, data: seq<bv8>, w: WriteResult)
    requires Established(s) && ObedientRun(s, es, t)
    requires t.state == Connected && !t.local.rx && |data| <= GuestFree(t)
    requires !w.WriteError? && (w.Wrote? ==> w.n <= |data|)
    ensures !HandleWrite(t, data, w).1.Refused?
  {
    ObedientInv(s, es, t);
    NeverRefused(t, data, w);
  }

  // ---------------------------------------------------------------- the guest's own buffer

  /** What the guest has forwarded, `g`, is what it last said, and its buffer holds the rest of what was sent. */
  predicate Room(s: Sock, g: nat) {
    s.peerFwdCnt == Mod32(g) && s.peerBufAlloc < U32 && g <= s.hist.sent <= g + s.peerBufAlloc
  }

  /** Then the 32-bit room is the true one. */
  lemma RoomIs(s: Sock, g: nat)
    requires s.rxCnt == Mod32(s.hist.sent) && Room(s, g)
    ensures PeerFree(s) == g + s.peerBufAlloc - s.hist.sent
  {
    CounterDiff(s.hist.sent, g);
  }

  lemma ReadSends(s: Sock, free: nat, r: ReadResult)
    ensures
      var t := RxInto(s, free, r);
      && t.peerFwdCnt == s.peerFwdCnt && t.peerBufAlloc == s.peerBufAlloc
      && s.hist.sent <= t.hist.sent <= s.hist.sent + free
  {
  }

  /** A read never overruns it. */
  lemma ReadFits(s: Sock, g: nat, r: ReadResult)
    requires s.rxCnt == Mod32(s.hist.sent) && Room(s, g)
    ensures PeerFree(s) == g + s.peerBufAlloc - s.hist.sent
    ensures Room(ProcRx(s, r), g)
  {
    RoomIs(s, g);
    ReadSends(s, PeerFree(s), r);
  }

  /** Nothing but a packet's header and a read touches this side of the credit. */
  predicate SamePeer(s: Sock, t: Sock) {
    t.peerFwdCnt == s.peerFwdCnt && t.peerBufAlloc == s.peerBufAlloc && t.hist.sent == s.hist.sent
  }

  lemma RwPeer(s: Sock, data: seq<bv8>, w: WriteResult)
    requires w.Wrote? ==> w.n <= |data|
    ensures SamePeer(s, OnRw(s, data, w))
  {
    assert SamePeer(s, HandleWrite(s, data, w).0);
  }

  lemma DispatchPeer(s: Sock, op: Op)
    requires op.Rw? && op.w.Wrote? ==> op.w.n <= |op.data|
    ensures SamePeer(s, Dispatch(s, op))
  {
    if Accepting(s, op) {
      RwPeer(s, op.data, op.w);
    } else {
      assert SamePeer(s, Reset(s)) && SamePeer(s, Close(s));
      if op.Shutdown? { assert SamePeer(s, OnShutdown(s, op.flags)); }
    }
  }

  lemma DrainPeer(s: Sock, w: WriteResult)
    requires s.head <= |s.buf| && (w.Wrote? ==> w.n <= |s.buf| - s.head)
    ensures SamePeer(s, Drain(s, w))
  {
  }

  /** One step; a packet comes with the guest's own unbounded count of what it has forwarded by then. */
  datatype GuestStep = GuestStep(e: SockStep, fwd: nat)

  /** An honest guest forwards only what it was sent and never shrinks its buffer below what it still holds. */
  predicate Honest(s: Sock, g: nat, h: GuestStep) {
    if h.e.TxPacket?
    then h.e.p.fwdCnt == Mod32(h.fwd) && g <= h.fwd <= s.hist.sent <= h.fwd + h.e.p.bufAlloc
    else h.fwd == g
  }

  predicate HonestRun(s: Sock, g: nat, hs: seq<GuestStep>, t: Sock, g': nat)
    decreases |hs|
  {
    if hs == [] then s == t && g == g'
    else
      && StepEnabled(s, hs[0].e) && Honest(s, g, hs[0])
      && HonestRun(SockApply(s, hs[0].e), hs[0].fwd, hs[1..], t, g')
  }

  lemma RoomStep(s: Sock, g: nat, h: GuestStep)
    requires SockInv(s) && Room(s, g) && StepEnabled(s, h.e) && Honest(s, g, h)
    ensures Room(SockApply(s, h.e), h.fwd)
  {
    match h.e
    case TxPacket(p) => DispatchPeer(Heard(s, p), p.op);
    case TxDrain(w) => DrainPeer(s, w);
    case RxData(r) => ReadFits(s, g, r);
    case _ => assert SamePeer(s, SockApply(s, h.e));
  }

  lemma {:induction false} RoomInv(s: Sock, g: nat, hs: seq<GuestStep>, t: Sock, g': nat)
    requires SockInv(s) && Room(s, g) && HonestRun(s, g, hs, t, g')
    ensures SockInv(t) && Room(t, g')
    decreases |hs|
  {
    if hs != [] {
      StepInv(s, hs[0].e);
      RoomStep(s, g, hs[0]);
      RoomInv(SockApply(s, hs[0].e), hs[0].fwd, hs[1..], t, g');
    }
  }

  lemma FreshRoom(s: Sock)
    requires Established(s) && s.peerFwdCnt == 0
    ensures SockInv(s) && Room(s, 0)
  {
  }

  lemma NextReadFits(t: Sock, g: nat, r: ReadResult)
    requires t.rxCnt == Mod32(t.hist.sent) && Room(t, g)
    ensures g <= t.hist.sent <= g + t.peerBufAlloc && PeerFree(t) == g + t.peerBufAlloc - t.hist.sent
    ensures t.hist.sent <= ProcRx(t, r).hist.sent <= g + t.peerBufAlloc
  {
    RoomIs(t, g);
    ReadSends(t, PeerFree(t), r);
  }

  /**
    The other direction of flow control: over every run with an honest guest, what was sent and not yet
    forwarded fits its buffer, the room computed for it in 32 bits is exactly what is left, and the next
    read does not overrun it.
   */
  lemma PeerNeverOverrun(s: Sock, hs: seq<GuestStep>, t: Sock, g: nat, r: ReadResult)
    requires Established(s) && s.peerFwdCnt == 0 && HonestRun(s, 0, hs, t, g)
    ensures g <= t.hist.sent <= g + t.peerBufAlloc && PeerFree(t) == g + t.peerBufAlloc - t.hist.sent
    ensures t.hist.sent <= ProcRx(t, r).hist.sent <= g + t.peerBufAlloc
  {
    FreshRoom(s);
    RoomInv(s, 0, hs, t, g);
    NextReadFits(t, g, r);
  }
}
