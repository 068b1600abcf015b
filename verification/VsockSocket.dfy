/**
  `struct pci_vtsock_sock` as the source keeps it, updated in place, with the functions of
  src/lib/pci_virtio_sock.c that change it. Every method is proved against its value form in
  `VsockSock`; the descriptor's answers to write and writev are parameters.
 */
module VsockSocket {
  import opened Iovec
  import opened Prelude
  import opened VsockSock

  lemma SliceOfPrefix(a: array<bv8>, t: nat, i: nat, j: nat)
    requires i <= j <= t <= a.Length
    ensures a[..t][i..j] == a[i..j]
  {}

  /** The bytes a packet's header announces, as far as its chain has them. */
  function Payload(mem: nat -> bv8, v: seq<Iov>, len: nat): (data: seq<bv8>) {
    Gather(mem, Addrs(v)[..Min(len, |Addrs(v)|)])
  }

  lemma WholePayload(mem: nat -> bv8, v: seq<Iov>, len: nat)
    requires |Addrs(v)| == len
    ensures Payload(mem, v, len) == Gather(mem, Addrs(v))
  {
    assert Addrs(v)[..len] == Addrs(v);
  }

  /** Some of the packet goes to the buffer: there are earlier bytes and it fits, or writev took another number. */
  predicate ToBuffer(tail: nat, len: nat, w: WriteResult) {
    if tail > 0 then len <= WRITE_BUF_LENGTH - tail else !w.EPipe? && !w.WriteError? && Taken(w) != len
  }

  class Socket {
    var state: SockState
    var fd: int
    var local: Shut
    var peer: Shut
    var bufAlloc: nat
    var fwdCnt: nat
    var credit: bool
    var rxCnt: nat
    var peerBufAlloc: nat
    var peerFwdCnt: nat
    const writeBuf: array<bv8>
    var head: nat
    var tail: nat
    ghost var hist: History

    ghost predicate Valid()
      reads this
    {
      writeBuf.Length == WRITE_BUF_LENGTH && head <= tail <= WRITE_BUF_LENGTH
    }

    ghost function View(): (s: Sock)
      reads this, writeBuf
      requires Valid()
    {
      Sock(state, fd, local, peer, bufAlloc, fwdCnt, credit, rxCnt, peerBufAlloc, peerFwdCnt,
           writeBuf[..tail], head, hist)
    }

    /** `alloc_sock` on a free slot. */
    constructor ()
      ensures Valid() && View() == Fresh() && fresh(writeBuf)
    {
      state, fd, local, peer := Connecting, -1, NONE, NONE;
      bufAlloc, fwdCnt, credit := WRITE_BUF_LENGTH, 0, false;
      rxCnt, peerBufAlloc, peerFwdCnt := 0, 0, 0;
      writeBuf := new bv8[WRITE_BUF_LENGTH];
      head, tail := 0, 0;
      hist := NO_HISTORY;
    }

    /** `shutdown_peer_local_fd`. */
    method ShutdownPeerLocalFd(mode: Shut)
      requires Valid()
      modifies this
      ensures Valid() && View() == ShutdownPeer(old(View()), mode)
    {
      var newPeer := Union(mode, peer);
      var added := Shut(newPeer.rx && !peer.rx, newPeer.tx && !peer.tx);
      if added == NONE { return; }
      var newLocal := local;
      if added == Shut(false, true) {
        if tail == 0 {
          newLocal := Union(newLocal, Shut(true, false));
          hist := hist.(wrShut := true);
        }
      } else if added == Shut(true, false) {
        newLocal := Union(local, Shut(false, true));
        hist := hist.(rdShut := true);
      } else if tail > 0 {
        newLocal := Union(newLocal, Shut(false, true));
        hist := hist.(rdShut := true);
      } else {
        newLocal := ALL;
        hist := hist.(wrShut := true, rdShut := true);
      }
      local := newLocal;
      peer := newPeer;
    }

    /** `close_sock`. */
    method CloseSock()
      requires Valid()
      modifies this
      ensures Valid() && View() == Close(old(View()))
    {
      ShutdownPeerLocalFd(ALL);
      state := ClosingTx;
    }

    /** `shutdown_local_sock`; the precondition is its assertion. */
    method ShutdownLocalSock(mode: Shut)
      requires Valid() && MayShutdownLocal(View())
      modifies this
      ensures Valid() && View() == ShutdownLocal(old(View()), mode)
    {
      if state != Connected { return; }
      local := Union(mode, local);
      if local.rx && tail > 0 {
        hist := hist.(lost := hist.lost + writeBuf[head..tail]);
        assert writeBuf[head..tail] == writeBuf[..tail][head..];
        tail, head := 0, 0;
      }
    }

    /** Both reactions to EPIPE: an RX shutdown followed by an OP_SHUTDOWN reply. */
    method HandleEpipe()
      requires Valid() && MayShutdownLocal(View())
      modifies this
      ensures Valid() && View() == BrokenPipe(old(View()))
    {
      ghost var was := state;
      ShutdownLocalSock(Shut(true, false));
      hist := hist.(epipe := hist.epipe || was == Connected, adv := hist.fwd);
    }

    /** `buffer_write`; the precondition is the pair of assertions after its pull. */
    method BufferWriteIov(mem: nat -> bv8, v: seq<Iov>, len: nat) returns (rc: Rc)
      requires Valid()
      requires len <= WRITE_BUF_LENGTH - tail ==> WellFormed(v, len)
      modifies this, writeBuf
      ensures Valid()
      ensures rc.Refused? <==> len > WRITE_BUF_LENGTH - old(tail)
      ensures rc.Refused? ==> View() == old(View())
      ensures !rc.Refused? ==> (View(), rc) == BufferWrite(old(View()), Gather(mem, Addrs(v)))
    {
      if len > WRITE_BUF_LENGTH - tail { return Refused; }
      var rest, out := Pull(mem, v, len);
      PullExhaustsIff(v, len);
      assert rest == [] && |out| == len;
      assert Addrs(v)[..len] == Addrs(v);
      CopyIn(out);
      tail := tail + |out|;
      hist := hist.(accepted := hist.accepted + out);
      rc := NoUpdate;
    }

    /** The copy into write_buf from the tail on. */
    method CopyIn(out: seq<bv8>)
      requires Valid() && tail + |out| <= WRITE_BUF_LENGTH
      modifies writeBuf
      ensures writeBuf[..tail + |out|] == old(writeBuf[..tail]) + out
    {
      for k := 0 to |out|
        invariant writeBuf[..tail + k] == old(writeBuf[..tail]) + out[..k]
      {
        writeBuf[tail + k] := out[k];
        assert out[..k + 1] == out[..k] + [out[k]];
        assert writeBuf[..tail + k + 1] == writeBuf[..tail + k] + [out[k]];
      }
      assert out[..|out|] == out;
    }

    /** `handle_write`; a packet has to be well formed where a part of it goes to the buffer. */
    method HandleWriteIov(mem: nat -> bv8, v: seq<Iov>, len: nat, w: WriteResult) returns (rc: Rc)
      requires Valid() && MayShutdownLocal(View())
      requires w.Wrote? ==> w.n <= |Addrs(v)|
      requires ToBuffer(tail, len, w) ==> WellFormed(v, len)
      modifies this, writeBuf
      ensures Valid()
      ensures
        if 0 < old(tail) && WRITE_BUF_LENGTH - old(tail) < len then rc.Refused? && View() == old(View())
        else (View(), rc) == HandleWrite(old(View()), Payload(mem, v, len), w)
    {
      if ToBuffer(tail, len, w) { WholePayload(mem, v, len); }
      if tail > 0 {
        rc := BufferWriteIov(mem, v, len);
        return;
      }
      if w.EPipe? {
        HandleEpipe();
        return NoUpdate;
      } else if w.WriteError? {
        return Refused;
      }
      var num := if w.EAgain? then 0 else w.n;
      ghost var data := Payload(mem, v, len);
      WriteDirect(num, data);
      if num == len {
        return Update;
      }
      var rest, _ := Pull(mem, v, num);
      PullWellFormed(v, num, len);
      assert Gather(mem, Addrs(rest)) == data[num..] by { PulledAddrs(v, num); }
      rc := BufferWriteIov(mem, rest, len - num);
    }

    /** The accounting of the bytes writev took. */
    method WriteDirect(num: nat, ghost data: seq<bv8>)
      requires Valid() && num <= |data|
      modifies this
      ensures Valid() && View() == DirectWrite(old(View()), data, num)
    {
      Forward(num);
      hist := hist.(accepted := hist.accepted + data[..num], written := hist.written + data[..num]);
    }

    /** `buffer_drain`. */
    method BufferDrain(w: WriteResult)
      requires Valid() && MayShutdownLocal(View())
      requires 0 < tail && head < tail && (w.Wrote? ==> w.n <= tail - head)
      modifies this
      ensures Valid() && View() == Drain(old(View()), w)
    {
      if w.EPipe? {
        HandleEpipe();
        return;
      } else if w.EAgain? {
        return;
      } else if w.WriteError? {
        hist := hist.(adv := hist.fwd);
        CloseSock();
        return;
      }
      AfterWrite(w.n);
    }

    /** `buffer_drain` once its write has taken `n` bytes. */
    method AfterWrite(n: nat)
      requires Valid() && n <= tail - head
      modifies this
      ensures Valid() && View() == Drained(old(View()), n)
    {
      SliceOfPrefix(writeBuf, tail, head, head + n);
      hist := hist.(written := hist.written + writeBuf[head..head + n]);
      head := head + n;
      if head == tail {
        FinishDrain();
      }
    }

    /** The end of `buffer_drain`, reached with every buffered byte written. */
    method FinishDrain()
      requires Valid() && head == tail
      modifies this
      ensures Valid() && View() == Emptied(old(View()))
    {
      var late := peer.tx && !local.rx;
      Forward(head);
      head, tail := 0, 0;
      assert writeBuf[..tail] == [];
      if late {
        local := Union(local, Shut(true, false));
        hist := hist.(wrShut := true);
      }
      credit := true;
    }

    method Forward(n: nat)
      modifies `fwdCnt, `hist
      ensures fwdCnt == Mod32(old(fwdCnt) + n) && hist == old(hist).(fwd := old(hist).fwd + n)
    {
      fwdCnt := Mod32(fwdCnt + n);
      hist := hist.(fwd := hist.fwd + n);
    }
  }
}
