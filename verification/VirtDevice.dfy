/**
  `struct vqueue_info` as the device updates it (src/lib/virtio.c:249-467). The methods mask indices the
  way the source does and are proved against the rings of `VirtRing` and the walk of `Virtqueue`.
 */
module VirtDevice {
  import opened Bits
  import opened Iovec
  import opened Virtqueue
  import opened VirtRing

  class VQueue {
    const k: nat                      // vq_qsize is 2^k
    var availIdx: nat                 // vq_avail->va_idx
    const availRing: array<nat>       // vq_avail->va_ring
    var usedIdx: nat                  // vq_used->vu_idx
    const usedRing: array<Used>       // vq_used->vu_ring
    var lastAvail: nat
    var saveUsed: nat
    ghost var hist: History

    ghost predicate Valid()
      reads this
    {
      k <= 15 && availRing.Length == usedRing.Length == Pow2(k)
    }

    ghost function View(): (q: Ring)
      reads this, availRing, usedRing
    {
      Ring(k, availIdx, availRing[..], usedIdx, usedRing[..], lastAvail, saveUsed, hist)
    }

    /**
      `vq_getchain`. Nothing happens when nothing is available or the guest's index is further ahead
      than the queue is long; otherwise the next head is taken, whatever becomes of its chain, and the
      answer is the length of the sequence the chain denotes, or -1 when it denotes none of at most
      VQ_MAX_DESCRIPTORS.
     */
    method GetChain(m: Memory, iov: array<Iov>, flags: array?<Flags>)
      returns (r: int, pidx: nat, ghost out: seq<Desc>)
      requires Valid() && |m.desc| == Pow2(k) && Fits(iov, flags)
      modifies this, iov, flags
      ensures Valid()
      ensures NDesc(old(View())) == 0 ==> r == 0 && View() == old(View())
      ensures NDesc(old(View())) > Pow2(k) ==> r == -1 && View() == old(View())
      ensures 1 <= NDesc(old(View())) <= Pow2(k) ==>
        && View() == Take(old(View())) && pidx == Head(old(View()))
        && (r == -1 || 1 <= r <= VQ_MAX_DESCRIPTORS)
        && (r >= 1 ==> Flat(m, pidx, out) && |out| == r && Recorded(iov, flags, out))
        && (r == -1 ==> forall t :: Flat(m, pidx, t) ==> |t| > VQ_MAX_DESCRIPTORS)
    {
      var idx := lastAvail;
      var ndesc := Mod16(availIdx - idx);
      pidx, out := 0, [];
      if ndesc == 0 { return 0, pidx, out; }
      if ndesc > Pow2(k) { return -1, pidx, out; }
      pidx := TakeHead();
      r, out := WalkChain(m, pidx, iov, flags);
    }

    method TakeHead() returns (pidx: nat)
      requires Valid()
      modifies this
      ensures Valid() && View() == Take(old(View())) && pidx == Head(old(View()))
    {
      MaskIsSlot(lastAvail, k);
      pidx := availRing[And(lastAvail, Pow2(k) - 1)];
      lastAvail := Mod16(lastAvail + 1);
      hist := hist.(taken := hist.taken + 1);
    }

    /** `vq_retchain`. */
    method RetChain()
      requires Valid() && hist.taken > 0
      modifies this
      ensures Valid() && View() == Return(old(View()))
    {
      lastAvail := Mod16(lastAvail - 1);
      hist := hist.(taken := hist.taken - 1);
    }

    /** `vq_relchain`. */
    method RelChain(idx: nat, iolen: nat)
      requires Valid()
      modifies this, usedRing
      ensures Valid() && View() == Release(old(View()), Used(idx, iolen))
    {
      MaskIsSlot(usedIdx, k);
      usedRing[And(usedIdx, Pow2(k) - 1)] := Used(idx, iolen);
      usedIdx := Mod16(usedIdx + 1);
      hist := hist.(used := hist.used + [Used(idx, iolen)]);
    }

    /** `vq_endchains`: whether an interrupt is raised for what was released since the last call. */
    method EndChains(usedAllAvail: bool, ask: Ask) returns (intr: bool)
      modifies `saveUsed, `hist
      ensures View() == End(old(View()))
      ensures intr <==> Interrupts(old(saveUsed), usedIdx, usedAllAvail, ask)
    {
      var oldIdx, newIdx := saveUsed, usedIdx;
      saveUsed := newIdx;
      hist := hist.(saved := |hist.used|);
      if usedAllAvail && ask.notifyOnEmpty {
        intr := true;
      } else if ask.eventIdx {
        intr := Mod16(newIdx - ask.usedEvent - 1) < Mod16(newIdx - oldIdx);
      } else {
        intr := newIdx != oldIdx && !ask.noInterrupt;
      }
    }
  }
}
