# Verified models of the hypercog device emulation

The hypervisor's hard logic is in its device models. This project models the ones with real state machines,
wrap-around counters, shared queues or scatter/gather arithmetic, and proves what they keep over every run.

`dafny verify dfyconfig.toml` checks all of it.

## How the models are built

Each component has a value form and an in-place form.

- The value form is a datatype for the state and functions for the operations. Properties are lemmas about
  these functions, about runs (`Run`, `Reachable`) of the transition system they make up, and about the
  invariant (`Inv`, `SockInv`, `SysInv`) that every step keeps.
- The in-place form is a class with the source's fields and arrays. Each method's postcondition equates its
  new state with the value form applied to the old one (`View() == F(old(View()), ...)`), so the lemmas apply.

Concurrent code is a transition system whose step is one critical section. What the kernel, the disk or the
far end answers is a parameter of the step, so the results hold for every answer. Fields named `hist`,
`started`, `ended`, `counted`, `owed` and the like record what has happened; the modelled code never reads them,
and lemmas tie them to the events of the run.

| module | what it models |
|---|---|
| `Iovec`, `VsockSock`, `VsockSocket`, `VsockThreads`, `VsockProgress` | virtio-vsock: scatter/gather helpers, one socket's buffer, credit and shutdown flags, the two threads and their close protocol, and what the threads bring about |
| `BlockQueue`, `BlockScheduler`, `BlockCtx`, `BlockDelete` | the block request queues and their worker; TRIM split into aligned and unaligned parts |
| `Virtqueue`, `VirtRing`, `VirtDevice` | the descriptor walk, the 16-bit ring indices, interrupt suppression (VIRTIO 1.1, sections 2.6.5 to 2.6.8) |
| `IntxRouting` | device interrupt states, the PIRQ router and the ISA and I/O APIC lines |
| `PciConfig` | configuration space and its capability list (PCI Local Bus Specification 3.0, sections 6.2.2, 6.2.3 and 6.7) |
| `AhciIov`, `AhciPort`, `AhciTransfer`, `AhciBlock` | AHCI: region tables cut into sector-aligned requests; slots and requests in flight; commands from issue to completion; a port together with the block scheduler |
| `Md5` | streaming MD5 against sections 3.1 to 3.5 of RFC 1321 |
| `NinePTags` | 9P replies matched to requests by tag |
| `MmioCache` | address lookup with a per-vCPU cache |
| `Bits`, `Prelude` | masks as remainders, and what else the above share |

## Where the code does not do what one would expect

Each is stated with its exact condition; where the code goes wrong, an input or a run to it stands beside it.

- `VsockThreads.EofAssertionIff`: the assertion in `shutdown_local_sock` fails at an end of file exactly when
  the guest shut its receive side and an earlier write met EPIPE; `EofAssertionCanFail` is a run to it.
- `VsockThreads.DeadlockIff`: a failed connect or accept takes the list lock inside a socket's mutex, against the
  documented order, and deadlocks with RX exactly when RX is in its scan; `DeadlockReached` is a run to it.
- `Iovec.PullExhaustsIff`: the assertions of `buffer_write` hold exactly for packets whose length matches and
  whose last segment is not empty.
- `BlockDelete.HitsAllIff`: a delete zeroes exactly its range if and only if neither end write is short; short
  writes are not noticed. The permission checks at the top of `block_delete` set errno and carry on.
- `BlockScheduler.StartsInOrder`: with the one worker the source configures, requests run strictly in order, so
  a request can never overtake a second blocker with the same end offset.
- `PciConfig.CapPtrKeptIff`: the list is protected, the pointer to it is not; exactly the writes that store
  another value there move it. `PciConfig.AgreesIff`: a single-byte write that flips the enable bit of MSI or
  MSI-X changes the stored bit without the device noticing.
- `AhciIov.AssertHoldsIff`, `AhciIov.CompletesIff`: the rounding assertion fails exactly when 126 entries from
  the current one end before the next sector does, and a command completes exactly when that never happens.
- `AhciPort.StopClearsIff`: once an NCQ command has been cancelled, later cancelled commands keep their CI bit.
- `AhciPort.SearchEndsIff`: the search for commands goes round for ever exactly when an open slot stays open and no
  other leaves the port busy or in error; `SearchCanSpin` is a run to it.
- `Md5.NoWrapIff`: the exact inputs on which the loop bound wraps and the loop runs past the input.
- `VirtRing.InterruptsExact`: of the releases since the last `vq_endchains` exactly the last ones, as many as their
  number modulo 2^16, are seen; an event index released only before those is missed.
- `NinePTags.FlushRightIff`: a flush lookup goes wrong exactly when the flush names itself, or names a request
  already answered whose old slot is just being filled again.
- `MmioCache.SilentRegister`: a registration over a covered base succeeds without effect, and undoing it then
  trips an assertion.

The comment above `struct pci_vtsock_sock` says a descriptor is held only while connected; the code also holds
one while connecting and closing. The model follows the code.

## Model

| member | source | states |
|---|---|---|
| Iovec.PulledAddrs | src/lib/pci_virtio_sock.c:438-473 | Pulling bytes off a scatter/gather list drops exactly that many addresses from its front. |
| Iovec.PullExhaustsIff | src/lib/pci_virtio_sock.c:995-998 | The two assertions after the pull in `buffer_write` hold if and only if the packet is well formed. |
| Iovec.PullCanFail | src/lib/pci_virtio_sock.c:995-998 | A packet on which the second assertion fails. |
| Iovec.PullWellFormed | src/lib/pci_virtio_sock.c:1102-1108 | What a partial direct write leaves of a well-formed packet is well formed. |
| Iovec.Pull | src/lib/pci_virtio_sock.c:438-473 | The loop returns the advanced list and, in order, the bytes at the addresses dropped. |
| Iovec.Clip | src/lib/pci_virtio_sock.c:424-435 | Clipping keeps exactly the first addresses of a list, as many as asked for or as there are. |
| VsockSock.DrainInv | src/lib/pci_virtio_sock.c:1007-1069 | Draining, whatever the write answers, keeps the socket invariant: stream whole, counters exact, SHUT_WR only on an empty buffer. |
| VsockSock.RwInv | src/lib/pci_virtio_sock.c:1074-1111 | So does accepting a payload by direct write, by buffering, or by both. |
| VsockSock.ShutdownPeerInv | src/lib/pci_virtio_sock.c:786-850 | So does a guest's shutdown, deferred while bytes are buffered. |
| VsockSock.CloseInv | src/lib/pci_virtio_sock.c:855-865 | So does closing, which leaves the descriptor to be closed later. |
| VsockSock.BrokenPipeInv | src/lib/pci_virtio_sock.c:870-900 | So does the local shutdown after EPIPE, which discards the buffer of a connected socket and records what was lost. |
| VsockSock.ProcTxInv | src/lib/pci_virtio_sock.c:1113-1352 | So does every packet from the guest. |
| VsockSock.PacketExact | src/lib/pci_virtio_sock.c:1172-1325 | A packet ends a connection exactly when it is fatal, by opcode, flags, shutdown state, write outcome and room; it shuts exactly the halves it names, and its header is taken over. |
| VsockSock.PacketElse | src/lib/pci_virtio_sock.c:1299-1325 | A credit update, a credit request or a response that is not fatal changes nothing but the guest's figures, the update owed and the state. |
| VsockSock.StepAccounts | src/lib/pci_virtio_sock.c:982-1111 | Each step accounts for the bytes the descriptor says it took, the payload accepted and the bytes read: as many as the answers say. |
| VsockSock.StepNotes | src/lib/pci_virtio_sock.c:1007-1111 | A broken pipe, an end of file and a header sent are noted exactly in the steps that meet them. |
| VsockSock.StepCredit | src/lib/pci_virtio_sock.c:1299-1325 | An update is owed exactly from a reason for one to the next header RX sends. |
| VsockSock.StepState | src/lib/pci_virtio_sock.c:1644-1739 | The state after each other step: closing on an error or a deadline, handed over, or as before. |
| VsockSock.ProcRxInv | src/lib/pci_virtio_sock.c:1644-1744 | So does every read towards the guest. |
| VsockSock.StreamIntegrity | src/lib/pci_virtio_sock.c:982-1111 | Over every run of a connection, bytes written then bytes buffered are the bytes accepted; the 32-bit counters measure both; once the write half is shut or the socket handed over nothing is left unless the pipe broke. |
| VsockSock.StreamAccounted | src/lib/pci_virtio_sock.c:982-1111 | Over every run the descriptor took the accepted payload in order, as much as its answers add up to; the rest is buffered, and the 32-bit receive count is the bytes read. |
| VsockSock.CreditUpdateOwed | src/lib/pci_virtio_sock.c:1041-1053 | A connected socket with nothing buffered and a guest behind on its credit always has an update pending. |
| VsockSock.NeverRefused | src/lib/pci_virtio_sock.c:982-1005 | A payload within the guest's 32-bit credit is not refused and keeps it within credit. |
| VsockSock.FlowControl | src/lib/pci_virtio_sock.c:610-621 | After any run of an obedient guest the next payload within its credit is not refused. |
| VsockSock.PeerNeverOverrun | src/lib/pci_virtio_sock.c:1644-1744 | Over every run with an honest guest, bytes sent and not yet forwarded fit its buffer, the 32-bit room is exactly what is left, and the next read stays within it. |
| VsockSocket.Socket.constructor | src/lib/pci_virtio_sock.c:594-624 | A new socket has the fields of an allocated one. |
| VsockSocket.Socket.ShutdownPeerLocalFd | src/lib/pci_virtio_sock.c:786-850 | The in-place case analysis over added directions equals the value form. |
| VsockSocket.Socket.CloseSock | src/lib/pci_virtio_sock.c:855-865 | In-place close equals the value form. |
| VsockSocket.Socket.ShutdownLocalSock | src/lib/pci_virtio_sock.c:870-900 | In-place local shutdown equals the value form, given its assertion. |
| VsockSocket.Socket.BufferWriteIov | src/lib/pci_virtio_sock.c:982-1005 | Appends exactly the packet's bytes, or refuses exactly when they do not fit and changes nothing. |
| VsockSocket.Socket.HandleWriteIov | src/lib/pci_virtio_sock.c:1074-1111 | Direct write, advance of the list and buffering of the rest equal the value form on the bytes the header announces; a packet that does not fit behind earlier bytes is refused with no change. |
| VsockSocket.Socket.BufferDrain | src/lib/pci_virtio_sock.c:1007-1069 | Draining in place equals the value form for every answer of the write. |
| VsockThreads.StepKeepsInv | src/lib/pci_virtio_sock.c:1456-1624 | Every step of either thread keeps the device invariant. |
| VsockThreads.ExactlyOneList | src/lib/pci_virtio_sock.c:594-637 | In every interleaving each socket is on one of the two lists, once, and on the free list exactly when free. |
| VsockThreads.NoClosedDescriptorUsed | src/lib/pci_virtio_sock.c:1826-2088 | In no interleaving does a thread use, or wait on, a descriptor that is not open. |
| VsockThreads.ClosedExactlyOnce | src/lib/pci_virtio_sock.c:1861-1935 | A connection's descriptor is closed once, by the RX scan, after the hand-over, with all accepted bytes written unless the pipe broke. |
| VsockProgress.CloseExact | src/lib/pci_virtio_sock.c:1868-1890 | The RX scan closes a handed-over sock: exactly its descriptor leaves the open ones and is logged closed, and its fd is -1. |
| VsockProgress.ScanClosesAll | src/lib/pci_virtio_sock.c:1861-1924 | Every sock handed over before an RX scan is closed by its end and queued for freeing, whatever TX does meanwhile. |
| VsockProgress.FreesAll | src/lib/pci_virtio_sock.c:1926-1935 | Every queued sock is freed, and on the free list unless TX has taken it anew. |
| VsockProgress.TxScanServesAll | src/lib/pci_virtio_sock.c:1496-1569 | Every sock closed with nothing left to write is handed over by the end of a TX scan, and every one with bytes left is queued for draining. |
| VsockProgress.DrainFollows | src/lib/pci_virtio_sock.c:1571-1610 | What is queued is drained once select returns. |
| VsockProgress.PollExact | src/lib/pci_virtio_sock.c:1892-1920 | A connected sock is polled exactly when it may be read for the guest, and queued when it is or an update is owed. |
| VsockProgress.WorkFollows | src/lib/pci_virtio_sock.c:2013-2060 | What is queued can then be read from if it was polled, and sent its update if one is owed. |
| VsockProgress.AllocHolds | src/lib/pci_virtio_sock.c:594-627 | Allocation takes the sock off the free list, fresh, and holds it. |
| VsockProgress.SetUpEstablishes | src/lib/pci_virtio_sock.c:682-764 | A successful set-up leaves an established connection with the guest's figures and an open descriptor of its own. |
| VsockProgress.GivingUpFrees | src/lib/pci_virtio_sock.c:1354-1454 | A failed one leaves the sock free and its descriptor closed. |
| VsockProgress.ConnectionsAccounted | src/lib/pci_virtio_sock.c:1456-1640 | In every interleaving a connection's part of the run is a run of that connection alone, so its streams are accounted for in the same way. |
| VsockThreads.StreamsInEveryInterleaving | src/lib/pci_virtio_sock.c:168-233 | Stream integrity and the empty-buffer rule for shutting the write half hold in every interleaving. |
| VsockThreads.AssertionsHold | src/lib/pci_virtio_sock.c:1501-1517 | The assertions on closing, draining and credit hold in every interleaving. |
| VsockThreads.EofAssertionIff | src/lib/pci_virtio_sock.c:880 | At an end of file the assertion that the local side is not fully shut holds if and only if not both the guest's receive side is shut and a write met EPIPE. |
| VsockThreads.EofAssertionCanFail | src/lib/pci_virtio_sock.c:1711-1713 | A run in which it fails. |
| VsockThreads.DeadlockIff | src/lib/pci_virtio_sock.c:756-763 | In every interleaving, TX holding a new socket it must give up and RX deadlock if and only if RX is in its scan, because TX then wants the list lock inside the socket's mutex. |
| VsockThreads.DeadlockReached | src/lib/pci_virtio_sock.c:1861-1866 | A run to it, after which only a successful connect could go on. |
| BlockQueue.EnqueueInv | src/lib/block_if.c:334-376 | Enqueueing keeps the queues a partition and every blocked request behind a blocker. |
| BlockQueue.EnqueueExact | src/lib/block_if.c:334-376 | An accepted request goes to the end of the list with its operation, is held back if and only if a request pending or in flight ends where it starts, and is runnable otherwise. |
| BlockQueue.CompleteReleases | src/lib/block_if.c:399-415 | Finishing a request makes runnable exactly the held-back ones that start where it ends. |
| BlockQueue.CancelReleases | src/lib/block_if.c:399-415 | So does cancelling one. |
| BlockQueue.CancelExact | src/lib/block_if.c:937-990 | A cancellation answers by where the request is: pending, in flight, or nowhere. |
| BlockQueue.HeadRunnable | src/lib/block_if.c:378-396 | With nothing busy the oldest pending request is runnable. |
| BlockQueue.DequeueInv | src/lib/block_if.c:378-396 | Taking a request keeps the queue invariant. |
| BlockQueue.CompleteBusyInv | src/lib/block_if.c:398-415 | Completing the busy request keeps it. |
| BlockQueue.CompletePendInv | src/lib/block_if.c:937-953 | Completing a pending request, as cancelling does, keeps it and drops that request alone. |
| BlockScheduler.StepKeepsInv | src/lib/block_if.c:525-563 | Every step of clients and worker keeps the scheduler invariant. |
| BlockScheduler.CancelIs | src/lib/block_if.c:937-953 | A client's cancellation changes the queues as `blockif_cancel` does. |
| BlockScheduler.CancelDrops | src/lib/block_if.c:937-953 | It drops the oldest pending request with its id from those to be served, and no other. |
| BlockScheduler.SubmitExact | src/lib/block_if.c:868-896 | In every reachable state: refused with no element free, else the latest live request, held back exactly behind one that ends where it starts; a sleeping worker is told exactly of a runnable one. |
| BlockScheduler.QueuesConserved | src/lib/block_if.c:398-415 | The three lists always partition the pool, each status naming the list, with at most one busy. |
| BlockScheduler.NoDeadlock | src/lib/block_if.c:334-415 | With nothing in flight the oldest pending request can run. |
| BlockScheduler.NoLostWakeUp | src/lib/block_if.c:551-563 | A worker asleep with no signal on its way has nothing to do. |
| BlockScheduler.NeverTooBig | src/lib/block_if.c:1114-1119 | A client within the advertised queue size is never refused, even from inside a callback. |
| BlockScheduler.RefusedIff | src/lib/block_if.c:877-892 | Exactly when a submission is refused. |
| BlockScheduler.StartsInOrder | src/lib/block_if.c:531-563 | Requests start exactly in order of submission, nothing else being in flight. |
| BlockScheduler.EveryRequestServed | src/lib/block_if.c:525-563 | From every reachable state the worker alone, in a bounded number of steps, starts all live requests in order, calls each back and frees its element. |
| BlockScheduler.CloseWakes | src/lib/block_if.c:1006-1022 | A worker told to stop is not left asleep, and exits once the queue is empty. |
| BlockCtx.Ctx.BlockifEnqueue | src/lib/block_if.c:334-376 | In-place enqueue equals the value form, and answers that the worker must be told exactly when no request pending or in flight ends where this one starts. |
| BlockCtx.Ctx.BlockifDequeue | src/lib/block_if.c:378-396 | In-place dequeue equals the value form. |
| BlockCtx.Ctx.BlockifComplete | src/lib/block_if.c:398-415 | In-place completion, releasing waiters, equals the value form. |
| BlockCtx.Ctx.BlockifRequest | src/lib/block_if.c:868-896 | Accepts exactly when an element is free, and signals exactly when the accepted request is not held back. |
| BlockCtx.Ctx.BlockifCancel | src/lib/block_if.c:930-1004 | In-place cancel equals the value form. |
| BlockDelete.AlignUpRounds | src/lib/block_if.c:57-60 | ALIGNUP rounds up to the next multiple for every power of two, at offset zero too where it wraps. |
| BlockDelete.AlignDownRounds | src/lib/block_if.c:61-63 | ALIGNDOWN rounds down for every power of two. |
| BlockDelete.Parts | src/lib/block_if.c:253-289 | The head, aligned middle and tail of a delete make up its range, the middle aligned at both ends. |
| BlockDelete.HitsAllIff | src/lib/block_if.c:253-289 | The bytes zeroed are exactly the range if and only if neither end write is short. |
| BlockDelete.ShortWriteLeaves | src/lib/block_if.c:253-289 | A short write, and the byte it leaves. |
| BlockDelete.BackingFile.Delete | src/lib/block_if.c:221-297 | The result code, the bytes zeroed, that nothing outside the range changes, and that holes are punched only where aligned. |
| Virtqueue.IndirectUnique | src/lib/virtio.c:320-358 | An indirect table denotes at most one sequence. |
| Virtqueue.TableLayout | src/lib/virtio.c:312-336 | The entries of an indirect table are 16 bytes each, from its first byte to its last. |
| Virtqueue.FlatUnique | src/lib/virtio.c:298-366 | A chain denotes at most one sequence, so what the walk records is its meaning. |
| Virtqueue.Record | src/lib/virtio.c:197-207 | Records a descriptor when there is room for it, and nothing else. |
| Virtqueue.WalkTable | src/lib/virtio.c:320-358 | The walk of an indirect table ends; it succeeds exactly on a valid sequence that fits. |
| Virtqueue.WalkChain | src/lib/virtio.c:298-366 | The walk of a chain ends; it returns the length of the one sequence the chain denotes, recorded in order, or -1 exactly when it denotes none of at most 512. |
| VirtRing.MaskIsSlot | src/lib/virtio.c:276-297 | Masking an index with the queue size less one picks its remainder. |
| VirtRing.SlotOf | src/lib/virtio.c:375-414 | A 16-bit index picks the slot of the unwrapped counter across every wrap. |
| VirtRing.TakeReadsNext | src/lib/virtio.c:276-297 | With at most a ring's worth published and untaken: whether and how many chains are available is exact, and the next take reads the next published head. |
| VirtRing.ReturnUndoesTake | src/lib/virtio.c:375-383 | `vq_retchain` exactly undoes the last take, and keeps the invariant while what is untaken still fits the ring. |
| VirtRing.ReleaseInv | src/lib/virtio.c:389-414 | A release, whatever was taken, lands in the slot of its number and keeps the ring invariant. |
| VirtRing.HistoryIs | src/lib/virtio.c:375-414 | What the ring has on record is what was published, taken, returned, released and ended in the run. |
| VirtRing.PublishInv | src/include/xhyve/virtio.h:434-439 | Publishing while less than a ring's worth is untaken keeps the ring invariant, however much is still to be released. |
| VirtRing.RingIsFifo | src/lib/virtio.c:249-414 | Over runs of any length with at most a ring's worth published and untaken the masked 16-bit indices are a FIFO in both directions. |
| VirtRing.EventIdxExact | src/lib/virtio.c:451-460 | For fewer than 2^16 added entries the 16-bit comparison finds exactly whether the one asked for is among them. |
| VirtRing.EventIdxSeen | src/lib/virtio.c:451-460 | For any number of added entries the comparison finds exactly whether the one asked for is among the last of them, as many as their number modulo 2^16. |
| VirtRing.EventIdxLate | src/lib/virtio.c:451-460 | From 2^16 added entries on the one asked for is always among them, seen or not. |
| VirtRing.EventMissed | src/lib/virtio.c:451-460 | An event that is missed. |
| VirtRing.InterruptsExact | src/lib/virtio.c:431-467 | After any run and for every guest: an interrupt always when all was used up and that was asked for; with event indices exactly when the chain asked for is among the last released since the previous call, as many as their number modulo 2^16; without them exactly when that number is not zero and no silence was asked for. The event-index answer is the true one exactly when fewer than 2^16 were released, or the chain is among those. |
| VirtDevice.VQueue.GetChain | src/lib/virtio.c:249-367 | Availability checks, taking the head and walking its chain, together. |
| VirtDevice.VQueue.RetChain | src/lib/virtio.c:375-383 | In-place return equals the value form. |
| VirtDevice.VQueue.RelChain | src/lib/virtio.c:389-414 | In-place release equals the value form. |
| VirtDevice.VQueue.EndChains | src/lib/virtio.c:431-467 | Remembers the index reached, equal to the value form, and raises an interrupt exactly when asked. |
| IntxRouting.RouteCounts | src/lib/pci_irq.c:147-186 | The router's critical section keeps pin, ISA and I/O APIC counts equal to what devices and registers say. |
| IntxRouting.WriteCounts | src/lib/pci_irq.c:90-106 | So does writing a PIRQ register, moving the line it drives. |
| IntxRouting.StepKeepsInv | src/lib/pci_emul.c:1551-1596 | So does every other step of every device. |
| IntxRouting.LinesMatchDevices | src/lib/pci_emul.c:1551-1596 | Over every run, with no device lock held: active counts are ASSERTED devices per pin, registers hold what was last written, ISA assertions the pins driving an IRQ, I/O APIC assertions the ASSERTED devices per line. |
| IntxRouting.PermissionObeyed | src/lib/pci_emul.c:1478-1486 | Over every run a device is IDLE exactly when its last call was not an assert; once updates are settled it is otherwise ASSERTED or PENDING by the last configuration. |
| IntxRouting.CallIsRun | src/lib/pci_emul.c:1551-1596 | An uninterrupted call is a run of the steps above. |
| IntxRouting.CallExact | src/lib/pci_emul.c:1551-1596 | A whole call of assert, deassert or update: the state it leaves, and one assertion more, fewer or as many on the pin and the I/O APIC line; nothing else changes. |
| IntxRouting.CallKeepsCounts | src/lib/pci_irq.c:140-186 | The ISA lines follow the pins over a whole call. |
| IntxRouting.RegisterIs | src/lib/pci_irq.c:95-107 | A pin's register is what the last write left of its bits 0-3 and 7. |
| IntxRouting.Router.WritePirq | src/lib/pci_irq.c:90-106 | In-place register write equals the value form. |
| IntxRouting.Router.RoutePin | src/lib/pci_irq.c:147-186 | The pin's critical section in place equals the value form, saying whether the ISA line took the call. |
| IntxRouting.Router.LintrAssert | src/lib/pci_emul.c:1551-1566 | The whole call equals the composed steps. |
| IntxRouting.Router.LintrDeassert | src/lib/pci_emul.c:1568-1581 | The whole call equals the composed steps. |
| IntxRouting.Router.LintrUpdate | src/lib/pci_emul.c:1583-1596 | The whole call equals the composed steps. |
| PciConfig.AddCapabilityInv | src/lib/pci_emul.c:658-696 | Adding a capability keeps the list well formed, or fails and changes nothing. |
| PciConfig.AddExact | src/lib/pci_emul.c:658-696 | A capability is added right after the last, with its own bytes, exactly if it fits. |
| PciConfig.CapWriteInv | src/lib/pci_emul.c:952-1003 | An aligned write in the capability region, trimmed at a header, changes no identifier or next pointer. |
| PciConfig.GuestWriteInv | src/lib/pci_emul.c:1825-1891 | Every guest write keeps the list and where it ends. |
| PciConfig.WriteReadBack | src/lib/pci_emul.c:1755-1891 | The byte read back at every offset after any guest write: base address, command, capability, message control and plain registers. |
| PciConfig.FlagSet | src/lib/pci_emul.c:853-953 | The enable flags are set from whole writes of message control, and from no other. |
| PciConfig.ListSurvivesGuest | src/lib/pci_emul.c:1825-1891 | From a fresh space, after any additions and guest writes: the list is the added capabilities in order, ascending, aligned, with their identifiers, announced exactly when non-empty, and further guest writes leave it so. |
| PciConfig.CapPtrKeptIff | src/lib/pci_emul.c:1886-1889 | A guest write keeps the capability pointer if and only if it does not store another value there. |
| PciConfig.CapPtrFollowsGuest | src/lib/pci_emul.c:1886-1889 | Over any guest writes the pointer is what the last of them to cover it stored. |
| PciConfig.CapPtrCanMove | src/lib/pci_emul.c:1886-1889 | From a fresh space, a capability added and a guest that zeroes the pointer to it. |
| PciConfig.ControlBits | src/lib/pci_emul.c:853-906 | Which bits of message control a two-byte write takes over and which it keeps. |
| PciConfig.AgreesIff | src/lib/pci_emul.c:853-914 | A guest write keeps the enable flag of MSI, and of MSI-X, equal to the stored enable bit if and only if it is not a single byte that flips the bit. |
| PciConfig.FlagFollowsGuest | src/lib/pci_emul.c:853-914 | Over any guest writes that include no single byte over the enable bit the flag follows it. |
| PciConfig.FlagCanDisagree | src/lib/pci_emul.c:877-914 | From a fresh space, an MSI capability and a one-byte write after which flag and bit differ. |
| PciConfig.ReadOnlySurvives | src/lib/pci_emul.c:1691-1715 | No sequence of guest writes changes a read-only bit of command and status. |
| PciConfig.CmdStsBits | src/lib/pci_emul.c:1706-1712 | What the read-only mask keeps and what it lets through. |
| PciConfig.DevInst.AddCap | src/lib/pci_emul.c:658-696 | In-place addition equals the value form. |
| PciConfig.DevInst.FindCap | src/lib/pci_emul.c:962-974 | The walk ends, at the last capability not above the offset, so its assertion holds. |
| PciConfig.DevInst.WriteCap | src/lib/pci_emul.c:952-1003 | In-place capability write equals the value form. |
| PciConfig.DevInst.CfgWrite | src/lib/pci_emul.c:1825-1891 | In-place guest write equals the value form and keeps the invariant. |
| AhciIov.FetchAddrs | src/lib/pci_ahci.c:571-594 | A batch visits the table's addresses from the bytes done on, none missed or repeated. |
| AhciIov.FetchSize | src/lib/pci_ahci.c:571-594 | A batch stops only when it is full, the command is covered or the table ends. |
| AhciIov.SegIs | src/lib/pci_ahci.c:577 | An entry's length is the low 22 bits of its count, plus one. |
| AhciIov.TrimAddrs | src/lib/pci_ahci.c:601-608 | Rounding down cuts exactly the extra bytes off the end. |
| AhciIov.AssertHoldsIff | src/lib/pci_ahci.c:597-600 | For a command of whole sectors the assertion fails if and only if 126 table entries follow from the one holding the first byte left to move and end before the next sector does. |
| AhciIov.AssertCanFail | src/lib/pci_ahci.c:597-600 | A table on which it fails. |
| AhciIov.BuildIs | src/lib/pci_ahci.c:563-615 | One batch of whole sectors: its addresses, its alignment, and that it asks for more exactly when unfinished. |
| AhciIov.TransferExact | src/lib/pci_ahci.c:1913-1922 | All requests of a command visit the table's first bytes in order, at consecutive sector-aligned offsets. |
| AhciIov.TransferEnds | src/lib/pci_ahci.c:671-685 | Where every batch reached passes the assertion the continuations come to an end. |
| AhciIov.CompletesIff | src/lib/pci_ahci.c:1913-1922 | A command ends after finitely many requests if and only if every batch it reaches passes the assertion. |
| AhciIov.WideCompletes | src/lib/pci_ahci.c:597-600 | Where any 125 neighbouring entries hold a sector every command completes. |
| AhciIov.IoReq.Collect | src/lib/pci_ahci.c:571-594 | The first loop equals the value form. |
| AhciIov.IoReq.Shorten | src/lib/pci_ahci.c:601-608 | The second loop equals the value form. |
| AhciIov.IoReq.BuildIov | src/lib/pci_ahci.c:563-615 | The whole function equals the value form and its assertion holds under the stated condition. |
| AhciPort.HandleSlotInv | src/lib/pci_ahci.c:1794-1838 | Issuing a command finds a free request and keeps slots, pool and counts exact. |
| AhciPort.CallbackInv | src/lib/pci_ahci.c:1871-1939 | So does a completion, with or without a continuation. |
| AhciPort.StopLoopInv | src/lib/pci_ahci.c:430-480 | So does stopping the port, whichever requests can be cancelled. |
| AhciPort.InFlightExact | src/lib/pci_ahci.c:674-691 | In every run, resets included: no assertion for a free request fails, at most 32 busy, their slots distinct and exactly the pending mask, the pool partitioned, and each command sent to the disk ended once unless in flight. |
| AhciTransfer.LeadsVisits | src/lib/pci_ahci.c:563-615 | Batches built one after the other visit the table's addresses in order, also where the table is shorter than the command. |
| AhciTransfer.StepKeepsInv | src/lib/pci_ahci.c:1871-1939 | Every step of a port keeps each read or write in flight where its completed requests lead, what it left for its completion included. |
| AhciTransfer.PortRuns | src/lib/pci_ahci.c:674-685 | A run with the requests so built is a run of the port, so what holds of those holds here. |
| AhciTransfer.CommandsExact | src/lib/pci_ahci.c:1910-1939 | In every run: a read or write reported done completed all its requests in order and moved the table's first prdbc bytes, all of the command's where the table covers it; a failed one moved the first prdbc bytes; one in flight goes on where it stopped. |
| AhciTransfer.IssueStarts | src/lib/pci_ahci.c:674-691 | A read or write taken up has moved nothing and its first request is on the disk. |
| AhciTransfer.ContinueMoves | src/lib/pci_ahci.c:1913-1922 | A request that succeeded with more to come counts as moved, and the next starts where it ended. |
| AhciTransfer.EndReported | src/lib/pci_ahci.c:1910-1939 | The last request ends the command: reported ok exactly when it succeeded, with the bytes done. |
| AhciBlock.StepKeepsInv | src/lib/pci_ahci.c:674-691 | Every step of a port and its scheduler together keeps the busy requests equal in number to the scheduler's outstanding ones and the callbacks due. |
| AhciBlock.NeverRefused | src/lib/pci_ahci.c:685-691 | In every run of a port and its scheduler the block layer never refuses a request of the port. |
| AhciBlock.StopIsHalt | src/lib/pci_ahci.c:430-480 | The stop loop, with the worker moving on between cancellations, leaves the port as one stop at once does. |
| AhciPort.CompletionVisible | src/lib/pci_ahci.c:1924-1939 | A command's last completion clears its CI or SACT bit if and only if it succeeded or the port stopped, and touches no other slot. |
| AhciPort.ContinuationVisible | src/lib/pci_ahci.c:1913-1922 | A continuation keeps the command issued and in flight, with a request for what is left. |
| AhciPort.IssueVisible | src/lib/pci_ahci.c:1794-1838 | Exactly which bits a command taken up changes, by what becomes of it. |
| AhciPort.WriteVisible | src/lib/pci_ahci.c:2033-2130 | Exactly which bits a register write or a reset changes. |
| AhciPort.StopClearsIff | src/lib/pci_ahci.c:439-460 | Cancelling clears a slot's CI bit exactly when no NCQ command was cancelled before it. |
| AhciPort.StopClearsSactIff | src/lib/pci_ahci.c:439-460 | And its SACT bit exactly when one was, or it is one. |
| AhciPort.StopVisible | src/lib/pci_ahci.c:411-480 | A stopped port: what is out of flight, and all bits gone once nothing is in flight. |
| AhciPort.StickyNcq | src/lib/pci_ahci.c:439-460 | A run, slots 0 to 2 in the order of the search, to a port on which a cancelled command stays issued. |
| AhciPort.SearchEndsIff | src/lib/pci_ahci.c:1843-1864 | The search comes to an end if and only if every open slot gets past it or one leaves the port busy or in error; it never lacks a request and keeps the invariant. |
| AhciPort.SearchCanSpin | src/lib/pci_ahci.c:1825-1828 | A run to a search that does not end: a command that is not a host-to-device FIS. |
| AhciPort.AhciPortState.HandlePort | src/lib/pci_ahci.c:1843-1864 | Where the search ends at all, the loop equals the value form and leaves nothing to issue or the port busy or in error. |
| AhciPort.AhciPortState.IoreqCb | src/lib/pci_ahci.c:1871-1939 | In-place completion equals the value form. |
| AhciPort.AhciPortState.PortStop | src/lib/pci_ahci.c:430-480 | The in-place loop equals the value form. |
| Md5.CountStep | src/lib/md5c.c:109-113 | The two-word counter with its carry adds eight times the length modulo 2^64. |
| Md5.IndexIs | src/lib/md5c.c:106-107 | The buffer position read off the counter is the length modulo 64. |
| Md5.NoWrapIff | src/lib/md5c.c:123-124 | The loop comes to the last whole block's end; it leaves there, and transforms no block beyond the input, if and only if no test wraps. |
| Md5.ShortInputs | src/lib/md5c.c:97-134 | Inputs of at most 2^32 - 64 bytes never wrap. |
| Md5.ShortSafe | src/lib/md5c.c:97-134 | Updates of at most 2^32 - 64 bytes are safe in any number. |
| Md5.LongInputWraps | src/lib/md5c.c:123-124 | An input that does, on which the loop goes on past the input. |
| Md5.PaddedWhole | src/lib/md5c.c:140-157 | The padded message is a whole number of blocks. |
| Md5.PaddingBytes | src/lib/md5c.c:33-38 | The padding is a byte 0x80, zeros and the length. |
| Md5.LengthDenotes | src/lib/md5c.c:140-157 | The length bytes denote the length in bits modulo 2^64, low-order byte first. |
| Md5.OutputDenotes | src/lib/md5c.c:164-176 | The digest bytes denote the four words in order, low-order byte first. |
| Md5.StartBytes | src/lib/md5c.c:77-89 | The initial words are those of section 3.3 of RFC 1321. |
| Md5.Context.constructor | src/lib/md5c.c:77-89 | A new context holds the empty message. |
| Md5.Context.Update | src/lib/md5c.c:97-134 | An update turns a context of m into one of m followed by the input: counter, chaining value and buffer. |
| Md5.Context.Pad | src/lib/md5c.c:140-157 | Padding appends the padding of RFC 1321, sections 3.1 and 3.2. |
| Md5.Context.Final | src/lib/md5c.c:164-176 | The digest is that of the message, and the context is wiped. |
| Md5.DigestOf | src/lib/md5c.c:77-176 | However a message is cut into updates none of which wraps the loop bound, the digest is that of the whole. |
| NinePTags.LookUpLive | src/lib/pci_virtio_9p.c:402-403 | The lookup by tag, which ignores `inuse`, finds the live slot of an outstanding tag. |
| NinePTags.FlushRightIff | src/lib/pci_virtio_9p.c:384-400 | The flush lookup finds the right slot, or rightly none, if and only if it is not misled. |
| NinePTags.StepKeepsInv | src/lib/pci_virtio_9p.c:267-286 | Every other step, and a flush lookup not misled, keeps the table invariant, also between taking and filling a slot. |
| NinePTags.RepliesMatch | src/lib/pci_virtio_9p.c:384-431 | In every such run a reply's first match is the one live slot of its request, and the in-flight count is the slots in use. |
| NinePTags.ReplyExact | src/lib/pci_virtio_9p.c:384-431 | A reply takes out its request and, for a flush not misled, the flushed one; every other slot stays. |
| NinePTags.SendExact | src/lib/pci_virtio_9p.c:265-286 | A request takes the first free slot with its tags and chain; every other slot stays. |
| NinePTags.NeverFull | src/lib/pci_virtio_9p.c:267-285 | In every such run the table has a slot left for any request of a guest with a descriptor left, and the chains held are exactly those of the slots in use, each of one. |
| NinePTags.SelfFlushMiscounts | src/lib/pci_virtio_9p.c:384-431 | A flush of itself ends with the count one too low. |
| NinePTags.SelfFlushReached | src/lib/pci_virtio_9p.c:384-400 | A run to such a flush. |
| NinePTags.RaceDropsRequest | src/lib/pci_virtio_9p.c:389-396 | A misled flush of another request drops the new request in that slot. |
| NinePTags.RaceReached | src/lib/pci_virtio_9p.c:267-286 | A run to such a race. |
| NinePTags.Table.Notify | src/lib/pci_virtio_9p.c:265-286 | First-fit allocation equals the two steps, the table is full exactly when every slot is in use, and under the invariant it never is. |
| NinePTags.Table.Reply | src/lib/pci_virtio_9p.c:384-431 | Handling one reply in place equals the composed steps. |
| MmioCache.FindIs | src/lib/mem.c:67-93 | In an ordered tree the lookup finds exactly the entry that covers the address. |
| MmioCache.InsertIs | src/lib/mem.c:95-113 | Insertion refuses exactly a range that meets an entry, and otherwise adds it in order. |
| MmioCache.RotationKeeps | src/lib/mem.c:130 | Rotations change no lookup. |
| MmioCache.RegisteredIs | src/lib/mem.c:211-235 | When a registration adds the range, reports an error, or does neither. |
| MmioCache.RegisterUndone | src/lib/mem.c:251-273 | Unregistering a range that was added restores the entries. |
| MmioCache.SilentRegister | src/lib/mem.c:226-227 | A registration over a covered base does nothing, and unregistering then trips the assertions exactly when the covering entry differs. |
| MmioCache.SilentRegisterHappens | src/lib/mem.c:226-227 | A registration that does. |
| MmioCache.CacheExact | src/lib/mem.c:164-185 | After any run entries are disjoint and the cached lookup finds the root entry covering the address, else the fallback entry, else nothing. |
| MmioCache.EntriesExact | src/lib/mem.c:211-279 | Each step adds or removes exactly the entry it should, in the tree it names. |
| MmioCache.HintsExact | src/lib/mem.c:164-185 | The cache holds the root entry last found and nothing that was taken out. |
| MmioCache.ImmutableStays | src/lib/mem.c:189-200 | An immutable entry is never removed. |
| MmioCache.DeleteIs | src/lib/mem.c:265 | Removal takes out exactly the entry found. |
| MmioCache.MmioMap.EmulateLookup | src/lib/mem.c:164-185 | In-place lookup equals the value form. |
| MmioCache.MmioMap.RegisterMem | src/lib/mem.c:211-249 | In-place registration equals the value form with its code, for any range, and is a step of the runs for a proper one. |
| MmioCache.MmioMap.UnregisterMem | src/lib/mem.c:251-279 | In-place removal, flushing the caches, is a step, with its code. |

## Left out

- The HyperCog layer (`atomspace.c`, `hypergraphql.c`, `hypercog.c`), the Go packages, option parsing, firmware loading, ACPI, SMBIOS and MP tables, task switching, timers and event loops: only easy members, or dependent on foreign calls.
- Guest memory is read once per step; a guest that changes descriptors, tables or packets while they are being read is not modelled. Address translation is not modelled.
- vsock: `iovec_push`, the reply ring and its capacity, connecting and accepting beyond their outcome, timers beyond "expired or not", and that the threads are scheduled at all.
- VsockProgress.FreesAll: in the model TX may take a freed sock before RX has freed the others; in the source RX holds the list lock until then.
- VsockSocket.Socket.BufferWriteIov: the list is a value, so the in-place advance of the caller's array is not captured; the bytes copied are.
- VsockSocket.Socket.HandleWriteIov: requires a packet of which a part goes to the buffer to be well formed, also where writev took more than its header announces.
- Block layer: reading and writing of data, overflow of offset plus length in off_t.
- BlockCtx.Ctx.BlockifCancel: does not model how a busy request is interrupted, only that the answer is EBUSY, because signals and the kernel call they interrupt are outside the queues.
- BlockScheduler.StartsInOrder: for the one worker thread the source is built with.
- Virtqueue: feature negotiation, and interrupt delivery itself.
- IntxRouting: choosing pins and IRQs at start-up (`pirq_alloc_pin`, `pci_lintr_request`); the model starts from any routing.
- PciConfig: what a base address register settles on, registering its range, device emulations with their own write handler, and reads.
- PciConfig.AgreesIff: stated for a device with one capability of the kind, as the devices here have.
- AhciIov.TransferExact: for tables that cover the command; a shorter table ends the command early (`AhciTransfer.CommandsExact` covers it).
- AhciTransfer: where the command starts on the disk, and which bytes the disk holds; a cancelled command is not reported.
- AhciBlock: a completion is matched to a busy request by number only, so the runs include any matching.
- AhciPort: decoding of commands, contents of FISes, and the queued status beyond busy, error and the three registers.
- AhciPort.AhciPortState.HandlePort: requires the exact condition under which the source's search ends; what becomes of each slot is fixed for one search.
- Md5: the block transformation is any function; MD5End and the file interfaces.
- Md5.Context.Update: requires the exact no-wrap condition, which the source does not check; without it the source reads past its input (`Md5.NoWrapIff`).
- Md5.DigestOf: for cuts whose parts all meet that condition.
- NinePTags: a lookup is one step, although slots are read one by one; sending requests and copying replies.
- MmioCache: red-black balancing (any shape with the right entries is allowed), pointers between nodes, and allocation failure; ranges are non-empty and do not wrap, which the source does not check.
