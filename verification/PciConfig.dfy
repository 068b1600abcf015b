/**
  A device's 256-byte PCI configuration space (src/lib/pci_emul.c:658-696, 853-1017, 1691-1715, 1755-1891):
  the capability list that device emulations build and guests read, under every sequence of guest writes.

  A guest write of one, two or four bytes is given as its bytes in memory order.
 */
module PciConfig {
  import Bits

  type Byte = b: nat | b < 256

  const REGS: nat := 256
  const CAP_START: nat := 0x40
  const MSI: Byte := 0x05
  const EXPRESS: Byte := 0x10
  const MSIX: Byte := 0x11
  const STATUS: nat := 6
  const CAP_PTR: nat := 0x34
  const BAR_FIRST: nat := 0x10
  const BAR_LIMIT: nat := 0x28

  /**
    pi_cfgdata, pi_prevcap, pi_capend and the MSI and MSI-X enable flags; `caps` and `ids` remember where
    each capability was added and with which identifier.
   */
  datatype Config = Config(
    mem: seq<Byte>, prevcap: nat, capend: nat, msi: bool, msix: bool, caps: seq<nat>, ids: seq<Byte>)

  /** PCIM_STATUS_CAPPRESENT, bit 4 of the status register. */
  predicate CapPresent(mem: seq<Byte>)
    requires |mem| == REGS
  { mem[STATUS] / 16 % 2 == 1 }

  function Poke(mem: seq<Byte>, off: nat, data: seq<Byte>): (r: seq<Byte>)
    requires off + |data| <= |mem|
    ensures |r| == |mem|
    ensures forall k :: 0 <= k < |mem| ==> r[k] == if off <= k < off + |data| then data[k - off] else mem[k]
  { mem[..off] + data + mem[off + |data|..] }

  function RoundUp4(n: nat): (r: nat)
    ensures n <= r < n + 4 && r % 4 == 0
  { (n + 3) / 4 * 4 }

  function SetPresent(b: Byte): (r: Byte) { if b / 16 % 2 == 1 then b else b + 16 }

  function CapOffset(c: Config): (off: nat)
    requires |c.mem| == REGS
  { if CapPresent(c.mem) then c.capend + 1 else CAP_START }

  /** Where the list is entered: the previous next pointer, or else the capability pointer and the status bit. */
  function Linked(c: Config, off: Byte): (mem: seq<Byte>)
    requires |c.mem| == REGS && (CapPresent(c.mem) ==> c.prevcap + 1 < REGS)
    ensures |mem| == REGS
  {
    if CapPresent(c.mem) then Poke(c.mem, c.prevcap + 1, [off])
    else Poke(Poke(c.mem, CAP_PTR, [off]), STATUS, [SetPresent(c.mem[STATUS])])
  }

  /** The copied capability with its next pointer cleared. */
  function Filled(mem: seq<Byte>, off: nat, data: seq<Byte>): (r: seq<Byte>)
    requires off + |data| <= |mem| && off + 1 < |mem|
    ensures |r| == |mem|
  { Poke(Poke(mem, off, data), off + 1, [0]) }

  /** `pci_emul_add_capability`, which fails when the space is used up. */
  function AddCapability(c: Config, data: seq<Byte>): (r: (Config, bool))
    requires |c.mem| == REGS && |data| > 0 && (CapPresent(c.mem) ==> c.prevcap + 1 < REGS)
  {
    var off := CapOffset(c);
    if off + RoundUp4(|data|) > REGS then (c, false)
    else
      (Config(Filled(Linked(c, off), off, data), off, off + RoundUp4(|data|) - 1,
              c.msi, c.msix, c.caps + [off], c.ids + [data[0]]), true)
  }

  /** `pci_emul_iscap`. */
  predicate IsCap(c: Config, off: nat)
    requires |c.mem| == REGS
  { CapPresent(c.mem) && CAP_START <= off <= c.capend }

  /** The last capability at or below an offset. */
  function Owner(caps: seq<nat>, off: nat): (cap: nat)
    requires caps != [] && caps[0] <= off
  { if |caps| == 1 || off < caps[1] then caps[0] else Owner(caps[1..], off) }

  /** Low message control byte of MSI: enable and multiple-message-enable (0x71) come from the write. */
  function MsiControl(was: Byte, w: Byte): (r: Byte) {
    was / 128 * 128 + w / 16 % 8 * 16 + was / 2 % 8 * 2 + w % 2
  }

  /** High message control byte of MSI-X: enable and function mask (0xc0) come from the write. */
  function MsixControl(was: Byte, w: Byte): (r: Byte) { w / 64 * 64 + was % 64 }

  /** What is stored: a two-byte write of the message control register keeps its read-only bits. */
  function CapBytes(id: Byte, control: bool, was: seq<Byte>, data: seq<Byte>): (r: seq<Byte>)
    requires control ==> |was| == |data| == 2
    ensures |r| == |data|
  {
    if control && id == MSI then [MsiControl(was[0], data[0]), was[1]]
    else if control && id == MSIX then [was[0], MsixControl(was[1], data[1])]
    else data
  }

  predicate Known(id: Byte) { id == MSI || id == MSIX || id == EXPRESS }

  /** The write once its capability is known: `msicap_cfgwrite`, `msixcap_cfgwrite`, `pciecap_cfgwrite`. */
  function CapStore(c: Config, cap: nat, off: nat, data: seq<Byte>): (r: Config)
    requires cap < off && off + |data| <= |c.mem|
  {
    var id := c.mem[cap];
    var control := off == cap + 2 && |data| == 2;
    if !Known(id) then c
    else
      var d := CapBytes(id, control, c.mem[off..off + |data|], data);
      c.(mem := Poke(c.mem, off, d),
         msi := if control && id == MSI then d[0] % 2 == 1 else c.msi,
         msix := if control && id == MSIX then d[1] / 128 == 1 else c.msix)
  }

  /** `pci_emul_capwrite`: identifier and next pointer are read-only, a 4-byte write over them is trimmed. */
  function CapWrite(c: Config, cap: nat, off: nat, data: seq<Byte>): (r: Config)
    requires cap <= off && off + |data| <= |c.mem|
  {
    if off == cap || off == cap + 1 then
      if off == cap && |data| == 4 then CapStore(c, cap, off + 2, data[2..]) else c
    else CapStore(c, cap, off, data)
  }

  /** One byte of the command or status register: the read-only mask 0xFFFFF880, byte by byte. */
  function CmdStsByte(a: nat, was: Byte, w: Byte): (r: Byte) {
    if a == 4 then was / 128 * 128 + w % 128
    else if a == 5 then was / 8 * 8 + w % 8
    else was
  }

  function Masked(off: nat, was: seq<Byte>, data: seq<Byte>): (r: seq<Byte>)
    requires |was| == |data|
    ensures |r| == |data| && forall k :: 0 <= k < |data| ==> r[k] == CmdStsByte(off + k, was[k], data[k])
  { seq(|data|, k requires 0 <= k < |data| => CmdStsByte(off + k, was[k], data[k])) }

  /** `pci_emul_cmdsts_write`. */
  function CmdStsWrite(mem: seq<Byte>, off: nat, data: seq<Byte>): (r: seq<Byte>)
    requires off + |data| <= |mem|
    ensures |r| == |mem|
    ensures forall k :: 0 <= k < |mem| && !(off <= k < off + |data|) ==> r[k] == mem[k]
  {
    Poke(mem, off, Masked(off, mem[off..off + |data|], data))
  }

  predicate Accepted(off: nat, data: seq<Byte>) {
    off < REGS && (|data| == 1 || (|data| == 2 && off % 2 == 0) || (|data| == 4 && off % 4 == 0))
  }

  /** The write half of `pci_cfgrw`; `bar` is the register value the BAR logic settles on. */
  function GuestWrite(c: Config, off: nat, data: seq<Byte>, bar: seq<Byte>): (r: Config)
    requires |c.mem| == REGS && |bar| == 4 && (IsCap(c, off) ==> c.caps != [] && c.caps[0] <= off)
    requires IsCap(c, off) ==> Owner(c.caps, off) <= off
  {
    if !Accepted(off, data) then c
    else if BAR_FIRST <= off < BAR_LIMIT then
      if |data| == 4 then c.(mem := Poke(c.mem, off, bar)) else c
    else if IsCap(c, off) then CapWrite(c, Owner(c.caps, off), off, data)
    else if 4 <= off < 8 then c.(mem := CmdStsWrite(c.mem, off, data))
    else c.(mem := Poke(c.mem, off, data))
  }

  // ---------------------------------------------------------------- the list

  predicate Ascending(caps: seq<nat>) { forall j, k :: 0 <= j < k < |caps| ==> caps[j] < caps[k] }

  /** The k-th capability sits where it was added, and its next pointer names the following one or none. */
  predicate At(mem: seq<Byte>, caps: seq<nat>, ids: seq<Byte>, k: nat)
    requires k < |caps| == |ids|
  {
    && CAP_START <= caps[k] && caps[k] % 4 == 0 && caps[k] + 4 <= |mem|
    && mem[caps[k]] == ids[k]
    && mem[caps[k] + 1] == if k + 1 < |caps| then caps[k + 1] else 0
  }

  /** Offsets ascend from 0x40, dword aligned, each leading to the next. */
  ghost predicate Chain(mem: seq<Byte>, caps: seq<nat>, ids: seq<Byte>) {
    && |ids| == |caps| && (caps != [] ==> caps[0] == CAP_START) && Ascending(caps)
    && (forall k :: 0 <= k < |caps| ==> At(mem, caps, ids, k))
  }

  ghost predicate MemOk(mem: seq<Byte>, caps: seq<nat>, ids: seq<Byte>) {
    |mem| == REGS && (CapPresent(mem) <==> caps != []) && Chain(mem, caps, ids)
  }

  predicate EndOk(caps: seq<nat>, prevcap: nat, capend: nat) {
    caps != [] ==>
      prevcap == caps[|caps| - 1] && prevcap + 4 <= capend + 1 <= REGS && (capend + 1) % 4 == 0
  }

  ghost predicate Inv(c: Config) { MemOk(c.mem, c.caps, c.ids) && EndOk(c.caps, c.prevcap, c.capend) }

  /** A write that misses every identifier and next pointer leaves the list as it was. */
  lemma PokeKeeps(mem: seq<Byte>, caps: seq<nat>, ids: seq<Byte>, off: nat, data: seq<Byte>)
    requires MemOk(mem, caps, ids) && off + |data| <= |mem|
    requires forall k :: 0 <= k < |caps| ==> off + |data| <= caps[k] || caps[k] + 2 <= off
    requires CapPresent(Poke(mem, off, data)) == CapPresent(mem)
    ensures MemOk(Poke(mem, off, data), caps, ids)
  {
    forall k | 0 <= k < |caps| ensures At(Poke(mem, off, data), caps, ids, k) { assert At(mem, caps, ids, k); }
  }

  lemma {:induction false} OwnerIs(caps: seq<nat>, off: nat) returns (k: nat)
    requires caps != [] && caps[0] <= off && Ascending(caps)
    ensures k < |caps| && caps[k] == Owner(caps, off) <= off
    ensures forall j :: 0 <= j < |caps| ==> if j <= k then caps[j] <= caps[k] else off < caps[j]
  {
    if |caps| == 1 || off < caps[1] {
      k := 0;
      assert |caps| == 1 || forall j :: 1 < j < |caps| ==> caps[1] < caps[j];
    } else {
      var i := OwnerIs(caps[1..], off);
      k := i + 1;
      forall j | 0 <= j < |caps| ensures if j <= k then caps[j] <= caps[k] else off < caps[j] {
        if j > 0 { assert caps[1..][j - 1] == caps[j]; }
      }
    }
  }

  /** An aligned write inside a capability stays clear of every header once trimmed. */
  lemma StoreClear(c: Config, off: nat, data: seq<Byte>)
    requires Inv(c) && IsCap(c, off) && Accepted(off, data)
    ensures off + |data| <= REGS && CAP_START <= Owner(c.caps, off) <= off
    ensures
      var cap := Owner(c.caps, off);
      && c.mem[cap] in c.ids
      && (off != cap && off != cap + 1 ==>
            forall j :: 0 <= j < |c.caps| ==> off + |data| <= c.caps[j] || c.caps[j] + 2 <= off)
      && (off == cap && |data| == 4 ==>
            forall j :: 0 <= j < |c.caps| ==> off + 4 <= c.caps[j] || c.caps[j] + 2 <= off + 2)
  {
    var k := OwnerIs(c.caps, off);
    assert At(c.mem, c.caps, c.ids, k);
    forall j | 0 <= j < |c.caps| && j > k ensures off + |data| <= c.caps[j] {
      assert At(c.mem, c.caps, c.ids, j);
      AlignedBelow(off, |data|, c.caps[j]);
    }
    AlignedBelow(off, |data|, c.capend + 1);
  }

  lemma AlignedBelow(off: nat, n: nat, limit: nat)
    requires (n == 1 || (n == 2 && off % 2 == 0) || (n == 4 && off % 4 == 0)) && limit % 4 == 0 && off < limit
    ensures off + n <= limit
  {
    var q := limit / 4;
    assert limit == 4 * q;
    if n == 2 {
      assert off == 2 * (off / 2);
      Multiples(2, off / 2, 2 * q);
    } else if n == 4 {
      assert off == 4 * (off / 4);
      Multiples(4, off / 4, q);
    }
  }

  lemma Multiples(n: nat, a: nat, b: nat)
    requires n * a < n * b
    ensures n * a + n <= n * b
  {
    if a < b {
      Bits.MulStrict(n, a, b);
    } else if b < a {
      Bits.MulStrict(n, b, a);
    }
  }

  lemma CapStoreInv(c: Config, cap: nat, off: nat, data: seq<Byte>)
    requires Inv(c) && CAP_START <= cap < off && off + |data| <= REGS
    requires forall j :: 0 <= j < |c.caps| ==> off + |data| <= c.caps[j] || c.caps[j] + 2 <= off
    ensures Inv(CapStore(c, cap, off, data)) && SameList(c, CapStore(c, cap, off, data))
  {
    var control := off == cap + 2 && |data| == 2;
    PokeKeeps(c.mem, c.caps, c.ids, off, CapBytes(c.mem[cap], control, c.mem[off..off + |data|], data));
  }

  lemma CmdStsKeepsPresent(mem: seq<Byte>, off: nat, data: seq<Byte>)
    requires |mem| == REGS && 4 <= off < 8 && off + |data| <= 8
    ensures CapPresent(CmdStsWrite(mem, off, data)) == CapPresent(mem)
  {
    assert CmdStsWrite(mem, off, data)[STATUS] == mem[STATUS];
  }

  /** What the guest can never change: the capability list, its end and the bit that announces it. */
  predicate SameList(c: Config, r: Config) {
    r.caps == c.caps && r.ids == c.ids && r.prevcap == c.prevcap && r.capend == c.capend
  }

  lemma OutsideCaps(c: Config, off: nat, data: seq<Byte>)
    requires Inv(c) && Accepted(off, data) && !IsCap(c, off)
    ensures off + |data| <= REGS
    ensures forall j :: 0 <= j < |c.caps| ==> off + |data| <= c.caps[j] || c.caps[j] + 2 <= off
  {
    AlignedBelow(off, |data|, REGS);
    if off < CAP_START {
      AlignedBelow(off, |data|, CAP_START);
    }
  }

  lemma CapWriteInv(c: Config, off: nat, data: seq<Byte>)
    requires Inv(c) && Accepted(off, data) && IsCap(c, off)
    ensures Owner(c.caps, off) <= off && off + |data| <= REGS
    ensures Inv(CapWrite(c, Owner(c.caps, off), off, data)) && SameList(c, CapWrite(c, Owner(c.caps, off), off, data))
  {
    StoreClear(c, off, data);
    var cap := Owner(c.caps, off);
    if off == cap && |data| == 4 {
      CapStoreInv(c, cap, off + 2, data[2..]);
    } else if off != cap && off != cap + 1 {
      CapStoreInv(c, cap, off, data);
    }
  }

  lemma CmdStsInv(c: Config, off: nat, data: seq<Byte>)
    requires Inv(c) && Accepted(off, data) && 4 <= off < 8
    ensures off + |data| <= REGS && MemOk(CmdStsWrite(c.mem, off, data), c.caps, c.ids)
  {
    AlignedBelow(off, |data|, 8);
    var r := CmdStsWrite(c.mem, off, data);
    assert r == Poke(c.mem, off, r[off..off + |data|]);
    CmdStsKeepsPresent(c.mem, off, data);
    PokeKeeps(c.mem, c.caps, c.ids, off, r[off..off + |data|]);
  }

  lemma PlainInv(c: Config, off: nat, data: seq<Byte>)
    requires Inv(c) && Accepted(off, data) && !(4 <= off < 8) && !IsCap(c, off)
    ensures off + |data| <= REGS && MemOk(Poke(c.mem, off, data), c.caps, c.ids)
  {
    OutsideCaps(c, off, data);
    if off < 4 { AlignedBelow(off, |data|, 4); }
    PokeKeeps(c.mem, c.caps, c.ids, off, data);
  }

  lemma OwnerBelow(c: Config, off: nat)
    requires Inv(c) && IsCap(c, off)
    ensures c.caps != [] && c.caps[0] <= off && Owner(c.caps, off) <= off
  {
    var _ := OwnerIs(c.caps, off);
  }

  lemma GuestWriteInv(c: Config, off: nat, data: seq<Byte>, bar: seq<Byte>)
    requires Inv(c) && |bar| == 4
    ensures IsCap(c, off) ==> c.caps != [] && c.caps[0] <= off && Owner(c.caps, off) <= off
    ensures Inv(GuestWrite(c, off, data, bar)) && SameList(c, GuestWrite(c, off, data, bar))
  {
    if IsCap(c, off) { OwnerBelow(c, off); }
    if Accepted(off, data) {
      if BAR_FIRST <= off < BAR_LIMIT {
        if |data| == 4 { PlainInv(c, off, bar); }
      } else if IsCap(c, off) {
        CapWriteInv(c, off, data);
      } else if 4 <= off < 8 {
        CmdStsInv(c, off, data);
      } else {
        PlainInv(c, off, data);
      }
    }
  }

  // ---------------------------------------------------------------- adding capabilities

  lemma ChainGrows(mem: seq<Byte>, r: seq<Byte>, caps: seq<nat>, ids: seq<Byte>, off: nat)
    requires Chain(mem, caps, ids) && |r| == |mem| && off % 4 == 0 && CAP_START <= off && off + 4 <= |r|
    requires if caps == [] then off == CAP_START else caps[|caps| - 1] + 4 <= off
    requires forall k :: CAP_START <= k < off ==>
      r[k] == if caps != [] && k == caps[|caps| - 1] + 1 then off else mem[k]
    requires r[off + 1] == 0
    ensures Chain(r, caps + [off], ids + [r[off]])
  {
    var more, all := caps + [off], ids + [r[off]];
    forall k | 0 <= k < |more| ensures At(r, more, all, k) {
      if k < |caps| {
        assert At(mem, caps, ids, k);
        if k + 1 < |caps| { NextAbove(mem, caps, ids, k); }
      }
    }
  }

  lemma NextAbove(mem: seq<Byte>, caps: seq<nat>, ids: seq<Byte>, k: nat)
    requires Chain(mem, caps, ids) && k + 1 < |caps|
    ensures caps[k] + 4 <= caps[|caps| - 1]
  {
    assert At(mem, caps, ids, k) && At(mem, caps, ids, |caps| - 1);
  }

  lemma LinkedBytes(c: Config, off: Byte)
    requires Inv(c) && CAP_START <= off
    ensures CapPresent(Linked(c, off))
    ensures forall k :: CAP_START <= k < REGS ==>
      Linked(c, off)[k] == if c.caps != [] && k == c.prevcap + 1 then off else c.mem[k]
  {
  }

  lemma FilledBytes(mem: seq<Byte>, off: nat, data: seq<Byte>)
    requires |data| > 0 && off + |data| <= |mem| && off + 1 < |mem|
    ensures forall k :: 0 <= k < off ==> Filled(mem, off, data)[k] == mem[k]
    ensures Filled(mem, off, data)[off] == data[0] && Filled(mem, off, data)[off + 1] == 0
    ensures forall k :: 2 <= k < |data| ==> Filled(mem, off, data)[off + k] == data[k]
    ensures forall k :: off + |data| <= k < |mem| && k != off + 1 ==> Filled(mem, off, data)[k] == mem[k]
  {
  }

  lemma AddedMem(c: Config, off: Byte, data: seq<Byte>)
    requires Inv(c) && |data| > 0 && off == CapOffset(c) && off + RoundUp4(|data|) <= REGS
    ensures MemOk(Filled(Linked(c, off), off, data), c.caps + [off], c.ids + [data[0]])
  {
    var r := Filled(Linked(c, off), off, data);
    LinkedBytes(c, off);
    FilledBytes(Linked(c, off), off, data);
    assert forall k :: CAP_START <= k < off ==> r[k] == Linked(c, off)[k];
    ChainGrows(c.mem, r, c.caps, c.ids, off);
    assert r[STATUS] == Linked(c, off)[STATUS];
  }

  lemma AddCapabilityInv(c: Config, data: seq<Byte>)
    requires Inv(c) && |data| > 0
    ensures Inv(AddCapability(c, data).0)
  {
    if CapOffset(c) + RoundUp4(|data|) <= REGS {
      AddedMem(c, CapOffset(c), data);
    }
  }

  // ---------------------------------------------------------------- runs

  datatype Event =
    | Add(capdata: seq<Byte>)
    | Write(off: nat, data: seq<Byte>, bar: seq<Byte>)

  ghost predicate Enabled(c: Config, e: Event) {
    Inv(c) && match e case Add(d) => |d| > 0 case Write(_, _, bar) => |bar| == 4
  }

  ghost function Apply(c: Config, e: Event): (r: Config)
    requires Enabled(c, e)
    ensures Inv(r)
    ensures e.Write? ==> SameList(c, r)
  {
    match e
    case Add(d) => AddCapabilityInv(c, d); AddCapability(c, d).0
    case Write(off, d, bar) => GuestWriteInv(c, off, d, bar); GuestWrite(c, off, d, bar)
  }

  ghost predicate Run(c: Config, events: seq<Event>, r: Config)
    decreases |events|
  {
    if events == [] then r == c else Enabled(c, events[0]) && Run(Apply(c, events[0]), events[1..], r)
  }

  /** A space as allocated: no list yet. */
  predicate Fresh(c: Config) { |c.mem| == REGS && !CapPresent(c.mem) && c.caps == [] && c.ids == [] }

  lemma {:induction false} RunInv(c: Config, events: seq<Event>, r: Config)
    requires Inv(c) && Run(c, events, r)
    ensures Inv(r)
    decreases |events|
  {
    if events != [] {
      RunInv(Apply(c, events[0]), events[1..], r);
    }
  }

  predicate GuestOnly(events: seq<Event>) { forall k :: 0 <= k < |events| ==> events[k].Write? }

  lemma {:induction false} GuestRun(c: Config, events: seq<Event>, r: Config)
    requires Inv(c) && Run(c, events, r) && GuestOnly(events)
    ensures SameList(c, r)
    decreases |events|
  {
    if events != [] {
      assert events[0].Write?;
      GuestRun(Apply(c, events[0]), events[1..], r);
    }
  }

  /**
    From a fresh space, through any mixture of added capabilities and guest writes: the list that starts at
    0x40 is the capabilities in the order they were added, ascending and dword aligned, under their own
    identifiers, and the status bit is set exactly when there is one. A further stretch of guest writes
    leaves every identifier, every next pointer and the bit as they were.
   */
  lemma ListSurvivesGuest(c: Config, events: seq<Event>, d: Config, writes: seq<Event>, r: Config)
    requires Fresh(c) && Run(c, events, d) && Run(d, writes, r) && GuestOnly(writes)
    ensures |d.mem| == |r.mem| == REGS && Chain(d.mem, d.caps, d.ids) && Chain(r.mem, d.caps, d.ids)
    ensures CapPresent(d.mem) == CapPresent(r.mem) == (d.caps != [])
  {
    RunInv(c, events, d);
    RunInv(d, writes, r);
    GuestRun(d, writes, r);
  }

  // ---------------------------------------------------------------- the pointer to the list

  /** A write that stores another value in the capability pointer. */
  predicate MovesPtr(ptr: Byte, off: nat, data: seq<Byte>) {
    Accepted(off, data) && off <= CAP_PTR < off + |data| && data[CAP_PTR - off] != ptr
  }

  /** The pointer at 0x34 is not protected: a guest write keeps it exactly when it does not store another value. */
  lemma CapPtrKeptIff(c: Config, off: nat, data: seq<Byte>, bar: seq<Byte>)
    requires Inv(c) && |bar| == 4
    requires IsCap(c, off) ==> c.caps != [] && c.caps[0] <= off && Owner(c.caps, off) <= off
    ensures |GuestWrite(c, off, data, bar).mem| == REGS
    ensures GuestWrite(c, off, data, bar).mem[CAP_PTR] == c.mem[CAP_PTR] <==> !MovesPtr(c.mem[CAP_PTR], off, data)
    ensures Accepted(off, data) && off <= CAP_PTR < off + |data| ==>
      GuestWrite(c, off, data, bar).mem[CAP_PTR] == data[CAP_PTR - off]
  {
    if !(off <= CAP_PTR < off + |data|) {
      Untouched(c, off, data, bar, CAP_PTR);
    } else if Accepted(off, data) && off < CAP_PTR {
      AlignedBelow(off, |data|, CAP_PTR);
    }
  }

  /** What the last write over the pointer left there. */
  function LastPtr(ptr: Byte, events: seq<Event>): (p: Byte)
    decreases |events|
  {
    if events == [] then ptr
    else LastPtr(NextPtr(ptr, events[0]), events[1..])
  }

  function NextPtr(ptr: Byte, e: Event): (p: Byte) {
    if e.Write? && MovesPtr(ptr, e.off, e.data) then e.data[CAP_PTR - e.off] else ptr
  }

  /** Over any guest writes the pointer is what the last of them to cover it stored. */
  lemma {:induction false} CapPtrFollowsGuest(c: Config, events: seq<Event>, r: Config)
    requires Inv(c) && Run(c, events, r) && GuestOnly(events)
    ensures |r.mem| == REGS && r.mem[CAP_PTR] == LastPtr(c.mem[CAP_PTR], events)
    decreases |events|
  {
    if events != [] {
      var e := events[0];
      assert e.Write?;
      GuestWriteInv(c, e.off, e.data, e.bar);
      CapPtrKeptIff(c, e.off, e.data, e.bar);
      CapPtrFollowsGuest(Apply(c, e), events[1..], r);
    }
  }

  const BAR0: seq<Byte> := [0, 0, 0, 0]

  ghost predicate Step(c: Config, e: Event, r: Config) { Enabled(c, e) && r == Apply(c, e) }

  /** A space to which one capability of a kind was added. */
  predicate HasOne(d: Config, id: Byte) {
    && |d.mem| == REGS && d.caps == [CAP_START] && d.ids == [id] && d.capend == CAP_START + 3
    && d.mem[CAP_PTR] == CAP_START && d.mem[CAP_START + 2] == d.mem[CAP_START + 3] == 0
  }

  lemma WithOne(id: Byte, c: Config) returns (d: Config)
    requires Fresh(c)
    ensures Step(c, Add([id, 0, 0, 0]), d) && HasOne(d, id) && d.msi == c.msi && d.msix == c.msix
  {
    d := Apply(c, Add([id, 0, 0, 0]));
    assert RoundUp4(4) == 4;
    FirstBytes(c, [id, 0, 0, 0]);
  }

  /** The first capability's bytes, and the pointer to it. */
  lemma FirstBytes(c: Config, data: seq<Byte>)
    requires Fresh(c) && |data| == 4
    ensures
      var r := Filled(Linked(c, CAP_START), CAP_START, data);
      r[CAP_PTR] == CAP_START && r[CAP_START + 2] == data[2] && r[CAP_START + 3] == data[3]
  {
    var l := Linked(c, CAP_START);
    assert l[CAP_PTR] == CAP_START;
    var p := Poke(l, CAP_START, data);
    assert p[CAP_START + 2] == data[2] && p[CAP_START + 3] == data[3] && p[CAP_PTR] == l[CAP_PTR];
  }

  /** From a fresh space: one capability, and a guest that writes zero over the pointer to it. */
  lemma CapPtrCanMove(c: Config) returns (d: Config, r: Config)
    requires Fresh(c)
    ensures Step(c, Add([MSI, 0, 0, 0]), d) && HasOne(d, MSI) && Step(d, Write(CAP_PTR, [0], BAR0), r)
    ensures |r.mem| == REGS && r.caps == [CAP_START] && r.mem[CAP_PTR] == 0
  {
    d := WithOne(MSI, c);
    r := Apply(d, Write(CAP_PTR, [0], BAR0));
    CapPtrKeptIff(d, CAP_PTR, [0], BAR0);
  }

  // ---------------------------------------------------------------- message control

  /** The read-only bits of message control, and the bits a two-byte write takes over. */
  lemma ControlBits(was: Byte, w: Byte)
    ensures
      var r := MsiControl(was, w);
      r % 2 == w % 2 && r / 2 % 8 == was / 2 % 8 && r / 16 % 8 == w / 16 % 8 && r / 128 == was / 128
    ensures MsixControl(was, w) / 64 == w / 64 && MsixControl(was, w) % 64 == was % 64
  {
    FourFields(MsiControl(was, w), was / 128, w / 16 % 8, was / 2 % 8, w % 2);
  }

  /** A byte made of four fields has those fields. */
  lemma FourFields(r: nat, a: nat, b: nat, d: nat, e: nat)
    requires r == a * 128 + b * 16 + d * 2 + e && b < 8 && d < 8 && e < 2
    ensures r % 2 == e && r / 2 % 8 == d && r / 16 % 8 == b && r / 128 == a
  {
    Bits.ModUnique(r, 2, a * 64 + b * 8 + d, e);
    Bits.ModUnique(a * 64 + b * 8 + d, 8, a * 8 + b, d);
    Bits.ModUnique(r, 16, a * 8 + b, d * 2 + e);
    Bits.ModUnique(a * 8 + b, 8, a, b);
    Bits.ModUnique(r, 128, a, b * 16 + d * 2 + e);
  }

  /** Where the enable bit of MSI and of MSI-X lies, and what it says there. */
  function EnableAt(id: Byte, cap: nat): (a: nat) { if id == MSI then cap + 2 else cap + 3 }

  predicate EnableBit(id: Byte, b: Byte) { if id == MSI then b % 2 == 1 else b / 128 == 1 }

  predicate EnableFlag(c: Config, id: Byte) { if id == MSI then c.msi else c.msix }

  /** pi_msi.enabled, or pi_msix.enabled, is the enable bit the guest reads back. */
  predicate Agrees(c: Config, id: Byte, cap: nat)
    requires cap + 3 < |c.mem|
  { EnableFlag(c, id) == EnableBit(id, c.mem[EnableAt(id, cap)]) }

  /** The device's one capability of a kind. */
  ghost predicate TheOne(c: Config, id: Byte, k: nat) {
    && (id == MSI || id == MSIX)
    && k < |c.ids| == |c.caps| && forall j :: 0 <= j < |c.ids| ==> (c.ids[j] == id <==> j == k)
  }

  lemma Untouched(c: Config, off: nat, data: seq<Byte>, bar: seq<Byte>, a: nat)
    requires Inv(c) && |bar| == 4 && a < REGS && !(off <= a < off + |data|)
    requires IsCap(c, off) ==> c.caps != [] && c.caps[0] <= off && Owner(c.caps, off) <= off
    ensures |GuestWrite(c, off, data, bar).mem| == REGS && GuestWrite(c, off, data, bar).mem[a] == c.mem[a]
  {
  }

  /** A write lands in a capability or misses its first four bytes. */
  lemma LandsOrMisses(c: Config, k: nat, off: nat, data: seq<Byte>)
    requires Inv(c) && k < |c.caps| && IsCap(c, off) && Accepted(off, data)
    ensures c.caps[0] <= off && Owner(c.caps, off) <= off
    ensures Owner(c.caps, off) != c.caps[k] ==>
      && (exists i :: 0 <= i < |c.caps| && i != k && c.mem[Owner(c.caps, off)] == c.ids[i])
      && (off + |data| <= c.caps[k] || c.caps[k] + 4 <= off)
  {
    var i := OwnerIs(c.caps, off);
    assert At(c.mem, c.caps, c.ids, i) && At(c.mem, c.caps, c.ids, k);
    if i < k {
      AlignedBelow(off, |data|, c.caps[k]);
    } else if k < i {
      FourApart(c.caps[k], c.caps[i]);
    }
  }

  lemma FourApart(a: nat, b: nat)
    requires a % 4 == 0 && b % 4 == 0 && a < b
    ensures a + 4 <= b
  {
    AlignedBelow(a, 4, b);
  }

  /** A single byte that flips the enable bit. */
  predicate Flips(c: Config, id: Byte, cap: nat, off: nat, data: seq<Byte>)
    requires cap + 3 < |c.mem|
  { off == EnableAt(id, cap) && |data| == 1 && EnableBit(id, data[0]) != EnableBit(id, c.mem[off]) }

  predicate Controlled(c: Config, id: Byte, cap: nat) {
    && |c.mem| == REGS && cap + 3 < REGS && cap % 4 == 0
    && (id == MSI || id == MSIX) && c.mem[cap] == id && Agrees(c, id, cap)
  }

  lemma ByteStore(c: Config, id: Byte, cap: nat, off: nat, data: seq<Byte>)
    requires Controlled(c, id, cap) && cap <= off < REGS && |data| == 1
    ensures |CapWrite(c, cap, off, data).mem| == REGS
    ensures Agrees(CapWrite(c, cap, off, data), id, cap) <==> !Flips(c, id, cap, off, data)
  {
  }

  lemma WideStore(c: Config, id: Byte, cap: nat, off: nat, data: seq<Byte>)
    requires Controlled(c, id, cap) && cap <= off && off + |data| <= REGS
    requires (|data| == 2 && (off <= cap + 2 || cap + 4 <= off)) || (|data| == 4 && (off == cap || cap + 4 <= off))
    requires off != cap + 1
    ensures |CapWrite(c, cap, off, data).mem| == REGS && Agrees(CapWrite(c, cap, off, data), id, cap)
  {
  }

  lemma ControlStore(c: Config, id: Byte, cap: nat, off: nat, data: seq<Byte>)
    requires Controlled(c, id, cap) && cap <= off && off + |data| <= REGS && Accepted(off, data)
    ensures |CapWrite(c, cap, off, data).mem| == REGS
    ensures Agrees(CapWrite(c, cap, off, data), id, cap) <==> !Flips(c, id, cap, off, data)
  {
    if |data| == 1 {
      ByteStore(c, id, cap, off, data);
    } else {
      assert |data| == 2 ==> off != cap + 1 && off != cap + 3;
      assert |data| == 4 ==> off != cap + 1 && off != cap + 2 && off != cap + 3;
      WideStore(c, id, cap, off, data);
    }
  }

  lemma ControlElsewhere(c: Config, id: Byte, cap: nat, off: nat, data: seq<Byte>)
    requires |c.mem| == REGS && cap <= off && off + |data| <= REGS && cap < REGS
    requires (id == MSI || id == MSIX) && c.mem[cap] != id
    ensures EnableFlag(CapWrite(c, cap, off, data), id) == EnableFlag(c, id)
  {
  }

  /**
    A guest write keeps the enable flag of MSI or MSI-X equal to the enable bit the guest reads back, unless
    it is a single byte that flips the bit: only two-byte writes, and four-byte ones trimmed to two, update
    the flag.
   */
  lemma AgreesIff(c: Config, id: Byte, k: nat, off: nat, data: seq<Byte>, bar: seq<Byte>)
    requires Inv(c) && TheOne(c, id, k) && |bar| == 4 && c.caps[k] + 3 < REGS && Agrees(c, id, c.caps[k])
    requires IsCap(c, off) ==> c.caps[0] <= off && Owner(c.caps, off) <= off
    ensures |GuestWrite(c, off, data, bar).mem| == REGS
    ensures Agrees(GuestWrite(c, off, data, bar), id, c.caps[k]) <==> !Flips(c, id, c.caps[k], off, data)
  {
    var cap := c.caps[k];
    assert At(c.mem, c.caps, c.ids, k);
    if !Accepted(off, data) {
    } else if IsCap(c, off) && !(BAR_FIRST <= off < BAR_LIMIT) {
      StoreClear(c, off, data);
      LandsOrMisses(c, k, off, data);
      if Owner(c.caps, off) == cap {
        ControlStore(c, id, cap, off, data);
      } else {
        ControlElsewhere(c, id, Owner(c.caps, off), off, data);
        Untouched(c, off, data, bar, EnableAt(id, cap));
      }
    } else {
      OutsideCap(c, k, off, data);
      Untouched(c, off, data, bar, EnableAt(id, cap));
    }
  }

  lemma OutsideCap(c: Config, k: nat, off: nat, data: seq<Byte>)
    requires Inv(c) && k < |c.caps| && Accepted(off, data) && !IsCap(c, off)
    ensures off + |data| <= c.caps[k] || c.caps[k] + 4 <= off
  {
    assert At(c.mem, c.caps, c.ids, k);
    if off < CAP_START {
      AlignedBelow(off, |data|, CAP_START);
    } else {
      assert c.caps[k] <= c.caps[|c.caps| - 1];
    }
  }

  /** No single-byte write to the byte of message control that holds the enable bit. */
  predicate WholeControl(events: seq<Event>, id: Byte, cap: nat) {
    forall k :: 0 <= k < |events| ==>
      events[k].Write? && !(events[k].off == EnableAt(id, cap) && |events[k].data| == 1)
  }

  lemma {:induction false} FlagFollowsGuest(c: Config, id: Byte, k: nat, events: seq<Event>, r: Config)
    requires Inv(c) && TheOne(c, id, k) && c.caps[k] + 3 < REGS && Agrees(c, id, c.caps[k])
    requires Run(c, events, r) && WholeControl(events, id, c.caps[k])
    ensures |r.mem| == REGS && r.caps == c.caps && Agrees(r, id, c.caps[k])
    decreases |events|
  {
    if events != [] {
      var e := events[0];
      assert e.Write?;
      GuestWriteInv(c, e.off, e.data, e.bar);
      AgreesIff(c, id, k, e.off, e.data, e.bar);
      FlagFollowsGuest(Apply(c, e), id, k, events[1..], r);
    }
  }

  /** From a fresh space: one MSI capability, and a guest that sets its enable bit by a one-byte write. */
  lemma FlagCanDisagree(c: Config) returns (d: Config, r: Config)
    requires Fresh(c) && !c.msi
    ensures Step(c, Add([MSI, 0, 0, 0]), d) && HasOne(d, MSI) && Step(d, Write(CAP_START + 2, [1], BAR0), r)
    ensures |r.mem| == REGS && Agrees(d, MSI, CAP_START) && !Agrees(r, MSI, CAP_START)
  {
    d := WithOne(MSI, c);
    assert TheOne(d, MSI, 0);
    r := Apply(d, Write(CAP_START + 2, [1], BAR0));
    GuestWriteInv(d, CAP_START + 2, [1], BAR0);
    AgreesIff(d, MSI, 0, CAP_START + 2, [1], BAR0);
  }

  // ---------------------------------------------------------------- what a guest reads back

  /** A write of the whole message control register: of its two bytes, or of the dword it is part of. */
  predicate ToControl(cap: nat, off: nat, data: seq<Byte>) {
    (off == cap + 2 && |data| == 2) || (off == cap && |data| == 4)
  }

  /** A byte of a capability that a write at `off` may change. */
  predicate Writable(id: Byte, cap: nat, off: nat, data: seq<Byte>, a: nat) {
    && (id == MSI || id == MSIX || id == EXPRESS)
    && cap + 2 <= a && (cap + 2 <= off || (off == cap && |data| == 4))
  }

  /** The byte after a write in a capability: what was there, what was written, or bits of each. */
  predicate CapByte(id: Byte, cap: nat, off: nat, data: seq<Byte>, a: nat, was: Byte, r: Byte)
    requires off <= a < off + |data|
  {
    var w := data[a - off];
    if !Writable(id, cap, off, data, a) then r == was
    else if ToControl(cap, off, data) && id == MSI then
      if a == cap + 2
      then r % 2 == w % 2 && r / 2 % 8 == was / 2 % 8 && r / 16 % 8 == w / 16 % 8 && r / 128 == was / 128
      else r == was
    else if ToControl(cap, off, data) && id == MSIX then
      if a == cap + 2 then r == was else r / 64 == w / 64 && r % 64 == was % 64
    else r == w
  }

  lemma StoredByte(c: Config, cap: nat, off: nat, data: seq<Byte>, a: nat)
    requires cap + 2 <= off <= a < off + |data| <= |c.mem|
    ensures
      var r := CapStore(c, cap, off, data).mem;
      |r| == |c.mem| && CapByte(c.mem[cap], cap, off, data, a, c.mem[a], r[a])
  {
    ControlBits(c.mem[a], data[a - off]);
  }

  lemma CapWriteByte(c: Config, cap: nat, off: nat, data: seq<Byte>, a: nat)
    requires cap <= off <= a < off + |data| <= |c.mem|
    ensures
      var r := CapWrite(c, cap, off, data).mem;
      |r| == |c.mem| && CapByte(c.mem[cap], cap, off, data, a, c.mem[a], r[a])
  {
    if cap + 2 <= off {
      StoredByte(c, cap, off, data, a);
    } else if off == cap && |data| == 4 && cap + 2 <= a {
      StoredByte(c, cap, off + 2, data[2..], a);
    }
  }

  /** The byte after a write in the command and status registers, bits 0-6 and 8-10 of which are the guest's. */
  predicate CmdByte(a: nat, w: Byte, was: Byte, r: Byte) {
    if a == 4 then r % 128 == w % 128 && r / 128 == was / 128
    else if a == 5 then r % 8 == w % 8 && r / 8 == was / 8
    else r == was
  }

  /**
    The byte a guest reads back at every offset it has written: in a base address register the value settled on;
    in the command register its own bits; in a capability what `CapByte` says; elsewhere what it wrote. A write that
    is misaligned, or not of a whole base address register, changes nothing, and no write changes another byte.
   */
  lemma WriteReadBack(c: Config, off: nat, data: seq<Byte>, bar: seq<Byte>, a: nat)
    requires Inv(c) && |bar| == 4 && a < REGS
    requires IsCap(c, off) ==> c.caps != [] && c.caps[0] <= off && Owner(c.caps, off) <= off
    ensures |GuestWrite(c, off, data, bar).mem| == REGS
    ensures
      var r, was := GuestWrite(c, off, data, bar).mem[a], c.mem[a];
      if !Accepted(off, data) || !(off <= a < off + |data|) then r == was
      else if BAR_FIRST <= off < BAR_LIMIT then r == if |data| == 4 then bar[a - off] else was
      else if IsCap(c, off) then CapByte(c.mem[Owner(c.caps, off)], Owner(c.caps, off), off, data, a, was, r)
      else if 4 <= off < 8 then CmdByte(a, data[a - off], was, r)
      else r == data[a - off]
  {
    if !Accepted(off, data) {
    } else if !(off <= a < off + |data|) {
      Untouched(c, off, data, bar, a);
    } else if BAR_FIRST <= off < BAR_LIMIT {
    } else if IsCap(c, off) {
      StoreClear(c, off, data);
      CapWriteByte(c, Owner(c.caps, off), off, data, a);
    } else if 4 <= off < 8 {
      CmdStsBits(a, c.mem[a], data[a - off]);
    }
  }

  lemma StoreFlag(c: Config, cap: nat, off: nat, data: seq<Byte>, id: Byte)
    requires cap + 2 <= off && off + |data| <= |c.mem| && (id == MSI || id == MSIX)
    ensures EnableFlag(CapStore(c, cap, off, data), id) ==
      if c.mem[cap] == id && off == cap + 2 && |data| == 2 then EnableBit(id, data[EnableAt(id, cap) - off])
      else EnableFlag(c, id)
  {
    if off == cap + 2 && |data| == 2 {
      if id == MSI { ControlBits(c.mem[off], data[0]); } else { ControlBits(c.mem[off + 1], data[1]); }
    }
  }

  lemma WriteFlag(c: Config, cap: nat, off: nat, data: seq<Byte>, id: Byte)
    requires cap <= off && cap < |c.mem| && off + |data| <= |c.mem| && (id == MSI || id == MSIX)
    ensures EnableFlag(CapWrite(c, cap, off, data), id) ==
      if c.mem[cap] == id && ToControl(cap, off, data) then EnableBit(id, data[EnableAt(id, cap) - off])
      else EnableFlag(c, id)
  {
    if cap + 2 <= off {
      StoreFlag(c, cap, off, data, id);
    } else if off == cap && |data| == 4 {
      StoreFlag(c, cap, off + 2, data[2..], id);
    }
  }

  /** The enable flag is set from a write of the whole message control register of its capability, and from no other. */
  lemma FlagSet(c: Config, off: nat, data: seq<Byte>, bar: seq<Byte>, id: Byte)
    requires Inv(c) && |bar| == 4 && (id == MSI || id == MSIX)
    requires IsCap(c, off) ==> c.caps != [] && c.caps[0] <= off && Owner(c.caps, off) <= off
    ensures
      var hit := Accepted(off, data) && !(BAR_FIRST <= off < BAR_LIMIT) && IsCap(c, off)
                 && c.mem[Owner(c.caps, off)] == id && ToControl(Owner(c.caps, off), off, data);
      EnableFlag(GuestWrite(c, off, data, bar), id) ==
        if hit then EnableBit(id, data[EnableAt(id, Owner(c.caps, off)) - off]) else EnableFlag(c, id)
  {
    if Accepted(off, data) && !(BAR_FIRST <= off < BAR_LIMIT) && IsCap(c, off) {
      StoreClear(c, off, data);
      WriteFlag(c, Owner(c.caps, off), off, data, id);
    }
  }

  /** The bytes of a capability as given, with its next pointer cleared. */
  ghost predicate Holds(mem: seq<Byte>, off: nat, data: seq<Byte>)
    requires |data| > 0
  {
    && off + RoundUp4(|data|) <= |mem| && mem[off] == data[0] && mem[off + 1] == 0
    && forall k :: 2 <= k < |data| ==> mem[off + k] == data[k]
  }

  lemma AddedBytes(c: Config, off: Byte, data: seq<Byte>)
    requires Inv(c) && |data| > 0 && off == CapOffset(c) && off + RoundUp4(|data|) <= REGS
    ensures
      var r := Filled(Linked(c, off), off, data);
      && Holds(r, off, data) && (c.caps == [] ==> r[CAP_PTR] == CAP_START)
      && forall k :: CAP_START <= k < off && (c.caps == [] || k != c.prevcap + 1) ==> r[k] == c.mem[k]
  {
    LinkedBytes(c, off);
    FilledBytes(Linked(c, off), off, data);
  }

  /** A capability is added right after the last one, as long as it fits; its bytes are those given. */
  lemma AddExact(c: Config, data: seq<Byte>)
    requires Inv(c) && |data| > 0
    ensures
      var (r, ok) := AddCapability(c, data);
      var off := if c.caps == [] then CAP_START else c.capend + 1;
      && (ok <==> off + RoundUp4(|data|) <= REGS) && (!ok ==> r == c)
      && (ok ==>
            && Holds(r.mem, off, data) && |r.mem| == REGS && (c.caps == [] ==> r.mem[CAP_PTR] == CAP_START)
            && r.caps == c.caps + [off] && r.ids == c.ids + [data[0]] && r.capend + 1 == off + RoundUp4(|data|)
            && forall k :: CAP_START <= k < off && (c.caps == [] || k != c.prevcap + 1) ==> r.mem[k] == c.mem[k])
  {
    if CapOffset(c) + RoundUp4(|data|) <= REGS { AddedBytes(c, CapOffset(c), data); }
  }

  // ---------------------------------------------------------------- command and status

  /** Bits 7 and 11-15 of the command register and the whole status register. */
  predicate SameReadOnly(c: seq<Byte>, r: seq<Byte>) {
    |c| == |r| == REGS && r[4] / 128 == c[4] / 128 && r[5] / 8 == c[5] / 8 && r[6] == c[6] && r[7] == c[7]
  }

  lemma CmdStsBits(a: nat, was: Byte, w: Byte)
    ensures
      var r := CmdStsByte(a, was, w);
      if a == 4 then r / 128 == was / 128 && r % 128 == w % 128
      else if a == 5 then r / 8 == was / 8 && r % 8 == w % 8
      else r == was
  {
  }

  lemma CmdStsReadOnly(mem: seq<Byte>, off: nat, data: seq<Byte>)
    requires |mem| == REGS && 4 <= off && off + |data| <= 8
    ensures SameReadOnly(mem, CmdStsWrite(mem, off, data))
  {
    forall a: nat | 4 <= a < 8
      ensures var r := CmdStsWrite(mem, off, data)[a];
        if a == 4 then r / 128 == mem[a] / 128 else if a == 5 then r / 8 == mem[a] / 8 else r == mem[a]
    {
      if off <= a < off + |data| { CmdStsBits(a, mem[a], data[a - off]); }
    }
  }

  lemma ReadOnlyStep(c: Config, off: nat, data: seq<Byte>, bar: seq<Byte>)
    requires Inv(c) && |bar| == 4
    requires IsCap(c, off) ==> c.caps != [] && c.caps[0] <= off && Owner(c.caps, off) <= off
    ensures SameReadOnly(c.mem, GuestWrite(c, off, data, bar).mem)
  {
    if Accepted(off, data) && 4 <= off < 8 {
      AlignedBelow(off, |data|, 8);
      CmdStsReadOnly(c.mem, off, data);
    } else if Accepted(off, data) {
      if off < 4 { AlignedBelow(off, |data|, 4); }
      Untouched(c, off, data, bar, 4);
      Untouched(c, off, data, bar, 5);
      Untouched(c, off, data, bar, 6);
      Untouched(c, off, data, bar, 7);
    }
  }

  /** No sequence of guest writes changes a read-only bit of the command and status registers. */
  lemma {:induction false} ReadOnlySurvives(c: Config, events: seq<Event>, r: Config)
    requires Inv(c) && Run(c, events, r) && GuestOnly(events)
    ensures SameReadOnly(c.mem, r.mem)
    decreases |events|
  {
    if events != [] {
      var e := events[0];
      assert e.Write?;
      GuestWriteInv(c, e.off, e.data, e.bar);
      ReadOnlyStep(c, e.off, e.data, e.bar);
      ReadOnlySurvives(Apply(c, e), events[1..], r);
    }
  }

  // ---------------------------------------------------------------- the device instance

  lemma OwnerAt(caps: seq<nat>, off: nat, k: nat)
    requires Ascending(caps) && k < |caps| && caps[0] <= caps[k] <= off && (k + 1 < |caps| ==> off < caps[k + 1])
    ensures Owner(caps, off) == caps[k]
  {
    var i := OwnerIs(caps, off);
  }

  /** struct pci_devinst: the space is updated in place. */
  class DevInst {
    const cfgdata: array<Byte>
    var prevcap: nat
    var capend: nat
    var msi: bool
    var msix: bool
    ghost var caps: seq<nat>
    ghost var ids: seq<Byte>

    constructor ()
      ensures Fresh(View()) && fresh(cfgdata)
    {
      cfgdata := new Byte[REGS](_ => 0);
      prevcap, capend, msi, msix, caps, ids := 0, 0, false, false, [], [];
    }

    ghost function View(): (c: Config)
      reads this, cfgdata
    { Config(cfgdata[..], prevcap, capend, msi, msix, caps, ids) }

    method Store(off: nat, data: seq<Byte>)
      requires off + |data| <= cfgdata.Length
      modifies cfgdata
      ensures cfgdata[..] == Poke(old(cfgdata[..]), off, data)
    {
      for i := 0 to |data|
        invariant cfgdata[..] == Poke(old(cfgdata[..]), off, data[..i])
      {
        cfgdata[off + i] := data[i];
      }
      assert data[..|data|] == data;
    }

    method Link(capoff: Byte)
      requires cfgdata.Length == REGS && (CapPresent(cfgdata[..]) ==> prevcap + 1 < REGS)
      modifies cfgdata
      ensures cfgdata[..] == Linked(old(View()), capoff)
    {
      if cfgdata[STATUS] / 16 % 2 == 1 {
        Store(prevcap + 1, [capoff]);
      } else {
        Store(CAP_PTR, [capoff]);
        Store(STATUS, [SetPresent(cfgdata[STATUS])]);
      }
    }

    method Fill(capoff: nat, data: seq<Byte>)
      requires capoff + |data| <= cfgdata.Length && capoff + 1 < cfgdata.Length
      modifies cfgdata
      ensures cfgdata[..] == Filled(old(cfgdata[..]), capoff, data)
    {
      Store(capoff, data);
      Store(capoff + 1, [0]);
    }

    method Place(capoff: Byte, data: seq<Byte>)
      requires cfgdata.Length == REGS && (CapPresent(cfgdata[..]) ==> prevcap + 1 < REGS)
      requires capoff + |data| <= REGS && capoff + 1 < REGS
      modifies cfgdata
      ensures cfgdata[..] == Filled(Linked(old(View()), capoff), capoff, data)
    {
      Link(capoff);
      Fill(capoff, data);
    }

    /** `pci_emul_add_capability`. */
    method AddCap(data: seq<Byte>) returns (ok: bool)
      requires cfgdata.Length == REGS && (CapPresent(cfgdata[..]) ==> prevcap + 1 < REGS) && |data| > 0
      modifies this, cfgdata
      ensures (View(), ok) == AddCapability(old(View()), data)
    {
      var capoff := if cfgdata[STATUS] / 16 % 2 == 1 then capend + 1 else CAP_START;
      var end := capoff + RoundUp4(|data|);
      ok := end <= REGS;
      if ok {
        Place(capoff, data);
        prevcap, capend, caps, ids := capoff, end - 1, caps + [capoff], ids + [data[0]];
      }
    }

    /** The walk of `pci_emul_capwrite`: it ends, at a capability not above the offset. */
    method FindCap(off: nat) returns (capoff: nat)
      requires Inv(View()) && IsCap(View(), off)
      ensures capoff == Owner(caps, off) && CAP_START <= capoff <= off
    {
      capoff := CAP_START;
      ghost var k: nat := 0;
      assert At(cfgdata[..], caps, ids, 0);
      while true
        invariant k < |caps| && capoff == caps[k] <= off && At(cfgdata[..], caps, ids, k)
        decreases |caps| - k
      {
        var nextoff := cfgdata[capoff + 1];
        if nextoff == 0 {
          break;
        }
        assert At(cfgdata[..], caps, ids, |caps| - 1);
        if off >= capoff && off < nextoff {
          break;
        }
        capoff := nextoff;
        k := k + 1;
        assert At(cfgdata[..], caps, ids, k);
      }
      assert k + 1 < |caps| ==> At(cfgdata[..], caps, ids, k + 1);
      OwnerAt(caps, off, k);
    }

    /** `msicap_cfgwrite`, `msixcap_cfgwrite` and `pciecap_cfgwrite`, chosen by the identifier. */
    method StoreCap(cap: nat, off: nat, data: seq<Byte>)
      requires cap < off && off + |data| <= cfgdata.Length
      modifies cfgdata, `msi, `msix
      ensures View() == CapStore(old(View()), cap, off, data)
    {
      var id := cfgdata[cap];
      if id == MSI && off == cap + 2 && |data| == 2 {
        var low := MsiControl(cfgdata[off], data[0]);
        msi := low % 2 == 1;
        Store(off, [low, cfgdata[off + 1]]);
      } else if id == MSIX && off == cap + 2 && |data| == 2 {
        var high := MsixControl(cfgdata[off + 1], data[1]);
        msix := high / 128 == 1;
        Store(off, [cfgdata[off], high]);
      } else if Known(id) {
        Store(off, data);
      }
    }

    /** `pci_emul_capwrite`. */
    method WriteCap(off: nat, data: seq<Byte>)
      requires Inv(View()) && IsCap(View(), off) && Accepted(off, data)
      modifies cfgdata, `msi, `msix
      ensures Owner(caps, off) <= off && off + |data| <= cfgdata.Length
      ensures View() == CapWrite(old(View()), Owner(caps, off), off, data)
    {
      StoreClear(View(), off, data);
      var cap := FindCap(off);
      if off == cap || off == cap + 1 {
        if off == cap && |data| == 4 {
          StoreCap(cap, off + 2, data[2..]);
        }
      } else {
        StoreCap(cap, off, data);
      }
    }

    /** `pci_emul_cmdsts_write`, as far as the space goes. */
    method WriteCmdSts(off: nat, data: seq<Byte>)
      requires off + |data| <= cfgdata.Length
      modifies cfgdata
      ensures cfgdata[..] == CmdStsWrite(old(cfgdata[..]), off, data)
    {
      Store(off, Masked(off, cfgdata[off..off + |data|], data));
    }

    /** The write half of `pci_cfgrw` for a device with no handler of its own. */
    method CfgWrite(off: nat, data: seq<Byte>, bar: seq<Byte>)
      requires Inv(View()) && |bar| == 4
      modifies cfgdata, `msi, `msix
      ensures IsCap(old(View()), off) ==> caps != [] && caps[0] <= off && Owner(caps, off) <= off
      ensures View() == GuestWrite(old(View()), off, data, bar) && Inv(View())
    {
      GuestWriteInv(View(), off, data, bar);
      if !Accepted(off, data) {
        return;
      }
      AlignedBelow(off, |data|, REGS);
      if BAR_FIRST <= off < BAR_LIMIT {
        if |data| == 4 {
          Store(off, bar);
        }
      } else if cfgdata[STATUS] / 16 % 2 == 1 && CAP_START <= off <= capend {
        WriteCap(off, data);
      } else if 4 <= off < 8 {
        WriteCmdSts(off, data);
      } else {
        Store(off, data);
      }
    }
  }
}
