/**
  Legacy PCI interrupts (src/lib/pci_emul.c:1478-1596, src/lib/pci_irq.c:48-186): each device's
  IDLE/ASSERTED/PENDING machine, the eight-pin PIRQ router that devices share, and the ISA and I/O APIC
  lines the two of them drive.

  A device's pi_lintr.lock is held over several steps: deciding, the pin's critical section in the router,
  the I/O APIC call made after that section when it raised or lowered no ISA line, and setting the state.
  Configuration writes change the interrupt-disable conditions with no lock and are followed by
  pci_lintr_update.
 */
module IntxRouting {
  import Bits

  const PINS: nat := 8
  const IRQS: nat := 16
  const PIRQ_DIS: nat := 0x80

  datatype Lintr = Idle | Asserted | Pending

  /** What the holder of a device's lock has still to do. */
  datatype Task = NoTask | ToRaise | RaiseLine | ToLower | LowerLine | ToSuspend | SuspendLine | ToPend

  /**
    `pin` is pirq_pin, zero when not routed; `counted` tells whether the router counts the device, `lined`
    whether its I/O APIC line is asserted for it, and `owed` how many calls of pci_lintr_update
    configuration writes have still to make.
   */
  datatype Dev = Dev(
    state: Lintr, msi: bool, msix: bool, intxDis: bool, pin: nat, line: nat,
    task: Task, counted: bool, lined: bool, owed: nat)

  datatype Pirq = Pirq(reg: nat, active: int)

  /** The whole of interrupt routing, with net assertions per ISA IRQ and per I/O APIC line. */
  datatype Sys = Sys(devs: seq<Dev>, pirqs: seq<Pirq>, isa: seq<int>, ioapic: seq<int>)

  /** IRQs 3-7, 9-12, 14 and 15. */
  predicate IrqPermitted(irq: nat) { irq in {3, 4, 5, 6, 7, 9, 10, 11, 12, 14, 15} }

  function Irq(reg: nat): (irq: nat)
    ensures irq < IRQS
  { reg % 16 }

  /** `pirq_valid_irq`. */
  predicate ValidReg(reg: nat) { reg < PIRQ_DIS && IrqPermitted(Irq(reg)) }

  /** val & (PIRQ_DIS | PIRQ_IRQ). */
  function RegMask(val: nat): (reg: nat) { (if val / 128 % 2 == 1 then 128 else 0) + val % 16 }

  /** The same by bits. */
  lemma RegMaskIs(val: nat)
    requires val < 256
    ensures RegMask(val) == Bits.And(val, 0x8f)
  {
    Bits.AndOnes(val, 35);
    Bits.AndOnes(val / 4, 8);
    Bits.AndZeros(val / 16, 2);
    Bits.AndDouble(val / 16 / 4, 1);
    Bits.AndDouble(val / 128, 0);
    assert val / 4 / 4 == val / 16 && val / 16 / 4 / 2 == val / 128;
    assert val % 16 == val % 4 + 4 * (val / 4 % 4);
  }

  /** `pci_lintr_permitted`. */
  predicate Permitted(d: Dev) { !(d.msi || d.msix || d.intxDis) }

  function Bump(s: seq<int>, i: nat, n: int): (r: seq<int>) {
    if i < |s| then s[i := s[i] + n] else s
  }

  /** The ISA line a pin holds asserted. */
  predicate Drives(p: Pirq, irq: nat) { p.active > 0 && ValidReg(p.reg) && Irq(p.reg) == irq }

  /** `pirq_write`. */
  function PirqWrite(s: Sys, p: nat, val: nat): (r: Sys)
    requires p < |s.pirqs|
  {
    var q := s.pirqs[p];
    var reg := RegMask(val);
    if q.reg == reg then s
    else
      var isa := if q.active != 0 && ValidReg(q.reg) then Bump(s.isa, Irq(q.reg), -1) else s.isa;
      s.(pirqs := s.pirqs[p := q.(reg := reg)],
         isa := if q.active != 0 && ValidReg(reg) then Bump(isa, Irq(reg), 1) else isa)
  }

  /** Whether a change of active_count to n raises or lowers the pin's ISA line, the device's line with it. */
  predicate Edge(p: Pirq, n: int) { p.active == n && ValidReg(p.reg) }

  /** The critical section of `pci_irq_assert` (n == 1) and `pci_irq_deassert` (n == -1). */
  function Routed(s: Sys, pin: nat, line: nat, n: int): (r: (Sys, bool))
    requires pin <= |s.pirqs|
  {
    if pin == 0 then (s, false)
    else
      var p := s.pirqs[pin - 1].(active := s.pirqs[pin - 1].active + n);
      var t := s.(pirqs := s.pirqs[pin - 1 := p]);
      if Edge(p, if n == 1 then 1 else 0)
      then (t.(isa := Bump(s.isa, Irq(p.reg), n), ioapic := Bump(s.ioapic, line, n)), true)
      else (t, false)
  }

  function SetDev(s: Sys, i: nat, d: Dev): (r: Sys)
    requires i < |s.devs|
  { s.(devs := s.devs[i := d]) }

  // ---------------------------------------------------------------- steps

  datatype Event =
    | BeginAssert(i: nat)                                      // pci_lintr_assert, up to the router
    | BeginDeassert(i: nat)                                    // pci_lintr_deassert, up to the router
    | BeginUpdate(i: nat)                                      // pci_lintr_update, up to the router
    | Route(i: nat)                                            // the router's critical section
    | Line(i: nat)                                             // xh_vm_ioapic_assert_irq or _deassert_irq
    | Settle(i: nat)                                           // state set after the router was told
    | Config(i: nat, msi: bool, msix: bool, intxDis: bool)     // MSI, MSI-X or command register write
    | WriteReg(p: nat, val: nat)                               // pirq_write

  predicate Enabled(s: Sys, e: Event) {
    match e
    case BeginAssert(i) => i < |s.devs| && s.devs[i].task.NoTask?
    case BeginDeassert(i) => i < |s.devs| && s.devs[i].task.NoTask?
    case BeginUpdate(i) => i < |s.devs| && s.devs[i].task.NoTask? && s.devs[i].owed > 0
    case Route(i) =>
      && i < |s.devs| && s.devs[i].pin <= |s.pirqs|
      && (s.devs[i].task.ToRaise? || s.devs[i].task.ToLower? || s.devs[i].task.ToSuspend?)
    case Line(i) =>
      i < |s.devs| && (s.devs[i].task.RaiseLine? || s.devs[i].task.LowerLine? || s.devs[i].task.SuspendLine?)
    case Settle(i) => i < |s.devs| && s.devs[i].task.ToPend?
    case Config(i, _, _, _) => i < |s.devs|
    case WriteReg(p, val) => p < |s.pirqs| && val < 256
  }

  function LineTask(t: Task): (u: Task) {
    if t.ToRaise? then RaiseLine else if t.ToLower? then LowerLine else SuspendLine
  }

  /** The device once its line follows; pci_lintr_update sets PENDING only afterwards. */
  function AfterLine(d: Dev, up: bool): (r: Dev) {
    d.(lined := up, task := if d.task.ToSuspend? || d.task.SuspendLine? then ToPend else NoTask)
  }

  function Apply(s: Sys, e: Event): (r: Sys)
    requires Enabled(s, e)
  {
    match e
    case BeginAssert(i) =>
      var d := s.devs[i];
      if d.state != Idle then s
      else SetDev(s, i, if Permitted(d) then d.(state := Asserted, task := ToRaise) else d.(state := Pending))
    case BeginDeassert(i) =>
      var d := s.devs[i];
      SetDev(s, i, if d.state == Asserted then d.(state := Idle, task := ToLower) else d.(state := Idle))
    case BeginUpdate(i) =>
      var d := s.devs[i].(owed := s.devs[i].owed - 1);
      SetDev(s, i,
        if d.state == Asserted && !Permitted(d) then d.(task := ToSuspend)
        else if d.state == Pending && Permitted(d) then d.(state := Asserted, task := ToRaise)
        else d)
    case Route(i) =>
      var d := s.devs[i];
      var up := d.task.ToRaise?;
      var (t, both) := Routed(s, d.pin, d.line, if up then 1 else -1);
      SetDev(t, i, if both then AfterLine(d, up).(counted := up) else d.(counted := up, task := LineTask(d.task)))
    case Line(i) =>
      var d := s.devs[i];
      var up := d.task.RaiseLine?;
      SetDev(s.(ioapic := Bump(s.ioapic, d.line, if up then 1 else -1)), i, AfterLine(d, up))
    case Settle(i) => SetDev(s, i, s.devs[i].(state := Pending, task := NoTask))
    case Config(i, msi, msix, intxDis) =>
      SetDev(s, i, s.devs[i].(msi := msi, msix := msix, intxDis := intxDis, owed := s.devs[i].owed + 1))
    case WriteReg(p, val) => PirqWrite(s, p, val)
  }

  // ---------------------------------------------------------------- counting

  function OnPin(devs: seq<Dev>, pin: nat): (n: nat) {
    if devs == [] then 0 else OnPin(devs[1..], pin) + (if devs[0].counted && devs[0].pin == pin then 1 else 0)
  }

  function OnLine(devs: seq<Dev>, line: nat): (n: nat) {
    if devs == [] then 0 else OnLine(devs[1..], line) + (if devs[0].lined && devs[0].line == line then 1 else 0)
  }

  function Share(p: Pirq, irq: nat): (n: nat) { if Drives(p, irq) then 1 else 0 }

  function Driving(pirqs: seq<Pirq>, irq: nat): (n: nat) {
    if pirqs == [] then 0 else Driving(pirqs[1..], irq) + Share(pirqs[0], irq)
  }

  lemma {:induction false} OnPinSet(devs: seq<Dev>, i: nat, d: Dev, pin: nat)
    requires i < |devs|
    ensures OnPin(devs[i := d], pin) ==
      OnPin(devs, pin) - (if devs[i].counted && devs[i].pin == pin then 1 else 0)
        + (if d.counted && d.pin == pin then 1 else 0)
  {
    if i > 0 {
      assert devs[i := d][1..] == devs[1..][i - 1 := d];
      OnPinSet(devs[1..], i - 1, d, pin);
    } else {
      assert devs[i := d][1..] == devs[1..];
    }
  }

  lemma {:induction false} OnLineSet(devs: seq<Dev>, i: nat, d: Dev, line: nat)
    requires i < |devs|
    ensures OnLine(devs[i := d], line) ==
      OnLine(devs, line) - (if devs[i].lined && devs[i].line == line then 1 else 0)
        + (if d.lined && d.line == line then 1 else 0)
  {
    if i > 0 {
      assert devs[i := d][1..] == devs[1..][i - 1 := d];
      OnLineSet(devs[1..], i - 1, d, line);
    } else {
      assert devs[i := d][1..] == devs[1..];
    }
  }

  lemma {:induction false} DrivingSet(pirqs: seq<Pirq>, p: nat, q: Pirq, irq: nat)
    requires p < |pirqs|
    ensures Driving(pirqs[p := q], irq) ==
      Driving(pirqs, irq) - Share(pirqs[p], irq) + Share(q, irq)
  {
    if p > 0 {
      assert pirqs[p := q][1..] == pirqs[1..][p - 1 := q];
      DrivingSet(pirqs[1..], p - 1, q, irq);
    } else {
      assert pirqs[p := q][1..] == pirqs[1..];
    }
  }

  // ---------------------------------------------------------------- invariant

  predicate Suspending(t: Task) { t.ToSuspend? || t.SuspendLine? || t.ToPend? }

  /** What the lock holder has left to do says how state and router may disagree. */
  predicate DevOk(d: Dev, lines: nat) {
    && d.pin <= PINS && d.line < lines
    && (match d.task
        case NoTask => d.counted == d.lined == (d.state == Asserted)
        case ToRaise => !d.counted && !d.lined && d.state == Asserted
        case RaiseLine => d.counted && !d.lined && d.state == Asserted
        case ToLower => d.counted && d.lined && d.state == Idle
        case LowerLine => !d.counted && d.lined && d.state == Idle
        case ToSuspend => d.counted && d.lined && d.state == Asserted
        case SuspendLine => !d.counted && d.lined && d.state == Asserted
        case ToPend => !d.counted && !d.lined && d.state == Asserted)
    && (d.owed == 0 ==>
          && (d.state == Pending ==> !Permitted(d))
          && (d.state == Asserted ==> (Permitted(d) <==> !Suspending(d.task))))
  }

  ghost predicate Devs(devs: seq<Dev>, lines: nat) {
    forall i :: 0 <= i < |devs| ==> DevOk(devs[i], lines)
  }

  /** active_count is the number of devices the router counts on the pin. */
  ghost predicate PinCounts(devs: seq<Dev>, pirqs: seq<Pirq>) {
    |pirqs| == PINS && forall p :: 0 <= p < PINS ==> pirqs[p].active == OnPin(devs, p + 1)
  }

  /** An ISA line is asserted once for each pin that drives it. */
  ghost predicate IsaCounts(pirqs: seq<Pirq>, isa: seq<int>) {
    |isa| == IRQS && forall irq :: 0 <= irq < IRQS ==> isa[irq] == Driving(pirqs, irq)
  }

  /** An I/O APIC line is asserted once for each device counted on it. */
  ghost predicate LineCounts(devs: seq<Dev>, ioapic: seq<int>) {
    forall l :: 0 <= l < |ioapic| ==> ioapic[l] == OnLine(devs, l)
  }

  ghost predicate Inv(s: Sys) {
    && Devs(s.devs, |s.ioapic|)
    && PinCounts(s.devs, s.pirqs) && IsaCounts(s.pirqs, s.isa) && LineCounts(s.devs, s.ioapic)
  }

  // ---------------------------------------------------------------- every step keeps it

  lemma SameCounts(s: Sys, i: nat, d: Dev)
    requires Inv(s) && i < |s.devs| && DevOk(d, |s.ioapic|)
    requires d.counted == s.devs[i].counted && d.lined == s.devs[i].lined
    requires d.pin == s.devs[i].pin && d.line == s.devs[i].line
    ensures Inv(SetDev(s, i, d))
  {
    SamePin(s.devs, s.pirqs, i, d);
    SameLine(s.devs, s.ioapic, i, d);
  }

  /** One device more (n == 1) or one fewer (n == -1) on a pin and a line. */
  lemma PinStep(devs: seq<Dev>, pirqs: seq<Pirq>, i: nat, d: Dev, n: int, q: Pirq)
    requires PinCounts(devs, pirqs) && i < |devs| && 0 < devs[i].pin <= PINS
    requires d.pin == devs[i].pin && d.counted != devs[i].counted && n == (if d.counted then 1 else -1)
    requires q.active == pirqs[d.pin - 1].active + n
    ensures PinCounts(devs[i := d], pirqs[d.pin - 1 := q])
  {
    var pirqs' := pirqs[d.pin - 1 := q];
    forall p | 0 <= p < PINS ensures pirqs'[p].active == OnPin(devs[i := d], p + 1) {
      OnPinSet(devs, i, d, p + 1);
    }
  }

  lemma UnroutedStep(devs: seq<Dev>, pirqs: seq<Pirq>, i: nat, d: Dev)
    requires PinCounts(devs, pirqs) && i < |devs| && devs[i].pin == 0 && d.pin == 0
    ensures PinCounts(devs[i := d], pirqs)
  {
    forall p | 0 <= p < PINS ensures pirqs[p].active == OnPin(devs[i := d], p + 1) {
      OnPinSet(devs, i, d, p + 1);
    }
  }

  lemma LineStep(devs: seq<Dev>, ioapic: seq<int>, i: nat, d: Dev, n: int)
    requires LineCounts(devs, ioapic) && i < |devs| && d.line < |ioapic|
    requires d.line == devs[i].line && d.lined != devs[i].lined && n == (if d.lined then 1 else -1)
    ensures LineCounts(devs[i := d], Bump(ioapic, d.line, n))
  {
    forall l | 0 <= l < |ioapic| ensures Bump(ioapic, d.line, n)[l] == OnLine(devs[i := d], l) {
      OnLineSet(devs, i, d, l);
    }
  }

  /** Releasing the old line of a pin and driving the new one. */
  lemma IsaStep(pirqs: seq<Pirq>, isa: seq<int>, p: nat, q: Pirq, isa': seq<int>)
    requires IsaCounts(pirqs, isa) && p < |pirqs| && |isa'| == IRQS
    requires forall irq :: 0 <= irq < IRQS ==> isa'[irq] == isa[irq] - Share(pirqs[p], irq) + Share(q, irq)
    ensures IsaCounts(pirqs[p := q], isa')
  {
    forall irq | 0 <= irq < IRQS ensures isa'[irq] == Driving(pirqs[p := q], irq) {
      DrivingSet(pirqs, p, q, irq);
    }
  }

  lemma SameLine(devs: seq<Dev>, ioapic: seq<int>, i: nat, d: Dev)
    requires LineCounts(devs, ioapic) && i < |devs| && d.line == devs[i].line && d.lined == devs[i].lined
    ensures LineCounts(devs[i := d], ioapic)
  {
    forall l | 0 <= l < |ioapic| ensures ioapic[l] == OnLine(devs[i := d], l) { OnLineSet(devs, i, d, l); }
  }

  lemma SamePin(devs: seq<Dev>, pirqs: seq<Pirq>, i: nat, d: Dev)
    requires PinCounts(devs, pirqs) && i < |devs| && d.pin == devs[i].pin && d.counted == devs[i].counted
    ensures PinCounts(devs[i := d], pirqs)
  {
    forall p | 0 <= p < PINS ensures pirqs[p].active == OnPin(devs[i := d], p + 1) { OnPinSet(devs, i, d, p + 1); }
  }

  /** The router's critical section: how it changes each component. */
  lemma RoutedIsa(s: Sys, pin: nat, line: nat, n: int)
    requires IsaCounts(s.pirqs, s.isa) && pin <= |s.pirqs| && (n == 1 || n == -1)
    requires pin > 0 ==> s.pirqs[pin - 1].active >= (if n == 1 then 0 else 1)
    ensures IsaCounts(Routed(s, pin, line, n).0.pirqs, Routed(s, pin, line, n).0.isa)
  {
    var r := Routed(s, pin, line, n).0;
    if pin > 0 {
      IsaStep(s.pirqs, s.isa, pin - 1, r.pirqs[pin - 1], r.isa);
    }
  }

  lemma RoutedPins(s: Sys, i: nat, d: Dev, n: int)
    requires PinCounts(s.devs, s.pirqs) && i < |s.devs| && s.devs[i].pin <= PINS
    requires d.pin == s.devs[i].pin && d.counted != s.devs[i].counted && n == (if d.counted then 1 else -1)
    ensures PinCounts(s.devs[i := d], Routed(s, d.pin, d.line, n).0.pirqs)
    ensures d.pin > 0 ==> s.pirqs[d.pin - 1].active >= (if n == 1 then 0 else 1)
  {
    if d.pin == 0 {
      UnroutedStep(s.devs, s.pirqs, i, d);
    } else {
      OnPinSet(s.devs, i, d, d.pin);
      PinStep(s.devs, s.pirqs, i, d, n, Routed(s, d.pin, d.line, n).0.pirqs[d.pin - 1]);
    }
  }

  lemma RoutedLines(s: Sys, i: nat, d: Dev, n: int)
    requires LineCounts(s.devs, s.ioapic) && i < |s.devs| && d.pin <= |s.pirqs| && d.line < |s.ioapic|
    requires d.line == s.devs[i].line && (n == 1 || n == -1) && s.devs[i].lined == (n == -1)
    requires d.lined == ((n == 1) == Routed(s, d.pin, d.line, n).1)
    ensures LineCounts(s.devs[i := d], Routed(s, d.pin, d.line, n).0.ioapic)
  {
    if Routed(s, d.pin, d.line, n).1 {
      LineStep(s.devs, s.ioapic, i, d, n);
    } else {
      SameLine(s.devs, s.ioapic, i, d);
    }
  }

  lemma RouteCounts(s: Sys, i: nat)
    requires Inv(s) && Enabled(s, Route(i))
    ensures Inv(Apply(s, Route(i)))
  {
    var d := Apply(s, Route(i)).devs[i];
    var n := if s.devs[i].task.ToRaise? then 1 else -1;
    assert DevOk(s.devs[i], |s.ioapic|);
    assert DevOk(d, |s.ioapic|);
    RoutedPins(s, i, d, n);
    RoutedIsa(s, d.pin, d.line, n);
    RoutedLines(s, i, d, n);
  }

  lemma LineCountsStep(s: Sys, i: nat)
    requires Inv(s) && Enabled(s, Line(i))
    ensures Inv(Apply(s, Line(i)))
  {
    var d := Apply(s, Line(i)).devs[i];
    assert DevOk(s.devs[i], |s.ioapic|);
    LineStep(s.devs, s.ioapic, i, d, if s.devs[i].task.RaiseLine? then 1 else -1);
    SamePin(s.devs, s.pirqs, i, d);
  }

  lemma WriteCounts(s: Sys, p: nat, val: nat)
    requires Inv(s) && p < PINS
    ensures Inv(PirqWrite(s, p, val))
  {
    var r := PirqWrite(s, p, val);
    assert s.pirqs[p].active == OnPin(s.devs, p + 1);
    if s.pirqs[p].reg != RegMask(val) {
      IsaStep(s.pirqs, s.isa, p, r.pirqs[p], r.isa);
    }
  }

  lemma StepKeepsInv(s: Sys, e: Event)
    requires Inv(s) && Enabled(s, e)
    ensures Inv(Apply(s, e))
  {
    match e
    case BeginAssert(i) => if s.devs[i].state == Idle { SameCounts(s, i, Apply(s, e).devs[i]); }
    case BeginDeassert(i) => SameCounts(s, i, Apply(s, e).devs[i]);
    case BeginUpdate(i) => SameCounts(s, i, Apply(s, e).devs[i]);
    case Route(i) => RouteCounts(s, i);
    case Line(i) => LineCountsStep(s, i);
    case Settle(i) => SameCounts(s, i, Apply(s, e).devs[i]);
    case Config(i, _, _, _) => SameCounts(s, i, Apply(s, e).devs[i]);
    case WriteReg(p, val) => WriteCounts(s, p, val);
  }

  // ---------------------------------------------------------------- runs

  /** The routing left by initialisation: no line asserted, every device idle, all pins released. */
  predicate Initial(s: Sys) {
    && |s.pirqs| == PINS && (forall p :: 0 <= p < PINS ==> s.pirqs[p].active == 0)
    && s.isa == seq(IRQS, _ => 0)
    && (forall l :: 0 <= l < |s.ioapic| ==> s.ioapic[l] == 0)
    && (forall i :: 0 <= i < |s.devs| ==> IdleDev(s.devs[i]) && s.devs[i].line < |s.ioapic|)
  }

  predicate IdleDev(d: Dev) {
    d.state == Idle && d.task.NoTask? && !d.counted && !d.lined && d.owed == 0 && d.pin <= PINS
  }

  ghost predicate Run(s: Sys, events: seq<Event>, r: Sys)
    decreases |events|
  {
    if events == [] then r == s else Enabled(s, events[0]) && Run(Apply(s, events[0]), events[1..], r)
  }

  lemma {:induction false} IdleCounts(devs: seq<Dev>, k: nat)
    requires forall i :: 0 <= i < |devs| ==> IdleDev(devs[i])
    ensures OnPin(devs, k) == 0 && OnLine(devs, k) == 0
  {
    if devs != [] {
      assert IdleDev(devs[0]);
      IdleCounts(devs[1..], k);
    }
  }

  lemma {:induction false} NoneDriving(pirqs: seq<Pirq>, irq: nat)
    requires forall p :: 0 <= p < |pirqs| ==> pirqs[p].active == 0
    ensures Driving(pirqs, irq) == 0
  {
    if pirqs != [] {
      assert pirqs[0].active == 0;
      NoneDriving(pirqs[1..], irq);
    }
  }

  lemma InitialInv(s: Sys)
    requires Initial(s)
    ensures Inv(s)
  {
    forall p | 0 <= p < PINS ensures s.pirqs[p].active == OnPin(s.devs, p + 1) { IdleCounts(s.devs, p + 1); }
    forall irq | 0 <= irq < IRQS ensures s.isa[irq] == Driving(s.pirqs, irq) { NoneDriving(s.pirqs, irq); }
    forall l | 0 <= l < |s.ioapic| ensures s.ioapic[l] == OnLine(s.devs, l) { IdleCounts(s.devs, l); }
  }

  lemma {:induction false} RunInv(s: Sys, events: seq<Event>, r: Sys)
    requires Inv(s) && Run(s, events, r)
    ensures Inv(r)
    decreases |events|
  {
    if events != [] {
      StepKeepsInv(s, events[0]);
      RunInv(Apply(s, events[0]), events[1..], r);
    }
  }

  // ---------------------------------------------------------------- what the lines show

  /** The devices ASSERTED on a pin, by their own state alone. */
  function AssertedOn(devs: seq<Dev>, pin: nat): (n: nat) {
    if devs == [] then 0
    else AssertedOn(devs[1..], pin) + (if devs[0].state == Asserted && devs[0].pin == pin then 1 else 0)
  }

  function AssertedAt(devs: seq<Dev>, line: nat): (n: nat) {
    if devs == [] then 0
    else AssertedAt(devs[1..], line) + (if devs[0].state == Asserted && devs[0].line == line then 1 else 0)
  }

  /** No device lock is held. */
  predicate Quiet(devs: seq<Dev>) { forall i :: 0 <= i < |devs| ==> devs[i].task.NoTask? }

  lemma {:induction false} QuietCounts(devs: seq<Dev>, lines: nat, k: nat)
    requires Quiet(devs) && Devs(devs, lines)
    ensures OnPin(devs, k) == AssertedOn(devs, k) && OnLine(devs, k) == AssertedAt(devs, k)
  {
    if devs != [] {
      assert DevOk(devs[0], lines) && devs[0].task.NoTask?;
      QuietCounts(devs[1..], lines, k);
    }
  }

  /** The value a pin's register was last given. */
  function Register(was: nat, events: seq<Event>, p: nat): (reg: nat)
    decreases |events|
  {
    if events == [] then was
    else
      var e := events[0];
      Register(if e.WriteReg? && e.p == p then Bits.And(e.val, 0x8f) else was, events[1..], p)
  }

  lemma {:induction false} RegisterIs(s: Sys, events: seq<Event>, r: Sys, p: nat)
    requires Run(s, events, r) && p < |s.pirqs|
    ensures p < |r.pirqs| && r.pirqs[p].reg == Register(s.pirqs[p].reg, events, p)
    decreases |events|
  {
    if events != [] {
      if events[0].WriteReg? { RegMaskIs(events[0].val); }
      RegisterIs(Apply(s, events[0]), events[1..], r, p);
    }
  }

  /**
    After any interleaving of device and register activity, whenever no device lock is held: active_count
    of a pin is the number of ASSERTED devices routed to it, and its register holds what was last written
    there; the net assertions of an ISA IRQ are the pins with such a device whose register is valid and names
    it, and those of an I/O APIC line are its ASSERTED devices.
   */
  lemma LinesMatchDevices(s: Sys, events: seq<Event>, r: Sys)
    requires Initial(s) && Run(s, events, r) && Quiet(r.devs)
    ensures |r.pirqs| == PINS && |r.isa| == IRQS
    ensures forall p :: 0 <= p < PINS ==> r.pirqs[p].active == AssertedOn(r.devs, p + 1)
    ensures forall irq :: 0 <= irq < IRQS ==> r.isa[irq] == Driving(r.pirqs, irq)
    ensures forall l :: 0 <= l < |r.ioapic| ==> r.ioapic[l] == AssertedAt(r.devs, l)
    ensures forall p :: 0 <= p < PINS ==> r.pirqs[p].reg == Register(s.pirqs[p].reg, events, p)
  {
    InitialInv(s);
    RunInv(s, events, r);
    forall p | 0 <= p < PINS ensures r.pirqs[p].reg == Register(s.pirqs[p].reg, events, p) {
      RegisterIs(s, events, r, p);
    }
    forall p | 0 <= p < PINS ensures r.pirqs[p].active == AssertedOn(r.devs, p + 1) {
      QuietCounts(r.devs, |r.ioapic|, p + 1);
    }
    forall l | 0 <= l < |r.ioapic| ensures r.ioapic[l] == AssertedAt(r.devs, l) {
      QuietCounts(r.devs, |r.ioapic|, l);
    }
  }

  // ---------------------------------------------------------------- what the devices asked for

  /** Whether the device's last call was pci_lintr_assert rather than pci_lintr_deassert. */
  predicate Wants(was: bool, events: seq<Event>, i: nat)
    decreases |events|
  {
    if events == [] then was
    else
      Wants(if events[0] == BeginAssert(i) then true else if events[0] == BeginDeassert(i) then false else was,
            events[1..], i)
  }

  /** Whether INTx is permitted by the last configuration write, from what MSI, MSI-X and the command register say. */
  predicate Allows(was: bool, events: seq<Event>, i: nat)
    decreases |events|
  {
    if events == [] then was
    else
      var e := events[0];
      Allows(if e.Config? && e.i == i then !e.msi && !e.msix && !e.intxDis else was, events[1..], i)
  }

  /** Configuration writes of the device whose pci_lintr_update is still to come. */
  function Unmet(was: int, events: seq<Event>, i: nat): (n: int)
    decreases |events|
  {
    if events == [] then was
    else
      var e := events[0];
      Unmet(if e.Config? && e.i == i then was + 1 else if e == BeginUpdate(i) then was - 1 else was, events[1..], i)
  }

  lemma AskedStep(s: Sys, e: Event, i: nat)
    requires Inv(s) && Enabled(s, e) && i < |s.devs|
    ensures
      var d, d' := s.devs[i], Apply(s, e).devs[i];
      && (d'.state != Idle <==> Wants(d.state != Idle, [e], i))
      && (Permitted(d') <==> Allows(Permitted(d), [e], i)) && d'.owed == Unmet(d.owed, [e], i)
  {
    assert DevOk(s.devs[i], |s.ioapic|);
    assert [e][1..] == [];
  }

  lemma {:induction false} AskedIs(s: Sys, events: seq<Event>, r: Sys, i: nat)
    requires Inv(s) && Run(s, events, r) && i < |s.devs|
    ensures i < |r.devs|
    ensures r.devs[i].state != Idle <==> Wants(s.devs[i].state != Idle, events, i)
    ensures Permitted(r.devs[i]) <==> Allows(Permitted(s.devs[i]), events, i)
    ensures r.devs[i].owed == Unmet(s.devs[i].owed, events, i)
    decreases |events|
  {
    if events != [] {
      assert [events[0]][1..] == [];
      AskedStep(s, events[0], i);
      StepKeepsInv(s, events[0]);
      AskedIs(Apply(s, events[0]), events[1..], r, i);
    }
  }

  /**
    Once no lock is held and no configuration write still owes its pci_lintr_update, a device is IDLE exactly when
    its last call was not an assert; otherwise it is ASSERTED exactly when the last configuration permits INTx and
    PENDING exactly when it does not. Calls and configuration are read off the run.
   */
  lemma PermissionObeyed(s: Sys, events: seq<Event>, r: Sys, i: nat)
    requires Initial(s) && Run(s, events, r) && i < |s.devs|
    ensures i < |r.devs| && (r.devs[i].state != Idle <==> Wants(false, events, i))
    ensures r.devs[i].task.NoTask? && Unmet(0, events, i) == 0 ==>
      r.devs[i].state ==
        if !Wants(false, events, i) then Idle
        else if Allows(Permitted(s.devs[i]), events, i) then Asserted else Pending
  {
    InitialInv(s);
    RunInv(s, events, r);
    AskedIs(s, events, r, i);
    assert DevOk(r.devs[i], |r.ioapic|);
  }

  // ---------------------------------------------------------------- whole calls

  /** `pci_irq_assert` or `pci_irq_deassert` as a whole: the line follows unless the ISA line took it along. */
  function Turned(s: Sys, i: nat): (r: Sys)
    requires Enabled(s, Route(i))
    ensures |r.devs| == |s.devs| && r.devs[i].task == (if s.devs[i].task.ToSuspend? then ToPend else NoTask)
  {
    var t := Apply(s, Route(i));
    if Enabled(t, Line(i)) then Apply(t, Line(i)) else t
  }

  /** A whole call of one of the three lintr operations, begun by e, with nothing in between. */
  function Call(s: Sys, i: nat, e: Event): (r: Sys)
    requires (e == BeginAssert(i) || e == BeginDeassert(i) || e == BeginUpdate(i)) && Enabled(s, e)
    requires s.devs[i].pin <= |s.pirqs|
  {
    var t := Apply(s, e);
    var u := if Enabled(t, Route(i)) then Turned(t, i) else t;
    if Enabled(u, Settle(i)) then Apply(u, Settle(i)) else u
  }

  lemma OneMore(s: Sys, e: Event, events: seq<Event>, r: Sys)
    requires Enabled(s, e) && Run(Apply(s, e), events, r)
    ensures Run(s, [e] + events, r)
  {
    assert ([e] + events)[1..] == events;
  }

  lemma SettleIsRun(s: Sys, i: nat) returns (events: seq<Event>)
    ensures Run(s, events, if Enabled(s, Settle(i)) then Apply(s, Settle(i)) else s)
  {
    events := [];
    if Enabled(s, Settle(i)) {
      OneMore(s, Settle(i), [], Apply(s, Settle(i)));
      events := [Settle(i)];
    }
  }

  lemma TurnedIsRun(s: Sys, i: nat, rest: seq<Event>, r: Sys) returns (events: seq<Event>)
    requires Enabled(s, Route(i)) && Run(Turned(s, i), rest, r)
    ensures Run(s, events, r)
  {
    var t := Apply(s, Route(i));
    events := rest;
    if Enabled(t, Line(i)) {
      OneMore(t, Line(i), rest, r);
      events := [Line(i)] + rest;
    }
    OneMore(s, Route(i), events, r);
    events := [Route(i)] + events;
  }

  /** An uninterrupted call is one of the runs above, so all that holds of every run holds of it. */
  lemma CallIsRun(s: Sys, i: nat, e: Event) returns (events: seq<Event>)
    requires (e == BeginAssert(i) || e == BeginDeassert(i) || e == BeginUpdate(i)) && Enabled(s, e)
    requires s.devs[i].pin <= |s.pirqs|
    ensures Run(s, events, Call(s, i, e))
  {
    var t := Apply(s, e);
    var u := if Enabled(t, Route(i)) then Turned(t, i) else t;
    events := SettleIsRun(u, i);
    if Enabled(t, Route(i)) {
      events := TurnedIsRun(t, i, events, Call(s, i, e));
    }
    OneMore(s, e, events, Call(s, i, e));
    events := [e] + events;
  }

  /** How many more assertions a whole call puts on its device's pin and line, by state and permission before it. */
  function Change(d: Dev, e: Event): (n: int) {
    match e
    case BeginAssert(_) => if d.state == Idle && Permitted(d) then 1 else 0
    case BeginDeassert(_) => if d.state == Asserted then -1 else 0
    case _ => if d.state == Pending && Permitted(d) then 1 else if d.state == Asserted && !Permitted(d) then -1 else 0
  }

  /** The state it leaves. */
  function Left(d: Dev, e: Event): (state: Lintr) {
    match e
    case BeginAssert(_) => if d.state != Idle then d.state else if Permitted(d) then Asserted else Pending
    case BeginDeassert(_) => Idle
    case _ => if d.state == Idle then Idle else if Permitted(d) then Asserted else Pending
  }

  /** `n` more assertions on a pin, registers and other pins as before. */
  ghost predicate PinsMoved(a: seq<Pirq>, b: seq<Pirq>, pin: nat, n: int) {
    && |b| == |a|
    && forall p :: 0 <= p < |a| ==>
         b[p].reg == a[p].reg && b[p].active == a[p].active + (if p + 1 == pin then n else 0)
  }

  ghost predicate OthersSame(a: seq<Dev>, b: seq<Dev>, i: nat) {
    |b| == |a| && forall j :: 0 <= j < |a| && j != i ==> b[j] == a[j]
  }

  lemma RoutedExact(s: Sys, pin: nat, line: nat, n: int)
    requires pin <= |s.pirqs|
    ensures
      var (t, both) := Routed(s, pin, line, n);
      && PinsMoved(s.pirqs, t.pirqs, pin, n) && t.devs == s.devs
      && t.ioapic == if both then Bump(s.ioapic, line, n) else s.ioapic
  {
  }

  /** A call of the router as a whole: the pin and the line move together, one way or the other. */
  lemma TurnedExact(s: Sys, i: nat)
    requires Enabled(s, Route(i))
    ensures
      var d, r, n := s.devs[i], Turned(s, i), if s.devs[i].task.ToRaise? then 1 else -1;
      && PinsMoved(s.pirqs, r.pirqs, d.pin, n) && r.ioapic == Bump(s.ioapic, d.line, n)
      && OthersSame(s.devs, r.devs, i) && r.devs[i].state == d.state
  {
    var d, n := s.devs[i], if s.devs[i].task.ToRaise? then 1 else -1;
    RoutedExact(s, d.pin, d.line, n);
    var t, both := Apply(s, Route(i)), Routed(s, d.pin, d.line, n).1;
    assert OthersSame(s.devs, t.devs, i) && t.devs[i].line == d.line && t.devs[i].state == d.state;
    assert Enabled(t, Line(i)) <==> !both;
  }

  /**
    A whole call of pci_lintr_assert, pci_lintr_deassert or pci_lintr_update: the state it leaves, and one more or
    one fewer assertion on the device's pin and its I/O APIC line, or as many; nothing else changes.
   */
  lemma CallExact(s: Sys, i: nat, e: Event)
    requires (e == BeginAssert(i) || e == BeginDeassert(i) || e == BeginUpdate(i)) && Enabled(s, e)
    requires s.devs[i].pin <= |s.pirqs|
    ensures
      var d, r := s.devs[i], Call(s, i, e);
      && PinsMoved(s.pirqs, r.pirqs, d.pin, Change(d, e)) && r.ioapic == Bump(s.ioapic, d.line, Change(d, e))
      && OthersSame(s.devs, r.devs, i) && r.devs[i].state == Left(d, e) && r.devs[i].task.NoTask?
  {
    var t := Apply(s, e);
    BeginExact(s, i, e);
    if Enabled(t, Route(i)) { TurnedExact(t, i); }
  }

  /** Up to the router nothing but the device's own record changes. */
  lemma BeginExact(s: Sys, i: nat, e: Event)
    requires (e == BeginAssert(i) || e == BeginDeassert(i) || e == BeginUpdate(i)) && Enabled(s, e)
    ensures
      var t, d := Apply(s, e), s.devs[i];
      && t.pirqs == s.pirqs && t.ioapic == s.ioapic && OthersSame(s.devs, t.devs, i)
      && t.devs[i].pin == d.pin && t.devs[i].line == d.line
      && (t.devs[i].task.ToRaise? <==> Change(d, e) == 1)
      && (t.devs[i].task.ToLower? || t.devs[i].task.ToSuspend? <==> Change(d, e) == -1)
      && (t.devs[i].task.NoTask? <==> Change(d, e) == 0)
      && t.devs[i].state == (if t.devs[i].task.ToSuspend? then Asserted else Left(d, e))
      && (t.devs[i].task.ToSuspend? ==> Left(d, e) == Pending)
  {
  }

  /** And the ISA lines follow the pins. */
  lemma CallKeepsCounts(s: Sys, i: nat, e: Event)
    requires (e == BeginAssert(i) || e == BeginDeassert(i) || e == BeginUpdate(i)) && Enabled(s, e) && Inv(s)
    ensures s.devs[i].pin <= |s.pirqs| && Inv(Call(s, i, e))
  {
    assert DevOk(s.devs[i], |s.ioapic|);
    var events := CallIsRun(s, i, e);
    RunInv(s, events, Call(s, i, e));
  }

  /** The router and the devices behind it, updated in place. */
  class Router {
    const devs: array<Dev>
    const pirqs: array<Pirq>
    const isa: array<int>
    const ioapic: array<int>

    constructor (devs: array<Dev>, pirqs: array<Pirq>, isa: array<int>, ioapic: array<int>)
      ensures this.devs == devs && this.pirqs == pirqs && this.isa == isa && this.ioapic == ioapic
    {
      this.devs, this.pirqs, this.isa, this.ioapic := devs, pirqs, isa, ioapic;
    }

    ghost function View(): (s: Sys)
      reads devs, pirqs, isa, ioapic
    { Sys(devs[..], pirqs[..], isa[..], ioapic[..]) }

    ghost predicate Shape(i: nat)
      reads devs
    {
      && isa != ioapic && isa.Length == IRQS && pirqs.Length == PINS
      && i < devs.Length && devs[i].pin <= PINS && devs[i].line < ioapic.Length
    }

    method WritePirq(pin: nat, val: nat)
      requires 1 <= pin <= PINS == pirqs.Length && isa.Length == IRQS && isa != ioapic && val < 256
      modifies pirqs, isa
      ensures View() == Apply(old(View()), WriteReg(pin - 1, val))
    {
      var pirq := pirqs[pin - 1];
      if pirq.reg != RegMask(val) {
        if pirq.active != 0 && ValidReg(pirq.reg) {
          isa[Irq(pirq.reg)] := isa[Irq(pirq.reg)] - 1;
        }
        pirqs[pin - 1] := pirq.(reg := RegMask(val));
        if pirq.active != 0 && ValidReg(RegMask(val)) {
          isa[Irq(RegMask(val))] := isa[Irq(RegMask(val))] + 1;
        }
      }
    }

    /** The pin's part of `pci_irq_assert` and `pci_irq_deassert`; `both` when the ISA line took the call. */
    method RoutePin(i: nat, n: int) returns (both: bool)
      requires Shape(i) && devs[i].pin > 0 && (n == 1 || n == -1)
      modifies pirqs, isa, ioapic
      ensures (View(), both) == Routed(old(View()), devs[i].pin, devs[i].line, n)
    {
      var p := pirqs[devs[i].pin - 1].(active := pirqs[devs[i].pin - 1].active + n);
      pirqs[devs[i].pin - 1] := p;
      both := p.active == (if n == 1 then 1 else 0) && ValidReg(p.reg);
      if both {
        isa[Irq(p.reg)] := isa[Irq(p.reg)] + n;
        ioapic[devs[i].line] := ioapic[devs[i].line] + n;
      }
    }

    /** The first half of `pci_irq_assert` and `pci_irq_deassert`, noting on the device how far it got. */
    method RouteStep(i: nat)
      requires Shape(i) && Enabled(View(), Route(i))
      modifies devs, pirqs, isa, ioapic
      ensures Shape(i) && View() == Apply(old(View()), Route(i))
    {
      var up := devs[i].task.ToRaise?;
      var both := false;
      if devs[i].pin > 0 {
        both := RoutePin(i, if up then 1 else -1);
      }
      devs[i] :=
        if both then AfterLine(devs[i], up).(counted := up)
        else devs[i].(counted := up, task := LineTask(devs[i].task));
    }

    /** Their second half, skipped when the ISA line took the I/O APIC line along. */
    method LineStep(i: nat)
      requires Shape(i)
      modifies devs, ioapic
      ensures Shape(i)
      ensures View() == if Enabled(old(View()), Line(i)) then Apply(old(View()), Line(i)) else old(View())
    {
      var task := devs[i].task;
      if task.RaiseLine? {
        ioapic[devs[i].line] := ioapic[devs[i].line] + 1;
        devs[i] := AfterLine(devs[i], true);
      } else if task.LowerLine? || task.SuspendLine? {
        ioapic[devs[i].line] := ioapic[devs[i].line] - 1;
        devs[i] := AfterLine(devs[i], false);
      }
    }

    method Turn(i: nat)
      requires Shape(i) && Enabled(View(), Route(i))
      modifies devs, pirqs, isa, ioapic
      ensures Shape(i) && View() == Turned(old(View()), i)
    {
      RouteStep(i);
      LineStep(i);
    }

    method Suspend(i: nat)
      requires Shape(i) && devs[i].task.ToSuspend?
      modifies devs, pirqs, isa, ioapic
      ensures View() == Apply(Turned(old(View()), i), Settle(i))
    {
      Turn(i);
      devs[i] := devs[i].(state := Pending, task := NoTask);
    }

    /** `pci_lintr_assert`. */
    method LintrAssert(i: nat)
      requires Shape(i) && devs[i].task.NoTask?
      modifies devs, pirqs, isa, ioapic
      ensures View() == Call(old(View()), i, BeginAssert(i))
    {
      if devs[i].state == Idle {
        if Permitted(devs[i]) {
          devs[i] := devs[i].(state := Asserted, task := ToRaise);
          assert View() == Apply(old(View()), BeginAssert(i));
          Turn(i);
        } else {
          devs[i] := devs[i].(state := Pending);
        }
      }
    }

    /** `pci_lintr_deassert` of an ASSERTED device. */
    method DeassertAsserted(i: nat)
      requires Shape(i) && devs[i].task.NoTask? && devs[i].state == Asserted
      modifies devs, pirqs, isa, ioapic
      ensures View() == Call(old(View()), i, BeginDeassert(i))
    {
      devs[i] := devs[i].(state := Idle, task := ToLower);
      assert View() == Apply(old(View()), BeginDeassert(i));
      Turn(i);
    }

    /** `pci_lintr_deassert`. */
    method LintrDeassert(i: nat)
      requires Shape(i) && devs[i].task.NoTask?
      modifies devs, pirqs, isa, ioapic
      ensures View() == Call(old(View()), i, BeginDeassert(i))
    {
      if devs[i].state == Asserted {
        DeassertAsserted(i);
      } else {
        devs[i] := devs[i].(state := Idle);
        assert View() == Apply(old(View()), BeginDeassert(i));
      }
    }

    /** An ASSERTED device that is no longer permitted. */
    method UpdateAsserted(i: nat)
      requires Shape(i) && devs[i].task.NoTask? && devs[i].owed > 0 && devs[i].state == Asserted && !Permitted(devs[i])
      modifies devs, pirqs, isa, ioapic
      ensures View() == Call(old(View()), i, BeginUpdate(i))
    {
      devs[i] := devs[i].(owed := devs[i].owed - 1, task := ToSuspend);
      assert View() == Apply(old(View()), BeginUpdate(i));
      Suspend(i);
    }

    /** A PENDING device that is permitted again. */
    method UpdatePending(i: nat)
      requires Shape(i) && devs[i].task.NoTask? && devs[i].owed > 0 && devs[i].state == Pending && Permitted(devs[i])
      modifies devs, pirqs, isa, ioapic
      ensures View() == Call(old(View()), i, BeginUpdate(i))
    {
      devs[i] := devs[i].(owed := devs[i].owed - 1, state := Asserted, task := ToRaise);
      assert View() == Apply(old(View()), BeginUpdate(i));
      Turn(i);
    }

    /** `pci_lintr_update`, the call a configuration write owes. */
    method LintrUpdate(i: nat)
      requires Shape(i) && devs[i].task.NoTask? && devs[i].owed > 0
      modifies devs, pirqs, isa, ioapic
      ensures View() == Call(old(View()), i, BeginUpdate(i))
    {
      if devs[i].state == Asserted && !Permitted(devs[i]) {
        UpdateAsserted(i);
      } else if devs[i].state == Pending && Permitted(devs[i]) {
        UpdatePending(i);
      } else {
        devs[i] := devs[i].(owed := devs[i].owed - 1);
      }
    }
  }
}
