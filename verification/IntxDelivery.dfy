// Legacy interrupt delivery: devices share the pins of a PIRQ router and of the I/O APIC.
module IntxDelivery {
  const PIRQS := 8

  datatype Lintr = Idle | Asserted | Pending

  // struct pci_vdev: the interrupt part, after routing
  datatype Device = Device(pirqPin: nat, ioapicIrq: int, state: Lintr, msi: bool, msix: bool, intxDis: bool)
  // struct pirq
  datatype Pirq = Pirq(reg: Route, active: int)
  // the bits a PIRQ register keeps: bit 7 and bits 3..0
  datatype Route = Route(disabled: bool, irq: nat)

  // calls into the hypervisor; ioapic == -1 means the I/O APIC is not addressed
  datatype Call = IsaAssert(irq: nat, ioapic: int) | IsaDeassert(irq: nat, ioapic: int)
                | IoapicAssert(pin: int) | IoapicDeassert(pin: int)

  predicate IrqPermitted(irq: nat) { 3 <= irq <= 7 || 9 <= irq <= 12 || 14 <= irq <= 15 }

  function PirqMask(val: nat): Route { Route(val / 128 % 2 == 1, val % 16) }

  predicate PirqValid(reg: Route) { !reg.disabled && IrqPermitted(reg.irq) }

  predicate Permitted(d: Device) { !(d.msi || d.msix || d.intxDis) }

  // ---- net effect of a log ----

  ghost function PicDelta(c: Call, irq: nat): int {
    match c
    case IsaAssert(i, _) => if i == irq then 1 else 0
    case IsaDeassert(i, _) => if i == irq then -1 else 0
    case _ => 0
  }

  ghost function IoDelta(c: Call, pin: int): int {
    match c
    case IsaAssert(_, p) => if p == pin then 1 else 0
    case IsaDeassert(_, p) => if p == pin then -1 else 0
    case IoapicAssert(p) => if p == pin then 1 else 0
    case IoapicDeassert(p) => if p == pin then -1 else 0
  }

  // Asserts minus deasserts on one PIC line.
  ghost function PicNet(log: seq<Call>, irq: nat): int {
    if log == [] then 0 else PicNet(log[..|log| - 1], irq) + PicDelta(log[|log| - 1], irq)
  }

  // Asserts minus deasserts on one I/O APIC pin.
  ghost function IoNet(log: seq<Call>, pin: int): int {
    if log == [] then 0 else IoNet(log[..|log| - 1], pin) + IoDelta(log[|log| - 1], pin)
  }

  lemma NetAppend(log: seq<Call>, c: Call, n: nat)
    ensures PicNet(log + [c], n) == PicNet(log, n) + PicDelta(c, n)
    ensures IoNet(log + [c], n) == IoNet(log, n) + IoDelta(c, n)
  {
    assert (log + [c])[..|log|] == log;
  }

  // ---- what the counters should be ----

  predicate OnPirq(d: Device, p: nat) { d.state == Asserted && d.pirqPin == p + 1 }

  predicate OnIoapic(d: Device, pin: int) { d.state == Asserted && d.ioapicIrq == pin }

  predicate Drives(q: Pirq, irq: nat) { q.active != 0 && PirqValid(q.reg) && q.reg.irq == irq }

  function One(b: bool): int { if b then 1 else 0 }

  // Devices driving a router pin, devices driving an I/O APIC pin, and router pins driving a PIC line.
  ghost function CountPirq(s: seq<Device>, p: nat): nat {
    if s == [] then 0 else CountPirq(s[..|s| - 1], p) + One(OnPirq(s[|s| - 1], p))
  }

  lemma {:induction false} CountPirqUpdate(s: seq<Device>, i: nat, x: Device, p: nat)
    requires i < |s|
    ensures CountPirq(s[i := x], p) == CountPirq(s, p) - One(OnPirq(s[i], p)) + One(OnPirq(x, p))
  {
    var n := |s| - 1;
    if i == n {
      assert s[i := x][..n] == s[..n];
    } else {
      assert s[i := x][..n] == s[..n][i := x];
      CountPirqUpdate(s[..n], i, x, p);
    }
  }

  ghost function CountIoapic(s: seq<Device>, pin: int): nat {
    if s == [] then 0 else CountIoapic(s[..|s| - 1], pin) + One(OnIoapic(s[|s| - 1], pin))
  }

  lemma {:induction false} CountIoapicUpdate(s: seq<Device>, i: nat, x: Device, pin: int)
    requires i < |s|
    ensures CountIoapic(s[i := x], pin) == CountIoapic(s, pin) - One(OnIoapic(s[i], pin)) + One(OnIoapic(x, pin))
  {
    var n := |s| - 1;
    if i == n {
      assert s[i := x][..n] == s[..n];
    } else {
      assert s[i := x][..n] == s[..n][i := x];
      CountIoapicUpdate(s[..n], i, x, pin);
    }
  }

  ghost function CountDriving(s: seq<Pirq>, irq: nat): nat {
    if s == [] then 0 else CountDriving(s[..|s| - 1], irq) + One(Drives(s[|s| - 1], irq))
  }

  lemma {:induction false} CountDrivingUpdate(s: seq<Pirq>, i: nat, x: Pirq, irq: nat)
    requires i < |s|
    ensures CountDriving(s[i := x], irq) == CountDriving(s, irq) - One(Drives(s[i], irq)) + One(Drives(x, irq))
  {
    var n := |s| - 1;
    if i == n {
      assert s[i := x][..n] == s[..n];
    } else {
      assert s[i := x][..n] == s[..n][i := x];
      CountDrivingUpdate(s[..n], i, x, irq);
    }
  }

  // Every interrupt line; names the line a quantified statement is about.
  ghost predicate Line(n: nat) { true }

  ghost predicate PicAgrees(pirqs: seq<Pirq>, log: seq<Call>) {
    forall irq: nat {:trigger Line(irq)} :: Line(irq) ==> PicNet(log, irq) == CountDriving(pirqs, irq)
  }

  ghost predicate IoAgrees(devs: seq<Device>, log: seq<Call>) {
    forall pin: nat {:trigger Line(pin)} :: Line(pin) ==> IoNet(log, pin) == CountIoapic(devs, pin)
  }

  ghost predicate PinsAgree(devs: seq<Device>, pirqs: seq<Pirq>) {
    forall p: nat {:trigger Line(p)} :: Line(p) && p < |pirqs| ==> pirqs[p].active == CountPirq(devs, p)
  }

  // Counters and calls agree with the devices, on every line.
  ghost predicate Conserved(devs: seq<Device>, pirqs: seq<Pirq>, log: seq<Call>) {
    && |pirqs| == PIRQS
    && (forall d :: 0 <= d < |devs| ==> devs[d].pirqPin <= PIRQS && devs[d].ioapicIrq >= 0)
    && PinsAgree(devs, pirqs) && PicAgrees(pirqs, log) && IoAgrees(devs, log)
  }

  // At no time were there more deasserts than asserts on any line.
  ghost predicate Steady(log: seq<Call>) {
    log == [] ||
    (&& Steady(log[..|log| - 1])
     && (forall irq: nat {:trigger Line(irq)} :: Line(irq) ==> PicNet(log, irq) >= 0)
     && (forall pin: nat {:trigger Line(pin)} :: Line(pin) ==> IoNet(log, pin) >= 0))
  }

  lemma SteadyStep(devs: seq<Device>, pirqs: seq<Pirq>, log: seq<Call>, c: Call)
    requires Steady(log) && Conserved(devs, pirqs, log + [c])
    ensures Steady(log + [c])
  {
    assert (log + [c])[..|log|] == log;
  }

  // ---- raising and lowering one device's wire ----

  function AssertCall(pirqs: seq<Pirq>, pin: nat, ioapic: int): Call
    requires |pirqs| == PIRQS && pin <= PIRQS
  {
    if pin > 0 && pirqs[pin - 1].active == 0 && PirqValid(pirqs[pin - 1].reg)
    then IsaAssert(pirqs[pin - 1].reg.irq, ioapic) else IoapicAssert(ioapic)
  }

  function DeassertCall(pirqs: seq<Pirq>, pin: nat, ioapic: int): Call
    requires |pirqs| == PIRQS && pin <= PIRQS
  {
    if pin > 0 && pirqs[pin - 1].active == 1 && PirqValid(pirqs[pin - 1].reg)
    then IsaDeassert(pirqs[pin - 1].reg.irq, ioapic) else IoapicDeassert(ioapic)
  }

  function Bump(pirqs: seq<Pirq>, pin: nat, delta: int): seq<Pirq>
    requires |pirqs| == PIRQS && pin <= PIRQS
  {
    if pin > 0 then pirqs[pin - 1 := pirqs[pin - 1].(active := pirqs[pin - 1].active + delta)] else pirqs
  }

  // One call that moves one router pin keeps the PIC lines in step.
  lemma PicStep(pirqs: seq<Pirq>, log: seq<Call>, p: nat, q: Pirq, c: Call)
    requires PicAgrees(pirqs, log) && p < |pirqs|
    requires forall irq: nat {:trigger Line(irq)} :: Line(irq) ==>
      PicDelta(c, irq) == One(Drives(q, irq)) - One(Drives(pirqs[p], irq))
    ensures PicAgrees(pirqs[p := q], log + [c])
  {
    forall irq: nat ensures PicNet(log + [c], irq) == CountDriving(pirqs[p := q], irq) {
      assert Line(irq);
      CountDrivingUpdate(pirqs, p, q, irq);
      NetAppend(log, c, irq);
    }
  }

  // One call that moves one device keeps the I/O APIC pins in step.
  lemma IoStep(devs: seq<Device>, log: seq<Call>, i: nat, d: Device, c: Call)
    requires IoAgrees(devs, log) && i < |devs|
    requires forall pin: nat {:trigger Line(pin)} :: Line(pin) ==>
      IoDelta(c, pin) == One(OnIoapic(d, pin)) - One(OnIoapic(devs[i], pin))
    ensures IoAgrees(devs[i := d], log + [c])
  {
    forall pin: nat ensures IoNet(log + [c], pin) == CountIoapic(devs[i := d], pin) {
      assert Line(pin);
      CountIoapicUpdate(devs, i, d, pin);
      NetAppend(log, c, pin);
    }
  }

  // The router pin of one device keeps counting it.
  lemma PinStep(devs: seq<Device>, pirqs: seq<Pirq>, i: nat, d: Device, delta: int)
    requires PinsAgree(devs, pirqs) && i < |devs| && |pirqs| == PIRQS && d.pirqPin == devs[i].pirqPin <= PIRQS
    requires delta == One(d.state == Asserted) - One(devs[i].state == Asserted)
    ensures PinsAgree(devs[i := d], Bump(pirqs, d.pirqPin, delta))
    ensures d.pirqPin > 0 ==> pirqs[d.pirqPin - 1].active >= 0 && pirqs[d.pirqPin - 1].active + delta >= 0
  {
    forall p: nat | p < PIRQS
      ensures Bump(pirqs, d.pirqPin, delta)[p].active == CountPirq(devs[i := d], p) && 0 <= pirqs[p].active
    {
      assert Line(p);
      CountPirqUpdate(devs, i, d, p);
    }
  }

  // A call that leaves every PIC line alone.
  lemma PicSilent(pirqs: seq<Pirq>, log: seq<Call>, c: Call)
    requires PicAgrees(pirqs, log) && (c.IoapicAssert? || c.IoapicDeassert?)
    ensures PicAgrees(pirqs, log + [c])
  {
    forall irq: nat ensures PicNet(log + [c], irq) == CountDriving(pirqs, irq) {
      assert Line(irq);
      NetAppend(log, c, irq);
    }
  }

  lemma IoSilent(devs: seq<Device>, log: seq<Call>, c: Call)
    requires IoAgrees(devs, log) && (c.IsaAssert? || c.IsaDeassert?) && c.ioapic == -1
    ensures IoAgrees(devs, log + [c])
  {
    forall pin: nat ensures IoNet(log + [c], pin) == CountIoapic(devs, pin) {
      assert Line(pin);
      NetAppend(log, c, pin);
    }
  }

  // A device drives its wire.
  lemma RaiseConserves(devs: seq<Device>, pirqs: seq<Pirq>, log: seq<Call>, i: nat)
    requires Conserved(devs, pirqs, log) && Steady(log) && i < |devs| && devs[i].state != Asserted
    ensures var d, c := devs[i].(state := Asserted), AssertCall(pirqs, devs[i].pirqPin, devs[i].ioapicIrq);
      Conserved(devs[i := d], Bump(pirqs, d.pirqPin, 1), log + [c]) && Steady(log + [c])
  {
    var d, pin := devs[i].(state := Asserted), devs[i].pirqPin;
    var c := AssertCall(pirqs, pin, d.ioapicIrq);
    PinStep(devs, pirqs, i, d, 1);
    if pin > 0 {
      PicStep(pirqs, log, pin - 1, Bump(pirqs, pin, 1)[pin - 1], c);
    } else {
      PicSilent(pirqs, log, c);
    }
    IoStep(devs, log, i, d, c);
    SteadyStep(devs[i := d], Bump(pirqs, pin, 1), log, c);
  }

  // A device releases its wire.
  lemma LowerConserves(devs: seq<Device>, pirqs: seq<Pirq>, log: seq<Call>, i: nat, to: Lintr)
    requires Conserved(devs, pirqs, log) && Steady(log) && i < |devs| && devs[i].state == Asserted && to != Asserted
    ensures var d, c := devs[i].(state := to), DeassertCall(pirqs, devs[i].pirqPin, devs[i].ioapicIrq);
      Conserved(devs[i := d], Bump(pirqs, d.pirqPin, -1), log + [c]) && Steady(log + [c])
  {
    var d, pin := devs[i].(state := to), devs[i].pirqPin;
    var c := DeassertCall(pirqs, pin, d.ioapicIrq);
    PinStep(devs, pirqs, i, d, -1);
    if pin > 0 {
      PicStep(pirqs, log, pin - 1, Bump(pirqs, pin, -1)[pin - 1], c);
    } else {
      PicSilent(pirqs, log, c);
    }
    IoStep(devs, log, i, d, c);
    SteadyStep(devs[i := d], Bump(pirqs, pin, -1), log, c);
  }

  // ---- reprogramming one router pin ----

  function Off(pirqs: seq<Pirq>, p: nat): seq<Pirq> requires p < |pirqs|
  {
    pirqs[p := pirqs[p].(reg := Route(true, 0))]
  }

  lemma UnrouteConserves(devs: seq<Device>, pirqs: seq<Pirq>, log: seq<Call>, p: nat)
    requires Conserved(devs, pirqs, log) && Steady(log) && p < PIRQS
    requires pirqs[p].active != 0 && PirqValid(pirqs[p].reg)
    ensures Conserved(devs, Off(pirqs, p), log + [IsaDeassert(pirqs[p].reg.irq, -1)])
    ensures Steady(log + [IsaDeassert(pirqs[p].reg.irq, -1)])
  {
    var c := IsaDeassert(pirqs[p].reg.irq, -1);
    PicStep(pirqs, log, p, Off(pirqs, p)[p], c);
    IoSilent(devs, log, c);
    SteadyStep(devs, Off(pirqs, p), log, c);
  }

  lemma RerouteConserves(devs: seq<Device>, pirqs: seq<Pirq>, log: seq<Call>, p: nat, reg: Route)
    requires p < PIRQS == |pirqs| && Conserved(devs, Off(pirqs, p), log) && Steady(log)
    requires pirqs[p].active != 0 && PirqValid(reg)
    ensures Conserved(devs, pirqs[p := pirqs[p].(reg := reg)], log + [IsaAssert(reg.irq, -1)])
    ensures Steady(log + [IsaAssert(reg.irq, -1)])
  {
    var c := IsaAssert(reg.irq, -1);
    var pirqs' := pirqs[p := pirqs[p].(reg := reg)];
    assert Off(pirqs, p)[p := pirqs'[p]] == pirqs';
    PicStep(Off(pirqs, p), log, p, pirqs'[p], c);
    IoSilent(devs, log, c);
    SteadyStep(devs, pirqs', log, c);
  }

  lemma SilentReroute(devs: seq<Device>, pirqs: seq<Pirq>, log: seq<Call>, p: nat, reg: Route)
    requires Conserved(devs, pirqs, log) && p < PIRQS
    requires pirqs[p].active == 0 || (!PirqValid(pirqs[p].reg) && !PirqValid(reg))
    ensures Conserved(devs, pirqs[p := pirqs[p].(reg := reg)], log)
  {
    var pirqs' := pirqs[p := pirqs[p].(reg := reg)];
    forall irq: nat ensures PicNet(log, irq) == CountDriving(pirqs', irq) {
      assert Line(irq);
      CountDrivingUpdate(pirqs, p, pirqs'[p], irq);
    }
  }

  function UnrouteLog(q: Pirq, log: seq<Call>): seq<Call> {
    if q.active != 0 && PirqValid(q.reg) then log + [IsaDeassert(q.reg.irq, -1)] else log
  }

  function RerouteLog(q: Pirq, reg: Route, log: seq<Call>): seq<Call> {
    if q.active != 0 && PirqValid(reg) then log + [IsaAssert(reg.irq, -1)] else log
  }

  // A router pin lets go of its line.
  lemma UnrouteStep(devs: seq<Device>, pirqs: seq<Pirq>, log: seq<Call>, p: nat)
    requires Conserved(devs, pirqs, log) && Steady(log) && p < PIRQS
    ensures Conserved(devs, Off(pirqs, p), UnrouteLog(pirqs[p], log)) && Steady(UnrouteLog(pirqs[p], log))
  {
    if pirqs[p].active != 0 && PirqValid(pirqs[p].reg) {
      UnrouteConserves(devs, pirqs, log, p);
    } else {
      SilentReroute(devs, pirqs, log, p, Route(true, 0));
    }
  }

  // A router pin takes up its new line.
  lemma RerouteStep(devs: seq<Device>, pirqs: seq<Pirq>, log: seq<Call>, p: nat, reg: Route)
    requires p < PIRQS == |pirqs| && Conserved(devs, Off(pirqs, p), log) && Steady(log)
    ensures Conserved(devs, pirqs[p := pirqs[p].(reg := reg)], RerouteLog(pirqs[p], reg, log))
    ensures Steady(RerouteLog(pirqs[p], reg, log))
  {
    if pirqs[p].active != 0 && PirqValid(reg) {
      RerouteConserves(devs, pirqs, log, p, reg);
    } else {
      SilentReroute(devs, Off(pirqs, p), log, p, reg);
      assert Off(pirqs, p)[p := Off(pirqs, p)[p].(reg := reg)] == pirqs[p := pirqs[p].(reg := reg)];
    }
  }

  // A whole write to a router register.
  lemma RewriteConserves(devs: seq<Device>, pirqs: seq<Pirq>, log: seq<Call>, p: nat, reg: Route)
    requires Conserved(devs, pirqs, log) && Steady(log) && p < PIRQS
    ensures var q := pirqs[p]; var log' := RerouteLog(q, reg, UnrouteLog(q, log));
      Conserved(devs, pirqs[p := q.(reg := reg)], log') && Steady(log')
  {
    UnrouteStep(devs, pirqs, log, p);
    RerouteStep(devs, pirqs, UnrouteLog(pirqs[p], log), p, reg);
  }

  // A change of flags does not touch the wires.
  lemma FlagConserves(devs: seq<Device>, pirqs: seq<Pirq>, log: seq<Call>, i: nat, d: Device)
    requires Conserved(devs, pirqs, log) && i < |devs|
    requires d.pirqPin == devs[i].pirqPin && d.ioapicIrq == devs[i].ioapicIrq
    requires (d.state == Asserted <==> devs[i].state == Asserted)
    ensures Conserved(devs[i := d], pirqs, log)
  {
    forall n: nat
      ensures CountPirq(devs[i := d], n) == CountPirq(devs, n) && CountIoapic(devs[i := d], n) == CountIoapic(devs, n)
    {
      CountPirqUpdate(devs, i, d, n);
      CountIoapicUpdate(devs, i, d, n);
    }
  }

  // The state a device should be in, given that it asks for an interrupt or not.
  function Due(d: Device): Lintr {
    if d.state == Idle then Idle else if Permitted(d) then Asserted else Pending
  }

  // The wire is driven only when permitted, and a request is held back only when not.
  predicate Settled(d: Device) {
    (d.state == Asserted ==> Permitted(d)) && (d.state == Pending ==> !Permitted(d))
  }

  // Every request is remembered, and every device without an outstanding update is settled.
  ghost predicate Tracked(devs: seq<Device>, wants: set<nat>, owed: set<nat>) {
    forall i: nat :: i < |devs| ==> (i in wants <==> devs[i].state != Idle) && (i in owed || Settled(devs[i]))
  }

  /** Away from a flag change still to be acted on, a wire is driven exactly when asked for and permitted. */
  lemma WireDriven(devs: seq<Device>, wants: set<nat>, owed: set<nat>, i: nat)
    requires Tracked(devs, wants, owed) && i < |devs| && i !in owed
    ensures devs[i].state == Asserted <==> i in wants && Permitted(devs[i])
    ensures devs[i].state == Pending <==> i in wants && !Permitted(devs[i])
  {
    assert Settled(devs[i]);
  }

  // Devices that ask for an interrupt on I/O APIC pin 'pin' and may have it.
  ghost function Requests(devs: seq<Device>, wants: set<nat>, pin: int): nat {
    if devs == [] then 0
    else
      var n := |devs| - 1;
      Requests(devs[..n], wants, pin) + One(n in wants && Permitted(devs[n]) && devs[n].ioapicIrq == pin)
  }

  lemma {:induction false} AssertedAreRequests(devs: seq<Device>, wants: set<nat>, pin: int)
    requires Tracked(devs, wants, {})
    ensures CountIoapic(devs, pin) == Requests(devs, wants, pin)
  {
    if devs != [] {
      var n := |devs| - 1;
      WireDriven(devs, wants, {}, n);
      forall i: nat | i < n ensures (i in wants <==> devs[..n][i].state != Idle) && Settled(devs[..n][i]) {
        assert devs[..n][i] == devs[i];
      }
      AssertedAreRequests(devs[..n], wants, pin);
    }
  }

  // Steps of devices, guest and update code, in any order.
  datatype Event =
    | DeviceAsserts(dev: nat)
    | DeviceDeasserts(dev: nat)
    | FlagsChange(dev: nat, msi: bool, msix: bool, intxDis: bool)
    | UpdateRuns(dev: nat)
    | RouterWrite(pin: nat, val: nat)

  predicate EventOk(e: Event, devices: nat) {
    match e
    case RouterWrite(pin, val) => 0 < pin <= PIRQS && val < 256
    case _ => e.dev < devices
  }

  ghost function WantsStep(wants: set<nat>, e: Event): set<nat> {
    match e
    case DeviceAsserts(d) => wants + {d}
    case DeviceDeasserts(d) => wants - {d}
    case _ => wants
  }

  ghost function OwedStep(owed: set<nat>, e: Event): set<nat> {
    match e
    case FlagsChange(d, _, _, _) => owed + {d}
    case UpdateRuns(d) => owed - {d}
    case _ => owed
  }

  // ---- the fabric at one moment ----

  // Devices, router pins, the calls made so far, and what the devices ask for and are owed.
  datatype View = View(devs: seq<Device>, pirqs: seq<Pirq>, log: seq<Call>, wants: set<nat>, owed: set<nat>)

  ghost predicate ValidView(v: View) {
    Conserved(v.devs, v.pirqs, v.log) && Steady(v.log) && Tracked(v.devs, v.wants, v.owed)
  }

  // Router pins and devices are in place.
  predicate Shaped(v: View) {
    |v.pirqs| == PIRQS && forall d :: 0 <= d < |v.devs| ==> v.devs[d].pirqPin <= PIRQS
  }

  // Device i drives its wire: one call.
  function Raised(v: View, i: nat): View
    requires Shaped(v) && i < |v.devs|
  {
    var d := v.devs[i];
    v.(devs := v.devs[i := d.(state := Asserted)], pirqs := Bump(v.pirqs, d.pirqPin, 1),
       log := v.log + [AssertCall(v.pirqs, d.pirqPin, d.ioapicIrq)])
  }

  // Device i releases its wire: one call.
  function Lowered(v: View, i: nat, to: Lintr): View
    requires Shaped(v) && i < |v.devs|
  {
    var d := v.devs[i];
    v.(devs := v.devs[i := d.(state := to)], pirqs := Bump(v.pirqs, d.pirqPin, -1),
       log := v.log + [DeassertCall(v.pirqs, d.pirqPin, d.ioapicIrq)])
  }

  // Device i changes without touching its wire: no call.
  function Noted(v: View, i: nat, d: Device): View
    requires i < |v.devs|
  {
    v.(devs := v.devs[i := d])
  }

  // Pin p of the router carries 'reg': an active pin lets go of its line and takes up the new one.
  function Rerouted(v: View, p: nat, reg: Route): View
    requires p < |v.pirqs|
  {
    var q := v.pirqs[p];
    if q.reg == reg then v
    else v.(pirqs := v.pirqs[p := q.(reg := reg)], log := RerouteLog(q, reg, UnrouteLog(q, v.log)))
  }

  // A device asks for an interrupt.
  function Requested(v: View, i: nat): View
    requires Shaped(v) && i < |v.devs|
  {
    var d := v.devs[i];
    if d.state != Idle then v
    else if Permitted(d) then Raised(v, i)
    else Noted(v, i, d.(state := Pending))
  }

  // A device withdraws its request.
  function Recalled(v: View, i: nat): View
    requires Shaped(v) && i < |v.devs|
  {
    var d := v.devs[i];
    if d.state == Asserted then Lowered(v, i, Idle)
    else if d.state == Pending then Noted(v, i, d.(state := Idle))
    else v
  }

  // The wire of a device follows its flags.
  function Updated(v: View, i: nat): View
    requires Shaped(v) && i < |v.devs|
  {
    var d := v.devs[i];
    if d.state == Asserted && !Permitted(d) then Lowered(v, i, Pending)
    else if d.state == Pending && Permitted(d) then Raised(v, i)
    else v
  }

  // After an update the wire of a device is as it should be.
  lemma UpdatedIsDue(v: View, i: nat)
    requires Shaped(v) && i < |v.devs|
    ensures var w := Updated(v, i); |w.devs| == |v.devs| && w.devs[i].state == Due(v.devs[i])
  {}

  // What each event leaves.
  function After(v: View, e: Event): View
    requires Shaped(v) && EventOk(e, |v.devs|)
  {
    match e
    case DeviceAsserts(i) => Requested(v, i).(wants := v.wants + {i})
    case DeviceDeasserts(i) => Recalled(v, i).(wants := v.wants - {i})
    case FlagsChange(i, msi, msix, intxDis) =>
      Noted(v, i, v.devs[i].(msi := msi, msix := msix, intxDis := intxDis)).(owed := v.owed + {i})
    case UpdateRuns(i) => Updated(v, i).(owed := v.owed - {i})
    case RouterWrite(pin, val) => Rerouted(v, pin - 1, PirqMask(val))
  }

  /** A router register keeps bit 7, which disables its pin, and the IRQ in bits 0 to 3; other pins stay. */
  lemma RouterTakes(v: View, pin: nat, val: nat)
    requires Shaped(v) && 0 < pin <= PIRQS && val < 256
    ensures var w := After(v, RouterWrite(pin, val)); var reg := w.pirqs[pin - 1].reg;
      && |w.pirqs| == PIRQS && (reg.disabled <==> 128 <= val) && reg.irq < 16 && (val - reg.irq) % 16 == 0
      && w.devs == v.devs && forall p :: 0 <= p < PIRQS && p != pin - 1 ==> w.pirqs[p] == v.pirqs[p]
  {}

  // Every event keeps requests remembered, and devices settled unless they are owed an update.
  lemma EventKeepsTracked(v: View, e: Event)
    requires Shaped(v) && EventOk(e, |v.devs|) && Tracked(v.devs, v.wants, v.owed)
    ensures var w := After(v, e); Tracked(w.devs, w.wants, w.owed)
  {}

  // One event in a run.
  ghost predicate Stepped(v: View, e: Event, w: View) {
    ValidView(v) && ValidView(w) && EventOk(e, |v.devs|) && w == After(v, e)
  }

  // Event k of a run.  The quantifier keeps its effect out of proofs that only hand it on.
  ghost predicate TraceStep(trace: seq<View>, events: seq<Event>, k: nat)
    requires k + 1 < |trace| && k < |events|
  {
    forall w :: w == trace[k + 1] ==> Stepped(trace[k], events[k], w)
  }

  // The moments of a run, each from the one before by its event.
  ghost predicate Traced(trace: seq<View>, events: seq<Event>) {
    && |trace| == |events| + 1 && ValidView(trace[0])
    && forall k :: 0 <= k < |events| ==> TraceStep(trace, events, k)
  }

  lemma TracedOneMore(trace: seq<View>, events: seq<Event>, e: Event, w: View)
    requires Traced(trace, events) && EventOk(e, |trace[|events|].devs|)
    requires ValidView(trace[|events|]) && ValidView(w) && w == After(trace[|events|], e)
    ensures Traced(trace + [w], events + [e])
  {
    var longer, more := trace + [w], events + [e];
    forall k | 0 <= k <= |events| ensures TraceStep(longer, more, k) {
      assert longer[k] == trace[k];
      if k < |events| {
        assert longer[k + 1] == trace[k + 1] && more[k] == events[k] && TraceStep(trace, events, k);
      } else {
        assert Stepped(trace[k], e, w);
      }
    }
  }

  // Wiring stays, and calls are only added.
  ghost predicate Extends(v: View, w: View) {
    && v.log <= w.log && |w.devs| == |v.devs| && |w.pirqs| == |v.pirqs|
    && forall i :: 0 <= i < |v.devs| ==>
         w.devs[i].pirqPin == v.devs[i].pirqPin && w.devs[i].ioapicIrq == v.devs[i].ioapicIrq
  }

  lemma EventExtends(v: View, e: Event)
    requires Shaped(v) && EventOk(e, |v.devs|)
    ensures Extends(v, After(v, e))
  {}

  lemma ExtendsAt(trace: seq<View>, events: seq<Event>, k: nat)
    requires Traced(trace, events) && k < |events|
    ensures ValidView(trace[k]) && ValidView(trace[k + 1]) && Extends(trace[k], trace[k + 1])
    ensures trace[k + 1].wants == WantsStep(trace[k].wants, events[k])
    ensures trace[k + 1].owed == OwedStep(trace[k].owed, events[k])
  {
    assert TraceStep(trace, events, k);
    assert Stepped(trace[k], events[k], trace[k + 1]);
    EventExtends(trace[k], events[k]);
  }

  /**
   * Between any two moments of a run the wiring is the same and calls have only been added.  What the devices ask
   * for follows from their own calls, and what they are owed from flag changes and updates, alone.
   */
  lemma {:induction false} RunExtends(trace: seq<View>, events: seq<Event>, i: nat, j: nat)
    requires Traced(trace, events) && i <= j <= |events|
    ensures ValidView(trace[i]) && ValidView(trace[j]) && Extends(trace[i], trace[j])
    ensures trace[j].wants == WantsAfter(trace[i].wants, events[i..j])
    ensures trace[j].owed == OwedAfter(trace[i].owed, events[i..j])
  {
    if i < j {
      RunExtends(trace, events, i, j - 1);
      ExtendsAt(trace, events, j - 1);
      assert events[i..j][..j - 1 - i] == events[i..j - 1];
    } else if j > 0 {
      ExtendsAt(trace, events, j - 1);
    }
  }

  // What the devices are asking for, by the history of their own calls alone.
  ghost function WantsAfter(wants: set<nat>, events: seq<Event>): set<nat> {
    if events == [] then wants
    else WantsStep(WantsAfter(wants, events[..|events| - 1]), events[|events| - 1])
  }

  // Devices with a flag change that pci_lintr_update has not seen yet.
  ghost function OwedAfter(owed: set<nat>, events: seq<Event>): set<nat> {
    if events == [] then owed
    else OwedStep(OwedAfter(owed, events[..|events| - 1]), events[|events| - 1])
  }

  lemma {:induction false} NothingCounted(devs: seq<Device>, pirqs: seq<Pirq>, n: nat)
    requires forall i :: 0 <= i < |devs| ==> devs[i].state == Idle
    requires forall p :: 0 <= p < |pirqs| ==> pirqs[p].active == 0
    ensures CountPirq(devs, n) == 0 && CountIoapic(devs, n) == 0 && CountDriving(pirqs, n) == 0
    decreases |devs| + |pirqs|
  {
    if devs != [] {
      NothingCounted(devs[..|devs| - 1], pirqs, n);
    } else if pirqs != [] {
      NothingCounted(devs, pirqs[..|pirqs| - 1], n);
    }
  }

  class Fabric {
    var devs: seq<Device>
    var pirqs: seq<Pirq>
    var log: seq<Call>          // calls into the hypervisor
    ghost var wants: set<nat>   // devices that asked for an interrupt and have not withdrawn it
    ghost var owed: set<nat>    // devices whose flags changed since pci_lintr_update last ran

    ghost function Now(): View
      reads this
    {
      View(devs, pirqs, log, wants, owed)
    }

    // Counters, lines and calls agree.
    ghost predicate Wired()
      reads this
    {
      Conserved(devs, pirqs, log) && Steady(log)
    }

    ghost predicate Valid()
      reads this
    {
      ValidView(Now())
    }

    // The interrupt router, on behalf of one device.
    method IrqAssert(i: nat)
      requires i < |devs| && |pirqs| == PIRQS && devs[i].pirqPin <= PIRQS
      modifies this`pirqs, this`log
      ensures pirqs == Bump(old(pirqs), devs[i].pirqPin, 1)
      ensures log == old(log) + [AssertCall(old(pirqs), devs[i].pirqPin, devs[i].ioapicIrq)]
    {
      var d := devs[i];
      if d.pirqPin > 0 {
        var p := d.pirqPin - 1;
        pirqs := pirqs[p := pirqs[p].(active := pirqs[p].active + 1)];
        if pirqs[p].active == 1 && PirqValid(pirqs[p].reg) {
          log := log + [IsaAssert(pirqs[p].reg.irq, d.ioapicIrq)];
          return;
        }
      }
      log := log + [IoapicAssert(d.ioapicIrq)];
    }

    method IrqDeassert(i: nat)
      requires i < |devs| && |pirqs| == PIRQS && devs[i].pirqPin <= PIRQS
      modifies this`pirqs, this`log
      ensures pirqs == Bump(old(pirqs), devs[i].pirqPin, -1)
      ensures log == old(log) + [DeassertCall(old(pirqs), devs[i].pirqPin, devs[i].ioapicIrq)]
    {
      var d := devs[i];
      if d.pirqPin > 0 {
        var p := d.pirqPin - 1;
        pirqs := pirqs[p := pirqs[p].(active := pirqs[p].active - 1)];
        if pirqs[p].active == 0 && PirqValid(pirqs[p].reg) {
          log := log + [IsaDeassert(pirqs[p].reg.irq, d.ioapicIrq)];
          return;
        }
      }
      log := log + [IoapicDeassert(d.ioapicIrq)];
    }

    method Raise(i: nat)
      requires Wired() && i < |devs| && devs[i].state != Asserted
      modifies this`devs, this`pirqs, this`log
      ensures Wired() && Now() == Raised(old(Now()), i)
    {
      RaiseConserves(devs, pirqs, log, i);
      devs := devs[i := devs[i].(state := Asserted)];
      IrqAssert(i);
    }

    method Lower(i: nat, to: Lintr)
      requires Wired() && i < |devs| && devs[i].state == Asserted && to != Asserted
      modifies this`devs, this`pirqs, this`log
      ensures Wired() && Now() == Lowered(old(Now()), i, to)
    {
      LowerConserves(devs, pirqs, log, i, to);
      devs := devs[i := devs[i].(state := to)];
      IrqDeassert(i);
    }

    method Note(i: nat, d: Device)
      requires Wired() && i < |devs|
      requires d.pirqPin == devs[i].pirqPin && d.ioapicIrq == devs[i].ioapicIrq
      requires (d.state == Asserted <==> devs[i].state == Asserted)
      modifies this`devs
      ensures Wired() && Now() == Noted(old(Now()), i, d)
    {
      FlagConserves(devs, pirqs, log, i, d);
      devs := devs[i := d];
    }

    // A device asks for an interrupt.
    method LintrAssert(i: nat)
      requires Wired() && i < |devs|
      modifies this`devs, this`pirqs, this`log
      ensures Wired() && Now() == Requested(old(Now()), i)
    {
      if devs[i].state == Idle {
        if Permitted(devs[i]) {
          Raise(i);
        } else {
          Note(i, devs[i].(state := Pending));
        }
      }
    }

    // A device withdraws its request.
    method LintrDeassert(i: nat)
      requires Wired() && i < |devs|
      modifies this`devs, this`pirqs, this`log
      ensures Wired() && Now() == Recalled(old(Now()), i)
    {
      if devs[i].state == Asserted {
        Lower(i, Idle);
      } else if devs[i].state == Pending {
        Note(i, devs[i].(state := Idle));
      }
    }

    // Brings a device's wire in line with its flags.
    method LintrUpdate(i: nat)
      requires Wired() && i < |devs|
      modifies this`devs, this`pirqs, this`log
      ensures Wired() && Now() == Updated(old(Now()), i) && devs[i].state == Due(old(devs[i]))
    {
      UpdatedIsDue(Now(), i);
      if devs[i].state == Asserted && !Permitted(devs[i]) {
        Lower(i, Pending);
      } else if devs[i].state == Pending && Permitted(devs[i]) {
        Raise(i);
      }
    }

    // The guest changes MSI enable, MSI-X enable or INTx disable; pci_lintr_update follows later.
    method SetFlags(i: nat, msi: bool, msix: bool, intxDis: bool)
      requires Wired() && i < |devs|
      modifies this`devs
      ensures Wired() && Now() == Noted(old(Now()), i, old(devs[i]).(msi := msi, msix := msix, intxDis := intxDis))
    {
      Note(i, devs[i].(msi := msi, msix := msix, intxDis := intxDis));
    }

    // The guest writes a router register.
    method PirqWrite(pin: nat, val: nat)
      requires Wired() && 0 < pin <= PIRQS && val < 256
      modifies this`pirqs, this`log
      ensures Wired() && Now() == Rerouted(old(Now()), pin - 1, PirqMask(val))
    {
      var q, reg := pirqs[pin - 1], PirqMask(val);
      if q.reg != reg {
        RewriteConserves(devs, pirqs, log, pin - 1, reg);
        if q.active != 0 && PirqValid(q.reg) {
          log := log + [IsaDeassert(q.reg.irq, -1)];
        }
        pirqs := pirqs[pin - 1 := q.(reg := reg)];
        if q.active != 0 && PirqValid(reg) {
          log := log + [IsaAssert(reg.irq, -1)];
        }
      }
    }

    // After routing, before any device has asserted.
    constructor (devices: seq<Device>, regs: seq<Route>)
      requires |regs| == PIRQS
      requires forall d :: 0 <= d < |devices| ==>
        devices[d].pirqPin <= PIRQS && devices[d].ioapicIrq >= 0 && devices[d].state == Idle
      ensures Valid() && devs == devices && wants == {} && owed == {} && log == []
      ensures forall p :: 0 <= p < PIRQS ==> pirqs[p] == Pirq(regs[p], 0)
    {
      devs := devices;
      pirqs := seq(PIRQS, p requires 0 <= p < PIRQS => Pirq(regs[p], 0));
      log, wants, owed := [], {}, {};
      new;
      forall n: nat ensures CountPirq(devs, n) == 0 && CountIoapic(devs, n) == 0 && CountDriving(pirqs, n) == 0 {
        NothingCounted(devs, pirqs, n);
      }
    }

    // The calls and field updates of one event.
    method Act(e: Event)
      requires Wired() && EventOk(e, |devs|)
      modifies this
      ensures Wired() && Now() == After(old(Now()), e)
    {
      match e
      case DeviceAsserts(d) =>
        LintrAssert(d);
        wants := wants + {d};
      case DeviceDeasserts(d) =>
        LintrDeassert(d);
        wants := wants - {d};
      case FlagsChange(d, msi, msix, intxDis) =>
        SetFlags(d, msi, msix, intxDis);
        owed := owed + {d};
      case UpdateRuns(d) =>
        LintrUpdate(d);
        owed := owed - {d};
      case RouterWrite(pin, val) => PirqWrite(pin, val);
    }

    method Step(e: Event)
      requires Valid() && EventOk(e, |devs|)
      modifies this
      ensures Valid() && Now() == After(old(Now()), e)
    {
      EventKeepsTracked(Now(), e);
      Act(e);
    }

    /**
     * Any interleaving of device calls, flag changes, updates and router writes.  Every moment follows from the one
     * before by its event, and at every moment calls and drivers agree on every line.
     */
    method Run(events: seq<Event>) returns (ghost trace: seq<View>)
      requires Valid() && forall i :: 0 <= i < |events| ==> EventOk(events[i], |devs|)
      modifies this
      ensures Valid() && Traced(trace, events) && trace[0] == old(Now()) && trace[|events|] == Now()
    {
      trace := [Now()];
      for i := 0 to |events|
        invariant Valid() && |devs| == old(|devs|) && Traced(trace, events[..i])
        invariant trace[0] == old(Now()) && trace[i] == Now()
      {
        EventExtends(Now(), events[i]);
        Step(events[i]);
        assert events[..i + 1] == events[..i] + [events[i]];
        TracedOneMore(trace, events[..i], events[i], Now());
        trace := trace + [Now()];
      }
      assert events[..|events|] == events;
    }
  }
}
