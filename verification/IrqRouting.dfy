// Assignment of INTx pins, router pins, ISA IRQs and I/O APIC pins while the machine is put together.
module IrqRouting {
  import IntxDelivery

  type Route = IntxDelivery.Route

  const IRQS := 16
  const IRQ_DISABLED := 255
  const PIRQS := IntxDelivery.PIRQS
  const PIRQ_OFF := IntxDelivery.Route(true, 0)

  // struct intxinfo
  datatype IntPin = IntPin(count: nat, pirqPin: nat, ioapicIrq: int)

  // No two entries differ by more than one.
  ghost predicate Even(s: seq<nat>) { forall i, j :: 0 <= i < |s| && 0 <= j < |s| ==> s[i] <= s[j] + 1 }

  // Raising a least entry keeps the counts even.
  lemma BumpLeast(s: seq<nat>, k: nat)
    requires Even(s) && k < |s| && forall i :: 0 <= i < |s| ==> s[k] <= s[i]
    ensures Even(s[k := s[k] + 1])
  {}

  // First entry holding the least value.
  ghost predicate FirstLeast(s: seq<nat>, k: nat) {
    k < |s| && (forall i :: 0 <= i < |s| ==> s[k] <= s[i]) && (forall i :: 0 <= i < k ==> s[k] < s[i])
  }

  method Least(s: seq<nat>) returns (best: nat)
    requires s != []
    ensures FirstLeast(s, best)
  {
    best := 0;
    var bestCount := s[0];
    for pin := 1 to |s|
      invariant best < pin && bestCount == s[best]
      invariant forall i :: 0 <= i < pin ==> s[best] <= s[i]
      invariant forall i :: 0 <= i < best ==> s[best] < s[i]
    {
      if s[pin] < bestCount {
        best := pin;
        bestCount := s[pin];
      }
    }
  }

  // First least-used ISA IRQ that is not disabled.
  ghost predicate FirstFree(counts: seq<nat>, k: nat) {
    && k < |counts| && counts[k] != IRQ_DISABLED
    && (forall i :: 0 <= i < |counts| && counts[i] != IRQ_DISABLED ==> counts[k] <= counts[i])
    && (forall i :: 0 <= i < k && counts[i] != IRQ_DISABLED ==> counts[k] < counts[i])
  }

  predicate SomeFree(counts: seq<nat>) {
    exists i :: 0 <= i < |counts| && counts[i] != IRQ_DISABLED
  }

  method LeastIrq(counts: seq<nat>) returns (best: int)
    requires |counts| == IRQS
    ensures if best == -1 then !SomeFree(counts) else 0 <= best && FirstFree(counts, best)
  {
    best := -1;
    var bestCount := 0;
    for irq := 0 to IRQS
      invariant best == -1 <==> forall i :: 0 <= i < irq ==> counts[i] == IRQ_DISABLED
      invariant best != -1 ==> 0 <= best < irq && counts[best] != IRQ_DISABLED && bestCount == counts[best]
      invariant best != -1 ==> forall i :: 0 <= i < irq && counts[i] != IRQ_DISABLED ==> counts[best] <= counts[i]
      invariant best != -1 ==> forall i :: 0 <= i < best && counts[i] != IRQ_DISABLED ==> counts[best] < counts[i]
    {
      if counts[irq] == IRQ_DISABLED {
        continue;
      }
      if best == -1 || counts[irq] < bestCount {
        best := irq;
        bestCount := counts[irq];
      }
    }
  }

  ghost function Counts(pins: seq<IntPin>): seq<nat> { seq(|pins|, i requires 0 <= i < |pins| => pins[i].count) }

  ghost predicate PinOk(pin: IntPin, pciPins: nat) {
    pin.pirqPin <= PIRQS && (pin.ioapicIrq == 0 || 16 <= pin.ioapicIrq < 16 + pciPins)
  }

  ghost predicate SlotOk(pins: seq<IntPin>, pciPins: nat) {
    |pins| == 4 && Even(Counts(pins)) && forall k :: 0 <= k < 4 ==> PinOk(pins[k], pciPins)
  }

  // Every pin in use carries a permitted IRQ that nobody reserved; the others are off.
  ghost predicate PinsRouted(use: seq<nat>, reg: seq<Route>, reserved: set<nat>) {
    && |use| == PIRQS == |reg|
    && forall p :: 0 <= p < PIRQS ==>
      if use[p] == 0 then reg[p] == PIRQ_OFF else IntxDelivery.PirqValid(reg[p]) && reg[p].irq !in reserved
  }

  ghost predicate IrqsHeld(irqCounts: seq<nat>, reserved: set<nat>) {
    && |irqCounts| == IRQS
    && forall i: nat :: i < IRQS && (!IntxDelivery.IrqPermitted(i) || i in reserved) ==> irqCounts[i] == IRQ_DISABLED
  }

  datatype BootStep = ReserveIrq(irq: nat) | UseIrq(irq: nat) | RequestPin(slot: nat) | RoutePin(slot: nat, pin: nat)

  // ---- the router at one moment ----

  datatype View = View(use: seq<nat>, reg: seq<Route>, irqCounts: seq<nat>, cold: bool, lastPin: nat,
                       slots: seq<seq<IntPin>>, reserved: set<nat>)

  // Pins are spread evenly, pins in use carry permitted IRQs nobody reserved, and every assignment is in range.
  ghost predicate ValidView(v: View, pciPins: nat) {
    && PinsRouted(v.use, v.reg, v.reserved) && IrqsHeld(v.irqCounts, v.reserved) && Even(v.use)
    && (v.cold ==> forall p :: 0 <= p < PIRQS ==> v.use[p] == 0)
    && (forall s :: 0 <= s < |v.slots| ==> SlotOk(v.slots[s], pciPins))
  }

  // Some router pin has no user yet, so the next one to be handed out needs an IRQ.
  predicate NeedsIrq(use: seq<nat>) {
    exists p :: 0 <= p < |use| && use[p] == 0
  }

  // The assertions of this step hold.
  predicate Possible(v: View, pciPins: nat, b: BootStep) {
    match b
    case ReserveIrq(irq) =>
      irq < |v.irqCounts| && v.cold && (v.irqCounts[irq] == 0 || v.irqCounts[irq] == IRQ_DISABLED)
    case UseIrq(irq) => irq < |v.irqCounts| && v.cold && v.irqCounts[irq] != IRQ_DISABLED
    case RequestPin(s) => s < |v.slots| && |v.slots[s]| == 4
    case RoutePin(s, pin) =>
      && s < |v.slots| && |v.slots[s]| == 4 && pin <= 4
      && (pin > 0 ==>
            && (v.slots[s][pin - 1].ioapicIrq == 0 ==> 0 < pciPins)
            && (v.slots[s][pin - 1].pirqPin == 0 && NeedsIrq(v.use) ==> SomeFree(v.irqCounts)))
  }

  function Bumped(counts: seq<nat>, i: nat): seq<nat>
    requires i < |counts|
  {
    counts[i := (counts[i] + 1) % 256]
  }

  // The first least-used router pin is handed out, and routed to the first least-used IRQ if it had none.
  ghost predicate PinTaken(v: View, pin: nat, w: View) {
    && 1 <= pin && FirstLeast(v.use, pin - 1) && w.use == v.use[pin - 1 := v.use[pin - 1] + 1] && !w.cold
    && pin - 1 < |v.reg| && pin - 1 < |w.reg|
    && (if v.reg[pin - 1] == PIRQ_OFF
        then FirstFree(v.irqCounts, w.reg[pin - 1].irq) && w.irqCounts == Bumped(v.irqCounts, w.reg[pin - 1].irq)
             && w.reg == v.reg[pin - 1 := IntxDelivery.Route(false, w.reg[pin - 1].irq)]
        else w.irqCounts == v.irqCounts && w.reg == v.reg)
  }

  ghost predicate SameRouter(v: View, w: View) {
    w.use == v.use && w.reg == v.reg && w.irqCounts == v.irqCounts && w.cold == v.cold
  }

  // An I/O APIC pin from 16 up, in turn, and a router pin, each unless one is assigned already.
  ghost predicate Routed(v: View, pciPins: nat, ii: IntPin, w: View, ii': IntPin) {
    && ii'.count == ii.count
    && (if ii.ioapicIrq != 0 then ii'.ioapicIrq == ii.ioapicIrq && w.lastPin == v.lastPin
        else 0 < pciPins && ii'.ioapicIrq == 16 + v.lastPin % pciPins && w.lastPin == v.lastPin + 1)
    && (if ii.pirqPin != 0 then ii'.pirqPin == ii.pirqPin && SameRouter(v, w) else PinTaken(v, ii'.pirqPin, w))
  }

  // The first least-used pin of the slot.
  ghost predicate Requested(pins: seq<IntPin>, pins': seq<IntPin>, k: nat) {
    && |pins| == 4 && FirstLeast(Counts(pins), k)
    && pins' == pins[k := pins[k].(count := pins[k].count + 1)]
  }

  ghost predicate PinRouted(v: View, pciPins: nat, s: nat, pin: nat, w: View) {
    && w.reserved == v.reserved && |w.slots| == |v.slots| && s < |v.slots| && 1 <= pin <= |w.slots[s]| == |v.slots[s]|
    && w.slots == v.slots[s := v.slots[s][pin - 1 := w.slots[s][pin - 1]]]
    && Routed(v, pciPins, v.slots[s][pin - 1], w, w.slots[s][pin - 1])
  }

  ghost predicate Follows(v: View, pciPins: nat, b: BootStep, w: View)
    requires Possible(v, pciPins, b)
  {
    match b
    case ReserveIrq(irq) =>
      w == v.(irqCounts := v.irqCounts[irq := IRQ_DISABLED], reserved := v.reserved + {irq})
    case UseIrq(irq) => w == v.(irqCounts := Bumped(v.irqCounts, irq))
    case RequestPin(s) =>
      && SameRouter(v, w) && w.lastPin == v.lastPin && w.reserved == v.reserved
      && |w.slots| == |v.slots| && w.slots == v.slots[s := w.slots[s]]
      && exists k :: Requested(v.slots[s], w.slots[s], k)
    case RoutePin(s, pin) =>
      if pin == 0 then w == v else PinRouted(v, pciPins, s, pin, w)
  }

  // One step in a run that goes on.
  ghost predicate Stepped(v: View, pciPins: nat, b: BootStep, w: View) {
    ValidView(v, pciPins) && ValidView(w, pciPins) && Possible(v, pciPins, b) && Follows(v, pciPins, b, w)
  }

  ghost predicate TraceStep(trace: seq<View>, pciPins: nat, steps: seq<BootStep>, k: nat)
    requires k + 1 < |trace| && k < |steps|
  {
    Stepped(trace[k], pciPins, steps[k], trace[k + 1])
  }

  // The states of a run, each from the one before by its step.
  ghost predicate Traced(trace: seq<View>, pciPins: nat, steps: seq<BootStep>) {
    && 0 < |trace| <= |steps| + 1 && ValidView(trace[0], pciPins)
    && forall k :: 0 <= k < |trace| - 1 ==> TraceStep(trace, pciPins, steps, k)
  }

  lemma TracedOneMore(trace: seq<View>, pciPins: nat, steps: seq<BootStep>, w: View)
    requires Traced(trace, pciPins, steps) && |trace| <= |steps|
    requires Stepped(trace[|trace| - 1], pciPins, steps[|trace| - 1], w)
    ensures Traced(trace + [w], pciPins, steps)
  {
    var longer := trace + [w];
    forall k | 0 <= k < |longer| - 1 ensures TraceStep(longer, pciPins, steps, k) {
      assert longer[k] == trace[k];
      if k < |trace| - 1 {
        assert longer[k + 1] == trace[k + 1] && TraceStep(trace, pciPins, steps, k);
      }
    }
  }

  // An assignment that was made stays.
  ghost predicate Stays(v: View, w: View) {
    && |w.slots| == |v.slots| && v.reserved <= w.reserved
    && (forall s, k :: 0 <= s < |v.slots| && 0 <= k < 4 && |v.slots[s]| == 4 == |w.slots[s]| ==>
          Kept(v.slots[s][k], w.slots[s][k]))
    && (|v.reg| == |w.reg| == PIRQS && forall p :: 0 <= p < PIRQS && v.reg[p] != PIRQ_OFF ==> w.reg[p] == v.reg[p])
  }

  predicate Kept(ii: IntPin, ii': IntPin) {
    && (ii.pirqPin != 0 ==> ii'.pirqPin == ii.pirqPin) && (ii.ioapicIrq != 0 ==> ii'.ioapicIrq == ii.ioapicIrq)
    && ii.count <= ii'.count
  }

  lemma StepStays(v: View, pciPins: nat, b: BootStep, w: View)
    requires Stepped(v, pciPins, b, w)
    ensures Stays(v, w)
  {}

  lemma StaysTrans(u: View, v: View, w: View)
    requires Stays(u, v) && Stays(v, w)
    requires forall s :: 0 <= s < |v.slots| ==> |v.slots[s]| == 4
    ensures Stays(u, w)
  {
    forall s, k | 0 <= s < |u.slots| && 0 <= k < 4 && |u.slots[s]| == 4 == |w.slots[s]|
      ensures Kept(u.slots[s][k], w.slots[s][k])
    {
      assert Kept(u.slots[s][k], v.slots[s][k]) && Kept(v.slots[s][k], w.slots[s][k]);
    }
  }

  /** Pins, routes and reservations that were made stay, whatever else is put together. */
  lemma {:induction false} RoutesStay(trace: seq<View>, pciPins: nat, steps: seq<BootStep>, i: nat, j: nat)
    requires Traced(trace, pciPins, steps) && i <= j < |trace|
    ensures ValidView(trace[i], pciPins) && ValidView(trace[j], pciPins) && Stays(trace[i], trace[j])
  {
    if i < j {
      RoutesStay(trace, pciPins, steps, i, j - 1);
      assert TraceStep(trace, pciPins, steps, j - 1);
      StepStays(trace[j - 1], pciPins, steps[j - 1], trace[j]);
      StaysTrans(trace[i], trace[j - 1], trace[j]);
    } else if j > 0 {
      assert TraceStep(trace, pciPins, steps, j - 1);
    }
  }

  class Router {
    const pciPins: nat
    var use: seq<nat>
    var reg: seq<Route>
    var irqCounts: seq<nat>
    var cold: bool
    var lastPin: nat
    var slots: seq<seq<IntPin>>
    ghost var reserved: set<nat>

    ghost function Now(): View
      reads this
    {
      View(use, reg, irqCounts, cold, lastPin, slots, reserved)
    }

    ghost predicate Valid()
      reads this
    {
      ValidView(Now(), pciPins)
    }

    constructor (pincount: nat, nslots: nat)
      ensures Valid() && cold && reserved == {} && pciPins == (if pincount <= 16 then 0 else pincount - 16)
      ensures |slots| == nslots
      ensures forall i: nat :: i < IRQS ==> irqCounts[i] == if IntxDelivery.IrqPermitted(i) then 0 else IRQ_DISABLED
      ensures forall s :: 0 <= s < nslots ==> slots[s] == seq(4, _ => IntPin(0, 0, 0))
    {
      pciPins := if pincount <= 16 then 0 else pincount - 16;
      use := seq(PIRQS, _ => 0);
      reg := seq(PIRQS, _ => PIRQ_OFF);
      irqCounts := seq(IRQS, i requires 0 <= i < IRQS => if IntxDelivery.IrqPermitted(i) then 0 else IRQ_DISABLED);
      cold, reserved, lastPin := true, {}, 0;
      slots := seq(nslots, _ => seq(4, _ => IntPin(0, 0, 0)));
    }

    // An ISA IRQ is kept from PCI use.
    method Reserve(irq: nat)
      requires Valid() && Possible(Now(), pciPins, ReserveIrq(irq))
      modifies this`irqCounts, this`reserved
      ensures Valid() && Follows(old(Now()), pciPins, ReserveIrq(irq), Now())
    {
      irqCounts := irqCounts[irq := IRQ_DISABLED];
      reserved := reserved + {irq};
    }

    // An ISA IRQ counts one more user.
    method Use(irq: nat)
      requires Valid() && Possible(Now(), pciPins, UseIrq(irq))
      modifies this`irqCounts
      ensures Valid() && Follows(old(Now()), pciPins, UseIrq(irq), Now())
    {
      irqCounts := irqCounts[irq := (irqCounts[irq] + 1) % 256];
    }

    // A router pin without a route gets the least-used IRQ.
    method RouteTo(pin: nat)
      requires |irqCounts| == IRQS && pin < |reg| && SomeFree(irqCounts)
      modifies this`reg, this`irqCounts
      ensures |reg| == |old(reg)| && reg == old(reg)[pin := IntxDelivery.Route(false, reg[pin].irq)]
      ensures FirstFree(old(irqCounts), reg[pin].irq)
      ensures irqCounts == Bumped(old(irqCounts), reg[pin].irq)
    {
      var irq := LeastIrq(irqCounts);
      irqCounts := irqCounts[irq := (irqCounts[irq] + 1) % 256];
      reg := reg[pin := IntxDelivery.Route(false, irq)];
    }

    // The least-used router pin, routed to the least-used IRQ if it had none.
    method AllocPin() returns (pin: nat)
      requires Valid() && (NeedsIrq(use) ==> SomeFree(irqCounts))
      modifies this`use, this`reg, this`irqCounts, this`cold
      ensures Valid() && PinTaken(old(Now()), pin, Now()) && 1 <= pin <= PIRQS
      ensures IntxDelivery.PirqValid(reg[pin - 1]) && reg[pin - 1].irq !in reserved
    {
      cold := false;
      var best := Least(use);
      BumpLeast(use, best);
      use := use[best := use[best] + 1];
      if reg[best] == PIRQ_OFF {
        RouteTo(best);
      }
      pin := best + 1;
    }

    // I/O APIC pins from 16 up, in turn.
    method AllocIoapic() returns (irq: int)
      modifies this`lastPin
      ensures if pciPins == 0 then irq == -1 && lastPin == old(lastPin)
              else irq == 16 + old(lastPin) % pciPins && lastPin == old(lastPin) + 1
    {
      if pciPins == 0 {
        return -1;
      }
      irq := 16 + lastPin % pciPins;
      lastPin := lastPin + 1;
    }

    // A device asks for an INTx pin of its slot.
    method LintrRequest(s: nat) returns (pin: nat)
      requires Valid() && s < |slots|
      modifies this`slots
      ensures Valid() && 1 <= pin <= 4 && |slots| == old(|slots|)
      ensures slots == old(slots)[s := slots[s]] && Requested(old(slots[s]), slots[s], pin - 1)
    {
      var pins := slots[s];
      var counts := [pins[0].count, pins[1].count, pins[2].count, pins[3].count];
      assert counts == Counts(pins);
      var best := Least(counts);
      BumpLeast(counts, best);
      var pins' := pins[best := pins[best].(count := pins[best].count + 1)];
      assert Counts(pins') == counts[best := counts[best] + 1];
      slots := slots[s := pins'];
      pin := best + 1;
    }

    // An I/O APIC pin, unless there is one.
    method AssignIoapic(ii: IntPin) returns (irq: int)
      requires PinOk(ii, pciPins) && (ii.ioapicIrq == 0 ==> 0 < pciPins)
      modifies this`lastPin
      ensures 16 <= irq < 16 + pciPins && lastPin == old(lastPin) + (if ii.ioapicIrq == 0 then 1 else 0)
      ensures irq == if ii.ioapicIrq == 0 then 16 + old(lastPin) % pciPins else ii.ioapicIrq
    {
      irq := ii.ioapicIrq;
      if irq == 0 {
        irq := AllocIoapic();
      }
    }

    // Both assignments of an INTx pin.
    method Assign(ii: IntPin) returns (ii': IntPin)
      requires Valid() && PinOk(ii, pciPins) && (ii.ioapicIrq == 0 ==> 0 < pciPins)
      requires ii.pirqPin == 0 && NeedsIrq(use) ==> SomeFree(irqCounts)
      modifies this`use, this`reg, this`irqCounts, this`cold, this`lastPin
      ensures Valid() && Routed(old(Now()), pciPins, ii, Now(), ii')
      ensures 1 <= ii'.pirqPin <= PIRQS && 16 <= ii'.ioapicIrq < 16 + pciPins
    {
      var irq := AssignIoapic(ii);
      ii' := ii.(ioapicIrq := irq);
      if ii.pirqPin == 0 {
        var p := AllocPin();
        ii' := ii'.(pirqPin := p);
      }
    }

    // The assignment is recorded in the slot.
    method SetPin(s: nat, pin: nat, ii: IntPin)
      requires Valid() && s < |slots| && 1 <= pin <= 4 && PinOk(ii, pciPins) && ii.count == slots[s][pin - 1].count
      modifies this`slots
      ensures Valid() && slots == old(slots)[s := old(slots[s])[pin - 1 := ii]]
    {
      assert Counts(slots[s][pin - 1 := ii]) == Counts(slots[s]);
      slots := slots[s := slots[s][pin - 1 := ii]];
    }

    // Both assignments of an INTx pin, recorded in its slot.
    method AssignPin(s: nat, pin: nat)
      requires Valid() && s < |slots| && 1 <= pin <= 4 && (slots[s][pin - 1].ioapicIrq == 0 ==> 0 < pciPins)
      requires slots[s][pin - 1].pirqPin == 0 && NeedsIrq(use) ==> SomeFree(irqCounts)
      modifies this`use, this`reg, this`irqCounts, this`cold, this`lastPin, this`slots
      ensures Valid() && PinRouted(old(Now()), pciPins, s, pin, Now())
      ensures var ii := slots[s][pin - 1]; 1 <= ii.pirqPin <= PIRQS && 16 <= ii.ioapicIrq < 16 + pciPins
    {
      var ii := Assign(slots[s][pin - 1]);
      SetPin(s, pin, ii);
    }

    // Assigns an I/O APIC pin and a router pin to an INTx pin, once.  A function without a pin needs none.
    method LintrRoute(s: nat, pin: nat)
      requires Valid() && Possible(Now(), pciPins, RoutePin(s, pin))
      modifies this
      ensures Valid() && Follows(old(Now()), pciPins, RoutePin(s, pin), Now())
      ensures pin > 0 ==>
        var ii := slots[s][pin - 1]; 1 <= ii.pirqPin <= PIRQS && 16 <= ii.ioapicIrq < 16 + pciPins
    {
      if pin == 0 {
        return;
      }
      AssignPin(s, pin);
    }

    method Step(b: BootStep)
      requires Valid() && Possible(Now(), pciPins, b)
      modifies this
      ensures Valid() && Stepped(old(Now()), pciPins, b, Now())
    {
      match b
      case ReserveIrq(irq) => Reserve(irq);
      case UseIrq(irq) => Use(irq);
      case RequestPin(s) => var _ := LintrRequest(s);
      case RoutePin(s, pin) => LintrRoute(s, pin);
    }

    /**
     * Any order of reservations, uses, pin requests and routings.  The run stops exactly at the first step whose
     * assertion fails.
     */
    method Boot(steps: seq<BootStep>) returns (ok: bool, ghost trace: seq<View>)
      requires Valid()
      modifies this
      ensures Valid() && Traced(trace, pciPins, steps) && trace[0] == old(Now()) && trace[|trace| - 1] == Now()
      ensures ok <==> |trace| == |steps| + 1
      ensures !ok ==> !Possible(Now(), pciPins, steps[|trace| - 1])
    {
      ok, trace := true, [Now()];
      for i := 0 to |steps|
        invariant Valid() && |trace| == i + 1 && Traced(trace, pciPins, steps)
        invariant trace[0] == old(Now()) && trace[i] == Now()
      {
        if !Possible(View(use, reg, irqCounts, cold, lastPin, slots, {}), pciPins, steps[i]) {
          return false, trace;
        }
        Step(steps[i]);
        TracedOneMore(trace, pciPins, steps, Now());
        trace := trace + [Now()];
      }
    }
  }
}
