// How the issue loop of an AHCI port ends: with nothing left to issue, in a failing assertion, or never.
module AhciLoop {
  import opened AhciCommands
  import opened AhciState

  // What becomes of a slot that is dealt with: it stays as it was, it stops the loop, it is done with, or the sector
  // assertion of its first pass fails.
  datatype Fate = Sticks | Stalls | Leaves | Dies

  function FateOf(t: Table, heard: bool, sectsz: Positive): Fate {
    if !HostToDevice(t) then Sticks
    else if !Command(t) then Leaves
    else
      match Dispatch(t)
      case Rw(queued) => if !RwOk(t, 0, sectsz) then Dies else if queued then Leaves else Stalls
      case Flush => Stalls
      case Trim(queued) => if queued || ScanFrom(t.buffer, 0, TrimLen(t)).Exhausted? then Leaves else Stalls
      case Immediate(ok) => if ok then Leaves else if heard then Stalls else Sticks
  }

  function FateAt(v: View, s: Slot): Fate {
    FateOf(v.tables[s], Heard(v), v.sectsz)
  }

  // What dealing with a slot of this fate leaves to be issued.
  predicate Fulfils(v: View, slot: Slot, fate: Fate, w: View) {
    match fate
    case Sticks => Todo(w) == Todo(v) && !Stalled(w)
    case Stalls => Stalled(w)
    case Leaves => Todo(w) == Todo(v) - {slot} && !Stalled(w)
    case Dies => true
  }

  lemma LaunchFate(v: View, q: Ioreq, accept: bool)
    requires q.slot in Todo(v) && !v.regs.waitforclear && v.regs.tfd.busy
    ensures Fulfils(v, q.slot, if accept then Leaves else Stalls, Launched(v, q, accept))
  {}

  lemma CommandFate(v: View, slot: Slot, t: Table)
    requires slot in Todo(v) && !v.regs.waitforclear && v.regs.tfd.busy && HostToDevice(t) && Command(t)
    requires !v.regs.tfd.drq
    ensures Fulfils(v, slot, FateOf(t, Heard(v), v.sectsz), Executed(v, slot, t))
  {
    match Dispatch(t)
    case Rw(queued) => LaunchFate(v, RwReq(slot, t, 0, v.sectsz), queued);
    case Flush => LaunchFate(v, FlushReq(slot, t), false);
    case Trim(queued) =>
      var m := ScanMeans(t.buffer, 0);
      var r := ScanFrom(t.buffer, 0, TrimLen(t));
      if r.Found? {
        LaunchFate(v, TrimReq(slot, t, r.next, v.sectsz), queued);
      }
    case Immediate(_) =>
  }

  lemma ExecutedKeeps(v: View, slot: Slot, t: Table)
    ensures var w := Executed(v, slot, t); w.tables == v.tables && w.sectsz == v.sectsz && w.ctl == v.ctl
  {}

  // The loop changes neither tables nor FIS reception.
  lemma HandledKeeps(v: View, slot: Slot)
    ensures var w := Handled(v, slot);
      w.tables == v.tables && w.sectsz == v.sectsz && w.ctl == v.ctl.(reset := w.ctl.reset)
  {
    ExecutedKeeps(v.(regs := Busied(v.regs)), slot, v.tables[slot]);
  }

  /** What becomes of a slot that is dealt with, by its table and by FIS reception. */
  lemma HandledFate(v: View, slot: Slot)
    requires slot in Todo(v) && !Stalled(v)
    ensures Fulfils(v, slot, FateAt(v, slot), Handled(v, slot))
  {
    var t := v.tables[slot];
    if HostToDevice(t) && Command(t) {
      CommandFate(v.(regs := Busied(v.regs)), slot, t);
    }
  }

  // ---- the order in which slots come up ----

  // Steps the cursor takes to reach slot s.
  function Ahead(ccs: Slot, s: Slot): (d: nat)
    ensures d < SLOTS && (d == 0 <==> s == ccs)
  {
    if ccs <= s then s - ccs else s + SLOTS - ccs
  }

  // The cursor comes nearer to every other slot with every step round the 32 slots.
  lemma NextNears(ccs: Slot, s: Slot)
    requires s != ccs
    ensures Ahead(Next(ccs), s) == Ahead(ccs, s) - 1
  {}

  // A slot that ends the loop when its turn comes.
  predicate Decisive(v: View, s: Slot) {
    s in Todo(v) && (FateAt(v, s) == Stalls || FateAt(v, s) == Dies)
  }

  // The decisive slot whose turn comes first.
  ghost predicate Foremost(v: View, s: Slot) {
    Decisive(v, s) && forall x: Slot :: Decisive(v, x) ==> Ahead(v.ctl.ccs, s) <= Ahead(v.ctl.ccs, x)
  }

  lemma {:induction false} SomeForemost(v: View, s: Slot) returns (f: Slot)
    requires Decisive(v, s)
    ensures Foremost(v, f)
    decreases Ahead(v.ctl.ccs, s)
  {
    if x: Slot :| Decisive(v, x) && Ahead(v.ctl.ccs, x) < Ahead(v.ctl.ccs, s) {
      f := SomeForemost(v, x);
    } else {
      f := s;
    }
  }

  // ---- how the loop ends ----

  datatype Outcome = Rests | Fails | Spins

  ghost predicate SomeDecisive(v: View) {
    exists s: Slot :: Decisive(v, s)
  }

  ghost predicate SomeSticks(v: View) {
    exists s: Slot :: s in Todo(v) && FateAt(v, s) == Sticks
  }

  // The first decisive slot is one that dies.
  ghost predicate Doomed(v: View) {
    exists s: Slot :: Foremost(v, s) && FateAt(v, s) == Dies
  }

  // The first decisive slot decides; without one the loop works off its list, or spins if a slot never leaves it.
  ghost function OutcomeOf(v: View): Outcome {
    if Quiet(v) then Rests
    else if SomeDecisive(v) then if Doomed(v) then Fails else Rests
    else if SomeSticks(v) then Spins
    else Rests
  }

  // A turn at a slot that does not decide leaves the decisive slots, and their order, as they were.
  lemma SameDecisive(v: View, w: View)
    requires w.tables == v.tables && w.sectsz == v.sectsz && Heard(w) == Heard(v) && w.ctl.ccs == Next(v.ctl.ccs)
    requires !Decisive(v, v.ctl.ccs) && Todo(w) <= Todo(v) && Todo(v) <= Todo(w) + {v.ctl.ccs}
    ensures forall s: Slot :: Decisive(w, s) <==> Decisive(v, s)
    ensures forall s: Slot :: Foremost(w, s) <==> Foremost(v, s)
  {
    forall s: Slot ensures Decisive(w, s) <==> Decisive(v, s) {}
    forall s: Slot | Decisive(v, s) ensures Ahead(w.ctl.ccs, s) == Ahead(v.ctl.ccs, s) - 1 {
      NextNears(v.ctl.ccs, s);
    }
  }

  // A decisive slot at the cursor is the first.
  lemma CursorIsForemost(v: View)
    requires Decisive(v, v.ctl.ccs)
    ensures Foremost(v, v.ctl.ccs) && (Doomed(v) <==> FateAt(v, v.ctl.ccs) == Dies)
  {
    if s: Slot :| Foremost(v, s) && FateAt(v, s) == Dies {
      assert Ahead(v.ctl.ccs, s) <= Ahead(v.ctl.ccs, v.ctl.ccs);
    }
  }

  /** Every turn leaves the outcome as it is, until the loop is over. */
  lemma TurnKeepsOutcome(v: View)
    requires !Quiet(v) && !TurnFails(v)
    ensures OutcomeOf(Turned(v)) == OutcomeOf(v) && Turned(v).ctl.looping == v.ctl.looping
  {
    var s, w := v.ctl.ccs, Turned(v);
    if s in Todo(v) {
      HandledKeeps(v, s);
      HandledFate(v, s);
      if FateAt(v, s) == Stalls {
        CursorIsForemost(v);
        assert SomeDecisive(v);
      } else {
        NotDecisive(v, w);
      }
    } else {
      NotDecisive(v, w);
    }
  }

  lemma NotDecisive(v: View, w: View)
    requires w.tables == v.tables && w.sectsz == v.sectsz && Heard(w) == Heard(v) && w.ctl.ccs == Next(v.ctl.ccs)
    requires w.ctl.st == v.ctl.st && !Quiet(v) && !Stalled(w) && !Decisive(v, v.ctl.ccs)
    requires Todo(w) == Todo(v) || (Todo(w) == Todo(v) - {v.ctl.ccs} && FateAt(v, v.ctl.ccs) == Leaves)
    ensures OutcomeOf(w) == OutcomeOf(v)
  {
    SameDecisive(v, w);
    assert SomeDecisive(w) <==> SomeDecisive(v);
    assert Doomed(w) <==> Doomed(v);
    forall s: Slot ensures s in Todo(w) && FateAt(w, s) == Sticks <==> s in Todo(v) && FateAt(v, s) == Sticks {}
    assert SomeSticks(w) <==> SomeSticks(v);
    if Quiet(w) {
      assert !SomeDecisive(v) && !SomeSticks(v);
    }
  }

  /** A turn that fails was bound to fail. */
  lemma FailureWasDue(v: View)
    requires TurnFails(v)
    ensures OutcomeOf(v) == Fails
  {
    CursorIsForemost(v);
    assert SomeDecisive(v);
  }

  /** A loop that spins goes on: it is not over, no turn of it fails, and it still spins after the next. */
  lemma SpinsForEver(v: View)
    requires OutcomeOf(v) == Spins
    ensures !Quiet(v) && !TurnFails(v)
    ensures OutcomeOf(Turned(v)) == Spins && Turned(v).ctl.looping == v.ctl.looping
  {
    assert !Decisive(v, v.ctl.ccs);
    TurnKeepsOutcome(v);
  }

  // ---- every other loop ends ----

  // A slot whose turn brings the end nearer: the first decisive one, or any one if nothing sticks.
  ghost predicate Target(v: View, t: Slot) {
    t in Todo(v) && (Foremost(v, t) || (!SomeDecisive(v) && !SomeSticks(v)))
  }

  lemma SomeTarget(v: View) returns (t: Slot)
    requires !Quiet(v) && OutcomeOf(v) != Spins
    ensures Target(v, t)
  {
    if SomeDecisive(v) {
      var s: Slot :| Decisive(v, s);
      t := SomeForemost(v, s);
    } else {
      t :| t in Todo(v);
    }
  }

  ghost function Rank(v: View, t: Slot): nat {
    if !v.ctl.looping then 0 else if Quiet(v) then 1 else 2 + |Todo(v)| * SLOTS + Ahead(v.ctl.ccs, t)
  }

  /** A turn of a loop that does not spin lowers the rank. */
  lemma TurnLowersRank(v: View, t: Slot) returns (next: Slot)
    requires v.ctl.looping && OutcomeOf(v) != Spins && (!Quiet(v) ==> Target(v, t))
    requires !TurnFails(v)
    ensures var w := Turned(v); (!Quiet(w) && w.ctl.looping ==> Target(w, next)) && Rank(w, next) < Rank(v, t)
  {
    next := t;
    var w := Turned(v);
    if !Quiet(v) {
      TurnKeepsOutcome(v);
      if !Quiet(w) {
        TurnShrinks(v, t);
        if t in Todo(w) {
          KeepsTarget(v, t);
        } else {
          next := SomeTarget(w);
        }
      }
    }
  }

  // Either the target is one step nearer, or a slot is done with.
  lemma TurnShrinks(v: View, t: Slot)
    requires !Quiet(v) && Target(v, t) && !Quiet(Turned(v))
    requires !TurnFails(v)
    ensures |Todo(Turned(v))| <= |Todo(v)| && (t !in Todo(Turned(v)) ==> |Todo(Turned(v))| < |Todo(v)|)
    ensures t in Todo(Turned(v)) ==> t != v.ctl.ccs && Ahead(Turned(v).ctl.ccs, t) < Ahead(v.ctl.ccs, t)
  {
    var s := v.ctl.ccs;
    if s in Todo(v) {
      HandledKeeps(v, s);
      HandledFate(v, s);
    }
    if t != s {
      NextNears(s, t);
    }
  }

  // A target that is still to be issued stays one.
  lemma KeepsTarget(v: View, t: Slot)
    requires !Quiet(v) && Target(v, t) && !Quiet(Turned(v)) && t in Todo(Turned(v))
    requires !TurnFails(v)
    ensures Target(Turned(v), t)
  {
    var s, w := v.ctl.ccs, Turned(v);
    if s in Todo(v) {
      HandledKeeps(v, s);
      HandledFate(v, s);
    }
    assert !Decisive(v, s);
    SameDecisive(v, w);
  }

  // With FIS reception on and host-to-device tables only, no loop spins.
  lemma NothingSticks(v: View)
    requires Heard(v) && forall s: Slot :: HostToDevice(v.tables[s])
    ensures OutcomeOf(v) != Spins
  {}

  // ---- many turns ----

  function TurnsAfter(v: View, n: nat): View {
    if n == 0 then v else Turned(TurnsAfter(v, n - 1))
  }

  // The loop runs through n turns, none of which fails.
  ghost predicate RunsThrough(v: View, n: nat) {
    forall k: nat :: k < n ==> RunsAt(v, k)
  }

  ghost predicate RunsAt(v: View, k: nat) {
    TurnsAfter(v, k).ctl.looping && !TurnFails(TurnsAfter(v, k))
  }

  // A loop in the middle of spinning.
  ghost predicate Spinning(u: View) {
    u.ctl.looping && OutcomeOf(u) == Spins && !TurnFails(u)
  }

  lemma SpinsOn(u: View)
    requires Spinning(u)
    ensures Spinning(Turned(u))
  {
    SpinsForEver(u);
    SpinsForEver(Turned(u));
  }

  /** A loop that spins never ends: however many turns it makes, it still runs and none of them fails. */
  lemma {:induction false} NeverEnds(v: View, n: nat)
    requires Spinning(v)
    ensures Spinning(TurnsAfter(v, n))
  {
    if n > 0 {
      NeverEnds(v, n - 1);
      SpinsOn(TurnsAfter(v, n - 1));
    }
  }

  // The loop that began at v after n turns, on its way to slot t.
  ghost predicate UnderWay(v: View, n: nat, u: View, t: Slot) {
    && ValidView(u) && RunsThrough(v, n) && u == TurnsAfter(v, n) && OutcomeOf(u) == OutcomeOf(v) != Spins
    && (u.ctl.looping && !Quiet(u) ==> Target(u, t))
  }

  lemma LoopBegins(v: View) returns (t: Slot)
    requires ValidView(v) && OutcomeOf(v) != Spins
    ensures UnderWay(v, 0, v, t)
  {
    t := 0;
    if !Quiet(v) {
      t := SomeTarget(v);
    }
  }

  lemma RunsOneMore(v: View, n: nat, u: View)
    requires RunsThrough(v, n) && u == TurnsAfter(v, n) && u.ctl.looping && !TurnFails(u)
    ensures RunsThrough(v, n + 1) && Turned(u) == TurnsAfter(v, n + 1)
  {
    assert RunsAt(v, n);
  }

  lemma OutcomeGoesOn(u: View)
    requires !TurnFails(u)
    ensures OutcomeOf(Turned(u)) == OutcomeOf(u)
  {
    if !Quiet(u) {
      TurnKeepsOutcome(u);
    }
  }

  lemma LoopGoesOn(v: View, n: nat, u: View, t: Slot) returns (next: Slot)
    requires UnderWay(v, n, u, t) && u.ctl.looping && !TurnFails(u)
    ensures UnderWay(v, n + 1, Turned(u), next) && Rank(Turned(u), next) < Rank(u, t)
  {
    TurnKeepsValid(u);
    OutcomeGoesOn(u);
    RunsOneMore(v, n, u);
    next := TurnLowersRank(u, t);
  }
}
