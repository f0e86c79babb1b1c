// The command engine of an AHCI disk port: issuing, a pool of requests, completions, cancellation and resets.
module AhciPort {
  import opened AhciCommands
  import opened AhciHistory
  import opened AhciLoop
  import opened AhciScatter
  import opened AhciState
  import opened Octets
  import opened Queues

  class Port {
    const sectsz: Positive   // sector size of the disk
    var st: bool
    var fre: bool
    var fr: bool
    var cr: bool
    var rfis: bool
    var reset: bool
    var looping: bool        // inside the issue loop
    var ccs: Slot
    var ci: set<Slot>
    var sact: set<Slot>
    var pending: set<Slot>
    var tfd: TaskFile
    var waitforclear: bool
    var ioreq: seq<Ioreq>
    var free: seq<nat>
    var busy: seq<nat>
    var tables: Tables

    function Now(): View
      reads this
    {
      View(Control(st, fre, fr, cr, rfis, reset, looping, ccs), Regs(ci, sact, pending, tfd, waitforclear),
           Pool(ioreq, free, busy), tables, sectsz)
    }

    ghost predicate Valid()
      reads this
    {
      ValidView(Now())
    }

    // A port after reset, with all its requests free.
    constructor (n: nat, sectsz: Positive, tables: Tables)
      requires SLOTS <= n
      ensures Valid() && Disciplined(Now()) && Stable(Now()) && this.sectsz == sectsz && this.tables == tables
      ensures Now().ctl == Control(false, false, false, false, false, false, false, 0)
      ensures Now().regs == Regs({}, {}, {}, ATA_RESET, false) && |ioreq| == n && busy == []
    {
      this.sectsz, this.tables := sectsz, tables;
      st, fre, fr, cr, rfis, reset, looping := false, false, false, false, false, false, false;
      ci, sact, pending, tfd, waitforclear, ccs := {}, {}, {}, ATA_RESET, false, 0;
      ioreq := seq(n, _ => FlushReq(0, tables[0]));
      busy := [];
      var q: seq<nat> := [];
      for i := 0 to n
        invariant |q| == i && NoDup(q) && forall r: nat :: r in q <==> r < i
      {
        NoDupAppend(q, i);
        q := q + [i];
      }
      free := q;
    }

    // ---- FISes ----

    // Every FIS sent to the guest: an error status stops further issuing.
    method WriteFis(status: TaskFile)
      modifies this`waitforclear
      ensures waitforclear == (old(waitforclear) || (rfis && fre && status.err))
    {
      if !rfis || !fre {
        return;
      }
      if status.err {
        waitforclear := true;
      }
    }

    // A set-device-bits FIS, which ends a queued command.
    method WriteFisSdb(slot: Slot, status: TaskFile)
      modifies this`sact, this`tfd, this`waitforclear
      ensures sact == if status.err then old(sact) else old(sact) - {slot}
      ensures tfd == status.(busy := old(tfd.busy), drq := old(tfd.drq), error := old(tfd.error))
      ensures waitforclear == (old(waitforclear) || (rfis && fre && status.err))
    {
      if !status.err {
        sact := sact - {slot};
      }
      tfd := status.(busy := tfd.busy, drq := tfd.drq, error := tfd.error);
      WriteFis(status);
    }

    // A register FIS, which ends a command.
    method WriteFisD2h(slot: Slot, status: TaskFile)
      modifies this`ci, this`tfd, this`waitforclear
      ensures ci == if status.err then old(ci) else old(ci) - {slot}
      ensures tfd == status
      ensures waitforclear == (old(waitforclear) || (rfis && fre && status.err))
    {
      if !status.err {
        ci := ci - {slot};
      }
      tfd := status;
      WriteFis(status);
    }

    // The register FIS that accepts a queued command.
    method WriteFisD2hNcq(slot: Slot)
      modifies this`ci, this`tfd, this`waitforclear
      ensures ci == old(ci) - {slot} && tfd == ATA_OK && waitforclear == old(waitforclear)
    {
      tfd := ATA_OK;
      ci := ci - {slot};
      WriteFis(tfd);
    }

    // A stopped port with nothing in flight clears its list.
    method CheckStopped()
      modifies this`ccs, this`cr, this`ci, this`sact, this`waitforclear
      ensures Now() == Checked(old(Now()))
    {
      if !st {
        if pending == {} {
          ccs, cr, ci, sact, waitforclear := 0, false, {}, {}, false;
        }
      }
    }

    // ---- issuing ----

    // There is a request to take.
    predicate Ready()
      reads this
    {
      free != [] && free[0] < |ioreq|
    }

    // Take a request off the free list, fill it in and queue it as in flight.
    method Start(q: Ioreq)
      requires Ready()
      modifies this`ioreq, this`free, this`busy, this`pending
      ensures Now() == Launched(old(Now()), q, false)
    {
      var r := free[0];
      free := free[1..];
      ioreq := ioreq[r := q];
      pending := pending + {q.slot};
      busy := [r] + busy;
    }

    // The same for the first request of a queued command, which is accepted with it.
    method StartQueued(q: Ioreq, first: bool)
      requires Ready()
      modifies this`ioreq, this`free, this`busy, this`pending, this`ci, this`tfd, this`waitforclear
      ensures Now() == Launched(old(Now()), q, Queued(q.table) && first)
    {
      Start(q);
      if Queued(q.table) && first {
        WriteFisD2hNcq(q.slot);
      }
    }

    // One pass of a read or write.  'alive' is the assertion that a full vector holds a sector.
    method HandleRw(slot: Slot, table: Table, done: nat) returns (alive: bool)
      requires Ready()
      modifies this`ioreq, this`free, this`busy, this`pending, this`ci, this`tfd, this`waitforclear
      ensures alive <==> RwOk(table, done, sectsz)
      ensures alive ==> Now() == Launched(old(Now()), RwReq(slot, table, done, sectsz), Queued(table) && done == 0)
    {
      var breq, done', more;
      alive, breq, done', more := OnePass(table.prdt, DiskOffset(table, sectsz), done, Len(table, sectsz), sectsz);
      if alive {
        var op := if Writes(table) then WriteBlocks else ReadBlocks;
        StartQueued(Ioreq(slot, table, done', more, op, breq), done == 0);
      }
    }

    // A cache flush.
    method HandleFlush(slot: Slot, table: Table)
      requires Ready()
      modifies this`ioreq, this`free, this`busy, this`pending, this`ci, this`tfd, this`waitforclear
      ensures Now() == Launched(old(Now()), FlushReq(slot, table), false)
    {
      Start(Ioreq(slot, table, 0, false, FlushBlocks, BlockReq(0, 0, [])));
    }

    // The search for the next non-empty entry of a trim list.
    method NextTrimEntry(buffer: seq<Byte>, from: nat, len: nat) returns (r: Scan)
      ensures r == ScanFrom(buffer, from, len)
    {
      var done := from;
      while done + 8 <= |buffer|
        invariant ScanFrom(buffer, done, len) == ScanFrom(buffer, from, len)
        decreases |buffer| - done
      {
        var elen := EntryLen(buffer, done);
        done := done + 8;
        if elen != 0 {
          return Found(done);
        }
        if done >= len {
          return Exhausted;
        }
      }
      r := Strays;
    }

    // A trim command without any entry ends at once.
    method EmptyTrim(slot: Slot, table: Table)
      requires st && slot !in pending
      modifies this`ccs, this`cr, this`ci, this`sact, this`waitforclear, this`tfd, this`pending
      ensures Now() == old(Now()).(regs := Trimmed(old(Now()).regs, slot, Queued(table)))
    {
      if Queued(table) {
        WriteFisD2hNcq(slot);
        WriteFisSdb(slot, ATA_OK);
      } else {
        WriteFisD2h(slot, ATA_OK);
      }
      Retire(slot);
    }

    // A slot is no longer in flight.
    method Retire(slot: Slot)
      modifies this`ccs, this`cr, this`ci, this`sact, this`waitforclear, this`pending
      ensures Now() == Checked(old(Now()).(regs := Retired(old(Now()).regs, slot)))
    {
      pending := pending - {slot};
      CheckStopped();
    }

    // The FIS that ends a command that was in flight.
    method Report(slot: Slot, queued: bool, err: bool)
      modifies this`ci, this`sact, this`waitforclear, this`tfd
      ensures Now() == old(Now()).(regs := Reported(old(Now()).regs, slot, queued, err, rfis && fre))
    {
      var status := if err then ATA_ABORTED else ATA_OK;
      if queued {
        WriteFisSdb(slot, status);
      } else {
        WriteFisD2h(slot, status);
      }
    }

    // The command of a slot is over, and the issue loop runs again.
    method Settle(slot: Slot, queued: bool, err: bool)
      modifies this`ccs, this`cr, this`ci, this`sact, this`waitforclear, this`tfd, this`pending, this`looping
      ensures Now() == Settled(old(Now()), slot, queued, err)
    {
      Report(slot, queued, err);
      Retire(slot);
      looping := true;
    }

    // The next entry of a trim command, or its end.  'alive' is false if the search leaves the buffer.
    method HandleTrim(slot: Slot, table: Table, done: nat) returns (alive: bool)
      requires Ready() && (done == 0 ==> st && slot !in pending)
      modifies this
      ensures alive <==> !ScanFrom(table.buffer, done, TrimLen(table)).Strays?
      ensures match ScanFrom(table.buffer, done, TrimLen(table))
              case Found(next) =>
                Now() == Launched(old(Now()), TrimReq(slot, table, next, sectsz), Queued(table) && done == 0)
              case Exhausted =>
                if done == 0 then Now() == old(Now()).(regs := Trimmed(old(Now()).regs, slot, Queued(table)))
                else Now() == Settled(old(Now()), slot, Queued(table), false)
              case Strays => true
    {
      var r := NextTrimEntry(table.buffer, done, TrimLen(table));
      alive := !r.Strays?;
      match r
      case Found(next) =>
        var breq := EntryReq(table.buffer, next - 8, sectsz);
        StartQueued(Ioreq(slot, table, next, next != TrimLen(table), DeleteBlocks, breq), done == 0);
      case Exhausted =>
        if done == 0 {
          EmptyTrim(slot, table);
        } else {
          Settle(slot, Queued(table), false);
        }
      case Strays =>
    }

    // Accepting a command: the device goes busy, and the command ends at once or goes in flight.
    method HandleCmd(slot: Slot, table: Table) returns (alive: bool)
      requires Ready() && st && slot !in pending
      modifies this
      ensures alive <==> (Dispatch(table).Rw? ==> RwOk(table, 0, sectsz))
      ensures alive ==> Now() == Executed(old(Now()).(regs := Busied(old(Now()).regs)), slot, table)
    {
      tfd := tfd.(busy := true);
      alive := true;
      match Dispatch(table)
      case Rw(_) =>
        alive := HandleRw(slot, table, 0);
      case Flush =>
        HandleFlush(slot, table);
      case Trim(_) =>
        FirstScan(table);
        alive := HandleTrim(slot, table, 0);
      case Immediate(ok) =>
        WriteFisD2h(slot, if ok then ATA_OK else ATA_ABORTED);
    }

    // Port reset, by control register or by software reset FIS.
    method PortReset()
      modifies this`sact, this`tfd
      ensures sact == {} && tfd == ATA_RESET
    {
      sact := {};
      tfd := ATA_RESET;
    }

    // A control FIS: the software reset bit going high, then low.
    method HandleControl(slot: Slot, soft: bool)
      modifies this`reset, this`sact, this`tfd, this`ci
      ensures Now() == Controlled(old(Now()), slot, soft)
    {
      if soft {
        reset := true;
      } else if reset {
        reset := false;
        PortReset();
      }
      ci := ci - {slot};
    }

    // One issued slot: a command, a control FIS, or a FIS of another type, which is ignored.
    method HandleSlot(slot: Slot) returns (alive: bool)
      requires Ready() && st && slot !in pending
      modifies this
      ensures alive <==> !Starves(old(tables[slot]), sectsz)
      ensures alive ==> Now() == Handled(old(Now()), slot)
    {
      alive := true;
      var table := tables[slot];
      if table.cfis[0] != REG_H2D {
        return;
      }
      if table.cfis[1] >= 128 {
        alive := HandleCmd(slot, table);
      } else {
        HandleControl(slot, table.cfis[15] / 4 % 2 == 1);
      }
    }

    // One turn of the issue loop, or its end.
    method Turn() returns (alive: bool)
      requires Valid() && looping
      modifies this
      ensures alive <==> !TurnFails(old(Now()))
      ensures alive ==> Now() == Turned(old(Now()))
    {
      alive := true;
      if !st || ci - pending == {} || !Idle(tfd) || waitforclear {
        looping := false;
        return;
      }
      if ccs in ci - pending {
        IssueFindsRequest(Now(), ccs);
        alive := HandleSlot(ccs);
      }
      if alive {
        ccs := (ccs + 1) % SLOTS;
      }
    }

    /**
     * The whole issue loop, turn by turn.  If it does not spin it ends: alive, with nothing left to issue, or in a
     * failing assertion.  Which of the two is decided before the first turn.
     */
    method HandlePort() returns (alive: bool, ghost n: nat)
      requires Valid() && looping && OutcomeOf(Now()) != Spins
      modifies this
      ensures RunsThrough(old(Now()), n) && (alive <==> OutcomeOf(old(Now())) == Rests)
      ensures alive ==> Valid() && Now() == TurnsAfter(old(Now()), n) && !looping && Quiet(Now())
      ensures !alive ==> TurnsAfter(old(Now()), n).ctl.looping && TurnFails(TurnsAfter(old(Now()), n))
    {
      alive, n := true, 0;
      ghost var v := Now();
      ghost var t := LoopBegins(v);
      while looping
        invariant UnderWay(v, n, Now(), t)
        decreases Rank(Now(), t)
      {
        ghost var u := Now();
        alive := Turn();
        if !alive {
          FailureWasDue(u);
          return;
        }
        t := LoopGoesOn(v, n, u, t);
        n := n + 1;
      }
    }

    // ---- completions ----

    // Completion or cancellation: request r leaves the busy list.
    method Release(r: nat)
      modifies this`free, this`busy
      ensures Now() == old(Now()).(pool := Returned(old(Now()).pool, r))
    {
      busy := Without(busy, r);
      free := free + [r];
    }

    /** The backend reports request r.  'alive' is false if the next pass breaks. */
    method Complete(r: nat, err: bool) returns (alive: bool)
      requires Valid() && r in busy
      modifies this
      ensures alive <==> !Breaks(old(ioreq[r]), err, sectsz)
      ensures alive ==> Now() == Completed(old(Now()), r, err)
    {
      alive := true;
      var q := ioreq[r];
      assert Sane(q);
      NextFindsRequest(Now(), r);
      Release(r);
      if !err && q.more {
        if Dsm(q.table) {
          alive := HandleTrim(q.slot, q.table, q.done);
        } else {
          alive := HandleRw(q.slot, q.table, q.done);
        }
      } else {
        Settle(q.slot, Queued(q.table), err);
      }
    }

    // ---- register writes ----

    // One withdrawn request.
    method Cancel(r: nat)
      requires r < |ioreq|
      modifies this`free, this`busy, this`pending, this`ci, this`sact
      ensures Now() == Cancelled(old(Now()), r)
    {
      Release(r);
      var slot := ioreq[r].slot;
      if Queued(ioreq[r].table) {
        sact := sact - {slot};
      } else {
        ci := ci - {slot};
      }
      pending := pending - {slot};
    }

    // The guest stops the port.  'cancelled' are the requests the backend agrees to withdraw.
    method Stop(cancelled: set<nat>)
      requires forall r :: r in busy ==> r < |ioreq|
      modifies this`free, this`busy, this`pending, this`ccs, this`cr, this`ci, this`sact, this`waitforclear
      ensures Now() == Checked(CancelledFrom(old(Now()), old(busy), cancelled))
    {
      var rest: seq<nat> := busy;
      while rest != []
        invariant ioreq == old(ioreq) && forall r :: r in rest ==> r < |ioreq|
        invariant CancelledFrom(Now(), rest, cancelled) == CancelledFrom(old(Now()), old(busy), cancelled)
        decreases |rest|
      {
        var r := rest[0];
        assert r in rest && forall x :: x in rest[1..] ==> x in rest;
        rest := rest[1..];
        if r in cancelled {
          Cancel(r);
        }
      }
      CheckStopped();
    }

    // PxCMD: FIS reception, command list override, and the issue loop.
    method Receive(receive: bool, mapped: bool, clo: bool)
      modifies this`fr, this`rfis, this`tfd, this`looping
      ensures Now() == Looping(Overridden(Receiving(old(Now()), receive, mapped), clo))
    {
      fr := receive;
      if receive {
        rfis := mapped;
      }
      if clo {
        tfd := tfd.(busy := false, drq := false);
      }
      looping := true;
    }

    // PxCMD: the start and FIS receive bits.
    method Switch(start: bool, receive: bool)
      modifies this`st, this`fre
      ensures Now() == Switched(old(Now()), start, receive)
    {
      st, fre := start, receive;
    }

    // PxCMD: a running port, or a stopped one.
    method Commence(start: bool, cancelled: set<nat>)
      requires forall r :: r in busy ==> r < |ioreq|
      modifies this`free, this`busy, this`pending, this`ccs, this`cr, this`ci, this`sact, this`waitforclear
      ensures Now() == Commenced(old(Now()), start, cancelled)
    {
      if start {
        cr := true;
      } else {
        Stop(cancelled);
      }
    }

    // PxCMD: start or stop, then FIS reception and command list override.
    method WriteCmd(start: bool, receive: bool, mapped: bool, clo: bool, cancelled: set<nat>)
      requires forall r :: r in busy ==> r < |ioreq|
      modifies this
      ensures Now() == Commanded(old(Now()), start, receive, mapped, clo, cancelled)
    {
      Switch(start, receive);
      Commence(start, cancelled);
      Receive(receive, mapped, clo);
    }

    // PxCI: more commands to issue.
    method WriteCi(value: set<Slot>)
      modifies this`ci, this`looping
      ensures Now() == Looping(old(Now()).(regs := old(Now()).regs.(ci := old(ci) + value)))
    {
      ci := ci + value;
      looping := true;
    }

    // PxSCTL: a reset request counts only on a stopped port.
    method WriteSctl(det: bool)
      modifies this`sact, this`tfd
      ensures sact == (if det && !st then {} else old(sact)) && tfd == if det && !st then ATA_RESET else old(tfd)
    {
      if !st && det {
        PortReset();
      }
    }

    // Reset of the whole controller, as one port sees it.
    method HbaReset()
      modifies this`st, this`fre, this`fr, this`cr, this`sact, this`tfd
      ensures !st && !fre && !fr && !cr && sact == {} && tfd == ATA_RESET
    {
      st, fre, fr, cr := false, false, false, false;
      PortReset();
    }

    // A register write.
    method WriteReg(e: Event)
      requires Valid() && !looping && (e.PxCmd? || e.PxCi? || e.PxSact? || e.PxSctl? || e.GhcReset?)
      modifies this
      ensures Now() == After(old(Now()), e)
    {
      match e
      case PxCmd(start, receive, mapped, clo, cancelled) => WriteCmd(start, receive, mapped, clo, cancelled);
      case PxCi(value) => WriteCi(value);
      case PxSact(value) => sact := sact + value;
      case PxSctl(det) => WriteSctl(det);
      case GhcReset => HbaReset();
    }

    // A change of guest memory.
    method Change(e: Event)
      requires Valid() && (e.Store? || e.Rewrite?)
      modifies this`tables, this`ioreq
      ensures Now() == After(old(Now()), e)
    {
      if e.Store? {
        tables := tables[e.slot := e.table];
      } else if e.index < |busy| {
        var r := busy[e.index];
        assert r in busy;
        ioreq := ioreq[r := ioreq[r].(table := e.changed)];
      }
    }

    // ---- histories ----

    // What happens in one event.
    method Act(e: Event) returns (alive: bool)
      requires Valid()
      modifies this
      ensures alive <==> !Halts(old(Now()), e)
      ensures alive ==> Now() == After(old(Now()), e)
    {
      alive := true;
      if e.LoopTurn? {
        if looping {
          alive := Turn();
        }
      } else if e.Completion? {
        if !looping && e.k < |busy| {
          assert busy[e.k] in busy;
          alive := Complete(busy[e.k], e.err);
        }
      } else if e.Store? || e.Rewrite? {
        Change(e);
      } else if !looping {
        WriteReg(e);
      }
    }

    /** One event; those that cannot happen now change nothing.  'alive' is false if the program does not survive. */
    method Step(e: Event) returns (alive: bool)
      requires Valid()
      modifies this
      ensures alive <==> !Halts(old(Now()), e)
      ensures alive ==> Valid() && Stepped(old(Now()), e, Now())
    {
      ghost var v := Now();
      alive := Act(e);
      if alive {
        EventKeepsValid(v, e);
      }
    }

    /**
     * Any history of register writes, changes of guest memory, completions and turns of the issue loop, state by
     * state.  It stops short exactly where the program does not survive.
     */
    method Run(events: seq<Event>) returns (alive: bool, ghost trace: seq<View>)
      requires Valid()
      modifies this
      ensures Traced(trace, events) && trace[0] == old(Now())
      ensures alive <==> |trace| == |events| + 1
      ensures alive ==> Valid() && trace[|events|] == Now()
      ensures !alive ==> Halts(trace[|trace| - 1], events[|trace| - 1])
    {
      alive, trace := true, [Now()];
      for i := 0 to |events|
        invariant Valid() && |trace| == i + 1 && Traced(trace, events)
        invariant trace[0] == old(Now()) && trace[i] == Now()
      {
        alive := Step(events[i]);
        if !alive {
          return;
        }
        TracedOneMore(trace, events, Now());
        trace := trace + [Now()];
      }
    }
  }

  // ---- a loop that spins ----

  // A table with a command nobody knows.
  function Unknown(): Table {
    Table([REG_H2D, 128, 0xff, 0, 0, 0, 0, 0, 0, 0, 0, 0, 0, 0, 0, 0, 0, 0, 0, 0], [], seq(TRIM_BYTES, _ => 0))
  }

  // An unknown command is stored for slot 0, the port is started without FIS reception, and the slot is issued.
  function SpinEvents(): seq<Event> {
    [Store(0, Unknown()), PxCmd(true, false, false, false, {}), LoopTurn, PxCi({0})]
  }

  /** From a port after reset this history leads to a loop that never ends. */
  method SpinningPort(n: nat, sectsz: Positive, tables: Tables) returns (p: Port, ghost trace: seq<View>)
    requires SLOTS <= n
    ensures Traced(trace, SpinEvents()) && |trace| == 5 && trace[4] == p.Now()
    ensures p.looping && OutcomeOf(p.Now()) == Spins
  {
    p := new Port(n, sectsz, tables);
    var alive;
    alive, trace := p.Run(SpinEvents());
    SpinSteps(trace);
  }

  lemma SpinSteps(trace: seq<View>)
    requires Traced(trace, SpinEvents()) && trace[0].pool.busy == []
    requires trace[0].ctl == Control(false, false, false, false, false, false, false, 0)
    requires trace[0].regs == Regs({}, {}, {}, ATA_RESET, false)
    requires |trace| <= 4 ==> Halts(trace[|trace| - 1], SpinEvents()[|trace| - 1])
    ensures |trace| == 5 && trace[4].ctl.looping && OutcomeOf(trace[4]) == Spins
  {
    var events, v := SpinEvents(), trace[0];
    var v1 := v.(tables := v.tables[0 := Unknown()]);
    assert !Halts(v, events[0]) && TraceStep(trace, events, 0);
    assert Stepped(v, events[0], trace[1]) && trace[1] == v1;
    var v2 := v1.(ctl := Control(true, false, false, true, false, false, true, 0));
    assert !Halts(v1, events[1]) && TraceStep(trace, events, 1);
    assert Stepped(v1, events[1], trace[2]) && trace[2] == v2;
    var v3 := v2.(ctl := v2.ctl.(looping := false));
    assert Quiet(v2) && !Halts(v2, events[2]) && TraceStep(trace, events, 2);
    assert Stepped(v2, events[2], trace[3]) && trace[3] == v3;
    var v4 := v3.(ctl := v2.ctl, regs := v3.regs.(ci := {0}));
    assert !Halts(v3, events[3]) && TraceStep(trace, events, 3);
    assert Stepped(v3, events[3], trace[4]) && trace[4] == v4;
    UnknownSpins(v4);
  }

  // Without FIS reception an unknown command is refused, stays in the list and does not stop the loop.
  lemma UnknownSpins(v: View)
    requires v.ctl.st && !v.ctl.fre && Todo(v) == {0} && !Stalled(v) && v.tables[0] == Unknown()
    ensures OutcomeOf(v) == Spins
  {
    assert FateAt(v, 0) == Sticks;
  }
}
