// What a guest sees of its commands: status, the bits of its slots, and what stops further issuing.
module AhciReports {
  import opened AhciCommands
  import opened AhciHistory
  import opened AhciState
  import opened Queues

  const QUEUED_CODES := {0x60, 0x61, 0x64}

  lemma QueuedMeans(t: Table)
    ensures Queued(t) <==> t.cfis[2] in QUEUED_CODES
  {}

  // A stopped port has nothing in flight any more.
  predicate Drained(w: View) {
    !w.ctl.st && w.regs.pending == {}
  }

  // ---- completions ----

  // The command of a slot is over, and the guest sees how it went.
  predicate Reports(v: View, slot: Slot, queued: bool, err: bool, w: View) {
    && w.regs.pending == v.regs.pending - {slot} && w.regs.tfd.ready && (w.regs.tfd.err <==> err)
    && (if queued then w.regs.tfd.busy == v.regs.tfd.busy && w.regs.tfd.drq == v.regs.tfd.drq else Idle(w.regs.tfd))
    && if Drained(w) then w.regs.ci == {} == w.regs.sact && !w.regs.waitforclear
       else
         && w.regs.ci == (if err || queued then v.regs.ci else v.regs.ci - {slot})
         && w.regs.sact == (if err || !queued then v.regs.sact else v.regs.sact - {slot})
         && (w.regs.waitforclear <==> v.regs.waitforclear || (err && v.ctl.rfis && v.ctl.fre))
  }

  lemma SettledReports(v: View, u: View, slot: Slot, queued: bool, err: bool)
    requires u.regs == v.regs && u.ctl == v.ctl
    ensures Reports(v, slot, queued, err, Settled(u, slot, queued, err))
  {}

  lemma LaunchedShows(v: View, q: Ioreq)
    requires q.slot in v.regs.pending
    ensures Launched(v, q, false).regs == v.regs
  {
    assert v.regs.pending + {q.slot} == v.regs.pending;
  }

  // What follows a completion.
  lemma CompletedCases(v: View, r: nat, err: bool)
    requires r < |v.pool.ioreq| && v.pool.ioreq[r].slot in v.regs.pending
    ensures var q, w := v.pool.ioreq[r], Completed(v, r, err);
      if q.slot in w.regs.pending then !err && q.more && w.regs == v.regs
      else Reports(v, q.slot, Queued(q.table), err, w) && (err || !q.more || Dsm(q.table))
  {
    var q, u := v.pool.ioreq[r], v.(pool := Returned(v.pool, r));
    if err || !q.more {
      SettledReports(v, u, q.slot, Queued(q.table), err);
    } else if !Dsm(q.table) {
      LaunchedShows(u, RwReq(q.slot, q.table, q.done, v.sectsz));
    } else {
      var s := ScanFrom(q.table.buffer, q.done, TrimLen(q.table));
      if s.Found? {
        LaunchedShows(u, TrimReq(q.slot, q.table, s.next, v.sectsz));
      } else {
        SettledReports(v, u, q.slot, Queued(q.table), false);
      }
    }
  }

  /**
   * A completion that ends its command shows an error exactly if there was one, and clears the bit of its slot exactly
   * if there was none; other slots keep their bits.  An error that the guest can hear stops further issuing.  Any
   * other completion shows nothing.
   */
  lemma CompletionReports(v: View, k: nat, err: bool)
    requires ValidView(v) && Enabled(v, Completion(k, err)) && !Halts(v, Completion(k, err))
    ensures var q, w := v.pool.ioreq[v.pool.busy[k]], After(v, Completion(k, err));
      && (if q.slot in w.regs.pending then w.regs == v.regs
          else Reports(v, q.slot, q.table.cfis[2] in QUEUED_CODES, err, w))
      && (err || !q.more ==> q.slot !in w.regs.pending)
      && (!err && q.more && !Dsm(q.table) ==> q.slot in w.regs.pending)
  {
    var r := v.pool.busy[k];
    assert r in v.pool.busy;
    ReturnKeepsPool(v.pool, v.regs.pending, r);
    CompletedCases(v, r, err);
    QueuedMeans(v.pool.ioreq[r].table);
  }

  // ---- the issue loop ----

  // What the guest sees of a slot that the loop deals with.
  predicate Answers(v: View, s: Slot, t: Table, w: View) {
    if t.cfis[0] != 0x27 then w.regs == v.regs
    else if t.cfis[1] < 128 then
      && w.regs.ci == v.regs.ci - {s} && w.regs.pending == v.regs.pending
      && w.regs.waitforclear == v.regs.waitforclear && (w.ctl.reset <==> t.cfis[15] / 4 % 2 == 1)
      && (if v.ctl.reset && !w.ctl.reset then w.regs.sact == {} && Idle(w.regs.tfd) && w.regs.tfd.error == 1
          else w.regs.sact == v.regs.sact && w.regs.tfd == v.regs.tfd)
    else if s in w.regs.pending then
      && w.regs.pending == v.regs.pending + {s} && w.regs.sact == v.regs.sact
      && w.regs.ci == (if t.cfis[2] in QUEUED_CODES then v.regs.ci - {s} else v.regs.ci)
      && w.regs.waitforclear == v.regs.waitforclear && (t.cfis[2] in QUEUED_CODES <==> Idle(w.regs.tfd))
    else
      && w.regs.pending == v.regs.pending && w.regs.tfd.ready && Idle(w.regs.tfd)
      && w.regs.ci == (if w.regs.tfd.err then v.regs.ci else v.regs.ci - {s})
      && (w.regs.tfd.err ==> w.regs.sact == v.regs.sact)
      && (w.regs.waitforclear <==> v.regs.waitforclear || (w.regs.tfd.err && v.ctl.rfis && v.ctl.fre))
  }

  lemma ExecutedAnswers(v: View, s: Slot, t: Table)
    requires s !in v.regs.pending && HostToDevice(t) && Command(t) && v.regs.tfd.busy && !v.regs.tfd.drq
    ensures Answers(v, s, t, Executed(v, s, t))
  {
    QueuedMeans(t);
    match Dispatch(t)
    case Rw(_) =>
    case Flush =>
    case Trim(_) =>
    case Immediate(_) =>
  }

  /**
   * A turn of the loop: a command goes in flight with its bit kept, or cleared if it is queued; or it is answered at
   * once, and its bit is cleared exactly if it did not fail.
   */
  lemma TurnAnswers(v: View)
    requires !Quiet(v)
    ensures var s, w := v.ctl.ccs, Turned(v); if s in Todo(v) then Answers(v, s, v.tables[s], w) else w.regs == v.regs
  {
    var s := v.ctl.ccs;
    var t := v.tables[s];
    if s in Todo(v) && HostToDevice(t) && Command(t) {
      var u := v.(regs := Busied(v.regs));
      ExecutedAnswers(u, s, t);
      SameAnswers(u, v, s, t, Executed(u, s, t), Turned(v));
    }
  }

  lemma SameAnswers(u: View, v: View, s: Slot, t: Table, x: View, w: View)
    requires u == v.(regs := Busied(v.regs)) && w.regs == x.regs && HostToDevice(t) && Answers(u, s, t, x)
    requires Command(t)
    ensures Answers(v, s, t, w)
  {}

  // ---- stopping ----

  // A slot of a withdrawn request.
  ghost predicate Withdraws(v: View, s: Slot, queued: bool, cancelled: set<nat>) {
    exists r: nat ::
      r in v.pool.busy && r in cancelled && r < |v.pool.ioreq| && v.pool.ioreq[r].slot == s
      && (v.pool.ioreq[r].table.cfis[2] in QUEUED_CODES) == queued
  }

  // A stopped port loses the bits of what is withdrawn, and all bits if nothing is left in flight.
  lemma StopTakes(v: View, cancelled: set<nat>, s: Slot)
    requires ValidView(v)
    ensures var w := Checked(CancelledFrom(v, v.pool.busy, cancelled));
      && (s in v.regs.ci && s !in w.regs.ci ==> Withdraws(v, s, false, cancelled) || Drained(w))
      && (s in v.regs.sact && s !in w.regs.sact ==> Withdraws(v, s, true, cancelled) || Drained(w))
      && w.regs.ci <= v.regs.ci && w.regs.sact <= v.regs.sact && w.regs.tfd == v.regs.tfd && w.ctl.st == v.ctl.st
      && (w.regs.waitforclear ==> v.regs.waitforclear)
  {
    var gone := set r | r in v.pool.busy && r in cancelled;
    var u := CancelledFrom(v, v.pool.busy, cancelled);
    assert Withdrew(v, {}, v) by {
      assert SlotsOfKind({}, v.pool.ioreq, false) == {} == SlotsOfKind({}, v.pool.ioreq, true);
    }
    CancelMeans(v, {}, v, v.pool.busy, cancelled);
    assert {} + gone == gone && Withdrew(v, gone, u);
    SlotWithdrawn(v, gone, s, false, cancelled);
    SlotWithdrawn(v, gone, s, true, cancelled);
  }

  lemma SlotWithdrawn(v: View, gone: set<nat>, s: Slot, queued: bool, cancelled: set<nat>)
    requires forall r :: r in gone ==> r < |v.pool.ioreq| && r in v.pool.busy && r in cancelled
    ensures s in SlotsOfKind(gone, v.pool.ioreq, queued) ==> Withdraws(v, s, queued, cancelled)
  {
    if s in SlotsOfKind(gone, v.pool.ioreq, queued) {
      var r :| r in gone && Queued(v.pool.ioreq[r].table) == queued && v.pool.ioreq[r].slot == s;
      QueuedMeans(v.pool.ioreq[r].table);
    }
  }

  // ---- registers that the guest writes ----

  /** What a write of PxCMD leaves, whatever requests it withdraws. */
  lemma CommandWritten(v: View, e: Event)
    requires ValidView(v) && e.PxCmd? && Enabled(v, e)
    ensures var w := After(v, e);
      && w.ctl.st == e.start && w.ctl.fre == e.receive == w.ctl.fr && w.ctl.looping
      && w.ctl.rfis == (if e.receive then e.mapped else v.ctl.rfis) && (e.start ==> w.ctl.cr)
      && (if e.clo then Idle(w.regs.tfd) else w.regs.tfd == v.regs.tfd)
      && (e.start ==> w.pool == v.pool && w.regs == v.regs.(tfd := w.regs.tfd))
      && (Drained(w) ==> w.regs.ci == {} == w.regs.sact && !w.ctl.cr && w.ctl.ccs == 0)
  {
    if !e.start {
      StopTakes(Switched(v, false, e.receive), e.cancelled, 0);
    }
  }

  /** A write of PxCI issues exactly the slots written, and one of PxSACT marks exactly those as queued. */
  lemma IssueWritten(v: View, value: set<Slot>)
    requires ValidView(v) && !v.ctl.looping
    ensures var w := After(v, PxCi(value)); w.ctl.looping && w.regs == v.regs.(ci := w.regs.ci) && w.pool == v.pool
    ensures forall s: Slot :: s in After(v, PxCi(value)).regs.ci <==> s in v.regs.ci || s in value
    ensures After(v, PxSact(value)) == v.(regs := v.regs.(sact := After(v, PxSact(value)).regs.sact))
    ensures forall s: Slot :: s in After(v, PxSact(value)).regs.sact <==> s in v.regs.sact || s in value
  {}

  /** A reset stops the port, drops the queued commands and leaves the device idle. */
  lemma ResetWritten(v: View, e: Event)
    requires ValidView(v) && Enabled(v, e) && (e == GhcReset || (e == PxSctl(true) && !v.ctl.st))
    ensures var w := After(v, e);
      && !w.ctl.st && w.regs.sact == {} && Idle(w.regs.tfd) && w.regs.tfd.error == 1 && w.pool == v.pool
      && w.regs.ci == v.regs.ci && w.regs.pending == v.regs.pending && (e.GhcReset? ==> !w.ctl.fre && !w.ctl.cr)
  {}

  // ---- which events clear and set the bits of a slot ----

  // The completion of this slot's command, without an error, ended it.
  predicate Finishes(v: View, k: nat, err: bool, queued: bool, s: Slot, w: View) {
    && k < |v.pool.busy| && v.pool.busy[k] < |v.pool.ioreq| && v.pool.ioreq[v.pool.busy[k]].slot == s
    && !err && s !in w.regs.pending && (v.pool.ioreq[v.pool.busy[k]].table.cfis[2] in QUEUED_CODES) == queued
  }

  /** Why the issue bit of a slot is cleared. */
  ghost predicate ClearsCi(v: View, e: Event, w: View, s: Slot) {
    match e
    case LoopTurn =>
      && s == v.ctl.ccs && v.tables[s].cfis[0] == 0x27
      && (|| v.tables[s].cfis[1] < 128                                             // a control FIS
          || (s in w.regs.pending && v.tables[s].cfis[2] in QUEUED_CODES)          // accepted
          || (s !in w.regs.pending && !w.regs.tfd.err))                            // done at once
    case Completion(k, err) => Finishes(v, k, err, false, s, w) || Drained(w)
    case PxCmd(start, _, _, _, cancelled) => !start && (Withdraws(v, s, false, cancelled) || Drained(w))
    case _ => false
  }

  /** Why the bit of a queued command is cleared. */
  ghost predicate ClearsSact(v: View, e: Event, w: View, s: Slot) {
    match e
    case LoopTurn =>
      var t := v.tables[v.ctl.ccs];
      && t.cfis[0] == 0x27
      && (|| (t.cfis[1] < 128 && v.ctl.reset)                                      // the end of a software reset
          || (t.cfis[1] >= 128 && s == v.ctl.ccs && s !in w.regs.pending && !w.regs.tfd.err))
    case Completion(k, err) => Finishes(v, k, err, true, s, w) || Drained(w)
    case PxCmd(start, _, _, _, cancelled) => !start && (Withdraws(v, s, true, cancelled) || Drained(w))
    case PxSctl(det) => det && !v.ctl.st
    case GhcReset => true
    case _ => false
  }

  /** What one event can do to the bits of a slot, and to what stops further issuing. */
  ghost predicate Accounts(v: View, e: Event, w: View, s: Slot) {
    && (s in v.regs.ci && s !in w.regs.ci ==> ClearsCi(v, e, w, s))
    && (s in v.regs.sact && s !in w.regs.sact ==> ClearsSact(v, e, w, s))
    && (s !in v.regs.ci && s in w.regs.ci ==> e.PxCi? && s in e.value)
    && (s !in v.regs.sact && s in w.regs.sact ==> e.PxSact? && s in e.value)
    && (!v.regs.waitforclear && w.regs.waitforclear ==>
          (e.LoopTurn? || (e.Completion? && e.err)) && w.regs.tfd.err && v.ctl.rfis && v.ctl.fre)
  }

  lemma TurnAccounts(v: View, s: Slot)
    requires v.ctl.looping
    ensures Accounts(v, LoopTurn, Turned(v), s)
  {
    if !Quiet(v) {
      TurnAnswers(v);
      if v.ctl.ccs in Todo(v) {
        TurnSact(v, s);
      }
    }
  }

  // The loop clears the bit of a queued command only if it is done at once, or at the end of a software reset.
  lemma TurnSact(v: View, s: Slot)
    requires !Quiet(v) && v.ctl.ccs in Todo(v)
    ensures var w := Turned(v);
      && w.regs.sact <= v.regs.sact
      && (s in v.regs.sact && s !in w.regs.sact ==> ClearsSact(v, LoopTurn, w, s))
  {
    var c := v.ctl.ccs;
    var t, u := v.tables[c], v.(regs := Busied(v.regs));
    if HostToDevice(t) && Command(t) {
      ExecutedSact(u, c, t);
    }
  }

  lemma ExecutedSact(u: View, c: Slot, t: Table)
    requires c !in u.regs.pending
    ensures var w := Executed(u, c, t);
      && w.regs.sact <= u.regs.sact && u.regs.sact <= w.regs.sact + {c}
      && (c in u.regs.sact && c !in w.regs.sact ==> c !in w.regs.pending && !w.regs.tfd.err)
  {
    match Dispatch(t)
    case Rw(_) =>
    case Flush =>
    case Trim(_) =>
    case Immediate(_) =>
  }

  lemma CompletionAccounts(v: View, k: nat, err: bool, s: Slot)
    requires ValidView(v) && Enabled(v, Completion(k, err)) && !Halts(v, Completion(k, err))
    ensures Accounts(v, Completion(k, err), After(v, Completion(k, err)), s)
  {
    CompletionReports(v, k, err);
  }

  lemma CommandAccounts(v: View, e: Event, s: Slot)
    requires ValidView(v) && e.PxCmd? && Enabled(v, e)
    ensures Accounts(v, e, After(v, e), s)
  {
    if !e.start {
      StopTakes(Switched(v, false, e.receive), e.cancelled, s);
    }
  }

  /** The bits of a slot change only for one of these reasons. */
  lemma EventAccounts(v: View, e: Event, s: Slot)
    requires ValidView(v) && !Halts(v, e)
    ensures Accounts(v, e, After(v, e), s)
  {
    if Enabled(v, e) {
      match e
      case LoopTurn => TurnAccounts(v, s);
      case Completion(k, err) => CompletionAccounts(v, k, err, s);
      case PxCmd(_, _, _, _, _) => CommandAccounts(v, e, s);
      case _ =>
    }
  }

  // ---- histories ----

  /** A bit that was set at one moment of a run and is clear at a later one was cleared in between for a reason. */
  lemma {:induction false} WhyCleared(trace: seq<View>, events: seq<Event>, i: nat, j: nat, s: Slot) returns (k: nat)
    requires Traced(trace, events) && i <= j < |trace| && s in trace[i].regs.ci && s !in trace[j].regs.ci
    ensures i <= k < j && s in trace[k].regs.ci && ClearsCi(trace[k], events[k], trace[k + 1], s)
  {
    k := j - 1;
    StepAccounts(trace, events, k, s);
    if s !in trace[k].regs.ci {
      k := WhyCleared(trace, events, i, k, s);
    }
  }

  lemma {:induction false} WhyReleased(trace: seq<View>, events: seq<Event>, i: nat, j: nat, s: Slot) returns (k: nat)
    requires Traced(trace, events) && i <= j < |trace| && s in trace[i].regs.sact && s !in trace[j].regs.sact
    ensures i <= k < j && s in trace[k].regs.sact && ClearsSact(trace[k], events[k], trace[k + 1], s)
  {
    k := j - 1;
    StepAccounts(trace, events, k, s);
    if s !in trace[k].regs.sact {
      k := WhyReleased(trace, events, i, k, s);
    }
  }

  lemma StepAccounts(trace: seq<View>, events: seq<Event>, k: nat, s: Slot)
    requires Traced(trace, events) && k + 1 < |trace|
    ensures Accounts(trace[k], events[k], trace[k + 1], s)
  {
    assert TraceStep(trace, events, k);
    assert Stepped(trace[k], events[k], trace[k + 1]);
    EventAccounts(trace[k], events[k], s);
  }

  /** In every run, a completion is reported as it went. */
  lemma RunReports(trace: seq<View>, events: seq<Event>, i: nat)
    requires Traced(trace, events) && i + 1 < |trace| && events[i].Completion? && Enabled(trace[i], events[i])
    ensures var v, w := trace[i], trace[i + 1];
      var q := v.pool.ioreq[v.pool.busy[events[i].k]];
      && (if q.slot in w.regs.pending then w.regs == v.regs
          else Reports(v, q.slot, q.table.cfis[2] in QUEUED_CODES, events[i].err, w))
      && (events[i].err || !q.more ==> q.slot !in w.regs.pending)
  {
    assert TraceStep(trace, events, i);
    assert Stepped(trace[i], events[i], trace[i + 1]);
    CompletionReports(trace[i], events[i].k, events[i].err);
  }
}
