// Histories of an AHCI port: every state of a run, and the requests that a command is made of.
module AhciHistory {
  import opened AhciCommands
  import opened AhciScatter
  import opened AhciState
  import opened Octets
  import opened Options
  import opened Queues

  // ---- runs ----

  // One event in a run that goes on.
  ghost predicate Stepped(v: View, e: Event, w: View) {
    ValidView(v) && !Halts(v, e) && w == After(v, e)
  }

  // Event i of a run.  The quantifier keeps its effect out of proofs that only hand it on.
  ghost predicate TraceStep(trace: seq<View>, events: seq<Event>, i: nat)
    requires i + 1 < |trace| && i < |events|
  {
    forall w :: w == trace[i + 1] ==> Stepped(trace[i], events[i], w)
  }

  // The states of a run, each from the one before by its event.
  ghost predicate Traced(trace: seq<View>, events: seq<Event>) {
    && 0 < |trace| <= |events| + 1 && ValidView(trace[0])
    && forall i :: 0 <= i < |trace| - 1 ==> TraceStep(trace, events, i)
  }

  lemma TracedOneMore(trace: seq<View>, events: seq<Event>, w: View)
    requires Traced(trace, events) && |trace| <= |events| && Stepped(trace[|trace| - 1], events[|trace| - 1], w)
    ensures Traced(trace + [w], events)
  {
    var longer := trace + [w];
    forall i | 0 <= i < |longer| - 1 ensures TraceStep(longer, events, i) {
      assert longer[i] == trace[i];
      if i < |trace| - 1 {
        assert longer[i + 1] == trace[i + 1] && TraceStep(trace, events, i);
      }
    }
  }

  // What one event of a run does to the next state.
  lemma StepMeans(trace: seq<View>, events: seq<Event>, i: nat)
    requires i + 1 < |trace| && i < |events| && TraceStep(trace, events, i)
    ensures ValidView(trace[i]) && ValidView(trace[i + 1])
    ensures Disciplined(trace[i]) && !Overrides(events[i]) ==> Disciplined(trace[i + 1])
    ensures Stable(trace[i]) && !events[i].Rewrite? ==> Stable(trace[i + 1])
  {
    var v, e := trace[i], events[i];
    assert Stepped(v, e, trace[i + 1]);
    EventKeepsValid(v, e);
    if Disciplined(v) && !Overrides(e) {
      EventKeepsDiscipline(v, e);
    }
    if Stable(v) && !e.Rewrite? {
      EventKeepsStable(v, e);
    }
  }

  /** Every state of a run is valid: pool partitioned, 'pending' exact, nothing issuable waiting outside the loop. */
  lemma TracedValid(trace: seq<View>, events: seq<Event>, i: nat)
    requires Traced(trace, events) && i < |trace|
    ensures ValidView(trace[i])
  {
    if i > 0 {
      StepMeans(trace, events, i - 1);
    }
  }

  // Up to event i there was no override.
  ghost predicate NoOverride(events: seq<Event>, i: nat)
    requires i <= |events|
  {
    forall j :: 0 <= j < i ==> !Overrides(events[j])
  }

  /** Until the first override, at most one command in flight is not queued, and it keeps the device busy. */
  lemma {:induction false} TracedDisciplined(trace: seq<View>, events: seq<Event>, i: nat)
    requires Traced(trace, events) && i < |trace| && Disciplined(trace[0]) && NoOverride(events, i)
    ensures Disciplined(trace[i])
  {
    if i > 0 {
      TracedDisciplined(trace, events, i - 1);
      StepMeans(trace, events, i - 1);
    }
  }

  // Up to event i no table in flight was changed.
  ghost predicate NoRewrite(events: seq<Event>, i: nat)
    requires i <= |events|
  {
    forall j :: 0 <= j < i ==> !events[j].Rewrite?
  }

  lemma {:induction false} TracedStable(trace: seq<View>, events: seq<Event>, i: nat)
    requires Traced(trace, events) && i < |trace| && Stable(trace[0]) && NoRewrite(events, i)
    ensures Stable(trace[i])
  {
    if i > 0 {
      TracedStable(trace, events, i - 1);
      StepMeans(trace, events, i - 1);
    }
  }

  /** Until a table in flight is changed, every read of a trim list stays inside its buffer. */
  lemma NoStrayRead(trace: seq<View>, events: seq<Event>, i: nat, r: nat)
    requires Traced(trace, events) && i < |trace| && Stable(trace[0]) && NoRewrite(events, i)
    requires r in trace[i].pool.busy && r < |trace[i].pool.ioreq|
    ensures var q := trace[i].pool.ioreq[r];
      q.more && Dsm(q.table) ==> !ScanFrom(q.table.buffer, q.done, TrimLen(q.table)).Strays?
  {
    TracedStable(trace, events, i);
    var q := trace[i].pool.ioreq[r];
    if q.more && Dsm(q.table) {
      StableStaysInside(q);
    }
  }

  // ---- the requests of a command ----

  // The first request of a command, if it has any.
  function FirstReq(slot: Slot, t: Table, sectsz: Positive): Option<Ioreq> {
    match Dispatch(t)
    case Rw(_) => Just(RwReq(slot, t, 0, sectsz))
    case Flush => Just(FlushReq(slot, t))
    case Trim(_) =>
      (match ScanFrom(t.buffer, 0, TrimLen(t))
       case Found(next) => Just(TrimReq(slot, t, next, sectsz))
       case _ => Nothing)
    case Immediate(_) => Nothing
  }

  // The request that follows q, under the table that q has when it completes.
  function NextReq(q: Ioreq, sectsz: Positive): Option<Ioreq> {
    if !q.more then Nothing
    else if !Dsm(q.table) then Just(RwReq(q.slot, q.table, q.done, sectsz))
    else
      match ScanFrom(q.table.buffer, q.done, TrimLen(q.table))
      case Found(next) => Just(TrimReq(q.slot, q.table, next, sectsz))
      case _ => Nothing
  }

  // The request that an event starts.
  function Launch(v: View, e: Event): Option<Ioreq> {
    if !Enabled(v, e) then Nothing
    else if e.LoopTurn? then
      var t := v.tables[v.ctl.ccs];
      if !Quiet(v) && v.ctl.ccs in Todo(v) && HostToDevice(t) && Command(t) then FirstReq(v.ctl.ccs, t, v.sectsz)
      else Nothing
    else if e.Completion? && !e.err then NextReq(v.pool.ioreq[v.pool.busy[e.k]], v.sectsz)
    else Nothing
  }

  predicate SameButTable(q: Ioreq, p: Ioreq) {
    q == p.(table := q.table)
  }

  // The requests in flight after an event: the one it starts, and others that were in flight before.
  ghost predicate Accounted(v: View, started: Option<Ioreq>, w: View) {
    forall r :: r in w.pool.busy && r < |w.pool.ioreq| ==>
      if started.Just? && w.pool.ioreq[r].slot == started.value.slot then w.pool.ioreq[r] == started.value
      else r in v.pool.busy && r < |v.pool.ioreq| && SameButTable(w.pool.ioreq[r], v.pool.ioreq[r])
  }

  lemma PullAccounted(v: View, pending: set<Slot>, q: Ioreq, accept: bool)
    requires Sound(v.pool, pending) && q.slot !in pending && Sane(q)
    ensures Accounted(v, Just(q), Launched(v, q, accept))
  {
    PullKeepsSound(v.pool, pending, q);
    var w := Launched(v, q, accept);
    forall r | r in w.pool.busy ensures if w.pool.ioreq[r].slot == q.slot then w.pool.ioreq[r] == q
                                        else r in v.pool.busy && w.pool.ioreq[r] == v.pool.ioreq[r] {
      if r != v.pool.free[0] {
        assert r in v.pool.busy && v.pool.ioreq[r].slot in SlotsOf(v.pool.busy, v.pool.ioreq);
      }
    }
  }

  lemma TurnAccounted(v: View)
    requires ValidView(v) && v.ctl.looping && !TurnFails(v)
    ensures Accounted(v, Launch(v, LoopTurn), Turned(v))
  {
    var slot := v.ctl.ccs;
    var t, q, u := v.tables[slot], Launch(v, LoopTurn), v.(regs := Busied(v.regs));
    if q.Just? {
      assert Sane(q.value) by {
        if Dispatch(t).Rw? {
          RwIsSane(slot, t, 0, v.sectsz);
        }
      }
      PullAccounted(u, v.regs.pending, q.value, Queued(t));
      assert Handled(v, slot).pool == Launched(u, q.value, Queued(t)).pool;
    } else {
      assert Turned(v).pool == v.pool;
    }
  }

  lemma CompletionAccounted(v: View, k: nat, err: bool)
    requires ValidView(v) && Enabled(v, Completion(k, err)) && !Halts(v, Completion(k, err))
    ensures Accounted(v, Launch(v, Completion(k, err)), Completed(v, v.pool.busy[k], err))
  {
    var r := v.pool.busy[k];
    assert r in v.pool.busy;
    var q, u := v.pool.ioreq[r], v.(pool := Returned(v.pool, r));
    var started := Launch(v, Completion(k, err));
    ReturnKeepsSound(v.pool, v.regs.pending, r);
    if started.Just? {
      assert Sane(started.value) by {
        if !Dsm(q.table) {
          RwIsSane(q.slot, q.table, q.done, v.sectsz);
        }
      }
      PullAccounted(u, v.regs.pending - {q.slot}, started.value, false);
    } else {
      assert Completed(v, r, err).pool == Returned(v.pool, r);
    }
  }

  lemma {:induction false} CancelAccounted(v: View, rest: seq<nat>, cancelled: set<nat>)
    requires forall r :: r in rest ==> r < |v.pool.ioreq|
    ensures var w := CancelledFrom(v, rest, cancelled);
      w.pool.ioreq == v.pool.ioreq && forall r :: r in w.pool.busy ==> r in v.pool.busy
    decreases |rest|
  {
    if rest != [] {
      assert rest[0] in rest && forall r :: r in rest[1..] ==> r in rest;
      CancelAccounted(if rest[0] in cancelled then Cancelled(v, rest[0]) else v, rest[1..], cancelled);
    }
  }

  // The request an event starts is in flight afterwards.
  lemma LaunchShows(v: View, e: Event)
    requires ValidView(v) && !Halts(v, e) && Launch(v, e).Just?
    ensures var p := After(v, e).pool; p.busy != [] && p.busy[0] < |p.ioreq| && p.ioreq[p.busy[0]] == Launch(v, e).value
  {
    if e.Completion? {
      assert v.pool.busy[e.k] in v.pool.busy;
      NextFindsRequest(v, v.pool.busy[e.k]);
      PullShows(Returned(v.pool, v.pool.busy[e.k]), Launch(v, e).value);
    } else {
      IssueFindsRequest(v, v.ctl.ccs);
      PullShows(v.pool, Launch(v, e).value);
    }
  }

  lemma PullShows(p: Pool, q: Ioreq)
    requires p.free != [] && p.free[0] < |p.ioreq|
    ensures var w := Pulled(p, q); w.busy != [] && w.busy[0] < |w.ioreq| && w.ioreq[w.busy[0]] == q
  {}

  lemma StepAccounted(v: View, e: Event)
    requires ValidView(v) && !Halts(v, e)
    ensures Accounted(v, Launch(v, e), After(v, e))
  {
    if Enabled(v, e) {
      match e
      case PxCmd(start, receive, mapped, clo, cancelled) =>
        var u := Switched(v, start, receive);
        CancelAccounted(u, u.pool.busy, cancelled);
      case Completion(k, err) => CompletionAccounted(v, k, err);
      case LoopTurn => TurnAccounted(v);
      case _ =>
    }
  }

  /** The requests started for a slot since its last command began, as they were when they started. */
  function Passes(trace: seq<View>, events: seq<Event>, n: nat, slot: Slot): seq<Ioreq>
    requires n < |trace| <= |events| + 1
  {
    if n == 0 then []
    else
      var before, q := Passes(trace, events, n - 1, slot), Launch(trace[n - 1], events[n - 1]);
      if q.Nothing? || q.value.slot != slot then before
      else if events[n - 1].LoopTurn? then [q.value]
      else before + [q.value]
  }

  // Request q follows p, whose table had become that of q, and its pass was possible.
  predicate Follows(p: Ioreq, q: Ioreq, sectsz: Positive) {
    var late := p.(table := q.table);
    NextReq(late, sectsz) == Just(q) && !Breaks(late, false, sectsz)
  }

  // A command's requests, each from the one before.
  ghost predicate Linked(ps: seq<Ioreq>, sectsz: Positive) {
    && ps != [] && FirstReq(ps[0].slot, ps[0].table, sectsz) == Just(ps[0])
    && (Dispatch(ps[0].table).Rw? ==> RwOk(ps[0].table, 0, sectsz))
    && forall k, l :: 0 <= k && l == k + 1 && l < |ps| ==> Follows(ps[k], ps[l], sectsz)
  }

  // How a request was started: as the first of a command, or after the one that completed.
  ghost predicate Began(v: View, e: Event, q: Ioreq) {
    if e.LoopTurn? then
      FirstReq(q.slot, q.table, v.sectsz) == Just(q) && (Dispatch(q.table).Rw? ==> RwOk(q.table, 0, v.sectsz))
    else
      && e.Completion? && e.k < |v.pool.busy| && v.pool.busy[e.k] in v.pool.busy && v.pool.busy[e.k] < |v.pool.ioreq|
      && var p := v.pool.ioreq[v.pool.busy[e.k]];
         NextReq(p, v.sectsz) == Just(q) && !Breaks(p, false, v.sectsz) && q.slot == p.slot && q.table == p.table
  }

  lemma LaunchMeans(v: View, e: Event)
    requires ValidView(v) && !Halts(v, e) && Launch(v, e).Just?
    ensures Began(v, e, Launch(v, e).value)
  {
    if e.Completion? {
      assert v.pool.busy[e.k] in v.pool.busy;
    }
  }

  lemma LinkedOneMore(ps: seq<Ioreq>, q: Ioreq, sectsz: Positive)
    requires Linked(ps, sectsz) && Follows(ps[|ps| - 1], q, sectsz)
    ensures Linked(ps + [q], sectsz)
  {}

  lemma SectorSizeStays(v: View, e: Event)
    requires ValidView(v)
    ensures After(v, e).sectsz == v.sectsz
  {}

  // The requests of the command that request r serves, at moment n.
  ghost predicate RecordedAt(trace: seq<View>, events: seq<Event>, n: nat, r: nat)
    requires n < |trace| <= |events| + 1
  {
    && r < |trace[n].pool.ioreq|
    && var q := trace[n].pool.ioreq[r];
       var ps := Passes(trace, events, n, q.slot);
       Linked(ps, trace[n].sectsz) && SameButTable(q, ps[|ps| - 1])
  }

  // What one event does to the requests in flight and to the record of one slot.
  lemma StepRecord(trace: seq<View>, events: seq<Event>, n: nat)
    requires n + 1 < |trace| <= |events| + 1 && TraceStep(trace, events, n)
    ensures trace[n + 1].sectsz == trace[n].sectsz
    ensures Accounted(trace[n], Launch(trace[n], events[n]), trace[n + 1])
    ensures Launch(trace[n], events[n]).Just? ==> Began(trace[n], events[n], Launch(trace[n], events[n]).value)
  {
    var v, e := trace[n], events[n];
    assert Stepped(v, e, trace[n + 1]);
    StepAccounted(v, e);
    SectorSizeStays(v, e);
    if Launch(v, e).Just? {
      LaunchMeans(v, e);
    }
  }

  // A request that was started for a slot is the next of its record.
  lemma StartedRecord(trace: seq<View>, events: seq<Event>, n: nat, r: nat)
    requires n + 1 < |trace| <= |events| + 1 && TraceStep(trace, events, n)
    requires AllRecorded(trace, events, n)
    requires r < |trace[n + 1].pool.ioreq| && Launch(trace[n], events[n]) == Just(trace[n + 1].pool.ioreq[r])
    ensures RecordedAt(trace, events, n + 1, r)
  {
    StepRecord(trace, events, n);
    var v, e, q := trace[n], events[n], trace[n + 1].pool.ioreq[r];
    if !e.LoopTurn? {
      var r0 := v.pool.busy[e.k];
      assert RecordedAt(trace, events, n, r0);
      LinkedOneMore(Passes(trace, events, n, q.slot), q, v.sectsz);
    }
  }

  lemma RecordedStep(trace: seq<View>, events: seq<Event>, n: nat, r: nat)
    requires n + 1 < |trace| <= |events| + 1 && TraceStep(trace, events, n)
    requires AllRecorded(trace, events, n)
    requires r in trace[n + 1].pool.busy && r < |trace[n + 1].pool.ioreq|
    ensures RecordedAt(trace, events, n + 1, r)
  {
    StepRecord(trace, events, n);
    var q, started := trace[n + 1].pool.ioreq[r], Launch(trace[n], events[n]);
    if started.Just? && q.slot == started.value.slot {
      StartedRecord(trace, events, n, r);
    } else {
      assert RecordedAt(trace, events, n, r);
    }
  }

  ghost predicate AllRecorded(trace: seq<View>, events: seq<Event>, n: nat)
    requires n < |trace| <= |events| + 1
  {
    forall r :: r in trace[n].pool.busy ==> RecordedAt(trace, events, n, r)
  }

  lemma BusyInside(trace: seq<View>, events: seq<Event>, n: nat, r: nat)
    requires n + 1 < |trace| && n < |events| && TraceStep(trace, events, n) && r in trace[n + 1].pool.busy
    ensures r < |trace[n + 1].pool.ioreq|
  {
    StepMeans(trace, events, n);
  }

  lemma AllRecordedStep(trace: seq<View>, events: seq<Event>, n: nat)
    requires n + 1 < |trace| <= |events| + 1 && TraceStep(trace, events, n) && AllRecorded(trace, events, n)
    ensures AllRecorded(trace, events, n + 1)
  {
    var next := n + 1;
    forall r | r in trace[next].pool.busy ensures RecordedAt(trace, events, next, r) {
      BusyInside(trace, events, n, r);
      RecordedStep(trace, events, n, r);
    }
  }

  /** In every state of a run that starts idle, the requests in flight are the last of their commands. */
  lemma {:induction false} TracedRecorded(trace: seq<View>, events: seq<Event>, n: nat)
    requires Traced(trace, events) && n < |trace| && trace[0].pool.busy == []
    ensures AllRecorded(trace, events, n)
  {
    if n > 0 {
      TracedRecorded(trace, events, n - 1);
      AllRecordedStep(trace, events, n - 1);
    }
  }

  // ---- what the requests of a command move ----

  function Breqs(ps: seq<Ioreq>): (b: seq<BlockReq>)
    ensures |b| == |ps|
  {
    if ps == [] then [] else Breqs(ps[..|ps| - 1]) + [ps[|ps| - 1].breq]
  }

  // All requests were started under the same table.
  ghost predicate Under(ps: seq<Ioreq>, t: Table) {
    forall k :: 0 <= k < |ps| ==> ps[k].table == t
  }

  lemma LinkedPrefix(ps: seq<Ioreq>, t: Table, sectsz: Positive)
    requires Linked(ps, sectsz) && Under(ps, t) && 1 < |ps|
    ensures var front, n := ps[..|ps| - 1], |ps| - 1;
      Linked(front, sectsz) && Under(front, t) && front[n - 1] == ps[n - 1] && Follows(ps[n - 1], ps[n], sectsz)
  {}

  // The requests of a read or write are the passes over its PRDT.
  lemma {:induction false} RwPasses(ps: seq<Ioreq>, t: Table, sectsz: Positive)
    requires Linked(ps, sectsz) && Under(ps, t) && Dispatch(t).Rw?
    ensures var n, len := |ps|, Len(t, sectsz);
      && Underway(Breqs(ps), ps[n - 1].done, t.prdt, DiskOffset(t, sectsz), len, sectsz)
      && ps[n - 1].more == GoesOn(t.prdt, len, sectsz, n)
  {
    var n, len, lba := |ps|, Len(t, sectsz), DiskOffset(t, sectsz);
    var front := ps[..n - 1];
    var done := if n == 1 then 0 else ps[n - 2].done;
    if n > 1 {
      LinkedPrefix(ps, t, sectsz);
      RwPasses(front, t, sectsz);
    } else {
      assert front == [] && Breqs(front) == [];
    }
    assert ps[n - 1] == RwReq(ps[n - 1].slot, t, done, sectsz) && RwOk(t, done, sectsz);
    UnderwayOneMore(Breqs(front), done, t.prdt, lba, len, sectsz);
  }

  // All requests ask the backend for the same operation.
  ghost predicate AllAsk(ps: seq<Ioreq>, op: BlockOp) {
    forall k :: 0 <= k < |ps| ==> ps[k].op == op
  }

  lemma {:induction false} RwAsks(ps: seq<Ioreq>, t: Table, sectsz: Positive)
    requires Linked(ps, sectsz) && Under(ps, t) && Dispatch(t).Rw?
    ensures AllAsk(ps, if Writes(t) then WriteBlocks else ReadBlocks)
  {
    if |ps| > 1 {
      LinkedPrefix(ps, t, sectsz);
      RwAsks(ps[..|ps| - 1], t, sectsz);
    }
  }

  // What the requests of a read or write move and ask for.
  ghost predicate RwMoves(ps: seq<Ioreq>, t: Table, lba: nat, count: nat, sectsz: Positive) {
    && ps != [] && ps[0].breq.offset == lba * sectsz
    && AllAsk(ps, if t.cfis[2] in ALL_WRITES then WriteBlocks else ReadBlocks)
    && var q := ps[|ps| - 1];
       && Covered(Breqs(ps), t.prdt, lba * sectsz, q.done)
       && (!q.more ==> (q.done == count * sectsz <==> count * sectsz <= Total(t.prdt, |t.prdt|)))
  }

  lemma RwCovers(ps: seq<Ioreq>, t: Table, lba: nat, count: nat, sectsz: Positive)
    requires Linked(ps, sectsz) && Under(ps, t) && t.cfis[2] in ALL_READS + ALL_WRITES && Names(t.cfis, lba, count)
    ensures RwMoves(ps, t, lba, count, sectsz)
  {
    CommandMeans(t);
    NamesMeans(t, lba, count);
    RwAsks(ps, t, sectsz);
    RwPasses(ps, t, sectsz);
    ChainCovers(t.prdt, DiskOffset(t, sectsz), Len(t, sectsz), sectsz, |ps|);
    if !ps[|ps| - 1].more {
      ChainReaches(t.prdt, Len(t, sectsz), sectsz, |ps|);
    }
  }

  /**
   * In every state of a run that starts idle, and for every read or write whose requests were all started under one
   * table, which names 'count' sectors from sector 'lba' on: the requests started so far hand the backend exactly the
   * bytes of its PRDT, and those of the disk from that sector on, up to the end of the last one, once and in order,
   * whatever other commands ran in between.  All of them read, or all of them write, as the command says.  When the
   * last pass is in flight they cover the whole transfer exactly when the PRDT has room for it.
   */
  lemma CommandCovers(trace: seq<View>, events: seq<Event>, n: nat, r: nat, t: Table, lba: nat, count: nat)
    requires Traced(trace, events) && n < |trace| && trace[0].pool.busy == []
    requires r in trace[n].pool.busy && r < |trace[n].pool.ioreq|
    requires t.cfis[2] in ALL_READS + ALL_WRITES && Names(t.cfis, lba, count)
    requires Under(Passes(trace, events, n, trace[n].pool.ioreq[r].slot), t)
    ensures var q := trace[n].pool.ioreq[r];
      var ps := Passes(trace, events, n, q.slot);
      RwMoves(ps, t, lba, count, trace[n].sectsz) && SameButTable(q, ps[|ps| - 1])
  {
    TracedRecorded(trace, events, n);
    assert RecordedAt(trace, events, n, r);
    RwCovers(Passes(trace, events, n, trace[n].pool.ioreq[r].slot), t, lba, count, trace[n].sectsz);
  }

  // The requests for the non-empty entries among the first n of a list.
  function EntriesTo(b: seq<Byte>, n: nat, sectsz: nat): seq<BlockReq>
    requires 8 * n <= |b|
  {
    if n == 0 then []
    else
      EntriesTo(b, n - 1, sectsz)
      + if EntryLen(b, 8 * (n - 1)) != 0 then [EntryReq(b, 8 * (n - 1), sectsz)] else []
  }

  lemma {:induction false} EmptyEntries(b: seq<Byte>, k: nat, m: nat, sectsz: nat)
    requires k <= m && 8 * m <= |b| && forall e: nat :: k <= e < m ==> EntryLen(b, 8 * e) == 0
    ensures EntriesTo(b, m, sectsz) == EntriesTo(b, k, sectsz)
    decreases m
  {
    if k < m {
      EmptyEntries(b, k, m - 1, sectsz);
    }
  }

  lemma NextEntry(b: seq<Byte>, k: nat, next: nat, sectsz: nat) returns (n: nat)
    requires |b| == TRIM_BYTES && k < 64 && ScanFrom(b, 8 * k, TRIM_BYTES) == Found(next)
    ensures n <= 64 && next == 8 * n
    ensures EntriesTo(b, n, sectsz) == EntriesTo(b, k, sectsz) + [EntryReq(b, next - 8, sectsz)]
  {
    var m := ScanMeans(b, k);
    n := m + 1;
    EmptyEntries(b, k, m, sectsz);
  }

  // The requests of a trim command are the non-empty entries of its list.
  lemma {:induction false} TrimPasses(ps: seq<Ioreq>, t: Table, sectsz: Positive) returns (n: nat)
    requires Linked(ps, sectsz) && Under(ps, t) && Dispatch(t).Trim?
    ensures var q := ps[|ps| - 1]; n <= 64 && q.done == 8 * n && (q.more <==> n != 64)
    ensures Breqs(ps) == EntriesTo(t.buffer, n, sectsz)
  {
    var last := |ps| - 1;
    var front := ps[..last];
    var q, k := ps[last], 0;
    if last > 0 {
      LinkedPrefix(ps, t, sectsz);
      k := TrimPasses(front, t, sectsz);
    } else {
      assert front == [] && Breqs(front) == [] == EntriesTo(t.buffer, 0, sectsz);
    }
    TrimStep(if last == 0 then q else ps[last - 1], q, last == 0, t, k, sectsz);
    n := NextEntry(t.buffer, k, q.done, sectsz);
  }

  // The first request of a trim command, or the one behind entry k.
  lemma TrimStep(p: Ioreq, q: Ioreq, first: bool, t: Table, k: nat, sectsz: Positive)
    requires Dispatch(t).Trim? && q.table == t && k <= 64
    requires if first then k == 0 && FirstReq(q.slot, t, sectsz) == Just(q)
             else p.table == t && p.done == 8 * k && (p.more <==> k != 64) && Follows(p, q, sectsz)
    ensures k < 64 && ScanFrom(t.buffer, 8 * k, TRIM_BYTES) == Found(q.done)
    ensures 8 <= q.done <= TRIM_BYTES && q == TrimReq(q.slot, t, q.done, sectsz)
  {}

  // The buffer is a list of 64 stretches of the disk.
  ghost predicate IsList(b: seq<Byte>, list: seq<Extent>) {
    |b| == TRIM_BYTES && |list| == 64 && forall e: nat :: e < 64 ==> NamesExtent(b, 8 * e, list[e])
  }

  // What the backend is to be asked for a list of stretches: those that are not empty, in order.
  function Stretches(list: seq<Extent>, sectsz: nat): seq<BlockReq> {
    if list == [] then []
    else
      var x := list[|list| - 1];
      Stretches(list[..|list| - 1], sectsz)
      + if x.count > 0 then [BlockReq(x.lba * sectsz, x.count * sectsz, [])] else []
  }

  lemma {:induction false} EntriesAreStretches(b: seq<Byte>, list: seq<Extent>, n: nat, sectsz: nat)
    requires IsList(b, list) && n <= 64
    ensures EntriesTo(b, n, sectsz) == Stretches(list[..n], sectsz)
  {
    if n > 0 {
      EntriesAreStretches(b, list, n - 1, sectsz);
      ExtentMeans(b, 8 * (n - 1), list[n - 1]);
      assert list[..n][..n - 1] == list[..n - 1];
    }
  }

  lemma {:induction false} TrimAsks(ps: seq<Ioreq>, t: Table, sectsz: Positive)
    requires Linked(ps, sectsz) && Under(ps, t) && Dispatch(t).Trim?
    ensures AllAsk(ps, DeleteBlocks)
  {
    if |ps| > 1 {
      LinkedPrefix(ps, t, sectsz);
      TrimAsks(ps[..|ps| - 1], t, sectsz);
    }
  }

  /**
   * The same for a trim command: its requests delete the stretches of its list that are not empty, in order, up to the
   * one in flight.
   */
  lemma TrimCovers(trace: seq<View>, events: seq<Event>, n: nat, r: nat, t: Table, list: seq<Extent>) returns (k: nat)
    requires Traced(trace, events) && n < |trace| && trace[0].pool.busy == []
    requires r in trace[n].pool.busy && r < |trace[n].pool.ioreq| && Dispatch(t).Trim? && IsList(t.buffer, list)
    requires Under(Passes(trace, events, n, trace[n].pool.ioreq[r].slot), t)
    ensures var q := trace[n].pool.ioreq[r];
      var ps := Passes(trace, events, n, q.slot);
      && k <= 64 && q.done == 8 * k && (q.more <==> k != 64) && ps != [] && q.breq == ps[|ps| - 1].breq
      && AllAsk(ps, DeleteBlocks) && Breqs(ps) == Stretches(list[..k], trace[n].sectsz)
  {
    var q, sectsz := trace[n].pool.ioreq[r], trace[n].sectsz;
    var ps := Passes(trace, events, n, q.slot);
    TracedRecorded(trace, events, n);
    assert RecordedAt(trace, events, n, r);
    TrimAsks(ps, t, sectsz);
    k := TrimPasses(ps, t, sectsz);
    EntriesAreStretches(t.buffer, list, k, sectsz);
  }
}
