// An AHCI disk port at one moment, what every event does to it, and what stays true.
// Registers of one bit per slot are sets of slots.
module AhciState {
  import opened AhciCommands
  import opened Queues

  datatype Control = Control(st: bool, fre: bool, fr: bool, cr: bool, rfis: bool, reset: bool, looping: bool, ccs: Slot)
  datatype Regs = Regs(ci: set<Slot>, sact: set<Slot>, pending: set<Slot>, tfd: TaskFile, waitforclear: bool)
  datatype Pool = Pool(ioreq: seq<Ioreq>, free: seq<nat>, busy: seq<nat>)

  // The command tables of all slots.
  type Tables = s: seq<Table> | |s| == SLOTS
    witness seq(SLOTS, _ => Table(seq(20, _ => 0), [], seq(TRIM_BYTES, _ => 0)))

  datatype View = View(ctl: Control, regs: Regs, pool: Pool, tables: Tables, sectsz: Positive)

  // ---- the request pool ----

  ghost predicate Within(q: seq<nat>, n: nat) {
    forall r :: r in q ==> r < n
  }

  ghost function SlotsOf(q: seq<nat>, ioreq: seq<Ioreq>): set<Slot>
    requires Within(q, |ioreq|)
  {
    set r | r in q :: ioreq[r].slot
  }

  ghost predicate OwnSlots(q: seq<nat>, ioreq: seq<Ioreq>)
    requires Within(q, |ioreq|)
  {
    forall r, t :: r in q && t in q && r != t ==> ioreq[r].slot != ioreq[t].slot
  }

  // Requests that own distinct slots are as many as their slots.
  lemma {:induction false} DistinctCount(q: seq<nat>, ioreq: seq<Ioreq>)
    requires NoDup(q) && Within(q, |ioreq|) && OwnSlots(q, ioreq)
    ensures |SlotsOf(q, ioreq)| == |q|
  {
    if q != [] {
      var h, rest := q[0], q[1..];
      assert forall r :: r in q <==> r == h || r in rest;
      DistinctCount(rest, ioreq);
      assert SlotsOf(q, ioreq) == SlotsOf(rest, ioreq) + {ioreq[h].slot};
      assert ioreq[h].slot !in SlotsOf(rest, ioreq);
    }
  }

  // Free and busy lists partition the pool, busy requests own distinct slots, and 'pending' is exactly their slots.
  ghost predicate PoolOk(p: Pool, pending: set<Slot>) {
    && Within(p.free, |p.ioreq|) && Within(p.busy, |p.ioreq|)
    && NoDup(p.free) && NoDup(p.busy)
    && (forall r :: r in p.free ==> r !in p.busy)
    && (forall r: nat :: r < |p.ioreq| ==> r in p.free || r in p.busy)
    && |p.free| + |p.busy| == |p.ioreq|
    && OwnSlots(p.busy, p.ioreq) && pending == SlotsOf(p.busy, p.ioreq)
  }

  lemma {:induction false} BoundedCount(a: set<nat>, n: nat)
    requires forall s :: s in a ==> s < n
    ensures |a| <= n
  {
    if n == 0 {
      assert a == {};
    } else {
      var b := a - {n - 1};
      BoundedCount(b, n - 1);
      if n - 1 in a {
        assert a == b + {n - 1};
      } else {
        assert a == b;
      }
    }
  }

  /** A slot that is not in flight finds a free request: the pool has at least as many as there are slots. */
  lemma FreeRequest(p: Pool, pending: set<Slot>, slot: Slot)
    requires PoolOk(p, pending) && SLOTS <= |p.ioreq| && slot !in pending
    ensures p.free != []
  {
    DistinctCount(p.busy, p.ioreq);
    BoundedCount(pending + {slot}, SLOTS);
  }

  // The first free request is filled in and queued as in flight.
  function Pulled(p: Pool, q: Ioreq): Pool {
    if p.free == [] || p.free[0] >= |p.ioreq| then p
    else Pool(p.ioreq[p.free[0] := q], p.free[1..], [p.free[0]] + p.busy)
  }

  // A request goes back to the free list.
  function Returned(p: Pool, r: nat): Pool {
    Pool(p.ioreq, p.free + [r], Without(p.busy, r))
  }

  lemma PullKeepsPool(p: Pool, pending: set<Slot>, q: Ioreq)
    requires PoolOk(p, pending) && p.free != [] && q.slot !in pending
    ensures p.free[0] in p.free && PoolOk(Pulled(p, q), pending + {q.slot})
  {
    var r, w := p.free[0], Pulled(p, q);
    assert r in p.free;
    assert w.busy[1..] == p.busy;
    assert forall x :: x in w.busy <==> x == r || x in p.busy;
    assert forall x :: x in p.free <==> x == r || x in p.free[1..];
    assert forall x :: x in p.busy ==> w.ioreq[x] == p.ioreq[x];
    assert SlotsOf(w.busy, w.ioreq) == pending + {q.slot};
  }

  lemma ReturnKeepsPool(p: Pool, pending: set<Slot>, r: nat)
    requires PoolOk(p, pending) && r in p.busy
    ensures p.ioreq[r].slot in pending && PoolOk(Returned(p, r), pending - {p.ioreq[r].slot})
  {
    var w := Returned(p, r);
    assert p.ioreq[r].slot in SlotsOf(p.busy, p.ioreq);
    NoDupAppend(p.free, r);
    assert SlotsOf(w.busy, w.ioreq) == pending - {p.ioreq[r].slot};
  }

  // ---- what the registers say ----

  // The slots still to be issued.
  function Todo(v: View): set<Slot> {
    v.regs.ci - v.regs.pending
  }

  predicate Stalled(v: View) {
    !Idle(v.regs.tfd) || v.regs.waitforclear
  }

  // No command waits that could be issued.
  predicate Quiet(v: View) {
    !v.ctl.st || Todo(v) == {} || Stalled(v)
  }

  // The guest gets to see FISes.
  predicate Heard(v: View) {
    v.ctl.rfis && v.ctl.fre
  }

  // ---- issuing ----

  // A request is in flight; a queued command is accepted at the same time.
  function InFlight(b: Regs, slot: Slot, accept: bool): Regs {
    if accept then b.(ci := b.ci - {slot}, pending := b.pending + {slot}, tfd := ATA_OK)
    else b.(pending := b.pending + {slot})
  }

  // A trim command without entries is over.
  function Trimmed(b: Regs, slot: Slot, queued: bool): Regs {
    b.(ci := b.ci - {slot}, sact := if queued then b.sact - {slot} else b.sact, tfd := ATA_OK)
  }

  // A command was answered at once.
  function Answered(b: Regs, slot: Slot, ok: bool, heard: bool): Regs {
    if ok then b.(ci := b.ci - {slot}, tfd := ATA_OK)
    else b.(tfd := ATA_ABORTED, waitforclear := b.waitforclear || heard)
  }

  function Busied(b: Regs): Regs {
    b.(tfd := b.tfd.(busy := true))
  }

  function Launched(v: View, q: Ioreq, accept: bool): View {
    v.(regs := InFlight(v.regs, q.slot, accept), pool := Pulled(v.pool, q))
  }

  // A busy device acts on a command: it ends at once or goes in flight.
  function Executed(v: View, slot: Slot, t: Table): View {
    match Dispatch(t)
    case Rw(queued) => Launched(v, RwReq(slot, t, 0, v.sectsz), queued)
    case Flush => Launched(v, FlushReq(slot, t), false)
    case Trim(queued) =>
      (match ScanFrom(t.buffer, 0, TrimLen(t))
       case Found(next) => Launched(v, TrimReq(slot, t, next, v.sectsz), queued)
       case _ => v.(regs := Trimmed(v.regs, slot, queued)))
    case Immediate(ok) => v.(regs := Answered(v.regs, slot, ok, Heard(v)))
  }

  // A control FIS: the software reset bit going high, then low.
  function Controlled(v: View, slot: Slot, soft: bool): View {
    var done := v.regs.(ci := v.regs.ci - {slot});
    if soft then v.(ctl := v.ctl.(reset := true), regs := done)
    else if v.ctl.reset then v.(ctl := v.ctl.(reset := false), regs := done.(sact := {}, tfd := ATA_RESET))
    else v.(regs := done)
  }

  // One issued slot: a command, a control FIS, or a FIS of another type, which is ignored.
  function Handled(v: View, slot: Slot): View {
    var t := v.tables[slot];
    if !HostToDevice(t) then v
    else if Command(t) then Executed(v.(regs := Busied(v.regs)), slot, t)
    else Controlled(v, slot, t.cfis[15] / 4 % 2 == 1)
  }

  function Next(ccs: Slot): Slot {
    (ccs + 1) % SLOTS
  }

  function Advanced(v: View): View {
    v.(ctl := v.ctl.(ccs := Next(v.ctl.ccs)))
  }

  // One turn of the issue loop, or its end.
  function Turned(v: View): View {
    if Quiet(v) then v.(ctl := v.ctl.(looping := false))
    else if v.ctl.ccs in Todo(v) then Advanced(Handled(v, v.ctl.ccs))
    else Advanced(v)
  }

  // The first pass of the command fails its sector assertion.
  predicate Starves(t: Table, sectsz: Positive) {
    HostToDevice(t) && Command(t) && Dispatch(t).Rw? && !RwOk(t, 0, sectsz)
  }

  predicate TurnFails(v: View) {
    !Quiet(v) && v.ctl.ccs in Todo(v) && Starves(v.tables[v.ctl.ccs], v.sectsz)
  }

  // ---- completions ----

  // A stopped port with nothing in flight clears its list.
  function Checked(v: View): View {
    if !v.ctl.st && v.regs.pending == {}
    then v.(ctl := v.ctl.(cr := false, ccs := 0), regs := v.regs.(ci := {}, sact := {}, waitforclear := false))
    else v
  }

  // The FIS that ends a command that was in flight.
  function Reported(b: Regs, slot: Slot, queued: bool, err: bool, heard: bool): Regs {
    var status := if err then ATA_ABORTED else ATA_OK;
    var stop := b.waitforclear || (err && heard);
    if queued
    then b.(sact := if err then b.sact else b.sact - {slot}, waitforclear := stop,
            tfd := status.(busy := b.tfd.busy, drq := b.tfd.drq, error := b.tfd.error))
    else b.(ci := if err then b.ci else b.ci - {slot}, waitforclear := stop, tfd := status)
  }

  function Retired(b: Regs, slot: Slot): Regs {
    b.(pending := b.pending - {slot})
  }

  function Looping(v: View): View {
    v.(ctl := v.ctl.(looping := true))
  }

  // The command of a slot is over and the issue loop runs again.
  function Settled(v: View, slot: Slot, queued: bool, err: bool): View {
    Looping(Checked(v.(regs := Retired(Reported(v.regs, slot, queued, err, Heard(v)), slot))))
  }

  // The backend reports request r: the next pass of its command, or its end.
  function Completed(v: View, r: nat, err: bool): View
    requires r < |v.pool.ioreq|
  {
    var q, u := v.pool.ioreq[r], v.(pool := Returned(v.pool, r));
    if err || !q.more then Settled(u, q.slot, Queued(q.table), err)
    else if !Dsm(q.table) then Launched(u, RwReq(q.slot, q.table, q.done, v.sectsz), false)
    else
      match ScanFrom(q.table.buffer, q.done, TrimLen(q.table))
      case Found(next) => Launched(u, TrimReq(q.slot, q.table, next, v.sectsz), false)
      case _ => Settled(u, q.slot, Queued(q.table), false)
  }

  // The sector assertion of the next pass fails, or the search for the next trim entry leaves the buffer.
  predicate Breaks(q: Ioreq, err: bool, sectsz: Positive) {
    !err && q.more &&
    if Dsm(q.table) then ScanFrom(q.table.buffer, q.done, TrimLen(q.table)).Strays? else !RwOk(q.table, q.done, sectsz)
  }

  // ---- stopping ----

  // A command is withdrawn.
  function Withdrawn(b: Regs, slot: Slot, queued: bool): Regs {
    b.(sact := if queued then b.sact - {slot} else b.sact, ci := if queued then b.ci else b.ci - {slot},
       pending := b.pending - {slot})
  }

  function Cancelled(v: View, r: nat): View
    requires r < |v.pool.ioreq|
  {
    var q := v.pool.ioreq[r];
    v.(regs := Withdrawn(v.regs, q.slot, Queued(q.table)), pool := Returned(v.pool, r))
  }

  // The requests in 'rest' that the backend agrees to withdraw, one after the other.
  function CancelledFrom(v: View, rest: seq<nat>, cancelled: set<nat>): (w: View)
    requires forall r :: r in rest ==> r < |v.pool.ioreq|
    ensures w == v.(regs := w.regs, pool := w.pool) && w.pool.ioreq == v.pool.ioreq
    decreases |rest|
  {
    if rest == [] then v
    else
      assert rest[0] in rest && forall r :: r in rest[1..] ==> r in rest;
      CancelledFrom(if rest[0] in cancelled then Cancelled(v, rest[0]) else v, rest[1..], cancelled)
  }

  // PxCMD: the start and FIS receive bits.
  function Switched(v: View, start: bool, receive: bool): View {
    v.(ctl := v.ctl.(st := start, fre := receive))
  }

  // PxCMD: a running port, or a stopped one.
  function Commenced(v: View, start: bool, cancelled: set<nat>): View
    requires forall r :: r in v.pool.busy ==> r < |v.pool.ioreq|
  {
    if start then v.(ctl := v.ctl.(cr := true)) else Checked(CancelledFrom(v, v.pool.busy, cancelled))
  }

  // PxCMD: FIS reception; 'mapped' says whether the receive area lies in guest memory.
  function Receiving(v: View, receive: bool, mapped: bool): View {
    v.(ctl := v.ctl.(fr := receive, rfis := if receive then mapped else v.ctl.rfis))
  }

  // PxCMD: command list override.
  function Overridden(v: View, clo: bool): View {
    if clo then v.(regs := v.regs.(tfd := v.regs.tfd.(busy := false, drq := false))) else v
  }

  // A write of PxCMD; the issue loop follows.
  function Commanded(v: View, start: bool, receive: bool, mapped: bool, clo: bool, cancelled: set<nat>): View
    requires forall r :: r in v.pool.busy ==> r < |v.pool.ioreq|
  {
    var u := Commenced(Switched(v, start, receive), start, cancelled);
    Looping(Overridden(Receiving(u, receive, mapped), clo))
  }

  // ---- events ----

  /**
   * What can happen to a port: register writes, changes of guest memory, backend completions, and a turn of the issue
   * loop that some of these start.  Guest memory holds the tables that the next commands will be read from (Store)
   * and those of the commands in flight (Rewrite); a change of both is two events.
   */
  datatype Event =
    | PxCmd(start: bool, receive: bool, mapped: bool, clo: bool, cancelled: set<nat>)
    | PxCi(value: set<Slot>)
    | PxSact(value: set<Slot>)
    | PxSctl(det: bool)
    | GhcReset
    | Store(slot: Slot, table: Table)
    | Rewrite(index: nat, changed: Table)
    | Completion(k: nat, err: bool)
    | LoopTurn

  // The loop holds the lock, so no register write or completion happens while it runs.
  predicate Enabled(v: View, e: Event) {
    match e
    case LoopTurn => v.ctl.looping
    case Store(_, _) => true
    case Rewrite(k, _) => k < |v.pool.busy| && v.pool.busy[k] < |v.pool.ioreq|
    case Completion(k, _) => !v.ctl.looping && k < |v.pool.busy| && v.pool.busy[k] < |v.pool.ioreq|
    case _ => !v.ctl.looping
  }

  function Rewritten(p: Pool, r: nat, t: Table): Pool
    requires r < |p.ioreq|
  {
    p.(ioreq := p.ioreq[r := p.ioreq[r].(table := t)])
  }

  // What each event leaves; one that cannot happen now changes nothing.
  function After(v: View, e: Event): View
    requires forall r :: r in v.pool.busy ==> r < |v.pool.ioreq|
  {
    if !Enabled(v, e) then v
    else
      match e
      case PxCmd(start, receive, mapped, clo, cancelled) => Commanded(v, start, receive, mapped, clo, cancelled)
      case PxCi(value) => Looping(v.(regs := v.regs.(ci := v.regs.ci + value)))
      case PxSact(value) => v.(regs := v.regs.(sact := v.regs.sact + value))
      case PxSctl(det) => if det && !v.ctl.st then v.(regs := v.regs.(sact := {}, tfd := ATA_RESET)) else v
      case GhcReset =>
        v.(ctl := v.ctl.(st := false, fre := false, fr := false, cr := false),
           regs := v.regs.(sact := {}, tfd := ATA_RESET))
      case Store(slot, table) => v.(tables := v.tables[slot := table])
      case Rewrite(k, table) => v.(pool := Rewritten(v.pool, v.pool.busy[k], table))
      case Completion(k, err) => Completed(v, v.pool.busy[k], err)
      case LoopTurn => Turned(v)
  }

  // The program does not survive this event: an assertion fails, or a read leaves its buffer.
  predicate Halts(v: View, e: Event) {
    && Enabled(v, e)
    && match e
       case LoopTurn => TurnFails(v)
       case Completion(k, err) => Breaks(v.pool.ioreq[v.pool.busy[k]], err, v.sectsz)
       case _ => false
  }

  // ---- what holds in every state ----

  // A pass that is followed by another has done something.
  predicate Sane(q: Ioreq) {
    q.more ==> 0 < q.done
  }

  ghost predicate Sound(p: Pool, pending: set<Slot>) {
    SLOTS <= |p.ioreq| && PoolOk(p, pending) && forall r :: r in p.busy ==> Sane(p.ioreq[r])
  }

  /** The pool is partitioned, 'pending' is exact, and nothing that could be issued waits unless the loop runs. */
  ghost predicate ValidView(v: View) {
    Sound(v.pool, v.regs.pending) && (v.ctl.looping || Quiet(v))
  }

  lemma PullKeepsSound(p: Pool, pending: set<Slot>, q: Ioreq)
    requires Sound(p, pending) && q.slot !in pending && Sane(q)
    ensures Sound(Pulled(p, q), pending + {q.slot}) && p.free != [] && p.free[0] < |p.ioreq|
  {
    FreeRequest(p, pending, q.slot);
    PullKeepsPool(p, pending, q);
  }

  lemma ReturnKeepsSound(p: Pool, pending: set<Slot>, r: nat)
    requires Sound(p, pending) && r in p.busy
    ensures p.ioreq[r].slot in pending && Sound(Returned(p, r), pending - {p.ioreq[r].slot})
  {
    ReturnKeepsPool(p, pending, r);
  }

  /** The issue loop finds a free request for every slot it deals with. */
  lemma IssueFindsRequest(v: View, slot: Slot)
    requires ValidView(v) && slot in Todo(v)
    ensures v.pool.free != [] && v.pool.free[0] < |v.pool.ioreq|
  {
    FreeRequest(v.pool, v.regs.pending, slot);
    assert v.pool.free[0] in v.pool.free;
  }

  /** So does a completion for the next pass of its command. */
  lemma NextFindsRequest(v: View, r: nat)
    requires ValidView(v) && r in v.pool.busy
    ensures var p := Returned(v.pool, r); p.free != [] && p.free[0] < |p.ioreq|
  {
    var p, slot := Returned(v.pool, r), v.pool.ioreq[r].slot;
    ReturnKeepsSound(v.pool, v.regs.pending, r);
    FreeRequest(p, v.regs.pending - {slot}, slot);
    assert p.free[0] in p.free;
  }

  // Another request takes over the slot of one that came back.
  lemma RelayKeepsSound(p: Pool, pending: set<Slot>, r: nat, q: Ioreq)
    requires Sound(p, pending) && r in p.busy && q.slot == p.ioreq[r].slot && Sane(q)
    ensures Sound(Pulled(Returned(p, r), q), pending) && q.slot in pending && Returned(p, r).free[0] < |p.ioreq|
  {
    ReturnKeepsSound(p, pending, r);
    PullKeepsSound(Returned(p, r), pending - {q.slot}, q);
    assert pending - {q.slot} + {q.slot} == pending;
  }

  lemma RwIsSane(slot: Slot, t: Table, from: nat, sectsz: Positive)
    requires RwOk(t, from, sectsz)
    ensures Sane(RwReq(slot, t, from, sectsz))
  {
    if RwReq(slot, t, from, sectsz).more {
      MoreHasDone(slot, t, from, sectsz);
    }
  }

  lemma ExecuteKeepsSound(v: View, slot: Slot, t: Table)
    requires Sound(v.pool, v.regs.pending) && slot !in v.regs.pending
    requires Dispatch(t).Rw? ==> RwOk(t, 0, v.sectsz)
    ensures var w := Executed(v, slot, t); Sound(w.pool, w.regs.pending) && w.ctl == v.ctl
  {
    match Dispatch(t)
    case Rw(_) =>
      RwIsSane(slot, t, 0, v.sectsz);
      PullKeepsSound(v.pool, v.regs.pending, RwReq(slot, t, 0, v.sectsz));
    case Flush =>
      PullKeepsSound(v.pool, v.regs.pending, FlushReq(slot, t));
    case Trim(_) =>
      var r := ScanFrom(t.buffer, 0, TrimLen(t));
      if r.Found? {
        PullKeepsSound(v.pool, v.regs.pending, TrimReq(slot, t, r.next, v.sectsz));
      }
    case Immediate(_) =>
  }

  lemma HandleKeepsSound(v: View, slot: Slot)
    requires Sound(v.pool, v.regs.pending) && slot !in v.regs.pending && !Starves(v.tables[slot], v.sectsz)
    ensures Sound(Handled(v, slot).pool, Handled(v, slot).regs.pending) && Handled(v, slot).ctl.looping == v.ctl.looping
  {
    var t := v.tables[slot];
    if HostToDevice(t) && Command(t) {
      ExecuteKeepsSound(v.(regs := Busied(v.regs)), slot, t);
    }
  }

  lemma TurnKeepsValid(v: View)
    requires ValidView(v) && v.ctl.looping && !TurnFails(v)
    ensures ValidView(Turned(v))
  {
    if !Quiet(v) && v.ctl.ccs in Todo(v) {
      HandleKeepsSound(v, v.ctl.ccs);
    }
  }

  lemma CompletionKeepsValid(v: View, r: nat, err: bool)
    requires ValidView(v) && !v.ctl.looping && r in v.pool.busy && !Breaks(v.pool.ioreq[r], err, v.sectsz)
    ensures ValidView(Completed(v, r, err))
  {
    var q := v.pool.ioreq[r];
    ReturnKeepsSound(v.pool, v.regs.pending, r);
    assert Sane(q);
    if !err && q.more {
      if Dsm(q.table) {
        var s := ScanFrom(q.table.buffer, q.done, TrimLen(q.table));
        if s.Found? {
          RelayKeepsSound(v.pool, v.regs.pending, r, TrimReq(q.slot, q.table, s.next, v.sectsz));
        }
      } else {
        RwIsSane(q.slot, q.table, q.done, v.sectsz);
        RelayKeepsSound(v.pool, v.regs.pending, r, RwReq(q.slot, q.table, q.done, v.sectsz));
      }
    }
  }

  lemma {:induction false} CancelKeepsSound(v: View, rest: seq<nat>, cancelled: set<nat>)
    requires Sound(v.pool, v.regs.pending) && NoDup(rest) && forall r :: r in rest ==> r in v.pool.busy
    ensures var w := CancelledFrom(v, rest, cancelled); Sound(w.pool, w.regs.pending) && w.ctl == v.ctl
    decreases |rest|
  {
    if rest != [] {
      ReturnKeepsSound(v.pool, v.regs.pending, rest[0]);
      CancelKeepsSound(if rest[0] in cancelled then Cancelled(v, rest[0]) else v, rest[1..], cancelled);
    }
  }

  lemma CommandKeepsValid(v: View, start: bool, receive: bool, mapped: bool, clo: bool, cancelled: set<nat>)
    requires ValidView(v)
    ensures ValidView(Commanded(v, start, receive, mapped, clo, cancelled))
  {
    if !start {
      CancelKeepsSound(Switched(v, start, receive), v.pool.busy, cancelled);
    }
  }

  // Whose memory a table is in does not matter to the pool.
  lemma RewriteKeepsValid(v: View, k: nat, t: Table)
    requires ValidView(v) && k < |v.pool.busy|
    ensures v.pool.busy[k] in v.pool.busy && ValidView(v.(pool := Rewritten(v.pool, v.pool.busy[k], t)))
  {
    var p := v.pool;
    assert p.busy[k] in p.busy;
    var w := Rewritten(p, p.busy[k], t);
    assert forall r :: r in p.busy ==> w.ioreq[r].slot == p.ioreq[r].slot;
    assert SlotsOf(w.busy, w.ioreq) == SlotsOf(p.busy, p.ioreq);
  }

  /** Every event keeps a port valid, whatever the tables hold, whether or not the guest receives FISes. */
  lemma EventKeepsValid(v: View, e: Event)
    requires ValidView(v) && !Halts(v, e)
    ensures ValidView(After(v, e))
  {
    if Enabled(v, e) {
      match e
      case PxCmd(start, receive, mapped, clo, cancelled) =>
        CommandKeepsValid(v, start, receive, mapped, clo, cancelled);
      case Rewrite(k, t) =>
        RewriteKeepsValid(v, k, t);
      case Completion(k, err) =>
        assert v.pool.busy[k] in v.pool.busy;
        CompletionKeepsValid(v, v.pool.busy[k], err);
      case LoopTurn =>
        TurnKeepsValid(v);
      case _ =>
    }
  }

  // ---- one non-queued command at a time ----

  // Command list override and the two resets drop the busy bit under a running command, and a change of the table of
  // a command in flight can change its kind.
  predicate Overrides(e: Event) {
    match e
    case PxCmd(_, _, _, clo, _) => clo
    case PxSctl(det) => det
    case GhcReset => true
    case Rewrite(_, _) => true
    case _ => false
  }

  ghost predicate PlainInFlight(p: Pool, r: nat) {
    r in p.busy && r < |p.ioreq| && !Queued(p.ioreq[r].table)
  }

  /** A non-queued command in flight keeps the device busy and its issue bit set; there is at most one. */
  ghost predicate Disciplined(v: View) {
    && (forall r: nat :: PlainInFlight(v.pool, r) ==> v.regs.tfd.busy && v.pool.ioreq[r].slot in v.regs.ci)
    && (forall r: nat, t: nat :: PlainInFlight(v.pool, r) && PlainInFlight(v.pool, t) ==> r == t)
  }

  // Only queued commands are in flight.
  ghost predicate AllQueued(p: Pool) {
    forall r: nat :: !PlainInFlight(p, r)
  }

  // What a new request adds to the commands in flight.
  lemma PullAdds(p: Pool, pending: set<Slot>, q: Ioreq)
    requires PoolOk(p, pending) && p.free != []
    ensures var w := Pulled(p, q); forall r: nat ::
      PlainInFlight(w, r) <==> if r == p.free[0] then !Queued(q.table) else PlainInFlight(p, r)
    ensures forall r: nat :: PlainInFlight(p, r) ==> Pulled(p, q).ioreq[r] == p.ioreq[r]
  {
    assert p.free[0] in p.free;
  }

  lemma ReturnRemoves(p: Pool, pending: set<Slot>, r: nat)
    requires PoolOk(p, pending) && r in p.busy
    ensures forall x: nat :: PlainInFlight(Returned(p, r), x) <==> PlainInFlight(p, x) && x != r
  {}

  lemma ExecuteKeepsDiscipline(v: View, slot: Slot, t: Table)
    requires PoolOk(v.pool, v.regs.pending) && v.pool.free != [] && AllQueued(v.pool)
    requires v.regs.tfd.busy && slot in v.regs.ci
    ensures Disciplined(Executed(v, slot, t))
  {
    match Dispatch(t)
    case Rw(_) =>
      PullAdds(v.pool, v.regs.pending, RwReq(slot, t, 0, v.sectsz));
    case Flush =>
      PullAdds(v.pool, v.regs.pending, FlushReq(slot, t));
    case Trim(_) =>
      var r := ScanFrom(t.buffer, 0, TrimLen(t));
      if r.Found? {
        PullAdds(v.pool, v.regs.pending, TrimReq(slot, t, r.next, v.sectsz));
      }
    case Immediate(_) =>
  }

  lemma TurnKeepsDiscipline(v: View)
    requires ValidView(v) && Disciplined(v) && v.ctl.looping
    ensures Disciplined(Turned(v))
  {
    var slot := v.ctl.ccs;
    if !Quiet(v) && slot in Todo(v) && HostToDevice(v.tables[slot]) && Command(v.tables[slot]) {
      FreeRequest(v.pool, v.regs.pending, slot);
      ExecuteKeepsDiscipline(v.(regs := Busied(v.regs)), slot, v.tables[slot]);
    }
  }

  // A command goes on under the same table.
  lemma RelayKeepsDiscipline(v: View, r: nat, q: Ioreq)
    requires ValidView(v) && Disciplined(v) && r in v.pool.busy && Sane(q)
    requires q.slot == v.pool.ioreq[r].slot && q.table == v.pool.ioreq[r].table
    ensures Disciplined(Launched(v.(pool := Returned(v.pool, r)), q, false))
  {
    var p, pending := Returned(v.pool, r), v.regs.pending - {q.slot};
    ReturnKeepsSound(v.pool, v.regs.pending, r);
    ReturnRemoves(v.pool, v.regs.pending, r);
    PullKeepsSound(p, pending, q);
    PullAdds(p, pending, q);
    if !Queued(q.table) {
      assert PlainInFlight(v.pool, r);
    }
  }

  lemma SettleKeepsDiscipline(v: View, r: nat, err: bool)
    requires ValidView(v) && Disciplined(v) && r in v.pool.busy
    ensures var q := v.pool.ioreq[r];
      Disciplined(Settled(v.(pool := Returned(v.pool, r)), q.slot, Queued(q.table), err))
  {
    var q := v.pool.ioreq[r];
    ReturnKeepsSound(v.pool, v.regs.pending, r);
    ReturnRemoves(v.pool, v.regs.pending, r);
    CheckKeepsDiscipline(v.pool, v.regs.pending, r);
    if !Queued(q.table) {
      assert PlainInFlight(v.pool, r);
    }
  }

  // Nothing is in flight when 'pending' is empty.
  lemma CheckKeepsDiscipline(p: Pool, pending: set<Slot>, r: nat)
    requires Sound(p, pending) && r in p.busy
    ensures pending - {p.ioreq[r].slot} == {} ==> AllQueued(Returned(p, r))
  {
    ReturnKeepsSound(p, pending, r);
    NothingInFlight(Returned(p, r), pending - {p.ioreq[r].slot});
  }

  lemma NothingInFlight(p: Pool, pending: set<Slot>)
    requires PoolOk(p, pending)
    ensures pending == {} ==> p.busy == [] && AllQueued(p)
  {
    if p.busy != [] {
      assert p.busy[0] in p.busy;
      assert p.ioreq[p.busy[0]].slot in SlotsOf(p.busy, p.ioreq);
    }
  }

  lemma CompletionKeepsDiscipline(v: View, r: nat, err: bool)
    requires ValidView(v) && Disciplined(v) && r in v.pool.busy && !Breaks(v.pool.ioreq[r], err, v.sectsz)
    ensures Disciplined(Completed(v, r, err))
  {
    var q := v.pool.ioreq[r];
    if err || !q.more {
      SettleKeepsDiscipline(v, r, err);
    } else if Dsm(q.table) {
      var s := ScanFrom(q.table.buffer, q.done, TrimLen(q.table));
      if s.Found? {
        RelayKeepsDiscipline(v, r, TrimReq(q.slot, q.table, s.next, v.sectsz));
      } else {
        SettleKeepsDiscipline(v, r, false);
      }
    } else {
      RwIsSane(q.slot, q.table, q.done, v.sectsz);
      RelayKeepsDiscipline(v, r, RwReq(q.slot, q.table, q.done, v.sectsz));
    }
  }

  lemma {:induction false} CancelKeepsDiscipline(v: View, rest: seq<nat>, cancelled: set<nat>)
    requires Sound(v.pool, v.regs.pending) && Disciplined(v)
    requires NoDup(rest) && forall r :: r in rest ==> r in v.pool.busy
    ensures Disciplined(CancelledFrom(v, rest, cancelled))
    decreases |rest|
  {
    if rest != [] {
      var r := rest[0];
      ReturnKeepsSound(v.pool, v.regs.pending, r);
      if r in cancelled {
        OneCancelled(v, r);
      }
      CancelKeepsDiscipline(if r in cancelled then Cancelled(v, r) else v, rest[1..], cancelled);
    }
  }

  lemma OneCancelled(v: View, r: nat)
    requires Sound(v.pool, v.regs.pending) && Disciplined(v) && r in v.pool.busy
    ensures Disciplined(Cancelled(v, r))
  {
    ReturnRemoves(v.pool, v.regs.pending, r);
    if !Queued(v.pool.ioreq[r].table) {
      assert PlainInFlight(v.pool, r);
    }
  }

  lemma CommandKeepsDiscipline(v: View, start: bool, receive: bool, mapped: bool, cancelled: set<nat>)
    requires ValidView(v) && Disciplined(v)
    ensures Disciplined(Commanded(v, start, receive, mapped, false, cancelled))
  {
    if !start {
      var u := Switched(v, start, receive);
      CancelKeepsSound(u, u.pool.busy, cancelled);
      CancelKeepsDiscipline(u, u.pool.busy, cancelled);
      var w := CancelledFrom(u, u.pool.busy, cancelled);
      NothingInFlight(w.pool, w.regs.pending);
    }
  }

  /** Every event but an override keeps discipline. */
  lemma EventKeepsDiscipline(v: View, e: Event)
    requires ValidView(v) && Disciplined(v) && !Halts(v, e) && !Overrides(e)
    ensures Disciplined(After(v, e))
  {
    if Enabled(v, e) {
      match e
      case PxCmd(start, receive, mapped, clo, cancelled) =>
        CommandKeepsDiscipline(v, start, receive, mapped, cancelled);
      case Completion(k, err) =>
        assert v.pool.busy[k] in v.pool.busy;
        CompletionKeepsDiscipline(v, v.pool.busy[k], err);
      case LoopTurn =>
        TurnKeepsDiscipline(v);
      case _ =>
    }
  }

  // ---- commands whose table stays as it was ----

  // A request that was started under the table it still has.
  predicate StableReq(q: Ioreq) {
    && (q.more ==> Dispatch(q.table).Rw? || Dispatch(q.table).Trim?)
    && (Dispatch(q.table).Trim? ==> BehindEntry(q.done) && (q.more <==> q.done != TRIM_BYTES))
  }

  // The end of an entry of a trim list.
  predicate BehindEntry(done: nat) {
    exists k: nat :: k <= 64 && done == 8 * k
  }

  ghost predicate Stable(v: View) {
    forall r :: r in v.pool.busy && r < |v.pool.ioreq| ==> StableReq(v.pool.ioreq[r])
  }

  /** While no table in flight is changed, the search for trim entries stays inside its buffer. */
  lemma StableStaysInside(q: Ioreq)
    requires StableReq(q) && q.more && Dsm(q.table)
    ensures !ScanFrom(q.table.buffer, q.done, TrimLen(q.table)).Strays?
  {
    var k: nat :| k <= 64 && q.done == 8 * k;
    var m := ScanMeans(q.table.buffer, k);
  }

  /** When the list of an unfinished trim command is made longer than its buffer, and empty, the search leaves it. */
  lemma LongListStrays(q: Ioreq, sectsz: Positive)
    requires q.more && q.table.cfis[2] == DATA_SET_MANAGEMENT && TRIM_BYTES < TrimLen(q.table)
    requires forall k :: 0 <= k < TRIM_BYTES ==> q.table.buffer[k] == 0
    ensures Breaks(q, false, sectsz)
  {
    var b, len := q.table.buffer, TrimLen(q.table);
    forall i: nat ensures PassesBy(b, q.done, i, len) {}
    ScanStrays(b, q.done, len);
  }

  lemma PullKeepsStable(v: View, q: Ioreq, accept: bool)
    requires Stable(v) && StableReq(q)
    ensures Stable(Launched(v, q, accept))
  {}

  lemma ExecuteKeepsStable(v: View, slot: Slot, t: Table)
    requires Stable(v)
    ensures Stable(Executed(v, slot, t))
  {
    match Dispatch(t)
    case Rw(_) => PullKeepsStable(v, RwReq(slot, t, 0, v.sectsz), Queued(t));
    case Flush => PullKeepsStable(v, FlushReq(slot, t), false);
    case Trim(_) =>
      var m := ScanMeans(t.buffer, 0);
      var r := ScanFrom(t.buffer, 0, TrimLen(t));
      if r.Found? {
        assert r.next == 8 * (m + 1);
        PullKeepsStable(v, TrimReq(slot, t, r.next, v.sectsz), Queued(t));
      }
    case Immediate(_) =>
  }

  lemma CompletionKeepsStable(v: View, r: nat, err: bool)
    requires Stable(v) && r in v.pool.busy && r < |v.pool.ioreq|
    ensures Stable(Completed(v, r, err))
  {
    var q, u := v.pool.ioreq[r], v.(pool := Returned(v.pool, r));
    assert StableReq(q) && Stable(u);
    if !err && q.more {
      if Dsm(q.table) {
        var k: nat :| k <= 64 && q.done == 8 * k;
        var m := ScanMeans(q.table.buffer, k);
        var s := ScanFrom(q.table.buffer, q.done, TrimLen(q.table));
        if s.Found? {
          assert s.next == 8 * (m + 1);
          PullKeepsStable(u, TrimReq(q.slot, q.table, s.next, v.sectsz), false);
        }
      } else {
        PullKeepsStable(u, RwReq(q.slot, q.table, q.done, v.sectsz), false);
      }
    }
  }

  lemma {:induction false} CancelKeepsStable(v: View, rest: seq<nat>, cancelled: set<nat>)
    requires Stable(v) && forall r :: r in rest ==> r < |v.pool.ioreq|
    ensures Stable(CancelledFrom(v, rest, cancelled))
    decreases |rest|
  {
    if rest != [] {
      assert rest[0] in rest && forall r :: r in rest[1..] ==> r in rest;
      CancelKeepsStable(if rest[0] in cancelled then Cancelled(v, rest[0]) else v, rest[1..], cancelled);
    }
  }

  lemma TurnKeepsStable(v: View)
    requires Stable(v)
    ensures Stable(Turned(v))
  {
    ExecuteKeepsStable(v.(regs := Busied(v.regs)), v.ctl.ccs, v.tables[v.ctl.ccs]);
  }

  lemma CommandKeepsStable(v: View, start: bool, receive: bool, mapped: bool, clo: bool, cancelled: set<nat>)
    requires Stable(v) && forall r :: r in v.pool.busy ==> r < |v.pool.ioreq|
    ensures Stable(Commanded(v, start, receive, mapped, clo, cancelled))
  {
    if !start {
      CancelKeepsStable(Switched(v, start, receive), v.pool.busy, cancelled);
    }
  }

  /** Every event but a change of a table in flight keeps all requests stable. */
  lemma EventKeepsStable(v: View, e: Event)
    requires ValidView(v) && Stable(v) && !e.Rewrite?
    ensures Stable(After(v, e))
  {
    if Enabled(v, e) {
      match e
      case PxCmd(start, receive, mapped, clo, cancelled) =>
        CommandKeepsStable(v, start, receive, mapped, clo, cancelled);
      case Completion(k, err) =>
        assert v.pool.busy[k] in v.pool.busy;
        CompletionKeepsStable(v, v.pool.busy[k], err);
      case LoopTurn =>
        TurnKeepsStable(v);
      case _ =>
    }
  }

  // ---- which slots go in flight and come out ----

  // Slots of the requests of one kind in 'gone'.
  ghost function SlotsOfKind(gone: set<nat>, ioreq: seq<Ioreq>, queued: bool): set<Slot>
    requires forall r :: r in gone ==> r < |ioreq|
  {
    set r | r in gone && Queued(ioreq[r].table) == queued :: ioreq[r].slot
  }

  // The requests in 'gone' are withdrawn and leave no trace.
  ghost predicate Withdrew(v: View, gone: set<nat>, w: View)
    requires forall r :: r in gone ==> r < |v.pool.ioreq|
  {
    && w.pool.ioreq == v.pool.ioreq && (forall r :: r in w.pool.busy <==> r in v.pool.busy && r !in gone)
    && w == v.(pool := w.pool, regs := v.regs.(
         ci := v.regs.ci - SlotsOfKind(gone, v.pool.ioreq, false),
         sact := v.regs.sact - SlotsOfKind(gone, v.pool.ioreq, true),
         pending := v.regs.pending - SlotsOfKind(gone, v.pool.ioreq, false) - SlotsOfKind(gone, v.pool.ioreq, true)))
  }

  lemma WithdrewOneMore(v: View, gone: set<nat>, u: View, r: nat)
    requires r < |v.pool.ioreq| && forall x :: x in gone ==> x < |v.pool.ioreq|
    requires Withdrew(v, gone, u) && NoDup(u.pool.busy)
    ensures Withdrew(v, gone + {r}, Cancelled(u, r))
  {
    var q := v.pool.ioreq[r];
    var queued := Queued(q.table);
    assert SlotsOfKind(gone + {r}, v.pool.ioreq, queued) == SlotsOfKind(gone, v.pool.ioreq, queued) + {q.slot};
    assert SlotsOfKind(gone + {r}, v.pool.ioreq, !queued) == SlotsOfKind(gone, v.pool.ioreq, !queued);
  }

  /** Stopping a port takes out exactly the requests that the backend withdraws, and exactly their bits. */
  lemma {:induction false} CancelMeans(v: View, gone: set<nat>, u: View, rest: seq<nat>, cancelled: set<nat>)
    requires (forall r :: r in gone || r in rest ==> r < |v.pool.ioreq|) && Withdrew(v, gone, u) && NoDup(u.pool.busy)
    ensures var all := gone + set r | r in rest && r in cancelled;
      Withdrew(v, all, CancelledFrom(u, rest, cancelled))
    decreases |rest|
  {
    if rest == [] {
      assert gone + (set r | r in rest && r in cancelled) == gone;
    } else {
      var r, tail := rest[0], rest[1..];
      assert forall x :: x in rest <==> x == r || x in tail;
      var now := if r in cancelled then gone + {r} else gone;
      if r in cancelled {
        WithdrewOneMore(v, gone, u, r);
      }
      assert gone + (set x | x in rest && x in cancelled) == now + set x | x in tail && x in cancelled;
      CancelMeans(v, now, if r in cancelled then Cancelled(u, r) else u, tail, cancelled);
    }
  }
}
