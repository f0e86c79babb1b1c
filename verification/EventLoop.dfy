// The event loop: two lists of events, the kernel's epoll set, and deletion that is deferred to the loop.
module EventLoop {
  import opened Options
  import opened Queues

  const MEVENT_MAX := 64
  const STDIN := 0

  type Handle = nat
  datatype EvType = Read | Write | Timer
  datatype Mevent = Mevent(fd: nat, typ: EvType, queued: bool, deleting: bool, closefd: bool)
  datatype CtlOp = CtlAdd | CtlDel
  datatype CtlEvent = CtlEvent(op: CtlOp, fd: nat, ptr: Handle)

  // Allocated events, the descriptors of freed ones, and the kernel's one registration per descriptor.
  type Store = map<Handle, Mevent>
  type Gone = map<Handle, nat>
  type Epoll = map<nat, Handle>

  // ---- the lists ----

  predicate FlagsOk(m: Mevent, changed: bool) {
    m.queued == changed && (if changed then m.closefd ==> m.deleting else !m.deleting && !m.closefd)
  }

  // Every allocated event is on exactly one list, and its flags say which.
  ghost predicate Listed(store: Store, global: seq<Handle>, change: seq<Handle>) {
    && NoDup(global) && NoDup(change)
    && (forall e :: e in store ==> e in global || e in change)
    && (forall e :: e in global ==> e in store && FlagsOk(store[e], false))
    && (forall e :: e in change ==> e in store && FlagsOk(store[e], true))
  }

  // No two allocated events share descriptor and type.
  ghost predicate Distinct(store: Store) {
    forall e, f :: e in store && f in store && store[e].fd == store[f].fd && store[e].typ == store[f].typ ==> e == f
  }

  ghost predicate Apart(store: Store, gone: Gone, issued: nat) {
    && (forall e :: e in store ==> e < issued && e !in gone)
    && (forall e :: e in gone ==> e < issued)
  }

  // ---- the kernel's side ----

  // What is registered under a descriptor is, or was, an event of that descriptor.
  ghost predicate Registered(store: Store, gone: Gone, epoll: Epoll) {
    forall fd :: fd in epoll ==>
      || (epoll[fd] in store && store[epoll[fd]].fd == fd)
      || (epoll[fd] in gone && gone[epoll[fd]] == fd)
  }

  ghost predicate DelAhead(clist: seq<CtlEvent>, next: nat, fd: nat) {
    exists j :: next <= j < |clist| && clist[j].op == CtlDel && clist[j].fd == fd
  }

  // A freed event is still registered only while the call that removes it is outstanding.
  ghost predicate Covered(gone: Gone, epoll: Epoll, clist: seq<CtlEvent>, next: nat) {
    forall fd :: fd in epoll && epoll[fd] in gone ==> DelAhead(clist, next, fd)
  }

  // Outstanding additions name events that are still allocated.
  ghost predicate AddsLive(store: Store, clist: seq<CtlEvent>, next: nat) {
    forall j :: next <= j < |clist| && clist[j].op == CtlAdd ==>
      clist[j].ptr in store && store[clist[j].ptr].fd == clist[j].fd
  }

  ghost predicate Kernel(store: Store, gone: Gone, epoll: Epoll, clist: seq<CtlEvent>, next: nat) {
    && next <= |clist|
    && Registered(store, gone, epoll)
    && Covered(gone, epoll, clist, next)
    && AddsLive(store, clist, next)
  }

  ghost predicate Lists(store: Store, gone: Gone, issued: nat, global: seq<Handle>, change: seq<Handle>) {
    Listed(store, global, change) && Distinct(store) && Apart(store, gone, issued)
  }

  // A new event joins the change list.
  lemma AddKeepsLists(store: Store, gone: Gone, issued: nat, global: seq<Handle>, change: seq<Handle>, m: Mevent)
    requires Lists(store, gone, issued, global, change) && FlagsOk(m, true)
    requires forall e :: e in store ==> !(store[e].fd == m.fd && store[e].typ == m.typ)
    ensures Lists(store[issued := m], gone, issued + 1, global, [issued] + change)
  {
    NoDupPrepend(change, issued);
  }

  // An event is marked for deletion, and queued if it was not.
  lemma MarkKeepsLists(store: Store, gone: Gone, issued: nat, global: seq<Handle>, change: seq<Handle>,
                       e: Handle, m: Mevent)
    requires Lists(store, gone, issued, global, change) && e in store
    requires FlagsOk(m, true) && m.fd == store[e].fd && m.typ == store[e].typ
    ensures if e in change then Lists(store[e := m], gone, issued, global, change)
            else Lists(store[e := m], gone, issued, Without(global, e), [e] + change)
  {
    if e !in change {
      NoDupPrepend(change, e);
    }
  }

  // The loop frees or keeps the event at the head of the change list.
  lemma FreeKeepsLists(store: Store, gone: Gone, issued: nat, global: seq<Handle>, change: seq<Handle>)
    requires Lists(store, gone, issued, global, change) && change != []
    ensures Lists(store - {change[0]}, gone[change[0] := store[change[0]].fd], issued, global, change[1..])
  {
    var e := change[0];
    assert forall x :: x in change <==> x == e || x in change[1..];
    assert e !in global;
  }

  // Additions move on to the global list.
  lemma KeepKeepsLists(store: Store, gone: Gone, issued: nat, global: seq<Handle>, change: seq<Handle>)
    requires Lists(store, gone, issued, global, change) && change != [] && !store[change[0]].deleting
    ensures var e := change[0];
      Lists(store[e := store[e].(queued := false)], gone, issued, [e] + global, change[1..])
  {
    var e := change[0];
    assert forall x :: x in change <==> x == e || x in change[1..];
    assert e !in global;
    NoDupPrepend(global, e);
  }

  // An update that keeps descriptors is invisible to the kernel's side.
  lemma SameFdsKeepKernel(store: Store, store': Store, gone: Gone, epoll: Epoll, clist: seq<CtlEvent>, next: nat)
    requires Kernel(store, gone, epoll, clist, next)
    requires forall e :: e in store ==> e in store' && store'[e].fd == store[e].fd
    ensures Kernel(store', gone, epoll, clist, next)
  {}

  // Closing a descriptor only removes registrations.
  lemma DropKeepsKernel(store: Store, gone: Gone, epoll: Epoll, fd: nat, clist: seq<CtlEvent>, next: nat)
    requires Kernel(store, gone, epoll, clist, next)
    ensures Kernel(store, gone, epoll - {fd}, clist, next)
  {}

  // One more call on the list.
  lemma ListKeepsKernel(store: Store, gone: Gone, epoll: Epoll, clist: seq<CtlEvent>, next: nat, c: CtlEvent)
    requires Kernel(store, gone, epoll, clist, next)
    requires c.op == CtlAdd ==> c.ptr in store && store[c.ptr].fd == c.fd
    ensures Kernel(store, gone, epoll, clist + [c], next)
  {
    forall fd | fd in epoll && epoll[fd] in gone ensures DelAhead(clist + [c], next, fd) {
      var j :| next <= j < |clist| && clist[j].op == CtlDel && clist[j].fd == fd;
      assert (clist + [c])[j] == clist[j];
    }
  }

  // Freeing an event: its descriptor is out of the kernel already, or its removal is on the list.
  lemma FreeKeepsKernel(store: Store, gone: Gone, epoll: Epoll, clist: seq<CtlEvent>, next: nat, e: Handle)
    requires Kernel(store, gone, epoll, clist, next) && e in store && e !in gone
    requires store[e].fd in epoll ==> DelAhead(clist, next, store[e].fd)
    requires forall j :: next <= j < |clist| && clist[j].op == CtlAdd ==> clist[j].ptr != e
    ensures Kernel(store - {e}, gone[e := store[e].fd], epoll, clist, next)
  {}

  // One call made.
  lemma ApplyKeepsKernel(store: Store, gone: Gone, epoll: Epoll, clist: seq<CtlEvent>, next: nat, epoll': Epoll)
    requires Kernel(store, gone, epoll, clist, next) && next < |clist|
    requires forall e :: e in store ==> e !in gone
    requires epoll' == Applied(epoll, clist[next], true) || epoll' == Applied(epoll, clist[next], false)
    ensures Kernel(store, gone, epoll', clist, next + 1)
  {
    forall fd | fd in epoll' && epoll'[fd] in gone ensures DelAhead(clist, next + 1, fd) {
      assert fd in epoll && epoll[fd] == epoll'[fd];
      var j :| next <= j < |clist| && clist[j].op == CtlDel && clist[j].fd == fd;
    }
  }

  // One epoll_ctl call.  Adding fails when the descriptor is registered already, and may fail otherwise.
  function Applied(epoll: Epoll, c: CtlEvent, works: bool): Epoll {
    if c.op == CtlDel then epoll - {c.fd}
    else if c.fd in epoll || !works then epoll
    else epoll[c.fd := c.ptr]
  }

  function Marked(m: Mevent, closefd: bool): Mevent {
    m.(queued := true, deleting := true, closefd := closefd || m.closefd)
  }

  // Freeing the head of the global list.
  lemma FreeGlobalKeepsLists(store: Store, gone: Gone, issued: nat, global: seq<Handle>, change: seq<Handle>)
    requires Lists(store, gone, issued, global, change) && global != []
    ensures Lists(store - {global[0]}, gone[global[0] := store[global[0]].fd], issued, global[1..], change)
  {
    var e := global[0];
    assert forall x :: x in global <==> x == e || x in global[1..];
    assert e !in change;
  }

  // The calls listed so far add only events that have left the change list.
  ghost predicate AddsDone(clist: seq<CtlEvent>, global: seq<Handle>) {
    forall j :: 0 <= j < |clist| && clist[j].op == CtlAdd ==> clist[j].ptr in global
  }

  // ---- one pass over the change list ----

  // The call that tells the kernel about an event, unless closing its descriptor does.
  function CallFor(e: Handle, m: Mevent): seq<CtlEvent> {
    if m.closefd then [] else [CtlEvent(if m.deleting then CtlDel else CtlAdd, m.fd, e)]
  }

  function CallsFor(change: seq<Handle>, store: Store): seq<CtlEvent>
    requires forall e :: e in change ==> e in store
  {
    if change == [] then [] else CallFor(change[0], store[change[0]]) + CallsFor(change[1..], store)
  }

  function Unclosed(change: seq<Handle>, store: Store): set<Handle>
    requires forall e :: e in change ==> e in store
  {
    set e | e in change && !store[e].closefd
  }

  // The pass makes one call for every event that is not closed.
  lemma {:induction false} CallsCounted(change: seq<Handle>, store: Store)
    requires NoDup(change) && forall e :: e in change ==> e in store
    ensures |CallsFor(change, store)| == |Unclosed(change, store)|
  {
    if change == [] {
      assert Unclosed(change, store) == {};
    } else {
      var e, rest := change[0], change[1..];
      assert forall x :: x in change <==> x == e || x in rest;
      CallsCounted(rest, store);
      assert e !in Unclosed(rest, store);
      assert Unclosed(change, store) == Unclosed(rest, store) + if store[e].closefd then {} else {e};
    }
  }

  // The additions of a pass, the last one first.
  function KeptFrom(change: seq<Handle>, store: Store): seq<Handle>
    requires forall e :: e in change ==> e in store
  {
    if change == [] then []
    else KeptFrom(change[1..], store) + if store[change[0]].deleting then [] else [change[0]]
  }

  function ClosedBy(change: seq<Handle>, store: Store): set<nat>
    requires forall e :: e in change ==> e in store
  {
    set e | e in change && store[e].closefd :: store[e].fd
  }

  predicate Doomed(m: Mevent) {
    m.queued && m.deleting
  }

  function Survivors(store: Store): Store {
    map e | e in store && !Doomed(store[e]) :: store[e].(queued := false)
  }

  function Buried(store: Store, gone: Gone): Gone {
    gone + map e | e in store && Doomed(store[e]) :: store[e].fd
  }

  // How far a pass has come, seen from the events it started with.
  ghost predicate Swept(s0: Store, g0: Gone, change: seq<Handle>, store: Store, gone: Gone) {
    && (forall e :: e in store <==> e in s0 && (e in change || !Doomed(s0[e])))
    && (forall e :: e in store ==> store[e] == if e in change then s0[e] else s0[e].(queued := false))
    && (forall e :: e in gone <==> e in g0 || (e in s0 && e !in change && Doomed(s0[e])))
    && (forall e :: e in gone ==> gone[e] == if e in s0 && e !in change && Doomed(s0[e]) then s0[e].fd else g0[e])
  }

  // One event of the pass is freed.
  lemma SweepFree(s0: Store, g0: Gone, change: seq<Handle>, store: Store, gone: Gone)
    requires Swept(s0, g0, change, store, gone) && NoDup(change) && change != []
    requires change[0] in store && store[change[0]].queued && store[change[0]].deleting
    ensures Swept(s0, g0, change[1..], store - {change[0]}, gone[change[0] := store[change[0]].fd])
  {
    assert forall x :: x in change <==> x == change[0] || x in change[1..];
  }

  // One event of the pass is kept.
  lemma SweepKeep(s0: Store, g0: Gone, change: seq<Handle>, store: Store, gone: Gone)
    requires Swept(s0, g0, change, store, gone) && NoDup(change) && change != []
    requires change[0] in store && !store[change[0]].deleting
    ensures Swept(s0, g0, change[1..], store[change[0] := store[change[0]].(queued := false)], gone)
  {
    assert forall x :: x in change <==> x == change[0] || x in change[1..];
  }

  lemma SweepDone(s0: Store, g0: Gone, store: Store, gone: Gone)
    requires Swept(s0, g0, [], store, gone)
    ensures store == Survivors(s0) && gone == Buried(s0, g0)
  {}

  // What is left of a pass that began with the events 's0', the change list 'c0', the global list 'l0' and the
  // registrations 'p0'.
  ghost predicate Underway(s0: Store, c0: seq<Handle>, l0: seq<Handle>, p0: Epoll,
                           change: seq<Handle>, clist: seq<CtlEvent>, global: seq<Handle>, epoll: Epoll)
  {
    && (forall e :: e in change ==> e in s0) && (forall e :: e in c0 ==> e in s0)
    && clist + CallsFor(change, s0) == CallsFor(c0, s0)
    && KeptFrom(change, s0) + global == KeptFrom(c0, s0) + l0
    && epoll - ClosedBy(change, s0) == p0 - ClosedBy(c0, s0)
  }

  lemma UnderwayStep(s0: Store, c0: seq<Handle>, l0: seq<Handle>, p0: Epoll,
                     change: seq<Handle>, clist: seq<CtlEvent>, global: seq<Handle>, epoll: Epoll)
    requires Underway(s0, c0, l0, p0, change, clist, global, epoll) && change != []
    ensures var e, rest := change[0], change[1..];
      Underway(s0, c0, l0, p0, rest, clist + CallFor(e, s0[e]),
               if s0[e].deleting then global else [e] + global, if s0[e].closefd then epoll - {s0[e].fd} else epoll)
  {
    var e, rest := change[0], change[1..];
    assert forall x :: x in change <==> x == e || x in rest;
    assert clist + CallFor(e, s0[e]) + CallsFor(rest, s0) == clist + CallsFor(change, s0);
    assert ClosedBy(change, s0) == ClosedBy(rest, s0) + if s0[e].closefd then {s0[e].fd} else {};
    assert KeptFrom(rest, s0) + ([e] + global) == KeptFrom(rest, s0) + [e] + global;
  }

  // The end of a pass.
  lemma UnderwayDone(s0: Store, c0: seq<Handle>, l0: seq<Handle>, p0: Epoll,
                     clist: seq<CtlEvent>, global: seq<Handle>, epoll: Epoll)
    requires Underway(s0, c0, l0, p0, [], clist, global, epoll)
    ensures clist == CallsFor(c0, s0) && global == KeptFrom(c0, s0) + l0 && epoll == p0 - ClosedBy(c0, s0)
  {
    assert ClosedBy([], s0) == {};
    assert clist + [] == clist && [] + global == global && epoll - {} == epoll;
  }

  datatype Phase = Building | Applying | Waiting | Handling | Stopping | Destroying | Finished

  // What can happen next, in any thread.
  datatype Action =
    | MeventAdd(tfd: int, typ: EvType, func: bool, enough: bool)
    | MeventDelete(event: Handle, closefd: bool)
    | CloseFd(fd: nat)
    | Dispatch(works: bool, ready: seq<nat>, suspend: bool)

  // ---- the loop at one moment ----

  datatype View = View(store: Store, issued: nat, global: seq<Handle>, change: seq<Handle>, epoll: Epoll,
                       clist: seq<CtlEvent>, next: nat, phase: Phase, reported: seq<Handle>, at: nat, gone: Gone)

  ghost predicate ValidView(v: View) {
    && Lists(v.store, v.gone, v.issued, v.global, v.change) && Kernel(v.store, v.gone, v.epoll, v.clist, v.next)
    && (v.phase != Applying && v.phase != Destroying ==> v.next == |v.clist|)
    && (v.phase == Handling ==>
          v.at <= |v.reported| && forall i :: v.at <= i < |v.reported| ==> v.reported[i] in v.store)
  }

  // More events on the change list need a kernel call than there is room for.
  predicate TooMany(v: View)
    requires forall e :: e in v.change ==> e in v.store
  {
    |Unclosed(v.change, v.store)| >= MEVENT_MAX
  }

  // What a pass does to the lists and the kernel's side.
  ghost predicate SweptInto(v: View, w: View)
    requires forall e :: e in v.change ==> e in v.store
  {
    && w.clist == CallsFor(v.change, v.store) && w.global == KeptFrom(v.change, v.store) + v.global
    && w.epoll == v.epoll - ClosedBy(v.change, v.store)
    && w.store == Survivors(v.store) && w.gone == Buried(v.store, v.gone)
  }

  // A whole pass over the change list.
  function Passed(v: View): View
    requires forall e :: e in v.change ==> e in v.store
  {
    v.(store := Survivors(v.store), gone := Buried(v.store, v.gone), change := [],
       global := KeptFrom(v.change, v.store) + v.global, epoll := v.epoll - ClosedBy(v.change, v.store),
       clist := CallsFor(v.change, v.store), next := 0, phase := if v.phase == Building then Applying else Destroying)
  }

  lemma IsPassed(v: View, w: View)
    requires (forall e :: e in v.change ==> e in v.store) && SweptInto(v, w) && w.change == [] && w.next == 0
    requires w.issued == v.issued && w.reported == v.reported && w.at == v.at
    requires w.phase == if v.phase == Building then Applying else Destroying
    ensures w == Passed(v)
  {}

  // What epoll_wait hands over of the descriptors that are ready: at most MEVENT_MAX registrations.
  function Polled(epoll: Epoll, ready: seq<nat>): (r: seq<Handle>)
    ensures |r| <= MEVENT_MAX && forall e :: e in r ==> e in epoll.Values
  {
    if ready == [] then []
    else
      var r, fd := Polled(epoll, ready[..|ready| - 1]), ready[|ready| - 1];
      if fd in epoll && |r| < MEVENT_MAX then r + [epoll[fd]] else r
  }

  function EventsOf(list: seq<Handle>): set<Handle> {
    set e | e in list
  }

  function FdsOf(list: seq<Handle>, store: Store): Gone
    requires forall e :: e in list ==> e in store
  {
    map e | e in list :: store[e].fd
  }

  // How far the last clean-up has come, seen from the start.
  ghost predicate Razed(s0: Store, g0: Gone, l0: seq<Handle>, store: Store, gone: Gone, global: seq<Handle>)
    requires (forall e :: e in l0 ==> e in s0) && (forall e :: e in global ==> e in store)
  {
    store - EventsOf(global) == s0 - EventsOf(l0) && gone + FdsOf(global, store) == g0 + FdsOf(l0, s0)
  }

  lemma RazeStep(s0: Store, g0: Gone, l0: seq<Handle>, store: Store, gone: Gone, global: seq<Handle>)
    requires (forall e :: e in l0 ==> e in s0) && (forall e :: e in global ==> e in store)
    requires Razed(s0, g0, l0, store, gone, global) && global != [] && NoDup(global)
    ensures Razed(s0, g0, l0, store - {global[0]}, gone[global[0] := store[global[0]].fd], global[1..])
  {
    assert forall x :: x in global <==> x == global[0] || x in global[1..];
    StoreRazed(store, global);
    GoneRazed(store, gone, global);
  }

  lemma StoreRazed(store: Store, global: seq<Handle>)
    requires global != [] && forall e :: e in global ==> e in store
    ensures store - {global[0]} - EventsOf(global[1..]) == store - EventsOf(global)
  {
    assert EventsOf(global) == {global[0]} + EventsOf(global[1..]);
  }

  lemma GoneRazed(store: Store, gone: Gone, global: seq<Handle>)
    requires global != [] && NoDup(global) && forall e :: e in global ==> e in store
    ensures forall e :: e in global[1..] ==> e in store - {global[0]}
    ensures gone[global[0] := store[global[0]].fd] + FdsOf(global[1..], store - {global[0]})
            == gone + FdsOf(global, store)
  {
    var e, rest := global[0], global[1..];
    assert forall x :: x in global <==> x == e || x in rest;
    var l, r := gone[e := store[e].fd] + FdsOf(rest, store - {e}), gone + FdsOf(global, store);
    assert l.Keys == r.Keys;
    forall x | x in l ensures l[x] == r[x] {}
  }

  // The program frees what is on the global list and closes its epoll descriptor.
  function Destroyed(v: View): View
    requires forall e :: e in v.global ==> e in v.store
  {
    v.(store := v.store - EventsOf(v.global), gone := v.gone + FdsOf(v.global, v.store), global := [],
       epoll := map[], next := |v.clist|, phase := Finished)
  }

  predicate Watched(store: Store, fd: int, typ: EvType) {
    exists e :: e in store && store[e].fd == fd && store[e].typ == typ
  }

  function Added(v: View, tfd: int, typ: EvType, func: bool, enough: bool): View {
    if tfd >= 0 && func && typ != Timer && enough && !Watched(v.store, tfd, typ)
    then v.(store := v.store[v.issued := Mevent(tfd, typ, true, false, false)], issued := v.issued + 1,
            change := [v.issued] + v.change)
    else v
  }

  function Deleted(v: View, e: Handle, closefd: bool): View
    requires e in v.store
  {
    var queued := v.store[e].queued;
    v.(store := v.store[e := Marked(v.store[e], closefd)], global := if queued then v.global else Without(v.global, e),
       change := if queued then v.change else [e] + v.change)
  }

  // The dispatch thread's next atomic step.
  function Advanced(v: View, works: bool, ready: seq<nat>, suspend: bool): View
    requires (forall e :: e in v.change ==> e in v.store) && (forall e :: e in v.global ==> e in v.store)
  {
    match v.phase
    case Building | Stopping => Passed(v)
    case Applying =>
      if v.next < |v.clist| then v.(epoll := Applied(v.epoll, v.clist[v.next], works), next := v.next + 1)
      else v.(phase := Waiting)
    case Waiting => v.(reported := Polled(v.epoll, ready), at := 0, phase := Handling)
    case Handling =>
      if v.at < |v.reported| then v.(at := v.at + 1) else v.(phase := if suspend then Stopping else Building)
    case Destroying => Destroyed(v)
    case Finished => v
  }

  function After(v: View, a: Action): View
    requires (forall e :: e in v.change ==> e in v.store) && (forall e :: e in v.global ==> e in v.store)
  {
    match a
    case MeventAdd(tfd, typ, func, enough) => Added(v, tfd, typ, func, enough)
    case MeventDelete(e, closefd) => if e in v.store then Deleted(v, e, closefd) else v
    case CloseFd(fd) => v.(epoll := v.epoll - {fd})
    case Dispatch(works, ready, suspend) => Advanced(v, works, ready, suspend)
  }

  // The program gives up in this step.
  predicate Aborts(v: View, a: Action)
    requires forall e :: e in v.change ==> e in v.store
  {
    a.Dispatch? && (v.phase == Building || v.phase == Stopping) && TooMany(v)
  }

  // The event whose callback this step makes.
  function CallAt(v: View, a: Action): Option<Handle> {
    if a.Dispatch? && v.phase == Handling && v.at < |v.reported| then Just(v.reported[v.at]) else Nothing
  }

  // One action in a run that goes on.
  ghost predicate Stepped(v: View, a: Action, w: View) {
    ValidView(v) && ValidView(w) && !Aborts(v, a) && w == After(v, a)
  }

  // Action i of a run.  The quantifier keeps its effect out of proofs that only hand it on.
  ghost predicate TraceStep(trace: seq<View>, actions: seq<Action>, i: nat)
    requires i + 1 < |trace| && i < |actions|
  {
    forall w :: w == trace[i + 1] ==> Stepped(trace[i], actions[i], w)
  }

  // The states of a run, each from the one before by its action.
  ghost predicate Traced(trace: seq<View>, actions: seq<Action>) {
    && 0 < |trace| <= |actions| + 1
    && ValidView(trace[0]) && (forall i :: 0 <= i < |trace| - 1 ==> TraceStep(trace, actions, i))
  }

  lemma TracedOneMore(trace: seq<View>, actions: seq<Action>, w: View)
    requires Traced(trace, actions) && |trace| <= |actions| && Stepped(trace[|trace| - 1], actions[|trace| - 1], w)
    ensures Traced(trace + [w], actions)
  {
    var longer := trace + [w];
    forall i | 0 <= i < |longer| - 1 ensures TraceStep(longer, actions, i) {
      assert longer[i] == trace[i];
      if i < |trace| - 1 {
        assert longer[i + 1] == trace[i + 1] && TraceStep(trace, actions, i);
      }
    }
  }

  function Once(call: Option<Handle>): seq<Handle> {
    if call.Just? then [call.value] else []
  }

  // The callbacks of the first n actions.
  function Callbacks(trace: seq<View>, actions: seq<Action>, n: nat): seq<Handle>
    requires n <= |actions| && n <= |trace|
  {
    if n == 0 then [] else Callbacks(trace, actions, n - 1) + Once(CallAt(trace[n - 1], actions[n - 1]))
  }

  lemma {:induction false} CallbacksPrefix(trace: seq<View>, w: View, actions: seq<Action>, n: nat)
    requires n <= |actions| && n <= |trace|
    ensures Callbacks(trace + [w], actions, n) == Callbacks(trace, actions, n)
  {
    if n > 0 {
      CallbacksPrefix(trace, w, actions, n - 1);
    }
  }

  lemma CallbacksOneMore(trace: seq<View>, actions: seq<Action>, w: View, n: nat)
    requires n < |trace| && n < |actions|
    ensures Callbacks(trace + [w], actions, n + 1) ==
            Callbacks(trace, actions, n) + Once(CallAt(trace[n], actions[n]))
  {
    CallbacksPrefix(trace, w, actions, n + 1);
  }

  // A run so far, with the callbacks it made.
  ghost predicate Recorded(trace: seq<View>, actions: seq<Action>, calls: seq<Handle>) {
    Traced(trace, actions) && calls == Callbacks(trace, actions, |trace| - 1)
  }

  lemma RecordedOneMore(trace: seq<View>, actions: seq<Action>, calls: seq<Handle>, w: View)
    requires Recorded(trace, actions, calls) && |trace| <= |actions|
    requires Stepped(trace[|trace| - 1], actions[|trace| - 1], w)
    ensures Recorded(trace + [w], actions, calls + Once(CallAt(trace[|trace| - 1], actions[|trace| - 1])))
  {
    var n := |trace| - 1;
    TracedOneMore(trace, actions, w);
    CallbacksOneMore(trace, actions, w, n);
    assert |trace + [w]| - 1 == n + 1;
  }

  // Freed events stay freed.
  lemma GoneGrows(v: View, a: Action, w: View, e: Handle)
    requires Stepped(v, a, w) && e in v.gone
    ensures e in w.gone
  {}

  lemma {:induction false} FreedForEver(trace: seq<View>, actions: seq<Action>, e: Handle, i: nat, j: nat)
    requires Traced(trace, actions) && i <= j < |trace| && e in trace[i].gone
    ensures e in trace[j].gone && ValidView(trace[j])
  {
    if j > 0 {
      assert TraceStep(trace, actions, j - 1);
      assert Stepped(trace[j - 1], actions[j - 1], trace[j]);
    }
    if i < j {
      FreedForEver(trace, actions, e, i, j - 1);
      GoneGrows(trace[j - 1], actions[j - 1], trace[j], e);
    }
  }

  // A callback is made for an event that is allocated.
  lemma CallIsLive(v: View, a: Action)
    requires ValidView(v)
    ensures var call := CallAt(v, a); call.Just? ==> call.value in v.store && call.value !in v.gone
  {}

  /** A freed event gets no callback, then or at any later time, whatever happens in between. */
  lemma NoCallAfterFree(trace: seq<View>, actions: seq<Action>, e: Handle, i: nat, j: nat)
    requires Traced(trace, actions) && i <= j < |trace| && j < |actions| && e in trace[i].gone
    ensures CallAt(trace[j], actions[j]) != Just(e)
  {
    FreedForEver(trace, actions, e, i, j);
    CallIsLive(trace[j], actions[j]);
  }

  /** A deleted event is freed by the pass that follows, so no callback comes after that pass. */
  lemma PassFreesDeleted(v: View, e: Handle)
    requires ValidView(v) && e in v.change && v.store[e].deleting
    ensures e in Passed(v).gone && e !in Passed(v).store
  {
    assert Doomed(v.store[e]);
  }

  class Loop {
    var store: Store
    var issued: nat
    var global: seq<Handle>
    var change: seq<Handle>
    var epoll: Epoll
    var clist: seq<CtlEvent>
    var next: nat
    var phase: Phase
    var reported: seq<Handle>
    var at: nat
    ghost var gone: Gone

    ghost function Now(): View
      reads this
    {
      View(store, issued, global, change, epoll, clist, next, phase, reported, at, gone)
    }

    ghost predicate Inv()
      reads this
    {
      Lists(store, gone, issued, global, change) && Kernel(store, gone, epoll, clist, next)
    }

    ghost predicate Valid()
      reads this
    {
      && Inv()
      && (phase != Applying && phase != Destroying ==> next == |clist|)
      && (phase == Handling ==> at <= |reported| && forall i :: at <= i < |reported| ==> reported[i] in store)
    }

    constructor ()
      ensures Valid() && phase == Building && store == map[] && epoll == map[] && gone == map[]
    {
      store, gone, issued := map[], map[], 0;
      global, change := [], [];
      epoll, clist, next := map[], [], 0;
      phase, reported, at := Building, [], 0;
    }

    // Whether a list watches this descriptor and type.
    method Present(list: seq<Handle>, fd: nat, typ: EvType) returns (found: bool)
      requires forall e :: e in list ==> e in store
      ensures found <==> exists e :: e in list && store[e].fd == fd && store[e].typ == typ
    {
      for i := 0 to |list|
        invariant forall j :: 0 <= j < i ==> !(store[list[j]].fd == fd && store[list[j]].typ == typ)
      {
        if store[list[i]].fd == fd && store[list[i]].typ == typ {
          return true;
        }
      }
      return false;
    }

    // Whether any event watches this descriptor and type.
    method Watching(fd: nat, typ: EvType) returns (found: bool)
      requires Inv()
      ensures found <==> Watched(store, fd, typ)
    {
      found := Present(global, fd, typ);
      if !found {
        found := Present(change, fd, typ);
      }
    }

    // A new event at the head of the change list.
    method Insert(m: Mevent)
      requires Valid() && FlagsOk(m, true) && !Watched(store, m.fd, m.typ)
      modifies this`store, this`issued, this`change
      ensures Valid() && issued == old(issued) + 1
      ensures store == old(store)[old(issued) := m] && change == [old(issued)] + old(change)
    {
      AddKeepsLists(store, gone, issued, global, change, m);
      SameFdsKeepKernel(store, store[issued := m], gone, epoll, clist, next);
      store := store[issued := m];
      change := [issued] + change;
      issued := issued + 1;
    }

    // A descriptor and type may be watched once; the new event waits on the change list.
    method Add(tfd: int, typ: EvType, func: bool, enough: bool) returns (r: Option<Handle>)
      requires Valid()
      modifies this`store, this`issued, this`change
      ensures Valid() && Now() == Added(old(Now()), tfd, typ, func, enough)
      ensures r.Just? <==> (tfd >= 0 && func && typ != Timer && enough && !Watched(old(store), tfd, typ))
      ensures r.Just? ==> r.value !in old(store) && r.value !in gone && r.value in store
    {
      if tfd < 0 || !func || typ == Timer {
        return Nothing;
      }
      var watched := Watching(tfd, typ);
      if watched || !enough {
        return Nothing;
      }
      r := Just(issued);
      Insert(Mevent(tfd, typ, true, false, false));
    }

    // The field updates of a deletion.
    method Mark(e: Handle, closefd: bool)
      requires e in store
      modifies this`store, this`global, this`change
      ensures store == old(store)[e := Marked(old(store[e]), closefd)]
      ensures global == if old(store[e]).queued then old(global) else Without(old(global), e)
      ensures change == if old(store[e]).queued then old(change) else [e] + old(change)
    {
      if !store[e].queued {
        store := store[e := store[e].(queued := true)];
        global := Without(global, e);
        change := [e] + change;
      }
      store := store[e := store[e].(deleting := true)];
      if closefd {
        store := store[e := store[e].(closefd := true)];
      }
    }

    // Deleting only marks the event and queues it for the loop.
    method DeleteEvent(e: Handle, closefd: bool)
      requires Valid() && e in store
      modifies this`store, this`global, this`change
      ensures Valid() && Now() == Deleted(old(Now()), e, closefd)
      ensures e in change && e !in global
    {
      MarkKeepsLists(store, gone, issued, global, change, e, Marked(store[e], closefd));
      SameFdsKeepKernel(store, store[e := Marked(store[e], closefd)], gone, epoll, clist, next);
      Mark(e, closefd);
    }

    // The kernel forgets a descriptor that is closed, by the loop or by anyone else.
    method Close(fd: nat)
      requires Inv()
      modifies this`epoll
      ensures Inv() && epoll == old(epoll) - {fd}
    {
      DropKeepsKernel(store, gone, epoll, fd, clist, next);
      epoll := epoll - {fd};
    }

    // One more kernel call to make.
    method Enlist(c: CtlEvent)
      requires Inv() && (c.op == CtlAdd ==> c.ptr in store && store[c.ptr].fd == c.fd)
      modifies this`clist
      ensures Inv() && clist == old(clist) + [c]
    {
      ListKeepsKernel(store, gone, epoll, clist, next, c);
      clist := clist + [c];
    }

    // Frees the head of the change list.
    method Free()
      requires Inv() && change != [] && AddsDone(clist, global)
      requires store[change[0]].fd in epoll ==> DelAhead(clist, next, store[change[0]].fd)
      modifies this`store, this`gone, this`change
      ensures Inv() && change == old(change)[1..]
      ensures store == old(store) - {old(change)[0]} && gone == old(gone)[old(change)[0] := old(store[change[0]].fd)]
    {
      FreeKeepsLists(store, gone, issued, global, change);
      FreeKeepsKernel(store, gone, epoll, clist, next, change[0]);
      gone := gone[change[0] := store[change[0]].fd];
      store := store - {change[0]};
      change := change[1..];
    }

    // Moves the head of the change list to the global list.
    method Keep()
      requires Inv() && change != [] && !store[change[0]].deleting
      modifies this`store, this`global, this`change
      ensures Inv() && change == old(change)[1..] && global == [old(change)[0]] + old(global)
      ensures store == old(store)[old(change)[0] := old(store[change[0]]).(queued := false)]
    {
      var e := change[0];
      KeepKeepsLists(store, gone, issued, global, change);
      SameFdsKeepKernel(store, store[e := store[e].(queued := false)], gone, epoll, clist, next);
      store := store[e := store[e].(queued := false)];
      change := change[1..];
      global := [e] + global;
    }

    // Takes the kernel's side of the event at the head of the change list.
    method Retire()
      requires Inv() && change != [] && next == 0 && AddsDone(clist, global)
      modifies this`epoll, this`clist
      ensures Inv() && clist == old(clist) + CallFor(change[0], store[change[0]])
      ensures epoll == if store[change[0]].closefd then old(epoll) - {store[change[0]].fd} else old(epoll)
      ensures store[change[0]].deleting ==>
        AddsDone(clist, global) && (store[change[0]].fd in epoll ==> DelAhead(clist, next, store[change[0]].fd))
      ensures !store[change[0]].deleting ==> AddsDone(clist, [change[0]] + global)
    {
      var mevp := change[0];
      var m := store[mevp];
      assert FlagsOk(m, true);
      if m.closefd {
        Close(m.fd);
      } else {
        Enlist(CtlEvent(if m.deleting then CtlDel else CtlAdd, m.fd, mevp));
        assert clist[|clist| - 1].fd == m.fd;
      }
    }

    // The event at the head of the change list is freed or kept.
    method BuildOne(ghost s0: Store, ghost g0: Gone)
      requires Inv() && change != [] && next == 0 && AddsDone(clist, global) && Swept(s0, g0, change, store, gone)
      modifies this`store, this`gone, this`global, this`change, this`epoll, this`clist
      ensures Inv() && AddsDone(clist, global) && Swept(s0, g0, change, store, gone)
      ensures change == old(change)[1..] && old(change)[0] in s0
      ensures var e := old(change)[0];
        && clist == old(clist) + CallFor(e, s0[e])
        && global == (if s0[e].deleting then old(global) else [e] + old(global))
        && epoll == if s0[e].closefd then old(epoll) - {s0[e].fd} else old(epoll)
    {
      Retire();
      if store[change[0]].deleting {
        SweepFree(s0, g0, change, store, gone);
        Free();
      } else {
        SweepKeep(s0, g0, change, store, gone);
        Keep();
      }
    }

    // How far a pass that began at v has come.
    ghost predicate Halfway(v: View)
      reads this
    {
      && Inv() && next == 0 && AddsDone(clist, global) && Swept(v.store, v.gone, change, store, gone)
      && Underway(v.store, v.change, v.global, v.epoll, change, clist, global, epoll)
    }

    // One turn of the pass over the change list.
    method BuildTurn(ghost v: View)
      requires Halfway(v) && change != []
      modifies this`store, this`gone, this`global, this`change, this`epoll, this`clist
      ensures Halfway(v) && |change| < |old(change)|
    {
      UnderwayStep(v.store, v.change, v.global, v.epoll, change, clist, global, epoll);
      BuildOne(v.store, v.gone);
    }

    // The pass has not begun.
    method Begin()
      requires Valid() && (phase == Building || phase == Stopping)
      modifies this`clist, this`next
      ensures clist == [] && Halfway(old(Now()))
    {
      clist, next := [], 0;
      assert epoll - ClosedBy(change, store) == old(epoll) - ClosedBy(old(change), old(store));
    }

    // The pass over the change list, until it is empty or there is no room for another call.
    method Sweep() returns (ok: bool)
      requires Valid() && (phase == Building || phase == Stopping)
      modifies this`store, this`gone, this`global, this`change, this`epoll, this`clist, this`next
      ensures ok <==> !TooMany(old(Now()))
      ensures ok ==> Inv() && next == 0 && change == [] && SweptInto(old(Now()), Now())
    {
      ghost var v := Now();
      CallsCounted(change, store);
      Begin();
      while change != []
        invariant Halfway(v) && |clist| < MEVENT_MAX
        decreases |change|
      {
        BuildTurn(v);
        if |clist| >= MEVENT_MAX {
          return false;
        }
      }
      UnderwayDone(v.store, v.change, v.global, v.epoll, clist, global, epoll);
      SweepDone(v.store, v.gone, store, gone);
      ok := true;
    }

    // The calls listed are made next, or the clean-up follows.
    method EndPass()
      requires Inv() && (phase == Building || phase == Stopping)
      modifies this`phase
      ensures Valid() && phase == if old(phase) == Building then Applying else Destroying
    {
      phase := if phase == Building then Applying else Destroying;
    }

    /**
     * One pass over the change list.  It lists a call for every event but the closed ones, frees the deleted ones and
     * moves the others to the global list.  The program gives up exactly when MEVENT_MAX or more calls are needed.
     */
    method Build() returns (ok: bool)
      requires Valid() && (phase == Building || phase == Stopping)
      modifies this`store, this`gone, this`global, this`change, this`epoll, this`clist, this`next, this`phase
      ensures ok <==> !TooMany(old(Now()))
      ensures ok ==> Valid() && Now() == Passed(old(Now()))
    {
      ok := Sweep();
      if ok {
        EndPass();
        IsPassed(old(Now()), Now());
      }
    }

    // One epoll_ctl call, or the end of the list.
    method Apply(works: bool)
      requires Valid() && phase == Applying
      modifies this`epoll, this`next, this`phase
      ensures Valid()
      ensures phase == Waiting ==> forall fd :: fd in epoll ==> epoll[fd] in store && store[epoll[fd]].fd == fd
      ensures Now() == if old(next) < |clist|
                       then old(Now()).(epoll := Applied(old(epoll), clist[old(next)], works), next := old(next) + 1)
                       else old(Now()).(phase := Waiting)
    {
      if next < |clist| {
        ApplyKeepsKernel(store, gone, epoll, clist, next, Applied(epoll, clist[next], works));
        epoll := Applied(epoll, clist[next], works);
        next := next + 1;
      } else {
        phase := Waiting;
      }
    }

    // epoll_wait reports events of registered descriptors, at most MEVENT_MAX of them.
    method Wait(ready: seq<nat>)
      requires Valid() && phase == Waiting
      modifies this`reported, this`at, this`phase
      ensures Valid() && phase == Handling && at == 0 && reported == Polled(epoll, ready)
      ensures forall fd :: fd in epoll ==> epoll[fd] !in gone
      ensures forall e :: e in reported ==> e in epoll.Values && e in store && e !in gone
    {
      var eventlist := [];
      for i := 0 to |ready|
        invariant eventlist == Polled(epoll, ready[..i])
      {
        assert ready[..i + 1][..i] == ready[..i];
        if ready[i] in epoll && |eventlist| < MEVENT_MAX {
          eventlist := eventlist + [epoll[ready[i]]];
        }
      }
      assert ready[..|ready|] == ready;
      forall i | 0 <= i < |eventlist| ensures eventlist[i] in store {
        assert eventlist[i] in epoll.Values;
      }
      reported, at, phase := eventlist, 0, Handling;
    }

    // The next reported event, whose callback runs now.
    method HandleNext() returns (mevp: Handle)
      requires Valid() && phase == Handling && at < |reported|
      modifies this`at
      ensures Valid() && mevp in store && mevp !in gone && at == old(at) + 1 && mevp == reported[old(at)]
    {
      mevp := reported[at];
      at := at + 1;
    }

    // All reported events are handled; the loop goes round or stops.
    method EndHandle(suspend: bool)
      requires Valid() && phase == Handling && at == |reported|
      modifies this`phase
      ensures Valid() && phase == if suspend then Stopping else Building
    {
      phase := if suspend then Stopping else Building;
    }

    // Frees the head of the global list and closes its descriptor.
    method FreeGlobal(ghost v: View)
      requires Lists(store, gone, issued, global, change) && global != [] && forall e :: e in v.global ==> e in v.store
      requires Razed(v.store, v.gone, v.global, store, gone, global)
      modifies this`store, this`gone, this`global, this`epoll
      ensures Lists(store, gone, issued, global, change) && |global| < |old(global)|
      ensures Razed(v.store, v.gone, v.global, store, gone, global)
    {
      var mevp := global[0];
      if store[mevp].typ != Timer && store[mevp].fd != STDIN {
        epoll := epoll - {store[mevp].fd};
      }
      FreeGlobalKeepsLists(store, gone, issued, global, change);
      RazeStep(v.store, v.gone, v.global, store, gone, global);
      gone := gone[mevp := store[mevp].fd];
      store := store - {mevp};
      global := global[1..];
    }

    // Frees every event still on the global list.
    method Raze()
      requires Lists(store, gone, issued, global, change)
      modifies this`store, this`gone, this`global, this`epoll
      ensures Lists(store, gone, issued, global, change) && global == []
      ensures store == old(store) - EventsOf(old(global)) && gone == old(gone) + FdsOf(old(global), old(store))
    {
      ghost var v := Now();
      while global != []
        invariant Lists(store, gone, issued, global, change)
        invariant Razed(v.store, v.gone, v.global, store, gone, global)
        decreases |global|
      {
        FreeGlobal(v);
      }
      assert store - EventsOf([]) == store && gone + FdsOf([], store) == gone;
    }

    // The last clean-up; the epoll descriptor is closed.
    method Destroy()
      requires Valid() && phase == Destroying
      modifies this`store, this`gone, this`global, this`epoll, this`next, this`phase
      ensures Valid() && Now() == Destroyed(old(Now()))
    {
      Raze();
      epoll, next, phase := map[], |clist|, Finished;
    }

    // The next callback, or the end of handling.
    method HandleOne(suspend: bool) returns (handled: Option<Handle>)
      requires Valid() && phase == Handling
      modifies this`at, this`phase
      ensures Valid() && handled == if old(at) < |reported| then Just(reported[old(at)]) else Nothing
      ensures Now() == if old(at) < |reported| then old(Now()).(at := old(at) + 1)
                       else old(Now()).(phase := if suspend then Stopping else Building)
    {
      handled := Nothing;
      if at < |reported| {
        var mevp := HandleNext();
        handled := Just(mevp);
      } else {
        EndHandle(suspend);
      }
    }

    // The dispatch thread outside the pass over the change list.
    method Proceed(works: bool, ready: seq<nat>, suspend: bool) returns (handled: Option<Handle>)
      requires Valid() && phase != Building && phase != Stopping
      modifies this
      ensures Valid() && Now() == Advanced(old(Now()), works, ready, suspend)
      ensures handled == old(CallAt(Now(), Dispatch(works, ready, suspend)))
    {
      handled := Nothing;
      match phase
      case Applying => Apply(works);
      case Waiting => Wait(ready);
      case Handling => handled := HandleOne(suspend);
      case Destroying => Destroy();
      case _ =>
    }

    // The dispatch thread's next atomic step.
    method Advance(works: bool, ready: seq<nat>, suspend: bool) returns (ok: bool, handled: Option<Handle>)
      requires Valid()
      modifies this
      ensures ok <==> !old(Aborts(Now(), Dispatch(works, ready, suspend)))
      ensures ok ==> Valid() && Now() == Advanced(old(Now()), works, ready, suspend)
      ensures handled == old(CallAt(Now(), Dispatch(works, ready, suspend)))
    {
      ok, handled := true, Nothing;
      if phase == Building || phase == Stopping {
        ok := Build();
      } else {
        handled := Proceed(works, ready, suspend);
      }
    }

    // One action, in any thread.
    method Step(a: Action) returns (ok: bool, handled: Option<Handle>)
      requires Valid()
      modifies this
      ensures ok <==> !old(Aborts(Now(), a))
      ensures ok ==> Valid() && Now() == After(old(Now()), a)
      ensures handled == old(CallAt(Now(), a))
    {
      ok, handled := true, Nothing;
      match a
      case MeventAdd(tfd, typ, func, enough) =>
        var _ := Add(tfd, typ, func, enough);
      case MeventDelete(e, closefd) =>
        if e in store {
          DeleteEvent(e, closefd);
        }
      case CloseFd(fd) => Close(fd);
      case Dispatch(works, ready, suspend) => ok, handled := Advance(works, ready, suspend);
    }

    // The next action of a run.
    method StepOn(actions: seq<Action>, i: nat, before: seq<Handle>, ghost past: seq<View>)
      returns (ok: bool, calls: seq<Handle>, ghost trace: seq<View>)
      requires Valid() && i < |actions| && Recorded(past, actions, before) && |past| == i + 1 && past[i] == Now()
      modifies this
      ensures Recorded(trace, actions, calls) && past <= trace
      ensures |trace| == if ok then i + 2 else i + 1
      ensures ok ==> Valid() && trace[i + 1] == Now()
      ensures ValidView(trace[i]) && (!ok ==> Aborts(trace[i], actions[i]))
    {
      calls, trace := before, past;
      var handled;
      ok, handled := Step(actions[i]);
      if ok {
        RecordedOneMore(past, actions, before, Now());
        calls, trace := before + Once(handled), past + [Now()];
      }
    }

    /**
     * Any interleaving of the dispatch thread with additions, deletions and closes from anywhere.  Every state is
     * valid, the callbacks are those of the states, and the run stops short exactly where the program gives up.
     */
    method Run(actions: seq<Action>) returns (ok: bool, calls: seq<Handle>, ghost trace: seq<View>)
      requires Valid()
      modifies this
      ensures Recorded(trace, actions, calls) && trace[0] == old(Now())
      ensures ok <==> |trace| == |actions| + 1
      ensures ok ==> Valid() && trace[|actions|] == Now()
      ensures ValidView(trace[|trace| - 1])
      ensures !ok ==> Aborts(trace[|trace| - 1], actions[|trace| - 1])
    {
      calls, ok, trace := [], true, [Now()];
      for i := 0 to |actions|
        invariant Valid() && Recorded(trace, actions, calls) && |trace| == i + 1
        invariant trace[0] == old(Now()) && trace[i] == Now()
      {
        ok, calls, trace := StepOn(actions, i, calls, trace);
        if !ok {
          return;
        }
      }
    }
  }
}
