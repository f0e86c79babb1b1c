// Events reach those who asked for them: an added event is registered, stays so, and gets its callback.
module EventDelivery {
  import opened EventLoop
  import opened Options
  import opened Queues

  // What is listed is allocated.
  ghost predicate Whole(v: View) {
    (forall e :: e in v.change ==> e in v.store) && (forall e :: e in v.global ==> e in v.store)
  }

  // ---- from the change list into the kernel ----

  // Event e waits on the change list, and nothing else of its descriptor is known to the loop or to the kernel.
  ghost predicate Alone(v: View, e: Handle, fd: nat) {
    && e in v.store && e in v.change && v.store[e].fd == fd && !v.store[e].deleting && fd !in v.epoll
    && forall x :: x in v.store && x != e ==> v.store[x].fd != fd
  }

  // Nothing of the descriptor is known to the loop or to the kernel.
  ghost predicate Unknown(v: View, fd: nat) {
    fd !in v.epoll && forall x :: x in v.store ==> v.store[x].fd != fd
  }

  /** Adding an event on a descriptor that is not known yet. */
  lemma AddedIsAlone(v: View, fd: nat, typ: EvType)
    requires ValidView(v) && Unknown(v, fd) && typ != Timer
    ensures var w := After(v, MeventAdd(fd, typ, true, true));
      Alone(w, v.issued, fd) && w.store[v.issued].typ == typ && v.issued !in v.store
  {}

  // Until the next pass it stays so, if it is spared and no other event is added on its descriptor.
  lemma StaysAlone(v: View, a: Action, e: Handle, fd: nat)
    requires ValidView(v) && Alone(v, e, fd) && !a.Dispatch? && Spares(v, a, fd)
    requires a.MeventAdd? ==> a.tfd != fd
    ensures Alone(After(v, a), e, fd)
  {}

  // Call p of the list adds e, no other one is about its descriptor, and it has been made or is still to come.
  ghost predicate OnItsWay(v: View, e: Handle, fd: nat, p: nat) {
    && p < |v.clist| && v.clist[p] == CtlEvent(CtlAdd, fd, e)
    && (forall q :: 0 <= q < |v.clist| && q != p ==> v.clist[q].fd != fd)
    && if v.next <= p then fd !in v.epoll else fd in v.epoll && v.epoll[fd] == e
  }

  lemma {:induction false} NotListed(change: seq<Handle>, store: Store, fd: nat)
    requires forall x :: x in change ==> x in store && store[x].fd != fd
    ensures forall q :: 0 <= q < |CallsFor(change, store)| ==> CallsFor(change, store)[q].fd != fd
  {
    if change != [] {
      assert change[0] in change && forall x :: x in change[1..] ==> x in change;
      NotListed(change[1..], store, fd);
    }
  }

  // A pass lists exactly one call about the descriptor of an event that is alone on it: its addition.
  lemma {:induction false} Listed(change: seq<Handle>, store: Store, e: Handle) returns (p: nat)
    requires NoDup(change) && e in change && forall x :: x in change ==> x in store
    requires !store[e].deleting && !store[e].closefd && forall x :: x in change && x != e ==> store[x].fd != store[e].fd
    ensures var c := CallsFor(change, store);
      && p < |c| && c[p] == CtlEvent(CtlAdd, store[e].fd, e)
      && forall q :: 0 <= q < |c| && q != p ==> c[q].fd != store[e].fd
  {
    var x, rest := change[0], change[1..];
    assert forall y :: y in change <==> y == x || y in rest;
    if x == e {
      NotListed(rest, store, store[e].fd);
      p := 0;
    } else {
      var q := Listed(rest, store, e);
      p := |CallFor(x, store[x])| + q;
      assert CallsFor(change, store) == CallFor(x, store[x]) + CallsFor(rest, store);
    }
  }

  lemma PassLists(v: View, e: Handle, fd: nat) returns (p: nat)
    requires ValidView(v) && v.phase == Building && Alone(v, e, fd)
    ensures OnItsWay(Passed(v), e, fd, p) && Passed(v).phase == Applying
  {
    assert FlagsOk(v.store[e], true);
    p := Listed(v.change, v.store, e);
  }

  predicate Working(a: Action, fd: nat) {
    a != CloseFd(fd) && (a.Dispatch? ==> a.works)
  }

  lemma WayStep(v: View, a: Action, e: Handle, fd: nat, p: nat)
    requires Whole(v) && v.phase == Applying && OnItsWay(v, e, fd, p) && Working(a, fd)
    ensures var w := After(v, a);
      OnItsWay(w, e, fd, p) && (w.phase == Waiting ==> fd in w.epoll && w.epoll[fd] == e)
  {}

  // The pass at moment i and its calls, up to the wait at moment j.
  ghost predicate Round(trace: seq<View>, actions: seq<Action>, i: nat, j: nat, fd: nat)
    requires |trace| <= |actions| + 1
  {
    && i < j < |trace| && trace[i].phase == Building && actions[i].Dispatch? && trace[j].phase == Waiting
    && (forall k :: i < k < j ==> trace[k].phase == Applying)
    && (forall k :: i <= k < j ==> Working(actions[k], fd))
  }

  lemma PassAt(trace: seq<View>, actions: seq<Action>, i: nat, e: Handle, fd: nat) returns (p: nat)
    requires Traced(trace, actions) && i + 1 < |trace| && trace[i].phase == Building && actions[i].Dispatch?
    requires Alone(trace[i], e, fd)
    ensures OnItsWay(trace[i + 1], e, fd, p) && trace[i + 1].phase == Applying
  {
    assert TraceStep(trace, actions, i);
    assert Stepped(trace[i], actions[i], trace[i + 1]);
    p := PassLists(trace[i], e, fd);
  }

  lemma WayAt(trace: seq<View>, actions: seq<Action>, k: nat, e: Handle, fd: nat, p: nat)
    requires Traced(trace, actions) && k + 1 < |trace| && trace[k].phase == Applying && OnItsWay(trace[k], e, fd, p)
    requires Working(actions[k], fd)
    ensures OnItsWay(trace[k + 1], e, fd, p)
    ensures trace[k + 1].phase == Waiting ==> fd in trace[k + 1].epoll && trace[k + 1].epoll[fd] == e
  {
    assert TraceStep(trace, actions, k);
    assert Stepped(trace[k], actions[k], trace[k + 1]);
    WayStep(trace[k], actions[k], e, fd, p);
  }

  lemma {:induction false} OnTheWay(trace: seq<View>, actions: seq<Action>, i: nat, j: nat, k: nat, e: Handle, fd: nat)
    returns (p: nat)
    requires Traced(trace, actions) && Round(trace, actions, i, j, fd) && i < k <= j && Alone(trace[i], e, fd)
    ensures OnItsWay(trace[k], e, fd, p) && (k == j ==> fd in trace[k].epoll && trace[k].epoll[fd] == e)
  {
    if k == i + 1 {
      p := PassAt(trace, actions, i, e, fd);
    } else {
      p := OnTheWay(trace, actions, i, j, k - 1, e, fd);
      WayAt(trace, actions, k - 1, e, fd, p);
    }
  }

  /** After a pass and its calls, each of them working, an event that was alone on its descriptor is registered. */
  lemma AddedIsRegistered(trace: seq<View>, actions: seq<Action>, i: nat, j: nat, e: Handle, fd: nat)
    requires Traced(trace, actions) && Round(trace, actions, i, j, fd) && Alone(trace[i], e, fd)
    ensures fd in trace[j].epoll && trace[j].epoll[fd] == e
  {
    var p := OnTheWay(trace, actions, i, j, j, e, fd);
  }

  /** A working call registers its event exactly when no other one is registered under the descriptor. */
  lemma CallRegisters(v: View, a: Action)
    requires Whole(v) && a.Dispatch? && a.works && v.phase == Applying && v.next < |v.clist|
    requires v.clist[v.next].op == CtlAdd
    ensures var c, w := v.clist[v.next], After(v, a);
      c.fd in w.epoll && (w.epoll[c.fd] == c.ptr <==> c.fd !in v.epoll || v.epoll[c.fd] == c.ptr)
  {}

  // ---- how long an event stays registered ----

  // What takes a descriptor out of the kernel's set.
  predicate Drops(v: View, a: Action, fd: nat)
    requires forall x :: x in v.change ==> x in v.store
  {
    || a == CloseFd(fd)
    || (a.Dispatch? &&
        match v.phase
        case Building | Stopping => exists x :: x in v.change && v.store[x].closefd && v.store[x].fd == fd
        case Applying => v.next < |v.clist| && v.clist[v.next].op == CtlDel && v.clist[v.next].fd == fd
        case Destroying => true
        case _ => false)
  }

  /** A registration goes exactly then, and is never replaced by another one. */
  lemma RegistrationLeaves(v: View, a: Action, fd: nat)
    requires Whole(v) && fd in v.epoll
    ensures var w := After(v, a).epoll; (fd !in w <==> Drops(v, a, fd)) && (fd in w ==> w[fd] == v.epoll[fd])
  {
    if a.Dispatch? && (v.phase == Building || v.phase == Stopping) {
      PassCloses(v, fd);
    }
  }

  lemma PassCloses(v: View, fd: nat)
    requires (forall x :: x in v.change ==> x in v.store) && fd in v.epoll
    ensures var w := v.epoll - ClosedBy(v.change, v.store);
      && (fd !in w <==> exists x :: x in v.change && v.store[x].closefd && v.store[x].fd == fd)
      && (fd in w ==> w[fd] == v.epoll[fd])
  {
    assert fd in ClosedBy(v.change, v.store) <==>
           exists x :: x in v.change && v.store[x].closefd && v.store[x].fd == fd;
  }

  /** An event deleted with its descriptor is freed by the next pass, which closes the descriptor. */
  lemma DeletedIsClosed(v: View, e: Handle)
    requires ValidView(v) && e in v.store
    ensures var fd, w := v.store[e].fd, Passed(After(v, MeventDelete(e, true)));
      fd !in w.epoll && e !in w.store && e in w.gone && w.gone[e] == fd
  {
    var u := After(v, MeventDelete(e, true));
    assert e in u.change && u.store[e].closefd && Doomed(u.store[e]);
    if u.store[e].fd in u.epoll {
      PassCloses(u, u.store[e].fd);
    }
  }

  // No outstanding call takes the descriptor out.
  ghost predicate NoRemoval(clist: seq<CtlEvent>, next: nat, fd: nat) {
    forall j :: next <= j < |clist| ==> !(clist[j].op == CtlDel && clist[j].fd == fd)
  }

  // Event e is registered, and nothing that is under way will change that.
  ghost predicate Held(v: View, e: Handle, fd: nat) {
    && e in v.store && v.store[e].fd == fd && fd in v.epoll && v.epoll[fd] == e
    && Wanted(v, fd) && NoRemoval(v.clist, v.next, fd)
  }

  // No event of the descriptor is deleted.
  ghost predicate Wanted(v: View, fd: nat) {
    forall x :: x in v.store && v.store[x].fd == fd ==> !v.store[x].deleting
  }

  // The descriptor is not closed, and no event of it is deleted.
  predicate Spares(v: View, a: Action, fd: nat) {
    a != CloseFd(fd) && (a.MeventDelete? && a.event in v.store ==> v.store[a.event].fd != fd)
  }

  lemma WantedStep(v: View, a: Action, fd: nat)
    requires Whole(v) && Wanted(v, fd) && Spares(v, a, fd)
    ensures Wanted(After(v, a), fd)
  {}

  lemma {:induction false} NoDeletion(change: seq<Handle>, store: Store, fd: nat)
    requires forall x :: x in change ==> x in store && (store[x].fd == fd ==> !store[x].deleting)
    ensures NoRemoval(CallsFor(change, store), 0, fd)
  {
    if change != [] {
      var x, rest := change[0], change[1..];
      assert x in change && forall y :: y in rest ==> y in change;
      NoDeletion(rest, store, fd);
      assert CallsFor(change, store) == CallFor(x, store[x]) + CallsFor(rest, store);
    }
  }

  lemma HeldStep(v: View, a: Action, e: Handle, fd: nat)
    requires ValidView(v) && Held(v, e, fd) && Spares(v, a, fd)
    ensures After(v, a).phase != Finished ==> Held(After(v, a), e, fd)
  {
    WantedStep(v, a, fd);
    if a.Dispatch? && (v.phase == Building || v.phase == Stopping) {
      HeldPass(v, e, fd);
    } else {
      HeldOtherwise(v, a, e, fd);
    }
  }

  lemma HeldOtherwise(v: View, a: Action, e: Handle, fd: nat)
    requires Whole(v) && Held(v, e, fd) && Spares(v, a, fd) && e < v.issued
    requires a.Dispatch? ==> v.phase != Building && v.phase != Stopping
    ensures var w := After(v, a); w.phase != Finished ==>
      && e in w.store && w.store[e].fd == fd && fd in w.epoll && w.epoll[fd] == e
      && NoRemoval(w.clist, w.next, fd)
  {}

  lemma HeldPass(v: View, e: Handle, fd: nat)
    requires ValidView(v) && Held(v, e, fd)
    ensures var w := Passed(v);
      e in w.store && w.store[e].fd == fd && fd in w.epoll && w.epoll[fd] == e && NoRemoval(w.clist, w.next, fd)
  {
    NoDeletion(v.change, v.store, fd);
    PassCloses(v, fd);
    forall x | x in v.change ensures !(v.store[x].closefd && v.store[x].fd == fd) {
      assert FlagsOk(v.store[x], true);
    }
  }

  // From moment i up to moment j the descriptor is not closed and no event of it is deleted.
  ghost predicate SparedFor(trace: seq<View>, actions: seq<Action>, i: nat, j: nat, fd: nat)
    requires j < |trace| <= |actions| + 1
  {
    forall k :: i <= k < j ==> Spares(trace[k], actions[k], fd) && trace[k].phase != Finished
  }

  lemma HeldAt(trace: seq<View>, actions: seq<Action>, k: nat, e: Handle, fd: nat)
    requires Traced(trace, actions) && k + 1 < |trace| && Held(trace[k], e, fd) && Spares(trace[k], actions[k], fd)
    requires trace[k + 1].phase != Finished
    ensures Held(trace[k + 1], e, fd)
  {
    assert TraceStep(trace, actions, k);
    assert Stepped(trace[k], actions[k], trace[k + 1]);
    HeldStep(trace[k], actions[k], e, fd);
  }

  lemma WantedAt(trace: seq<View>, actions: seq<Action>, k: nat, fd: nat)
    requires Traced(trace, actions) && k + 1 < |trace| && Wanted(trace[k], fd) && Spares(trace[k], actions[k], fd)
    ensures Wanted(trace[k + 1], fd)
  {
    assert TraceStep(trace, actions, k);
    assert Stepped(trace[k], actions[k], trace[k + 1]);
    WantedStep(trace[k], actions[k], fd);
  }

  lemma ValidAt(trace: seq<View>, actions: seq<Action>, k: nat)
    requires Traced(trace, actions) && k < |trace|
    ensures ValidView(trace[k])
  {
    if k > 0 {
      assert TraceStep(trace, actions, k - 1);
      assert Stepped(trace[k - 1], actions[k - 1], trace[k]);
    }
  }

  /** A registered event stays registered until its descriptor is closed, an event of it deleted, or the loop ends. */
  lemma {:induction false} StaysRegistered(trace: seq<View>, actions: seq<Action>, i: nat, j: nat, e: Handle, fd: nat)
    requires Traced(trace, actions) && i <= j < |trace| && Held(trace[i], e, fd)
    requires SparedFor(trace, actions, i, j, fd) && trace[j].phase != Finished
    ensures Held(trace[j], e, fd)
  {
    if i < j {
      StaysRegistered(trace, actions, i, j - 1, e, fd);
      HeldAt(trace, actions, j - 1, e, fd);
    }
  }

  lemma {:induction false} StaysWanted(trace: seq<View>, actions: seq<Action>, i: nat, j: nat, fd: nat)
    requires Traced(trace, actions) && i <= j < |trace| && Wanted(trace[i], fd) && SparedFor(trace, actions, i, j, fd)
    ensures Wanted(trace[j], fd)
  {
    if i < j {
      StaysWanted(trace, actions, i, j - 1, fd);
      WantedAt(trace, actions, j - 1, fd);
    }
  }

  // At the wait no call is outstanding and nothing freed is registered.
  lemma WaitHolds(v: View, e: Handle, fd: nat)
    requires ValidView(v) && v.phase == Waiting && fd in v.epoll && v.epoll[fd] == e && Wanted(v, fd)
    ensures Held(v, e, fd)
  {}

  /** An added event is registered by the next pass and its calls, and from then on, as long as it is spared. */
  lemma AddedIsHeld(trace: seq<View>, actions: seq<Action>, i: nat, j: nat, n: nat, e: Handle, fd: nat)
    requires Traced(trace, actions) && Round(trace, actions, i, j, fd) && Alone(trace[i], e, fd)
    requires j <= n < |trace| && SparedFor(trace, actions, i, n, fd) && trace[n].phase != Finished
    ensures Held(trace[n], e, fd)
  {
    AddedIsRegistered(trace, actions, i, j, e, fd);
    StaysWanted(trace, actions, i, j, fd);
    ValidAt(trace, actions, j);
    WaitHolds(trace[j], e, fd);
    StaysRegistered(trace, actions, j, n, e, fd);
  }

  /** Two events share a descriptor: deleting the one takes the other, which nobody deleted, out of the kernel's set. */
  lemma SiblingDropped(v: View)
    requires v.store == map[0 := Mevent(5, Read, false, false, false), 1 := Mevent(5, Write, true, true, false)]
    requires v.issued == 2 && v.global == [0] && v.change == [1] && v.epoll == map[5 := 0] && v.gone == map[]
    requires v.clist == [] && v.next == 0 && v.phase == Building
    ensures ValidView(v) && v.epoll[5] == 0
    ensures var w := Passed(v); w.clist == [CtlEvent(CtlDel, 5, 1)] && 0 in w.store && !w.store[0].deleting
    ensures 5 !in Applied(Passed(v).epoll, Passed(v).clist[0], true)
  {
    assert CallsFor([1], v.store) == CallFor(1, v.store[1]) + CallsFor([], v.store);
    assert NoDup([0]) && NoDup([1]);
  }

  // ---- from the kernel to the callback ----

  // How many of the ready descriptors are registered.
  function Reports(epoll: Epoll, ready: seq<nat>): nat {
    if ready == [] then 0
    else Reports(epoll, ready[..|ready| - 1]) + if ready[|ready| - 1] in epoll then 1 else 0
  }

  lemma {:induction false} PolledCount(epoll: Epoll, ready: seq<nat>)
    ensures |Polled(epoll, ready)| == if Reports(epoll, ready) < MEVENT_MAX then Reports(epoll, ready) else MEVENT_MAX
  {
    if ready != [] {
      PolledCount(epoll, ready[..|ready| - 1]);
    }
  }

  // A descriptor with fewer than MEVENT_MAX reports before it is reported.
  lemma {:induction false} IsReported(epoll: Epoll, ready: seq<nat>, p: nat)
    requires p < |ready| && ready[p] in epoll && Reports(epoll, ready[..p]) < MEVENT_MAX
    ensures var m, r := Reports(epoll, ready[..p]), Polled(epoll, ready); m < |r| && r[m] == epoll[ready[p]]
  {
    var last := |ready| - 1;
    PolledCount(epoll, ready[..last]);
    if p < last {
      assert ready[..last][..p] == ready[..p];
      IsReported(epoll, ready[..last], p);
    }
  }

  // The callback for e is made between moments i and j.
  ghost predicate CalledBetween(trace: seq<View>, actions: seq<Action>, i: nat, j: nat, e: Handle)
    requires j <= |trace| && j <= |actions|
  {
    exists k :: i <= k < j && CallAt(trace[k], actions[k]) == Just(e)
  }

  // The wait at moment i and the handling of what it reports, up to moment j.
  ghost predicate Handles(trace: seq<View>, actions: seq<Action>, i: nat, j: nat)
    requires |trace| <= |actions| + 1
  {
    && i + 1 < j < |trace| && trace[i].phase == Waiting && actions[i].Dispatch? && trace[j].phase != Handling
    && forall k :: i < k < j ==> trace[k].phase == Handling
  }

  lemma HandlingStep(v: View, a: Action, w: View)
    requires Stepped(v, a, w) && v.phase == Handling
    ensures w.phase == Handling ==> w.reported == v.reported && w.at == if CallAt(v, a).Just? then v.at + 1 else v.at
    ensures CallAt(v, a).Just? ==> v.at < |v.reported| && CallAt(v, a) == Just(v.reported[v.at])
    ensures w.phase != Handling ==> v.at == |v.reported|
  {}

  lemma WaitStep(v: View, a: Action, w: View)
    requires Stepped(v, a, w) && v.phase == Waiting && a.Dispatch?
    ensures w.phase == Handling && w.reported == Polled(v.epoll, a.ready) && w.at == 0
  {}

  lemma WaitAt(trace: seq<View>, actions: seq<Action>, i: nat)
    requires Traced(trace, actions) && i + 1 < |trace| && trace[i].phase == Waiting && actions[i].Dispatch?
    ensures trace[i + 1].reported == Polled(trace[i].epoll, actions[i].ready) && trace[i + 1].at == 0
  {
    assert TraceStep(trace, actions, i);
    WaitStep(trace[i], actions[i], trace[i + 1]);
  }

  lemma HandlingAt(trace: seq<View>, actions: seq<Action>, k: nat)
    requires Traced(trace, actions) && k + 1 < |trace| && trace[k].phase == Handling
    ensures var v, w, call := trace[k], trace[k + 1], CallAt(trace[k], actions[k]);
      && (w.phase == Handling ==> w.reported == v.reported && w.at == if call.Just? then v.at + 1 else v.at)
      && (call.Just? ==> v.at < |v.reported| && call == Just(v.reported[v.at]))
      && (w.phase != Handling ==> v.at == |v.reported|)
  {
    assert TraceStep(trace, actions, k);
    HandlingStep(trace[k], actions[k], trace[k + 1]);
  }

  // What is reported stays the same while it is handled.
  lemma {:induction false} SameReports(trace: seq<View>, actions: seq<Action>, i: nat, j: nat, k: nat)
    requires Traced(trace, actions) && Handles(trace, actions, i, j) && i < k < j
    ensures trace[k].reported == Polled(trace[i].epoll, actions[i].ready)
  {
    if k > i + 1 {
      SameReports(trace, actions, i, j, k - 1);
      HandlingAt(trace, actions, k - 1);
    } else {
      WaitAt(trace, actions, i);
    }
  }

  // Everything reported before the cursor has had its callback.
  lemma {:induction false} CalledSoFar(trace: seq<View>, actions: seq<Action>, i: nat, j: nat, k: nat, m: nat)
    requires Traced(trace, actions) && Handles(trace, actions, i, j) && i < k < j && m < trace[k].at
    ensures m < |Polled(trace[i].epoll, actions[i].ready)|
    ensures CalledBetween(trace, actions, i + 1, k, Polled(trace[i].epoll, actions[i].ready)[m])
  {
    if k == i + 1 {
      WaitAt(trace, actions, i);
    } else {
      HandlingAt(trace, actions, k - 1);
      SameReports(trace, actions, i, j, k - 1);
      if m < trace[k - 1].at {
        CalledSoFar(trace, actions, i, j, k - 1, m);
        CalledLater(trace, actions, i + 1, k - 1, k, Polled(trace[i].epoll, actions[i].ready)[m]);
      }
    }
  }

  lemma CalledLater(trace: seq<View>, actions: seq<Action>, i: nat, j: nat, k: nat, e: Handle)
    requires j <= k <= |trace| && k <= |actions| && CalledBetween(trace, actions, i, j, e)
    ensures CalledBetween(trace, actions, i, k, e)
  {
    var x :| i <= x < j && CallAt(trace[x], actions[x]) == Just(e);
  }

  // The handling ends when everything reported has had its callback.
  lemma AllCalled(trace: seq<View>, actions: seq<Action>, i: nat, j: nat, m: nat)
    requires Traced(trace, actions) && Handles(trace, actions, i, j)
    requires m < |Polled(trace[i].epoll, actions[i].ready)|
    ensures CalledBetween(trace, actions, i + 1, j, Polled(trace[i].epoll, actions[i].ready)[m])
  {
    HandlingAt(trace, actions, j - 1);
    SameReports(trace, actions, i, j, j - 1);
    CalledSoFar(trace, actions, i, j, j - 1, m);
    CalledLater(trace, actions, i + 1, j - 1, j, Polled(trace[i].epoll, actions[i].ready)[m]);
  }

  /** A registered event whose descriptor is ready, with fewer than MEVENT_MAX reports before it, gets its callback. */
  lemma ReadyIsCalled(trace: seq<View>, actions: seq<Action>, i: nat, j: nat, fd: nat, p: nat)
    requires Traced(trace, actions) && Handles(trace, actions, i, j) && fd in trace[i].epoll
    requires p < |actions[i].ready| && actions[i].ready[p] == fd
    requires Reports(trace[i].epoll, actions[i].ready[..p]) < MEVENT_MAX
    ensures CalledBetween(trace, actions, i + 1, j, trace[i].epoll[fd])
  {
    IsReported(trace[i].epoll, actions[i].ready, p);
    AllCalled(trace, actions, i, j, Reports(trace[i].epoll, actions[i].ready[..p]));
  }

  /**
   * From the change list to the callback: an event that was alone on its descriptor when a pass began gets its
   * callback in every later round in which the descriptor is ready early enough, as long as it is spared.
   */
  lemma AddedIsCalled(trace: seq<View>, actions: seq<Action>, i: nat, j: nat, n: nat, m: nat,
                      e: Handle, fd: nat, p: nat)
    requires Traced(trace, actions) && Round(trace, actions, i, j, fd) && Alone(trace[i], e, fd)
    requires j <= n < |trace| && SparedFor(trace, actions, i, n, fd) && Handles(trace, actions, n, m)
    requires p < |actions[n].ready| && actions[n].ready[p] == fd
    requires Reports(trace[n].epoll, actions[n].ready[..p]) < MEVENT_MAX
    ensures CalledBetween(trace, actions, n + 1, m, e)
  {
    AddedIsHeld(trace, actions, i, j, n, e, fd);
    ReadyIsCalled(trace, actions, n, m, fd, p);
  }
}
