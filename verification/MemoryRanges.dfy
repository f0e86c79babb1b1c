// What MMIO dispatch is for, without trees or caches: two sets of address ranges and the steps that
// registration, removal and access take on them.
module MemoryRanges {
  const TWO_64 := 0x1_0000_0000_0000_0000

  /** A registered range: who asked for it, whether it may be removed, what its handler is given, and its addresses. */
  datatype MemRange = MemRange(name: string, immutable: bool, dev: nat, arg: nat, base: nat, size: nat) {
    // The last address covered.
    function End(): int {
      base + size - 1
    }

    predicate Covers(addr: nat) {
      base <= addr <= End()
    }
  }

  // Non-empty and not wrapping past the top of the address space.
  predicate RangeOk(r: MemRange) {
    0 < r.size && r.base + r.size <= TWO_64
  }

  predicate Overlap(a: MemRange, b: MemRange) {
    a.base <= b.End() && b.base <= a.End()
  }

  // Ranges that the other ranges of the set stay clear of.
  ghost predicate Disjoint(s: set<MemRange>) {
    forall a, b :: a in s && b in s && Overlap(a, b) ==> a == b
  }

  ghost predicate Covered(s: set<MemRange>, addr: nat) {
    exists r :: r in s && r.Covers(addr)
  }

  ghost predicate Clashes(s: set<MemRange>, m: MemRange) {
    exists r :: r in s && Overlap(r, m)
  }

  datatype World = World(main: set<MemRange>, fallback: set<MemRange>)

  ghost predicate WorldOk(w: World) {
    && Disjoint(w.main)
    && Disjoint(w.fallback)
    && (forall r :: r in w.main || r in w.fallback ==> RangeOk(r))
  }

  // 'enough' says whether the allocation of the new tree entry succeeds.
  datatype Event =
    | Register(range: MemRange, enough: bool)
    | RegisterFallback(range: MemRange, enough: bool)
    | Unregister(range: MemRange)
    | Access(addr: nat)

  datatype Result =
    | Success
    | Failure
    | Aborted                     // an assertion of the caller's good behaviour failed
    | NotFound                    // -ESRCH
    | Handled(range: MemRange)    // the handler of this range is called

  ghost predicate EventOk(e: Event) {
    e.Register? || e.RegisterFallback? ==> RangeOk(e.range)
  }

  /**
   * Registering 'm' in the set 's'.  A base address that is already covered drops the request and still
   * reports success; any other overlap is refused.
   */
  ghost predicate Registers(s: set<MemRange>, m: MemRange, enough: bool, s': set<MemRange>, r: Result) {
    if !enough then s' == s && r == Failure
    else if Covered(s, m.base) then s' == s && r == Success
    else if Clashes(s, m) then s' == s && r == Failure
    else s' == s + {m} && r == Success
  }

  // The range found at the base of 'm' must be the one the caller means, and removable.
  predicate Meant(found: MemRange, m: MemRange) {
    found.name == m.name && found.base == m.base && found.size == m.size && !found.immutable
  }

  ghost predicate Unregisters(s: set<MemRange>, m: MemRange, s': set<MemRange>, r: Result) {
    if !Covered(s, m.base) then s' == s && r == Failure
    else exists found :: found in s && found.Covers(m.base) && Removes(s, m, found, s', r)
  }

  ghost predicate Removes(s: set<MemRange>, m: MemRange, found: MemRange, s': set<MemRange>, r: Result) {
    if Meant(found, m) then s' == s - {found} && r == Success else s' == s && r == Aborted
  }

  // The main set answers first, the fallback set only for addresses the main set does not cover.
  ghost predicate Answers(w: World, addr: nat, r: Result) {
    if Covered(w.main, addr) then r.Handled? && r.range in w.main && r.range.Covers(addr)
    else if Covered(w.fallback, addr) then r.Handled? && r.range in w.fallback && r.range.Covers(addr)
    else r == NotFound
  }

  ghost predicate Steps(w: World, e: Event, w': World, r: Result) {
    match e
    case Register(m, enough) => Registers(w.main, m, enough, w'.main, r) && w'.fallback == w.fallback
    case RegisterFallback(m, enough) => Registers(w.fallback, m, enough, w'.fallback, r) && w'.main == w.main
    case Unregister(m) => Unregisters(w.main, m, w'.main, r) && w'.fallback == w.fallback
    case Access(addr) => Answers(w, addr, r) && w' == w
  }

  lemma CoverIsUnique(s: set<MemRange>, addr: nat, a: MemRange, b: MemRange)
    requires Disjoint(s) && a in s && b in s && a.Covers(addr) && b.Covers(addr)
    ensures a == b
  {
    assert Overlap(a, b);
  }

  /** Ranges stay pairwise disjoint whatever is registered, removed or accessed. */
  lemma StepKeepsWorld(w: World, e: Event, w': World, r: Result)
    requires WorldOk(w) && EventOk(e) && Steps(w, e, w', r)
    ensures WorldOk(w')
  {}

  /**
   * Success does not always mean registered: it does if and only if the base was not covered by another range
   * before the call.
   */
  lemma SuccessMeansRegistered(s: set<MemRange>, m: MemRange, enough: bool, s': set<MemRange>, r: Result)
    requires RangeOk(m) && Registers(s, m, enough, s', r)
    ensures (r == Success ==> m in s') <==> (enough && Covered(s, m.base) ==> m in s)
  {}

  // A range 4K long is dropped, with success, under a range that covers its base.
  lemma DroppedWithSuccess()
    ensures var big, small := MemRange("big", false, 1, 0, 0, 0x2000), MemRange("small", false, 2, 0, 0x1000, 0x1000);
      Registers({big}, small, true, {big}, Success) && small !in {big}
  {
    var big := MemRange("big", false, 1, 0, 0, 0x2000);
    assert big.Covers(0x1000);
    assert "big"[0] != "small"[0];
  }

  /** Every event has one outcome: which range answers, and what is registered afterwards. */
  lemma StepIsDetermined(w: World, e: Event, w1: World, r1: Result, w2: World, r2: Result)
    requires WorldOk(w) && Steps(w, e, w1, r1) && Steps(w, e, w2, r2)
    ensures w1 == w2 && r1 == r2
  {
    match e
    case Register(_, _) =>
    case RegisterFallback(_, _) =>
    case Unregister(m) =>
      if Covered(w.main, m.base) {
        var found :| found in w.main && found.Covers(m.base);
        forall other | other in w.main && other.Covers(m.base) ensures other == found {
          CoverIsUnique(w.main, m.base, other, found);
        }
      }
    case Access(addr) =>
      if Covered(w.main, addr) {
        CoverIsUnique(w.main, addr, r1.range, r2.range);
      } else if Covered(w.fallback, addr) {
        CoverIsUnique(w.fallback, addr, r1.range, r2.range);
      }
  }

  // A run: the worlds passed through, the events taken and their results.
  ghost predicate RunOk(worlds: seq<World>, events: seq<Event>, results: seq<Result>) {
    && |worlds| == |events| + 1
    && |results| == |events|
    && (forall i :: 0 <= i < |events| ==> Steps(worlds[i], events[i], worlds[i + 1], results[i]))
  }

  lemma RunExtends(worlds: seq<World>, events: seq<Event>, results: seq<Result>, e: Event, w: World, r: Result)
    requires RunOk(worlds, events, results) && Steps(worlds[|events|], e, w, r)
    ensures RunOk(worlds + [w], events + [e], results + [r])
  {}

  lemma {:induction false} RunKeepsWorld(worlds: seq<World>, events: seq<Event>, results: seq<Result>, k: nat)
    requires RunOk(worlds, events, results) && k <= |events| && WorldOk(worlds[0])
    requires forall i :: 0 <= i < |events| ==> EventOk(events[i])
    ensures WorldOk(worlds[k])
  {
    if k > 0 {
      RunKeepsWorld(worlds, events, results, k - 1);
      StepKeepsWorld(worlds[k - 1], events[k - 1], worlds[k], results[k - 1]);
    }
  }

  /** Two runs of the same events from the same world agree in every result and every world. */
  lemma {:induction false} RunIsDetermined(ws1: seq<World>, rs1: seq<Result>, ws2: seq<World>, rs2: seq<Result>,
                                           events: seq<Event>, k: nat)
    requires RunOk(ws1, events, rs1) && RunOk(ws2, events, rs2) && k <= |events|
    requires ws1[0] == ws2[0] && WorldOk(ws1[0])
    requires forall i :: 0 <= i < |events| ==> EventOk(events[i])
    ensures ws1[k] == ws2[k] && rs1[..k] == rs2[..k]
  {
    if k > 0 {
      RunIsDetermined(ws1, rs1, ws2, rs2, events, k - 1);
      RunKeepsWorld(ws1, events, rs1, k - 1);
      StepIsDetermined(ws1[k - 1], events[k - 1], ws1[k], rs1[k - 1], ws2[k], rs2[k - 1]);
      assert rs1[..k] == rs1[..k - 1] + [rs1[k - 1]];
    }
  }
}
