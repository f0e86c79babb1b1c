// MMIO dispatch: a main tree and a fallback tree of address ranges, and a one-entry lookup cache.
module MmioDispatch {
  import opened MemoryRanges
  import opened RedBlackTree

  ghost function Params(nodes: set<Node>): set<MemRange> {
    set n | n in nodes :: n.param
  }

  // Every node stands for a range that is non-empty and does not wrap.
  ghost predicate Proper(nodes: set<Node>) {
    forall n :: n in nodes ==> RangeOk(n.param)
  }

  // The ranges of a grown set of nodes.
  lemma ParamsAdd(nodes: set<Node>, n: Node)
    ensures Params(nodes + {n}) == Params(nodes) + {n.param}
  {
    var grown := Params(nodes + {n});
    assert n in nodes + {n};
    forall m | m in nodes ensures m.param in grown {
      assert m in nodes + {n};
    }
  }

  lemma ParamsRemove(nodes: set<Node>, n: Node)
    requires n in nodes && forall m :: m in nodes && m != n ==> m.param != n.param
    ensures Params(nodes - {n}) == Params(nodes) - {n.param}
  {
    forall m | m in nodes && m != n ensures m.param in Params(nodes - {n}) {
      assert m in nodes - {n};
    }
  }

  class Dispatcher {
    const main: Tree
    const fallback: Tree
    var hint: Node?

    ghost predicate Valid()
      reads this, main, fallback, main.nodes, fallback.nodes
    {
      && main != fallback && main.nodes !! fallback.nodes
      && main.Valid() && fallback.Valid() && Proper(main.nodes) && Proper(fallback.nodes)
      && (hint != null ==> hint in main.nodes)
    }

    // What is registered, as a pair of sets.
    ghost function View(): World
      reads this, main, fallback
    {
      World(Params(main.nodes), Params(fallback.nodes))
    }

    constructor ()
      ensures Valid() && View() == World({}, {})
      ensures fresh(main) && fresh(fallback) && main.nodes == {} == fallback.nodes
    {
      main := new Tree();
      fallback := new Tree();
      hint := null;
    }

    // The range that covers an address.
    static method Lookup(t: Tree, addr: nat) returns (entry: Node?)
      requires t.Valid() && Proper(t.nodes)
      ensures entry == null <==> !Covered(Params(t.nodes), addr)
      ensures entry != null ==> entry in t.nodes && entry.param in Params(t.nodes) && entry.param.Covers(addr)
    {
      entry := t.Find(addr, addr);
      if entry == null {
        forall r | r in Params(t.nodes) ensures !r.Covers(addr) {
          var n :| n in t.nodes && n.param == r;
          assert t.Compare(addr, addr, n) != 0;
        }
      } else {
        assert entry.param in Params(t.nodes) && entry.param.Covers(addr);
      }
    }

    // An access: the cached range if it covers the address, else the main tree, else the fallback tree.
    method EmulateMem(addr: nat) returns (r: Result)
      requires Valid()
      modifies this`hint
      ensures Valid() && View() == old(View())
      ensures Answers(View(), addr, r)
    {
      var entry: Node? := null;
      if hint != null && addr >= hint.base && addr <= hint.end {
        entry := hint;
      }
      if entry == null {
        entry := Lookup(main, addr);
        if entry != null {
          hint := entry;
        } else {
          entry := Lookup(fallback, addr);
          if entry == null {
            return NotFound;
          }
        }
      }
      r := Handled(entry.param);
    }

    // Insertion, refused on overlap.
    static method Add(t: Tree, mrp: Node) returns (added: bool)
      requires t.Valid() && Proper(t.nodes) && mrp !in t.nodes && RangeOk(mrp.param)
      modifies t, t.nodes, mrp
      ensures t.Valid() && Proper(t.nodes) && t.nodes == if added then old(t.nodes) + {mrp} else old(t.nodes)
      ensures added <==> !Clashes(old(Params(t.nodes)), mrp.param)
    {
      ghost var before := t.nodes;
      var overlap := t.Insert(mrp);
      if overlap != null {
        assert overlap.param in Params(before) && Overlap(overlap.param, mrp.param);
      } else {
        forall r | r in Params(before) ensures !Overlap(r, mrp.param) {
          var n :| n in before && n.param == r;
          assert t.Compare(mrp.base, mrp.end, n) != 0;
        }
      }
      added := overlap == null;
    }

    // Registration of an allocated entry.
    static method Place(t: Tree, mrp: Node) returns (r: Result)
      requires t.Valid() && Proper(t.nodes) && mrp !in t.nodes && RangeOk(mrp.param)
      modifies t, t.nodes, mrp
      ensures t.Valid() && Proper(t.nodes) && old(t.nodes) <= t.nodes <= old(t.nodes) + {mrp}
      ensures Registers(old(Params(t.nodes)), mrp.param, true, Params(t.nodes), r)
    {
      ParamsAdd(t.nodes, mrp);
      var entry := Lookup(t, mrp.param.base);
      r := Success;
      if entry == null {
        var added := Add(t, mrp);
        if !added {
          r := Failure;
        }
      }
    }

    // Registration in one of the trees.
    static method RegisterIn(t: Tree, m: MemRange, enough: bool) returns (r: Result)
      requires t.Valid() && Proper(t.nodes) && RangeOk(m)
      modifies t, t.nodes
      ensures t.Valid() && Proper(t.nodes) && old(t.nodes) <= t.nodes && fresh(t.nodes - old(t.nodes))
      ensures Registers(old(Params(t.nodes)), m, enough, Params(t.nodes), r)
    {
      if !enough {
        return Failure;
      }
      var mrp := new Node(m);
      r := Place(t, mrp);
    }

    // Registration in the main tree.
    method RegisterMem(m: MemRange, enough: bool) returns (r: Result)
      requires Valid() && RangeOk(m)
      modifies main, main.nodes
      ensures Valid() && Registers(old(View().main), m, enough, View().main, r)
      ensures View().fallback == old(View().fallback)
      ensures hint == old(hint) && fresh(main.nodes - old(main.nodes)) && fallback.nodes == old(fallback.nodes)
    {
      r := RegisterIn(main, m, enough);
    }

    // Registration in the fallback tree.
    method RegisterMemFallback(m: MemRange, enough: bool) returns (r: Result)
      requires Valid() && RangeOk(m)
      modifies fallback, fallback.nodes
      ensures Valid() && Registers(old(View().fallback), m, enough, View().fallback, r)
      ensures View().main == old(View().main)
      ensures hint == old(hint) && fresh(fallback.nodes - old(fallback.nodes)) && main.nodes == old(main.nodes)
    {
      r := RegisterIn(fallback, m, enough);
    }

    // Distinct nodes of a tree hold distinct ranges.
    static lemma ParamsDiffer(t: Tree, n: Node, m: Node)
      requires t.Valid() && Proper(t.nodes) && n in t.nodes && m in t.nodes && n != m
      ensures n.param != m.param
    {
      assert t.order[n.pos] == n && t.order[m.pos] == m;
    }

    /** What is registered is always pairwise disjoint, in both trees. */
    lemma ViewOk()
      requires Valid()
      ensures WorldOk(View())
    {
      TreeDisjoint(main);
      TreeDisjoint(fallback);
    }

    static lemma TreeDisjoint(t: Tree)
      requires t.Valid() && Proper(t.nodes)
      ensures Disjoint(Params(t.nodes))
    {
      forall a, b | a in Params(t.nodes) && b in Params(t.nodes) && Overlap(a, b) ensures a == b {
        var n :| n in t.nodes && n.param == a;
        var m :| m in t.nodes && m.param == b;
        assert t.order[n.pos] == n && t.order[m.pos] == m;
      }
    }

    static method RemoveFrom(t: Tree, entry: Node)
      requires t.Valid() && Proper(t.nodes) && entry in t.nodes
      modifies t, t.nodes
      ensures t.Valid() && Proper(t.nodes) && t.nodes == old(t.nodes) - {entry}
      ensures Params(t.nodes) == old(Params(t.nodes)) - {entry.param}
    {
      forall m | m in t.nodes && m != entry ensures m.param != entry.param {
        ParamsDiffer(t, entry, m);
      }
      ParamsRemove(t.nodes, entry);
      t.Remove(entry);
    }

    // Removal from the main tree, which also drops the entry from the cache.
    method UnregisterMem(m: MemRange) returns (r: Result)
      requires Valid()
      modifies this`hint, main, main.nodes
      ensures Valid() && Unregisters(old(View().main), m, View().main, r) && View().fallback == old(View().fallback)
      ensures main.nodes <= old(main.nodes) && fallback.nodes == old(fallback.nodes)
    {
      var entry := Lookup(main, m.base);
      if entry == null {
        return Failure;
      }
      var mr := entry.param;
      if mr.name != m.name || mr.base != m.base || mr.size != m.size || mr.immutable {
        assert Removes(View().main, m, mr, View().main, Aborted);
        return Aborted;
      }
      RemoveFrom(main, entry);
      if hint == entry {
        hint := null;
      }
      assert Removes(old(View().main), m, mr, View().main, Success);
      r := Success;
    }

    // One event.
    method Step(e: Event) returns (r: Result)
      requires Valid() && EventOk(e)
      modifies this, main, fallback, main.nodes, fallback.nodes
      ensures Valid() && Steps(old(View()), e, View(), r)
      ensures fresh(main.nodes - old(main.nodes)) && fresh(fallback.nodes - old(fallback.nodes))
    {
      match e
      case Register(m, enough) => r := RegisterMem(m, enough);
      case RegisterFallback(m, enough) => r := RegisterMemFallback(m, enough);
      case Unregister(m) => r := UnregisterMem(m);
      case Access(addr) => r := EmulateMem(addr);
    }

    // The dispatcher is valid.  The quantifier keeps what that means out of proofs that only hand it on.
    ghost predicate Good()
      reads this, main, fallback, main.nodes, fallback.nodes
    {
      forall d: Dispatcher :: d == this ==> d.Valid()
    }

    // Event i of a history.
    method StepOn(events: seq<Event>, i: nat, before: seq<Result>, ghost past: seq<World>)
      returns (results: seq<Result>, ghost worlds: seq<World>)
      requires Good() && i < |events| && EventOk(events[i])
      requires RunOk(past, events[..i], before) && past[i] == View()
      modifies this, main, fallback, main.nodes, fallback.nodes
      ensures Good() && RunOk(worlds, events[..i + 1], results) && worlds[0] == past[0] && worlds[i + 1] == View()
      ensures fresh(main.nodes - old(main.nodes)) && fresh(fallback.nodes - old(fallback.nodes))
    {
      var r := Step(events[i]);
      assert events[..i + 1] == events[..i] + [events[i]];
      RunExtends(past, events[..i], before, events[i], View(), r);
      results, worlds := before + [r], past + [View()];
    }

    // Every history agrees with the sets: same results, same registered ranges.
    method Run(events: seq<Event>) returns (results: seq<Result>, ghost worlds: seq<World>)
      requires Valid() && forall i :: 0 <= i < |events| ==> EventOk(events[i])
      modifies this, main, fallback, main.nodes, fallback.nodes
      ensures Valid()
      ensures RunOk(worlds, events, results) && worlds[0] == old(View()) && worlds[|events|] == View()
    {
      results, worlds := [], [View()];
      for i := 0 to |events|
        invariant Good() && fresh(main.nodes - old(main.nodes)) && fresh(fallback.nodes - old(fallback.nodes))
        invariant RunOk(worlds, events[..i], results) && worlds[0] == old(View()) && worlds[i] == View()
      {
        results, worlds := StepOn(events, i, results, worlds);
      }
      assert events[..|events|] == events;
    }
  }
}
