// The ranges that PCI functions have registered, on top of MMIO dispatch and the port table.
module Interception {
  import opened IoPorts
  import opened MemoryRanges
  import opened MmioDispatch

  /** A range registered for interception: the function and the BAR it stands for, and its addresses. */
  datatype Range = Range(owner: nat, idx: nat, base: nat, size: nat)

  const PCI_HANDLER := 1

  predicate Apart(a: Range, b: Range) {
    a.base + a.size <= b.base || b.base + b.size <= a.base
  }

  predicate Clear(r: Range, space: set<Range>) {
    forall q :: q in space ==> Apart(r, q)
  }

  predicate Holds(r: Range, x: nat) {
    r.base <= x < r.base + r.size
  }

  predicate Fits(r: Range, top: nat) {
    0 < r.size && r.base + r.size <= top
  }

  // What is registered in one address space.
  ghost predicate Separate(space: set<Range>, top: nat) {
    && (forall r :: r in space ==> Fits(r, top))
    && (forall a, b :: a in space && b in space && a != b ==> Apart(a, b))
  }

  // The registration of a memory range.  Functions have names, and the handler gets function and BAR as arguments.
  function MemOf(names: nat -> string, r: Range): MemRange {
    MemRange(names(r.owner), false, r.owner, r.idx, r.base, r.size)
  }

  ghost function MemImage(names: nat -> string, space: set<Range>): set<MemRange> {
    set r | r in space :: MemOf(names, r)
  }

  // The registration of an I/O range.  The handler gets the function.
  function PortOf(names: nat -> string, r: Range): PortRange {
    PortRange(r.base, r.size, Entry(names(r.owner), true, true, false, PCI_HANDLER, r.owner))
  }

  ghost function PortImage(names: nat -> string, space: set<Range>): set<PortRange> {
    set r | r in space :: PortOf(names, r)
  }

  // Some registered range holds this address.
  predicate Occupied(space: set<Range>, x: nat) {
    exists q :: q in space && Holds(q, x)
  }

  function Added(space: set<Range>, r: Range): set<Range> {
    if Clear(r, space) then space + {r} else space
  }

  /** A range is registered exactly when it is clear of the others; it is dropped with success if its base is taken. */
  lemma MemImageAdd(names: nat -> string, space: set<Range>, r: Range, s: set<MemRange>, res: Result)
    requires Separate(space, TWO_64) && Fits(r, TWO_64)
    requires Registers(MemImage(names, space), MemOf(names, r), true, s, res)
    ensures s == MemImage(names, Added(space, r)) && Separate(Added(space, r), TWO_64)
    ensures res == if Clear(r, space) || Occupied(space, r.base) then Success else Failure
  {
    var image, m := MemImage(names, space), MemOf(names, r);
    forall q | q in space ensures MemOf(names, q) in image {}
    forall n | n in image ensures exists q :: q in space && n == MemOf(names, q) {}
    assert Covered(image, r.base) <==> Occupied(space, r.base) by {
      if q :| q in space && Holds(q, r.base) {
        assert MemOf(names, q).Covers(r.base);
      }
    }
    assert Clashes(image, m) <==> !Clear(r, space) by {
      if q :| q in space && !Apart(r, q) {
        assert Overlap(MemOf(names, q), m);
      }
    }
    if Occupied(space, r.base) {
      var q :| q in space && Holds(q, r.base);
      assert !Apart(r, q);
    }
    assert MemImage(names, space + {r}) == image + {m};
  }

  // A registered range is found and removed.
  lemma MemImageRemove(names: nat -> string, space: set<Range>, r: Range, s: set<MemRange>, res: Result)
    requires Separate(space, TWO_64) && r in space
    requires Unregisters(MemImage(names, space), MemOf(names, r), s, res)
    ensures res == Success && s == MemImage(names, space - {r})
  {
    var m := MemOf(names, r);
    assert m in MemImage(names, space) && m.Covers(r.base);
    forall n | n in MemImage(names, space) && n.Covers(r.base) ensures n == m {
      MemImageFinds(names, space, r, r.base, n);
    }
    forall q | q in space && q != r ensures MemOf(names, q) != m {
      assert Apart(q, r);
    }
    assert MemImage(names, space - {r}) == MemImage(names, space) - {m};
  }

  // Only one registered range covers an address.
  lemma MemImageFinds(names: nat -> string, space: set<Range>, r: Range, x: nat, m: MemRange)
    requires Separate(space, TWO_64) && r in space && Holds(r, x)
    requires m in MemImage(names, space) && m.Covers(x)
    ensures m == MemOf(names, r)
  {
    var q :| q in space && m == MemOf(names, q);
    assert q != r ==> Apart(q, r);
  }

  lemma PortImageAdd(names: nat -> string, space: set<Range>, r: Range)
    requires Separate(space, MAX_IOPORTS) && Fits(r, MAX_IOPORTS)
    ensures (forall s :: s in PortImage(names, space) ==> !Meet(s, PortOf(names, r))) <==> Clear(r, space)
    ensures PortImage(names, space + {r}) == PortImage(names, space) + {PortOf(names, r)}
    ensures Clear(r, space) ==> Separate(space + {r}, MAX_IOPORTS)
  {
    if q :| q in space && !Apart(r, q) {
      assert PortOf(names, q) in PortImage(names, space) && Meet(PortOf(names, q), PortOf(names, r));
    } else {
      forall s | s in PortImage(names, space) ensures !Meet(s, PortOf(names, r)) {
        var q :| q in space && s == PortOf(names, q);
        assert Apart(r, q);
      }
    }
  }

  lemma PortImageRemove(names: nat -> string, space: set<Range>, r: Range)
    requires Separate(space, MAX_IOPORTS) && r in space
    ensures PortOf(names, r) in PortImage(names, space)
    ensures PortImage(names, space - {r}) == PortImage(names, space) - {PortOf(names, r)}
  {
    forall q | q in space && q != r ensures PortOf(names, q) != PortOf(names, r) {
      assert Apart(q, r);
    }
  }

  class Bus {
    const names: nat -> string
    const dispatcher: Dispatcher
    const ports: PortTable
    var mem: set<Range>
    var io: set<Range>

    ghost var repr: set<object>   // what the registries are made of

    ghost function Parts(): set<object>
      reads this, dispatcher, dispatcher.main, dispatcher.fallback
    {
      {dispatcher, dispatcher.main, dispatcher.fallback, ports, ports.handlers}
      + dispatcher.main.nodes + dispatcher.fallback.nodes
    }

    // Both registries hold exactly the registered ranges.
    ghost predicate Valid()
      reads this, repr
    {
      && {dispatcher, dispatcher.main, dispatcher.fallback} <= repr && Parts() <= repr && this !in repr
      && dispatcher.Valid() && ports.Valid()
      && Separate(mem, TWO_64) && dispatcher.View().main == MemImage(names, mem)
      && Separate(io, MAX_IOPORTS) && ports.ranges == PortImage(names, io)
    }

    // Both registries as they are after start-up, with nothing registered by a PCI function.
    constructor (names: nat -> string, dispatcher: Dispatcher, ports: PortTable)
      requires dispatcher.Valid() && dispatcher.View().main == {} && ports.Valid() && ports.ranges == {}
      ensures Valid() && mem == {} == io && this.names == names && this.dispatcher == dispatcher && this.ports == ports
    {
      this.names, this.dispatcher, this.ports := names, dispatcher, ports;
      mem, io := {}, {};
      repr := {dispatcher, dispatcher.main, dispatcher.fallback, ports, ports.handlers}
              + dispatcher.main.nodes + dispatcher.fallback.nodes;
      assert MemImage(names, {}) == {} && PortImage(names, {}) == {};
    }

    // Registration of a memory range; the entry of the tree is allocated.
    method RegisterMem(r: Range) returns (res: Result)
      requires Valid() && Fits(r, TWO_64)
      modifies this, repr
      ensures Valid() && io == old(io) && fresh(repr - old(repr))
      ensures mem == Added(old(mem), r)
      ensures res == if Clear(r, old(mem)) || Occupied(old(mem), r.base) then Success else Failure
    {
      res := dispatcher.RegisterMem(MemOf(names, r), true);
      MemImageAdd(names, mem, r, dispatcher.View().main, res);
      mem, repr := Added(mem, r), repr + Parts();
    }

    method UnregisterMem(r: Range)
      requires Valid() && r in mem
      modifies this, repr
      ensures Valid() && mem == old(mem) - {r} && io == old(io) && fresh(repr - old(repr))
    {
      var res := dispatcher.UnregisterMem(MemOf(names, r));
      MemImageRemove(names, mem, r, dispatcher.View().main, res);
      mem := mem - {r};
      repr := repr + Parts();
    }

    // Registration of a range of ports.
    method RegisterIo(r: Range) returns (res: int)
      requires Valid() && Fits(r, MAX_IOPORTS)
      modifies this, repr
      ensures Valid() && mem == old(mem) && fresh(repr - old(repr)) && (res == 0 <==> Clear(r, old(io)))
      ensures io == if res == 0 then old(io) + {r} else old(io)
    {
      PortImageAdd(names, io, r);
      res := ports.Claim(PortOf(names, r));
      if res == 0 {
        io := io + {r};
      }
      repr := repr + Parts();
    }

    method UnregisterIo(r: Range)
      requires Valid() && r in io
      modifies this, repr
      ensures Valid() && io == old(io) - {r} && mem == old(mem) && fresh(repr - old(repr))
    {
      PortImageRemove(names, io, r);
      ports.Release(PortOf(names, r));
      io := io - {r};
      repr := repr + Parts();
    }

    // A memory access inside a registered range goes to the handler of that range.
    method AccessMem(addr: nat) returns (r: Result)
      requires Valid()
      modifies this, repr
      ensures Valid() && mem == old(mem) && io == old(io) && fresh(repr - old(repr))
      ensures dispatcher.View() == old(dispatcher.View()) && Answers(dispatcher.View(), addr, r)
      ensures forall q :: q in mem && Holds(q, addr) ==> r == Handled(MemOf(names, q))
    {
      r := dispatcher.EmulateMem(addr);
      forall q | q in mem && Holds(q, addr) ensures r == Handled(MemOf(names, q)) {
        assert MemOf(names, q) in dispatcher.View().main && MemOf(names, q).Covers(addr);
        MemImageFinds(names, mem, q, addr, r.range);
      }
    }

    // A port access inside a registered range goes to the handler of its function, any other to the default handler.
    method AccessIo(port: nat, read: bool, strict: bool) returns (found: bool, e: Entry)
      requires Valid() && port < MAX_IOPORTS
      ensures e == ports.handlers[port]
      ensures forall q :: q in io && Holds(q, port) ==> found && e == PortOf(names, q).entry
      ensures !Occupied(io, port) ==> e == DEFAULT && (found <==> !strict)
    {
      found, e := ports.EmulateInout(port, read, strict);
      forall q | q in io && Holds(q, port) ensures found && e == PortOf(names, q).entry {
        assert PortOf(names, q) in ports.ranges && Spans(PortOf(names, q), port);
      }
      if !Occupied(io, port) {
        forall s | s in ports.ranges ensures !Spans(s, port) {
          var q :| q in io && s == PortOf(names, q);
          assert !Holds(q, port);
        }
      }
    }
  }
}
