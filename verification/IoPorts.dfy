// The 64K table of port I/O handlers.
module IoPorts {
  const MAX_IOPORTS := 65536

  datatype Entry = Entry(name: string, input: bool, output: bool, fallback: bool, handler: nat, arg: nat)

  const DEFAULT_HANDLER := 0
  const DEFAULT := Entry("default", true, true, true, DEFAULT_HANDLER, 0)

  datatype PortRange = PortRange(port: nat, size: nat, entry: Entry)

  predicate PortsOk(r: PortRange) {
    0 < r.size && r.port + r.size <= MAX_IOPORTS
  }

  predicate Spans(r: PortRange, p: int) {
    r.port <= p < r.port + r.size
  }

  predicate Meet(a: PortRange, b: PortRange) {
    a.port < b.port + b.size && b.port < a.port + a.size
  }

  // The table with one range overwritten.
  ghost predicate Painted(before: seq<Entry>, r: PortRange, after: seq<Entry>) {
    && |after| == |before|
    && (forall p :: 0 <= p < |before| ==> after[p] == if Spans(r, p) then r.entry else before[p])
  }

  ghost predicate Free(table: seq<Entry>, r: PortRange) {
    forall p :: 0 <= p < |table| && Spans(r, p) ==> table[p].fallback
  }

  // What a set of registered ranges makes of the table: every port is served by its range, or by default.
  ghost predicate Serves(ranges: set<PortRange>, table: seq<Entry>) {
    && |table| == MAX_IOPORTS
    && (forall r :: r in ranges ==> PortsOk(r) && !r.entry.fallback)
    && (forall a, b :: a in ranges && b in ranges && Meet(a, b) ==> a == b)
    && (forall p {:trigger table[p]} :: 0 <= p < MAX_IOPORTS ==>
         if exists r :: r in ranges && Spans(r, p) then ServedBy(ranges, p, table[p]) else table[p] == DEFAULT)
  }

  ghost predicate ServedBy(ranges: set<PortRange>, p: int, e: Entry) {
    exists r :: r in ranges && Spans(r, p) && e == r.entry
  }

  /** A range is free in the table exactly when it meets no registered range. */
  lemma FreeMeansApart(ranges: set<PortRange>, table: seq<Entry>, n: PortRange)
    requires Serves(ranges, table) && PortsOk(n)
    ensures Free(table, n) <==> forall r :: r in ranges ==> !Meet(r, n)
  {
    if Free(table, n) {
      forall r | r in ranges ensures !Meet(r, n) {
        if Meet(r, n) {
          var p := if r.port < n.port then n.port else r.port;
          assert Spans(r, p) && Spans(n, p) && table[p].fallback;
          ServedOnce(ranges, table, p, r);
        }
      }
    }
    if forall r :: r in ranges ==> !Meet(r, n) {
      forall p | 0 <= p < |table| && Spans(n, p) ensures table[p].fallback {
        forall r | r in ranges ensures !Spans(r, p) {
          assert !Meet(r, n);
        }
      }
    }
  }

  lemma ServedOnce(ranges: set<PortRange>, table: seq<Entry>, p: nat, r: PortRange)
    requires Serves(ranges, table) && p < MAX_IOPORTS && r in ranges && Spans(r, p)
    ensures table[p] == r.entry
  {
    assert ServedBy(ranges, p, table[p]);
    var s :| s in ranges && Spans(s, p) && table[p] == s.entry;
    assert Meet(r, s);
  }

  /** The registered ranges alone determine the table, so removing what was just added restores it. */
  lemma TableIsDetermined(ranges: set<PortRange>, t1: seq<Entry>, t2: seq<Entry>)
    requires Serves(ranges, t1) && Serves(ranges, t2)
    ensures t1 == t2
  {
    forall p | 0 <= p < MAX_IOPORTS ensures t1[p] == t2[p] {
      if r :| r in ranges && Spans(r, p) {
        ServedOnce(ranges, t1, p, r);
        ServedOnce(ranges, t2, p, r);
      }
    }
  }

  lemma AddServes(ranges: set<PortRange>, before: seq<Entry>, n: PortRange, after: seq<Entry>)
    requires Serves(ranges, before) && PortsOk(n) && !n.entry.fallback && Painted(before, n, after)
    requires forall r :: r in ranges ==> !Meet(r, n)
    ensures Serves(ranges + {n}, after)
  {
    forall p | 0 <= p < MAX_IOPORTS
      ensures if exists r :: r in ranges + {n} && Spans(r, p) then ServedBy(ranges + {n}, p, after[p])
              else after[p] == DEFAULT
    {
      if Spans(n, p) {
        assert n in ranges + {n};
      } else if r :| r in ranges && Spans(r, p) {
        ServedOnce(ranges, before, p, r);
        assert r in ranges + {n};
      } else {
        assert after[p] == before[p] == DEFAULT;
      }
    }
  }

  lemma RemoveServes(ranges: set<PortRange>, before: seq<Entry>, n: PortRange, after: seq<Entry>)
    requires Serves(ranges, before) && n in ranges && Painted(before, n.(entry := DEFAULT), after)
    ensures Serves(ranges - {n}, after)
  {
    forall p | 0 <= p < MAX_IOPORTS
      ensures if exists r :: r in ranges - {n} && Spans(r, p) then ServedBy(ranges - {n}, p, after[p])
              else after[p] == DEFAULT
    {
      if Spans(n, p) {
        forall r | r in ranges - {n} ensures !Spans(r, p) {
          assert Spans(r, p) ==> Meet(r, n);
        }
      } else if r :| r in ranges && Spans(r, p) {
        ServedOnce(ranges, before, p, r);
        assert r in ranges - {n};
      } else {
        assert after[p] == before[p] == DEFAULT;
      }
    }
  }

  class PortTable {
    const handlers: array<Entry>
    ghost var ranges: set<PortRange>

    ghost predicate Valid()
      reads this, handlers
    {
      Serves(ranges, handlers[..])
    }

    constructor ()
      ensures Valid() && ranges == {} && fresh(handlers)
    {
      handlers := new Entry[MAX_IOPORTS](_ => DEFAULT);
      ranges := {};
      new;
      assert forall p :: 0 <= p < MAX_IOPORTS ==> handlers[..][p] == DEFAULT;
    }

    method Overwrite(iop: PortRange)
      requires handlers.Length == MAX_IOPORTS && PortsOk(iop)
      modifies handlers
      ensures Painted(old(handlers[..]), iop, handlers[..])
    {
      for i := iop.port to iop.port + iop.size
        invariant forall p :: 0 <= p < MAX_IOPORTS ==>
          handlers[p] == if iop.port <= p < i then iop.entry else old(handlers[p])
      {
        handlers[i] := iop.entry;
      }
    }

    method AllDefault(iop: PortRange) returns (free: bool)
      requires handlers.Length == MAX_IOPORTS && PortsOk(iop)
      ensures free <==> Free(handlers[..], iop)
    {
      for i := iop.port to iop.port + iop.size
        invariant forall p :: iop.port <= p < i ==> handlers[p].fallback
      {
        if !handlers[i].fallback {
          assert Spans(iop, i) && !handlers[..][i].fallback;
          return false;
        }
      }
      return true;
    }

    method RegisterInout(iop: PortRange) returns (r: int)
      requires handlers.Length == MAX_IOPORTS && PortsOk(iop)
      modifies handlers
      ensures r == 0 <==> iop.entry.fallback || Free(old(handlers[..]), iop)
      ensures r == 0 ==> Painted(old(handlers[..]), iop, handlers[..])
      ensures r != 0 ==> r == -1 && handlers[..] == old(handlers[..])
    {
      if !iop.entry.fallback {
        var free := AllDefault(iop);
        if !free {
          return -1;
        }
      }
      Overwrite(iop);
      return 0;
    }

    // A device claims a range of ports.
    method Claim(iop: PortRange) returns (r: int)
      requires Valid() && PortsOk(iop) && !iop.entry.fallback
      modifies handlers, this`ranges
      ensures Valid()
      ensures r == 0 <==> forall s :: s in old(ranges) ==> !Meet(s, iop)
      ensures ranges == if r == 0 then old(ranges) + {iop} else old(ranges)
    {
      ghost var before := handlers[..];
      FreeMeansApart(ranges, before, iop);
      r := RegisterInout(iop);
      if r == 0 {
        AddServes(ranges, before, iop, handlers[..]);
        ranges := ranges + {iop};
      }
    }

    // The first port must still carry the caller's name.
    method UnregisterInout(iop: PortRange)
      requires handlers.Length == MAX_IOPORTS && PortsOk(iop) && handlers[iop.port].name == iop.entry.name
      modifies handlers
      ensures Painted(old(handlers[..]), iop.(entry := DEFAULT), handlers[..])
    {
      var _ := RegisterInout(iop.(entry := DEFAULT));
    }

    // A device gives up a range it claimed.
    method Release(iop: PortRange)
      requires Valid() && iop in ranges
      modifies handlers, this`ranges
      ensures Valid() && ranges == old(ranges) - {iop}
    {
      ghost var before := handlers[..];
      ServedOnce(ranges, before, iop.port, iop);
      UnregisterInout(iop);
      RemoveServes(ranges, before, iop, handlers[..]);
      ranges := ranges - {iop};
    }

    // Which entry a port access reaches, and whether its handler is called.
    method EmulateInout(port: nat, read: bool, strict: bool) returns (found: bool, e: Entry)
      requires Valid() && port < MAX_IOPORTS
      ensures e == handlers[port]
      ensures found <==> (strict ==> e.handler != DEFAULT_HANDLER) && if read then e.input else e.output
      ensures forall r :: r in ranges && Spans(r, port) ==> e == r.entry
      ensures (forall r :: r in ranges ==> !Spans(r, port)) ==> e == DEFAULT
    {
      e := handlers[port];
      found := true;
      if strict && e.handler == DEFAULT_HANDLER {
        found := false;
      } else if read {
        if !e.input {
          found := false;
        }
      } else if !e.output {
        found := false;
      }
      forall r | r in ranges && Spans(r, port) ensures e == r.entry {
        ServedOnce(ranges, handlers[..], port, r);
      }
      assert handlers[..][port] == e;
    }
  }
}
