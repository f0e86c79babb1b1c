// Where a BAR goes when a guest writes its registers.
module PciPlacement {
  import opened Interception
  import opened PciBars
  import opened Powers

  import MemoryRanges

  // The greatest multiple of 'size' that is not above x.
  ghost predicate Greatest(r: nat, x: nat, size: nat) {
    0 < size && r % size == 0 && r <= x && forall m: nat :: m % size == 0 && m <= x ==> m <= r
  }

  lemma RoundDownGreatest(x: nat, size: nat)
    requires 0 < size
    ensures Greatest(RoundDown(x, size), x, size)
  {
    var r := RoundDown(x, size);
    RoundDownDivides(x, size);
    forall m: nat | m % size == 0 && m <= x ensures m <= r {
      if r < m {
        RoomBelow(r, m, size);
      }
    }
  }

  lemma GreatestIs(r: nat, x: nat, size: nat, a: nat)
    requires Greatest(r, x, size) && a % size == 0 && a <= x < a + size
    ensures r == a
  {
    if a < r {
      RoomBelow(a, r, size);
    }
  }

  // ---- one write ----

  /** The address of a BAR after a write to a register of the given kind: what that register decodes, and the rest. */
  ghost predicate Lands(kind: BarType, size: nat, eax: nat, was: nat, now: nat) {
    match kind
    case Io => Greatest(now, eax % K64, size)
    case Mem32 => Greatest(now, eax, size)
    case Mem64 => now / G4 == was / G4 && Greatest(now % G4, eax, size)
    case MemHi64 => now % G4 == was % G4 && Greatest(now / G4 * G4, eax * G4, size)
    case None => true
  }

  // Whole units of 64K are neither lost nor gained by rounding down.
  lemma SameUnit(eax: nat, size: nat)
    requires 0 < size && K64 % size == 0
    ensures var r, u := RoundDown(eax, size), K64 * (eax / K64); u <= r && r % K64 == r - u
  {
    var r, q := RoundDown(eax, size), eax / K64;
    DividesMultiple(size, K64, q);
    RoundDownGreatest(eax, size);
    assert K64 * q <= eax;
    Remainder(q, r - K64 * q, K64);
    assert q * K64 + (r - K64 * q) == r;
  }

  lemma IoLands(eax: nat, size: nat)
    requires IsPow2(size) && size <= K64
    ensures Greatest(RoundDown(eax, size) % K64, eax % K64, size)
  {
    KnownPowers();
    BlockDivides(size, 16);
    IoWrite(eax, size);
    SameUnit(eax, size);
    RoundDownIs(eax % K64, size, RoundDown(eax, size) % K64);
    RoundDownGreatest(eax % K64, size);
  }

  lemma LowLands(was: nat, eax: nat, size: nat)
    requires IsPow2(size) && 16 <= size && eax < G4 && was % size == 0
    ensures Lands(Mem64, size, eax, was, was - was % G4 + RoundDown(eax, size))
  {
    LowHalf(was, eax, size);
    RoundDownGreatest(eax, size);
  }

  lemma HighLands(was: nat, eax: nat, size: nat)
    requires IsPow2(size) && eax < G4 && was % size == 0
    ensures Lands(MemHi64, size, eax, was, was % G4 + RoundDown(eax * G4, size))
  {
    HighHalf(was, eax, size);
    Mem64High(was, eax, size);
    WholeUnits(RoundDown(eax * G4, size), G4);
    RoundDownGreatest(eax * G4, size);
  }

  lemma NewAddrLands(bars: seq<Bar>, reg: seq<nat>, i: nat, eax: nat)
    requires Layout(bars, reg) && i < BARS && eax < G4 && Sized(bars, i)
    ensures var b := bars[Target(bars, i)]; Lands(bars[i].kind, b.size, eax, b.addr, NewAddr(bars, i, eax))
  {
    var b := bars[Target(bars, i)];
    assert BarOk(b);
    match bars[i].kind
    case None =>
    case Io => IoLands(eax, b.size);
    case Mem32 => RoundDownGreatest(eax, b.size);
    case Mem64 => LowLands(b.addr, eax, b.size);
    case MemHi64 => HighLands(b.addr, eax, b.size);
  }

  /**
   * A guest write to a BAR register: the part of the address that the register decodes becomes the greatest multiple
   * of the size that is not above the value written, and everything else stays.  The low register of a 64-bit BAR
   * then shows it as prefetchable.
   */
  lemma WriteLands(id: nat, m: Moment, i: nat, eax: nat, n: Moment)
    requires Stepped(id, m, BarWrite(i, eax), n) && m.bars[i].kind != None
    ensures var j := if m.bars[i].kind == MemHi64 then i - 1 else i;
      && 0 <= j < BARS == |n.bars| == |m.bars| && n.cmdsts == m.cmdsts
      && n.bars[j] == m.bars[j].(addr := n.bars[j].addr)
      && Lands(m.bars[i].kind, m.bars[j].size, eax, m.bars[j].addr, n.bars[j].addr)
      && (forall x :: 0 <= x < BARS && x != j ==> n.bars[x] == m.bars[x])
      && |m.reg| == BARS == |n.reg| && (forall x :: 0 <= x < BARS && x != i ==> n.reg[x] == m.reg[x])
      && (m.bars[i].kind == Mem64 ==> n.reg[i] % 16 == 12)
  {
    NewAddrLands(m.bars, m.reg, i, eax);
    if m.bars[i].kind == Mem64 {
      assert BarOk(m.bars[i]);
      LowHalf(m.bars[i].addr, eax, m.bars[i].size);
    }
  }

  // ---- runs of writes ----

  predicate Touches(w: GuestWrite, i: nat) {
    w.BarWrite? && w.idx == i
  }

  // What a write to another register leaves alone.
  ghost predicate Undisturbed(b: Bar, w: GuestWrite, i: nat, c: Bar) {
    && c.kind == b.kind && c.size == b.size
    && (b.kind == Io || b.kind == Mem32 ==> !Touches(w, i) ==> c.addr == b.addr)
    && (b.kind == Mem64 ==>
          && (!Touches(w, i) ==> c.addr % G4 == b.addr % G4)
          && (!Touches(w, i + 1) ==> c.addr / G4 == b.addr / G4))
  }

  lemma OtherWrite(id: nat, m: Moment, w: GuestWrite, n: Moment, i: nat)
    requires Stepped(id, m, w, n) && i < BARS
    ensures |m.bars| == BARS == |n.bars| && Undisturbed(m.bars[i], w, i, n.bars[i])
  {
    if w.BarWrite? && m.bars[w.idx].kind != None {
      WriteLands(id, m, w.idx, w.eax, n);
      HighStays(m.bars, m.reg, w.idx, i);
    }
  }

  // A high half belongs to the 64-bit BAR before it.
  lemma HighStays(bars: seq<Bar>, reg: seq<nat>, x: nat, i: nat)
    requires Layout(bars, reg) && x < BARS && i < BARS
    ensures bars[x].kind == MemHi64 && i == x - 1 ==> bars[i].kind == Mem64
  {}

  // No write from moment k up to moment n goes to register i.
  ghost predicate Quiet(writes: seq<GuestWrite>, i: nat, k: nat, n: nat)
    requires n <= |writes|
  {
    forall x :: k <= x < n ==> !Touches(writes[x], i)
  }

  // The part of a BAR that register i decodes is the same at moments k and n.
  lemma {:induction false} PartStays(id: nat, trace: seq<Moment>, writes: seq<GuestWrite>, k: nat, n: nat, i: nat)
    requires Traced(id, trace, writes) && k <= n < |trace| && i < BARS && |trace[k].bars| == BARS
    ensures |trace[n].bars| == BARS
    ensures var b, c := trace[k].bars[i], trace[n].bars[i];
      && c.kind == b.kind && c.size == b.size
      && ((b.kind == Io || b.kind == Mem32) && Quiet(writes, i, k, n) ==> c.addr == b.addr)
      && (b.kind == Mem64 && Quiet(writes, i, k, n) ==> c.addr % G4 == b.addr % G4)
      && (b.kind == Mem64 && Quiet(writes, i + 1, k, n) ==> c.addr / G4 == b.addr / G4)
  {
    if k < n {
      PartStays(id, trace, writes, k, n - 1, i);
      assert TraceStep(id, trace, writes, n - 1);
      OtherWrite(id, trace[n - 1], writes[n - 1], trace[n], i);
    }
  }

  // Moment by moment a run has six BARs.
  lemma SixBars(id: nat, trace: seq<Moment>, writes: seq<GuestWrite>, k: nat)
    requires Traced(id, trace, writes) && k < |trace|
    ensures Sound(id, trace[k]) && |trace[k].bars| == BARS
  {
    if k > 0 {
      assert TraceStep(id, trace, writes, k - 1);
      assert Stepped(id, trace[k - 1], writes[k - 1], trace[k]);
    }
  }

  /** At every moment of a run, an I/O or 32-bit BAR is where the last write to its register put it. */
  lemma LastWrite(id: nat, trace: seq<Moment>, writes: seq<GuestWrite>, k: nat, n: nat, i: nat)
    requires Traced(id, trace, writes) && k < n < |trace| && i < BARS && Touches(writes[k], i)
    requires Quiet(writes, i, k + 1, n)
    ensures |trace[n].bars| == BARS
    ensures var b, eax := trace[n].bars[i], writes[k].eax;
      && (b.kind == Io ==> Greatest(b.addr, eax % K64, b.size))
      && (b.kind == Mem32 ==> Greatest(b.addr, eax, b.size))
      && (b.kind == Mem64 ==> Greatest(b.addr % G4, eax, b.size))
  {
    SixBars(id, trace, writes, k);
    SixBars(id, trace, writes, k + 1);
    assert TraceStep(id, trace, writes, k);
    PartStays(id, trace, writes, k + 1, n, i);
    StepSame(id, trace[k], writes[k], trace[k + 1]);
    if trace[k].bars[i].kind != None {
      WriteLands(id, trace[k], i, writes[k].eax, trace[k + 1]);
    }
  }

  /** The upper half of a 64-bit BAR is where the last write to the register behind it put it. */
  lemma LastHighWrite(id: nat, trace: seq<Moment>, writes: seq<GuestWrite>, k: nat, n: nat, i: nat)
    requires Traced(id, trace, writes) && k < n < |trace| && i + 1 < BARS && Touches(writes[k], i + 1)
    requires Quiet(writes, i + 1, k + 1, n)
    ensures |trace[n].bars| == BARS
    ensures var b := trace[n].bars[i];
      b.kind == Mem64 ==> Greatest(b.addr / G4 * G4, writes[k].eax * G4, b.size)
  {
    SixBars(id, trace, writes, k);
    SixBars(id, trace, writes, k + 1);
    assert TraceStep(id, trace, writes, k);
    PartStays(id, trace, writes, k + 1, n, i);
    StepSame(id, trace[k], writes[k], trace[k + 1]);
    if trace[k].bars[i].kind == Mem64 {
      assert RegOk(trace[k].bars, trace[k].reg, i);
      WriteLands(id, trace[k], i + 1, writes[k].eax, trace[k + 1]);
    }
  }

  // Both halves of an aligned address are aligned.
  lemma AlignedHalves(a: nat, size: nat)
    requires IsPow2(size) && a % size == 0
    ensures a % G4 % size == 0 && a / G4 * G4 % size == 0
  {
    KnownPowers();
    if size <= G4 {
      BlockDivides(size, 32);
      DividesMod(size, a, G4);
      DividesMultiple(size, G4, a / G4);
    } else {
      BlockDivided(size, 32);
      DividesTrans(G4, size, a);
      WholeUnits(a, G4);
    }
  }

  /**
   * Writing the low and the high half of an aligned address, flag bits and order as they may be, leaves a 64-bit BAR
   * at that address until one of its registers is written again.
   */
  lemma PlacedAt(id: nat, trace: seq<Moment>, writes: seq<GuestWrite>, low: nat, high: nat, n: nat, i: nat, a: nat)
    requires Traced(id, trace, writes) && low < n < |trace| && high < n && i + 1 < BARS
    requires |trace[n].bars| == BARS && trace[n].bars[i].kind == Mem64 && a < G4 * G4
    requires 0 < trace[n].bars[i].size && a % trace[n].bars[i].size == 0
    requires Touches(writes[low], i) && Quiet(writes, i, low + 1, n)
    requires Touches(writes[high], i + 1) && Quiet(writes, i + 1, high + 1, n)
    requires writes[low].eax - writes[low].eax % 16 == a % G4 && writes[high].eax == a / G4
    ensures trace[n].bars[i].addr == a
  {
    var b := trace[n].bars[i];
    SixBars(id, trace, writes, n);
    assert BarOk(b);
    LastWrite(id, trace, writes, low, n, i);
    LastHighWrite(id, trace, writes, high, n, i);
    AlignedHalves(a, b.size);
    GreatestIs(b.addr % G4, writes[low].eax, b.size, a % G4);
    GreatestIs(b.addr / G4 * G4, a / G4 * G4, b.size, a / G4 * G4);
  }

  /** The same for a 32-bit BAR, and for an I/O BAR inside the first 64K. */
  lemma PlacedBelow(id: nat, trace: seq<Moment>, writes: seq<GuestWrite>, k: nat, n: nat, i: nat, a: nat)
    requires Traced(id, trace, writes) && k < n < |trace| && i < BARS
    requires |trace[n].bars| == BARS && 0 < trace[n].bars[i].size && a % trace[n].bars[i].size == 0
    requires Touches(writes[k], i) && Quiet(writes, i, k + 1, n)
    ensures var kind, eax := trace[n].bars[i].kind, writes[k].eax;
      && (kind == Mem32 && eax - eax % 16 == a ==> trace[n].bars[i].addr == a)
      && (kind == Io && eax % K64 - eax % 4 == a ==> trace[n].bars[i].addr == a)
  {
    var b, eax := trace[n].bars[i], writes[k].eax;
    SixBars(id, trace, writes, n);
    assert BarOk(b);
    LastWrite(id, trace, writes, k, n, i);
    if b.kind == Mem32 && eax - eax % 16 == a {
      GreatestIs(b.addr, eax, b.size, a);
    } else if b.kind == Io && eax % K64 - eax % 4 == a {
      GreatestIs(b.addr, eax % K64, b.size, a);
    }
  }

  // The low half of an aligned address has no flag bits set.
  lemma NoFlags(a: nat, size: nat)
    requires IsPow2(size) && 16 <= size && a % size == 0
    ensures a % G4 - a % G4 % 16 == a % G4
  {
    assert Pow2(4) == 16;
    BlockDivided(size, 4);
    DividesTrans(16, size, a);
    DividesMod(16, a, G4);
  }

  // The two writes that move a 64-bit BAR.
  function Moving(i: nat, a: nat, highFirst: bool): (w: seq<GuestWrite>)
    ensures |w| == 2
  {
    if highFirst then [BarWrite(i + 1, a / G4), BarWrite(i, a % G4)] else [BarWrite(i, a % G4), BarWrite(i + 1, a / G4)]
  }

  lemma MovedTo(id: nat, trace: seq<Moment>, i: nat, a: nat, highFirst: bool)
    requires i + 1 < BARS && Traced(id, trace, Moving(i, a, highFirst)) && |trace| == 3
    requires |trace[0].bars| == BARS && trace[0].bars[i].kind == Mem64
    requires a < G4 * G4 && 0 < trace[0].bars[i].size && a % trace[0].bars[i].size == 0
    ensures |trace[2].bars| == BARS && trace[2].bars[i] == trace[0].bars[i].(addr := a)
  {
    var writes := Moving(i, a, highFirst);
    PartStays(id, trace, writes, 0, 2, i);
    assert BarOk(trace[0].bars[i]);
    NoFlags(a, trace[0].bars[i].size);
    PlacedAt(id, trace, writes, if highFirst then 1 else 0, if highFirst then 0 else 1, 2, i, a);
  }

  /**
   * A guest moves a decoded 64-bit BAR and accesses it at its new place: unless the move makes ranges collide, the
   * access reaches the BAR.
   */
  method MoveAndReach(d: Device, i: nat, a: nat, highFirst: bool, at: nat, bytes: nat)
    returns (ok: bool, r: MemoryRanges.Result, ghost trace: seq<Moment>)
    requires d.Valid() && i + 1 < BARS && d.bars[i].kind == Mem64 && MemEn(d.cmdsts)
    requires a < G4 * G4 && 0 < d.bars[i].size && a % d.bars[i].size == 0
    requires 0 < bytes && at + bytes <= d.bars[i].size
    modifies d`cmdsts, d`bars, d`reg, d.bus, d.bus.repr
    ensures d.Valid() && Traced(d.id, trace, Moving(i, a, highFirst)) && trace[0] == old(d.Now())
    ensures ok <==> |trace| == 3
    ensures ok ==> d.bars[i] == old(d.bars[i]).(addr := a) && MemoryRanges.Answers(d.bus.dispatcher.View(), a + at, r)
    ensures ok ==> r.Handled? && r.range.dev == d.id && r.range.arg == i && r.range.base == a
    ensures !ok ==> Writable(d.Now(), Moving(i, a, highFirst)[|trace| - 1])
                    && Collides(d.id, d.Now(), Moving(i, a, highFirst)[|trace| - 1])
  {
    ok, trace := d.Run(Moving(i, a, highFirst));
    r := MemoryRanges.NotFound;
    if ok {
      MovedTo(d.id, trace, i, a, highFirst);
      CommandStays(d.id, trace, Moving(i, a, highFirst), 2);
      r := d.ReachMem(i, a + at, bytes);
    }
  }

  // Writes to BAR registers leave the command register alone.
  lemma {:induction false} CommandStays(id: nat, trace: seq<Moment>, writes: seq<GuestWrite>, n: nat)
    requires Traced(id, trace, writes) && n < |trace| && forall x :: 0 <= x < n ==> writes[x].BarWrite?
    ensures trace[n].cmdsts == trace[0].cmdsts
  {
    if n > 0 {
      CommandStays(id, trace, writes, n - 1);
      assert TraceStep(id, trace, writes, n - 1);
      assert Stepped(id, trace[n - 1], writes[n - 1], trace[n]);
    }
  }
}
