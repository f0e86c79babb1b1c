// BARs of a PCI function, their configuration registers, and the ranges registered for interception.
module PciBars {
  import opened ConfigBytes
  import opened Interception
  import opened Octets
  import opened Powers

  import IoPorts
  import MemoryRanges

  const BARS := 6
  const K64 := 0x1_0000
  const G4 := 0x1_0000_0000

  datatype BarType = None | Io | Mem32 | Mem64 | MemHi64
  datatype Bar = Bar(kind: BarType, size: nat, addr: nat)
  predicate Decodes(b: Bar) { b.kind == Io || b.kind == Mem32 || b.kind == Mem64 }

  predicate InIo(b: Bar) { b.kind == Io }

  predicate InMem(b: Bar) { b.kind == Mem32 || b.kind == Mem64 }

  // What a correct BAR holds: a naturally aligned block inside its address space.
  ghost predicate BarOk(b: Bar) {
    && (Decodes(b) ==> IsPow2(b.size) && b.addr % b.size == 0)
    && (b.kind == Io ==> 4 <= b.size <= K64 && b.addr < K64)
    && (b.kind == Mem32 ==> 16 <= b.size < G4 && b.addr < G4)
    && (b.kind == Mem64 ==> 16 <= b.size < G4 * G4 && b.addr < G4 * G4)
  }

  // A pair of registers shows a 64-bit address, flag bits apart.
  predicate Shows(low: nat, high: nat, addr: nat) {
    low - low % 16 == addr % G4 && high == addr / G4
  }

  // The address bits of the configuration register(s) of BAR i.
  ghost predicate RegOk(bars: seq<Bar>, reg: seq<nat>, i: nat)
    requires |bars| == BARS == |reg| && i < BARS
  {
    match bars[i].kind
    case Io => reg[i] == bars[i].addr + 1
    case Mem32 => reg[i] == bars[i].addr
    case Mem64 =>
      i + 1 < BARS && bars[i + 1].kind == MemHi64 && Shows(reg[i], reg[i + 1], bars[i].addr)
    case _ => true
  }

  // Every BAR is sound and its registers show its address.
  ghost predicate Layout(bars: seq<Bar>, reg: seq<nat>) {
    && |bars| == BARS == |reg|
    && (forall i: nat :: i < BARS ==> BarOk(bars[i]) && RegOk(bars, reg, i) && reg[i] < G4)
    && (forall i: nat :: i < BARS && bars[i].kind == MemHi64 ==> i > 0 && bars[i - 1].kind == Mem64)
  }

  function RangeOf(owner: nat, bars: seq<Bar>, i: nat): Range requires i < |bars|
  {
    Range(owner, i, bars[i].addr, bars[i].size)
  }

  // The ranges of one address space that should be registered for this device.
  predicate InSpace(b: Bar, mem: bool) { if mem then InMem(b) else InIo(b) }

  ghost function ExpectedIn(owner: nat, bars: seq<Bar>, mem: bool, on: bool, lo: nat, hi: nat): set<Range>
    requires hi <= |bars|
  {
    set i: nat | lo <= i < hi && on && InSpace(bars[i], mem) :: RangeOf(owner, bars, i)
  }

  ghost function Expected(owner: nat, bars: seq<Bar>, mem: bool, on: bool): set<Range> {
    ExpectedIn(owner, bars, mem, on, 0, |bars|)
  }

  function Mine(owner: nat, space: set<Range>): set<Range> { set r | r in space && r.owner == owner }

  // ---- arithmetic of one register write ----

  // A power of two up to 2^n divides 2^n.
  lemma BlockDivides(size: nat, n: nat)
    requires IsPow2(size) && size <= Pow2(n)
    ensures Pow2(n) % size == 0
  {
    var k: nat :| size == Pow2(k);
    if k > n {
      Pow2Strict(n, k);
      assert false;
    }
    Pow2Divides(k, n);
  }

  lemma BlockDivided(size: nat, n: nat)
    requires IsPow2(size) && size >= Pow2(n)
    ensures size % Pow2(n) == 0
  {
    var k: nat :| size == Pow2(k);
    if k < n {
      Pow2Strict(k, n);
      assert false;
    }
    Pow2Divides(n, k);
  }

  lemma DividesTrans(a: nat, b: nat, n: int)
    requires 0 < a && 0 < b && b % a == 0 && n % b == 0
    ensures n % a == 0
  {
    var q := n / b;
    assert n == b * q;
    DividesMultiple(a, b, q);
  }

  lemma DividesMod(d: nat, x: nat, m: nat)
    requires 0 < d && 0 < m && x % d == 0 && m % d == 0
    ensures x % m % d == 0
  {
    DividesMultiple(d, m, x / m);
    DividesSum(d, x, m * (x / m));
    assert x % m == x - m * (x / m);
  }

  // The new address of an I/O BAR.
  lemma IoWrite(eax: nat, size: nat)
    requires IsPow2(size) && size <= K64
    ensures RoundDown(eax, size) % K64 % size == 0
    ensures RoundDown(eax, size) % K64 + size <= K64
  {
    KnownPowers();
    BlockDivides(size, 16);
    RoundDownDivides(eax, size);
    DividesMod(size, RoundDown(eax, size), K64);
    RoomBelow(RoundDown(eax, size) % K64, K64, size);
  }

  // The new address of a 32-bit memory BAR.
  lemma Mem32Write(eax: nat, size: nat)
    requires IsPow2(size) && size <= G4 && eax < G4
    ensures RoundDown(eax, size) % size == 0
    ensures RoundDown(eax, size) + size <= G4
  {
    KnownPowers();
    BlockDivides(size, 32);
    RoundDownDivides(eax, size);
    RoomBelow(RoundDown(eax, size), G4, size);
  }

  // Replacing the low half of a 64-bit address.
  lemma Mem64Low(addr: nat, eax: nat, size: nat)
    requires IsPow2(size) && addr % size == 0 && eax < G4
    ensures (addr - addr % G4 + RoundDown(eax, size)) % size == 0
    ensures RoundDown(eax, size) < G4
  {
    KnownPowers();
    RoundDownDivides(eax, size);
    if size <= G4 {
      BlockDivides(size, 32);
      DividesMod(size, addr, G4);
      DividesSum(size, addr, addr % G4);
      DividesSum(size, addr - addr % G4, RoundDown(eax, size));
    } else {
      BlockDivided(size, 32);
      DividesTrans(G4, size, addr);
      RoundDownIs(eax, size, 0);
    }
  }

  // Replacing the high half.
  lemma Mem64High(addr: nat, eax: nat, size: nat)
    requires IsPow2(size) && addr % size == 0
    ensures RoundDown(eax * G4, size) % G4 == 0
    ensures (addr % G4 + RoundDown(eax * G4, size)) % size == 0
  {
    KnownPowers();
    var x := eax * G4;
    RoundDownDivides(x, size);
    MultipleDivides(eax, G4);
    if size <= G4 {
      BlockDivides(size, 32);
      DividesTrans(size, G4, x);
      RoundDownIs(x, size, x);
      DividesMod(size, addr, G4);
      DividesSum(size, addr % G4, x);
    } else {
      BlockDivided(size, 32);
      DividesTrans(G4, size, addr);
      DividesTrans(G4, size, RoundDown(x, size));
    }
  }

  // ---- sizing: all ones written, then read back (section 6.2.5.1 of PCI Local Bus Specification 3.0) ----

  lemma SizeReadBack(size: nat, n: nat)
    requires IsPow2(size) && size <= Pow2(n)
    ensures RoundDown(Pow2(n) - 1, size) == Pow2(n) - size
  {
    BlockDivides(size, n);
    MultipleDivides(1, size);
    DividesSum(size, Pow2(n), size);
    RoundDownIs(Pow2(n) - 1, size, Pow2(n) - size);
  }

  lemma SizeReadBack64(size: nat)
    requires IsPow2(size) && size <= G4 * G4
    ensures RoundDown((G4 - 1) * G4, size) + RoundDown(G4 - 1, size) == G4 * G4 - size
  {
    KnownPowers();
    BlockDivides(size, 64);
    MultipleDivides(1, size);
    if size <= G4 {
      SizeReadBack(size, 32);
      Mem64High(0, G4 - 1, size);
      BlockDivides(size, 32);
      MultipleDivides(G4 - 1, G4);
      DividesTrans(size, G4, (G4 - 1) * G4);
      RoundDownIs((G4 - 1) * G4, size, (G4 - 1) * G4);
    } else {
      RoundDownIs(G4 - 1, size, 0);
      DividesSum(size, G4 * G4, size);
      BlockDivided(size, 32);
      RoundDownIs((G4 - 1) * G4, size, G4 * G4 - size);
    }
  }

  // ---- registered ranges follow the BARs ----

  lemma ExpectedUpdate(owner: nat, bars: seq<Bar>, j: nat, a: nat, mem: bool, on: bool)
    requires j < |bars|
    ensures var bars' := bars[j := bars[j].(addr := a)];
      Expected(owner, bars', mem, on) ==
      if on && InSpace(bars[j], mem)
      then Expected(owner, bars, mem, on) - {RangeOf(owner, bars, j)} + {RangeOf(owner, bars', j)}
      else Expected(owner, bars, mem, on)
  {
    var bars' := bars[j := bars[j].(addr := a)];
    forall i: nat | i < |bars| && i != j ensures RangeOf(owner, bars', i) == RangeOf(owner, bars, i) {}
  }

  // Moving the boundary of an index range past BAR i.
  lemma ExpectedStep(owner: nat, bars: seq<Bar>, mem: bool, on: bool, i: nat)
    requires i < |bars|
    ensures var own := if on && InSpace(bars[i], mem) then {RangeOf(owner, bars, i)} else {};
      && ExpectedIn(owner, bars, mem, on, i, |bars|) == own + ExpectedIn(owner, bars, mem, on, i + 1, |bars|)
      && ExpectedIn(owner, bars, mem, on, 0, i + 1) == ExpectedIn(owner, bars, mem, on, 0, i) + own
  {}

  // While decoding changes from 'was' to 'now', with the BARs below i already dealt with.
  ghost function Halfway(owner: nat, bars: seq<Bar>, mem: bool, was: bool, now: bool, i: nat): set<Range>
    requires i <= |bars|
  {
    ExpectedIn(owner, bars, mem, now, 0, i) + ExpectedIn(owner, bars, mem, was, i, |bars|)
  }

  // What BAR i's turn does to the ranges of one space when its decoding goes from 'was' to 'now'.
  lemma ToggleSpace(owner: nat, bars: seq<Bar>, mem: bool, was: bool, now: bool, i: nat, mine: set<Range>)
    requires i < |bars|
    requires mine == Halfway(owner, bars, mem, was, now, i)
    ensures was && InSpace(bars[i], mem) ==> RangeOf(owner, bars, i) in mine
    ensures Halfway(owner, bars, mem, was, now, i + 1)
      == if was == now || !InSpace(bars[i], mem) then mine
         else if now then mine + {RangeOf(owner, bars, i)} else mine - {RangeOf(owner, bars, i)}
  {
    ExpectedStep(owner, bars, mem, was, i);
    ExpectedStep(owner, bars, mem, now, i);
  }

  // ---- one BAR register write, as values ----

  function Target(bars: seq<Bar>, i: nat): nat requires i < |bars|
  {
    if bars[i].kind == MemHi64 && i > 0 then i - 1 else i
  }

  predicate Sized(bars: seq<Bar>, i: nat) {
    i < |bars| && (bars[i].kind == MemHi64 ==> i > 0) && (bars[i].kind != None ==> 0 < bars[Target(bars, i)].size)
  }

  // The address BAR register i decodes after a write of eax, and what the register then shows.
  function NewAddr(bars: seq<Bar>, i: nat, eax: nat): nat
    requires Sized(bars, i)
  {
    var b := bars[Target(bars, i)];
    match bars[i].kind
    case None => 0
    case Io => RoundDown(eax, b.size) % K64
    case Mem32 => RoundDown(eax, b.size)
    case Mem64 => b.addr - b.addr % G4 + RoundDown(eax, b.size)
    case MemHi64 => b.addr % G4 + RoundDown(eax * G4, b.size)
  }

  function NewReg(bars: seq<Bar>, i: nat, eax: nat): nat
    requires Sized(bars, i)
  {
    var b := bars[Target(bars, i)];
    match bars[i].kind
    case None => 0
    case Io => RoundDown(eax, b.size) % K64 + 1
    case Mem32 => RoundDown(eax, b.size)
    case Mem64 => RoundDown(eax, b.size) + 12
    case MemHi64 => RoundDown(eax * G4, b.size) / G4
  }

  lemma LayoutSized(bars: seq<Bar>, reg: seq<nat>, i: nat)
    requires Layout(bars, reg) && i < BARS
    ensures Sized(bars, i)
  {
    assert BarOk(bars[Target(bars, i)]);
  }

  lemma LowHalf(x: nat, eax: nat, size: nat)
    requires IsPow2(size) && 16 <= size && eax < G4 && x % size == 0
    ensures var low := RoundDown(eax, size);
      low + 12 < G4 && (low + 12) - (low + 12) % 16 == low
      && (x - x % G4 + low) % G4 == low && (x - x % G4 + low) / G4 == x / G4
  {
    KnownPowers();
    assert Pow2(4) == 16;
    BlockDivided(size, 4);
    RoundDownDivides(eax, size);
    Mem64Low(x, eax, size);
    DividesTrans(16, size, RoundDown(eax, size));
    MultipleDivides(G4 / 16, 16);
    RoomBelow(RoundDown(eax, size), G4, 16);
    Remainder(x / G4, RoundDown(eax, size), G4);
    assert x - x % G4 == x / G4 * G4;
  }

  lemma HighHalf(x: nat, eax: nat, size: nat)
    requires IsPow2(size) && eax < G4 && x % size == 0
    ensures var high := RoundDown(eax * G4, size);
      high / G4 < G4 && (x % G4 + high) % G4 == x % G4 && (x % G4 + high) / G4 == high / G4
  {
    Mem64High(x, eax, size);
    var high := RoundDown(eax * G4, size);
    WholeUnits(high, G4);
    Remainder(high / G4, x % G4, G4);
  }

  // A multiple is its quotient times the unit.
  lemma WholeUnits(x: nat, n: nat)
    requires 0 < n && x % n == 0
    ensures x == x / n * n
  {}

  lemma LowShows(x: nat, low: nat, high: nat, eax: nat, size: nat)
    requires IsPow2(size) && 16 <= size && eax < G4 && x % size == 0 && Shows(low, high, x)
    ensures var now := RoundDown(eax, size); Shows(now + 12, high, x - x % G4 + now)
  {
    LowHalf(x, eax, size);
  }

  lemma HighShows(x: nat, low: nat, high: nat, eax: nat, size: nat)
    requires IsPow2(size) && eax < G4 && x % size == 0 && Shows(low, high, x)
    ensures var now := RoundDown(eax * G4, size); Shows(low, now / G4, x % G4 + now)
  {
    HighHalf(x, eax, size);
  }

  lemma WriteKeepsBar(bars: seq<Bar>, reg: seq<nat>, i: nat, eax: nat)
    requires Layout(bars, reg) && i < BARS && eax < G4 && Sized(bars, i)
    ensures var j := Target(bars, i); BarOk(bars[j].(addr := NewAddr(bars, i, eax)))
    ensures NewReg(bars, i, eax) < G4
  {
    var b := bars[Target(bars, i)];
    assert BarOk(b);
    match bars[i].kind
    case None =>
    case Io => IoWrite(eax, b.size);
    case Mem32 => Mem32Write(eax, b.size);
    case Mem64 => Mem64Low(b.addr, eax, b.size); LowHalf(b.addr, eax, b.size);
    case MemHi64 => Mem64High(b.addr, eax, b.size); HighHalf(b.addr, eax, b.size);
  }

  lemma WriteKeepsReg(bars: seq<Bar>, reg: seq<nat>, i: nat, eax: nat)
    requires Layout(bars, reg) && i < BARS && eax < G4 && Sized(bars, i) && bars[i].kind != None
    ensures var j := Target(bars, i);
      RegOk(bars[j := bars[j].(addr := NewAddr(bars, i, eax))], reg[i := NewReg(bars, i, eax)], j)
  {
    var j := Target(bars, i);
    var b := bars[j];
    assert BarOk(b) && RegOk(bars, reg, j);
    match bars[i].kind
    case Mem64 =>
      LowShows(b.addr, reg[j], reg[j + 1], eax, b.size);
    case MemHi64 =>
      HighShows(b.addr, reg[j], reg[j + 1], eax, b.size);
    case _ =>
  }

  // Any dword written to any BAR register leaves a sound layout.
  lemma WriteKeepsLayout(bars: seq<Bar>, reg: seq<nat>, i: nat, eax: nat)
    requires Layout(bars, reg) && i < BARS && eax < G4 && Sized(bars, i)
    ensures var j := Target(bars, i);
      Layout(bars[j := bars[j].(addr := NewAddr(bars, i, eax))], reg[i := NewReg(bars, i, eax)])
  {
    WriteKeepsBar(bars, reg, i, eax);
    if bars[i].kind != None {
      WriteKeepsReg(bars, reg, i, eax);
    }
  }

  lemma SizingIo(size: nat)
    requires IsPow2(size) && size <= K64
    ensures RoundDown(G4 - 1, size) % K64 == K64 - size
  {
    KnownPowers();
    SizeReadBack(size, 32);
    Remainder(K64 - 1, K64 - size, K64);
  }

  lemma SizingMem32(size: nat)
    requires IsPow2(size) && size <= G4
    ensures RoundDown(G4 - 1, size) == G4 - size
  {
    KnownPowers();
    SizeReadBack(size, 32);
  }

  lemma SizingMem64(size: nat)
    requires IsPow2(size) && size <= G4 * G4
    ensures RoundDown((G4 - 1) * G4, size) / G4 * G4 + RoundDown(G4 - 1, size) == G4 * G4 - size
  {
    SizeReadBack64(size);
    Mem64High(0, G4 - 1, size);
  }

  // Writing all ones to a BAR and reading it back gives its size, flag bits apart.
  lemma SizingReadsSize(bars: seq<Bar>, reg: seq<nat>, i: nat)
    requires Layout(bars, reg) && i < BARS && Sized(bars, i)
    ensures match bars[i].kind
            case Io => NewReg(bars, i, G4 - 1) == K64 - bars[i].size + 1
            case Mem32 => NewReg(bars, i, G4 - 1) == G4 - bars[i].size
            case Mem64 =>
              && i + 1 < BARS && Sized(bars, i + 1)
              && NewReg(bars, i + 1, G4 - 1) * G4 + NewReg(bars, i, G4 - 1) == G4 * G4 - bars[i].size + 12
            case _ => true
  {
    assert BarOk(bars[i]) && RegOk(bars, reg, i);
    match bars[i].kind
    case Io => SizingIo(bars[i].size);
    case Mem32 => SizingMem32(bars[i].size);
    case Mem64 => SizingMem64(bars[i].size);
    case _ =>
  }

  // ---- a BAR handed out at start-up ----

  function Attached(bars: seq<Bar>, i: nat, b: Bar): seq<Bar>
    requires i < |bars| && (b.kind == Mem64 ==> i + 1 < |bars|)
  {
    if b.kind == Mem64 then bars[i := b][i + 1 := bars[i + 1].(kind := MemHi64)] else bars[i := b]
  }

  function AttachedReg(reg: seq<nat>, i: nat, b: Bar, lobits: nat): seq<nat>
    requires i < |reg| && (b.kind == Mem64 ==> i + 1 < |reg|)
  {
    if b.kind == Mem64 then reg[i := b.addr % G4 + lobits][i + 1 := b.addr / G4] else reg[i := b.addr + lobits]
  }

  ghost predicate Vacant(bars: seq<Bar>, i: nat, b: Bar) {
    && |bars| == BARS && i < BARS && bars[i].kind == None && Decodes(b)
    && (b.kind == Mem64 ==> i + 1 < BARS && bars[i + 1].kind == None)
  }

  ghost predicate LoBits(kind: BarType, lobits: nat) {
    match kind case Io => lobits == 1 case Mem32 => lobits == 0 case _ => lobits == 4 || lobits == 12
  }

  lemma LowNibble(addr: nat, size: nat, lobits: nat)
    requires IsPow2(size) && 16 <= size && addr % size == 0 && addr < G4 * G4 && lobits < 16
    ensures addr % G4 + lobits < G4 && addr % G4 + lobits - (addr % G4 + lobits) % 16 == addr % G4
    ensures addr / G4 < G4
  {
    assert Pow2(4) == 16;
    BlockDivided(size, 4);
    DividesTrans(16, size, addr);
    DividesMod(16, addr, G4);
    RoomBelow(addr % G4, G4, 16);
  }

  lemma AttachKeepsLayout(bars: seq<Bar>, reg: seq<nat>, i: nat, b: Bar, lobits: nat)
    requires Layout(bars, reg) && Vacant(bars, i, b) && BarOk(b) && LoBits(b.kind, lobits)
    ensures Layout(Attached(bars, i, b), AttachedReg(reg, i, b, lobits))
  {
    if b.kind == Mem64 {
      LowNibble(b.addr, b.size, lobits);
    }

    var bars', reg' := Attached(bars, i, b), AttachedReg(reg, i, b, lobits);
    forall j: nat | j < BARS ensures BarOk(bars'[j]) && RegOk(bars', reg', j) && reg'[j] < G4 {
      assert BarOk(bars[j]) && RegOk(bars, reg, j);
    }
  }

  lemma AttachExpected(owner: nat, bars: seq<Bar>, i: nat, b: Bar, mem: bool)
    requires Vacant(bars, i, b)
    ensures Expected(owner, Attached(bars, i, b), mem, true)
      == Expected(owner, bars, mem, true) + if InSpace(b, mem) then {Range(owner, i, b.addr, b.size)} else {}
  {
    var bars' := Attached(bars, i, b);
    assert RangeOf(owner, bars', i) == Range(owner, i, b.addr, b.size);
    forall j: nat | j < BARS && j != i
      ensures RangeOf(owner, bars', j) == RangeOf(owner, bars, j) && InSpace(bars'[j], mem) == InSpace(bars[j], mem)
    {}
    forall r | r in Expected(owner, bars, mem, true) ensures r in Expected(owner, bars', mem, true) {
      assert r.idx != i && r == RangeOf(owner, bars', r.idx);
    }
    forall r | r in Expected(owner, bars', mem, true) && r.idx != i ensures r in Expected(owner, bars, mem, true) {
      assert r == RangeOf(owner, bars, r.idx);
    }
  }

  // ---- the command/status dword, byte by byte ----

  predicate Access(coff: nat, bytes: nat)
  {
    4 <= coff && coff + bytes <= 8 && (bytes == 1 || (bytes == 2 && coff % 2 == 0) || (bytes == 4 && coff == 4))
  }

  // Bytes coff-4 .. coff-4+bytes of the dword take the written value under the mask.
  function CmdStsValue(cmdsts: seq<Byte>, coff: nat, val: seq<Byte>): (r: seq<Byte>)
    requires |cmdsts| == 4 && Access(coff, |val|)
    ensures |r| == 4
  {
    var at, end := coff - 4, coff - 4 + |val|;
    cmdsts[..at] + CmdStsBytes(at, cmdsts[at..end], val) + cmdsts[end..]
  }

  predicate PortEn(cmdsts: seq<Byte>) requires |cmdsts| == 4 { cmdsts[0] % 2 == 1 }

  predicate MemEn(cmdsts: seq<Byte>) requires |cmdsts| == 4 { cmdsts[0] / 2 % 2 == 1 }

  lemma LowBits(r: nat, c: nat)
    requires r % 128 == c
    ensures r % 2 == c % 2 && r / 2 % 2 == c / 2 % 2
  {
    var q := r / 128;
    Remainder(64 * q + c / 2, c % 2, 2);
    Remainder(32 * q + c / 4, c / 2 % 2, 2);
  }

  // A write that covers the first command byte sets both enable bits as written; any other keeps them.
  lemma EnablesFollowWrite(cmdsts: seq<Byte>, coff: nat, val: seq<Byte>)
    requires |cmdsts| == 4 && Access(coff, |val|)
    ensures PortEn(CmdStsValue(cmdsts, coff, val)) <==> if coff == 4 then val[0] % 2 == 1 else PortEn(cmdsts)
    ensures MemEn(CmdStsValue(cmdsts, coff, val)) <==> if coff == 4 then val[0] / 2 % 2 == 1 else MemEn(cmdsts)
    ensures CmdStsValue(cmdsts, coff, val)[2..] == cmdsts[2..]
  {
    if coff == 4 {
      LowBits(CmdStsByte(0, cmdsts[0], val[0]), val[0] % 128);
      LowBits(val[0], val[0] % 128);
    }
  }

  datatype GuestWrite = BarWrite(idx: nat, eax: nat) | CmdStsAccess(coff: nat, val: seq<Byte>)

  predicate WriteOk(w: GuestWrite) {
    match w
    case BarWrite(idx, eax) => idx < BARS && eax < G4
    case CmdStsAccess(coff, val) => Access(coff, |val|)
  }

  // ---- a function at one moment, with the ranges registered by everybody ----

  datatype Moment = Moment(cmdsts: seq<Byte>, bars: seq<Bar>, reg: seq<nat>, mem: set<Range>, io: set<Range>)

  // The function has registered exactly the BARs it decodes.
  ghost predicate Sound(id: nat, m: Moment) {
    && |m.cmdsts| == 4 && Layout(m.bars, m.reg)
    && Mine(id, m.mem) == Expected(id, m.bars, true, MemEn(m.cmdsts))
    && Mine(id, m.io) == Expected(id, m.bars, false, PortEn(m.cmdsts))
  }

  function Others(id: nat, space: set<Range>): set<Range> {
    space - Mine(id, space)
  }

  // A BAR is handed out and registered.
  function WithBar(id: nat, m: Moment, i: nat, b: Bar, lobits: nat): Moment
    requires i < |m.bars| == |m.reg| && (b.kind == Mem64 ==> i + 1 < |m.bars|)
  {
    var r := Range(id, i, b.addr, b.size);
    Moment(m.cmdsts, Attached(m.bars, i, b), AttachedReg(m.reg, i, b, lobits),
           if InIo(b) then m.mem else m.mem + {r}, if InIo(b) then m.io + {r} else m.io)
  }

  // The new BAR is decoded and registered, and nobody else's ranges change.
  lemma AttachKeepsSound(id: nat, m: Moment, i: nat, b: Bar, lobits: nat)
    requires Sound(id, m) && MemEn(m.cmdsts) && PortEn(m.cmdsts)
    requires Vacant(m.bars, i, b) && BarOk(b) && LoBits(b.kind, lobits)
    ensures var n := WithBar(id, m, i, b, lobits);
      Sound(id, n) && Others(id, n.mem) == Others(id, m.mem) && Others(id, n.io) == Others(id, m.io)
  {
    AttachKeepsLayout(m.bars, m.reg, i, b, lobits);
    AttachExpected(id, m.bars, i, b, true);
    AttachExpected(id, m.bars, i, b, false);
  }

  predicate Decoding(m: Moment, i: nat)
    requires i < |m.bars| && |m.cmdsts| == 4
  {
    if InIo(m.bars[i]) then PortEn(m.cmdsts) else MemEn(m.cmdsts)
  }

  function SpaceOf(m: Moment, b: Bar): set<Range> {
    if InIo(b) then m.io else m.mem
  }

  // Where BAR i would be intercepted next is free of every other registered range.
  predicate Free(id: nat, m: Moment, i: nat, a: nat)
    requires i < |m.bars|
  {
    Clear(Range(id, i, a, m.bars[i].size), SpaceOf(m, m.bars[i]) - {RangeOf(id, m.bars, i)})
  }

  // If a space starts to be decoded, its BARs must not collide with each other or with anybody else.
  predicate RoomIn(id: nat, bars: seq<Bar>, isMem: bool, space: set<Range>) {
    && (forall i: nat :: i < |bars| && InSpace(bars[i], isMem) ==> Clear(RangeOf(id, bars, i), Others(id, space)))
    && (forall i: nat, j: nat ::
         i < |bars| && j < |bars| && i != j && InSpace(bars[i], isMem) && InSpace(bars[j], isMem) ==>
         Apart(RangeOf(id, bars, i), RangeOf(id, bars, j)))
  }

  // One space while its decoding changes from 'was' to 'now', with the BARs below i dealt with.
  ghost predicate Toggling(id: nat, bars: seq<Bar>, isMem: bool, was: bool, now: bool, i: nat,
                           before: set<Range>, space: set<Range>)
    requires i <= |bars|
  {
    Mine(id, space) == Halfway(id, bars, isMem, was, now, i) && Others(id, space) == Others(id, before)
  }

  // BAR i's turn.
  lemma ToggleTurn(id: nat, bars: seq<Bar>, isMem: bool, was: bool, now: bool, i: nat,
                   before: set<Range>, space: set<Range>)
    requires i < |bars| && Toggling(id, bars, isMem, was, now, i, before, space)
    requires !was && now ==> RoomIn(id, bars, isMem, before)
    ensures var r := RangeOf(id, bars, i);
      if was == now || !InSpace(bars[i], isMem) then Toggling(id, bars, isMem, was, now, i + 1, before, space)
      else if now then Clear(r, space) && Toggling(id, bars, isMem, was, now, i + 1, before, space + {r})
      else r in space && Toggling(id, bars, isMem, was, now, i + 1, before, space - {r})
  {
    ToggleSpace(id, bars, isMem, was, now, i, Mine(id, space));
    var r := RangeOf(id, bars, i);
    assert Mine(id, space + {r}) == Mine(id, space) + {r} && Mine(id, space - {r}) == Mine(id, space) - {r};
    if !was && now && InSpace(bars[i], isMem) {
      forall q | q in space ensures Apart(r, q) {
        if q.owner != id {
          assert q in Others(id, space);
        } else {
          assert q in Mine(id, space);
        }
      }
    }
  }

  predicate Writable(m: Moment, w: GuestWrite) {
    |m.cmdsts| == 4 && |m.bars| == BARS == |m.reg| && WriteOk(w) && (w.BarWrite? ==> Sized(m.bars, w.idx))
  }

  // The write makes the function intercept a range that another one overlaps.
  predicate Collides(id: nat, m: Moment, w: GuestWrite)
    requires Writable(m, w)
  {
    match w
    case BarWrite(i, eax) =>
      var j, a := Target(m.bars, i), NewAddr(m.bars, i, eax);
      m.bars[i].kind != None && Decoding(m, j) && a != m.bars[j].addr && !Free(id, m, j, a)
    case CmdStsAccess(coff, val) =>
      var now := CmdStsValue(m.cmdsts, coff, val);
      || (!MemEn(m.cmdsts) && MemEn(now) && !RoomIn(id, m.bars, true, m.mem))
      || (!PortEn(m.cmdsts) && PortEn(now) && !RoomIn(id, m.bars, false, m.io))
  }

  // What the write leaves: new registers, and nobody else's ranges touched.
  ghost predicate Wrote(id: nat, m: Moment, w: GuestWrite, n: Moment)
    requires Writable(m, w)
  {
    && Others(id, n.mem) == Others(id, m.mem) && Others(id, n.io) == Others(id, m.io)
    && match w
       case BarWrite(i, eax) =>
         var j := Target(m.bars, i);
         && n.cmdsts == m.cmdsts && n.reg == m.reg[i := NewReg(m.bars, i, eax)]
         && n.bars == m.bars[j := m.bars[j].(addr := NewAddr(m.bars, i, eax))]
       case CmdStsAccess(coff, val) =>
         n.cmdsts == CmdStsValue(m.cmdsts, coff, val) && n.bars == m.bars && n.reg == m.reg
  }

  // One write in a run that goes on.
  ghost predicate Stepped(id: nat, m: Moment, w: GuestWrite, n: Moment) {
    Sound(id, m) && Sound(id, n) && Writable(m, w) && !Collides(id, m, w) && Wrote(id, m, w, n)
  }

  // Write k of a run.  The quantifier keeps its effect out of proofs that only hand it on.
  ghost predicate TraceStep(id: nat, trace: seq<Moment>, writes: seq<GuestWrite>, k: nat)
    requires k + 1 < |trace| && k < |writes|
  {
    forall n :: n == trace[k + 1] ==> Stepped(id, trace[k], writes[k], n)
  }

  // The moments of a run, each from the one before by its write.
  ghost predicate Traced(id: nat, trace: seq<Moment>, writes: seq<GuestWrite>) {
    && 0 < |trace| <= |writes| + 1 && Sound(id, trace[0])
    && forall k :: 0 <= k < |trace| - 1 ==> TraceStep(id, trace, writes, k)
  }

  lemma TracedOneMore(id: nat, trace: seq<Moment>, writes: seq<GuestWrite>, n: Moment)
    requires Traced(id, trace, writes) && |trace| <= |writes|
    requires Stepped(id, trace[|trace| - 1], writes[|trace| - 1], n)
    ensures Traced(id, trace + [n], writes)
  {
    var longer := trace + [n];
    forall k | 0 <= k < |longer| - 1 ensures TraceStep(id, longer, writes, k) {
      assert longer[k] == trace[k];
      if k < |trace| - 1 {
        assert longer[k + 1] == trace[k + 1] && TraceStep(id, trace, writes, k);
      }
    }
  }

  // The same BARs, apart from where they are.
  ghost predicate SameBars(a: seq<Bar>, b: seq<Bar>) {
    |a| == |b| && forall i :: 0 <= i < |a| ==> a[i].kind == b[i].kind && a[i].size == b[i].size
  }

  lemma StepSame(id: nat, m: Moment, w: GuestWrite, n: Moment)
    requires Stepped(id, m, w, n)
    ensures SameBars(m.bars, n.bars)
  {}

  // No write changes kind or size of a BAR.
  lemma {:induction false} BarsStay(id: nat, trace: seq<Moment>, writes: seq<GuestWrite>, k: nat)
    requires Traced(id, trace, writes) && k < |trace|
    ensures SameBars(trace[0].bars, trace[k].bars)
  {
    if k > 0 {
      BarsStay(id, trace, writes, k - 1);
      assert TraceStep(id, trace, writes, k - 1);
      StepSame(id, trace[k - 1], writes[k - 1], trace[k]);
    }
  }

  // A BAR stands for a range inside its address space.
  lemma BarFits(id: nat, i: nat, b: Bar)
    requires BarOk(b) && Decodes(b)
    ensures Fits(Range(id, i, b.addr, b.size), if InIo(b) then IoPorts.MAX_IOPORTS else MemoryRanges.TWO_64)
  {
    KnownPowers();
    if b.kind == Io {
      BlockDivides(b.size, 16);
      RoomBelow(b.addr, K64, b.size);
    } else if b.kind == Mem64 {
      BlockDivides(b.size, 64);
      RoomBelow(b.addr, G4 * G4, b.size);
    }
  }

  // An I/O BAR that holds a whole access.
  predicate HoldsPorts(b: Bar, port: nat, bytes: nat) {
    InIo(b) && b.addr <= port && port + bytes <= b.addr + b.size
  }

  function Put(space: set<Range>, r: Range, on: bool): set<Range> {
    if on then space + {r} else space - {r}
  }

  class Device {
    const id: nat
    const bus: Bus
    var cmdsts: seq<Byte>   // command in the first two bytes, status in the last two
    var bars: seq<Bar>
    var reg: seq<nat>       // the six BAR registers

    function Now(): Moment
      reads this, bus
    {
      Moment(cmdsts, bars, reg, bus.mem, bus.io)
    }

    // The registries are in order.  The quantifier keeps their definition out of proofs that do not use it.
    ghost predicate Wired()
      reads this, bus, bus.repr
    {
      this !in bus.repr && forall b: Bus :: b == bus ==> b.Valid()
    }

    ghost predicate Valid()
      reads this, bus, bus.repr
    {
      Wired() && Sound(id, Now())
    }

    // Registration of one BAR.
    method Register(i: nat)
      requires Wired() && i < |bars| && Decodes(bars[i]) && BarOk(bars[i])
      requires Clear(RangeOf(id, bars, i), SpaceOf(Now(), bars[i]))
      modifies bus, bus.repr
      ensures Wired() && fresh(bus.repr - old(bus.repr))
      ensures bus.io == if InIo(bars[i]) then old(bus.io) + {RangeOf(id, bars, i)} else old(bus.io)
      ensures bus.mem == if InIo(bars[i]) then old(bus.mem) else old(bus.mem) + {RangeOf(id, bars, i)}
    {
      BarFits(id, i, bars[i]);
      if bars[i].kind == Io {
        var _ := bus.RegisterIo(RangeOf(id, bars, i));
      } else {
        var _ := bus.RegisterMem(RangeOf(id, bars, i));
      }
    }

    // Removal of one BAR's range.
    method Unregister(i: nat)
      requires Wired() && i < |bars| && Decodes(bars[i]) && RangeOf(id, bars, i) in SpaceOf(Now(), bars[i])
      modifies bus, bus.repr
      ensures Wired() && fresh(bus.repr - old(bus.repr))
      ensures bus.io == if InIo(bars[i]) then old(bus.io) - {RangeOf(id, bars, i)} else old(bus.io)
      ensures bus.mem == if InIo(bars[i]) then old(bus.mem) else old(bus.mem) - {RangeOf(id, bars, i)}
    {
      if bars[i].kind == Io {
        bus.UnregisterIo(RangeOf(id, bars, i));
      } else {
        bus.UnregisterMem(RangeOf(id, bars, i));
      }
    }

    // A new function: no BARs yet, decoding and bus mastering on, nothing registered under its name.
    constructor (id: nat, bus: Bus)
      requires bus.Valid() && Mine(id, bus.mem) == {} == Mine(id, bus.io)
      ensures Valid() && this.id == id && this.bus == bus
      ensures MemEn(cmdsts) && PortEn(cmdsts) && forall i :: 0 <= i < BARS ==> bars[i].kind == None
    {
      this.id, this.bus := id, bus;
      cmdsts := [7, 0, 0, 0];
      bars := seq(BARS, _ => Bar(None, 0, 0));
      reg := seq(BARS, _ => 0);
    }

    // A decoded BAR moves: its old range goes, its new one comes.
    method MoveDecoded(i: nat, a: nat)
      requires Wired() && i < |bars| && Decodes(bars[i]) && RangeOf(id, bars, i) in SpaceOf(Now(), bars[i])
      requires BarOk(bars[i].(addr := a)) && Free(id, Now(), i, a)
      modifies this`bars, bus, bus.repr
      ensures Wired() && fresh(bus.repr - old(bus.repr)) && bars == old(bars)[i := old(bars)[i].(addr := a)]
      ensures var was, now := RangeOf(id, old(bars), i), RangeOf(id, bars, i);
        && bus.io == (if InIo(bars[i]) then old(bus.io) - {was} + {now} else old(bus.io))
        && bus.mem == if InIo(bars[i]) then old(bus.mem) else old(bus.mem) - {was} + {now}
    {
      Unregister(i);
      bars := bars[i := bars[i].(addr := a)];
      Register(i);
    }

    // A BAR moves, and its range with it if its space is decoded.
    method UpdateAddress(i: nat, a: nat)
      requires Valid() && i < BARS && Decodes(bars[i]) && BarOk(bars[i].(addr := a))
      requires Decoding(Now(), i) ==> Free(id, Now(), i, a)
      modifies this`bars, bus, bus.repr
      ensures Wired() && fresh(bus.repr - old(bus.repr)) && bars == old(bars)[i := old(bars)[i].(addr := a)]
      ensures Mine(id, bus.mem) == Expected(id, bars, true, MemEn(cmdsts))
      ensures Mine(id, bus.io) == Expected(id, bars, false, PortEn(cmdsts))
      ensures Others(id, bus.mem) == old(Others(id, bus.mem)) && Others(id, bus.io) == old(Others(id, bus.io))
    {
      ExpectedUpdate(id, bars, i, a, true, MemEn(cmdsts));
      ExpectedUpdate(id, bars, i, a, false, PortEn(cmdsts));
      if (if bars[i].kind == Io then PortEn(cmdsts) else MemEn(cmdsts)) {
        assert RangeOf(id, bars, i) in Expected(id, bars, !InIo(bars[i]), true);
        MoveDecoded(i, a);
      } else {
        bars := bars[i := bars[i].(addr := a)];
      }
    }

    // A guest write to a BAR register.
    method WriteBar(i: nat, eax: nat)
      requires Valid() && WriteOk(BarWrite(i, eax)) && Sized(bars, i) && !Collides(id, Now(), BarWrite(i, eax))
      modifies this`bars, this`reg, bus, bus.repr
      ensures Valid() && fresh(bus.repr - old(bus.repr))
      ensures Wrote(id, old(Now()), BarWrite(i, eax), Now())
    {
      WriteKeepsBar(bars, reg, i, eax);
      WriteKeepsLayout(bars, reg, i, eax);
      var j := Target(bars, i);
      var addr, bar := NewAddr(bars, i, eax), NewReg(bars, i, eax);
      if bars[i].kind == None {
        ExpectedUpdate(id, bars, i, 0, true, MemEn(cmdsts));
        ExpectedUpdate(id, bars, i, 0, false, PortEn(cmdsts));
        bars := bars[i := bars[i].(addr := 0)];
      } else if addr != bars[j].addr {
        UpdateAddress(j, addr);
      } else {
        assert bars[j := bars[j].(addr := addr)] == bars;
      }
      reg := reg[i := bar];
    }

    // Registration or removal of one BAR's range.
    method SetRegistered(i: nat, on: bool)
      requires Wired() && i < |bars| && Decodes(bars[i]) && BarOk(bars[i])
      requires on ==> Clear(RangeOf(id, bars, i), SpaceOf(Now(), bars[i]))
      requires !on ==> RangeOf(id, bars, i) in SpaceOf(Now(), bars[i])
      modifies bus, bus.repr
      ensures Wired() && fresh(bus.repr - old(bus.repr))
      ensures bus.io == if InIo(bars[i]) then Put(old(bus.io), RangeOf(id, bars, i), on) else old(bus.io)
      ensures bus.mem == if InIo(bars[i]) then old(bus.mem) else Put(old(bus.mem), RangeOf(id, bars, i), on)
    {
      if on {
        Register(i);
      } else {
        Unregister(i);
      }
    }

    // One turn of the loop over the BARs after a command-register write.
    method ToggleBar(i: nat, wasMem: bool, wasIo: bool, ghost mem: set<Range>, ghost io: set<Range>)
      requires Wired() && |cmdsts| == 4 && i < |bars| && BarOk(bars[i])
      requires Toggling(id, bars, true, wasMem, MemEn(cmdsts), i, mem, bus.mem)
      requires Toggling(id, bars, false, wasIo, PortEn(cmdsts), i, io, bus.io)
      requires !wasMem && MemEn(cmdsts) ==> RoomIn(id, bars, true, mem)
      requires !wasIo && PortEn(cmdsts) ==> RoomIn(id, bars, false, io)
      modifies bus, bus.repr
      ensures Wired() && fresh(bus.repr - old(bus.repr))
      ensures Toggling(id, bars, true, wasMem, MemEn(cmdsts), i + 1, mem, bus.mem)
      ensures Toggling(id, bars, false, wasIo, PortEn(cmdsts), i + 1, io, bus.io)
    {
      ToggleTurn(id, bars, true, wasMem, MemEn(cmdsts), i, mem, bus.mem);
      ToggleTurn(id, bars, false, wasIo, PortEn(cmdsts), i, io, bus.io);
      match bars[i].kind
      case None =>
      case MemHi64 =>
      case Io =>
        if wasIo != PortEn(cmdsts) {
          SetRegistered(i, PortEn(cmdsts));
        }
      case _ =>
        if wasMem != MemEn(cmdsts) {
          SetRegistered(i, MemEn(cmdsts));
        }
    }

    // The loop over the BARs.
    method ToggleBars(wasMem: bool, wasIo: bool)
      requires Wired() && |cmdsts| == 4 && |bars| == BARS && forall i :: 0 <= i < BARS ==> BarOk(bars[i])
      requires Toggling(id, bars, true, wasMem, MemEn(cmdsts), 0, bus.mem, bus.mem)
      requires Toggling(id, bars, false, wasIo, PortEn(cmdsts), 0, bus.io, bus.io)
      requires !wasMem && MemEn(cmdsts) ==> RoomIn(id, bars, true, bus.mem)
      requires !wasIo && PortEn(cmdsts) ==> RoomIn(id, bars, false, bus.io)
      modifies bus, bus.repr
      ensures Wired() && fresh(bus.repr - old(bus.repr))
      ensures Toggling(id, bars, true, wasMem, MemEn(cmdsts), BARS, old(bus.mem), bus.mem)
      ensures Toggling(id, bars, false, wasIo, PortEn(cmdsts), BARS, old(bus.io), bus.io)
    {
      ghost var mem, io := bus.mem, bus.io;
      var i := 0;
      while i < BARS
        invariant i <= BARS && Wired() && fresh(bus.repr - old(bus.repr))
        invariant Toggling(id, bars, true, wasMem, MemEn(cmdsts), i, mem, bus.mem)
        invariant Toggling(id, bars, false, wasIo, PortEn(cmdsts), i, io, bus.io)
      {
        ToggleBar(i, wasMem, wasIo, mem, io);
        i := i + 1;
      }
    }

    // A write to the command/status dword: decoding follows the new enable bits.
    method CmdStsWrite(coff: nat, val: seq<Byte>)
      requires Valid() && Access(coff, |val|) && !Collides(id, Now(), CmdStsAccess(coff, val))
      modifies this`cmdsts, bus, bus.repr
      ensures Valid() && fresh(bus.repr - old(bus.repr))
      ensures Wrote(id, old(Now()), CmdStsAccess(coff, val), Now())
    {
      var was := cmdsts;
      cmdsts := CmdStsValue(cmdsts, coff, val);
      ToggleBars(MemEn(was), PortEn(was));
    }

    // A device starts with all decoding enabled.
    method Attach(i: nat, kind: BarType, size: nat, addr: nat, lobits: nat)
      requires Valid() && MemEn(cmdsts) && PortEn(cmdsts)
      requires Vacant(bars, i, Bar(kind, size, addr)) && BarOk(Bar(kind, size, addr)) && LoBits(kind, lobits)
      requires Clear(Range(id, i, addr, size), SpaceOf(Now(), Bar(kind, size, addr)))
      modifies this`bars, this`reg, bus, bus.repr
      ensures Valid() && fresh(bus.repr - old(bus.repr))
      ensures Now() == WithBar(id, old(Now()), i, Bar(kind, size, addr), lobits)
    {
      var b := Bar(kind, size, addr);
      AttachKeepsSound(id, Now(), i, b, lobits);
      bars := Attached(bars, i, b);
      reg := AttachedReg(reg, i, b, lobits);
      Register(i);
    }

    // A guest write, unless it makes ranges collide.
    method Step(w: GuestWrite) returns (ok: bool)
      requires Valid() && WriteOk(w)
      modifies this`cmdsts, this`bars, this`reg, bus, bus.repr
      ensures Valid() && fresh(bus.repr - old(bus.repr))
      ensures Writable(old(Now()), w) && (ok <==> !Collides(id, old(Now()), w))
      ensures if ok then Stepped(id, old(Now()), w, Now()) else Now() == old(Now())
    {
      if w.BarWrite? {
        LayoutSized(bars, reg, w.idx);
      }
      ok := !Collides(id, Now(), w);
      if ok {
        match w
        case BarWrite(i, eax) => WriteBar(i, eax);
        case CmdStsAccess(coff, val) => CmdStsWrite(coff, val);
      }
    }

    // The device is valid.  The quantifier keeps what that means out of proofs that only hand it on.
    ghost predicate Good()
      reads this, bus, bus.repr
    {
      forall d: Device :: d == this ==> d.Valid()
    }

    // Write k of a run.
    method StepOn(writes: seq<GuestWrite>, k: nat, ghost before: seq<Moment>)
      returns (ok: bool, ghost trace: seq<Moment>)
      requires Good() && k < |writes| && WriteOk(writes[k])
      requires Traced(id, before, writes) && |before| == k + 1 && before[k] == Now()
      modifies this`cmdsts, this`bars, this`reg, bus, bus.repr
      ensures Good() && fresh(bus.repr - old(bus.repr)) && Traced(id, trace, writes) && before <= trace
      ensures trace[|trace| - 1] == Now() && |trace| == if ok then k + 2 else k + 1
      ensures !ok ==> Writable(Now(), writes[k]) && Collides(id, Now(), writes[k])
    {
      trace := before;
      ok := Step(writes[k]);
      if ok {
        TracedOneMore(id, before, writes, Now());
        trace := before + [Now()];
      }
    }

    /**
     * Any sequence of BAR and command-register writes.  After each, exactly the decoded BARs are registered, and
     * nobody else's ranges have moved.  The run stops exactly at the first write that makes ranges collide.
     */
    method Run(writes: seq<GuestWrite>) returns (ok: bool, ghost trace: seq<Moment>)
      requires Valid() && forall k :: 0 <= k < |writes| ==> WriteOk(writes[k])
      modifies this`cmdsts, this`bars, this`reg, bus, bus.repr
      ensures Valid() && fresh(bus.repr - old(bus.repr))
      ensures Traced(id, trace, writes) && trace[0] == old(Now()) && trace[|trace| - 1] == Now()
      ensures ok <==> |trace| == |writes| + 1
      ensures !ok ==> Writable(Now(), writes[|trace| - 1]) && Collides(id, Now(), writes[|trace| - 1])
    {
      ok, trace := true, [Now()];
      for k := 0 to |writes|
        invariant Good() && fresh(bus.repr - old(bus.repr))
        invariant |trace| == k + 1 && Traced(id, trace, writes) && trace[0] == old(Now()) && trace[k] == Now()
      {
        ok, trace := StepOn(writes, k, trace);
        if !ok {
          return;
        }
      }
    }

    /**
     * A memory access inside a decoded BAR reaches the handler of this function with the index of that BAR, and meets
     * the assertions the handler makes.
     */
    method ReachMem(i: nat, addr: nat, size: nat) returns (r: MemoryRanges.Result)
      requires Valid() && i < BARS && InMem(bars[i]) && MemEn(cmdsts)
      requires 0 < size && bars[i].addr <= addr && addr + size <= bars[i].addr + bars[i].size
      modifies bus, bus.repr
      ensures Valid() && fresh(bus.repr - old(bus.repr)) && Now() == old(Now())
      ensures MemoryRanges.Answers(bus.dispatcher.View(), addr, r)
      ensures r.Handled? && r.range.dev == id && r.range.arg == i
      ensures r.range.base == bars[i].addr && r.range.size == bars[i].size
    {
      ghost var q := RangeOf(id, bars, i);
      assert q in Expected(id, bars, true, true);
      r := bus.AccessMem(addr);
    }

    // The handler of I/O BARs looks for the BAR that holds the whole access.
    method FindIoBar(port: nat, bytes: nat) returns (i: int)
      requires |bars| == BARS
      ensures i == -1 || (0 <= i < BARS && HoldsPorts(bars[i], port, bytes))
      ensures i == -1 ==> forall j :: 0 <= j < BARS ==> !HoldsPorts(bars[j], port, bytes)
    {
      i := 0;
      while i < BARS
        invariant 0 <= i <= BARS && forall j :: 0 <= j < i ==> !HoldsPorts(bars[j], port, bytes)
      {
        if bars[i].kind == Io && port >= bars[i].addr && port + bytes <= bars[i].addr + bars[i].size {
          return;
        }
        i := i + 1;
      }
      i := -1;
    }

    /** A port access inside a decoded I/O BAR reaches the handler of this function, which finds that BAR. */
    method ReachIo(i: nat, port: nat, bytes: nat, read: bool, strict: bool)
      returns (called: bool, e: IoPorts.Entry, found: int)
      requires Valid() && i < BARS && PortEn(cmdsts) && 0 < bytes && HoldsPorts(bars[i], port, bytes)
      ensures bus.ports.handlers.Length == IoPorts.MAX_IOPORTS && port < IoPorts.MAX_IOPORTS
      ensures called && e == bus.ports.handlers[port]
      ensures e.handler == PCI_HANDLER && e.arg == id && found == i
    {
      var r := RangeOf(id, bars, i);
      assert r in Expected(id, bars, false, true);
      assert bus.Valid();
      called, e := bus.AccessIo(port, read, strict);
      found := FindIoBar(port, bytes);
      assert RangeOf(id, bars, found) in Expected(id, bars, false, true);
      assert !Apart(RangeOf(id, bars, found), r);
    }
  }
}
