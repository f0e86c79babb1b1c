// Handing out BAR addresses from the I/O, 32-bit and 64-bit pools, bus by bus.
module PciResources {
  import opened Powers
  import opened Options
  import opened PciBars

  const U64 := 0x1_0000_0000_0000_0000
  const IO_BASE := 0x2000
  const IO_LIMIT := 0x10000
  const MEM_LIMIT32 := 0xE0000000
  const MEM_BASE64 := 0xD000000000
  const MEM_LIMIT64 := 0xFD00000000
  const LARGE := 32 * 1024 * 1024
  const BUSIO_ROUNDUP := 32
  const BUSMEM_ROUNDUP := 1024 * 1024

  // ---- rounding a request up to a power of two ----

  function Fls(n: nat): nat { if n == 0 then 0 else 1 + Fls(n / 2) }

  lemma {:induction false} FlsBound(n: nat)
    requires n > 0
    ensures n < Pow2(Fls(n)) <= 2 * n
  {
    if n > 1 {
      FlsBound(n / 2);
    } else {
      assert Fls(0) == 0;
    }
  }

  predicate ZeroOrPow2(n: nat) { n == 0 || n == 1 || (n % 2 == 0 && ZeroOrPow2(n / 2)) }

  lemma {:induction false} ZeroOrPow2Means(n: nat)
    requires n > 0
    ensures ZeroOrPow2(n) <==> IsPow2(n)
  {
    assert Pow2(0) == 1;
    if n > 1 {
      ZeroOrPow2Means(n / 2);
      if ZeroOrPow2(n) {
        var k: nat :| n / 2 == Pow2(k);
        assert n == Pow2(k + 1);
      }
      if IsPow2(n) {
        var k: nat :| n == Pow2(k);
        assert k > 0 && n == 2 * Pow2(k - 1);
        assert n / 2 == Pow2(k - 1);
      }
    }
  }

  function MinSize(kind: BarType): nat { if kind == Io then 4 else 16 }

  function BarSize(kind: BarType, size: nat): (r: nat)
    ensures 0 < r
  {
    var s := if ZeroOrPow2(size) then size else Pow2(Fls(size));
    if s < MinSize(kind) then MinSize(kind) else s
  }

  // The least power of two that holds the request and the minimum.
  lemma BarSizeLeast(kind: BarType, size: nat, p: nat)
    ensures IsPow2(BarSize(kind, size)) && size <= BarSize(kind, size) && MinSize(kind) <= BarSize(kind, size)
    ensures IsPow2(p) && size <= p && MinSize(kind) <= p ==> BarSize(kind, size) <= p
  {
    assert Pow2(2) == 4 && Pow2(4) == 16;
    if size > 0 {
      ZeroOrPow2Means(size);
      FlsBound(size);
      if !ZeroOrPow2(size) && IsPow2(p) && size <= p {
        var k: nat :| p == Pow2(k);
        if k < Fls(size) {
          Pow2Strict(k, Fls(size));
          assert false;
        }
        Pow2Monotone(Fls(size), k);
      }
    }
  }

  // ---- carving a block out of a pool, in 64-bit arithmetic ----

  // The next aligned block at or above 'base', if the check against the limit passes.
  function AllocResource(base: nat, limit: nat, size: nat): (r: Option<nat>)
    requires 0 < size
  {
    var at := RoundDown((base + size - 1) % U64, size);
    if (at + size) % U64 <= limit then Just(at) else Nothing
  }

  lemma RoundUpLeast(base: nat, size: nat, a: nat)
    requires 0 < size && base <= a && a % size == 0
    ensures RoundUp(base, size) <= a
  {
    RoundDownDivides(base + size - 1, size);
    if a < RoundUp(base, size) {
      RoomBelow(a, RoundUp(base, size), size);
    }
  }

  lemma SmallMod(x: nat)
    requires x < U64
    ensures x % U64 == x
  {}

  lemma AllocIs(base: nat, limit: nat, size: nat)
    requires 0 < size <= U64 / 4 && base <= U64 / 4
    ensures AllocResource(base, limit, size) ==
      if RoundUp(base, size) + size <= limit then Just(RoundUp(base, size)) else Nothing
  {
    SmallMod(base + size - 1);
    SmallMod(RoundUp(base, size) + size);
  }

  ghost predicate NoRoom(base: nat, limit: nat, size: nat)
    requires 0 < size
  {
    forall a: nat :: base <= a && a % size == 0 ==> a + size > limit
  }

  // A block is taken at or above the base, aligned and inside the pool, whenever one fits.
  lemma AllocInside(base: nat, limit: nat, size: nat)
    requires 0 < size <= U64 / 4 && base <= U64 / 4
    ensures var r := AllocResource(base, limit, size);
      && (r.Just? ==> base <= r.value < base + size && r.value % size == 0 && r.value + size <= limit)
      && (r.Nothing? ==> NoRoom(base, limit, size))
  {
    AllocIs(base, limit, size);
    RoundDownDivides(base + size - 1, size);
    forall a: nat | base <= a && a % size == 0 ensures RoundUp(base, size) <= a {
      RoundUpLeast(base, size, a);
    }
  }

  // The largest power of two escapes the limit check: the sum wraps to zero.
  lemma AllocWraps(base: nat, limit: nat)
    requires 0 < base <= limit < U64 / 2
    ensures AllocResource(base, limit, U64 / 2) == Just(U64 / 2)
  {
    SmallMod(base + U64 / 2 - 1);
    RoundDownIs(base + U64 / 2 - 1, U64 / 2, U64 / 2);
    assert U64 / 2 + U64 / 2 == U64;
  }

  // For powers of two that escape is the only one: a block is inside its pool unless its size is half the
  // address space.
  lemma AllocSound(base: nat, limit: nat, size: nat)
    requires IsPow2(size) && size < U64 && 0 < base <= limit < U64 / 4
    ensures (AllocResource(base, limit, size).Just? ==> AllocResource(base, limit, size).value + size <= limit)
      <==> size != U64 / 2
  {
    if size == U64 / 2 {
      AllocWraps(base, limit);
    } else {
      HalfOrLess(size);
      AllocInside(base, limit, size);
    }
  }

  lemma HalfOrLess(size: nat)
    requires IsPow2(size) && size < U64 && size != U64 / 2
    ensures size <= U64 / 4
  {
    KnownPowers();
    assert Pow2(64) == 2 * Pow2(63) && Pow2(63) == 2 * Pow2(62);
    var k: nat :| size == Pow2(k);
    if k > 63 {
      Pow2Monotone(64, k);
      assert false;
    }
    if k < 63 {
      Pow2Monotone(k, 62);
    }
  }

  // ---- the three pools and the windows of the buses ----

  // The pools, and the base that a caller chooses for one block.
  datatype Pool = IoPool | Low | High | Chosen
  datatype Block = Block(pool: Pool, addr: nat, size: nat, bus: nat)
  datatype Bases = Bases(io: nat, low: nat, high: nat)
  datatype Window = Window(bus: nat, base: Bases, limit: Bases)

  function At(b: Bases, p: Pool): nat {
    match p
    case IoPool => b.io
    case Low => b.low
    case High => b.high
    case Chosen => 0
  }

  function Moved(b: Bases, p: Pool, to: nat): Bases {
    match p
    case IoPool => b.(io := to)
    case Low => b.(low := to)
    case High => b.(high := to)
    case Chosen => b
  }

  function Limit(p: Pool): nat {
    match p
    case IoPool => IO_LIMIT
    case Low => MEM_LIMIT32
    case _ => MEM_LIMIT64
  }

  // Small 64-bit BARs are placed below 4GB.  A 64-bit BAR of exactly 4GB goes where its caller wants it.
  function PoolFor(kind: BarType, size: nat): Pool {
    if kind == Io then IoPool
    else if kind == Mem64 && size > LARGE then if size == G4 then Chosen else High
    else Low
  }

  ghost predicate Before(a: Bases, b: Bases) { a.io <= b.io && a.low <= b.low && a.high <= b.high }

  ghost predicate Within(k: Block, lo: Bases, hi: Bases)
  {
    At(lo, k.pool) <= k.addr && k.addr + k.size <= At(hi, k.pool)
  }

  ghost predicate Placed(k: Block) {
    && IsPow2(k.size) && k.addr % k.size == 0 && k.addr + k.size <= Limit(k.pool)
    && (k.pool == High ==> MEM_BASE64 <= k.addr) && (k.pool == Chosen ==> k.size == G4)
  }

  // Blocks of one pool are handed out upwards, so no two overlap.
  ghost predicate Ascending(blocks: seq<Block>) {
    forall i, j :: 0 <= i < j < |blocks| && blocks[i].pool == blocks[j].pool != Chosen ==>
      blocks[i].addr + blocks[i].size <= blocks[j].addr
  }

  ghost predicate Homed(blocks: seq<Block>, windows: seq<Window>) {
    forall k, w ::
      0 <= k < |blocks| && 0 <= w < |windows| && blocks[k].bus == windows[w].bus && blocks[k].pool != Chosen ==>
      Within(blocks[k], windows[w].base, windows[w].limit)
  }

  ghost predicate Separate(windows: seq<Window>) {
    forall v, w :: 0 <= v < w < |windows| ==>
      windows[v].bus < windows[w].bus && Before(windows[v].limit, windows[w].base)
  }

  ghost predicate Bounded(b: Bases, n: nat) {
    && n <= 256 && b.io <= IO_LIMIT + n * 2 * BUSMEM_ROUNDUP
    && b.low <= MEM_LIMIT32 + n * 2 * BUSMEM_ROUNDUP && b.high <= MEM_LIMIT64 + n * 2 * BUSMEM_ROUNDUP
  }

  ghost predicate Taken(blocks: seq<Block>, start: Bases, cur: Bases, bus: nat) {
    forall k :: 0 <= k < |blocks| ==>
      && Placed(blocks[k]) && blocks[k].bus <= bus
      && (blocks[k].pool != Chosen ==> blocks[k].addr + blocks[k].size <= At(cur, blocks[k].pool))
      && (blocks[k].pool != Chosen && blocks[k].bus == bus ==> At(start, blocks[k].pool) <= blocks[k].addr)
  }

  ghost predicate Closed(windows: seq<Window>, start: Bases, bus: nat) {
    forall w :: 0 <= w < |windows| ==>
      windows[w].bus < bus && Before(windows[w].base, windows[w].limit) && Before(windows[w].limit, start)
  }

  // Blocks from the pools never overlap, each lies in the window of its bus, and windows do not overlap.
  ghost predicate Plan(cur: Bases, start: Bases, bus: nat, windows: seq<Window>, blocks: seq<Block>) {
    && Before(start, cur) && Bounded(cur, |windows|) && MEM_BASE64 <= start.high
    && Taken(blocks, start, cur, bus) && Closed(windows, start, bus)
    && Ascending(blocks) && Homed(blocks, windows) && Separate(windows)
  }

  // Handing out a block.
  lemma TakeKeepsPlan(cur: Bases, start: Bases, bus: nat, windows: seq<Window>, blocks: seq<Block>, k: Block)
    requires Plan(cur, start, bus, windows, blocks)
    requires Placed(k) && k.bus == bus && At(cur, k.pool) <= k.addr
    ensures Plan(Moved(cur, k.pool, k.addr + k.size), start, bus, windows, blocks + [k])
  {}

  // Closing a bus.
  lemma EndKeepsPlan(cur: Bases, start: Bases, bus: nat, windows: seq<Window>, blocks: seq<Block>, next: Bases)
    requires Plan(cur, start, bus, windows, blocks)
    requires Before(cur, next) && Bounded(next, |windows| + 1)
    ensures Plan(next, next, bus + 1, windows + [Window(bus, start, next)], blocks)
  {}

  // A block where its caller wanted it lies between the two memory pools.
  predicate BesidePools(k: Block) {
    k.pool == Chosen ==> MEM_LIMIT32 <= k.addr && k.addr + k.size <= MEM_BASE64
  }

  // No two BARs overlap in the address space they share.  For BARs of 4GB that takes a place of its own.
  lemma BlocksApart(cur: Bases, start: Bases, bus: nat, windows: seq<Window>, blocks: seq<Block>, i: nat, j: nat)
    requires Plan(cur, start, bus, windows, blocks) && i < j < |blocks|
    requires BesidePools(blocks[i]) && BesidePools(blocks[j])
    requires blocks[i].pool == Chosen == blocks[j].pool ==> blocks[i].addr != blocks[j].addr
    requires blocks[i].pool == IoPool <==> blocks[j].pool == IoPool
    ensures blocks[i].addr + blocks[i].size <= blocks[j].addr || blocks[j].addr + blocks[j].size <= blocks[i].addr
  {
    assert Placed(blocks[i]) && Placed(blocks[j]);
  }

  // A block is a sound place for a BAR.
  lemma BlockMakesBar(kind: BarType, request: nat, k: Block)
    requires kind == Io || kind == Mem32 || kind == Mem64
    requires Placed(k) && k.size == BarSize(kind, request) && k.pool == PoolFor(kind, k.size)
    ensures BarOk(Bar(kind, k.size, k.addr))
  {
    BarSizeLeast(kind, request, 0);
  }

  // The slop added behind a bus, so that a guest can move BARs around.
  function AfterBus(b: Bases): (r: Bases)
    ensures b.io <= r.io <= b.io + 2 * BUSIO_ROUNDUP
    ensures b.low <= r.low <= b.low + 2 * BUSMEM_ROUNDUP && b.high <= r.high <= b.high + 2 * BUSMEM_ROUNDUP
  {
    Bases(RoundUp(b.io + BUSIO_ROUNDUP, BUSIO_ROUNDUP), RoundUp(b.low + BUSMEM_ROUNDUP, BUSMEM_ROUNDUP),
          RoundUp(b.high + BUSMEM_ROUNDUP, BUSMEM_ROUNDUP))
  }

  lemma AfterBusBounded(b: Bases, n: nat)
    requires Bounded(b, n) && n < 256
    ensures Before(b, AfterBus(b)) && Bounded(AfterBus(b), n + 1)
  {}

  // A BAR that a device asks for, and the physical address that matters if it is a 64-bit one of 4GB.
  datatype Request = Request(kind: BarType, size: nat, hostbase: nat)

  // Larger sizes are 2^63, which escapes the limit check (AllocSound), or have no power of two in 64 bits.
  predicate RequestOk(q: Request) {
    && (q.kind == Io || q.kind == Mem32 || q.kind == Mem64)
    && BarSize(q.kind, q.size) <= U64 / 4 && q.hostbase <= U64 / 4
  }

  predicate RequestsOk(requests: seq<Request>) {
    forall i :: 0 <= i < |requests| ==> RequestOk(requests[i])
  }

  // ---- the allocator at one moment ----

  datatype View = View(cur: Bases, start: Bases, bus: nat, windows: seq<Window>, blocks: seq<Block>)

  // Where the search for a block starts.
  function BaseFor(v: View, q: Request): nat {
    var pool := PoolFor(q.kind, BarSize(q.kind, q.size));
    if pool == Chosen then q.hostbase else At(v.cur, pool)
  }

  // The block a request gets: the next aligned one of its pool.
  function BlockFor(v: View, q: Request): Block {
    var size := BarSize(q.kind, q.size);
    Block(PoolFor(q.kind, size), RoundUp(BaseFor(v, q), size), size, v.bus)
  }

  predicate HasRoom(v: View, q: Request) {
    var k := BlockFor(v, q);
    k.addr + k.size <= Limit(k.pool)
  }

  function Granted(v: View, q: Request): View {
    var k := BlockFor(v, q);
    v.(cur := Moved(v.cur, k.pool, k.addr + k.size), blocks := v.blocks + [k])
  }

  // After the first n requests of a bus.
  function Filled(v: View, requests: seq<Request>, n: nat): (w: View)
    requires n <= |requests|
    ensures w.windows == v.windows && w.bus == v.bus && w.start == v.start && |w.blocks| == |v.blocks| + n
  {
    if n == 0 then v else Granted(Filled(v, requests, n - 1), requests[n - 1])
  }

  // The first n requests of a bus find room and lead to w.
  ghost predicate Serves(v: View, requests: seq<Request>, n: nat, w: View)
    requires n <= |requests|
  {
    w == Filled(v, requests, n) && forall j :: 0 <= j < n ==> HasRoom(Filled(v, requests, j), requests[j])
  }

  lemma ServesOneMore(v: View, requests: seq<Request>, n: nat, u: View)
    requires n < |requests| && Serves(v, requests, n, u) && HasRoom(u, requests[n])
    ensures Serves(v, requests, n + 1, Granted(u, requests[n]))
  {}

  // A bus is complete.
  function Ended(v: View): View {
    var next := AfterBus(v.cur);
    View(next, next, v.bus + 1, v.windows + [Window(v.bus, v.start, next)], v.blocks)
  }

  // All requests of a bus find room.
  ghost predicate BusFits(v: View, requests: seq<Request>) {
    Serves(v, requests, |requests|, Filled(v, requests, |requests|))
  }

  // A bus that does not fit, at the request that stops it.
  ghost predicate Refused(v: View, requests: seq<Request>, served: nat, w: View) {
    served < |requests| && Serves(v, requests, served, w) && !BusFits(v, requests) && !HasRoom(w, requests[served])
  }

  // After the first n buses.
  function Built(v: View, buses: seq<seq<Request>>, n: nat): (w: View)
    requires n <= |buses|
    ensures |w.windows| == |v.windows| + n && w.bus == v.bus + n
  {
    if n == 0 then v else var u := Built(v, buses, n - 1); Ended(Filled(u, buses[n - 1], |buses[n - 1]|))
  }

  ghost predicate BusesFit(v: View, buses: seq<seq<Request>>, n: nat)
    requires n <= |buses|
  {
    forall i :: 0 <= i < n ==> BusFits(Built(v, buses, i), buses[i])
  }

  // There is no room exactly when no aligned block fits.
  lemma RoomMeans(v: View, q: Request)
    requires RequestOk(q) && BaseFor(v, q) <= U64 / 4
    ensures var k, base := BlockFor(v, q), BaseFor(v, q);
      && (HasRoom(v, q) <==> !NoRoom(base, Limit(k.pool), k.size))
      && base <= k.addr && k.addr % k.size == 0
      && AllocResource(base, Limit(k.pool), k.size) == if HasRoom(v, q) then Just(k.addr) else Nothing
  {
    var k, base := BlockFor(v, q), BaseFor(v, q);
    AllocIs(base, Limit(k.pool), k.size);
    AllocInside(base, Limit(k.pool), k.size);
    RoundDownDivides(base + k.size - 1, k.size);
  }

  // What is granted keeps the plan and makes a sound BAR.
  lemma GrantKeepsPlan(v: View, q: Request)
    requires Plan(v.cur, v.start, v.bus, v.windows, v.blocks) && RequestOk(q)
    ensures var k := BlockFor(v, q);
      AllocResource(BaseFor(v, q), Limit(k.pool), k.size) == if HasRoom(v, q) then Just(k.addr) else Nothing
    ensures HasRoom(v, q) ==>
      var w, k := Granted(v, q), BlockFor(v, q);
      Plan(w.cur, w.start, w.bus, w.windows, w.blocks) && BarOk(Bar(q.kind, k.size, k.addr))
  {
    BarSizeLeast(q.kind, q.size, 0);
    RoomMeans(v, q);
    if HasRoom(v, q) {
      var k := BlockFor(v, q);
      TakeKeepsPlan(v.cur, v.start, v.bus, v.windows, v.blocks, k);
      BlockMakesBar(q.kind, q.size, k);
    }
  }

  // ---- where a BAR lies, by its kind and size ----

  /**
   * A 64-bit BAR of more than 32MB, but not of 4GB, lies above the 64-bit base; every other memory BAR, those of 4GB
   * apart, lies below the 32-bit limit; an I/O BAR lies below 64K.
   */
  lemma BarLies(v: View, q: Request)
    requires Plan(v.cur, v.start, v.bus, v.windows, v.blocks) && RequestOk(q) && HasRoom(v, q)
    ensures var k := BlockFor(v, q);
      && k.size == BarSize(q.kind, q.size) && k.addr % k.size == 0
      && (if q.kind == Io then k.addr + k.size <= 0x1_0000
          else if q.kind == Mem64 && k.size > 32 * 0x10_0000 then
            if k.size == 0x1_0000_0000 then q.hostbase <= k.addr < q.hostbase + k.size
            else 0xD0_0000_0000 <= k.addr && k.addr + k.size <= 0xFD_0000_0000
          else k.addr + k.size <= 0xE000_0000)
  {
    RoomMeans(v, q);
  }

  // The least multiple of 'unit' that leaves at least one unit free behind x.
  ghost predicate LeastSlop(x: nat, unit: nat, r: nat) {
    0 < unit && r % unit == 0 && x + unit <= r && forall m: nat :: m % unit == 0 && x + unit <= m ==> r <= m
  }

  lemma RoundUpLeaves(x: nat, unit: nat)
    requires 0 < unit
    ensures LeastSlop(x, unit, RoundUp(x + unit, unit))
  {
    RoundDownDivides(x + unit + unit - 1, unit);
    forall m: nat | m % unit == 0 && x + unit <= m ensures RoundUp(x + unit, unit) <= m {
      RoundUpLeast(x + unit, unit, m);
    }
  }

  /** The window of a bus ends at the least multiple of the roundup that leaves at least one roundup free. */
  lemma WindowEnds(v: View)
    ensures var w := Ended(v).windows[|v.windows|];
      && w.bus == v.bus && w.base == v.start && w.limit == Ended(v).cur == Ended(v).start
      && LeastSlop(v.cur.io, 32, w.limit.io) && LeastSlop(v.cur.low, 0x10_0000, w.limit.low)
      && LeastSlop(v.cur.high, 0x10_0000, w.limit.high)
  {
    RoundUpLeaves(v.cur.io, 32);
    RoundUpLeaves(v.cur.low, 0x10_0000);
    RoundUpLeaves(v.cur.high, 0x10_0000);
  }

  // ---- BARs of 4GB ----

  // Rounding up to 4GB, in steps of 4GB.
  lemma WholeSteps(base: nat) returns (m: nat)
    ensures RoundUp(base, G4) == m * G4
  {
    m := (base + G4 - 1) / G4;
  }

  /** A BAR of 4GB lies beside the pools if and only if its caller wants it between them. */
  lemma ChosenBeside(v: View, q: Request)
    requires RequestOk(q) && BlockFor(v, q).pool == Chosen
    ensures BesidePools(BlockFor(v, q)) <==> 0 < q.hostbase <= MEM_BASE64 - G4
  {
    var m := WholeSteps(q.hostbase);
    assert BlockFor(v, q).addr == m * G4 && BlockFor(v, q).size == G4;
  }

  // 4GB is a size of its own.
  lemma FourGigabytes(size: nat)
    requires size == G4
    ensures BarSize(Mem64, size) == size
  {
    KnownPowers();
    assert IsPow2(size);
    ZeroOrPow2Means(size);
  }

  /** Two BARs of 4GB that are wanted at the same place get the same place. */
  lemma ChosenTwice(v: View, q: Request)
    requires q.kind == Mem64 && q.size == G4 && q.hostbase <= MEM_LIMIT64 - G4
    ensures HasRoom(v, q) && HasRoom(Granted(v, q), q) && BlockFor(Granted(v, q), q) == BlockFor(v, q)
  {
    FourGigabytes(q.size);
    RoundUpLeast(q.hostbase, G4, MEM_LIMIT64 - G4);
  }

  // ---- what the window fields of a bus hold ----

  // The fields are 16, 32 and 64 bits wide.
  function Stored(b: Bases): Bases {
    Bases(b.io % K64, b.low % G4, b.high % U64)
  }

  predicate StoredWhole(w: Window) {
    Stored(w.base) == w.base && Stored(w.limit) == w.limit
  }

  /** The fields show the window of a bus, and so hold its blocks, exactly when no bound is past their width. */
  lemma WindowShown(cur: Bases, start: Bases, bus: nat, windows: seq<Window>, blocks: seq<Block>, w: nat, k: nat)
    requires Plan(cur, start, bus, windows, blocks) && w < |windows| && k < |blocks|
    ensures StoredWhole(windows[w]) <==>
      windows[w].base.io < K64 && windows[w].limit.io < K64 && windows[w].base.low < G4 && windows[w].limit.low < G4
    ensures StoredWhole(windows[w]) && blocks[k].bus == windows[w].bus && blocks[k].pool != Chosen ==>
      Within(blocks[k], Stored(windows[w].base), Stored(windows[w].limit))
  {
    HighStays(cur, start, bus, windows, blocks, w);
  }

  // Half of the I/O space is a size of its own.
  lemma HalfOfIo(size: nat)
    requires size == 0x8000
    ensures BarSize(Io, size) == size
  {
    KnownPowers();
    assert Pow2(16) == 2 * Pow2(15);
    assert IsPow2(size);
    ZeroOrPow2Means(size);
  }

  /** An I/O BAR at the end of the pool takes the window of its bus past the width of its fields. */
  lemma WindowCut(v: View, q: Request)
    requires v.cur.io == IO_BASE && q.kind == Io && q.size == 0x8000
    ensures HasRoom(v, q) && !StoredWhole(Window(v.bus, v.start, AfterBus(Granted(v, q).cur)))
  {
    HalfOfIo(q.size);
    RoundDownIs(IO_BASE + q.size - 1, q.size, q.size);
  }

  lemma HighStays(cur: Bases, start: Bases, bus: nat, windows: seq<Window>, blocks: seq<Block>, w: nat)
    requires Plan(cur, start, bus, windows, blocks) && w < |windows|
    ensures windows[w].base.high < U64 && windows[w].limit.high < U64
  {
    assert Before(windows[w].limit, start);
  }

  class Allocator {
    var cur: Bases
    var bus: nat
    var start: Bases           // where the current bus began
    var windows: seq<Window>   // buses already set up
    var blocks: seq<Block>     // every BAR handed out

    // The quantifier keeps the plan out of proofs that only hand it on.
    ghost predicate Valid()
      reads this
    {
      forall b :: b == blocks ==> Plan(cur, start, bus, windows, b)
    }

    ghost function Now(): View
      reads this
    {
      View(cur, start, bus, windows, blocks)
    }

    constructor (lowmem: nat)
      requires lowmem <= MEM_LIMIT32
      ensures Valid() && Now() == View(cur, cur, 0, [], []) && cur == Bases(IO_BASE, lowmem, MEM_BASE64)
    {
      cur := Bases(IO_BASE, lowmem, MEM_BASE64);
      start, bus, windows, blocks := Bases(IO_BASE, lowmem, MEM_BASE64), 0, [], [];
    }

    // A BAR of the requested size, rounded up, from the pool of its kind.
    method AllocBar(q: Request) returns (r: Option<Block>)
      requires Valid() && RequestOk(q)
      modifies this`cur, this`blocks
      ensures Valid() && (r.Just? <==> HasRoom(old(Now()), q))
      ensures r.Just? ==> r.value == BlockFor(old(Now()), q) && BarOk(Bar(q.kind, r.value.size, r.value.addr))
      ensures Now() == if r.Just? then Granted(old(Now()), q) else old(Now())
    {
      var size := BarSize(q.kind, q.size);
      var pool := PoolFor(q.kind, size);
      assert Plan(cur, start, bus, windows, blocks);
      GrantKeepsPlan(Now(), q);
      var at := AllocResource(if pool == Chosen then q.hostbase else At(cur, pool), Limit(pool), size);
      if at.Nothing? {
        return Nothing;
      }
      var k := Block(pool, at.value, size, bus);
      cur := Moved(cur, pool, at.value + size);
      blocks := blocks + [k];
      r := Just(k);
    }

    // The current bus is complete: add slop, record its window.
    method EndBus()
      requires Valid() && |windows| < 256
      modifies this`cur, this`start, this`bus, this`windows
      ensures Valid() && Now() == Ended(old(Now()))
    {
      var next := AfterBus(cur);
      assert Plan(cur, start, bus, windows, blocks);
      AfterBusBounded(cur, |windows|);
      EndKeepsPlan(cur, start, bus, windows, blocks, next);
      cur := next;
      windows := windows + [Window(bus, start, next)];
      start, bus := next, bus + 1;
    }

    // The BARs of one bus, up to the first request that finds no room.
    method FillBus(requests: seq<Request>) returns (served: nat)
      requires Valid() && RequestsOk(requests)
      modifies this`cur, this`blocks
      ensures Valid() && served <= |requests| && Serves(old(Now()), requests, served, Now())
      ensures served < |requests| ==> !HasRoom(Now(), requests[served])
    {
      ghost var v := Now();
      served := 0;
      while served < |requests|
        invariant Valid() && served <= |requests| && Serves(v, requests, served, Now())
      {
        ghost var u := Now();
        var r := AllocBar(requests[served]);
        if r.Nothing? {
          return;
        }
        ServesOneMore(v, requests, served, u);
        served := served + 1;
      }
    }

    // One bus: its BARs, then its window.
    method InitBus(requests: seq<Request>) returns (served: nat, ok: bool)
      requires Valid() && |windows| < 256 && RequestsOk(requests)
      modifies this
      ensures Valid() && served <= |requests| && (ok <==> BusFits(old(Now()), requests))
      ensures ok ==> served == |requests| && Now() == Ended(Filled(old(Now()), requests, served))
      ensures !ok ==> Refused(old(Now()), requests, served, Now())
    {
      served := FillBus(requests);
      ok := served == |requests|;
      if ok {
        EndBus();
      }
    }

    /**
     * Bus after bus, the BARs its devices ask for.  The run stops exactly at the first request that finds no room.
     */
    method InitPci(buses: seq<seq<Request>>) returns (done: nat, served: nat)
      requires Valid() && |windows| + |buses| <= 256
      requires forall i :: 0 <= i < |buses| ==> RequestsOk(buses[i])
      modifies this
      ensures Valid() && done <= |buses| && BusesFit(old(Now()), buses, done)
      ensures done == |buses| ==> Now() == Built(old(Now()), buses, done)
      ensures done < |buses| ==> Refused(Built(old(Now()), buses, done), buses[done], served, Now())
    {
      ghost var v := Now();
      done, served := 0, 0;
      while done < |buses|
        invariant Valid() && done <= |buses| && Now() == Built(v, buses, done) && BusesFit(v, buses, done)
      {
        var ok;
        served, ok := InitBus(buses[done]);
        if !ok {
          return;
        }
        done := done + 1;
      }
    }
  }
}
