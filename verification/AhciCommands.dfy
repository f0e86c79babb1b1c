// Commands of an AHCI disk port: command tables, the command switch, and the requests that commands lead to.
module AhciCommands {
  import opened AhciScatter
  import opened Octets
  import opened Powers

  const SLOTS := 32
  const REG_H2D := 0x27
  const TRIM_BYTES := 512

  type Slot = n: nat | n < SLOTS
  type Positive = n: nat | 0 < n witness 1

  /**
   * A command table as the port finds it in guest memory: the command FIS, the PRDT, and the 512 bytes that a trim
   * command would read as its list.
   */
  datatype TableBytes = Table(cfis: seq<Byte>, prdt: seq<Segment>, buffer: seq<Byte>)
  type Table = t: TableBytes | |t.cfis| == 20 && Entries(t.prdt) && |t.buffer| == TRIM_BYTES
    witness Table(seq(20, _ => 0), [], seq(TRIM_BYTES, _ => 0))

  predicate HostToDevice(t: Table) {
    t.cfis[0] == REG_H2D
  }

  // The FIS carries a command, not a change of the control register.
  predicate Command(t: Table) {
    t.cfis[1] >= 128
  }

  // What accepting a command leads to: an answer at once, or a request to the block backend.
  datatype Action = Immediate(ok: bool) | Rw(queued: bool) | Flush | Trim(queued: bool)

  // Command codes of the ATA command set.
  const ATA_IDENTIFY := 0xec
  const SET_FEATURES := 0xef
  const SET_MULTI := 0xc6
  const READ := 0x20
  const WRITE := 0x30
  const READ48 := 0x24
  const WRITE48 := 0x34
  const READ_MUL := 0xc4
  const WRITE_MUL := 0xc5
  const READ_MUL48 := 0x29
  const WRITE_MUL48 := 0x39
  const READ_DMA := 0xc8
  const WRITE_DMA := 0xca
  const READ_DMA48 := 0x25
  const WRITE_DMA48 := 0x35
  const READ_FPDMA := 0x60
  const WRITE_FPDMA := 0x61
  const SEND_FPDMA := 0x64
  const FLUSH_CACHE := 0xe7
  const FLUSH_CACHE48 := 0xea
  const DATA_SET_MANAGEMENT := 0x06
  const READ_LOG := 0x2f
  const READ_LOG_DMA := 0x47
  const CHECK_POWER_MODE := 0xe5
  const STANDBY := 0xe2
  const STANDBY_IMMEDIATE := 0xe0
  const IDLE := 0xe3
  const IDLE_IMMEDIATE := 0xe1
  const SLEEP := 0xe6
  const READ_VERIFY := 0x40
  const READ_VERIFY48 := 0x42

  // Native queued commands.
  predicate Queued(t: Table) {
    t.cfis[2] == READ_FPDMA || t.cfis[2] == WRITE_FPDMA || t.cfis[2] == SEND_FPDMA
  }

  // Data set management, plain or queued.
  predicate Dsm(t: Table) {
    t.cfis[2] == DATA_SET_MANAGEMENT || (t.cfis[2] == SEND_FPDMA && t.cfis[13] % 32 == 0)
  }

  predicate Rw48(op: Byte) {
    op == READ48 || op == WRITE48 || op == READ_MUL48 || op == WRITE_MUL48 || op == READ_DMA48 || op == WRITE_DMA48
  }

  predicate Rw28(op: Byte) {
    op == READ || op == WRITE || op == READ_MUL || op == WRITE_MUL || op == READ_DMA || op == WRITE_DMA
  }

  // Commands that succeed without doing anything.
  predicate Harmless(op: Byte) {
    || op == CHECK_POWER_MODE || op == STANDBY || op == STANDBY_IMMEDIATE || op == IDLE || op == IDLE_IMMEDIATE
    || op == SLEEP || op == READ_VERIFY || op == READ_VERIFY48
  }

  // The feature is known: notification, write cache, read-ahead or transfer mode.
  predicate KnownFeature(feature: Byte, count: Byte) {
    if feature == 0x10 then count == 0x05
    else feature == 0x02 || feature == 0x82 || feature == 0xaa || feature == 0x55 || feature == 0x03
  }

  // Sectors per block: none, or a power of two up to 128.
  predicate MultipleOk(n: Byte) {
    n == 0 || n == 1 || n == 2 || n == 4 || n == 8 || n == 16 || n == 32 || n == 64 || n == 128
  }

  // The command switch of a disk port.
  function Dispatch(t: Table): (a: Action)
    ensures a.Rw? ==> a.queued == Queued(t) && !Dsm(t)
    ensures a.Trim? ==> a.queued == Queued(t) && Dsm(t) && TrimLen(t) == TRIM_BYTES
    ensures a.Flush? ==> !Queued(t) && !Dsm(t)
  {
    var f := t.cfis;
    var op := f[2];
    if op == ATA_IDENTIFY then Immediate(t.prdt != [])
    else if op == SET_FEATURES then Immediate(KnownFeature(f[3], f[12]))
    else if op == SET_MULTI then Immediate(MultipleOk(f[12]))
    else if Rw28(op) || Rw48(op) then Rw(false)
    else if op == READ_FPDMA || op == WRITE_FPDMA then Rw(true)
    else if op == FLUSH_CACHE || op == FLUSH_CACHE48 then Flush
    else if op == DATA_SET_MANAGEMENT then
      if f[11] == 0 && f[3] == 1 && f[13] == 0 && f[12] == 1 then Trim(false) else Immediate(false)
    else if op == SEND_FPDMA then
      if f[13] % 32 == 0 && f[17] == 0 && f[16] == 1 && f[11] == 0 && f[3] == 1 then Trim(true) else Immediate(false)
    else if op == READ_LOG || op == READ_LOG_DMA then
      Immediate(t.prdt != [] && f[5] == 0 && f[9] == 0 && f[12] == 1 && f[13] == 0
                && (f[4] == 0x00 || f[4] == 0x10 || f[4] == 0x13))
    else Immediate(Harmless(op))
  }

  function Number(high: nat, low: nat): nat {
    high * 256 + low
  }

  // ---- reads and writes ----

  predicate Wide(t: Table) {
    t.cfis[2] == READ_FPDMA || t.cfis[2] == WRITE_FPDMA || Rw48(t.cfis[2])
  }

  // Sectors a read or write moves; a count of zero stands for the largest.
  function Sectors(t: Table): (n: nat)
    ensures 0 < n
  {
    var f := t.cfis;
    var n := if f[2] == READ_FPDMA || f[2] == WRITE_FPDMA then Number(f[11], f[3])
             else if Rw48(f[2]) then Number(f[13], f[12])
             else Number(0, f[12]);
    if n > 0 then n else if Wide(t) then 65536 else 256
  }

  // The first sector.
  function Lba(t: Table): nat {
    var f := t.cfis;
    if Wide(t) then Number(Number(Number(Number(Number(f[10], f[9]), f[8]), f[6]), f[5]), f[4])
    else Number(Number(Number(f[7] % 16, f[6]), f[5]), f[4])
  }

  function Scaled(n: nat, size: nat): nat {
    n * size
  }

  lemma WholeLength(sectors: nat, sectsz: nat)
    requires 0 < sectsz && 0 < sectors
    ensures 0 < Scaled(sectors, sectsz) && Scaled(sectors, sectsz) % sectsz == 0
  {
    PositiveMultiple(sectors, sectsz);
    MultipleDivides(sectors, sectsz);
  }

  // Where on the disk the transfer starts, and how long it is.
  function DiskOffset(t: Table, sectsz: nat): nat {
    Scaled(Lba(t), sectsz)
  }

  function Len(t: Table, sectsz: Positive): (n: nat)
    ensures 0 < n && n % sectsz == 0
  {
    WholeLength(Sectors(t), sectsz);
    Scaled(Sectors(t), sectsz)
  }

  // ---- trim lists ----

  // The length in bytes that the command gives for its list.
  function TrimLen(t: Table): nat {
    var f := t.cfis;
    512 * if f[2] == DATA_SET_MANAGEMENT then Number(f[13], f[12]) else Number(f[11], f[3])
  }

  // First sector and number of sectors of the entry at byte 'at' of a list.
  function EntryLba(b: seq<Byte>, at: nat): nat
    requires at + 8 <= |b|
  {
    Number(Number(Number(Number(Number(b[at + 5], b[at + 4]), b[at + 3]), b[at + 2]), b[at + 1]), b[at])
  }

  function EntryLen(b: seq<Byte>, at: nat): nat
    requires at + 8 <= |b|
  {
    Number(b[at + 7], b[at + 6])
  }

  // How the search for the next entry ends: behind it, at the end of the list, or outside the buffer.
  datatype Scan = Found(next: nat) | Exhausted | Strays

  function ScanFrom(b: seq<Byte>, at: nat, len: nat): (r: Scan)
    ensures r.Found? ==> at + 8 <= r.next <= |b|
    decreases |b| - at
  {
    if at + 8 > |b| then Strays
    else if EntryLen(b, at) != 0 then Found(at + 8)
    else if at + 8 >= len then Exhausted
    else ScanFrom(b, at + 8, len)
  }

  // From entry k of a list that fills the buffer, the search stays inside it.  It ends behind entry m, which is not
  // empty, or at the end; the entries in between are empty.
  lemma {:induction false} ScanMeans(b: seq<Byte>, k: nat) returns (m: nat)
    requires |b| == TRIM_BYTES && k < 64
    ensures k <= m <= 64 && ScanFrom(b, 8 * k, TRIM_BYTES) == if m < 64 then Found(8 * m + 8) else Exhausted
    ensures m < 64 ==> EntryLen(b, 8 * m) != 0
    ensures forall e: nat :: k <= e < m ==> EntryLen(b, 8 * e) == 0
    decreases 64 - k
  {
    if EntryLen(b, 8 * k) != 0 {
      m := k;
    } else if k == 63 {
      m := 64;
    } else {
      m := ScanMeans(b, k + 1);
    }
  }

  // The first search of a trim command stays inside its buffer.
  lemma FirstScan(t: Table)
    requires Dispatch(t).Trim?
    ensures !ScanFrom(t.buffer, 0, TrimLen(t)).Strays?
  {
    var m := ScanMeans(t.buffer, 0);
  }

  // The search from byte 'at' goes past the i-th entry, or there is no such entry in the buffer.
  predicate PassesBy(b: seq<Byte>, at: nat, i: nat, len: nat) {
    at + 8 * i + 8 <= |b| ==> EntryLen(b, at + 8 * i) == 0 && at + 8 * i + 8 < len
  }

  // The search from byte 'at' goes past every entry.
  ghost predicate PassesAll(b: seq<Byte>, at: nat, len: nat) {
    forall i: nat :: PassesBy(b, at, i, len)
  }

  lemma PassesAllStep(b: seq<Byte>, at: nat, len: nat)
    ensures PassesAll(b, at, len) <==> PassesBy(b, at, 0, len) && PassesAll(b, at + 8, len)
  {
    var next := at + 8;
    if PassesAll(b, at, len) {
      forall i: nat ensures PassesBy(b, next, i, len) {
        assert PassesBy(b, at, i + 1, len);
      }
    }
    if PassesBy(b, at, 0, len) && PassesAll(b, next, len) {
      forall i: nat ensures PassesBy(b, at, i, len) {
        assert i > 0 ==> PassesBy(b, next, i - 1, len);
      }
    }
  }

  /** The search leaves the buffer exactly when every entry left in it is empty and none is the last of the list. */
  lemma {:induction false} ScanStrays(b: seq<Byte>, at: nat, len: nat)
    ensures ScanFrom(b, at, len).Strays? <==> PassesAll(b, at, len)
    decreases |b| - at
  {
    if at + 8 <= |b| {
      ScanStrays(b, at + 8, len);
      PassesAllStep(b, at, len);
    }
  }

  // ---- task file register: the status bits by name, and the error byte ----

  datatype TaskFile = TaskFile(busy: bool, ready: bool, dma: bool, seek: bool, drq: bool, err: bool, error: Byte)

  const ATA_OK := TaskFile(false, true, false, true, false, false, 0)
  const ATA_ABORTED := TaskFile(false, true, false, false, false, true, 0x04)
  const ATA_RESET := TaskFile(false, true, true, true, false, false, 0x01)

  predicate Idle(tfd: TaskFile) {
    !tfd.busy && !tfd.drq
  }

  // ---- requests ----

  // What the backend is asked to do.
  datatype BlockOp = ReadBlocks | WriteBlocks | FlushBlocks | DeleteBlocks

  /**
   * An entry of the request pool: the slot it serves, the command table in guest memory, how far its command is,
   * whether more passes follow, and what the backend was asked.
   */
  datatype Ioreq = Ioreq(slot: Slot, table: Table, done: nat, more: bool, op: BlockOp, breq: BlockReq)

  predicate Writes(t: Table) {
    var op := t.cfis[2];
    || op == WRITE || op == WRITE48 || op == WRITE_MUL || op == WRITE_MUL48 || op == WRITE_DMA || op == WRITE_DMA48
    || op == WRITE_FPDMA
  }

  // The pass of a read or write that starts at byte 'from'.
  function RwReq(slot: Slot, t: Table, from: nat, sectsz: Positive): Ioreq {
    var len := Len(t, sectsz);
    Ioreq(slot, t, PassEnd(t.prdt, from, len, sectsz), PassMore(t.prdt, from, len, sectsz),
          if Writes(t) then WriteBlocks else ReadBlocks, PassReq(t.prdt, DiskOffset(t, sectsz), from, len, sectsz))
  }

  predicate RwOk(t: Table, from: nat, sectsz: Positive) {
    PassOk(t.prdt, from, Len(t, sectsz), sectsz)
  }

  function FlushReq(slot: Slot, t: Table): Ioreq {
    Ioreq(slot, t, 0, false, FlushBlocks, BlockReq(0, 0, []))
  }

  // What an entry of a trim list asks of the backend.
  function EntryReq(b: seq<Byte>, at: nat, sectsz: nat): BlockReq
    requires at + 8 <= |b|
  {
    BlockReq(Scaled(EntryLba(b, at), sectsz), Scaled(EntryLen(b, at), sectsz), [])
  }

  // The entry of a trim list that ends at byte 'next'.
  function TrimReq(slot: Slot, t: Table, next: nat, sectsz: Positive): Ioreq
    requires 8 <= next <= TRIM_BYTES
  {
    Ioreq(slot, t, next, next != TrimLen(t), DeleteBlocks, EntryReq(t.buffer, next - 8, sectsz))
  }

  // A pass that is followed by another has done something.
  lemma MoreHasDone(slot: Slot, t: Table, from: nat, sectsz: Positive)
    requires RwOk(t, from, sectsz) && RwReq(slot, t, from, sectsz).more
    ensures 0 < RwReq(slot, t, from, sectsz).done
  {
    MoreMeans(t.prdt, from, Len(t, sectsz), sectsz);
  }

  // ---- what the bytes of a command mean, by the ATA command set ----

  const LONG_READS := {0x24, 0x25, 0x29}

  const LONG_WRITES := {0x34, 0x35, 0x39}

  const SHORT_READS := {0x20, 0xc4, 0xc8}

  const SHORT_WRITES := {0x30, 0xc5, 0xca}

  const QUEUED_READS := {0x60}

  const QUEUED_WRITES := {0x61}

  const FLUSHES := {0xe7, 0xea}

  const LONG := LONG_READS + LONG_WRITES
  const SHORT := SHORT_READS + SHORT_WRITES
  const QUEUED := QUEUED_READS + QUEUED_WRITES
  const ALL_READS := LONG_READS + SHORT_READS + QUEUED_READS
  const ALL_WRITES := LONG_WRITES + SHORT_WRITES + QUEUED_WRITES

  const NO_OPERATION := {0x40, 0x42, 0xe0, 0xe1, 0xe2, 0xe3, 0xe5, 0xe6}

  const OTHERS := {0x06, 0x2f, 0x47, 0x64, 0xc6, 0xec, 0xef}

  /** Which commands read, write and flush, which of them are queued, and which succeed or fail at once. */
  lemma CommandMeans(t: Table)
    ensures var op := t.cfis[2];
      && (op in NO_OPERATION ==> Dispatch(t) == Immediate(true))
      && (op !in ALL_READS + ALL_WRITES + FLUSHES + NO_OPERATION + OTHERS ==> Dispatch(t) == Immediate(false))
      && (Dispatch(t).Rw? <==> op in ALL_READS + ALL_WRITES)
      && (Dispatch(t).Flush? <==> op in FLUSHES)
      && (Dispatch(t).Trim? <==>
            || (op == 0x06 && t.cfis[3] == 1 && t.cfis[11] == 0 && t.cfis[12] == 1 && t.cfis[13] == 0)
            || (op == 0x64 && t.cfis[3] == 1 && t.cfis[11] == 0 && t.cfis[13] % 32 == 0 && t.cfis[16] == 1
                && t.cfis[17] == 0))
      && (Dispatch(t).Rw? ==> (Dispatch(t).queued <==> op in QUEUED) && (Writes(t) <==> op in ALL_WRITES))
  {}

  // What six bytes are worth, each by its place.
  function Worth(b0: Byte, b1: Byte, b2: Byte, b3: Byte, b4: Byte, b5: Byte): nat {
    b0 + 0x100 * b1 + 0x1_0000 * b2 + 0x100_0000 * b3 + 0x1_0000_0000 * b4 + 0x100_0000_0000 * b5
  }

  /**
   * The FIS names sectors lba, lba + 1 and so on, 'count' of them.  Bytes 4, 5, 6, 8, 9 and 10 give the first sector,
   * or 4, 5, 6 and the low half of byte 7 in a command with 28-bit addresses; the largest count is spelt as zero.
   */
  predicate Names(f: seq<Byte>, lba: nat, count: nat)
    requires |f| == 20
  {
    if f[2] in QUEUED then
      && lba == Worth(f[4], f[5], f[6], f[8], f[9], f[10])
      && 0 < count <= 0x1_0000 && count % 0x1_0000 == Worth(f[3], f[11], 0, 0, 0, 0)
    else if f[2] in LONG then
      && lba == Worth(f[4], f[5], f[6], f[8], f[9], f[10])
      && 0 < count <= 0x1_0000 && count % 0x1_0000 == Worth(f[12], f[13], 0, 0, 0, 0)
    else
      lba == Worth(f[4], f[5], f[6], f[7] % 16, 0, 0) && 0 < count <= 0x100 && count % 0x100 == f[12]
  }

  lemma LastByte(x: nat) returns (high: nat, low: Byte)
    ensures x == 0x100 * high + low
  {
    high, low := x / 256, x % 256;
  }

  // Every number of 48 bits is spelt by six bytes.
  lemma EveryNumber(x: nat) returns (b0: Byte, b1: Byte, b2: Byte, b3: Byte, b4: Byte, b5: Byte)
    requires x < 0x1_0000_0000_0000
    ensures x == Worth(b0, b1, b2, b3, b4, b5)
    ensures x < 0x1000_0000 ==> b3 < 16 && b4 == 0 == b5
    ensures x < 0x1_0000 ==> b2 == 0 == b3
  {
    var x1, x2, x3, x4, x5;
    x1, b0 := LastByte(x);
    x2, b1 := LastByte(x1);
    x3, b2 := LastByte(x2);
    x4, b3 := LastByte(x3);
    x5, b4 := LastByte(x4);
    b5 := x5;
  }

  // A count in two bytes, the largest one as zero.
  lemma EveryCount(count: nat) returns (low: Byte, high: Byte)
    requires 0 < count <= 0x1_0000
    ensures count % 0x1_0000 == Worth(low, high, 0, 0, 0, 0)
    ensures count <= 0x100 ==> count % 0x100 == low
  {
    var h;
    h, low := LastByte(if count == 0x1_0000 then 0 else count);
    high := h;
  }

  lemma ShortNames(op: Byte, lba: nat, count: nat) returns (f: seq<Byte>)
    requires op in SHORT && lba < 0x1000_0000 && 0 < count <= 0x100
    ensures |f| == 20 && f[2] == op && Names(f, lba, count)
  {
    var b0, b1, b2, b3, b4, b5 := EveryNumber(lba);
    var low, high := EveryCount(count);
    assert (64 + b3) % 16 == b3;
    f := [REG_H2D, 128, op, 0, b0, b1, b2, 64 + b3, 0, 0, 0, 0, low, 0, 0, 0, 0, 0, 0, 0];
    assert f[2] !in QUEUED && f[2] !in LONG;
  }

  lemma LongNames(op: Byte, lba: nat, count: nat) returns (f: seq<Byte>)
    requires op in LONG && lba < 0x1_0000_0000_0000 && 0 < count <= 0x1_0000
    ensures |f| == 20 && f[2] == op && Names(f, lba, count)
  {
    var b0, b1, b2, b3, b4, b5 := EveryNumber(lba);
    var low, high := EveryCount(count);
    f := [REG_H2D, 128, op, 0, b0, b1, b2, 64, b3, b4, b5, 0, low, high, 0, 0, 0, 0, 0, 0];
    assert f[2] !in QUEUED;
  }

  lemma QueuedNames(op: Byte, lba: nat, count: nat) returns (f: seq<Byte>)
    requires op in QUEUED && lba < 0x1_0000_0000_0000 && 0 < count <= 0x1_0000
    ensures |f| == 20 && f[2] == op && Names(f, lba, count)
  {
    var b0, b1, b2, b3, b4, b5 := EveryNumber(lba);
    var low, high := EveryCount(count);
    f := [REG_H2D, 128, op, low, b0, b1, b2, 64, b3, b4, b5, high, 0, 0, 0, 0, 0, 0, 0, 0];
  }

  /** Any sectors of the disk can be named: those below 2^48 by the long commands, below 2^28 by the short ones. */
  lemma AnySectors(op: Byte, lba: nat, count: nat) returns (f: seq<Byte>)
    requires op in LONG + SHORT + QUEUED
    requires if op in SHORT then lba < 0x1000_0000 && 0 < count <= 0x100
             else lba < 0x1_0000_0000_0000 && 0 < count <= 0x1_0000
    ensures |f| == 20 && f[2] == op && Names(f, lba, count)
  {
    if op in SHORT {
      f := ShortNames(op, lba, count);
    } else if op in LONG {
      f := LongNames(op, lba, count);
    } else {
      f := QueuedNames(op, lba, count);
    }
  }

  // What the bytes of an address come to.
  lemma LbaMeans(t: Table)
    ensures Lba(t) == if Wide(t) then Worth(t.cfis[4], t.cfis[5], t.cfis[6], t.cfis[8], t.cfis[9], t.cfis[10])
                      else Worth(t.cfis[4], t.cfis[5], t.cfis[6], t.cfis[7] % 16, 0, 0)
  {}

  lemma CountMeans(count: nat, spelt: nat, most: nat)
    requires spelt < most
    ensures 0 < count <= most && count % most == spelt <==> count == if spelt > 0 then spelt else most
  {
    if count < most {
      Remainder(0, count, most);
    }
  }

  /** Every read or write names exactly the sectors that the port works out for it. */
  lemma NamesMeans(t: Table, lba: nat, count: nat)
    requires Dispatch(t).Rw?
    ensures Names(t.cfis, lba, count) <==> lba == Lba(t) && count == Sectors(t)
  {
    var f := t.cfis;
    LbaMeans(t);
    CountMeans(count, Worth(f[3], f[11], 0, 0, 0, 0), 0x1_0000);
    CountMeans(count, Worth(f[12], f[13], 0, 0, 0, 0), 0x1_0000);
    CountMeans(count, f[12], 0x100);
  }

  /** A stretch of the disk: first sector and number of sectors. */
  datatype Extent = Extent(lba: nat, count: nat)

  // The entry at byte 'at' of a trim list: six bytes for the first sector and two for the number of sectors.
  predicate NamesExtent(b: seq<Byte>, at: nat, x: Extent)
    requires at + 8 <= |b|
  {
    && x.lba == Worth(b[at], b[at + 1], b[at + 2], b[at + 3], b[at + 4], b[at + 5])
    && x.count == Worth(b[at + 6], b[at + 7], 0, 0, 0, 0)
  }

  /** Every entry names exactly the stretch that the port works out for it. */
  lemma ExtentMeans(b: seq<Byte>, at: nat, x: Extent)
    requires at + 8 <= |b|
    ensures NamesExtent(b, at, x) <==> x == Extent(EntryLba(b, at), EntryLen(b, at))
  {}
}
