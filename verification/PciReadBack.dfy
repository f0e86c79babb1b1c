// What a guest reads back of what it wrote to configuration space.
module PciReadBack {
  import opened ConfigBytes
  import opened Octets
  import opened PciCapabilities

  // ---- one byte ----

  // Byte 'at' of the command/status dword: bits 0 to 6 and 8 to 10 are writable.
  predicate CommandReads(at: nat, was: Byte, written: Byte, now: Byte) {
    if at == 0 then now % 128 == written % 128 && now / 128 == was / 128
    else if at == 1 then now % 8 == written % 8 && now / 8 == was / 8
    else now == was
  }

  // The first byte of an MSI control word: enable (bit 0) and multiple message enable (bits 4 to 6) are writable.
  predicate MsiReads(was: Byte, written: Byte, now: Byte) {
    now % 2 == written % 2 && now / 2 % 8 == was / 2 % 8 && now / 16 % 8 == written / 16 % 8 && now / 128 == was / 128
  }

  // The second byte of an MSI-X control word: enable and function mask (bits 6 and 7) are writable.
  predicate MsixReads(was: Byte, written: Byte, now: Byte) {
    now % 64 == was % 64 && now / 64 == written / 64
  }

  // Byte 'at' of a capability.  'control' says that the write covers the whole control word.
  predicate CapReads(id: Byte, at: nat, control: bool, was: Byte, written: Byte, now: Byte) {
    if at < 2 || id !in {0x05, 0x10, 0x11} then now == was
    else if at < 4 && control && id == 0x05 then if at == 2 then MsiReads(was, written, now) else now == was
    else if at < 4 && control && id == 0x11 then if at == 3 then MsixReads(was, written, now) else now == was
    else now == written
  }

  // Byte j of a write at 'off'; k is the capability it lies in, if any.
  ghost predicate ReadsBack(a: seq<Byte>, caps: seq<Cap>, k: nat, off: nat, val: seq<Byte>, bar: seq<Byte>,
                            b: seq<Byte>, j: nat)
    requires |a| == REGS == |b| && off + |val| <= REGS && |bar| == 4 && |val| <= 4 && j < |val|
  {
    var x := off + j;
    if 0x10 <= x < 0x28 then b[x] == if |val| == 4 then bar[j] else a[x]
    else if CAP_START <= x < NextFree(caps) then
      && k < |caps| && Off(caps[k]) <= x < End(caps[k])
      && CapReads(caps[k].id, x - Off(caps[k]), off <= Off(caps[k]) + 2 && Off(caps[k]) + 4 <= off + |val|,
                  a[x], val[j], b[x])
    else if 4 <= x < 8 then CommandReads(x - 4, a[x], val[j], b[x])
    else b[x] == val[j]
  }

  // ---- a write inside a capability ----

  lemma MsiBodyReads(was: Byte, written: Byte)
    ensures MsiRest(was) + MsiBits(written) < 256
    ensures MsiReads(was, written, MsiRest(was) + MsiBits(written))
  {
    MsiMerged(was, written);
    BitFields(MsiRest(was) + MsiBits(written), written % 2, was / 2 % 8, written / 16 % 8, was / 128);
  }

  // The control word, written as a whole.
  lemma ControlReads(cfg: seq<Byte>, h: nat, val: seq<Byte>, j: nat)
    requires |cfg| == REGS && h + 4 <= REGS && |val| == 2 && j < 2
    ensures CapReads(cfg[h], 2 + j, true, cfg[h + 2 + j], val[j], StoreBody(cfg, h, h + 2, val)[h + 2 + j])
  {
    if cfg[h] == PCIY_MSI {
      MsiBodyReads(cfg[h + 2], val[0]);
      MsiBytes(cfg, h, val);
    } else if cfg[h] == PCIY_MSIX {
      MsixMerged(cfg[h + 3], val[1]);
      MsixBytes(cfg, h, val);
    } else {
      PlainReads(cfg, h, h + 2, val, j);
    }
  }

  // Anything else past the header.
  lemma PlainReads(cfg: seq<Byte>, h: nat, off: nat, val: seq<Byte>, j: nat)
    requires |cfg| == REGS && h + 2 <= off && off + |val| <= REGS && j < |val|
    requires !(off == h + 2 && |val| == 2) || (cfg[h] != PCIY_MSI && cfg[h] != PCIY_MSIX)
    ensures StoreBody(cfg, h, off, val)[off + j] ==
            if cfg[h] in {0x05, 0x10, 0x11} then val[j] else cfg[off + j]
  {}

  // The whole of a capability.  Capabilities are dword aligned.
  lemma CapStoreReads(cfg: seq<Byte>, q: nat, h: nat, off: nat, val: seq<Byte>, j: nat)
    requires |cfg| == REGS && h == 4 * q && h + 4 <= REGS && h <= off && Fits(off, val) && j < |val|
    ensures var x := off + j;
      CapReads(cfg[h], x - h, off <= h + 2 && h + 4 <= off + |val|, cfg[x], val[j], StoreCap(cfg, h, off, val)[x])
  {
    if off < h + 4 {
      FirstDword(q, off, |val|);
    }
    if off == h && |val| == 4 {
      if j >= 2 {
        ControlReads(cfg, h, val[2..], j - 2);
      }
    } else if off == h + 2 && |val| == 2 {
      ControlReads(cfg, h, val, j);
    } else if off >= h + 2 {
      PlainReads(cfg, h, off, val, j);
    }
  }

  lemma CapStoreKeeps(cfg: seq<Byte>, h: nat, off: nat, val: seq<Byte>, x: nat)
    requires |cfg| == REGS && h <= off && Fits(off, val) && x < REGS && !(off <= x < off + |val|)
    ensures StoreCap(cfg, h, off, val)[x] == cfg[x]
  {}

  // ---- the whole default path ----

  // Offsets among the capabilities, by the list.
  lemma InList(a: seq<Byte>, caps: seq<Cap>, capend: nat, off: nat)
    requires Spells(a, caps) && (caps != [] ==> capend + 1 == NextFree(caps))
    ensures IsCap(a, capend, off) <==> CAP_START <= off < NextFree(caps)
  {}

  // An aligned write that starts below, in or behind the capabilities stays there.
  lemma StaysThere(a: seq<Byte>, caps: seq<Cap>, off: nat, n: nat)
    requires Spells(a, caps) && Aligned(off, n)
    ensures off < CAP_START ==> off + n <= CAP_START
    ensures off < NextFree(caps) ==> off + n <= NextFree(caps)
    ensures off < 0x10 ==> off + n <= 0x10
    ensures off < 0x28 ==> off + n <= 0x28
    ensures off < 8 ==> off + n <= 8
    ensures off < 4 ==> off + n <= 4
  {
    if off < CAP_START {
      AlignedBelow(off, n, CAP_START / 4);
    }
    if off < NextFree(caps) {
      AlignedBelow(off, n, NextDword(caps));
    }
    if off < 0x10 {
      AlignedBelow(off, n, 4);
    }
    if off < 0x28 {
      AlignedBelow(off, n, 10);
    }
    if off < 8 {
      AlignedBelow(off, n, 2);
    }
    if off < 4 {
      AlignedBelow(off, n, 1);
    }
  }

  lemma InsideReads(a: seq<Byte>, f: Enables, caps: seq<Cap>, capend: nat, k: nat, off: nat,
                    val: seq<Byte>, bar: seq<Byte>, b: seq<Byte>, g: Enables, j: nat)
    requires Wrote(a, f, caps, capend, k, off, val, bar, b, g) && capend + 1 == NextFree(caps)
    requires |a| == REGS && IsCap(a, capend, off) && j < |val|
    ensures |b| == REGS && off + |val| <= REGS && |bar| == 4 && |val| <= 4 && ReadsBack(a, caps, k, off, val, bar, b, j)
  {
    WroteMeans(a, f, caps, capend, k, off, val, bar, b, g);
    WroteInside(a, f, caps, capend, k, off, val, bar, b, g);
    AlignedInside(caps[k], off, |val|);
    BelowNextFree(caps, k);
    CapStoreReads(a, caps[k].at, Off(caps[k]), off, val, j);
  }

  lemma OutsideReads(a: seq<Byte>, f: Enables, caps: seq<Cap>, capend: nat, k: nat, off: nat,
                     val: seq<Byte>, bar: seq<Byte>, b: seq<Byte>, g: Enables, j: nat)
    requires Leaves(a, f, caps, capend, k, off, val, bar, b, g) && (caps != [] ==> capend + 1 == NextFree(caps))
    requires !IsCap(a, capend, off) && j < |val|
    ensures |b| == REGS && ReadsBack(a, caps, k, off, val, bar, b, j)
  {
    InList(a, caps, capend, off);
    StaysThere(a, caps, off, |val|);
  }

  /**
   * Read-back over the whole default path: each byte of a write holds what was written, but for the header of a
   * capability, the read-only bits of a control word written as a whole and of command and status, the BAR registers,
   * and capabilities that are read only.  Bytes outside the write stay.
   */
  lemma ReadBack(a: seq<Byte>, f: Enables, caps: seq<Cap>, capend: nat, k: nat, off: nat,
                 val: seq<Byte>, bar: seq<Byte>, b: seq<Byte>, g: Enables)
    requires Wrote(a, f, caps, capend, k, off, val, bar, b, g) && (caps != [] ==> capend + 1 == NextFree(caps))
    ensures |a| == REGS == |b| && off + |val| <= REGS && |bar| == 4 && |val| <= 4
    ensures forall j :: 0 <= j < |val| ==> ReadsBack(a, caps, k, off, val, bar, b, j)
    ensures forall x :: 0 <= x < REGS && !(off <= x < off + |val|) ==> b[x] == a[x]
  {
    WroteMeans(a, f, caps, capend, k, off, val, bar, b, g);
    forall j | 0 <= j < |val| ensures ReadsBack(a, caps, k, off, val, bar, b, j) {
      if IsCap(a, capend, off) {
        ListNotEmpty(a, caps, capend, off);
        InsideReads(a, f, caps, capend, k, off, val, bar, b, g, j);
      } else {
        assert Leaves(a, f, caps, capend, k, off, val, bar, b, g);
        OutsideReads(a, f, caps, capend, k, off, val, bar, b, g, j);
      }
    }
    forall x | 0 <= x < REGS && !(off <= x < off + |val|) ensures b[x] == a[x] {
      OutsideStays(a, f, caps, capend, k, off, val, bar, b, g, x);
    }
  }

  lemma ListNotEmpty(a: seq<Byte>, caps: seq<Cap>, capend: nat, off: nat)
    requires Spells(a, caps) && IsCap(a, capend, off)
    ensures caps != []
  {}

  lemma OutsideStays(a: seq<Byte>, f: Enables, caps: seq<Cap>, capend: nat, k: nat, off: nat,
                     val: seq<Byte>, bar: seq<Byte>, b: seq<Byte>, g: Enables, x: nat)
    requires Wrote(a, f, caps, capend, k, off, val, bar, b, g)
    requires x < REGS == |a| == |b| && !(off <= x < off + |val|)
    ensures b[x] == a[x]
  {
    assert Leaves(a, f, caps, capend, k, off, val, bar, b, g);
    if IsCap(a, capend, off) {
      WroteInside(a, f, caps, capend, k, off, val, bar, b, g);
      CapStoreKeeps(a, Off(caps[k]), off, val, x);
    }
  }

  // ---- histories ----

  // Operation i is a write that fits.
  predicate FitWrite(op: Op) {
    op.Write? && Fits(op.off, op.val)
  }

  /** In every history, each write that fits reads back. */
  lemma HistoryReadsBack(trace: seq<Space>, ops: seq<Op>, i: nat) returns (k: nat)
    requires Traced(trace, ops) && i < |ops| && FitWrite(ops[i])
    ensures var a, b, off, val, bar := trace[i], trace[i + 1], ops[i].off, ops[i].val, ops[i].bar;
      && |a.cfg| == REGS == |b.cfg| && off + |val| <= REGS && |bar| == 4 && |val| <= 4
      && (forall j :: 0 <= j < |val| ==> ReadsBack(a.cfg, a.caps, k, off, val, bar, b.cfg, j))
      && (forall x :: 0 <= x < REGS && !(off <= x < off + |val|) ==> b.cfg[x] == a.cfg[x])
  {
    var a, b, op := trace[i], trace[i + 1], ops[i];
    assert TraceStep(trace, ops, i);
    assert Stepped(a, op, b);
    k :| Wrote(a.cfg, a.enables, a.caps, a.capend, k, op.off, op.val, op.bar, b.cfg, b.enables);
    ReadBack(a.cfg, a.enables, a.caps, a.capend, k, op.off, op.val, op.bar, b.cfg, b.enables);
  }

  // The operation does not reach byte x.
  predicate Misses(op: Op, x: nat) {
    op.Write? && (!Fits(op.off, op.val) || !(op.off <= x < op.off + |op.val|))
  }

  lemma ByteAt(trace: seq<Space>, ops: seq<Op>, k: nat, x: nat)
    requires Traced(trace, ops) && k < |ops| && x < REGS && Misses(ops[k], x)
    ensures |trace[k].cfg| == REGS == |trace[k + 1].cfg| && trace[k + 1].cfg[x] == trace[k].cfg[x]
  {
    if FitWrite(ops[k]) {
      var c := HistoryReadsBack(trace, ops, k);
    } else {
      assert TraceStep(trace, ops, k);
      assert Stepped(trace[k], ops[k], trace[k + 1]);
    }
  }

  /** A byte stays as it is until a write reaches it or a capability is added. */
  lemma {:induction false} ByteStays(trace: seq<Space>, ops: seq<Op>, i: nat, n: nat, x: nat)
    requires Traced(trace, ops) && i <= n <= |ops| && x < REGS && forall k :: i <= k < n ==> Misses(ops[k], x)
    ensures |trace[i].cfg| == REGS == |trace[n].cfg| && trace[n].cfg[x] == trace[i].cfg[x]
  {
    CapsStay(trace, ops, i, i);
    if i < n {
      ByteStays(trace, ops, i, n - 1, x);
      ByteAt(trace, ops, n - 1, x);
    }
  }
}
