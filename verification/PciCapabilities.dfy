// The capability list in the first 256 bytes of configuration space, as devices build it and guests write it.
module PciCapabilities {
  import opened ConfigBytes
  import opened Octets

  const REGS := 256
  const CAP_START := 0x40
  const STATUS := 6
  const CAP_PTR := 0x34

  // One capability: its first dword, how many dwords it owns, and its identifier.
  datatype Cap = Cap(at: nat, dwords: nat, id: Byte)

  function Off(c: Cap): nat { 4 * c.at }

  function End(c: Cap): nat { 4 * (c.at + c.dwords) }

  // Back to back from CAP_START, inside the first 256 bytes.
  ghost predicate Chain(caps: seq<Cap>) {
    && (forall i :: 0 <= i < |caps| ==> 0 < caps[i].dwords && CAP_START <= Off(caps[i]) && End(caps[i]) <= REGS)
    && (caps != [] ==> Off(caps[0]) == CAP_START)
    && (forall i, j :: 0 <= i && j == i + 1 && j < |caps| ==> Off(caps[j]) == End(caps[i]))
  }

  // Capabilities further on lie further up.
  lemma {:induction false} ChainGrows(caps: seq<Cap>, i: nat, j: nat)
    requires Chain(caps) && i < j < |caps|
    ensures End(caps[i]) <= Off(caps[j])
    decreases j
  {
    if i < j - 1 {
      ChainGrows(caps, i, j - 1);
    }
  }

  // Every offset of the capability region lies in a capability.
  lemma {:induction false} ChainCovers(caps: seq<Cap>, n: nat, off: nat) returns (k: nat)
    requires Chain(caps) && 0 < n <= |caps| && CAP_START <= off < End(caps[n - 1])
    ensures k < n && Off(caps[k]) <= off < End(caps[k])
  {
    if Off(caps[n - 1]) <= off {
      k := n - 1;
    } else {
      k := ChainCovers(caps, n - 1, off);
    }
  }

  // One, two or four bytes at a multiple of their number.
  predicate Aligned(off: nat, bytes: nat) {
    bytes == 1 || (bytes == 2 && off % 2 == 0) || (bytes == 4 && off % 4 == 0)
  }

  // An aligned access stays inside one dword, so inside one capability.
  lemma AlignedInside(c: Cap, off: nat, bytes: nat)
    requires Off(c) <= off < End(c)
    requires Aligned(off, bytes)
    ensures off + bytes <= End(c)
  {
    AlignedBelow(off, bytes, c.at + c.dwords);
  }

  ghost predicate CapPresent(b: Byte) { b / 16 % 2 == 1 }

  // What the next pointer of capability 'i' holds.
  ghost function NextOf(caps: seq<Cap>, i: nat): nat
    requires i < |caps|
  {
    if i + 1 < |caps| then Off(caps[i + 1]) else 0
  }

  // The configuration bytes spell out the chain.
  ghost predicate Spells(cfg: seq<Byte>, caps: seq<Cap>) {
    && |cfg| == REGS && Chain(caps)
    && (forall i {:trigger NextOf(caps, i)} :: 0 <= i < |caps| ==> cfg[Off(caps[i]) + 1] == NextOf(caps, i))
    && (forall i :: 0 <= i < |caps| ==> cfg[Off(caps[i])] == caps[i].id)
    && (CapPresent(cfg[STATUS]) <==> caps != [])
  }

  // 'data' stands at 'at', but for the next pointer in its second byte.
  ghost predicate Holds(cfg: seq<Byte>, at: nat, data: seq<Byte>) {
    && at + |data| <= |cfg|
    && (forall i :: 0 <= i < |data| && i != 1 ==> cfg[at + i] == data[i])
  }

  // Two configuration spaces agree on every capability header and on the capability bit.
  ghost predicate SameHeaders(a: seq<Byte>, b: seq<Byte>, caps: seq<Cap>) {
    && |a| == REGS == |b| && Chain(caps)
    && (forall i :: 0 <= i < |caps| ==>
         a[Off(caps[i])] == b[Off(caps[i])] && a[Off(caps[i]) + 1] == b[Off(caps[i]) + 1])
    && (CapPresent(a[STATUS]) <==> CapPresent(b[STATUS]))
  }

  // the first dword, and the first byte, behind the chain
  ghost function NextDword(caps: seq<Cap>): nat
  {
    if caps == [] then CAP_START / 4 else caps[|caps| - 1].at + caps[|caps| - 1].dwords
  }

  ghost function NextFree(caps: seq<Cap>): nat { 4 * NextDword(caps) }

  lemma ChainAppend(caps: seq<Cap>, c: Cap)
    requires Chain(caps) && 0 < c.dwords && Off(c) == NextFree(caps) && End(c) <= REGS
    ensures Chain(caps + [c])
  {}

  // What adding a capability of 'n' bytes may change: its own bytes, the pointer to it and the capability bit.
  ghost predicate Extended(a: seq<Byte>, b: seq<Byte>, caps: seq<Cap>, n: nat) {
    && |a| == REGS == |b| && Chain(caps) && NextFree(caps) + 4 <= REGS
    && b[NextFree(caps) + 1] == 0
    && b[STATUS] as int == a[STATUS] as int + (if caps == [] then 16 else 0)
    && b[if caps == [] then CAP_PTR else Off(caps[|caps| - 1]) + 1] == NextFree(caps)
    && (forall k :: 0 <= k < REGS && !Touched(caps, n, k) ==> b[k] == a[k])
  }

  ghost predicate Touched(caps: seq<Cap>, n: nat, k: nat) {
    || NextFree(caps) <= k < NextFree(caps) + n
    || k == NextFree(caps) + 1
    || (if caps == [] then k == CAP_PTR || k == STATUS else k == Off(caps[|caps| - 1]) + 1)
  }

  lemma BelowNextFree(caps: seq<Cap>, i: nat)
    requires Chain(caps) && i < |caps|
    ensures End(caps[i]) <= NextFree(caps)
    ensures i < |caps| - 1 ==> End(caps[i]) <= Off(caps[|caps| - 1])
  {
    if i < |caps| - 1 {
      ChainGrows(caps, i, |caps| - 1);
    }
  }

  lemma ExtendedHeader(a: seq<Byte>, b: seq<Byte>, caps: seq<Cap>, n: nat, c: Cap, i: nat)
    requires Spells(a, caps) && Extended(a, b, caps, n) && i <= |caps|
    requires Off(c) == NextFree(caps) && b[Off(c)] == c.id
    ensures b[Off((caps + [c])[i]) + 1] == NextOf(caps + [c], i)
    ensures b[Off((caps + [c])[i])] == (caps + [c])[i].id
  {
    if i < |caps| {
      BelowNextFree(caps, i);
      assert a[Off(caps[i]) + 1] == NextOf(caps, i);
    }
  }

  // The longer list is spelled out.
  lemma ExtendedSpells(a: seq<Byte>, b: seq<Byte>, caps: seq<Cap>, n: nat, c: Cap)
    requires Spells(a, caps) && Extended(a, b, caps, n)
    requires 0 < c.dwords && Off(c) == NextFree(caps) && End(c) <= REGS && b[Off(c)] == c.id
    ensures Spells(b, caps + [c])
  {
    ChainAppend(caps, c);
    var longer := caps + [c];
    forall i | 0 <= i < |longer|
      ensures b[Off(longer[i]) + 1] == NextOf(longer, i) && b[Off(longer[i])] == longer[i].id
    {
      ExtendedHeader(a, b, caps, n, c, i);
    }
    StatusBit(a[STATUS], b[STATUS]);
  }

  // Setting the capability bit.
  lemma StatusBit(a: Byte, b: Byte)
    ensures !CapPresent(a) && b == a + 16 ==> CapPresent(b)
  {}

  function Dwords(n: nat): (d: nat)
    ensures n <= 4 * d < n + 4
  {
    (n + 3) / 4
  }

  // ---- guest writes, as values ----

  const PCIY_MSI := 0x05
  const PCIY_EXPRESS := 0x10
  const PCIY_MSIX := 0x11

  predicate Fits(off: nat, val: seq<Byte>)
  {
    Aligned(off, |val|) && off + |val| <= REGS
  }

  function Store(cfg: seq<Byte>, off: nat, val: seq<Byte>): (r: seq<Byte>)
    requires off + |val| <= |cfg|
    ensures |r| == |cfg|
    ensures forall k :: 0 <= k < |cfg| && !(off <= k < off + |val|) ==> r[k] == cfg[k]
    ensures forall k :: 0 <= k < |val| ==> r[off + k] == val[k]
  {
    seq(|cfg|, k requires 0 <= k < |cfg| => if off <= k < off + |val| then val[k - off] else cfg[k])
  }

  // Writable bits of the MSI message control word: enable and multiple message enable.
  function MsiBits(b: Byte): Byte { b % 2 + b / 16 % 8 * 16 }

  // The other bits of its first byte.
  function MsiRest(b: Byte): Byte { b / 2 % 8 * 2 + b / 128 * 128 }

  function MsiControl(before: seq<Byte>, val: seq<Byte>): seq<Byte>
    requires |before| == 2 == |val|
  {
    [MsiRest(before[0]) + MsiBits(val[0]), before[1]]
  }

  // Writable bits of the MSI-X message control word: enable and function mask.
  function MsixControl(before: seq<Byte>, val: seq<Byte>): seq<Byte>
    requires |before| == 2 == |val|
  {
    [before[0], before[1] % 64 + val[1] / 64 * 64]
  }

  // A write inside one capability, past its two header bytes.
  function StoreBody(cfg: seq<Byte>, capoff: nat, off: nat, val: seq<Byte>): (r: seq<Byte>)
    requires capoff < |cfg| && capoff < off && off + |val| <= |cfg|
    ensures |r| == |cfg| && forall k :: 0 <= k < |cfg| && !(off <= k < off + |val|) ==> r[k] == cfg[k]
  {
    var control := off == capoff + 2 && |val| == 2;
    if cfg[capoff] == PCIY_MSI then Store(cfg, off, if control then MsiControl(cfg[off..off + 2], val) else val)
    else if cfg[capoff] == PCIY_MSIX then Store(cfg, off, if control then MsixControl(cfg[off..off + 2], val) else val)
    else if cfg[capoff] == PCIY_EXPRESS then Store(cfg, off, val)
    else cfg
  }

  // Identifier and next pointer are read only; a 4-byte write over them is trimmed to its upper half.
  function StoreCap(cfg: seq<Byte>, capoff: nat, off: nat, val: seq<Byte>): (r: seq<Byte>)
    requires capoff <= off && Fits(off, val) && |cfg| == REGS
    ensures |r| == |cfg|
  {
    if off == capoff || off == capoff + 1 then
      if off == capoff && |val| == 4 then StoreBody(cfg, capoff, off + 2, val[2..]) else cfg
    else StoreBody(cfg, capoff, off, val)
  }

  // ---- the enable flags a device keeps beside its control words ----

  datatype Enables = Enables(msi: bool, msix: bool, masked: bool)

  // Only a two-byte write to the control word reaches the flags.
  function FlagsBody(cfg: seq<Byte>, capoff: nat, off: nat, val: seq<Byte>, f: Enables): Enables
    requires capoff < |cfg|
  {
    if !(off == capoff + 2 && |val| == 2) then f
    else if cfg[capoff] == PCIY_MSI then f.(msi := val[0] % 2 == 1)
    else if cfg[capoff] == PCIY_MSIX then f.(msix := val[1] / 128 == 1, masked := val[1] / 64 % 2 == 1)
    else f
  }

  function FlagsCap(cfg: seq<Byte>, capoff: nat, off: nat, val: seq<Byte>, f: Enables): Enables
    requires capoff <= off && Fits(off, val) && |cfg| == REGS
  {
    if off == capoff || off == capoff + 1 then
      if off == capoff && |val| == 4 then FlagsBody(cfg, capoff, off + 2, val[2..], f) else f
    else FlagsBody(cfg, capoff, off, val, f)
  }

  function FlagsWritten(cfg: seq<Byte>, capend: nat, capoff: nat, off: nat, val: seq<Byte>, f: Enables): Enables
    requires |cfg| == REGS && Fits(off, val) && (IsCap(cfg, capend, off) ==> capoff <= off)
  {
    if IsCap(cfg, capend, off) then FlagsCap(cfg, capoff, off, val, f) else f
  }

  // A write inside one capability leaves every header alone.
  lemma StoreCapKeepsHeaders(cfg: seq<Byte>, caps: seq<Cap>, k: nat, off: nat, val: seq<Byte>)
    requires |cfg| == REGS && Chain(caps) && k < |caps| && Off(caps[k]) <= off < End(caps[k]) && Fits(off, val)
    ensures SameHeaders(cfg, StoreCap(cfg, Off(caps[k]), off, val), caps)
  {
    AlignedInside(caps[k], off, |val|);
    var r := StoreCap(cfg, Off(caps[k]), off, val);
    forall i | 0 <= i < |caps|
      ensures cfg[Off(caps[i])] == r[Off(caps[i])] && cfg[Off(caps[i]) + 1] == r[Off(caps[i]) + 1]
    {
      if i < k {
        ChainGrows(caps, i, k);
      } else if k < i {
        ChainGrows(caps, k, i);
      }
    }
  }

  function CmdSts(cfg: seq<Byte>, off: nat, val: seq<Byte>): (r: seq<Byte>)
    requires 4 <= off && off + |val| <= |cfg|
    ensures |r| == |val| && forall k :: 0 <= k < |val| && off + k >= STATUS ==> r[k] == cfg[off + k]
  {
    CmdStsBytes(off - 4, cfg[off..off + |val|], val)
  }

  // The default configuration write.  'bar' is what the BAR logic stores for a BAR register.
  function CfgWritten(cfg: seq<Byte>, capend: nat, capoff: nat, off: nat, val: seq<Byte>, bar: seq<Byte>): seq<Byte>
    requires |cfg| == REGS && Fits(off, val) && |bar| == 4 && (IsCap(cfg, capend, off) ==> capoff <= off)
  {
    if 0x10 <= off < 0x28 then
      if |val| == 4 then Store(cfg, off, bar) else cfg
    else if IsCap(cfg, capend, off) then StoreCap(cfg, capoff, off, val)
    else if 4 <= off < 8 then Store(cfg, off, CmdSts(cfg, off, val))
    else Store(cfg, off, val)
  }

  predicate IsCap(cfg: seq<Byte>, capend: nat, off: nat) requires |cfg| == REGS {
    cfg[STATUS] / 16 % 2 == 1 && CAP_START <= off <= capend
  }

  // Where capability k starts, if 'off' lies among the capabilities.
  ghost function HeadOf(cfg: seq<Byte>, capend: nat, caps: seq<Cap>, k: nat, off: nat): nat
    requires |cfg| == REGS && (IsCap(cfg, capend, off) ==> k < |caps|)
  {
    if IsCap(cfg, capend, off) then Off(caps[k]) else 0
  }

  // Bytes changed only below the chain, or only behind it, and the status byte kept.
  lemma ElsewhereKeepsHeaders(a: seq<Byte>, b: seq<Byte>, caps: seq<Cap>, off: nat, n: nat)
    requires |a| == REGS == |b| && Chain(caps) && (off + n <= CAP_START || NextFree(caps) <= off)
    requires forall k :: 0 <= k < REGS && !(off <= k < off + n) ==> a[k] == b[k]
    requires a[STATUS] == b[STATUS]
    ensures SameHeaders(a, b, caps)
  {
    forall i | 0 <= i < |caps| ensures End(caps[i]) <= NextFree(caps) {
      if i < |caps| - 1 {
        ChainGrows(caps, i, |caps| - 1);
      }
    }
  }

  lemma AlignedBelow(off: nat, n: nat, q: nat)
    requires Aligned(off, n) && off < 4 * q
    ensures off + n <= 4 * q
  {
    if n == 4 {
      var k := off / 4;
      assert off == 4 * k && k < q;
    } else if n == 2 {
      var k := off / 2;
      assert off == 2 * k && k < 2 * q;
    }
  }

  // No guest write changes an identifier, a next pointer or the capability bit.
  lemma CfgWriteKeepsHeaders(cfg: seq<Byte>, caps: seq<Cap>, capend: nat, k: nat, off: nat,
                             val: seq<Byte>, bar: seq<Byte>)
    requires Spells(cfg, caps) && Fits(off, val) && |bar| == 4
    requires caps != [] ==> capend + 1 == NextFree(caps)
    requires IsCap(cfg, capend, off) ==> k < |caps| && Off(caps[k]) <= off < End(caps[k])
    ensures SameHeaders(cfg, CfgWritten(cfg, capend, HeadOf(cfg, capend, caps, k, off), off, val, bar), caps)
  {
    var r := CfgWritten(cfg, capend, HeadOf(cfg, capend, caps, k, off), off, val, bar);
    if IsCap(cfg, capend, off) {
      StoreCapKeepsHeaders(cfg, caps, k, off, val);
    } else if off < CAP_START {
      AlignedBelow(off, |val|, CAP_START / 4);
      if off < 4 {
        AlignedBelow(off, |val|, 1);
      }
      ElsewhereKeepsHeaders(cfg, r, caps, off, |val|);
    } else {
      ElsewhereKeepsHeaders(cfg, r, caps, off, |val|);
    }
  }

  // ---- control words ----

  // The read-only bits of the control word at 'h' are the same in both spaces.
  ghost predicate ControlFixed(a: seq<Byte>, b: seq<Byte>, h: nat)
    requires h + 4 <= |a| == |b|
  {
    && (a[h] == PCIY_MSI ==> MsiRest(b[h + 2]) == MsiRest(a[h + 2]) && b[h + 3] == a[h + 3])
    && (a[h] == PCIY_MSIX ==> b[h + 2] == a[h + 2] && b[h + 3] % 64 == a[h + 3] % 64)
  }

  // A one-byte write to the control word passes the mask by.
  predicate Unmasked(off: nat, val: seq<Byte>, h: nat) {
    |val| == 1 && (off == h + 2 || off == h + 3)
  }

  // The byte written repeats the read-only bits.
  predicate Repeats(cfg: seq<Byte>, off: nat, val: seq<Byte>, h: nat)
    requires h + 4 <= |cfg| && Unmasked(off, val, h)
  {
    && (cfg[h] == PCIY_MSI ==> if off == h + 2 then MsiRest(val[0]) == MsiRest(cfg[off]) else val[0] == cfg[off])
    && (cfg[h] == PCIY_MSIX ==> if off == h + 2 then val[0] == cfg[off] else val[0] % 64 == cfg[off] % 64)
  }

  // The flags show the enable and mask bits of the control word at 'h'.
  ghost predicate InStep(cfg: seq<Byte>, f: Enables, h: nat)
    requires h + 4 <= |cfg|
  {
    && (cfg[h] == PCIY_MSI ==> f.msi == (cfg[h + 2] % 2 == 1))
    && (cfg[h] == PCIY_MSIX ==> f.msix == (cfg[h + 3] / 128 == 1) && f.masked == (cfg[h + 3] / 64 % 2 == 1))
  }

  // The byte written repeats the enable and mask bits.
  predicate RepeatsEnables(cfg: seq<Byte>, off: nat, val: seq<Byte>, h: nat)
    requires h + 4 <= |cfg| && Unmasked(off, val, h)
  {
    && (cfg[h] == PCIY_MSI && off == h + 2 ==> val[0] % 2 == cfg[off] % 2)
    && (cfg[h] == PCIY_MSIX && off == h + 3 ==> val[0] / 64 == cfg[off] / 64)
  }

  lemma BitFields(x: Byte, e: nat, r: nat, m: nat, t: nat)
    requires x == e + 2 * r + 16 * m + 128 * t && e < 2 && r < 8 && m < 8 && t < 2
    ensures x % 2 == e && x / 2 % 8 == r && x / 16 % 8 == m && x / 128 == t
  {}

  lemma MsiMerged(b: Byte, v: Byte)
    ensures 0 <= MsiRest(b) + MsiBits(v) < 256
    ensures MsiRest(MsiRest(b) + MsiBits(v)) == MsiRest(b) && (MsiRest(b) + MsiBits(v)) % 2 == v % 2
  {
    BitFields(MsiRest(b) + MsiBits(v), v % 2, b / 2 % 8, v / 16 % 8, b / 128);
  }

  lemma MsixMerged(b: Byte, v: Byte)
    ensures (b % 64 + v / 64 * 64) % 64 == b % 64 && (b % 64 + v / 64 * 64) / 64 == v / 64
    ensures (b % 64 + v / 64 * 64) / 128 == v / 128
  {
    var x := b % 64 + v / 64 * 64;
    EnableBits(x, v);
  }

  // A masked write to the control word changes its writable bits only, and the flags with them.
  lemma MaskedWrite(cfg: seq<Byte>, h: nat, val: seq<Byte>, f: Enables)
    requires |cfg| == REGS && h + 4 <= REGS && |val| == 2
    ensures ControlFixed(cfg, StoreBody(cfg, h, h + 2, val), h)
    ensures InStep(StoreBody(cfg, h, h + 2, val), FlagsBody(cfg, h, h + 2, val, f), h)
  {
    if cfg[h] == PCIY_MSI {
      MsiMerged(cfg[h + 2], val[0]);
      MsiBytes(cfg, h, val);
    } else if cfg[h] == PCIY_MSIX {
      MsixMerged(cfg[h + 3], val[1]);
      MsixBytes(cfg, h, val);
    }
  }

  lemma MsiBytes(cfg: seq<Byte>, h: nat, val: seq<Byte>)
    requires |cfg| == REGS && h + 4 <= REGS && |val| == 2 && cfg[h] == PCIY_MSI
    ensures var r := StoreBody(cfg, h, h + 2, val);
      r[h] == cfg[h] && r[h + 2] == MsiRest(cfg[h + 2]) + MsiBits(val[0]) && r[h + 3] == cfg[h + 3]
  {}

  lemma MsixBytes(cfg: seq<Byte>, h: nat, val: seq<Byte>)
    requires |cfg| == REGS && h + 4 <= REGS && |val| == 2 && cfg[h] == PCIY_MSIX
    ensures var r := StoreBody(cfg, h, h + 2, val);
      r[h] == cfg[h] && r[h + 2] == cfg[h + 2] && r[h + 3] == cfg[h + 3] % 64 + val[1] / 64 * 64
  {}

  // An unmasked byte lands as it is, and the flags do not hear of it.
  lemma UnmaskedWrite(cfg: seq<Byte>, h: nat, off: nat, val: seq<Byte>, f: Enables)
    requires |cfg| == REGS && h + 4 <= REGS && Fits(off, val) && Unmasked(off, val, h) && InStep(cfg, f, h)
    ensures ControlFixed(cfg, StoreCap(cfg, h, off, val), h) <==> Repeats(cfg, off, val, h)
    ensures FlagsCap(cfg, h, off, val, f) == f
    ensures InStep(StoreCap(cfg, h, off, val), f, h) <==> RepeatsEnables(cfg, off, val, h)
  {
    var r := StoreCap(cfg, h, off, val);
    if cfg[h] == PCIY_MSI || cfg[h] == PCIY_MSIX {
      assert r == Store(cfg, off, val);
      assert r[off + 0] == val[0] && r[h] == cfg[h];
      EnableBits(val[0], cfg[off]);
    }
  }

  lemma EnableBits(a: Byte, b: Byte)
    ensures a / 64 == b / 64 <==> a / 128 == b / 128 && a / 64 % 2 == b / 64 % 2
  {}

  // Any other write inside the capability leaves its first dword alone, unless it is masked.
  lemma BesideControl(cfg: seq<Byte>, q: nat, h: nat, off: nat, val: seq<Byte>, j: nat, f: Enables)
    requires |cfg| == REGS && h == 4 * q && h + 4 <= REGS && h <= off && Fits(off, val) && h <= j < h + 4
    requires !Unmasked(off, val, h) && !(off == h && |val| == 4) && !(off == h + 2 && |val| == 2) && off < h + 4
    ensures StoreCap(cfg, h, off, val)[j] == cfg[j] && FlagsCap(cfg, h, off, val, f) == f
  {
    FirstDword(q, off, |val|);
  }

  // Aligned accesses that start in dword q.
  lemma FirstDword(q: nat, off: nat, n: nat)
    requires Aligned(off, n) && 4 * q <= off < 4 * q + 4
    ensures n == 4 ==> off == 4 * q
    ensures n == 2 ==> off == 4 * q || off == 4 * q + 2
  {
    if n == 4 {
      var k := off / 4;
      assert off == 4 * k && k == q;
    } else if n == 2 {
      var k := off / 2;
      assert off == 2 * k;
    }
  }

  // A write inside the capability at 'h': read-only bits are lost exactly when an unmasked byte changes them,
  // and the flags fall out of step exactly when an unmasked byte changes an enable or mask bit.
  lemma InsideCapability(cfg: seq<Byte>, q: nat, h: nat, off: nat, val: seq<Byte>, f: Enables)
    requires |cfg| == REGS && h == 4 * q && h + 4 <= REGS && h <= off && Fits(off, val) && InStep(cfg, f, h)
    ensures ControlFixed(cfg, StoreCap(cfg, h, off, val), h) <==> (Unmasked(off, val, h) ==> Repeats(cfg, off, val, h))
    ensures InStep(StoreCap(cfg, h, off, val), FlagsCap(cfg, h, off, val, f), h)
      <==> (Unmasked(off, val, h) ==> RepeatsEnables(cfg, off, val, h))
  {
    if off == h && |val| == 4 {
      MaskedWrite(cfg, h, val[2..], f);
    } else if off == h + 2 && |val| == 2 {
      MaskedWrite(cfg, h, val, f);
    } else if Unmasked(off, val, h) {
      UnmaskedWrite(cfg, h, off, val, f);
    } else {
      forall j | h <= j < h + 4 ensures StoreCap(cfg, h, off, val)[j] == cfg[j] && FlagsCap(cfg, h, off, val, f) == f {
        if off < h + 4 {
          BesideControl(cfg, q, h, off, val, j, f);
        }
      }
    }
  }

  // A write that does not land in capability c leaves all its bytes alone.
  lemma WriteElsewhere(cfg: seq<Byte>, caps: seq<Cap>, capend: nat, k: nat, c: nat, off: nat,
                       val: seq<Byte>, bar: seq<Byte>, j: nat)
    requires Spells(cfg, caps) && Fits(off, val) && |bar| == 4 && c < |caps| && capend + 1 == NextFree(caps)
    requires IsCap(cfg, capend, off) ==> k < |caps| && Off(caps[k]) <= off < End(caps[k]) && k != c
    requires Off(caps[c]) <= j < End(caps[c])
    ensures CfgWritten(cfg, capend, HeadOf(cfg, capend, caps, k, off), off, val, bar)[j] == cfg[j]
  {
    BelowNextFree(caps, c);
    if IsCap(cfg, capend, off) {
      AlignedInside(caps[k], off, |val|);
      if k < c {
        ChainGrows(caps, k, c);
      } else {
        ChainGrows(caps, c, k);
      }
    } else if off < CAP_START {
      AlignedBelow(off, |val|, CAP_START / 4);
    }
  }

  // 'b' and 'g' are the space and the flags after a guest write that found capability k.
  ghost predicate Leaves(a: seq<Byte>, f: Enables, caps: seq<Cap>, capend: nat, k: nat, off: nat,
                         val: seq<Byte>, bar: seq<Byte>, b: seq<Byte>, g: Enables)
  {
    && Spells(a, caps) && Fits(off, val) && |bar| == 4
    && (IsCap(a, capend, off) ==> k < |caps| && Off(caps[k]) <= off < End(caps[k]))
    && b == CfgWritten(a, capend, HeadOf(a, capend, caps, k, off), off, val, bar)
    && g == FlagsWritten(a, capend, HeadOf(a, capend, caps, k, off), off, val, f)
  }

  // The same.  The quantifier keeps the bytes out of proofs that only hand them on.
  ghost predicate Wrote(a: seq<Byte>, f: Enables, caps: seq<Cap>, capend: nat, k: nat, off: nat,
                        val: seq<Byte>, bar: seq<Byte>, b: seq<Byte>, g: Enables)
  {
    forall x :: x == b ==> Leaves(a, f, caps, capend, k, off, val, bar, x, g)
  }

  // What a guest write found.
  lemma WroteMeans(a: seq<Byte>, f: Enables, caps: seq<Cap>, capend: nat, k: nat, off: nat,
                   val: seq<Byte>, bar: seq<Byte>, b: seq<Byte>, g: Enables)
    requires Wrote(a, f, caps, capend, k, off, val, bar, b, g)
    ensures Spells(a, caps) && Fits(off, val) && |bar| == 4 && |b| == REGS
    ensures IsCap(a, capend, off) ==> k < |caps| && Off(caps[k]) <= off < End(caps[k])
    ensures !IsCap(a, capend, off) ==> g == f
  {
    assert Leaves(a, f, caps, capend, k, off, val, bar, b, g);
  }

  // Inside a capability the default path is its own write.
  lemma WroteInside(a: seq<Byte>, f: Enables, caps: seq<Cap>, capend: nat, k: nat, off: nat,
                    val: seq<Byte>, bar: seq<Byte>, b: seq<Byte>, g: Enables)
    requires Wrote(a, f, caps, capend, k, off, val, bar, b, g) && |a| == REGS && IsCap(a, capend, off)
    ensures k < |caps| && Off(caps[k]) <= off && Fits(off, val) && |b| == REGS
    ensures b == StoreCap(a, Off(caps[k]), off, val) && g == FlagsCap(a, Off(caps[k]), off, val, f)
  {
    assert Leaves(a, f, caps, capend, k, off, val, bar, b, g);
  }

  // Both spaces have the same identifier and control word at 'h'.
  predicate SameDword(a: seq<Byte>, b: seq<Byte>, h: nat) {
    h + 4 <= |a| == |b| && a[h] == b[h] && a[h + 2] == b[h + 2] && a[h + 3] == b[h + 3]
  }

  // An offset inside capability c belongs to no other and is seen as one of the capabilities.
  lemma NotInside(cfg: seq<Byte>, caps: seq<Cap>, capend: nat, k: nat, c: nat, off: nat)
    requires Spells(cfg, caps) && c < |caps| && capend + 1 == NextFree(caps)
    requires IsCap(cfg, capend, off) ==> k < |caps| && Off(caps[k]) <= off < End(caps[k]) && k != c
    ensures !(Off(caps[c]) <= off < End(caps[c]))
  {
    BelowNextFree(caps, c);
    if IsCap(cfg, capend, off) {
      if k < c {
        ChainGrows(caps, k, c);
      } else {
        ChainGrows(caps, c, k);
      }
    }
  }

  // A write that does not land in capability c leaves its first dword alone.
  lemma WroteElsewhere(a: seq<Byte>, f: Enables, caps: seq<Cap>, capend: nat, k: nat, off: nat,
                       val: seq<Byte>, bar: seq<Byte>, b: seq<Byte>, g: Enables, c: nat, h: nat)
    requires Wrote(a, f, caps, capend, k, off, val, bar, b, g) && |a| == REGS
    requires c < |caps| && capend + 1 == NextFree(caps) && h == Off(caps[c])
    requires IsCap(a, capend, off) ==> k != c
    ensures SameDword(a, b, h) && !Unmasked(off, val, h)
  {
    WroteMeans(a, f, caps, capend, k, off, val, bar, b, g);
    NotInside(a, caps, capend, k, c, off);
    BelowNextFree(caps, c);
    assert Leaves(a, f, caps, capend, k, off, val, bar, b, g);
    WriteElsewhere(a, caps, capend, k, c, off, val, bar, h);
    WriteElsewhere(a, caps, capend, k, c, off, val, bar, h + 2);
    WriteElsewhere(a, caps, capend, k, c, off, val, bar, h + 3);
  }

  /**
   * Over the whole default path: a guest write keeps the read-only bits of a control word if and only if it is not
   * a one-byte write to that word that changes one of them.
   */
  lemma ControlKept(a: seq<Byte>, f: Enables, caps: seq<Cap>, capend: nat, k: nat, off: nat,
                    val: seq<Byte>, bar: seq<Byte>, b: seq<Byte>, g: Enables, c: nat, h: nat)
    requires Wrote(a, f, caps, capend, k, off, val, bar, b, g)
    requires c < |caps| && capend + 1 == NextFree(caps) && h == Off(caps[c])
    ensures h + 4 <= REGS == |a| == |b|
    ensures ControlFixed(a, b, h) <==> (Unmasked(off, val, h) ==> Repeats(a, off, val, h))
  {
    WroteMeans(a, f, caps, capend, k, off, val, bar, b, g);
    BelowNextFree(caps, c);
    if IsCap(a, capend, off) && k == c {
      WroteInside(a, f, caps, capend, k, off, val, bar, b, g);
      var now := Enables(a[h + 2] % 2 == 1, a[h + 3] / 128 == 1, a[h + 3] / 64 % 2 == 1);
      InsideCapability(a, caps[c].at, h, off, val, now);
    } else {
      WroteElsewhere(a, f, caps, capend, k, off, val, bar, b, g, c, h);
    }
  }

  /**
   * Flags in step with the control word of capability c stay in step under a guest write if and only if it is not a
   * one-byte write that changes an enable or mask bit.  A device has at most one capability of each kind.
   */
  lemma FlagsStayInStep(a: seq<Byte>, f: Enables, caps: seq<Cap>, capend: nat, k: nat, off: nat,
                        val: seq<Byte>, bar: seq<Byte>, b: seq<Byte>, g: Enables, c: nat, h: nat)
    requires Wrote(a, f, caps, capend, k, off, val, bar, b, g)
    requires c < |caps| && capend + 1 == NextFree(caps) && h == Off(caps[c])
    requires forall i :: 0 <= i < |caps| && i != c ==> caps[i].id != caps[c].id
    requires h + 4 <= |a| == |b| && InStep(a, f, h)
    ensures InStep(b, g, h) <==> (Unmasked(off, val, h) ==> RepeatsEnables(a, off, val, h))
  {
    WroteMeans(a, f, caps, capend, k, off, val, bar, b, g);
    if IsCap(a, capend, off) && k == c {
      WroteInside(a, f, caps, capend, k, off, val, bar, b, g);
      InsideCapability(a, caps[c].at, h, off, val, f);
    } else {
      WroteElsewhere(a, f, caps, capend, k, off, val, bar, b, g, c, h);
      if IsCap(a, capend, off) {
        WroteInside(a, f, caps, capend, k, off, val, bar, b, g);
        OtherFlags(a, Off(caps[k]), h, off, val, f);
      }
    }
  }

  // A write to a capability of another kind does not reach this one's flags.
  lemma OtherFlags(cfg: seq<Byte>, at: nat, h: nat, off: nat, val: seq<Byte>, f: Enables)
    requires |cfg| == REGS && at <= off && Fits(off, val) && h + 4 <= REGS && cfg[at] != cfg[h]
    ensures InStep(cfg, FlagsCap(cfg, at, off, val, f), h) <==> InStep(cfg, f, h)
  {}

  // One byte of zero at the control word of an MSI capability clears its read-only 64-bit flag.
  lemma SixtyFourBitFlagCleared(cfg: seq<Byte>)
    requires |cfg| == REGS && cfg[0x40] == PCIY_MSI && cfg[0x42] == 0x80
    ensures Fits(0x42, [0]) && StoreCap(cfg, 0x40, 0x42, [0])[0x42] == 0
    ensures !ControlFixed(cfg, StoreCap(cfg, 0x40, 0x42, [0]), 0x40)
  {
    var r := StoreCap(cfg, 0x40, 0x42, [0]);
    assert r[0x42 + 0] == 0;
  }

  // One byte of zero at 0x34 hides the list from software that follows the capabilities pointer.
  lemma CapPointerCleared(cfg: seq<Byte>, capend: nat, bar: seq<Byte>)
    requires Spells(cfg, [Cap(CAP_START / 4, 1, PCIY_MSI)]) && cfg[CAP_PTR] == CAP_START && |bar| == 4
    ensures Fits(CAP_PTR, [0]) && CfgWritten(cfg, capend, 0, CAP_PTR, [0], bar)[CAP_PTR] == 0
  {
    var r := CfgWritten(cfg, capend, 0, CAP_PTR, [0], bar);
    assert r == Store(cfg, CAP_PTR, [0]);
    assert r[CAP_PTR + 0] == 0;
  }

  // The capabilities pointer itself is an ordinary writable byte.
  lemma CapPointerKept(cfg: seq<Byte>, capend: nat, off: nat, val: seq<Byte>, bar: seq<Byte>)
    requires |cfg| == REGS && Fits(off, val) && |bar| == 4
    ensures CfgWritten(cfg, capend, if IsCap(cfg, capend, off) then off else 0, off, val, bar)[CAP_PTR] == cfg[CAP_PTR]
      <==> (off <= CAP_PTR < off + |val| ==> val[CAP_PTR - off] == cfg[CAP_PTR])
  {
    if off < 4 {
      AlignedBelow(off, |val|, 1);
    } else if off < 0x28 {
      AlignedBelow(off, |val|, 10);
    }
  }

  lemma WroteKeepsList(a: seq<Byte>, f: Enables, caps: seq<Cap>, capend: nat, k: nat, off: nat,
                       val: seq<Byte>, bar: seq<Byte>, b: seq<Byte>, g: Enables)
    requires Wrote(a, f, caps, capend, k, off, val, bar, b, g)
    requires caps != [] ==> capend + 1 == NextFree(caps)
    ensures SameHeaders(a, b, caps) && Spells(b, caps)
  {
    assert Leaves(a, f, caps, capend, k, off, val, bar, b, g);
    CfgWriteKeepsHeaders(a, caps, capend, k, off, val, bar);
    SameHeadersSpells(a, b, caps);
  }

  // The list survives as long as its headers do.
  lemma SameHeadersSpells(a: seq<Byte>, b: seq<Byte>, caps: seq<Cap>)
    requires Spells(a, caps) && SameHeaders(a, b, caps)
    ensures Spells(b, caps)
  {}

  // A next pointer is zero in the last capability only, and otherwise names the end of its own.
  lemma NextPointer(cfg: seq<Byte>, caps: seq<Cap>, k: nat)
    requires Spells(cfg, caps) && k < |caps|
    ensures cfg[Off(caps[k]) + 1] == 0 <==> k == |caps| - 1
    ensures k < |caps| - 1 ==> cfg[Off(caps[k]) + 1] == Off(caps[k + 1]) == End(caps[k])
    ensures k == |caps| - 1 ==> End(caps[k]) == NextFree(caps)
  {
    assert cfg[Off(caps[k]) + 1] == NextOf(caps, k);
    if k + 1 < |caps| {
      assert Off(caps[k + 1]) == End(caps[k]);
    }
  }

  datatype Op = Add(data: seq<Byte>) | Write(off: nat, val: seq<Byte>, bar: seq<Byte>)

  predicate OpOk(op: Op) {
    match op
    case Add(data) => 0 < |data|
    case Write(_, _, bar) => |bar| == 4
  }

  // The capabilities after a history: every addition that still fits, in order; writes add nothing.
  ghost function CapsAfter(caps: seq<Cap>, ops: seq<Op>): seq<Cap>
    requires forall i :: 0 <= i < |ops| ==> OpOk(ops[i])
  {
    if ops == [] then caps
    else Grown(CapsAfter(caps, ops[..|ops| - 1]), ops[|ops| - 1])
  }

  ghost function Grown(caps: seq<Cap>, op: Op): seq<Cap>
    requires OpOk(op)
  {
    if op.Add? && NextFree(caps) + 4 * Dwords(|op.data|) <= REGS
    then caps + [Cap(NextDword(caps), Dwords(|op.data|), op.data[0])]
    else caps
  }

  // ---- histories ----

  // Configuration space and what the device keeps beside it, at one moment.
  datatype Space = Space(cfg: seq<Byte>, caps: seq<Cap>, capend: nat, enables: Enables)

  ghost predicate SpaceOk(s: Space) {
    Spells(s.cfg, s.caps) && (s.caps != [] ==> s.capend + 1 == NextFree(s.caps))
  }

  // One addition or guest write.
  ghost predicate Stepped(a: Space, op: Op, b: Space) {
    && SpaceOk(a) && SpaceOk(b) && OpOk(op) && b.caps == Grown(a.caps, op)
    && match op
       case Add(data) =>
         && b.enables == a.enables
         && (if b.caps == a.caps then b == a
             else Extended(a.cfg, b.cfg, a.caps, |data|) && Holds(b.cfg, NextFree(a.caps), data))
       case Write(off, val, bar) =>
         && b.capend == a.capend
         && (if Fits(off, val)
             then exists k: nat :: Wrote(a.cfg, a.enables, a.caps, a.capend, k, off, val, bar, b.cfg, b.enables)
             else b == a)
  }

  // Operation i of a history.  The quantifier keeps its effect out of proofs that only hand it on.
  ghost predicate TraceStep(trace: seq<Space>, ops: seq<Op>, i: nat)
    requires i + 1 < |trace| && i < |ops|
  {
    forall b :: b == trace[i + 1] ==> Stepped(trace[i], ops[i], b)
  }

  // What an operation does to the list.
  lemma StepGrows(a: Space, op: Op, b: Space)
    requires Stepped(a, op, b)
    ensures SpaceOk(a) && SpaceOk(b) && OpOk(op) && b.caps == Grown(a.caps, op) && a.caps <= b.caps
  {}

  // The moments of a history, each from the one before by its operation.
  ghost predicate Traced(trace: seq<Space>, ops: seq<Op>) {
    |trace| == |ops| + 1 && SpaceOk(trace[0]) && forall i :: 0 <= i < |ops| ==> TraceStep(trace, ops, i)
  }

  lemma TracedOneMore(trace: seq<Space>, ops: seq<Op>, op: Op, b: Space)
    requires Traced(trace, ops) && Stepped(trace[|ops|], op, b)
    ensures Traced(trace + [b], ops + [op])
  {
    var longer, more := trace + [b], ops + [op];
    forall i | 0 <= i <= |ops| ensures TraceStep(longer, more, i) {
      assert longer[i] == trace[i];
      if i < |ops| {
        assert longer[i + 1] == trace[i + 1] && more[i] == ops[i] && TraceStep(trace, ops, i);
      }
    }
  }

  // The operation is no one-byte write to the control word at 'h' that changes a read-only bit of it.
  predicate KeepsControl(cfg: seq<Byte>, op: Op, h: nat) {
    h + 4 <= |cfg| && op.Write? && Fits(op.off, op.val) && Unmasked(op.off, op.val, h) ==>
      Repeats(cfg, op.off, op.val, h)
  }

  // The operation is no one-byte write to the control word at 'h' that changes an enable or mask bit of it.
  predicate KeepsEnables(cfg: seq<Byte>, op: Op, h: nat) {
    h + 4 <= |cfg| && op.Write? && Fits(op.off, op.val) && Unmasked(op.off, op.val, h) ==>
      RepeatsEnables(cfg, op.off, op.val, h)
  }

  // An addition leaves the first dwords of the other capabilities alone, next pointers apart.
  lemma AddKeepsDword(a: Space, data: seq<Byte>, b: Space, c: nat)
    requires Stepped(a, Add(data), b) && c < |a.caps|
    ensures var h := Off(a.caps[c]);
      h + 4 <= REGS && b.cfg[h] == a.cfg[h] && b.cfg[h + 2] == a.cfg[h + 2] && b.cfg[h + 3] == a.cfg[h + 3]
  {
    BelowNextFree(a.caps, c);
  }

  /** An operation keeps the read-only bits of a control word exactly if it is no one-byte write that changes one. */
  lemma StepKeepsControl(a: Space, op: Op, b: Space, c: nat)
    requires Stepped(a, op, b) && c < |a.caps|
    ensures var h := Off(a.caps[c]); h + 4 <= REGS && (ControlFixed(a.cfg, b.cfg, h) <==> KeepsControl(a.cfg, op, h))
  {
    BelowNextFree(a.caps, c);
    match op
    case Add(data) => AddKeepsDword(a, data, b, c);
    case Write(off, val, bar) =>
      if Fits(off, val) {
        var k: nat :| Wrote(a.cfg, a.enables, a.caps, a.capend, k, off, val, bar, b.cfg, b.enables);
        ControlKept(a.cfg, a.enables, a.caps, a.capend, k, off, val, bar, b.cfg, b.enables, c, Off(a.caps[c]));
      }
  }

  // Every capability has its own kind.
  ghost predicate OwnKinds(caps: seq<Cap>) {
    forall i, j :: 0 <= i < |caps| && 0 <= j < |caps| && i != j ==> caps[i].id != caps[j].id
  }

  /** Flags in step stay so if and only if the operation is no one-byte write that changes an enable or mask bit. */
  lemma StepKeepsEnables(a: Space, op: Op, b: Space, c: nat)
    requires Stepped(a, op, b) && c < |a.caps| && OwnKinds(a.caps)
    requires Off(a.caps[c]) + 4 <= REGS && InStep(a.cfg, a.enables, Off(a.caps[c]))
    ensures InStep(b.cfg, b.enables, Off(a.caps[c])) <==> KeepsEnables(a.cfg, op, Off(a.caps[c]))
  {
    match op
    case Add(data) => AddKeepsDword(a, data, b, c);
    case Write(off, val, bar) =>
      if Fits(off, val) {
        var k: nat :| Wrote(a.cfg, a.enables, a.caps, a.capend, k, off, val, bar, b.cfg, b.enables);
        FlagsStayInStep(a.cfg, a.enables, a.caps, a.capend, k, off, val, bar, b.cfg, b.enables, c, Off(a.caps[c]));
      }
  }

  lemma {:induction false} CapsStay(trace: seq<Space>, ops: seq<Op>, i: nat, j: nat)
    requires Traced(trace, ops) && i <= j <= |ops|
    ensures SpaceOk(trace[j]) && trace[i].caps <= trace[j].caps
  {
    if j > 0 {
      assert TraceStep(trace, ops, j - 1);
      StepGrows(trace[j - 1], ops[j - 1], trace[j]);
    }
    if i < j {
      CapsStay(trace, ops, i, j - 1);
    }
  }

  // Capability c is in place from moment i to moment j.
  lemma CapStays(trace: seq<Space>, ops: seq<Op>, i: nat, j: nat, c: nat)
    requires Traced(trace, ops) && i <= j <= |ops| && c < |trace[i].caps|
    ensures SpaceOk(trace[i]) && SpaceOk(trace[j]) && c < |trace[j].caps| && trace[j].caps[c] == trace[i].caps[c]
    ensures Off(trace[i].caps[c]) + 4 <= REGS
    ensures trace[j].cfg[Off(trace[i].caps[c])] == trace[i].caps[c].id
  {
    CapsStay(trace, ops, i, i);
    CapsStay(trace, ops, i, j);
    BelowNextFree(trace[i].caps, c);
  }

  // The read-only bits of the control word at 'h' are the same at both moments.
  ghost predicate ControlSame(a: Space, b: Space, h: nat) {
    h + 4 <= |a.cfg| == |b.cfg| && ControlFixed(a.cfg, b.cfg, h)
  }

  // The flags of the capability at 'h' are in step.
  ghost predicate FlagsRight(s: Space, h: nat) {
    h + 4 <= |s.cfg| && InStep(s.cfg, s.enables, h)
  }

  lemma ControlOneMore(trace: seq<Space>, ops: seq<Op>, a: Space, k: nat, c: nat, h: nat)
    requires Traced(trace, ops) && k < |ops| && c < |trace[k].caps| && h == Off(trace[k].caps[c])
    requires ControlSame(a, trace[k], h) && a.cfg[h] == trace[k].cfg[h] && KeepsControl(trace[k].cfg, ops[k], h)
    ensures ControlSame(a, trace[k + 1], h)
  {
    assert TraceStep(trace, ops, k);
    StepKeepsControl(trace[k], ops[k], trace[k + 1], c);
  }

  /** Over any history without such one-byte writes the read-only bits of every control word stay as they were. */
  lemma {:induction false} HistoryKeepsControl(trace: seq<Space>, ops: seq<Op>, i: nat, j: nat, c: nat, h: nat)
    requires Traced(trace, ops) && i <= j <= |ops| && c < |trace[i].caps| && h == Off(trace[i].caps[c])
    requires forall k :: i <= k < j ==> KeepsControl(trace[k].cfg, ops[k], h)
    ensures ControlSame(trace[i], trace[j], h)
  {
    CapStays(trace, ops, i, i, c);
    if i < j {
      CapStays(trace, ops, i, j - 1, c);
      HistoryKeepsControl(trace, ops, i, j - 1, c, h);
      ControlOneMore(trace, ops, trace[i], j - 1, c, h);
    }
  }

  /** Over any history without such one-byte writes the flags of every capability stay in step with its control word. */
  lemma {:induction false} HistoryKeepsEnables(trace: seq<Space>, ops: seq<Op>, i: nat, j: nat, c: nat, h: nat)
    requires Traced(trace, ops) && i <= j <= |ops| && c < |trace[i].caps| && h == Off(trace[i].caps[c])
    requires forall k :: i <= k < j ==> OwnKinds(trace[k].caps) && KeepsEnables(trace[k].cfg, ops[k], h)
    requires FlagsRight(trace[i], h)
    ensures FlagsRight(trace[j], h)
  {
    if i < j {
      CapStays(trace, ops, i, j - 1, c);
      HistoryKeepsEnables(trace, ops, i, j - 1, c, h);
      EnablesOneMore(trace, ops, j - 1, c, h);
    }
  }

  lemma EnablesOneMore(trace: seq<Space>, ops: seq<Op>, k: nat, c: nat, h: nat)
    requires Traced(trace, ops) && k < |ops| && c < |trace[k].caps| && h == Off(trace[k].caps[c])
    requires OwnKinds(trace[k].caps) && KeepsEnables(trace[k].cfg, ops[k], h) && FlagsRight(trace[k], h)
    ensures FlagsRight(trace[k + 1], h)
  {
    assert TraceStep(trace, ops, k);
    StepKeepsEnables(trace[k], ops[k], trace[k + 1], c);
  }

  // The list at moment j is what the operations before it make of the list at the start.
  lemma {:induction false} TracedCaps(trace: seq<Space>, ops: seq<Op>, j: nat)
    requires Traced(trace, ops) && j <= |ops| && forall i :: 0 <= i < |ops| ==> OpOk(ops[i])
    ensures trace[j].caps == CapsAfter(trace[0].caps, ops[..j])
  {
    if j > 0 {
      TracedCaps(trace, ops, j - 1);
      assert TraceStep(trace, ops, j - 1);
      StepGrows(trace[j - 1], ops[j - 1], trace[j]);
      assert ops[..j][..j - 1] == ops[..j - 1];
    }
  }

  class CapSpace {
    const cfg: array<Byte>
    var prevcap: nat
    var capend: nat
    var enables: Enables
    ghost var caps: seq<Cap>

    ghost predicate Valid() reads this, cfg {
      && cfg.Length == REGS && Spells(cfg[..], caps)
      && (caps != [] ==> prevcap == Off(caps[|caps| - 1]) && capend + 1 == NextFree(caps))
    }

    // Copies bytes into configuration space.
    method CopyIn(at: nat, data: seq<Byte>)
      requires at + |data| <= cfg.Length
      modifies cfg
      ensures forall k :: 0 <= k < cfg.Length && !(at <= k < at + |data|) ==> cfg[k] == old(cfg[k])
      ensures forall k :: 0 <= k < |data| ==> cfg[at + k] == data[k]
    {
      for i := 0 to |data|
        invariant forall k :: 0 <= k < cfg.Length && !(at <= k < at + i) ==> cfg[k] == old(cfg[k])
        invariant forall k :: 0 <= k < i ==> cfg[at + k] == data[k]
      {
        cfg[at + i] := data[i];
      }
    }

    // Points the previous capability, or the capabilities pointer, at the new one.
    method Link(present: bool, capoff: Byte)
      requires Valid() && present == (caps != []) && capoff == NextFree(caps) && capoff + 4 <= REGS
      modifies cfg
      ensures cfg[STATUS] == old(cfg[STATUS]) + (if present then 0 else 16)
      ensures present ==> cfg[prevcap + 1] == capoff
      ensures !present ==> cfg[CAP_PTR] == capoff
      ensures forall k ::
        0 <= k < REGS && !(if present then k == prevcap + 1 else k == CAP_PTR || k == STATUS) ==> cfg[k] == old(cfg[k])
    {
      if !present {
        cfg[CAP_PTR] := capoff;
        cfg[STATUS] := cfg[STATUS] + 16;
      } else {
        cfg[prevcap + 1] := capoff;
      }
    }

    // Everything that adding a capability writes.
    method Lay(present: bool, capoff: Byte, capdata: seq<Byte>)
      requires Valid() && present == (caps != []) && capoff == NextFree(caps) && 0 < |capdata|
      requires capoff + 4 <= REGS && capoff + |capdata| <= REGS
      modifies cfg
      ensures Extended(old(cfg[..]), cfg[..], caps, |capdata|)
      ensures Holds(cfg[..], capoff, capdata)
    {
      Link(present, capoff);
      CopyIn(capoff, capdata);
      cfg[capoff + 1] := 0;
    }

    // Appends a capability that fits.
    method Append(present: bool, capoff: nat, capdata: seq<Byte>)
      requires Valid() && present == (caps != []) && 0 < |capdata| && capoff == NextFree(caps)
      requires capoff + 4 * Dwords(|capdata|) <= REGS
      modifies this`prevcap, this`capend, this`caps, cfg
      ensures Valid() && caps == old(caps) + [Cap(NextDword(old(caps)), Dwords(|capdata|), capdata[0])]
      ensures Holds(cfg[..], capoff, capdata) && Extended(old(cfg[..]), cfg[..], old(caps), |capdata|)
    {
      ghost var before := cfg[..];
      ghost var c := Cap(NextDword(caps), Dwords(|capdata|), capdata[0]);
      Lay(present, capoff, capdata);
      ExtendedSpells(before, cfg[..], caps, |capdata|, c);
      prevcap := capoff;
      capend := capoff + 4 * Dwords(|capdata|) - 1;
      caps := caps + [c];
    }

    // Appends a capability, or refuses it when it does not fit.
    method AddCapability(capdata: seq<Byte>) returns (ok: bool)
      requires Valid() && 0 < |capdata|
      modifies this`prevcap, this`capend, this`caps, cfg
      ensures Valid()
      ensures ok <==> old(NextFree(caps)) + 4 * Dwords(|capdata|) <= REGS
      ensures ok ==> caps == old(caps) + [Cap(NextDword(old(caps)), Dwords(|capdata|), capdata[0])]
      ensures ok ==>
        Holds(cfg[..], old(NextFree(caps)), capdata) && Extended(old(cfg[..]), cfg[..], old(caps), |capdata|)
      ensures !ok ==> caps == old(caps) && capend == old(capend) && cfg[..] == old(cfg[..])
    {
      var reallen := 4 * Dwords(|capdata|);
      var present := cfg[STATUS] / 16 % 2 == 1;
      var capoff := if !present then CAP_START else capend + 1;
      if capoff + reallen > REGS {
        return false;
      }
      Append(present, capoff, capdata);
      ok := true;
    }

    // The walk from the first capability to the one that contains 'off'.
    method FindCap(off: nat) returns (capoff: nat, ghost k: nat)
      requires Valid() && caps != [] && CAP_START <= off <= capend
      ensures k < |caps| && capoff == Off(caps[k]) && capoff <= off < End(caps[k])
      ensures exists c :: c in caps && capoff == Off(c) && capoff <= off < End(c)
    {
      capoff, k := CAP_START, 0;
      while true
        invariant k < |caps| && capoff == Off(caps[k]) && capoff <= off
        decreases |caps| - k
      {
        var nextoff := cfg[capoff + 1];
        NextPointer(cfg[..], caps, k);
        if nextoff == 0 {
          break;
        }
        if off >= capoff && off < nextoff {
          break;
        }
        capoff, k := nextoff, k + 1;
      }
    }

    method WriteBytes(off: nat, val: seq<Byte>)
      requires cfg.Length == REGS && off + |val| <= REGS
      modifies cfg
      ensures cfg[..] == Store(old(cfg[..]), off, val)
    {
      CopyIn(off, val);
    }

    // The per-capability handlers: MSI, MSI-X and PCI Express.
    method BodyWrite(capoff: nat, off: nat, val: seq<Byte>)
      requires cfg.Length == REGS && capoff < off && off + |val| <= REGS
      modifies cfg, this`enables
      ensures cfg[..] == StoreBody(old(cfg[..]), capoff, off, val)
      ensures enables == FlagsBody(old(cfg[..]), capoff, off, val, old(enables))
    {
      var capid := cfg[capoff];
      var control := off - capoff == 2 && |val| == 2;
      if capid == PCIY_MSI {
        if control {
          enables := enables.(msi := val[0] % 2 == 1);
        }
        WriteBytes(off, if control then MsiControl(cfg[off..off + 2], val) else val);
      } else if capid == PCIY_MSIX {
        if control {
          enables := enables.(msix := val[1] / 128 == 1, masked := val[1] / 64 % 2 == 1);
        }
        WriteBytes(off, if control then MsixControl(cfg[off..off + 2], val) else val);
      } else if capid == PCIY_EXPRESS {
        WriteBytes(off, val);
      }
    }

    // A guest write into the capability region.
    method CapWrite(off: nat, val: seq<Byte>) returns (ghost k: nat)
      requires Valid() && caps != [] && CAP_START <= off <= capend && Fits(off, val)
      modifies cfg, this`enables
      ensures k < |caps| && Off(caps[k]) <= off < End(caps[k])
      ensures cfg[..] == StoreCap(old(cfg[..]), Off(caps[k]), off, val)
      ensures enables == FlagsCap(old(cfg[..]), Off(caps[k]), off, val, old(enables))
    {
      var capoff;
      capoff, k := FindCap(off);
      if off == capoff || off == capoff + 1 {
        if off == capoff && |val| == 4 {
          BodyWrite(capoff, off + 2, val[2..]);
        }
        return;
      }
      BodyWrite(capoff, off, val);
    }

    // The branches of the default path.
    method StoreWrite(off: nat, val: seq<Byte>, bar: seq<Byte>) returns (ghost k: nat)
      requires Valid() && Fits(off, val) && |bar| == 4
      modifies cfg, this`enables
      ensures Wrote(old(cfg[..]), old(enables), caps, capend, k, off, val, bar, cfg[..], enables)
    {
      k := 0;
      ghost var before := cfg[..];
      if 0x10 <= off < 0x28 {
        if |val| == 4 {
          WriteBytes(off, bar);
        }
      } else if cfg[STATUS] / 16 % 2 == 1 && CAP_START <= off <= capend {
        k := CapWrite(off, val);
      } else if 4 <= off < 8 {
        WriteBytes(off, CmdSts(cfg[..], off, val));
      } else {
        WriteBytes(off, val);
      }
    }

    // A write of one, two or four aligned bytes.
    method FitWrite(off: nat, val: seq<Byte>, bar: seq<Byte>) returns (ghost k: nat)
      requires Valid() && Fits(off, val) && |bar| == 4
      modifies cfg, this`enables
      ensures Valid() && SameHeaders(old(cfg[..]), cfg[..], caps)
      ensures Wrote(old(cfg[..]), old(enables), caps, capend, k, off, val, bar, cfg[..], enables)
    {
      ghost var before, f := cfg[..], enables;
      k := StoreWrite(off, val, bar);
      WroteKeepsList(before, f, caps, capend, k, off, val, bar, cfg[..], enables);
    }

    // A guest write to configuration space on the default path; 'bar' is what the BAR logic stores.
    method CfgWrite(off: nat, val: seq<Byte>, bar: seq<Byte>) returns (ghost k: nat)
      requires Valid() && |bar| == 4
      modifies cfg, this`enables
      ensures Valid() && SameHeaders(old(cfg[..]), cfg[..], caps)
      ensures Fits(off, val) ==> Wrote(old(cfg[..]), old(enables), caps, capend, k, off, val, bar, cfg[..], enables)
      ensures !Fits(off, val) ==> cfg[..] == old(cfg[..]) && enables == old(enables)
    {
      k := 0;
      if !Aligned(off, |val|) || off >= REGS {
        return;
      }
      AlignedBelow(off, |val|, REGS / 4);
      k := FitWrite(off, val, bar);
    }

    constructor ()
      ensures Valid() && caps == [] && fresh(cfg)
    {
      cfg := new Byte[REGS](_ => 0);
      prevcap, capend, caps := 0, 0, [];
      enables := Enables(false, false, false);
    }

    ghost function Now(): Space
      reads this, cfg
    {
      Space(cfg[..], caps, capend, enables)
    }

    // A capability is added if it fits.
    method AddStep(data: seq<Byte>)
      requires Valid() && 0 < |data|
      modifies this`prevcap, this`capend, this`caps, cfg
      ensures Valid() && Stepped(old(Now()), Add(data), Now())
    {
      var _ := AddCapability(data);
    }

    // A guest write on the default path.
    method WriteStep(off: nat, val: seq<Byte>, bar: seq<Byte>)
      requires Valid() && |bar| == 4
      modifies cfg, this`enables
      ensures Valid() && Stepped(old(Now()), Write(off, val, bar), Now())
    {
      ghost var k := CfgWrite(off, val, bar);
    }

    method Step(op: Op)
      requires Valid() && OpOk(op)
      modifies this`prevcap, this`capend, this`caps, this`enables, cfg
      ensures Valid() && Stepped(old(Now()), op, Now())
    {
      match op
      case Add(data) => AddStep(data);
      case Write(off, val, bar) => WriteStep(off, val, bar);
    }

    // The space is valid.  The quantifier keeps what that means out of proofs that only hand it on.
    ghost predicate Good()
      reads this, cfg
    {
      forall d: CapSpace :: d == this ==> d.Valid()
    }

    // Operation i of a history.
    method StepOn(ops: seq<Op>, i: nat, ghost past: seq<Space>) returns (ghost trace: seq<Space>)
      requires Good() && i < |ops| && OpOk(ops[i]) && Traced(past, ops[..i]) && past[i] == Now()
      modifies this`prevcap, this`capend, this`caps, this`enables, cfg
      ensures Good() && Traced(trace, ops[..i + 1]) && trace[0] == past[0] && trace[i + 1] == Now()
    {
      Step(ops[i]);
      assert ops[..i + 1] == ops[..i] + [ops[i]];
      TracedOneMore(past, ops[..i], ops[i], Now());
      trace := past + [Now()];
    }

    /** Any history of capability additions and guest writes, moment by moment. */
    method Run(ops: seq<Op>) returns (ghost trace: seq<Space>)
      requires Valid() && forall i :: 0 <= i < |ops| ==> OpOk(ops[i])
      modifies this`prevcap, this`capend, this`caps, this`enables, cfg
      ensures Valid() && caps == CapsAfter(old(caps), ops)
      ensures Traced(trace, ops) && trace[0] == old(Now()) && trace[|ops|] == Now()
    {
      trace := [Now()];
      for i := 0 to |ops|
        invariant Good() && Traced(trace, ops[..i]) && trace[0] == old(Now()) && trace[i] == Now()
      {
        trace := StepOn(ops, i, trace);
      }
      assert ops[..|ops|] == ops;
      TracedCaps(trace, ops, |ops|);
    }
  }
}
