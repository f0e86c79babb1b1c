// The mask of the command/status dword of PCI configuration space.
module ConfigBytes {
  import opened Octets

  /**
   * Byte 'k' of the command/status dword after a guest write of 'val'.  The read-only bits are those of
   * 0xFFFFF880 (sections 6.2.2 and 6.2.3 of PCI Local Bus Specification 3.0): bit 7 and up of the first byte,
   * bit 3 and up of the second, and the whole status register.
   */
  function CmdStsByte(k: nat, before: Byte, val: Byte): (r: Byte)
    ensures k == 0 ==> r / 128 == before / 128 && r % 128 == val % 128
    ensures k == 1 ==> r / 8 == before / 8 && r % 8 == val % 8
    ensures k >= 2 ==> r == before
  {
    if k == 0 then before - before % 128 + val % 128
    else if k == 1 then before - before % 8 + val % 8
    else before
  }

  // Bytes 'at' and on of the command/status dword after a guest write of 'val' over them.
  function CmdStsBytes(at: nat, before: seq<Byte>, val: seq<Byte>): (r: seq<Byte>)
    requires |before| == |val|
    ensures |r| == |val| && forall k :: 0 <= k < |val| ==> r[k] == CmdStsByte(at + k, before[k], val[k])
  {
    seq(|val|, k requires 0 <= k < |val| => CmdStsByte(at + k, before[k], val[k]))
  }
}
