/** Bytes seen bit by bit, and the bit mirror of libnfc/mirror-subr.c. */
module Bits {

  // A uint8_t.
  type byte = bv8

  // Bit i of b; bit 0 is the least significant one.
  predicate Bit(b: byte, i: nat)
    requires i < 8
  {
    match i
    case 0 => b & 0x01 != 0
    case 1 => b & 0x02 != 0
    case 2 => b & 0x04 != 0
    case 3 => b & 0x08 != 0
    case 4 => b & 0x10 != 0
    case 5 => b & 0x20 != 0
    case 6 => b & 0x40 != 0
    case _ => b & 0x80 != 0
  }

  // The C expression (uint8_t) (b >> k). Each count is written out, so that
  // the solver only ever sees shifts by a literal.
  function Shr(b: byte, k: nat): byte
    requires k <= 8
  {
    match k
    case 0 => b
    case 1 => b >> 1
    case 2 => b >> 2
    case 3 => b >> 3
    case 4 => b >> 4
    case 5 => b >> 5
    case 6 => b >> 6
    case 7 => b >> 7
    case _ => 0
  }

  // The C expression (uint8_t) (b << k).
  function Shl(b: byte, k: nat): byte
    requires k <= 8
  {
    match k
    case 0 => b
    case 1 => b << 1
    case 2 => b << 2
    case 3 => b << 3
    case 4 => b << 4
    case 5 => b << 5
    case 6 => b << 6
    case 7 => b << 7
    case _ => 0
  }

  lemma ShrBit(b: byte, k: nat, i: nat)
    requires k <= 8 && i < 8
    ensures Bit(Shr(b, k), i) == (i + k < 8 && Bit(b, i + k))
  {
  }

  lemma ShlBit(b: byte, k: nat, i: nat)
    requires k <= 8 && i < 8
    ensures Bit(Shl(b, k), i) == (k <= i && Bit(b, i - k))
  {
  }

  lemma OrBit(a: byte, b: byte, i: nat)
    requires i < 8
    ensures Bit(a | b, i) == (Bit(a, i) || Bit(b, i))
  {
    match i
    case 0 =>
    case 1 =>
    case 2 =>
    case 3 =>
    case 4 =>
    case 5 =>
    case 6 =>
    case _ =>
  }

  // A byte is determined by its eight bits.
  lemma SameBits(a: byte, b: byte)
    requires forall i: nat :: i < 8 ==> Bit(a, i) == Bit(b, i)
    ensures a == b
  {
    assert forall i: nat :: i < 8 ==> Bit(a, i) == Bit(b, i);
    assert Bit(a, 0) == Bit(b, 0) && Bit(a, 1) == Bit(b, 1);
    assert Bit(a, 2) == Bit(b, 2) && Bit(a, 3) == Bit(b, 3);
    assert Bit(a, 4) == Bit(b, 4) && Bit(a, 5) == Bit(b, 5);
    assert Bit(a, 6) == Bit(b, 6) && Bit(a, 7) == Bit(b, 7);
  }

  // b with its bits in the opposite order.
  function Mirror(b: byte): byte {
    var b1 := ((b & 0x55) << 1) | ((b >> 1) & 0x55);
    var b2 := ((b1 & 0x33) << 2) | ((b1 >> 2) & 0x33);
    ((b2 & 0x0f) << 4) | (b2 >> 4)
  }

  lemma MirrorBit(b: byte, i: nat)
    requires i < 8
    ensures Bit(Mirror(b), i) == Bit(b, 7 - i)
  {
  }

  // Sixteen consecutive table entries, selected by the low nibble.
  function Row(i: byte, v0: byte, v1: byte, v2: byte, v3: byte, v4: byte, v5: byte, v6: byte, v7: byte,
               v8: byte, v9: byte, va: byte, vb: byte, vc: byte, vd: byte, ve: byte, vf: byte): byte
  {
    match i & 0x0f
    case 0 => v0 case 1 => v1 case 2 => v2 case 3 => v3
    case 4 => v4 case 5 => v5 case 6 => v6 case 7 => v7
    case 8 => v8 case 9 => v9 case 10 => va case 11 => vb
    case 12 => vc case 13 => vd case 14 => ve case _ => vf
  }

  // The lookup table of the source, sixteen entries a row.
  function ByteMirror(b: byte): byte {
    match b >> 4
    case 0 => Row(b, 0x00, 0x80, 0x40, 0xc0, 0x20, 0xa0, 0x60, 0xe0, 0x10, 0x90, 0x50, 0xd0, 0x30, 0xb0, 0x70, 0xf0)
    case 1 => Row(b, 0x08, 0x88, 0x48, 0xc8, 0x28, 0xa8, 0x68, 0xe8, 0x18, 0x98, 0x58, 0xd8, 0x38, 0xb8, 0x78, 0xf8)
    case 2 => Row(b, 0x04, 0x84, 0x44, 0xc4, 0x24, 0xa4, 0x64, 0xe4, 0x14, 0x94, 0x54, 0xd4, 0x34, 0xb4, 0x74, 0xf4)
    case 3 => Row(b, 0x0c, 0x8c, 0x4c, 0xcc, 0x2c, 0xac, 0x6c, 0xec, 0x1c, 0x9c, 0x5c, 0xdc, 0x3c, 0xbc, 0x7c, 0xfc)
    case 4 => Row(b, 0x02, 0x82, 0x42, 0xc2, 0x22, 0xa2, 0x62, 0xe2, 0x12, 0x92, 0x52, 0xd2, 0x32, 0xb2, 0x72, 0xf2)
    case 5 => Row(b, 0x0a, 0x8a, 0x4a, 0xca, 0x2a, 0xaa, 0x6a, 0xea, 0x1a, 0x9a, 0x5a, 0xda, 0x3a, 0xba, 0x7a, 0xfa)
    case 6 => Row(b, 0x06, 0x86, 0x46, 0xc6, 0x26, 0xa6, 0x66, 0xe6, 0x16, 0x96, 0x56, 0xd6, 0x36, 0xb6, 0x76, 0xf6)
    case 7 => Row(b, 0x0e, 0x8e, 0x4e, 0xce, 0x2e, 0xae, 0x6e, 0xee, 0x1e, 0x9e, 0x5e, 0xde, 0x3e, 0xbe, 0x7e, 0xfe)
    case 8 => Row(b, 0x01, 0x81, 0x41, 0xc1, 0x21, 0xa1, 0x61, 0xe1, 0x11, 0x91, 0x51, 0xd1, 0x31, 0xb1, 0x71, 0xf1)
    case 9 => Row(b, 0x09, 0x89, 0x49, 0xc9, 0x29, 0xa9, 0x69, 0xe9, 0x19, 0x99, 0x59, 0xd9, 0x39, 0xb9, 0x79, 0xf9)
    case 10 => Row(b, 0x05, 0x85, 0x45, 0xc5, 0x25, 0xa5, 0x65, 0xe5, 0x15, 0x95, 0x55, 0xd5, 0x35, 0xb5, 0x75, 0xf5)
    case 11 => Row(b, 0x0d, 0x8d, 0x4d, 0xcd, 0x2d, 0xad, 0x6d, 0xed, 0x1d, 0x9d, 0x5d, 0xdd, 0x3d, 0xbd, 0x7d, 0xfd)
    case 12 => Row(b, 0x03, 0x83, 0x43, 0xc3, 0x23, 0xa3, 0x63, 0xe3, 0x13, 0x93, 0x53, 0xd3, 0x33, 0xb3, 0x73, 0xf3)
    case 13 => Row(b, 0x0b, 0x8b, 0x4b, 0xcb, 0x2b, 0xab, 0x6b, 0xeb, 0x1b, 0x9b, 0x5b, 0xdb, 0x3b, 0xbb, 0x7b, 0xfb)
    case 14 => Row(b, 0x07, 0x87, 0x47, 0xc7, 0x27, 0xa7, 0x67, 0xe7, 0x17, 0x97, 0x57, 0xd7, 0x37, 0xb7, 0x77, 0xf7)
    case _ => Row(b, 0x0f, 0x8f, 0x4f, 0xcf, 0x2f, 0xaf, 0x6f, 0xef, 0x1f, 0x9f, 0x5f, 0xdf, 0x3f, 0xbf, 0x7f, 0xff)
  }

  // Every row of the table has this shape; x is the mirror of the row number.
  lemma RowIsMirror(i: byte, x: byte)
    ensures Row(i, x, x | 0x80, x | 0x40, x | 0xc0, x | 0x20, x | 0xa0, x | 0x60, x | 0xe0,
               x | 0x10, x | 0x90, x | 0x50, x | 0xd0, x | 0x30, x | 0xb0, x | 0x70, x | 0xf0)
            == x | Mirror(i & 0x0f)
  {
    match i & 0x0f
    case 0 => case 1 => case 2 => case 3 =>
    case 4 => case 5 => case 6 => case 7 =>
    case 8 => case 9 => case 10 => case 11 =>
    case 12 => case 13 => case 14 => case _ =>
  }

  lemma TableEntry(b: byte)
    ensures ByteMirror(b) == Mirror(b)
  {
    assert Mirror(b) == Mirror(b & 0xf0) | Mirror(b & 0x0f);
    match b >> 4
    case 0 => RowIsMirror(b, 0x00);
    case 1 => RowIsMirror(b, 0x08);
    case 2 => RowIsMirror(b, 0x04);
    case 3 => RowIsMirror(b, 0x0c);
    case 4 => RowIsMirror(b, 0x02);
    case 5 => RowIsMirror(b, 0x0a);
    case 6 => RowIsMirror(b, 0x06);
    case 7 => RowIsMirror(b, 0x0e);
    case 8 => RowIsMirror(b, 0x01);
    case 9 => RowIsMirror(b, 0x09);
    case 10 => RowIsMirror(b, 0x05);
    case 11 => RowIsMirror(b, 0x0d);
    case 12 => RowIsMirror(b, 0x03);
    case 13 => RowIsMirror(b, 0x0b);
    case 14 => RowIsMirror(b, 0x07);
    case _ => RowIsMirror(b, 0x0f);
  }

  // The 256-entry table of the source reverses the bits of every byte, and
  // looking a byte up twice gives it back.
  lemma TableIsMirror(b: byte)
    ensures ByteMirror(b) == Mirror(b)
    ensures ByteMirror(ByteMirror(b)) == b
  {
    TableEntry(b);
    TableEntry(Mirror(b));
    assert Mirror(Mirror(b)) == b;
  }

  // mirror_bytes: reverses the bits of every byte of the array, in place.
  method MirrorBytes(bytes: array<byte>)
    modifies bytes
    ensures forall k, i: nat :: 0 <= k < bytes.Length && i < 8 ==> Bit(bytes[k], i) == Bit(old(bytes[k]), 7 - i)
  {
    var byteNr := 0;
    while byteNr < bytes.Length
      invariant 0 <= byteNr <= bytes.Length
      invariant forall k :: byteNr <= k < bytes.Length ==> bytes[k] == old(bytes[k])
      invariant forall k :: 0 <= k < byteNr ==> bytes[k] == Mirror(old(bytes[k]))
    {
      var b := bytes[byteNr];
      TableEntry(b);
      bytes[byteNr] := ByteMirror(b);
      byteNr := byteNr + 1;
    }
    forall k, i: nat | 0 <= k < bytes.Length && i < 8
      ensures Bit(bytes[k], i) == Bit(old(bytes[k]), 7 - i)
    {
      MirrorBit(old(bytes[k]), i);
    }
  }
}
