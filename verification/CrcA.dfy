/** CRC_A (libnfc/iso14443-subr.c) against the shift register of ISO/IEC 14443-3
    Annex B, and the errors it is sure to detect. */
module CrcA {
  import opened Bits
  import opened ParityCodec

  // The preset value of the register.
  const CRC_A_INIT: bv16 := 0x6363

  // x^16 + x^12 + x^5 + 1, bits reversed.
  const CRC_A_POLYNOMIAL: bv16 := 0x8408

  // One step of the shift register: the message bit is fed in at the low end.
  function ShiftIn(crc: bv16, bit: bool): bv16 {
    if (crc & 1 == 1) != bit then (crc >> 1) ^ CRC_A_POLYNOMIAL else crc >> 1
  }

  // A byte goes in least significant bit first.
  function ShiftInByte(crc: bv16, b: byte): bv16 {
    var c0 := ShiftIn(crc, Bit(b, 0));
    var c1 := ShiftIn(c0, Bit(b, 1));
    var c2 := ShiftIn(c1, Bit(b, 2));
    var c3 := ShiftIn(c2, Bit(b, 3));
    var c4 := ShiftIn(c3, Bit(b, 4));
    var c5 := ShiftIn(c4, Bit(b, 5));
    var c6 := ShiftIn(c5, Bit(b, 6));
    ShiftIn(c6, Bit(b, 7))
  }

  function ShiftInAll(crc: bv16, message: seq<byte>): bv16
    decreases |message|
  {
    if message == [] then crc else ShiftInAll(ShiftInByte(crc, message[0]), message[1..])
  }

  // The CRC of a message by the bit-serial definition.
  function Crc(message: seq<byte>): bv16 {
    ShiftInAll(CRC_A_INIT, message)
  }

  function Low(crc: bv16): byte {
    (crc & 0x00ff) as bv8
  }

  function High(crc: bv16): byte {
    (crc >> 8) as bv8
  }

  // --- Eight steps at once ---

  // The loop body of the source, on its 32-bit accumulator.
  function SourceStep(wCrc: bv32, b: byte): bv32 {
    var bt := b ^ ((wCrc & 0x00ff) as bv8);
    var bt' := bt ^ (bt << 4);
    (wCrc >> 8) ^ ((bt' as bv32) << 8) ^ ((bt' as bv32) << 3) ^ ((bt' as bv32) >> 4)
  }

  // Eight steps of the register on zero bits, in closed form.
  function Shift8(crc: bv16): bv16 {
    var bt := (crc & 0x00ff) ^ ((crc & 0x000f) << 4);
    (crc >> 8) ^ (bt << 8) ^ (bt << 3) ^ (bt >> 4)
  }

  // Named, so that proofs can hide what they mean and reason by equations.
  function Xor(a: bv16, b: bv16): bv16 {
    a ^ b
  }

  function Halve(w: bv16): bv16 {
    w >> 1
  }

  function LowBit(w: bv16): bool {
    w & 1 == 1
  }

  lemma XorSwapBits(a: bv16, b: bv16, c: bv16, d: bv16)
    ensures (a ^ b) ^ (c ^ d) == (a ^ c) ^ (b ^ d)
  {
  }

  lemma XorSwap(a: bv16, b: bv16, c: bv16, d: bv16)
    ensures Xor(Xor(a, b), Xor(c, d)) == Xor(Xor(a, c), Xor(b, d))
  {
    assert Xor(b, c) == Xor(c, b);
    hide Xor;
    XorAssociates(a, b, Xor(c, d));
    XorAssociates(b, c, d);
    XorAssociates(c, b, d);
    XorAssociates(a, c, Xor(b, d));
  }

  lemma XorAssociates(a: bv16, b: bv16, c: bv16)
    ensures Xor(Xor(a, b), c) == Xor(a, Xor(b, c))
  {
    assert (a ^ b) ^ c == a ^ (b ^ c);
  }

  lemma XorTwice(a: bv16, b: bv16)
    ensures Xor(Xor(a, b), b) == a && Xor(a, 0) == a
  {
  }

  lemma Shift8IsEightSteps(crc: bv16)
    ensures
      var c3 := ShiftIn(ShiftIn(ShiftIn(ShiftIn(crc, false), false), false), false);
      ShiftIn(ShiftIn(ShiftIn(ShiftIn(c3, false), false), false), false) == Shift8(crc)
  {
  }

  // The next message bit can be added to the register up front, together with
  // all the bits behind it.
  lemma BitUpFront(z: bv16, rest: bv16)
    ensures ShiftIn(Xor(z, rest), LowBit(rest)) == Xor(ShiftIn(z, false), Halve(rest))
  {
    assert (z ^ rest) >> 1 == (z >> 1) ^ (rest >> 1);
    assert ((z >> 1) ^ (rest >> 1)) ^ CRC_A_POLYNOMIAL == ((z >> 1) ^ CRC_A_POLYNOMIAL) ^ (rest >> 1);
    assert (((z ^ rest) & 1 == 1) != (rest & 1 == 1)) == (z & 1 == 1);
  }

  lemma BitsOfWord(b: byte, h0: bv16, h1: bv16, h2: bv16, h3: bv16, h4: bv16, h5: bv16, h6: bv16, h7: bv16)
    requires h0 == b as bv16 && h1 == Halve(h0) && h2 == Halve(h1) && h3 == Halve(h2)
    requires h4 == Halve(h3) && h5 == Halve(h4) && h6 == Halve(h5) && h7 == Halve(h6)
    ensures Bit(b, 0) == LowBit(h0) && Bit(b, 1) == LowBit(h1) && Bit(b, 2) == LowBit(h2) && Bit(b, 3) == LowBit(h3)
    ensures Bit(b, 4) == LowBit(h4) && Bit(b, 5) == LowBit(h5) && Bit(b, 6) == LowBit(h6) && Bit(b, 7) == LowBit(h7)
    ensures Halve(h7) == 0
  {
  }

  // A byte can be added to the register before eight zero bits go in.
  lemma ByteUpFront(crc: bv16, b: byte)
    ensures ShiftInByte(crc, b) == Shift8(Xor(crc, b as bv16))
  {
    hide Shift8, ShiftIn, Bit, Xor, Halve, LowBit;
    var h0 := b as bv16;
    var h1 := Halve(h0);
    var h2 := Halve(h1);
    var h3 := Halve(h2);
    var h4 := Halve(h3);
    var h5 := Halve(h4);
    var h6 := Halve(h5);
    var h7 := Halve(h6);
    BitsOfWord(b, h0, h1, h2, h3, h4, h5, h6, h7);
    var z := Xor(crc, h0);
    XorTwice(crc, h0);
    Shift8IsEightSteps(z);
    BitUpFront(z, h0);
    var z0 := ShiftIn(z, false);
    BitUpFront(z0, h1);
    var z1 := ShiftIn(z0, false);
    BitUpFront(z1, h2);
    var z2 := ShiftIn(z1, false);
    BitUpFront(z2, h3);
    var z3 := ShiftIn(z2, false);
    BitUpFront(z3, h4);
    var z4 := ShiftIn(z3, false);
    BitUpFront(z4, h5);
    var z5 := ShiftIn(z4, false);
    BitUpFront(z5, h6);
    var z6 := ShiftIn(z5, false);
    BitUpFront(z6, h7);
    XorTwice(ShiftIn(z6, false), 0);
  }

  /** Eight steps of the shift register are one turn of the source's loop, and
      the 32-bit accumulator stays within 16 bits. */
  lemma SourceStepIsSerial(crc: bv16, b: byte)
    ensures SourceStep(crc as bv32, b) == ShiftInByte(crc, b) as bv32
  {
    hide ShiftInByte;
    ByteUpFront(crc, b);
    SourceStepIsShift8(crc, b);
    assert Xor(crc, b as bv16) == crc ^ (b as bv16);
  }

  lemma SourceStepIsShift8(crc: bv16, b: byte)
    ensures SourceStep(crc as bv32, b) == Shift8(crc ^ (b as bv16)) as bv32
  {
  }

  lemma ShiftInAllAppend(crc: bv16, a: seq<byte>, b: seq<byte>)
    ensures ShiftInAll(crc, a + b) == ShiftInAll(ShiftInAll(crc, a), b)
    decreases |a|
  {
    hide ShiftInByte;
    if a == [] {
      assert a + b == b;
    } else {
      assert (a + b)[1..] == a[1..] + b;
      ShiftInAllAppend(ShiftInByte(crc, a[0]), a[1..], b);
    }
  }

  lemma ShiftInLast(crc: bv16, a: seq<byte>, b: byte)
    ensures ShiftInAll(crc, a + [b]) == ShiftInByte(ShiftInAll(crc, a), b)
  {
    hide ShiftInByte;
    ShiftInAllAppend(crc, a, [b]);
    assert [b][1..] == [];
    assert ShiftInAll(ShiftInAll(crc, a), [b]) == ShiftInAll(ShiftInByte(ShiftInAll(crc, a), b), []);
  }

  /** iso14443a_crc: the CRC of the first szLen bytes of data goes to out[at] and
      out[at + 1]; out may be data itself. The loop tests its count at the end,
      so there has to be at least one byte. */
  method Iso14443aCrc(data: array<byte>, szLen: nat, out: array<byte>, at: nat)
    requires 1 <= szLen <= data.Length && at + 2 <= out.Length
    modifies out
    ensures
      var crc := Crc(old(data[..szLen]));
      out[..] == old(out[..])[at := Low(crc)][at + 1 := High(crc)]
  {
    hide ShiftInByte, SourceStep, ShiftInAll;
    var wCrc: bv32 := 0x6363;
    var left, pos := szLen, 0;
    ghost var crc := CRC_A_INIT;
    EmptyMessage(CRC_A_INIT, data[..0]);
    var first := true;
    while first || left > 0
      invariant pos + left == szLen && (first ==> pos == 0)
      invariant data[..szLen] == old(data[..szLen]) && out[..] == old(out[..])
      invariant crc == Crc(data[..pos]) && wCrc == crc as bv32
      decreases left, first
    {
      first := false;
      SourceStepIsSerial(crc, data[pos]);
      ShiftInLast(CRC_A_INIT, data[..pos], data[pos]);
      assert data[..pos + 1] == data[..pos] + [data[pos]];
      crc := ShiftInByte(crc, data[pos]);
      wCrc := SourceStep(wCrc, data[pos]);
      pos := pos + 1;
      left := left - 1;
    }
    HalvesOfAccumulator(crc);
    out[at] := (wCrc & 0xff) as bv8;
    out[at + 1] := ((wCrc >> 8) & 0xff) as bv8;
  }

  lemma EmptyMessage(crc: bv16, message: seq<byte>)
    requires message == []
    ensures ShiftInAll(crc, message) == crc
  {
  }

  lemma HalvesOfAccumulator(crc: bv16)
    ensures ((crc as bv32) & 0xff) as bv8 == Low(crc)
    ensures (((crc as bv32) >> 8) & 0xff) as bv8 == High(crc)
  {
  }

  /** iso14443a_crc_append: afterwards the CRC of the whole is zero. */
  method Iso14443aCrcAppend(data: array<byte>, szLen: nat)
    requires 1 <= szLen && szLen + 2 <= data.Length
    modifies data
    ensures data[..szLen] == old(data[..szLen]) && data[szLen + 2..] == old(data[szLen + 2..])
    ensures Crc(data[..szLen + 2]) == 0
  {
    ghost var message := data[..szLen];
    Iso14443aCrc(data, szLen, data, szLen);
    assert data[..szLen + 2] == message + [Low(Crc(message)), High(Crc(message))];
    CrcOfSealed(message);
  }

  // A message with its CRC appended.
  function Sealed(message: seq<byte>): seq<byte> {
    message + [Low(Crc(message)), High(Crc(message))]
  }

  lemma CrcOfSealed(message: seq<byte>)
    ensures Crc(Sealed(message)) == 0
  {
    hide ShiftInByte, Low, High;
    var crc := Crc(message);
    assert Sealed(message) == (message + [Low(crc)]) + [High(crc)];
    ShiftInLast(CRC_A_INIT, message + [Low(crc)], High(crc));
    ShiftInLast(CRC_A_INIT, message, Low(crc));
    OwnCrcClears(crc);
  }

  lemma OwnCrcClears(crc: bv16)
    ensures ShiftInByte(ShiftInByte(crc, Low(crc)), High(crc)) == 0
  {
    hide ShiftInByte;
    ByteUpFront(crc, Low(crc));
    ByteUpFront(ShiftInByte(crc, Low(crc)), High(crc));
  }

  /** The two examples of ISO/IEC 14443-3 Annex B, and the HLTA command with its CRC
      bytes 57 cd. */
  lemma KnownCrcs()
    ensures Crc([0x00, 0x00]) == 0x1EA0
    ensures Crc([0x12, 0x34]) == 0xCF26
    ensures Crc([0x50, 0x00]) == 0xCD57
  {
    TwoBytes(0x00, 0x00);
    TwoBytes(0x12, 0x34);
    TwoBytes(0x50, 0x00);
    KnownSteps();
  }

  lemma TwoBytes(a: byte, b: byte)
    ensures Crc([a, b]) == ShiftInByte(ShiftInByte(0x6363, a), b)
  {
    hide ShiftInByte;
    var message: seq<byte> := [a, b];
    assert message[1..] == [b];
    assert message[1..][1..] == [];
    var crc := ShiftInByte(0x6363, a);
    assert ShiftInAll(crc, [b]) == ShiftInAll(ShiftInByte(crc, b), []);
  }

  lemma KnownSteps()
    ensures ShiftInByte(ShiftInByte(0x6363, 0x00), 0x00) == 0x1EA0
    ensures ShiftInByte(ShiftInByte(0x6363, 0x12), 0x34) == 0xCF26
    ensures ShiftInByte(ShiftInByte(0x6363, 0x50), 0x00) == 0xCD57
  {
  }

  // --- Error detection ---

  // The parts of Shift8; each of them is linear.
  function Spread(crc: bv16): bv16 {
    (crc & 0x00ff) ^ ((crc & 0x000f) << 4)
  }

  function Right8(a: bv16): bv16 {
    a >> 8
  }

  function Left8(a: bv16): bv16 {
    a << 8
  }

  function Left3(a: bv16): bv16 {
    a << 3
  }

  function Right4(a: bv16): bv16 {
    a >> 4
  }

  lemma Shift8Parts(crc: bv16)
    ensures
      var t := Spread(crc);
      Shift8(crc) == Xor(Xor(Right8(crc), Left8(t)), Xor(Left3(t), Right4(t)))
  {
  }

  lemma Right8Linear(a: bv16, b: bv16)
    ensures Right8(Xor(a, b)) == Xor(Right8(a), Right8(b))
  {
    assert (a ^ b) >> 8 == (a >> 8) ^ (b >> 8);
  }

  lemma Left8Linear(a: bv16, b: bv16)
    ensures Left8(Xor(a, b)) == Xor(Left8(a), Left8(b))
  {
    assert (a ^ b) << 8 == (a << 8) ^ (b << 8);
  }

  lemma Left3Linear(a: bv16, b: bv16)
    ensures Left3(Xor(a, b)) == Xor(Left3(a), Left3(b))
  {
    assert (a ^ b) << 3 == (a << 3) ^ (b << 3);
  }

  lemma Right4Linear(a: bv16, b: bv16)
    ensures Right4(Xor(a, b)) == Xor(Right4(a), Right4(b))
  {
    assert (a ^ b) >> 4 == (a >> 4) ^ (b >> 4);
  }

  lemma PartsLinear(a: bv16, b: bv16)
    ensures Right8(Xor(a, b)) == Xor(Right8(a), Right8(b))
    ensures Left8(Xor(a, b)) == Xor(Left8(a), Left8(b))
    ensures Left3(Xor(a, b)) == Xor(Left3(a), Left3(b))
    ensures Right4(Xor(a, b)) == Xor(Right4(a), Right4(b))
  {
    hide *;
    Right8Linear(a, b);
    Left8Linear(a, b);
    Left3Linear(a, b);
    Right4Linear(a, b);
  }

  lemma SpreadLinear(a: bv16, b: bv16)
    ensures Spread(Xor(a, b)) == Xor(Spread(a), Spread(b))
  {
    assert (a ^ b) & 0x00ff == (a & 0x00ff) ^ (b & 0x00ff);
    assert ((a ^ b) & 0x000f) << 4 == ((a & 0x000f) << 4) ^ ((b & 0x000f) << 4);
    XorSwapBits(a & 0x00ff, b & 0x00ff, (a & 0x000f) << 4, (b & 0x000f) << 4);
  }

  lemma Shift8Linear(a: bv16, b: bv16)
    ensures Shift8(Xor(a, b)) == Xor(Shift8(a), Shift8(b))
  {
    hide *;
    var s, t := Spread(a), Spread(b);
    SpreadLinear(a, b);
    PartsLinear(a, b);
    PartsLinear(s, t);
    Shift8Parts(a);
    Shift8Parts(b);
    Shift8Parts(Xor(a, b));
    XorSwap(Right8(a), Right8(b), Left8(s), Left8(t));
    XorSwap(Left3(s), Left3(t), Right4(s), Right4(t));
    XorSwap(Xor(Right8(a), Left8(s)), Xor(Right8(b), Left8(t)), Xor(Left3(s), Right4(s)), Xor(Left3(t), Right4(t)));
  }

  lemma Shift8Injective(a: bv16)
    requires Shift8(a) == 0
    ensures a == 0
  {
  }

  // The bits in which two bytes differ.
  function Difference(b: byte, b': byte): byte {
    b ^ b'
  }

  // The difference of two registers after a byte each.
  lemma StepDifference(crc: bv16, crc': bv16, b: byte, b': byte)
    ensures Xor(ShiftInByte(crc, b), ShiftInByte(crc', b')) == Shift8(Xor(Xor(crc, crc'), Difference(b, b') as bv16))
  {
    var w, w' := b as bv16, b' as bv16;
    assert Difference(b, b') as bv16 == Xor(w, w');
    hide *;
    ByteUpFront(crc, b);
    ByteUpFront(crc', b');
    Shift8Linear(Xor(crc, w), Xor(crc', w'));
    XorSwap(crc, w, crc', w');
  }

  lemma XorZero(a: bv16, b: bv16)
    ensures Xor(a, b) == 0 <==> a == b
  {
  }

  lemma NotCancelled(crc: bv16, crc': bv16, b: byte)
    ensures ShiftInByte(crc, b) == ShiftInByte(crc', b) ==> crc == crc'
  {
    assert Difference(b, b) == 0;
    hide *;
    StepDifference(crc, crc', b, b);
    XorTwice(Xor(crc, crc'), 0);
    XorZero(crc, crc');
    XorZero(ShiftInByte(crc, b), ShiftInByte(crc', b));
    if ShiftInByte(crc, b) == ShiftInByte(crc', b) {
      Shift8Injective(Xor(crc, crc'));
    }
  }

  // What different registers have become stays different under equal bytes.
  lemma StaysDifferent(crc: bv16, crc': bv16, tail: seq<byte>)
    requires crc != crc'
    ensures ShiftInAll(crc, tail) != ShiftInAll(crc', tail)
    decreases |tail|
  {
    hide ShiftInByte, Shift8;
    if tail != [] {
      var b := tail[0];
      NotCancelled(crc, crc', b);
      StaysDifferent(ShiftInByte(crc, b), ShiftInByte(crc', b), tail[1..]);
    }
  }

  // The differences e0, e1, e2 of three bytes lie within sixteen consecutive
  // bits, the first of them bit k of e0.
  predicate InWindow(e0: byte, e2: byte, k: nat)
    requires k <= 8
  {
    Shl(e0, 8 - k) == 0 && Shr(e2, k) == 0
  }

  lemma WindowCancels(e0: byte, e1: byte, e2: byte, k: nat)
    requires k <= 8 && InWindow(e0, e2, k)
    requires Shift8(Xor(Shift8(e0 as bv16), e1 as bv16)) == e2 as bv16
    ensures e0 == 0 && e1 == 0 && e2 == 0
  {
    match k
    case 0 => case 1 => case 2 => case 3 => case 4 =>
    case 5 => case 6 => case 7 => case _ =>
  }

  lemma NoDifference(a: byte, b: byte)
    ensures Difference(a, b) == 0 ==> a == b
  {
  }

  lemma ThreeBytesDiffer(crc: bv16, a0: byte, a1: byte, a2: byte, b0: byte, b1: byte, b2: byte, k: nat)
    requires k <= 8 && InWindow(Difference(a0, b0), Difference(a2, b2), k)
    requires ShiftInByte(ShiftInByte(ShiftInByte(crc, a0), a1), a2)
          == ShiftInByte(ShiftInByte(ShiftInByte(crc, b0), b1), b2)
    ensures a0 == b0 && a1 == b1 && a2 == b2
  {
    hide *;
    DifferencesMeet(crc, a0, a1, a2, b0, b1, b2);
    DifferencesCancel(a0, a1, a2, b0, b1, b2, k);
  }

  lemma DifferencesMeet(crc: bv16, a0: byte, a1: byte, a2: byte, b0: byte, b1: byte, b2: byte)
    requires ShiftInByte(ShiftInByte(ShiftInByte(crc, a0), a1), a2)
          == ShiftInByte(ShiftInByte(ShiftInByte(crc, b0), b1), b2)
    ensures Shift8(Xor(Shift8(Difference(a0, b0) as bv16), Difference(a1, b1) as bv16)) == Difference(a2, b2) as bv16
  {
    hide *;
    var x0, y0 := ShiftInByte(crc, a0), ShiftInByte(crc, b0);
    var x1, y1 := ShiftInByte(x0, a1), ShiftInByte(y0, b1);
    StepDifference(crc, crc, a0, b0);
    StepDifference(x0, y0, a1, b1);
    StepDifference(x1, y1, a2, b2);
    XorZero(crc, crc);
    ZeroXor(Difference(a0, b0) as bv16);
    XorZero(ShiftInByte(x1, a2), ShiftInByte(y1, b2));
    Shift8Injective(Xor(Xor(x1, y1), Difference(a2, b2) as bv16));
    XorZero(Xor(x1, y1), Difference(a2, b2) as bv16);
  }

  lemma DifferencesCancel(a0: byte, a1: byte, a2: byte, b0: byte, b1: byte, b2: byte, k: nat)
    requires k <= 8 && InWindow(Difference(a0, b0), Difference(a2, b2), k)
    requires Shift8(Xor(Shift8(Difference(a0, b0) as bv16), Difference(a1, b1) as bv16)) == Difference(a2, b2) as bv16
    ensures a0 == b0 && a1 == b1 && a2 == b2
  {
    hide *;
    WindowCancels(Difference(a0, b0), Difference(a1, b1), Difference(a2, b2), k);
    NoDifference(a0, b0);
    NoDifference(a1, b1);
    NoDifference(a2, b2);
  }

  lemma ZeroXor(a: bv16)
    ensures Xor(0, a) == a
  {
  }

  // Messages of equal length that differ at most in the sixteen bits from bit p on.
  ghost predicate DifferWithin16Bits(m: seq<byte>, m': seq<byte>, p: nat) {
    && |m| == |m'|
    && forall k: nat :: k < 8 * |m| && !(p <= k < p + 16) ==> FrameBit(m, k) == FrameBit(m', k)
  }

  lemma ByteOutsideWindow(m: seq<byte>, m': seq<byte>, p: nat, i: nat)
    requires DifferWithin16Bits(m, m', p) && i < |m|
    requires 8 * i + 8 <= p || p + 16 <= 8 * i
    ensures m[i] == m'[i]
  {
    hide Bit;
    forall b: nat | b < 8
      ensures Bit(m[i], b) == Bit(m'[i], b)
    {
      assert (8 * i + b) / 8 == i && (8 * i + b) % 8 == b;
      assert FrameBit(m, 8 * i + b) == FrameBit(m', 8 * i + b);
    }
    SameBits(m[i], m'[i]);
  }

  lemma BitOutsideWindow(m: seq<byte>, m': seq<byte>, p: nat, i: nat, b: nat)
    requires DifferWithin16Bits(m, m', p) && i < |m| && b < 8
    requires !(p <= 8 * i + b < p + 16)
    ensures Bit(m[i], b) == Bit(m'[i], b)
  {
    hide Bit;
    assert (8 * i + b) / 8 == i && (8 * i + b) % 8 == b;
    assert FrameBit(m, 8 * i + b) == FrameBit(m', 8 * i + b);
  }

  lemma LowBitsAgree(a: byte, b: byte, k: nat)
    requires k <= 8 && forall i: nat :: i < k ==> Bit(a, i) == Bit(b, i)
    ensures Shl(Difference(a, b), 8 - k) == 0
  {
    hide Bit, Shl, Difference;
    forall i: nat {:trigger Bit(Shl(a, 8 - k), i)} | i < 8
      ensures Bit(Shl(a, 8 - k), i) == Bit(Shl(b, 8 - k), i)
    {
      ShlBit(a, 8 - k, i);
      ShlBit(b, 8 - k, i);
    }
    SameBits(Shl(a, 8 - k), Shl(b, 8 - k));
    ShlOfXor(a, b, 8 - k);
  }

  lemma HighBitsAgree(a: byte, b: byte, k: nat)
    requires k <= 8 && forall i: nat {:trigger Bit(a, i)} :: k <= i < 8 ==> Bit(a, i) == Bit(b, i)
    ensures Shr(Difference(a, b), k) == 0
  {
    hide Bit, Shr, Difference;
    forall i: nat {:trigger Bit(Shr(a, k), i)} | i < 8
      ensures Bit(Shr(a, k), i) == Bit(Shr(b, k), i)
    {
      ShrBit(a, k, i);
      ShrBit(b, k, i);
    }
    SameBits(Shr(a, k), Shr(b, k));
    ShrOfXor(a, b, k);
  }

  lemma ShlOfXor(a: byte, b: byte, n: nat)
    requires n <= 8 && Shl(a, n) == Shl(b, n)
    ensures Shl(Difference(a, b), n) == 0
  {
    match n
    case 0 => case 1 => case 2 => case 3 => case 4 =>
    case 5 => case 6 => case 7 => case _ =>
  }

  lemma ShrOfXor(a: byte, b: byte, n: nat)
    requires n <= 8 && Shr(a, n) == Shr(b, n)
    ensures Shr(Difference(a, b), n) == 0
  {
    match n
    case 0 => case 1 => case 2 => case 3 => case 4 =>
    case 5 => case 6 => case 7 => case _ =>
  }

  lemma WindowOf(m: seq<byte>, m': seq<byte>, p: nat)
    requires DifferWithin16Bits(m, m', p) && p / 8 + 2 < |m|
    ensures InWindow(Difference(m[p / 8], m'[p / 8]), Difference(m[p / 8 + 2], m'[p / 8 + 2]), p % 8)
  {
    hide Bit, Shl, Shr, Difference;
    var j, k := p / 8, p % 8;
    forall i: nat | i < k
      ensures Bit(m[j], i) == Bit(m'[j], i)
    {
      BitOutsideWindow(m, m', p, j, i);
    }
    LowBitsAgree(m[j], m'[j], k);
    forall i: nat {:trigger Bit(m[j + 2], i)} | k <= i < 8
      ensures Bit(m[j + 2], i) == Bit(m'[j + 2], i)
    {
      BitOutsideWindow(m, m', p, j + 2, i);
    }
    HighBitsAgree(m[j + 2], m'[j + 2], k);
  }

  lemma BurstInside(m: seq<byte>, m': seq<byte>, p: nat)
    requires DifferWithin16Bits(m, m', p) && p / 8 + 2 < |m|
    ensures m != m' ==> Crc(m) != Crc(m')
  {
    hide ShiftInByte, InWindow, Difference, DifferWithin16Bits;
    var j := p / 8;
    assert |m| == |m'| by {
      hide *;
      SameLength(m, m', p);
    }
    forall i: nat | i < |m| && !(j <= i <= j + 2)
      ensures m[i] == m'[i]
    {
      ByteOutsideWindow(m, m', p, i);
    }
    var pre, tail := m[..j], m[j + 3..];
    assert pre == m'[..j] && tail == m'[j + 3..];
    var crc := ShiftInAll(CRC_A_INIT, pre);
    SplitAt(m, j);
    SplitAt(m', j);
    var x := ShiftInByte(ShiftInByte(ShiftInByte(crc, m[j]), m[j + 1]), m[j + 2]);
    var y := ShiftInByte(ShiftInByte(ShiftInByte(crc, m'[j]), m'[j + 1]), m'[j + 2]);
    if x == y {
      WindowOf(m, m', p);
      ThreeBytesDiffer(crc, m[j], m[j + 1], m[j + 2], m'[j], m'[j + 1], m'[j + 2], p % 8);
      assert m == m';
    } else {
      StaysDifferent(x, y, tail);
    }
  }

  lemma SameLength(m: seq<byte>, m': seq<byte>, p: nat)
    requires DifferWithin16Bits(m, m', p)
    ensures |m| == |m'|
  {
  }

  lemma SplitAt(m: seq<byte>, j: nat)
    requires j + 2 < |m|
    ensures
      var crc := ShiftInAll(CRC_A_INIT, m[..j]);
      Crc(m) == ShiftInAll(ShiftInByte(ShiftInByte(ShiftInByte(crc, m[j]), m[j + 1]), m[j + 2]), m[j + 3..])
  {
    hide ShiftInByte;
    assert m == m[..j] + [m[j]] + [m[j + 1]] + [m[j + 2]] + m[j + 3..];
    ShiftInAllAppend(CRC_A_INIT, m[..j] + [m[j]] + [m[j + 1]] + [m[j + 2]], m[j + 3..]);
    ShiftInLast(CRC_A_INIT, m[..j] + [m[j]] + [m[j + 1]], m[j + 2]);
    ShiftInLast(CRC_A_INIT, m[..j] + [m[j]], m[j + 1]);
    ShiftInLast(CRC_A_INIT, m[..j], m[j]);
  }

  /** Any change of a message within sixteen consecutive bits, wherever they
      start, changes its CRC_A. */
  lemma BurstChangesCrc(m: seq<byte>, m': seq<byte>, p: nat)
    requires DifferWithin16Bits(m, m', p)
    ensures m != m' ==> Crc(m) != Crc(m')
  {
    hide ShiftInByte, Bit;
    if p / 8 >= |m| {
      forall i: nat | i < |m|
        ensures m[i] == m'[i]
      {
        ByteOutsideWindow(m, m', p, i);
      }
      assert m == m';
      return;
    }
    var pad: seq<byte> := [0, 0];
    forall k: nat | k < 8 * |m + pad| && !(p <= k < p + 16)
      ensures FrameBit(m + pad, k) == FrameBit(m' + pad, k)
    {
      if k / 8 < |m| {
        assert FrameBit(m, k) == FrameBit(m', k);
      }
    }
    assert (m + pad)[..|m|] == m && (m' + pad)[..|m|] == m';
    BurstInside(m + pad, m' + pad, p);
    ShiftInAllAppend(CRC_A_INIT, m, pad);
    ShiftInAllAppend(CRC_A_INIT, m', pad);
  }

  /** A receiver that checks a sealed message for CRC zero notices every such
      change, in the message as well as in its two CRC bytes. */
  lemma BurstIsDetected(message: seq<byte>, received: seq<byte>, p: nat)
    requires DifferWithin16Bits(Sealed(message), received, p)
    ensures Crc(received) == 0 <==> received == Sealed(message)
  {
    hide ShiftInByte, Sealed, DifferWithin16Bits, Crc;
    CrcOfSealed(message);
    BurstChangesCrc(Sealed(message), received, p);
  }
}
