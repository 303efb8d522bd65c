/** What each setting does to the registers and on the line, over a line without faults
    (libnfc/chips/pn53x.c): the masked bits become what was asked for, and nothing else
    changes. */
module SettingEffects {
  import opened Nfc
  import opened Bits
  import opened RegisterCache
  import opened Protocol
  import opened WriteThrough
  import opened ShadowSettings

  function WithBits(v: Registers, a: Address, mask: byte, value: byte): Registers {
    v[a := (v[a] & !mask) | (value & mask)]
  }

  // From d to d' the registers become v, as the caller sees them, and nothing is
  // executed for the caller.
  predicate Becomes(d: Device, d': Device, v: Registers) {
    && Healthy(d'.s) && View(d'.s) == v && d'.s.kind == d.s.kind && d'.s.io == d.s.io
    && UserRuns(d'.s.log) == UserRuns(d.s.log)
  }

  // From d to d' the registers stay, and cmd is executed for the caller.
  predicate Executes(d: Device, d': Device, cmd: Command) {
    && Healthy(d'.s) && View(d'.s) == View(d.s)
    && UserRuns(d'.s.log) == UserRuns(d.s.log) + [(cmd, View(d.s))]
  }

  lemma MaskedIsWithBits(v: Registers, a: Address, mask: byte, value: byte)
    ensures Put(v, a, mask, value) == WithBits(v, a, mask, value)
  {
    MaskedMeans(v[a], mask, value);
    hide Masked;
  }

  lemma MaskedMeans(current: byte, mask: byte, value: byte)
    ensures Masked(current, mask, value) == (current & !mask) | (value & mask)
  {
  }

  lemma WriteBecomes(d: Device, a: Address, mask: byte, value: byte)
    requires Healthy(d.s) && Cached(a)
    ensures
      var (s', ok) := WriteReg(d.s, a, mask, value);
      ok && Becomes(d, d.(s := s'), WithBits(View(d.s), a, mask, value))
  {
    hide Healthy, View, UserRuns, Store, Put, WithBits;
    PutIsSeen(d.s, a, mask, value);
    MaskedIsWithBits(View(d.s), a, mask, value);
  }

  lemma WriteTwoBecomes(d: Device, a: Address, a': Address, mask: byte, value: byte)
    requires Healthy(d.s) && Cached(a) && Cached(a')
    ensures
      var (s', ok) := WriteTwo(d.s, a, mask, value, a', mask, value);
      ok && Becomes(d, d.(s := s'), WithBits(WithBits(View(d.s), a, mask, value), a', mask, value))
  {
    hide Healthy, View, UserRuns, WriteReg, WithBits;
    WriteBecomes(d, a, mask, value);
    WriteBecomes(d.(s := WriteReg(d.s, a, mask, value).0), a', mask, value);
  }

  // The addresses, as the header has them.
  lemma Addresses()
    ensures REG_TX_MODE == 0x6302 && REG_RX_MODE == 0x6303 && REG_TX_AUTO == 0x6305 && REG_MANUAL_RCV == 0x630D
    ensures REG_STATUS2 == 0x6338 && REG_BIT_FRAMING == 0x633D
    ensures forall a: Address :: Cached(a) <==> 0x6301 <= a <= 0x633E
  {
  }

  /** Crypto1: bit 3 of Status2. */
  lemma Crypto1Effect(d: Device, on: bool)
    requires Healthy(d.s)
    ensures
      var (d', ok) := SetProperty(d, ActivateCrypto1, on);
      && ok && d' == d.(s := d'.s)
      && Becomes(d, d', WithBits(View(d.s), 0x6338, 0x08, if on then 0x08 else 0x00))
  {
    hide Healthy, View, UserRuns, WriteReg, WithBits;
    WriteBecomes(d, 0x6338, 0x08, if on then 0x08 else 0x00);
  }

  /** Invalid frames: bit 3 of RxMode. Several frames: bit 2 of RxMode. */
  lemma ReceptionEffect(d: Device, on: bool)
    requires Healthy(d.s)
    ensures
      var (d', ok) := SetProperty(d, AcceptInvalidFrames, on);
      && ok && d' == d.(s := d'.s)
      && Becomes(d, d', WithBits(View(d.s), 0x6303, 0x08, if on then 0x08 else 0x00))
    ensures
      var (d', ok) := SetProperty(d, AcceptMultipleFrames, on);
      && ok && d' == d.(s := d'.s)
      && Becomes(d, d', WithBits(View(d.s), 0x6303, 0x04, if on then 0x04 else 0x00))
  {
    hide Healthy, View, UserRuns, WriteReg, WithBits;
    WriteBecomes(d, 0x6303, 0x08, if on then 0x08 else 0x00);
    WriteBecomes(d, 0x6303, 0x04, if on then 0x04 else 0x00);
  }

  function BothModes(v: Registers, mask: byte, value: byte): Registers {
    WithBits(WithBits(v, 0x6302, mask, value), 0x6303, mask, value)
  }

  /** ISO 14443-A: framing 0 in both mode registers and bit 6 of TxAuto; ISO 14443-B:
      framing 3; 106 kbps: speed 0. Switching them off does nothing. */
  lemma ForceEffect(d: Device)
    requires Healthy(d.s)
    ensures
      var (d', ok) := SetProperty(d, ForceIso14443A, true);
      && ok && d' == d.(s := d'.s)
      && Becomes(d, d', WithBits(BothModes(View(d.s), 0x03, 0x00), 0x6305, 0x40, 0x40))
    ensures
      var (d', ok) := SetProperty(d, ForceIso14443B, true);
      ok && d' == d.(s := d'.s) && Becomes(d, d', BothModes(View(d.s), 0x03, 0x03))
    ensures
      var (d', ok) := SetProperty(d, ForceSpeed106, true);
      ok && d' == d.(s := d'.s) && Becomes(d, d', BothModes(View(d.s), 0x70, 0x00))
    ensures SetProperty(d, ForceIso14443A, false) == (d, true)
    ensures SetProperty(d, ForceIso14443B, false) == (d, true)
    ensures SetProperty(d, ForceSpeed106, false) == (d, true)
  {
    hide Healthy, View, UserRuns, WriteReg, WriteTwo, WithBits;
    WriteTwoBecomes(d, 0x6302, 0x6303, 0x03, 0x00);
    WriteTwoBecomes(d, 0x6302, 0x6303, 0x03, 0x03);
    WriteTwoBecomes(d, 0x6302, 0x6303, 0x70, 0x00);
    WriteBecomes(d.(s := WriteTwo(d.s, 0x6302, 0x03, 0x00, 0x6303, 0x03, 0x00).0), 0x6305, 0x40, 0x40);
  }

  /** CRC and parity: bit 7 of both mode registers, and bit 4 of ManualRCV, inverted;
      where the shadow field says so already, nothing is written. Easy framing is a
      field of the device only. The bits in the last byte sent: those of BitFraming. */
  lemma CrcEffect(d: Device, on: bool)
    requires Healthy(d.s)
    ensures
      var (d', ok) := SetProperty(d, HandleCrc, on);
      && ok && d' == d.(s := d'.s, crc := on)
      && Becomes(d, d', if on == d.crc then View(d.s) else BothModes(View(d.s), 0x80, if on then 0x80 else 0x00))
  {
    hide Healthy, View, UserRuns, WriteReg, WriteTwo, WithBits;
    WriteTwoBecomes(d, 0x6302, 0x6303, 0x80, if on then 0x80 else 0x00);
  }

  lemma ParityEffect(d: Device, on: bool)
    requires Healthy(d.s)
    ensures
      var (d', ok) := SetProperty(d, HandleParity, on);
      && ok && d' == d.(s := d'.s, par := on)
      && Becomes(d, d', if on == d.par then View(d.s)
                        else WithBits(View(d.s), 0x630D, 0x10, if on then 0x00 else 0x10))
  {
    hide Healthy, View, UserRuns, WriteReg, WriteTwo, WithBits;
    WriteBecomes(d, 0x630D, 0x10, if on then 0x00 else 0x10);
  }

  lemma EasyFramingEffect(d: Device, on: bool)
    ensures SetProperty(d, EasyFraming, on) == (d.(easyFraming := on), true)
  {
  }

  lemma TxBitsEffect(d: Device, bits: byte)
    requires Healthy(d.s)
    ensures
      var (d', ok) := SetTxBits(d, bits);
      && ok && d' == d.(s := d'.s, txBits := bits)
      && Becomes(d, d', if bits == d.txBits then View(d.s) else WithBits(View(d.s), 0x633D, 0x07, bits))
  {
    hide Healthy, View, UserRuns, WriteReg, WriteTwo, WithBits;
    WriteBecomes(d, 0x633D, 0x07, bits);
  }

  lemma RunExecutes(d: Device, cmd: Command)
    requires Healthy(d.s) && cmd.Other? && Sendable(cmd) && !HasStatus(d.s.kind, cmd)
    ensures
      var (s', r) := Transceive(d.s, User, cmd);
      r.Ok? && Executes(d, d.(s := s'), cmd)
  {
    hide Healthy, View, UserRuns, Transceive, RegistersAfter;
    TransceiveIsThroughRun(d.s, cmd);
    OtherKeepsRegisters(View(d.s), cmd);
  }

  lemma ModeIsUnseen(s: State, mode: byte)
    ensures Healthy(s.(samMode := mode)) == Healthy(s) && View(s.(samMode := mode)) == View(s)
  {
  }

  /** The SAM of a PN532: SAMConfiguration with the mode, and a zero behind it for the two
      virtual card modes. Other modes and other chips are refused, with nothing changed.
      The mode on record is another one if the chip has to be woken out of LOWVBAT for
      the command: waking it up stores the normal mode on the way. */
  lemma SamEffect(d: Device, mode: byte)
    requires Healthy(d.s)
    ensures
      var (s', r) := SamConfiguration(d.s, User, mode);
      if d.s.kind == PN532 && (mode == 1 || mode == 2 || mode == 3 || mode == 4) then
        && r.Ok? && s'.samMode == (if d.s.io == Uart && d.s.power == LOWVBAT then 1 else mode)
        && Executes(d, d.(s := s'), Other(0x14, if mode == 2 || mode == 4 then [mode, 0x00] else [mode], []))
      else
        r.Err? && s' == d.s
  {
    hide Transceive, Healthy, View, UserRuns;
    ModeIsUnseen(d.s, mode);
    if d.s.kind == PN532 && (mode == 1 || mode == 2 || mode == 3 || mode == 4) {
      var d1 := d.(s := d.s.(samMode := mode));
      RunExecutes(d1, Other(0x14, if mode == 2 || mode == 4 then [mode, 0x00] else [mode], []));
    }
  }

  /** Field and retries: RFConfiguration, with these bytes. */
  lemma FieldEffect(d: Device, on: bool)
    requires Healthy(d.s)
    ensures
      var (d', ok) := SetProperty(d, ActivateField, on);
      && ok && d' == d.(s := d'.s)
      && Executes(d, d', Other(0x32, [0x01, if on then 0x01 else 0x00], []))
    ensures
      var (d', ok) := SetProperty(d, InfiniteSelect, on);
      && ok && d' == d.(s := d'.s)
      && Executes(d, d', Other(0x32, if on then [0x05, 0xff, 0xff, 0xff] else [0x05, 0x00, 0x01, 0x02], []))
  {
    hide Healthy, View, UserRuns, Transceive;
    RunExecutes(d, Other(0x32, [0x01, if on then 0x01 else 0x00], []));
    var retries: seq<byte> := if on then [0x05, 0xff, 0xff, 0xff] else [0x05, 0x00, 0x01, 0x02];
    RunExecutes(d, Other(0x32, retries, []));
    assert FieldCommand(on) == Other(0x32, [0x01, if on then 0x01 else 0x00], []);
    assert RetriesCommand(on) == Other(0x32, retries, []);
  }

  /** Automatic RATS: bit 4 of the parameters, sent by SetParameters if it changes. */
  lemma AutoRatsEffect(d: Device, on: bool)
    requires Healthy(d.s)
    ensures
      var (d', ok) := SetProperty(d, AutoIso14443_4, on);
      var value := if on then d.parameters | 0x10 else d.parameters & 0xef;
      && ok && d'.autoIso14443_4 == on
      && if on == d.autoIso14443_4 || value == d.parameters then
           d' == d.(autoIso14443_4 := on)
         else
           && d' == d.(s := d'.s, autoIso14443_4 := on, parameters := value)
           && Executes(d, d', Other(0x12, [value], []))
  {
    hide Healthy, View, UserRuns, Transceive;
    var value := if on then d.parameters | 0x10 else d.parameters & 0xef;
    RunExecutes(d, Other(0x12, [value], []));
    AutoRatsBits(d.parameters, on);
  }

  lemma AutoRatsBits(parameters: byte, on: bool)
    ensures WithAutoRats(parameters, on) == if on then parameters | 0x10 else parameters & 0xef
  {
  }

  /** Every reset, the first and any later one, ends with CRC and parity handled by the
      chip as far as the shadow fields say, whole bytes sent, easy framing, and Crypto1
      switched off. */
  lemma ResetEffect(d: Device)
    requires Healthy(d.s)
    ensures
      var (d', ok) := ResetSettings(d);
      var v := View(d'.s);
      && ok && Healthy(d'.s) && d' == d.(s := d'.s, crc := true, par := true, easyFraming := true, txBits := 0x00)
      && v[0x6338] & 0x08 == 0x00 && v[0x633D] & 0x07 == 0x00
      && (!d.crc ==> v[0x6302] & 0x80 == v[0x6303] & 0x80 == 0x80)
      && (!d.par ==> v[0x630D] & 0x10 == 0x00)
      && (forall a: Address :: a !in {0x6302, 0x6303, 0x630D, 0x6338, 0x633D} ==> v[a] == View(d.s)[a])
      && UserRuns(d'.s.log) == UserRuns(d.s.log)
  {
    hide Healthy, View, UserRuns, WriteReg, SetProperty, WithBits;
    WriteBecomes(d, 0x633D, 0x07, 0x00);
    var d0 := d.(s := WriteReg(d.s, 0x633D, 0x07, 0x00).0, txBits := 0x00);
    CrcEffect(d0, true);
    var d1 := SetProperty(d0, HandleCrc, true).0;
    ParityEffect(d1, true);
    var d2 := SetProperty(d1, HandleParity, true).0;
    EasyFramingEffect(d2, true);
    var d3 := SetProperty(d2, EasyFraming, true).0;
    Crypto1Effect(d3, false);
    ResetBits(View(d.s), d.crc, d.par);
  }

  lemma ResetBits(v: Registers, crc: bool, par: bool)
    ensures
      var v0 := WithBits(v, 0x633D, 0x07, 0x00);
      var v1 := if crc then v0 else BothModes(v0, 0x80, 0x80);
      var v2 := if par then v1 else WithBits(v1, 0x630D, 0x10, 0x00);
      var v3 := WithBits(v2, 0x6338, 0x08, 0x00);
      && v3[0x6338] & 0x08 == 0x00 && v3[0x633D] & 0x07 == 0x00
      && (!crc ==> v3[0x6302] & 0x80 == v3[0x6303] & 0x80 == 0x80)
      && (!par ==> v3[0x630D] & 0x10 == 0x00)
      && forall a: Address :: a !in {0x6302, 0x6303, 0x630D, 0x6338, 0x633D} ==> v3[a] == v[a]
  {
  }
}
