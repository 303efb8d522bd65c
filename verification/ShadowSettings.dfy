/** The settings libnfc keeps beside the registers (libnfc/chips/pn53x.c:
    pn53x_set_property_bool, pn53x_set_tx_bits, pn53x_reset_settings). They serve
    to skip register writes; this is why that is safe. */
module ShadowSettings {
  import opened Nfc
  import opened Bits
  import opened RegisterCache
  import opened Protocol
  import opened WriteThrough
  import opened FailedFlush
  import opened HonestLine

  const REG_TX_MODE: Address := 0x6302
  const REG_RX_MODE: Address := 0x6303
  const REG_TX_AUTO: Address := 0x6305
  const REG_MANUAL_RCV: Address := 0x630D
  const REG_STATUS2: Address := 0x6338
  const REG_BIT_FRAMING: Address := 0x633D

  const SYMBOL_CRC_ENABLE: byte := 0x80
  const SYMBOL_SPEED: byte := 0x70
  const SYMBOL_FRAMING: byte := 0x03
  const SYMBOL_RX_NO_ERROR: byte := 0x08
  const SYMBOL_RX_MULTIPLE: byte := 0x04
  const SYMBOL_FORCE_100_ASK: byte := 0x40
  const SYMBOL_PARITY_DISABLE: byte := 0x10
  const SYMBOL_MF_CRYPTO1_ON: byte := 0x08
  const SYMBOL_TX_LAST_BITS: byte := 0x07

  const CMD_SET_PARAMETERS: octet := 0x12
  const CMD_RF_CONFIGURATION: octet := 0x32
  const RFCI_FIELD: byte := 0x01
  const RFCI_RETRY_SELECT: byte := 0x05
  const PARAM_AUTO_RATS: byte := 0x10

  // The device with its shadow fields bCrc, bPar, bEasyFraming, ui8TxBits,
  // bAutoIso14443_4 and ui8Parameters.
  datatype Device =
    Device(s: State, crc: bool, par: bool, easyFraming: bool, txBits: byte, autoIso14443_4: bool, parameters: byte)

  datatype Property =
    | HandleCrc
    | HandleParity
    | EasyFraming
    | ActivateField
    | ActivateCrypto1
    | InfiniteSelect
    | AcceptInvalidFrames
    | AcceptMultipleFrames
    | AutoIso14443_4
    | ForceIso14443A
    | ForceIso14443B
    | ForceSpeed106

  function Flag(on: bool, symbol: byte): byte {
    if on then symbol else 0x00
  }

  function FieldCommand(on: bool): Command {
    Other(CMD_RF_CONFIGURATION, [RFCI_FIELD, Flag(on, 0x01)], [])
  }

  // The numbers of retries: for ATR, for PSL and for passive activation.
  function RetriesCommand(infinite: bool): Command {
    Other(CMD_RF_CONFIGURATION, [RFCI_RETRY_SELECT] + if infinite then [0xff, 0xff, 0xff] else [0x00, 0x01, 0x02], [])
  }

  function ParametersCommand(value: byte): Command {
    Other(CMD_SET_PARAMETERS, [value], [])
  }

  function WithAutoRats(parameters: byte, on: bool): byte {
    if on then parameters | PARAM_AUTO_RATS else parameters & !PARAM_AUTO_RATS
  }

  // Two writes, the second only if the first succeeds.
  function WriteTwo(
      s: State, a: Address, mask: byte, value: byte, a': Address, mask': byte, value': byte): (State, bool)
  {
    var (s1, ok) := WriteReg(s, a, mask, value);
    if !ok then (s1, false) else WriteReg(s1, a', mask', value')
  }

  function SetCrc(d: Device, on: bool): (Device, bool) {
    if on == d.crc then (d, true)
    else
      var v := Flag(on, SYMBOL_CRC_ENABLE);
      var (s', ok) := WriteTwo(d.s, REG_TX_MODE, SYMBOL_CRC_ENABLE, v, REG_RX_MODE, SYMBOL_CRC_ENABLE, v);
      if ok then (d.(s := s', crc := on), true) else (d.(s := s'), false)
  }

  function SetParity(d: Device, on: bool): (Device, bool) {
    if on == d.par then (d, true)
    else
      var (s', ok) := WriteReg(d.s, REG_MANUAL_RCV, SYMBOL_PARITY_DISABLE, Flag(!on, SYMBOL_PARITY_DISABLE));
      if ok then (d.(s := s', par := on), true) else (d.(s := s'), false)
  }

  function SetAutoIso14443_4(d: Device, on: bool): (Device, bool) {
    var value := WithAutoRats(d.parameters, on);
    if on == d.autoIso14443_4 then (d, true)
    else if value == d.parameters then (d.(autoIso14443_4 := on), true)
    else
      var (s', r) := Transceive(d.s, User, ParametersCommand(value));
      (d.(s := s', autoIso14443_4 := on, parameters := if r.Ok? then value else d.parameters), r.Ok?)
  }

  function RunOn(d: Device, cmd: Command): (Device, bool) {
    var (s', r) := Transceive(d.s, User, cmd);
    (d.(s := s'), r.Ok?)
  }

  function WriteOn(d: Device, a: Address, mask: byte, value: byte): (Device, bool) {
    var (s', ok) := WriteReg(d.s, a, mask, value);
    (d.(s := s'), ok)
  }

  // The TX and RX mode registers get the same bits.
  function WriteModes(d: Device, mask: byte, value: byte): (Device, bool) {
    var (s', ok) := WriteTwo(d.s, REG_TX_MODE, mask, value, REG_RX_MODE, mask, value);
    (d.(s := s'), ok)
  }

  function ForceIsoA(d: Device): (Device, bool) {
    var (d1, ok) := WriteModes(d, SYMBOL_FRAMING, 0x00);
    if !ok then (d1, false) else WriteOn(d1, REG_TX_AUTO, SYMBOL_FORCE_100_ASK, 0x40)
  }

  function SetProperty(d: Device, p: Property, on: bool): (Device, bool) {
    match p
    case HandleCrc => SetCrc(d, on)
    case HandleParity => SetParity(d, on)
    case EasyFraming => (d.(easyFraming := on), true)
    case ActivateField => RunOn(d, FieldCommand(on))
    case InfiniteSelect => RunOn(d, RetriesCommand(on))
    case AutoIso14443_4 => SetAutoIso14443_4(d, on)
    case ActivateCrypto1 => WriteOn(d, REG_STATUS2, SYMBOL_MF_CRYPTO1_ON, Flag(on, SYMBOL_MF_CRYPTO1_ON))
    case AcceptInvalidFrames => WriteOn(d, REG_RX_MODE, SYMBOL_RX_NO_ERROR, Flag(on, SYMBOL_RX_NO_ERROR))
    case AcceptMultipleFrames => WriteOn(d, REG_RX_MODE, SYMBOL_RX_MULTIPLE, Flag(on, SYMBOL_RX_MULTIPLE))
    case ForceIso14443A => if !on then (d, true) else ForceIsoA(d)
    case ForceIso14443B => if !on then (d, true) else WriteModes(d, SYMBOL_FRAMING, 0x03)
    case ForceSpeed106 => if !on then (d, true) else WriteModes(d, SYMBOL_SPEED, 0x00)
  }

  function SetTxBits(d: Device, bits: byte): (Device, bool) {
    if d.txBits == bits then (d, true)
    else
      var (s', ok) := WriteReg(d.s, REG_BIT_FRAMING, SYMBOL_TX_LAST_BITS, bits);
      if ok then (d.(s := s', txBits := bits), true) else (d.(s := s'), false)
  }

  function ResetSettings(d: Device): (Device, bool) {
    var (s', ok) := WriteReg(d.s, REG_BIT_FRAMING, SYMBOL_TX_LAST_BITS, 0x00);
    var d0 := d.(s := s', txBits := 0x00);
    if !ok then (d0, false)
    else
      var (d1, ok1) := SetProperty(d0, HandleCrc, true);
      if !ok1 then (d1, false)
      else
        var (d2, ok2) := SetProperty(d1, HandleParity, true);
        if !ok2 then (d2, false)
        else
          var (d3, ok3) := SetProperty(d2, EasyFraming, true);
          if !ok3 then (d3, false) else SetProperty(d3, ActivateCrypto1, false)
  }

  // --- What the shadow fields say ---

  // The chip settings that are shadowed, in registers v.
  // TxMode and RxMode, ManualRCV, BitFraming.
  predicate Matches(v: Registers, crc: bool, par: bool, txBits: byte) {
    && v[0x6302] & 0x80 == (if crc then 0x80 else 0x00)
    && v[0x6303] & 0x80 == (if crc then 0x80 else 0x00)
    && v[0x630D] & 0x10 == (if par then 0x00 else 0x10)
    && v[0x633D] & 0x07 == txBits
  }

  // The shadow fields agree with the chip, pending writes included.
  predicate Coherent(d: Device) {
    Healthy(d.s) && Matches(View(d.s), d.crc, d.par, d.txBits)
  }

  predicate SameChip(d: Device, d': Device) {
    d'.s.kind == d.s.kind && d'.s.io == d.s.io
  }

  // A masked write, as the caller sees it.
  function Put(v: Registers, a: Address, mask: byte, value: byte): Registers {
    v[a := Masked(v[a], mask, value)]
  }

  lemma PutIsSeen(s: State, a: Address, mask: byte, value: byte)
    requires Healthy(s) && Cached(a)
    ensures
      var (s', ok) := WriteReg(s, a, mask, value);
      ok && Healthy(s') && View(s') == Put(View(s), a, mask, value) && s'.kind == s.kind && s'.io == s.io
  {
    hide Healthy, View, Masked;
    StoreIsThroughWrite(s, a, mask, value);
  }

  lemma MaskedBits(current: byte, mask: byte, value: byte, symbol: byte)
    ensures mask & symbol == 0 ==> Masked(current, mask, value) & symbol == current & symbol
    ensures Masked(current, mask, value) & mask == value & mask
    ensures current & mask == value & mask ==> Masked(current, mask, value) == current
  {
  }

  // The bits of each register that are shadowed.
  function ShadowBits(a: Address): byte {
    if a == REG_TX_MODE || a == REG_RX_MODE then SYMBOL_CRC_ENABLE
    else if a == REG_MANUAL_RCV then SYMBOL_PARITY_DISABLE
    else if a == REG_BIT_FRAMING then SYMBOL_TX_LAST_BITS
    else 0x00
  }

  lemma OtherBitsKeep(v: Registers, a: Address, mask: byte, value: byte, r: Address)
    requires mask & ShadowBits(a) == 0
    ensures Put(v, a, mask, value)[r] & ShadowBits(r) == v[r] & ShadowBits(r)
  {
    hide Masked, ShadowBits;
    MaskedBits(v[a], mask, value, ShadowBits(a));
  }

  lemma OtherBitsKeepMatching(v: Registers, a: Address, mask: byte, value: byte, crc: bool, par: bool, txBits: byte)
    requires mask & ShadowBits(a) == 0
    ensures Matches(Put(v, a, mask, value), crc, par, txBits) == Matches(v, crc, par, txBits)
  {
    OtherBitsKeep(v, a, mask, value, REG_TX_MODE);
    OtherBitsKeep(v, a, mask, value, REG_RX_MODE);
    OtherBitsKeep(v, a, mask, value, REG_MANUAL_RCV);
    OtherBitsKeep(v, a, mask, value, REG_BIT_FRAMING);
    assert ShadowBits(REG_TX_MODE) == ShadowBits(REG_RX_MODE) == SYMBOL_CRC_ENABLE;
    assert ShadowBits(REG_MANUAL_RCV) == SYMBOL_PARITY_DISABLE;
    assert ShadowBits(REG_BIT_FRAMING) == SYMBOL_TX_LAST_BITS;
    hide ShadowBits, Put;
  }

  /** HandleCrc leaves the chip as if both registers had always been written: the
      writes it skips would not have changed anything. */
  lemma CrcIsSet(d: Device, on: bool)
    requires Coherent(d)
    ensures
      var (d', ok) := SetProperty(d, HandleCrc, on);
      var v := Flag(on, SYMBOL_CRC_ENABLE);
      && ok && d' == d.(s := d'.s, crc := on) && Coherent(d') && SameChip(d, d')
      && View(d'.s) == Put(Put(View(d.s), REG_TX_MODE, SYMBOL_CRC_ENABLE, v), REG_RX_MODE, SYMBOL_CRC_ENABLE, v)
  {
    hide Masked, View, Healthy, WriteReg;
    var v := Flag(on, SYMBOL_CRC_ENABLE);
    MaskedBits(View(d.s)[REG_TX_MODE], SYMBOL_CRC_ENABLE, v, 0);
    MaskedBits(View(d.s)[REG_RX_MODE], SYMBOL_CRC_ENABLE, v, 0);
    PutIsSeen(d.s, REG_TX_MODE, SYMBOL_CRC_ENABLE, v);
    PutIsSeen(WriteReg(d.s, REG_TX_MODE, SYMBOL_CRC_ENABLE, v).0, REG_RX_MODE, SYMBOL_CRC_ENABLE, v);
  }

  /** The same for HandleParity. */
  lemma ParityIsSet(d: Device, on: bool)
    requires Coherent(d)
    ensures
      var (d', ok) := SetProperty(d, HandleParity, on);
      var v := Flag(!on, SYMBOL_PARITY_DISABLE);
      && ok && d' == d.(s := d'.s, par := on) && Coherent(d') && SameChip(d, d')
      && View(d'.s) == Put(View(d.s), REG_MANUAL_RCV, SYMBOL_PARITY_DISABLE, v)
  {
    hide Masked, View, Healthy, WriteReg;
    var v := Flag(!on, SYMBOL_PARITY_DISABLE);
    MaskedBits(View(d.s)[REG_MANUAL_RCV], SYMBOL_PARITY_DISABLE, v, 0);
    PutIsSeen(d.s, REG_MANUAL_RCV, SYMBOL_PARITY_DISABLE, v);
  }

  /** The same for the number of bits in the last byte sent. */
  lemma TxBitsAreSet(d: Device, bits: byte)
    requires Coherent(d) && bits & SYMBOL_TX_LAST_BITS == bits
    ensures
      var (d', ok) := SetTxBits(d, bits);
      && ok && d' == d.(s := d'.s, txBits := bits) && Coherent(d') && SameChip(d, d')
      && View(d'.s) == Put(View(d.s), REG_BIT_FRAMING, SYMBOL_TX_LAST_BITS, bits)
  {
    hide Masked, View, Healthy, WriteReg;
    MaskedBits(View(d.s)[REG_BIT_FRAMING], SYMBOL_TX_LAST_BITS, bits, 0);
    PutIsSeen(d.s, REG_BIT_FRAMING, SYMBOL_TX_LAST_BITS, bits);
  }

  // The device is a success away from d, and still coherent.
  predicate Fine(d: Device, r: (Device, bool)) {
    r.1 && Coherent(r.0) && SameChip(d, r.0)
  }

  // A cached write that leaves the shadowed bits alone.
  lemma HarmlessWrite(d: Device, a: Address, mask: byte, value: byte)
    requires Coherent(d) && Cached(a) && mask & ShadowBits(a) == 0
    ensures Fine(d, WriteOn(d, a, mask, value))
  {
    hide Masked, View, Healthy, WriteReg, Put, Matches, ShadowBits;
    PutIsSeen(d.s, a, mask, value);
    OtherBitsKeepMatching(View(d.s), a, mask, value, d.crc, d.par, d.txBits);
  }

  lemma HarmlessModes(d: Device, mask: byte, value: byte)
    requires Coherent(d) && mask & SYMBOL_CRC_ENABLE == 0
    ensures Fine(d, WriteModes(d, mask, value))
  {
    hide Coherent, WriteReg, ShadowBits;
    assert ShadowBits(REG_TX_MODE) == ShadowBits(REG_RX_MODE) == SYMBOL_CRC_ENABLE by {
      ModesShadowed();
    }
    HarmlessWrite(d, REG_TX_MODE, mask, value);
    HarmlessWrite(WriteOn(d, REG_TX_MODE, mask, value).0, REG_RX_MODE, mask, value);
  }

  lemma ModesShadowed()
    ensures ShadowBits(REG_TX_MODE) == ShadowBits(REG_RX_MODE) == SYMBOL_CRC_ENABLE
    ensures ShadowBits(REG_TX_AUTO) == ShadowBits(REG_STATUS2) == 0x00
  {
  }

  lemma HarmlessForceA(d: Device)
    requires Coherent(d)
    ensures Fine(d, ForceIsoA(d))
  {
    hide Coherent, WriteOn, WriteModes, ShadowBits;
    ModesShadowed();
    HarmlessModes(d, SYMBOL_FRAMING, 0x00);
    HarmlessWrite(WriteModes(d, SYMBOL_FRAMING, 0x00).0, REG_TX_AUTO, SYMBOL_FORCE_100_ASK, 0x40);
  }

  // A command that is no register access leaves the shadowed bits alone.
  lemma HarmlessCommand(d: Device, cmd: Command)
    requires Coherent(d) && cmd.Other? && Sendable(cmd) && !HasStatus(d.s.kind, cmd)
    ensures Fine(d, RunOn(d, cmd))
  {
    hide Healthy, View, Matches, Transceive, UserRuns, RegistersAfter;
    TransceiveIsThroughRun(d.s, cmd);
    OtherKeepsRegisters(View(d.s), cmd);
  }

  lemma OtherKeepsRegisters(regs: Registers, cmd: Command)
    requires cmd.Other?
    ensures RegistersAfter(regs, cmd) == regs
  {
  }

  // None of the three commands has a status byte in its reply.
  lemma HarmlessCommands(kind: ChipType, on: bool, value: byte)
    ensures FieldCommand(on).Other? && Sendable(FieldCommand(on)) && !HasStatus(kind, FieldCommand(on))
    ensures RetriesCommand(on).Other? && Sendable(RetriesCommand(on)) && !HasStatus(kind, RetriesCommand(on))
    ensures
      var cmd := ParametersCommand(value);
      cmd.Other? && Sendable(cmd) && !HasStatus(kind, cmd)
  {
  }

  lemma HarmlessAutoIso(d: Device, on: bool)
    requires Coherent(d)
    ensures Fine(d, SetAutoIso14443_4(d, on))
  {
    hide Healthy, View, Transceive, ParametersCommand, HasStatus, Sendable, WithAutoRats, Matches;
    var value := WithAutoRats(d.parameters, on);
    HarmlessCommands(d.s.kind, on, value);
    HarmlessCommand(d, ParametersCommand(value));
  }

  lemma SetPropertyKeepsCoherence(d: Device, p: Property, on: bool)
    requires Coherent(d)
    ensures
      var (d', ok) := SetProperty(d, p, on);
      ok && Coherent(d') && SameChip(d, d')
  {
    hide Healthy, View, Matches, SetCrc, SetParity, SetAutoIso14443_4, RunOn, WriteOn, WriteModes, ForceIsoA;
    hide FieldCommand, RetriesCommand, HasStatus, Sendable, ShadowBits, Flag;
    ModesShadowed();
    match p
    case HandleCrc => CrcIsSet(d, on);
    case HandleParity => ParityIsSet(d, on);
    case EasyFraming =>
    case ActivateField =>
      HarmlessCommands(d.s.kind, on, 0x00);
      HarmlessCommand(d, FieldCommand(on));
    case InfiniteSelect =>
      HarmlessCommands(d.s.kind, on, 0x00);
      HarmlessCommand(d, RetriesCommand(on));
    case AutoIso14443_4 => HarmlessAutoIso(d, on);
    case ActivateCrypto1 => HarmlessWrite(d, REG_STATUS2, SYMBOL_MF_CRYPTO1_ON, Flag(on, SYMBOL_MF_CRYPTO1_ON));
    case AcceptInvalidFrames => HarmlessWrite(d, REG_RX_MODE, SYMBOL_RX_NO_ERROR, Flag(on, SYMBOL_RX_NO_ERROR));
    case AcceptMultipleFrames => HarmlessWrite(d, REG_RX_MODE, SYMBOL_RX_MULTIPLE, Flag(on, SYMBOL_RX_MULTIPLE));
    case ForceIso14443A => HarmlessForceA(d);
    case ForceIso14443B => HarmlessModes(d, SYMBOL_FRAMING, 0x03);
    case ForceSpeed106 => HarmlessModes(d, SYMBOL_SPEED, 0x00);
  }

  // nfc_device_new: both settings start out as false, so that the first reset
  // writes them, whatever the chip holds.
  predicate JustCreated(d: Device) {
    Healthy(d.s) && !d.crc && !d.par
  }

  /** After the first reset the shadow fields are true of the chip. */
  lemma FirstResetMakesCoherent(d: Device)
    requires JustCreated(d)
    ensures
      var (d', ok) := ResetSettings(d);
      ok && Coherent(d') && d'.crc && d'.par && d'.txBits == 0x00 && d'.easyFraming
  {
    hide Healthy, View, WriteReg, Masked, Coherent, Matches;
    var v0 := View(d.s);
    PutIsSeen(d.s, REG_BIT_FRAMING, SYMBOL_TX_LAST_BITS, 0x00);
    var s1 := WriteReg(d.s, REG_BIT_FRAMING, SYMBOL_TX_LAST_BITS, 0x00).0;
    PutIsSeen(s1, REG_TX_MODE, SYMBOL_CRC_ENABLE, SYMBOL_CRC_ENABLE);
    var s2 := WriteReg(s1, REG_TX_MODE, SYMBOL_CRC_ENABLE, SYMBOL_CRC_ENABLE).0;
    PutIsSeen(s2, REG_RX_MODE, SYMBOL_CRC_ENABLE, SYMBOL_CRC_ENABLE);
    var s3 := WriteReg(s2, REG_RX_MODE, SYMBOL_CRC_ENABLE, SYMBOL_CRC_ENABLE).0;
    PutIsSeen(s3, REG_MANUAL_RCV, SYMBOL_PARITY_DISABLE, 0x00);
    var s4 := WriteReg(s3, REG_MANUAL_RCV, SYMBOL_PARITY_DISABLE, 0x00).0;
    FourPuts(v0);
    var d4 := d.(s := s4, crc := true, par := true, easyFraming := true, txBits := 0x00);
    assert Coherent(d4) by {
      CoherentMeans(d4);
    }
    HarmlessWrite(d4, REG_STATUS2, SYMBOL_MF_CRYPTO1_ON, 0x00);
  }

  lemma CoherentMeans(d: Device)
    ensures Coherent(d) <==> Healthy(d.s) && Matches(View(d.s), d.crc, d.par, d.txBits)
  {
  }

  lemma FourPuts(v0: Registers)
    ensures
      var v1 := Put(v0, REG_BIT_FRAMING, SYMBOL_TX_LAST_BITS, 0x00);
      var v2 := Put(v1, REG_TX_MODE, SYMBOL_CRC_ENABLE, SYMBOL_CRC_ENABLE);
      var v3 := Put(v2, REG_RX_MODE, SYMBOL_CRC_ENABLE, SYMBOL_CRC_ENABLE);
      Matches(Put(v3, REG_MANUAL_RCV, SYMBOL_PARITY_DISABLE, 0x00), true, true, 0x00)
  {
    hide Masked;
    MaskedBits(v0[REG_BIT_FRAMING], SYMBOL_TX_LAST_BITS, 0x00, 0);
    MaskedBits(v0[REG_TX_MODE], SYMBOL_CRC_ENABLE, SYMBOL_CRC_ENABLE, 0);
    MaskedBits(v0[REG_RX_MODE], SYMBOL_CRC_ENABLE, SYMBOL_CRC_ENABLE, 0);
    MaskedBits(v0[REG_MANUAL_RCV], SYMBOL_PARITY_DISABLE, 0x00, 0);
  }

  // --- All runs ---

  datatype Action =
    | Set(property: Property, on: bool)
    | TxBits(bits: byte)
    | Reset
    | Perform(op: Operation)

  function Act(d: Device, x: Action): Device {
    match x
    case Set(p, on) => SetProperty(d, p, on).0
    case TxBits(bits) => SetTxBits(d, bits).0
    case Reset => ResetSettings(d).0
    case Perform(op) => d.(s := Do(d.s, op).0)
  }

  function ActAll(d: Device, xs: seq<Action>): Device
    decreases |xs|
  {
    if xs == [] then d else ActAll(Act(d, xs[0]), xs[1..])
  }

  // Everything but the timed transfers, which write the shadowed registers
  // themselves: other operations leave the shadowed bits alone.
  predicate Regular(s: State, x: Action) {
    match x
    case Set(_, _) => true
    case TxBits(bits) => bits & SYMBOL_TX_LAST_BITS == bits
    case Reset => true
    case Perform(op) =>
      && Allowed(s, op)
      && (op.Write? ==> op.mask & ShadowBits(op.a) == 0)
      && (op.Run? && op.cmd.WriteRegister? ==> forall w :: w in op.cmd.writes ==> ShadowBits(w.0) == 0x00)
  }

  lemma {:induction false} WritesElsewhere(regs: Registers, writes: seq<(Address, byte)>, r: Address)
    requires forall w :: w in writes ==> ShadowBits(w.0) == 0x00
    requires ShadowBits(r) != 0x00
    ensures WriteAll(regs, writes)[r] == regs[r]
    decreases |writes|
  {
    if writes != [] {
      var before := writes[..|writes| - 1];
      assert forall w :: w in before ==> w in writes;
      assert writes[|writes| - 1] in writes;
      WritesElsewhere(regs, before, r);
    }
  }

  lemma RunKeepsMatching(regs: Registers, cmd: Command, crc: bool, par: bool, txBits: byte)
    requires cmd.WriteRegister? ==> forall w :: w in cmd.writes ==> ShadowBits(w.0) == 0x00
    ensures Matches(RegistersAfter(regs, cmd), crc, par, txBits) == Matches(regs, crc, par, txBits)
  {
    if cmd.WriteRegister? {
      WritesElsewhere(regs, cmd.writes, REG_TX_MODE);
      WritesElsewhere(regs, cmd.writes, REG_RX_MODE);
      WritesElsewhere(regs, cmd.writes, REG_MANUAL_RCV);
      WritesElsewhere(regs, cmd.writes, REG_BIT_FRAMING);
    }
  }

  lemma PerformKeepsCoherence(d: Device, op: Operation)
    requires Coherent(d) && Regular(d.s, Perform(op))
    ensures Coherent(Act(d, Perform(op)))
    ensures SameChip(d, Act(d, Perform(op)))
  {
    hide Healthy, View, Do, Matches, RegistersAfter, UserRuns, Answer, Allowed, ThroughDo, ShadowBits;
    StepRefines(d.s, op);
    ThroughKeepsMatching(d.s.kind, Abstract(d.s), op, d.crc, d.par, d.txBits);
  }

  lemma ThroughKeepsMatching(kind: ChipType, t: Through, op: Operation, crc: bool, par: bool, txBits: byte)
    requires op.Write? ==> op.mask & ShadowBits(op.a) == 0
    requires op.Run? && op.cmd.WriteRegister? ==> forall w :: w in op.cmd.writes ==> ShadowBits(w.0) == 0x00
    ensures Matches(ThroughDo(kind, t, op).0.regs, crc, par, txBits) == Matches(t.regs, crc, par, txBits)
  {
    hide Masked, Matches, ShadowBits, RegistersAfter, Response;
    match op
    case Write(a, mask, value) =>
      OtherBitsKeepMatching(t.regs, a, mask, value, crc, par, txBits);
      DirectWrites(t.regs, a, mask, value);
    case Read(a) =>
      RunKeepsMatching(t.regs, ReadRegister([a]), crc, par, txBits);
    case Run(cmd) =>
      RunKeepsMatching(t.regs, cmd, crc, par, txBits);
    case Sleep =>
      RunKeepsMatching(t.regs, POWER_DOWN, crc, par, txBits);
  }

  // What the direct part of a register write leaves in the registers.
  lemma DirectWrites(v: Registers, a: Address, mask: byte, value: byte)
    ensures RegistersAfter(v, ReadRegister([a])) == v
    ensures RegistersAfter(v, WriteRegister([(a, Masked(v[a], mask, value))])) == Put(v, a, mask, value)
    ensures mask == 0xff ==> RegistersAfter(v, WriteRegister([(a, value)])) == Put(v, a, mask, value)
    ensures Masked(v[a], mask, value) == v[a] ==> Put(v, a, mask, value) == v
  {
    hide Masked;
    MaskedByNothing();
    WriteOne(v, a, Masked(v[a], mask, value));
    WriteOne(v, a, value);
  }

  lemma WriteOne(v: Registers, a: Address, value: byte)
    ensures WriteAll(v, [(a, value)]) == v[a := value]
  {
    assert [(a, value)][..0] == [];
  }

  lemma ResetKeepsCoherence(d: Device)
    requires Coherent(d)
    ensures ResetSettings(d).1 && Coherent(ResetSettings(d).0) && SameChip(d, ResetSettings(d).0)
  {
    hide Coherent, SetProperty, WriteReg;
    var forced := d.(txBits := 0x00);
    ForcedTxBits(d);
    var d0 := forced.(s := WriteReg(d.s, REG_BIT_FRAMING, SYMBOL_TX_LAST_BITS, 0x00).0);
    SetPropertyKeepsCoherence(d0, HandleCrc, true);
    var d1 := SetProperty(d0, HandleCrc, true).0;
    SetPropertyKeepsCoherence(d1, HandleParity, true);
    var d2 := SetProperty(d1, HandleParity, true).0;
    SetPropertyKeepsCoherence(d2, EasyFraming, true);
    var d3 := SetProperty(d2, EasyFraming, true).0;
    SetPropertyKeepsCoherence(d3, ActivateCrypto1, false);
  }

  // The reset writes the transmission bits without asking the shadow field.
  lemma ForcedTxBits(d: Device)
    requires Coherent(d)
    ensures
      var (s', ok) := WriteReg(d.s, REG_BIT_FRAMING, SYMBOL_TX_LAST_BITS, 0x00);
      ok && Coherent(d.(s := s', txBits := 0x00)) && s'.kind == d.s.kind && s'.io == d.s.io
  {
    hide Masked, View, Healthy, WriteReg;
    MaskedBits(View(d.s)[REG_BIT_FRAMING], SYMBOL_TX_LAST_BITS, 0x00, 0);
    PutIsSeen(d.s, REG_BIT_FRAMING, SYMBOL_TX_LAST_BITS, 0x00);
  }

  /** In every run of settings, register accesses and commands over a line without
      faults, the shadow fields stay true of the chip. */
  lemma {:induction false} RunsStayCoherent(d: Device, xs: seq<Action>)
    requires Coherent(d) && forall i :: 0 <= i < |xs| ==> Regular(d.s, xs[i])
    ensures Coherent(ActAll(d, xs))
    decreases |xs|
  {
    hide Coherent, SetProperty, SetTxBits, ResetSettings, Do, ShadowBits;
    if xs != [] {
      var x := xs[0];
      assert Regular(d.s, x);
      match x {
        case Set(p, on) => SetPropertyKeepsCoherence(d, p, on);
        case TxBits(bits) => TxBitsAreSet(d, bits);
        case Reset => ResetKeepsCoherence(d);
        case Perform(op) => PerformKeepsCoherence(d, op);
      }
      RunsStayCoherent(Act(d, x), xs[1..]);
    }
  }

  /** The timed transfers write BitFraming directly. That keeps the shadow field true
      exactly when the value written has the same low bits. */
  lemma RawBitFramingWrite(d: Device, value: byte)
    requires Coherent(d)
    ensures
      var s' := Transceive(d.s, User, WriteRegister([(REG_BIT_FRAMING, value)])).0;
      Coherent(d.(s := s')) <==> value & SYMBOL_TX_LAST_BITS == d.txBits
  {
    hide Healthy, View, UserRuns, Answer, Transceive, RegistersAfter, Sendable;
    WriteOneSendable(REG_BIT_FRAMING, value);
    TransceiveIsThroughRun(d.s, WriteRegister([(REG_BIT_FRAMING, value)]));
    RawWrite(View(d.s), REG_BIT_FRAMING, value);
  }

  lemma RawWrite(v: Registers, a: Address, value: byte)
    ensures RegistersAfter(v, WriteRegister([(a, value)])) == v[a := value]
  {
    WriteOne(v, a, value);
  }

  // --- When a flush fails ---

  // The shadow fields agree with what the chip will hold, by the pending writes.
  predicate ShadowsMatch(d: Device) {
    Matches(View(d.s), d.crc, d.par, d.txBits)
  }

  /** What a flush leaves of that, over any line: they agree afterwards if and only if
      it got stuck in reading, or they agree with what it has left in the chip. */
  lemma FlushedShadows(d: Device)
    requires ShadowsMatch(d)
    ensures
      var d' := d.(s := Writeback(d.s).0);
      var left := if FlushRead(d.s).1.Ok? && WriteArrives(d.s) then WriteAll(d.s.regs, Plan(d.s)) else d.s.regs;
      ShadowsMatch(d') <==> !FlushRead(d.s).1.Ok? || Matches(left, d.crc, d.par, d.txBits)
  {
    hide Writeback, FlushRead, FrameArrives, Effective, Matches, NothingPending, WriteAll, WritePlan;
    FlushOutcome(d.s);
    var s' := Writeback(d.s).0;
    EffectiveIgnoresTrigger(d.s.cache, d.s.regs);
    if FlushRead(d.s).1.Ok? {
      EffectiveWhenClean(s'.cache, s'.regs);
    }
  }

  /** Over a line without false replies: if and only if it got stuck in reading, or its
      write got through, or they agreed with the chip before. Where they do not agree,
      setting the same values again changes nothing: the mismatch stays. */
  lemma LostSettingStaysLost(d: Device)
    requires ShadowsMatch(d) && NoFalseReplies(d.s)
    ensures
      var d' := d.(s := Writeback(d.s).0);
      && (ShadowsMatch(d') <==>
          ReadFails(d.s) || WriteGetsThrough(d.s) || Matches(d.s.regs, d.crc, d.par, d.txBits))
      && SetProperty(d', HandleCrc, d.crc) == (d', true)
      && SetProperty(d', HandleParity, d.par) == (d', true)
      && SetTxBits(d', d.txBits) == (d', true)
  {
    hide Writeback, ReadFails, WriteGetsThrough, Effective, Matches, NothingPending, NoFalseReplies;
    FlushByPositions(d.s);
    var s' := Writeback(d.s).0;
    EffectiveIgnoresTrigger(d.s.cache, d.s.regs);
    if !ReadFails(d.s) {
      EffectiveWhenClean(s'.cache, s'.regs);
    }
  }

  /** What mends it is to set the opposite first: over a line that works again, the
      chip then has the value that the field says, whatever it had before. */
  lemma TogglingMends(d: Device)
    requires Healthy(d.s)
    ensures
      var d1 := SetProperty(SetProperty(d, HandleCrc, !d.crc).0, HandleCrc, d.crc).0;
      var v := View(d1.s);
      && d1 == d.(s := d1.s)
      && v[REG_TX_MODE] & SYMBOL_CRC_ENABLE == v[REG_RX_MODE] & SYMBOL_CRC_ENABLE == Flag(d.crc, SYMBOL_CRC_ENABLE)
    ensures
      var d1 := SetProperty(SetProperty(d, HandleParity, !d.par).0, HandleParity, d.par).0;
      && d1 == d.(s := d1.s)
      && View(d1.s)[REG_MANUAL_RCV] & SYMBOL_PARITY_DISABLE == Flag(!d.par, SYMBOL_PARITY_DISABLE)
  {
    hide Masked, View, Healthy, WriteReg;
    CrcIsWritten(d, !d.crc);
    CrcIsWritten(SetProperty(d, HandleCrc, !d.crc).0, d.crc);
    ParityIsWritten(d, !d.par);
    ParityIsWritten(SetProperty(d, HandleParity, !d.par).0, d.par);
  }

  lemma CrcIsWritten(d: Device, on: bool)
    requires Healthy(d.s) && on != d.crc
    ensures
      var d' := SetProperty(d, HandleCrc, on).0;
      var v := View(d'.s);
      && d' == d.(s := d'.s, crc := on) && Healthy(d'.s)
      && v[REG_TX_MODE] & SYMBOL_CRC_ENABLE == v[REG_RX_MODE] & SYMBOL_CRC_ENABLE == Flag(on, SYMBOL_CRC_ENABLE)
  {
    hide Masked, View, Healthy, WriteReg;
    var v := Flag(on, SYMBOL_CRC_ENABLE);
    MaskedBits(View(d.s)[REG_TX_MODE], SYMBOL_CRC_ENABLE, v, 0);
    MaskedBits(View(d.s)[REG_RX_MODE], SYMBOL_CRC_ENABLE, v, 0);
    PutIsSeen(d.s, REG_TX_MODE, SYMBOL_CRC_ENABLE, v);
    PutIsSeen(WriteReg(d.s, REG_TX_MODE, SYMBOL_CRC_ENABLE, v).0, REG_RX_MODE, SYMBOL_CRC_ENABLE, v);
  }

  lemma ParityIsWritten(d: Device, on: bool)
    requires Healthy(d.s) && on != d.par
    ensures
      var d' := SetProperty(d, HandleParity, on).0;
      && d' == d.(s := d'.s, par := on) && Healthy(d'.s)
      && View(d'.s)[REG_MANUAL_RCV] & SYMBOL_PARITY_DISABLE == Flag(!on, SYMBOL_PARITY_DISABLE)
  {
    hide Masked, View, Healthy, WriteReg;
    var v := Flag(!on, SYMBOL_PARITY_DISABLE);
    MaskedBits(View(d.s)[REG_MANUAL_RCV], SYMBOL_PARITY_DISABLE, v, 0);
    PutIsSeen(d.s, REG_MANUAL_RCV, SYMBOL_PARITY_DISABLE, v);
  }
}
