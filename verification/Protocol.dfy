/** The command path of libnfc/chips/pn53x.c and libnfc/drivers/pn532_uart.c as a
    state machine: pn53x_transceive, pn53x_writeback_register, the UART driver's
    send with its wake-up, pn532_SAMConfiguration, and the register functions on
    top. Each function gives the state after the call and its result. */
module Protocol {
  import opened Nfc
  import opened Bits
  import opened RegisterCache

  datatype ChipType = PN53X | PN531 | PN532 | PN533 | RCS360

  datatype PowerMode = NORMAL | POWERDOWN | LOWVBAT

  // The driver below: the PN532 UART, or one that needs no wake-up.
  datatype Io = Uart | NoWakeUp

  const CMD_READ_REGISTER: octet := 0x06
  const CMD_WRITE_REGISTER: octet := 0x08
  const CMD_SAM_CONFIGURATION: octet := 0x14
  const CMD_POWER_DOWN: octet := 0x16
  const CMD_TG_INIT_AS_TARGET: octet := 0x8C

  const PSM_NORMAL: byte := 0x01
  const PSM_VIRTUAL_CARD: byte := 0x02
  const PSM_WIRED_CARD: byte := 0x03
  const PSM_DUAL_CARD: byte := 0x04

  // In a status byte: the error code, and the bits for NAD and More Information.
  const STATUS_MASK: byte := 0x3f
  const STATUS_FLAGS: byte := 0xc0

  // PN53x_EXTENDED_FRAME__DATA_MAX_LEN
  const COMMAND_MAX := 264

  // A chip command. ReadRegister carries two bytes a register, WriteRegister
  // three; any other command is its code and its parameters, and reply is what the
  // chip will answer.
  datatype Command =
    | ReadRegister(addrs: seq<Address>)
    | WriteRegister(writes: seq<(Address, byte)>)
    | Other(code: octet, args: seq<byte>, reply: seq<byte>)

  function Code(cmd: Command): octet {
    match cmd
    case ReadRegister(_) => CMD_READ_REGISTER
    case WriteRegister(_) => CMD_WRITE_REGISTER
    case Other(code, _, _) => code
  }

  // The command's length in bytes.
  function Size(cmd: Command): nat {
    match cmd
    case ReadRegister(addrs) => 1 + 2 * |addrs|
    case WriteRegister(writes) => 1 + 3 * |writes|
    case Other(_, args, _) => 1 + |args|
  }

  const POWER_DOWN := Other(CMD_POWER_DOWN, [0xf0], [0x00])

  // Who wants a command sent: the caller, a cache flush, or a wake-up.
  datatype Who = User | Flush | WakeUp

  // What goes over the line and happens in the chip.
  datatype Event =
    | Preamble
    | Frame(who: Who, cmd: Command)
    | AckFrame
    | WriteFailed
    | Executed(who: Who, cmd: Command, regs: Registers)
    | Acked(code: int)
    | Accepted(code: int)
    | EnteredLowVbat

  // How each step of the transport turns out: as it should, with an error, with
  // the command executed but its ACK lost, with a reply to another command, or
  // with an aborted wait that leaves junk in the reply buffer. A script lists
  // the outcomes to come; behind its end everything works.
  datatype Fault = None | Broken | Lost | Stray(code: octet, reply: seq<byte>) | Aborted(junk: seq<byte>)

  datatype State = State(
    kind: ChipType,
    io: Io,
    cache: Cache,
    power: PowerMode,
    lastCommand: octet,
    samMode: byte,
    // the chip and the line
    regs: Registers,
    answer: seq<byte>,
    answerCode: int,
    script: seq<Fault>,
    log: seq<Event>)

  // NAD or More Information in a reply makes the program abort().
  datatype Result = Ok(reply: seq<byte>) | Err | Crash

  function Log(s: State, e: Event): State {
    s.(log := s.log + [e])
  }

  function NextFault(s: State): Fault {
    if s.script == [] then None else s.script[0]
  }

  function StepOn(s: State): State {
    if s.script == [] then s else s.(script := s.script[1..])
  }

  // --- The line ---

  // A write to the UART.
  function Transmit(s: State, e: Event): (State, bool) {
    if NextFault(s).None? then (Log(StepOn(s), e), true) else (Log(StepOn(s), WriteFailed), false)
  }

  // pn532_uart_wakeup: the power mode is set even if the write failed.
  function Wake(s: State): (r: (State, bool))
    ensures r.0.io == s.io && r.0.kind == s.kind && r.0.cache == s.cache && Low(r.0) == 0 && r.0.samMode == s.samMode
  {
    var (s1, ok) := Transmit(s, Preamble);
    (s1.(power := NORMAL), ok)
  }

  function Status(kind: ChipType): seq<byte> {
    if kind == PN533 then [0x00] else []
  }

  // What the chip does with a command, and answers.
  function RegistersAfter(regs: Registers, cmd: Command): Registers {
    if cmd.WriteRegister? then WriteAll(regs, cmd.writes) else regs
  }

  function Answer(kind: ChipType, regs: Registers, cmd: Command): seq<byte> {
    match cmd
    case ReadRegister(addrs) => Status(kind) + ReadAll(regs, addrs)
    case WriteRegister(_) => Status(kind)
    case Other(_, _, reply) => reply
  }

  function Execute(s: State, who: Who, cmd: Command): State {
    Log(s, Executed(who, cmd, s.regs))
    .(regs := RegistersAfter(s.regs, cmd), answer := Answer(s.kind, s.regs, cmd), answerCode := (Code(cmd) + 1) % 256)
  }

  // The end of a send, once the chip is awake: the frame goes out and is ACKed.
  function SendFrame(s: State, who: Who, cmd: Command): (r: (State, bool))
    ensures r.0.io == s.io && r.0.kind == s.kind && r.0.cache == s.cache && r.0.power == s.power
    ensures r.0.samMode == s.samMode
  {
    if Size(cmd) > COMMAND_MAX then (s, false)
    else
      var (s1, ok) := Transmit(s, Frame(who, cmd));
      if !ok then (s1, false)
      else
        var ack := NextFault(s1);
        var s2 := StepOn(s1);
        if ack.None? then (Log(Execute(s2, who, cmd), Acked(Code(cmd))), true)
        else if ack.Lost? then (Execute(s2, who, cmd), false)
        else (s2, false)
  }

  // pn532_uart_ack, and its use after an aborted wait: the result of the receive
  // is that of writing the ACK frame. The other drivers report the abort.
  function Abort(s: State, junk: seq<byte>): (State, Result) {
    if s.io == NoWakeUp then
      (Transmit(s, AckFrame).0, Err)
    else
      var (s1, awake) := if s.power == POWERDOWN then Wake(s) else (s, true);
      if !awake then (s1, Err)
      else
        var (s2, ok) := Transmit(s1, AckFrame);
        (s2, if ok then Ok(junk) else Err)
  }

  // The receive: a reply is taken if its code answers the last command.
  function TakeReply(s: State, code: int, reply: seq<byte>): (State, Result) {
    if code == s.lastCommand + 1 then (Log(s, Accepted(code)), Ok(reply)) else (s, Err)
  }

  function Receive(s: State): (State, Result) {
    var s1 := StepOn(s);
    match NextFault(s)
    case None => TakeReply(s1, s.answerCode, s.answer)
    case Stray(code, reply) => TakeReply(s1, code, reply)
    case Aborted(junk) => Abort(s1, junk)
    case Broken => (s1, Err)
    case Lost => (s1, Err)
  }

  // A call can go through the wake-up only once, and flushes only once.
  function Low(s: State): nat {
    if s.io == Uart && s.power == LOWVBAT then 1 else 0
  }

  // A PN532 that waits as a target goes to sleep until its reply comes.
  predicate BecomesTarget(s: State, cmd: Command) {
    s.kind == PN532 && Code(cmd) == CMD_TG_INIT_AS_TARGET
  }

  function AwaitReply(s: State, cmd: Command): (r: (State, Result))
    ensures r.0.io == s.io && r.0.kind == s.kind && Low(r.0) <= Low(s) && r.0.cache == s.cache && !r.1.Crash?
    ensures r.0.samMode == s.samMode
  {
    var s1 := s.(lastCommand := Code(cmd), power := if BecomesTarget(s, cmd) then POWERDOWN else s.power);
    var (s2, r) := Receive(s1);
    (if r.Ok? && BecomesTarget(s, cmd) then s2.(power := NORMAL) else s2, r)
  }

  // The commands whose replies start with a status byte that may carry flags:
  // PowerDown, InDataExchange, InCommunicateThru, InJumpForPSL, InPSL, InATR,
  // InSelect, InJumpForDEP, TgGetData, TgGetInitiatorCommand, TgSetData,
  // TgResponseToInitiator, TgSetGeneralBytes and TgSetMetaData.
  predicate FlaggedStatus(code: octet) {
    code in {CMD_POWER_DOWN, 0x40, 0x42, 0x46, 0x4E, 0x50, 0x54, 0x56, 0x86, 0x88, 0x8E, 0x90, 0x92, 0x94}
  }

  // The others are Diagnose for card presence, InDeselect and InRelease but on the
  // RC-S360, and register access on the PN533.
  predicate HasStatus(kind: ChipType, cmd: Command) {
    match cmd
    case ReadRegister(_) => kind == PN533
    case WriteRegister(_) => kind == PN533
    case Other(code, args, _) =>
      FlaggedStatus(code) || (code == 0x00 && At(args, 0) == 0x06) || (code in {0x44, 0x52} && kind != RCS360)
  }

  // What a transceive makes of a reply.
  function Judge(kind: ChipType, cmd: Command, reply: seq<byte>): Result {
    if !HasStatus(kind, cmd) then Ok(reply)
    else if FlaggedStatus(Code(cmd)) && At(reply, 0) & STATUS_FLAGS != 0 then Crash
    else if At(reply, 0) & STATUS_MASK != 0 then Err
    else Ok(reply)
  }

  // The rest of a transceive, once the command is sent.
  function Conclude(s: State, cmd: Command): (r: (State, Result))
    ensures r.0.io == s.io && r.0.kind == s.kind && Low(r.0) <= Low(s) && r.0.cache == s.cache
    ensures r.0.samMode == s.samMode && (r.1.Crash? ==> cmd.Other?)
  {
    var (s1, r) := AwaitReply(s, cmd);
    (s1, if r.Ok? then Judge(s.kind, cmd, r.reply) else r)
  }

  // --- The mutual recursion ---

  // The SAM mode on record once the chip is awake: out of LOWVBAT it takes the normal
  // mode on the way.
  function SamModeAwake(s: State): byte {
    if Low(s) == 1 then PSM_NORMAL else s.samMode
  }

  function Transceive(s: State, who: Who, cmd: Command): (r: (State, Result))
    ensures r.0.io == s.io && r.0.kind == s.kind && Low(r.0) <= Low(s) && (!s.cache.trigged ==> !r.0.cache.trigged)
    ensures (r.1.Crash? ==> cmd.Other?) && (r.1.Ok? ==> r.0.samMode == SamModeAwake(s) && Low(r.0) == 0)
    decreases Low(s), if s.cache.trigged then 3 else 1
  {
    var (s1, flushed) := if s.cache.trigged then Writeback(s) else (s, Ok([]));
    if !flushed.Ok? then (s1, flushed)
    else
      var (s2, sent) := Send(s1, who, cmd);
      if !sent then (s2, Err) else Conclude(s2, cmd)
  }

  function Writeback(s: State): (r: (State, Result))
    ensures r.0.io == s.io && r.0.kind == s.kind && Low(r.0) <= Low(s) && !r.0.cache.trigged
    ensures !r.1.Crash? && (r.1.Ok? ==> r.0.samMode == if Low(r.0) < Low(s) then PSM_NORMAL else s.samMode)
    decreases Low(s), 2
  {
    var s0 := s.(cache := s.cache.(trigged := false));
    var toRead := ReadPlan(s.cache.mask, CACHE_SIZE);
    var (s1, read) := if toRead == [] then (s0, Ok([])) else Transceive(s0, Flush, ReadRegister(toRead));
    if !read.Ok? then (s1, read)
    else
      var merged := if toRead == [] then s1.cache else MergeReply(s1.cache, read.reply, |Status(s.kind)|);
      var toWrite := WritePlan(merged.data, merged.mask, CACHE_SIZE);
      var s2 := s1.(cache := DropFull(merged));
      if toWrite == [] then (s2, Ok([])) else Transceive(s2, Flush, WriteRegister(toWrite))
  }

  // The UART driver's send: wake the chip up if need be, then the frame.
  function Send(s: State, who: Who, cmd: Command): (r: (State, bool))
    ensures r.0.io == s.io && r.0.kind == s.kind && Low(r.0) <= Low(s) && (!s.cache.trigged ==> !r.0.cache.trigged)
    ensures r.1 ==> r.0.samMode == SamModeAwake(s) && Low(r.0) == 0
    decreases Low(s), 0
  {
    if s.io == NoWakeUp || s.power == NORMAL then SendFrame(s, who, cmd)
    else
      var (s1, awake) := Wake(s);
      if !awake then (s1, false)
      else if s.power == POWERDOWN then SendFrame(s1, who, cmd)
      else
        var (s2, sam) := SamConfiguration(s1, WakeUp, PSM_NORMAL);
        if !sam.Ok? then (s2, false) else SendFrame(s2, who, cmd)
  }

  // The modes with a third command byte, and all valid modes.
  predicate CardMode(mode: byte) {
    mode == PSM_VIRTUAL_CARD || mode == PSM_DUAL_CARD
  }

  predicate SamMode(mode: byte) {
    mode == PSM_NORMAL || mode == PSM_WIRED_CARD || CardMode(mode)
  }

  function SamCommand(mode: byte): Command {
    Other(CMD_SAM_CONFIGURATION, if CardMode(mode) then [mode, 0x00] else [mode], [])
  }

  const SAM_NORMAL := SamCommand(PSM_NORMAL)

  // pn532_SAMConfiguration
  function SamConfiguration(s: State, who: Who, mode: byte): (r: (State, Result))
    ensures r.0.io == s.io && r.0.kind == s.kind && Low(r.0) <= Low(s) && (!s.cache.trigged ==> !r.0.cache.trigged)
    ensures r.1.Ok? ==> r.0.samMode == (if Low(s) == 1 then PSM_NORMAL else mode) && Low(r.0) == 0
    decreases Low(s), 4
  {
    if s.kind != PN532 || !SamMode(mode) then (s, Err)
    else Transceive(s.(samMode := mode), who, SamCommand(mode))
  }

  // --- Register access ---

  datatype Value = Value(value: byte) | NoValue

  // pn53x_read_register
  function ReadReg(s: State, a: Address): (State, Value) {
    var (s1, r) := Transceive(s, User, ReadRegister([a]));
    (s1, if !r.Ok? then NoValue else Value.Value(At(r.reply, |Status(s.kind)|)))
  }

  // pn53x_write_register: outside the cache area the register is read, unless the
  // mask is full, and written only if it changes.
  function WriteReg(s: State, a: Address, mask: byte, value: byte): (State, bool) {
    if Cached(a) then
      (s.(cache := Store(s.cache, a, mask, value)), true)
    else if mask == 0xff then
      var (s1, r) := Transceive(s, User, WriteRegister([(a, value)]));
      (s1, r.Ok?)
    else
      var (s1, current) := ReadReg(s, a);
      if current.NoValue? then (s1, false)
      else
        var changed := Masked(current.value, mask, value);
        if changed == current.value then (s1, true)
        else
          var (s2, r) := Transceive(s1, User, WriteRegister([(a, changed)]));
          (s2, r.Ok?)
  }

  // pn53x_PowerDown
  function PowerDown(s: State): (State, bool) {
    var (s1, r) := Transceive(s, User, POWER_DOWN);
    if !r.Ok? then (s1, false) else (Log(s1, EnteredLowVbat).(power := LOWVBAT), true)
  }
}
