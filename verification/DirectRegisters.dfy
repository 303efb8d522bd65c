/** Registers outside the cache (pn53x_read_register and pn53x_write_register of
    libnfc/chips/pn53x.c): what they return, and what becomes of the register, whatever
    happens on the line. */
module DirectRegisters {
  import opened Bits
  import opened RegisterCache
  import opened Protocol
  import opened HonestLine

  // Nothing to be done before a command can go out.
  predicate Ready(s: State) {
    (s.io == NoWakeUp || s.power == NORMAL) && !s.cache.trigged
  }

  // What is taken for the reply of a command: the chip's own, a false one with the right
  // code, or, on the UART, what an aborted wait leaves behind.
  datatype Outcome = Got(reply: seq<byte>) | Nothing

  function OutcomeFrom(s: State, i: nat, code: int, own: seq<byte>): Outcome {
    if FaultAt(s, i) == None && FaultAt(s, i + 1) == None then ReplyFrom(s, i + 2, code, own) else Nothing
  }

  function ReplyFrom(s: State, i: nat, code: int, own: seq<byte>): Outcome {
    match FaultAt(s, i)
    case None => Got(own)
    case Stray(c, reply) => if c == code then Got(reply) else Nothing
    case Aborted(junk) => if s.io == Uart && FaultAt(s, i + 1) == None then Got(junk) else Nothing
    case Broken => Nothing
    case Lost => Nothing
  }

  // The PN533 puts a status byte in front.
  predicate IsGood(s: State, o: Outcome) {
    o.Got? && (s.kind == PN533 && o.reply != [] ==> forall i: nat :: i < 6 ==> !Bit(o.reply[0], i))
  }

  // The steps of the transport that a command with a reply takes.
  function StepsFrom(s: State, i: nat): nat {
    if FaultAt(s, i + 2).Aborted? then 4 else 3
  }

  function OwnReply(s: State, a: Address): seq<byte> {
    if s.kind == PN533 then [0x00, s.regs[a]] else [s.regs[a]]
  }

  // The chip gets a frame that is sent, even if its ACK is lost.
  predicate GetsThrough(s: State, i: nat) {
    FaultAt(s, i) == None && (FaultAt(s, i + 1) == None || FaultAt(s, i + 1) == Lost)
  }

  lemma StatusIsGood(s: State, cmd: Command, reply: seq<byte>)
    requires !cmd.Other?
    ensures Judge(s.kind, cmd, reply) == if IsGood(s, Got(reply)) then Ok(reply) else Err
  {
    var b := At(reply, 0);
    SixBits(b);
    assert (forall i: nat :: i < 6 ==> !Bit(b, i)) <==>
      !Bit(b, 0) && !Bit(b, 1) && !Bit(b, 2) && !Bit(b, 3) && !Bit(b, 4) && !Bit(b, 5);
  }

  lemma SixBits(b: byte)
    ensures b & 0x3f == 0 <==> !Bit(b, 0) && !Bit(b, 1) && !Bit(b, 2) && !Bit(b, 3) && !Bit(b, 4) && !Bit(b, 5)
    ensures (0 as byte) & 0x3f == 0
  {
  }

  // The frame and its ACK.
  lemma Sends(s: State, cmd: Command)
    requires Ready(s) && Size(cmd) <= 264
    ensures
      var (s', sent) := Send(s, User, cmd);
      && (sent <==> FaultAt(s, 0) == None && FaultAt(s, 1) == None)
      && s'.regs == (if GetsThrough(s, 0) then RegistersAfter(s.regs, cmd) else s.regs)
      && s'.kind == s.kind && s'.io == s.io && Ready(s')
      && (sent ==>
            && s'.script == Skipped(s.script, 2)
            && s'.answer == Answer(s.kind, s.regs, cmd) && s'.answerCode == (Code(cmd) + 1) % 256)
  {
    hide Answer, RegistersAfter;
    assert s.power == NORMAL || s.io == NoWakeUp;
    assert Send(s, User, cmd) == SendFrame(s, User, cmd);
  }

  // The reply.
  lemma Receives(s: State, cmd: Command)
    requires Ready(s) && !cmd.Other? && s.answerCode == Code(cmd) + 1
    ensures
      var (s', r) := AwaitReply(s, cmd);
      var o := ReplyFrom(s, 0, Code(cmd) + 1, s.answer);
      && r == (if o.Got? then Ok(o.reply) else Err)
      && s'.regs == s.regs && s'.kind == s.kind && s'.io == s.io && Ready(s')
      && (r.Ok? ==> s'.script == Skipped(s.script, if FaultAt(s, 0).Aborted? then 2 else 1))
  {
  }

  // A register command, sent when the driver is ready.
  lemma Exchange(s: State, cmd: Command)
    requires Ready(s) && !cmd.Other? && Size(cmd) <= 264
    ensures
      var (s', r) := Transceive(s, User, cmd);
      var o := OutcomeFrom(s, 0, Code(cmd) + 1, Answer(s.kind, s.regs, cmd));
      && r == (if IsGood(s, o) then Ok(o.reply) else Err)
      && s'.regs == (if GetsThrough(s, 0) then RegistersAfter(s.regs, cmd) else s.regs)
      && s'.kind == s.kind && s'.io == s.io && Ready(s')
      && (r.Ok? ==> s'.script == Skipped(s.script, StepsFrom(s, 0)))
  {
    hide Judge, Answer, RegistersAfter, Send, AwaitReply, Size;
    Sends(s, cmd);
    var (s1, sent) := Send(s, User, cmd);
    if sent {
      Receives(s1, cmd);
      var r := AwaitReply(s1, cmd).1;
      if r.Ok? {
        StatusIsGood(s, cmd, r.reply);
      }
    }
  }

  lemma OwnAnswers(s: State, a: Address, value: byte)
    ensures Answer(s.kind, s.regs, ReadRegister([a])) == OwnReply(s, a)
    ensures RegistersAfter(s.regs, ReadRegister([a])) == s.regs
    ensures RegistersAfter(s.regs, WriteRegister([(a, value)])) == s.regs[a := value]
    ensures Answer(s.kind, s.regs, WriteRegister([(a, value)])) == if s.kind == PN533 then [0x00] else []
  {
    assert [(a, value)][..0] == [];
    assert WriteAll(s.regs, []) == s.regs;
    assert ReadAll(s.regs, [a]) == [s.regs[a]];
  }

  // The value behind the status byte.
  function ValueIn(s: State, reply: seq<byte>): byte {
    At(reply, if s.kind == PN533 then 1 else 0)
  }

  /** Reading a register gives the value behind the status byte of whatever is taken for
      the reply, and nothing if its frame, its ACK or its reply fails. */
  lemma ReadByFaults(s: State, a: Address)
    requires Ready(s)
    ensures
      var o := OutcomeFrom(s, 0, 0x07, OwnReply(s, a));
      var (s', v) := ReadReg(s, a);
      && v == (if IsGood(s, o) then Value.Value(ValueIn(s, o.reply)) else NoValue)
      && s'.regs == s.regs && s'.kind == s.kind && s'.io == s.io && Ready(s')
      && (v.Value? ==> s'.script == Skipped(s.script, StepsFrom(s, 0)))
  {
    hide Transceive, IsGood, Ready, Skipped, OutcomeFrom, StepsFrom, GetsThrough, OwnReply, Answer, RegistersAfter;
    Exchange(s, ReadRegister([a]));
    OwnAnswers(s, a, 0);
  }

  // The frame that writes one register, i steps from now.
  predicate IsWritten(s: State, i: nat) {
    IsGood(s, OutcomeFrom(s, i, 0x09, if s.kind == PN533 then [0x00] else []))
  }

  lemma OneWrite(s: State, a: Address, value: byte)
    requires Ready(s)
    ensures
      var (s', r) := Transceive(s, User, WriteRegister([(a, value)]));
      && (r.Ok? <==> IsWritten(s, 0))
      && s'.regs == if GetsThrough(s, 0) then s.regs[a := value] else s.regs
  {
    hide Transceive, IsGood, Ready, Skipped, OutcomeFrom, StepsFrom, GetsThrough, OwnReply, Answer, RegistersAfter;
    Exchange(s, WriteRegister([(a, value)]));
    OwnAnswers(s, a, value);
  }

  // The bits of the mask are those of value, and the others are kept.
  predicate IsMerged(merged: byte, current: byte, mask: byte, value: byte) {
    merged & mask == value & mask && merged & !mask == current & !mask
  }

  lemma MaskedIsMerged(merged: byte, current: byte, mask: byte, value: byte)
    ensures IsMerged(Masked(current, mask, value), current, mask, value)
    ensures IsMerged(merged, current, mask, value) ==> merged == Masked(current, mask, value)
  {
    MaskedParts(current, mask, value);
    if IsMerged(merged, current, mask, value) {
      MergedParts(merged, current, mask, value);
    }
  }

  lemma MaskedParts(current: byte, mask: byte, value: byte)
    ensures ((value & mask) | (current & !mask)) & mask == value & mask
    ensures ((value & mask) | (current & !mask)) & !mask == current & !mask
  {
  }

  lemma MergedParts(merged: byte, current: byte, mask: byte, value: byte)
    requires merged & mask == value & mask && merged & !mask == current & !mask
    ensures merged == (value & mask) | (current & !mask)
  {
  }

  /** Writing all bits of a register succeeds if its frame, its ACK and its reply do; the
      chip has the value even if only the frame has got through. */
  lemma FullWriteByFaults(s: State, a: Address, value: byte)
    requires Ready(s) && !(0x6301 <= a <= 0x633E)
    ensures
      var (s', ok) := WriteReg(s, a, 0xff, value);
      && (ok <==> IsWritten(s, 0))
      && s'.regs == if GetsThrough(s, 0) then s.regs[a := value] else s.regs
  {
    hide Transceive, IsWritten, Ready, GetsThrough;
    OneWrite(s, a, value);
  }

  /** Writing some bits takes a read first: if that fails, so does the write, and the
      register keeps its value. With the bits read as they should be, that is all.
      Otherwise the merged value is written, whose own faults decide. */
  lemma PartialWriteByFaults(s: State, a: Address, mask: byte, value: byte, merged: byte)
    requires Ready(s) && !(0x6301 <= a <= 0x633E) && mask != 0xff
    ensures
      var o := OutcomeFrom(s, 0, 0x07, OwnReply(s, a));
      var (s', ok) := WriteReg(s, a, mask, value);
      if !IsGood(s, o) then
        !ok && s'.regs == s.regs
      else
        var read := ValueIn(s, o.reply);
        IsMerged(merged, read, mask, value) ==>
          if merged == read then
            ok && s'.regs == s.regs
          else
            var steps := StepsFrom(s, 0);
            && (ok <==> IsWritten(s, steps))
            && s'.regs == if GetsThrough(s, steps) then s.regs[a := merged] else s.regs
  {
    hide Transceive, ReadReg, IsGood, Ready, Skipped, StepsFrom, GetsThrough, OwnReply, IsWritten, OutcomeFrom;
    hide IsMerged, Masked;
    ReadByFaults(s, a);
    var (s1, v) := ReadReg(s, a);
    if v.Value? {
      MaskedIsMerged(merged, v.value, mask, value);
      OneWrite(s1, a, merged);
      LaterFaults(s, s1, StepsFrom(s, 0));
    }
  }

  lemma LaterFaults(s: State, s1: State, n: nat)
    requires s1.script == Skipped(s.script, n) && s1.kind == s.kind && s1.io == s.io
    ensures IsWritten(s1, 0) == IsWritten(s, n) && GetsThrough(s1, 0) == GetsThrough(s, n)
  {
    LaterFault(s, s1, n, 0);
    LaterFault(s, s1, n, 1);
    LaterFault(s, s1, n, 2);
    LaterFault(s, s1, n, 3);
    hide FaultAt, Skipped;
  }

  lemma LaterFault(s: State, s1: State, n: nat, i: nat)
    requires s1.script == Skipped(s.script, n)
    ensures FaultAt(s1, i) == FaultAt(s, n + i)
  {
  }
}
