/** What the first byte of a reply does to the result of a command
    (libnfc/chips/pn53x.c): for some commands it is a status, with an error code in
    six bits and two flags that make the program abort. */
module Verdict {
  import opened Nfc
  import opened Bits
  import opened RegisterCache
  import opened Protocol
  import opened WriteThrough
  import opened LineSafety

  // PowerDown, InDataExchange, InCommunicateThru, InJumpForPSL, InPSL, InATR, InSelect,
  // InJumpForDEP, TgGetData, TgGetInitiatorCommand, TgSetData, TgResponseToInitiator,
  // TgSetGeneralBytes, TgSetMetaData.
  const EXCHANGES: set<octet> :=
    {0x16, 0x40, 0x42, 0x46, 0x4E, 0x50, 0x54, 0x56, 0x86, 0x88, 0x8E, 0x90, 0x92, 0x94}

  // Diagnose for card presence; InDeselect and InRelease, but on the RC-S360; register
  // access on the PN533.
  predicate PlainStatus(kind: ChipType, cmd: Command) {
    if cmd.Other? then
      || (cmd.code == 0x00 && cmd.args != [] && cmd.args[0] == 0x06)
      || ((cmd.code == 0x44 || cmd.code == 0x52) && kind != RCS360)
    else
      kind == PN533
  }

  predicate IsExchange(cmd: Command) {
    cmd.Other? && cmd.code in EXCHANGES
  }

  // The result r of a command to which reply was received. Of an empty reply, nothing
  // is claimed where there should be a status.
  predicate Judged(kind: ChipType, cmd: Command, reply: seq<byte>, r: Result) {
    if IsExchange(cmd) then
      reply != [] ==>
        && (r.Crash? <==> Bit(reply[0], 7) || Bit(reply[0], 6))
        && (r == Ok(reply) <==> reply[0] == 0x00)
        && (r.Ok? ==> r == Ok(reply))
    else if PlainStatus(kind, cmd) then
      reply != [] ==>
        && !r.Crash?
        && (r == Ok(reply) <==> forall i: nat :: i < 6 ==> !Bit(reply[0], i))
        && (r.Ok? ==> r == Ok(reply))
    else
      r == Ok(reply)
  }

  lemma StatusBits(b: byte)
    ensures b & 0xc0 != 0 <==> Bit(b, 7) || Bit(b, 6)
    ensures b & 0xc0 == 0 && b & 0x3f == 0 <==> b == 0x00
    ensures b & 0x3f == 0 <==> !Bit(b, 0) && !Bit(b, 1) && !Bit(b, 2) && !Bit(b, 3) && !Bit(b, 4) && !Bit(b, 5)
  {
  }

  lemma JudgeJudges(kind: ChipType, cmd: Command, reply: seq<byte>)
    ensures Judged(kind, cmd, reply, Judge(kind, cmd, reply))
  {
    hide Bit;
    StatusBits(At(reply, 0));
    if reply != [] && forall i: nat :: i < 6 ==> !Bit(reply[0], i) {
      var b := reply[0];
      assert !Bit(b, 0) && !Bit(b, 1) && !Bit(b, 2) && !Bit(b, 3) && !Bit(b, 4) && !Bit(b, 5);
    }
  }

  /** Over a line without faults, the reply of the chip is what a command comes to, but
      for its status. */
  lemma StatusDecides(s: State, who: Who, cmd: Command)
    requires Healthy(s) && Sendable(cmd) && cmd.Other?
    ensures Judged(s.kind, cmd, cmd.reply, Transceive(s, who, cmd).1)
  {
    hide Transceive, View, UserRuns, RegistersAfter, Judged;
    TransceiveSeesEffective(s, who, cmd);
    JudgeJudges(s.kind, cmd, cmd.reply);
  }

  /** Over any line, whatever reply is received for the last command sent: it decides
      in the same way, for register access, too. */
  lemma ReceivedDecides(s: State, cmd: Command, reply: seq<byte>)
    requires FirstByte(cmd) < 255 && NextFault(s) == Stray(FirstByte(cmd) + 1, reply)
    ensures Judged(s.kind, cmd, reply, Conclude(s, cmd).1)
  {
    hide Judged, Judge;
    JudgeJudges(s.kind, cmd, reply);
  }

  /** Over any line, with all that is nested in it: a command succeeds only with a reply
      whose status is in order, and only an exchange can end the program. */
  lemma SuccessIsJudged(s: State, who: Who, cmd: Command)
    ensures
      var r := Transceive(s, who, cmd).1;
      && (r.Ok? ==> Judged(s.kind, cmd, r.reply, r))
      && (r.Crash? ==> IsExchange(cmd))
  {
    hide Writeback, Send, Judged, Judge, AwaitReply;
    var (s1, flushed) := if s.cache.trigged then Writeback(s) else (s, Ok([]));
    var (s2, sent) := Send(s1, who, cmd);
    var (s3, r) := AwaitReply(s2, cmd);
    if flushed.Ok? && sent && r.Ok? {
      JudgeJudges(s2.kind, cmd, r.reply);
      JudgePasses(s2.kind, cmd, r.reply);
    }
  }

  lemma JudgePasses(kind: ChipType, cmd: Command, reply: seq<byte>)
    ensures Judge(kind, cmd, reply).Ok? ==> Judge(kind, cmd, reply) == Ok(reply)
    ensures Judge(kind, cmd, reply).Crash? ==> IsExchange(cmd)
  {
  }
}
