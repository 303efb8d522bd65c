/** The power mode that the UART driver keeps (libnfc/chips/pn53x.c,
    libnfc/drivers/pn532_uart.c) and what goes over the line: in every run the log
    tells the mode, and it decides where the preambles are. */
module PowerModes {
  import opened Bits
  import opened RegisterCache
  import opened Protocol
  import opened WriteThrough
  import opened LineSafety
  import opened FailedWakeUp

  // The mode after one more event. A PN532 that has acknowledged TgInitAsTarget sleeps
  // until its reply is accepted. Outside NORMAL only preambles are written.
  function After(kind: ChipType, mode: PowerMode, e: Event): PowerMode {
    match e
    case EnteredLowVbat => LOWVBAT
    case Preamble => NORMAL
    case WriteFailed => NORMAL
    case Acked(code) => if kind == PN532 && code == 0x8C then POWERDOWN else mode
    case Accepted(code) => if kind == PN532 && code == 0x8D then NORMAL else mode
    case _ => mode
  }

  function ModeAfter(kind: ChipType, log: seq<Event>): PowerMode {
    if log == [] then NORMAL
    else After(kind, ModeAfter(kind, log[..|log| - 1]), log[|log| - 1])
  }

  // Command frames and ACK frames go to a chip that is awake, preambles to one that is
  // not.
  predicate Fitting(mode: PowerMode, e: Event) {
    (e.Frame? || e.AckFrame? ==> mode == NORMAL) && (e.Preamble? ==> mode != NORMAL)
  }

  predicate WellTimed(kind: ChipType, log: seq<Event>) {
    forall i :: 0 <= i < |log| ==> Fitting(ModeAfter(kind, log[..i]), log[i])
  }

  // A device on the UART whose log tells its power mode.
  predicate AsLogged(s: State) {
    s.io == Uart && WellTimed(s.kind, s.log) && s.power == ModeAfter(s.kind, s.log)
  }

  lemma NextMode(kind: ChipType, log: seq<Event>, e: Event)
    ensures ModeAfter(kind, log + [e]) == After(kind, ModeAfter(kind, log), e)
    ensures WellTimed(kind, log + [e]) <==> WellTimed(kind, log) && Fitting(ModeAfter(kind, log), e)
  {
    var next := log + [e];
    assert next[..|log|] == log;
    assert forall i :: 0 <= i <= |log| ==> next[..i] == log[..i] by {
      assert log[..|log|] == log;
    }
    hide Fitting, After;
    if WellTimed(kind, next) {
      forall i | 0 <= i < |log|
        ensures Fitting(ModeAfter(kind, log[..i]), log[i])
      {
        assert Fitting(ModeAfter(kind, next[..i]), next[i]);
      }
      assert Fitting(ModeAfter(kind, next[..|log|]), next[|log|]);
    }
  }

  // The log and the power mode of s' are those of s and one more event.
  predicate OneMore(s: State, s': State, e: Event) {
    s'.log == s.log + [e] && s'.kind == s.kind && s'.io == s.io
  }

  lemma TransmitMode(s: State, e: Event)
    requires AsLogged(s) && s.power == NORMAL && (e.Frame? || e.AckFrame?)
    ensures
      var s' := Transmit(s, e).0;
      AsLogged(s') && s'.power == NORMAL && SameDriver(s, s')
  {
    hide Transmit, WellTimed, ModeAfter;
    TransmitLog(s, e);
    NextMode(s.kind, s.log, e);
    NextMode(s.kind, s.log, WriteFailed);
  }

  lemma WakeMode(s: State)
    requires AsLogged(s) && s.power != NORMAL
    ensures
      var s' := Wake(s).0;
      AsLogged(s') && s'.power == NORMAL && s'.cache == s.cache && s'.kind == s.kind
  {
    hide Wake, WellTimed, ModeAfter;
    WakeLog(s);
    NextMode(s.kind, s.log, Preamble);
    NextMode(s.kind, s.log, WriteFailed);
  }

  // A frame that has been acknowledged leaves the driver to note the mode.
  lemma SendFrameMode(s: State, who: Who, cmd: Command)
    requires AsLogged(s) && s.power == NORMAL
    ensures
      var (s', sent) := SendFrame(s, who, cmd);
      && SameDriver(s, s') && WellTimed(s'.kind, s'.log)
      && ModeAfter(s'.kind, s'.log) == if sent && s.kind == PN532 && Code(cmd) == 0x8C then POWERDOWN else NORMAL
  {
    hide SendFrame, WellTimed, ModeAfter;
    SendFrameLog(s, who, cmd);
    var frame, executed := Frame(who, cmd), Executed(who, cmd, s.regs);
    NextMode(s.kind, s.log, frame);
    NextMode(s.kind, s.log, WriteFailed);
    NextMode(s.kind, s.log + [frame], executed);
    NextMode(s.kind, s.log + [frame] + [executed], Acked(Code(cmd)));
  }

  lemma AbortMode(s: State, junk: seq<byte>)
    requires AsLogged(s) && s.power != LOWVBAT
    ensures AsLogged(Abort(s, junk).0) && Abort(s, junk).0.kind == s.kind
    ensures Abort(s, junk).1.Ok? ==> Abort(s, junk).0.power == NORMAL
    ensures Abort(s, junk).0.power == NORMAL
  {
    hide AsLogged, Transmit, Wake;
    var s1 := if s.power == POWERDOWN then Wake(s).0 else s;
    if s.power == POWERDOWN {
      WakeMode(s);
    }
    OnUart(s);
    OnUart(s1);
    TransmitMode(s1, AckFrame);
  }

  lemma OnUart(s: State)
    ensures AsLogged(s) ==> s.io == Uart
  {
  }

  // After a receive: if a reply has come, it is left to the driver to note the mode.
  predicate Received(s: State, r: (State, Result)) {
    && WellTimed(r.0.kind, r.0.log) && r.0.io == Uart && r.0.kind == s.kind && r.0.power != LOWVBAT
    && (r.1.Ok? ==> ModeAfter(r.0.kind, r.0.log) == NORMAL)
    && (!r.1.Ok? ==> r.0.power == ModeAfter(r.0.kind, r.0.log))
    && (s.power == NORMAL ==> r.0.power == NORMAL)
  }

  lemma TakeReplyMode(s: State, code: int, reply: seq<byte>)
    requires AsLogged(s) && s.power != LOWVBAT
    requires s.power == POWERDOWN <==> s.kind == PN532 && s.lastCommand == 0x8C
    ensures Received(s, TakeReply(s, code, reply))
  {
    hide WellTimed, ModeAfter;
    NextMode(s.kind, s.log, Accepted(code));
  }

  lemma AbortReceived(s: State, junk: seq<byte>)
    requires AsLogged(s) && s.power != LOWVBAT
    ensures Received(s, Abort(s, junk))
  {
    hide Abort, WellTimed, ModeAfter;
    AbortMode(s, junk);
  }

  lemma StepOnMode(s: State)
    requires AsLogged(s)
    ensures AsLogged(StepOn(s))
    ensures forall r :: Received(StepOn(s), r) ==> Received(s, r)
    ensures s.power != LOWVBAT ==> Received(s, (StepOn(s), Err))
  {
    hide WellTimed, ModeAfter;
  }

  lemma ReceiveMode(s: State)
    requires AsLogged(s) && s.power != LOWVBAT
    requires s.power == POWERDOWN <==> s.kind == PN532 && s.lastCommand == 0x8C
    ensures Received(s, Receive(s))
  {
    hide Abort, AsLogged, Received, TakeReply;
    var s1 := StepOn(s);
    StepOnMode(s);
    match NextFault(s)
    case None => TakeReplyMode(s1, s1.answerCode, s1.answer);
    case Stray(code, reply) => TakeReplyMode(s1, code, reply);
    case Aborted(junk) => AbortReceived(s1, junk);
    case Broken =>
    case Lost =>
  }

  lemma ConcludeMode(s: State, cmd: Command)
    requires s.io == Uart && WellTimed(s.kind, s.log) && s.power == NORMAL
    requires ModeAfter(s.kind, s.log) == if s.kind == PN532 && Code(cmd) == 0x8C then POWERDOWN else NORMAL
    ensures
      var s' := Conclude(s, cmd).0;
      && AsLogged(s') && s'.power != LOWVBAT && s'.kind == s.kind && s'.cache == s.cache
      && (Code(cmd) != 0x8C ==> s'.power == NORMAL)
  {
    hide Receive, WellTimed, ModeAfter;
    var s1 := s.(lastCommand := Code(cmd), power := ModeAfter(s.kind, s.log));
    ReceiveMode(s1);
  }

  // With no flush due, a chip in any mode.
  lemma AwakeTransceiveMode(s: State, who: Who, cmd: Command)
    requires AsLogged(s) && s.power == NORMAL && !s.cache.trigged
    ensures
      var s' := Transceive(s, who, cmd).0;
      && AsLogged(s') && s'.power != LOWVBAT && s'.kind == s.kind && !s'.cache.trigged
      && (Code(cmd) != 0x8C ==> s'.power == NORMAL)
  {
    hide SendFrame, Conclude, WellTimed, ModeAfter;
    SendFrameMode(s, who, cmd);
    var (s2, sent) := SendFrame(s, who, cmd);
    assert Send(s, who, cmd) == (s2, sent);
    if sent {
      ConcludeMode(s2, cmd);
    }
  }

  // What a send leaves behind: if the frame has been acknowledged, it is left to the
  // driver to note the mode.
  predicate SentMode(s: State, cmd: Command, r: (State, bool)) {
    && r.0.io == Uart && r.0.kind == s.kind && WellTimed(r.0.kind, r.0.log) && !r.0.cache.trigged
    && (!r.1 ==> r.0.power == ModeAfter(r.0.kind, r.0.log) && r.0.power != LOWVBAT)
    && (r.1 ==> r.0.power == NORMAL
                && ModeAfter(r.0.kind, r.0.log) == if s.kind == PN532 && Code(cmd) == 0x8C then POWERDOWN else NORMAL)
  }

  lemma SendMode(s: State, who: Who, cmd: Command)
    requires AsLogged(s) && !s.cache.trigged
    ensures SentMode(s, cmd, Send(s, who, cmd))
  {
    hide SendFrame, Wake, Transceive, WellTimed, ModeAfter;
    if s.power == NORMAL {
      SendFrameMode(s, who, cmd);
    } else {
      WakeMode(s);
      var s1 := Wake(s).0;
      SendFrameMode(s1, who, cmd);
      if s.power == LOWVBAT {
        SamMode(s1);
        var (s2, sam) := SamConfiguration(s1, WakeUp, PSM_NORMAL);
        if sam.Ok? {
          SendFrameMode(s2, who, cmd);
        }
      }
    }
  }

  lemma SamMode(s: State)
    requires AsLogged(s) && s.power == NORMAL && !s.cache.trigged
    ensures
      var s' := SamConfiguration(s, WakeUp, PSM_NORMAL).0;
      AsLogged(s') && s'.power == NORMAL && s'.kind == s.kind && !s'.cache.trigged
  {
    hide Transceive, WellTimed, ModeAfter;
    AwakeTransceiveMode(s.(samMode := PSM_NORMAL), WakeUp, SAM_NORMAL);
  }

  lemma UnflushedMode(s: State, who: Who, cmd: Command)
    requires AsLogged(s) && !s.cache.trigged
    ensures
      var s' := Transceive(s, who, cmd).0;
      AsLogged(s') && s'.power != LOWVBAT && s'.kind == s.kind && !s'.cache.trigged
  {
    hide Send, Conclude, WellTimed, ModeAfter;
    SendMode(s, who, cmd);
    var (s2, sent) := Send(s, who, cmd);
    if sent {
      ConcludeMode(s2, cmd);
    }
  }

  lemma WritebackMode(s: State)
    requires AsLogged(s)
    ensures
      var (s', r) := Writeback(s);
      AsLogged(s') && s'.kind == s.kind && !s'.cache.trigged && (!r.Ok? ==> s'.power != LOWVBAT)
  {
    hide WellTimed, ModeAfter, Transceive, ReadPlan, WritePlan, MergeReply, DropFull;
    var s0 := s.(cache := s.cache.(trigged := false));
    var toRead := ReadPlan(s.cache.mask, CACHE_SIZE);
    UnflushedMode(s0, Flush, ReadRegister(toRead));
    var (s1, read) := if toRead == [] then (s0, Ok([])) else Transceive(s0, Flush, ReadRegister(toRead));
    if read.Ok? {
      var merged := if toRead == [] then s1.cache else MergeReply(s1.cache, read.reply, |Status(s.kind)|);
      var s2 := s1.(cache := DropFull(merged));
      MergeStaysUntriggered(s1.cache, read.reply, |Status(s.kind)|);
      UnflushedMode(s2, Flush, WriteRegister(WritePlan(merged.data, merged.mask, CACHE_SIZE)));
    }
  }

  lemma TransceiveMode(s: State, who: Who, cmd: Command)
    requires AsLogged(s)
    ensures
      var (s', r) := Transceive(s, who, cmd);
      AsLogged(s') && s'.kind == s.kind && s'.power != LOWVBAT
  {
    hide WellTimed, ModeAfter, Send, Conclude, Writeback;
    if s.cache.trigged {
      WritebackMode(s);
      var (s1, flushed) := Writeback(s);
      if flushed.Ok? {
        SendMode(s1, who, cmd);
        var (s2, sent) := Send(s1, who, cmd);
        if sent {
          ConcludeMode(s2, cmd);
        }
      }
    } else {
      UnflushedMode(s, who, cmd);
    }
  }

  lemma StepMode(s: State, op: Operation)
    requires AsLogged(s)
    ensures AsLogged(Do(s, op).0) && Do(s, op).0.kind == s.kind
  {
    hide WellTimed, ModeAfter, Transceive;
    match op
    case Write(a, mask, value) =>
      TransceiveMode(s, User, WriteRegister([(a, value)]));
      TransceiveMode(s, User, ReadRegister([a]));
      var (s1, current) := ReadReg(s, a);
      if current.Value? {
        TransceiveMode(s1, User, WriteRegister([(a, Masked(current.value, mask, value))]));
      }
    case Read(a) => TransceiveMode(s, User, ReadRegister([a]));
    case Run(cmd) => TransceiveMode(s, User, cmd);
    case Sleep =>
      TransceiveMode(s, User, POWER_DOWN);
      NextMode(s.kind, PowerDownLog(s), EnteredLowVbat);
  }

  function PowerDownLog(s: State): seq<Event> {
    Transceive(s, User, POWER_DOWN).0.log
  }

  /** In every run of a device on the UART, over every line, the log tells the power
      mode: command and ACK frames go out in NORMAL only, preambles otherwise only. */
  lemma {:induction false} RunsAreWellTimed(s: State, ops: seq<Operation>)
    requires AsLogged(s)
    ensures AsLogged(DoAll(s, ops).0) && DoAll(s, ops).0.kind == s.kind
    decreases |ops|
  {
    hide AsLogged, Do;
    if ops != [] {
      StepMode(s, ops[0]);
      RunsAreWellTimed(Do(s, ops[0]).0, ops[1..]);
    }
  }

  lemma JustOpenedIsLogged(s: State)
    requires JustOpened(s)
    ensures AsLogged(s)
  {
    NextMode(s.kind, [], EnteredLowVbat);
    assert s.log == [] + [EnteredLowVbat];
  }

  // --- What the log then says ---

  /** A PN532 that has acknowledged TgInitAsTarget is not spoken to before it is woken
      up: before the next command frame or ACK frame its reply is accepted, or a
      preamble is written or could not be. */
  lemma WaitingTargetIsWoken(log: seq<Event>, i: nat, j: nat)
    requires WellTimed(PN532, log) && i < j < |log| && log[i] == Acked(0x8C) && (log[j].Frame? || log[j].AckFrame?)
    ensures exists k :: i < k < j && (log[k] == Accepted(0x8D) || log[k].Preamble? || log[k].WriteFailed?)
  {
    hide ModeAfter;
    assert log[..i] + [log[i]] == log[..i + 1];
    NextMode(PN532, log[..i], log[i]);
    assert Fitting(ModeAfter(PN532, log[..j]), log[j]);
    if !exists k :: i < k < j && (log[k] == Accepted(0x8D) || log[k].Preamble? || log[k].WriteFailed?) {
      NotNormal(log, i, j);
    }
  }

  lemma {:induction false} NotNormal(log: seq<Event>, i: nat, j: nat)
    requires i < j <= |log| && ModeAfter(PN532, log[..i + 1]) != NORMAL
    requires forall k :: i < k < j ==> log[k] != Accepted(0x8D) && !log[k].Preamble? && !log[k].WriteFailed?
    ensures ModeAfter(PN532, log[..j]) != NORMAL
    decreases j
  {
    if j > i + 1 {
      NotNormal(log, i, j - 1);
      assert log[..j - 1] + [log[j - 1]] == log[..j];
      NextMode(PN532, log[..j - 1], log[j - 1]);
    }
  }

  /** A PowerDown that succeeds, and only such, leaves a chip that has to be woken up:
      the next command, whichever it is, starts with writing a preamble. */
  lemma PowerDownSleeps(s: State, who: Who, cmd: Command)
    requires AsLogged(s)
    ensures
      var (s1, ok) := PowerDown(s);
      && (ok <==> Transceive(s, User, Other(0x16, [0xf0], [0x00])).1.Ok?)
      && (ok <==> s1.power == LOWVBAT)
      && (ok ==> s1.log + [if NextFault(s1).None? then Preamble else WriteFailed] <= Transceive(s1, who, cmd).0.log)
  {
    hide WellTimed, ModeAfter, Transceive;
    TransceiveMode(s, User, POWER_DOWN);
    var (s1, ok) := PowerDown(s);
    if ok {
      SleepingIsWoken(s1, who, cmd);
    }
  }
}
