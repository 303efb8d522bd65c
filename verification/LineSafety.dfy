/** What holds on the line in every run, whatever fails: replies are taken only
    for the last command sent, a PN532 is woken up before it is spoken to, and a
    flush sends one read and one write at most. */
module LineSafety {
  import opened Nfc
  import opened Bits
  import opened RegisterCache
  import opened Protocol
  import opened WriteThrough

  // --- What the steps put into the log ---

  // All but the log, the script and the chip's side stays as it is.
  predicate SameDriver(s: State, s': State) {
    s'.cache == s.cache && s'.power == s.power && s'.io == s.io && s'.kind == s.kind && s'.lastCommand == s.lastCommand
  }

  lemma TransmitLog(s: State, e: Event)
    ensures
      var (s', ok) := Transmit(s, e);
      SameDriver(s, s') && s'.regs == s.regs && s'.log == s.log + [if ok then e else WriteFailed]
  {
  }

  lemma ExecuteLog(s: State, who: Who, cmd: Command)
    ensures SameDriver(s, StepOn(s)) && StepOn(s).log == s.log && StepOn(s).regs == s.regs
    ensures SameDriver(s, Execute(s, who, cmd)) && Execute(s, who, cmd).log == s.log + [Executed(who, cmd, s.regs)]
  {
    hide WriteAll, Answer;
  }

  lemma SendFrameLog(s: State, who: Who, cmd: Command)
    ensures
      var (s', sent) := SendFrame(s, who, cmd);
      && SameDriver(s, s') && (s'.log != s.log + [WriteFailed] && s'.log != s.log ==> Length(cmd) <= 264)
      && (sent ==> s'.log == s.log + [Frame(who, cmd)] + [Executed(who, cmd, s.regs)] + [Acked(Code(cmd))])
      && (!sent ==>
            || (s'.log == s.log && Size(cmd) > COMMAND_MAX)
            || s'.log == s.log + [WriteFailed]
            || s'.log == s.log + [Frame(who, cmd)]
            || s'.log == s.log + [Frame(who, cmd)] + [Executed(who, cmd, s.regs)])
  {
    hide Transmit, StepOn, Execute, NextFault;
    TransmitLog(s, Frame(who, cmd));
    var s1 := Transmit(s, Frame(who, cmd)).0;
    ExecuteLog(s1, who, cmd);
    ExecuteLog(StepOn(s1), who, cmd);
  }

  lemma WakeLog(s: State)
    ensures
      var (s', ok) := Wake(s);
      && SameDriver(s.(power := NORMAL), s')
      && s'.log == s.log + [if ok then Preamble else WriteFailed]
  {
    hide Transmit;
    TransmitLog(s, Preamble);
  }

  // The events of an aborted wait.
  predicate Harmless(e: Event) {
    e.Preamble? || e.WriteFailed? || e.AckFrame?
  }

  lemma AbortLog(s: State, junk: seq<byte>)
    ensures
      var s' := Abort(s, junk).0;
      && (SameDriver(s, s') || SameDriver(s.(power := NORMAL), s'))
      && ((exists e :: Harmless(e) && s'.log == s.log + [e])
          || (exists e, f :: Harmless(e) && Harmless(f) && s'.log == s.log + [e] + [f]))
  {
    hide Transmit, Wake;
    TransmitLog(s, AckFrame);
    WakeLog(s);
    TransmitLog(Wake(s).0, AckFrame);
    assert Harmless(AckFrame) && Harmless(WriteFailed) && Harmless(Preamble);
    var s1 := Wake(s).0;
    var s' := Abort(s, junk).0;
    if s.io != NoWakeUp && s.power == POWERDOWN && Wake(s).1 {
      assert s'.log == s.log + [Preamble] + [if Transmit(s1, AckFrame).1 then AckFrame else WriteFailed];
    } else if s.io != NoWakeUp && s.power == POWERDOWN {
      assert s'.log == s.log + [WriteFailed];
    } else {
      assert s'.log == s.log + [if Transmit(s, AckFrame).1 then AckFrame else WriteFailed];
    }
  }

  lemma ReceiveLog(s: State)
    ensures
      var s' := Receive(s).0;
      && (SameDriver(s, s') || SameDriver(s.(power := NORMAL), s'))
      && (|| s'.log == s.log
          || s'.log == s.log + [Accepted(s.lastCommand + 1)]
          || (exists e :: Harmless(e) && s'.log == s.log + [e])
          || (exists e, f :: Harmless(e) && Harmless(f) && s'.log == s.log + [e] + [f]))
  {
    hide Abort;
    if NextFault(s).Aborted? {
      AbortLog(StepOn(s), NextFault(s).junk);
    }
  }

  lemma ConcludeLog(s: State, cmd: Command)
    ensures
      var s' := Conclude(s, cmd).0;
      && s'.cache == s.cache && s'.io == s.io && s'.kind == s.kind
      && (s.power != LOWVBAT ==> s'.power != LOWVBAT)
      && (|| s'.log == s.log
          || s'.log == s.log + [Accepted(Code(cmd) + 1)]
          || (exists e :: Harmless(e) && s'.log == s.log + [e])
          || (exists e, f :: Harmless(e) && Harmless(f) && s'.log == s.log + [e] + [f]))
  {
    hide Receive;
    var s1 := s.(lastCommand := Code(cmd));
    ReceiveLog(s1);
    ReceiveLog(s1.(power := POWERDOWN));
  }

  // --- Replies answer the last command ---

  // The first byte of a command: ReadRegister is 0x06, WriteRegister 0x08.
  function FirstByte(cmd: Command): octet {
    match cmd
    case ReadRegister(_) => 0x06
    case WriteRegister(_) => 0x08
    case Other(code, _, _) => code
  }

  // The code of the last command frame in the log; -1 if there is none.
  function LastCode(log: seq<Event>): int {
    if log == [] then -1
    else
      var last := log[|log| - 1];
      if last.Frame? then FirstByte(last.cmd) else LastCode(log[..|log| - 1])
  }

  // The bytes of a command that go into a frame: the code, and two for each register
  // read, three for each register written.
  function Length(cmd: Command): nat {
    match cmd
    case ReadRegister(addrs) => 1 + |addrs| + |addrs|
    case WriteRegister(writes) => 1 + |writes| + |writes| + |writes|
    case Other(_, args, _) => 1 + |args|
  }

  predicate Answers(before: seq<Event>, e: Event) {
    && (e.Accepted? ==> LastCode(before) >= 0 && e.code == LastCode(before) + 1)
    && (e.Frame? ==> Length(e.cmd) <= 264)
  }

  // Every reply taken answers the last command frame before it, and every command
  // fits a frame.
  predicate RepliesMatch(log: seq<Event>) {
    log == [] || (RepliesMatch(log[..|log| - 1]) && Answers(log[..|log| - 1], log[|log| - 1]))
  }

  lemma Next(log: seq<Event>, e: Event)
    ensures LastCode(log + [e]) == if e.Frame? then FirstByte(e.cmd) else LastCode(log)
    ensures RepliesMatch(log + [e]) <==>
      RepliesMatch(log) && Answers(log, e)
  {
    assert (log + [e])[..|log|] == log;
  }

  lemma NextAny()
    ensures forall log: seq<Event>, e: Event {:trigger log + [e]} ::
      LastCode(log + [e]) == if e.Frame? then FirstByte(e.cmd) else LastCode(log)
    ensures forall log: seq<Event>, e: Event {:trigger log + [e]} ::
      RepliesMatch(log + [e]) <==>
      RepliesMatch(log) && Answers(log, e)
  {
    forall log: seq<Event>, e: Event {:trigger log + [e]}
      ensures LastCode(log + [e]) == if e.Frame? then FirstByte(e.cmd) else LastCode(log)
      ensures RepliesMatch(log + [e]) <==>
        RepliesMatch(log) && Answers(log, e)
    {
      Next(log, e);
    }
  }

  // Frame j is the last one before position i of the log.
  predicate LastFrameBefore(log: seq<Event>, j: nat, i: nat) {
    j < i <= |log| && log[j].Frame? && forall k :: j < k < i ==> !log[k].Frame?
  }

  /** What the recursive definition says of a single reply. */
  lemma {:induction false} AcceptedAnswersFrame(log: seq<Event>, i: nat) returns (j: nat)
    requires RepliesMatch(log) && i < |log| && log[i].Accepted?
    ensures LastFrameBefore(log, j, i) && log[i].code == FirstByte(log[j].cmd) as int + 1
    decreases |log|
  {
    if i == |log| - 1 {
      j := LastCodeIsOfFrame(log[..i]);
    } else {
      j := AcceptedAnswersFrame(log[..|log| - 1], i);
    }
  }

  lemma {:induction false} LastCodeIsOfFrame(log: seq<Event>) returns (j: nat)
    requires LastCode(log) >= 0
    ensures LastFrameBefore(log, j, |log|) && LastCode(log) == FirstByte(log[j].cmd)
    decreases |log|
  {
    j := |log| - 1;
    if !log[j].Frame? {
      j := LastCodeIsOfFrame(log[..j]);
    }
  }

  lemma SendFrameMatches(s: State, who: Who, cmd: Command)
    requires RepliesMatch(s.log)
    ensures
      var (s', sent) := SendFrame(s, who, cmd);
      RepliesMatch(s'.log) && (sent ==> LastCode(s'.log) == Code(cmd))
  {
    hide SendFrame, RepliesMatch, LastCode;
    SendFrameLog(s, who, cmd);
    NextAny();
  }

  lemma ConcludeMatches(s: State, cmd: Command)
    requires RepliesMatch(s.log) && LastCode(s.log) == Code(cmd)
    ensures RepliesMatch(Conclude(s, cmd).0.log)
  {
    hide Conclude, RepliesMatch, LastCode;
    ConcludeLog(s, cmd);
    NextAny();
  }

  lemma WakeMatches(s: State)
    requires RepliesMatch(s.log)
    ensures RepliesMatch(Wake(s).0.log)
  {
    hide RepliesMatch, LastCode;
    NextAny();
  }

  /** In every run, whatever the transport does and however deep the calls nest, a
      reply is taken only if its code is that of the last command frame plus one. */
  lemma {:induction false} TransceiveMatches(s: State, who: Who, cmd: Command)
    requires RepliesMatch(s.log)
    ensures RepliesMatch(Transceive(s, who, cmd).0.log)
    decreases Low(s), if s.cache.trigged then 3 else 1
  {
    hide RepliesMatch, LastCode, Writeback, Send, Conclude, Low;
    var (s1, flushed) := if s.cache.trigged then Writeback(s) else (s, Ok([]));
    LowNeverRises(s);
    if s.cache.trigged {
      WritebackMatches(s);
    }
    var (s2, sent) := Send(s1, who, cmd);
    SendMatches(s1, who, cmd);
    if sent {
      ConcludeMatches(s2, cmd);
    }
  }

  lemma LowNeverRises(s: State)
    ensures Low(Writeback(s).0) <= Low(s) && !Writeback(s).0.cache.trigged
  {
  }

  lemma {:induction false} WritebackMatches(s: State)
    requires RepliesMatch(s.log)
    ensures RepliesMatch(Writeback(s).0.log)
    decreases Low(s), 2
  {
    hide RepliesMatch, LastCode, Transceive, ReadPlan, WritePlan, MergeReply, DropFull;
    var s0 := s.(cache := s.cache.(trigged := false));
    var toRead := ReadPlan(s.cache.mask, CACHE_SIZE);
    if toRead != [] {
      TransceiveMatches(s0, Flush, ReadRegister(toRead));
    }
    var (s1, read) := if toRead == [] then (s0, Ok([])) else Transceive(s0, Flush, ReadRegister(toRead));
    if read.Ok? {
      var merged := if toRead == [] then s1.cache else MergeReply(s1.cache, read.reply, |Status(s.kind)|);
      var toWrite := WritePlan(merged.data, merged.mask, CACHE_SIZE);
      var s2 := s1.(cache := DropFull(merged));
      if toWrite != [] {
        MergeStaysUntriggered(s1.cache, read.reply, |Status(s.kind)|);
        TransceiveMatches(s2, Flush, WriteRegister(toWrite));
      }
    }
  }

  lemma MergeStaysUntriggered(c: Cache, reply: seq<byte>, off: nat)
    ensures DropFull(c).trigged == DropFull(MergeReply(c, reply, off)).trigged == c.trigged
  {
  }

  lemma {:induction false} SendMatches(s: State, who: Who, cmd: Command)
    requires RepliesMatch(s.log)
    ensures
      var (s', sent) := Send(s, who, cmd);
      RepliesMatch(s'.log) && (sent ==> LastCode(s'.log) == Code(cmd))
    decreases Low(s), 0
  {
    hide RepliesMatch, LastCode, SendFrame, Transceive, Wake;
    if s.io == NoWakeUp || s.power == NORMAL {
      SendFrameMatches(s, who, cmd);
    } else {
      var (s1, awake) := Wake(s);
      WakeMatches(s);
      WakeLog(s);
      if awake {
        if s.power == POWERDOWN {
          SendFrameMatches(s1, who, cmd);
        } else {
          if s.kind == PN532 {
            TransceiveMatches(s1.(samMode := PSM_NORMAL), WakeUp, SAM_NORMAL);
          }
          var (s2, sam) := SamConfiguration(s1, WakeUp, PSM_NORMAL);
          if sam.Ok? {
            SendFrameMatches(s2, who, cmd);
          }
        }
      }
    }
  }

  // --- What success means ---

  // A success is logged: the reply was accepted, or, on the UART, the wait was aborted
  // and the ACK frame went out, from POWERDOWN behind a preamble.
  lemma ConcludeSucceeds(s: State, cmd: Command)
    ensures
      var (s', r) := Conclude(s, cmd);
      r.Ok? ==>
        || s'.log == s.log + [Accepted(Code(cmd) + 1)]
        || (s.io == Uart && (s'.log == s.log + [AckFrame] || s'.log == s.log + [Preamble] + [AckFrame]))
  {
    hide Judge;
  }

  lemma SentIsLast(s: State, who: Who, cmd: Command)
    ensures SendFrame(s, who, cmd).1 ==> LastCode(SendFrame(s, who, cmd).0.log) == Code(cmd)
  {
    hide SendFrame, LastCode;
    SendFrameLog(s, who, cmd);
    NextAny();
  }

  /** Over any line, and with everything that is nested in it: a command succeeds only
      if it was the last one sent, and the last thing that happened is that its reply
      was accepted, or, on the UART only, that a wait was aborted by an ACK frame. */
  lemma SuccessIsAnswered(s: State, who: Who, cmd: Command)
    ensures
      var (s', r) := Transceive(s, who, cmd);
      r.Ok? ==>
        && s'.log != [] && LastCode(s'.log) == Code(cmd)
        && var last := s'.log[|s'.log| - 1];
           last == Accepted(Code(cmd) + 1) || (s.io == Uart && last.AckFrame?)
  {
    hide Writeback, Send, SendFrame, Conclude, LastCode, SamConfiguration, Wake;
    var s1 := if s.cache.trigged then Writeback(s).0 else s;
    var (s2, sent) := Send(s1, who, cmd);
    SendIsFrame(s1, who, cmd);
    ConcludeSucceeds(s2, cmd);
    NextAny();
  }

  // A send that succeeds ends with its frame.
  lemma SendIsFrame(s: State, who: Who, cmd: Command)
    ensures
      var (s', sent) := Send(s, who, cmd);
      s'.io == s.io && (sent ==> LastCode(s'.log) == Code(cmd))
  {
    hide SendFrame, LastCode, Wake, Transceive;
    SentIsLast(s, who, cmd);
    SendFrameLog(s, who, cmd);
    var s1 := Wake(s).0;
    WakeLog(s);
    SentIsLast(s1, who, cmd);
    SendFrameLog(s1, who, cmd);
    var s2 := SamConfiguration(s1, WakeUp, PSM_NORMAL).0;
    SentIsLast(s2, who, cmd);
    SendFrameLog(s2, who, cmd);
  }

  /** An aborted wait on the UART makes the command a success, with whatever is in the
      reply buffer taken for its reply. */
  lemma AbortedCommandSucceeds(s: State, cmd: Command, junk: seq<byte>)
    requires s.io == Uart && NextFault(s) == Aborted(junk) && NextFault(StepOn(s)).None?
    requires s.power != POWERDOWN && !BecomesTarget(s, cmd)
    ensures Conclude(s, cmd).1 == Judge(s.kind, cmd, junk)
  {
    hide Judge;
  }

  // --- Waking up a PN532 ---

  // The chip as the line shows it: awake; asleep since it entered LOWVBAT; woken by
  // the preamble, but not configured yet; still asleep because writing the preamble
  // has failed; or out of account, because a frame has been sent to it in that state
  // or the SAMConfiguration could not be written.
  datatype Chip = Awake | Asleep | Woken | Deaf | Unreached

  datatype Watch = Watch(chip: Chip, sound: bool)

  predicate Settled(chip: Chip) {
    chip.Awake? || chip.Unreached?
  }

  // Unsound are: a frame to a chip that is asleep, but for one whose preamble could
  // not be written; any frame but SAMConfiguration to a chip that has just been woken
  // up; a second preamble for a chip whose first one failed; and whatever else might
  // happen while the chip has still to be woken up.
  function Observe(w: Watch, e: Event): Watch {
    match e
    case EnteredLowVbat => Watch(Asleep, w.sound && Settled(w.chip))
    case Preamble =>
      (match w.chip
       case Asleep => w.(chip := Woken)
       case Woken => w.(sound := false)
       case Deaf => w.(sound := false)
       case _ => w)
    case WriteFailed =>
      (match w.chip
       case Asleep => w.(chip := Deaf)
       case Woken => w.(chip := Unreached)
       case _ => w)
    case Frame(_, cmd) =>
      (match w.chip
       case Asleep => w.(sound := false)
       case Woken => Watch(Awake, w.sound && cmd == Other(0x14, [0x01], []))
       case Deaf => w.(chip := Unreached)
       case _ => w)
    case _ => w.(sound := w.sound && Settled(w.chip))
  }

  // A log that starts with a chip awake.
  function WatchAll(log: seq<Event>): Watch {
    if log == [] then Watch(Awake, true) else Observe(WatchAll(log[..|log| - 1]), log[|log| - 1])
  }

  // A PN532 behind the UART, spoken to soundly so far; its driver knows when it sleeps.
  predicate WokenProperly(s: State) {
    && s.io == Uart && s.kind == PN532
    && WatchAll(s.log).sound
    && !WatchAll(s.log).chip.Woken?
    && (WatchAll(s.log).chip.Asleep? ==> s.power == LOWVBAT)
    && (WatchAll(s.log).chip.Deaf? ==> s.power == NORMAL)
  }

  lemma ObserveNext(log: seq<Event>, e: Event)
    ensures WatchAll(log + [e]) == Observe(WatchAll(log), e)
  {
    assert (log + [e])[..|log|] == log;
  }

  lemma ObserveAny()
    ensures forall log: seq<Event>, e: Event {:trigger log + [e]} :: WatchAll(log + [e]) == Observe(WatchAll(log), e)
  {
    forall log: seq<Event>, e: Event {:trigger log + [e]}
      ensures WatchAll(log + [e]) == Observe(WatchAll(log), e)
    {
      ObserveNext(log, e);
    }
  }

  // To a chip that is awake or out of account anything can be sent.
  lemma SendFrameAwake(s: State, who: Who, cmd: Command)
    requires WokenProperly(s) && s.power != LOWVBAT
    ensures
      var (s', sent) := SendFrame(s, who, cmd);
      WokenProperly(s') && s'.power == s.power && (sent ==> Settled(WatchAll(s'.log).chip))
  {
    hide SendFrame, WatchAll;
    SendFrameLog(s, who, cmd);
    ObserveAny();
  }

  // To a chip just woken up, SAMConfiguration.
  lemma SendFrameSam(s: State)
    requires s.io == Uart && s.kind == PN532 && s.power == NORMAL
    requires WatchAll(s.log).sound && WatchAll(s.log).chip.Woken?
    ensures
      var s' := SendFrame(s, WakeUp, SAM_NORMAL).0;
      WokenProperly(s') && s'.power == NORMAL && (SendFrame(s, WakeUp, SAM_NORMAL).1 ==> Settled(WatchAll(s'.log).chip))
  {
    hide SendFrame, WatchAll;
    SendFrameLog(s, WakeUp, SAM_NORMAL);
    ObserveAny();
  }

  lemma ConcludeAwake(s: State, cmd: Command)
    requires WokenProperly(s) && s.power != LOWVBAT && Settled(WatchAll(s.log).chip)
    ensures
      var s' := Conclude(s, cmd).0;
      WokenProperly(s') && s'.power != LOWVBAT && Settled(WatchAll(s'.log).chip)
  {
    hide Conclude, WatchAll;
    ConcludeLog(s, cmd);
    ObserveAny();
  }

  lemma WakeWatch(s: State)
    requires WokenProperly(s) && s.power != NORMAL
    ensures
      var (s', ok) := Wake(s);
      && s'.io == Uart && s'.kind == PN532 && s'.power == NORMAL && s'.cache == s.cache
      && WatchAll(s'.log).sound
      && (ok && WatchAll(s.log).chip.Asleep? ==> WatchAll(s'.log).chip.Woken?)
      && (!ok || !WatchAll(s.log).chip.Asleep? ==> WokenProperly(s'))
  {
    hide Wake, WatchAll;
    WakeLog(s);
    ObserveAny();
  }

  // The SAMConfiguration of the wake-up: nothing is flushed in front of it.
  lemma SamWakes(s: State)
    requires s.io == Uart && s.kind == PN532 && s.power == NORMAL && !s.cache.trigged
    requires WatchAll(s.log).sound && (WatchAll(s.log).chip.Woken? || WokenProperly(s))
    ensures
      var s' := SamConfiguration(s, WakeUp, PSM_NORMAL).0;
      WokenProperly(s') && s'.power != LOWVBAT
  {
    hide SendFrame, Conclude, WatchAll;
    var s1 := s.(samMode := PSM_NORMAL);
    if WatchAll(s.log).chip.Woken? {
      SendFrameSam(s1);
    } else {
      SendFrameAwake(s1, WakeUp, SAM_NORMAL);
    }
    var (s2, sent) := SendFrame(s1, WakeUp, SAM_NORMAL);
    if sent {
      ConcludeAwake(s2, SAM_NORMAL);
    }
    assert Send(s1, WakeUp, SAM_NORMAL) == (s2, sent);
    assert SamConfiguration(s, WakeUp, PSM_NORMAL) == Transceive(s1, WakeUp, SAM_NORMAL);
  }

  lemma SendWakes(s: State, who: Who, cmd: Command)
    requires WokenProperly(s) && !s.cache.trigged
    ensures
      var (s', sent) := Send(s, who, cmd);
      && WokenProperly(s') && s'.power != LOWVBAT && !s'.cache.trigged
      && (sent ==> Settled(WatchAll(s'.log).chip))
  {
    hide SendFrame, WatchAll, SamConfiguration, Wake;
    if s.power == NORMAL {
      SendFrameAwake(s, who, cmd);
    } else {
      var (s1, awake) := Wake(s);
      WakeWatch(s);
      if awake {
        if s.power == POWERDOWN {
          SendFrameAwake(s1, who, cmd);
        } else {
          SamWakes(s1);
          var (s2, sam) := SamConfiguration(s1, WakeUp, PSM_NORMAL);
          if sam.Ok? {
            SendFrameAwake(s2, who, cmd);
          }
        }
      }
    }
  }

  lemma UnflushedWakes(s: State, who: Who, cmd: Command)
    requires WokenProperly(s) && !s.cache.trigged
    ensures
      var (s', r) := Transceive(s, who, cmd);
      && WokenProperly(s') && s'.power != LOWVBAT && !s'.cache.trigged
      && (r.Ok? ==> Settled(WatchAll(s'.log).chip))
  {
    hide Send, Conclude, WatchAll;
    SendWakes(s, who, cmd);
    var (s2, sent) := Send(s, who, cmd);
    if sent {
      ConcludeAwake(s2, cmd);
    }
  }

  lemma WritebackWakes(s: State)
    requires WokenProperly(s)
    ensures
      var s' := Writeback(s).0;
      WokenProperly(s') && !s'.cache.trigged
  {
    hide WatchAll, Transceive, ReadPlan, WritePlan, MergeReply, DropFull;
    var s0 := s.(cache := s.cache.(trigged := false));
    var toRead := ReadPlan(s.cache.mask, CACHE_SIZE);
    UnflushedWakes(s0, Flush, ReadRegister(toRead));
    var (s1, read) := if toRead == [] then (s0, Ok([])) else Transceive(s0, Flush, ReadRegister(toRead));
    if read.Ok? {
      var merged := if toRead == [] then s1.cache else MergeReply(s1.cache, read.reply, |Status(s.kind)|);
      var toWrite := WritePlan(merged.data, merged.mask, CACHE_SIZE);
      var s2 := s1.(cache := DropFull(merged));
      MergeStaysUntriggered(s1.cache, read.reply, |Status(s.kind)|);
      UnflushedWakes(s2, Flush, WriteRegister(toWrite));
    }
  }

  /** Whatever fails: after a PN532 has entered LOWVBAT, the first command frame to
      it comes behind a wake-up preamble and is a SAMConfiguration, unless a write
      to the UART has failed since; a flush does not get in between. And if it is the
      preamble that could not be written, there is none before that frame at all. */
  lemma TransceiveWakes(s: State, who: Who, cmd: Command)
    requires WokenProperly(s)
    ensures
      var (s', r) := Transceive(s, who, cmd);
      WokenProperly(s') && (r.Ok? ==> s'.power != LOWVBAT && Settled(WatchAll(s'.log).chip))
  {
    hide WatchAll, Send, Conclude, Writeback;
    if s.cache.trigged {
      WritebackWakes(s);
      var (s1, flushed) := Writeback(s);
      if flushed.Ok? {
        SendWakes(s1, who, cmd);
        var (s2, sent) := Send(s1, who, cmd);
        if sent {
          ConcludeAwake(s2, cmd);
        }
      }
    } else {
      UnflushedWakes(s, who, cmd);
    }
  }

  lemma PowerDownWakes(s: State)
    requires WokenProperly(s)
    ensures WokenProperly(PowerDown(s).0)
  {
    hide WatchAll, Transceive;
    TransceiveWakes(s, User, POWER_DOWN);
    ObserveAny();
  }

  // The state that pn532_uart_open starts from.
  predicate JustOpened(s: State) {
    s.io == Uart && s.kind == PN532 && s.power == LOWVBAT && s.log == [EnteredLowVbat]
  }

  lemma JustOpenedIsFine(s: State)
    requires JustOpened(s)
    ensures WokenProperly(s) && RepliesMatch(s.log)
  {
    assert s.log[..0] == [];
    assert WatchAll(s.log) == Observe(WatchAll(s.log[..0]), s.log[0]);
    assert RepliesMatch(s.log[..0]);
  }

  // --- All runs ---

  lemma StepIsSafe(s: State, op: Operation)
    ensures RepliesMatch(s.log) ==> RepliesMatch(Do(s, op).0.log)
    ensures WokenProperly(s) ==> WokenProperly(Do(s, op).0)
  {
    hide RepliesMatch, LastCode, WatchAll, Transceive;
    TransceivesAreSafe();
    match op
    case Write(a, mask, value) =>
    case Read(a) =>
    case Run(cmd) =>
    case Sleep =>
      NextAny();
      if WokenProperly(s) {
        PowerDownWakes(s);
      }
  }

  lemma TransceivesAreSafe()
    ensures forall s: State, who: Who, cmd: Command {:trigger Transceive(s, who, cmd)} ::
      RepliesMatch(s.log) ==> RepliesMatch(Transceive(s, who, cmd).0.log)
    ensures forall s: State, who: Who, cmd: Command {:trigger Transceive(s, who, cmd)} ::
      WokenProperly(s) ==> WokenProperly(Transceive(s, who, cmd).0)
  {
    hide RepliesMatch, WokenProperly, Transceive;
    forall s: State, who: Who, cmd: Command {:trigger Transceive(s, who, cmd)}
      ensures RepliesMatch(s.log) ==> RepliesMatch(Transceive(s, who, cmd).0.log)
      ensures WokenProperly(s) ==> WokenProperly(Transceive(s, who, cmd).0)
    {
      if RepliesMatch(s.log) {
        TransceiveMatches(s, who, cmd);
      }
      if WokenProperly(s) {
        TransceiveWakes(s, who, cmd);
      }
    }
  }

  /** Every run of a freshly opened PN532, over any transport: each reply taken
      answers the last command frame, and the chip is always woken up properly. */
  lemma {:induction false} RunsAreSafe(s: State, ops: seq<Operation>)
    requires RepliesMatch(s.log) && WokenProperly(s)
    ensures
      var s' := DoAll(s, ops).0;
      RepliesMatch(s'.log) && WokenProperly(s')
    decreases |ops|
  {
    hide RepliesMatch, WokenProperly, Do;
    if ops != [] {
      StepIsSafe(s, ops[0]);
      RunsAreSafe(Do(s, ops[0]).0, ops[1..]);
    }
  }
}
