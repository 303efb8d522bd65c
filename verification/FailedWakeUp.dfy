/** What a failed wake-up comes to (libnfc/drivers/pn532_uart.c): the driver believes
    the chip awake, and whatever is sent next goes out without a preamble. */
module FailedWakeUp {
  import opened RegisterCache
  import opened Protocol
  import opened WriteThrough
  import opened LineSafety

  // --- What the log says ---

  lemma {:induction false} SoundBefore(log: seq<Event>, n: nat)
    requires n <= |log| && WatchAll(log).sound
    ensures WatchAll(log[..n]).sound
    decreases |log|
  {
    if n < |log| {
      var last := |log| - 1;
      assert log[..last][..n] == log[..n];
      SoundBefore(log[..last], n);
    } else {
      assert log[..n] == log;
    }
  }

  lemma WatchNext(log: seq<Event>, n: nat)
    requires n < |log|
    ensures WatchAll(log[..n + 1]) == Observe(WatchAll(log[..n]), log[n])
  {
    assert log[..n + 1][..n] == log[..n];
  }

  // A command frame, j, that is the first behind the chip's entering LOWVBAT, i.
  predicate FirstFrame(log: seq<Event>, i: nat, j: nat) {
    i < j < |log| && log[i] == EnteredLowVbat && log[j].Frame? && forall k :: i < k < j ==> !log[k].Frame?
  }

  // The event right behind it: the write of the preamble, done or failed.
  lemma PreambleIsTried(log: seq<Event>, i: nat, j: nat)
    requires WatchAll(log).sound && FirstFrame(log, i, j)
    ensures i + 1 < j && (log[i + 1].Preamble? || log[i + 1].WriteFailed?)
    ensures WatchAll(log[..i + 2]).chip == if log[i + 1].Preamble? then Woken else Deaf
  {
    WatchNext(log, i);
    WatchNext(log, i + 1);
    SoundBefore(log, i + 2);
  }

  // Up to that frame.
  lemma {:induction false} StillWaiting(log: seq<Event>, i: nat, j: nat, n: nat)
    requires WatchAll(log).sound && FirstFrame(log, i, j) && i + 2 <= n <= j
    ensures
      if log[i + 1].Preamble? then
        (forall k :: i < k < n ==> !log[k].WriteFailed?) ==> WatchAll(log[..n]).chip.Woken?
      else
        WatchAll(log[..n]).chip.Deaf? && forall k :: i < k < n ==> log[k].WriteFailed?
    decreases n
  {
    PreambleIsTried(log, i, j);
    if n > i + 2 {
      StillWaiting(log, i, j, n - 1);
      WatchNext(log, n - 1);
      SoundBefore(log, n);
    }
  }

  /** The first command frame after the chip has entered LOWVBAT has a preamble before
      it if and only if the first write to the UART, which is that of the preamble,
      did not fail; and if none failed in between, it is a SAMConfiguration. */
  lemma PreambleIsTriedOnce(log: seq<Event>, i: nat, j: nat)
    requires WatchAll(log).sound && FirstFrame(log, i, j)
    ensures i + 1 < j
    ensures (exists k :: i < k < j && log[k].Preamble?) <==> !log[i + 1].WriteFailed?
    ensures (forall k :: i < k < j ==> !log[k].WriteFailed?) ==> log[j].cmd == Other(0x14, [0x01], [])
  {
    PreambleIsTried(log, i, j);
    StillWaiting(log, i, j, j);
    WatchNext(log, j);
    SoundBefore(log, j + 1);
  }

  // --- Nothing is taken out of the log ---

  lemma SendFrameExtends(s: State, who: Who, cmd: Command)
    ensures s.log <= SendFrame(s, who, cmd).0.log
  {
    hide SendFrame;
    SendFrameLog(s, who, cmd);
  }

  lemma ConcludeExtends(s: State, cmd: Command)
    ensures s.log <= Conclude(s, cmd).0.log
  {
    hide Conclude;
    ConcludeLog(s, cmd);
  }

  lemma {:induction false} TransceiveExtends(s: State, who: Who, cmd: Command)
    ensures s.log <= Transceive(s, who, cmd).0.log
    decreases Low(s), if s.cache.trigged then 3 else 1
  {
    hide Writeback, Send, Conclude, Low;
    var (s1, flushed) := if s.cache.trigged then Writeback(s) else (s, Ok([]));
    LowNeverRises(s);
    if s.cache.trigged {
      WritebackExtends(s);
    }
    var (s2, sent) := Send(s1, who, cmd);
    SendExtends(s1, who, cmd);
    ConcludeExtends(s2, cmd);
  }

  lemma {:induction false} WritebackExtends(s: State)
    ensures s.log <= Writeback(s).0.log
    decreases Low(s), 2
  {
    hide Transceive, ReadPlan, WritePlan, MergeReply, DropFull;
    var s0 := s.(cache := s.cache.(trigged := false));
    var toRead := ReadPlan(s.cache.mask, CACHE_SIZE);
    TransceiveExtends(s0, Flush, ReadRegister(toRead));
    var (s1, read) := if toRead == [] then (s0, Ok([])) else Transceive(s0, Flush, ReadRegister(toRead));
    if read.Ok? {
      var merged := if toRead == [] then s1.cache else MergeReply(s1.cache, read.reply, |Status(s.kind)|);
      var toWrite := WritePlan(merged.data, merged.mask, CACHE_SIZE);
      var s2 := s1.(cache := DropFull(merged));
      MergeStaysUntriggered(s1.cache, read.reply, |Status(s.kind)|);
      TransceiveExtends(s2, Flush, WriteRegister(toWrite));
    }
  }

  lemma {:induction false} SendExtends(s: State, who: Who, cmd: Command)
    ensures s.log <= Send(s, who, cmd).0.log
    decreases Low(s), 0
  {
    hide SendFrame, Transceive, Wake;
    SendFrameExtends(s, who, cmd);
    var s1 := Wake(s).0;
    WakeLog(s);
    SendFrameExtends(s1, who, cmd);
    if s.io == Uart && s.power == LOWVBAT && s.kind == PN532 {
      TransceiveExtends(s1.(samMode := PSM_NORMAL), WakeUp, SAM_NORMAL);
    }
    SendFrameExtends(SamConfiguration(s1, WakeUp, PSM_NORMAL).0, who, cmd);
  }

  lemma {:induction false} RunExtends(s: State, ops: seq<Operation>)
    ensures s.log <= DoAll(s, ops).0.log
    decreases |ops|
  {
    hide Transceive;
    if ops != [] {
      var s1 := Do(s, ops[0]).0;
      StepExtends(s, ops[0]);
      RunExtends(s1, ops[1..]);
    }
  }

  lemma StepExtends(s: State, op: Operation)
    ensures s.log <= Do(s, op).0.log
  {
    hide Transceive;
    match op
    case Write(a, mask, value) =>
      TransceiveExtends(s, User, WriteRegister([(a, value)]));
      TransceiveExtends(s, User, ReadRegister([a]));
      var (s1, current) := ReadReg(s, a);
      if current.Value? {
        TransceiveExtends(s1, User, WriteRegister([(a, Masked(current.value, mask, value))]));
      }
    case Read(a) => TransceiveExtends(s, User, ReadRegister([a]));
    case Run(cmd) => TransceiveExtends(s, User, cmd);
    case Sleep => TransceiveExtends(s, User, POWER_DOWN);
  }

  // The log once the preamble has been tried.
  function PreambleTried(s: State): seq<Event> {
    s.log + [if NextFault(s).None? then Preamble else WriteFailed]
  }

  lemma SleepingSend(s: State, who: Who, cmd: Command)
    requires s.io == Uart && s.power == LOWVBAT
    ensures PreambleTried(s) <= Send(s, who, cmd).0.log
  {
    hide SendFrame, Transceive;
    var s1 := Wake(s).0;
    SendFrameExtends(s1, who, cmd);
    TransceiveExtends(s1.(samMode := PSM_NORMAL), WakeUp, SAM_NORMAL);
    SendFrameExtends(SamConfiguration(s1, WakeUp, PSM_NORMAL).0, who, cmd);
  }

  lemma SleepingUnflushed(s: State, who: Who, cmd: Command)
    requires s.io == Uart && s.power == LOWVBAT && !s.cache.trigged
    ensures PreambleTried(s) <= Transceive(s, who, cmd).0.log
  {
    hide Send, Conclude;
    SleepingSend(s, who, cmd);
    ConcludeExtends(Send(s, who, cmd).0, cmd);
  }

  lemma SleepingWriteback(s: State)
    requires s.io == Uart && s.power == LOWVBAT
    ensures
      var (s', r) := Writeback(s);
      PreambleTried(s) <= s'.log || (r.Ok? && s' == s.(cache := s'.cache))
  {
    hide Transceive, ReadPlan, WritePlan, DropFull, MergeReply, PreambleTried;
    var s0 := s.(cache := s.cache.(trigged := false));
    assert PreambleTried(s0) == PreambleTried(s) by {
      SameTry(s, s0);
    }
    var toRead := ReadPlan(s.cache.mask, CACHE_SIZE);
    SleepingUnflushed(s0, Flush, ReadRegister(toRead));
    var (s1, read) := if toRead == [] then (s0, Ok([])) else Transceive(s0, Flush, ReadRegister(toRead));
    if read.Ok? {
      var merged := if toRead == [] then s1.cache else MergeReply(s1.cache, read.reply, |Status(s.kind)|);
      var toWrite := WritePlan(merged.data, merged.mask, CACHE_SIZE);
      var s2 := s1.(cache := DropFull(merged));
      MergeStaysUntriggered(s1.cache, read.reply, |Status(s.kind)|);
      TransceiveExtends(s2, Flush, WriteRegister(toWrite));
      if toRead == [] {
        SameTry(s, s2);
        SleepingUnflushed(s2, Flush, WriteRegister(toWrite));
      }
    }
  }

  lemma SameTry(s: State, s': State)
    requires s'.log == s.log && s'.script == s.script
    ensures PreambleTried(s') == PreambleTried(s)
  {
  }

  /** A chip in LOWVBAT is woken up before anything else is written, over every line
      and whether a flush is due or not. */
  lemma SleepingIsWoken(s: State, who: Who, cmd: Command)
    requires s.io == Uart && s.power == LOWVBAT
    ensures PreambleTried(s) <= Transceive(s, who, cmd).0.log
  {
    hide Send, Conclude, Writeback, PreambleTried;
    if s.cache.trigged {
      SleepingWriteback(s);
      var (s1, flushed) := Writeback(s);
      if flushed.Ok? {
        SendExtends(s1, who, cmd);
        ConcludeExtends(Send(s1, who, cmd).0, cmd);
        if s1 == s.(cache := s1.cache) {
          SameTry(s, s1);
          SleepingSend(s1, who, cmd);
        }
      }
    } else {
      SleepingUnflushed(s, who, cmd);
    }
  }

  // --- A failed wake-up ---

  lemma FailedSend(s: State, who: Who, cmd: Command)
    requires s.io == Uart && s.power == LOWVBAT && !NextFault(s).None?
    ensures
      var (s', sent) := Send(s, who, cmd);
      !sent && s'.log == s.log + [WriteFailed] && s'.power == NORMAL && SameDriver(s.(power := NORMAL), s')
  {
    hide SamConfiguration;
    WakeLog(s);
  }

  predicate WakeUpFailed(s: State, r: (State, Result)) {
    !r.1.Ok? && r.0.log == s.log + [WriteFailed] && r.0.power == NORMAL
  }

  lemma FailedUnflushed(s: State, who: Who, cmd: Command)
    requires s.io == Uart && s.power == LOWVBAT && !NextFault(s).None? && !s.cache.trigged
    ensures WakeUpFailed(s, Transceive(s, who, cmd))
  {
    hide Send;
    FailedSend(s, who, cmd);
  }

  lemma FailedWriteback(s: State)
    requires s.io == Uart && s.power == LOWVBAT && !NextFault(s).None?
    ensures
      var r := Writeback(s);
      || WakeUpFailed(s, r)
      || (r.1.Ok? && r.0 == s.(cache := DropFull(s.cache.(trigged := false))) && !r.0.cache.trigged)
  {
    hide Transceive, ReadPlan, WritePlan, DropFull;
    var s0 := s.(cache := s.cache.(trigged := false));
    var s2 := s0.(cache := DropFull(s0.cache));
    MergeStaysUntriggered(s0.cache, [], 0);
    FailedUnflushed(s0, Flush, ReadRegister(ReadPlan(s.cache.mask, CACHE_SIZE)));
    FailedUnflushed(s2, Flush, WriteRegister(WritePlan(s.cache.data, s.cache.mask, CACHE_SIZE)));
  }

  // The command fails, whether it has a flush in front of it or not.
  lemma FailedTransceive(s: State, who: Who, cmd: Command)
    requires s.io == Uart && s.power == LOWVBAT && !NextFault(s).None?
    ensures WakeUpFailed(s, Transceive(s, who, cmd))
  {
    hide Send, Writeback, DropFull;
    if s.cache.trigged {
      FailedWriteback(s);
      if Writeback(s).1.Ok? {
        FailedSend(Writeback(s).0, who, cmd);
      }
    } else {
      FailedSend(s, who, cmd);
    }
  }

  /** If the preamble cannot be written, by whatever fault, the command fails and the
      driver believes the chip awake; and in every run from there on, over every
      transport, the next command frame goes out without a preamble. */
  lemma FailedWakeUpIsNotRepeated(s: State, who: Who, cmd: Command, ops: seq<Operation>)
    requires WokenProperly(s) && WatchAll(s.log).chip.Asleep? && !NextFault(s).None?
    ensures
      var (s1, r) := Transceive(s, who, cmd);
      && !r.Ok? && s1.power == NORMAL && s1.log == s.log + [WriteFailed]
      && var log := DoAll(s1, ops).0.log;
         && s1.log <= log
         && forall j :: |s1.log| <= j < |log| && NoFrame(log, |s1.log|, j) ==> !log[j].Preamble?
  {
    hide WatchAll, Transceive, WokenProperly, RepliesMatch;
    var (s1, r) := Transceive(s, who, cmd);
    assert s.io == Uart && s.power == LOWVBAT by {
      SleepingState(s);
    }
    FailedTransceive(s, who, cmd);
    TransceiveWakes(s, who, cmd);
    ObserveNext(s.log, WriteFailed);
    var log := DoAll(s1, ops).0.log;
    RunExtends(s1, ops);
    RunsWake(s1, ops);
    assert log[..|s1.log|] == s1.log;
    forall j | |s1.log| <= j < |log| && NoFrame(log, |s1.log|, j)
      ensures !log[j].Preamble?
    {
      DeafUntilFrame(log, |s1.log|, j);
      WatchNext(log, j);
      SoundBefore(log, j + 1);
    }
  }

  lemma SleepingState(s: State)
    requires WokenProperly(s) && WatchAll(s.log).chip.Asleep?
    ensures s.io == Uart && s.power == LOWVBAT
  {
  }

  predicate NoFrame(log: seq<Event>, n: nat, j: nat) {
    n <= j <= |log| && forall k :: n <= k < j ==> !log[k].Frame?
  }

  lemma {:induction false} DeafUntilFrame(log: seq<Event>, n: nat, j: nat)
    requires WatchAll(log).sound && NoFrame(log, n, j) && WatchAll(log[..n]).chip.Deaf?
    ensures WatchAll(log[..j]).chip.Deaf?
    decreases j
  {
    if j > n {
      DeafUntilFrame(log, n, j - 1);
      WatchNext(log, j - 1);
      SoundBefore(log, j);
    }
  }

  lemma {:induction false} RunsWake(s: State, ops: seq<Operation>)
    requires WokenProperly(s)
    ensures WokenProperly(DoAll(s, ops).0) && WatchAll(DoAll(s, ops).0.log).sound
    decreases |ops|
  {
    hide Do, WatchAll;
    if ops != [] {
      StepIsSafe(s, ops[0]);
      RunsWake(Do(s, ops[0]).0, ops[1..]);
    }
  }
}
