/** Flushes over a line that brings no false replies: the positions of the faults say
    how they end, and what becomes of the pending register writes. */
module HonestLine {
  import opened Bits
  import opened RegisterCache
  import opened Protocol
  import opened WriteThrough
  import opened FailedFlush

  // --- The line, fault by fault ---

  // Faults that bring no false replies: a reply to another command is recognised as
  // such, and what an aborted wait leaves behind is not taken for a reply.
  predicate Honest(io: Io, f: Fault) {
    match f
    case Stray(code, _) => code !in {CMD_READ_REGISTER + 1, CMD_WRITE_REGISTER + 1, CMD_SAM_CONFIGURATION + 1}
    case Aborted(_) => io == NoWakeUp
    case _ => true
  }

  predicate NoFalseReplies(s: State) {
    forall i :: 0 <= i < |s.script| ==> Honest(s.io, s.script[i])
  }

  function FaultAt(s: State, i: nat): Fault {
    if i < |s.script| then s.script[i] else None
  }

  predicate AllFine(s: State, n: nat) {
    forall i :: 0 <= i < n && i < |s.script| ==> s.script[i].None?
  }

  // The state n steps of the transport later, as far as the script goes.
  function Skipped(script: seq<Fault>, n: nat): seq<Fault> {
    if n <= |script| then script[n..] else []
  }

  // The steps that waking up takes: the preamble, and out of LOWVBAT the frame, the
  // ACK and the reply of a SAMConfiguration, which only a PN532 knows.
  function WakingSteps(s: State): nat {
    if s.io == NoWakeUp || s.power == NORMAL then 0 else if s.power == POWERDOWN then 1 else 4
  }

  predicate CanWake(s: State) {
    Low(s) == 1 ==> s.kind == PN532
  }

  // A command goes out and is executed, its ACK arrives, and its reply arrives.
  predicate IsExecuted(s: State, steps: nat) {
    CanWake(s) && AllFine(s, steps + 1) && (FaultAt(s, steps + 1).None? || FaultAt(s, steps + 1).Lost?)
  }

  predicate IsSent(s: State, steps: nat) {
    CanWake(s) && AllFine(s, steps + 2)
  }

  predicate IsAnswered(s: State, steps: nat) {
    CanWake(s) && AllFine(s, steps + 3)
  }

  // The commands that the driver sends on its own.
  predicate Own(cmd: Command) {
    (!cmd.Other? || cmd == SAM_NORMAL) && Size(cmd) <= COMMAND_MAX
  }

  lemma FirstSteps(s: State)
    ensures AllFine(s, 0) && FaultAt(s, 0) == NextFault(s)
    ensures AllFine(s, 1) <==> NextFault(s).None?
    ensures AllFine(s, 2) <==> NextFault(s).None? && NextFault(StepOn(s)).None?
    ensures FaultAt(s, 1) == NextFault(StepOn(s))
    ensures Skipped(s.script, 1) == StepOn(s).script && Skipped(s.script, 2) == StepOn(StepOn(s)).script
    ensures NoFalseReplies(s) ==> Honest(s.io, NextFault(s))
  {
  }

  // n steps behind the first k.
  lemma Later(s: State, s': State, k: nat, n: nat)
    requires s'.script == Skipped(s.script, k) && s'.io == s.io
    ensures AllFine(s, k) ==> (AllFine(s, k + n) <==> AllFine(s', n))
    ensures AllFine(s, k + n) ==> AllFine(s, k)
    ensures FaultAt(s', n) == FaultAt(s, k + n)
    ensures Skipped(s'.script, n) == Skipped(s.script, k + n)
    ensures NoFalseReplies(s) ==> NoFalseReplies(s')
  {
  }

  lemma SendFrameOutcome(s: State, who: Who, cmd: Command)
    requires Own(cmd) && Low(s) == 0
    ensures
      var (s', sent) := SendFrame(s, who, cmd);
      && SameLine(s, s') && s'.power == s.power
      && (sent <==> IsSent(s, 0))
      && s'.regs == (if IsExecuted(s, 0) then RegistersAfter(s.regs, cmd) else s.regs)
      && (sent ==> s'.script == Skipped(s.script, 2)
                   && s'.answer == Answer(s.kind, s.regs, cmd) && s'.answerCode == Code(cmd) + 1)
  {
    hide Answer, RegistersAfter, AllFine, Skipped, FaultAt, StepOn, NextFault;
    FirstSteps(s);
    SameSteps(s, Frame(who, cmd));
  }

  lemma SameSteps(s: State, e: Event)
    ensures NextFault(Log(StepOn(s), e)) == NextFault(StepOn(s))
    ensures StepOn(Log(StepOn(s), e)).script == StepOn(StepOn(s)).script
    ensures StepOn(s) == s.(script := StepOn(s).script)
    ensures StepOn(Log(StepOn(s), e)) == Log(StepOn(s), e).(script := StepOn(StepOn(s)).script)
  {
  }

  lemma ConcludeOutcome(s: State, cmd: Command)
    requires Own(cmd) && Low(s) == 0 && NoFalseReplies(s)
    requires s.answerCode == Code(cmd) + 1 && Judge(s.kind, cmd, s.answer) == Ok(s.answer)
    ensures
      var (s', r) := Conclude(s, cmd);
      && SameLine(s, s') && s'.regs == s.regs
      && (r.Ok? <==> FaultAt(s, 0).None?)
      && (r.Ok? ==> r == Ok(s.answer) && s'.power == s.power && s'.script == Skipped(s.script, 1))
  {
    hide Judge;
    assert s.script != [] ==> Honest(s.io, s.script[0]);
  }

  // What becomes of a command that is sent.
  predicate SendOutcome(s: State, who: Who, cmd: Command)
  {
    var (s', sent) := Send(s, who, cmd);
    var steps := WakingSteps(s);
    && SameLine(s, s')
    && (sent <==> IsSent(s, steps))
    && s'.regs == (if IsExecuted(s, steps) then RegistersAfter(s.regs, cmd) else s.regs)
    && (sent ==> WakingSteps(s') == 0 && s'.script == Skipped(s.script, steps + 2)
                 && s'.answer == Answer(s.kind, s.regs, cmd) && s'.answerCode == Code(cmd) + 1)
  }

  predicate TransceiveOutcome(s: State, who: Who, cmd: Command)
  {
    var (s', r) := Transceive(s, who, cmd);
    var steps := WakingSteps(s);
    && SameLine(s, s')
    && (r.Ok? <==> IsAnswered(s, steps))
    && s'.regs == (if IsExecuted(s, steps) then RegistersAfter(s.regs, cmd) else s.regs)
    && (r.Ok? ==> r == Ok(Answer(s.kind, s.regs, cmd))
                  && WakingSteps(s') == 0 && s'.script == Skipped(s.script, steps + 3))
  }

  lemma WakeOutcome(s: State)
    ensures
      var (s', ok) := Wake(s);
      && SameLine(s, s') && s'.regs == s.regs && s'.power == NORMAL
      && (ok <==> AllFine(s, 1)) && s'.script == Skipped(s.script, 1)
  {
  }

  // With the chip awake or in POWERDOWN.
  lemma ReachedSend(s: State, who: Who, cmd: Command)
    requires Own(cmd) && Low(s) == 0
    ensures SendOutcome(s, who, cmd)
  {
    hide SendFrame, Wake, Answer, RegistersAfter, AllFine, Skipped, FaultAt;
    if WakingSteps(s) == 0 {
      SendFrameOutcome(s, who, cmd);
    } else {
      var s1 := Wake(s).0;
      WakeOutcome(s);
      Later(s, s1, 1, 1);
      Later(s, s1, 1, 2);
      SendFrameOutcome(s1, who, cmd);
    }
  }

  lemma OwnAnswer(kind: ChipType, regs: Registers, cmd: Command)
    requires Own(cmd)
    ensures Judge(kind, cmd, Answer(kind, regs, cmd)) == Ok(Answer(kind, regs, cmd))
  {
  }

  lemma SentIsConcluded(s: State, who: Who, cmd: Command)
    requires Own(cmd) && !s.cache.trigged && NoFalseReplies(s) && SendOutcome(s, who, cmd)
    ensures TransceiveOutcome(s, who, cmd)
  {
    hide Send, Conclude, Answer, RegistersAfter, AllFine, Skipped, FaultAt, NoFalseReplies, Judge;
    var (s1, sent) := Send(s, who, cmd);
    if sent {
      var steps := WakingSteps(s);
      Later(s, s1, steps + 2, 0);
      Later(s, s1, steps + 2, 1);
      FirstSteps(s1);
      OwnAnswer(s.kind, s.regs, cmd);
      ConcludeOutcome(s1, cmd);
    } else {
      Later(s, s.(script := Skipped(s.script, WakingSteps(s) + 2)), WakingSteps(s) + 2, 1);
    }
  }

  // In every power mode.
  lemma AnySend(s: State, who: Who, cmd: Command)
    requires Own(cmd) && !s.cache.trigged && NoFalseReplies(s)
    ensures SendOutcome(s, who, cmd)
  {
    hide SendFrame, Wake, Transceive, Answer, RegistersAfter, AllFine, Skipped, FaultAt, NoFalseReplies;
    if Low(s) == 0 {
      ReachedSend(s, who, cmd);
    } else {
      var s1 := Wake(s).0.(samMode := PSM_NORMAL);
      WakeOutcome(s);
      Later(s, s1, 1, 3);
      Fewer(s, 1, 3);
      Fewer(s, 4, 1);
      Fewer(s, 4, 2);
      ReachedSend(s1, WakeUp, SAM_NORMAL);
      SentIsConcluded(s1, WakeUp, SAM_NORMAL);
      SamChangesNothing(s1.regs);
      var (s2, sam) := Transceive(s1, WakeUp, SAM_NORMAL);
      if AllFine(s, 4) && s.kind == PN532 {
        assert s2.script == Skipped(s.script, 4);
        Later(s, s2, 4, 0);
        Later(s, s2, 4, 1);
        Later(s, s2, 4, 2);
        SendFrameOutcome(s2, who, cmd);
        assert Send(s, who, cmd) == SendFrame(s2, who, cmd);
        assert IsExecuted(s, 4) == IsExecuted(s2, 0) && IsSent(s, 4) == IsSent(s2, 0);
      } else {
        assert AllFine(s, 1) && s.kind == PN532 ==> !sam.Ok?;
        assert Send(s, who, cmd) == (if AllFine(s, 1) && s.kind == PN532 then s2 else Wake(s).0, false);
      }
    }
  }

  lemma Fewer(s: State, k: nat, n: nat)
    ensures AllFine(s, k + n) ==> AllFine(s, k)
  {
  }

  lemma AnyTransceive(s: State, who: Who, cmd: Command)
    requires Own(cmd) && !s.cache.trigged && NoFalseReplies(s)
    ensures TransceiveOutcome(s, who, cmd)
  {
    hide SendOutcome, TransceiveOutcome;
    AnySend(s, who, cmd);
    SentIsConcluded(s, who, cmd);
  }

  // --- The flush ---

  // The steps of the flush before its WriteRegister.
  function StepsToWrite(s: State): nat {
    WakingSteps(s) + if Reads(s) == [] then 0 else 3
  }

  // The flush gets stuck reading the partially masked registers.
  predicate ReadFails(s: State) {
    Reads(s) != [] && !IsAnswered(s, WakingSteps(s))
  }

  // Its WriteRegister is executed, whether the driver learns of it or not.
  predicate WriteGetsThrough(s: State) {
    IsExecuted(s, StepsToWrite(s))
  }

  lemma ReadPhase(s: State)
    requires NoFalseReplies(s) && Reads(s) != []
    ensures
      var s0 := s.(cache := s.cache.(trigged := false));
      var (s1, read) := Transceive(s0, Flush, ReadRegister(Reads(s)));
      && SameLine(s0, s1) && s1.regs == s.regs
      && (read.Ok? <==> IsAnswered(s, WakingSteps(s)))
      && (read.Ok? ==> read.reply == PlanReply(s.regs, s.cache.mask, Status(s.kind))
                       && WakingSteps(s1) == 0 && s1.script == Skipped(s.script, WakingSteps(s) + 3))
  {
    hide Transceive, AllFine, Skipped, FaultAt, ReadPlan, Answer, RegistersAfter, PlanReply;
    var s0 := s.(cache := s.cache.(trigged := false));
    PlansAreSendable(s.cache);
    SameScript(s, s0);
    AnyTransceive(s0, Flush, ReadRegister(Reads(s)));
    ReadingChangesNothing(s.regs, Reads(s));
    PlanAnswer(s.kind, s.regs, s.cache.mask);
  }

  lemma SameScript(s: State, s': State)
    requires s'.script == s.script && s'.io == s.io
    ensures NoFalseReplies(s') == NoFalseReplies(s)
    ensures forall n: nat :: AllFine(s', n) == AllFine(s, n) && FaultAt(s', n) == FaultAt(s, n)
  {
  }

  /** How a flush ends, over a line that brings no false replies and in every power
      mode: stuck in reading, with the pending writes as they were but no flush due;
      or with nothing pending, and the writes in the chip or lost. */
  lemma FlushByPositions(s: State)
    requires NoFalseReplies(s)
    ensures
      var (s', r) := Writeback(s);
      && (ReadFails(s) <==> !FlushRead(s).1.Ok?)
      && (ReadFails(s) ==> !r.Ok? && s'.cache == s.cache.(trigged := false) && s'.regs == s.regs)
      && (!ReadFails(s) ==> NothingPending(s'.cache) && s'.regs == if WriteGetsThrough(s) then View(s) else s.regs)
      && (!ReadFails(s) && !WriteGetsThrough(s) && View(s) != s.regs ==> !r.Ok?)
      && !s'.cache.trigged && SameChip(s, s')
  {
    hide Transceive, AllFine, Skipped, FaultAt, ReadPlan, Answer, RegistersAfter, PlanReply;
    hide Effective, MergeReply, WritePlan, DropFull, WriteAll, NothingPending, NoFalseReplies;
    var s0 := s.(cache := s.cache.(trigged := false));
    var off := |Status(s.kind)|;
    var reply := PlanReply(s.regs, s.cache.mask, Status(s.kind));
    var (s1, read) := if Reads(s) == [] then (s0, Ok([])) else Transceive(s0, Flush, ReadRegister(Reads(s)));
    NoSteps(s);
    if Reads(s) != [] {
      ReadPhase(s);
    }
    if !ReadFails(s) {
      var merged := if Reads(s) == [] then s1.cache else MergeReply(s1.cache, reply, off);
      if Reads(s) == [] {
        NothingToMerge(s0.cache, reply, off);
      }
      EffectiveIgnoresTrigger(s.cache, s.regs);
      MergeIgnoresTrigger(s.cache, reply, off);
      FlushDelivers(s.cache, s.regs, Status(s.kind));
      TriggerStays(s0.cache, reply, off);
      WritePhase(s, s1.(cache := DropFull(merged)), merged);
    }
  }

  lemma WritePhase(s: State, s2: State, merged: Cache)
    requires NoFalseReplies(s) && SameChip(s, s2) && !s2.cache.trigged
    requires s2.script == Skipped(s.script, if Reads(s) == [] then 0 else StepsToWrite(s))
    requires Reads(s) == [] ==> s2 == s.(cache := s2.cache)
    requires Reads(s) != [] ==> WakingSteps(s2) == 0 && IsAnswered(s, WakingSteps(s))
    ensures
      var toWrite := WritePlan(merged.data, merged.mask, CACHE_SIZE);
      var s3 := if toWrite == [] then s2 else Transceive(s2, Flush, WriteRegister(toWrite)).0;
      && s3.cache == s2.cache && SameChip(s, s3)
      && s3.regs == (if WriteGetsThrough(s) then WriteAll(s2.regs, toWrite) else s2.regs)
      && (!WriteGetsThrough(s) ==> toWrite == [] || !Transceive(s2, Flush, WriteRegister(toWrite)).1.Ok?)
      && (toWrite == [] ==> WriteAll(s2.regs, toWrite) == s2.regs)
  {
    hide Transceive, AllFine, Skipped, FaultAt, ReadPlan, RegistersAfter, WritePlan, WriteAll, NoFalseReplies;
    var toWrite := WritePlan(merged.data, merged.mask, CACHE_SIZE);
    var k := if Reads(s) == [] then 0 else StepsToWrite(s);
    var n := WakingSteps(s2);
    PlansAreSendable(merged);
    Later(s, s2, k, n + 1);
    AnyTransceive(s2, Flush, WriteRegister(toWrite));
    WritingWrites(s2.regs, toWrite);
    NothingToWrite(s2.regs);
    AnsweredIsExecuted(s2, n);
    NoSteps(s);
  }

  lemma AnsweredIsExecuted(s: State, steps: nat)
    ensures IsAnswered(s, steps) ==> IsExecuted(s, steps)
  {
  }

  lemma NoSteps(s: State)
    ensures AllFine(s, 0) && Skipped(s.script, 0) == s.script
  {
  }

  /** What was pending survives a flush if and only if it got stuck reading, or its
      write arrived, or there was nothing to change. The next command of the caller
      finds it in the chip if and only if the write arrived or there was nothing to
      change: a flush that got stuck is not made up for. */
  lemma SurvivalByPositions(s: State)
    requires NoFalseReplies(s)
    ensures
      var s' := Writeback(s).0;
      && (View(s') == View(s) <==> ReadFails(s) || WriteGetsThrough(s) || View(s) == s.regs)
      && (Found(s') == View(s) <==> (!ReadFails(s) && WriteGetsThrough(s)) || View(s) == s.regs)
  {
    hide Writeback, ReadFails, WriteGetsThrough, Effective, NothingPending, NoFalseReplies;
    FlushByPositions(s);
    var s' := Writeback(s).0;
    EffectiveIgnoresTrigger(s.cache, s.regs);
    if !ReadFails(s) {
      EffectiveWhenClean(s'.cache, s'.regs);
    }
  }
}
