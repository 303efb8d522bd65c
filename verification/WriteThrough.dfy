/** The lazy driver with its register cache against one that writes every register
    at once: over a line without faults no caller can tell them apart. */
module WriteThrough {
  import opened Bits
  import opened RegisterCache
  import opened Protocol

  // The commands executed for the caller, each with the registers it found.
  function UserRuns(log: seq<Event>): seq<(Command, Registers)> {
    if log == [] then []
    else
      var last := log[|log| - 1];
      UserRuns(log[..|log| - 1]) + if last.Executed? && last.who == User then [(last.cmd, last.regs)] else []
  }

  lemma UserRunsOfNext(log: seq<Event>, e: Event)
    ensures UserRuns(log + [e]) == UserRuns(log) + if e.Executed? && e.who == User then [(e.cmd, e.regs)] else []
  {
    assert (log + [e])[..|log|] == log;
  }

  function RunBy(who: Who, cmd: Command, regs: Registers): seq<(Command, Registers)> {
    if who == User then [(cmd, regs)] else []
  }

  // Nothing fails from here on. Only a PN532 can be woken up from LOWVBAT.
  predicate FaultFree(s: State) {
    s.script == [] && (Low(s) == 1 ==> s.kind == PN532)
  }

  predicate SameDevice(s: State, s': State) {
    s'.kind == s.kind && s'.io == s.io && FaultFree(s')
  }

  // A command that fits a frame and can be answered.
  predicate Sendable(cmd: Command) {
    Size(cmd) <= COMMAND_MAX && Code(cmd) < 255
  }

  // The command was executed on the registers regs, and answered.
  predicate Ran(s: State, who: Who, cmd: Command, regs: Registers, s': State) {
    && SameDevice(s, s')
    && s'.regs == RegistersAfter(regs, cmd)
    && UserRuns(s'.log) == UserRuns(s.log) + RunBy(who, cmd, regs)
  }

  lemma SendFrameRuns(s: State, who: Who, cmd: Command)
    requires FaultFree(s) && Low(s) == 0 && Sendable(cmd)
    ensures
      var (s', sent) := SendFrame(s, who, cmd);
      && sent && Ran(s, who, cmd, s.regs, s') && s'.cache == s.cache && s'.power == s.power
      && s'.answer == Answer(s.kind, s.regs, cmd) && s'.answerCode == Code(cmd) + 1
  {
    hide UserRuns;
    UserRunsOfNext(s.log, Frame(who, cmd));
    UserRunsOfNext(s.log + [Frame(who, cmd)], Executed(who, cmd, s.regs));
    UserRunsOfNext(s.log + [Frame(who, cmd)] + [Executed(who, cmd, s.regs)], Acked(Code(cmd)));
  }

  lemma ConcludeTakesAnswer(s: State, cmd: Command)
    requires FaultFree(s) && Low(s) == 0 && Sendable(cmd)
    requires s.answerCode == Code(cmd) + 1
    ensures
      var (s', r) := Conclude(s, cmd);
      && SameDevice(s, s') && s'.regs == s.regs && s'.cache == s.cache && Low(s') == 0
      && r == Judge(s.kind, cmd, s.answer) && UserRuns(s'.log) == UserRuns(s.log)
  {
    hide UserRuns;
    UserRunsOfNext(s.log, Accepted(s.answerCode));
  }

  // How a command turns out that is executed on the registers regs: the PN533's
  // status byte of a register command is fine.
  function Response(kind: ChipType, regs: Registers, cmd: Command): (r: Result)
    ensures !cmd.Other? ==> r == Ok(Answer(kind, regs, cmd))
    ensures cmd == SAM_NORMAL || cmd == POWER_DOWN ==> r.Ok?
  {
    Judge(kind, cmd, Answer(kind, regs, cmd))
  }

  // Without a flush, with the chip awake.
  lemma AwakeTransceive(s: State, who: Who, cmd: Command)
    requires FaultFree(s) && Low(s) == 0 && Sendable(cmd) && !s.cache.trigged
    ensures
      var (s', r) := Transceive(s, who, cmd);
      Ran(s, who, cmd, s.regs, s') && r == Response(s.kind, s.regs, cmd) && s'.cache == s.cache && Low(s') == 0
  {
    hide UserRuns, Answer, SendFrame, Conclude, RegistersAfter;
    var (s2, sent) := Send(s, who, cmd);
    AwakeSend(s, who, cmd);
    ConcludeTakesAnswer(s2, cmd);
  }

  lemma AwakeSend(s: State, who: Who, cmd: Command)
    requires FaultFree(s) && Low(s) == 0 && Sendable(cmd)
    ensures
      var (s', sent) := Send(s, who, cmd);
      && sent && Ran(s, who, cmd, s.regs, s') && s'.cache == s.cache && Low(s') == 0
      && s'.answer == Answer(s.kind, s.regs, cmd) && s'.answerCode == Code(cmd) + 1
  {
    hide UserRuns, Answer, SendFrame, RegistersAfter;
    if s.io == NoWakeUp || s.power == NORMAL {
      SendFrameRuns(s, who, cmd);
    } else {
      var (s1, awake) := Wake(s);
      UserRunsOfNext(s.log, Preamble);
      SendFrameRuns(s1, who, cmd);
    }
  }

  // With the chip in LOWVBAT or not.
  lemma AnySend(s: State, who: Who, cmd: Command)
    requires FaultFree(s) && Sendable(cmd) && !s.cache.trigged
    ensures
      var (s', sent) := Send(s, who, cmd);
      && sent && Ran(s, who, cmd, s.regs, s') && s'.cache == s.cache && Low(s') == 0
      && s'.answer == Answer(s.kind, s.regs, cmd) && s'.answerCode == Code(cmd) + 1
  {
    hide UserRuns, Answer, SendFrame, RegistersAfter, Transceive;
    if Low(s) == 0 {
      AwakeSend(s, who, cmd);
    } else {
      var (s1, awake) := Wake(s);
      UserRunsOfNext(s.log, Preamble);
      var s1' := s1.(samMode := PSM_NORMAL);
      AwakeTransceive(s1', WakeUp, SAM_NORMAL);
      SamChangesNothing(s1.regs);
      var (s2, sam) := SamConfiguration(s1, WakeUp, PSM_NORMAL);
      SendFrameRuns(s2, who, cmd);
    }
  }

  lemma SamChangesNothing(regs: Registers)
    ensures RegistersAfter(regs, SAM_NORMAL) == regs && Sendable(SAM_NORMAL)
  {
  }

  lemma UnflushedTransceive(s: State, who: Who, cmd: Command)
    requires FaultFree(s) && Sendable(cmd) && !s.cache.trigged
    ensures
      var (s', r) := Transceive(s, who, cmd);
      Ran(s, who, cmd, s.regs, s') && r == Response(s.kind, s.regs, cmd) && s'.cache == s.cache && Low(s') == 0
  {
    hide UserRuns, Answer, Send, Conclude, RegistersAfter;
    var (s2, sent) := Send(s, who, cmd);
    AnySend(s, who, cmd);
    ConcludeTakesAnswer(s2, cmd);
  }

  // --- The flush ---

  lemma PlansAreSendable(c: Cache)
    ensures Sendable(ReadRegister(ReadPlan(c.mask, CACHE_SIZE)))
    ensures Sendable(WriteRegister(WritePlan(c.data, c.mask, CACHE_SIZE)))
  {
  }

  lemma NothingToMerge(c: Cache, reply: seq<byte>, off: nat)
    requires ReadPlan(c.mask, CACHE_SIZE) == []
    ensures MergeReply(c, reply, off) == c
  {
    ReadPlanAscends(c.mask, CACHE_SIZE);
    forall n | 0 <= n < CACHE_SIZE
      ensures !Partial(c.mask[n])
    {
      assert CACHE_MIN + n !in ReadPlan(c.mask, CACHE_SIZE);
    }
  }

  lemma NothingToWrite(regs: Registers)
    ensures WriteAll(regs, []) == regs
  {
  }

  // What the flush knows about the reply it merges.
  lemma PlanAnswer(kind: ChipType, regs: Registers, mask: Slots)
    ensures Answer(kind, regs, ReadRegister(ReadPlan(mask, CACHE_SIZE))) == PlanReply(regs, mask, Status(kind))
  {
  }

  /** A flush over a line without faults leaves the chip with the effective
      registers and nothing pending, and is no concern of the caller. */
  lemma WritebackDelivers(s: State)
    requires FaultFree(s)
    ensures
      var (s', r) := Writeback(s);
      && r.Ok? && SameDevice(s, s')
      && s'.regs == Effective(s.cache, s.regs)
      && NothingPending(s'.cache) && !s'.cache.trigged
      && UserRuns(s'.log) == UserRuns(s.log)
  {
    hide UserRuns, Answer, Transceive, RegistersAfter, Effective, NothingPending;
    hide MergeReply, WritePlan, ReadPlan, DropFull, WriteAll, PlanReply;
    var s0 := s.(cache := s.cache.(trigged := false));
    var toRead := ReadPlan(s.cache.mask, CACHE_SIZE);
    var off := |Status(s.kind)|;
    var reply := PlanReply(s.regs, s.cache.mask, Status(s.kind));
    PlansAreSendable(s.cache);
    UnflushedTransceive(s0, Flush, ReadRegister(toRead));
    PlanAnswer(s.kind, s.regs, s.cache.mask);
    var (s1, read) := if toRead == [] then (s0, Ok([])) else Transceive(s0, Flush, ReadRegister(toRead));
    assert s1.cache == s0.cache && s1.regs == s.regs by {
      ReadingChangesNothing(s.regs, toRead);
    }
    if toRead == [] {
      NothingToMerge(s0.cache, reply, off);
    }
    var merged := MergeReply(s0.cache, reply, off);
    EffectiveIgnoresTrigger(s.cache, s.regs);
    MergeIgnoresTrigger(s.cache, reply, off);
    FlushDelivers(s.cache, s.regs, Status(s.kind));
    var toWrite := WritePlan(merged.data, merged.mask, CACHE_SIZE);
    var s2 := s1.(cache := DropFull(merged));
    PlansAreSendable(merged);
    TriggerStays(s0.cache, reply, off);
    UnflushedTransceive(s2, Flush, WriteRegister(toWrite));
    NothingToWrite(s.regs);
    WritingWrites(s.regs, toWrite);
  }

  lemma ReadingChangesNothing(regs: Registers, addrs: seq<Address>)
    ensures RegistersAfter(regs, ReadRegister(addrs)) == regs
  {
  }

  lemma WritingWrites(regs: Registers, writes: seq<(Address, byte)>)
    ensures RegistersAfter(regs, WriteRegister(writes)) == WriteAll(regs, writes)
  {
  }

  lemma EffectiveIgnoresTrigger(c: Cache, regs: Registers)
    ensures Effective(c.(trigged := false), regs) == Effective(c, regs)
  {
  }

  lemma MergeIgnoresTrigger(c: Cache, reply: seq<byte>, off: nat)
    ensures
      var m, m' := MergeReply(c, reply, off), MergeReply(c.(trigged := false), reply, off);
      m.data == m'.data && m.mask == m'.mask && DropFull(m).mask == DropFull(m').mask
      && (NothingPending(DropFull(m)) ==> NothingPending(DropFull(m')))
  {
  }

  lemma TriggerStays(c: Cache, reply: seq<byte>, off: nat)
    ensures DropFull(MergeReply(c, reply, off)).trigged == c.trigged
  {
  }

  // --- A command of the caller ---

  // What is pending has been marked for the next command.
  predicate Tidy(c: Cache) {
    c.trigged || NothingPending(c)
  }

  // What lies ahead of the caller's view: no faults, nothing forgotten.
  predicate Healthy(s: State) {
    FaultFree(s) && Tidy(s.cache)
  }

  // The registers as the caller believes them to be.
  function View(s: State): Registers {
    Effective(s.cache, s.regs)
  }

  /** A command is executed on the registers that the caller has asked for, all
      earlier masked writes included, and answered accordingly. */
  lemma TransceiveSeesEffective(s: State, who: Who, cmd: Command)
    requires Healthy(s) && Sendable(cmd)
    ensures
      var (s', r) := Transceive(s, who, cmd);
      && Ran(s, who, cmd, View(s), s') && r == Response(s.kind, View(s), cmd)
      && Healthy(s') && NothingPending(s'.cache) && View(s') == s'.regs
  {
    hide UserRuns, Answer, Send, Conclude, RegistersAfter, Writeback, Effective, NothingPending;
    var s1 := if s.cache.trigged then Writeback(s).0 else s;
    if s.cache.trigged {
      WritebackDelivers(s);
    } else {
      EffectiveWhenClean(s.cache, s.regs);
    }
    var (s2, sent) := Send(s1, who, cmd);
    AnySend(s1, who, cmd);
    ConcludeTakesAnswer(s2, cmd);
    var (s', r) := Transceive(s, who, cmd);
    EffectiveWhenClean(s'.cache, s'.regs);
  }

  // --- Whole runs ---

  // What a caller can do: a masked write, a read, any command, or sending the
  // chip to sleep, from which the next command has to wake it up.
  datatype Operation =
    | Write(a: Address, mask: byte, value: byte)
    | Read(a: Address)
    | Run(cmd: Command)
    | Sleep

  // What comes back.
  datatype Outcome = Written(ok: bool) | Got(value: Value) | Replied(result: Result)

  function Do(s: State, op: Operation): (State, Outcome) {
    match op
    case Write(a, mask, value) => var (s', ok) := WriteReg(s, a, mask, value); (s', Written(ok))
    case Read(a) => var (s', v) := ReadReg(s, a); (s', Got(v))
    case Run(cmd) => var (s', r) := Transceive(s, User, cmd); (s', Replied(r))
    case Sleep => var (s', ok) := PowerDown(s); (s', Written(ok))
  }

  function DoAll(s: State, ops: seq<Operation>): (State, seq<Outcome>)
    decreases |ops|
  {
    if ops == [] then (s, [])
    else
      var (s1, o) := Do(s, ops[0]);
      var (s2, os) := DoAll(s1, ops[1..]);
      (s2, [o] + os)
  }

  // The driver without a cache: a masked write changes the register at once.
  datatype Through = Through(regs: Registers, runs: seq<(Command, Registers)>)

  function ThroughRun(t: Through, cmd: Command): Through {
    Through(RegistersAfter(t.regs, cmd), t.runs + [(cmd, t.regs)])
  }

  function ThroughDo(kind: ChipType, t: Through, op: Operation): (Through, Outcome) {
    match op
    case Write(a, mask, value) =>
      var changed := Masked(t.regs[a], mask, value);
      if Cached(a) then
        (t.(regs := t.regs[a := changed]), Written(true))
      else if mask == 0xff then
        (ThroughRun(t, WriteRegister([(a, value)])), Written(true))
      else
        var t1 := ThroughRun(t, ReadRegister([a]));
        if changed == t.regs[a] then (t1, Written(true))
        else (ThroughRun(t1, WriteRegister([(a, changed)])), Written(true))
    case Read(a) =>
      (ThroughRun(t, ReadRegister([a])), Got(Value.Value(t.regs[a])))
    case Run(cmd) =>
      (ThroughRun(t, cmd), Replied(Response(kind, t.regs, cmd)))
    case Sleep =>
      (ThroughRun(t, POWER_DOWN), Written(true))
  }

  function ThroughDoAll(kind: ChipType, t: Through, ops: seq<Operation>): (Through, seq<Outcome>)
    decreases |ops|
  {
    if ops == [] then (t, [])
    else
      var (t1, o) := ThroughDo(kind, t, ops[0]);
      var (t2, os) := ThroughDoAll(kind, t1, ops[1..]);
      (t2, [o] + os)
  }

  // The state as the write-through driver has it.
  function Abstract(s: State): Through {
    Through(View(s), UserRuns(s.log))
  }

  // A command has to be sendable, and a chip that sleeps has to be one that can
  // be woken up.
  predicate Allowed(s: State, op: Operation) {
    && (op.Run? ==> Sendable(op.cmd))
    && (op.Sleep? ==> s.io == NoWakeUp || s.kind == PN532)
  }

  lemma TransceiveIsThroughRun(s: State, cmd: Command)
    requires Healthy(s) && Sendable(cmd)
    ensures
      var (s', r) := Transceive(s, User, cmd);
      && Healthy(s') && s'.kind == s.kind && s'.io == s.io
      && Abstract(s') == ThroughRun(Abstract(s), cmd) && r == Response(s.kind, View(s), cmd)
  {
    hide Healthy, View, UserRuns, RegistersAfter, Answer, Transceive;
    TransceiveSeesEffective(s, User, cmd);
  }

  lemma ReadAnswer(kind: ChipType, regs: Registers, a: Address)
    ensures At(Answer(kind, regs, ReadRegister([a])), |Status(kind)|) == regs[a]
    ensures RegistersAfter(regs, ReadRegister([a])) == regs
    ensures Sendable(ReadRegister([a]))
  {
  }

  lemma WriteOneSendable(a: Address, value: byte)
    ensures Sendable(WriteRegister([(a, value)]))
  {
  }

  lemma ReadIsThroughRead(s: State, a: Address)
    requires Healthy(s)
    ensures
      var (s', v) := ReadReg(s, a);
      && Healthy(s') && s'.kind == s.kind && s'.io == s.io
      && Abstract(s') == ThroughRun(Abstract(s), ReadRegister([a])) && v == Value.Value(View(s)[a])
      && View(s') == View(s)
  {
    hide Healthy, View, UserRuns, RegistersAfter, Answer, Transceive, Sendable;
    ReadAnswer(s.kind, View(s), a);
    TransceiveIsThroughRun(s, ReadRegister([a]));
  }

  lemma StoreIsThroughWrite(s: State, a: Address, mask: byte, value: byte)
    requires Healthy(s) && Cached(a)
    ensures
      var s' := s.(cache := Store(s.cache, a, mask, value));
      Healthy(s') && View(s') == View(s)[a := Masked(View(s)[a], mask, value)]
  {
    hide Masked;
    StoreIsMaskedWrite(s.cache, s.regs, a, mask, value);
  }

  lemma StepRefines(s: State, op: Operation)
    requires Healthy(s) && Allowed(s, op)
    ensures
      var (s', o) := Do(s, op);
      var (t', o') := ThroughDo(s.kind, Abstract(s), op);
      Healthy(s') && s'.kind == s.kind && s'.io == s.io && Abstract(s') == t' && o == o'
  {
    hide Healthy, View, UserRuns, RegistersAfter, Answer, Transceive, ReadReg, Store, Masked, Sendable;
    match op
    case Write(a, mask, value) =>
      if Cached(a) {
        StoreIsThroughWrite(s, a, mask, value);
      } else if mask == 0xff {
        WriteOneSendable(a, value);
        TransceiveIsThroughRun(s, WriteRegister([(a, value)]));
      } else {
        ReadIsThroughRead(s, a);
        var (s1, current) := ReadReg(s, a);
        var changed := Masked(current.value, mask, value);
        WriteOneSendable(a, changed);
        TransceiveIsThroughRun(s1, WriteRegister([(a, changed)]));
      }
    case Read(a) =>
      ReadIsThroughRead(s, a);
    case Run(cmd) =>
      TransceiveIsThroughRun(s, cmd);
    case Sleep =>
      SleepIsThroughRun(s);
  }

  lemma SleepIsThroughRun(s: State)
    requires Healthy(s) && Allowed(s, Sleep)
    ensures
      var (s', ok) := PowerDown(s);
      && Healthy(s') && s'.kind == s.kind && s'.io == s.io
      && Abstract(s') == ThroughRun(Abstract(s), POWER_DOWN) && ok
  {
    hide UserRuns, RegistersAfter, Answer, Transceive, Effective, Tidy;
    TransceiveIsThroughRun(s, POWER_DOWN);
    var (s1, r) := Transceive(s, User, POWER_DOWN);
    UserRunsOfNext(s1.log, EnteredLowVbat);
  }

  /** Over a line without faults the lazy driver refines the write-through driver,
      for every sequence of operations: every result is the same, every command
      of the caller is executed on the same registers, and what the caller may
      believe of the registers at the end is the same. */
  lemma {:induction false} LazyRefinesWriteThrough(s: State, ops: seq<Operation>)
    requires Healthy(s) && forall i :: 0 <= i < |ops| ==> Allowed(s, ops[i])
    ensures
      var (s', os) := DoAll(s, ops);
      var (t', os') := ThroughDoAll(s.kind, Abstract(s), ops);
      Healthy(s') && Abstract(s') == t' && os == os'
    decreases |ops|
  {
    hide Healthy, Abstract, Do, ThroughDo;
    if ops != [] {
      StepRefines(s, ops[0]);
      LazyRefinesWriteThrough(Do(s, ops[0]).0, ops[1..]);
    }
  }
}
