/** What becomes of pending register writes when the line fails during a flush:
    pn53x_writeback_register forgets that a flush is due, and what it is writing,
    before it knows the outcome. */
module FailedFlush {
  import opened Bits
  import opened RegisterCache
  import opened Protocol
  import opened WriteThrough

  // The registers a command finds, over a line without faults.
  function Found(s: State): Registers {
    if s.cache.trigged then View(s) else s.regs
  }

  /** A command finds the effective registers, whatever the chip holds, exactly when
      a flush is due or nothing is pending. The driver can tell by its own fields. */
  lemma CommandFinds(s: State, cmd: Command)
    requires FaultFree(s) && Sendable(cmd)
    ensures Ran(s, User, cmd, Found(s), Transceive(s, User, cmd).0)
    ensures
      (forall regs: Registers :: Found(s.(regs := regs)) == View(s.(regs := regs))) <==> Tidy(s.cache)
  {
    hide UserRuns, RegistersAfter, Answer, Transceive, Effective, NothingPending;
    if s.cache.trigged {
      TransceiveFinds(s, cmd);
    } else {
      UnflushedTransceive(s, User, cmd);
      if NothingPending(s.cache) {
        forall regs: Registers
          ensures Found(s.(regs := regs)) == View(s.(regs := regs))
        {
          EffectiveWhenClean(s.cache, regs);
        }
      } else {
        PendingIsVisible(s.cache);
        var regs: Registers :| Effective(s.cache, regs) != regs;
        assert Found(s.(regs := regs)) != View(s.(regs := regs));
      }
    }
  }

  lemma TransceiveFinds(s: State, cmd: Command)
    requires FaultFree(s) && Sendable(cmd) && s.cache.trigged
    ensures Ran(s, User, cmd, View(s), Transceive(s, User, cmd).0)
  {
    hide UserRuns, RegistersAfter, Answer, Transceive, Effective, NothingPending;
    TransceiveSeesEffective(s, User, cmd);
  }

  // A pending write changes some registers.
  lemma PendingIsVisible(c: Cache)
    requires !NothingPending(c)
    ensures exists regs: Registers :: Effective(c, regs) != regs
  {
    var n :| 0 <= n < CACHE_SIZE && c.mask[n] != 0x00;
    var flipped: Registers := seq(0x10000, a => if a == CACHE_MIN + n then !c.data[n] else 0x00);
    assert Masked(!c.data[n], c.mask[n], c.data[n]) != !c.data[n];
    assert Effective(c, flipped)[CACHE_MIN + n] != flipped[CACHE_MIN + n];
  }

  // --- A command over any line ---

  predicate SameChip(s: State, s': State) {
    s'.kind == s.kind && s'.io == s.io
  }

  predicate SameLine(s: State, s': State) {
    SameChip(s, s') && s'.cache == s.cache
  }

  // The state in which a send has only its frame left to send, and whether it gets
  // that far.
  function Awakened(s: State): (State, bool) {
    if s.io == NoWakeUp || s.power == NORMAL then (s, true)
    else
      var (s1, awake) := Wake(s);
      if !awake || s.power == POWERDOWN then (s1, awake)
      else
        var (s2, sam) := SamConfiguration(s1, WakeUp, PSM_NORMAL);
        (s2, sam.Ok?)
  }

  // A frame sent from s reaches the chip.
  predicate FrameArrives(s: State) {
    var (s1, up) := Awakened(s);
    up && NextFault(s1).None? && (NextFault(StepOn(s1)).None? || NextFault(StepOn(s1)).Lost?)
  }

  lemma SendFrameEnds(s: State, who: Who, cmd: Command)
    ensures
      var (s', sent) := SendFrame(s, who, cmd);
      var arrives := NextFault(s).None? && (NextFault(StepOn(s)).None? || NextFault(StepOn(s)).Lost?);
      && SameLine(s, s') && s'.power == s.power && (sent ==> arrives)
      && s'.regs == (if arrives && Size(cmd) <= COMMAND_MAX then RegistersAfter(s.regs, cmd) else s.regs)
  {
    hide Answer, RegistersAfter, Size;
  }

  lemma ConcludeKeeps(s: State, cmd: Command)
    ensures SameLine(s, Conclude(s, cmd).0) && Conclude(s, cmd).0.regs == s.regs
  {
    hide Judge, Answer, RegistersAfter;
  }

  lemma AwakenedKeeps(s: State)
    requires !s.cache.trigged
    ensures SameLine(s, Awakened(s).0) && Awakened(s).0.regs == s.regs
  {
    hide SendFrame, Conclude, Judge, Answer, RegistersAfter, Wake;
    WakeKeeps(s);
    var s1 := Wake(s).0.(samMode := PSM_NORMAL);
    SendFrameEnds(s1, WakeUp, SAM_NORMAL);
    SamChangesNothing(s.regs);
    var (s2, sent) := SendFrame(s1, WakeUp, SAM_NORMAL);
    ConcludeKeeps(s2, SAM_NORMAL);
    assert Send(s1, WakeUp, SAM_NORMAL) == (s2, sent);
    assert Transceive(s1, WakeUp, SAM_NORMAL) == if sent then Conclude(s2, SAM_NORMAL) else (s2, Err);
  }

  lemma WakeKeeps(s: State)
    ensures SameLine(s, Wake(s).0) && Wake(s).0.regs == s.regs && Wake(s).0.power == NORMAL
  {
  }

  // Whatever fails, and whatever replies come: a command is executed or not.
  lemma EveryTransceive(s: State, who: Who, cmd: Command)
    requires !s.cache.trigged && Size(cmd) <= COMMAND_MAX
    ensures
      var (s', r) := Transceive(s, who, cmd);
      && SameLine(s, s')
      && s'.regs == (if FrameArrives(s) then RegistersAfter(s.regs, cmd) else s.regs)
      && (r.Ok? ==> FrameArrives(s))
  {
    hide SendFrame, SamConfiguration, Wake, Conclude, Answer, RegistersAfter;
    AwakenedKeeps(s);
    var (s1, up) := Awakened(s);
    SendFrameEnds(s1, who, cmd);
    assert Send(s, who, cmd) == if up then SendFrame(s1, who, cmd) else (s1, false);
    ConcludeKeeps(Send(s, who, cmd).0, cmd);
  }

  // --- A flush over any line ---

  function Reads(s: State): seq<Address> {
    ReadPlan(s.cache.mask, CACHE_SIZE)
  }

  // The first half of a flush, and what it is going to write.
  function FlushRead(s: State): (State, Result) {
    var s0 := s.(cache := s.cache.(trigged := false));
    if Reads(s) == [] then (s0, Ok([])) else Transceive(s0, Flush, ReadRegister(Reads(s)))
  }

  function Merged(s: State): Cache
    requires FlushRead(s).1.Ok?
  {
    MergeReply(s.cache, FlushRead(s).1.reply, |Status(s.kind)|)
  }

  function Plan(s: State): seq<(Address, byte)>
    requires FlushRead(s).1.Ok?
  {
    WritePlan(Merged(s).data, Merged(s).mask, CACHE_SIZE)
  }

  // The flush gets to its WriteRegister, and that reaches the chip, whether the driver
  // learns of it or not.
  predicate WriteArrives(s: State) {
    var (s1, read) := FlushRead(s);
    read.Ok? && FrameArrives(s1.(cache := DropFull(Merged(s)).(trigged := false)))
  }

  /** How a flush ends, whatever the line does: stuck in reading, with the pending
      writes as they were but no flush due; or with nothing pending, and what it has
      merged in the chip or lost. */
  lemma FlushOutcome(s: State)
    ensures
      var (s', r) := Writeback(s);
      && SameChip(s, s') && !s'.cache.trigged
      && if !FlushRead(s).1.Ok? then
           !r.Ok? && s'.cache == s.cache.(trigged := false) && s'.regs == s.regs
         else
           && NothingPending(s'.cache)
           && s'.regs == (if WriteArrives(s) then WriteAll(s.regs, Plan(s)) else s.regs)
           && (r.Ok? ==> s'.regs == WriteAll(s.regs, Plan(s)))
  {
    hide Transceive, ReadPlan, RegistersAfter, MergeReply, WritePlan, DropFull, WriteAll, NothingPending;
    hide FrameArrives;
    var s0 := s.(cache := s.cache.(trigged := false));
    PlansAreSendable(s.cache);
    EveryTransceive(s0, Flush, ReadRegister(Reads(s)));
    ReadingChangesNothing(s.regs, Reads(s));
    var (s1, read) := FlushRead(s);
    if read.Ok? {
      var off := |Status(s.kind)|;
      var merged := if Reads(s) == [] then s1.cache else MergeReply(s1.cache, read.reply, off);
      if Reads(s) == [] {
        NothingToMerge(s0.cache, read.reply, off);
      }
      SamePlan(s.cache, read.reply, off);
      TriggerStays(s0.cache, read.reply, off);
      MergedLeavesNothing(s0.cache, read.reply, off);
      PlansAreSendable(merged);
      EveryTransceive(s1.(cache := DropFull(merged)), Flush, WriteRegister(Plan(s)));
      WritingWrites(s.regs, Plan(s));
      NothingToWrite(s.regs);
    }
  }

  lemma SamePlan(c: Cache, reply: seq<byte>, off: nat)
    ensures
      var m, m' := MergeReply(c, reply, off), MergeReply(c.(trigged := false), reply, off);
      m.data == m'.data && m.mask == m'.mask && DropFull(m') == DropFull(m).(trigged := false)
  {
  }

  lemma MergedLeavesNothing(c: Cache, reply: seq<byte>, off: nat)
    ensures NothingPending(DropFull(MergeReply(c, reply, off)))
  {
    hide MergedValue, ReadBack;
  }

  // What a reply shows of a register is as good as the register itself: where the
  // pending bits have to be written, the others are those of the register; and where
  // they seem to be there already, they are.
  predicate Serves(current: byte, mask: byte, data: byte, shown: byte) {
    var asked := Masked(current, mask, data);
    if Masked(shown, mask, data) != shown then Masked(shown, mask, data) == asked else asked == current
  }

  predicate ReplyServes(c: Cache, regs: Registers, reply: seq<byte>, off: nat) {
    forall n :: 0 <= n < CACHE_SIZE && Partial(c.mask[n]) ==>
      Serves(regs[CACHE_MIN + n], c.mask[n], c.data[n], ReadBack(c.mask, reply, off, n))
  }

  /** A flush writes what was asked for if and only if its reply serves. */
  lemma FlushIsRight(c: Cache, regs: Registers, reply: seq<byte>, off: nat)
    ensures
      var merged := MergeReply(c, reply, off);
      WriteAll(regs, WritePlan(merged.data, merged.mask, CACHE_SIZE)) == Effective(c, regs) <==>
      ReplyServes(c, regs, reply, off)
  {
    hide Masked, WriteAll, WritePlan, ReadBack, Serves;
    var merged := MergeReply(c, reply, off);
    var written := WriteAll(regs, WritePlan(merged.data, merged.mask, CACHE_SIZE));
    MaskedByNothing();
    forall a: Address
      ensures written[a] == Effective(c, regs)[a] <==>
        (Cached(a) && Partial(c.mask[a - CACHE_MIN]) ==>
           Serves(regs[a], c.mask[a - CACHE_MIN], c.data[a - CACHE_MIN], ReadBack(c.mask, reply, off, a - CACHE_MIN)))
    {
      WritePlanEffect(regs, merged.data, merged.mask, CACHE_SIZE, a);
      if Cached(a) {
        var n := a - CACHE_MIN;
        ServesMeans(regs[a], c.mask[n], c.data[n], ReadBack(c.mask, reply, off, n));
      }
    }
  }

  lemma ServesMeans(current: byte, mask: byte, data: byte, shown: byte)
    ensures
      var asked := Masked(current, mask, data);
      Serves(current, mask, data, shown) <==>
      if Masked(shown, mask, data) != shown then Masked(shown, mask, data) == asked else current == asked
  {
  }

  /** What was pending survives a flush, over any line, if and only if it got stuck
      reading, or its write arrived and the reply serves, or no write arrived and there
      was nothing to change. The next command of the caller finds it in the chip under
      the same conditions but the first: a flush that got stuck is not made up for. */
  lemma PendingSurvives(s: State)
    ensures
      var s' := Writeback(s).0;
      var read := FlushRead(s).1;
      var done := if WriteArrives(s) then ReplyServes(s.cache, s.regs, read.reply, |Status(s.kind)|)
                  else View(s) == s.regs;
      && (View(s') == View(s) <==> !read.Ok? || done)
      && (Found(s') == View(s) <==> done)
  {
    hide Writeback, FlushRead, FrameArrives, Effective, NothingPending, MergeReply, WriteAll, WritePlan, ReplyServes;
    FlushOutcome(s);
    var s' := Writeback(s).0;
    EffectiveIgnoresTrigger(s.cache, s.regs);
    if FlushRead(s).1.Ok? {
      EffectiveWhenClean(s'.cache, s'.regs);
      FlushIsRight(s.cache, s.regs, FlushRead(s).1.reply, |Status(s.kind)|);
    }
  }

  /** When the read of a flush fails, however it does, all pending writes stay pending,
      but no flush is due any more: over a line that works again, the next command runs
      without them. */
  lemma FailedReadForgetsToFlush(s: State, cmd: Command)
    requires s.cache.trigged && !FlushRead(s).1.Ok? && Sendable(cmd)
    ensures
      var (s1, r) := Transceive(s, User, cmd);
      && !r.Ok? && s1.regs == s.regs && View(s1) == View(s) && Found(s1) == s.regs
      && (FaultFree(s1) ==> Ran(s1, User, cmd, s.regs, Transceive(s1, User, cmd).0))
  {
    hide Writeback, FlushRead, Effective, Send, Conclude, UserRuns, RegistersAfter, Sendable;
    FlushOutcome(s);
    EffectiveIgnoresTrigger(s.cache, s.regs);
    var s1 := Writeback(s).0;
    assert Transceive(s, User, cmd).0 == s1;
    if FaultFree(s1) {
      CommandFinds(s1, cmd);
    }
  }

  /** When a flush gets to its WriteRegister, and that does not reach the chip, the
      writes it carried are lost: neither the chip nor the cache has them. */
  lemma FailedWriteLosesRegisters(s: State, cmd: Command)
    requires s.cache.trigged && FlushRead(s).1.Ok? && !WriteArrives(s)
    ensures
      var s1 := Writeback(s).0;
      && s1.regs == s.regs && NothingPending(s1.cache) && View(s1) == s.regs
      && (WriteAll(s.regs, Plan(s)) != s.regs ==>
            Transceive(s, User, cmd) == (s1, Writeback(s).1) && !Writeback(s).1.Ok?)
  {
    hide Writeback, FlushRead, FrameArrives, Effective, Send, Conclude, NothingPending, WriteAll, WritePlan;
    FlushOutcome(s);
    EffectiveWhenClean(Writeback(s).0.cache, s.regs);
  }

  // --- False replies ---

  function Inverted(regs: Registers): Registers {
    seq(0x10000, a requires 0 <= a < 0x10000 => !regs[a])
  }

  // A reply that shows the opposite of what was asked for, in every bit.
  function Opposite(s: State): seq<byte> {
    PlanReply(Inverted(View(s)), s.cache.mask, Status(s.kind))
  }

  // Two ways for such a reply to get through: a reply that comes for another command
  // of the same code; and, on the UART, an aborted wait, which is reported as success
  // with whatever was in the reply buffer.
  predicate FalseReply(s: State, f: Fault, reply: seq<byte>) {
    f == Stray(CMD_READ_REGISTER + 1, reply) || (s.io == Uart && f == Aborted(reply))
  }

  lemma FalseReplyIsTaken(s: State, who: Who, addrs: seq<Address>, f: Fault, reply: seq<byte>)
    requires s.script == [None, None, f] && FalseReply(s, f, reply)
    requires (s.io == NoWakeUp || s.power == NORMAL) && !s.cache.trigged
    requires Size(ReadRegister(addrs)) <= COMMAND_MAX
    requires s.kind == PN533 ==> At(reply, 0) == 0x00
    ensures
      var (s', r) := Transceive(s, who, ReadRegister(addrs));
      && SameLine(s, s') && s'.regs == s.regs && s'.script == [] && s'.power == s.power && r == Ok(reply)
      && (who != User ==> UserRuns(s'.log) == UserRuns(s.log))
  {
    hide ReadAll, WriteAll, UserRuns;
    var s1 := SendFrame(s, who, ReadRegister(addrs)).0;
    var frame, executed := Frame(who, ReadRegister(addrs)), Executed(who, ReadRegister(addrs), s.regs);
    UserRunsOfNext(s.log, frame);
    UserRunsOfNext(s.log + [frame], executed);
    var acked := Acked(CMD_READ_REGISTER);
    UserRunsOfNext(s.log + [frame] + [executed], acked);
    UserRunsOfNext(s.log + [frame] + [executed] + [acked], Accepted(CMD_READ_REGISTER + 1));
    UserRunsOfNext(s.log + [frame] + [executed] + [acked], AckFrame);
    assert s1.script == [f];
    assert Send(s, who, ReadRegister(addrs)) == (s1, true);
  }

  lemma OppositeBits(current: byte, mask: byte, data: byte)
    requires Partial(mask)
    ensures
      var asked := Masked(current, mask, data);
      Masked(!asked, mask, data) != !asked && Masked(!asked, mask, data) != asked
      && Masked(!asked, mask, data) != current
  {
  }

  /** A false reply can spoil every flush: for any chip that is awake, any pending
      writes of which one is partial, and any registers, there is a reply for which the
      flush succeeds and leaves the chip neither as it was nor as it was asked for; and
      the next command runs on such registers. */
  lemma FalseReplySpoilsFlush(s: State, f: Fault, cmd: Command)
    requires s.script == [None, None, f] && FalseReply(s, f, Opposite(s))
    requires (s.io == NoWakeUp || s.power == NORMAL) && Reads(s) != []
    ensures
      var (s', r) := Writeback(s);
      && r.Ok? && NothingPending(s'.cache)
      && s'.regs != s.regs && s'.regs != View(s) && View(s') != View(s)
      && (s.cache.trigged && Sendable(cmd) ==> Ran(s, User, cmd, s'.regs, Transceive(s, User, cmd).0))
  {
    hide Writeback, FlushRead, Effective, NothingPending, WriteAll, WritePlan, UserRuns, Sendable, RegistersAfter;
    hide Opposite, Transceive, Send, FrameArrives;
    FlushOutcome(s);
    SpoiledFlush(s, f);
    var s' := Writeback(s).0;
    var a := SpoiledRegister(s);
    EffectiveWhenClean(s'.cache, s'.regs);
    if s.cache.trigged && Sendable(cmd) {
      SpoiledCommand(s, cmd);
    }
  }

  lemma SpoiledFlush(s: State, f: Fault)
    requires s.script == [None, None, f] && FalseReply(s, f, Opposite(s))
    requires (s.io == NoWakeUp || s.power == NORMAL) && Reads(s) != []
    ensures FlushRead(s).1 == Ok(Opposite(s))
    ensures
      var (s', r) := Writeback(s);
      r.Ok? && SameDevice(s, s') && UserRuns(s'.log) == UserRuns(s.log)
  {
    hide ReadPlan, WritePlan, DropFull, MergeReply, WriteAll, Transceive, UserRuns, Sendable, PlanReply, RegistersAfter;
    var s0 := s.(cache := s.cache.(trigged := false));
    PlansAreSendable(s.cache);
    ReadSize(Reads(s));
    StatusInFront(s);
    FalseReplyIsTaken(s0, Flush, Reads(s), f, Opposite(s));
    var s1 := FlushRead(s).0;
    var merged := MergeReply(s1.cache, Opposite(s), |Status(s.kind)|);
    TriggerStays(s1.cache, Opposite(s), |Status(s.kind)|);
    var toWrite := WritePlan(merged.data, merged.mask, CACHE_SIZE);
    PlansAreSendable(merged);
    UnflushedTransceive(s1.(cache := DropFull(merged)), Flush, WriteRegister(toWrite));
  }

  lemma ReadSize(addrs: seq<Address>)
    ensures Sendable(ReadRegister(addrs)) ==> Size(ReadRegister(addrs)) <= COMMAND_MAX
  {
  }

  lemma StatusInFront(s: State)
    ensures s.kind == PN533 ==> At(Opposite(s), 0) == 0x00
  {
  }

  lemma SpoiledRegister(s: State) returns (a: Address)
    requires Reads(s) != [] && FlushRead(s).1 == Ok(Opposite(s))
    ensures
      var written := WriteAll(s.regs, Plan(s));
      written[a] != s.regs[a] && written[a] != View(s)[a]
  {
    hide WriteAll, WritePlan, FlushRead, Masked, ReadBack, PlanReply;
    ReadPlanAscends(s.cache.mask, CACHE_SIZE);
    a := Reads(s)[0];
    assert a in Reads(s);
    var n := a - CACHE_MIN;
    WritePlanEffect(s.regs, Merged(s).data, Merged(s).mask, CACHE_SIZE, a);
    ReadBackIsRegister(Inverted(View(s)), s.cache.mask, Status(s.kind), n);
    OppositeBits(s.regs[a], s.cache.mask[n], s.cache.data[n]);
  }

  lemma SpoiledCommand(s: State, cmd: Command)
    requires s.cache.trigged && Sendable(cmd)
    requires
      var (s', r) := Writeback(s);
      r.Ok? && SameDevice(s, s') && UserRuns(s'.log) == UserRuns(s.log)
    ensures Ran(s, User, cmd, Writeback(s).0.regs, Transceive(s, User, cmd).0)
  {
    hide Writeback, Send, Conclude, UserRuns, Answer, RegistersAfter, Sendable;
    var s' := Writeback(s).0;
    UnflushedTransceive(s', User, cmd);
    assert Transceive(s, User, cmd) == Transceive(s', User, cmd);
  }
}
