/** What a flush of the register cache sends, whatever the transport does: at most
    one ReadRegister and then at most one WriteRegister, both far below the frame
    limit, and on success nothing is left pending. */
module FlushTraffic {
  import opened Bits
  import opened RegisterCache
  import opened Protocol
  import opened LineSafety
  import opened WriteThrough

  // The frames that flushes have put on the line.
  function FlushFrames(log: seq<Event>): seq<Command> {
    if log == [] then []
    else
      var last := log[|log| - 1];
      FlushFrames(log[..|log| - 1]) + if last.Frame? && last.who == Flush then [last.cmd] else []
  }

  lemma NextFlushFrame()
    ensures forall log: seq<Event>, e: Event {:trigger log + [e]} ::
      FlushFrames(log + [e]) == FlushFrames(log) + if e.Frame? && e.who == Flush then [e.cmd] else []
  {
    forall log: seq<Event>, e: Event {:trigger log + [e]}
      ensures FlushFrames(log + [e]) == FlushFrames(log) + if e.Frame? && e.who == Flush then [e.cmd] else []
    {
      assert (log + [e])[..|log|] == log;
    }
  }

  // Between s and s', flushes have sent nothing, or just cmd.
  predicate AtMost(s: State, s': State, who: Who, cmd: Command) {
    || FlushFrames(s'.log) == FlushFrames(s.log)
    || (who == Flush && FlushFrames(s'.log) == FlushFrames(s.log) + [cmd])
  }

  lemma SendFrameAtMost(s: State, who: Who, cmd: Command)
    ensures AtMost(s, SendFrame(s, who, cmd).0, who, cmd)
  {
    hide SendFrame, FlushFrames;
    SendFrameLog(s, who, cmd);
    NextFlushFrame();
  }

  lemma ConcludeNone(s: State, cmd: Command)
    ensures FlushFrames(Conclude(s, cmd).0.log) == FlushFrames(s.log)
  {
    hide Conclude, FlushFrames;
    ConcludeLog(s, cmd);
    NextFlushFrame();
  }

  lemma WakeNone(s: State)
    ensures FlushFrames(Wake(s).0.log) == FlushFrames(s.log)
  {
    hide Wake, FlushFrames;
    WakeLog(s);
    NextFlushFrame();
  }

  lemma AwakeTransceiveAtMost(s: State, who: Who, cmd: Command)
    requires !s.cache.trigged && s.power == NORMAL
    ensures AtMost(s, Transceive(s, who, cmd).0, who, cmd)
  {
    hide SendFrame, Conclude, FlushFrames;
    SendFrameAtMost(s, who, cmd);
    var (s2, sent) := SendFrame(s, who, cmd);
    assert Send(s, who, cmd) == (s2, sent);
    ConcludeNone(s2, cmd);
  }

  lemma SendAtMost(s: State, who: Who, cmd: Command)
    requires !s.cache.trigged
    ensures AtMost(s, Send(s, who, cmd).0, who, cmd)
  {
    hide SendFrame, Wake, Transceive, FlushFrames;
    WakeNone(s);
    WakeLog(s);
    var s1 := Wake(s).0;
    AwakeTransceiveAtMost(s1.(samMode := PSM_NORMAL), WakeUp, SAM_NORMAL);
    SendFrameAtMost(s, who, cmd);
    SendFrameAtMost(s1, who, cmd);
    SendFrameAtMost(SamConfiguration(s1, WakeUp, PSM_NORMAL).0, who, cmd);
  }

  lemma UnflushedAtMost(s: State, who: Who, cmd: Command)
    requires !s.cache.trigged
    ensures AtMost(s, Transceive(s, who, cmd).0, who, cmd)
  {
    hide Send, Conclude, FlushFrames;
    SendAtMost(s, who, cmd);
    ConcludeNone(Send(s, who, cmd).0, cmd);
  }

  lemma MergedIsDropped(c: Cache, reply: seq<byte>, off: nat)
    ensures NothingPending(DropFull(MergeReply(c, reply, off)))
    ensures ReadPlan(c.mask, CACHE_SIZE) == [] ==> NothingPending(DropFull(c))
  {
    hide MergedValue, ReadBack;
    if ReadPlan(c.mask, CACHE_SIZE) == [] {
      NothingToMerge(c, reply, off);
    }
  }

  // A read of a flush: registers of the cache area in ascending order.
  predicate FlushRead(cmd: Command) {
    cmd.ReadRegister? && Ascending(cmd.addrs) && (forall a :: a in cmd.addrs ==> Cached(a)) && Size(cmd) <= 125
  }

  predicate FlushWrite(cmd: Command) {
    cmd.WriteRegister? && Ascending(Targets(cmd.writes)) && (forall w :: w in cmd.writes ==> Cached(w.0))
    && Size(cmd) <= 187
  }

  lemma PlansAreFlushes(data: Slots, mask: Slots, mask': Slots)
    ensures FlushRead(ReadRegister(ReadPlan(mask, CACHE_SIZE)))
    ensures FlushWrite(WriteRegister(WritePlan(data, mask', CACHE_SIZE)))
  {
    ReadPlanAscends(mask, CACHE_SIZE);
    WritePlanAscends(data, mask', CACHE_SIZE);
  }

  /** The frames of one flush, under any transport, and what success means. */
  lemma WritebackTraffic(s: State) returns (sent: seq<Command>)
    ensures
      var (s', r) := Writeback(s);
      && FlushFrames(s'.log) == FlushFrames(s.log) + sent
      && (|| sent == []
          || (|sent| == 1 && (FlushRead(sent[0]) || FlushWrite(sent[0])))
          || (|sent| == 2 && FlushRead(sent[0]) && FlushWrite(sent[1])))
      && (r.Ok? ==> NothingPending(s'.cache))
  {
    hide FlushFrames, Transceive, ReadPlan, WritePlan, MergeReply, DropFull, NothingPending, FlushRead, FlushWrite;
    var s0 := s.(cache := s.cache.(trigged := false));
    var toRead := ReadPlan(s.cache.mask, CACHE_SIZE);
    UnflushedAtMost(s0, Flush, ReadRegister(toRead));
    UnflushedKeepsCache(s0, Flush, ReadRegister(toRead));
    var (s1, read) := if toRead == [] then (s0, Ok([])) else Transceive(s0, Flush, ReadRegister(toRead));
    PlansAreFlushes(s1.cache.data, s.cache.mask, s1.cache.mask);
    sent := if FlushFrames(s1.log) == FlushFrames(s.log) then [] else [ReadRegister(toRead)];
    if read.Ok? {
      var off := |Status(s.kind)|;
      MergedIsDropped(s1.cache, read.reply, off);
      MergeStaysUntriggered(s1.cache, read.reply, off);
      var merged := if toRead == [] then s1.cache else MergeReply(s1.cache, read.reply, off);
      var toWrite := WritePlan(merged.data, merged.mask, CACHE_SIZE);
      var s2 := s1.(cache := DropFull(merged));
      PlansAreFlushes(merged.data, s.cache.mask, merged.mask);
      UnflushedAtMost(s2, Flush, WriteRegister(toWrite));
      UnflushedKeepsCache(s2, Flush, WriteRegister(toWrite));
      var s3 := if toWrite == [] then s2 else Transceive(s2, Flush, WriteRegister(toWrite)).0;
      if FlushFrames(s3.log) != FlushFrames(s2.log) {
        sent := sent + [WriteRegister(toWrite)];
      }
    }
  }

  // Only a flush touches the cache.
  lemma UnflushedKeepsCache(s: State, who: Who, cmd: Command)
    requires !s.cache.trigged
    ensures Transceive(s, who, cmd).0.cache == s.cache
  {
    hide Send, Conclude;
    SendKeepsCache(s, who, cmd);
    ConcludeLog(Send(s, who, cmd).0, cmd);
  }

  lemma SendKeepsCache(s: State, who: Who, cmd: Command)
    requires !s.cache.trigged
    ensures Send(s, who, cmd).0.cache == s.cache
  {
    hide SendFrame, Wake, Transceive;
    WakeLog(s);
    var s1 := Wake(s).0;
    AwakeKeepsCache(s1.(samMode := PSM_NORMAL), WakeUp, SAM_NORMAL);
    SendFrameLog(s, who, cmd);
    SendFrameLog(s1, who, cmd);
    SendFrameLog(SamConfiguration(s1, WakeUp, PSM_NORMAL).0, who, cmd);
  }

  lemma AwakeKeepsCache(s: State, who: Who, cmd: Command)
    requires !s.cache.trigged && s.power == NORMAL
    ensures Transceive(s, who, cmd).0.cache == s.cache
  {
    hide SendFrame, Conclude;
    SendFrameLog(s, who, cmd);
    var (s2, sent) := SendFrame(s, who, cmd);
    assert Send(s, who, cmd) == (s2, sent);
    ConcludeLog(s2, cmd);
  }
}
