/** The receive loop of the timed transceive functions (libnfc/chips/pn53x.c):
    it empties the chip's FIFO while the tag may still be sending. */
module FifoDrain {
  import opened Nfc
  import opened Frames

  const FIFO_SIZE := 64
  const SYMBOL_FIFO_LEVEL_RANGE := 128

  // What happens around one ReadRegister command: it is not executed; or some bytes
  // come in before the FIFO is read and some between that and the reading of its
  // level, and the reply arrives or is lost.
  datatype Turn =
    | Fails
    | Works(before: seq<octet>, after: seq<octet>)
    | ReplyLost(before: seq<octet>, after: seq<octet>)

  // The FIFO with its overflow: what does not fit is not queued.
  function Fit(queue: seq<octet>, bytes: seq<octet>): (fitting: seq<octet>)
    requires |queue| <= FIFO_SIZE
    ensures |queue| + |fitting| <= FIFO_SIZE && fitting <= bytes
  {
    if |queue| + |bytes| <= FIFO_SIZE then bytes else bytes[..FIFO_SIZE - |queue|]
  }

  // What a turn leaves in the FIFO, sz bytes being read from it.
  function AfterRead(queue: seq<octet>, turn: Turn, sz: nat): (left: seq<octet>)
    requires sz <= |queue| <= FIFO_SIZE
    ensures |left| <= FIFO_SIZE
  {
    if turn.Fails? then queue
    else
      var rest := (queue + Fit(queue, turn.before))[sz..];
      rest + Fit(rest, turn.after)
  }

  // Behind the end of the list nothing comes in any more.
  function TurnAt(turns: seq<Turn>, i: nat): Turn {
    if i < |turns| then turns[i] else Works([], [])
  }

  function Remaining(turns: seq<Turn>, n: nat): seq<Turn> {
    if n <= |turns| then turns[n..] else []
  }

  // What is in the FIFO after n turns that read nothing from it.
  function AfterPolls(queue: seq<octet>, turns: seq<Turn>, n: nat): (left: seq<octet>)
    requires |queue| <= FIFO_SIZE
    ensures |left| <= FIFO_SIZE
  {
    if n == 0 then queue else AfterRead(AfterPolls(queue, turns, n - 1), TurnAt(turns, n - 1), 0)
  }

  // The chip's answer: a status byte on the PN533, the FIFO bytes, the level.
  function Reply(statusByte: bool, data: seq<octet>, level: octet): (reply: seq<octet>) {
    if statusByte then [0x00] + data + [level] else data + [level]
  }

  lemma ReplyParts(statusByte: bool, data: seq<octet>, level: octet)
    ensures
      var off := if statusByte then 1 else 0;
      var reply := Reply(statusByte, data, level);
      && |reply| == off + |data| + 1
      && reply[off..off + |data|] == data && reply[|data| + off] == level
  {
  }

  class Chip {
    // The PN533 puts a status byte in front of its answers.
    const statusByte: bool
    var queue: seq<octet>
    var turns: seq<Turn>
    // All that has ever been queued.
    ghost var queued: seq<octet>
    // What has been read from the FIFO into a reply that was lost.
    ghost var lost: seq<octet>

    constructor (statusByte: bool, queue: seq<octet>, turns: seq<Turn>)
      requires |queue| <= FIFO_SIZE
      ensures this.statusByte == statusByte && this.queue == queue && this.turns == turns
      ensures queued == queue && lost == []
    {
      this.statusByte, this.queue, this.turns, queued, lost := statusByte, queue, turns, queue, [];
    }

    predicate Valid()
      reads this
    {
      |queue| <= FIFO_SIZE
    }

    function Offset(): nat {
      if statusByte then 1 else 0
    }

    function NextTurn(): Turn
      reads this
    {
      TurnAt(turns, 0)
    }

    method Arrive(bytes: seq<octet>)
      requires Valid()
      modifies this`queue, this`queued
      ensures Valid()
      ensures queue == old(queue) + Fit(old(queue), bytes)
      ensures queued == old(queued) + Fit(old(queue), bytes)
    {
      queued := queued + Fit(queue, bytes);
      queue := queue + Fit(queue, bytes);
    }

    // ReadRegister with sz times FIFOData and then FIFOLevel.
    method ReadFifo(sz: nat) returns (ok: bool, reply: seq<octet>)
      requires Valid() && sz <= |queue|
      modifies this`queue, this`turns, this`queued, this`lost
      ensures Valid()
      ensures turns == Remaining(old(turns), 1)
      ensures queue == AfterRead(old(queue), old(NextTurn()), sz)
      ensures ok <==> old(NextTurn()).Works?
      ensures
        var taken := if old(NextTurn()).Fails? then [] else old(queue)[..sz];
        && old(queued) <= queued
        && old(queue) + queued[|old(queued)|..] == taken + queue
        && (ok ==> reply == Reply(statusByte, taken, |queue|))
        && lost == if ok then old(lost) else old(lost) + taken
      ensures |queued| + Coming(turns) <= |old(queued)| + Coming(old(turns))
    {
      hide Reply;
      ComingNext(turns);
      var turn := NextTurn();
      if turns != [] {
        turns := turns[1..];
      }
      if turn.Fails? {
        return false, [];
      }
      ghost var q0 := queue;
      Arrive(turn.before);
      ghost var fit0 := Fit(q0, turn.before);
      var data := queue[..sz];
      queue := queue[sz..];
      ghost var fit1 := Fit(queue, turn.after);
      Arrive(turn.after);
      TwoArrivals(old(queued), q0, fit0, fit1, sz);
      ok := turn.Works?;
      reply := if ok then Reply(statusByte, data, |queue|) else [];
      if !ok {
        lost := lost + data;
      }
    }
  }

  lemma TwoArrivals(queued: seq<octet>, queue: seq<octet>, fit0: seq<octet>, fit1: seq<octet>, sz: nat)
    requires sz <= |queue|
    ensures (queue + fit0)[..sz] == queue[..sz]
    ensures queued <= queued + fit0 + fit1
    ensures queue + (queued + fit0 + fit1)[|queued|..] == queue[..sz] + ((queue + fit0)[sz..] + fit1)
  {
    assert (queued + fit0 + fit1)[|queued|..] == fit0 + fit1;
  }

  /** Before the loop: polls the FIFO level, up to polls times, until it is not zero. It
      gives up only after all of them, each of which failed or left the FIFO empty;
      otherwise the level is that after the poll it stops at, the n-th. */
  method PollLevel(chip: Chip, polls: nat) returns (sz: nat, ghost n: nat)
    requires chip.Valid() && chip.queued == chip.queue
    modifies chip`queue, chip`turns, chip`queued, chip`lost
    ensures chip.lost == old(chip.lost)
    ensures chip.Valid() && chip.queued == chip.queue && sz <= |chip.queue|
    ensures n <= polls
    ensures chip.queue == AfterPolls(old(chip.queue), old(chip.turns), n)
    ensures chip.turns == Remaining(old(chip.turns), n)
    ensures if sz == 0 then n == polls else n > 0 && TurnAt(old(chip.turns), n - 1).Works? && sz == |chip.queue|
    ensures forall i: nat :: i < (if sz == 0 then n else n - 1) ==>
      !TurnAt(old(chip.turns), i).Works? || AfterPolls(old(chip.queue), old(chip.turns), i + 1) == []
    ensures |chip.queued| + Coming(chip.turns) <= old(|chip.queued| + Coming(chip.turns))
    ensures IsSuffix(chip.turns, old(chip.turns))
  {
    hide Reply, Coming, AfterRead, AfterPolls, Remaining, TurnAt, IsSuffix;
    sz, n := 0, 0;
    NoPolls(chip.queue, chip.turns);
    var i := 0;
    while i < polls && sz == 0
      invariant i <= polls && n == i
      invariant chip.Valid() && chip.queued == chip.queue && sz <= |chip.queue|
      invariant chip.queue == AfterPolls(old(chip.queue), old(chip.turns), n)
      invariant chip.turns == Remaining(old(chip.turns), n)
      invariant sz > 0 ==> n > 0 && TurnAt(old(chip.turns), n - 1).Works? && sz == |chip.queue|
      invariant forall k: nat :: k < (if sz == 0 then n else n - 1) ==>
        !TurnAt(old(chip.turns), k).Works? || AfterPolls(old(chip.queue), old(chip.turns), k + 1) == []
      invariant |chip.queued| + Coming(chip.turns) <= old(|chip.queued| + Coming(chip.turns))
      invariant IsSuffix(chip.turns, old(chip.turns)) && chip.lost == old(chip.lost)
      decreases polls - i
    {
      ghost var before := chip.queued;
      NextRemaining(old(chip.queue), old(chip.turns), n);
      var read, reply := chip.ReadFifo(0);
      AllQueued(before, chip.queue, chip.queued);
      if read {
        ReplyParts(chip.statusByte, [], |chip.queue|);
        sz := reply[chip.Offset()];
      }
      i := i + 1;
      n := i;
    }
  }

  lemma NextRemaining(queue: seq<octet>, turns: seq<Turn>, n: nat)
    requires |queue| <= FIFO_SIZE
    ensures TurnAt(Remaining(turns, n), 0) == TurnAt(turns, n)
    ensures Remaining(Remaining(turns, n), 1) == Remaining(turns, n + 1)
    ensures AfterPolls(queue, turns, n + 1) == AfterRead(AfterPolls(queue, turns, n), TurnAt(turns, n), 0)
    ensures IsSuffix(Remaining(turns, n + 1), turns)
  {
  }

  lemma NoPolls(queue: seq<octet>, turns: seq<Turn>)
    requires |queue| <= FIFO_SIZE
    ensures AfterPolls(queue, turns, 0) == queue && Remaining(turns, 0) == turns && IsSuffix(turns, turns)
  {
  }

  lemma NextSuffix(turns: seq<Turn>, all: seq<Turn>)
    requires IsSuffix(turns, all)
    ensures IsSuffix(Remaining(turns, 1), all)
    ensures |Remaining(turns, 1)| == if turns == [] then 0 else |turns| - 1
    ensures TurnAt(turns, 0).Works? || TurnAt(turns, 0) in all
  {
  }

  lemma AllQueued(before: seq<octet>, queue: seq<octet>, queued: seq<octet>)
    requires before <= queued && before + queued[|before|..] == [] + queue
    ensures queue == queued
  {
    assert queued == before + queued[|before|..];
  }

  /** Reads out the FIFO until it is found empty. Every byte that has been queued by
      then is in rx, once and in order. If the loop ends early, what is missing is
      exactly what the reply carried that did not arrive, and what is still queued.
      The caller's buffer has to have room for whatever comes: its size is not known
      here. */
  method Drain(chip: Chip, polls: nat, rx: array<octet>) returns (ok: bool, szRx: nat)
    requires chip.Valid() && chip.queued == chip.queue && chip.lost == []
    requires rx.Length >= |chip.queued| + Coming(chip.turns)
    modifies chip`queue, chip`turns, chip`queued, chip`lost, rx
    ensures chip.Valid()
    ensures szRx <= rx.Length && rx[..szRx] + chip.lost + chip.queue == chip.queued
    ensures ok ==> chip.lost == [] && chip.queue == [] && rx[..szRx] == chip.queued
    ensures !ok ==> exists turn :: turn in old(chip.turns) && !turn.Works? && (turn.Fails? ==> chip.lost == [])
    ensures (forall turn :: turn in old(chip.turns) ==> turn.Works?) ==> ok
    ensures ok ==> forall m: nat :: FirstBytes(old(chip.queue), old(chip.turns), polls, m) ==>
      AfterPolls(old(chip.queue), old(chip.turns), m) <= rx[..szRx]
  {
    hide Reply, Coming, AfterRead, AfterPolls, Remaining, TurnAt, IsSuffix;
    ghost var room := |chip.queued| + Coming(chip.turns);
    var sz: nat, n := PollLevel(chip, polls);
    ghost var polled := chip.queued;
    FirstPoll(chip.queue, old(chip.queue), old(chip.turns), polls, n, sz);
    szRx := 0;
    ghost var first := true;
    while true
      invariant chip.Valid() && chip.lost == [] && polled <= chip.queued
      invariant szRx <= rx.Length && rx[..szRx] + chip.queue == chip.queued
      invariant sz <= |chip.queue| && (sz > 0 || first)
      invariant |chip.queued| + Coming(chip.turns) <= room
      invariant IsSuffix(chip.turns, old(chip.turns))
      decreases |chip.turns|, |chip.queue|, first
    {
      first := false;
      NextSuffix(chip.turns, old(chip.turns));
      ok, sz, szRx := DrainOnce(chip, sz, rx, szRx);
      if !ok {
        return;
      }
      if sz == 0 {
        NothingLeft(rx[..szRx], chip.queue);
        return;
      }
    }
  }

  lemma NothingLeft(got: seq<octet>, queue: seq<octet>)
    requires queue == []
    ensures got + [] + queue == got && got + queue == got
  {
  }

  // One turn of the loop: sz bytes are read, and the level behind them is level.
  method DrainOnce(chip: Chip, sz: nat, rx: array<octet>, szRx: nat) returns (ok: bool, level: nat, szRx': nat)
    requires chip.Valid() && chip.lost == [] && sz <= |chip.queue|
    requires szRx <= rx.Length && rx[..szRx] + chip.queue == chip.queued
    requires |chip.queued| + Coming(chip.turns) <= rx.Length
    modifies chip`queue, chip`turns, chip`queued, chip`lost, rx
    ensures chip.Valid() && chip.turns == Remaining(old(chip.turns), 1) && old(chip.queued) <= chip.queued
    ensures |chip.queued| + Coming(chip.turns) <= |old(chip.queued)| + Coming(old(chip.turns))
    ensures szRx' <= rx.Length && |chip.queued| == szRx' + |chip.lost| + |chip.queue|
    ensures rx[..szRx'] + chip.lost + chip.queue == chip.queued
    ensures ok ==> level == |chip.queue| && szRx' == szRx + sz && chip.lost == []
    ensures ok ==> rx[..szRx'] + chip.queue == chip.queued
    ensures !ok ==>
      var turn := old(chip.NextTurn());
      !turn.Works? && (turn.Fails? ==> chip.lost == [])
  {
    hide Reply, Coming, AfterRead, Remaining;
    ghost var queue, queued, got := chip.queue, chip.queued, rx[..szRx];
    ghost var taken := if chip.NextTurn().Fails? then [] else queue[..sz];
    var reply;
    ok, reply := chip.ReadFifo(sz);
    TakenFromQueue(got, taken, queue, queued, chip.queue, chip.queued);
    level, szRx' := 0, szRx;
    if !ok {
      assert chip.lost == taken;
      return;
    }
    ReplyParts(chip.statusByte, taken, |chip.queue|);
    CopyBehind(rx, szRx, reply[chip.Offset()..chip.Offset() + sz]);
    szRx' := szRx + sz % SYMBOL_FIFO_LEVEL_RANGE;
    level := reply[sz + chip.Offset()];
    assert rx[..szRx'] + [] + chip.queue == rx[..szRx'] + chip.queue;
  }

  /** The same loop in the function that counts bits: only whole bytes are received,
      szRx of them. */
  method DrainBits(chip: Chip, polls: nat, rx: array<octet>) returns (ok: bool, szRxBits: nat, ghost szRx: nat)
    requires chip.Valid() && chip.queued == chip.queue && chip.lost == []
    requires rx.Length >= |chip.queued| + Coming(chip.turns)
    modifies chip`queue, chip`turns, chip`queued, chip`lost, rx
    ensures chip.Valid() && szRxBits == 8 * szRx
    ensures szRx <= rx.Length && rx[..szRx] + chip.lost + chip.queue == chip.queued
    ensures ok ==> chip.lost == [] && chip.queue == [] && rx[..szRx] == chip.queued
    ensures !ok ==> exists turn :: turn in old(chip.turns) && !turn.Works? && (turn.Fails? ==> chip.lost == [])
    ensures (forall turn :: turn in old(chip.turns) ==> turn.Works?) ==> ok
    ensures ok ==> forall m: nat :: FirstBytes(old(chip.queue), old(chip.turns), polls, m) ==>
      AfterPolls(old(chip.queue), old(chip.turns), m) <= rx[..szRx]
  {
    hide Coming, AfterPolls;
    var bytes;
    ok, bytes := Drain(chip, polls, rx);
    szRx, szRxBits := bytes, bytes * 8;
  }

  method CopyBehind(rx: array<octet>, szRx: nat, data: seq<octet>)
    requires szRx + |data| <= rx.Length
    modifies rx
    ensures rx[..szRx + |data|] == old(rx[..szRx]) + data
  {
    CopyInto(rx, szRx, data);
    assert rx[..szRx] == old(rx[..szRx]);
    assert rx[..szRx + |data|] == rx[..szRx] + rx[szRx..szRx + |data|];
  }

  // The first bytes come in at the m-th of the polls, all polls working up to then.
  predicate FirstBytes(queue: seq<octet>, turns: seq<Turn>, polls: nat, m: nat)
    requires |queue| <= FIFO_SIZE
  {
    && 0 < m <= polls
    && (forall i: nat :: i < m ==> TurnAt(turns, i).Works?)
    && AfterPolls(queue, turns, m) != [] && (m > 1 ==> AfterPolls(queue, turns, m - 1) == [])
  }

  lemma {:induction false} EmptyBefore(queue: seq<octet>, turns: seq<Turn>, a: nat, b: nat)
    requires |queue| <= FIFO_SIZE && a <= b && AfterPolls(queue, turns, b) == []
    ensures AfterPolls(queue, turns, a) == []
    decreases b
  {
    if a < b {
      EmptyBefore(queue, turns, a, b - 1);
    }
  }

  lemma FirstPoll(polled: seq<octet>, queue: seq<octet>, turns: seq<Turn>, polls: nat, n: nat, sz: nat)
    requires |queue| <= FIFO_SIZE && n <= polls && polled == AfterPolls(queue, turns, n)
    requires if sz == 0 then n == polls else n > 0 && TurnAt(turns, n - 1).Works? && sz == |polled|
    requires forall i: nat :: i < (if sz == 0 then n else n - 1) ==>
      !TurnAt(turns, i).Works? || AfterPolls(queue, turns, i + 1) == []
    ensures forall m: nat :: FirstBytes(queue, turns, polls, m) ==> m == n && sz == |polled|
  {
    forall m: nat | FirstBytes(queue, turns, polls, m)
      ensures m == n && sz == |polled|
    {
      hide AfterPolls, AfterRead;
      assert TurnAt(turns, m - 1).Works?;
      var turn := TurnAt(turns, m - 1);
      if n < m {
        EmptyBefore(queue, turns, n, m - 1);
      }
    }
  }

  // One read moves news from the queue to what has been taken.
  lemma TakenFromQueue(taken: seq<octet>, news: seq<octet>, queue: seq<octet>, queued: seq<octet>,
                       queue': seq<octet>, queued': seq<octet>)
    requires taken + queue == queued && queued <= queued'
    requires queue + queued'[|queued|..] == news + queue'
    ensures taken + news + queue' == queued'
    ensures |queued'| == |taken| + |news| + |queue'|
  {
    assert taken + (queue + queued'[|queued|..]) == (taken + queue) + queued'[|queued|..];
    assert taken + (news + queue') == (taken + news) + queue';
  }

  // An upper bound for what can still be queued.
  function Coming(turns: seq<Turn>): nat {
    if turns == [] then 0
    else (if turns[0].Fails? then 0 else |turns[0].before| + |turns[0].after|) + Coming(turns[1..])
  }

  lemma ComingNext(turns: seq<Turn>)
    ensures turns != [] ==> Coming(turns[1..]) <= Coming(turns)
  {
  }

  predicate IsSuffix(s: seq<Turn>, all: seq<Turn>) {
    |s| <= |all| && s == all[|all| - |s|..]
  }
}
