/** The write-back register cache of libnfc/chips/pn53x.c: masked writes are
    collected per register and merged with what the chip holds when they are
    flushed. */
module RegisterCache {
  import opened Bits

  type Address = a: int | 0 <= a < 0x10000

  // The chip's registers: plain memory that only WriteRegister changes.
  type Registers = r: seq<byte> | |r| == 0x10000 witness seq(0x10000, _ => 0)

  // PN53X_CACHE_REGISTER_MIN_ADDRESS, _MAX_ADDRESS and _SIZE.
  const CACHE_MIN: Address := 0x6301
  const CACHE_MAX: Address := 0x633E
  const CACHE_SIZE := 62

  type Slots = s: seq<byte> | |s| == CACHE_SIZE witness seq(CACHE_SIZE, _ => 0)

  // wb_data, wb_mask and wb_trigged.
  datatype Cache = Cache(data: Slots, mask: Slots, trigged: bool)

  predicate Cached(a: Address) {
    CACHE_MIN <= a <= CACHE_MAX
  }

  // The value of a register after a masked write.
  function Masked(current: byte, mask: byte, value: byte): byte {
    (value & mask) | (current & !mask)
  }

  function Merge(regs: Registers, c: Cache, a: Address): byte {
    if Cached(a) then Masked(regs[a], c.mask[a - CACHE_MIN], c.data[a - CACHE_MIN]) else regs[a]
  }

  // The registers as they will be once the cache is flushed.
  function Effective(c: Cache, regs: Registers): Registers {
    seq(0x10000, a requires 0 <= a < 0x10000 => Merge(regs, c, a))
  }

  // --- Storing ---

  // A masked write into the cache area: what is pending and not overwritten stays.
  function Stored(data: byte, pending: byte, mask: byte, value: byte): byte {
    (data & pending & !mask) | (value & mask)
  }

  function Pending(pending: byte, mask: byte): byte {
    pending | mask
  }

  function Store(c: Cache, a: Address, mask: byte, value: byte): Cache
    requires Cached(a)
  {
    var n := a - CACHE_MIN;
    Cache(c.data[n := Stored(c.data[n], c.mask[n], mask, value)], c.mask[n := Pending(c.mask[n], mask)], true)
  }

  /** A stored write acts on the effective registers like a write to the chip. */
  lemma StoreIsMaskedWrite(c: Cache, regs: Registers, a: Address, mask: byte, value: byte)
    requires Cached(a)
    ensures
      var eff := Effective(c, regs);
      Effective(Store(c, a, mask, value), regs) == eff[a := Masked(eff[a], mask, value)]
  {
    var n := a - CACHE_MIN;
    hide Masked, Stored, Pending;
    StoreBits(c.data[n], c.mask[n], mask, value, regs[a]);
  }

  lemma StoreBits(data: byte, pending: byte, mask: byte, value: byte, current: byte)
    ensures Masked(current, Pending(pending, mask), Stored(data, pending, mask, value))
         == Masked(Masked(current, pending, data), mask, value)
  {
  }

  // --- Flushing ---

  predicate Partial(mask: byte) {
    mask != 0x00 && mask != 0xff
  }

  // The registers below slot n that have to be read before they are written.
  function ReadPlan(mask: Slots, n: nat): (plan: seq<Address>)
    requires n <= CACHE_SIZE
    ensures |plan| <= n
  {
    if n == 0 then []
    else if Partial(mask[n - 1]) then ReadPlan(mask, n - 1) + [CACHE_MIN + n - 1]
    else ReadPlan(mask, n - 1)
  }

  // The registers below slot n that are written, with their values.
  function WritePlan(data: Slots, mask: Slots, n: nat): (plan: seq<(Address, byte)>)
    requires n <= CACHE_SIZE
    ensures |plan| <= n
  {
    if n == 0 then []
    else if mask[n - 1] == 0xff then WritePlan(data, mask, n - 1) + [(CACHE_MIN + n - 1, data[n - 1])]
    else WritePlan(data, mask, n - 1)
  }

  // Byte i of a reply; what a short reply does not fill is left zero here.
  function At(reply: seq<byte>, i: nat): byte {
    if i < |reply| then reply[i] else 0
  }

  // The value read for slot n, in a reply whose values start at off.
  function ReadBack(mask: Slots, reply: seq<byte>, off: nat, n: nat): byte
    requires n < CACHE_SIZE
  {
    At(reply, off + |ReadPlan(mask, n)|)
  }

  function MergedValue(c: Cache, reply: seq<byte>, off: nat, n: nat): byte
    requires n < CACHE_SIZE
  {
    if Partial(c.mask[n]) then Masked(ReadBack(c.mask, reply, off, n), c.mask[n], c.data[n]) else c.data[n]
  }

  // A partial mask becomes full when the register has to change, else empty.
  function MergedMask(c: Cache, reply: seq<byte>, off: nat, n: nat): byte
    requires n < CACHE_SIZE
  {
    if !Partial(c.mask[n]) then c.mask[n]
    else if MergedValue(c, reply, off, n) != ReadBack(c.mask, reply, off, n) then 0xff
    else 0x00
  }

  // The cache once the values read are merged in.
  function MergeReply(c: Cache, reply: seq<byte>, off: nat): Cache {
    Cache(seq(CACHE_SIZE, n requires 0 <= n < CACHE_SIZE => MergedValue(c, reply, off, n)),
          seq(CACHE_SIZE, n requires 0 <= n < CACHE_SIZE => MergedMask(c, reply, off, n)),
          c.trigged)
  }

  // The cache once the full masks are taken out.
  function DropFull(c: Cache): Cache {
    c.(mask := seq(CACHE_SIZE, n requires 0 <= n < CACHE_SIZE => if c.mask[n] == 0xff then 0x00 else c.mask[n]))
  }

  predicate NothingPending(c: Cache) {
    forall n :: 0 <= n < CACHE_SIZE ==> c.mask[n] == 0x00
  }

  // What the chip answers to a ReadRegister, and does on a WriteRegister.
  function ReadAll(regs: Registers, addrs: seq<Address>): seq<byte> {
    seq(|addrs|, i requires 0 <= i < |addrs| => regs[addrs[i]])
  }

  function WriteAll(regs: Registers, writes: seq<(Address, byte)>): Registers
    decreases |writes|
  {
    if writes == [] then regs
    else
      var last := writes[|writes| - 1];
      WriteAll(regs, writes[..|writes| - 1])[last.0 := last.1]
  }

  lemma EffectiveWhenClean(c: Cache, regs: Registers)
    requires NothingPending(c)
    ensures Effective(c, regs) == regs
  {
    MaskedByNothing();
    hide Masked;
  }

  lemma MaskedByNothing()
    ensures forall current: byte, value: byte :: Masked(current, 0x00, value) == current
    ensures forall current: byte, value: byte :: Masked(current, 0xff, value) == value
  {
  }

  // What the write plan leaves in each register.
  lemma {:induction false} WritePlanEffect(regs: Registers, data: Slots, mask: Slots, n: nat, a: Address)
    requires n <= CACHE_SIZE
    ensures WriteAll(regs, WritePlan(data, mask, n))[a]
         == if CACHE_MIN <= a < CACHE_MIN + n && mask[a - CACHE_MIN] == 0xff then data[a - CACHE_MIN] else regs[a]
  {
    if n > 0 {
      WritePlanEffect(regs, data, mask, n - 1, a);
      var plan := WritePlan(data, mask, n);
      if mask[n - 1] == 0xff {
        assert plan[..|plan| - 1] == WritePlan(data, mask, n - 1);
      }
    }
  }

  // Each value of the read plan is found where the merge looks for it.
  lemma {:induction false} ReadPlanPosition(regs: Registers, mask: Slots, n: nat, m: nat)
    requires n < m <= CACHE_SIZE && Partial(mask[n])
    ensures |ReadPlan(mask, n)| < |ReadPlan(mask, m)|
    ensures ReadPlan(mask, m)[|ReadPlan(mask, n)|] == CACHE_MIN + n
    decreases m
  {
    if n < m - 1 {
      ReadPlanPosition(regs, mask, n, m - 1);
    }
  }

  // The full reply to the read plan: the PN533 puts a status byte in front.
  function PlanReply(regs: Registers, mask: Slots, status: seq<byte>): seq<byte> {
    status + ReadAll(regs, ReadPlan(mask, CACHE_SIZE))
  }

  lemma ReadBackIsRegister(regs: Registers, mask: Slots, status: seq<byte>, n: nat)
    requires n < CACHE_SIZE && Partial(mask[n])
    ensures ReadBack(mask, PlanReply(regs, mask, status), |status|, n) == regs[CACHE_MIN + n]
  {
    ReadPlanPosition(regs, mask, n, CACHE_SIZE);
  }

  /** Reading the partially masked registers, merging, and writing the full ones
      leaves the chip with the effective registers, whatever the cache held. */
  lemma FlushDelivers(c: Cache, regs: Registers, status: seq<byte>)
    ensures
      var merged := MergeReply(c, PlanReply(regs, c.mask, status), |status|);
      && WriteAll(regs, WritePlan(merged.data, merged.mask, CACHE_SIZE)) == Effective(c, regs)
      && NothingPending(DropFull(merged))
  {
    hide Masked, WriteAll, WritePlan, ReadBack, PlanReply;
    var reply := PlanReply(regs, c.mask, status);
    var merged := MergeReply(c, reply, |status|);
    var written := WriteAll(regs, WritePlan(merged.data, merged.mask, CACHE_SIZE));
    MaskedByNothing();
    forall a: Address
      ensures written[a] == Effective(c, regs)[a]
    {
      WritePlanEffect(regs, merged.data, merged.mask, CACHE_SIZE, a);
      if Cached(a) && Partial(c.mask[a - CACHE_MIN]) {
        ReadBackIsRegister(regs, c.mask, status, a - CACHE_MIN);
      }
    }
  }

  // --- What a flush sends ---

  predicate Ascending(addrs: seq<Address>) {
    forall i, j :: 0 <= i < j < |addrs| ==> addrs[i] < addrs[j]
  }

  function Targets(writes: seq<(Address, byte)>): seq<Address> {
    seq(|writes|, i requires 0 <= i < |writes| => writes[i].0)
  }

  lemma {:induction false} ReadPlanAscends(mask: Slots, n: nat)
    requires n <= CACHE_SIZE
    ensures Ascending(ReadPlan(mask, n))
    ensures forall a :: a in ReadPlan(mask, n) <==> CACHE_MIN <= a < CACHE_MIN + n && Partial(mask[a - CACHE_MIN])
  {
    hide Partial;
    if n > 0 {
      ReadPlanAscends(mask, n - 1);
      var before := ReadPlan(mask, n - 1);
      assert forall i :: 0 <= i < |before| ==> before[i] in before;
    }
  }

  lemma {:induction false} WritePlanAscends(data: Slots, mask: Slots, n: nat)
    requires n <= CACHE_SIZE
    ensures Ascending(Targets(WritePlan(data, mask, n)))
    ensures forall w :: w in WritePlan(data, mask, n) <==> IsPlanned(data, mask, n, w)
  {
    hide Ascending, Targets, IsPlanned;
    if n == 0 {
      NothingPlanned(data, mask);
    } else {
      WritePlanAscends(data, mask, n - 1);
      var before := WritePlan(data, mask, n - 1);
      forall w
        ensures w in WritePlan(data, mask, n) <==> IsPlanned(data, mask, n, w)
      {
        PlannedNext(data, mask, n, w);
      }
      if mask[n - 1] == 0xff {
        forall i | 0 <= i < |before|
          ensures before[i].0 < CACHE_MIN + n - 1
        {
          assert before[i] in before;
          PlannedNext(data, mask, n, before[i]);
        }
        AscendingNext(before, CACHE_MIN + n - 1, data[n - 1]);
      }
    }
  }

  // A write of one of the first n registers: its mask is full, its data is written.
  predicate IsPlanned(data: Slots, mask: Slots, n: nat, w: (Address, byte))
    requires n <= CACHE_SIZE
  {
    CACHE_MIN <= w.0 < CACHE_MIN + n && mask[w.0 - CACHE_MIN] == 0xff && w.1 == data[w.0 - CACHE_MIN]
  }

  lemma NothingPlanned(data: Slots, mask: Slots)
    ensures Ascending(Targets(WritePlan(data, mask, 0)))
    ensures forall w :: !IsPlanned(data, mask, 0, w)
  {
  }

  lemma PlannedNext(data: Slots, mask: Slots, n: nat, w: (Address, byte))
    requires 0 < n <= CACHE_SIZE
    ensures IsPlanned(data, mask, n, w) <==>
      IsPlanned(data, mask, n - 1, w) || (mask[n - 1] == 0xff && w == (CACHE_MIN + n - 1, data[n - 1]))
    ensures IsPlanned(data, mask, n - 1, w) ==> w.0 < CACHE_MIN + n - 1
  {
  }

  lemma AscendingNext(before: seq<(Address, byte)>, a: Address, value: byte)
    requires Ascending(Targets(before))
    requires forall i :: 0 <= i < |before| ==> before[i].0 < a
    ensures Ascending(Targets(before + [(a, value)]))
  {
    assert Targets(before + [(a, value)]) == Targets(before) + [a];
  }

  /** A register that was partially masked is written only if it has to change. */
  lemma NoNeedlessWrites(c: Cache, regs: Registers, status: seq<byte>, w: (Address, byte))
    requires
      var merged := MergeReply(c, PlanReply(regs, c.mask, status), |status|);
      w in WritePlan(merged.data, merged.mask, CACHE_SIZE)
    ensures Cached(w.0) && w.1 == Effective(c, regs)[w.0]
    ensures Partial(c.mask[w.0 - CACHE_MIN]) ==> w.1 != regs[w.0]
  {
    hide Masked, ReadBack, PlanReply;
    MaskedByNothing();
    var merged := MergeReply(c, PlanReply(regs, c.mask, status), |status|);
    WritePlanAscends(merged.data, merged.mask, CACHE_SIZE);
    var n := w.0 - CACHE_MIN;
    if Partial(c.mask[n]) {
      ReadBackIsRegister(regs, c.mask, status, n);
    }
  }
}
