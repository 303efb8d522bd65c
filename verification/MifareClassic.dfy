/** utils/nfc-mfclassic.c: dumping a MIFARE Classic card and writing a dump back,
    sector by sector, each sector behind its own keys. */
module MifareClassic {
  import opened Nfc
  import opened WritePlan

  type Block = b: seq<octet> | |b| == 16 witness seq(16, _ => 0)
  type Key = k: seq<octet> | |k| == 6 witness seq(6, _ => 0)

  const ZERO_BLOCK: Block := seq(16, _ => 0)

  // A dump has room for the largest card.
  type Dump = d: seq<Block> | |d| == 256 witness seq<Block>(256, _ => ZERO_BLOCK)

  function KeyA(b: Block): Key { b[..6] }
  function AccessBits(b: Block): seq<octet> { b[6..10] }
  function KeyB(b: Block): Key { b[10..] }

  function KeyOf(b: Block, useKeyA: bool): Key {
    if useKeyA then KeyA(b) else KeyB(b)
  }

  // --- Sectors: 4 blocks each below block 128, 16 each from there on ---

  predicate IsFirstBlock(block: nat) {
    if block < 128 then block % 4 == 0 else block % 16 == 0
  }

  predicate IsTrailerBlock(block: nat) {
    if block < 128 then (block + 1) % 4 == 0 else (block + 1) % 16 == 0
  }

  function TrailerBlock(block: nat): nat {
    if block < 128 then block + (3 - block % 4) else block + (15 - block % 16)
  }

  // The number of the sector that holds a block.
  function Sector(block: nat): nat {
    if block < 128 then block / 4 else 32 + (block - 128) / 16
  }

  /** The predicates describe one division into sectors. */
  lemma SectorsAreConsistent(block: nat)
    ensures block <= TrailerBlock(block) && IsTrailerBlock(TrailerBlock(block))
    ensures Sector(TrailerBlock(block)) == Sector(block)
    ensures IsTrailerBlock(block) <==> TrailerBlock(block) == block
    ensures IsTrailerBlock(block) ==> !IsFirstBlock(block)
    ensures block < 256 ==> TrailerBlock(block) < 256
    ensures IsFirstBlock(block + 1) <==> IsTrailerBlock(block)
    ensures TrailerBlock(block + 1) == TrailerBlock(block) <==> !IsTrailerBlock(block)
    ensures Sector(block + 1) == Sector(block) + if IsTrailerBlock(block) then 1 else 0
  {
    hide IsFirstBlock, IsTrailerBlock, TrailerBlock, Sector;
    SectorsEnd(block);
    if block < 128 {
      SmallSectors(block);
    } else {
      LargeSectors(block);
    }
  }

  lemma SectorsEnd(block: nat)
    ensures block <= TrailerBlock(block) && IsTrailerBlock(TrailerBlock(block))
    ensures IsTrailerBlock(block) <==> TrailerBlock(block) == block
    ensures IsTrailerBlock(block) ==> !IsFirstBlock(block)
    ensures block < 256 ==> TrailerBlock(block) < 256
  {
  }

  lemma SmallSectors(block: nat)
    requires block < 128
    ensures TrailerBlock(block) < 128 && Sector(TrailerBlock(block)) == Sector(block)
    ensures IsFirstBlock(block + 1) <==> IsTrailerBlock(block)
    ensures TrailerBlock(block + 1) == TrailerBlock(block) <==> !IsTrailerBlock(block)
    ensures Sector(block + 1) == Sector(block) + if IsTrailerBlock(block) then 1 else 0
  {
  }

  lemma LargeSectors(block: nat)
    requires block >= 128
    ensures Sector(TrailerBlock(block)) == Sector(block)
    ensures IsFirstBlock(block + 1) <==> IsTrailerBlock(block)
    ensures TrailerBlock(block + 1) == TrailerBlock(block) <==> !IsTrailerBlock(block)
    ensures Sector(block + 1) == Sector(block) + if IsTrailerBlock(block) then 1 else 0
  {
  }

  lemma SameSectorSameTrailer(a: nat, b: nat)
    ensures Sector(a) == Sector(b) <==> TrailerBlock(a) == TrailerBlock(b)
  {
    hide Sector, TrailerBlock;
    TrailerOfSector(a);
    TrailerOfSector(b);
  }

  lemma TrailerOfSector(block: nat)
    ensures TrailerBlock(block) == if Sector(block) < 32 then 4 * Sector(block) + 3 else 16 * Sector(block) - 369
  {
  }

  // Sectors by their numbers.
  lemma SectorOnPlan(block: nat)
    ensures TrailerBlock(block) == Trailer(Sector(block))
    ensures IsTrailerBlock(block) <==> block == Trailer(Sector(block))
    ensures IsFirstBlock(block) ==> block <= FirstData(Sector(block))
    ensures block > 0 ==> FirstData(Sector(block)) <= block
    ensures block < 256 ==> Sector(block) < 40
  {
    hide IsFirstBlock, IsTrailerBlock, TrailerBlock, Sector, FirstData, Trailer;
    SectorsEnd(block);
    if block < 128 {
      SmallOnPlan(block);
    } else {
      LargeOnPlan(block);
    }
  }

  lemma SmallOnPlan(block: nat)
    requires block < 128
    ensures TrailerBlock(block) == Trailer(Sector(block)) && Sector(block) < 40
    ensures IsFirstBlock(block) ==> block <= FirstData(Sector(block))
    ensures block > 0 ==> FirstData(Sector(block)) <= block
  {
  }

  lemma LargeOnPlan(block: nat)
    requires block >= 128
    ensures TrailerBlock(block) == Trailer(Sector(block))
    ensures IsFirstBlock(block) ==> block <= FirstData(Sector(block))
    ensures FirstData(Sector(block)) <= block
    ensures block < 256 ==> Sector(block) < 40
  {
  }

  // print_success_or_failure: the counter grows by the size of a sector.
  function Count(counter: nat): nat {
    counter + if counter < 128 then 4 else 16
  }

  // The counter after so many successful sectors.
  function Counted(sectors: nat): nat {
    if sectors == 0 then 0 else Count(Counted(sectors - 1))
  }

  lemma {:induction false} CountedSectors(sectors: nat)
    ensures Counted(sectors) == if sectors <= 32 then 4 * sectors else 128 + 16 * (sectors - 32)
  {
    if sectors > 0 {
      CountedSectors(sectors - 1);
    }
  }

  /** Whichever way the sectors are gone through, the counter ends at the number of
      blocks. */
  lemma AllBlocksCounted(last: nat)
    requires IsTrailerBlock(last)
    ensures Counted(Sector(last) + 1) == last + 1
  {
    CountedSectors(Sector(last) + 1);
  }

  // With a key file, the operations of read_card before it comes to a block: one
  // for each block above, and one more for each trailer.
  function ReadsBefore(last: nat, block: int): nat
    requires -1 <= block <= last
  {
    SectorsAscend(block + 1, last + 1);
    last - block + Sector(last + 1) - Sector(block + 1)
  }

  lemma NextOperation(last: nat, block: nat)
    requires block <= last
    ensures ReadsBefore(last, block - 1) == ReadsBefore(last, block) + if IsTrailerBlock(block) then 2 else 1
  {
    SectorsAreConsistent(block);
  }

  lemma SectorsAscend(a: nat, b: nat)
    requires a <= b
    ensures Sector(a) <= Sector(b)
  {
  }

  // With a key file, the operations of write_card before it comes to a block: one
  // for each sector begun and one for each block but block 0.
  function WritesBefore(block: nat): nat {
    if block == 0 then 0 else block + Sector(block - 1)
  }

  lemma WritesNext(block: nat, last: nat)
    requires block <= last
    ensures WritesBefore(block + 1)
         == WritesBefore(block) + (if IsFirstBlock(block) then 1 else 0) + (if block == 0 then 0 else 1)
    ensures WritesBefore(block + 1) <= WritesBefore(last + 1)
  {
    SectorsAscend(block, last);
    if block == 0 {
      FirstSector();
    } else {
      SectorsAreConsistent(block - 1);
    }
  }

  // The first block of the sector that ends with trailer t.
  function FirstBlock(t: nat): nat
    requires IsTrailerBlock(t)
  {
    if t < 128 then t - 3 else t - 15
  }

  lemma FirstBlockOf(t: nat)
    requires IsTrailerBlock(t)
    ensures FirstBlock(t) <= t && IsFirstBlock(FirstBlock(t)) && TrailerBlock(FirstBlock(t)) == t
  {
  }

  // --- The card ---

  // Instead of an open sector: none is open, or the card has to be selected first.
  const CLOSED := -1
  const HALTED := -2

  class Card {
    const last: nat
    const disturbances: seq<Disturbance>
    var blocks: Dump
    // the trailer of the sector that is open, CLOSED or HALTED
    var open: int
    // operations so far
    var clock: nat
    // the blocks whose reads have been answered, in order
    ghost var answered: seq<nat>

    constructor (last: nat, blocks: Dump, disturbances: seq<Disturbance>)
      ensures this.last == last && this.blocks == blocks && this.disturbances == disturbances
      ensures open == CLOSED && clock == 0 && answered == []
    {
      this.last, this.blocks, this.disturbances, open, clock, answered := last, blocks, disturbances, CLOSED, 0, [];
    }

    // The disturbance of the n-th operation from now.
    function Ahead(n: nat): Disturbance
      reads this`clock
    {
      DisturbanceAt(disturbances, clock + n)
    }

    ghost predicate Quiet()
      reads this`clock
    {
      QuietFrom(clock)
    }

    ghost predicate QuietFrom(n: nat) {
      forall i :: n <= i < |disturbances| ==> disturbances[i].Undisturbed?
    }

    // nfc_initiator_select_passive_target: wakes the card, and any sector is closed.
    method Select() returns (ok: bool)
      modifies this`open, this`clock
      ensures clock == old(clock) + 1
      ensures ok <==> old(Ahead(0)).Undisturbed?
      ensures open == match old(Ahead(0)) {
                        case Unheard => old(open)
                        case Reset => HALTED
                        case _ => CLOSED
                      }
    {
      ok := Ahead(0).Undisturbed?;
      open := if Ahead(0).Unheard? then open else if Ahead(0).Reset? then HALTED else CLOSED;
      clock := clock + 1;
    }

    // MC_AUTH_A and MC_AUTH_B: opens a sector to whoever has its present key. Whatever
    // the card refuses halts it.
    method Authenticate(block: nat, useKeyA: bool, key: Key) returns (ok: bool)
      requires block < 256
      modifies this`open, this`clock
      ensures clock == old(clock) + 1
      ensures
        var fits := old(open) != HALTED && block <= last && key == KeyOf(TrailerOf(block), useKeyA);
        && (ok <==> old(Ahead(0)).Undisturbed? && fits)
        && open == match old(Ahead(0)) {
             case Unheard => old(open)
             case Reset => HALTED
             case _ => if fits then TrailerBlock(block) else HALTED
           }
    {
      var fits := open != HALTED && block <= last && key == KeyOf(TrailerOf(block), useKeyA);
      ok := Ahead(0).Undisturbed? && fits;
      if !Ahead(0).Unheard? {
        open := if fits && !Ahead(0).Reset? then TrailerBlock(block) else HALTED;
      }
      clock := clock + 1;
    }

    function TrailerOf(block: nat): Block
      requires block < 256
      reads this`blocks
    {
      SectorsAreConsistent(block);
      blocks[TrailerBlock(block)]
    }

    // What the card shows of a block: never the keys.
    function Visible(block: nat): Block
      requires block < 256
      reads this`blocks
    {
      if IsTrailerBlock(block) then seq(6, _ => 0) + AccessBits(blocks[block]) + seq(6, _ => 0) else blocks[block]
    }

    // MC_READ: only in the open sector.
    method Read(block: nat) returns (ok: bool, data: Block)
      requires block < 256
      modifies this`open, this`clock, this`answered
      ensures clock == old(clock) + 1
      ensures
        var within := block <= last && old(open) == TrailerBlock(block);
        && (ok <==> old(Ahead(0)).Undisturbed? && within)
        && open == match old(Ahead(0)) {
             case Unheard => old(open)
             case Reset => HALTED
             case _ => if within then old(open) else HALTED
           }
      ensures ok ==> data == Visible(block)
      ensures answered == if ok then old(answered) + [block] else old(answered)
    {
      var within := block <= last && open == TrailerBlock(block);
      ok := Ahead(0).Undisturbed? && within;
      data := if ok then Visible(block) else ZERO_BLOCK;
      if ok {
        answered := answered + [block];
      }
      if Ahead(0).Reset? || (!Ahead(0).Unheard? && !within) {
        open := HALTED;
      }
      clock := clock + 1;
    }

    // MC_WRITE: only in the open sector.
    method Write(block: nat, data: Block) returns (ok: bool)
      requires block < 256
      modifies this`open, this`clock, this`blocks
      ensures clock == old(clock) + 1
      ensures
        var within := block <= last && old(open) == TrailerBlock(block);
        && (ok <==> old(Ahead(0)).Undisturbed? && within)
        && match old(Ahead(0)) {
             case Unheard => open == old(open) && blocks == old(blocks)
             case Reset => open == HALTED && blocks == old(blocks)
             case _ =>
               && open == (if within then old(open) else HALTED)
               && blocks == (if within then old(blocks)[block := data] else old(blocks))
           }
    {
      var within := block <= last && open == TrailerBlock(block);
      ok := Ahead(0).Undisturbed? && within;
      if within && (Ahead(0).Undisturbed? || Ahead(0).Unanswered?) {
        blocks := blocks[block := data];
      }
      if Ahead(0).Reset? || (!Ahead(0).Unheard? && !within) {
        open := HALTED;
      }
      clock := clock + 1;
    }
  }

  // The key file opens every sector of the card.
  predicate KeysFit(keys: Dump, blocks: Dump, last: nat, useKeyA: bool) {
    forall t: nat :: t <= last && t < 256 && IsTrailerBlock(t) ==> KeyOf(keys[t], useKeyA) == KeyOf(blocks[t], useKeyA)
  }

  // --- The tool ---

  class Tool {
    const card: Card
    const useKeyA: bool
    const useKeyFile: bool
    // the keys that are tried without a key file
    const defaultKeys: seq<Key>
    var keys: Dump
    var dump: Dump

    constructor (card: Card, useKeyA: bool, useKeyFile: bool, defaultKeys: seq<Key>, keys: Dump, dump: Dump)
      ensures this.card == card && this.useKeyA == useKeyA && this.useKeyFile == useKeyFile
      ensures this.defaultKeys == defaultKeys && this.keys == keys && this.dump == dump
    {
      this.card, this.useKeyA, this.useKeyFile, this.defaultKeys := card, useKeyA, useKeyFile, defaultKeys;
      this.keys, this.dump := keys, dump;
    }

    // Whether the tool has, or will guess, the present key of a block's sector.
    predicate CanOpen(block: nat)
      requires block < 256
      reads this`keys, card`blocks
    {
      var key := KeyOf(card.TrailerOf(block), useKeyA);
      if useKeyFile then KeyOf(keys[TrailerIndex(block)], useKeyA) == key else key in defaultKeys
    }

    // Whether it can open the whole card.
    predicate CanOpenAll()
      requires card.last < 256
      reads this`keys, card`blocks
    {
      forall t: nat :: t <= card.last && IsTrailerBlock(t) ==> CanOpen(t)
    }

    /** authenticate: with the key file the key stands in the sector's trailer there.
        Without one the default keys are tried, and the one that works is kept in
        the entry of the block asked for. */
    method Authenticate(block: nat) returns (ok: bool)
      requires block < 256
      modifies this`keys, card`open, card`clock
      ensures ok ==> card.open == TrailerBlock(block)
      ensures useKeyFile ==> keys == old(keys) && card.clock == old(card.clock) + 1
      ensures useKeyFile ==>
        (ok <==>
         old(card.Ahead(0)).Undisturbed? && old(card.open) != HALTED && block <= card.last && old(CanOpen(block)))
      ensures card.clock >= old(card.clock)
      ensures old(card.Quiet()) && old(card.open) != HALTED ==> (ok <==> block <= card.last && old(CanOpen(block)))
      ensures ok && useKeyFile ==> KeyOf(keys[TrailerIndex(block)], useKeyA) == KeyOf(card.TrailerOf(block), useKeyA)
      ensures !useKeyFile && ok ==> KeyOf(keys[block], useKeyA) == KeyOf(card.TrailerOf(block), useKeyA)
      ensures forall b :: 0 <= b < 256 && b != block ==> keys[b] == old(keys)[b]
      ensures !ok ==> keys == old(keys)
    {
      if useKeyFile {
        ok := card.Authenticate(block, useKeyA, KeyOf(keys[TrailerIndex(block)], useKeyA));
        return;
      }
      var keyIndex := 0;
      while keyIndex < |defaultKeys|
        invariant 0 <= keyIndex <= |defaultKeys|
        invariant keys == old(keys)
        invariant card.clock >= old(card.clock)
        invariant old(card.Quiet()) && old(card.open) != HALTED ==> card.open != HALTED
        invariant old(card.Quiet()) && old(card.open) != HALTED && block <= card.last ==>
          KeyOf(card.TrailerOf(block), useKeyA) !in defaultKeys[..keyIndex]
      {
        var key := defaultKeys[keyIndex];
        ok := card.Authenticate(block, useKeyA, key);
        if ok {
          var b := keys[block];
          keys := keys[block := if useKeyA then key + b[6..] else b[..10] + key];
          assert KeyOf(keys[block], useKeyA) == key;
          return;
        }
        var _ := card.Select();
        keyIndex := keyIndex + 1;
      }
      ok := false;
    }

    function TrailerIndex(block: nat): (t: nat)
      requires block < 256
      ensures t == TrailerBlock(block) < 256
    {
      SectorsAreConsistent(block);
      TrailerBlock(block)
    }

    // What a dump of the card holds for a block, with the keys from the key file.
    function Dumped(block: nat): Block
      requires block < 256
      reads this`keys, card`blocks
    {
      if IsTrailerBlock(block) then KeyA(keys[block]) + AccessBits(card.blocks[block]) + KeyB(keys[block])
      else card.blocks[block]
    }

    // The keys of the sectors whose trailers lie above block are right.
    ghost predicate KeysFitAbove(block: int)
      requires -1 <= block <= card.last < 256
      reads this`keys, card`blocks
    {
      forall t: nat :: block < t <= card.last && IsTrailerBlock(t) ==>
        KeyOf(keys[t], useKeyA) == KeyOf(card.blocks[t], useKeyA)
    }

    // The dump holds the blocks that have been read, and is as before elsewhere.
    ghost predicate ReadInto(before: Dump, got: seq<nat>)
      reads this`keys, this`dump, card`blocks
    {
      forall b: nat :: b < 256 ==> dump[b] == if b in got then Dumped(b) else before[b]
    }

    // A trailer in read_card. A read that fails is reported and no more: the sector
    // may still be open.
    method DumpTrailer(block: nat, ghost got: seq<nat>, ghost before: Dump) returns (ok: bool, ghost read: bool)
      requires block <= card.last < 256 && IsTrailerBlock(block) && card.open != HALTED
      requires ReadInto(before, got) && block !in got && KeysFitAbove(block)
      modifies this`keys, this`dump, card`open, card`clock, card`answered
      ensures useKeyFile ==> keys == old(keys)
      ensures forall b :: 0 <= b < 256 && b != block ==> keys[b] == old(keys)[b]
      ensures read ==> ok
      ensures forall b :: 0 <= b < 256 ==> CanOpen(b) == old(CanOpen(b))
      ensures card.answered == if read then old(card.answered) + [block] else old(card.answered)
      ensures ReadInto(before, if read then got + [block] else got)
      ensures ok ==> KeysFitAbove(block - 1)
      ensures ok ==> card.open == block || card.open == HALTED
      ensures useKeyFile ==> (ok <==> old(card.Ahead(0)).Undisturbed? && old(CanOpen(block)))
      ensures useKeyFile && ok ==>
        && card.clock == old(card.clock) + 2
        && (read <==> old(card.Ahead(1)).Undisturbed?)
        && (card.open == HALTED <==> old(card.Ahead(1)).Reset?)
      ensures card.clock >= old(card.clock)
      ensures old(card.Quiet()) ==> (ok <==> old(CanOpen(block))) && (ok ==> read && card.open == block)
    {
      hide IsTrailerBlock, TrailerBlock;
      SectorsAreConsistent(block);
      read := false;
      ok := Authenticate(block);
      if !ok {
        return;
      }
      var success, data := card.Read(block);
      read := success;
      if success {
        dump := dump[block := KeyA(keys[block]) + AccessBits(data) + KeyB(keys[block])];
        assert AccessBits(data) == AccessBits(card.blocks[block]);
      }
    }

    // Any other block: a read that fails ends it all.
    method DumpData(block: nat, ghost got: seq<nat>, ghost before: Dump) returns (ok: bool)
      requires block <= card.last < 256 && !IsTrailerBlock(block)
      requires ReadInto(before, got) && block !in got && KeysFitAbove(block)
      modifies this`dump, card`open, card`clock, card`answered
      ensures ok <==> old(card.Ahead(0)).Undisturbed? && old(card.open) == TrailerBlock(block)
      ensures card.answered == if ok then old(card.answered) + [block] else old(card.answered)
      ensures ReadInto(before, if ok then got + [block] else got)
      ensures KeysFitAbove(block - 1)
      ensures ok ==> card.open == old(card.open)
      ensures card.clock == old(card.clock) + 1
    {
      hide IsTrailerBlock, TrailerBlock;
      var read, data := card.Read(block);
      ok := read;
      if read {
        dump := dump[block := data];
      }
    }

    // What has been read when read_card comes to a block: all data blocks above.
    ghost predicate ReadAbove(block: int, got: seq<nat>)
      requires -1 <= block <= card.last < 256
    {
      && (forall b :: b in got ==> block < b <= card.last)
      && (forall b: nat :: block < b <= card.last && !IsTrailerBlock(b) ==> b in got)
    }

    lemma ReadAboveNext(block: nat, got: seq<nat>, news: seq<nat>)
      requires block <= card.last < 256 && ReadAbove(block, got)
      requires forall b :: b in news ==> b == block
      requires !IsTrailerBlock(block) ==> block in news
      ensures ReadAbove(block - 1, got + news)
    {
      hide IsTrailerBlock;
    }

    // The sector is open, or its trailer was the last block and could not be read.
    ghost predicate AtBlock(block: int)
      requires -1 <= block <= card.last < 256
      reads card`open
    {
      if block == card.last then card.open != HALTED
      else card.open == TrailerBlock(block + 1) || (card.open == HALTED && IsTrailerBlock(block + 1))
    }

    // With a key file: the disturbances so far have done no harm, and they say which
    // trailers have been read and whether the last one was left open.
    ghost predicate HarmlessAbove(block: int, got: seq<nat>, clock: nat)
      requires -1 <= block <= card.last < 256
      reads card`open, card`clock
    {
      Harmless(block, got, clock, card.clock, card.open)
    }

    ghost predicate Harmless(block: int, got: seq<nat>, clock: nat, now: nat, open: int)
      requires -1 <= block <= card.last < 256
    {
      && now == clock + ReadsBefore(card.last, block)
      && NoHarmAbove(block, got, clock)
      && (block < card.last && IsTrailerBlock(block + 1) ==> (open == HALTED <==> !StaysOpen(block + 1, clock)))
    }

    lemma TrailerHarmless(block: nat, got: seq<nat>, news: seq<nat>, clock: nat, now: nat, open: int, open': int)
      requires block <= card.last < 256 && IsTrailerBlock(block)
      requires Harmless(block, got, clock, now, open)
      ensures Opens(block, clock) <==> DisturbanceAt(card.disturbances, now).Undisturbed?
      ensures block < card.last ==> StaysOpen(block + 1, clock)
      ensures
        && Opens(block, clock)
        && block !in got && (news == [] || news == [block])
        && (news != [] <==> DisturbanceAt(card.disturbances, now + 1).Undisturbed?)
        && (open' == HALTED <==> DisturbanceAt(card.disturbances, now + 1).Reset?)
        ==> Harmless(block - 1, got + news, clock, now + 2, open')
    {
      hide TrailerBlock, ReadsBefore, Sector, NoHarmAbove;
      SectorsAreConsistent(block);
      SectorsAreConsistent(block + 1);
      NextOperation(card.last, block);
      if Opens(block, clock) && block !in got && (news == [] || news == [block])
         && (news != [] <==> DisturbanceAt(card.disturbances, now + 1).Undisturbed?)
      {
        NoHarmNext(block, got, news, clock);
      }
    }

    lemma DataHarmless(block: nat, got: seq<nat>, clock: nat, now: nat, open: int)
      requires block <= card.last < 256 && !IsTrailerBlock(block) && IsTrailerBlock(card.last)
      requires Harmless(block, got, clock, now, open)
      requires open == TrailerBlock(block + 1) || (open == HALTED && IsTrailerBlock(block + 1))
      ensures Opens(block, clock) <==> DisturbanceAt(card.disturbances, now).Undisturbed?
      ensures block < card.last
      ensures StaysOpen(block + 1, clock) <==> open == TrailerBlock(block)
      ensures Opens(block, clock) && StaysOpen(block + 1, clock) && block !in got ==>
        Harmless(block - 1, got + [block], clock, now + 1, open)
    {
      hide IsTrailerBlock, TrailerBlock, ReadsBefore, Sector, NoHarmAbove;
      SectorsAreConsistent(block);
      SectorsAreConsistent(block + 1);
      NextOperation(card.last, block);
      if Opens(block, clock) && StaysOpen(block + 1, clock) && block !in got {
        NoHarmNext(block, got, [block], clock);
      }
    }

    ghost predicate NoHarmAbove(block: int, got: seq<nat>, clock: nat)
      requires -1 <= block <= card.last < 256
    {
      && (forall b: nat :: block < b <= card.last ==> Opens(b, clock))
      && (forall b: nat :: block + 1 < b <= card.last ==> StaysOpen(b, clock))
      && (forall b: nat :: block < b <= card.last && IsTrailerBlock(b) ==> (b in got <==> Answered(b, clock)))
    }

    lemma NoHarmNext(block: nat, got: seq<nat>, news: seq<nat>, clock: nat)
      requires block <= card.last < 256
      requires NoHarmAbove(block, got, clock) && Opens(block, clock)
      requires block < card.last ==> StaysOpen(block + 1, clock)
      requires block !in got && forall b :: b in news ==> b == block
      requires IsTrailerBlock(block) ==> (block in news <==> Answered(block, clock))
      ensures NoHarmAbove(block - 1, got + news, clock)
    {
      hide Opens, StaysOpen, Answered, IsTrailerBlock;
    }

    // Without disturbances: all blocks above have been read.
    ghost predicate AllReadAbove(block: int, got: seq<nat>)
      requires -1 <= block <= card.last < 256
      reads card`open
    {
      && (forall b: nat :: block < b <= card.last ==> b in got)
      && (block < card.last ==> card.open == TrailerBlock(block + 1))
    }

    predicate CanOpenTrailer(b: nat)
      requires b < 256
      reads this`keys, card`blocks
    {
      IsTrailerBlock(b) ==> CanOpen(b)
    }

    // What one turn of read_card does to the two predicates above, and when it ends.
    twostate predicate TurnDone(block: nat, got: seq<nat>, clock: nat, ok: bool, got': seq<nat>)
      requires block <= card.last < 256
      reads this, card
    {
      && (useKeyFile && old(HarmlessAbove(block, got, clock)) ==>
            && (ok <==> old(CanOpenTrailer(block)) && Opens(block, clock)
                        && (block < card.last ==> StaysOpen(block + 1, clock)))
            && (ok ==> HarmlessAbove(block - 1, got', clock)))
      && (old(card.Quiet() && AllReadAbove(block, got)) ==>
            && (ok <==> old(CanOpenTrailer(block)))
            && (ok ==> AllReadAbove(block - 1, got')))
    }

    method DumpTrailerAt(block: nat, ghost got: seq<nat>, ghost before: Dump, ghost clock: nat)
      returns (ok: bool, ghost news: seq<nat>)
      requires block <= card.last < 256 && IsTrailerBlock(block) && IsTrailerBlock(card.last)
      requires ReadInto(before, got) && block !in got && KeysFitAbove(block) && AtBlock(block)
      modifies this`keys, this`dump, card`open, card`clock, card`answered
      ensures useKeyFile ==> keys == old(keys)
      ensures forall b :: 0 <= b < 256 && b != block ==> keys[b] == old(keys)[b]
      ensures forall b :: 0 <= b < 256 ==> CanOpenTrailer(b) == old(CanOpenTrailer(b))
      ensures card.answered == old(card.answered) + news && (news == [] || news == [block])
      ensures ReadInto(before, got + news)
      ensures ok ==> KeysFitAbove(block - 1) && AtBlock(block - 1)
      ensures TurnDone(block, got, clock, ok, got + news)
      ensures card.clock >= old(card.clock)
    {
      hide IsTrailerBlock, TrailerBlock, CanOpen, Sector, Harmless, ReadInto, KeysFitAbove, Opens, StaysOpen;
      SectorsAreConsistent(block);
      SectorsAreConsistent(block + 1);
      ghost var read;
      ghost var now, open := card.clock, card.open;
      ok, read := DumpTrailer(block, got, before);
      news := if read then [block] else [];
      assert got + [] == got;
      if useKeyFile && old(HarmlessAbove(block, got, clock)) {
        TrailerHarmless(block, got, news, clock, now, open, card.open);
      }
    }

    method DumpDataAt(block: nat, ghost got: seq<nat>, ghost before: Dump, ghost clock: nat)
      returns (ok: bool, ghost news: seq<nat>)
      requires block <= card.last < 256 && !IsTrailerBlock(block) && IsTrailerBlock(card.last)
      requires ReadInto(before, got) && block !in got && KeysFitAbove(block) && AtBlock(block)
      modifies this`dump, card`open, card`clock, card`answered
      ensures card.answered == old(card.answered) + news && news == if ok then [block] else []
      ensures ReadInto(before, got + news)
      ensures ok ==> KeysFitAbove(block - 1) && AtBlock(block - 1)
      ensures TurnDone(block, got, clock, ok, got + news)
      ensures card.clock >= old(card.clock)
    {
      hide IsTrailerBlock, TrailerBlock, CanOpen, Sector, Harmless, ReadInto, KeysFitAbove, Opens, StaysOpen;
      DataBelowTrailer(block);
      ghost var now, open := card.clock, card.open;
      ok := DumpData(block, got, before);
      news := if ok then [block] else [];
      assert got + [] == got;
      if useKeyFile && old(HarmlessAbove(block, got, clock)) {
        DataHarmless(block, got, clock, now, open);
      }
    }

    lemma DataBelowTrailer(block: nat)
      requires block <= card.last && !IsTrailerBlock(block) && IsTrailerBlock(card.last)
      ensures block < card.last && TrailerBlock(block + 1) == TrailerBlock(block)
    {
      SectorsAreConsistent(block);
    }

    // One turn of read_card.
    method DumpBlock(block: nat, ghost got: seq<nat>, ghost before: Dump, ghost clock: nat)
      returns (ok: bool, ghost got': seq<nat>)
      requires block <= card.last < 256 && IsTrailerBlock(card.last)
      requires ReadInto(before, got) && ReadAbove(block, got) && AtBlock(block) && KeysFitAbove(block)
      modifies this`keys, this`dump, card`open, card`clock, card`answered
      ensures useKeyFile ==> keys == old(keys)
      ensures forall b :: 0 <= b < block ==> keys[b] == old(keys)[b]
      ensures ReadInto(before, got')
      ensures exists news :: card.answered == old(card.answered) + news && got' == got + news
      ensures ok ==> ReadAbove(block - 1, got') && AtBlock(block - 1) && KeysFitAbove(block - 1)
      ensures TurnDone(block, got, clock, ok, got')
      ensures card.clock >= old(card.clock)
      ensures forall b :: 0 <= b < 256 ==> CanOpenTrailer(b) == old(CanOpenTrailer(b))
    {
      hide KeysFitAbove, AtBlock;
      assert block !in got;
      hide IsTrailerBlock, TrailerBlock, CanOpenTrailer, Dumped, KeyOf, Sector, ReadAbove, TurnDone, ReadInto;
      ghost var news;
      if IsTrailerBlock(block) {
        ok, news := DumpTrailerAt(block, got, before, clock);
      } else {
        ok, news := DumpDataAt(block, got, before, clock);
      }
      got' := got + news;
      if ok {
        ReadAboveNext(block, got, news);
      }
    }

    /** read_card: from the last block to the first. Whatever disturbs the card, the
        dump holds afterwards exactly the blocks whose reads were answered. Success
        means all data blocks and all keys are right, and a full counter, but not
        that all trailers have been read: a trailer is in the dump if and only if its
        own read was answered. With a key file this is decided by the disturbances
        alone; without disturbances all is read if all sectors can be reachable. */
    method ReadCard() returns (ok: bool, counter: nat)
      requires IsTrailerBlock(card.last) && card.last < 256 && card.open != HALTED
      modifies this`keys, this`dump, card`open, card`clock, card`answered
      ensures useKeyFile ==> keys == old(keys)
      ensures old(card.answered) <= card.answered && ReadInto(old(dump), card.answered[|old(card.answered)|..])
      ensures ok ==> counter == card.last + 1 && KeysFit(keys, card.blocks, card.last, useKeyA)
      ensures ok ==> forall b: nat :: b <= card.last && !IsTrailerBlock(b) ==> dump[b] == card.blocks[b]
      ensures old(card.Quiet()) ==> (ok <==> old(CanOpenAll()))
      ensures old(card.Quiet()) && ok ==> forall b: nat :: b <= card.last ==> dump[b] == Dumped(b)
      ensures useKeyFile ==> (ok <==> old(CanOpenAll()) && ReadSurvives(old(card.clock)))
      ensures useKeyFile && ok ==> forall t: nat :: t <= card.last && IsTrailerBlock(t) ==>
        (t in card.answered[|old(card.answered)|..] <==> Answered(t, old(card.clock)))
    {
      hide SectorsAbove, Count, Counted, IsTrailerBlock, TrailerBlock, KeysFitAbove, KeysFit, CanOpen, Dumped, ReadInto;
      hide ReadsBefore, AtBlock, Opens, StaysOpen, Answered, CanOpenTrailer, CanOpenAll, HarmlessAbove, AllReadAbove;
      NothingCounted(card.last);
      AllOpen();
      ok, counter := true, 0;
      ghost var clock, got: seq<nat> := card.clock, [];
      var block: int := card.last;
      NothingAbove();
      while block >= 0
        invariant -1 <= block <= card.last
        invariant useKeyFile ==> keys == old(keys)
        invariant card.answered == old(card.answered) + got && ReadInto(old(dump), got)
        invariant ReadAbove(block, got) && AtBlock(block) && KeysFitAbove(block)
        invariant counter == Counted(SectorsAbove(card.last, block))
        invariant card.clock >= old(card.clock)
        invariant old(card.Quiet()) ==> AllReadAbove(block, got)
        invariant useKeyFile ==> HarmlessAbove(block, got, clock)
        invariant useKeyFile || old(card.Quiet()) ==>
          forall b: nat :: block < b <= card.last ==> old(CanOpenTrailer(b))
        invariant forall b :: 0 <= b < 256 ==> CanOpenTrailer(b) == old(CanOpenTrailer(b))
      {
        SectorsAboveNext(card.last, block);
        if IsTrailerBlock(block) && block != card.last {
          counter := Count(counter);
        }
        ok, got := DumpBlock(block, got, old(dump), clock);
        if !ok {
          assert card.answered[|old(card.answered)|..] == got;
          return;
        }
        block := block - 1;
      }
      FirstSector();
      AllAbove(old(dump));
      DataIsDumped();
      AllHarmless(got, clock);
      assert card.answered[|old(card.answered)|..] == got;
      counter := Count(counter);
      AllSectorsCounted(card.last);
    }

    // What read_card needs of the operations for block b, with a key file, when it
    // has been started at clock: the authentication, or the read of a data block, is
    // undisturbed; the read of a trailer may fail as long as the sector stays open.
    predicate Opens(b: nat, clock: nat)
      requires b <= card.last
    {
      DisturbanceAt(card.disturbances, clock + ReadsBefore(card.last, b)).Undisturbed?
    }

    predicate StaysOpen(b: nat, clock: nat)
      requires b <= card.last
    {
      IsTrailerBlock(b) ==> !DisturbanceAt(card.disturbances, clock + ReadsBefore(card.last, b) + 1).Reset?
    }

    predicate Answered(t: nat, clock: nat)
      requires t <= card.last
    {
      DisturbanceAt(card.disturbances, clock + ReadsBefore(card.last, t) + 1).Undisturbed?
    }

    predicate ReadSurvives(clock: nat) {
      forall b: nat :: b <= card.last ==> Opens(b, clock) && StaysOpen(b, clock)
    }

    lemma AllOpen()
      requires card.last < 256
      ensures (forall b: nat :: b <= card.last ==> CanOpenTrailer(b)) <==> CanOpenAll()
    {
      forall t: nat | t <= card.last
        ensures CanOpenTrailer(t) <==> (IsTrailerBlock(t) ==> CanOpen(t))
      {
      }
    }

    lemma AllHarmless(got: seq<nat>, clock: nat)
      requires card.last < 256
      ensures HarmlessAbove(-1, got, clock) ==>
        && ReadSurvives(clock)
        && forall t: nat :: t <= card.last && IsTrailerBlock(t) ==> (t in got <==> Answered(t, clock))
      ensures AllReadAbove(-1, got) ==> forall b: nat :: b <= card.last ==> b in got
    {
      hide Opens, Answered;
      FirstSector();
    }

    lemma DataIsDumped()
      ensures forall b: nat :: b < 256 && !IsTrailerBlock(b) ==> Dumped(b) == card.blocks[b]
    {
    }

    lemma NothingAbove()
      requires card.last < 256 && card.open != HALTED
      ensures KeysFitAbove(card.last) && ReadInto(dump, []) && AtBlock(card.last) && AllReadAbove(card.last, [])
      ensures HarmlessAbove(card.last, [], card.clock)
    {
    }

    // Whether the sectors begun below block can be reachable.
    ghost predicate CanOpenBelow(block: nat)
      requires block <= 256
      reads this`keys, card`blocks
    {
      forall b: nat :: b < block && IsFirstBlock(b) ==> CanOpen(b)
    }

    lemma FirstBlocksDecide()
      requires card.last < 256 && IsTrailerBlock(card.last)
      ensures CanOpenAll() <==> CanOpenBelow(card.last + 1)
      ensures CanOpenBelow(0)
    {
      forall b: nat | b <= card.last
        ensures CanOpen(b) <==> CanOpen(TrailerBlock(b))
        ensures TrailerBlock(b) <= card.last && IsTrailerBlock(TrailerBlock(b))
      {
        TrailerWithinCard(b, card.last);
        SectorsAreConsistent(TrailerBlock(b));
      }
      forall t: nat | t <= card.last && IsTrailerBlock(t)
        ensures FirstBlock(t) <= t && IsFirstBlock(FirstBlock(t)) && TrailerBlock(FirstBlock(t)) == t
      {
        FirstBlockOf(t);
      }
    }

    lemma KeysOpenCard()
      requires card.last < 256
      ensures CanOpenAll() <==> KeysAtHand(card, useKeyA, useKeyFile, defaultKeys, keys)
    {
      forall t: nat | t <= card.last && IsTrailerBlock(t)
        ensures CanOpen(t) <==>
          if useKeyFile then KeyOf(keys[t], useKeyA) == KeyOf(card.blocks[t], useKeyA)
          else KeyOf(card.blocks[t], useKeyA) in defaultKeys
      {
        SectorsAreConsistent(t);
      }
    }

    // A dump of a card that holds what the key file says.
    lemma DumpedIsDump(expected: Dump)
      requires keys == expected
      ensures forall b: nat :: b < 256 && card.blocks[b] == expected[b] ==> Dumped(b) == expected[b]
      ensures forall b: nat :: b < 256 && !IsTrailerBlock(b) ==> Dumped(b) == card.blocks[b]
    {
      forall b: nat | b < 256 && card.blocks[b] == expected[b]
        ensures Dumped(b) == expected[b]
      {
        TrailerInThreeParts(expected[b]);
      }
    }

    lemma AllAbove(before: Dump)
      requires card.last < 256
      ensures forall got :: ReadInto(before, got) ==> forall b: nat :: b in got && b < 256 ==> dump[b] == Dumped(b)
      ensures KeysFitAbove(-1) <==> KeysFit(keys, card.blocks, card.last, useKeyA)
    {
      FirstSector();
    }

    // The second half of a turn of write_card; the first tells failures of the
    // sector so far. Behind one of them no data block is tried, but the trailer is.
    method StoreBlock(block: nat, failedBefore: bool) returns (failed: bool)
      requires block <= card.last < 256
      modifies card`open, card`clock, card`blocks
      ensures
        var tried := block > 0 && (IsTrailerBlock(block) || !failedBefore);
        var within := old(card.open) == TrailerBlock(block);
        var d := old(card.Ahead(0));
        && card.clock == old(card.clock) + (if tried then 1 else 0)
        && (failed <==> failedBefore || (tried && !(within && d.Undisturbed?)))
        && card.blocks == (if tried && within && TakesEffect(d) then old(card.blocks)[block := dump[block]]
                           else old(card.blocks))
        && (card.open == TrailerBlock(block) <==> within && (tried ==> !d.Reset?))
    {
      hide IsTrailerBlock, TrailerBlock;
      FirstSector();
      failed := failedBefore;
      if IsTrailerBlock(block) {
        TrailerInThreeParts(dump[block]);
        var written := card.Write(block, KeyA(dump[block]) + AccessBits(dump[block]) + KeyB(dump[block]));
        if !written {
          failed := true;
        }
      } else if block != 0 {
        if !failed {
          var written := card.Write(block, dump[block]);
          if !written {
            failed := true;
          }
        }
      }
    }

    // The opening of a sector: after a failure the card is selected anew.
    method OpenSector(block: nat, failedBefore: bool) returns (ok: bool)
      requires block <= card.last < 256 && (failedBefore || card.open != HALTED)
      modifies this`keys, card`open, card`clock
      ensures useKeyFile || !ok ==> keys == old(keys)
      ensures forall b :: 0 <= b < 256 && b != block ==> keys[b] == old(keys)[b]
      ensures !useKeyFile && ok ==> KeyOf(keys[block], useKeyA) == KeyOf(card.TrailerOf(block), useKeyA)
      ensures ok ==> card.open == TrailerBlock(block)
      ensures card.clock >= old(card.clock)
      ensures useKeyFile ==>
        var operations := if failedBefore then 2 else 1;
        && (ok <==> Quiet(card.disturbances, old(card.clock), operations) && old(CanOpen(block)))
        && (ok ==> card.clock == old(card.clock) + operations)
      ensures old(card.Quiet()) && !failedBefore ==> (ok <==> old(CanOpen(block)))
    {
      if failedBefore {
        ok := card.Select();
        if !ok {
          return;
        }
      }
      ok := Authenticate(block);
    }

    ghost predicate UndisturbedFrom(clock: nat, n: nat) {
      forall i :: clock <= i < clock + n ==> DisturbanceAt(card.disturbances, i).Undisturbed?
    }

    lemma OldOrDumpedAscends(before: Dump, a: nat, b: nat)
      requires a <= b
      ensures OldOrDumped(before, a) ==> OldOrDumped(before, b)
    {
    }

    // No disturbance of the next n operations; how many it takes to guess a key is not
    // known, so without a key file there must be none at all.
    ghost predicate SmoothFrom(clock: nat, n: nat) {
      card.QuietFrom(clock) || (useKeyFile && UndisturbedFrom(clock, n))
    }

    // The blocks below block that are meant to be written hold what the dump says.
    predicate WrittenBelow(block: nat)
      requires block <= 256
      reads this`dump, card`blocks
    {
      forall b: nat :: 0 < b < block ==> card.blocks[b] == dump[b]
    }

    // The blocks below block hold what they held before or what the dump says, and
    // the others what they held before.
    ghost predicate OldOrDumped(before: Dump, block: nat)
      reads this`dump, card`blocks
    {
      forall b :: 0 <= b < 256 ==> card.blocks[b] == before[b] || (0 < b < block && card.blocks[b] == dump[b])
    }

    // Which keys have been noted when write_card comes to a block: without a key file,
    // for each sector begun the key that opened it, in the entry of its first block.
    ghost predicate KeysNoted(now: Dump, keysBefore: Dump, before: Dump, block: nat)
    {
      && (useKeyFile ==> now == keysBefore)
      && (forall b: nat :: b < 256 && (b >= block || !IsFirstBlock(b)) ==> now[b] == keysBefore[b])
      && (!useKeyFile ==> forall b: nat :: b < 256 && b < block && IsFirstBlock(b) ==>
            KeyOf(now[b], useKeyA) == KeyOf(before[TrailerIndex(b)], useKeyA))
    }

    // With a key file: whether write_card, started at clock, can open sector n.
    predicate SectorOpens(n: nat, clock: nat, before: Dump)
      requires n < 40
      reads this`keys
    {
      IsOpened(card.disturbances, clock, n) && KeyOf(keys[Trailer(n)], useKeyA) == KeyOf(before[Trailer(n)], useKeyA)
    }

    // What a block holds when all sectors up to its own have been opened.
    function Planned(block: nat, clock: nat, before: Dump): Block
      requires block < 256
      reads this`dump
    {
      if 0 < block && Lands(card.disturbances, clock, Sector(block), block) then dump[block] else before[block]
    }

    ghost predicate BlocksOnPlan(blocks: Dump, end: nat, clock: nat, before: Dump)
      reads this`dump
    {
      forall b: nat :: b < 256 ==> blocks[b] == if b < end then Planned(b, clock, before) else before[b]
    }

    // Where write_card, started at clock, stands when it comes to a block.
    ghost predicate Stands(block: nat, failed: bool, clock: nat, now: nat, open: int) {
      if IsFirstBlock(block) then
        StartOf(card.disturbances, clock, Sector(block)) == Start(now, failed) && (failed || open != HALTED)
      else
        Within(card.disturbances, clock, Sector(block), block, now, failed, open == TrailerBlock(block))
    }

    // Whether a write of the block is tried.
    predicate IsTried(block: nat, failed: bool) {
      block > 0 && (IsTrailerBlock(block) || !failed)
    }

    // The turn for a block in an opened sector.
    lemma StandsNext(block: nat, clock: nat, now: nat, failed: bool, isOpen: bool, failed': bool, open': int)
      requires Within(card.disturbances, clock, Sector(block), block, now, failed, isOpen)
      requires
        var tried := IsTried(block, failed);
        var d := DisturbanceAt(card.disturbances, now);
        && (failed' <==> failed || (tried && !(isOpen && d.Undisturbed?)))
        && (open' == TrailerBlock(block) <==> isOpen && (tried ==> !d.Reset?))
      ensures Stands(block + 1, failed', clock, now + if IsTried(block, failed) then 1 else 0, open')
      ensures block > 0 ==>
        (Lands(card.disturbances, clock, Sector(block), block) <==>
         IsTried(block, failed) && isOpen && TakesEffect(DisturbanceAt(card.disturbances, now)))
    {
      hide IsFirstBlock, IsTrailerBlock, TrailerBlock, Sector, FirstData, Trailer, Within, Lands, StartOf, TakesEffect;
      SectorsAreConsistent(block);
      SectorOnPlan(block);
      FirstSector();
      var n := Sector(block);
      if IsTrailerBlock(block) {
        TrailerStep(card.disturbances, clock, n, now, failed, isOpen);
      } else if block == 0 {
        BlockZero(card.disturbances, clock, now, failed, isOpen);
      } else {
        SectorOnPlan(block + 1);
        DataStep(card.disturbances, clock, n, block, now, failed, isOpen);
      }
    }

    lemma BlocksNext(block: nat, clock: nat, before: Dump, blocks: Dump, lands: bool)
      requires block < 256 && BlocksOnPlan(blocks, block, clock, before)
      requires lands <==> block > 0 && Lands(card.disturbances, clock, Sector(block), block)
      ensures BlocksOnPlan(if lands then blocks[block := dump[block]] else blocks, block + 1, clock, before)
    {
      hide Lands, Sector;
    }

    lemma StartOnPlan(block: nat, failed: bool, clock: nat, now: nat, open: int, before: Dump)
      requires block < 256 && IsFirstBlock(block) && OldOrDumped(before, block)
      ensures Sector(block) < 40
      ensures useKeyFile && Stands(block, failed, clock, now, open) ==>
        var operations := if failed then 2 else 1;
        && (SectorOpens(Sector(block), clock, before) <==>
            Quiet(card.disturbances, now, operations) && CanOpen(block))
        && Within(card.disturbances, clock, Sector(block), block, now + operations, false, true)
    {
      hide IsFirstBlock, StartOf;
      OldTrailer(before, block);
      SectorOnPlan(block);
      if Stands(block, failed, clock, now, open) {
        BeginWithin(card.disturbances, clock, Sector(block), block);
      }
    }

    // One turn of write_card.
    method WriteBlock(block: nat, failedBefore: bool, ghost before: Dump, ghost keysBefore: Dump, ghost clock: nat)
      returns (ok: bool, failed: bool)
      requires block <= card.last < 256 && OldOrDumped(before, block) && KeysNoted(keys, keysBefore, before, block)
      requires failedBefore || if IsFirstBlock(block) then card.open != HALTED else card.open == TrailerBlock(block)
      requires useKeyFile ==>
        Stands(block, failedBefore, clock, card.clock, card.open) && BlocksOnPlan(card.blocks, block, clock, before)
      modifies this`keys, card`open, card`clock, card`blocks
      ensures useKeyFile ==> keys == old(keys)
      ensures OldOrDumped(before, block + 1)
      ensures KeysNoted(keys, keysBefore, before, if ok then block + 1 else block)
      ensures failedBefore && !IsFirstBlock(block) ==> failed
      ensures ok && !failed ==> card.open == TrailerBlock(block)
      ensures ok && !failed && old(WrittenBelow(block)) ==> WrittenBelow(block + 1)
      ensures card.clock >= old(card.clock)
      ensures useKeyFile && ok && !failed && !failedBefore ==>
        card.clock == old(card.clock) + WritesBefore(block + 1) - WritesBefore(block)
      ensures (useKeyFile || old(card.Quiet())) && !failedBefore ==>
        (ok && !failed <==>
         SmoothFrom(old(card.clock), WritesBefore(block + 1) - WritesBefore(block))
         && (IsFirstBlock(block) ==> old(CanOpen(block))))
      ensures useKeyFile ==> (ok <==> IsFirstBlock(block) ==> OpensAt(block, clock, before))
      ensures useKeyFile && ok ==> Stands(block + 1, failed, clock, card.clock, card.open)
      ensures useKeyFile ==> BlocksOnPlan(card.blocks, if ok then block + 1 else block, clock, before)
    {
      hide IsFirstBlock, TrailerBlock, IsTrailerBlock, CanOpen, KeysNoted, Within, StartOf, Lands, BlocksOnPlan;
      hide SectorOpens, IsOpened;
      SectorOnPlan(block);
      WritesNext(block, block);
      OldTrailer(before, block);
      ghost var was := keys;
      ok, failed := true, failedBefore;
      if !IsFirstBlock(block) {
        NoKeyNoted(keys, keysBefore, before, block);
      }
      if IsFirstBlock(block) {
        StartOnPlan(block, failed, clock, card.clock, card.open, before);
        ok := OpenSector(block, failed);
        if !ok {
          return;
        }
        KeyIsNoted(was, keys, keysBefore, before, block);
        failed := false;
      }
      ghost var now, isOpen, blocks := card.clock, card.open == TrailerBlock(block), card.blocks;
      ghost var tried := IsTried(block, failed);
      ghost var failedSoFar := failed;
      failed := StoreBlock(block, failed);
      if useKeyFile {
        StandsNext(block, clock, now, failedSoFar, isOpen, failed, card.open);
        BlocksNext(block, clock, before, blocks, tried && isOpen && TakesEffect(DisturbanceAt(card.disturbances, now)));
      }
    }

    // Where write_card stands when it comes to a block: good sectors have been counted,
    // started at clock. It is known how the disturbances tell whether all is well so
    // far; reachable says whether the keys at hand open the sectors begun.
    ghost predicate Progress(
        block: nat, failed: bool, counter: nat, good: nat, clock: nat, reachable: bool)
      requires block <= card.last + 1 <= 256
      reads this`dump, card`blocks, card`open, card`clock
    {
      && good <= SectorsBelow(block) && counter == Counted(good)
      && (if block == 0 then !failed && card.open != HALTED else !failed ==> card.open == TrailerBlock(block - 1))
      && card.clock >= clock
      && (good == SectorsBelow(block) && !failed ==>
            && WrittenBelow(block)
            && (useKeyFile ==> card.clock == clock + WritesBefore(block)))
      && (useKeyFile || card.QuietFrom(clock) ==>
            (good == SectorsBelow(block) && !failed <==> SmoothFrom(clock, WritesBefore(block)) && reachable))
    }

    lemma OldTrailer(before: Dump, block: nat)
      requires block < 256 && OldOrDumped(before, block)
      ensures card.TrailerOf(block) == before[TrailerIndex(block)]
    {
      SectorsAreConsistent(block);
    }

    lemma NoKeyNoted(now: Dump, keysBefore: Dump, before: Dump, block: nat)
      requires block < 256 && !IsFirstBlock(block) && KeysNoted(now, keysBefore, before, block)
      ensures KeysNoted(now, keysBefore, before, block + 1)
    {
    }

    lemma KeyIsNoted(was: Dump, now: Dump, keysBefore: Dump, before: Dump, block: nat)
      requires block < 256 && IsFirstBlock(block) && KeysNoted(was, keysBefore, before, block)
      requires useKeyFile ==> now == was
      requires forall b :: 0 <= b < 256 && b != block ==> now[b] == was[b]
      requires !useKeyFile ==> KeyOf(now[block], useKeyA) == KeyOf(before[TrailerIndex(block)], useKeyA)
      ensures KeysNoted(now, keysBefore, before, block + 1)
    {
    }

    // With a key file: where write_card stands, and what it has written and counted.
    ghost predicate OnPlan(block: nat, failed: bool, good: nat, clock: nat, before: Dump)
      reads this`dump, card`blocks, card`open, card`clock
    {
      && Stands(block, failed, clock, card.clock, card.open)
      && BlocksOnPlan(card.blocks, block, clock, before)
      && good == Clean(card.disturbances, clock, SectorsBelow(block))
    }

    predicate OpensAt(block: nat, clock: nat, before: Dump)
      requires block < 256
      reads this`keys
    {
      SectorOnPlan(block);
      SectorOpens(Sector(block), clock, before)
    }

    lemma CleanNext(block: nat, failed: bool, clock: nat, now: nat, open: int)
      ensures
        var ds := card.disturbances;
        Stands(block, failed, clock, now, open) ==>
          Clean(ds, clock, SectorsBelow(block + 1))
          == Clean(ds, clock, SectorsBelow(block)) + if IsFirstBlock(block) && block != 0 && !failed then 1 else 0
    {
      hide StartOf, IsFirstBlock, Sector;
      SectorsBelowNext(block, block);
    }

    // One turn of write_card, with the counting of the sector before.
    method WriteTurn(block: nat, failedBefore: bool, counted: nat, ghost before: Dump, ghost goodBefore: nat,
                     ghost clock: nat, ghost reachable: bool, ghost keysBefore: Dump)
      returns (ok: bool, failed: bool, counter: nat, ghost good: nat)
      requires block <= card.last < 256 && OldOrDumped(before, block) && KeysNoted(keys, keysBefore, before, block)
      requires Progress(block, failedBefore, counted, goodBefore, clock, reachable)
      requires useKeyFile ==> OnPlan(block, failedBefore, goodBefore, clock, before)
      modifies this`keys, card`open, card`clock, card`blocks
      ensures useKeyFile ==> (ok <==> IsFirstBlock(block) ==> OpensAt(block, clock, before))
      ensures useKeyFile && ok ==> OnPlan(block + 1, failed, good, clock, before)
      ensures useKeyFile ==> BlocksOnPlan(card.blocks, if ok then block + 1 else block, clock, before)
      ensures useKeyFile ==> keys == old(keys)
      ensures OldOrDumped(before, block + 1)
      ensures KeysNoted(keys, keysBefore, before, if ok then block + 1 else block)
      ensures good <= SectorsBelow(block + 1) && counter == Counted(good) && card.clock >= old(card.clock)
      ensures
        var reachable' := reachable && (IsFirstBlock(block) ==> old(CanOpen(block)));
        if ok then
          Progress(block + 1, failed, counter, good, clock, reachable')
        else
          useKeyFile || card.QuietFrom(clock) ==> !(SmoothFrom(clock, WritesBefore(block + 1)) && reachable')
    {
      hide Sector, SectorsBelow, WritesBefore, Count, Counted, WrittenBelow, OldOrDumped;
      hide IsTrailerBlock, TrailerBlock, IsFirstBlock, CanOpen, SmoothFrom, KeysNoted;
      hide BlocksOnPlan, Stands, SectorOpens;
      SectorsBelowNext(block, card.last);
      WritesNext(block, card.last);
      CountedNext(goodBefore);
      counter, good := counted, goodBefore;
      if IsFirstBlock(block) && block != 0 && !failedBefore {
        counter := Count(counter);
        good := good + 1;
      }
      SmoothTurns(clock, card.clock, WritesBefore(block), WritesBefore(block + 1), WritesBefore(block + 1));
      CleanNext(block, failedBefore, clock, card.clock, card.open);
      ok, failed := WriteBlock(block, failedBefore, before, keysBefore, clock);
    }

    // The loop of write_card. The last sector is counted behind it.
    method WriteBlocks() returns (ok: bool, failed: bool, counter: nat, ghost good: nat, ghost upTo: nat)
      requires IsTrailerBlock(card.last) && card.last < 256 && card.open != HALTED
      modifies this`keys, card`open, card`clock, card`blocks
      ensures upTo <= card.last + 1 && (ok ==> upTo == card.last + 1)
      ensures KeysNoted(keys, old(keys), old(card.blocks), upTo)
      ensures OldOrDumped(old(card.blocks), card.last + 1)
      ensures card.clock >= old(card.clock)
      ensures counter == Counted(good) && good <= SectorsBelow(card.last + 1)
      ensures ok && !failed ==> card.open != HALTED
      ensures ok && !failed && good == SectorsBelow(card.last + 1) ==> WrittenBelow(card.last + 1)
      ensures useKeyFile || old(card.Quiet()) ==>
        (ok && !failed && good == SectorsBelow(card.last + 1) <==>
         old(CanOpenAll()) && SmoothFrom(old(card.clock), WritesBefore(card.last + 1)))
      ensures useKeyFile ==> Outcome(ok, upTo, old(card.clock), old(card.blocks))
      ensures useKeyFile && ok ==> OnPlan(upTo, failed, good, old(card.clock), old(card.blocks))
    {
      hide OnPlan, OpenedBelow, OpensAt, BlocksOnPlan, Begun, SectorOpens;
      hide SectorsBelow, WritesBefore, Counted, WrittenBelow, OldOrDumped, CanOpenBelow, Progress;
      hide IsTrailerBlock, IsFirstBlock, CanOpenAll, CanOpen, SmoothFrom, KeysNoted;
      NothingWritten(card.clock);
      FirstBlocksDecide();
      StartsOnPlan(card.blocks);
      ok, failed, counter, good := true, false, 0, 0;
      ghost var clock, before, reachable := card.clock, card.blocks, true;
      var block: nat := 0;
      upTo := 0;
      while block <= card.last
        invariant block <= card.last + 1 && upTo == block && KeysNoted(keys, old(keys), before, block)
        invariant useKeyFile ==> keys == old(keys)
        invariant OldOrDumped(before, block) && card.clock >= clock
        invariant useKeyFile ==> OnPlan(block, failed, good, clock, before) && OpenedBelow(Begun(block), clock, before)
        invariant Progress(block, failed, counter, good, clock, reachable) && reachable == old(CanOpenBelow(block))
      {
        BlocksAscend(clock, block);
        SameCanOpen(block);
        BegunNext(block, clock, before);
        ok, failed, counter, good := WriteTurn(block, failed, counter, before, good, clock, reachable, old(keys));
        reachable := old(CanOpenBelow(block + 1));
        block := block + 1;
        if !ok {
          OldOrDumpedAscends(before, block, card.last + 1);
          return;
        }
        upTo := block;
      }
      ProgressMeans(failed, counter, good, clock, reachable);
      FromPlan(block, failed, good, clock, before);
    }

    // The sectors begun when write_card comes to a block.
    function Begun(block: nat): (k: nat)
      ensures block <= 256 ==> k <= 40
    {
      if block == 0 then 0 else Sector(block - 1) + 1
    }

    ghost predicate OpenedBelow(k: nat, clock: nat, before: Dump)
      requires k <= 40
      reads this`keys
    {
      forall n: nat :: n < k ==> SectorOpens(n, clock, before)
    }

    // Whether the sectors up to that of a block can be opened.
    ghost predicate Reaches(block: nat, clock: nat, before: Dump)
      requires block < 256
      reads this`keys
    {
      SectorOnPlan(block);
      OpenedBelow(Sector(block) + 1, clock, before)
    }

    // With a key file: the blocks before upTo are as planned, and the end has been
    // reached or the sector of that block could not be opened.
    ghost predicate Outcome(ok: bool, upTo: nat, clock: nat, before: Dump)
      requires card.last < 256
      reads this`dump, this`keys, card`blocks
    {
      && upTo <= card.last + 1
      && BlocksOnPlan(card.blocks, upTo, clock, before)
      && OpenedBelow(Begun(upTo), clock, before)
      && if ok then upTo == card.last + 1 else upTo <= card.last && !OpensAt(upTo, clock, before)
    }

    lemma BegunNext(block: nat, clock: nat, before: Dump)
      requires block < 256
      ensures
        && OpenedBelow(Begun(block), clock, before)
        && (IsFirstBlock(block) ==> OpensAt(block, clock, before))
        ==> OpenedBelow(Begun(block + 1), clock, before)
    {
      hide SectorOpens, IsFirstBlock, Sector;
      SectorsBelowNext(block, block);
    }

    lemma FromPlan(block: nat, failed: bool, good: nat, clock: nat, before: Dump)
      ensures OnPlan(block, failed, good, clock, before) ==> BlocksOnPlan(card.blocks, block, clock, before)
    {
    }

    lemma StartsOnPlan(before: Dump)
      requires card.open != HALTED && before == card.blocks
      ensures OnPlan(0, false, 0, card.clock, before) && OpenedBelow(Begun(0), card.clock, before)
    {
    }

    lemma AllClean(block: nat, failed: bool, good: nat, clock: nat, before: Dump)
      requires block == card.last + 1 && IsTrailerBlock(card.last)
      ensures OnPlan(block, failed, good, clock, before) ==>
        Clean(card.disturbances, clock, Sector(card.last) + 1) == good + if failed then 0 else 1
    {
      hide Sector, StartOf, Within, BlocksOnPlan;
      SectorsAreConsistent(card.last);
    }

    // What the card holds and whether write_card gets through, decided by the plan.
    lemma OutcomeMeans(ok: bool, upTo: nat, clock: nat, before: Dump)
      requires card.last < 256 && Outcome(ok, upTo, clock, before)
      ensures ok ==> upTo == card.last + 1
      ensures ok <==> Reaches(card.last, clock, before)
      ensures forall b: nat :: b <= card.last ==>
        card.blocks[b] == if Reaches(b, clock, before) then Planned(b, clock, before) else before[b]
    {
      hide SectorOpens, Sector, Planned;
      if !ok {
        SectorsAscend(upTo, card.last);
      }
      forall b: nat | b <= card.last
        ensures Reaches(b, clock, before) <==> b < upTo
      {
        if b < upTo {
          SectorsAscend(b, upTo - 1);
        } else {
          SectorsAscend(upTo, b);
        }
      }
    }

    lemma ProgressMeans(failed: bool, counter: nat, good: nat, clock: nat, reachable: bool)
      requires card.last < 256 && Progress(card.last + 1, failed, counter, good, clock, reachable)
      ensures counter == Counted(good) && good <= SectorsBelow(card.last + 1)
      ensures !failed ==> card.open != HALTED
      ensures good == SectorsBelow(card.last + 1) && !failed ==> WrittenBelow(card.last + 1)
      ensures useKeyFile || card.QuietFrom(clock) ==>
        (good == SectorsBelow(card.last + 1) && !failed <==>
         SmoothFrom(clock, WritesBefore(card.last + 1)) && reachable)
    {
    }

    lemma BlocksAscend(clock: nat, block: nat)
      requires block <= card.last
      ensures SectorsBelow(block + 1) <= SectorsBelow(card.last + 1)
      ensures SmoothFrom(clock, WritesBefore(card.last + 1)) ==> SmoothFrom(clock, WritesBefore(block + 1))
    {
      SectorsBelowNext(block, card.last);
      WritesNext(block, card.last);
    }

    /** write_card: from the first block to the last, but for block 0. Whatever
        disturbs the card, each block holds afterwards what it held before or what
        the dump says, and the counter reaches the number of blocks only if all of
        them have been written. With a key file that is so if and only if the keys
        are right and none of the operations is disturbed; and the disturbances decide
        what every block holds, whatever has failed in the sectors before its own, that
        the run is a success exactly if every sector has been opened, and that the
        counter has grown as often as sectors were written without a failure. Without
        a key file, the keys that open the sectors are noted in the entries of their
        first blocks, and no other entry changes: not those of the trailers. */
    method WriteCard() returns (ok: bool, counter: nat)
      requires IsTrailerBlock(card.last) && card.last < 256 && card.open != HALTED
      modifies this`keys, card`open, card`clock, card`blocks
      ensures useKeyFile ==> keys == old(keys)
      ensures forall b: nat :: b < 256 && !IsFirstBlock(b) ==> keys[b] == old(keys)[b]
      ensures !useKeyFile ==> forall b: nat :: b < 256 && IsFirstBlock(b) ==>
        || keys[b] == old(keys)[b]
        || (b <= card.last && KeyOf(keys[b], useKeyA) == KeyOf(old(card.blocks)[TrailerIndex(b)], useKeyA))
      ensures !useKeyFile && ok ==> forall b: nat :: b <= card.last && IsFirstBlock(b) ==>
        KeyOf(keys[b], useKeyA) == KeyOf(old(card.blocks)[TrailerIndex(b)], useKeyA)
      ensures forall b :: 0 <= b < 256 ==>
        card.blocks[b] == old(card.blocks)[b] || (0 < b <= card.last && card.blocks[b] == dump[b])
      ensures counter == card.last + 1 ==> ok && WrittenBelow(card.last + 1) && card.open != HALTED
      ensures card.clock >= old(card.clock)
      ensures useKeyFile || old(card.Quiet()) ==>
        (counter == card.last + 1 <==>
         old(CanOpenAll()) && SmoothFrom(old(card.clock), WritesBefore(card.last + 1)))
      ensures useKeyFile ==> (ok <==> Reaches(card.last, old(card.clock), old(card.blocks)))
      ensures useKeyFile && ok ==> counter == Counted(Clean(card.disturbances, old(card.clock), Sector(card.last) + 1))
      ensures useKeyFile ==> forall b: nat :: b <= card.last ==>
        card.blocks[b] == if Reaches(b, old(card.clock), old(card.blocks))
                          then Planned(b, old(card.clock), old(card.blocks))
                          else old(card.blocks)[b]
    {
      hide Reaches, Planned, Sector, Clean, Outcome, OnPlan;
      hide IsTrailerBlock, CanOpenAll, SmoothFrom, Counted, Count, SectorsBelow, WritesBefore, WrittenBelow;
      var failed;
      ghost var good, upTo;
      ok, failed, counter, good, upTo := WriteBlocks();
      NotAllCounted(good, card.last);
      if useKeyFile {
        OutcomeMeans(ok, upTo, old(card.clock), old(card.blocks));
        if ok {
          AllClean(upTo, failed, good, old(card.clock), old(card.blocks));
        }
      }
      if ok && !failed {
        CountedNext(good);
        counter := Count(counter);
      }
    }

    lemma NothingWritten(clock: nat)
      ensures WritesBefore(0) == 0 && SectorsBelow(0) == 0 && Counted(0) == 0
      ensures useKeyFile || card.QuietFrom(clock) ==> SmoothFrom(clock, 0)
      ensures WrittenBelow(0) && OldOrDumped(card.blocks, 0) && KeysNoted(keys, keys, card.blocks, 0)
      ensures card.last < 256 && clock == card.clock && card.open != HALTED ==> Progress(0, false, 0, 0, clock, true)
    {
    }

    lemma SmoothTurns(clock: nat, now: nat, a: nat, b: nat, end: nat)
      requires a <= b <= end && now >= clock
      ensures (useKeyFile || card.QuietFrom(clock)) && (useKeyFile ==> now == clock + a) ==>
        (SmoothFrom(clock, b) <==> SmoothFrom(clock, a) && SmoothFrom(now, b - a))
      ensures SmoothFrom(clock, b) ==> SmoothFrom(clock, a)
      ensures SmoothFrom(clock, end) ==> SmoothFrom(clock, b)
    {
    }

    twostate lemma SameCanOpen(block: nat)
      requires block < 256 && OldOrDumped(old(card.blocks), block)
      requires useKeyFile ==> keys == old(keys)
      ensures CanOpen(block) == old(CanOpen(block))
      ensures block < card.last < 256 && old(CanOpenBelow(card.last + 1)) ==> old(CanOpenBelow(block + 1))
      ensures old(CanOpenBelow(block + 1)) <==>
        old(CanOpenBelow(block)) && (IsFirstBlock(block) ==> old(CanOpen(block)))
    {
      SectorsAreConsistent(block);
      assert card.TrailerOf(block) == old(card.TrailerOf(block));
    }
  }

  lemma FirstSector()
    ensures Sector(0) == 0 && IsFirstBlock(0) && !IsTrailerBlock(0)
  {
  }

  lemma NothingCounted(last: nat)
    ensures Counted(0) == 0 && SectorsAbove(last, last) == 0 && SectorsBelow(0) == 0
  {
  }

  // The sectors that read_card has counted when it comes to a block, and write_card.
  function SectorsAbove(last: nat, block: int): nat
    requires -1 <= block <= last
  {
    if block == last then 0
    else
      SectorsAscend(block + 1, last);
      Sector(last) - Sector(block + 1)
  }

  function SectorsBelow(block: nat): nat {
    if block == 0 then 0 else Sector(block - 1)
  }

  lemma SectorsAboveNext(last: nat, block: nat)
    requires block <= last
    ensures SectorsAbove(last, block - 1)
         == SectorsAbove(last, block) + if IsTrailerBlock(block) && block != last then 1 else 0
    ensures Counted(SectorsAbove(last, block) + 1) == Count(Counted(SectorsAbove(last, block)))
  {
    SectorsAreConsistent(block);
  }

  lemma AllSectorsCounted(last: nat)
    requires IsTrailerBlock(last)
    ensures Count(Counted(SectorsAbove(last, -1))) == last + 1
  {
    CountedNext(SectorsAbove(last, -1));
    AllBlocksCounted(last);
  }

  lemma SectorsBelowNext(block: nat, last: nat)
    requires block <= last
    ensures SectorsBelow(block + 1) <= SectorsBelow(last + 1)
    ensures SectorsBelow(block + 1) == SectorsBelow(block) + if IsFirstBlock(block) && block != 0 then 1 else 0
    ensures block > 0 && !IsFirstBlock(block) ==> TrailerBlock(block) == TrailerBlock(block - 1)
    ensures block <= TrailerBlock(block)
    ensures IsFirstBlock(0)
  {
    SectorsAscend(block, last);
    if block > 0 {
      SectorsAreConsistent(block - 1);
    }
  }

  lemma CountedNext(sectors: nat)
    ensures Counted(sectors + 1) == Count(Counted(sectors))
  {
  }

  lemma TrailerInThreeParts(b: Block)
    ensures KeyA(b) + AccessBits(b) + KeyB(b) == b
  {
  }

  lemma TrailerWithinCard(block: nat, last: nat)
    requires block <= last && IsTrailerBlock(last)
    ensures TrailerBlock(block) <= last && IsTrailerBlock(TrailerBlock(block))
  {
  }

  // The counter is complete if and only if all sectors have been counted.
  lemma NotAllCounted(good: nat, last: nat)
    requires IsTrailerBlock(last) && good <= SectorsBelow(last + 1)
    ensures Counted(good) < last + 1
    ensures Counted(good + 1) == last + 1 <==> good == SectorsBelow(last + 1)
  {
    CountedSectors(good);
    CountedSectors(good + 1);
    AllBlocksCounted(last);
    CountedSectors(Sector(last) + 1);
  }

  // The keys at hand open every sector: those of the key file, or the default keys.
  predicate KeysAtHand(card: Card, useKeyA: bool, useKeyFile: bool, defaultKeys: seq<Key>, keys: Dump)
    reads card`blocks
  {
    if useKeyFile then
      KeysFit(keys, card.blocks, card.last, useKeyA)
    else
      forall t: nat :: t <= card.last && t < 256 && IsTrailerBlock(t) ==> KeyOf(card.blocks[t], useKeyA) in defaultKeys
  }

  /** Writing a dump to a card and reading the card with that dump as the key file
      gives the dump back, in all blocks but block 0, which is not written. Whatever
      disturbs the card, success means that, but for the trailers whose reads were
      not answered; they are as the reader's memory was. Without disturbances it is
      a success exactly if the old keys, from a file or guessed, open the card. */
  method WriteThenRead(
      card: Card, dump: Dump, useKeyA: bool, useKeyFile: bool, defaultKeys: seq<Key>, oldKeys: Dump, initial: Dump)
    returns (ok: bool, result: Dump)
    requires IsTrailerBlock(card.last) && card.last < 256 && card.open != HALTED
    modifies card
    ensures ok ==> forall b: nat :: 0 < b <= card.last && !IsTrailerBlock(b) ==> result[b] == dump[b]
    ensures old(card.answered) <= card.answered
    ensures ok ==> forall t: nat :: t <= card.last && IsTrailerBlock(t) ==>
      result[t] == if t in card.answered[|old(card.answered)|..] then dump[t] else initial[t]
    ensures ok ==> result[0] == old(card.blocks)[0]
    ensures old(card.Quiet()) ==> (ok <==> old(KeysAtHand(card, useKeyA, useKeyFile, defaultKeys, oldKeys)))
    ensures old(card.Quiet()) && ok ==> forall b: nat :: 0 < b <= card.last ==> result[b] == dump[b]
  {
    hide IsTrailerBlock, TrailerBlock;
    FirstSector();
    var writer := new Tool(card, useKeyA, useKeyFile, defaultKeys, oldKeys, dump);
    writer.KeysOpenCard();
    var written, writeCount := writer.WriteCard();
    ok, result := false, initial;
    if written && writeCount == card.last + 1 {
      ok, result := ReadBack(card, dump, useKeyA, initial);
    }
  }

  // The reading half.
  method ReadBack(card: Card, dump: Dump, useKeyA: bool, initial: Dump) returns (ok: bool, result: Dump)
    requires IsTrailerBlock(card.last) && card.last < 256 && card.open != HALTED
    requires forall b: nat :: 0 < b <= card.last ==> card.blocks[b] == dump[b]
    modifies card`open, card`clock, card`answered
    ensures old(card.answered) <= card.answered
    ensures ok ==> forall b: nat :: b <= card.last && !IsTrailerBlock(b) ==> result[b] == card.blocks[b]
    ensures ok ==> forall t: nat :: t <= card.last && IsTrailerBlock(t) ==>
      result[t] == if t in card.answered[|old(card.answered)|..] then dump[t] else initial[t]
    ensures old(card.Quiet()) ==> ok && forall b: nat :: 0 < b <= card.last ==> result[b] == dump[b]
  {
    hide IsTrailerBlock, TrailerBlock, KeyOf, KeysFit, Tool.Dumped, Tool.ReadSurvives, Tool.CanOpenAll;
    FirstSector();
    var reader := new Tool(card, useKeyA, true, [], dump, initial);
    reader.KeysOpenCard();
    WrittenKeysFit(card, dump, useKeyA);
    var readCount;
    ok, readCount := reader.ReadCard();
    reader.DumpedIsDump(dump);
    result := reader.dump;
  }

  lemma WrittenKeysFit(card: Card, dump: Dump, useKeyA: bool)
    requires card.last < 256 && forall b: nat :: 0 < b <= card.last ==> card.blocks[b] == dump[b]
    ensures KeysFit(dump, card.blocks, card.last, useKeyA)
  {
    FirstSector();
  }

  /** What the printed error of a failed trailer read comes to: on a card of any size,
      if only the read of one trailer does not get through, the dump is reported as
      complete and lacks that trailer. */
  method ReadWithoutTrailer(last: nat, blocks: Dump, t: nat) returns (ok: bool, counter: nat, dump: Dump)
    requires IsTrailerBlock(last) && last < 256 && t <= last && IsTrailerBlock(t)
    ensures ok && counter == last + 1
    ensures dump[t] == ZERO_BLOCK
    ensures forall b: nat :: b <= last && b != t ==> dump[b] == blocks[b]
  {
    var card := new Card(last, blocks, seq(ReadsBefore(last, t) + 1, _ => Undisturbed) + [Unheard]);
    var tool := new Tool(card, true, true, [], blocks, seq(256, _ => ZERO_BLOCK));
    tool.KeysOpenCard();
    forall b: nat | b <= last
      ensures tool.Opens(b, 0) && tool.StaysOpen(b, 0)
      ensures IsTrailerBlock(b) ==> (tool.Answered(b, 0) <==> b != t)
    {
      OperationsDiffer(last, b, t);
    }
    ok, counter := tool.ReadCard();
    tool.DumpedIsDump(blocks);
    dump := tool.dump;
  }

  // No two reads have the same place in the sequence of operations.
  lemma OperationsDiffer(last: nat, a: nat, b: nat)
    requires a <= last && b <= last && IsTrailerBlock(b)
    ensures ReadsBefore(last, a) != ReadsBefore(last, b) + 1
    ensures a != b ==> ReadsBefore(last, a) != ReadsBefore(last, b)
  {
    NextOperation(last, b);
    if a < b {
      ReadsAscend(last, a, b - 1);
    } else if b < a {
      NextOperation(last, a);
      ReadsAscend(last, b, a - 1);
    }
  }

  lemma ReadsAscend(last: nat, a: int, b: int)
    requires -1 <= a <= b <= last
    ensures ReadsBefore(last, a) >= ReadsBefore(last, b)
  {
    SectorsAscend(a + 1, b + 1);
  }

  /** What one failed write comes to: on a card of any size, if only the write of one
      block is disturbed, all other sectors are written in full. In its own sector no
      data block behind it is, but the trailer with the new keys is, unless the card has
      lost power. The run is a success all the same; the counter grows by the size of
      the sector it would stand at, not of the sector written, so it lacks the size of
      the last sector. */
  method WriteWithOneFailure(last: nat, blocks: Dump, dump: Dump, useKeyA: bool, b: nat, d: Disturbance)
    returns (ok: bool, counter: nat, written: Dump)
    requires IsTrailerBlock(last) && last < 256 && 0 < b <= last && !d.Undisturbed?
    ensures ok && counter == if last < 128 then last - 3 else last - 15
    ensures forall c: nat :: c < 256 ==>
      written[c] ==
        if c == 0 || c > last || (c == b && !d.Unanswered?)
           || (Sector(c) == Sector(b) && c > b && (d.Reset? || !IsTrailerBlock(c)))
        then blocks[c] else dump[c]
  {
    hide IsTrailerBlock, Sector, Tool.CanOpenAll, OneDisturbed, Lands, StartOf;
    SectorOnPlan(b);
    var ds := OneDisturbed(Sector(b), b, d);
    var card := new Card(last, blocks, ds);
    var tool := new Tool(card, useKeyA, true, [], blocks, dump);
    ok, counter := tool.WriteCard();
    written := card.blocks;
    LastSector(last, b);
    AllButOneClean(Sector(b), b, d, Sector(last) + 1);
    forall n: nat
      ensures IsOpened(ds, 0, n)
    {
      OneFailure(Sector(b), b, d, n);
    }
    forall c: nat | 0 < c <= last
      ensures tool.Planned(c, 0, blocks) ==
        if (c == b && !d.Unanswered?) || (Sector(c) == Sector(b) && c > b && (d.Reset? || !IsTrailerBlock(c)))
        then blocks[c] else dump[c]
    {
      SectorOnPlan(c);
      OneFailure(Sector(b), b, d, Sector(c));
    }
  }

  lemma LastSector(last: nat, b: nat)
    requires IsTrailerBlock(last) && b <= last
    ensures Sector(b) <= Sector(last)
    ensures Counted(Sector(last)) == if last < 128 then last - 3 else last - 15
  {
    SectorsAscend(b, last);
    CountedSectors(Sector(last));
  }
}
