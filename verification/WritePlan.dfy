/** What write_card of utils/nfc-mfclassic.c does to a card, with a key file, as far
    as the disturbances of its operations decide it: where the operations for each
    sector begin, and which of its blocks get written. */
module WritePlan {
  // How an operation can be disturbed: it does not reach the card, it is carried out
  // but its reply is lost, or the card loses power and has to be selected again.
  datatype Disturbance = Undisturbed | Unheard | Unanswered | Reset

  // Behind the end of the list nothing is disturbed any more.
  function DisturbanceAt(ds: seq<Disturbance>, i: nat): Disturbance {
    if i < |ds| then ds[i] else Undisturbed
  }

  predicate Quiet(ds: seq<Disturbance>, from: nat, n: nat) {
    forall i :: from <= i < from + n ==> DisturbanceAt(ds, i).Undisturbed?
  }

  // Whether the card carries an operation out that it accepts.
  predicate TakesEffect(d: Disturbance) {
    d.Undisturbed? || d.Unanswered?
  }

  // --- Sector n: its blocks but block 0, the last of them its trailer ---

  function FirstData(n: nat): nat {
    if n == 0 then 1 else if n < 32 then 4 * n else 16 * n - 384
  }

  function Trailer(n: nat): nat {
    if n < 32 then 4 * n + 3 else 16 * n - 369
  }

  function DataBlocks(n: nat): nat {
    Trailer(n) - FirstData(n)
  }

  // How many of n operations are tried one after another: none behind a disturbed one.
  function Tries(ds: seq<Disturbance>, from: nat, n: nat): nat
    decreases n
  {
    if n == 0 then 0
    else if DisturbanceAt(ds, from).Undisturbed? then 1 + Tries(ds, from + 1, n - 1)
    else 1
  }

  // The first operation for a sector, and whether something failed in the one before.
  datatype Start = Start(clock: nat, failed: bool)

  function StartOf(ds: seq<Disturbance>, clock: nat, n: nat): Start
    decreases n, 0
  {
    if n == 0 then Start(clock, false)
    else
      var trailer := TrailerWrite(ds, clock, n - 1);
      var first := FirstWrite(ds, clock, n - 1);
      Start(trailer + 1, !Quiet(ds, first, trailer + 1 - first))
  }

  // After a failure the card is selected again before it is authenticated to.
  function Opening(start: Start): nat {
    if start.failed then 2 else 1
  }

  function FirstWrite(ds: seq<Disturbance>, clock: nat, n: nat): nat
    decreases n, 1
  {
    var start := StartOf(ds, clock, n);
    start.clock + Opening(start)
  }

  // The trailer is written behind the data blocks, however many have been tried.
  function TrailerWrite(ds: seq<Disturbance>, clock: nat, n: nat): nat
    decreases n, 2
  {
    var first := FirstWrite(ds, clock, n);
    first + Tries(ds, first, DataBlocks(n))
  }

  // A sector with the right key is opened.
  predicate IsOpened(ds: seq<Disturbance>, clock: nat, n: nat) {
    var start := StartOf(ds, clock, n);
    Quiet(ds, start.clock, Opening(start))
  }

  // Whether a block of an opened sector gets written.
  predicate Lands(ds: seq<Disturbance>, clock: nat, n: nat, block: nat) {
    var first := FirstWrite(ds, clock, n);
    if block == Trailer(n) then
      var trailer := TrailerWrite(ds, clock, n);
      && TakesEffect(DisturbanceAt(ds, trailer))
      && (first < trailer ==> !DisturbanceAt(ds, trailer - 1).Reset?)
    else
      && FirstData(n) <= block < Trailer(n)
      && Quiet(ds, first, block - FirstData(n))
      && TakesEffect(DisturbanceAt(ds, first + block - FirstData(n)))
  }

  // How many of the first n sectors are written without a failure.
  function Clean(ds: seq<Disturbance>, clock: nat, n: nat): nat {
    if n == 0 then 0
    else Clean(ds, clock, n - 1) + if StartOf(ds, clock, n).failed then 0 else 1
  }

  // --- Within a sector ---

  // How many of its data blocks come before a block.
  function Before(n: nat, block: nat): nat {
    if block <= FirstData(n) then 0 else block - FirstData(n)
  }

  // Where write_card stands within sector n, opened, when it comes to a block.
  predicate Within(ds: seq<Disturbance>, clock: nat, n: nat, block: nat, now: nat, failed: bool, isOpen: bool) {
    var first := FirstWrite(ds, clock, n);
    && block <= Trailer(n)
    && now == first + Tries(ds, first, Before(n, block))
    && failed == !Quiet(ds, first, now - first)
    && (isOpen <==> first < now ==> !DisturbanceAt(ds, now - 1).Reset?)
  }

  lemma {:induction false} TriesNext(ds: seq<Disturbance>, from: nat, n: nat)
    decreases n
    ensures Tries(ds, from, n) <= n
    ensures Quiet(ds, from, Tries(ds, from, n)) <==> Quiet(ds, from, n)
    ensures Quiet(ds, from, n) ==> Tries(ds, from, n) == n && Tries(ds, from, n + 1) == n + 1
    ensures !Quiet(ds, from, n) ==> Tries(ds, from, n + 1) == Tries(ds, from, n)
  {
    if n > 0 && DisturbanceAt(ds, from).Undisturbed? {
      TriesNext(ds, from + 1, n - 1);
      assert forall k :: 1 <= k ==> (Quiet(ds, from, k) <==> Quiet(ds, from + 1, k - 1)) by {
        QuietTail(ds, from);
      }
    }
  }

  lemma QuietTail(ds: seq<Disturbance>, from: nat)
    requires DisturbanceAt(ds, from).Undisturbed?
    ensures forall k {:trigger Quiet(ds, from, k)} ::
      1 <= k ==> (Quiet(ds, from, k) <==> Quiet(ds, from + 1, k - 1))
  {
  }

  lemma QuietNext(ds: seq<Disturbance>, from: nat, n: nat)
    ensures Quiet(ds, from, n + 1) <==> Quiet(ds, from, n) && DisturbanceAt(ds, from + n).Undisturbed?
  {
  }

  lemma BeginWithin(ds: seq<Disturbance>, clock: nat, n: nat, block: nat)
    requires block <= FirstData(n)
    ensures Within(ds, clock, n, block, FirstWrite(ds, clock, n), false, true)
  {
  }

  lemma BlockZero(ds: seq<Disturbance>, clock: nat, now: nat, failed: bool, isOpen: bool)
    ensures Within(ds, clock, 0, 0, now, failed, isOpen) ==> Within(ds, clock, 0, 1, now, failed, isOpen)
  {
  }

  // A data block: it is tried if nothing has failed in the sector so far.
  lemma DataStep(ds: seq<Disturbance>, clock: nat, n: nat, block: nat, now: nat, failed: bool, isOpen: bool)
    requires FirstData(n) <= block < Trailer(n) && Within(ds, clock, n, block, now, failed, isOpen)
    ensures failed ==> Within(ds, clock, n, block + 1, now, true, isOpen) && !Lands(ds, clock, n, block)
    ensures
      var d := DisturbanceAt(ds, now);
      !failed ==>
        && isOpen
        && Within(ds, clock, n, block + 1, now + 1, !d.Undisturbed?, !d.Reset?)
        && (Lands(ds, clock, n, block) <==> TakesEffect(d))
  {
    hide FirstWrite;
    var first := FirstWrite(ds, clock, n);
    TriesNext(ds, first, block - FirstData(n));
    QuietNext(ds, first, now - first);
  }

  // The trailer: it is tried whatever has failed.
  lemma TrailerStep(ds: seq<Disturbance>, clock: nat, n: nat, now: nat, failed: bool, isOpen: bool)
    requires Within(ds, clock, n, Trailer(n), now, failed, isOpen)
    ensures failed || isOpen
    ensures StartOf(ds, clock, n + 1) == Start(now + 1, failed || !DisturbanceAt(ds, now).Undisturbed?)
    ensures Lands(ds, clock, n, Trailer(n)) <==> isOpen && TakesEffect(DisturbanceAt(ds, now))
  {
    hide FirstWrite;
    QuietNext(ds, FirstWrite(ds, clock, n), now - FirstWrite(ds, clock, n));
  }

  // --- What the plan comes to ---

  /** Whatever has failed before: a sector none of whose own operations is disturbed is
      written, block for block, and counts. */
  lemma QuietSectorIsWritten(ds: seq<Disturbance>, clock: nat, n: nat)
    ensures
      var start := StartOf(ds, clock, n);
      Quiet(ds, start.clock, Opening(start) + DataBlocks(n) + 1) ==>
        && IsOpened(ds, clock, n)
        && (forall b: nat :: FirstData(n) <= b <= Trailer(n) ==> Lands(ds, clock, n, b))
        && StartOf(ds, clock, n + 1) == Start(start.clock + Opening(start) + DataBlocks(n) + 1, false)
  {
    var start := StartOf(ds, clock, n);
    if Quiet(ds, start.clock, Opening(start) + DataBlocks(n) + 1) {
      TriesNext(ds, FirstWrite(ds, clock, n), DataBlocks(n));
    }
  }

  // As long as all is well.
  lemma {:induction false} QuietSoFar(ds: seq<Disturbance>, n: nat, m: nat)
    requires m <= n && Quiet(ds, 0, FirstData(n) + n)
    ensures StartOf(ds, 0, m) == Start(FirstData(m) + m - 1, false) && IsOpened(ds, 0, m)
    ensures m < n ==> forall c: nat :: FirstData(m) <= c <= Trailer(m) ==> Lands(ds, 0, m, c)
  {
    hide Lands, FirstWrite, TrailerWrite;
    if m > 0 {
      QuietSoFar(ds, n, m - 1);
      QuietSectorIsWritten(ds, 0, m - 1);
    }
    if m < n {
      SectorsOfPlan(m, n);
      QuietSectorIsWritten(ds, 0, m);
    }
  }

  lemma SectorsOfPlan(m: nat, n: nat)
    requires m < n
    ensures FirstData(m) <= Trailer(m) < FirstData(n)
  {
  }

  /** A failed write: behind a data block that fails none is tried but the trailer, which
      is written unless the card has lost power, and the next sector begins anew. */
  lemma FailedSector(ds: seq<Disturbance>, clock: nat, n: nat, b: nat)
    requires FirstData(n) <= b <= Trailer(n)
    requires Quiet(ds, FirstWrite(ds, clock, n), b - FirstData(n))
    ensures
      var at := FirstWrite(ds, clock, n) + b - FirstData(n);
      var d := DisturbanceAt(ds, at);
      && (forall c: nat :: FirstData(n) <= c < b ==> Lands(ds, clock, n, c))
      && (!d.Undisturbed? ==>
            && (Lands(ds, clock, n, b) <==> d.Unanswered?)
            && (forall c: nat :: b < c < Trailer(n) ==> !Lands(ds, clock, n, c))
            && (b < Trailer(n) ==>
                  (Lands(ds, clock, n, Trailer(n)) <==> !d.Reset? && TakesEffect(DisturbanceAt(ds, at + 1))))
            && StartOf(ds, clock, n + 1) == Start(if b < Trailer(n) then at + 2 else at + 1, true))
  {
    hide FirstWrite;
    var first := FirstWrite(ds, clock, n);
    var k := b - FirstData(n);
    TriesNext(ds, first, k);
    TriesNext(ds, first, k + 1);
    QuietNext(ds, first, k);
    if b < Trailer(n) && !Quiet(ds, first, k + 1) {
      TriesStop(ds, first, k + 1, DataBlocks(n));
    }
  }

  lemma {:induction false} TriesStop(ds: seq<Disturbance>, from: nat, k: nat, n: nat)
    requires k <= n && !Quiet(ds, from, k)
    ensures Tries(ds, from, n) == Tries(ds, from, k) && !Quiet(ds, from, n)
    decreases n - k
  {
    if k < n {
      TriesNext(ds, from, n - 1);
      TriesStop(ds, from, k, n - 1);
    }
  }

  predicate QuietFrom(ds: seq<Disturbance>, from: nat) {
    forall i :: from <= i < |ds| ==> ds[i].Undisturbed?
  }

  // Once nothing is disturbed any more.
  lemma {:induction false} QuietAgain(ds: seq<Disturbance>, clock: nat, n: nat, m: nat)
    requires n <= m && QuietFrom(ds, StartOf(ds, clock, n).clock)
    ensures QuietFrom(ds, StartOf(ds, clock, m).clock)
    ensures IsOpened(ds, clock, m) && !StartOf(ds, clock, m + 1).failed
    ensures forall c: nat :: FirstData(m) <= c <= Trailer(m) ==> Lands(ds, clock, m, c)
    decreases m - n
  {
    hide Lands, FirstWrite, TrailerWrite, StartOf, IsOpened;
    if n < m {
      QuietAgain(ds, clock, n, m - 1);
      QuietSectorIsWritten(ds, clock, m - 1);
    }
    QuietSectorIsWritten(ds, clock, m);
  }

  // Only the write of block b, in sector n, is disturbed.
  function OneDisturbed(n: nat, b: nat, d: Disturbance): seq<Disturbance> {
    seq(b + n, _ => Undisturbed) + [d]
  }

  /** What that leaves behind: all other sectors are opened and written. */
  lemma OneFailure(n: nat, b: nat, d: Disturbance, m: nat)
    requires FirstData(n) <= b <= Trailer(n) && !d.Undisturbed?
    ensures IsOpened(OneDisturbed(n, b, d), 0, m)
    ensures StartOf(OneDisturbed(n, b, d), 0, m + 1).failed <==> m == n
    ensures forall c: nat :: FirstData(m) <= c <= Trailer(m) ==>
      (Lands(OneDisturbed(n, b, d), 0, m, c) <==> m == n ==>
        c < b || (if c == b then d.Unanswered? else c == Trailer(n) && !d.Reset?))
  {
    hide StartOf, Lands, Tries, FirstData, Trailer;
    var ds := OneDisturbed(n, b, d);
    if m < n {
      QuietSoFar(ds, n, m + 1);
      QuietSoFar(ds, n, m);
    } else {
      QuietSoFar(ds, n, n);
      FailedSector(ds, 0, n, b);
      if m > n {
        QuietAgain(ds, 0, n + 1, m);
      }
    }
  }

  lemma {:induction false} AllButOneClean(n: nat, b: nat, d: Disturbance, m: nat)
    requires FirstData(n) <= b <= Trailer(n) && !d.Undisturbed?
    ensures Clean(OneDisturbed(n, b, d), 0, m) == if m > n then m - 1 else m
  {
    hide StartOf;
    if m > 0 {
      AllButOneClean(n, b, d, m - 1);
      OneFailure(n, b, d, m - 1);
    }
  }
}
