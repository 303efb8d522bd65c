/** uart_receive (libnfc/buses/uart_posix.c): puts a read of a fixed number of
    bytes together from whatever pieces the operating system delivers. */
module SerialPort {
  import opened Nfc

  // What select() can end with: bytes have come in (none at the end of the
  // file), a signal interrupted it, another thread asked to abort, time is up,
  // or the device failed.
  datatype Event = Bytes(chunk: seq<octet>) | Interrupted | AbortRequest | TimeUp | DeviceError

  // The bytes that can still be read before the first fault, and the error code
  // of that fault. When nothing more happens, the wait runs into its timeout.
  function BytesComing(events: seq<Event>): seq<octet> {
    if events == [] then []
    else match events[0]
      case Bytes(chunk) => if chunk == [] then [] else chunk + BytesComing(events[1..])
      case Interrupted => BytesComing(events[1..])
      case AbortRequest => BytesComing(events[1..])
      case TimeUp => []
      case DeviceError => []
  }

  function Fault(events: seq<Event>): (error: int)
    ensures error < 0 && error != NFC_EOPABORTED
  {
    if events == [] then NFC_ETIMEOUT
    else match events[0]
      case Bytes(chunk) => if chunk == [] then NFC_EIO else Fault(events[1..])
      case Interrupted => Fault(events[1..])
      case AbortRequest => Fault(events[1..])
      case TimeUp => NFC_ETIMEOUT
      case DeviceError => NFC_EIO
  }

  // Whether a wait for need bytes ends with an abort: one is requested already, or
  // is requested while the wait goes on. have bytes have come in so far.
  predicate WaitAborts(requested: bool, have: nat, events: seq<Event>, need: nat)
    decreases |events|
  {
    requested ||
    (have < need && events != [] &&
     match events[0]
     case Bytes(chunk) => chunk != [] && WaitAborts(false, have + |chunk|, events[1..], need)
     case Interrupted => WaitAborts(false, have, events[1..], need)
     case AbortRequest => true
     case TimeUp => false
     case DeviceError => false)
  }

  class Port {
    // Bytes the operating system holds, and what will happen while we wait.
    var buffered: seq<octet>
    var events: seq<Event>
    var abortRequested: bool

    constructor (buffered: seq<octet>, events: seq<Event>)
      ensures this.buffered == buffered && this.events == events && !abortRequested
    {
      this.buffered, this.events, abortRequested := buffered, events, false;
    }

    // The port as a stream: the pieces it comes in are gone from this view.
    function Stream(): seq<octet>
      reads this
    {
      buffered + BytesComing(events)
    }

    function Shortage(): (error: int)
      reads this
    {
      Fault(events)
    }

    // Whether a wait for need bytes will be aborted, received bytes of them in.
    predicate Aborts(received: nat, need: nat)
      reads this
    {
      WaitAborts(abortRequested, received + |buffered|, events, need)
    }

    // uart_flush_input: drops what has arrived so far.
    method FlushInput()
      modifies this`buffered
      ensures buffered == []
    {
      buffered := [];
    }

    // read(): at most max of the bytes that are there.
    method Read(rx: array<octet>, at: nat, max: nat) returns (n: nat)
      requires buffered != [] && max > 0 && at + max <= rx.Length
      modifies this`buffered, rx
      ensures 0 < n <= max && n <= |old(buffered)|
      ensures n == max || buffered == []
      ensures old(buffered) == rx[at..at + n] + buffered
      ensures forall i :: 0 <= i < at || at + n <= i < rx.Length ==> rx[i] == old(rx[i])
    {
      n := if |buffered| < max then |buffered| else max;
      forall i | 0 <= i < n {
        rx[at + i] := buffered[i];
      }
      buffered := buffered[n..];
    }

    // One call of select(): there is something to read, or it has to be called
    // again, or the whole read fails.
    method Select(watchAbort: bool, ghost received: nat, ghost need: nat) returns (outcome: Selected)
      requires received < need
      modifies this
      ensures outcome.Failed? && outcome.error == NFC_EOPABORTED <==> watchAbort && old(abortRequested)
      ensures outcome.Failed? && outcome.error != NFC_EOPABORTED ==>
        |old(Stream())| == 0 && outcome.error == old(Shortage())
      ensures outcome.Readable? ==> buffered != []
      ensures watchAbort && outcome.Failed? ==> (outcome.error == NFC_EOPABORTED <==> old(Aborts(received, need)))
      ensures watchAbort && !outcome.Failed? ==> Aborts(received, need) == old(Aborts(received, need))
      ensures watchAbort && outcome.Readable? ==> !abortRequested
      ensures outcome.Again? ==> |events| < |old(events)|
      ensures outcome.Failed? || (Stream() == old(Stream()) && Shortage() == old(Shortage()))
      ensures |events| <= |old(events)|
    {
      if watchAbort && abortRequested {
        abortRequested := false;
        return Failed(NFC_EOPABORTED);
      }
      if buffered != [] {
        return Readable;
      }
      if events == [] {
        return Failed(NFC_ETIMEOUT);
      }
      var event := events[0];
      events := events[1..];
      match event
      case Bytes(chunk) =>
        if chunk == [] {
          return Failed(NFC_EIO);
        }
        buffered := chunk;
        return Readable;
      case Interrupted =>
        return Again;
      case AbortRequest =>
        abortRequested := true;
        return Again;
      case TimeUp =>
        return Failed(NFC_ETIMEOUT);
      case DeviceError =>
        return Failed(NFC_EIO);
    }

    // Appends the next piece to what has been read so far.
    method Continue(rx: array<octet>, at: nat, received: nat, max: nat, ghost got: seq<octet>)
      returns (n: nat, ghost got': seq<octet>)
      requires buffered != [] && max > 0 && at + received + max <= rx.Length && rx[at..at + received] == got
      modifies this`buffered, rx
      ensures Aborts(received + n, received + max) == old(Aborts(received, received + max))
      ensures 0 < n <= max && rx[at..at + received + n] == got' && |got'| == received + n
      ensures got + old(Stream()) == got' + Stream()
      ensures forall i :: 0 <= i < at + received || at + received + max <= i < rx.Length ==> rx[i] == old(rx[i])
    {
      ghost var held := buffered;
      n := Read(rx, at + received, max);
      ghost var news := rx[at + received..at + received + n];
      got' := got + news;
      NextPiece(got, held, news, buffered, BytesComing(events));
    }

    lemma NothingToAbort(need: nat)
      ensures !abortRequested ==> !Aborts(need, need)
    {
    }

    /** Reads into rx[at..at + count]. An abort is watched for or left for later. Unless
        aborted, the result depends on the stream only, not on the pieces it arrives
        in or on what is requested meanwhile. */
    method Receive(rx: array<octet>, at: nat, count: nat, watchAbort: bool) returns (res: int)
      requires count > 0 && at + count <= rx.Length
      modifies this, rx
      ensures forall i :: 0 <= i < at || at + count <= i < rx.Length ==> rx[i] == old(rx[i])
      ensures res == NFC_EOPABORTED <==> watchAbort && old(Aborts(0, count))
      ensures res != NFC_EOPABORTED ==>
        if |old(Stream())| >= count then
          && res == NFC_SUCCESS
          && rx[at..at + count] == old(Stream())[..count]
          && Stream() == old(Stream())[count..] && Shortage() == old(Shortage())
        else
          res == old(Shortage())
    {
      hide BytesComing, Fault, Aborts;
      var received := 0;
      ghost var got: seq<octet> := [];
      while true
        invariant 0 <= received < count
        invariant forall i :: 0 <= i < at || at + count <= i < rx.Length ==> rx[i] == old(rx[i])
        invariant watchAbort ==> Aborts(received, count) == old(Aborts(0, count))
        invariant |got| == received && rx[at..at + received] == got
        invariant old(Stream()) == got + Stream() && Shortage() == old(Shortage())
        decreases |events|, count - received
      {
        var outcome := Select(watchAbort, received, count);
        if outcome.Failed? {
          return outcome.error;
        }
        if outcome.Again? {
          continue;
        }
        var piece;
        piece, got := Continue(rx, at, received, count - received, got);
        received := received + piece;
        if received == count {
          NothingToAbort(count);
          AllRead(got, Stream());
          return NFC_SUCCESS;
        }
      }
    }
  }

  lemma NextPiece(got: seq<octet>, held: seq<octet>, news: seq<octet>, left: seq<octet>, rest: seq<octet>)
    requires held == news + left
    ensures got + (held + rest) == (got + news) + (left + rest)
  {
  }

  lemma AllRead(got: seq<octet>, rest: seq<octet>)
    ensures (got + rest)[..|got|] == got && (got + rest)[|got|..] == rest
  {
  }

  datatype Selected = Readable | Again | Failed(error: int)

  /** A stream can be cut differently, and waiting can be interrupted in between,
      without a difference to what can be read and how it ends. */
  lemma {:induction false} CutElsewhere(before: seq<Event>, a: seq<octet>, b: seq<octet>, after: seq<Event>)
    requires a != [] && b != []
    ensures
      var whole := before + [Bytes(a + b)] + after;
      var cut := before + [Bytes(a), Interrupted, Bytes(b)] + after;
      BytesComing(whole) == BytesComing(cut) && Fault(whole) == Fault(cut)
    decreases |before|
  {
    var whole := before + [Bytes(a + b)] + after;
    var cut := before + [Bytes(a), Interrupted, Bytes(b)] + after;
    if before == [] {
      assert whole[1..] == after;
      var cut1, cut2 := [Interrupted, Bytes(b)] + after, [Bytes(b)] + after;
      assert cut[1..] == cut1 && cut1[1..] == cut2 && cut2[1..] == after;
      assert BytesComing(cut1) == BytesComing(cut2) == b + BytesComing(after);
      assert Fault(cut1) == Fault(cut2) == Fault(after);
      assert (a + b) + BytesComing(after) == a + (b + BytesComing(after));
    } else {
      assert whole[1..] == before[1..] + [Bytes(a + b)] + after;
      assert cut[1..] == before[1..] + [Bytes(a), Interrupted, Bytes(b)] + after;
      CutElsewhere(before[1..], a, b, after);
    }
  }

  // --- Which event ends a wait ---

  // The wait goes on after an event, with these bytes more.
  predicate GoesOn(event: Event) {
    event.Interrupted? || event.AbortRequest? || (event.Bytes? && event.chunk != [])
  }

  function BytesOf(events: seq<Event>): seq<octet> {
    if events == [] then []
    else
      var last := events[|events| - 1];
      BytesOf(events[..|events| - 1]) + if last.Bytes? then last.chunk else []
  }

  lemma {:induction false} BytesOfFirst(event: Event, events: seq<Event>)
    ensures BytesOf([event] + events) == (if event.Bytes? then event.chunk else []) + BytesOf(events)
  {
    if events == [] {
      assert ([event] + events)[..0] == [];
    } else {
      var n := |events|;
      assert ([event] + events)[..n] == [event] + events[..n - 1];
      BytesOfFirst(event, events[..n - 1]);
    }
  }

  /** The bytes are those of the events before the first that ends the wait. The error
      is -1, NFC_EIO, if that is the end of the file or a failure of the device, and -6,
      NFC_ETIMEOUT, if time is up or nothing more happens. */
  lemma {:induction false} FirstFault(events: seq<Event>, k: nat)
    requires k <= |events| && forall i :: 0 <= i < k ==> GoesOn(events[i])
    requires k < |events| ==> !GoesOn(events[k])
    ensures BytesComing(events) == BytesOf(events[..k])
    ensures Fault(events) == if k < |events| && !events[k].TimeUp? then -1 else -6
    decreases k
  {
    if k > 0 {
      assert events[1..][..k - 1] == events[1..k] && events[..k] == [events[0]] + events[1..k];
      FirstFault(events[1..], k - 1);
      BytesOfFirst(events[0], events[1..k]);
    }
  }

  // The k-th event asks for an abort while the wait for need bytes goes on.
  predicate AbortsAt(have: nat, events: seq<Event>, need: nat, k: nat)
    requires k < |events|
  {
    && events[k].AbortRequest?
    && (forall i :: 0 <= i < k ==> GoesOn(events[i]))
    && have + |BytesOf(events[..k])| < need
  }

  lemma AbortShifts(have: nat, event: Event, rest: seq<Event>, need: nat, k: nat)
    requires k < |rest|
    ensures
      var have' := have + if event.Bytes? then |event.chunk| else 0;
      AbortsAt(have, [event] + rest, need, k + 1) <==> GoesOn(event) && AbortsAt(have', rest, need, k)
  {
    hide BytesOf;
    assert ([event] + rest)[..k + 1] == [event] + rest[..k];
    BytesOfFirst(event, rest[..k]);
    assert ([event] + rest)[0] == event && ([event] + rest)[k + 1] == rest[k];
    assert forall i :: 0 <= i < k ==> ([event] + rest)[i + 1] == rest[i];
    assert forall i :: 1 <= i < k + 1 ==> ([event] + rest)[i] == rest[i - 1];
  }

  predicate AbortsWithin(have: nat, events: seq<Event>, need: nat) {
    exists k :: 0 <= k < |events| && AbortsAt(have, events, need, k)
  }

  lemma AbortsLater(have: nat, event: Event, rest: seq<Event>, need: nat)
    ensures
      var have' := have + if event.Bytes? then |event.chunk| else 0;
      AbortsWithin(have, [event] + rest, need) <==>
        (event.AbortRequest? && have < need) || (GoesOn(event) && AbortsWithin(have', rest, need))
  {
    var events := [event] + rest;
    var have' := have + if event.Bytes? then |event.chunk| else 0;
    assert AbortsAt(have, events, need, 0) <==> event.AbortRequest? && have < need;
    hide AbortsAt;
    forall k: nat | k < |rest|
      ensures AbortsAt(have, events, need, k + 1) <==> GoesOn(event) && AbortsAt(have', rest, need, k)
    {
      AbortShifts(have, event, rest, need, k);
    }
    if AbortsWithin(have, events, need) {
      var k :| 0 <= k < |events| && AbortsAt(have, events, need, k);
      if k > 0 {
        assert AbortsAt(have, events, need, (k - 1) + 1);
        assert AbortsAt(have', rest, need, k - 1);
      }
    }
    if GoesOn(event) && AbortsWithin(have', rest, need) {
      var k :| 0 <= k < |rest| && AbortsAt(have', rest, need, k);
      assert AbortsAt(have, events, need, k + 1);
    }
  }

  lemma NotWithin(have: nat, events: seq<Event>, need: nat)
    requires have >= need
    ensures !AbortsWithin(have, events, need)
  {
  }

  /** A wait is aborted if and only if it is asked for before, or while bytes are still
      missing and nothing has ended the wait. */
  lemma {:induction false} AbortIsSeen(requested: bool, have: nat, events: seq<Event>, need: nat)
    ensures WaitAborts(requested, have, events, need) <==> requested || AbortsWithin(have, events, need)
    decreases |events|
  {
    hide AbortsWithin;
    if requested {
      return;
    }
    if events == [] {
      assert !AbortsWithin(have, [], need) by { NoEvent(have, need); }
    } else {
      var event, rest := events[0], events[1..];
      assert events == [event] + rest;
      AbortsLater(have, event, rest, need);
      var have' := have + if event.Bytes? then |event.chunk| else 0;
      AbortIsSeen(false, have', rest, need);
      if have' >= need {
        NotWithin(have', rest, need);
      }
    }
  }

  lemma NoEvent(have: nat, need: nat)
    ensures !AbortsWithin(have, [], need)
  {
  }
}
