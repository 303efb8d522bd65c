/** pn53x_usb_receive (libnfc/drivers/pn53x_usb.c), from the bulk read on: the
    reply stands in a buffer that is larger than what was read. */
module UsbReceiver {
  import opened Nfc
  import opened Frames

  // PN53X_USB_BUFFER_LEN
  const BUFFER_LEN := EXTENDED_DATA_MAX + EXTENDED_OVERHEAD

  class Receiver {
    var lastCommand: octet
    var lastError: int

    constructor (lastCommand: octet)
      ensures this.lastCommand == lastCommand && lastError == 0
    {
      this.lastCommand, lastError := lastCommand, 0;
    }

    /** Takes the reply out of the buffer. The result is that of parsing the whole
        buffer, including whatever stands behind the bytes that were read. rx is the
        buffer with the memory behind it: of an extended reply with 264 bytes, which
        a caller's buffer of that size lets pass, the source reads one byte too far. */
    method Receive(rx: array<octet>, data: array<octet>, cap: nat) returns (r: int)
      requires rx.Length >= BUFFER_LEN && rx.Length >= cap + 12 && data != rx && data.Length >= cap
      modifies this`lastError, data
      ensures
        match Parse(old(rx[..]), lastCommand, cap, NFC_EIO)
        case Accepted(payload, _) => r == |payload| <= data.Length && data[..r] == payload && lastError == 0
        case Rejected(error) => r == lastError == error
    {
      hide Complement, Sum, ParseHeader, ParseBody;
      var ok, offset, len := ReadHeader(rx);
      if !ok || len < 0 || len > cap {
        lastError := NFC_EIO;
        return lastError;
      }
      r := ReadBody(rx, offset, len, data);
    }

    // The part up to the length check.
    method ReadHeader(rx: array<octet>) returns (ok: bool, offset: nat, len: int)
      requires rx.Length >= BUFFER_LEN
      ensures ParseHeader(rx[..], NFC_EIO) == if ok then Header(offset, len) else NoHeader(NFC_EIO)
      ensures ok ==> offset <= 8
    {
      ok, len, offset := false, 0, 0;
      assert rx[..][..3] == [rx[0], rx[1], rx[2]];
      if !(rx[0] == 0x00 && rx[1] == 0x00 && rx[2] == 0xff) {
        return;
      }
      offset := 3;
      if rx[offset] == 0x01 && rx[offset + 1] == 0xff {
        return;
      } else if rx[offset] == 0xff && rx[offset + 1] == 0xff {
        offset := offset + 2;
        len := rx[offset] as int * 256 + rx[offset + 1] - 2;
        if (rx[offset] as int + rx[offset + 1] + rx[offset + 2]) % 256 != 0 {
          return;
        }
        offset := offset + 3;
      } else {
        if rx[offset] as int + rx[offset + 1] != 256 {
          return;
        }
        len := rx[offset] - 2;
        offset := offset + 2;
      }
      ok := true;
    }

    // The part behind the length check.
    method ReadBody(rx: array<octet>, start: nat, len: nat, data: array<octet>) returns (r: int)
      requires start + len + 4 <= rx.Length && data != rx && data.Length >= len
      modifies this`lastError, data
      ensures
        match ParseBody(old(rx[..]), start, len, lastCommand, NFC_EIO)
        case Accepted(payload, _) => r == |payload| <= data.Length && data[..r] == payload && lastError == 0
        case Rejected(error) => r == lastError == error
    {
      hide Complement, Sum;
      lastError := NFC_EIO;
      var offset := start;
      if rx[offset] != TFI_REPLY {
        return lastError;
      }
      offset := offset + 1;
      if rx[offset] != lastCommand + 1 {
        return lastError;
      }
      offset := offset + 1;
      forall i | 0 <= i < len {
        data[i] := rx[offset + i];
      }
      ghost var s := old(rx[..]);
      ghost var payload := s[start + 2..start + 2 + len];
      assert rx[..] == s && data[..len] == payload;
      offset := offset + len;
      var btDCS := ReplyChecksum(lastCommand, data, len);
      assert btDCS == Complement(TFI_REPLY + (lastCommand + 1) + Sum(payload));
      if btDCS != rx[offset] {
        return lastError;
      }
      offset := offset + 1;
      if rx[offset] != 0x00 {
        return lastError;
      }
      lastError := 0;
      return len;
    }
  }

  /** The buffered and the streaming receiver agree, in acceptance and payload, on
      every read that is complete, whatever is left in the buffer behind it. */
  lemma BufferedAgreesWithStreaming(read: seq<octet>, stale: seq<octet>, lastCommand: octet, cap: nat, shortage: int)
    requires Complete(read, lastCommand, cap)
    ensures Parse(read + stale, lastCommand, cap, NFC_EIO) == Parse(read, lastCommand, cap, shortage)
  {
    hide Parse;
    CompleteIsFinal(read, stale, lastCommand, cap, NFC_EIO);
    CompleteIsFinal(read, stale, lastCommand, cap, shortage);
  }

  // Both receivers take the same payload, or both take none.
  predicate Agree(usb: Outcome, uart: Outcome) {
    (usb.Accepted? <==> uart.Accepted?) && (usb.Accepted? ==> usb.payload == uart.payload)
  }

  /** On any read, complete or not: they agree exactly if what the buffered receiver
      takes lies within the bytes that were read. It is the check that is missing.
      Where they do not agree, the streaming receiver reports that bytes are missing. */
  lemma ReceiversAgree(read: seq<octet>, stale: seq<octet>, lastCommand: octet, cap: nat, shortage: int)
    ensures
      var usb := Parse(read + stale, lastCommand, cap, NFC_EIO);
      var uart := Parse(read, lastCommand, cap, shortage);
      && (Agree(usb, uart) <==> (usb.Accepted? ==> usb.consumed <= |read|))
      && (usb.Accepted? ==> (Complete(read, lastCommand, cap) <==> usb.consumed <= |read|))
      && (!Agree(usb, uart) ==> usb.Accepted? && uart == Rejected(shortage))
  {
    hide Parse;
    if Complete(read, lastCommand, cap) {
      BufferedAgreesWithStreaming(read, stale, lastCommand, cap, shortage);
      if Parse(read, lastCommand, cap, shortage).Accepted? {
        AcceptedIsReply(read, lastCommand, cap, shortage);
      }
    } else {
      ShortageIsReported(read, lastCommand, cap, shortage);
      if Parse(read + stale, lastCommand, cap, NFC_EIO).Accepted? {
        AcceptedNeedsAll(read, stale, lastCommand, cap);
      }
    }
  }

  // What is accepted within the bytes read is accepted without the stale ones.
  lemma AcceptedNeedsAll(read: seq<octet>, stale: seq<octet>, lastCommand: octet, cap: nat)
    requires !Complete(read, lastCommand, cap) && Parse(read + stale, lastCommand, cap, NFC_EIO).Accepted?
    ensures Parse(read + stale, lastCommand, cap, NFC_EIO).consumed > |read|
  {
    hide IsReply, Parse;
    var s := read + stale;
    AcceptedIsReply(s, lastCommand, cap, NFC_EIO);
    var usb := Parse(s, lastCommand, cap, NFC_EIO);
    if usb.consumed <= |read| {
      assert s[..usb.consumed] == read[..usb.consumed];
      var frame, rest := read[..usb.consumed], read[usb.consumed..];
      assert frame + rest == read;
      ReplyIsAccepted(frame, rest, lastCommand, usb.payload, cap, 0);
    }
  }

  /** In particular a reply that is cut anywhere: the stream runs short, and there are
      stale bytes for which the buffered receiver takes it. */
  lemma CutReplyIsCompleted(frame: seq<octet>, n: nat, lastCommand: octet, payload: seq<octet>, cap: nat, shortage: int)
    requires lastCommand < 255 && IsReply(frame, lastCommand + 1, payload) && |payload| <= cap
    requires n < |frame|
    ensures Parse(frame[..n] + frame[n..], lastCommand, cap, NFC_EIO) == Accepted(payload, |frame|)
    ensures Parse(frame[..n], lastCommand, cap, shortage) == Rejected(shortage)
  {
    hide IsReply, Parse;
    assert frame[..n] + frame[n..] == frame + [];
    ReplyIsAccepted(frame, [], lastCommand, payload, cap, NFC_EIO);
    ReceiversAgree(frame[..n], frame[n..], lastCommand, cap, shortage);
  }

  // The number of bytes after which a stream that starts like s is decided: the
  // header, with three more bytes if it is an extended one; then TFI and response
  // code; then the rest of the frame.
  function Awaited(s: seq<octet>, lastCommand: octet, cap: nat): nat {
    if |s| < 5 then 5
    else if s[..3] == [0x00, 0x00, 0xff] && s[3] == 0xff && s[4] == 0xff && |s| < 8 then 8
    else
      match ParseHeader(s, 0)
      case NoHeader(_) => 5
      case Header(size, len) =>
        if len < 0 || len > cap then size
        else if |s| < size + 2 || s[size] != TFI_REPLY || s[size + 1] != lastCommand + 1 then size + 2
        else size + len + 4
  }

  /** The streaming receiver decides as soon as the bytes it awaits are there, and
      reports a shortage exactly before. For a reply these are all its bytes. */
  lemma ShortageIsReported(s: seq<octet>, lastCommand: octet, cap: nat, shortage: int)
    ensures Complete(s, lastCommand, cap) <==> |s| >= Awaited(s, lastCommand, cap)
    ensures |s| < Awaited(s, lastCommand, cap) ==> Parse(s, lastCommand, cap, shortage) == Rejected(shortage)
    ensures Parse(s, lastCommand, cap, shortage).Accepted? ==>
      Awaited(s, lastCommand, cap) == Parse(s, lastCommand, cap, shortage).consumed
  {
    hide Complement, Sum;
  }
}
