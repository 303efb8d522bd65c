/** pn532_uart_receive (libnfc/drivers/pn532_uart.c): takes a reply apart while it
    comes in. */
module UartReceiver {
  import opened Nfc
  import opened Frames
  import opened SerialPort

  class Receiver {
    const port: Port
    var lastCommand: octet
    var lastError: int

    constructor (port: Port, lastCommand: octet)
      ensures this.port == port && this.lastCommand == lastCommand && lastError == 0
    {
      this.port, this.lastCommand, lastError := port, lastCommand, 0;
    }

    // The receiver has returned r for the outcome o of parsing the stream s: the
    // payload is in data and the stream goes on behind what was consumed, or the
    // error is reported and what has come in is dropped.
    ghost predicate Delivers(o: Outcome, s: seq<octet>, shortage: int, r: int, data: array<octet>)
      reads this, port, data
    {
      match o
      case Accepted(payload, consumed) =>
        && r == |payload| <= data.Length && data[..r] == payload && lastError == 0
        && consumed <= |s| && port.Stream() == s[consumed..] && port.Shortage() == shortage
      case Rejected(error) =>
        r == lastError == error && port.buffered == []
    }

    // The error exit of the receiver.
    method Fail(error: int) returns (r: int)
      modifies this`lastError, port`buffered
      ensures r == lastError == error && port.buffered == []
    {
      lastError := error;
      port.FlushInput();
      r := lastError;
    }

    /** Receives a reply into data, which has room for cap bytes. ackResult is what
        sending an ACK frame returns, should the wait for the first five bytes be
        aborted. A request that comes later is left for the next wait. */
    method Receive(data: array<octet>, cap: nat, ackResult: int) returns (r: int)
      requires data.Length >= cap
      modifies this`lastError, port, data
      ensures old(port.Aborts(0, 5)) ==> r == ackResult && lastError == NFC_EOPABORTED
      ensures !old(port.Aborts(0, 5)) ==>
        Delivers(Parse(old(port.Stream()), lastCommand, cap, old(port.Shortage())),
                 old(port.Stream()), old(port.Shortage()), r, data)
    {
      hide Complement, Sum, ParseHeader, ParseBody, BytesComing, Fault;
      ghost var s, shortage := port.Stream(), port.Shortage();
      var rx := new octet[5](_ => 0);
      var res, len := ReceiveHeader(rx);
      if res == NFC_EOPABORTED {
        return ackResult;
      }
      if res != 0 {
        r := Fail(res);
        return;
      }
      if len < 0 || len > cap {
        r := Fail(NFC_EIO);
        return;
      }
      BodyBehindHeader(s, |s| - |port.Stream()|, len, lastCommand, shortage);
      r := ReceiveBody(data, len, rx);
    }

    // The part of the receiver up to the length check.
    method ReceiveHeader(rx: array<octet>) returns (res: int, len: int)
      requires rx.Length == 5
      modifies this`lastError, port, rx
      ensures res == NFC_EOPABORTED <==> old(port.Aborts(0, 5))
      ensures res == NFC_EOPABORTED ==> lastError == NFC_EOPABORTED
      ensures res != NFC_EOPABORTED ==>
        match ParseHeader(old(port.Stream()), old(port.Shortage()))
        case Header(size, n) =>
          && res == 0 && len == n
          && size <= |old(port.Stream())| && port.Stream() == old(port.Stream())[size..]
          && port.Shortage() == old(port.Shortage())
        case NoHeader(error) =>
          res == error != 0
    {
      hide BytesComing, Fault;
      len := 0;
      ghost var s := port.Stream();
      lastError := port.Receive(rx, 0, 5, true);
      res := lastError;
      if res != 0 {
        return;
      }
      assert |s| >= 5 && s[..3] == [rx[0], rx[1], rx[2]] && s[3] == rx[3] && s[4] == rx[4];
      if !(rx[0] == 0x00 && rx[1] == 0x00 && rx[2] == 0xff) {
        return NFC_EIO, 0;
      }
      if rx[3] == 0x01 && rx[4] == 0xff {
        var _ := port.Receive(rx, 0, 3, false);
        return NFC_EIO, 0;
      }
      if rx[3] == 0xff && rx[4] == 0xff {
        res := port.Receive(rx, 0, 3, false);
        if res != 0 {
          return;
        }
        assert |s| >= 8 && s[5] == rx[0] && s[6] == rx[1] && s[7] == rx[2];
        len := rx[0] as int * 256 + rx[1] - 2;
        if (rx[0] as int + rx[1] + rx[2]) % 256 != 0 {
          return NFC_EIO, 0;
        }
      } else {
        if rx[3] as int + rx[4] != 256 {
          return NFC_EIO, 0;
        }
        len := rx[3] - 2;
      }
    }

    // The part of the receiver behind the header; rx is its small buffer.
    method ReceiveBody(data: array<octet>, len: nat, rx: array<octet>) returns (r: int)
      requires data.Length >= len && rx.Length == 5 && rx != data
      modifies this`lastError, port, data, rx
      ensures Delivers(ParseBody(old(port.Stream()), 0, len, lastCommand, old(port.Shortage())),
                       old(port.Stream()), old(port.Shortage()), r, data)
    {
      hide Complement, Sum, ParseBody, BytesComing, Fault;
      ghost var s, shortage := port.Stream(), port.Shortage();
      BodyCases(s, len, lastCommand, shortage);
      lastError := port.Receive(rx, 0, 2, false);
      if lastError != 0 {
        r := Fail(lastError);
        return;
      }
      assert s[..2][0] == s[0] && s[..2][1] == s[1];
      if rx[0] != TFI_REPLY {
        r := Fail(NFC_EIO);
        return;
      }
      if rx[1] != lastCommand + 1 {
        r := Fail(NFC_EIO);
        return;
      }
      r := ReceivePayload(data, len, rx);
    }

    method ReceivePayload(data: array<octet>, len: nat, rx: array<octet>) returns (r: int)
      requires data.Length >= len && rx.Length == 5 && rx != data && lastCommand < 255
      modifies this`lastError, port, data, rx
      ensures Delivers(ParsePayload(old(port.Stream()), len, lastCommand, old(port.Shortage())),
                       old(port.Stream()), old(port.Shortage()), r, data)
    {
      hide Complement, Sum, BytesComing, Fault;
      ghost var s, shortage := port.Stream(), port.Shortage();
      if len > 0 {
        lastError := port.Receive(data, 0, len, false);
        if lastError != 0 {
          r := Fail(lastError);
          return;
        }
      }
      assert |s| >= len && data[..len] == s[..len] && port.Stream() == s[len..];
      lastError := port.Receive(rx, 0, 2, false);
      if lastError != 0 {
        r := Fail(lastError);
        return;
      }
      assert rx[0] == s[len] && rx[1] == s[len + 1] && port.Stream() == s[len + 2..];
      var btDCS := ReplyChecksum(lastCommand, data, len);
      if btDCS != rx[0] {
        r := Fail(NFC_EIO);
        return;
      }
      if rx[1] != 0x00 {
        r := Fail(NFC_EIO);
        return;
      }
      r := len;
    }
  }

  // The payload, the checksum and the postamble.
  function ParsePayload(s: seq<octet>, len: nat, lastCommand: octet, shortage: int): Outcome {
    if |s| < len + 2 then
      Rejected(shortage)
    else if s[len] != Complement(TFI_REPLY + (lastCommand + 1) + Sum(s[..len])) || s[len + 1] != 0x00 then
      Rejected(NFC_EIO)
    else
      Accepted(s[..len], len + 2)
  }

  lemma BodyCases(s: seq<octet>, len: nat, lastCommand: octet, shortage: int)
    ensures
      ParseBody(s, 0, len, lastCommand, shortage) ==
      if |s| < 2 then Rejected(shortage)
      else if s[0] != TFI_REPLY || s[1] != lastCommand + 1 then Rejected(NFC_EIO)
      else match ParsePayload(s[2..], len, lastCommand, shortage)
        case Accepted(payload, consumed) => Accepted(payload, consumed + 2)
        case Rejected(error) => Rejected(error)
  {
    hide Complement, Sum;
    if |s| >= len + 4 {
      assert s[2..][..len] == s[2..2 + len];
    }
  }

  // A body parsed where it starts, and the same body behind n more bytes.
  lemma BodyBehindHeader(s: seq<octet>, n: nat, len: nat, lastCommand: octet, shortage: int)
    requires n <= |s|
    ensures
      match ParseBody(s[n..], 0, len, lastCommand, shortage)
      case Accepted(payload, consumed) => ParseBody(s, n, len, lastCommand, shortage) == Accepted(payload, n + consumed)
      case Rejected(error) => ParseBody(s, n, len, lastCommand, shortage) == Rejected(error)
  {
    hide Complement, Sum;
    var t := s[n..];
    if |s| >= n + 2 + len + 2 {
      assert t[2..2 + len] == s[n + 2..n + 2 + len];
    }
  }
}
