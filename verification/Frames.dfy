/** PN53x host frames: what pn53x_build_frame writes (libnfc/chips/pn53x.c), which
    replies the UART receiver takes (libnfc/drivers/pn532_uart.c), and the same
    for the receiver of the USB driver (libnfc/drivers/pn53x_usb.c). */
module Frames {
  import opened Nfc

  const NORMAL_DATA_MAX := 254
  const EXTENDED_DATA_MAX := 264
  const NORMAL_OVERHEAD := 8
  const EXTENDED_OVERHEAD := 11

  const TFI_COMMAND: octet := 0xD4
  const TFI_REPLY: octet := 0xD5

  // --- The frame layout ---

  function Sum(data: seq<octet>): nat {
    if data == [] then 0 else Sum(data[..|data| - 1]) + data[|data| - 1]
  }

  // The byte that makes a sum a multiple of 256.
  function Complement(sum: nat): (c: octet)
    ensures (sum + c) % 256 == 0
  {
    var r := sum % 256;
    assert sum == sum / 256 * 256 + r;
    if r == 0 then 0 else 256 - r
  }

  lemma ComplementUnique(sum: nat, c: octet)
    requires (sum + c) % 256 == 0
    ensures c == Complement(sum)
  {
  }

  lemma ComplementStep(sum: nat, d: octet)
    ensures (Complement(sum) - d) % 256 == Complement(sum + d)
  {
    var c := Complement(sum);
    hide Complement;
    ComplementUnique(sum + d, (c - d) % 256);
  }

  // Preamble, start code, length, length checksum and TFI.
  function NormalHead(tfi: octet, len: nat): seq<octet>
    requires len <= 254
  {
    [0x00, 0x00, 0xff, len + 1, 256 - (len + 1), tfi]
  }

  function ExtendedHead(tfi: octet, len: nat): seq<octet>
    requires len + 1 < 0x10000
  {
    var lenM, lenL := (len + 1) / 256, (len + 1) % 256;
    [0x00, 0x00, 0xff, 0xff, 0xff, lenM, lenL, Complement(lenM + lenL), tfi]
  }

  // Data checksum and postamble.
  function Tail(tfi: octet, data: seq<octet>): seq<octet> {
    [Complement(tfi + Sum(data)), 0x00]
  }

  function NormalFrame(tfi: octet, data: seq<octet>): seq<octet>
    requires |data| <= 254
  {
    NormalHead(tfi, |data|) + data + Tail(tfi, data)
  }

  function ExtendedFrame(tfi: octet, data: seq<octet>): seq<octet>
    requires |data| + 1 < 0x10000
  {
    ExtendedHead(tfi, |data|) + data + Tail(tfi, data)
  }

  /** pn53x_build_frame: the frame array starts with the preamble 00 00 ff that
      the callers put there. */
  method BuildFrame(frame: array<octet>, data: seq<octet>) returns (res: int, size: nat)
    requires frame.Length >= 264 + 11
    requires frame[..3] == [0x00, 0x00, 0xff]
    modifies frame
    ensures |data| > 264 ==> res == -90 && size == 0
    ensures |data| <= 264 ==> res == 0 && size <= frame.Length
    ensures |data| <= 254 ==> frame[..size] == NormalFrame(0xD4, data)
    ensures 254 < |data| <= 264 ==> frame[..size] == ExtendedFrame(0xD4, data)
    ensures forall i :: size <= i < frame.Length ==> frame[i] == old(frame[i])
  {
    hide NormalFrame, ExtendedFrame;
    if |data| <= NORMAL_DATA_MAX {
      size := BuildNormalFrame(frame, data);
    } else if |data| <= EXTENDED_DATA_MAX {
      size := BuildExtendedFrame(frame, data);
    } else {
      return NFC_ECHIP, 0;
    }
    res := 0;
  }

  // The two branches of the source.
  method BuildNormalFrame(frame: array<octet>, data: seq<octet>) returns (size: nat)
    requires |data| <= NORMAL_DATA_MAX && frame.Length >= |data| + NORMAL_OVERHEAD
    requires frame[..3] == [0x00, 0x00, 0xff]
    modifies frame
    ensures size == |data| + NORMAL_OVERHEAD && frame[..size] == NormalFrame(TFI_COMMAND, data)
    ensures forall i :: size <= i < frame.Length ==> frame[i] == old(frame[i])
  {
    hide Complement, Sum, NormalFrame;
    frame[3] := |data| + 1;
    frame[4] := 256 - (|data| + 1);
    frame[5] := TFI_COMMAND;
    CopyInto(frame, 6, data);
    var btDCS := DataChecksum(TFI_COMMAND, data);
    frame[6 + |data|] := btDCS;
    frame[|data| + 7] := 0x00;
    size := |data| + NORMAL_OVERHEAD;
    AssembleNormal(frame[..size], data, btDCS);
  }

  method BuildExtendedFrame(frame: array<octet>, data: seq<octet>) returns (size: nat)
    requires |data| <= EXTENDED_DATA_MAX && frame.Length >= |data| + EXTENDED_OVERHEAD
    requires frame[..3] == [0x00, 0x00, 0xff]
    modifies frame
    ensures size == |data| + EXTENDED_OVERHEAD && frame[..size] == ExtendedFrame(TFI_COMMAND, data)
    ensures forall i :: size <= i < frame.Length ==> frame[i] == old(frame[i])
  {
    hide Complement, Sum, ExtendedFrame;
    frame[3] := 0xff;
    frame[4] := 0xff;
    frame[5] := (|data| + 1) / 256;
    frame[6] := (|data| + 1) % 256;
    frame[7] := Complement(frame[5] as int + frame[6]);
    frame[8] := TFI_COMMAND;
    CopyInto(frame, 9, data);
    var btDCS := DataChecksum(TFI_COMMAND, data);
    frame[9 + |data|] := btDCS;
    frame[|data| + 10] := 0x00;
    size := |data| + EXTENDED_OVERHEAD;
    AssembleExtended(frame[..size], data, btDCS);
  }

  lemma AssembleNormal(f: seq<octet>, data: seq<octet>, dcs: octet)
    requires |f| == |data| + NORMAL_OVERHEAD && |data| <= NORMAL_DATA_MAX
    requires f[..3] == [0x00, 0x00, 0xff] && f[3] == |data| + 1 && f[4] == 256 - (|data| + 1) && f[5] == TFI_COMMAND
    requires f[6..6 + |data|] == data && f[6 + |data|] == dcs && f[7 + |data|] == 0x00
    requires dcs == Complement(TFI_COMMAND + Sum(data))
    ensures f == NormalFrame(TFI_COMMAND, data)
  {
    hide Complement, Sum;
    var head := NormalHead(TFI_COMMAND, |data|);
    assert f[..3][0] == 0x00 && f[..3][1] == 0x00 && f[..3][2] == 0xff;
    assert f[..6] == head;
    ThreeParts(f, head, data, Tail(TFI_COMMAND, data));
  }

  lemma AssembleExtended(f: seq<octet>, data: seq<octet>, dcs: octet)
    requires |f| == |data| + EXTENDED_OVERHEAD && |data| <= EXTENDED_DATA_MAX
    requires f[..3] == [0x00, 0x00, 0xff] && f[3] == 0xff && f[4] == 0xff
    requires f[5] == (|data| + 1) / 256 && f[6] == (|data| + 1) % 256
    requires f[7] == Complement(f[5] as int + f[6]) && f[8] == TFI_COMMAND
    requires f[9..9 + |data|] == data && f[9 + |data|] == dcs && f[10 + |data|] == 0x00
    requires dcs == Complement(TFI_COMMAND + Sum(data))
    ensures f == ExtendedFrame(TFI_COMMAND, data)
  {
    hide Complement, Sum;
    var head := ExtendedHead(TFI_COMMAND, |data|);
    assert f[..3][0] == 0x00 && f[..3][1] == 0x00 && f[..3][2] == 0xff;
    assert f[..9] == head;
    ThreeParts(f, head, data, Tail(TFI_COMMAND, data));
  }

  lemma ThreeParts(f: seq<octet>, head: seq<octet>, data: seq<octet>, tail: seq<octet>)
    requires |f| == |head| + |data| + |tail| && |tail| == 2
    requires f[..|head|] == head && f[|head|..|head| + |data|] == data
    requires f[|head| + |data|] == tail[0] && f[|head| + |data| + 1] == tail[1]
    ensures f == head + data + tail
  {
    assert f[|head| + |data|..] == tail;
    assert f == f[..|head|] + f[|head|..|head| + |data|] + f[|head| + |data|..];
  }

  // memcpy.
  method CopyInto(target: array<octet>, at: nat, data: seq<octet>)
    requires at + |data| <= target.Length
    modifies target
    ensures target[at..at + |data|] == data
    ensures forall i :: 0 <= i < at || at + |data| <= i < target.Length ==> target[i] == old(target[i])
  {
    forall i | 0 <= i < |data| {
      target[at + i] := data[i];
    }
  }

  // The loop that subtracts every byte from btDCS, an uint8_t.
  method DataChecksum(tfi: octet, data: seq<octet>) returns (btDCS: octet)
    ensures btDCS == Complement(tfi + Sum(data))
  {
    hide Complement;
    btDCS := (256 - tfi) % 256;
    ComplementUnique(tfi, btDCS);
    var pos := 0;
    while pos < |data|
      invariant 0 <= pos <= |data|
      invariant btDCS == Complement(tfi + Sum(data[..pos]))
    {
      assert data[..pos + 1][..pos] == data[..pos];
      ComplementStep(tfi + Sum(data[..pos]), data[pos]);
      btDCS := (btDCS - data[pos]) % 256;
      pos := pos + 1;
    }
    assert data[..|data|] == data;
  }

  // The checksum a reply should carry, subtracted up from the first len bytes
  // of data; the loop of both receivers.
  method ReplyChecksum(lastCommand: octet, data: array<octet>, len: nat) returns (btDCS: octet)
    requires len <= data.Length && lastCommand < 255
    ensures btDCS == Complement(TFI_REPLY + (lastCommand + 1) + Sum(data[..len]))
  {
    btDCS := 256 - TFI_REPLY;
    btDCS := (btDCS - (lastCommand + 1)) % 256;
    ComplementUnique(TFI_REPLY + (lastCommand + 1), btDCS);
    var pos := 0;
    while pos < len
      invariant 0 <= pos <= len
      invariant btDCS == Complement(TFI_REPLY + (lastCommand + 1) + Sum(data[..pos]))
    {
      hide Complement;
      assert data[..pos + 1][..pos] == data[..pos];
      ComplementStep(TFI_REPLY + (lastCommand + 1) + Sum(data[..pos]), data[pos]);
      btDCS := (btDCS - data[pos]) % 256;
      pos := pos + 1;
    }
  }

  // --- Replies ---

  // The frames that answer with response code and payload. An extended header
  // may also carry a short length.
  function NormalReply(code: octet, payload: seq<octet>): seq<octet>
    requires |payload| <= 253
  {
    NormalFrame(TFI_REPLY, [code] + payload)
  }

  function ExtendedReply(code: octet, payload: seq<octet>): seq<octet>
    requires |payload| + 2 < 0x10000
  {
    ExtendedFrame(TFI_REPLY, [code] + payload)
  }

  ghost predicate IsReply(frame: seq<octet>, code: octet, payload: seq<octet>) {
    || (|payload| <= 253 && frame == NormalReply(code, payload))
    || (|payload| + 2 < 0x10000 && frame == ExtendedReply(code, payload))
  }

  /** Frames byte by byte: the test message that the ARYGON driver sends, the answer to
      it, and the head of the longest command. */
  lemma KnownFrames()
    ensures NormalFrame(TFI_COMMAND, [0x00, 0x00, 0x6C, 0x69, 0x62, 0x6E, 0x66, 0x63])
         == [0x00, 0x00, 0xFF, 0x09, 0xF7, 0xD4, 0x00, 0x00, 0x6C, 0x69, 0x62, 0x6E, 0x66, 0x63, 0xBE, 0x00]
    ensures NormalReply(0x01, [0x00, 0x6C, 0x69, 0x62, 0x6E, 0x66, 0x63])
         == [0x00, 0x00, 0xFF, 0x09, 0xF7, 0xD5, 0x01, 0x00, 0x6C, 0x69, 0x62, 0x6E, 0x66, 0x63, 0xBC, 0x00]
    ensures ExtendedHead(TFI_COMMAND, 264) == [0x00, 0x00, 0xFF, 0xFF, 0xFF, 0x01, 0x09, 0xF6, 0xD4]
  {
    TestMessage(0x00);
    TestMessage(0x01);
  }

  lemma TestMessage(code: octet)
    ensures Sum([code, 0x00, 0x6C, 0x69, 0x62, 0x6E, 0x66, 0x63]) == code + 0x26E
    ensures [code] + [0x00, 0x6C, 0x69, 0x62, 0x6E, 0x66, 0x63] == [code, 0x00, 0x6C, 0x69, 0x62, 0x6E, 0x66, 0x63]
  {
    var name: seq<octet> := [0x6C, 0x69, 0x62, 0x6E, 0x66, 0x63];
    assert Sum([code, 0x00]) == code by { assert Sum([code]) == code && [code, 0x00][..1] == [code]; }
    assert Sum(name[..2]) == 0xD5 by { assert name[..2][..1] == [0x6C] && Sum([0x6C]) == 0x6C; }
    assert Sum(name[..4]) == 0x1A5 by {
      assert name[..4][..3] == name[..3] && name[..3][..2] == name[..2];
    }
    assert Sum(name) == 0x26E by {
      assert name[..5][..4] == name[..4];
    }
    SumSplit([code, 0x00], name);
    assert [code, 0x00] + name == [code, 0x00, 0x6C, 0x69, 0x62, 0x6E, 0x66, 0x63];
  }

  // What a receiver makes of the bytes that reach it: a payload and the number
  // of bytes used up, or an error.
  datatype Outcome = Accepted(payload: seq<octet>, consumed: nat) | Rejected(error: int)

  // What the header says: its size, and the length of the payload (negative if
  // the length field leaves no room for TFI and response code).
  datatype Header = Header(size: nat, len: int) | NoHeader(error: int)

  // shortage is the error of a read that runs out of bytes.
  function ParseHeader(s: seq<octet>, shortage: int): Header {
    if |s| < 5 then
      NoHeader(shortage)
    else if s[..3] != [0x00, 0x00, 0xff] then
      NoHeader(NFC_EIO)
    else if s[3] == 0x01 && s[4] == 0xff then
      NoHeader(NFC_EIO)
    else if s[3] == 0xff && s[4] == 0xff then
      if |s| < 8 then NoHeader(shortage)
      else if (s[5] as int + s[6] + s[7]) % 256 != 0 then NoHeader(NFC_EIO)
      else Header(8, s[5] as int * 256 + s[6] - 2)
    else if s[3] as int + s[4] != 256 then
      NoHeader(NFC_EIO)
    else
      Header(5, s[3] - 2)
  }

  // The body of a reply to lastCommand, behind a header of n bytes. The code is
  // compared as an int, so nothing answers 0xff.
  function ParseBody(s: seq<octet>, n: nat, len: nat, lastCommand: octet, shortage: int): Outcome
    requires n <= |s|
  {
    if |s| < n + 2 then
      Rejected(shortage)
    else if s[n] != TFI_REPLY || s[n + 1] != lastCommand + 1 then
      Rejected(NFC_EIO)
    else if |s| < n + 2 + len + 2 then
      Rejected(shortage)
    else
      var payload := s[n + 2..n + 2 + len];
      if s[n + 2 + len] != Complement(TFI_REPLY + (lastCommand + 1) + Sum(payload)) then Rejected(NFC_EIO)
      else if s[n + 2 + len + 1] != 0x00 then Rejected(NFC_EIO)
      else Accepted(payload, n + 2 + len + 2)
  }

  // The receiver of the UART driver, as a function of the bytes that reach it.
  // The payload length is unsigned in the source: a negative one is too large.
  function Parse(s: seq<octet>, lastCommand: octet, cap: nat, shortage: int): Outcome {
    var h := ParseHeader(s, shortage);
    if h.NoHeader? then Rejected(h.error)
    else if h.len < 0 || h.len > cap then Rejected(NFC_EIO)
    else ParseBody(s, h.size, h.len, lastCommand, shortage)
  }

  lemma SumSplit(a: seq<octet>, b: seq<octet>)
    ensures Sum(a + b) == Sum(a) + Sum(b)
    decreases |b|
  {
    if b == [] {
      assert a + b == a;
    } else {
      assert (a + b)[..|a + b| - 1] == a + b[..|b| - 1];
      SumSplit(a, b[..|b| - 1]);
    }
  }

  lemma SumOfReply(code: octet, payload: seq<octet>)
    ensures Sum([code] + payload) == code + Sum(payload)
  {
    SumSplit([code], payload);
    assert [code][..0] == [];
    assert Sum([code]) == code;
  }

  // The replies, byte by byte.
  lemma Pieces(head: seq<octet>, data: seq<octet>, tail: seq<octet>)
    ensures
      var f := head + data + tail;
      && f[..|head|] == head && f[|head|..|head| + |data|] == data
      && forall i :: 0 <= i < |tail| ==> f[|head| + |data| + i] == tail[i]
  {
  }

  lemma NormalHeadBytes(len: nat, code: octet)
    requires len <= 254
    ensures
      var h := NormalHead(TFI_REPLY, len) + [code];
      && |h| == 7 && h[..3] == [0x00, 0x00, 0xff] && h[3] == len + 1 && h[4] == 255 - len
      && h[5] == TFI_REPLY && h[6] == code
  {
  }

  lemma NormalReplyBytes(code: octet, payload: seq<octet>)
    requires |payload| <= 253
    ensures
      var f := NormalReply(code, payload);
      var len := |payload|;
      && |f| == len + 9
      && f[..3] == [0x00, 0x00, 0xff] && f[3] == len + 2 && f[4] == 254 - len
      && f[5] == TFI_REPLY && f[6] == code && f[7..7 + len] == payload
      && f[7 + len] == Complement(TFI_REPLY + code + Sum(payload)) && f[8 + len] == 0x00
  {
    hide Complement, Sum;
    SumOfReply(code, payload);
    var head := NormalHead(TFI_REPLY, |payload| + 1) + [code];
    var tail := Tail(TFI_REPLY, [code] + payload);
    var f := NormalReply(code, payload);
    assert f == head + payload + tail;
    NormalHeadBytes(|payload| + 1, code);
    hide NormalHead, NormalReply;
    Pieces(head, payload, tail);
    assert forall i :: 0 <= i < 7 ==> f[i] == f[..7][i];
    assert f[..3] == head[..3];
    assert tail[0] == f[7 + |payload|] && tail[1] == f[8 + |payload|];
  }

  lemma ExtendedHeadBytes(len: nat, code: octet)
    requires len + 1 < 0x10000
    ensures
      var h := ExtendedHead(TFI_REPLY, len) + [code];
      && |h| == 10 && h[..3] == [0x00, 0x00, 0xff] && h[3] == 0xff && h[4] == 0xff
      && h[5] == (len + 1) / 256 && h[6] == (len + 1) % 256 && (h[5] as int + h[6] + h[7]) % 256 == 0
      && h[8] == TFI_REPLY && h[9] == code
  {
    hide Complement;
  }

  lemma ExtendedReplyBytes(code: octet, payload: seq<octet>)
    requires |payload| + 2 < 0x10000
    ensures
      var f := ExtendedReply(code, payload);
      var len := |payload|;
      && |f| == len + 12
      && f[..3] == [0x00, 0x00, 0xff] && f[3] == 0xff && f[4] == 0xff
      && f[5] == (len + 2) / 256 && f[6] == (len + 2) % 256 && (f[5] as int + f[6] + f[7]) % 256 == 0
      && f[8] == TFI_REPLY && f[9] == code && f[10..10 + len] == payload
      && f[10 + len] == Complement(TFI_REPLY + code + Sum(payload)) && f[11 + len] == 0x00
  {
    hide Complement, Sum;
    SumOfReply(code, payload);
    var head := ExtendedHead(TFI_REPLY, |payload| + 1) + [code];
    var tail := Tail(TFI_REPLY, [code] + payload);
    var f := ExtendedReply(code, payload);
    assert f == head + payload + tail;
    ExtendedHeadBytes(|payload| + 1, code);
    hide ExtendedHead, ExtendedReply;
    Pieces(head, payload, tail);
    assert forall i :: 0 <= i < 10 ==> f[i] == f[..10][i];
    assert f[..3] == head[..3];
    assert tail[0] == f[10 + |payload|] && tail[1] == f[11 + |payload|];
  }

  /** Completeness: a stream that starts with a reply to lastCommand whose payload
      fits is accepted, whatever follows it, and exactly the reply is consumed. */
  lemma ReplyIsAccepted(frame: seq<octet>, rest: seq<octet>, lastCommand: octet, payload: seq<octet>,
                        cap: nat, shortage: int)
    requires lastCommand < 255 && IsReply(frame, lastCommand + 1, payload) && |payload| <= cap
    ensures Parse(frame + rest, lastCommand, cap, shortage) == Accepted(payload, |frame|)
  {
    hide Parse, NormalReply, ExtendedReply;
    if |payload| <= 253 && frame == NormalReply(lastCommand + 1, payload) {
      NormalIsAccepted(rest, lastCommand, payload, cap, shortage);
    } else {
      ExtendedIsAccepted(rest, lastCommand, payload, cap, shortage);
    }
  }

  lemma NormalIsAccepted(rest: seq<octet>, lastCommand: octet, payload: seq<octet>, cap: nat, shortage: int)
    requires lastCommand < 255 && |payload| <= 253 && |payload| <= cap
    ensures
      var f := NormalReply(lastCommand + 1, payload);
      Parse(f + rest, lastCommand, cap, shortage) == Accepted(payload, |f|)
  {
    hide Complement, Sum, NormalReply, ParseBody;
    NormalReplyBytes(lastCommand + 1, payload);
    var f := NormalReply(lastCommand + 1, payload);
    assert (f + rest)[..3] == f[..3];
    BodyIsAccepted(f, 5, rest, lastCommand, payload, shortage);
  }

  lemma ExtendedIsAccepted(rest: seq<octet>, lastCommand: octet, payload: seq<octet>, cap: nat, shortage: int)
    requires lastCommand < 255 && |payload| + 2 < 0x10000 && |payload| <= cap
    ensures
      var f := ExtendedReply(lastCommand + 1, payload);
      Parse(f + rest, lastCommand, cap, shortage) == Accepted(payload, |f|)
  {
    hide Complement, Sum, ExtendedReply, ParseBody;
    ExtendedReplyBytes(lastCommand + 1, payload);
    var f := ExtendedReply(lastCommand + 1, payload);
    assert (f + rest)[..3] == f[..3];
    BodyIsAccepted(f, 8, rest, lastCommand, payload, shortage);
  }

  lemma BodyIsAccepted(f: seq<octet>, n: nat, rest: seq<octet>, lastCommand: octet, payload: seq<octet>, shortage: int)
    requires lastCommand < 255 && |f| == n + |payload| + 4
    requires f[n] == TFI_REPLY && f[n + 1] == lastCommand + 1 && f[n + 2..n + 2 + |payload|] == payload
    requires f[n + 2 + |payload|] == Complement(TFI_REPLY + (lastCommand + 1) + Sum(payload))
    requires f[n + 3 + |payload|] == 0x00
    ensures ParseBody(f + rest, n, |payload|, lastCommand, shortage) == Accepted(payload, |f|)
  {
    hide Complement, Sum;
    assert (f + rest)[n + 2..n + 2 + |payload|] == payload;
  }

  /** Soundness: what is accepted is a reply to lastCommand with that payload, and
      it is all that was consumed. */
  lemma AcceptedIsReply(s: seq<octet>, lastCommand: octet, cap: nat, shortage: int)
    requires Parse(s, lastCommand, cap, shortage).Accepted?
    ensures
      var r := Parse(s, lastCommand, cap, shortage);
      && lastCommand < 255
      && |r.payload| <= cap
      && r.consumed <= |s|
      && IsReply(s[..r.consumed], lastCommand + 1, r.payload)
  {
    hide Complement, Sum, NormalReply, ExtendedReply;
    if ParseHeader(s, shortage).size == 5 {
      AcceptedNormal(s, lastCommand, cap, shortage);
    } else {
      AcceptedExtended(s, lastCommand, cap, shortage);
    }
  }

  lemma AcceptedNormal(s: seq<octet>, lastCommand: octet, cap: nat, shortage: int)
    requires Parse(s, lastCommand, cap, shortage).Accepted? && ParseHeader(s, shortage).size == 5
    ensures
      var r := Parse(s, lastCommand, cap, shortage);
      && lastCommand < 255
      && r.consumed <= |s| && |r.payload| <= 253
      && s[..r.consumed] == NormalReply(lastCommand + 1, r.payload)
  {
    hide Complement, Sum, NormalReply, ParseBody;
    var r := Parse(s, lastCommand, cap, shortage);
    AcceptedBody(s, 5, s[3] - 2, lastCommand, shortage);
    NormalReplyBytes(lastCommand + 1, r.payload);
    SameNormal(s[..r.consumed], NormalReply(lastCommand + 1, r.payload), |r.payload|);
  }

  lemma AcceptedExtended(s: seq<octet>, lastCommand: octet, cap: nat, shortage: int)
    requires Parse(s, lastCommand, cap, shortage).Accepted? && ParseHeader(s, shortage).size != 5
    ensures
      var r := Parse(s, lastCommand, cap, shortage);
      && lastCommand < 255
      && r.consumed <= |s| && |r.payload| + 2 < 0x10000
      && s[..r.consumed] == ExtendedReply(lastCommand + 1, r.payload)
  {
    hide Complement, Sum, ExtendedReply, ParseBody;
    var r := Parse(s, lastCommand, cap, shortage);
    var len := s[5] as int * 256 + s[6] - 2;
    AcceptedBody(s, 8, len, lastCommand, shortage);
    assert r == Accepted(s[10..10 + len], len + 12);
    assert (s[5] as int + s[6] + s[7]) % 256 == 0;
    var f := s[..len + 12];
    assert f[..3] == s[..3] && f[10..10 + len] == r.payload;
    hide Parse, ParseHeader;
    LengthChecksum(s[5], s[6], s[7], len);
    ExtendedReplyBytes(lastCommand + 1, r.payload);
    SameExtended(f, ExtendedReply(lastCommand + 1, r.payload), len);
  }

  lemma LengthChecksum(m: octet, l: octet, lcs: octet, len: nat)
    requires m * 256 + l - 2 == len && (m + l + lcs) % 256 == 0
    ensures m == (len + 2) / 256 && l == (len + 2) % 256 && lcs == Complement(m + l)
  {
    hide Complement;
    ComplementUnique(m + l, lcs);
  }

  lemma SameNormal(f: seq<octet>, g: seq<octet>, len: nat)
    requires |f| == |g| == len + 9
    requires f[..3] == g[..3] && f[3] == g[3] && f[4] == g[4] && f[5] == g[5] && f[6] == g[6]
    requires f[7..7 + len] == g[7..7 + len] && f[7 + len] == g[7 + len] && f[8 + len] == g[8 + len]
    ensures f == g
  {
    assert f == f[..3] + [f[3], f[4], f[5], f[6]] + f[7..7 + len] + [f[7 + len], f[8 + len]];
    assert g == g[..3] + [g[3], g[4], g[5], g[6]] + g[7..7 + len] + [g[7 + len], g[8 + len]];
  }

  lemma SameExtended(f: seq<octet>, g: seq<octet>, len: nat)
    requires |f| == |g| == len + 12
    requires f[..3] == g[..3] && f[3] == g[3] && f[4] == g[4] && f[5] == g[5] && f[6] == g[6] && f[7] == g[7]
    requires f[8] == g[8] && f[9] == g[9]
    requires f[10..10 + len] == g[10..10 + len] && f[10 + len] == g[10 + len] && f[11 + len] == g[11 + len]
    ensures f == g
  {
    assert f == f[..3] + [f[3], f[4], f[5], f[6], f[7], f[8], f[9]] + f[10..10 + len] + [f[10 + len], f[11 + len]];
    assert g == g[..3] + [g[3], g[4], g[5], g[6], g[7], g[8], g[9]] + g[10..10 + len] + [g[10 + len], g[11 + len]];
  }

  // --- One changed byte ---

  lemma ComplementTells(sum: nat, sum': nat)
    requires Complement(sum) == Complement(sum')
    ensures (sum - sum') % 256 == 0
  {
  }

  lemma SumOfUpdate(data: seq<octet>, i: nat, b: octet)
    requires i < |data|
    ensures Sum(data[i := b]) == Sum(data) - data[i] + b
    decreases |data|
  {
    var last := |data| - 1;
    if i == last {
      assert data[i := b][..last] == data[..last];
    } else {
      assert data[i := b][..last] == data[..last][i := b];
      SumOfUpdate(data[..last], i, b);
    }
  }

  // Payloads that differ in one byte at most have the same checksum only if they
  // are the same; so have payloads that are the same but for their codes.
  lemma ChecksumNotices(code: octet, data: seq<octet>, i: nat, b: octet)
    requires i < |data|
    requires Complement(TFI_REPLY + code + Sum(data)) == Complement(TFI_REPLY + code + Sum(data[i := b]))
    ensures b == data[i]
  {
    SumOfUpdate(data, i, b);
    hide Complement, Sum;
    ComplementTells(TFI_REPLY + code + Sum(data), TFI_REPLY + code + Sum(data[i := b]));
  }

  lemma ChecksumNoticesCode(code: octet, code': octet, sum: nat)
    requires Complement(TFI_REPLY + code + sum) == Complement(TFI_REPLY + code' + sum)
    ensures code == code'
  {
    hide Complement;
    ComplementTells(TFI_REPLY + code + sum, TFI_REPLY + code' + sum);
  }

  // What an accepted body tells about the bytes behind a header of n bytes.
  lemma AcceptedBody(s: seq<octet>, n: nat, len: nat, lastCommand: octet, shortage: int)
    requires n <= |s| && ParseBody(s, n, len, lastCommand, shortage).Accepted?
    ensures |s| >= n + len + 4
    ensures ParseBody(s, n, len, lastCommand, shortage) == Accepted(s[n + 2..n + 2 + len], n + len + 4)
    ensures s[n] == TFI_REPLY && s[n + 1] == lastCommand + 1 && s[n + 3 + len] == 0x00
    ensures s[n + 2 + len] == Complement(TFI_REPLY + s[n + 1] + Sum(s[n + 2..n + 2 + len]))
  {
    hide Complement, Sum;
  }

  lemma NoReplyBody(s: seq<octet>, n: nat, len: nat, lastCommand: octet, shortage: int)
    requires n < |s| && s[n] != TFI_REPLY
    ensures ParseBody(s, n, len, lastCommand, shortage).Rejected?
  {
  }

  // A changed byte behind a header of n bytes that is read as before.
  lemma ChangedBody(f: seq<octet>, n: nat, i: nat, b: octet, rest: seq<octet>, code: octet, payload: seq<octet>,
                    lastCommand: octet, shortage: int)
    requires |f| == n + |payload| + 4 && n <= i < |f| && b != f[i]
    requires f[n] == TFI_REPLY && f[n + 1] == code && f[n + 2..n + 2 + |payload|] == payload
    requires f[n + 2 + |payload|] == Complement(TFI_REPLY + code + Sum(payload)) && f[n + 3 + |payload|] == 0x00
    ensures ParseBody(f[i := b] + rest, n, |payload|, lastCommand, shortage).Rejected?
  {
    hide Complement, Sum, ParseBody;
    var s, len := f[i := b] + rest, |payload|;
    if ParseBody(s, n, len, lastCommand, shortage).Accepted? {
      AcceptedBody(s, n, len, lastCommand, shortage);
      var data := s[n + 2..n + 2 + len];
      if n + 2 <= i < n + 2 + len {
        assert data == payload[i - n - 2 := b] && s[n + 1] == code;
        ChecksumNotices(code, payload, i - n - 2, b);
      } else {
        assert data == payload;
        if i == n + 1 {
          ChecksumNoticesCode(code, b, Sum(payload));
        }
      }
    }
  }

  lemma ChangedNormalReply(i: nat, b: octet, rest: seq<octet>, code: octet, payload: seq<octet>,
                           lastCommand: octet, cap: nat, shortage: int)
    requires |payload| <= 253 && cap + 2 < 0xd500
    requires i < |NormalReply(code, payload)| && b != NormalReply(code, payload)[i]
    ensures Parse(NormalReply(code, payload)[i := b] + rest, lastCommand, cap, shortage).Rejected?
  {
    hide Complement, Sum, NormalReply, ParseBody;
    NormalReplyBytes(code, payload);
    var f := NormalReply(code, payload);
    var s := f[i := b] + rest;
    if i >= 5 {
      assert s[..3] == f[..3];
      ChangedBody(f, 5, i, b, rest, code, payload, lastCommand, shortage);
    } else if i < 3 {
      assert s[..3][i] != f[..3][i];
    }
  }

  lemma ChangedExtendedReply(i: nat, b: octet, rest: seq<octet>, code: octet, payload: seq<octet>,
                             lastCommand: octet, cap: nat, shortage: int)
    requires |payload| + 2 < 0xd500
    requires i < |ExtendedReply(code, payload)| && b != ExtendedReply(code, payload)[i]
    ensures Parse(ExtendedReply(code, payload)[i := b] + rest, lastCommand, cap, shortage).Rejected?
  {
    hide Complement, Sum, ExtendedReply, Parse;
    ExtendedReplyBytes(code, payload);
    var f := ExtendedReply(code, payload);
    if i >= 8 {
      ChangedBehindHeader(f, i, b, rest, code, payload, lastCommand, cap, shortage);
    } else {
      ChangedHeader(f, i, b, rest, lastCommand, cap, shortage);
    }
  }

  lemma ChangedBehindHeader(f: seq<octet>, i: nat, b: octet, rest: seq<octet>, code: octet, payload: seq<octet>,
                            lastCommand: octet, cap: nat, shortage: int)
    requires 8 <= i < |f| == |payload| + 12 && b != f[i] && |payload| + 2 < 0x10000
    requires f[..3] == [0x00, 0x00, 0xff] && f[3] == 0xff && f[4] == 0xff
    requires f[5] == (|payload| + 2) / 256 && f[6] == (|payload| + 2) % 256
    requires f[8] == TFI_REPLY && f[9] == code && f[10..10 + |payload|] == payload
    requires f[10 + |payload|] == Complement(TFI_REPLY + code + Sum(payload)) && f[11 + |payload|] == 0x00
    ensures Parse(f[i := b] + rest, lastCommand, cap, shortage).Rejected?
  {
    hide Complement, Sum, ParseBody;
    var s := f[i := b] + rest;
    assert s[..3] == f[..3] && s[3] == 0xff && s[4] == 0xff && s[5] == f[5] && s[6] == f[6];
    ChangedBody(f, 8, i, b, rest, code, payload, lastCommand, shortage);
  }

  // A changed byte in the header of an extended frame.
  lemma ChangedHeader(f: seq<octet>, i: nat, b: octet, rest: seq<octet>, lastCommand: octet, cap: nat, shortage: int)
    requires i < 8 < |f| && b != f[i]
    requires f[..3] == [0x00, 0x00, 0xff] && f[3] == 0xff && f[4] == 0xff
    requires f[5] < TFI_REPLY && (f[5] as int + f[6] + f[7]) % 256 == 0
    ensures Parse(f[i := b] + rest, lastCommand, cap, shortage).Rejected?
  {
    hide ParseBody;
    var s := f[i := b] + rest;
    assert |s| >= 8 && s[i] == b && forall k :: 0 <= k < 8 && k != i ==> s[k] == f[k];
    if i == 4 {
      // with 0x01 in this place the header is a normal one, for TFI and 253 bytes
      NoReplyBody(s, 5, 253, lastCommand, shortage);
    } else if i < 3 {
      assert s[..3][i] != f[..3][i];
    }
  }

  /** No stream that starts with a reply frame in which exactly one byte has been
      changed is accepted, whatever follows and whatever command is waited for;
      a normal frame made to look extended, or the reverse, included. The bounds,
      far above the chip's 264 bytes, are where the TFI 0xd5 could be read as
      part of a length, or a length as a TFI. */
  lemma ChangedReplyIsRejected(frame: seq<octet>, i: nat, b: octet, rest: seq<octet>,
                               code: octet, payload: seq<octet>, lastCommand: octet, cap: nat, shortage: int)
    requires IsReply(frame, code, payload) && |payload| + 2 < 0xd500 && cap + 2 < 0xd500
    requires i < |frame| && b != frame[i]
    ensures Parse(frame[i := b] + rest, lastCommand, cap, shortage).Rejected?
  {
    hide Parse, NormalReply, ExtendedReply;
    if |payload| <= 253 && frame == NormalReply(code, payload) {
      ChangedNormalReply(i, b, rest, code, payload, lastCommand, cap, shortage);
    } else {
      ChangedExtendedReply(i, b, rest, code, payload, lastCommand, cap, shortage);
    }
  }

  // --- Streams of replies ---

  // Parses one reply after another from a stream, one for each command.
  function ParseAll(s: seq<octet>, commands: seq<octet>, cap: nat, shortage: int): seq<Outcome>
    decreases |commands|
  {
    if commands == [] then []
    else
      var o := Parse(s, commands[0], cap, shortage);
      if o.Accepted? && o.consumed <= |s| then
        [o] + ParseAll(s[o.consumed..], commands[1..], cap, shortage)
      else
        [o]
  }

  function Concat(frames: seq<seq<octet>>): seq<octet> {
    if frames == [] then [] else frames[0] + Concat(frames[1..])
  }

  /** Replies sent back to back are received one after another. */
  lemma {:induction false} BackToBack(frames: seq<seq<octet>>, payloads: seq<seq<octet>>, commands: seq<octet>,
                                      rest: seq<octet>, cap: nat, shortage: int)
    requires |frames| == |payloads| == |commands|
    requires forall i :: 0 <= i < |frames| ==>
      commands[i] < 255 && IsReply(frames[i], commands[i] + 1, payloads[i]) && |payloads[i]| <= cap
    ensures ParseAll(Concat(frames) + rest, commands, cap, shortage)
         == seq(|frames|, i requires 0 <= i < |frames| => Accepted(payloads[i], |frames[i]|))
    decreases |frames|
  {
    hide IsReply, Parse;
    if frames != [] {
      var s := Concat(frames) + rest;
      var tail := Concat(frames[1..]) + rest;
      assert s == frames[0] + tail;
      ReplyIsAccepted(frames[0], tail, commands[0], payloads[0], cap, shortage);
      assert s[|frames[0]|..] == tail;
      BackToBack(frames[1..], payloads[1..], commands[1..], rest, cap, shortage);
    }
  }

  // The outcome did not depend on bytes that are not there.
  predicate Complete(s: seq<octet>, lastCommand: octet, cap: nat) {
    Parse(s, lastCommand, cap, 0) != Rejected(0)
  }

  /** Once the bytes suffice for an outcome, what stands behind them does not matter,
      nor does the error that a lack of bytes would have given. */
  lemma CompleteIsFinal(s: seq<octet>, more: seq<octet>, lastCommand: octet, cap: nat, shortage: int)
    requires Complete(s, lastCommand, cap)
    ensures Parse(s + more, lastCommand, cap, shortage) == Parse(s, lastCommand, cap, shortage)
         == Parse(s, lastCommand, cap, 0)
  {
    hide Complement, Sum, ParseBody;
    var t := s + more;
    assert |s| >= 5 && t[..3] == s[..3];
    var h := ParseHeader(s, 0);
    if h.Header? && 0 <= h.len <= cap {
      BodyIsFinal(s, more, h.size, h.len, lastCommand, shortage);
    }
  }

  lemma BodyIsFinal(s: seq<octet>, more: seq<octet>, n: nat, len: nat, lastCommand: octet, shortage: int)
    requires n <= |s| && ParseBody(s, n, len, lastCommand, 0) != Rejected(0)
    ensures ParseBody(s + more, n, len, lastCommand, shortage) == ParseBody(s, n, len, lastCommand, shortage)
         == ParseBody(s, n, len, lastCommand, 0)
  {
    hide Complement, Sum;
    if |s| >= n + len + 4 {
      assert (s + more)[n + 2..n + 2 + len] == s[n + 2..n + 2 + len];
    }
  }
}
