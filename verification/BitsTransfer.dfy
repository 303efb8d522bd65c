/** The bit-exact transfers of libnfc/chips/pn53x.c: pn53x_initiator_transceive_bits,
    pn53x_target_send_bits and pn53x_target_receive_bits, from the caller's bits
    to the chip command on one side and from the chip reply to the caller's bits
    on the other. */
module BitsTransfer {
  import opened Nfc
  import opened Bits
  import opened ParityCodec

  // PN53x_EXTENDED_FRAME__DATA_MAX_LEN: size of the command and reply buffers.
  const BUFFER_SIZE := 264

  const SYMBOL_RX_LAST_BITS: byte := 0x07

  // Number of bits on the air: the chip adds the parity bits when handleParity.
  function AirBits(n: nat, handleParity: bool): nat {
    if handleParity then n else FrameLength(n)
  }

  // The receiver's reading of a byte count and the chip's last-bit count.
  function RecoveredBits(bytes: nat, lastBits: nat): nat
    requires lastBits < 8 && (lastBits != 0 ==> bytes > 0)
  {
    (bytes - if lastBits == 0 then 0 else 1) * 8 + lastBits
  }

  /** The length formula of the receiver inverts the sender's split into a byte
      count and a number of bits in the last byte. */
  lemma RecoveredBitsInvertsSplit(n: nat)
    ensures RecoveredBits(n / 8 + (if n % 8 == 0 then 0 else 1), n % 8) == n
    ensures n / 8 + (if n % 8 == 0 then 0 else 1) == Bytes(n)
  {
  }

  // cmd carries the n data bits behind the command code.
  ghost predicate Prepared(cmd: seq<byte>, frameBytes: nat, lastBits: nat,
                           data: seq<byte>, n: nat, parity: seq<byte>, handleParity: bool)
  {
    && frameBytes == Bytes(AirBits(n, handleParity)) < |cmd|
    && lastBits == AirBits(n, handleParity) % 8
    && (handleParity ==> frameBytes <= |data| && cmd[1..1 + frameBytes] == data[..frameBytes])
    && (!handleParity ==> IsWrapped(data, n, parity, cmd[1..]))
  }

  // What is handed out for a reply of szRx bytes: the frame as it is when the
  // chip handles parity, and without its parity bits otherwise.
  ghost predicate Recovered(buffer: seq<byte>, szRx: nat, rcc: byte, handleParity: bool,
                            r: int, data: seq<byte>)
    requires 1 <= szRx <= |buffer|
    requires rcc & 0x07 != 0 ==> szRx >= 2
  {
    var n := RecoveredBits(szRx - 1, (rcc & 0x07) as int);
    if handleParity then
      if szRx - 1 > |data| then r == NFC_EOVFLOW else r == n && data[..szRx - 1] == buffer[1..szRx]
    else if n == 0 then
      r == NFC_ECHIP
    else
      r == DataLength(n) && DataUnwrapped(buffer[1..], n, data)
  }

  /** Fills in the chip command: the code, then the frame. frameBytes and lastBits
      are what the command length and the BitFraming register are set from. room is
      the command buffer with the memory behind it: the source does not check whether
      the frame fits. */
  method PrepareCommand(code: byte, data: seq<byte>, n: nat, parity: seq<byte>, handleParity: bool, room: nat)
    returns (r: int, cmd: array<byte>, frameBytes: nat, lastBits: nat)
    requires |data| >= Bytes(n)
    requires !handleParity && n >= 9 ==> |parity| >= Bytes(n)
    requires room >= BUFFER_SIZE && room > Bytes(n) && room > WrapFootprint(n)
    ensures fresh(cmd) && cmd.Length == room
    ensures r == NFC_ECHIP <==> n == 0 && !handleParity
    ensures r != NFC_ECHIP ==> r == 0 && cmd[0] == code
    ensures r != NFC_ECHIP ==> Prepared(cmd[..], frameBytes, lastBits, data, n, parity, handleParity)
  {
    r, frameBytes, lastBits := 0, 0, 0;
    cmd := new byte[room](_ => 0);
    cmd[0] := code;
    var frameBits := n;
    if !handleParity {
      // wrap writes behind the command code, through the pointer cmd + 1
      var frame := new byte[room - 1](i requires 0 <= i < room - 1 reads cmd => cmd[i + 1]);
      var res := Wrap(data, n, parity, frame);
      if res < 0 {
        return res, cmd, 0, 0;
      }
      forall i | 1 <= i < room {
        cmd[i] := frame[i - 1];
      }
      assert cmd[1..] == frame[..];
      frameBits := res;
    }
    lastBits := frameBits % 8;
    RecoveredBitsInvertsSplit(frameBits);
    frameBytes := frameBits / 8 + if lastBits == 0 then 0 else 1;
    if handleParity {
      forall i | 0 <= i < frameBytes {
        cmd[1 + i] := data[i];
      }
    }
  }

  /** Reads a reply of szRx bytes at the start of the reply buffer: the status
      byte, then the frame. rcc is the chip's Control register, whose low bits
      tell how much of the last byte is filled. */
  method RecoverBits(buffer: seq<byte>, szRx: nat, rcc: byte, handleParity: bool,
                     data: array<byte>, parity: array?<byte>)
    returns (r: int)
    requires 1 <= szRx <= |buffer|
    requires rcc & 0x07 != 0 ==> szRx >= 2
    requires parity != null ==> parity != data
    requires !handleParity ==>
      var n := RecoveredBits(szRx - 1, (rcc & 0x07) as int);
      && data.Length >= UnwrapGroups(n)
      && (parity != null ==> parity.Length >= UnwrapGroups(n))
      && |buffer| - 1 >= UnwrapFootprint(n)
    modifies data
    modifies if parity == null then {} else {parity}
    ensures Recovered(buffer, szRx, rcc, handleParity, r, data[..])
    ensures parity != null && !handleParity ==>
      ParitiesUnwrapped(buffer[1..], RecoveredBits(szRx - 1, (rcc & 0x07) as int), parity[..])
    ensures handleParity && szRx - 1 > data.Length ==> data[..] == old(data[..])
  {
    var lastBits := (rcc & SYMBOL_RX_LAST_BITS) as int;
    var frameBits := (szRx - 1 - if lastBits == 0 then 0 else 1) * 8 + lastBits;
    if !handleParity {
      r := Unwrap(buffer[1..], frameBits, data, parity);
    } else {
      if szRx - 1 > data.Length {
        return NFC_EOVFLOW;
      }
      forall i | 0 <= i < szRx - 1 {
        data[i] := buffer[1 + i];
      }
      r := frameBits;
    }
  }

  /** End to end: what the receiver hands out is what the sender was given, in
      length, data bits and, where the parity bits travel in the frame, parity.
      The receiver's buffer is arbitrary but for the bits on the air, and so is
      its Control register but for the last-bit count. */
  lemma TransferPreservesBits(cmd: seq<byte>, frameBytes: nat, lastBits: nat, buffer: seq<byte>, rcc: byte,
                              data: seq<byte>, n: nat, parity: seq<byte>, handleParity: bool,
                              r: int, data': seq<byte>, parity': seq<byte>)
    requires n > 0
    requires Prepared(cmd, frameBytes, lastBits, data, n, parity, handleParity)
    requires |buffer| >= 1 && AgreeOnBits(cmd[1..], buffer[1..], AirBits(n, handleParity))
    requires (rcc & 0x07) as int == lastBits
    requires 1 + frameBytes <= |buffer| && frameBytes <= |data'|
    requires lastBits != 0 ==> frameBytes >= 1
    requires Recovered(buffer, 1 + frameBytes, rcc, handleParity, r, data')
    requires !handleParity ==> ParitiesUnwrapped(buffer[1..], RecoveredBits(frameBytes, lastBits), parity')
    ensures r == n
    ensures AgreeOnBits(data, data', n)
    ensures !handleParity && n >= 9 ==> SameParities(parity, parity', n / 8)
  {
    hide Bit, FrameBit, IsWrapped, DataUnwrapped, ParitiesUnwrapped, SameParities, AgreeOnBits;
    SplitOfBits(n, handleParity);
    if handleParity {
      CopiedBits(data, cmd[1..], buffer[1..], data', n);
    } else {
      UnwrapInvertsWrap(data, n, parity, cmd[1..], buffer[1..], data', parity');
    }
  }

  lemma SplitOfBits(n: nat, handleParity: bool)
    requires n > 0
    ensures
      var bits := AirBits(n, handleParity);
      && bits > 0
      && RecoveredBits(Bytes(bits), bits % 8) == bits
      && (bits % 8 != 0 ==> Bytes(bits) > 0)
  {
  }

  lemma CopiedBits(data: seq<byte>, air: seq<byte>, received: seq<byte>, data': seq<byte>, n: nat)
    requires Bytes(n) <= |data| && Bytes(n) <= |air| && Bytes(n) <= |received| && Bytes(n) <= |data'|
    requires air[..Bytes(n)] == data[..Bytes(n)]
    requires AgreeOnBits(air, received, n)
    requires data'[..Bytes(n)] == received[..Bytes(n)]
    ensures AgreeOnBits(data, data', n)
  {
    hide Bit;
    forall k: nat | k < n
      ensures FrameBit(data, k) == FrameBit(data', k)
    {
      assert k / 8 < Bytes(n);
      assert data[k / 8] == data[..Bytes(n)][k / 8] == air[..Bytes(n)][k / 8];
      assert data'[k / 8] == data'[..Bytes(n)][k / 8] == received[..Bytes(n)][k / 8];
      assert FrameBit(air, k) == FrameBit(received, k);
    }
  }
}
