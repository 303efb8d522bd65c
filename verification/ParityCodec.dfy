/** pn53x_wrap_frame and pn53x_unwrap_frame (libnfc/chips/pn53x.c): one parity
    bit is put after every eight data bits, least significant bit first, and
    taken out again. */
module ParityCodec {
  import opened Nfc
  import opened Bits

  // Bit k of a bit string that is packed into bytes, first bit lowest.
  predicate FrameBit(frame: seq<byte>, k: nat)
    requires k / 8 < |frame|
  {
    Bit(frame[k / 8], k % 8)
  }

  // The bit that belongs at position k of a frame: nine positions a group, the
  // last of them the parity of the group's byte.
  predicate WrappedBit(data: seq<byte>, parity: seq<byte>, k: nat)
    requires k / 9 < |data| && k / 9 < |parity|
  {
    if k % 9 == 8 then Bit(parity[k / 9], 0) else Bit(data[k / 9], k % 9)
  }

  // Number of bytes that hold n bits.
  function Bytes(n: nat): nat {
    (n + 7) / 8
  }

  // Length of the frame that carries n data bits, and the data bits that a
  // frame of n bits carries. Up to eight bits go without parity.
  function FrameLength(n: nat): nat {
    if n < 9 then n else n + n / 8
  }

  function DataLength(n: nat): nat {
    if n < 9 then n else n - n / 9
  }

  // Bytes of the frame buffer that a call of wrap writes.
  function WrapFootprint(n: nat): nat {
    if n == 0 then 0 else if n < 9 then 1 else Bytes(n) + (Bytes(n) - 1) / 8 + 1
  }

  // Groups that a call of unwrap goes through: for a multiple of nine it
  // touches one group behind the result.
  function UnwrapGroups(n: nat): nat {
    if n == 0 then 0 else if n < 9 then 1 else n / 9 + 1
  }

  // Bytes of the frame buffer that a call of unwrap reads.
  function UnwrapFootprint(n: nat): nat {
    if n < 9 then UnwrapGroups(n) else UnwrapGroups(n) + (UnwrapGroups(n) - 1) / 8 + 1
  }

  lemma WrapSizes(n: nat)
    ensures n > 0 ==> FrameLength(n) <= 8 * WrapFootprint(n)
    ensures n > 0 ==> Bytes(n) >= 1 && WrapFootprint(n) >= 1
  {
  }

  lemma BytesFit(n: nat, g: nat)
    requires n <= 8 * g
    ensures Bytes(n) <= g
  {
  }

  lemma WrapGroupFits(n: nat, g: nat, q: nat, pos: nat)
    requires n >= 9 && 8 * g < n && pos < 8 && 9 * g == 8 * q + pos
    ensures g < Bytes(n) && q + 1 < WrapFootprint(n)
  {
    assert q == g + g / 8;
    assert g <= Bytes(n) - 1;
    assert g / 8 <= (Bytes(n) - 1) / 8;
  }

  // frame holds the first n bits of data, with a parity bit after every eighth
  // of them once there are more than eight.
  ghost predicate IsWrapped(data: seq<byte>, n: nat, parity: seq<byte>, frame: seq<byte>) {
    && n > 0
    && FrameLength(n) <= 8 * |frame|
    && |data| >= Bytes(n)
    && (n < 9 ==> frame[0] == data[0])
    && (n >= 9 ==>
          && |parity| >= Bytes(n)
          && forall k: nat :: k < FrameLength(n) ==> FrameBit(frame, k) == WrappedBit(data, parity, k))
  }

  // data holds the data bits of a frame of n bits, parity its parity bits.
  ghost predicate DataUnwrapped(frame: seq<byte>, n: nat, data: seq<byte>) {
    && n > 0
    && n <= 8 * |frame|
    && |data| >= UnwrapGroups(n)
    && (n < 9 ==> data[0] == frame[0])
    && (n >= 9 ==> forall k: nat :: k < DataLength(n) ==> FrameBit(data, k) == FrameBit(frame, k + k / 8))
  }

  ghost predicate ParitiesUnwrapped(frame: seq<byte>, n: nat, parity: seq<byte>) {
    n >= 9 ==>
      && n <= 8 * |frame|
      && |parity| >= UnwrapGroups(n)
      && forall j: nat :: j < n / 9 ==> parity[j] == if FrameBit(frame, 9 * j + 8) then 1 else 0
  }

  // The frame byte that takes up the first 8 - pos bits of d, after the pos bits
  // already in carry; and the next frame byte: the remaining pos bits of d and
  // then the parity. Both in the mirrored order the source works in.
  function Head(carry: byte, d: byte, pos: nat): byte
    requires pos < 8
  {
    carry | Shr(Mirror(d), pos)
  }

  function Tail(d: byte, p: byte, pos: nat): byte
    requires pos < 8
  {
    Shl(Mirror(d), 8 - pos) | Shl(p & 0x01, 7 - pos)
  }

  lemma HeadBit(carry: byte, d: byte, pos: nat, i: nat)
    requires pos < 8 && i < 8
    requires i >= pos ==> !Bit(carry, 7 - i)
    ensures Bit(Mirror(Head(carry, d, pos)), i) == if i < pos then Bit(carry, 7 - i) else Bit(d, i - pos)
  {
    hide Bit, Shr, Mirror;
    MirrorBit(Head(carry, d, pos), i);
    OrBit(carry, Shr(Mirror(d), pos), 7 - i);
    ShrBit(Mirror(d), pos, 7 - i);
    if i >= pos {
      MirrorBit(d, 7 - i + pos);
    }
  }

  lemma TailBit(d: byte, p: byte, pos: nat, i: nat)
    requires pos < 8 && i < 8
    ensures Bit(Tail(d, p, pos), 7 - i)
         == if i < pos then Bit(d, 8 - pos + i) else i == pos && Bit(p, 0)
  {
    hide Bit, Shl, Mirror;
    OrBit(Shl(Mirror(d), 8 - pos), Shl(p & 0x01, 7 - pos), 7 - i);
    ShlBit(Mirror(d), 8 - pos, 7 - i);
    ShlBit(p & 0x01, 7 - pos, 7 - i);
    if i < pos {
      MirrorBit(d, pos - 1 - i);
    }
    if i <= pos {
      OnlyLowBit(p, pos - i);
    }
  }

  lemma OnlyLowBit(p: byte, i: nat)
    requires i < 8
    ensures Bit(p & 0x01, i) == (i == 0 && Bit(p, 0))
  {
  }

  // The frame holds the first g groups.
  ghost predicate GroupsIn(frame: seq<byte>, data: seq<byte>, parity: seq<byte>, g: nat) {
    && g <= |data| && g <= |parity|
    && 9 * g <= 8 * |frame|
    && forall k: nat :: k < 9 * g ==> FrameBit(frame, k) == WrappedBit(data, parity, k)
  }

  // carry is frame byte q as far as the first pos bits go, and zero after them.
  ghost predicate Carries(carry: byte, frame: seq<byte>, q: nat, pos: nat) {
    && pos < 8
    && (pos > 0 ==> q < |frame|)
    && forall i: nat {:trigger Bit(carry, 7 - i)} :: i < 8 ==> Bit(carry, 7 - i) == (i < pos && Bit(frame[q], i))
  }

  lemma NoGroups(frame: seq<byte>, data: seq<byte>, parity: seq<byte>)
    ensures GroupsIn(frame, data, parity, 0)
  {
  }

  lemma WrappedGroups(data: seq<byte>, n: nat, parity: seq<byte>, frame: seq<byte>, g: nat)
    requires n >= 9 && g >= Bytes(n) && GroupsIn(frame, data, parity, g)
    ensures IsWrapped(data, n, parity, frame)
  {
    hide Bit;
    assert FrameLength(n) <= 9 * g;
    forall k: nat | k < FrameLength(n)
      ensures FrameBit(frame, k) == WrappedBit(data, parity, k)
    {
      assert k < 9 * g;
    }
  }

  lemma NothingCarried(frame: seq<byte>, q: nat)
    ensures Carries(0, frame, q, 0)
  {
  }

  // One turn of the inner loop adds one group.
  lemma GroupStep(frame: seq<byte>, carry: byte, data: seq<byte>, parity: seq<byte>, g: nat, q: nat, pos: nat)
    requires GroupsIn(frame, data, parity, g) && g < |data| && g < |parity|
    requires 9 * g == 8 * q + pos && pos < 8 && q + 1 < |frame|
    requires Carries(carry, frame, q, pos)
    ensures
      var next := Tail(data[g], parity[g], pos);
      var frame' := frame[q := Mirror(Head(carry, data[g], pos))][q + 1 := Mirror(next)];
      && GroupsIn(frame', data, parity, g + 1)
      && (pos < 7 ==> Carries(next, frame', q + 1, pos + 1))
  {
    hide Bit, Head, Tail, Mirror;
    var next := Tail(data[g], parity[g], pos);
    var frame' := frame[q := Mirror(Head(carry, data[g], pos))][q + 1 := Mirror(next)];
    forall k: nat | k < 9 * (g + 1)
      ensures FrameBit(frame', k) == WrappedBit(data, parity, k)
    {
      if k / 8 < q {
        assert FrameBit(frame', k) == FrameBit(frame, k);
      } else if k / 8 == q {
        HeadBit(carry, data[g], pos, k % 8);
        if k % 8 < pos {
          assert FrameBit(frame', k) == FrameBit(frame, k);
        } else {
          assert k / 9 == g && k % 9 == k % 8 - pos;
        }
      } else {
        assert k / 8 == q + 1;
        TailBit(data[g], parity[g], pos, k % 8);
        MirrorBit(next, k % 8);
        assert k / 9 == g && k % 9 == 8 - pos + k % 8;
      }
    }
    if pos < 7 {
      forall i: nat {:trigger Bit(next, 7 - i)} | i < 8
        ensures Bit(next, 7 - i) == (i < pos + 1 && Bit(frame'[q + 1], i))
      {
        TailBit(data[g], parity[g], pos, i);
        MirrorBit(next, i);
      }
    }
  }

  /** Frames the first n bits of data with the parity bits given.
      Up to eight bits are copied without parity. */
  method Wrap(data: seq<byte>, n: nat, parity: seq<byte>, frame: array<byte>) returns (r: int)
    requires |data| >= Bytes(n)
    requires n >= 9 ==> |parity| >= Bytes(n)
    requires frame.Length >= WrapFootprint(n)
    modifies frame
    ensures n == 0 ==> r == NFC_ECHIP
    ensures n > 0 ==> r == FrameLength(n) && IsWrapped(data, n, parity, frame[..])
    ensures forall i :: WrapFootprint(n) <= i < frame.Length ==> frame[i] == old(frame[i])
  {
    hide Bit, FrameBit, WrappedBit, GroupsIn, Carries, Shr, Shl, Mirror, Bytes, WrapFootprint;
    WrapSizes(n);
    var bitsLeft := n;
    if bitsLeft == 0 {
      return NFC_ECHIP;
    }
    if bitsLeft < 9 {
      frame[0] := data[0];
      return n;
    }
    var frameBits := n + n / 8;
    NoGroups(frame[..], data, parity);
    var dataPos, framePos := 0, 0;
    ghost var turns := 0;
    while true
      invariant 9 <= n == bitsLeft + 8 * dataPos && bitsLeft > 0
      invariant dataPos == 8 * turns && framePos == 9 * turns
      invariant GroupsIn(frame[..], data, parity, dataPos)
      invariant forall i :: WrapFootprint(n) <= i < frame.Length ==> frame[i] == old(frame[i])
      decreases bitsLeft
    {
      var btFrame: byte := 0;
      var bitPos := 0;
      NothingCarried(frame[..], framePos);
      ghost var atEntry := bitsLeft;
      while bitPos < 8
        invariant 0 <= bitPos <= 8
        invariant 9 <= n == bitsLeft + 8 * dataPos && bitsLeft > 0
        invariant bitPos == 0 ==> bitsLeft == atEntry
        invariant bitPos > 0 ==> bitsLeft < atEntry
        invariant dataPos == 8 * turns + bitPos && framePos == 9 * turns + bitPos
        invariant GroupsIn(frame[..], data, parity, dataPos)
        invariant bitPos < 8 ==> Carries(btFrame, frame[..], framePos, bitPos)
        invariant forall i :: WrapFootprint(n) <= i < frame.Length ==> frame[i] == old(frame[i])
      {
        WrapGroupFits(n, dataPos, framePos, bitPos);
        GroupStep(frame[..], btFrame, data, parity, dataPos, framePos, bitPos);
        ghost var before := frame[..];
        var btData := Mirror(data[dataPos]);
        btFrame := btFrame | Shr(btData, bitPos);
        frame[framePos] := Mirror(btFrame);
        btFrame := Shl(btData, 8 - bitPos);
        btFrame := btFrame | Shl(parity[dataPos] & 0x01, 7 - bitPos);
        framePos := framePos + 1;
        frame[framePos] := Mirror(btFrame);
        assert frame[..] == before[framePos - 1 := frame[framePos - 1]][framePos := Mirror(btFrame)];
        dataPos := dataPos + 1;
        if bitsLeft < 9 {
          BytesFit(n, dataPos);
          WrappedGroups(data, n, parity, frame[..], dataPos);
          return frameBits;
        }
        bitsLeft := bitsLeft - 8;
        bitPos := bitPos + 1;
      }
      framePos := framePos + 1;
      turns := turns + 1;
    }
  }

  // The data byte and the parity that unwrap puts together from two frame bytes.
  lemma UnwrapByteBit(f0: byte, f1: byte, pos: nat, i: nat)
    requires pos < 8 && i < 8
    ensures Bit(Mirror(Shl(Mirror(f0), pos) | Shr(Mirror(f1), 8 - pos)), i)
         == if pos + i < 8 then Bit(f0, pos + i) else Bit(f1, pos + i - 8)
  {
    hide Bit, Shr, Shl, Mirror;
    MirrorBit(Shl(Mirror(f0), pos) | Shr(Mirror(f1), 8 - pos), i);
    OrBit(Shl(Mirror(f0), pos), Shr(Mirror(f1), 8 - pos), 7 - i);
    ShlBit(Mirror(f0), pos, 7 - i);
    ShrBit(Mirror(f1), 8 - pos, 7 - i);
    if pos + i < 8 {
      MirrorBit(f0, 7 - i - pos);
    } else {
      MirrorBit(f1, 15 - i - pos);
    }
  }

  lemma UnwrapParityBit(f1: byte, pos: nat)
    requires pos < 8
    ensures (Shr(Mirror(f1), 7 - pos) & 0x01) == if Bit(f1, pos) then 1 else 0
  {
    ShrBit(Mirror(f1), 7 - pos, 0);
    MirrorBit(f1, 7 - pos);
    LowBitIsParity(Shr(Mirror(f1), 7 - pos));
  }

  lemma LowBitIsParity(b: byte)
    ensures (b & 0x01) == if Bit(b, 0) then 1 else 0
  {
  }

  // The first g data bytes and parities have been taken out of the frame.
  ghost predicate GroupsOut(frame: seq<byte>, data: seq<byte>, g: nat) {
    && g <= |data|
    && 9 * g <= 8 * |frame|
    && forall j: nat, i: nat :: j < g && i < 8 ==> Bit(data[j], i) == FrameBit(frame, 9 * j + i)
  }

  ghost predicate ParitiesOut(frame: seq<byte>, parity: seq<byte>, g: nat) {
    && g <= |parity|
    && 9 * g <= 8 * |frame|
    && forall j: nat :: j < g ==> parity[j] == if FrameBit(frame, 9 * j + 8) then 1 else 0
  }

  lemma GroupOut(frame: seq<byte>, data: seq<byte>, g: nat, q: nat, pos: nat)
    requires GroupsOut(frame, data, g) && g < |data|
    requires 9 * g == 8 * q + pos && pos < 8 && q + 1 < |frame|
    requires data[g] == Mirror(Shl(Mirror(frame[q]), pos) | Shr(Mirror(frame[q + 1]), 8 - pos))
    ensures GroupsOut(frame, data, g + 1)
  {
    hide Bit, Shr, Shl, Mirror;
    forall j: nat, i: nat | j < g + 1 && i < 8
      ensures Bit(data[j], i) == FrameBit(frame, 9 * j + i)
    {
      if j == g {
        UnwrapByteBit(frame[q], frame[q + 1], pos, i);
        assert (9 * j + i) / 8 == if pos + i < 8 then q else q + 1;
      }
    }
  }

  lemma ParityOut(frame: seq<byte>, parity: seq<byte>, g: nat, q: nat, pos: nat)
    requires ParitiesOut(frame, parity, g) && g < |parity|
    requires 9 * g == 8 * q + pos && pos < 8 && q + 1 < |frame|
    requires parity[g] == Shr(Mirror(frame[q + 1]), 7 - pos) & 0x01
    ensures ParitiesOut(frame, parity, g + 1)
  {
    hide Bit, Shr, Mirror;
    UnwrapParityBit(frame[q + 1], pos);
    assert (9 * g + 8) / 8 == q + 1 && (9 * g + 8) % 8 == pos;
  }

  lemma UnwrapGroupFits(n: nat, g: nat, q: nat, pos: nat)
    requires n >= 9 && 9 * g <= n && pos < 8 && 9 * g == 8 * q + pos
    ensures g < UnwrapGroups(n) && q + 1 < UnwrapFootprint(n)
  {
    assert q == g + g / 8;
    assert g <= UnwrapGroups(n) - 1;
    assert g / 8 <= (UnwrapGroups(n) - 1) / 8;
  }

  /** Takes the parity bits out of a frame of n bits. The parity array is
      optional. For a multiple of nine, one group more than the result is read
      and written. */
  method Unwrap(frame: seq<byte>, n: nat, data: array<byte>, parity: array?<byte>) returns (r: int)
    requires |frame| >= UnwrapFootprint(n)
    requires data.Length >= UnwrapGroups(n)
    requires parity != null ==> parity != data && parity.Length >= UnwrapGroups(n)
    modifies data
    modifies if parity == null then {} else {parity}
    ensures n == 0 ==> r == NFC_ECHIP
    ensures n > 0 ==> r == DataLength(n)
    ensures n > 0 ==> DataUnwrapped(frame, n, data[..])
    ensures parity != null ==> ParitiesUnwrapped(frame, n, parity[..])
    ensures forall i :: UnwrapGroups(n) <= i < data.Length ==> data[i] == old(data[i])
    ensures parity != null ==> forall i :: UnwrapGroups(n) <= i < parity.Length ==> parity[i] == old(parity[i])
    ensures parity != null && n < 9 ==> parity[..] == old(parity[..])
  {
    hide Bit, FrameBit, GroupsOut, ParitiesOut, Shr, Shl, Mirror, UnwrapFootprint;
    var bitsLeft := n;
    if bitsLeft == 0 {
      return NFC_ECHIP;
    }
    if bitsLeft < 9 {
      UnwrapSizes(n);
      data[0] := frame[0];
      return n;
    }
    var rxBits := n - n / 9;
    var dataPos, skipped := 0, 0;
    NothingOut(frame, data[..]);
    if parity != null {
      NothingOut(frame, parity[..]);
    }
    while true
      invariant 9 <= n == bitsLeft + 9 * dataPos
      invariant dataPos == 8 * skipped && bitsLeft >= 0
      invariant GroupsOut(frame, data[..], dataPos)
      invariant parity != null ==> ParitiesOut(frame, parity[..], dataPos)
      invariant forall i :: UnwrapGroups(n) <= i < data.Length ==> data[i] == old(data[i])
      invariant parity != null ==> forall i :: UnwrapGroups(n) <= i < parity.Length ==> parity[i] == old(parity[i])
      decreases bitsLeft
    {
      var bitPos := 0;
      ghost var atEntry := bitsLeft;
      while bitPos < 8
        invariant 0 <= bitPos <= 8
        invariant 9 <= n == bitsLeft + 9 * dataPos
        invariant dataPos == 8 * skipped + bitPos && bitsLeft >= 0
        invariant bitPos == 0 ==> bitsLeft == atEntry
        invariant bitPos > 0 ==> bitsLeft < atEntry
        invariant GroupsOut(frame, data[..], dataPos)
        invariant parity != null ==> ParitiesOut(frame, parity[..], dataPos)
        invariant forall i :: UnwrapGroups(n) <= i < data.Length ==> data[i] == old(data[i])
        invariant parity != null ==> forall i :: UnwrapGroups(n) <= i < parity.Length ==> parity[i] == old(parity[i])
      {
        ghost var q := skipped + dataPos;
        UnwrapGroupFits(n, dataPos, q, bitPos);
        var btFrame := Mirror(frame[skipped + dataPos]);
        var btData := Shl(btFrame, bitPos);
        btFrame := Mirror(frame[skipped + dataPos + 1]);
        btData := btData | Shr(btFrame, 8 - bitPos);
        ghost var before := data[..];
        data[dataPos] := Mirror(btData);
        KeepOut(frame, before, data[..], dataPos);
        GroupOut(frame, data[..], dataPos, q, bitPos);
        if parity != null {
          ghost var parityBefore := parity[..];
          parity[dataPos] := Shr(btFrame, 7 - bitPos) & 0x01;
          KeepParities(frame, parityBefore, parity[..], dataPos);
          ParityOut(frame, parity[..], dataPos, q, bitPos);
        }
        dataPos := dataPos + 1;
        if bitsLeft < 9 {
          DataOfGroups(frame, n, data[..]);
          if parity != null {
            ParitiesOfGroups(frame, n, parity[..]);
          }
          return rxBits;
        }
        bitsLeft := bitsLeft - 9;
        bitPos := bitPos + 1;
      }
      skipped := skipped + 1;
    }
  }

  lemma GroupBit(frame: seq<byte>, data: seq<byte>, g: nat, j: nat, i: nat)
    requires GroupsOut(frame, data, g) && j < g && i < 8
    ensures |data| >= g && 9 * g <= 8 * |frame|
    ensures Bit(data[j], i) == FrameBit(frame, 9 * j + i)
  {
  }

  lemma DataBitGroup(n: nat, k: nat)
    requires n >= 9 && k < DataLength(n)
    ensures k / 8 < UnwrapGroups(n) && 9 * (k / 8) + k % 8 == k + k / 8
    ensures n <= 9 * UnwrapGroups(n)
  {
  }

  lemma DataBitOfGroups(frame: seq<byte>, n: nat, data: seq<byte>, k: nat)
    requires n >= 9 && GroupsOut(frame, data, UnwrapGroups(n)) && k < DataLength(n)
    ensures n <= 8 * |frame| && k / 8 < |data| && (k + k / 8) / 8 < |frame|
    ensures FrameBit(data, k) == FrameBit(frame, k + k / 8)
  {
    hide Bit, GroupsOut, UnwrapGroups, DataLength;
    DataBitGroup(n, k);
    GroupBit(frame, data, UnwrapGroups(n), k / 8, k % 8);
  }

  lemma DataOfGroups(frame: seq<byte>, n: nat, data: seq<byte>)
    requires n >= 9 && GroupsOut(frame, data, UnwrapGroups(n))
    ensures DataUnwrapped(frame, n, data)
  {
    DataBitOfGroups(frame, n, data, 0);
    assert |data| >= UnwrapGroups(n);
    hide GroupsOut, FrameBit, UnwrapGroups;
    forall k: nat | k < DataLength(n)
      ensures FrameBit(data, k) == FrameBit(frame, k + k / 8)
    {
      DataBitOfGroups(frame, n, data, k);
    }
  }

  lemma ParitiesOfGroups(frame: seq<byte>, n: nat, parity: seq<byte>)
    requires n >= 9 && ParitiesOut(frame, parity, UnwrapGroups(n))
    ensures ParitiesUnwrapped(frame, n, parity)
  {
  }

  lemma UnwrapSizes(n: nat)
    ensures 0 < n < 9 ==> UnwrapFootprint(n) == 1
  {
  }

  lemma NothingOut(frame: seq<byte>, out: seq<byte>)
    ensures GroupsOut(frame, out, 0) && ParitiesOut(frame, out, 0)
  {
  }

  lemma KeepOut(frame: seq<byte>, before: seq<byte>, after: seq<byte>, g: nat)
    requires GroupsOut(frame, before, g) && g < |before| == |after|
    requires forall j :: 0 <= j < g ==> after[j] == before[j]
    ensures GroupsOut(frame, after, g)
  {
  }

  lemma KeepParities(frame: seq<byte>, before: seq<byte>, after: seq<byte>, g: nat)
    requires ParitiesOut(frame, before, g) && g < |before| == |after|
    requires forall j :: 0 <= j < g ==> after[j] == before[j]
    ensures ParitiesOut(frame, after, g)
  {
  }

  ghost predicate AgreeOnBits(a: seq<byte>, b: seq<byte>, n: nat) {
    && n <= 8 * |a| && n <= 8 * |b|
    && forall k: nat :: k < n ==> FrameBit(a, k) == FrameBit(b, k)
  }

  // Two parity arrays mean the same on their first n entries: the source only
  // looks at the lowest bit.
  ghost predicate SameParities(a: seq<byte>, b: seq<byte>, n: nat) {
    n <= |a| && n <= |b| && forall j: nat :: j < n ==> Bit(a[j], 0) == Bit(b[j], 0)
  }

  /** Unwrapping gives back what was wrapped: the length, every data bit, and
      above eight bits every parity, from any buffer that agrees with the frame
      on just the frame's own bits. */
  lemma UnwrapInvertsWrap(data: seq<byte>, n: nat, parity: seq<byte>, sent: seq<byte>,
                          received: seq<byte>, data': seq<byte>, parity': seq<byte>)
    requires IsWrapped(data, n, parity, sent)
    requires AgreeOnBits(sent, received, FrameLength(n))
    requires DataUnwrapped(received, FrameLength(n), data')
    requires ParitiesUnwrapped(received, FrameLength(n), parity')
    ensures DataLength(FrameLength(n)) == n
    ensures AgreeOnBits(data, data', n)
    ensures n >= 9 ==> SameParities(parity, parity', n / 8)
  {
    hide Bit;
    LengthsInvert(n);
    if n >= 9 {
      forall k: nat | k < n
        ensures FrameBit(data, k) == FrameBit(data', k)
      {
        var f := k + k / 8;
        assert f < FrameLength(n) && f / 9 == k / 8 && f % 9 == k % 8;
        assert FrameBit(sent, f) == FrameBit(received, f);
      }
      forall j: nat | j < n / 8
        ensures Bit(parity[j], 0) == Bit(parity'[j], 0)
      {
        var f := 9 * j + 8;
        assert f < FrameLength(n) && f / 9 == j && f % 9 == 8;
        assert FrameBit(sent, f) == FrameBit(received, f);
        ParityByte(parity'[j]);
      }
    } else {
      forall k: nat | k < n
        ensures FrameBit(data, k) == FrameBit(data', k)
      {
        assert FrameBit(sent, k) == FrameBit(received, k);
      }
    }
  }

  lemma ParityByte(p: byte)
    ensures p == 1 ==> Bit(p, 0)
    ensures p == 0 ==> !Bit(p, 0)
  {
  }

  lemma LengthsInvert(n: nat)
    ensures DataLength(FrameLength(n)) == n
    ensures FrameLength(n) < 9 <==> n < 9
    ensures n >= 9 ==> FrameLength(n) / 9 == n / 8
  {
  }

  // The frame lengths that survive being unwrapped and wrapped again.
  predicate Relayable(m: nat) {
    1 <= m <= 8 || (m >= 10 && m % 9 != 8)
  }

  /** Wrapping again what unwrap took out of a frame of m bits gives the same
      frame, in length and content, exactly for the relayable lengths. Nine bits
      shrink to eight; a length of 8 modulo 9 above eight gains a parity bit. */
  lemma RewrapReproduces(frame: seq<byte>, m: nat, data: seq<byte>, parity: seq<byte>, frame': seq<byte>)
    requires DataUnwrapped(frame, m, data) && ParitiesUnwrapped(frame, m, parity)
    requires IsWrapped(data, DataLength(m), parity, frame')
    ensures Relayable(m) <==> FrameLength(DataLength(m)) == m
    ensures Relayable(m) ==> AgreeOnBits(frame, frame', m)
    ensures !Relayable(m) ==> FrameLength(DataLength(m)) == if m == 9 then 8 else m + 1
  {
    hide Bit;
    if Relayable(m) {
      forall k: nat | k < m
        ensures FrameBit(frame, k) == FrameBit(frame', k)
      {
        if m >= 9 {
          if k % 9 == 8 {
            var j := k / 9;
            assert k == 9 * j + 8 && j < m / 9;
            ParityByte(parity[j]);
            assert FrameBit(frame, 9 * j + 8) == Bit(parity[j], 0);
          } else {
            var d := 8 * (k / 9) + k % 9;
            assert d < DataLength(m) && d + d / 8 == k && d / 8 == k / 9 && d % 8 == k % 9;
            assert FrameBit(data, d) == FrameBit(frame, d + d / 8);
          }
        }
      }
    }
  }
}
