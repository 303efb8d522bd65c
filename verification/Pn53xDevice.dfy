/** The chip layer of libnfc/chips/pn53x.c with the UART driver below it, as an
    object that updates its fields. Every method does what the function of the
    same name in Protocol says. */
module Pn53xDevice {
  import opened Nfc
  import opened Bits
  import opened RegisterCache
  import P = Protocol
  import S = ShadowSettings

  class Pn53x {
    const kind: P.ChipType
    const io: P.Io
    const wbData: array<byte>
    const wbMask: array<byte>
    var wbTrigged: bool
    var powerMode: P.PowerMode
    var lastCommand: octet
    var samMode: byte
    // bCrc, bPar, bEasyFraming, ui8TxBits, bAutoIso14443_4 and ui8Parameters
    var crc: bool
    var par: bool
    var easyFraming: bool
    var txBits: byte
    var autoIso14443_4: bool
    var parameters: byte
    // the chip and the line
    var regs: Registers
    var answer: seq<byte>
    var answerCode: int
    var script: seq<P.Fault>
    ghost var log: seq<P.Event>

    ghost predicate Valid() {
      wbData.Length == CACHE_SIZE && wbMask.Length == CACHE_SIZE && wbData != wbMask
    }

    ghost function CacheState(): Cache
      requires Valid()
      reads this, wbData, wbMask
    {
      Cache(wbData[..], wbMask[..], wbTrigged)
    }

    ghost function Now(): P.State
      requires Valid()
      reads this, wbData, wbMask
    {
      P.State(kind, io, CacheState(), powerMode, lastCommand, samMode, regs, answer, answerCode, script, log)
    }

    ghost function Settings(): S.Device
      requires Valid()
      reads this, wbData, wbMask
    {
      S.Device(Now(), crc, par, easyFraming, txBits, autoIso14443_4, parameters)
    }

    // pn53x_data_new and nfc_device_new: the masks are cleared, the data is not,
    // and the settings start out as false.
    constructor (kind: P.ChipType, io: P.Io, powerMode: P.PowerMode, data: array<byte>, regs: Registers,
                 script: seq<P.Fault>)
      requires data.Length == CACHE_SIZE
      ensures Valid() && fresh(wbMask) && wbData == data
      ensures NothingPending(CacheState()) && !wbTrigged
      ensures this.kind == kind && this.io == io && this.powerMode == powerMode
      ensures this.regs == regs && this.script == script
      ensures !crc && !par && !easyFraming && !autoIso14443_4
      ensures log == if powerMode == P.LOWVBAT then [P.EnteredLowVbat] else []
    {
      this.kind, this.io, this.powerMode, this.regs, this.script := kind, io, powerMode, regs, script;
      wbData := data;
      wbMask := new byte[CACHE_SIZE](_ => 0x00);
      wbTrigged := false;
      lastCommand, samMode, answer, answerCode := 0, P.PSM_NORMAL, [], 0;
      crc, par, easyFraming, autoIso14443_4, txBits := false, false, false, false, 0x00;
      log := if powerMode == P.LOWVBAT then [P.EnteredLowVbat] else [];
    }

    // The commands do not touch the settings.
    twostate predicate SameSettings()
      reads this
    {
      && crc == old(crc) && par == old(par) && easyFraming == old(easyFraming) && txBits == old(txBits)
      && autoIso14443_4 == old(autoIso14443_4) && parameters == old(parameters)
    }

    // --- The line ---

    method NextOutcome() returns (fault: P.Fault)
      requires Valid()
      modifies this`script
      ensures fault == P.NextFault(old(Now())) && Now() == P.StepOn(old(Now()))
    {
      if script == [] {
        fault := P.None;
      } else {
        fault := script[0];
        script := script[1..];
      }
    }

    method Transmit(ghost e: P.Event) returns (ok: bool)
      requires Valid()
      modifies this`script, this`log
      ensures (Now(), ok) == P.Transmit(old(Now()), e)
    {
      var fault := NextOutcome();
      ok := fault.None?;
      log := log + [if ok then e else P.WriteFailed];
    }

    method Wakeup() returns (ok: bool)
      requires Valid()
      modifies this`script, this`log, this`powerMode
      ensures (Now(), ok) == P.Wake(old(Now())) && powerMode == P.NORMAL
    {
      ok := Transmit(P.Preamble);
      powerMode := P.NORMAL;
    }

    method Execute(ghost who: P.Who, cmd: P.Command)
      requires Valid()
      modifies this`regs, this`answer, this`answerCode, this`log
      ensures Now() == P.Execute(old(Now()), who, cmd)
    {
      log := log + [P.Executed(who, cmd, regs)];
      answer := P.Answer(kind, regs, cmd);
      answerCode := (P.Code(cmd) + 1) % 256;
      regs := P.RegistersAfter(regs, cmd);
    }

    method SendFrame(ghost who: P.Who, cmd: P.Command) returns (sent: bool)
      requires Valid()
      modifies this`script, this`log, this`regs, this`answer, this`answerCode
      ensures (Now(), sent) == P.SendFrame(old(Now()), who, cmd)
    {
      hide WriteAll, P.Answer;
      if P.Size(cmd) > P.COMMAND_MAX {
        return false;
      }
      sent := Transmit(P.Frame(who, cmd));
      if !sent {
        return;
      }
      var ack := NextOutcome();
      if ack.None? || ack.Lost? {
        Execute(who, cmd);
      }
      sent := ack.None?;
      if sent {
        log := log + [P.Acked(P.Code(cmd))];
      }
    }

    method AbortWait(junk: seq<byte>) returns (r: P.Result)
      requires Valid()
      modifies this`script, this`log, this`powerMode
      ensures (Now(), r) == P.Abort(old(Now()), junk)
    {
      hide P.Transmit, P.Wake;
      if io == P.NoWakeUp {
        var _ := Transmit(P.AckFrame);
        return P.Err;
      }
      if powerMode == P.POWERDOWN {
        var awake := Wakeup();
        if !awake {
          return P.Err;
        }
      }
      var ok := Transmit(P.AckFrame);
      r := if ok then P.Ok(junk) else P.Err;
    }

    method TakeReply(code: int, reply: seq<byte>) returns (r: P.Result)
      requires Valid()
      modifies this`log
      ensures (Now(), r) == P.TakeReply(old(Now()), code, reply)
    {
      if code == lastCommand + 1 {
        log := log + [P.Accepted(code)];
        r := P.Ok(reply);
      } else {
        r := P.Err;
      }
    }

    method Receive() returns (r: P.Result)
      requires Valid()
      modifies this`script, this`log, this`powerMode
      ensures (Now(), r) == P.Receive(old(Now()))
    {
      hide P.TakeReply, P.Abort;
      var fault := NextOutcome();
      match fault
      case None =>
        r := TakeReply(answerCode, answer);
      case Stray(code, reply) =>
        r := TakeReply(code, reply);
      case Aborted(junk) =>
        r := AbortWait(junk);
      case Broken =>
        r := P.Err;
      case Lost =>
        r := P.Err;
    }

    // The part of pn53x_transceive behind the send.
    method AwaitReply(cmd: P.Command) returns (r: P.Result)
      requires Valid()
      modifies this`lastCommand, this`script, this`log, this`powerMode
      ensures (Now(), r) == P.AwaitReply(old(Now()), cmd)
    {
      hide P.Receive;
      lastCommand := P.Code(cmd);
      var target := kind == P.PN532 && P.Code(cmd) == P.CMD_TG_INIT_AS_TARGET;
      if target {
        powerMode := P.POWERDOWN;
      }
      r := Receive();
      if r.Ok? && target {
        powerMode := P.NORMAL;
      }
    }

    method Conclude(cmd: P.Command) returns (r: P.Result)
      requires Valid()
      modifies this`lastCommand, this`script, this`log, this`powerMode
      ensures (Now(), r) == P.Conclude(old(Now()), cmd)
    {
      hide P.AwaitReply;
      r := AwaitReply(cmd);
      if r.Ok? && P.HasStatus(kind, cmd) {
        if P.FlaggedStatus(P.Code(cmd)) && At(r.reply, 0) & P.STATUS_FLAGS != 0 {
          r := P.Crash;
        } else if At(r.reply, 0) & P.STATUS_MASK != 0 {
          r := P.Err;
        }
      }
    }

    // --- The mutual recursion ---

    // pn53x_transceive
    method Transceive(ghost who: P.Who, cmd: P.Command) returns (r: P.Result)
      requires Valid()
      modifies this, wbData, wbMask
      ensures SameSettings()
      ensures (Now(), r) == P.Transceive(old(Now()), who, cmd)
      decreases P.Low(Now()), if wbTrigged then 3 else 1
    {
      hide P.Send, P.Writeback, P.Conclude;
      if wbTrigged {
        r := WritebackRegister();
        if !r.Ok? {
          return;
        }
      }
      var sent := Send(who, cmd);
      if !sent {
        return P.Err;
      }
      r := Conclude(cmd);
    }

    // pn53x_writeback_register
    method WritebackRegister() returns (r: P.Result)
      requires Valid()
      modifies this, wbData, wbMask
      ensures SameSettings()
      ensures (Now(), r) == P.Writeback(old(Now()))
      decreases P.Low(Now()), 2
    {
      hide P.Transceive, ReadPlan, WritePlan, MergeReply, DropFull;
      ghost var s := Now();
      wbTrigged := false;
      var toRead := CollectReads();
      if |toRead| > 0 {
        r := Transceive(P.Flush, P.ReadRegister(toRead));
        if !r.Ok? {
          return;
        }
        MergeIn(r.reply, |P.Status(kind)|);
      }
      var toWrite := CollectWrites();
      r := P.Ok([]);
      if |toWrite| > 0 {
        r := Transceive(P.Flush, P.WriteRegister(toWrite));
      }
    }

    // Its first loop: which registers have to be read.
    method CollectReads() returns (addrs: seq<Address>)
      requires Valid()
      ensures addrs == ReadPlan(wbMask[..], CACHE_SIZE)
    {
      addrs := [];
      var n := 0;
      while n < CACHE_SIZE
        invariant 0 <= n <= CACHE_SIZE
        invariant addrs == ReadPlan(wbMask[..], n)
      {
        if wbMask[n] != 0x00 && wbMask[n] != 0xff {
          addrs := addrs + [CACHE_MIN + n];
        }
        n := n + 1;
      }
    }

    // Its second loop: the values read are merged with the pending bits.
    method MergeIn(reply: seq<byte>, off: nat)
      requires Valid()
      modifies wbData, wbMask
      ensures CacheState() == MergeReply(old(CacheState()), reply, off)
    {
      hide Masked, ReadPlan;
      ghost var c := CacheState();
      var i, n := off, 0;
      NoReads(c.mask);
      while n < CACHE_SIZE
        invariant 0 <= n <= CACHE_SIZE
        invariant i == off + |ReadPlan(c.mask, n)|
        invariant forall k :: 0 <= k < n ==>
          wbData[k] == MergedValue(c, reply, off, k) && wbMask[k] == MergedMask(c, reply, off, k)
        invariant forall k :: n <= k < CACHE_SIZE ==> wbData[k] == c.data[k] && wbMask[k] == c.mask[k]
      {
        OneMoreRead(c.mask, n);
        if wbMask[n] != 0x00 && wbMask[n] != 0xff {
          wbData[n] := Masked(At(reply, i), wbMask[n], wbData[n]);
          wbMask[n] := if wbData[n] != At(reply, i) then 0xff else 0x00;
          i := i + 1;
        }
        n := n + 1;
      }
      assert wbData[..] == MergeReply(c, reply, off).data && wbMask[..] == MergeReply(c, reply, off).mask;
    }

    // Its third loop: what has to be written is taken out of the cache.
    method CollectWrites() returns (writes: seq<(Address, byte)>)
      requires Valid()
      modifies wbMask
      ensures writes == WritePlan(wbData[..], old(wbMask[..]), CACHE_SIZE)
      ensures CacheState() == DropFull(old(CacheState()))
    {
      ghost var c := CacheState();
      writes := [];
      var n := 0;
      while n < CACHE_SIZE
        invariant 0 <= n <= CACHE_SIZE
        invariant writes == WritePlan(c.data, c.mask, n)
        invariant forall k :: 0 <= k < n ==> wbMask[k] == if c.mask[k] == 0xff then 0x00 else c.mask[k]
        invariant forall k :: n <= k < CACHE_SIZE ==> wbMask[k] == c.mask[k]
        invariant wbData[..] == c.data
      {
        if wbMask[n] == 0xff {
          writes := writes + [(CACHE_MIN + n, wbData[n])];
          wbMask[n] := 0x00;
        }
        n := n + 1;
      }
      assert wbMask[..] == DropFull(c).mask;
    }

    // pn532_uart_send
    method Send(ghost who: P.Who, cmd: P.Command) returns (sent: bool)
      requires Valid()
      modifies this, wbData, wbMask
      ensures SameSettings()
      ensures (Now(), sent) == P.Send(old(Now()), who, cmd)
      decreases P.Low(Now()), 0, 1
    {
      hide P.SamConfiguration, P.SendFrame, P.Wake, P.Send;
      ghost var start := Now();
      SendStarts(start, who, cmd);
      if io == P.Uart && powerMode != P.NORMAL {
        var awake;
        if powerMode == P.LOWVBAT {
          awake := LeaveLowVbat();
        } else {
          awake := Wakeup();
        }
        if !awake {
          return false;
        }
      }
      sent := SendFrame(who, cmd);
    }

    // Its first case: a SAMConfiguration has to follow the preamble.
    method LeaveLowVbat() returns (ok: bool)
      requires Valid() && io == P.Uart && powerMode == P.LOWVBAT
      modifies this, wbData, wbMask
      ensures SameSettings()
      ensures
        var (woken, awake) := P.Wake(old(Now()));
        var (s, sam) := P.SamConfiguration(woken, P.WakeUp, P.PSM_NORMAL);
        if awake then Now() == s && ok == sam.Ok? else Now() == woken && !ok
      decreases P.Low(Now()), 0, 0
    {
      hide P.SamConfiguration, P.Wake;
      ok := Wakeup();
      if ok {
        var sam := SamConfiguration(P.WakeUp, P.PSM_NORMAL);
        ok := sam.Ok?;
      }
    }

    // pn532_SAMConfiguration
    method SamConfiguration(ghost who: P.Who, mode: byte) returns (r: P.Result)
      requires Valid()
      modifies this, wbData, wbMask
      ensures SameSettings()
      ensures (Now(), r) == P.SamConfiguration(old(Now()), who, mode)
      decreases P.Low(Now()), 4
    {
      hide P.Transceive;
      if kind != P.PN532 {
        return P.Err;
      }
      var args: seq<byte>;
      if mode == P.PSM_NORMAL || mode == P.PSM_WIRED_CARD {
        args := [mode];
      } else if mode == P.PSM_VIRTUAL_CARD || mode == P.PSM_DUAL_CARD {
        args := [mode, 0x00];
      } else {
        return P.Err;
      }
      samMode := mode;
      r := Transceive(who, P.Other(P.CMD_SAM_CONFIGURATION, args, []));
    }

    // --- Register access ---

    // pn53x_read_register
    method ReadRegister(a: Address) returns (v: P.Value)
      requires Valid()
      modifies this, wbData, wbMask
      ensures SameSettings()
      ensures (Now(), v) == P.ReadReg(old(Now()), a)
    {
      hide P.Transceive;
      var r := Transceive(P.User, P.ReadRegister([a]));
      v := if !r.Ok? then P.NoValue else P.Value.Value(At(r.reply, |P.Status(kind)|));
    }

    // pn53x_write_register
    method WriteRegister(a: Address, mask: byte, value: byte) returns (ok: bool)
      requires Valid()
      modifies this, wbData, wbMask
      ensures SameSettings()
      ensures (Now(), ok) == P.WriteReg(old(Now()), a, mask, value)
    {
      hide P.Transceive, P.ReadReg, Masked, Store;
      if !Cached(a) {
        if mask != 0xff {
          var current := ReadRegister(a);
          if current.NoValue? {
            return false;
          }
          var changed := Masked(current.value, mask, value);
          if changed != current.value {
            var r := Transceive(P.User, P.WriteRegister([(a, changed)]));
            return r.Ok?;
          }
        } else {
          var r := Transceive(P.User, P.WriteRegister([(a, value)]));
          return r.Ok?;
        }
      } else {
        StoreInCache(a, mask, value);
      }
      ok := true;
    }

    // The write-back area of pn53x_write_register.
    method StoreInCache(a: Address, mask: byte, value: byte)
      requires Valid() && Cached(a)
      modifies this`wbTrigged, wbData, wbMask
      ensures CacheState() == Store(old(CacheState()), a, mask, value)
    {
      hide Stored, Pending;
      var n := a - CACHE_MIN;
      ghost var c := CacheState();
      wbData[n] := Stored(wbData[n], wbMask[n], mask, value);
      wbMask[n] := Pending(wbMask[n], mask);
      wbTrigged := true;
      assert wbData[..] == Store(c, a, mask, value).data;
      assert wbMask[..] == Store(c, a, mask, value).mask;
    }

    // pn53x_PowerDown
    method PowerDown() returns (ok: bool)
      requires Valid()
      modifies this, wbData, wbMask
      ensures SameSettings()
      ensures (Now(), ok) == P.PowerDown(old(Now()))
    {
      hide P.Transceive;
      var r := Transceive(P.User, P.POWER_DOWN);
      if !r.Ok? {
        return false;
      }
      powerMode := P.LOWVBAT;
      log := log + [P.EnteredLowVbat];
      ok := true;
    }

    // --- Settings ---

    // pn53x_set_tx_bits
    method SetTxBits(bits: byte) returns (ok: bool)
      requires Valid()
      modifies this, wbData, wbMask
      ensures (Settings(), ok) == S.SetTxBits(old(Settings()), bits)
    {
      hide P.WriteReg;
      if txBits != bits {
        ok := WriteRegister(S.REG_BIT_FRAMING, S.SYMBOL_TX_LAST_BITS, bits);
        if !ok {
          return;
        }
        txBits := bits;
      }
      ok := true;
    }

    method WriteTwo(a: Address, mask: byte, value: byte, a': Address, mask': byte, value': byte) returns (ok: bool)
      requires Valid()
      modifies this, wbData, wbMask
      ensures (Now(), ok) == S.WriteTwo(old(Now()), a, mask, value, a', mask', value')
      ensures SameSettings()
    {
      hide P.WriteReg;
      ok := WriteRegister(a, mask, value);
      if ok {
        ok := WriteRegister(a', mask', value');
      }
    }

    // pn53x_set_property_bool
    method SetProperty(p: S.Property, on: bool) returns (ok: bool)
      requires Valid()
      modifies this, wbData, wbMask
      ensures (Settings(), ok) == S.SetProperty(old(Settings()), p, on)
    {
      hide P.WriteReg, S.WriteTwo, P.Transceive, S.SetCrc, S.SetParity, S.SetAutoIso14443_4;
      hide S.Flag, S.FieldCommand, S.RetriesCommand;
      ok := true;
      match p
      case HandleCrc => ok := SetCrc(on);
      case HandleParity => ok := SetParity(on);
      case EasyFraming => easyFraming := on;
      case ActivateField => ok := Run(S.FieldCommand(on));
      case InfiniteSelect => ok := Run(S.RetriesCommand(on));
      case AutoIso14443_4 => ok := SetAutoIso14443_4(on);
      case ActivateCrypto1 =>
        ok := WriteRegister(S.REG_STATUS2, S.SYMBOL_MF_CRYPTO1_ON, S.Flag(on, S.SYMBOL_MF_CRYPTO1_ON));
      case AcceptInvalidFrames =>
        ok := WriteRegister(S.REG_RX_MODE, S.SYMBOL_RX_NO_ERROR, S.Flag(on, S.SYMBOL_RX_NO_ERROR));
      case AcceptMultipleFrames =>
        ok := WriteRegister(S.REG_RX_MODE, S.SYMBOL_RX_MULTIPLE, S.Flag(on, S.SYMBOL_RX_MULTIPLE));
      case ForceIso14443A =>
        if on {
          ok := WriteTwo(S.REG_TX_MODE, S.SYMBOL_FRAMING, 0x00, S.REG_RX_MODE, S.SYMBOL_FRAMING, 0x00);
          if ok {
            ok := WriteRegister(S.REG_TX_AUTO, S.SYMBOL_FORCE_100_ASK, 0x40);
          }
        }
      case ForceIso14443B =>
        if on {
          ok := WriteTwo(S.REG_TX_MODE, S.SYMBOL_FRAMING, 0x03, S.REG_RX_MODE, S.SYMBOL_FRAMING, 0x03);
        }
      case ForceSpeed106 =>
        if on {
          ok := WriteTwo(S.REG_TX_MODE, S.SYMBOL_SPEED, 0x00, S.REG_RX_MODE, S.SYMBOL_SPEED, 0x00);
        }
    }

    method SetCrc(on: bool) returns (ok: bool)
      requires Valid()
      modifies this, wbData, wbMask
      ensures (Settings(), ok) == S.SetCrc(old(Settings()), on)
    {
      hide S.WriteTwo;
      ok := true;
      if on != crc {
        var v := S.Flag(on, S.SYMBOL_CRC_ENABLE);
        ok := WriteTwo(S.REG_TX_MODE, S.SYMBOL_CRC_ENABLE, v, S.REG_RX_MODE, S.SYMBOL_CRC_ENABLE, v);
        if ok {
          crc := on;
        }
      }
    }

    method SetParity(on: bool) returns (ok: bool)
      requires Valid()
      modifies this, wbData, wbMask
      ensures (Settings(), ok) == S.SetParity(old(Settings()), on)
    {
      hide P.WriteReg;
      ok := true;
      if on != par {
        ok := WriteRegister(S.REG_MANUAL_RCV, S.SYMBOL_PARITY_DISABLE, S.Flag(!on, S.SYMBOL_PARITY_DISABLE));
        if ok {
          par := on;
        }
      }
    }

    // With pn53x_set_parameters: the flag is set before the command has succeeded.
    method SetAutoIso14443_4(on: bool) returns (ok: bool)
      requires Valid()
      modifies this, wbData, wbMask
      ensures (Settings(), ok) == S.SetAutoIso14443_4(old(Settings()), on)
    {
      hide P.Transceive, S.WithAutoRats, S.ParametersCommand;
      ok := true;
      if on != autoIso14443_4 {
        autoIso14443_4 := on;
        var value := S.WithAutoRats(parameters, on);
        if value != parameters {
          ok := Run(S.ParametersCommand(value));
          if ok {
            parameters := value;
          }
        }
      }
    }

    method Run(cmd: P.Command) returns (ok: bool)
      requires Valid()
      modifies this, wbData, wbMask
      ensures (Settings(), ok) == S.RunOn(old(Settings()), cmd)
      ensures SameSettings()
    {
      hide P.Transceive;
      var r := Transceive(P.User, cmd);
      ok := r.Ok?;
    }

    // pn53x_reset_settings
    method ResetSettings() returns (ok: bool)
      requires Valid()
      modifies this, wbData, wbMask
      ensures (Settings(), ok) == S.ResetSettings(old(Settings()))
    {
      hide P.WriteReg, S.SetProperty;
      txBits := 0x00;
      ok := WriteRegister(S.REG_BIT_FRAMING, S.SYMBOL_TX_LAST_BITS, 0x00);
      if !ok {
        return;
      }
      ok := SetProperty(S.HandleCrc, true);
      if !ok {
        return;
      }
      ok := SetProperty(S.HandleParity, true);
      if !ok {
        return;
      }
      ok := SetProperty(S.EasyFraming, true);
      if !ok {
        return;
      }
      ok := SetProperty(S.ActivateCrypto1, false);
    }
  }

  // What P.Send does, by the cases of the method.
  lemma SendStarts(s: P.State, who: P.Who, cmd: P.Command)
    ensures s.io != P.Uart || s.power == P.NORMAL ==> P.Send(s, who, cmd) == P.SendFrame(s, who, cmd)
    ensures
      var (woken, awake) := P.Wake(s);
      var (s2, sam) := P.SamConfiguration(woken, P.WakeUp, P.PSM_NORMAL);
      && (s.io == P.Uart && s.power == P.POWERDOWN ==>
            P.Send(s, who, cmd) == if awake then P.SendFrame(woken, who, cmd) else (woken, false))
      && (s.io == P.Uart && s.power == P.LOWVBAT ==>
            P.Send(s, who, cmd) ==
            if !awake then (woken, false) else if sam.Ok? then P.SendFrame(s2, who, cmd) else (s2, false))
  {
    hide P.SamConfiguration, P.SendFrame, P.Wake;
  }

  lemma NoReads(mask: Slots)
    ensures ReadPlan(mask, 0) == []
  {
  }

  lemma OneMoreRead(mask: Slots, n: nat)
    requires n < CACHE_SIZE
    ensures |ReadPlan(mask, n + 1)| == |ReadPlan(mask, n)| + if Partial(mask[n]) then 1 else 0
  {
  }
}
