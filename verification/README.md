# A verified model of libnfc's PN53x layer

libnfc talks to NFC readers built around the PN53x chips. This project models the
parts of it whose correctness is not obvious from reading one function, and proves
what they are for:

- `RegisterCache`, `Protocol`, `Pn53xDevice`: the command path to the chip. Masked
  register writes are collected and flushed lazily at the head of the next command,
  through the same function that sends commands; a PN532 on a serial line has to be
  woken up in the middle of sending, which again sends a command. `Pn53xDevice.Pn53x`
  is the driver object with its arrays and flags; every method of it is proved equal
  to a function of `Protocol` or `ShadowSettings`, and the theorems are about those
  functions:
  - `WriteThrough`: over a line without faults no caller can tell the lazy driver from
    one that writes every register at once, for all sequences of operations;
  - `FailedFlush`, `HonestLine`: what becomes of pending writes when the line fails
    during a flush, over every line and, over lines that bring no false replies, decided
    by the positions of the faults;
  - `LineSafety`: over any line, replies answer the last command, and a sleeping PN532
    is woken up properly;
  - `PowerModes`: over any line, the log alone tells the power mode, and with it where
    preambles go out and where they do not;
  - `FailedWakeUp`: what a preamble that could not be written comes to;
  - `Verdict`: what the status byte of a reply does to the result of a command;
  - `DirectRegisters`: registers outside the cache, over any line;
  - `FlushTraffic`: what a flush puts on the line;
  - `ShadowSettings`: the fields that serve to skip register writes stay true of the
    chip;
  - `SettingEffects`: what each setting does, in addresses, bits and bytes on the line.
- `Bits`, `ParityCodec`, `BitsTransfer`: frames with one parity bit after every eight
  data bits, packed into bytes through mirrored shifts; from the caller's bits to the
  chip command and back.
- `CrcA`: the byte-wise CRC_A against the shift register of ISO/IEC 14443-3 Annex B,
  and the errors it is sure to detect.
- `Frames`, `SerialPort`, `UartReceiver`, `UsbReceiver`: host frames built and parsed,
  from a stream that arrives in pieces and from a buffer.
- `FifoDrain`: the loop that empties the chip's FIFO while it keeps filling.
- `MifareClassic`, `WritePlan`: dumping and restoring a card sector by sector, and what
  the disturbances of a restore decide.
- `ForumTag4`: the NFC Forum Type 4 tag emulator.

Code that updates objects or arrays in place is modelled by classes and methods on
arrays. The transport is a script of outcomes (`Protocol.Fault`): every step can
succeed, fail, execute the command but lose its acknowledgement, bring a reply to
another command, or be aborted. Each theorem says which scripts it is for: `LineSafety`,
`PowerModes`, `FailedWakeUp`, `FlushTraffic`, `FailedFlush` and `DirectRegisters` are for
every script, `HonestLine` for those without false replies, `WriteThrough`,
`SettingEffects` and the runs of `ShadowSettings` for those without faults, `Verdict` for
both. Chip registers are plain memory, changed by WriteRegister only. Where
the source does not look at the length of something, its buffer stands in the model with
the memory behind it. `dafny verify dfyconfig.toml` checks everything.

What came out that the code does not show at a glance:

- Wrapping again what was unwrapped, as relaying raw frames does, reproduces a frame
  exactly for lengths 1 to 8 and lengths from 10 on that are not 8 modulo 9
  (`RewrapReproduces`).
- Over any line, pending register writes survive a flush if and only if it got stuck
  reading, or its write arrived and the reply to its read serves, or no write arrived and
  there was nothing to change (`PendingSurvives`); what a reply has to show to serve is
  in `FlushIsRight`. But after it got stuck no flush is due any more, and the next
  command runs without them (`FailedReadForgetsToFlush`); and what the flush was writing
  is gone if that did not arrive (`FailedWriteLosesRegisters`).
- A false reply to the read of a flush spoils it: for every chip that is awake and every
  partial write there is one for which the flush reports success and leaves the chip
  neither as it was nor as asked for (`FalseReplySpoilsFlush`). A caller brings it about
  by aborting: on the UART an aborted wait is a success for the command, with whatever is
  in the reply buffer for its reply (`AbortedCommandSucceeds`).
- A setting that a failed flush has lost stays lost when it is set again, because the
  shadow field says that there is nothing to do (`LostSettingStaysLost`); setting the
  opposite first mends it (`TogglingMends`).
- The driver finds the registers asked for, whatever the chip holds, exactly when a flush
  is due or nothing is pending (`CommandFinds`).
- A failed wake-up is not repeated: the next command frame goes out without a preamble,
  in every later run (`FailedWakeUpIsNotRepeated`).
- A PN532 that waits as a target is taken to sleep only once it has acknowledged
  TgInitAsTarget; from then on it is woken up before it is spoken to, be it by an aborted
  wait, until its reply is accepted (`WaitingTargetIsWoken`).
- A SAM mode that is set out of LOWVBAT is not the one on record: waking the chip up
  stores the normal mode on the way, after the new mode has been stored and before the
  chip takes it (`SamEffect`).
- An aborted wait on the UART returns the result of writing the ACK frame, which is
  zero, a success, when that works (`UartReceiver.Receiver.Receive`). An abort that is
  requested behind the first five bytes is left for the next wait.
- The USB receiver may complete a reply that was cut short from stale bytes of its
  buffer. It agrees with the UART receiver exactly if what it takes lies within the
  bytes read, which it does not check (`ReceiversAgree`, `CutReplyIsCompleted`).
- The card tool reports a dump as complete although a trailer is missing, if the read
  of that trailer did not get through but the sector stayed open
  (`ReadWithoutTrailer`); data blocks and keys are always right (`ReadCard`).
- A restore with failed writes is reported as a success. In a sector with a
  failed block the data blocks behind it keep their old content but the trailer gets its
  new keys. The number of blocks reported is that of as many sectors from the first, not
  of the sectors written: on a 4K card one failed sector of four blocks makes 240 of 256
  (`WriteWithOneFailure`).
- Without a key file, the card tool keeps a guessed key in the entry of the block it
  asked for, which is the first block of the sector when writing; the entries of the
  trailers, where a key file has its keys, do not change (`WriteCard`).
- An empty NDEF message cannot be loaded or saved: the program exits.

## Model

| member | source | states |
|---|---|---|
| Bits.TableIsMirror | libnfc/mirror-subr.c:33-60 | each of the 256 table entries is its index with the bits reversed, and looking up twice is the identity |
| Bits.MirrorBytes | libnfc/mirror-subr.c:62-71 | in place, bit i of every byte becomes bit 7-i of the old byte |
| ParityCodec.Wrap | libnfc/chips/pn53x.c:333-388 | NFC_ECHIP for no bits; otherwise the result is n + n/8 (n up to 8 bits) and frame bit 9j+i is data bit i of byte j, frame bit 9j+8 the parity of byte j; nothing behind the footprint changes |
| ParityCodec.Unwrap | libnfc/chips/pn53x.c:390-435 | for n frame bits returns n - n/9 (n below 9), every data bit and every parity bit in its place; exact footprint, with the group behind the result that multiples of nine touch |
| ParityCodec.GroupStep | libnfc/chips/pn53x.c:359-388 | one turn of the wrapping loop: two mirrored bytes and the carried bits add exactly nine more frame bits |
| ParityCodec.GroupOut | libnfc/chips/pn53x.c:409-434 | one turn of the unwrapping loop: the two shifted mirrored bytes give the eight data bits of the next group |
| ParityCodec.ParityOut | libnfc/chips/pn53x.c:409-434 | and the bit behind them is its parity |
| ParityCodec.UnwrapInvertsWrap | libnfc/chips/pn53x.c:333-435 | unwrapping any buffer that agrees with a wrapped frame on just the frame's bits gives back length, data bits and parities, for every n |
| ParityCodec.RewrapReproduces | examples/nfc-relay.c:186-210 | wrapping what was unwrapped gives the received frame, in length and bits, if and only if its length is 1..8, or at least 10 and not 8 modulo 9; the length it becomes otherwise |
| BitsTransfer.RecoveredBitsInvertsSplit | libnfc/chips/pn53x.c:1932-1940 | the receiver's length formula inverts the sender's split into a byte count and the bits of the last byte |
| BitsTransfer.PrepareCommand | libnfc/chips/pn53x.c:2021-2052 | the command carries the caller's bits, wrapped or as they are, however many, and byte count and last-bit count are those of the bits on the air |
| BitsTransfer.RecoverBits | libnfc/chips/pn53x.c:1919-1960 | the caller gets the frame as the chip's last-bit count delimits it, unwrapped when parity is left to software; NFC_EOVFLOW if it does not fit |
| BitsTransfer.TransferPreservesBits | libnfc/chips/pn53x.c:1919-2060 | end to end, for every n > 0 and both parity settings, the receiver hands out the sent length, data bits and (in software, above 8 bits) parities |
| CrcA.SourceStepIsSerial | libnfc/iso14443-subr.c:46-50 | one turn of the loop on the 32-bit accumulator is eight steps of the shift register, and stays within 16 bits |
| CrcA.Iso14443aCrc | libnfc/iso14443-subr.c:40-55 | the two bytes written are the bit-serial CRC of the first szLen bytes, low byte first, and nothing else changes |
| CrcA.Iso14443aCrcAppend | libnfc/iso14443-subr.c:61-65 | the message is kept and the CRC of message and appended bytes is 0 |
| CrcA.CrcOfSealed | libnfc/iso14443-subr.c:61-65 | every message with its CRC appended has CRC 0 |
| CrcA.KnownCrcs | libnfc/iso14443-subr.c:40-55 | 1EA0 for 00 00 and CF26 for 12 34, as in ISO/IEC 14443-3 Annex B, and CD57 for the HLTA command 50 00 |
| CrcA.BurstChangesCrc | libnfc/iso14443-subr.c:40-55 | different messages of equal length that differ only within 16 consecutive bits (two adjacent bytes, for one) have different CRCs |
| CrcA.BurstIsDetected | libnfc/iso14443-subr.c:61-65 | of all strings that differ from a sealed message within 16 consecutive bits, its CRC included, only the sealed message itself has CRC 0 |
| Frames.BuildFrame | libnfc/chips/pn53x.c:2660-2715 | writes exactly the normal frame up to 254 bytes, the extended one up to 264, NFC_ECHIP above; nothing behind it changes |
| Frames.KnownFrames | libnfc/drivers/arygon.c:352 | byte for byte the test frame of a driver, the answer to it, and the head of the longest command |
| Frames.DataChecksum | libnfc/chips/pn53x.c:2670-2678 | the loop on an 8-bit variable ends at the byte that makes TFI and data sum to 0 modulo 256 |
| Frames.ReplyIsAccepted | libnfc/drivers/pn532_uart.c:352-459 | completeness: a stream starting with a reply (normal or extended) to the last command whose payload fits is accepted, whatever follows, and exactly the reply is consumed |
| Frames.AcceptedIsReply | libnfc/drivers/pn532_uart.c:352-459 | soundness: what is accepted is, byte for byte, a reply to the last command with that payload, and all that was consumed |
| Frames.ChangedReplyIsRejected | libnfc/drivers/pn532_uart.c:362-457 | no reply frame with exactly one byte changed is accepted, whatever follows it and whatever command is waited for; for all payloads and receive buffers below 0xD4FE bytes, the chip's 264 among them |
| Frames.BackToBack | libnfc/drivers/pn532_uart.c:352-459 | replies sent back to back are received one after another |
| Frames.CompleteIsFinal | libnfc/drivers/pn532_uart.c:352-459 | once the bytes suffice for an outcome, neither what follows nor the error of a shortage matters |
| SerialPort.Port.Receive | libnfc/buses/uart_posix.c:247-314 | a read that watches for aborts ends with one exactly if one is requested before its bytes are in; otherwise a read delivers the next bytes of the stream, or the error that ends it, independently of the pieces they arrive in |
| SerialPort.FirstFault | libnfc/buses/uart_posix.c:254-311 | what can be read is what comes in before the first event that ends the wait; the error is NFC_EIO (-1) for a failure of the device or the end of the file, NFC_ETIMEOUT (-6) otherwise |
| SerialPort.AbortIsSeen | libnfc/buses/uart_posix.c:254-311 | a wait is aborted if and only if that is requested before it, or at an event before which nothing has ended the wait and bytes are still missing |
| SerialPort.CutElsewhere | libnfc/buses/uart_posix.c:247-314 | cutting a chunk in two and interrupting in between changes neither the stream nor how it ends |
| UartReceiver.Receiver.Receive | libnfc/drivers/pn532_uart.c:339-463 | if an abort is requested before or during the wait for the first five bytes, the result is that of writing the ACK and the last error is NFC_EOPABORTED; otherwise, whatever is requested meanwhile, result, payload, last error (0 on success) and remaining stream are those of the frame parser applied to the stream |
| UsbReceiver.Receiver.Receive | libnfc/drivers/pn53x_usb.c:563-647 | the buffered receiver is the same parser applied to its buffer and the memory behind it |
| UsbReceiver.BufferedAgreesWithStreaming | libnfc/drivers/pn53x_usb.c:563-647 | on every read that holds enough bytes for an outcome, the buffered and the streaming receiver accept or reject alike and yield the same payload |
| UsbReceiver.ReceiversAgree | libnfc/drivers/pn53x_usb.c:543-647 | on every read, whatever stale bytes stand behind it: both receivers take the same payload or none if and only if what the buffered one takes lies within the bytes read; otherwise the streaming one reports the shortage |
| UsbReceiver.CutReplyIsCompleted | libnfc/drivers/pn53x_usb.c:543-568 | for a reply cut anywhere there are stale bytes for which the buffered receiver takes it |
| UsbReceiver.ShortageIsReported | libnfc/drivers/pn532_uart.c:352-440 | the streaming receiver decides exactly when the bytes it awaits are there (header, extended header, TFI and code, rest of the frame), reports the shortage exactly before, and awaits just the frame that it accepts |
| RegisterCache.StoreIsMaskedWrite | libnfc/chips/pn53x.c:634-638 | storing a masked write has the effect of the masked write on the effective registers, and on no other register, whatever the cache held |
| RegisterCache.FlushDelivers | libnfc/chips/pn53x.c:643-710 | reading the partially masked registers, merging and writing the fully masked ones turns the chip's registers into the effective ones and clears all masks |
| RegisterCache.ReadPlanAscends | libnfc/chips/pn53x.c:651-660 | a flush reads exactly the partially masked registers, each once, in ascending order |
| RegisterCache.WritePlanAscends | libnfc/chips/pn53x.c:688-701 | a flush writes exactly the fully masked registers, each once, in ascending order |
| RegisterCache.NoNeedlessWrites | libnfc/chips/pn53x.c:676-684 | a partially masked register that already holds the merged value is not written |
| Protocol.Transceive | libnfc/chips/pn53x.c:145-294 | the mutual recursion terminates for every transport outcome (decreases clauses), never enters LOWVBAT, and leaves no flush due where none was |
| Protocol.Writeback | libnfc/chips/pn53x.c:643-710 | whatever happens, no flush is due afterwards |
| Verdict.StatusDecides | libnfc/chips/pn53x.c:198-294 | over a line without faults, for the fourteen exchange commands by their codes: the program aborts if and only if bit 7 or 6 of the first reply byte is set, and otherwise the command succeeds if and only if that byte is 0; for Diagnose 6, InDeselect and InRelease if and only if its low six bits are 0; any other command succeeds with its reply |
| Verdict.ReceivedDecides | libnfc/chips/pn53x.c:198-294 | the same of whatever reply with the right code is received over any line, register access of the PN533 included |
| Verdict.SuccessIsJudged | libnfc/chips/pn53x.c:145-305 | over any line, nested flushes and wake-ups included, a success has a reply whose status is in order, and only an exchange can end the program |
| DirectRegisters.ReadByFaults | libnfc/chips/pn53x.c:582-606 | over any line: the value behind the status byte of what is taken for the reply, and none if the frame, its ACK or the reply fails or the status is an error |
| DirectRegisters.FullWriteByFaults | libnfc/chips/pn53x.c:616-641 | over any line, outside the cache: success exactly if frame, ACK and reply are; the register has the value if the frame has got through |
| DirectRegisters.PartialWriteByFaults | libnfc/chips/pn53x.c:616-641 | a failed read fails the write and changes nothing; bits that are read as they should be are not written; otherwise the merged value is written, whose faults decide |
| Pn53xDevice.Pn53x.constructor | libnfc/chips/pn53x.c:3089-3131 | a new device has nothing pending, no flush due and both shadow settings false, whatever the data array holds |
| Pn53xDevice.Pn53x.Transceive | libnfc/chips/pn53x.c:145-305 | the method changes the device as Protocol.Transceive says, status byte of every kind of reply included, and no shadow field |
| Pn53xDevice.Pn53x.WritebackRegister | libnfc/chips/pn53x.c:643-710 | the same for the flush with its loops over the two arrays |
| Pn53xDevice.Pn53x.CollectReads | libnfc/chips/pn53x.c:648-660 | the first loop collects the read plan |
| Pn53xDevice.Pn53x.MergeIn | libnfc/chips/pn53x.c:670-686 | the second loop, with its running index, merges each reply byte into its register |
| Pn53xDevice.Pn53x.CollectWrites | libnfc/chips/pn53x.c:688-701 | the third loop collects the write plan and drops the full masks |
| Pn53xDevice.Pn53x.Send | libnfc/drivers/pn532_uart.c:278-337 | wake-up, nested SAMConfiguration, frame and ACK as in Protocol.Send |
| Pn53xDevice.Pn53x.Wakeup | libnfc/drivers/pn532_uart.c:267-275 | the power mode becomes NORMAL even when writing the preamble fails |
| Pn53xDevice.Pn53x.SamConfiguration | libnfc/chips/pn53x.c:2230-2258 | on a PN532 a valid mode is stored and its command, of two or three bytes, transceived; other chips and modes are refused |
| Pn53xDevice.Pn53x.AbortWait | libnfc/drivers/pn532_uart.c:465-475 | an aborted wait ends with the result of writing the ACK frame |
| Pn53xDevice.Pn53x.ReadRegister | libnfc/chips/pn53x.c:582-606 | the value read, behind the status byte on a PN533 |
| Pn53xDevice.Pn53x.WriteRegister | libnfc/chips/pn53x.c:616-641 | cached inside the cache area; outside it read, merged and written only if changed |
| Pn53xDevice.Pn53x.PowerDown | libnfc/chips/pn53x.c:2260-2269 | enters LOWVBAT exactly if the command succeeds |
| Pn53xDevice.Pn53x.SetTxBits | libnfc/chips/pn53x.c:317-331 | the device changes as ShadowSettings.SetTxBits says |
| Pn53xDevice.Pn53x.SetProperty | libnfc/chips/pn53x.c:813-939 | the device changes as ShadowSettings.SetProperty says, shadow fields only after success |
| Pn53xDevice.Pn53x.ResetSettings | libnfc/chips/pn53x.c:121-143 | the device changes as ShadowSettings.ResetSettings says |
| WriteThrough.WritebackDelivers | libnfc/chips/pn53x.c:643-710 | over a line without faults a flush leaves the chip with the effective registers and nothing pending, also out of LOWVBAT, and executes no command of the caller |
| WriteThrough.TransceiveSeesEffective | libnfc/chips/pn53x.c:145-294 | a command is executed on the registers the caller has asked for, all earlier masked writes included |
| WriteThrough.StepRefines | libnfc/chips/pn53x.c:582-641 | one masked write, read, command or power-down is simulated by the write-through driver, with the same result |
| WriteThrough.LazyRefinesWriteThrough | libnfc/chips/pn53x.c:145-710 | for every sequence of operations all results, all executed commands with the registers they found, and the final view of the registers equal those of the write-through driver |
| FailedFlush.CommandFinds | libnfc/chips/pn53x.c:149-153 | over a line without faults a command finds the effective registers, whatever the chip holds, if and only if a flush is due or nothing is pending |
| FailedFlush.FlushOutcome | libnfc/chips/pn53x.c:643-710 | for every state and every script, in every power mode: a flush ends stuck in reading, with cache and chip as they were but no flush due, or with nothing pending and the chip holding what was merged with the reply, if its WriteRegister arrived, or what it held before; success means that the merged values are there |
| FailedFlush.FlushIsRight | libnfc/chips/pn53x.c:675-701 | for every reply, true or not: what is merged and written is what was asked for if and only if for each partially masked register the reply shows the right bits outside the mask, or, where it shows the pending bits in place, the register has them |
| FailedFlush.PendingSurvives | libnfc/chips/pn53x.c:652-707 | for every state and every script: pending values survive a flush if and only if it got stuck reading, or its write arrived and the reply serves, or no write arrived and there was nothing to change; the next command finds them in the chip under the same conditions but the first |
| HonestLine.FlushByPositions | libnfc/chips/pn53x.c:643-710 | over lines without false replies, in every power mode, LOWVBAT included, the position of the first fault decides how the flush ends, and a write that gets through leaves the chip as asked for |
| HonestLine.SurvivalByPositions | libnfc/chips/pn53x.c:652-707 | the same for what survives, as an if and only if on the script |
| FailedFlush.FailedReadForgetsToFlush | libnfc/chips/pn53x.c:652-669 | the flag is cleared before the outcome is known: whenever the read fails, by whatever faults, the command fails, all writes stay pending, and over a line that works again the next command runs without them |
| FailedFlush.FailedWriteLosesRegisters | libnfc/chips/pn53x.c:691-707 | the masks are cleared before the outcome is known: whenever the WriteRegister of a flush does not reach the chip, by whatever faults, neither chip nor cache has the pending values |
| FailedFlush.FalseReplySpoilsFlush | libnfc/chips/pn53x.c:662-710 | for every chip that is awake, PN533 included, all registers and all pending writes of which one is partial: with a reply to another command of the same code, or an aborted wait on the UART, that shows the opposite of what was asked for, the flush succeeds, leaves registers that are neither the old ones nor those asked for, and the next command runs on them |
| LineSafety.TransceiveMatches | libnfc/chips/pn53x.c:176-191 | with nested flushes and wake-ups, and over any line, every reply taken carries the code of the last command frame plus one, and no frame has more than 264 bytes |
| LineSafety.AcceptedAnswersFrame | libnfc/drivers/pn532_uart.c:421-425 | for a given reply in the log: the last command frame before it is the one it answers |
| LineSafety.SuccessIsAnswered | libnfc/chips/pn53x.c:176-191 | over any line a command succeeds only if it was the last one sent and the last thing that happened is that its reply was accepted or, on the UART only, that a wait was aborted by an ACK frame |
| LineSafety.AbortedCommandSucceeds | libnfc/drivers/pn532_uart.c:352-356 | an aborted wait on the UART makes the command a success with what is in the reply buffer, subject to its status byte |
| LineSafety.TransceiveWakes | libnfc/drivers/pn532_uart.c:278-337 | over any line, after the chip has entered LOWVBAT the first command frame comes behind a wake-up preamble and is a SAMConfiguration, unless a UART write failed meanwhile; a flush does not get in between; and no preamble follows one that could not be written |
| LineSafety.JustOpenedIsFine | libnfc/drivers/pn532_uart.c:238-243 | a freshly opened PN532 meets the invariants |
| LineSafety.RunsAreSafe | libnfc/drivers/pn532_uart.c:267-337 | both invariants hold after every sequence of operations, over every transport |
| PowerModes.RunsAreWellTimed | libnfc/drivers/pn532_uart.c:285-306 | for every sequence of operations over every transport: the mode follows from the log (PowerDown, preambles, failed writes, acknowledged TgInitAsTarget, its reply); command and ACK frames are written in NORMAL only, preambles outside it only |
| PowerModes.JustOpenedIsLogged | libnfc/drivers/pn532_uart.c:238-243 | a freshly opened PN532 meets that |
| PowerModes.WaitingTargetIsWoken | libnfc/chips/pn53x.c:185-195 | between the ACK of a frame 0x8C to a PN532 and the next command or ACK frame there is the reply 0x8D, a preamble, or a write that failed |
| PowerModes.PowerDownSleeps | libnfc/chips/pn53x.c:2260-2269 | a PowerDown that succeeds, and only such, makes the next command, whichever it is and whatever is pending, begin with a preamble |
| FailedWakeUp.SleepingIsWoken | libnfc/drivers/pn532_uart.c:285-299 | over every transport the first thing written to a chip in LOWVBAT is a preamble, whether a flush is due or not |
| FailedWakeUp.PreambleIsTriedOnce | libnfc/drivers/pn532_uart.c:267-337 | in every such log the first command frame after entering LOWVBAT has a preamble before it if and only if the first write after that did not fail, and is a SAMConfiguration if none failed |
| FailedWakeUp.FailedWakeUpIsNotRepeated | libnfc/drivers/pn532_uart.c:267-275 | for every sleeping state, command and fault of the preamble's write: the command fails, the driver believes the chip awake, and in every later run over every transport the next command frame goes out without a preamble |
| FlushTraffic.WritebackTraffic | libnfc/chips/pn53x.c:643-710 | under any transport a flush sends at most one ReadRegister of at most 125 bytes and then at most one WriteRegister of at most 187, both ascending within the cache area; on success nothing is pending |
| SettingEffects.Crypto1Effect | libnfc/chips/pn53x.c:856-859 | bit 3 of Status2 (0x6338) becomes what was asked for; no other bit or register changes |
| SettingEffects.ReceptionEffect | libnfc/chips/pn53x.c:872-880 | the same for bit 3 of RxMode (0x6303) with invalid frames and bit 2 with several frames |
| SettingEffects.ForceEffect | libnfc/chips/pn53x.c:891-929 | type A clears the framing bits of TxMode and RxMode and sets bit 6 of TxAuto (0x6305), type B sets the framing to 3, 106 kbps clears the speed bits; nothing else, and nothing at all when switched off |
| SettingEffects.CrcEffect | libnfc/chips/pn53x.c:819-833 | bit 7 of TxMode and RxMode, unless the shadow field says so already |
| SettingEffects.ParityEffect | libnfc/chips/pn53x.c:835-845 | bit 4 of ManualRCV (0x630D), inverted, unless the shadow field says so already |
| SettingEffects.TxBitsEffect | libnfc/chips/pn53x.c:317-331 | the low three bits of BitFraming (0x633D), likewise |
| SettingEffects.FieldEffect | libnfc/chips/pn53x.c:852-870 | the caller's only new command is RFConfiguration with 01 and the switch for the field, with 05 FF FF FF or 05 00 01 02 for the retries; no register changes |
| SettingEffects.AutoRatsEffect | libnfc/chips/pn53x.c:882-889 | SetParameters with bit 4 changed, only if that is a change, and the parameters on record are those sent |
| SettingEffects.ResetEffect | libnfc/chips/pn53x.c:121-143 | after the first and any later reset Crypto1 is off and whole bytes are sent; CRC and parity bits are set unless the shadow fields had them already; all other registers are as before |
| SettingEffects.SamEffect | libnfc/chips/pn53x.c:2230-2258 | modes 1 to 4 of a PN532: the command's bytes, and the mode on record, which is the normal one out of LOWVBAT; other modes and chips are refused with nothing changed |
| ShadowSettings.CrcIsSet | libnfc/chips/pn53x.c:819-833 | setting HandleCrc has the effect of always writing both registers: the writes it skips would change nothing |
| ShadowSettings.ParityIsSet | libnfc/chips/pn53x.c:835-845 | the same for HandleParity |
| ShadowSettings.TxBitsAreSet | libnfc/chips/pn53x.c:317-331 | the same for the number of bits in the last byte |
| ShadowSettings.SetPropertyKeepsCoherence | libnfc/chips/pn53x.c:813-939 | each of the twelve boolean properties keeps the shadow fields true of the chip |
| ShadowSettings.FirstResetMakesCoherent | libnfc/chips/pn53x.c:121-143 | from settings that start as false the first reset makes them true of the chip, whatever its registers held |
| ShadowSettings.RunsStayCoherent | libnfc/chips/pn53x.c:813-939 | after every run of settings, register accesses, commands and power-downs without faults, bit 7 of TxMode and RxMode, bit 4 of ManualRCV and the low bits of BitFraming, pending writes included, are what the shadow fields say |
| ShadowSettings.RawBitFramingWrite | libnfc/chips/pn53x.c:1505-1507 | writing BitFraming directly keeps the shadow field true if and only if the value has the same low bits |
| ShadowSettings.FlushedShadows | libnfc/chips/pn53x.c:643-710 | over any line, shadow fields that agreed with the pending writes agree after a flush if and only if it got stuck in reading or they agree with what it left in the chip |
| ShadowSettings.LostSettingStaysLost | libnfc/chips/pn53x.c:317-331 | over lines without false replies they agree if and only if the flush got stuck in reading, its write got through, or they agreed with the chip before; setting the same values again writes nothing |
| ShadowSettings.TogglingMends | libnfc/chips/pn53x.c:819-845 | over a line that works again, setting the opposite and then the value makes the chip have it, whatever it held |
| FifoDrain.PollLevel | libnfc/chips/pn53x.c:1613-1617 | polls until a poll works and finds bytes, or the number of polls is used up: 0 means that each of them failed or found the FIFO empty, otherwise it is the level after the last; nothing is taken out of the FIFO |
| FifoDrain.Drain | libnfc/chips/pn53x.c:1613-1645 | although bytes keep arriving, what was received, what a lost reply carried and what is still queued are together everything the chip has queued, once and in order; on success nothing is lost or still queued, and the bytes that come in first, at whichever of the polls, are received; it succeeds if every access to the chip works; it terminates |
| FifoDrain.DrainBits | libnfc/chips/pn53x.c:1519-1550 | the same for the function that counts bits |
| MifareClassic.SectorsAreConsistent | utils/nfc-mfclassic.c:138-169 | first block, trailer block and sector trailer describe one division into sectors |
| MifareClassic.SameSectorSameTrailer | utils/nfc-mfclassic.c:158-169 | two blocks have the same trailer exactly if they lie in the same sector |
| MifareClassic.AllBlocksCounted | utils/nfc-mfclassic.c:130-136 | counting each sector once ends at the number of blocks, for every card that ends on a trailer |
| MifareClassic.Tool.Authenticate | utils/nfc-mfclassic.c:171-215 | success means the sector is open and the key kept is its present key; with a key file it succeeds exactly if that key fits and the command is not disturbed, without one, on an undisturbed card, exactly if a default key fits |
| MifareClassic.Tool.ReadCard | utils/nfc-mfclassic.c:259-331 | whatever disturbs the card, the dump holds exactly the blocks whose reads were answered; success means all data blocks, all keys and the counter are right, and a trailer is in the dump if and only if its own read was answered; with a key file, it succeeds if and only if all sectors can be opened and the disturbances spare every authentication and data read and close no sector; undisturbed, if and only if all sectors can be opened, and then all is read |
| MifareClassic.Tool.WriteCard | utils/nfc-mfclassic.c:333-412 | whatever disturbs the card, each block holds its old content or the dump's, and the counter reaches last + 1 only if all of them are written; with a key file, or undisturbed, if and only if all sectors can be opened and no operation is disturbed. With a key file: success if and only if every sector is opened; each block holds the dump's content exactly if the sectors up to its own are opened and its write lands, by the disturbances alone (WritePlan); the counter counts the sectors without a failed write. Without one, the entry of the first block of each sector opened holds the key that opened it, and no other entry changes |
| WritePlan.QuietSectorIsWritten | utils/nfc-mfclassic.c:346-405 | whatever has failed before, a sector none of whose own operations is disturbed, its selection after a failure included, is opened, written in all its blocks, and counts |
| WritePlan.FailedSector | utils/nfc-mfclassic.c:373-405 | behind a data block that fails no data block of the sector is written; the trailer is, unless the card has lost power or its own write fails; the next sector begins anew, with a selection |
| MifareClassic.WriteWithOneFailure | utils/nfc-mfclassic.c:333-412 | for every card size, every block but 0 and every disturbance of its write alone: the exact content of every block afterwards, success, and a counter that lacks the size of the last sector |
| MifareClassic.WriteThenRead | utils/nfc-mfclassic.c:259-412 | writing a dump and reading with it as key file, into any memory, returns the dump in blocks 1..last, and block 0 as it was, but for trailers whose reads were not answered; undisturbed, it succeeds if and only if the old keys, from a file or guessed, open the card, and returns all, for every card size |
| MifareClassic.ReadWithoutTrailer | utils/nfc-mfclassic.c:298-310 | for every card size and every trailer: if only its read does not get through, success and a full counter are reported, and the dump lacks that trailer |
| ForumTag4.Emulator.Io | utils/nfc-emulate-forum-tag4.c:119-235 | for every command, of any length and with any offset: reply, length, selected file, file content and file length afterwards |
| ForumTag4.SelectByName | utils/nfc-emulate-forum-tag4.c:168-181 | 90 00 for the application name of the tag's own version, byte for byte, 6A 82 for any other; nothing changes |
| ForumTag4.SelectById | utils/nfc-emulate-forum-tag4.c:150-167 | E1 03 selects the capability container, E1 04 the NDEF file, anything else neither, with 6A 00 |
| ForumTag4.ReadShowsSelected | utils/nfc-emulate-forum-tag4.c:187-206 | the bytes of the selected file and 90 00, 6A 82 if there is none, an error without room |
| ForumTag4.Unsupported | utils/nfc-emulate-forum-tag4.c:138-224 | exactly which commands are refused, and that they change nothing |
| ForumTag4.MessageIsFound | utils/nfc-emulate-forum-tag4.c:91-110 | a reader that selects the application, reads the container and selects the file named in it gets to the NDEF file, for both versions; one of the other version is told that the application is not there |
| ForumTag4.MessageIsWritten | utils/nfc-emulate-forum-tag4.c:208-214 | zeroing the length, updating the message in any chunks of up to 255 bytes and setting the length leaves a tag that holds the message; every reply is 90 00; the saved file is the message |
| ForumTag4.MessageIsReadBack | utils/nfc-emulate-forum-tag4.c:146-206 | selecting the NDEF file and reading by any split returns the message, each reply ending in 90 00 |
| ForumTag4.OnlyUpdatesChangeFile | utils/nfc-emulate-forum-tag4.c:138-224 | in every run without an update command, whatever else is sent, the file and its length stay as they are |
| ForumTag4.UnselectedIsNotShown | utils/nfc-emulate-forum-tag4.c:146-214 | in every run in which the NDEF file is not selected no reply depends on its content, although updates change it without its being selected |
| ForumTag4.LoadedIsHeld | utils/nfc-emulate-forum-tag4.c:246-288 | a loaded message file is held by the tag and saved as it was; exactly an empty one and those above 0xFFFF bytes are not loaded |

## Left out

- I/O of the operating system and libraries (libusb, PC/SC, termios, select, files), device discovery and connection strings: replaced by events, scripts and byte sequences.
- Time: timeouts are one of the ways a read can end; the timer registers and cycle counts of the timed transfers are not modelled.
- Printing, logging, target decoding, string conversion and error texts; UID cascading.
- The drivers arygon, acr122_usb, acr122_pcsc, acr122s: variations of the frame handling modelled here.
- Chip detection and target activation; error codes of failures, last_status_byte and the current target: a transceive succeeds, fails, or ends the program when a status byte has the NAD or MI bit.
- What other commands do in the chip: a command other than register access brings the reply it will get, and changes no register.
- Registers that change by themselves: the registers are plain memory; the FIFO is a separate queue.
- Protocol.Receive: what arrives behind an aborted wait is data of the script, not the late reply of the chip.
- Pn53xDevice.Pn53x.SetProperty: the properties that are no booleans, the timeouts, are refused by the source and are not in the type.
- ParityCodec.Unwrap: requires the buffers to hold the group behind the result that the source touches for multiples of nine.
- BitsTransfer.PrepareCommand: a frame that does not fit the 264 bytes of the command buffer is written into the memory behind it, which is part of the array; what that memory is for is not modelled.
- CrcA.Iso14443aCrc: requires at least one byte, because the source's loop tests its count at the end.
- UsbReceiver.Receiver.Receive: the bulk-read loop, the ACK and the abort are left out; the memory behind the 275-byte buffer is part of the array, because the source reads one byte of it for an extended reply with 264 bytes of payload.
- UsbReceiver.BufferedAgreesWithStreaming: for complete reads; ReceiversAgree is for all.
- FifoDrain.Drain: requires the caller's buffer to have room for all that can arrive; the level is taken as 0 if every poll fails, where the source leaves it undefined.
- LineSafety.TransceiveWakes: after a write has failed behind the preamble it promises nothing for the next frame.
- WriteThrough.LazyRefinesWriteThrough: for a line without faults; the failures are described by FailedFlush.
- ShadowSettings.RunsStayCoherent: leaves out the timed transfers, which write BitFraming directly; RawBitFramingWrite gives the exact condition.
- MifareClassic: access conditions of the card, UID checks, and the unlocked mode that writes block 0. The note of a failed read that the source makes and forgets within the same turn is not kept.
- MifareClassic.Tool.ReadCard: without a key file, how many operations a sector takes depends on the keys tried, so success is decided by the disturbances only if there are none.
- MifareClassic.Tool.WriteCard: without a key file the keys are noted under the sectors' first blocks, so they are not promised to be a usable key file; and as the number of operations depends on the keys tried, which blocks a disturbed run writes is decided by the disturbances only with a key file. It requires that the card is selected, which the program does at its start; so does ReadCard.
- ForumTag4.Emulator.Io: what an offset or a length that leaves the buffers does is modelled as reading and writing the memory behind them; what that memory is for is not.
- ForumTag4.MessageIsWritten: for messages whose bytes an offset of two bytes can address.
