/** utils/nfc-emulate-forum-tag4.c: an NFC Forum Type 4 tag, emulated command by
    command, and the files its message is loaded from and saved to. */
module ForumTag4 {
  import opened Nfc
  import opened Frames

  const ENOSPC := 28
  const ENOTSUP := 95

  // How far an offset of two bytes and a length of one can reach. The source looks
  // at neither: the NDEF file, of 0xfffe bytes with its two length bytes, and the
  // capability container stand here with the memory behind them.
  const REACH := 0xffff + 0xff

  type Memory = m: seq<octet> | |m| == REACH witness seq(REACH, _ => 0)

  // Nor does it look at how long a command is: this is the memory behind it.
  type Behind = m: seq<octet> | |m| == 260 witness seq(260, _ => 0)

  datatype Selected = NONE | CC_FILE | NDEF_FILE

  const ISO7816_SELECT: octet := 0xA4
  const ISO7816_READ_BINARY: octet := 0xB0
  const ISO7816_UPDATE_BINARY: octet := 0xD6

  const OK: seq<octet> := [0x90, 0x00]
  const NOT_FOUND: seq<octet> := [0x6a, 0x82]
  const NO_SUCH_FILE: seq<octet> := [0x6a, 0x00]

  const CC_FILE_ID: seq<octet> := [0xE1, 0x03]
  const NDEF_FILE_ID: seq<octet> := [0xE1, 0x04]
  const APPLICATION_V1: seq<octet> := [0xD2, 0x76, 0x00, 0x00, 0x85, 0x01, 0x00]
  const APPLICATION_V2: seq<octet> := [0xD2, 0x76, 0x00, 0x00, 0x85, 0x01, 0x01]

  // The emulator's state; cc is the capability container.
  datatype Tag = Tag(version: int, cc: Memory, selected: Selected, file: Memory, fileLen: nat)

  datatype Reply = Bytes(data: seq<octet>) | Failed(error: int)

  function Offset(p1: octet, p2: octet): nat {
    p1 as int * 256 + p2
  }

  // The length that the first two bytes of the file give it.
  function LengthOf(file: Memory): nat {
    Offset(file[0], file[1]) + 2
  }

  function Select(t: Tag, p1: octet, p2: octet, lc: octet, data: seq<octet>): (Tag, Reply)
    requires lc in {2, 7} ==> |data| >= lc as int
  {
    if p1 == 0x00 then
      if p2 != 0x00 && p2 != 0x04 && p2 != 0x08 && p2 != 0x0C then (t, Failed(-ENOTSUP))
      else if lc == 2 && data[..2] == CC_FILE_ID then (t.(selected := CC_FILE), Bytes(OK))
      else if lc == 2 && data[..2] == NDEF_FILE_ID then (t.(selected := NDEF_FILE), Bytes(OK))
      else (t.(selected := NONE), Bytes(NO_SUCH_FILE))
    else if p1 == 0x04 then
      if p2 != 0x00 then (t, Failed(-ENOTSUP))
      else if t.version == 1 && lc == 7 && data[..7] == APPLICATION_V1 then (t, Bytes(OK))
      else if t.version == 2 && lc == 7 && data[..7] == APPLICATION_V2 then (t, Bytes(OK))
      else (t, Bytes(NOT_FOUND))
    else
      (t, Failed(-ENOTSUP))
  }

  function ReadBinary(t: Tag, at: nat, lc: octet, room: nat): Reply
    requires at <= 0xffff
  {
    if lc as int + 2 > room then Failed(-ENOSPC)
    else
      match t.selected
      case NONE => Bytes(NOT_FOUND)
      case CC_FILE => Bytes(t.cc[at..at + lc as int] + OK)
      case NDEF_FILE => Bytes(t.file[at..at + lc as int] + OK)
  }

  function Overwrite(file: Memory, at: nat, data: seq<octet>): Memory
    requires at + |data| <= REACH
  {
    file[..at] + data + file[at + |data|..]
  }

  // An update does not ask which file is selected. At the start of the file it
  // also sets the length.
  function UpdateBinary(t: Tag, at: nat, data: seq<octet>): Tag
    requires at + |data| <= REACH
  {
    var file := Overwrite(t.file, at, data);
    t.(file := file, fileLen := if at == 0 then LengthOf(file) else t.fileLen)
  }

  // A command as it is received, and what stands behind it in memory.
  datatype Input = Input(bytes: seq<octet>, behind: Behind)

  // nfcforum_tag4_io
  function Respond(t: Tag, input: Input, room: nat): (Tag, Reply) {
    var m := input.bytes + input.behind;
    if |input.bytes| == 0 then (t, Bytes([]))
    else if |input.bytes| < 4 || m[0] != 0x00 then (t, Failed(-ENOTSUP))
    else if m[1] == ISO7816_SELECT then Select(t, m[2], m[3], m[4], m[5..])
    else if m[1] == ISO7816_READ_BINARY then (t, ReadBinary(t, Offset(m[2], m[3]), m[4], room))
    else if m[1] == ISO7816_UPDATE_BINARY then
      (UpdateBinary(t, Offset(m[2], m[3]), m[5..5 + m[4] as int]), Bytes(OK))
    else (t, Failed(-ENOTSUP))
  }

  class Emulator {
    const version: int
    const cc: Memory
    var currentFile: Selected
    const ndefFile: array<octet>
    var ndefFileLen: nat

    ghost predicate Valid() {
      ndefFile.Length == REACH
    }

    ghost function Now(): Tag
      requires Valid()
      reads this, ndefFile
    {
      Tag(version, cc, currentFile, ndefFile[..], ndefFileLen)
    }

    constructor (version: int, cc: Memory, ndefFile: array<octet>, ndefFileLen: nat)
      requires ndefFile.Length == REACH
      ensures Valid() && this.ndefFile == ndefFile
      ensures Now() == Tag(version, cc, NONE, ndefFile[..], ndefFileLen)
    {
      this.version, this.cc, this.ndefFile, this.ndefFileLen := version, cc, ndefFile, ndefFileLen;
      currentFile := NONE;
    }

    /** nfcforum_tag4_io: the reply goes to out, res is its length or an error. out has
        room for so many bytes, and memory behind them: a status is written unasked. */
    method Io(input: Input, out: array<octet>, room: nat) returns (res: int)
      requires Valid() && out != ndefFile && out.Length >= room + 2
      modifies this, ndefFile, out
      ensures
        var (t, reply) := Respond(old(Now()), input, room);
        && Now() == t
        && match reply {
             case Bytes(data) => res == |data| <= out.Length && out[..res] == data
             case Failed(error) => res == error
           }
    {
      hide Select, ReadBinary, UpdateBinary;
      if |input.bytes| == 0 {
        return 0;
      }
      var m := input.bytes + input.behind;
      if |input.bytes| < 4 || m[0] != 0x00 {
        return -ENOTSUP;
      }
      if m[1] == ISO7816_SELECT {
        res := SelectFile(m[2], m[3], m[4], m[5..], out);
      } else if m[1] == ISO7816_READ_BINARY {
        res := ReadFile(Offset(m[2], m[3]), m[4], out, room);
      } else if m[1] == ISO7816_UPDATE_BINARY {
        UpdateFile(Offset(m[2], m[3]), m[5..5 + m[4] as int]);
        CopyInto(out, 0, OK);
        res := 2;
      } else {
        res := -ENOTSUP;
      }
    }

    method SelectFile(p1: octet, p2: octet, lc: octet, data: seq<octet>, out: array<octet>) returns (res: int)
      requires Valid() && out != ndefFile && out.Length >= 2 && (lc in {2, 7} ==> |data| >= lc as int)
      modifies this`currentFile, out
      ensures
        var (t, reply) := Select(old(Now()), p1, p2, lc, data);
        && Now() == t
        && match reply {
             case Bytes(data) => res == |data| == 2 && out[..2] == data
             case Failed(error) => res == error
           }
    {
      res := 2;
      if p1 == 0x00 {
        // any P2 but for bits 2 and 3
        if p2 != 0x00 && p2 != 0x04 && p2 != 0x08 && p2 != 0x0C {
          return -ENOTSUP;
        }
        if lc == 2 && data[..2] == CC_FILE_ID {
          CopyInto(out, 0, OK);
          currentFile := CC_FILE;
        } else if lc == 2 && data[..2] == NDEF_FILE_ID {
          CopyInto(out, 0, OK);
          currentFile := NDEF_FILE;
        } else {
          CopyInto(out, 0, NO_SUCH_FILE);
          currentFile := NONE;
        }
      } else if p1 == 0x04 {
        if p2 != 0x00 {
          return -ENOTSUP;
        }
        if version == 1 && lc == 7 && data[..7] == APPLICATION_V1 {
          CopyInto(out, 0, OK);
        } else if version == 2 && lc == 7 && data[..7] == APPLICATION_V2 {
          CopyInto(out, 0, OK);
        } else {
          CopyInto(out, 0, NOT_FOUND);
        }
      } else {
        res := -ENOTSUP;
      }
    }

    method ReadFile(at: nat, lc: octet, out: array<octet>, room: nat) returns (res: int)
      requires Valid() && out != ndefFile && out.Length >= room + 2 && at <= 0xffff
      modifies out
      ensures
        match ReadBinary(old(Now()), at, lc, room)
        case Bytes(data) => res == |data| <= out.Length && out[..res] == data
        case Failed(error) => res == error
    {
      if lc as int + 2 > room {
        return -ENOSPC;
      }
      if currentFile.NONE? {
        CopyInto(out, 0, NOT_FOUND);
        return 2;
      }
      var data := if currentFile.CC_FILE? then cc[at..at + lc as int] else ndefFile[at..at + lc as int];
      CopyInto(out, 0, data);
      CopyInto(out, lc as int, OK);
      assert out[..lc as int] == data;
      assert out[..lc as int + 2] == out[..lc as int] + out[lc as int..lc as int + 2];
      res := lc as int + 2;
    }

    method UpdateFile(at: nat, data: seq<octet>)
      requires Valid() && at + |data| <= REACH
      modifies this`ndefFileLen, ndefFile
      ensures Now() == UpdateBinary(old(Now()), at, data)
    {
      ghost var before := ndefFile[..];
      CopyInto(ndefFile, at, data);
      assert ndefFile[..] == before[..at] + data + before[at + |data|..];
      if at == 0 {
        ndefFileLen := ndefFile[0] as int * 256 + ndefFile[1] + 2;
      }
    }
  }

  // --- The message file ---

  datatype Saved = Saved(content: seq<octet>) | Exits

  // ndef_message_load: an empty file cannot be read, a message that is too long for
  // its two length bytes is refused. From 0xfffd bytes on it goes beyond the file.
  function Load(t: Tag, content: seq<octet>): (Tag, bool) {
    if |content| > 0xffff || content == [] then (t, false)
    else
      var file := Overwrite(t.file, 0, [|content| / 256, |content| % 256] + content);
      (t.(file := file, fileLen := |content| + 2), true)
  }

  // ndef_message_save: nothing can be written if there is nothing to write.
  function Save(t: Tag): Saved
    requires 2 <= t.fileLen <= 0xffff + 2
  {
    if t.fileLen == 2 then Exits else Saved.Saved(t.file[2..t.fileLen])
  }

  // The tag holds the message.
  predicate Holds(t: Tag, message: seq<octet>) {
    && |message| <= 0xffff
    && t.fileLen == |message| + 2 == LengthOf(t.file)
    && t.file[2..|message| + 2] == message
  }

  // --- Runs ---

  function RespondAll(t: Tag, inputs: seq<Input>, room: nat): (r: (Tag, seq<Reply>))
    ensures |r.1| == |inputs|
    decreases |inputs|
  {
    if inputs == [] then (t, [])
    else
      var (t1, reply) := Respond(t, inputs[0], room);
      var (t2, replies) := RespondAll(t1, inputs[1..], room);
      (t2, [reply] + replies)
  }

  // The inputs a are taken, giving t', and then the inputs b.
  lemma {:induction false} RespondInTwo(t: Tag, a: seq<Input>, b: seq<Input>, room: nat)
    ensures
      var (t1, replies) := RespondAll(t, a, room);
      var (t2, replies') := RespondAll(t1, b, room);
      RespondAll(t, a + b, room) == (t2, replies + replies')
    decreases |a|
  {
    hide Respond;
    if a == [] {
      assert a + b == b;
      var replies := RespondAll(t, b, room).1;
      assert RespondAll(t, a, room) == (t, []) && [] + replies == replies;
    } else {
      assert (a + b)[1..] == a[1..] + b && (a + b)[0] == a[0];
      var (t1, reply) := Respond(t, a[0], room);
      RespondInTwo(t1, a[1..], b, room);
      var (t2, rest) := RespondAll(t1, a[1..], room);
      var replies := RespondAll(t2, b, room).1;
      assert [reply] + (rest + replies) == ([reply] + rest) + replies;
    }
  }

  // --- Who gets to the file ---

  // The command has this instruction byte.
  predicate Instruction(input: Input, ins: octet) {
    |input.bytes| >= 4 && input.bytes[0] == 0x00 && input.bytes[1] == ins
  }

  predicate SelectsNdefFile(input: Input) {
    var m := input.bytes + input.behind;
    Instruction(input, ISO7816_SELECT) && m[2] == 0x00 && m[4] == 2 && m[5..7] == NDEF_FILE_ID
  }

  lemma OtherStep(t: Tag, input: Input, room: nat)
    requires !Instruction(input, ISO7816_UPDATE_BINARY)
    ensures Respond(t, input, room).0 == t.(selected := Respond(t, input, room).0.selected)
  {
    hide ReadBinary;
  }

  /** In every run without an update the file and its length stay as they are. */
  lemma {:induction false} OnlyUpdatesChangeFile(t: Tag, inputs: seq<Input>, room: nat)
    requires forall i :: 0 <= i < |inputs| ==> !Instruction(inputs[i], ISO7816_UPDATE_BINARY)
    ensures RespondAll(t, inputs, room).0 == t.(selected := RespondAll(t, inputs, room).0.selected)
    decreases |inputs|
  {
    hide Respond, Instruction;
    if inputs != [] {
      OtherStep(t, inputs[0], room);
      OnlyUpdatesChangeFile(Respond(t, inputs[0], room).0, inputs[1..], room);
    }
  }

  // Two tags that differ in the file only, which is not selected.
  predicate SameButFile(t: Tag, t': Tag) {
    t' == t.(file := t'.file, fileLen := t'.fileLen) && !t.selected.NDEF_FILE?
  }

  lemma UnselectedStep(t: Tag, t': Tag, input: Input, room: nat)
    requires SameButFile(t, t') && !SelectsNdefFile(input)
    ensures Respond(t, input, room).1 == Respond(t', input, room).1
    ensures SameButFile(Respond(t, input, room).0, Respond(t', input, room).0)
  {
    hide Overwrite, LengthOf;
    var m := input.bytes + input.behind;
    assert m[5..][..2] == m[5..7];
  }

  /** In every run in which the NDEF file is not selected, no reply depends on what
      is in it, or behind it in memory, updates included. */
  lemma {:induction false} UnselectedIsNotShown(t: Tag, t': Tag, inputs: seq<Input>, room: nat)
    requires SameButFile(t, t')
    requires forall i :: 0 <= i < |inputs| ==> !SelectsNdefFile(inputs[i])
    ensures RespondAll(t, inputs, room).1 == RespondAll(t', inputs, room).1
    decreases |inputs|
  {
    hide Respond, SelectsNdefFile, SameButFile;
    if inputs != [] {
      UnselectedStep(t, t', inputs[0], room);
      UnselectedIsNotShown(Respond(t, inputs[0], room).0, Respond(t', inputs[0], room).0, inputs[1..], room);
    }
  }

  // --- Commands ---

  // Whole commands, whatever stands behind them.
  function UpdateCommand(at: nat, data: seq<octet>, behind: Behind): Input
    requires at < 0x10000 && |data| <= 255
  {
    Input([0x00, ISO7816_UPDATE_BINARY, at / 256, at % 256, |data|] + data, behind)
  }

  function ReadCommand(at: nat, n: nat, behind: Behind): Input
    requires at < 0x10000 && n <= 255
  {
    Input([0x00, ISO7816_READ_BINARY, at / 256, at % 256, n], behind)
  }

  function SelectNdef(behind: Behind): Input {
    Input([0x00, ISO7816_SELECT, 0x00, 0x0C, 2] + NDEF_FILE_ID, behind)
  }

  lemma UpdateResponds(t: Tag, at: nat, data: seq<octet>, behind: Behind, room: nat)
    requires at < 0x10000 && |data| <= 255
    ensures Respond(t, UpdateCommand(at, data, behind), room) == (UpdateBinary(t, at, data), Bytes(OK))
  {
    hide UpdateBinary;
    var c := UpdateCommand(at, data, behind);
    var m := c.bytes + c.behind;
    assert m[5..5 + |data|] == data && Offset(m[2], m[3]) == at;
  }

  lemma ReadResponds(t: Tag, at: nat, n: nat, behind: Behind, room: nat)
    requires t.selected.NDEF_FILE? && at < 0x10000 && n <= 255 && room >= n + 2
    ensures Respond(t, ReadCommand(at, n, behind), room) == (t, Bytes(t.file[at..at + n] + OK))
  {
    var c := ReadCommand(at, n, behind);
    var m := c.bytes + c.behind;
    assert Offset(m[2], m[3]) == at;
  }

  // --- Writing a message ---

  // The updates that write the chunks one behind the other.
  function UpdateCommands(at: nat, chunks: seq<seq<octet>>, behind: seq<Behind>): seq<Input>
    requires at + |Concat(chunks)| < 0x10000 && |behind| == |chunks|
    requires forall c :: c in chunks ==> |c| <= 255
    decreases |chunks|
  {
    if chunks == [] then []
    else
      [UpdateCommand(at, chunks[0], behind[0])] + UpdateCommands(at + |chunks[0]|, chunks[1..], behind[1..])
  }

  // A number of replies that are all the same.
  function Repeated(reply: Reply, n: nat): seq<Reply> {
    seq(n, _ => reply)
  }

  lemma OverwriteTwice(file: Memory, at: nat, a: seq<octet>, b: seq<octet>)
    requires at + |a| + |b| <= REACH
    ensures Overwrite(Overwrite(file, at, a), at + |a|, b) == Overwrite(file, at, a + b)
  {
  }

  lemma OverwriteNothing(file: Memory, at: nat)
    requires at <= REACH
    ensures Overwrite(file, at, []) == file
  {
  }

  lemma {:induction false} ChunksAreWritten(
      t: Tag, at: nat, chunks: seq<seq<octet>>, behind: seq<Behind>, room: nat)
    requires at >= 2 && at + |Concat(chunks)| < 0x10000 && |behind| == |chunks|
    requires forall c :: c in chunks ==> |c| <= 255
    ensures RespondAll(t, UpdateCommands(at, chunks, behind), room)
         == (t.(file := Overwrite(t.file, at, Concat(chunks))), Repeated(Bytes(OK), |chunks|))
    decreases |chunks|
  {
    hide Respond, Overwrite, UpdateCommand;
    if chunks == [] {
      OverwriteNothing(t.file, at);
    } else {
      UpdateResponds(t, at, chunks[0], behind[0], room);
      var t1 := UpdateBinary(t, at, chunks[0]);
      ChunksAreWritten(t1, at + |chunks[0]|, chunks[1..], behind[1..], room);
      OverwriteTwice(t.file, at, chunks[0], Concat(chunks[1..]));
      assert UpdateCommands(at, chunks, behind)[1..] == UpdateCommands(at + |chunks[0]|, chunks[1..], behind[1..]);
      assert [Bytes(OK)] + Repeated(Bytes(OK), |chunks| - 1) == Repeated(Bytes(OK), |chunks|);
    }
  }

  // The length is set to zero, the chunks are written, the length is set.
  function WriteCommands(message: seq<octet>, chunks: seq<seq<octet>>, behind: seq<Behind>): seq<Input>
    requires Concat(chunks) == message && |message| + 2 < 0x10000 && forall c :: c in chunks ==> |c| <= 255
    requires |behind| == |chunks| + 2
  {
    var length: seq<octet> := [|message| / 256, |message| % 256];
    [UpdateCommand(0, [0x00, 0x00], behind[0])]
    + UpdateCommands(2, chunks, behind[1..|chunks| + 1])
    + [UpdateCommand(0, length, behind[|chunks| + 1])]
  }

  // After the update the data stands at its place and nothing else is changed.
  predicate IsUpdated(before: Memory, at: nat, data: seq<octet>, after: Memory) {
    forall k :: 0 <= k < REACH ==>
      after[k] == if at <= k < at + |data| then data[k - at] else before[k]
  }

  lemma OverwriteUpdates(file: Memory, at: nat, data: seq<octet>)
    requires at + |data| <= REACH
    ensures IsUpdated(file, at, data, Overwrite(file, at, data))
  {
  }

  lemma LengthThenMessage(
      file: Memory, empty: Memory, written: Memory, final: Memory, message: seq<octet>, length: seq<octet>)
    requires |length| == 2 && Offset(length[0], length[1]) == |message|
    requires IsUpdated(file, 0, [0x00, 0x00], empty)
    requires IsUpdated(empty, 2, message, written)
    requires IsUpdated(written, 0, length, final)
    ensures final[2..|message| + 2] == message
    ensures LengthOf(empty) == 2 && LengthOf(final) == |message| + 2
  {
    hide IsUpdated;
    ByteAfter(file, 0, [0x00, 0x00], empty, 0);
    ByteAfter(file, 0, [0x00, 0x00], empty, 1);
    ByteAfter(written, 0, length, final, 0);
    ByteAfter(written, 0, length, final, 1);
    assert LengthOf(final) == |message| + 2;
    forall k: nat | k < |message| ensures final[k + 2] == message[k] {
      ByteAfter(empty, 2, message, written, k + 2);
      ByteAfter(written, 0, length, final, k + 2);
    }
  }

  lemma ByteAfter(before: Memory, at: nat, data: seq<octet>, after: Memory, k: nat)
    requires IsUpdated(before, at, data, after) && k < REACH
    ensures after[k] == if at <= k < at + |data| then data[k - at] else before[k]
  {
  }

  /** Whatever a message is cut into, the tag holds it after the updates, and every
      update is answered by 90 00. The file saved is the message, unless it is
      empty: then the program exits. */
  lemma MessageIsWritten(t: Tag, message: seq<octet>, chunks: seq<seq<octet>>, behind: seq<Behind>, room: nat)
    requires |message| + 2 < 0x10000 && |behind| == |chunks| + 2
    requires Concat(chunks) == message && forall c :: c in chunks ==> |c| <= 255
    ensures
      var (t', replies) := RespondAll(t, WriteCommands(message, chunks, behind), room);
      && Holds(t', message) && t'.selected == t.selected
      && replies == Repeated(Bytes(OK), |chunks| + 2)
      && (Save(t') == Saved.Saved(message) <==> message != [])
  {
    hide Respond, Overwrite, UpdateCommand, LengthOf;
    var zero: seq<octet> := [0x00, 0x00];
    var length: seq<octet> := [|message| / 256, |message| % 256];
    var b0, bs, b1 := behind[0], behind[1..|chunks| + 1], behind[|chunks| + 1];
    var first, middle, last :=
      [UpdateCommand(0, zero, b0)], UpdateCommands(2, chunks, bs), [UpdateCommand(0, length, b1)];
    var t1 := UpdateBinary(t, 0, zero);
    UpdateResponds(t, 0, zero, b0, room);
    OneResponse(t, UpdateCommand(0, zero, b0), room);
    ChunksAreWritten(t1, 2, chunks, bs, room);
    var t2 := t1.(file := Overwrite(t1.file, 2, message));
    UpdateResponds(t2, 0, length, b1, room);
    OneResponse(t2, UpdateCommand(0, length, b1), room);
    RespondInTwo(t, first, middle, room);
    RespondInTwo(t, first + middle, last, room);
    OverwriteUpdates(t.file, 0, zero);
    OverwriteUpdates(t1.file, 2, message);
    OverwriteUpdates(t2.file, 0, length);
    LengthThenMessage(t.file, t1.file, t2.file, Overwrite(t2.file, 0, length), message, length);
    assert [Bytes(OK)] + Repeated(Bytes(OK), |chunks|) + [Bytes(OK)] == Repeated(Bytes(OK), |chunks| + 2);
  }

  lemma OneResponse(t: Tag, input: Input, room: nat)
    ensures RespondAll(t, [input], room) == (Respond(t, input, room).0, [Respond(t, input, room).1])
  {
    hide Respond;
    assert [input][1..] == [];
    var (t1, reply) := Respond(t, input, room);
    assert RespondAll(t1, [], room) == (t1, []) && [reply] + [] == [reply];
  }

  // --- Reading it back ---

  function Total(sizes: seq<nat>): nat {
    if sizes == [] then 0 else sizes[0] + Total(sizes[1..])
  }

  function ReadCommands(at: nat, sizes: seq<nat>, behind: seq<Behind>): seq<Input>
    requires at + Total(sizes) < 0x10000 && forall i :: 0 <= i < |sizes| ==> sizes[i] <= 255
    requires |behind| == |sizes|
    decreases |sizes|
  {
    if sizes == [] then []
    else [ReadCommand(at, sizes[0], behind[0])] + ReadCommands(at + sizes[0], sizes[1..], behind[1..])
  }

  // The data of replies that all end in 90 00.
  predicate AllOk(replies: seq<Reply>) {
    forall r :: r in replies ==> r.Bytes? && |r.data| >= 2 && r.data[|r.data| - 2..] == OK
  }

  function Payload(replies: seq<Reply>): seq<octet>
    requires AllOk(replies)
    decreases |replies|
  {
    if replies == [] then [] else replies[0].data[..|replies[0].data| - 2] + Payload(replies[1..])
  }

  /** Whatever the reads are cut into, their replies are the file, piece by piece. */
  lemma {:induction false} ReadsGiveFile(t: Tag, at: nat, sizes: seq<nat>, behind: seq<Behind>, room: nat)
    requires t.selected.NDEF_FILE? && at + Total(sizes) < 0x10000 && |behind| == |sizes|
    requires forall i :: 0 <= i < |sizes| ==> sizes[i] <= 255 && sizes[i] + 2 <= room
    ensures
      var (t', replies) := RespondAll(t, ReadCommands(at, sizes, behind), room);
      t' == t && AllOk(replies) && Payload(replies) == t.file[at..at + Total(sizes)]
    decreases |sizes|
  {
    hide Respond, ReadCommand, AllOk, Payload;
    if sizes == [] {
      NothingIsPaid();
      assert t.file[at..at] == [];
    } else {
      var n := sizes[0];
      ReadResponds(t, at, n, behind[0], room);
      ReadsGiveFile(t, at + n, sizes[1..], behind[1..], room);
      assert ReadCommands(at, sizes, behind)[1..] == ReadCommands(at + n, sizes[1..], behind[1..]);
      var rest := RespondAll(t, ReadCommands(at + n, sizes[1..], behind[1..]), room).1;
      PieceIsPaid(t.file[at..at + n], rest);
      assert t.file[at..at + n] + t.file[at + n..at + n + Total(sizes[1..])] == t.file[at..at + Total(sizes)];
    }
  }

  lemma NothingIsPaid()
    ensures AllOk([]) && Payload([]) == []
  {
  }

  lemma PieceIsPaid(piece: seq<octet>, rest: seq<Reply>)
    requires AllOk(rest)
    ensures AllOk([Bytes(piece + OK)] + rest)
    ensures Payload([Bytes(piece + OK)] + rest) == piece + Payload(rest)
  {
    var data := piece + OK;
    assert data[..|data| - 2] == piece && data[|data| - 2..] == OK;
    assert ([Bytes(data)] + rest)[1..] == rest;
  }

  /** Selecting the NDEF file and reading as many bytes behind its length as a
      message has gives the message, however the reads are cut. */
  lemma MessageIsReadBack(
      t: Tag, message: seq<octet>, sizes: seq<nat>, first: Behind, behind: seq<Behind>, room: nat)
    requires Holds(t, message) && Total(sizes) == |message| && |message| + 2 < 0x10000 && |behind| == |sizes|
    requires forall i :: 0 <= i < |sizes| ==> sizes[i] <= 255 && sizes[i] + 2 <= room
    ensures
      var (t', replies) := RespondAll(t, [SelectNdef(first)] + ReadCommands(2, sizes, behind), room);
      t' == t.(selected := NDEF_FILE) && AllOk(replies) && Payload(replies) == message
  {
    hide Respond, ReadCommand, LengthOf, ReadCommands;
    SelectsNdef(t, first, room);
    var t1 := t.(selected := NDEF_FILE);
    OneResponse(t, SelectNdef(first), room);
    ReadsGiveFile(t1, 2, sizes, behind, room);
    RespondInTwo(t, [SelectNdef(first)], ReadCommands(2, sizes, behind), room);
    var rest := RespondAll(t1, ReadCommands(2, sizes, behind), room).1;
    assert ([Bytes(OK)] + rest)[1..] == rest;
    assert OK[..0] == [];
  }

  lemma SelectsNdef(t: Tag, behind: Behind, room: nat)
    ensures Respond(t, SelectNdef(behind), room) == (t.(selected := NDEF_FILE), Bytes(OK))
  {
    var m := SelectNdef(behind).bytes + behind;
    assert m[5..][..2] == NDEF_FILE_ID;
    assert NDEF_FILE_ID[1] != CC_FILE_ID[1];
  }

  // --- What a reader gets ---

  /** A reader's command, byte by byte. By name only the application of the tag's own
      version is there; by its ID, either file. */
  lemma SelectByName(t: Tag, input: Input, room: nat)
    requires |input.bytes| >= 4
    ensures
      var m := input.bytes + input.behind;
      m[..4] == [0x00, 0xA4, 0x04, 0x00] ==>
        var known := 1 <= t.version <= 2 && m[4..12] == [0x07, 0xD2, 0x76, 0x00, 0x00, 0x85, 0x01, t.version - 1];
        Respond(t, input, room) == (t, Bytes(if known then [0x90, 0x00] else [0x6A, 0x82]))
  {
    var m := input.bytes + input.behind;
    if m[..4] == [0x00, 0xA4, 0x04, 0x00] {
      assert m[..4][0] == m[0] && m[..4][1] == m[1] && m[..4][2] == m[2] && m[..4][3] == m[3];
      assert m[5..][..7] == m[5..12] && m[4..12] == [m[4]] + m[5..12];
      assert m[4..12][0] == m[4] && m[4..12][1..] == m[5..12];
      var name: seq<int> := [0x07, 0xD2, 0x76, 0x00, 0x00, 0x85, 0x01, t.version - 1];
      assert name[1..] == [0xD2, 0x76, 0x00, 0x00, 0x85, 0x01, t.version - 1];
      assert name == [0x07] + name[1..];
    }
  }

  lemma SelectById(t: Tag, input: Input, room: nat)
    requires |input.bytes| >= 4
    ensures
      var m := input.bytes + input.behind;
      m[..3] == [0x00, 0xA4, 0x00] && m[3] in {0x00, 0x04, 0x08, 0x0C} ==>
        Respond(t, input, room) ==
          if m[4..7] == [0x02, 0xE1, 0x03] then (t.(selected := CC_FILE), Bytes([0x90, 0x00]))
          else if m[4..7] == [0x02, 0xE1, 0x04] then (t.(selected := NDEF_FILE), Bytes([0x90, 0x00]))
          else (t.(selected := NONE), Bytes([0x6A, 0x00]))
  {
    var m := input.bytes + input.behind;
    if m[..3] == [0x00, 0xA4, 0x00] {
      assert m[..3][0] == m[0] && m[..3][1] == m[1] && m[..3][2] == m[2];
      assert m[5..][..2] == m[5..7] && m[4..7] == [m[4]] + m[5..7] && m[4..7][0] == m[4] && m[4..7][1..] == m[5..7];
      assert [0x02, 0xE1, 0x03][1..] == [0xE1, 0x03] && [0x02, 0xE1, 0x04][1..] == [0xE1, 0x04];
    }
  }

  /** A read shows the selected file, if there is room for it and the status. */
  lemma ReadShowsSelected(t: Tag, input: Input, room: nat)
    requires |input.bytes| >= 4
    ensures
      var m := input.bytes + input.behind;
      var at := 256 * m[2] + m[3];
      m[..2] == [0x00, 0xB0] ==>
        Respond(t, input, room) == (t,
          if m[4] + 2 > room then Failed(-28)
          else if t.selected == NONE then Bytes([0x6A, 0x82])
          else Bytes((if t.selected == CC_FILE then t.cc else t.file)[at..at + m[4]] + [0x90, 0x00]))
  {
    var m := input.bytes + input.behind;
    assert m[..2] == [0x00, 0xB0] ==> m[..2][0] == 0x00 && m[..2][1] == 0xB0;
  }

  /** Exactly these commands are refused as not supported. */
  lemma Unsupported(t: Tag, input: Input, room: nat)
    requires input.bytes != []
    ensures
      var m := input.bytes + input.behind;
      Respond(t, input, room).1 == Failed(-95) <==>
        || |input.bytes| < 4 || m[0] != 0x00 || m[1] !in {0xA4, 0xB0, 0xD6}
        || (m[1] == 0xA4 && m[2] != 0x00 && (m[2] != 0x04 || m[3] != 0x00))
        || (m[1] == 0xA4 && m[2] == 0x00 && m[3] !in {0x00, 0x04, 0x08, 0x0C})
    ensures Respond(t, input, room).1 == Failed(-95) ==> Respond(t, input, room).0 == t
  {
    hide UpdateBinary;
  }

  // The capability container of the source, with its mapping version. It names the
  // NDEF file in bytes 9 and 10.
  function Container(version: int): seq<octet> {
    [0x00, 0x0F, if version == 1 then 0x10 else 0x20, 0x00, 0x54, 0x00, 0xFF, 0x04, 0x06,
     0xE1, 0x04, 0xFF, 0xFE, 0x00, 0x00]
  }

  // How a reader finds the NDEF file: by way of the application and the container.
  function Discovery(version: int, fileId: seq<octet>, behind: seq<Behind>): seq<Input>
    requires 1 <= version <= 2 && |fileId| == 2 && |behind| == 4
  {
    [Input([0x00, 0xA4, 0x04, 0x00, 0x07, 0xD2, 0x76, 0x00, 0x00, 0x85, 0x01, version - 1], behind[0]),
     Input([0x00, 0xA4, 0x00, 0x0C, 0x02, 0xE1, 0x03], behind[1]),
     Input([0x00, 0xB0, 0x00, 0x00, 0x0F], behind[2]),
     Input([0x00, 0xA4, 0x00, 0x0C, 0x02] + fileId, behind[3])]
  }

  lemma FindsApplication(t: Tag, version: int, behind: Behind, room: nat)
    requires 1 <= version <= 2
    ensures
      var input := Input([0x00, 0xA4, 0x04, 0x00, 0x07, 0xD2, 0x76, 0x00, 0x00, 0x85, 0x01, version - 1], behind);
      Respond(t, input, room) == (t, Bytes(if t.version == version then [0x90, 0x00] else [0x6A, 0x82]))
  {
    hide Respond;
    var input := Input([0x00, 0xA4, 0x04, 0x00, 0x07, 0xD2, 0x76, 0x00, 0x00, 0x85, 0x01, version - 1], behind);
    var m := input.bytes + behind;
    assert m[..4] == [0x00, 0xA4, 0x04, 0x00];
    assert m[4..12] == [0x07, 0xD2, 0x76, 0x00, 0x00, 0x85, 0x01, version - 1];
    assert m[4..12][7] == version - 1;
    SelectByName(t, input, room);
  }

  lemma FindsContainer(t: Tag, a: Behind, b: Behind, room: nat)
    requires room >= 17 && t.cc[..15] == Container(t.version)
    ensures Respond(t, Input([0x00, 0xA4, 0x00, 0x0C, 0x02, 0xE1, 0x03], a), room)
         == (t.(selected := CC_FILE), Bytes([0x90, 0x00]))
    ensures Respond(t.(selected := CC_FILE), Input([0x00, 0xB0, 0x00, 0x00, 0x0F], b), room)
         == (t.(selected := CC_FILE), Bytes(Container(t.version) + [0x90, 0x00]))
  {
    hide Respond;
    var select := Input([0x00, 0xA4, 0x00, 0x0C, 0x02, 0xE1, 0x03], a);
    var m := select.bytes + a;
    assert m[..3] == [0x00, 0xA4, 0x00] && m[4..7] == [0x02, 0xE1, 0x03];
    SelectById(t, select, room);
    var read := Input([0x00, 0xB0, 0x00, 0x00, 0x0F], b);
    assert (read.bytes + b)[..2] == [0x00, 0xB0];
    ReadShowsSelected(t.(selected := CC_FILE), read, room);
  }

  lemma FindsNdefFile(t: Tag, behind: Behind, room: nat)
    ensures Respond(t, Input([0x00, 0xA4, 0x00, 0x0C, 0x02] + Container(t.version)[9..11], behind), room)
         == (t.(selected := NDEF_FILE), Bytes([0x90, 0x00]))
  {
    hide Respond;
    var fileId := Container(t.version)[9..11];
    assert fileId == [0xE1, 0x04];
    var select := Input([0x00, 0xA4, 0x00, 0x0C, 0x02] + fileId, behind);
    var m := select.bytes + behind;
    assert m[..3] == [0x00, 0xA4, 0x00] && m[4..7] == [0x02, 0xE1, 0x04];
    assert m[4..7][2] == 0x04;
    SelectById(t, select, room);
  }

  lemma TwoResponses(t: Tag, a: Input, b: Input, room: nat)
    ensures
      var (t1, reply) := Respond(t, a, room);
      var (t2, reply') := Respond(t1, b, room);
      RespondAll(t, [a, b], room) == (t2, [reply, reply'])
  {
    hide Respond;
    OneResponse(t, a, room);
    OneResponse(Respond(t, a, room).0, b, room);
    RespondInTwo(t, [a], [b], room);
    assert [a, b] == [a] + [b];
    var (t1, reply) := Respond(t, a, room);
    var reply' := Respond(t1, b, room).1;
    assert [reply] + [reply'] == [reply, reply'];
  }

  /** Following the container, a reader of either version gets to the NDEF file: the
      container it reads is the one of the version, and the file named there is found.
      A reader of the other version is told that there is no such application. */
  lemma MessageIsFound(t: Tag, version: int, behind: seq<Behind>, room: nat)
    requires room >= 17 && 1 <= version <= 2 && |behind| == 4 && t.cc[..15] == Container(t.version)
    ensures
      var (t', replies) := RespondAll(t, Discovery(version, Container(t.version)[9..11], behind), room);
      && t' == t.(selected := NDEF_FILE)
      && replies == [Bytes(if t.version == version then [0x90, 0x00] else [0x6A, 0x82]), Bytes([0x90, 0x00]),
                     Bytes(Container(t.version) + [0x90, 0x00]), Bytes([0x90, 0x00])]
  {
    hide Respond;
    var inputs := Discovery(version, Container(t.version)[9..11], behind);
    FindsApplication(t, version, behind[0], room);
    FindsContainer(t, behind[1], behind[2], room);
    FindsNdefFile(t.(selected := CC_FILE), behind[3], room);
    var t1 := t.(selected := CC_FILE);
    TwoResponses(t, inputs[0], inputs[1], room);
    TwoResponses(t1, inputs[2], inputs[3], room);
    RespondInTwo(t, [inputs[0], inputs[1]], [inputs[2], inputs[3]], room);
    assert inputs == [inputs[0], inputs[1]] + [inputs[2], inputs[3]];
  }

  /** A message file that is loaded is held by the tag, and saved again as it was;
      exactly the empty one and those above 0xffff bytes are not loaded. */
  lemma LoadedIsHeld(t: Tag, content: seq<octet>)
    ensures
      var (t', loaded) := Load(t, content);
      && (loaded <==> 0 < |content| <= 0xffff)
      && (loaded ==> Holds(t', content) && Save(t') == Saved.Saved(content))
  {
    if |content| > 0xffff {
      return;
    }
    var length: seq<octet> := [|content| / 256, |content| % 256];
    var (t', loaded) := Load(t, content);
    if loaded {
      assert t'.file[2..|content| + 2] == content;
      assert t'.file[0] == length[0] && t'.file[1] == length[1];
    }
  }
}
