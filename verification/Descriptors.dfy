/** Per-process descriptor tables and the file system calls on them
    (kernel/src/process.rs, kernel/src/syscall.rs). */
module Descriptors {
  import opened Options
  import opened Bytes
  import opened Paths
  import opened ArchiveFormat
  import opened FileSystem

  const FIRST_DYNAMIC: nat := 3
  const MAX_USER_TRANSFER: nat := 1024 * 1024

  const STDIN: nat := 0
  const STDOUT: nat := 1
  const STDERR: nat := 2

  datatype OpenFile = OpenFile(node: Node, position: nat, path: Path)

  type Table = seq<Option<OpenFile>>
  type Tables = map<nat, Table>

  datatype Whence = FromStart | FromCurrent | FromEnd | BadWhence

  datatype FileError = BadDescriptor | NoEntry | NotSupported | Fault | Invalid | NoProcess

  datatype Reply = Opened(fd: nat) | Data(bytes: seq<Byte>) | Position(at: nat) | Closed | Failed(error: FileError)

  /** `writable` stands for the state of the caller's buffer. */
  datatype Op =
    | Open(pid: nat, node: Node, path: Path)
    | Read(pid: nat, fd: nat, len: nat, writable: bool)
    | Seek(pid: nat, fd: nat, offset: nat, whence: Whence)
    | Close(pid: nat, fd: nat)

  function SlotOf(t: Tables, pid: nat, fd: nat): Option<OpenFile> {
    if pid in t && fd < |t[pid]| then t[pid][fd] else None
  }

  // --- One call -------------------------------------------------------------------------------------

  function FirstFree(files: Table, from: nat): (k: nat)
    requires from <= |files|
    ensures from <= k <= |files| && (k < |files| ==> files[k].None?)
    ensures forall i | from <= i < k :: files[i].Some?
    decreases |files| - from
  {
    if from == |files| || files[from].None? then from else FirstFree(files, from + 1)
  }

  function Padded(files: Table): (r: Table)
    ensures |r| >= FIRST_DYNAMIC && files <= r
    decreases FIRST_DYNAMIC - |files|
  {
    if |files| < FIRST_DYNAMIC then Padded(files + [None]) else files
  }

  function WithFile(files: Table, k: nat, file: OpenFile): Table
    requires k <= |files|
  {
    if k < |files| then files[k := Some(file)] else files + [Some(file)]
  }

  datatype Outcome = Outcome(tables: Tables, reply: Reply)

  function SeekTarget(file: OpenFile, offset: nat, whence: Whence): Option<nat> {
    match whence
    case FromStart => Some(offset)
    case FromCurrent => Some(file.position + offset)
    case FromEnd => Some(SatSub(file.node.len, offset))
    case BadWhence => None
  }

  function Moved(t: Tables, pid: nat, fd: nat, file: OpenFile, position: nat): Tables
    requires pid in t && fd < |t[pid]|
  {
    t[pid := t[pid][fd := Some(file.(position := position))]]
  }

  function Apply(archive: seq<Byte>, t: Tables, op: Op): Outcome {
    match op
    case Open(pid, node, path) =>
      if pid !in t then Outcome(t, Failed(NoProcess))
      else
        var files := Padded(t[pid]);
        var k := FirstFree(files, FIRST_DYNAMIC);
        Outcome(t[pid := WithFile(files, k, OpenFile(node, 0, path))], Opened(k))
    case Read(pid, fd, len, writable) =>
      if fd == STDIN then Outcome(t, Data([]))
      else if fd == STDOUT || fd == STDERR || SlotOf(t, pid, fd).None? then Outcome(t, Failed(BadDescriptor))
      else
        var file := SlotOf(t, pid, fd).value;
        if file.node.isDirectory then Outcome(t, Failed(NotSupported))
        else if !writable then Outcome(t, Failed(Fault))
        else
          var data := ReadBytes(archive, file.node, file.position, Min(len, MAX_USER_TRANSFER));
          Outcome(Moved(t, pid, fd, file, file.position + |data|), Data(data))
    case Seek(pid, fd, offset, whence) =>
      if SlotOf(t, pid, fd).None? then Outcome(t, Failed(BadDescriptor))
      else
        var file := SlotOf(t, pid, fd).value;
        (match SeekTarget(file, offset, whence)
         case None => Outcome(t, Failed(Invalid))
         case Some(target) =>
           var position := Min(target, file.node.len);
           Outcome(Moved(t, pid, fd, file, position), Position(position)))
    case Close(pid, fd) =>
      if SlotOf(t, pid, fd).None? then Outcome(t, Failed(BadDescriptor))
      else Outcome(t[pid := t[pid][fd := None]], Closed)
  }

  // --- What every call keeps ------------------------------------------------------------------------

  /** Cursors stay inside their files, and the console's numbers are never taken. */
  ghost predicate GoodTables(t: Tables) {
    forall pid: nat, fd: nat | SlotOf(t, pid, fd).Some? ::
      FIRST_DYNAMIC <= fd && SlotOf(t, pid, fd).value.position <= SlotOf(t, pid, fd).value.node.len
  }

  lemma PaddingIsEmpty(files: Table, fd: nat)
    requires |files| <= fd < |Padded(files)|
    ensures Padded(files)[fd].None?
    decreases FIRST_DYNAMIC - |files|
  {
    if |files| < FIRST_DYNAMIC {
      assert Padded(files) == Padded(files + [None]);
      if fd > |files| {
        PaddingIsEmpty(files + [None], fd);
      } else {
        assert (files + [None])[fd] == None && files + [None] <= Padded(files + [None]);
      }
    }
  }

  lemma OpenSlots(archive: seq<Byte>, t: Tables, op: Op, pid: nat, fd: nat)
    requires op.Open? && op.pid in t
    ensures
      var k := Apply(archive, t, op).reply.fd;
      SlotOf(Apply(archive, t, op).tables, pid, fd) ==
      if pid == op.pid && fd == k then Some(OpenFile(op.node, 0, op.path)) else SlotOf(t, pid, fd)
  {
    var files := Padded(t[op.pid]);
    if pid == op.pid && |t[pid]| <= fd < |files| {
      PaddingIsEmpty(t[pid], fd);
    }
  }

  /** `open` hands out the least descriptor, from 3 upwards, that is not in use. */
  lemma OpenIsLeastFree(archive: seq<Byte>, t: Tables, op: Op, fd: nat)
    requires op.Open? && op.pid in t && fd >= FIRST_DYNAMIC
    ensures
      var k := Apply(archive, t, op).reply.fd;
      && k >= FIRST_DYNAMIC && SlotOf(t, op.pid, k).None?
      && (fd < k ==> SlotOf(t, op.pid, fd).Some?)
  {
    var files := Padded(t[op.pid]);
    var k := Apply(archive, t, op).reply.fd;
    assert |t[op.pid]| >= FIRST_DYNAMIC ==> files == t[op.pid];
    assert |t[op.pid]| < FIRST_DYNAMIC ==> |files| == FIRST_DYNAMIC by {
      PaddedLength(t[op.pid]);
    }
  }

  lemma PaddedLength(files: Table)
    ensures |Padded(files)| == if |files| < FIRST_DYNAMIC then FIRST_DYNAMIC else |files|
    decreases FIRST_DYNAMIC - |files|
  {
    if |files| < FIRST_DYNAMIC {
      PaddedLength(files + [None]);
    }
  }

  /** The descriptor a call is about, given what it answered. */
  function About(op: Op, r: Reply): nat {
    if op.Open? then (if r.Opened? then r.fd else 0) else op.fd
  }

  /** No call changes any other descriptor, of the same process or another. */
  lemma OthersUndisturbed(archive: seq<Byte>, t: Tables, op: Op, pid: nat, fd: nat)
    requires pid != op.pid || fd != About(op, Apply(archive, t, op).reply)
    ensures SlotOf(Apply(archive, t, op).tables, pid, fd) == SlotOf(t, pid, fd)
  {
    hide ReadBytes, Padded, FirstFree;
    if op.Open? && op.pid in t {
      OpenSlots(archive, t, op, pid, fd);
    }
  }

  /** A call that fails changes nothing at all; in particular a failed copy does not move the cursor. */
  lemma FailureChangesNothing(archive: seq<Byte>, t: Tables, op: Op)
    requires Apply(archive, t, op).reply.Failed?
    ensures Apply(archive, t, op).tables == t
  {
    hide ReadBytes, Padded, FirstFree;
  }

  lemma ApplyKeepsGood(archive: seq<Byte>, t: Tables, op: Op)
    requires GoodTables(t)
    ensures GoodTables(Apply(archive, t, op).tables)
  {
    hide Apply;
    var t': Tables := Apply(archive, t, op).tables;
    forall pid: nat, fd: nat | SlotOf(t', pid, fd).Some?
      ensures FIRST_DYNAMIC <= fd && SlotOf(t', pid, fd).value.position <= SlotOf(t', pid, fd).value.node.len
    {
      GoodSlotKept(archive, t, op, pid, fd);
    }
  }

  lemma GoodSlotKept(archive: seq<Byte>, t: Tables, op: Op, pid: nat, fd: nat)
    requires GoodTables(t) && SlotOf(Apply(archive, t, op).tables, pid, fd).Some?
    ensures FIRST_DYNAMIC <= fd
    ensures
      var file := SlotOf(Apply(archive, t, op).tables, pid, fd).value;
      file.position <= file.node.len
  {
    hide Padded, FirstFree;
    if pid != op.pid || fd != About(op, Apply(archive, t, op).reply) {
      OthersUndisturbed(archive, t, op, pid, fd);
    } else if op.Open? && op.pid in t {
      OpenSlots(archive, t, op, pid, fd);
      OpenIsLeastFree(archive, t, op, FIRST_DYNAMIC);
    }
  }

  // --- Runs -----------------------------------------------------------------------------------------

  function After(archive: seq<Byte>, t: Tables, ops: seq<Op>): Tables {
    if ops == [] then t else Apply(archive, After(archive, t, ops[..|ops| - 1]), ops[|ops| - 1]).tables
  }

  /** All a process has read from one descriptor over a run. */
  function ReadFrom(archive: seq<Byte>, t: Tables, ops: seq<Op>, pid: nat, fd: nat): seq<Byte> {
    if ops == [] then []
    else
      var op := ops[|ops| - 1];
      var r := Apply(archive, After(archive, t, ops[..|ops| - 1]), op).reply;
      ReadFrom(archive, t, ops[..|ops| - 1], pid, fd) + if op.Read? && op.pid == pid && op.fd == fd && r.Data? then r.bytes else []
  }

  predicate LeavesCursor(op: Op, pid: nat, fd: nat) {
    (op.Seek? || op.Close?) ==> op.pid != pid || op.fd != fd
  }

  /** A file whose bytes are all in the archive. */
  predicate InArchive(archive: seq<Byte>, node: Node) {
    !node.isDirectory && node.offset + node.len <= |archive|
  }

  function Range(archive: seq<Byte>, node: Node, from: nat, to: nat): seq<Byte>
    requires InArchive(archive, node) && from <= to <= node.len
  {
    archive[node.offset + from..node.offset + to]
  }

  /** The descriptor still holds its file, and what was read is what lies between the cursors. */
  ghost predicate Streams(archive: seq<Byte>, t: Tables, ops: seq<Op>, pid: nat, fd: nat, file: OpenFile) {
    && InArchive(archive, file.node) && SlotOf(After(archive, t, ops), pid, fd).Some?
    && var now := SlotOf(After(archive, t, ops), pid, fd).value;
       && now == file.(position := now.position) && file.position <= now.position <= file.node.len
       && ReadFrom(archive, t, ops, pid, fd) == Range(archive, file.node, file.position, now.position)
  }

  lemma StreamStep(archive: seq<Byte>, t: Tables, op: Op, pid: nat, fd: nat, file: OpenFile, now: OpenFile)
    requires InArchive(archive, file.node) && GoodTables(t) && LeavesCursor(op, pid, fd)
    requires SlotOf(t, pid, fd) == Some(now) && now == file.(position := now.position) && file.position <= now.position <= file.node.len
    ensures
      var o := Apply(archive, t, op);
      && SlotOf(o.tables, pid, fd).Some?
      && var next := SlotOf(o.tables, pid, fd).value;
         var data := if op.Read? && op.pid == pid && op.fd == fd && o.reply.Data? then o.reply.bytes else [];
         && next == file.(position := next.position) && now.position <= next.position <= file.node.len
         && Range(archive, file.node, file.position, next.position) == Range(archive, file.node, file.position, now.position) + data
  {
    hide Padded, FirstFree;
    if op.Read? && op.pid == pid && op.fd == fd {
      RangeGrows(archive, file.node, file.position, now.position, Min(op.len, MAX_USER_TRANSFER));
      hide ReadBytes, Range;
    } else {
      if op.Open? && op.pid == pid && op.pid in t {
        OpenIsLeastFree(archive, t, op, FIRST_DYNAMIC);
      }
      hide Apply;
      OthersUndisturbed(archive, t, op, pid, fd);
    }
  }

  lemma RangeGrows(archive: seq<Byte>, node: Node, from: nat, at: nat, want: nat)
    requires InArchive(archive, node) && from <= at <= node.len
    ensures
      var data := ReadBytes(archive, node, at, want);
      at + |data| <= node.len && Range(archive, node, from, at + |data|) == Range(archive, node, from, at) + data
  {
    var data := ReadBytes(archive, node, at, want);
    assert data == archive[node.offset + at..node.offset + at + |data|];
  }

  /** Whatever else happens, on any descriptors of any processes, the reads of one descriptor join up
      to the file's bytes from where the cursor was to where it is. */
  lemma {:induction false} ReadsJoinUp(archive: seq<Byte>, t: Tables, ops: seq<Op>, pid: nat, fd: nat, file: OpenFile)
    requires GoodTables(t) && SlotOf(t, pid, fd) == Some(file) && InArchive(archive, file.node)
    requires forall i | 0 <= i < |ops| :: LeavesCursor(ops[i], pid, fd)
    ensures GoodTables(After(archive, t, ops)) && Streams(archive, t, ops, pid, fd, file)
    decreases |ops|
  {
    hide Apply;
    if ops != [] {
      var n := |ops| - 1;
      ReadsJoinUp(archive, t, ops[..n], pid, fd, file);
      var mid := After(archive, t, ops[..n]);
      ApplyKeepsGood(archive, mid, ops[n]);
      StreamStep(archive, mid, ops[n], pid, fd, file, SlotOf(mid, pid, fd).value);
    }
  }

  /** A read for at least one byte answers with nothing exactly at the end of the file, so reading
      until nothing comes yields the whole rest of it. */
  lemma EmptyReadIsTheEnd(archive: seq<Byte>, node: Node, position: nat, len: nat)
    requires InArchive(archive, node) && position <= node.len && len > 0
    ensures ReadBytes(archive, node, position, Min(len, MAX_USER_TRANSFER)) == [] <==> position == node.len
  {
  }

  /** Reading until nothing comes: the reads together are the file from the cursor to its end. */
  lemma ReadToTheEnd(archive: seq<Byte>, t: Tables, ops: seq<Op>, pid: nat, fd: nat, file: OpenFile, len: nat)
    requires GoodTables(t) && SlotOf(t, pid, fd) == Some(file) && InArchive(archive, file.node) && len > 0
    requires forall i | 0 <= i < |ops| :: LeavesCursor(ops[i], pid, fd)
    requires Apply(archive, After(archive, t, ops), Read(pid, fd, len, true)).reply == Data([])
    requires file.position <= file.node.len
    ensures ReadFrom(archive, t, ops, pid, fd) == Range(archive, file.node, file.position, file.node.len)
  {
    hide After, ReadFrom, ReadBytes;
    ReadsJoinUp(archive, t, ops, pid, fd, file);
    var now := SlotOf(After(archive, t, ops), pid, fd).value;
    EmptyReadIsTheEnd(archive, file.node, now.position, len);
  }

  // --- Seeking and closing ------------------------------------------------------------------------------

  /** Where a seek leads, from position q in a file of n bytes: k from the start, q + k, or k before the
      end, never outside the file; and nothing but the cursor changes. */
  lemma SeekLands(archive: seq<Byte>, t: Tables, pid: nat, fd: nat, k: nat, file: OpenFile)
    requires GoodTables(t) && SlotOf(t, pid, fd) == Some(file)
    ensures
      var n, q := file.node.len, file.position;
      && SoughtTo(archive, t, Seek(pid, fd, k, FromStart), if k <= n then k else n, file)
      && SoughtTo(archive, t, Seek(pid, fd, k, FromCurrent), if q + k <= n then q + k else n, file)
      && SoughtTo(archive, t, Seek(pid, fd, k, FromEnd), if k <= n then n - k else 0, file)
      && Apply(archive, t, Seek(pid, fd, k, BadWhence)) == Outcome(t, Failed(Invalid))
  {
  }

  predicate SoughtTo(archive: seq<Byte>, t: Tables, op: Op, at: nat, file: OpenFile)
    requires op.Seek?
  {
    var o := Apply(archive, t, op);
    o.reply == Position(at) && SlotOf(o.tables, op.pid, op.fd) == Some(OpenFile(file.node, at, file.path))
  }

  /** After a seek to byte k, the reads join up to the file's bytes from k, whatever else happens. */
  lemma ReadsAfterSeek(archive: seq<Byte>, t: Tables, pid: nat, fd: nat, file: OpenFile, k: nat, ops: seq<Op>)
    requires GoodTables(t) && SlotOf(t, pid, fd) == Some(file) && InArchive(archive, file.node) && k <= file.node.len
    requires forall i | 0 <= i < |ops| :: LeavesCursor(ops[i], pid, fd)
    ensures
      var u := Apply(archive, t, Seek(pid, fd, k, FromStart)).tables;
      var now := SlotOf(After(archive, u, ops), pid, fd);
      && now.Some? && k <= now.value.position <= file.node.len
      && ReadFrom(archive, u, ops, pid, fd) == Range(archive, file.node, k, now.value.position)
  {
    hide After, ReadFrom;
    var u := Apply(archive, t, Seek(pid, fd, k, FromStart)).tables;
    ApplyKeepsGood(archive, t, Seek(pid, fd, k, FromStart));
    SeekLands(archive, t, pid, fd, k, file);
    ReadsJoinUp(archive, u, ops, pid, fd, OpenFile(file.node, k, file.path));
  }

  /** Closing frees the slot; closing again is reported; and reading or seeking fails until it is
      opened again. */
  lemma CloseFrees(archive: seq<Byte>, t: Tables, pid: nat, fd: nat)
    requires GoodTables(t)
    ensures
      var o := Apply(archive, t, Close(pid, fd));
      && (o.reply == Closed <==> SlotOf(t, pid, fd).Some?) && (o.reply != Closed ==> o.reply == Failed(BadDescriptor))
      && SlotOf(o.tables, pid, fd).None?
      && Apply(archive, o.tables, Close(pid, fd)) == Outcome(o.tables, Failed(BadDescriptor))
      && (forall k: nat, w: Whence :: Apply(archive, o.tables, Seek(pid, fd, k, w)).reply == Failed(BadDescriptor))
      && (forall n: nat, w: bool :: fd != STDIN ==> Apply(archive, o.tables, Read(pid, fd, n, w)).reply == Failed(BadDescriptor))
  {
  }

  /** A descriptor that was opened names the file from its start. */
  lemma OpenStartsAtZero(archive: seq<Byte>, t: Tables, pid: nat, node: Node, path: Path)
    requires pid in t
    ensures
      var o := Apply(archive, t, Open(pid, node, path));
      o.reply.Opened? && SlotOf(o.tables, pid, o.reply.fd) == Some(OpenFile(node, 0, path))
  {
    OpenSlots(archive, t, Open(pid, node, path), pid, Apply(archive, t, Open(pid, node, path)).reply.fd);
  }

  /** How much a read of an open file gives: what was asked for, up to a mebibyte and the end of the
      file; the console gives nothing or refuses. */
  lemma ReadGives(archive: seq<Byte>, t: Tables, pid: nat, fd: nat, len: nat)
    requires GoodTables(t)
    ensures fd == 0 ==> Apply(archive, t, Read(pid, fd, len, true)).reply == Data([])
    ensures fd == 1 || fd == 2 ==> Apply(archive, t, Read(pid, fd, len, true)).reply == Failed(BadDescriptor)
    ensures SlotOf(t, pid, fd).Some? && InArchive(archive, SlotOf(t, pid, fd).value.node) ==>
              var file, r := SlotOf(t, pid, fd).value, Apply(archive, t, Read(pid, fd, len, true)).reply;
              var left := file.node.len - file.position;
              r.Data? && |r.bytes| == (if len <= left && len <= 1_048_576 then len else if left <= 1_048_576 then left else 1_048_576)
  {
  }

  // --- readdir --------------------------------------------------------------------------------------

  /** Names packed one after the other, each ended by a NUL. */
  function Packed(names: seq<Path>): seq<Byte> {
    if names == [] then [] else Packed(names[..|names| - 1]) + names[|names| - 1] + [0]
  }

  function NamesOf(children: seq<Path>): (r: seq<Path>)
    ensures |r| == |children| && forall i | 0 <= i < |r| :: r[i] == Basename(children[i])
  {
    seq(|children|, i requires 0 <= i < |children| => Basename(children[i]))
  }

  /** Whole names only, as many as fit. */
  method PackNames(children: seq<Path>, bufLen: nat) returns (out: seq<Byte>, ghost count: nat)
    ensures count <= |children| && out == Packed(NamesOf(children)[..count]) && |out| <= bufLen
    ensures count < |children| ==> |Packed(NamesOf(children)[..count + 1])| > bufLen
  {
    out := [];
    for i := 0 to |children|
      invariant out == Packed(NamesOf(children)[..i]) && |out| <= bufLen
    {
      var name := Basename(children[i]);
      assert NamesOf(children)[..i + 1][..i] == NamesOf(children)[..i];
      if |out| + |name| + 1 > bufLen {
        return out, i;
      }
      out := out + name + [0];
    }
    return out, |children|;
  }

  /** One past the last NUL before the final one. */
  function LastStart(packed: seq<Byte>): (r: nat)
    ensures r <= |packed| && 0 !in packed[r..] && (r > 0 ==> packed[r - 1] == 0)
  {
    if packed == [] then 0
    else if packed[|packed| - 1] == 0 then |packed|
    else
      var r := LastStart(packed[..|packed| - 1]);
      assert packed[r..] == packed[..|packed| - 1][r..] + [packed[|packed| - 1]];
      r
  }

  function Unpacked(packed: seq<Byte>): seq<Path>
    decreases |packed|
  {
    if packed == [] then []
    else
      var body := packed[..|packed| - 1];
      var r := LastStart(body);
      Unpacked(body[..r]) + [body[r..]]
  }

  /** A caller that splits at the NULs gets back exactly the names. */
  lemma {:induction false} UnpackPacked(names: seq<Path>)
    requires forall i | 0 <= i < |names| :: 0 !in names[i]
    ensures Unpacked(Packed(names)) == names
    ensures names != [] ==> Packed(names)[|Packed(names)| - 1] == 0
    decreases |names|
  {
    hide Unpacked;
    if names == [] {
      NothingUnpacks();
    } else {
      var n := |names| - 1;
      UnpackPacked(names[..n]);
      UnpackLast(Packed(names[..n]), names[n]);
      assert names == names[..n] + [names[n]];
    }
  }

  lemma NothingUnpacks()
    ensures Unpacked([]) == []
  {
  }

  /** What `readdir` wrote, split at the NULs, is the names of the first entries of the listing. */
  lemma ListingUnpacks(children: seq<Path>, count: nat)
    requires count <= |children| && forall i | 0 <= i < |children| :: PathIsValid(children[i])
    ensures Unpacked(Packed(NamesOf(children)[..count])) == NamesOf(children)[..count]
  {
    hide Unpacked, Packed, Components, AfterLastSlash;
    var names := NamesOf(children)[..count];
    forall i | 0 <= i < |names| ensures 0 !in names[i] {
      assert names[i] == Basename(children[i]);
    }
    UnpackPacked(names);
  }

  lemma UnpackLast(before: seq<Byte>, name: Path)
    requires 0 !in name && (before != [] ==> before[|before| - 1] == 0)
    ensures Unpacked(before + name + [0]) == Unpacked(before) + [name]
  {
    hide LastStart;
    var packed := before + name + [0];
    var body := packed[..|packed| - 1];
    assert body == before + name;
    LastStartIs(before, name);
    assert body[..|before|] == before && body[|before|..] == name;
  }

  lemma LastStartIs(before: seq<Byte>, name: Path)
    requires 0 !in name && (before != [] ==> before[|before| - 1] == 0)
    ensures LastStart(before + name) == |before|
  {
    var body := before + name;
    var r := LastStart(body);
    forall i | r <= i < |body| ensures body[i] != 0 {
      assert body[i] == body[r..][i - r];
    }
    forall i | |before| <= i < |body| ensures body[i] != 0 {
      assert body[i] == name[i - |before|];
    }
    assert before != [] ==> body[|before| - 1] == 0;
  }

  // --- The process table ----------------------------------------------------------------------------

  class Processes {
    var tables: Tables

    ghost predicate Valid()
      reads this
    {
      GoodTables(tables)
    }

    constructor ()
      ensures Valid() && tables == map[]
    {
      tables := map[];
    }

    /** `open_file`: pads the table past the console's numbers, then takes the first free slot. */
    method OpenAt(pid: nat, node: Node, path: Path) returns (r: Reply)
      requires Valid()
      modifies this
      ensures Valid() && forall archive: seq<Byte> :: Outcome(tables, r) == Apply(archive, old(tables), Open(pid, node, path))
    {
      if pid !in tables {
        return Failed(NoProcess);
      }
      ApplyKeepsGood([], tables, Open(pid, node, path));
      hide GoodTables;
      var files := tables[pid];
      while |files| < FIRST_DYNAMIC
        invariant Padded(files) == Padded(tables[pid])
        decreases FIRST_DYNAMIC - |files|
      {
        files := files + [None];
      }
      var index := FIRST_DYNAMIC;
      while index < |files|
        invariant FIRST_DYNAMIC <= index <= |files|
        invariant FirstFree(files, FIRST_DYNAMIC) == FirstFree(files, index)
        decreases |files| - index
      {
        if files[index].None? {
          break;
        }
        index := index + 1;
      }
      if index < |files| {
        files := files[index := Some(OpenFile(node, 0, path))];
      } else {
        files := files + [Some(OpenFile(node, 0, path))];
      }
      tables := tables[pid := files];
      r := Opened(index);
    }

    method GetFile(pid: nat, fd: nat) returns (file: Option<OpenFile>)
      ensures file == SlotOf(tables, pid, fd)
    {
      if pid !in tables || fd >= |tables[pid]| {
        return None;
      }
      return tables[pid][fd];
    }

    method SetFilePosition(pid: nat, fd: nat, position: nat) returns (ok: bool)
      modifies this
      ensures ok == SlotOf(old(tables), pid, fd).Some?
      ensures tables == if ok then Moved(old(tables), pid, fd, SlotOf(old(tables), pid, fd).value, position) else old(tables)
    {
      if pid !in tables || fd >= |tables[pid]| || tables[pid][fd].None? {
        return false;
      }
      tables := tables[pid := tables[pid][fd := Some(tables[pid][fd].value.(position := position))]];
      return true;
    }

    /** `sys_read`: the bytes reach the caller before the cursor moves. */
    method SysRead(fs: Fs, pid: nat, fd: nat, len: nat, writable: bool) returns (r: Reply)
      requires Valid()
      modifies this
      ensures Valid() && Outcome(tables, r) == Apply(ArchiveOf(fs.mounted), old(tables), Read(pid, fd, len, writable))
    {
      ApplyKeepsGood(ArchiveOf(fs.mounted), tables, Read(pid, fd, len, writable));
      hide GoodTables;
      if fd == STDIN {
        return Data([]);
      }
      if fd == STDOUT || fd == STDERR {
        return Failed(BadDescriptor);
      }
      var found := GetFile(pid, fd);
      if found.None? {
        return Failed(BadDescriptor);
      }
      var file := found.value;
      if file.node.isDirectory {
        return Failed(NotSupported);
      }
      var want := Min(len, MAX_USER_TRANSFER);
      var buffer := new Byte[want];
      var got := fs.Read(file.node, file.position, buffer);
      if !writable {
        return Failed(Fault);
      }
      r := Data(buffer[..got]);
      var _ := SetFilePosition(pid, fd, file.position + got);
    }

    method SysSeek(pid: nat, fd: nat, offset: nat, whence: Whence) returns (r: Reply)
      requires Valid()
      modifies this
      ensures Valid() && forall archive: seq<Byte> :: Outcome(tables, r) == Apply(archive, old(tables), Seek(pid, fd, offset, whence))
    {
      ApplyKeepsGood([], tables, Seek(pid, fd, offset, whence));
      hide GoodTables;
      var found := GetFile(pid, fd);
      if found.None? {
        return Failed(BadDescriptor);
      }
      var file := found.value;
      var target := SeekTarget(file, offset, whence);
      if target.None? {
        return Failed(Invalid);
      }
      var position := Min(target.value, file.node.len);
      var moved := SetFilePosition(pid, fd, position);
      r := Position(position);
    }

    /** `sys_readdir`: the names in the directory the descriptor was opened with. */
    method SysReaddir(fs: Fs, pid: nat, fd: nat, bufLen: nat, writable: bool) returns (r: Reply, ghost children: seq<Path>, ghost count: nat)
      ensures
        var slot := SlotOf(tables, pid, fd);
        if slot.None? then r == Failed(BadDescriptor)
        else if !slot.value.node.isDirectory then r == Failed(NotSupported)
        else if !IsDirectory(fs.mounted, slot.value.path) then r == Failed(NoEntry)
        else
          && (forall c :: c in children <==> c in Listing(fs.mounted.value.nodes, slot.value.path))
          && (forall i, j | 0 <= i < j < |children| :: children[i] != children[j])
          && count <= |children| && |Packed(NamesOf(children)[..count])| <= bufLen
          && (count < |children| ==> |Packed(NamesOf(children)[..count + 1])| > bufLen)
          && r == if writable && |Packed(NamesOf(children)[..count])| <= MAX_USER_TRANSFER
                  then Data(Packed(NamesOf(children)[..count])) else Failed(Fault)
    {
      hide Listing, Packed, NamesOf;
      children, count := [], 0;
      var found := GetFile(pid, fd);
      if found.None? {
        return Failed(BadDescriptor), children, count;
      }
      var file := found.value;
      if !file.node.isDirectory {
        return Failed(NotSupported), children, count;
      }
      var listed := fs.ReadDir(file.path);
      if listed.None? {
        return Failed(NoEntry), children, count;
      }
      children := listed.value;
      var out;
      out, count := PackNames(listed.value, bufLen);
      r := if writable && |out| <= MAX_USER_TRANSFER then Data(out) else Failed(Fault);
    }

    method SysClose(pid: nat, fd: nat) returns (r: Reply)
      requires Valid()
      modifies this
      ensures Valid() && forall archive: seq<Byte> :: Outcome(tables, r) == Apply(archive, old(tables), Close(pid, fd))
    {
      ApplyKeepsGood([], tables, Close(pid, fd));
      hide GoodTables;
      if pid !in tables || fd >= |tables[pid]| || tables[pid][fd].None? {
        return Failed(BadDescriptor);
      }
      tables := tables[pid := tables[pid][fd := None]];
      return Closed;
    }
  }

  predicate IsDirectory(mounted: Option<Volume>, path: Path) {
    mounted.Some? && path in mounted.value.nodes && mounted.value.nodes[path].isDirectory
  }

  function ArchiveOf(mounted: Option<Volume>): seq<Byte> {
    if mounted.Some? then mounted.value.archive else []
  }
}
