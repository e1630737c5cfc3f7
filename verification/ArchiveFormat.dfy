/** The NAR archive format: what its parser accepts and what its printer writes
    (abi/src/archive.rs, kernel/src/fs.rs `mount`, runner/build.rs `build_archive`). */
module ArchiveFormat {
  import opened Options
  import opened Bytes
  import opened Paths

  const MAGIC: seq<Byte> := [78, 65, 74, 77, 65, 82, 0, 0]
  const VERSION: nat := 1
  const HEADER_SIZE: nat := 24
  const ENTRY_SIZE: nat := 144 // 24 + MAX_PATH
  const FLAG_DIRECTORY: nat := 1

  /** What a file is in the mounted namespace: a range of the archive's own bytes. */
  datatype Node = Node(offset: nat, len: nat, isDirectory: bool)

  datatype MountError =
    | TooSmall
    | BadMagic
    | UnsupportedVersion(version: nat)
    | EntryOutOfBounds(index: nat)
    | BadPath(index: nat)
    | DuplicatePath(index: nat)

  datatype Result<+T> = Ok(value: T) | Err(error: MountError)

  // --- Parsing ---------------------------------------------------------------------------------

  /** Where entry `i` starts: a header of 24 bytes, then entries of 144. */
  function EntryStart(i: nat): nat {
    24 + 144 * i
  }

  datatype Entry = Entry(path: Path, node: Node)

  function ParseEntry(bytes: seq<Byte>, i: nat): Result<Entry>
    requires EntryStart(i + 1) <= |bytes|
  {
    var at := EntryStart(i);
    var offset := ReadLittleEndian(bytes, at, 8);
    var len := ReadLittleEndian(bytes, at + 8, 8);
    var flags := ReadLittleEndian(bytes, at + 16, 4);
    var pathLen := ReadLittleEndian(bytes, at + 20, 4);
    if pathLen > MAX_PATH then Err(BadPath(i))
    else
      var path := bytes[at + 24..at + 24 + pathLen];
      var isDirectory := flags % 2 == FLAG_DIRECTORY;
      if !PathIsValid(path) then Err(BadPath(i))
      else if if isDirectory then len != 0 else offset + len > |bytes| then Err(EntryOutOfBounds(i))
      else Ok(Entry(path, Node(offset, len, isDirectory)))
  }

  /** The first `n` entries as a namespace, or the first thing wrong with them. */
  function ParseTable(bytes: seq<Byte>, n: nat): Result<map<Path, Node>>
    requires EntryStart(n) <= |bytes|
  {
    if n == 0 then Ok(map[])
    else
      match ParseTable(bytes, n - 1)
      case Err(e) => Err(e)
      case Ok(nodes) =>
        match ParseEntry(bytes, n - 1)
        case Err(e) => Err(e)
        case Ok(entry) =>
          if entry.path in nodes then Err(DuplicatePath(n - 1)) else Ok(nodes[entry.path := entry.node])
  }

  function WithRoot(nodes: map<Path, Node>): map<Path, Node> {
    if ROOT in nodes then nodes else nodes[ROOT := Node(0, 0, true)]
  }

  /** `mount`, as a function of the archive. */
  function Parse(bytes: seq<Byte>): Result<map<Path, Node>> {
    if |bytes| < HEADER_SIZE then Err(TooSmall)
    else if bytes[0..8] != MAGIC then Err(BadMagic)
    else if ReadLittleEndian(bytes, 8, 4) != VERSION then Err(UnsupportedVersion(ReadLittleEndian(bytes, 8, 4)))
    else
      var count := ReadLittleEndian(bytes, 12, 4);
      if EntryStart(count) > |bytes| then Err(TooSmall)
      else
        match ParseTable(bytes, count)
        case Err(e) => Err(e)
        case Ok(nodes) => Ok(WithRoot(nodes))
  }

  /** Every entry of the first `n` parses, and no two share a path. */
  ghost predicate GoodTable(bytes: seq<Byte>, n: nat) {
    && EntryStart(n) <= |bytes|
    && (forall i: nat | i < n :: ParseEntry(bytes, i).Ok?)
    && (forall i: nat, j: nat | i < j < n :: ParseEntry(bytes, i).value.path != ParseEntry(bytes, j).value.path)
  }

  /** Acceptance is exactly having a good table, and the namespace is then exactly its entries. */
  lemma {:induction false} ParseTableIsExact(bytes: seq<Byte>, n: nat)
    requires EntryStart(n) <= |bytes|
    ensures ParseTable(bytes, n).Ok? <==> GoodTable(bytes, n)
    ensures ParseTable(bytes, n).Ok? ==>
              var nodes := ParseTable(bytes, n).value;
              && (forall i: nat | i < n ::
                    ParseEntry(bytes, i).value.path in nodes
                    && nodes[ParseEntry(bytes, i).value.path] == ParseEntry(bytes, i).value.node)
              && (forall p | p in nodes :: exists i: nat | i < n :: ParseEntry(bytes, i).value.path == p)
  {
    hide ParseEntry;
    if n > 0 {
      ParseTableIsExact(bytes, n - 1);
      var rest := ParseTable(bytes, n - 1);
      if rest.Ok? && ParseEntry(bytes, n - 1).Ok? {
        var path := ParseEntry(bytes, n - 1).value.path;
        if path in rest.value {
          var i: nat :| i < n - 1 && ParseEntry(bytes, i).value.path == path;
          assert !GoodTable(bytes, n);
        } else {
          assert GoodTable(bytes, n);
        }
      }
    }
  }

  /** The bytes of an entry, whatever its other flag bits and its padding hold. */
  function EntryWith(path: Path, offset: nat, len: nat, flags: nat, padding: seq<Byte>): (e: seq<Byte>)
    requires |path| + |padding| == MAX_PATH
    ensures |e| == ENTRY_SIZE
  {
    ToLittleEndian(offset, 8) + ToLittleEndian(len, 8) + ToLittleEndian(flags, 4) + ToLittleEndian(|path|, 4) + path + padding
  }

  /** What an entry must say to be accepted: a valid path; a file inside the archive, or a directory
      with no bytes. */
  predicate Acceptable(bytes: seq<Byte>, entry: Entry) {
    && PathIsValid(entry.path) && |entry.path| <= 120 && entry.node.offset < TWO_64 && entry.node.len < TWO_64
    && if entry.node.isDirectory then entry.node.len == 0 else entry.node.offset + entry.node.len <= |bytes|
  }

  /** An entry is read exactly when its bytes are an acceptable entry's, bit 0 of the flags marking a
      directory. */
  lemma EntryIsExact(bytes: seq<Byte>, i: nat, entry: Entry)
    requires EntryStart(i + 1) <= |bytes|
    ensures ParseEntry(bytes, i) == Ok(entry) <==>
            && Acceptable(bytes, entry)
            && exists flags: nat, padding: seq<Byte> ::
                 && flags < TWO_32 && (flags % 2 == 1 <==> entry.node.isDirectory) && |entry.path| + |padding| == MAX_PATH
                 && bytes[EntryStart(i)..EntryStart(i + 1)] == EntryWith(entry.path, entry.node.offset, entry.node.len, flags, padding)
  {
    hide PathIsValid, FromLittleEndian, ToLittleEndian;
    var at := EntryStart(i);
    var e := bytes[at..at + 144];
    if ParseEntry(bytes, i) == Ok(entry) {
      var flags, n := ReadLittleEndian(bytes, at + 16, 4), |entry.path|;
      NumberField(bytes, at, 8, entry.node.offset);
      NumberField(bytes, at + 8, 8, entry.node.len);
      NumberField(bytes, at + 16, 4, flags);
      NumberField(bytes, at + 20, 4, n);
      EntryPieces(bytes, at, n);
      assert e == EntryWith(entry.path, entry.node.offset, entry.node.len, flags, bytes[at + 24 + n..at + 144]);
    }
    if Acceptable(bytes, entry) {
      if flags: nat, padding: seq<Byte> :|
        && flags < TWO_32 && (flags % 2 == 1 <==> entry.node.isDirectory) && |entry.path| + |padding| == MAX_PATH
        && bytes[EntryStart(i)..EntryStart(i + 1)] == EntryWith(entry.path, entry.node.offset, entry.node.len, flags, padding) {
        EntryReads(bytes, i, entry, flags, padding);
      }
    }
  }

  lemma EntryPieces(bytes: seq<Byte>, at: nat, n: nat)
    requires at + 144 <= |bytes| && n <= 120
    ensures bytes[at..at + 144] ==
            bytes[at..at + 8] + bytes[at + 8..at + 16] + bytes[at + 16..at + 20] + bytes[at + 20..at + 24]
            + bytes[at + 24..at + 24 + n] + bytes[at + 24 + n..at + 144]
  {
  }

  lemma EntryReads(bytes: seq<Byte>, i: nat, entry: Entry, flags: nat, padding: seq<Byte>)
    requires EntryStart(i + 1) <= |bytes| && Acceptable(bytes, entry)
    requires flags < TWO_32 && (flags % 2 == 1 <==> entry.node.isDirectory) && |entry.path| + |padding| == MAX_PATH
    requires bytes[EntryStart(i)..EntryStart(i + 1)] == EntryWith(entry.path, entry.node.offset, entry.node.len, flags, padding)
    ensures ParseEntry(bytes, i) == Ok(entry)
  {
    hide PathIsValid, FromLittleEndian, ToLittleEndian;
    var at, n := EntryStart(i), |entry.path|;
    var e := bytes[at..at + 144];
    SliceWithin(bytes, at, at + 144, 0, 8);
    SliceWithin(bytes, at, at + 144, 8, 16);
    SliceWithin(bytes, at, at + 144, 16, 20);
    SliceWithin(bytes, at, at + 144, 20, 24);
    SliceWithin(bytes, at, at + 144, 24, 24 + n);
    assert e[0..8] == ToLittleEndian(entry.node.offset, 8) && e[8..16] == ToLittleEndian(entry.node.len, 8);
    assert e[16..20] == ToLittleEndian(flags, 4) && e[20..24] == ToLittleEndian(n, 4) && e[24..24 + n] == entry.path;
    NumberField(bytes, at, 8, entry.node.offset);
    NumberField(bytes, at + 8, 8, entry.node.len);
    NumberField(bytes, at + 16, 4, flags);
    NumberField(bytes, at + 20, 4, n);
  }

  /** An archive is accepted exactly when it starts with the magic and version 1, and has as many good
      entries with different paths as its count says; a file's bytes then lie inside the archive. */
  lemma MountIsExact(bytes: seq<Byte>)
    ensures Parse(bytes).Ok? <==>
            && |bytes| >= 24 && bytes[0..8] == [78, 65, 74, 77, 65, 82, 0, 0] && bytes[8..12] == [1, 0, 0, 0]
            && GoodTable(bytes, ReadLittleEndian(bytes, 12, 4))
    ensures Parse(bytes).Ok? ==>
              forall p | p in Parse(bytes).value && !Parse(bytes).value[p].isDirectory ::
                Parse(bytes).value[p].offset + Parse(bytes).value[p].len <= |bytes|
  {
    hide ParseEntry, FromLittleEndian, ParseTable;
    if |bytes| >= 24 {
      NumberField(bytes, 8, 4, VERSION);
      VersionBytes();
      var n := ReadLittleEndian(bytes, 12, 4);
      if EntryStart(n) <= |bytes| {
        ParseTableIsExact(bytes, n);
        if ParseTable(bytes, n).Ok? {
          forall p | p in ParseTable(bytes, n).value && !ParseTable(bytes, n).value[p].isDirectory
            ensures ParseTable(bytes, n).value[p].offset + ParseTable(bytes, n).value[p].len <= |bytes|
          {
            var i: nat :| i < n && ParseEntry(bytes, i).value.path == p;
            EntryInside(bytes, i);
          }
        }
      }
    }
  }

  lemma VersionBytes()
    ensures ToLittleEndian(1, 4) == [1, 0, 0, 0]
  {
  }

  lemma EntryInside(bytes: seq<Byte>, i: nat)
    requires EntryStart(i + 1) <= |bytes| && ParseEntry(bytes, i).Ok?
    ensures
      var node := ParseEntry(bytes, i).value.node;
      node.isDirectory || node.offset + node.len <= |bytes|
  {
  }

  // --- Printing --------------------------------------------------------------------------------

  /** The namespace the builder lays out: `None` marks a directory. */
  type Contents = map<Path, Option<seq<Byte>>>

  function DataOf(contents: Contents, path: Path): seq<Byte>
    requires path in contents
  {
    if contents[path].Some? then contents[path].value else []
  }

  /** The data of the first `i` paths of `order`, one after the other. */
  function Blob(contents: Contents, order: seq<Path>, i: nat): seq<Byte>
    requires i <= |order| && forall p | p in order :: p in contents
  {
    if i == 0 then [] else Blob(contents, order, i - 1) + DataOf(contents, order[i - 1])
  }

  function EntryBytes(path: Path, offset: nat, len: nat, isDirectory: bool): (e: seq<Byte>)
    requires |path| <= MAX_PATH
    ensures |e| == ENTRY_SIZE
  {
    ToLittleEndian(offset, 8) + ToLittleEndian(len, 8)
    + ToLittleEndian(if isDirectory then FLAG_DIRECTORY else 0, 4) + ToLittleEndian(|path|, 4)
    + path + seq(MAX_PATH - |path|, i => 0)
  }

  /** Entry `i`: directories carry offset and length zero. */
  function EntryFor(contents: Contents, order: seq<Path>, i: nat): (e: seq<Byte>)
    requires i < |order| && Printable(contents, order)
    ensures |e| == ENTRY_SIZE
  {
    if contents[order[i]].None? then EntryBytes(order[i], 0, 0, true)
    else EntryBytes(order[i], EntryStart(|order|) + |Blob(contents, order, i)|, |DataOf(contents, order[i])|, false)
  }

  function Table(contents: Contents, order: seq<Path>, i: nat): (t: seq<Byte>)
    requires i <= |order| && Printable(contents, order)
    ensures |t| == 144 * i
  {
    if i == 0 then [] else Table(contents, order, i - 1) + EntryFor(contents, order, i - 1)
  }

  function Header(count: nat, total: nat): (h: seq<Byte>)
    ensures |h| == HEADER_SIZE
  {
    MAGIC + ToLittleEndian(VERSION, 4) + ToLittleEndian(count, 4) + ToLittleEndian(total, 8)
  }

  predicate Printable(contents: Contents, order: seq<Path>) {
    forall p | p in order :: p in contents && |p| <= MAX_PATH
  }

  function Archive(contents: Contents, order: seq<Path>): seq<Byte>
    requires Printable(contents, order)
  {
    var n := |order|;
    var blob := Blob(contents, order, n);
    Header(n, EntryStart(n) + |blob|) + Table(contents, order, n) + blob
  }
}
