/** Mounting what the builder printed gives back exactly the namespace it was given. */
module ArchiveRoundTrip {
  import opened Options
  import opened Bytes
  import opened Paths
  import opened ArchiveFormat

  lemma LittleEndianAt(bytes: seq<Byte>, at: nat, n: nat, x: nat)
    requires at + n <= |bytes| && bytes[at..at + n] == ToLittleEndian(x, n) && x < Pow256(n)
    ensures ReadLittleEndian(bytes, at, n) == x
  {
    LittleEndianRoundTrip(x, n);
  }

  /** The pieces of a concatenation, by position. */
  lemma SliceOfSlice(bytes: seq<Byte>, at: nat, whole: seq<Byte>, from: nat, to: nat)
    requires at + |whole| <= |bytes| && bytes[at..at + |whole|] == whole && from <= to <= |whole|
    ensures bytes[at + from..at + to] == whole[from..to]
  {
    forall k | 0 <= k < to - from ensures bytes[at + from..at + to][k] == whole[from..to][k] {
      assert whole[from + k] == bytes[at..at + |whole|][from + k];
    }
  }

  // --- The header ----------------------------------------------------------------------------

  lemma HeaderFields(bytes: seq<Byte>, count: nat, total: nat)
    requires |bytes| >= HEADER_SIZE && bytes[0..HEADER_SIZE] == Header(count, total)
    requires count < TWO_32
    ensures bytes[0..8] == MAGIC
    ensures ReadLittleEndian(bytes, 8, 4) == VERSION
    ensures ReadLittleEndian(bytes, 12, 4) == count
  {
    var h := Header(count, total);
    WordSizes();
    SliceOfSlice(bytes, 0, h, 0, 8);
    SliceOfSlice(bytes, 0, h, 8, 12);
    SliceOfSlice(bytes, 0, h, 12, 16);
    assert h[0..8] == MAGIC;
    assert h[8..12] == ToLittleEndian(VERSION, 4);
    assert h[12..16] == ToLittleEndian(count, 4);
    LittleEndianAt(bytes, 8, 4, VERSION);
    LittleEndianAt(bytes, 12, 4, count);
  }

  // --- One entry -----------------------------------------------------------------------------

  lemma EntryFields(path: Path, offset: nat, len: nat, isDirectory: bool)
    requires |path| <= MAX_PATH
    ensures
      var e := EntryBytes(path, offset, len, isDirectory);
      && e[0..8] == ToLittleEndian(offset, 8)
      && e[8..16] == ToLittleEndian(len, 8)
      && e[16..20] == ToLittleEndian(if isDirectory then FLAG_DIRECTORY else 0, 4)
      && e[20..24] == ToLittleEndian(|path|, 4)
      && e[24..24 + |path|] == path
  {
    hide ToLittleEndian;
  }

  lemma EntryParses(bytes: seq<Byte>, i: nat, path: Path, offset: nat, len: nat, isDirectory: bool)
    requires PathIsValid(path)
    requires EntryStart(i + 1) <= |bytes|
    requires bytes[EntryStart(i)..EntryStart(i + 1)] == EntryBytes(path, offset, len, isDirectory)
    requires offset < TWO_64 && len < TWO_64 && if isDirectory then len == 0 else offset + len <= |bytes|
    ensures ParseEntry(bytes, i) == Ok(Entry(path, Node(offset, len, isDirectory)))
  {
    hide PathIsValid, ToLittleEndian, ReadLittleEndian, EntryBytes;
    PathFits(path);
    var at := EntryStart(i);
    var e := EntryBytes(path, offset, len, isDirectory);
    var flags := if isDirectory then FLAG_DIRECTORY else 0;
    assert at + |e| == EntryStart(i + 1);
    WordSizes();
    EntryFields(path, offset, len, isDirectory);
    SliceOfSlice(bytes, at, e, 0, 8);
    SliceOfSlice(bytes, at, e, 8, 16);
    SliceOfSlice(bytes, at, e, 16, 20);
    SliceOfSlice(bytes, at, e, 20, 24);
    SliceOfSlice(bytes, at, e, 24, 24 + |path|);
    LittleEndianAt(bytes, at, 8, offset);
    LittleEndianAt(bytes, at + 8, 8, len);
    LittleEndianAt(bytes, at + 16, 4, flags);
    LittleEndianAt(bytes, at + 20, 4, |path|);
  }

  lemma PathFits(path: Path)
    requires PathIsValid(path)
    ensures |path| <= MAX_PATH
  {
  }

  // --- The whole archive -----------------------------------------------------------------------

  lemma {:induction false} TableEntry(contents: Contents, order: seq<Path>, i: nat, n: nat)
    requires i < n <= |order| && Printable(contents, order)
    ensures Table(contents, order, n)[144 * i..144 * (i + 1)] == EntryFor(contents, order, i)
  {
    hide EntryFor, Printable;
    var t := Table(contents, order, n - 1);
    var last := EntryFor(contents, order, n - 1);
    assert Table(contents, order, n) == t + last;
    if i < n - 1 {
      TableEntry(contents, order, i, n - 1);
      assert 144 * (i + 1) <= |t|;
      assert (t + last)[144 * i..144 * (i + 1)] == t[144 * i..144 * (i + 1)];
    } else {
      assert (t + last)[|t|..|t| + 144] == last;
    }
  }

  lemma {:induction false} BlobPiece(contents: Contents, order: seq<Path>, i: nat, n: nat)
    requires i < n <= |order| && Printable(contents, order)
    ensures
      var at := |Blob(contents, order, i)|;
      var data := DataOf(contents, order[i]);
      at + |data| <= |Blob(contents, order, n)| && Blob(contents, order, n)[at..at + |data|] == data
  {
    hide DataOf;
    var b := Blob(contents, order, n - 1);
    var last := DataOf(contents, order[n - 1]);
    var at := |Blob(contents, order, i)|;
    var data := DataOf(contents, order[i]);
    assert Blob(contents, order, n) == b + last;
    if i < n - 1 {
      BlobPiece(contents, order, i, n - 1);
      assert (b + last)[at..at + |data|] == b[at..at + |data|];
    } else {
      assert (b + last)[|b|..|b| + |last|] == last;
    }
  }

  lemma ArchiveParts(contents: Contents, order: seq<Path>)
    requires Printable(contents, order)
    ensures
      var bytes := Archive(contents, order);
      var n := |order|;
      var blob := Blob(contents, order, n);
      && |bytes| == EntryStart(n) + |blob|
      && bytes[0..HEADER_SIZE] == Header(n, |bytes|)
      && bytes[HEADER_SIZE..EntryStart(n)] == Table(contents, order, n)
      && bytes[EntryStart(n)..] == blob
  {
    hide Header, Table, Blob;
  }

  /** What the builder promises of the paths it prints: each once, all valid. */
  ghost predicate Enumerates(order: seq<Path>, contents: Contents) {
    && (forall p :: p in contents <==> p in order)
    && (forall i, j | 0 <= i < j < |order| :: order[i] != order[j])
    && (forall p | p in contents :: PathIsValid(p))
  }

  function NodeFor(contents: Contents, order: seq<Path>, i: nat): Node
    requires i < |order| && Printable(contents, order)
  {
    if contents[order[i]].None? then Node(0, 0, true)
    else Node(EntryStart(|order|) + |Blob(contents, order, i)|, |DataOf(contents, order[i])|, false)
  }

  lemma EntryRoundTrip(contents: Contents, order: seq<Path>, i: nat)
    requires Printable(contents, order) && i < |order| && PathIsValid(order[i])
    requires |Archive(contents, order)| < TWO_64
    ensures EntryStart(i + 1) <= |Archive(contents, order)|
    ensures ParseEntry(Archive(contents, order), i) == Ok(Entry(order[i], NodeFor(contents, order, i)))
  {
    hide PathIsValid, Table, Blob, Header, Archive, ParseEntry, EntryBytes, Printable;
    var bytes := Archive(contents, order);
    var n := |order|;
    ArchiveParts(contents, order);
    TableEntry(contents, order, i, n);
    var table := Table(contents, order, n);
    assert HEADER_SIZE + |table| == EntryStart(n);
    SliceOfSlice(bytes, HEADER_SIZE, table, 144 * i, 144 * (i + 1));
    BlobPiece(contents, order, i, n);
    var node := NodeFor(contents, order, i);
    EntryParses(bytes, i, order[i], node.offset, node.len, node.isDirectory);
  }

  /** The bytes a file's node points at are the file's data. */
  lemma DataRoundTrip(contents: Contents, order: seq<Path>, i: nat)
    requires Printable(contents, order) && i < |order|
    ensures
      var bytes := Archive(contents, order);
      var node := NodeFor(contents, order, i);
      contents[order[i]].Some? ==>
        node.offset + node.len <= |bytes| && bytes[node.offset..node.offset + node.len] == contents[order[i]].value
  {
    hide Table, Blob, Header, Archive;
    var bytes := Archive(contents, order);
    var n := |order|;
    ArchiveParts(contents, order);
    BlobPiece(contents, order, i, n);
    var blob := Blob(contents, order, n);
    var node := NodeFor(contents, order, i);
    if contents[order[i]].Some? {
      assert bytes[EntryStart(n)..EntryStart(n) + |blob|] == blob;
      SliceOfSlice(bytes, EntryStart(n), blob, |Blob(contents, order, i)|, |Blob(contents, order, i)| + node.len);
    }
  }

  /** The mounted namespace is the printed one: same paths plus the root, same kinds, same bytes. */
  ghost predicate Faithful(nodes: map<Path, Node>, bytes: seq<Byte>, contents: Contents) {
    && nodes.Keys == contents.Keys + {ROOT}
    && nodes[ROOT].isDirectory == (ROOT in contents ==> contents[ROOT].None?)
    && forall p | p in contents ::
         && nodes[p].isDirectory == contents[p].None?
         && (contents[p].Some? ==>
               && nodes[p].offset + nodes[p].len <= |bytes|
               && bytes[nodes[p].offset..nodes[p].offset + nodes[p].len] == contents[p].value)
  }

  lemma TableRoundTrip(contents: Contents, order: seq<Path>)
    requires Enumerates(order, contents) && Printable(contents, order)
    requires |Archive(contents, order)| < TWO_64
    ensures EntryStart(|order|) <= |Archive(contents, order)|
    ensures
      var table := ParseTable(Archive(contents, order), |order|);
      && table.Ok? && table.value.Keys == contents.Keys
      && forall i: nat | i < |order| :: table.value[order[i]] == NodeFor(contents, order, i)
  {
    hide PathIsValid, Table, Blob, Header, Archive, ParseEntry, ParseTable, NodeFor, Printable, DataOf;
    var bytes := Archive(contents, order);
    var n := |order|;
    ArchiveParts(contents, order);
    forall i: nat | i < n
      ensures EntryStart(i + 1) <= |bytes| && ParseEntry(bytes, i) == Ok(Entry(order[i], NodeFor(contents, order, i)))
    {
      EntryRoundTrip(contents, order, i);
    }
    ParseTableIsExact(bytes, n);
    assert GoodTable(bytes, n);
    var nodes := ParseTable(bytes, n).value;
    forall p ensures p in nodes <==> p in contents {
      if p in contents {
        var i: nat :| i < n && order[i] == p;
        assert ParseEntry(bytes, i).value.path == p;
      }
    }
    forall i: nat | i < n ensures nodes[order[i]] == NodeFor(contents, order, i) {
      assert ParseEntry(bytes, i).value.path == order[i];
    }
  }

  lemma ArchiveMounts(contents: Contents, order: seq<Path>)
    requires Enumerates(order, contents) && Printable(contents, order)
    requires |order| < TWO_32 && |Archive(contents, order)| < TWO_64
    ensures Parse(Archive(contents, order)).Ok?
    ensures Faithful(Parse(Archive(contents, order)).value, Archive(contents, order), contents)
  {
    hide PathIsValid, Table, Blob, Header, Archive, ParseEntry, ParseTable, NodeFor, Printable, DataOf, ReadLittleEndian;
    var bytes := Archive(contents, order);
    ArchiveParts(contents, order);
    HeaderFields(bytes, |order|, |bytes|);
    TableRoundTrip(contents, order);
    var nodes := ParseTable(bytes, |order|).value;
    forall p | p in contents
      ensures nodes[p].isDirectory == contents[p].None?
      ensures contents[p].Some? ==>
                && nodes[p].offset + nodes[p].len <= |bytes|
                && bytes[nodes[p].offset..nodes[p].offset + nodes[p].len] == contents[p].value
    {
      var i: nat :| i < |order| && order[i] == p;
      DataRoundTrip(contents, order, i);
      KindOf(contents, order, i);
    }
  }

  lemma KindOf(contents: Contents, order: seq<Path>, i: nat)
    requires i < |order| && Printable(contents, order)
    ensures NodeFor(contents, order, i).isDirectory == contents[order[i]].None?
  {
  }
}
