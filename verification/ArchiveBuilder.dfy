/** The image builder's archive printer (runner/build.rs `build_archive`) and its round trip through
    the kernel's filesystem. */
module ArchiveBuilder {
  import opened Options
  import opened Bytes
  import opened Paths
  import opened ArchiveFormat
  import opened ArchiveRoundTrip
  import opened FileSystem

  datatype File = File(path: Path, data: seq<Byte>)

  lemma ParentIsShorter(p: Path)
    ensures ParentOf(p).Some? ==> |ParentOf(p).value| < |p|
  {
  }

  /** Every proper ancestor of a path. */
  function Ancestors(p: Path): set<Path>
    decreases |p|
  {
    ParentIsShorter(p);
    match ParentOf(p)
    case None => {}
    case Some(d) => {d} + Ancestors(d)
  }

  /** The root and every ancestor of every file. */
  function Directories(files: seq<File>): set<Path> {
    if files == [] then {ROOT} else Directories(files[..|files| - 1]) + Ancestors(files[|files| - 1].path)
  }

  function FilePaths(files: seq<File>): set<Path> {
    set f | f in files :: f.path
  }

  /** What the builder's assertions demand: valid paths, none given twice, none also a directory. */
  ghost predicate Accepted(files: seq<File>) {
    && (forall i | 0 <= i < |files| :: PathIsValid(files[i].path) && files[i].path !in Directories(files))
    && (forall i, j | 0 <= i < j < |files| :: files[i].path != files[j].path)
  }

  /** `contents` holds a directory for each of `dirs` and the first `n` files. */
  ghost predicate Holds(contents: Contents, dirs: set<Path>, files: seq<File>, n: nat)
    requires n <= |files|
  {
    && (forall p :: p in contents <==> p in dirs || p in FilePaths(files[..n]))
    && (forall p | p in dirs :: p in contents && contents[p] == None)
    && (forall i | 0 <= i < n :: files[i].path in contents && contents[files[i].path] == Some(files[i].data))
  }

  // --- The printer -----------------------------------------------------------------------------

  method CollectDirectories(files: seq<File>) returns (dirs: set<Path>)
    ensures dirs == Directories(files)
  {
    hide ParentOf;
    dirs := {ROOT};
    for i := 0 to |files|
      invariant dirs == Directories(files[..i])
    {
      var current := files[i].path;
      ghost var all := dirs + Ancestors(current);
      var up := ParentOf(current);
      while up.Some?
        invariant up == ParentOf(current) || (up.None? && Ancestors(current) == {})
        invariant dirs + Ancestors(current) == all
        decreases |current|, up.Some?
      {
        ParentIsShorter(current);
        dirs := dirs + {up.value};
        current := up.value;
        if current == ROOT {
          RootHasNoParent();
          up := None;
        } else {
          up := ParentOf(current);
        }
      }
      assert files[..i + 1][..i] == files[..i];
    }
    assert files[..|files|] == files;
  }

  lemma PathsOfPrefix(files: seq<File>, i: nat, p: Path)
    requires i <= |files|
    ensures p in FilePaths(files[..i]) <==> exists k | 0 <= k < i :: files[k].path == p
  {
    if p in FilePaths(files[..i]) {
      var f :| f in files[..i] && f.path == p;
      var k :| 0 <= k < i && files[..i][k] == f;
      assert files[k].path == p;
    }
    if k :| 0 <= k < i && files[k].path == p {
      assert files[..i][k] == files[k];
    }
  }

  lemma TakenIsRejected(held: Contents, dirs: set<Path>, files: seq<File>, i: nat)
    requires i < |files| && dirs == Directories(files) && Holds(held, dirs, files, i) && files[i].path in held
    ensures !Accepted(files)
  {
    hide PathIsValid, Directories;
    PathsOfPrefix(files, i, files[i].path);
  }

  lemma HoldsStart(held: Contents, dirs: set<Path>, files: seq<File>)
    requires held == map p | p in dirs :: None
    ensures Holds(held, dirs, files, 0)
  {
  }

  lemma HoldsNext(held: Contents, dirs: set<Path>, files: seq<File>, i: nat)
    requires i < |files| && Holds(held, dirs, files, i) && files[i].path !in held
    ensures Holds(held[files[i].path := Some(files[i].data)], dirs, files, i + 1)
    ensures forall k | 0 <= k < i :: files[k].path != files[i].path
    ensures files[i].path !in dirs
  {
    hide FilePaths;
    forall p ensures p in FilePaths(files[..i + 1]) <==> p in FilePaths(files[..i]) || p == files[i].path {
      PathsOfPrefix(files, i, p);
      PathsOfPrefix(files, i + 1, p);
    }
  }

  /** `None` stands for a failed assertion, which stops the build. */
  method CollectContents(files: seq<File>, dirs: set<Path>) returns (contents: Option<Contents>)
    requires dirs == Directories(files)
    ensures contents.Some? <==> Accepted(files)
    ensures contents.Some? ==> Holds(contents.value, dirs, files, |files|)
  {
    hide PathIsValid, Directories, Holds;
    var held: Contents := map p | p in dirs :: None;
    HoldsStart(held, dirs, files);
    for i := 0 to |files|
      invariant Holds(held, dirs, files, i)
      invariant forall k | 0 <= k < i :: PathIsValid(files[k].path) && files[k].path !in dirs
      invariant forall k, j | 0 <= k < j < i :: files[k].path != files[j].path
    {
      var file := files[i];
      if !PathIsValid(file.path) {
        return None;
      }
      if file.path in held {
        TakenIsRejected(held, dirs, files, i);
        return None;
      }
      HoldsNext(held, dirs, files, i);
      held := held[file.path := Some(file.data)];
    }
    return Some(held);
  }

  /** The keys of a map, each once, in the map's iteration order (which is left open). */
  method KeysInOrder(contents: Contents) returns (order: seq<Path>)
    ensures forall p :: p in contents <==> p in order
    ensures forall i, j | 0 <= i < j < |order| :: order[i] != order[j]
  {
    order := [];
    var rest := contents.Keys;
    while rest != {}
      invariant rest <= contents.Keys
      invariant forall p :: p in order <==> p in contents && p !in rest
      invariant forall i, j | 0 <= i < j < |order| :: order[i] != order[j]
      decreases |rest|
    {
      var p :| p in rest;
      rest := rest - {p};
      order := order + [p];
    }
  }

  /** First pass: lay the data out, so that every offset is known before the table is written. */
  method LayOut(contents: Contents, order: seq<Path>) returns (blob: seq<Byte>, offsets: seq<nat>)
    requires Printable(contents, order)
    ensures blob == Blob(contents, order, |order|) && |offsets| == |order|
    ensures forall k: nat | k < |order| :: offsets[k] == OffsetFor(contents, order, k)
  {
    hide DataOf;
    blob, offsets := [], [];
    for i := 0 to |order|
      invariant blob == Blob(contents, order, i) && |offsets| == i
      invariant forall k: nat | k < i :: offsets[k] == OffsetFor(contents, order, k)
    {
      var data := PieceOf(contents, order[i]);
      offsets := offsets + [if contents[order[i]].Some? then EntryStart(|order|) + |blob| else 0];
      blob := blob + data;
    }
  }

  function OffsetFor(contents: Contents, order: seq<Path>, k: nat): nat
    requires k < |order| && Printable(contents, order)
  {
    if contents[order[k]].Some? then EntryStart(|order|) + |Blob(contents, order, k)| else 0
  }

  method PieceOf(contents: Contents, path: Path) returns (data: seq<Byte>)
    requires path in contents
    ensures data == DataOf(contents, path)
  {
    match contents[path]
    case Some(bytes) => data := bytes;
    case None => data := [];
  }

  method Print(contents: Contents, order: seq<Path>) returns (archive: seq<Byte>)
    requires Printable(contents, order)
    ensures archive == Archive(contents, order)
  {
    hide EntryBytes, Header, ToLittleEndian, Blob, Printable, OffsetFor, EntryFor;
    var count := |order|;
    var blob, offsets := LayOut(contents, order);
    var total := EntryStart(count) + |blob|;
    var table: seq<Byte> := [];
    for i := 0 to count
      invariant table == Table(contents, order, i)
    {
      var entry := PrintEntry(contents, order, i, offsets[i]);
      table := table + entry;
    }
    archive := Header(count, total) + table + blob;
  }

  method PrintEntry(contents: Contents, order: seq<Path>, i: nat, offset: nat) returns (entry: seq<Byte>)
    requires Printable(contents, order) && i < |order|
    requires offset == OffsetFor(contents, order, i)
    ensures entry == EntryFor(contents, order, i)
  {
    hide EntryBytes;
    var directory := contents[order[i]].None?;
    var len := if directory then 0 else |contents[order[i]].value|;
    entry := EntryBytes(order[i], offset, len, directory);
  }

  /** `build_archive`. */
  method BuildArchive(files: seq<File>) returns (archive: Option<seq<Byte>>, ghost contents: Contents, ghost order: seq<Path>)
    ensures archive.Some? <==> Accepted(files)
    ensures archive.Some? ==>
              && Holds(contents, Directories(files), files, |files|)
              && Enumerates(order, contents) && Printable(contents, order)
              && archive.value == Archive(contents, order)
  {
    hide PathIsValid, Archive;
    contents, order := map[], [];
    var dirs := CollectDirectories(files);
    var held := CollectContents(files, dirs);
    if held.None? {
      return None, contents, order;
    }
    var keys := KeysInOrder(held.value);
    AllValid(held.value, files);
    assert Printable(held.value, keys) by { ValidFits(held.value); }
    var bytes := Print(held.value, keys);
    return Some(bytes), held.value, keys;
  }

  // --- What was printed ------------------------------------------------------------------------

  lemma {:induction false} AncestorsValid(p: Path)
    requires PathIsValid(p)
    ensures forall d | d in Ancestors(p) :: PathIsValid(d)
    ensures forall d | d in Ancestors(p) && d != ROOT :: ParentOf(d).Some? && ParentOf(d).value in Ancestors(p)
    ensures p != ROOT ==> ParentOf(p).Some? && ParentOf(p).value in Ancestors(p)
    decreases |p|
  {
    hide PathIsValid, ParentOf, Basename, Join, GoodComponent;
    if p == ROOT {
      RootHasNoParent();
    } else {
      ParentOfValid(p);
      AncestorsValid(ParentOf(p).value);
    }
  }

  lemma {:induction false} DirectoriesValid(files: seq<File>)
    requires forall i | 0 <= i < |files| :: PathIsValid(files[i].path)
    ensures forall d | d in Directories(files) :: PathIsValid(d)
    ensures forall d | d in Directories(files) && d != ROOT :: ParentOf(d).Some? && ParentOf(d).value in Directories(files)
    ensures forall i | 0 <= i < |files| :: files[i].path != ROOT ==>
              ParentOf(files[i].path).Some? && ParentOf(files[i].path).value in Directories(files)
    ensures ROOT in Directories(files)
  {
    if files == [] {
      RootIsValid();
    } else {
      hide PathIsValid, ParentOf, Ancestors;
      var before := files[..|files| - 1];
      DirectoriesValid(before);
      AncestorsValid(files[|files| - 1].path);
      forall i | 0 <= i < |files| && files[i].path != ROOT
        ensures ParentOf(files[i].path).Some? && ParentOf(files[i].path).value in Directories(files)
      {
        if i < |files| - 1 {
          assert before[i] == files[i];
        }
      }
    }
  }

  lemma AllValid(contents: Contents, files: seq<File>)
    requires Accepted(files) && Holds(contents, Directories(files), files, |files|)
    ensures forall p | p in contents :: PathIsValid(p)
  {
    hide PathIsValid, ParentOf, Directories;
    DirectoriesValid(files);
    assert files[..|files|] == files;
    forall p | p in FilePaths(files) ensures PathIsValid(p) {
      var f :| f in files && f.path == p;
      var i :| 0 <= i < |files| && files[i] == f;
      assert PathIsValid(files[i].path);
    }
  }

  lemma ValidFits(contents: Contents)
    requires forall p | p in contents :: PathIsValid(p)
    ensures forall p | p in contents :: |p| <= MAX_PATH
  {
    forall p | p in contents ensures |p| <= MAX_PATH {
      PathFits(p);
    }
  }

  /** Every file the builder accepted is under directories the builder made. */
  lemma BuiltIsTree(files: seq<File>, contents: Contents, nodes: map<Path, Node>, bytes: seq<Byte>)
    requires Accepted(files) && Holds(contents, Directories(files), files, |files|)
    requires Faithful(nodes, bytes, contents)
    ensures Treelike(nodes)
  {
    hide PathIsValid, ParentOf, Directories;
    DirectoriesValid(files);
    AllValid(contents, files);
    assert files[..|files|] == files;
    forall p | p in nodes && p != ROOT
      ensures ParentOf(p).Some? && ParentOf(p).value in nodes && nodes[ParentOf(p).value].isDirectory
    {
      if p !in Directories(files) {
        var f :| f in files && f.path == p;
        var i :| 0 <= i < |files| && files[i] == f;
        assert files[i].path == p;
      }
      assert ParentOf(p).value in Directories(files);
    }
  }

  // --- How large an archive is --------------------------------------------------------------------

  /** The bytes of those files whose paths are in `keep`. */
  function DataSize(files: seq<File>, keep: set<Path>): nat {
    if files == [] then 0
    else
      var last := files[|files| - 1];
      DataSize(files[..|files| - 1], keep) + if last.path in keep then |last.data| else 0
  }

  function EntryCount(files: seq<File>): nat {
    |Directories(files) + FilePaths(files)|
  }

  /** Header, one entry for each directory and file, and the files' bytes. */
  function ArchiveSize(files: seq<File>): nat {
    EntryStart(EntryCount(files)) + DataSize(files, FilePaths(files))
  }

  /** The count and the size fit the fields that store them. */
  predicate Storable(files: seq<File>) {
    EntryCount(files) < TWO_32 && ArchiveSize(files) < TWO_64
  }

  lemma {:induction false} DataSizeOther(files: seq<File>, keep: set<Path>, p: Path)
    requires forall i | 0 <= i < |files| :: files[i].path != p
    ensures DataSize(files, keep + {p}) == DataSize(files, keep)
    decreases |files|
  {
    if files != [] {
      DataSizeOther(files[..|files| - 1], keep, p);
    }
  }

  lemma {:induction false} DataSizeFile(files: seq<File>, keep: set<Path>, k: nat)
    requires k < |files| && files[k].path !in keep && forall i, j | 0 <= i < j < |files| :: files[i].path != files[j].path
    ensures DataSize(files, keep + {files[k].path}) == DataSize(files, keep) + |files[k].data|
    decreases |files|
  {
    var n := |files| - 1;
    if k < n {
      assert files[..n][k] == files[k];
      DataSizeFile(files[..n], keep, k);
    } else {
      DataSizeOther(files[..n], keep, files[k].path);
    }
  }

  lemma {:induction false} DataSizeSame(files: seq<File>, few: set<Path>, many: set<Path>)
    requires forall i | 0 <= i < |files| :: files[i].path in few <==> files[i].path in many
    ensures DataSize(files, few) == DataSize(files, many)
    decreases |files|
  {
    if files != [] {
      var n := |files| - 1;
      DataSizeSame(files[..n], few, many);
      assert files[n].path in few <==> files[n].path in many;
    }
  }

  function PathsUpTo(order: seq<Path>, n: nat): set<Path>
    requires n <= |order|
  {
    set k: nat | k < n :: order[k]
  }

  lemma {:induction false} NothingKept(files: seq<File>)
    ensures DataSize(files, {}) == 0
    decreases |files|
  {
    if files != [] {
      NothingKept(files[..|files| - 1]);
    }
  }

  /** One more path adds its own data. */
  lemma OnePiece(files: seq<File>, contents: Contents, keep: set<Path>, p: Path)
    requires Accepted(files) && Holds(contents, Directories(files), files, |files|) && p in contents && p !in keep
    ensures DataSize(files, keep + {p}) == DataSize(files, keep) + |DataOf(contents, p)|
  {
    hide PathIsValid, Directories, FilePaths;
    assert files[..|files|] == files;
    PathsOfPrefix(files, |files|, p);
    if k :| 0 <= k < |files| && files[k].path == p {
      DataSizeFile(files, keep, k);
    } else {
      DataSizeOther(files, keep, p);
    }
  }

  lemma {:induction false} BlobSize(files: seq<File>, contents: Contents, order: seq<Path>, n: nat)
    requires Accepted(files) && Holds(contents, Directories(files), files, |files|) && Enumerates(order, contents)
    requires Printable(contents, order) && n <= |order|
    ensures |Blob(contents, order, n)| == DataSize(files, PathsUpTo(order, n))
  {
    hide PathIsValid, Directories, Holds, Accepted, DataSize, DataOf;
    if n == 0 {
      NothingKept(files);
      assert PathsUpTo(order, 0) == {};
    } else {
      var p, keep := order[n - 1], PathsUpTo(order, n - 1);
      BlobSize(files, contents, order, n - 1);
      assert PathsUpTo(order, n) == keep + {p};
      assert p in order;
      OnePiece(files, contents, keep, p);
    }
  }

  lemma OrderIsAll(files: seq<File>, contents: Contents, order: seq<Path>)
    requires Holds(contents, Directories(files), files, |files|) && Enumerates(order, contents)
    ensures PathsUpTo(order, |order|) == Directories(files) + FilePaths(files)
  {
    hide PathIsValid, Directories, FilePaths;
    assert files[..|files|] == files;
    forall p ensures p in PathsUpTo(order, |order|) <==> p in Directories(files) + FilePaths(files) {
      assert p in order <==> p in contents;
    }
  }

  lemma ArchiveLength(contents: Contents, order: seq<Path>)
    requires Printable(contents, order)
    ensures |Archive(contents, order)| == EntryStart(|order|) + |Blob(contents, order, |order|)|
  {
    hide Blob, Table, Header;
  }

  lemma {:induction false} CountDistinct(order: seq<Path>, n: nat)
    requires n <= |order| && forall i, j | 0 <= i < j < |order| :: order[i] != order[j]
    ensures |PathsUpTo(order, n)| == n
  {
    if n == 0 {
      assert PathsUpTo(order, 0) == {};
    } else {
      CountDistinct(order, n - 1);
      assert PathsUpTo(order, n) == PathsUpTo(order, n - 1) + {order[n - 1]};
    }
  }

  /** The archive's size is known from the files alone. */
  lemma BuiltSize(files: seq<File>, contents: Contents, order: seq<Path>)
    requires Accepted(files) && Holds(contents, Directories(files), files, |files|)
    requires Enumerates(order, contents) && Printable(contents, order)
    ensures |order| == EntryCount(files) && |Archive(contents, order)| == ArchiveSize(files)
  {
    hide PathIsValid, Directories, Holds, Accepted, Archive, Blob, DataSize, PathsUpTo;
    var all := PathsUpTo(order, |order|);
    OrderIsAll(files, contents, order);
    CountDistinct(order, |order|);
    BlobSize(files, contents, order, |order|);
    ArchiveLength(contents, order);
    forall i | 0 <= i < |files| ensures files[i].path in FilePaths(files) {
      assert files[i] in files;
    }
    DataSizeSame(files, all, FilePaths(files));
  }

  /** Archive round trip: the mounted namespace is exactly the files, their ancestors and the root;
      every file reads back whole; every path is found by listing from the root. The size limits are
      those of the format's own 32-bit count and 64-bit offsets. */
  lemma RoundTrip(files: seq<File>, contents: Contents, order: seq<Path>)
    requires Accepted(files) && Holds(contents, Directories(files), files, |files|)
    requires Enumerates(order, contents) && Printable(contents, order) && Storable(files)
    ensures Parse(Archive(contents, order)).Ok?
    ensures
      var bytes := Archive(contents, order);
      var nodes := Parse(bytes).value;
      && nodes.Keys == Directories(files) + FilePaths(files)
      && (forall d | d in Directories(files) :: nodes[d].isDirectory)
      && (forall i | 0 <= i < |files| ::
            var node := nodes[files[i].path];
            !node.isDirectory && ReadBytes(bytes, node, 0, node.len) == files[i].data)
      && Treelike(nodes)
  {
    hide PathIsValid, ParentOf, Directories, Archive, Parse, Treelike, Printable, Enumerates, Faithful, Holds, ReadBytes;
    var bytes := Archive(contents, order);
    BuiltSize(files, contents, order);
    ArchiveMounts(contents, order);
    var nodes := Parse(bytes).value;
    BuiltIsTree(files, contents, nodes, bytes);
    BuiltKeys(files, contents, nodes, bytes);
    forall i | 0 <= i < |files|
      ensures files[i].path in nodes
      ensures
        var node := nodes[files[i].path];
        !node.isDirectory && ReadBytes(bytes, node, 0, node.len) == files[i].data
    {
      FileReadsBack(files, contents, nodes, bytes, i);
    }
  }

  lemma BuiltKeys(files: seq<File>, contents: Contents, nodes: map<Path, Node>, bytes: seq<Byte>)
    requires Holds(contents, Directories(files), files, |files|) && Faithful(nodes, bytes, contents)
    ensures nodes.Keys == Directories(files) + FilePaths(files)
    ensures forall d | d in Directories(files) :: nodes[d].isDirectory
  {
    hide Directories;
    RootIsDirectory(files);
    assert files[..|files|] == files;
    assert contents.Keys == Directories(files) + FilePaths(files);
  }

  lemma FileReadsBack(files: seq<File>, contents: Contents, nodes: map<Path, Node>, bytes: seq<Byte>, i: nat)
    requires i < |files| && Holds(contents, Directories(files), files, |files|) && Faithful(nodes, bytes, contents)
    ensures files[i].path in nodes
    ensures
      var node := nodes[files[i].path];
      !node.isDirectory && ReadBytes(bytes, node, 0, node.len) == files[i].data
  {
    hide Directories, FilePaths;
    assert files[i].path in contents;
  }

  lemma {:induction false} RootIsDirectory(files: seq<File>)
    ensures ROOT in Directories(files)
  {
    if files != [] {
      RootIsDirectory(files[..|files| - 1]);
    }
  }

  /** The same through the code on both sides: build an archive, mount it, read a file. */
  method BuildMountRead(files: seq<File>, i: nat) returns (data: Option<seq<Byte>>)
    requires Accepted(files) && i < |files|
    ensures Storable(files) ==> data == Some(files[i].data)
  {
    hide PathIsValid, ParentOf, Directories, Archive, Parse, Treelike, Printable, Enumerates, Storable;
    ghost var contents, order;
    var archive;
    archive, contents, order := BuildArchive(files);
    var fs := new Fs();
    var mounted := fs.Mount(archive.value);
    if Storable(files) {
      RoundTrip(files, contents, order);
      assert files[i].path in FilePaths(files);
    }
    data := fs.ReadAll(files[i].path);
  }
}
