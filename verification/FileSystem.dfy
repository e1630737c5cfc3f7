/** The read-only filesystem served out of a mounted archive (kernel/src/fs.rs). */
module FileSystem {
  import opened Options
  import opened Bytes
  import opened Paths
  import opened ArchiveFormat

  datatype Volume = Volume(nodes: map<Path, Node>, archive: seq<Byte>)

  /** What reading `want` bytes at `offset` of a node yields. */
  function ReadBytes(archive: seq<Byte>, node: Node, offset: nat, want: nat): seq<Byte> {
    if node.isDirectory || offset >= node.len then []
    else
      var n := if node.len - offset < want then node.len - offset else want;
      if node.offset + offset + n > |archive| then []
      else archive[node.offset + offset..node.offset + offset + n]
  }

  // --- Directory listing -----------------------------------------------------------------------

  function Prefix(dir: Path): Path {
    if dir == ROOT then ROOT else dir + [SLASH]
  }

  /** The prefix scan of `read_dir`: is `candidate` listed under `dir`? */
  predicate Listed(dir: Path, candidate: Path) {
    && candidate != dir
    && Prefix(dir) <= candidate
    && candidate[|Prefix(dir)|..] != []
    && SLASH !in candidate[|Prefix(dir)|..]
  }

  ghost function Listing(nodes: map<Path, Node>, dir: Path): set<Path> {
    set c | c in nodes && Listed(dir, c)
  }

  /** The scan agrees with the path algebra: a path is listed exactly in its parent. */
  lemma ListedIsParent(dir: Path, candidate: Path)
    requires PathIsValid(dir) && PathIsValid(candidate)
    ensures Listed(dir, candidate) <==> ParentOf(candidate) == Some(dir)
  {
    hide PathIsValid, ParentOf, GoodComponent;
    if Listed(dir, candidate) {
      var rest := candidate[|Prefix(dir)|..];
      assert candidate == Join(dir, rest);
      ValidIsNonempty(dir);
      ParentOfJoin(dir, rest);
    }
    if ParentOf(candidate) == Some(dir) {
      RootHasNoParent();
      ParentOfValid(candidate);
      assert candidate == Prefix(dir) + Basename(candidate);
      assert candidate[|Prefix(dir)|..] == Basename(candidate);
      ValidIsNonempty(candidate);
      GoodIsNonempty(Basename(candidate));
    }
  }

  lemma ValidIsNonempty(p: Path)
    requires PathIsValid(p)
    ensures p != []
  {
  }

  lemma GoodIsNonempty(c: Path)
    requires GoodComponent(c)
    ensures c != []
  {
  }

  lemma RootHasNoParent()
    ensures ParentOf(ROOT) == None
  {
  }

  /** Every path of a mounted namespace is valid, so `ListedIsParent` applies to all of them. */
  lemma MountedPathsValid(bytes: seq<Byte>)
    requires Parse(bytes).Ok?
    ensures forall p | p in Parse(bytes).value :: PathIsValid(p)
  {
    hide PathIsValid, ParseTable, FromLittleEndian;
    var count := ReadLittleEndian(bytes, 12, 4);
    ParseTableIsExact(bytes, count);
    var nodes := ParseTable(bytes, count).value;
    forall p | p in nodes ensures PathIsValid(p) {
      var i: nat :| i < count && ParseEntry(bytes, i).value.path == p;
    }
    RootIsValid();
  }

  lemma RootIsValid()
    ensures PathIsValid(ROOT)
  {
  }

  /** Directory listing agrees with path algebra, in every namespace the kernel can mount. */
  lemma ListingIsChildren(bytes: seq<Byte>, dir: Path)
    requires Parse(bytes).Ok? && dir in Parse(bytes).value
    ensures
      var nodes := Parse(bytes).value;
      Listing(nodes, dir) == set c | c in nodes && ParentOf(c) == Some(dir)
  {
    hide Parse, PathIsValid, ParentOf, Listed;
    MountedPathsValid(bytes);
    var nodes := Parse(bytes).value;
    forall c | c in nodes ensures Listed(dir, c) <==> ParentOf(c) == Some(dir) {
      ListedIsParent(dir, c);
    }
  }

  /** Reached from the root by `n` listings. */
  ghost predicate Reached(nodes: map<Path, Node>, p: Path, n: nat)
    decreases n
  {
    if n == 0 then p == ROOT
    else exists d :: d in nodes && nodes[d].isDirectory && Reached(nodes, d, n - 1) && p in Listing(nodes, d)
  }

  /** All paths valid, and every path's parent is there and is a directory. */
  ghost predicate Treelike(nodes: map<Path, Node>) {
    && (forall p | p in nodes :: PathIsValid(p))
    && forall p | p in nodes && p != ROOT ::
         ParentOf(p).Some? && ParentOf(p).value in nodes && nodes[ParentOf(p).value].isDirectory
  }

  /** In a tree of directories everything is found by listing from the root downwards. */
  lemma {:induction false} ReachedByListing(nodes: map<Path, Node>, p: Path) returns (n: nat)
    requires Treelike(nodes) && p in nodes
    ensures Reached(nodes, p, n)
    decreases |p|
  {
    hide PathIsValid, ParentOf, Listed, Basename, Join, GoodComponent;
    if p == ROOT {
      return 0;
    }
    var d := ParentOf(p).value;
    ParentOfValid(p);
    var m := ReachedByListing(nodes, d);
    ListedIsParent(d, p);
    n := m + 1;
  }

  // --- The filesystem object ---------------------------------------------------------------------

  class Fs {
    var mounted: Option<Volume>

    constructor ()
      ensures mounted.None?
    {
      mounted := None;
    }

    /** `mount`: everything is validated before anything is accepted. */
    method Mount(bytes: seq<Byte>) returns (r: Result<nat>)
      modifies this
      ensures match Parse(bytes)
              case Ok(nodes) => r == Ok(|nodes|) && mounted == Some(Volume(nodes, bytes))
              case Err(e) => r == Err(e) && mounted == old(mounted)
    {
      hide ParseEntry, FromLittleEndian;
      if |bytes| < HEADER_SIZE {
        return Err(TooSmall);
      }
      if bytes[0..8] != MAGIC {
        return Err(BadMagic);
      }
      var version := ReadLittleEndian(bytes, 8, 4);
      if version != VERSION {
        return Err(UnsupportedVersion(version));
      }
      var count := ReadLittleEndian(bytes, 12, 4);
      if EntryStart(count) > |bytes| {
        return Err(TooSmall);
      }
      var nodes: map<Path, Node> := map[];
      for index := 0 to count
        invariant mounted == old(mounted)
        invariant ParseTable(bytes, index) == Ok(nodes)
      {
        var entry := ParseEntry(bytes, index);
        if entry.Err? {
          TableStopsAt(bytes, index + 1, count);
          return Err(entry.error);
        }
        if entry.value.path in nodes {
          TableStopsAt(bytes, index + 1, count);
          return Err(DuplicatePath(index));
        }
        nodes := nodes[entry.value.path := entry.value.node];
      }
      if ROOT !in nodes {
        nodes := nodes[ROOT := Node(0, 0, true)];
      }
      mounted := Some(Volume(nodes, bytes));
      return Ok(|nodes|);
    }

    method Lookup(path: Path) returns (node: Option<Node>)
      ensures node == if mounted.Some? && path in mounted.value.nodes then Some(mounted.value.nodes[path]) else None
    {
      if mounted.Some? && path in mounted.value.nodes {
        return Some(mounted.value.nodes[path]);
      }
      return None;
    }

    /** `read`: copies into the front of `buf`, leaving the rest of it alone. */
    method Read(node: Node, offset: nat, buf: array<Byte>) returns (got: nat)
      modifies buf
      ensures
        var data := if mounted.None? then [] else ReadBytes(mounted.value.archive, node, offset, buf.Length);
        got == |data| <= buf.Length && buf[..got] == data && buf[got..] == old(buf[got..])
    {
      if node.isDirectory || offset >= node.len || mounted.None? {
        return 0;
      }
      var volume := mounted.value;
      var available := node.len - offset;
      var want := if available < buf.Length then available else buf.Length;
      var start := node.offset + offset;
      if start + want > |volume.archive| {
        return 0;
      }
      forall i | 0 <= i < want {
        buf[i] := volume.archive[start + i];
      }
      return want;
    }

    method ReadAll(path: Path) returns (data: Option<seq<Byte>>)
      ensures data.Some? <==> mounted.Some? && path in mounted.value.nodes && !mounted.value.nodes[path].isDirectory
      ensures data.Some? ==>
                var node := mounted.value.nodes[path];
                data.value == ReadBytes(mounted.value.archive, node, 0, node.len)
    {
      var node := Lookup(path);
      if node.None? || node.value.isDirectory {
        return None;
      }
      var buf := new Byte[node.value.len];
      var got := Read(node.value, 0, buf);
      return Some(buf[..got]);
    }

    /** `read_dir`: the keys come in whatever order the map yields them. */
    method ReadDir(path: Path) returns (children: Option<seq<Path>>)
      ensures children.Some? <==> mounted.Some? && path in mounted.value.nodes && mounted.value.nodes[path].isDirectory
      ensures children.Some? ==>
                && (forall c :: c in children.value <==> c in Listing(mounted.value.nodes, path))
                && (forall i, j | 0 <= i < j < |children.value| :: children.value[i] != children.value[j])
    {
      if mounted.None? || path !in mounted.value.nodes || !mounted.value.nodes[path].isDirectory {
        return None;
      }
      var nodes := mounted.value.nodes;
      var prefix := Prefix(path);
      var found: seq<Path> := [];
      var rest := nodes.Keys;
      while rest != {}
        invariant rest <= nodes.Keys
        invariant forall c :: c in found <==> c in Listing(nodes, path) && c !in rest
        invariant forall i, j | 0 <= i < j < |found| :: found[i] != found[j]
        decreases |rest|
      {
        var candidate :| candidate in rest;
        rest := rest - {candidate};
        if candidate != path && prefix <= candidate {
          var tail := candidate[|prefix|..];
          if tail != [] && SLASH !in tail {
            found := found + [candidate];
          }
        }
      }
      return Some(found);
    }
  }

  /** Once the table is bad it stays bad, with the same error. */
  lemma {:induction false} TableStopsAt(bytes: seq<Byte>, n: nat, count: nat)
    requires n <= count && EntryStart(count) <= |bytes| && ParseTable(bytes, n).Err?
    ensures ParseTable(bytes, count) == ParseTable(bytes, n)
  {
    if n < count {
      TableStopsAt(bytes, n, count - 1);
    }
  }
}
