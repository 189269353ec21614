/**
 The accepted-tree builder (src/runtime/git-object-writer.ts): nested trees that keep insertion order,
 the tree id computed from their sorted records, and when and what they hold.
 */
module TreeBuilder {
  import opened Prelude
  import opened Sorting

  type Path = seq<string>

  datatype File = File(executable: bool, sha: string)
  datatype FileEntry = FileEntry(name: string, file: File)
  datatype DirEntry = DirEntry(name: string, node: Node)

  /** A directory: its files and subdirectories, each in insertion order. */
  datatype Node = Node(files: seq<FileEntry>, dirs: seq<DirEntry>)

  const Empty := Node([], [])

  function FindFile(files: seq<FileEntry>, name: string): Option<File> {
    if files == [] then None else if files[0].name == name then Some(files[0].file) else FindFile(files[1..], name)
  }

  function FindDir(dirs: seq<DirEntry>, name: string): (r: Option<Node>)
    ensures r.Some? ==> DirEntry(name, r.value) in dirs
  {
    if dirs == [] then None else if dirs[0].name == name then Some(dirs[0].node) else FindDir(dirs[1..], name)
  }

  /** `directories.set(name, node)`: in place when present, else appended. */
  function SetDir(dirs: seq<DirEntry>, name: string, node: Node): seq<DirEntry> {
    if dirs == [] then [DirEntry(name, node)]
    else if dirs[0].name == name then [DirEntry(name, node)] + dirs[1..]
    else [dirs[0]] + SetDir(dirs[1..], name, node)
  }

  /** `insert`: none on a file/directory collision or a duplicate. */
  function Insert(n: Node, path: Path, f: File): Option<Node>
    requires path != []
    decreases |path|
  {
    var name := path[0];
    if |path| == 1 then
      if FindDir(n.dirs, name).Some? || FindFile(n.files, name).Some? then None
      else Some(n.(files := n.files + [FileEntry(name, f)]))
    else if FindFile(n.files, name).Some? then None
    else
      var child := FindDir(n.dirs, name);
      match Insert(if child.Some? then child.value else Empty, path[1..], f)
      case None => None
      case Some(below) => Some(n.(dirs := SetDir(n.dirs, name, below)))
  }

  /** The file stored at a path. */
  function Lookup(n: Node, path: Path): Option<File>
    decreases |path|
  {
    if path == [] then None
    else if |path| == 1 then FindFile(n.files, path[0])
    else match FindDir(n.dirs, path[0]) case None => None case Some(child) => Lookup(child, path[1..])
  }

  datatype Blob = Blob(path: Path, file: File)

  function Build(blobs: seq<Blob>): Option<Node>
    requires forall i | 0 <= i < |blobs| :: blobs[i].path != []
  {
    if blobs == [] then Some(Empty)
    else
      match Build(blobs[..|blobs| - 1])
      case None => None
      case Some(n) => Insert(n, blobs[|blobs| - 1].path, blobs[|blobs| - 1].file)
  }

  // ---- Well-formed trees -----------------------------------------------------------

  ghost predicate DistinctFiles(files: seq<FileEntry>) { forall i, j | 0 <= i < j < |files| :: files[i].name != files[j].name }
  ghost predicate DistinctDirs(dirs: seq<DirEntry>) { forall i, j | 0 <= i < j < |dirs| :: dirs[i].name != dirs[j].name }

  /** Names are used once, and no subdirectory is empty. */
  ghost predicate WellFormed(n: Node) {
    && DistinctFiles(n.files) && DistinctDirs(n.dirs)
    && (forall i, j | 0 <= i < |n.files| && 0 <= j < |n.dirs| :: n.files[i].name != n.dirs[j].name)
    && (forall i | 0 <= i < |n.dirs| :: n.dirs[i].node != Empty && WellFormed(n.dirs[i].node))
  }

  lemma {:induction false} FileFound(files: seq<FileEntry>, name: string)
    requires DistinctFiles(files)
    ensures FindFile(files, name).None? <==> forall i | 0 <= i < |files| :: files[i].name != name
    ensures forall i | 0 <= i < |files| :: FindFile(files, files[i].name) == Some(files[i].file)
  {
    if files != [] {
      FileFound(files[1..], name);
      forall i | 0 < i < |files| ensures FindFile(files, files[i].name) == Some(files[i].file) {
        FileFound(files[1..], files[i].name);
        assert files[i] == files[1..][i - 1];
      }
      assert forall i | 0 < i < |files| :: files[i] == files[1..][i - 1];
    }
  }

  lemma {:induction false} DirFound(dirs: seq<DirEntry>, name: string)
    requires DistinctDirs(dirs)
    ensures FindDir(dirs, name).None? <==> forall i | 0 <= i < |dirs| :: dirs[i].name != name
    ensures forall i | 0 <= i < |dirs| :: FindDir(dirs, dirs[i].name) == Some(dirs[i].node)
  {
    if dirs != [] {
      DirFound(dirs[1..], name);
      forall i | 0 < i < |dirs| ensures FindDir(dirs, dirs[i].name) == Some(dirs[i].node) {
        DirFound(dirs[1..], dirs[i].name);
        assert dirs[i] == dirs[1..][i - 1];
      }
      assert forall i | 0 < i < |dirs| :: dirs[i] == dirs[1..][i - 1];
    }
  }

  lemma {:induction false} FindAfterSet(dirs: seq<DirEntry>, name: string, node: Node, other: string)
    ensures FindDir(SetDir(dirs, name, node), other) == if other == name then Some(node) else FindDir(dirs, other)
  {
    if dirs != [] && dirs[0].name != name {
      FindAfterSet(dirs[1..], name, node, other);
    }
  }

  lemma {:induction false} SetMembers(dirs: seq<DirEntry>, name: string, node: Node)
    requires DistinctDirs(dirs)
    ensures DistinctDirs(SetDir(dirs, name, node))
    ensures forall i | 0 <= i < |SetDir(dirs, name, node)| ::
              SetDir(dirs, name, node)[i] == DirEntry(name, node) || SetDir(dirs, name, node)[i] in dirs
  {
    if dirs != [] && dirs[0].name != name {
      SetMembers(dirs[1..], name, node);
      var rest := SetDir(dirs[1..], name, node);
      forall i | 0 <= i < |rest|
        ensures rest[i].name != dirs[0].name && (rest[i] == DirEntry(name, node) || rest[i] in dirs)
      {
        if rest[i] in dirs[1..] {
          var j :| 0 <= j < |dirs[1..]| && dirs[1..][j] == rest[i];
          assert dirs[j + 1] == rest[i];
        }
      }
    }
  }

  /** A tree with anything in it holds a file somewhere. */
  lemma {:induction false} HoldsFile(n: Node) returns (path: Path)
    requires WellFormed(n) && n != Empty
    ensures path != [] && Lookup(n, path).Some?
  {
    if n.files != [] {
      FileFound(n.files, n.files[0].name);
      path := [n.files[0].name];
    } else {
      var below := HoldsFile(n.dirs[0].node);
      DirFound(n.dirs, n.dirs[0].name);
      path := [n.dirs[0].name] + below;
      assert path[1..] == below;
    }
  }

  // ---- One insertion ---------------------------------------------------------------

  /** One path is the other, or lies above it. */
  predicate Collides(a: Path, b: Path) { a <= b || b <= a }

  ghost predicate Blocked(n: Node, path: Path) {
    exists q: Path :: Lookup(n, q).Some? && Collides(q, path)
  }

  lemma InsertLookup(n: Node, path: Path, f: File, q: Path)
    requires path != [] && Insert(n, path, f).Some?
    ensures Lookup(Insert(n, path, f).value, q) == if q == path then Some(f) else Lookup(n, q)
    decreases |path|
  {
    if q == [] {
    } else if |path| == 1 {
      FindFileAppend(n.files, FileEntry(path[0], f), q[0]);
      assert |q| == 1 && q[0] == path[0] ==> q == path;
    } else {
      var child := FindDir(n.dirs, path[0]);
      var sub := if child.Some? then child.value else Empty;
      FindAfterSet(n.dirs, path[0], Insert(sub, path[1..], f).value, q[0]);
      if |q| > 1 && q[0] == path[0] {
        InsertLookup(sub, path[1..], f, q[1..]);
        assert q == [q[0]] + q[1..] && path == [path[0]] + path[1..];
        EmptyLookup(q[1..]);
      }
    }
  }

  /** One level of an insertion. */
  lemma InsertUnfolds(n: Node, path: Path, f: File)
    requires path != []
    ensures var name := path[0];
            var child := FindDir(n.dirs, name);
            Insert(n, path, f) ==
              if FindFile(n.files, name).Some? then None
              else if |path| == 1 then if child.Some? then None else Some(n.(files := n.files + [FileEntry(name, f)]))
              else
                var below := Insert(if child.Some? then child.value else Empty, path[1..], f);
                if below.None? then None else Some(n.(dirs := SetDir(n.dirs, name, below.value)))
  {
  }

  /** An empty tree takes any file. */
  lemma EmptyTakes(path: Path, f: File)
    requires path != []
    ensures Insert(Empty, path, f).Some?
    decreases |path|
  {
    if |path| > 1 { EmptyTakes(path[1..], f); }
  }

  lemma EmptyLookup(q: Path)
    ensures Lookup(Empty, q).None?
  {
  }

  lemma {:induction false} FindFileAppend(files: seq<FileEntry>, e: FileEntry, name: string)
    ensures FindFile(files + [e], name) ==
            if FindFile(files, name).Some? then FindFile(files, name) else if e.name == name then Some(e.file) else None
  {
    if files == [] {
      assert files + [e] == [e];
    } else {
      FindFileAppend(files[1..], e, name);
      assert (files + [e])[1..] == files[1..] + [e];
    }
  }

  lemma InsertWellFormed(n: Node, path: Path, f: File)
    requires path != [] && WellFormed(n) && Insert(n, path, f).Some?
    ensures WellFormed(Insert(n, path, f).value) && Insert(n, path, f).value != Empty
    decreases |path|
  {
    FileFound(n.files, path[0]);
    DirFound(n.dirs, path[0]);
    if |path| > 1 {
      var child := FindDir(n.dirs, path[0]);
      var sub := if child.Some? then child.value else Empty;
      InsertWellFormed(sub, path[1..], f);
      SetMembers(n.dirs, path[0], Insert(sub, path[1..], f).value);
    }
  }

  /** An insertion is refused exactly when a stored path is, contains, or lies below the new one. */
  lemma InsertBlocked(n: Node, path: Path, f: File)
    requires path != [] && WellFormed(n)
    ensures Insert(n, path, f).None? <==> Blocked(n, path)
    decreases |path|
  {
    if Insert(n, path, f).None? {
      RefusalCollides(n, path, f);
    } else {
      forall q: Path | Lookup(n, q).Some?
        ensures !Collides(q, path)
      {
        StoredApart(n, path, f, q);
      }
    }
  }

  lemma RefusalCollides(n: Node, path: Path, f: File)
    requires path != [] && WellFormed(n) && Insert(n, path, f).None?
    ensures Blocked(n, path)
    decreases |path|
  {
    var name := path[0];
    if FindFile(n.files, name).Some? {
      assert Lookup(n, [name]).Some? && [name] <= path;
    } else if |path| == 1 {
      var child := FindDir(n.dirs, name).value;
      var below := HoldsFile(child);
      var q := [name] + below;
      assert q[1..] == below;
      assert Lookup(n, q).Some? && path <= q;
    } else {
      var child := FindDir(n.dirs, name);
      var sub := if child.Some? then child.value else Empty;
      RefusalCollides(sub, path[1..], f);
      var below: Path :| Lookup(sub, below).Some? && Collides(below, path[1..]);
      EmptyLookup(below);
      var q := [name] + below;
      assert q[1..] == below && path == [name] + path[1..];
      assert Lookup(n, q).Some? && Collides(q, path);
    }
  }

  lemma StoredApart(n: Node, path: Path, f: File, q: Path)
    requires path != [] && WellFormed(n) && Insert(n, path, f).Some? && Lookup(n, q).Some?
    ensures !Collides(q, path)
    decreases |path|
  {
    if q[0] == path[0] && |q| > 1 && |path| > 1 {
      var sub := FindDir(n.dirs, path[0]).value;
      StoredApart(sub, path[1..], f, q[1..]);
      assert q == [q[0]] + q[1..] && path == [path[0]] + path[1..];
    }
  }

  // ---- The whole tree --------------------------------------------------------------

  ghost predicate NonEmptyPaths(blobs: seq<Blob>) { forall i | 0 <= i < |blobs| :: blobs[i].path != [] }

  /** No path equals, or is a segment-wise prefix of, another. */
  ghost predicate PrefixFree(blobs: seq<Blob>) {
    forall i, j | 0 <= i < j < |blobs| :: !Collides(blobs[i].path, blobs[j].path)
  }

  /** The tree holds exactly these blobs. */
  ghost predicate Holds(n: Node, blobs: seq<Blob>) {
    forall q: Path, f: File :: Lookup(n, q) == Some(f) <==> Blob(q, f) in blobs
  }

  lemma {:induction false} BuildExact(blobs: seq<Blob>)
    requires NonEmptyPaths(blobs)
    ensures Build(blobs).Some? <==> PrefixFree(blobs)
    ensures Build(blobs).Some? ==> WellFormed(Build(blobs).value) && Holds(Build(blobs).value, blobs)
  {
    if blobs == [] {
      forall q: Path ensures Lookup(Empty, q).None? { EmptyLookup(q); }
    } else {
      var before, last := blobs[..|blobs| - 1], blobs[|blobs| - 1];
      assert blobs == before + [last];
      BuildExact(before);
      if Build(before).Some? {
        InsertExact(Build(before).value, before, last);
      }
    }
  }

  lemma InsertExact(n: Node, before: seq<Blob>, last: Blob)
    requires WellFormed(n) && Holds(n, before) && last.path != [] && PrefixFree(before)
    ensures Insert(n, last.path, last.file).Some? <==> PrefixFree(before + [last])
    ensures Insert(n, last.path, last.file).Some? ==>
              WellFormed(Insert(n, last.path, last.file).value) && Holds(Insert(n, last.path, last.file).value, before + [last])
  {
    InsertBlocked(n, last.path, last.file);
    BlockedMeansCollision(n, before, last.path);
    PrefixFreeGrows(before, last);
    if Insert(n, last.path, last.file).Some? {
      InsertWellFormed(n, last.path, last.file);
      assert Collides(last.path, last.path) && Lookup(n, last.path).None?;
      forall q: Path, f: File
        ensures Lookup(Insert(n, last.path, last.file).value, q) == Some(f) <==> Blob(q, f) in before + [last]
      {
        InsertLookup(n, last.path, last.file, q);
      }
    }
  }

  lemma PrefixFreeGrows(before: seq<Blob>, last: Blob)
    ensures PrefixFree(before + [last]) <==>
              PrefixFree(before) && !exists i | 0 <= i < |before| :: Collides(before[i].path, last.path)
  {
    var all := before + [last];
    assert forall i | 0 <= i < |before| :: all[i] == before[i];
    assert all[|before|] == last;
    if PrefixFree(all) {
      forall i | 0 <= i < |before| ensures !Collides(before[i].path, last.path) {
        assert !Collides(all[i].path, all[|before|].path);
      }
    }
  }

  lemma BlockedMeansCollision(n: Node, blobs: seq<Blob>, path: Path)
    requires Holds(n, blobs)
    ensures Blocked(n, path) <==> exists i | 0 <= i < |blobs| :: Collides(blobs[i].path, path)
  {
    if Blocked(n, path) {
      var q: Path :| Lookup(n, q).Some? && Collides(q, path);
      var b := Blob(q, Lookup(n, q).value);
      assert b in blobs;
    }
    forall i | 0 <= i < |blobs| && Collides(blobs[i].path, path)
      ensures Blocked(n, path)
    {
      assert Blob(blobs[i].path, blobs[i].file) in blobs;
      assert Lookup(n, blobs[i].path).Some?;
    }
  }

  // ---- The tree id -----------------------------------------------------------------

  datatype Record = TreeRecord(name: string, sha: string) | BlobRecord(name: string, executable: bool, sha: string)

  predicate RecordLe(a: Record, b: Record) { StringLe(a.name, b.name) }

  function FileRecords(n: Node): seq<Record> {
    seq(|n.files|, i requires 0 <= i < |n.files| => BlobRecord(n.files[i].name, n.files[i].file.executable, n.files[i].file.sha))
  }

  function Records(mktree: seq<Record> -> string, n: Node): seq<Record>
    decreases n, 1
  {
    seq(|n.dirs|, i requires 0 <= i < |n.dirs| => TreeRecord(n.dirs[i].name, MakeTree(mktree, n.dirs[i].node)))
    + FileRecords(n)
  }

  /** `makeTree`: subtrees first, then one `mktree` over the records sorted by name. */
  function MakeTree(mktree: seq<Record> -> string, n: Node): string
    decreases n, 2
  {
    mktree(Sort(Records(mktree, n), RecordLe))
  }

  lemma RecordNames(mktree: seq<Record> -> string, n: Node)
    requires WellFormed(n)
    ensures Distinct(Records(mktree, n)) && Separates(RecordLe, Records(mktree, n)) && TotalPreorder(RecordLe)
  {
    StringOrder();
    var r := Records(mktree, n);
    forall i, j | 0 <= i < j < |r|
      ensures r[i].name != r[j].name
    {
    }
    forall x, y | x in r && y in r && RecordLe(x, y) && RecordLe(y, x)
      ensures x == y
    {
      var i :| 0 <= i < |r| && r[i] == x;
      var j :| 0 <= j < |r| && r[j] == y;
    }
  }

  /** Subtrees of the two trees that share a name have the same id. */
  ghost predicate SubtreesAgree(mktree: seq<Record> -> string, a: Node, b: Node) {
    forall i, j | 0 <= i < |a.dirs| && 0 <= j < |b.dirs| && a.dirs[i].name == b.dirs[j].name ::
      MakeTree(mktree, a.dirs[i].node) == MakeTree(mktree, b.dirs[j].node)
  }

  lemma DirMatched(a: Node, b: Node, i: nat) returns (j: nat)
    requires WellFormed(a) && WellFormed(b) && i < |a.dirs|
    requires forall q: Path :: Lookup(a, q) == Lookup(b, q)
    ensures j < |b.dirs| && b.dirs[j].name == a.dirs[i].name
  {
    var name := a.dirs[i].name;
    var below := HoldsFile(a.dirs[i].node);
    DirFound(a.dirs, name);
    DirFound(b.dirs, name);
    var q := [name] + below;
    assert q[1..] == below;
    assert Lookup(a, q).Some?;
    assert Lookup(b, q).Some?;
    j :| 0 <= j < |b.dirs| && b.dirs[j].name == name;
  }

  lemma FileMatched(a: Node, b: Node, i: nat) returns (j: nat)
    requires WellFormed(a) && WellFormed(b) && i < |a.files|
    requires forall q: Path :: Lookup(a, q) == Lookup(b, q)
    ensures j < |b.files| && b.files[j] == a.files[i]
  {
    var name := a.files[i].name;
    FileFound(a.files, name);
    FileFound(b.files, name);
    assert Lookup(a, [name]) == Some(a.files[i].file);
    assert Lookup(b, [name]) == Some(a.files[i].file);
    j :| 0 <= j < |b.files| && b.files[j].name == name;
  }

  lemma RecordsAt(mktree: seq<Record> -> string, n: Node)
    ensures |Records(mktree, n)| == |n.dirs| + |n.files|
    ensures forall i | 0 <= i < |n.dirs| :: Records(mktree, n)[i] == TreeRecord(n.dirs[i].name, MakeTree(mktree, n.dirs[i].node))
    ensures forall i | 0 <= i < |n.files| ::
              Records(mktree, n)[|n.dirs| + i] == BlobRecord(n.files[i].name, n.files[i].file.executable, n.files[i].file.sha)
  {
  }

  lemma RecordsWithin(mktree: seq<Record> -> string, a: Node, b: Node)
    requires WellFormed(a) && WellFormed(b) && SubtreesAgree(mktree, a, b)
    requires forall q: Path :: Lookup(a, q) == Lookup(b, q)
    ensures forall x | x in Records(mktree, a) :: x in Records(mktree, b)
  {
    hide WellFormed, Lookup, MakeTree;
    var r, s := Records(mktree, a), Records(mktree, b);
    RecordsAt(mktree, a);
    RecordsAt(mktree, b);
    hide Records;
    forall k | 0 <= k < |r|
      ensures r[k] in s
    {
      if k < |a.dirs| {
        var j := DirMatched(a, b, k);
        assert MakeTree(mktree, a.dirs[k].node) == MakeTree(mktree, b.dirs[j].node);
        assert s[j] == r[k];
      } else {
        var f := k - |a.dirs|;
        assert r[k] == r[|a.dirs| + f];
        var j := FileMatched(a, b, f);
        assert s[|b.dirs| + j] == r[k];
      }
    }
  }

  lemma LookupBelow(n: Node, i: nat, q: Path)
    requires DistinctDirs(n.dirs) && i < |n.dirs| && q != []
    ensures Lookup(n, [n.dirs[i].name] + q) == Lookup(n.dirs[i].node, q)
  {
    DirFound(n.dirs, n.dirs[i].name);
    assert ([n.dirs[i].name] + q)[1..] == q;
  }

  lemma SubtreeContents(a: Node, b: Node, i: nat, j: nat)
    requires WellFormed(a) && WellFormed(b) && i < |a.dirs| && j < |b.dirs| && a.dirs[i].name == b.dirs[j].name
    requires forall q: Path :: Lookup(a, q) == Lookup(b, q)
    ensures forall q: Path :: Lookup(a.dirs[i].node, q) == Lookup(b.dirs[j].node, q)
  {
    assert DistinctDirs(a.dirs) && DistinctDirs(b.dirs);
    hide WellFormed, DistinctDirs;
    forall q: Path
      ensures Lookup(a.dirs[i].node, q) == Lookup(b.dirs[j].node, q)
    {
      if q != [] {
        hide Lookup;
        LookupBelow(a, i, q);
        LookupBelow(b, j, q);
        assert Lookup(a, [a.dirs[i].name] + q) == Lookup(b, [a.dirs[i].name] + q);
      }
    }
  }

  /** Trees with the same contents have the same id, whatever the order they were filled in. */
  lemma SameContentsSameId(mktree: seq<Record> -> string, a: Node, b: Node)
    requires WellFormed(a) && WellFormed(b)
    requires forall q: Path :: Lookup(a, q) == Lookup(b, q)
    ensures MakeTree(mktree, a) == MakeTree(mktree, b)
    decreases a
  {
    forall i, j | 0 <= i < |a.dirs| && 0 <= j < |b.dirs| && a.dirs[i].name == b.dirs[j].name
      ensures MakeTree(mktree, a.dirs[i].node) == MakeTree(mktree, b.dirs[j].node)
    {
      SubtreeContents(a, b, i, j);
      SameContentsSameId(mktree, a.dirs[i].node, b.dirs[j].node);
    }
    SameRecords(mktree, a, b);
  }

  lemma SameRecords(mktree: seq<Record> -> string, a: Node, b: Node)
    requires WellFormed(a) && WellFormed(b) && SubtreesAgree(mktree, a, b)
    requires forall q: Path :: Lookup(a, q) == Lookup(b, q)
    ensures MakeTree(mktree, a) == MakeTree(mktree, b)
  {
    RecordNames(mktree, a);
    RecordNames(mktree, b);
    RecordsWithin(mktree, a, b);
    RecordsWithin(mktree, b, a);
    DistinctPermutation(Records(mktree, a), Records(mktree, b));
    SortCanonical(Records(mktree, a), Records(mktree, b), RecordLe);
  }

  /**
   The id is Git's of one record per entry, in name order: a directory's record carries the id of its subtree, a file's
   its mode and blob.
   */
  lemma MakeTreeIs(mktree: seq<Record> -> string, n: Node) returns (records: seq<Record>)
    ensures MakeTree(mktree, n) == mktree(records) && |records| == |n.dirs| + |n.files|
    ensures forall i, j | 0 <= i < j < |records| :: StringLe(records[i].name, records[j].name)
    ensures forall i | 0 <= i < |n.dirs| :: TreeRecord(n.dirs[i].name, MakeTree(mktree, n.dirs[i].node)) in records
    ensures forall i | 0 <= i < |n.files| :: BlobRecord(n.files[i].name, n.files[i].file.executable, n.files[i].file.sha) in records
    ensures forall r | r in records ::
              || (exists i :: 0 <= i < |n.dirs| && r == TreeRecord(n.dirs[i].name, MakeTree(mktree, n.dirs[i].node)))
              || (exists i :: 0 <= i < |n.files| && r == BlobRecord(n.files[i].name, n.files[i].file.executable, n.files[i].file.sha))
  {
    StringOrder();
    RecordsAt(mktree, n);
    var all := Records(mktree, n);
    records := Sort(all, RecordLe);
    SortPermutes(all, RecordLe);
    SortSorts(all, RecordLe);
    hide Sort, MakeTree, StringLe;
    forall i | 0 <= i < |n.dirs| ensures all[i] in records { }
    forall i | 0 <= i < |n.files| ensures BlobRecord(n.files[i].name, n.files[i].file.executable, n.files[i].file.sha) in records {
      assert all[|n.dirs| + i] in records;
    }
    forall r | r in records
      ensures || (exists i :: 0 <= i < |n.dirs| && r == TreeRecord(n.dirs[i].name, MakeTree(mktree, n.dirs[i].node)))
              || (exists i :: 0 <= i < |n.files| && r == BlobRecord(n.files[i].name, n.files[i].file.executable, n.files[i].file.sha))
    {
      var k :| 0 <= k < |all| && all[k] == r;
      if k >= |n.dirs| { assert all[k] == all[|n.dirs| + (k - |n.dirs|)]; }
    }
  }

  ghost predicate NoCollisions(mktree: seq<Record> -> string) { forall r, s :: mktree(r) == mktree(s) ==> r == s }

  /** Every entry of `a` is recorded, and whatever is recorded is an entry of `b`. */
  ghost predicate RecordedIn(mktree: seq<Record> -> string, a: Node, b: Node, records: seq<Record>) {
    && (forall i | 0 <= i < |a.dirs| :: TreeRecord(a.dirs[i].name, MakeTree(mktree, a.dirs[i].node)) in records)
    && (forall i | 0 <= i < |a.files| :: BlobRecord(a.files[i].name, a.files[i].file.executable, a.files[i].file.sha) in records)
    && (forall r | r in records ::
          || (exists i :: 0 <= i < |b.dirs| && r == TreeRecord(b.dirs[i].name, MakeTree(mktree, b.dirs[i].node)))
          || (exists i :: 0 <= i < |b.files| && r == BlobRecord(b.files[i].name, b.files[i].file.executable, b.files[i].file.sha)))
  }

  lemma CommonRecords(mktree: seq<Record> -> string, a: Node, b: Node) returns (records: seq<Record>)
    requires NoCollisions(mktree) && MakeTree(mktree, a) == MakeTree(mktree, b)
    ensures RecordedIn(mktree, a, b, records) && RecordedIn(mktree, b, a, records)
  {
    hide MakeTree;
    records := MakeTreeIs(mktree, a);
    var other := MakeTreeIs(mktree, b);
    assert records == other;
  }

  /** Under collision-free object ids, trees with one id have the same contents. */
  lemma SameIdSameContents(mktree: seq<Record> -> string, a: Node, b: Node, q: Path)
    requires NoCollisions(mktree) && WellFormed(a) && WellFormed(b) && MakeTree(mktree, a) == MakeTree(mktree, b)
    ensures Lookup(a, q) == Lookup(b, q)
    decreases |q|
  {
    hide MakeTree, Lookup, RecordedIn, NoCollisions, WellFormed, FindFile, FindDir;
    var r := CommonRecords(mktree, a, b);
    if q == [] {
      LookupNone(a, b);
    } else if |q| == 1 {
      SameFile(mktree, a, b, r, q[0]);
      SameFile(mktree, b, a, r, q[0]);
      LookupOne(a, q);
      LookupOne(b, q);
    } else {
      SameDir(mktree, a, b, r, q[0]);
      SameDir(mktree, b, a, r, q[0]);
      LookupMore(a, q);
      LookupMore(b, q);
      var x, y := FindDir(a.dirs, q[0]), FindDir(b.dirs, q[0]);
      if x.Some? && y.Some? {
        InTree(a, q[0]);
        InTree(b, q[0]);
        SameIdSameContents(mktree, x.value, y.value, q[1..]);
      }
    }
  }

  lemma LookupNone(a: Node, b: Node)
    ensures Lookup(a, []) == Lookup(b, [])
  {
  }

  lemma LookupOne(n: Node, q: Path)
    requires |q| == 1
    ensures Lookup(n, q) == FindFile(n.files, q[0])
  {
  }

  lemma LookupMore(n: Node, q: Path)
    requires |q| > 1
    ensures Lookup(n, q) == match FindDir(n.dirs, q[0]) case None => None case Some(child) => Lookup(child, q[1..])
  {
  }

  lemma InTree(n: Node, name: string)
    requires WellFormed(n) && FindDir(n.dirs, name).Some?
    ensures WellFormed(FindDir(n.dirs, name).value)
  {
  }

  lemma SameFile(mktree: seq<Record> -> string, a: Node, b: Node, records: seq<Record>, name: string)
    requires WellFormed(a) && WellFormed(b) && RecordedIn(mktree, a, b, records)
    ensures FindFile(a.files, name).Some? ==> FindFile(b.files, name) == FindFile(a.files, name)
  {
    hide MakeTree;
    FileFound(a.files, name);
    FileFound(b.files, name);
    if FindFile(a.files, name).Some? {
      var i :| 0 <= i < |a.files| && a.files[i].name == name;
      var r := BlobRecord(a.files[i].name, a.files[i].file.executable, a.files[i].file.sha);
      assert r in records;
      var j :| 0 <= j < |b.files| && r == BlobRecord(b.files[j].name, b.files[j].file.executable, b.files[j].file.sha);
      assert b.files[j].file == a.files[i].file;
    }
  }

  lemma SameDir(mktree: seq<Record> -> string, a: Node, b: Node, records: seq<Record>, name: string)
    requires WellFormed(a) && WellFormed(b) && RecordedIn(mktree, a, b, records)
    ensures FindDir(a.dirs, name).Some? ==>
              FindDir(b.dirs, name).Some?
              && MakeTree(mktree, FindDir(b.dirs, name).value) == MakeTree(mktree, FindDir(a.dirs, name).value)
  {
    hide MakeTree;
    DirFound(a.dirs, name);
    DirFound(b.dirs, name);
    if FindDir(a.dirs, name).Some? {
      var i :| 0 <= i < |a.dirs| && a.dirs[i].name == name;
      var r := TreeRecord(a.dirs[i].name, MakeTree(mktree, a.dirs[i].node));
      assert r in records;
      var j :| 0 <= j < |b.dirs| && r == TreeRecord(b.dirs[j].name, MakeTree(mktree, b.dirs[j].node));
      assert FindDir(b.dirs, b.dirs[j].name) == Some(b.dirs[j].node);
    }
  }

  lemma PrefixFreePermutes(s: seq<Blob>, t: seq<Blob>)
    requires PrefixFree(s) && multiset(s) == multiset(t)
    ensures PrefixFree(t)
  {
    assert Distinct(s) by {
      forall i, j | 0 <= i < j < |s| ensures s[i] != s[j] { assert !Collides(s[i].path, s[j].path); }
    }
    DistinctUnderPermutation(s, t);
    SameMembers(s, t);
    forall i, j | 0 <= i < j < |t|
      ensures !Collides(t[i].path, t[j].path)
    {
      assert t[i] in s && t[j] in s;
      var k :| 0 <= k < |s| && s[k] == t[i];
      var l :| 0 <= l < |s| && s[l] == t[j];
      assert if k < l then !Collides(s[k].path, s[l].path) else !Collides(s[l].path, s[k].path);
    }
  }

  /** The order of the entries decides neither whether the tree is built nor its id. */
  lemma OrderIndependent(mktree: seq<Record> -> string, s: seq<Blob>, t: seq<Blob>)
    requires NonEmptyPaths(s) && NonEmptyPaths(t) && multiset(s) == multiset(t)
    ensures Build(s).Some? <==> Build(t).Some?
    ensures Build(s).Some? ==> MakeTree(mktree, Build(s).value) == MakeTree(mktree, Build(t).value)
  {
    BuildExact(s);
    BuildExact(t);
    SameMembers(s, t);
    if PrefixFree(s) { PrefixFreePermutes(s, t); }
    if PrefixFree(t) { PrefixFreePermutes(t, s); }
    if Build(s).Some? {
      SameHoldings(Build(s).value, Build(t).value, s, t);
      SameContentsSameId(mktree, Build(s).value, Build(t).value);
    }
  }

  lemma SameHoldings(a: Node, b: Node, s: seq<Blob>, t: seq<Blob>)
    requires Holds(a, s) && Holds(b, t)
    requires (forall x | x in s :: x in t) && (forall x | x in t :: x in s)
    ensures forall q: Path :: Lookup(a, q) == Lookup(b, q)
  {
    forall q: Path ensures Lookup(a, q) == Lookup(b, q) {
      if Lookup(a, q).Some? {
        var f := Lookup(a, q).value;
        assert Lookup(a, q) == Some(f);
        assert Blob(q, f) in t;
      } else if Lookup(b, q).Some? {
        var f := Lookup(b, q).value;
        assert Lookup(b, q) == Some(f);
        assert Blob(q, f) in s;
      }
    }
  }

  // ---- `writeAcceptedTree` ----------------------------------------------------------

  datatype Entry = Entry(path: string, mode: string, bytes: seq<bv8>)
  datatype Accepted = Accepted(treeSha: string, blobShas: map<string, string>)

  /** `split('/')`. */
  function Split(s: string): (r: Path)
    ensures r != []
  {
    if s == [] then [[]]
    else if s[0] == '/' then [[]] + Split(s[1..])
    else var rest := Split(s[1..]); [[s[0]] + rest[0]] + rest[1..]
  }

  /** Different path strings are different places in the tree. */
  lemma {:induction false} SplitInjective(a: string, b: string)
    requires Split(a) == Split(b)
    ensures a == b
  {
    if a != [] && b != [] {
      assert Split(a)[0] == [] <==> a[0] == '/';
      assert Split(b)[0] == [] <==> b[0] == '/';
      if a[0] == '/' {
        assert Split(a)[1..] == Split(a[1..]) && Split(b)[1..] == Split(b[1..]);
        SplitInjective(a[1..], b[1..]);
      } else {
        var x, y := Split(a[1..]), Split(b[1..]);
        assert Split(a)[0][1..] == x[0] && Split(b)[0][1..] == y[0];
        assert Split(a)[1..] == x[1..] && Split(b)[1..] == y[1..];
        assert x == [x[0]] + x[1..] && y == [y[0]] + y[1..];
        SplitInjective(a[1..], b[1..]);
      }
      assert a == [a[0]] + a[1..] && b == [b[0]] + b[1..];
    }
  }

  /** The segments joined by the separator. */
  function Joined(p: Path): string
    requires p != []
  {
    if |p| == 1 then p[0] else p[0] + "/" + Joined(p[1..])
  }

  /** Splitting takes a path apart at its separators, and nowhere else. */
  lemma {:induction false} SplitIs(s: string)
    ensures Joined(Split(s)) == s && forall i | 0 <= i < |Split(s)| :: '/' !in Split(s)[i]
  {
    if s != [] {
      SplitIs(s[1..]);
      var rest := Split(s[1..]);
      if s[0] == '/' {
        assert ([[]] + rest)[1..] == rest;
        assert s == "/" + s[1..];
      } else {
        assert ([[s[0]] + rest[0]] + rest[1..])[1..] == rest[1..];
        assert s == [s[0]] + s[1..];
        if |rest| > 1 {
          assert Joined(Split(s)) == ([s[0]] + rest[0]) + "/" + Joined(rest[1..]);
          assert ([s[0]] + rest[0]) + "/" + Joined(rest[1..]) == [s[0]] + (rest[0] + "/" + Joined(rest[1..]));
        }
      }
    }
  }

  predicate NormalizedPath(allowed: string -> bool, s: string) {
    && s != [] && s[0] != '/'
    && forall i | 0 <= i < |Split(s)| :: var name := Split(s)[i]; name !in ["", ".", ".."] && allowed(name)
  }

  predicate Admissible(allowed: string -> bool, e: Entry) {
    NormalizedPath(allowed, e.path) && e.mode in ["100644", "100755"]
  }

  function AsBlob(hash: seq<bv8> -> string, e: Entry): Blob { Blob(Split(e.path), File(e.mode == "100755", hash(e.bytes))) }

  function Blobs(hash: seq<bv8> -> string, entries: seq<Entry>): seq<Blob> { Map(e => AsBlob(hash, e), entries) }

  ghost predicate FoldedApart(fold: string -> string, entries: seq<Entry>) {
    forall i, j | 0 <= i < j < |entries| :: fold(entries[i].path) != fold(entries[j].path)
  }

  ghost predicate Acceptable(allowed: string -> bool, fold: string -> string, hash: seq<bv8> -> string, entries: seq<Entry>) {
    && (forall i | 0 <= i < |entries| :: Admissible(allowed, entries[i]))
    && FoldedApart(fold, entries)
    && PrefixFree(Blobs(hash, entries))
  }

  /** The record of hashes is a plain object, on which a string assigned to this key is ignored. */
  const PROTO := "__proto__"

  /** What is accepted, written out: plain relative paths and the two file modes, names apart, and no path above another. */
  lemma AcceptableIff(allowed: string -> bool, fold: string -> string, hash: seq<bv8> -> string, entries: seq<Entry>)
    ensures Acceptable(allowed, fold, hash, entries) <==>
              && (forall i | 0 <= i < |entries| ::
                    var e := entries[i];
                    && e.path != "" && e.path[0] != '/' && e.mode in {"100644", "100755"}
                    && forall name | name in Split(e.path) :: name != "" && name != "." && name != ".." && allowed(name))
              && (forall i, j | 0 <= i < j < |entries| :: fold(entries[i].path) != fold(entries[j].path))
              && (forall i, j | 0 <= i < j < |entries| ::
                    !(Split(entries[i].path) <= Split(entries[j].path)) && !(Split(entries[j].path) <= Split(entries[i].path)))
  {
    hide Split;
    var blobs := Blobs(hash, entries);
    assert |blobs| == |entries| && forall i | 0 <= i < |entries| :: blobs[i].path == Split(entries[i].path);
    forall i | 0 <= i < |entries|
      ensures Admissible(allowed, entries[i]) <==>
                var e := entries[i];
                && e.path != "" && e.path[0] != '/' && e.mode in {"100644", "100755"}
                && forall name | name in Split(e.path) :: name != "" && name != "." && name != ".." && allowed(name)
    {
      AdmissibleIff(allowed, entries[i]);
    }
    hide Admissible, Blobs;
  }

  lemma AdmissibleIff(allowed: string -> bool, e: Entry)
    ensures Admissible(allowed, e) <==>
              && e.path != "" && e.path[0] != '/' && e.mode in {"100644", "100755"}
              && forall name | name in Split(e.path) :: name != "" && name != "." && name != ".." && allowed(name)
  {
    hide Split;
    var p := Split(e.path);
    if forall i | 0 <= i < |p| :: p[i] !in ["", ".", ".."] && allowed(p[i]) {
      forall name | name in p ensures name != "" && name != "." && name != ".." && allowed(name) {
        var i :| 0 <= i < |p| && p[i] == name;
      }
    } else {
      var i :| 0 <= i < |p| && !(p[i] !in ["", ".", ".."] && allowed(p[i]));
      assert p[i] in p;
    }
  }

  /** What the tree of the entries holds, written out: at each entry's path a file of its mode and hash, and nothing else. */
  lemma HoldsIs(hash: seq<bv8> -> string, entries: seq<Entry>, tree: Node)
    requires Holds(tree, Blobs(hash, entries))
    ensures forall i | 0 <= i < |entries| ::
              Lookup(tree, Split(entries[i].path)) == Some(File(entries[i].mode == "100755", hash(entries[i].bytes)))
    ensures forall q: Path | Lookup(tree, q).Some? :: exists i :: 0 <= i < |entries| && Split(entries[i].path) == q
  {
    hide Split, Lookup;
    var blobs := Blobs(hash, entries);
    forall i | 0 <= i < |entries|
      ensures Lookup(tree, Split(entries[i].path)) == Some(File(entries[i].mode == "100755", hash(entries[i].bytes)))
    {
      assert blobs[i] in blobs;
    }
    forall q: Path | Lookup(tree, q).Some? ensures exists i :: 0 <= i < |entries| && Split(entries[i].path) == q {
      var f := Lookup(tree, q).value;
      assert Lookup(tree, q) == Some(f);
      var i :| 0 <= i < |blobs| && blobs[i] == Blob(q, f);
    }
  }

  /** The hashes recorded for the first `n` entries, each under its path unless the path is the ignored key. */
  ghost predicate ShasOf(shas: map<string, string>, hash: seq<bv8> -> string, entries: seq<Entry>, n: nat)
    requires n <= |entries|
  {
    && (forall i | 0 <= i < n && entries[i].path != PROTO ::
          entries[i].path in shas && shas[entries[i].path] == hash(entries[i].bytes))
    && (forall p | p in shas :: p != PROTO && exists i | 0 <= i < n :: entries[i].path == p)
  }

  /** `foldedPaths` after the first `n` entries. */
  ghost predicate FoldedSoFar(fold: string -> string, entries: seq<Entry>, n: nat, folded: set<string>)
    requires n <= |entries|
  {
    && (forall i, j | 0 <= i < j < n :: fold(entries[i].path) != fold(entries[j].path))
    && (forall p :: p in folded <==> exists k | 0 <= k < n :: fold(entries[k].path) == p)
  }

  // ---- Steps of the writer -------------------------------------------------------------

  lemma BlobPaths(hash: seq<bv8> -> string, entries: seq<Entry>)
    ensures NonEmptyPaths(Blobs(hash, entries)) && |Blobs(hash, entries)| == |entries|
    ensures forall i | 0 <= i < |entries| ::
              Blobs(hash, entries)[i] ==
              Blob(Split(entries[i].path), File(entries[i].mode == "100755", hash(entries[i].bytes)))
  {
  }

  lemma Started(hash: seq<bv8> -> string, fold: string -> string, entries: seq<Entry>)
    ensures Build(Blobs(hash, entries)[..0]) == Some(Empty)
    ensures FoldedSoFar(fold, entries, 0, {}) && ShasOf(map[], hash, entries, 0)
  {
  }

  lemma FoldNew(fold: string -> string, entries: seq<Entry>, i: nat, folded: set<string>)
    requires i < |entries| && FoldedSoFar(fold, entries, i, folded) && fold(entries[i].path) !in folded
    ensures FoldedSoFar(fold, entries, i + 1, folded + {fold(entries[i].path)})
    ensures forall k | 0 <= k < i :: entries[k].path != entries[i].path
  {
    var grown := folded + {fold(entries[i].path)};
    forall p ensures p in grown <==> exists k | 0 <= k < i + 1 :: fold(entries[k].path) == p {
      if p in folded {
        var k :| 0 <= k < i && fold(entries[k].path) == p;
        assert k < i + 1;
      }
    }
    forall k | 0 <= k < i ensures fold(entries[k].path) != fold(entries[i].path) {
      assert fold(entries[k].path) in folded;
    }
  }

  lemma Inadmissible(allowed: string -> bool, fold: string -> string, hash: seq<bv8> -> string, entries: seq<Entry>, i: nat)
    requires i < |entries| && !Admissible(allowed, entries[i])
    ensures !Acceptable(allowed, fold, hash, entries)
  {
  }

  lemma FoldSeen(allowed: string -> bool, fold: string -> string, hash: seq<bv8> -> string, entries: seq<Entry>,
                 i: nat, folded: set<string>)
    requires i < |entries| && FoldedSoFar(fold, entries, i, folded) && fold(entries[i].path) in folded
    ensures !Acceptable(allowed, fold, hash, entries)
  {
    var k :| 0 <= k < i && fold(entries[k].path) == fold(entries[i].path);
  }

  lemma {:induction false} SplitWhole(s: string)
    requires '/' !in s
    ensures Split(s) == [s]
  {
    if s != [] {
      SplitWhole(s[1..]);
      assert s == [s[0]] + s[1..];
    }
  }

  lemma IgnoredKeyNormalized(allowed: string -> bool)
    requires allowed(PROTO)
    ensures NormalizedPath(allowed, PROTO) && PROTO != []
  {
    SplitWhole(PROTO);
    hide Split;
  }

  /** An entry whose path is the ignored key is accepted, and its hash is not among the recorded ones. */
  lemma IgnoredKeyAccepted(allowed: string -> bool, fold: string -> string, hash: seq<bv8> -> string, bytes: seq<bv8>)
    requires allowed(PROTO)
    ensures var entries := [Entry(PROTO, "100644", bytes)];
            && Acceptable(allowed, fold, hash, entries)
            && forall shas | ShasOf(shas, hash, entries, 1) :: PROTO !in shas
  {
    hide NormalizedPath, AsBlob;
    IgnoredKeyNormalized(allowed);
    var entries := [Entry(PROTO, "100644", bytes)];
    assert |Blobs(hash, entries)| == 1;
  }

  /** `blobShas[path] = sha`. */
  function Assigned(shas: map<string, string>, path: string, sha: string): map<string, string> {
    if path == PROTO then shas else shas[path := sha]
  }

  lemma ShaAdded(shas: map<string, string>, hash: seq<bv8> -> string, fold: string -> string, entries: seq<Entry>, i: nat)
    requires i < |entries| && ShasOf(shas, hash, entries, i)
    requires forall k | 0 <= k < i :: entries[k].path != entries[i].path
    ensures ShasOf(Assigned(shas, entries[i].path, hash(entries[i].bytes)), hash, entries, i + 1)
  {
    var grown := Assigned(shas, entries[i].path, hash(entries[i].bytes));
    forall p | p in grown ensures p != PROTO && exists k | 0 <= k < i + 1 :: entries[k].path == p {
      if p in shas {
        var k :| 0 <= k < i && entries[k].path == p;
        assert k < i + 1;
      } else {
        assert entries[i].path == p;
      }
    }
  }

  lemma BuildStep(blobs: seq<Blob>, i: nat, root: Node)
    requires NonEmptyPaths(blobs) && i < |blobs| && Build(blobs[..i]) == Some(root)
    ensures Build(blobs[..i + 1]) == Insert(root, blobs[i].path, blobs[i].file)
  {
    var grown := blobs[..i + 1];
    assert grown[..|grown| - 1] == blobs[..i] && grown[|grown| - 1] == blobs[i];
  }

  lemma Hopeless(allowed: string -> bool, fold: string -> string, hash: seq<bv8> -> string, entries: seq<Entry>, i: nat)
    requires i <= |entries| && NonEmptyPaths(Blobs(hash, entries)) && Build(Blobs(hash, entries)[..i]).None?
    ensures !Acceptable(allowed, fold, hash, entries)
  {
    hide Build, Collides, Admissible, FoldedApart;
    var blobs := Blobs(hash, entries);
    BuildExact(blobs[..i]);
    var k, l :| 0 <= k < l < i && Collides(blobs[..i][k].path, blobs[..i][l].path);
    assert Collides(blobs[k].path, blobs[l].path);
  }

  lemma Finished(allowed: string -> bool, fold: string -> string, hash: seq<bv8> -> string, entries: seq<Entry>,
                 folded: set<string>, root: Node)
    requires forall k | 0 <= k < |entries| :: Admissible(allowed, entries[k])
    requires FoldedSoFar(fold, entries, |entries|, folded)
    requires NonEmptyPaths(Blobs(hash, entries)) && Build(Blobs(hash, entries)[..|entries|]) == Some(root)
    ensures Acceptable(allowed, fold, hash, entries)
    ensures WellFormed(root) && Holds(root, Blobs(hash, entries))
  {
    hide Build, Admissible, PrefixFree, WellFormed, Holds;
    assert Blobs(hash, entries)[..|entries|] == Blobs(hash, entries);
    BuildExact(Blobs(hash, entries));
  }
}
