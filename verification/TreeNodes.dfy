/**
 The tree builder's mutable nodes (src/runtime/git-object-writer.ts): maps of files and of further nodes
 that an insertion changes in place. `Value` is the tree that TreeBuilder reasons about.
 */
module TreeNodes {
  import opened Prelude
  import opened Sorting
  import T = TreeBuilder

  datatype Child = Child(name: string, node: TreeNode)

  class TreeNode {
    var files: seq<T.FileEntry>
    var dirs: seq<Child>
    ghost var Repr: set<object>

    ghost predicate Valid()
      reads this, Repr
      decreases Repr
    {
      && this in Repr
      && (forall i | 0 <= i < |dirs| ::
            && dirs[i].node in Repr && dirs[i].node.Repr <= Repr && this !in dirs[i].node.Repr
            && dirs[i].node.Valid())
      && (forall i, j | 0 <= i < j < |dirs| :: dirs[i].node.Repr !! dirs[j].node.Repr)
    }

    ghost function Value(): T.Node
      reads this, Repr
      requires Valid()
      decreases Repr
    {
      T.Node(files, seq(|dirs|, i requires 0 <= i < |dirs| && Valid() reads this, Repr =>
                                  T.DirEntry(dirs[i].name, dirs[i].node.Value())))
    }

    /** `node()`. */
    constructor ()
      ensures Valid() && Value() == T.Empty && Repr == {this} && fresh(this)
    {
      files, dirs, Repr := [], [], {this};
    }

    /** Position of a directory, or the number of directories. */
    method FindDir(name: string) returns (i: nat)
      requires Valid()
      ensures i <= |dirs| && (forall j | 0 <= j < i :: dirs[j].name != name) && (i < |dirs| ==> dirs[i].name == name)
      ensures T.FindDir(Value().dirs, name) == if i < |dirs| then Some(dirs[i].node.Value()) else None
    {
      i := 0;
      while i < |dirs| && dirs[i].name != name
        invariant 0 <= i <= |dirs| && forall j | 0 <= j < i :: dirs[j].name != name
      {
        i := i + 1;
      }
      FirstDir(Value().dirs, name, i);
    }

    /** `insert`: in place along the path, creating directories on the way; a refusal changes nothing. */
    method Insert(path: T.Path, f: T.File) returns (ok: bool)
      requires Valid() && path != []
      modifies Repr
      ensures Valid() && fresh(Repr - old(Repr))
      ensures ok <==> T.Insert(old(Value()), path, f).Some?
      ensures Value() == if ok then T.Insert(old(Value()), path, f).value else old(Value())
      decreases |path|, 0
    {
      var name := path[0];
      ghost var before := Value();
      T.InsertUnfolds(before, path, f);
      hide T.Insert, T.SetDir, T.FindDir, T.FindFile;
      var i := FindDir(name);
      if T.FindFile(files, name).Some? { return false; }
      if |path| == 1 {
        if i < |dirs| { return false; }
        AddFile(name, f);
        return true;
      }
      if i == |dirs| {
        T.EmptyTakes(path[1..], f);
        InsertNew(name, path[1..], f);
        ok := true;
      } else {
        ok := InsertBelow(i, path[1..], f);
        SetAt(before.dirs, name, i, dirs[i].node.Value());
      }
    }

    /** `files.set(name, ...)`. */
    method AddFile(name: string, f: T.File)
      requires Valid()
      modifies this
      ensures Valid() && Repr == old(Repr)
      ensures Value() == old(Value()).(files := old(Value()).files + [T.FileEntry(name, f)])
    {
      ghost var before := Value();
      files := files + [T.FileEntry(name, f)];
      assert Value().dirs == before.dirs;
    }

    /** The step into a directory that is made on the way. */
    method InsertNew(name: string, path: T.Path, f: T.File)
      requires Valid() && path != [] && T.Insert(T.Empty, path, f).Some?
      requires forall j | 0 <= j < |dirs| :: dirs[j].name != name
      modifies this
      ensures Valid() && fresh(Repr - old(Repr))
      ensures Value() == old(Value()).(dirs := T.SetDir(old(Value()).dirs, name, T.Insert(T.Empty, path, f).value))
      decreases |path|, 1
    {
      hide T.Insert, T.SetDir;
      ghost var before := Value();
      var child := new TreeNode();
      var ok := child.Insert(path, f);
      SetLast(before.dirs, name, child.Value());
      Attach(Child(name, child));
    }

    /** `directories.set(name, child)` for a name not there yet. */
    method Attach(child: Child)
      requires Valid() && child.node.Valid() && child.node.Repr !! Repr
      modifies this
      ensures Valid() && Repr == old(Repr) + child.node.Repr
      ensures Value() == old(Value()).(dirs := old(Value()).dirs + [T.DirEntry(child.name, child.node.Value())])
    {
      ghost var before := Value();
      dirs := dirs + [child];
      Repr := Repr + child.node.Repr;
      assert Value().dirs == before.dirs + [T.DirEntry(child.name, child.node.Value())];
    }

    /** The step into a directory that is there already. */
    method InsertBelow(i: nat, path: T.Path, f: T.File) returns (ok: bool)
      requires Valid() && path != [] && i < |dirs|
      modifies Repr
      ensures Valid() && fresh(Repr - old(Repr)) && dirs == old(dirs)
      ensures ok <==> T.Insert(old(dirs[i].node.Value()), path, f).Some?
      ensures dirs[i].node.Value() == if ok then T.Insert(old(dirs[i].node.Value()), path, f).value else old(dirs[i].node.Value())
      ensures Value() == old(Value()).(dirs := old(Value()).dirs[i := T.DirEntry(dirs[i].name, dirs[i].node.Value())])
      decreases |path|, 1
    {
      hide T.Insert;
      ghost var before := Value();
      var child := dirs[i].node;
      ok := child.Insert(path, f);
      Repr := Repr + child.Repr;
      assert Value().dirs == before.dirs[i := T.DirEntry(dirs[i].name, child.Value())];
    }

    /** `makeTree`: subtrees first, then one record per entry, sorted by name. */
    method MakeTree(mktree: seq<T.Record> -> string) returns (sha: string)
      requires Valid()
      ensures sha == T.MakeTree(mktree, Value())
      decreases Repr
    {
      ghost var value := Value();
      T.RecordsAt(mktree, value);
      hide T.Records, Sort;
      var records: seq<T.Record> := [];
      var i := 0;
      while i < |dirs|
        invariant 0 <= i == |records| <= |dirs|
        invariant forall k | 0 <= k < i :: records[k] == T.Records(mktree, value)[k]
      {
        var below := dirs[i].node.MakeTree(mktree);
        records := records + [T.TreeRecord(dirs[i].name, below)];
        i := i + 1;
      }
      i := 0;
      while i < |files|
        invariant 0 <= i <= |files| && |records| == |dirs| + i
        invariant forall k | 0 <= k < |dirs| + i :: records[k] == T.Records(mktree, value)[k]
      {
        records := records + [T.BlobRecord(files[i].name, files[i].file.executable, files[i].file.sha)];
        i := i + 1;
      }
      assert records == T.Records(mktree, value);
      sha := mktree(Sort(records, T.RecordLe));
    }
  }

  lemma {:induction false} FirstDir(dirs: seq<T.DirEntry>, name: string, i: nat)
    requires i <= |dirs| && (forall j | 0 <= j < i :: dirs[j].name != name) && (i < |dirs| ==> dirs[i].name == name)
    ensures T.FindDir(dirs, name) == if i < |dirs| then Some(dirs[i].node) else None
  {
    if i > 0 {
      FirstDir(dirs[1..], name, i - 1);
    }
  }

  lemma {:induction false} SetLast(dirs: seq<T.DirEntry>, name: string, node: T.Node)
    requires forall j | 0 <= j < |dirs| :: dirs[j].name != name
    ensures T.SetDir(dirs, name, node) == dirs + [T.DirEntry(name, node)]
  {
    if dirs != [] {
      SetLast(dirs[1..], name, node);
    }
  }

  lemma {:induction false} SetAt(dirs: seq<T.DirEntry>, name: string, i: nat, node: T.Node)
    requires i < |dirs| && dirs[i].name == name && forall j | 0 <= j < i :: dirs[j].name != name
    ensures T.SetDir(dirs, name, node) == dirs[i := T.DirEntry(name, node)]
  {
    if i > 0 {
      SetAt(dirs[1..], name, i - 1, node);
    }
  }

  /**
   The writer: every entry is checked, hashed and inserted in turn, then the trees are made bottom-up.
   `allowed` is the name filter, `fold` the case folding, `hash` and `mktree` the Git object calls.
   */
  method WriteAcceptedTree(entries: seq<T.Entry>, allowed: string -> bool, fold: string -> string,
                           hash: seq<bv8> -> string, mktree: seq<T.Record> -> string) returns (r: Option<T.Accepted>)
    ensures r.Some? <==> T.Acceptable(allowed, fold, hash, entries)
    ensures r.Some? <==>
              && (forall i | 0 <= i < |entries| ::
                    var e := entries[i];
                    && e.path != "" && e.path[0] != '/' && e.mode in {"100644", "100755"}
                    && forall name | name in T.Split(e.path) :: name != "" && name != "." && name != ".." && allowed(name))
              && (forall i, j | 0 <= i < j < |entries| :: fold(entries[i].path) != fold(entries[j].path))
              && (forall i, j | 0 <= i < j < |entries| ::
                    !(T.Split(entries[i].path) <= T.Split(entries[j].path)) && !(T.Split(entries[j].path) <= T.Split(entries[i].path)))
    ensures r.Some? ==> exists tree: T.Node ::
                          && T.WellFormed(tree) && T.Holds(tree, T.Blobs(hash, entries))
                          && r.value.treeSha == T.MakeTree(mktree, tree)
                          && (forall i | 0 <= i < |entries| ::
                                T.Lookup(tree, T.Split(entries[i].path)) ==
                                Some(T.File(entries[i].mode == "100755", hash(entries[i].bytes))))
                          && forall q: T.Path | T.Lookup(tree, q).Some? :: exists i :: 0 <= i < |entries| && T.Split(entries[i].path) == q
    ensures r.Some? ==> T.ShasOf(r.value.blobShas, hash, entries, |entries|)
  {
    var root := new TreeNode();
    var blobShas: map<string, string> := map[];
    var folded: set<string> := {};
    ghost var blobs := T.Blobs(hash, entries);
    T.BlobPaths(hash, entries);
    T.Started(hash, fold, entries);
    T.AcceptableIff(allowed, fold, hash, entries);
    hide *;
    var i := 0;
    while i < |entries|
      invariant 0 <= i <= |entries|
      invariant forall k | 0 <= k < i :: T.Admissible(allowed, entries[k])
      invariant T.FoldedSoFar(fold, entries, i, folded)
      invariant T.ShasOf(blobShas, hash, entries, i)
      invariant root.Valid() && fresh(root.Repr) && T.Build(blobs[..i]) == Some(root.Value())
    {
      var entry := entries[i];
      if !T.Admissible(allowed, entry) {
        T.Inadmissible(allowed, fold, hash, entries, i);
        return None;
      }
      var key := fold(entry.path);
      if key in folded {
        T.FoldSeen(allowed, fold, hash, entries, i, folded);
        return None;
      }
      T.FoldNew(fold, entries, i, folded);
      folded := folded + {key};
      var sha := hash(entry.bytes);
      T.ShaAdded(blobShas, hash, fold, entries, i);
      blobShas := T.Assigned(blobShas, entry.path, sha);
      T.BuildStep(blobs, i, root.Value());
      var inserted := root.Insert(T.Split(entry.path), T.File(entry.mode == "100755", sha));
      if !inserted {
        T.Hopeless(allowed, fold, hash, entries, i + 1);
        return None;
      }
      i := i + 1;
    }
    T.Finished(allowed, fold, hash, entries, folded, root.Value());
    T.HoldsIs(hash, entries, root.Value());
    var treeSha := root.MakeTree(mktree);
    r := Some(T.Accepted(treeSha, blobShas));
  }
}
