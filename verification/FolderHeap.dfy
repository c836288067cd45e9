// The folders of FileSystem.c as linked objects whose queues are edited in place.
module FolderHeap {
  import opened Basics
  import opened FileTree
  import opened FolderOps
  import opened Paths
  import DiffPatch

  // ---------------------------------------------------------------- queue edits by position

  // i is the position qsearchi finds.
  ghost predicate FirstAt(gs: seq<Folder>, n: Bytes, i: nat) {
    i < |gs| && gs[i].name == n && forall k :: 0 <= k < i ==> gs[k].name != n
  }

  lemma {:induction false} FindAt(gs: seq<Folder>, n: Bytes, i: nat)
    requires FirstAt(gs, n, i)
    ensures Child(gs, n) == Some(gs[i])
  {
    if i == 0 {
    } else {
      FirstAtTail(gs, n, i);
      FindAt(gs[1..], n, i - 1);
    }
  }

  lemma FirstAtTail(gs: seq<Folder>, n: Bytes, i: nat)
    requires FirstAt(gs, n, i) && i > 0
    ensures gs[0].name != n && FirstAt(gs[1..], n, i - 1)
  {
  }

  lemma {:induction false} PutAt(gs: seq<Folder>, n: Bytes, i: nat, d: Folder)
    requires FirstAt(gs, n, i) && d.name == n
    ensures PutChild(gs, n, d) == gs[i := d]
  {
    if i == 0 {
    } else {
      FirstAtTail(gs, n, i);
      PutAt(gs[1..], n, i - 1, d);
      UpdateInTail(gs, i, d);
    }
  }

  lemma UpdateInTail<T>(s: seq<T>, i: nat, x: T)
    requires 0 < i < |s|
    ensures [s[0]] + s[1..][i - 1 := x] == s[i := x]
  {
  }

  lemma {:induction false} DropAt(gs: seq<Folder>, n: Bytes, i: nat)
    requires FirstAt(gs, n, i)
    ensures DropChild(gs, n) == gs[..i] + gs[i + 1..]
  {
    if i == 0 {
    } else {
      FirstAtTail(gs, n, i);
      DropAt(gs[1..], n, i - 1);
      assert [gs[0]] + (gs[1..][..i - 1] + gs[1..][i..]) == gs[..i] + gs[i + 1..];
    }
  }

  class FolderNode {
    const name: Bytes
    var files: seq<File>
    var folders: seq<FolderNode>

    ghost var tree: Folder          // the value this node and all below it stand for
    ghost var Repr: set<object>

    ghost predicate Valid()
      reads this, Repr
      decreases Repr
      ensures Valid() ==> this in Repr
    {
      && this in Repr
      && (forall c :: c in folders ==> c in Repr && c.Repr <= Repr && this !in c.Repr && c.Valid())
      && (forall i, j :: 0 <= i < j < |folders| ==> folders[i].Repr !! folders[j].Repr)
      && |tree.folders| == |folders|
      && (forall i :: 0 <= i < |folders| ==> folders[i].tree == tree.folders[i])
      && tree.name == name && tree.files == files
      && (forall i :: 0 <= i < |folders| ==> tree.folders[i].name == folders[i].name)
    }

    // Valid, but sub-folder k may have been edited since `tree` was brought up to date.
    ghost predicate ValidExcept(k: nat)
      reads this, Repr
    {
      && this in Repr
      && k < |folders|
      && (forall c :: c in folders ==> c in Repr && c.Repr <= Repr && this !in c.Repr && c.Valid())
      && (forall i, j :: 0 <= i < j < |folders| ==> folders[i].Repr !! folders[j].Repr)
      && |tree.folders| == |folders|
      && (forall i :: 0 <= i < |folders| && i != k ==> folders[i].tree == tree.folders[i])
      && tree.name == name && tree.files == files
      && (forall i :: 0 <= i < |folders| ==> tree.folders[i].name == folders[i].name)
    }

    // Sub-folder k was edited within its own footprint, or grew by new objects; the rest of this
    // folder is untouched.
    twostate lemma StillValid(k: nat)
      requires old(Valid()) && k < |folders|
      requires folders == old(folders) && files == old(files) && tree == old(tree)
      requires folders[k].Valid() && fresh(folders[k].Repr - old(folders[k].Repr))
      requires Repr == old(Repr) + folders[k].Repr
      requires forall o :: o in old(Repr) && o !in old(folders[k].Repr) && o != this ==> unchanged(o)
      ensures ValidExcept(k)
    {
      var c := folders[k];
      assert c in folders;
      forall i | 0 <= i < |folders| && i != k
        ensures folders[i].Valid() && folders[i].tree == old(folders[i].tree)
        ensures folders[i].Repr == old(folders[i].Repr) && folders[i].Repr !! c.Repr
      {
        assert folders[i] in folders;
        assert old(folders[i].Repr) !! old(c.Repr);
      }
    }

    // The edit of sub-folder k, seen from here.
    ghost method Refresh(k: nat)
      requires ValidExcept(k)
      modifies this`tree
      ensures Valid()
      ensures tree == old(tree).(folders := old(tree).folders[k := folders[k].tree])
    {
      assert folders[k] in folders;
      tree := tree.(folders := tree.folders[k := folders[k].tree]);
    }

    // queue_remove of the sub-folder at position k
    method Unlink(k: nat)
      requires ValidExcept(k)
      modifies this`folders, this`tree
      ensures Valid()
      ensures tree == old(tree).(folders := old(tree).folders[..k] + old(tree).folders[k + 1..])
    {
      folders := folders[..k] + folders[k + 1..];
      tree := tree.(folders := tree.folders[..k] + tree.folders[k + 1..]);
    }

    constructor (n: Bytes)
      ensures Valid() && fresh(Repr) && tree == EmptyFolder(n)
    {
      name, files, folders := n, [], [];
      tree := EmptyFolder(n);
      Repr := {this};
    }

    // queue_search with folder_equals; -1 when there is none.
    method Find(n: Bytes) returns (k: int)
      requires Valid()
      ensures k == -1 ==> Child(tree.folders, n).None?
      ensures k != -1 ==> 0 <= k && FirstAt(tree.folders, n, k) && Child(tree.folders, n) == Some(tree.folders[k])
    {
      for i := 0 to |folders|
        invariant forall j :: 0 <= j < i ==> folders[j].name != n
      {
        if folders[i].name == n {
          FindAt(tree.folders, n, i);
          return i;
        }
      }
      k := -1;
    }

    // ---------------------------------------------------------------- folder_copy

    method Copy() returns (r: FolderNode)
      requires Valid()
      ensures r.Valid() && fresh(r.Repr) && r.tree == tree
      decreases Repr
    {
      r := new FolderNode(name);
      r.files := files;
      r.tree := Folder(name, files, []);
      for i := 0 to |folders|
        invariant r.Valid() && fresh(r.Repr)
        invariant r.tree == Folder(name, files, tree.folders[..i])
      {
        var c := folders[i].Copy();
        r.Append(c);
        OneMore(tree.folders, i);
      }
      WholeTaken(tree.folders);
    }

    // queue_push of a sub-folder
    method Append(c: FolderNode)
      requires Valid() && c.Valid() && Repr !! c.Repr
      modifies this
      ensures Valid() && Repr == old(Repr) + c.Repr
      ensures tree == old(tree).(folders := old(tree).folders + [c.tree])
    {
      folders := folders + [c];
      tree := tree.(folders := tree.folders + [c.tree]);
      Repr := Repr + c.Repr;
    }

    // ---------------------------------------------------------------- folder_subtract

    method Subtract(toSub: FolderNode)
      requires Valid() && toSub.Valid() && Repr !! toSub.Repr
      modifies Repr
      ensures Valid() && Repr == old(Repr)
      ensures tree == FolderOps.Subtract(old(tree), toSub.tree)
      decreases toSub.Repr, 1
    {
      ghost var before, s := tree, toSub.tree;
      for i := 0 to |toSub.files|
        invariant Valid() && Repr == old(Repr)
        invariant toSub.Valid() && toSub.tree == s
        invariant tree == before.(files := files)
        invariant SubtractFiles(files, s.files[i..]) == SubtractFiles(before.files, s.files)
      {
        assert s.files[i..][0] == s.files[i] && s.files[i..][1..] == s.files[i + 1..];
        SubtractRecord(toSub.files[i]);
      }
      for i := 0 to |toSub.folders|
        invariant Valid() && Repr == old(Repr)
        invariant toSub.Valid() && toSub.tree == s
        invariant tree == Folder(before.name, SubtractFiles(before.files, s.files), tree.folders)
        invariant SubtractFolders(tree.folders, s.folders[i..]) == SubtractFolders(before.folders, s.folders)
      {
        assert s.folders[i..][0] == s.folders[i] && s.folders[i..][1..] == s.folders[i + 1..];
        SubtractFrom(toSub.folders[i]);
      }
    }

    // One turn of the file loop.
    method SubtractRecord(x: File)
      requires Valid()
      modifies this`files, this`tree
      ensures Valid() && files == DropFile(old(files), x)
      ensures tree == old(tree).(files := files)
    {
      files := DropFile(files, x);
      tree := tree.(files := files);
    }

    // One turn of the sub-folder loop.
    method SubtractFrom(toRemove: FolderNode)
      requires Valid() && toRemove.Valid() && Repr !! toRemove.Repr
      modifies Repr
      ensures Valid() && Repr == old(Repr)
      ensures tree == old(tree).(folders := FolderOps.SubtractFrom(old(tree).folders, toRemove.tree))
      decreases toRemove.Repr, 2
    {
      var k := Find(toRemove.name);
      if k != -1 {
        var removed := folders[k];
        ghost var gs, n := tree.folders, toRemove.name;
        removed.Subtract(toRemove);
        StillValid(k);
        if removed.files == [] && removed.folders == [] {
          DropAt(gs, n, k);
          Unlink(k);
        } else {
          PutAt(gs, n, k, removed.tree);
          Refresh(k);
        }
      }
    }

    // ---------------------------------------------------------------- folder_remove

    method Remove(toSub: FolderNode)
      requires Valid() && toSub.Valid() && Repr !! toSub.Repr
      modifies Repr
      ensures Valid() && Repr == old(Repr)
      ensures tree == FolderOps.Remove(old(tree), toSub.tree)
      decreases toSub.Repr, 1
    {
      ghost var before, s := tree, toSub.tree;
      for i := 0 to |toSub.files|
        invariant Valid() && Repr == old(Repr)
        invariant toSub.Valid() && toSub.tree == s
        invariant tree == Folder(before.name, files, tree.folders)
        invariant RemoveFiles(files, tree.folders, s.files[i..]) == RemoveFiles(before.files, before.folders, s.files)
      {
        assert s.files[i..][0] == s.files[i] && s.files[i..][1..] == s.files[i + 1..];
        RemoveRecord(toSub.files[i]);
      }
      ghost var mid := RemoveFiles(before.files, before.folders, s.files);
      for i := 0 to |toSub.folders|
        invariant Valid() && Repr == old(Repr)
        invariant toSub.Valid() && toSub.tree == s
        invariant tree == Folder(before.name, mid.0, tree.folders)
        invariant RemoveFolders(tree.folders, s.folders[i..]) == RemoveFolders(mid.1, s.folders)
      {
        assert s.folders[i..][0] == s.folders[i] && s.folders[i..][1..] == s.folders[i + 1..];
        RemoveFrom(toSub.folders[i]);
      }
    }

    // One turn of the file loop.
    method RemoveRecord(x: File)
      requires Valid()
      modifies this`files, this`folders, this`tree
      ensures Valid()
      ensures files == DropFile(old(files), x)
      ensures tree == Folder(name, files,
                             if x in old(files) && x.isFolder then DropChild(old(tree).folders, x.name)
                             else old(tree).folders)
    {
      if x in files && x.isFolder {
        DropNamed(x.name);
      }
      files := DropFile(files, x);
      tree := tree.(files := files);
    }

    // queue_remove with folder_equals
    method DropNamed(n: Bytes)
      requires Valid()
      modifies this`folders, this`tree
      ensures Valid()
      ensures tree == old(tree).(folders := DropChild(old(tree).folders, n))
    {
      var k := Find(n);
      if k != -1 {
        DropAt(tree.folders, n, k);
        Unlink(k);
      } else {
        DropAbsent(tree.folders, n);
      }
    }

    // One turn of the sub-folder loop.
    method RemoveFrom(toRemove: FolderNode)
      requires Valid() && toRemove.Valid() && Repr !! toRemove.Repr
      modifies Repr
      ensures Valid() && Repr == old(Repr)
      ensures tree == old(tree).(folders := FolderOps.RemoveFrom(old(tree).folders, toRemove.tree))
      decreases toRemove.Repr, 2
    {
      var k := Find(toRemove.name);
      if k != -1 {
        var removed := folders[k];
        ghost var gs, n := tree.folders, toRemove.name;
        removed.Remove(toRemove);
        StillValid(k);
        PutAt(gs, n, k, removed.tree);
        Refresh(k);
      }
    }

    // ---------------------------------------------------------------- folder_add

    // ok is false when an assert of the source fails; the process ends there.
    method Add(toAdd: FolderNode) returns (ok: bool)
      requires Valid() && toAdd.Valid() && Repr !! toAdd.Repr
      modifies Repr
      ensures ok <==> FolderOps.Add(old(tree), toAdd.tree).Some?
      ensures ok ==> Valid() && fresh(Repr - old(Repr)) && old(Repr) <= Repr
      ensures ok ==> tree == FolderOps.Add(old(tree), toAdd.tree).value
      decreases toAdd.Repr, 1
    {
      ghost var before, a := tree, toAdd.tree;
      ghost var goal := AddFiles(before.files, before.folders, a.files, a.folders);
      for i := 0 to |toAdd.files|
        invariant Valid() && fresh(Repr - old(Repr)) && old(Repr) <= Repr
        invariant toAdd.Valid() && toAdd.tree == a
        invariant tree == Folder(before.name, files, tree.folders)
        invariant AddFiles(files, tree.folders, a.files[i..], a.folders) == goal
      {
        assert a.files[i..][0] == a.files[i] && a.files[i..][1..] == a.files[i + 1..];
        ok := AddRecord(toAdd.files[i], toAdd);
        if !ok {
          return;
        }
      }
      for i := 0 to |toAdd.folders|
        invariant Valid() && fresh(Repr - old(Repr)) && old(Repr) <= Repr
        invariant toAdd.Valid() && toAdd.tree == a
        invariant goal.Some? && tree == Folder(before.name, goal.value.0, tree.folders)
        invariant AddFolders(tree.folders, a.folders[i..]) == AddFolders(goal.value.1, a.folders)
      {
        assert a.folders[i..][0] == a.folders[i] && a.folders[i..][1..] == a.folders[i + 1..];
        ok := AddInto(toAdd.folders[i]);
        if !ok {
          return;
        }
      }
      ok := true;
    }

    // One turn of the file loop.
    method AddRecord(x: File, toAdd: FolderNode) returns (ok: bool)
      requires Valid() && toAdd.Valid() && Repr !! toAdd.Repr
      modifies this
      ensures ok <==> !x.isFolder
                      || (Child(toAdd.tree.folders, x.name).Some?
                          && (x in old(files) <==> Child(old(tree).folders, x.name).Some?))
      ensures ok ==> Valid() && fresh(Repr - old(Repr)) && old(Repr) <= Repr
      ensures ok ==> tree == Folder(name,
                                    if x in old(files) then old(files) else old(files) + [x],
                                    if x in old(files) || !x.isFolder then old(tree).folders
                                    else old(tree).folders + [EmptyFolder(x.name)])
    {
      if x.isFolder {
        var folderToAdd := toAdd.Find(x.name);
        if folderToAdd == -1 {
          return false;
        }
        var alreadyContains := Find(x.name);
        if x in files {
          return alreadyContains != -1;
        }
        if alreadyContains != -1 {
          return false;
        }
        PushFile(x);
        PushEmpty(x.name);
      } else if x !in files {
        PushFile(x);
      }
      ok := true;
    }

    method PushFile(x: File)
      requires Valid()
      modifies this`files, this`tree
      ensures Valid() && files == old(files) + [x] && tree == old(tree).(files := files)
    {
      files := files + [x];
      tree := tree.(files := files);
    }

    method PushEmpty(n: Bytes)
      requires Valid()
      modifies this
      ensures Valid() && fresh(Repr - old(Repr)) && old(Repr) <= Repr
      ensures tree == old(tree).(folders := old(tree).folders + [EmptyFolder(n)])
    {
      var newFolder := new FolderNode(n);
      Append(newFolder);
    }

    // One turn of the sub-folder loop.
    method AddInto(folderToAdd: FolderNode) returns (ok: bool)
      requires Valid() && folderToAdd.Valid() && Repr !! folderToAdd.Repr
      modifies Repr
      ensures ok <==> Child(old(tree).folders, folderToAdd.name).Some?
                      && FolderOps.Add(Child(old(tree).folders, folderToAdd.name).value, folderToAdd.tree).Some?
      ensures ok ==> Valid() && fresh(Repr - old(Repr)) && old(Repr) <= Repr
      ensures ok ==> tree == old(tree).(folders :=
                PutChild(old(tree).folders, folderToAdd.name,
                         FolderOps.Add(Child(old(tree).folders, folderToAdd.name).value, folderToAdd.tree).value))
      decreases folderToAdd.Repr, 2
    {
      var k := Find(folderToAdd.name);
      if k == -1 {
        return false;
      }
      var found := folders[k];
      ghost var gs, n := tree.folders, folderToAdd.name;
      ok := found.Add(folderToAdd);
      if ok {
        Repr := Repr + found.Repr;
        StillValid(k);
        PutAt(gs, n, k, found.tree);
        Refresh(k);
      }
    }

    // ---------------------------------------------------------------- folder_remove_file_at_path

    // ok is false at the FAIL label, where the source stops.
    method RemoveFileAtPath(components: Path) returns (ok: bool)
      requires Valid()
      modifies Repr
      ensures Repr == old(Repr)
      ensures ok <==> RemoveAt(old(tree), components).Some?
      ensures ok ==> Valid() && tree == RemoveAt(old(tree), components).value
      decreases components
    {
      if components == [] {
        return false;
      }
      var component := components[0];
      if |components| > 1 {
        var k := Find(component);
        if k == -1 {
          return false;
        }
        var found := folders[k];
        ghost var gs := tree.folders;
        ok := found.RemoveFileAtPath(components[1..]);
        if ok {
          StillValid(k);
          PutAt(gs, component, k, found.tree);
          Refresh(k);
        }
      } else {
        var found := Named(files, component);
        if found.None? {
          return false;
        }
        if found.value.isFolder {
          var k := Find(component);
          if k == -1 {
            return false;
          }
        }
        RemoveRecord(found.value);
        ok := true;
      }
    }
  }

  lemma {:induction false} DropAbsent(gs: seq<Folder>, n: Bytes)
    requires Child(gs, n).None?
    ensures DropChild(gs, n) == gs
  {
    if gs == [] {
    } else {
      DropAbsent(gs[1..], n);
    }
  }

  // ---------------------------------------------------------------- filesystem_diff and its users

  method FilesystemDiff(prev: FolderNode, next: FolderNode)
    returns (additions: FolderNode, deletions: FolderNode)
    requires prev.Valid() && next.Valid() && prev.Repr !! next.Repr
    ensures additions.Valid() && deletions.Valid() && fresh(additions.Repr) && fresh(deletions.Repr)
    ensures additions.Repr !! deletions.Repr
    ensures (additions.tree, deletions.tree) == DiffPatch.Diff(prev.tree, next.tree)
  {
    additions := prev.Copy();
    deletions := next.Copy();
    deletions.Subtract(additions);
    additions.Subtract(next);
    additions, deletions := deletions, additions;
  }

  method FilesystemEqualsNodes(a: FolderNode, b: FolderNode) returns (same: bool)
    requires a.Valid() && b.Valid() && a.Repr !! b.Repr
    ensures same <==> DiffPatch.FilesystemEquals(a.tree, b.tree)
  {
    var additions, deletions := FilesystemDiff(a, b);
    same := additions.files == [] && additions.folders == [] && deletions.files == [] && deletions.folders == [];
  }

  // filesystem_minus_equals and filesystem_plus_equals with one received diff
  method ApplyDiff(fs: FolderNode, additions: FolderNode, deletions: FolderNode) returns (ok: bool)
    requires fs.Valid() && additions.Valid() && deletions.Valid()
    requires fs.Repr !! additions.Repr && fs.Repr !! deletions.Repr
    modifies fs.Repr
    ensures ok <==> DiffPatch.Patch(old(fs.tree), (additions.tree, deletions.tree)).Some?
    ensures ok ==> fs.Valid() && fs.tree == DiffPatch.Patch(old(fs.tree), (additions.tree, deletions.tree)).value
  {
    fs.Remove(deletions);
    ok := fs.Add(additions);
  }
}
