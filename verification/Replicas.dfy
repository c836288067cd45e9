// Replicas that follow one chain of diffs.
module Replicas {
  import opened Basics
  import opened FileTree
  import opened FolderOps
  import opened DiffPatch

  // ---------------------------------------------------------------- a diff applied once too often

  lemma {:induction false} RemoveFilesAbsent(xs: seq<File>, fs: seq<Folder>, ss: seq<File>)
    requires forall s :: s in ss ==> s !in xs
    ensures RemoveFiles(xs, fs, ss) == (xs, fs)
    decreases ss
  {
    if ss == [] {
    } else {
      DropFileAbsent(xs, ss[0]);
      RemoveFilesAbsent(xs, fs, ss[1..]);
    }
  }

  lemma {:induction false} RemoveFoldersAbsent(fs: seq<Folder>, ss: seq<Folder>)
    requires forall s :: s in ss && Child(fs, s.name).Some? ==>
               Remove(Child(fs, s.name).value, s) == Child(fs, s.name).value
    ensures RemoveFolders(fs, ss) == fs
    decreases ss
  {
    if ss == [] {
    } else {
      if Child(fs, ss[0].name).Some? {
        PutChildSame(fs, ss[0].name, Child(fs, ss[0].name).value);
      }
      RemoveFoldersAbsent(fs, ss[1..]);
    }
  }

  // folder_remove of entries that are not there leaves the tree as it is, queue order included.
  lemma {:induction false} RemoveAbsent(f: Folder, s: Folder)
    requires Unique(s) && forall dir, x :: Has(s, dir, x) ==> !Has(f, dir, x)
    ensures Remove(f, s) == f
    decreases s
  {
    forall x | x in s.files ensures x !in f.files {
      assert Has(s, [], x);
    }
    RemoveFilesAbsent(f.files, f.folders, s.files);
    forall c | c in s.folders && Child(f.folders, c.name).Some?
      ensures Remove(Child(f.folders, c.name).value, c) == Child(f.folders, c.name).value
    {
      ChildFound(s.folders, c);
      forall dir, x | Has(c, dir, x) ensures !Has(Child(f.folders, c.name).value, dir, x) {
        HasCons(s, c.name, dir, x);
        HasCons(f, c.name, dir, x);
      }
      RemoveAbsent(Child(f.folders, c.name).value, c);
    }
    RemoveFoldersAbsent(f.folders, s.folders);
  }

  lemma {:induction false} AddFilesPresent(xs: seq<File>, fs: seq<Folder>, aa: seq<File>, all: seq<Folder>)
    requires forall a :: a in aa ==>
               a in xs && (a.isFolder ==> Child(all, a.name).Some? && Child(fs, a.name).Some?)
    ensures AddFiles(xs, fs, aa, all) == Some((xs, fs))
    decreases aa
  {
    if aa == [] {
    } else {
      AddFilesPresent(xs, fs, aa[1..], all);
    }
  }

  lemma {:induction false} AddFoldersPresent(fs: seq<Folder>, aa: seq<Folder>)
    requires forall a :: a in aa ==>
               Child(fs, a.name).Some? && Add(Child(fs, a.name).value, a) == Child(fs, a.name)
    ensures AddFolders(fs, aa) == Some(fs)
    decreases aa
  {
    if aa == [] {
    } else {
      PutChildSame(fs, aa[0].name, Child(fs, aa[0].name).value);
      AddFoldersPresent(fs, aa[1..]);
    }
  }

  // Adding what a snapshot already holds leaves it as it is.
  lemma {:induction false} AddPresent(cur: Folder, old_: Folder, new_: Folder)
    requires Snapshot(cur) && Snapshot(old_) && Snapshot(new_) && SameEntries(cur, new_)
    ensures Add(cur, Subtract(new_, old_)) == Some(cur)
    decreases new_
  {
    var adds := Subtract(new_, old_);
    SubtractFilesMembers(new_.files, old_.files);
    forall x ensures x in cur.files <==> x in new_.files {
      assert Has(cur, [], x) <==> Has(new_, [], x);
    }
    forall a | a in adds.files && a.isFolder
      ensures Child(adds.folders, a.name).Some? && Child(cur.folders, a.name).Some?
    {
      SubtractFoldersLookup(new_.folders, old_.folders, a.name);
      assert a == Marker(a.name);
    }
    AddFilesPresent(cur.files, cur.folders, adds.files, adds.folders);
    forall a | a in adds.folders
      ensures Child(cur.folders, a.name).Some?
      ensures Add(Child(cur.folders, a.name).value, a) == Child(cur.folders, a.name)
    {
      var m := a.name;
      SubtractFoldersLookup(new_.folders, old_.folders, m);
      ChildFound(adds.folders, a);
      LagsFiles(cur, new_, new_, m);
      PartsLag(cur, new_, new_, m);
      PartsLag(new_, cur, cur, m);
      var o := OldPart(Child(old_.folders, m), m);
      EmptyIsNeutral(Child(new_.folders, m).value, EmptyFolder(m));
      AddPresent(Child(cur.folders, m).value, o, Child(new_.folders, m).value);
    }
    AddFoldersPresent(cur.folders, adds.folders);
  }

  // Applying the diff that led to the present state again changes nothing at all.
  lemma PatchTwice(cur: Folder, old_: Folder, new_: Folder)
    requires Snapshot(cur) && Snapshot(old_) && Snapshot(new_) && SameEntries(cur, new_)
    ensures Patch(cur, Diff(old_, new_)) == Some(cur)
  {
    SnapshotIsUnique(old_);
    SnapshotIsUnique(new_);
    SubtractUnique(old_, new_);
    forall dir, x | Has(Subtract(old_, new_), dir, x) ensures !Has(cur, dir, x) {
      SubtractIsDifference(old_, new_, dir, x);
    }
    RemoveAbsent(cur, Subtract(old_, new_));
    AddPresent(cur, old_, new_);
  }

  // ---------------------------------------------------------------- chains of diffs

  // The same diff applied k times.
  function Repeated(t: Folder, diff: (Folder, Folder), k: nat): Option<Folder>
    decreases k
  {
    if k == 0 then Some(t)
    else
      match Patch(t, diff)
      case None => None
      case Some(r) => Repeated(r, diff, k - 1)
  }

  // A replica that receives the diffs between successive snapshots in order, diff i
  // delivered 1 + again[i] times.
  function Follow(t: Folder, snaps: seq<Folder>, again: seq<nat>): Option<Folder>
    requires |snaps| == |again| + 1
    decreases again
  {
    if again == [] then Some(t)
    else
      match Repeated(t, Diff(snaps[0], snaps[1]), 1 + again[0])
      case None => None
      case Some(r) => Follow(r, snaps[1..], again[1..])
  }

  lemma {:induction false} RepeatSettles(t: Folder, old_: Folder, new_: Folder, k: nat)
    requires Snapshot(t) && Snapshot(old_) && Snapshot(new_) && SameEntries(t, new_)
    ensures Repeated(t, Diff(old_, new_), k) == Some(t)
    decreases k
  {
    if k == 0 {
    } else {
      PatchTwice(t, old_, new_);
      RepeatSettles(t, old_, new_, k - 1);
    }
  }

  // A replica that starts equal to the first snapshot reaches the last one.
  lemma {:induction false} ReplicaReachesLast(t: Folder, snaps: seq<Folder>, again: seq<nat>)
    requires |snaps| == |again| + 1
    requires forall s :: s in snaps ==> Snapshot(s)
    requires Snapshot(t) && SameEntries(t, snaps[0])
    ensures var r := Follow(t, snaps, again);
      r.Some? && Snapshot(r.value) && SameEntries(r.value, snaps[|again|])
    decreases again
  {
    if again == [] {
    } else {
      var d := Diff(snaps[0], snaps[1]);
      PatchInvertsDiff(t, snaps[0], snaps[1]);
      RepeatSettles(Patch(t, d).value, snaps[0], snaps[1], again[0]);
      ReplicaReachesLast(Patch(t, d).value, snaps[1..], again[1..]);
      assert snaps[1..][|again[1..]|] == snaps[|again|];
    }
  }

  // Two replicas that start equal end equal, however often each diff reached either of them.
  lemma ReplicasConverge(t: Folder, u: Folder, snaps: seq<Folder>, again: seq<nat>, again': seq<nat>)
    requires |snaps| == |again| + 1 == |again'| + 1
    requires forall s :: s in snaps ==> Snapshot(s)
    requires Snapshot(t) && Snapshot(u) && SameEntries(t, snaps[0]) && SameEntries(u, t)
    ensures Follow(t, snaps, again).Some? && Follow(u, snaps, again').Some?
    ensures FilesystemEquals(Follow(t, snaps, again).value, Follow(u, snaps, again').value)
  {
    ReplicaReachesLast(t, snaps, again);
    ReplicaReachesLast(u, snaps, again');
    EqualsIffSameEntries(Follow(t, snaps, again).value, Follow(u, snaps, again').value);
  }

  // Why each diff must be taken against its predecessor: one peer deletes a folder, another adds a
  // file inside it, and the second diff stops on the assert of folder_add.
  lemma StaleDiffAborts(n: Bytes, x: Bytes)
    ensures var old_ := Folder([], [Marker(n)], [EmptyFolder(n)]);
            var without := EmptyFolder([]);
            var within := Folder([], [Marker(n)], [Folder(n, [File(x, 1, 1, false)], [])]);
      && Snapshot(old_) && Snapshot(without) && Snapshot(within)
      && Patch(old_, Diff(old_, without)) == Some(without)
      && Patch(without, Diff(old_, within)) == None
  {
    var old_ := Folder([], [Marker(n)], [EmptyFolder(n)]);
    var without := EmptyFolder([]);
    var within := Folder([], [Marker(n)], [Folder(n, [File(x, 1, 1, false)], [])]);
    OneFolder(EmptyFolder(n));
    OneFolder(Folder(n, [File(x, 1, 1, false)], []));
    DeleteFolder(n);
    PatchSucceedsIff(without, old_, within);
    assert Has(within, [n], File(x, 1, 1, false)) && !Has(old_, [n], File(x, 1, 1, false));
    assert [n][..0] == [] && Has(old_, [n][..0], Marker([n][0]));
  }

  lemma OneFolder(c: Folder)
    requires Snapshot(c)
    ensures Snapshot(Folder([], [Marker(c.name)], [c]))
  {
    var t := Folder([], [Marker(c.name)], [c]);
    assert forall m :: Child(t.folders, m).Some? <==> m == c.name;
  }

  lemma DeleteFolder(n: Bytes)
    ensures var old_ := Folder([], [Marker(n)], [EmptyFolder(n)]);
      Patch(old_, Diff(old_, EmptyFolder([]))) == Some(EmptyFolder([]))
  {
    var old_, without := Folder([], [Marker(n)], [EmptyFolder(n)]), EmptyFolder([]);
    EmptyMinus(old_.folders, old_.files);
    assert Subtract(old_, without) == old_;
    assert Subtract(without, old_) == without;
    assert DropFile([Marker(n)], Marker(n)) == [];
    assert RemoveFiles([Marker(n)], [EmptyFolder(n)], [Marker(n)]) == RemoveFiles([], [], []) == ([], []);
    assert RemoveFolders([], [EmptyFolder(n)]) == RemoveFolders([], []) == [];
    assert Remove(old_, old_) == without;
  }
}
