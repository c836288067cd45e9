// A diff applied to a tree that is ahead of its base: the tracker's master holds files that the
// client which made the diff has not fetched yet.
module AheadPatch {
  import opened Basics
  import opened FileTree
  import opened FolderOps
  import opened DiffPatch
  import opened Listing
  import opened DiskReplay

  ghost predicate Within(base: Folder, t: Folder) {
    forall dir, x :: Has(base, dir, x) ==> Has(t, dir, x)
  }

  // Some directory on the way down `dir` is given up from base to next.
  ghost predicate GivenUp(base: Folder, next: Folder, dir: Path) {
    exists k :: 0 <= k < |dir| && Has(base, dir[..k], Marker(dir[k])) && !Has(next, dir[..k], Marker(dir[k]))
  }

  // What t holds after the diff: what neither goes by itself nor with a directory, and what is added.
  ghost predicate Merged(t: Folder, base: Folder, next: Folder, dir: Path, x: File) {
    || (Has(t, dir, x) && !(Has(base, dir, x) && !Has(next, dir, x)) && !GivenUp(base, next, dir))
    || (Has(next, dir, x) && !Has(base, dir, x))
  }

  lemma CutIsGivenUp(base: Folder, next: Folder, dir: Path)
    requires Snapshot(base) && Snapshot(next)
    ensures Cut(Subtract(base, next), dir) <==> GivenUp(base, next, dir)
  {
    SnapshotIsUnique(base);
    SnapshotIsUnique(next);
    if Cut(Subtract(base, next), dir) {
      var k := CutWitness(Subtract(base, next), dir);
      SubtractIsDifference(base, next, dir[..k], Marker(dir[k]));
    }
    if k :| 0 <= k < |dir| && Has(base, dir[..k], Marker(dir[k])) && !Has(next, dir[..k], Marker(dir[k])) {
      SubtractIsDifference(base, next, dir[..k], Marker(dir[k]));
      CutIntro(Subtract(base, next), dir, k);
    }
  }

  // No assert fires on such a tree, and it holds the merged entries afterwards.
  lemma AheadSucceeds(t: Folder, base: Folder, next: Folder)
    requires Snapshot(t) && Snapshot(base) && Snapshot(next) && Within(base, t)
    ensures var r := Patch(t, Diff(base, next));
      r.Some? && forall dir, x :: Has(r.value, dir, x) <==> Merged(t, base, next, dir, x)
  {
    PatchSucceedsIff(t, base, next);
    PatchFiles(t, base, next);
    var (adds, dels) := Diff(base, next);
    SnapshotIsUnique(Remove(t, dels));
    forall dir, x ensures Has(Patch(t, (adds, dels)).value, dir, x) <==> Merged(t, base, next, dir, x) {
      AddIsUnion(Remove(t, dels), adds, dir, x);
      AddedEntry(base, next, dir, x);
      LeftEntry(t, base, next, dir, x);
    }
  }

  lemma AddedEntry(base: Folder, next: Folder, dir: Path, x: File)
    requires Snapshot(base) && Snapshot(next)
    ensures Has(Diff(base, next).0, dir, x) <==> Has(next, dir, x) && !Has(base, dir, x)
  {
    SnapshotIsUnique(base);
    SnapshotIsUnique(next);
    SubtractIsDifference(next, base, dir, x);
  }

  lemma LeftEntry(t: Folder, base: Folder, next: Folder, dir: Path, x: File)
    requires Snapshot(t) && Snapshot(base) && Snapshot(next)
    ensures Has(Remove(t, Diff(base, next).1), dir, x)
       <==> Has(t, dir, x) && !(Has(base, dir, x) && !Has(next, dir, x)) && !GivenUp(base, next, dir)
  {
    PatchFiles(t, base, next);
    AddedEntry(next, base, dir, x);
    CutIsGivenUp(base, next, dir);
    RemoveDenotes(t, Diff(base, next).1, dir, x);
  }

  // ---------------------------------------------------------------- when the result is a snapshot

  // Where the two trees have records at one path, they are the same.
  ghost predicate NoClash(f: Folder, a: Folder) {
    forall dir, x, y :: Has(a, dir, x) && Has(f, dir, y) && x.name == y.name ==> x == y
  }

  lemma NoClashBelow(f: Folder, a: Folder, m: Bytes)
    requires NoClash(f, a) && Child(a.folders, m).Some?
    ensures NoClash(OldPart(Child(f.folders, m), m), Child(a.folders, m).value)
  {
    var g, c := OldPart(Child(f.folders, m), m), Child(a.folders, m).value;
    forall dir, x, y | Has(c, dir, x) && Has(g, dir, y) && x.name == y.name ensures x == y {
      HasCons(a, m, dir, x);
      PartHas(f, m, dir, y);
    }
  }

  // One level of the sum.
  lemma SumLevel(f: Folder, a: Folder)
    requires Snapshot(f) && Unique(a) && CleanMarkers(a) && NoClash(f, a) && Add(f, a).Some?
    ensures var r := Add(f, a).value;
      UniqueFiles(r.files) && UniqueFolders(r.folders) && MarkersMatch(r)
  {
    var r := Add(f, a).value;
    SnapshotIsUnique(f);
    AddLookup(f, a, f.name);
    forall x | x in a.files && x.isFolder ensures x == Marker(x.name) {
      assert Has(a, [], x);
    }
    forall m ensures Child(r.folders, m).Some? <==> Marker(m) in r.files {
      AddLookup(f, a, m);
      AddedHasBase(f, a, m);
      MarkerIffChild(f, m);
    }
    SumFilesUnique(f, a, r.files);
  }

  lemma SumFilesUnique(f: Folder, a: Folder, xs: seq<File>)
    requires UniqueFiles(f.files) && UniqueFiles(a.files) && NoClash(f, a)
    requires NoDuplicates(xs) && forall y :: y in xs <==> y in f.files || y in a.files
    ensures UniqueFiles(xs)
  {
    forall i, j | 0 <= i < j < |xs| ensures xs[i].name != xs[j].name {
      assert xs[i] in xs && xs[j] in xs;
      if xs[i].name == xs[j].name {
        SameRecord(f, a, xs[i], xs[j]);
      }
    }
  }

  lemma SameRecord(f: Folder, a: Folder, x: File, y: File)
    requires UniqueFiles(f.files) && UniqueFiles(a.files) && NoClash(f, a) && x.name == y.name
    requires (x in f.files || x in a.files) && (y in f.files || y in a.files)
    ensures x == y
  {
    assert Has(f, [], x) <==> x in f.files;
    assert Has(f, [], y) <==> y in f.files;
    assert Has(a, [], x) <==> x in a.files;
    assert Has(a, [], y) <==> y in a.files;
    if x in f.files && y in f.files {
      UniqueName(f.files, x, y);
    } else if x in a.files && y in a.files {
      UniqueName(a.files, x, y);
    }
  }

  // A sum without clashes is a snapshot.
  lemma {:induction false} AddKeepsSnapshot(f: Folder, a: Folder)
    requires Snapshot(f) && Unique(a) && CleanMarkers(a) && NoClash(f, a) && Add(f, a).Some?
    ensures Snapshot(Add(f, a).value)
    decreases a
  {
    var r := Add(f, a).value;
    SumLevel(f, a);
    SnapshotIsUnique(f);
    forall d | d in r.folders ensures Snapshot(d) {
      ChildFound(r.folders, d);
      AddLookup(f, a, d.name);
      AddedHasBase(f, a, d.name);
      var c := Child(a.folders, d.name);
      if c.Some? {
        CleanBelow(a, c.value);
        NoClashBelow(f, a, d.name);
        AddKeepsSnapshot(OldPart(Child(f.folders, d.name), d.name), c.value);
      }
    }
  }

  // No added entry has the path of another one that the tree has and the base lacks.
  ghost predicate NoCollision(t: Folder, base: Folder, next: Folder) {
    forall dir, x, y ::
      Has(next, dir, x) && !Has(base, dir, x) && Has(t, dir, y) && !Has(base, dir, y) && x.name == y.name ==> x == y
  }

  // The tree stays a snapshot exactly then.
  lemma AheadIsSnapshotIff(t: Folder, base: Folder, next: Folder)
    requires Snapshot(t) && Snapshot(base) && Snapshot(next) && Within(base, t)
    ensures Patch(t, Diff(base, next)).Some?
    ensures Snapshot(Patch(t, Diff(base, next)).value) <==> NoCollision(t, base, next)
  {
    AheadSucceeds(t, base, next);
    var r := Patch(t, Diff(base, next)).value;
    if NoCollision(t, base, next) {
      NoCollisionNoClash(t, base, next);
      AdditionsClean(base, next);
      PatchFiles(t, base, next);
      AddKeepsSnapshot(Remove(t, Diff(base, next).1), Diff(base, next).0);
    }
    if Snapshot(r) {
      SnapshotIsUnique(r);
      forall dir, x, y |
        Has(next, dir, x) && !Has(base, dir, x) && Has(t, dir, y) && !Has(base, dir, y) && x.name == y.name
        ensures x == y
      {
        NotGivenUp(base, next, dir, x);
        assert Merged(t, base, next, dir, x) && Merged(t, base, next, dir, y);
        OneRecordPerName(r, dir, x, y);
      }
    }
  }

  // What stands in the new tree stands in no directory that is given up.
  lemma NotGivenUp(base: Folder, next: Folder, dir: Path, x: File)
    requires Snapshot(base) && Snapshot(next) && Has(next, dir, x)
    ensures !GivenUp(base, next, dir)
  {
    forall k | 0 <= k < |dir| ensures Has(next, dir[..k], Marker(dir[k])) {
      AncestorsMarked(next, dir, x, k);
    }
  }

  lemma AdditionsClean(base: Folder, next: Folder)
    requires Snapshot(base) && Snapshot(next)
    ensures CleanMarkers(Diff(base, next).0)
  {
    forall dir, x | Has(Diff(base, next).0, dir, x) && x.isFolder ensures x == Marker(x.name) {
      AddedEntry(base, next, dir, x);
      SnapshotIsClean(next, dir, x);
    }
  }

  lemma NoCollisionNoClash(t: Folder, base: Folder, next: Folder)
    requires Snapshot(t) && Snapshot(base) && Snapshot(next) && Within(base, t) && NoCollision(t, base, next)
    ensures NoClash(Remove(t, Diff(base, next).1), Diff(base, next).0)
  {
    var (adds, dels) := Diff(base, next);
    SnapshotIsUnique(next);
    forall dir, x, y | Has(adds, dir, x) && Has(Remove(t, dels), dir, y) && x.name == y.name ensures x == y {
      AddedEntry(base, next, dir, x);
      LeftEntry(t, base, next, dir, y);
      if Has(base, dir, y) {
        OneRecordPerName(next, dir, x, y);
      }
    }
  }
}
