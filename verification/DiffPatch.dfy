// filesystem_diff, filesystem_equals and the two in-place updates as a diff/patch calculus.
module DiffPatch {
  import opened Basics
  import opened FileTree
  import opened FolderOps

  // filesystem_diff: the additions and the deletions.
  function Diff(old_: Folder, new_: Folder): (Folder, Folder) {
    (Subtract(new_, old_), Subtract(old_, new_))
  }

  predicate FilesystemEquals(a: Folder, b: Folder) {
    IsEmpty(Diff(a, b).0) && IsEmpty(Diff(a, b).1)
  }

  // filesystem_minus_equals with the deletions, then filesystem_plus_equals with the additions;
  // None when an assert of folder_add fails.
  function Patch(t: Folder, diff: (Folder, Folder)): Option<Folder> {
    Add(Remove(t, diff.1), diff.0)
  }

  // ---------------------------------------------------------------- what each operation denotes

  // folder_subtract is set difference on entries.
  lemma {:induction false} SubtractIsDifference(f: Folder, s: Folder, dir: Path, x: File)
    requires Unique(f) && Unique(s)
    ensures Has(Subtract(f, s), dir, x) <==> Has(f, dir, x) && !Has(s, dir, x)
    decreases dir
  {
    SubtractFilesMembers(f.files, s.files);
    if dir == [] {
    } else {
      SubtractFoldersLookup(f.folders, s.folders, dir[0]);
      var g, t := Child(f.folders, dir[0]), Child(s.folders, dir[0]);
      if g.Some? && t.Some? {
        SubtractIsDifference(g.value, t.value, dir[1..], x);
        if IsEmpty(Subtract(g.value, t.value)) {
          assert !Has(Subtract(g.value, t.value), dir[1..], x);
        }
      }
    }
  }

  // Some directory on the way down `dir` is listed in s by its marker.
  ghost predicate Cut(s: Folder, dir: Path) {
    && dir != []
    && (|| Marker(dir[0]) in s.files
        || (Child(s.folders, dir[0]).Some? && Cut(Child(s.folders, dir[0]).value, dir[1..])))
  }

  lemma {:induction false} CutWitness(s: Folder, dir: Path) returns (k: nat)
    requires Cut(s, dir)
    ensures k < |dir| && Has(s, dir[..k], Marker(dir[k]))
  {
    if Marker(dir[0]) in s.files {
      k := 0;
    } else {
      var j := CutWitness(Child(s.folders, dir[0]).value, dir[1..]);
      k := j + 1;
      assert dir[..k][1..] == dir[1..][..j];
    }
  }

  lemma {:induction false} CutIntro(s: Folder, dir: Path, k: nat)
    requires k < |dir| && Has(s, dir[..k], Marker(dir[k]))
    ensures Cut(s, dir)
  {
    if k == 0 {
    } else {
      assert dir[..k][1..] == dir[1..][..k - 1];
      CutIntro(Child(s.folders, dir[0]).value, dir[1..], k - 1);
    }
  }

  // folder_remove on a snapshot: the listed records go, and all that stood below a removed marker.
  lemma {:induction false} RemoveDenotes(f: Folder, s: Folder, dir: Path, x: File)
    requires Snapshot(f) && Unique(s)
    ensures Has(Remove(f, s), dir, x) <==> Has(f, dir, x) && !Has(s, dir, x) && !Cut(s, dir)
    decreases dir
  {
    if dir == [] {
      RemoveLookup(f, s, f.name);
    } else {
      var n := dir[0];
      RemoveLookup(f, s, n);
      var g, t := Child(f.folders, n), Child(s.folders, n);
      if g.Some? {
        assert MarkerRemoved(f.files, s.files, n) <==> Marker(n) in s.files by {
          assert Marker(n) in f.files;
        }
        if t.Some? {
          RemoveDenotes(g.value, t.value, dir[1..], x);
        }
      }
    }
  }

  lemma UniqueHasNoDuplicates(xs: seq<File>)
    requires UniqueFiles(xs)
    ensures NoDuplicates(xs)
  {
  }

  // folder_add is union on entries.
  lemma {:induction false} AddIsUnion(f: Folder, a: Folder, dir: Path, x: File)
    requires Unique(f) && Unique(a) && Add(f, a).Some?
    ensures Has(Add(f, a).value, dir, x) <==> Has(f, dir, x) || Has(a, dir, x)
    decreases dir
  {
    if dir == [] {
      AddLookup(f, a, f.name);
    } else {
      var n := dir[0];
      AddLookup(f, a, n);
      var b, c := AddBase(f, a, n), Child(a.folders, n);
      AddedHasBase(f, a, n);
      if b.Some? && c.Some? {
        AddIsUnion(b.value, c.value, dir[1..], x);
      }
    }
  }

  // A sub-folder to add always finds a folder to work on when no assert fails.
  lemma AddedHasBase(f: Folder, a: Folder, n: Bytes)
    requires Unique(f) && Unique(a) && Add(f, a).Some?
    ensures Child(a.folders, n).Some? ==>
              AddBase(f, a, n).Some? && Unique(AddBase(f, a, n).value)
              && Add(AddBase(f, a, n).value, Child(a.folders, n).value).Some?
  {
    AddFilesMembers(f.files, f.folders, a.files, a.folders, n);
    var (xs, fs) := AddFiles(f.files, f.folders, a.files, a.folders).value;
    AddFoldersSucceeds(fs, a.folders);
  }

  // ---------------------------------------------------------------- when the asserts hold

  // What folder_add asks of its arguments, readable from the two trees before the call.
  ghost predicate CanAdd(f: Folder, a: Folder)
    decreases a
  {
    && MarkersFit(f.files, f.folders, a.files, a.folders)
    && forall c :: c in a.folders ==>
         AddBase(f, a, c.name).Some? && CanAdd(AddBase(f, a, c.name).value, c)
  }

  // The asserts of folder_add all hold exactly on such trees.
  lemma {:induction false} AddSucceedsIff(f: Folder, a: Folder)
    requires Unique(f) && Unique(a)
    ensures Add(f, a).Some? <==> CanAdd(f, a)
    decreases a
  {
    AddFilesSucceeds(f.files, f.folders, a.files, a.folders);
    var r := AddFiles(f.files, f.folders, a.files, a.folders);
    if r.Some? {
      AddFoldersSucceeds(r.value.1, a.folders);
      forall c | c in a.folders
        ensures Child(r.value.1, c.name) == AddBase(f, a, c.name)
        ensures AddBase(f, a, c.name).Some? ==>
                  (Add(AddBase(f, a, c.name).value, c).Some? <==> CanAdd(AddBase(f, a, c.name).value, c))
      {
        AddFilesMembers(f.files, f.folders, a.files, a.folders, c.name);
        if AddBase(f, a, c.name).Some? {
          AddSucceedsIff(AddBase(f, a, c.name).value, c);
        }
      }
    }
  }

  // ---------------------------------------------------------------- filesystem_equals

  // A subtraction that leaves a folder leaves an entry.
  lemma {:induction false} LeftoverHasEntry(f: Folder, s: Folder) returns (dir: Path, x: File)
    requires Snapshot(f) && Snapshot(s) && !IsEmpty(Subtract(f, s))
    ensures Has(Subtract(f, s), dir, x)
    decreases s
  {
    var r := Subtract(f, s);
    if r.files != [] {
      dir, x := [], r.files[0];
    } else {
      var c := r.folders[0];
      SubtractFilesMembers(f.files, s.files);
      SubtractFoldersLookup(f.folders, s.folders, c.name);
      ChildFound(r.folders, c);
      var g, t := Child(f.folders, c.name), Child(s.folders, c.name);
      assert Marker(c.name) in f.files;
      assert Marker(c.name) in s.files;
      var d;
      d, x := LeftoverHasEntry(g.value, t.value);
      dir := [c.name] + d;
      HasCons(r, c.name, d, x);
    }
  }

  // filesystem_equals holds exactly of snapshots with the same entries, whatever their order.
  lemma EqualsIffSameEntries(a: Folder, b: Folder)
    requires Snapshot(a) && Snapshot(b)
    ensures FilesystemEquals(a, b) <==> SameEntries(a, b)
  {
    SnapshotIsUnique(a);
    SnapshotIsUnique(b);
    forall dir, x
      ensures Has(Subtract(a, b), dir, x) <==> Has(a, dir, x) && !Has(b, dir, x)
      ensures Has(Subtract(b, a), dir, x) <==> Has(b, dir, x) && !Has(a, dir, x)
    {
      SubtractIsDifference(a, b, dir, x);
      SubtractIsDifference(b, a, dir, x);
    }
    if FilesystemEquals(a, b) {
      forall dir, x ensures Has(a, dir, x) <==> Has(b, dir, x) {
        NothingInEmpty(Subtract(a, b), dir, x);
        NothingInEmpty(Subtract(b, a), dir, x);
      }
    }
    if !IsEmpty(Subtract(a, b)) {
      var dir, x := LeftoverHasEntry(a, b);
    }
    if !IsEmpty(Subtract(b, a)) {
      var dir, x := LeftoverHasEntry(b, a);
    }
  }

  lemma NothingInEmpty(t: Folder, dir: Path, x: File)
    requires IsEmpty(t)
    ensures !Has(t, dir, x)
  {
  }

  // ---------------------------------------------------------------- applying a diff, folder by folder

  lemma {:induction false} EmptyMinus(ss: seq<Folder>, xs: seq<File>)
    ensures SubtractFolders([], ss) == []
    ensures SubtractFiles([], xs) == []
    decreases |ss| + |xs|
  {
    if ss != [] {
      EmptyMinus(ss[1..], xs);
    } else if xs != [] {
      EmptyMinus(ss, xs[1..]);
    }
  }

  // A sub-folder m, or an empty one where there is none.
  function OldPart(o: Option<Folder>, m: Bytes): Folder {
    if o.Some? then o.value else EmptyFolder(m)
  }

  // Subtracting, removing or adding an empty tree changes nothing.
  lemma EmptyIsNeutral(f: Folder, s: Folder)
    requires IsEmpty(s)
    ensures Subtract(f, s) == f && Remove(f, s) == f && Add(f, s) == Some(f)
  {
  }

  // A snapshot from which records were removed is a snapshot.
  lemma {:induction false} RemoveKeepsSnapshot(f: Folder, s: Folder)
    requires Snapshot(f) && Unique(s)
    ensures Snapshot(Remove(f, s))
    decreases s
  {
    var r := Remove(f, s);
    RemoveLookup(f, s, f.name);
    forall m
      ensures Child(r.folders, m).Some? <==> Marker(m) in r.files
      ensures Child(r.folders, m).Some? ==> Snapshot(Child(r.folders, m).value)
    {
      RemoveLookup(f, s, m);
      assert Child(f.folders, m).Some? <==> Marker(m) in f.files;
      assert Marker(m).name == m;
      if Child(f.folders, m).Some? && Child(s.folders, m).Some? {
        RemoveKeepsSnapshot(Child(f.folders, m).value, Child(s.folders, m).value);
      }
    }
    forall c | c in r.folders ensures Snapshot(c) {
      ChildFound(r.folders, c);
    }
  }

  lemma PatchFiles(t: Folder, old_: Folder, new_: Folder)
    requires Snapshot(t) && Snapshot(old_) && Snapshot(new_)
    ensures var (adds, dels) := Diff(old_, new_);
            var mid := Remove(t, dels);
      && Snapshot(mid) && Unique(adds) && Unique(dels)
      && (forall x :: x in adds.files <==> x in new_.files && x !in old_.files)
      && (forall x :: x in mid.files <==> x in t.files && (x in new_.files || x !in old_.files))
  {
    SnapshotIsUnique(old_);
    SnapshotIsUnique(new_);
    SubtractUnique(new_, old_);
    SubtractUnique(old_, new_);
    SubtractFilesMembers(new_.files, old_.files);
    SubtractFilesMembers(old_.files, new_.files);
    RemoveKeepsSnapshot(t, Subtract(old_, new_));
    RemoveLookup(t, Subtract(old_, new_), t.name);
  }

  // Sub-folder m of the additions.
  lemma AddedPart(old_: Folder, new_: Folder, m: Bytes)
    requires Snapshot(old_) && Snapshot(new_)
    ensures var adds := Diff(old_, new_).0;
            var o, n := Child(old_.folders, m), Child(new_.folders, m);
      && (MarkerAdded(adds.files, m) <==> n.Some? && o.None?)
      && (Child(adds.folders, m).Some? <==> n.Some? && !(o.Some? && IsEmpty(Subtract(n.value, o.value))))
      && (Child(adds.folders, m).Some? ==> Child(adds.folders, m).value == Subtract(n.value, OldPart(o, m)))
  {
    SubtractFilesMembers(new_.files, old_.files);
    SubtractFoldersLookup(new_.folders, old_.folders, m);
    var o, n := Child(old_.folders, m), Child(new_.folders, m);
    assert n.Some? <==> Marker(m) in new_.files;
    assert o.Some? <==> Marker(m) in old_.files;
    if n.Some? {
      EmptyIsNeutral(n.value, EmptyFolder(m));
    }
  }

  // Sub-folder m after the deletions, from those of t, old and new.
  function Kept(c: Option<Folder>, o: Option<Folder>, n: Option<Folder>, m: Bytes): Option<Folder> {
    if c.None? || (o.Some? && n.None?) then None
    else if n.None? then c
    else Some(Remove(c.value, Subtract(OldPart(o, m), n.value)))
  }

  // The sub-folder m that the additions then go into.
  function Entered(c: Option<Folder>, o: Option<Folder>, n: Option<Folder>, m: Bytes): Option<Folder> {
    if n.None? then (if o.Some? then None else c)
    else if c.None? && o.Some? then None
    else Some(Remove(OldPart(c, m), Subtract(OldPart(o, m), n.value)))
  }

  lemma KeptPart(t: Folder, old_: Folder, new_: Folder, m: Bytes)
    requires Snapshot(t) && Snapshot(old_) && Snapshot(new_)
    ensures var c, o, n := Child(t.folders, m), Child(old_.folders, m), Child(new_.folders, m);
      Child(Remove(t, Diff(old_, new_).1).folders, m) == Kept(c, o, n, m)
  {
    var dels := Diff(old_, new_).1;
    var c, o, n := Child(t.folders, m), Child(old_.folders, m), Child(new_.folders, m);
    PatchFiles(t, old_, new_);
    RemoveLookup(t, dels, m);
    RemovedMarker(t, old_, new_, m);
    AddedPart(new_, old_, m);
    if n.Some? && o.Some? && c.Some? {
      if IsEmpty(Subtract(o.value, n.value)) {
        EmptyIsNeutral(c.value, Subtract(o.value, n.value));
      }
    } else if n.Some? && c.Some? {
      EmptyPart(m, n.value);
      EmptyIsNeutral(c.value, EmptyFolder(m));
    }
  }

  lemma RemovedMarker(t: Folder, old_: Folder, new_: Folder, m: Bytes)
    requires Snapshot(t) && Snapshot(old_) && Snapshot(new_)
    ensures MarkerRemoved(t.files, Diff(old_, new_).1.files, m)
       <==> Child(t.folders, m).Some? && Child(old_.folders, m).Some? && Child(new_.folders, m).None?
  {
    MarkerIffChild(t, m);
    MarkerIffChild(old_, m);
    MarkerIffChild(new_, m);
    RemovedMarkerFiles(t.files, old_.files, new_.files, m);
  }

  lemma MarkerIffChild(t: Folder, m: Bytes)
    requires Snapshot(t)
    ensures Child(t.folders, m).Some? <==> Marker(m) in t.files
    ensures forall x :: x in t.files && x.isFolder ==> x == Marker(x.name)
  {
  }

  lemma RemovedMarkerFiles(xs: seq<File>, os: seq<File>, ns: seq<File>, m: Bytes)
    requires UniqueFiles(os) && forall x :: x in xs && x.isFolder ==> x == Marker(x.name)
    ensures MarkerRemoved(xs, SubtractFiles(os, ns), m) <==> Marker(m) in xs && Marker(m) in os && Marker(m) !in ns
  {
    SubtractFilesMembers(os, ns);
  }

  // Patching goes name by name: sub-folder m of any snapshot t is patched with the diff of the
  // sub-folders m, and there is none to go into where the diff walks through a folder t lacks.
  lemma PatchLevel(t: Folder, old_: Folder, new_: Folder, m: Bytes)
    requires Snapshot(t) && Snapshot(old_) && Snapshot(new_)
    ensures var (adds, dels) := Diff(old_, new_);
            var c, o, n := Child(t.folders, m), Child(old_.folders, m), Child(new_.folders, m);
      && AddBase(Remove(t, dels), adds, m) == Entered(c, o, n, m)
      && (Child(adds.folders, m).Some? <==> n.Some? && !(o.Some? && IsEmpty(Subtract(n.value, o.value))))
      && (Child(adds.folders, m).Some? ==> Child(adds.folders, m).value == Subtract(n.value, OldPart(o, m)))
  {
    AddedPart(old_, new_, m);
    KeptPart(t, old_, new_, m);
    BaseOf(Remove(t, Diff(old_, new_).1), Diff(old_, new_).0, m,
           Child(t.folders, m), Child(old_.folders, m), Child(new_.folders, m));
  }

  lemma BaseOf(mid: Folder, adds: Folder, m: Bytes, c: Option<Folder>, o: Option<Folder>, n: Option<Folder>)
    requires Child(mid.folders, m) == Kept(c, o, n, m)
    requires MarkerAdded(adds.files, m) <==> n.Some? && o.None?
    ensures AddBase(mid, adds, m) == Entered(c, o, n, m)
  {
    if n.Some? {
      EmptyPart(m, n.value);
    }
  }

  lemma EmptyPart(m: Bytes, n: Folder)
    ensures Subtract(EmptyFolder(m), n) == EmptyFolder(m)
    ensures Remove(EmptyFolder(m), Subtract(EmptyFolder(m), n)) == EmptyFolder(m)
  {
    EmptyMinus(n.folders, n.files);
    EmptyIsNeutral(EmptyFolder(m), EmptyFolder(m));
  }

  // The patch of the sub-folders named m.
  function PartPatched(t: Folder, old_: Folder, new_: Folder, m: Bytes): Option<Folder>
    requires Child(new_.folders, m).Some?
  {
    Patch(OldPart(Child(t.folders, m), m),
          Diff(OldPart(Child(old_.folders, m), m), Child(new_.folders, m).value))
  }

  // t has the sub-folder m if the additions go into it and do not make it.
  predicate CanEnter(t: Folder, old_: Folder, m: Bytes) {
    Child(old_.folders, m).Some? ==> Child(t.folders, m).Some?
  }

  lemma PatchFilesFit(t: Folder, old_: Folder, new_: Folder)
    requires Snapshot(t) && Snapshot(old_) && Snapshot(new_)
    ensures var (adds, dels) := Diff(old_, new_);
            var mid := Remove(t, dels);
            UniqueFiles(adds.files) && MarkersFit(mid.files, mid.folders, adds.files, adds.folders)
  {
    var (adds, dels) := Diff(old_, new_);
    var mid := Remove(t, dels);
    PatchFiles(t, old_, new_);
    forall a | a in adds.files && a.isFolder
      ensures Child(adds.folders, a.name).Some? && (a in mid.files <==> Child(mid.folders, a.name).Some?)
    {
      assert a == Marker(a.name);
      assert Child(new_.folders, a.name).Some? && Child(old_.folders, a.name).None?;
      PatchLevel(t, old_, new_, a.name);
    }
  }

  // One level: the patch succeeds exactly when it can enter, and succeeds in, every sub-folder the
  // additions touch.
  lemma PatchSucceedsHere(t: Folder, old_: Folder, new_: Folder)
    requires Snapshot(t) && Snapshot(old_) && Snapshot(new_)
    ensures Patch(t, Diff(old_, new_)).Some?
       <==> forall m :: Child(new_.folders, m).Some? && Child(Diff(old_, new_).0.folders, m).Some? ==>
              CanEnter(t, old_, m) && PartPatched(t, old_, new_, m).Some?
  {
    var (adds, dels) := Diff(old_, new_);
    var mid := Remove(t, dels);
    PatchFiles(t, old_, new_);
    SnapshotIsUnique(mid);
    PatchFilesFit(t, old_, new_);
    forall m | Child(adds.folders, m).Some?
      ensures Child(new_.folders, m).Some?
      ensures AddBase(mid, adds, m).Some? && Add(AddBase(mid, adds, m).value, Child(adds.folders, m).value).Some?
         <==> CanEnter(t, old_, m) && PartPatched(t, old_, new_, m).Some?
    {
      PatchLevel(t, old_, new_, m);
    }
    AddSucceedsHere(mid, adds);
  }

  // One level of folder_add, when its file loop fits.
  lemma AddSucceedsHere(f: Folder, a: Folder)
    requires Unique(f) && Unique(a) && MarkersFit(f.files, f.folders, a.files, a.folders)
    ensures Add(f, a).Some?
       <==> forall m :: Child(a.folders, m).Some? ==>
              AddBase(f, a, m).Some? && Add(AddBase(f, a, m).value, Child(a.folders, m).value).Some?
  {
    AddFilesSucceeds(f.files, f.folders, a.files, a.folders);
    var fs := AddFiles(f.files, f.folders, a.files, a.folders).value.1;
    AddFoldersSucceeds(fs, a.folders);
    UniqueHasNoDuplicates(f.files);
    forall m ensures Child(fs, m) == AddBase(f, a, m) {
      AddFilesMembers(f.files, f.folders, a.files, a.folders, m);
    }
    forall c | c in a.folders ensures Child(a.folders, c.name) == Some(c) {
      ChildFound(a.folders, c);
    }
  }

  // ---------------------------------------------------------------- when a diff can be applied

  // Every directory of the old tree on the way to an added entry is still in t.
  ghost predicate WaysOpen(t: Folder, old_: Folder, new_: Folder) {
    forall q, x, k :: Has(new_, q, x) && !Has(old_, q, x) && 0 <= k < |q| && Has(old_, q[..k], Marker(q[k])) ==>
      Has(t, q[..k], Marker(q[k]))
  }

  lemma PartHas(t: Folder, m: Bytes, dir: Path, x: File)
    ensures Has(OldPart(Child(t.folders, m), m), dir, x) <==> Has(t, [m] + dir, x)
  {
    HasCons(t, m, dir, x);
  }

  lemma EntersTouched(t: Folder, old_: Folder, new_: Folder, m: Bytes)
    requires Snapshot(t) && Snapshot(old_) && Snapshot(new_) && WaysOpen(t, old_, new_)
    requires Child(new_.folders, m).Some? && Child(Diff(old_, new_).0.folders, m).Some?
    ensures CanEnter(t, old_, m)
  {
    var o, n := Child(old_.folders, m), Child(new_.folders, m).value;
    if o.Some? {
      AddedPart(old_, new_, m);
      var dir, x := LeftoverHasEntry(n, o.value);
      SnapshotIsUnique(n);
      SnapshotIsUnique(o.value);
      SubtractIsDifference(n, o.value, dir, x);
      var q := [m] + dir;
      PartHas(new_, m, dir, x);
      PartHas(old_, m, dir, x);
      assert q[..0] == [];
      assert Has(old_, q[..0], Marker(q[0]));
      assert Has(t, q[..0], Marker(q[0]));
    }
  }

  lemma WaysOpenBelow(t: Folder, old_: Folder, new_: Folder, m: Bytes)
    requires WaysOpen(t, old_, new_) && Child(new_.folders, m).Some?
    ensures WaysOpen(OldPart(Child(t.folders, m), m), OldPart(Child(old_.folders, m), m), Child(new_.folders, m).value)
  {
    var c, o, n := OldPart(Child(t.folders, m), m), OldPart(Child(old_.folders, m), m), Child(new_.folders, m).value;
    forall q, x, k | Has(n, q, x) && !Has(o, q, x) && 0 <= k < |q| && Has(o, q[..k], Marker(q[k]))
      ensures Has(c, q[..k], Marker(q[k]))
    {
      WayBelow(t, old_, new_, m, q, x, k);
    }
  }

  lemma WayBelow(t: Folder, old_: Folder, new_: Folder, m: Bytes, q: Path, x: File, k: nat)
    requires WaysOpen(t, old_, new_) && Child(new_.folders, m).Some? && k < |q|
    requires Has(Child(new_.folders, m).value, q, x) && !Has(OldPart(Child(old_.folders, m), m), q, x)
    requires Has(OldPart(Child(old_.folders, m), m), q[..k], Marker(q[k]))
    ensures Has(OldPart(Child(t.folders, m), m), q[..k], Marker(q[k]))
  {
    var p := [m] + q;
    PartHas(new_, m, q, x);
    PartHas(old_, m, q, x);
    PartHas(old_, m, q[..k], Marker(q[k]));
    PartHas(t, m, q[..k], Marker(q[k]));
    assert p[..k + 1] == [m] + q[..k] && p[k + 1] == q[k];
  }

  lemma WaysOpenAbove(t: Folder, old_: Folder, new_: Folder, q: Path, x: File, k: nat)
    requires Snapshot(t) && Snapshot(old_) && Snapshot(new_)
    requires forall m :: Child(new_.folders, m).Some? && Child(Diff(old_, new_).0.folders, m).Some? ==>
               && CanEnter(t, old_, m)
               && WaysOpen(OldPart(Child(t.folders, m), m), OldPart(Child(old_.folders, m), m), Child(new_.folders, m).value)
    requires Has(new_, q, x) && !Has(old_, q, x) && k < |q| && Has(old_, q[..k], Marker(q[k]))
    ensures Has(t, q[..k], Marker(q[k]))
  {
    var m := q[0];
    AddsTouch(old_, new_, q, x);
    if k == 0 {
      assert q[..0] == [];
      EnteredMarked(t, old_, m);
    } else {
      HeadAndRest(q, k);
      WayAbove(t, old_, new_, m, q[1..], x, k - 1);
    }
  }

  lemma EnteredMarked(t: Folder, old_: Folder, m: Bytes)
    requires Snapshot(t) && Snapshot(old_) && CanEnter(t, old_, m)
    ensures Has(old_, [], Marker(m)) ==> Has(t, [], Marker(m))
  {
    MarkerIffChild(old_, m);
    MarkerIffChild(t, m);
  }

  lemma WayAbove(t: Folder, old_: Folder, new_: Folder, m: Bytes, q: Path, x: File, k: nat)
    requires Child(new_.folders, m).Some? && k < |q|
    requires WaysOpen(OldPart(Child(t.folders, m), m), OldPart(Child(old_.folders, m), m), Child(new_.folders, m).value)
    requires Has(new_, [m] + q, x) && !Has(old_, [m] + q, x) && Has(old_, [m] + q[..k], Marker(q[k]))
    ensures Has(t, [m] + q[..k], Marker(q[k]))
  {
    PartHas(new_, m, q, x);
    PartHas(old_, m, q, x);
    PartHas(old_, m, q[..k], Marker(q[k]));
    PartHas(t, m, q[..k], Marker(q[k]));
  }

  lemma HeadAndRest(q: Path, k: nat)
    requires 0 < k < |q|
    ensures q == [q[0]] + q[1..] && q[..k] == [q[0]] + q[1..][..k - 1] && q[1..][k - 1] == q[k]
  {
  }

  // The additions touch the sub-folder in which an added entry stands.
  lemma AddsTouch(old_: Folder, new_: Folder, q: Path, x: File)
    requires Snapshot(old_) && Snapshot(new_) && q != [] && Has(new_, q, x) && !Has(old_, q, x)
    ensures Child(new_.folders, q[0]).Some? && Child(Diff(old_, new_).0.folders, q[0]).Some?
  {
    SnapshotIsUnique(old_);
    SnapshotIsUnique(new_);
    SubtractIsDifference(new_, old_, q, x);
  }

  // A diff taken against one snapshot can be applied to another exactly when the directories that
  // its additions walk through are still there.
  lemma {:induction false} PatchSucceedsIff(t: Folder, old_: Folder, new_: Folder)
    requires Snapshot(t) && Snapshot(old_) && Snapshot(new_)
    ensures Patch(t, Diff(old_, new_)).Some? <==> WaysOpen(t, old_, new_)
    decreases new_
  {
    PatchSucceedsHere(t, old_, new_);
    forall m | Child(new_.folders, m).Some?
      ensures PartPatched(t, old_, new_, m).Some?
         <==> WaysOpen(OldPart(Child(t.folders, m), m), OldPart(Child(old_.folders, m), m), Child(new_.folders, m).value)
    {
      PatchSucceedsIff(OldPart(Child(t.folders, m), m), OldPart(Child(old_.folders, m), m), Child(new_.folders, m).value);
    }
    if WaysOpen(t, old_, new_) {
      forall m | Child(new_.folders, m).Some? && Child(Diff(old_, new_).0.folders, m).Some?
        ensures CanEnter(t, old_, m) && PartPatched(t, old_, new_, m).Some?
      {
        EntersTouched(t, old_, new_, m);
        WaysOpenBelow(t, old_, new_, m);
      }
    }
    if Patch(t, Diff(old_, new_)).Some? {
      OpenFromParts(t, old_, new_);
    }
  }

  lemma OpenFromParts(t: Folder, old_: Folder, new_: Folder)
    requires Snapshot(t) && Snapshot(old_) && Snapshot(new_)
    requires forall m :: Child(new_.folders, m).Some? && Child(Diff(old_, new_).0.folders, m).Some? ==>
               && CanEnter(t, old_, m)
               && WaysOpen(OldPart(Child(t.folders, m), m), OldPart(Child(old_.folders, m), m), Child(new_.folders, m).value)
    ensures WaysOpen(t, old_, new_)
  {
    forall q, x, k | Has(new_, q, x) && !Has(old_, q, x) && 0 <= k < |q| && Has(old_, q[..k], Marker(q[k]))
      ensures Has(t, q[..k], Marker(q[k]))
    {
      WaysOpenAbove(t, old_, new_, q, x, k);
    }
  }

  // ---------------------------------------------------------------- patch inverts diff

  // A working copy of `base` on its way to `next`: no entries of its own, and every directory that
  // both trees have. Plain files may still be missing, as while a client downloads them, and
  // directories that `next` gives up may be gone already.
  ghost predicate Lags(cur: Folder, base: Folder, next: Folder) {
    && (forall dir, x :: Has(cur, dir, x) ==> Has(base, dir, x))
    && (forall dir, n :: Has(base, dir, Marker(n)) && Has(next, dir, Marker(n)) ==> Has(cur, dir, Marker(n)))
  }

  lemma LagsFiles(cur: Folder, base: Folder, next: Folder, m: Bytes)
    requires Snapshot(cur) && Snapshot(base) && Snapshot(next) && Lags(cur, base, next)
    ensures forall x :: x in cur.files ==> x in base.files
    ensures Child(cur.folders, m).Some? ==> Child(base.folders, m).Some?
    ensures Child(next.folders, m).Some? && Child(base.folders, m).Some? ==> Child(cur.folders, m).Some?
  {
    forall x ensures x in cur.files ==> x in base.files {
      assert Has(cur, [], x) ==> Has(base, [], x);
    }
    assert Has(base, [], Marker(m)) && Has(next, [], Marker(m)) ==> Has(cur, [], Marker(m));
    assert Child(cur.folders, m).Some? <==> Marker(m) in cur.files;
    assert Child(base.folders, m).Some? <==> Marker(m) in base.files;
    assert Child(next.folders, m).Some? <==> Marker(m) in next.files;
  }

  lemma PartsLag(cur: Folder, base: Folder, next: Folder, m: Bytes)
    requires Lags(cur, base, next) && Child(next.folders, m).Some?
    ensures Lags(OldPart(Child(cur.folders, m), m), OldPart(Child(base.folders, m), m), Child(next.folders, m).value)
  {
    var c, b, n := OldPart(Child(cur.folders, m), m), OldPart(Child(base.folders, m), m), Child(next.folders, m).value;
    forall dir, x | Has(c, dir, x) ensures Has(b, dir, x) {
      PartHas(cur, m, dir, x);
      PartHas(base, m, dir, x);
    }
    forall dir, l | Has(b, dir, Marker(l)) && Has(n, dir, Marker(l)) ensures Has(c, dir, Marker(l)) {
      PartHasMarker(cur, base, next, m, dir, l);
    }
  }

  lemma PartHasMarker(cur: Folder, base: Folder, next: Folder, m: Bytes, dir: Path, l: Bytes)
    requires Lags(cur, base, next) && Child(next.folders, m).Some?
    requires Has(OldPart(Child(base.folders, m), m), dir, Marker(l)) && Has(Child(next.folders, m).value, dir, Marker(l))
    ensures Has(OldPart(Child(cur.folders, m), m), dir, Marker(l))
  {
    PartHas(cur, m, dir, Marker(l));
    PartHas(base, m, dir, Marker(l));
    PartHas(next, m, dir, Marker(l));
  }

  lemma LagsKeepsWaysOpen(cur: Folder, base: Folder, next: Folder)
    requires Snapshot(next) && Lags(cur, base, next)
    ensures WaysOpen(cur, base, next)
  {
    forall q, x, k | Has(next, q, x) && !Has(base, q, x) && 0 <= k < |q| && Has(base, q[..k], Marker(q[k]))
      ensures Has(cur, q[..k], Marker(q[k]))
    {
      AncestorsMarked(next, q, x, k);
    }
  }

  // The asserts hold and the result is a snapshot again.
  lemma {:induction false} PatchKeepsShape(cur: Folder, old_: Folder, new_: Folder)
    requires Snapshot(cur) && Snapshot(old_) && Snapshot(new_) && Lags(cur, old_, new_)
    ensures Patch(cur, Diff(old_, new_)).Some?
    ensures Snapshot(Patch(cur, Diff(old_, new_)).value)
    decreases new_
  {
    LagsKeepsWaysOpen(cur, old_, new_);
    PatchSucceedsIff(cur, old_, new_);
    forall m | Child(new_.folders, m).Some?
      ensures PartPatched(cur, old_, new_, m).Some? && Snapshot(PartPatched(cur, old_, new_, m).value)
    {
      PartsLag(cur, old_, new_, m);
      PatchKeepsShape(OldPart(Child(cur.folders, m), m), OldPart(Child(old_.folders, m), m),
                      Child(new_.folders, m).value);
    }
    PatchedIsSnapshot(cur, old_, new_);
  }

  // The sub-folders of the patched folder are the patched sub-folders, for the names of the new tree.
  lemma PatchedChild(cur: Folder, old_: Folder, new_: Folder, m: Bytes)
    requires Snapshot(cur) && Snapshot(old_) && Snapshot(new_) && Lags(cur, old_, new_)
    requires Patch(cur, Diff(old_, new_)).Some?
    ensures var r := Patch(cur, Diff(old_, new_)).value;
      && NoDuplicates(r.files) && UniqueFolders(r.folders)
      && (forall x :: x in r.files ==> x in new_.files)
      && (Marker(m) in r.files <==> Marker(m) in new_.files)
      && Child(r.folders, m)
         == if Child(new_.folders, m).None? then None else PartPatched(cur, old_, new_, m)
  {
    var (adds, dels) := Diff(old_, new_);
    var mid := Remove(cur, dels);
    PatchFiles(cur, old_, new_);
    UniqueHasNoDuplicates(mid.files);
    AddLookup(mid, adds, m);
    PatchLevel(cur, old_, new_, m);
    LagsFiles(cur, old_, new_, m);
    assert Child(old_.folders, m).Some? <==> Marker(m) in old_.files;
    assert Child(cur.folders, m).Some? <==> Marker(m) in cur.files;
    assert Child(new_.folders, m).Some? <==> Marker(m) in new_.files;
    if Child(new_.folders, m).Some? && Child(adds.folders, m).None? {
      var n, o := Child(new_.folders, m).value, OldPart(Child(old_.folders, m), m);
      EmptyIsNeutral(Remove(OldPart(Child(cur.folders, m), m), Subtract(o, n)), Subtract(n, o));
    }
  }

  // One level of the shape: given snapshots below, the patched folder is a snapshot.
  lemma PatchedIsSnapshot(cur: Folder, old_: Folder, new_: Folder)
    requires Snapshot(cur) && Snapshot(old_) && Snapshot(new_) && Lags(cur, old_, new_)
    requires Patch(cur, Diff(old_, new_)).Some?
    requires forall m :: Child(new_.folders, m).Some? ==>
               PartPatched(cur, old_, new_, m).Some? && Snapshot(PartPatched(cur, old_, new_, m).value)
    ensures Snapshot(Patch(cur, Diff(old_, new_)).value)
  {
    var r := Patch(cur, Diff(old_, new_)).value;
    PatchedChild(cur, old_, new_, cur.name);
    forall m
      ensures Child(r.folders, m).Some? <==> Marker(m) in r.files
      ensures Child(r.folders, m).Some? ==> Snapshot(Child(r.folders, m).value)
    {
      PatchedChild(cur, old_, new_, m);
      assert Child(new_.folders, m).Some? <==> Marker(m) in new_.files;
    }
    DistinctAmongUnique(r.files, new_.files);
    forall c | c in r.folders ensures Snapshot(c) {
      ChildFound(r.folders, c);
    }
  }

  lemma DistinctAmongUnique(xs: seq<File>, all: seq<File>)
    requires NoDuplicates(xs) && UniqueFiles(all) && forall x :: x in xs ==> x in all
    ensures UniqueFiles(xs)
  {
    forall i, j | 0 <= i < j < |xs| ensures xs[i].name != xs[j].name {
      if xs[i].name == xs[j].name {
        UniqueName(all, xs[i], xs[j]);
      }
    }
  }

  // Patch inverts diff, also on a working copy that lags behind: no assert fails, the result is a
  // snapshot, and it holds the entries of the new tree that were added or already there.
  lemma PatchInvertsDiffLagging(cur: Folder, old_: Folder, new_: Folder)
    requires Snapshot(cur) && Snapshot(old_) && Snapshot(new_) && Lags(cur, old_, new_)
    ensures var r := Patch(cur, Diff(old_, new_));
      && r.Some? && Snapshot(r.value)
      && forall dir, x :: Has(r.value, dir, x)
           <==> Has(new_, dir, x) && (Has(cur, dir, x) || !Has(old_, dir, x))
  {
    PatchKeepsShape(cur, old_, new_);
    var (adds, dels) := Diff(old_, new_);
    SnapshotIsUnique(cur);
    SnapshotIsUnique(old_);
    SnapshotIsUnique(new_);
    SubtractUnique(new_, old_);
    SubtractUnique(old_, new_);
    var mid := Remove(cur, dels);
    RemoveUnique(cur, dels);
    forall dir, x
      ensures Has(Add(mid, adds).value, dir, x)
         <==> Has(new_, dir, x) && (Has(cur, dir, x) || !Has(old_, dir, x))
    {
      AddIsUnion(mid, adds, dir, x);
      SubtractIsDifference(new_, old_, dir, x);
      SubtractIsDifference(old_, new_, dir, x);
      RemoveDenotes(cur, dels, dir, x);
      if Has(new_, dir, x) {
        NotCut(old_, new_, dir, x);
      }
    }
  }

  // The deletions cut nothing that the new tree still holds.
  lemma NotCut(old_: Folder, new_: Folder, dir: Path, x: File)
    requires Snapshot(old_) && Snapshot(new_) && Has(new_, dir, x)
    ensures !Cut(Subtract(old_, new_), dir)
  {
    if Cut(Subtract(old_, new_), dir) {
      var k := CutWitness(Subtract(old_, new_), dir);
      SnapshotIsUnique(old_);
      SnapshotIsUnique(new_);
      SubtractIsDifference(old_, new_, dir[..k], Marker(dir[k]));
      AncestorsMarked(new_, dir, x, k);
      assert false;
    }
  }

  lemma {:induction false} RemoveUnique(f: Folder, s: Folder)
    requires Unique(f) && Unique(s)
    ensures Unique(Remove(f, s))
    decreases s
  {
    var r := Remove(f, s);
    RemoveLookup(f, s, f.name);
    forall c | c in r.folders ensures Unique(c) {
      RemoveLookup(f, s, c.name);
      ChildFound(r.folders, c);
      var g, t := Child(f.folders, c.name), Child(s.folders, c.name);
      if t.Some? {
        RemoveUnique(g.value, t.value);
      }
    }
  }

  // The law filesystem_diff is for: old - deletions + additions has exactly the entries of new.
  lemma PatchInvertsDiff(cur: Folder, old_: Folder, new_: Folder)
    requires Snapshot(cur) && Snapshot(old_) && Snapshot(new_) && SameEntries(cur, old_)
    ensures var r := Patch(cur, Diff(old_, new_));
      r.Some? && Snapshot(r.value) && SameEntries(r.value, new_)
  {
    PatchInvertsDiffLagging(cur, old_, new_);
  }
}
