// The positions of the entries in the two path lists.
module ListOrder {
  import opened Basics
  import opened FileTree
  import opened Listing

  // The directory at `dir` below t.
  function FolderAt(t: Folder, dir: Path): Option<Folder>
    decreases |dir|
  {
    if dir == [] then Some(t)
    else
      match Child(t.folders, dir[0])
      case None => None
      case Some(c) => FolderAt(c, dir[1..])
  }

  // ---------------------------------------------------------------- kinds of entries

  function PlainIn(dir: Path): Entry -> bool {
    (e: Entry) => e.dir == dir && !e.file.isFolder
  }

  function MarkerIn(dir: Path): Entry -> bool {
    (e: Entry) => e.dir == dir && e.file.isFolder
  }

  // In a directory properly below.
  function Deeper(dir: Path): Entry -> bool {
    (e: Entry) => |dir| < |e.dir| && dir <= e.dir
  }

  // In that directory or below.
  function Inside(dir: Path): Entry -> bool {
    (e: Entry) => dir <= e.dir
  }

  function Only(x: Entry): Entry -> bool {
    (e: Entry) => e == x
  }

  // Every entry of the first kind stands before every entry of the second.
  ghost predicate Before(es: seq<Entry>, p: Entry -> bool, q: Entry -> bool) {
    forall i, j :: 0 <= i < |es| && 0 <= j < |es| && p(es[i]) && q(es[j]) ==> i < j
  }

  ghost predicate Lacks(es: seq<Entry>, p: Entry -> bool) {
    forall e :: e in es ==> !p(e)
  }

  lemma LacksAt(es: seq<Entry>, p: Entry -> bool)
    requires Lacks(es, p)
    ensures forall i :: 0 <= i < |es| ==> !p(es[i])
  {
    forall i | 0 <= i < |es| ensures !p(es[i]) {
      assert es[i] in es;
    }
  }

  lemma BeforeConcat(a: seq<Entry>, b: seq<Entry>, p: Entry -> bool, q: Entry -> bool)
    requires Before(a, p, q) && Before(b, p, q) && (Lacks(a, q) || Lacks(b, p))
    ensures Before(a + b, p, q)
  {
    if Lacks(a, q) {
      LacksAt(a, q);
    } else {
      LacksAt(b, p);
    }
  }

  lemma BeforeLacking(es: seq<Entry>, p: Entry -> bool, q: Entry -> bool)
    requires Lacks(es, p) || Lacks(es, q)
    ensures Before(es, p, q)
  {
    if Lacks(es, p) {
      LacksAt(es, p);
    } else {
      LacksAt(es, q);
    }
  }

  lemma LacksConcat(a: seq<Entry>, b: seq<Entry>, p: Entry -> bool)
    requires Lacks(a, p) && Lacks(b, p)
    ensures Lacks(a + b, p)
  {
  }

  // A list after or before others that lack both kinds.
  lemma BeforeEither(a: seq<Entry>, b: seq<Entry>, m: seq<Entry>, p: Entry -> bool, q: Entry -> bool)
    requires Lacks(a, p) && Lacks(a, q) && Lacks(b, p) && Lacks(b, q) && Before(m, p, q)
    ensures Before(a + b + m, p, q) && Before(m + b + a, p, q)
  {
    BeforeLacking(a, p, q);
    BeforeLacking(b, p, q);
    BeforeConcat(a, b, p, q);
    BeforeConcat(a + b, m, p, q);
    BeforeConcat(m, b, p, q);
    BeforeConcat(m + b, a, p, q);
  }

  lemma BeforeWithin(a: seq<Entry>, m: seq<Entry>, c: seq<Entry>, p: Entry -> bool, q: Entry -> bool)
    requires Lacks(a, p) && Lacks(a, q) && Lacks(c, p) && Lacks(c, q) && Before(m, p, q)
    ensures Before(a + m + c, p, q)
  {
    BeforeLacking(a, p, q);
    BeforeLacking(c, p, q);
    BeforeConcat(a, m, p, q);
    BeforeConcat(a + m, c, p, q);
  }

  // The first kind in the first list only, the second in the last only.
  lemma BeforeApart(a: seq<Entry>, m: seq<Entry>, c: seq<Entry>, p: Entry -> bool, q: Entry -> bool)
    requires Lacks(m, p) && Lacks(c, p) && Lacks(a, q)
    ensures Before(a + m + c, p, q)
  {
    BeforeLacking(a, p, q);
    BeforeLacking(m, p, q);
    BeforeLacking(c, p, q);
    BeforeConcat(a, m, p, q);
    BeforeConcat(a + m, c, p, q);
  }

  // The second kind in the last list only, and the first not there.
  lemma BeforeLast(a: seq<Entry>, m: seq<Entry>, c: seq<Entry>, p: Entry -> bool, q: Entry -> bool)
    requires Lacks(a, q) && Lacks(m, q) && Lacks(c, p)
    ensures Before(a + m + c, p, q)
  {
    BeforeLacking(a, p, q);
    BeforeLacking(m, p, q);
    BeforeLacking(c, p, q);
    BeforeConcat(a, m, p, q);
    LacksConcat(a, m, q);
    BeforeConcat(a + m, c, p, q);
  }

  // ---------------------------------------------------------------- one directory

  // What the two lists promise of the directory f at d.
  ghost predicate InOrder(ff: bool, es: seq<Entry>, d: Path, f: Folder) {
    && KindsInOrder(ff, es, d)
    && (forall k, l :: 0 <= k < l < |f.files| && f.files[k].isFolder == f.files[l].isFolder ==>
          Before(es, Only(Entry(d, f.files[k])), Only(Entry(d, f.files[l]))))
    && (forall k, l :: 0 <= k < l < |f.folders| ==>
          Before(es, Inside(d + [f.folders[k].name]), Inside(d + [f.folders[l].name])))
  }

  // File first: plain files, what is deeper, markers. Folder first: the other way round.
  ghost predicate KindsInOrder(ff: bool, es: seq<Entry>, d: Path) {
    if ff then
      && Before(es, PlainIn(d), Deeper(d)) && Before(es, Deeper(d), MarkerIn(d)) && Before(es, PlainIn(d), MarkerIn(d))
    else
      && Before(es, MarkerIn(d), Deeper(d)) && Before(es, Deeper(d), PlainIn(d)) && Before(es, MarkerIn(d), PlainIn(d))
  }

  // Where the parts of a list stand.
  lemma PartsOf(ff: bool, base: Path, t: Folder)
    requires Unique(t) && CleanMarkers(t)
    ensures forall e :: e in PlainAt(base, t.files) ==> PlainIn(base)(e)
    ensures forall e :: e in FoldersAt(base, t.files) ==> MarkerIn(base)(e)
    ensures forall e :: e in ListAll(ff, base, t.folders) ==> Deeper(base)(e)
  {
    assert forall x :: Has(t, [], x) <==> x in t.files;
    forall c | c in t.folders ensures CleanMarkers(c) {
      CleanBelow(t, c);
    }
    forall e
      ensures e in PlainAt(base, t.files) ==> PlainIn(base)(e)
      ensures e in FoldersAt(base, t.files) ==> MarkerIn(base)(e)
      ensures e in ListAll(ff, base, t.folders) ==> Deeper(base)(e)
    {
      SplitMembers(base, t.files, e);
      ListAllMembers(ff, base, t.folders, e);
    }
  }

  lemma KindsHere(ff: bool, base: Path, t: Folder)
    requires Unique(t) && CleanMarkers(t)
    ensures KindsInOrder(ff, List(ff, base, t), base)
  {
    PartsOf(ff, base, t);
    var plain, below, markers := PlainAt(base, t.files), ListAll(ff, base, t.folders), FoldersAt(base, t.files);
    KindsApart(base, plain, below, markers);
    var p, d, m := PlainIn(base), Deeper(base), MarkerIn(base);
    if ff {
      BeforeApart(plain, below, markers, p, d);
      BeforeApart(plain, below, markers, p, m);
      BeforeLast(plain, below, markers, d, m);
    } else {
      BeforeApart(markers, below, plain, m, d);
      BeforeApart(markers, below, plain, m, p);
      BeforeLast(markers, below, plain, d, p);
    }
  }

  lemma KindsApart(base: Path, plain: seq<Entry>, below: seq<Entry>, markers: seq<Entry>)
    requires forall e :: e in plain ==> PlainIn(base)(e)
    requires forall e :: e in markers ==> MarkerIn(base)(e)
    requires forall e :: e in below ==> Deeper(base)(e)
    ensures Lacks(plain, Deeper(base)) && Lacks(plain, MarkerIn(base))
    ensures Lacks(below, PlainIn(base)) && Lacks(below, MarkerIn(base))
    ensures Lacks(markers, PlainIn(base)) && Lacks(markers, Deeper(base))
  {
  }

  // Records of one kind keep the order of the queue.
  lemma {:induction false} SplitKeepsOrder(base: Path, xs: seq<File>, k: nat, l: nat)
    requires UniqueFiles(xs) && k < l < |xs| && forall x :: x in xs && x.isFolder ==> x == Marker(x.name)
    ensures Before(PlainAt(base, xs), Only(Entry(base, xs[k])), Only(Entry(base, xs[l])))
    ensures Before(FoldersAt(base, xs), Only(Entry(base, xs[k])), Only(Entry(base, xs[l])))
    decreases k
  {
    var p, q := Only(Entry(base, xs[k])), Only(Entry(base, xs[l]));
    var head, rest := xs[0], xs[1..];
    assert rest[l - 1] == xs[l] && xs[l].name != head.name;
    var a := if head.isFolder then [] else [Entry(base, head)];
    var b := if head.isFolder then [Entry(base, Marker(head.name))] else [];
    assert PlainAt(base, xs) == a + PlainAt(base, rest) && FoldersAt(base, xs) == b + FoldersAt(base, rest);
    assert Lacks(a, q) && Lacks(b, q);
    BeforeLacking(a, p, q);
    BeforeLacking(b, p, q);
    if k == 0 {
      HeadNotListed(base, xs);
      BeforeLacking(PlainAt(base, rest), p, q);
      BeforeLacking(FoldersAt(base, rest), p, q);
    } else {
      assert rest[k - 1] == xs[k];
      SplitKeepsOrder(base, rest, k - 1, l - 1);
    }
    BeforeConcat(a, PlainAt(base, rest), p, q);
    BeforeConcat(b, FoldersAt(base, rest), p, q);
  }

  lemma HeadNotListed(base: Path, xs: seq<File>)
    requires xs != [] && UniqueFiles(xs) && forall x :: x in xs && x.isFolder ==> x == Marker(x.name)
    ensures Lacks(PlainAt(base, xs[1..]), Only(Entry(base, xs[0])))
    ensures Lacks(FoldersAt(base, xs[1..]), Only(Entry(base, xs[0])))
  {
    assert xs[0] !in xs[1..];
    SplitMembers(base, xs[1..], Entry(base, xs[0]));
  }

  lemma FilesHere(ff: bool, base: Path, t: Folder, k: nat, l: nat)
    requires Unique(t) && CleanMarkers(t) && k < l < |t.files| && t.files[k].isFolder == t.files[l].isFolder
    ensures Before(List(ff, base, t), Only(Entry(base, t.files[k])), Only(Entry(base, t.files[l])))
  {
    PartsOf(ff, base, t);
    var plain, below, markers := PlainAt(base, t.files), ListAll(ff, base, t.folders), FoldersAt(base, t.files);
    var p, q := Only(Entry(base, t.files[k])), Only(Entry(base, t.files[l]));
    assert forall x :: Has(t, [], x) <==> x in t.files;
    SplitKeepsOrder(base, t.files, k, l);
    OnlyApart(base, plain, below, markers, t.files[k]);
    OnlyApart(base, plain, below, markers, t.files[l]);
    if t.files[k].isFolder {
      BeforeEither(plain, below, markers, p, q);
    } else {
      BeforeEither(markers, below, plain, p, q);
    }
  }

  lemma OnlyApart(base: Path, plain: seq<Entry>, below: seq<Entry>, markers: seq<Entry>, x: File)
    requires forall e :: e in plain ==> PlainIn(base)(e)
    requires forall e :: e in markers ==> MarkerIn(base)(e)
    requires forall e :: e in below ==> Deeper(base)(e)
    ensures Lacks(below, Only(Entry(base, x)))
    ensures x.isFolder ==> Lacks(plain, Only(Entry(base, x)))
    ensures !x.isFolder ==> Lacks(markers, Only(Entry(base, x)))
  {
  }

  // ---------------------------------------------------------------- sibling sub-folders

  // The list of one sub-folder, and those of its later siblings.
  lemma HeadAndTail(ff: bool, base: Path, fs: seq<Folder>)
    requires fs != [] && UniqueFolders(fs) && forall c :: c in fs ==> Unique(c) && CleanMarkers(c)
    ensures ListAll(ff, base, fs) == List(ff, base + [fs[0].name], fs[0]) + ListAll(ff, base, fs[1..])
    ensures forall e :: e in List(ff, base + [fs[0].name], fs[0]) ==> base + [fs[0].name] <= e.dir
    ensures forall e :: e in ListAll(ff, base, fs[1..]) ==>
              |base| < |e.dir| && base <= e.dir && e.dir[|base|] != fs[0].name
  {
    assert forall c :: c in fs[1..] ==> c in fs && c.name != fs[0].name;
    forall e
      ensures e in List(ff, base + [fs[0].name], fs[0]) ==> base + [fs[0].name] <= e.dir
      ensures e in ListAll(ff, base, fs[1..]) ==> |base| < |e.dir| && base <= e.dir && e.dir[|base|] != fs[0].name
    {
      ListMembers(ff, base + [fs[0].name], fs[0], e);
      ListAllMembers(ff, base, fs[1..], e);
      if e in ListAll(ff, base, fs[1..]) {
        var c :| c in fs[1..] && HasUnder(base + [c.name], c, e);
        assert e.dir[|base|] == c.name;
      }
    }
  }

  lemma LacksSibling(es: seq<Entry>, base: Path, n: Bytes)
    requires forall e :: e in es ==> |base| < |e.dir| && base <= e.dir && e.dir[|base|] != n
    ensures Lacks(es, Inside(base + [n]))
  {
    forall e | e in es ensures !Inside(base + [n])(e) {
      assert (base + [n])[|base|] == n;
    }
  }

  lemma LacksOther(es: seq<Entry>, base: Path, n: Bytes, m: Bytes)
    requires n != m && forall e :: e in es ==> base + [n] <= e.dir
    ensures Lacks(es, Inside(base + [m]))
  {
    forall e | e in es ensures !Inside(base + [m])(e) {
      assert (base + [n])[|base|] == n && (base + [m])[|base|] == m;
    }
  }

  lemma {:induction false} SiblingsInOrder(ff: bool, base: Path, fs: seq<Folder>, k: nat, l: nat)
    requires UniqueFolders(fs) && k < l < |fs| && forall c :: c in fs ==> Unique(c) && CleanMarkers(c)
    ensures Before(ListAll(ff, base, fs), Inside(base + [fs[k].name]), Inside(base + [fs[l].name]))
    decreases k
  {
    var p, q := Inside(base + [fs[k].name]), Inside(base + [fs[l].name]);
    var head, tail := List(ff, base + [fs[0].name], fs[0]), ListAll(ff, base, fs[1..]);
    HeadAndTail(ff, base, fs);
    LacksOther(head, base, fs[0].name, fs[l].name);
    BeforeLacking(head, p, q);
    if k == 0 {
      LacksSibling(tail, base, fs[0].name);
      BeforeLacking(tail, p, q);
    } else {
      assert fs[1..][k - 1] == fs[k] && fs[1..][l - 1] == fs[l];
      SiblingsInOrder(ff, base, fs[1..], k - 1, l - 1);
    }
    BeforeConcat(head, tail, p, q);
  }

  // ---------------------------------------------------------------- any directory of the tree

  // The entries of that kind stand in dir or below.
  ghost predicate Under(p: Entry -> bool, dir: Path) {
    forall e :: p(e) ==> dir <= e.dir
  }

  // What holds in a sub-folder's list holds in the lists of all of them.
  lemma {:induction false} LiftAll(ff: bool, base: Path, fs: seq<Folder>, c: Folder, p: Entry -> bool, q: Entry -> bool)
    requires UniqueFolders(fs) && forall d :: d in fs ==> Unique(d) && CleanMarkers(d)
    requires c in fs && Under(p, base + [c.name]) && Under(q, base + [c.name])
    requires Before(List(ff, base + [c.name], c), p, q)
    ensures Before(ListAll(ff, base, fs), p, q)
    decreases |fs|
  {
    var head, tail := List(ff, base + [fs[0].name], fs[0]), ListAll(ff, base, fs[1..]);
    HeadAndTail(ff, base, fs);
    if c == fs[0] {
      LacksSibling(tail, base, c.name);
      LacksUnder(tail, base + [c.name], p);
      BeforeLacking(tail, p, q);
    } else {
      assert c in fs[1..] && c.name != fs[0].name;
      LacksOther(head, base, fs[0].name, c.name);
      LacksUnder(head, base + [c.name], p);
      BeforeLacking(head, p, q);
      LiftAll(ff, base, fs[1..], c, p, q);
      LacksUnder(head, base + [c.name], q);
    }
    BeforeConcat(head, tail, p, q);
  }

  lemma LacksUnder(es: seq<Entry>, dir: Path, p: Entry -> bool)
    requires Under(p, dir) && Lacks(es, Inside(dir))
    ensures Lacks(es, p)
  {
    forall e | e in es ensures !p(e) {
      assert !Inside(dir)(e);
    }
  }

  lemma Lift(ff: bool, base: Path, t: Folder, c: Folder, p: Entry -> bool, q: Entry -> bool)
    requires Unique(t) && CleanMarkers(t) && c in t.folders
    requires Under(p, base + [c.name]) && Under(q, base + [c.name])
    requires Before(List(ff, base + [c.name], c), p, q)
    ensures Before(List(ff, base, t), p, q)
  {
    forall d | d in t.folders ensures CleanMarkers(d) {
      CleanBelow(t, d);
    }
    LiftAll(ff, base, t.folders, c, p, q);
    PartsOf(ff, base, t);
    var plain, below, markers := PlainAt(base, t.files), ListAll(ff, base, t.folders), FoldersAt(base, t.files);
    ShallowLacks(plain, base, c.name, p);
    ShallowLacks(plain, base, c.name, q);
    ShallowLacks(markers, base, c.name, p);
    ShallowLacks(markers, base, c.name, q);
    BeforeWithin(plain, below, markers, p, q);
    BeforeWithin(markers, below, plain, p, q);
  }

  lemma ShallowLacks(es: seq<Entry>, base: Path, n: Bytes, p: Entry -> bool)
    requires Under(p, base + [n]) && forall e :: e in es ==> e.dir == base
    ensures Lacks(es, p)
  {
  }

  // In either list, at every directory of the tree: plain files before everything deeper and that
  // before the markers, or the other way round; records of one kind and sub-folders in the order of
  // their queues.
  lemma {:induction false} ListInOrder(ff: bool, base: Path, t: Folder, dir: Path)
    requires Unique(t) && CleanMarkers(t) && FolderAt(t, dir).Some?
    ensures InOrder(ff, List(ff, base, t), base + dir, FolderAt(t, dir).value)
    decreases |dir|
  {
    if dir == [] {
      assert base + dir == base;
      KindsHere(ff, base, t);
      forall k, l | 0 <= k < l < |t.files| && t.files[k].isFolder == t.files[l].isFolder
        ensures Before(List(ff, base, t), Only(Entry(base, t.files[k])), Only(Entry(base, t.files[l])))
      {
        FilesHere(ff, base, t, k, l);
      }
      forall k, l | 0 <= k < l < |t.folders|
        ensures Before(List(ff, base, t), Inside(base + [t.folders[k].name]), Inside(base + [t.folders[l].name]))
      {
        FoldersHere(ff, base, t, k, l);
      }
    } else {
      var c := Child(t.folders, dir[0]).value;
      CleanBelow(t, c);
      ListInOrder(ff, base + [c.name], c, dir[1..]);
      assert base + [c.name] + dir[1..] == base + dir;
      LiftOrder(ff, base, t, c, base + dir, FolderAt(t, dir).value);
    }
  }

  lemma FoldersHere(ff: bool, base: Path, t: Folder, k: nat, l: nat)
    requires Unique(t) && CleanMarkers(t) && k < l < |t.folders|
    ensures Before(List(ff, base, t), Inside(base + [t.folders[k].name]), Inside(base + [t.folders[l].name]))
  {
    forall d | d in t.folders ensures CleanMarkers(d) {
      CleanBelow(t, d);
    }
    SiblingsInOrder(ff, base, t.folders, k, l);
    PartsOf(ff, base, t);
    var plain, below, markers := PlainAt(base, t.files), ListAll(ff, base, t.folders), FoldersAt(base, t.files);
    var p, q := Inside(base + [t.folders[k].name]), Inside(base + [t.folders[l].name]);
    ShallowLacks(plain, base, t.folders[k].name, p);
    ShallowLacks(plain, base, t.folders[l].name, q);
    ShallowLacks(markers, base, t.folders[k].name, p);
    ShallowLacks(markers, base, t.folders[l].name, q);
    BeforeWithin(plain, below, markers, p, q);
    BeforeWithin(markers, below, plain, p, q);
  }

  lemma LiftOrder(ff: bool, base: Path, t: Folder, c: Folder, d: Path, f: Folder)
    requires Unique(t) && CleanMarkers(t) && c in t.folders && base + [c.name] <= d
    requires InOrder(ff, List(ff, base + [c.name], c), d, f)
    ensures InOrder(ff, List(ff, base, t), d, f)
  {
    var p, q, m := PlainIn(d), Deeper(d), MarkerIn(d);
    if ff {
      Lift(ff, base, t, c, p, q);
      Lift(ff, base, t, c, q, m);
      Lift(ff, base, t, c, p, m);
    } else {
      Lift(ff, base, t, c, m, q);
      Lift(ff, base, t, c, q, p);
      Lift(ff, base, t, c, m, p);
    }
    forall k, l | 0 <= k < l < |f.files| && f.files[k].isFolder == f.files[l].isFolder
      ensures Before(List(ff, base, t), Only(Entry(d, f.files[k])), Only(Entry(d, f.files[l])))
    {
      Lift(ff, base, t, c, Only(Entry(d, f.files[k])), Only(Entry(d, f.files[l])));
    }
    forall k, l | 0 <= k < l < |f.folders|
      ensures Before(List(ff, base, t), Inside(d + [f.folders[k].name]), Inside(d + [f.folders[l].name]))
    {
      Lift(ff, base, t, c, Inside(d + [f.folders[k].name]), Inside(d + [f.folders[l].name]));
    }
  }

  // A record stands in a directory of the tree.
  lemma {:induction false} HasAt(t: Folder, dir: Path, x: File)
    ensures Has(t, dir, x) <==> FolderAt(t, dir).Some? && x in FolderAt(t, dir).value.files
    decreases |dir|
  {
    if dir == [] {
    } else if Child(t.folders, dir[0]).Some? {
      HasAt(Child(t.folders, dir[0]).value, dir[1..], x);
    }
  }

  // The two lists of a tree.
  lemma ListsSorted(t: Folder, dir: Path)
    requires Unique(t) && CleanMarkers(t) && FolderAt(t, dir).Some?
    ensures InOrder(true, FileFirst([], t), dir, FolderAt(t, dir).value)
    ensures InOrder(false, FolderFirst([], t), dir, FolderAt(t, dir).value)
  {
    ListInOrder(true, [], t, dir);
    ListInOrder(false, [], t, dir);
    assert [] + dir == dir;
  }
}
