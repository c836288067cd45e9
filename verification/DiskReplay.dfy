// RemoveFileDeletions and GetFileAdditions replayed on a disk.
module DiskReplay {
  import opened Basics
  import opened FileTree
  import opened FolderOps
  import opened DiffPatch
  import opened Listing
  import ChunkyFile
  import Decimal

  datatype Node = Dir | Reg(size: nat, mtime: int)

  // What stands at each path below the synchronised directory.
  type Disk = map<Path, Node>

  datatype Outcome = Done | Missing | NotEmpty | Exists | NoParent | IsDirectory | NeverMade

  function NodeOf(x: File): Node {
    if x.isFolder then Dir else Reg(x.size, x.mtime)
  }

  function At(d: Disk, p: Path): Option<Node> {
    if p in d then Some(d[p]) else None
  }

  function Parent(p: Path): Path
    requires p != []
  {
    p[..|p| - 1]
  }

  // The record a directory scan makes of the node at p.
  function Record(p: Path, node: Node): File
    requires p != []
  {
    match node
    case Dir => Marker(p[|p| - 1])
    case Reg(size, mtime) => File(p[|p| - 1], size, mtime, false)
  }

  // The disk holds exactly the tree t.
  ghost predicate OnDisk(d: Disk, t: Folder) {
    && (forall p :: p in d ==> p != [] && Has(t, Parent(p), Record(p, d[p])))
    && (forall e: Entry {:trigger e.Target()} :: Has(t, e.dir, e.file) ==>
          e.Target() in d && d[e.Target()] == NodeOf(e.file))
  }

  // ---------------------------------------------------------------- system calls

  // q stands somewhere below p.
  predicate Below(q: Path, p: Path) {
    |p| < |q| && p <= q
  }

  // remove(3): a directory must be empty.
  ghost function RemovePath(d: Disk, p: Path): (Disk, Outcome) {
    if p !in d then (d, Missing)
    else if d[p].Dir? && exists q :: q in d && Below(q, p) then (d, NotEmpty)
    else (d - {p}, Done)
  }

  predicate ParentThere(d: Disk, p: Path)
    requires p != []
  {
    Parent(p) == [] || (Parent(p) in d && d[Parent(p)].Dir?)
  }

  // What becomes of an added record. The source goes by its length as an int: -1 is a directory;
  // otherwise a file of that many bytes (none, if it is negative) is written at once when it has no
  // chunks and when its last chunk arrives otherwise, and where the count of a negative length
  // comes out as 1, no chunk ever arrives.
  function Made(x: File): Option<Node> {
    var length := Length(x);
    if length == -1 then Some(Dir)
    else if length < 0 && ChunkyFile.ChunkCount(length) >= 1 then None
    else Some(Reg(if length > 0 then length else 0, x.mtime))
  }

  // A record is made as it says exactly when it is a marker or has less than 2^31 bytes.
  lemma MadeRightIff(x: File)
    ensures Made(x) == Some(NodeOf(x)) <==> x.isFolder || x.size < Decimal.INT_LIMIT
  {
  }

  // mkdir(2) for a directory; fopen(3) with "w+", write and utime for a file.
  function Create(d: Disk, p: Path, x: File): (Disk, Outcome)
    requires p != []
  {
    match Made(x)
    case None => (d, NeverMade)
    case Some(node) =>
      if !ParentThere(d, p) then (d, NoParent)
      else if p in d && node.Dir? then (d, Exists)
      else if p in d && d[p].Dir? then (d, IsDirectory)
      else (d[p := node], Done)
  }

  ghost function RunDeletions(d: Disk, es: seq<Entry>): (Disk, seq<Outcome>)
    decreases |es|
  {
    if es == [] then (d, [])
    else
      var (d', o) := RemovePath(d, es[0].Target());
      var (last, os) := RunDeletions(d', es[1..]);
      (last, [o] + os)
  }

  function RunAdditions(d: Disk, es: seq<Entry>): (Disk, seq<Outcome>)
    decreases |es|
  {
    if es == [] then (d, [])
    else
      var (d', o) := Create(d, es[0].Target(), es[0].file);
      var (last, os) := RunAdditions(d', es[1..]);
      (last, [o] + os)
  }

  ghost predicate Targeted(es: seq<Entry>, p: Path) {
    exists e :: e in es && e.Target() == p
  }

  // ---------------------------------------------------------------- deletions

  // Whatever stands below the i-th path is listed before it.
  ghost predicate EmptiedFirst(d: Disk, es: seq<Entry>) {
    forall i, q :: 0 <= i < |es| && q in d && Below(q, es[i].Target()) ==> Targeted(es[..i], q)
  }

  ghost predicate DistinctTargets(es: seq<Entry>) {
    forall i, j :: 0 <= i < j < |es| ==> es[i].Target() != es[j].Target()
  }

  lemma {:induction false} DeletionsRun(d: Disk, es: seq<Entry>)
    requires EmptiedFirst(d, es) && DistinctTargets(es)
    ensures var (last, os) := RunDeletions(d, es); Deleted(d, es, last, os)
    decreases |es|
  {
    if es == [] {
    } else {
      var p := es[0].Target();
      assert es[..0] == [];
      var d' := RemovePath(d, p).0;
      forall q | q in d ensures !Below(q, p) {
        assert Below(q, p) ==> Targeted(es[..0], q);
      }
      assert d' == d - {p};
      EmptiedNext(d, es);
      DeletionsRun(d', es[1..]);
      var (last, os) := RunDeletions(d', es[1..]);
      DeletedCons(d, es, last, os);
    }
  }

  // Each removal finds its node or nothing, and the disk ends as `d` without the listed paths.
  ghost predicate Deleted(d: Disk, es: seq<Entry>, last: Disk, os: seq<Outcome>) {
    && |os| == |es|
    && (forall i :: 0 <= i < |es| ==> os[i] == if es[i].Target() in d then Done else Missing)
    && (forall p :: p in last <==> p in d && !Targeted(es, p))
    && (forall p :: p in last ==> last[p] == d[p])
  }

  lemma EmptiedNext(d: Disk, es: seq<Entry>)
    requires es != [] && EmptiedFirst(d, es)
    ensures EmptiedFirst(d - {es[0].Target()}, es[1..])
  {
    forall i, q | 0 <= i < |es[1..]| && q in d - {es[0].Target()} && Below(q, es[1..][i].Target())
      ensures Targeted(es[1..][..i], q)
    {
      assert es[i + 1] == es[1..][i] && Targeted(es[..i + 1], q);
      assert es[..i + 1][1..] == es[1..][..i];
      TargetedCons(es[..i + 1], q);
    }
  }

  lemma DeletedCons(d: Disk, es: seq<Entry>, last: Disk, os: seq<Outcome>)
    requires es != [] && DistinctTargets(es) && Deleted(d - {es[0].Target()}, es[1..], last, os)
    ensures Deleted(d, es, last, [if es[0].Target() in d then Done else Missing] + os)
  {
    forall q ensures Targeted(es, q) <==> q == es[0].Target() || Targeted(es[1..], q) {
      TargetedCons(es, q);
    }
    assert forall i :: 0 < i < |es| ==> es[i] == es[1..][i - 1];
  }

  // ---------------------------------------------------------------- additions

  // Some record in es puts a node at p.
  ghost predicate MadeAt(es: seq<Entry>, p: Path) {
    exists e :: e in es && e.Target() == p && Made(e.file).Some?
  }

  // Each path can be created when its turn comes.
  ghost predicate CreatableInOrder(d: Disk, es: seq<Entry>) {
    forall j :: 0 <= j < |es| ==>
      && es[j].Target() !in d
      && (es[j].dir == [] || (es[j].dir in d && d[es[j].dir].Dir?)
          || exists i :: 0 <= i < j && es[i].file.isFolder && es[i].Target() == es[j].dir)
  }

  function Extra(d: Disk, e: Entry): Disk {
    if Made(e.file).Some? then d[e.Target() := Made(e.file).value] else d
  }

  lemma {:induction false} AdditionsRun(d: Disk, es: seq<Entry>)
    requires CreatableInOrder(d, es) && DistinctTargets(es)
    ensures var (last, os) := RunAdditions(d, es); Built(d, es, last, os)
    decreases |es|
  {
    if es == [] {
    } else {
      var e, rest := es[0], es[1..];
      assert Parent(e.Target()) == e.dir;
      assert Create(d, e.Target(), e.file) == (Extra(d, e), OutcomeOf(e));
      CreatableNext(d, es);
      AdditionsRun(Extra(d, e), rest);
      var (last, os) := RunAdditions(Extra(d, e), rest);
      BuiltCons(d, es, last, os);
    }
  }

  function OutcomeOf(e: Entry): Outcome {
    if Made(e.file).Some? then Done else NeverMade
  }

  // Every creation succeeds that is tried at all, and the disk ends as `d` with exactly the nodes
  // made of the listed records put in.
  ghost predicate Built(d: Disk, es: seq<Entry>, last: Disk, os: seq<Outcome>) {
    && |os| == |es|
    && (forall i :: 0 <= i < |es| ==> os[i] == OutcomeOf(es[i]))
    && (forall p :: p in last <==> p in d || MadeAt(es, p))
    && (forall e :: e in es && Made(e.file).Some? ==> At(last, e.Target()) == Made(e.file))
    && (forall p :: p in d ==> last[p] == d[p])
  }

  lemma BuiltCons(d: Disk, es: seq<Entry>, last: Disk, os: seq<Outcome>)
    requires es != [] && DistinctTargets(es) && es[0].Target() !in d
    requires Built(Extra(d, es[0]), es[1..], last, os)
    ensures Built(d, es, last, [OutcomeOf(es[0])] + os)
  {
    OutcomesCons(es, os);
    forall q ensures q in last <==> q in d || MadeAt(es, q) {
      MadeAtCons(es, q);
    }
    forall e | e in es && Made(e.file).Some? ensures At(last, e.Target()) == Made(e.file) {
      HeadMade(d, es, last, os, e);
    }
  }

  lemma OutcomesCons(es: seq<Entry>, os: seq<Outcome>)
    requires es != [] && |os| == |es[1..]| && forall i :: 0 <= i < |os| ==> os[i] == OutcomeOf(es[1..][i])
    ensures forall i :: 0 <= i < |es| ==> ([OutcomeOf(es[0])] + os)[i] == OutcomeOf(es[i])
  {
    forall i | 0 < i < |es| ensures ([OutcomeOf(es[0])] + os)[i] == OutcomeOf(es[i]) {
      assert es[i] == es[1..][i - 1];
    }
  }

  lemma HeadMade(d: Disk, es: seq<Entry>, last: Disk, os: seq<Outcome>, e: Entry)
    requires es != [] && e in es && Made(e.file).Some?
    requires Built(Extra(d, es[0]), es[1..], last, os)
    ensures At(last, e.Target()) == Made(e.file)
  {
    if e !in es[1..] {
      assert e == es[0] && Extra(d, e)[e.Target()] == Made(e.file).value;
    }
  }

  lemma TargetedCons(es: seq<Entry>, q: Path)
    requires es != []
    ensures Targeted(es, q) <==> q == es[0].Target() || Targeted(es[1..], q)
  {
    if Targeted(es[1..], q) {
      var e :| e in es[1..] && e.Target() == q;
      assert e in es;
    }
    if Targeted(es, q) {
      var e :| e in es && e.Target() == q;
      assert e == es[0] || e in es[1..];
    }
  }

  lemma MadeAtCons(es: seq<Entry>, q: Path)
    requires es != []
    ensures MadeAt(es, q) <==> (q == es[0].Target() && Made(es[0].file).Some?) || MadeAt(es[1..], q)
  {
    if MadeAt(es[1..], q) {
      var e :| e in es[1..] && e.Target() == q && Made(e.file).Some?;
      assert e in es;
    }
    if MadeAt(es, q) {
      var e :| e in es && e.Target() == q && Made(e.file).Some?;
      assert e == es[0] || e in es[1..];
    }
  }

  lemma CreatableNext(d: Disk, es: seq<Entry>)
    requires es != [] && CreatableInOrder(d, es) && DistinctTargets(es)
    ensures CreatableInOrder(Extra(d, es[0]), es[1..])
  {
    var d', rest := Extra(d, es[0]), es[1..];
    forall j | 0 <= j < |rest|
      ensures rest[j].Target() !in d'
      ensures rest[j].dir == [] || (rest[j].dir in d' && d'[rest[j].dir].Dir?)
           || exists i :: 0 <= i < j && rest[i].file.isFolder && rest[i].Target() == rest[j].dir
    {
      assert rest[j] == es[j + 1];
      if i :| 0 <= i < j + 1 && es[i].file.isFolder && es[i].Target() == es[j + 1].dir {
        if i > 0 {
          assert rest[i - 1] == es[i];
        }
      }
    }
  }

  // ---------------------------------------------------------------- one diff on a disk

  lemma {:induction false} OneRecordPerName(t: Folder, dir: Path, x: File, y: File)
    requires Unique(t) && Has(t, dir, x) && Has(t, dir, y) && x.name == y.name
    ensures x == y
    decreases dir
  {
    if dir == [] {
      UniqueName(t.files, x, y);
    } else {
      OneRecordPerName(Child(t.folders, dir[0]).value, dir[1..], x, y);
    }
  }

  lemma {:induction false} SnapshotIsClean(t: Folder, dir: Path, x: File)
    requires Snapshot(t) && Has(t, dir, x) && x.isFolder
    ensures x == Marker(x.name)
    decreases dir
  {
    if dir == [] {
    } else {
      SnapshotIsClean(Child(t.folders, dir[0]).value, dir[1..], x);
    }
  }

  // es holds the entries of a that b lacks.
  ghost predicate HoldsDifference(es: seq<Entry>, a: Folder, b: Folder) {
    forall e :: e in es <==> Has(a, e.dir, e.file) && !Has(b, e.dir, e.file)
  }

  // es lists, in the given order and each once, the entries of a that b lacks.
  ghost predicate Lists(ff: bool, es: seq<Entry>, a: Folder, b: Folder) {
    Ordered(ff, es) && DistinctTargets(es) && HoldsDifference(es, a, b)
  }

  // The iterator's lists of one side of a diff are such lists.
  lemma DifferenceListed(ff: bool, a: Folder, b: Folder)
    requires Snapshot(a) && Snapshot(b)
    ensures Lists(ff, List(ff, [], Subtract(a, b)), a, b)
  {
    var s := Subtract(a, b);
    SnapshotIsUnique(a);
    SnapshotIsUnique(b);
    SubtractUnique(a, b);
    forall dir, x ensures Has(s, dir, x) <==> Has(a, dir, x) && !Has(b, dir, x)
                  ensures Has(a, dir, x) && x.isFolder ==> x == Marker(x.name) {
      SubtractIsDifference(a, b, dir, x);
      if Has(a, dir, x) && x.isFolder {
        SnapshotIsClean(a, dir, x);
      }
    }
    ListOrdered(ff, [], s);
    var es := List(ff, [], s);
    forall e ensures e in es <==> Has(a, e.dir, e.file) && !Has(b, e.dir, e.file) {
      ListMembers(ff, [], s, e);
      assert e.dir[0..] == e.dir;
    }
    OrderedTargets(a, es);
  }

  lemma OrderedTargets(t: Folder, es: seq<Entry>)
    requires Unique(t) && Distinct(es) && forall e :: e in es ==> Has(t, e.dir, e.file)
    ensures DistinctTargets(es)
  {
    forall i, j | 0 <= i < j < |es| ensures es[i].Target() != es[j].Target() {
      if es[i].Target() == es[j].Target() {
        SameTarget(es[i], es[j]);
        OneRecordPerName(t, es[i].dir, es[i].file, es[j].file);
      }
    }
  }

  lemma SameTarget(a: Entry, b: Entry)
    requires a.Target() == b.Target()
    ensures a.dir == b.dir && a.file.name == b.file.name
  {
    assert a.dir == Parent(a.Target()) && b.dir == Parent(b.Target());
    assert a.file.name == a.Target()[|a.dir|];
  }

  lemma Rejoin(q: Path, x: File)
    requires q != [] && x.name == q[|q| - 1]
    ensures Entry(Parent(q), x).Target() == q
  {
  }

  // The directory that holds an entry is itself marked.
  lemma HolderMarked(t: Folder, dir: Path, x: File)
    requires Snapshot(t) && Has(t, dir, x) && dir != []
    ensures Has(t, Parent(dir), Marker(dir[|dir| - 1]))
    ensures Entry(Parent(dir), Marker(dir[|dir| - 1])).Target() == dir
  {
    AncestorsMarked(t, dir, x, |dir| - 1);
    Rejoin(dir, Marker(dir[|dir| - 1]));
  }

  // An entry below a folder record that t lacks is not in t.
  lemma GoneWithFolder(t: Folder, dir: Path, n: Bytes, q: Path, x: File)
    requires Snapshot(t) && Has(t, q, x) && dir + [n] <= q
    ensures Has(t, dir, Marker(n))
  {
    AncestorsMarked(t, q, x, |dir|);
    assert q[..|dir|] == dir && q[|dir|] == n;
  }

  // t has a record at the path p.
  ghost predicate Recorded(t: Folder, p: Path)
    requires p != []
  {
    exists x :: Has(t, Parent(p), x) && x.name == p[|p| - 1]
  }

  // a and b have the same record at the path p.
  ghost predicate Shared(a: Folder, b: Folder, p: Path)
    requires p != []
  {
    exists x :: Has(a, Parent(p), x) && Has(b, Parent(p), x) && x.name == p[|p| - 1]
  }

  // The disk is on its way from `base` to `next`: nodes stand at paths of base only, and every
  // directory that both trees have is there. Plain files may still be missing, as while a client
  // downloads them, or may not be what their records say.
  ghost predicate Behind(d: Disk, base: Folder, next: Folder) {
    && (forall p :: p in d ==> p != [] && Recorded(base, p))
    && (forall e: Entry {:trigger e.Target()} ::
          Has(base, e.dir, e.file) && Has(next, e.dir, e.file) && e.file.isFolder ==>
            e.Target() in d && d[e.Target()].Dir?)
  }

  lemma RecordBack(dir: Path, x: File)
    requires x.isFolder ==> x == Marker(x.name)
    ensures Parent(dir + [x.name]) == dir && Record(dir + [x.name], NodeOf(x)) == x
  {
  }

  // The entries of a tree that stands on the disk, read from the disk.
  lemma EntryOnDisk(d: Disk, t: Folder, e: Entry)
    requires Snapshot(t) && OnDisk(d, t)
    ensures Has(t, e.dir, e.file) ==>
              e.Target() in d && d[e.Target()] == NodeOf(e.file)
              && Parent(e.Target()) == e.dir && Record(e.Target(), d[e.Target()]) == e.file
  {
    if Has(t, e.dir, e.file) {
      if e.file.isFolder {
        SnapshotIsClean(t, e.dir, e.file);
      }
      RecordBack(e.dir, e.file);
    }
  }

  // A disk on which a lagging tree stands is one.
  lemma LaggingIsBehind(d: Disk, cur: Folder, base: Folder, next: Folder)
    requires Snapshot(base) && OnDisk(d, cur) && Lags(cur, base, next)
    ensures Behind(d, base, next)
  {
    forall p | p in d ensures p != [] && Recorded(base, p) {
      assert Has(base, Parent(p), Record(p, d[p]));
    }
    forall e: Entry | Has(base, e.dir, e.file) && Has(next, e.dir, e.file) && e.file.isFolder
      ensures e.Target() in d && d[e.Target()].Dir?
    {
      SnapshotIsClean(base, e.dir, e.file);
      assert Has(cur, e.dir, e.file);
    }
  }

  // The record of p is the one the listed entry has, if there is such an entry.
  lemma TargetedRecord(t: Folder, e: Entry, p: Path, x: File)
    requires Unique(t) && Has(t, e.dir, e.file) && p != [] && e.Target() == p
    requires Has(t, Parent(p), x) && x.name == p[|p| - 1]
    ensures e == Entry(Parent(p), x)
  {
    assert e.dir == Parent(p);
    OneRecordPerName(t, e.dir, e.file, x);
  }

  // With a folder goes what stands in it.
  lemma GoneWithRecord(old_: Folder, new_: Folder, e: Entry, q: Path, x: File)
    requires Snapshot(old_) && Snapshot(new_) && Has(old_, e.dir, e.file) && !Has(new_, e.dir, e.file)
    requires Has(old_, q, x) && e.Target() <= q
    ensures !Has(new_, q, x) && e.file.isFolder
  {
    SnapshotIsUnique(old_);
    GoneWithFolder(old_, e.dir, e.file.name, q, x);
    OneRecordPerName(old_, e.dir, e.file, Marker(e.file.name));
    if Has(new_, q, x) {
      GoneWithFolder(new_, e.dir, e.file.name, q, x);
    }
  }

  // What stands on the disk below a listed deletion is listed too.
  lemma BelowIsListed(d: Disk, old_: Folder, new_: Folder, es: seq<Entry>, e: Entry, q: Path) returns (b: Entry)
    requires Snapshot(old_) && Snapshot(new_) && Behind(d, old_, new_)
    requires HoldsDifference(es, old_, new_) && e in es && q in d && Below(q, e.Target())
    ensures b in es && b.Target() == q && e.file.isFolder && e.Target() <= b.dir
  {
    var x :| Has(old_, Parent(q), x) && x.name == q[|q| - 1];
    b := Entry(Parent(q), x);
    Rejoin(q, x);
    assert e.Target() <= Parent(q);
    GoneWithRecord(old_, new_, e, Parent(q), x);
  }

  lemma DeletionsEmptied(d: Disk, old_: Folder, new_: Folder, es: seq<Entry>)
    requires Snapshot(old_) && Snapshot(new_) && Behind(d, old_, new_) && Lists(true, es, old_, new_)
    ensures EmptiedFirst(d, es)
  {
    forall i, q | 0 <= i < |es| && q in d && Below(q, es[i].Target()) ensures Targeted(es[..i], q) {
      var b := BelowIsListed(d, old_, new_, es, es[i], q);
      ListedBefore(es, i, b);
    }
  }

  lemma ListedBefore(es: seq<Entry>, i: nat, b: Entry)
    requires i < |es| && ContentFirst(es) && b in es
    requires es[i].file.isFolder && es[i].Target() <= b.dir
    ensures Targeted(es[..i], b.Target())
  {
    var j :| 0 <= j < |es| && es[j] == b;
    assert |es[i].dir| < |es[i].Target()| <= |b.dir|;
    assert j != i && !(i < j);
    assert es[..i][j] == b;
  }

  // A path of the old tree that no listed deletion names has its record in the new tree too, and
  // the other way round.
  lemma SurvivorIsShared(old_: Folder, new_: Folder, es: seq<Entry>, p: Path)
    requires Snapshot(old_) && Lists(true, es, old_, new_) && p != [] && Recorded(old_, p)
    ensures Targeted(es, p) <==> !Shared(old_, new_, p)
  {
    SnapshotIsUnique(old_);
    var x :| Has(old_, Parent(p), x) && x.name == p[|p| - 1];
    var b := Entry(Parent(p), x);
    assert b.Target() == p;
    if e :| e in es && e.Target() == p {
      TargetedRecord(old_, e, p, x);
    }
    if y :| Has(old_, Parent(p), y) && Has(new_, Parent(p), y) && y.name == p[|p| - 1] {
      OneRecordPerName(old_, Parent(p), x, y);
    }
  }

  // The disk between the two loops: on its way still, with nothing left that new lacks.
  ghost predicate MidDisk(mid: Disk, old_: Folder, new_: Folder) {
    Behind(mid, old_, new_) && forall p :: p in mid ==> Shared(old_, new_, p)
  }

  // The removals of a diff find their nodes or nothing, and leave what the new tree has too.
  lemma AfterDeletions(d: Disk, old_: Folder, new_: Folder, es: seq<Entry>)
    requires Snapshot(old_) && Snapshot(new_) && Behind(d, old_, new_) && Lists(true, es, old_, new_)
    ensures var (mid, os) := RunDeletions(d, es);
      && |os| == |es|
      && (forall i :: 0 <= i < |es| ==> os[i] == if es[i].Target() in d then Done else Missing)
      && (forall p :: p in mid <==> p in d && Shared(old_, new_, p))
      && (forall p :: p in mid ==> mid[p] == d[p])
      && (forall e :: e in es ==> e.Target() !in mid)
      && MidDisk(mid, old_, new_)
  {
    DeletionsEmptied(d, old_, new_, es);
    DeletionsRun(d, es);
    var mid := RunDeletions(d, es).0;
    forall p | p in d ensures p in mid <==> Shared(old_, new_, p) {
      SurvivorIsShared(old_, new_, es, p);
    }
    forall e | e in es ensures e.Target() !in mid {
      assert Targeted(es, e.Target());
    }
    forall e: Entry | Has(old_, e.dir, e.file) && Has(new_, e.dir, e.file) && e.file.isFolder
      ensures e.Target() in mid && mid[e.Target()].Dir?
    {
      assert Parent(e.Target()) == e.dir;
      assert Shared(old_, new_, e.Target());
    }
  }

  // The tree minus the deletions stands on the disk after them, so this is what a directory scan
  // reads back there.
  lemma ReadBack(d: Disk, cur: Folder, old_: Folder, new_: Folder)
    requires Snapshot(cur) && Snapshot(old_) && Snapshot(new_) && Lags(cur, old_, new_) && OnDisk(d, cur)
    ensures var mid := RunDeletions(d, FileFirst([], Diff(old_, new_).1)).0;
            var read := Remove(cur, Diff(old_, new_).1);
      && Snapshot(read) && OnDisk(mid, read) && Lags(read, old_, new_)
      && forall dir, x :: Has(read, dir, x) <==> Has(cur, dir, x) && Has(new_, dir, x)
  {
    var es := FileFirst([], Diff(old_, new_).1);
    var mid := RunDeletions(d, es).0;
    var read := Remove(cur, Diff(old_, new_).1);
    LaggingIsBehind(d, cur, old_, new_);
    DifferenceListed(true, old_, new_);
    AfterDeletions(d, old_, new_, es);
    PatchFiles(cur, old_, new_);
    forall dir, x ensures Has(read, dir, x) <==> Has(cur, dir, x) && Has(new_, dir, x) {
      KeptEntry(cur, old_, new_, dir, x);
    }
    forall p | p in mid ensures Has(read, Parent(p), Record(p, mid[p])) {
      ReadNode(d, cur, old_, new_, p);
    }
    forall e: Entry | Has(read, e.dir, e.file) ensures e.Target() in mid && mid[e.Target()] == NodeOf(e.file) {
      EntryOnDisk(d, cur, e);
      assert Shared(old_, new_, e.Target());
    }
  }

  lemma ReadNode(d: Disk, cur: Folder, old_: Folder, new_: Folder, p: Path)
    requires Snapshot(old_) && Lags(cur, old_, new_) && OnDisk(d, cur) && p in d && p != [] && Shared(old_, new_, p)
    ensures Has(cur, Parent(p), Record(p, d[p])) && Has(new_, Parent(p), Record(p, d[p]))
  {
    SnapshotIsUnique(old_);
    var x :| Has(old_, Parent(p), x) && Has(new_, Parent(p), x) && x.name == p[|p| - 1];
    OneRecordPerName(old_, Parent(p), x, Record(p, d[p]));
  }

  lemma KeptEntry(cur: Folder, old_: Folder, new_: Folder, dir: Path, x: File)
    requires Snapshot(cur) && Snapshot(old_) && Snapshot(new_) && Lags(cur, old_, new_)
    ensures Has(Remove(cur, Diff(old_, new_).1), dir, x) <==> Has(cur, dir, x) && Has(new_, dir, x)
  {
    SnapshotIsUnique(old_);
    SnapshotIsUnique(new_);
    SubtractUnique(old_, new_);
    RemoveDenotes(cur, Diff(old_, new_).1, dir, x);
    SubtractIsDifference(old_, new_, dir, x);
    if Has(new_, dir, x) {
      NotCut(old_, new_, dir, x);
    }
  }

  // ---------------------------------------------------------------- the tree in memory

  // Whatever a scan reads after the removals takes the diff: no assert fires, and the tree in memory
  // holds what was read and what the diff adds.
  lemma ReadTakesDiff(mid: Disk, read: Folder, old_: Folder, new_: Folder, es: seq<Entry>)
    requires Snapshot(read) && Snapshot(old_) && Snapshot(new_) && OnDisk(mid, read) && MidDisk(mid, old_, new_)
    requires HoldsDifference(es, old_, new_) && forall e :: e in es ==> e.Target() !in mid
    ensures var r := Patch(read, Diff(old_, new_));
      && r.Some?
      && forall dir, x :: Has(r.value, dir, x) <==> Has(read, dir, x) || (Has(new_, dir, x) && !Has(old_, dir, x))
  {
    var (adds, dels) := Diff(old_, new_);
    PatchFiles(read, old_, new_);
    ReadIsOpen(mid, read, old_, new_);
    PatchSucceedsIff(read, old_, new_);
    var left := Remove(read, dels);
    SnapshotIsUnique(left);
    SnapshotIsUnique(old_);
    SnapshotIsUnique(new_);
    forall dir, x
      ensures Has(Add(left, adds).value, dir, x) <==> Has(read, dir, x) || (Has(new_, dir, x) && !Has(old_, dir, x))
    {
      AddIsUnion(left, adds, dir, x);
      SubtractIsDifference(new_, old_, dir, x);
      RemoveDenotes(read, dels, dir, x);
      if Has(read, dir, x) {
        NotDeletedAgain(mid, read, old_, new_, es, dir, x);
      }
    }
  }

  // The ways of the additions are open on a disk that is on its way.
  lemma ReadIsOpen(mid: Disk, read: Folder, old_: Folder, new_: Folder)
    requires Snapshot(new_) && OnDisk(mid, read) && MidDisk(mid, old_, new_)
    ensures WaysOpen(read, old_, new_)
  {
    forall q, x, k | Has(new_, q, x) && !Has(old_, q, x) && 0 <= k < |q| && Has(old_, q[..k], Marker(q[k]))
      ensures Has(read, q[..k], Marker(q[k]))
    {
      AncestorsMarked(new_, q, x, k);
      var e := Entry(q[..k], Marker(q[k]));
      RecordBack(q[..k], Marker(q[k]));
      assert e.Target() in mid && mid[e.Target()].Dir?;
    }
  }

  // The deletions name nothing that was read.
  lemma NotDeletedAgain(mid: Disk, read: Folder, old_: Folder, new_: Folder, es: seq<Entry>, dir: Path, x: File)
    requires Snapshot(read) && Snapshot(old_) && Snapshot(new_) && OnDisk(mid, read) && Has(read, dir, x)
    requires HoldsDifference(es, old_, new_) && forall e :: e in es ==> e.Target() !in mid
    ensures !Has(Diff(old_, new_).1, dir, x) && !Cut(Diff(old_, new_).1, dir)
  {
    var dels := Diff(old_, new_).1;
    ReadIsNotDeleted(mid, read, old_, new_, es, dir, x);
    forall k | 0 <= k < |dir| ensures !Has(dels, dir[..k], Marker(dir[k])) {
      AncestorsMarked(read, dir, x, k);
      ReadIsNotDeleted(mid, read, old_, new_, es, dir[..k], Marker(dir[k]));
    }
    if Cut(dels, dir) {
      var k := CutWitness(dels, dir);
    }
  }

  lemma ReadIsNotDeleted(mid: Disk, read: Folder, old_: Folder, new_: Folder, es: seq<Entry>, dir: Path, x: File)
    requires Snapshot(old_) && Snapshot(new_) && OnDisk(mid, read) && Has(read, dir, x)
    requires HoldsDifference(es, old_, new_) && forall e :: e in es ==> e.Target() !in mid
    ensures !Has(Diff(old_, new_).1, dir, x)
  {
    SnapshotIsUnique(old_);
    SnapshotIsUnique(new_);
    SubtractIsDifference(old_, new_, dir, x);
    assert Entry(dir, x).Target() in mid;
  }

  // ---------------------------------------------------------------- the additions

  // es holds entries of a that b lacks, all folders among them, no directory after its content.
  ghost predicate ListsFolders(es: seq<Entry>, a: Folder, b: Folder) {
    && ParentsFirst(es) && DistinctTargets(es)
    && (forall e :: e in es ==> Has(a, e.dir, e.file) && !Has(b, e.dir, e.file))
    && (forall e: Entry :: Has(a, e.dir, e.file) && !Has(b, e.dir, e.file) && e.file.isFolder ==> e in es)
  }

  // Nothing stands where an entry is to be added.
  lemma TargetFree(mid: Disk, old_: Folder, new_: Folder, e: Entry)
    requires Snapshot(new_) && MidDisk(mid, old_, new_)
    requires Has(new_, e.dir, e.file) && !Has(old_, e.dir, e.file)
    ensures e.Target() !in mid
  {
    SnapshotIsUnique(new_);
    if e.Target() in mid {
      var p := e.Target();
      var x :| Has(old_, Parent(p), x) && Has(new_, Parent(p), x) && x.name == p[|p| - 1];
      TargetedRecord(new_, e, p, x);
    }
  }

  lemma ParentComesFirst(mid: Disk, old_: Folder, new_: Folder, order: seq<Entry>, j: nat)
    requires Snapshot(new_) && ListsFolders(order, new_, old_) && MidDisk(mid, old_, new_)
    requires j < |order| && order[j].dir != []
    ensures (order[j].dir in mid && mid[order[j].dir].Dir?)
         || exists i :: 0 <= i < j && order[i].file.isFolder && order[i].Target() == order[j].dir
  {
    var e := order[j];
    assert e in order;
    HolderMarked(new_, e.dir, e.file);
    var b := Entry(Parent(e.dir), Marker(e.dir[|e.dir| - 1]));
    if !Has(old_, b.dir, b.file) {
      assert b in order;
      var i :| 0 <= i < |order| && order[i] == b;
      assert i != j && !(i > j);
    }
  }

  lemma AdditionsCreatable(mid: Disk, old_: Folder, new_: Folder, order: seq<Entry>)
    requires Snapshot(new_) && ListsFolders(order, new_, old_) && MidDisk(mid, old_, new_)
    ensures CreatableInOrder(mid, order)
  {
    forall j | 0 <= j < |order|
      ensures order[j].Target() !in mid
      ensures order[j].dir == [] || (order[j].dir in mid && mid[order[j].dir].Dir?)
           || exists i :: 0 <= i < j && order[i].file.isFolder && order[i].Target() == order[j].dir
    {
      assert order[j] in order;
      TargetFree(mid, old_, new_, order[j]);
      if order[j].dir != [] {
        ParentComesFirst(mid, old_, new_, order, j);
      }
    }
  }

  // What AdditionsRun says of the disk after the second loop.
  ghost predicate Extended(mid: Disk, last: Disk, order: seq<Entry>) {
    && (forall p :: p in last <==> p in mid || MadeAt(order, p))
    && (forall e :: e in order && Made(e.file).Some? ==> At(last, e.Target()) == Made(e.file))
    && (forall p :: p in mid ==> p in last && last[p] == mid[p])
  }

  lemma AfterAdditions(mid: Disk, old_: Folder, new_: Folder, order: seq<Entry>)
    requires Snapshot(new_) && ListsFolders(order, new_, old_) && MidDisk(mid, old_, new_)
    ensures var (last, ps) := RunAdditions(mid, order);
      (forall i :: 0 <= i < |ps| ==> i < |order| && ps[i] == OutcomeOf(order[i])) && Extended(mid, last, order)
  {
    AdditionsCreatable(mid, old_, new_, order);
    AdditionsRun(mid, order);
  }

  // What stands at the path of an added record afterwards is what was made of it.
  lemma AddedStands(mid: Disk, last: Disk, old_: Folder, new_: Folder, order: seq<Entry>, e: Entry)
    requires Snapshot(new_) && MidDisk(mid, old_, new_) && Extended(mid, last, order)
    requires DistinctTargets(order) && e in order && Has(new_, e.dir, e.file) && !Has(old_, e.dir, e.file)
    ensures At(last, e.Target()) == Made(e.file)
  {
    TargetFree(mid, old_, new_, e);
    forall b | b in order && b.Target() == e.Target() ensures b == e {
      SameIndex(order, b, e);
    }
  }

  lemma SameIndex(es: seq<Entry>, a: Entry, b: Entry)
    requires DistinctTargets(es) && a in es && b in es && a.Target() == b.Target()
    ensures a == b
  {
    var i :| 0 <= i < |es| && es[i] == a;
    var j :| 0 <= j < |es| && es[j] == b;
    assert !(i < j) && !(j < i);
  }

  // Records that are made as they say.
  predicate MadeRight(e: Entry) {
    e.file.isFolder || e.file.size < Decimal.INT_LIMIT
  }

  // With all additions carried out, the disk holds the tree in memory exactly if every added plain
  // file has less than 2^31 bytes.
  lemma AllAddedIff(mid: Disk, last: Disk, read: Folder, old_: Folder, new_: Folder, order: seq<Entry>, r: Folder)
    requires Snapshot(read) && Snapshot(new_) && MidDisk(mid, old_, new_) && OnDisk(mid, read)
    requires HoldsDifference(order, new_, old_) && DistinctTargets(order) && Extended(mid, last, order)
    requires forall dir, x :: Has(r, dir, x) <==> Has(read, dir, x) || (Has(new_, dir, x) && !Has(old_, dir, x))
    ensures OnDisk(last, r) <==> forall e :: e in order ==> MadeRight(e)
  {
    if OnDisk(last, r) {
      forall e | e in order ensures MadeRight(e) {
        AddedStands(mid, last, old_, new_, order, e);
        MadeRightIff(e.file);
      }
    }
    if forall e :: e in order ==> MadeRight(e) {
      AllMade(mid, last, read, old_, new_, order, r);
    }
  }

  lemma AllMade(mid: Disk, last: Disk, read: Folder, old_: Folder, new_: Folder, order: seq<Entry>, r: Folder)
    requires Snapshot(read) && Snapshot(new_) && MidDisk(mid, old_, new_) && OnDisk(mid, read)
    requires HoldsDifference(order, new_, old_) && Extended(mid, last, order)
    requires forall dir, x :: Has(r, dir, x) <==> Has(read, dir, x) || (Has(new_, dir, x) && !Has(old_, dir, x))
    requires forall e :: e in order ==> MadeRight(e)
    ensures OnDisk(last, r)
  {
    forall p | p in last ensures p != [] && Has(r, Parent(p), Record(p, last[p])) {
      if p !in mid {
        var e :| e in order && e.Target() == p && Made(e.file).Some?;
        MadeRightIff(e.file);
        if e.file.isFolder {
          SnapshotIsClean(new_, e.dir, e.file);
        }
        RecordBack(e.dir, e.file);
      }
    }
    forall e: Entry | Has(r, e.dir, e.file) ensures e.Target() in last && last[e.Target()] == NodeOf(e.file) {
      if Has(read, e.dir, e.file) {
        EntryOnDisk(mid, read, e);
      } else {
        assert e in order;
        MadeRightIff(e.file);
      }
    }
  }

  // An order in which the additions can be carried out: all of them, each once, no directory
  // after its content.
  ghost predicate Schedule(order: seq<Entry>, additions: Folder) {
    && Ordered(false, order)
    && forall e :: e in order <==> e in FolderFirst([], additions)
  }

  lemma ScheduleLists(old_: Folder, new_: Folder, order: seq<Entry>)
    requires Snapshot(old_) && Snapshot(new_) && Schedule(order, Diff(old_, new_).0)
    ensures Lists(false, order, new_, old_) && ListsFolders(order, new_, old_)
  {
    DifferenceListed(false, new_, old_);
    assert List(false, [], Subtract(new_, old_)) == FolderFirst([], Subtract(new_, old_));
    SnapshotIsUnique(new_);
    OrderedTargets(new_, order);
  }

  // ---------------------------------------------------------------- receiving one diff

  // Every added plain file has less than 2^31 bytes.
  ghost predicate AddsSmall(old_: Folder, new_: Folder) {
    forall dir, x :: Has(new_, dir, x) && !Has(old_, dir, x) && !x.isFolder ==> x.size < Decimal.INT_LIMIT
  }

  // The recv_diff branch on the disk and in memory: the deletions are removed from the disk, the
  // tree is read back, and the diff is applied to what was read. On a disk that may still miss
  // files no removal meets a directory that is not empty, no assert of folder_add fails, and no
  // creation fails, in any schedule. Once the additions are carried out the disk holds the tree in
  // memory, what was read and what the diff adds, exactly if all added files are below 2^31 bytes.
  lemma ReplayLagging(d: Disk, old_: Folder, new_: Folder, read: Folder, order: seq<Entry>)
    requires Snapshot(old_) && Snapshot(new_) && Behind(d, old_, new_)
    requires Snapshot(read) && OnDisk(RunDeletions(d, FileFirst([], Diff(old_, new_).1)).0, read)
    requires Schedule(order, Diff(old_, new_).0)
    ensures var (mid, os) := RunDeletions(d, FileFirst([], Diff(old_, new_).1));
            var (last, ps) := RunAdditions(mid, order);
            var curFs := Patch(read, Diff(old_, new_));
      && (forall o :: o in os ==> o == Done || o == Missing)
      && (forall o :: o in ps ==> o == Done || o == NeverMade)
      && curFs.Some?
      && (forall dir, x :: Has(curFs.value, dir, x)
            <==> Has(read, dir, x) || (Has(new_, dir, x) && !Has(old_, dir, x)))
      && (OnDisk(last, curFs.value) <==> AddsSmall(old_, new_))
  {
    var es := FileFirst([], Diff(old_, new_).1);
    var mid := RunDeletions(d, es).0;
    DifferenceListed(true, old_, new_);
    AfterDeletions(d, old_, new_, es);
    ReadTakesDiff(mid, read, old_, new_, es);
    ScheduleLists(old_, new_, order);
    AfterAdditions(mid, old_, new_, order);
    AllAddedIff(mid, RunAdditions(mid, order).0, read, old_, new_, order, Patch(read, Diff(old_, new_)).value);
    SmallByEntry(old_, new_, order);
  }

  lemma SmallByEntry(old_: Folder, new_: Folder, order: seq<Entry>)
    requires HoldsDifference(order, new_, old_)
    ensures AddsSmall(old_, new_) <==> forall e :: e in order ==> MadeRight(e)
  {
    if forall e :: e in order ==> MadeRight(e) {
      forall dir, x | Has(new_, dir, x) && !Has(old_, dir, x) && !x.isFolder ensures x.size < Decimal.INT_LIMIT {
        assert Entry(dir, x) in order;
      }
    }
  }

  // From a disk equal to old no removal and no creation fails, and the disk ends equal to new exactly
  // if all added files are below 2^31 bytes.
  lemma ReplayExact(d: Disk, old_: Folder, new_: Folder, order: seq<Entry>)
    requires Snapshot(old_) && Snapshot(new_) && OnDisk(d, old_)
    requires Schedule(order, Diff(old_, new_).0)
    ensures var (mid, os) := RunDeletions(d, FileFirst([], Diff(old_, new_).1));
            var (last, ps) := RunAdditions(mid, order);
      && (forall o :: o in os ==> o == Done)
      && (forall o :: o in ps ==> o == Done || o == NeverMade)
      && (OnDisk(last, new_) <==> AddsSmall(old_, new_))
  {
    LaggingIsBehind(d, old_, old_, new_);
    ReadBack(d, old_, old_, new_);
    var read := Remove(old_, Diff(old_, new_).1);
    ReplayLagging(d, old_, new_, read, order);
    var es := FileFirst([], Diff(old_, new_).1);
    DeletionsDone(d, old_, new_, es);
    var last := RunAdditions(RunDeletions(d, es).0, order).0;
    SameOnDisk(last, Patch(read, Diff(old_, new_)).value, new_);
  }

  lemma DeletionsDone(d: Disk, old_: Folder, new_: Folder, es: seq<Entry>)
    requires Snapshot(old_) && Snapshot(new_) && OnDisk(d, old_) && es == FileFirst([], Diff(old_, new_).1)
    ensures forall o :: o in RunDeletions(d, es).1 ==> o == Done
  {
    DifferenceListed(true, old_, new_);
    LaggingIsBehind(d, old_, old_, new_);
    AfterDeletions(d, old_, new_, es);
    forall i | 0 <= i < |es| ensures es[i].Target() in d {
      assert es[i] in es;
    }
  }

  lemma AddOne(d: Disk, e: Entry)
    ensures var (d', o) := Create(d, e.Target(), e.file); RunAdditions(d, [e]) == (d', [o])
  {
    var es := [e];
    var (d', o) := Create(d, e.Target(), e.file);
    assert RunAdditions(d', es[1..]) == (d', []);
    assert [o] + [] == [o];
  }

  // A tree that holds one plain file, and the diff that brings it.
  function OneFile(x: File): Folder {
    Folder([], [x], [])
  }

  lemma OneFileListed(x: File)
    requires !x.isFolder
    ensures FolderFirst([], Diff(EmptyFolder([]), OneFile(x)).0) == [Entry([], x)]
  {
    EmptyIsNeutral(OneFile(x), EmptyFolder([]));
    var xs := [x];
    assert xs[0] == x && xs[1..] == [];
    assert PlainAt([], xs) == [Entry([], x)] + PlainAt([], xs[1..]) && FoldersAt([], xs) == [] + FoldersAt([], xs[1..]);
  }

  lemma OneFileTrees(x: File)
    requires !x.isFolder
    ensures Snapshot(EmptyFolder([])) && Snapshot(OneFile(x)) && OnDisk(map[], EmptyFolder([]))
  {
  }

  lemma HugeFileMade(n: Bytes, mtime: int)
    ensures Create(map[], [n], File(n, 0xFFFF_FFFF, mtime, false)) == (map[[n] := Dir], Done)
  {
    assert Made(File(n, 0xFFFF_FFFF, mtime, false)) == Some(Dir);
    assert Parent([n]) == [];
  }

  lemma HugeFileRun(n: Bytes, mtime: int, es: seq<Entry>)
    requires es == [Entry([], File(n, 0xFFFF_FFFF, mtime, false))]
    ensures RunAdditions(map[], es) == (map[[n] := Dir], [Done])
  {
    HugeFileMade(n, mtime);
    assert es[0].Target() == [n];
    AddOne(map[], es[0]);
  }

  // A file of 2^32 - 1 bytes arrives as a directory.
  lemma HugeFileBecomesDirectory(n: Bytes, mtime: int)
    ensures var old_, new_ := EmptyFolder([]), OneFile(File(n, 0xFFFF_FFFF, mtime, false));
      && Snapshot(old_) && Snapshot(new_) && OnDisk(map[], old_)
      && RunAdditions(map[], FolderFirst([], Diff(old_, new_).0)) == (map[[n] := Dir], [Done])
  {
    var x := File(n, 0xFFFF_FFFF, mtime, false);
    OneFileTrees(x);
    OneFileListed(x);
    HugeFileRun(n, mtime, FolderFirst([], Diff(EmptyFolder([]), OneFile(x)).0));
  }

  lemma SameOnDisk(d: Disk, a: Folder, b: Folder)
    requires SameEntries(a, b)
    ensures OnDisk(d, a) <==> OnDisk(d, b)
  {
  }

  // ---------------------------------------------------------------- the schedules of the client

  // Created while the additions are listed: directories, and files without any chunk.
  predicate AtOnce(e: Entry) {
    Length(e.file) == -1 || ChunkyFile.ChunkCount(Length(e.file)) < 1
  }

  function FilterAtOnce(es: seq<Entry>): seq<Entry> {
    if es == [] then [] else (if AtOnce(es[0]) then [es[0]] else []) + FilterAtOnce(es[1..])
  }

  lemma HeadPrecedes(es: seq<Entry>)
    requires es != [] && Ordered(false, es)
    ensures forall e :: e in es <==> e == es[0] || e in es[1..]
    ensures forall y :: y in es[1..] ==> Precedes(false, es[0], y)
  {
    forall y | y in es[1..] ensures Precedes(false, es[0], y) {
      var i :| 0 <= i < |es[1..]| && es[1..][i] == y;
      assert es[i + 1] == y;
    }
  }

  lemma {:induction false} FilterOrdered(es: seq<Entry>)
    requires Ordered(false, es)
    ensures Ordered(false, FilterAtOnce(es))
    ensures forall e :: e in FilterAtOnce(es) <==> e in es && AtOnce(e)
  {
    if es == [] {
    } else {
      FilterOrdered(es[1..]);
      HeadPrecedes(es);
      if AtOnce(es[0]) {
        OrderedConcat(false, [es[0]], FilterAtOnce(es[1..]));
      } else {
        assert [] + FilterAtOnce(es[1..]) == FilterAtOnce(es[1..]);
      }
    }
  }

  // The client creates some entries while it goes down the list, and writes the remaining files
  // in whatever order their last chunks arrive.
  lemma ClientSchedule(old_: Folder, new_: Folder, late: seq<Entry>)
    requires Snapshot(old_) && Snapshot(new_)
    requires Distinct(late)
    requires forall e :: e in late <==> e in FolderFirst([], Diff(old_, new_).0) && !AtOnce(e)
    ensures Schedule(FilterAtOnce(FolderFirst([], Diff(old_, new_).0)) + late, Diff(old_, new_).0)
  {
    DifferenceListed(false, new_, old_);
    var es := FolderFirst([], Diff(old_, new_).0);
    FilterOrdered(es);
    assert ParentsFirst(late);
    OrderedConcat(false, FilterAtOnce(es), late);
  }
}
