// A client's directory over a whole run: diffs arrive, and the files they announce are written one
// by one, in any order and also after later diffs.
module WorkingCopy {
  import opened Basics
  import opened FileTree
  import opened FolderOps
  import opened DiffPatch
  import opened Listing
  import opened DiskReplay
  import opened Scan

  // `base` is the snapshot the last diff led to; `fetched` are the entries of it that came by a
  // diff, `pending` those among them whose chunks are still to come.
  datatype Copy = Copy(disk: Disk, base: Folder, pending: set<Entry>, fetched: set<Entry>)

  datatype Event = Received(next: Folder) | Arrived(entry: Entry)

  // Entered in the file table with chunks to fetch.
  predicate ToFetch(e: Entry) {
    Length(e.file) > 0
  }

  ghost function StillIn(es: set<Entry>, t: Folder): set<Entry> {
    set e | e in es && Has(t, e.dir, e.file)
  }

  // The recv_diff branch: RemoveFileDeletions, then what GetFileAdditions makes at once. None when a
  // removal meets a directory that is not empty or a creation fails.
  ghost function AfterReceived(c: Copy, next: Folder): Option<Copy> {
    var (additions, deletions) := Diff(c.base, next);
    var es := FolderFirst([], additions);
    var (mid, os) := RunDeletions(c.disk, FileFirst([], deletions));
    var (d, ps) := RunAdditions(mid, FilterAtOnce(es));
    if (forall o :: o in os ==> o == Done || o == Missing) && (forall o :: o in ps ==> o == Done) then
      Some(Advanced(c, next, d, es))
    else None
  }

  // `es` are the additions.
  ghost function Advanced(c: Copy, next: Folder, d: Disk, es: seq<Entry>): Copy {
    Copy(d, next, StillIn(c.pending, next) + (set e | e in es && ToFetch(e)), StillIn(c.fetched, next) + (set e | e in es))
  }

  // The last chunk of a file arrives and the file is written.
  ghost function AfterArrived(c: Copy, e: Entry): Option<Copy> {
    var (d, o) := Create(c.disk, e.Target(), e.file);
    if o == Done then Some(c.(disk := d, pending := c.pending - {e})) else None
  }

  ghost function After(c: Copy, ev: Event): Option<Copy> {
    match ev
    case Received(next) => AfterReceived(c, next)
    case Arrived(e) => AfterArrived(c, e)
  }

  // Each diff is taken against its predecessor; only pending files arrive.
  ghost predicate Enabled(c: Copy, ev: Event) {
    match ev
    case Received(next) => Snapshot(next)
    case Arrived(e) => e in c.pending
  }

  ghost predicate EnabledRun(c: Copy, evs: seq<Event>)
    decreases |evs|
  {
    evs != [] ==>
      Enabled(c, evs[0]) && (After(c, evs[0]).Some? ==> EnabledRun(After(c, evs[0]).value, evs[1..]))
  }

  ghost function Run(c: Copy, evs: seq<Event>): Option<Copy>
    decreases |evs|
  {
    if evs == [] then Some(c)
    else
      match After(c, evs[0])
      case None => None
      case Some(c') => Run(c', evs[1..])
  }

  // The snapshot of the last diff among the events.
  function LastTree(base: Folder, evs: seq<Event>): Folder
    decreases |evs|
  {
    if evs == [] then base else LastTree(if evs[0].Received? then evs[0].next else base, evs[1..])
  }

  // ---------------------------------------------------------------- the invariant

  // What is to stand at the path of e: as the record says, or what the client makes of it.
  function Want(fetched: set<Entry>, e: Entry): Option<Node> {
    if e in fetched then Made(e.file) else Some(NodeOf(e.file))
  }

  // What is pending is missing, everything else is as it is to be.
  ghost predicate Covers(c: Copy) {
    && (forall e: Entry {:trigger e.Target()} :: Has(c.base, e.dir, e.file) ==>
          e in c.pending || At(c.disk, e.Target()) == Want(c.fetched, e))
    && (forall e :: e in c.pending ==> e in c.fetched && e.Target() !in c.disk && ToFetch(e))
  }

  // The disk holds nothing at paths the tree lacks, all its directories, and every file not pending.
  ghost predicate Inv(c: Copy) {
    && Snapshot(c.base)
    && Behind(c.disk, c.base, c.base)
    && Covers(c)
    && (forall e :: e in c.fetched ==> Has(c.base, e.dir, e.file))
  }

  lemma StartInv(d: Disk, base: Folder)
    requires Snapshot(base) && OnDisk(d, base)
    ensures Inv(Copy(d, base, {}, {}))
  {
    LaggingIsBehind(d, base, base, base);
    forall e: Entry | Has(base, e.dir, e.file) ensures At(d, e.Target()) == Some(NodeOf(e.file)) {
      assert e.Target() in d;
    }
  }

  // Once nothing is pending, the disk equals the tree exactly if every fetched file has less than
  // 2^31 bytes.
  lemma SettledOnDisk(c: Copy)
    requires Inv(c) && c.pending == {}
    ensures OnDisk(c.disk, c.base) <==> forall e :: e in c.fetched ==> MadeRight(e)
  {
    if OnDisk(c.disk, c.base) {
      forall e | e in c.fetched ensures MadeRight(e) {
        assert At(c.disk, e.Target()) == Made(e.file);
        MadeRightIff(e.file);
      }
    }
    if forall e :: e in c.fetched ==> MadeRight(e) {
      forall e: Entry | Has(c.base, e.dir, e.file) ensures At(c.disk, e.Target()) == Some(NodeOf(e.file)) {
        MadeRightIff(e.file);
      }
      AllStand(c.disk, c.base);
    }
  }

  lemma AllStand(d: Disk, t: Folder)
    requires Snapshot(t) && Behind(d, t, t)
    requires forall e: Entry {:trigger e.Target()} ::
      Has(t, e.dir, e.file) ==> At(d, e.Target()) == Some(NodeOf(e.file))
    ensures OnDisk(d, t)
  {
    forall p | p in d ensures p != [] && Has(t, Parent(p), Record(p, d[p])) {
      var x :| Has(t, Parent(p), x) && x.name == p[|p| - 1];
      assert Entry(Parent(p), x).Target() == p;
      if x.isFolder {
        SnapshotIsClean(t, Parent(p), x);
      }
      RecordBack(Parent(p), x);
    }
  }

  // Entries of one tree at one path are the same.
  lemma SamePlace(t: Folder, a: Entry, b: Entry)
    requires Snapshot(t) && Has(t, a.dir, a.file) && Has(t, b.dir, b.file) && a.Target() == b.Target()
    ensures a == b
  {
    SnapshotIsUnique(t);
    SameTarget(a, b);
    OneRecordPerName(t, a.dir, a.file, b.file);
  }

  lemma ParentStands(d: Disk, t: Folder, e: Entry)
    requires Snapshot(t) && Behind(d, t, t) && Has(t, e.dir, e.file)
    ensures ParentThere(d, e.Target())
  {
    assert Parent(e.Target()) == e.dir;
    if e.dir != [] {
      HolderMarked(t, e.dir, e.file);
    }
  }

  lemma ArrivedInv(c: Copy, e: Entry)
    requires Inv(c) && e in c.pending
    ensures AfterArrived(c, e).Some? && Inv(AfterArrived(c, e).value)
  {
    var p := e.Target();
    ParentStands(c.disk, c.base, e);
    var d := c.disk[p := Made(e.file).value];
    assert Create(c.disk, p, e.file) == (d, Done);
    assert Recorded(c.base, p) by {
      assert Parent(p) == e.dir;
    }
    ArrivedCovers(c, e, d);
  }

  lemma ArrivedCovers(c: Copy, e: Entry, d: Disk)
    requires Inv(c) && e in c.pending && d == c.disk[e.Target() := Made(e.file).value]
    ensures Covers(c.(disk := d, pending := c.pending - {e}))
  {
    forall b: Entry | Has(c.base, b.dir, b.file) && b.Target() == e.Target() ensures b == e {
      SamePlace(c.base, b, e);
    }
  }

  // ---------------------------------------------------------------- one diff

  // The additions that are carried out at once include all directories.
  lemma AtOnceLists(old_: Folder, new_: Folder)
    requires Snapshot(old_) && Snapshot(new_)
    ensures var es := FolderFirst([], Diff(old_, new_).0);
      && ListsFolders(FilterAtOnce(es), new_, old_)
      && HoldsDifference(es, new_, old_)
      && forall e :: e in FilterAtOnce(es) <==> e in es && AtOnce(e)
  {
    var es := FolderFirst([], Diff(old_, new_).0);
    DifferenceListed(false, new_, old_);
    assert List(false, [], Subtract(new_, old_)) == es;
    FilterOrdered(es);
    SnapshotIsUnique(new_);
    OrderedTargets(new_, FilterAtOnce(es));
  }

  // The disk between the two loops.
  ghost predicate Emptied(c: Copy, next: Folder, mid: Disk) {
    && (forall p :: p in mid ==> p in c.disk && mid[p] == c.disk[p])
    && (forall p :: p in c.disk && p != [] && Shared(c.base, next, p) ==> p in mid)
    && MidDisk(mid, c.base, next)
  }

  // The disk after them.
  ghost predicate Passed(c: Copy, next: Folder, mid: Disk, last: Disk, es: seq<Entry>) {
    && Emptied(c, next, mid)
    && HoldsDifference(es, next, c.base)
    && ListsFolders(FilterAtOnce(es), next, c.base)
    && (forall e :: e in FilterAtOnce(es) <==> e in es && AtOnce(e))
    && Extended(mid, last, FilterAtOnce(es))
  }

  lemma RemovalsPass(c: Copy, next: Folder)
    requires Inv(c) && Snapshot(next)
    ensures var (mid, os) := RunDeletions(c.disk, FileFirst([], Diff(c.base, next).1));
      (forall o :: o in os ==> o == Done || o == Missing) && Emptied(c, next, mid)
  {
    var dels := FileFirst([], Diff(c.base, next).1);
    DifferenceListed(true, c.base, next);
    AfterDeletions(c.disk, c.base, next, dels);
  }

  lemma CreationsPass(c: Copy, next: Folder, mid: Disk, es: seq<Entry>)
    requires Snapshot(next) && Emptied(c, next, mid) && HoldsDifference(es, next, c.base)
    requires ListsFolders(FilterAtOnce(es), next, c.base)
    requires forall e :: e in FilterAtOnce(es) <==> e in es && AtOnce(e)
    ensures Passed(c, next, mid, RunAdditions(mid, FilterAtOnce(es)).0, es)
  {
    AfterAdditions(mid, c.base, next, FilterAtOnce(es));
  }

  lemma CreationsDone(c: Copy, next: Folder, mid: Disk, es: seq<Entry>)
    requires Snapshot(next) && Emptied(c, next, mid)
    requires ListsFolders(FilterAtOnce(es), next, c.base)
    ensures forall o :: o in RunAdditions(mid, FilterAtOnce(es)).1 ==> o == Done
  {
    AdditionsCreatable(mid, c.base, next, FilterAtOnce(es));
    AtOnceOnly(es);
    AllDone(mid, FilterAtOnce(es));
  }

  lemma {:induction false} AtOnceOnly(es: seq<Entry>)
    ensures forall e :: e in FilterAtOnce(es) ==> AtOnce(e)
  {
    if es == [] {
    } else {
      AtOnceOnly(es[1..]);
    }
  }

  lemma AllDone(d: Disk, es: seq<Entry>)
    requires CreatableInOrder(d, es) && DistinctTargets(es) && forall e :: e in es ==> AtOnce(e)
    ensures forall o :: o in RunAdditions(d, es).1 ==> o == Done
  {
    AdditionsRun(d, es);
    DoneEverywhere(es, RunAdditions(d, es).1);
  }

  lemma DoneEverywhere(es: seq<Entry>, os: seq<Outcome>)
    requires |os| == |es| && forall i :: 0 <= i < |es| ==> os[i] == OutcomeOf(es[i])
    requires forall e :: e in es ==> AtOnce(e)
    ensures forall o :: o in os ==> o == Done
  {
    forall i | 0 <= i < |es| ensures os[i] == Done {
      assert es[i] in es;
    }
  }

  lemma ReceivedInv(c: Copy, next: Folder)
    requires Inv(c) && Snapshot(next)
    ensures AfterReceived(c, next).Some? && Inv(AfterReceived(c, next).value)
  {
    var es := FolderFirst([], Diff(c.base, next).0);
    var mid := RunDeletions(c.disk, FileFirst([], Diff(c.base, next).1)).0;
    RemovalsPass(c, next);
    AtOnceLists(c.base, next);
    CreationsPass(c, next, mid, es);
    CreationsDone(c, next, mid, es);
    ReceivedCopy(c, next, mid, RunAdditions(mid, FilterAtOnce(es)).0, es);
  }

  // The disk is behind the new tree now.
  lemma ReceivedNodes(c: Copy, next: Folder, mid: Disk, last: Disk, es: seq<Entry>)
    requires Snapshot(next) && Passed(c, next, mid, last, es)
    ensures Behind(last, next, next)
  {
    var order := FilterAtOnce(es);
    forall p | p in last ensures p != [] && Recorded(next, p) {
      if p !in mid {
        var e :| e in order && e.Target() == p && Made(e.file).Some?;
        assert Parent(p) == e.dir;
      }
    }
    forall e: Entry | Has(next, e.dir, e.file) && e.file.isFolder ensures e.Target() in last && last[e.Target()].Dir? {
      if !Has(c.base, e.dir, e.file) {
        assert e in order && Made(e.file) == Some(Dir);
      }
    }
  }

  // Nothing but what is made of an entry comes to stand at its path.
  lemma NothingMade(c: Copy, next: Folder, mid: Disk, last: Disk, es: seq<Entry>, e: Entry)
    requires Snapshot(next) && Passed(c, next, mid, last, es) && Has(next, e.dir, e.file)
    requires e.Target() !in mid && (e !in es || !AtOnce(e))
    ensures e.Target() !in last
  {
    forall b | b in FilterAtOnce(es) && b.Target() == e.Target() ensures b == e {
      SamePlace(next, b, e);
    }
  }

  lemma ReceivedCovers(c: Copy, next: Folder, mid: Disk, last: Disk, es: seq<Entry>)
    requires Inv(c) && Snapshot(next) && Passed(c, next, mid, last, es)
    ensures Covers(Advanced(c, next, last, es))
  {
    var c' := Advanced(c, next, last, es);
    forall e: Entry | Has(next, e.dir, e.file)
      ensures e in c'.pending || At(last, e.Target()) == Want(c'.fetched, e)
    {
      if Has(c.base, e.dir, e.file) {
        KeptEntryStands(c, next, mid, last, es, e);
      } else {
        NewEntryStands(c, next, mid, last, es, e);
      }
    }
    forall e | e in c'.pending ensures e.Target() !in last {
      if e in es {
        TargetFree(mid, c.base, next, e);
      }
      NothingMade(c, next, mid, last, es, e);
    }
  }

  lemma ReceivedCopy(c: Copy, next: Folder, mid: Disk, last: Disk, es: seq<Entry>)
    requires Inv(c) && Snapshot(next) && Passed(c, next, mid, last, es)
    ensures Inv(Advanced(c, next, last, es))
  {
    ReceivedNodes(c, next, mid, last, es);
    ReceivedCovers(c, next, mid, last, es);
  }

  lemma KeptEntryStands(c: Copy, next: Folder, mid: Disk, last: Disk, es: seq<Entry>, e: Entry)
    requires Snapshot(next) && Passed(c, next, mid, last, es)
    requires Has(next, e.dir, e.file) && Has(c.base, e.dir, e.file)
    ensures At(last, e.Target()) == At(c.disk, e.Target())
  {
    var p := e.Target();
    assert Parent(p) == e.dir && Shared(c.base, next, p);
    if p !in c.disk {
      NothingMade(c, next, mid, last, es, e);
    }
  }

  lemma NewEntryStands(c: Copy, next: Folder, mid: Disk, last: Disk, es: seq<Entry>, e: Entry)
    requires Snapshot(next) && Passed(c, next, mid, last, es)
    requires Has(next, e.dir, e.file) && !Has(c.base, e.dir, e.file)
    ensures e in es && (ToFetch(e) || At(last, e.Target()) == Made(e.file))
  {
    TargetFree(mid, c.base, next, e);
    if AtOnce(e) {
      assert e in FilterAtOnce(es);
      AddedStands(mid, last, c.base, next, FilterAtOnce(es), e);
    } else {
      NothingMade(c, next, mid, last, es, e);
    }
  }

  lemma StepInv(c: Copy, ev: Event)
    requires Inv(c) && Enabled(c, ev)
    ensures After(c, ev).Some? && Inv(After(c, ev).value)
  {
    match ev
    case Received(next) => ReceivedInv(c, next);
    case Arrived(e) => ArrivedInv(c, e);
  }

  // From a disk equal to the first snapshot, whatever diffs come, each against its predecessor, and
  // whenever the fetched files arrive in between: no operation on the disk fails, the disk never
  // holds anything at a path that the last snapshot lacks, and once nothing is pending it equals it
  // exactly if every file that came by a diff has less than 2^31 bytes.
  lemma CopyReachesLast(d: Disk, base: Folder, evs: seq<Event>)
    requires Snapshot(base) && OnDisk(d, base) && EnabledRun(Copy(d, base, {}, {}), evs)
    ensures var r := Run(Copy(d, base, {}, {}), evs);
      && r.Some? && r.value.base == LastTree(base, evs)
      && Behind(r.value.disk, LastTree(base, evs), LastTree(base, evs))
      && (r.value.pending == {} ==>
            (OnDisk(r.value.disk, LastTree(base, evs)) <==> forall e :: e in r.value.fetched ==> MadeRight(e)))
  {
    StartInv(d, base);
    RunInv(Copy(d, base, {}, {}), evs);
    if Run(Copy(d, base, {}, {}), evs).value.pending == {} {
      SettledOnDisk(Run(Copy(d, base, {}, {}), evs).value);
    }
  }

  lemma {:induction false} RunInv(c: Copy, evs: seq<Event>)
    requires Inv(c) && EnabledRun(c, evs)
    ensures var r := Run(c, evs); r.Some? && Inv(r.value) && r.value.base == LastTree(c.base, evs)
    decreases |evs|
  {
    if evs == [] {
    } else {
      StepInv(c, evs[0]);
      RunInv(After(c, evs[0]).value, evs[1..]);
    }
  }

  // ---------------------------------------------------------------- the client's cur_fs

  // The tree the client keeps of its directory. `copy` is the directory itself. Where the source
  // scans the directory, the scan is a parameter: any snapshot that stands on the disk then.
  class LocalDirectory {
    var curFs: Folder
    ghost var copy: Copy

    ghost predicate Valid()
      reads this
    {
      Inv(copy) && Snapshot(curFs) && OnDisk(copy.disk, curFs)
    }

    constructor (scan: Folder, ghost disk: Disk)
      requires Snapshot(scan) && OnDisk(disk, scan)
      ensures Valid() && copy == Copy(disk, scan, {}, {})
    {
      curFs, copy := scan, Copy(disk, scan, {}, {});
      StartInv(disk, scan);
    }

    // The recv_diff branch: remove the deletions from the directory, scan it, apply the diff in
    // memory, create the additions that need no chunks, scan again. `afterRemovals` and `afterAll`
    // are the scans; ok would be false at an assert of folder_add, which is never reached.
    method RecvDiff(additions: Folder, deletions: Folder, afterRemovals: Folder, afterAll: Folder, ghost next: Folder)
      returns (ok: bool)
      requires Valid() && Snapshot(next) && (additions, deletions) == Diff(copy.base, next)
      requires Snapshot(afterRemovals) && OnDisk(RunDeletions(copy.disk, FileFirst([], deletions)).0, afterRemovals)
      requires Snapshot(afterAll) && AfterReceived(copy, next).Some?
      requires OnDisk(AfterReceived(copy, next).value.disk, afterAll)
      modifies this
      ensures ok && Valid() && curFs == afterAll
      ensures AfterReceived(old(copy), next) == Some(copy)
    {
      ReceivedInMemory(copy, next, afterRemovals);
      ReceivedInv(copy, next);
      curFs := afterRemovals;
      curFs := FolderOps.Remove(curFs, deletions);
      var sum := FolderOps.Add(curFs, additions);
      if sum.None? {
        return false;
      }
      curFs := sum.value;
      copy := AfterReceived(copy, next).value;
      curFs := afterAll;
      ok := true;
    }

    // A pending file is complete: it is written, and the directory scanned again.
    method FileWritten(ghost e: Entry, scan: Folder)
      requires Valid() && e in copy.pending && Snapshot(scan)
      requires AfterArrived(copy, e).Some? && OnDisk(AfterArrived(copy, e).value.disk, scan)
      modifies this
      ensures Valid() && curFs == scan && AfterArrived(old(copy), e) == Some(copy)
    {
      ArrivedInv(copy, e);
      copy := AfterArrived(copy, e).value;
      curFs := scan;
    }
  }

  // The diff applies to what was read, and gives the entries that were read or are announced by it.
  lemma ReceivedInMemory(c: Copy, next: Folder, read: Folder)
    requires Inv(c) && Snapshot(next) && Snapshot(read)
    requires OnDisk(RunDeletions(c.disk, FileFirst([], Diff(c.base, next).1)).0, read)
    ensures var r := Patch(read, Diff(c.base, next));
      && r.Some?
      && forall dir, x :: Has(r.value, dir, x)
           <==> Has(read, dir, x) || (Has(next, dir, x) && !Has(c.base, dir, x))
  {
    var dels := FileFirst([], Diff(c.base, next).1);
    var mid := RunDeletions(c.disk, dels).0;
    DifferenceListed(true, c.base, next);
    AfterDeletions(c.disk, c.base, next, dels);
    ReadTakesDiff(mid, read, c.base, next, dels);
  }

  // ---------------------------------------------------------------- the scans

  // Whatever stands on a disk on its way between two snapshots stands in directories.
  lemma BehindIsRooted(d: Disk, old_: Folder, new_: Folder)
    requires Snapshot(old_) && Snapshot(new_) && MidDisk(d, old_, new_)
    ensures Rooted(d)
  {
    forall p | p in d ensures p != [] && ParentThere(d, p) {
      var x :| Has(old_, Parent(p), x) && Has(new_, Parent(p), x) && x.name == p[|p| - 1];
      if Parent(p) != [] {
        HolderMarked(old_, Parent(p), x);
        HolderMarked(new_, Parent(p), x);
      }
    }
  }

  // Whatever the run has led to, the directory can be scanned: the scan reads a snapshot that stands
  // on the disk.
  lemma ScanInRun(c: Copy, name: Bytes)
    requires Inv(c)
    ensures Snapshot(ReadFolder(c.disk, [], name)) && OnDisk(c.disk, ReadFolder(c.disk, [], name))
  {
    assert forall p :: p in c.disk ==> Shared(c.base, c.base, p);
    BehindIsRooted(c.disk, c.base, c.base);
    ScanStands(c.disk, name);
  }

  // So does the scan between the two loops of the branch.
  lemma ScanAfterRemovals(c: Copy, next: Folder, name: Bytes)
    requires Inv(c) && Snapshot(next)
    ensures var mid := RunDeletions(c.disk, FileFirst([], Diff(c.base, next).1)).0;
      Snapshot(ReadFolder(mid, [], name)) && OnDisk(mid, ReadFolder(mid, [], name))
  {
    var dels := FileFirst([], Diff(c.base, next).1);
    DifferenceListed(true, c.base, next);
    AfterDeletions(c.disk, c.base, next, dels);
    var mid := RunDeletions(c.disk, dels).0;
    BehindIsRooted(mid, c.base, next);
    ScanStands(mid, name);
  }
}
