// The tracker's master tree and master file table.
module Tracker {
  import opened Basics
  import opened FileTree
  import opened FolderOps
  import opened DiffPatch
  import opened Paths
  import opened Listing
  import opened Owners
  import Decimal
  import ChunkyFile
  import opened PathTable
  import opened AheadPatch
  import DiskReplay

  // For each path the owners of each chunk.
  type FileTable = map<Bytes, seq<seq<int>>>

  // filetable_add_filesystem without needs_data
  function AddListed(t: FileTable, es: seq<Entry>, peer: int): FileTable {
    WithListed(t, es, OwnedBy(peer))
  }

  function OwnedBy(peer: int): (Bytes, nat) -> seq<seq<int>> {
    (path: Bytes, n: nat) => SoleOwner(n, peer)
  }

  datatype State = State(fs: Folder, table: FileTable)

  // updateNetwork; None when an assert of folder_add fails.
  function Update(s: State, diff: (Folder, Folder), author: int): Option<State> {
    match Patch(s.fs, diff)
    case None => None
    case Some(fs) =>
      Some(State(fs, AddListed(WithoutListed(s.table, FileFirst([], diff.1)), FileFirst([], diff.0), author)))
  }

  // filetable_set_that_peer_has_file_chunk
  function SetOwner(t: FileTable, path: Bytes, peer: int, chunk: int): GotResult<FileTable> {
    match GotChunk(if path in t then Some(t[path]) else None, chunk, peer)
    case Owned(qs) => Owned(t[path := qs])
    case Stopped => Stopped
    case Outside => Outside
  }

  // filetable_remove_peer
  function LosePeer(t: FileTable, id: int): FileTable {
    map p | p in t :: WithoutEach(t[p], id)
  }

  // Some chunk of the entry has no owner.
  predicate Orphaned(qs: seq<seq<int>>) {
    exists i :: 0 <= i < |qs| && qs[i] == []
  }

  // The removal loop of prune_filesystem; None when folder_remove_file_at_path reaches FAIL.
  function Prune(s: State, paths: seq<Bytes>): Option<State>
    decreases |paths|
  {
    if paths == [] then Some(s)
    else
      match RemoveAt(s.fs, Components(paths[0]))
      case None => None
      case Some(fs) => Prune(State(fs, s.table - {paths[0]}), paths[1..])
  }

  // ---------------------------------------------------------------- the invariant

  function Key(dir: Path, x: File): Bytes {
    Render(dir + [x.name])
  }

  // A counted record of the tree that the key k names.
  ghost predicate Names(t: Folder, k: Bytes, dir: Path, x: File) {
    Has(t, dir, x) && Counted(x) && Key(dir, x) == k
  }

  // The table's keys are exactly the paths of the counted files, with a chunk count that matches
  // the length.
  ghost predicate Agrees(fs: Folder, table: FileTable) {
    && (forall k :: k in table ==> exists dir, x :: Names(fs, k, dir, x))
    && (forall dir, x :: Has(fs, dir, x) && Counted(x) ==>
          Key(dir, x) in table && |table[Key(dir, x)]| == ChunkyFile.NumChunks(Length(x)))
  }

  ghost predicate AllOwned(table: FileTable) {
    forall k :: k in table ==> !Orphaned(table[k])
  }

  ghost predicate Inv(s: State) {
    Snapshot(s.fs) && ProperNames(s.fs) && Agrees(s.fs, s.table) && AllOwned(s.table)
  }

  // The tracker starts with an empty tree.
  lemma StartInv(n: Bytes)
    ensures Inv(State(EmptyFolder(n), map[]))
  {
  }

  // A key names one record only.
  lemma KeyUnique(t: Folder, dir: Path, x: File, dir': Path, x': File)
    requires Snapshot(t) && ProperNames(t) && Has(t, dir, x) && Has(t, dir', x') && Key(dir, x) == Key(dir', x')
    ensures dir == dir' && x == x'
  {
    KeyedOnce(t, Entry(dir, x), Entry(dir', x'));
  }

  // ---------------------------------------------------------------- updates

  // The owners of an entry that the listed record e created.
  ghost predicate AddedAs(es: seq<Entry>, k: Bytes, e: Entry, owners: seq<seq<int>>, peer: int) {
    e in es && Counted(e.file) && KeyOf(e) == k && owners == SoleOwner(ChunksOf(e), peer)
  }

  lemma AddListedKeys(t: FileTable, es: seq<Entry>, peer: int, k: Bytes)
    ensures k in AddListed(t, es, peer) <==> k in t || Keyed(es, k)
    ensures !Keyed(es, k) && k in t ==> AddListed(t, es, peer)[k] == t[k]
    ensures Keyed(es, k) ==> exists e :: AddedAs(es, k, e, AddListed(t, es, peer)[k], peer)
  {
    var make := OwnedBy(peer);
    WithListedKeys(t, es, make, k);
    if Keyed(es, k) {
      var e :| MadeBy(es, k, e, WithListed(t, es, make)[k], make);
      assert AddedAs(es, k, e, AddListed(t, es, peer)[k], peer);
    }
  }

  // A master record that is not deleted by itself keeps its key in the table.
  lemma NotRemoved(fs: Folder, old_: Folder, new_: Folder, dels: seq<Entry>, dir: Path, x: File)
    requires Snapshot(fs) && ProperNames(fs) && Within(old_, fs) && DiskReplay.HoldsDifference(dels, old_, new_)
    requires Has(fs, dir, x) && !(Has(old_, dir, x) && !Has(new_, dir, x))
    ensures !Keyed(dels, Key(dir, x))
  {
    if e :| e in dels && Counted(e.file) && KeyOf(e) == Key(dir, x) {
      KeyUnique(fs, dir, x, e.dir, e.file);
    }
  }

  // An added record with the key of a master record that stays is the same record.
  lemma AddedAgain(fs: Folder, old_: Folder, new_: Folder, e: Entry, dir: Path, x: File)
    requires Snapshot(new_) && ProperNames(fs) && ProperNames(new_) && NoCollision(fs, old_, new_)
    requires Has(fs, dir, x) && !(Has(old_, dir, x) && !Has(new_, dir, x))
    requires Has(new_, e.dir, e.file) && !Has(old_, e.dir, e.file) && KeyOf(e) == Key(dir, x)
    ensures e == Entry(dir, x)
  {
    SamePlace(e, Entry(dir, x));
    if Has(old_, dir, x) {
      SnapshotIsUnique(new_);
      DiskReplay.OneRecordPerName(new_, dir, x, e.file);
    }
  }

  // No master file that the base lacks stands in a directory that the update deletes.
  ghost predicate NothingStranded(fs: Folder, old_: Folder, new_: Folder) {
    forall dir, x :: Has(fs, dir, x) && !Has(old_, dir, x) && Counted(x) ==> !GivenUp(old_, new_, dir)
  }

  // r holds what the update makes of the tree fs.
  ghost predicate Updated(r: Folder, fs: Folder, old_: Folder, new_: Folder) {
    forall dir, x :: Has(r, dir, x) <==> Merged(fs, old_, new_, dir, x)
  }

  // The lists that the two loops over the table go down.
  ghost predicate ListsBoth(dels: seq<Entry>, adds: seq<Entry>, old_: Folder, new_: Folder) {
    DiskReplay.HoldsDifference(dels, old_, new_) && DiskReplay.HoldsDifference(adds, new_, old_)
  }

  function UpdatedTable(table: FileTable, dels: seq<Entry>, adds: seq<Entry>, author: int): FileTable {
    AddListed(WithoutListed(table, dels), adds, author)
  }

  // The entry of an added file.
  lemma AddedOwners(table: FileTable, old_: Folder, new_: Folder, dels: seq<Entry>, adds: seq<Entry>,
                    author: int, dir: Path, x: File)
    requires Snapshot(new_) && ProperNames(new_) && DiskReplay.HoldsDifference(adds, new_, old_)
    requires Has(new_, dir, x) && !Has(old_, dir, x) && Counted(x)
    ensures var t := UpdatedTable(table, dels, adds, author);
      Key(dir, x) in t && t[Key(dir, x)] == SoleOwner(ChunkyFile.NumChunks(Length(x)), author)
  {
    var k, mid := Key(dir, x), WithoutListed(table, dels);
    AddListedKeys(mid, adds, author, k);
    assert Entry(dir, x) in adds && KeyOf(Entry(dir, x)) == k;
    assert Keyed(adds, k);
    var e :| AddedAs(adds, k, e, AddListed(mid, adds, author)[k], author);
    KeyUnique(new_, dir, x, e.dir, e.file);
  }

  // The file table after an update, entry by entry.
  lemma UpdatedEntry(fs: Folder, table: FileTable, old_: Folder, new_: Folder, dels: seq<Entry>, adds: seq<Entry>,
                     author: int, dir: Path, x: File)
    requires Snapshot(fs) && ProperNames(fs) && Agrees(fs, table) && Within(old_, fs)
    requires Snapshot(new_) && ProperNames(new_) && NoCollision(fs, old_, new_)
    requires ListsBoth(dels, adds, old_, new_) && Merged(fs, old_, new_, dir, x) && Counted(x)
    ensures var t := UpdatedTable(table, dels, adds, author);
      Key(dir, x) in t && |t[Key(dir, x)]| == ChunkyFile.NumChunks(Length(x))
  {
    var k, mid := Key(dir, x), WithoutListed(table, dels);
    WithoutListedKeys(table, dels, k);
    AddListedKeys(mid, adds, author, k);
    if Has(new_, dir, x) && !Has(old_, dir, x) {
      AddedOwners(table, old_, new_, dels, adds, author, dir, x);
    } else {
      NotRemoved(fs, old_, new_, dels, dir, x);
      if Keyed(adds, k) {
        var e :| AddedAs(adds, k, e, AddListed(mid, adds, author)[k], author);
        AddedAgain(fs, old_, new_, e, dir, x);
      }
    }
  }

  lemma UpdatedKey(fs: Folder, table: FileTable, old_: Folder, new_: Folder, dels: seq<Entry>, adds: seq<Entry>,
                   author: int, k: Bytes) returns (dir: Path, x: File)
    requires Agrees(fs, table) && AllOwned(table) && Snapshot(old_) && Snapshot(new_)
    requires ListsBoth(dels, adds, old_, new_) && NothingStranded(fs, old_, new_)
    requires k in UpdatedTable(table, dels, adds, author)
    ensures Merged(fs, old_, new_, dir, x) && Counted(x) && Key(dir, x) == k
    ensures !Orphaned(UpdatedTable(table, dels, adds, author)[k])
  {
    var mid := WithoutListed(table, dels);
    WithoutListedKeys(table, dels, k);
    AddListedKeys(mid, adds, author, k);
    if Keyed(adds, k) {
      var e :| AddedAs(adds, k, e, AddListed(mid, adds, author)[k], author);
      dir, x := e.dir, e.file;
    } else {
      dir, x :| Names(fs, k, dir, x);
      var b := Entry(dir, x);
      assert KeyOf(b) == k;
      assert b in dels ==> Keyed(dels, k);
      if Has(new_, dir, x) {
        NotGivenUp(old_, new_, dir, x);
      }
    }
  }

  lemma UpdatedAgrees(r: Folder, fs: Folder, table: FileTable, old_: Folder, new_: Folder,
                      dels: seq<Entry>, adds: seq<Entry>, author: int)
    requires Snapshot(fs) && ProperNames(fs) && Agrees(fs, table) && AllOwned(table) && Within(old_, fs)
    requires Snapshot(old_) && Snapshot(new_) && ProperNames(new_)
    requires NoCollision(fs, old_, new_) && NothingStranded(fs, old_, new_)
    requires ListsBoth(dels, adds, old_, new_) && Updated(r, fs, old_, new_)
    ensures var t := UpdatedTable(table, dels, adds, author);
      Agrees(r, t) && AllOwned(t)
  {
    var t := UpdatedTable(table, dels, adds, author);
    forall k | k in t ensures !Orphaned(t[k]) && exists dir, x :: Names(r, k, dir, x) {
      var dir, x := UpdatedKey(fs, table, old_, new_, dels, adds, author, k);
      assert Names(r, k, dir, x);
    }
    forall dir, x | Has(r, dir, x) && Counted(x)
      ensures Key(dir, x) in t && |t[Key(dir, x)]| == ChunkyFile.NumChunks(Length(x))
    {
      UpdatedEntry(fs, table, old_, new_, dels, adds, author, dir, x);
    }
  }

  // A file stranded in the table has no record in the tree any more.
  lemma StrandedDisagrees(r: Folder, fs: Folder, table: FileTable, old_: Folder, new_: Folder,
                          dels: seq<Entry>, adds: seq<Entry>, author: int, dir: Path, x: File)
    requires Snapshot(fs) && ProperNames(fs) && Agrees(fs, table) && Within(old_, fs)
    requires Snapshot(old_) && Snapshot(new_) && ProperNames(new_)
    requires ListsBoth(dels, adds, old_, new_) && Updated(r, fs, old_, new_)
    requires Has(fs, dir, x) && !Has(old_, dir, x) && Counted(x) && GivenUp(old_, new_, dir)
    ensures !Agrees(r, UpdatedTable(table, dels, adds, author))
  {
    var k := Key(dir, x);
    NotRemoved(fs, old_, new_, dels, dir, x);
    WithoutListedKeys(table, dels, k);
    AddListedKeys(WithoutListed(table, dels), adds, author, k);
    assert k in UpdatedTable(table, dels, adds, author);
    forall d, y ensures !Names(r, k, d, y) {
      if Names(r, k, d, y) {
        NotStrandedHere(fs, old_, new_, dir, x, d, y);
      }
    }
  }

  lemma NotStrandedHere(fs: Folder, old_: Folder, new_: Folder, dir: Path, x: File, d: Path, y: File)
    requires Snapshot(fs) && ProperNames(fs) && Snapshot(old_) && Snapshot(new_) && ProperNames(new_)
    requires Has(fs, dir, x) && Merged(fs, old_, new_, d, y) && Key(d, y) == Key(dir, x)
    ensures !GivenUp(old_, new_, dir)
  {
    if Has(new_, d, y) && !Has(old_, d, y) {
      SamePlace(Entry(d, y), Entry(dir, x));
      NotGivenUp(old_, new_, d, y);
    } else {
      KeyUnique(fs, dir, x, d, y);
    }
  }

  // Who owns what after an update from old to new: the author, and nobody else, every chunk of an
  // added file; of the files that stay, everyone who did.
  ghost predicate OwnersAfter(s: State, table: FileTable, old_: Folder, new_: Folder, author: int) {
    && (forall dir, x :: Has(new_, dir, x) && !Has(old_, dir, x) && Counted(x) ==>
          && Key(dir, x) in table && |table[Key(dir, x)]| == ChunkyFile.NumChunks(Length(x))
          && forall c :: 0 <= c < |table[Key(dir, x)]| ==> table[Key(dir, x)][c] == [author])
    && (forall dir, x :: Has(s.fs, dir, x) && Counted(x) && !(Has(new_, dir, x) && !Has(old_, dir, x))
                         && Merged(s.fs, old_, new_, dir, x) ==>
          Key(dir, x) in s.table && Key(dir, x) in table && table[Key(dir, x)] == s.table[Key(dir, x)])
  }

  lemma KeptOwners(fs: Folder, table: FileTable, old_: Folder, new_: Folder, dels: seq<Entry>, adds: seq<Entry>,
                   author: int, dir: Path, x: File)
    requires Snapshot(fs) && ProperNames(fs) && Agrees(fs, table) && Within(old_, fs)
    requires Snapshot(new_) && ProperNames(new_) && NoCollision(fs, old_, new_) && ListsBoth(dels, adds, old_, new_)
    requires Has(fs, dir, x) && Counted(x) && Merged(fs, old_, new_, dir, x) && !(Has(new_, dir, x) && !Has(old_, dir, x))
    ensures var t := UpdatedTable(table, dels, adds, author);
      Key(dir, x) in table && Key(dir, x) in t && t[Key(dir, x)] == table[Key(dir, x)]
  {
    var k, mid := Key(dir, x), WithoutListed(table, dels);
    WithoutListedKeys(table, dels, k);
    AddListedKeys(mid, adds, author, k);
    NotRemoved(fs, old_, new_, dels, dir, x);
    if Keyed(adds, k) {
      var e :| AddedAs(adds, k, e, AddListed(mid, adds, author)[k], author);
      AddedAgain(fs, old_, new_, e, dir, x);
    }
  }

  lemma UpdatedOwners(s: State, old_: Folder, new_: Folder, dels: seq<Entry>, adds: seq<Entry>, author: int)
    requires Inv(s) && Within(old_, s.fs) && Snapshot(new_) && ProperNames(new_)
    requires NoCollision(s.fs, old_, new_) && ListsBoth(dels, adds, old_, new_)
    ensures OwnersAfter(s, UpdatedTable(s.table, dels, adds, author), old_, new_, author)
  {
    var t := UpdatedTable(s.table, dels, adds, author);
    forall dir, x | Has(new_, dir, x) && !Has(old_, dir, x) && Counted(x)
      ensures Key(dir, x) in t && t[Key(dir, x)] == SoleOwner(ChunkyFile.NumChunks(Length(x)), author)
    {
      AddedOwners(s.table, old_, new_, dels, adds, author, dir, x);
    }
    forall dir, x |
      && Has(s.fs, dir, x) && Counted(x) && !(Has(new_, dir, x) && !Has(old_, dir, x))
      && Merged(s.fs, old_, new_, dir, x)
      ensures Key(dir, x) in s.table && Key(dir, x) in t && t[Key(dir, x)] == s.table[Key(dir, x)]
    {
      KeptOwners(s.fs, s.table, old_, new_, dels, adds, author, dir, x);
    }
  }

  // Agreement depends on the entries of the tree only.
  lemma SameAgrees(a: Folder, b: Folder, table: FileTable)
    requires SameEntries(a, b)
    ensures Agrees(a, table) ==> Agrees(b, table)
    ensures ProperNames(a) ==> ProperNames(b)
  {
    if Agrees(a, table) {
      forall k | k in table ensures exists dir, x :: Names(b, k, dir, x) {
        var dir, x :| Names(a, k, dir, x);
        assert Names(b, k, dir, x);
      }
    }
  }

  lemma MergedProper(r: Folder, fs: Folder, old_: Folder, new_: Folder)
    requires ProperNames(fs) && ProperNames(new_) && Updated(r, fs, old_, new_)
    ensures ProperNames(r)
  {
  }

  // An update against a base that is missing entries of the master, as from a client that is still
  // fetching files, always succeeds; the tree then holds the merged entries. It keeps tree and table
  // in agreement exactly if it adds nothing at the path of another entry that the base is missing,
  // and deletes no directory with a file that the base is missing. If it adds nothing there, the
  // author owns what was added, and the owners of what stays are those it had.
  lemma UpdateAheadIff(s: State, old_: Folder, new_: Folder, author: int)
    requires Inv(s) && Snapshot(old_) && Snapshot(new_) && Within(old_, s.fs) && ProperNames(new_)
    ensures var r := Update(s, Diff(old_, new_), author);
      && r.Some? && Updated(r.value.fs, s.fs, old_, new_)
      && (Inv(r.value) <==> NoCollision(s.fs, old_, new_) && NothingStranded(s.fs, old_, new_))
      && (NoCollision(s.fs, old_, new_) ==> OwnersAfter(s, r.value.table, old_, new_, author))
  {
    AheadIsSnapshotIff(s.fs, old_, new_);
    AheadSucceeds(s.fs, old_, new_);
    var dels, adds := FileFirst([], Subtract(old_, new_)), FileFirst([], Subtract(new_, old_));
    DiskReplay.DifferenceListed(true, old_, new_);
    DiskReplay.DifferenceListed(true, new_, old_);
    assert DiskReplay.Lists(true, dels, old_, new_) && DiskReplay.Lists(true, adds, new_, old_);
    var r := Update(s, Diff(old_, new_), author).value;
    MergedProper(r.fs, s.fs, old_, new_);
    if NoCollision(s.fs, old_, new_) {
      UpdatedOwners(s, old_, new_, dels, adds, author);
    }
    if NoCollision(s.fs, old_, new_) && NothingStranded(s.fs, old_, new_) {
      UpdatedAgrees(r.fs, s.fs, s.table, old_, new_, dels, adds, author);
    }
    if Inv(r) {
      forall dir, x | Has(s.fs, dir, x) && !Has(old_, dir, x) && Counted(x) ensures !GivenUp(old_, new_, dir) {
        if GivenUp(old_, new_, dir) {
          StrandedDisagrees(r.fs, s.fs, s.table, old_, new_, dels, adds, author, dir, x);
        }
      }
    }
  }

  // Updates after which tree and table agree, as far as the two trees go.
  ghost predicate UpdateFits(s: State, base: Folder, next: Folder) {
    && Snapshot(base) && Snapshot(next) && ProperNames(next) && Within(base, s.fs)
    && NoCollision(s.fs, base, next) && NothingStranded(s.fs, base, next)
  }

  // An update taken against the current master succeeds, makes the tree equal to the new snapshot,
  // and keeps tree and table in agreement.
  lemma UpdateInv(s: State, old_: Folder, new_: Folder, author: int)
    requires Inv(s) && Snapshot(old_) && Snapshot(new_) && SameEntries(s.fs, old_) && ProperNames(new_)
    ensures var r := Update(s, Diff(old_, new_), author);
      && r.Some? && Inv(r.value) && SameEntries(r.value.fs, new_)
      && OwnersAfter(s, r.value.table, old_, new_, author)
  {
    UpdateAheadIff(s, old_, new_, author);
    PatchInvertsDiff(s.fs, old_, new_);
  }

  // ---------------------------------------------------------------- lost peers

  lemma LosePeerAgrees(fs: Folder, t: FileTable, id: int)
    requires Agrees(fs, t)
    ensures Agrees(fs, LosePeer(t, id)) && LosePeer(t, id).Keys == t.Keys
    ensures forall p, c, x :: p in t && 0 <= c < |t[p]| ==>
              (x in LosePeer(t, id)[p][c] <==> x in t[p][c] && x != id)
  {
  }

  // The paths prune hands to the splitter start with a slash, so it ends on them.
  lemma KeysSplit(fs: Folder, table: FileTable, k: Bytes)
    requires ProperNames(fs) && Agrees(fs, table) && k in table
    ensures NUL !in k && k != [] && k[0] == SLASH && exists n :: Turns(k, n).i == |k|
  {
    var dir, x :| Names(fs, k, dir, x);
    RenderStart(dir + [x.name]);
    RenderNoNul(dir + [x.name]);
    SplitterEndsIff(k);
  }

  ghost predicate DistinctPaths(ps: seq<Bytes>) {
    forall i, j :: 0 <= i < j < |ps| ==> ps[i] != ps[j]
  }

  // One removal of the prune loop.
  lemma PruneOne(fs: Folder, table: FileTable, k: Bytes)
    requires Snapshot(fs) && ProperNames(fs) && Agrees(fs, table) && k in table
    ensures var r := RemoveAt(fs, Components(k));
      && r.Some? && Snapshot(r.value) && ProperNames(r.value) && Agrees(r.value, table - {k})
      && forall d, y :: Has(r.value, d, y) <==> Has(fs, d, y) && !(Counted(y) && Key(d, y) == k)
  {
    var dir, x :| Names(fs, k, dir, x);
    SplitRender(dir + [x.name]);
    RemoveAtExact(fs, dir, x);
    var r := RemoveAt(fs, Components(k)).value;
    forall d, y ensures Has(r, d, y) <==> Has(fs, d, y) && !(Counted(y) && Key(d, y) == k) {
      if Has(fs, d, y) && Key(d, y) == k {
        KeyUnique(fs, dir, x, d, y);
      }
    }
    forall k' | k' in table - {k} ensures exists d, y :: Names(r, k', d, y) {
      var d, y :| Names(fs, k', d, y);
      assert Names(r, k', d, y);
    }
  }

  // s' is s without the listed files.
  ghost predicate Pruned(s: State, paths: seq<Bytes>, s': State) {
    && (forall k :: k in s'.table <==> k in s.table && k !in paths)
    && (forall k :: k in s'.table ==> s'.table[k] == s.table[k])
    && (forall d, y :: Has(s'.fs, d, y) <==> Has(s.fs, d, y) && !(Counted(y) && Key(d, y) in paths))
  }

  // The removals of prune never fail, remove exactly the listed files, and keep the agreement.
  lemma {:induction false} PruneExact(s: State, paths: seq<Bytes>)
    requires Snapshot(s.fs) && ProperNames(s.fs) && Agrees(s.fs, s.table)
    requires DistinctPaths(paths) && forall k :: k in paths ==> k in s.table
    ensures var r := Prune(s, paths);
      && r.Some? && Snapshot(r.value.fs) && ProperNames(r.value.fs) && Agrees(r.value.fs, r.value.table)
      && Pruned(s, paths, r.value)
    decreases |paths|
  {
    if paths == [] {
    } else {
      var next := PruneFirst(s, paths);
      PruneExact(next, paths[1..]);
      PrunedCons(s, paths, next, Prune(next, paths[1..]).value);
    }
  }

  // The first turn of the loop.
  lemma PruneFirst(s: State, paths: seq<Bytes>) returns (next: State)
    requires Snapshot(s.fs) && ProperNames(s.fs) && Agrees(s.fs, s.table) && paths != []
    requires DistinctPaths(paths) && forall k :: k in paths ==> k in s.table
    ensures Prune(s, paths) == Prune(next, paths[1..]) && next.table == s.table - {paths[0]}
    ensures Snapshot(next.fs) && ProperNames(next.fs) && Agrees(next.fs, next.table)
    ensures DistinctPaths(paths[1..]) && forall k :: k in paths[1..] ==> k in next.table
    ensures forall d, y :: Has(next.fs, d, y) <==> Has(s.fs, d, y) && !(Counted(y) && Key(d, y) == paths[0])
  {
    RestListed(paths, s.table);
    PruneOne(s.fs, s.table, paths[0]);
    next := State(RemoveAt(s.fs, Components(paths[0])).value, s.table - {paths[0]});
  }

  lemma RestListed(paths: seq<Bytes>, table: FileTable)
    requires DistinctPaths(paths) && paths != [] && forall k :: k in paths ==> k in table
    ensures paths[0] in table
    ensures DistinctPaths(paths[1..]) && forall k :: k in paths[1..] ==> k in table - {paths[0]}
  {
    assert forall k :: k in paths[1..] ==> k in paths && k != paths[0];
  }

  lemma PrunedCons(s: State, paths: seq<Bytes>, next: State, s': State)
    requires paths != [] && next.table == s.table - {paths[0]} && Pruned(next, paths[1..], s')
    requires forall d, y :: Has(next.fs, d, y) <==> Has(s.fs, d, y) && !(Counted(y) && Key(d, y) == paths[0])
    ensures Pruned(s, paths, s')
  {
    assert forall k :: k in paths <==> k == paths[0] || k in paths[1..];
  }

  // files_to_prune: the orphaned entries, each once, in the order of the table's iterator.
  ghost predicate ToPrune(paths: seq<Bytes>, table: FileTable) {
    DistinctPaths(paths) && forall k :: k in paths <==> k in table && Orphaned(table[k])
  }

  // Losing a peer and pruning: no removal fails, exactly the files with an ownerless chunk go, and
  // every chunk left has an owner.
  lemma LostInv(s: State, id: int, paths: seq<Bytes>)
    requires Inv(s) && ToPrune(paths, LosePeer(s.table, id))
    ensures var r := Prune(State(s.fs, LosePeer(s.table, id)), paths);
      && r.Some? && Inv(r.value)
      && forall d, y :: Has(r.value.fs, d, y)
           <==> Has(s.fs, d, y) && !(Counted(y) && Orphaned(LosePeer(s.table, id)[Key(d, y)]))
  {
    LosePeerAgrees(s.fs, s.table, id);
    PruneExact(State(s.fs, LosePeer(s.table, id)), paths);
  }

  // ---------------------------------------------------------------- chunk acquisition

  // Agreement depends on the keys and chunk counts of the table only.
  lemma SameShape(fs: Folder, t: FileTable, t': FileTable)
    requires Agrees(fs, t) && t'.Keys == t.Keys && forall k :: k in t ==> |t'[k]| == |t[k]|
    ensures Agrees(fs, t')
  {
  }

  lemma SetOwnerEffect(t: FileTable, path: Bytes, peer: int, chunk: int)
    requires SetOwner(t, path, peer, chunk).Owned?
    ensures var t' := SetOwner(t, path, peer, chunk).value;
      && t'.Keys == t.Keys
      && (forall p :: p in t ==> |t'[p]| == |t[p]|)
      && (forall p, c, x :: p in t && 0 <= c < |t[p]| ==>
            (x in t'[p][c] <==> x in t[p][c] || (p == path && c == chunk && x == peer)))
      && (AllOwned(t) ==> AllOwned(t'))
  {
    var t' := SetOwner(t, path, peer, chunk).value;
    if AllOwned(t) {
      forall p, c | p in t' && 0 <= c < |t'[p]| ensures t'[p][c] != [] {
        assert !Orphaned(t[p]);
      }
    }
  }

  lemma SetOwnerInv(s: State, path: Bytes, peer: int, chunk: int)
    requires Inv(s) && SetOwner(s.table, path, peer, chunk).Owned?
    ensures Inv(State(s.fs, SetOwner(s.table, path, peer, chunk).value))
  {
    SetOwnerEffect(s.table, path, peer, chunk);
    SameShape(s.fs, s.table, SetOwner(s.table, path, peer, chunk).value);
  }

  // A chunk-got message goes through exactly when it names a counted file of the tree and a chunk of
  // it. It reads outside the chunk queue on the chunk just beyond and on negative ones, and stops
  // the tracker on any other.
  lemma SetOwnerFailsIff(s: State, path: Bytes, peer: int, chunk: int)
    requires Inv(s)
    ensures var r := SetOwner(s.table, path, peer, chunk);
      && (r.Owned? <==> exists dir, x :: Names(s.fs, path, dir, x) && 0 <= chunk < ChunkyFile.NumChunks(Length(x)))
      && (r.Outside? <==> exists dir, x :: Names(s.fs, path, dir, x)
                                           && (chunk < 0 || chunk == ChunkyFile.NumChunks(Length(x))))
      && (r.Stopped? <==> forall dir, x :: Names(s.fs, path, dir, x) ==> chunk > ChunkyFile.NumChunks(Length(x)))
  {
    forall dir, x | Names(s.fs, path, dir, x)
      ensures path in s.table && |s.table[path]| == ChunkyFile.NumChunks(Length(x))
    {
    }
    if path in s.table {
      var dir, x :| Names(s.fs, path, dir, x);
    }
  }

  // A message that would go through stops the tracker once an update has deleted its file.
  lemma LateChunkGot(s: State, base: Folder, next: Folder, author: int, path: Bytes, peer: int, chunk: int)
    requires Inv(s) && Enabled(s, ClientUpdate(base, next, author)) && SameEntries(s.fs, base)
    requires forall dir, x :: !Names(next, path, dir, x)
    ensures var r := After(s, ClientUpdate(base, next, author));
      r.Some? && SetOwner(r.value.table, path, peer, chunk) == Stopped
  {
    UpdateInv(s, base, next, author);
    var s' := Update(s, Diff(base, next), author).value;
    forall dir, x ensures !Names(s'.fs, path, dir, x) {
      assert !Names(next, path, dir, x);
    }
    SetOwnerFailsIff(s', path, peer, chunk);
  }

  // From the empty tracker one client adds a file of one byte.
  lemma FirstFile(n: Bytes) returns (added: State)
    requires GoodName(n)
    ensures Run(State(EmptyFolder([]), map[]), [ClientUpdate(EmptyFolder([]), OneFile(n, 1), 1)], added)
    ensures Inv(added) && SameEntries(added.fs, OneFile(n, 1))
  {
    var empty, one := EmptyFolder([]), OneFile(n, 1);
    StartInv([]);
    OneFileProper(n, 1);
    UpdateInv(State(empty, map[]), empty, one, 1);
    added := Update(State(empty, map[]), Diff(empty, one), 1).value;
  }

  // Such a message happens: the client deletes the file again, while another client's message about
  // its first chunk is under way.
  lemma LateChunkGotHappens(n: Bytes) returns (added: State, gone: State)
    requires GoodName(n)
    ensures var adds := ClientUpdate(EmptyFolder([]), OneFile(n, 1), 1);
            var deletes := ClientUpdate(OneFile(n, 1), EmptyFolder([]), 1);
      Run(State(EmptyFolder([]), map[]), [adds], added) && Run(added, [deletes], gone)
    ensures SetOwner(added.table, Render([n]), 2, 0).Owned?
    ensures SetOwner(gone.table, Render([n]), 2, 0) == Stopped
  {
    var empty, one := EmptyFolder([]), OneFile(n, 1);
    added := FirstFile(n);
    FirstChunkOwned(added, n);
    OneFileProper(n, 1);
    UpdateInv(added, one, empty, 1);
    gone := Update(added, Diff(one, empty), 1).value;
    LateChunkGot(added, one, empty, 1, Render([n]), 2, 0);
  }

  lemma FirstChunkOwned(s: State, n: Bytes)
    requires Inv(s) && SameEntries(s.fs, OneFile(n, 1))
    ensures SetOwner(s.table, Render([n]), 2, 0).Owned?
  {
    var x := File(n, 1, 1, false);
    assert Has(OneFile(n, 1), [], x) && [] + [n] == [n];
    assert Names(s.fs, Render([n]), [], x);
    SetOwnerFailsIff(s, Render([n]), 2, 0);
  }

  function OneFile(n: Bytes, mtime: int): Folder {
    Folder([], [File(n, 1, mtime, false)], [])
  }

  lemma OneFileProper(n: Bytes, mtime: int)
    requires GoodName(n)
    ensures Snapshot(OneFile(n, mtime)) && ProperNames(OneFile(n, mtime))
    ensures Snapshot(EmptyFolder([])) && ProperNames(EmptyFolder([]))
  {
    forall dir, x | Has(OneFile(n, mtime), dir, x) ensures GoodPath(dir + [x.name]) {
      assert dir == [] && x.name == n;
    }
  }

  // An update that does not fit happens: a client that has not fetched the file yet brings its own
  // file of that name. The tree then holds two records at one path.
  lemma CollidingUpdate(n: Bytes) returns (added: State)
    requires GoodName(n)
    ensures Run(State(EmptyFolder([]), map[]), [ClientUpdate(EmptyFolder([]), OneFile(n, 1), 1)], added)
    ensures var r := Update(added, Diff(EmptyFolder([]), OneFile(n, 2)), 2);
      && r.Some? && !Inv(r.value)
      && Has(r.value.fs, [], File(n, 1, 1, false)) && Has(r.value.fs, [], File(n, 1, 2, false))
  {
    added := FirstFile(n);
    assert Has(OneFile(n, 1), [], File(n, 1, 1, false));
    Collides(added, n);
  }

  lemma Collides(s: State, n: Bytes)
    requires Inv(s) && GoodName(n) && Has(s.fs, [], File(n, 1, 1, false))
    ensures var r := Update(s, Diff(EmptyFolder([]), OneFile(n, 2)), 2);
      && r.Some? && !Inv(r.value)
      && Has(r.value.fs, [], File(n, 1, 1, false)) && Has(r.value.fs, [], File(n, 1, 2, false))
  {
    CollisionAt(s.fs, n);
    OneFileProper(n, 2);
    UpdateAheadIff(s, EmptyFolder([]), OneFile(n, 2), 2);
  }

  lemma CollisionAt(fs: Folder, n: Bytes)
    requires Has(fs, [], File(n, 1, 1, false))
    ensures var empty, other := EmptyFolder([]), OneFile(n, 2);
      && Within(empty, fs) && !NoCollision(fs, empty, other)
      && Merged(fs, empty, other, [], File(n, 1, 1, false)) && Merged(fs, empty, other, [], File(n, 1, 2, false))
  {
    assert Has(OneFile(n, 2), [], File(n, 1, 2, false));
  }

  // ---------------------------------------------------------------- sizes

  // All plain files of the tree have a table entry exactly when no length turns negative as an int.
  lemma TableCompleteIff(s: State)
    requires Inv(s)
    ensures (forall dir, x :: Has(s.fs, dir, x) && !x.isFolder ==> Key(dir, x) in s.table)
       <==> (forall dir, x :: Has(s.fs, dir, x) && !x.isFolder ==> Counted(x))
  {
    if forall dir, x :: Has(s.fs, dir, x) && !x.isFolder ==> Key(dir, x) in s.table {
      forall dir, x | Has(s.fs, dir, x) && !x.isFolder ensures Counted(x) {
        var dir', x' :| Names(s.fs, Key(dir, x), dir', x');
        KeyUnique(s.fs, dir, x, dir', x');
      }
    }
  }

  // Sizes below 2^31 keep their value; a file of 2^31 bytes is taken for a folder.
  lemma SmallFilesCounted(x: File)
    requires !x.isFolder
    ensures x.size < Decimal.INT_LIMIT ==> Length(x) == x.size && Counted(x)
    ensures x.size == Decimal.INT_LIMIT ==> !Counted(x)
  {
  }

  // A plain file's length as an int gives its chunk count exactly below 2^31 bytes; beyond, the
  // length is negative or too small by a multiple of 2^32.
  lemma LengthRightIff(x: File)
    requires !x.isFolder
    ensures Counted(x) && ChunkyFile.NumChunks(Length(x)) == ChunkyFile.NumChunks(x.size)
       <==> x.size < Decimal.INT_LIMIT
  {
    if Counted(x) && x.size >= Decimal.INT_LIMIT {
      ChunkyFile.MoreChunks(Length(x), x.size);
    }
  }

  // The table has every plain file of the tree with its true chunk count exactly when all of them
  // are smaller than 2^31 bytes.
  lemma TableRightIff(s: State)
    requires Inv(s)
    ensures (forall dir, x :: Has(s.fs, dir, x) && !x.isFolder ==>
               Key(dir, x) in s.table && |s.table[Key(dir, x)]| == ChunkyFile.NumChunks(x.size))
       <==> (forall dir, x :: Has(s.fs, dir, x) && !x.isFolder ==> x.size < Decimal.INT_LIMIT)
  {
    forall dir, x | Has(s.fs, dir, x) && !x.isFolder
      ensures Key(dir, x) in s.table && |s.table[Key(dir, x)]| == ChunkyFile.NumChunks(x.size)
         <==> x.size < Decimal.INT_LIMIT
    {
      LengthRightIff(x);
      if Key(dir, x) in s.table {
        var dir', x' :| Names(s.fs, Key(dir, x), dir', x');
        KeyUnique(s.fs, dir, x, dir', x');
      }
    }
  }

  // ---------------------------------------------------------------- whole runs

  datatype Action =
    | ClientUpdate(base: Folder, next: Folder, author: int)
    | ClientGot(path: Bytes, peer: int, chunk: int)
    | LostClient(id: int, prune: seq<Bytes>)

  // Updates are diffs that fit the current master; messages name existing chunks.
  ghost predicate Enabled(s: State, act: Action) {
    match act
    case ClientUpdate(base, next, author) => UpdateFits(s, base, next)
    case ClientGot(path, peer, chunk) => SetOwner(s.table, path, peer, chunk).Owned?
    case LostClient(id, prune) => ToPrune(prune, LosePeer(s.table, id))
  }

  // None when an assert stops the tracker.
  function After(s: State, act: Action): Option<State> {
    match act
    case ClientUpdate(base, next, author) => Update(s, Diff(base, next), author)
    case ClientGot(path, peer, chunk) =>
      (match SetOwner(s.table, path, peer, chunk)
       case Owned(t) => Some(State(s.fs, t))
       case _ => None)
    case LostClient(id, prune) => Prune(State(s.fs, LosePeer(s.table, id)), prune)
  }

  ghost predicate Run(s: State, acts: seq<Action>, s': State)
    decreases |acts|
  {
    if acts == [] then s == s'
    else Enabled(s, acts[0]) && After(s, acts[0]).Some? && Run(After(s, acts[0]).value, acts[1..], s')
  }

  // No assert of the tracker fails in such a step, and the invariant is kept.
  lemma StepInv(s: State, act: Action)
    requires Inv(s) && Enabled(s, act)
    ensures After(s, act).Some? && Inv(After(s, act).value)
  {
    match act
    case ClientUpdate(base, next, author) => UpdateAheadIff(s, base, next, author);
    case ClientGot(path, peer, chunk) => SetOwnerInv(s, path, peer, chunk);
    case LostClient(id, prune) => LostInv(s, id, prune);
  }

  // Tree and table agree, and every chunk has an owner, over every run from the empty tracker.
  lemma {:induction false} RunInv(s: State, acts: seq<Action>, s': State)
    requires Inv(s) && Run(s, acts, s')
    ensures Inv(s')
    decreases |acts|
  {
    if acts == [] {
    } else {
      StepInv(s, acts[0]);
      RunInv(After(s, acts[0]).value, acts[1..], s');
    }
  }

  // ---------------------------------------------------------------- the loops of the source

  class Master {
    var fs: Folder
    var filetable: FileTable

    ghost function Now(): State
      reads this
    {
      State(fs, filetable)
    }

    constructor ()
      ensures Now() == State(EmptyFolder([]), map[]) && Inv(Now())
    {
      fs, filetable := EmptyFolder([]), map[];
    }

    // updateNetwork up to the broadcast; ok is false when an assert of folder_add fails.
    method UpdateNetwork(additions: Folder, deletions: Folder, updatePusher: int) returns (ok: bool)
      modifies this
      ensures ok <==> Update(old(Now()), (additions, deletions), updatePusher).Some?
      ensures ok ==> Now() == Update(old(Now()), (additions, deletions), updatePusher).value
    {
      var patched := Add(Remove(fs, deletions), additions);
      if patched.None? {
        return false;
      }
      fs := patched.value;
      RemoveFilesystem(FileFirst([], deletions));
      AddFilesystem(FileFirst([], additions), updatePusher);
      ok := true;
    }

    method RemoveFilesystem(list: seq<Entry>)
      modifies this`filetable
      ensures filetable == WithoutListed(old(filetable), list)
    {
      for i := 0 to |list|
        invariant filetable == WithoutListed(old(filetable), list[..i])
      {
        WithoutOne(old(filetable), list, i);
        var length := Length(list[i].file);
        if length < 0 {
          continue;
        }
        filetable := filetable - {Render(list[i].Target())};
      }
      assert list[..|list|] == list;
    }

    method AddFilesystem(list: seq<Entry>, peer: int)
      modifies this`filetable
      ensures filetable == AddListed(old(filetable), list, peer)
    {
      for i := 0 to |list|
        invariant filetable == AddListed(old(filetable), list[..i], peer)
      {
        WithOne(old(filetable), list, i, OwnedBy(peer));
        var length := Length(list[i].file);
        if length < 0 {
          continue;
        }
        var numChunks := ChunkyFile.NumChunks(length);
        var chunks: seq<seq<int>> := [];
        for c := 0 to numChunks
          invariant chunks == SoleOwner(c, peer)
        {
          chunks := chunks + [[peer]];
        }
        filetable := filetable[Render(list[i].Target()) := chunks];
      }
      assert list[..|list|] == list;
    }

    // filetable_set_that_peer_has_file_chunk
    method SetThatPeerHasChunk(path: Bytes, peer: int, chunk: int) returns (r: GotResult<FileTable>)
      modifies this`filetable
      ensures r == SetOwner(old(filetable), path, peer, chunk)
      ensures filetable == if r.Owned? then r.value else old(filetable)
    {
      if path !in filetable || |filetable[path]| < chunk {
        return Stopped;
      }
      if chunk < 0 || chunk == |filetable[path]| {
        return Outside;
      }
      var owners := filetable[path][chunk];
      for i := 0 to |owners|
        invariant peer !in owners[..i] && filetable == old(filetable)
      {
        if owners[i] == peer {
          assert filetable[path := filetable[path]] == filetable;
          return Owned(filetable);
        }
      }
      assert owners[..|owners|] == owners;
      filetable := filetable[path := filetable[path][chunk := owners + [peer]]];
      r := Owned(filetable);
    }

    // The lost-client branch: filetable_remove_peer, then prune_filesystem over the entries in the
    // order of the table's iterator. ok is false when a removal reaches FAIL.
    method LoseClient(id: int, order: seq<Bytes>) returns (ok: bool, ghost pruned: seq<Bytes>)
      requires DistinctPaths(order) && forall k :: k in order <==> k in filetable
      modifies this
      ensures ToPrune(pruned, LosePeer(old(filetable), id))
      ensures ok <==> Prune(State(old(fs), LosePeer(old(filetable), id)), pruned).Some?
      ensures ok ==> Now() == Prune(State(old(fs), LosePeer(old(filetable), id)), pruned).value
      ensures Inv(old(Now())) ==> ok && Inv(Now())
    {
      var before := Now();
      filetable := LosePeer(filetable, id);
      var filesToPrune := FilesToPrune(order);
      pruned := filesToPrune;
      if Inv(before) {
        LostInv(before, id, pruned);
      }
      ghost var mid := Now();
      ok := true;
      for i := 0 to |filesToPrune|
        invariant Prune(Now(), filesToPrune[i..]) == Prune(mid, pruned)
      {
        assert filesToPrune[i..][0] == filesToPrune[i] && filesToPrune[i..][1..] == filesToPrune[i + 1..];
        var left := RemoveAt(fs, Components(filesToPrune[i]));
        if left.None? {
          return false, pruned;
        }
        fs := left.value;
        filetable := filetable - {filesToPrune[i]};
      }
    }

    // The scan of prune_filesystem.
    method FilesToPrune(order: seq<Bytes>) returns (files: seq<Bytes>)
      requires DistinctPaths(order) && forall k :: k in order <==> k in filetable
      ensures ToPrune(files, filetable)
    {
      files := [];
      for i := 0 to |order|
        invariant DistinctPaths(files)
        invariant forall k :: k in files <==> k in order[..i] && Orphaned(filetable[k])
      {
        var path := order[i];
        assert order[..i + 1] == order[..i] + [path];
        assert path in order && path !in order[..i];
        var chunks := filetable[path];
        for c := 0 to |chunks|
          invariant forall d :: 0 <= d < c ==> chunks[d] != []
          invariant DistinctPaths(files)
          invariant forall k :: k in files <==> k in order[..i] && Orphaned(filetable[k])
        {
          if |chunks[c]| == 0 {
            assert Orphaned(chunks);
            files := files + [path];
            break;
          }
        }
      }
      assert order[..|order|] == order;
    }
  }
}
