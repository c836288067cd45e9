// The file table and the directory of one client over a whole run: the chunk protocol of Download
// and the directory of WorkingCopy, step by step together.
module ClientRun {
  import opened Basics
  import opened FileTree
  import opened DiffPatch
  import opened Listing
  import opened PathTable
  import opened DiskReplay
  import opened WorkingCopy
  import D = Download
  import Client

  datatype Whole = Whole(sys: D.Sys, copy: Copy)

  // A step of the protocol, or a diff with its author and the shuffles of the new work queues.
  datatype Event =
    | Protocol(act: D.Action)
    | Diffed(next: Folder, author: int, shuffle: (Bytes, nat) -> seq<nat>)

  // The two loops of the recv_diff branch over the table.
  function RemoveAll(s: D.Sys, es: seq<Entry>): D.Sys
    decreases |es|
  {
    if es == [] then s
    else
      var s' := RemoveAll(s, es[..|es| - 1]);
      if Counted(es[|es| - 1].file) then D.AfterRemove(s', KeyOf(es[|es| - 1])) else s'
  }

  function AdditionOf(e: Entry, shuffle: (Bytes, nat) -> seq<nat>): D.Addition {
    D.Addition(KeyOf(e), ChunksOf(e), shuffle(KeyOf(e), ChunksOf(e)))
  }

  function AddAll(s: D.Sys, es: seq<Entry>, author: int, shuffle: (Bytes, nat) -> seq<nat>): D.Sys
    decreases |es|
  {
    if es == [] then s
    else
      var s' := AddAll(s, es[..|es| - 1], author, shuffle);
      if Counted(es[|es| - 1].file) then D.AfterDownload(s', AdditionOf(es[|es| - 1], shuffle), author) else s'
  }

  function TableAfter(s: D.Sys, dels: seq<Entry>, adds: seq<Entry>, author: int, shuffle: (Bytes, nat) -> seq<nat>): D.Sys {
    AddAll(RemoveAll(s, dels), adds, author, shuffle)
  }

  // The pending file at the path k, if there is one.
  ghost function PendingAt(c: Copy, k: Bytes): Option<Entry> {
    if e :| e in c.pending && KeyOf(e) == k then Some(e) else None
  }

  // None when an operation on the disk fails, or a file is written that no diff has announced.
  ghost function After(w: Whole, ev: Event): Option<Whole>
    requires Enabled(w, ev)
  {
    match ev
    case Diffed(next, author, shuffle) =>
      var (additions, deletions) := Diff(w.copy.base, next);
      (match AfterReceived(w.copy, next)
       case None => None
       case Some(c) =>
         Some(Whole(TableAfter(w.sys, FileFirst([], deletions), FileFirst([], additions), author, shuffle), c)))
    case Protocol(act) =>
      var s := D.After(w.sys, act);
      if act.Deliver? && D.Receive(w.sys.table, act.answer).Finished? then
        match PendingAt(w.copy, act.answer.path)
        case None => None
        case Some(e) =>
          match AfterArrived(w.copy, e)
          case None => None
          case Some(c) => Some(Whole(s, c))
      else Some(Whole(s, w.copy))
  }

  // The steps that leave the set of entries alone: jobs, answers, peers, serving. Diffs are taken
  // against their predecessors.
  ghost predicate Enabled(w: Whole, ev: Event) {
    match ev
    case Diffed(next, author, shuffle) => Snapshot(next) && ProperNames(next) && Client.Shuffles(shuffle)
    case Protocol(act) =>
      D.Enabled(w.sys, act) && (act.IssueJob? || act.Deliver? || act.LosePeer? || act.GotChunk? || act.Serve?)
  }

  // ---------------------------------------------------------------- the invariant

  // An entry whose file is to be fetched and not yet written.
  ghost predicate Unfinished(s: D.Sys, k: Bytes) {
    D.KnownPath(s, k) && s.version[k] in s.fetched && (k, s.version[k]) !in s.saved
  }

  // The unfinished entries of the table are the files that the directory waits for.
  ghost predicate Linked(s: D.Sys, c: Copy) {
    && (forall e :: e in c.pending ==> Unfinished(s, KeyOf(e)))
    && (forall k :: Unfinished(s, k) ==> exists e :: e in c.pending && KeyOf(e) == k)
  }

  ghost predicate Inv(w: Whole) {
    D.Inv(w.sys) && WorkingCopy.Inv(w.copy) && ProperNames(w.copy.base) && Linked(w.sys, w.copy)
  }

  // ---------------------------------------------------------------- steps of the protocol

  // The entries, and what is written of them, stay.
  ghost predicate SameFiles(s: D.Sys, s': D.Sys) {
    && s'.table.Keys == s.table.Keys && s'.version == s.version && s'.got.Keys == s.got.Keys
    && s'.saved == s.saved && s'.fetched == s.fetched
  }

  lemma SameLinked(s: D.Sys, s': D.Sys, c: Copy)
    requires SameFiles(s, s') && Linked(s, c)
    ensures Linked(s', c)
  {
    forall k ensures Unfinished(s', k) <==> Unfinished(s, k) {
    }
  }

  lemma StepSameFiles(s: D.Sys, act: D.Action)
    requires D.Enabled(s, act) && (act.IssueJob? || act.Deliver? || act.LosePeer? || act.GotChunk? || act.Serve?)
    requires !(act.Deliver? && D.Receive(s.table, act.answer).Finished?)
    ensures SameFiles(s, D.After(s, act))
  {
  }

  lemma OtherSteps(w: Whole, act: D.Action)
    requires Inv(w) && Enabled(w, Protocol(act))
    requires !(act.Deliver? && D.Receive(w.sys.table, act.answer).Finished?)
    ensures After(w, Protocol(act)) == Some(Whole(D.After(w.sys, act), w.copy))
    ensures Inv(Whole(D.After(w.sys, act), w.copy))
  {
    D.StepInv(w.sys, act);
    StepSameFiles(w.sys, act);
    SameLinked(w.sys, D.After(w.sys, act), w.copy);
  }

  // The last chunk of a file comes for an unfinished entry.
  lemma FinishedWasUnfinished(s: D.Sys, a: D.Answer)
    requires D.Inv(s) && D.Genuine(s, a) && a.path in s.table && D.Receive(s.table, a).Finished?
    ensures Unfinished(s, a.path)
  {
    var p := a.path;
    D.AcceptedIsCurrent(s, a);
    assert D.EntryInv(s, p);
    D.AcceptedEntry(s.table[p], p, s.version[p], s.got[p], s.issued, s.accepted, s.saved, a);
  }

  lemma FinishedFiles(s: D.Sys, a: D.Answer)
    requires D.KnownPath(s, a.path) && D.Receive(s.table, a).Finished?
    ensures D.AfterReceive(s, a).saved == s.saved + [(a.path, s.version[a.path])]
    ensures SameFiles(s, D.AfterReceive(s, a).(saved := s.saved))
  {
  }

  lemma FinishedLinked(s: D.Sys, s': D.Sys, c: Copy, c': Copy, e: Entry)
    requires Linked(s, c) && e in c.pending && Unfinished(s, KeyOf(e)) && c'.pending == c.pending - {e}
    requires SameFiles(s, s'.(saved := s.saved)) && s'.saved == s.saved + [(KeyOf(e), s.version[KeyOf(e)])]
    requires forall b :: b in c.pending && KeyOf(b) == KeyOf(e) ==> b == e
    ensures Linked(s', c')
  {
    forall k ensures Unfinished(s', k) <==> Unfinished(s, k) && k != KeyOf(e) {
    }
    forall k | Unfinished(s', k) ensures exists b :: b in c'.pending && KeyOf(b) == k {
      var b :| b in c.pending && KeyOf(b) == k;
      assert b in c'.pending;
    }
  }

  // The written file is one that the directory waits for.
  lemma FinishedCopy(s: D.Sys, c: Copy, k: Bytes)
    requires Linked(s, c) && Unfinished(s, k) && WorkingCopy.Inv(c) && ProperNames(c.base)
    ensures var e := PendingAt(c, k);
      && e.Some? && e.value in c.pending && KeyOf(e.value) == k
      && AfterArrived(c, e.value).Some?
      && var c' := AfterArrived(c, e.value).value;
         WorkingCopy.Inv(c') && c'.base == c.base && c'.pending == c.pending - {e.value}
  {
    ArrivedInv(c, PendingAt(c, k).value);
  }

  lemma FinishedOutcome(w: Whole, a: D.Answer)
    requires Enabled(w, Protocol(D.Deliver(a))) && D.Receive(w.sys.table, a).Finished?
    requires PendingAt(w.copy, a.path).Some? && AfterArrived(w.copy, PendingAt(w.copy, a.path).value).Some?
    ensures After(w, Protocol(D.Deliver(a)))
         == Some(Whole(D.AfterReceive(w.sys, a), AfterArrived(w.copy, PendingAt(w.copy, a.path).value).value))
  {
  }

  lemma FinishedStep(w: Whole, a: D.Answer) returns (w': Whole)
    requires Inv(w) && Enabled(w, Protocol(D.Deliver(a))) && D.Receive(w.sys.table, a).Finished?
    ensures After(w, Protocol(D.Deliver(a))) == Some(w')
    ensures Inv(w') && w'.copy.base == w.copy.base
  {
    FinishedWasUnfinished(w.sys, a);
    FinishedCopy(w.sys, w.copy, a.path);
    FinishedOutcome(w, a);
    var e := PendingAt(w.copy, a.path).value;
    w' := Whole(D.AfterReceive(w.sys, a), AfterArrived(w.copy, e).value);
    LinkedAfterFinish(w.sys, w.copy, w'.copy, a, e);
    D.ReceiveInv(w.sys, a);
  }

  lemma LinkedAfterFinish(s: D.Sys, c: Copy, c': Copy, a: D.Answer, e: Entry)
    requires Linked(s, c) && WorkingCopy.Inv(c) && ProperNames(c.base) && e in c.pending && KeyOf(e) == a.path
    requires Unfinished(s, a.path) && D.Receive(s.table, a).Finished? && c'.pending == c.pending - {e}
    ensures Linked(D.AfterReceive(s, a), c')
  {
    FinishedFiles(s, a);
    OnlyPending(c, e);
    FinishedLinked(s, D.AfterReceive(s, a), c, c', e);
  }

  lemma OnlyPending(c: Copy, e: Entry)
    requires WorkingCopy.Inv(c) && ProperNames(c.base) && e in c.pending
    ensures forall b :: b in c.pending && KeyOf(b) == KeyOf(e) ==> b == e
  {
    forall b | b in c.pending && KeyOf(b) == KeyOf(e) ensures b == e {
      KeyedOnce(c.base, b, e);
    }
  }

  // ---------------------------------------------------------------- one diff

  // Nothing that concerns the versions of s has changed.
  ghost predicate Older(s: D.Sys, s': D.Sys) {
    && s.nextVersion <= s'.nextVersion
    && (forall v :: v < s.nextVersion ==> (v in s'.fetched <==> v in s.fetched))
    && (forall x :: x in s'.saved && x.1 < s.nextVersion ==> x in s.saved)
    && (forall x :: x in s.saved ==> x in s'.saved)
  }

  lemma {:induction false} RemoveAllInv(s: D.Sys, es: seq<Entry>)
    requires D.Inv(s)
    ensures D.Inv(RemoveAll(s, es))
    ensures RemoveAll(s, es).saved == s.saved && RemoveAll(s, es).fetched == s.fetched
    ensures RemoveAll(s, es).nextVersion == s.nextVersion
    decreases |es|
  {
    if es == [] {
    } else {
      RemoveAllInv(s, es[..|es| - 1]);
      D.RemoveInv(RemoveAll(s, es[..|es| - 1]), KeyOf(es[|es| - 1]));
    }
  }

  lemma {:induction false} RemoveAllMaps(s: D.Sys, es: seq<Entry>)
    ensures RemoveAll(s, es).table == WithoutListed(s.table, es)
    ensures RemoveAll(s, es).version == WithoutListed(s.version, es)
    ensures RemoveAll(s, es).got == WithoutListed(s.got, es)
    decreases |es|
  {
    if es == [] {
    } else {
      RemoveAllMaps(s, es[..|es| - 1]);
    }
  }

  // What the removals leave of one entry.
  lemma RemovedKey(s: D.Sys, es: seq<Entry>, k: Bytes)
    ensures var s' := RemoveAll(s, es);
      && (D.KnownPath(s', k) <==> D.KnownPath(s, k) && !Keyed(es, k))
      && (D.KnownPath(s', k) ==> s'.version[k] == s.version[k])
  {
    RemoveAllMaps(s, es);
    WithoutListedKeys(s.table, es, k);
    WithoutListedKeys(s.version, es, k);
    WithoutListedKeys(s.got, es, k);
  }

  lemma {:induction false} AddAllInv(s: D.Sys, es: seq<Entry>, author: int, shuffle: (Bytes, nat) -> seq<nat>)
    requires D.Inv(s) && Client.Shuffles(shuffle)
    ensures D.Inv(AddAll(s, es, author, shuffle))
    decreases |es|
  {
    if es == [] {
    } else {
      var s' := AddAll(s, es[..|es| - 1], author, shuffle);
      AddAllInv(s, es[..|es| - 1], author, shuffle);
      D.DownloadInv(s', AdditionOf(es[|es| - 1], shuffle), author);
    }
  }

  lemma {:induction false} AddAllOlder(s: D.Sys, es: seq<Entry>, author: int, shuffle: (Bytes, nat) -> seq<nat>)
    ensures Older(s, AddAll(s, es, author, shuffle))
    decreases |es|
  {
    if es == [] {
    } else {
      AddAllOlder(s, es[..|es| - 1], author, shuffle);
    }
  }

  // The listed record e made the entry of k: it is to be fetched, and written already exactly if it
  // has no chunks.
  ghost predicate NewEntry(s: D.Sys, k: Bytes, e: Entry) {
    && Counted(e.file) && KeyOf(e) == k && D.KnownPath(s, k) && s.version[k] in s.fetched
    && ((k, s.version[k]) in s.saved <==> ChunksOf(e) == 0)
  }

  lemma {:induction false} AddedKey(s: D.Sys, es: seq<Entry>, author: int, shuffle: (Bytes, nat) -> seq<nat>, k: Bytes)
    requires D.Inv(s) && Client.Shuffles(shuffle)
    ensures var s' := AddAll(s, es, author, shuffle);
      && (!Keyed(es, k) ==> (D.KnownPath(s', k) <==> D.KnownPath(s, k)))
      && (!Keyed(es, k) && D.KnownPath(s, k) ==> s'.version[k] == s.version[k])
      && (Keyed(es, k) ==> exists e :: e in es && NewEntry(s', k, e))
    decreases |es|
  {
    if es == [] {
    } else {
      var front, e := es[..|es| - 1], es[|es| - 1];
      var m := AddAll(s, front, author, shuffle);
      AddedKey(s, front, author, shuffle, k);
      AddAllInv(s, front, author, shuffle);
      assert forall x :: x in es <==> x == e || x in front;
      if Counted(e.file) && KeyOf(e) == k {
        LastAdded(m, e, author, shuffle);
      } else {
        if Counted(e.file) {
          OthersKept(m, AdditionOf(e, shuffle), author, k);
        }
        if Keyed(es, k) {
          var x :| x in front && NewEntry(m, k, x);
          assert NewEntry(AddAll(s, es, author, shuffle), k, x);
        }
      }
    }
  }

  lemma LastAdded(m: D.Sys, e: Entry, author: int, shuffle: (Bytes, nat) -> seq<nat>)
    requires D.History(m) && Counted(e.file)
    ensures NewEntry(D.AfterDownload(m, AdditionOf(e, shuffle), author), KeyOf(e), e)
  {
    D.DownloadHistory(m, AdditionOf(e, shuffle), author);
  }

  // Whatever one addition does to the entry of another path.
  ghost predicate SameEntry(m: D.Sys, s': D.Sys, k: Bytes) {
    && (D.KnownPath(s', k) <==> D.KnownPath(m, k))
    && (D.KnownPath(m, k) ==>
          && s'.version[k] == m.version[k]
          && ((k, m.version[k]) in s'.saved <==> (k, m.version[k]) in m.saved)
          && (m.version[k] in m.fetched ==> m.version[k] in s'.fetched))
  }

  lemma OthersKept(m: D.Sys, x: D.Addition, author: int, k: Bytes)
    requires x.path != k
    ensures SameEntry(m, D.AfterDownload(m, x, author), k)
  {
  }

  // A file that stays, and an entry that is not listed, keep their state.
  lemma KeptUnfinished(s: D.Sys, dels: seq<Entry>, adds: seq<Entry>, author: int, shuffle: (Bytes, nat) -> seq<nat>, k: Bytes)
    requires D.Inv(s) && Client.Shuffles(shuffle) && !Keyed(adds, k)
    ensures Unfinished(TableAfter(s, dels, adds, author, shuffle), k) <==> Unfinished(s, k) && !Keyed(dels, k)
  {
    var m := RemoveAll(s, dels);
    RemovedKey(s, dels, k);
    RemoveAllInv(s, dels);
    AddedKey(m, adds, author, shuffle, k);
    AddAllOlder(m, adds, author, shuffle);
    if D.KnownPath(s, k) {
      assert D.EntryInv(s, k);
    }
  }

  lemma NewUnfinished(s: D.Sys, dels: seq<Entry>, adds: seq<Entry>, author: int, shuffle: (Bytes, nat) -> seq<nat>, k: Bytes)
    returns (e: Entry)
    requires D.Inv(s) && Client.Shuffles(shuffle) && Keyed(adds, k)
    ensures e in adds && KeyOf(e) == k
    ensures Unfinished(TableAfter(s, dels, adds, author, shuffle), k) <==> ToFetch(e)
  {
    var m := RemoveAll(s, dels);
    RemoveAllInv(s, dels);
    AddedKey(m, adds, author, shuffle, k);
    e :| e in adds && NewEntry(AddAll(m, adds, author, shuffle), k, e);
  }

  // A file of the old tree has the key of a deleted entry only if it is deleted itself.
  lemma KeyedIff(es: seq<Entry>, a: Folder, b: Folder, e: Entry)
    requires Snapshot(a) && ProperNames(a) && HoldsDifference(es, a, b)
    requires Has(a, e.dir, e.file) && Counted(e.file)
    ensures Keyed(es, KeyOf(e)) <==> !Has(b, e.dir, e.file)
  {
    if x :| x in es && Counted(x.file) && KeyOf(x) == KeyOf(e) {
      KeyedOnce(a, x, e);
    }
  }

  // The pending files after the diff are unfinished.
  lemma PendingIsUnfinished(w: Whole, next: Folder, dels: seq<Entry>, adds: seq<Entry>,
                            author: int, shuffle: (Bytes, nat) -> seq<nat>, e: Entry)
    requires Inv(w) && Snapshot(next) && ProperNames(next) && Client.Shuffles(shuffle)
    requires HoldsDifference(dels, w.copy.base, next) && HoldsDifference(adds, next, w.copy.base)
    requires Has(next, e.dir, e.file) && ToFetch(e) && (e in w.copy.pending || !Has(w.copy.base, e.dir, e.file))
    ensures Unfinished(TableAfter(w.sys, dels, adds, author, shuffle), KeyOf(e))
  {
    KeyedIff(adds, next, w.copy.base, e);
    if Has(w.copy.base, e.dir, e.file) {
      KeyedIff(dels, w.copy.base, next, e);
      KeptUnfinished(w.sys, dels, adds, author, shuffle, KeyOf(e));
    } else {
      var x := NewUnfinished(w.sys, dels, adds, author, shuffle, KeyOf(e));
      KeyedOnce(next, x, e);
    }
  }

  // And every unfinished entry is pending.
  lemma UnfinishedIsPending(w: Whole, next: Folder, dels: seq<Entry>, adds: seq<Entry>,
                            author: int, shuffle: (Bytes, nat) -> seq<nat>, k: Bytes) returns (e: Entry)
    requires Inv(w) && Snapshot(next) && ProperNames(next) && Client.Shuffles(shuffle)
    requires HoldsDifference(dels, w.copy.base, next) && HoldsDifference(adds, next, w.copy.base)
    requires Unfinished(TableAfter(w.sys, dels, adds, author, shuffle), k)
    ensures KeyOf(e) == k && Has(next, e.dir, e.file) && ToFetch(e)
    ensures e in w.copy.pending || !Has(w.copy.base, e.dir, e.file)
  {
    if Keyed(adds, k) {
      e := NewUnfinished(w.sys, dels, adds, author, shuffle, k);
    } else {
      KeptUnfinished(w.sys, dels, adds, author, shuffle, k);
      e :| e in w.copy.pending && KeyOf(e) == k;
      KeyedIff(dels, w.copy.base, next, e);
    }
  }

  // The files that the directory waits for after a diff.
  ghost predicate WaitsFor(c: Copy, next: Folder, c': Copy) {
    forall e :: e in c'.pending <==>
      Has(next, e.dir, e.file) && ToFetch(e) && (e in c.pending || !Has(c.base, e.dir, e.file))
  }

  lemma DiffedLinked(w: Whole, next: Folder, dels: seq<Entry>, adds: seq<Entry>,
                     author: int, shuffle: (Bytes, nat) -> seq<nat>, c': Copy)
    requires Inv(w) && Snapshot(next) && ProperNames(next) && Client.Shuffles(shuffle)
    requires HoldsDifference(dels, w.copy.base, next) && HoldsDifference(adds, next, w.copy.base)
    requires WaitsFor(w.copy, next, c')
    ensures Linked(TableAfter(w.sys, dels, adds, author, shuffle), c')
  {
    var s' := TableAfter(w.sys, dels, adds, author, shuffle);
    forall e | e in c'.pending ensures Unfinished(s', KeyOf(e)) {
      PendingIsUnfinished(w, next, dels, adds, author, shuffle, e);
    }
    forall k | Unfinished(s', k) ensures exists e :: e in c'.pending && KeyOf(e) == k {
      var e := UnfinishedIsPending(w, next, dels, adds, author, shuffle, k);
      assert e in c'.pending;
    }
  }

  lemma ReceivedWaits(c: Copy, next: Folder)
    requires WorkingCopy.Inv(c) && Snapshot(next) && AfterReceived(c, next).Some?
    ensures WaitsFor(c, next, AfterReceived(c, next).value)
  {
    AtOnceLists(c.base, next);
  }

  lemma DiffLinked(w: Whole, next: Folder, author: int, shuffle: (Bytes, nat) -> seq<nat>, c': Copy)
    requires Inv(w) && Enabled(w, Diffed(next, author, shuffle)) && AfterReceived(w.copy, next) == Some(c')
    ensures var (additions, deletions) := Diff(w.copy.base, next);
      Linked(TableAfter(w.sys, FileFirst([], deletions), FileFirst([], additions), author, shuffle), c')
  {
    var dels, adds := FileFirst([], Diff(w.copy.base, next).1), FileFirst([], Diff(w.copy.base, next).0);
    DifferenceListed(true, w.copy.base, next);
    DifferenceListed(true, next, w.copy.base);
    ReceivedWaits(w.copy, next);
    DiffedLinked(w, next, dels, adds, author, shuffle, c');
  }

  lemma DiffedStep(w: Whole, next: Folder, author: int, shuffle: (Bytes, nat) -> seq<nat>) returns (w': Whole)
    requires Inv(w) && Enabled(w, Diffed(next, author, shuffle))
    ensures After(w, Diffed(next, author, shuffle)) == Some(w')
    ensures Inv(w') && w'.copy.base == next
  {
    ReceivedInv(w.copy, next);
    var c' := AfterReceived(w.copy, next).value;
    var dels, adds := FileFirst([], Diff(w.copy.base, next).1), FileFirst([], Diff(w.copy.base, next).0);
    w' := Whole(TableAfter(w.sys, dels, adds, author, shuffle), c');
    DiffLinked(w, next, author, shuffle, c');
    TableAfterInv(w.sys, dels, adds, author, shuffle);
  }

  lemma TableAfterInv(s: D.Sys, dels: seq<Entry>, adds: seq<Entry>, author: int, shuffle: (Bytes, nat) -> seq<nat>)
    requires D.Inv(s) && Client.Shuffles(shuffle)
    ensures D.Inv(TableAfter(s, dels, adds, author, shuffle))
  {
    RemoveAllInv(s, dels);
    AddAllInv(RemoveAll(s, dels), adds, author, shuffle);
  }

  // ---------------------------------------------------------------- whole runs

  lemma StepInv(w: Whole, ev: Event) returns (w': Whole)
    requires Inv(w) && Enabled(w, ev)
    ensures After(w, ev) == Some(w') && Inv(w')
    ensures w'.copy.base == if ev.Diffed? then ev.next else w.copy.base
  {
    match ev
    case Diffed(next, author, shuffle) =>
      w' := DiffedStep(w, next, author, shuffle);
    case Protocol(act) =>
      if act.Deliver? && D.Receive(w.sys.table, act.answer).Finished? {
        w' := FinishedStep(w, act.answer);
      } else {
        OtherSteps(w, act);
        w' := Whole(D.After(w.sys, act), w.copy);
      }
  }

  ghost predicate EnabledRun(w: Whole, evs: seq<Event>)
    decreases |evs|
  {
    evs != [] ==> Enabled(w, evs[0]) && (After(w, evs[0]).Some? ==> EnabledRun(After(w, evs[0]).value, evs[1..]))
  }

  ghost function Run(w: Whole, evs: seq<Event>): Option<Whole>
    requires EnabledRun(w, evs)
    decreases |evs|
  {
    if evs == [] then Some(w)
    else
      match After(w, evs[0])
      case None => None
      case Some(w') => Run(w', evs[1..])
  }

  // The snapshot of the last diff among the events.
  function LastTree(base: Folder, evs: seq<Event>): Folder
    decreases |evs|
  {
    if evs == [] then base else LastTree(if evs[0].Diffed? then evs[0].next else base, evs[1..])
  }

  lemma {:induction false} RunInv(w: Whole, evs: seq<Event>)
    requires Inv(w) && EnabledRun(w, evs)
    ensures var r := Run(w, evs); r.Some? && Inv(r.value) && r.value.copy.base == LastTree(w.copy.base, evs)
    decreases |evs|
  {
    if evs == [] {
    } else {
      var w' := StepInv(w, evs[0]);
      RunInv(w', evs[1..]);
    }
  }

  // A client that has the files of its table, in a directory that is equal to the snapshot.
  ghost predicate Start(w: Whole) {
    && D.Init(w.sys) && Snapshot(w.copy.base) && ProperNames(w.copy.base) && OnDisk(w.copy.disk, w.copy.base)
    && w.copy.pending == {} && w.copy.fetched == {}
  }

  lemma StartLinked(w: Whole)
    requires Start(w)
    ensures Inv(w)
  {
    D.InitInv(w.sys);
    StartInv(w.copy.disk, w.copy.base);
  }

  // Over every run, in which diffs come in between and answers are lost, late or repeated: no
  // operation on the disk fails, and each completed file is one the directory waits for. Once all
  // entries that are to be fetched are written, the directory equals the last snapshot exactly if
  // every file that came by a diff has less than 2^31 bytes.
  lemma WrittenMeansEqual(w: Whole, evs: seq<Event>)
    requires Start(w) && EnabledRun(w, evs)
    ensures var r := Run(w, evs);
      && r.Some?
      && (r.value.copy.pending == {} <==> forall k :: !Unfinished(r.value.sys, k))
      && ((forall k :: !Unfinished(r.value.sys, k)) ==>
            (OnDisk(r.value.copy.disk, LastTree(w.copy.base, evs)) <==> forall e :: e in r.value.copy.fetched ==> MadeRight(e)))
  {
    StartLinked(w);
    RunInv(w, evs);
    var r := Run(w, evs).value;
    if forall k :: !Unfinished(r.sys, k) {
      assert r.copy.pending == {};
      SettledOnDisk(r.copy);
    }
  }
}
