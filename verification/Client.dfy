// The download part of the client's main loop, over the file table it keeps.
module Client {
  import opened Basics
  import opened FileTree
  import opened Download
  import opened Owners
  import opened PathTable
  import ChunkyFile
  import DiffPatch
  import DiskReplay
  import Listing
  import Paths

  lemma {:induction false} RunSnoc(s: Sys, acts: seq<Action>, m: Sys, act: Action)
    requires QuietRun(s, acts, m) && Enabled(m, act) && QuietStep(m, act)
    ensures QuietRun(s, acts + [act], After(m, act))
    decreases |acts|
  {
    if acts == [] {
      assert acts + [act] == [act];
    } else {
      assert (acts + [act])[1..] == acts[1..] + [act];
      RunSnoc(After(s, acts[0]), acts[1..], m, act);
    }
  }

  // A request handed to the network thread.
  datatype Sent = Sent(path: Bytes, peer: int, chunk: nat, job: nat)

  // The job asks one of its owners for the first queued chunk, which leaves the queue, and is
  // outstanding from now on.
  predicate FirstTaken(e: Entry, job: Job, e': Entry) {
    && e.work == [job.chunk] + e'.work && e'.outstanding == e.outstanding + [job.id]
    && job.chunk < |e.owners| && job.peer in e.owners[job.chunk]
    && e'.owners == e.owners && e'.file == e.file
  }

  lemma IssueTakesFirst(e: Entry, id: nat, draw: nat)
    ensures var r := GetJob(e, MAX_PENDING_REQUESTS, id, draw);
      && (r.Issued? ==> FirstTaken(e, r.job, r.entry) && r.job.id == id)
      && (r.NoJob? <==> |e.outstanding| >= 15 || e.work == [])
  {
    if e.work != [] {
      assert e.work == [e.work[0]] + e.work[1..];
    }
  }

  // No more jobs can be taken from this entry for now.
  predicate Exhausted(e: Entry) {
    |e.outstanding| >= MAX_PENDING_REQUESTS || e.work == []
  }

  lemma KeysAgree(start: Sys, acts: seq<Action>, s: Sys)
    requires Init(start) && QuietRun(start, acts, s)
    ensures s.version.Keys == s.table.Keys && s.got.Keys == s.table.Keys
  {
    QuietRunInv(start, acts, s);
  }

  // What the receive_chunk branch may rely on for an answer to a request of this client.
  lemma AnswerFacts(start: Sys, acts: seq<Action>, s: Sys, a: Answer)
    requires Init(start) && QuietRun(start, acts, s) && Genuine(s, a) && a.path in s.table
    ensures Enabled(s, Deliver(a))
    ensures a.job in s.table[a.path].outstanding ==> CanTake(s.table[a.path], a)
  {
    QuietRunInv(start, acts, s);
    AnswerFits(s, a);
  }

  lemma AnswerFits(s: Sys, a: Answer)
    requires Inv(s) && Genuine(s, a) && a.path in s.table
    ensures KnownPath(s, a.path)
    ensures a.job in s.table[a.path].outstanding ==> CanTake(s.table[a.path], a)
  {
    if a.job in s.table[a.path].outstanding {
      OutstandingIsTaken(s.table, a);
      AcceptedIsCurrent(s, a);
    }
  }

  lemma OutstandingIsTaken(t: Table, a: Answer)
    requires a.path in t && a.job in t[a.path].outstanding
    ensures Receive(t, a) != Ignored
  {
  }

  // The file is open for writing and has such a chunk.
  predicate CanTake(e: Entry, a: Answer) {
    e.file.Some? && e.file.value.forWriting && a.chunk < |e.file.value.written|
  }

  // The entry after an answer was taken; its job is off the list already.
  function Taken(e: Entry, a: Answer): Entry
    requires CanTake(e, a)
  {
    if !a.hasData then e.(work := e.work + [a.chunk])
    else
      var file := e.file.value;
      var file' := file.(written := file.written[a.chunk := true]);
      e.(file := if AllWritten(file') then None else Some(file'))
  }

  // The job leaves the outstanding ones. A rejected chunk goes to the end of the work queue; an
  // accepted one is marked, and the file is closed when all others were.
  ghost predicate AnswerTaken(e: Entry, a: Answer, e': Entry) {
    && e'.owners == e.owners
    && (exists i :: 0 <= i < |e.outstanding| && e.outstanding[i] == a.job && a.job !in e.outstanding[..i]
                    && e'.outstanding == e.outstanding[..i] + e.outstanding[i + 1..])
    && e.file.Some? && a.chunk < |e.file.value.written|
    && (if !a.hasData then e'.work == e.work + [a.chunk] && e'.file == e.file
        else
          && e'.work == e.work
          && (if forall c :: 0 <= c < |e.file.value.written| && c != a.chunk ==> e.file.value.written[c] then e'.file == None
              else e'.file == Some(Buffer(true, e.file.value.written[a.chunk := true]))))
  }

  ghost predicate TookAnswer(t: Table, a: Answer, t': Table) {
    a.path in t && a.path in t' && AnswerTaken(t[a.path], a, t'[a.path]) && t' == t[a.path := t'[a.path]]
  }

  lemma {:induction false} DropIdAt(ids: seq<nat>, id: nat) returns (i: nat)
    requires id in ids
    ensures i < |ids| && ids[i] == id && id !in ids[..i] && DropId(ids, id) == ids[..i] + ids[i + 1..]
    decreases |ids|
  {
    if ids[0] == id {
      i := 0;
      assert ids[..0] == [] && [] + ids[1..] == ids[1..];
    } else {
      var j := DropIdAt(ids[1..], id);
      i := j + 1;
      Shifted(ids, j);
    }
  }

  lemma Shifted(s: seq<nat>, j: nat)
    requires j + 1 < |s|
    ensures s[..j + 1] == [s[0]] + s[1..][..j]
    ensures [s[0]] + (s[1..][..j] + s[1..][j + 1..]) == s[..j + 1] + s[j + 2..]
  {
    assert s[1..][j + 1..] == s[j + 2..];
  }

  lemma TakenIsAnswer(e: Entry, a: Answer)
    requires CanTake(e, a) && a.job in e.outstanding
    ensures AnswerTaken(e, a, Taken(e.(outstanding := DropId(e.outstanding, a.job)), a))
  {
    var i := DropIdAt(e.outstanding, a.job);
    if a.hasData {
      var file := e.file.value;
      assert file.(written := file.written[a.chunk := true]) == Buffer(true, file.written[a.chunk := true]);
      OthersWritten(file.written, a.chunk);
    }
  }

  lemma OthersWritten(flags: seq<bool>, chunk: nat)
    requires chunk < |flags|
    ensures AllWritten(Buffer(true, flags[chunk := true])) <==>
            forall c :: 0 <= c < |flags| && c != chunk ==> flags[c]
  {
    assert forall c :: 0 <= c < |flags| && c != chunk ==> flags[chunk := true][c] == flags[c];
  }

  lemma TakenIsReceived(s: Sys, a: Answer)
    requires KnownPath(s, a.path) && a.job in s.table[a.path].outstanding && CanTake(s.table[a.path], a)
    ensures var e := s.table[a.path].(outstanding := DropId(s.table[a.path].outstanding, a.job));
            var r := Receive(s.table, a);
      && AfterReceive(s, a).table == s.table[a.path := Taken(e, a)]
      && AfterReceive(s, a).nextId == s.nextId
      && (a.hasData <==> r.Stored? || r.Finished?)
      && (r.Finished? <==> a.hasData && Taken(e, a).file.None?)
  {
  }

  lemma IgnoredChangesNothing(s: Sys, a: Answer)
    requires KnownPath(s, a.path) && Genuine(s, a) && a.job !in s.table[a.path].outstanding && a.job > 0
    ensures Receive(s.table, a) == Ignored && AfterReceive(s, a) == s
  {
  }

  lemma GenuineIsPositive(start: Sys, acts: seq<Action>, s: Sys, a: Answer)
    requires Init(start) && QuietRun(start, acts, s) && Genuine(s, a)
    ensures a.job > 0
  {
    QuietRunInv(start, acts, s);
  }

  // Jobs were issued and nothing else happened.
  ghost predicate Onward(s: Sys, s': Sys) {
    && s'.version == s.version && s'.table.Keys == s.table.Keys && s.nextId <= s'.nextId
    && (forall id :: id in s.issued && id < s.nextId ==> id in s'.issued && s'.issued[id] == s.issued[id])
    && (forall p :: p in s.table ==>
          s'.table[p].owners == s.table[p].owners && s.table[p].outstanding <= s'.table[p].outstanding)
  }

  lemma OnwardTwice(s: Sys, m: Sys, s': Sys)
    requires Onward(s, m) && Onward(m, s')
    ensures Onward(s, s')
  {
  }

  lemma IssueOnward(s: Sys, p: Bytes, draw: nat)
    requires p in s.table && p in s.version
    requires GetJob(s.table[p], MAX_PENDING_REQUESTS, s.nextId, draw).Issued?
    ensures Onward(s, AfterIssue(s, p, draw))
  {
  }

  // The request m is on record: for the chunk's entry in its present version, waiting, and to a
  // peer that is listed as an owner of the chunk.
  ghost predicate Asked(s: Sys, m: Sent) {
    && m.path in s.table && m.path in s.version
    && m.job < s.nextId && m.job in s.issued
    && s.issued[m.job] == Request(m.path, s.version[m.path], m.chunk)
    && m.job in s.table[m.path].outstanding
    && m.chunk < |s.table[m.path].owners| && m.peer in s.table[m.path].owners[m.chunk]
  }

  lemma StillAsked(s: Sys, s': Sys, m: Sent)
    requires Asked(s, m) && Onward(s, s')
    ensures Asked(s', m)
  {
    assert s'.table[m.path].owners == s.table[m.path].owners;
    var ids := s.table[m.path].outstanding;
    var i :| 0 <= i < |ids| && ids[i] == m.job;
    assert s'.table[m.path].outstanding[i] == m.job;
  }

  // The requests sent between s and s': each new job id once, in order, each on record.
  ghost predicate AllAsked(s: Sys, sent: seq<Sent>, s': Sys) {
    && Onward(s, s') && s'.nextId == s.nextId + |sent|
    && forall i :: 0 <= i < |sent| ==> sent[i].job == s.nextId + i && Asked(s', sent[i])
  }

  lemma MoreAsked(s: Sys, sent: seq<Sent>, m: Sys, more: seq<Sent>, s': Sys)
    requires AllAsked(s, sent, m) && AllAsked(m, more, s')
    ensures AllAsked(s, sent + more, s')
  {
    OnwardTwice(s, m, s');
    forall i | 0 <= i < |sent| ensures Asked(s', sent[i]) {
      StillAsked(m, s', sent[i]);
    }
  }

  lemma NewlyAsked(s: Sys, p: Bytes, draw: nat)
    requires p in s.table && p in s.version
    requires GetJob(s.table[p], MAX_PENDING_REQUESTS, s.nextId, draw).Issued?
    ensures var job := GetJob(s.table[p], MAX_PENDING_REQUESTS, s.nextId, draw).job;
      job.id == s.nextId && Asked(AfterIssue(s, p, draw), Sent(p, job.peer, job.chunk, job.id))
  {
  }

  lemma OneAsked(s: Sys, p: Bytes, draw: nat)
    requires p in s.table && p in s.version
    requires GetJob(s.table[p], MAX_PENDING_REQUESTS, s.nextId, draw).Issued?
    ensures var job := GetJob(s.table[p], MAX_PENDING_REQUESTS, s.nextId, draw).job;
      AllAsked(s, [Sent(p, job.peer, job.chunk, job.id)], AfterIssue(s, p, draw))
  {
    IssueOnward(s, p, draw);
    NewlyAsked(s, p, draw);
  }

  class ChunkClient {
    var ft: Table
    var jobId: nat
    // The protocol run this client has performed: where it started, its steps, where it is.
    ghost var start: Sys
    ghost var trace: seq<Action>
    ghost var sys: Sys

    ghost predicate Valid()
      reads this
    {
      Init(start) && QuietRun(start, trace, sys) && sys.table == ft && sys.nextId == jobId
    }

    ghost method Record(act: Action)
      requires QuietRun(start, trace, sys) && Enabled(sys, act) && QuietStep(sys, act)
      modifies this`sys, this`trace
      ensures QuietRun(start, trace, sys)
      ensures sys == After(old(sys), act) && trace == old(trace) + [act]
    {
      RunSnoc(start, trace, sys, act);
      sys, trace := After(sys, act), trace + [act];
    }

    // A client that has all files of its table.
    constructor (table: Table)
      requires forall p :: p in table ==>
                 table[p].work == [] && table[p].outstanding == [] && table[p].file.None?
      ensures Valid() && ft == table && trace == []
    {
      ft, jobId, trace := table, 1, [];
      var s := Sys(table, 1, map p | p in table :: 0, 1, map p | p in table :: AllChunks(|table[p].owners|), map[], [], [], {});
      start, sys := s, s;
    }

    // filetableentry_get_job for the entry of path p. `aborted` is its assert on a chunk nobody
    // owns, or the end of the job ids.
    method GetJobFor(p: Bytes, draw: nat) returns (job: Option<Job>, aborted: bool)
      requires Valid() && p in ft
      modifies this
      ensures Valid() && start == old(start) && old(trace) <= trace
      ensures var r := GetJob(old(ft)[p], MAX_PENDING_REQUESTS, old(jobId), draw);
        && (aborted <==> r.NoOwner? || (r.Issued? && old(jobId) >= 0x7FFF_FFFF))
        && (job.None? <==> aborted || r.NoJob?)
        && (job.None? ==> sys == old(sys))
        && (job.Some? ==> job.value == r.job && p in old(sys).version && sys == AfterIssue(old(sys), p, draw))
      ensures job.Some? ==> FirstTaken(old(ft)[p], job.value, ft[p]) && job.value.id == old(jobId)
      ensures ft == if job.Some? then old(ft)[p := ft[p]] else old(ft)
      ensures job.None? && !aborted <==> |old(ft)[p].outstanding| >= 15 || old(ft)[p].work == []
    {
      var e := ft[p];
      IssueTakesFirst(e, jobId, draw);
      if |e.outstanding| < MAX_PENDING_REQUESTS && |e.work| > 0 {
        var chunk := e.work[0];
        if chunk >= |e.owners| || |e.owners[chunk]| == 0 || jobId >= 0x7FFF_FFFF {
          return None, true;
        }
        var owners := e.owners[chunk];
        var peer := owners[draw % |owners|];
        KeysAgree(start, trace, sys);
        ft := ft[p := e.(work := e.work[1..], outstanding := e.outstanding + [jobId])];
        job, aborted := Some(Job(chunk, peer, jobId)), false;
        jobId := jobId + 1;
        Record(IssueJob(p, draw));
      } else {
        job, aborted := None, false;
      }
    }

    // One request: a job, and the message handed to the network thread.
    method SendJob(p: Bytes, draw: nat) returns (m: Option<Sent>, aborted: bool)
      requires Valid() && p in ft
      modifies this
      ensures Valid() && start == old(start) && old(trace) <= trace && ft.Keys == old(ft).Keys
      ensures forall q :: q in ft && q != p ==> ft[q] == old(ft)[q]
      ensures m.Some? ==> m.value.path == p && AllAsked(old(sys), [m.value], sys) && |ft[p].work| < |old(ft)[p].work|
      ensures m.None? ==> sys == old(sys) && (aborted || Exhausted(ft[p]))
      ensures m.Some? ==> FirstTaken(old(ft)[p], Job(m.value.chunk, m.value.peer, m.value.job), ft[p])
      ensures aborted ==> m.None?
    {
      var job;
      job, aborted := GetJobFor(p, draw);
      if job.None? {
        return None, aborted;
      }
      OneAsked(old(sys), p, draw);
      m := Some(Sent(p, job.value.peer, job.value.chunk, job.value.id));
    }

    // The inner loop of check_work_queue.
    method DrainEntry(p: Bytes, draws: nat -> nat) returns (sent: seq<Sent>, aborted: bool)
      requires Valid() && p in ft
      modifies this
      ensures Valid() && start == old(start) && old(trace) <= trace
      ensures AllAsked(old(sys), sent, sys) && forall i :: 0 <= i < |sent| ==> sent[i].path == p
      ensures forall q :: q in ft && q != p ==> ft[q] == old(ft)[q]
      ensures !aborted ==> Exhausted(ft[p])
    {
      sent := [];
      while true
        invariant Valid() && start == old(start) && old(trace) <= trace && p in ft
        invariant AllAsked(old(sys), sent, sys) && forall i :: 0 <= i < |sent| ==> sent[i].path == p
        invariant forall q :: q in ft && q != p ==> ft[q] == old(ft)[q]
        decreases |ft[p].work|
      {
        ghost var before := sys;
        var m;
        m, aborted := SendJob(p, draws(|sent|));
        if m.None? {
          return;
        }
        MoreAsked(old(sys), sent, before, [m.value], sys);
        sent := sent + [m.value];
      }
    }

    // check_work_queue over the entries in the order of the table's iterator.
    method CheckWorkQueue(order: seq<Bytes>, draws: nat -> nat) returns (sent: seq<Sent>, aborted: bool)
      requires Valid() && forall p :: p in order <==> p in ft
      modifies this
      ensures Valid() && start == old(start) && old(trace) <= trace
      ensures AllAsked(old(sys), sent, sys)
      ensures !aborted ==> forall p :: p in ft ==> Exhausted(ft[p])
    {
      sent, aborted := [], false;
      for i := 0 to |order|
        invariant Valid() && start == old(start) && old(trace) <= trace
        invariant AllAsked(old(sys), sent, sys)
        invariant forall k :: 0 <= k < i ==> order[k] in ft && Exhausted(ft[order[k]])
      {
        assert order[i] in order;
        ghost var before := sys;
        var more, stop := DrainEntry(order[i], draws);
        MoreAsked(old(sys), sent, before, more, sys);
        sent := sent + more;
        if stop {
          aborted := true;
          return;
        }
      }
    }

    // One turn of the receive_chunk loop. `fault` is the null dereference on an unknown path;
    // `saved` says that the file was written to disk.
    method ReceiveChunk(a: Answer) returns (fault: bool, acquired: bool, saved: bool)
      requires Valid() && Genuine(sys, a)
      modifies this
      ensures Valid() && start == old(start)
      ensures fault <==> a.path !in old(ft)
      ensures fault ==> ft == old(ft) && trace == old(trace)
      ensures !fault ==> trace == old(trace) + [Deliver(a)]
                         && a.path in old(sys).version && a.path in old(sys).got && sys == AfterReceive(old(sys), a)
      ensures acquired <==> Receive(old(ft), a).Stored? || Receive(old(ft), a).Finished?
      ensures saved <==> Receive(old(ft), a).Finished?
      ensures !fault && a.job !in old(ft)[a.path].outstanding ==> ft == old(ft)
      ensures !fault && a.job in old(ft)[a.path].outstanding ==> TookAnswer(old(ft), a, ft)
    {
      acquired, saved := false, false;
      if a.path !in ft {
        return true, false, false;
      }
      fault := false;
      AnswerFacts(start, trace, sys, a);
      GenuineIsPositive(start, trace, sys, a);
      var outstanding := ft[a.path].outstanding;
      var removed := if a.job in outstanding then a.job else 0;
      if removed != a.job {
        IgnoredChangesNothing(sys, a);
        Record(Deliver(a));
        return;
      }
      acquired, saved := TakeAnswer(a);
    }

    // The rest of the turn, for an answer whose job was outstanding. The source's branch for an
    // entry without a file is never reached (AnswerFacts).
    method TakeAnswer(a: Answer) returns (acquired: bool, saved: bool)
      requires Valid() && Genuine(sys, a) && Enabled(sys, Deliver(a))
      requires a.path in ft && a.job in ft[a.path].outstanding && CanTake(ft[a.path], a)
      modifies this
      ensures Valid() && start == old(start) && trace == old(trace) + [Deliver(a)]
      ensures Enabled(old(sys), Deliver(a)) && sys == AfterReceive(old(sys), a)
      ensures acquired <==> Receive(old(ft), a).Stored? || Receive(old(ft), a).Finished?
      ensures saved <==> Receive(old(ft), a).Finished?
      ensures TookAnswer(old(ft), a, ft)
    {
      TakenIsReceived(sys, a);
      TakenIsAnswer(ft[a.path], a);
      Record(Deliver(a));
      acquired, saved := false, false;
      var e := ft[a.path].(outstanding := DropId(ft[a.path].outstanding, a.job));
      if !a.hasData {
        ft := ft[a.path := e.(work := e.work + [a.chunk])];
        return;
      }
      var file := e.file.value;
      file := file.(written := file.written[a.chunk := true]);
      acquired := true;
      if AllWritten(file) {
        saved := true;
        ft := ft[a.path := e.(file := None)];
      } else {
        ft := ft[a.path := e.(file := Some(file))];
      }
    }

    // The table part of the recv_diff branch, on the received trees: filetable_remove_filesystem
    // for the deletions, then, for each file of the additions, filetable_add_filesystem and the
    // file that GetFileAdditions opens for it. `shuffle` stands for queue_shuffle.
    method RecvDiff(deletions: Folder, additions: Folder, author: int, shuffle: (Bytes, nat) -> seq<nat>)
      requires Valid() && Shuffles(shuffle)
      modifies this
      ensures Valid() && start == old(start) && old(trace) <= trace
      ensures ft == Added(WithoutListed(old(ft), Listing.FileFirst([], deletions)),
                          Listing.FileFirst([], additions), author, shuffle)
      ensures forall base, next :: IsDiff(base, next, additions, deletions) ==> DiffTaken(old(ft), ft, base, next, author)
    {
      RemoveFilesystem(Listing.FileFirst([], deletions));
      AddFilesystem(Listing.FileFirst([], additions), author, shuffle);
      forall base, next | IsDiff(base, next, additions, deletions) ensures DiffTaken(old(ft), ft, base, next, author) {
        TakesDiff(old(ft), base, next, author, shuffle);
      }
    }

    method RemoveFilesystem(list: seq<Listing.Entry>)
      requires Valid()
      modifies this
      ensures Valid() && start == old(start) && old(trace) <= trace
      ensures ft == WithoutListed(old(ft), list)
    {
      ghost var before := ft;
      for i := 0 to |list|
        invariant Valid() && start == old(start) && old(trace) <= trace
        invariant ft == WithoutListed(before, list[..i])
      {
        WithoutOne(before, list, i);
        if Listing.Length(list[i].file) < 0 {
          continue;
        }
        RemovePath(Paths.Render(list[i].Target()));
      }
      WholeTaken(list);
    }

    method RemovePath(path: Bytes)
      requires Valid()
      modifies this
      ensures Valid() && start == old(start) && old(trace) <= trace
      ensures ft == old(ft) - {path}
    {
      ft := ft - {path};
      Record(RemoveEntry(path));
    }

    method AddFilesystem(list: seq<Listing.Entry>, author: int, shuffle: (Bytes, nat) -> seq<nat>)
      requires Valid() && Shuffles(shuffle)
      modifies this
      ensures Valid() && start == old(start) && old(trace) <= trace
      ensures ft == Added(old(ft), list, author, shuffle)
    {
      ghost var before := ft;
      for i := 0 to |list|
        invariant Valid() && start == old(start) && old(trace) <= trace
        invariant ft == Added(before, list[..i], author, shuffle)
      {
        WithOne(before, list, i, DownloadFrom(author, shuffle));
        var length := Listing.Length(list[i].file);
        if length < 0 {
          continue;
        }
        var path, chunks := Paths.Render(list[i].Target()), ChunkyFile.NumChunks(length);
        AddEntry(Addition(path, chunks, shuffle(path, chunks)), author);
      }
      WholeTaken(list);
    }

    method AddEntry(x: Addition, author: int)
      requires Valid() && multiset(x.order) == multiset(AllChunks(x.chunks))
      modifies this
      ensures Valid() && start == old(start) && old(trace) <= trace
      ensures ft == old(ft)[x.path := NewDownload(x, author)]
    {
      ft := ft[x.path := NewDownload(x, author)];
      Record(AddDownload(x, author));
    }

    // The branch for a peer that left: filetable_remove_peer over the entries in the order of the
    // table's iterator.
    method PeerDeleted(order: seq<Bytes>, id: int)
      requires Valid() && forall p :: p in order <==> p in ft
      requires forall i, j :: 0 <= i < j < |order| ==> order[i] != order[j]
      modifies this
      ensures Valid() && start == old(start) && old(trace) <= trace && ft.Keys == old(ft).Keys
      ensures forall p :: p in ft ==> ft[p] == old(ft)[p].(owners := WithoutEach(old(ft)[p].owners, id))
    {
      ghost var before := ft;
      for i := 0 to |order|
        invariant Valid() && start == old(start) && old(trace) <= trace
        invariant ft == ForgottenBy(before, order[..i], id)
      {
        assert order[i] in order && order[i] !in order[..i];
        OneMore(order, i);
        ForgottenMore(before, order[..i], order[i], id);
        ForgetOwner(order[i], id);
      }
      WholeTaken(order);
    }

    // One turn of its loop over the entries.
    method ForgetOwner(p: Bytes, id: int)
      requires Valid() && p in ft
      modifies this
      ensures Valid() && start == old(start) && old(trace) <= trace
      ensures ft == old(ft)[p := old(ft)[p].(owners := WithoutEach(old(ft)[p].owners, id))]
    {
      Record(LosePeer(p, id));
      ft := ft[p := ft[p].(owners := WithoutEach(ft[p].owners, id))];
    }

    // One turn of the chunk-got loop, with filetable_set_that_peer_has_file_chunk.
    method ChunkGot(path: Bytes, peer: int, chunk: int) returns (r: GotResult<seq<seq<int>>>)
      requires Valid()
      modifies this
      ensures Valid() && start == old(start) && old(trace) <= trace
      ensures r == Owners.GotChunk(if path in old(ft) then Some(old(ft)[path].owners) else None, chunk, peer)
      ensures r.Owned? ==> ft == old(ft)[path := old(ft)[path].(owners := r.value)]
      ensures !r.Owned? ==> ft == old(ft)
    {
      if path !in ft || |ft[path].owners| < chunk {
        return Stopped;
      }
      if chunk < 0 || chunk == |ft[path].owners| {
        return Outside;
      }
      var e := ft[path];
      Record(Action.GotChunk(path, chunk, peer));
      var owners := e.owners;
      if peer !in owners[chunk] {
        owners := owners[chunk := owners[chunk] + [peer]];
      }
      ft := ft[path := e.(owners := owners)];
      r := Owned(owners);
    }
  }

  // The table after the listed entries forgot the owner.
  function ForgottenBy(t: Table, paths: seq<Bytes>, id: int): Table {
    map p | p in t :: if p in paths then t[p].(owners := WithoutEach(t[p].owners, id)) else t[p]
  }

  lemma ForgottenMore(t: Table, paths: seq<Bytes>, p: Bytes, id: int)
    requires p in t && p !in paths
    ensures ForgottenBy(t, paths + [p], id)
         == ForgottenBy(t, paths, id)[p := t[p].(owners := WithoutEach(t[p].owners, id))]
    ensures ForgottenBy(t, paths, id)[p] == t[p]
  {
  }

  // A shuffle of the chunk numbers for every path.
  ghost predicate Shuffles(shuffle: (Bytes, nat) -> seq<nat>) {
    forall p, n :: multiset(shuffle(p, n)) == multiset(AllChunks(n))
  }

  // filetable_add_filesystem with NEED_DATA
  function Added(t: Table, es: seq<Listing.Entry>, author: int, shuffle: (Bytes, nat) -> seq<nat>): Table {
    WithListed(t, es, DownloadFrom(author, shuffle))
  }

  function DownloadFrom(author: int, shuffle: (Bytes, nat) -> seq<nat>): (Bytes, nat) -> Entry {
    (path: Bytes, n: nat) => NewDownload(Addition(path, n, shuffle(path, n)), author)
  }

  // ---------------------------------------------------------------- the table after a diff

  // The received trees are the diff of two snapshots.
  ghost predicate IsDiff(base: Folder, next: Folder, additions: Folder, deletions: Folder) {
    && Snapshot(base) && Snapshot(next) && ProperNames(base) && ProperNames(next)
    && DiffPatch.Diff(base, next) == (additions, deletions)
  }

  // A file to fetch: every chunk is owned by the author only and queued once, nothing is asked for
  // yet, and the file is open without any chunk.
  ghost predicate ToFetchFrom(e: Entry, n: nat, author: int) {
    && |e.owners| == n && (forall c :: 0 <= c < n ==> e.owners[c] == [author])
    && multiset(e.work) == multiset(AllChunks(n)) && e.outstanding == []
    && e.file.Some? && e.file.value.forWriting && |e.file.value.written| == n
    && forall c :: 0 <= c < n ==> !e.file.value.written[c]
  }

  // A counted record that only a has is named by the key k.
  ghost predicate KeyOnlyIn(a: Folder, b: Folder, k: Bytes) {
    exists e: Listing.Entry :: Has(a, e.dir, e.file) && !Has(b, e.dir, e.file) && Listing.Counted(e.file) && KeyOf(e) == k
  }

  // What a diff does to the table: an added file gets an entry of its length's chunks, to be fetched
  // from the author; a deleted one that is not added again goes; every other entry stays as it is.
  ghost predicate DiffTaken(t: Table, t': Table, base: Folder, next: Folder, author: int) {
    && (forall e: Listing.Entry :: Has(next, e.dir, e.file) && !Has(base, e.dir, e.file) && Listing.Counted(e.file) ==>
          KeyOf(e) in t' && ToFetchFrom(t'[KeyOf(e)], ChunkyFile.NumChunks(Listing.Length(e.file)), author))
    && (forall k :: !KeyOnlyIn(next, base, k) ==> (k in t' <==> k in t && !KeyOnlyIn(base, next, k)))
    && (forall k :: !KeyOnlyIn(next, base, k) && k in t' ==> t'[k] == t[k])
  }

  lemma KeyedIsOnlyIn(es: seq<Listing.Entry>, a: Folder, b: Folder, k: Bytes)
    requires DiskReplay.HoldsDifference(es, a, b)
    ensures Keyed(es, k) <==> KeyOnlyIn(a, b, k)
  {
    if Keyed(es, k) {
      var e :| e in es && Listing.Counted(e.file) && KeyOf(e) == k;
      assert Has(a, e.dir, e.file);
    }
  }

  // Where an added record gets its entry from.
  lemma AddedEntry(t: Table, es: seq<Listing.Entry>, base: Folder, next: Folder, author: int,
                   shuffle: (Bytes, nat) -> seq<nat>, e: Listing.Entry)
    requires Snapshot(next) && ProperNames(next) && Shuffles(shuffle) && DiskReplay.HoldsDifference(es, next, base)
    requires e in es && Listing.Counted(e.file)
    ensures KeyOf(e) in Added(t, es, author, shuffle)
    ensures ToFetchFrom(Added(t, es, author, shuffle)[KeyOf(e)], ChunkyFile.NumChunks(Listing.Length(e.file)), author)
  {
    var k, make := KeyOf(e), DownloadFrom(author, shuffle);
    WithListedKeys(t, es, make, k);
    assert Keyed(es, k);
    var x :| MadeBy(es, k, x, WithListed(t, es, make)[k], make);
    KeyedOnce(next, x, e);
    MadeToFetch(author, shuffle, k, ChunksOf(e));
  }

  lemma MadeToFetch(author: int, shuffle: (Bytes, nat) -> seq<nat>, k: Bytes, n: nat)
    requires Shuffles(shuffle)
    ensures ToFetchFrom(DownloadFrom(author, shuffle)(k, n), n, author)
  {
  }

  lemma TakesDiff(t: Table, base: Folder, next: Folder, author: int, shuffle: (Bytes, nat) -> seq<nat>)
    requires Snapshot(base) && Snapshot(next) && ProperNames(base) && ProperNames(next) && Shuffles(shuffle)
    ensures var (additions, deletions) := DiffPatch.Diff(base, next);
      DiffTaken(t, Added(WithoutListed(t, Listing.FileFirst([], deletions)), Listing.FileFirst([], additions), author, shuffle),
                base, next, author)
  {
    var dels := Listing.FileFirst([], DiffPatch.Diff(base, next).1);
    var adds := Listing.FileFirst([], DiffPatch.Diff(base, next).0);
    DiskReplay.DifferenceListed(true, base, next);
    DiskReplay.DifferenceListed(true, next, base);
    ListsTaken(t, base, next, dels, adds, author, shuffle);
  }

  lemma ListsTaken(t: Table, base: Folder, next: Folder, dels: seq<Listing.Entry>, adds: seq<Listing.Entry>,
                   author: int, shuffle: (Bytes, nat) -> seq<nat>)
    requires Snapshot(next) && ProperNames(next) && Shuffles(shuffle)
    requires DiskReplay.HoldsDifference(dels, base, next) && DiskReplay.HoldsDifference(adds, next, base)
    ensures DiffTaken(t, Added(WithoutListed(t, dels), adds, author, shuffle), base, next, author)
  {
    var mid := WithoutListed(t, dels);
    var t' := Added(mid, adds, author, shuffle);
    forall e: Listing.Entry | Has(next, e.dir, e.file) && !Has(base, e.dir, e.file) && Listing.Counted(e.file)
      ensures KeyOf(e) in t' && ToFetchFrom(t'[KeyOf(e)], ChunkyFile.NumChunks(Listing.Length(e.file)), author)
    {
      AddedEntry(mid, adds, base, next, author, shuffle, e);
    }
    forall k | !KeyOnlyIn(next, base, k)
      ensures k in t' <==> k in t && !KeyOnlyIn(base, next, k)
      ensures k in t' ==> t'[k] == t[k]
    {
      KeyedIsOnlyIn(dels, base, next, k);
      KeyedIsOnlyIn(adds, next, base, k);
      WithoutListedKeys(t, dels, k);
      WithListedKeys(mid, adds, DownloadFrom(author, shuffle), k);
    }
  }
}
