// The chunk download protocol of one client: file table entries, job ids, answers from peers.
module Download {
  import opened Basics
  import opened Owners

  const MAX_PENDING_REQUESTS: nat := 15

  // The ChunkyFile of an entry. Only one made for writing has a path to write to.
  datatype Buffer = Buffer(forWriting: bool, written: seq<bool>)

  datatype Entry = Entry(owners: seq<seq<int>>, work: seq<nat>, outstanding: seq<nat>, file: Option<Buffer>)

  type Table = map<Bytes, Entry>

  // ---------------------------------------------------------------- issuing jobs

  datatype Job = Job(chunk: nat, peer: int, id: nat)

  datatype JobOutcome = NoJob | NoOwner | Issued(entry: Entry, job: Job)

  // filetableentry_get_job with the next job id and a random draw; NoOwner is its assert.
  function GetJob(e: Entry, max: nat, id: nat, draw: nat): JobOutcome {
    if |e.outstanding| < max && e.work != [] then
      var c := e.work[0];
      if c >= |e.owners| || e.owners[c] == [] then NoOwner
      else
        Issued(e.(work := e.work[1..], outstanding := e.outstanding + [id]),
               Job(c, e.owners[c][draw % |e.owners[c]|], id))
    else NoJob
  }

  // ---------------------------------------------------------------- answers

  // What a peer sends back: path, chunk number and job id as in the request, with data or a
  // rejection.
  datatype Answer = Answer(path: Bytes, chunk: nat, job: nat, hasData: bool)

  datatype Receipt =
    | Fault                       // null dereference, failed assert or write outside the flags
    | Ignored
    | Dropped(entry: Entry)       // accepted, but there is no file to put it in
    | Requeued(entry: Entry)
    | Stored(entry: Entry)
    | Finished(entry: Entry)      // the last chunk: the file is written to disk

  function DropId(ids: seq<nat>, id: nat): seq<nat> {
    if ids == [] then [] else if ids[0] == id then ids[1..] else [ids[0]] + DropId(ids[1..], id)
  }

  // filetable_find_and_remove_job_id returns the id it removed, or 0.
  function FoundId(ids: seq<nat>, id: nat): nat {
    if id in ids then id else 0
  }

  predicate AllWritten(b: Buffer) {
    forall c :: 0 <= c < |b.written| ==> b.written[c]
  }

  // The receive_chunk branch of the client's main loop, on the entry of the path.
  function Accept(e: Entry, a: Answer): Receipt {
    if e.file.None? then Dropped(e)
    else if !a.hasData then Requeued(e.(work := e.work + [a.chunk]))
    else
      var b := e.file.value;
      if a.chunk >= |b.written| then Fault
      else
        var b' := b.(written := b.written[a.chunk := true]);
        if !AllWritten(b') then Stored(e.(file := Some(b')))
        else if !b.forWriting then Fault
        else Finished(e.(file := None))
  }

  function Receive(t: Table, a: Answer): Receipt {
    if a.path !in t then Fault
    else
      var e := t[a.path];
      if FoundId(e.outstanding, a.job) != a.job then Ignored
      else Accept(e.(outstanding := DropId(e.outstanding, a.job)), a)
  }

  // ---------------------------------------------------------------- diffs and owners

  // A plain file of the additions: its path, its number of chunks, and the shuffled chunk numbers.
  datatype Addition = Addition(path: Bytes, chunks: nat, order: seq<nat>)

  function NewFlags(n: nat): (r: seq<bool>)
    ensures |r| == n && forall i :: 0 <= i < n ==> !r[i]
  {
    seq(n, _ => false)
  }

  // filetable_add_filesystem with NEED_DATA, then GetFileAdditions
  function NewDownload(x: Addition, author: int): Entry {
    Entry(SoleOwner(x.chunks, author), x.order, [], Some(Buffer(true, NewFlags(x.chunks))))
  }

  // filetable_add_filesystem with HAVE_DATA
  function NewShared(x: Addition, self: int): Entry {
    Entry(SoleOwner(x.chunks, self), [], [], None)
  }

  // ---------------------------------------------------------------- the system

  // What a job id was issued for; the source keeps none of this.
  datatype Request = Request(path: Bytes, version: nat, chunk: nat)

  // The client's state, and the history the properties speak of: the version of each entry (which
  // creation it is), the chunks whose data it took in, all requests ever sent, the answers that
  // were accepted, the files written to disk, and the versions made to be fetched.
  datatype Sys = Sys(
    table: Table,
    nextId: nat,
    version: map<Bytes, nat>,
    nextVersion: nat,
    got: map<Bytes, set<nat>>,
    issued: map<nat, Request>,
    accepted: seq<nat>,
    saved: seq<(Bytes, nat)>,
    fetched: set<nat>)

  function AllChunks(n: nat): (r: set<nat>)
    ensures forall c: nat :: c in r <==> c < n
  {
    if n == 0 then {} else AllChunks(n - 1) + {n - 1}
  }

  function ChunkOf(issued: map<nat, Request>, id: nat): nat {
    if id in issued then issued[id].chunk else 0
  }

  function JobChunks(ids: seq<nat>, issued: map<nat, Request>): seq<nat> {
    if ids == [] then [] else [ChunkOf(issued, ids[0])] + JobChunks(ids[1..], issued)
  }

  // Queued, in flight and received chunks partition the file.
  ghost predicate Partition(e: Entry, got: set<nat>, issued: map<nat, Request>) {
    multiset(e.work) + multiset(JobChunks(e.outstanding, issued)) + multiset(got) == multiset(AllChunks(|e.owners|))
  }

  ghost predicate Jobs(e: Entry, p: Bytes, v: nat, issued: map<nat, Request>) {
    && |e.outstanding| <= MAX_PENDING_REQUESTS
    && (forall i, j :: 0 <= i < j < |e.outstanding| ==> e.outstanding[i] != e.outstanding[j])
    && (forall id :: id in e.outstanding ==> id in issued && issued[id].path == p && issued[id].version == v)
  }

  // The file's flags record what was received, until it is complete and handed to disk.
  ghost predicate FileState(e: Entry, got: set<nat>) {
    if |e.owners| == 0 then true
    else if got == AllChunks(|e.owners|) then e.file.None? || !e.file.value.forWriting
    else
      && e.file.Some? && e.file.value.forWriting
      && |e.file.value.written| == |e.owners|
      && forall c :: 0 <= c < |e.owners| ==> (e.file.value.written[c] <==> c in got)
  }

  // The invariant of one entry, at path p and version v.
  ghost predicate EntryOk(e: Entry, p: Bytes, v: nat, got: set<nat>, issued: map<nat, Request>,
                          accepted: seq<nat>, saved: seq<(Bytes, nat)>) {
    && Partition(e, got, issued)
    && Jobs(e, p, v, issued)
    && FileState(e, got)
    && (forall id :: id in e.outstanding ==> id !in accepted)
    && ((p, v) in saved ==> got == AllChunks(|e.owners|))
  }

  // A file to fetch is on disk exactly when all its chunks are in; any other file is there already
  // and is not written.
  ghost predicate WriteState(n: nat, p: Bytes, v: nat, got: set<nat>, saved: seq<(Bytes, nat)>, fetched: set<nat>) {
    if v in fetched then got == AllChunks(n) <==> (p, v) in saved
    else got == AllChunks(n) && (p, v) !in saved
  }

  ghost predicate EntryInv(s: Sys, p: Bytes)
    requires p in s.table && p in s.version && p in s.got
  {
    && s.version[p] < s.nextVersion
    && EntryOk(s.table[p], p, s.version[p], s.got[p], s.issued, s.accepted, s.saved)
    && WriteState(|s.table[p].owners|, p, s.version[p], s.got[p], s.saved, s.fetched)
  }

  ghost predicate History(s: Sys) {
    && s.nextId >= 1
    && (forall id :: id in s.issued ==> 1 <= id < s.nextId && s.issued[id].version < s.nextVersion)
    && (forall id :: id in s.accepted ==> id in s.issued)
    && (forall i, j :: 0 <= i < j < |s.accepted| ==> s.accepted[i] != s.accepted[j])
    && (forall i :: 0 <= i < |s.saved| ==> s.saved[i].1 < s.nextVersion)
    && (forall i, j :: 0 <= i < j < |s.saved| ==> s.saved[i] != s.saved[j])
    && (forall x :: x in s.saved ==> x.1 in s.fetched)
    && (forall v :: v in s.fetched ==> v < s.nextVersion)
  }

  ghost predicate Inv(s: Sys) {
    && s.version.Keys == s.table.Keys && s.got.Keys == s.table.Keys
    && History(s)
    && forall p :: p in s.table ==> EntryInv(s, p)
  }

  // ---------------------------------------------------------------- steps

  // One job issued for path p.
  function AfterIssue(s: Sys, p: Bytes, draw: nat): Sys
    requires p in s.table && p in s.version
    requires GetJob(s.table[p], MAX_PENDING_REQUESTS, s.nextId, draw).Issued?
  {
    var r := GetJob(s.table[p], MAX_PENDING_REQUESTS, s.nextId, draw);
    s.(table := s.table[p := r.entry],
       nextId := s.nextId + 1,
       issued := s.issued[s.nextId := Request(p, s.version[p], r.job.chunk)])
  }

  // The network delivers an answer: late, again, out of order or never, but with the path, chunk
  // and job id of some request.
  ghost predicate Genuine(s: Sys, a: Answer) {
    a.job in s.issued && s.issued[a.job].path == a.path && s.issued[a.job].chunk == a.chunk
  }

  function AfterReceive(s: Sys, a: Answer): Sys
    requires a.path in s.version && a.path in s.got
  {
    match Receive(s.table, a)
    case Fault => s
    case Ignored => s
    case Dropped(e) => s.(table := s.table[a.path := e], accepted := s.accepted + [a.job])
    case Requeued(e) => s.(table := s.table[a.path := e], accepted := s.accepted + [a.job])
    case Stored(e) =>
      s.(table := s.table[a.path := e], accepted := s.accepted + [a.job],
         got := s.got[a.path := s.got[a.path] + {a.chunk}])
    case Finished(e) =>
      s.(table := s.table[a.path := e], accepted := s.accepted + [a.job],
         got := s.got[a.path := s.got[a.path] + {a.chunk}],
         saved := s.saved + [(a.path, s.version[a.path])])
  }

  // An entry is removed.
  function AfterRemove(s: Sys, p: Bytes): Sys {
    s.(table := s.table - {p}, version := s.version - {p}, got := s.got - {p})
  }

  // An entry is made for a file to fetch; a file without chunks is written at once.
  function AfterDownload(s: Sys, x: Addition, author: int): Sys {
    s.(table := s.table[x.path := NewDownload(x, author)],
       version := s.version[x.path := s.nextVersion],
       nextVersion := s.nextVersion + 1,
       got := s.got[x.path := {}],
       saved := if x.chunks == 0 then s.saved + [(x.path, s.nextVersion)] else s.saved,
       fetched := s.fetched + {s.nextVersion})
  }

  // An entry is made for a file the client has itself.
  function AfterShare(s: Sys, x: Addition, self: int): Sys {
    s.(table := s.table[x.path := NewShared(x, self)],
       version := s.version[x.path := s.nextVersion],
       nextVersion := s.nextVersion + 1,
       got := s.got[x.path := AllChunks(x.chunks)])
  }

  // A master message, on one file that is missing on disk: UpdateLocalFilesystem opens the file anew
  // and queues all its chunks again, whatever is queued or outstanding; the queue is shuffled. What
  // was received for the old buffer is lost, so a new version begins.
  function AfterRefetch(s: Sys, p: Bytes, chunks: nat, order: seq<nat>): Sys
    requires p in s.table
  {
    s.(table := s.table[p := Refetched(s.table[p], chunks, order)],
       version := s.version[p := s.nextVersion],
       nextVersion := s.nextVersion + 1,
       got := s.got[p := {}],
       fetched := s.fetched + {s.nextVersion})
  }

  function Refetched(e: Entry, chunks: nat, order: seq<nat>): Entry {
    e.(work := order, file := Some(Buffer(true, NewFlags(chunks))))
  }

  function WithTable(s: Sys, p: Bytes, e: Entry): Sys {
    s.(table := s.table[p := e])
  }

  // The client's steps. LosePeer and GotChunk touch the owner lists of one entry.
  datatype Action =
    | IssueJob(path: Bytes, draw: nat)
    | Deliver(answer: Answer)
    | RemoveEntry(path: Bytes)
    | AddDownload(addition: Addition, author: int)
    | AddShared(addition: Addition, self: int)
    | LosePeer(path: Bytes, peer: int)
    | GotChunk(path: Bytes, chunk: nat, peer: int)
    | Serve(path: Bytes, flags: seq<bool>)
    | Refetch(path: Bytes, chunks: nat, order: seq<nat>)

  ghost predicate KnownPath(s: Sys, p: Bytes) {
    p in s.table && p in s.version && p in s.got
  }

  // JOB_ID is an int: a run ends before it overflows. Work queues are shuffles of all chunks. A
  // reading buffer is only made where there is no buffer.
  ghost predicate Enabled(s: Sys, act: Action) {
    match act
    case IssueJob(p, draw) =>
      KnownPath(s, p) && s.nextId < 0x7FFF_FFFF && GetJob(s.table[p], MAX_PENDING_REQUESTS, s.nextId, draw).Issued?
    case Deliver(a) => Genuine(s, a) && KnownPath(s, a.path)
    case RemoveEntry(p) => true
    case AddDownload(x, author) => multiset(x.order) == multiset(AllChunks(x.chunks))
    case AddShared(x, self) => true
    case LosePeer(p, id) => p in s.table
    case GotChunk(p, c, peer) => p in s.table && c < |s.table[p].owners|
    case Serve(p, flags) => p in s.table && s.table[p].file.None?
    case Refetch(p, chunks, order) =>
      KnownPath(s, p) && multiset(order) == multiset(s.table[p].work) + multiset(AllChunks(chunks))
  }

  ghost function After(s: Sys, act: Action): Sys
    requires Enabled(s, act)
  {
    match act
    case IssueJob(p, draw) => AfterIssue(s, p, draw)
    case Deliver(a) => AfterReceive(s, a)
    case RemoveEntry(p) => AfterRemove(s, p)
    case AddDownload(x, author) => AfterDownload(s, x, author)
    case AddShared(x, self) => AfterShare(s, x, self)
    case LosePeer(p, id) => WithTable(s, p, s.table[p].(owners := WithoutEach(s.table[p].owners, id)))
    case GotChunk(p, c, peer) => WithTable(s, p, s.table[p].(owners := WithOwner(s.table[p].owners, c, peer)))
    case Serve(p, flags) => WithTable(s, p, s.table[p].(file := Some(Buffer(false, flags))))
    case Refetch(p, chunks, order) => AfterRefetch(s, p, chunks, order)
  }

  // s' is reached from s by these steps.
  ghost predicate Run(s: Sys, acts: seq<Action>, s': Sys)
    decreases |acts|
  {
    if acts == [] then s == s' else Enabled(s, acts[0]) && Run(After(s, acts[0]), acts[1..], s')
  }

  // Nothing of the file is on its way, and the message has the chunk count of its entry, not 0.
  predicate Quiet(e: Entry, chunks: nat) {
    e.work == [] && e.outstanding == [] && chunks == |e.owners| && chunks > 0
  }

  ghost predicate QuietStep(s: Sys, act: Action)
    requires Enabled(s, act)
  {
    act.Refetch? ==> Quiet(s.table[act.path], act.chunks)
  }

  // A run in which master messages come for quiet entries only.
  ghost predicate QuietRun(s: Sys, acts: seq<Action>, s': Sys)
    decreases |acts|
  {
    if acts == [] then s == s'
    else Enabled(s, acts[0]) && QuietStep(s, acts[0]) && QuietRun(After(s, acts[0]), acts[1..], s')
  }

  // Before any job: every entry counts as a file the client has. One it lacks is refetched first.
  ghost predicate Init(s: Sys) {
    && s.version.Keys == s.table.Keys && s.got.Keys == s.table.Keys
    && s.nextId == 1 && s.issued == map[] && s.accepted == [] && s.saved == [] && s.fetched == {}
    && forall p :: p in s.table ==>
         && s.version[p] < s.nextVersion
         && s.table[p].work == [] && s.table[p].outstanding == []
         && s.got[p] == AllChunks(|s.table[p].owners|)
         && (s.table[p].file.None? || !s.table[p].file.value.forWriting)
  }

  // ---------------------------------------------------------------- the invariant

  lemma InitInv(s: Sys)
    requires Init(s)
    ensures Inv(s)
  {
  }

  lemma {:induction false} JobChunksAgree(ids: seq<nat>, a: map<nat, Request>, b: map<nat, Request>)
    requires forall id :: id in ids ==> ChunkOf(a, id) == ChunkOf(b, id)
    ensures JobChunks(ids, a) == JobChunks(ids, b)
  {
    if ids == [] {
    } else {
      JobChunksAgree(ids[1..], a, b);
    }
  }

  lemma {:induction false} JobChunksSnoc(ids: seq<nat>, id: nat, issued: map<nat, Request>)
    ensures JobChunks(ids + [id], issued) == JobChunks(ids, issued) + [ChunkOf(issued, id)]
  {
    if ids == [] {
      assert ids + [id] == [id];
    } else {
      assert (ids + [id])[1..] == ids[1..] + [id];
      JobChunksSnoc(ids[1..], id, issued);
    }
  }

  lemma {:induction false} DropIdChunks(ids: seq<nat>, id: nat, issued: map<nat, Request>)
    requires id in ids
    ensures multiset(JobChunks(ids, issued))
         == multiset(JobChunks(DropId(ids, id), issued)) + multiset{ChunkOf(issued, id)}
  {
    var c, rest := ChunkOf(issued, ids[0]), ids[1..];
    JobChunksCons(ids[0], rest, issued);
    assert [ids[0]] + rest == ids;
    if ids[0] != id {
      var d := DropId(rest, id);
      DropIdChunks(rest, id, issued);
      JobChunksCons(ids[0], d, issued);
      AddedToBoth(c, multiset(JobChunks(rest, issued)), multiset(JobChunks(d, issued)), ChunkOf(issued, id));
    }
  }

  lemma AddedToBoth(c: nat, a: multiset<nat>, b: multiset<nat>, x: nat)
    requires a == b + multiset{x}
    ensures multiset{c} + a == multiset{c} + b + multiset{x}
  {
  }

  lemma JobChunksCons(id: nat, ids: seq<nat>, issued: map<nat, Request>)
    ensures multiset(JobChunks([id] + ids, issued)) == multiset{ChunkOf(issued, id)} + multiset(JobChunks(ids, issued))
  {
    assert ([id] + ids)[1..] == ids;
  }

  lemma {:induction false} DropIdMembers(ids: seq<nat>, id: nat)
    requires forall i, j :: 0 <= i < j < |ids| ==> ids[i] != ids[j]
    ensures var d := DropId(ids, id);
      && |d| <= |ids|
      && (forall i, j :: 0 <= i < j < |d| ==> d[i] != d[j])
      && (forall x :: x in d <==> x in ids && x != id)
  {
    if ids == [] {
    } else {
      assert forall x :: x in ids <==> x == ids[0] || x in ids[1..];
      if ids[0] != id {
        DropIdMembers(ids[1..], id);
        assert ids[0] !in ids[1..];
      }
    }
  }

  // An entry keeps its invariant when requests, accepted answers and writes of others are added.
  lemma Untouched(e: Entry, p: Bytes, v: nat, got: set<nat>,
                  issued: map<nat, Request>, accepted: seq<nat>, saved: seq<(Bytes, nat)>,
                  issued': map<nat, Request>, accepted': seq<nat>, saved': seq<(Bytes, nat)>)
    requires EntryOk(e, p, v, got, issued, accepted, saved)
    requires forall id :: id in e.outstanding ==> id in issued' && issued'[id] == issued[id] && id !in accepted'
    requires (p, v) in saved' ==> (p, v) in saved
    ensures EntryOk(e, p, v, got, issued', accepted', saved')
  {
    JobChunksAgree(e.outstanding, issued, issued');
  }

  lemma IssuePartition(e: Entry, e': Entry, got: set<nat>, issued: map<nat, Request>, id: nat, r: Request)
    requires Partition(e, got, issued) && id !in e.outstanding && e.work != [] && r.chunk == e.work[0]
    requires e' == e.(work := e.work[1..], outstanding := e.outstanding + [id])
    ensures Partition(e', got, issued[id := r])
  {
    var issued' := issued[id := r];
    JobChunksAgree(e.outstanding, issued, issued');
    JobChunksSnoc(e.outstanding, id, issued');
    var jobs, jobs' := JobChunks(e.outstanding, issued), JobChunks(e'.outstanding, issued');
    assert jobs' == jobs + [r.chunk];
    assert e.work == [r.chunk] + e'.work;
    MovedToJobs(multiset(e.work), multiset(e'.work), multiset(jobs), multiset(jobs'), multiset(got), r.chunk);
  }

  lemma MovedToJobs(work: multiset<nat>, work': multiset<nat>, jobs: multiset<nat>, jobs': multiset<nat>,
                    got: multiset<nat>, c: nat)
    requires work == multiset{c} + work' && jobs' == jobs + multiset{c}
    ensures work' + jobs' + got == work + jobs + got
  {
  }

  lemma IssueEntry(e: Entry, p: Bytes, v: nat, got: set<nat>, issued: map<nat, Request>,
                   accepted: seq<nat>, saved: seq<(Bytes, nat)>, id: nat, draw: nat)
    requires EntryOk(e, p, v, got, issued, accepted, saved)
    requires id !in issued && id !in accepted && GetJob(e, MAX_PENDING_REQUESTS, id, draw).Issued?
    ensures var r := GetJob(e, MAX_PENDING_REQUESTS, id, draw);
      EntryOk(r.entry, p, v, got, issued[id := Request(p, v, r.job.chunk)], accepted, saved)
  {
    var r := GetJob(e, MAX_PENDING_REQUESTS, id, draw);
    IssuePartition(e, r.entry, got, issued, id, Request(p, v, r.job.chunk));
  }

  // Between s and s' only the entry of p changed; requests were added, and answers and writes of p.
  ghost predicate OnlyEntry(s: Sys, s': Sys, p: Bytes) {
    && s'.version.Keys == s'.table.Keys && s'.got.Keys == s'.table.Keys
    && (forall q :: q != p ==> (q in s'.table <==> q in s.table))
    && (forall q :: q != p && KnownPath(s, q) && KnownPath(s', q) ==>
          s'.table[q] == s.table[q] && s'.version[q] == s.version[q] && s'.got[q] == s.got[q])
    && s.nextVersion <= s'.nextVersion
    && (forall id :: id in s.issued ==> id in s'.issued && s'.issued[id] == s.issued[id])
    && (forall id :: id in s'.accepted ==> id in s.accepted || (id in s.issued && s.issued[id].path == p))
    && (forall x :: x in s'.saved ==> x in s.saved || x.0 == p)
    && (forall x :: x in s.saved ==> x in s'.saved)
    && (forall v :: v in s.fetched ==> v in s'.fetched)
    && (forall v :: v in s'.fetched ==> v in s.fetched || v >= s.nextVersion)
  }

  lemma OtherEntry(s: Sys, s': Sys, p: Bytes, q: Bytes)
    requires OnlyEntry(s, s', p) && q != p && KnownPath(s, q) && KnownPath(s', q) && EntryInv(s, q)
    ensures EntryInv(s', q)
  {
    Untouched(s.table[q], q, s.version[q], s.got[q], s.issued, s.accepted, s.saved,
              s'.issued, s'.accepted, s'.saved);
  }

  // Such a step keeps the invariant if it keeps it at p and in the history.
  lemma OneEntry(s: Sys, s': Sys, p: Bytes)
    requires Inv(s) && OnlyEntry(s, s', p) && History(s')
    requires p in s'.table ==> EntryInv(s', p)
    ensures Inv(s')
  {
    forall q | q in s'.table && q != p ensures EntryInv(s', q) {
      assert EntryInv(s, q);
      OtherEntry(s, s', p, q);
    }
  }

  lemma IssueHistory(s: Sys, p: Bytes, draw: nat)
    requires History(s) && KnownPath(s, p) && s.version[p] < s.nextVersion
    requires GetJob(s.table[p], MAX_PENDING_REQUESTS, s.nextId, draw).Issued?
    ensures s.nextId !in s.issued && s.nextId !in s.accepted
    ensures History(AfterIssue(s, p, draw))
  {
  }

  lemma IssueShape(s: Sys, p: Bytes, draw: nat)
    requires s.version.Keys == s.table.Keys && s.got.Keys == s.table.Keys && p in s.table && s.nextId !in s.issued
    requires GetJob(s.table[p], MAX_PENDING_REQUESTS, s.nextId, draw).Issued?
    ensures OnlyEntry(s, AfterIssue(s, p, draw), p)
  {
  }

  lemma IssueInv(s: Sys, p: Bytes, draw: nat)
    requires Inv(s) && p in s.table
    requires GetJob(s.table[p], MAX_PENDING_REQUESTS, s.nextId, draw).Issued?
    ensures Inv(AfterIssue(s, p, draw))
  {
    assert EntryInv(s, p);
    IssueHistory(s, p, draw);
    IssueShape(s, p, draw);
    IssuedAt(s, p, draw);
    OneEntry(s, AfterIssue(s, p, draw), p);
  }

  lemma IssuedAt(s: Sys, p: Bytes, draw: nat)
    requires KnownPath(s, p) && EntryInv(s, p) && s.nextId !in s.issued && s.nextId !in s.accepted
    requires GetJob(s.table[p], MAX_PENDING_REQUESTS, s.nextId, draw).Issued?
    ensures EntryInv(AfterIssue(s, p, draw), p)
  {
    IssueEntry(s.table[p], p, s.version[p], s.got[p], s.issued, s.accepted, s.saved, s.nextId, draw);
  }

  // ---------------------------------------------------------------- stale answers

  lemma QueuedIsInside(e: Entry, got: set<nat>, issued: map<nat, Request>, id: nat)
    requires Partition(e, got, issued) && id in e.outstanding
    ensures ChunkOf(issued, id) < |e.owners| && ChunkOf(issued, id) !in got
  {
    var c := ChunkOf(issued, id);
    DropIdChunks(e.outstanding, id, issued);
    var all := multiset(AllChunks(|e.owners|));
    assert all[c] >= 1 + multiset(got)[c];
  }

  // An answer is accepted only if its job was issued for the present version of the entry and the
  // same chunk, and was not accepted before; the chunk is then still missing and the file is there
  // to take it.
  lemma AcceptedIsCurrent(s: Sys, a: Answer)
    requires Inv(s) && Genuine(s, a) && a.path in s.table && Receive(s.table, a) != Ignored
    ensures var e := s.table[a.path];
      && a.job in e.outstanding
      && s.issued[a.job] == Request(a.path, s.version[a.path], a.chunk)
      && a.job !in s.accepted
      && a.chunk < |e.owners| && a.chunk !in s.got[a.path]
      && e.file.Some? && e.file.value.forWriting && |e.file.value.written| == |e.owners|
  {
    assert EntryInv(s, a.path);
    QueuedIsInside(s.table[a.path], s.got[a.path], s.issued, a.job);
  }

  // The partner: an answer to a job of an earlier version, or one accepted before, changes nothing.
  lemma StaleIsIgnored(s: Sys, a: Answer)
    requires Inv(s) && Genuine(s, a) && a.path in s.table
    requires s.issued[a.job].version != s.version[a.path] || a.job in s.accepted
    ensures Receive(s.table, a) == Ignored && AfterReceive(s, a) == s
  {
    assert EntryInv(s, a.path);
  }

  // An answer stops the client exactly when its path is no longer in the table; no accepted answer
  // is ever dropped for want of a file.
  lemma ReceiveFaultsIff(s: Sys, a: Answer)
    requires Inv(s) && Genuine(s, a)
    ensures Receive(s.table, a) == Fault <==> a.path !in s.table
    ensures !Receive(s.table, a).Dropped?
  {
    if a.path in s.table && Receive(s.table, a) != Ignored {
      AcceptedIsCurrent(s, a);
      assert EntryInv(s, a.path);
      AcceptedOutcome(s.table[a.path], s.got[a.path], s.issued, a);
    }
  }

  // What becomes of an accepted answer.
  lemma AcceptedOutcome(e: Entry, got: set<nat>, issued: map<nat, Request>, a: Answer)
    requires Partition(e, got, issued) && FileState(e, got)
    requires a.job in e.outstanding && ChunkOf(issued, a.job) == a.chunk
    ensures var e1 := e.(outstanding := DropId(e.outstanding, a.job));
            var r := Accept(e1, a);
      && (a.hasData ==> r.Stored? || r.Finished?)
      && (!a.hasData ==> r.Requeued?)
  {
    QueuedIsInside(e, got, issued, a.job);
    GotInside(e, got, issued);
    if a.hasData {
      StoredFlags(e, e.(outstanding := DropId(e.outstanding, a.job)), got, a);
    }
  }

  // The fault whenever the path of a job is deleted while its answer is under way.
  lemma DeletedPathFaults(s: Sys, a: Answer)
    requires Genuine(s, a)
    ensures Receive(AfterRemove(s, a.path).table, a) == Fault
    ensures Genuine(AfterRemove(s, a.path), a)
  {
  }

  lemma AllFlags(b: Buffer, got: set<nat>, n: nat)
    requires |b.written| == n && forall c :: 0 <= c < n ==> (b.written[c] <==> c in got)
    requires got <= AllChunks(n)
    ensures AllWritten(b) <==> got == AllChunks(n)
  {
  }

  lemma GotInside(e: Entry, got: set<nat>, issued: map<nat, Request>)
    requires Partition(e, got, issued)
    ensures got <= AllChunks(|e.owners|)
  {
    forall c | c in got ensures c in AllChunks(|e.owners|) {
      assert multiset(AllChunks(|e.owners|))[c] >= multiset(got)[c] >= 1;
    }
  }

  // The partition after the job left the outstanding queue and its chunk went to `work` or `got`.
  lemma PartitionAfter(e: Entry, e': Entry, got: set<nat>, issued: map<nat, Request>, a: Answer, stored: bool)
    requires Partition(e, got, issued) && a.job in e.outstanding && ChunkOf(issued, a.job) == a.chunk
    requires |e'.owners| == |e.owners| && e'.outstanding == DropId(e.outstanding, a.job)
    requires e'.work == if stored then e.work else e.work + [a.chunk]
    ensures Partition(e', if stored then got + {a.chunk} else got, issued)
  {
    DropIdChunks(e.outstanding, a.job, issued);
    QueuedIsInside(e, got, issued, a.job);
    var work, all := multiset(e.work), multiset(AllChunks(|e.owners|));
    var jobs, jobs' := multiset(JobChunks(e.outstanding, issued)), multiset(JobChunks(e'.outstanding, issued));
    MovedChunk(work, jobs, jobs', got, a.chunk, all);
    assert !stored ==> multiset(e'.work) == work + multiset{a.chunk};
  }

  lemma MovedChunk(work: multiset<nat>, jobs: multiset<nat>, jobs': multiset<nat>, got: set<nat>, c: nat, all: multiset<nat>)
    requires work + jobs + multiset(got) == all && jobs == jobs' + multiset{c} && c !in got
    ensures work + jobs' + multiset(got + {c}) == all
    ensures work + multiset{c} + jobs' + multiset(got) == all
  {
    assert multiset(got + {c}) == multiset(got) + multiset{c};
  }

  // The flags after a chunk was stored.
  lemma StoredFlags(e: Entry, e1: Entry, got: set<nat>, a: Answer)
    requires FileState(e, got) && got <= AllChunks(|e.owners|)
    requires a.chunk < |e.owners| && a.chunk !in got && a.hasData
    requires e1 == e.(outstanding := DropId(e.outstanding, a.job))
    ensures var r := Accept(e1, a);
      && (r.Stored? || r.Finished?)
      && FileState(r.entry, got + {a.chunk})
      && r.entry.work == e.work && r.entry.outstanding == e1.outstanding && r.entry.owners == e.owners
      && (r.Finished? <==> got + {a.chunk} == AllChunks(|e.owners|))
  {
    var b := e.file.value;
    var b' := b.(written := b.written[a.chunk := true]);
    AllFlags(b', got + {a.chunk}, |e.owners|);
  }

  lemma ReceiveInv(s: Sys, a: Answer)
    requires Inv(s) && Genuine(s, a) && a.path in s.table
    ensures Inv(AfterReceive(s, a))
  {
    if Receive(s.table, a) != Ignored {
      AcceptedInv(s, a);
    }
  }

  // The entry after an accepted answer.
  lemma AcceptedEntry(e: Entry, p: Bytes, v: nat, got: set<nat>, issued: map<nat, Request>,
                      accepted: seq<nat>, saved: seq<(Bytes, nat)>, a: Answer)
    requires EntryOk(e, p, v, got, issued, accepted, saved)
    requires a.job in e.outstanding && ChunkOf(issued, a.job) == a.chunk
    ensures var r := Accept(e.(outstanding := DropId(e.outstanding, a.job)), a);
            var got' := if a.hasData then got + {a.chunk} else got;
            var saved' := if r.Finished? then saved + [(p, v)] else saved;
      && (r.Requeued? || r.Stored? || r.Finished?) && (a.hasData <==> !r.Requeued?)
      && EntryOk(r.entry, p, v, got', issued, accepted + [a.job], saved')
      && (p, v) !in saved && |r.entry.owners| == |e.owners|
      && got != AllChunks(|e.owners|) && (r.Finished? <==> got' == AllChunks(|e.owners|))
  {
    var e1 := e.(outstanding := DropId(e.outstanding, a.job));
    AcceptedOutcome(e, got, issued, a);
    QueuedIsInside(e, got, issued, a.job);
    GotInside(e, got, issued);
    DropIdMembers(e.outstanding, a.job);
    if a.hasData {
      StoredFlags(e, e1, got, a);
    }
    PartitionAfter(e, Accept(e1, a).entry, got, issued, a, a.hasData);
  }

  // An accepted answer changes one entry and adds to the history.
  ghost predicate AcceptedStep(s: Sys, s': Sys, p: Bytes, job: nat, e: Entry, got: set<nat>, finished: bool)
    requires p in s.version
  {
    && s'.table == s.table[p := e] && s'.got == s.got[p := got]
    && s'.nextId == s.nextId && s'.version == s.version && s'.nextVersion == s.nextVersion
    && s'.issued == s.issued && s'.accepted == s.accepted + [job]
    && s'.saved == (if finished then s.saved + [(p, s.version[p])] else s.saved)
    && s'.fetched == s.fetched
  }

  lemma ReceiveShape(s: Sys, a: Answer)
    requires a.path in s.table && a.path in s.version && a.path in s.got && a.job in s.table[a.path].outstanding
    ensures var r := Accept(s.table[a.path].(outstanding := DropId(s.table[a.path].outstanding, a.job)), a);
      r.Requeued? || r.Stored? || r.Finished? ==>
        AcceptedStep(s, AfterReceive(s, a), a.path, a.job, r.entry,
                     if r.Requeued? then s.got[a.path] else s.got[a.path] + {a.chunk}, r.Finished?)
  {
    assert s.got == s.got[a.path := s.got[a.path]];
  }

  lemma AcceptedHistory(s: Sys, s': Sys, p: Bytes, job: nat, e: Entry, got: set<nat>, finished: bool)
    requires History(s) && p in s.version && s.version[p] < s.nextVersion
    requires AcceptedStep(s, s', p, job, e, got, finished) && s.version[p] in s.fetched
    requires job in s.issued && job !in s.accepted && (p, s.version[p]) !in s.saved
    ensures History(s')
  {
  }

  lemma AcceptedShape(s: Sys, s': Sys, p: Bytes, job: nat, e: Entry, got: set<nat>, finished: bool)
    requires s.version.Keys == s.table.Keys && s.got.Keys == s.table.Keys && p in s.table
    requires AcceptedStep(s, s', p, job, e, got, finished) && job in s.issued && s.issued[job].path == p
    ensures OnlyEntry(s, s', p)
  {
  }

  lemma AcceptedInv(s: Sys, a: Answer)
    requires Inv(s) && Genuine(s, a) && a.path in s.table && Receive(s.table, a) != Ignored
    ensures Inv(AfterReceive(s, a))
  {
    var p, s' := a.path, AfterReceive(s, a);
    assert EntryInv(s, p);
    AcceptedIsCurrent(s, a);
    AcceptedEntry(s.table[p], p, s.version[p], s.got[p], s.issued, s.accepted, s.saved, a);
    ReceiveShape(s, a);
    var r := Accept(s.table[p].(outstanding := DropId(s.table[p].outstanding, a.job)), a);
    AcceptedAssembled(s, s', p, a.job, r.entry, if r.Requeued? then s.got[p] else s.got[p] + {a.chunk}, r.Finished?);
  }

  lemma AcceptedAssembled(s: Sys, s': Sys, p: Bytes, job: nat, e: Entry, got: set<nat>, finished: bool)
    requires Inv(s) && p in s.table && AcceptedStep(s, s', p, job, e, got, finished)
    requires job in s.issued && s.issued[job].path == p && job !in s.accepted && (p, s.version[p]) !in s.saved
    requires EntryOk(e, p, s.version[p], got, s.issued, s'.accepted, s'.saved)
    requires |e.owners| == |s.table[p].owners| && s.got[p] != AllChunks(|e.owners|)
    requires finished <==> got == AllChunks(|e.owners|)
    ensures Inv(s')
  {
    assert EntryInv(s, p);
    AcceptedHistory(s, s', p, job, e, got, finished);
    AcceptedShape(s, s', p, job, e, got, finished);
    OneEntry(s, s', p);
  }

  // ---------------------------------------------------------------- the other steps

  lemma RemoveInv(s: Sys, p: Bytes)
    requires Inv(s)
    ensures Inv(AfterRemove(s, p))
  {
    RemoveShape(s, p);
    OneEntry(s, AfterRemove(s, p), p);
  }

  lemma RemoveShape(s: Sys, p: Bytes)
    requires s.version.Keys == s.table.Keys && s.got.Keys == s.table.Keys
    ensures OnlyEntry(s, AfterRemove(s, p), p)
  {
  }

  lemma TouchShape(s: Sys, p: Bytes, e: Entry)
    requires s.version.Keys == s.table.Keys && s.got.Keys == s.table.Keys && p in s.table
    ensures OnlyEntry(s, WithTable(s, p, e), p)
  {
  }

  lemma DownloadShape(s: Sys, x: Addition, author: int)
    requires s.version.Keys == s.table.Keys && s.got.Keys == s.table.Keys
    ensures OnlyEntry(s, AfterDownload(s, x, author), x.path)
  {
  }

  lemma ShareShape(s: Sys, x: Addition, self: int)
    requires s.version.Keys == s.table.Keys && s.got.Keys == s.table.Keys
    ensures OnlyEntry(s, AfterShare(s, x, self), x.path)
  {
  }

  lemma DownloadHistory(s: Sys, x: Addition, author: int)
    requires History(s)
    ensures History(AfterDownload(s, x, author))
    ensures (x.path, s.nextVersion) !in s.saved
  {
  }

  lemma DownloadInv(s: Sys, x: Addition, author: int)
    requires Inv(s) && multiset(x.order) == multiset(AllChunks(x.chunks))
    ensures Inv(AfterDownload(s, x, author))
  {
    var s' := AfterDownload(s, x, author);
    DownloadHistory(s, x, author);
    FreshEntry(x, author, s.nextVersion, s.issued, s.accepted, s'.saved);
    DownloadShape(s, x, author);
    OneEntry(s, s', x.path);
  }

  lemma FreshEntry(x: Addition, author: int, v: nat, issued: map<nat, Request>, accepted: seq<nat>, saved: seq<(Bytes, nat)>)
    requires multiset(x.order) == multiset(AllChunks(x.chunks))
    requires (x.path, v) in saved ==> x.chunks == 0
    ensures EntryOk(NewDownload(x, author), x.path, v, {}, issued, accepted, saved)
  {
    var e := NewDownload(x, author);
    assert JobChunks(e.outstanding, issued) == [];
    assert x.chunks > 0 ==> 0 in AllChunks(x.chunks);
  }

  lemma ShareHistory(s: Sys, x: Addition, self: int)
    requires History(s)
    ensures History(AfterShare(s, x, self))
    ensures (x.path, s.nextVersion) !in s.saved
  {
  }

  lemma ShareInv(s: Sys, x: Addition, self: int)
    requires Inv(s)
    ensures Inv(AfterShare(s, x, self))
  {
    ShareHistory(s, x, self);
    SharedEntry(x, self, s.nextVersion, s.issued, s.accepted, s.saved);
    ShareShape(s, x, self);
    OneEntry(s, AfterShare(s, x, self), x.path);
  }

  lemma SharedEntry(x: Addition, self: int, v: nat, issued: map<nat, Request>, accepted: seq<nat>, saved: seq<(Bytes, nat)>)
    ensures EntryOk(NewShared(x, self), x.path, v, AllChunks(x.chunks), issued, accepted, saved)
  {
    assert JobChunks([], issued) == [];
  }

  // Owner lists and reading buffers do not matter to the invariant.
  lemma TouchInv(s: Sys, p: Bytes, e: Entry)
    requires Inv(s) && p in s.table
    requires |e.owners| == |s.table[p].owners| && e.work == s.table[p].work && e.outstanding == s.table[p].outstanding
    requires e.file == s.table[p].file || (s.table[p].file.None? && e.file.Some? && !e.file.value.forWriting)
    ensures Inv(WithTable(s, p, e))
  {
    TouchedAt(s, p, e);
    TouchShape(s, p, e);
    TouchHistory(s, p, e);
    OneEntry(s, WithTable(s, p, e), p);
  }

  lemma TouchHistory(s: Sys, p: Bytes, e: Entry)
    requires History(s)
    ensures History(WithTable(s, p, e))
  {
  }

  lemma TouchedAt(s: Sys, p: Bytes, e: Entry)
    requires KnownPath(s, p) && EntryInv(s, p)
    requires |e.owners| == |s.table[p].owners| && e.work == s.table[p].work && e.outstanding == s.table[p].outstanding
    requires e.file == s.table[p].file || (s.table[p].file.None? && e.file.Some? && !e.file.value.forWriting)
    ensures EntryInv(WithTable(s, p, e), p)
  {
    TouchedEntry(s.table[p], e, p, s.version[p], s.got[p], s.issued, s.accepted, s.saved);
  }

  lemma TouchedEntry(e: Entry, e': Entry, p: Bytes, v: nat, got: set<nat>, issued: map<nat, Request>,
                     accepted: seq<nat>, saved: seq<(Bytes, nat)>)
    requires EntryOk(e, p, v, got, issued, accepted, saved)
    requires |e'.owners| == |e.owners| && e'.work == e.work && e'.outstanding == e.outstanding
    requires e'.file == e.file || (e.file.None? && e'.file.Some? && !e'.file.value.forWriting)
    ensures EntryOk(e', p, v, got, issued, accepted, saved)
  {
  }

  lemma TouchStep(s: Sys, act: Action)
    requires Inv(s) && Enabled(s, act) && (act.LosePeer? || act.GotChunk? || act.Serve?)
    ensures Inv(After(s, act))
  {
    var p := act.path;
    TouchInv(s, p, After(s, act).table[p]);
  }

  // ---------------------------------------------------------------- master messages

  lemma RefetchShape(s: Sys, p: Bytes, chunks: nat, order: seq<nat>)
    requires s.version.Keys == s.table.Keys && s.got.Keys == s.table.Keys && p in s.table
    ensures OnlyEntry(s, AfterRefetch(s, p, chunks, order), p)
  {
  }

  lemma RefetchHistory(s: Sys, p: Bytes, chunks: nat, order: seq<nat>)
    requires History(s) && p in s.table
    ensures History(AfterRefetch(s, p, chunks, order))
    ensures (p, s.nextVersion) !in s.saved
  {
  }

  // When nothing is on its way, everything is queued once; otherwise some chunk is on its way twice.
  lemma RefetchPartition(e: Entry, chunks: nat, order: seq<nat>, got: set<nat>, issued: map<nat, Request>)
    requires multiset(order) == multiset(e.work) + multiset(AllChunks(chunks))
    ensures chunks == |e.owners| ==>
              (Partition(Refetched(e, chunks, order), {}, issued) <==> e.work == [] && e.outstanding == [])
    ensures Partition(e, got, issued) && chunks == |e.owners| ==>
              (Partition(Refetched(e, chunks, order), got, issued) <==> |e.owners| == 0)
  {
  }

  // A master message keeps the invariant exactly when the entry is quiet.
  lemma RefetchKeepsInvIff(s: Sys, p: Bytes, chunks: nat, order: seq<nat>)
    requires Inv(s) && Enabled(s, Refetch(p, chunks, order))
    ensures Inv(AfterRefetch(s, p, chunks, order)) <==> Quiet(s.table[p], chunks)
  {
    var e, s' := s.table[p], AfterRefetch(s, p, chunks, order);
    RefetchHistory(s, p, chunks, order);
    RefetchShape(s, p, chunks, order);
    RefetchPartition(e, chunks, order, {}, s.issued);
    assert EntryInv(s, p);
    if Quiet(e, chunks) {
      QuietEntry(s, p, chunks, order);
      OneEntry(s, s', p);
    } else {
      UnquietEntry(s, p, chunks, order);
      assert p in s'.table;
    }
  }

  lemma QuietEntry(s: Sys, p: Bytes, chunks: nat, order: seq<nat>)
    requires p in s.table && Quiet(s.table[p], chunks) && (p, s.nextVersion) !in s.saved
    requires Partition(Refetched(s.table[p], chunks, order), {}, s.issued)
    ensures EntryInv(AfterRefetch(s, p, chunks, order), p)
  {
    assert 0 in AllChunks(chunks);
  }

  lemma UnquietEntry(s: Sys, p: Bytes, chunks: nat, order: seq<nat>)
    requires History(s) && KnownPath(s, p) && EntryInv(s, p) && !Quiet(s.table[p], chunks)
    requires multiset(order) == multiset(s.table[p].work) + multiset(AllChunks(chunks))
    ensures !EntryInv(AfterRefetch(s, p, chunks, order), p)
  {
    var e := s.table[p];
    RefetchHistory(s, p, chunks, order);
    RefetchPartition(e, chunks, order, {}, s.issued);
    if e.outstanding != [] {
      assert e.outstanding[0] in Refetched(e, chunks, order).outstanding;
    } else if |e.owners| > 0 {
      assert 0 in AllChunks(|e.owners|);
    }
  }

  // ---------------------------------------------------------------- whole runs

  lemma StepInv(s: Sys, act: Action)
    requires Inv(s) && Enabled(s, act)
    ensures Inv(After(s, act)) <==> QuietStep(s, act)
  {
    match act
    case IssueJob(p, draw) => IssueInv(s, p, draw);
    case Deliver(a) => ReceiveInv(s, a);
    case RemoveEntry(p) => RemoveInv(s, p);
    case AddDownload(x, author) => DownloadInv(s, x, author);
    case AddShared(x, self) => ShareInv(s, x, self);
    case Refetch(p, chunks, order) => RefetchKeepsInvIff(s, p, chunks, order);
    case _ => TouchStep(s, act);
  }

  // The invariant holds at every state of the run.
  ghost predicate AlwaysInv(s: Sys, acts: seq<Action>)
    decreases |acts|
  {
    Inv(s) && (acts != [] && Enabled(s, acts[0]) ==> AlwaysInv(After(s, acts[0]), acts[1..]))
  }

  // It does exactly when every master message of the run comes for a quiet entry.
  lemma {:induction false} RunInv(s: Sys, acts: seq<Action>, s': Sys)
    requires Inv(s) && Run(s, acts, s')
    ensures AlwaysInv(s, acts) <==> QuietRun(s, acts, s')
    ensures AlwaysInv(s, acts) ==> Inv(s')
    decreases |acts|
  {
    if acts == [] {
    } else {
      StepInv(s, acts[0]);
      if Inv(After(s, acts[0])) {
        RunInv(After(s, acts[0]), acts[1..], s');
      }
    }
  }

  lemma {:induction false} QuietIsRun(s: Sys, acts: seq<Action>, s': Sys)
    requires QuietRun(s, acts, s')
    ensures Run(s, acts, s')
    decreases |acts|
  {
    if acts == [] {
    } else {
      QuietIsRun(After(s, acts[0]), acts[1..], s');
    }
  }

  lemma QuietRunInv(s: Sys, acts: seq<Action>, s': Sys)
    requires Init(s) && QuietRun(s, acts, s')
    ensures Inv(s')
  {
    InitInv(s);
    QuietIsRun(s, acts, s');
    RunInv(s, acts, s');
  }

  // Over every such run, queued, in-flight and received chunks of each entry partition the file; so when
  // all chunks of a file are received nothing of it is queued or in flight. A file to fetch is
  // written exactly when all its chunks are in, and once per version; no other file is written. At
  // most 15 requests of a file are outstanding, and no job is accepted twice.
  lemma DownloadsConserved(s: Sys, acts: seq<Action>, s': Sys, p: Bytes)
    requires Init(s) && QuietRun(s, acts, s') && p in s'.table
    ensures p in s'.got && Partition(s'.table[p], s'.got[p], s'.issued)
    ensures s'.got[p] == AllChunks(|s'.table[p].owners|) ==>
              s'.table[p].work == [] && s'.table[p].outstanding == []
    ensures |s'.table[p].outstanding| <= 15
    ensures p in s'.version
    ensures s'.version[p] in s'.fetched ==>
              (s'.got[p] == AllChunks(|s'.table[p].owners|) <==> (p, s'.version[p]) in s'.saved)
    ensures forall x :: x in s'.saved ==> x.1 in s'.fetched
    ensures forall j, k :: 0 <= j < k < |s'.saved| ==> s'.saved[j] != s'.saved[k]
    ensures forall j, k :: 0 <= j < k < |s'.accepted| ==> s'.accepted[j] != s'.accepted[k]
  {
    QuietRunInv(s, acts, s');
    assert EntryInv(s', p);
    if s'.got[p] == AllChunks(|s'.table[p].owners|) {
      NothingLeft(s'.table[p], s'.got[p], s'.issued);
    }
  }

  lemma NothingLeft(e: Entry, got: set<nat>, issued: map<nat, Request>)
    requires Partition(e, got, issued) && got == AllChunks(|e.owners|)
    ensures e.work == [] && e.outstanding == []
  {
    var work, jobs := multiset(e.work), multiset(JobChunks(e.outstanding, issued));
    assert |work + jobs + multiset(got)| == |work| + |jobs| + |multiset(got)|;
    assert |work| == |e.work|;
    assert e.outstanding != [] ==> JobChunks(e.outstanding, issued) != [];
  }

  // Over every such run, each accepted answer was asked for by the version of the entry that takes it.
  lemma StaleNeverApplied(s: Sys, acts: seq<Action>, s': Sys, a: Answer)
    requires Init(s) && QuietRun(s, acts, s') && Genuine(s', a) && a.path in s'.table
    ensures a.path in s'.version
    ensures Receive(s'.table, a) != Ignored ==>
              && s'.issued[a.job] == Request(a.path, s'.version[a.path], a.chunk)
              && a.job !in s'.accepted && !Receive(s'.table, a).Fault? && !Receive(s'.table, a).Dropped?
  {
    QuietRunInv(s, acts, s');
    if Receive(s'.table, a) != Ignored {
      AcceptedIsCurrent(s', a);
      ReceiveFaultsIff(s', a);
    }
  }

  // ---------------------------------------------------------------- whom a file is fetched from

  // No chunk of the entry has another owner.
  ghost predicate OwnedOnlyBy(e: Entry, peer: int) {
    forall c, x :: 0 <= c < |e.owners| && x in e.owners[c] ==> x == peer
  }

  // The step neither adds an owner to the entry of p nor makes a new one.
  predicate AddsNoOwner(act: Action, p: Bytes) {
    match act
    case GotChunk(q, c, peer) => q != p
    case AddDownload(x, author) => x.path != p
    case AddShared(x, self) => x.path != p
    case _ => true
  }

  lemma StepOwners(s: Sys, act: Action, p: Bytes, peer: int)
    requires Enabled(s, act) && AddsNoOwner(act, p)
    requires p in s.table ==> OwnedOnlyBy(s.table[p], peer)
    ensures p in After(s, act).table ==> OwnedOnlyBy(After(s, act).table[p], peer)
  {
    if p in After(s, act).table {
      assert p in s.table;
      var e, e' := s.table[p], After(s, act).table[p];
      assert |e'.owners| == |e.owners|;
      forall c, x | 0 <= c < |e'.owners| && x in e'.owners[c] ensures x in e.owners[c] {
      }
    }
  }

  lemma {:induction false} RunOwners(s: Sys, acts: seq<Action>, s': Sys, p: Bytes, peer: int)
    requires Run(s, acts, s') && forall i :: 0 <= i < |acts| ==> AddsNoOwner(acts[i], p)
    requires p in s.table ==> OwnedOnlyBy(s.table[p], peer)
    ensures p in s'.table ==> OwnedOnlyBy(s'.table[p], peer)
    decreases |acts|
  {
    if acts == [] {
    } else {
      StepOwners(s, acts[0], p, peer);
      RunOwners(After(s, acts[0]), acts[1..], s', p, peer);
    }
  }

  // From the diff that announces a file until another peer is heard to have a chunk of it, all its
  // requests go to the author of the diff.
  lemma RequestsGoToAuthor(s: Sys, x: Addition, author: int, acts: seq<Action>, s': Sys, draw: nat)
    requires Run(s, [AddDownload(x, author)] + acts, s')
    requires forall i :: 0 <= i < |acts| ==> AddsNoOwner(acts[i], x.path)
    requires Enabled(s', IssueJob(x.path, draw))
    ensures GetJob(s'.table[x.path], MAX_PENDING_REQUESTS, s'.nextId, draw).job.peer == author
  {
    assert ([AddDownload(x, author)] + acts)[1..] == acts;
    RunOwners(After(s, AddDownload(x, author)), acts, s', x.path, author);
    var e := s'.table[x.path];
    var c := e.work[0];
    assert e.owners[c][draw % |e.owners[c]|] in e.owners[c];
  }

  // ---------------------------------------------------------------- what does happen

  function Empty(): Sys {
    Sys(map[], 1, map[], 0, map[], map[], [], [], {})
  }

  function OneChunk(p: Bytes): Addition {
    Addition(p, 1, [0])
  }

  // A client without files is told of a file of one chunk and asks for the chunk.
  lemma FirstJob(p: Bytes) returns (s: Sys)
    ensures Init(Empty()) && QuietRun(Empty(), [AddDownload(OneChunk(p), 1), IssueJob(p, 0)], s)
    ensures s.table == map[p := Entry([[1]], [], [1], Some(Buffer(true, [false])))]
    ensures s.nextId == 2 && s.nextVersion == 1
    ensures s.version == map[p := 0] && s.got == map[p := {}] && s.issued == map[1 := Request(p, 0, 0)]
  {
    var m := AfterDownload(Empty(), OneChunk(p), 1);
    assert SoleOwner(1, 1) == [[1]];
    assert AllChunks(1) == {0} && NewFlags(1) == [false];
    assert m.table == map[p := Entry([[1]], [0], [], Some(Buffer(true, [false])))];
    IssueOnly(m, p, [], Some(Buffer(true, [false])));
    assert [] + [1] == [1];
    s := AfterIssue(m, p, 0);
    TwoSteps(Empty(), AddDownload(OneChunk(p), 1), IssueJob(p, 0), s);
  }

  // Issuing the only job there is.
  lemma IssueOnly(s: Sys, p: Bytes, ids: seq<nat>, file: Option<Buffer>)
    requires s.table == map[p := Entry([[1]], [0], ids, file)] && p in s.version
    requires |ids| < MAX_PENDING_REQUESTS
    ensures GetJob(s.table[p], MAX_PENDING_REQUESTS, s.nextId, 0).Issued?
    ensures AfterIssue(s, p, 0).table == map[p := Entry([[1]], [], ids + [s.nextId], file)]
    ensures AfterIssue(s, p, 0).issued == s.issued[s.nextId := Request(p, s.version[p], 0)]
  {
    var e := s.table[p];
    assert [0][1..] == [];
    assert GetJob(e, MAX_PENDING_REQUESTS, s.nextId, 0)
        == Issued(Entry([[1]], [], ids + [s.nextId], file), Job(0, 1, s.nextId));
  }

  lemma TwoSteps(s: Sys, a: Action, b: Action, s': Sys)
    requires Enabled(s, a) && QuietStep(s, a) && Enabled(After(s, a), b) && QuietStep(After(s, a), b)
    requires s' == After(After(s, a), b)
    ensures QuietRun(s, [a, b], s')
  {
    assert [a, b][1..] == [b] && [b][1..] == [];
    assert QuietRun(After(s, a), [b], s');
  }

  // The fault happens: the file is deleted while the answer is under way.
  lemma DeletedPathHappens(p: Bytes) returns (asked: Sys, gone: Sys)
    ensures Init(Empty()) && QuietRun(Empty(), [AddDownload(OneChunk(p), 1), IssueJob(p, 0)], asked)
    ensures QuietRun(asked, [RemoveEntry(p)], gone)
    ensures Genuine(gone, Answer(p, 0, 1, true)) && Receive(gone.table, Answer(p, 0, 1, true)) == Fault
  {
    asked := FirstJob(p);
    gone := AfterRemove(asked, p);
    assert [RemoveEntry(p)][1..] == [];
    DeletedPathFaults(asked, Answer(p, 0, 1, true));
  }

  // The master message and the second request.
  lemma SecondJob(p: Bytes, asked: Sys) returns (twice: Sys)
    requires asked.table == map[p := Entry([[1]], [], [1], Some(Buffer(true, [false])))]
    requires asked.nextId == 2 && p in asked.version && p in asked.got && asked.issued == map[1 := Request(p, 0, 0)]
    ensures Run(asked, [Refetch(p, 1, [0]), IssueJob(p, 0)], twice)
    ensures twice.table == map[p := Entry([[1]], [], [1, 2], Some(Buffer(true, [false])))]
    ensures p in twice.version && p in twice.got
    ensures 1 in twice.issued && twice.issued[1] == Request(p, 0, 0)
    ensures 2 in twice.issued && twice.issued[2].path == p && twice.issued[2].chunk == 0
  {
    assert AllChunks(1) == {0} && NewFlags(1) == [false];
    var m := AfterRefetch(asked, p, 1, [0]);
    assert m.table == map[p := Entry([[1]], [0], [1], Some(Buffer(true, [false])))];
    IssueOnly(m, p, [1], Some(Buffer(true, [false])));
    assert [1] + [2] == [1, 2];
    twice := AfterIssue(m, p, 0);
    assert [Refetch(p, 1, [0]), IssueJob(p, 0)][1..] == [IssueJob(p, 0)] && [IssueJob(p, 0)][1..] == [];
    assert Run(m, [IssueJob(p, 0)], twice);
  }

  lemma FirstAnswer(s: Sys, p: Bytes)
    requires s.table == map[p := Entry([[1]], [], [1, 2], Some(Buffer(true, [false])))]
    requires p in s.version && p in s.got
    ensures Receive(s.table, Answer(p, 0, 1, true)) == Finished(Entry([[1]], [], [2], None))
  {
    assert DropId([1, 2], 1) == [2];
    assert AllWritten(Buffer(true, [false][0 := true]));
  }

  // A master message that comes while the chunk is outstanding has it fetched twice: the first answer
  // completes the file, and the second is taken off the list and dropped.
  lemma RefetchDropsAnswer(p: Bytes) returns (asked: Sys, twice: Sys, last: Sys)
    ensures Init(Empty()) && QuietRun(Empty(), [AddDownload(OneChunk(p), 1), IssueJob(p, 0)], asked)
    ensures Run(asked, [Refetch(p, 1, [0]), IssueJob(p, 0)], twice)
    ensures Run(twice, [Deliver(Answer(p, 0, 1, true))], last)
    ensures Receive(twice.table, Answer(p, 0, 1, true)).Finished?
    ensures Genuine(last, Answer(p, 0, 2, true)) && Receive(last.table, Answer(p, 0, 2, true)).Dropped?
  {
    asked := FirstJob(p);
    twice := SecondJob(p, asked);
    FirstAnswer(twice, p);
    last := AfterReceive(twice, Answer(p, 0, 1, true));
    assert [Deliver(Answer(p, 0, 1, true))][1..] == [];
  }
}
