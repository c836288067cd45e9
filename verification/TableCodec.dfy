// filetable_serialize and filetable_deserialize.
module TableCodec {
  import opened Basics
  import opened Decimal
  import opened HashTable
  import TreeCodec

  const START_TABLE: byte := 0xFF
  const START_ENTRY: byte := 0xFE
  const START_CHUNK: byte := 0xFC
  const START_ID: byte := 0xFB
  const END_CHUNK: byte := 0xFA
  const END_ENTRY: byte := 0xF8
  const END_TABLE: byte := 0xF7

  // A file table entry: the owners of each chunk, and the two queues of a download.
  datatype Entry = Entry(chunks: seq<seq<int>>, work: seq<nat>, outstanding: seq<nat>)

  type Buckets = seq<seq<Element<Entry>>>

  // ---------------------------------------------------------------- writing

  function WriteId(peer: int): Bytes {
    [START_ID] + TreeCodec.CString(Print(peer))
  }

  function WriteIds(ids: seq<int>): Bytes {
    if ids == [] then [] else WriteId(ids[0]) + WriteIds(ids[1..])
  }

  function WriteChunks(cs: seq<seq<int>>): Bytes {
    if cs == [] then [] else [START_CHUNK] + (WriteIds(cs[0]) + ([END_CHUNK] + WriteChunks(cs[1..])))
  }

  function WriteEntry(e: Element<Entry>): Bytes {
    [START_ENTRY] + (TreeCodec.CString(e.key) + (WriteChunks(e.value.chunks) + [END_ENTRY]))
  }

  function WriteEntries(es: seq<Element<Entry>>): Bytes {
    if es == [] then [] else WriteEntry(es[0]) + WriteEntries(es[1..])
  }

  // filetable_serialize of a table with these elements in iteration order
  function WriteTable(es: seq<Element<Entry>>): Bytes {
    [START_TABLE] + (WriteEntries(es) + [END_TABLE])
  }

  lemma SampleIds()
    ensures WriteIds([5]) == [0xFB, 53, 0] && WriteIds([5, 12]) == [0xFB, 53, 0, 0xFB, 49, 50, 0]
  {
    assert Print(12) == [49, 50] && Print(5) == [53];
    assert [5, 12][1..] == [12] && [12][1..] == [] && [5][1..] == [];
    assert WriteId(5) == [0xFB, 53, 0] && WriteId(12) == [0xFB, 49, 50, 0];
  }

  lemma TwoChunks(c: seq<int>, d: seq<int>)
    ensures WriteChunks([c, d]) == [START_CHUNK] + (WriteIds(c) + ([END_CHUNK] + ([START_CHUNK] + (WriteIds(d) + [END_CHUNK]))))
  {
    assert [c, d][1..] == [d] && [d][1..] == [];
    assert [END_CHUNK] + [] == [END_CHUNK];
    assert WriteChunks([d]) == [START_CHUNK] + (WriteIds(d) + ([END_CHUNK] + WriteChunks([])));
    assert WriteChunks([c, d]) == [START_CHUNK] + (WriteIds(c) + ([END_CHUNK] + WriteChunks([d])));
  }

  lemma OneEntry(e: Element<Entry>)
    ensures WriteTable([e]) == [START_TABLE] + (WriteEntry(e) + [END_TABLE])
  {
    assert [e][1..] == [] && WriteEntries([e]) == WriteEntry(e) + [];
    assert WriteEntry(e) + [] == WriteEntry(e);
  }

  lemma SampleChunks()
    ensures WriteChunks([[5], [5, 12]])
         == [0xFC, 0xFB, 53, 0, 0xFA, 0xFC, 0xFB, 53, 0, 0xFB, 49, 50, 0, 0xFA]
  {
    SampleIds();
    TwoChunks([5], [5, 12]);
  }

  // The bytes of a table with the file "/a", whose chunk 0 is owned by 5 and chunk 1 by 5 and 12.
  lemma SampleTable()
    ensures WriteTable([Element([47, 97], Entry([[5], [5, 12]], [1], [9]))])
         == [0xFF] + ([0xFE] + ([47, 97, 0] + ([0xFC, 0xFB, 53, 0, 0xFA, 0xFC, 0xFB, 53, 0, 0xFB, 49, 50, 0, 0xFA] + [0xF8]))
                      + [0xF7])
  {
    SampleChunks();
    OneEntry(Element([47, 97], Entry([[5], [5, 12]], [1], [9])));
    assert TreeCodec.CString([47, 97]) == [47, 97, 0];
  }

  // ---------------------------------------------------------------- reading

  // The variables of the flat loop. A finished chunk or entry is forgotten, where the source keeps
  // an alias that no well-formed buffer lets it use.
  datatype State = State(table: Option<Buckets>, entry: Option<Element<Entry>>, chunk: Option<seq<int>>)

  // One turn of the switch on a non-final marker: the new state and the bytes left. None where the
  // source asserts, follows an unset pointer or leaves the buffer.
  function Turn(s: Bytes, st: State, ix: Bytes -> nat): (r: Option<(State, Bytes)>)
    requires InTable(ix)
    requires st.table.Some? ==> |st.table.value| == TABLE_SIZE
    ensures r.Some? ==> |r.value.1| < |s|
    ensures r.Some? && r.value.0.table.Some? ==> |r.value.0.table.value| == TABLE_SIZE
  {
    if s == [] then None
    else if s[0] == START_TABLE then Some((st.(table := Some(EmptyTable())), s[1..]))
    else if s[0] == START_ENTRY then
      match TreeCodec.ReadString(s[1..])
      case None => None
      case Some((path, rest)) => Some((st.(entry := Some(Element(path, Entry([], [], [])))), rest))
    else if s[0] == START_CHUNK then Some((st.(chunk := Some([])), s[1..]))
    else if s[0] == START_ID then
      match ScanNumber(s[1..])
      case None => None
      case Some((v, rest)) =>
        if st.chunk.None? || rest == [] then None
        else Some((st.(chunk := Some(st.chunk.value + [ToInt(ToLong(v))])), rest[1..]))
    else if s[0] == END_CHUNK then
      if st.entry.None? || st.chunk.None? then None
      else
        var e := st.entry.value;
        var e' := Element(e.key, e.value.(chunks := e.value.chunks + [st.chunk.value]));
        Some((st.(entry := Some(e'), chunk := None), s[1..]))
    else if s[0] == END_ENTRY then
      if st.table.None? || st.entry.None? then None
      else
        var t := Appended(st.table.value, st.entry.value, ix);
        Some((st.(table := Some(t), entry := None), s[1..]))
    else None
  }

  function Run(s: Bytes, st: State, ix: Bytes -> nat): Option<(Buckets, Bytes)>
    requires InTable(ix)
    requires st.table.Some? ==> |st.table.value| == TABLE_SIZE
    decreases |s|
  {
    if s != [] && s[0] == END_TABLE then
      if st.table.None? then None else Some((st.table.value, s[1..]))
    else
      match Turn(s, st, ix)
      case None => None
      case Some((st', rest)) => Run(rest, st', ix)
  }

  // The table and the number of bytes read.
  function Deserialize(data: Bytes, ix: Bytes -> nat): Option<(Buckets, nat)>
    requires InTable(ix)
  {
    if data == [] || data[0] != START_TABLE then None
    else
      match Run(data, State(None, None, None), ix)
      case None => None
      case Some((t, rest)) => if |rest| <= |data| then Some((t, |data| - |rest|)) else None
  }

  // ---------------------------------------------------------------- the round trip

  // What travels of a table: paths and owners.
  function ClearedElement(e: Element<Entry>): Element<Entry> {
    Element(e.key, Entry(e.value.chunks, [], []))
  }

  function ClearedBucket(b: seq<Element<Entry>>): (r: seq<Element<Entry>>)
    ensures |r| == |b| && forall i :: 0 <= i < |b| ==> r[i] == ClearedElement(b[i])
  {
    seq(|b|, i requires 0 <= i < |b| => ClearedElement(b[i]))
  }

  function Cleared(t: Buckets): (r: Buckets)
    ensures |r| == |t| && forall i :: 0 <= i < |t| ==> r[i] == ClearedBucket(t[i])
  {
    seq(|t|, i requires 0 <= i < |t| => ClearedBucket(t[i]))
  }

  // Paths without NUL, peers that fit an int.
  ghost predicate Encodable(e: Element<Entry>) {
    && NUL !in e.key
    && forall i, j :: 0 <= i < |e.value.chunks| && 0 <= j < |e.value.chunks[i]| ==>
         -INT_LIMIT <= e.value.chunks[i][j] < INT_LIMIT
  }

  // A state ready for the table t.
  ghost predicate Sized(t: Buckets) {
    |t| == TABLE_SIZE
  }

  lemma Lead(b: byte, s: Bytes)
    ensures [b] + s != [] && ([b] + s)[0] == b && ([b] + s)[1..] == s
  {
  }

  lemma IdShape(peer: int, rest: Bytes)
    ensures WriteId(peer) + rest == [START_ID] + (Print(peer) + ([NUL] + rest))
  {
    Associate([START_ID], TreeCodec.CString(Print(peer)), rest);
    Associate(Print(peer), [NUL], rest);
  }

  lemma IdTurn(peer: int, rest: Bytes, st: State, ix: Bytes -> nat)
    requires InTable(ix)
    requires st.table.Some? && Sized(st.table.value) && st.chunk.Some?
    requires -INT_LIMIT <= peer < INT_LIMIT
    ensures Turn([START_ID] + (Print(peer) + ([NUL] + rest)), st, ix)
         == Some((st.(chunk := Some(st.chunk.value + [peer])), rest))
  {
    Lead(START_ID, Print(peer) + ([NUL] + rest));
    Lead(NUL, rest);
    ScanPrinted(peer, [NUL] + rest);
  }

  // Run goes on after a turn.
  lemma RunTurn(s: Bytes, st: State, st': State, rest: Bytes, ix: Bytes -> nat)
    requires InTable(ix)
    requires st.table.Some? && Sized(st.table.value)
    requires s != [] && s[0] != END_TABLE && Turn(s, st, ix) == Some((st', rest))
    ensures Run(s, st, ix) == Run(rest, st', ix)
  {
  }

  lemma IdRun(peer: int, rest: Bytes, st: State, st': State, ix: Bytes -> nat)
    requires InTable(ix)
    requires st.table.Some? && Sized(st.table.value) && st.chunk.Some?
    requires -INT_LIMIT <= peer < INT_LIMIT && st' == st.(chunk := Some(st.chunk.value + [peer]))
    ensures Run(WriteId(peer) + rest, st, ix) == Run(rest, st', ix)
  {
    IdShape(peer, rest);
    IdTurn(peer, rest, st, ix);
    RunTurn(WriteId(peer) + rest, st, st', rest, ix);
  }

  lemma IdsShape(ids: seq<int>, rest: Bytes)
    requires ids != []
    ensures WriteIds(ids) + rest == WriteId(ids[0]) + (WriteIds(ids[1..]) + rest)
  {
    Associate(WriteId(ids[0]), WriteIds(ids[1..]), rest);
  }

  lemma {:induction false} IdsRun(ids: seq<int>, rest: Bytes, st: State, st': State, ix: Bytes -> nat)
    requires InTable(ix)
    requires st.table.Some? && Sized(st.table.value) && st.chunk.Some?
    requires forall i :: 0 <= i < |ids| ==> -INT_LIMIT <= ids[i] < INT_LIMIT
    requires st' == st.(chunk := Some(st.chunk.value + ids))
    ensures Run(WriteIds(ids) + rest, st, ix) == Run(rest, st', ix)
    decreases |ids|
  {
    if ids == [] {
      NothingAdded(rest, st.chunk.value);
    } else {
      IdsShape(ids, rest);
      Regroup(st.chunk.value, ids);
      var mid := st.(chunk := Some(st.chunk.value + [ids[0]]));
      IdRun(ids[0], WriteIds(ids[1..]) + rest, st, mid, ix);
      IdsRun(ids[1..], rest, mid, st', ix);
    }
  }

  function WithChunks(st: State, path: Bytes, cs: seq<seq<int>>): State {
    st.(entry := Some(Element(path, Entry(cs, [], []))), chunk := None)
  }

  lemma ChunkRun(path: Bytes, gs: seq<seq<int>>, c: seq<int>, rest: Bytes, st: State, ix: Bytes -> nat)
    requires InTable(ix)
    requires st.table.Some? && Sized(st.table.value)
    requires forall j :: 0 <= j < |c| ==> -INT_LIMIT <= c[j] < INT_LIMIT
    ensures Run([START_CHUNK] + (WriteIds(c) + ([END_CHUNK] + rest)), WithChunks(st, path, gs), ix)
         == Run(rest, WithChunks(st, path, gs + [c]), ix)
  {
    var now := WithChunks(st, path, gs);
    var end := [END_CHUNK] + rest;
    ChunkOpens(now, WriteIds(c) + end, ix);
    NothingAdded(c, c);
    IdsRun(c, end, now.(chunk := Some([])), now.(chunk := Some(c)), ix);
    ChunkCloses(path, gs, c, rest, st, ix);
  }

  lemma ChunkOpens(st: State, body: Bytes, ix: Bytes -> nat)
    requires InTable(ix) && st.table.Some? && Sized(st.table.value)
    ensures Run([START_CHUNK] + body, st, ix) == Run(body, st.(chunk := Some([])), ix)
  {
    Lead(START_CHUNK, body);
    RunTurn([START_CHUNK] + body, st, st.(chunk := Some([])), body, ix);
  }

  lemma ChunkCloses(path: Bytes, gs: seq<seq<int>>, c: seq<int>, rest: Bytes, st: State, ix: Bytes -> nat)
    requires InTable(ix) && st.table.Some? && Sized(st.table.value)
    ensures Run([END_CHUNK] + rest, WithChunks(st, path, gs).(chunk := Some(c)), ix)
         == Run(rest, WithChunks(st, path, gs + [c]), ix)
  {
    Lead(END_CHUNK, rest);
    RunTurn([END_CHUNK] + rest, WithChunks(st, path, gs).(chunk := Some(c)), WithChunks(st, path, gs + [c]), rest, ix);
  }

  lemma ChunksShape(cs: seq<seq<int>>, rest: Bytes)
    requires cs != []
    ensures WriteChunks(cs) + rest
         == [START_CHUNK] + (WriteIds(cs[0]) + ([END_CHUNK] + (WriteChunks(cs[1..]) + rest)))
  {
    var a, b := WriteIds(cs[0]), WriteChunks(cs[1..]);
    Associate([START_CHUNK], a + ([END_CHUNK] + b), rest);
    Associate(a, [END_CHUNK] + b, rest);
    Associate([END_CHUNK], b, rest);
  }

  lemma {:induction false} ChunksRun(path: Bytes, gs: seq<seq<int>>, cs: seq<seq<int>>, rest: Bytes, st: State, ix: Bytes -> nat)
    requires InTable(ix)
    requires st.table.Some? && Sized(st.table.value)
    requires forall i, j :: 0 <= i < |cs| && 0 <= j < |cs[i]| ==> -INT_LIMIT <= cs[i][j] < INT_LIMIT
    ensures Run(WriteChunks(cs) + rest, WithChunks(st, path, gs), ix) == Run(rest, WithChunks(st, path, gs + cs), ix)
    decreases |cs|
  {
    if cs == [] {
      NothingAdded(rest, gs);
    } else {
      ChunksShape(cs, rest);
      Regroup(gs, cs);
      ChunkRun(path, gs, cs[0], WriteChunks(cs[1..]) + rest, st, ix);
      ChunksRun(path, gs + [cs[0]], cs[1..], rest, st, ix);
    }
  }

  lemma EntryRun(e: Element<Entry>, rest: Bytes, t: Buckets, ix: Bytes -> nat)
    requires InTable(ix)
    requires Sized(t) && Encodable(e)
    ensures Run(WriteEntry(e) + rest, State(Some(t), None, None), ix)
         == Run(rest, State(Some(Appended(t, ClearedElement(e), ix)), None, None), ix)
  {
    var st, cs := State(Some(t), None, None), e.value.chunks;
    var end := [END_ENTRY] + rest;
    var body := WriteChunks(cs) + end;
    EntryShape(e, rest);
    EntryOpens(e.key, body, st, ix);
    NothingAdded(cs, cs);
    ChunksRun(e.key, [], cs, end, st, ix);
    EntryCloses(e, rest, t, ix);
  }

  lemma EntryOpens(path: Bytes, body: Bytes, st: State, ix: Bytes -> nat)
    requires InTable(ix)
    requires st.table.Some? && Sized(st.table.value) && st.chunk.None? && NUL !in path
    ensures Run([START_ENTRY] + (TreeCodec.CString(path) + body), st, ix) == Run(body, WithChunks(st, path, []), ix)
  {
    var named := TreeCodec.CString(path) + body;
    Lead(START_ENTRY, named);
    TreeCodec.StringRoundTrip(path, body);
    RunTurn([START_ENTRY] + named, st, WithChunks(st, path, []), body, ix);
  }

  lemma EntryCloses(e: Element<Entry>, rest: Bytes, t: Buckets, ix: Bytes -> nat)
    requires InTable(ix) && Sized(t)
    ensures Run([END_ENTRY] + rest, WithChunks(State(Some(t), None, None), e.key, e.value.chunks), ix)
         == Run(rest, State(Some(Appended(t, ClearedElement(e), ix)), None, None), ix)
  {
    var st := WithChunks(State(Some(t), None, None), e.key, e.value.chunks);
    Lead(END_ENTRY, rest);
    RunTurn([END_ENTRY] + rest, st, State(Some(Appended(t, ClearedElement(e), ix)), None, None), rest, ix);
  }

  lemma EntryShape(e: Element<Entry>, rest: Bytes)
    ensures WriteEntry(e) + rest
         == [START_ENTRY] + (TreeCodec.CString(e.key) + (WriteChunks(e.value.chunks) + ([END_ENTRY] + rest)))
  {
    var a, b := TreeCodec.CString(e.key), WriteChunks(e.value.chunks);
    Associate([START_ENTRY], a + (b + [END_ENTRY]), rest);
    Associate(a, b + [END_ENTRY], rest);
    Associate(b, [END_ENTRY], rest);
  }

  lemma {:induction false} EntriesRun(es: seq<Element<Entry>>, rest: Bytes, t: Buckets, ix: Bytes -> nat)
    requires InTable(ix)
    requires Sized(t) && forall i :: 0 <= i < |es| ==> Encodable(es[i])
    ensures Run(WriteEntries(es) + rest, State(Some(t), None, None), ix)
         == Run(rest, State(Some(AppendedAll(t, ClearedBucket(es), ix)), None, None), ix)
    decreases |es|
  {
    if es == [] {
      assert WriteEntries(es) + rest == rest;
    } else {
      Associate(WriteEntry(es[0]), WriteEntries(es[1..]), rest);
      EntryRun(es[0], WriteEntries(es[1..]) + rest, t, ix);
      EntriesRun(es[1..], rest, Appended(t, ClearedElement(es[0]), ix), ix);
      assert ClearedBucket(es)[1..] == ClearedBucket(es[1..]);
    }
  }

  lemma {:induction false} FlattenCleared(t: Buckets)
    ensures Flatten(Cleared(t)) == ClearedBucket(Flatten(t))
  {
    if t == [] {
    } else {
      FlattenCleared(t[1..]);
      assert Cleared(t)[1..] == Cleared(t[1..]);
      assert ClearedBucket(t[0] + Flatten(t[1..])) == ClearedBucket(t[0]) + ClearedBucket(Flatten(t[1..]));
    }
  }

  lemma ClearedWellPlaced(t: Buckets, ix: Bytes -> nat)
    requires InTable(ix)
    requires WellPlaced(t, ix)
    ensures WellPlaced(Cleared(t), ix)
  {
    var u := Cleared(t);
    forall i, e: Element<Entry> | 0 <= i < |u| && e in u[i] ensures ix(e.key) == i {
      var j :| 0 <= j < |u[i]| && u[i][j] == e;
      assert t[i][j] in t[i];
    }
  }

  lemma {:induction false} WriteCleared(es: seq<Element<Entry>>)
    ensures WriteEntries(ClearedBucket(es)) == WriteEntries(es)
  {
    if es == [] {
    } else {
      assert ClearedBucket(es)[1..] == ClearedBucket(es[1..]);
      WriteCleared(es[1..]);
    }
  }

  // Reading back a written table, in front of any trailing bytes, rebuilds the same buckets in the
  // same order with empty work and request queues and consumes exactly what was written; writing
  // the result again gives the same bytes.
  lemma TableRoundTrip(t: Buckets, trailing: Bytes, ix: Bytes -> nat)
    requires InTable(ix)
    requires WellPlaced(t, ix)
    requires forall i :: 0 <= i < |Flatten(t)| ==> Encodable(Flatten(t)[i])
    ensures var data := WriteTable(Flatten(t));
      && Deserialize(data + trailing, ix) == Some((Cleared(t), |data|))
      && WriteTable(Flatten(Cleared(t))) == data
  {
    var es := Flatten(t);
    TableShape(es, trailing);
    FlattenCleared(t);
    ClearedWellPlaced(t, ix);
    Rebuild(Cleared(t), ix);
    ReadBack(es, trailing, Cleared(t), ix);
    WriteCleared(es);
  }

  lemma ReadBack(es: seq<Element<Entry>>, trailing: Bytes, t: Buckets, ix: Bytes -> nat)
    requires InTable(ix) && Sized(t) && forall i :: 0 <= i < |es| ==> Encodable(es[i])
    requires AppendedAll(EmptyTable(), ClearedBucket(es), ix) == t
    ensures var data := [START_TABLE] + (WriteEntries(es) + ([END_TABLE] + trailing));
      Deserialize(data, ix) == Some((t, |data| - |trailing|))
  {
    var end := [END_TABLE] + trailing;
    var body := WriteEntries(es) + end;
    Lead(START_TABLE, body);
    Lead(END_TABLE, trailing);
    EntriesRun(es, end, EmptyTable(), ix);
    ReadTable([START_TABLE] + body, body, end, trailing, t, ix);
  }

  lemma TableShape(es: seq<Element<Entry>>, trailing: Bytes)
    ensures WriteTable(es) + trailing == [START_TABLE] + (WriteEntries(es) + ([END_TABLE] + trailing))
  {
    Associate([START_TABLE], WriteEntries(es) + [END_TABLE], trailing);
    Associate(WriteEntries(es), [END_TABLE], trailing);
  }

  lemma ReadTable(data: Bytes, body: Bytes, end: Bytes, trailing: Bytes, t: Buckets, ix: Bytes -> nat)
    requires InTable(ix)
    requires data != [] && data[0] == START_TABLE && data[1..] == body && |trailing| <= |data| && Sized(t)
    requires Run(body, State(Some(EmptyTable()), None, None), ix) == Run(end, State(Some(t), None, None), ix)
    requires end != [] && end[0] == END_TABLE && end[1..] == trailing
    ensures Deserialize(data, ix) == Some((t, |data| - |trailing|))
  {
    RunTurn0(data, ix);
  }

  lemma RunTurn0(data: Bytes, ix: Bytes -> nat)
    requires InTable(ix)
    requires data != [] && data[0] == START_TABLE
    ensures Run(data, State(None, None, None), ix) == Run(data[1..], State(Some(EmptyTable()), None, None), ix)
  {
  }

  // ---------------------------------------------------------------- the loops of the source

  lemma {:induction false} WriteEntriesSnoc(es: seq<Element<Entry>>, e: Element<Entry>)
    ensures WriteEntries(es + [e]) == WriteEntries(es) + WriteEntry(e)
  {
    if es == [] {
      assert es + [e] == [e];
    } else {
      assert (es + [e])[1..] == es[1..] + [e];
      WriteEntriesSnoc(es[1..], e);
    }
  }

  lemma {:induction false} WriteIdsSnoc(ids: seq<int>, p: int)
    ensures WriteIds(ids + [p]) == WriteIds(ids) + WriteId(p)
  {
    if ids == [] {
      assert ids + [p] == [p];
    } else {
      assert (ids + [p])[1..] == ids[1..] + [p];
      WriteIdsSnoc(ids[1..], p);
    }
  }

  function WriteChunk(c: seq<int>): Bytes {
    [START_CHUNK] + (WriteIds(c) + [END_CHUNK])
  }

  lemma {:induction false} WriteChunksSnoc(cs: seq<seq<int>>, c: seq<int>)
    ensures WriteChunks(cs + [c]) == WriteChunks(cs) + WriteChunk(c)
  {
    if cs == [] {
      assert cs + [c] == [c];
    } else {
      assert (cs + [c])[1..] == cs[1..] + [c];
      WriteChunksSnoc(cs[1..], c);
    }
  }

  method SerializeChunk(chunk: seq<int>, ser: Bytes) returns (out: Bytes)
    ensures out == ser + WriteChunk(chunk)
  {
    out := ser + [START_CHUNK];
    ghost var head := out;
    for j := 0 to |chunk|
      invariant out == head + WriteIds(chunk[..j])
    {
      assert chunk[..j + 1] == chunk[..j] + [chunk[j]];
      WriteIdsSnoc(chunk[..j], chunk[j]);
      Associate(head, WriteIds(chunk[..j]), WriteId(chunk[j]));
      out := out + WriteId(chunk[j]);
    }
    assert chunk[..|chunk|] == chunk;
    out := out + [END_CHUNK];
    Associate(head, WriteIds(chunk), [END_CHUNK]);
    Associate(ser, [START_CHUNK], WriteIds(chunk) + [END_CHUNK]);
  }

  method SerializeEntry(e: Element<Entry>, ser: Bytes) returns (out: Bytes)
    ensures out == ser + WriteEntry(e)
  {
    out := ser + [START_ENTRY];
    out := out + TreeCodec.CString(e.key);
    ghost var head := out;
    var chunks := e.value.chunks;
    for i := 0 to |chunks|
      invariant out == head + WriteChunks(chunks[..i])
    {
      OneMore(chunks, i);
      WriteChunksSnoc(chunks[..i], chunks[i]);
      Associate(head, WriteChunks(chunks[..i]), WriteChunk(chunks[i]));
      out := SerializeChunk(chunks[i], out);
    }
    WholeTaken(chunks);
    out := out + [END_ENTRY];
    var rest := WriteChunks(chunks) + [END_ENTRY];
    Associate(head, WriteChunks(chunks), [END_ENTRY]);
    Associate(ser + [START_ENTRY], TreeCodec.CString(e.key), rest);
    Associate(ser, [START_ENTRY], TreeCodec.CString(e.key) + rest);
  }

  method FiletableSerialize(ft: HashTable<Entry>) returns (data: Bytes)
    requires ft.Valid()
    ensures data == WriteTable(Flatten(ft.Buckets()))
  {
    data := [START_TABLE];
    ghost var all := Flatten(ft.Buckets());
    var hti := NewIterator(ft);
    if hti != null {
      data := SerializeFrom(hti, data);
    } else {
      assert data == data + WriteEntries([]);
    }
    Associate([START_TABLE], WriteEntries(all), [END_TABLE]);
    data := data + [END_TABLE];
  }

  // The loop over the iterator.
  method SerializeFrom(hti: HashTableIterator<Entry>, ser: Bytes) returns (out: Bytes)
    requires hti.Valid()
    modifies hti, hti.iterator_
    ensures out == ser + WriteEntries(old(hti.Rest))
  {
    out := ser;
    ghost var all, done := hti.Rest, [];
    NothingAdded(ser, ser);
    while true
      invariant hti.Valid() && (hti.iterator_ == old(hti.iterator_) || fresh(hti.iterator_))
      invariant out == ser + WriteEntries(done) && done + hti.Rest == all
      decreases |hti.Rest|
    {
      ghost var rest := hti.Rest;
      var entry := hti.Next();
      if entry.None? {
        NothingAdded(done, done);
        return;
      }
      WriteEntriesSnoc(done, entry.value);
      Associate(ser, WriteEntries(done), WriteEntry(entry.value));
      Regroup(done, rest);
      label Taken:
      out := SerializeEntry(entry.value, out);
      hti.StillValid@Taken();
      done := done + [entry.value];
    }
  }

  method FiletableDeserialize(data: Bytes, ix: Bytes -> nat) returns (r: Option<(Buckets, nat)>)
    requires InTable(ix)
    ensures r == Deserialize(data, ix)
  {
    if data == [] || data[0] != START_TABLE {
      return None;
    }
    var st, rest := State(None, None, None), data;
    while rest != [] && rest[0] != END_TABLE
      invariant |rest| <= |data|
      invariant st.table.Some? ==> Sized(st.table.value)
      invariant Run(rest, st, ix) == Run(data, State(None, None, None), ix)
      decreases |rest|
    {
      var t := Turn(rest, st, ix);
      if t.None? {
        return None;
      }
      st, rest := t.value.0, t.value.1;
    }
    if rest == [] || st.table.None? {
      return None;
    }
    r := Some((st.table.value, |data| - (|rest| - 1)));
  }
}
