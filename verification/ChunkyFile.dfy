// ChunkyFile.c: a file in memory that is read and written chunk by chunk.
module ChunkyFile {
  import opened Basics

  const CHUNK_SIZE: nat := 500000

  // num_chunks_for_size, on the sizes a file can have
  function NumChunks(size: nat): nat {
    if size % CHUNK_SIZE == 0 then size / CHUNK_SIZE else size / CHUNK_SIZE + 1
  }

  // num_chunks_for_size on any int: C divides towards zero.
  function ChunkCount(size: int): (n: int)
    ensures size >= 0 ==> n == NumChunks(size)
    ensures n >= 1 <==> size > 0 || -(CHUNK_SIZE as int) < size < 0
  {
    if size >= 0 then NumChunks(size)
    else
      var quotient := -(-size / CHUNK_SIZE);
      if -size % CHUNK_SIZE == 0 then quotient else quotient + 1
  }

  // The chunk length of get_chunk: the last chunk of a file gets the remainder, which is 0 when the
  // chunk is full.
  function ChunkLength(size: nat, c: nat): nat {
    if c == NumChunks(size) - 1 then size % CHUNK_SIZE else CHUNK_SIZE
  }

  function PatternByte(i: nat): byte {
    [68, 69, 65, 68, 66, 69, 69, 70][i % 8]
  }

  // The DEADBEEF filling of a fresh file.
  function Blank(size: nat): (s: Bytes)
    ensures |s| == size && forall k :: 0 <= k < size ==> s[k] == PatternByte(k)
  {
    seq(size, k requires 0 <= k => PatternByte(k))
  }

  // Every chunk number below NumChunks lies inside the file, and the chunks cover it.
  lemma ChunkInside(size: nat, c: nat)
    requires c < NumChunks(size)
    ensures c * CHUNK_SIZE + ChunkLength(size, c) <= size
    ensures c < NumChunks(size) - 1 ==> (c + 1) * CHUNK_SIZE <= size
    ensures c == NumChunks(size) - 1 ==> size <= (c + 1) * CHUNK_SIZE
  {
    assert size == size / CHUNK_SIZE * CHUNK_SIZE + size % CHUNK_SIZE;
  }

  lemma PositionChunk(size: nat, k: nat)
    requires k < size
    ensures k / CHUNK_SIZE < NumChunks(size)
  {
  }

  lemma MoreChunks(a: nat, b: nat)
    requires a + CHUNK_SIZE <= b
    ensures NumChunks(a) < NumChunks(b)
  {
    assert a == a / CHUNK_SIZE * CHUNK_SIZE + a % CHUNK_SIZE;
    assert b == b / CHUNK_SIZE * CHUNK_SIZE + b % CHUNK_SIZE;
  }

  function ChunkBytes(data: Bytes, c: nat): Bytes
    requires c < NumChunks(|data|)
  {
    ChunkInside(|data|, c);
    data[c * CHUNK_SIZE..c * CHUNK_SIZE + ChunkLength(|data|, c)]
  }

  // memcpy of a chunk into its place
  function Patched(data: Bytes, start: nat, chunk: Bytes): (r: Bytes)
    requires start + |chunk| <= |data|
    ensures |r| == |data|
    ensures forall k :: 0 <= k < |data| ==>
              r[k] == if start <= k < start + |chunk| then chunk[k - start] else data[k]
  {
    data[..start] + chunk + data[start + |chunk|..]
  }

  // The part of a chunk that lies inside the file.
  function Fitting(size: nat, c: nat, chunk: Bytes): (r: Bytes)
    requires c < NumChunks(size)
    ensures c * CHUNK_SIZE + |r| <= size && r <= chunk
    ensures c * CHUNK_SIZE + |chunk| <= size ==> r == chunk
  {
    ChunkInside(size, c);
    if c * CHUNK_SIZE + |chunk| <= size then chunk else chunk[..size - c * CHUNK_SIZE]
  }

  class ChunkyFile {
    const size: nat
    const data: array<byte>
    const chunksWritten: array<bool>

    ghost predicate Valid()
      reads this
    {
      data.Length == size && chunksWritten.Length == NumChunks(size)
    }

    constructor ForWriting(size: nat)
      ensures Valid() && fresh(data) && fresh(chunksWritten) && this.size == size
      ensures data[..] == Blank(size) && forall c :: 0 <= c < chunksWritten.Length ==> !chunksWritten[c]
    {
      this.size := size;
      data := new byte[size];
      chunksWritten := new bool[NumChunks(size)](_ => false);
      new;
      for i := 0 to size
        invariant forall k :: 0 <= k < i ==> data[k] == PatternByte(k)
        invariant forall c :: 0 <= c < chunksWritten.Length ==> !chunksWritten[c]
      {
        data[i] := PatternByte(i);
      }
    }

    constructor ForReading(content: Bytes)
      ensures Valid() && fresh(data) && fresh(chunksWritten) && size == |content|
      ensures data[..] == content && forall c :: 0 <= c < chunksWritten.Length ==> !chunksWritten[c]
    {
      size := |content|;
      data := new byte[|content|](i requires 0 <= i < |content| => content[i]);
      chunksWritten := new bool[NumChunks(|content|)](_ => false);
    }

    method GetChunk(c: nat) returns (chunk: Bytes)
      requires Valid() && c < NumChunks(size)
      ensures chunk == ChunkBytes(data[..], c)
    {
      ChunkInside(size, c);
      var length := if c == NumChunks(size) - 1 then size % CHUNK_SIZE else CHUNK_SIZE;
      chunk := data[c * CHUNK_SIZE..c * CHUNK_SIZE + length];
    }

    // The source only prints a message when the length is not the expected one. Of a chunk longer
    // than the rest of the file, `outside` says, the remaining bytes are written behind the buffer.
    method SetChunk(c: nat, chunk: Bytes) returns (outside: bool)
      requires Valid() && c < NumChunks(size)
      modifies data, chunksWritten
      ensures Valid()
      ensures outside <==> c * CHUNK_SIZE + |chunk| > size
      ensures data[..] == Patched(old(data[..]), c * CHUNK_SIZE, Fitting(size, c, chunk))
      ensures chunksWritten[..] == old(chunksWritten[..])[c := true]
    {
      chunksWritten[c] := true;
      var start := c * CHUNK_SIZE;
      ChunkInside(size, c);
      outside := start + |chunk| > size;
      var length := if outside then size - start else |chunk|;
      ghost var was := data[..];
      for i := 0 to length
        invariant forall k :: 0 <= k < size ==>
                    data[k] == if start <= k < start + i then chunk[k - start] else was[k]
        invariant chunksWritten[..] == old(chunksWritten[..])[c := true]
      {
        data[start + i] := chunk[i];
      }
    }

    method AllChunksWritten() returns (r: bool)
      requires Valid()
      ensures r <==> forall c :: 0 <= c < NumChunks(size) ==> chunksWritten[c]
    {
      for i := 0 to NumChunks(size)
        invariant forall c :: 0 <= c < i ==> chunksWritten[c]
      {
        if !chunksWritten[i] {
          return false;
        }
      }
      r := true;
    }
  }

  // ---------------------------------------------------------------- reassembly

  // The bytes of the file a client writes: where the copied chunks reach, those of the source.
  function Reached(size: nat, c: nat, k: nat): bool {
    c * CHUNK_SIZE <= k < c * CHUNK_SIZE + ChunkLength(size, c)
  }

  // The file after the chunks in `order` (any order, any repetition) were copied from the source.
  function Reassembled(source: Bytes, order: seq<nat>): (r: Bytes)
    requires forall i :: 0 <= i < |order| ==> order[i] < NumChunks(|source|)
    ensures |r| == |source|
    decreases |order|
  {
    if order == [] then Blank(|source|)
    else
      var c := order[|order| - 1];
      ChunkInside(|source|, c);
      Patched(Reassembled(source, order[..|order| - 1]), c * CHUNK_SIZE, ChunkBytes(source, c))
  }

  lemma {:induction false} ReassembledAt(source: Bytes, order: seq<nat>, k: nat)
    requires forall i :: 0 <= i < |order| ==> order[i] < NumChunks(|source|)
    requires k < |source|
    ensures Reassembled(source, order)[k]
         == if exists c :: c in order && Reached(|source|, c, k) then source[k] else PatternByte(k)
    decreases |order|
  {
    if order == [] {
    } else {
      var last, front := order[|order| - 1], order[..|order| - 1];
      ReassembledAt(source, front, k);
      ChunkInside(|source|, last);
      CopiedAt(source, Reassembled(source, front), last, k);
      assert order == front + [last];
      if c :| c in front && Reached(|source|, c, k) {
        assert c in order;
      }
    }
  }

  lemma CopiedAt(source: Bytes, data: Bytes, c: nat, k: nat)
    requires |data| == |source| && c < NumChunks(|source|) && k < |source|
    requires c * CHUNK_SIZE + |ChunkBytes(source, c)| <= |data|
    ensures Patched(data, c * CHUNK_SIZE, ChunkBytes(source, c))[k]
         == if Reached(|source|, c, k) then source[k] else data[k]
  {
    ChunkInside(|source|, c);
  }

  lemma LastReach(size: nat, c: nat, k: nat)
    requires k < size && c < NumChunks(size)
    ensures Reached(size, c, k)
       <==> c == k / CHUNK_SIZE && (size % CHUNK_SIZE != 0 || k / CHUNK_SIZE < NumChunks(size) - 1)
  {
    assert k == k / CHUNK_SIZE * CHUNK_SIZE + k % CHUNK_SIZE;
    assert size == size / CHUNK_SIZE * CHUNK_SIZE + size % CHUNK_SIZE;
    if c < k / CHUNK_SIZE {
      assert (c + 1) * CHUNK_SIZE <= k / CHUNK_SIZE * CHUNK_SIZE;
    } else if c > k / CHUNK_SIZE {
      assert c * CHUNK_SIZE >= (k / CHUNK_SIZE + 1) * CHUNK_SIZE;
    }
  }

  ghost predicate Complete(size: nat, order: seq<nat>) {
    && (forall i :: 0 <= i < |order| ==> order[i] < NumChunks(size))
    && (forall c :: 0 <= c < NumChunks(size) ==> c in order)
  }

  // Once every chunk was copied, the file equals the source except for a full last chunk, which
  // keeps the filling.
  lemma ReassemblyExact(source: Bytes, order: seq<nat>, k: nat)
    requires Complete(|source|, order) && k < |source|
    ensures var lost := |source| % CHUNK_SIZE == 0 && k >= |source| - CHUNK_SIZE;
      Reassembled(source, order)[k] == if lost then PatternByte(k) else source[k]
  {
    var size := |source|;
    ReassembledAt(source, order, k);
    PositionChunk(size, k);
    LastReach(size, k / CHUNK_SIZE, k);
    forall c | c in order && Reached(size, c, k)
      ensures size % CHUNK_SIZE != 0 || k / CHUNK_SIZE < NumChunks(size) - 1
    {
      LastReach(size, c, k);
    }
    LostPositions(size, k);
  }

  lemma LostPositions(size: nat, k: nat)
    requires k < size
    ensures size % CHUNK_SIZE == 0 ==>
      (k / CHUNK_SIZE < NumChunks(size) - 1 <==> k < size - CHUNK_SIZE)
  {
    assert size == size / CHUNK_SIZE * CHUNK_SIZE + size % CHUNK_SIZE;
    assert k == k / CHUNK_SIZE * CHUNK_SIZE + k % CHUNK_SIZE;
  }

  // Files of a given size arrive unchanged, whatever they contain, exactly when the size is 0 or
  // not a multiple of the chunk size.
  lemma ReassemblySucceedsIff(size: nat, order: seq<nat>)
    requires Complete(size, order)
    ensures (forall source: Bytes :: |source| == size ==> Reassembled(source, order) == source)
       <==> (size == 0 || size % CHUNK_SIZE != 0)
  {
    if size == 0 || size % CHUNK_SIZE != 0 {
      forall source: Bytes | |source| == size ensures Reassembled(source, order) == source {
        ArrivesUnchanged(source, order);
      }
    } else {
      var zeros: Bytes := seq(size, _ => 0);
      LastByteLost(zeros, order);
    }
  }

  lemma ArrivesUnchanged(source: Bytes, order: seq<nat>)
    requires Complete(|source|, order) && (|source| == 0 || |source| % CHUNK_SIZE != 0)
    ensures Reassembled(source, order) == source
  {
    forall k | 0 <= k < |source| ensures Reassembled(source, order)[k] == source[k] {
      ReassemblyExact(source, order, k);
    }
  }

  lemma LastByteLost(source: Bytes, order: seq<nat>)
    requires Complete(|source|, order) && |source| > 0 && |source| % CHUNK_SIZE == 0
    requires source[|source| - 1] == 0
    ensures Reassembled(source, order) != source
  {
    var k := |source| - 1;
    ReassemblyExact(source, order, k);
    PatternNonzero(k);
  }

  lemma PatternNonzero(i: nat)
    ensures PatternByte(i) != 0
  {
    assert i % 8 in {0, 1, 2, 3, 4, 5, 6, 7};
  }

  // The flags are all set exactly when every chunk arrived.
  function Flags(n: nat, order: seq<nat>): (r: seq<bool>)
    requires forall i :: 0 <= i < |order| ==> order[i] < n
    ensures |r| == n
    decreases |order|
  {
    if order == [] then seq(n, _ => false)
    else Flags(n, order[..|order| - 1])[order[|order| - 1] := true]
  }

  lemma {:induction false} FlagSetIff(n: nat, order: seq<nat>, c: nat)
    requires forall i :: 0 <= i < |order| ==> order[i] < n
    requires c < n
    ensures Flags(n, order)[c] <==> c in order
    decreases |order|
  {
    if order == [] {
    } else {
      FlagSetIff(n, order[..|order| - 1], c);
      assert order == order[..|order| - 1] + [order[|order| - 1]];
    }
  }

  // The whole transfer: chunks read from one file and written into a fresh one.
  method Transfer(source: ChunkyFile, order: seq<nat>) returns (copy: ChunkyFile, complete: bool)
    requires source.Valid() && forall i :: 0 <= i < |order| ==> order[i] < NumChunks(source.size)
    ensures copy.Valid() && copy.size == source.size
    ensures copy.data[..] == Reassembled(source.data[..], order)
    ensures complete <==> Complete(source.size, order)
  {
    ghost var content := source.data[..];
    var n := NumChunks(source.size);
    copy := new ChunkyFile.ForWriting(source.size);
    assert copy.chunksWritten[..] == Flags(n, order[..0]);
    assert order[..0] == [];
    for i := 0 to |order|
      invariant copy.Valid() && copy.size == source.size && source.data[..] == content
      invariant fresh(copy.data) && fresh(copy.chunksWritten)
      invariant copy.data[..] == Reassembled(content, order[..i])
      invariant copy.chunksWritten[..] == Flags(n, order[..i])
    {
      assert order[..i + 1][..i] == order[..i];
      ChunkInside(source.size, order[i]);
      var chunk := source.GetChunk(order[i]);
      var outside := copy.SetChunk(order[i], chunk);
    }
    assert order[..|order|] == order;
    complete := copy.AllChunksWritten();
    forall c | 0 <= c < n ensures copy.chunksWritten[c] <==> c in order {
      FlagSetIff(n, order, c);
      assert copy.chunksWritten[..][c] == copy.chunksWritten[c];
    }
  }
}
