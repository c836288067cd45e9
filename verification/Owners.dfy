// The owner queues of a file table entry: for each chunk, the peers that are said to have it.
module Owners {
  import opened Basics

  // filetable_set_that_peer_has_file_chunk on one entry, if there is one: the owners with the peer
  // added, a failed assert, or a read outside the chunk queue (its bound check lets the chunk just
  // beyond the last and all negative ones pass).
  datatype GotResult<T> = Owned(value: T) | Stopped | Outside

  function GotChunk(entry: Option<seq<seq<int>>>, chunk: int, peer: int): (r: GotResult<seq<seq<int>>>)
    ensures r.Owned? ==> entry.Some? && 0 <= chunk < |entry.value| && r.value == WithOwner(entry.value, chunk, peer)
  {
    if entry.None? || |entry.value| < chunk then Stopped
    else if 0 <= chunk < |entry.value| then Owned(WithOwner(entry.value, chunk, peer))
    else Outside
  }

  function SoleOwner(n: nat, peer: int): (r: seq<seq<int>>)
    ensures |r| == n && forall i :: 0 <= i < n ==> r[i] == [peer]
  {
    seq(n, _ => [peer])
  }

  // remove_peer
  function OtherThan(id: int): (r: int -> bool)
    ensures forall x :: r(x) <==> x != id
  {
    x => x != id
  }

  // queue_filter with remove_peer
  function Without(q: seq<int>, id: int): (r: seq<int>)
    ensures forall x :: x in r <==> x in q && x != id
  {
    assert forall x :: x in Filtered(q, OtherThan(id)) <==> x in q && x != id by {
      forall x ensures x in Filtered(q, OtherThan(id)) <==> x in q && x != id {
        FilteredMembers(q, OtherThan(id), x);
      }
    }
    Filtered(q, OtherThan(id))
  }

  // The other owners stay in their order, as often as they were listed.
  lemma WithoutKeepsOrder(q: seq<int>, id: int) returns (at: seq<nat>)
    ensures forall i, j :: 0 <= i < j < |at| ==> at[i] < at[j]
    ensures forall k: nat :: k in at <==> k < |q| && q[k] != id
    ensures |Without(q, id)| == |at|
    ensures forall i :: 0 <= i < |at| ==> at[i] in at && Without(q, id)[i] == q[at[i]]
  {
    at := FilteredSelects(q, OtherThan(id));
  }

  function WithoutEach(qs: seq<seq<int>>, id: int): (r: seq<seq<int>>)
    ensures |r| == |qs| && forall i :: 0 <= i < |qs| ==> r[i] == Without(qs[i], id)
  {
    seq(|qs|, i requires 0 <= i < |qs| => Without(qs[i], id))
  }

  function WithOwner(qs: seq<seq<int>>, chunk: nat, peer: int): (r: seq<seq<int>>)
    requires chunk < |qs|
    ensures |r| == |qs|
    ensures forall c, x :: 0 <= c < |qs| ==> (x in r[c] <==> x in qs[c] || (c == chunk && x == peer))
  {
    if peer in qs[chunk] then qs else qs[chunk := qs[chunk] + [peer]]
  }
}
