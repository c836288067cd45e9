// What the loops over a list of the iterator do to a table that is keyed by path strings.
module PathTable {
  import opened Basics
  import opened FileTree
  import opened Paths
  import opened Listing
  import ChunkyFile
  import DiskReplay

  function KeyOf(e: Entry): Bytes {
    Render(e.Target())
  }

  function ChunksOf(e: Entry): nat {
    if Counted(e.file) then ChunkyFile.NumChunks(Length(e.file)) else 0
  }

  // Every directory and file name below the root is a proper name.
  ghost predicate ProperNames(t: Folder) {
    forall dir, x :: Has(t, dir, x) ==> GoodPath(dir + [x.name])
  }

  // Entries with the same key are at the same place.
  lemma SamePlace(a: Entry, b: Entry)
    requires GoodPath(a.Target()) && GoodPath(b.Target()) && KeyOf(a) == KeyOf(b)
    ensures a.dir == b.dir && a.file.name == b.file.name
  {
    RenderInjective(a.Target(), b.Target());
    DiskReplay.SameTarget(a, b);
  }

  lemma KeyedOnce(t: Folder, a: Entry, b: Entry)
    requires Snapshot(t) && ProperNames(t) && Has(t, a.dir, a.file) && Has(t, b.dir, b.file) && KeyOf(a) == KeyOf(b)
    ensures a == b
  {
    SamePlace(a, b);
    SnapshotIsUnique(t);
    DiskReplay.OneRecordPerName(t, a.dir, a.file, b.file);
  }

  // filetable_remove_filesystem
  function WithoutListed<V>(t: map<Bytes, V>, es: seq<Entry>): map<Bytes, V>
    decreases |es|
  {
    if es == [] then t
    else
      var e := es[|es| - 1];
      var t' := WithoutListed(t, es[..|es| - 1]);
      if Counted(e.file) then t' - {KeyOf(e)} else t'
  }

  // filetable_add_filesystem: an entry is made of the path and its number of chunks.
  function WithListed<V>(t: map<Bytes, V>, es: seq<Entry>, make: (Bytes, nat) -> V): map<Bytes, V>
    decreases |es|
  {
    if es == [] then t
    else
      var e := es[|es| - 1];
      var t' := WithListed(t, es[..|es| - 1], make);
      if Counted(e.file) then t'[KeyOf(e) := make(KeyOf(e), ChunksOf(e))] else t'
  }

  // One turn of either loop.
  lemma WithoutOne<V>(t: map<Bytes, V>, es: seq<Entry>, i: nat)
    requires i < |es|
    ensures WithoutListed(t, es[..i + 1])
         == if Counted(es[i].file) then WithoutListed(t, es[..i]) - {KeyOf(es[i])} else WithoutListed(t, es[..i])
  {
    OneMore(es, i);
  }

  lemma WithOne<V>(t: map<Bytes, V>, es: seq<Entry>, i: nat, make: (Bytes, nat) -> V)
    requires i < |es|
    ensures WithListed(t, es[..i + 1], make)
         == if Counted(es[i].file) then WithListed(t, es[..i], make)[KeyOf(es[i]) := make(KeyOf(es[i]), ChunksOf(es[i]))]
            else WithListed(t, es[..i], make)
  {
    OneMore(es, i);
  }

  // Some counted record of the list has the path k.
  ghost predicate Keyed(es: seq<Entry>, k: Bytes) {
    exists e :: e in es && Counted(e.file) && KeyOf(e) == k
  }

  lemma {:induction false} WithoutListedKeys<V>(t: map<Bytes, V>, es: seq<Entry>, k: Bytes)
    ensures k in WithoutListed(t, es) <==> k in t && !Keyed(es, k)
    ensures k in WithoutListed(t, es) ==> WithoutListed(t, es)[k] == t[k]
    decreases |es|
  {
    if es == [] {
    } else {
      var front, e := es[..|es| - 1], es[|es| - 1];
      WithoutListedKeys(t, front, k);
      assert forall x :: x in es <==> x == e || x in front;
    }
  }

  // The value that the listed record e made.
  ghost predicate MadeBy<V>(es: seq<Entry>, k: Bytes, e: Entry, v: V, make: (Bytes, nat) -> V) {
    e in es && Counted(e.file) && KeyOf(e) == k && v == make(k, ChunksOf(e))
  }

  lemma {:induction false} WithListedKeys<V>(t: map<Bytes, V>, es: seq<Entry>, make: (Bytes, nat) -> V, k: Bytes)
    ensures k in WithListed(t, es, make) <==> k in t || Keyed(es, k)
    ensures !Keyed(es, k) && k in t ==> WithListed(t, es, make)[k] == t[k]
    ensures Keyed(es, k) ==> exists e :: MadeBy(es, k, e, WithListed(t, es, make)[k], make)
    decreases |es|
  {
    if es == [] {
    } else {
      var front, e := es[..|es| - 1], es[|es| - 1];
      WithListedKeys(t, front, make, k);
      assert forall x :: x in es <==> x == e || x in front;
      if Counted(e.file) && KeyOf(e) == k {
        assert MadeBy(es, k, e, WithListed(t, es, make)[k], make);
      } else if Keyed(es, k) {
        var x :| MadeBy(front, k, x, WithListed(t, front, make)[k], make);
        assert MadeBy(es, k, x, WithListed(t, es, make)[k], make);
      }
    }
  }
}
