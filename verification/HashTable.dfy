// HashTable.c: a fixed array of bucket lists.
module HashTable {
  import opened Basics
  import L = LinkedList

  const TABLE_SIZE: nat := 1023

  // ix stands for the index of a key; the table works for any that stays within the array.
  ghost predicate InTable(ix: Bytes -> nat) {
    forall k :: ix(k) < TABLE_SIZE
  }

  // ---------------------------------------------------------------- buckets

  datatype Element<V> = Element(key: Bytes, value: V)

  // linkedlist_get with the bucket search function: the position of the key, or the length.
  function Position<V>(b: seq<Element<V>>, k: Bytes): (i: nat)
    ensures i <= |b|
    ensures i < |b| ==> b[i].key == k
    ensures forall j :: 0 <= j < i ==> b[j].key != k
  {
    if b == [] || b[0].key == k then 0 else 1 + Position(b[1..], k)
  }

  function Without<V>(b: seq<Element<V>>, k: Bytes): seq<Element<V>> {
    var i := Position(b, k);
    if i < |b| then b[..i] + b[i + 1..] else b
  }

  // Every element is in the bucket of its key, and no key occurs twice.
  ghost predicate WellPlaced<V>(t: seq<seq<Element<V>>>, ix: Bytes -> nat) {
    && |t| == TABLE_SIZE && InTable(ix)
    && (forall i, e :: 0 <= i < |t| && e in t[i] ==> ix(e.key) == i)
    && (forall i, j, k :: 0 <= i < |t| && 0 <= j < k < |t[i]| ==> t[i][j].key != t[i][k].key)
  }

  // The table stands for the map m.
  ghost predicate Represents<V>(t: seq<seq<Element<V>>>, m: map<Bytes, V>, ix: Bytes -> nat) {
    && |t| == TABLE_SIZE && InTable(ix)
    && (forall k :: k in m ==> Element(k, m[k]) in t[ix(k)])
    && (forall i, e :: 0 <= i < |t| && e in t[i] ==> e.key in m && m[e.key] == e.value)
  }

  // The elements in the order of the iterator.
  function Flatten<V>(t: seq<seq<Element<V>>>): seq<Element<V>> {
    if t == [] then [] else t[0] + Flatten(t[1..])
  }

  lemma {:induction false} FlattenSplit<V>(t: seq<seq<Element<V>>>, i: nat)
    requires i <= |t|
    ensures Flatten(t) == Flatten(t[..i]) + Flatten(t[i..])
  {
    if i > 0 {
      FlattenSplit(t[1..], i - 1);
      assert t[..i][1..] == t[1..][..i - 1];
      assert t[i..] == t[1..][i - 1..];
    } else {
      assert t[..0] == [] && t[0..] == t;
    }
  }

  lemma {:induction false} FlattenEmpty<V>(t: seq<seq<Element<V>>>)
    requires forall i :: 0 <= i < |t| ==> t[i] == []
    ensures Flatten(t) == []
  {
    if t == [] {
    } else {
      FlattenEmpty(t[1..]);
    }
  }

  // The search function of a bucket.
  function KeyIs<V>(key: Bytes): Element<V> -> bool {
    (e: Element<V>) => e.key == key
  }

  class HashTable<V> {
    const table: seq<L.LinkedList<Element<V>>>
    const ix: Bytes -> nat
    ghost var Model: map<Bytes, V>
    ghost var Repr: set<object>

    // The buckets are lists that share no node.
    ghost predicate Linked()
      reads this`Repr, Repr
    {
      && |table| == TABLE_SIZE && InTable(ix) && this !in Repr
      && (forall i :: 0 <= i < |table| ==> table[i] in Repr && table[i].Repr <= Repr && table[i].Valid())
      && (forall i, j :: 0 <= i < j < |table| ==> table[i] != table[j] && table[i].Repr !! table[j].Repr)
    }

    ghost function Buckets(): (t: seq<seq<Element<V>>>)
      reads table
      ensures |t| == |table| && forall i :: 0 <= i < |t| ==> t[i] == table[i].Contents()
    {
      seq(|table|, i requires 0 <= i < |table| reads table => table[i].Contents())
    }

    // The same, for those who know the table by its footprint.
    ghost function Content(): (t: seq<seq<Element<V>>>)
      requires Linked()
      reads this`Repr, Repr
      ensures t == Buckets()
      ensures forall i :: 0 <= i < |t| ==> t[i] == table[i].Contents()
    {
      Buckets()
    }

    ghost predicate Holds(content: seq<seq<Element<V>>>)
      reads this`Repr, Repr
    {
      Linked() && Content() == content
    }

    twostate lemma StillHolds(content: seq<seq<Element<V>>>)
      requires old(Holds(content)) && Repr == old(Repr) && forall o :: o in old(Repr) ==> unchanged(o)
      ensures Holds(content)
    {
    }

    ghost predicate Valid()
      reads this, Repr
    {
      Linked() && WellPlaced(Buckets(), ix) && Represents(Buckets(), Model, ix)
    }

    constructor (ix: Bytes -> nat)
      requires InTable(ix)
      ensures Valid() && fresh(Repr) && Model == map[] && this.ix == ix && Buckets() == EmptyTable()
    {
      var lists, repr := NewLists<V>();
      table, this.ix, Model, Repr := lists, ix, map[], repr;
      new;
      assert Buckets() == EmptyTable();
    }

    method GetElement(key: Bytes) returns (r: Option<V>)
      requires Valid()
      ensures r == if key in Model then Some(Model[key]) else None
    {
      var n := ix(key);
      var e := table[n].Get(KeyIs(key));
      BucketLookup(Buckets(), Model, key, ix);
      FoundByPosition(table[n].Contents(), key, e);
      r := if e.Some? then Some(e.value.value) else None;
    }

    method RemoveElement(key: Bytes) returns (r: Option<V>)
      requires Valid()
      modifies this, Repr
      ensures Valid() && Repr == old(Repr)
      ensures r == if key in old(Model) then Some(old(Model)[key]) else None
      ensures Model == old(Model) - {key}
      ensures Buckets() == old(Buckets())[ix(key) := Without(old(Buckets())[ix(key)], key)]
    {
      BucketLookup(Buckets(), Model, key, ix);
      RemovalRepresents(Buckets(), Model, key, ix);
      ghost var t, m := Buckets(), Model;
      ghost var n := ix(key);
      r := RemoveFrom(ix(key), key);
      Model := Model - {key};
      ValidAs(t[n := Without(t[n], key)], m - {key});
    }

    lemma ValidAs(t: seq<seq<Element<V>>>, m: map<Bytes, V>)
      requires Linked() && Buckets() == t && Model == m && WellPlaced(t, ix) && Represents(t, m, ix)
      ensures Valid()
    {
    }

    method RemoveFrom(n: nat, key: Bytes) returns (r: Option<V>)
      requires Linked() && n < |table|
      modifies Repr
      ensures Linked()
      ensures Buckets() == old(Buckets())[n := Without(old(Buckets())[n], key)]
      ensures r == Found(old(Buckets())[n], key)
    {
      ghost var before := Buckets();
      var e := table[n].Remove(KeyIs(key));
      RemovedIsWithout(before[n], table[n].Contents(), key, e);
      OneBucket(n);
      r := if e.Some? then Some(e.value.value) else None;
    }

    // The list of bucket n was changed within its own nodes, or grew by new ones.
    twostate lemma OneBucket(n: nat)
      requires old(Linked()) && n < |table| && Repr == old(Repr)
      requires table[n].Valid() && fresh(table[n].Repr - old(table[n].Repr))
      requires forall o :: o in old(Repr) && o !in old(table[n].Repr) && o != table[n] ==> unchanged(o)
      ensures forall i :: 0 <= i < |table| ==> table[i].Valid() && (i == n || table[i].Repr == old(table[i].Repr))
      ensures forall i, j :: 0 <= i < j < |table| ==> table[i] != table[j] && table[i].Repr !! table[j].Repr
      ensures Buckets() == old(Buckets())[n := table[n].Contents()]
    {
      forall i | 0 <= i < |table| && i != n
        ensures table[i].Valid() && table[i].Repr == old(table[i].Repr) && table[i].Repr !! table[n].Repr
        ensures table[i].Contents() == old(table[i].Contents())
      {
        assert old(table[i].Repr) !! old(table[n].Repr);
        assert unchanged(table[i]);
      }
    }

    // The callers remove an element of the same key first. Where one does not, the older element
    // stays in front and the table no longer stands for a map.
    method Add(key: Bytes, value: V)
      requires Valid()
      modifies this, Repr
      ensures Linked() && fresh(Repr - old(Repr))
      ensures Buckets() == Appended(old(Buckets()), Element(key, value), ix)
      ensures key !in old(Model) ==> Valid() && Model == old(Model)[key := value]
      ensures key in old(Model) ==>
                && Model == old(Model) && !WellPlaced(Buckets(), ix)
                && Found(Buckets()[ix(key)], key) == Some(old(Model)[key])
    {
      ghost var t := Buckets();
      var e := Element(key, value);
      AppendTo(ix(key), e);
      if key in Model {
        NoteShadowed(t, e);
      } else {
        NoteAddition(t, e);
      }
    }

    // The two cases of an addition, after the element was appended.
    lemma NoteShadowed(t: seq<seq<Element<V>>>, e: Element<V>)
      requires WellPlaced(t, ix) && Represents(t, Model, ix) && e.key in Model
      requires Linked() && Buckets() == Appended(t, e, ix)
      ensures !WellPlaced(Buckets(), ix) && Found(Buckets()[ix(e.key)], e.key) == Some(Model[e.key])
    {
      ShadowedAddition(t, Model, e, ix);
    }

    ghost method NoteAddition(t: seq<seq<Element<V>>>, e: Element<V>)
      requires WellPlaced(t, ix) && Represents(t, Model, ix) && e.key !in Model
      requires Linked() && Buckets() == Appended(t, e, ix)
      modifies this`Model
      ensures Valid() && Model == old(Model)[e.key := e.value]
    {
      AdditionRepresents(t, Model, e, ix);
      Model := Model[e.key := e.value];
      ValidAs(Appended(t, e, ix), Model);
    }

    method AppendTo(n: nat, e: Element<V>)
      requires Linked() && n < |table|
      modifies this`Repr, Repr
      ensures Linked() && fresh(Repr - old(Repr))
      ensures Buckets() == old(Buckets())[n := old(Buckets())[n] + [e]]
    {
      table[n].Append(e);
      OneBucket(n);
      Repr := Repr + table[n].Repr;
    }
  }

  // TABLE_SIZE empty lists.
  method NewLists<V>() returns (lists: seq<L.LinkedList<Element<V>>>, ghost repr: set<object>)
    ensures |lists| == TABLE_SIZE && fresh(repr)
    ensures forall i :: 0 <= i < |lists| ==>
              lists[i] in repr && lists[i].Valid() && lists[i].Nodes == [] && lists[i].Repr == {}
    ensures forall i, j :: 0 <= i < j < |lists| ==> lists[i] != lists[j]
  {
    lists, repr := [], {};
    for k := 0 to TABLE_SIZE
      invariant |lists| == k && fresh(repr)
      invariant forall i :: 0 <= i < |lists| ==>
                  lists[i] in repr && lists[i].Valid() && lists[i].Nodes == [] && lists[i].Repr == {}
      invariant forall i, j :: 0 <= i < j < |lists| ==> lists[i] != lists[j]
    {
      var l := new L.LinkedList<Element<V>>(null);
      lists, repr := lists + [l], repr + {l};
    }
  }

  // What the bucket of a key says of the map.
  lemma BucketLookup<V>(t: seq<seq<Element<V>>>, m: map<Bytes, V>, key: Bytes, ix: Bytes -> nat)
    requires WellPlaced(t, ix) && Represents(t, m, ix)
    ensures Found(t[ix(key)], key) == if key in m then Some(m[key]) else None
  {
    var b := t[ix(key)];
    var i := Position(b, key);
    if i < |b| {
      assert b[i] in b;
    } else {
      assert forall e :: e in b ==> e.key != key;
    }
  }

  lemma FoundByPosition<V>(b: seq<Element<V>>, key: Bytes, e: Option<Element<V>>)
    requires e == None ==> forall k :: 0 <= k < |b| ==> !KeyIs(key)(b[k])
    requires e.Some? ==> exists i :: L.FoundAt(b, KeyIs(key), i, e.value)
    ensures Found(b, key) == if e.Some? then Some(e.value.value) else None
  {
    if e.Some? {
      var i :| L.FoundAt(b, KeyIs(key), i, e.value);
      PositionFound(b, key, i, e.value);
    } else {
      PositionNone(b, key);
    }
  }

  lemma PositionFound<V>(b: seq<Element<V>>, key: Bytes, i: nat, e: Element<V>)
    requires L.FoundAt(b, KeyIs(key), i, e)
    ensures Position(b, key) == i && Found(b, key) == Some(e.value)
  {
    assert forall k :: 0 <= k < i ==> b[k].key != key by {
      assert forall k :: 0 <= k < i ==> !KeyIs(key)(b[k]);
    }
  }

  lemma PositionNone<V>(b: seq<Element<V>>, key: Bytes)
    requires forall k :: 0 <= k < |b| ==> !KeyIs(key)(b[k])
    ensures Position(b, key) == |b| && Found(b, key) == None && Without(b, key) == b
  {
    assert forall k :: 0 <= k < |b| ==> b[k].key != key by {
      assert forall k :: 0 <= k < |b| ==> !KeyIs(key)(b[k]);
    }
  }

  lemma RemovedIsWithout<V>(b: seq<Element<V>>, b': seq<Element<V>>, key: Bytes, e: Option<Element<V>>)
    requires e == None ==> b' == b && forall k :: 0 <= k < |b| ==> !KeyIs(key)(b[k])
    requires e.Some? ==> exists i :: 0 <= i < |b| && b' == L.Removed(b, i) && L.FoundAt(b, KeyIs(key), i, e.value)
    ensures b' == Without(b, key)
    ensures Found(b, key) == if e.Some? then Some(e.value.value) else None
  {
    if e.Some? {
      var i :| 0 <= i < |b| && b' == L.Removed(b, i) && L.FoundAt(b, KeyIs(key), i, e.value);
      PositionFound(b, key, i, e.value);
      RemovedSlices(b, i);
    } else {
      PositionNone(b, key);
    }
  }

  lemma RemovedSlices<T>(s: seq<T>, i: nat)
    requires i < |s|
    ensures L.Removed(s, i) == s[..i] + s[i + 1..]
  {
  }

  // The first element of that key in a bucket.
  function Found<V>(b: seq<Element<V>>, key: Bytes): Option<V> {
    var i := Position(b, key);
    if i < |b| then Some(b[i].value) else None
  }

  lemma ShadowedAddition<V>(t: seq<seq<Element<V>>>, m: map<Bytes, V>, e: Element<V>, ix: Bytes -> nat)
    requires WellPlaced(t, ix) && Represents(t, m, ix) && e.key in m
    ensures var u := Appended(t, e, ix);
      !WellPlaced(u, ix) && Found(u[ix(e.key)], e.key) == Some(m[e.key])
  {
    var n := ix(e.key);
    var b: seq<Element<V>>, u: seq<seq<Element<V>>> := t[n], Appended(t, e, ix);
    var j :| 0 <= j < |b| && b[j] == Element(e.key, m[e.key]);
    assert u[n][j].key == u[n][|b|].key;
    var i := Position(u[n], e.key);
    assert i <= j && b[i].key == b[j].key;
  }

  function Appended<V>(t: seq<seq<Element<V>>>, e: Element<V>, ix: Bytes -> nat): seq<seq<Element<V>>>
    requires |t| == TABLE_SIZE && ix(e.key) < TABLE_SIZE
  {
    t[ix(e.key) := t[ix(e.key)] + [e]]
  }

  lemma WithoutMembers<V>(b: seq<Element<V>>, key: Bytes)
    requires forall j, k :: 0 <= j < k < |b| ==> b[j].key != b[k].key
    ensures var w := Without(b, key);
      && (forall e :: e in w <==> e in b && e.key != key)
      && (forall j, k :: 0 <= j < k < |w| ==> w[j].key != w[k].key)
  {
    var i := Position(b, key);
    var w := Without(b, key);
    if i < |b| {
      assert forall j :: 0 <= j < |w| ==> w[j] == if j < i then b[j] else b[j + 1];
      forall e | e in b && e.key != key ensures e in w {
        var j :| 0 <= j < |b| && b[j] == e;
        assert w[if j < i then j else j - 1] == e;
      }
    }
  }

  lemma RemovalRepresents<V>(t: seq<seq<Element<V>>>, m: map<Bytes, V>, key: Bytes, ix: Bytes -> nat)
    requires WellPlaced(t, ix) && Represents(t, m, ix)
    ensures var u := t[ix(key) := Without(t[ix(key)], key)];
      WellPlaced(u, ix) && Represents(u, m - {key}, ix)
  {
    WithoutMembers(t[ix(key)], key);
    var u := t[ix(key) := Without(t[ix(key)], key)];
    forall i, e | 0 <= i < |u| && e in u[i] ensures e in t[i] && e.key != key {
      assert i != ix(key) ==> u[i] == t[i];
    }
    forall k | k in m && k != key ensures Element(k, m[k]) in u[ix(k)] {
      assert Element(k, m[k]) in t[ix(k)];
    }
  }

  lemma AdditionRepresents<V>(t: seq<seq<Element<V>>>, m: map<Bytes, V>, e: Element<V>, ix: Bytes -> nat)
    requires WellPlaced(t, ix) && Represents(t, m, ix) && e.key !in m
    ensures WellPlaced(Appended(t, e, ix), ix) && Represents(Appended(t, e, ix), m[e.key := e.value], ix)
  {
    var n := ix(e.key);
    var u := Appended(t, e, ix);
    assert forall x :: x in u[n] <==> x in t[n] || x == e;
    forall j | 0 <= j < |t[n]| ensures t[n][j].key != e.key {
      assert t[n][j] in t[n];
    }
  }

  // ---------------------------------------------------------------- the iterator

  // hashtableiterator over a table that is not changed meanwhile: it held `content` from the start.
  // `Rest` is everything not yet returned, in the order it will be.
  class HashTableIterator<V> {
    const hashtable: HashTable<V>
    ghost const content: seq<seq<Element<V>>>
    var iterator_: L.LinkedListIterator<Element<V>>
    var index: nat
    ghost var Rest: seq<Element<V>>

    ghost predicate Valid()
      reads this, hashtable, hashtable.Repr, iterator_
    {
      && hashtable.Holds(content)
      && index < |hashtable.table|
      && this !in hashtable.Repr && iterator_ !in hashtable.Repr
      && iterator_.list == hashtable.table[index]
      && iterator_.list in hashtable.Repr && iterator_.list.Repr <= hashtable.Repr
      && iterator_.Valid()
      && Rest == iterator_.Ahead() + Flatten(content[index + 1..])
    }

    // Nothing the iterator depends on was changed.
    twostate lemma StillValid()
      requires old(Valid()) && unchanged(this) && unchanged(hashtable) && unchanged(iterator_)
      requires forall o :: o in old(hashtable.Repr) ==> unchanged(o)
      ensures Valid()
    {
      hashtable.StillHolds(content);
    }

    constructor (t: HashTable<V>, i: nat, inner: L.LinkedListIterator<Element<V>>,
                 ghost held: seq<seq<Element<V>>>, ghost rest: seq<Element<V>>)
      ensures hashtable == t && index == i && iterator_ == inner && content == held && Rest == rest
    {
      hashtable, index, content, iterator_, Rest := t, i, held, inner, rest;
    }

    // The elements come in bucket order, each exactly once, then NULL for ever.
    method Next() returns (r: Option<Element<V>>)
      requires Valid()
      modifies this, iterator_
      ensures Valid() && (iterator_ == old(iterator_) || fresh(iterator_))
      ensures old(Rest) == [] ==> r == None && Rest == []
      ensures old(Rest) != [] ==> r == Some(old(Rest)[0]) && Rest == old(Rest)[1..]
    {
      r := Advance();
      if r == None {
        r := NextBucket();
      }
    }

    // One call of the inner iterator.
    method Advance() returns (r: Option<Element<V>>)
      requires Valid()
      modifies this`Rest, iterator_
      ensures Valid()
      ensures old(iterator_.Ahead()) == [] ==> r == None && Rest == old(Rest) && iterator_.Ahead() == []
      ensures old(iterator_.Ahead()) != [] ==> old(Rest) != [] && r == Some(old(Rest)[0]) && Rest == old(Rest)[1..]
    {
      ghost var ahead, later := iterator_.Ahead(), Flatten(content[index + 1..]);
      r := StepInBucket(hashtable, iterator_, content);
      if r.Some? {
        HeadOfConcat(ahead, later);
        Rest := Rest[1..];
      }
      hashtable.StillHolds(content);
      Assemble(later);
    }

    // The parts of Valid, established one by one.
    lemma Assemble(later: seq<Element<V>>)
      requires hashtable.Holds(content) && index < |hashtable.table| && later == Flatten(content[index + 1..])
      requires this !in hashtable.Repr && iterator_ !in hashtable.Repr
      requires iterator_.list == hashtable.table[index]
      requires iterator_.list in hashtable.Repr && iterator_.list.Repr <= hashtable.Repr
      requires iterator_.Valid() && Rest == iterator_.Ahead() + later
      ensures Valid()
    {
    }

    // The loop over the buckets after the present one.
    method NextBucket() returns (r: Option<Element<V>>)
      requires Valid() && iterator_.Ahead() == []
      modifies this
      ensures Valid() && (iterator_ == old(iterator_) || fresh(iterator_))
      ensures old(Rest) == [] ==> r == None && Rest == []
      ensures old(Rest) != [] ==> r == Some(old(Rest)[0]) && Rest == old(Rest)[1..]
    {
      for i := index + 1 to |hashtable.table|
        invariant forall j :: index < j < i ==> content[j] == []
        invariant index == old(index) && iterator_ == old(iterator_) && Rest == old(Rest)
      {
        if hashtable.table[i].size > 0 {
          MoveOn(content, index, i);
          r := Enter(i);
          return;
        }
      }
      FlattenEmpty(content[index + 1..]);
      r := None;
    }

    // A new inner iterator on bucket i, and its first element.
    method Enter(i: nat) returns (r: Option<Element<V>>)
      requires Valid() && i < |hashtable.table| && content[i] != [] && Rest == content[i] + Flatten(content[i + 1..])
      modifies this
      ensures Valid() && fresh(iterator_)
      ensures r == Some(old(Rest)[0]) && Rest == old(Rest)[1..]
    {
      StandAt(i);
      r := Advance();
    }

    method StandAt(i: nat)
      requires Valid() && i < |hashtable.table| && Rest == content[i] + Flatten(content[i + 1..])
      modifies this`iterator_, this`index
      ensures Valid() && fresh(iterator_) && iterator_.Ahead() == content[i] && index == i
    {
      var inner := IterateBucket(hashtable, i, content);
      MoveTo(i, inner);
    }

    method MoveTo(i: nat, inner: L.LinkedListIterator<Element<V>>)
      requires hashtable.Holds(content) && this !in hashtable.Repr && i < |hashtable.table|
      requires inner.Valid() && inner.Ahead() == content[i] && inner.list == hashtable.table[i]
      requires inner !in hashtable.Repr && inner.list in hashtable.Repr && inner.list.Repr <= hashtable.Repr
      requires inner as object != this && Rest == content[i] + Flatten(content[i + 1..])
      modifies this`iterator_, this`index
      ensures Valid() && iterator_ == inner && iterator_.Ahead() == content[i] && index == i
    {
      iterator_, index := inner, i;
      hashtable.StillHolds(content);
      Assemble(Flatten(content[i + 1..]));
    }
  }

  // An iterator that starts at bucket `first`.
  method IterateFrom<V>(t: HashTable<V>, first: nat, ghost b: seq<seq<Element<V>>>, ghost later: seq<Element<V>>)
    returns (it: HashTableIterator<V>)
    requires t.Holds(b) && first < |t.table| && later == Flatten(b[first + 1..])
    ensures fresh(it) && fresh(it.iterator_) && it.Valid() && it.hashtable == t && it.Rest == b[first] + later
  {
    var inner := IterateBucket(t, first, b);
    it := new HashTableIterator(t, first, inner, b, b[first] + later);
    t.StillHolds(b);
    it.Assemble(later);
  }

  // linkedlistiterator_new on bucket i
  method IterateBucket<V>(t: HashTable<V>, i: nat, ghost content: seq<seq<Element<V>>>)
    returns (inner: L.LinkedListIterator<Element<V>>)
    requires t.Holds(content) && i < |t.table|
    ensures fresh(inner) && inner.list == t.table[i] && inner.Valid() && inner.Ahead() == content[i]
    ensures inner !in t.Repr && inner.list in t.Repr && inner.list.Repr <= t.Repr
  {
    inner := new L.LinkedListIterator(t.table[i]);
  }

  // linkedlistiterator_next: no list is changed
  method StepInBucket<V>(t: HashTable<V>, inner: L.LinkedListIterator<Element<V>>, ghost content: seq<seq<Element<V>>>)
    returns (r: Option<Element<V>>)
    requires t.Holds(content) && inner.Valid() && inner !in t.Repr
    modifies inner
    ensures inner.Valid() && t.Holds(content)
    ensures old(inner.Ahead()) == [] ==> r == None && inner.Ahead() == []
    ensures old(inner.Ahead()) != [] ==> r == Some(old(inner.Ahead())[0]) && inner.Ahead() == old(inner.Ahead())[1..]
  {
    r := inner.Next();
    t.StillHolds(content);
  }

  lemma HeadOfConcat<T>(a: seq<T>, b: seq<T>)
    requires a != []
    ensures (a + b)[0] == a[0] && (a + b)[1..] == a[1..] + b
  {
  }

  lemma FlattenFrom<V>(t: seq<seq<Element<V>>>, first: nat)
    requires first < |t| && forall i :: 0 <= i < first ==> t[i] == []
    ensures Flatten(t) == t[first] + Flatten(t[first + 1..])
  {
    FlattenSplit(t, first);
    FlattenEmpty(t[..first]);
    assert t[first..][0] == t[first] && t[first..][1..] == t[first + 1..];
  }

  // From the end of bucket n on, the next element is the first of the next bucket that has one.
  lemma MoveOn<V>(t: seq<seq<Element<V>>>, n: nat, i: nat)
    requires n < i < |t| && forall j :: n < j < i ==> t[j] == []
    ensures Flatten(t[n + 1..]) == t[i] + Flatten(t[i + 1..])
  {
    FlattenFrom(t[n + 1..], i - n - 1);
    assert t[n + 1..][i - n..] == t[i + 1..];
  }

  // hashtableiterator_new: None when every bucket is empty.
  method NewIterator<V>(t: HashTable<V>) returns (it: HashTableIterator?<V>)
    requires t.Linked()
    ensures it == null <==> Flatten(t.Buckets()) == []
    ensures it != null ==>
              fresh(it) && fresh(it.iterator_) && it.Valid() && it.hashtable == t && it.Rest == Flatten(t.Buckets())
  {
    ghost var b := t.Buckets();
    for i := 0 to |t.table|
      invariant forall j :: 0 <= j < i ==> b[j] == []
    {
      if t.table[i].size > 0 {
        FlattenFrom(b, i);
        it := IterateFrom(t, i, b, Flatten(b[i + 1..]));
        return;
      }
    }
    FlattenEmpty(b);
    it := null;
  }

  // ---------------------------------------------------------------- rebuilding a table

  function AppendedAll<V>(t: seq<seq<Element<V>>>, es: seq<Element<V>>, ix: Bytes -> nat): (r: seq<seq<Element<V>>>)
    requires |t| == TABLE_SIZE && InTable(ix)
    ensures |r| == TABLE_SIZE
    decreases |es|
  {
    if es == [] then t else AppendedAll(Appended(t, es[0], ix), es[1..], ix)
  }

  lemma {:induction false} AppendedAllOneBucket<V>(t: seq<seq<Element<V>>>, es: seq<Element<V>>, n: nat, ix: Bytes -> nat)
    requires |t| == TABLE_SIZE && n < TABLE_SIZE && InTable(ix)
    requires forall e :: e in es ==> ix(e.key) == n
    ensures AppendedAll(t, es, ix) == t[n := t[n] + es]
    decreases |es|
  {
    if es == [] {
      assert t[n] + es == t[n];
    } else {
      AppendedAllOneBucket(Appended(t, es[0], ix), es[1..], n, ix);
      assert t[n] + [es[0]] + es[1..] == t[n] + es;
    }
  }

  lemma {:induction false} AppendedAllConcat<V>(t: seq<seq<Element<V>>>, a: seq<Element<V>>, b: seq<Element<V>>, ix: Bytes -> nat)
    requires |t| == TABLE_SIZE && InTable(ix)
    ensures AppendedAll(t, a + b, ix) == AppendedAll(AppendedAll(t, a, ix), b, ix)
    decreases |a|
  {
    if a == [] {
      assert a + b == b;
    } else {
      assert (a + b)[1..] == a[1..] + b;
      AppendedAllConcat(Appended(t, a[0], ix), a[1..], b, ix);
    }
  }

  function EmptyTable<V>(): (t: seq<seq<Element<V>>>)
    ensures |t| == TABLE_SIZE && forall i :: 0 <= i < |t| ==> t[i] == []
  {
    seq(TABLE_SIZE, _ => [])
  }

  lemma FlattenOne<V>(b: seq<Element<V>>)
    ensures Flatten([b]) == b
  {
    assert Flatten<V>([b][1..]) == [];
  }

  lemma RebuildBucket<V>(t: seq<seq<Element<V>>>, n: nat, ix: Bytes -> nat)
    requires |t| == TABLE_SIZE && n < TABLE_SIZE && InTable(ix)
    requires forall e :: e in t[n] ==> ix(e.key) == n
    ensures AppendedAll(t[..n] + EmptyTable<V>()[n..], t[n], ix) == t[..n + 1] + EmptyTable<V>()[n + 1..]
  {
    var u := t[..n] + EmptyTable<V>()[n..];
    AppendedAllOneBucket(u, t[n], n, ix);
    assert u[n] + t[n] == t[n];
    assert u[n := t[n]] == t[..n + 1] + EmptyTable<V>()[n + 1..];
  }

  lemma {:induction false} RebuildFrom<V>(t: seq<seq<Element<V>>>, i: nat, ix: Bytes -> nat)
    requires |t| == TABLE_SIZE && i <= TABLE_SIZE && InTable(ix)
    requires forall n, e :: 0 <= n < |t| && e in t[n] ==> ix(e.key) == n
    ensures AppendedAll(EmptyTable<V>(), Flatten(t[..i]), ix) == t[..i] + EmptyTable<V>()[i..]
    decreases i
  {
    if i == 0 {
      assert Flatten(t[..0]) == [];
    } else {
      RebuildFrom(t, i - 1, ix);
      FlattenSplit(t[..i], i - 1);
      assert t[..i][..i - 1] == t[..i - 1];
      assert t[..i][i - 1..] == [t[i - 1]];
      FlattenOne(t[i - 1]);
      AppendedAllConcat(EmptyTable<V>(), Flatten(t[..i - 1]), t[i - 1], ix);
      RebuildBucket(t, i - 1, ix);
    }
  }

  // Adding the elements of a table to an empty one in iteration order gives the same buckets, each
  // in the same order.
  lemma Rebuild<V>(t: seq<seq<Element<V>>>, ix: Bytes -> nat)
    requires WellPlaced(t, ix)
    ensures AppendedAll(EmptyTable<V>(), Flatten(t), ix) == t
  {
    RebuildFrom(t, TABLE_SIZE, ix);
    assert t[..TABLE_SIZE] == t;
  }
}
