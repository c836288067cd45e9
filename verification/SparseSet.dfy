// SDSet.c: a sparse/dense set over memory that is never initialised.
module SparseSet {
  import opened Basics

  // ---------------------------------------------------------------- pigeonhole

  // Distinct keys below n are at most n many.
  lemma {:induction false} Pigeonhole(keys: seq<int>, n: nat)
    requires forall i :: 0 <= i < |keys| ==> 0 <= keys[i] < n
    requires forall i, j :: 0 <= i < j < |keys| ==> keys[i] != keys[j]
    ensures |keys| <= n
    decreases n
  {
    if keys == [] {
    } else if n - 1 in keys {
      var i :| 0 <= i < |keys| && keys[i] == n - 1;
      var rest := keys[..i] + keys[i + 1..];
      forall k | 0 <= k < |rest| ensures 0 <= rest[k] < n - 1 {
        assert rest[k] == keys[if k < i then k else k + 1];
      }
      Pigeonhole(rest, n - 1);
    } else {
      assert 0 <= keys[0] < n;
      Pigeonhole(keys, n - 1);
    }
  }

  // ---------------------------------------------------------------- the two arrays

  // The first `size` slots of d list live keys, and s leads from each live key to a slot of it.
  ghost predicate Lists<V>(d: seq<nat>, s: seq<nat>, size: nat, m: map<int, V>) {
    && |d| == |s| && size <= |d|
    && (forall i :: 0 <= i < size ==> d[i] < |d| && d[i] in m)
    && (forall k :: k in m ==> 0 <= k < |d| && s[k] < size && d[s[k]] == k)
  }

  // No key is listed twice.
  ghost predicate Once(d: seq<nat>, s: seq<nat>, size: nat) {
    forall i :: 0 <= i < size && i < |d| && d[i] < |s| ==> s[d[i]] == i
  }

  // More space changes nothing.
  lemma Longer<V>(d: seq<nat>, s: seq<nat>, d': seq<nat>, s': seq<nat>, size: nat, m: map<int, V>)
    requires Lists(d, s, size, m) && |d| <= |d'| == |s'| && d'[..|d|] == d && s'[..|s|] == s
    ensures Lists(d', s', size, m) && (Once(d', s', size) <==> Once(d, s, size))
  {
    assert forall i :: 0 <= i < |d| ==> d'[i] == d'[..|d|][i] && s'[i] == s'[..|s|][i];
    assert forall i :: 0 <= i < size ==> s'[d'[i]] == s[d[i]];
  }

  // The writes of sdset_set: the new slot lists the key, for the first time exactly if it was not live.
  lemma Inserted<V>(d: seq<nat>, s: seq<nat>, size: nat, m: map<int, V>, key: nat, value: V)
    requires Lists(d, s, size, m) && size < |d| && key < |d|
    ensures Lists(d[size := key], s[key := size], size + 1, m[key := value])
    ensures Once(d, s, size) ==> (Once(d[size := key], s[key := size], size + 1) <==> key !in m)
  {
    var d', s' := d[size := key], s[key := size];
    if key in m {
      assert d'[s[key]] == key && s'[d'[s[key]]] == size;
    } else if Once(d, s, size) {
      forall i | 0 <= i < size ensures s'[d'[i]] == i {
        assert d[i] in m;
      }
    }
  }

  // Distinct live keys leave room for one more slot than there are slots used.
  lemma Room<V>(d: seq<nat>, s: seq<nat>, size: nat, m: map<int, V>, key: nat)
    requires Lists(d, s, size, m) && Once(d, s, size) && key < |d| && key !in m
    ensures size < |d|
  {
    var keys: seq<int> := seq(size, i requires 0 <= i < size => d[i]) + [key];
    forall i, j | 0 <= i < j < |keys| ensures keys[i] != keys[j] {
      if j < size {
        assert s[d[i]] == i && s[d[j]] == j;
      }
    }
    Pigeonhole(keys, |d|);
  }

  method CopyInto<T>(a: array<T>, b: array<T>)
    requires a.Length <= b.Length && a != b
    modifies b
    ensures b[..][..a.Length] == a[..]
    ensures b[..a.Length] == a[..]
  {
    forall i | 0 <= i < a.Length { b[i] := a[i]; }
  }

  class SDSet<V(0)> {
    var dense: array<nat>
    var sparse: array<nat>
    var values: array<V>
    var size: nat
    var space: nat
    ghost var Model: map<int, V>     // the keys set since the last clear, with their values

    ghost predicate Valid()
      reads this, dense, sparse
    {
      && dense.Length == space && sparse.Length == space && values.Length == space
      && dense != sparse && values as object != dense && values as object != sparse
      && space > 0
      && Lists(dense[..], sparse[..], size, Model)
    }

    ghost predicate Values()
      requires Valid()
      reads this, dense, sparse, values
    {
      forall k :: k in Model ==> values[k] == Model[k]
    }

    ghost predicate EachOnce()
      reads this, dense, sparse
    {
      Once(dense[..], sparse[..], size)
    }

    lemma RoomForKey(key: int)
      requires Valid() && EachOnce() && 0 <= key < space && key !in Model
      ensures size < space
    {
      Room(dense[..], sparse[..], size, Model, key);
    }

    // The contents of the three blocks malloc returns are whatever the caller of this model says.
    constructor (d: array<nat>, s: array<nat>, v: array<V>)
      requires d.Length == s.Length == v.Length == 10
      requires d != s && v as object != d && v as object != s
      ensures Valid() && Values() && EachOnce() && Model == map[]
      ensures dense == d && sparse == s && values == v
    {
      dense, sparse, values := d, s, v;
      size, space := 0, 10;
      Model := map[];
    }

    method Clear()
      requires Valid()
      modifies this
      ensures Valid() && Values() && EachOnce() && Model == map[]
      ensures dense == old(dense) && sparse == old(sparse) && values == old(values) && space == old(space)
    {
      size := 0;
      Model := map[];
    }

    // Reads sparse[key] even when it was never written.
    method IsSet(key: int) returns (r: bool)
      requires Valid() && 0 <= key < space
      ensures r <==> key in Model
    {
      r := sparse[key] < size && dense[sparse[key]] == key;
      assert sparse[key] < size ==> dense[..][sparse[key]] in Model;
    }

    method Get(key: int) returns (r: Option<V>)
      requires Valid() && Values() && 0 <= key < space
      ensures r == if key in Model then Some(Model[key]) else None
    {
      var set? := IsSet(key);
      r := if set? then Some(values[key]) else None;
    }

    // realloc to twice the space; the new halves hold anything.
    method Grow(d: array<nat>, s: array<nat>, v: array<V>)
      requires Valid() && Values()
      requires d.Length == s.Length == v.Length == 2 * space
      requires d != s && v as object != d && v as object != s
      requires {d as object, s, v} !! {dense as object, sparse, values}
      modifies this, d, s, v
      ensures Valid() && Values() && Model == old(Model) && (EachOnce() <==> old(EachOnce()))
      ensures space == 2 * old(space) && size == old(size)
      ensures dense == d && sparse == s && values == v
    {
      CopyInto(dense, d);
      CopyInto(sparse, s);
      CopyInto(values, v);
      Longer(dense[..], sparse[..], d[..], s[..], size, Model);
      assert forall k :: k in Model ==> v[k] == v[..space][k];
      dense, sparse, values, space := d, s, v, 2 * space;
    }

    // The growth loop of sdset_set.
    method MakeRoom(key: int)
      requires Valid() && Values()
      modifies this
      ensures Valid() && Values() && Model == old(Model) && (EachOnce() <==> old(EachOnce()))
      ensures key < space && size == old(size)
      ensures fresh({dense as object, sparse, values} - old({dense as object, sparse, values}))
    {
      while key >= space
        invariant Valid() && Values() && Model == old(Model) && (EachOnce() <==> old(EachOnce()))
        invariant size == old(size)
        invariant fresh({dense as object, sparse, values} - old({dense as object, sparse, values}))
        decreases key - space
      {
        var d, s, v := new nat[2 * space], new nat[2 * space], new V[2 * space];
        Grow(d, s, v);
      }
    }

    // The three writes, where the slot dense[size] exists.
    method Insert(key: nat, value: V)
      requires Valid() && Values() && key < space && size < space
      modifies this, dense, sparse, values
      ensures Valid() && Values() && Model == old(Model)[key := value] && size == old(size) + 1
      ensures old(EachOnce()) ==> (EachOnce() <==> key !in old(Model))
      ensures dense == old(dense) && sparse == old(sparse) && values == old(values)
    {
      Inserted(dense[..], sparse[..], size, Model, key, value);
      dense[size] := key;
      sparse[key] := size;
      values[key] := value;
      assert dense[..] == old(dense[..])[old(size) := key] && sparse[..] == old(sparse[..])[key := old(size)];
      size := size + 1;
      Model := Model[key := value];
    }

    // sdset_set. A key that is live already is listed a second time; it is for those only that the
    // slot after the used ones may be missing, and the write then goes outside the array.
    method Set(key: nat, value: V) returns (outside: bool)
      requires Valid() && Values()
      modifies this, dense, sparse, values
      ensures Valid() && Values()
      ensures outside ==> Model == old(Model) && size == old(size) == space
      ensures !outside ==> Model == old(Model)[key := value] && size == old(size) + 1
      ensures old(EachOnce()) && key !in old(Model) ==> !outside && EachOnce()
      ensures old(EachOnce()) && key in old(Model) && !outside ==> !EachOnce()
      ensures fresh({dense as object, sparse, values} - old({dense as object, sparse, values}))
    {
      MakeRoom(key);
      if EachOnce() && key !in Model {
        RoomForKey(key);
      }
      outside := size == space;
      if !outside {
        Insert(key, value);
      }
    }

    // sdset_get_index: the keys in the order they were set, once for each setting.
    method GetIndex(index: nat) returns (r: Option<V>)
      requires Valid() && Values()
      ensures index >= size ==> r == None
      ensures index < size ==> dense[index] in Model && r == Some(Model[dense[index]])
    {
      if index >= size {
        return None;
      }
      assert dense[..][index] in Model;
      r := Some(values[dense[index]]);
    }
  }
}
