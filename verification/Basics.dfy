// Shared vocabulary: optional values and C byte strings.
module Basics {

  datatype Option<+T> = None | Some(value: T)

  newtype byte = x: int | 0 <= x < 256

  // A C string without its terminator.
  type Bytes = seq<byte>

  const NUL: byte := 0
  const SLASH: byte := 47

  // A name a directory entry can have.
  predicate GoodName(n: Bytes) {
    n != [] && NUL !in n && SLASH !in n
  }

  lemma Associate<T>(a: seq<T>, b: seq<T>, c: seq<T>)
    ensures a + b + c == a + (b + c)
  {
  }

  lemma NothingAdded<S, T>(rest: seq<S>, s: seq<T>)
    ensures [] + rest == rest && s + [] == s
  {
  }

  lemma Regroup<T>(a: seq<T>, b: seq<T>)
    requires b != []
    ensures a + [b[0]] + b[1..] == a + b
  {
  }

  lemma OneMore<T>(s: seq<T>, i: nat)
    requires i < |s|
    ensures s[..i + 1] == s[..i] + [s[i]] && s[..i + 1][..i] == s[..i]
  {
  }

  lemma WholeTaken<T>(s: seq<T>)
    ensures s[..|s|] == s
  {
  }

  lemma MultipleBounds(d: int, n: nat)
    ensures d >= 1 ==> d * n >= n
    ensures d <= -1 ==> d * n + n <= 0
  {
  }

  lemma QuotientUnique(x: nat, q: nat, r: nat, n: nat)
    requires r < n && x == q * n + r
    ensures x / n == q && x % n == r
  {
    var d := x / n - q;
    assert d * n == r - x % n;
    MultipleBounds(d, n);
  }

  // ---------------------------------------------------------------- the elements that pass a test

  // queue_filter
  function Filtered<T>(s: seq<T>, keep: T -> bool): seq<T> {
    if s == [] then [] else Filtered(s[..|s| - 1], keep) + (if keep(s[|s| - 1]) then [s[|s| - 1]] else [])
  }

  // r is s read at the positions `at`, which are those that pass the test, in order.
  ghost predicate Selects<T>(r: seq<T>, s: seq<T>, keep: T -> bool, at: seq<nat>) {
    && (forall i, j :: 0 <= i < j < |at| ==> at[i] < at[j])
    && (forall k: nat :: k in at <==> k < |s| && keep(s[k]))
    && |r| == |at| && forall i :: 0 <= i < |r| ==> at[i] in at && r[i] == s[at[i]]
  }

  lemma {:induction false} FilteredSelects<T>(s: seq<T>, keep: T -> bool) returns (at: seq<nat>)
    ensures Selects(Filtered(s, keep), s, keep, at)
    decreases |s|
  {
    if s == [] {
      at := [];
    } else {
      var n := |s| - 1;
      var front := FilteredSelects(s[..n], keep);
      at := front + (if keep(s[n]) then [n] else []);
      SelectsMore(Filtered(s[..n], keep), s, keep, front);
    }
  }

  lemma FilteredMembers<T>(s: seq<T>, keep: T -> bool, x: T)
    ensures x in Filtered(s, keep) <==> x in s && keep(x)
  {
    var at := FilteredSelects(s, keep);
    var r := Filtered(s, keep);
    if i :| 0 <= i < |r| && r[i] == x {
      assert at[i] in at;
    }
    if k: nat :| k < |s| && s[k] == x && keep(x) {
      assert k in at;
      var i :| 0 <= i < |at| && at[i] == k;
      assert r[i] == x;
    }
  }

  lemma SelectsMore<T>(r: seq<T>, s: seq<T>, keep: T -> bool, at: seq<nat>)
    requires s != [] && Selects(r, s[..|s| - 1], keep, at)
    ensures var n := |s| - 1;
      if keep(s[n]) then Selects(r + [s[n]], s, keep, at + [n]) else Selects(r + [], s, keep, at + [])
  {
    var n := |s| - 1;
    forall i | 0 <= i < |at| ensures at[i] < n {
      assert at[i] in at;
    }
    forall k: nat ensures k in at <==> k < n && keep(s[k]) {
      assert k < n ==> s[..n][k] == s[k];
    }
  }
}
