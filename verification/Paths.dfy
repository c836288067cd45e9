// Path strings: building them, get_path_components, and filesystem_remove_file_at_path.
module Paths {
  import opened Basics
  import opened FileTree

  // The string the relative iterator builds for a path: "/" before every component.
  function Render(p: Path): Bytes {
    if p == [] then [] else [SLASH] + p[0] + Render(p[1..])
  }

  ghost predicate GoodPath(p: Path) {
    forall n :: n in p ==> GoodName(n)
  }

  // Length of the component that starts s.
  function Span(s: Bytes): (k: nat)
    ensures k <= |s|
    ensures forall i :: 0 <= i < k ==> s[i] != SLASH && s[i] != NUL
    ensures k < |s| ==> s[k] == SLASH || s[k] == NUL
  {
    if s == [] || s[0] == SLASH || s[0] == NUL then 0 else 1 + Span(s[1..])
  }

  function Components(s: Bytes): Path
    decreases |s|
  {
    if s == [] then []
    else if s[0] == SLASH || s[0] == NUL then Components(s[1..])
    else [s[..Span(s)]] + Components(s[Span(s)..])
  }

  // ---------------------------------------------------------------- does the splitter end?

  // The variables of the second loop.
  datatype Splitter = Splitter(i: nat, prevWasNull: bool)

  // One turn of it, slashes standing for the NULs that replaced them.
  function Turn(path: Bytes, s: Splitter): (r: Splitter)
    requires s.i < |path|
    ensures s.i <= r.i <= |path|
  {
    if path[s.i] == SLASH || path[s.i] == NUL then Splitter(s.i + 1, true)
    else if s.prevWasNull then Splitter(s.i + Span(path[s.i..]), true)
    else s
  }

  // n turns, or as many as there are.
  function Turns(path: Bytes, n: nat): (r: Splitter)
    ensures r.i <= |path|
  {
    if n == 0 then Splitter(0, false)
    else
      var s := Turns(path, n - 1);
      if s.i < |path| then Turn(path, s) else s
  }

  lemma {:induction false} TurnsAdvance(path: Bytes, n: nat)
    requires path != [] && (path[0] == SLASH || path[0] == NUL)
    ensures n > 0 ==> Turns(path, n).prevWasNull
    ensures Turns(path, n).i >= n || Turns(path, n).i == |path|
  {
    if n == 0 {
    } else {
      TurnsAdvance(path, n - 1);
      var s := Turns(path, n - 1);
      if s.i < |path| && s.prevWasNull && path[s.i] != SLASH && path[s.i] != NUL {
        assert path[s.i..][0] == path[s.i];
      }
    }
  }

  lemma {:induction false} TurnsStuck(path: Bytes, n: nat)
    requires path != [] && path[0] != SLASH && path[0] != NUL
    ensures Turns(path, n) == Splitter(0, false)
  {
    if n == 0 {
    } else {
      TurnsStuck(path, n - 1);
    }
  }

  // The splitter gets to the end of the string exactly when it is empty or starts with a slash.
  lemma SplitterEndsIff(path: Bytes)
    requires NUL !in path
    ensures (exists n :: Turns(path, n).i == |path|) <==> path == [] || path[0] == SLASH
  {
    if path == [] {
      assert Turns(path, 0).i == |path|;
    } else if path[0] == SLASH {
      TurnsAdvance(path, |path|);
      assert Turns(path, |path|).i == |path|;
    } else {
      forall n ensures Turns(path, n).i != |path| {
        TurnsStuck(path, n);
      }
    }
  }

  lemma TurnSkips(path: Bytes, n: nat, i: nat, prevWasNull: bool)
    requires Turns(path, n) == Splitter(i, prevWasNull) && i < |path| && (path[i] == SLASH || path[i] == NUL)
    ensures Turns(path, n + 1) == Splitter(i + 1, true)
  {
  }

  lemma TurnTakes(path: Bytes, n: nat, i: nat, end: nat)
    requires Turns(path, n) == Splitter(i, true) && i < end <= |path|
    requires forall k :: i <= k < end ==> path[k] != SLASH && path[k] != NUL
    requires end < |path| ==> path[end] == SLASH || path[end] == NUL
    ensures Turns(path, n + 1) == Splitter(end, true)
  {
    SpanIs(path[i..], end - i);
  }

  // get_path_components. None stands for the strings on which its second loop never ends; `turns`
  // counts that loop's turns.
  method GetPathComponents(path: Bytes) returns (components: Option<Path>, ghost turns: nat)
    requires NUL !in path
    ensures components.Some? ==> components.value == Components(path) && Turns(path, turns).i == |path|
    ensures components.None? ==> forall n :: Turns(path, n).i != |path|
    ensures components.Some? <==> path == [] || path[0] == SLASH
  {
    var copy := new byte[|path|](i requires 0 <= i < |path| => path[i]);
    for i := 0 to |path|
      invariant forall k :: 0 <= k < i ==> copy[k] == if path[k] == SLASH then NUL else path[k]
      invariant forall k :: i <= k < |path| ==> copy[k] == path[k]
    {
      if copy[i] == SLASH {
        copy[i] := NUL;
      }
    }
    components, turns := SplitCopy(path, copy);
  }

  // The second loop, over the copy with its slashes replaced.
  method SplitCopy(ghost path: Bytes, copy: array<byte>) returns (components: Option<Path>, ghost turns: nat)
    requires NUL !in path && copy.Length == |path|
    requires forall k :: 0 <= k < |path| ==> copy[k] == if path[k] == SLASH then NUL else path[k]
    ensures components.Some? ==> components.value == Components(path) && Turns(path, turns).i == |path|
    ensures components.None? ==> forall n :: Turns(path, n).i != |path|
    ensures components.Some? <==> path == [] || path[0] == SLASH
  {
    var found: Path := [];
    var prevWasNull := false;
    var i := 0;
    turns := 0;
    SplitStarts(path);
    while i < copy.Length
      invariant Progress(path, found, turns, i, prevWasNull)
    {
      if copy[i] == NUL {
        SkipStep(path, found, turns, i, prevWasNull);
        prevWasNull := true;
        i := i + 1;
      } else if prevWasNull {
        var end := EndOfString(copy, i);
        TakeStep(path, copy[..], found, turns, i, end);
        found := found + [copy[i..end]];
        i := end;
      } else {
        SplitterStuck(path, found, turns, i);
        return None, turns;
      }
      turns := turns + 1;
    }
    SplitDone(path, found, turns, prevWasNull);
    components := Some(found);
  }

  // What the second loop has done when it stands at i.
  ghost predicate Progress(path: Bytes, found: Path, turns: nat, i: nat, prevWasNull: bool) {
    && i <= |path| && (prevWasNull <==> i > 0) && (i > 0 ==> path[0] == SLASH)
    && Turns(path, turns) == Splitter(i, prevWasNull)
    && found + Components(path[i..]) == Components(path)
  }

  lemma SplitStarts(path: Bytes)
    ensures Progress(path, [], 0, 0, false)
  {
    assert path[0..] == path;
  }

  lemma SplitDone(path: Bytes, found: Path, turns: nat, prevWasNull: bool)
    requires Progress(path, found, turns, |path|, prevWasNull)
    ensures found == Components(path) && Turns(path, turns).i == |path| && (path != [] ==> path[0] == SLASH)
  {
    assert found + [] == found;
  }

  lemma SplitterStuck(path: Bytes, found: Path, turns: nat, i: nat)
    requires NUL !in path && Progress(path, found, turns, i, false) && i < |path| && path[i] != SLASH
    ensures path != [] && path[0] != SLASH && forall n :: Turns(path, n).i != |path|
  {
    SplitterEndsIff(path);
  }

  lemma SkipStep(path: Bytes, found: Path, turns: nat, i: nat, prevWasNull: bool)
    requires NUL !in path && Progress(path, found, turns, i, prevWasNull) && i < |path| && path[i] == SLASH
    ensures Progress(path, found, turns + 1, i + 1, true)
  {
    TurnSkips(path, turns, i, prevWasNull);
    SkipSeparator(path, i);
  }

  lemma TakeStep(path: Bytes, copy: Bytes, found: Path, turns: nat, i: nat, end: nat)
    requires NUL !in path && |copy| == |path| && i < end <= |path| && Progress(path, found, turns, i, true)
    requires forall k :: 0 <= k < |path| ==> copy[k] == if path[k] == SLASH then NUL else path[k]
    requires forall k :: i <= k < end ==> copy[k] != NUL
    requires end < |path| ==> copy[end] == NUL
    ensures Progress(path, found + [copy[i..end]], turns + 1, end, true)
  {
    Untouched(path, copy, i, end);
    TurnTakes(path, turns, i, end);
    TakeComponent(path, i, end);
    Associate(found, [copy[i..end]], Components(path[end..]));
  }

  lemma Untouched(path: Bytes, copy: Bytes, i: nat, end: nat)
    requires NUL !in path && |copy| == |path| && i < end <= |path|
    requires forall k :: 0 <= k < |path| ==> copy[k] == if path[k] == SLASH then NUL else path[k]
    requires forall k :: i <= k < end ==> copy[k] != NUL
    requires end < |path| ==> copy[end] == NUL
    ensures copy[i..end] == path[i..end] && forall k :: i <= k < end ==> path[k] != SLASH && path[k] != NUL
    ensures end < |path| ==> path[end] == SLASH
  {
    forall k | i <= k < end ensures path[k] != SLASH && path[k] != NUL && copy[k] == path[k] {
      assert copy[k] != NUL;
    }
  }

  // where the string at i of the copy ends: copy_string and strlen on it
  method EndOfString(copy: array<byte>, i: nat) returns (end: nat)
    requires i < copy.Length && copy[i] != NUL
    ensures i < end <= copy.Length && forall k :: i <= k < end ==> copy[k] != NUL
    ensures end < copy.Length ==> copy[end] == NUL
  {
    end := i + 1;
    while end < copy.Length && copy[end] != NUL
      invariant i < end <= copy.Length && forall k :: i <= k < end ==> copy[k] != NUL
    {
      end := end + 1;
    }
  }

  lemma SkipSeparator(path: Bytes, i: nat)
    requires i < |path| && (path[i] == SLASH || path[i] == NUL)
    ensures Components(path[i..]) == Components(path[i + 1..])
  {
    assert path[i..][1..] == path[i + 1..];
  }

  lemma TakeComponent(path: Bytes, i: nat, end: nat)
    requires i < end <= |path| && forall k :: i <= k < end ==> path[k] != SLASH && path[k] != NUL
    requires end < |path| ==> path[end] == SLASH || path[end] == NUL
    ensures Components(path[i..]) == [path[i..end]] + Components(path[end..])
  {
    SpanIs(path[i..], end - i);
    assert path[i..][..end - i] == path[i..end];
    assert path[i..][end - i..] == path[end..];
  }

  lemma {:induction false} SpanIs(s: Bytes, k: nat)
    requires k <= |s|
    requires forall i :: 0 <= i < k ==> s[i] != SLASH && s[i] != NUL
    requires k < |s| ==> s[k] == SLASH || s[k] == NUL
    ensures Span(s) == k
  {
    if k == 0 {
    } else {
      SpanIs(s[1..], k - 1);
    }
  }

  lemma RenderStart(p: Path)
    ensures p != [] ==> Render(p) != [] && Render(p)[0] == SLASH
  {
  }

  // Splitting the string of a path gives back its components.
  lemma {:induction false} SplitRender(p: Path)
    requires GoodPath(p)
    ensures Components(Render(p)) == p
  {
    if p == [] {
    } else {
      var rest := p[0] + Render(p[1..]);
      assert Render(p) == [SLASH] + rest;
      assert Render(p)[1..] == rest;
      RenderStart(p[1..]);
      assert GoodName(p[0]);
      assert forall i :: 0 <= i < |p[0]| ==> p[0][i] in p[0];
      SpanIs(rest, |p[0]|);
      assert rest[..|p[0]|] == p[0] && rest[|p[0]|..] == Render(p[1..]);
      SplitRender(p[1..]);
    }
  }

  lemma RenderInjective(p: Path, q: Path)
    requires GoodPath(p) && GoodPath(q) && Render(p) == Render(q)
    ensures p == q
  {
    SplitRender(p);
    SplitRender(q);
  }

  lemma {:induction false} RenderAppend(p: Path, n: Bytes)
    ensures Render(p + [n]) == Render(p) + [SLASH] + n
  {
    if p == [] {
      assert Render([n]) == [SLASH] + n + Render([]);
    } else {
      assert (p + [n])[1..] == p[1..] + [n];
      RenderAppend(p[1..], n);
    }
  }

  lemma {:induction false} RenderNoNul(p: Path)
    requires GoodPath(p)
    ensures NUL !in Render(p)
  {
    if p == [] {
    } else {
      assert GoodName(p[0]);
      RenderNoNul(p[1..]);
    }
  }

  // ---------------------------------------------------------------- removal at a path

  // queue_search with file_equals_name_only.
  function Named(xs: seq<File>, n: Bytes): (r: Option<File>)
    ensures r.Some? ==> r.value in xs && r.value.name == n
    ensures r.None? ==> forall x :: x in xs ==> x.name != n
  {
    if xs == [] then None
    else if xs[0].name == n then Some(xs[0])
    else Named(xs[1..], n)
  }

  // folder_remove_file_at_path; None at the FAIL label (and on no components at all).
  function RemoveAt(t: Folder, components: Path): (r: Option<Folder>)
    ensures r.Some? ==> r.value.name == t.name
    decreases components
  {
    if components == [] then None
    else
      var n := components[0];
      if |components| > 1 then
        match Child(t.folders, n)
        case None => None
        case Some(c) =>
          match RemoveAt(c, components[1..])
          case None => None
          case Some(d) => Some(t.(folders := PutChild(t.folders, n, d)))
      else
        match Named(t.files, n)
        case None => None
        case Some(x) =>
          if !x.isFolder then Some(t.(files := DropFile(t.files, x)))
          else if Child(t.folders, n).None? then None
          else Some(Folder(t.name, DropFile(t.files, x), DropChild(t.folders, n)))
  }

  // What a removal at dir/n of record x leaves in place.
  ghost predicate Spared(dir: Path, x: File, d: Path, y: File) {
    && !(d == dir && y == x)
    && !(x.isFolder && dir + [x.name] <= d)
  }

  lemma RemoveHere(t: Folder, x: File)
    requires Snapshot(t) && x in t.files
    ensures var r := RemoveAt(t, [x.name]);
      && r.Some? && Snapshot(r.value)
      && (forall y :: y in r.value.files <==> y in t.files && y != x)
      && (forall m :: Child(r.value.folders, m)
           == if x.isFolder && m == x.name then None else Child(t.folders, m))
  {
    UniqueName(t.files, x, Named(t.files, x.name).value);
    DropFileMembers(t.files, x);
    DropChildLookup(t.folders, x.name, x.name);
    assert x.isFolder ==> Child(t.folders, x.name).Some?;
    var r := RemoveAt(t, [x.name]).value;
    forall m
      ensures Child(r.folders, m) == if x.isFolder && m == x.name then None else Child(t.folders, m)
    {
      DropChildLookup(t.folders, x.name, m);
    }
    assert MarkersMatch(r);
    assert forall c :: c in r.folders ==> c in t.folders;
  }

  // Removing the path of an entry of a snapshot removes exactly that entry, with its subtree if
  // it is a folder, and leaves a snapshot.
  lemma {:induction false} RemoveAtExact(t: Folder, dir: Path, x: File)
    requires Snapshot(t) && Has(t, dir, x)
    ensures var r := RemoveAt(t, dir + [x.name]);
      && r.Some? && Snapshot(r.value)
      && forall d, y :: Has(r.value, d, y) <==> Has(t, d, y) && Spared(dir, x, d, y)
    decreases dir
  {
    var components := dir + [x.name];
    if dir == [] {
      RemoveHere(t, x);
      assert components == [x.name];
      var r := RemoveAt(t, components).value;
      forall d, y ensures Has(r, d, y) <==> Has(t, d, y) && Spared(dir, x, d, y) {
        assert d != [] ==> ([x.name] <= d <==> d[0] == x.name);
      }
    } else {
      var n, c := dir[0], Child(t.folders, dir[0]).value;
      assert components[1..] == dir[1..] + [x.name];
      RemoveAtExact(c, dir[1..], x);
      var e := RemoveAt(c, components[1..]).value;
      var r := RemoveAt(t, components).value;
      PutSnapshot(t, n, e);
      forall d, y ensures Has(r, d, y) <==> Has(t, d, y) && Spared(dir, x, d, y) {
        if d != [] {
          PutChildLookup(t.folders, n, e, d[0]);
          SparedBelow(dir, x, d, y);
        }
      }
    }
  }

  lemma PutSnapshot(t: Folder, n: Bytes, e: Folder)
    requires Snapshot(t) && Snapshot(e) && e.name == n && Child(t.folders, n).Some?
    ensures Snapshot(t.(folders := PutChild(t.folders, n, e)))
  {
    forall m ensures Child(PutChild(t.folders, n, e), m).Some? <==> Child(t.folders, m).Some? {
      PutChildLookup(t.folders, n, e, m);
    }
  }

  lemma SparedBelow(dir: Path, x: File, d: Path, y: File)
    requires dir != [] && d != []
    ensures Spared(dir, x, d, y) <==> d[0] != dir[0] || Spared(dir[1..], x, d[1..], y)
  {
    assert d == [d[0]] + d[1..] && dir == [dir[0]] + dir[1..];
    var p := dir + [x.name];
    assert p == [dir[0]] + (dir[1..] + [x.name]);
    if d[0] == dir[0] {
      assert p <= d <==> dir[1..] + [x.name] <= d[1..] by {
        assert p[1..] == dir[1..] + [x.name];
        assert p <= d ==> d[..|p|] == p;
        assert dir[1..] + [x.name] <= d[1..] ==> d[1..][..|p| - 1] == p[1..];
        assert |p| <= |d| ==> d[..|p|] == [d[0]] + d[1..][..|p| - 1];
      }
    }
  }

  // The FAIL label is reached exactly on paths that name no entry.
  lemma RemoveAtFailsIff(t: Folder, components: Path)
    requires Snapshot(t) && components != []
    ensures RemoveAt(t, components).Some?
       <==> exists x :: Has(t, components[..|components| - 1], x) && x.name == components[|components| - 1]
  {
    var last := |components| - 1;
    var dir, n := components[..last], components[last];
    if x :| Has(t, dir, x) && x.name == n {
      RemoveAtExact(t, dir, x);
      assert dir + [x.name] == components;
    }
    if RemoveAt(t, components).Some? {
      var x := RemovedEntry(t, dir, components);
    }
  }

  lemma {:induction false} RemovedEntry(t: Folder, dir: Path, components: Path) returns (x: File)
    requires Snapshot(t) && components != [] && dir == components[..|components| - 1]
    requires RemoveAt(t, components).Some?
    ensures Has(t, dir, x) && x.name == components[|components| - 1]
    decreases components
  {
    if |components| == 1 {
      x := Named(t.files, components[0]).value;
    } else {
      var c := Child(t.folders, components[0]).value;
      assert components[1..][..|components| - 2] == dir[1..];
      x := RemovedEntry(c, dir[1..], components[1..]);
    }
  }
}
