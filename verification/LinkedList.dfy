// LinkedList.c: a doubly linked list and its removing iterator.
module LinkedList {
  import opened Basics

  class LinkedNode<T> {
    var forward: LinkedNode?<T>
    var back: LinkedNode?<T>
    const element: T

    constructor (f: LinkedNode?<T>, b: LinkedNode?<T>, e: T)
      ensures forward == f && back == b && element == e
    {
      forward, back, element := f, b, e;
    }
  }

  // The links of a list of nodes agree with the sequence.
  ghost predicate Linked<T>(nodes: seq<LinkedNode<T>>, repr: set<LinkedNode<T>>)
    reads repr
  {
    && (forall i :: 0 <= i < |nodes| ==> nodes[i] in repr)
    && (forall i, j :: 0 <= i < j < |nodes| ==> nodes[i] != nodes[j])
    && (forall i {:trigger nodes[i].back} :: 0 <= i < |nodes| ==>
          nodes[i].back == if i == 0 then null else nodes[i - 1])
    && (forall i {:trigger nodes[i].forward} :: 0 <= i < |nodes| ==>
          nodes[i].forward == if i == |nodes| - 1 then null else nodes[i + 1])
  }

  function Removed<T>(s: seq<T>, i: nat): (r: seq<T>)
    requires i < |s|
    ensures |r| == |s| - 1
    ensures forall k :: 0 <= k < |r| ==> r[k] == if k < i then s[k] else s[k + 1]
  {
    seq(|s| - 1, k requires 0 <= k < |s| - 1 => if k < i then s[k] else s[k + 1])
  }

  function Inserted<T>(s: seq<T>, i: nat, x: T): (r: seq<T>)
    requires i <= |s|
    ensures |r| == |s| + 1
    ensures forall k :: 0 <= k < |r| ==> r[k] == if k < i then s[k] else if k == i then x else s[k - 1]
  {
    seq(|s| + 1, k requires 0 <= k <= |s| => if k < i then s[k] else if k == i then x else s[k - 1])
  }

  function Elements<T>(nodes: seq<LinkedNode<T>>): (r: seq<T>)
    ensures |r| == |nodes| && forall i :: 0 <= i < |r| ==> r[i] == nodes[i].element
  {
    seq(|nodes|, i requires 0 <= i < |nodes| => nodes[i].element)
  }

  lemma RemovedElements<T>(nodes: seq<LinkedNode<T>>, i: nat)
    requires i < |nodes|
    ensures Elements(Removed(nodes, i)) == Removed(Elements(nodes), i)
    ensures Removed(Elements(nodes), i)[i..] == Elements(nodes)[i + 1..]
  {
  }

  lemma InsertedElements<T>(nodes: seq<LinkedNode<T>>, i: nat, n: LinkedNode<T>)
    requires i <= |nodes|
    ensures Elements(Inserted(nodes, i, n)) == Inserted(Elements(nodes), i, n.element)
    ensures Inserted(Elements(nodes), i, n.element)[i + 1..] == Elements(nodes)[i..]
    ensures i < |nodes| ==> Inserted(Elements(nodes), i, n.element)[i + 2..] == Elements(nodes)[i + 1..]
    ensures Inserted(Elements(nodes), i, n.element)[i..] == [n.element] + Elements(nodes)[i..]
  {
  }

  // A node tied in at position i between its neighbours gives a linked list.
  lemma LinkedInserted<T>(was: seq<LinkedNode<T>>, repr: set<LinkedNode<T>>, i: nat, n: LinkedNode<T>)
    requires i <= |was| && n in repr && n !in was
    requires forall k :: 0 <= k < |was| ==> was[k] in repr
    requires forall j, k :: 0 <= j < k < |was| ==> was[j] != was[k]
    requires forall k {:trigger was[k].back} :: 0 <= k < |was| ==>
               was[k].back == if k == i then n else if k == 0 then null else was[k - 1]
    requires forall k {:trigger was[k].forward} :: 0 <= k < |was| ==>
               was[k].forward == if k == i - 1 then n else if k == |was| - 1 then null else was[k + 1]
    requires n.back == if i == 0 then null else was[i - 1]
    requires n.forward == if i == |was| then null else was[i]
    ensures Linked(Inserted(was, i, n), repr)
  {
  }

  // Bridging over the node at position i gives a linked list.
  lemma LinkedRemoved<T>(was: seq<LinkedNode<T>>, repr: set<LinkedNode<T>>, i: nat)
    requires i < |was|
    requires forall k :: 0 <= k < |was| ==> was[k] in repr
    requires forall j, k :: 0 <= j < k < |was| ==> was[j] != was[k]
    requires forall k {:trigger was[k].back} :: 0 <= k < |was| && k != i ==>
               was[k].back == if k == 0 || (k == 1 && i == 0) then null
                              else if k == i + 1 then was[i - 1] else was[k - 1]
    requires forall k {:trigger was[k].forward} :: 0 <= k < |was| && k != i ==>
               was[k].forward == if k == |was| - 1 || (k == i - 1 && i == |was| - 1) then null
                                 else if k == i - 1 then was[i + 1] else was[k + 1]
    ensures Linked(Removed(was, i), repr)
  {
  }

  // linkednode_unlink: the neighbours are tied to each other; the node keeps its own pointers.
  method Bridge<T>(n: LinkedNode<T>, ghost nodes: seq<LinkedNode<T>>, ghost repr: set<LinkedNode<T>>, ghost i: nat)
    requires Linked(nodes, repr) && i < |nodes| && n == nodes[i]
    modifies repr
    ensures Linked(Removed(nodes, i), repr)
    ensures n.back == old(n.back) && n.forward == old(n.forward)
  {
    assert nodes[i].back == n.back && nodes[i].forward == n.forward;
    if n.back != null && n.forward != null {
      n.back.forward := n.forward;
      n.forward.back := n.back;
    } else if n.forward != null {
      n.forward.back := null;
    } else if n.back != null {
      n.back.forward := null;
    }
    LinkedRemoved(nodes, repr, i);
  }

  // x is the first element of s that matches, at position i.
  ghost predicate FoundAt<T>(s: seq<T>, match_: T -> bool, i: nat, x: T) {
    i < |s| && s[i] == x && match_(x) && forall k :: 0 <= k < i ==> !match_(s[k])
  }

  class LinkedList<T> {
    var root: LinkedNode?<T>
    var tail: LinkedNode?<T>
    var size: nat
    ghost var Nodes: seq<LinkedNode<T>>
    ghost var Repr: set<LinkedNode<T>>

    ghost predicate Valid()
      reads this, Repr
    {
      && Linked(Nodes, Repr)
      && size == |Nodes|
      && root == (if Nodes == [] then null else Nodes[0])
      && (Nodes != [] ==> tail == Nodes[|Nodes| - 1])
    }

    ghost function Contents(): seq<T>
      reads this
    {
      Elements(Nodes)
    }

    // The source leaves `tail` unset.
    constructor (unset: LinkedNode?<T>)
      ensures Valid() && Nodes == [] && Repr == {}
    {
      root, tail, size := null, unset, 0;
      Nodes, Repr := [], {};
    }

    method Append(e: T)
      requires Valid()
      modifies this, Repr
      ensures Valid() && Contents() == old(Contents()) + [e]
      ensures fresh(Repr - old(Repr)) && Nodes != [] && Nodes[..|Nodes| - 1] == old(Nodes)
    {
      if root == null {
        root := new LinkedNode(null, null, e);
        tail := root;
        size := size + 1;
        Nodes, Repr := [root], {root};
      } else {
        var ln := new LinkedNode(null, tail, e);
        tail.forward := ln;
        tail := ln;
        size := size + 1;
        Repr := Repr + {ln};
        Nodes := Nodes + [ln];
      }
    }

    // linkednode_search from the root
    method SearchNode(match_: T -> bool) returns (ln: LinkedNode?<T>, ghost i: nat)
      requires Valid()
      ensures ln == null ==> forall k :: 0 <= k < |Nodes| ==> !match_(Contents()[k])
      ensures ln != null ==> i < |Nodes| && ln == Nodes[i] && FoundAt(Contents(), match_, i, ln.element)
    {
      ln, i := root, 0;
      while ln != null
        invariant i <= |Nodes|
        invariant ln == if i < |Nodes| then Nodes[i] else null
        invariant forall k :: 0 <= k < i ==> !match_(Contents()[k])
        decreases |Nodes| - i
      {
        if match_(ln.element) {
          return;
        }
        assert ln == Nodes[i] && Nodes[i].forward == ln.forward;
        ln, i := ln.forward, i + 1;
      }
    }

    // linkednode_unlink, and the caller's repair of root, tail and size
    method Unlink(n: LinkedNode<T>, ghost i: nat)
      requires Valid() && i < |Nodes| && n == Nodes[i]
      modifies this, Repr
      ensures Valid() && Nodes == Removed(old(Nodes), i) && Repr == old(Repr)
    {
      ghost var was := Nodes;
      assert Nodes[i].back == n.back && Nodes[i].forward == n.forward;
      size := size - 1;
      Nodes := Removed(was, i);
      if n.back == null {
        root := n.forward;
      }
      if n.forward == null {
        tail := n.back;
      }
      Bridge(n, was, Repr, i);
    }

    // The writes of insert_before at node ln.
    method LinkBefore(ln: LinkedNode<T>, ghost i: nat, e: T) returns (newNode: LinkedNode<T>)
      requires Valid() && i < |Nodes| && ln == Nodes[i]
      modifies this, Repr
      ensures Valid() && fresh(newNode) && Repr == old(Repr) + {newNode} && newNode.element == e && Nodes == Inserted(old(Nodes), i, newNode)
    {
      ghost var was := Nodes;
      assert Nodes[i].back == ln.back;
      newNode := new LinkedNode(ln, ln.back, e);
      size := size + 1;
      Nodes := Inserted(was, i, newNode);
      Repr := Repr + {newNode};
      if ln.back == null {
        root := newNode;
      } else {
        ln.back.forward := newNode;
      }
      ln.back := newNode;
      LinkedInserted(was, Repr, i, newNode);
    }

    // The writes of insert_after at node ln.
    method LinkAfter(ln: LinkedNode<T>, ghost i: nat, e: T) returns (newNode: LinkedNode<T>)
      requires Valid() && i < |Nodes| && ln == Nodes[i]
      modifies this, Repr
      ensures Valid() && fresh(newNode) && Repr == old(Repr) + {newNode} && newNode.element == e && Nodes == Inserted(old(Nodes), i + 1, newNode)
    {
      ghost var was := Nodes;
      assert Nodes[i].forward == ln.forward;
      newNode := new LinkedNode(ln.forward, ln, e);
      size := size + 1;
      Nodes := Inserted(was, i + 1, newNode);
      Repr := Repr + {newNode};
      if ln.forward == null {
        tail := newNode;
      } else {
        ln.forward.back := newNode;
      }
      ln.forward := newNode;
      LinkedInserted(was, Repr, i + 1, newNode);
    }

    // linkedlist_remove: the first match.
    method Remove(match_: T -> bool) returns (r: Option<T>)
      requires Valid()
      modifies this, Repr
      ensures Valid() && Repr == old(Repr)
      ensures r == None ==> Nodes == old(Nodes) && forall k :: 0 <= k < |Nodes| ==> !match_(Contents()[k])
      ensures r.Some? ==> (exists i :: 0 <= i < |old(Nodes)| && Contents() == Removed(old(Contents()), i)
                                       && FoundAt(old(Contents()), match_, i, r.value))
    {
      var ln, i := SearchNode(match_);
      if ln == null {
        return None;
      }
      ghost var was := Contents();
      RemovedElements(Nodes, i);
      Unlink(ln, i);
      assert Contents() == Removed(was, i) && was[i] == ln.element;
      r := Some(ln.element);
    }

    method Get(match_: T -> bool) returns (r: Option<T>)
      requires Valid()
      ensures r == None ==> forall k :: 0 <= k < |Nodes| ==> !match_(Contents()[k])
      ensures r.Some? ==> exists i :: FoundAt(Contents(), match_, i, r.value)
    {
      var ln, i := SearchNode(match_);
      if ln == null {
        return None;
      }
      assert Contents()[i] == ln.element;
      r := Some(ln.element);
    }
  }

  // ---------------------------------------------------------------- the iterator

  class LinkedListIterator<T> {
    const list: LinkedList<T>
    var ln: LinkedNode?<T>
    var index: int
    // How many nodes, counted from the root, lie behind the cursor: those visited and kept.
    ghost var Passed: nat

    ghost predicate Valid()
      reads this, list, list.Repr
    {
      && list.Valid()
      && Passed <= |list.Nodes|
      && ln == (if Passed == 0 then null else list.Nodes[Passed - 1])
      && (Passed > 0 ==> index == Passed - 1)
    }

    // What is still to be visited.
    ghost function Ahead(): seq<T>
      requires Valid()
      reads this, list, list.Repr
    {
      list.Contents()[Passed..]
    }

    constructor (l: LinkedList<T>)
      requires l.Valid()
      ensures Valid() && list == l && Passed == 0 && Ahead() == l.Contents()
    {
      list, ln, index := l, null, 0;
      Passed := 0;
    }

    method Reset()
      requires Valid()
      modifies this
      ensures Valid() && Passed == 0 && Ahead() == list.Contents()
    {
      ln := null;
      Passed := 0;
    }

    // The next element is the first one ahead; at the end nothing moves.
    method Next() returns (r: Option<T>)
      requires Valid()
      modifies this`ln, this`index, this`Passed
      ensures Valid()
      ensures old(Ahead()) == [] ==> r == None && Passed == old(Passed) && Ahead() == []
      ensures old(Ahead()) != [] ==>
                && r == Some(old(Ahead())[0]) && Ahead() == old(Ahead())[1..]
                && Passed == old(Passed) + 1
    {
      if ln == null && list.root != null {
        ln := list.root;
        index := 0;
        Passed := 1;
        return Some(ln.element);
      }
      if ln != null && ln.forward != null {
        ln := ln.forward;
        index := index + 1;
        Passed := Passed + 1;
        return Some(ln.element);
      }
      r := None;
    }

    method Current() returns (r: Option<T>)
      requires Valid()
      ensures r == if Passed == 0 then None else Some(list.Contents()[Passed - 1])
    {
      r := if ln != null then Some(ln.element) else None;
    }

    // Removes the element behind the cursor; what is ahead stays ahead.
    method Remove() returns (r: Option<T>)
      requires Valid()
      modifies this`ln, this`index, this`Passed
      modifies list, list.Repr
      ensures Valid() && Ahead() == old(Ahead()) && list.Repr == old(list.Repr)
      ensures old(Passed) == 0 ==> r == None && list.Nodes == old(list.Nodes) && Passed == 0
      ensures old(Passed) > 0 ==>
                && r == Some(old(list.Contents())[old(Passed) - 1])
                && list.Contents() == Removed(old(list.Contents()), old(Passed) - 1)
                && list.Nodes == Removed(old(list.Nodes), old(Passed) - 1)
                && Passed == old(Passed) - 1
    {
      if ln == null {
        return None;
      }
      var toRemove := ln;
      ghost var i, nodes := Passed - 1, list.Nodes;
      ln := toRemove.back;
      index := index - 1;
      Passed := i;
      assert nodes[i].back == toRemove.back;
      list.Unlink(toRemove, i);
      assert i > 0 ==> ln == nodes[i - 1] == list.Nodes[i - 1];
      RemovedElements(nodes, i);
      r := Some(toRemove.element);
    }

    // The new element counts as passed.
    method InsertBefore(e: T) returns (ok: bool)
      requires Valid()
      modifies this`ln, this`index, this`Passed
      modifies list, list.Repr
      ensures Valid()
      ensures ok <==> old(Passed) > 0
      ensures !ok ==> list.Nodes == old(list.Nodes) && Passed == old(Passed)
      ensures ok ==> list.Contents() == Inserted(old(list.Contents()), old(Passed) - 1, e)
                     && Passed == old(Passed) + 1 && Ahead() == old(Ahead())
    {
      if ln == null {
        return false;
      }
      ghost var i, nodes := Passed - 1, list.Nodes;
      index := index + 1;
      Passed := Passed + 1;
      var newNode := list.LinkBefore(ln, i, e);
      InsertedElements(nodes, i, newNode);
      ok := true;
    }

    // The new element is the next one ahead.
    method InsertAfter(e: T) returns (ok: bool)
      requires Valid()
      modifies list, list.Repr
      ensures Valid()
      ensures ok <==> Passed > 0
      ensures !ok ==> list.Nodes == old(list.Nodes)
      ensures ok ==> list.Contents() == Inserted(old(list.Contents()), Passed, e)
                     && Ahead() == [e] + old(Ahead())
    {
      if ln == null {
        return false;
      }
      ghost var nodes := list.Nodes;
      var newNode := list.LinkAfter(ln, Passed - 1, e);
      InsertedElements(nodes, Passed, newNode);
      ok := true;
    }
  }

  // ---------------------------------------------------------------- whole walks

  // The calls of one walk: next, or a removal of the element behind the cursor.
  datatype Call = DoNext | DoRemove

  // A walk over n elements, by their positions in the original list: those kept behind the cursor,
  // the next one to visit, and those removed.
  datatype Walk = Walk(kept: seq<nat>, next: nat, removed: set<nat>)

  function Step(w: Walk, n: nat, c: Call): Walk {
    match c
    case DoNext =>
      if w.next >= n then w else w.(kept := w.kept + [w.next], next := w.next + 1)
    case DoRemove =>
      if w.kept == [] then w
      else
        var last := |w.kept| - 1;
        w.(kept := w.kept[..last], removed := w.removed + {w.kept[last]})
  }

  function RunWalk(w: Walk, n: nat, cs: seq<Call>): Walk
    decreases |cs|
  {
    if cs == [] then w else RunWalk(Step(w, n, cs[0]), n, cs[1..])
  }

  // Kept positions are in order, and what was visited was either kept or removed.
  ghost predicate Accounts(w: Walk, n: nat) {
    && w.next <= n
    && (forall i, j :: 0 <= i < j < |w.kept| ==> w.kept[i] < w.kept[j])
    && (forall p: nat :: p in w.kept || p in w.removed <==> p < w.next)
    && (forall p :: p in w.kept ==> p !in w.removed)
  }

  lemma NextAccounts(w: Walk, n: nat)
    requires Accounts(w, n)
    ensures Accounts(Step(w, n, DoNext), n)
  {
    var v := Step(w, n, DoNext);
    if w.next < n {
      assert forall i :: 0 <= i < |w.kept| ==> w.kept[i] in w.kept;
      assert forall p: nat :: p in v.kept <==> p in w.kept || p == w.next;
    }
  }

  lemma RemoveAccounts(w: Walk, n: nat)
    requires Accounts(w, n)
    ensures Accounts(Step(w, n, DoRemove), n)
  {
    var v := Step(w, n, DoRemove);
    if w.kept != [] {
      var last := |w.kept| - 1;
      assert w.kept == v.kept + [w.kept[last]];
      assert forall i :: 0 <= i < last ==> w.kept[i] < w.kept[last];
    }
  }

  // Under any interleaving of next and remove, the positions visited are 0, 1, 2, ... each once;
  // those kept, in order, are exactly the visited ones that were not removed.
  lemma {:induction false} WalkVisitsOnce(w: Walk, n: nat, cs: seq<Call>)
    requires Accounts(w, n)
    ensures Accounts(RunWalk(w, n, cs), n)
    decreases |cs|
  {
    if cs == [] {
    } else {
      NextAccounts(w, n);
      RemoveAccounts(w, n);
      WalkVisitsOnce(Step(w, n, cs[0]), n, cs[1..]);
    }
  }

  function At<T>(s: seq<T>, ps: seq<nat>): (r: seq<T>)
    requires forall i :: 0 <= i < |ps| ==> ps[i] < |s|
    ensures |r| == |ps| && forall i :: 0 <= i < |r| ==> r[i] == s[ps[i]]
  {
    seq(|ps|, i requires 0 <= i < |ps| => s[ps[i]])
  }

  ghost predicate Inside(w: Walk, n: nat) {
    w.next <= n && forall i :: 0 <= i < |w.kept| ==> w.kept[i] < n
  }

  // With `front` behind the cursor and `ahead` to come, the walk over s stands at w.
  ghost predicate Stands<T>(front: seq<T>, ahead: seq<T>, s: seq<T>, w: Walk) {
    Inside(w, |s|) && front == At(s, w.kept) && ahead == s[w.next..]
  }

  lemma StandsNext<T>(front: seq<T>, ahead: seq<T>, s: seq<T>, w: Walk)
    requires Stands(front, ahead, s, w) && ahead != []
    ensures Stands(front + [ahead[0]], ahead[1..], s, Step(w, |s|, DoNext)) && ahead[0] == s[w.next]
  {
    assert At(s, w.kept + [w.next]) == At(s, w.kept) + [s[w.next]];
  }

  lemma StandsRemove<T>(front: seq<T>, ahead: seq<T>, s: seq<T>, w: Walk)
    requires Stands(front, ahead, s, w) && front != []
    ensures Stands(front[..|front| - 1], ahead, s, Step(w, |s|, DoRemove))
    ensures w.kept != [] && front[|front| - 1] == s[w.kept[|w.kept| - 1]]
  {
    var kept := w.kept[..|w.kept| - 1];
    assert At(s, kept) == At(s, w.kept)[..|w.kept| - 1];
  }

  ghost predicate Follows<T>(it: LinkedListIterator<T>, s: seq<T>, w: Walk)
    requires it.Valid()
    reads it, it.list, it.list.Repr
  {
    Stands(it.list.Contents()[..it.Passed], it.Ahead(), s, w)
  }

  // The iterator performs such a walk on the linked nodes: a call of next,
  method PerformNext<T>(it: LinkedListIterator<T>, ghost s: seq<T>, ghost w: Walk) returns (r: Option<T>)
    requires it.Valid() && Follows(it, s, w)
    modifies it`ln, it`index, it`Passed
    ensures it.Valid() && Follows(it, s, Step(w, |s|, DoNext))
    ensures r == if w.next < |s| then Some(s[w.next]) else None
  {
    ghost var before, p, ahead := it.list.Contents(), it.Passed, it.Ahead();
    r := it.Next();
    if ahead != [] {
      StandsNext(before[..p], ahead, s, w);
      OneMore(before, p);
      assert it.list.Contents()[..it.Passed] == before[..p] + [ahead[0]];
    }
  }

  // a call of remove,
  method PerformRemove<T>(it: LinkedListIterator<T>, ghost s: seq<T>, ghost w: Walk) returns (r: Option<T>)
    requires it.Valid() && Follows(it, s, w)
    modifies it`ln, it`index, it`Passed
    modifies it.list, it.list.Repr
    ensures it.Valid() && Follows(it, s, Step(w, |s|, DoRemove)) && it.list.Repr == old(it.list.Repr)
    ensures r == if w.kept != [] then Some(s[w.kept[|w.kept| - 1]]) else None
  {
    ghost var before, p, ahead := it.list.Contents(), it.Passed, it.Ahead();
    ghost var front := before[..p];
    assert front == At(s, w.kept);
    if p > 0 {
      StandsRemove(front, ahead, s, w);
      TakeRemoved(before, p);
    }
    r := it.Remove();
  }

  lemma TakeRemoved<T>(s: seq<T>, p: nat)
    requires 0 < p <= |s|
    ensures Removed(s, p - 1)[..p - 1] == s[..p][..p - 1] && s[..p][p - 1] == s[p - 1]
  {
  }

  // either of them, with what next found,
  method PerformCall<T>(it: LinkedListIterator<T>, c: Call, ghost s: seq<T>, ghost w: Walk) returns (found: seq<T>)
    requires it.Valid() && Follows(it, s, w)
    modifies it`ln, it`index, it`Passed
    modifies it.list, it.list.Repr
    ensures it.Valid() && Follows(it, s, Step(w, |s|, c)) && it.list.Repr == old(it.list.Repr)
    ensures s[..Step(w, |s|, c).next] == s[..w.next] + found
  {
    found := [];
    if c == DoNext {
      var r := PerformNext(it, s, w);
      if r.Some? {
        OneMore(s, w.next);
        found := [r.value];
      }
    } else {
      var _ := PerformRemove(it, s, w);
    }
  }

  // and any sequence of calls from the start: what `next` returned is a prefix of the list, and the
  // list keeps the elements of that prefix that were not removed, then the rest.
  method PerformWalk<T>(it: LinkedListIterator<T>, cs: seq<Call>) returns (visited: seq<T>)
    requires it.Valid() && it.Passed == 0
    modifies it`ln, it`index, it`Passed
    modifies it.list, it.list.Repr
    ensures it.Valid()
    ensures var s := old(it.list.Contents());
            var end := RunWalk(Walk([], 0, {}), |s|, cs);
      && Accounts(end, |s|) && Inside(end, |s|)
      && visited == s[..end.next]
      && it.list.Contents() == At(s, end.kept) + s[end.next..]
  {
    visited := [];
    ghost var s, now := it.list.Contents(), Walk([], 0, {});
    ghost var end := RunWalk(now, |s|, cs);
    WalkVisitsOnce(now, |s|, cs);
    WholeWalk(now, |s|, cs);
    for i := 0 to |cs|
      invariant it.Valid() && Follows(it, s, now) && visited == s[..now.next]
      invariant it.list.Repr == old(it.list.Repr)
      invariant RunWalk(now, |s|, cs[i..]) == end
    {
      WalkOn(now, |s|, cs, i);
      var found := PerformCall(it, cs[i], s, now);
      visited := visited + found;
      now := Step(now, |s|, cs[i]);
    }
    WholeWalk(now, |s|, cs);
    Rejoined(it.list.Contents(), it.Passed);
  }

  lemma WholeWalk(w: Walk, n: nat, cs: seq<Call>)
    ensures RunWalk(w, n, cs[0..]) == RunWalk(w, n, cs) && RunWalk(w, n, cs[|cs|..]) == w
  {
    assert cs[0..] == cs && cs[|cs|..] == [];
  }

  lemma WalkOn(w: Walk, n: nat, cs: seq<Call>, i: nat)
    requires i < |cs|
    ensures RunWalk(w, n, cs[i..]) == RunWalk(Step(w, n, cs[i]), n, cs[i + 1..])
  {
    assert cs[i..][0] == cs[i] && cs[i..][1..] == cs[i + 1..];
  }

  lemma Rejoined<T>(s: seq<T>, p: nat)
    requires p <= |s|
    ensures s == s[..p] + s[p..]
  {
  }
}
