// Queue.c: a growing circular buffer.
module CircularQueue {
  import opened Basics

  const INITIAL_QUEUE_SPACE: nat := 10

  // The remainder of an index that passed the end at most once.
  lemma Wrap(x: int, n: nat)
    requires n > 0 && 0 <= x < 2 * n
    ensures x % n == if x < n then x else x - n
  {
    if x >= n {
      QuotientUnique(x, 1, x - n, n);
    }
  }

  function RemovedAt<T>(s: seq<T>, i: nat): seq<T>
    requires i < |s|
  {
    s[..i] + s[i + 1..]
  }

  // The first position whose element matches, or -1.
  function FirstMatch<T>(s: seq<T>, match_: T -> bool): (i: int)
    ensures -1 <= i < |s|
    ensures i >= 0 ==> match_(s[i]) && forall k :: 0 <= k < i ==> !match_(s[k])
    ensures i == -1 ==> forall k :: 0 <= k < |s| ==> !match_(s[k])
  {
    if s == [] then -1
    else if match_(s[0]) then 0
    else
      var i := FirstMatch(s[1..], match_);
      if i == -1 then -1 else i + 1
  }

  lemma LeftShifted<T>(was: seq<T>, shifted: seq<T>, index: nat)
    requires |shifted| == |was| && index < |was|
    requires forall k :: 0 <= k < |was| ==> shifted[k] == was[if index <= k < |was| - 1 then k + 1 else k]
    ensures shifted[..|was| - 1] == RemovedAt(was, index)
  {
  }

  class Queue<T(0)> {
    var elements: array<T>
    var length: nat
    var space: nat
    var head: nat      // push here
    var tail: nat      // pop here

    // Where the source keeps element i.
    function Slot(i: nat): (k: nat)
      requires space > 0 && tail < space && i <= space
      reads this
      ensures k < space && k == if tail + i < space then tail + i else tail + i - space
    {
      Wrap(tail + i, space);
      (i + tail) % space
    }

    ghost predicate Valid()
      reads this
    {
      && space > 0 && elements.Length == space
      && length <= space && tail < space
      && head == (tail + length) % space
    }

    // The queue as a sequence, first to pop first.
    ghost function Contents(): (s: seq<T>)
      requires Valid()
      reads this, elements
      ensures |s| == length
    {
      seq(length, i requires 0 <= i < length && Valid() reads this, elements => elements[Slot(i)])
    }

    lemma HeadIsSlot()
      requires Valid()
      ensures head == Slot(length)
    {
    }

    constructor ()
      ensures Valid() && fresh(elements) && Contents() == []
    {
      elements := new T[INITIAL_QUEUE_SPACE];
      length, space, head, tail := 0, INITIAL_QUEUE_SPACE, 0, 0;
    }

    method Get(index: nat) returns (e: T)
      requires Valid() && index < length
      ensures e == Contents()[index]
    {
      e := elements[Slot(index)];
    }

    method Set(e: T, index: nat)
      requires Valid() && index < length
      modifies elements
      ensures Valid() && Contents() == old(Contents())[index := e]
    {
      elements[Slot(index)] := e;
    }

    // The growth branch of queue_push.
    method Double()
      requires Valid() && length == space
      modifies this
      ensures Valid() && fresh(elements) && Contents() == old(Contents())
      ensures space == 2 * old(space) && length == old(length)
    {
      var newElements := new T[2 * space];
      ghost var was := Contents();
      for i := 0 to length
        invariant Valid() && Contents() == was && length == space && fresh(newElements)
        invariant forall k :: 0 <= k < i ==> newElements[k] == was[k]
      {
        newElements[i] := elements[Slot(i)];
      }
      Wrap(length, 2 * space);
      space, elements, tail, head := 2 * space, newElements, 0, length;
      assert forall k :: 0 <= k < length ==> Slot(k) == k;
    }

    // The writes of queue_push once there is room.
    method PushHere(e: T)
      requires Valid() && length < space
      modifies this, elements
      ensures Valid() && Contents() == old(Contents()) + [e] && elements == old(elements)
    {
      HeadIsSlot();
      elements[head] := e;
      Advance(tail, length, space);
      head := (head + 1) % space;
      length := length + 1;
      assert forall i :: 0 <= i < length ==> Contents()[i] == (old(Contents()) + [e])[i];
    }

    method Push(e: T)
      requires Valid()
      modifies this, elements
      ensures Valid() && Contents() == old(Contents()) + [e]
      ensures elements == old(elements) || fresh(elements)
    {
      if length == space {
        Double();
      }
      PushHere(e);
    }

    method Pop() returns (r: Option<T>)
      requires Valid()
      modifies this
      ensures Valid() && elements == old(elements)
      ensures old(length) == 0 ==> r == None && Contents() == old(Contents())
      ensures old(length) > 0 ==> r == Some(old(Contents())[0]) && Contents() == old(Contents())[1..]
    {
      if length == 0 {
        return None;
      }
      r := Some(elements[tail]);
      assert Slot(0) == tail;
      ghost var was := Contents();
      ghost var t := tail;
      Advance(tail, length - 1, space);
      Wrap(tail + 1, space);
      tail := (tail + 1) % space;
      length := length - 1;
      assert forall i :: 0 <= i < length ==> Contents()[i] == was[i + 1];
    }

    method Spop() returns (r: Option<T>)
      requires Valid()
      modifies this
      ensures Valid() && elements == old(elements)
      ensures old(length) == 0 ==> r == None && Contents() == old(Contents())
      ensures old(length) > 0 ==>
                r == Some(old(Contents())[old(length) - 1]) && Contents() == old(Contents())[..old(length) - 1]
    {
      if length == 0 {
        return None;
      }
      HeadIsSlot();
      Retreat(head, space);
      length := length - 1;
      head := (head - 1 + space) % space;
      assert head == Slot(length);
      r := Some(elements[head]);
    }

    // ---------------------------------------------------------------- queue_remove

    // One turn of queue_shiftleft.
    method MoveBack(i: nat)
      requires Valid() && 0 < i < length
      modifies elements
      ensures Valid() && Contents() == old(Contents())[i - 1 := old(Contents())[i]]
    {
      Back(tail, i, space);
      assert (i - 1 + tail + space) % space == Slot(i - 1);
      elements[(i - 1 + tail + space) % space] := elements[Slot(i)];
    }

    // One turn of queue_shiftright.
    method MoveOn(i: nat)
      requires Valid() && i + 1 < length
      modifies elements
      ensures Valid() && Contents() == old(Contents())[i + 1 := old(Contents())[i]]
    {
      elements[Slot(i + 1)] := elements[Slot(i)];
    }

    // queue_shiftleft: elements from `index` on move one place towards the front.
    method ShiftLeft(index: nat)
      requires Valid() && 0 < index <= length
      modifies elements
      ensures Valid()
      ensures forall k :: 0 <= k < length ==>
                Contents()[k] == old(Contents())[if index - 1 <= k < length - 1 then k + 1 else k]
    {
      ghost var was := Contents();
      for i := index to length
        invariant Valid()
        invariant forall k :: 0 <= k < length ==>
                    Contents()[k] == was[if index - 1 <= k < i - 1 then k + 1 else k]
      {
        MoveBack(i);
      }
    }

    // queue_shiftright: elements up to `index` move one place towards the back.
    method ShiftRight(index: int)
      requires Valid() && -1 <= index < length - 1
      modifies elements
      ensures Valid()
      ensures forall k :: 0 <= k < length ==>
                Contents()[k] == old(Contents())[if 0 < k <= index + 1 then k - 1 else k]
    {
      ghost var was := Contents();
      var i := index;
      while i >= 0
        invariant -1 <= i <= index
        invariant Valid()
        invariant forall k :: 0 <= k < length ==>
                    Contents()[k] == was[if i + 1 < k <= index + 1 then k - 1 else k]
      {
        MoveOn(i);
        i := i - 1;
      }
    }

    // qsearchi
    method Search(match_: T -> bool) returns (index: int)
      requires Valid()
      ensures index == FirstMatch(Contents(), match_)
    {
      for i := 0 to length
        invariant forall k :: 0 <= k < i ==> !match_(Contents()[k])
      {
        var element := elements[Slot(i)];
        assert element == Contents()[i];
        if match_(element) {
          return i;
        }
      }
      index := -1;
    }

    // Deletes exactly the first match, whichever side it shifts.
    method Remove(match_: T -> bool) returns (r: Option<T>)
      requires Valid()
      modifies this, elements
      ensures Valid() && elements == old(elements)
      ensures var i := FirstMatch(old(Contents()), match_);
        if i == -1 then r == None && Contents() == old(Contents())
        else r == Some(old(Contents())[i]) && Contents() == RemovedAt(old(Contents()), i)
    {
      var index := Search(match_);
      if index == -1 {
        return None;
      }
      r := Some(elements[Slot(index)]);
      if index > length / 2 {
        CloseFromBack(index);
      } else {
        CloseFromFront(index);
      }
    }

    method CloseFromBack(index: nat)
      requires Valid() && index < length
      modifies this, elements
      ensures Valid() && elements == old(elements) && Contents() == RemovedAt(old(Contents()), index)
    {
      ghost var was := Contents();
      ShiftLeft(index + 1);
      ghost var shifted := Contents();
      DropLast();
      LeftShifted(was, shifted, index);
    }

    method CloseFromFront(index: nat)
      requires Valid() && index < length
      modifies this, elements
      ensures Valid() && elements == old(elements) && Contents() == RemovedAt(old(Contents()), index)
    {
      ShiftRight(index - 1);
      DropFirst();
    }

    method DropLast()
      requires Valid() && length > 0
      modifies this
      ensures Valid() && elements == old(elements)
      ensures Contents() == old(Contents())[..old(length) - 1]
    {
      HeadIsSlot();
      Retreat(head, space);
      head := (head - 1 + space) % space;
      length := length - 1;
      assert head == Slot(length);
    }

    method DropFirst()
      requires Valid() && length > 0
      modifies this
      ensures Valid() && elements == old(elements)
      ensures Contents() == old(Contents())[1..]
    {
      var e := Pop();
    }

    // ---------------------------------------------------------------- queue_filter, queue_concat

    // `at` are the positions of the kept elements.
    method Filter(keep: T -> bool) returns (filtered: Queue<T>, ghost at: seq<nat>)
      requires Valid()
      ensures filtered.Valid() && fresh(filtered) && fresh(filtered.elements)
      ensures filtered.Contents() == Filtered(Contents(), keep)
      ensures forall i, j :: 0 <= i < j < |at| ==> at[i] < at[j]
      ensures forall k: nat :: k in at <==> k < length && keep(Contents()[k])
      ensures filtered.length == |at|
      ensures forall i :: 0 <= i < |at| ==> at[i] in at && filtered.Contents()[i] == Contents()[at[i]]
    {
      filtered := new Queue<T>();
      ghost var s := Contents();
      for i := 0 to length
        invariant filtered.Valid() && fresh(filtered) && fresh(filtered.elements)
        invariant filtered.Contents() == Filtered(s[..i], keep)
      {
        var element := elements[Slot(i)];
        assert element == s[i];
        assert s[..i + 1][..i] == s[..i];
        if keep(element) {
          filtered.Push(element);
        }
      }
      assert s[..length] == s;
      at := FilteredSelects(s, keep);
    }

    // ---------------------------------------------------------------- queue_shuffle

    method Swap(i: nat, j: nat)
      requires Valid() && i < length && j < length
      modifies elements
      ensures Valid()
      ensures Contents() == old(Contents())[i := old(Contents())[j]][j := old(Contents())[i]]
    {
      var tmp := Get(i);
      var other := Get(j);
      Set(other, i);
      Set(tmp, j);
    }

    // Each j is drawn strictly below i, so no element stays where it was. `from` records where the
    // element now at each position came from; `draws` stands for rand().
    method Shuffle(draws: nat -> nat) returns (ghost from: seq<nat>)
      requires Valid()
      modifies elements
      ensures Valid() && length == old(length)
      ensures |from| == length && forall k :: 0 <= k < length ==> from[k] < length
      ensures forall k :: 0 <= k < length ==> Contents()[k] == old(Contents())[from[k]]
      ensures forall j, k :: 0 <= j < k < length ==> from[j] != from[k]
      ensures length >= 2 ==> forall k :: 0 <= k < length ==> from[k] != k
    {
      ghost var was := Contents();
      from := seq(length, i => i);
      var i := length - 1;
      while i > 0
        invariant -1 <= i < length && Valid()
        invariant length > 0 ==> i >= 0
        invariant Drawn(from, length, i) && Contents() == Rearranged(was, from)
        decreases i
      {
        var j := draws(i) % i;
        Swap(i, j);
        DrawStep(from, length, i, j);
        RearrangedSwap(was, from, i, j);
        from := Swapped(from, i, j);
        i := i - 1;
      }
    }
  }

  function Swapped<T>(s: seq<T>, i: nat, j: nat): seq<T>
    requires i < |s| && j < |s|
  {
    s[i := s[j]][j := s[i]]
  }

  function Rearranged<T>(s: seq<T>, from: seq<nat>): (r: seq<T>)
    requires |from| == |s| && forall k :: 0 <= k < |from| ==> from[k] < |s|
    ensures |r| == |s| && forall k :: 0 <= k < |r| ==> r[k] == s[from[k]]
  {
    seq(|s|, k requires 0 <= k < |s| => s[from[k]])
  }

  lemma RearrangedSwap<T>(s: seq<T>, from: seq<nat>, i: nat, j: nat)
    requires |from| == |s| && i < |s| && j < |s| && forall k :: 0 <= k < |from| ==> from[k] < |s|
    ensures Rearranged(s, Swapped(from, i, j)) == Swapped(Rearranged(s, from), i, j)
  {
  }

  // With positions above i settled: a permutation; no settled position holds its own element; an
  // open position holds its own element or one from a settled position.
  ghost predicate Drawn(from: seq<nat>, n: nat, i: int) {
    && |from| == n
    && (forall k :: 0 <= k < n ==> from[k] < n)
    && (forall j, k :: 0 <= j < k < n ==> from[j] != from[k])
    && (forall k :: 0 <= k < n && k <= i ==> from[k] == k || from[k] > i)
    && (forall k :: 0 <= k < n && k > i ==> from[k] != k)
    && (i < n - 1 ==> exists k :: 0 <= k < n && k <= i && from[k] > i)
  }

  lemma DrawStep(from: seq<nat>, n: nat, i: nat, j: nat)
    requires Drawn(from, n, i) && j < i < n
    ensures Drawn(Swapped(from, i, j), n, i - 1)
  {
    assert Swapped(from, i, j)[j] == from[i] > i - 1;
  }

  lemma Advance(tail: nat, length: nat, space: nat)
    requires tail < space && length < space
    ensures ((tail + length) % space + 1) % space == (tail + (length + 1)) % space
    ensures ((tail + 1) % space + length) % space == (tail + (length + 1)) % space
  {
    Wrap(tail + length, space);
    Wrap((tail + length) % space + 1, space);
    Wrap(tail + (length + 1), space);
    Wrap(tail + 1, space);
    Wrap((tail + 1) % space + length, space);
  }

  lemma Retreat(head: nat, space: nat)
    requires head < space
    ensures (head - 1 + space) % space == if head == 0 then space - 1 else head - 1
  {
    Wrap(head - 1 + space, space);
  }

  lemma Back(tail: nat, i: nat, space: nat)
    requires tail < space && 0 < i < space
    ensures (i - 1 + tail + space) % space == (i - 1 + tail) % space
  {
    var x := i - 1 + tail;
    Wrap(x, space);
    if x < space {
      QuotientUnique(x + space, 1, x, space);
    } else {
      QuotientUnique(x + space, 2, x - space, space);
    }
  }
}
