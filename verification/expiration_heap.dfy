/** The binary min-heap that indexes the attempt map by the time its oldest timestamp expires.
    It is kept in a list and repaired with a moving hole, the value in flight being written last. */
module ExpirationHeap {
  import opened Common

  datatype Expiration = Expiration(key: string, expiresAt: int)

  function Parent(i: nat): (p: nat)
    requires 0 < i
    ensures p < i
  {
    (i - 1) / 2
  }

  /** The element at `child` expires no earlier than the one at `parent`. */
  ghost predicate InOrder(h: seq<Expiration>, parent: nat, child: nat)
    requires parent < |h| && child < |h|
  {
    h[parent].expiresAt <= h[child].expiresAt
  }

  ghost predicate HeapOrdered(h: seq<Expiration>) {
    forall i: nat {:trigger Parent(i)} :: 0 < i < |h| ==> InOrder(h, Parent(i), i)
  }

  /** Heap order with the element at `hole` ignored: its parent and its children are in order. */
  ghost predicate OrderedAround(h: seq<Expiration>, hole: nat)
    requires hole < |h|
  {
    && (forall i: nat {:trigger Parent(i)} ::
          0 < i < |h| && i != hole && Parent(i) != hole ==> InOrder(h, Parent(i), i))
    && (forall i: nat {:trigger Parent(i)} ::
          0 < hole && 0 < i < |h| && Parent(i) == hole ==> InOrder(h, Parent(hole), i))
  }

  /** `value` expires no later than any child of `hole`. */
  ghost predicate BelowChildren(h: seq<Expiration>, hole: nat, value: Expiration)
  {
    forall i: nat {:trigger Parent(i)} ::
      0 < i < |h| && Parent(i) == hole ==> value.expiresAt <= h[i].expiresAt
  }

  /** `value` expires no earlier than the parent of `hole`. */
  ghost predicate AboveParent(h: seq<Expiration>, hole: nat, value: Expiration)
    requires hole < |h|
  {
    0 < hole ==> h[Parent(hole)].expiresAt <= value.expiresAt
  }

  lemma {:induction false} RootIsLeast(h: seq<Expiration>, i: nat)
    requires HeapOrdered(h) && i < |h|
    ensures h[0].expiresAt <= h[i].expiresAt
  {
    if 0 < i {
      RootIsLeast(h, Parent(i));
      assert InOrder(h, Parent(i), i);
    }
  }

  lemma SwapKeepsMultiset<T>(s: seq<T>, i: nat, j: nat)
    requires i < |s| && j < |s|
    ensures multiset(s[i := s[j]][j := s[i]]) == multiset(s)
  {
  }

  lemma FillingTheHole(h: seq<Expiration>, hole: nat, value: Expiration)
    requires hole < |h| && OrderedAround(h, hole)
    requires BelowChildren(h, hole, value) && AboveParent(h, hole, value)
    ensures HeapOrdered(h[hole := value])
  {
  }

  /** The parent's element moves down into the hole and the hole moves up. */
  lemma HoleMovesUp(h: seq<Expiration>, hole: nat, value: Expiration)
    requires 0 < hole < |h| && OrderedAround(h, hole)
    requires value.expiresAt < h[Parent(hole)].expiresAt
    ensures
      var up := Parent(hole);
      var moved := h[hole := h[up]];
      && OrderedAround(moved, up)
      && BelowChildren(moved, up, value)
      && multiset(moved[up := value]) == multiset(h[hole := value])
  {
    var up := Parent(hole);
    var moved := h[hole := h[up]];
    forall i: nat {:trigger Parent(i)} | 0 < i < |h| && i != up && Parent(i) != up
      ensures InOrder(moved, Parent(i), i)
    {
      if Parent(i) == hole {
        assert InOrder(h, up, i);
      } else {
        assert InOrder(h, Parent(i), i);
      }
    }
    forall i: nat {:trigger Parent(i)} | 0 < i < |h| && Parent(i) == up
      ensures value.expiresAt <= moved[i].expiresAt
      ensures 0 < up ==> InOrder(moved, Parent(up), i)
    {
      if i != hole {
        assert InOrder(h, Parent(i), i);
      }
      if 0 < up {
        assert InOrder(h, Parent(up), up);
      }
    }
    var whole := h[hole := value];
    assert moved[up := value] == whole[hole := whole[up]][up := whole[hole]];
    SwapKeepsMultiset(whole, hole, up);
  }

  /** The smaller child's element moves up into the hole and the hole moves down. */
  lemma HoleMovesDown(h: seq<Expiration>, hole: nat, child: nat, value: Expiration)
    requires hole < |h| && 0 < child < |h| && Parent(child) == hole
    requires OrderedAround(h, hole)
    requires BelowChildren(h, hole, h[child])
    requires h[child].expiresAt < value.expiresAt
    ensures
      var moved := h[hole := h[child]];
      && OrderedAround(moved, child)
      && AboveParent(moved, child, value)
      && multiset(moved[child := value]) == multiset(h[hole := value])
  {
  }

  lemma BelowChildrenOfLess(h: seq<Expiration>, hole: nat, value: Expiration, greater: Expiration)
    requires BelowChildren(h, hole, greater) && value.expiresAt <= greater.expiresAt
    ensures BelowChildren(h, hole, value)
  {
  }

  lemma SmallerChild(h: seq<Expiration>, hole: nat, child: nat)
    requires 2 * hole + 1 < |h|
    requires child == if 2 * hole + 2 < |h| && h[2 * hole + 2].expiresAt < h[2 * hole + 1].expiresAt
                      then 2 * hole + 2 else 2 * hole + 1
    ensures Parent(child) == hole && BelowChildren(h, hole, h[child])
  {
  }

  lemma NoChildren(h: seq<Expiration>, hole: nat, value: Expiration)
    requires |h| <= 2 * hole + 1
    ensures BelowChildren(h, hole, value)
  {
  }

  lemma StartAtTheEnd(h: seq<Expiration>, value: Expiration)
    requires HeapOrdered(h)
    ensures
      var items := h + [value];
      OrderedAround(items, |h|) && BelowChildren(items, |h|, value) && items[|h| := value] == items
  {
  }

  lemma StartAtTheRoot(h: seq<Expiration>)
    requires HeapOrdered(h) && 1 < |h|
    ensures
      var items := h[..|h| - 1];
      && OrderedAround(items, 0)
      && multiset(items[0 := h[|h| - 1]]) + multiset{h[0]} == multiset(h)
  {
    var items := h[..|h| - 1];
    forall i: nat {:trigger Parent(i)} | 0 < i < |items|
      ensures InOrder(items, Parent(i), i)
    {
      assert InOrder(h, Parent(i), i);
    }
    assert h == items + [h[|h| - 1]];
  }

  class Heap {
    var items: seq<Expiration>

    constructor ()
      ensures items == []
    {
      items := [];
    }

    method Push(value: Expiration)
      requires HeapOrdered(items)
      modifies this
      ensures HeapOrdered(items)
      ensures multiset(items) == old(multiset(items)) + multiset{value}
      ensures |items| == old(|items|) + 1
    {
      items := items + [value];
      var index := |items| - 1;
      StartAtTheEnd(old(items), value);
      while index > 0
        invariant 0 <= index < |items| == old(|items|) + 1
        invariant OrderedAround(items, index) && BelowChildren(items, index, value)
        invariant multiset(items[index := value]) == old(multiset(items)) + multiset{value}
      {
        var parent := Parent(index);
        if items[parent].expiresAt <= value.expiresAt {
          break;
        }
        HoleMovesUp(items, index, value);
        items := items[index := items[parent]];
        index := parent;
      }
      FillingTheHole(items, index, value);
      items := items[index := value];
    }

    method Pop() returns (first: Option<Expiration>)
      requires HeapOrdered(items)
      modifies this
      ensures HeapOrdered(items)
      ensures old(items) == [] <==> first == None
      ensures first == None ==> items == []
      ensures first.Some? ==>
                && first.value == old(items)[0]
                && old(multiset(items)) == multiset(items) + multiset{first.value}
                && |items| == old(|items|) - 1
    {
      if |items| == 0 {
        return None;
      }
      first := Some(items[0]);
      var last := items[|items| - 1];
      items := items[..|items| - 1];
      if |items| == 0 {
        assert old(items) == [first.value];
        return;
      }
      StartAtTheRoot(old(items));
      ghost var rest := multiset(items[0 := last]);
      SiftDown(last, rest);
    }

    /** Moves the hole at the root down to where `last` belongs and writes it there. */
    method SiftDown(last: Expiration, ghost rest: multiset<Expiration>)
      requires 0 < |items| && OrderedAround(items, 0)
      requires multiset(items[0 := last]) == rest
      modifies this
      ensures HeapOrdered(items) && multiset(items) == rest && |items| == old(|items|)
    {
      var index := 0;
      while true
        invariant 0 <= index < |items| == old(|items|)
        invariant OrderedAround(items, index) && AboveParent(items, index, last)
        invariant multiset(items[index := last]) == rest
        decreases |items| - index
      {
        var left := index * 2 + 1;
        if left >= |items| {
          NoChildren(items, index, last);
          break;
        }
        var right := left + 1;
        var child := if right < |items| && items[right].expiresAt < items[left].expiresAt then right else left;
        SmallerChild(items, index, child);
        if items[child].expiresAt >= last.expiresAt {
          BelowChildrenOfLess(items, index, last, items[child]);
          break;
        }
        HoleMovesDown(items, index, child, last);
        items := items[index := items[child]];
        index := child;
      }
      FillingTheHole(items, index, last);
      items := items[index := last];
    }
  }
}
