/**
 The expiry heap of the verification result cache: Go's `container/heap` over a slice of
 pointers to heap entries. Every entry carries a back-pointer (`index`) to its position, which
 the cache uses to remove or re-position an entry that it found through its key.
 */
module ExpiryHeap {

  datatype Key = Key(digest: string, namespace: string)

  class HeapEntry {
    const cacheKey: Key
    var expiresAt: int
    var index: int

    constructor (cacheKey: Key, expiresAt: int)
      ensures this.cacheKey == cacheKey && this.expiresAt == expiresAt && index == 0
    {
      this.cacheKey, this.expiresAt, index := cacheKey, expiresAt, 0;
    }
  }

  // ---------- The heap order, on the sequence of expiry times ----------

  function Parent(k: int): (p: int)
    requires 0 < k
    ensures 0 <= p < k && ParentOf(p, k)
  {
    (k - 1) / 2
  }

  predicate ParentOf(p: int, k: int)
  {
    k == 2 * p + 1 || k == 2 * p + 2
  }

  function Swapped<T>(s: seq<T>, i: int, j: int): (r: seq<T>)
    requires 0 <= i < |s| && 0 <= j < |s|
  {
    s[i := s[j]][j := s[i]]
  }

  // The first n times form a min-heap.
  ghost predicate Ordered(t: seq<int>, n: int)
    requires n <= |t|
  {
    forall p, k {:trigger ParentOf(p, k)} :: 0 <= p < k < n && ParentOf(p, k) ==> t[p] <= t[k]
  }

  // The first n times form a min-heap except that position `hole` may be out of order with its
  // parent and with its children; its children are still in order with its parent.
  ghost predicate OrderedBut(t: seq<int>, n: int, hole: int)
    requires n <= |t|
  {
    && (forall p, k {:trigger ParentOf(p, k)} :: 0 <= p < k < n && ParentOf(p, k) && k != hole && p != hole ==> t[p] <= t[k])
    && (forall p, k {:trigger ParentOf(p, hole), ParentOf(hole, k)} ::
          0 <= p < hole < k < n && ParentOf(p, hole) && ParentOf(hole, k) ==> t[p] <= t[k])
  }

  ghost predicate ChildrenAfter(t: seq<int>, n: int, i: int)
    requires 0 <= i < |t| && n <= |t|
  {
    forall k {:trigger ParentOf(i, k)} :: i < k < n && ParentOf(i, k) ==> t[i] <= t[k]
  }

  ghost predicate ParentBefore(t: seq<int>, i: int)
    requires 0 <= i < |t|
  {
    forall p {:trigger ParentOf(p, i)} :: 0 <= p < i && ParentOf(p, i) ==> t[p] <= t[i]
  }

  // In a heap the first time is the smallest one.
  lemma {:induction false} RootIsSoonest(t: seq<int>, n: int, k: int)
    requires 0 <= k < n <= |t| && Ordered(t, n)
    ensures t[0] <= t[k]
    decreases k
  {
    if 0 < k {
      RootIsSoonest(t, n, Parent(k));
    }
  }

  lemma UpStep(t: seq<int>, n: int, j: int)
    requires 0 < j < n <= |t| && OrderedBut(t, n, j) && ChildrenAfter(t, n, j)
    requires t[j] < t[Parent(j)]
    ensures OrderedBut(Swapped(t, Parent(j), j), n, Parent(j))
    ensures ChildrenAfter(Swapped(t, Parent(j), j), n, Parent(j))
  {
  }

  lemma DownStep(t: seq<int>, n: int, i: int, j: int)
    requires 0 <= i < j < n <= |t| && ParentOf(i, j) && OrderedBut(t, n, i)
    requires t[j] < t[i] && forall k {:trigger ParentOf(i, k)} :: i < k < n && ParentOf(i, k) ==> t[j] <= t[k]
    ensures OrderedBut(Swapped(t, i, j), n, j) && ParentBefore(Swapped(t, i, j), j)
  {
  }

  lemma Settled(t: seq<int>, n: int, i: int)
    requires 0 <= i < |t| && n <= |t| && OrderedBut(t, n, i)
    requires ParentBefore(t, i) && ChildrenAfter(t, n, i)
    ensures Ordered(t, n)
  {
  }

  // After position i is swapped with the last one, the times before the last one are in order
  // except around i.
  lemma SwapWithLast(t: seq<int>, i: int)
    requires 0 <= i < |t| && Ordered(t, |t|)
    ensures OrderedBut(Swapped(t, i, |t| - 1), |t| - 1, i)
  {
  }

  lemma ChangeOne(t: seq<int>, i: int, x: int)
    requires 0 <= i < |t| && Ordered(t, |t|)
    ensures OrderedBut(t[i := x], |t|, i)
  {
  }

  // ---------- The heap itself ----------

  ghost function Elems(items: seq<HeapEntry>): (s: set<HeapEntry>)
  {
    set e | e in items
  }

  ghost function Times(items: seq<HeapEntry>): (t: seq<int>)
    reads items
  {
    seq(|items|, k requires 0 <= k < |items| reads items => items[k].expiresAt)
  }

  // Every entry knows its position. This also makes the entries pairwise distinct.
  ghost predicate Indexed(items: seq<HeapEntry>)
    reads items
  {
    forall k :: 0 <= k < |items| ==> items[k].index == k
  }

  lemma SwapKeepsElems(items: seq<HeapEntry>, i: int, j: int)
    requires 0 <= i < |items| && 0 <= j < |items|
    ensures Elems(Swapped(items, i, j)) == Elems(items)
  {
    var swapped := Swapped(items, i, j);
    forall e | e in items
      ensures e in swapped
    {
      var k :| 0 <= k < |items| && items[k] == e;
      assert swapped[if k == i then j else if k == j then i else k] == e;
    }
  }

  class Heap {
    var items: seq<HeapEntry>

    constructor ()
      ensures items == []
    {
      items := [];
    }

    ghost predicate Valid()
      reads this, items
    {
      Indexed(items) && Ordered(Times(items), |items|)
    }

    predicate Less(i: int, j: int)
      requires 0 <= i < |items| && 0 <= j < |items|
      reads this, items
    {
      items[i].expiresAt < items[j].expiresAt
    }

    method Swap(i: int, j: int)
      requires 0 <= i < |items| && 0 <= j < |items|
      requires Indexed(items)
      modifies this, Elems(items)`index
      ensures items == Swapped(old(items), i, j) && Indexed(items)
      ensures Times(items) == Swapped(old(Times(items)), i, j)
      ensures Elems(items) == old(Elems(items))
    {
      items := items[i := items[j]][j := items[i]];
      items[i].index := i;
      items[j].index := j;
      SwapKeepsElems(old(items), i, j);
    }

    // Moves the entry at j0 towards the root, among the first n entries, until its parent does
    // not expire after it.
    method Up(j0: int, ghost n: int)
      requires 0 <= j0 < n <= |items| && Indexed(items)
      requires OrderedBut(Times(items), n, j0) && ChildrenAfter(Times(items), n, j0)
      modifies this, Elems(items)`index
      ensures Indexed(items) && Elems(items) == old(Elems(items)) && |items| == old(|items|)
      ensures items[n..] == old(items)[n..] && Ordered(Times(items), n)
    {
      var j := j0;
      while 0 < j && Less(j, Parent(j))
        invariant 0 <= j < n <= |items| == |old(items)| && Indexed(items)
        invariant OrderedBut(Times(items), n, j) && ChildrenAfter(Times(items), n, j)
        invariant Elems(items) == old(Elems(items))
        invariant items[n..] == old(items)[n..]
        decreases j
      {
        UpStep(Times(items), n, j);
        Swap(Parent(j), j);
        j := Parent(j);
      }
    }

    function SoonestChild(i: int, n: int): (j: int)
      requires 0 <= i && 2 * i + 1 < n <= |items|
      reads this, items
      ensures i < j < n && ParentOf(i, j)
      ensures forall k {:trigger ParentOf(i, k)} :: i < k < n && ParentOf(i, k) ==> items[j].expiresAt <= items[k].expiresAt
    {
      var left := 2 * i + 1;
      if left + 1 < n && Less(left + 1, left) then left + 1 else left
    }

    // Moves the entry at i0 away from the root, within the first n entries, until none of its
    // children expires before it; reports whether it moved.
    method Down(i0: int, n: int) returns (moved: bool)
      requires 0 <= i0 < |items| && 0 <= n <= |items| && Indexed(items)
      requires OrderedBut(Times(items), n, i0)
      modifies this, Elems(items)`index
      ensures Indexed(items) && Elems(items) == old(Elems(items)) && |items| == old(|items|)
      ensures items[n..] == old(items)[n..]
      ensures moved || i0 == 0 ==> Ordered(Times(items), n)
      ensures !moved ==> items == old(items) && ChildrenAfter(Times(items), n, i0)
    {
      var i := i0;
      while true
        invariant i0 <= i < |items| == |old(items)| && Indexed(items)
        invariant i == i0 || i < n
        invariant OrderedBut(Times(items), n, i)
        invariant i0 < i ==> ParentBefore(Times(items), i)
        invariant Elems(items) == old(Elems(items))
        invariant items[n..] == old(items)[n..]
        invariant i == i0 ==> items == old(items)
        decreases n - i
      {
        if 2 * i + 1 >= n {
          assert ChildrenAfter(Times(items), n, i);
          break;
        }
        var j := SoonestChild(i, n);
        if !Less(j, i) {
          assert ChildrenAfter(Times(items), n, i);
          break;
        }
        DownStep(Times(items), n, i, j);
        Swap(i, j);
        i := j;
      }
      if ParentBefore(Times(items), i) {
        Settled(Times(items), n, i);
      }
      moved := i > i0;
    }

    // Moves the entry at position i to where the first n entries are in order.
    method Reposition(i: int, n: int)
      requires 0 <= i < n <= |items| && Indexed(items) && OrderedBut(Times(items), n, i)
      modifies this, Elems(items)`index
      ensures Indexed(items) && Elems(items) == old(Elems(items)) && |items| == old(|items|)
      ensures items[n..] == old(items)[n..] && Ordered(Times(items), n)
    {
      var moved := Down(i, n);
      if !moved {
        Up(i, n);
      }
    }

    method Push(entry: HeapEntry)
      requires Valid() && entry !in items
      modifies this, Elems(items)`index, entry`index
      ensures Valid()
      ensures Elems(items) == old(Elems(items)) + {entry}
    {
      entry.index := |items|;
      items := items + [entry];
      assert Times(items)[..|items| - 1] == old(Times(items));
      Up(|items| - 1, |items|);
    }

    method DropLast() returns (entry: HeapEntry)
      requires items != [] && Indexed(items)
      modifies this, Elems(items)`index
      ensures items == old(items)[..|old(items)| - 1] && entry == old(items)[|old(items)| - 1]
      ensures Indexed(items) && entry.index == -1 && entry !in items
      ensures Times(items) == old(Times(items))[..|items|]
      ensures Elems(items) == old(Elems(items)) - {entry}
    {
      entry := items[|items| - 1];
      entry.index := -1;
      items := items[..|items| - 1];
    }

    // Removes a soonest-expiring entry.
    method Pop() returns (entry: HeapEntry)
      requires items != [] && Valid()
      modifies this, Elems(items)`index
      ensures Valid() && entry.index == -1
      ensures entry in old(items) && entry !in items && Elems(items) == old(Elems(items)) - {entry}
      ensures forall e :: e in old(items) ==> entry.expiresAt <= e.expiresAt
    {
      ghost var first := items[0];
      forall e | e in items
        ensures first.expiresAt <= e.expiresAt
      {
        var k :| 0 <= k < |items| && items[k] == e;
        RootIsSoonest(Times(items), |items|, k);
      }
      var n := |items| - 1;
      Swap(0, n);
      var _ := Down(0, n);
      assert items[n] == items[n..][0] == first;
      entry := DropLast();
    }

    // Moves the entry at position i behind the others, which stay in order.
    method MoveToEnd(i: int)
      requires 0 <= i < |items| && Valid()
      modifies this, Elems(items)`index
      ensures Indexed(items) && Elems(items) == old(Elems(items)) && |items| == old(|items|)
      ensures Ordered(Times(items), |items| - 1) && items[|items| - 1] == old(items)[i]
    {
      ghost var moved, times := items[i], Times(items);
      var n := |items| - 1;
      if i != n {
        Swap(i, n);
        assert OrderedBut(Times(items), n, i) by {
          SwapWithLast(times, i);
        }
        Reposition(i, n);
        assert items[n] == items[n..][0] == moved;
      }
    }

    // Removes the entry at position i.
    method Remove(i: int) returns (entry: HeapEntry)
      requires 0 <= i < |items| && Valid()
      modifies this, Elems(items)`index
      ensures Valid() && entry == old(items)[i] && entry.index == -1
      ensures entry !in items && Elems(items) == old(Elems(items)) - {entry}
    {
      MoveToEnd(i);
      entry := DropLast();
    }

    // Restores the heap order after the expiry time of the entry at position i changed.
    method Fix(i: int)
      requires 0 <= i < |items| && Indexed(items) && OrderedBut(Times(items), |items|, i)
      modifies this, Elems(items)`index
      ensures Valid() && Elems(items) == old(Elems(items))
    {
      Reposition(i, |items|);
    }
  }
}
