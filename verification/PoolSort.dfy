/** The two sorts of the free block pool (lib/libdict/tchdb.c:1007-1043, 1380-1416): a heapsort
    whose children of p are 2p and 2p + 1, so that index 0 is its own child and sits above an
    ordinary heap rooted at index 1. The two differ only in the field they compare. */
module PoolSort {
  import opened Tiles

  datatype Field = ByOff | BySize

  function Key(f: Field, b: Block): nat { if f.ByOff? then b.off else b.rsiz }

  ghost predicate Sorted(f: Field, s: seq<Block>) {
    forall i, j :: 0 <= i < j < |s| ==> Key(f, s[i]) <= Key(f, s[j])
  }

  ghost predicate Edge(p: int, c: int) { (c == 2 * p || c == 2 * p + 1) && c >= 1 }

  /** Up to index top, every parent from lo on, except `hole`, is at least its children. */
  ghost predicate HeapExcept(f: Field, s: seq<Block>, top: int, lo: int, hole: int)
    requires top < |s|
  {
    forall p, c :: Edge(p, c) && lo <= p && p != hole && 0 <= p && c <= top ==> Key(f, s[c]) <= Key(f, s[p])
  }

  /** The parent of `hole` is at least the children of `hole`. */
  ghost predicate Bridged(f: Field, s: seq<Block>, top: int, lo: int, hole: int)
    requires top < |s|
  {
    forall p, c :: Edge(p, hole) && lo <= p < hole && 0 <= p && Edge(hole, c) && c <= top ==>
      Key(f, s[c]) <= Key(f, s[p])
  }

  ghost predicate Heap(f: Field, s: seq<Block>, top: int, lo: int)
    requires top < |s|
  {
    forall p, c :: Edge(p, c) && lo <= p && 0 <= p && c <= top ==> Key(f, s[c]) <= Key(f, s[p])
  }

  ghost predicate Capped(f: Field, s: seq<Block>, top: int, cap: nat)
    requires top < |s|
  {
    forall i :: 0 <= i <= top ==> Key(f, s[i]) <= cap
  }

  function Swapped(s: seq<Block>, i: nat, j: nat): seq<Block>
    requires i < |s| && j < |s|
  {
    s[i := s[j]][j := s[i]]
  }

  /** A heap from 0 on has its largest element at index 0. */
  lemma {:induction false} RootIsLargest(f: Field, s: seq<Block>, top: int, k: nat)
    requires k <= top < |s| && Heap(f, s, top, 0)
    ensures Key(f, s[k]) <= Key(f, s[0])
  {
    if k > 0 {
      RootIsLargest(f, s, top, k / 2);
      assert Edge(k / 2, k);
    }
  }

  /** A heap above the hole is all the inner loop starts from. */
  lemma SiftStart(f: Field, s: seq<Block>, top: int, hole: nat, cap: nat)
    requires top < |s| && Heap(f, s, top, hole + 1)
    ensures HeapExcept(f, s, top, hole, hole) && Bridged(f, s, top, hole, hole) && Kept(f, s, s, top, cap)
  {
  }

  /** One step of the inner loop: swapping the hole with its largest child moves the hole down. */
  lemma SiftStep(f: Field, s: seq<Block>, top: int, lo: nat, hole: nat, c: nat)
    requires hole < c <= top < |s| && Edge(hole, c) && lo <= hole
    requires HeapExcept(f, s, top, lo, hole) && Bridged(f, s, top, lo, hole)
    requires Key(f, s[hole]) < Key(f, s[c])
    requires forall d :: Edge(hole, d) && d <= top ==> Key(f, s[d]) <= Key(f, s[c])
    ensures HeapExcept(f, Swapped(s, hole, c), top, lo, c)
    ensures Bridged(f, Swapped(s, hole, c), top, lo, c)
  {
    var t := Swapped(s, hole, c);
    forall p, d | Edge(p, d) && lo <= p && p != c && 0 <= p && d <= top
      ensures Key(f, t[d]) <= Key(f, t[p])
    {
      if p != hole && d == hole {
        assert Edge(p, hole) && p < hole;
      }
    }
  }

  /** When the hole is at least its children nothing is missing any more. */
  lemma SiftEnd(f: Field, s: seq<Block>, top: int, lo: nat, hole: nat)
    requires top < |s| && HeapExcept(f, s, top, lo, hole)
    requires forall d :: Edge(hole, d) && d <= top ==> Key(f, s[d]) <= Key(f, s[hole])
    ensures Heap(f, s, top, lo)
  {
  }

  /** s is a rearrangement of `was` that leaves alone everything above top and stays below cap. */
  ghost predicate Kept(f: Field, was: seq<Block>, s: seq<Block>, top: int, cap: nat)
    requires top < |was|
  {
    && |s| == |was| && multiset(s) == multiset(was)
    && (forall k :: top < k < |s| && 0 <= k ==> s[k] == was[k])
    && (Capped(f, was, top, cap) ==> Capped(f, s, top, cap))
  }

  lemma KeptSwap(f: Field, was: seq<Block>, s: seq<Block>, top: int, cap: nat, i: nat, j: nat)
    requires i <= top < |was| && j <= top && Kept(f, was, s, top, cap)
    ensures Kept(f, was, Swapped(s, i, j), top, cap)
  {
    assert multiset(Swapped(s, i, j)) == multiset(s);
  }

  /** The larger child of mybot, as the source picks it. */
  function LargerChild(f: Field, s: seq<Block>, top: nat, mybot: nat): (i: nat)
    requires 2 * mybot <= top < |s|
    ensures i <= top && (i == 2 * mybot || i == 2 * mybot + 1)
    ensures forall d :: Edge(mybot, d) && d <= top ==> Key(f, s[d]) <= Key(f, s[i])
  {
    if 2 * mybot < top && Key(f, s[2 * mybot + 1]) > Key(f, s[2 * mybot]) then 2 * mybot + 1 else 2 * mybot
  }

  /** The inner loop: restores the heap from bottom on, given the heap above it. */
  method SiftDown(a: array<Block>, f: Field, top: int, bottom: nat, ghost cap: nat)
    requires -1 <= top < a.Length
    requires Heap(f, a[..], top, bottom + 1)
    modifies a
    ensures Heap(f, a[..], top, bottom)
    ensures Kept(f, old(a[..]), a[..], top, cap)
  {
    hide HeapExcept, Bridged, Kept, Heap;
    ghost var was := a[..];
    var mybot := bottom;
    var i := 2 * mybot;
    SiftStart(f, was, top, bottom, cap);
    while i <= top
      invariant bottom <= mybot && i == 2 * mybot
      invariant HeapExcept(f, a[..], top, bottom, mybot) && Bridged(f, a[..], top, bottom, mybot)
      invariant Kept(f, was, a[..], top, cap)
      decreases top - mybot
    {
      ghost var now := a[..];
      ghost var pick := LargerChild(f, now, top, mybot);
      if i < top && Key(f, a[i + 1]) > Key(f, a[i]) {
        i := i + 1;
      }
      assert i == pick;
      if Key(f, a[mybot]) >= Key(f, a[i]) {
        break;
      }
      SiftStep(f, now, top, bottom, mybot, i);
      KeptSwap(f, was, now, top, cap, mybot, i);
      a[mybot], a[i] := a[i], a[mybot];
      assert a[..] == Swapped(now, mybot, i);
      mybot := i;
      i := 2 * mybot;
    }
    SiftEnd(f, a[..], top, bottom, mybot);
  }

  lemma KeptPrefix(f: Field, was: seq<Block>, s: seq<Block>, top: int, cap: nat, n: nat)
    requires top < n <= |was| && Kept(f, was, s, top, cap)
    ensures multiset(s[..n]) == multiset(was[..n]) && s[n..] == was[n..]
  {
    assert s == s[..n] + s[n..] && was == was[..n] + was[n..];
    assert s[n..] == was[n..];
    assert multiset(s[..n]) == multiset(s) - multiset(s[n..]);
    assert multiset(was[..n]) == multiset(was) - multiset(was[n..]);
  }

  /** From bottom on no node has a child below top: nothing to order yet. */
  lemma LeavesAreHeap(f: Field, s: seq<Block>, n: nat, bottom: nat)
    requires n <= |s| && 2 * bottom >= n
    ensures Heap(f, s, n - 1, bottom)
  {
  }

  /** The part above top is sorted and at least everything up to top. */
  ghost predicate Placed(f: Field, s: seq<Block>, top: int, n: nat)
    requires top < n <= |s|
  {
    && (forall i, j :: top < i < j < n && 0 <= i ==> Key(f, s[i]) <= Key(f, s[j]))
    && (forall i, j :: 0 <= i <= top < j < n ==> Key(f, s[i]) <= Key(f, s[j]))
  }

  /** Moving the largest element to top leaves a heap above index 0. */
  lemma PlaceLargest(f: Field, s: seq<Block>, top: nat, n: nat)
    requires 0 < top < n <= |s| && Heap(f, s, top, 0) && Placed(f, s, top, n)
    ensures var t := Swapped(s, 0, top);
      && Heap(f, t, top - 1, 1) && Placed(f, t, top - 1, n) && Capped(f, t, top - 1, Key(f, t[top]))
  {
    forall k: nat | k <= top
      ensures Key(f, s[k]) <= Key(f, s[0])
    {
      RootIsLargest(f, s, top, k);
    }
  }

  lemma KeptPlaced(f: Field, was: seq<Block>, s: seq<Block>, top: int, n: nat)
    requires -1 <= top && top + 1 < n <= |was| && Placed(f, was, top, n)
    requires Capped(f, was, top, Key(f, was[top + 1])) && Kept(f, was, s, top, Key(f, was[top + 1]))
    ensures Placed(f, s, top, n)
  {
  }

  /** tcfbpsortbyoff and tcfbpsortbyrsiz: for every length, including 0 and 1, an ascending
      rearrangement of the first n entries that leaves the others alone. */
  method Sort(a: array<Block>, f: Field, n: nat)
    requires n <= a.Length
    modifies a
    ensures Sorted(f, a[..n])
    ensures multiset(a[..n]) == old(multiset(a[..n])) && a[n..] == old(a[n..])
  {
    hide Heap, Kept, Capped, Placed;
    ghost var was := a[..];
    // (n - 1) / 2 + 1 with the division truncating towards zero
    var bottom := (if n == 0 then 0 else (n - 1) / 2) + 1;
    var top := n - 1;
    LeavesAreHeap(f, a[..], n, bottom);
    while bottom > 0
      invariant 0 <= bottom && Heap(f, a[..], top, bottom)
      invariant multiset(a[..n]) == multiset(was[..n]) && a[n..] == was[n..]
    {
      bottom := bottom - 1;
      ghost var before := a[..];
      SiftDown(a, f, top, bottom, 0);
      KeptPrefix(f, before, a[..], top, 0, n);
    }
    NothingPlaced(f, a[..], n);
    while top > 0
      invariant -1 <= top < n
      invariant Heap(f, a[..], top, 0) && Placed(f, a[..], top, n)
      invariant multiset(a[..n]) == multiset(was[..n]) && a[n..] == was[n..]
    {
      PopLargest(a, f, top, n);
      top := top - 1;
    }
    PlacedIsSorted(f, a[..], top, n);
  }

  lemma NothingPlaced(f: Field, s: seq<Block>, n: nat)
    requires n <= |s|
    ensures Placed(f, s, n - 1, n)
  {
  }

  lemma PlacedIsSorted(f: Field, s: seq<Block>, top: int, n: nat)
    requires -1 <= top <= 0 && top < n <= |s| && Placed(f, s, top, n)
    ensures Sorted(f, s[..n])
  {
  }

  /** One round of the second loop: the largest entry goes to top, the rest is sifted. */
  method PopLargest(a: array<Block>, f: Field, top: nat, n: nat)
    requires 0 < top < n <= a.Length && Heap(f, a[..], top, 0) && Placed(f, a[..], top, n)
    modifies a
    ensures Heap(f, a[..], top - 1, 0) && Placed(f, a[..], top - 1, n)
    ensures multiset(a[..n]) == old(multiset(a[..n])) && a[n..] == old(a[n..])
  {
    hide Heap, Kept, Capped, Placed;
    ghost var before := a[..];
    PlaceLargest(f, before, top, n);
    a[0], a[top] := a[top], a[0];
    ghost var mid := a[..];
    assert mid == Swapped(before, 0, top);
    SwapPrefix(before, 0, top, n);
    ghost var cap := Key(f, mid[top]);
    SiftDown(a, f, top - 1, 0, cap);
    KeptPrefix(f, mid, a[..], top - 1, cap, n);
    KeptPlaced(f, mid, a[..], top - 1, n);
  }

  lemma SwapPrefix(s: seq<Block>, i: nat, j: nat, n: nat)
    requires i < n <= |s| && j < n
    ensures multiset(Swapped(s, i, j)[..n]) == multiset(s[..n]) && Swapped(s, i, j)[n..] == s[n..]
  {
    assert Swapped(s, i, j)[..n] == Swapped(s[..n], i, j);
  }
}
