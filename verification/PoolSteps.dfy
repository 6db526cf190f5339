/** Single steps on the entries of the free block pool, as sequence and as multiset. */
module PoolSteps {
  import opened KeyOrder
  import opened Tiles
  import opened FreePool
  import PoolSort
  import PoolMerge
  import PoolCodec
  import Allocator

  /** Swapping in the last of n entries and dropping it removes exactly entry i. */
  lemma RemoveAt(s: seq<Block>, i: nat)
    requires i < |s|
    ensures multiset(s[i := s[|s| - 1]][..|s| - 1]) == multiset(s) - multiset{s[i]}
  {
    var n := |s| - 1;
    var t := s[i := s[n]];
    ReplaceAt(s, i, s[n]);
    assert t == t[..n] + [s[n]];
    AppendOne(t[..n], s[n]);
    Cancel(multiset(t[..n]), multiset(s) - multiset{s[i]}, s[n]);
  }

  lemma Cancel(a: multiset<Block>, b: multiset<Block>, x: Block)
    requires a + multiset{x} == b + multiset{x}
    ensures a == b
  {
    forall y
      ensures a[y] == b[y]
    {
      assert (a + multiset{x})[y] == (b + multiset{x})[y];
    }
  }

  lemma ReplaceAt(s: seq<Block>, i: nat, b: Block)
    requires i < |s|
    ensures multiset(s[i := b]) == multiset(s) - multiset{s[i]} + multiset{b}
  {
  }

  lemma AppendOne(s: seq<Block>, b: Block)
    ensures multiset(s + [b]) == multiset(s) + multiset{b}
  {
  }

  lemma DropSome(s: seq<Block>, n: nat)
    requires n <= |s|
    ensures multiset(s[n..]) <= multiset(s)
  {
    assert s == s[..n] + s[n..];
  }

  lemma TakeSome(s: seq<Block>, n: nat)
    requires n <= |s|
    ensures multiset(s[..n]) <= multiset(s)
  {
    assert s == s[..n] + s[n..];
  }

  method MoveDown(a: array<Block>, d: nat, n: nat)
    requires d <= n <= a.Length
    modifies a
    ensures a[..n - d] == old(a[d..n])
  {
    forall i | 0 <= i < n - d { a[i] := a[i + d]; }
  }

  lemma NotEmpty(entries: multiset<Block>, b: Block, disk: Disk, fsiz: nat, pend: nat)
    requires PoolOk(entries, disk, fsiz, pend) && IsRun(disk, fsiz, pend, b)
    ensures b.rsiz > 0 && forall c :: c in entries ==> c.rsiz > 0
  {
  }

  lemma EntryNotEmpty(entries: multiset<Block>, b: Block, disk: Disk, fsiz: nat, pend: nat)
    requires PoolOk(entries, disk, fsiz, pend) && b in entries
    ensures b.rsiz > 0
  {
  }

  /** A block apart from every entry is apart from every entry that merging and dropping leave. */
  lemma RoomStaysApart(sorted: seq<Block>, bySize: seq<Block>, dropped: nat, b: Block)
    requires forall c :: c in multiset(sorted) ==> Apart(b, c)
    requires multiset(bySize) == multiset(PoolMerge.MergePairs(sorted)) && dropped <= |bySize|
    requires b.rsiz > 0 && forall c :: c in multiset(sorted) ==> c.rsiz > 0
    ensures forall c :: c in multiset(bySize[dropped..]) ==> Apart(b, c)
  {
    forall c | c in multiset(bySize[dropped..])
      ensures Apart(b, c)
    {
      DropSome(bySize, dropped);
      assert c in multiset(PoolMerge.MergePairs(sorted));
      MergeApart(sorted, b);
    }
  }

  lemma {:induction false} MergeApart(s: seq<Block>, b: Block)
    requires forall c :: c in multiset(s) ==> Apart(b, c) && c.rsiz > 0
    requires b.rsiz > 0
    ensures forall c :: c in multiset(PoolMerge.MergePairs(s)) ==> Apart(b, c)
  {
    if |s| >= 2 {
      assert s[0] in multiset(s) && s[1] in multiset(s);
      if EndOf(s[0]) == s[1].off {
        assert s == s[..2] + s[2..];
        MergeApart(s[2..], b);
      } else {
        assert s == [s[0]] + s[1..];
        MergeApart(s[1..], b);
      }
    }
  }

  /** Entry i is the first that is larger than rsiz; its front, rounded up, is handed out when it is
      more than twice as large, else all of it. */
  predicate Served(before: seq<Block>, i: nat, rsiz: nat, off: nat, size: nat, after: multiset<Block>) {
    && i < |before| && before[i].rsiz > rsiz && (forall j :: 0 <= j < i ==> before[j].rsiz <= rsiz)
    && off == before[i].off
    && if before[i].rsiz > 2 * rsiz
       then size == rsiz + PadSize(off + rsiz) <= before[i].rsiz
            && after == multiset(before) - multiset{before[i]} + multiset{Block(off + size, before[i].rsiz - size)}
       else size == before[i].rsiz && after == multiset(before) - multiset{before[i]}
  }

  lemma ServedFront(before: seq<Block>, i: nat, rsiz: nat, size: nat, after: multiset<Block>)
    requires i < |before| && before[i].rsiz > 2 * rsiz && forall j :: 0 <= j < i ==> before[j].rsiz <= rsiz
    requires size == rsiz + PadSize(before[i].off + rsiz) <= before[i].rsiz
    requires after ==
      multiset(before) - multiset{before[i]} + multiset{Block(before[i].off + size, before[i].rsiz - size)}
    ensures Served(before, i, rsiz, before[i].off, size, after)
  {
  }

  lemma ServedWhole(before: seq<Block>, i: nat, rsiz: nat, after: multiset<Block>)
    requires i < |before| && rsiz < before[i].rsiz <= 2 * rsiz && forall j :: 0 <= j < i ==> before[j].rsiz <= rsiz
    requires after == multiset(before) - multiset{before[i]}
    ensures Served(before, i, rsiz, before[i].off, before[i].rsiz, after)
  {
  }

  /** What the pool is after tchdbfbpmerge and tcfbpsortbyrsiz. */
  ghost predicate MergedAndSorted(entries: multiset<Block>, sorted: seq<Block>, after: seq<Block>) {
    && multiset(sorted) == entries && PoolSort.Sorted(PoolSort.ByOff, sorted)
    && multiset(after) == multiset(PoolMerge.MergePairs(sorted)) && PoolSort.Sorted(PoolSort.BySize, after)
  }

  /** What is left of a pool that had to be reduced: the smallest entries go first. */
  function Reduced(bySize: seq<Block>, room: nat): seq<Block> {
    if room <= |bySize| && room / 4 + 1 <= |bySize| then bySize[room / 4 + 1..] else bySize
  }

  /** The pool after tchdbfbpinsert of b into one with room for `room` entries. */
  ghost predicate Inserted(before: seq<Block>, room: nat, fpow: nat, b: Block, after: seq<Block>) {
    if fpow < 1 then after == before
    else if |before| < room then after == before + [b]
    else exists sorted, bySize ::
      MergedAndSorted(multiset(before), sorted, bySize) && after == Reduced(bySize, room) + [b]
  }

  lemma NotInserted(before: seq<Block>, room: nat, b: Block)
    ensures Inserted(before, room, 0, b, before)
  {
  }

  lemma InsertedSimply(before: seq<Block>, room: nat, fpow: nat, b: Block)
    requires fpow >= 1 && |before| < room
    ensures Inserted(before, room, fpow, b, before + [b])
  {
  }

  lemma InsertedFull(before: seq<Block>, room: nat, fpow: nat, b: Block, sorted: seq<Block>, bySize: seq<Block>,
    kept: seq<Block>)
    requires fpow >= 1 && |before| >= room && MergedAndSorted(multiset(before), sorted, bySize)
    requires kept == Reduced(bySize, room)
    ensures Inserted(before, room, fpow, b, kept + [b])
  {
    hide MergedAndSorted, Reduced;
  }

  /** Some entry is larger than n. */
  ghost predicate HasLarger(s: seq<Block>, n: nat) { exists b :: b in multiset(s) && b.rsiz > n }

  lemma {:induction false} MergeKeepsLarger(s: seq<Block>, n: nat)
    requires HasLarger(s, n)
    ensures HasLarger(PoolMerge.MergePairs(s), n)
  {
    hide HasLarger;
    if |s| >= 2 {
      var joined := EndOf(s[0]) == s[1].off;
      var front, rest := if joined then s[..2] else s[..1], if joined then s[2..] else s[1..];
      var first := if joined then Block(s[0].off, s[0].rsiz + s[1].rsiz) else s[0];
      LargerInParts(front, rest, n);
      LargerInParts([first], PoolMerge.MergePairs(rest), n);
      assert s == front + rest && PoolMerge.MergePairs(s) == [first] + PoolMerge.MergePairs(rest);
      if HasLarger(rest, n) {
        MergeKeepsLarger(rest, n);
      } else {
        LargerHere(front, first, n);
      }
    }
  }

  lemma LargerInParts(s: seq<Block>, t: seq<Block>, n: nat)
    ensures HasLarger(s + t, n) <==> HasLarger(s, n) || HasLarger(t, n)
  {
    assert forall b :: b in multiset(s + t) <==> b in multiset(s) || b in multiset(t);
  }

  lemma LargerHere(front: seq<Block>, first: Block, n: nat)
    requires HasLarger(front, n) && forall i :: 0 <= i < |front| ==> front[i].rsiz <= first.rsiz
    ensures HasLarger([first], n)
  {
    assert first in multiset([first]);
  }

  /** Reducing a pool drops the smallest entries: one larger than n stays. */
  lemma ReducedKeepsLarger(bySize: seq<Block>, room: nat, n: nat)
    requires HasLarger(bySize, n) && PoolSort.Sorted(PoolSort.BySize, bySize) && room >= 2
    ensures HasLarger(Reduced(bySize, room), n)
  {
    LastIsLarger(bySize, n);
    ReducedLast(bySize, room);
  }

  lemma LastIsLarger(bySize: seq<Block>, n: nat)
    requires HasLarger(bySize, n) && PoolSort.Sorted(PoolSort.BySize, bySize)
    ensures bySize != [] && bySize[|bySize| - 1].rsiz > n
  {
    var b :| b in multiset(bySize) && b.rsiz > n;
    var i :| 0 <= i < |bySize| && bySize[i] == b;
    var last := |bySize| - 1;
    assert i < last ==> PoolSort.Key(PoolSort.BySize, bySize[i]) <= PoolSort.Key(PoolSort.BySize, bySize[last]);
  }

  lemma ReducedLast(bySize: seq<Block>, room: nat)
    requires bySize != [] && room >= 2
    ensures bySize[|bySize| - 1] in multiset(Reduced(bySize, room))
  {
    var kept := Reduced(bySize, room);
    assert kept[|kept| - 1] == bySize[|bySize| - 1];
  }

  // ---------- what a search will find ----------

  predicate DistinctOffs(s: seq<Block>) { forall i, j :: 0 <= i < j < |s| ==> s[i].off != s[j].off }

  /** There is only one way to sort entries with different offsets. */
  lemma {:induction false} OneOrder(s: seq<Block>, t: seq<Block>)
    requires PoolSort.Sorted(PoolSort.ByOff, s) && PoolSort.Sorted(PoolSort.ByOff, t)
    requires multiset(s) == multiset(t) && DistinctOffs(s) && DistinctOffs(t)
    ensures s == t
    decreases |s|
  {
    assert |s| == |multiset(s)| == |multiset(t)| == |t|;
    if s != [] {
      SameFirst(s, t);
      FrontAndRest(s);
      FrontAndRest(t);
      Cancel(multiset(s[1..]), multiset(t[1..]), s[0]);
      OneOrder(s[1..], t[1..]);
    }
  }

  lemma FrontAndRest(s: seq<Block>)
    requires s != []
    ensures multiset(s) == multiset(s[1..]) + multiset{s[0]} && s == [s[0]] + s[1..]
  {
    assert s == [s[0]] + s[1..];
  }

  lemma SameFirst(s: seq<Block>, t: seq<Block>)
    requires PoolSort.Sorted(PoolSort.ByOff, s) && PoolSort.Sorted(PoolSort.ByOff, t)
    requires multiset(s) == multiset(t) && s != [] && t != [] && DistinctOffs(t)
    ensures s[0] == t[0]
  {
    assert s[0] in multiset(t) && t[0] in multiset(s);
    FirstIsLeast(s, t[0]);
    FirstIsLeast(t, s[0]);
    OnlyWith(t, s[0].off);
  }

  lemma FirstIsLeast(s: seq<Block>, b: Block)
    requires PoolSort.Sorted(PoolSort.ByOff, s) && b in multiset(s)
    ensures s != [] && s[0].off <= b.off
  {
    var i :| 0 <= i < |s| && s[i] == b;
    if i > 0 { assert PoolSort.Key(PoolSort.ByOff, s[0]) <= PoolSort.Key(PoolSort.ByOff, s[i]); }
  }

  lemma StillDistinct(s: seq<Block>, t: seq<Block>)
    requires multiset(s) == multiset(t) && DistinctOffs(s)
    ensures DistinctOffs(t)
  {
    forall i, j | 0 <= i < j < |t|
      ensures t[i].off != t[j].off
    {
      assert t[i] in multiset(t) && t[j] in multiset(t);
      OnlyWith(s, t[i].off);
      PoolMerge.NoTwice(t, i, j);
    }
  }

  lemma {:induction false} OnlyWith(s: seq<Block>, off: nat)
    requires DistinctOffs(s)
    ensures forall b, c :: b in multiset(s) && c in multiset(s) && b.off == off == c.off ==>
      b == c && multiset(s)[b] == 1
  {
    if s != [] {
      OnlyWith(s[1..], off);
      assert s == [s[0]] + s[1..];
      assert forall b :: b in multiset(s[1..]) ==> b.off != s[0].off;
    }
  }

  /** Merging leaves an entry larger than n. */
  ghost predicate MergedLarger(s: seq<Block>, n: nat) {
    exists sorted :: multiset(sorted) == multiset(s) && PoolSort.Sorted(PoolSort.ByOff, sorted)
                  && HasLarger(PoolMerge.MergePairs(sorted), n)
  }

  /** Once a block of at most n bytes has been given back, the pool has an entry larger than n. */
  ghost predicate SearchFinds(s: seq<Block>, room: nat, fpow: nat, n: nat) {
    if fpow >= 1 && |s| >= room then MergedLarger(s, n) else HasLarger(s, n)
  }

  lemma SameLarger(s: seq<Block>, t: seq<Block>, n: nat)
    requires multiset(s) == multiset(t)
    ensures HasLarger(s, n) <==> HasLarger(t, n)
  {
  }

  lemma SmallIsNoLarger(s: seq<Block>, b: Block, n: nat)
    requires b.rsiz <= n
    ensures HasLarger(s + [b], n) <==> HasLarger(s, n)
  {
    LargerInParts(s, [b], n);
  }

  lemma ReducedHasLarger(bySize: seq<Block>, room: nat, n: nat)
    requires PoolSort.Sorted(PoolSort.BySize, bySize) && room >= 2
    ensures HasLarger(Reduced(bySize, room), n) <==> HasLarger(bySize, n)
  {
    hide PoolSort.Sorted;
    if HasLarger(bySize, n) {
      ReducedKeepsLarger(bySize, room, n);
    } else if room <= |bySize| && room / 4 + 1 <= |bySize| {
      DropSome(bySize, room / 4 + 1);
    }
  }

  /** Giving a small block back, with the merging and shedding of a full pool, leaves an entry larger
      than n exactly when the pool before tells so. */
  lemma InsertedLarger(before: seq<Block>, room: nat, fpow: nat, b: Block, after: seq<Block>, n: nat)
    requires Inserted(before, room, fpow, b, after) && b.rsiz <= n && (fpow >= 1 ==> room >= 2) && DistinctOffs(before)
    ensures HasLarger(after, n) <==> SearchFinds(before, room, fpow, n)
  {
    hide PoolSort.Sorted, PoolMerge.MergePairs, Reduced, HasLarger, DistinctOffs;
    if fpow >= 1 && |before| < room {
      SmallIsNoLarger(before, b, n);
    } else if fpow >= 1 {
      var sorted, bySize :| MergedAndSorted(multiset(before), sorted, bySize) && after == Reduced(bySize, room) + [b];
      SmallIsNoLarger(Reduced(bySize, room), b, n);
      ReducedHasLarger(bySize, room, n);
      SameLarger(bySize, PoolMerge.MergePairs(sorted), n);
      OnlyMerge(before, sorted, n);
    }
  }

  /** Whichever way the pool is sorted, merging gives the same. */
  lemma OnlyMerge(s: seq<Block>, sorted: seq<Block>, n: nat)
    requires multiset(sorted) == multiset(s) && PoolSort.Sorted(PoolSort.ByOff, sorted) && DistinctOffs(s)
    ensures MergedLarger(s, n) <==> HasLarger(PoolMerge.MergePairs(sorted), n)
  {
    hide PoolSort.Sorted, PoolMerge.MergePairs, HasLarger, DistinctOffs;
    if MergedLarger(s, n) {
      var other :| multiset(other) == multiset(s) && PoolSort.Sorted(PoolSort.ByOff, other)
                && HasLarger(PoolMerge.MergePairs(other), n);
      StillDistinct(s, sorted);
      StillDistinct(s, other);
      OneOrder(sorted, other);
    }
  }

  /** The entries of a sound pool have different offsets. */
  lemma PoolDistinct(s: seq<Block>, disk: Disk, fsiz: nat, pend: nat)
    requires PoolOk(multiset(s), disk, fsiz, pend)
    ensures DistinctOffs(s)
  {
    forall i, j | 0 <= i < j < |s|
      ensures s[i].off != s[j].off
    {
      assert s[i] in multiset(s) && s[j] in multiset(s);
      PoolMerge.NoTwice(s, i, j);
      assert IsRun(disk, fsiz, pend, s[i]) && IsRun(disk, fsiz, pend, s[j]);
    }
  }

  /** A block apart from all entries is apart from what giving another one back leaves. */
  lemma InsertedApart(s: seq<Block>, room: nat, fpow: nat, b: Block, after: seq<Block>, x: Block)
    requires Inserted(s, room, fpow, b, after) && x.rsiz > 0 && (b == x || Apart(x, b))
    requires forall c :: c in multiset(s) ==> Apart(x, c) && c.rsiz > 0
    ensures forall c :: c in multiset(after) ==> (c == x && b == x) || Apart(x, c)
  {
    hide PoolSort.Sorted, PoolMerge.MergePairs, Apart;
    if fpow >= 1 && |s| < room {
      AppendOne(s, b);
    } else if fpow >= 1 {
      var sorted, bySize :| MergedAndSorted(multiset(s), sorted, bySize) && after == Reduced(bySize, room) + [b];
      var dropped := if room <= |bySize| && room / 4 + 1 <= |bySize| then room / 4 + 1 else 0;
      assert bySize[0..] == bySize;
      RoomStaysApart(sorted, bySize, dropped, x);
      AppendOne(Reduced(bySize, room), b);
    }
  }

  lemma InsertedIsIn(before: seq<Block>, room: nat, fpow: nat, b: Block, after: seq<Block>)
    requires Inserted(before, room, fpow, b, after)
    ensures if fpow >= 1 then b in multiset(after) else after == before
  {
    hide MergedAndSorted, Reduced;
    if fpow >= 1 {
      assert after != [] && after[|after| - 1] == b;
    }
  }

  ghost predicate MergedFrom(sorted: seq<Block>, s: seq<Block>) {
    PoolSort.Sorted(PoolSort.ByOff, sorted) && s == PoolMerge.MergePairs(sorted)
  }

  /** s is the entries in order, merged or not. */
  ghost predicate OrderedFrom(entries: multiset<Block>, merged: bool, s: seq<Block>) {
    if merged then exists sorted :: multiset(sorted) == entries && MergedFrom(sorted, s) else multiset(s) == entries
  }

  lemma ShortIsSorted(s: seq<Block>)
    requires |s| <= 1
    ensures PoolSort.Sorted(PoolSort.ByOff, s)
  {
  }

  /** The entries of a sound pool, in order, can be saved. */
  lemma Savables(s: seq<Block>, disk: Disk, frec: nat, fsiz: nat)
    requires Tiling(disk, frec, fsiz) && PoolOk(multiset(s), disk, fsiz, 0)
    requires PoolMerge.InOrder(s) && fsiz <= FILE_LIMIT
    ensures PoolCodec.Savable(s, 0)
  {
    hide Tiling, IsRun;
    forall i | 0 <= i < |s|
      ensures PoolCodec.SavableBlock(s[i]) && 0 < s[i].off
    {
      assert s[i] in multiset(s);
      Allocator.RunAligned(disk, frec, fsiz, 0, s[i]);
    }
  }

  lemma SavedReadsBack(saved: seq<Block>, budget: int, place: Bytes, max: nat)
    requires PoolCodec.Savable(saved, 0) && |saved| <= max
    requires PoolCodec.EncodePool(saved, 0, budget) + [0, 0] <= place
    ensures PoolCodec.Readable(place, max)
    ensures PoolCodec.DecodePool(place, 0, max) == saved[..PoolCodec.SavedCount(saved, 0, budget)]
  {
    hide PoolCodec.Savable, PoolCodec.EncodePool, PoolCodec.DecodePool, PoolCodec.SavedCount, PoolCodec.Readable;
    var enc := PoolCodec.EncodePool(saved, 0, budget);
    var rest := place[|enc| + 2..];
    assert place == enc + ([0, 0] + rest);
    PoolCodec.SavedIsReadable(saved, 0, budget, rest, max);
    PoolCodec.PoolRoundTrip(saved, 0, budget, rest, max);
  }
}
