/** Merging neighbouring entries of the free block pool in place (lib/libdict/tchdb.c:1048-1070).
    One pass joins entries pairwise: of three neighbours only the first two become one. */
module PoolMerge {
  import opened Tiles
  import opened FreePool
  import PoolSort

  /** The pass as a function of the pool sorted by offset. */
  function MergePairs(s: seq<Block>): (r: seq<Block>)
    ensures |r| <= |s|
  {
    if |s| < 2 then s
    else if EndOf(s[0]) == s[1].off then [Block(s[0].off, s[0].rsiz + s[1].rsiz)] + MergePairs(s[2..])
    else [s[0]] + MergePairs(s[1..])
  }

  /** Strictly ordered and disjoint. */
  ghost predicate InOrder(s: seq<Block>) {
    && (forall i :: 0 <= i < |s| ==> s[i].rsiz > 0)
    && (forall i, j :: 0 <= i < j < |s| ==> EndOf(s[i]) <= s[j].off)
  }

  ghost predicate AllRuns(s: seq<Block>, disk: Disk, fsiz: nat, pend: nat) {
    forall i :: 0 <= i < |s| ==> IsRun(disk, fsiz, pend, s[i])
  }

  function TotalSize(s: seq<Block>): nat { if s == [] then 0 else s[0].rsiz + TotalSize(s[1..]) }

  /** Byte x belongs to some entry. */
  ghost predicate Covers(s: seq<Block>, x: nat) { s != [] && (s[0].off <= x < EndOf(s[0]) || Covers(s[1..], x)) }

  // ---------- what a pass keeps ----------

  /** A pass frees no byte and loses none: same total, same bytes. */
  lemma {:induction false} MergeKeepsBytes(s: seq<Block>, x: nat)
    ensures TotalSize(MergePairs(s)) == TotalSize(s)
    ensures Covers(MergePairs(s), x) <==> Covers(s, x)
  {
    if |s| >= 2 {
      if EndOf(s[0]) == s[1].off {
        MergeKeepsBytes(s[2..], x);
        assert s[1..][1..] == s[2..];
      } else {
        MergeKeepsBytes(s[1..], x);
      }
    }
  }

  /** A pass keeps the entries in order, disjoint and beyond a lower bound. */
  lemma {:induction false} MergeInOrder(s: seq<Block>, lo: nat)
    requires InOrder(s) && forall i :: 0 <= i < |s| ==> lo <= s[i].off
    ensures InOrder(MergePairs(s)) && forall i :: 0 <= i < |MergePairs(s)| ==> lo <= MergePairs(s)[i].off
  {
    if |s| >= 2 {
      if EndOf(s[0]) == s[1].off {
        MergeInOrder(s[2..], EndOf(s[1]));
      } else {
        MergeInOrder(s[1..], EndOf(s[0]));
      }
    }
  }

  lemma JoinRuns(disk: Disk, fsiz: nat, pend: nat, b: Block, c: Block)
    requires IsRun(disk, fsiz, pend, b) && IsRun(disk, fsiz, pend, c) && EndOf(b) == c.off
    ensures IsRun(disk, fsiz, pend, Block(b.off, b.rsiz + c.rsiz))
  {
  }

  lemma {:induction false} MergeRuns(s: seq<Block>, disk: Disk, fsiz: nat, pend: nat)
    requires AllRuns(s, disk, fsiz, pend)
    ensures AllRuns(MergePairs(s), disk, fsiz, pend)
  {
    hide IsRun;
    if |s| >= 2 {
      if EndOf(s[0]) == s[1].off {
        JoinRuns(disk, fsiz, pend, s[0], s[1]);
        MergeRuns(s[2..], disk, fsiz, pend);
      } else {
        MergeRuns(s[1..], disk, fsiz, pend);
      }
    }
  }

  // ---------- between the sequence and the multiset of entries ----------

  lemma PoolInOrder(s: seq<Block>, disk: Disk, fsiz: nat, pend: nat)
    requires PoolOk(multiset(s), disk, fsiz, pend) && PoolSort.Sorted(PoolSort.ByOff, s)
    ensures InOrder(s) && AllRuns(s, disk, fsiz, pend)
  {
    hide IsRun;
    forall i | 0 <= i < |s|
      ensures IsRun(disk, fsiz, pend, s[i]) && s[i].rsiz > 0
    {
      assert s[i] in multiset(s);
      RunIsNotEmpty(disk, fsiz, pend, s[i]);
    }
    forall i, j | 0 <= i < j < |s|
      ensures EndOf(s[i]) <= s[j].off
    {
      assert s[i] in multiset(s) && s[j] in multiset(s);
      NoTwice(s, i, j);
      assert PoolSort.Key(PoolSort.ByOff, s[i]) <= PoolSort.Key(PoolSort.ByOff, s[j]);
    }
  }

  lemma RunIsNotEmpty(disk: Disk, fsiz: nat, pend: nat, b: Block)
    requires IsRun(disk, fsiz, pend, b)
    ensures b.rsiz > 0
  {
  }

  /** No entry of a pool stands there twice. */
  lemma NoTwice(s: seq<Block>, i: nat, j: nat)
    requires i < j < |s| && multiset(s)[s[i]] == 1
    ensures s[i] != s[j]
  {
    assert s == s[..j] + s[j..] && s[i] in s[..j] && s[j] in s[j..];
    assert multiset(s) == multiset(s[..j]) + multiset(s[j..]);
  }

  lemma EmptyPool(disk: Disk, fsiz: nat, pend: nat)
    ensures PoolOk(multiset{}, disk, fsiz, pend)
  {
  }

  lemma FirstApart(s: seq<Block>)
    requires s != [] && InOrder(s)
    ensures InOrder(s[1..]) && forall c :: c in multiset(s[1..]) ==> Apart(s[0], c)
  {
    forall c | c in multiset(s[1..])
      ensures Apart(s[0], c)
    {
      assert c in s[1..];
    }
  }

  lemma {:induction false} OrderIsPool(s: seq<Block>, disk: Disk, fsiz: nat, pend: nat)
    requires InOrder(s) && AllRuns(s, disk, fsiz, pend)
    ensures PoolOk(multiset(s), disk, fsiz, pend)
  {
    hide IsRun, PoolOk, InOrder, Apart;
    if s == [] {
      EmptyPool(disk, fsiz, pend);
      assert multiset(s) == multiset{};
    } else {
      var rest := s[1..];
      assert s == [s[0]] + rest;
      FirstApart(s);
      OrderIsPool(rest, disk, fsiz, pend);
      PoolGrows(multiset(rest), s[0], disk, fsiz, pend);
      assert multiset(s) == multiset(rest) + multiset{s[0]};
    }
  }

  /** A pass over a sound pool gives a sound pool. */
  lemma MergeKeepsPool(s: seq<Block>, disk: Disk, fsiz: nat, pend: nat)
    requires PoolOk(multiset(s), disk, fsiz, pend) && PoolSort.Sorted(PoolSort.ByOff, s)
    ensures PoolOk(multiset(MergePairs(s)), disk, fsiz, pend)
    ensures InOrder(s) && InOrder(MergePairs(s))
  {
    hide PoolOk, AllRuns, InOrder;
    PoolInOrder(s, disk, fsiz, pend);
    MergeInOrder(s, 0);
    MergeRuns(s, disk, fsiz, pend);
    OrderIsPool(MergePairs(s), disk, fsiz, pend);
  }

  // ---------- the pass itself ----------

  /** The state of the pass at cur: a[..wp] is written, and the unread part is still as sorted,
      except that a[cur] is marked (offset 0) when it has been joined to its predecessor. */
  ghost predicate Passing(s: seq<Block>, a: seq<Block>, cur: nat, wp: nat) {
    && wp <= cur < |s| && |a| == |s|
    && (forall k :: cur < k < |s| ==> a[k] == s[k])
    && (a[cur].off > 0 ==> a[cur] == s[cur] && a[..wp] + MergePairs(s[cur..]) == MergePairs(s))
    && (a[cur].off == 0 ==> a[..wp] + MergePairs(s[cur + 1..]) == MergePairs(s))
  }

  /** One round of the pass, as a function. */
  function Round(a: seq<Block>, cur: nat, wp: nat): (seq<Block>, nat)
    requires wp <= cur && cur + 1 < |a|
  {
    if a[cur].off == 0 then (a, wp)
    else if EndOf(a[cur]) == a[cur + 1].off then
      var joined := Block(a[cur].off, a[cur].rsiz + a[cur + 1].rsiz);
      (a[cur := joined][cur + 1 := a[cur + 1].(off := 0)][wp := joined], wp + 1)
    else (a[wp := a[cur]], wp + 1)
  }

  lemma RoundPasses(s: seq<Block>, a: seq<Block>, cur: nat, wp: nat)
    requires Passing(s, a, cur, wp) && cur + 1 < |s|
    requires forall i :: 0 <= i < |s| ==> s[i].off > 0
    ensures var (b, w) := Round(a, cur, wp); Passing(s, b, cur + 1, w)
  {
    if a[cur].off > 0 {
      if EndOf(a[cur]) == a[cur + 1].off {
        JoinRound(s, a, cur, wp);
      } else {
        KeepRound(s, a, cur, wp);
      }
    }
  }

  lemma KeepRound(s: seq<Block>, a: seq<Block>, cur: nat, wp: nat)
    requires Passing(s, a, cur, wp) && cur + 1 < |s| && s[cur + 1].off > 0
    requires a[cur].off > 0 && EndOf(a[cur]) != a[cur + 1].off
    ensures Passing(s, a[wp := a[cur]], cur + 1, wp + 1)
  {
    MergeStep(s, cur);
    hide MergePairs;
    Longer(a[..wp], a[cur], MergePairs(s[cur + 1..]));
    assert a[wp := a[cur]][..wp + 1] == a[..wp] + [a[cur]];
  }

  lemma JoinRound(s: seq<Block>, a: seq<Block>, cur: nat, wp: nat)
    requires Passing(s, a, cur, wp) && cur + 1 < |s|
    requires a[cur].off > 0 && EndOf(a[cur]) == a[cur + 1].off
    ensures var joined := Block(a[cur].off, a[cur].rsiz + a[cur + 1].rsiz);
      Passing(s, a[cur := joined][cur + 1 := a[cur + 1].(off := 0)][wp := joined], cur + 1, wp + 1)
  {
    MergeStep(s, cur);
    hide MergePairs;
    var joined := Block(a[cur].off, a[cur].rsiz + a[cur + 1].rsiz);
    Longer(a[..wp], joined, MergePairs(s[cur + 2..]));
    var b := a[cur := joined][cur + 1 := a[cur + 1].(off := 0)][wp := joined];
    assert b[..wp + 1] == a[..wp] + [joined];
    assert b[cur + 1].off == 0;
  }

  lemma Longer(front: seq<Block>, b: Block, rest: seq<Block>)
    ensures front + ([b] + rest) == (front + [b]) + rest
  {
  }

  lemma MergeStep(s: seq<Block>, cur: nat)
    requires cur + 1 < |s|
    ensures MergePairs(s[cur..]) ==
      if EndOf(s[cur]) == s[cur + 1].off
      then [Block(s[cur].off, s[cur].rsiz + s[cur + 1].rsiz)] + MergePairs(s[cur + 2..])
      else [s[cur]] + MergePairs(s[cur + 1..])
  {
    var rest := s[cur..];
    assert rest[1..] == s[cur + 1..] && rest[2..] == s[cur + 2..];
  }

  lemma LastRound(s: seq<Block>, a: seq<Block>, wp: nat)
    requires s != [] && Passing(s, a, |s| - 1, wp)
    ensures a[|s| - 1].off > 0 ==> a[wp := a[|s| - 1]][..wp + 1] == MergePairs(s)
    ensures a[|s| - 1].off == 0 ==> a[..wp] == MergePairs(s)
  {
    var e := |s| - 1;
    assert s[e..] == [s[e]] && s[e + 1..] == [];
    assert MergePairs([s[e]]) == [s[e]] && MergePairs([]) == [];
    hide MergePairs;
    if a[e].off > 0 {
      assert a[wp := a[e]][..wp + 1] == a[..wp] + [a[e]];
    } else {
      assert a[..wp] + [] == a[..wp];
    }
  }

  /** The loop of tchdbfbpmerge over the first n entries, already sorted by offset. */
  method MergeSorted(a: array<Block>, n: nat) returns (m: nat)
    requires 1 <= n <= a.Length
    requires forall i :: 0 <= i < n ==> a[i].off > 0
    modifies a
    ensures m <= n && a[..m] == MergePairs(old(a[..n]))
    ensures a[n..] == old(a[n..])
  {
    hide Passing, Round, MergePairs;
    ghost var s := a[..n];
    var wp, cur := 0, 0;
    StartPass(s);
    while cur < n - 1
      invariant 0 <= wp <= cur < n
      invariant Passing(s, a[..n], cur, wp)
      invariant a[n..] == old(a[n..])
    {
      ghost var before := a[..n];
      RoundPasses(s, before, cur, wp);
      wp := RunRound(a, n, cur, wp);
      cur := cur + 1;
    }
    LastRound(s, a[..n], wp);
    if a[n - 1].off > 0 {
      ghost var before := a[..n];
      a[wp] := a[n - 1];
      assert a[..n] == before[wp := before[n - 1]];
      assert a[..wp + 1] == a[..n][..wp + 1];
      wp := wp + 1;
    } else {
      assert a[..wp] == a[..n][..wp];
    }
    m := wp;
  }

  lemma StartPass(s: seq<Block>)
    requires s != [] && s[0].off > 0
    ensures Passing(s, s, 0, 0)
  {
    assert s[0..] == s && s[..0] + MergePairs(s) == MergePairs(s);
  }

  method RunRound(a: array<Block>, n: nat, cur: nat, wp: nat) returns (w: nat)
    requires wp <= cur && cur + 1 < n <= a.Length
    modifies a
    ensures (a[..n], w) == Round(old(a[..n]), cur, wp) && w <= wp + 1
    ensures a[n..] == old(a[n..])
  {
    w := wp;
    if a[cur].off > 0 {
      if EndOf(a[cur]) == a[cur + 1].off {
        a[cur] := a[cur].(rsiz := a[cur].rsiz + a[cur + 1].rsiz);
        a[cur + 1] := a[cur + 1].(off := 0);
      }
      a[w] := a[cur];
      w := w + 1;
    }
  }

  // ---------- what a pass joins ----------

  /** b is two neighbours of s that touch, made one. */
  ghost predicate IsPair(s: seq<Block>, b: Block) {
    exists i :: 0 <= i < |s| - 1 && EndOf(s[i]) == s[i + 1].off && b == Block(s[i].off, s[i].rsiz + s[i + 1].rsiz)
  }

  lemma PairBehind(s: seq<Block>, k: nat, b: Block)
    requires k <= |s| && IsPair(s[k..], b)
    ensures IsPair(s, b)
  {
    var rest := s[k..];
    var i :| 0 <= i < |rest| - 1 && EndOf(rest[i]) == rest[i + 1].off
          && b == Block(rest[i].off, rest[i].rsiz + rest[i + 1].rsiz);
    assert rest[i] == s[k + i] && rest[i + 1] == s[k + i + 1];
  }

  /** An entry of the result is an entry of the pool or two neighbours of it that touch. */
  lemma {:induction false} MergeMakes(s: seq<Block>, b: Block)
    requires b in MergePairs(s)
    ensures b in s || IsPair(s, b)
  {
    if |s| >= 2 {
      var k := if EndOf(s[0]) == s[1].off then 2 else 1;
      if b in MergePairs(s[k..]) {
        hide MergePairs, IsPair;
        MergeMakes(s[k..], b);
        if b !in s[k..] { PairBehind(s, k, b); }
      } else if k == 2 {
        assert b == Block(s[0].off, s[0].rsiz + s[1].rsiz);
      }
    }
  }

  /** Of two entries that touch at least one is joined: they do not both survive as they are. */
  lemma MergeJoins(s: seq<Block>, i: nat)
    requires InOrder(s) && i + 1 < |s| && EndOf(s[i]) == s[i + 1].off
    ensures !(s[i] in MergePairs(s) && s[i + 1] in MergePairs(s))
  {
    hide MergePairs, InOrder;
    NeverBoth(s, i);
  }

  ghost predicate BothLeft(s: seq<Block>, i: nat)
    requires i + 1 < |s|
  {
    s[i] in MergePairs(s) && s[i + 1] in MergePairs(s)
  }

  /** How many entries the first one of the result is made of. */
  function FirstTakes(s: seq<Block>): (k: nat)
    requires |s| >= 2
    ensures 1 <= k <= 2
  {
    if EndOf(s[0]) == s[1].off then 2 else 1
  }

  lemma {:induction false} NeverBoth(s: seq<Block>, i: nat)
    requires InOrder(s) && i + 1 < |s| && EndOf(s[i]) == s[i + 1].off
    ensures !BothLeft(s, i)
  {
    hide BothLeft, InOrder, FirstTakes;
    var k := FirstTakes(s);
    if i < k {
      JoinedFirst(s, i);
    } else {
      var rest := s[k..];
      assert rest[i - k] == s[i] && rest[i - k + 1] == s[i + 1];
      InOrderBehind(s, k);
      NeverBoth(rest, i - k);
      FirstJoined(s, i);
    }
  }

  lemma InOrderBehind(s: seq<Block>, k: nat)
    requires InOrder(s) && k <= |s|
    ensures InOrder(s[k..])
  {
    var r := s[k..];
    assert forall i :: 0 <= i < |r| ==> r[i] == s[k + i];
  }

  /** The first entry of the result starts before every later entry. */
  lemma FirstJoined(s: seq<Block>, i: nat)
    requires InOrder(s) && i + 1 < |s|
    requires i >= FirstTakes(s)
    ensures BothLeft(s, i) ==> BothLeft(s[FirstTakes(s)..], i - FirstTakes(s))
  {
    assert EndOf(s[0]) <= s[i].off && EndOf(s[0]) <= s[i + 1].off && s[0].rsiz > 0;
  }

  lemma JoinedFirst(s: seq<Block>, i: nat)
    requires InOrder(s) && i + 1 < |s| && EndOf(s[i]) == s[i + 1].off
    requires i < FirstTakes(s)
    ensures !BothLeft(s, i)
  {
    var rest := s[2..];
    InOrderBehind(s, 2);
    assert forall j :: 0 <= j < |rest| ==> rest[j] == s[2 + j];
    assert forall j :: 0 <= j < |rest| ==> EndOf(s[1]) <= rest[j].off;
    MergeInOrder(rest, EndOf(s[1]));
    NotBehind(MergePairs(rest), EndOf(s[1]), s[i]);
    assert s[0].rsiz > 0 && s[1].rsiz > 0;
    assert MergePairs(s) == [Block(s[0].off, s[0].rsiz + s[1].rsiz)] + MergePairs(rest);
  }

  lemma NotBehind(r: seq<Block>, lo: nat, b: Block)
    requires forall i :: 0 <= i < |r| ==> lo <= r[i].off
    requires b.off < lo
    ensures b !in r
  {
  }
}
