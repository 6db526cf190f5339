/** What walking the record region from front to back finds (lib/libdict/tchdb.c:544-583). */
module Iteration {
  import opened KeyOrder
  import opened Tiles
  import opened Layout
  import opened FreePool
  import opened BucketTree
  import opened Forest

  /** The tile at p is followed by a tile or by the end, further on. */
  lemma NextTile(disk: Disk, frec: nat, fsiz: nat, p: nat)
    requires Tiling(disk, frec, fsiz) && p in disk
    ensures Size(disk[p]) > 0 && p + Size(disk[p]) <= fsiz && (p + Size(disk[p]) in disk || p + Size(disk[p]) == fsiz)
  {
    hide AllAligned, Disjoint, Size;
    var layout := Sizes(disk);
    assert Chained(layout, fsiz, p) && layout[p] == Size(disk[p]);
  }

  lemma FirstTile(disk: Disk, frec: nat, fsiz: nat)
    requires Tiling(disk, frec, fsiz)
    ensures frec <= fsiz && (frec in disk || frec == fsiz) && forall o: nat :: o in disk ==> frec <= o
  {
    hide AllAligned, Size, Disjoint;
    assert Sizes(disk).Keys == disk.Keys;
  }

  /** The keys of the records that start at p or behind it, in file order. */
  ghost function KeysFrom(disk: Disk, frec: nat, fsiz: nat, p: nat): seq<Bytes>
    requires Tiling(disk, frec, fsiz)
    decreases if p < fsiz then fsiz - p else 0
  {
    if p >= fsiz then []
    else if p !in disk then KeysFrom(disk, frec, fsiz, p + 1)
    else
      NextTile(disk, frec, fsiz, p);
      var rest := KeysFrom(disk, frec, fsiz, p + Size(disk[p]));
      if disk[p].Rec? then [disk[p].key] + rest else rest
  }

  ghost predicate NoDuplicates(s: seq<Bytes>) { forall i, j :: 0 <= i < j < |s| ==> s[i] != s[j] }

  /** Some record from p on has key k. */
  ghost predicate KeyAtOrAfter(disk: Disk, p: nat, k: Bytes) {
    exists o :: o in disk && o >= p && disk[o].Rec? && disk[o].key == k
  }

  /** No two records have the same key. */
  ghost predicate KeysDiffer(disk: Disk) {
    forall o, p :: o in disk && p in disk && disk[o].Rec? && disk[p].Rec? && disk[o].key == disk[p].key ==> o == p
  }

  lemma PastTheEnd(disk: Disk, frec: nat, fsiz: nat, k: Bytes)
    requires Tiling(disk, frec, fsiz)
    ensures fsiz !in disk && !KeyAtOrAfter(disk, fsiz, k)
  {
    hide AllAligned, Disjoint, Size, AllChained;
    assert Sizes(disk).Keys == disk.Keys;
  }

  /** Between a tile and the next one there is nothing. */
  lemma NothingBetween(disk: Disk, frec: nat, fsiz: nat, p: nat, k: Bytes)
    requires Tiling(disk, frec, fsiz) && p in disk
    ensures KeyAtOrAfter(disk, p, k) <==> (disk[p].Rec? && disk[p].key == k) || KeyAtOrAfter(disk, p + Size(disk[p]), k)
  {
    hide AllAligned, Size, AllChained;
    var layout := Sizes(disk);
    assert layout.Keys == disk.Keys && layout[p] == Size(disk[p]);
  }

  lemma {:induction false} KeysFromHasAll(disk: Disk, frec: nat, fsiz: nat, p: nat, k: Bytes)
    requires Tiling(disk, frec, fsiz)
    ensures k in KeysFrom(disk, frec, fsiz, p) <==> KeyAtOrAfter(disk, p, k)
    decreases if p < fsiz then fsiz - p else 0
  {
    hide Tiling, KeyAtOrAfter, Size;
    PastTheEnd(disk, frec, fsiz, k);
    if p >= fsiz {
      NoneBehind(disk, fsiz, p, k);
    } else if p !in disk {
      NoneHere(disk, p, k);
      KeysFromHasAll(disk, frec, fsiz, p + 1, k);
    } else {
      NextTile(disk, frec, fsiz, p);
      KeysFromHasAll(disk, frec, fsiz, p + Size(disk[p]), k);
      NothingBetween(disk, frec, fsiz, p, k);
    }
  }

  lemma NoneBehind(disk: Disk, fsiz: nat, p: nat, k: Bytes)
    requires !KeyAtOrAfter(disk, fsiz, k) && fsiz <= p
    ensures !KeyAtOrAfter(disk, p, k)
  {
  }

  lemma NoneHere(disk: Disk, p: nat, k: Bytes)
    requires p !in disk
    ensures KeyAtOrAfter(disk, p, k) <==> KeyAtOrAfter(disk, p + 1, k)
  {
  }

  /** Inside a tile nothing starts: the keys from there are those from its end. */
  lemma {:induction false} KeysInside(disk: Disk, frec: nat, fsiz: nat, o: nat, p: nat, q: nat)
    requires Tiling(disk, frec, fsiz) && o in disk && o < p <= q <= o + Size(disk[o])
    ensures KeysFrom(disk, frec, fsiz, p) == KeysFrom(disk, frec, fsiz, q)
    decreases q - p
  {
    hide Tiling, Size;
    NextTile(disk, frec, fsiz, o);
    if p < q {
      NothingInside(disk, frec, fsiz, o, p);
      KeysInside(disk, frec, fsiz, o, p + 1, q);
    }
  }

  lemma NothingInside(disk: Disk, frec: nat, fsiz: nat, o: nat, p: nat)
    requires Tiling(disk, frec, fsiz) && o in disk && o < p < o + Size(disk[o])
    ensures p !in disk && p < fsiz
  {
    hide AllAligned, Size, AllChained;
    var layout := Sizes(disk);
    assert layout.Keys == disk.Keys && layout[o] == Size(disk[o]);
  }

  lemma OnlyHere(disk: Disk, p: nat, n: nat)
    requires KeysDiffer(disk) && p in disk && disk[p].Rec? && n > 0
    ensures !KeyAtOrAfter(disk, p + n, disk[p].key)
  {
  }

  lemma {:induction false} KeysFromOnce(disk: Disk, frec: nat, fsiz: nat, p: nat)
    requires Tiling(disk, frec, fsiz) && KeysDiffer(disk)
    ensures NoDuplicates(KeysFrom(disk, frec, fsiz, p))
    decreases if p < fsiz then fsiz - p else 0
  {
    hide Tiling, KeyAtOrAfter, KeysDiffer, Size;
    if p < fsiz && p !in disk {
      KeysFromOnce(disk, frec, fsiz, p + 1);
    } else if p < fsiz {
      NextTile(disk, frec, fsiz, p);
      var q := p + Size(disk[p]);
      KeysFromOnce(disk, frec, fsiz, q);
      if disk[p].Rec? {
        OnlyHere(disk, p, Size(disk[p]));
        KeysFromHasAll(disk, frec, fsiz, q, disk[p].key);
      }
    }
  }

  /** A record of an ordered tree is what a search for its key finds. */
  lemma {:induction false} OffIsLocated(disk: Disk, t: Tree, o: nat)
    requires Stored(disk, t) && Ordered(t) && o in Offs(t)
    ensures o in disk && disk[o].Rec? && Locate(t, disk[o].key).1.Node? && Locate(t, disk[o].key).1.off == o
  {
    OffsHaveKeys(disk, t);
    var k := disk[o].key;
    RecordCmpTotal(k, t.key);
    RecordCmpTotal(t.key, k);
    if o in Offs(t.left) {
      OffsHaveKeys(disk, t.left);
      OffIsLocated(disk, t.left, o);
    } else if o in Offs(t.right) {
      OffsHaveKeys(disk, t.right);
      OffIsLocated(disk, t.right, o);
    }
  }

  lemma ForestKeysDiffer(trees: seq<Tree>, bnum: nat, disk: Disk)
    requires bnum > 0 && ForestOk(trees, bnum, disk)
    ensures KeysDiffer(disk)
  {
    hide BucketIndex, Locate, Stored, Ordered;
    forall o, p | o in disk && p in disk && disk[o].Rec? && disk[p].Rec? && disk[o].key == disk[p].key
      ensures o == p
    {
      var home := BucketIndex(disk[o].key, bnum);
      assert TreeOk(trees[home], home, bnum, disk);
      OffIsLocated(disk, trees[home], o);
      OffIsLocated(disk, trees[home], p);
    }
  }

  /** The keys on the disk are the keys of the dictionary. */
  lemma ForestHasKey(trees: seq<Tree>, bnum: nat, disk: Disk, dict: map<Bytes, Bytes>, k: Bytes)
    requires bnum > 0 && ForestOk(trees, bnum, disk) && DictOk(dict, trees, bnum)
    ensures KeyAtOrAfter(disk, 0, k) <==> k in dict
  {
    hide BucketIndex, Locate, Ordered;
    var home := BucketIndex(k, bnum);
    var t := trees[home];
    assert TreeOk(t, home, bnum, disk);
    OffsHaveKeys(disk, t);
    LocateFinds(t, k);
    LocateSlot(disk, t, k);
  }

  lemma {:induction false} NoDuplicatesCount(s: seq<Bytes>)
    requires NoDuplicates(s)
    ensures |set k | k in s| == |s|
  {
    if s != [] {
      NoDuplicatesCount(s[1..]);
      assert (set k | k in s) == (set k | k in s[1..]) + {s[0]};
    }
  }

  /** From the first tile on, every key of the dictionary comes exactly once. */
  lemma KeysFromFirst(trees: seq<Tree>, bnum: nat, disk: Disk, dict: map<Bytes, Bytes>, frec: nat, fsiz: nat)
    requires bnum > 0 && ForestOk(trees, bnum, disk) && DictOk(dict, trees, bnum)
    requires Tiling(disk, frec, fsiz)
    ensures frec in disk || frec == fsiz
    ensures var keys := KeysFrom(disk, frec, fsiz, frec);
      NoDuplicates(keys) && (forall k :: k in keys <==> k in dict) && |keys| == |dict|
  {
    hide ForestOk, DictOk, Size, KeysDiffer;
    assert Sizes(disk).Keys == disk.Keys;
    var keys := KeysFrom(disk, frec, fsiz, frec);
    ForestKeysDiffer(trees, bnum, disk);
    KeysFromOnce(disk, frec, fsiz, frec);
    forall k
      ensures k in keys <==> k in dict
    {
      KeysFromHasAll(disk, frec, fsiz, frec, k);
      assert KeyAtOrAfter(disk, 0, k) <==> KeyAtOrAfter(disk, frec, k);
      ForestHasKey(trees, bnum, disk, dict, k);
    }
    NoDuplicatesCount(keys);
    assert (set k | k in keys) == dict.Keys;
  }

  // ---------- removing while iterating ----------

  /** The tiles are where they were and as large; exactly the records of key are gone. */
  ghost predicate KeyGone(before: Disk, after: Disk, key: Bytes) {
    && after.Keys == before.Keys
    && forall p :: p in before ==>
         && Size(after[p]) == Size(before[p])
         && (after[p].Rec? <==> before[p].Rec? && before[p].key != key)
         && (after[p].Rec? ==> after[p].key == before[p].key)
  }

  function Dropped(s: seq<Bytes>, key: Bytes): seq<Bytes> {
    if s == [] then [] else (if s[0] == key then [] else [s[0]]) + Dropped(s[1..], key)
  }

  /** What an iterator has still to deliver loses exactly the removed key. */
  lemma {:induction false} KeysFromGone(before: Disk, after: Disk, frec: nat, fsiz: nat, p: nat, key: Bytes)
    requires Tiling(before, frec, fsiz) && Tiling(after, frec, fsiz) && KeyGone(before, after, key)
    ensures KeysFrom(after, frec, fsiz, p) == Dropped(KeysFrom(before, frec, fsiz, p), key)
    decreases if p < fsiz then fsiz - p else 0
  {
    hide Tiling, Size;
    if p < fsiz && p !in before {
      KeysFromGone(before, after, frec, fsiz, p + 1, key);
    } else if p < fsiz {
      NextTile(before, frec, fsiz, p);
      var q := p + Size(before[p]);
      KeysFromGone(before, after, frec, fsiz, q, key);
      var rest := KeysFrom(before, frec, fsiz, q);
      if before[p].Rec? {
        assert ([before[p].key] + rest)[1..] == rest;
      }
    }
  }

  lemma {:induction false} DroppedAbsent(s: seq<Bytes>, key: Bytes)
    requires key !in s
    ensures Dropped(s, key) == s
  {
    if s != [] { DroppedAbsent(s[1..], key); }
  }

  /** Tiles that differ in their links only. */
  predicate UpToLinks(a: Tile, b: Tile) {
    match a
    case Free(_) => a == b
    case Rec(_, _, _, _, _, _) => b.Rec? && a.(left := 0, right := 0) == b.(left := 0, right := 0)
  }

  ghost predicate LinksOnly(before: Disk, after: Disk) {
    after.Keys == before.Keys && forall p :: p in before ==> UpToLinks(before[p], after[p])
  }

  lemma LinksOnlyTrans(a: Disk, b: Disk, c: Disk)
    requires LinksOnly(a, b) && LinksOnly(b, c)
    ensures LinksOnly(a, c)
  {
  }

  lemma SetLinkOnly(disk: Disk, slot: Slot, child: nat)
    requires !slot.Here? ==> slot.off in disk
    ensures LinksOnly(disk, SetLink(disk, slot, child))
  {
  }

  /** The one record of key made free, and links rewritten afterwards. */
  lemma GoneAfter(disk0: Disk, disk1: Disk, disk2: Disk, off: nat, key: Bytes)
    requires KeysDiffer(disk0) && off in disk0 && disk0[off].Rec? && disk0[off].key == key
    requires disk1 == disk0[off := Free(Size(disk0[off]))] && LinksOnly(disk1, disk2)
    ensures KeyGone(disk0, disk2, key)
  {
    forall p | p in disk0
      ensures Size(disk2[p]) == Size(disk0[p]) && (disk2[p].Rec? ==> disk2[p].key == disk0[p].key)
      ensures disk2[p].Rec? <==> disk0[p].Rec? && disk0[p].key != key
    {
      assert UpToLinks(disk1[p], disk2[p]);
    }
  }

  lemma NothingGone(disk: Disk, key: Bytes)
    requires !KeyAtOrAfter(disk, 0, key)
    ensures KeyGone(disk, disk, key)
  {
  }
}
