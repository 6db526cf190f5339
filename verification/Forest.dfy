/** All bucket trees together, and the dictionary they stand for
    (lib/libdict/tchdb.c:453-524, 1233-1325, 1543-1555). */
module Forest {
  import opened KeyOrder
  import opened Tiles
  import opened FreePool
  import opened BucketTree

  ghost predicate TreeOk(t: Tree, b: nat, bnum: nat, disk: Disk)
    requires bnum > 0
  {
    Stored(disk, t) && Ordered(t) && forall k :: k in Keys(t) ==> BucketIndex(k, bnum) == b
  }

  ghost predicate AllTreesOk(trees: seq<Tree>, bnum: nat, disk: Disk)
    requires bnum > 0
  {
    |trees| == bnum && forall b :: 0 <= b < bnum ==> TreeOk(trees[b], b, bnum, disk)
  }

  /** Every record hangs in the tree of its key. */
  ghost predicate NoOrphans(trees: seq<Tree>, bnum: nat, disk: Disk)
    requires bnum > 0 && |trees| == bnum
  {
    forall o :: o in disk && disk[o].Rec? ==> o in Offs(trees[BucketIndex(disk[o].key, bnum)])
  }

  ghost predicate ForestOk(trees: seq<Tree>, bnum: nat, disk: Disk)
    requires bnum > 0
  {
    AllTreesOk(trees, bnum, disk) && NoOrphans(trees, bnum, disk)
  }

  /** The dictionary the trees hold. */
  ghost predicate DictOk(dict: map<Bytes, Bytes>, trees: seq<Tree>, bnum: nat)
    requires bnum > 0 && |trees| == bnum
  {
    && (forall k :: k in dict <==> k in Keys(trees[BucketIndex(k, bnum)]))
    && (forall k :: k in dict ==> Holds(trees[BucketIndex(k, bnum)], k, dict[k]))
  }

  function LeftPart(t: Tree): Tree { if t.Leaf? then Leaf else t.left }
  function RightPart(t: Tree): Tree { if t.Leaf? then Leaf else t.right }

  // ---------- replacing one subtree in one bucket ----------

  /** `after` differs from `disk` only where putting or removing key may change it. */
  ghost predicate Replanted(disk: Disk, after: Disk, t: Tree, key: Bytes, sub: Tree) {
    var found := Locate(t, key).1;
    && Stored(after, sub) && Ordered(sub) && SameElsewhere(found, sub, key)
    && Relinked(disk, after, t, key, Root(sub))
    && (forall o :: o in disk && disk[o].Rec? && o !in Offs(t) ==> o in after && after[o] == disk[o])
    && (forall o :: o in after && after[o].Rec? && o !in Offs(sub) ==>
          o in disk && disk[o].Rec? && disk[o].key == after[o].key && o !in Offs(found))
  }

  lemma OtherTree(trees: seq<Tree>, bnum: nat, disk: Disk, after: Disk, key: Bytes, sub: Tree, b: nat)
    requires bnum > 0 && AllTreesOk(trees, bnum, disk) && b < bnum && b != BucketIndex(key, bnum)
    requires Replanted(disk, after, trees[BucketIndex(key, bnum)], key, sub)
    ensures TreeOk(trees[b], b, bnum, after)
  {
    hide Relinked, SameElsewhere, Stored, Ordered, BucketIndex, Locate;
    var home := BucketIndex(key, bnum);
    assert TreeOk(trees[b], b, bnum, disk) && TreeOk(trees[home], home, bnum, disk);
    OffsHaveKeys(disk, trees[b]);
    OffsHaveKeys(disk, trees[home]);
    StoredFrame(disk, after, trees[b]);
  }

  lemma HomeTree(trees: seq<Tree>, bnum: nat, disk: Disk, after: Disk, key: Bytes, sub: Tree)
    requires bnum > 0 && AllTreesOk(trees, bnum, disk)
    requires Replanted(disk, after, trees[BucketIndex(key, bnum)], key, sub)
    ensures TreeOk(Graft(trees[BucketIndex(key, bnum)], key, sub), BucketIndex(key, bnum), bnum, after)
  {
    hide Relinked, Stored, Ordered, BucketIndex, Graft, Locate;
    var home := BucketIndex(key, bnum);
    var t := trees[home];
    assert TreeOk(t, home, bnum, disk);
    GraftSame(t, key, sub);
    GraftStored(disk, after, t, key, sub);
  }

  lemma ReplantOrphans(trees: seq<Tree>, bnum: nat, disk: Disk, after: Disk, key: Bytes, sub: Tree)
    requires bnum > 0 && ForestOk(trees, bnum, disk)
    requires Replanted(disk, after, trees[BucketIndex(key, bnum)], key, sub)
    requires forall k :: k in Keys(sub) ==> BucketIndex(k, bnum) == BucketIndex(key, bnum)
    ensures var home := BucketIndex(key, bnum); NoOrphans(trees[home := Graft(trees[home], key, sub)], bnum, after)
  {
    hide Relinked, SameElsewhere, Stored, Ordered, BucketIndex, Graft, Locate;
    var home := BucketIndex(key, bnum);
    var t := trees[home];
    assert TreeOk(t, home, bnum, disk);
    var grown := trees[home := Graft(t, key, sub)];
    forall o | o in after && after[o].Rec?
      ensures o in Offs(grown[BucketIndex(after[o].key, bnum)])
    {
      GraftOffs(disk, t, key, sub, o);
      if o in Offs(sub) {
        OffsHaveKeys(after, sub);
      }
    }
  }

  /** Replacing what the search found keeps the forest. */
  lemma Replant(trees: seq<Tree>, bnum: nat, disk: Disk, after: Disk, key: Bytes, sub: Tree)
    requires bnum > 0 && ForestOk(trees, bnum, disk)
    requires Replanted(disk, after, trees[BucketIndex(key, bnum)], key, sub)
    ensures var home := BucketIndex(key, bnum); ForestOk(trees[home := Graft(trees[home], key, sub)], bnum, after)
  {
    hide Replanted, TreeOk, BucketIndex, NoOrphans, Locate, Graft;
    var home := BucketIndex(key, bnum);
    HomeTree(trees, bnum, disk, after, key, sub);
    forall b | 0 <= b < bnum && b != home
      ensures TreeOk(trees[b], b, bnum, after)
    {
      OtherTree(trees, bnum, disk, after, key, sub, b);
    }
    SubKeysAtHome(trees, bnum, disk, after, key, sub);
    ReplantOrphans(trees, bnum, disk, after, key, sub);
  }

  lemma SubKeysAtHome(trees: seq<Tree>, bnum: nat, disk: Disk, after: Disk, key: Bytes, sub: Tree)
    requires bnum > 0 && AllTreesOk(trees, bnum, disk)
    requires Replanted(disk, after, trees[BucketIndex(key, bnum)], key, sub)
    ensures forall k :: k in Keys(sub) ==> BucketIndex(k, bnum) == BucketIndex(key, bnum)
  {
    hide Relinked, Stored, Ordered, BucketIndex;
    var home := BucketIndex(key, bnum);
    assert TreeOk(trees[home], home, bnum, disk);
    LocatedKeys(trees[home], key);
  }

  lemma {:induction false} LocatedKeys(t: Tree, key: Bytes)
    ensures Keys(Locate(t, key).1) <= Keys(t)
  {
    if t.Node? {
      LocatedKeys(t.left, key);
      LocatedKeys(t.right, key);
    }
  }

  /** The dictionary changes in key only: present with a value, or absent. */
  lemma ReplantDict(dict: map<Bytes, Bytes>, trees: seq<Tree>, bnum: nat, key: Bytes, sub: Tree, dict': map<Bytes,
    Bytes>)
    requires bnum > 0 && |trees| == bnum && DictOk(dict, trees, bnum)
    requires var t := trees[BucketIndex(key, bnum)];
      Ordered(t) && Ordered(sub) && SameElsewhere(Locate(t, key).1, sub, key)
    requires forall k :: k != key ==> (k in dict' <==> k in dict)
    requires forall k :: k != key && k in dict ==> dict'[k] == dict[k]
    requires key in dict' <==> key in Keys(sub)
    requires key in dict' ==> Holds(sub, key, dict'[key])
    ensures var home := BucketIndex(key, bnum); DictOk(dict', trees[home := Graft(trees[home], key, sub)], bnum)
  {
    hide Ordered, BucketIndex, Graft, Locate, Keys, Holds;
    GraftSame(trees[BucketIndex(key, bnum)], key, sub);
  }

  // ---------- putting ----------

  /** The subtree put in place of what the search found: the new record with its children. */
  function NewNode(found: Tree, off: nat, key: Bytes, value: Bytes): Tree {
    Node(off, key, value, LeftPart(found), RightPart(found))
  }

  function NewRec(found: Tree, psiz: nat, key: Bytes, value: Bytes): Tile {
    Rec(RecHash(key), Root(LeftPart(found)), Root(RightPart(found)), psiz, key, value)
  }

  lemma NewNodeSame(t: Tree, off: nat, key: Bytes, value: Bytes)
    requires Ordered(t)
    ensures var found := Locate(t, key).1; var node := NewNode(found, off, key, value);
      Ordered(node) && SameElsewhere(found, node, key) && key in Keys(node) && Holds(node, key, value)
  {
    hide Locate, RecordCmp;
    LocateFinds(t, key);
    FoundOrdered(t, key);
  }

  lemma {:induction false} FoundOrdered(t: Tree, key: Bytes)
    requires Ordered(t)
    ensures Ordered(Locate(t, key).1)
  {
    if t.Node? {
      FoundOrdered(t.left, key);
      FoundOrdered(t.right, key);
    }
  }

  /** The records before the put: the found one gone, the place for the new one not a record. */
  ghost predicate Cleared(disk0: Disk, disk: Disk, found: Tree, off: nat) {
    && 0 !in disk0 && SameRecs(disk0, disk, Root(found)) && off > 0 && (off in disk ==> disk[off].Free?)
  }

  /** A record of the tree outside what was found, or a child of it, is neither cleared nor at off. */
  lemma Survivor(disk0: Disk, disk: Disk, t: Tree, key: Bytes, off: nat, o: nat)
    requires Stored(disk0, t) && Ordered(t) && Cleared(disk0, disk, Locate(t, key).1, off)
    requires o in Offs(t) && (Locate(t, key).1.Node? ==> o != Locate(t, key).1.off)
    ensures o in disk0 && disk0[o].Rec? && o in disk && disk[o] == disk0[o] && o != off && o > 0
  {
    hide Locate, Ordered, Stored;
    OffsHaveKeys(disk0, t);
  }

  /** The disk after the record is written at off and the searched link points to it. */
  function PutDisk(disk: Disk, slot: Slot, found: Tree, off: nat, psiz: nat, key: Bytes, value: Bytes): Disk
    requires !slot.Here? ==> slot.off in disk
  {
    SetLink(disk[off := NewRec(found, psiz, key, value)], slot, off)
  }

  lemma PutStored(disk0: Disk, disk: Disk, t: Tree, key: Bytes, value: Bytes, off: nat, psiz: nat)
    requires Stored(disk0, t) && Ordered(t) && Cleared(disk0, disk, Locate(t, key).1, off)
    ensures var (slot, found) := Locate(t, key);
      && (!slot.Here? ==> slot.off in disk && disk[slot.off].Rec?)
      && Stored(PutDisk(disk, slot, found, off, psiz, key, value), NewNode(found, off, key, value))
  {
    hide Locate, Ordered, RecordCmp;
    var (slot, found) := Locate(t, key);
    LocateSlot(disk0, t, key);
    if !slot.Here? {
      Survivor(disk0, disk, t, key, off, slot.off) by { FoundOff(found); }
    }
    var after := PutDisk(disk, slot, found, off, psiz, key, value);
    if found.Node? {
      PartsDiffer(disk0, found);
      forall o | o in Offs(found.left) || o in Offs(found.right)
        ensures o in after && o in disk0 && after[o] == disk0[o]
      {
        Survivor(disk0, disk, t, key, off, o);
      }
      StoredFrame(disk0, after, found.left);
      StoredFrame(disk0, after, found.right);
    }
  }

  lemma FoundOff(t: Tree)
    ensures t.Node? ==> t.off in Offs(t)
  {
  }

  lemma PutRelinked(disk0: Disk, disk: Disk, t: Tree, key: Bytes, value: Bytes, off: nat, psiz: nat)
    requires Stored(disk0, t) && Ordered(t) && Cleared(disk0, disk, Locate(t, key).1, off)
    requires !Locate(t, key).0.Here? ==> Locate(t, key).0.off in disk
    ensures var (slot, found) := Locate(t, key);
      Relinked(disk0, PutDisk(disk, slot, found, off, psiz, key, value), t, key, off)
  {
    hide Locate, Ordered, RecordCmp, Stored;
    var (slot, found) := Locate(t, key);
    FoundOff(found);
    forall o | o in Offs(t) && o !in Offs(found)
      ensures o in disk0 && o in PutDisk(disk, slot, found, off, psiz, key, value)
      ensures PutDisk(disk, slot, found, off, psiz, key, value)[o] == Linked(disk0[o], o, slot, off)
    {
      Survivor(disk0, disk, t, key, off, o);
    }
  }

  /** Writing the new record and redirecting one link is a replanting. */
  lemma PutReplants(disk0: Disk, disk: Disk, t: Tree, key: Bytes, value: Bytes, off: nat, psiz: nat)
    requires Stored(disk0, t) && Ordered(t) && Cleared(disk0, disk, Locate(t, key).1, off)
    ensures var (slot, found) := Locate(t, key);
      && (!slot.Here? ==> slot.off in disk && disk[slot.off].Rec?)
      && Replanted(disk0, PutDisk(disk, slot, found, off, psiz, key, value), t, key, NewNode(found, off, key, value))
  {
    hide Locate, Ordered, RecordCmp, Stored, Relinked, SameElsewhere;
    var (slot, found) := Locate(t, key);
    var node := NewNode(found, off, key, value);
    PutStored(disk0, disk, t, key, value, off, psiz);
    PutRelinked(disk0, disk, t, key, value, off, psiz);
    NewNodeSame(t, off, key, value);
    LocateSlot(disk0, t, key);
    FoundOff(found);
    FoundOff(node);
  }

  // ---------- removing ----------

  /** The disk after the two children of the found record are joined and the searched link points
      to the result; `disk` has the record already free. */
  function OutDisk(disk: Disk, slot: Slot, found: Tree): Disk
    requires found.Node? && (!slot.Here? ==> slot.off in disk)
    requires found.left.Node? && found.right.Node? ==> Rightmost(found.left) in disk
  {
    var joined := if found.left.Node? && found.right.Node?
      then SetLink(disk, RightOf(Rightmost(found.left)), Root(found.right)) else disk;
    SetLink(joined, slot, Root(Join(found.left, found.right)))
  }

  lemma JoinSame(t: Tree, key: Bytes)
    requires Ordered(t) && Locate(t, key).1.Node?
    ensures var found := Locate(t, key).1; var sub := Join(found.left, found.right);
      Ordered(sub) && SameElsewhere(found, sub, key) && key !in Keys(sub) && Keys(sub) <= Keys(found)
  {
    hide Locate, RecordCmp;
    var found := Locate(t, key).1;
    LocateFinds(t, key);
    FoundOrdered(t, key);
    forall a, b | a in Keys(found.left) && b in Keys(found.right)
      ensures Above(a, b)
    {
      AboveTransitive(a, found.key, b);
    }
    JoinOrdered(found.left, found.right);
    JoinHolds(found.left, found.right);
    RecordCmpTotal(key, key);
  }

  /** Where OutDisk writes: records that survive. */
  lemma OutLinks(disk0: Disk, disk: Disk, t: Tree, key: Bytes)
    requires Stored(disk0, t) && Ordered(t) && Locate(t, key).1.Node?
    requires Cleared(disk0, disk, Locate(t, key).1, Locate(t, key).1.off)
    ensures var (slot, found) := Locate(t, key);
      && (!slot.Here? ==> slot.off in disk && disk[slot.off].Rec? && slot.off !in Offs(found) && slot.off in Offs(t))
      && (found.left.Node? && found.right.Node? ==>
            var m := Rightmost(found.left); m in disk && disk[m].Rec? && m in Offs(found.left))
      && Offs(found) <= Offs(t)
  {
    hide Locate, Ordered, RecordCmp;
    var (slot, found) := Locate(t, key);
    LocateSlot(disk0, t, key);
    FoundOff(found);
    PartsDiffer(disk0, found);
    if !slot.Here? {
      Survivor(disk0, disk, t, key, found.off, slot.off);
    }
    if found.left.Node? && found.right.Node? {
      RightmostIn(found.left);
      Survivor(disk0, disk, t, key, found.off, Rightmost(found.left));
    }
  }

  lemma OutStored(disk0: Disk, disk: Disk, t: Tree, key: Bytes)
    requires Stored(disk0, t) && Ordered(t) && Locate(t, key).1.Node?
    requires Cleared(disk0, disk, Locate(t, key).1, Locate(t, key).1.off)
    requires var (slot, found) := Locate(t, key);
      && (!slot.Here? ==> slot.off in disk && slot.off !in Offs(found))
      && (found.left.Node? && found.right.Node? ==> Rightmost(found.left) in disk)
      && Offs(found) <= Offs(t)
    ensures var (slot, found) := Locate(t, key); Stored(OutDisk(disk, slot, found), Join(found.left, found.right))
  {
    hide Locate, Ordered, RecordCmp;
    var (slot, found) := Locate(t, key);
    var l, r := found.left, found.right;
    var after := OutDisk(disk, slot, found);
    LocateSlot(disk0, t, key);
    PartsDiffer(disk0, found);
    var mid := if l.Node? && r.Node? then SetLinkAt(disk0, l, r) else disk0;
    if l.Node? && r.Node? { JoinStored(disk0, l, r) by { assert Ordered(found); OrderedParts(found); } }
    JoinHolds(l, r);
    forall o | o in Offs(Join(l, r))
      ensures o in mid ==> o in after && after[o] == mid[o]
    {
      Survivor(disk0, disk, t, key, found.off, o);
    }
    StoredFrame(mid, after, Join(l, r));
  }

  lemma OrderedParts(t: Tree)
    requires Ordered(t) && t.Node?
    ensures Ordered(t.left) && Ordered(t.right)
  {
  }

  ghost function SetLinkAt(disk0: Disk, l: Tree, r: Tree): Disk
    requires l.Node? && Stored(disk0, l)
  {
    OffsHaveKeys(disk0, l);
    RightmostIn(l);
    SetLink(disk0, RightOf(Rightmost(l)), Root(r))
  }

  lemma OutRelinked(disk0: Disk, disk: Disk, t: Tree, key: Bytes)
    requires Stored(disk0, t) && Ordered(t) && Locate(t, key).1.Node?
    requires Cleared(disk0, disk, Locate(t, key).1, Locate(t, key).1.off)
    requires var (slot, found) := Locate(t, key);
      && (!slot.Here? ==> slot.off in disk)
      && (found.left.Node? && found.right.Node? ==> var m := Rightmost(found.left); m in disk && m in Offs(found.left))
    ensures var (slot, found) := Locate(t, key);
      Relinked(disk0, OutDisk(disk, slot, found), t, key, Root(Join(found.left, found.right)))
  {
    hide Locate, Ordered, RecordCmp, Stored, Join;
    var (slot, found) := Locate(t, key);
    var after := OutDisk(disk, slot, found);
    FoundOff(found);
    forall o | o in Offs(t) && o !in Offs(found)
      ensures o in disk0 && o in after && after[o] == Linked(disk0[o], o, slot, Root(Join(found.left, found.right)))
    {
      Survivor(disk0, disk, t, key, found.off, o);
    }
  }

  /** Freeing the record, hanging its right subtree under the rightmost record of its left one and
      redirecting one link is a replanting. */
  lemma OutReplants(disk0: Disk, disk: Disk, t: Tree, key: Bytes)
    requires Stored(disk0, t) && Ordered(t) && Locate(t, key).1.Node?
    requires Cleared(disk0, disk, Locate(t, key).1, Locate(t, key).1.off)
    ensures var (slot, found) := Locate(t, key);
      && (!slot.Here? ==> slot.off in disk && disk[slot.off].Rec?)
      && (found.left.Node? && found.right.Node? ==> Rightmost(found.left) in disk && disk[Rightmost(found.left)].Rec?)
      && Replanted(disk0, OutDisk(disk, slot, found), t, key, Join(found.left, found.right))
  {
    hide Locate, Ordered, RecordCmp, Stored, Relinked, SameElsewhere;
    var (slot, found) := Locate(t, key);
    OutLinks(disk0, disk, t, key);
    OutStored(disk0, disk, t, key);
    OutRelinked(disk0, disk, t, key);
    JoinSame(t, key);
    JoinHolds(found.left, found.right);
    FoundOff(found);
  }
}
