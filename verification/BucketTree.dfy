/** The binary search tree of records hanging off one bucket (lib/libdict/tchdb.c:453-523,
    1242-1308). A Tree is the shape found by following the links; Stored ties it to the file. */
module BucketTree {
  import opened KeyOrder
  import opened Tiles

  datatype Tree = Leaf | Node(off: nat, key: Bytes, value: Bytes, left: Tree, right: Tree)

  /** Where a tree is linked from: the bucket array (Here, seen from the root) or a child link of
      a record (entoff in the source). */
  datatype Slot = Here | LeftOf(off: nat) | RightOf(off: nat)

  function Root(t: Tree): nat { if t.Leaf? then 0 else t.off }

  function Keys(t: Tree): set<Bytes> {
    if t.Leaf? then {} else Keys(t.left) + {t.key} + Keys(t.right)
  }

  function Offs(t: Tree): set<nat> {
    if t.Leaf? then {} else Offs(t.left) + {t.off} + Offs(t.right)
  }

  /** The record file[o] is the node t. */
  predicate IsNode(file: File, t: Tree)
    requires t.Node?
  {
    && t.off > 0 && t.off in file && file[t.off].Rec?
    && file[t.off].key == t.key && file[t.off].value == t.value
    && file[t.off].hash == RecHash(t.key)
    && file[t.off].left == Root(t.left) && file[t.off].right == Root(t.right)
  }

  /** Following the links of the file from Root(t) finds exactly t. */
  predicate Stored(file: File, t: Tree) {
    t.Node? ==> IsNode(file, t) && Stored(file, t.left) && Stored(file, t.right)
  }

  ghost predicate AllAbove(keys: set<Bytes>, key: Bytes) { forall k :: k in keys ==> Above(k, key) }
  ghost predicate AllBelow(keys: set<Bytes>, key: Bytes) { forall k :: k in keys ==> Above(key, k) }

  /** Descending order, left to right. */
  ghost predicate Ordered(t: Tree) {
    t.Node? ==>
      && AllAbove(Keys(t.left), t.key) && AllBelow(Keys(t.right), t.key)
      && Ordered(t.left) && Ordered(t.right)
  }

  /** The value a tree holds for a key of it. */
  ghost predicate Holds(t: Tree, key: Bytes, value: Bytes) {
    t.Node? && ((t.key == key && t.value == value) || Holds(t.left, key, value) || Holds(t.right, key, value))
  }

  /** Where a search for key ends: the link it followed last and the subtree found there. */
  function Locate(t: Tree, key: Bytes): (Slot, Tree) {
    if t.Leaf? then (Here, t)
    else
      var c := RecordCmp(key, t.key);
      if c == 0 then (Here, t)
      else
        var (slot, sub) := Locate(if c > 0 then t.left else t.right, key);
        (if !slot.Here? then slot else if c > 0 then LeftOf(t.off) else RightOf(t.off), sub)
  }

  /** The tree with the subtree found for key replaced. */
  function Graft(t: Tree, key: Bytes, sub: Tree): Tree {
    if t.Leaf? then sub
    else
      var c := RecordCmp(key, t.key);
      if c > 0 then t.(left := Graft(t.left, key, sub))
      else if c < 0 then t.(right := Graft(t.right, key, sub))
      else sub
  }

  /** Both children of a removed record: the right one is hung under the rightmost of the left. */
  function Join(l: Tree, r: Tree): Tree {
    if l.Leaf? then r else if r.Leaf? then l else l.(right := Join(l.right, r))
  }

  /** The record whose right link Join changes. */
  function Rightmost(t: Tree): nat
    requires t.Node?
  {
    if t.right.Leaf? then t.off else Rightmost(t.right)
  }

  /** The tile t at o after the link `slot` is overwritten. */
  function Linked(t: Tile, o: nat, slot: Slot, child: nat): Tile {
    if t.Rec? && slot == LeftOf(o) then t.(left := child)
    else if t.Rec? && slot == RightOf(o) then t.(right := child)
    else t
  }

  /** The file after a link is overwritten; a bucket link is not in the file. */
  function SetLink(file: File, slot: Slot, child: nat): File
    requires !slot.Here? ==> slot.off in file
  {
    if slot.Here? then file else file[slot.off := Linked(file[slot.off], slot.off, slot, child)]
  }

  // ---------- searching ----------

  /** In an ordered tree the search finds a key exactly when the tree has it. */
  lemma {:induction false} LocateFinds(t: Tree, key: Bytes)
    requires Ordered(t)
    ensures key in Keys(t) <==> Locate(t, key).1.Node?
    ensures Locate(t, key).1.Node? ==> Locate(t, key).1.key == key
    ensures forall v :: Holds(t, key, v) <==> Locate(t, key).1.Node? && Locate(t, key).1.value == v
  {
    if t.Node? {
      RecordCmpTotal(key, t.key);
      LocateFinds(t.left, key);
      LocateFinds(t.right, key);
      HeldKey(t.left);
      HeldKey(t.right);
    }
  }

  lemma {:induction false} HeldKey(t: Tree)
    ensures forall k, v :: Holds(t, k, v) ==> k in Keys(t)
  {
    if t.Node? {
      HeldKey(t.left);
      HeldKey(t.right);
    }
  }

  // ---------- offsets and keys ----------

  /** A record of the tree carries one of the tree's keys. */
  lemma {:induction false} OffsHaveKeys(file: File, t: Tree)
    requires Stored(file, t)
    ensures forall o :: o in Offs(t) ==> o > 0 && o in file && file[o].Rec? && file[o].key in Keys(t)
  {
    if t.Node? {
      OffsHaveKeys(file, t.left);
      OffsHaveKeys(file, t.right);
    }
  }

  /** Only the tree's own records matter. */
  lemma {:induction false} StoredFrame(file: File, after: File, t: Tree)
    requires Stored(file, t)
    requires forall o :: o in Offs(t) && o in file ==> o in after && after[o] == file[o]
    ensures Stored(after, t)
  {
    if t.Node? {
      StoredFrame(file, after, t.left);
      StoredFrame(file, after, t.right);
    }
  }

  /** The three parts of an ordered stored tree do not share records. */
  lemma PartsDiffer(file: File, t: Tree)
    requires Stored(file, t) && Ordered(t) && t.Node?
    ensures t.off !in Offs(t.left) && t.off !in Offs(t.right)
    ensures Offs(t.left) !! Offs(t.right)
  {
    OffsHaveKeys(file, t.left);
    OffsHaveKeys(file, t.right);
    RecordCmpTotal(t.key, t.key);
    forall o | o in Offs(t.left) && o in Offs(t.right)
      ensures false
    {
      RecordCmpTotal(file[o].key, t.key);
    }
  }

  // ---------- grafting: what putting and removing do to a tree ----------

  ghost predicate SameKeys(a: Tree, b: Tree, key: Bytes) {
    forall k :: k != key ==> (k in Keys(a) <==> k in Keys(b))
  }

  ghost predicate SameValues(a: Tree, b: Tree, key: Bytes) {
    forall k, v :: k != key ==> (Holds(a, k, v) <==> Holds(b, k, v))
  }

  /** Two trees hold the same records for every key but one. */
  ghost predicate SameElsewhere(a: Tree, b: Tree, key: Bytes) {
    SameKeys(a, b, key) && SameValues(a, b, key)
  }

  lemma {:induction false} GraftOrdered(t: Tree, key: Bytes, sub: Tree)
    requires Ordered(t) && Ordered(sub) && SameKeys(Locate(t, key).1, sub, key)
    ensures Ordered(Graft(t, key, sub)) && SameKeys(t, Graft(t, key, sub), key)
    ensures key in Keys(Graft(t, key, sub)) <==> key in Keys(sub)
  {
    if t.Node? {
      RecordCmpTotal(key, t.key);
      RecordCmpTotal(t.key, key);
      if RecordCmp(key, t.key) > 0 {
        GraftOrdered(t.left, key, sub);
      } else if RecordCmp(key, t.key) < 0 {
        GraftOrdered(t.right, key, sub);
      }
    }
  }

  lemma {:induction false} GraftValues(t: Tree, key: Bytes, sub: Tree)
    requires Ordered(t) && SameValues(Locate(t, key).1, sub, key)
    ensures SameValues(t, Graft(t, key, sub), key)
    ensures forall v :: Holds(Graft(t, key, sub), key, v) <==> Holds(sub, key, v)
  {
    if t.Node? {
      RecordCmpTotal(key, t.key);
      HeldKey(t.left);
      HeldKey(t.right);
      if RecordCmp(key, t.key) > 0 {
        GraftValues(t.left, key, sub);
      } else if RecordCmp(key, t.key) < 0 {
        GraftValues(t.right, key, sub);
      }
    }
  }

  /** Replacing what a search for key found, by a tree that differs from it only in key, changes
      the whole tree only in key and keeps it ordered. */
  lemma GraftSame(t: Tree, key: Bytes, sub: Tree)
    requires Ordered(t) && Ordered(sub) && SameElsewhere(Locate(t, key).1, sub, key)
    ensures Ordered(Graft(t, key, sub)) && SameElsewhere(t, Graft(t, key, sub), key)
    ensures key in Keys(Graft(t, key, sub)) <==> key in Keys(sub)
    ensures forall v :: Holds(Graft(t, key, sub), key, v) <==> Holds(sub, key, v)
  {
    GraftOrdered(t, key, sub);
    GraftValues(t, key, sub);
  }

  /** Joining two ordered trees, all of the first above all of the second, gives an ordered tree
      that holds exactly what the two held. */
  lemma {:induction false} JoinHolds(l: Tree, r: Tree)
    ensures Keys(Join(l, r)) == Keys(l) + Keys(r) && Offs(Join(l, r)) == Offs(l) + Offs(r)
    ensures forall k, v :: Holds(Join(l, r), k, v) <==> Holds(l, k, v) || Holds(r, k, v)
  {
    if l.Node? && r.Node? {
      JoinHolds(l.right, r);
    }
  }

  lemma {:induction false} JoinOrdered(l: Tree, r: Tree)
    requires Ordered(l) && Ordered(r)
    requires forall a, b :: a in Keys(l) && b in Keys(r) ==> Above(a, b)
    ensures Ordered(Join(l, r))
  {
    if l.Node? && r.Node? {
      JoinOrdered(l.right, r);
      JoinHolds(l.right, r);
    }
  }

  lemma {:induction false} RightmostIn(t: Tree)
    requires t.Node?
    ensures Rightmost(t) in Offs(t)
  {
    if t.right.Node? { RightmostIn(t.right); }
  }

  /** Writing one right link is all it takes to store the joined tree. */
  lemma {:induction false} JoinStored(file: File, l: Tree, r: Tree)
    requires Stored(file, l) && Stored(file, r) && Ordered(l) && l.Node? && r.Node?
    requires Offs(l) !! Offs(r)
    ensures Rightmost(l) in file && file[Rightmost(l)].Rec?
    ensures Stored(SetLink(file, RightOf(Rightmost(l)), Root(r)), Join(l, r))
  {
    PartsDiffer(file, l);
    if l.right.Leaf? {
      var after := SetLink(file, RightOf(l.off), Root(r));
      StoredFrame(file, after, l.left);
      StoredFrame(file, after, r);
    } else {
      JoinStored(file, l.right, r);
      RightmostIn(l.right);
      StoredFrame(file, SetLink(file, RightOf(Rightmost(l)), Root(r)), l.left);
    }
  }

  /** The link a search ended at belongs to a record outside the subtree it found. */
  lemma {:induction false} LocateSlot(file: File, t: Tree, key: Bytes)
    requires Stored(file, t) && Ordered(t)
    ensures var (slot, sub) := Locate(t, key);
      && Offs(sub) <= Offs(t) && Stored(file, sub) && Ordered(sub)
      && (slot.Here? ==> sub == t)
      && (!slot.Here? ==> slot.off in Offs(t) && slot.off !in Offs(sub) && slot.off in file && file[slot.off].Rec?)
  {
    if t.Node? {
      PartsDiffer(file, t);
      OffsHaveKeys(file, t);
      if RecordCmp(key, t.key) > 0 {
        LocateSlot(file, t.left, key);
      } else if RecordCmp(key, t.key) < 0 {
        LocateSlot(file, t.right, key);
      }
    }
  }

  /** `after` is `file` with the searched link redirected to child; the found records may differ. */
  ghost predicate Relinked(file: File, after: File, t: Tree, key: Bytes, child: nat) {
    var (slot, sub) := Locate(t, key);
    forall o :: o in Offs(t) && o !in Offs(sub) ==>
      o in file && o in after && after[o] == Linked(file[o], o, slot, child)
  }

  function Near(t: Tree, key: Bytes): Tree
    requires t.Node?
  {
    if RecordCmp(key, t.key) > 0 then t.left else t.right
  }

  function Far(t: Tree, key: Bytes): Tree
    requires t.Node?
  {
    if RecordCmp(key, t.key) > 0 then t.right else t.left
  }

  lemma RelinkedParts(file: File, after: File, t: Tree, key: Bytes, child: nat)
    requires Stored(file, t) && Ordered(t) && Relinked(file, after, t, key, child)
    requires t.Node? && RecordCmp(key, t.key) != 0
    ensures Relinked(file, after, Near(t, key), key, child)
    ensures Stored(after, Far(t, key))
    ensures t.off in after && after[t.off] == Linked(file[t.off], t.off, Locate(t, key).0, child)
    ensures !Locate(Near(t, key), key).0.Here? ==> Locate(t, key).0.off != t.off
  {
    PartsDiffer(file, t);
    LocateSlot(file, Near(t, key), key);
    StoredFrame(file, after, Far(t, key));
  }

  lemma GraftStep(file: File, after: File, t: Tree, key: Bytes, sub: Tree)
    requires t.Node? && RecordCmp(key, t.key) != 0 && IsNode(file, t)
    requires Stored(after, Graft(Near(t, key), key, sub)) && Stored(after, Far(t, key))
    requires t.off in after && after[t.off] == Linked(file[t.off], t.off, Locate(t, key).0, Root(sub))
    requires var here := Locate(Near(t, key), key).0.Here?;
      && (!here ==> Locate(t, key).0.off != t.off)
      && Root(Graft(Near(t, key), key, sub)) == if here then Root(sub) else Root(Near(t, key))
    ensures Stored(after, Graft(t, key, sub)) && !Locate(t, key).0.Here? && Root(Graft(t, key, sub)) == Root(t)
  {
    var g := Graft(t, key, sub);
    assert g == if RecordCmp(key, t.key) > 0
      then t.(left := Graft(t.left, key, sub)) else t.(right := Graft(t.right, key, sub));
    assert IsNode(after, g);
  }

  /** Redirecting the one link the search ended at stores the grafted tree. */
  lemma {:induction false} GraftStored(file: File, after: File, t: Tree, key: Bytes, sub: Tree)
    requires Stored(file, t) && Ordered(t) && Stored(after, sub)
    requires Relinked(file, after, t, key, Root(sub))
    ensures Stored(after, Graft(t, key, sub))
    ensures Root(Graft(t, key, sub)) == if Locate(t, key).0.Here? then Root(sub) else Root(t)
  {
    if t.Node? && RecordCmp(key, t.key) != 0 {
      RelinkedParts(file, after, t, key, Root(sub));
      GraftStored(file, after, Near(t, key), key, sub);
      GraftStep(file, after, t, key, sub);
    }
  }

  /** The grafted tree has the records outside the found subtree and those of the new one. */
  lemma {:induction false} GraftOffs(file: File, t: Tree, key: Bytes, sub: Tree, o: nat)
    requires Stored(file, t) && Ordered(t)
    ensures o in Offs(Graft(t, key, sub)) <==> (o in Offs(t) && o !in Offs(Locate(t, key).1)) || o in Offs(sub)
  {
    if t.Node? {
      PartsDiffer(file, t);
      if RecordCmp(key, t.key) > 0 {
        LocateSlot(file, t.left, key);
        GraftOffs(file, t.left, key, sub, o);
      } else if RecordCmp(key, t.key) < 0 {
        LocateSlot(file, t.right, key);
        GraftOffs(file, t.right, key, sub, o);
      }
    }
  }
}
