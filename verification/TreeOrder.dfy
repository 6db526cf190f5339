/** What the links on file say about keys: whoever follows the links of a record finds larger keys to
    its left and smaller ones to its right (lib/libdict/tchdb.c:382-424, 1242-1308). */
module TreeOrder {
  import opened KeyOrder
  import opened Tiles
  import opened FreePool
  import opened BucketTree
  import opened Forest
  import opened HashDb

  /** Records, each linked from the one before by its left or right link. */
  ghost predicate Path(disk: Disk, p: seq<nat>) {
    && p != []
    && (forall i :: 0 <= i < |p| ==> p[i] > 0 && p[i] in disk && disk[p[i]].Rec?)
    && (forall i :: 0 < i < |p| ==> p[i] == disk[p[i - 1]].left || p[i] == disk[p[i - 1]].right)
  }

  lemma {:induction false} ChildInside(disk: Disk, t: Tree, o: nat, child: nat)
    requires Stored(disk, t) && o in Offs(t) && o in disk && disk[o].Rec?
    requires child > 0 && (child == disk[o].left || child == disk[o].right)
    ensures child in Offs(t)
  {
    if o in Offs(t.left) {
      ChildInside(disk, t.left, o, child);
    } else if o in Offs(t.right) {
      ChildInside(disk, t.right, o, child);
    } else {
      FoundOff(t.left);
      FoundOff(t.right);
    }
  }

  /** A path that starts in a tree stays in it. */
  lemma {:induction false} PathInside(disk: Disk, t: Tree, p: seq<nat>, n: nat)
    requires Stored(disk, t) && Path(disk, p) && p[0] in Offs(t) && n < |p|
    ensures p[n] in Offs(t)
  {
    if n > 0 {
      PathInside(disk, t, p, n - 1);
      ChildInside(disk, t, p[n - 1], p[n]);
    }
  }

  /** The subtree whose root is the record at o. */
  ghost function NodeAt(disk: Disk, t: Tree, o: nat): (n: Tree)
    requires Stored(disk, t) && Ordered(t) && o in Offs(t)
    ensures n.Node? && n.off == o && Stored(disk, n) && Ordered(n)
  {
    if o == t.off then t
    else if o in Offs(t.left) then NodeAt(disk, t.left, o)
    else NodeAt(disk, t.right, o)
  }

  /** In one tree, every key reached through the left link of a record is above its key, every key
      reached through the right link below. */
  lemma TreeLinks(disk: Disk, t: Tree, o: nat, p: seq<nat>)
    requires Stored(disk, t) && Ordered(t) && o in Offs(t) && o in disk && disk[o].Rec?
    requires Path(disk, p) && (p[0] == disk[o].left || p[0] == disk[o].right)
    ensures p[0] == disk[o].left ==> Above(disk[p[|p| - 1]].key, disk[o].key)
    ensures p[0] == disk[o].right ==> Above(disk[o].key, disk[p[|p| - 1]].key)
  {
    hide Path, RecordCmp;
    var n := NodeAt(disk, t, o);
    PathStart(disk, p);
    if p[0] == disk[o].left {
      FoundOff(n.left);
      PathInside(disk, n.left, p, |p| - 1);
      OffsHaveKeys(disk, n.left);
    }
    if p[0] == disk[o].right {
      FoundOff(n.right);
      PathInside(disk, n.right, p, |p| - 1);
      OffsHaveKeys(disk, n.right);
    }
  }

  lemma PathStart(disk: Disk, p: seq<nat>)
    requires Path(disk, p)
    ensures p != [] && p[0] > 0 && p[|p| - 1] in disk && disk[p[|p| - 1]].Rec?
  {
  }

  /** In every valid database: of two records, one reached by following links from the left link of the
      other, the reached one has the larger key, and from the right link the smaller one. Larger is the
      key with the larger second hash, of equal hashes the longer one, of equal lengths the one with
      the larger byte where they first differ. */
  lemma LinksOrdered(db: HashDb, o: nat, p: seq<nat>)
    requires db.Valid() && o in db.disk && db.disk[o].Rec?
    requires Path(db.disk, p) && (p[0] == db.disk[o].left || p[0] == db.disk[o].right)
    ensures var mine, reached := db.disk[o].key, db.disk[p[|p| - 1]].key;
      var (a, b) := if p[0] == db.disk[o].left then (reached, mine) else (mine, reached);
      || RecHash(a) > RecHash(b)
      || (RecHash(a) == RecHash(b) && |a| > |b|)
      || (RecHash(a) == RecHash(b) && |a| == |b| && exists i :: 0 <= i < |a| && a[..i] == b[..i] && a[i] > b[i])
  {
    hide Path, RecordCmp, RecHash, Stored, Ordered;
    PathStart(db.disk, p);
    var mine, reached := db.disk[o].key, db.disk[p[|p| - 1]].key;
    AboveMeans(mine, reached);
    AboveMeans(reached, mine);
    hide *;
    HomeTreeOf(db, o);
    TreeLinks(db.disk, db.trees[BucketIndex(mine, db.bnum)], o, p);
  }

  lemma HomeTreeOf(db: HashDb, o: nat)
    requires db.Valid() && o in db.disk && db.disk[o].Rec?
    ensures db.bnum > 0 && |db.trees| == db.bnum
    ensures var t := db.trees[BucketIndex(db.disk[o].key, db.bnum)];
      Stored(db.disk, t) && Ordered(t) && o in Offs(t)
  {
    hide Stored, Ordered, BucketIndex;
    var bidx := BucketIndex(db.disk[o].key, db.bnum);
    assert TreeOk(db.trees[bidx], bidx, db.bnum, db.disk);
  }

  /** The path by which a record is found from the root of its tree. */
  ghost function PathTo(disk: Disk, t: Tree, o: nat): (p: seq<nat>)
    requires Stored(disk, t) && o in Offs(t)
    ensures Path(disk, p) && p[0] == Root(t) && p[|p| - 1] == o
  {
    if o in Offs(t.left) then Below(disk, t, PathTo(disk, t.left, o))
    else if o in Offs(t.right) then Below(disk, t, PathTo(disk, t.right, o))
    else [t.off]
  }

  ghost function Below(disk: Disk, t: Tree, rest: seq<nat>): (p: seq<nat>)
    requires t.Node? && IsNode(disk, t) && Path(disk, rest) && (rest[0] == Root(t.left) || rest[0] == Root(t.right))
    ensures Path(disk, p) && p[0] == t.off && p[|p| - 1] == rest[|rest| - 1]
  {
    [t.off] + rest
  }

  /** In every valid database the links lead from the link in a key's bucket to its record and value. */
  lemma StoredIsReached(db: HashDb, key: Bytes)
    requires db.Valid() && key in db.dict
    ensures exists p ::
      && Path(db.disk, p) && p[0] == db.buckets[BucketIndex(key, db.bnum)]
      && db.disk[p[|p| - 1]].key == key && db.disk[p[|p| - 1]].value == db.dict[key]
  {
    hide Path, Stored, Ordered, Holds, BucketIndex;
    var t := db.trees[BucketIndex(key, db.bnum)];
    assert TreeOk(t, BucketIndex(key, db.bnum), db.bnum, db.disk);
    var o := HeldAt(db.disk, t, key, db.dict[key]);
    var p := PathTo(db.disk, t, o);
    PathStart(db.disk, p);
  }

  lemma {:induction false} HeldAt(disk: Disk, t: Tree, key: Bytes, value: Bytes) returns (o: nat)
    requires Stored(disk, t) && Holds(t, key, value)
    ensures o in Offs(t) && o in disk && disk[o].Rec? && disk[o].key == key && disk[o].value == value
  {
    if t.key == key && t.value == value {
      o := t.off;
    } else if Holds(t.left, key, value) {
      o := HeldAt(disk, t.left, key, value);
    } else {
      o := HeldAt(disk, t.right, key, value);
    }
  }
}
