/** Single steps of the store on tiling, file, trees and dictionary: what the methods of the
    database class do, as facts about values. */
module StoreSteps {
  import opened KeyOrder
  import opened Tiles
  import opened Layout
  import opened FreePool
  import opened Allocator
  import opened BucketTree
  import opened Forest
  import opened Iteration
  import opened RecordCodec
  import opened PoolSteps

  /** Carving changes no tile outside and adds at most two. */
  lemma CarveOnFile(file: File, disk: Disk, pend: nat, off: nat, end: nat, n: nat)
    requires OnFile(file, disk, pend) && off < end && (pend == 0 ==> 0 !in disk) && (pend == 0 || pend == off) && 0 < n
    ensures forall p :: p in CarveDisk(disk, off, end, n) && p != off && p != off + n ==>
              p in file && file[p] == CarveDisk(disk, off, end, n)[p]
    ensures off + n == end ==> OnFile(file, CarveDisk(disk, off, end, n), off)
  {
  }

  /** Rounding up the front of an entry more than twice as large leaves a rest. */
  lemma FrontSize(off: nat, rsiz: nat, whole: nat)
    requires Aligned(off) && Aligned(whole) && 15 <= rsiz && 2 * rsiz < whole
    ensures var n := rsiz + PadSize(off + rsiz); 0 < n && n + ALIGN <= whole && Aligned(n)
  {
  }

  lemma DivideClaims(pool: multiset<Block>, disk: Disk, file: File, frec: nat, fsiz: nat, b: Block, rsiz: nat, n: nat)
    requires Tiling(disk, frec, fsiz) && PoolOk(pool, disk, fsiz, 0)
    requires b in pool && OnFile(file, disk, 0) && fsiz <= FILE_LIMIT
    requires 15 <= rsiz && 2 * rsiz < b.rsiz && n == rsiz + PadSize(b.off + rsiz)
    ensures 0 < n && n + ALIGN <= b.rsiz && b.off > 0 && EndOf(b) <= fsiz
    ensures var after := CarveDisk(disk, b.off, EndOf(b), n); var rest := Block(b.off + n, b.rsiz - n);
      && Tiling(after, frec, fsiz) && PoolOk(pool - multiset{b} + multiset{rest}, after, fsiz, b.off)
      && SameRecs(disk, after, 0) && FreeAt(after, b.off, n) && b.off in after && after[b.off].Free?
      && OnFile(WriteTile(file, b.off + n, Free(rest.rsiz)), after, b.off)
  {
    hide Tiling, PoolOk, OnFile, SameRecs, CarveDisk, IsRun, PadSize, Aligned, WriteTile;
    ClaimedIsApart(pool, disk, fsiz, b);
    RunAligned(disk, frec, fsiz, 0, b);
    FrontSize(b.off, rsiz, b.rsiz);
    Claim(pool, disk, frec, fsiz, b, n);
    ClaimPart(pool, disk, frec, fsiz, b, n);
    NoZero(disk, frec, fsiz);
    CarveOnFile(file, disk, 0, b.off, EndOf(b), n);
    WriteOnFile(file, CarveDisk(disk, b.off, EndOf(b), n), frec, fsiz, b.off, b.off + n);
  }

  lemma SpliceClaims(pool: multiset<Block>, disk: Disk, file: File, frec: nat, fsiz: nat, off: nat, b: Block, n: nat)
    requires Tiling(disk, frec, fsiz) && PoolOk(pool, disk, fsiz, off) && b in pool && OnFile(file, disk, off)
    requires off > 0 && off in disk && disk[off].Free? && off + disk[off].rsiz == b.off && n == disk[off].rsiz + b.rsiz
    ensures n > 0
    ensures var after := CarveDisk(disk, off, off + n, n);
      && Tiling(after, frec, fsiz) && PoolOk(pool - multiset{b}, after, fsiz, off)
      && SameRecs(disk, after, 0) && FreeAt(after, off, n) && OnFile(file, after, off)
  {
    hide Tiling, PoolOk, OnFile, SameRecs, CarveDisk, FreeAt;
    EntryNotEmpty(pool, b, disk, fsiz, off);
    ClaimNext(pool, disk, frec, fsiz, off, b);
    CarveOnFile(file, disk, off, off, off + n, n);
  }

  lemma SameRecsRefl(disk: Disk)
    requires 0 !in disk
    ensures SameRecs(disk, disk, 0)
  {
  }

  /** Turning a record into a pending tile keeps everything else. */
  lemma PendingKeeps(pool: multiset<Block>, disk: Disk, file: File, frec: nat, fsiz: nat, off: nat)
    requires Tiling(disk, frec, fsiz) && PoolOk(pool, disk, fsiz, 0) && OnFile(file, disk, 0)
    requires off in disk && disk[off].Rec? && 0 !in disk
    ensures var after := disk[off := Free(Size(disk[off]))];
      && Tiling(after, frec, fsiz) && PoolOk(pool, after, fsiz, off) && OnFile(file, after, off)
      && SameRecs(disk, after, off)
  {
    var after := disk[off := Free(Size(disk[off]))];
    assert Sizes(after) == Sizes(disk);
    forall b | b in pool
      ensures pool[b] == 1 && IsRun(after, fsiz, off, b)
    {
      assert IsRun(disk, fsiz, 0, b);
    }
  }

  lemma FileWithout(file: File, disk: Disk, pend: nat)
    requires OnFile(file, disk, pend)
    ensures forall p :: p in disk && p != pend ==> p in file && file[p] == disk[p]
  {
  }

  lemma ShownTile(image: Bytes, file: File, o: nat)
    requires Imaged(image, file) && o in file
    ensures Shows(image, o, file[o]) && WellFormed(file[o]) && o <= |image|
  {
  }

  /** Overwriting a link changes no size and no free tile. */
  lemma LinkKeeps(pool: multiset<Block>, disk: Disk, frec: nat, fsiz: nat, slot: Slot, child: nat)
    requires Tiling(disk, frec, fsiz) && PoolOk(pool, disk, fsiz, 0)
    requires !slot.Here? && slot.off in disk && disk[slot.off].Rec?
    ensures Tiling(SetLink(disk, slot, child), frec, fsiz) && PoolOk(pool, SetLink(disk, slot, child), fsiz, 0)
  {
    hide GoodLayout;
    var after := SetLink(disk, slot, child);
    assert Sizes(after) == Sizes(disk);
    forall b | b in pool
      ensures pool[b] == 1 && IsRun(after, fsiz, 0, b)
    {
      assert IsRun(disk, fsiz, 0, b);
    }
  }

  lemma NeedAtLeast(key: Bytes, value: Bytes)
    ensures Need(key, value) >= 14 + |key| + |value|
  {
  }

  lemma NeedPositive(key: Bytes, value: Bytes)
    ensures Need(key, value) >= 14
  {
  }

  lemma PadAligned(end: nat, need: nat)
    requires Aligned(end)
    ensures Aligned(need + PadSize(end + need))
  {
  }

  lemma AppendAligned(disk: Disk, frec: nat, fsiz: nat, rec: Tile)
    requires Tiling(disk, frec, fsiz) && rec.Rec? && rec.psiz == PadSize(fsiz + Need(rec.key, rec.value))
    ensures 0 < Size(rec) && Aligned(Size(rec))
  {
    hide Need, Tiling, PadSize, Aligned;
    FrecPositive(disk, frec, fsiz);
    NeedPositive(rec.key, rec.value);
    PadAligned(fsiz, Need(rec.key, rec.value));
  }

  lemma PendingAligned(disk: Disk, frec: nat, fsiz: nat, off: nat)
    requires Tiling(disk, frec, fsiz) && off in disk
    ensures Aligned(off)
  {
    assert AlignedTile(Sizes(disk), off);
  }

  /** No tile is smaller than the alignment. */
  lemma AtLeastOneUnit(disk: Disk, frec: nat, fsiz: nat, off: nat)
    requires Tiling(disk, frec, fsiz) && off in disk
    ensures Size(disk[off]) >= ALIGN
  {
    hide AllChained, Disjoint;
    var layout := Sizes(disk);
    assert AlignedTile(layout, off) && layout[off] == Size(disk[off]);
  }

  /** Every record but the one at x is where it was and as it was, but for the one link. */
  ghost predicate OneLink(before: Disk, after: Disk, x: nat, slot: Slot, child: nat) {
    forall o :: o in before && before[o].Rec? && o != x ==> o in after && after[o] == Linked(before[o], o, slot, child)
  }

  /** A search standing at `found`, reached through `slot`, ends where the whole search ends. */
  ghost predicate Reaches(t: Tree, key: Bytes, slot: Slot, found: Tree) {
    var (inner, sub) := Locate(found, key);
    Locate(t, key) == (if inner.Here? then slot else inner, sub)
  }

  lemma ReachesNext(t: Tree, key: Bytes, slot: Slot, found: Tree)
    requires Reaches(t, key, slot, found) && found.Node?
    ensures RecordCmp(key, found.key) > 0 ==> Reaches(t, key, LeftOf(found.off), found.left)
    ensures RecordCmp(key, found.key) < 0 ==> Reaches(t, key, RightOf(found.off), found.right)
    ensures RecordCmp(key, found.key) == 0 ==> Locate(t, key) == (slot, found)
  {
  }

  lemma LeafReached(t: Tree, key: Bytes, slot: Slot, found: Tree, disk: Disk)
    requires Reaches(t, key, slot, found) && Stored(disk, found) && Root(found) == 0
    ensures Locate(t, key) == (slot, found)
  {
  }

  lemma StoredOnDisk(disk: Disk, frec: nat, fsiz: nat, t: Tree)
    requires Tiling(disk, frec, fsiz) && Stored(disk, t) && t.Node?
    ensures t.off in disk && t.off != 0
  {
  }

  lemma FoundRecord(disk: Disk, frec: nat, fsiz: nat, t: Tree)
    requires Stored(disk, t)
    ensures t.Node? ==>
      t.off in disk && t.off > 0 && disk[t.off].Rec? && disk[t.off].value == t.value && disk[t.off].key == t.key
    ensures t.Node? ==>
      disk[t.off].left == Root(t.left) && disk[t.off].right == Root(t.right) && disk[t.off].hash == RecHash(t.key)
  {
  }

  /** Whether the search found a record is whether the dictionary has the key. */
  lemma SearchedKey(trees: seq<Tree>, bnum: nat, disk: Disk, dict: map<Bytes, Bytes>, key: Bytes)
    requires bnum > 0 && ForestOk(trees, bnum, disk) && DictOk(dict, trees, bnum)
    ensures var found := Locate(trees[BucketIndex(key, bnum)], key).1;
      (key in dict <==> found.Node?) && (found.Node? ==> found.key == key)
  {
    hide BucketIndex, Locate, Stored;
    var home := BucketIndex(key, bnum);
    assert TreeOk(trees[home], home, bnum, disk);
    LocateFinds(trees[home], key);
  }

  /** The forest and the dictionary after a put. */
  lemma PutCommits(disk0: Disk, disk: Disk, trees: seq<Tree>, bnum: nat, dict: map<Bytes, Bytes>, key: Bytes,
    value: Bytes, off: nat, psiz: nat)
    requires bnum > 0 && ForestOk(trees, bnum, disk0) && DictOk(dict, trees, bnum)
    requires Cleared(disk0, disk, Locate(trees[BucketIndex(key, bnum)], key).1, off)
    ensures var home := BucketIndex(key, bnum); var (slot, found) := Locate(trees[home], key);
      var grown := Graft(trees[home], key, NewNode(found, off, key, value));
      && (!slot.Here? ==> slot.off in disk && disk[slot.off].Rec?)
      && ForestOk(trees[home := grown], bnum, PutDisk(disk, slot, found, off, psiz, key, value))
      && DictOk(dict[key := value], trees[home := grown], bnum)
      && Root(grown) == if slot.Here? then off else Root(trees[home])
  {
    hide BucketIndex, Graft, Locate, DictOk, Cleared, NoOrphans, PutDisk;
    var home := BucketIndex(key, bnum);
    var t := trees[home];
    var (slot, found) := Locate(t, key);
    var node := NewNode(found, off, key, value);
    assert TreeOk(t, home, bnum, disk0);
    PutReplants(disk0, disk, t, key, value, off, psiz);
    var after := PutDisk(disk, slot, found, off, psiz, key, value);
    Replant(trees, bnum, disk0, after, key, node);
    GraftStored(disk0, after, t, key, node);
    NewNodeSame(t, off, key, value);
    ReplantDict(dict, trees, bnum, key, node, dict[key := value]);
  }

  lemma OneLinkAfter(disk0: Disk, disk1: Disk, found: Tree, off: nat, rec: Tile, slot: Slot)
    requires Cleared(disk0, disk1, found, off) && rec.Rec? && (!slot.Here? ==> slot.off in disk1)
    ensures OneLink(disk0, SetLink(disk1[off := rec], slot, off), Root(found), slot, off)
  {
  }

  lemma PutSize(dict: map<Bytes, Bytes>, key: Bytes, value: Bytes)
    ensures |dict[key := value]| == if key in dict then |dict| else |dict| + 1
  {
    assert dict[key := value].Keys == dict.Keys + {key};
    if key in dict { assert dict.Keys + {key} == dict.Keys; }
  }

  /** The forest and the dictionary after a removal. */
  lemma OutCommits(disk0: Disk, disk: Disk, trees: seq<Tree>, bnum: nat, dict: map<Bytes, Bytes>, key: Bytes)
    requires bnum > 0 && ForestOk(trees, bnum, disk0) && DictOk(dict, trees, bnum)
    requires var found := Locate(trees[BucketIndex(key, bnum)], key).1;
      found.Node? && Cleared(disk0, disk, found, found.off)
    ensures var home := BucketIndex(key, bnum); var (slot, found) := Locate(trees[home], key);
      var pruned := Graft(trees[home], key, Join(found.left, found.right));
      && (!slot.Here? ==> slot.off in disk && disk[slot.off].Rec?)
      && (found.left.Node? && found.right.Node? ==> Rightmost(found.left) in disk && disk[Rightmost(found.left)].Rec?)
      && ForestOk(trees[home := pruned], bnum, OutDisk(disk, slot, found))
      && DictOk(dict - {key}, trees[home := pruned], bnum)
      && Root(pruned) == if slot.Here? then Root(Join(found.left, found.right)) else Root(trees[home])
  {
    hide BucketIndex, Graft, Locate, DictOk, Cleared, NoOrphans, OutDisk, Join;
    var home := BucketIndex(key, bnum);
    var t := trees[home];
    var (slot, found) := Locate(t, key);
    var sub := Join(found.left, found.right);
    assert TreeOk(t, home, bnum, disk0);
    OutReplants(disk0, disk, t, key);
    var after := OutDisk(disk, slot, found);
    Replant(trees, bnum, disk0, after, key, sub);
    GraftStored(disk0, after, t, key, sub);
    JoinSame(t, key);
    ReplantDict(dict, trees, bnum, key, sub, dict - {key});
  }

  /** The two subtrees of the removed record are still on the file, and the four ways tchdbout
      picks the child agree with Join. */
  lemma Children(disk0: Disk, disk: Disk, file: File, trees: seq<Tree>, bnum: nat, key: Bytes)
    requires bnum > 0 && ForestOk(trees, bnum, disk0) && OnFile(file, disk, 0) && 0 !in disk
    requires var found := Locate(trees[BucketIndex(key, bnum)], key).1;
      found.Node? && Cleared(disk0, disk, found, found.off)
    ensures var found := Locate(trees[BucketIndex(key, bnum)], key).1; var l, r := found.left, found.right;
      && Stored(disk0, l) && (l.Node? <==> Root(l) > 0) && (r.Node? <==> Root(r) > 0)
      && (forall o :: o in Offs(l) && o in disk0 ==> o in file && file[o] == disk0[o])
      && Root(Join(l, r)) == if l.Node? then Root(l) else Root(r)
  {
    hide BucketIndex, Locate, NoOrphans, Ordered;
    var home := BucketIndex(key, bnum);
    var t := trees[home];
    var found := Locate(t, key).1;
    assert TreeOk(t, home, bnum, disk0);
    LocateSlot(disk0, t, key);
    PartsDiffer(disk0, found);
    forall o | o in Offs(found.left) && o in disk0
      ensures o in file && file[o] == disk0[o]
    {
      Survivor(disk0, disk, t, key, found.off, o);
    }
  }

  /** A second link is still there after a first one is overwritten. */
  lemma LinkIsThere(disk: Disk, first: Slot, child: nat, second: Slot)
    requires !first.Here? && first.off in disk
    requires !second.Here? ==> second.off in disk && disk[second.off].Rec?
    ensures !second.Here? ==> second.off in SetLink(disk, first, child) && SetLink(disk, first, child)[second.off].Rec?
  {
  }

  lemma SameLinks(disk: Disk)
    ensures LinksOnly(disk, disk)
  {
  }

  lemma OneLess(dict: map<Bytes, Bytes>, key: Bytes)
    requires key in dict
    ensures |dict - {key}| == |dict| - 1
  {
    assert dict.Keys == (dict - {key}).Keys + {key};
  }

  lemma UnrollKeys(disk: Disk, frec: nat, fsiz: nat, p: nat)
    requires Tiling(disk, frec, fsiz) && p in disk
    ensures var q := p + Size(disk[p]);
      && p < q <= fsiz && (q in disk || q == fsiz)
      && KeysFrom(disk, frec, fsiz, p) == (if disk[p].Rec? then [disk[p].key] else []) + KeysFrom(disk, frec, fsiz, q)
  {
    hide Tiling, Size;
    NextTile(disk, frec, fsiz, p);
  }

  /** The tiles of the record region, stale ones included. */
  function FromRecords(file: File, frec: nat): File { map o | o in file && o >= frec :: file[o] }

  /** The saved pool is written in front of the record region and touches no tile there. */
  lemma SaveImage(image: Bytes, file: File, disk: Disk, frec: nat, fsiz: nat, place: nat, bytes: Bytes)
    requires Imaged(image, file) && OnFile(file, disk, 0) && Tiling(disk, frec, fsiz)
    requires |image| == fsiz && place + |bytes| <= frec
    ensures place <= |image| && |Splice(image, place, bytes)| == fsiz
    ensures Imaged(Splice(image, place, bytes), FromRecords(file, frec)) && OnFile(FromRecords(file, frec), disk, 0)
  {
    hide Shows, Tiling, Splice;
    FrecPositive(disk, frec, fsiz);
    NoZero(disk, frec, fsiz);
    forall o | o in file && o >= frec
      ensures Shows(Splice(image, place, bytes), o, file[o])
    {
      SpliceShows(image, place, bytes, o, file[o]);
    }
    forall o | o in disk
      ensures o in FromRecords(file, frec) && FromRecords(file, frec)[o] == disk[o]
    {
      AfterFrec(disk, frec, fsiz, o);
    }
    SpliceLength(image, place, bytes);
  }

  lemma SavedInPlace(image: Bytes, place: nat, bytes: Bytes, room: nat)
    requires place + room <= |image| && |bytes| <= room
    ensures |Splice(image, place, bytes)| == |image|
    ensures bytes <= Splice(image, place, bytes)[place..place + room]
  {
    var after := Splice(image, place, bytes);
    assert after[place..place + |bytes|] == bytes;
    assert after[place..place + room][..|bytes|] == after[place..place + |bytes|];
  }

  lemma SpliceLength(image: Bytes, place: nat, bytes: Bytes)
    requires place + |bytes| <= |image|
    ensures |Splice(image, place, bytes)| == |image|
  {
  }

  lemma AfterFrec(disk: Disk, frec: nat, fsiz: nat, o: nat)
    requires Tiling(disk, frec, fsiz) && o in disk
    ensures frec <= o
  {
    assert o in Sizes(disk);
  }
}
