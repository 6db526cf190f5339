/** What each step of the allocator does to the tiling, the pool and the file
    (lib/libdict/tchdb.c:1331-1375, 1484-1519, 1564-1610). */
module Allocator {
  import opened Tiles
  import opened Layout
  import opened FreePool
  import opened KeyOrder
  import opened RecordCodec

  // ---------- writing to the file ----------

  /** The bytes a write of t touches: all of a record, the magic and size of a free block. */
  function Extent(t: Tile): nat { if t.Rec? then Size(t) else 5 }

  /** The file after t is written at off. Whatever the write overlaps is gone. */
  function WriteTile(file: File, off: nat, t: Tile): File {
    (map o | o in file && (o + Extent(file[o]) <= off || off + Extent(t) <= o) :: file[o])[off := t]
  }

  /** The file holds every tile except the pending one; it may hold stale ones besides. */
  ghost predicate OnFile(file: File, disk: Disk, pend: nat) {
    forall o :: o in disk && o != pend ==> o in file && file[o] == disk[o]
  }

  lemma ExtentFits(disk: Disk, frec: nat, fsiz: nat, o: nat)
    requires Tiling(disk, frec, fsiz) && o in disk
    ensures Extent(disk[o]) <= Size(disk[o])
  {
    hide AllChained, Disjoint;
    var layout := Sizes(disk);
    assert AlignedTile(layout, o) && layout[o] == Size(disk[o]);
  }

  /** Writing one tile of the tiling destroys no other. */
  lemma WriteOnFile(file: File, disk: Disk, frec: nat, fsiz: nat, pend: nat, o: nat)
    requires Tiling(disk, frec, fsiz) && o in disk
    requires forall p :: p in disk && p != pend && p != o ==> p in file && file[p] == disk[p]
    ensures OnFile(WriteTile(file, o, disk[o]), disk, if o == pend then 0 else pend)
  {
    hide Tiling, Size, Extent;
    ExtentFits(disk, frec, fsiz, o);
    NoZero(disk, frec, fsiz);
    forall p | p in disk && p != o && p != pend
      ensures p in WriteTile(file, o, disk[o]) && WriteTile(file, o, disk[o])[p] == disk[p]
    {
      ExtentFits(disk, frec, fsiz, p);
      TilesApart(disk, frec, fsiz, o, p);
    }
  }

  lemma TilesApart(disk: Disk, frec: nat, fsiz: nat, o: nat, p: nat)
    requires Tiling(disk, frec, fsiz) && o in disk && p in disk && o != p
    ensures o + Size(disk[o]) <= p || p + Size(disk[p]) <= o
  {
    hide AllChained, AllAligned, Inside, Size;
    var layout := Sizes(disk);
    assert o in layout && p in layout && layout[o] == Size(disk[o]) && layout[p] == Size(disk[p]);
  }

  /** The bytes of the file show every tile it is said to hold. */
  ghost predicate Imaged(image: Bytes, file: File) {
    forall o :: o in file ==> Shows(image, o, file[o])
  }

  /** Writing the bytes of a tile is writing the tile. */
  lemma ImageWrite(image: Bytes, file: File, off: nat, t: Tile)
    requires Imaged(image, file) && off <= |image| && WellFormed(t)
    ensures Imaged(Splice(image, off, EncodeTile(t)), WriteTile(file, off, t))
    ensures |EncodeTile(t)| == Extent(t)
  {
    hide Shows, EncodeTile, WellFormed, Size, Splice;
    var after := Splice(image, off, EncodeTile(t));
    EncodedSize(t);
    SpliceShowsItself(image, off, t);
    forall o | o in file && (o + Extent(file[o]) <= off || off + Extent(t) <= o)
      ensures Shows(after, o, file[o])
    {
      EncodedSize(file[o]);
      SpliceShows(image, off, EncodeTile(t), o, file[o]);
    }
  }

  /** Every tile lies inside the region at an aligned offset, so it can be linked to. */
  lemma TileInside(disk: Disk, frec: nat, fsiz: nat, o: nat)
    requires Tiling(disk, frec, fsiz) && o in disk && fsiz <= FILE_LIMIT
    ensures o + Size(disk[o]) <= fsiz && LinkOk(o) && Size(disk[o]) >= ALIGN
  {
    hide AllChained, Disjoint, Size;
    var layout := Sizes(disk);
    assert AlignedTile(layout, o) && layout[o] == Size(disk[o]);
  }

  // ---------- handing out ----------

  predicate FreeAt(disk: Disk, o: nat, n: nat) { o in disk && disk[o] == Free(n) }

  lemma RunAligned(disk: Disk, frec: nat, fsiz: nat, pend: nat, b: Block)
    requires Tiling(disk, frec, fsiz) && IsRun(disk, fsiz, pend, b)
    ensures Aligned(b.off) && Aligned(b.rsiz) && EndOf(b) <= fsiz && 0 < b.off
  {
    hide AllChained, Disjoint, Size;
    var layout := Sizes(disk);
    assert b.off in layout && (EndOf(b) in layout || EndOf(b) == fsiz);
    var end := EndOf(b);
    assert AlignedTile(layout, b.off) && AlignedTile(layout, end);
    SubAligned(b.off, end);
  }

  lemma SubAligned(a: nat, b: nat)
    requires Aligned(a) && Aligned(b) && a <= b
    ensures Aligned(b - a)
  {
  }

  /** Taking an entry out of the pool and handing out its first n bytes. */
  lemma Claim(pool: multiset<Block>, disk: Disk, frec: nat, fsiz: nat, b: Block, n: nat)
    requires Tiling(disk, frec, fsiz) && PoolOk(pool, disk, fsiz, 0) && b in pool
    requires 0 < n <= b.rsiz && Aligned(n)
    ensures var after := CarveDisk(disk, b.off, EndOf(b), n);
      && Tiling(after, frec, fsiz) && PoolOk(pool - multiset{b}, after, fsiz, b.off)
      && SameRecs(disk, after, 0) && b.off > 0 && FreeAt(after, b.off, n)
  {
    hide Tiling, PoolOk, SameRecs;
    ClaimedIsApart(pool, disk, fsiz, b);
    RunAligned(disk, frec, fsiz, 0, b);
    NoZero(disk, frec, fsiz);
    CarveTiling(disk, frec, fsiz, b, 0, n);
    CarveRecs(disk, fsiz, b, 0, n);
    PoolShrinks(pool, pool - multiset{b}, disk, fsiz, 0);
    CarvePool(pool - multiset{b}, disk, fsiz, 0, b, 0, n);
  }

  lemma ClaimedIsApart(pool: multiset<Block>, disk: Disk, fsiz: nat, b: Block)
    requires PoolOk(pool, disk, fsiz, 0) && b in pool
    ensures IsRun(disk, fsiz, 0, b) && forall c :: c in pool - multiset{b} ==> Apart(b, c)
  {
  }

  /** The rest of a divided entry is an entry again. */
  lemma ClaimPart(pool: multiset<Block>, disk: Disk, frec: nat, fsiz: nat, b: Block, n: nat)
    requires Tiling(disk, frec, fsiz) && PoolOk(pool, disk, fsiz, 0) && b in pool
    requires 0 < n < b.rsiz && Aligned(n)
    ensures var after := CarveDisk(disk, b.off, EndOf(b), n); var rest := Block(b.off + n, b.rsiz - n);
      PoolOk(pool - multiset{b} + multiset{rest}, after, fsiz, b.off) && FreeAt(after, rest.off, rest.rsiz)
  {
    hide PoolOk, IsRun;
    var after, rest := CarveDisk(disk, b.off, EndOf(b), n), Block(b.off + n, b.rsiz - n);
    Claim(pool, disk, frec, fsiz, b, n);
    ClaimedIsApart(pool, disk, fsiz, b);
    TileIsRun(after, frec, fsiz, b.off, rest.off);
    PoolGrows(pool - multiset{b}, rest, after, fsiz, b.off);
  }

  /** A pending tile swallows the entry right behind it. */
  lemma ClaimNext(pool: multiset<Block>, disk: Disk, frec: nat, fsiz: nat, off: nat, b: Block)
    requires Tiling(disk, frec, fsiz) && PoolOk(pool, disk, fsiz, off) && b in pool
    requires off in disk && disk[off].Free? && off + disk[off].rsiz == b.off
    ensures var n := disk[off].rsiz + b.rsiz; var after := CarveDisk(disk, off, off + n, n);
      && Tiling(after, frec, fsiz) && PoolOk(pool - multiset{b}, after, fsiz, off)
      && SameRecs(disk, after, 0) && FreeAt(after, off, n)
  {
    hide Tiling, PoolOk, SameRecs;
    var n := disk[off].rsiz + b.rsiz;
    var whole := Block(off, n);
    PendingWithNext(pool, disk, frec, fsiz, off, b);
    NoZero(disk, frec, fsiz);
    CarveTiling(disk, frec, fsiz, whole, 0, n);
    CarveRecs(disk, fsiz, whole, 0, n);
    PoolShrinks(pool, pool - multiset{b}, disk, fsiz, off);
    CarvePool(pool - multiset{b}, disk, fsiz, off, whole, 0, n);
  }

  lemma PendingWithNext(pool: multiset<Block>, disk: Disk, frec: nat, fsiz: nat, off: nat, b: Block)
    requires Tiling(disk, frec, fsiz) && PoolOk(pool, disk, fsiz, off) && b in pool
    requires off in disk && disk[off].Free? && off + disk[off].rsiz == b.off
    ensures var whole := Block(off, disk[off].rsiz + b.rsiz);
      && Carvable(disk, fsiz, whole, 0) && Aligned(whole.rsiz)
      && forall c :: c in pool - multiset{b} ==> Apart(whole, c)
  {
    hide Tiling, Size;
    FreeSize(disk[off]);
    assert IsRun(disk, fsiz, off, b);
    OutsideRuns(pool, disk, frec, fsiz, off, off);
    WholeIsCarvable(disk, frec, fsiz, off, b);
    forall c | c in pool - multiset{b}
      ensures Apart(Block(off, disk[off].rsiz + b.rsiz), c)
    {
      assert c in pool && c != b;
      assert IsRun(disk, fsiz, off, c);
    }
  }

  lemma WholeIsCarvable(disk: Disk, frec: nat, fsiz: nat, off: nat, b: Block)
    requires Tiling(disk, frec, fsiz) && IsRun(disk, fsiz, off, b)
    requires off in disk && disk[off].Free? && off + disk[off].rsiz == b.off
    ensures Carvable(disk, fsiz, Block(off, disk[off].rsiz + b.rsiz), 0) && Aligned(disk[off].rsiz + b.rsiz)
  {
    hide Tiling, Size;
    FreeSize(disk[off]);
    RunAligned(disk, frec, fsiz, off, b);
    TileAligned(disk, frec, fsiz, off);
    forall o | o in disk && off <= o < EndOf(b)
      ensures disk[o].Free?
    {
      if o != off { TilesApart(disk, frec, fsiz, off, o); }
    }
  }

  lemma TileAligned(disk: Disk, frec: nat, fsiz: nat, o: nat)
    requires Tiling(disk, frec, fsiz) && o in disk
    ensures Aligned(o) && Aligned(Size(disk[o]))
  {
    hide AllChained, Disjoint, Size;
    assert AlignedTile(Sizes(disk), o);
  }

  lemma FreeSize(t: Tile)
    requires t.Free?
    ensures Size(t) == t.rsiz
  {
  }

  /** Cutting a pending tile down to n bytes: what is cut off is free and overlaps no entry. */
  lemma Trim(pool: multiset<Block>, disk: Disk, frec: nat, fsiz: nat, off: nat, n: nat)
    requires Tiling(disk, frec, fsiz) && PoolOk(pool, disk, fsiz, off)
    requires off in disk && disk[off].Free? && 0 < n < disk[off].rsiz && Aligned(n)
    ensures var r := disk[off].rsiz; var after := CarveDisk(disk, off, off + r, n); var rest := Block(off + n, r - n);
      && Tiling(after, frec, fsiz) && PoolOk(pool, after, fsiz, off) && SameRecs(disk, after, 0)
      && FreeAt(after, off, n) && FreeAt(after, rest.off, rest.rsiz)
      && IsRun(after, fsiz, off, rest) && forall c :: c in pool ==> Apart(rest, c)
  {
    hide Tiling, PoolOk, SameRecs, IsRun;
    var r := disk[off].rsiz;
    var whole := Block(off, r);
    PendingIsApart(pool, disk, frec, fsiz, off);
    NoZero(disk, frec, fsiz);
    CarveTiling(disk, frec, fsiz, whole, 0, n);
    CarveRecs(disk, fsiz, whole, 0, n);
    CarvePool(pool, disk, fsiz, off, whole, 0, n);
    TileIsRun(CarveDisk(disk, off, off + r, n), frec, fsiz, off, off + n);
  }

  lemma PendingIsApart(pool: multiset<Block>, disk: Disk, frec: nat, fsiz: nat, off: nat)
    requires Tiling(disk, frec, fsiz) && PoolOk(pool, disk, fsiz, off) && off in disk && disk[off].Free?
    ensures Carvable(disk, fsiz, Block(off, disk[off].rsiz), 0)
    ensures forall c :: c in pool ==> Apart(Block(off, disk[off].rsiz), c)
  {
    OutsideRuns(pool, disk, frec, fsiz, off, off);
    TileIsRun(disk, frec, fsiz, 0, off) by { NoZero(disk, frec, fsiz); }
  }

  /** A record appended at the end of the region. */
  lemma Append(pool: multiset<Block>, disk: Disk, frec: nat, fsiz: nat, t: Tile)
    requires Tiling(disk, frec, fsiz) && PoolOk(pool, disk, fsiz, 0) && 0 < Size(t) && Aligned(Size(t))
    ensures fsiz !in disk && fsiz > 0
    ensures Tiling(disk[fsiz := t], frec, fsiz + Size(t)) && PoolOk(pool, disk[fsiz := t], fsiz + Size(t), 0)
  {
    hide GoodLayout;
    var after := disk[fsiz := t];
    AppendIsGood(Sizes(disk), frec, fsiz, Size(t));
    assert Sizes(after) == Sizes(disk)[fsiz := Size(t)];
    FrecPositive(disk, frec, fsiz);
    forall b | b in pool
      ensures pool[b] == 1 && IsRun(after, fsiz + Size(t), 0, b)
    {
      RunAligned(disk, frec, fsiz, 0, b);
      assert IsRun(disk, fsiz, 0, b);
    }
  }

  lemma FrecPositive(disk: Disk, frec: nat, fsiz: nat)
    requires Tiling(disk, frec, fsiz)
    ensures 0 < frec <= fsiz && Aligned(frec) && Aligned(fsiz)
  {
  }

  /** The pending tile written as a record of its size. */
  lemma Fill(pool: multiset<Block>, disk: Disk, frec: nat, fsiz: nat, off: nat, t: Tile)
    requires Tiling(disk, frec, fsiz) && PoolOk(pool, disk, fsiz, off)
    requires off in disk && Size(t) == Size(disk[off])
    ensures Tiling(disk[off := t], frec, fsiz) && PoolOk(pool, disk[off := t], fsiz, 0)
  {
    var after := disk[off := t];
    assert Sizes(after) == Sizes(disk);
    NoZero(disk, frec, fsiz);
    forall b | b in pool
      ensures pool[b] == 1 && IsRun(after, fsiz, 0, b)
    {
      assert IsRun(disk, fsiz, off, b);
    }
  }

  lemma SameRecsTrans(a: Disk, b: Disk, c: Disk, x: nat)
    requires SameRecs(a, b, x) && SameRecs(b, c, 0) && 0 !in b
    ensures SameRecs(a, c, x)
  {
  }
}
