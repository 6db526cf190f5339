/** The free block pool against the record region: each entry is a run of free tiles, and no
    two entries overlap (lib/libdict/tchdb.c:1048-1070, 1331-1375, 1564-1610).

    A Disk is the tiling the allocator believes in. One tile, `pend`, may have been handed out
    and not written yet; it stands there as Free but belongs to no entry (0 means none). */
module FreePool {
  import opened Tiles
  import opened Layout

  type Disk = map<nat, Tile>

  function Sizes(disk: Disk): Layout { map o | o in disk :: Size(disk[o]) }

  ghost predicate Tiling(disk: Disk, frec: nat, fsiz: nat) { GoodLayout(Sizes(disk), frec, fsiz) }

  function EndOf(b: Block): nat { b.off + b.rsiz }

  ghost predicate IsRun(disk: Disk, fsiz: nat, pend: nat, b: Block) {
    && b.off in disk && 0 < b.rsiz
    && (EndOf(b) in disk || EndOf(b) == fsiz)
    && forall o :: o in disk && b.off <= o < EndOf(b) ==> o != pend && disk[o].Free?
  }

  predicate Apart(b: Block, c: Block) { EndOf(b) <= c.off || EndOf(c) <= b.off }

  ghost predicate PoolOk(pool: multiset<Block>, disk: Disk, fsiz: nat, pend: nat) {
    && (forall b :: b in pool ==> pool[b] == 1 && IsRun(disk, fsiz, pend, b))
    && (forall b, c :: b in pool && c in pool && b != c ==> Apart(b, c))
  }

  /** The records of two disks are the same, except possibly one at x that is in the first only. */
  ghost predicate SameRecs(before: Disk, after: Disk, x: nat) {
    && (forall o :: o in before && before[o].Rec? && o != x ==> o in after && after[o] == before[o])
    && (forall o :: o in after && after[o].Rec? ==> o != x && o in before && before[o] == after[o])
  }

  // ---------- carving a disk ----------

  /** The tiles from off up to end become a free tile of size n and, if room is left, another. */
  function CarveDisk(disk: Disk, off: nat, end: nat, n: nat): Disk
    requires off < end
  {
    var outside := map o | o in disk && !(off <= o < end) :: disk[o];
    if off + n < end then outside[off := Free(n)][off + n := Free(end - off - n)] else outside[off := Free(end - off)]
  }

  /** Everything from b.off to the end of b may be carved: its tiles are whole and free, or the
      one record x that is being replaced. */
  ghost predicate Carvable(disk: Disk, fsiz: nat, b: Block, x: nat) {
    && b.off in disk && 0 < b.rsiz
    && (EndOf(b) in disk || EndOf(b) == fsiz)
    && forall o :: o in disk && b.off <= o < EndOf(b) ==> disk[o].Free? || o == x
  }

  lemma CarveTiling(disk: Disk, frec: nat, fsiz: nat, b: Block, x: nat, n: nat)
    requires Tiling(disk, frec, fsiz) && Carvable(disk, fsiz, b, x) && 0 < n && Aligned(n)
    ensures Tiling(CarveDisk(disk, b.off, EndOf(b), n), frec, fsiz)
  {
    hide GoodLayout;
    CarveIsGood(Sizes(disk), frec, fsiz, b.off, EndOf(b), n);
    assert Sizes(CarveDisk(disk, b.off, EndOf(b), n)) == Carve(Sizes(disk), b.off, EndOf(b), n);
  }

  lemma CarveRecs(disk: Disk, fsiz: nat, b: Block, x: nat, n: nat)
    requires Carvable(disk, fsiz, b, x) && (x in disk && disk[x].Rec? ==> b.off <= x < EndOf(b))
    ensures SameRecs(disk, CarveDisk(disk, b.off, EndOf(b), n), x)
  {
  }

  /** Carving leaves every run outside it a run. */
  lemma CarveKeepsRun(disk: Disk, fsiz: nat, pend: nat, b: Block, x: nat, n: nat, c: Block)
    requires Carvable(disk, fsiz, b, x) && IsRun(disk, fsiz, pend, c) && Apart(b, c) && 0 < n
    ensures IsRun(CarveDisk(disk, b.off, EndOf(b), n), fsiz, b.off, c)
  {
  }

  lemma CarvePool(pool: multiset<Block>, disk: Disk, fsiz: nat, pend: nat, b: Block, x: nat, n: nat)
    requires PoolOk(pool, disk, fsiz, pend) && Carvable(disk, fsiz, b, x) && 0 < n
    requires forall c :: c in pool ==> Apart(b, c)
    ensures PoolOk(pool, CarveDisk(disk, b.off, EndOf(b), n), fsiz, b.off)
  {
    forall c | c in pool
      ensures pool[c] == 1 && IsRun(CarveDisk(disk, b.off, EndOf(b), n), fsiz, b.off, c)
    {
      CarveKeepsRun(disk, fsiz, pend, b, x, n, c);
    }
  }

  /** Offset 0, which stands for "no link" and "nothing pending", is never a tile. */
  lemma NoZero(disk: Disk, frec: nat, fsiz: nat)
    requires Tiling(disk, frec, fsiz)
    ensures 0 !in disk
  {
    assert Sizes(disk).Keys == disk.Keys;
  }

  // ---------- changing the pool ----------

  lemma PoolShrinks(pool: multiset<Block>, less: multiset<Block>, disk: Disk, fsiz: nat, pend: nat)
    requires PoolOk(pool, disk, fsiz, pend) && less <= pool
    ensures PoolOk(less, disk, fsiz, pend)
  {
    forall b | b in less
      ensures less[b] == 1 && IsRun(disk, fsiz, pend, b)
    {
      assert b in pool && less[b] <= pool[b];
    }
  }

  lemma PoolGrows(pool: multiset<Block>, b: Block, disk: Disk, fsiz: nat, pend: nat)
    requires PoolOk(pool, disk, fsiz, pend) && IsRun(disk, fsiz, pend, b)
    requires forall c :: c in pool ==> Apart(b, c)
    ensures PoolOk(pool + multiset{b}, disk, fsiz, pend)
  {
    assert b !in pool;
  }

  /** A tile no entry may contain overlaps none. */
  lemma OutsideRuns(pool: multiset<Block>, disk: Disk, frec: nat, fsiz: nat, pend: nat, o: nat)
    requires Tiling(disk, frec, fsiz) && PoolOk(pool, disk, fsiz, pend)
    requires o in disk && (o == pend || disk[o].Rec?)
    ensures forall c :: c in pool ==> Apart(Block(o, Size(disk[o])), c)
  {
    hide Size, AllChained, AllAligned;
    var layout := Sizes(disk);
    forall c | c in pool
      ensures Apart(Block(o, Size(disk[o])), c)
    {
      assert IsRun(disk, fsiz, pend, c);
      assert layout[o] == Size(disk[o]) && c.off in layout;
    }
  }

  /** A tile of its own is a run. */
  lemma TileIsRun(disk: Disk, frec: nat, fsiz: nat, pend: nat, o: nat)
    requires Tiling(disk, frec, fsiz) && o in disk && o != pend && disk[o].Free?
    ensures IsRun(disk, fsiz, pend, Block(o, disk[o].rsiz))
  {
    hide AllAligned;
    var layout := Sizes(disk);
    assert Chained(layout, fsiz, o);
    assert layout[o] == disk[o].rsiz;
    forall p | p in disk && o <= p < o + layout[o]
      ensures p != pend && disk[p].Free?
    {
      assert p in layout;
    }
  }

  /** Giving a tile, pending or a record, back: written as free, it becomes an entry. */
  lemma FreeTile(pool: multiset<Block>, disk: Disk, frec: nat, fsiz: nat, pend: nat, o: nat)
    requires Tiling(disk, frec, fsiz) && PoolOk(pool, disk, fsiz, pend)
    requires o in disk && o > 0 && (o == pend || (pend == 0 && disk[o].Rec?))
    ensures var after := disk[o := Free(Size(disk[o]))];
      && Tiling(after, frec, fsiz) && PoolOk(pool, after, fsiz, 0)
      && IsRun(after, fsiz, 0, Block(o, Size(disk[o])))
      && forall c :: c in pool ==> Apart(Block(o, Size(disk[o])), c)
  {
    var n := Size(disk[o]);
    var after := disk[o := Free(n)];
    assert Sizes(after) == Sizes(disk);
    NoZero(disk, frec, fsiz);
    OutsideRuns(pool, disk, frec, fsiz, pend, o);
    TileIsRun(after, frec, fsiz, 0, o);
    forall c | c in pool
      ensures pool[c] == 1 && IsRun(after, fsiz, 0, c)
    {
      assert IsRun(disk, fsiz, pend, c);
    }
  }
}
