/** The open database: tchdbget, tchdbout, tchdbput and the allocator underneath
    (lib/libdict/tchdb.c). The fields are those of TCHDB; file I/O always succeeds. */
module HashDb {
  import opened Options
  import opened KeyOrder
  import opened Tiles
  import opened Layout
  import opened FreePool
  import opened Allocator
  import opened BucketTree
  import opened Forest
  import opened Iteration
  import opened RecordCodec
  import opened Placement
  import opened PoolSteps
  import opened StoreSteps
  import opened Leading
  import opened PutSteps
  import opened Scanning
  import PoolSort
  import PoolMerge
  import PoolCodec

  const MERGE_FREQUENCY: int := 256 // HDBFBPMGFREQ

  const HEAD_SIZE: nat := 128 // HDBHEADSIZ

  function Pow2(n: nat): (p: nat)
    ensures p >= 1 && (n >= 1 ==> p >= 2)
  {
    if n == 0 then 1 else 2 * Pow2(n - 1)
  }

  /** The room reserved for the saved pool: HDBFBPBSIZ plus HDBFBPESIZ for each entry. */
  function PoolBytes(fpow: nat): nat { 64 + 4 * Pow2(fpow) }

  /** What tchdbwriterec is asked to write (TCHREC without its place). */
  datatype Content = Content(hash: Byte, left: nat, right: nat, key: Bytes, value: Bytes) {
    /** The record of a key whose search ended at `found`. */
    predicate Of(found: Tree) {
      && hash == RecHash(key) && left == Root(LeftPart(found)) && right == Root(RightPart(found))
      && LinkOk(left) && LinkOk(right)
    }
  }

  /** What a record can at most add to the file. */
  function Cost(key: Bytes, value: Bytes): nat { MAX_HEADER + |key| + |value| + ALIGN }

  class HashDb {
    const bnum: nat
    const fpow: nat
    const frec: nat
    const buckets: array<nat>
    const pool: array<Block>
    var image: Bytes                    // the bytes of the file
    var fsiz: nat
    var rnum: nat
    var iter: nat
    var fbpnum: nat
    var fbpmis: int

    ghost var file: File                // the tiles those bytes show, stale ones included
    ghost var disk: Disk                // the tiling of the record region
    ghost var trees: seq<Tree>          // the tree of each bucket
    ghost var dict: map<Bytes, Bytes>   // what the database stands for

    /** tchdbopen on an empty file: the header, the bucket array and the room for the saved pool,
        padded, come before the record region. */
    constructor (bnum: nat, fpow: nat)
      requires bnum > 0
      requires HEAD_SIZE + 4 * bnum + PoolBytes(fpow) + ALIGN <= FILE_LIMIT
      ensures Valid() && dict == map[] && fresh(buckets) && fresh(pool)
      ensures this.bnum == bnum && this.fpow == fpow && iter == 0 && fbpnum == 0
      ensures fsiz == frec
      ensures HEAD_SIZE + 4 * bnum + PoolBytes(fpow) <= frec < HEAD_SIZE + 4 * bnum + PoolBytes(fpow) + ALIGN
      ensures 192 + 4 * bnum + 4 * pool.Length <= frec < 208 + 4 * bnum + 4 * pool.Length && frec % 16 == 0
    {
      var size := HEAD_SIZE + 4 * bnum + PoolBytes(fpow);
      this.bnum, this.fpow, frec, fsiz := bnum, fpow, size + PadSize(size), size + PadSize(size);
      buckets := new nat[bnum](_ => 0);
      pool := new Block[Pow2(fpow)](_ => Block(0, 0));
      image, rnum, iter, fbpnum, fbpmis := Zeros(size + PadSize(size)), 0, 0, 0, 0;
      file, disk, trees, dict := map[], map[], seq(bnum, _ => Leaf), map[];
      new;
      assert pool[..fbpnum] == [];
    }

    /** Where the saved pool stands: behind the header and the bucket array (msiz). */
    function PoolPlace(): nat { HEAD_SIZE + 4 * bnum }

    ghost function Entries(): multiset<Block>
      reads this`fbpnum, pool
      requires fbpnum <= pool.Length
    {
      multiset(pool[..fbpnum])
    }

    /** Tiling, pool and file agree; `pend` is handed out and not written yet (0: none). */
    ghost predicate AllocOk(pend: nat)
      reads this, pool
    {
      && pool.Length == Pow2(fpow) && fbpnum <= pool.Length
      && PoolPlace() + PoolBytes(fpow) <= frec
      && fsiz <= FILE_LIMIT
      && Tiling(disk, frec, fsiz)
      && PoolOk(Entries(), disk, fsiz, pend)
      && OnFile(file, disk, pend)
      && Imaged(image, file) && |image| == fsiz
      && (pend != 0 ==> pend in disk && disk[pend].Free?)
    }

    /** What readers depend on. */
    ghost function Now(): Shot
      reads this
    {
      Shot(file, disk, fsiz)
    }

    // ---------- the file ----------

    /** tchdbreadrec */
    method ReadTile(off: nat) returns (t: Tile)
      requires Imaged(image, file) && off in file
      ensures t == file[off] && WellFormed(t)
    {
      hide DecodeTile, EncodeTile;
      assert Shows(image, off, file[off]);
      ReadShown(image, off, file[off]);
      t := DecodeTile(image[off..]).value;
    }

    /** tcseekwrite of the bytes of a tile. */
    method WriteAt(off: nat, t: Tile)
      requires Imaged(image, file) && off <= |image| && WellFormed(t)
      modifies this`image, this`file
      ensures file == WriteTile(old(file), off, t) && Imaged(image, file)
      ensures |image| == if off + Extent(t) <= old(|image|) then old(|image|) else off + Extent(t)
    {
      hide Imaged, EncodeTile, WriteTile, WellFormed, Size;
      ImageWrite(image, file, off, t);
      image := Splice(image, off, EncodeTile(t));
      file := WriteTile(file, off, t);
    }

    /** tcseekwrite of one child link: four bytes in the header of the record at slot.off. */
    method WriteLink(slot: Slot, child: nat)
      requires Imaged(image, file) && LinkOk(child)
      requires !slot.Here? && slot.off in file && file[slot.off].Rec?
      modifies this`image, this`file
      ensures file == WriteTile(old(file), slot.off, Linked(old(file[slot.off]), slot.off, slot, child))
      ensures Imaged(image, file) && |image| == old(|image|)
    {
      hide Imaged, EncodeTile, WriteTile, ToLE, Size;
      var o := slot.off;
      ghost var t := file[o];
      ghost var linked := Linked(t, o, slot, child);
      ShownTile(image, file, o);
      ImageWrite(image, file, o, linked);
      if slot.LeftOf? {
        LeftLinkBytes(image, o, t, child);
        image := Splice(image, o + 2, ToLE(child / ALIGN, 4));
      } else {
        RightLinkBytes(image, o, t, child);
        image := Splice(image, o + 6, ToLE(child / ALIGN, 4));
      }
      file := WriteTile(file, o, linked);
    }

    // ---------- the pool ----------

    lemma EntriesPositive(pend: nat, i: nat)
      requires AllocOk(pend) && i < fbpnum
      ensures pool[i].off > 0
    {
      hide Tiling, OnFile, Imaged;
      assert pool[..fbpnum][i] in Entries();
      assert IsRun(disk, fsiz, pend, pool[i]);
      NoZero(disk, frec, fsiz);
    }

    /** tchdbfbpmerge. `sorted` is the pool as the pass reads it. */
    method FbpMerge(ghost pend: nat) returns (ghost sorted: seq<Block>)
      requires AllocOk(pend) && fbpnum >= 1
      modifies this`fbpnum, this`fbpmis, pool
      ensures AllocOk(pend)
      ensures multiset(sorted) == old(Entries()) && PoolSort.Sorted(PoolSort.ByOff, sorted)
      ensures fbpnum <= old(fbpnum) && pool[..fbpnum] == PoolMerge.MergePairs(sorted)
      ensures fbpmis == if fbpnum < old(fbpnum) then 0 else fbpnum * -2
    {
      hide Tiling, PoolOk, OnFile, Imaged, PoolSort.Sorted, PoolMerge.MergePairs;
      var onum := fbpnum;
      PoolSort.Sort(pool, PoolSort.ByOff, fbpnum);
      sorted := pool[..fbpnum];
      forall i | 0 <= i < fbpnum
        ensures pool[i].off > 0
      {
        EntriesPositive(pend, i);
      }
      PoolMerge.MergeKeepsPool(sorted, disk, fsiz, pend);
      fbpnum := PoolMerge.MergeSorted(pool, fbpnum);
      fbpmis := if fbpnum < onum then 0 else fbpnum * -2;
    }

    /** tchdbfbpmerge and then tcfbpsortbyrsiz, as searching and inserting do it. */
    method MergeAndSort(ghost pend: nat) returns (ghost sorted: seq<Block>)
      requires AllocOk(pend) && fbpnum >= 1
      modifies this`fbpnum, this`fbpmis, pool
      ensures AllocOk(pend)
      ensures multiset(sorted) == old(Entries()) && PoolSort.Sorted(PoolSort.ByOff, sorted)
      ensures Entries() == multiset(PoolMerge.MergePairs(sorted)) && PoolSort.Sorted(PoolSort.BySize, pool[..fbpnum])
    {
      hide Tiling, PoolOk, OnFile, Imaged, PoolSort.Sorted, PoolMerge.MergePairs, Pow2, PoolBytes;
      sorted := FbpMerge(pend);
      SortBySize(pend);
    }

    /** The sort by size keeps the pool. */
    method SortBySize(ghost pend: nat)
      requires AllocOk(pend)
      modifies pool
      ensures AllocOk(pend)
      ensures Entries() == old(Entries()) && PoolSort.Sorted(PoolSort.BySize, pool[..fbpnum])
    {
      hide Tiling, PoolOk, OnFile, Imaged, PoolSort.Sorted;
      PoolSort.Sort(pool, PoolSort.BySize, fbpnum);
    }

    /** The full-pool branch of tchdbfbpinsert: merge, sort by size and, if the pool is still full,
        drop the `dropped` smallest entries. */
    method MakeRoom(ghost pend: nat) returns (ghost sorted: seq<Block>, ghost bySize: seq<Block>, dropped: nat)
      requires AllocOk(pend) && fpow >= 1 && fbpnum >= pool.Length
      modifies this`fbpnum, this`fbpmis, pool
      ensures AllocOk(pend) && fbpnum < pool.Length && fbpmis == 0
      ensures multiset(sorted) == old(Entries()) && PoolSort.Sorted(PoolSort.ByOff, sorted)
      ensures multiset(bySize) == multiset(PoolMerge.MergePairs(sorted)) && PoolSort.Sorted(PoolSort.BySize, bySize)
      ensures dropped <= |bySize| && pool[..fbpnum] == bySize[dropped..]
      ensures dropped == if |bySize| >= pool.Length then pool.Length / 4 + 1 else 0
    {
      hide Tiling, PoolOk, OnFile, Imaged, PoolSort.Sorted, PoolMerge.MergePairs, Pow2, PoolBytes;
      sorted := MergeAndSort(pend);
      bySize := pool[..fbpnum];
      dropped := Shed(pend);
      fbpmis := 0;
    }

    /** A pool still full after merging loses a quarter of its room, and one more, in front. */
    method Shed(ghost pend: nat) returns (dropped: nat)
      requires AllocOk(pend) && fpow >= 1
      modifies this`fbpnum, pool
      ensures AllocOk(pend) && fbpnum < pool.Length
      ensures dropped == if old(fbpnum) >= pool.Length then pool.Length / 4 + 1 else 0
      ensures dropped <= old(fbpnum) && pool[..fbpnum] == old(pool[..fbpnum])[dropped..]
    {
      hide Tiling, PoolOk, OnFile, Imaged;
      dropped := 0;
      if fbpnum >= pool.Length {
        dropped := pool.Length / 4 + 1;
        DropFirst(dropped, pend);
      }
    }

    /** memmove over the first n entries. */
    method DropFirst(n: nat, ghost pend: nat)
      requires AllocOk(pend) && n <= fbpnum
      modifies this`fbpnum, pool
      ensures AllocOk(pend)
      ensures fbpnum == old(fbpnum) - n && pool[..fbpnum] == old(pool[n..fbpnum])
    {
      hide Tiling, PoolOk, OnFile, Imaged;
      ghost var s := pool[..fbpnum];
      DropSome(s, n);
      PoolShrinks(multiset(s), multiset(s[n..]), disk, fsiz, pend);
      MoveDown(pool, n, fbpnum);
      fbpnum := fbpnum - n;
      assert pool[..fbpnum] == s[n..];
    }

    /** tchdbfbpinsert. The pool stays within its bound, and what is dropped is never larger than
        what is kept. */
    method FbpInsert(off: nat, rsiz: nat, ghost pend: nat)
      requires AllocOk(pend) && IsRun(disk, fsiz, pend, Block(off, rsiz))
      requires forall c :: c in Entries() ==> Apart(Block(off, rsiz), c)
      modifies this`fbpnum, this`fbpmis, pool
      ensures AllocOk(pend)
      ensures Inserted(old(pool[..fbpnum]), pool.Length, fpow, Block(off, rsiz), pool[..fbpnum])
    {
      hide Tiling, PoolOk, OnFile, Imaged, IsRun, Apart, PoolSort.Sorted, PoolMerge.MergePairs, Inserted, Pow2,
        PoolBytes;
      ghost var b, before := Block(off, rsiz), pool[..fbpnum];
      NotEmpty(Entries(), b, disk, fsiz, pend);
      if fpow < 1 {
        NotInserted(before, pool.Length, b);
        return;
      }
      ghost var sorted, kept := [], before;
      if fbpnum >= pool.Length {
        ghost var bySize;
        var dropped;
        sorted, bySize, dropped := MakeRoom(pend);
        kept := pool[..fbpnum];
        RoomStaysApart(sorted, bySize, dropped, b);
        InsertedFull(before, pool.Length, fpow, b, sorted, bySize, kept);
      } else {
        InsertedSimply(before, pool.Length, fpow, b);
      }
      AddEntry(off, rsiz, pend);
      assert pool[..fbpnum] == kept + [b];
    }

    method AddEntry(off: nat, rsiz: nat, ghost pend: nat)
      requires AllocOk(pend) && IsRun(disk, fsiz, pend, Block(off, rsiz)) && fbpnum < pool.Length
      requires forall c :: c in Entries() ==> Apart(Block(off, rsiz), c)
      modifies this`fbpnum, pool
      ensures AllocOk(pend)
      ensures fbpnum == old(fbpnum) + 1 && pool[..fbpnum] == old(pool[..fbpnum]) + [Block(off, rsiz)]
    {
      hide Tiling, PoolOk, OnFile, Imaged, IsRun, Apart;
      ghost var kept := pool[..fbpnum];
      PoolGrows(multiset(kept), Block(off, rsiz), disk, fsiz, pend);
      AppendOne(kept, Block(off, rsiz));
      pool[fbpnum] := Block(off, rsiz);
      fbpnum := fbpnum + 1;
      assert pool[..fbpnum] == kept + [Block(off, rsiz)];
    }

    // ---------- handing out space ----------

    lemma EntriesAre()
      requires fbpnum <= pool.Length
      ensures Entries() == multiset(pool[..fbpnum])
    {
    }

    lemma EntryIn(i: nat)
      requires i < fbpnum <= pool.Length
      ensures pool[i] in Entries()
    {
      assert pool[..fbpnum][i] == pool[i];
    }

    method ReplaceEntry(i: nat, ghost b: Block, c: Block)
      requires i < fbpnum <= pool.Length && b == pool[i]
      modifies pool
      ensures Entries() == old(Entries()) - multiset{b} + multiset{c} && pool[i] == c
    {
      ghost var s := pool[..fbpnum];
      ReplaceAt(s, i, c);
      pool[i] := c;
      assert pool[..fbpnum] == s[i := c];
    }

    /** The last entry takes the place of entry i. */
    method RemoveEntry(i: nat, ghost b: Block)
      requires i < fbpnum <= pool.Length && b == pool[i]
      modifies this`fbpnum, pool
      ensures fbpnum == old(fbpnum) - 1 && Entries() == old(Entries()) - multiset{b}
    {
      ghost var s := pool[..fbpnum];
      RemoveAt(s, i);
      pool[i] := pool[fbpnum - 1];
      fbpnum := fbpnum - 1;
      ghost var t := s[i := s[|s| - 1]][..|s| - 1];
      forall k | 0 <= k < fbpnum
        ensures pool[k] == t[k]
      {
      }
      assert pool[..fbpnum] == t;
    }

    /** The whole of entry i is handed out. */
    method TakeEntry(i: nat, ghost b: Block) returns (off: nat, size: nat)
      requires AllocOk(0) && i < fbpnum && b == pool[i]
      modifies this`disk, this`fbpnum, pool
      ensures off == b.off && size == b.rsiz && size > 0 && off > 0
      ensures AllocOk(off) && FreeAt(disk, off, size) && SameRecs(old(disk), disk, 0)
      ensures Entries() == old(Entries()) - multiset{b} && Keeps(old(Now()), Now(), off, off)
    {
      hide Entries, Tiling, PoolOk, OnFile, Imaged, SameRecs, CarveDisk, IsRun, Aligned, Pow2, PoolBytes, Keeps;
      EntryIn(i);
      ClaimedIsApart(Entries(), disk, fsiz, b);
      RunAligned(disk, frec, fsiz, 0, b);
      NotEmpty(Entries(), b, disk, fsiz, 0);
      NoZero(disk, frec, fsiz);
      Claim(Entries(), disk, frec, fsiz, b, b.rsiz);
      TakeKeeps(Entries(), file, disk, frec, fsiz, b, b.rsiz);
      CarveOnFile(file, disk, 0, b.off, EndOf(b), b.rsiz);
      off, size := pool[i].off, pool[i].rsiz;
      RemoveEntry(i, b);
      disk := CarveDisk(disk, b.off, EndOf(b), b.rsiz);
    }

    /** The front of entry i is handed out; the rest stays an entry and gets a header. */
    method DivideEntry(i: nat, ghost b: Block, rsiz: nat) returns (off: nat, size: nat)
      requires AllocOk(0) && i < fbpnum && b == pool[i] && 15 <= rsiz && 2 * rsiz < b.rsiz
      modifies this`disk, this`image, this`file, pool
      ensures off == b.off && size == rsiz + PadSize(off + rsiz) <= b.rsiz && off > 0
      ensures AllocOk(off) && FreeAt(disk, off, size) && SameRecs(old(disk), disk, 0)
      ensures Entries() == old(Entries()) - multiset{b} + multiset{Block(off + size, b.rsiz - size)}
      ensures Keeps(old(Now()), Now(), off, off + size)
    {
      hide Entries, Tiling, PoolOk, OnFile, Imaged, SameRecs, CarveDisk, WriteTile, Pow2, PoolBytes, PadSize, FreeAt,
        Keeps;
      EntryIn(i);
      var noff := pool[i].off + rsiz + PadSize(pool[i].off + rsiz);
      off, size := pool[i].off, noff - pool[i].off;
      DivideClaims(Entries(), disk, file, frec, fsiz, b, rsiz, size);
      DivideKeeps(Entries(), file, disk, frec, fsiz, b, size);
      ghost var after := CarveDisk(disk, b.off, EndOf(b), size);
      ReplaceEntry(i, b, Block(noff, pool[i].rsiz - size));
      disk := after;
      WriteAt(noff, Free(pool[i].rsiz));
    }

    /** The two ways to use entry i. */
    method Serve(i: nat, rsiz: nat) returns (off: nat, size: nat)
      requires AllocOk(0) && 15 <= rsiz && i < fbpnum && rsiz < pool[i].rsiz
      requires forall j :: 0 <= j < i ==> pool[j].rsiz <= rsiz
      modifies this`disk, this`image, this`file, this`fbpnum, pool
      ensures rsiz <= size <= 2 * rsiz && off > 0 && AllocOk(off) && FreeAt(disk, off, size)
      ensures Served(old(pool[..fbpnum]), i, rsiz, off, size, Entries())
      ensures SameRecs(old(disk), disk, 0) && Keeps(old(Now()), Now(), off, Given(rsiz, off, size))
    {
      hide Entries, Tiling, PoolOk, OnFile, Imaged, SameRecs, Pow2, PoolBytes, FreeAt, Served, Keeps, PadSize;
      ghost var was := Now();
      ghost var before := pool[..fbpnum];
      ghost var b := before[i];
      EntriesAre();
      assert forall j :: 0 <= j < i ==> before[j].rsiz <= rsiz;
      if pool[i].rsiz > 2 * rsiz {
        off, size := DivideEntry(i, b, rsiz);
        ServedFront(before, i, rsiz, size, Entries());
      } else {
        off, size := TakeEntry(i, b);
        ServedWhole(before, i, rsiz, Entries());
        KeepsWider(was, Now(), off, off, off, Given(rsiz, off, size));
      }
    }

    /** tchdbfbpsearch: the first entry larger than rsiz, divided if more than twice as large; else
        the end of the file, reported as size 0. */
    method FbpSearch(rsiz: nat) returns (off: nat, size: nat)
      requires AllocOk(0) && 15 <= rsiz
      modifies this`disk, this`image, this`file, this`fbpnum, this`fbpmis, pool
      ensures size == 0 <==> forall i :: 0 <= i < old(fbpnum) ==> old(pool[i].rsiz) <= rsiz
      ensures size == 0 ==> off == fsiz && AllocOk(0) && disk == old(disk) && file == old(file)
      ensures size > 0 ==> rsiz <= size <= 2 * rsiz && off > 0 && AllocOk(off) && FreeAt(disk, off, size)
      ensures FoundRoom(old(pool[..fbpnum]), rsiz, off, size)
      ensures size > 0 ==>
        Served(old(pool[..fbpnum]), FirstLarger(old(pool[..fbpnum]), rsiz), rsiz, off, size, Entries())
      ensures size == 0 && (old(fbpnum) == 0 || old(fbpmis) + 1 < 256) ==>
        pool[..fbpnum] == old(pool[..fbpnum])
      ensures size == 0 && old(fbpnum) > 0 && old(fbpmis) + 1 < 256 ==> fbpmis == old(fbpmis) + 1
      ensures size == 0 && old(fbpnum) > 0 && old(fbpmis) + 1 >= 256 ==>
                exists sorted :: MergedAndSorted(old(Entries()), sorted, pool[..fbpnum])
      ensures SameRecs(old(disk), disk, 0) && Keeps(old(Now()), Now(), off, Given(rsiz, off, size))
    {
      hide Tiling, PoolOk, OnFile, Imaged, SameRecs, FirstLarger, FoundRoom, Served, Keeps;
      ghost var s, was := pool[..fbpnum], Now();
      NothingChanges(was);
      KeepsWider(was, was, 0, 0, fsiz, fsiz);
      NoZero(disk, frec, fsiz);
      SameRecsRefl(disk);
      if fbpnum < 1 {
        NoRoomFound(s, rsiz, fsiz);
        return fsiz, 0;
      }
      var i := 0;
      while i < fbpnum
        invariant 0 <= i <= fbpnum
        invariant forall j :: 0 <= j < i ==> pool[j].rsiz <= rsiz
      {
        if pool[i].rsiz > rsiz {
          FirstIs(s, rsiz, i);
          off, size := Serve(i, rsiz);
          ServedRoom(s, i, rsiz, off, size, Entries());
          return;
        }
        i := i + 1;
      }
      NoRoomFound(s, rsiz, fsiz);
      off, size := fsiz, 0;
      fbpmis := fbpmis + 1;
      if fbpmis >= MERGE_FREQUENCY {
        ghost var entries := Entries();
        ghost var sorted := MergeAndSort(0);
        assert MergedAndSorted(entries, sorted, pool[..fbpnum]);
      }
    }

    /** tchdbfbpsplice: the pending tile at off grows over the entry right behind it, if there is
        one and the two together reach nsiz. An iterator standing at that entry skips it. */
    method FbpSplice(off: nat, rsiz: nat, nsiz: nat) returns (ok: bool, size: nat)
      requires off > 0 && AllocOk(off) && FreeAt(disk, off, rsiz)
      modifies this`disk, this`fbpnum, this`iter, pool
      ensures AllocOk(off) && FreeAt(disk, off, size) && SameRecs(old(disk), disk, 0)
      ensures size >= rsiz && (ok ==> size >= nsiz)
      ensures ok ==> Block(off + rsiz, size - rsiz) in old(Entries())
      ensures ok ==> Entries() == old(Entries()) - multiset{Block(off + rsiz, size - rsiz)}
      ensures !ok ==> size == rsiz && disk == old(disk) && pool[..fbpnum] == old(pool[..fbpnum])
      ensures iter == if ok && old(iter) == off + rsiz then off + size else old(iter)
      ensures Spliced(old(pool[..fbpnum]), off, rsiz, nsiz, ok, size) && Keeps(old(Now()), Now(), 0, 0)
    {
      hide Entries, Pow2, PoolBytes, Tiling, PoolOk, OnFile, Imaged, SameRecs, SpliceAt, FreeAt, Keeps;
      ghost var s := pool[..fbpnum];
      NothingChanges(Now());
      NoZero(disk, frec, fsiz);
      SameRecsRefl(disk);
      var i := 0;
      while i < fbpnum
        invariant 0 <= i <= fbpnum
        invariant forall j :: 0 <= j < i ==> !(pool[j].off == off + rsiz && rsiz + pool[j].rsiz >= nsiz)
      {
        if pool[i].off == off + rsiz && rsiz + pool[i].rsiz >= nsiz {
          SpliceIs(s, off, rsiz, nsiz, i);
          size := TakeBehind(off, rsiz, i, s[i]);
          return true, size;
        }
        i := i + 1;
      }
      NotSpliced(s, off, rsiz, nsiz);
      return false, rsiz;
    }

    /** Entry i, right behind the pending tile, is joined to it; an iterator there skips it. */
    method TakeBehind(off: nat, rsiz: nat, i: nat, ghost b: Block) returns (size: nat)
      requires off > 0 && AllocOk(off) && FreeAt(disk, off, rsiz)
      requires i < fbpnum && b == pool[i] && b.off == off + rsiz
      modifies this`disk, this`fbpnum, this`iter, pool
      ensures AllocOk(off) && FreeAt(disk, off, size) && SameRecs(old(disk), disk, 0)
      ensures size == rsiz + b.rsiz && Keeps(old(Now()), Now(), 0, 0)
      ensures b == Block(off + rsiz, size - rsiz) && b in old(Entries()) && Entries() == old(Entries()) - multiset{b}
      ensures iter == if old(iter) == off + rsiz then off + size else old(iter)
    {
      hide Entries, Pow2, PoolBytes, Tiling, PoolOk, OnFile, Imaged, SameRecs, FreeAt, Keeps;
      EntryIn(i);
      if iter == pool[i].off {
        iter := iter + pool[i].rsiz;
      }
      size := SpliceEntry(off, rsiz, i, b);
    }

    method SpliceEntry(off: nat, rsiz: nat, i: nat, ghost b: Block) returns (size: nat)
      requires off > 0 && AllocOk(off) && FreeAt(disk, off, rsiz) && i < fbpnum && b == pool[i] && b.off == off + rsiz
      modifies this`disk, this`fbpnum, pool
      ensures AllocOk(off) && FreeAt(disk, off, size) && SameRecs(old(disk), disk, 0)
      ensures size == rsiz + b.rsiz && Entries() == old(Entries()) - multiset{b}
      ensures Keeps(old(Now()), Now(), 0, 0)
    {
      hide Entries, Tiling, PoolOk, OnFile, Imaged, SameRecs, CarveDisk, Pow2, PoolBytes, Aligned, Keeps;
      EntryIn(i);
      size := rsiz + pool[i].rsiz;
      SpliceClaims(Entries(), disk, file, frec, fsiz, off, b, size);
      EnlargeKeeps(Entries(), file, disk, frec, fsiz, off, b, size);
      ghost var after := CarveDisk(disk, off, off + size, size);
      RemoveEntry(i, b);
      disk := after;
    }

    /** A record about to be replaced or removed: its tile is pending from here on. */
    ghost method MarkPending(off: nat) returns (rsiz: nat)
      requires AllocOk(0) && off in disk && disk[off].Rec?
      modifies this`disk
      ensures off > 0 && AllocOk(off) && FreeAt(disk, off, rsiz) && rsiz == Size(old(disk[off]))
      ensures SameRecs(old(disk), disk, off) && disk == old(disk)[off := Free(Size(old(disk[off])))]
      ensures Keeps(old(Now()), Now(), 0, 0)
    {
      hide Entries, Pow2, PoolBytes, Tiling, PoolOk, OnFile, Imaged, Size, SameRecs, Keeps;
      NoZero(disk, frec, fsiz);
      rsiz := Size(disk[off]);
      PendingKeeps(Entries(), disk, file, frec, fsiz, off);
      FreedKeeps(file, disk, fsiz, off, rsiz);
      disk := disk[off := Free(rsiz)];
    }

    /** tchdbwritefb followed by tchdbfbpinsert on a pending tile. */
    method Release(off: nat, rsiz: nat)
      requires off > 0 && AllocOk(off) && FreeAt(disk, off, rsiz)
      modifies this`image, this`file, this`fbpnum, this`fbpmis, pool
      ensures AllocOk(0) && (fpow >= 1 ==> Block(off, rsiz) in Entries())
      ensures Inserted(old(pool[..fbpnum]), pool.Length, fpow, Block(off, rsiz), pool[..fbpnum])
      ensures Keeps(old(Now()), Now(), 0, 0)
    {
      hide Tiling, PoolOk, OnFile, Imaged, IsRun, Apart, WriteTile, Inserted, Keeps;
      assert disk[off := Free(Size(disk[off]))] == disk;
      FreeTile(Entries(), disk, frec, fsiz, off, off);
      FileWithout(file, disk, off);
      WriteOnFile(file, disk, frec, fsiz, off, off);
      TileInside(disk, frec, fsiz, off);
      WriteKeeps(file, disk, frec, fsiz, off);
      WriteAt(off, Free(rsiz));
      ghost var before := pool[..fbpnum];
      FbpInsert(off, rsiz, 0);
      InsertedIsIn(before, pool.Length, fpow, Block(off, rsiz), pool[..fbpnum]);
    }

    // ---------- reading ----------

    /** Trees, buckets and dictionary, with the records as they were on disk0. */
    ghost predicate TreesOk(disk0: Disk)
      reads this, buckets
    {
      && bnum > 0 && buckets.Length == bnum && |trees| == bnum
      && (forall b :: 0 <= b < bnum ==> buckets[b] == Root(trees[b]))
      && ForestOk(trees, bnum, disk0)
      && DictOk(dict, trees, bnum)
    }

    /** The invariant of an open database between two calls. */
    ghost predicate Valid()
      reads this, pool, buckets
    {
      AllocOk(0) && TreesOk(disk) && rnum == |dict|
    }

    /** The search loop shared by get, out and put. */
    method Walk(key: Bytes) returns (bidx: nat, slot: Slot, off: nat, ghost found: Tree)
      requires AllocOk(0) && TreesOk(disk)
      ensures bidx == BucketIndex(key, bnum) && (slot, found) == Locate(trees[bidx], key)
      ensures off == Root(found) && Stored(disk, found)
    {
      hide Entries, Pow2, PoolBytes, Tiling, PoolOk, BucketIndex, RecHash, DictOk, NoOrphans, Ordered;
      bidx := ComputeBucketIndex(key, bnum);
      var hash := ComputeRecHash(key);
      off, slot, found := buckets[bidx], Here, trees[bidx];
      assert TreeOk(found, bidx, bnum, disk);
      while off > 0
        invariant off == Root(found) && Stored(disk, found)
        invariant Reaches(trees[bidx], key, slot, found)
        decreases found
      {
        assert found.Node? && IsNode(disk, found);
        StoredOnDisk(disk, frec, fsiz, found);
        var rec := ReadTile(off);
        ReachesNext(trees[bidx], key, slot, found);
        if hash > rec.hash {
          off, slot, found := rec.left, LeftOf(off), found.left;
        } else if hash < rec.hash {
          off, slot, found := rec.right, RightOf(off), found.right;
        } else {
          var kcmp := KeyCmp(key, rec.key);
          if kcmp > 0 {
            off, slot, found := rec.left, LeftOf(off), found.left;
          } else if kcmp < 0 {
            off, slot, found := rec.right, RightOf(off), found.right;
          } else {
            return;
          }
        }
      }
      LeafReached(trees[bidx], key, slot, found, disk);
    }

    /** tchdbget: exactly the dictionary's value, or no record. */
    method Get(key: Bytes) returns (r: Option<Bytes>)
      requires Valid()
      ensures r == if key in dict then Some(dict[key]) else None
    {
      hide Entries, Pow2, PoolBytes, Tiling, PoolOk, BucketIndex, RecHash, NoOrphans, Ordered, Stored, Locate,
        RecordCmp, Keys;
      var bidx, slot, off; ghost var found;
      bidx, slot, off, found := Walk(key);
      assert TreeOk(trees[bidx], bidx, bnum, disk);
      LocateFinds(trees[bidx], key);
      FoundRecord(disk, frec, fsiz, found);
      if off == 0 {
        return None;
      }
      var rec := ReadTile(off);
      return Some(rec.value);
    }

    // ---------- writing ----------

    /** A search for key has ended at (slot, found) on disk0, and since then no record but the found
        one has changed. */
    ghost predicate Searched(disk0: Disk, key: Bytes, bidx: nat, slot: Slot, found: Tree)
      reads this, buckets
    {
      && TreesOk(disk0) && 0 !in disk0
      && bidx == BucketIndex(key, bnum) && (slot, found) == Locate(trees[bidx], key)
      && SameRecs(disk0, disk, Root(found))
    }

    /** The record can be appended below the 2^31 bound of the 32-bit mode. */
    predicate Fits(key: Bytes, value: Bytes)
      reads this
    {
      fsiz + Need(key, value) + PadSize(fsiz + Need(key, value)) <= FILE_LIMIT
    }

    /** A put is possible in the 32-bit mode: its record finds room in the file, or can be appended. */
    ghost predicate CanPut(key: Bytes, value: Bytes)
      reads this, pool
      requires fbpnum <= pool.Length
    {
      Fits(key, value) || HasRoom(disk, pool[..fbpnum], pool.Length, fpow, key, value)
    }

    /** Whether a put is possible, found out the way the put finds its place. */
    method Accepts(key: Bytes, value: Bytes) returns (ok: bool)
      requires Valid()
      ensures ok == CanPut(key, value)
    {
      hide Entries, Pow2, PoolBytes, Tiling, PoolOk, OnFile, Imaged, BucketIndex, Locate, ForestOk, DictOk, Stored,
        Need, Size, SpliceAt, FirstLarger, HasRoom, SearchFinds, KeysDiffer;
      if Fits(key, value) {
        return true;
      }
      ghost var found;
      var bidx, slot, off;
      bidx, slot, off, found := Walk(key);
      SearchedKey(trees, bnum, disk, dict, key);
      FoundRecord(disk, frec, fsiz, found);
      ForestKeysDiffer(trees, bnum, disk);
      var s := pool[..fbpnum];
      if off > 0 {
        FileWithout(file, disk, 0);
        NoZero(disk, frec, fsiz);
        var rec := ReadTile(off);
        OnlyRoom(disk, off, s, pool.Length, fpow, key, value);
        var need := Need(key, value);
        var finds := WillFind(need);
        ok := need <= Size(rec) || SpliceAt(s, off, Size(rec), need) < |s| || finds;
      } else {
        AbsentHasNoPlace(trees, bnum, disk, dict, key);
        NewRoom(disk, s, pool.Length, fpow, key, value);
        ok := FirstLarger(s, MAX_HEADER + |key| + |value|) < |s|;
      }
    }

    /** Whether a search for n bytes will succeed once a smaller block has been given back: a full pool
        is merged before that. */
    method WillFind(n: nat) returns (ok: bool)
      requires AllocOk(0)
      ensures ok == SearchFinds(pool[..fbpnum], pool.Length, fpow, n)
    {
      hide Tiling, PoolOk, OnFile, Imaged, PoolSort.Sorted, PoolMerge.MergePairs, FirstLarger, HasLarger,
        DistinctOffs, MergedLarger;
      var s := pool[..fbpnum];
      LargerIsFirst(s, n);
      if fpow < 1 || fbpnum < pool.Length {
        return FirstLarger(s, n) < |s|;
      }
      var a := new Block[fbpnum](i requires 0 <= i < |s| => s[i]);
      assert a[..fbpnum] == s;
      PoolSort.Sort(a, PoolSort.ByOff, fbpnum);
      PoolDistinct(s, disk, fsiz, 0);
      OnlyMerge(s, a[..fbpnum], n);
      var merged := PoolMerge.MergePairs(a[..fbpnum]);
      LargerIsFirst(merged, n);
      ok := FirstLarger(merged, n) < |merged|;
    }

    /** Overwriting one link: a bucket or a child link of a record. */
    method SetEntry(bidx: nat, slot: Slot, child: nat)
      requires AllocOk(0) && bidx < buckets.Length && LinkOk(child)
      requires !slot.Here? ==> slot.off in disk && disk[slot.off].Rec?
      modifies this`image, this`file, this`disk, buckets
      ensures AllocOk(0) && disk == SetLink(old(disk), slot, child)
      ensures forall b :: 0 <= b < buckets.Length ==>
        buckets[b] == if slot.Here? && b == bidx then child else old(buckets[b])
      ensures Keeps(old(Now()), Now(), 0, 0)
    {
      hide Entries, Pow2, PoolBytes, Tiling, PoolOk, OnFile, Imaged, WriteTile, Keeps;
      if slot.Here? {
        NothingChanges(Now());
        buckets[bidx] := child;
      } else {
        NoZero(disk, frec, fsiz);
        LinkKeeps(Entries(), disk, frec, fsiz, slot, child);
        LinkReads(file, disk, frec, fsiz, slot, child);
        FileWithout(file, disk, 0);
        disk := SetLink(disk, slot, child);
        WriteOnFile(file, disk, frec, fsiz, 0, slot.off);
        WriteLink(slot, child);
      }
    }

    /** The record goes to the end of the file, padded to the alignment. */
    method AppendRec(rec: Tile)
      requires AllocOk(0) && WellFormed(rec) && rec.Rec? && rec.psiz == PadSize(fsiz + Need(rec.key, rec.value))
      requires fsiz + Size(rec) <= FILE_LIMIT
      modifies this`image, this`file, this`disk, this`fsiz
      ensures AllocOk(0) && old(fsiz) < fsiz == old(fsiz) + Size(rec)
      ensures old(fsiz) !in old(disk) && old(fsiz) > 0 && disk == old(disk)[old(fsiz) := rec]
      ensures Keeps(old(Now()), Now(), 0, 0)
    {
      hide Entries, Pow2, PoolBytes, Tiling, PoolOk, OnFile, Imaged, WriteTile, Need, Keeps;
      AppendAligned(disk, frec, fsiz, rec);
      Append(Entries(), disk, frec, fsiz, rec);
      FileWithout(file, disk, 0);
      NoZero(disk, frec, fsiz);
      AppendReads(file, disk, frec, fsiz, rec);
      ghost var off := fsiz;
      disk := disk[off := rec];
      WriteOnFile(file, disk, frec, fsiz + Size(rec), 0, off);
      WriteAt(fsiz, rec);
      fsiz := fsiz + Size(rec);
    }

    /** The record fills the pending tile exactly. */
    method FillRec(off: nat, rec: Tile)
      requires off > 0 && AllocOk(off) && WellFormed(rec) && rec.Rec? && Size(rec) == Size(disk[off])
      modifies this`image, this`file, this`disk
      ensures AllocOk(0) && disk == old(disk)[off := rec] && Keeps(old(Now()), Now(), off, off + Size(rec))
    {
      hide Entries, Pow2, PoolBytes, Tiling, PoolOk, OnFile, Imaged, WriteTile, Size, Keeps;
      Fill(Entries(), disk, frec, fsiz, off, rec);
      FillReads(file, disk, frec, fsiz, off, rec);
      FileWithout(file, disk, off);
      disk := disk[off := rec];
      WriteOnFile(file, disk, frec, fsiz, off, off);
      TileInside(disk, frec, fsiz, off);
      WriteAt(off, rec);
    }

    /** The reuse branch of tchdbwriterec: padding that would not fit 16 bits is cut off and given
        back to the pool. */
    method TrimPending(off: nat, rsiz: nat, need: nat) returns (psiz: nat)
      requires off > 0 && AllocOk(off) && FreeAt(disk, off, rsiz) && 0 < need <= rsiz
      modifies this`image, this`file, this`disk, this`fbpnum, this`fbpmis, pool
      ensures AllocOk(off) && FreeAt(disk, off, need + psiz) && psiz <= MAX_PADDING
      ensures psiz == if rsiz - need > MAX_PADDING then PadSize(off + need) else rsiz - need
      ensures fpow >= 1 && rsiz - need > MAX_PADDING ==> Block(off + need + psiz, rsiz - need - psiz) in Entries()
      ensures SameRecs(old(disk), disk, 0) && Keeps(old(Now()), Now(), off, off + need + psiz)
    {
      hide Tiling, PoolOk, OnFile, Imaged, SameRecs, Pow2, PoolBytes, Entries, FreeAt, Keeps;
      NothingChanges(Now());
      KeepsWider(Now(), Now(), 0, 0, off, off + rsiz);
      psiz := rsiz - need;
      NoZero(disk, frec, fsiz);
      SameRecsRefl(disk);
      assert off in disk by { FreeTileThere(disk, off, rsiz); }
      if psiz > MAX_PADDING {
        psiz := PadSize(off + need);
        PendingAligned(disk, frec, fsiz, off);
        CutPending(off, rsiz, need + psiz);
      }
    }

    /** A pending tile keeps its first n bytes; the rest gets a header and becomes an entry. */
    method CutPending(off: nat, rsiz: nat, n: nat)
      requires off > 0 && AllocOk(off) && FreeAt(disk, off, rsiz) && 0 < n < rsiz && Aligned(n)
      modifies this`image, this`file, this`disk, this`fbpnum, this`fbpmis, pool
      ensures AllocOk(off) && FreeAt(disk, off, n) && (fpow >= 1 ==> Block(off + n, rsiz - n) in Entries())
      ensures SameRecs(old(disk), disk, 0) && Keeps(old(Now()), Now(), off, off + n)
    {
      hide Tiling, PoolOk, OnFile, Imaged, SameRecs, CarveDisk, IsRun, Apart, WriteTile, Inserted, Pow2, PoolBytes,
        Aligned, Keeps;
      Trim(Entries(), disk, frec, fsiz, off, n);
      CarveOnFile(file, disk, off, off, off + rsiz, n);
      CutReads(file, disk, frec, fsiz, off, n);
      disk := CarveDisk(disk, off, off + rsiz, n);
      WriteOnFile(file, disk, frec, fsiz, off, off + n);
      TileInside(disk, frec, fsiz, off + n);
      WriteAt(off + n, Free(rsiz - n));
      ghost var before := pool[..fbpnum];
      FbpInsert(off + n, rsiz - n, off);
      InsertedIsIn(before, pool.Length, fpow, Block(off + n, rsiz - n), pool[..fbpnum]);
    }

    /** The last part of tchdbwriterec: the record is on disk, its one incoming link is written. */
    method Attach(bidx: nat, slot: Slot, off: nat, psiz: nat, r: Content, ghost disk0: Disk, ghost disk1: Disk,
      ghost found: Tree)
      requires AllocOk(0) && TreesOk(disk0) && 0 !in disk0 && LinkOk(off)
      requires bidx == BucketIndex(r.key, bnum) && (slot, found) == Locate(trees[bidx], r.key)
      requires Cleared(disk0, disk1, found, off) && disk == disk1[off := NewRec(found, psiz, r.key, r.value)]
      modifies this`image, this`file, this`disk, this`trees, this`dict, buckets
      ensures AllocOk(0) && TreesOk(disk) && dict == old(dict)[r.key := r.value]
      ensures trees == old(trees)[bidx := Graft(old(trees[bidx]), r.key, NewNode(found, off, r.key, r.value))]
      ensures OneLink(disk0, disk, Root(found), slot, off)
      ensures RecordIn(disk, Block(off, Size(old(disk)[off])), r.key) && Keeps(old(Now()), Now(), 0, 0)
    {
      hide Entries, Pow2, PoolBytes, Tiling, PoolOk, OnFile, Imaged, BucketIndex, RecHash, Graft, Locate, ForestOk,
        DictOk, OneLink, Cleared, Keeps, Need;
      PutCommits(disk0, disk1, trees, bnum, dict, r.key, r.value, off, psiz);
      OneLinkAfter(disk0, disk1, found, off, NewRec(found, psiz, r.key, r.value), slot);
      SetEntry(bidx, slot, off);
      trees := trees[bidx := Graft(trees[bidx], r.key, NewNode(found, off, r.key, r.value))];
      dict := dict[r.key := r.value];
    }

    /** The record goes to the end of the file. */
    method WriteAtEnd(r: Content, bidx: nat, slot: Slot, ghost disk0: Disk, ghost found: Tree)
      requires AllocOk(0) && Fits(r.key, r.value) && Searched(disk0, r.key, bidx, slot, found) && r.Of(found)
      modifies this`image, this`file, this`disk, this`fsiz, this`trees, this`dict, buckets
      ensures AllocOk(0) && TreesOk(disk) && dict == old(dict)[r.key := r.value]
      ensures trees == old(trees)[bidx := Graft(old(trees[bidx]), r.key, NewNode(found, old(fsiz), r.key, r.value))]
      ensures OneLink(disk0, disk, Root(found), slot, old(fsiz))
      ensures RecordIn(disk, Block(old(fsiz), Need(r.key, r.value) + PadSize(old(fsiz) + Need(r.key, r.value))), r.key)
      ensures Keeps(old(Now()), Now(), 0, 0)
      ensures old(fsiz) < fsiz <= old(fsiz) + Cost(r.key, r.value) && fsiz == old(fsiz) + Size(disk[old(fsiz)])
    {
      hide Entries, Pow2, PoolBytes, Tiling, PoolOk, OnFile, Imaged, SameRecs, BucketIndex, RecHash, Graft, Locate,
        ForestOk, DictOk, Need, OneLink, Keeps;
      NeedAtLeast(r.key, r.value);
      NeedBound(r.key, r.value);
      var off, psiz := fsiz, PadSize(fsiz + Need(r.key, r.value));
      ghost var disk1, was := disk, Now();
      FrecPositive(disk, frec, fsiz);
      AppendRec(Rec(r.hash, r.left, r.right, psiz, r.key, r.value));
      ghost var mid := Now();
      Attach(bidx, slot, off, psiz, r, disk0, disk1, found);
      KeepsTrans(was, mid, Now(), 0, 0);
    }

    /** The record goes into the rsiz bytes at off. */
    method WriteInPlace(r: Content, off: nat, rsiz: nat, bidx: nat, slot: Slot, ghost disk0: Disk, ghost found: Tree)
      requires off > 0 && AllocOk(off) && FreeAt(disk, off, rsiz) && Need(r.key, r.value) <= rsiz
      requires Searched(disk0, r.key, bidx, slot, found) && r.Of(found)
      modifies this`image, this`file, this`disk, this`fbpnum, this`fbpmis, this`trees, this`dict, pool, buckets
      ensures AllocOk(0) && TreesOk(disk) && dict == old(dict)[r.key := r.value]
      ensures trees == old(trees)[bidx := Graft(old(trees[bidx]), r.key, NewNode(found, off, r.key, r.value))]
      ensures OneLink(disk0, disk, Root(found), slot, off)
      ensures RecordIn(disk, Block(off, Taken(off, rsiz, Need(r.key, r.value))), r.key) && off < fsiz
      ensures Keeps(old(Now()), Now(), off, off + Taken(off, rsiz, Need(r.key, r.value)))
    {
      hide Entries, Pow2, PoolBytes, Tiling, PoolOk, OnFile, Imaged, SameRecs, BucketIndex, RecHash, Graft, Locate,
        ForestOk, DictOk, Need, OneLink, Keeps;
      NeedAtLeast(r.key, r.value);
      NoZero(disk, frec, fsiz);
      TileInside(disk, frec, fsiz, off);
      ghost var disk1, was := disk, Now();
      var psiz := TrimPending(off, rsiz, Need(r.key, r.value));
      SameRecsTrans(disk0, disk1, disk, Root(found));
      disk1 := disk;
      ghost var end, trimmed := off + Need(r.key, r.value) + psiz, Now();
      FillRec(off, Rec(r.hash, r.left, r.right, psiz, r.key, r.value));
      KeepsTrans(was, trimmed, Now(), off, end);
      ghost var filled := Now();
      Attach(bidx, slot, off, psiz, r, disk0, disk1, found);
      KeepsWider(filled, Now(), 0, 0, off, end);
      KeepsTrans(was, filled, Now(), off, end);
    }

    /** A tile that is too small is given up, and another place is searched for: the end of the file
        (size 0) or enough room. `searched` is the pool then. */
    method Relocate(off: nat, rsiz: nat, need: nat) returns (noff: nat, nsiz: nat, ghost searched: seq<Block>)
      requires off > 0 && AllocOk(off) && FreeAt(disk, off, rsiz) && 15 <= need && rsiz <= need
      modifies this`image, this`file, this`disk, this`fbpnum, this`fbpmis, pool
      ensures nsiz == 0 ==> noff == fsiz && AllocOk(0)
      ensures nsiz > 0 ==> nsiz >= need && noff > 0 && AllocOk(noff) && FreeAt(disk, noff, nsiz)
      ensures SameRecs(old(disk), disk, 0)
      ensures Inserted(old(pool[..fbpnum]), pool.Length, fpow, Block(off, rsiz), searched) && Within(searched, fsiz)
      ensures FoundRoom(searched, need, noff, nsiz)
      ensures nsiz > 0 <==> SearchFinds(old(pool[..fbpnum]), pool.Length, fpow, need)
      ensures Keeps(old(Now()), Now(), noff, Given(need, noff, nsiz))
    {
      hide Entries, PoolBytes, Tiling, PoolOk, OnFile, Imaged, SameRecs, Inserted, Within, FirstLarger, Served, Keeps,
        SearchFinds;
      ghost var s, was, pend := pool[..fbpnum], Now(), off;
      EntriesAre();
      ghost var before := disk;
      assert PoolOk(multiset(s), disk, fsiz, off);
      Release(off, rsiz);
      ghost var mid := Now();
      EntriesAre();
      searched := pool[..fbpnum];
      SearchWillFind(s, pool.Length, fpow, Block(off, rsiz), searched, need, before, fsiz, pend);
      PoolWithin(searched, disk, frec, fsiz, 0);
      noff, nsiz := FbpSearch(need);
      KeepsWider(was, mid, 0, 0, noff, Given(need, noff, nsiz));
      KeepsTrans(was, mid, Now(), noff, Given(need, noff, nsiz));
    }

    /** tchdbfbpsplice, and what it means to the iterator: it only moves over the entry used up. */
    method Enlarge(off: nat, rsiz: nat, need: nat, ghost key: Bytes) returns (ok: bool, nsiz: nat)
      requires off > 0 && AllocOk(off) && FreeAt(disk, off, rsiz)
      modifies this`disk, this`fbpnum, this`iter, pool
      ensures AllocOk(off) && FreeAt(disk, off, nsiz) && SameRecs(old(disk), disk, 0) && (ok ==> nsiz >= need)
      ensures Spliced(old(pool[..fbpnum]), off, rsiz, need, ok, nsiz) && Keeps(old(Now()), Now(), 0, 0)
      ensures !ok ==> nsiz == rsiz && iter == old(iter) && disk == old(disk) && pool[..fbpnum] == old(pool[..fbpnum])
      ensures ok ==> iter == if old(iter) == off + rsiz then off + nsiz else old(iter)
      ensures old(iter) <= iter && Skippable(old(disk), old(iter), iter, key)
      ensures iter != old(iter) ==> CanRead(Now(), iter) && iter == off + nsiz
    {
      hide Entries, Pow2, PoolBytes, Tiling, PoolOk, OnFile, Imaged, SameRecs, Skippable, Spliced, Size, Keeps;
      ghost var disk1, entries := disk, Entries();
      NothingSkipped(disk1, iter, key);
      ok, nsiz := FbpSplice(off, rsiz, need);
      if ok {
        EntryIsFree(entries, disk1, fsiz, off, Block(off + rsiz, nsiz - rsiz), key);
        FreeSize(disk[off]);
        NextTile(disk, frec, fsiz, off);
      }
    }

    /** The record outgrows its tile: the tile is enlarged by the block behind it or given up for
        another place. */
    method Outgrow(r: Content, off: nat, rsiz: nat, ghost disk0: Disk, ghost x: nat)
      returns (noff: nat, nsiz: nat, ghost searched: seq<Block>)
      requires off > 0 && AllocOk(off) && FreeAt(disk, off, rsiz) && Need(r.key, r.value) > rsiz
      requires SameRecs(disk0, disk, x)
      modifies this`image, this`file, this`disk, this`fbpnum, this`fbpmis, this`iter, pool
      ensures nsiz == 0 ==> noff == fsiz && AllocOk(0)
      ensures nsiz > 0 ==> nsiz >= Need(r.key, r.value) && noff > 0 && AllocOk(noff) && FreeAt(disk, noff, nsiz)
      ensures SameRecs(disk0, disk, x)
      ensures old(iter) <= iter && Skippable(old(disk), old(iter), iter, r.key)
      ensures iter != old(iter) ==> CanRead(Now(), iter) && iter == noff + nsiz && nsiz > 0
      ensures iter == IterAfter(old(pool[..fbpnum]), off, rsiz, Need(r.key, r.value), old(iter))
      ensures MadeRoom(old(pool[..fbpnum]), searched, off, rsiz, Need(r.key, r.value), noff, nsiz)
      ensures nsiz > 0 <==> RoomAt(old(pool[..fbpnum]), pool.Length, fpow, off, rsiz, Need(r.key, r.value))
      ensures Moved(old(pool[..fbpnum]), pool.Length, fpow, off, rsiz, Need(r.key, r.value), searched, fsiz)
      ensures Keeps(old(Now()), Now(), noff, Given(Need(r.key, r.value), noff, nsiz))
    {
      hide Entries, Pow2, PoolBytes, Tiling, PoolOk, OnFile, Imaged, SameRecs, Need, Skippable, FoundRoom, Inserted,
        SpliceAt, Moved, Within, SearchFinds, Keeps, CanRead;
      var need := Need(r.key, r.value);
      NoZero(disk, frec, fsiz);
      AtLeastOneUnit(disk, frec, fsiz, off);
      EntriesAre();
      ghost var disk1, s, was := disk, pool[..fbpnum], Now();
      PoolWithin(s, disk, frec, fsiz, off);
      var ok;
      ok, nsiz := Enlarge(off, rsiz, need, r.key);
      if ok {
        SpliceIsNoMove(s, pool.Length, fpow, off, rsiz, need, fsiz);
        noff, searched := off, s;
        KeepsWider(was, Now(), 0, 0, noff, Given(need, noff, nsiz));
      } else {
        noff, nsiz, searched := Relocate(off, rsiz, need);
        SearchIsMove(s, pool.Length, fpow, off, rsiz, need, searched, fsiz);
      }
      SameRecsTrans(disk0, disk1, disk, x);
    }

    /** tchdbwriterec. The record is stored at off when rsiz bytes there are enough and at the end of
        the file when rsiz is 0; else room is found and the record is written on a second call.
        There is no third one: that is what `decreases` says. */
    method WriteRec(r: Content, off: nat, rsiz: nat, bidx: nat, slot: Slot, ghost disk0: Disk, ghost found: Tree)
      returns (at: nat, calls: nat, ghost searched: seq<Block>)
      requires Searched(disk0, r.key, bidx, slot, found) && r.Of(found) && fbpnum <= pool.Length
      requires || Fits(r.key, r.value)
               || (rsiz > 0 && RoomAt(pool[..fbpnum], pool.Length, fpow, off, rsiz, Need(r.key, r.value)))
      requires rsiz == 0 ==> off == fsiz && AllocOk(0)
      requires rsiz > 0 ==> off > 0 && AllocOk(off) && FreeAt(disk, off, rsiz)
      modifies this`image, this`file, this`disk, this`fsiz, this`fbpnum, this`fbpmis, this`iter, this`trees,
        this`dict, pool, buckets
      ensures AllocOk(0) && TreesOk(disk) && dict == old(dict)[r.key := r.value]
      ensures trees == old(trees)[bidx := Graft(old(trees[bidx]), r.key, NewNode(found, at, r.key, r.value))]
      ensures OneLink(disk0, disk, Root(found), slot, at)
      ensures fsiz <= old(fsiz) + Cost(r.key, r.value)
      ensures calls == if rsiz > 0 && Need(r.key, r.value) > rsiz then 2 else 1
      ensures calls == 1 ==> at == off && iter == old(iter)
      ensures old(iter) <= iter && Skippable(old(disk), old(iter), iter, r.key)
      ensures rsiz == 0 ==> pool[..fbpnum] == old(pool[..fbpnum])
      ensures Landed(old(Now()), Now(), old(pool[..fbpnum]), searched, off, rsiz, Need(r.key, r.value), old(iter), iter,
                     r.key, at)
      ensures rsiz > 0 ==>
        Moved(old(pool[..fbpnum]), pool.Length, fpow, off, rsiz, Need(r.key, r.value), searched, old(fsiz))
      decreases if rsiz > 0 && Need(r.key, r.value) > rsiz then 2 else 0
    {
      hide Entries, Pow2, PoolBytes, Tiling, PoolOk, OnFile, Imaged, SameRecs, BucketIndex, RecHash, Graft, Locate,
        ForestOk, DictOk, Need, NewNode, Content.Of, OneLink, Skippable, Moved, Keeps, Size, RoomAt, SpliceAt, Landed,
        RecordIn, Taken;
      calls, searched := 1, pool[..fbpnum];
      NothingSkipped(disk, iter, r.key);
      ghost var s, need, was := pool[..fbpnum], Need(r.key, r.value), Now();
      EntriesAre();
      PoolWithin(s, disk, frec, fsiz, if rsiz > 0 then off else 0);
      if rsiz < 1 {
        WriteAtEnd(r, bidx, slot, disk0, found);
        at := off;
        LandsAtEnd(was, Now(), s, searched, need, iter, r.key);
      } else if Need(r.key, r.value) > rsiz {
        at, calls, searched := WriteElsewhere(r, off, rsiz, bidx, slot, disk0, found);
      } else {
        WriteInPlace(r, off, rsiz, bidx, slot, disk0, found);
        at := off;
        LandsHere(was, Now(), s, searched, off, rsiz, need, iter, r.key);
        SpliceIsNoMove(s, pool.Length, fpow, off, rsiz, need, fsiz);
      }
    }

    /** The branch of tchdbwriterec that calls it again. */
    method WriteElsewhere(r: Content, off: nat, rsiz: nat, bidx: nat, slot: Slot, ghost disk0: Disk, ghost found: Tree)
      returns (at: nat, calls: nat, ghost searched: seq<Block>)
      requires Searched(disk0, r.key, bidx, slot, found) && r.Of(found)
      requires off > 0 && AllocOk(off) && FreeAt(disk, off, rsiz) && Need(r.key, r.value) > rsiz > 0
      requires || Fits(r.key, r.value)
               || RoomAt(pool[..fbpnum], pool.Length, fpow, off, rsiz, Need(r.key, r.value))
      modifies this`image, this`file, this`disk, this`fsiz, this`fbpnum, this`fbpmis, this`iter, this`trees,
        this`dict, pool, buckets
      ensures AllocOk(0) && TreesOk(disk) && dict == old(dict)[r.key := r.value] && calls == 2
      ensures trees == old(trees)[bidx := Graft(old(trees[bidx]), r.key, NewNode(found, at, r.key, r.value))]
      ensures OneLink(disk0, disk, Root(found), slot, at)
      ensures fsiz <= old(fsiz) + Cost(r.key, r.value)
      ensures old(iter) <= iter && Skippable(old(disk), old(iter), iter, r.key)
      ensures Landed(old(Now()), Now(), old(pool[..fbpnum]), searched, off, rsiz, Need(r.key, r.value), old(iter), iter,
                     r.key, at)
      ensures Moved(old(pool[..fbpnum]), pool.Length, fpow, off, rsiz, Need(r.key, r.value), searched, old(fsiz))
      decreases 1
    {
      hide Entries, Pow2, PoolBytes, Tiling, PoolOk, OnFile, Imaged, SameRecs, BucketIndex, RecHash, Graft, Locate,
        ForestOk, DictOk, Need, NewNode, Content.Of, OneLink, Skippable, MadeRoom, Moved, IterAfter, Keeps, CanRead,
        Size, SearchFinds, SpliceAt, Landed;
      ghost var s, need, was, iter1 := pool[..fbpnum], Need(r.key, r.value), Now(), iter;
      var noff, nsiz;
      noff, nsiz, searched := Outgrow(r, off, rsiz, disk0, Root(found));
      ghost var mid, s2, iter2 := Now(), pool[..fbpnum], iter;
      ghost var rest;
      at, calls, rest := WriteRec(r, noff, nsiz, bidx, slot, disk0, found);
      LandsSecond(was, mid, Now(), s, searched, s2, rest, off, rsiz, need, noff, nsiz, iter1, iter2, iter, r.key, at);
      calls := calls + 1;
    }

    /** tchdbput with overwriting: the dictionary changes in key and nowhere else. The records of
        other keys stay where they are. Where the record goes and where the iterator stands is told
        exactly, and every place that could be read from still can, unless it is inside the record.
        `at` is where the record is, `searched` the pool in which one that moves finds its place. */
    method Put(key: Bytes, value: Bytes) returns (ghost at: nat, ghost searched: seq<Block>)
      requires Valid() && CanPut(key, value)
      modifies this, pool, buckets
      ensures Valid() && dict == old(dict)[key := value] && fsiz <= old(fsiz) + Cost(key, value)
      ensures StandsOnKey(disk, at, key) && Keeps(old(Now()), Now(), at, at + Size(disk[at]))
      ensures fsiz == if at == old(fsiz) then at + Size(disk[at]) else old(fsiz)
      ensures OthersStay(old(disk), disk, key)
      ensures old(iter) <= iter && Skippable(old(disk), old(iter), iter, key)
      ensures iter != old(iter) ==> CanRead(Now(), iter)
      ensures key !in old(dict) && old(fbpnum) == 0 ==> fbpnum == 0
      ensures key !in old(dict) ==> iter == old(iter)
      ensures key !in old(dict) ==>
        Block(at, Size(disk[at])) ==
        Settled(old(fsiz), old(pool[..fbpnum]), MAX_HEADER + |key| + |value|, Need(key, value))
      ensures forall o :: StandsOnKey(old(disk), o, key) ==>
        PutOver(old(disk), old(fsiz), old(pool[..fbpnum]), searched, o, Need(key, value), pool.Length, fpow,
                old(iter), Block(at, Size(disk[at])), iter)
    {
      hide Entries, Pow2, PoolBytes, Tiling, PoolOk, OnFile, Imaged, SameRecs, BucketIndex, Locate, ForestOk, DictOk,
        Stored, OthersStay, Skippable, Settled, PutOver, Need, Keeps, CanRead, HasRoom;
      var bidx, slot, off; ghost var found;
      NothingSkipped(disk, iter, key);
      bidx, slot, off, found := Walk(key);
      NoZero(disk, frec, fsiz);
      SearchedKey(trees, bnum, disk, dict, key);
      FoundRecord(disk, frec, fsiz, found);
      if off > 0 {
        at, searched := Overwrite(key, value, bidx, slot, off, found);
        PutSize(old(dict), key, value);
      } else {
        searched := [];
        AbsentHasNoPlace(trees, bnum, disk, dict, key);
        NewRoom(disk, pool[..fbpnum], pool.Length, fpow, key, value);
        at := Insert(key, value, bidx, slot, found);
        PutSize(old(dict), key, value);
        rnum := rnum + 1;
      }
    }

    method Overwrite(key: Bytes, value: Bytes, bidx: nat, slot: Slot, off: nat, ghost found: Tree)
      returns (ghost at: nat, ghost searched: seq<Block>)
      requires AllocOk(0) && TreesOk(disk) && CanPut(key, value) && 0 !in disk
      requires bidx == BucketIndex(key, bnum) && (slot, found) == Locate(trees[bidx], key)
      requires found.Node? && off == found.off && Stored(disk, found) && found.key == key
      modifies this`image, this`file, this`disk, this`fsiz, this`fbpnum, this`fbpmis, this`iter, this`trees, this`dict,
        pool, buckets
      ensures AllocOk(0) && TreesOk(disk) && dict == old(dict)[key := value]
      ensures fsiz <= old(fsiz) + Cost(key, value)
      ensures StandsOnKey(disk, at, key) && Keeps(old(Now()), Now(), at, at + Size(disk[at]))
      ensures fsiz == if at == old(fsiz) then at + Size(disk[at]) else old(fsiz)
      ensures OthersStay(old(disk), disk, key)
      ensures old(iter) <= iter && Skippable(old(disk), old(iter), iter, key)
      ensures iter != old(iter) ==> CanRead(Now(), iter)
      ensures forall o :: StandsOnKey(old(disk), o, key) ==>
        PutOver(old(disk), old(fsiz), old(pool[..fbpnum]), searched, o, Need(key, value), pool.Length, fpow,
                old(iter), Block(at, Size(disk[at])), iter)
    {
      hide Entries, Pow2, PoolBytes, Tiling, PoolOk, OnFile, Imaged, SameRecs, BucketIndex, RecHash, Graft, Locate,
        ForestOk, DictOk, Need, NewNode, Size, Stored, OneLink, OthersStay, KeysDiffer, Skippable, Rewritten, Moved,
        IterAfter, Keeps, CanRead, HasRoom, RoomAt, Landed;
      ghost var disk0, was := disk, Now();
      ForestKeysDiffer(trees, bnum, disk);
      FoundRecord(disk, frec, fsiz, found);
      FileWithout(file, disk, 0);
      AtLeastOneUnit(disk, frec, fsiz, off);
      var rec := ReadTile(off);
      OnlyRoom(disk0, off, pool[..fbpnum], pool.Length, fpow, key, value);
      ghost var n := MarkPending(off);
      ghost var mid := Now();
      var calls, place;
      place, calls, searched :=
        WriteRec(Content(rec.hash, rec.left, rec.right, key, value), off, Size(rec), bidx, slot, disk0, found);
      at := place;
      LandedOver(mid, Now(), old(pool[..fbpnum]), searched, off, Size(rec), Need(key, value), old(iter), iter, key, at);
      KeepsWider(was, mid, 0, 0, at, at + Size(disk[at]));
      KeepsTrans(was, mid, Now(), at, at + Size(disk[at]));
      LinkedOthersStay(disk0, disk, off, slot, at, key);
      SkippableBefore(disk0, off, n, old(iter), iter, key);
      PutIsOver(disk0, old(fsiz), old(pool[..fbpnum]), searched,
        off, key, value, pool.Length, fpow, old(iter), Block(at, Size(disk[at])), iter);
    }

    method Insert(key: Bytes, value: Bytes, bidx: nat, slot: Slot, ghost found: Tree) returns (ghost at: nat)
      requires AllocOk(0) && TreesOk(disk) && 0 !in disk
      requires Fits(key, value) || FirstLarger(pool[..fbpnum], MAX_HEADER + |key| + |value|) < fbpnum
      requires bidx == BucketIndex(key, bnum) && (slot, found) == Locate(trees[bidx], key) && found.Leaf?
      modifies this`image, this`file, this`disk, this`fsiz, this`fbpnum, this`fbpmis, this`iter, this`trees, this`dict,
        pool, buckets
      ensures AllocOk(0) && TreesOk(disk) && dict == old(dict)[key := value]
      ensures fsiz <= old(fsiz) + Cost(key, value)
      ensures StandsOnKey(disk, at, key) && Keeps(old(Now()), Now(), at, at + Size(disk[at]))
      ensures fsiz == if at == old(fsiz) then at + Size(disk[at]) else old(fsiz)
      ensures OthersStay(old(disk), disk, key)
      ensures iter == old(iter) && (old(fbpnum) == 0 ==> fbpnum == 0)
      ensures Block(at, Size(disk[at])) ==
        Settled(old(fsiz), old(pool[..fbpnum]), MAX_HEADER + |key| + |value|, Need(key, value))
    {
      hide Entries, Pow2, PoolBytes, Tiling, PoolOk, OnFile, Imaged, SameRecs, BucketIndex, RecHash, Graft, Locate,
        ForestOk, DictOk, Need, Size, OneLink, OthersStay, Skippable, FoundRoom, Settled, Moved, FirstLarger, Keeps,
        CanRead, RoomAt, Landed, Given, HashDb.Fits;
      ghost var disk0, s, iter0, was := disk, pool[..fbpnum], iter, Now();
      ghost var asked, need := MAX_HEADER + |key| + |value|, Need(key, value);
      assert Root(found) == 0;
      var hash := ComputeRecHash(key);
      var off, rsiz := FindRoom(key, value);
      ghost var s1, mid := pool[..fbpnum], Now();
      RoomHere(s1, pool.Length, fpow, off, rsiz, need);
      var place, calls; ghost var searched;
      place, calls, searched := WriteRec(Content(hash, 0, 0, key, value), off, rsiz, bidx, slot, disk0, found);
      at := place;
      LinkedOthersStay(disk0, disk, Root(found), slot, at, key);
      LandedNew(was, mid, Now(), s, s1, searched, asked, off, rsiz, need, iter0, iter, key, at);
    }

    /** The search for the room of a new record: asked for with the largest header there can be. */
    method FindRoom(key: Bytes, value: Bytes) returns (off: nat, rsiz: nat)
      requires AllocOk(0)
      requires Fits(key, value) || FirstLarger(pool[..fbpnum], MAX_HEADER + |key| + |value|) < fbpnum
      modifies this`disk, this`image, this`file, this`fbpnum, this`fbpmis, pool
      ensures rsiz == 0 ==> off == fsiz && AllocOk(0) && Fits(key, value)
      ensures rsiz > 0 ==> off > 0 && AllocOk(off) && FreeAt(disk, off, rsiz) && Need(key, value) <= rsiz
      ensures SameRecs(old(disk), disk, 0) && (old(fbpnum) == 0 ==> rsiz == 0 && fbpnum == 0)
      ensures FoundRoom(old(pool[..fbpnum]), MAX_HEADER + |key| + |value|, off, rsiz)
      ensures Keeps(old(Now()), Now(), off, Given(MAX_HEADER + |key| + |value|, off, rsiz))
      ensures Need(key, value) <= MAX_HEADER + |key| + |value| <= Need(key, value) + MAX_HEADER
    {
      hide Entries, Pow2, PoolBytes, Tiling, PoolOk, OnFile, Imaged, SameRecs, Need, FoundRoom, FirstLarger, Served,
        MergedAndSorted, Keeps, Given;
      ghost var s, asked := pool[..fbpnum], MAX_HEADER + |key| + |value|;
      FrecPositive(disk, frec, fsiz);
      EntriesAre();
      ShortEnough(disk, frec, fsiz, s, key, value);
      NeedAtLeast(key, value);
      NeedBound(key, value);
      off, rsiz := FbpSearch(MAX_HEADER + |key| + |value|);
      if FirstLarger(s, asked) < |s| { RoomIsThere(s, asked, off, rsiz); }
    }

    /** The loop of tchdbout down the right links of the left child. */
    method FindRightmost(start: nat, ghost t: Tree, ghost disk0: Disk) returns (m: nat)
      requires Stored(disk0, t) && t.Node? && start == t.off && Imaged(image, file)
      requires forall o :: o in Offs(t) && o in disk0 ==> o in file && file[o] == disk0[o]
      ensures m == Rightmost(t)
    {
      m := start;
      ghost var cur := t;
      var rec := ReadTile(m);
      while rec.right > 0
        invariant cur.Node? && Stored(disk0, cur) && m == cur.off && Rightmost(cur) == Rightmost(t)
        invariant Offs(cur) <= Offs(t) && rec.Rec? && rec == disk0[m]
        decreases cur
      {
        m := rec.right;
        cur := cur.right;
        assert m in Offs(cur);
        rec := ReadTile(m);
      }
    }

    /** tchdbout: removes exactly key; false when there is no such record. */
    method Out(key: Bytes) returns (ok: bool)
      requires Valid()
      modifies this, pool, buckets
      ensures Valid() && ok == (key in old(dict)) && dict == old(dict) - {key} && fsiz == old(fsiz)
      ensures GivenUp(old(disk), key, old(pool[..fbpnum]), pool.Length, fpow, pool[..fbpnum])
      ensures KeyGone(old(disk), disk, key) && iter == old(iter) && Keeps(old(Now()), Now(), 0, 0)
    {
      hide Entries, Pow2, PoolBytes, Tiling, PoolOk, OnFile, Imaged, BucketIndex, Locate, ForestOk, DictOk, Stored,
        KeyGone, KeyAtOrAfter, Inserted, Keeps;
      var bidx, slot, off; ghost var found;
      bidx, slot, off, found := Walk(key);
      SearchedKey(trees, bnum, disk, dict, key);
      FoundRecord(disk, frec, fsiz, found);
      if off == 0 {
        assert dict - {key} == dict;
        ForestHasKey(trees, bnum, disk, dict, key);
        NothingGone(disk, key);
        AbsentHasNoPlace(trees, bnum, disk, dict, key);
        NothingChanges(Now());
        return false;
      }
      OneLess(dict, key);
      Remove(key, bidx, slot, off, found);
      rnum := rnum - 1;
      ok := true;
    }

    method Remove(key: Bytes, bidx: nat, slot: Slot, off: nat, ghost found: Tree)
      requires AllocOk(0) && TreesOk(disk) && off in disk
      requires bidx == BucketIndex(key, bnum) && (slot, found) == Locate(trees[bidx], key)
      requires found.Node? && off == found.off && Stored(disk, found) && found.key == key
      modifies this`image, this`file, this`disk, this`fbpnum, this`fbpmis, this`trees, this`dict, pool, buckets
      ensures AllocOk(0) && TreesOk(disk) && dict == old(dict) - {key}
      ensures GivenUp(old(disk), key, old(pool[..fbpnum]), pool.Length, fpow, pool[..fbpnum])
      ensures KeyGone(old(disk), disk, key) && Keeps(old(Now()), Now(), 0, 0)
    {
      hide Entries, Pow2, PoolBytes, Tiling, PoolOk, OnFile, Imaged, SameRecs, BucketIndex, RecHash, Graft, Locate,
        ForestOk, DictOk, Size, Stored, KeyGone, LinksOnly, KeysDiffer, GivenUp, Inserted, Keeps;
      ghost var disk0, s, was := disk, pool[..fbpnum], Now();
      FoundRecord(disk, frec, fsiz, found);
      FileWithout(file, disk, 0);
      NoZero(disk, frec, fsiz);
      var rec := ReadTile(off);
      ghost var _ := MarkPending(off);
      ghost var marked := Now();
      Release(off, Size(rec));
      KeepsTrans(was, marked, Now(), 0, 0);
      ghost var released := Now();
      ForestKeysDiffer(trees, bnum, disk0);
      OnlyGivenUp(disk0, off, key, s, pool.Length, fpow, pool[..fbpnum]);
      ghost var disk1 := disk;
      Unlink(rec, bidx, slot, key, disk0, found);
      KeepsTrans(was, released, Now(), 0, 0);
      GoneAfter(disk0, disk1, disk, off, key);
    }

    /** The second half of tchdbout: the removed record's children take its place. */
    method Unlink(rec: Tile, bidx: nat, slot: Slot, key: Bytes, ghost disk0: Disk, ghost found: Tree)
      requires AllocOk(0) && Searched(disk0, key, bidx, slot, found)
      requires found.Node? && found.off in disk && disk[found.off].Free?
      requires found.off > 0 && WellFormed(rec) && rec.Rec?
      requires rec.left == Root(found.left) && rec.right == Root(found.right)
      modifies this`image, this`file, this`disk, this`trees, this`dict, buckets
      ensures AllocOk(0) && TreesOk(disk) && dict == old(dict) - {key}
      ensures trees == old(trees)[bidx := Graft(old(trees[bidx]), key, Join(found.left, found.right))]
      ensures LinksOnly(old(disk), disk) && Keeps(old(Now()), Now(), 0, 0)
    {
      hide Entries, Pow2, PoolBytes, Tiling, PoolOk, OnFile, Imaged, SameRecs, BucketIndex, RecHash, Graft, Locate,
        ForestOk, DictOk, Size, Stored, Join, SetLink, LinksOnly, UpToLinks, Keeps;
      ghost var disk1, was := disk, Now();
      NothingChanges(was);
      NoZero(disk, frec, fsiz);
      OutCommits(disk0, disk, trees, bnum, dict, key);
      Children(disk0, disk, file, trees, bnum, key);
      var child;
      if rec.left > 0 && rec.right < 1 {
        child := rec.left;
      } else if rec.left < 1 && rec.right > 0 {
        child := rec.right;
      } else if rec.left < 1 && rec.left < 1 {
        child := 0;
      } else {
        child := rec.left;
        var m := FindRightmost(rec.left, found.left, disk0);
        SetEntry(bidx, RightOf(m), rec.right);
        LinkIsThere(disk1, RightOf(m), rec.right, slot);
        SetLinkOnly(disk1, RightOf(m), rec.right);
      }
      if disk == disk1 { SameLinks(disk); }
      ghost var disk2 := disk;
      SetLinkOnly(disk2, slot, child);
      ghost var mid := Now();
      SetEntry(bidx, slot, child);
      KeepsTrans(was, mid, Now(), 0, 0);
      LinksOnlyTrans(disk1, disk2, disk);
      trees := trees[bidx := Graft(trees[bidx], key, Join(found.left, found.right))];
      dict := dict - {key};
    }

    // ---------- iterating ----------

    /** The iterator stands at a tile or at the end. */
    ghost predicate IterOk()
      reads this
    {
      iter in disk || iter == fsiz
    }

    /** The iterator stands where the database can be read on from. */
    ghost predicate Readable()
      reads this
    {
      CanRead(Now(), iter)
    }

    /** The keys the iterator has still to deliver: those of the records from it on. */
    ghost function Pending(): seq<Bytes>
      reads this, pool
      requires AllocOk(0)
    {
      KeysFrom(disk, frec, fsiz, iter)
    }

    /** tchdbiterinit */
    method IterInit()
      requires Valid()
      modifies this`iter
      ensures Valid() && IterOk() && Readable() && iter == frec
      ensures NoDuplicates(Pending()) && (forall k :: k in Pending() <==> k in dict) && |Pending()| == rnum
    {
      hide Entries, Pow2, PoolBytes, Tiling, PoolOk, OnFile, Imaged, ForestOk, DictOk, KeysFrom, NoDuplicates;
      KeysFromFirst(trees, bnum, disk, dict, frec, fsiz);
      iter := frec;
    }

    /** tchdbiternext: whatever the bytes from the iterator on say. From a place that can be read from
        that is the first key still to come, or none if there is none; an iterator that was never
        initialized stands at 0 and delivers nothing. */
    method IterNext() returns (r: Option<Bytes>)
      requires Valid() && (iter == 0 || Halts(image, iter))
      modifies this`iter
      ensures Valid()
      ensures old(iter) == 0 ==> r.None? && iter == 0
      ensures old(iter) > 0 ==> (r, iter) == NextKey(image, old(iter))
      ensures old(iter) > 0 && old(Readable()) ==> IterOk() && NextDelivered(r, old(iter), old(Pending()))
    {
      hide Tiling, PoolOk, OnFile, Imaged, ForestOk, DictOk, KeysFrom, DecodeTile, Halts, NextKey, CanRead, Size,
        FindsNext;
      ghost var start := iter;
      if start > 0 && Readable() {
        ReadableFinds(image, file, disk, frec, fsiz, start);
        Delivered(start);
      }
      if iter < 1 {
        return None;
      }
      r := Deliver();
    }

    lemma Delivered(p: nat)
      requires AllocOk(0) && FindsNext(image, disk, frec, fsiz, p)
      ensures Halts(image, p) && KeysFrom(disk, frec, fsiz, fsiz) == []
      ensures match NextKey(image, p)
        case (None, q) => q == fsiz && KeysFrom(disk, frec, fsiz, p) == []
        case (Some(k), q) =>
          && KeysFrom(disk, frec, fsiz, p) == [k] + KeysFrom(disk, frec, fsiz, q)
          && p < q && (q in disk || q == fsiz) && JustBefore(disk, q, k)
    {
      hide Tiling, PoolOk, OnFile, Imaged, Halts, NextKey;
    }

    /** r is the first of the keys that were pending, and the others are pending now. */
    ghost predicate NextDelivered(r: Option<Bytes>, before: nat, pending: seq<Bytes>)
      reads this, pool
      requires AllocOk(0)
    {
      match r
      case Some(k) => pending == [k] + Pending() && before < iter && JustBefore(disk, iter, k)
      case None => pending == [] == Pending() && iter == fsiz
    }

    /** The loop of tchdbiternext. */
    method Deliver() returns (r: Option<Bytes>)
      requires Halts(image, iter) && fsiz == |image|
      modifies this`iter
      ensures (r, iter) == NextKey(image, old(iter))
    {
      hide DecodeTile, Size;
      while iter < fsiz
        invariant Halts(image, iter) && NextKey(image, iter) == NextKey(image, old(iter))
        decreases if iter < fsiz then fsiz - iter else 0
      {
        match DecodeTile(image[iter..])
        case Bad =>
          return None;
        case Good(t) =>
          iter := iter + Size(t);
          if t.Rec? {
            return Some(t.key);
          }
          FreeSize(t);
      }
      return None;
    }

    // ---------- closing and opening again ----------

    /** The order in which tchdbsavefbp saves: merged when the pool is more than half full, else
        sorted by offset. */
    method OrderPool()
      requires AllocOk(0)
      modifies this`fbpnum, this`fbpmis, pool
      ensures AllocOk(0) && PoolMerge.InOrder(pool[..fbpnum])
      ensures OrderedFrom(old(Entries()), old(fbpnum) > pool.Length / 2, pool[..fbpnum])
    {
      hide Tiling, PoolOk, OnFile, Imaged, PoolSort.Sorted, PoolMerge.MergePairs, PoolMerge.InOrder;
      if fbpnum > pool.Length / 2 {
        ghost var before := Entries();
        ghost var sorted := FbpMerge(0);
        PoolMerge.MergeKeepsPool(sorted, disk, fsiz, 0);
        assert MergedFrom(sorted, pool[..fbpnum]);
      } else {
        if fbpnum > 1 {
          PoolSort.Sort(pool, PoolSort.ByOff, fbpnum);
        } else {
          ShortIsSorted(pool[..fbpnum]);
        }
        PoolMerge.PoolInOrder(pool[..fbpnum], disk, fsiz, 0);
      }
    }

    /** tchdbsavefbp */
    method SaveFbp() returns (ghost saved: seq<Block>)
      requires AllocOk(0)
      modifies this`image, this`file, this`fbpnum, this`fbpmis, pool
      ensures AllocOk(0) && saved == pool[..fbpnum]
      ensures PoolMerge.InOrder(saved) && OrderedFrom(old(Entries()), old(fbpnum) > pool.Length / 2, saved)
      ensures PoolCodec.Savable(saved, 0)
      ensures SavedBytes(saved) <= image[PoolPlace()..PoolPlace() + PoolBytes(fpow)]
      ensures Keeps(old(Now()), Now(), 0, 0)
    {
      hide Entries, Pow2, Tiling, PoolOk, OnFile, Imaged, PoolMerge.InOrder, PoolCodec.Savable, PoolCodec.EncodePool,
        OrderedFrom;
      OrderPool();
      saved := pool[..fbpnum];
      EntriesAre();
      Savables(saved, disk, frec, fsiz);
      FrecPositive(disk, frec, fsiz);
      var buf := new Byte[PoolBytes(fpow)];
      var len := PoolCodec.SavePool(pool, fbpnum, buf);
      ghost var bytes := buf[..len];
      SaveImage(image, file, disk, frec, fsiz, PoolPlace(), bytes);
      RegionKeeps(file, disk, frec, fsiz);
      image := Splice(image, PoolPlace(), buf[..len]);
      file := FromRecords(file, frec);
      SavedInPlace(old(image), PoolPlace(), bytes, PoolBytes(fpow));
    }

    /** What tchdbsavefbp writes for the entries s. */
    ghost function SavedBytes(s: seq<Block>): Bytes
      requires PoolCodec.Savable(s, 0)
    {
      PoolCodec.EncodePool(s, 0, PoolBytes(fpow) - PoolCodec.SLACK) + [0, 0]
    }

    /** tchdbloadfbp */
    method LoadFbp(ghost saved: seq<Block>)
      requires AllocOk(0) && PoolCodec.Savable(saved, 0) && saved == pool[..fbpnum]
      requires SavedBytes(saved) <= image[PoolPlace()..PoolPlace() + PoolBytes(fpow)]
      modifies this`fbpnum, this`fbpmis, pool
      ensures AllocOk(0) && fbpmis == 0
      ensures pool[..fbpnum] == saved[..PoolCodec.SavedCount(saved, 0, PoolBytes(fpow) - PoolCodec.SLACK)]
    {
      hide Pow2, Tiling, PoolOk, OnFile, Imaged, PoolCodec.Savable, PoolCodec.EncodePool, PoolCodec.DecodePool,
        PoolCodec.SavedCount, PoolCodec.Readable;
      FrecPositive(disk, frec, fsiz);
      var place := image[PoolPlace()..PoolPlace() + PoolBytes(fpow)];
      var buf := new Byte[|place|](i requires 0 <= i < |place| => place[i]);
      assert buf[..] == place;
      ghost var count := PoolCodec.SavedCount(saved, 0, PoolBytes(fpow) - PoolCodec.SLACK);
      SavedReadsBack(saved, PoolBytes(fpow) - PoolCodec.SLACK, place, pool.Length);
      fbpnum := PoolCodec.LoadPool(buf, pool);
      TakeSome(saved, count);
      PoolShrinks(multiset(saved), multiset(saved[..count]), disk, fsiz, 0);
      fbpmis := 0;
    }

    /** tchdbclose followed by tchdbopen: the dictionary survives, and the pool comes back as the
        saved prefix of its ordered entries. */
    method Reopen() returns (ghost saved: seq<Block>)
      requires Valid()
      modifies this, pool
      ensures Valid() && dict == old(dict) && rnum == old(rnum) && fsiz == old(fsiz)
      ensures disk == old(disk) && trees == old(trees) && iter == old(iter) && (old(Readable()) ==> Readable())
      ensures PoolMerge.InOrder(saved) && OrderedFrom(old(Entries()), old(fbpnum) > pool.Length / 2, saved)
      ensures PoolCodec.Savable(saved, 0)
      ensures pool[..fbpnum] == saved[..PoolCodec.SavedCount(saved, 0, PoolBytes(fpow) - PoolCodec.SLACK)]
    {
      hide Tiling, PoolOk, OnFile, Imaged, ForestOk, DictOk, PoolMerge.InOrder, PoolCodec.Savable,
        PoolCodec.EncodePool, PoolCodec.SavedCount, OrderedFrom;
      saved := SaveFbp();
      LoadFbp(saved);
    }
  }
}
