/** Where a put finds room and what it leaves in place: the steps of tchdbwriterec and the pool
    (lib/libdict/tchdb.c:1331-1375, 1443-1557, 1564-1610) as facts about values. */
module PutSteps {
  import opened KeyOrder
  import opened Tiles
  import opened Layout
  import opened FreePool
  import opened Allocator
  import opened BucketTree
  import opened Forest
  import opened Iteration
  import opened Leading
  import opened Placement
  import opened PoolSteps
  import opened StoreSteps
  import PoolMerge

  predicate StandsOnKey(disk: Disk, p: nat, key: Bytes) { p in disk && disk[p].Rec? && disk[p].key == key }

  /** The record of key fills b. */
  predicate RecordIn(disk: Disk, b: Block, key: Bytes) { StandsOnKey(disk, b.off, key) && Size(disk[b.off]) == b.rsiz }

  /** The record of key is on the disk and its tile is large enough for the new value. */
  ghost predicate InPlace(disk: Disk, key: Bytes, value: Bytes) {
    exists o :: StandsOnKey(disk, o, key) && Need(key, value) <= Size(disk[o])
  }

  /** Every record of another key is where it was, and as large. */
  ghost predicate OthersStay(before: Disk, after: Disk, key: Bytes) {
    forall o :: o in before && before[o].Rec? && before[o].key != key ==>
      StandsOnKey(after, o, before[o].key) && Size(after[o]) == Size(before[o])
  }

  /** No record of another key starts at p or between p and q. */
  ghost predicate Skippable(disk: Disk, p: nat, q: nat, key: Bytes) {
    forall o :: o in disk && p <= o < q && disk[o].Rec? ==> disk[o].key == key
  }

  /** The record of key ends at p. */
  ghost predicate JustBefore(disk: Disk, p: nat, key: Bytes) {
    exists o: nat :: StandsOnKey(disk, o, key) && o + Size(disk[o]) == p
  }

  /** The record at o is replaced: where the new one is, where the iterator stands, and what the pool
      was when another place was searched for. */
  ghost predicate PutOver(before: Disk, fsiz: nat, s: seq<Block>, searched: seq<Block>, o: nat, need: nat, room: nat,
    fpow: nat, iter: nat, place: Block, iter': nat)
    requires o in before
  {
    && place == Rewritten(fsiz, s, searched, o, Size(before[o]), need)
    && iter' == IterAfter(s, o, Size(before[o]), need, iter)
    && Moved(s, room, fpow, o, Size(before[o]), need, searched, fsiz)
  }

  lemma PutIsOver(before: Disk, fsiz: nat, s: seq<Block>, searched: seq<Block>, off: nat, key: Bytes, value: Bytes,
    room: nat, fpow: nat, iter: nat, place: Block, iter': nat)
    requires KeysDiffer(before) && StandsOnKey(before, off, key)
    requires PutOver(before, fsiz, s, searched, off, Need(key, value), room, fpow, iter, place, iter')
    ensures forall o :: StandsOnKey(before, o, key) ==>
      PutOver(before, fsiz, s, searched, o, Need(key, value), room, fpow, iter, place, iter')
  {
    hide Need, Size, PutOver;
  }

  lemma LinkedOthersStay(before: Disk, after: Disk, x: nat, slot: Slot, child: nat, key: Bytes)
    requires OneLink(before, after, x, slot, child) && (x in before && before[x].Rec? ==> before[x].key == key)
    ensures OthersStay(before, after, key)
  {
    hide Need;
  }

  lemma AbsentHasNoPlace(trees: seq<Tree>, bnum: nat, disk: Disk, dict: map<Bytes, Bytes>, key: Bytes)
    requires bnum > 0 && ForestOk(trees, bnum, disk) && DictOk(dict, trees, bnum) && key !in dict
    ensures forall o :: !StandsOnKey(disk, o, key)
  {
    hide ForestOk, DictOk, Need, Size;
    ForestHasKey(trees, bnum, disk, dict, key);
    forall o
      ensures !StandsOnKey(disk, o, key)
    {
      assert !(o in disk && o >= 0 && disk[o].Rec? && disk[o].key == key);
    }
  }

  lemma NothingSkipped(disk: Disk, p: nat, key: Bytes)
    ensures Skippable(disk, p, p, key)
  {
  }

  lemma SkippableBefore(disk: Disk, off: nat, n: nat, p: nat, q: nat, key: Bytes)
    requires StandsOnKey(disk, off, key) && Skippable(disk[off := Free(n)], p, q, key)
    ensures Skippable(disk, p, q, key)
  {
    forall o | o in disk && p <= o < q && disk[o].Rec?
      ensures disk[o].key == key
    {
      if o != off { assert disk[off := Free(n)][o] == disk[o]; }
    }
  }

  /** A pool entry holds no record. */
  lemma EntryIsFree(entries: multiset<Block>, disk: Disk, fsiz: nat, pend: nat, b: Block, key: Bytes)
    requires PoolOk(entries, disk, fsiz, pend) && b in entries
    ensures Skippable(disk, b.off, EndOf(b), key)
  {
    assert IsRun(disk, fsiz, pend, b);
  }

  lemma FreeTileThere(disk: Disk, off: nat, n: nat)
    requires FreeAt(disk, off, n)
    ensures off in disk && disk[off].Free? && disk[off].rsiz == n
  {
  }

  /** The pool after key's record, wherever it is, is given up. */
  ghost predicate GivenUp(before: Disk, key: Bytes, s: seq<Block>, room: nat, fpow: nat, after: seq<Block>) {
    forall o :: StandsOnKey(before, o, key) ==> Inserted(s, room, fpow, Block(o, Size(before[o])), after)
  }

  lemma OnlyGivenUp(disk: Disk, off: nat, key: Bytes, s: seq<Block>, room: nat, fpow: nat, after: seq<Block>)
    requires KeysDiffer(disk) && StandsOnKey(disk, off, key)
    requires Inserted(s, room, fpow, Block(off, Size(disk[off])), after)
    ensures GivenUp(disk, key, s, room, fpow, after)
  {
    hide Size, Inserted;
  }

  // ---------- is there room ----------

  /** A record of `need` bytes that is to replace the one of `size` bytes at off finds room. */
  ghost predicate RoomAt(s: seq<Block>, room: nat, fpow: nat, off: nat, size: nat, need: nat) {
    need <= size || SpliceAt(s, off, size, need) < |s| || SearchFinds(s, room, fpow, need)
  }

  /** The record of key finds room without going to the end of the file. */
  ghost predicate HasRoom(disk: Disk, s: seq<Block>, room: nat, fpow: nat, key: Bytes, value: Bytes) {
    || (exists o :: StandsOnKey(disk, o, key) && RoomAt(s, room, fpow, o, Size(disk[o]), Need(key, value)))
    || ((forall o :: !StandsOnKey(disk, o, key)) && FirstLarger(s, MAX_HEADER + |key| + |value|) < |s|)
  }

  lemma RoomHere(s: seq<Block>, room: nat, fpow: nat, off: nat, size: nat, need: nat)
    ensures need <= size ==> RoomAt(s, room, fpow, off, size, need)
  {
  }

  lemma OnlyRoom(disk: Disk, off: nat, s: seq<Block>, room: nat, fpow: nat, key: Bytes, value: Bytes)
    requires KeysDiffer(disk) && StandsOnKey(disk, off, key)
    ensures HasRoom(disk, s, room, fpow, key, value) <==> RoomAt(s, room, fpow, off, Size(disk[off]), Need(key, value))
  {
    hide Need, Size, RoomAt, FirstLarger;
  }

  lemma NewRoom(disk: Disk, s: seq<Block>, room: nat, fpow: nat, key: Bytes, value: Bytes)
    requires forall o :: !StandsOnKey(disk, o, key)
    ensures HasRoom(disk, s, room, fpow, key, value) <==> FirstLarger(s, MAX_HEADER + |key| + |value|) < |s|
  {
    hide Need, Size, RoomAt, FirstLarger;
  }

  /** A record for which there is room is no longer than the file. */
  lemma ShortEnough(disk: Disk, frec: nat, fsiz: nat, s: seq<Block>, key: Bytes, value: Bytes)
    requires Tiling(disk, frec, fsiz) && PoolOk(multiset(s), disk, fsiz, 0) && fsiz <= FILE_LIMIT
    requires fsiz + Need(key, value) <= FILE_LIMIT || FirstLarger(s, MAX_HEADER + |key| + |value|) < |s|
    ensures |key| < FILE_LIMIT && |value| < FILE_LIMIT
  {
    hide Tiling, PoolOk, FirstLarger, Need;
    PoolWithin(s, disk, frec, fsiz, 0);
    NeedAtLeast(key, value);
    var i := FirstLarger(s, MAX_HEADER + |key| + |value|);
    if i < |s| { assert s[i] in s; }
  }

  lemma LargerIsFirst(s: seq<Block>, n: nat)
    ensures HasLarger(s, n) <==> FirstLarger(s, n) < |s|
  {
    hide FirstLarger;
    var i := FirstLarger(s, n);
    if i < |s| {
      assert s[i] in multiset(s);
    } else {
      forall b | b in multiset(s)
        ensures b.rsiz <= n
      {
        var j :| 0 <= j < |s| && s[j] == b;
      }
    }
  }

  /** Whether the search for another place will succeed is known before the old tile is given up. */
  lemma SearchWillFind(s: seq<Block>, room: nat, fpow: nat, b: Block, searched: seq<Block>, need: nat, disk: Disk,
    fsiz: nat, pend: nat)
    requires Inserted(s, room, fpow, b, searched) && b.rsiz <= need && (fpow >= 1 ==> room >= 2)
    requires PoolOk(multiset(s), disk, fsiz, pend)
    ensures FirstLarger(searched, need) < |searched| <==> SearchFinds(s, room, fpow, need)
  {
    hide Inserted, FirstLarger, PoolOk, SearchFinds, HasLarger, DistinctOffs;
    PoolDistinct(s, disk, fsiz, pend);
    InsertedLarger(s, room, fpow, b, searched, need);
    LargerIsFirst(searched, need);
  }

  // ---------- where room is found ----------

  /** What tchdbfbpsearch hands out of the pool s. */
  ghost predicate FoundRoom(s: seq<Block>, rsiz: nat, off: nat, size: nat) {
    var i := FirstLarger(s, rsiz);
    if i == |s| then size == 0 else size == Handed(s[i], rsiz) && size > 0 && off == s[i].off
  }

  lemma NoRoomFound(s: seq<Block>, rsiz: nat, off: nat)
    requires forall j :: 0 <= j < |s| ==> s[j].rsiz <= rsiz
    ensures FoundRoom(s, rsiz, off, 0)
  {
    hide FirstLarger;
    FirstIs(s, rsiz, |s|);
  }

  lemma ServedRoom(s: seq<Block>, i: nat, rsiz: nat, off: nat, size: nat, entries: multiset<Block>)
    requires Served(s, i, rsiz, off, size, entries) && size > 0
    ensures FoundRoom(s, rsiz, off, size)
  {
    hide FirstLarger;
    FirstIs(s, rsiz, i);
  }

  /** What tchdbfbpsplice does with the pool s. */
  ghost predicate Spliced(s: seq<Block>, off: nat, rsiz: nat, need: nat, ok: bool, size: nat) {
    var j := SpliceAt(s, off, rsiz, need);
    ok == (j < |s|) && (ok ==> size == rsiz + s[j].rsiz)
  }

  lemma NotSpliced(s: seq<Block>, off: nat, rsiz: nat, need: nat)
    requires forall j :: 0 <= j < |s| ==> !(s[j].off == off + rsiz && rsiz + s[j].rsiz >= need)
    ensures Spliced(s, off, rsiz, need, false, rsiz)
  {
    hide SpliceAt;
    SpliceIs(s, off, rsiz, need, |s|);
  }

  /** The room a record that has outgrown its tile gets. */
  ghost predicate MadeRoom(s: seq<Block>, searched: seq<Block>, off: nat, rsiz: nat, need: nat, noff: nat, nsiz: nat) {
    if SpliceAt(s, off, rsiz, need) < |s| then noff == off && Spliced(s, off, rsiz, need, true, nsiz)
    else FoundRoom(searched, need, noff, nsiz)
  }

  ghost predicate Within(s: seq<Block>, fsiz: nat) { forall b :: b in s ==> EndOf(b) <= fsiz }

  /** A record that moves finds the pool as giving up its tile has left it. */
  ghost predicate Moved(s: seq<Block>, room: nat, fpow: nat, off: nat, rsiz: nat, need: nat, searched: seq<Block>,
    fsiz: nat)
  {
    && Within(searched, fsiz)
    && (need > rsiz && SpliceAt(s, off, rsiz, need) == |s| ==> Inserted(s, room, fpow, Block(off, rsiz), searched))
  }

  lemma SearchIsMove(s: seq<Block>, room: nat, fpow: nat, off: nat, rsiz: nat, need: nat, searched: seq<Block>,
    fsiz: nat)
    requires Within(searched, fsiz) && Inserted(s, room, fpow, Block(off, rsiz), searched)
    ensures Moved(s, room, fpow, off, rsiz, need, searched, fsiz)
  {
    hide Inserted, Within;
  }

  lemma SpliceIsNoMove(s: seq<Block>, room: nat, fpow: nat, off: nat, rsiz: nat, need: nat, fsiz: nat)
    requires Within(s, fsiz) && (need <= rsiz || SpliceAt(s, off, rsiz, need) < |s|)
    ensures Moved(s, room, fpow, off, rsiz, need, s, fsiz)
  {
    hide Inserted, Within;
  }

  /** The entries of a sound pool end at boundaries of the file. */
  lemma PoolWithin(s: seq<Block>, disk: Disk, frec: nat, fsiz: nat, pend: nat)
    requires Tiling(disk, frec, fsiz) && PoolOk(multiset(s), disk, fsiz, pend)
    ensures Within(s, fsiz)
    ensures forall b :: b in s ==> b.rsiz > 0 && (EndOf(b) in disk || EndOf(b) == fsiz)
  {
    hide Tiling, Size;
    forall b | b in s
      ensures b.rsiz > 0 && (EndOf(b) in disk || EndOf(b) == fsiz) && EndOf(b) <= fsiz
    {
      assert b in multiset(s) && IsRun(disk, fsiz, pend, b);
      RunAligned(disk, frec, fsiz, pend, b);
    }
  }

  /** The record is written on the first call. */
  lemma FirstCall(fsiz: nat, s: seq<Block>, searched: seq<Block>, off: nat, rsiz: nat, need: nat, iter: nat)
    requires need <= rsiz
    ensures Rewritten(fsiz, s, searched, off, rsiz, need) == Block(off, Taken(off, rsiz, need))
    ensures IterAfter(s, off, rsiz, need, iter) == iter
  {
    hide SpliceAt, Taken;
  }

  /** The record is written on the second call, into the room made. */
  lemma SecondCall(fsiz: nat, s: seq<Block>, searched: seq<Block>, off: nat, rsiz: nat, need: nat, noff: nat, nsiz: nat)
    requires need > rsiz && MadeRoom(s, searched, off, rsiz, need, noff, nsiz)
    ensures nsiz == 0 && noff == fsiz ==>
      Rewritten(fsiz, s, searched, off, rsiz, need) == Block(noff, need + PadSize(fsiz + need))
    ensures nsiz > 0 ==> Rewritten(fsiz, s, searched, off, rsiz, need) == Block(noff, Taken(noff, nsiz, need))
  {
    hide SpliceAt, FirstLarger, Taken, PadSize, Handed;
  }

  /** A new record is written into the room found. */
  lemma InsertSettled(fsiz: nat, s: seq<Block>, rsiz: nat, need: nat, off: nat, size: nat)
    requires FoundRoom(s, rsiz, off, size)
    ensures size == 0 ==> Settled(fsiz, s, rsiz, need) == Block(fsiz, need + PadSize(fsiz + need))
    ensures size > 0 ==> Settled(fsiz, s, rsiz, need) == Block(off, Taken(off, size, need))
  {
    hide FirstLarger, Taken, PadSize, Handed;
  }

  // ---------- what readers keep ----------

  /** The bytes that are handed out for a record of about rsiz bytes and will all be its own: those of
      a divided entry. */
  function Given(rsiz: nat, off: nat, size: nat): nat { if size < rsiz + ALIGN then off + size else off }

  lemma TakeKeeps(entries: multiset<Block>, file: File, disk: Disk, frec: nat, fsiz: nat, b: Block, n: nat)
    requires Tiling(disk, frec, fsiz) && PoolOk(entries, disk, fsiz, 0) && OnFile(file, disk, 0)
    requires b in entries && 0 < n <= b.rsiz
    ensures Keeps(Shot(file, disk, fsiz), Shot(file, CarveDisk(disk, b.off, EndOf(b), n), fsiz),
                  b.off, if n < b.rsiz then b.off + n else b.off)
  {
    hide Tiling, PoolOk, OnFile, IsRun, Keeps, AllLead, CarveDisk, NoneAcross;
    ClaimedIsApart(entries, disk, fsiz, b);
    RunIsBlock(disk, frec, fsiz, 0, b);
    RunAllLead(file, disk, frec, fsiz, 0, b);
    CarveKeeps(file, disk, fsiz, b, n);
  }

  lemma RunIsBlock(disk: Disk, frec: nat, fsiz: nat, pend: nat, b: Block)
    requires Tiling(disk, frec, fsiz) && IsRun(disk, fsiz, pend, b)
    ensures b.off in disk && EndOf(b) <= fsiz && NoneAcross(disk, b.off) && NoneAcross(disk, EndOf(b))
  {
    hide Tiling, NoneAcross;
    RunAligned(disk, frec, fsiz, pend, b);
    BoundaryOk(disk, frec, fsiz, b.off);
    BoundaryOk(disk, frec, fsiz, EndOf(b));
  }

  /** A pending tile and the entry behind it become one. */
  lemma EnlargeKeeps(entries: multiset<Block>, file: File, disk: Disk, frec: nat, fsiz: nat, off: nat, b: Block, n: nat)
    requires Tiling(disk, frec, fsiz) && PoolOk(entries, disk, fsiz, off) && OnFile(file, disk, off) && b in entries
    requires off in disk && disk[off].Free? && off + disk[off].rsiz == b.off && n == disk[off].rsiz + b.rsiz && n > 0
    ensures Keeps(Shot(file, disk, fsiz), Shot(file, CarveDisk(disk, off, off + n, n), fsiz), 0, 0)
  {
    hide Tiling, PoolOk, OnFile, IsRun, Keeps, AllLead, CarveDisk, NoneAcross, CanRead;
    EntryRun(entries, disk, fsiz, off, b);
    RunIsBlock(disk, frec, fsiz, off, b);
    BoundaryOk(disk, frec, fsiz, off);
    BothLead(file, disk, frec, fsiz, off, b);
    CarveKeeps(file, disk, fsiz, Block(off, n), n);
    KeepsWider(Shot(file, disk, fsiz), Shot(file, CarveDisk(disk, off, off + n, n), fsiz), off, off, 0, 0);
  }

  lemma EntryRun(entries: multiset<Block>, disk: Disk, fsiz: nat, pend: nat, b: Block)
    requires PoolOk(entries, disk, fsiz, pend) && b in entries
    ensures IsRun(disk, fsiz, pend, b)
  {
  }

  lemma BothLead(file: File, disk: Disk, frec: nat, fsiz: nat, off: nat, b: Block)
    requires Tiling(disk, frec, fsiz) && IsRun(disk, fsiz, off, b) && OnFile(file, disk, off)
    requires off in disk && disk[off].Free? && off + disk[off].rsiz == b.off
    ensures AllLead(file, disk, fsiz, Block(off, disk[off].rsiz + b.rsiz))
  {
    hide Tiling, OnFile, Leads, Aligned, IsRun, CanRead;
    RunAllLead(file, disk, frec, fsiz, off, b);
    forall p: nat | CanRead(Shot(file, disk, fsiz), p) && off < p < EndOf(b)
      ensures Aligned(p) && Leads(file, p, EndOf(b))
    {
      if p <= b.off {
        RunBegins(file, disk, frec, fsiz, off, b);
        InTile(file, disk, frec, fsiz, off, p);
        if p < b.off { LeadsOn(file, p, b.off, EndOf(b)); }
      }
    }
  }

  lemma RunBegins(file: File, disk: Disk, frec: nat, fsiz: nat, pend: nat, b: Block)
    requires Tiling(disk, frec, fsiz) && IsRun(disk, fsiz, pend, b) && OnFile(file, disk, pend)
    ensures Leads(file, b.off, EndOf(b)) && Aligned(b.off)
  {
    hide Tiling, OnFile, Leads;
    RunAligned(disk, frec, fsiz, pend, b);
    RunLeads(file, disk, frec, fsiz, pend, b, b.off);
  }

  /** Places inside one free tile lead to its end. */
  lemma InTile(file: File, disk: Disk, frec: nat, fsiz: nat, o: nat, p: nat)
    requires Tiling(disk, frec, fsiz) && CanRead(Shot(file, disk, fsiz), p)
    requires o in disk && disk[o].Free? && o < p <= o + disk[o].rsiz
    ensures p < o + disk[o].rsiz ==> Aligned(p) && Leads(file, p, o + disk[o].rsiz)
  {
    hide Tiling, Leads, Aligned;
    FreeSize(disk[o]);
    if p < o + disk[o].rsiz {
      NothingInside(disk, frec, fsiz, o, p);
      var q: nat :| InFree(disk, q, p) && Leads(file, p, q + disk[q].rsiz);
      FreeSize(disk[q]);
      if q != o { TilesApart(disk, frec, fsiz, o, q); }
    }
  }

  /** A pending tile is cut in two. */
  lemma CutKeeps(file: File, disk: Disk, frec: nat, fsiz: nat, off: nat, n: nat)
    requires Tiling(disk, frec, fsiz) && off in disk && disk[off].Free? && 0 < n < disk[off].rsiz
    ensures Keeps(Shot(file, disk, fsiz), Shot(file, CarveDisk(disk, off, off + disk[off].rsiz, n), fsiz), off, off + n)
  {
    hide Tiling, Keeps, CarveDisk, NoneAcross, CanRead, Leads, Aligned;
    var b := Block(off, disk[off].rsiz);
    FreeSize(disk[off]);
    NextTile(disk, frec, fsiz, off);
    BoundaryOk(disk, frec, fsiz, off);
    BoundaryOk(disk, frec, fsiz, EndOf(b));
    forall p: nat | CanRead(Shot(file, disk, fsiz), p) && b.off < p < EndOf(b)
      ensures Aligned(p) && Leads(file, p, EndOf(b))
    {
      InTile(file, disk, frec, fsiz, off, p);
    }
    CarveKeeps(file, disk, fsiz, b, n);
  }

  /** The front of an entry is handed out and the rest gets a header. */
  lemma DivideKeeps(entries: multiset<Block>, file: File, disk: Disk, frec: nat, fsiz: nat, b: Block, n: nat)
    requires Tiling(disk, frec, fsiz) && PoolOk(entries, disk, fsiz, 0) && OnFile(file, disk, 0)
    requires b in entries && 0 < n < b.rsiz && Tiling(CarveDisk(disk, b.off, EndOf(b), n), frec, fsiz)
    ensures var after := CarveDisk(disk, b.off, EndOf(b), n);
      Keeps(Shot(file, disk, fsiz), Shot(WriteTile(file, b.off + n, Free(b.rsiz - n)), after, fsiz), b.off, b.off + n)
  {
    hide Tiling, PoolOk, OnFile, Keeps, WriteTile;
    TakeKeeps(entries, file, disk, frec, fsiz, b, n);
    HeaderKeeps(file, disk, frec, fsiz, b, n);
    var after := CarveDisk(disk, b.off, EndOf(b), n);
    KeepsTrans(Shot(file, disk, fsiz), Shot(file, after, fsiz),
      Shot(WriteTile(file, b.off + n, Free(b.rsiz - n)), after, fsiz), b.off, b.off + n);
  }

  lemma HeaderKeeps(file: File, disk: Disk, frec: nat, fsiz: nat, b: Block, n: nat)
    requires 0 < n < b.rsiz && Tiling(CarveDisk(disk, b.off, EndOf(b), n), frec, fsiz)
    ensures var after := CarveDisk(disk, b.off, EndOf(b), n);
      Keeps(Shot(file, after, fsiz), Shot(WriteTile(file, b.off + n, Free(b.rsiz - n)), after, fsiz), b.off, b.off + n)
  {
    hide Tiling, Keeps, WriteTile;
    var after := CarveDisk(disk, b.off, EndOf(b), n);
    assert after[b.off + n] == Free(b.rsiz - n);
    WriteKeeps(file, after, frec, fsiz, b.off + n);
    KeepsWider(Shot(file, after, fsiz), Shot(WriteTile(file, b.off + n, Free(b.rsiz - n)), after, fsiz),
      0, 0, b.off, b.off + n);
  }

  /** The same for a pending tile. */
  lemma CutReads(file: File, disk: Disk, frec: nat, fsiz: nat, off: nat, n: nat)
    requires Tiling(disk, frec, fsiz) && off in disk && disk[off].Free? && 0 < n < disk[off].rsiz
    requires Tiling(CarveDisk(disk, off, off + disk[off].rsiz, n), frec, fsiz)
    ensures var size := disk[off].rsiz; var after := CarveDisk(disk, off, off + size, n);
      Keeps(Shot(file, disk, fsiz), Shot(WriteTile(file, off + n, Free(size - n)), after, fsiz), off, off + n)
  {
    hide Tiling, Keeps, WriteTile;
    var size := disk[off].rsiz;
    CutKeeps(file, disk, frec, fsiz, off, n);
    HeaderKeeps(file, disk, frec, fsiz, Block(off, size), n);
    var after := CarveDisk(disk, off, off + size, n);
    KeepsTrans(Shot(file, disk, fsiz), Shot(file, after, fsiz),
      Shot(WriteTile(file, off + n, Free(size - n)), after, fsiz), off, off + n);
  }

  /** A record is appended. */
  lemma AppendReads(file: File, disk: Disk, frec: nat, fsiz: nat, t: Tile)
    requires fsiz !in disk && Tiling(disk[fsiz := t], frec, fsiz + Size(t))
    ensures var after := disk[fsiz := t];
      Keeps(Shot(file, disk, fsiz), Shot(WriteTile(file, fsiz, t), after, fsiz + Size(t)), 0, 0)
  {
    hide Tiling, Keeps, WriteTile, Size;
    var after, end := disk[fsiz := t], fsiz + Size(t);
    AppendKeeps(file, disk, fsiz, t, end);
    WriteKeeps(file, after, frec, end, fsiz);
    KeepsTrans(Shot(file, disk, fsiz), Shot(file, after, end), Shot(WriteTile(file, fsiz, t), after, end), 0, 0);
  }

  /** A record fills a tile. */
  lemma FillReads(file: File, disk: Disk, frec: nat, fsiz: nat, off: nat, t: Tile)
    requires off in disk && Size(t) == Size(disk[off]) && Tiling(disk[off := t], frec, fsiz)
    ensures Keeps(Shot(file, disk, fsiz), Shot(WriteTile(file, off, t), disk[off := t], fsiz), off, off + Size(t))
  {
    hide Tiling, Keeps, WriteTile, Size;
    var after, end := disk[off := t], off + Size(t);
    FillKeeps(file, disk, fsiz, off, t);
    WriteKeeps(file, after, frec, fsiz, off);
    KeepsWider(Shot(file, after, fsiz), Shot(WriteTile(file, off, t), after, fsiz), 0, 0, off, end);
    KeepsTrans(Shot(file, disk, fsiz), Shot(file, after, fsiz), Shot(WriteTile(file, off, t), after, fsiz), off, end);
  }

  lemma RoomIsThere(s: seq<Block>, rsiz: nat, off: nat, size: nat)
    requires FoundRoom(s, rsiz, off, size) && FirstLarger(s, rsiz) < |s|
    ensures size > 0
  {
  }

  /** Room for about `asked` bytes is found and a record written there or, with no room, at the end:
      only the bytes of the record are taken from readers. */
  lemma KeepsInto(a: Shot, b: Shot, c: Shot, asked: nat, need: nat, off: nat, size: nat, taken: nat)
    requires Keeps(a, b, off, Given(asked, off, size)) && Keeps(b, c, off, off + taken)
    requires need <= asked <= need + MAX_HEADER
    requires size > 0 ==> need <= size && taken == Taken(off, size, need)
    ensures Keeps(a, c, off, off + taken)
  {
    hide Keeps, PadSize;
    KeepsWider(a, b, off, Given(asked, off, size), off, off + taken);
    KeepsTrans(a, b, c, off, off + taken);
  }

  /** The same for the second call, and for an iterator that was moved. */
  lemma KeepsBoth(a: Shot, b: Shot, c: Shot, need: nat, off: nat, size: nat, taken: nat, iter: nat)
    requires Keeps(a, b, off, Given(need, off, size)) && Keeps(b, c, off, off + taken)
    requires size > 0 ==> need <= size && taken == Taken(off, size, need)
    ensures Keeps(a, c, off, off + taken)
    ensures CanRead(b, iter) && iter == off + size && size > 0 ==> CanRead(c, iter)
  {
    KeepsInto(a, b, c, need, need, off, size, taken) by { hide Keeps; }
  }

  // ---------- where the record has landed ----------

  /** tchdbwriterec has been asked to write `need` bytes at off, into rsiz bytes or, with rsiz 0, at the
      end: where the record is, where the iterator stands, and what is kept for readers. */
  ghost predicate Landed(a: Shot, b: Shot, s: seq<Block>, searched: seq<Block>, off: nat, rsiz: nat, need: nat,
    iter: nat, iter': nat, key: Bytes, at: nat)
  {
    && StandsOnKey(b.disk, at, key) && Keeps(a, b, at, at + Size(b.disk[at]))
    && b.fsiz == (if at == a.fsiz then at + Size(b.disk[at]) else a.fsiz)
    && (iter' != iter ==> CanRead(b, iter'))
    && (rsiz == 0 ==> iter' == iter && Block(at, Size(b.disk[at])) == Block(off, need + PadSize(off + need)))
    && (rsiz > 0 ==>
          && iter' == IterAfter(s, off, rsiz, need, iter)
          && Block(at, Size(b.disk[at])) == Rewritten(a.fsiz, s, searched, off, rsiz, need))
  }

  lemma LandsAtEnd(a: Shot, b: Shot, s: seq<Block>, searched: seq<Block>, need: nat, iter: nat, key: Bytes)
    requires RecordIn(b.disk, Block(a.fsiz, need + PadSize(a.fsiz + need)), key) && Keeps(a, b, 0, 0)
    requires b.fsiz == a.fsiz + Size(b.disk[a.fsiz])
    ensures Landed(a, b, s, searched, a.fsiz, 0, need, iter, iter, key, a.fsiz)
  {
    hide Keeps, CanRead, Size, PadSize;
    KeepsWider(a, b, 0, 0, a.fsiz, a.fsiz + Size(b.disk[a.fsiz]));
  }

  lemma LandsHere(a: Shot, b: Shot, s: seq<Block>, searched: seq<Block>, off: nat, rsiz: nat, need: nat, iter: nat,
    key: Bytes)
    requires need <= rsiz && rsiz > 0 && RecordIn(b.disk, Block(off, Taken(off, rsiz, need)), key)
    requires Keeps(a, b, off, off + Taken(off, rsiz, need)) && b.fsiz == a.fsiz != off
    ensures Landed(a, b, s, searched, off, rsiz, need, iter, iter, key, off)
  {
    hide Keeps, CanRead, Size, Taken, Rewritten, IterAfter;
    FirstCall(a.fsiz, s, searched, off, rsiz, need, iter);
  }

  lemma LandsSecond(a: Shot, b: Shot, c: Shot, s: seq<Block>, searched: seq<Block>, s2: seq<Block>, rest: seq<Block>,
    off: nat, rsiz: nat, need: nat, noff: nat, nsiz: nat, iter: nat, iter2: nat, iter': nat, key: Bytes, at: nat)
    requires need > rsiz > 0 && MadeRoom(s, searched, off, rsiz, need, noff, nsiz)
    requires nsiz == 0 ==> noff == b.fsiz
    requires nsiz > 0 ==> nsiz >= need
    requires Keeps(a, b, noff, Given(need, noff, nsiz)) && a.fsiz == b.fsiz
    requires iter2 == IterAfter(s, off, rsiz, need, iter)
    requires iter2 != iter ==> CanRead(b, iter2) && iter2 == noff + nsiz && nsiz > 0
    requires Landed(b, c, s2, rest, noff, nsiz, need, iter2, iter', key, at)
    ensures Landed(a, c, s, searched, off, rsiz, need, iter, iter', key, at)
  {
    hide Keeps, CanRead, Size, Taken, Rewritten, IterAfter, MadeRoom, PadSize;
    SecondCall(a.fsiz, s, searched, off, rsiz, need, noff, nsiz);
    if nsiz > 0 { FirstCall(b.fsiz, s2, rest, noff, nsiz, need, iter2); }
    KeepsBoth(a, b, c, need, noff, nsiz, Size(c.disk[at]), iter2);
  }

  lemma LandedOver(a: Shot, b: Shot, s: seq<Block>, searched: seq<Block>, off: nat, rsiz: nat, need: nat, iter: nat,
    iter': nat, key: Bytes, at: nat)
    requires Landed(a, b, s, searched, off, rsiz, need, iter, iter', key, at) && rsiz > 0
    ensures StandsOnKey(b.disk, at, key) && Keeps(a, b, at, at + Size(b.disk[at]))
    ensures (iter' != iter ==> CanRead(b, iter'))
    ensures b.fsiz == if at == a.fsiz then at + Size(b.disk[at]) else a.fsiz
    ensures iter' == IterAfter(s, off, rsiz, need, iter)
    ensures Block(at, Size(b.disk[at])) == Rewritten(a.fsiz, s, searched, off, rsiz, need)
  {
    hide Keeps, CanRead, Size, Rewritten, IterAfter;
  }

  /** A new record, in the room found for it or at the end. */
  lemma LandedNew(a: Shot, b: Shot, c: Shot, s: seq<Block>, s1: seq<Block>, searched: seq<Block>, asked: nat, off: nat,
    rsiz: nat, need: nat, iter: nat, iter': nat, key: Bytes, at: nat)
    requires FoundRoom(s, asked, off, rsiz) && need <= asked <= need + MAX_HEADER
    requires Keeps(a, b, off, Given(asked, off, rsiz)) && a.fsiz == b.fsiz
    requires rsiz == 0 ==> off == a.fsiz
    requires rsiz > 0 ==> rsiz >= need
    requires Landed(b, c, s1, searched, off, rsiz, need, iter, iter', key, at)
    ensures StandsOnKey(c.disk, at, key) && Keeps(a, c, at, at + Size(c.disk[at])) && iter' == iter
    ensures c.fsiz == if at == a.fsiz then at + Size(c.disk[at]) else a.fsiz
    ensures Block(at, Size(c.disk[at])) == Settled(a.fsiz, s, asked, need)
  {
    hide Keeps, CanRead, Size, Taken, Rewritten, IterAfter, FoundRoom, Settled, PadSize;
    InsertSettled(a.fsiz, s, asked, need, off, rsiz);
    if rsiz > 0 { FirstCall(b.fsiz, s1, searched, off, rsiz, need, iter); }
    KeepsInto(a, b, c, asked, need, off, rsiz, Size(c.disk[at]));
  }

  /** Overwriting a link. */
  lemma LinkReads(file: File, disk: Disk, frec: nat, fsiz: nat, slot: Slot, child: nat)
    requires !slot.Here? && slot.off in disk && disk[slot.off].Rec?
    requires Tiling(SetLink(disk, slot, child), frec, fsiz)
    ensures var after := SetLink(disk, slot, child);
      Keeps(Shot(file, disk, fsiz), Shot(WriteTile(file, slot.off, after[slot.off]), after, fsiz), 0, 0)
  {
    hide Tiling, WriteTile, CanRead, Keeps;
    var after := SetLink(disk, slot, child);
    RecordKeeps(file, disk, fsiz, slot.off, after[slot.off]);
    WriteKeeps(file, after, frec, fsiz, slot.off);
    var written := WriteTile(file, slot.off, after[slot.off]);
    KeepsTrans(Shot(file, disk, fsiz), Shot(file, after, fsiz), Shot(written, after, fsiz), 0, 0);
  }

  // ---------- saving ----------

  lemma {:induction false} RegionLeads(file: File, frec: nat, p: nat, end: nat)
    requires Leads(file, p, end) && frec <= p
    ensures Leads(FromRecords(file, frec), p, end)
    decreases if p < end then end - p else 0
  {
    if p != end { RegionLeads(file, frec, p + file[p].rsiz, end); }
  }

  lemma RegionKeeps(file: File, disk: Disk, frec: nat, fsiz: nat)
    requires Tiling(disk, frec, fsiz)
    ensures Keeps(Shot(file, disk, fsiz), Shot(FromRecords(file, frec), disk, fsiz), 0, 0)
  {
    hide Tiling, Leads, Aligned;
    forall p: nat | CanRead(Shot(file, disk, fsiz), p)
      ensures CanRead(Shot(FromRecords(file, frec), disk, fsiz), p)
    {
      if p !in disk && p != fsiz {
        var o: nat :| InFree(disk, o, p) && Leads(file, p, o + disk[o].rsiz);
        AfterFrec(disk, frec, fsiz, o);
        RegionLeads(file, frec, p, o + disk[o].rsiz);
      }
    }
  }
}
