/** What a put means to an iterator (lib/libdict/tchdb.c:557-583, 1233-1325): exactly when it can no
    longer read on, and what it has still to deliver. */
module PutChange {
  import opened KeyOrder
  import opened Tiles
  import opened FreePool
  import opened Allocator
  import opened BucketTree
  import opened Forest
  import opened Iteration
  import opened Leading
  import opened Placement
  import opened PoolSteps
  import opened StoreSteps
  import opened PutSteps

  /** A put writes its record over the iterator's place p: the place of a new record, or of one that
      replaces another, has p strictly inside. The pool is s, and `searched` when a record that has to
      move looks for a place. */
  ghost predicate PutCovers(disk: Disk, fsiz: nat, s: seq<Block>, searched: seq<Block>, key: Bytes, value: Bytes,
    p: nat) {
    || (exists o :: StandsOnKey(disk, o, key)
                 && RewriteCovers(fsiz, s, searched, o, Size(disk[o]), Need(key, value), p))
    || ((forall o :: !StandsOnKey(disk, o, key))
        && Covers(Settled(fsiz, s, MAX_HEADER + |key| + |value|, Need(key, value)), p))
  }

  predicate RewriteCovers(fsiz: nat, s: seq<Block>, searched: seq<Block>, off: nat, size: nat, need: nat, p: nat) {
    Covers(Rewritten(fsiz, s, searched, off, size, need), IterAfter(s, off, size, need, p))
  }

  /** The record of key has to move: its tile is too small, and so is what can be spliced to it. */
  ghost predicate Relocates(disk: Disk, s: seq<Block>, key: Bytes, value: Bytes) {
    exists o :: StandsOnKey(disk, o, key) && Need(key, value) > Size(disk[o])
             && SpliceAt(s, o, Size(disk[o]), Need(key, value)) == |s|
  }

  /** The iterator is not between two free tiles, or the new value fits into the old tile. */
  ghost predicate PutIsSafe(disk: Disk, frec: nat, fsiz: nat, p: nat, key: Bytes, value: Bytes) {
    || p == frec || p == fsiz
    || (p in disk && disk[p].Rec?)
    || (exists o: nat :: o in disk && disk[o].Rec? && o + Size(disk[o]) == p)
    || InPlace(disk, key, value)
  }

  /** The state before and after a put, as far as the iterator is concerned. */
  datatype Change = Change(
    was: Shot, iter: nat, s: seq<Block>, searched: seq<Block>,
    now: Shot, iter': nat, at: nat, room: nat, fpow: nat)

  /** Where the record is now. */
  ghost function Place(c: Change): Block
    requires c.at in c.now.disk
  {
    Block(c.at, Size(c.now.disk[c.at]))
  }

  ghost predicate Replaced(c: Change, o: nat, key: Bytes, value: Bytes)
    requires c.at in c.now.disk && o in c.was.disk
  {
    PutOver(c.was.disk, c.was.fsiz, c.s, c.searched, o, Need(key, value), c.room, c.fpow, c.iter, Place(c), c.iter')
  }

  /** What tchdbput promises about it. */
  ghost predicate IsPut(c: Change, key: Bytes, value: Bytes) {
    && StandsOnKey(c.now.disk, c.at, key) && Keeps(c.was, c.now, c.at, EndOf(Place(c)))
    && (c.iter' != c.iter ==> CanRead(c.now, c.iter'))
    && ((forall o :: !StandsOnKey(c.was.disk, o, key)) ==>
          && c.iter' == c.iter
          && Place(c) == Settled(c.was.fsiz, c.s, MAX_HEADER + |key| + |value|, Need(key, value)))
    && (forall o :: StandsOnKey(c.was.disk, o, key) ==>
          Replaced(c, o, key, value))
  }

  lemma KnownChange(c: Change, key: Bytes, value: Bytes, dict: map<Bytes, Bytes>)
    requires KeyAtOrAfter(c.was.disk, 0, key) <==> key in dict
    requires StandsOnKey(c.now.disk, c.at, key) && Keeps(c.was, c.now, c.at, c.at + Size(c.now.disk[c.at]))
    requires c.iter' != c.iter ==> CanRead(c.now, c.iter')
    requires key !in dict ==> c.iter' == c.iter
    requires key !in dict ==> Place(c) == Settled(c.was.fsiz, c.s, MAX_HEADER + |key| + |value|, Need(key, value))
    requires forall o :: StandsOnKey(c.was.disk, o, key) ==>
      PutOver(c.was.disk, c.was.fsiz, c.s, c.searched, o, Need(key, value), c.room, c.fpow, c.iter, Place(c), c.iter')
    ensures IsPut(c, key, value)
    ensures forall o :: StandsOnKey(c.was.disk, o, key) ==>
      Moved(c.s, c.room, c.fpow, o, Size(c.was.disk[o]), Need(key, value), c.searched, c.was.fsiz)
  {
    hide Settled, Need, Size, Rewritten, IterAfter, Moved, Keeps, CanRead;
    if key in dict {
      var o :| o in c.was.disk && c.was.disk[o].Rec? && c.was.disk[o].key == key;
      assert StandsOnKey(c.was.disk, o, key);
    }
  }

  // ---------- the exact condition ----------

  /** The iterator can read on if and only if it is not inside the record written. */
  lemma ChangeReads(c: Change, frec: nat, key: Bytes, value: Bytes)
    requires Tiling(c.now.disk, frec, c.now.fsiz) && IsPut(c, key, value) && CanRead(c.was, c.iter)
    ensures CanRead(c.now, c.iter') <==> !Covers(Place(c), c.iter')
  {
    hide Tiling, Settled, Need, Size, PutOver, CanRead;
    if Covers(Place(c), c.iter') {
      InRecord(c.now.file, c.now.disk, frec, c.now.fsiz, c.at, c.iter');
    }
  }

  /** Whether it is can be told from the tiles and the pool before the put. */
  lemma ChangeCovers(c: Change, key: Bytes, value: Bytes)
    requires IsPut(c, key, value) && KeysDiffer(c.was.disk)
    ensures Covers(Place(c), c.iter') <==> PutCovers(c.was.disk, c.was.fsiz, c.s, c.searched, key, value, c.iter)
  {
    hide Settled, Need, Size, Rewritten, IterAfter, Moved, Keeps, CanRead, Covers;
    if o :| StandsOnKey(c.was.disk, o, key) {
      assert Replaced(c, o, key, value);
    }
  }

  /** Unless the record has to move while the pool is full, the pool before the put decides. */
  lemma ChangeBefore(c: Change, key: Bytes, value: Bytes)
    requires IsPut(c, key, value) && |c.s| <= c.room
    requires !(Relocates(c.was.disk, c.s, key, value) && |c.s| == c.room)
    ensures PutCovers(c.was.disk, c.was.fsiz, c.s, c.searched, key, value, c.iter) <==>
            PutCovers(c.was.disk, c.was.fsiz, c.s, c.s, key, value, c.iter)
  {
    hide Size, Need, SpliceAt, Settled, IterAfter, Covers, Keeps, CanRead, Taken;
    forall o | StandsOnKey(c.was.disk, o, key)
      ensures RewriteCovers(c.was.fsiz, c.s, c.searched, o, Size(c.was.disk[o]), Need(key, value), c.iter) <==>
              RewriteCovers(c.was.fsiz, c.s, c.s, o, Size(c.was.disk[o]), Need(key, value), c.iter)
    {
      var size, need := Size(c.was.disk[o]), Need(key, value);
      assert Replaced(c, o, key, value);
      if need > size && SpliceAt(c.s, o, size, need) == |c.s| {
        SmallEntry(c.was.fsiz, c.s, Block(o, size), need, need);
      }
    }
  }

  // ---------- when nothing can happen ----------

  /** All of s is between frec and fsiz, not empty, and shares no byte with a record, but for a block
      that is the record of key itself. */
  ghost predicate OffRecords(disk: Disk, frec: nat, fsiz: nat, s: seq<Block>) {
    && (forall b :: b in s ==> (frec <= b.off || EndOf(b) == 0) && EndOf(b) <= fsiz)
    && (forall b, o :: b in s && o in disk && disk[o].Rec? ==>
          b == Block(o, Size(disk[o])) || Apart(Block(o, Size(disk[o])), b))
  }

  lemma PoolOffRecords(disk: Disk, frec: nat, fsiz: nat, s: seq<Block>)
    requires Tiling(disk, frec, fsiz) && PoolOk(multiset(s), disk, fsiz, 0)
    ensures OffRecords(disk, frec, fsiz, s)
  {
    hide Tiling, Size, Apart;
    forall b | b in s
      ensures frec <= b.off && EndOf(b) <= fsiz
      ensures forall o :: o in disk && disk[o].Rec? ==> Apart(Block(o, Size(disk[o])), b)
    {
      assert b in multiset(s) && IsRun(disk, fsiz, 0, b);
      RunAligned(disk, frec, fsiz, 0, b);
      AfterFrec(disk, frec, fsiz, b.off);
      forall o | o in disk && disk[o].Rec?
        ensures Apart(Block(o, Size(disk[o])), b)
      {
        OutsideRuns(multiset(s), disk, frec, fsiz, 0, o);
      }
    }
  }

  /** Giving up the record of key keeps that. */
  lemma InsertedOffRecords(disk: Disk, frec: nat, fsiz: nat, s: seq<Block>, room: nat, fpow: nat, x: nat,
    searched: seq<Block>)
    requires Tiling(disk, frec, fsiz) && PoolOk(multiset(s), disk, fsiz, 0) && x in disk && disk[x].Rec?
    requires Inserted(s, room, fpow, Block(x, Size(disk[x])), searched) && Within(searched, fsiz)
    ensures OffRecords(disk, frec, fsiz, searched)
  {
    hide Tiling, Size, PoolOk, Inserted, Apart;
    var b := Block(x, Size(disk[x]));
    PoolOffRecords(disk, frec, fsiz, s);
    PoolWithin(s, disk, frec, fsiz, 0);
    FrecPositive(disk, frec, fsiz);
    forall o | o in disk && disk[o].Rec?
      ensures forall c :: c in multiset(searched) ==> c == Block(o, Size(disk[o])) || Apart(Block(o, Size(disk[o])), c)
    {
      RecordApart(multiset(s), disk, frec, fsiz, o, x);
      InsertedApart(s, room, fpow, b, searched, Block(o, Size(disk[o])));
    }
    HeaderApart(disk, frec, fsiz, s, x);
    InsertedApart(s, room, fpow, b, searched, Block(0, frec));
    AfterFrec(disk, frec, fsiz, x);
    forall c | c in searched
      ensures (frec <= c.off || EndOf(c) == 0) && EndOf(c) <= fsiz
    {
      assert c in multiset(searched);
      BehindHeader(c, frec);
    }
  }

  lemma RecordApart(entries: multiset<Block>, disk: Disk, frec: nat, fsiz: nat, o: nat, x: nat)
    requires Tiling(disk, frec, fsiz) && PoolOk(entries, disk, fsiz, 0)
    requires o in disk && disk[o].Rec? && x in disk && disk[x].Rec?
    ensures Size(disk[o]) > 0 && (o == x || Apart(Block(o, Size(disk[o])), Block(x, Size(disk[x]))))
    ensures forall c :: c in entries ==> Apart(Block(o, Size(disk[o])), c) && c.rsiz > 0
  {
    hide Tiling, Size;
    NextTile(disk, frec, fsiz, o);
    OutsideRuns(entries, disk, frec, fsiz, 0, o);
    if o != x { TilesApart(disk, frec, fsiz, o, x); }
  }

  lemma HeaderApart(disk: Disk, frec: nat, fsiz: nat, s: seq<Block>, x: nat)
    requires Tiling(disk, frec, fsiz) && PoolOk(multiset(s), disk, fsiz, 0) && x in disk
    ensures Apart(Block(0, frec), Block(x, Size(disk[x])))
    ensures forall c :: c in multiset(s) ==> Apart(Block(0, frec), c) && c.rsiz > 0
  {
    hide Tiling, Size;
    AfterFrec(disk, frec, fsiz, x);
    forall c | c in multiset(s)
      ensures Apart(Block(0, frec), c) && c.rsiz > 0
    {
      assert IsRun(disk, fsiz, 0, c);
      AfterFrec(disk, frec, fsiz, c.off);
    }
  }

  lemma BehindHeader(c: Block, frec: nat)
    requires Apart(Block(0, frec), c)
    ensures frec <= c.off || EndOf(c) == 0
  {
  }

  /** A place that is not between two free tiles is inside no such block. */
  lemma SafePlace(disk: Disk, frec: nat, fsiz: nat, s: seq<Block>, b: Block, p: nat)
    requires OffRecords(disk, frec, fsiz, s) && b in s
    requires || p == frec || p == fsiz || (p in disk && disk[p].Rec?)
             || (exists o: nat :: o in disk && disk[o].Rec? && o + Size(disk[o]) == p)
    requires forall o :: o in disk ==> Size(disk[o]) > 0
    ensures !Covers(b, p)
  {
    hide Size;
    if p in disk && disk[p].Rec? {
      assert b == Block(p, Size(disk[p])) || Apart(Block(p, Size(disk[p])), b);
    } else if o: nat :| o in disk && disk[o].Rec? && o + Size(disk[o]) == p {
      assert b == Block(o, Size(disk[o])) || Apart(Block(o, Size(disk[o])), b);
    }
  }

  lemma SettledSafe(disk: Disk, frec: nat, fsiz: nat, s: seq<Block>, rsiz: nat, need: nat, p: nat)
    requires OffRecords(disk, frec, fsiz, s) && p <= fsiz && 15 <= rsiz
    requires || p == frec || p == fsiz || (p in disk && disk[p].Rec?)
             || (exists o: nat :: o in disk && disk[o].Rec? && o + Size(disk[o]) == p)
    requires forall o :: o in disk ==> Size(disk[o]) > 0
    ensures !Covers(Settled(fsiz, s, rsiz, need), p)
  {
    hide Size, OffRecords, FirstLarger, PadSize, Handed;
    var i := FirstLarger(s, rsiz);
    if i < |s| {
      assert s[i] in s;
      SafePlace(disk, frec, fsiz, s, s[i], p);
      HandedFits(s[i], rsiz);
    }
  }

  /** A put never writes its record over an iterator that is not between two free tiles, or when the
      new value fits into the old tile. */
  lemma SafeChange(c: Change, frec: nat, key: Bytes, value: Bytes)
    requires Tiling(c.was.disk, frec, c.was.fsiz) && PoolOk(multiset(c.s), c.was.disk, c.was.fsiz, 0)
    requires KeysDiffer(c.was.disk) && IsPut(c, key, value) && CanRead(c.was, c.iter)
    requires PutIsSafe(c.was.disk, frec, c.was.fsiz, c.iter, key, value)
    ensures !PutCovers(c.was.disk, c.was.fsiz, c.s, c.searched, key, value, c.iter)
  {
    hide Tiling, PoolOk, Size, Need, Settled, RewriteCovers, CanRead, Keeps, InPlace, PutOver, KeysDiffer;
    TilesNotEmpty(c.was.disk, frec, c.was.fsiz);
    ReadInFile(c.was, frec, c.iter);
    PoolOffRecords(c.was.disk, frec, c.was.fsiz, c.s);
    NeedWithin(key, value);
    if o :| StandsOnKey(c.was.disk, o, key) {
      SafeRewrite(c, frec, key, value, o);
      OnlyOne(c, key, value, o);
    } else {
      if InPlace(c.was.disk, key, value) { NotInPlace(c.was.disk, key, value); }
      SettledSafe(c.was.disk, frec, c.was.fsiz, c.s, MAX_HEADER + |key| + |value|, Need(key, value), c.iter);
    }
  }

  lemma NotInPlace(disk: Disk, key: Bytes, value: Bytes)
    requires forall o :: !StandsOnKey(disk, o, key)
    ensures !InPlace(disk, key, value)
  {
  }

  lemma OnlyOne(c: Change, key: Bytes, value: Bytes, o: nat)
    requires KeysDiffer(c.was.disk) && StandsOnKey(c.was.disk, o, key)
    requires !RewriteCovers(c.was.fsiz, c.s, c.searched, o, Size(c.was.disk[o]), Need(key, value), c.iter)
    ensures !PutCovers(c.was.disk, c.was.fsiz, c.s, c.searched, key, value, c.iter)
  {
    hide RewriteCovers, Size, Need, Settled;
  }

  lemma TilesNotEmpty(disk: Disk, frec: nat, fsiz: nat)
    requires Tiling(disk, frec, fsiz)
    ensures forall o :: o in disk ==> Size(disk[o]) > 0
  {
    hide Tiling, Size;
    forall o | o in disk
      ensures Size(disk[o]) > 0
    {
      NextTile(disk, frec, fsiz, o);
    }
  }

  lemma ReadInFile(a: Shot, frec: nat, p: nat)
    requires Tiling(a.disk, frec, a.fsiz) && CanRead(a, p)
    ensures p <= a.fsiz
  {
    hide Tiling, Leads;
    if p in a.disk {
      NextTile(a.disk, frec, a.fsiz, p);
    } else if p != a.fsiz {
      var o: nat :| InFree(a.disk, o, p);
      NextTile(a.disk, frec, a.fsiz, o);
    }
  }

  lemma NeedWithin(key: Bytes, value: Bytes)
    ensures Need(key, value) >= 14
  {
  }

  lemma SafeRewrite(c: Change, frec: nat, key: Bytes, value: Bytes, o: nat)
    requires Tiling(c.was.disk, frec, c.was.fsiz) && PoolOk(multiset(c.s), c.was.disk, c.was.fsiz, 0)
    requires KeysDiffer(c.was.disk) && IsPut(c, key, value) && CanRead(c.was, c.iter)
    requires PutIsSafe(c.was.disk, frec, c.was.fsiz, c.iter, key, value) && StandsOnKey(c.was.disk, o, key)
    ensures !RewriteCovers(c.was.fsiz, c.s, c.searched, o, Size(c.was.disk[o]), Need(key, value), c.iter)
  {
    hide Tiling, PoolOk, Size, Need, Settled, CanRead, Keeps, SpliceAt, OffRecords, InPlace, PutIsSafe, Inserted;
    var disk, fsiz, size, need := c.was.disk, c.was.fsiz, Size(c.was.disk[o]), Need(key, value);
    assert Replaced(c, o, key, value);
    TilesNotEmpty(disk, frec, fsiz);
    ReadInFile(c.was, frec, c.iter);
    if o < c.iter < o + size {
      InRecord(c.was.file, disk, frec, fsiz, o, c.iter);
    } else if need > size {
      NotBetween(disk, frec, fsiz, c.iter, key, value, o);
      var j := SpliceAt(c.s, o, size, need);
      if j < |c.s| {
        assert c.s[j] in c.s;
        PoolOffRecords(disk, frec, fsiz, c.s);
        SafePlace(disk, frec, fsiz, c.s, c.s[j], c.iter);
      } else {
        AtLeastOneUnit(disk, frec, fsiz, o);
        InsertedOffRecords(disk, frec, fsiz, c.s, c.room, c.fpow, o, c.searched);
        SettledSafe(disk, frec, fsiz, c.searched, need, need, c.iter);
      }
    }
  }

  lemma NotBetween(disk: Disk, frec: nat, fsiz: nat, p: nat, key: Bytes, value: Bytes, o: nat)
    requires KeysDiffer(disk) && PutIsSafe(disk, frec, fsiz, p, key, value)
    requires StandsOnKey(disk, o, key) && Need(key, value) > Size(disk[o])
    ensures || p == frec || p == fsiz || (p in disk && disk[p].Rec?)
            || (exists o: nat :: o in disk && disk[o].Rec? && o + Size(disk[o]) == p)
  {
    hide Need, Size;
  }

  lemma JustFetched(disk: Disk, frec: nat, fsiz: nat, p: nat, key: Bytes, value: Bytes)
    requires JustBefore(disk, p, key)
    ensures PutIsSafe(disk, frec, fsiz, p, key, value)
  {
    hide Size, Need, InPlace;
  }

  // ---------- what is still to come ----------

  /** Records that stay where they were are ahead of the iterator as before. */
  lemma SameAhead(before: Disk, after: Disk, p: nat, q: nat, key: Bytes, at: nat, k: Bytes)
    requires OthersStay(before, after, key) && KeysDiffer(after) && p <= q && Skippable(before, p, q, key)
    requires k == key ==> StandsOnKey(before, at, key) && StandsOnKey(after, at, key) && q == p && KeysDiffer(before)
    requires k != key && KeyAtOrAfter(after, 0, k) ==> KeyAtOrAfter(before, 0, k)
    ensures KeyAtOrAfter(after, q, k) <==> KeyAtOrAfter(before, p, k)
  {
    hide Size, Need;
    forall o | o in before && before[o].Rec? && before[o].key == k
      ensures StandsOnKey(after, o, k)
    {
    }
  }

  /** A record that fits into its tile is rewritten there, and the iterator stays. */
  lemma InPlaceStays(c: Change, key: Bytes, value: Bytes)
    requires IsPut(c, key, value) && InPlace(c.was.disk, key, value)
    ensures c.iter' == c.iter && StandsOnKey(c.was.disk, c.at, key)
  {
    hide Size, Need, Settled, Moved, SpliceAt, Keeps, CanRead, Taken;
    var o :| StandsOnKey(c.was.disk, o, key) && Need(key, value) <= Size(c.was.disk[o]);
    assert Replaced(c, o, key, value);
  }

  /** Every other key is still to come exactly if it was, and none comes twice. */
  lemma StillPending(c: Change, frec: nat, bnum: nat, trees: seq<Tree>, dict: map<Bytes, Bytes>, trees': seq<Tree>,
    dict': map<Bytes, Bytes>, key: Bytes, value: Bytes)
    requires bnum > 0 && ForestOk(trees, bnum, c.was.disk) && DictOk(dict, trees, bnum)
    requires ForestOk(trees', bnum, c.now.disk) && DictOk(dict', trees', bnum)
    requires Tiling(c.was.disk, frec, c.was.fsiz) && Tiling(c.now.disk, frec, c.now.fsiz)
    requires dict' == dict[key := value] && IsPut(c, key, value) && OthersStay(c.was.disk, c.now.disk, key)
    requires c.iter <= c.iter' && Skippable(c.was.disk, c.iter, c.iter', key)
    ensures NoDuplicates(KeysFrom(c.now.disk, frec, c.now.fsiz, c.iter'))
    ensures forall k :: k != key || InPlace(c.was.disk, key, value) ==>
      (k in KeysFrom(c.now.disk, frec, c.now.fsiz, c.iter') <==> k in KeysFrom(c.was.disk, frec, c.was.fsiz, c.iter))
  {
    hide Tiling, ForestOk, DictOk, KeysFrom, InPlace, OthersStay, NoDuplicates, KeysDiffer, KeyAtOrAfter, Skippable,
      IsPut, Need;
    var was, now := c.was.disk, c.now.disk;
    ForestKeysDiffer(trees, bnum, was);
    ForestKeysDiffer(trees', bnum, now);
    KeysFromOnce(now, frec, c.now.fsiz, c.iter');
    PutStands(c, key, value);
    if InPlace(was, key, value) { InPlaceStays(c, key, value); }
    forall k | k != key || InPlace(was, key, value)
      ensures k in KeysFrom(now, frec, c.now.fsiz, c.iter') <==> k in KeysFrom(was, frec, c.was.fsiz, c.iter)
    {
      KeysFromHasAll(was, frec, c.was.fsiz, c.iter, k);
      KeysFromHasAll(now, frec, c.now.fsiz, c.iter', k);
      ForestHasKey(trees, bnum, was, dict, k);
      ForestHasKey(trees', bnum, now, dict', k);
      SameAhead(was, now, c.iter, c.iter', key, c.at, k);
    }
  }

  lemma PutStands(c: Change, key: Bytes, value: Bytes)
    requires IsPut(c, key, value)
    ensures StandsOnKey(c.now.disk, c.at, key)
  {
    hide Need, Size, Settled, Keeps, CanRead, PutOver;
  }
}
