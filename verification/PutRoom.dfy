/** When a put is possible: exactly when its record, at the place the rules of reuse give it, ends below
    2^31 bytes (lib/libdict/tchdb.c:1299-1319, 1443-1557). */
module PutRoom {
  import opened KeyOrder
  import opened Tiles
  import opened FreePool
  import opened Allocator
  import opened Forest
  import opened Iteration
  import opened Placement
  import opened PoolSteps
  import opened StoreSteps
  import opened PutSteps
  import opened HashDb

  lemma SettledBelow(fsiz: nat, s: seq<Block>, asked: nat, need: nat)
    requires Within(s, fsiz) && fsiz <= FILE_LIMIT && 15 <= asked && need <= asked
    ensures EndOf(Settled(fsiz, s, asked, need)) <= FILE_LIMIT <==>
      FirstLarger(s, asked) < |s| || fsiz + need + PadSize(fsiz + need) <= FILE_LIMIT
  {
    var i := FirstLarger(s, asked);
    if i < |s| {
      SettledInEntry(fsiz, s, asked, need, i);
      assert s[i] in s;
    }
  }

  lemma EnoughAsked(key: Bytes, value: Bytes)
    ensures 15 <= MAX_HEADER + |key| + |value| && 14 <= Need(key, value)
    ensures |key| < FILE_LIMIT && |value| < FILE_LIMIT ==> Need(key, value) <= MAX_HEADER + |key| + |value|
  {
    hide Need;
    if |key| < FILE_LIMIT && |value| < FILE_LIMIT { NeedBound(key, value); }
  }

  /** A record too long for the file is larger than every entry and does not fit behind the end. */
  lemma TooLong(fsiz: nat, s: seq<Block>, asked: nat, need: nat)
    requires Within(s, fsiz) && fsiz <= FILE_LIMIT && asked >= FILE_LIMIT && need >= FILE_LIMIT && fsiz > 0
    ensures FirstLarger(s, asked) == |s|
    ensures EndOf(Settled(fsiz, s, asked, need)) > FILE_LIMIT
  {
    forall j | 0 <= j < |s|
      ensures s[j].rsiz <= asked
    {
      assert s[j] in s;
    }
    FirstIs(s, asked, |s|);
  }

  /** A key that is not stored. */
  lemma AbsentRoom(db: HashDb, key: Bytes, value: Bytes)
    requires db.Valid() && key !in db.dict
    ensures db.fbpnum <= db.pool.Length
    ensures db.CanPut(key, value) <==>
      EndOf(Settled(db.fsiz, db.pool[..db.fbpnum], 32 + |key| + |value|, Need(key, value))) <= 0x8000_0000
  {
    hide Need, Tiling, PoolOk, OnFile, Imaged, ForestOk, DictOk, HasRoom, Settled, FirstLarger, Within, PadSize;
    var s := db.pool[..db.fbpnum];
    AbsentHasNoPlace(db.trees, db.bnum, db.disk, db.dict, key);
    NewRoom(db.disk, s, db.pool.Length, db.fpow, key, value);
    PoolWithin(s, db.disk, db.frec, db.fsiz, 0);
    FrecPositive(db.disk, db.frec, db.fsiz);
    EnoughAsked(key, value);
    if |key| < FILE_LIMIT && |value| < FILE_LIMIT {
      SettledBelow(db.fsiz, s, MAX_HEADER + |key| + |value|, Need(key, value));
    } else {
      NeedAtLeast(key, value);
      TooLong(db.fsiz, s, MAX_HEADER + |key| + |value|, Need(key, value));
    }
  }

  /** A record that stays where it is, with what is spliced to it, ends inside the file. */
  lemma StaysBelow(fsiz: nat, s: seq<Block>, searched: seq<Block>, off: nat, size: nat, need: nat)
    requires Within(s, fsiz) && off + size <= fsiz
    requires need <= size || SpliceAt(s, off, size, need) < |s|
    ensures EndOf(Rewritten(fsiz, s, searched, off, size, need)) <= fsiz
  {
    hide Taken, Settled;
    var j := SpliceAt(s, off, size, need);
    if need > size { assert s[j] in s; }
  }

  lemma SearchedBelow(disk: Disk, fsiz: nat, s: seq<Block>, searched: seq<Block>, room: nat, fpow: nat, off: nat,
    size: nat, need: nat)
    requires PoolOk(multiset(s), disk, fsiz, 0) && fsiz <= FILE_LIMIT && (fpow >= 1 ==> room >= 2)
    requires Moved(s, room, fpow, off, size, need, searched, fsiz)
    requires 15 <= need && need > size && SpliceAt(s, off, size, need) == |s|
    ensures EndOf(Rewritten(fsiz, s, searched, off, size, need)) <= FILE_LIMIT <==>
      SearchFinds(s, room, fpow, need) || fsiz + need + PadSize(fsiz + need) <= FILE_LIMIT
  {
    hide PoolOk, SearchFinds, Inserted, Settled, FirstLarger, SpliceAt, Within, PadSize;
    SearchWillFind(s, room, fpow, Block(off, size), searched, need, disk, fsiz, 0);
    SettledBelow(fsiz, searched, need, need);
  }

  /** A stored key, with its record at o. */
  lemma PresentRoom(db: HashDb, key: Bytes, value: Bytes, o: nat, searched: seq<Block>)
    requires db.Valid() && StandsOnKey(db.disk, o, key) && db.fbpnum <= db.pool.Length
    requires Moved(db.pool[..db.fbpnum], db.pool.Length, db.fpow, o, Size(db.disk[o]), Need(key, value), searched,
                   db.fsiz)
    ensures db.CanPut(key, value) <==>
      EndOf(Rewritten(db.fsiz, db.pool[..db.fbpnum], searched, o, Size(db.disk[o]), Need(key, value))) <= 0x8000_0000
  {
    hide Need, Size, Tiling, PoolOk, OnFile, Imaged, ForestOk, DictOk, HasRoom, Rewritten, Within, PadSize, Moved,
      KeysDiffer, SearchFinds, SpliceAt;
    var s, size, need := db.pool[..db.fbpnum], Size(db.disk[o]), Need(key, value);
    ForestKeysDiffer(db.trees, db.bnum, db.disk);
    OnlyRoom(db.disk, o, s, db.pool.Length, db.fpow, key, value);
    PoolWithin(s, db.disk, db.frec, db.fsiz, 0);
    TileInside(db.disk, db.frec, db.fsiz, o);
    if need <= size || SpliceAt(s, o, size, need) < |s| {
      StaysBelow(db.fsiz, s, searched, o, size, need);
    } else {
      SearchedBelow(db.disk, db.fsiz, s, searched, db.pool.Length, db.fpow, o, size, need);
    }
  }
}
