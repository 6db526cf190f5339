/** Iterations with updates in between (lib/libdict/tchdb.h:244-246): removals, and puts with the one
    way in which they can stop the iterator from reading on. */
module IterSessions {
  import opened Options
  import opened KeyOrder
  import opened Tiles
  import opened FreePool
  import opened Allocator
  import opened Forest
  import opened Iteration
  import opened Placement
  import opened Leading
  import opened PutSteps
  import opened HashDb
  import opened PutChange
  import opened Sessions

  /** tchdbout leaves an iteration under way intact: it delivers what it would have delivered, minus
      the removed key. */
  method OutWhileIterating(db: HashDb, key: Bytes) returns (ok: bool)
    requires db.Valid()
    modifies db, db.pool, db.buckets
    ensures db.Valid() && db.iter == old(db.iter) && (old(db.Readable()) ==> db.Readable())
    ensures db.dict == old(db.dict) - {key} && ok == (key in old(db.dict))
    ensures db.Pending() == Dropped(old(db.Pending()), key)
  {
    hide Tiling, PoolOk, OnFile, Imaged, ForestOk, DictOk, KeysFrom, Dropped, CanRead, GivenUp;
    ghost var disk0 := db.disk;
    ok := db.Out(key);
    KeysFromGone(disk0, db.disk, db.frec, db.fsiz, db.iter, key);
  }

  // ---------- putting while iterating ----------

  /** A put in the middle of an iteration. The iterator can read on afterwards if and only if the put
      does not write its record over the place it stands at; unless the record has to move while the
      pool is full, the pool and the tiles before the put tell. It never does so when the iterator is
      not between two free tiles. Every other key is then still to come exactly if it was, and none
      comes twice; the key itself may come again if its record has moved, but not if the new value
      fits into the old place. */
  method PutWhileIterating(db: HashDb, key: Bytes, value: Bytes) returns (ghost searched: seq<Block>)
    requires db.Valid() && db.Readable() && db.CanPut(key, value)
    modifies db, db.pool, db.buckets
    ensures db.Valid() && db.iter >= old(db.iter) && db.dict == old(db.dict)[key := value]
    ensures forall o :: StandsOnKey(old(db.disk), o, key) ==>
      Moved(old(db.pool[..db.fbpnum]), db.pool.Length, db.fpow,
        o, Size(old(db.disk)[o]), Need(key, value), searched, old(db.fsiz))
    ensures db.Readable() <==>
      !PutCovers(old(db.disk), old(db.fsiz), old(db.pool[..db.fbpnum]), searched, key, value, old(db.iter))
    ensures !(Relocates(old(db.disk), old(db.pool[..db.fbpnum]), key, value) && old(db.fbpnum) == db.pool.Length) ==>
      (db.Readable() <==> !PutCovers(old(db.disk), old(db.fsiz), old(db.pool[..db.fbpnum]), old(db.pool[..db.fbpnum]),
                                     key, value, old(db.iter)))
    ensures db.Readable() <==> !InRecordOf(db.disk, key, db.iter)
    ensures PutIsSafe(old(db.disk), db.frec, old(db.fsiz), old(db.iter), key, value) ==> db.Readable()
    ensures NoDuplicates(db.Pending())
    ensures forall k :: k != key || old(InPlace(db.disk, key, value)) ==>
      (k in db.Pending() <==> k in old(db.Pending()))
  {
    hide Tiling, PoolOk, OnFile, Imaged, ForestOk, DictOk, KeysFrom, InPlace, OthersStay, NoDuplicates, KeysDiffer,
      KeyAtOrAfter, Skippable, PutCovers, PutIsSafe, Relocates, Settled, PutOver, Need, IsPut, Moved, Keeps, CanRead,
      Size, HashDb.CanPut, InRecordOf;
    ghost var was, iter0, s, trees0, dict0 := db.Now(), db.iter, db.pool[..db.fbpnum], db.trees, db.dict;
    ForestKeysDiffer(trees0, db.bnum, was.disk);
    ForestHasKey(trees0, db.bnum, was.disk, dict0, key);
    ghost var at;
    at, searched := db.Put(key, value);
    ghost var change := Change(was, iter0, s, searched, db.Now(), db.iter, at, db.pool.Length, db.fpow);
    KnownChange(change, key, value, dict0);
    ChangeReads(change, db.frec, key, value);
    ChangeCovers(change, key, value);
    ForestKeysDiffer(db.trees, db.bnum, db.disk);
    OnlyAt(db.disk, at, key, db.iter);
    if !(Relocates(was.disk, s, key, value) && |s| == db.pool.Length) { ChangeBefore(change, key, value); }
    if PutIsSafe(was.disk, db.frec, was.fsiz, iter0, key, value) { SafeChange(change, db.frec, key, value); }
    StillPending(change, db.frec, db.bnum, trees0, dict0, db.trees, db.dict, key, value);
  }

  /** Place p is strictly inside the record of key. */
  ghost predicate InRecordOf(disk: Disk, key: Bytes, p: nat) {
    exists o: nat :: StandsOnKey(disk, o, key) && o < p < o + Size(disk[o])
  }

  lemma OnlyAt(disk: Disk, at: nat, key: Bytes, p: nat)
    requires KeysDiffer(disk) && StandsOnKey(disk, at, key)
    ensures Covers(Block(at, Size(disk[at])), p) <==> InRecordOf(disk, key, p)
  {
    hide Size;
  }

  /** One fetch, and the fetched key is given a new value: what was still to come is still to come,
      each key once, but for the fetched key, which may come again. */
  method FetchAndUpdate(db: HashDb, value: Bytes) returns (r: Option<Bytes>)
    requires Walking(db) && NoDuplicates(db.Pending())
    requires db.Pending() != [] ==> db.CanPut(db.Pending()[0], value)
    modifies db, db.pool, db.buckets
    ensures Walking(db) && NoDuplicates(db.Pending())
    ensures r.None? ==> old(db.Pending()) == [] && db.dict == old(db.dict)
    ensures r.Some? ==> old(db.Pending()) != [] && r.value == old(db.Pending())[0]
    ensures r.Some? ==> db.dict == old(db.dict)[r.value := value]
    ensures r.Some? ==> forall k :: k != r.value ==> (k in db.Pending() <==> k in old(db.Pending()))
  {
    hide HashDb.TreesOk, NoDuplicates, KeysFrom, Tiling, PoolOk, OnFile, Imaged, JustBefore, InPlace, PutIsSafe,
      PutCovers, Relocates, Moved, Need, CanRead, HasRoom;
    ghost var before := db.Pending();
    r := Fetch(db);
    if r.Some? {
      FirstOnly(r.value, db.Pending());
      assert r.value == before[0];
      JustFetched(db.disk, db.frec, db.fsiz, db.iter, r.value, value);
      ghost var _ := PutWhileIterating(db, r.value, value);
    }
  }

  lemma PendingIsStored(db: HashDb)
    requires db.Valid() && db.AllocOk(0)
    ensures forall k :: k in db.Pending() ==> k in db.dict
  {
    hide Tiling, PoolOk, OnFile, Imaged, ForestOk, DictOk, KeysFrom;
    forall k | k in db.Pending()
      ensures k in db.dict
    {
      KeysFromHasAll(db.disk, db.frec, db.fsiz, db.iter, k);
      ForestHasKey(db.trees, db.bnum, db.disk, db.dict, k);
    }
  }

  /** The iterator has still to deliver exactly what is stored, each key once. */
  ghost predicate AllPending(db: HashDb)
    requires db.AllocOk(0)
    reads db, db.pool
  {
    NoDuplicates(db.Pending()) && forall k :: k in db.dict <==> k in db.Pending()
  }

  /** One fetch, and the fetched key is removed. */
  method FetchAndRemove(db: HashDb) returns (r: Option<Bytes>)
    requires Walking(db) && AllPending(db)
    modifies db, db.pool, db.buckets
    ensures Walking(db) && db.AllocOk(0) && AllPending(db)
    ensures r.Some? ==> old(db.Pending()) == [r.value] + db.Pending()
    ensures r.None? ==> old(db.Pending()) == [] == db.Pending()
  {
    hide HashDb.TreesOk, Dropped, NoDuplicates, KeysFrom, Tiling, PoolOk, OnFile, Imaged, CanRead, JustBefore;
    ghost var before := db.Pending();
    r := Fetch(db);
    if r.Some? {
      ghost var rest := db.Pending();
      FirstOnly(r.value, rest);
      DroppedAbsent(rest, r.value);
      var _ := OutWhileIterating(db, r.value);
    }
  }

  lemma FirstOnly(k: Bytes, rest: seq<Bytes>)
    requires NoDuplicates([k] + rest)
    ensures k !in rest && NoDuplicates(rest) && forall x :: x in [k] + rest <==> x == k || x in rest
  {
    var all := [k] + rest;
    forall i | 0 <= i < |rest|
      ensures rest[i] != k
    {
      assert all[0] == k && all[1 + i] == rest[i];
    }
    forall i, j | 0 <= i < j < |rest|
      ensures rest[i] != rest[j]
    {
      assert all[1 + i] == rest[i] && all[1 + j] == rest[j];
    }
  }

  /** Removing every key as it is fetched: each stored key is fetched exactly once, and the database
      ends up empty. */
  method RemoveAll(db: HashDb) returns (keys: seq<Bytes>)
    requires db.Valid()
    modifies db, db.pool, db.buckets
    ensures db.Valid() && db.dict == map[] && db.rnum == 0
    ensures NoDuplicates(keys) && forall k :: k in keys <==> k in old(db.dict)
  {
    hide HashDb.Valid, HashDb.AllocOk, AllPending, NoDuplicates, HashDb.Readable;
    db.IterInit();
    IterationStarts(db);
    ghost var all := db.Pending();
    keys := [];
    AllArePending(db);
    while true
      invariant Walking(db) && db.AllocOk(0) && AllPending(db) && keys + db.Pending() == all
      decreases |db.Pending()|
    {
      ghost var before := db.Pending();
      var r := FetchAndRemove(db);
      if r.None? {
        assert keys + before == keys;
        EmptyDict(db);
        return;
      }
      assert keys + ([r.value] + db.Pending()) == (keys + [r.value]) + db.Pending();
      keys := keys + [r.value];
    }
  }

  lemma AllArePending(db: HashDb)
    requires db.AllocOk(0) && NoDuplicates(db.Pending()) && forall k :: k in db.Pending() <==> k in db.dict
    ensures AllPending(db)
  {
  }

  lemma EmptyDict(db: HashDb)
    requires db.Valid() && db.AllocOk(0) && AllPending(db) && db.Pending() == []
    ensures db.dict == map[] && db.rnum == 0
  {
    assert db.dict == map[];
  }
}
