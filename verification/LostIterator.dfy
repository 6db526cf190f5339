/** A run from a new file, of any number of buckets and any size of the pool, in which only fetched
    records are removed and put again while iterating, as lib/libdict/tchdb.h:244-246 allows, and which
    nevertheless ends the iteration before a stored record that was never touched. The put uses a merged
    entry of the pool and writes its record over the place the iterator stands at. */
module LostIterator {
  import opened Options
  import opened KeyOrder
  import opened Tiles
  import opened Layout
  import opened FreePool
  import opened Allocator
  import opened BucketTree
  import opened Forest
  import opened Iteration
  import opened RecordCodec
  import opened Placement
  import opened PoolSteps
  import opened StoreSteps
  import opened Leading
  import opened PutSteps
  import opened Scanning
  import opened HashDb
  import opened Sessions
  import Varint
  import PoolMerge
  import PoolSort

  // ---------- the records ----------

  /** Records 0 to n + 1 are stored one behind the other: record 0, then n for a pool of n entries, the
      last two of them larger, then one more. */
  function Key(i: nat): (k: Bytes)
    ensures |k| == 4
  {
    ToLE(i, 4)
  }

  lemma KeysAreDifferent(i: nat, j: nat)
    requires i < TWO_32 && j < TWO_32 && i != j
    ensures Key(i) != Key(j)
  {
    Widths();
    LERoundTrip(i, 4);
    LERoundTrip(j, 4);
  }

  predicate Large(n: nat, i: nat) { i + 1 == n || i == n }

  function Value(n: nat, i: nat): (v: Bytes)
    ensures |v| == if Large(n, i) then 49 else 0
  {
    if Large(n, i) then Zeros(49) else []
  }

  function TileSize(n: nat, i: nat): nat { if Large(n, i) then 80 else 32 }

  function Off(frec: nat, n: nat, i: nat): nat { if i == 0 then frec else Off(frec, n, i - 1) + TileSize(n, i - 1) }

  function TileOf(frec: nat, n: nat, i: nat): Block { Block(Off(frec, n, i), TileSize(n, i)) }

  lemma {:induction false} OffAligned(frec: nat, n: nat, i: nat)
    requires Aligned(frec)
    ensures Aligned(Off(frec, n, i)) && frec <= Off(frec, n, i) <= frec + 80 * i
  {
    if i > 0 { OffAligned(frec, n, i - 1); }
  }

  lemma {:induction false} OffUp(frec: nat, n: nat, i: nat, j: nat)
    requires i < j
    ensures Off(frec, n, i) + TileSize(n, i) <= Off(frec, n, j)
  {
    if i + 1 < j { OffUp(frec, n, i, j - 1); }
  }

  lemma SmallNumbers(k: nat)
    requires k < 128
    ensures Varint.Length(k) == 1
  {
  }

  /** What a record takes, alone and at the end of the file. */
  lemma RecordTakes(key: Bytes, value: Bytes, end: nat)
    requires |key| == 4 && |value| < 128 && Aligned(end)
    ensures Need(key, value) == 18 + |value|
    ensures |value| == 0 ==> Need(key, value) + PadSize(end + Need(key, value)) == 32
    ensures |value| == 49 ==> Need(key, value) + PadSize(end + Need(key, value)) == 80
  {
    SmallNumbers(4);
    SmallNumbers(|value|);
  }

  // ---------- storing them ----------

  ghost predicate Stores(disk: Disk, frec: nat, n: nat, m: nat) {
    forall i: nat :: i < m ==> RecordIn(disk, TileOf(frec, n, i), Key(i))
  }

  ghost predicate NotYet(dict: map<Bytes, Bytes>, m: nat) { forall i: nat :: m <= i < TWO_32 ==> Key(i) !in dict }

  /** A record for a new key, with nothing in the pool, goes to the end of the file. */
  method AppendNew(db: HashDb, key: Bytes, value: Bytes)
    requires db.Valid() && db.Fits(key, value) && key !in db.dict && db.fbpnum == 0
    modifies db, db.pool, db.buckets
    ensures db.Valid() && db.dict == old(db.dict)[key := value]
    ensures db.fbpnum == 0 && OthersStay(old(db.disk), db.disk, key)
    ensures var size := Need(key, value) + PadSize(old(db.fsiz) + Need(key, value));
      RecordIn(db.disk, Block(old(db.fsiz), size), key) && db.fsiz == old(db.fsiz) + size
  {
    hide Tiling, PoolOk, OnFile, Imaged, ForestOk, DictOk, OthersStay, Skippable, PutOver, Need, Keeps, CanRead,
      HasRoom;
    ghost var none := db.pool[..db.fbpnum];
    assert none == [] && FirstLarger([], MAX_HEADER + |key| + |value|) == 0;
    ghost var _, _ := db.Put(key, value);
  }

  lemma OneMoreStored(before: Disk, after: Disk, frec: nat, n: nat, m: nat)
    requires Stores(before, frec, n, m) && OthersStay(before, after, Key(m)) && m < TWO_32
    requires RecordIn(after, TileOf(frec, n, m), Key(m))
    ensures Stores(after, frec, n, m + 1)
  {
    hide Size, Key, TileSize, Off;
    forall i: nat | i < m
      ensures RecordIn(after, TileOf(frec, n, i), Key(i))
    {
      KeysAreDifferent(i, m);
      assert RecordIn(before, TileOf(frec, n, i), Key(i));
    }
  }

  lemma OneLessToCome(dict: map<Bytes, Bytes>, m: nat, value: Bytes)
    requires NotYet(dict, m) && m < TWO_32
    ensures NotYet(dict[Key(m) := value], m + 1)
  {
    hide Key;
    forall i: nat | m + 1 <= i < TWO_32
      ensures Key(i) !in dict[Key(m) := value]
    {
      KeysAreDifferent(i, m);
    }
  }

  /** n + 2 records fit into the file. */
  predicate Roomy(frec: nat, n: nat) { 2 <= n <= 0x10_0000 && frec <= 0x5000_0000 && Aligned(frec) }

  method StoreAll(bnum: nat, fpow: nat) returns (db: HashDb, n: nat)
    requires 0 < bnum <= 0x1000_0000 && 1 <= fpow <= 20
    ensures fresh(db) && fresh(db.pool) && fresh(db.buckets) && db.Valid() && db.fbpnum == 0 && db.fpow >= 1
    ensures n == db.pool.Length == Pow2(fpow) && n % 2 == 0 && Roomy(db.frec, n)
    ensures Stores(db.disk, db.frec, n, n + 2) && db.fsiz == Off(db.frec, n, n + 2) && db.frec > 0
  {
    hide HashDb.Valid, Key, Stores, NotYet, Pow2, Roomy;
    PoolSizes(fpow);
    db := new HashDb(bnum, fpow);
    n := Pow2(fpow);
    NewFile(db);
    NothingStored(db.disk, db.frec, n);
    var m := 0;
    while m < n + 2
      invariant 0 <= m <= n + 2 && db.Valid() && db.fbpnum == 0
      invariant fresh(db) && fresh(db.pool) && fresh(db.buckets)
      invariant db.fsiz == Off(db.frec, n, m) && Stores(db.disk, db.frec, n, m) && NotYet(db.dict, m)
    {
      StoreNext(db, n, m);
      m := m + 1;
    }
  }

  lemma NewFile(db: HashDb)
    requires db.Valid() && 1 <= db.fpow <= 20 && db.bnum <= 0x1000_0000
    requires db.frec < HEAD_SIZE + 4 * db.bnum + PoolBytes(db.fpow) + ALIGN
    ensures db.frec > 0 && Roomy(db.frec, Pow2(db.fpow)) && db.pool.Length == Pow2(db.fpow)
  {
    hide Tiling, PoolOk, OnFile, Imaged, ForestOk, DictOk, Pow2;
    FrecPositive(db.disk, db.frec, db.fsiz);
    PoolSizes(db.fpow);
  }

  method StoreNext(db: HashDb, n: nat, m: nat)
    requires db.Valid() && db.fbpnum == 0 && Roomy(db.frec, n) && m < n + 2
    requires db.fsiz == Off(db.frec, n, m) && Stores(db.disk, db.frec, n, m) && NotYet(db.dict, m)
    modifies db, db.pool, db.buckets
    ensures db.Valid() && db.fbpnum == 0
    ensures db.fsiz == Off(db.frec, n, m + 1) && Stores(db.disk, db.frec, n, m + 1) && NotYet(db.dict, m + 1)
  {
    hide HashDb.Valid, Need, Key, Stores, NotYet, RecordIn, OthersStay, PadSize;
    ghost var disk0 := db.disk;
    OffAligned(db.frec, n, m);
    RecordTakes(Key(m), Value(n, m), db.fsiz);
    OneLessToCome(db.dict, m, Value(n, m));
    NextIsNew(db.dict, m);
    AppendNew(db, Key(m), Value(n, m));
    OneMoreStored(disk0, db.disk, db.frec, n, m);
  }

  lemma NextIsNew(dict: map<Bytes, Bytes>, m: nat)
    requires NotYet(dict, m) && m < TWO_32
    ensures Key(m) !in dict
  {
  }

  lemma NothingStored(disk: Disk, frec: nat, n: nat)
    ensures Stores(disk, frec, n, 0) && NotYet(map[], 0)
  {
  }

  lemma {:induction false} PoolSizes(fpow: nat)
    requires 1 <= fpow <= 20
    ensures 2 <= Pow2(fpow) <= 0x10_0000 && Pow2(fpow) % 2 == 0
  {
    PowUp(fpow, 20);
    assert Pow2(4) == 16 && Pow2(6) == 64 && Pow2(8) == 0x100 && Pow2(10) == 0x400 && Pow2(12) == 0x1000;
    assert Pow2(14) == 0x4000 && Pow2(16) == 0x1_0000 && Pow2(18) == 0x4_0000;
  }

  lemma {:induction false} PowUp(a: nat, b: nat)
    requires a <= b
    ensures Pow2(a) <= Pow2(b)
  {
    if a < b { PowUp(a, b - 1); }
  }

  // ---------- the pool when it is merged ----------

  /** The tiles of records lo to hi - 1. */
  function TilesOf(frec: nat, n: nat, lo: nat, hi: nat): (s: seq<Block>)
    requires lo <= hi
    ensures |s| == hi - lo && forall k :: 0 <= k < |s| ==> s[k] == TileOf(frec, n, lo + k)
  {
    seq(hi - lo, k requires 0 <= k < hi - lo => TileOf(frec, n, lo + k))
  }

  lemma TilesInOrder(frec: nat, n: nat, lo: nat, hi: nat)
    requires lo <= hi
    ensures var s := TilesOf(frec, n, lo, hi); PoolSort.Sorted(PoolSort.ByOff, s) && DistinctOffs(s)
  {
    hide Off, TileSize;
    var s := TilesOf(frec, n, lo, hi);
    forall i, j | 0 <= i < j < |s|
      ensures s[i].off < s[j].off
    {
      OffUp(frec, n, lo + i, lo + j);
      TileIsNotEmpty(n, lo + i);
    }
  }

  lemma TileIsNotEmpty(n: nat, i: nat)
    ensures TileSize(n, i) >= 32
  {
  }

  /** The one large entry that merging leaves: the tiles of the two larger records. */
  function Both(frec: nat, n: nat): Block
    requires n >= 1
  {
    Block(Off(frec, n, n - 1), 160)
  }

  /** One large entry among small ones, at most half as many as there were tiles. */
  ghost predicate OneLarge(r: seq<Block>, large: Block, tiles: nat) {
    2 * |r| <= tiles && large in multiset(r) && forall b :: b in multiset(r) ==> b == large || b.rsiz <= 64
  }

  /** Merged from record lo on, all entries but the last are small. */
  lemma {:induction false} PairsFrom(frec: nat, n: nat, lo: nat)
    requires n >= 2 && n % 2 == 0 && lo % 2 == 1 && lo <= n - 1
    ensures OneLarge(PoolMerge.MergePairs(TilesOf(frec, n, lo, n + 1)), Both(frec, n), n + 1 - lo)
    decreases n - lo
  {
    hide Off, PoolMerge.MergePairs, TilesOf, OneLarge;
    var rest := PoolMerge.MergePairs(TilesOf(frec, n, lo + 2, n + 1));
    var pair := Block(Off(frec, n, lo), TileSize(n, lo) + TileSize(n, lo + 1));
    FirstPair(frec, n, lo);
    if lo < n - 1 {
      PairsFrom(frec, n, lo + 2);
      OneSmallMore(pair, rest, Both(frec, n), n - 1 - lo);
    } else {
      LastPair(frec, n);
    }
  }

  lemma FirstPair(frec: nat, n: nat, lo: nat)
    requires lo + 2 <= n + 1
    ensures PoolMerge.MergePairs(TilesOf(frec, n, lo, n + 1)) ==
      [Block(Off(frec, n, lo), TileSize(n, lo) + TileSize(n, lo + 1))] +
      PoolMerge.MergePairs(TilesOf(frec, n, lo + 2, n + 1))
  {
    hide Off, TileSize;
    var s := TilesOf(frec, n, lo, n + 1);
    NextOff(frec, n, lo);
    assert s[2..] == TilesOf(frec, n, lo + 2, n + 1);
    assert s[0] == TileOf(frec, n, lo) && s[1] == TileOf(frec, n, lo + 1);
  }

  lemma OneSmallMore(pair: Block, rest: seq<Block>, large: Block, tiles: nat)
    requires OneLarge(rest, large, tiles) && pair.rsiz <= 64
    ensures OneLarge([pair] + rest, large, tiles + 2)
  {
    assert multiset([pair] + rest) == multiset{pair} + multiset(rest);
  }

  lemma LastPair(frec: nat, n: nat)
    requires n >= 2
    ensures TilesOf(frec, n, n + 1, n + 1) == [] && PoolMerge.MergePairs([]) == []
    ensures OneLarge([Both(frec, n)] + [], Both(frec, n), 2)
  {
    assert [Both(frec, n)] + [] == [Both(frec, n)];
  }

  lemma NextOff(frec: nat, n: nat, i: nat)
    ensures Off(frec, n, i + 1) == Off(frec, n, i) + TileSize(n, i)
  {
  }

  /** The search for rsiz bytes in the pool s finds b. */
  predicate Finds(s: seq<Block>, rsiz: nat, b: Block) {
    FirstLarger(s, rsiz) < |s| && s[FirstLarger(s, rsiz)] == b
  }

  /** The search for 100 bytes in the pool after the last removal finds that entry. */
  lemma FindsBoth(frec: nat, n: nat, pool: seq<Block>, after: seq<Block>)
    requires n >= 2 && n % 2 == 0 && pool == [TileOf(frec, n, n)] + TilesOf(frec, n, 1, n)
    requires Inserted(pool, n, 1, TileOf(frec, n, 0), after)
    ensures Finds(after, 100, Both(frec, n))
  {
    hide PoolSort.Sorted, PoolMerge.MergePairs, FirstLarger, Off, DistinctOffs, OneLarge;
    var sorted, bySize :| MergedAndSorted(multiset(pool), sorted, bySize)
                       && after == Reduced(bySize, n) + [TileOf(frec, n, 0)];
    SortedTiles(frec, n, pool, sorted);
    PairsFrom(frec, n, 1);
    SameLarge(PoolMerge.MergePairs(sorted), bySize, Both(frec, n), n);
    assert after == bySize + [TileOf(frec, n, 0)];
    OnlyLarge(bySize, TileOf(frec, n, 0), Both(frec, n));
  }

  lemma SameLarge(r: seq<Block>, bySize: seq<Block>, large: Block, tiles: nat)
    requires OneLarge(r, large, tiles) && multiset(bySize) == multiset(r)
    ensures OneLarge(bySize, large, 2 * |bySize|) && 2 * |bySize| <= tiles
  {
    assert |bySize| == |multiset(bySize)| == |multiset(r)| == |r|;
  }

  lemma SortedTiles(frec: nat, n: nat, pool: seq<Block>, sorted: seq<Block>)
    requires n >= 2 && pool == [TileOf(frec, n, n)] + TilesOf(frec, n, 1, n)
    requires multiset(sorted) == multiset(pool) && PoolSort.Sorted(PoolSort.ByOff, sorted)
    ensures sorted == TilesOf(frec, n, 1, n + 1)
  {
    hide PoolSort.Sorted, Off, DistinctOffs;
    var all := TilesOf(frec, n, 1, n + 1);
    assert all == TilesOf(frec, n, 1, n) + [TileOf(frec, n, n)];
    assert multiset(all) == multiset(pool);
    TilesInOrder(frec, n, 1, n + 1);
    StillDistinct(all, sorted);
    OneOrder(sorted, all);
  }

  lemma OnlyLarge(s: seq<Block>, last: Block, large: Block)
    requires OneLarge(s, large, 2 * |s|) && large.rsiz > 100 && last.rsiz <= 100
    ensures var t := s + [last]; var i := FirstLarger(t, 100); i < |t| && t[i] == large
  {
    hide FirstLarger;
    var t := s + [last];
    var j :| 0 <= j < |s| && s[j] == large;
    assert t[j] == large;
    var i := FirstLarger(t, 100);
    assert i <= j;
    assert t[i] == s[i] && s[i] in multiset(s);
  }

  // ---------- the run ----------

  /** The next record is fetched, and the iterator stands behind it. */
  method FetchOne(db: HashDb, key: Bytes, ghost b: Block) returns (r: Bytes)
    requires Walking(db) && db.iter == b.off && RecordIn(db.disk, b, key)
    modifies db`iter
    ensures Walking(db) && db.iter == EndOf(b) && r == key
  {
    hide Tiling, PoolOk, OnFile, Imaged, ForestOk, DictOk, Size, KeysDiffer, CanRead, KeysFrom;
    UnrollKeys(db.disk, db.frec, db.fsiz, b.off);
    ForestKeysDiffer(db.trees, db.bnum, db.disk);
    ghost var before := db.Pending();
    assert before != [] && before[0] == key;
    var next := Fetch(db);
    assert next.Some? && next.value == before[0];
    r := next.value;
    EndsThere(db.disk, b.off, db.iter, key);
  }

  lemma EndsThere(disk: Disk, o: nat, p: nat, key: Bytes)
    requires KeysDiffer(disk) && StandsOnKey(disk, o, key) && JustBefore(disk, p, key)
    ensures p == o + Size(disk[o])
  {
    hide Size;
  }

  /** A record is removed; its tile is given back and every other record stays. */
  method RemoveOne(db: HashDb, key: Bytes, ghost b: Block)
    requires db.Valid() && RecordIn(db.disk, b, key) && db.fpow >= 1
    modifies db, db.pool, db.buckets
    ensures db.Valid() && db.iter == old(db.iter) && db.dict == old(db.dict) - {key} && db.fsiz == old(db.fsiz)
    ensures old(db.Readable()) ==> db.Readable()
    ensures forall c, k :: RecordIn(old(db.disk), c, k) && k != key ==> RecordIn(db.disk, c, k)
    ensures Inserted(old(db.pool[..db.fbpnum]), db.pool.Length, 1, b, db.pool[..db.fbpnum])
  {
    hide Tiling, PoolOk, OnFile, Imaged, ForestOk, DictOk, Size, Inserted, KeyGone, GivenUp, CanRead;
    ghost var disk0, s := db.disk, db.pool[..db.fbpnum];
    var _ := db.Out(key);
    OthersLeft(disk0, db.disk, key);
    GivenUpAt(disk0, b, key, s, db.pool.Length, db.fpow, db.pool[..db.fbpnum]);
  }

  lemma OthersLeft(before: Disk, after: Disk, key: Bytes)
    requires KeyGone(before, after, key)
    ensures forall c, k :: RecordIn(before, c, k) && k != key ==> RecordIn(after, c, k)
  {
    hide Size;
  }

  lemma GivenUpAt(disk: Disk, b: Block, key: Bytes, s: seq<Block>, room: nat, fpow: nat, after: seq<Block>)
    requires GivenUp(disk, key, s, room, fpow, after) && RecordIn(disk, b, key) && fpow >= 1
    ensures Inserted(s, room, 1, b, after)
  {
    hide Size, MergedAndSorted, Reduced;
  }

  /** The records that are still stored when those up to j - 1, but for 0, and record n are removed. */
  ghost predicate Left(disk: Disk, frec: nat, n: nat, j: nat) {
    forall i: nat :: (i == 0 || j <= i < n || i == n + 1) ==> RecordIn(disk, TileOf(frec, n, i), Key(i))
  }

  lemma LessLeft(before: Disk, after: Disk, frec: nat, n: nat, j: nat, gone: nat)
    requires Left(before, frec, n, j) && n + 2 < TWO_32 && (gone == j < n || gone == n) && gone > 0
    requires forall c, k :: RecordIn(before, c, k) && k != Key(gone) ==> RecordIn(after, c, k)
    ensures Left(after, frec, n, if gone == n then j else j + 1)
  {
    hide Key, RecordIn, TileOf;
    forall i: nat | i == 0 || (if gone == n then j else j + 1) <= i < n || i == n + 1
      ensures RecordIn(after, TileOf(frec, n, i), Key(i))
    {
      KeysAreDifferent(i, gone);
      assert RecordIn(before, TileOf(frec, n, i), Key(i));
    }
  }

  lemma StoredAreLeft(disk: Disk, frec: nat, n: nat)
    requires Stores(disk, frec, n, n + 2)
    ensures Left(disk, frec, n, 1) && RecordIn(disk, TileOf(frec, n, n), Key(n))
  {
    hide RecordIn, TileOf, Key;
  }

  /** Records 0 to n - 1 are fetched. */
  method FetchAll(db: HashDb, n: nat) returns (fetched: seq<Bytes>)
    requires Walking(db) && n >= 2 && db.iter == Off(db.frec, n, 0) && Left(db.disk, db.frec, n, 1)
    modifies db`iter
    ensures Walking(db) && db.iter == Off(db.frec, n, n)
    ensures |fetched| == n && forall i :: 0 <= i < n ==> fetched[i] == Key(i)
  {
    hide HashDb.Valid, HashDb.Readable, Key, RecordIn;
    fetched := [];
    var i := 0;
    while i < n
      invariant 0 <= i <= n && Walking(db) && db.iter == Off(db.frec, n, i)
      invariant |fetched| == i && forall j :: 0 <= j < i ==> fetched[j] == Key(j)
    {
      var k := FetchOne(db, Key(i), TileOf(db.frec, n, i));
      fetched := fetched + [k];
      i := i + 1;
    }
  }

  /** Records 1 to n - 1 are removed. */
  method RemoveFetched(db: HashDb, n: nat)
    requires Walking(db) && 2 <= n == db.pool.Length && n + 2 < TWO_32 && db.fpow >= 1 && db.fbpnum <= n
    requires Left(db.disk, db.frec, n, 1) && db.pool[..db.fbpnum] == [TileOf(db.frec, n, n)]
    modifies db, db.pool, db.buckets
    ensures Walking(db) && db.iter == old(db.iter) && Left(db.disk, db.frec, n, n) && db.fbpnum <= n
    ensures db.pool[..db.fbpnum] == [TileOf(db.frec, n, n)] + TilesOf(db.frec, n, 1, n)
  {
    hide HashDb.Valid, HashDb.Readable, Key, RecordIn, TileOf, Inserted, Left, TilesOf;
    var j := 1;
    NoTiles(db.frec, n);
    while j < n
      invariant 1 <= j <= n && Walking(db) && db.iter == old(db.iter) && Left(db.disk, db.frec, n, j) && db.fbpnum <= n
      invariant db.pool[..db.fbpnum] == [TileOf(db.frec, n, n)] + TilesOf(db.frec, n, 1, j)
    {
      ghost var disk0, s := db.disk, db.pool[..db.fbpnum];
      FirstLeft(db.disk, db.frec, n, j);
      RemoveOne(db, Key(j), TileOf(db.frec, n, j));
      PoolBound(db);
      LessLeft(disk0, db.disk, db.frec, n, j, j);
      OneMoreTile(db.frec, n, j, s, db.pool[..db.fbpnum]);
      j := j + 1;
    }
  }

  lemma NoTiles(frec: nat, n: nat)
    ensures TilesOf(frec, n, 1, 1) == []
  {
  }

  lemma FirstLeft(disk: Disk, frec: nat, n: nat, j: nat)
    requires Left(disk, frec, n, j) && j < n
    ensures RecordIn(disk, TileOf(frec, n, j), Key(j))
  {
  }

  lemma PoolBound(db: HashDb)
    requires db.Valid()
    ensures db.fbpnum <= db.pool.Length && db.AllocOk(0)
  {
  }

  lemma OneMoreTile(frec: nat, n: nat, j: nat, s: seq<Block>, after: seq<Block>)
    requires 1 <= j < n && s == [TileOf(frec, n, n)] + TilesOf(frec, n, 1, j)
    requires Inserted(s, n, 1, TileOf(frec, n, j), after)
    ensures after == [TileOf(frec, n, n)] + TilesOf(frec, n, 1, j + 1)
  {
    hide TileOf;
    assert |s| == j;
    assert TilesOf(frec, n, 1, j + 1) == TilesOf(frec, n, 1, j) + [TileOf(frec, n, j)];
  }

  // ---------- what is there to read afterwards ----------

  /** Inside the record written last there are zeros. */
  lemma ZeroInside(t: Tile)
    requires t.Rec? && |t.key| == 4 && t.value == Zeros(64) && t.psiz == 78
    ensures |EncodeTile(t)| == 160 && EncodeTile(t)[80] == 0
  {
    hide ToLE, EncodeFixed, Varint.Encode;
    SmallNumbers(4);
    SmallNumbers(64);
    var sizes := EncodeSizes(t.key, t.value);
    var fixed := EncodeFixed(t.hash, t.left, t.right, t.psiz);
    var body := t.key + (t.value + Zeros(t.psiz));
    assert |sizes| == 2 && |fixed| == 12;
    assert (fixed + (sizes + body))[80] == body[66];
  }

  /** tchdbreadrec fails at p. */
  predicate Fails(image: Bytes, p: nat) { p < |image| && DecodeTile(image[p..]).Bad? }

  lemma FailsAtOnce(image: Bytes, p: nat)
    requires Fails(image, p)
    ensures Halts(image, p) && NextKey(image, p) == (None, p)
  {
    hide DecodeTile;
  }

  /** The bytes at the iterator are no header. */
  lemma NoHeader(image: Bytes, file: File, disk: Disk, frec: nat, fsiz: nat, o: nat)
    requires Imaged(image, file) && OnFile(file, disk, 0) && Tiling(disk, frec, fsiz) && |image| == fsiz
    requires o in disk && disk[o].Rec? && |disk[o].key| == 4 && disk[o].value == Zeros(64) && Size(disk[o]) == 160
    ensures Fails(image, o + 80)
  {
    hide EncodeTile, Tiling;
    NoZero(disk, frec, fsiz);
    NextTile(disk, frec, fsiz, o);
    RecordTakes(disk[o].key, disk[o].value, 0);
    ZeroInside(disk[o]);
    assert Shows(image, o, file[o]);
    assert image[o + 80] == EncodeTile(disk[o])[80];
  }

  /** A record holds what the dictionary says. */
  lemma RecordValue(trees: seq<Tree>, bnum: nat, disk: Disk, dict: map<Bytes, Bytes>, o: nat, k: Bytes)
    requires bnum > 0 && ForestOk(trees, bnum, disk) && DictOk(dict, trees, bnum) && StandsOnKey(disk, o, k)
    ensures k in dict && disk[o].value == dict[k]
  {
    hide BucketIndex, Locate, Ordered, Stored;
    var home := BucketIndex(k, bnum);
    var t := trees[home];
    assert TreeOk(t, home, bnum, disk);
    OffIsLocated(disk, t, o);
    LocateFinds(t, k);
    LocateSlot(disk, t, k);
    FoundRecord(disk, 0, 0, Locate(t, k).1);
  }

  /** Record 0 is put again, over the tiles of records n - 1 and n. */
  method PutOverBoth(db: HashDb, n: nat)
    requires Walking(db) && Roomy(db.frec, n) && db.iter == Off(db.frec, n, n) && Key(0) !in db.dict
    requires db.fbpnum <= db.pool.Length
    requires Finds(db.pool[..db.fbpnum], 100, Both(db.frec, n))
    requires RecordIn(db.disk, TileOf(db.frec, n, n + 1), Key(n + 1))
    modifies db, db.pool, db.buckets
    ensures db.Valid() && db.iter == old(db.iter) && Fails(db.image, db.iter)
    ensures RecordIn(db.disk, TileOf(db.frec, n, n + 1), Key(n + 1)) && Key(n + 1) in db.dict
  {
    hide Tiling, PoolOk, OnFile, Imaged, ForestOk, DictOk, OthersStay, Skippable, PutOver, Need, Keeps, CanRead,
      HasRoom, Key, Size, FirstLarger, Off, Fails;
    ghost var disk0, s := db.disk, db.pool[..db.fbpnum];
    AbsentHasNoPlace(db.trees, db.bnum, db.disk, db.dict, Key(0));
    NewRoom(db.disk, s, db.pool.Length, db.fpow, Key(0), Zeros(64));
    RecordTakes(Key(0), Zeros(64), 0);
    KeysAreDifferent(0, n + 1);
    NextOff(db.frec, n, n - 1);
    ghost var at, _ := db.Put(Key(0), Zeros(64));
    LastStays(disk0, db.disk, TileOf(db.frec, n, n + 1), Key(n + 1), Key(0));
    RecordValue(db.trees, db.bnum, db.disk, db.dict, at, Key(0));
    RecordValue(db.trees, db.bnum, db.disk, db.dict, Off(db.frec, n, n + 1), Key(n + 1));
    NoHeader(db.image, db.file, db.disk, db.frec, db.fsiz, at);
  }

  lemma LastStays(before: Disk, after: Disk, b: Block, k: Bytes, key: Bytes)
    requires OthersStay(before, after, key) && RecordIn(before, b, k) && k != key
    ensures RecordIn(after, b, k)
  {
    hide Size;
  }

  /** Records are stored and one of them removed; then all in front of its tile are fetched. The fetched
      ones are removed; the last removal finds the pool full and merges it. Record 0, fetched too, is
      put again into the largest entry, on which the iterator stands. tchdbiternext then fails, though
      the last record is stored, was never touched and has not been delivered. */
  method FetchedRecordsOnly(bnum: nat, fpow: nat)
    returns (db: HashDb, fetched: seq<Bytes>, next: Option<Bytes>, missed: Bytes)
    requires 0 < bnum <= 0x1000_0000 && 1 <= fpow <= 20
    ensures fresh(db) && db.Valid() && next.None? && missed in db.dict && missed !in fetched
    ensures 0 < db.iter && Fails(db.image, db.iter) && KeyAtOrAfter(db.disk, db.iter, missed)
  {
    hide HashDb.Valid, Key, Stores, Left, Inserted, RecordIn, HashDb.Readable, Halts, NextKey, TilesOf, TileOf, Off,
      Pow2, Fails, Finds, KeyAtOrAfter;
    var n;
    db, n := StoreAll(bnum, fpow);
    fetched := LastFetched(db, n);
    missed := Key(n + 1);
    FailsAtOnce(db.image, db.iter);
    next := db.IterNext();
  }

  /** The run from there on. */
  method LastFetched(db: HashDb, n: nat) returns (fetched: seq<Bytes>)
    requires db.Valid() && db.fbpnum == 0 && db.fpow >= 1 && n == db.pool.Length && n % 2 == 0 && Roomy(db.frec, n)
    requires Stores(db.disk, db.frec, n, n + 2) && db.frec > 0
    modifies db, db.pool, db.buckets
    ensures db.Valid() && db.iter > 0 && Fails(db.image, db.iter) && KeyAtOrAfter(db.disk, db.iter, Key(n + 1))
    ensures Key(n + 1) in db.dict && Key(n + 1) !in fetched
  {
    hide HashDb.Valid, Key, Stores, Left, RecordIn, HashDb.Readable, TilesOf, TileOf, Off, Fails, Finds, KeyAtOrAfter;
    RemoveNth(db, n);
    db.IterInit();
    IterationStarts(db);
    FirstOff(db.frec, n);
    fetched := FetchAll(db, n);
    RemoveFetched(db, n);
    RemoveFirst(db, n);
    PutOverBoth(db, n);
    Ahead(db.disk, db.frec, n);
    NotFetched(fetched, n);
  }

  lemma FirstOff(frec: nat, n: nat)
    ensures Off(frec, n, 0) == frec
  {
  }

  /** Record n is removed before the iteration. */
  method RemoveNth(db: HashDb, n: nat)
    requires db.Valid() && db.fbpnum == 0 && db.fpow >= 1 && 2 <= n == db.pool.Length && n + 2 < TWO_32
    requires Stores(db.disk, db.frec, n, n + 2)
    modifies db, db.pool, db.buckets
    ensures db.Valid() && db.fbpnum <= n && Left(db.disk, db.frec, n, 1)
    ensures db.pool[..db.fbpnum] == [TileOf(db.frec, n, n)]
  {
    hide HashDb.Valid, Key, Stores, Left, Inserted, RecordIn, HashDb.Readable, TileOf;
    StoredAreLeft(db.disk, db.frec, n);
    ghost var disk0, s := db.disk, db.pool[..db.fbpnum];
    RemoveOne(db, Key(n), TileOf(db.frec, n, n));
    PoolBound(db);
    LessLeft(disk0, db.disk, db.frec, n, 1, n);
    FirstEntry(s, n, TileOf(db.frec, n, n), db.pool[..db.fbpnum]);
  }

  /** Record 0 is removed, and the full pool is merged. */
  method RemoveFirst(db: HashDb, n: nat)
    requires Walking(db) && db.fpow >= 1 && 2 <= n == db.pool.Length && n % 2 == 0 && n + 2 < TWO_32 && db.fbpnum <= n
    requires Left(db.disk, db.frec, n, n)
    requires db.pool[..db.fbpnum] == [TileOf(db.frec, n, n)] + TilesOf(db.frec, n, 1, n)
    modifies db, db.pool, db.buckets
    ensures Walking(db) && db.iter == old(db.iter) && Key(0) !in db.dict && db.fbpnum <= n
    ensures Finds(db.pool[..db.fbpnum], 100, Both(db.frec, n))
    ensures RecordIn(db.disk, TileOf(db.frec, n, n + 1), Key(n + 1))
  {
    hide HashDb.Valid, Key, Left, Inserted, RecordIn, HashDb.Readable, TileOf, TilesOf, Finds, Both;
    ghost var disk0, s := db.disk, db.pool[..db.fbpnum];
    RecordZero(db.disk, db.frec, n);
    RemoveOne(db, Key(0), TileOf(db.frec, n, 0));
    PoolBound(db);
    FindsBoth(db.frec, n, s, db.pool[..db.fbpnum]);
    OthersLeftOf(disk0, db.disk, db.frec, n);
  }

  lemma OthersLeftOf(before: Disk, after: Disk, frec: nat, n: nat)
    requires forall c, k :: RecordIn(before, c, k) && k != Key(0) ==> RecordIn(after, c, k)
    requires RecordIn(before, TileOf(frec, n, n + 1), Key(n + 1)) && n + 2 < TWO_32
    ensures RecordIn(after, TileOf(frec, n, n + 1), Key(n + 1))
  {
    hide RecordIn, TileOf, Key;
    KeysAreDifferent(0, n + 1);
  }

  lemma Ahead(disk: Disk, frec: nat, n: nat)
    requires RecordIn(disk, TileOf(frec, n, n + 1), Key(n + 1))
    ensures KeyAtOrAfter(disk, Off(frec, n, n), Key(n + 1))
  {
    hide Key, Off, Size;
    NextOff(frec, n, n);
  }

  lemma NotFetched(fetched: seq<Bytes>, n: nat)
    requires |fetched| == n && n + 2 < TWO_32 && forall i :: 0 <= i < n ==> fetched[i] == Key(i)
    ensures Key(n + 1) !in fetched
  {
    hide Key;
    forall i | 0 <= i < n
      ensures fetched[i] != Key(n + 1)
    {
      KeysAreDifferent(i, n + 1);
    }
  }

  lemma FirstEntry(s: seq<Block>, n: nat, b: Block, after: seq<Block>)
    requires s == [] && n >= 2 && Inserted(s, n, 1, b, after)
    ensures after == [b]
  {
  }

  lemma RecordZero(disk: Disk, frec: nat, n: nat)
    requires Left(disk, frec, n, n)
    ensures RecordIn(disk, TileOf(frec, n, 0), Key(0)) && RecordIn(disk, TileOf(frec, n, n + 1), Key(n + 1))
  {
  }
}
