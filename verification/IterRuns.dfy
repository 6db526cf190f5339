/** Whole iterations with any removals and puts in between. */
module IterRuns {
  import opened Options
  import opened KeyOrder
  import opened Tiles
  import opened FreePool
  import opened Allocator
  import opened Forest
  import opened Iteration
  import opened StoreSteps
  import opened Leading
  import opened PutSteps
  import opened HashDb
  import opened Sessions
  import opened PutChange
  import opened IterSessions

  datatype IterOp = Next | Remove(key: Bytes) | Update(key: Bytes, value: Bytes)

  /** The dictionary after a run. */
  function DictAfter(dict: map<Bytes, Bytes>, ops: seq<IterOp>): map<Bytes, Bytes> {
    if ops == [] then dict
    else
      var before := DictAfter(dict, ops[..|ops| - 1]);
      match ops[|ops| - 1]
      case Next => before
      case Remove(k) => before - {k}
      case Update(k, v) => before[k := v]
  }

  predicate Touches(op: IterOp, k: Bytes) { !op.Next? && op.key == k }

  ghost predicate Untouched(ops: seq<IterOp>, k: Bytes) { forall i :: 0 <= i < |ops| ==> !Touches(ops[i], k) }

  /** How often the run delivered k. `log` has an answer for every operation. */
  function Times(log: seq<Option<Bytes>>, k: Bytes): nat { multiset(log)[Some(k)] }

  /** A key that was stored at the start and never touched has been delivered once or is still to
      come, and not both. */
  ghost predicate Tracked(dict: map<Bytes, Bytes>, ops: seq<IterOp>, log: seq<Option<Bytes>>, pending: seq<Bytes>) {
    forall k :: k in dict && Untouched(ops, k) ==> Times(log, k) + (if k in pending then 1 else 0) == 1
  }

  ghost predicate AtMostOnce(dict: map<Bytes, Bytes>, ops: seq<IterOp>, log: seq<Option<Bytes>>) {
    forall k :: k in dict && Untouched(ops, k) ==> Times(log, k) <= 1
  }

  /** What is delivered is stored at that moment. */
  ghost predicate StoredThen(dict: map<Bytes, Bytes>, ops: seq<IterOp>, log: seq<Option<Bytes>>) {
    && |log| == |ops|
    && forall i :: 0 <= i < |log| && log[i].Some? ==> ops[i].Next? && log[i].value in DictAfter(dict, ops[..i])
  }

  // ---------- one step ----------

  lemma UntouchedBefore(ops: seq<IterOp>, op: IterOp, k: Bytes)
    requires Untouched(ops + [op], k)
    ensures Untouched(ops, k) && !Touches(op, k)
  {
    var all := ops + [op];
    assert all[|ops|] == op;
    forall i | 0 <= i < |ops|
      ensures !Touches(ops[i], k)
    {
      assert all[i] == ops[i];
    }
  }

  lemma TimesAppend(log: seq<Option<Bytes>>, a: Option<Bytes>, k: Bytes)
    ensures Times(log + [a], k) == Times(log, k) + (if a == Some(k) then 1 else 0)
  {
  }

  lemma TrackNext(dict: map<Bytes, Bytes>, ops: seq<IterOp>, log: seq<Option<Bytes>>, k: Bytes, rest: seq<Bytes>)
    requires Tracked(dict, ops, log, [k] + rest) && NoDuplicates([k] + rest)
    ensures Tracked(dict, ops + [Next], log + [Some(k)], rest) && NoDuplicates(rest)
  {
    hide Times, Untouched, NoDuplicates;
    FirstOnly(k, rest);
    forall x | x in dict && Untouched(ops + [Next], x)
      ensures Times(log + [Some(k)], x) + (if x in rest then 1 else 0) == 1
    {
      UntouchedBefore(ops, Next, x);
      TimesAppend(log, Some(k), x);
      assert x in [k] + rest <==> x == k || x in rest;
    }
  }

  /** An operation that delivers nothing and leaves the other keys as they were. */
  lemma TrackOther(dict: map<Bytes, Bytes>, ops: seq<IterOp>, log: seq<Option<Bytes>>, op: IterOp, before: seq<Bytes>,
    after: seq<Bytes>)
    requires Tracked(dict, ops, log, before) && forall k :: !Touches(op, k) ==> (k in after <==> k in before)
    ensures Tracked(dict, ops + [op], log + [None], after)
  {
    hide Times, Untouched, Touches;
    forall k | k in dict && Untouched(ops + [op], k)
      ensures Times(log + [None], k) + (if k in after then 1 else 0) == 1
    {
      UntouchedBefore(ops, op, k);
      TimesAppend(log, None, k);
    }
  }

  lemma StoredAppend(dict: map<Bytes, Bytes>, ops: seq<IterOp>, log: seq<Option<Bytes>>, op: IterOp, a: Option<Bytes>)
    requires StoredThen(dict, ops, log) && (a.Some? ==> op.Next? && a.value in DictAfter(dict, ops))
    ensures StoredThen(dict, ops + [op], log + [a])
  {
    hide DictAfter;
    var all, answers := ops + [op], log + [a];
    forall i | 0 <= i < |answers| && answers[i].Some?
      ensures all[i].Next? && answers[i].value in DictAfter(dict, all[..i])
    {
      assert all[..i] == if i < |ops| then ops[..i] else ops;
    }
  }

  lemma RunGrows(dict: map<Bytes, Bytes>, ops: seq<IterOp>, i: nat)
    requires i < |ops|
    ensures ops[..i + 1] == ops[..i] + [ops[i]]
    ensures var before, after := DictAfter(dict, ops[..i]), DictAfter(dict, ops[..i + 1]);
      after == match ops[i] case Next => before case Remove(k) => before - {k} case Update(k, v) => before[k := v]
  {
    assert ops[..i + 1][..i] == ops[..i];
  }

  lemma RunBegins(db: HashDb, ops: seq<IterOp>)
    requires db.Valid() && db.AllocOk(0) && forall k :: k in db.Pending() <==> k in db.dict
    ensures ops[..0] == [] && DictAfter(db.dict, []) == db.dict && StoredThen(db.dict, [], [])
    ensures Tracked(db.dict, [], [], db.Pending()) && AtMostOnce(db.dict, [], [])
  {
    hide HashDb.Valid, HashDb.AllocOk, KeysFrom, Untouched;
  }

  // ---------- every run ----------

  /** Place p is strictly inside a record. */
  ghost predicate InSomeRecord(disk: Disk, p: nat) {
    exists o: nat :: o in disk && disk[o].Rec? && o < p < o + Size(disk[o])
  }

  /** Whether the iterator stands inside a record, found out by walking there. */
  method Stands(db: HashDb) returns (ok: bool)
    requires db.Valid()
    ensures ok == !InSomeRecord(db.disk, db.iter)
  {
    hide Tiling, PoolOk, OnFile, Imaged, ForestOk, DictOk, Size;
    FirstTile(db.disk, db.frec, db.fsiz);
    NoZero(db.disk, db.frec, db.fsiz);
    FileWithout(db.file, db.disk, 0);
    var p := db.frec;
    while p < db.fsiz
      invariant p in db.disk || p == db.fsiz
      invariant forall o: nat :: o in db.disk && o < p ==> !(o < db.iter < o + Size(db.disk[o]))
      decreases db.fsiz - p
    {
      NextTile(db.disk, db.frec, db.fsiz, p);
      var t := db.ReadTile(p);
      if p < db.iter < p + Size(t) {
        if t.Free? { OnlyInside(db.disk, db.frec, db.fsiz, p, db.iter); }
        return t.Free?;
      }
      BeforeNext(db.disk, db.frec, db.fsiz, p);
      p := p + Size(t);
    }
    AllBefore(db.disk, db.frec, db.fsiz);
    ok := true;
  }

  lemma OnlyInside(disk: Disk, frec: nat, fsiz: nat, o: nat, p: nat)
    requires Tiling(disk, frec, fsiz) && o in disk && disk[o].Free? && o < p < o + Size(disk[o])
    ensures !InSomeRecord(disk, p)
  {
    hide Tiling, Size;
    forall q: nat | q in disk && disk[q].Rec?
      ensures !(q < p < q + Size(disk[q]))
    {
      TilesApart(disk, frec, fsiz, o, q);
    }
  }

  lemma BeforeNext(disk: Disk, frec: nat, fsiz: nat, p: nat)
    requires Tiling(disk, frec, fsiz) && p in disk
    ensures forall o: nat :: o in disk && o < p + Size(disk[p]) ==> o <= p
  {
    hide Tiling, Size;
    forall o: nat | o in disk && o > p
      ensures o >= p + Size(disk[p])
    {
      NextTile(disk, frec, fsiz, o);
      TilesApart(disk, frec, fsiz, p, o);
    }
  }

  lemma AllBefore(disk: Disk, frec: nat, fsiz: nat)
    requires Tiling(disk, frec, fsiz)
    ensures forall o: nat :: o in disk ==> o < fsiz
  {
    hide Tiling, Size;
    forall o: nat | o in disk
      ensures o < fsiz
    {
      NextTile(disk, frec, fsiz, o);
    }
  }

  /** After a put the iterator can read on unless it is inside a record. */
  lemma ReadsOn(db: HashDb, key: Bytes)
    requires db.Valid() && (db.Readable() <==> !InRecordOf(db.disk, key, db.iter))
    ensures db.Readable() <==> !InSomeRecord(db.disk, db.iter)
  {
    hide Tiling, PoolOk, OnFile, Imaged, ForestOk, DictOk, Size, CanRead;
    if o: nat :| o in db.disk && db.disk[o].Rec? && o < db.iter < o + Size(db.disk[o]) {
      InRecord(db.file, db.disk, db.frec, db.fsiz, o, db.iter);
    }
  }

  lemma PendingOnce(db: HashDb)
    requires Walking(db)
    ensures db.AllocOk(0) && NoDuplicates(db.Pending()) && forall k :: k in db.Pending() ==> k in db.dict
  {
    hide Tiling, PoolOk, OnFile, Imaged, ForestOk, DictOk, KeysFrom, NoDuplicates, KeysDiffer;
    ForestKeysDiffer(db.trees, db.bnum, db.disk);
    KeysFromOnce(db.disk, db.frec, db.fsiz, db.iter);
    PendingIsStored(db);
  }

  lemma OnceSoFar(dict: map<Bytes, Bytes>, ops: seq<IterOp>, log: seq<Option<Bytes>>, pending: seq<Bytes>)
    requires Tracked(dict, ops, log, pending)
    ensures AtMostOnce(dict, ops, log)
  {
    hide Times, Untouched;
  }

  method StepOther(db: HashDb, op: IterOp) returns (ok: bool)
    requires Walking(db) && !op.Next? && (op.Update? ==> db.CanPut(op.key, op.value))
    modifies db, db.pool, db.buckets
    ensures db.Valid() && db.AllocOk(0) && ok == db.Readable() && (ok ==> Walking(db))
    ensures !ok ==> op.Update? && InSomeRecord(db.disk, db.iter)
    ensures db.dict == if op.Remove? then old(db.dict) - {op.key} else old(db.dict)[op.key := op.value]
    ensures forall k :: k != op.key ==> (k in db.Pending() <==> k in old(db.Pending()))
  {
    hide HashDb.TreesOk, KeysFrom, Tiling, PoolOk, OnFile, Imaged, PutCovers, PutIsSafe, Relocates, Moved, Need,
      InPlace, NoDuplicates, Dropped, CanRead, InRecordOf, InSomeRecord, HasRoom;
    if op.Remove? {
      ghost var before := db.Pending();
      var _ := OutWhileIterating(db, op.key);
      DroppedOthers(before, op.key);
      ok := true;
    } else {
      ghost var _ := PutWhileIterating(db, op.key, op.value);
      ok := Stands(db);
      ReadsOn(db, op.key);
    }
  }

  lemma {:induction false} DroppedOthers(s: seq<Bytes>, key: Bytes)
    ensures forall k :: k != key ==> (k in Dropped(s, key) <==> k in s)
  {
    if s != [] { DroppedOthers(s[1..], key); }
  }

  /** One operation of a run; the run goes on as long as the iterator is not lost. */
  method IterStep(db: HashDb, op: IterOp, ghost dict: map<Bytes, Bytes>, ghost ops: seq<IterOp>,
    ghost log: seq<Option<Bytes>>)
    returns (a: Option<Bytes>, ok: bool)
    requires Walking(db) && (op.Update? ==> db.CanPut(op.key, op.value)) && db.AllocOk(0)
    requires db.dict == DictAfter(dict, ops) && StoredThen(dict, ops, log) && Tracked(dict, ops, log, db.Pending())
    modifies db, db.pool, db.buckets
    ensures db.Valid() && db.AllocOk(0) && ok == db.Readable() && (ok ==> Walking(db))
    ensures Tracked(dict, ops + [op], log + [a], db.Pending())
    ensures StoredThen(dict, ops + [op], log + [a]) && AtMostOnce(dict, ops + [op], log + [a])
    ensures db.dict ==
      match op case Next => old(db.dict) case Remove(k) => old(db.dict) - {k} case Update(k, v) => old(db.dict)[k := v]
    ensures op.Next? && a.None? ==> ok && db.Pending() == []
    ensures !ok ==> op.Update? && InSomeRecord(db.disk, db.iter)
  {
    hide HashDb.Valid, HashDb.AllocOk, NoDuplicates, StoredThen, AtMostOnce, Tracked, DictAfter, Untouched,
      HashDb.Readable, InSomeRecord, HashDb.CanPut;
    ghost var before := db.Pending();
    PendingOnce(db);
    if op.Next? {
      a := Fetch(db);
      ok := true;
      if a.None? {
        TrackOther(dict, ops, log, op, before, db.Pending());
      } else {
        assert a.value in before;
        TrackNext(dict, ops, log, a.value, db.Pending());
      }
    } else {
      a := None;
      ok := StepOther(db, op);
      TrackOther(dict, ops, log, op, before, db.Pending());
    }
    OnceSoFar(dict, ops + [op], log + [a], db.Pending());
    StoredAppend(dict, ops, log, op, a);
  }

  /** An iteration with any removals and puts in between. It is a run of the plain dictionary. Every
      key stored at the start and never touched is delivered exactly once, as soon as the iteration
      has come to its end, and never twice before; and nothing is delivered that is not stored at that
      moment. The run only stops early at a put that is not possible in the 32-bit mode or after one
      that has written its record over the iterator's place. */
  method IterRun(db: HashDb, ops: seq<IterOp>) returns (log: seq<Option<Bytes>>, done: nat)
    requires db.Valid()
    modifies db, db.pool, db.buckets
    ensures done == |log| <= |ops| && db.Valid() && db.dict == DictAfter(old(db.dict), ops[..done])
    ensures StoredThen(old(db.dict), ops[..done], log)
    ensures AtMostOnce(old(db.dict), ops[..done], log)
    ensures Tracked(old(db.dict), ops[..done], log, db.Pending())
    ensures done > 0 && ops[done - 1].Next? && log[done - 1].None? ==> db.Pending() == []
    ensures done < |ops| && db.Readable() ==> ops[done].Update? && !db.CanPut(ops[done].key, ops[done].value)
    ensures !db.Readable() ==> done > 0 && ops[done - 1].Update? && InSomeRecord(db.disk, db.iter)
  {
    hide HashDb.Valid, HashDb.AllocOk, NoDuplicates, StoredThen, AtMostOnce, Tracked, DictAfter, Touches, Untouched,
      HashDb.Readable, InSomeRecord, HashDb.CanPut;
    ghost var dict0 := db.dict;
    db.IterInit();
    IterationStarts(db);
    RunBegins(db, ops);
    log, done := [], 0;
    while done < |ops|
      invariant done == |log| <= |ops| && Walking(db) && db.AllocOk(0) && db.dict == DictAfter(dict0, ops[..done])
      invariant StoredThen(dict0, ops[..done], log) && Tracked(dict0, ops[..done], log, db.Pending())
      invariant AtMostOnce(dict0, ops[..done], log)
      invariant done > 0 && ops[done - 1].Next? && log[done - 1].None? ==> db.Pending() == []
    {
      if ops[done].Update? {
        var room := db.Accepts(ops[done].key, ops[done].value);
        if !room {
          break;
        }
      }
      RunGrows(dict0, ops, done);
      var a, ok := IterStep(db, ops[done], dict0, ops[..done], log);
      log := log + [a];
      done := done + 1;
      if !ok {
        return;
      }
    }
  }

  // ---------- what it means ----------

  /** Every touched key has been delivered before: the discipline the header asks for. */
  ghost predicate Disciplined(ops: seq<IterOp>, log: seq<Option<Bytes>>) {
    |log| == |ops| && forall i :: 0 <= i < |ops| && !ops[i].Next? ==> Some(ops[i].key) in log[..i]
  }

  /** When only keys already delivered are removed and updated, every key stored at the start has been
      delivered or is still to come. */
  lemma AllDelivered(dict: map<Bytes, Bytes>, ops: seq<IterOp>, log: seq<Option<Bytes>>, pending: seq<Bytes>, k: Bytes)
    requires Tracked(dict, ops, log, pending) && Disciplined(ops, log) && k in dict
    ensures Some(k) in log || k in pending
  {
    if Some(k) !in log {
      forall i | 0 <= i < |ops|
        ensures !Touches(ops[i], k)
      {
        assert Some(k) !in log[..i];
      }
      assert Untouched(ops, k);
    }
  }

  /** A removed key is not delivered any more unless it is put again. */
  lemma NotAfterRemoval(dict: map<Bytes, Bytes>, ops: seq<IterOp>, log: seq<Option<Bytes>>, i: nat, j: nat, k: Bytes)
    requires StoredThen(dict, ops, log) && i < j < |ops| && ops[i] == Remove(k)
    requires forall m :: i < m < j ==> !(ops[m].Update? && ops[m].key == k)
    ensures log[j] != Some(k)
  {
    hide DictAfter;
    StaysRemoved(dict, ops, i, j, k);
  }

  lemma {:induction false} StaysRemoved(dict: map<Bytes, Bytes>, ops: seq<IterOp>, i: nat, j: nat, k: Bytes)
    requires i < j <= |ops| && ops[i] == Remove(k)
    requires forall m :: i < m < j ==> !(ops[m].Update? && ops[m].key == k)
    ensures k !in DictAfter(dict, ops[..j])
    decreases j
  {
    RunGrows(dict, ops, j - 1);
    if i < j - 1 { StaysRemoved(dict, ops, i, j - 1, k); }
  }
}
