/** Whole sessions with an open database: every run of operations, and full iterations. */
module Sessions {
  import opened Options
  import opened KeyOrder
  import opened Tiles
  import opened FreePool
  import opened Allocator
  import opened Forest
  import opened Iteration
  import opened RecordCodec
  import opened Layout
  import opened Placement
  import opened Leading
  import opened PutSteps
  import opened Scanning
  import opened HashDb

  datatype Op = PutOp(key: Bytes, value: Bytes) | OutOp(key: Bytes) | GetOp(key: Bytes) | ReopenOp

  datatype Answer = Done(ok: bool) | Value(value: Option<Bytes>)

  /** What a plain dictionary does and answers. */
  function Step(dict: map<Bytes, Bytes>, op: Op): (map<Bytes, Bytes>, Answer) {
    match op
    case PutOp(k, v) => (dict[k := v], Done(true))
    case OutOp(k) => (dict - {k}, Done(k in dict))
    case GetOp(k) => (dict, Value(if k in dict then Some(dict[k]) else None))
    case ReopenOp => (dict, Done(true))
  }

  function AfterRun(dict: map<Bytes, Bytes>, ops: seq<Op>): map<Bytes, Bytes>
    decreases |ops|
  {
    if ops == [] then dict else AfterRun(Step(dict, ops[0]).0, ops[1..])
  }

  function Answers(dict: map<Bytes, Bytes>, ops: seq<Op>): seq<Answer>
    decreases |ops|
  {
    if ops == [] then [] else [Step(dict, ops[0]).1] + Answers(Step(dict, ops[0]).0, ops[1..])
  }

  function TotalCost(ops: seq<Op>): nat {
    if ops == [] then 0
    else (if ops[0].PutOp? then Cost(ops[0].key, ops[0].value) else 0) + TotalCost(ops[1..])
  }

  method Perform(db: HashDb, op: Op) returns (a: Answer)
    requires db.Valid() && (op.PutOp? ==> db.CanPut(op.key, op.value))
    modifies db, db.pool, db.buckets
    ensures db.Valid() && (db.dict, a) == Step(old(db.dict), op)
    ensures db.fsiz <= old(db.fsiz) + TotalCost([op])
  {
    hide Tiling, PoolOk, OnFile, Imaged, ForestOk, DictOk, PutOver, Settled, OthersStay, Skippable, GivenUp, KeyGone,
      Need, Keeps, CanRead;
    assert [op][1..] == [];
    match op
    case PutOp(k, v) => ghost var _, _ := db.Put(k, v); a := Done(true);
    case OutOp(k) => var ok := db.Out(k); a := Done(ok);
    case GetOp(k) => var r := db.Get(k); a := Value(r);
    case ReopenOp => ghost var _ := db.Reopen(); a := Done(true);
  }

  /** Every run of puts, outs, gets and closings with reopenings answers as a plain dictionary does
      and leaves the dictionary the run leaves, with rnum its size. It only stops at a put that
      finds no room in the file as it then is and cannot be appended below the bound of the 32-bit
      mode, and so never when all puts together are within it. */
  method Run(db: HashDb, ops: seq<Op>) returns (answers: seq<Answer>, done: nat)
    requires db.Valid()
    modifies db, db.pool, db.buckets
    ensures done <= |ops| && db.Valid() && db.dict == AfterRun(old(db.dict), ops[..done]) && db.rnum == |db.dict|
    ensures answers == Answers(old(db.dict), ops[..done])
    ensures done < |ops| ==> ops[done].PutOp? && !db.CanPut(ops[done].key, ops[done].value)
    ensures old(db.fsiz) + TotalCost(ops) <= FILE_LIMIT ==> done == |ops|
  {
    hide HashDb.Valid, HashDb.AllocOk, HashDb.TreesOk, Step, AfterRun, Answers, TotalCost;
    answers, done := [], 0;
    RunStart(db.dict, ops);
    while done < |ops|
      invariant 0 <= done <= |ops| && db.Valid()
      invariant db.dict == AfterRun(old(db.dict), ops[..done]) && answers == Answers(old(db.dict), ops[..done])
      invariant db.fsiz + TotalCost(ops[done..]) <= old(db.fsiz) + TotalCost(ops)
    {
      RunStep(old(db.dict), ops, done);
      CountIsSize(db);
      if ops[done].PutOp? {
        if db.fsiz + Cost(ops[done].key, ops[done].value) <= FILE_LIMIT {
          CheapFits(db, ops[done].key, ops[done].value);
        }
        var room := db.Accepts(ops[done].key, ops[done].value);
        if !room {
          break;
        }
      }
      var a := Perform(db, ops[done]);
      answers := answers + [a];
      done := done + 1;
    }
    CountIsSize(db);
  }

  lemma RunStart(dict: map<Bytes, Bytes>, ops: seq<Op>)
    ensures AfterRun(dict, ops[..0]) == dict && Answers(dict, ops[..0]) == [] && ops[0..] == ops
  {
  }

  /** One more operation at the end of a run. */
  lemma RunStep(dict: map<Bytes, Bytes>, ops: seq<Op>, i: nat)
    requires i < |ops|
    ensures var last := Step(AfterRun(dict, ops[..i]), ops[i]);
      AfterRun(dict, ops[..i + 1]) == last.0 && Answers(dict, ops[..i + 1]) == Answers(dict, ops[..i]) + [last.1]
    ensures TotalCost(ops[i..]) == TotalCost([ops[i]]) + TotalCost(ops[i + 1..])
    ensures TotalCost([ops[i]]) == if ops[i].PutOp? then Cost(ops[i].key, ops[i].value) else 0
  {
    hide Step;
    assert ops[i..][1..] == ops[i + 1..] && [ops[i]][1..] == [];
    assert ops[..i + 1] == ops[..i] + [ops[i]];
    RunAppend(dict, ops[..i], ops[i]);
  }

  lemma {:induction false} RunAppend(dict: map<Bytes, Bytes>, ops: seq<Op>, op: Op)
    ensures var last := Step(AfterRun(dict, ops), op);
      AfterRun(dict, ops + [op]) == last.0 && Answers(dict, ops + [op]) == Answers(dict, ops) + [last.1]
    decreases |ops|
  {
    hide Step;
    if ops == [] {
      assert [op][1..] == [];
    } else {
      assert (ops + [op])[1..] == ops[1..] + [op];
      RunAppend(Step(dict, ops[0]).0, ops[1..], op);
    }
  }

  lemma CheapFits(db: HashDb, key: Bytes, value: Bytes)
    requires db.Valid() && db.fsiz + Cost(key, value) <= FILE_LIMIT
    ensures db.AllocOk(0) && db.Fits(key, value)
  {
    hide Tiling, PoolOk, OnFile, Imaged, ForestOk, DictOk, Need;
    NeedBound(key, value);
  }

  lemma CountIsSize(db: HashDb)
    requires db.Valid()
    ensures db.rnum == |db.dict| && db.fsiz <= FILE_LIMIT
  {
  }

  /** A full iteration without updates in between: every stored key exactly once, rnum in all. */
  method Enumerate(db: HashDb) returns (keys: seq<Bytes>)
    requires db.Valid()
    modifies db`iter
    ensures db.Valid() && NoDuplicates(keys) && |keys| == db.rnum
    ensures forall k :: k in keys <==> k in db.dict
  {
    hide HashDb.Valid, HashDb.AllocOk, NoDuplicates, HashDb.Readable, Halts, NextKey;
    db.IterInit();
    IterationStarts(db);
    ghost var all := db.Pending();
    keys := [];
    while true
      invariant Walking(db) && db.AllocOk(0) && keys + db.Pending() == all
      decreases |db.Pending()|
    {
      ghost var before := db.Pending();
      var r := Fetch(db);
      if r.None? {
        assert keys + before == keys;
        return;
      }
      assert keys + ([r.value] + db.Pending()) == (keys + [r.value]) + db.Pending();
      keys := keys + [r.value];
    }
  }

  /** An iteration is under way. */
  ghost predicate Walking(db: HashDb)
    reads db, db.pool, db.buckets
  {
    db.Valid() && db.Readable() && db.iter > 0
  }

  /** One step of it: the first of the keys to come, and then the others are to come. */
  method Fetch(db: HashDb) returns (r: Option<Bytes>)
    requires Walking(db)
    modifies db`iter
    ensures Walking(db) && db.AllocOk(0) && db.IterOk()
    ensures r.None? ==> old(db.Pending()) == [] == db.Pending()
    ensures r.Some? ==> old(db.Pending()) == [r.value] + db.Pending() && JustBefore(db.disk, db.iter, r.value)
  {
    hide HashDb.TreesOk, KeysFrom, Tiling, PoolOk, OnFile, Imaged, JustBefore, Halts, NextKey, DecodeTile, FindsNext,
      Leads, Aligned;
    ReadableFinds(db.image, db.file, db.disk, db.frec, db.fsiz, db.iter);
    db.Delivered(db.iter);
    FrecPositive(db.disk, db.frec, db.fsiz);
    r := db.IterNext();
  }

  lemma IterationStarts(db: HashDb)
    requires db.Valid() && db.Readable() && db.iter == db.frec
    ensures db.AllocOk(0) && Walking(db)
  {
    hide Tiling, PoolOk, OnFile, Imaged, ForestOk, DictOk, CanRead;
    FrecPositive(db.disk, db.frec, db.fsiz);
  }
}
