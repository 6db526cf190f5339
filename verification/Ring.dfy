/** The fixed-size ring every event queue uses (include/fmd_ring.h). */
module Ring {
  import opened Options

  const RING_SIZE: nat := 128

  /** ring_add on the queue of stored items: refused when full. */
  function Added<T>(q: seq<T>, p: T): (bool, seq<T>) {
    if |q| == RING_SIZE then (false, q) else (true, q + [p])
  }

  /** ring_del on the queue of stored items: nothing when empty. */
  function Deleted<T>(q: seq<T>): (Option<T>, seq<T>) {
    if q == [] then (None, q) else (Some(q[0]), q[1..])
  }

  /** The slot k places behind front. */
  function Slot(front: nat, k: nat): (i: nat)
    requires front < RING_SIZE && k <= RING_SIZE
    ensures i < RING_SIZE && i == (front + k) % RING_SIZE
  {
    if front + k < RING_SIZE then front + k else front + k - RING_SIZE
  }

  lemma SlotsDiffer(front: nat, j: nat, k: nat)
    requires front < RING_SIZE && j < k < RING_SIZE
    ensures Slot(front, j) != Slot(front, k)
  {
  }

  lemma SlotShift(front: nat, k: nat)
    requires front < RING_SIZE && k < RING_SIZE
    ensures Slot(Slot(front, 1), k) == Slot(front, k + 1)
  {
  }

  class Ring<T(0)> {
    var front: nat
    var rear: nat
    var count: nat
    const items: array<T>

    ghost predicate Valid()
      reads this
    {
      && items.Length == RING_SIZE && front < RING_SIZE && count <= RING_SIZE
      && rear == Slot(front, count)
    }

    /** The stored items, oldest first. */
    ghost function Contents(): (q: seq<T>)
      reads this, items
      requires Valid()
      ensures |q| == count
    {
      seq(count, k requires 0 <= k < count && Valid() reads this, items => items[Slot(front, k)])
    }

    /** ring_init */
    constructor ()
      ensures Valid() && Contents() == [] && fresh(items)
    {
      front, rear, count := 0, 0, 0;
      items := new T[RING_SIZE];
    }

    /** ring_stat */
    method Stat() returns (n: nat)
      requires Valid()
      ensures n == |Contents()|
    {
      n := count;
    }

    /** ring_add */
    method Add(p: T) returns (ok: bool)
      requires Valid()
      modifies this, items
      ensures Valid() && (ok, Contents()) == Added(old(Contents()), p)
      ensures ok == (|old(Contents())| < 128) && Contents() == old(Contents()) + if ok then [p] else []
    {
      var n := Stat();
      if n == RING_SIZE {
        return false;
      }
      ghost var q := Contents();
      items[rear] := p;
      forall k | 0 <= k < count
        ensures items[Slot(front, k)] == q[k]
      {
        SlotsDiffer(front, k, count);
      }
      rear := (rear + 1) % RING_SIZE;
      count := count + 1;
      assert Contents() == q + [p];
      ok := true;
    }

    /** ring_del */
    method Del() returns (r: Option<T>)
      requires Valid()
      modifies this
      ensures Valid() && (r, Contents()) == Deleted(old(Contents()))
      ensures r.None? ==> old(Contents()) == [] == Contents()
      ensures r.Some? ==> old(Contents()) == [r.value] + Contents()
    {
      var n := Stat();
      if n == 0 {
        return None;
      }
      ghost var q, was := Contents(), front;
      var cur := front;
      front := (front + 1) % RING_SIZE;
      count := count - 1;
      forall k | 0 <= k < count
        ensures items[Slot(front, k)] == q[k + 1]
      {
        SlotShift(was, k);
      }
      assert Contents() == q[1..];
      r := Some(items[cur]);
    }
  }
}
