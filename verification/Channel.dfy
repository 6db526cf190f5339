/** A ring shared by any number of threads through two semaphores and a mutex: the protocol of
    fmd_queue_dispatch, put_to_agent, queue_start and do_agent (evt_modules/evtlib/evt_src.c:53-70,
    fms/fmd_queue.c:25-37, 257-270, evt_modules/evtlib/evt_agent.c:419-429).

    A sender waits for ring_vaild, adds under the lock, posts ring_contain; a receiver waits for
    ring_contain, deletes under the lock, posts ring_vaild. Each is one atomic step. */
module Channel {
  import opened Ring

  /** Where a thread stands. */
  datatype Pc<E> =
    | Idle
    | Claimed(event: E)   // has a free slot, has not added yet
    | Stored              // has added, has not posted ring_contain yet
    | Ticket              // has an item coming, has not deleted yet
    | Taken(event: E)     // has deleted, has not posted ring_vaild yet

  datatype State<E> = State(
    valid: nat,                  // ring_vaild
    contain: nat,                // ring_contain
    queue: seq<E>,               // what the ring stores
    threads: map<nat, Pc<E>>,
    sent: seq<E>,                // every event handed to ring_add, in order
    received: seq<E>,            // every event ring_del returned, in order
    overflow: bool,              // some ring_add reported full
    underflow: bool)             // some ring_del returned nothing

  datatype Step<E> =
    | WaitValid(t: nat, event: E)
    | RingAdd(t: nat)
    | PostContain(t: nat)
    | WaitContain(t: nat)
    | RingDel(t: nat)
    | PostValid(t: nat)

  predicate Enabled<E>(s: State<E>, step: Step<E>) {
    step.t in s.threads &&
    match step
    case WaitValid(t, _) => s.threads[t].Idle? && s.valid > 0
    case RingAdd(t) => s.threads[t].Claimed?
    case PostContain(t) => s.threads[t].Stored?
    case WaitContain(t) => s.threads[t].Idle? && s.contain > 0
    case RingDel(t) => s.threads[t].Ticket?
    case PostValid(t) => s.threads[t].Taken?
  }

  function Apply<E>(s: State<E>, step: Step<E>): State<E>
    requires Enabled(s, step)
  {
    match step
    case WaitValid(t, e) => s.(valid := s.valid - 1, threads := s.threads[t := Claimed(e)])
    case RingAdd(t) =>
      var e := s.threads[t].event;
      var (ok, q) := Added(s.queue, e);
      s.(queue := q, threads := s.threads[t := Stored], sent := s.sent + [e], overflow := s.overflow || !ok)
    case PostContain(t) => s.(contain := s.contain + 1, threads := s.threads[t := Idle])
    case WaitContain(t) => s.(contain := s.contain - 1, threads := s.threads[t := Ticket])
    case RingDel(t) =>
      var (r, q) := Deleted(s.queue);
      if r.None? then s.(threads := s.threads[t := Idle], underflow := true)
      else s.(queue := q, threads := s.threads[t := Taken(r.value)], received := s.received + [r.value])
    case PostValid(t) => s.(valid := s.valid + 1, threads := s.threads[t := Idle])
  }

  /** ring_init, with any set of threads. */
  ghost predicate Init<E>(s: State<E>) {
    && s.valid == RING_SIZE && s.contain == 0 && s.queue == []
    && (forall t :: t in s.threads ==> s.threads[t].Idle?)
    && s.sent == [] && s.received == [] && !s.overflow && !s.underflow
  }

  ghost predicate Possible<E>(s: State<E>, steps: seq<Step<E>>)
    decreases |steps|
  {
    steps == [] || (Enabled(s, steps[0]) && Possible(Apply(s, steps[0]), steps[1..]))
  }

  ghost function After<E>(s: State<E>, steps: seq<Step<E>>): State<E>
    requires Possible(s, steps)
    decreases |steps|
  {
    if steps == [] then s else After(Apply(s, steps[0]), steps[1..])
  }

  // ---------- counting threads ----------

  /** The threads at a place of kind k: 0 claimed, 1 stored, 2 ticket, 3 taken. */
  function Kind<E>(pc: Pc<E>): nat {
    match pc case Claimed(_) => 0 case Stored => 1 case Ticket => 2 case Taken(_) => 3 case Idle => 4
  }

  ghost function At<E>(threads: map<nat, Pc<E>>, k: nat): set<nat> {
    set t | t in threads && Kind(threads[t]) == k
  }

  ghost function Count<E>(threads: map<nat, Pc<E>>, k: nat): nat { |At(threads, k)| }

  /** The threads at k other than t. */
  ghost function Others<E>(threads: map<nat, Pc<E>>, t: nat, k: nat): set<nat> {
    set u | u in threads && u != t && Kind(threads[u]) == k
  }

  lemma CountOthers<E>(threads: map<nat, Pc<E>>, t: nat, k: nat)
    requires t in threads
    ensures Count(threads, k) == |Others(threads, t, k)| + (if Kind(threads[t]) == k then 1 else 0)
  {
    hide Kind;
    var others := Others(threads, t, k);
    if Kind(threads[t]) == k {
      assert At(threads, k) == others + {t};
    } else {
      assert At(threads, k) == others;
    }
  }

  /** What a move of thread t to pc does to the count at k. */
  function Moved<E>(from: Pc<E>, to: Pc<E>, k: nat): int {
    (if Kind(to) == k then 1 else 0) - (if Kind(from) == k then 1 else 0)
  }

  lemma CountMoves<E>(threads: map<nat, Pc<E>>, t: nat, pc: Pc<E>)
    requires t in threads
    ensures forall k: nat :: Count(threads[t := pc], k) == Count(threads, k) + Moved(threads[t], pc, k)
  {
    hide Kind, Count, Others;
    forall k: nat
      ensures Count(threads[t := pc], k) == Count(threads, k) + Moved(threads[t], pc, k)
    {
      SameOthers(threads, t, pc, k);
      CountOthers(threads, t, k);
      CountOthers(threads[t := pc], t, k);
    }
  }

  lemma SameOthers<E>(threads: map<nat, Pc<E>>, t: nat, pc: Pc<E>, k: nat)
    requires t in threads
    ensures Others(threads[t := pc], t, k) == Others(threads, t, k)
  {
    hide Kind;
  }

  // ---------- the invariant ----------

  /** Every slot is free, claimed, stored or taken and not yet given back. */
  ghost predicate SlotsConserved<E>(s: State<E>) {
    s.valid + Count(s.threads, 0) + |s.queue| + Count(s.threads, 3) == RING_SIZE
  }

  /** Every stored item is announced, about to be announced or promised to a receiver. */
  ghost predicate ItemsConserved<E>(s: State<E>) {
    s.contain + Count(s.threads, 1) + Count(s.threads, 2) == |s.queue|
  }

  ghost predicate Inv<E>(s: State<E>) {
    && SlotsConserved(s) && ItemsConserved(s)
    && s.sent == s.received + s.queue
    && !s.overflow && !s.underflow
  }

  lemma InitInv<E>(s: State<E>)
    requires Init(s)
    ensures Inv(s)
  {
    forall k: nat | k < 4
      ensures Count(s.threads, k) == 0
    {
      assert At(s.threads, k) == {};
    }
  }

  /** A thread that has claimed a slot or holds a ticket is counted. */
  lemma Counted<E>(threads: map<nat, Pc<E>>, t: nat)
    requires t in threads
    ensures Count(threads, Kind(threads[t])) >= 1
  {
    assert t in At(threads, Kind(threads[t]));
  }

  lemma StepInv<E>(s: State<E>, step: Step<E>)
    requires Inv(s) && Enabled(s, step)
    ensures Inv(Apply(s, step))
  {
    hide Count;
    var t := step.t;
    Counted(s.threads, t);
    CountMoves(s.threads, t, Apply(s, step).threads[t]);
    match step
    case RingAdd(_) =>
      assert s.received + (s.queue + [s.threads[t].event]) == s.sent + [s.threads[t].event];
    case RingDel(_) =>
      assert s.received + s.queue == (s.received + [s.queue[0]]) + s.queue[1..];
    case _ =>
  }

  lemma {:induction false} RunInv<E>(s: State<E>, steps: seq<Step<E>>)
    requires Inv(s) && Possible(s, steps)
    ensures Inv(After(s, steps))
    decreases |steps|
  {
    if steps != [] {
      StepInv(s, steps[0]);
      RunInv(Apply(s, steps[0]), steps[1..]);
    }
  }

  // ---------- what it is for ----------

  /** In every interleaving of any number of threads, ring_add never reports full, ring_del never
      comes back empty, the slots are conserved, and events leave in the order they entered, each
      exactly once: what was received is a prefix of what was sent, and the rest is still stored. */
  lemma EveryRun<E>(s: State<E>, steps: seq<Step<E>>)
    requires Init(s) && Possible(s, steps)
    ensures var e := After(s, steps);
      && !e.overflow && !e.underflow
      && e.received <= e.sent && e.sent[|e.received|..] == e.queue
      && e.valid + Count(e.threads, 0) + |e.queue| + Count(e.threads, 3) == 128
  {
    InitInv(s);
    RunInv(s, steps);
  }

  /** When no thread is in the middle of an operation the semaphores show exactly what the ring
      holds, so a waiting receiver can go on whenever something is stored, and a sender whenever
      something is free. */
  lemma Quiescent<E>(s: State<E>, steps: seq<Step<E>>)
    requires Init(s) && Possible(s, steps)
    requires forall t :: t in After(s, steps).threads ==> After(s, steps).threads[t].Idle?
    ensures var e := After(s, steps); e.contain == |e.queue| && e.valid == 128 - |e.queue|
  {
    InitInv(s);
    RunInv(s, steps);
    var e := After(s, steps);
    forall k: nat | k < 4
      ensures Count(e.threads, k) == 0
    {
      assert At(e.threads, k) == {};
    }
  }
}
