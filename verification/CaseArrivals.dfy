/** No arrival is lost and none is counted twice: what the cases and entries of a run have counted,
    compared with the arrivals of the run itself (lib/libcase/fmd_case.c:118-308). */
module CaseArrivals {
  import opened Options
  import opened Sequences
  import opened CaseEngine
  import opened CaseHistory

  /** A device, or one event id of a device. */
  datatype Subject = Subject(devName: string, devId: int, evtId: Option<int>)

  predicate About(a: Arrival, d: Subject) {
    a.devName == d.devName && a.devId == d.devId && (d.evtId.Some? ==> a.evtId == d.evtId.value)
  }

  /** The case is of the device and has an entry for the event id. */
  ghost predicate Concerns(c: Case, d: Subject) {
    && c.devName == d.devName && c.devId == d.devId
    && (d.evtId.Some? ==> exists j :: 0 <= j < |c.entries| && c.entries[j].evtId == d.evtId.value)
  }

  ghost predicate Present(s: seq<Case>, d: Subject) { exists i :: 0 <= i < |s| && Concerns(s[i], d) }

  /** The arrivals about d since there was last no case, or no entry, for it. */
  ghost function Heard(rules: Rules, h: History, ops: seq<Op>, d: Subject, acc: seq<Arrival>): seq<Arrival>
    requires Possible(rules, h, ops)
    decreases |ops|
  {
    if ops == [] then acc
    else var g := Next(rules, h, ops[0]); Heard(rules, g, ops[1..], d, HeardNext(ops[0], g.cases, d, acc))
  }

  ghost function HeardNext(op: Op, after: seq<Case>, d: Subject, acc: seq<Arrival>): seq<Arrival> {
    if op.Arrive? && About(op.a, d) then acc + [op.a] else if Present(after, d) then acc else []
  }

  function Arrivals(l: seq<Rec>): seq<Arrival> { seq(|l|, i requires 0 <= i < |l| => l[i].a) }

  /** What the logs hold about d in the case numbered id. */
  function LogAbout(h: History, id: nat, d: Subject): seq<Rec> {
    if d.evtId.None? then LogOf(h.caseLog, id)
    else if (id, d.evtId.value) in h.entryLog then h.entryLog[(id, d.evtId.value)] else []
  }

  ghost predicate AllHeard(h: History, d: Subject, acc: seq<Arrival>) {
    && (forall i :: 0 <= i < |h.cases| && Concerns(h.cases[i], d) ==> Arrivals(LogAbout(h, h.cases[i].id, d)) == acc)
    && (!Present(h.cases, d) ==> acc == [])
  }

  /** Case k of g was there before, with what was logged about d. */
  ghost predicate WasThere(h: History, g: History, d: Subject, k: nat)
    requires k < |g.cases|
  {
    exists at :: 0 <= at < |h.cases| && Concerns(h.cases[at], d) && h.cases[at].id == g.cases[k].id
      && LogAbout(h, h.cases[at].id, d) == LogAbout(g, g.cases[k].id, d)
  }

  lemma Unaffected(h: History, g: History, op: Op, d: Subject, acc: seq<Arrival>)
    requires AllHeard(h, d, acc) && !(op.Arrive? && About(op.a, d))
    requires forall k :: 0 <= k < |g.cases| && Concerns(g.cases[k], d) ==> WasThere(h, g, d, k)
    ensures AllHeard(g, d, HeardNext(op, g.cases, d, acc))
  {
    hide Concerns, LogAbout, Arrivals;
  }

  // ---------- one step ----------

  /** The list after an arrival: the case it went to, and the others as they were. */
  lemma ArrivalAt(s: seq<Case>, next: nat, a: Arrival, how: Treatment, times: Times, k: nat)
    requires k < |AddArrival(s, next, a, how, times)|
    ensures var i := FindCase(s, a.devName, a.devId); var g := AddArrival(s, next, a, how, times);
      var at := if i < |s| then k else k - 1;
      if k == (if i < |s| then i else 0) then g[k] == AddEvent(Target(s, next, a, times), a, how, times)
      else 0 <= at < |s| && at != i && g[k] == s[at]
  {
    hide AddEvent, Target;
  }

  lemma TargetAt(s: seq<Case>, next: nat, a: Arrival, how: Treatment, times: Times)
    ensures var i := FindCase(s, a.devName, a.devId); var c := Target(s, next, a, times);
      && c.devName == a.devName && c.devId == a.devId && AddEvent(c, a, how, times).id == c.id
      && AddEvent(c, a, how, times).devName == c.devName && AddEvent(c, a, how, times).devId == c.devId
      && (if i < |s| then c == s[i] else c.id == next && c.entries == [])
  {
  }

  /** An arrival opens no entry for another event id. */
  lemma OtherEntries(c: Case, a: Arrival, how: Treatment, times: Times, d: Subject)
    requires Concerns(AddEvent(c, a, how, times), d) && d.evtId.Some? && d.evtId.value != a.evtId
    ensures Concerns(c, d)
  {
    hide Fires;
    var e := AddEvent(c, a, how, times);
    var j :| 0 <= j < |e.entries| && e.entries[j].evtId == d.evtId.value;
    var i := FindEntry(c.entries, a.evtId);
    assert c.entries[if i < |c.entries| then j else j - 1].evtId == d.evtId.value;
  }

  lemma OtherArrival(rules: Rules, h: History, a: Arrival, times: Times, d: Subject, k: nat)
    requires Inv(h) && Allowed(h, Arrive(a, times)) && !About(a, d)
    requires var g := Next(rules, h, Arrive(a, times)); k < |g.cases| && Concerns(g.cases[k], d)
    ensures WasThere(h, Next(rules, h, Arrive(a, times)), d, k)
  {
    hide AddEvent, Target, AddArrival, Classify, Fires, Counted, CaseOk, Concerns;
    var g, how := Next(rules, h, Arrive(a, times)), Treated(rules, a);
    var i := FindCase(h.cases, a.devName, a.devId);
    ArrivalAt(h.cases, h.next, a, how, times, k);
    TargetAt(h.cases, h.next, a, how, times);
    var c := Target(h.cases, h.next, a, times);
    if k == (if i < |h.cases| then i else 0) {
      ConcernsDevice(g.cases[k], d);
      OtherEntries(c, a, how, times, d);
      if i == |h.cases| { NoEntries(c, d); }
      assert h.cases[i] == c;
    } else {
      var at := if i < |h.cases| then k else k - 1;
      assert h.cases[at].id != c.id;
    }
  }

  lemma ConcernsDevice(c: Case, d: Subject)
    requires Concerns(c, d)
    ensures c.devName == d.devName && c.devId == d.devId
  {
  }

  lemma NoEntries(c: Case, d: Subject)
    requires c.entries == [] && d.evtId.Some?
    ensures !Concerns(c, d)
  {
  }

  /** Before an arrival about d: the case of its device is the one it goes to. */
  lemma OnlyTarget(h: History, a: Arrival, times: Times, d: Subject, at: nat)
    requires Inv(h) && About(a, d) && at < |h.cases| && Concerns(h.cases[at], d)
    ensures at == FindCase(h.cases, a.devName, a.devId)
    ensures d.evtId.Some? ==> FindEntry(h.cases[at].entries, a.evtId) < |h.cases[at].entries|
  {
    hide AllCasesOk, UniqueIds;
  }

  lemma SameArrival(rules: Rules, h: History, a: Arrival, times: Times, d: Subject, acc: seq<Arrival>)
    requires Inv(h) && Allowed(h, Arrive(a, times)) && About(a, d) && AllHeard(h, d, acc)
    ensures var g := Next(rules, h, Arrive(a, times));
      Arrivals(LogAbout(g, Target(h.cases, h.next, a, times).id, d)) == acc + [a]
  {
    hide AddEvent, AddArrival, Classify, Fires, Counted, CaseOk, Inv;
    var g := Next(rules, h, Arrive(a, times));
    var i := FindCase(h.cases, a.devName, a.devId);
    var c := Target(h.cases, h.next, a, times);
    TargetAt(h.cases, h.next, a, Treated(rules, a), times);
    var was := i < |h.cases| && (d.evtId.Some? ==> FindEntry(c.entries, a.evtId) < |c.entries|);
    if was {
      assert Concerns(h.cases[i], d);
      LogOfConcerned(h, i, d);
    } else {
      forall at | 0 <= at < |h.cases|
        ensures !Concerns(h.cases[at], d)
      {
        if Concerns(h.cases[at], d) { OnlyTarget(h, a, times, d, at); }
      }
    }
    var before := if was then LogAbout(h, c.id, d) else [];
    hide FindEntry, Concerns;
    assert LogAbout(g, c.id, d) == before + [Logged(c, a, Treated(rules, a), times)];
    hide LogAbout, Logged;
    ArrivalsGrow(before, Logged(c, a, Treated(rules, a), times));
  }

  lemma LogOfConcerned(h: History, i: nat, d: Subject)
    requires Inv(h) && i < |h.cases| && Concerns(h.cases[i], d)
    ensures d.evtId.Some? ==> (h.cases[i].id, d.evtId.value) in h.entryLog
  {
  }

  lemma ArrivalsGrow(l: seq<Rec>, rec: Rec)
    ensures Arrivals(l + [rec]) == Arrivals(l) + [rec.a] && Arrivals([]) == []
  {
  }

  lemma AllHeardIs(h: History, d: Subject, acc: seq<Arrival>)
    requires Present(h.cases, d)
    requires forall i :: 0 <= i < |h.cases| && Concerns(h.cases[i], d) ==>
      Arrivals(LogAbout(h, h.cases[i].id, d)) == acc
    ensures AllHeard(h, d, acc)
  {
  }

  /** The case an arrival has gone to concerns it. */
  lemma TargetConcerned(c: Case, a: Arrival, how: Treatment, times: Times, d: Subject)
    requires About(a, d) && c.devName == a.devName && c.devId == a.devId
    ensures Concerns(AddEvent(c, a, how, times), d)
  {
    hide Fires;
    var i := FindEntry(c.entries, a.evtId);
    assert AddEvent(c, a, how, times).entries[if i < |c.entries| then i else 0].evtId == a.evtId;
  }

  lemma TargetPresent(rules: Rules, h: History, a: Arrival, times: Times, d: Subject)
    requires Allowed(h, Arrive(a, times)) && About(a, d)
    ensures Present(Next(rules, h, Arrive(a, times)).cases, d)
  {
    hide AddEvent, Target, AddArrival, Classify, Concerns, Logged;
    var how := Treated(rules, a);
    var i := FindCase(h.cases, a.devName, a.devId);
    var g := AddArrival(h.cases, h.next, a, how, times);
    TargetAt(h.cases, h.next, a, how, times);
    TargetConcerned(Target(h.cases, h.next, a, times), a, how, times, d);
    LengthAfter(h.cases, h.next, a, how, times);
    ArrivalAt(h.cases, h.next, a, how, times, if i < |h.cases| then i else 0);
    assert Concerns(g[if i < |h.cases| then i else 0], d);
  }

  lemma LengthAfter(s: seq<Case>, next: nat, a: Arrival, how: Treatment, times: Times)
    ensures |AddArrival(s, next, a, how, times)| == if FindCase(s, a.devName, a.devId) < |s| then |s| else |s| + 1
  {
  }

  lemma TargetOnly(rules: Rules, h: History, a: Arrival, times: Times, d: Subject, k: nat)
    requires Inv(h) && Allowed(h, Arrive(a, times)) && About(a, d)
    requires var g := Next(rules, h, Arrive(a, times)); k < |g.cases| && Concerns(g.cases[k], d)
    ensures Next(rules, h, Arrive(a, times)).cases[k].id == Target(h.cases, h.next, a, times).id
  {
    hide AddEvent, Target, AddArrival, Classify, Concerns, Logged, AllCasesOk, UniqueIds;
    var how := Treated(rules, a);
    ArrivalAt(h.cases, h.next, a, how, times, k);
    TargetAt(h.cases, h.next, a, how, times);
    ConcernsDevice(Next(rules, h, Arrive(a, times)).cases[k], d);
  }

  lemma ArriveHeard(rules: Rules, h: History, a: Arrival, times: Times, d: Subject, acc: seq<Arrival>)
    requires Inv(h) && Allowed(h, Arrive(a, times)) && AllHeard(h, d, acc)
    ensures var op := Arrive(a, times); var g := Next(rules, h, op); AllHeard(g, d, HeardNext(op, g.cases, d, acc))
  {
    hide AddEvent, AddArrival, Target, Classify, Fires, Counted, CaseOk, Inv, Concerns, LogAbout, Arrivals, AllHeard;
    var op := Arrive(a, times);
    var g := Next(rules, h, op);
    if About(a, d) {
      SameArrival(rules, h, a, times, d, acc);
      ArriveInv(rules, h, a, times);
      TargetPresent(rules, h, a, times, d);
      forall k | 0 <= k < |g.cases| && Concerns(g.cases[k], d)
        ensures Arrivals(LogAbout(g, g.cases[k].id, d)) == acc + [a]
      {
        TargetOnly(rules, h, a, times, d, k);
      }
      AllHeardIs(g, d, acc + [a]);
    } else {
      forall k | 0 <= k < |g.cases| && Concerns(g.cases[k], d)
        ensures WasThere(h, g, d, k)
      {
        OtherArrival(rules, h, a, times, d, k);
      }
      Unaffected(h, g, op, d, acc);
    }
  }

  lemma RemoveHeard(rules: Rules, h: History, op: Op, d: Subject, acc: seq<Arrival>)
    requires op.Remove? && AllHeard(h, d, acc)
    ensures var g := Next(rules, h, op); AllHeard(g, d, HeardNext(op, g.cases, d, acc))
  {
    hide Concerns, AllHeard, Delete;
    var g := Next(rules, h, op);
    forall k | 0 <= k < |g.cases| && Concerns(g.cases[k], d)
      ensures WasThere(h, g, d, k)
    {
      LeftWasThere(h.cases, op.devName, op.devId, op.evtId, op.isolated, d, k);
    }
    Unaffected(h, g, op, d, acc);
  }

  /** A case that a removal leaves had all the entries it has. */
  lemma LeftWasThere(s: seq<Case>, devName: string, devId: int, evtId: int, isolated: bool, d: Subject, k: nat)
    requires var g := Delete(s, devName, devId, evtId, isolated).0; k < |g| && Concerns(g[k], d)
    ensures var g := Delete(s, devName, devId, evtId, isolated).0;
      exists at :: 0 <= at < |s| && Concerns(s[at], d) && s[at].id == g[k].id
  {
    var (g, freed) := Delete(s, devName, devId, evtId, isolated);
    DeleteMeans(s, devName, devId, evtId, isolated);
    hide Delete, NothingToRemove;
    match freed {
      case Nothing =>
        assert Concerns(s[k], d);
      case WholeCase(_) =>
        hide Concerns;
        var i :| 0 <= i < |s| && g == s[..i] + s[i + 1..];
        assert g[k] == s[if k < i then k else k + 1];
      case OneEntry(_, _) =>
        var i, j :| 0 <= i < |s| && 0 <= j < |s[i].entries|
          && g == s[i := s[i].(entries := s[i].entries[..j] + s[i].entries[j + 1..])];
        if k == i { EntryLeft(s[i], j, d); }
        assert Concerns(s[k], d);
    }
  }

  lemma EntryLeft(c: Case, j: nat, d: Subject)
    requires j < |c.entries| && Concerns(c.(entries := c.entries[..j] + c.entries[j + 1..]), d)
    ensures Concerns(c, d)
  {
    var left := c.entries[..j] + c.entries[j + 1..];
    if d.evtId.Some? {
      var m :| 0 <= m < |left| && left[m].evtId == d.evtId.value;
      assert c.entries[if m < j then m else m + 1].evtId == d.evtId.value;
    }
  }

  lemma UseHeard(rules: Rules, h: History, op: Op, d: Subject, acc: seq<Arrival>)
    requires op.Use? && Allowed(h, op) && AllHeard(h, d, acc)
    ensures var g := Next(rules, h, op); AllHeard(g, d, HeardNext(op, g.cases, d, acc))
  {
    hide AllHeard;
    var g := Next(rules, h, op);
    forall k | 0 <= k < |g.cases| && Concerns(g.cases[k], d)
      ensures WasThere(h, g, d, k)
    {
      assert Concerns(h.cases[k], d);
    }
    Unaffected(h, g, op, d, acc);
  }

  // ---------- every run ----------

  lemma {:induction false} RunHeard(rules: Rules, h: History, ops: seq<Op>, d: Subject, acc: seq<Arrival>)
    requires Inv(h) && LogsOk(rules, h) && Possible(rules, h, ops) && AllHeard(h, d, acc)
    ensures AllHeard(After(rules, h, ops), d, Heard(rules, h, ops, d, acc))
    decreases |ops|
  {
    hide Inv, LogsOk, AllHeard, HeardNext, Next, Allowed;
    if ops != [] {
      var g := Next(rules, h, ops[0]);
      RunInv(rules, h, ops[..1]) by { OneStep(rules, h, ops); }
      OneStep(rules, h, ops);
      match ops[0] {
        case Arrive(a, times) => ArriveHeard(rules, h, a, times, d, acc);
        case Remove(_, _, _, _) => RemoveHeard(rules, h, ops[0], d, acc);
        case Use(_, _) => UseHeard(rules, h, ops[0], d, acc);
      }
      RunHeard(rules, g, ops[1..], d, HeardNext(ops[0], g.cases, d, acc));
    }
  }

  lemma OneStep(rules: Rules, h: History, ops: seq<Op>)
    requires ops != [] && Allowed(h, ops[0])
    ensures Possible(rules, h, ops[..1]) && After(rules, h, ops[..1]) == Next(rules, h, ops[0])
  {
    hide Next, Allowed;
    assert ops[..1][1..] == [];
  }

  lemma StartHeard(rules: Rules, clock: int, d: Subject)
    ensures Inv(Start(clock)) && LogsOk(rules, Start(clock)) && AllHeard(Start(clock), d, [])
  {
  }

  /** In every run the total of a case is the number of arrivals of its device since the device last
      had no case, and these are what its log holds, in order. */
  lemma EveryArrivalCounted(rules: Rules, clock: int, ops: seq<Op>, i: nat)
    requires Possible(rules, Start(clock), ops) && i < |After(rules, Start(clock), ops).cases|
    ensures var c := After(rules, Start(clock), ops).cases[i];
      var heard := Heard(rules, Start(clock), ops, Subject(c.devName, c.devId, None), []);
      c.total == |heard| && heard == Arrivals(CaseLogAfter(rules, clock, ops, i))
  {
    hide After, Possible, Heard, EntriesOk, UniqueDevices, UniqueIds;
    var h := After(rules, Start(clock), ops);
    var c := h.cases[i];
    var d := Subject(c.devName, c.devId, None);
    RunHeard(rules, Start(clock), ops, d, []) by { StartHeard(rules, clock, d); }
    EveryRun(rules, clock, ops);
    assert Concerns(h.cases[i], d);
    assert CaseOk(c, LogOf(h.caseLog, c.id), h.entryLog, h.clock);
  }

  /** In every run the count of an entry is the number of arrivals of its device with its event id since
      there was last no entry for it. */
  lemma EveryEventCounted(rules: Rules, clock: int, ops: seq<Op>, i: nat, j: nat)
    requires Possible(rules, Start(clock), ops)
    requires var h := After(rules, Start(clock), ops); i < |h.cases| && j < |h.cases[i].entries|
    ensures var c := After(rules, Start(clock), ops).cases[i]; var e := c.entries[j];
      var heard := Heard(rules, Start(clock), ops, Subject(c.devName, c.devId, Some(e.evtId)), []);
      e.count == |heard| && heard == Arrivals(LogAfter(rules, clock, ops, i, j))
  {
    hide After, Possible, Heard, UniqueDevices, UniqueIds, FiresAsPromised, Chronological;
    var h := After(rules, Start(clock), ops);
    var c := h.cases[i];
    var d := Subject(c.devName, c.devId, Some(c.entries[j].evtId));
    RunHeard(rules, Start(clock), ops, d, []) by { StartHeard(rules, clock, d); }
    EveryRun(rules, clock, ops);
    assert Concerns(h.cases[i], d);
    assert CaseOk(c, LogOf(h.caseLog, c.id), h.entryLog, h.clock);
  }
}
