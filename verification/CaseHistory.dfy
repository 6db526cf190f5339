/** What the case engine promises over whole runs. Beside the cases a run keeps two logs that the
    source does not have: for each case everything that arrived since it was created, and for each
    entry everything counted in it since it was created. The invariant says what the engine's
    counters and decisions are in terms of these logs. */
module CaseHistory {
  import opened Options
  import opened Sequences
  import opened CaseEngine

  /** An arrival, how it was treated, whether it opened an entry and what it raised. */
  datatype Rec = Rec(a: Arrival, how: Treatment, times: Times, opens: bool, fault: Option<FaultEvent>)

  datatype History = History(
    cases: seq<Case>, next: nat, clock: int,
    caseLog: map<nat, seq<Rec>>, entryLog: map<(nat, int), seq<Rec>>)

  /** A step of a run: an arrival, a removal, or an agent changing a use count at any time. */
  datatype Op =
    | Arrive(a: Arrival, times: Times)
    | Remove(devName: string, devId: int, evtId: int, isolated: bool)
    | Use(k: nat, count: int)

  datatype Rules = Rules(faults: seq<string>, serds: seq<SerdRule>)

  /** The clock never goes back. */
  predicate Allowed(h: History, op: Op) {
    match op
    case Arrive(_, t) => h.clock <= t.begun <= t.added <= t.stamped <= t.tested <= t.first <= t.fired
    case Use(k, _) => k < |h.cases|
    case Remove(_, _, _, _) => true
  }

  function Treated(rules: Rules, a: Arrival): Treatment { Classify(rules.faults, rules.serds, a.eclass) }

  /** The log entry of an arrival in case c. */
  function Logged(c: Case, a: Arrival, how: Treatment, times: Times): Rec {
    Rec(a, how, times, FindEntry(c.entries, a.evtId) == |c.entries|, Fires(c, a, how, times))
  }

  function LogOf(log: map<nat, seq<Rec>>, id: nat): seq<Rec> { if id in log then log[id] else [] }

  function Next(rules: Rules, h: History, op: Op): History
    requires Allowed(h, op)
  {
    match op
    case Arrive(a, times) =>
      var c := Target(h.cases, h.next, a, times);
      var rec := Logged(c, a, Treated(rules, a), times);
      var key := (c.id, a.evtId);
      var isNew := FindCase(h.cases, a.devName, a.devId) == |h.cases|;
      var isFirst := FindEntry(c.entries, a.evtId) == |c.entries|;
      History(AddArrival(h.cases, h.next, a, Treated(rules, a), times),
              if isNew then h.next + 1 else h.next, times.fired,
              h.caseLog[c.id := (if isNew then [] else LogOf(h.caseLog, c.id)) + [rec]],
              h.entryLog[key := (if isFirst || key !in h.entryLog then [] else h.entryLog[key]) + [rec]])
    case Remove(devName, devId, evtId, isolated) =>
      h.(cases := Delete(h.cases, devName, devId, evtId, isolated).0)
    case Use(k, count) => h.(cases := h.cases[k := h.cases[k].(using := count)])
  }

  // ---------- what the logs say ----------

  /** How many of the arrivals raised a fault. */
  ghost function FiredCount(l: seq<Rec>): nat { |Raised(l)| }

  ghost function Raised(l: seq<Rec>): set<nat> { set i: nat | i < |l| && l[i].fault.Some? }

  /** The k-th fault raised on a case carries k. */
  ghost predicate NumberedFaults(l: seq<Rec>) {
    forall i :: 0 <= i < |l| && l[i].fault.Some? ==> l[i].fault.value.refs == FiredCount(l[..i + 1])
  }

  /** The promise: the i-th arrival counted in an entry raises a fault exactly when the entry is of
      a fault class, or at least N have arrived and less than T has passed since the first. What
      counts is how the first arrival of the entry was classified. */
  ghost predicate FiresAsPromised(l: seq<Rec>) {
    forall i :: 0 <= i < |l| ==>
      (l[i].fault.Some? <==>
       l[0].how.etype.Fault? || (l[0].how.n <= i + 1 && l[0].how.t > l[i].times.tested - l[0].times.added))
  }

  ghost predicate Chronological(l: seq<Rec>, clock: int) {
    && (forall i, j :: 0 <= i <= j < |l| ==> l[i].times.tested <= l[j].times.tested)
    && (forall i :: 0 <= i < |l| ==> l[0].times.added <= l[i].times.tested <= clock)
  }

  /** A plain report has no window. */
  predicate Sane(how: Treatment) { how.etype.Report? ==> how.t == 0 }

  /** All arrivals are of the case's device. */
  ghost predicate FromDevice(l: seq<Rec>, c: Case) {
    forall i :: 0 <= i < |l| ==> l[i].a.devName == c.devName && l[i].a.devId == c.devId
  }

  /** What the fields of an entry tell of its arrivals; the first one opened it. */
  ghost predicate EntryTells(e: Entry, l: seq<Rec>) {
    && l != [] && l[0].opens && (forall i :: 0 < i < |l| ==> !l[i].opens)
    && e.count == |l| && e.uid == l[0].a.uid && e.eclass == l[0].a.eclass && e.how == l[0].how
    && e.created == l[0].times.added
    && e.lastOccur == (if |l| == 1 then l[0].times.stamped else l[|l| - 1].a.created)
    && (forall i :: 0 <= i < |l| ==> l[i].a.evtId == e.evtId)
  }

  /** What the fields of a case tell of its arrivals: when it was created, whether, when first and when
      last a fault was raised, and the class of the arrival that last opened an entry. */
  ghost predicate CaseTells(c: Case, log: seq<Rec>) {
    && FromDevice(log, c)
    && (if log == [] then c.entries == [] else log[0].opens && c.created == log[0].times.begun)
    && (c.hasFired <==> c.fires > 0)
    && (c.hasFired <==> exists k :: 0 <= k < |log| && log[k].fault.Some?)
    && (forall k :: (0 <= k < |log| && log[k].fault.Some? && forall m :: 0 <= m < k ==> log[m].fault.None?) ==>
          c.firstFire == log[k].times.first)
    && (forall k :: (0 <= k < |log| && log[k].fault.Some? && forall m :: k < m < |log| ==> log[m].fault.None?) ==>
          c.lastFire == log[k].times.fired)
    && (forall k :: (0 <= k < |log| && log[k].opens && forall m :: k < m < |log| ==> !log[m].opens) ==>
          c.lastClass == log[k].a.eclass)
  }

  ghost predicate EntryOk(e: Entry, l: seq<Rec>, clock: int) {
    Sane(e.how) && EntryTells(e, l) && FiresAsPromised(l) && Chronological(l, clock)
  }

  /** One entry per event id, the newest first. */
  ghost predicate UniqueEntries(s: seq<Entry>) {
    forall i, j :: 0 <= i < j < |s| ==> s[i].evtId != s[j].evtId && s[i].created >= s[j].created
  }

  function SumCounts(s: seq<Entry>): nat { if s == [] then 0 else s[0].count + SumCounts(s[1..]) }

  ghost predicate EntriesOk(c: Case, entryLog: map<(nat, int), seq<Rec>>, clock: int) {
    forall j :: 0 <= j < |c.entries| ==>
      var key := (c.id, c.entries[j].evtId);
      key in entryLog && EntryOk(c.entries[j], entryLog[key], clock) && FromDevice(entryLog[key], c)
  }

  ghost predicate CaseOk(c: Case, log: seq<Rec>, entryLog: map<(nat, int), seq<Rec>>, clock: int) {
    && c.total == |log| && c.fires == FiredCount(log) && NumberedFaults(log) && CaseTells(c, log)
    && UniqueEntries(c.entries) && SumCounts(c.entries) <= c.total
    && EntriesOk(c, entryLog, clock)
  }

  /** No two cases have one number, and the newest comes first. */
  ghost predicate UniqueIds(s: seq<Case>, next: nat) {
    && (forall i :: 0 <= i < |s| ==> s[i].id < next)
    && (forall i, j :: 0 <= i < j < |s| ==> s[i].id > s[j].id)
  }

  ghost predicate AllCasesOk(h: History) {
    forall i :: 0 <= i < |h.cases| ==>
      LogOf(h.caseLog, h.cases[i].id) != [] && CaseOk(h.cases[i], LogOf(h.caseLog, h.cases[i].id), h.entryLog, h.clock)
  }

  /** A logged arrival is treated as the rules say, and a fault names the device, the event id and the
      class of the arrival that raised it. */
  ghost predicate RecOk(rules: Rules, rec: Rec) {
    && rec.how == Treated(rules, rec.a)
    && (rec.fault.Some? ==>
          var f := rec.fault.value;
          f.devName == rec.a.devName && f.devId == rec.a.devId && f.evtId == rec.a.evtId && f.eclass == rec.a.eclass)
  }

  ghost predicate LogsOk(rules: Rules, h: History) {
    && (forall id, k :: id in h.caseLog && 0 <= k < |h.caseLog[id]| ==> RecOk(rules, h.caseLog[id][k]))
    && (forall key, k :: key in h.entryLog && 0 <= k < |h.entryLog[key]| ==> RecOk(rules, h.entryLog[key][k]))
  }

  ghost predicate Inv(h: History) {
    UniqueDevices(h.cases) && UniqueIds(h.cases, h.next) && AllCasesOk(h)
  }

  // ---------- one arrival ----------

  lemma {:induction false} SumUpdate(s: seq<Entry>, i: nat, e: Entry)
    requires i < |s|
    ensures SumCounts(s[i := e]) == SumCounts(s) - s[i].count + e.count
  {
    if i > 0 {
      SumUpdate(s[1..], i - 1, e);
      assert s[i := e][1..] == s[1..][i - 1 := e];
    } else {
      assert s[i := e][1..] == s[1..];
    }
  }

  lemma {:induction false} SumWithout(s: seq<Entry>, i: nat)
    requires i < |s|
    ensures SumCounts(Without(s, i)) <= SumCounts(s)
  {
    if i > 0 {
      SumWithout(s[1..], i - 1);
      assert Without(s, i) == [s[0]] + Without(s[1..], i - 1);
    } else {
      assert Without(s, i) == s[1..];
    }
  }

  lemma RaisedGrows(l: seq<Rec>, rec: Rec)
    ensures Raised(l + [rec]) == if rec.fault.Some? then Raised(l) + {|l|} else Raised(l)
  {
    var m := l + [rec];
    assert forall i :: 0 <= i < |l| ==> m[i] == l[i];
    assert m[|l|] == rec;
  }

  lemma CountGrows(l: seq<Rec>, rec: Rec)
    ensures FiredCount(l + [rec]) == FiredCount(l) + (if rec.fault.Some? then 1 else 0)
  {
    RaisedGrows(l, rec);
    assert |l| !in Raised(l);
    hide Raised;
    if rec.fault.Some? {
      assert Raised(l + [rec]) == Raised(l) + {|l|};
    }
  }

  lemma LogGrows(l: seq<Rec>, rec: Rec)
    requires NumberedFaults(l) && (rec.fault.Some? ==> rec.fault.value.refs == FiredCount(l) + 1)
    ensures NumberedFaults(l + [rec]) && FiredCount(l + [rec]) == FiredCount(l) + (if rec.fault.Some? then 1 else 0)
  {
    var m := l + [rec];
    assert m[..|l|] == l && m[..|l| + 1] == m;
    CountGrows(l, rec);
    hide FiredCount;
    forall i | 0 <= i < |m| && m[i].fault.Some?
      ensures m[i].fault.value.refs == FiredCount(m[..i + 1])
    {
      if i < |l| { assert m[..i + 1] == l[..i + 1]; }
    }
  }

  /** The entry an arrival is counted in stays true to its log. */
  lemma CountedOk(c: Case, a: Arrival, how: Treatment, times: Times, l: seq<Rec>, clock: int)
    requires var i := FindEntry(c.entries, a.evtId); i < |c.entries| ==> EntryOk(c.entries[i], l, clock)
    requires FindEntry(c.entries, a.evtId) == |c.entries| ==> l == []
    requires c.devName == a.devName && c.devId == a.devId && FromDevice(l, c)
    requires Sane(how)
    requires clock <= times.begun <= times.added <= times.stamped <= times.tested <= times.first <= times.fired
    ensures EntryOk(Counted(c, a, how, times), l + [Logged(c, a, how, times)], times.fired)
    ensures FromDevice(l + [Logged(c, a, how, times)], c)
  {
    var rec := Logged(c, a, how, times);
    var m := l + [rec];
    assert m[0] == if l == [] then rec else l[0];
    assert FiresAsPromised(m);
  }

  lemma EntryLater(e: Entry, l: seq<Rec>, clock: int, later: int)
    requires EntryOk(e, l, clock) && clock <= later
    ensures EntryOk(e, l, later) && e.created <= clock
  {
  }

  /** A new entry is the newest. */
  lemma EntryFirst(c: Case, e: Entry, before: map<(nat, int), seq<Rec>>, clock: int)
    requires EntriesOk(c, before, clock) && UniqueEntries(c.entries) && clock <= e.created
    requires FindEntry(c.entries, e.evtId) == |c.entries|
    ensures UniqueEntries([e] + c.entries)
  {
    hide EntryOk, FromDevice;
    var s := [e] + c.entries;
    forall j | 0 <= j < |c.entries|
      ensures c.entries[j].created <= clock
    {
      EntryLater(c.entries[j], before[(c.id, c.entries[j].evtId)], clock, clock);
    }
    assert forall j :: 0 < j < |s| ==> s[j] == c.entries[j - 1];
  }

  /** The fields of a case after an arrival tell of all arrivals up to it. */
  lemma CaseTold(c: Case, a: Arrival, how: Treatment, times: Times, log: seq<Rec>)
    requires CaseTells(c, log) && c.devName == a.devName && c.devId == a.devId
    requires log == [] ==> c.created == times.begun
    ensures CaseTells(AddEvent(c, a, how, times), log + [Logged(c, a, how, times)])
  {
    hide CanFire, Counted;
    var rec := Logged(c, a, how, times);
    var m := log + [rec];
    var d := AddEvent(c, a, how, times);
    assert forall k :: 0 <= k < |log| ==> m[k] == log[k];
    assert m[|log|] == rec;
    if log == [] { assert FindEntry(c.entries, a.evtId) == 0; }
  }

  /** The entries of the case an arrival goes to. */
  lemma ArrivalEntries(c: Case, a: Arrival, how: Treatment, times: Times, before: map<(nat, int), seq<Rec>>, clock: int)
    requires EntriesOk(c, before, clock) && UniqueEntries(c.entries)
    requires c.devName == a.devName && c.devId == a.devId && Sane(how)
    requires clock <= times.begun <= times.added <= times.stamped <= times.tested <= times.first <= times.fired
    ensures var key := (c.id, a.evtId); var rec := Logged(c, a, how, times);
      var isFirst := FindEntry(c.entries, a.evtId) == |c.entries|;
      var after := before[key := (if isFirst || key !in before then [] else before[key]) + [rec]];
      UniqueEntries(AddEvent(c, a, how, times).entries) && EntriesOk(AddEvent(c, a, how, times), after, times.fired)
  {
    hide EntryOk, Fires, Counted, FromDevice;
    var key := (c.id, a.evtId);
    var rec := Logged(c, a, how, times);
    var i := FindEntry(c.entries, a.evtId);
    var isFirst := i == |c.entries|;
    var l := if isFirst || key !in before then [] else before[key];
    var after := before[key := l + [rec]];
    var d := AddEvent(c, a, how, times);
    CountedId(c, a, how, times);
    CountedOk(c, a, how, times, l, clock) by { NoneFromDevice(c); }
    if isFirst { EntryFirst(c, Counted(c, a, how, times), before, clock); }
    forall j | 0 <= j < |d.entries|
      ensures (d.id, d.entries[j].evtId) in after
      ensures EntryOk(d.entries[j], after[(d.id, d.entries[j].evtId)], times.fired)
      ensures FromDevice(after[(d.id, d.entries[j].evtId)], d)
    {
      var at := if isFirst then j - 1 else j;
      if j == (if isFirst then 0 else i) {
        assert d.entries[j] == Counted(c, a, how, times);
        SameDevice(l + [rec], c, d);
      } else {
        assert d.entries[j] == c.entries[at];
        SameDevice(before[(c.id, c.entries[at].evtId)], c, d);
        EntryLater(c.entries[at], before[(c.id, c.entries[at].evtId)], clock, times.fired);
      }
    }
  }

  lemma NoneFromDevice(c: Case)
    ensures FromDevice([], c)
  {
  }

  lemma SameDevice(l: seq<Rec>, c: Case, d: Case)
    requires FromDevice(l, c) && c.devName == d.devName && c.devId == d.devId
    ensures FromDevice(l, d)
  {
  }

  lemma CountedId(c: Case, a: Arrival, how: Treatment, times: Times)
    ensures Counted(c, a, how, times).evtId == a.evtId
    ensures var i := FindEntry(c.entries, a.evtId);
      Counted(c, a, how, times).created == if i < |c.entries| then c.entries[i].created else times.added
    ensures var i := FindEntry(c.entries, a.evtId);
      Counted(c, a, how, times).count == (if i < |c.entries| then c.entries[i].count else 0) + 1
  {
  }

  lemma ArrivalCase(c: Case, a: Arrival, how: Treatment, times: Times, log: seq<Rec>, before: map<(nat, int),
    seq<Rec>>, clock: int)
    requires CaseOk(c, log, before, clock)
    requires c.devName == a.devName && c.devId == a.devId && (log == [] ==> c.created == times.begun)
    requires Sane(how)
    requires clock <= times.begun <= times.added <= times.stamped <= times.tested <= times.first <= times.fired
    ensures var key := (c.id, a.evtId); var rec := Logged(c, a, how, times);
      var isFirst := FindEntry(c.entries, a.evtId) == |c.entries|;
      var after := before[key := (if isFirst || key !in before then [] else before[key]) + [rec]];
      CaseOk(AddEvent(c, a, how, times), log + [rec], after, times.fired)
  {
    hide EntriesOk, UniqueEntries, NumberedFaults, FiredCount, Counted, CaseTells;
    var rec := Logged(c, a, how, times);
    ArrivalEntries(c, a, how, times, before, clock);
    LogGrows(log, rec);
    CaseTold(c, a, how, times, log);
    CountedId(c, a, how, times);
    var i := FindEntry(c.entries, a.evtId);
    var e := Counted(c, a, how, times);
    if i < |c.entries| {
      SumUpdate(c.entries, i, e);
    } else {
      assert ([e] + c.entries)[1..] == c.entries;
    }
  }

  /** A case the arrival does not go to keeps its logs. */
  lemma BystanderCase(c: Case, log: seq<Rec>, before: map<(nat, int), seq<Rec>>, after: map<(nat, int), seq<Rec>>,
    clock: int, later: int)
    requires CaseOk(c, log, before, clock) && clock <= later
    requires forall k :: k in before && k.0 == c.id ==> k in after && after[k] == before[k]
    ensures CaseOk(c, log, after, later)
  {
    hide EntryOk, NumberedFaults, FiredCount, CaseTells, FromDevice;
    forall j | 0 <= j < |c.entries|
      ensures (c.id, c.entries[j].evtId) in after && EntryOk(c.entries[j], after[(c.id, c.entries[j].evtId)], later)
      ensures FromDevice(after[(c.id, c.entries[j].evtId)], c)
    {
      EntryLater(c.entries[j], before[(c.id, c.entries[j].evtId)], clock, later);
    }
  }

  lemma EmptyCaseOk(c: Case, entryLog: map<(nat, int), seq<Rec>>, clock: int)
    requires c.total == 0 && c.fires == 0 && !c.hasFired && c.entries == []
    ensures CaseOk(c, [], entryLog, clock)
  {
  }

  lemma ArriveCases(rules: Rules, h: History, a: Arrival, times: Times)
    requires Inv(h) && Allowed(h, Arrive(a, times))
    ensures AllCasesOk(Next(rules, h, Arrive(a, times)))
  {
    hide CaseOk, Fires, AddEvent, NewCase, Classify, UniqueDevices;
    var g := Next(rules, h, Arrive(a, times));
    var how := Treated(rules, a);
    var i := FindCase(h.cases, a.devName, a.devId);
    var c := Target(h.cases, h.next, a, times);
    TargetFacts(h, a, how, times);
    ClassifySane(rules, a.eclass);
    ArrivalCase(c, a, how, times, if i < |h.cases| then LogOf(h.caseLog, c.id) else [], h.entryLog, h.clock);
    forall k | 0 <= k < |g.cases|
      ensures LogOf(g.caseLog, g.cases[k].id) != []
      ensures CaseOk(g.cases[k], LogOf(g.caseLog, g.cases[k].id), g.entryLog, g.clock)
    {
      var at := if i < |h.cases| then k else k - 1;
      if k == (if i < |h.cases| then i else 0) {
        assert g.cases[k] == AddEvent(c, a, how, times);
      } else {
        assert g.cases[k] == h.cases[at] && h.cases[at].id != c.id;
        BystanderCase(h.cases[at], LogOf(h.caseLog, h.cases[at].id), h.entryLog, g.entryLog, h.clock, g.clock);
      }
    }
  }

  lemma ArriveInv(rules: Rules, h: History, a: Arrival, times: Times)
    requires Inv(h) && Allowed(h, Arrive(a, times))
    ensures Inv(Next(rules, h, Arrive(a, times)))
  {
    hide AllCasesOk, Fires, AddEvent, NewCase, Classify, UniqueDevices, UniqueIds, Target;
    TargetFacts(h, a, Treated(rules, a), times);
    ArriveCases(rules, h, a, times);
    var c := Target(h.cases, h.next, a, times);
    ArriveUnique(h.cases, h.next, a, AddEvent(c, a, Treated(rules, a), times));
  }

  /** The case an arrival goes to, replaced or added in front, keeps devices and numbers apart. */
  lemma ArriveUnique(s: seq<Case>, next: nat, a: Arrival, c: Case)
    requires UniqueDevices(s) && UniqueIds(s, next) && c.devName == a.devName && c.devId == a.devId
    requires var i := FindCase(s, a.devName, a.devId); c.id == if i < |s| then s[i].id else next
    ensures var i := FindCase(s, a.devName, a.devId); var g := if i < |s| then s[i := c] else [c] + s;
      UniqueDevices(g) && UniqueIds(g, if i < |s| then next else next + 1)
  {
    hide FindCase;
  }

  lemma TargetFacts(h: History, a: Arrival, how: Treatment, times: Times)
    requires Inv(h)
    ensures var c := Target(h.cases, h.next, a, times); var i := FindCase(h.cases, a.devName, a.devId);
      && c.devName == a.devName && c.devId == a.devId && (i == |h.cases| ==> c.created == times.begun)
      && c.id == (if i < |h.cases| then h.cases[i].id else h.next)
      && CaseOk(c, if i < |h.cases| then LogOf(h.caseLog, c.id) else [], h.entryLog, h.clock)
      && AddEvent(c, a, how, times).id == c.id
      && AddEvent(c, a, how, times).devName == c.devName && AddEvent(c, a, how, times).devId == c.devId
  {
    hide CaseOk;
    if FindCase(h.cases, a.devName, a.devId) == |h.cases| {
      EmptyCaseOk(NewCase(h.next, a, times), h.entryLog, h.clock);
    }
  }

  // ---------- removal ----------

  lemma WithoutAt<T>(s: seq<T>, i: nat)
    requires i < |s|
    ensures |Without(s, i)| == |s| - 1
    ensures forall k :: 0 <= k < |s| - 1 ==> Without(s, i)[k] == s[if k < i then k else k + 1]
  {
  }

  lemma TrimmedTells(c: Case, left: seq<Entry>, log: seq<Rec>)
    requires CaseTells(c, log) && log != []
    ensures CaseTells(c.(entries := left), log)
  {
  }

  lemma TrimmedCase(c: Case, j: nat, log: seq<Rec>, entryLog: map<(nat, int), seq<Rec>>, clock: int)
    requires CaseOk(c, log, entryLog, clock) && j < |c.entries| && log != []
    ensures CaseOk(c.(entries := Without(c.entries, j)), log, entryLog, clock)
  {
    hide EntryOk, NumberedFaults, FiredCount, CaseTells, FromDevice;
    SumWithout(c.entries, j);
    WithoutAt(c.entries, j);
    TrimmedTells(c, Without(c.entries, j), log);
    forall id | (c.id, id) in entryLog && FromDevice(entryLog[(c.id, id)], c)
      ensures FromDevice(entryLog[(c.id, id)], c.(entries := Without(c.entries, j)))
    {
      SameDevice(entryLog[(c.id, id)], c, c.(entries := Without(c.entries, j)));
    }
  }

  lemma RemoveInv(h: History, devName: string, devId: int, evtId: int, isolated: bool)
    requires Inv(h)
    ensures Inv(h.(cases := Delete(h.cases, devName, devId, evtId, isolated).0))
  {
    hide Inv, Without;
    var i := FindDeletable(h.cases, devName, devId, evtId, isolated);
    if i < |h.cases| {
      var j := FindEntry(h.cases[i].entries, evtId);
      if isolated {
        CaseGone(h, i);
      } else if j < |h.cases[i].entries| {
        EntryGone(h, i, j);
      }
    }
  }

  lemma CaseGone(h: History, i: nat)
    requires Inv(h) && i < |h.cases|
    ensures Inv(h.(cases := Without(h.cases, i)))
  {
    hide CaseOk, Without;
    WithoutAt(h.cases, i);
  }

  lemma EntryGone(h: History, i: nat, j: nat)
    requires Inv(h) && i < |h.cases| && j < |h.cases[i].entries|
    ensures Inv(h.(cases := h.cases[i := h.cases[i].(entries := Without(h.cases[i].entries, j))]))
  {
    hide CaseOk, Without;
    TrimmedCase(h.cases[i], j, LogOf(h.caseLog, h.cases[i].id), h.entryLog, h.clock);
  }

  lemma UseInv(h: History, k: nat, count: int)
    requires Inv(h) && k < |h.cases|
    ensures Inv(h.(cases := h.cases[k := h.cases[k].(using := count)]))
  {
    assert CaseOk(h.cases[k].(using := count), LogOf(h.caseLog, h.cases[k].id), h.entryLog, h.clock);
  }

  // ---------- every run ----------

  ghost predicate Possible(rules: Rules, h: History, ops: seq<Op>)
    decreases |ops|
  {
    ops == [] || (Allowed(h, ops[0]) && Possible(rules, Next(rules, h, ops[0]), ops[1..]))
  }

  ghost function After(rules: Rules, h: History, ops: seq<Op>): History
    requires Possible(rules, h, ops)
    decreases |ops|
  {
    if ops == [] then h else After(rules, Next(rules, h, ops[0]), ops[1..])
  }

  function Start(clock: int): History { History([], 0, clock, map[], map[]) }

  lemma LogsKept(rules: Rules, h: History, op: Op)
    requires LogsOk(rules, h) && Allowed(h, op)
    ensures LogsOk(rules, Next(rules, h, op))
  {
    hide Classify, AddEvent, AddArrival, Target, Delete, FindEntry, FindCase, Counted;
    if op.Arrive? {
      var c := Target(h.cases, h.next, op.a, op.times);
      var rec := Logged(c, op.a, Treated(rules, op.a), op.times);
      assert RecOk(rules, rec) by { hide CanFire; }
      hide RecOk, Logged;
    }
  }

  lemma {:induction false} RunInv(rules: Rules, h: History, ops: seq<Op>)
    requires Inv(h) && LogsOk(rules, h) && Possible(rules, h, ops)
    ensures Inv(After(rules, h, ops)) && LogsOk(rules, After(rules, h, ops))
    decreases |ops|
  {
    hide Inv, LogsOk;
    if ops != [] {
      LogsKept(rules, h, ops[0]);
      match ops[0] {
        case Arrive(a, times) => ArriveInv(rules, h, a, times);
        case Remove(devName, devId, evtId, isolated) => RemoveInv(h, devName, devId, evtId, isolated);
        case Use(k, count) => UseInv(h, k, count);
      }
      RunInv(rules, Next(rules, h, ops[0]), ops[1..]);
    }
  }

  /** In every reachable state there is at most one case per device and one entry per event id in a
      case; an entry's count is the number of arrivals in its log, the case's total the number of
      arrivals in the case's log and at least the sum of the counts; and every logged arrival fired
      exactly as promised, the k-th fault of a case numbered k. */
  lemma EveryRun(rules: Rules, clock: int, ops: seq<Op>)
    requires Possible(rules, Start(clock), ops)
    ensures Inv(After(rules, Start(clock), ops)) && LogsOk(rules, After(rules, Start(clock), ops))
  {
    RunInv(rules, Start(clock), ops);
  }

  // ---------- consequences ----------

  lemma ClassifySane(rules: Rules, eclass: string)
    ensures Sane(Classify(rules.faults, rules.serds, eclass))
  {
  }

  /** The log of a live entry after a run. */
  ghost function LogAfter(rules: Rules, clock: int, ops: seq<Op>, i: nat, j: nat): (l: seq<Rec>)
    requires Possible(rules, Start(clock), ops)
    requires var h := After(rules, Start(clock), ops); i < |h.cases| && j < |h.cases[i].entries|
    ensures var h := After(rules, Start(clock), ops);
      EntryOk(h.cases[i].entries[j], l, h.clock) && FromDevice(l, h.cases[i])
    ensures forall k :: 0 <= k < |l| ==> RecOk(rules, l[k])
  {
    hide EntryOk, RecOk, FromDevice;
    EveryRun(rules, clock, ops);
    var h := After(rules, Start(clock), ops);
    var c := h.cases[i];
    assert CaseOk(c, LogOf(h.caseLog, c.id), h.entryLog, h.clock);
    h.entryLog[(c.id, c.entries[j].evtId)]
  }

  /** In every run, an entry that is a plain report has never raised a fault. */
  lemma PlainReportsNeverFire(rules: Rules, clock: int, ops: seq<Op>, i: nat, j: nat, k: nat)
    requires Possible(rules, Start(clock), ops)
    requires var h := After(rules, Start(clock), ops); i < |h.cases| && j < |h.cases[i].entries|
    requires After(rules, Start(clock), ops).cases[i].entries[j].how.etype.Report?
    requires k < |LogAfter(rules, clock, ops, i, j)|
    ensures LogAfter(rules, clock, ops, i, j)[k].fault.None?
  {
    hide After, Possible, LogAfter;
    var l := LogAfter(rules, clock, ops, i, j);
    assert l[0].times.added <= l[k].times.tested;
  }

  /** In every run, once the window of a SERD entry has passed it never fires again while it lives. */
  lemma ExpiredWindowNeverFires(rules: Rules, clock: int, ops: seq<Op>, i: nat, j: nat, k: nat, m: nat)
    requires Possible(rules, Start(clock), ops)
    requires var h := After(rules, Start(clock), ops); i < |h.cases| && j < |h.cases[i].entries|
    requires k <= m < |LogAfter(rules, clock, ops, i, j)|
    requires var e := After(rules, Start(clock), ops).cases[i].entries[j];
      e.how.etype.Serd? && e.how.t <= LogAfter(rules, clock, ops, i, j)[k].times.tested - e.created
    ensures LogAfter(rules, clock, ops, i, j)[m].fault.None?
  {
    hide After, Possible, LogAfter;
    var l := LogAfter(rules, clock, ops, i, j);
    assert l[k].times.tested <= l[m].times.tested;
  }

  /** The log of a case after a run. */
  ghost function CaseLogAfter(rules: Rules, clock: int, ops: seq<Op>, i: nat): (l: seq<Rec>)
    requires Possible(rules, Start(clock), ops) && i < |After(rules, Start(clock), ops).cases|
    ensures l != [] && CaseTells(After(rules, Start(clock), ops).cases[i], l) && NumberedFaults(l)
    ensures forall k :: 0 <= k < |l| ==> RecOk(rules, l[k])
  {
    hide CaseTells, RecOk, NumberedFaults, FiredCount, EntriesOk;
    EveryRun(rules, clock, ops);
    var h := After(rules, Start(clock), ops);
    assert CaseOk(h.cases[i], LogOf(h.caseLog, h.cases[i].id), h.entryLog, h.clock);
    h.caseLog[h.cases[i].id]
  }

  /** In every run any two cases differ in the device's name or its number. */
  lemma OneCasePerDevice(rules: Rules, clock: int, ops: seq<Op>, i: nat, j: nat)
    requires Possible(rules, Start(clock), ops)
    requires i < j < |After(rules, Start(clock), ops).cases|
    ensures var s := After(rules, Start(clock), ops).cases; s[i].devName != s[j].devName || s[i].devId != s[j].devId
  {
    hide After, Possible, AllCasesOk, UniqueIds, LogsOk;
    EveryRun(rules, clock, ops);
  }

  /** In every run every arrival a case or one of its entries has counted is of that case's device. */
  lemma ArrivalsOfDevice(rules: Rules, clock: int, ops: seq<Op>, i: nat)
    requires Possible(rules, Start(clock), ops) && i < |After(rules, Start(clock), ops).cases|
    ensures var c := After(rules, Start(clock), ops).cases[i]; var l := CaseLogAfter(rules, clock, ops, i);
      forall k :: 0 <= k < |l| ==> l[k].a.devName == c.devName && l[k].a.devId == c.devId
    ensures var c := After(rules, Start(clock), ops).cases[i];
      forall j, k :: 0 <= j < |c.entries| && 0 <= k < |LogAfter(rules, clock, ops, i, j)| ==>
        var a := LogAfter(rules, clock, ops, i, j)[k].a;
        a.devName == c.devName && a.devId == c.devId && a.evtId == c.entries[j].evtId
  {
    hide After, Possible, LogAfter, CaseLogAfter, FiresAsPromised, Chronological, RecOk;
    var l := CaseLogAfter(rules, clock, ops, i);
  }

  /** In every run, an entry whose first arrival matched a SERD rule, the first that matches, raises a
      fault on an arrival exactly when at least that rule's N have arrived and less than its T has
      passed since the entry was opened. */
  lemma RuleDecides(rules: Rules, clock: int, ops: seq<Op>, i: nat, j: nat, r: nat, k: nat)
    requires Possible(rules, Start(clock), ops)
    requires var h := After(rules, Start(clock), ops); i < |h.cases| && j < |h.cases[i].entries|
    requires r < |rules.serds| && k < |LogAfter(rules, clock, ops, i, j)|
    requires var eclass := LogAfter(rules, clock, ops, i, j)[0].a.eclass;
      rules.serds[r].eclass <= eclass && forall q :: 0 <= q < r ==> !(rules.serds[q].eclass <= eclass)
    ensures var l := LogAfter(rules, clock, ops, i, j); var e := After(rules, Start(clock), ops).cases[i].entries[j];
      && l[0].times.added == e.created
      && (l[k].fault.Some? <==>
            rules.serds[r].n <= k + 1 && rules.serds[r].t > l[k].times.tested - l[0].times.added)
  {
    hide After, Possible, LogAfter;
    var l := LogAfter(rules, clock, ops, i, j);
    ClassifyMeans(rules.faults, rules.serds, l[0].a.eclass);
    hide Classify;
    assert RecOk(rules, l[0]);
  }

  /** If no SERD rule matched it, every arrival raises a fault when a fault class matched, and none else. */
  lemma ClassDecides(rules: Rules, clock: int, ops: seq<Op>, i: nat, j: nat, k: nat)
    requires Possible(rules, Start(clock), ops)
    requires var h := After(rules, Start(clock), ops); i < |h.cases| && j < |h.cases[i].entries|
    requires k < |LogAfter(rules, clock, ops, i, j)|
    requires var eclass := LogAfter(rules, clock, ops, i, j)[0].a.eclass;
      forall q :: 0 <= q < |rules.serds| ==> !(rules.serds[q].eclass <= eclass)
    ensures var l := LogAfter(rules, clock, ops, i, j);
      l[k].fault.Some? <==> exists f :: 0 <= f < |rules.faults| && rules.faults[f] <= l[0].a.eclass
  {
    hide After, Possible, LogAfter;
    var l := LogAfter(rules, clock, ops, i, j);
    ClassifyMeans(rules.faults, rules.serds, l[0].a.eclass);
    hide Classify;
    assert RecOk(rules, l[0]);
    assert l[0].times.added <= l[k].times.tested;
  }

  /** In every run a fault names the device, the event id and the class of the arrival that raised it,
      and how many its case has raised with it. */
  lemma FaultsName(rules: Rules, clock: int, ops: seq<Op>, i: nat, k: nat)
    requires Possible(rules, Start(clock), ops) && i < |After(rules, Start(clock), ops).cases|
    requires k < |CaseLogAfter(rules, clock, ops, i)| && CaseLogAfter(rules, clock, ops, i)[k].fault.Some?
    ensures var l := CaseLogAfter(rules, clock, ops, i);
      l[k].fault.value == FaultEvent(l[k].a.devName, l[k].a.devId, l[k].a.evtId, l[k].a.eclass,
                                     |set m: nat | m <= k && l[m].fault.Some?|)
  {
    hide After, Possible, CaseLogAfter, CaseTells;
    var l := CaseLogAfter(rules, clock, ops, i);
    assert RecOk(rules, l[k]);
    RaisedUpTo(l, k);
  }

  lemma RaisedUpTo(l: seq<Rec>, k: nat)
    requires k < |l|
    ensures FiredCount(l[..k + 1]) == |set m: nat | m <= k && l[m].fault.Some?|
  {
    assert Raised(l[..k + 1]) == set m: nat | m <= k && l[m].fault.Some?;
  }
}
