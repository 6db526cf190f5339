/** The case engine: device cases, each with its event entries, and the rules by which an arrival
    raises a fault (lib/libcase/fmd_case.c). The intrusive lists are sequences here, head first;
    every object that the source tells apart by address carries a number. */
module CaseEngine {
  import opened Options
  import opened Sequences

  datatype EventType = Report | Serd | Fault

  datatype SerdRule = SerdRule(eclass: string, n: int, t: int)

  /** How an event class is treated: its type, threshold N and window T. */
  datatype Treatment = Treatment(etype: EventType, n: int, t: int)

  /** An event as it comes out of the queue; created is its ev_create. */
  datatype Arrival = Arrival(uid: nat, devName: string, devId: int, evtId: int, eclass: string, created: int)

  /** The results of the calls to time() while one arrival is handled, in order. */
  datatype Times = Times(begun: int, added: int, stamped: int, tested: int, first: int, fired: int)

  datatype Entry = Entry(uid: nat, evtId: int, eclass: string, how: Treatment, created: int, lastOccur: int, count: nat)

  datatype Case = Case(
    id: nat, devName: string, devId: int, lastClass: string, hasFired: bool, total: nat, fires: nat,
    created: int, firstFire: int, lastFire: int, using: int, entries: seq<Entry>)

  /** The fault event an arrival raises; refs is ev_refs. */
  datatype FaultEvent = FaultEvent(devName: string, devId: int, evtId: int, eclass: string, refs: nat)

  // ---------- classification (fmd_case_insert) ----------

  function FaultMatch(faults: seq<string>, eclass: string): bool {
    faults != [] && (faults[0] <= eclass || FaultMatch(faults[1..], eclass))
  }

  function SerdMatch(serds: seq<SerdRule>, eclass: string): Option<SerdRule> {
    if serds == [] then None
    else if serds[0].eclass <= eclass then Some(serds[0])
    else SerdMatch(serds[1..], eclass)
  }

  /** A class that matches both lists is a SERD class: that list is searched last. */
  function Classify(faults: seq<string>, serds: seq<SerdRule>, eclass: string): Treatment {
    match SerdMatch(serds, eclass)
    case Some(rule) => Treatment(Serd, rule.n, rule.t)
    case None => Treatment(if FaultMatch(faults, eclass) then Fault else Report, 0, 0)
  }

  /** What the rules say of a class: the first SERD rule whose class is a prefix of it decides; if there
      is none, it is a fault class exactly when a fault class is a prefix of it. */
  ghost predicate RuledBy(faults: seq<string>, serds: seq<SerdRule>, eclass: string, how: Treatment) {
    && (forall i ::
          (0 <= i < |serds| && serds[i].eclass <= eclass && forall j :: 0 <= j < i ==> !(serds[j].eclass <= eclass)) ==>
          how.etype.Serd? && how.n == serds[i].n && how.t == serds[i].t)
    && ((forall i :: 0 <= i < |serds| ==> !(serds[i].eclass <= eclass)) ==>
          && how.n == 0 && how.t == 0 && !how.etype.Serd?
          && (how.etype.Fault? <==> exists k :: 0 <= k < |faults| && faults[k] <= eclass))
  }

  lemma ClassifyMeans(faults: seq<string>, serds: seq<SerdRule>, eclass: string)
    ensures RuledBy(faults, serds, eclass, Classify(faults, serds, eclass))
  {
    SerdMeans(serds, eclass);
    FaultMeans(faults, eclass);
  }

  lemma {:induction false} SerdMeans(serds: seq<SerdRule>, eclass: string)
    ensures SerdMatch(serds, eclass).None? <==> forall i :: 0 <= i < |serds| ==> !(serds[i].eclass <= eclass)
    ensures forall i ::
      (0 <= i < |serds| && serds[i].eclass <= eclass && forall j :: 0 <= j < i ==> !(serds[j].eclass <= eclass)) ==>
      SerdMatch(serds, eclass) == Some(serds[i])
  {
    if serds != [] && !(serds[0].eclass <= eclass) {
      var rest := serds[1..];
      SerdMeans(rest, eclass);
      assert forall i :: 0 < i < |serds| ==> serds[i] == rest[i - 1];
      forall i | 0 <= i < |serds| && serds[i].eclass <= eclass
        && forall j :: 0 <= j < i ==> !(serds[j].eclass <= eclass)
        ensures SerdMatch(serds, eclass) == Some(serds[i])
      {
        assert rest[i - 1].eclass <= eclass;
      }
    }
  }

  /** One round of the searches. */
  lemma FaultStep(faults: seq<string>, i: nat, eclass: string)
    requires i <= |faults|
    ensures FaultMatch(faults[i..], eclass) ==
      (i < |faults| && (faults[i] <= eclass || FaultMatch(faults[i + 1..], eclass)))
  {
    assert i < |faults| ==> faults[i..][1..] == faults[i + 1..];
  }

  lemma SerdStep(serds: seq<SerdRule>, i: nat, eclass: string)
    requires i <= |serds|
    ensures SerdMatch(serds[i..], eclass) ==
      if i == |serds| then None
      else if serds[i].eclass <= eclass then Some(serds[i]) else SerdMatch(serds[i + 1..], eclass)
  {
    assert i < |serds| ==> serds[i..][1..] == serds[i + 1..];
  }

  lemma WholeLists(faults: seq<string>, serds: seq<SerdRule>)
    ensures faults[0..] == faults && serds[0..] == serds
  {
  }

  lemma {:induction false} FaultMeans(faults: seq<string>, eclass: string)
    ensures FaultMatch(faults, eclass) <==> exists k :: 0 <= k < |faults| && faults[k] <= eclass
  {
    if faults != [] && !(faults[0] <= eclass) {
      FaultMeans(faults[1..], eclass);
      assert forall k :: 0 < k < |faults| ==> faults[k] == faults[1..][k - 1];
    }
  }

  // ---------- one case ----------

  /** fmd_case_canfire */
  predicate CanFire(e: Entry, now: int) {
    e.how.etype.Fault? || (e.how.n <= e.count && e.how.t > now - e.created)
  }

  /** The first position of an entry with this id, or the length. */
  function FindEntry(s: seq<Entry>, evtId: int): (i: nat)
    ensures i <= |s| && (i < |s| ==> s[i].evtId == evtId)
    ensures forall j :: 0 <= j < i ==> s[j].evtId != evtId
  {
    if s == [] || s[0].evtId == evtId then 0 else 1 + FindEntry(s[1..], evtId)
  }

  /** The entry an arrival is counted in. */
  function Counted(c: Case, a: Arrival, how: Treatment, times: Times): Entry {
    var i := FindEntry(c.entries, a.evtId);
    if i < |c.entries| then c.entries[i].(count := c.entries[i].count + 1, lastOccur := a.created)
    else Entry(a.uid, a.evtId, a.eclass, how, times.added, times.stamped, 1)
  }

  function Fires(c: Case, a: Arrival, how: Treatment, times: Times): Option<FaultEvent> {
    if CanFire(Counted(c, a, how, times), times.tested)
    then Some(FaultEvent(a.devName, a.devId, a.evtId, a.eclass, c.fires + 1))
    else None
  }

  /** fmd_event_add: the case after an arrival. */
  function AddEvent(c: Case, a: Arrival, how: Treatment, times: Times): Case {
    var i := FindEntry(c.entries, a.evtId);
    var e := Counted(c, a, how, times);
    var counted := c.(total := c.total + 1, using := c.using + 1,
                      entries := if i < |c.entries| then c.entries[i := e] else [e] + c.entries,
                      lastClass := if i < |c.entries| then c.lastClass else a.eclass);
    if Fires(c, a, how, times).None? then counted
    else counted.(fires := c.fires + 1, hasFired := true, lastFire := times.fired,
                  firstFire := if c.fires == 0 then times.first else c.firstFire)
  }

  // ---------- the list of cases ----------

  predicate OnDevice(c: Case, devName: string, devId: int) { c.devName == devName && c.devId == devId }

  function FindCase(s: seq<Case>, devName: string, devId: int): (i: nat)
    ensures i <= |s| && (i < |s| ==> OnDevice(s[i], devName, devId))
    ensures forall j :: 0 <= j < i ==> !OnDevice(s[j], devName, devId)
  {
    if s == [] || OnDevice(s[0], devName, devId) then 0 else 1 + FindCase(s[1..], devName, devId)
  }

  /** fmd_case_create */
  function NewCase(id: nat, a: Arrival, times: Times): Case {
    Case(id, a.devName, a.devId, a.eclass, false, 0, 0, times.begun, 0, 0, 0, [])
  }

  /** The case an arrival goes to, before it is added. */
  function Target(s: seq<Case>, next: nat, a: Arrival, times: Times): Case {
    var i := FindCase(s, a.devName, a.devId);
    if i < |s| then s[i] else NewCase(next, a, times)
  }

  /** add_case_list: the list after an arrival; a new case takes the number next. */
  function AddArrival(s: seq<Case>, next: nat, a: Arrival, how: Treatment, times: Times): seq<Case> {
    var i := FindCase(s, a.devName, a.devId);
    var c := AddEvent(Target(s, next, a, times), a, how, times);
    if i < |s| then s[i := c] else [c] + s
  }

  /** A case fmd_case_find_and_delete may act on: unused, on the device, and to be deleted as a whole or
      with an entry for the event. */
  predicate Deletable(c: Case, devName: string, devId: int, evtId: int, isolated: bool) {
    c.using <= 0 && OnDevice(c, devName, devId) && (isolated || FindEntry(c.entries, evtId) < |c.entries|)
  }

  function FindDeletable(s: seq<Case>, devName: string, devId: int, evtId: int, isolated: bool): (i: nat)
    ensures i <= |s| && (i < |s| ==> Deletable(s[i], devName, devId, evtId, isolated))
    ensures forall j :: 0 <= j < i ==> !Deletable(s[j], devName, devId, evtId, isolated)
  {
    if s == [] || Deletable(s[0], devName, devId, evtId, isolated) then 0
    else 1 + FindDeletable(s[1..], devName, devId, evtId, isolated)
  }

  /** What fmd_case_find_and_delete frees. */
  datatype Freed = Nothing | WholeCase(c: Case) | OneEntry(c: Case, e: Entry)

  /** fmd_case_find_and_delete: the whole case after an isolation, else the one entry; the emptied
      case stays. */
  function Delete(s: seq<Case>, devName: string, devId: int, evtId: int, isolated: bool): (seq<Case>, Freed) {
    var i := FindDeletable(s, devName, devId, evtId, isolated);
    if i == |s| then (s, Nothing)
    else if isolated then (Without(s, i), WholeCase(s[i]))
    else
      var c := s[i];
      var j := FindEntry(c.entries, evtId);
      (s[i := c.(entries := Without(c.entries, j))], OneEntry(c, c.entries[j]))
  }

  /** An entry for the event is gone from the first unused case of the device that has one. */
  ghost predicate EntryRemoved(s: seq<Case>, devName: string, devId: int, evtId: int, after: seq<Case>, freed: Freed) {
    exists i, j :: 0 <= i < |s| && 0 <= j < |s[i].entries|
      && s[i].using <= 0 && s[i].devName == devName && s[i].devId == devId && s[i].entries[j].evtId == evtId
      && after == s[i := s[i].(entries := s[i].entries[..j] + s[i].entries[j + 1..])]
      && freed == OneEntry(s[i], s[i].entries[j]) && NothingToRemove(s[..i], devName, devId, evtId, false)
  }

  /** The first unused case of the device is gone. */
  ghost predicate CaseRemoved(s: seq<Case>, devName: string, devId: int, evtId: int, after: seq<Case>, freed: Freed) {
    exists i :: 0 <= i < |s|
      && s[i].using <= 0 && s[i].devName == devName && s[i].devId == devId
      && after == s[..i] + s[i + 1..]
      && freed == WholeCase(s[i]) && NothingToRemove(s[..i], devName, devId, evtId, true)
  }

  /** No unused case of the device has an entry for the event; after an isolation there is no such case. */
  ghost predicate NothingToRemove(s: seq<Case>, devName: string, devId: int, evtId: int, isolated: bool) {
    forall i :: 0 <= i < |s| && s[i].using <= 0 && s[i].devName == devName && s[i].devId == devId ==>
      !isolated && forall j :: 0 <= j < |s[i].entries| ==> s[i].entries[j].evtId != evtId
  }

  lemma NotDeletable(s: seq<Case>, devName: string, devId: int, evtId: int, isolated: bool)
    requires forall i :: 0 <= i < |s| ==> !Deletable(s[i], devName, devId, evtId, isolated)
    ensures NothingToRemove(s, devName, devId, evtId, isolated)
  {
  }

  /** What a deletion frees and what it leaves. */
  lemma DeleteMeans(s: seq<Case>, devName: string, devId: int, evtId: int, isolated: bool)
    ensures var (after, freed) := Delete(s, devName, devId, evtId, isolated);
      match freed
      case Nothing => after == s && NothingToRemove(s, devName, devId, evtId, isolated)
      case WholeCase(_) => isolated && CaseRemoved(s, devName, devId, evtId, after, freed)
      case OneEntry(_, _) => !isolated && EntryRemoved(s, devName, devId, evtId, after, freed)
  {
    var i := FindDeletable(s, devName, devId, evtId, isolated);
    NotDeletable(s[..i], devName, devId, evtId, isolated);
    if i == |s| {
      assert s[..i] == s;
    } else if !isolated {
      assert FindEntry(s[i].entries, evtId) < |s[i].entries|;
    }
  }

  // ---------- the engine ----------

  class Engine {
    const faults: seq<string>
    const serds: seq<SerdRule>
    var cases: seq<Case>
    var next: nat

    constructor (faults: seq<string>, serds: seq<SerdRule>)
      ensures cases == [] && next == 0 && this.faults == faults && this.serds == serds
    {
      this.faults, this.serds, cases, next := faults, serds, [], 0;
    }

    /** The two searches at the start of fmd_case_insert. */
    method Treat(eclass: string) returns (how: Treatment)
      ensures how == Classify(faults, serds, eclass)
      ensures RuledBy(faults, serds, eclass, how)
    {
      hide RuledBy, FaultMatch, SerdMatch;
      ClassifyMeans(faults, serds, eclass);
      WholeLists(faults, serds);
      var fault := false;
      var i := 0;
      while i < |faults|
        invariant 0 <= i <= |faults| && !fault
        invariant FaultMatch(faults, eclass) == FaultMatch(faults[i..], eclass)
      {
        FaultStep(faults, i, eclass);
        if faults[i] <= eclass {
          fault := true;
          break;
        }
        i := i + 1;
      }
      FaultStep(faults, i, eclass);
      var j := 0;
      while j < |serds|
        invariant 0 <= j <= |serds|
        invariant SerdMatch(serds, eclass) == SerdMatch(serds[j..], eclass)
      {
        SerdStep(serds, j, eclass);
        if serds[j].eclass <= eclass {
          return Treatment(Serd, serds[j].n, serds[j].t);
        }
        j := j + 1;
      }
      SerdStep(serds, j, eclass);
      how := Treatment(if fault then Fault else Report, 0, 0);
    }

    /** The walk over the cases in add_case_list. */
    method LocateCase(devName: string, devId: int) returns (i: nat)
      ensures i == FindCase(cases, devName, devId) <= |cases|
      ensures i < |cases| ==> cases[i].devName == devName && cases[i].devId == devId
      ensures forall j :: 0 <= j < i ==> cases[j].devName != devName || cases[j].devId != devId
    {
      i := 0;
      while i < |cases| && !OnDevice(cases[i], devName, devId)
        invariant i <= |cases|
        invariant FindCase(cases, devName, devId) == i + FindCase(cases[i..], devName, devId)
      {
        assert cases[i..][1..] == cases[i + 1..];
        i := i + 1;
      }
    }

    /** The walk over the entries of a case. */
    static method LocateEntry(entries: seq<Entry>, evtId: int) returns (i: nat)
      ensures i == FindEntry(entries, evtId)
    {
      i := 0;
      while i < |entries| && entries[i].evtId != evtId
        invariant i <= |entries|
        invariant FindEntry(entries, evtId) == i + FindEntry(entries[i..], evtId)
      {
        assert entries[i..][1..] == entries[i + 1..];
        i := i + 1;
      }
    }

    /** fmd_case_insert up to the dispatching: classify, find or create the case, count, test. */
    method Insert(a: Arrival, times: Times) returns (fault: Option<FaultEvent>)
      modifies this
      ensures cases == AddArrival(old(cases), old(next), a, Classify(faults, serds, a.eclass), times)
      ensures fault == Fires(Target(old(cases), old(next), a, times), a, Classify(faults, serds, a.eclass), times)
      ensures next == old(next) + (if FindCase(old(cases), a.devName, a.devId) < |old(cases)| then 0 else 1)
    {
      var how := Treat(a.eclass);
      var i := LocateCase(a.devName, a.devId);
      if i == |cases| {
        cases := [NewCase(next, a, times)] + cases;
        next := next + 1;
        fault := EventAdd(0, a, how, times);
        assert cases[1..] == old(cases);
      } else {
        fault := EventAdd(i, a, how, times);
      }
    }

    /** fmd_event_add and fmd_case_fire on the case at position k. */
    method EventAdd(k: nat, a: Arrival, how: Treatment, times: Times) returns (fault: Option<FaultEvent>)
      requires k < |cases|
      modifies this`cases
      ensures cases == old(cases)[k := AddEvent(old(cases)[k], a, how, times)]
      ensures fault == Fires(old(cases)[k], a, how, times)
    {
      var c := cases[k];
      var i := LocateEntry(c.entries, a.evtId);
      var e;
      if i < |c.entries| {
        e := c.entries[i].(count := c.entries[i].count + 1, lastOccur := a.created);
        c := c.(entries := c.entries[i := e]);
      } else {
        e := Entry(a.uid, a.evtId, a.eclass, how, times.added, times.stamped, 1);
        c := c.(entries := [e] + c.entries, lastClass := a.eclass);
      }
      c := c.(total := c.total + 1, using := c.using + 1);
      fault := None;
      if CanFire(e, times.tested) {
        if c.fires == 0 {
          c := c.(firstFire := times.first);
        }
        c := c.(lastFire := times.fired, fires := c.fires + 1, hasFired := true);
        fault := Some(FaultEvent(a.devName, a.devId, a.evtId, a.eclass, c.fires));
      }
      cases := cases[k := c];
    }

    /** fmd_case_find_and_delete; a case on the device without the entry does not end the walk. */
    method FindAndDelete(devName: string, devId: int, evtId: int, isolated: bool) returns (ok: bool, ghost freed: Freed)
      modifies this`cases
      ensures (cases, freed) == Delete(old(cases), devName, devId, evtId, isolated)
      ensures ok && !isolated ==> EntryRemoved(old(cases), devName, devId, evtId, cases, freed)
      ensures ok && isolated ==> CaseRemoved(old(cases), devName, devId, evtId, cases, freed)
      ensures !ok ==>
        cases == old(cases) && freed == Nothing && NothingToRemove(cases, devName, devId, evtId, isolated)
    {
      DeleteMeans(cases, devName, devId, evtId, isolated);
      freed := Delete(cases, devName, devId, evtId, isolated).1;
      hide EntryRemoved, CaseRemoved, NothingToRemove;
      var i := 0;
      while i < |cases|
        invariant 0 <= i <= |cases| && cases == old(cases)
        invariant i <= FindDeletable(cases, devName, devId, evtId, isolated)
      {
        if cases[i].using <= 0 && OnDevice(cases[i], devName, devId) {
          if isolated {
            cases := cases[..i] + cases[i + 1..];
            return true, freed;
          }
          var j := LocateEntry(cases[i].entries, evtId);
          if j < |cases[i].entries| {
            var c := cases[i];
            cases := cases[i := c.(entries := c.entries[..j] + c.entries[j + 1..])];
            return true, freed;
          }
        }
        i := i + 1;
      }
      ok := false;
    }
  }

  /** At most one case per device. */
  ghost predicate UniqueDevices(s: seq<Case>) {
    forall i, j :: 0 <= i < j < |s| ==> s[i].devName != s[j].devName || s[i].devId != s[j].devId
  }
}
