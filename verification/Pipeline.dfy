/** The queue thread, the agent threads and the use count that keeps a case alive
    (lib/libcase/fmd_case.c:117-155, 184-308, evt_modules/evtlib/evt_agent.c:419-453,
    fms/fmd_queue.c:72-102, 244-280), as interleaved atomic steps.

    Every log event is an object with a number. The queue thread takes it, counts it in its case
    (which raises the case's m_event_using) and hands it to the first agent that subscribes to its
    class, or to none; that agent takes it from its ring, handles it and lowers the count. Between
    two events the queue thread may delete. The copy raised as a fault names no case and lowers no
    count, so it is left out. Rings may deliver in any order here, which only adds runs. */
module Pipeline {
  import opened Options
  import opened Sequences
  import opened CaseEngine

  datatype Place = AtQueue | InRing(agent: nat) | InHand(agent: nat) | Unrouted | Done

  datatype State = State(
    cases: seq<Case>, next: nat,
    place: map<nat, Place>,        // where each event is
    caseOf: map<nat, nat>,         // evt->p_case
    busy: Option<nat>,             // the event the queue thread has counted and not yet routed
    freedCases: set<nat>, freedEvents: set<nat>,
    stray: bool)                   // some agent lowered the count of a freed case

  datatype Step =
    | Take(a: Arrival, how: Treatment, times: Times)
    | Route(agent: Option<nat>)
    | AgentTake(uid: nat)
    | AgentFinish(uid: nat)
    | FindAndDelete(devName: string, devId: int, evtId: int, isolated: bool)

  predicate Enabled(s: State, step: Step) {
    match step
    case Take(a, _, _) => s.busy.None? && a.uid !in s.place
    case Route(_) => s.busy.Some? && s.busy.value in s.place && s.place[s.busy.value].AtQueue?
    case AgentTake(u) => u in s.place && s.place[u].InRing?
    case AgentFinish(u) => u in s.place && s.place[u].InHand? && u in s.caseOf
    case FindAndDelete(_, _, _, _) => s.busy.None?
  }

  /** atomic_dec on the count of the case numbered id. */
  function Lower(cases: seq<Case>, id: nat): seq<Case> {
    seq(|cases|, i requires 0 <= i < |cases| =>
      if cases[i].id == id then cases[i].(using := cases[i].using - 1) else cases[i])
  }

  predicate Live(cases: seq<Case>, id: nat) { exists i :: 0 <= i < |cases| && cases[i].id == id }

  function Uids(s: seq<Entry>): set<nat> { set e | e in s :: e.uid }

  function Apply(s: State, step: Step): State
    requires Enabled(s, step)
  {
    match step
    case Take(a, how, times) =>
      var c := Target(s.cases, s.next, a, times);
      s.(cases := AddArrival(s.cases, s.next, a, how, times),
         next := if FindCase(s.cases, a.devName, a.devId) < |s.cases| then s.next else s.next + 1,
         place := s.place[a.uid := AtQueue], caseOf := s.caseOf[a.uid := c.id], busy := Some(a.uid))
    case Route(agent) =>
      s.(place := s.place[s.busy.value := if agent.Some? then InRing(agent.value) else Unrouted], busy := None)
    case AgentTake(u) => s.(place := s.place[u := InHand(s.place[u].agent)])
    case AgentFinish(u) =>
      s.(cases := Lower(s.cases, s.caseOf[u]), place := s.place[u := Done],
         stray := s.stray || !Live(s.cases, s.caseOf[u]))
    case FindAndDelete(devName, devId, evtId, isolated) =>
      var (left, freed) := Delete(s.cases, devName, devId, evtId, isolated);
      match freed
      case Nothing => s
      case WholeCase(c) =>
        s.(cases := left, freedCases := s.freedCases + {c.id}, freedEvents := s.freedEvents + Uids(c.entries))
      case OneEntry(_, e) => s.(cases := left, freedEvents := s.freedEvents + {e.uid})
  }

  // ---------- the invariant ----------

  /** The events of a case that no agent has finished, unrouted ones included. */
  ghost function Open(place: map<nat, Place>, caseOf: map<nat, nat>, id: nat): set<nat> {
    set u | u in caseOf && u in place && caseOf[u] == id && !place[u].Done?
  }

  ghost function Unfinished(s: State, id: nat): set<nat> { Open(s.place, s.caseOf, id) }

  ghost predicate CountsExact(s: State) {
    forall i :: 0 <= i < |s.cases| ==> s.cases[i].using == |Unfinished(s, s.cases[i].id)|
  }

  ghost predicate Numbered(s: State) {
    && s.place.Keys == s.caseOf.Keys
    && (forall i :: 0 <= i < |s.cases| ==> s.cases[i].id < s.next && s.cases[i].id !in s.freedCases)
    && (forall i, j :: 0 <= i < j < |s.cases| ==> s.cases[i].id != s.cases[j].id)
    && (forall u :: u in s.caseOf ==> s.caseOf[u] < s.next)
    && (forall c :: c in s.freedCases ==> c < s.next)
  }

  /** An entry is an event of its case, and no event is entered twice. */
  ghost predicate EntriesNamed(s: State) {
    && (forall i, j :: 0 <= i < |s.cases| && 0 <= j < |s.cases[i].entries| ==>
          Named(s, s.cases[i].id, s.cases[i].entries[j].uid))
    && (forall i :: 0 <= i < |s.cases| ==> Distinct(s.cases[i].entries))
  }

  ghost predicate Named(s: State, id: nat, uid: nat) {
    uid in s.caseOf && s.caseOf[uid] == id && uid !in s.freedEvents
  }

  ghost predicate Distinct(s: seq<Entry>) { forall j, k :: 0 <= j < k < |s| ==> s[j].uid != s[k].uid }

  /** What an unfinished event refers to, its case and itself, is not freed. */
  ghost predicate NothingFreedInUse(s: State) {
    && (forall u :: u in s.place && !s.place[u].Done? && u in s.caseOf ==>
          Live(s.cases, s.caseOf[u]) && u !in s.freedEvents)
    && (forall u :: u in s.freedEvents ==> u in s.place)
    && !s.stray
  }

  ghost predicate Inv(s: State) {
    Numbered(s) && CountsExact(s) && EntriesNamed(s) && NothingFreedInUse(s)
  }

  // ---------- taking ----------

  lemma TakeUnfinished(s: State, a: Arrival, how: Treatment, times: Times, id: nat)
    requires Inv(s) && Enabled(s, Take(a, how, times))
    ensures var g := Apply(s, Take(a, how, times)); var home := Target(s.cases, s.next, a, times).id;
      |Unfinished(g, id)| == |Unfinished(s, id)| + (if id == home then 1 else 0)
  {
    hide AddArrival, Target, CountsExact, EntriesNamed, NothingFreedInUse, Open;
    OpenTake(s.place, s.caseOf, a.uid, Target(s.cases, s.next, a, times).id, id);
  }

  lemma OpenTake(place: map<nat, Place>, caseOf: map<nat, nat>, u: nat, home: nat, id: nat)
    requires u !in place && u !in caseOf
    ensures |Open(place[u := AtQueue], caseOf[u := home], id)| ==
      |Open(place, caseOf, id)| + (if id == home then 1 else 0)
  {
    var before, after := Open(place, caseOf, id), Open(place[u := AtQueue], caseOf[u := home], id);
    if id == home {
      assert after == before + {u};
    } else {
      assert after == before;
    }
  }

  /** A number not given out yet has no events. */
  lemma FreshIsEmpty(s: State)
    requires Numbered(s)
    ensures Unfinished(s, s.next) == {}
  {
  }

  /** The list after an arrival, position by position. */
  lemma AddArrivalAt(s: seq<Case>, next: nat, a: Arrival, how: Treatment, times: Times)
    ensures var i := FindCase(s, a.devName, a.devId); var after := AddArrival(s, next, a, how, times);
      var c := Target(s, next, a, times); var d := AddEvent(c, a, how, times);
      && c.id == (if i < |s| then s[i].id else next) && c.using == (if i < |s| then s[i].using else 0)
      && d.id == c.id && d.using == c.using + 1
      && (i < |s| ==> c == s[i] && after == s[i := d]) && (i == |s| ==> c.entries == [] && after == [d] + s)
  {
  }

  lemma TakeCounts(s: State, a: Arrival, how: Treatment, times: Times)
    requires Inv(s) && Enabled(s, Take(a, how, times))
    ensures CountsExact(Apply(s, Take(a, how, times)))
  {
    hide AddArrival, Target, AddEvent, EntriesNamed, NothingFreedInUse, Unfinished;
    var g := Apply(s, Take(a, how, times));
    AddArrivalAt(s.cases, s.next, a, how, times);
    FreshIsEmpty(s);
    forall k | 0 <= k < |g.cases|
      ensures g.cases[k].using == |Unfinished(g, g.cases[k].id)|
    {
      TakeUnfinished(s, a, how, times, g.cases[k].id);
    }
  }

  lemma TakeNumbered(s: State, a: Arrival, how: Treatment, times: Times)
    requires Inv(s) && Enabled(s, Take(a, how, times))
    ensures Numbered(Apply(s, Take(a, how, times))) && NothingFreedInUse(Apply(s, Take(a, how, times)))
  {
    hide AddArrival, Target, AddEvent, EntriesNamed, CountsExact, Live;
    var g := Apply(s, Take(a, how, times));
    AddArrivalAt(s.cases, s.next, a, how, times);
    LiveGrows(s.cases, s.next, a, how, times);
    assert a.uid !in s.freedEvents;
  }

  lemma LiveGrows(s: seq<Case>, next: nat, a: Arrival, how: Treatment, times: Times)
    ensures var after := AddArrival(s, next, a, how, times);
      Live(after, Target(s, next, a, times).id) && forall id :: Live(s, id) ==> Live(after, id)
  {
    hide AddArrival, Target, AddEvent;
    AddArrivalAt(s, next, a, how, times);
    var after, i := AddArrival(s, next, a, how, times), FindCase(s, a.devName, a.devId);
    assert after[if i < |s| then i else 0].id == Target(s, next, a, times).id;
    forall id | Live(s, id)
      ensures Live(after, id)
    {
      var k :| 0 <= k < |s| && s[k].id == id;
      assert after[if i < |s| then k else k + 1].id == id;
    }
  }

  /** The entries of the case an arrival goes to: those it had, with their numbers, or one more. */
  lemma AddEventUids(c: Case, a: Arrival, how: Treatment, times: Times)
    ensures var d := AddEvent(c, a, how, times);
      || (|d.entries| == |c.entries| && forall j :: 0 <= j < |c.entries| ==> d.entries[j].uid == c.entries[j].uid)
      || (|d.entries| == |c.entries| + 1 && d.entries[0].uid == a.uid
          && forall j :: 0 < j < |d.entries| ==> d.entries[j].uid == c.entries[j - 1].uid)
  {
  }

  lemma TakeEntries(s: State, a: Arrival, how: Treatment, times: Times)
    requires Inv(s) && Enabled(s, Take(a, how, times))
    ensures EntriesNamed(Apply(s, Take(a, how, times)))
  {
    hide AddArrival, Target, AddEvent, CountsExact, Live;
    var g := Apply(s, Take(a, how, times));
    AddArrivalAt(s.cases, s.next, a, how, times);
    var i := FindCase(s.cases, a.devName, a.devId);
    var c := Target(s.cases, s.next, a, times);
    assert a.uid !in s.caseOf && a.uid !in s.freedEvents;
    forall u | Named(s, c.id, u)
      ensures Named(g, c.id, u) && u != a.uid
    {
    }
    AddEventUids(c, a, how, times);
    TargetNamed(s, a, times);
    forall k | 0 <= k < |g.cases|
      ensures Distinct(g.cases[k].entries) && forall j :: 0 <= j < |g.cases[k].entries| ==>
        Named(g, g.cases[k].id, g.cases[k].entries[j].uid)
    {
      if k == (if i < |s.cases| then i else 0) {
        assert g.cases[k] == AddEvent(c, a, how, times);
      } else {
        var at := if i < |s.cases| then k else k - 1;
        assert g.cases[k] == s.cases[at];
        assert forall j :: 0 <= j < |s.cases[at].entries| ==> Named(s, s.cases[at].id, s.cases[at].entries[j].uid);
      }
    }
  }

  lemma TargetNamed(s: State, a: Arrival, times: Times)
    requires EntriesNamed(s)
    ensures var c := Target(s.cases, s.next, a, times);
      Distinct(c.entries) && forall j :: 0 <= j < |c.entries| ==> Named(s, c.id, c.entries[j].uid)
  {
  }

  // ---------- moving on ----------

  lemma OpenMove(place: map<nat, Place>, caseOf: map<nat, nat>, u: nat, to: Place, id: nat)
    requires u in place && !place[u].Done? && !to.Done?
    ensures Open(place[u := to], caseOf, id) == Open(place, caseOf, id)
  {
  }

  /** Moving an unfinished event changes no set of unfinished events. */
  lemma MoveInv(s: State, u: nat, to: Place, busy: Option<nat>)
    requires Inv(s) && u in s.place && !s.place[u].Done? && !to.Done?
    ensures Inv(s.(place := s.place[u := to], busy := busy))
  {
    hide Open, Live, EntriesNamed;
    var g := s.(place := s.place[u := to], busy := busy);
    assert g.place.Keys == s.place.Keys;
    forall i | 0 <= i < |g.cases|
      ensures g.cases[i].using == |Unfinished(g, g.cases[i].id)|
    {
      OpenMove(s.place, s.caseOf, u, to, g.cases[i].id);
    }
    NamesKept(s, g);
  }

  /** The names of the entries depend on cases, links and freed events only. */
  lemma NamesKept(s: State, g: State)
    requires EntriesNamed(s) && |g.cases| == |s.cases| && g.caseOf == s.caseOf && g.freedEvents == s.freedEvents
    requires forall i :: 0 <= i < |s.cases| ==>
      g.cases[i].id == s.cases[i].id && g.cases[i].entries == s.cases[i].entries
    ensures EntriesNamed(g)
  {
    forall i, j | 0 <= i < |g.cases| && 0 <= j < |g.cases[i].entries|
      ensures Named(g, g.cases[i].id, g.cases[i].entries[j].uid)
    {
      assert Named(s, s.cases[i].id, s.cases[i].entries[j].uid);
    }
  }

  lemma FinishUnfinished(s: State, u: nat, id: nat)
    requires Inv(s) && Enabled(s, AgentFinish(u))
    ensures |Unfinished(Apply(s, AgentFinish(u)), id)| == |Unfinished(s, id)| - (if id == s.caseOf[u] then 1 else 0)
  {
    hide CountsExact, EntriesNamed, NothingFreedInUse, Lower, Open;
    OpenDone(s.place, s.caseOf, u, id);
  }

  lemma OpenDone(place: map<nat, Place>, caseOf: map<nat, nat>, u: nat, id: nat)
    requires u in place && u in caseOf && !place[u].Done?
    ensures |Open(place[u := Done], caseOf, id)| == |Open(place, caseOf, id)| - (if id == caseOf[u] then 1 else 0)
  {
    var before, after := Open(place, caseOf, id), Open(place[u := Done], caseOf, id);
    if id == caseOf[u] {
      assert before == after + {u};
    } else {
      assert before == after;
    }
  }

  lemma LowerKeeps(cases: seq<Case>, id: nat)
    ensures |Lower(cases, id)| == |cases|
    ensures forall i :: 0 <= i < |cases| ==>
      Lower(cases, id)[i].id == cases[i].id && Lower(cases, id)[i].entries == cases[i].entries
    ensures forall i :: 0 <= i < |cases| ==>
      Lower(cases, id)[i].using == cases[i].using - (if cases[i].id == id then 1 else 0)
    ensures forall k :: Live(cases, k) ==> Live(Lower(cases, id), k)
  {
    forall k | Live(cases, k)
      ensures Live(Lower(cases, id), k)
    {
      var i :| 0 <= i < |cases| && cases[i].id == k;
      assert Lower(cases, id)[i].id == k;
    }
  }

  lemma FinishInv(s: State, u: nat)
    requires Inv(s) && Enabled(s, AgentFinish(u))
    ensures Inv(Apply(s, AgentFinish(u)))
  {
    hide Lower, Live, Unfinished, EntriesNamed;
    var g := Apply(s, AgentFinish(u));
    LowerKeeps(s.cases, s.caseOf[u]);
    assert g.place.Keys == s.place.Keys;
    forall i | 0 <= i < |g.cases|
      ensures g.cases[i].using == |Unfinished(g, g.cases[i].id)|
    {
      FinishUnfinished(s, u, g.cases[i].id);
    }
    NamesKept(s, g);
  }

  // ---------- deleting ----------

  /** A case whose count is not positive has no unfinished event. */
  lemma UnusedIsFinished(s: State, i: nat, u: nat)
    requires Inv(s) && i < |s.cases| && s.cases[i].using <= 0 && u in s.caseOf && s.caseOf[u] == s.cases[i].id
    ensures u in s.place && s.place[u].Done?
  {
    hide EntriesNamed, NothingFreedInUse;
    assert Unfinished(s, s.cases[i].id) == {};
    assert u !in Unfinished(s, s.cases[i].id);
  }

  lemma LiveWithout(cases: seq<Case>, i: nat, id: nat)
    requires i < |cases| && Live(cases, id) && cases[i].id != id
    ensures Live(Without(cases, i), id)
  {
    var k :| 0 <= k < |cases| && cases[k].id == id;
    assert Without(cases, i)[if k < i then k else k - 1] == cases[k];
  }

  lemma DeleteCaseInv(s: State, i: nat)
    requires Inv(s) && i < |s.cases| && s.cases[i].using <= 0
    ensures Inv(s.(cases := Without(s.cases, i), freedCases := s.freedCases + {s.cases[i].id},
                   freedEvents := s.freedEvents + Uids(s.cases[i].entries)))
  {
    var c := s.cases[i];
    var g := s.(cases := Without(s.cases, i), freedCases := s.freedCases + {c.id},
      freedEvents := s.freedEvents + Uids(c.entries));
    DeleteNumbered(s, i, g);
    DeleteInUse(s, i, g);
    DeleteEntries(s, i, g);
  }

  ghost predicate CaseDeleted(s: State, i: nat, g: State)
    requires i < |s.cases|
  {
    g == s.(cases := Without(s.cases, i), freedCases := s.freedCases + {s.cases[i].id},
            freedEvents := s.freedEvents + Uids(s.cases[i].entries))
  }

  lemma DeleteNumbered(s: State, i: nat, g: State)
    requires Inv(s) && i < |s.cases| && CaseDeleted(s, i, g)
    ensures Numbered(g) && CountsExact(g)
  {
    hide EntriesNamed, NothingFreedInUse, Live;
    assert forall k :: 0 <= k < |g.cases| ==> g.cases[k] == s.cases[if k < i then k else k + 1];
    forall id: nat
      ensures Unfinished(g, id) == Unfinished(s, id)
    {
    }
  }

  /** The numbers of a case's entries are events of that case. */
  lemma UidsNamed(s: State, i: nat)
    requires EntriesNamed(s) && i < |s.cases|
    ensures forall u :: u in Uids(s.cases[i].entries) ==> u in s.caseOf && s.caseOf[u] == s.cases[i].id
  {
    var c := s.cases[i];
    forall u | u in Uids(c.entries)
      ensures u in s.caseOf && s.caseOf[u] == c.id
    {
      var e :| e in c.entries && e.uid == u;
      var j :| 0 <= j < |c.entries| && c.entries[j] == e;
      assert Named(s, c.id, c.entries[j].uid);
    }
  }

  lemma DeleteInUse(s: State, i: nat, g: State)
    requires Inv(s) && i < |s.cases| && s.cases[i].using <= 0 && CaseDeleted(s, i, g)
    ensures NothingFreedInUse(g)
  {
    hide Live, CountsExact;
    var c := s.cases[i];
    UidsNamed(s, i);
    forall u | u in s.caseOf && s.caseOf[u] == c.id
      ensures u in s.place && s.place[u].Done?
    {
      UnusedIsFinished(s, i, u);
    }
    forall u | u in g.place && !g.place[u].Done? && u in g.caseOf
      ensures Live(g.cases, g.caseOf[u]) && u !in g.freedEvents
    {
      LiveWithout(s.cases, i, s.caseOf[u]);
    }
  }

  lemma DeleteEntries(s: State, i: nat, g: State)
    requires Inv(s) && i < |s.cases| && CaseDeleted(s, i, g)
    ensures EntriesNamed(g)
  {
    hide Live, CountsExact, NothingFreedInUse, Uids;
    UidsNamed(s, i);
    forall k, j | 0 <= k < |g.cases| && 0 <= j < |g.cases[k].entries|
      ensures Named(g, g.cases[k].id, g.cases[k].entries[j].uid)
    {
      var at := if k < i then k else k + 1;
      assert g.cases[k] == s.cases[at];
      assert Named(s, s.cases[at].id, s.cases[at].entries[j].uid);
    }
    forall k | 0 <= k < |g.cases|
      ensures Distinct(g.cases[k].entries)
    {
      assert g.cases[k] == s.cases[if k < i then k else k + 1];
    }
  }

  lemma DeleteEntryInv(s: State, i: nat, j: nat)
    requires Inv(s) && i < |s.cases| && s.cases[i].using <= 0 && j < |s.cases[i].entries|
    ensures var c := s.cases[i];
      Inv(s.(cases := s.cases[i := c.(entries := Without(c.entries, j))],
        freedEvents := s.freedEvents + {c.entries[j].uid}))
  {
    var c := s.cases[i];
    var uid := c.entries[j].uid;
    var g := s.(cases := s.cases[i := c.(entries := Without(c.entries, j))], freedEvents := s.freedEvents + {uid});
    assert Named(s, c.id, uid);
    UnusedIsFinished(s, i, uid);
    EntryGone(s, i, j, g);
    assert NothingFreedInUse(g) by {
      forall id | Live(s.cases, id)
        ensures Live(g.cases, id)
      {
        var k :| 0 <= k < |s.cases| && s.cases[k].id == id;
        assert g.cases[k].id == id;
      }
    }
    assert CountsExact(g) by {
      forall id: nat
        ensures Unfinished(g, id) == Unfinished(s, id)
      {
      }
    }
  }

  lemma EntryGone(s: State, i: nat, j: nat, g: State)
    requires Inv(s) && i < |s.cases| && j < |s.cases[i].entries|
    requires g == s.(cases := s.cases[i := s.cases[i].(entries := Without(s.cases[i].entries, j))],
                     freedEvents := s.freedEvents + {s.cases[i].entries[j].uid})
    ensures EntriesNamed(g)
  {
    hide Live, CountsExact, NothingFreedInUse;
    var c := s.cases[i];
    var uid := c.entries[j].uid;
    assert Named(s, c.id, uid);
    forall k, m | 0 <= k < |g.cases| && 0 <= m < |g.cases[k].entries|
      ensures Named(g, g.cases[k].id, g.cases[k].entries[m].uid)
    {
      var at := if k == i && m >= j then m + 1 else m;
      assert g.cases[k].entries[m] == s.cases[k].entries[at];
      assert Named(s, s.cases[k].id, s.cases[k].entries[at].uid);
    }
    forall k | 0 <= k < |g.cases|
      ensures Distinct(g.cases[k].entries)
    {
      if k == i {
        assert forall m :: 0 <= m < |g.cases[k].entries| ==>
          g.cases[k].entries[m] == c.entries[if m < j then m else m + 1];
      }
    }
  }

  lemma FindAndDeleteInv(s: State, devName: string, devId: int, evtId: int, isolated: bool)
    requires Inv(s) && s.busy.None?
    ensures Inv(Apply(s, FindAndDelete(devName, devId, evtId, isolated)))
  {
    hide Inv, Without, Uids;
    var i := FindDeletable(s.cases, devName, devId, evtId, isolated);
    if i < |s.cases| {
      if isolated {
        DeleteCaseInv(s, i);
      } else {
        var j := FindEntry(s.cases[i].entries, evtId);
        if j < |s.cases[i].entries| {
          DeleteEntryInv(s, i, j);
        }
      }
    }
  }

  // ---------- every interleaving ----------

  lemma StepInv(s: State, step: Step)
    requires Inv(s) && Enabled(s, step)
    ensures Inv(Apply(s, step))
  {
    hide Numbered, CountsExact, EntriesNamed, NothingFreedInUse, AddArrival, Lower, Delete;
    match step
    case Take(a, how, times) =>
      TakeNumbered(s, a, how, times);
      TakeCounts(s, a, how, times);
      TakeEntries(s, a, how, times);
    case Route(agent) => MoveInv(s, s.busy.value, if agent.Some? then InRing(agent.value) else Unrouted, None);
    case AgentTake(u) => MoveInv(s, u, InHand(s.place[u].agent), s.busy);
    case AgentFinish(u) => FinishInv(s, u);
    case FindAndDelete(devName, devId, evtId, isolated) => FindAndDeleteInv(s, devName, devId, evtId, isolated);
  }

  ghost predicate Possible(s: State, steps: seq<Step>)
    decreases |steps|
  {
    steps == [] || (Enabled(s, steps[0]) && Possible(Apply(s, steps[0]), steps[1..]))
  }

  ghost function After(s: State, steps: seq<Step>): State
    requires Possible(s, steps)
    decreases |steps|
  {
    if steps == [] then s else After(Apply(s, steps[0]), steps[1..])
  }

  const START := State([], 0, map[], map[], None, {}, {}, false)

  lemma {:induction false} RunInv(s: State, steps: seq<Step>)
    requires Inv(s) && Possible(s, steps)
    ensures Inv(After(s, steps))
    decreases |steps|
  {
    hide Inv, Enabled, Apply;
    if steps != [] {
      StepInv(s, steps[0]);
      RunInv(Apply(s, steps[0]), steps[1..]);
    }
  }

  /** In every interleaving: each case's use count is exactly the number of its events not finished
      by an agent; no freed case or freed entry is still referred to by an unfinished event; no agent
      ever lowers the count of a freed case; and no entry in a list has been freed. */
  lemma EveryRun(steps: seq<Step>)
    requires Possible(START, steps)
    ensures var s := After(START, steps);
      && (forall i :: 0 <= i < |s.cases| ==> s.cases[i].using == |Unfinished(s, s.cases[i].id)|)
      && (forall u :: u in s.place && !s.place[u].Done? ==>
            u in s.caseOf && Live(s.cases, s.caseOf[u]) && s.caseOf[u] !in s.freedCases && u !in s.freedEvents)
      && !s.stray
  {
    RunInv(START, steps);
    var s := After(START, steps);
    forall u | u in s.place && !s.place[u].Done?
      ensures u in s.caseOf && Live(s.cases, s.caseOf[u]) && s.caseOf[u] !in s.freedCases && u !in s.freedEvents
    {
      var i :| 0 <= i < |s.cases| && s.cases[i].id == s.caseOf[u];
    }
  }

  /** An event no agent subscribes to is never finished, so its case is never deleted. */
  lemma {:induction false} UnroutedPinsCase(s: State, steps: seq<Step>, u: nat)
    requires Inv(s) && Possible(s, steps) && u in s.place && s.place[u].Unrouted?
    ensures u in s.caseOf
    ensures var g := After(s, steps);
      && u in g.place && g.place[u].Unrouted?
      && u in g.caseOf && g.caseOf[u] == s.caseOf[u] && Live(g.cases, g.caseOf[u])
    decreases |steps|
  {
    hide CountsExact, EntriesNamed, AddArrival, Lower, Delete, Target, Live;
    if steps != [] {
      StepInv(s, steps[0]);
      UnroutedPinsCase(Apply(s, steps[0]), steps[1..], u);
    }
  }
}
