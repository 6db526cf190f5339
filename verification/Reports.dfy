/** The case list exchange run on what the case engine has made of its arrivals: what fmsadm prints is
    the history (lib/libcase/fmd_case.c:62, 97, evt_modules/evtsrc/adm/evtsrc.adm.c:123-188). */
module Reports {
  import CaseEngine
  import opened CaseHistory
  import Paging

  /** What the daemon reads of a case. Its flag is CASE_CREATE at first and CASE_FIRED from the first
      fault on; nothing in the engine sets CASE_CLOSED. */
  function Shown(c: CaseEngine.Case): Paging.Case {
    Paging.Case(
      if c.hasFired then Paging.CASE_FIRED else Paging.CASE_CREATE,
      seq(|c.entries|, j requires 0 <= j < |c.entries| => ShownEntry(c, c.entries[j])))
  }

  function ShownEntry(c: CaseEngine.Case, e: CaseEngine.Entry): Paging.Event {
    Paging.Event(c.devName, c.devId, e.eclass, e.count, e.created, e.lastOccur)
  }

  function ShownAll(s: seq<CaseEngine.Case>): seq<Paging.Case> {
    seq(|s|, i requires 0 <= i < |s| => Shown(s[i]))
  }

  /** How many entries the first i cases have. */
  function Before(s: seq<CaseEngine.Case>, i: nat): nat
    requires i <= |s|
  {
    if i == 0 then 0 else Before(s, i - 1) + |s[i - 1].entries|
  }

  /** Every position is that of one entry. */
  lemma {:induction false} EveryPosition(s: seq<CaseEngine.Case>, n: nat, at: nat) returns (i: nat, j: nat)
    requires n <= |s| && at < Before(s, n)
    ensures i < n && j < |s[i].entries| && at == Before(s, i) + j
  {
    if at < Before(s, n - 1) {
      i, j := EveryPosition(s, n - 1, at);
    } else {
      i, j := n - 1, at - Before(s, n - 1);
    }
  }

  lemma {:induction false} BeforeGrows(s: seq<CaseEngine.Case>, i: nat, n: nat)
    requires i <= n <= |s|
    ensures Before(s, i) <= Before(s, n)
  {
    if i < n { BeforeGrows(s, i, n - 1); }
  }

  lemma {:induction false} FlatBefore(s: seq<CaseEngine.Case>, i: nat)
    requires i <= |s|
    ensures |Paging.Flat(ShownAll(s)[..i])| == Before(s, i)
  {
    if i > 0 {
      FlatBefore(s, i - 1);
      Paging.FlatPrefix(ShownAll(s), i - 1);
    }
  }

  /** Entry j of case i in the flattened list. */
  lemma FlatAt(s: seq<CaseEngine.Case>, i: nat, j: nat)
    requires i < |s| && j < |s[i].entries|
    ensures |Paging.Flat(ShownAll(s))| == Before(s, |s|) > Before(s, i) + j
    ensures Paging.Flat(ShownAll(s))[Before(s, i) + j] ==
      Paging.Section(if s[i].hasFired then 1 else 0, ShownEntry(s[i], s[i].entries[j]))
  {
    hide Paging.Flat;
    FlatBefore(s, i);
    FlatBefore(s, |s|);
    assert ShownAll(s)[..|s|] == ShownAll(s);
    FlatBefore(s, i + 1);
    BeforeGrows(s, i + 1, |s|);
    Paging.FlatPrefix(ShownAll(s), i);
    assert ShownAll(s)[i] == Shown(s[i]) && Shown(s[i]).events[j] == ShownEntry(s[i], s[i].entries[j]);
  }

  /** A case list of the engine shows no unknown state. */
  lemma AlwaysPresentable(s: seq<CaseEngine.Case>)
    ensures |Paging.Flat(ShownAll(s))| == Before(s, |s|) && Paging.Presentable(Paging.Flat(ShownAll(s)))
  {
    hide Paging.Flat, ShownAll;
    FlatBefore(s, |s|);
    assert ShownAll(s)[..|s|] == ShownAll(s) by { ShownLength(s); }
    var all := Paging.Flat(ShownAll(s));
    forall at | 0 <= at < |all|
      ensures 0 <= all[at].state <= 2
    {
      var i, j := EveryPosition(s, |s|, at);
      FlatAt(s, i, j);
    }
  }

  lemma ShownLength(s: seq<CaseEngine.Case>)
    ensures |ShownAll(s)| == |s|
  {
  }

  /** The section tells of the arrivals of the case and of the entry. */
  ghost predicate Tells(s: Paging.Section, log: seq<Rec>, l: seq<Rec>) {
    && (s.state == 1 <==> exists k :: 0 <= k < |log| && log[k].fault.Some?)
    && (s.state == 0 <==> forall k :: 0 <= k < |log| ==> log[k].fault.None?)
    && l != [] && s.event.count == |l|
    && s.event.devName == l[0].a.devName && s.event.devId == l[0].a.devId && s.event.eclass == l[0].a.eclass
    && s.event.create == l[0].times.added
    && s.event.lastOccur == (if |l| == 1 then l[0].times.stamped else l[|l| - 1].a.created)
  }

  /** What stands at a position of the client's list. */
  ghost predicate Listed(csList: seq<Paging.Section>, at: int, log: seq<Rec>, l: seq<Rec>) {
    0 <= at < |csList| && Tells(csList[at], log, l)
  }

  lemma EntryShown(cases: seq<CaseEngine.Case>, rules: Rules, clock: int, ops: seq<Op>, i: nat, j: nat)
    requires Possible(rules, Start(clock), ops) && cases == After(rules, Start(clock), ops).cases
    requires i < |cases| && j < |cases[i].entries|
    ensures Tells(Paging.Section(if cases[i].hasFired then 1 else 0, ShownEntry(cases[i], cases[i].entries[j])),
                  CaseLogAfter(rules, clock, ops, i), LogAfter(rules, clock, ops, i, j))
  {
    hide After, Possible, LogAfter, CaseLogAfter, FiresAsPromised, Chronological, RecOk;
    var log, l := CaseLogAfter(rules, clock, ops, i), LogAfter(rules, clock, ops, i, j);
  }

  /** Entry j of case i in the client's list. */
  lemma EntryListed(cases: seq<CaseEngine.Case>, csList: seq<Paging.Section>, rules: Rules, clock: int, ops: seq<Op>,
    i: nat, j: nat)
    requires Possible(rules, Start(clock), ops) && cases == After(rules, Start(clock), ops).cases
    requires i < |cases| && j < |cases[i].entries| && csList == Paging.Reverse(Paging.Flat(ShownAll(cases)))
    ensures var at := |csList| - 1 - (Before(cases, i) + j);
      Listed(csList, at, CaseLogAfter(rules, clock, ops, i), LogAfter(rules, clock, ops, i, j))
  {
    hide After, Possible, LogAfter, CaseLogAfter, ShownAll, Paging.Flat, Paging.Reverse, Tells, Before;
    FlatAt(cases, i, j);
    Paging.ReverseAt(Paging.Flat(ShownAll(cases)), Before(cases, i) + j);
    EntryShown(cases, rules, clock, ops, i, j);
  }

  /** In every reachable state the client collects every entry of every case exactly once, the last
      one first. A section shows state 1 if a fault has been raised on the case and 0 if none has,
      and of the entry how many arrivals it has counted, when it was opened, when the last one came
      and the class of the first. The client reports -1 when their number is a multiple of 20. */
  method ListCases(cases: seq<CaseEngine.Case>, ghost rules: Rules, ghost clock: int, ghost ops: seq<Op>)
    returns (rc: int, csList: seq<Paging.Section>)
    requires Possible(rules, Start(clock), ops) && cases == After(rules, Start(clock), ops).cases
    ensures |csList| == Before(cases, |cases|) && rc == if |csList| % 20 == 0 then -1 else 0
    ensures forall i, j :: 0 <= i < |cases| && 0 <= j < |cases[i].entries| ==>
      var at := |csList| - 1 - (Before(cases, i) + j);
      Listed(csList, at, CaseLogAfter(rules, clock, ops, i), LogAfter(rules, clock, ops, i, j))
  {
    hide After, Possible, LogAfter, CaseLogAfter, ShownAll, Paging.Flat, Paging.Presentable, Paging.Front,
      Paging.PagesPresentable, Paging.Reverse, Listed, Before;
    AlwaysPresentable(cases);
    Paging.ReverseLength(Paging.Flat(ShownAll(cases)));
    ghost var pages;
    rc, csList, pages := Paging.CaseIter(ShownAll(cases));
    forall i, j | 0 <= i < |cases| && 0 <= j < |cases[i].entries|
      ensures var at := |csList| - 1 - (Before(cases, i) + j);
        Listed(csList, at, CaseLogAfter(rules, clock, ops, i), LogAfter(rules, clock, ops, i, j))
    {
      EntryListed(cases, csList, rules, clock, ops, i, j);
    }
  }
}
