/** The case list exchange between the daemon and fmsadm, twenty sections a reply
    (evt_modules/evtsrc/adm/evtsrc.adm.c:45-68, 123-188, lib/libadm/fmd_adm.c:239-266, 301-326). */
module Paging {
  import opened Options

  const PAGE: nat := 20 // FAF_NUM

  // the states of a case; those of a section have the same values
  const CASE_CREATE := 0
  const CASE_FIRED := 1
  const CASE_CLOSED := 2

  /** An event of a case as it is reported. */
  datatype Event = Event(devName: string, devId: int, eclass: string, count: nat, create: int, lastOccur: int)

  /** A case: its cs_flag and its list of events. */
  datatype Case = Case(flag: int, events: seq<Event>)

  /** A section of a reply (faf_case_t). */
  datatype Section = Section(state: int, event: Event)

  function Sections(c: Case): (s: seq<Section>)
    ensures |s| == |c.events|
  {
    seq(|c.events|, i requires 0 <= i < |c.events| => Section(c.flag, c.events[i]))
  }

  /** All events of all cases, in list order. */
  function Flat(cases: seq<Case>): seq<Section> {
    if cases == [] then [] else Sections(cases[0]) + Flat(cases[1..])
  }

  /** The page that starts behind the first num events. */
  function Page(s: seq<Section>, num: nat): (p: seq<Section>)
    ensures |p| <= PAGE
  {
    if |s| <= num then [] else if |s| <= num + PAGE then s[num..] else s[num..num + PAGE]
  }

  /** Where in the page the event after the first n stands: how many of the first n are in it. */
  function InPage(n: nat, num: nat): nat { if n <= num then 0 else if n <= num + PAGE then n - num else PAGE }

  lemma PageLength(s: seq<Section>, num: nat)
    ensures |Page(s, num)| == InPage(|s|, num)
  {
  }

  /** The events of the first k cases come first. */
  lemma {:induction false} FlatPrefix(cases: seq<Case>, k: nat)
    requires k < |cases|
    ensures |Flat(cases[..k])| + |cases[k].events| == |Flat(cases[..k + 1])| <= |Flat(cases)|
    ensures forall j :: 0 <= j < |cases[k].events| ==>
      Flat(cases)[|Flat(cases[..k])| + j] == Section(cases[k].flag, cases[k].events[j])
  {
    var c := cases[0];
    if k == 0 {
      assert cases[..1] == [c] && cases[..0] == [];
      assert Flat([c]) == Sections(c) + Flat([]);
    } else {
      FlatPrefix(cases[1..], k - 1);
      assert cases[..k][1..] == cases[1..][..k - 1] && cases[..k + 1][1..] == cases[1..][..k];
      assert Flat(cases[..k]) == Sections(c) + Flat(cases[1..][..k - 1]);
      assert Flat(cases[..k + 1]) == Sections(c) + Flat(cases[1..][..k]);
    }
  }

  lemma FlatWhole(cases: seq<Case>)
    ensures cases[..|cases|] == cases && Flat(cases[..0]) == []
  {
  }

  /** fmd_resv_caselist: how many sections the reply needs. */
  method Reserve(cases: seq<Case>, num: nat) returns (secs: nat)
    ensures secs == |Page(Flat(cases), num)|
  {
    secs := 0;
    var tmp, k := 0, 0;
    FlatWhole(cases);
    while k < |cases|
      invariant 0 <= k <= |cases| && tmp == |Flat(cases[..k])| && secs == InPage(tmp, num)
    {
      FlatPrefix(cases, k);
      var j := 0;
      while j < |cases[k].events|
        invariant 0 <= j <= |cases[k].events| && tmp == |Flat(cases[..k])| + j && secs == InPage(tmp, num)
      {
        tmp := tmp + 1;
        if num < tmp <= num + PAGE {
          secs := secs + 1;
        }
        j := j + 1;
      }
      k := k + 1;
    }
    PageLength(Flat(cases), num);
  }

  /** Every section shows a known case state. */
  predicate Presentable(s: seq<Section>) { forall i :: 0 <= i < |s| ==> 0 <= s[i].state <= 2 }

  lemma PresentableMeans(s: seq<Section>)
    ensures Presentable(s) <==>
      forall i :: 0 <= i < |s| ==> var state := s[i].state; state == 0 || state == 1 || state == 2
  {
  }

  lemma PagePresentable(s: seq<Section>, num: nat)
    requires Presentable(s)
    ensures Presentable(Page(s, num))
  {
  }

  /** fmd_get_caselist: a buffer of exactly the reserved size is filled exactly; there is no reply
      exactly when some section of the page would show an unknown case state. */
  method GetCaseList(cases: seq<Case>, num: nat) returns (reply: Option<seq<Section>>)
    ensures reply.Some? ==> reply.value == Page(Flat(cases), num)
    ensures reply.Some? <==> forall i :: 0 <= i < |Page(Flat(cases), num)| ==>
      var state := Page(Flat(cases), num)[i].state; state == 0 || state == 1 || state == 2
  {
    hide Page, InPage;
    var secs := Reserve(cases, num);
    ghost var all, page := Flat(cases), Page(Flat(cases), num);
    if secs == 0 {
      return Some([]);
    }
    var filler := Section(0, Event("", 0, "", 0, 0, 0));
    var buf := new Section[secs](_ => filler);
    var cnt, tmp, k := 0, 0, 0;
    FlatWhole(cases);
    EmptyPage(num);
    while k < |cases|
      invariant 0 <= k <= |cases| && tmp == |Flat(cases[..k])| && cnt == InPage(tmp, num) <= secs
      invariant buf[..cnt] == page[..cnt] && Presentable(page[..cnt])
    {
      FlatPrefix(cases, k);
      var j := 0;
      while j < |cases[k].events|
        invariant 0 <= j <= |cases[k].events| && tmp == |Flat(cases[..k])| + j && cnt == InPage(tmp, num) <= secs
        invariant buf[..cnt] == page[..cnt] && Presentable(page[..cnt])
      {
        NextInPage(all, num, tmp);
        tmp := tmp + 1;
        if num < tmp <= num + PAGE {
          assert page[cnt] == Section(cases[k].flag, cases[k].events[j]);
          var state;
          if cases[k].flag == CASE_CREATE {
            state := CASE_CREATE;
          } else if cases[k].flag == CASE_FIRED {
            state := CASE_FIRED;
          } else if cases[k].flag == CASE_CLOSED {
            state := CASE_CLOSED;
          } else {
            return None;
          }
          buf[cnt] := Section(state, cases[k].events[j]);
          cnt := cnt + 1;
          assert buf[..cnt] == page[..cnt];
        }
        j := j + 1;
      }
      k := k + 1;
    }
    PageLength(all, num);
    assert cnt == secs && buf[..] == buf[..cnt] && page[..cnt] == page;
    reply := Some(buf[..]);
  }

  lemma EmptyPage(num: nat)
    ensures InPage(0, num) == 0
  {
  }

  lemma NextInPage(s: seq<Section>, num: nat, n: nat)
    requires n < |s|
    ensures num < n + 1 <= num + PAGE ==> InPage(n, num) < |Page(s, num)| && Page(s, num)[InPage(n, num)] == s[n]
    ensures InPage(n + 1, num) == InPage(n, num) + (if num < n + 1 <= num + PAGE then 1 else 0)
  {
  }

  // ---------- the client ----------

  function Reverse(s: seq<Section>): seq<Section> {
    if s == [] then [] else Reverse(s[1..]) + [s[0]]
  }

  lemma {:induction false} ReverseAppend(s: seq<Section>, t: seq<Section>)
    ensures Reverse(s + t) == Reverse(t) + Reverse(s)
  {
    if s == [] {
      assert s + t == t;
    } else {
      ReverseAppend(s[1..], t);
      assert (s + t)[1..] == s[1..] + t;
    }
  }

  lemma {:induction false} ReverseKeeps(s: seq<Section>)
    ensures multiset(Reverse(s)) == multiset(s)
  {
    if s != [] {
      ReverseKeeps(s[1..]);
      assert s == [s[0]] + s[1..];
    }
  }

  lemma {:induction false} ReverseAt(s: seq<Section>, k: nat)
    requires k < |s|
    ensures |Reverse(s)| == |s| && Reverse(s)[|s| - 1 - k] == s[k]
  {
    ReverseLength(s);
    ReverseLength(s[1..]);
    if k > 0 { ReverseAt(s[1..], k - 1); }
  }

  lemma {:induction false} ReverseLength(s: seq<Section>)
    ensures |Reverse(s)| == |s|
  {
    if s != [] { ReverseLength(s[1..]); }
  }

  /** fmd_adm_get_caseinfo: each section is added in front of the client's list; -1 for none. */
  method GetCaseInfo(reply: seq<Section>, csList: seq<Section>) returns (num: int, after: seq<Section>)
    ensures num == if reply == [] then -1 else |reply|
    ensures after == Reverse(reply) + csList
  {
    after := csList;
    if reply == [] {
      assert Reverse(reply) + csList == csList;
      return -1, csList;
    }
    var i := 0;
    while i < |reply|
      invariant 0 <= i <= |reply| && after == Reverse(reply[..i]) + csList
    {
      assert reply[..i + 1] == reply[..i] + [reply[i]];
      ReverseAppend(reply[..i], [reply[i]]);
      assert Reverse([reply[i]]) == [reply[i]];
      after := [reply[i]] + after;
      i := i + 1;
    }
    assert reply[..i] == reply;
    num := |reply|;
  }

  /** What the first n pages hold. */
  function Front(s: seq<Section>, n: nat): seq<Section> { if n * PAGE <= |s| then s[..n * PAGE] else s }

  lemma FrontGrows(s: seq<Section>, n: nat)
    ensures Front(s, n + 1) == Front(s, n) + Page(s, n * PAGE)
  {
  }

  /** The first n pages show only known case states. */
  ghost predicate PagesPresentable(s: seq<Section>, n: nat) {
    forall i :: 0 <= i < n ==> Presentable(Page(s, i * PAGE))
  }

  lemma AllPresentable(s: seq<Section>, n: nat)
    requires PagesPresentable(s, n) && Front(s, n) == s
    ensures Presentable(s)
  {
    forall i | 0 <= i < |s|
      ensures 0 <= s[i].state <= 2
    {
      var p := i / PAGE;
      assert Presentable(Page(s, p * PAGE));
      assert Page(s, p * PAGE)[i % PAGE] == s[i];
    }
  }

  /** fmd_adm_case_iter against a daemon whose case list does not change. The loop ends. When all
      case states are known, every event of every case has been collected exactly once, last one
      first, and the result is -1 when the number of events is a multiple of the page size, although
      nothing is missing. Else exactly the pages before the first one with an unknown state have been
      collected, and the result is -1: the daemon then sends an empty message, which the client takes
      for an empty page. */
  method CaseIter(cases: seq<Case>) returns (rc: int, csList: seq<Section>, ghost pages: nat)
    ensures csList == Reverse(Front(Flat(cases), pages)) && PagesPresentable(Flat(cases), pages)
    ensures Presentable(Flat(cases)) ==> csList == Reverse(Flat(cases)) && multiset(csList) == multiset(Flat(cases))
    ensures Presentable(Flat(cases)) ==> rc == if |Flat(cases)| % PAGE == 0 then -1 else 0
    ensures !Presentable(Flat(cases)) ==> rc == -1 && !Presentable(Page(Flat(cases), pages * PAGE))
  {
    hide Page, Front, Flat, Reverse, Presentable;
    ghost var all := Flat(cases);
    ReverseKeeps(all);
    var num, index := PAGE, 0;
    csList := [];
    NoPages(all);
    while (num > 0 && index == 0) || num == PAGE
      invariant 0 <= index && csList == Reverse(Front(all, index)) && PagesPresentable(all, index)
      invariant num == PAGE ==> index * PAGE <= |all|
      invariant num != PAGE ==> 0 < num < PAGE && index > 0 && Front(all, index) == all && |all| % PAGE != 0
      decreases |all| + PAGE - index * PAGE
    {
      var reply := GetCaseList(cases, PAGE * index);
      ghost var page := Page(all, index * PAGE);
      pages := index;
      PageOrWhole(all, index);
      assert reply.Some? <==> Presentable(page) by { PresentableMeans(page); }
      FrontGrows(all, index);
      ReverseAppend(Front(all, index), page);
      PageEnds(all, index);
      index := index + 1;
      num, csList := GetCaseInfo(if reply.Some? then reply.value else [], csList);
      if num < 0 {
        rc := -1;
        if reply.Some? { AllPresentable(all, index); pages := index; }
        return;
      }
    }
    AllPresentable(all, index);
    pages := index;
    rc := 0;
  }

  lemma PageOrWhole(s: seq<Section>, n: nat)
    ensures Reverse([]) == [] && (Presentable(s) ==> Presentable(Page(s, n * PAGE)))
  {
    hide Page, Presentable;
    if Presentable(s) { PagePresentable(s, n * PAGE); }
  }

  lemma NoPages(s: seq<Section>)
    ensures Front(s, 0) == [] && Reverse([]) == []
  {
  }

  /** How a page tells the client where it stands. */
  lemma PageEnds(s: seq<Section>, n: nat)
    requires n * PAGE <= |s|
    ensures var p := Page(s, n * PAGE);
      && |p| <= PAGE && (|p| == PAGE ==> (n + 1) * PAGE <= |s|)
      && (|p| < PAGE ==> Front(s, n + 1) == s && (|p| == 0 <==> |s| % PAGE == 0))
  {
  }
}
