/** The circular doubly linked list of include/list.h. A head and the nodes linked to it stand for
    a sequence of nodes; each operation is proved to be the matching operation on that sequence. */
module IntrusiveList {
  import opened Sequences

  /** struct list_head; null stands for LIST_POISON1 and LIST_POISON2. */
  class Node {
    var next: Node?
    var prev: Node?
    constructor ()
      ensures next == this && prev == this
    {
      next, prev := this, this;
    }
  }

  /** The i-th node of the circle: the head, then s, then the head again. */
  ghost function At(head: Node, s: seq<Node>, i: int): Node
    requires 0 <= i <= |s| + 1
  {
    if i == 0 || i == |s| + 1 then head else s[i - 1]
  }

  ghost predicate Linked(a: Node, b: Node)
    reads a, b
  {
    a.next == b && b.prev == a
  }

  ghost predicate Distinct(head: Node, s: seq<Node>) {
    head !in s && forall i, j :: 0 <= i < j < |s| ==> s[i] != s[j]
  }

  /** Following next from head passes through s and comes back, and prev is the way back. */
  ghost predicate IsList(head: Node, s: seq<Node>)
    reads head, s
  {
    Distinct(head, s) && forall i :: 0 <= i <= |s| ==> Linked(At(head, s, i), At(head, s, i + 1))
  }

  lemma AtInjective(head: Node, s: seq<Node>, i: nat, j: nat)
    requires Distinct(head, s) && i < j <= |s|
    ensures At(head, s, i) != At(head, s, j)
  {
  }

  lemma AtIn(head: Node, s: seq<Node>, i: nat)
    requires i <= |s| + 1
    ensures At(head, s, i) == head || At(head, s, i) in s
  {
  }

  function Insert<T>(s: seq<T>, k: nat, x: T): seq<T>
    requires k <= |s|
  {
    s[..k] + [x] + s[k..]
  }

  lemma InsertAt(head: Node, s: seq<Node>, k: nat, x: Node, i: nat)
    requires k <= |s| && i <= |s| + 2
    ensures At(head, Insert(s, k, x), i) ==
      if i <= k then At(head, s, i) else if i == k + 1 then x else At(head, s, i - 1)
  {
  }

  lemma RemovedAt(head: Node, s: seq<Node>, k: nat, i: nat)
    requires k < |s| && i <= |s|
    ensures At(head, Without(s, k), i) == if i <= k then At(head, s, i) else At(head, s, i + 1)
  {
  }

  /** INIT_LIST_HEAD */
  method InitListHead(head: Node)
    modifies head
    ensures IsList(head, [])
  {
    head.next, head.prev := head, head;
  }

  /** __list_add: x goes between the k-th node of the circle and the one behind it. */
  method ListInsert(x: Node, prev: Node, next: Node, ghost head: Node, ghost s: seq<Node>, ghost k: nat)
    requires IsList(head, s) && k <= |s| && x != head && x !in s
    requires prev == At(head, s, k) && next == At(head, s, k + 1)
    modifies x, prev, next
    ensures IsList(head, Insert(s, k, x))
  {
    next.prev := x;
    x.next := next;
    x.prev := prev;
    prev.next := x;
    ghost var t := Insert(s, k, x);
    forall i | 0 <= i <= |t|
      ensures Linked(At(head, t, i), At(head, t, i + 1))
    {
      InsertAt(head, s, k, x, i);
      InsertAt(head, s, k, x, i + 1);
      if i < k {
        AtInjective(head, s, i, k);
        assert old(Linked(At(head, s, i), At(head, s, i + 1)));
      } else if i > k + 1 {
        AtInjective(head, s, k, i - 1);
        assert old(Linked(At(head, s, i - 1), At(head, s, i)));
      }
    }
  }

  /** list_add: behind the head. */
  method ListAdd(x: Node, head: Node, ghost s: seq<Node>)
    requires IsList(head, s) && x != head && x !in s
    modifies x, head, At(head, s, 1)
    ensures IsList(head, [x] + s)
  {
    assert Linked(At(head, s, 0), At(head, s, 1));
    ListInsert(x, head, head.next, head, s, 0);
    assert Insert(s, 0, x) == [x] + s;
  }

  /** list_add_tail: before the head. */
  method ListAddTail(x: Node, head: Node, ghost s: seq<Node>)
    requires IsList(head, s) && x != head && x !in s
    modifies x, head, At(head, s, |s|)
    ensures IsList(head, s + [x])
  {
    assert Linked(At(head, s, |s|), At(head, s, |s| + 1));
    ListInsert(x, head.prev, head, head, s, |s|);
    assert Insert(s, |s|, x) == s + [x];
  }

  /** __list_del: the k-th element's neighbours are linked to each other. */
  method Unlink(prev: Node, next: Node, ghost head: Node, ghost s: seq<Node>, ghost k: nat)
    requires IsList(head, s) && k < |s| && prev == At(head, s, k) && next == At(head, s, k + 2)
    modifies prev, next
    ensures IsList(head, Without(s, k))
    ensures s[k].next == old(s[k].next) && s[k].prev == old(s[k].prev)
  {
    AtInjective(head, s, k, k + 1);
    next.prev := prev;
    prev.next := next;
    ghost var t := Without(s, k);
    forall i | 0 <= i <= |t|
      ensures Linked(At(head, t, i), At(head, t, i + 1))
    {
      RemovedAt(head, s, k, i);
      RemovedAt(head, s, k, i + 1);
      if i < k {
        AtInjective(head, s, i, k);
        assert old(Linked(At(head, s, i), At(head, s, i + 1)));
      } else if i > k {
        AtInjective(head, s, k, i + 1);
        assert old(Linked(At(head, s, i + 1), At(head, s, i + 2)));
      }
    }
  }

  /** list_del: element k leaves and is poisoned. */
  method ListDel(x: Node, ghost head: Node, ghost s: seq<Node>, ghost k: nat)
    requires IsList(head, s) && k < |s| && x == s[k]
    modifies x, At(head, s, k), At(head, s, k + 2)
    ensures IsList(head, Without(s, k)) && x.next == null && x.prev == null
  {
    assert Linked(At(head, s, k), At(head, s, k + 1)) && Linked(At(head, s, k + 1), At(head, s, k + 2));
    Unlink(x.prev, x.next, head, s, k);
    NotLeft(head, s, k);
    x.next := null;
    x.prev := null;
  }

  lemma NotLeft(head: Node, s: seq<Node>, k: nat)
    requires Distinct(head, s) && k < |s|
    ensures s[k] !in Without(s, k) && s[k] != head
  {
  }

  /** list_move within one list: element k becomes the first. */
  method ListMove(x: Node, head: Node, ghost s: seq<Node>, ghost k: nat)
    requires IsList(head, s) && k < |s| && x == s[k]
    modifies x, head, At(head, s, 1), At(head, s, k), At(head, s, k + 2)
    ensures IsList(head, [x] + Without(s, k))
  {
    assert Linked(At(head, s, k), At(head, s, k + 1)) && Linked(At(head, s, k + 1), At(head, s, k + 2));
    Unlink(x.prev, x.next, head, s, k);
    NotLeft(head, s, k);
    ListAdd(x, head, Without(s, k));
  }

  /** list_move to another list. */
  method ListMoveTo(x: Node, ghost from: Node, ghost s: seq<Node>, ghost k: nat, head: Node, ghost t: seq<Node>)
    requires IsList(from, s) && k < |s| && x == s[k] && IsList(head, t)
    requires Apart(from, s, head, t)
    modifies x, At(from, s, k), At(from, s, k + 2), head, At(head, t, 1)
    ensures IsList(from, Without(s, k)) && IsList(head, [x] + t)
  {
    assert Linked(At(from, s, k), At(from, s, k + 1)) && Linked(At(from, s, k + 1), At(from, s, k + 2));
    ghost var p, n := At(from, s, k), At(from, s, k + 2);
    assert (p == from || p in s) && (n == from || n in s);
    assert p !in t && n !in t && p != head && n != head;
    Unlink(x.prev, x.next, from, s, k);
    assert IsList(head, t);
    NotLeft(from, s, k);
    ghost var f := At(head, t, 1);
    assert (f == head || f in t) && f !in s && f != from;
    assert f !in Without(s, k) && head !in Without(s, k);
    ListAdd(x, head, t);
  }

  /** Two lists share no node. */
  ghost predicate Apart(head: Node, s: seq<Node>, other: Node, t: seq<Node>) {
    head != other && head !in t && other !in s && forall x :: x in s ==> x !in t
  }

  /** list_empty */
  method ListEmpty(head: Node, ghost s: seq<Node>) returns (empty: bool)
    requires IsList(head, s)
    ensures empty == (s == [])
  {
    assert Linked(At(head, s, 0), At(head, s, 1));
    empty := head.next == head;
  }

  lemma JoinedAt(list: Node, s: seq<Node>, head: Node, t: seq<Node>, i: nat)
    requires s != [] && i <= |s| + |t| + 1
    ensures At(head, s + t, i) == if i == 0 then head else if i <= |s| then At(list, s, i) else At(head, t, i - |s|)
  {
  }

  lemma DistinctJoin(list: Node, s: seq<Node>, head: Node, t: seq<Node>)
    requires Distinct(list, s) && Distinct(head, t) && Apart(list, s, head, t)
    ensures Distinct(head, s + t)
  {
    forall i, j | 0 <= i < j < |s + t|
      ensures (s + t)[i] != (s + t)[j]
    {
      if i < |s| <= j { assert s[i] in s && t[j - |s|] in t; }
    }
  }

  /** __list_splice: the nodes of one list go in front of another; its own head is left behind. */
  method Splice(list: Node, ghost s: seq<Node>, head: Node, ghost t: seq<Node>)
    requires IsList(list, s) && s != [] && IsList(head, t) && Apart(list, s, head, t)
    modifies list, s, head, t
    ensures IsList(head, s + t)
  {
    assert Linked(At(list, s, 0), At(list, s, 1)) && Linked(At(list, s, |s|), At(list, s, |s| + 1));
    assert Linked(At(head, t, 0), At(head, t, 1));
    var first, last, at := list.next, list.prev, head.next;
    first.prev := head;
    head.next := first;
    last.next := at;
    at.prev := last;
    DistinctJoin(list, s, head, t);
    forall i | 0 <= i <= |s + t|
      ensures Linked(At(head, s + t, i), At(head, s + t, i + 1))
    {
      JoinedAt(list, s, head, t, i);
      JoinedAt(list, s, head, t, i + 1);
      if 0 < i < |s| {
        AtInjective(list, s, i, |s|);
        AtInjective(list, s, 1, i + 1);
        assert old(Linked(At(list, s, i), At(list, s, i + 1)));
      } else if i > |s| {
        AtInjective(head, t, 0, i - |s|);
        assert At(head, t, i - |s| + 1) != at;
        assert old(Linked(At(head, t, i - |s|), At(head, t, i - |s| + 1)));
      }
    }
  }

  /** list_splice_init */
  method ListSpliceInit(list: Node, ghost s: seq<Node>, head: Node, ghost t: seq<Node>)
    requires IsList(list, s) && IsList(head, t) && Apart(list, s, head, t)
    modifies list, s, head, t
    ensures IsList(head, s + t) && IsList(list, [])
  {
    var empty := ListEmpty(list, s);
    if empty {
      assert s + t == t;
    } else {
      Splice(list, s, head, t);
      InitListHead(list);
    }
  }

  // ---------- walking ----------

  /** The elements that are not in `gone`, in order. */
  function Kept(s: seq<Node>, gone: set<Node>): seq<Node> {
    if s == [] then [] else (if s[0] in gone then [] else [s[0]]) + Kept(s[1..], gone)
  }

  lemma {:induction false} KeptAppend(s: seq<Node>, t: seq<Node>, gone: set<Node>)
    ensures Kept(s + t, gone) == Kept(s, gone) + Kept(t, gone)
  {
    if s == [] {
      assert s + t == t;
    } else {
      KeptAppend(s[1..], t, gone);
      assert (s + t)[1..] == s[1..] + t && (s + t)[0] == s[0];
      var first := if s[0] in gone then [] else [s[0]];
      assert first + (Kept(s[1..], gone) + Kept(t, gone)) == (first + Kept(s[1..], gone)) + Kept(t, gone);
    }
  }

  /** One round of list_for_each_safe at pos, the first of what is left; the loop body deletes pos
      or leaves it. `left` is the list as far as it was left behind. */
  method Round(pos: Node, gone: bool, ghost head: Node, ghost left: seq<Node>, ghost rest: seq<Node>,
    ghost all: set<Node>)
    requires rest != [] && pos == rest[0] && IsList(head, left + rest)
    requires head in all && forall x :: x in left + rest ==> x in all
    modifies all
    ensures IsList(head, (if gone then left else left + [pos]) + rest[1..])
  {
    if gone {
      ghost var k := |left|;
      AtIn(head, left + rest, k);
      AtIn(head, left + rest, k + 2);
      assert (left + rest)[k] == pos;
      ListDel(pos, head, left + rest, k);
      assert Without(left + rest, |left|) == left + rest[1..];
    } else {
      assert (left + [pos]) + rest[1..] == left + rest;
    }
  }

  /** list_for_each_safe with a body that deletes the elements of `gone` while standing on them:
      every original element is visited exactly once, in order, and the others stay. */
  method ForEachSafe(head: Node, ghost s: seq<Node>, gone: set<Node>) returns (visited: seq<Node>)
    requires IsList(head, s)
    modifies head, s
    ensures visited == s && IsList(head, Kept(s, gone))
  {
    hide IsList, At, Kept;
    visited := [];
    FirstNext(head, s, 0);
    var pos: Node := head.next;
    ghost var i := 0;
    KeptStart(s, gone);
    while pos != head
      invariant 0 <= i <= |s| && visited == s[..i]
      invariant pos == (if i < |s| then s[i] else head) && head !in s
      invariant IsList(head, Kept(s[..i], gone) + s[i..])
      decreases |s| - i
    {
      ghost var left, rest := Kept(s[..i], gone), s[i..];
      KeptIn(s[..i], gone);
      FirstNext(head, left + rest, |left| + 1);
      var n := pos.next;
      assert forall x :: x in left + rest ==> x in s;
      Round(pos, pos in gone, head, left, rest, {head} + set x | x in s);
      KeptStep(s, i, gone);
      visited := visited + [pos];
      pos := n;
      i := i + 1;
    }
    assert s[..i] == s && s[i..] == [];
    assert Kept(s, gone) + [] == Kept(s, gone);
  }

  lemma KeptStart(s: seq<Node>, gone: set<Node>)
    ensures s[..0] == [] && Kept(s[..0], gone) + s[0..] == s
  {
  }

  lemma KeptStep(s: seq<Node>, i: nat, gone: set<Node>)
    requires i < |s|
    ensures s[..i + 1] == s[..i] + [s[i]] && s[i..][1..] == s[i + 1..]
    ensures Kept(s[..i + 1], gone) == if s[i] in gone then Kept(s[..i], gone) else Kept(s[..i], gone) + [s[i]]
  {
    assert s[..i + 1] == s[..i] + [s[i]];
    KeptAppend(s[..i], [s[i]], gone);
  }

  lemma {:induction false} KeptIn(s: seq<Node>, gone: set<Node>)
    ensures forall x :: x in Kept(s, gone) ==> x in s
  {
    if s != [] { KeptIn(s[1..], gone); }
  }

  lemma FirstNext(head: Node, s: seq<Node>, i: nat)
    requires IsList(head, s) && i <= |s|
    ensures head !in s && (if i == 0 then head else s[i - 1]).next == (if i < |s| then s[i] else head)
  {
    assert Linked(At(head, s, i), At(head, s, i + 1));
  }

  /** What is kept: exactly the elements that are not gone, */
  lemma {:induction false} KeptMeans(s: seq<Node>, gone: set<Node>, x: Node)
    ensures x in Kept(s, gone) <==> x in s && x !in gone
  {
    if s != [] { KeptMeans(s[1..], gone, x); }
  }

  /** and of two of them the one that stood first stands first. */
  lemma {:induction false} KeptOrder(s: seq<Node>, gone: set<Node>, i: nat, j: nat) returns (p: nat, q: nat)
    requires i < j < |Kept(s, gone)|
    ensures p < q < |s| && s[p] == Kept(s, gone)[i] && s[q] == Kept(s, gone)[j]
  {
    var rest := Kept(s[1..], gone);
    if s[0] in gone {
      p, q := KeptOrder(s[1..], gone, i, j);
      p, q := p + 1, q + 1;
    } else if i > 0 {
      p, q := KeptOrder(s[1..], gone, i - 1, j - 1);
      p, q := p + 1, q + 1;
    } else {
      assert Kept(s, gone)[j] == rest[j - 1] && rest[j - 1] in rest;
      KeptMeans(s[1..], gone, rest[j - 1]);
      var m :| 0 <= m < |s[1..]| && s[1..][m] == rest[j - 1];
      p, q := 0, m + 1;
    }
  }
}
