/** Where a put places its record, as a function of the tiles and the pool before it
    (lib/libdict/tchdb.c:1331-1375, 1443-1557, 1564-1584). */
module Placement {
  import opened Tiles
  import opened FreePool

  /** The entry tchdbfbpsearch uses: the first larger than rsiz, or the length. */
  function FirstLarger(s: seq<Block>, rsiz: nat): (i: nat)
    ensures i <= |s| && (i < |s| ==> s[i].rsiz > rsiz)
    ensures forall j :: 0 <= j < i ==> s[j].rsiz <= rsiz
  {
    if s == [] || s[0].rsiz > rsiz then 0 else 1 + FirstLarger(s[1..], rsiz)
  }

  lemma FirstIs(s: seq<Block>, rsiz: nat, i: nat)
    requires i <= |s| && (i < |s| ==> s[i].rsiz > rsiz) && forall j :: 0 <= j < i ==> s[j].rsiz <= rsiz
    ensures FirstLarger(s, rsiz) == i
  {
  }

  /** How much of it is handed out. */
  function Handed(b: Block, rsiz: nat): nat {
    if b.rsiz > 2 * rsiz then rsiz + PadSize(b.off + rsiz) else b.rsiz
  }

  lemma HandedFits(b: Block, rsiz: nat)
    requires 15 <= rsiz < b.rsiz
    ensures rsiz <= Handed(b, rsiz) <= b.rsiz
  {
  }

  /** The entry tchdbfbpsplice uses: the first behind the tile that makes it large enough. */
  function SpliceAt(s: seq<Block>, off: nat, rsiz: nat, need: nat): (i: nat)
    ensures i <= |s| && (i < |s| ==> s[i].off == off + rsiz && rsiz + s[i].rsiz >= need)
    ensures forall j :: 0 <= j < i ==> !(s[j].off == off + rsiz && rsiz + s[j].rsiz >= need)
  {
    if s == [] || (s[0].off == off + rsiz && rsiz + s[0].rsiz >= need) then 0
    else 1 + SpliceAt(s[1..], off, rsiz, need)
  }

  lemma SpliceIs(s: seq<Block>, off: nat, rsiz: nat, need: nat, i: nat)
    requires i <= |s| && (i < |s| ==> s[i].off == off + rsiz && rsiz + s[i].rsiz >= need)
    requires forall j :: 0 <= j < i ==> !(s[j].off == off + rsiz && rsiz + s[j].rsiz >= need)
    ensures SpliceAt(s, off, rsiz, need) == i
  {
  }

  /** What a record of `need` bytes takes of `size` bytes at off: all of it, unless the padding would
      not fit 16 bits. */
  function Taken(off: nat, size: nat, need: nat): (n: nat)
    ensures n <= size && (need <= size ==> need <= n)
  {
    if size - need > MAX_PADDING then need + PadSize(off + need) else size
  }

  /** Where a new record goes that asks for rsiz bytes and takes `need`: an entry, or the end. */
  function Settled(fsiz: nat, s: seq<Block>, rsiz: nat, need: nat): Block {
    var i := FirstLarger(s, rsiz);
    if i == |s| then Block(fsiz, need + PadSize(fsiz + need))
    else Block(s[i].off, Taken(s[i].off, Handed(s[i], rsiz), need))
  }

  /** What that means: when no entry is larger than asked, the end of the file, rounded up, */
  lemma SettledAtEnd(fsiz: nat, s: seq<Block>, rsiz: nat, need: nat)
    requires forall i :: 0 <= i < |s| ==> s[i].rsiz <= rsiz
    ensures var b := Settled(fsiz, s, rsiz, need);
      b.off == fsiz && need <= b.rsiz < need + 16 && (fsiz + b.rsiz) % 16 == 0
  {
    FirstIs(s, rsiz, |s|);
    hide FirstLarger;
    assert (fsiz + need) + PadSize(fsiz + need) == fsiz + (need + PadSize(fsiz + need));
  }

  /** else the first that is: all of it, or its front, rounded up, when it is more than twice as large or
      would leave padding beyond 16 bits. */
  lemma SettledInEntry(fsiz: nat, s: seq<Block>, rsiz: nat, need: nat, i: nat)
    requires 15 <= rsiz && need <= rsiz
    requires i < |s| && s[i].rsiz > rsiz && forall j :: 0 <= j < i ==> s[j].rsiz <= rsiz
    ensures var b := Settled(fsiz, s, rsiz, need);
      && b.off == s[i].off && need <= b.rsiz <= s[i].rsiz && b.rsiz <= need + 65535
      && (b.rsiz == s[i].rsiz || (s[i].off + b.rsiz) % 16 == 0)
      && (s[i].rsiz > 2 * rsiz ==> b.rsiz < rsiz + 16)
      && (s[i].rsiz <= 2 * rsiz && s[i].rsiz <= need + 65535 ==> b.rsiz == s[i].rsiz)
  {
    FirstIs(s, rsiz, i);
    HandedFits(s[i], rsiz);
    HandedMeans(s[i], rsiz);
    TakenMeans(s[i].off, Handed(s[i], rsiz), need);
    hide Handed, Taken, PadSize, FirstLarger;
  }

  lemma HandedMeans(b: Block, rsiz: nat)
    ensures b.rsiz <= 2 * rsiz ==> Handed(b, rsiz) == b.rsiz
    ensures b.rsiz > 2 * rsiz ==> rsiz <= Handed(b, rsiz) < rsiz + 16 && (b.off + Handed(b, rsiz)) % 16 == 0
  {
    assert (b.off + rsiz) + PadSize(b.off + rsiz) == b.off + (rsiz + PadSize(b.off + rsiz));
  }

  lemma TakenMeans(off: nat, size: nat, need: nat)
    requires need <= size
    ensures size - need <= 65535 ==> Taken(off, size, need) == size
    ensures size - need > 65535 ==>
      need <= Taken(off, size, need) < need + 16 && (off + Taken(off, size, need)) % 16 == 0
  {
  }

  /** Where a record goes that replaces the one of `size` bytes at off. The pool is s, and `searched`
      when the old tile has been given up for another place. */
  function Rewritten(fsiz: nat, s: seq<Block>, searched: seq<Block>, off: nat, size: nat, need: nat): Block {
    var j := SpliceAt(s, off, size, need);
    if need <= size then Block(off, Taken(off, size, need))
    else if j < |s| then Block(off, Taken(off, size + s[j].rsiz, need))
    else Settled(fsiz, searched, need, need)
  }

  /** Where the iterator stands after that: behind a spliced entry it stood at. */
  function IterAfter(s: seq<Block>, off: nat, size: nat, need: nat, iter: nat): nat {
    var j := SpliceAt(s, off, size, need);
    if need > size && j < |s| && iter == off + size then iter + s[j].rsiz else iter
  }

  /** Place p is strictly inside b. */
  predicate Covers(b: Block, p: nat) { b.off < p < EndOf(b) }

  /** An entry too small for the search does not change what it finds. */
  lemma SmallEntry(fsiz: nat, s: seq<Block>, b: Block, rsiz: nat, need: nat)
    requires b.rsiz <= rsiz
    ensures Settled(fsiz, s + [b], rsiz, need) == Settled(fsiz, s, rsiz, need)
  {
    hide FirstLarger, PadSize, Taken, Handed;
    var t, i := s + [b], FirstLarger(s, rsiz);
    forall j | 0 <= j < i
      ensures t[j].rsiz <= rsiz
    {
      assert t[j] == s[j];
    }
    if i < |s| {
      assert t[i] == s[i];
      FirstIs(t, rsiz, i);
    } else {
      FirstIs(t, rsiz, |t|);
    }
  }
}
