/** The geometry of the record region: a layout maps each tile's start to its size, and a good
    layout covers the region from frec to fsiz without gap or overlap. */
module Layout {
  import opened Tiles

  type Layout = map<nat, nat>

  /** A place where a tile starts or the region ends. */
  predicate Boundary(layout: Layout, fsiz: nat, p: nat) {
    p in layout || p == fsiz
  }

  predicate Aligned(n: nat) { n % ALIGN == 0 }

  /** The tile at o is followed directly by another one or by the end of the region. */
  predicate Chained(layout: Layout, fsiz: nat, o: nat) {
    o in layout ==> Boundary(layout, fsiz, o + layout[o])
  }

  predicate AlignedTile(layout: Layout, o: nat) {
    o in layout ==> Aligned(o) && Aligned(layout[o])
  }

  ghost predicate Inside(layout: Layout, frec: nat, fsiz: nat) {
    forall o :: o in layout ==> frec <= o < o + layout[o] <= fsiz
  }

  ghost predicate Disjoint(layout: Layout) {
    forall o, p :: o in layout && p in layout && o < p ==> o + layout[o] <= p
  }

  ghost predicate AllChained(layout: Layout, frec: nat, fsiz: nat) {
    && Boundary(layout, fsiz, frec)
    && forall o: nat {:trigger Chained(layout, fsiz, o)} :: Chained(layout, fsiz, o)
  }

  ghost predicate AllAligned(layout: Layout, frec: nat, fsiz: nat) {
    && Aligned(frec) && Aligned(fsiz)
    && forall o: nat {:trigger AlignedTile(layout, o)} :: AlignedTile(layout, o)
  }

  ghost predicate GoodLayout(layout: Layout, frec: nat, fsiz: nat) {
    && 0 < frec <= fsiz
    && Inside(layout, frec, fsiz)
    && Disjoint(layout)
    && AllChained(layout, frec, fsiz)
    && AllAligned(layout, frec, fsiz)
  }

  /** The layout in which the tiles from off up to end become one tile of size n followed, when
      room is left, by a second one. */
  function Carve(layout: Layout, off: nat, end: nat, n: nat): Layout
    requires off < end
  {
    var outside := map o | o in layout && !(off <= o < end) :: layout[o];
    if off + n < end then outside[off := n][off + n := end - off - n] else outside[off := end - off]
  }

  /** A carved layout has the tiles outside and the two new ones. */
  lemma CarveTile(layout: Layout, off: nat, end: nat, n: nat, o: nat)
    requires off < end && o in Carve(layout, off, end, n)
    ensures var size := Carve(layout, off, end, n)[o];
      || (o == off && size == if off + n < end then n else end - off)
      || (o == off + n < end && size == end - off - n)
      || (o in layout && !(off <= o < end) && size == layout[o])
  {
  }

  lemma CarveParts(layout: Layout, off: nat, end: nat, n: nat)
    requires off < end
    ensures off + n < end ==> off + n in Carve(layout, off, end, n)
  {
  }

  lemma CarveInside(layout: Layout, frec: nat, fsiz: nat, off: nat, end: nat, n: nat)
    requires Inside(layout, frec, fsiz) && Disjoint(layout)
    requires off in layout && off < end && Boundary(layout, fsiz, end) && 0 < n
    ensures Inside(Carve(layout, off, end, n), frec, fsiz)
    ensures Disjoint(Carve(layout, off, end, n))
  {
    hide Carve;
    var after := Carve(layout, off, end, n);
    forall o | o in after
      ensures frec <= o < o + after[o] <= fsiz
    {
      CarveTile(layout, off, end, n, o);
    }
    forall o, p | o in after && p in after && o < p
      ensures o + after[o] <= p
    {
      CarveTile(layout, off, end, n, o);
      CarveTile(layout, off, end, n, p);
    }
  }

  lemma CarveBoundary(layout: Layout, fsiz: nat, off: nat, end: nat, n: nat, p: nat)
    requires off in layout && off < end && Boundary(layout, fsiz, p) && !(off < p < end)
    ensures Boundary(Carve(layout, off, end, n), fsiz, p)
  {
  }

  lemma CarveChain(layout: Layout, frec: nat, fsiz: nat, off: nat, end: nat, n: nat, o: nat)
    requires Inside(layout, frec, fsiz) && Disjoint(layout) && Chained(layout, fsiz, o)
    requires off in layout && off < end && Boundary(layout, fsiz, end) && 0 < n
    ensures Chained(Carve(layout, off, end, n), fsiz, o)
  {
    hide Carve;
    var after := Carve(layout, off, end, n);
    CarveBoundary(layout, fsiz, off, end, n, end);
    CarveParts(layout, off, end, n);
    if o in after {
      CarveTile(layout, off, end, n, o);
      if o in layout && !(off <= o < end) {
        CarveBoundary(layout, fsiz, off, end, n, o + layout[o]);
      }
    }
  }

  lemma CarveChained(layout: Layout, frec: nat, fsiz: nat, off: nat, end: nat, n: nat)
    requires Inside(layout, frec, fsiz) && Disjoint(layout) && AllChained(layout, frec, fsiz)
    requires off in layout && off < end && Boundary(layout, fsiz, end) && 0 < n
    ensures AllChained(Carve(layout, off, end, n), frec, fsiz)
  {
    hide Carve, Inside, Disjoint, Boundary;
    var after := Carve(layout, off, end, n);
    FrecOutside(layout, frec, fsiz, off);
    CarveBoundary(layout, fsiz, off, end, n, frec);
    forall o: nat
      ensures Chained(after, fsiz, o)
    {
      assert Chained(layout, fsiz, o);
      CarveChain(layout, frec, fsiz, off, end, n, o);
    }
  }

  lemma FrecOutside(layout: Layout, frec: nat, fsiz: nat, off: nat)
    requires Inside(layout, frec, fsiz) && off in layout
    ensures frec <= off
  {
  }

  lemma CarveAligned(layout: Layout, frec: nat, fsiz: nat, off: nat, end: nat, n: nat)
    requires AllAligned(layout, frec, fsiz)
    requires off in layout && off < end && Boundary(layout, fsiz, end) && Aligned(n)
    ensures AllAligned(Carve(layout, off, end, n), frec, fsiz)
  {
    var after := Carve(layout, off, end, n);
    assert AlignedTile(layout, off) && AlignedTile(layout, end);
    forall o: nat
      ensures AlignedTile(after, o)
    {
      assert AlignedTile(layout, o);
    }
  }

  lemma CarveIsGood(layout: Layout, frec: nat, fsiz: nat, off: nat, end: nat, n: nat)
    requires GoodLayout(layout, frec, fsiz)
    requires off in layout && off < end && Boundary(layout, fsiz, end)
    requires 0 < n && Aligned(n)
    ensures GoodLayout(Carve(layout, off, end, n), frec, fsiz)
  {
    CarveInside(layout, frec, fsiz, off, end, n);
    CarveChained(layout, frec, fsiz, off, end, n);
    CarveAligned(layout, frec, fsiz, off, end, n);
  }

  /** Appending a tile at the end of the region. */
  lemma AppendIsGood(layout: Layout, frec: nat, fsiz: nat, n: nat)
    requires GoodLayout(layout, frec, fsiz)
    requires 0 < n && Aligned(n)
    ensures fsiz !in layout
    ensures GoodLayout(layout[fsiz := n], frec, fsiz + n)
  {
    var after, end := layout[fsiz := n], fsiz + n;
    assert Inside(after, frec, end) && Disjoint(after);
    forall o: nat
      ensures Chained(after, end, o)
    {
      assert Chained(layout, fsiz, o);
    }
    forall o: nat
      ensures AlignedTile(after, o)
    {
      assert AlignedTile(layout, o);
    }
  }

  /** Every byte of the region lies in exactly one tile: what tiling means. */
  lemma {:induction false} TileAt(layout: Layout, frec: nat, fsiz: nat, from: nat, x: nat) returns (o: nat)
    requires GoodLayout(layout, frec, fsiz)
    requires from in layout && from <= x < fsiz
    ensures o in layout && o <= x < o + layout[o]
    ensures forall p :: p in layout && p <= x < p + layout[p] ==> p == o
    decreases fsiz - from
  {
    assert Chained(layout, fsiz, from);
    if x < from + layout[from] {
      o := from;
    } else {
      o := TileAt(layout, frec, fsiz, from + layout[from], x);
    }
  }
}
