/** Which places an iterator can read from (lib/libdict/tchdb.c:557-583). A put may take the tile
    boundary at which an iterator stands out of the tiling, and still the headers of free blocks that
    once stood there lead on to the next boundary, as long as no record is written over them. */
module Leading {
  import opened Tiles
  import opened Layout
  import opened FreePool
  import opened Allocator
  import opened Iteration

  /** The headers of free blocks on file lead from p to end. */
  ghost predicate Leads(file: File, p: nat, end: nat)
    decreases if p < end then end - p else 0
  {
    || p == end
    || (p < end && p in file && file[p].Free? && file[p].rsiz > 0 && Aligned(file[p].rsiz)
        && Leads(file, p + file[p].rsiz, end))
  }

  /** Place p is strictly inside the free tile at o. */
  predicate InFree(disk: Disk, o: nat, p: nat) { o in disk && disk[o].Free? && o < p < o + disk[o].rsiz }

  /** The tiling, what the bytes of the file show, and where the file ends. */
  datatype Shot = Shot(file: File, disk: Disk, fsiz: nat)

  /** An iterator at p stands at a tile, at the end, or at stale headers that lead to the end of the
      free tile it is in. */
  ghost predicate CanRead(a: Shot, p: nat) {
    || p in a.disk || p == a.fsiz
    || (Aligned(p) && exists o: nat :: InFree(a.disk, o, p) && Leads(a.file, p, o + a.disk[o].rsiz))
  }

  /** Every place that could be read from still can, unless it is strictly between lo and hi. */
  ghost predicate Keeps(a: Shot, b: Shot, lo: nat, hi: nat) {
    forall p: nat :: CanRead(a, p) && !(lo < p < hi) ==> CanRead(b, p)
  }

  lemma KeepsTrans(a: Shot, b: Shot, c: Shot, lo: nat, hi: nat)
    requires Keeps(a, b, lo, hi) && Keeps(b, c, lo, hi)
    ensures Keeps(a, c, lo, hi)
  {
    hide CanRead;
  }

  lemma KeepsWider(a: Shot, b: Shot, lo: nat, hi: nat, lo': nat, hi': nat)
    requires Keeps(a, b, lo, hi) && (lo < hi ==> lo' <= lo && hi <= hi')
    ensures Keeps(a, b, lo', hi')
  {
    hide CanRead;
  }

  lemma NothingChanges(a: Shot)
    ensures Keeps(a, a, 0, 0)
  {
    hide CanRead;
  }

  // ---------- following headers ----------

  lemma {:induction false} LeadsOn(file: File, p: nat, m: nat, end: nat)
    requires Leads(file, p, m) && Leads(file, m, end)
    ensures Leads(file, p, end) && p <= m <= end
    decreases if p < m then m - p else 0
  {
    LeadsUp(file, m, end);
    if p != m {
      LeadsOn(file, p + file[p].rsiz, m, end);
    }
  }

  lemma {:induction false} LeadsUp(file: File, p: nat, end: nat)
    requires Leads(file, p, end)
    ensures p <= end
  {
  }

  /** A write that does not touch the bytes from p to end leaves the way from p to end. */
  lemma {:induction false} WriteKeepsLeads(file: File, off: nat, t: Tile, p: nat, end: nat)
    requires Leads(file, p, end) && (off + Extent(t) <= p || end <= off)
    ensures Leads(WriteTile(file, off, t), p, end)
    decreases if p < end then end - p else 0
  {
    if p != end {
      var n := file[p].rsiz;
      LeadsUp(file, p + n, end);
      WriteKeepsLeads(file, off, t, p + n, end);
      assert n >= ALIGN;
      assert p + Extent(file[p]) <= p + n;
      assert p in WriteTile(file, off, t) && WriteTile(file, off, t)[p] == file[p];
    }
  }

  /** A run of free tiles leads to its end. */
  lemma {:induction false} RunLeads(file: File, disk: Disk, frec: nat, fsiz: nat, pend: nat, b: Block, p: nat)
    requires Tiling(disk, frec, fsiz) && IsRun(disk, fsiz, pend, b) && OnFile(file, disk, pend)
    requires b.off <= p <= EndOf(b) && (p in disk || p == EndOf(b))
    ensures Leads(file, p, EndOf(b))
    decreases EndOf(b) - p
  {
    hide Tiling, Size;
    if p < EndOf(b) {
      NextTile(disk, frec, fsiz, p);
      TileAligned(disk, frec, fsiz, p);
      FreeSize(disk[p]);
      StaysInside(disk, frec, fsiz, p, EndOf(b));
      RunLeads(file, disk, frec, fsiz, pend, b, p + disk[p].rsiz);
    }
  }

  /** A tile in front of a boundary ends there or before. */
  lemma StaysInside(disk: Disk, frec: nat, fsiz: nat, p: nat, end: nat)
    requires Tiling(disk, frec, fsiz) && p in disk && p < end && (end in disk || end == fsiz)
    ensures p + Size(disk[p]) <= end && (p + Size(disk[p]) < end ==> p + Size(disk[p]) in disk)
  {
    hide Tiling, Size;
    NextTile(disk, frec, fsiz, p);
    if end in disk {
      NextTile(disk, frec, fsiz, end);
      TilesApart(disk, frec, fsiz, p, end);
    }
  }

  /** Every place in b that can be read from leads to the end of b. */
  ghost predicate AllLead(file: File, disk: Disk, fsiz: nat, b: Block) {
    forall p: nat :: CanRead(Shot(file, disk, fsiz), p) && b.off < p < EndOf(b) ==>
      Aligned(p) && Leads(file, p, EndOf(b))
  }

  lemma RunAllLead(file: File, disk: Disk, frec: nat, fsiz: nat, pend: nat, b: Block)
    requires Tiling(disk, frec, fsiz) && IsRun(disk, fsiz, pend, b) && OnFile(file, disk, pend)
    ensures AllLead(file, disk, fsiz, b)
  {
    hide Tiling, Size, Leads, OnFile, Aligned;
    RunAligned(disk, frec, fsiz, pend, b);
    forall p: nat | CanRead(Shot(file, disk, fsiz), p) && b.off < p < EndOf(b)
      ensures Aligned(p) && Leads(file, p, EndOf(b))
    {
      if p in disk {
        TileAligned(disk, frec, fsiz, p);
        RunLeads(file, disk, frec, fsiz, pend, b, p);
      } else {
        var o: nat :| InFree(disk, o, p) && Leads(file, p, o + disk[o].rsiz);
        FreeSize(disk[o]);
        InsideRun(disk, frec, fsiz, pend, b, o, p);
        RunLeads(file, disk, frec, fsiz, pend, b, o + disk[o].rsiz);
        LeadsOn(file, p, o + disk[o].rsiz, EndOf(b));
      }
    }
  }

  /** A tile that has a place of a run inside is one of the run's. */
  lemma InsideRun(disk: Disk, frec: nat, fsiz: nat, pend: nat, b: Block, o: nat, p: nat)
    requires Tiling(disk, frec, fsiz) && IsRun(disk, fsiz, pend, b)
    requires o in disk && o < p < o + Size(disk[o]) && b.off < p < EndOf(b)
    ensures b.off <= o && o + Size(disk[o]) <= EndOf(b) && (o + Size(disk[o]) in disk || o + Size(disk[o]) == EndOf(b))
  {
    hide Tiling, Size;
    StaysInside(disk, frec, fsiz, o, EndOf(b));
    if o < b.off { TilesApart(disk, frec, fsiz, o, b.off); }
  }

  // ---------- what the steps of the store keep ----------

  ghost predicate NoneAcross(disk: Disk, p: nat) { forall o :: o in disk && o < p ==> o + Size(disk[o]) <= p }

  lemma BoundaryOk(disk: Disk, frec: nat, fsiz: nat, p: nat)
    requires Tiling(disk, frec, fsiz) && (p in disk || p == fsiz)
    ensures NoneAcross(disk, p)
  {
    hide Tiling, Size;
    forall o | o in disk && o < p
      ensures o + Size(disk[o]) <= p
    {
      StaysInside(disk, frec, fsiz, o, p);
    }
  }

  /** The tiles of b become one and, if room is left, another: only places inside the first of two
      are given up. */
  lemma CarveKeeps(file: File, disk: Disk, fsiz: nat, b: Block, n: nat)
    requires AllLead(file, disk, fsiz, b) && b.off in disk && 0 < n <= b.rsiz && EndOf(b) <= fsiz
    requires NoneAcross(disk, b.off) && NoneAcross(disk, EndOf(b))
    ensures Keeps(Shot(file, disk, fsiz), Shot(file, CarveDisk(disk, b.off, EndOf(b), n), fsiz),
                  b.off, if n < b.rsiz then b.off + n else b.off)
  {
    hide Leads, Aligned;
    var after := CarveDisk(disk, b.off, EndOf(b), n);
    var hi := if n < b.rsiz then b.off + n else b.off;
    forall p: nat | CanRead(Shot(file, disk, fsiz), p) && !(b.off < p < hi)
      ensures CanRead(Shot(file, after, fsiz), p)
    {
      if b.off < p < EndOf(b) {
        if n == b.rsiz {
          assert InFree(after, b.off, p);
        } else if p > b.off + n {
          assert InFree(after, b.off + n, p);
        }
      } else if p !in disk && p != fsiz {
        var o: nat :| InFree(disk, o, p) && Leads(file, p, o + disk[o].rsiz);
        FreeSize(disk[o]);
        assert o < b.off || o >= EndOf(b);
        assert InFree(after, o, p);
      }
    }
  }

  /** Writing the bytes of one tile of the tiling. */
  lemma WriteKeeps(file: File, disk: Disk, frec: nat, fsiz: nat, d: nat)
    requires Tiling(disk, frec, fsiz) && d in disk
    ensures Keeps(Shot(file, disk, fsiz), Shot(WriteTile(file, d, disk[d]), disk, fsiz), 0, 0)
  {
    hide Tiling, Size, Leads, WriteTile;
    ExtentFits(disk, frec, fsiz, d);
    TileAligned(disk, frec, fsiz, d);
    forall p: nat | CanRead(Shot(file, disk, fsiz), p)
      ensures CanRead(Shot(WriteTile(file, d, disk[d]), disk, fsiz), p)
    {
      if p !in disk && p != fsiz {
        var o: nat :| InFree(disk, o, p) && Leads(file, p, o + disk[o].rsiz);
        FreeSize(disk[o]);
        if d != o { TilesApart(disk, frec, fsiz, d, o); }
        WriteKeepsLeads(file, d, disk[d], p, o + disk[o].rsiz);
      }
    }
  }

  /** A free tile is filled, or a record is made free: places inside a filled one are given up. */
  lemma FillKeeps(file: File, disk: Disk, fsiz: nat, off: nat, t: Tile)
    requires off in disk
    ensures Keeps(Shot(file, disk, fsiz), Shot(file, disk[off := t], fsiz), off, off + Size(disk[off]))
  {
    hide Leads, Aligned;
    forall p: nat | CanRead(Shot(file, disk, fsiz), p) && !(off < p < off + Size(disk[off]))
      ensures CanRead(Shot(file, disk[off := t], fsiz), p)
    {
      if p !in disk && p != fsiz {
        var o: nat :| InFree(disk, o, p) && Leads(file, p, o + disk[o].rsiz);
        assert InFree(disk[off := t], o, p);
      }
    }
  }

  lemma FreedKeeps(file: File, disk: Disk, fsiz: nat, off: nat, n: nat)
    requires off in disk && disk[off].Rec?
    ensures Keeps(Shot(file, disk, fsiz), Shot(file, disk[off := Free(n)], fsiz), 0, 0)
  {
    hide Leads, Aligned;
    forall p: nat | CanRead(Shot(file, disk, fsiz), p)
      ensures CanRead(Shot(file, disk[off := Free(n)], fsiz), p)
    {
      if p !in disk && p != fsiz {
        var o: nat :| InFree(disk, o, p) && Leads(file, p, o + disk[o].rsiz);
        assert InFree(disk[off := Free(n)], o, p);
      }
    }
  }

  lemma AppendKeeps(file: File, disk: Disk, fsiz: nat, t: Tile, fsiz': nat)
    requires fsiz !in disk
    ensures Keeps(Shot(file, disk, fsiz), Shot(file, disk[fsiz := t], fsiz'), 0, 0)
  {
    hide Leads, Aligned;
    forall p: nat | CanRead(Shot(file, disk, fsiz), p)
      ensures CanRead(Shot(file, disk[fsiz := t], fsiz'), p)
    {
      if p !in disk && p != fsiz {
        var o: nat :| InFree(disk, o, p) && Leads(file, p, o + disk[o].rsiz);
        assert InFree(disk[fsiz := t], o, p);
      }
    }
  }

  /** A record is rewritten where it is. */
  lemma RecordKeeps(file: File, disk: Disk, fsiz: nat, off: nat, t: Tile)
    requires off in disk && disk[off].Rec? && t.Rec?
    ensures Keeps(Shot(file, disk, fsiz), Shot(file, disk[off := t], fsiz), 0, 0)
  {
    hide Leads, Aligned;
    forall p: nat | CanRead(Shot(file, disk, fsiz), p)
      ensures CanRead(Shot(file, disk[off := t], fsiz), p)
    {
      if p !in disk && p != fsiz {
        var o: nat :| InFree(disk, o, p) && Leads(file, p, o + disk[o].rsiz);
        assert InFree(disk[off := t], o, p);
      }
    }
  }

  /** A place inside a record cannot be read from. */
  lemma InRecord(file: File, disk: Disk, frec: nat, fsiz: nat, o: nat, p: nat)
    requires Tiling(disk, frec, fsiz) && o in disk && disk[o].Rec? && o < p < o + Size(disk[o])
    ensures !CanRead(Shot(file, disk, fsiz), p)
  {
    hide Tiling, Size, Leads;
    NothingInside(disk, frec, fsiz, o, p);
    NextTile(disk, frec, fsiz, o);
    if q: nat :| InFree(disk, q, p) {
      FreeSize(disk[q]);
      TilesApart(disk, frec, fsiz, o, q);
    }
  }
}
