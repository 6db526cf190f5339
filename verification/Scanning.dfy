/** The loop of tchdbiternext over the bytes of the file (lib/libdict/tchdb.c:557-583), from wherever
    the iterator stands, and what it finds from a place that can be read from. */
module Scanning {
  import opened Options
  import opened KeyOrder
  import opened Tiles
  import opened Layout
  import opened FreePool
  import opened Allocator
  import opened Iteration
  import opened RecordCodec
  import opened Leading
  import opened PutSteps

  /** The loop comes to an end: it would go on for ever at a free block of size 0. */
  predicate Halts(image: Bytes, p: nat)
    decreases if p < |image| then |image| - p else 0
  {
    p >= |image| ||
    match DecodeTile(image[p..])
    case Bad => true
    case Good(t) => t.Rec? || (t.rsiz > 0 && Halts(image, p + t.rsiz))
  }

  /** The key it returns, if any, and where the iterator stands afterwards. */
  function NextKey(image: Bytes, p: nat): (Option<Bytes>, nat)
    requires Halts(image, p)
    decreases if p < |image| then |image| - p else 0
  {
    if p >= |image| then (None, p)
    else
      match DecodeTile(image[p..])
      case Bad => (None, p)
      case Good(t) => if t.Rec? then (Some(t.key), p + Size(t)) else NextKey(image, p + t.rsiz)
  }

  lemma HaltsAtFree(image: Bytes, p: nat, n: nat)
    requires p < |image| && DecodeTile(image[p..]) == Good(Free(n)) && n > 0
    ensures Halts(image, p) <==> Halts(image, p + n)
    ensures Halts(image, p) ==> NextKey(image, p) == NextKey(image, p + n)
  {
    hide DecodeTile;
  }

  lemma HaltsAtRecord(image: Bytes, p: nat, t: Tile)
    requires p < |image| && DecodeTile(image[p..]) == Good(t) && t.Rec?
    ensures Halts(image, p) && NextKey(image, p) == (Some(t.key), p + Size(t))
  {
    hide DecodeTile, Size;
  }

  /** What the loop finds is the first of the keys from p on, or nothing when there is none. */
  ghost predicate FindsNext(image: Bytes, disk: Disk, frec: nat, fsiz: nat, p: nat)
    requires Tiling(disk, frec, fsiz)
  {
    && Halts(image, p)
    && match NextKey(image, p)
       case (None, q) => q == fsiz && KeysFrom(disk, frec, fsiz, p) == []
       case (Some(k), q) =>
         && KeysFrom(disk, frec, fsiz, p) == [k] + KeysFrom(disk, frec, fsiz, q)
         && p < q && (q in disk || q == fsiz) && JustBefore(disk, q, k)
  }

  /** From every place that can be read from the loop ends and finds what is to come. */
  lemma {:induction false} ReadableFinds(image: Bytes, file: File, disk: Disk, frec: nat, fsiz: nat, p: nat)
    requires Tiling(disk, frec, fsiz) && OnFile(file, disk, 0) && Imaged(image, file) && |image| == fsiz
    requires CanRead(Shot(file, disk, fsiz), p)
    ensures FindsNext(image, disk, frec, fsiz, p)
    decreases if p < fsiz then fsiz - p else 0
  {
    hide Tiling, OnFile, Imaged, DecodeTile, Leads, Size, Halts, NextKey, KeysFrom, Aligned, FindsNext, JustBefore;
    if p == fsiz {
      AtTheEnd(image, disk, frec, fsiz);
    } else if p in disk {
      NextTile(disk, frec, fsiz, p);
      ShownThere(image, file, disk, frec, fsiz, p);
      if disk[p].Rec? {
        FindsHere(image, disk, frec, fsiz, p);
      } else {
        FreeSize(disk[p]);
        ReadableFinds(image, file, disk, frec, fsiz, p + disk[p].rsiz);
        SameKeys(disk, frec, fsiz, p);
        FindsBehind(image, disk, frec, fsiz, p, disk[p].rsiz);
      }
    } else {
      var o: nat :| InFree(disk, o, p) && Leads(file, p, o + disk[o].rsiz);
      var n := LeadsStep(file, disk, frec, fsiz, o, p);
      ShownFree(image, file, p, n);
      ReadableFinds(image, file, disk, frec, fsiz, p + n);
      KeysInside(disk, frec, fsiz, o, p, p + n);
      NextTile(disk, frec, fsiz, o);
      FindsBehind(image, disk, frec, fsiz, p, n);
    }
  }

  /** One header on the way leads on inside the free tile or to its end. */
  lemma LeadsStep(file: File, disk: Disk, frec: nat, fsiz: nat, o: nat, p: nat) returns (n: nat)
    requires Tiling(disk, frec, fsiz) && InFree(disk, o, p) && Leads(file, p, o + disk[o].rsiz) && Aligned(p)
    ensures n > 0 && p in file && file[p] == Free(n) && p + n <= o + disk[o].rsiz && Size(disk[o]) == disk[o].rsiz
    ensures CanRead(Shot(file, disk, fsiz), p + n)
  {
    hide Tiling;
    n := file[p].rsiz;
    FreeSize(disk[o]);
    NextTile(disk, frec, fsiz, o);
    LeadsUp(file, p + n, o + disk[o].rsiz);
    if p + n < o + disk[o].rsiz { assert InFree(disk, o, p + n); }
  }

  lemma ShownThere(image: Bytes, file: File, disk: Disk, frec: nat, fsiz: nat, p: nat)
    requires Tiling(disk, frec, fsiz) && OnFile(file, disk, 0) && Imaged(image, file) && p in disk
    ensures p <= |image| && DecodeTile(image[p..]) == Good(disk[p])
  {
    hide Tiling, DecodeTile;
    NoZero(disk, frec, fsiz);
    assert Shows(image, p, file[p]);
    ReadShown(image, p, file[p]);
  }

  lemma ShownFree(image: Bytes, file: File, p: nat, n: nat)
    requires Imaged(image, file) && p in file && file[p] == Free(n)
    ensures p < |image| && DecodeTile(image[p..]) == Good(Free(n))
  {
    hide DecodeTile;
    assert Shows(image, p, file[p]);
    ReadShown(image, p, file[p]);
  }

  lemma AtTheEnd(image: Bytes, disk: Disk, frec: nat, fsiz: nat)
    requires Tiling(disk, frec, fsiz) && |image| == fsiz
    ensures FindsNext(image, disk, frec, fsiz, fsiz)
  {
    hide Tiling, DecodeTile;
  }

  lemma SameKeys(disk: Disk, frec: nat, fsiz: nat, p: nat)
    requires Tiling(disk, frec, fsiz) && p in disk && disk[p].Free?
    ensures KeysFrom(disk, frec, fsiz, p) == KeysFrom(disk, frec, fsiz, p + disk[p].rsiz)
  {
    hide Tiling;
    NextTile(disk, frec, fsiz, p);
  }

  lemma FindsHere(image: Bytes, disk: Disk, frec: nat, fsiz: nat, p: nat)
    requires Tiling(disk, frec, fsiz) && p in disk && disk[p].Rec? && |image| == fsiz && p <= |image|
    requires DecodeTile(image[p..]) == Good(disk[p])
    ensures FindsNext(image, disk, frec, fsiz, p)
  {
    hide Tiling, DecodeTile, Size;
    NextTile(disk, frec, fsiz, p);
    HaltsAtRecord(image, p, disk[p]);
    assert StandsOnKey(disk, p, disk[p].key);
  }

  lemma FindsBehind(image: Bytes, disk: Disk, frec: nat, fsiz: nat, p: nat, n: nat)
    requires Tiling(disk, frec, fsiz) && |image| == fsiz && FindsNext(image, disk, frec, fsiz, p + n)
    requires p < |image| && DecodeTile(image[p..]) == Good(Free(n)) && n > 0
    requires KeysFrom(disk, frec, fsiz, p) == KeysFrom(disk, frec, fsiz, p + n)
    ensures FindsNext(image, disk, frec, fsiz, p)
  {
    hide Tiling, DecodeTile, KeysFrom, JustBefore, Halts, NextKey;
    HaltsAtFree(image, p, n);
  }
}
