/** Saving the free block pool when the database is closed and loading it when it is opened
    (lib/libdict/tchdb.c:932-1000): offsets as differences to the one before, both numbers in
    units of the alignment, ended by a zero byte. */
module PoolCodec {
  import opened KeyOrder
  import opened Tiles
  import Varint

  const SLACK: int := 18 // sizeof(HDBFB) + 2 * sizeof(uint8_t)

  /** Entries that can be saved: aligned, in strictly ascending order of offset, inside the file. */
  ghost predicate Savable(s: seq<Block>, base: nat) {
    && (forall i :: 0 <= i < |s| ==> SavableBlock(s[i]) && base < s[i].off)
    && (forall i, j :: 0 <= i < j < |s| ==> s[i].off < s[j].off)
  }

  predicate SavableBlock(b: Block) {
    b.off % ALIGN == 0 && b.rsiz % ALIGN == 0 && 0 < b.off < FILE_LIMIT && 0 < b.rsiz < FILE_LIMIT
  }

  /** The bytes of one entry after one at offset `base`. */
  function EncodeBlock(b: Block, base: nat): Bytes
    requires base <= b.off
  {
    Varint.Encode(b.off / ALIGN - base / ALIGN) + Varint.Encode(b.rsiz / ALIGN)
  }

  /** How many entries are written while the budget lasts. */
  ghost function SavedCount(s: seq<Block>, base: nat, budget: int): (n: nat)
    requires Savable(s, base)
    ensures n <= |s|
  {
    if s == [] || budget <= 0 then 0
    else 1 + SavedCount(s[1..], s[0].off, budget - |EncodeBlock(s[0], base)|)
  }

  /** The bytes written while the budget lasts. */
  ghost function EncodePool(s: seq<Block>, base: nat, budget: int): Bytes
    requires Savable(s, base)
  {
    if s == [] || budget <= 0 then []
    else EncodeBlock(s[0], base) + EncodePool(s[1..], s[0].off, budget - |EncodeBlock(s[0], base)|)
  }

  lemma BlockSize(b: Block, base: nat)
    requires SavableBlock(b) && base < b.off
    ensures 2 <= |EncodeBlock(b, base)| <= 14
  {
    Varint.LengthLimits(b.off / ALIGN - base / ALIGN);
    Varint.LengthLimits(b.rsiz / ALIGN);
  }

  /** The writer overshoots its budget by less than one entry, so the two closing zeros and all
      entries stay inside the buffer the budget was computed from. */
  lemma {:induction false} PoolFits(s: seq<Block>, base: nat, budget: int)
    requires Savable(s, base)
    ensures |EncodePool(s, base, budget)| <= (if budget > 0 then budget + 13 else 0)
  {
    if s != [] && budget > 0 {
      BlockSize(s[0], base);
      PoolFits(s[1..], s[0].off, budget - |EncodeBlock(s[0], base)|);
    }
  }

  /** Every prefix shorter than the one written would have left budget: the prefix is as long as
      the budget allows. */
  lemma {:induction false} PoolIsLongest(s: seq<Block>, base: nat, budget: int)
    requires Savable(s, base) && SavedCount(s, base, budget) < |s|
    ensures |EncodePool(s, base, budget)| >= budget
  {
    if s != [] && budget > 0 {
      PoolIsLongest(s[1..], s[0].off, budget - |EncodeBlock(s[0], base)|);
    }
  }

  // ---------- loading ----------

  /** The loading loop over bytes, from offset `base`, with room for max entries. A byte sequence
      that ends inside an entry does not occur in what the writer writes; it loads as if ended. */
  function DecodePool(bytes: Bytes, base: nat, max: nat): (s: seq<Block>)
    ensures |s| <= max
    decreases max
  {
    if max == 0 || bytes == [] || bytes[0] == 0 || !Varint.Complete(bytes) then []
    else
      var off := base + Varint.Decode(bytes) * ALIGN;
      var rest := bytes[Varint.Step(bytes)..];
      if !Varint.Complete(rest) then []
      else
        [Block(off, Varint.Decode(rest) * ALIGN)] + DecodePool(rest[Varint.Step(rest)..], off, max - 1)
  }

  lemma Delta(off: nat, base: nat)
    requires off % ALIGN == 0 && base % ALIGN == 0 && base < off
    ensures off / ALIGN - base / ALIGN > 0 && base + (off / ALIGN - base / ALIGN) * ALIGN == off
  {
  }

  /** One entry is read back exactly, and its first byte is never the terminator. */
  lemma BlockRoundTrip(b: Block, base: nat, tail: Bytes, max: nat)
    requires SavableBlock(b) && base % ALIGN == 0 && base < b.off && max > 0
    ensures DecodePool(EncodeBlock(b, base) + tail, base, max) == [b] + DecodePool(tail, b.off, max - 1)
  {
    hide Varint.Encode, Varint.Decode, Varint.Complete, Varint.Step;
    Delta(b.off, base);
    Delta(b.rsiz, 0);
    var d: nat, r: nat := b.off / ALIGN - base / ALIGN, b.rsiz / ALIGN;
    Varint.ZeroByteIsZero(d);
    NumbersRead(d, r, base, tail, max);
  }

  lemma NumbersRead(d: nat, r: nat, base: nat, tail: Bytes, max: nat)
    requires max > 0 && Varint.Encode(d)[0] != 0
    ensures DecodePool(Varint.Encode(d) + Varint.Encode(r) + tail, base, max)
         == [Block(base + d * ALIGN, r * ALIGN)] + DecodePool(tail, base + d * ALIGN, max - 1)
  {
    hide Varint.Encode, Varint.Decode, Varint.Complete, Varint.Step, DecodePool;
    var ed, er := Varint.Encode(d), Varint.Encode(r);
    var s := ed + er + tail;
    assert s == ed + (er + tail);
    Varint.RoundTrip(d, er + tail);
    Varint.RoundTrip(r, tail);
    assert s[|ed|..] == er + tail && (er + tail)[|er|..] == tail && s[0] == ed[0];
    DecodeStep(s, base, max);
  }

  lemma DecodeStep(bytes: Bytes, base: nat, max: nat)
    requires max > 0 && Varint.Complete(bytes) && bytes[0] != 0 && Varint.Complete(bytes[Varint.Step(bytes)..])
    ensures var rest := bytes[Varint.Step(bytes)..]; var off := base + Varint.Decode(bytes) * ALIGN;
      DecodePool(bytes, base, max) ==
        [Block(off, Varint.Decode(rest) * ALIGN)] + DecodePool(rest[Varint.Step(rest)..], off, max - 1)
  {
  }

  lemma Terminated(rest: Bytes, base: nat, max: nat)
    ensures DecodePool([0, 0] + rest, base, max) == []
  {
  }

  /** Loading what was saved, whatever stands behind it in the file, gives exactly the prefix that
      was written. */
  lemma {:induction false} PoolRoundTrip(s: seq<Block>, base: nat, budget: int, rest: Bytes, max: nat)
    requires Savable(s, base) && base % ALIGN == 0 && SavedCount(s, base, budget) <= max
    ensures DecodePool(EncodePool(s, base, budget) + ([0, 0] + rest), base, max) == s[..SavedCount(s, base, budget)]
  {
    hide EncodeBlock, DecodePool;
    var tail := [0, 0] + rest;
    Terminated(rest, base, max);
    if s == [] || budget <= 0 {
      assert EncodePool(s, base, budget) + tail == tail;
    } else {
      var block := EncodeBlock(s[0], base);
      var more := budget - |block|;
      var inner := EncodePool(s[1..], s[0].off, more);
      PoolRoundTrip(s[1..], s[0].off, more, rest, max - 1);
      BlockRoundTrip(s[0], base, inner + tail, max);
      assert (block + inner) + tail == block + (inner + tail);
      assert s[..SavedCount(s, base, budget)] == [s[0]] + s[1..][..SavedCount(s[1..], s[0].off, more)];
    }
  }

  // ---------- the two loops ----------

  lemma SaveStep(s: seq<Block>, base: nat, budget: int)
    requires Savable(s, base) && s != [] && budget > 0
    ensures SavableBlock(s[0]) && base < s[0].off && Savable(s[1..], s[0].off)
    ensures EncodePool(s, base, budget) ==
      EncodeBlock(s[0], base) + EncodePool(s[1..], s[0].off, budget - |EncodeBlock(s[0], base)|)
  {
  }

  lemma SaveEnd(s: seq<Block>, base: nat, budget: int)
    requires Savable(s, base) && (s == [] || budget <= 0)
    ensures EncodePool(s, base, budget) == []
  {
  }

  /** One entry into the buffer at wp. */
  method PutBlock(buf: array<Byte>, wp: nat, b: Block, base: nat) returns (w: nat)
    requires SavableBlock(b) && base < b.off && wp + 14 <= buf.Length
    modifies buf
    ensures w == wp + |EncodeBlock(b, base)| <= buf.Length
    ensures buf[..w] == old(buf[..wp]) + EncodeBlock(b, base)
  {
    hide Varint.Encode;
    Varint.LengthLimits(b.off / ALIGN - base / ALIGN);
    Varint.LengthLimits(b.rsiz / ALIGN);
    ghost var was := buf[..wp];
    var step := Varint.SetVNum(buf, wp, b.off / ALIGN - base / ALIGN, Varint.LONG_LIMIT);
    w := wp + step;
    ghost var mid := buf[..w];
    assert mid == was + Varint.Encode(b.off / ALIGN - base / ALIGN);
    step := Varint.SetVNum(buf, w, b.rsiz / ALIGN, Varint.INT_LIMIT);
    w := w + step;
    assert buf[..w] == mid + Varint.Encode(b.rsiz / ALIGN);
  }

  /** tchdbsavefbp after sorting or merging: fills buf, which has the size reserved in the file. */
  method SavePool(a: array<Block>, n: nat, buf: array<Byte>) returns (len: nat)
    requires n <= a.Length && Savable(a[..n], 0) && buf.Length >= SLACK
    modifies buf
    ensures len <= buf.Length
    ensures buf[..len] == EncodePool(a[..n], 0, buf.Length - SLACK) + [0, 0]
  {
    hide Savable, EncodePool, EncodeBlock;
    var wp, i, base, bsiz := 0, 0, 0, buf.Length - SLACK;
    ghost var s := a[..n];
    ghost var target := EncodePool(s, 0, bsiz);
    PoolFits(s, 0, bsiz);
    assert a[0..n] == s;
    while i < n && bsiz > 0
      invariant 0 <= i <= n && 0 <= base && Savable(a[i..n], base)
      invariant wp + bsiz == buf.Length - SLACK && 0 <= wp <= |target|
      invariant buf[..wp] + EncodePool(a[i..n], base, bsiz) == target
    {
      ghost var rest := a[i..n];
      assert rest[1..] == a[i + 1..n];
      SaveStep(rest, base, bsiz);
      ghost var done, block, more := buf[..wp], EncodeBlock(rest[0], base), bsiz - |EncodeBlock(rest[0], base)|;
      var w := PutBlock(buf, wp, a[i], base);
      assert done + (block + EncodePool(rest[1..], rest[0].off, more)) ==
        (done + block) + EncodePool(rest[1..], rest[0].off, more);
      bsiz := bsiz - (w - wp);
      wp := w;
      base := a[i].off;
      i := i + 1;
    }
    SaveEnd(a[i..n], base, bsiz);
    ghost var full := buf[..wp];
    assert full == target;
    buf[wp] := 0;
    buf[wp + 1] := 0;
    len := wp + 2;
    assert buf[..len] == full + [0, 0];
  }

  /** One entry from the buffer at rp. */
  method GetBlock(buf: array<Byte>, rp: nat, base: nat, ghost max: nat) returns (b: Block, w: nat)
    requires rp < buf.Length && max > 0 && Readable(buf[rp..], max) && buf[rp] != 0
    ensures rp < w < buf.Length && Readable(buf[w..], max - 1)
    ensures DecodePool(buf[rp..], base, max) == [b] + DecodePool(buf[w..], b.off, max - 1)
  {
    hide DecodePool, Varint.Complete, Varint.Decode, Varint.Step;
    ghost var bytes := buf[rp..];
    ReadStep(bytes, max);
    DecodeStep(bytes, base, max);
    var num, step := Varint.ReadVNum(buf, rp);
    w := rp + step;
    ghost var rest := buf[w..];
    assert rest == bytes[step..];
    var size;
    size, step := Varint.ReadVNum(buf, w);
    b := Block(base + num * ALIGN, size * ALIGN);
    w := w + step;
    assert buf[w..] == rest[step..];
  }

  /** tchdbloadfbp: refills the pool array from the bytes read. */
  method LoadPool(buf: array<Byte>, a: array<Block>) returns (n: nat)
    requires Readable(buf[..], a.Length)
    modifies a
    ensures n <= a.Length && a[..n] == DecodePool(buf[..], 0, a.Length)
  {
    hide Readable, DecodePool;
    ghost var target := DecodePool(buf[..], 0, a.Length);
    var rp, base: nat := 0, 0;
    n := 0;
    assert buf[0..] == buf[..];
    ReadSome(buf[..], a.Length);
    while n < a.Length && buf[rp] != 0
      invariant n <= a.Length && 0 <= rp < buf.Length
      invariant Readable(buf[rp..], a.Length - n)
      invariant a[..n] + DecodePool(buf[rp..], base, a.Length - n) == target
      decreases a.Length - n
    {
      ghost var done := a[..n];
      var b, w := GetBlock(buf, rp, base, a.Length - n);
      assert done + ([b] + DecodePool(buf[w..], b.off, a.Length - n - 1)) ==
        (done + [b]) + DecodePool(buf[w..], b.off, a.Length - n - 1);
      a[n] := b;
      rp, base := w, b.off;
      n := n + 1;
      assert a[..n] == done + [b];
    }
    ReadEnd(buf[rp..], base, a.Length - n);
  }

  /** The bytes are entries ended by a zero, as many as may be read. */
  predicate Readable(bytes: Bytes, max: nat)
    decreases max
  {
    && bytes != []
    && (max > 0 && bytes[0] != 0 ==>
          && Varint.Complete(bytes) && Varint.Complete(bytes[Varint.Step(bytes)..])
          && var rest := bytes[Varint.Step(bytes)..]; Readable(rest[Varint.Step(rest)..], max - 1))
  }

  lemma ReadSome(bytes: Bytes, max: nat)
    requires Readable(bytes, max)
    ensures bytes != []
  {
  }

  lemma ReadStep(bytes: Bytes, max: nat)
    requires Readable(bytes, max) && max > 0 && bytes[0] != 0
    ensures Varint.Complete(bytes) && Varint.Complete(bytes[Varint.Step(bytes)..])
    ensures var rest := bytes[Varint.Step(bytes)..]; var more := rest[Varint.Step(rest)..];
      Readable(more, max - 1) && more != []
  {
  }

  lemma ReadEnd(bytes: Bytes, base: nat, max: nat)
    requires bytes != [] && (max == 0 || bytes[0] == 0)
    ensures DecodePool(bytes, base, max) == []
  {
  }

  /** What the writer wrote can be read, whatever stands behind it. */
  lemma {:induction false} SavedIsReadable(s: seq<Block>, base: nat, budget: int, rest: Bytes, max: nat)
    requires Savable(s, base) && |s| <= max
    ensures Readable(EncodePool(s, base, budget) + ([0, 0] + rest), max)
  {
    hide EncodeBlock, Readable;
    var tail := [0, 0] + rest;
    if s == [] || budget <= 0 {
      assert EncodePool(s, base, budget) + tail == tail;
      ZeroIsReadable(tail, max);
    } else {
      var block := EncodeBlock(s[0], base);
      var inner := EncodePool(s[1..], s[0].off, budget - |block|);
      SavedIsReadable(s[1..], s[0].off, budget - |block|, rest, max - 1);
      assert (block + inner) + tail == block + (inner + tail);
      BlockIsReadable(s[0], base, inner + tail, max);
    }
  }

  lemma ZeroIsReadable(tail: Bytes, max: nat)
    requires tail != [] && tail[0] == 0
    ensures Readable(tail, max)
  {
  }

  lemma BlockIsReadable(b: Block, base: nat, tail: Bytes, max: nat)
    requires base <= b.off && max > 0 && Readable(tail, max - 1)
    ensures Readable(EncodeBlock(b, base) + tail, max)
  {
    hide Varint.Encode, Varint.Decode, Varint.Complete, Varint.Step;
    var d, r := b.off / ALIGN - base / ALIGN, b.rsiz / ALIGN;
    var ed, er := Varint.Encode(d), Varint.Encode(r);
    var bytes := EncodeBlock(b, base) + tail;
    assert bytes == ed + (er + tail);
    Varint.RoundTrip(d, er + tail);
    Varint.RoundTrip(r, tail);
    assert bytes[|ed|..] == er + tail && (er + tail)[|er|..] == tail;
  }

  // ---------- the bytes by position ----------

  /** The numbers written for entries: twice as many, each offset as the distance to the one before. */
  ghost function Numbers(s: seq<Block>, base: nat): seq<nat>
    requires Savable(s, base)
  {
    seq(2 * |s|, k requires 0 <= k < 2 * |s| =>
      if k % 2 == 1 then s[k / 2].rsiz / 16
      else s[k / 2].off / 16 - (if k == 0 then base else s[k / 2 - 1].off) / 16)
  }

  /** Numbers one behind the other. */
  function Written(n: seq<nat>): Bytes { if n == [] then [] else Varint.Encode(n[0]) + Written(n[1..]) }

  lemma SavablePart(s: seq<Block>, base: nat, n: nat)
    requires Savable(s, base) && n <= |s|
    ensures Savable(s[..n], base)
  {
  }

  /** What is saved is the numbers of the first entries. */
  lemma {:induction false} PoolBytes(s: seq<Block>, base: nat, budget: int)
    requires Savable(s, base)
    ensures Savable(s[..SavedCount(s, base, budget)], base)
    ensures EncodePool(s, base, budget) == Written(Numbers(s[..SavedCount(s, base, budget)], base))
  {
    hide EncodeBlock, Numbers, Written, Savable;
    SavablePart(s, base, SavedCount(s, base, budget));
    if s == [] || budget <= 0 {
      NothingWritten(base);
      assert s[..0] == [];
    } else {
      SaveStep(s, base, budget);
      var more := budget - |EncodeBlock(s[0], base)|;
      PoolBytes(s[1..], s[0].off, more);
      var rest := s[1..][..SavedCount(s[1..], s[0].off, more)];
      assert s[..SavedCount(s, base, budget)] == [s[0]] + rest;
      WrittenFirst(s[0], rest, base);
    }
  }

  lemma NothingWritten(base: nat)
    ensures Savable([], base) && Written(Numbers([], base)) == []
  {
  }

  lemma NumbersFirst(b: Block, rest: seq<Block>, base: nat)
    requires Savable([b] + rest, base) && Savable(rest, b.off)
    ensures var n := Numbers([b] + rest, base);
      && base <= b.off && |n| >= 2 && n[0] == b.off / 16 - base / 16 && n[1] == b.rsiz / 16
      && n[1..][1..] == Numbers(rest, b.off)
  {
    assert ([b] + rest)[0] == b;
  }

  lemma WrittenFirst(b: Block, rest: seq<Block>, base: nat)
    requires Savable([b] + rest, base) && Savable(rest, b.off)
    ensures base <= b.off && Written(Numbers([b] + rest, base)) == EncodeBlock(b, base) + Written(Numbers(rest, b.off))
  {
    NumbersFirst(b, rest, base);
    hide Varint.Encode, Numbers, Savable;
    var n := Numbers([b] + rest, base);
    assert n[1..][0] == n[1];
  }
}
