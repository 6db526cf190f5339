/** The bytes of a tile: what tchdbwriterec and tchdbwritefb put into the file and tchdbreadrec
    and tchdbreadrecbody read back (lib/libdict/tchdb.c:1080-1159, 1424-1434, 1443-1532), in the
    32-bit mode. */
module RecordCodec {
  import opened KeyOrder
  import opened Tiles
  import Varint

  const MAGIC_REC: Byte := 0xc8
  const MAGIC_FREE: Byte := 0xb0

  datatype Parsed<T> = Bad | Good(value: T)

  function Pow256(w: nat): (p: nat)
    ensures p >= 1
  {
    if w == 0 then 1 else 256 * Pow256(w - 1)
  }

  /** A fixed-width little-endian number. */
  function ToLE(n: nat, w: nat): (s: Bytes)
    ensures |s| == w
  {
    if w == 0 then [] else [n % 256] + ToLE(n / 256, w - 1)
  }

  function FromLE(s: Bytes): nat {
    if s == [] then 0 else s[0] + 256 * FromLE(s[1..])
  }

  lemma {:induction false} LERoundTrip(n: nat, w: nat)
    requires n < Pow256(w)
    ensures FromLE(ToLE(n, w)) == n
  {
    if w > 0 {
      assert n / 256 < Pow256(w - 1);
      LERoundTrip(n / 256, w - 1);
      assert ToLE(n, w)[1..] == ToLE(n / 256, w - 1);
    }
  }

  /** A link field holds an offset in units of the alignment. */
  predicate LinkOk(off: nat) { off % ALIGN == 0 && off / ALIGN < TWO_32 }

  /** The field widths of the 32-bit mode. */
  predicate WellFormed(t: Tile) {
    match t
    case Rec(_, left, right, psiz, key, value) =>
      LinkOk(left) && LinkOk(right) && psiz <= MAX_PADDING && |key| < FILE_LIMIT && |value| < FILE_LIMIT
    case Free(rsiz) => rsiz < TWO_32
  }

  function Zeros(n: nat): (s: Bytes)
    ensures |s| == n
  {
    seq(n, _ => 0)
  }

  /** The fixed part of a record header. */
  function EncodeFixed(hash: Byte, left: nat, right: nat, psiz: nat): (s: Bytes)
    ensures |s| == 12
  {
    [MAGIC_REC, hash] + ToLE(left / ALIGN, 4) + ToLE(right / ALIGN, 4) + ToLE(psiz, 2)
  }

  function EncodeSizes(key: Bytes, value: Bytes): Bytes { Varint.Encode(|key|) + Varint.Encode(|value|) }

  function EncodeTile(t: Tile): Bytes {
    match t
    case Rec(hash, left, right, psiz, key, value) =>
      EncodeFixed(hash, left, right, psiz) + (EncodeSizes(key, value) + (key + (value + Zeros(psiz))))
    case Free(rsiz) => [MAGIC_FREE] + ToLE(rsiz, 4)
  }

  /** The two sizes, key and value at the start of s. */
  function DecodeBody(s: Bytes): Parsed<(Bytes, Bytes)> {
    if !Varint.Complete(s) then Bad
    else
      var ksiz, s1 := Varint.Decode(s), s[Varint.Step(s)..];
      if !Varint.Complete(s1) then Bad
      else
        var vsiz, s2 := Varint.Decode(s1), s1[Varint.Step(s1)..];
        if |s2| < ksiz + vsiz then Bad else Good((s2[..ksiz], s2[ksiz..ksiz + vsiz]))
  }

  /** tchdbreadrec and tchdbreadrecbody: an unknown magic number or too few bytes is an error. */
  function DecodeTile(s: Bytes): Parsed<Tile> {
    if |s| < 5 then Bad
    else if s[0] == MAGIC_FREE then Good(Free(FromLE(s[1..5])))
    else if s[0] != MAGIC_REC || |s| < 12 then Bad
    else
      match DecodeBody(s[12..])
      case Bad => Bad
      case Good((key, value)) =>
        Good(Rec(s[1], FromLE(s[2..6]) * ALIGN, FromLE(s[6..10]) * ALIGN, FromLE(s[10..12]), key, value))
  }

  // ---------- round trip ----------

  lemma BodyRoundTrip(key: Bytes, value: Bytes, rest: Bytes)
    ensures DecodeBody(EncodeSizes(key, value) + (key + (value + rest))) == Good((key, value))
  {
    hide Varint.Encode, Varint.Complete, Varint.Decode, Varint.Step;
    var ek, ev := Varint.Encode(|key|), Varint.Encode(|value|);
    var body := key + (value + rest);
    var s := EncodeSizes(key, value) + body;
    assert s == ek + (ev + body);
    Varint.RoundTrip(|key|, ev + body);
    assert s[|ek|..] == ev + body;
    Varint.RoundTrip(|value|, body);
    assert (ev + body)[|ev|..] == body;
    assert body[..|key|] == key && body[|key|..|key| + |value|] == value;
  }

  lemma FixedRoundTrip(hash: Byte, left: nat, right: nat, psiz: nat, rest: Bytes)
    requires LinkOk(left) && LinkOk(right) && psiz <= MAX_PADDING
    ensures var s := EncodeFixed(hash, left, right, psiz) + rest;
      && s[0] == MAGIC_REC && s[1] == hash && s[12..] == rest
      && FromLE(s[2..6]) * ALIGN == left && FromLE(s[6..10]) * ALIGN == right && FromLE(s[10..12]) == psiz
  {
    hide ToLE, FromLE, Pow256;
    var l, r, p := ToLE(left / ALIGN, 4), ToLE(right / ALIGN, 4), ToLE(psiz, 2);
    var s := EncodeFixed(hash, left, right, psiz) + rest;
    assert s[2..6] == l && s[6..10] == r && s[10..12] == p && s[12..] == rest;
    Widths();
    LERoundTrip(left / ALIGN, 4);
    LERoundTrip(right / ALIGN, 4);
    LERoundTrip(psiz, 2);
  }

  lemma Widths()
    ensures Pow256(4) == TWO_32 && Pow256(2) == MAX_PADDING + 1
  {
    assert Pow256(1) == 256 * Pow256(0);
    assert Pow256(3) == 256 * Pow256(2);
  }

  /** Reading back what was written, whatever follows it in the file, gives the same tile: hash,
      links, padding, key and value. */
  lemma TileRoundTrip(t: Tile, rest: Bytes)
    requires WellFormed(t)
    ensures DecodeTile(EncodeTile(t) + rest) == Good(t)
  {
    hide DecodeBody, EncodeFixed, EncodeSizes, ToLE, FromLE, Zeros, Pow256;
    match t
    case Rec(hash, left, right, psiz, key, value) =>
      var body := EncodeSizes(key, value) + (key + (value + Zeros(psiz)));
      var tail := EncodeSizes(key, value) + (key + (value + (Zeros(psiz) + rest)));
      assert body + rest == tail;
      assert EncodeTile(t) + rest == EncodeFixed(hash, left, right, psiz) + tail;
      FixedRoundTrip(hash, left, right, psiz, tail);
      BodyRoundTrip(key, value, Zeros(psiz) + rest);
    case Free(rsiz) =>
      var s := EncodeTile(t) + rest;
      assert s[1..5] == ToLE(rsiz, 4);
      Widths();
      LERoundTrip(rsiz, 4);
  }

  /** A record's bytes are exactly the size the reader recomputes from its header. */
  lemma EncodedSize(t: Tile)
    ensures |EncodeTile(t)| == if t.Rec? then Size(t) else 5
  {
    hide Varint.Encode;
  }

  // ---------- the image of a file ----------

  /** bytes with s written at off; the file grows when s reaches past its end. */
  function Splice(bytes: Bytes, off: nat, s: Bytes): Bytes
    requires off <= |bytes|
  {
    bytes[..off] + s + (if off + |s| <= |bytes| then bytes[off + |s|..] else [])
  }

  /** The bytes at off are those of t. */
  predicate Shows(bytes: Bytes, off: nat, t: Tile) {
    && WellFormed(t) && off + |EncodeTile(t)| <= |bytes|
    && bytes[off..off + |EncodeTile(t)|] == EncodeTile(t)
  }

  lemma ReadShown(bytes: Bytes, off: nat, t: Tile)
    requires Shows(bytes, off, t)
    ensures off <= |bytes| && DecodeTile(bytes[off..]) == Good(t)
  {
    hide DecodeTile, EncodeTile;
    var n := |EncodeTile(t)|;
    assert bytes[off..] == EncodeTile(t) + bytes[off + n..];
    TileRoundTrip(t, bytes[off + n..]);
  }

  lemma SpliceKeeps(bytes: Bytes, off: nat, s: Bytes, from: nat, to: nat)
    requires off <= |bytes| && from <= to <= |bytes| && (to <= off || off + |s| <= from)
    ensures to <= |Splice(bytes, off, s)| && Splice(bytes, off, s)[from..to] == bytes[from..to]
  {
    var after := Splice(bytes, off, s);
    assert forall i :: from <= i < to ==> after[i] == bytes[i];
  }

  /** A write leaves alone what it does not overlap and shows what was written. */
  lemma SpliceShows(bytes: Bytes, off: nat, s: Bytes, p: nat, t: Tile)
    requires off <= |bytes|
    requires Shows(bytes, p, t) && (p + |EncodeTile(t)| <= off || off + |s| <= p)
    ensures Shows(Splice(bytes, off, s), p, t)
  {
    hide EncodeTile, WellFormed;
    SpliceKeeps(bytes, off, s, p, p + |EncodeTile(t)|);
  }

  lemma SpliceShowsItself(bytes: Bytes, off: nat, t: Tile)
    requires off <= |bytes| && WellFormed(t)
    ensures Shows(Splice(bytes, off, EncodeTile(t)), off, t)
  {
    hide EncodeTile, WellFormed;
  }

  /** Writing four bytes into the header of a record overwrites its left link and nothing else. */
  lemma LeftLinkBytes(bytes: Bytes, off: nat, t: Tile, child: nat)
    requires Shows(bytes, off, t) && t.Rec?
    ensures off + 6 <= |bytes|
    ensures Splice(bytes, off + 2, ToLE(child / ALIGN, 4)) == Splice(bytes, off, EncodeTile(t.(left := child)))
  {
    hide EncodeSizes, ToLE, WellFormed, Zeros;
    var tail := EncodeSizes(t.key, t.value) + (t.key + (t.value + Zeros(t.psiz)));
    var old', new' := EncodeTile(t), EncodeTile(t.(left := child));
    var l := ToLE(child / ALIGN, 4);
    assert old' == EncodeFixed(t.hash, t.left, t.right, t.psiz) + tail;
    assert new' == EncodeFixed(t.hash, child, t.right, t.psiz) + tail;
    assert new' == old'[..2] + l + old'[6..];
    PatchInside(bytes, off, old', 2, l);
  }

  lemma RightLinkBytes(bytes: Bytes, off: nat, t: Tile, child: nat)
    requires Shows(bytes, off, t) && t.Rec?
    ensures off + 10 <= |bytes|
    ensures Splice(bytes, off + 6, ToLE(child / ALIGN, 4)) == Splice(bytes, off, EncodeTile(t.(right := child)))
  {
    hide EncodeSizes, ToLE, WellFormed, Zeros;
    var tail := EncodeSizes(t.key, t.value) + (t.key + (t.value + Zeros(t.psiz)));
    var old', new' := EncodeTile(t), EncodeTile(t.(right := child));
    var r := ToLE(child / ALIGN, 4);
    assert old' == EncodeFixed(t.hash, t.left, t.right, t.psiz) + tail;
    assert new' == EncodeFixed(t.hash, t.left, child, t.psiz) + tail;
    assert new' == old'[..6] + r + old'[10..];
    PatchInside(bytes, off, old', 6, r);
  }

  /** Patching part of a region is rewriting the region with the patched contents. */
  lemma PatchInside(bytes: Bytes, off: nat, s: Bytes, k: nat, patch: Bytes)
    requires off + |s| <= |bytes| && bytes[off..off + |s|] == s && k + |patch| <= |s|
    ensures Splice(bytes, off + k, patch) == Splice(bytes, off, s[..k] + patch + s[k + |patch|..])
  {
    var n, m := |s|, |patch|;
    var whole := s[..k] + patch + s[k + m..];
    assert |whole| == n;
    assert bytes[..off + k] == bytes[..off] + s[..k] by {
      assert forall i :: 0 <= i < k ==> s[i] == bytes[off + i];
    }
    assert bytes[off + k + m..] == s[k + m..] + bytes[off + n..] by {
      assert forall i :: k + m <= i < n ==> s[i] == bytes[off + i];
    }
  }

  // ---------- the bytes by position ----------

  /** Byte i of a fixed-width field. */
  lemma {:induction false} FieldBytes(n: nat, w: nat, i: nat)
    requires i < w
    ensures ToLE(n, w)[i] == n / Pow256(i) % 256
  {
    if i > 0 {
      FieldBytes(n / 256, w - 1, i - 1);
      DivideAgain(n, Pow256(i - 1));
    }
  }

  lemma DivideAgain(n: nat, p: nat)
    requires p > 0
    ensures 256 * p > 0 && n / 256 / p == n / (256 * p)
  {
    var q := n / 256 / p;
    var r := n / 256 % p;
    assert n / 256 == p * q + r;
    var s := 256 * r + n % 256;
    assert n == 256 * (p * q + r) + n % 256 == 256 * (p * q) + s;
    assert 0 <= s < 256 * p;
    assert 256 * (p * q) == 256 * p * q;
    Varint.QuotientIs(n, 256 * p, q, s);
  }

  /** A record on file: its magic number, the second hash, the two links in units of the alignment, the
      size of the padding, the sizes of key and value, then key, value and zeros. */
  lemma RecordBytes(t: Tile)
    requires t.Rec?
    ensures var s := EncodeTile(t); var sizes := Varint.Encode(|t.key|) + Varint.Encode(|t.value|);
      var k := 12 + |sizes|; var v := k + |t.key|; var p := v + |t.value|;
      && s[0] == 0xc8 && s[1] == t.hash
      && s[2..6] == ToLE(t.left / 16, 4) && s[6..10] == ToLE(t.right / 16, 4) && s[10..12] == ToLE(t.psiz, 2)
      && s[12..k] == sizes && s[k..v] == t.key && s[v..p] == t.value
      && |s| == p + t.psiz && forall i :: p <= i < |s| ==> s[i] == 0
  {
    hide ToLE, Varint.Encode, EncodeFixed;
    var fixed := EncodeFixed(t.hash, t.left, t.right, t.psiz);
    FixedBytes(t.hash, t.left, t.right, t.psiz);
    Consecutive(fixed, EncodeSizes(t.key, t.value), t.key, t.value, Zeros(t.psiz));
    assert EncodeTile(t)[..12] == fixed;
    assert EncodeTile(t)[2..6] == fixed[2..6];
    assert EncodeTile(t)[6..10] == fixed[6..10];
    assert EncodeTile(t)[10..12] == fixed[10..12];
  }

  lemma FixedBytes(hash: Byte, left: nat, right: nat, psiz: nat)
    ensures var s := EncodeFixed(hash, left, right, psiz);
      && s[0] == 0xc8 && s[1] == hash
      && s[2..6] == ToLE(left / 16, 4) && s[6..10] == ToLE(right / 16, 4) && s[10..12] == ToLE(psiz, 2)
  {
    hide ToLE;
  }

  lemma Consecutive(a: Bytes, b: Bytes, c: Bytes, d: Bytes, e: Bytes)
    ensures var s := a + (b + (c + (d + e))); var k := |a| + |b|; var v := k + |c|; var p := v + |d|;
      s[..|a|] == a && s[|a|..k] == b && s[k..v] == c && s[v..p] == d && s[p..] == e
  {
  }

  /** A free block on file: its magic number and its size. */
  lemma FreeBytes(t: Tile)
    requires t.Free?
    ensures EncodeTile(t)[0] == 0xb0 && EncodeTile(t)[1..] == ToLE(t.rsiz, 4)
  {
    hide ToLE;
  }
}
