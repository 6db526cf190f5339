/** What stands at a record boundary of the database file: a data record or a free block
    (lib/libdict/tchdb.c:37-61). */
module Tiles {
  import opened KeyOrder
  import Varint

  const ALIGN: nat := 16          // 1 << HDBDEFAPOW
  const MAX_HEADER: nat := 32     // HDBMAXHSIZ
  const MAX_PADDING: nat := 65535 // UINT16_MAX
  const FILE_LIMIT: nat := 0x8000_0000

  datatype Tile =
    | Rec(hash: Byte, left: nat, right: nat, psiz: nat, key: Bytes, value: Bytes)
    | Free(rsiz: nat)

  /** An entry of the free block pool (HDBFB). */
  datatype Block = Block(off: nat, rsiz: nat)

  type File = map<nat, Tile>

  /** Magic, hash, two 32-bit links, the 16-bit padding size, then the two sizes. */
  function HeaderSize(ksiz: nat, vsiz: nat): (n: nat) {
    12 + Varint.Length(ksiz) + Varint.Length(vsiz)
  }

  /** What a record takes without padding. */
  function Need(key: Bytes, value: Bytes): (n: nat)
    ensures n >= 14 + |key| + |value|
  {
    HeaderSize(|key|, |value|) + |key| + |value|
  }

  function Size(t: Tile): (n: nat) {
    match t
    case Rec(_, _, _, psiz, key, value) => Need(key, value) + psiz
    case Free(rsiz) => rsiz
  }

  /** tchdbpadsize for a file that would end at n. */
  function PadSize(n: nat): (p: nat)
    ensures p < ALIGN && (n + p) % ALIGN == 0
  {
    var diff := n % ALIGN;
    if diff > 0 then ALIGN - diff else 0
  }

  lemma NeedBound(key: Bytes, value: Bytes)
    requires |key| < FILE_LIMIT && |value| < FILE_LIMIT
    ensures Need(key, value) <= MAX_HEADER + |key| + |value|
  {
    Varint.LengthLimits(|key|);
    Varint.LengthLimits(|value|);
  }
}
