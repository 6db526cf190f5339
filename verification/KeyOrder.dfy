/** Keys, their two hash values and the order in which a bucket tree keeps them
    (lib/libdict/tchdb.c). */
module KeyOrder {

  type Byte = b: int | 0 <= b < 256
  type Bytes = seq<Byte>

  const TWO_32: int := 0x1_0000_0000
  const TWO_64: int := 0x1_0000_0000_0000_0000

  // ---------- the two hash functions ----------

  /** The bucket hash over the first n bytes: seeded with the key's size, read forwards. */
  function ForwardHash(key: Bytes, n: nat): (h: int)
    requires n <= |key|
    ensures 0 <= h
  {
    if n == 0 then |key|
    else (ForwardHash(key, n - 1) * 37 + key[n - 1]) % TWO_64
  }

  /** The second hash over the last n bytes: seeded with the key's size, read backwards. */
  function BackwardHash(key: Bytes, n: nat): (h: int)
    requires n <= |key|
    ensures 0 <= h
  {
    if n == 0 then |key|
    else (BackwardHash(key, n - 1) * 31 + key[|key| - n]) % TWO_32
  }

  function BucketIndex(key: Bytes, bnum: nat): (b: nat)
    requires bnum > 0
    ensures b < bnum
  {
    ForwardHash(key, |key|) % bnum
  }

  function RecHash(key: Bytes): (h: Byte) {
    BackwardHash(key, |key|) % 256
  }

  method ComputeBucketIndex(key: Bytes, bnum: nat) returns (b: nat)
    requires bnum > 0
    ensures b == BucketIndex(key, bnum)
  {
    var hash := |key|;
    var i := 0;
    while i < |key|
      invariant i <= |key|
      invariant hash == ForwardHash(key, i)
    {
      hash := (hash * 37 + key[i]) % TWO_64;
      i := i + 1;
    }
    b := hash % bnum;
  }

  method ComputeRecHash(key: Bytes) returns (h: Byte)
    ensures h == RecHash(key)
  {
    var hash := |key|;
    var i := |key|;
    while i > 0
      invariant 0 <= i <= |key|
      invariant hash == BackwardHash(key, |key| - i)
    {
      i := i - 1;
      hash := (hash * 31 + key[i]) % TWO_32;
    }
    h := hash % 256;
  }

  // ---------- comparison ----------

  /** memcmp on regions of one size: the sign of the first difference. */
  function MemCmp(a: Bytes, b: Bytes): int
    requires |a| == |b|
  {
    if a == [] then 0
    else if a[0] != b[0] then a[0] - b[0]
    else MemCmp(a[1..], b[1..])
  }

  /** tcreckeycmp: size first, then bytes. */
  function KeyCmp(a: Bytes, b: Bytes): int {
    if |a| > |b| then 1 else if |a| < |b| then -1 else MemCmp(a, b)
  }

  /** The order of a bucket tree: second hash, then KeyCmp. */
  function RecordCmp(a: Bytes, b: Bytes): int {
    if RecHash(a) > RecHash(b) then 1
    else if RecHash(a) < RecHash(b) then -1
    else KeyCmp(a, b)
  }

  predicate Above(a: Bytes, b: Bytes) { RecordCmp(a, b) > 0 }

  lemma {:induction false} MemCmpLaws(a: Bytes, b: Bytes)
    requires |a| == |b|
    ensures MemCmp(a, b) == 0 <==> a == b
    ensures MemCmp(a, b) == -MemCmp(b, a)
  {
    if a != [] && a[0] == b[0] {
      MemCmpLaws(a[1..], b[1..]);
      assert a == [a[0]] + a[1..] && b == [b[0]] + b[1..];
    }
  }

  lemma {:induction false} MemCmpTransitive(a: Bytes, b: Bytes, c: Bytes)
    requires |a| == |b| == |c|
    requires MemCmp(a, b) > 0 && MemCmp(b, c) > 0
    ensures MemCmp(a, c) > 0
  {
    if a[0] == b[0] && b[0] == c[0] {
      MemCmpTransitive(a[1..], b[1..], c[1..]);
    }
  }

  /** RecordCmp is a strict total order on keys: exactly one of a above b, b above a, a == b. */
  lemma RecordCmpTotal(a: Bytes, b: Bytes)
    ensures RecordCmp(a, b) == 0 <==> a == b
    ensures Above(a, b) <==> RecordCmp(b, a) < 0
  {
    if |a| == |b| {
      MemCmpLaws(a, b);
    }
  }

  lemma AboveTransitive(a: Bytes, b: Bytes, c: Bytes)
    requires Above(a, b) && Above(b, c)
    ensures Above(a, c)
  {
    if |a| == |b| == |c| && RecHash(a) == RecHash(b) == RecHash(c) {
      MemCmpTransitive(a, b, c);
    }
  }

  /** Which order it is: the larger second hash comes first, of equal hashes the longer key, of equal
      lengths the one with the larger byte where the two first differ. */
  lemma AboveMeans(a: Bytes, b: Bytes)
    ensures Above(a, b) <==>
      || RecHash(a) > RecHash(b)
      || (RecHash(a) == RecHash(b) && |a| > |b|)
      || (RecHash(a) == RecHash(b) && |a| == |b| && exists i :: 0 <= i < |a| && a[..i] == b[..i] && a[i] > b[i])
  {
    if |a| == |b| { FirstDifference(a, b); }
  }

  lemma {:induction false} FirstDifference(a: Bytes, b: Bytes)
    requires |a| == |b|
    ensures MemCmp(a, b) > 0 <==> exists i :: 0 <= i < |a| && a[..i] == b[..i] && a[i] > b[i]
  {
    if a != [] {
      if a[0] == b[0] {
        FirstDifference(a[1..], b[1..]);
        if i :| 0 <= i < |a[1..]| && a[1..][..i] == b[1..][..i] && a[1..][i] > b[1..][i] {
          assert a[..i + 1] == [a[0]] + a[1..][..i] && b[..i + 1] == [b[0]] + b[1..][..i];
          assert a[i + 1] > b[i + 1];
        }
        if i :| 0 <= i < |a| && a[..i] == b[..i] && a[i] > b[i] {
          assert a[1..][..i - 1] == a[..i][1..] && b[1..][..i - 1] == b[..i][1..];
          assert a[1..][i - 1] > b[1..][i - 1];
        }
      } else {
        assert a[..0] == b[..0];
        if i :| 0 <= i < |a| && a[..i] == b[..i] && a[i] > b[i] {
          if i > 0 {
            assert a[..i][0] == b[..i][0];
          }
        }
      }
    }
  }

  // ---------- the hash values in closed form ----------

  function Power(base: nat, k: nat): nat { if k == 0 then 1 else base * Power(base, k - 1) }

  /** The sum of d[i] * base^i for i < n. */
  function LowFirst(d: Bytes, base: nat, n: nat): nat
    requires n <= |d|
  {
    if n == 0 then 0 else LowFirst(d, base, n - 1) + d[n - 1] * Power(base, n - 1)
  }

  /** The sum of d[i] * base^(|d| - 1 - i) for i < n. */
  function HighFirst(d: Bytes, base: nat, n: nat): nat
    requires n <= |d|
  {
    if n == 0 then 0 else HighFirst(d, base, n - 1) + d[n - 1] * Power(base, |d| - n)
  }

  /** The second hash: byte i counts 31^i times, the size 31^size times, in 32 bits, of which eight are
      kept. */
  lemma RecHashMeans(key: Bytes)
    ensures RecHash(key) == (LowFirst(key, 31, |key|) + |key| * Power(31, |key|)) % TWO_32 % 256
  {
    hide LowFirst, Power, BackwardHash;
    BackwardSum(key, |key|);
    assert key[0..] == key;
    KeptReduced(key);
  }

  /** The bucket: byte i counts 37^(size - 1 - i) times, the size 37^size times, in 64 bits. */
  lemma BucketMeans(key: Bytes, bnum: nat)
    requires bnum > 0
    ensures BucketIndex(key, bnum) == (HighFirst(key, 37, |key|) + |key| * Power(37, |key|)) % TWO_64 % bnum
  {
    hide HighFirst, Power, ForwardHash;
    ForwardSum(key, |key|);
    assert key[..|key|] == key;
    KeptReduced(key);
  }

  /** Both sums are kept reduced, but for a size alone, and a key of size 0 has sum 0. */
  lemma KeptReduced(key: Bytes)
    ensures BackwardHash(key, |key|) % TWO_32 == BackwardHash(key, |key|)
    ensures ForwardHash(key, |key|) % TWO_64 == ForwardHash(key, |key|)
  {
  }

  lemma {:induction false} BackwardSum(key: Bytes, n: nat)
    requires n <= |key|
    ensures var d := key[|key| - n..];
      BackwardHash(key, n) % TWO_32 == (LowFirst(d, 31, n) + |key| * Power(31, n)) % TWO_32
  {
    if n > 0 {
      hide LowFirst, Power, BackwardHash;
      BackwardSum(key, n - 1);
      var x, rest := key[|key| - n], key[|key| - n + 1..];
      var low, power := LowFirst(rest, 31, n - 1), Power(31, n - 1);
      assert key[|key| - n..] == [x] + rest;
      LowShift(x, rest, 31, n - 1);
      BackwardStep(key, n);
      PowerUp(31, n);
      Round32(BackwardHash(key, n), BackwardHash(key, n - 1), x, low, LowFirst([x] + rest, 31, n), |key|, power,
              Power(31, n));
    }
  }

  /** One more byte in a sum of 32 bits. */
  lemma Round32(after: int, before: int, x: nat, low: nat, sum: nat, size: nat, power: nat, above: nat)
    requires after % TWO_32 == (before * 31 + x) % TWO_32
    requires before % TWO_32 == (low + size * power) % TWO_32 && sum == x + 31 * low && above == 31 * power
    ensures after % TWO_32 == (sum + size * above) % TWO_32
  {
    Step32(before, low + size * power, x);
    Spread(31, low, size, power);
  }

  lemma Round64(after: int, before: int, x: nat, high: nat, sum: nat, size: nat, power: nat, above: nat)
    requires after % TWO_64 == (before * 37 + x) % TWO_64
    requires before % TWO_64 == (high + size * power) % TWO_64 && sum == 37 * high + x && above == 37 * power
    ensures after % TWO_64 == (sum + size * above) % TWO_64
  {
    Step64(before, high + size * power, x);
    Spread(37, high, size, power);
  }

  lemma BackwardStep(key: Bytes, n: nat)
    requires 0 < n <= |key|
    ensures BackwardHash(key, n) % TWO_32 == (BackwardHash(key, n - 1) * 31 + key[|key| - n]) % TWO_32
  {
  }

  lemma ForwardStep(key: Bytes, n: nat)
    requires 0 < n <= |key|
    ensures ForwardHash(key, n) % TWO_64 == (ForwardHash(key, n - 1) * 37 + key[n - 1]) % TWO_64
  {
  }

  lemma PowerUp(base: nat, n: nat)
    requires n > 0
    ensures Power(base, n) == base * Power(base, n - 1)
  {
  }

  lemma {:induction false} ForwardSum(key: Bytes, n: nat)
    requires n <= |key|
    ensures ForwardHash(key, n) % TWO_64 == (HighFirst(key[..n], 37, n) + |key| * Power(37, n)) % TWO_64
  {
    if n > 0 {
      hide HighFirst, Power, ForwardHash;
      ForwardSum(key, n - 1);
      var x, front := key[n - 1], key[..n - 1];
      var high, power := HighFirst(front, 37, n - 1), Power(37, n - 1);
      assert key[..n] == front + [x];
      HighShift(front, x, 37, n - 1);
      ForwardStep(key, n);
      PowerUp(37, n);
      Round64(ForwardHash(key, n), ForwardHash(key, n - 1), x, high, HighFirst(front + [x], 37, n), |key|, power,
              Power(37, n));
    }
  }

  lemma Spread(base: nat, sum: nat, size: nat, power: nat)
    ensures base * (sum + size * power) == base * sum + size * (base * power)
  {
  }

  /** One round of a hash loop commutes with reducing. */
  lemma Step32(h: int, sum: int, x: int)
    requires h % TWO_32 == sum % TWO_32
    ensures (h * 31 + x) % TWO_32 == (31 * sum + x) % TWO_32
  {
    var q := h / TWO_32 - sum / TWO_32;
    assert h * 31 + x == 31 * sum + x + TWO_32 * (31 * q);
  }

  lemma Step64(h: int, sum: int, x: int)
    requires h % TWO_64 == sum % TWO_64
    ensures (h * 37 + x) % TWO_64 == (37 * sum + x) % TWO_64
  {
    var q := h / TWO_64 - sum / TWO_64;
    assert h * 37 + x == 37 * sum + x + TWO_64 * (37 * q);
  }

  lemma {:induction false} LowShift(x: Byte, d: Bytes, base: nat, n: nat)
    requires n <= |d|
    ensures LowFirst([x] + d, base, n + 1) == x + base * LowFirst(d, base, n)
  {
    var all := [x] + d;
    if n == 0 {
      assert LowFirst(all, base, 1) == LowFirst(all, base, 0) + all[0] * Power(base, 0);
    } else {
      LowShift(x, d, base, n - 1);
      assert all[n] == d[n - 1];
      Scale(base, LowFirst(d, base, n - 1), d[n - 1], Power(base, n - 1));
    }
  }

  lemma Scale(base: nat, sum: nat, x: nat, power: nat)
    ensures base * (sum + x * power) == base * sum + x * (base * power)
  {
  }

  lemma {:induction false} HighShift(d: Bytes, x: Byte, base: nat, n: nat)
    requires n <= |d|
    ensures HighFirst(d + [x], base, n) == base * HighFirst(d, base, n)
    ensures n == |d| ==> HighFirst(d + [x], base, n + 1) == base * HighFirst(d, base, n) + x
  {
    var all := d + [x];
    if n > 0 {
      HighShift(d, x, base, n - 1);
      assert all[n - 1] == d[n - 1];
      assert Power(base, |all| - n) == base * Power(base, |d| - n);
      Scale(base, HighFirst(d, base, n - 1), d[n - 1], Power(base, |d| - n));
    }
  }
}
