/** The variable-length number macros of lib/libdict/myconf.h. A number is written seven bits
    at a time, low bits first; every byte but the last is stored as -rem - 1, so it is negative
    as a signed char. Bytes are kept unsigned here: -rem - 1 is the byte 255 - rem. */
module Varint {
  import opened KeyOrder

  const INT_LIMIT: int := 0x8000_0000
  const LONG_LIMIT: int := 0x8000_0000_0000_0000

  function Signed(b: Byte): int { if b < 128 then b else b - 256 }

  /** The bytes of n, as a function. */
  function Encode(n: nat): (s: Bytes)
    ensures |s| >= 1
  {
    if n < 128 then [n] else [255 - n % 128] + Encode(n / 128)
  }

  function Length(n: nat): (len: nat) { |Encode(n)| }

  /** Does s start with a complete number, that is, is some byte of it non-negative? */
  predicate Complete(s: Bytes) {
    s != [] && (Signed(s[0]) >= 0 || Complete(s[1..]))
  }

  /** The number at the start of s. */
  function Decode(s: Bytes): (n: nat)
    requires Complete(s)
  {
    if Signed(s[0]) >= 0 then s[0] else (255 - s[0]) + 128 * Decode(s[1..])
  }

  /** How many bytes that number takes. */
  function Step(s: Bytes): (k: nat)
    requires Complete(s)
    ensures 1 <= k <= |s|
  {
    if Signed(s[0]) >= 0 then 1 else 1 + Step(s[1..])
  }

  function Pow128(k: nat): (p: nat)
    ensures p >= 1
  {
    if k == 0 then 1 else 128 * Pow128(k - 1)
  }

  // ---------- properties of the format ----------

  /** Reading back what was written gives the number and consumes exactly its bytes, whatever
      follows them. */
  lemma {:induction false} RoundTrip(n: nat, rest: Bytes)
    ensures Complete(Encode(n) + rest)
    ensures Decode(Encode(n) + rest) == n
    ensures Step(Encode(n) + rest) == Length(n)
  {
    if n >= 128 {
      RoundTrip(n / 128, rest);
      assert (Encode(n) + rest)[1..] == Encode(n / 128) + rest;
    }
  }

  /** A number takes k bytes or fewer exactly when it is below 128^k. */
  lemma {:induction false} LengthBound(n: nat, k: nat)
    requires k >= 1
    ensures Length(n) <= k <==> n < Pow128(k)
  {
    if n >= 128 {
      if k > 1 {
        LengthBound(n / 128, k - 1);
        assert n < 128 * Pow128(k - 1) <==> n / 128 < Pow128(k - 1);
      } else {
        assert Pow128(1) == 128 * Pow128(0);
      }
    } else {
      assert Pow128(k) == 128 * Pow128(k - 1);
    }
  }

  /** An int takes at most 5 bytes, a long long at most 9. */
  lemma LengthLimits(n: nat)
    ensures n < INT_LIMIT ==> Length(n) <= 5
    ensures n < LONG_LIMIT ==> Length(n) <= 9
  {
    LengthBound(n, 5);
    LengthBound(n, 9);
    assert Pow128(5) == 0x8_0000_0000 by {
      assert Pow128(3) == 0x20_0000;
    }
    assert Pow128(9) == LONG_LIMIT by {
      assert Pow128(3) == 0x20_0000;
      assert Pow128(6) == 0x20_0000 * 0x20_0000;
    }
  }

  /** The first byte is zero only for the number zero. */
  lemma ZeroByteIsZero(n: nat)
    ensures Encode(n)[0] == 0 <==> n == 0
  {
  }

  // ---------- the macros as loops over a buffer ----------

  /** What TC_SETVNUMBUF writes for an unsigned argument of `limit`'s width: the value is first
      converted to the signed type, and a negative value writes nothing at all. */
  function Written(num: nat, limit: nat): (s: Bytes)
    ensures num < limit ==> |s| >= 1
    ensures num >= limit ==> s == []
  {
    if num < limit then Encode(num) else []
  }

  /** The bytes still to be written when the macro's loop variable is n. */
  ghost function Remaining(n: int): Bytes { if n > 0 then Encode(n) else [] }

  /** One round of the macro's loop writes the next byte of what remains. */
  lemma NextByte(target: Bytes, len: nat, n: int)
    requires n > 0 && len <= |target| && target[len..] == Remaining(n)
    ensures len < |target| && target[len] == (if n / 128 > 0 then 255 - n % 128 else n % 128)
    ensures target[len + 1..] == Remaining(n / 128)
  {
    assert target[len + 1..] == target[len..][1..];
  }

  lemma ZeroAlone(n: nat)
    ensures n == 0 ==> Encode(n) == [0]
  {
  }

  /** TC_SETVNUMBUF (limit = INT_LIMIT) and TC_SETVNUMBUF64 (limit = LONG_LIMIT) at buf + pos. */
  method SetVNum(buf: array<Byte>, pos: nat, num: nat, limit: nat) returns (len: nat)
    requires limit == INT_LIMIT || limit == LONG_LIMIT
    requires num < 2 * limit
    requires pos + |Written(num, limit)| <= buf.Length
    modifies buf
    ensures len == |Written(num, limit)|
    ensures buf[..] == old(buf[..])[..pos] + Written(num, limit) + old(buf[..])[pos + len..]
  {
    hide Encode;
    ghost var target := Written(num, limit);
    ZeroAlone(num);
    var n: int := if num < limit then num else num - 2 * limit;
    len := 0;
    if n == 0 {
      buf[pos] := 0;
      len := 1;
    } else {
      while n > 0
        invariant len <= |target| && target[len..] == Remaining(n)
        invariant forall k :: 0 <= k < len ==> buf[pos + k] == target[k]
        invariant forall k :: 0 <= k < pos || pos + len <= k < buf.Length ==> buf[k] == old(buf[k])
        decreases n
      {
        NextByte(target, len, n);
        var rem := n % 128;
        n := n / 128;
        if n > 0 {
          buf[pos + len] := 255 - rem;
        } else {
          buf[pos + len] := rem;
        }
        len := len + 1;
      }
    }
    Assembled(old(buf[..]), buf[..], pos, target);
  }

  lemma Assembled(was: Bytes, now: Bytes, pos: nat, part: Bytes)
    requires |now| == |was| && pos + |part| <= |was|
    requires forall k :: 0 <= k < |part| ==> now[pos + k] == part[k]
    requires forall k :: 0 <= k < pos || pos + |part| <= k < |was| ==> now[k] == was[k]
    ensures now == was[..pos] + part + was[pos + |part|..]
  {
  }

  /** TC_READVNUMBUF and TC_READVNUMBUF64 at buf + pos. */
  method ReadVNum(buf: array<Byte>, pos: nat) returns (num: nat, step: nat)
    requires pos <= buf.Length && Complete(buf[pos..])
    ensures num == Decode(buf[pos..]) && step == Step(buf[pos..])
  {
    hide Decode, Step, Complete;
    num := 0;
    var base: nat := 1;
    var i := 0;
    FirstByte(buf[pos..]);
    while Signed(buf[pos + i]) < 0
      invariant pos + i < buf.Length && Complete(buf[pos + i..])
      invariant num + base * Decode(buf[pos + i..]) == Decode(buf[pos..])
      invariant i + Step(buf[pos + i..]) == Step(buf[pos..])
      decreases buf.Length - i
    {
      var digit: nat := -(Signed(buf[pos + i]) + 1);
      assert buf[pos + i..][1..] == buf[pos + i + 1..];
      MoreBytes(buf[pos + i..]);
      Distribute(base, digit, Decode(buf[pos + i + 1..]));
      num := num + base * digit;
      base := base * 128;
      i := i + 1;
      FirstByte(buf[pos + i..]);
    }
    FirstByte(buf[pos + i..]);
    num := num + Signed(buf[pos + i]) * base;
    step := i + 1;
  }

  /** A number has a first byte; a non-negative one is the whole number. */
  lemma FirstByte(s: Bytes)
    requires Complete(s)
    ensures s != [] && (Signed(s[0]) >= 0 ==> Decode(s) == Signed(s[0]) && Step(s) == 1)
  {
  }

  /** A negative first byte is one digit; the rest of the number counts 128 times as much. */
  lemma MoreBytes(s: Bytes)
    requires Complete(s) && s != [] && Signed(s[0]) < 0
    ensures Complete(s[1..]) && Step(s) == 1 + Step(s[1..])
    ensures Decode(s) == -(Signed(s[0]) + 1) + 128 * Decode(s[1..])
  {
  }

  lemma Distribute(base: nat, digit: nat, d: nat)
    ensures base * (digit + 128 * d) == base * digit + base * 128 * d
    ensures base * digit >= 0
  {
  }

  /** The bytes by position: byte i holds the seven bits from 7i on. Every byte but the last is negative
      as a signed char, being their complement. */
  lemma {:induction false} EncodedBytes(n: nat, i: nat)
    requires i < Length(n)
    ensures i + 1 < Length(n) ==> Encode(n)[i] == 255 - n / Pow128(i) % 128 && Signed(Encode(n)[i]) < 0
    ensures i + 1 == Length(n) ==> Encode(n)[i] == n / Pow128(i) < 128 && Signed(Encode(n)[i]) >= 0
  {
    if n >= 128 && i > 0 {
      EncodedBytes(n / 128, i - 1);
      assert Encode(n)[i] == Encode(n / 128)[i - 1];
      DivideTwice(n, Pow128(i - 1));
    }
  }

  lemma DivideTwice(n: nat, p: nat)
    requires p > 0
    ensures 128 * p > 0 && n / 128 / p == n / (128 * p)
  {
    var q := n / 128 / p;
    var r := n / 128 % p;
    assert n / 128 == p * q + r;
    var s := 128 * r + n % 128;
    assert n == 128 * (p * q + r) + n % 128 == 128 * (p * q) + s;
    assert 0 <= s < 128 * p;
    Regroup(p, q);
    QuotientIs(n, 128 * p, q, s);
  }

  lemma Regroup(p: nat, q: nat)
    ensures 128 * (p * q) == 128 * p * q
  {
  }

  lemma QuotientIs(n: nat, m: nat, q: nat, s: nat)
    requires n == m * q + s && s < m
    ensures n / m == q
  {
    DivMod(n, m);
    var d := n / m;
    if d > q {
      Beyond(m, d, q);
    } else if d < q {
      Beyond(m, q, d);
    }
  }

  lemma DivMod(n: nat, m: nat)
    requires m > 0
    ensures n == m * (n / m) + n % m && n % m < m
  {
  }

  lemma {:induction false} Beyond(m: nat, d: nat, q: nat)
    requires d > q
    ensures m * d >= m * q + m
    decreases d
  {
    if d > q + 1 { Beyond(m, d - 1, q); }
    OneMore(m, d - 1);
  }

  lemma OneMore(m: nat, k: nat)
    ensures m * (k + 1) == m * k + m
  {
  }
}
