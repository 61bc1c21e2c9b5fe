/** ethdb/encoding.go: block numbers as self-delimiting, order-preserving byte strings. */
module Encoding {
  import opened Options
  import opened ByteOrder
  import opened Numbers

  const U64_LIMIT: nat := 0x1_0000_0000_0000_0000
  type Uint64 = t: nat | t < U64_LIMIT

  /** Below this, encodings carry their own length: the three tag bits hold at most 7. */
  const TIMESTAMP_LIMIT: nat := 0x20_0000_0000_0000

  /** ethdb/walk.go: sorts after every encoding. */
  const END_SUFFIX: Bytes := [0xff, 0xff, 0xff, 0xff, 0xff, 0xff, 0xff, 0xff]

  function Pow256(n: nat): (p: nat)
    ensures p > 0
  {
    if n == 0 then 1 else 256 * Pow256(n - 1)
  }

  /** The n low-order bytes of v, most significant first. */
  function BigEndian(n: nat, v: nat): (s: Bytes)
    ensures |s| == n
  {
    if n == 0 then [] else BigEndian(n - 1, v / 256) + [v % 256]
  }

  /** The value of the digits s appended to the number acc. */
  function FromBigEndian(acc: nat, s: Bytes): nat
    decreases |s|
  {
    if s == [] then acc else FromBigEndian(256 * acc + s[0], s[1..])
  }

  lemma {:induction false} BigEndianOrder(n: nat, u: nat, v: nat)
    requires u < v < Pow256(n)
    ensures Less(BigEndian(n, u), BigEndian(n, v))
  {
    if u / 256 < v / 256 {
      BigEndianOrder(n - 1, u / 256, v / 256);
    }
    LessConcat(BigEndian(n - 1, u / 256), BigEndian(n - 1, v / 256), [u % 256], [v % 256]);
  }

  lemma {:induction false} FromBigEndianAppend(acc: nat, s: Bytes, b: Byte)
    ensures FromBigEndian(acc, s + [b]) == 256 * FromBigEndian(acc, s) + b
    decreases |s|
  {
    if s != [] {
      assert (s + [b])[1..] == s[1..] + [b];
      FromBigEndianAppend(256 * acc + s[0], s[1..], b);
    }
  }

  lemma {:induction false} FromBigEndianInverts(acc: nat, n: nat, v: nat)
    requires v < Pow256(n)
    ensures FromBigEndian(acc, BigEndian(n, v)) == acc * Pow256(n) + v
  {
    hide Pow256, BigEndian, FromBigEndian;
    if n == 0 {
      EmptyWord(acc, v);
    } else {
      LastDigit(n, v);
      FromBigEndianInverts(acc, n - 1, v / 256);
      FromBigEndianAppend(acc, BigEndian(n - 1, v / 256), v % 256);
      ShiftedWord(acc, Pow256(n - 1), v);
    }
  }

  lemma EmptyWord(acc: nat, v: nat)
    requires v < Pow256(0)
    ensures FromBigEndian(acc, BigEndian(0, v)) == acc * Pow256(0) + v
  {
  }

  lemma LastDigit(n: nat, v: nat)
    requires n > 0
    ensures BigEndian(n, v) == BigEndian(n - 1, v / 256) + [v % 256] && Pow256(n) == 256 * Pow256(n - 1)
    ensures v < Pow256(n) ==> v / 256 < Pow256(n - 1)
  {
    hide BigEndian;
    DigitOf(n, v);
  }

  lemma DigitOf(n: nat, v: nat)
    requires n > 0
    ensures BigEndian(n, v) == BigEndian(n - 1, v / 256) + [v % 256]
  {
  }

  /** Horner's step, on plain numbers. */
  lemma ShiftedWord(acc: nat, p: nat, v: nat)
    ensures 256 * (acc * p + v / 256) + v % 256 == acc * (256 * p) + v
  {
    assert acc * (256 * p) == 256 * (acc * p);
  }

  lemma {:induction false} FromBigEndianBound(acc: nat, s: Bytes)
    ensures FromBigEndian(acc, s) < (acc + 1) * Pow256(|s|)
    decreases |s|
  {
    if s != [] {
      FromBigEndianBound(256 * acc + s[0], s[1..]);
      BoundStep(acc, s[0], Pow256(|s| - 1));
    }
  }

  lemma BoundStep(acc: nat, b: Byte, p: nat)
    ensures (256 * acc + b + 1) * p <= (acc + 1) * (256 * p)
  {
    assert (256 * acc + b + 1) * p <= (256 * acc + 256) * p;
  }

  lemma Powers()
    ensures Pow256(0) == 1 && Pow256(1) == 0x100 && Pow256(2) == 0x1_0000
    ensures Pow256(3) == 0x100_0000 && Pow256(4) == 0x1_0000_0000
    ensures Pow256(5) == 0x100_0000_0000 && Pow256(6) == 0x1_0000_0000_0000
    ensures Pow256(7) == 0x100_0000_0000_0000
  {
    assert Pow256(2) == 256 * Pow256(1);
    assert Pow256(4) == 256 * Pow256(3);
    assert Pow256(6) == 256 * Pow256(5);
  }

  /** The number of bytes the encoding of t takes; 0 when eight bytes leave no room for the tag. */
  function ByteCount(t: Uint64): (n: nat)
    ensures n <= 8
    ensures t < TIMESTAMP_LIMIT <==> 1 <= n <= 7
    ensures 1 <= n ==> t < 32 * Pow256(n - 1)
    ensures 2 <= n ==> 32 * Pow256(n - 2) <= t
    ensures n == 0 ==> 32 * Pow256(7) <= t
  {
    Powers();
    if t < 0x20 then 1
    else if t < 0x2000 then 2
    else if t < 0x20_0000 then 3
    else if t < 0x2000_0000 then 4
    else if t < 0x20_0000_0000 then 5
    else if t < 0x2000_0000_0000 then 6
    else if t < 0x20_0000_0000_0000 then 7
    else if t < 0x2000_0000_0000_0000 then 8
    else 0
  }

  /** The tag of byte(bytecount) << 5, which is lost for eight bytes, over the digits of t above p. */
  function Tagged(n: nat, t: Uint64, p: nat): Byte
    requires p > 0 && t < 32 * p
  {
    DivisionBelow(t, 32, p);
    t / p + (32 * n) % 256
  }

  function FirstByte(n: nat, t: Uint64): Byte
    requires 1 <= n <= 8 && t < 32 * Pow256(n - 1)
  {
    Tagged(n, t, Pow256(n - 1))
  }

  /** What encodeTimestamp returns. */
  function Enc(t: Uint64): Bytes {
    var n := ByteCount(t);
    if n == 0 then [] else [FirstByte(n, t)] + BigEndian(n - 1, t % Pow256(n - 1))
  }

  method EncodeTimestamp(timestamp: Uint64) returns (suffix: Bytes)
    ensures suffix == Enc(timestamp)
  {
    hide Pow256, Enc, FirstByte, BigEndian, ByteCount;
    FirstLimit();
    suffix := [];
    var limit: nat := 32;
    var bytecount := 1;
    while bytecount <= 8
      invariant 1 <= bytecount <= 9
      invariant bytecount <= 8 ==> limit == 32 * Pow256(bytecount - 1)
      invariant suffix == []
      invariant bytecount > 1 ==> 32 * Pow256(bytecount - 2) <= timestamp
      decreases 9 - bytecount
    {
      if timestamp < limit {
        var buffer := FillSuffix(bytecount, timestamp);
        suffix := buffer[..];
        CountIsUnique(bytecount, timestamp);
        EncIs(bytecount, timestamp);
        return;
      }
      NextLimit(bytecount);
      limit := (limit * 256) % U64_LIMIT;
      bytecount := bytecount + 1;
    }
    NoCount(timestamp);
  }

  lemma FirstLimit()
    ensures 32 * Pow256(0) == 32
  {
  }

  lemma NextLimit(n: nat)
    requires 1 <= n <= 8
    ensures n < 8 ==> (32 * Pow256(n - 1) * 256) % U64_LIMIT == 32 * Pow256(n)
  {
    Powers();
  }

  lemma EncIs(n: nat, t: Uint64)
    requires 1 <= n <= 8 && ByteCount(t) == n
    ensures t < 32 * Pow256(n - 1)
    ensures Enc(t) == [FirstByte(n, t)] + BigEndian(n - 1, t % Pow256(n - 1))
  {
    hide Pow256, BigEndian, Tagged;
  }

  lemma NoCount(t: Uint64)
    requires 32 * Pow256(7) <= t
    ensures Enc(t) == []
  {
    Powers();
    hide Pow256;
  }

  lemma CountIsUnique(n: nat, t: Uint64)
    requires 1 <= n <= 8 && t < 32 * Pow256(n - 1)
    requires n > 1 ==> 32 * Pow256(n - 2) <= t
    ensures ByteCount(t) == n
  {
    Powers();
  }

  /** The inner loop of encodeTimestamp: writes the digits from the last byte to the first. */
  method FillSuffix(bytecount: nat, timestamp: Uint64) returns (suffix: array<Byte>)
    requires 1 <= bytecount <= 8 && timestamp < 32 * Pow256(bytecount - 1)
    ensures fresh(suffix)
    ensures suffix[..] ==
      [FirstByte(bytecount, timestamp)] + BigEndian(bytecount - 1, timestamp % Pow256(bytecount - 1))
  {
    DivisionBelow(timestamp, 32, Pow256(bytecount - 1));
    hide *;
    suffix := new Byte[bytecount];
    NoDigits(timestamp);
    var b: nat := timestamp;
    var i := bytecount - 1;
    while i > 0
      invariant 0 <= i <= bytecount - 1 && suffix.Length == bytecount
      invariant b == timestamp / Pow256(bytecount - 1 - i)
      invariant suffix[i + 1..] == BigEndian(bytecount - 1 - i, timestamp % Pow256(bytecount - 1 - i))
    {
      ghost var done := suffix[i + 1..];
      NextDigit(timestamp, bytecount - 1 - i);
      suffix[i] := b % 256;
      b := b / 256;
      assert suffix[i..] == [suffix[i]] + done;
      i := i - 1;
    }
    TagAndDigit(bytecount, timestamp);
    // b < 32, so the tag bits are clear and the bitwise or is a sum
    suffix[0] := b + (32 * bytecount) % 256;
    assert suffix[..] == [suffix[0]] + suffix[1..];
  }

  lemma NoDigits(t: nat)
    ensures t / Pow256(0) == t && BigEndian(0, t % Pow256(0)) == []
  {
  }

  lemma TagAndDigit(n: nat, t: Uint64)
    requires 1 <= n <= 8 && t < 32 * Pow256(n - 1)
    ensures FirstByte(n, t) == t / Pow256(n - 1) + (32 * n) % 256
  {
  }

  lemma NextDigit(t: nat, j: nat)
    ensures t / Pow256(j) / 256 == t / Pow256(j + 1)
    ensures BigEndian(j + 1, t % Pow256(j + 1)) == [t / Pow256(j) % 256] + BigEndian(j, t % Pow256(j))
  {
    DigitSplit(t, Pow256(j));
    BigEndianPrepend(j, t / Pow256(j) % 256, t % Pow256(j));
  }

  lemma DigitSplit(t: nat, p: nat)
    requires p > 0
    ensures t / p / 256 == t / (256 * p)
    ensures t % (256 * p) == (t / p % 256) * p + t % p
  {
    var q := t / p;
    var d := q % 256;
    assert (256 * p) * (q / 256) == p * (256 * (q / 256));
    assert p * (256 * (q / 256)) + d * p == p * (256 * (q / 256) + d);
    assert d * p <= 255 * p;
    QuotientUnique(t, 256 * p, q / 256, d * p + t % p);
  }

  /** Putting a byte in front of a word commutes with taking its last byte off. */
  lemma PrependedWord(b: nat, v: nat, p: nat)
    ensures (b * (256 * p) + v) / 256 == b * p + v / 256 && (b * (256 * p) + v) % 256 == v % 256
  {
    assert b * (256 * p) == 256 * (b * p);
  }

  lemma {:induction false} BigEndianPrepend(n: nat, b: Byte, v: nat)
    requires v < Pow256(n)
    ensures BigEndian(n + 1, b * Pow256(n) + v) == [b] + BigEndian(n, v)
  {
    if n > 0 {
      BigEndianPrepend(n - 1, b, v / 256);
      PrependedWord(b, v, Pow256(n - 1));
      assert ([b] + BigEndian(n - 1, v / 256)) + [v % 256] == [b] + BigEndian(n, v);
    } else {
      assert BigEndian(1, b) == [b];
    }
  }

  /** decodeTimestamp's answer; None when it indexes past the end of its argument. */
  function Decode(s: Bytes): Option<(nat, Bytes)> {
    if s == [] || s[0] / 32 > |s| then None
    else if s[0] / 32 == 0 then Some((s[0] % 32, s))
    else Some((FromBigEndian(s[0] % 32, s[1..s[0] / 32]), s[s[0] / 32..]))
  }

  method DecodeTimestamp(suffix: Bytes) returns (r: Option<(nat, Bytes)>)
    ensures r == Decode(suffix)
  {
    if |suffix| == 0 {
      return None;
    }
    var bytecount := suffix[0] / 32;
    var timestamp: nat := suffix[0] % 32;
    var i := 1;
    while i < bytecount
      invariant 1 <= i <= |suffix|
      invariant if bytecount == 0 then i == 1 else i <= bytecount
      invariant timestamp == FromBigEndian(suffix[0] % 32, suffix[1..i])
    {
      if i == |suffix| {
        return None;
      }
      assert suffix[1..i + 1] == suffix[1..i] + [suffix[i]];
      FromBigEndianAppend(suffix[0] % 32, suffix[1..i], suffix[i]);
      timestamp := 256 * timestamp + suffix[i];
      i := i + 1;
    }
    assert suffix[0..] == suffix;
    r := Some((timestamp, suffix[bytecount..]));
  }

  /** Whatever follows an encoding, decoding recovers the block number and the remainder, exactly below 2^53. */
  lemma RoundTripExactly(t: Uint64, rest: Bytes)
    ensures Decode(Enc(t) + rest) == Some((t, rest)) <==> t < TIMESTAMP_LIMIT
  {
    if t < TIMESTAMP_LIMIT {
      RoundTrip(t, rest);
    } else {
      DecodeBound(Enc(t) + rest);
    }
  }

  /** An encoding below the limit as tag, five high bits and big-endian remainder. */
  lemma EncShape(t: Uint64) returns (n: nat, p: nat, high: nat, low: nat)
    requires t < TIMESTAMP_LIMIT
    ensures n == ByteCount(t) && 1 <= n <= 7 && p == Pow256(n - 1)
    ensures t == high * p + low && high < 32 && low < p
    ensures Enc(t) == [32 * n + high] + BigEndian(n - 1, low)
  {
    n := ByteCount(t);
    p := Pow256(n - 1);
    high, low := Divide(t, p);
    DivisionBelow(t, 32, p);
    TagBits(n);
  }

  lemma Divide(t: nat, p: nat) returns (q: nat, r: nat)
    requires p > 0
    ensures q == t / p && r == t % p && t == q * p + r && r < p
  {
    q, r := t / p, t % p;
  }

  lemma TagBits(n: nat)
    requires n <= 7
    ensures (32 * n) % 256 == 32 * n
  {
  }

  lemma RoundTrip(t: Uint64, rest: Bytes)
    requires t < TIMESTAMP_LIMIT
    ensures Decode(Enc(t) + rest) == Some((t, rest))
    ensures 1 <= |Enc(t)| <= 7
  {
    var n, p, high, low := EncShape(t);
    var s := Enc(t) + rest;
    assert s[0] == 32 * n + high;
    assert s[1..n] == BigEndian(n - 1, low);
    assert s[n..] == rest;
    FromBigEndianInverts(high, n - 1, low);
  }

  lemma DecodeBound(s: Bytes)
    ensures Decode(s).Some? ==> Decode(s).value.0 < TIMESTAMP_LIMIT
  {
    if Decode(s).Some? && s[0] / 32 > 0 {
      var n := s[0] / 32;
      FromBigEndianBound(s[0] % 32, s[1..n]);
      Powers();
      assert n - 1 in {0, 1, 2, 3, 4, 5, 6};
      assert (s[0] % 32 + 1) * Pow256(n - 1) <= 32 * Pow256(n - 1);
    }
  }

  /** Byte order is numeric order, whatever follows the two encodings. */
  lemma EncOrder(t: Uint64, u: Uint64, x: Bytes, y: Bytes)
    requires t < u < TIMESTAMP_LIMIT
    ensures Less(Enc(t) + x, Enc(u) + y)
  {
    var n, p, high, low := EncShape(t);
    var m, p', high', low' := EncShape(u);
    ByteCountMonotone(t, u);
    if n == m {
      DigitsOrder(p, high, low, high', low');
      if high == high' {
        BigEndianOrder(n - 1, low, low');
      }
      LessConcat([32 * n + high], [32 * m + high'], BigEndian(n - 1, low), BigEndian(n - 1, low'));
      LessConcat(Enc(t), Enc(u), x, y);
    } else {
      assert (Enc(t) + x)[0] < (Enc(u) + y)[0];
    }
  }

  lemma ByteCountMonotone(t: Uint64, u: Uint64)
    requires t < u < TIMESTAMP_LIMIT
    ensures ByteCount(t) <= ByteCount(u)
  {
  }

  lemma DigitsOrder(p: nat, high: nat, low: nat, high': nat, low': nat)
    requires low < p && low' < p && high * p + low < high' * p + low'
    ensures high < high' || (high == high' && low < low')
  {
    assert high' < high ==> (high' + 1) * p <= high * p;
  }

  /** The order lemma in both directions, for bare encodings. */
  lemma EncOrderIff(t: Uint64, u: Uint64)
    requires t < TIMESTAMP_LIMIT && u < TIMESTAMP_LIMIT
    ensures Less(Enc(t), Enc(u)) <==> t < u
    ensures Enc(t) == Enc(u) <==> t == u
  {
    assert Enc(t) + [] == Enc(t) && Enc(u) + [] == Enc(u);
    LessIrreflexive(Enc(t));
    if t < u {
      EncOrder(t, u, [], []);
      LessAsymmetric(Enc(t), Enc(u));
    } else if u < t {
      EncOrder(u, t, [], []);
      LessAsymmetric(Enc(u), Enc(t));
    }
  }

  /** No encoding is a prefix of another, so a suffix key splits in one way only. */
  lemma EncPrefixFree(t: Uint64, u: Uint64, x: Bytes, y: Bytes)
    requires t < TIMESTAMP_LIMIT && u < TIMESTAMP_LIMIT && Enc(t) + x == Enc(u) + y
    ensures t == u && x == y
  {
    RoundTrip(t, x);
    RoundTrip(u, y);
  }

  /** Every encoding sorts below END_SUFFIX. */
  lemma EncBelowEnd(t: Uint64)
    requires t < TIMESTAMP_LIMIT
    ensures Less(Enc(t), END_SUFFIX)
  {
    RoundTrip(t, []);
    BelowOnes(Enc(t), 8);
    assert END_SUFFIX == Ones(8) by {
      assert Ones(8) == [0xff, 0xff, 0xff, 0xff] + Ones(4);
    }
  }

  function Ones(n: nat): Bytes {
    if n == 0 then [] else [0xff] + Ones(n - 1)
  }

  lemma {:induction false} BelowOnes(s: Bytes, n: nat)
    requires |s| < n
    ensures Less(s, Ones(n))
  {
    if s != [] {
      assert Ones(n)[1..] == Ones(n - 1);
      BelowOnes(s[1..], n - 1);
    }
  }
}
