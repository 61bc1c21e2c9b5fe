/** The fixedbits argument of the bucket walks: keys that share their leading bits with the start key. */
module KeyRange {
  import opened ByteOrder
  import opened Numbers

  function Pow2(n: nat): (p: nat)
    ensures p > 0
  {
    if n == 0 then 1 else 2 * Pow2(n - 1)
  }

  /** Bitwise and. */
  function And(x: nat, y: nat): nat {
    if x == 0 || y == 0 then 0 else (x % 2) * (y % 2) + 2 * And(x / 2, y / 2)
  }

  /** bytesmask: how many bytes the fixed bits touch, and the mask for the last of them. */
  function BytesMask(fixedbits: nat): (nat, nat) {
    var shiftbits := fixedbits % 8;
    ((fixedbits + 7) / 8, if shiftbits != 0 then (0xff * Pow2(8 - shiftbits)) % 256 else 0xff)
  }

  /** The test that Walk and WalkAsOf make on every key. */
  predicate Fits(key: Bytes, startkey: Bytes, fixedbits: nat)
    requires fixedbits <= 8 * |startkey| && fixedbits <= 8 * |key|
  {
    var (fixedbytes, mask) := BytesMask(fixedbits);
    fixedbits == 0 ||
    (key[..fixedbytes - 1] == startkey[..fixedbytes - 1] &&
     And(key[fixedbytes - 1], mask) == And(startkey[fixedbytes - 1], mask))
  }

  function ByteBit(x: nat, i: nat): nat
    requires i < 8
  {
    x / Pow2(7 - i) % 2
  }

  /** Bit i of a key, counted from the most significant bit of its first byte. */
  function Bit(key: Bytes, i: nat): nat
    requires i < 8 * |key|
  {
    ByteBit(key[i / 8], i % 8)
  }

  ghost predicate Agree(key: Bytes, startkey: Bytes, fixedbits: nat)
    requires fixedbits <= 8 * |startkey| && fixedbits <= 8 * |key|
  {
    forall i :: 0 <= i < fixedbits ==> Bit(key, i) == Bit(startkey, i)
  }

  lemma {:induction false} AndOnes(x: nat, n: nat)
    requires x < Pow2(n)
    ensures And(x, Pow2(n) - 1) == x
  {
    if n > 0 {
      AndOnes(x / 2, n - 1);
      var p := Pow2(n - 1);
      assert (2 * p - 1) / 2 == p - 1 && (2 * p - 1) % 2 == 1;
      AndStep(x, 2 * p - 1);
    }
  }

  lemma AndStep(x: nat, y: nat)
    ensures And(x, y) == (x % 2) * (y % 2) + 2 * And(x / 2, y / 2)
  {
  }

  lemma {:induction false} AndHigh(x: nat, n: nat, j: nat)
    requires x < Pow2(n) && j <= n
    ensures Pow2(j) <= Pow2(n)
    ensures And(x, Pow2(n) - Pow2(j)) == x - x % Pow2(j)
  {
    if j == 0 {
      AndOnes(x, n);
    } else {
      AndHigh(x / 2, n - 1, j - 1);
      var p := Pow2(j - 1);
      assert (Pow2(n) - Pow2(j)) / 2 == Pow2(n - 1) - p;
      ModEven(x, p);
      if x == 0 || Pow2(n) == Pow2(j) {
        assert x % Pow2(j) == x by {
          SmallMod(x, Pow2(j));
        }
      }
    }
  }

  lemma SmallMod(x: nat, p: nat)
    requires x < p
    ensures x % p == x && x / p == 0
  {
  }

  lemma ModEven(x: nat, p: nat)
    requires p > 0
    ensures x % (2 * p) == 2 * (x / 2 % p) + x % 2
    ensures x / 2 / p == x / (2 * p)
  {
    var y := x / 2;
    var q, r := y / p, y % p;
    assert y == p * q + r;
    QuotientUnique(x, 2 * p, q, 2 * r + x % 2);
  }

  lemma QuotientsAgree(x: nat, y: nat, d: nat)
    requires d > 0
    ensures x - x % d == y - y % d <==> x / d == y / d
  {
    assert x - x % d == d * (x / d) && y - y % d == d * (y / d);
    var a, b := x / d, y / d;
    assert a < b ==> d * (a + 1) <= d * b;
    assert b < a ==> d * (b + 1) <= d * a;
  }

  /** Where the fixed bits end: index of the last byte they touch, and the divisor that drops its free bits. */
  ghost function Boundary(fixedbits: nat): (nat, nat)
    requires fixedbits > 0
  {
    ((fixedbits - 1) / 8, Pow2(7 - (fixedbits - 1) % 8))
  }

  lemma MaskIsDivision(fixedbits: nat, x: Byte, y: Byte)
    requires fixedbits > 0
    ensures var (last, d) := Boundary(fixedbits);
      d > 0 && (And(x, BytesMask(fixedbits).1) == And(y, BytesMask(fixedbits).1) <==> x / d == y / d)
  {
    var j := 7 - (fixedbits - 1) % 8;
    MaskShift(fixedbits);
    MaskedByte(x, j);
    MaskedByte(y, j);
    QuotientsAgree(x, y, Pow2(j));
  }

  lemma MaskShift(fixedbits: nat)
    requires fixedbits > 0
    ensures BytesMask(fixedbits).1 == (0xff * Pow2(7 - (fixedbits - 1) % 8)) % 256
  {
    if fixedbits % 8 == 0 {
      assert 7 - (fixedbits - 1) % 8 == 0;
    } else {
      assert 7 - (fixedbits - 1) % 8 == 8 - fixedbits % 8;
    }
  }

  lemma MaskedByte(x: Byte, j: nat)
    requires j < 8
    ensures And(x, (0xff * Pow2(j)) % 256) == x - x % Pow2(j)
  {
    assert Pow2(8) == 256 by {
      assert Pow2(4) == 16;
    }
    AndHigh(x, 8, j);
    MaskValue(j);
  }

  lemma MaskValue(j: nat)
    requires j < 8
    ensures (0xff * Pow2(j)) % 256 == 256 - Pow2(j)
  {
    assert Pow2(3) == 8 && Pow2(4) == 16;
    assert Pow2(7) == 8 * Pow2(4);
    assert j in {0, 1, 2, 3, 4, 5, 6, 7};
  }

  lemma FitsByDivision(key: Bytes, startkey: Bytes, fixedbits: nat)
    requires 0 < fixedbits <= 8 * |startkey| && fixedbits <= 8 * |key|
    ensures var (last, d) := Boundary(fixedbits);
      last < |startkey| && last < |key| && d > 0 &&
      (Fits(key, startkey, fixedbits) <==> key[..last] == startkey[..last] && key[last] / d == startkey[last] / d)
  {
    var (last, d) := Boundary(fixedbits);
    assert BytesMask(fixedbits).0 - 1 == last;
    MaskIsDivision(fixedbits, key[last], startkey[last]);
  }

  /** The keys that fit form an interval: whatever lies between the start key and a fitting key fits. */
  lemma FitsConvex(key: Bytes, between: Bytes, startkey: Bytes, fixedbits: nat)
    requires fixedbits <= 8 * |startkey| && fixedbits <= 8 * |key| && fixedbits <= 8 * |between|
    requires Fits(key, startkey, fixedbits)
    requires !Less(between, startkey) && !Less(key, between)
    ensures Fits(between, startkey, fixedbits)
  {
    if fixedbits > 0 {
      var (last, d) := Boundary(fixedbits);
      FitsByDivision(key, startkey, fixedbits);
      FitsByDivision(between, startkey, fixedbits);
      SplitCompare(startkey, between, last);
      SplitCompare(between, key, last);
      LessTotal(startkey[..last], between[..last]);
      DivisionMonotone(startkey[last], between[last], d);
      DivisionMonotone(between[last], key[last], d);
    }
  }

  /** Comparing two strings at a position that both reach. */
  lemma SplitCompare(a: Bytes, b: Bytes, i: nat)
    requires i < |a| && i < |b| && !Less(b, a)
    ensures !Less(b[..i], a[..i])
    ensures a[..i] == b[..i] ==> a[i] <= b[i]
  {
    assert a == a[..i] + a[i..] && b == b[..i] + b[i..];
    LessConcat(b[..i], a[..i], b[i..], a[i..]);
  }

  lemma DivisionMonotone(x: nat, y: nat, d: nat)
    requires d > 0 && x <= y
    ensures x / d <= y / d
  {
    var a, b := x / d, y / d;
    assert b < a ==> d * (b + 1) <= d * a;
  }

  ghost predicate BitsAgree(x: nat, y: nat, s: nat)
    requires s <= 8
  {
    forall i :: 0 <= i < s ==> ByteBit(x, i) == ByteBit(y, i)
  }

  lemma {:induction false} HighBitsAgree(x: nat, y: nat, s: nat)
    requires s <= 8 && x < 256 && y < 256
    ensures x / Pow2(8 - s) == y / Pow2(8 - s) <==> BitsAgree(x, y, s)
  {
    hide Pow2, ByteBit;
    if s == 0 {
      Pow2Of8();
    } else {
      HighBitsAgree(x, y, s - 1);
      NextBit(x, s);
      NextBit(y, s);
      OneMoreBit(x, y, s);
    }
  }

  lemma Pow2Of8()
    ensures Pow2(8) == 256
  {
    assert Pow2(4) == 16;
  }

  lemma OneMoreBit(x: nat, y: nat, s: nat)
    requires 1 <= s <= 8
    ensures BitsAgree(x, y, s) <==> BitsAgree(x, y, s - 1) && ByteBit(x, s - 1) == ByteBit(y, s - 1)
  {
    hide ByteBit;
  }

  lemma NextBit(x: nat, s: nat)
    requires 1 <= s <= 8
    ensures x / Pow2(8 - s) == 2 * (x / Pow2(8 - (s - 1))) + ByteBit(x, s - 1) && 0 <= ByteBit(x, s - 1) <= 1
  {
    HalveQuotient(x, Pow2(8 - s));
  }

  lemma HalveQuotient(x: nat, p: nat)
    requires p > 0
    ensures x / p == 2 * (x / (2 * p)) + x / p % 2
  {
    var q := x / p;
    var r := x % p;
    assert p * q == (2 * p) * (q / 2) + p * (q % 2) by {
      assert p * q == p * (2 * (q / 2) + q % 2);
    }
    assert p * (q % 2) <= p;
    QuotientUnique(x, 2 * p, q / 2, p * (q % 2) + r);
  }

  /** The masked comparison means what its name says: the first fixedbits bits are equal. */
  lemma FitsIsAgreement(key: Bytes, startkey: Bytes, fixedbits: nat)
    requires fixedbits <= 8 * |startkey| && fixedbits <= 8 * |key|
    ensures Fits(key, startkey, fixedbits) <==> Agree(key, startkey, fixedbits)
  {
    if fixedbits > 0 {
      var (last, d) := Boundary(fixedbits);
      FitsByDivision(key, startkey, fixedbits);
      var s := fixedbits - 8 * last;
      assert d == Pow2(8 - s);
      HighBitsAgree(key[last], startkey[last], s);
      if Fits(key, startkey, fixedbits) {
        FittingBitsAgree(key, startkey, fixedbits, last, s);
      } else if Agree(key, startkey, fixedbits) {
        forall j | 0 <= j < last
          ensures key[j] == startkey[j]
        {
          AgreeingByte(key, startkey, fixedbits, j, 8);
        }
        assert key[..last] == startkey[..last];
        AgreeingByte(key, startkey, fixedbits, last, s);
        assert false;
      }
    }
  }

  lemma FittingBitsAgree(key: Bytes, startkey: Bytes, fixedbits: nat, last: nat, s: nat)
    requires fixedbits <= 8 * |startkey| && fixedbits <= 8 * |key|
    requires fixedbits == 8 * last + s && 1 <= s <= 8
    requires key[..last] == startkey[..last] && key[last] / Pow2(8 - s) == startkey[last] / Pow2(8 - s)
    ensures Agree(key, startkey, fixedbits)
  {
    HighBitsAgree(key[last], startkey[last], s);
    forall i | 0 <= i < fixedbits
      ensures Bit(key, i) == Bit(startkey, i)
    {
      if i / 8 < last {
        assert key[i / 8] == key[..last][i / 8] && startkey[i / 8] == startkey[..last][i / 8];
      } else {
        assert i / 8 == last && i % 8 < s;
      }
    }
  }

  lemma AgreeingByte(key: Bytes, startkey: Bytes, fixedbits: nat, j: nat, s: nat)
    requires fixedbits <= 8 * |startkey| && fixedbits <= 8 * |key|
    requires Agree(key, startkey, fixedbits)
    requires 1 <= s <= 8 && 8 * j + s <= fixedbits
    ensures key[j] / Pow2(8 - s) == startkey[j] / Pow2(8 - s)
  {
    forall i | 0 <= i < s
      ensures ByteBit(key[j], i) == ByteBit(startkey[j], i)
    {
      assert Bit(key, 8 * j + i) == Bit(startkey, 8 * j + i);
      assert (8 * j + i) / 8 == j && (8 * j + i) % 8 == i;
    }
    HighBitsAgree(key[j], startkey[j], s);
  }

  lemma NothingFixed(key: Bytes, startkey: Bytes)
    ensures Fits(key, startkey, 0)
  {
  }

  /** Fixing all bits of the start key asks for its extensions. */
  lemma AgreeIsPrefix(key: Bytes, startkey: Bytes)
    requires |startkey| <= |key|
    ensures Agree(key, startkey, 8 * |startkey|) <==> HasPrefix(key, startkey)
  {
    hide Fits, Agree;
    FitsIsAgreement(key, startkey, 8 * |startkey|);
    if startkey == [] {
      assert Fits(key, startkey, 0) by { NothingFixed(key, startkey); }
    } else {
      FitsByDivision(key, startkey, 8 * |startkey|);
      var last := |startkey| - 1;
      assert Boundary(8 * |startkey|) == (last, 1);
      assert startkey == startkey[..last] + [startkey[last]];
      assert key[..|startkey|] == key[..last] + [key[last]];
    }
  }
}
