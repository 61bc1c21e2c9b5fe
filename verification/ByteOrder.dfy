/** Byte strings in the order of Go's bytes.Compare, which is the key order of every bucket. */
module ByteOrder {
  type Byte = b: int | 0 <= b < 256
  type Bytes = seq<Byte>

  /** bytes.Compare(a, b) < 0 */
  predicate Less(a: Bytes, b: Bytes) {
    if b == [] then false
    else if a == [] then true
    else if a[0] != b[0] then a[0] < b[0]
    else Less(a[1..], b[1..])
  }

  /** bytes.Compare */
  function Compare(a: Bytes, b: Bytes): int {
    if Less(a, b) then -1 else if a == b then 0 else 1
  }

  /** bytes.HasPrefix(s, p) */
  predicate HasPrefix(s: Bytes, p: Bytes) {
    |p| <= |s| && s[..|p|] == p
  }

  lemma {:induction false} LessIrreflexive(a: Bytes)
    ensures !Less(a, a)
  {
    if a != [] {
      LessIrreflexive(a[1..]);
    }
  }

  lemma {:induction false} LessTotal(a: Bytes, b: Bytes)
    ensures Less(a, b) || a == b || Less(b, a)
  {
    if a != [] && b != [] && a[0] == b[0] {
      LessTotal(a[1..], b[1..]);
      assert a == [a[0]] + a[1..] && b == [b[0]] + b[1..];
    }
  }

  lemma {:induction false} LessTransitive(a: Bytes, b: Bytes, c: Bytes)
    requires Less(a, b) && Less(b, c)
    ensures Less(a, c)
  {
    if a != [] && a[0] == b[0] == c[0] {
      LessTransitive(a[1..], b[1..], c[1..]);
    }
  }

  lemma LessAsymmetric(a: Bytes, b: Bytes)
    requires Less(a, b)
    ensures !Less(b, a) && a != b
  {
    LessIrreflexive(a);
    if Less(b, a) {
      LessTransitive(a, b, a);
    }
  }

  /** Strings that start with equally long keys are ordered by key first, then by what follows. */
  lemma {:induction false} LessConcat(a: Bytes, b: Bytes, x: Bytes, y: Bytes)
    requires |a| == |b|
    ensures Less(a + x, b + y) <==> Less(a, b) || (a == b && Less(x, y))
  {
    if a == [] {
      assert a + x == x && b + y == y;
    } else {
      assert (a + x)[1..] == a[1..] + x && (b + y)[1..] == b[1..] + y;
      assert a == [a[0]] + a[1..] && b == [b[0]] + b[1..];
      LessIrreflexive(a);
      LessConcat(a[1..], b[1..], x, y);
    }
  }

  /** A string sorts below each of its proper extensions. */
  lemma LessExtension(a: Bytes, x: Bytes)
    ensures Less(a, a + x) <==> x != []
  {
    assert a + [] == a;
    LessConcat(a, a, [], x);
    LessIrreflexive(a);
  }

  /** Nothing lies strictly between a string and its extension by a zero byte. */
  lemma {:induction false} ZeroSuccessor(a: Bytes, b: Bytes)
    ensures Less(a, b) <==> !Less(b, a + [0])
  {
    if a != [] && b != [] {
      assert (a + [0])[1..] == a[1..] + [0];
      ZeroSuccessor(a[1..], b[1..]);
    }
  }
}
