/** Buckets as sorted maps, their cursors, and the reads of ethdb/database.go that go through cursors. */
module Buckets {
  import opened Options
  import opened ByteOrder
  import opened Encoding
  import opened KeyRange
  import opened Numbers

  type Bucket = map<Bytes, Bytes>
  type Store = map<Bytes, Bucket>
  datatype Pair = Pair(key: Bytes, value: Bytes)

  /** What a walker callback answers: whether to go on, and whether it failed. */
  datatype Answer = Answer(goOn: bool, failed: bool)

  ghost predicate Ascending(s: seq<Pair>) {
    forall i, j :: 0 <= i < j < |s| ==> Less(s[i].key, s[j].key)
  }

  ghost function KeysOf(s: seq<Pair>): set<Bytes> {
    set p | p in s :: p.key
  }

  // Cursors

  lemma {:induction false} LeastExists(keys: set<Bytes>, target: Bytes)
    requires exists k :: k in keys && !Less(k, target)
    ensures exists k :: k in keys && !Less(k, target) && IsLeast(keys, target, k)
    decreases keys
  {
    var k :| k in keys && !Less(k, target);
    var rest := set x | x in keys && Less(x, k);
    LessIrreflexive(k);
    if exists x :: x in rest && !Less(x, target) {
      assert k in keys && k !in rest;
      LeastExists(rest, target);
      var m :| m in rest && !Less(m, target) && IsLeast(rest, target, m);
      forall x | x in keys && !Less(x, target)
        ensures !Less(x, m)
      {
        if Less(x, m) {
          LessTransitive(x, m, k);
        }
      }
      assert IsLeast(keys, target, m);
    } else {
      assert IsLeast(keys, target, k);
    }
  }

  predicate IsLeast(keys: set<Bytes>, target: Bytes, k: Bytes) {
    forall x :: x in keys && !Less(x, target) ==> !Less(x, k)
  }

  lemma LeastUnique(keys: set<Bytes>, target: Bytes)
    ensures forall k, m ::
      (k in keys && !Less(k, target) && IsLeast(keys, target, k) &&
       m in keys && !Less(m, target) && IsLeast(keys, target, m)) ==> k == m
  {
    forall k, m | k in keys && !Less(k, target) && IsLeast(keys, target, k) &&
                  m in keys && !Less(m, target) && IsLeast(keys, target, m)
      ensures k == m
    {
      LessTotal(k, m);
    }
  }

  /** Cursor.Seek and Cursor.SeekTo: the first key that is not below the target. */
  function Seek(keys: set<Bytes>, target: Bytes): (r: Option<Bytes>)
    ensures r.None? ==> forall k :: k in keys ==> Less(k, target)
    ensures r.Some? ==> r.value in keys && !Less(r.value, target) && IsLeast(keys, target, r.value)
  {
    if exists k :: k in keys && !Less(k, target) then
      LeastExists(keys, target);
      LeastUnique(keys, target);
      var k :| k in keys && !Less(k, target) && IsLeast(keys, target, k);
      Some(k)
    else
      None
  }

  /** Cursor.Next from position k: the first key above it. */
  function Next(keys: set<Bytes>, k: Bytes): (r: Option<Bytes>)
    ensures r.None? ==> forall x :: x in keys ==> !Less(k, x)
    ensures r.Some? ==> r.value in keys && Less(k, r.value)
    ensures r.Some? ==> forall x :: x in keys && Less(k, x) ==> !Less(x, r.value)
  {
    assert forall x :: x in keys ==> (Less(k, x) <==> !Less(x, k + [0])) by {
      forall x | x in keys
        ensures Less(k, x) <==> !Less(x, k + [0])
      {
        ZeroSuccessor(k, x);
      }
    }
    var r := Seek(keys, k + [0]);
    assert r.Some? ==> (Less(k, r.value) <==> !Less(r.value, k + [0])) by {
      if r.Some? { ZeroSuccessor(k, r.value); }
    }
    r
  }

  /** How many keys a cursor still has in front of it, itself included. */
  ghost function Remaining(keys: set<Bytes>, k: Option<Bytes>): nat {
    if k.None? then 0 else |set x | x in keys && !Less(x, k.value)|
  }

  lemma RemainingShrinks(keys: set<Bytes>, k: Bytes, next: Option<Bytes>)
    requires k in keys && (next.Some? ==> Less(k, next.value))
    ensures Remaining(keys, next) < Remaining(keys, Some(k))
  {
    var before := set x | x in keys && !Less(x, k);
    LessIrreflexive(k);
    assert k in before;
    if next.Some? {
      var after := set x | x in keys && !Less(x, next.value);
      forall x | x in after
        ensures x in before && x != k
      {
        if Less(x, k) { LessTransitive(x, k, next.value); }
      }
      assert after <= before - {k};
      SubsetSize(after, before - {k});
    } else {
      assert |before| > 0;
    }
  }

  lemma SeekShrinks(keys: set<Bytes>, k: Bytes, target: Bytes)
    requires k in keys && Less(k, target)
    ensures Remaining(keys, Seek(keys, target)) < Remaining(keys, Some(k))
  {
    var n := Seek(keys, target);
    if n.Some? {
      LessTotal(target, n.value);
      if target != n.value { LessTransitive(k, target, n.value); }
    }
    RemainingShrinks(keys, k, n);
  }

  // History

  /** compositeKeySuffix: the history key of a key changed in block t. */
  function Composite(key: Bytes, t: Uint64): Bytes {
    key + Enc(t)
  }

  /** Every key of a history bucket is a key of the fixed length l followed by a block number. */
  ghost predicate HistoryKeys(h: Bucket, l: nat) {
    forall hk :: hk in h ==> IsHistoryKey(hk, l)
  }

  ghost predicate IsHistoryKey(hk: Bytes, l: nat) {
    |hk| >= l && exists t: Uint64 :: t < TIMESTAMP_LIMIT && hk == Composite(hk[..l], t)
  }

  lemma SplitHistoryKey(hk: Bytes, l: nat) returns (key: Bytes, t: Uint64)
    requires IsHistoryKey(hk, l)
    ensures |key| == l && key == hk[..l] && t < TIMESTAMP_LIMIT && hk == Composite(key, t) && hk[l..] == Enc(t)
  {
    key := hk[..l];
    t :| t < TIMESTAMP_LIMIT && hk == Composite(hk[..l], t);
  }

  /** History keys are ordered by key, then by block. */
  lemma CompositeOrder(x: Bytes, t: Uint64, y: Bytes, u: Uint64)
    requires |x| == |y| && t < TIMESTAMP_LIMIT && u < TIMESTAMP_LIMIT
    ensures Less(Composite(x, t), Composite(y, u)) <==> Less(x, y) || (x == y && t < u)
    ensures Composite(x, t) == Composite(y, u) <==> x == y && t == u
  {
    LessConcat(x, y, Enc(t), Enc(u));
    EncOrderIff(t, u);
    if Composite(x, t) == Composite(y, u) {
      assert x == Composite(x, t)[..|x|] && y == Composite(y, u)[..|x|];
      assert Enc(t) == Composite(x, t)[|x|..] && Enc(u) == Composite(y, u)[|x|..];
    }
  }

  /** The first block from t on in which the key was changed, according to its history. */
  ghost function NextChange(h: Bucket, key: Bytes, t: Uint64): (r: Option<Uint64>)
    requires t <= TIMESTAMP_LIMIT
    ensures r.Some? ==> t <= r.value < TIMESTAMP_LIMIT && Composite(key, r.value) in h
    ensures r.Some? ==> forall u: Uint64 :: t <= u < r.value ==> Composite(key, u) !in h
    ensures r.None? ==> forall u: Uint64 :: t <= u < TIMESTAMP_LIMIT ==> Composite(key, u) !in h
    decreases TIMESTAMP_LIMIT - t
  {
    if t == TIMESTAMP_LIMIT then None
    else if Composite(key, t) in h then Some(t)
    else NextChange(h, key, t + 1)
  }

  /** The value a key had when block t started: what the next change overwrote, or else what is there now. */
  ghost function AsOf(b: Bucket, h: Bucket, key: Bytes, t: Uint64): Option<Bytes>
    requires t <= TIMESTAMP_LIMIT
  {
    match NextChange(h, key, t)
    case Some(u) => Some(h[Composite(key, u)])
    case None => if key in b then Some(b[key]) else None
  }

  /** BoltDatabase.GetAsOf; None is ErrKeyNotFound. */
  function GetAsOf(store: Store, bucket: Bytes, hBucket: Bytes, key: Bytes, t: Uint64): Option<Bytes> {
    if hBucket !in store then None
    else
      var hK := Seek(store[hBucket].Keys, Composite(key, t));
      if hK.Some? && HasPrefix(hK.value, key) then Some(store[hBucket][hK.value])
      else if bucket !in store then None
      else
        var k := Seek(store[bucket].Keys, key);
        if k.Some? && k.value == key then Some(store[bucket][k.value]) else None
  }

  /** One seek in the history finds the next change. */
  lemma SeekFindsNextChange(h: Bucket, key: Bytes, t: Uint64)
    requires HistoryKeys(h, |key|) && t < TIMESTAMP_LIMIT
    ensures var hK := Seek(h.Keys, Composite(key, t));
      match NextChange(h, key, t)
      case Some(u) => hK == Some(Composite(key, u)) && HasPrefix(hK.value, key)
      case None => hK.None? || !HasPrefix(hK.value, key)
  {
    var hK := Seek(h.Keys, Composite(key, t));
    match NextChange(h, key, t)
    case Some(u) =>
      SeekReaches(h, key, t, u);
      var w := SoughtBlock(h, key, t);
      CompositeOrder(key, u, key, w);
      LessIrreflexive(key);
    case None =>
      if hK.Some? && HasPrefix(hK.value, key) {
        var w := SoughtBlock(h, key, t);
      }
  }

  /** The sought key is a history key of the same key if any change from t on is recorded. */
  lemma SeekReaches(h: Bucket, key: Bytes, t: Uint64, u: Uint64)
    requires HistoryKeys(h, |key|) && t <= u < TIMESTAMP_LIMIT && Composite(key, u) in h
    ensures var hK := Seek(h.Keys, Composite(key, t)); hK.Some? && HasPrefix(hK.value, key)
    ensures !Less(Composite(key, u), Seek(h.Keys, Composite(key, t)).value)
  {
    CompositeOrder(key, u, key, t);
    LessIrreflexive(key);
    assert Composite(key, u) in h.Keys;
    var hK := Seek(h.Keys, Composite(key, t));
    var x, w := SplitHistoryKey(hK.value, |key|);
    CompositeOrder(x, w, key, t);
    CompositeOrder(key, u, x, w);
    LessTotal(x, key);
  }

  lemma SoughtBlock(h: Bucket, key: Bytes, t: Uint64) returns (w: Uint64)
    requires HistoryKeys(h, |key|) && t < TIMESTAMP_LIMIT
    requires var hK := Seek(h.Keys, Composite(key, t)); hK.Some? && HasPrefix(hK.value, key)
    ensures t <= w < TIMESTAMP_LIMIT && Composite(key, w) in h
    ensures Seek(h.Keys, Composite(key, t)) == Some(Composite(key, w))
  {
    var hK := Seek(h.Keys, Composite(key, t));
    var x;
    x, w := SplitHistoryKey(hK.value, |key|);
    CompositeOrder(x, w, key, t);
  }

  lemma SeekFindsKey(b: Bucket, key: Bytes)
    ensures key in b <==> Seek(b.Keys, key) == Some(key)
  {
    LessIrreflexive(key);
    var k := Seek(b.Keys, key);
    if key in b.Keys && k.Some? {
      LessTotal(k.value, key);
    }
  }

  /** GetAsOf is AsOf wherever both buckets exist and the history bucket's keys have one length. */
  lemma GetAsOfIsAsOf(store: Store, bucket: Bytes, hBucket: Bytes, key: Bytes, t: Uint64)
    requires bucket in store && hBucket in store
    requires HistoryKeys(store[hBucket], |key|) && t < TIMESTAMP_LIMIT
    ensures GetAsOf(store, bucket, hBucket, key, t) == AsOf(store[bucket], store[hBucket], key, t)
  {
    SeekFindsNextChange(store[hBucket], key, t);
    SeekFindsKey(store[bucket], key);
  }
}
