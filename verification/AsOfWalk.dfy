/** BoltDatabase.WalkAsOf: a merge of two cursors that enumerates a bucket as it was when a block started. */
module AsOfWalk {
  import opened Options
  import opened ByteOrder
  import opened Encoding
  import opened KeyRange
  import opened Buckets

  /** The walked buckets and the arguments of the walk. */
  datatype Query = Query(b: Bucket, h: Bucket, startkey: Bytes, fixedbits: nat, t: Uint64) {
    ghost predicate Valid() {
      && fixedbits <= 8 * |startkey|
      && t < TIMESTAMP_LIMIT
      && (forall k :: k in b ==> |k| == |startkey|)
      && HistoryKeys(h, |startkey|)
    }

    /** The keys asked for: from the start key on, with the same leading bits. */
    ghost predicate InRange(key: Bytes)
      requires fixedbits <= 8 * |startkey|
    {
      |key| == |startkey| && !Less(key, startkey) && Agree(key, startkey, fixedbits)
    }

    /** The pairs the walk owes its walker. */
    ghost predicate Wanted(p: Pair)
      requires Valid()
    {
      InRange(p.key) && AsOf(b, h, p.key, t) == Some(p.value)
    }
  }

  /** The walk was not cut short: nothing was visited, or the walker wanted more after the last visit. */
  ghost predicate Exhausted(walker: seq<Pair> -> Answer, visited: seq<Pair>) {
    visited == [] || walker(visited).goOn
  }

  /** The contract of the walk: ascending, only wanted pairs, and none skipped up to where the walker stopped. */
  ghost predicate IsWalk(q: Query, walker: seq<Pair> -> Answer, visited: seq<Pair>)
    requires q.Valid()
  {
    && Ascending(visited)
    && (forall p :: p in visited ==> q.Wanted(p))
    && (forall p :: q.Wanted(p) && (Exhausted(walker, visited) || !Less(visited[|visited| - 1].key, p.key)) ==>
          p in visited)
    && (forall i :: 0 < i < |visited| ==> walker(visited[..i]).goOn)
  }

  // Cursor invariants

  /** Every wanted key of the current bucket that was not visited is still ahead of its cursor. */
  ghost predicate CurrentAhead(q: Query, k: Option<Bytes>, seen: set<Bytes>)
    requires q.Valid()
  {
    && (k.Some? ==> k.value in q.b && !Less(k.value, q.startkey))
    && (forall x :: x in q.b && q.InRange(x) && x !in seen ==> k.Some? && !Less(x, k.value))
    && (k.Some? ==> forall s :: s in seen ==> Less(s, k.value))
  }

  /** Every recorded change from block t on, of a wanted key not visited, is still ahead of the history cursor. */
  ghost predicate HistoryAhead(q: Query, hK: Option<Bytes>, seen: set<Bytes>)
    requires q.Valid()
  {
    && (hK.Some? ==> hK.value in q.h && |hK.value| >= |q.startkey| && !Less(hK.value, q.startkey))
    && (forall x, u: Uint64 :: q.InRange(x) && q.t <= u < TIMESTAMP_LIMIT && Composite(x, u) in q.h && x !in seen ==>
          hK.Some? && !Less(Composite(x, u), hK.value))
    && (hK.Some? ==> forall s :: s in seen ==> Less(s, hK.value[..|q.startkey|]))
  }

  lemma StartCurrent(q: Query)
    requires q.Valid()
    ensures CurrentAhead(q, Seek(q.b.Keys, q.startkey), {})
  {
  }

  lemma StartHistory(q: Query)
    requires q.Valid()
    ensures HistoryAhead(q, Seek(q.h.Keys, q.startkey), {})
  {
    var hK := Seek(q.h.Keys, q.startkey);
    if hK.Some? {
      var _, _ := SplitHistoryKey(hK.value, |q.startkey|);
    }
    forall x, u: Uint64 | q.InRange(x) && q.t <= u < TIMESTAMP_LIMIT && Composite(x, u) in q.h
      ensures hK.Some? && !Less(Composite(x, u), hK.value)
    {
      CompositeAboveStart(q, x, u);
      assert Composite(x, u) in q.h.Keys;
    }
  }

  lemma CompositeAboveStart(q: Query, x: Bytes, u: Uint64)
    requires |x| == |q.startkey| && !Less(x, q.startkey)
    ensures !Less(Composite(x, u), q.startkey)
  {
    assert q.startkey + [] == q.startkey;
    LessConcat(x, q.startkey, Enc(u), []);
  }

  /** A cursor key outside the range ends the current bucket: no wanted key lies beyond it. */
  lemma CurrentLeavesRange(q: Query, k: Bytes, seen: set<Bytes>)
    requires q.Valid() && CurrentAhead(q, Some(k), seen)
    requires !Fits(k, q.startkey, q.fixedbits)
    ensures CurrentAhead(q, None, seen)
  {
    forall x | x in q.b && q.InRange(x)
      ensures x in seen
    {
      FitsIsAgreement(x, q.startkey, q.fixedbits);
      if x !in seen {
        FitsConvex(x, k, q.startkey, q.fixedbits);
      }
    }
  }

  lemma HistoryLeavesRange(q: Query, hK: Bytes, seen: set<Bytes>)
    requires q.Valid() && HistoryAhead(q, Some(hK), seen)
    requires !Fits(hK, q.startkey, q.fixedbits)
    ensures HistoryAhead(q, None, seen)
  {
    forall x, u: Uint64 | q.InRange(x) && q.t <= u < TIMESTAMP_LIMIT && Composite(x, u) in q.h
      ensures x in seen
    {
      if x !in seen {
        FitsOfPrefix(q, x, u);
        FitsConvex(Composite(x, u), hK, q.startkey, q.fixedbits);
      }
    }
  }

  /** Fixed bits lie within the key, so a history key fits exactly if its key does. */
  lemma FitsOfPrefix(q: Query, x: Bytes, u: Uint64)
    requires q.fixedbits <= 8 * |q.startkey| && |x| == |q.startkey|
    ensures Fits(Composite(x, u), q.startkey, q.fixedbits) <==> Agree(x, q.startkey, q.fixedbits)
  {
    FitsIsAgreement(x, q.startkey, q.fixedbits);
    var f := BytesMask(q.fixedbits).0;
    if f > 0 {
      assert Composite(x, u)[..f - 1] == x[..f - 1];
    }
  }

  /** The current cursor steps over a key that was just visited. */
  lemma CurrentSteps(q: Query, k: Bytes, seen: set<Bytes>)
    requires q.Valid() && CurrentAhead(q, Some(k), seen)
    ensures CurrentAhead(q, Next(q.b.Keys, k), seen + {k})
  {
    var n := Next(q.b.Keys, k);
    if n.Some? {
      if Less(n.value, q.startkey) {
        LessTransitive(k, n.value, q.startkey);
      }
      forall s | s in seen + {k}
        ensures Less(s, n.value)
      {
        if s in seen { LessTransitive(s, k, n.value); }
      }
    }
    forall x | x in q.b && q.InRange(x) && x !in seen + {k}
      ensures n.Some? && !Less(x, n.value)
    {
      assert x in q.b.Keys;
      LessTotal(x, k);
    }
  }

  /** A key below the current cursor can be marked as visited. */
  lemma CurrentWaits(q: Query, k: Option<Bytes>, seen: set<Bytes>, x: Bytes)
    requires q.Valid() && CurrentAhead(q, k, seen)
    requires k.Some? ==> Less(x, k.value)
    ensures CurrentAhead(q, k, seen + {x})
  {
  }

  lemma HistoryWaits(q: Query, hK: Option<Bytes>, seen: set<Bytes>, x: Bytes)
    requires q.Valid() && HistoryAhead(q, hK, seen)
    requires hK.Some? ==> Less(x, hK.value[..|q.startkey|])
    ensures HistoryAhead(q, hK, seen + {x})
  {
  }

  /** A change before block t is skipped without losing a later change of the same key. */
  lemma HistorySkips(q: Query, hK: Bytes, seen: set<Bytes>)
    requires q.Valid() && HistoryAhead(q, Some(hK), seen)
    requires Less(hK[|q.startkey|..], Enc(q.t))
    ensures HistoryAhead(q, Seek(q.h.Keys, hK[..|q.startkey|] + Enc(q.t)), seen)
    ensures Less(hK, hK[..|q.startkey|] + Enc(q.t))
  {
    var l := |q.startkey|;
    var key, w := SplitHistoryKey(hK, l);
    EncOrderIff(w, q.t);
    CompositeOrder(key, w, key, q.t);
    var n := Seek(q.h.Keys, Composite(key, q.t));
    SoughtBeyond(q, hK, seen, Composite(key, q.t));
    forall x, u: Uint64 | q.InRange(x) && q.t <= u < TIMESTAMP_LIMIT && Composite(x, u) in q.h && x !in seen
      ensures n.Some? && !Less(Composite(x, u), n.value)
    {
      CompositeOrder(x, u, key, w);
      CompositeOrder(x, u, key, q.t);
      LessTotal(x, key);
      assert Composite(x, u) in q.h.Keys;
    }
  }

  /** Seeking forward keeps the order facts of the history cursor. */
  lemma SoughtBeyond(q: Query, hK: Bytes, seen: set<Bytes>, target: Bytes)
    requires q.Valid() && HistoryAhead(q, Some(hK), seen) && Less(hK, target)
    ensures var n := Seek(q.h.Keys, target);
      n.Some? ==>
        && Less(hK, n.value) && |n.value| >= |q.startkey| && !Less(n.value, q.startkey)
        && forall s :: s in seen ==> Less(s, n.value[..|q.startkey|])
  {
    var n := Seek(q.h.Keys, target);
    if n.Some? {
      var _, _ := SplitHistoryKey(n.value, |q.startkey|);
      LessAsymmetric(hK, target);
      BeforeOrNot(hK, target, n.value);
      LessAsymmetric(hK, n.value);
      BeforeOrNot(q.startkey, hK, n.value);
      PrefixAbove(hK, n.value, |q.startkey|, seen);
    }
  }

  lemma PrefixAbove(a: Bytes, b: Bytes, l: nat, seen: set<Bytes>)
    requires l <= |a| && l <= |b| && Less(a, b)
    requires forall s :: s in seen ==> Less(s, a[..l])
    ensures forall s :: s in seen ==> Less(s, b[..l])
  {
    assert a == a[..l] + a[l..] && b == b[..l] + b[l..];
    LessConcat(a[..l], b[..l], a[l..], b[l..]);
    forall s | s in seen
      ensures Less(s, b[..l])
    {
      if a[..l] != b[..l] { LessTransitive(s, a[..l], b[..l]); }
    }
  }

  /** a <= b <= c, with at most one equality used. */
  lemma BeforeOrNot(a: Bytes, b: Bytes, c: Bytes)
    requires !Less(b, a) && !Less(c, b)
    ensures !Less(c, a)
    ensures Less(a, b) ==> Less(a, c)
  {
    LessTotal(a, b);
    LessTotal(b, c);
    if Less(c, a) {
      if a != b && b != c {
        LessTransitive(b, c, a);
      }
    }
    if Less(a, b) && b != c {
      LessTransitive(a, b, c);
    }
  }

  /** The jump lands on a change of a later key. */
  lemma JumpLands(key: Bytes, hk: Bytes)
    requires IsHistoryKey(hk, |key|) && !Less(hk, key + END_SUFFIX)
    ensures Less(key, hk[..|key|])
  {
    hide Less, Enc;
    var y, v := SplitHistoryKey(hk, |key|);
    EncBelowEnd(v);
    LessConcat(y, key, Enc(v), END_SUFFIX);
    LessTotal(y, key);
  }

  /** A change of another key that the cursor has not passed lies beyond the jump. */
  lemma NotJumped(key: Bytes, w: Uint64, x: Bytes, u: Uint64)
    requires |x| == |key| && x != key && w < TIMESTAMP_LIMIT && u < TIMESTAMP_LIMIT
    requires !Less(Composite(x, u), Composite(key, w))
    ensures !Less(Composite(x, u), key + END_SUFFIX)
  {
    hide Less, Enc;
    CompositeOrder(x, u, key, w);
    LessTotal(x, key);
    LessConcat(key, x, END_SUFFIX, Enc(u));
    LessAsymmetric(key + END_SUFFIX, Composite(x, u));
  }

  lemma SeekFinds(keys: set<Bytes>, target: Bytes, k: Bytes)
    requires k in keys && !Less(k, target)
    ensures var r := Seek(keys, target); r.Some? && !Less(k, r.value)
  {
    hide Less, Seek;
  }

  /** After a visit the history cursor jumps over every other change of the visited key. */
  lemma HistoryJumps(q: Query, hK: Bytes, seen: set<Bytes>)
    requires q.Valid() && HistoryAhead(q, Some(hK), seen)
    ensures HistoryAhead(q, Seek(q.h.Keys, hK[..|q.startkey|] + END_SUFFIX), seen + {hK[..|q.startkey|]})
    ensures Less(hK, hK[..|q.startkey|] + END_SUFFIX)
  {
    hide Less, Enc, Seek, Composite, Agree, IsLeast;
    var l := |q.startkey|;
    var key, w := SplitHistoryKey(hK, l);
    EncBelowEnd(w);
    assert hK == key + Enc(w);
    LessConcat(key, key, Enc(w), END_SUFFIX);
    var target := key + END_SUFFIX;
    SoughtBeyond(q, hK, seen, target);
    var n := Seek(q.h.Keys, target);
    if n.Some? { JumpLands(key, n.value); }
    forall x, u: Uint64 | q.InRange(x) && q.t <= u < TIMESTAMP_LIMIT && Composite(x, u) in q.h && x !in seen + {key}
      ensures n.Some? && !Less(Composite(x, u), n.value)
    {
      NotJumped(key, w, x, u);
      SeekFinds(q.h.Keys, target, Composite(x, u));
    }
  }

  /** A key of the current bucket below the history cursor has no later change: its value is current. */
  lemma CurrentValueWanted(q: Query, k: Bytes, hK: Option<Bytes>, seen: set<Bytes>)
    requires q.Valid() && CurrentAhead(q, Some(k), seen) && HistoryAhead(q, hK, seen)
    requires Fits(k, q.startkey, q.fixedbits)
    requires hK.Some? ==> Less(k, hK.value[..|q.startkey|])
    ensures q.Wanted(Pair(k, q.b[k]))
  {
    FitsIsAgreement(k, q.startkey, q.fixedbits);
    NotSeen(k, seen);
    var change := NextChange(q.h, k, q.t);
    if change.Some? {
      assert !Less(Composite(k, change.value), hK.value);
      var l := |q.startkey|;
      assert hK.value == hK.value[..l] + hK.value[l..];
      LessConcat(k, hK.value[..l], Enc(change.value), hK.value[l..]);
    }
  }

  lemma NotSeen(k: Bytes, seen: set<Bytes>)
    requires forall s :: s in seen ==> Less(s, k)
    ensures k !in seen
  {
    LessIrreflexive(k);
  }

  /** The history cursor, once past the changes before t, stands on the next change of its key. */
  lemma HistoryValueWanted(q: Query, hK: Bytes, seen: set<Bytes>)
    requires q.Valid() && HistoryAhead(q, Some(hK), seen)
    requires Fits(hK, q.startkey, q.fixedbits) && !Less(hK[|q.startkey|..], Enc(q.t))
    ensures q.Wanted(Pair(hK[..|q.startkey|], q.h[hK]))
  {
    var l := |q.startkey|;
    var key, w := SplitHistoryKey(hK, l);
    EncOrderIff(w, q.t);
    FitsOfPrefix(q, key, w);
    KeyAboveStart(q, key, w);
    NotSeen(key, seen);
    var change := NextChange(q.h, key, q.t);
    assert change.Some?;
    CompositeOrder(key, change.value, key, w);
    LessIrreflexive(key);
  }

  lemma KeyAboveStart(q: Query, key: Bytes, w: Uint64)
    requires |key| == |q.startkey| && !Less(Composite(key, w), q.startkey)
    ensures !Less(key, q.startkey)
  {
    assert q.startkey + [] == q.startkey;
    LessConcat(key, q.startkey, Enc(w), []);
  }

  /** When both cursors are exhausted, everything wanted was visited. */
  lemma NothingLeft(q: Query, seen: set<Bytes>)
    requires q.Valid() && CurrentAhead(q, None, seen) && HistoryAhead(q, None, seen)
    ensures forall p :: q.Wanted(p) ==> p.key in seen
  {
    forall p | q.Wanted(p)
      ensures p.key in seen
    {
      var change := NextChange(q.h, p.key, q.t);
      if change.Some? {
        assert Composite(p.key, change.value) in q.h;
      } else {
        assert p.key in q.b;
      }
    }
  }

  /** A key not visited yet lies above everything visited, and not below the visited key x if x was next in line. */
  lemma WantedAhead(q: Query, k: Option<Bytes>, hK: Option<Bytes>, seen: set<Bytes>, x: Bytes, p: Pair)
    requires q.Valid() && CurrentAhead(q, k, seen) && HistoryAhead(q, hK, seen)
    requires k.Some? ==> !Less(k.value, x)
    requires hK.Some? ==> !Less(hK.value[..|q.startkey|], x)
    requires q.Wanted(p) && p.key !in seen
    ensures !Less(p.key, x)
  {
    var change := NextChange(q.h, p.key, q.t);
    if change.Some? {
      assert !Less(Composite(p.key, change.value), hK.value);
      var l := |q.startkey|;
      assert hK.value == hK.value[..l] + hK.value[l..];
      LessConcat(p.key, hK.value[..l], Enc(change.value), hK.value[l..]);
      BeforeOrNot(x, hK.value[..l], p.key);
    } else {
      assert p.key in q.b;
      BeforeOrNot(x, k.value, p.key);
    }
  }

  /** What the loop knows about the visits made so far. */
  ghost predicate WalkSoFar(q: Query, walker: seq<Pair> -> Answer, visited: seq<Pair>, seen: set<Bytes>)
    requires q.Valid()
  {
    && seen == KeysOf(visited)
    && Ascending(visited)
    && (forall p :: p in visited ==> q.Wanted(p))
    && (forall i :: 0 < i < |visited| ==> walker(visited[..i]).goOn)
  }

  /** Visiting the next pair in line. */
  lemma Visit(q: Query, walker: seq<Pair> -> Answer, visited: seq<Pair>, seen: set<Bytes>, p: Pair)
    requires q.Valid() && WalkSoFar(q, walker, visited, seen) && Exhausted(walker, visited) && q.Wanted(p)
    requires forall s :: s in seen ==> Less(s, p.key)
    ensures WalkSoFar(q, walker, visited + [p], seen + {p.key})
  {
    var after := visited + [p];
    assert KeysOf(after) == seen + {p.key} by {
      assert forall x :: x in after <==> x in visited || x == p;
    }
    forall i, j | 0 <= i < j < |after|
      ensures Less(after[i].key, after[j].key)
    {
      if j == |visited| {
        assert after[i] in visited && after[i].key in seen;
      }
    }
    forall i | 0 < i < |after|
      ensures walker(after[..i]).goOn
    {
      if i == |visited| { assert after[..i] == visited; } else { assert after[..i] == visited[..i]; }
    }
  }

  /** A walk that ends with everything wanted up to its last key visited meets its contract. */
  lemma WalkEnds(q: Query, walker: seq<Pair> -> Answer, visited: seq<Pair>, seen: set<Bytes>)
    requires q.Valid() && WalkSoFar(q, walker, visited, seen)
    requires forall p :: q.Wanted(p) && p.key !in seen ==>
      !Exhausted(walker, visited) && Less(visited[|visited| - 1].key, p.key)
    ensures IsWalk(q, walker, visited)
  {
    forall p | q.Wanted(p) && (Exhausted(walker, visited) || !Less(visited[|visited| - 1].key, p.key))
      ensures p in visited
    {
      var r :| r in visited && r.key == p.key;
      assert q.Wanted(r);
    }
  }

  /** The walker stops the walk at p, the next pair in line. */
  lemma WalkStops(q: Query, walker: seq<Pair> -> Answer, k: Option<Bytes>, hK: Option<Bytes>,
                  visited: seq<Pair>, seen: set<Bytes>, p: Pair)
    requires q.Valid() && CurrentAhead(q, k, seen) && HistoryAhead(q, hK, seen)
    requires WalkSoFar(q, walker, visited + [p], seen + {p.key}) && !walker(visited + [p]).goOn
    requires k.Some? ==> !Less(k.value, p.key)
    requires hK.Some? ==> !Less(hK.value[..|q.startkey|], p.key)
    ensures IsWalk(q, walker, visited + [p])
  {
    forall r | q.Wanted(r) && r.key !in seen + {p.key}
      ensures Less(p.key, r.key)
    {
      WantedAhead(q, k, hK, seen, p.key, r);
      LessTotal(p.key, r.key);
    }
    WalkEnds(q, walker, visited + [p], seen + {p.key});
  }

  /** The pair that the merge picks is wanted and next in line. */
  lemma PickIsNext(q: Query, k: Option<Bytes>, hK: Option<Bytes>, seen: set<Bytes>, cmp: int, p: Pair)
    requires q.Valid() && CurrentAhead(q, k, seen) && HistoryAhead(q, hK, seen)
    requires k.Some? ==> Fits(k.value, q.startkey, q.fixedbits)
    requires hK.Some? ==> Fits(hK.value, q.startkey, q.fixedbits) && !Less(hK.value[|q.startkey|..], Enc(q.t))
    requires k.Some? || hK.Some?
    requires cmp == if k.None? then 1 else if hK.None? then -1 else Compare(k.value, hK.value[..|q.startkey|])
    requires p == if cmp < 0 then Pair(k.value, q.b[k.value]) else Pair(hK.value[..|q.startkey|], q.h[hK.value])
    ensures q.Wanted(p)
    ensures forall s :: s in seen ==> Less(s, p.key)
    ensures k.Some? ==> !Less(k.value, p.key)
    ensures hK.Some? ==> !Less(hK.value[..|q.startkey|], p.key)
    ensures cmp <= 0 ==> k.Some? && k.value == p.key
    ensures cmp > 0 && k.Some? ==> Less(p.key, k.value)
    ensures cmp >= 0 ==> hK.Some?
    ensures cmp < 0 && hK.Some? ==> Less(p.key, hK.value[..|q.startkey|])
  {
    LessIrreflexive(p.key);
    if cmp < 0 {
      CurrentValueWanted(q, k.value, hK, seen);
      if hK.Some? { LessAsymmetric(p.key, hK.value[..|q.startkey|]); }
    } else {
      HistoryValueWanted(q, hK.value, seen);
      if k.Some? { LessTotal(k.value, p.key); }
    }
  }

  /** The contract leaves no freedom: two walks with the same arguments make the same visits. */
  lemma WalkUnique(q: Query, walker: seq<Pair> -> Answer, v: seq<Pair>, w: seq<Pair>)
    requires q.Valid() && IsWalk(q, walker, v) && IsWalk(q, walker, w)
    ensures v == w
  {
    hide IsWalk;
    SamePrefix(q, walker, v, w, |v|);
    SamePrefix(q, walker, w, v, |w|);
  }

  lemma {:induction false} SamePrefix(q: Query, walker: seq<Pair> -> Answer, v: seq<Pair>, w: seq<Pair>, i: nat)
    requires q.Valid() && IsWalk(q, walker, v) && IsWalk(q, walker, w) && i <= |v|
    ensures i <= |w| && v[..i] == w[..i]
  {
    hide IsWalk;
    if i > 0 {
      SamePrefix(q, walker, v, w, i - 1);
      NotLonger(q, walker, v, w, i - 1);
      SameNext(q, walker, v, w, i - 1);
      assert v[..i] == v[..i - 1] + [v[i - 1]] && w[..i] == w[..i - 1] + [w[i - 1]];
    }
  }

  lemma NotLonger(q: Query, walker: seq<Pair> -> Answer, v: seq<Pair>, w: seq<Pair>, i: nat)
    requires q.Valid() && IsWalk(q, walker, v) && IsWalk(q, walker, w)
    requires i < |v| && i <= |w| && v[..i] == w[..i]
    ensures i < |w|
  {
    if i == |w| {
      assert v[..i] == w && q.Wanted(v[i]);
      var j :| 0 <= j < |w| && w[j] == v[i];
      assert v[..i][j] == v[j];
      LessIrreflexive(v[j].key);
      assert false;
    }
  }

  lemma SameNext(q: Query, walker: seq<Pair> -> Answer, v: seq<Pair>, w: seq<Pair>, i: nat)
    requires q.Valid() && IsWalk(q, walker, v) && IsWalk(q, walker, w)
    requires i < |v| && i < |w| && v[..i] == w[..i]
    ensures v[i] == w[i]
  {
    NotAfter(q, walker, v, w, i);
    NotAfter(q, walker, w, v, i);
    LessTotal(v[i].key, w[i].key);
    assert q.Wanted(v[i]) && q.Wanted(w[i]);
  }

  /** After equal visits, neither walk can be ahead of the other. */
  lemma NotAfter(q: Query, walker: seq<Pair> -> Answer, v: seq<Pair>, w: seq<Pair>, i: nat)
    requires q.Valid() && IsWalk(q, walker, v) && IsWalk(q, walker, w)
    requires i < |v| && i < |w| && v[..i] == w[..i]
    ensures !Less(v[i].key, w[i].key)
  {
    assert q.Wanted(v[i]);
    if Less(v[i].key, w[i].key) {
      forall j | 0 <= j < |w|
        ensures w[j] != v[i]
        ensures j >= i ==> !Less(w[j].key, v[i].key)
      {
        if j < i {
          assert v[..i][j] == v[j] && w[..i][j] == w[j];
          LessAsymmetric(v[j].key, v[i].key);
        } else {
          if j > i { LessTransitive(v[i].key, w[i].key, w[j].key); }
          LessAsymmetric(v[i].key, w[j].key);
        }
      }
    }
  }

  /** Gives up the cursors that have left the range. */
  method LeaveRange(ghost q: Query, startkey: Bytes, fixedbits: nat, k: Option<Bytes>, hK: Option<Bytes>,
                    ghost seen: set<Bytes>) returns (k': Option<Bytes>, hK': Option<Bytes>)
    requires q.Valid() && startkey == q.startkey && fixedbits == q.fixedbits
    requires CurrentAhead(q, k, seen) && HistoryAhead(q, hK, seen)
    ensures CurrentAhead(q, k', seen) && HistoryAhead(q, hK', seen)
    ensures k'.Some? ==> k' == k && Fits(k'.value, startkey, fixedbits)
    ensures hK'.Some? ==> hK' == hK && Fits(hK'.value, startkey, fixedbits)
    ensures Remaining(q.b.Keys, k') <= Remaining(q.b.Keys, k) && Remaining(q.h.Keys, hK') <= Remaining(q.h.Keys, hK)
  {
    hide Less, Enc, Agree, BytesMask, And, Composite;
    k', hK' := k, hK;
    if k.Some? && !Fits(k.value, startkey, fixedbits) {
      CurrentLeavesRange(q, k.value, seen);
      k' := None;
    }
    if hK.Some? && !Fits(hK.value, startkey, fixedbits) {
      HistoryLeavesRange(q, hK.value, seen);
      hK' := None;
    }
  }

  /** Moves the cursors behind the key of p, which was next in line: the current bucket's, the history's, or both. */
  method MoveOn(ghost q: Query, b: Bucket, h: Bucket, l: nat, k: Option<Bytes>, hK: Option<Bytes>, cmp: int, p: Pair,
                ghost seen: set<Bytes>) returns (k': Option<Bytes>, hK': Option<Bytes>)
    requires q.Valid() && b == q.b && h == q.h && l == |q.startkey|
    requires CurrentAhead(q, k, seen) && HistoryAhead(q, hK, seen)
    requires cmp <= 0 ==> k.Some? && k.value == p.key
    requires cmp > 0 && k.Some? ==> Less(p.key, k.value)
    requires cmp >= 0 ==> hK.Some? && hK.value[..l] == p.key
    requires cmp < 0 && hK.Some? ==> Less(p.key, hK.value[..l])
    ensures CurrentAhead(q, k', seen + {p.key}) && HistoryAhead(q, hK', seen + {p.key})
    ensures Remaining(b.Keys, k') + Remaining(h.Keys, hK') < Remaining(b.Keys, k) + Remaining(h.Keys, hK)
  {
    hide Less, Enc, Agree, Seek, Next, Composite, Remaining;
    k', hK' := k, hK;
    if cmp <= 0 {
      CurrentSteps(q, k.value, seen);
      RemainingShrinks(b.Keys, k.value, Next(b.Keys, k.value));
      k' := Next(b.Keys, k.value);
    } else {
      CurrentWaits(q, k, seen, p.key);
    }
    if cmp >= 0 {
      HistoryJumps(q, hK.value, seen);
      SeekShrinks(h.Keys, hK.value, hK.value[..l] + END_SUFFIX);
      hK' := Seek(h.Keys, hK.value[..l] + END_SUFFIX);
    } else {
      HistoryWaits(q, hK, seen, p.key);
    }
  }

  /** WalkAsOf in one read transaction; walker stands for any callback, as a function of the visits made so far. */
  method WalkAsOf(store: Store, bucket: Bytes, hBucket: Bytes, startkey: Bytes, fixedbits: nat, timestamp: Uint64,
                  walker: seq<Pair> -> Answer) returns (visited: seq<Pair>, failed: bool)
    requires bucket in store && hBucket in store ==>
      Query(store[bucket], store[hBucket], startkey, fixedbits, timestamp).Valid()
    ensures bucket in store && hBucket in store ==>
      IsWalk(Query(store[bucket], store[hBucket], startkey, fixedbits, timestamp), walker, visited)
    ensures bucket !in store || hBucket !in store ==> visited == []
    ensures failed <==> visited != [] && walker(visited).failed
  {
    visited, failed := [], false;
    if bucket !in store || hBucket !in store {
      return;
    }
    hide Less, Enc, Agree, BytesMask, And, Seek, Next, IsWalk, WalkSoFar, Composite, AsOf, Remaining;
    var b, h := store[bucket], store[hBucket];
    var suffix := EncodeTimestamp(timestamp);
    var l := |startkey|;
    ghost var q := Query(b, h, startkey, fixedbits, timestamp);
    ghost var seen: set<Bytes> := {};
    var k, hK := Seek(b.Keys, startkey), Seek(h.Keys, startkey);
    StartCurrent(q);
    StartHistory(q);
    var goOn := true;
    while goOn
      invariant goOn ==> CurrentAhead(q, k, seen) && HistoryAhead(q, hK, seen)
      invariant WalkSoFar(q, walker, visited, seen)
      invariant goOn ==> Exhausted(walker, visited)
      invariant !goOn ==> IsWalk(q, walker, visited)
      invariant failed <==> visited != [] && walker(visited).failed
      decreases Remaining(b.Keys, k) + Remaining(h.Keys, hK), goOn
    {
      k, hK := LeaveRange(q, startkey, fixedbits, k, hK, seen);
      if hK.Some? && Less(hK.value[l..], suffix) {
        HistorySkips(q, hK.value, seen);
        SeekShrinks(h.Keys, hK.value, hK.value[..l] + suffix);
        hK := Seek(h.Keys, hK.value[..l] + suffix);
        continue;
      }
      if k.None? && hK.None? {
        NothingLeft(q, seen);
        WalkEnds(q, walker, visited, seen);
        goOn := false;
        break;
      }
      // below 0: the current bucket is first; 0: both cursors stand on one key; above 0: the history is first
      var cmp := if k.None? then 1 else if hK.None? then -1 else Compare(k.value, hK.value[..l]);
      var p := if cmp < 0 then Pair(k.value, b[k.value]) else Pair(hK.value[..l], h[hK.value]);
      PickIsNext(q, k, hK, seen, cmp, p);
      Visit(q, walker, visited, seen, p);
      var answer := walker(visited + [p]);
      goOn, failed := answer.goOn, answer.failed;
      if goOn {
        k, hK := MoveOn(q, b, h, l, k, hK, cmp, p, seen);
      } else {
        WalkStops(q, walker, k, hK, visited, seen, p);
      }
      visited, seen := visited + [p], seen + {p.key};
    }
  }
}
