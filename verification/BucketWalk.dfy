/** BoltDatabase.Walk: the pairs of a bucket from a start key on, while the leading bits stay fixed. */
module BucketWalk {
  import opened Options
  import opened ByteOrder
  import opened KeyRange
  import opened Buckets

  /** The walk indexes its keys up to the last byte that holds fixed bits. */
  ghost predicate Walkable(b: Bucket, startkey: Bytes, fixedbits: nat) {
    fixedbits <= 8 * |startkey| && forall k :: k in b && !Less(k, startkey) ==> fixedbits <= 8 * |k|
  }

  ghost predicate Wanted(b: Bucket, startkey: Bytes, fixedbits: nat, p: Pair)
    requires Walkable(b, startkey, fixedbits)
  {
    p.key in b && p.value == b[p.key] && !Less(p.key, startkey) && Agree(p.key, startkey, fixedbits)
  }

  predicate GoesOn(a: Answer) {
    a.goOn && !a.failed
  }

  ghost predicate Unstopped(walker: seq<Pair> -> Answer, visited: seq<Pair>) {
    visited == [] || GoesOn(walker(visited))
  }

  ghost predicate NotBeyond(walker: seq<Pair> -> Answer, visited: seq<Pair>, key: Bytes) {
    Unstopped(walker, visited) || !Less(visited[|visited| - 1].key, key)
  }

  /** Ascending, only wanted pairs, and none skipped up to where the walker stopped. */
  ghost predicate IsWalk(b: Bucket, startkey: Bytes, fixedbits: nat, walker: seq<Pair> -> Answer, visited: seq<Pair>)
    requires Walkable(b, startkey, fixedbits)
  {
    && Ascending(visited)
    && (forall p :: p in visited ==> Wanted(b, startkey, fixedbits, p))
    && (forall p :: Wanted(b, startkey, fixedbits, p) && NotBeyond(walker, visited, p.key) ==> p in visited)
    && (forall i :: 0 < i < |visited| ==> GoesOn(walker(visited[..i])))
  }

  /** What the loop knows: the visits are wanted and ascending, and the cursor is on the next key of the bucket. */
  ghost predicate Progress(b: Bucket, startkey: Bytes, fixedbits: nat, walker: seq<Pair> -> Answer, visited: seq<Pair>,
                           k: Option<Bytes>)
    requires Walkable(b, startkey, fixedbits)
  {
    && Ascending(visited)
    && (forall p :: p in visited ==> Wanted(b, startkey, fixedbits, p))
    && (forall i :: 0 < i <= |visited| ==> GoesOn(walker(visited[..i])))
    && (k.Some? ==> k.value in b && !Less(k.value, startkey))
    && (k.Some? ==> forall p :: p in visited ==> Less(p.key, k.value))
    && (forall p :: Wanted(b, startkey, fixedbits, p) && p !in visited ==> k.Some? && !Less(p.key, k.value))
  }

  lemma Begins(b: Bucket, startkey: Bytes, fixedbits: nat, walker: seq<Pair> -> Answer)
    requires Walkable(b, startkey, fixedbits)
    ensures Progress(b, startkey, fixedbits, walker, [], Seek(b.Keys, startkey))
  {
    forall p | Wanted(b, startkey, fixedbits, p)
      ensures Seek(b.Keys, startkey).Some? && !Less(p.key, Seek(b.Keys, startkey).value)
    {
      assert p.key in b.Keys;
    }
  }

  lemma Appended(b: Bucket, startkey: Bytes, fixedbits: nat, walker: seq<Pair> -> Answer, visited: seq<Pair>, k: Bytes)
    requires Walkable(b, startkey, fixedbits)
    requires Progress(b, startkey, fixedbits, walker, visited, Some(k)) && Fits(k, startkey, fixedbits)
    ensures Ascending(visited + [Pair(k, b[k])])
    ensures forall p :: p in visited + [Pair(k, b[k])] ==> Wanted(b, startkey, fixedbits, p)
    ensures forall i :: 0 < i <= |visited| ==> GoesOn(walker((visited + [Pair(k, b[k])])[..i]))
  {
    var after := visited + [Pair(k, b[k])];
    FitsIsAgreement(k, startkey, fixedbits);
    forall i, j | 0 <= i < j < |after|
      ensures Less(after[i].key, after[j].key)
    {
      if j == |visited| { assert after[i] in visited; }
    }
    forall i | 0 < i <= |visited|
      ensures GoesOn(walker(after[..i]))
    {
      assert after[..i] == visited[..i];
    }
  }

  lemma Steps(b: Bucket, startkey: Bytes, fixedbits: nat, walker: seq<Pair> -> Answer, visited: seq<Pair>, k: Bytes)
    requires Walkable(b, startkey, fixedbits)
    requires Progress(b, startkey, fixedbits, walker, visited, Some(k)) && Fits(k, startkey, fixedbits)
    requires GoesOn(walker(visited + [Pair(k, b[k])]))
    ensures Progress(b, startkey, fixedbits, walker, visited + [Pair(k, b[k])], Next(b.Keys, k))
  {
    var after := visited + [Pair(k, b[k])];
    var n := Next(b.Keys, k);
    Appended(b, startkey, fixedbits, walker, visited, k);
    assert after[..|after|] == after;
    if n.Some? {
      if Less(n.value, startkey) { LessTransitive(k, n.value, startkey); }
      forall p | p in after
        ensures Less(p.key, n.value)
      {
        if p in visited { LessTransitive(p.key, k, n.value); }
      }
    }
    forall p | Wanted(b, startkey, fixedbits, p) && p !in after
      ensures n.Some? && !Less(p.key, n.value)
    {
      assert p.key in b.Keys && p.key != k;
      LessTotal(p.key, k);
    }
  }

  lemma StopsAt(b: Bucket, startkey: Bytes, fixedbits: nat, walker: seq<Pair> -> Answer, visited: seq<Pair>, k: Bytes)
    requires Walkable(b, startkey, fixedbits)
    requires Progress(b, startkey, fixedbits, walker, visited, Some(k)) && Fits(k, startkey, fixedbits)
    requires !GoesOn(walker(visited + [Pair(k, b[k])]))
    ensures IsWalk(b, startkey, fixedbits, walker, visited + [Pair(k, b[k])])
  {
    var after := visited + [Pair(k, b[k])];
    Appended(b, startkey, fixedbits, walker, visited, k);
    forall p | Wanted(b, startkey, fixedbits, p) && !Less(k, p.key)
      ensures p in after
    {
      LessTotal(p.key, k);
    }
  }

  lemma Ends(b: Bucket, startkey: Bytes, fixedbits: nat, walker: seq<Pair> -> Answer, visited: seq<Pair>,
             k: Option<Bytes>)
    requires Walkable(b, startkey, fixedbits)
    requires Progress(b, startkey, fixedbits, walker, visited, k)
    requires k.Some? ==> !Fits(k.value, startkey, fixedbits)
    ensures IsWalk(b, startkey, fixedbits, walker, visited)
  {
    forall p | Wanted(b, startkey, fixedbits, p)
      ensures p in visited
    {
      FitsIsAgreement(p.key, startkey, fixedbits);
      if p !in visited { FitsConvex(p.key, k.value, startkey, fixedbits); }
    }
  }

  method Walk(store: Store, bucket: Bytes, startkey: Bytes, fixedbits: nat, walker: seq<Pair> -> Answer)
    returns (visited: seq<Pair>, failed: bool)
    requires bucket in store ==> Walkable(store[bucket], startkey, fixedbits)
    ensures bucket in store ==> IsWalk(store[bucket], startkey, fixedbits, walker, visited)
    ensures bucket !in store ==> visited == []
    ensures failed <==> visited != [] && walker(visited).failed
  {
    visited, failed := [], false;
    if bucket !in store {
      return;
    }
    hide IsWalk, Progress;
    var b := store[bucket];
    var k := Seek(b.Keys, startkey);
    Begins(b, startkey, fixedbits, walker);
    while k.Some? && Fits(k.value, startkey, fixedbits)
      invariant Progress(b, startkey, fixedbits, walker, visited, k)
      invariant k.Some? ==> k.value in b && fixedbits <= 8 * |k.value|
      invariant visited != [] ==> GoesOn(walker(visited))
      invariant !failed
      decreases Remaining(b.Keys, k)
    {
      var p := Pair(k.value, b[k.value]);
      var answer := walker(visited + [p]);
      if !GoesOn(answer) {
        StopsAt(b, startkey, fixedbits, walker, visited, k.value);
        return visited + [p], answer.failed;
      }
      Steps(b, startkey, fixedbits, walker, visited, k.value);
      RemainingShrinks(b.Keys, k.value, Next(b.Keys, k.value));
      visited := visited + [p];
      k := Next(b.Keys, k.value);
      CursorKey(b, startkey, fixedbits, walker, visited, k);
    }
    Ends(b, startkey, fixedbits, walker, visited, k);
  }

  lemma CursorKey(b: Bucket, startkey: Bytes, fixedbits: nat, walker: seq<Pair> -> Answer, visited: seq<Pair>,
                  k: Option<Bytes>)
    requires Walkable(b, startkey, fixedbits) && Progress(b, startkey, fixedbits, walker, visited, k)
    ensures k.Some? ==> k.value in b && fixedbits <= 8 * |k.value|
  {
  }
}
