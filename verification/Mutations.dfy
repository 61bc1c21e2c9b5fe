/** ethdb/database.go: the database, and batches stacked on it as write overlays with tombstones. */
module Mutations {
  import opened Options
  import opened ByteOrder
  import opened Encoding
  import opened KeyRange
  import opened Buckets
  import opened Records
  import BucketWalk

  /** Block numbers whose encoding is self-delimiting. */
  type BlockNr = t: Uint64 | t < TIMESTAMP_LIMIT

  /** The bytes of "SUFFIX". */
  const SUFFIX: Bytes := [83, 85, 70, 70, 73, 88]

  datatype Item = Item(bucket: Bytes, key: Bytes)
  /** One write; no value is a deletion. */
  datatype Tuple = Tuple(item: Item, value: Option<Bytes>)
  type Flat = map<Item, Bytes>
  /** A layer of writes: no value is a tombstone. */
  type Puts = map<Item, Option<Bytes>>
  type SuffixKeys = map<BlockNr, map<Bytes, seq<Bytes>>>

  function Lookup(m: Flat, i: Item): Option<Bytes> {
    if i in m then Some(m[i]) else None
  }

  /** A plain map after one write. */
  function Assign(m: Flat, t: Tuple): Flat {
    if t.value.Some? then m[t.item := t.value.value] else m - {t.item}
  }

  /** A plain map after a sequence of writes. */
  function AssignAll(m: Flat, ts: seq<Tuple>): Flat
    decreases |ts|
  {
    if ts == [] then m else AssignAll(Assign(m, ts[0]), ts[1..])
  }

  /** A map seen through a layer of writes. */
  function Overlay(m: Flat, puts: Puts): Flat {
    map i | i in m.Keys + puts.Keys && (i in puts ==> puts[i].Some?) :: if i in puts then puts[i].value else m[i]
  }

  lemma {:induction false} AssignAllAppend(m: Flat, ts: seq<Tuple>, t: Tuple)
    ensures AssignAll(m, ts + [t]) == Assign(AssignAll(m, ts), t)
    decreases |ts|
  {
    if ts != [] {
      assert (ts + [t])[1..] == ts[1..] + [t];
      AssignAllAppend(Assign(m, ts[0]), ts[1..], t);
    }
  }

  /** A layer after a sequence of writes. */
  function PutAll(puts: Puts, ts: seq<Tuple>): Puts
    decreases |ts|
  {
    if ts == [] then puts else PutAll(puts[ts[0].item := ts[0].value], ts[1..])
  }

  lemma {:induction false} PutAllAppend(puts: Puts, ts: seq<Tuple>, t: Tuple)
    ensures PutAll(puts, ts + [t]) == PutAll(puts, ts)[t.item := t.value]
    decreases |ts|
  {
    if ts != [] {
      assert (ts + [t])[1..] == ts[1..] + [t];
      PutAllAppend(puts[ts[0].item := ts[0].value], ts[1..], t);
    }
  }

  /** Two layers agree outside the SUFFIX bucket. */
  ghost predicate SamePuts(a: Puts, b: Puts) {
    forall i: Item :: i.bucket != SUFFIX ==> (i in a <==> i in b) && (i in a ==> a[i] == b[i])
  }

  ghost predicate PutsReadable(puts: Puts) {
    forall i :: i in puts && i.bucket == SUFFIX && puts[i].Some? ==> |puts[i].value| >= 4
  }

  lemma NoTuples(m: Flat, ts: seq<Tuple>)
    ensures AssignAll(m, ts[..0]) == m && ts[..0] == []
  {
  }

  lemma OverlayPut(m: Flat, puts: Puts, t: Tuple)
    ensures Overlay(m, puts[t.item := t.value]) == Assign(Overlay(m, puts), t)
  {
  }

  lemma OverlayNothing(m: Flat)
    ensures Overlay(m, map[]) == m
  {
  }

  // The database

  function BucketOf(store: Store, name: Bytes): Bucket {
    if name in store then store[name] else map[]
  }

  function Flatten(store: Store): Flat {
    map b, k | b in store && k in store[b] :: Item(b, k) := store[b][k]
  }

  lemma FlattenAt(store: Store, i: Item)
    ensures i in Flatten(store) <==> i.bucket in store && i.key in store[i.bucket]
    ensures i in Flatten(store) ==> Flatten(store)[i] == store[i.bucket][i.key]
  {
    if i.bucket in store && i.key in store[i.bucket] { assert i == Item(i.bucket, i.key); }
  }

  function PutValue(b: Bucket, key: Bytes, value: Option<Bytes>): Bucket {
    if value.Some? then b[key := value.value] else b - {key}
  }

  lemma FlattenPut(store: Store, name: Bytes, b: Bucket, key: Bytes, value: Option<Bytes>)
    ensures Flatten(store[name := PutValue(b, key, value)]) ==
      Assign(Flatten(store[name := b]), Tuple(Item(name, key), value))
  {
    hide Flatten;
    var s, s' := store[name := b], store[name := PutValue(b, key, value)];
    FlattenAt(s', Item(name, key));
    forall i: Item | i != Item(name, key)
      ensures i in Flatten(s') <==> i in Flatten(s)
      ensures i in Flatten(s') ==> Flatten(s')[i] == Flatten(s)[i]
    {
      FlattenAt(s, i);
      FlattenAt(s', i);
      if i.bucket == name { assert i.key != key; }
    }
  }

  lemma FlattenCreate(store: Store, name: Bytes)
    ensures Flatten(store[name := BucketOf(store, name)]) == Flatten(store)
  {
    hide Flatten;
    var s := store[name := BucketOf(store, name)];
    forall i: Item
      ensures i in Flatten(s) <==> i in Flatten(store)
      ensures i in Flatten(s) ==> Flatten(s)[i] == Flatten(store)[i]
    {
      FlattenAt(s, i);
      FlattenAt(store, i);
    }
  }

  class BoltDatabase {
    var store: Store

    ghost function Contents(): Flat
      reads this
    {
      Flatten(store)
    }

    constructor ()
      ensures store == map[] && Contents() == map[]
    {
      store := map[];
    }

    method Put(bucket: Bytes, key: Bytes, value: Bytes)
      modifies this
      ensures Contents() == old(Contents())[Item(bucket, key) := value]
      ensures store.Keys == old(store.Keys) + {bucket}
    {
      FlattenCreate(store, bucket);
      FlattenPut(store, bucket, BucketOf(store, bucket), key, Some(value));
      store := store[bucket := PutValue(BucketOf(store, bucket), key, Some(value))];
    }

    method Delete(bucket: Bytes, key: Bytes)
      modifies this
      ensures Contents() == old(Contents()) - {Item(bucket, key)}
      ensures store.Keys == old(store.Keys)
    {
      if bucket in store {
        FlattenCreate(store, bucket);
        FlattenPut(store, bucket, store[bucket], key, None);
        store := store[bucket := PutValue(store[bucket], key, None)];
      }
    }

    /** Writes run by run of equal bucket names; the effect is that of the tuples one by one. */
    method MultiPut(tuples: seq<Tuple>)
      modifies this
      ensures Contents() == AssignAll(old(Contents()), tuples)
      ensures store.Keys == old(store.Keys) + set t | t in tuples :: t.item.bucket
    {
      hide Flatten, AssignAll;
      var bucketStart := 0;
      NoTuples(Contents(), tuples);
      while bucketStart < |tuples|
        invariant 0 <= bucketStart <= |tuples|
        invariant Contents() == AssignAll(old(Contents()), tuples[..bucketStart])
        invariant store.Keys == old(store.Keys) + set t | t in tuples[..bucketStart] :: t.item.bucket
      {
        var name := tuples[bucketStart].item.bucket;
        var bucketEnd := bucketStart;
        while bucketEnd < |tuples| && tuples[bucketEnd].item.bucket == name
          invariant bucketStart <= bucketEnd <= |tuples|
          invariant forall i :: bucketStart <= i < bucketEnd ==> tuples[i].item.bucket == name
          invariant bucketEnd == bucketStart ==> tuples[bucketEnd].item.bucket == name
        {
          bucketEnd := bucketEnd + 1;
        }
        var b := PutRun(store, old(Contents()), tuples, name, bucketStart, bucketEnd);
        RunBuckets(tuples, name, bucketStart, bucketEnd);
        store := store[name := b];
        assert store.Keys == old(store.Keys) + set t | t in tuples[..bucketEnd] :: t.item.bucket;
        bucketStart := bucketEnd;
      }
      assert tuples[..|tuples|] == tuples;
    }

    /** Deletes from their bucket the history entries that one record lists. */
    method DeleteListed(timestamp: BlockNr, hBucket: Bytes, v: Bytes)
      requires ReadRecord(v).Some?
      modifies this
      ensures Contents() == old(Contents()) - ListedItems(timestamp, hBucket, v)
      ensures store.Keys == old(store.Keys)
    {
      hide *;
      var keys := ReadKeys(v);
      var ki := 0;
      FirstItems(timestamp, hBucket, keys.value, 0);
      while ki < |keys.value|
        invariant 0 <= ki <= |keys.value|
        invariant Contents() == old(Contents()) - ItemsOf(timestamp, hBucket, keys.value[..ki])
        invariant store.Keys == old(store.Keys)
      {
        Delete(hBucket, Composite(keys.value[ki], timestamp));
        FirstItems(timestamp, hBucket, keys.value, ki);
        ki := ki + 1;
      }
      AllItems(timestamp, hBucket, v, keys.value);
    }

    /** Deletes what the SUFFIX records list for the block, one record after the other, and then the records. At a
        record that names a missing bucket it stops: what was deleted stays deleted, and every record stays. */
    method DeleteTimestamp(timestamp: BlockNr) returns (ghost records: seq<Pair>, ghost done: nat)
      requires SUFFIX in store ==> RecordsOf(store[SUFFIX], timestamp)
      modifies this
      ensures store.Keys == old(store.Keys)
      ensures IsRecordsOf(old(store), timestamp, records) && done <= |records|
      ensures forall i :: 0 <= i < done ==> HistoryBucketOf(timestamp, records[i].key) in old(store)
      ensures done < |records| ==> HistoryBucketOf(timestamp, records[done].key) !in old(store)
      ensures old(NamesOthers(store, timestamp)) ==>
        Contents() == old(Contents()) - ErasedUpTo(timestamp, records, done)
      ensures old(BucketsOf(store, timestamp)) ==>
        Contents() == old(Contents()) - (if SUFFIX in old(store) then Doomed(old(store)[SUFFIX], timestamp) else {})
    {
      hide *;
      var visited := BlockRecords(store, timestamp);
      records, done := visited, 0;
      NamedBuckets(store, timestamp, visited);
      RecordsAre(store, timestamp, visited);
      MinusTwice(Contents(), {}, {});
      if SUFFIX !in store {
        ErasedIs(timestamp, visited, 0);
        return;
      }
      var n := DeleteHistory(timestamp, visited);
      done := n;
      ErasedIs(timestamp, visited, n);
      if n == |visited| {
        DeleteRecords(visited);
        assert visited[..|visited|] == visited;
        SplitDoomed(timestamp, visited);
        MinusTwice(old(Contents()), ListedByVisits(timestamp, visited), RecordItems(visited));
      }
    }

    /** The outer loop of DeleteTimestamp over the records of the block, up to the first that names a missing bucket. */
    method DeleteHistory(timestamp: BlockNr, visited: seq<Pair>) returns (n: nat)
      requires forall i :: 0 <= i < |visited| ==>
        HasPrefix(visited[i].key, Enc(timestamp)) && ReadRecord(visited[i].value).Some?
      modifies this
      ensures store.Keys == old(store.Keys) && n <= |visited|
      ensures forall i :: 0 <= i < n ==> HistoryBucketOf(timestamp, visited[i].key) in store
      ensures n < |visited| ==> HistoryBucketOf(timestamp, visited[n].key) !in store
      ensures Contents() == old(Contents()) - ListedByVisits(timestamp, visited[..n])
    {
      hide *;
      n := 0;
      NoVisits(timestamp, visited);
      while n < |visited|
        invariant 0 <= n <= |visited|
        invariant Contents() == old(Contents()) - ListedByVisits(timestamp, visited[..n])
        invariant store.Keys == old(store.Keys)
        invariant forall j :: 0 <= j < n ==> HistoryBucketOf(timestamp, visited[j].key) in store
      {
        var p := visited[n];
        if HistoryBucketOf(timestamp, p.key) !in store {
          return;
        }
        DeleteListed(timestamp, HistoryBucketOf(timestamp, p.key), p.value);
        OneMoreListed(timestamp, visited, n);
        n := n + 1;
      }
    }

    method DeleteRecords(records: seq<Pair>)
      modifies this
      ensures Contents() == old(Contents()) - RecordItems(records)
      ensures store.Keys == old(store.Keys)
    {
      hide Flatten;
      var i := 0;
      while i < |records|
        invariant 0 <= i <= |records|
        invariant Contents() == old(Contents()) - RecordItems(records[..i])
        invariant store.Keys == old(store.Keys)
      {
        Delete(SUFFIX, records[i].key);
        assert records[..i + 1] == records[..i] + [records[i]];
        i := i + 1;
      }
      assert records[..|records|] == records;
    }
  }

  /** No SUFFIX record of the block names the SUFFIX bucket itself. */
  ghost predicate NamesOthers(store: Store, t: BlockNr) {
    SUFFIX in store ==> forall sk :: sk in store[SUFFIX] && HasPrefix(sk, Enc(t)) ==> HistoryBucketOf(t, sk) != SUFFIX
  }

  /** And every one names a bucket that exists. */
  ghost predicate BucketsOf(store: Store, t: BlockNr) {
    && NamesOthers(store, t)
    && (SUFFIX in store ==> forall sk :: sk in store[SUFFIX] && HasPrefix(sk, Enc(t)) ==>
          HistoryBucketOf(t, sk) in store)
  }

  /** The SUFFIX records of the block, by ascending key. */
  ghost predicate IsRecordsOf(store: Store, t: BlockNr, records: seq<Pair>) {
    && Ascending(records)
    && (forall i :: 0 <= i < |records| ==> HasPrefix(records[i].key, Enc(t)))
    && forall p :: p in records <==>
      SUFFIX in store && p.key in store[SUFFIX] && p.value == store[SUFFIX][p.key] && HasPrefix(p.key, Enc(t))
  }

  lemma RecordsAre(store: Store, t: BlockNr, records: seq<Pair>)
    requires IsRecordsOf(store, t, records)
    ensures forall i :: 0 <= i < |records| ==> HasPrefix(records[i].key, Enc(t))
    ensures SUFFIX !in store ==> records == []
  {
    assert records != [] ==> records[0] in records;
  }

  /** The writes of one run, applied to its bucket. */
  method PutRun(store: Store, ghost before: Flat, tuples: seq<Tuple>, name: Bytes, start: nat,
                end: nat) returns (b: Bucket)
    requires start < end <= |tuples|
    requires forall i :: start <= i < end ==> tuples[i].item.bucket == name
    requires Flatten(store) == AssignAll(before, tuples[..start])
    ensures Flatten(store[name := b]) == AssignAll(before, tuples[..end])
  {
    hide Flatten, AssignAll, PutValue, Assign;
    b := BucketOf(store, name);
    FlattenCreate(store, name);
    var i := start;
    while i < end
      invariant start <= i <= end
      invariant Flatten(store[name := b]) == AssignAll(before, tuples[..i])
    {
      FlattenPut(store, name, b, tuples[i].item.key, tuples[i].value);
      assert tuples[..i + 1] == tuples[..i] + [tuples[i]];
      AssignAllAppend(before, tuples[..i], tuples[i]);
      b := PutValue(b, tuples[i].item.key, tuples[i].value);
      i := i + 1;
    }
  }

  lemma RunBuckets(tuples: seq<Tuple>, name: Bytes, start: nat, end: nat)
    requires start < end <= |tuples|
    requires forall i :: start <= i < end ==> tuples[i].item.bucket == name
    ensures (set t | t in tuples[..end] :: t.item.bucket) == (set t | t in tuples[..start] :: t.item.bucket) + {name}
  {
    assert tuples[start] in tuples[..end];
    forall t | t in tuples[..end]
      ensures t in tuples[..start] || t.item.bucket == name
    {
    }
    forall t | t in tuples[..start]
      ensures t in tuples[..end]
    {
    }
  }

  // Removal of a block's history

  /** The bucket name behind the encoding in a SUFFIX key. */
  function HistoryBucketOf(t: BlockNr, suffixkey: Bytes): Bytes
    requires HasPrefix(suffixkey, Enc(t))
  {
    suffixkey[|Enc(t)|..]
  }

  ghost function KeysIn(v: Bytes): seq<Bytes> {
    if ReadRecord(v).Some? then ReadRecord(v).value else []
  }

  /** What one SUFFIX record of block t makes DeleteTimestamp erase: itself, and the history
      entry of each key it lists. */
  ghost function DoomedBy(t: BlockNr, suffixkey: Bytes, v: Bytes): set<Item>
    requires HasPrefix(suffixkey, Enc(t))
  {
    {Item(SUFFIX, suffixkey)} + ListedItems(t, HistoryBucketOf(t, suffixkey), v)
  }

  ghost function ListedItems(t: BlockNr, hBucket: Bytes, v: Bytes): set<Item> {
    ItemsOf(t, hBucket, KeysIn(v))
  }

  ghost function ItemsOf(t: BlockNr, hBucket: Bytes, keys: seq<Bytes>): set<Item> {
    set key | key in keys :: Item(hBucket, Composite(key, t))
  }

  lemma FirstItems(t: BlockNr, hBucket: Bytes, keys: seq<Bytes>, n: nat)
    requires n <= |keys|
    ensures n == 0 ==> ItemsOf(t, hBucket, keys[..n]) == {}
    ensures n < |keys| ==>
      ItemsOf(t, hBucket, keys[..n + 1]) == ItemsOf(t, hBucket, keys[..n]) + {Item(hBucket, Composite(keys[n], t))}
  {
    if n < |keys| { assert keys[..n + 1] == keys[..n] + [keys[n]]; }
  }

  lemma AllItems(t: BlockNr, hBucket: Bytes, v: Bytes, keys: seq<Bytes>)
    requires ReadRecord(v) == Some(keys)
    ensures ItemsOf(t, hBucket, keys[..|keys|]) == ListedItems(t, hBucket, v)
  {
    assert keys[..|keys|] == keys;
  }

  ghost function ListedByVisits(t: BlockNr, visited: seq<Pair>): set<Item> {
    set p, i | p in visited && HasPrefix(p.key, Enc(t)) && i in ListedItems(t, HistoryBucketOf(t, p.key), p.value) :: i
  }

  /** What is gone once the first records were worked off: the entries they list, and in the end all records. */
  ghost function ErasedUpTo(t: BlockNr, records: seq<Pair>, done: nat): set<Item>
    requires done <= |records|
  {
    ListedByVisits(t, records[..done]) + if done == |records| then RecordItems(records) else {}
  }

  lemma ErasedIs(t: BlockNr, records: seq<Pair>, done: nat)
    requires done <= |records|
    ensures done < |records| ==> ErasedUpTo(t, records, done) == ListedByVisits(t, records[..done])
    ensures done == |records| ==> ErasedUpTo(t, records, done) == ListedByVisits(t, records) + RecordItems(records)
    ensures records == [] ==> ErasedUpTo(t, records, done) == {}
  {
    hide ListedByVisits;
    assert records[..|records|] == records;
    if records == [] {
      NoVisits(t, records);
    }
  }

  ghost function RecordItems(visited: seq<Pair>): set<Item> {
    set p | p in visited :: Item(SUFFIX, p.key)
  }

  lemma MinusTwice(m: Flat, a: set<Item>, b: set<Item>)
    ensures m - a - b == m - (a + b) && m - {} == m
  {
  }

  /** Under BucketsOf, every record met names an existing bucket. */
  lemma NamedBuckets(store: Store, t: BlockNr, visited: seq<Pair>)
    requires forall i :: 0 <= i < |visited| ==>
      SUFFIX in store && visited[i].key in store[SUFFIX] && HasPrefix(visited[i].key, Enc(t))
    ensures BucketsOf(store, t) ==> forall i :: 0 <= i < |visited| ==> HistoryBucketOf(t, visited[i].key) in store
  {
  }

  lemma NoVisits(t: BlockNr, visited: seq<Pair>)
    ensures ListedByVisits(t, visited[..0]) == {}
  {
  }

  lemma OneMoreListed(t: BlockNr, visited: seq<Pair>, i: nat)
    requires i < |visited| && HasPrefix(visited[i].key, Enc(t))
    ensures ListedByVisits(t, visited[..i + 1]) ==
            ListedByVisits(t, visited[..i]) + ListedItems(t, HistoryBucketOf(t, visited[i].key), visited[i].value)
  {
    hide ListedItems;
    assert visited[..i + 1] == visited[..i] + [visited[i]];
  }

  lemma SplitDoomed(t: BlockNr, visited: seq<Pair>)
    requires forall i :: 0 <= i < |visited| ==> HasPrefix(visited[i].key, Enc(t))
    ensures DoomedByVisits(t, visited) == ListedByVisits(t, visited) + RecordItems(visited)
  {
    hide ListedItems;
    forall p | p in visited
      ensures DoomedBy(t, p.key, p.value) == {Item(SUFFIX, p.key)} + ListedItems(t, HistoryBucketOf(t, p.key), p.value)
    {
    }
    var all, listed := DoomedByVisits(t, visited), ListedByVisits(t, visited);
    forall p | p in visited
      ensures Item(SUFFIX, p.key) in all
    {
      assert Item(SUFFIX, p.key) in DoomedBy(t, p.key, p.value);
    }
  }

  ghost function Doomed(sb: Bucket, t: BlockNr): set<Item> {
    set sk, i | sk in sb && HasPrefix(sk, Enc(t)) && i in DoomedBy(t, sk, sb[sk]) :: i
  }

  /** The SUFFIX records of block t can be read to their end. */
  ghost predicate RecordsOf(sb: Bucket, t: BlockNr) {
    && BucketWalk.Walkable(sb, Enc(t), 8 * |Enc(t)|)
    && forall sk :: sk in sb && HasPrefix(sk, Enc(t)) ==> ReadRecord(sb[sk]).Some?
  }

  ghost function DoomedByVisits(t: BlockNr, visited: seq<Pair>): set<Item> {
    set p, i | p in visited && HasPrefix(p.key, Enc(t)) && i in DoomedBy(t, p.key, p.value) :: i
  }

  /** Walking the SUFFIX bucket with the whole encoding fixed meets exactly the records of the block. */
  lemma VisitsOfBlock(sb: Bucket, t: BlockNr, walker: seq<Pair> -> Answer, visited: seq<Pair>)
    requires RecordsOf(sb, t) && BucketWalk.IsWalk(sb, Enc(t), 8 * |Enc(t)|, walker, visited)
    requires BucketWalk.Unstopped(walker, visited)
    ensures forall p :: p in visited <==> p.key in sb && p.value == sb[p.key] && HasPrefix(p.key, Enc(t))
    ensures DoomedByVisits(t, visited) == Doomed(sb, t)
  {
    hide DoomedBy;
    forall p: Pair
      ensures p in visited <==> p.key in sb && p.value == sb[p.key] && HasPrefix(p.key, Enc(t))
    {
      if p.key in sb && p.value == sb[p.key] {
        if HasPrefix(p.key, Enc(t)) { PrefixNotBelow(p.key, Enc(t)); }
        if !Less(p.key, Enc(t)) {
          AgreeIsPrefix(p.key, Enc(t));
          assert p in visited <==> BucketWalk.Wanted(sb, Enc(t), 8 * |Enc(t)|, p);
        }
      }
    }
    forall i | i in Doomed(sb, t)
      ensures i in DoomedByVisits(t, visited)
    {
      var sk :| sk in sb && HasPrefix(sk, Enc(t)) && i in DoomedBy(t, sk, sb[sk]);
      assert Pair(sk, sb[sk]) in visited;
    }
  }

  /** The SUFFIX records of a block. The prefix test of BoltDatabase.DeleteTimestamp's own cursor loop is the walk's
      test with every bit of the encoding fixed. */
  method BlockRecords(store: Store, timestamp: BlockNr) returns (visited: seq<Pair>)
    requires SUFFIX in store ==> RecordsOf(store[SUFFIX], timestamp)
    ensures SUFFIX !in store ==> visited == []
    ensures forall i :: 0 <= i < |visited| ==>
      SUFFIX in store && visited[i].key in store[SUFFIX] && HasPrefix(visited[i].key, Enc(timestamp)) &&
      visited[i].value == store[SUFFIX][visited[i].key] && ReadRecord(visited[i].value).Some?
    ensures IsRecordsOf(store, timestamp, visited)
    ensures DoomedByVisits(timestamp, visited) == if SUFFIX in store then Doomed(store[SUFFIX], timestamp) else {}
  {
    hide ReadRecord, Doomed, DoomedBy;
    var suffix := EncodeTimestamp(timestamp);
    var failed;
    visited, failed := BucketWalk.Walk(store, SUFFIX, suffix, 8 * |suffix|, _ => Answer(true, false));
    if SUFFIX in store {
      VisitsOfBlock(store[SUFFIX], timestamp, _ => Answer(true, false), visited);
      assert forall i :: 0 <= i < |visited| ==> visited[i] in visited;
    }
  }

  lemma PrefixNotBelow(s: Bytes, p: Bytes)
    requires HasPrefix(s, p)
    ensures !Less(s, p)
  {
    assert s == p + s[|p|..];
    LessExtension(p, s[|p|..]);
    LessIrreflexive(p);
    if s[|p|..] != [] { LessAsymmetric(p, s); }
  }

  // Batches

  datatype Parent = NoDb | Bolt(bolt: BoltDatabase) | Batch(batch: Mutation)

  /** The SUFFIX key of a block and a history bucket. */
  function SuffixItem(t: BlockNr, hBucket: Bytes): Item {
    Item(SUFFIX, Enc(t) + hBucket)
  }

  function AddSuffix(sk: SuffixKeys, t: BlockNr, hBucket: Bytes, key: Bytes): SuffixKeys {
    var byBucket := if t in sk then sk[t] else map[];
    var keys := if hBucket in byBucket then byBucket[hBucket] else [];
    sk[t := byBucket[hBucket := keys + [key]]]
  }

  function Pairs(sk: SuffixKeys): set<(BlockNr, Bytes)> {
    set t, b | t in sk && b in sk[t] :: (t, b)
  }

  ghost predicate Readable(m: Flat) {
    forall i :: i in m && i.bucket == SUFFIX ==> |m[i]| >= 4
  }

  /** The records that the pending keys are appended to have a counter to read. */
  ghost predicate ReadableFor(m: Flat, sk: SuffixKeys) {
    forall p :: p in Pairs(sk) && SuffixItem(p.0, p.1) in m ==> |m[SuffixItem(p.0, p.1)]| >= 4
  }

  lemma ReadableForAny(m: Flat, sk: SuffixKeys)
    requires Readable(m)
    ensures ReadableFor(m, sk)
  {
  }

  /** m' is m with the keys of the given blocks and buckets appended to their SUFFIX
      records, and nothing else changed. */
  ghost predicate Indexed(m: Flat, sk: SuffixKeys, done: set<(BlockNr, Bytes)>, m': Flat) {
    && ReadableFor(m, sk)
    && done <= Pairs(sk)
    && (forall i: Item :: (i.bucket != SUFFIX || forall p :: p in done ==> i != SuffixItem(p.0, p.1)) ==>
          Lookup(m', i) == Lookup(m, i))
    && (forall p :: p in done ==>
          Lookup(m', SuffixItem(p.0, p.1)) == Some(AppendKeys(Lookup(m, SuffixItem(p.0, p.1)), sk[p.0][p.1])))
  }

  lemma IndexedElsewhere(m: Flat, sk: SuffixKeys, done: set<(BlockNr, Bytes)>, m': Flat)
    requires Indexed(m, sk, done, m')
    ensures forall b, k :: b != SUFFIX ==> Lookup(m', Item(b, k)) == Lookup(m, Item(b, k))
  {
  }

  lemma SameItself(puts: Puts)
    ensures SamePuts(puts, puts)
  {
  }

  /** Writing a record changes a layer in the SUFFIX bucket only, and leaves it readable. */
  lemma RecordPut(before: Puts, puts: Puts, i: Item, dat: Option<Bytes>, keys: seq<Bytes>)
    requires i.bucket == SUFFIX && (dat.Some? ==> |dat.value| >= 4) && SamePuts(before, puts)
    ensures SamePuts(before, puts[i := Some(AppendKeys(dat, keys))])
    ensures PutsReadable(puts) ==> PutsReadable(puts[i := Some(AppendKeys(dat, keys))])
  {
    assert |AppendKeys(dat, keys)| >= 4;
  }

  lemma SameUnion(below: Puts, a: Puts, b: Puts)
    requires SamePuts(a, b)
    ensures SamePuts(below + a, below + b)
    ensures PutsReadable(below) && PutsReadable(b) ==> PutsReadable(below + b)
  {
  }

  lemma SuffixItemInjective(p: (BlockNr, Bytes), r: (BlockNr, Bytes))
    requires SuffixItem(p.0, p.1) == SuffixItem(r.0, r.1)
    ensures p == r
  {
    EncPrefixFree(p.0, r.0, p.1, r.1);
  }

  lemma IndexNone(m: Flat, sk: SuffixKeys)
    requires ReadableFor(m, sk)
    ensures Indexed(m, sk, {}, m)
  {
  }

  lemma IndexOne(m: Flat, sk: SuffixKeys, done: set<(BlockNr, Bytes)>, m': Flat, p: (BlockNr, Bytes), m'': Flat)
    requires Indexed(m, sk, done, m') && p in Pairs(sk) && p !in done
    requires Lookup(m', SuffixItem(p.0, p.1)).Some? ==> |Lookup(m', SuffixItem(p.0, p.1)).value| >= 4
    requires m'' == m'[SuffixItem(p.0, p.1) := AppendKeys(Lookup(m', SuffixItem(p.0, p.1)), sk[p.0][p.1])]
    ensures Indexed(m, sk, done + {p}, m'')
  {
    OtherRecords(done, p);
    hide AppendKeys, SuffixItem;
    var i := SuffixItem(p.0, p.1);
    assert Lookup(m', i) == Lookup(m, i);
    forall r | r in done + {p}
      ensures Lookup(m'', SuffixItem(r.0, r.1)) == Some(AppendKeys(Lookup(m, SuffixItem(r.0, r.1)), sk[r.0][r.1]))
    {
      if r != p { assert Lookup(m'', SuffixItem(r.0, r.1)) == Lookup(m', SuffixItem(r.0, r.1)); }
    }
  }

  lemma OtherRecords(done: set<(BlockNr, Bytes)>, p: (BlockNr, Bytes))
    requires p !in done
    ensures forall r :: r in done ==> SuffixItem(r.0, r.1) != SuffixItem(p.0, p.1)
    ensures SuffixItem(p.0, p.1).bucket == SUFFIX
  {
    forall r | r in done
      ensures SuffixItem(r.0, r.1) != SuffixItem(p.0, p.1)
    {
      if SuffixItem(r.0, r.1) == SuffixItem(p.0, p.1) { SuffixItemInjective(p, r); }
    }
  }

  class Mutation {
    const db: Parent
    /** The batch and everything it is stacked on; neither ever changes, so neither does validity. */
    ghost const chain: set<object>
    ghost const depth: nat
    var puts: Puts
    var suffixkeys: SuffixKeys

    ghost predicate Valid()
      decreases depth
    {
      && this in chain
      && match db {
           case NoDb => true
           case Bolt(b) => b in chain
           case Batch(p) => p.depth < depth && p.chain <= chain && this !in p.chain && p.Valid()
         }
    }

    /** What the layers below hold. */
    ghost function Below(): Flat
      requires Valid()
      reads chain
      decreases depth, 0
    {
      match db
      case NoDb => map[]
      case Bolt(b) => b.Contents()
      case Batch(p) => p.Contents()
    }

    /** The flat map that this batch stands for. */
    ghost function Contents(): Flat
      requires Valid()
      reads chain
      decreases depth, 1
    {
      Overlay(Below(), puts)
    }

    /** NewBatch, on the database or on another batch. */
    constructor (parent: Parent)
      requires parent.Batch? ==> parent.batch.Valid()
      ensures Valid() && db == parent && puts == map[] && suffixkeys == map[]
      ensures chain == {this} + ChainOf(parent)
    {
      db := parent;
      depth := if parent.Batch? then parent.batch.depth + 1 else 0;
      chain := {this} + ChainOf(parent);
      puts, suffixkeys := map[], map[];
    }

    /** A batch without writes shows what lies below it. */
    lemma CleanView()
      requires Valid() && puts == map[]
      ensures Contents() == Below()
    {
      OverlayNothing(Below());
    }

    /** Get and getNoLock: the topmost layer that mentions the key decides; None is ErrKeyNotFound. */
    function Get(bucket: Bytes, key: Bytes): (r: Option<Bytes>)
      requires Valid()
      reads chain
      ensures r == Lookup(Contents(), Item(bucket, key))
      decreases depth
    {
      if Item(bucket, key) in puts then puts[Item(bucket, key)]
      else
        match db
        case NoDb => None
        case Bolt(b) =>
          FlattenAt(b.store, Item(bucket, key));
          if bucket in b.store && key in b.store[bucket] then Some(b.store[bucket][key]) else None
        case Batch(p) => p.Get(bucket, key)
    }

    method Put(bucket: Bytes, key: Bytes, value: Bytes)
      requires Valid()
      modifies this`puts
      ensures Contents() == old(Contents())[Item(bucket, key) := value] && Below() == old(Below())
      ensures puts == old(puts)[Item(bucket, key) := Some(value)]
    {
      OverlayPut(Below(), puts, Tuple(Item(bucket, key), Some(value)));
      puts := puts[Item(bucket, key) := Some(value)];
    }

    method Delete(bucket: Bytes, key: Bytes)
      requires Valid()
      modifies this`puts
      ensures Contents() == old(Contents()) - {Item(bucket, key)} && Below() == old(Below())
      ensures puts == old(puts)[Item(bucket, key) := None]
    {
      OverlayPut(Below(), puts, Tuple(Item(bucket, key), None));
      puts := puts[Item(bucket, key) := None];
    }

    /** Records the value that block timestamp is about to overwrite. */
    method PutS(hBucket: Bytes, key: Bytes, value: Option<Bytes>, timestamp: BlockNr)
      requires Valid()
      modifies this
      ensures Contents() == Assign(old(Contents()), Tuple(Item(hBucket, Composite(key, timestamp)), value))
      ensures Below() == old(Below())
      ensures suffixkeys == AddSuffix(old(suffixkeys), timestamp, hBucket, key)
      ensures puts == old(puts)[Item(hBucket, Composite(key, timestamp)) := value]
    {
      suffixkeys := AddSuffix(suffixkeys, timestamp, hBucket, key);
      OverlayPut(Below(), puts, Tuple(Item(hBucket, Composite(key, timestamp)), value));
      puts := puts[Item(hBucket, Composite(key, timestamp)) := value];
    }

    method MultiPut(tuples: seq<Tuple>)
      requires Valid()
      modifies this`puts
      ensures Contents() == AssignAll(old(Contents()), tuples) && Below() == old(Below())
      ensures puts == PutAll(old(puts), tuples)
    {
      hide Overlay, Flatten;
      var i := 0;
      assert tuples[..0] == [];
      while i < |tuples|
        invariant 0 <= i <= |tuples| && puts == PutAll(old(puts), tuples[..i])
        invariant Contents() == AssignAll(old(Contents()), tuples[..i])
        invariant Below() == old(Below())
      {
        OverlayPut(Below(), puts, tuples[i]);
        assert tuples[..i + 1] == tuples[..i] + [tuples[i]];
        AssignAllAppend(old(Contents()), tuples[..i], tuples[i]);
        PutAllAppend(old(puts), tuples[..i], tuples[i]);
        puts := puts[tuples[i].item := tuples[i].value];
        i := i + 1;
      }
      assert tuples[..|tuples|] == tuples;
    }

    method Rollback()
      requires Valid()
      modifies this
      ensures puts == map[] && suffixkeys == map[]
      ensures Contents() == Below() == old(Below())
    {
      puts, suffixkeys := map[], map[];
      OverlayNothing(Below());
    }

    /** The stack ends in a database rather than in nothing. */
    ghost predicate Rooted()
      requires Valid()
      decreases depth
    {
      match db
      case NoDb => false
      case Bolt(_) => true
      case Batch(p) => p.Rooted()
    }

    /** What Walk, GetAsOf and WalkAsOf of a batch read: they pass through every batch to the database. */
    function BaseStore(): Store
      requires Valid() && Rooted()
      reads chain
      decreases depth
    {
      match db
      case Bolt(b) => b.store
      case Batch(p) => p.BaseStore()
    }

    /** Buries everything that one SUFFIX record of the block lists, and the record. */
    method BuryRecord(timestamp: BlockNr, suffixkey: Bytes, v: Bytes)
      requires Valid() && HasPrefix(suffixkey, Enc(timestamp)) && ReadRecord(v).Some?
      modifies this`puts
      ensures Contents() == old(Contents()) - DoomedBy(timestamp, suffixkey, v) && Below() == old(Below())
    {
      hide Overlay, ReadRecord, Flatten, ListedItems, ItemsOf;
      var hBucket := HistoryBucketOf(timestamp, suffixkey);
      var keys := ReadKeys(v);
      var ki := 0;
      FirstItems(timestamp, hBucket, keys.value, 0);
      while ki < |keys.value|
        invariant 0 <= ki <= |keys.value|
        invariant Contents() == old(Contents()) - ItemsOf(timestamp, hBucket, keys.value[..ki])
        invariant Below() == old(Below())
      {
        Delete(hBucket, Composite(keys.value[ki], timestamp));
        FirstItems(timestamp, hBucket, keys.value, ki);
        ki := ki + 1;
      }
      AllItems(timestamp, hBucket, v, keys.value);
      Delete(SUFFIX, suffixkey);
    }

    /** Erases what the database's SUFFIX records list for the block, as tombstones of this batch. */
    method DeleteTimestamp(timestamp: BlockNr)
      requires Valid() && Rooted()
      requires SUFFIX in BaseStore() ==> RecordsOf(BaseStore()[SUFFIX], timestamp)
      modifies this`puts
      ensures Contents() ==
        old(Contents()) - (if SUFFIX in BaseStore() then Doomed(BaseStore()[SUFFIX], timestamp) else {})
      ensures Below() == old(Below())
    {
      hide Overlay, ReadRecord, Flatten, DoomedBy, Doomed, RecordsOf;
      var visited := BlockRecords(BaseStore(), timestamp);
      ghost var before := Contents();
      var i := 0;
      while i < |visited|
        invariant 0 <= i <= |visited|
        invariant Contents() == before - DoomedByVisits(timestamp, visited[..i]) && Below() == old(Below())
      {
        BuryRecord(timestamp, visited[i].key, visited[i].value);
        OneMoreVisit(timestamp, visited, i);
        i := i + 1;
      }
      assert visited[..|visited|] == visited;
    }

    /** The first half of Commit: appends the collected keys to the SUFFIX records, in any
        order of blocks and buckets. */
    method WriteIndex()
      requires Valid() && ReadableFor(Contents(), suffixkeys)
      modifies this`puts
      ensures Indexed(old(Contents()), suffixkeys, Pairs(suffixkeys), Contents()) && Below() == old(Below())
      ensures SamePuts(old(puts), puts) && (PutsReadable(old(puts)) ==> PutsReadable(puts))
    {
      hide Flatten, Overlay, AppendKeys, Indexed, SamePuts, PutsReadable, ReadableFor, AddSuffix;
      IndexNone(Contents(), suffixkeys);
      SameItself(puts);
      var todo := Pairs(suffixkeys);
      ghost var done: set<(BlockNr, Bytes)> := {};
      while todo != {}
        invariant todo + done == Pairs(suffixkeys) && todo !! done
        invariant Indexed(old(Contents()), suffixkeys, done, Contents()) && Below() == old(Below())
        invariant SamePuts(old(puts), puts) && (PutsReadable(old(puts)) ==> PutsReadable(puts))
        decreases todo
      {
        var p :| p in todo;
        var suffixkey := SuffixItem(p.0, p.1);
        var dat := Get(SUFFIX, suffixkey.key);
        RecordReadable(old(Contents()), suffixkeys, done, Contents(), p);
        var dv := BuildRecord(dat, suffixkeys[p.0][p.1]);
        OverlayPut(Below(), puts, Tuple(suffixkey, Some(dv)));
        IndexOne(old(Contents()), suffixkeys, done, Contents(), p, Contents()[suffixkey := dv]);
        RecordPut(old(puts), puts, suffixkey, dat, suffixkeys[p.0][p.1]);
        puts := puts[suffixkey := Some(dv)];
        todo, done := todo - {p}, done + {p};
      }
      assert done == Pairs(suffixkeys);
    }

    /** Flushes the batch into its parent; with no parent it does nothing. */
    method Commit()
      requires Valid() && (!db.NoDb? ==> ReadableFor(Contents(), suffixkeys))
      modifies this, ParentObject(db)
      ensures db.NoDb? ==> puts == old(puts) && suffixkeys == old(suffixkeys)
      ensures !db.NoDb? ==> puts == map[] && suffixkeys == map[] && Contents() == Below()
      ensures !db.NoDb? ==> Indexed(old(Contents()), old(suffixkeys), Pairs(old(suffixkeys)), Contents())
      ensures db.Batch? ==> db.batch.Below() == old(db.batch.Below()) && db.batch.suffixkeys == old(db.batch.suffixkeys)
      ensures forall b, k :: b != SUFFIX ==> Get(b, k) == old(Get(b, k))
      ensures db.Batch? ==> SamePuts(old(db.batch.puts + puts), db.batch.puts)
      ensures db.Batch? && old(PutsReadable(puts) && PutsReadable(db.batch.puts)) ==> PutsReadable(db.batch.puts)
    {
      hide Flatten, Overlay, AppendKeys, Indexed, AssignAll, SamePuts, PutsReadable, PutAll;
      if db.NoDb? {
        return;
      }
      WriteIndex();
      var tuples := Enumerate(puts);
      ghost var flushed := Contents();
      assert AssignAll(Below(), tuples) == flushed;
      match db {
        case Bolt(b) => b.MultiPut(tuples);
        case Batch(p) =>
          SameUnion(p.puts, old(puts), puts);
          p.MultiPut(tuples);
      }
      suffixkeys := map[];
      puts := map[];
      assert Below() == flushed;
      OverlayNothing(Below());
      IndexedElsewhere(old(Contents()), old(suffixkeys), Pairs(old(suffixkeys)), Contents());
    }
  }

  lemma OneMoreVisit(t: BlockNr, visited: seq<Pair>, i: nat)
    requires i < |visited| && HasPrefix(visited[i].key, Enc(t))
    ensures DoomedByVisits(t, visited[..i + 1]) ==
      DoomedByVisits(t, visited[..i]) + DoomedBy(t, visited[i].key, visited[i].value)
  {
    hide DoomedBy;
    assert visited[..i + 1] == visited[..i] + [visited[i]];
  }

  ghost function ChainOf(db: Parent): set<object> {
    match db
    case NoDb => {}
    case Bolt(b) => {b}
    case Batch(p) => p.chain
  }

  ghost function ParentObject(db: Parent): set<object> {
    match db
    case NoDb => {}
    case Bolt(b) => {b}
    case Batch(p) => {p}
  }

  lemma RecordReadable(m: Flat, sk: SuffixKeys, done: set<(BlockNr, Bytes)>, m': Flat, p: (BlockNr, Bytes))
    requires Indexed(m, sk, done, m') && p in Pairs(sk) && p !in done
    ensures Lookup(m', SuffixItem(p.0, p.1)) == Lookup(m, SuffixItem(p.0, p.1))
    ensures Lookup(m', SuffixItem(p.0, p.1)).Some? ==> |Lookup(m', SuffixItem(p.0, p.1)).value| >= 4
  {
    forall r | r in done
      ensures SuffixItem(r.0, r.1) != SuffixItem(p.0, p.1)
    {
      if SuffixItem(r.0, r.1) == SuffixItem(p.0, p.1) { SuffixItemInjective(p, r); }
    }
  }

  /** The tuples that Commit hands down, in any order. */
  method Enumerate(puts: Puts) returns (tuples: seq<Tuple>)
    ensures forall m :: AssignAll(m, tuples) == Overlay(m, puts)
    ensures forall x :: PutAll(x, tuples) == x + puts
  {
    tuples := [];
    var todo := puts.Keys;
    ghost var done: Puts := map[];
    assert forall m :: Overlay(m, map[]) == m by {
      forall m ensures Overlay(m, map[]) == m { OverlayNothing(m); }
    }
    while todo != {}
      invariant done.Keys + todo == puts.Keys && done.Keys !! todo
      invariant forall i :: i in done ==> done[i] == puts[i]
      invariant forall m :: AssignAll(m, tuples) == Overlay(m, done)
      invariant forall x :: PutAll(x, tuples) == x + done
      decreases todo
    {
      var i :| i in todo;
      var t := Tuple(i, puts[i]);
      forall m
        ensures AssignAll(m, tuples + [t]) == Overlay(m, done[i := puts[i]])
      {
        AssignAllAppend(m, tuples, t);
        OverlayPut(m, done, t);
      }
      forall x
        ensures PutAll(x, tuples + [t]) == x + done[i := puts[i]]
      {
        PutAllAppend(x, tuples, t);
        assert (x + done)[i := puts[i]] == x + done[i := puts[i]];
      }
      tuples := tuples + [t];
      done := done[i := puts[i]];
      todo := todo - {i};
    }
    assert done == puts;
  }
}
