/** The SUFFIX bucket as an index of the history buckets: for each block, which keys it changed. */
module SuffixIndex {
  import opened Options
  import opened ByteOrder
  import opened Encoding
  import opened Buckets
  import opened Records
  import opened Mutations

  /** The history buckets, with the one key length of each. */
  type Schema = map<Bytes, nat>
  /** Changes recorded by PutS but not yet in a SUFFIX record: block, history bucket, key. */
  type Pending = set<(BlockNr, Bytes, Bytes)>

  ghost predicate ValidSchema(sc: Schema) {
    SUFFIX !in sc && forall hb :: hb in sc ==> sc[hb] < 256
  }

  ghost function Listed(m: Flat, t: BlockNr, hb: Bytes): seq<Bytes> {
    if SuffixItem(t, hb) in m then KeysIn(m[SuffixItem(t, hb)]) else []
  }

  /** A record that was written for keys of length l. */
  ghost predicate GoodRecord(l: nat, v: Bytes) {
    var keys := KeysIn(v);
    v == Record(keys) && 0 < |keys| < U32_LIMIT && forall k :: k in keys ==> |k| == l
  }

  ghost predicate GoodSuffixItem(sc: Schema, i: Item, v: Bytes) {
    exists t: BlockNr, hb :: i == SuffixItem(t, hb) && hb in sc && GoodRecord(sc[hb], v)
  }

  ghost predicate RecordsGood(sc: Schema, m: Flat) {
    forall i :: i in m && i.bucket == SUFFIX ==> GoodSuffixItem(sc, i, m[i])
  }

  ghost predicate HistoryGood(sc: Schema, m: Flat) {
    forall i :: i in m && i.bucket in sc ==> IsHistoryKey(i.key, sc[i.bucket])
  }

  /** A history entry exists exactly if its key is in the block's record, or waits to be put there. */
  ghost predicate ListedExactly(sc: Schema, m: Flat, pending: Pending) {
    forall t: BlockNr, hb, k :: hb in sc && |k| == sc[hb] ==>
      (Item(hb, Composite(k, t)) in m <==> k in Listed(m, t, hb) || (t, hb, k) in pending)
  }

  ghost predicate IndexExact(sc: Schema, m: Flat, pending: Pending) {
    ValidSchema(sc) && RecordsGood(sc, m) && HistoryGood(sc, m) && ListedExactly(sc, m, pending)
  }

  lemma GoodSuffixItemParts(sc: Schema, m: Flat, t: BlockNr, hb: Bytes)
    requires RecordsGood(sc, m) && SuffixItem(t, hb) in m
    ensures hb in sc && GoodRecord(sc[hb], m[SuffixItem(t, hb)])
  {
    var i := SuffixItem(t, hb);
    var t', hb' :| i == SuffixItem(t', hb') && hb' in sc && GoodRecord(sc[hb'], m[i]);
    SuffixItemInjective((t, hb), (t', hb'));
  }

  lemma GoodIsReadable(sc: Schema, m: Flat)
    requires RecordsGood(sc, m)
    ensures Readable(m)
  {
  }

  lemma RecordIsGood(l: nat, keys: seq<Bytes>)
    requires l < 256 && 0 < |keys| < U32_LIMIT && forall k :: k in keys ==> |k| == l
    ensures GoodRecord(l, Record(keys)) && KeysIn(Record(keys)) == keys
  {
    RecordRead(keys);
  }

  // PutS

  /** A change recorded with a value keeps the index exact; one recorded with nil, which
      stores a tombstone, never does. */
  lemma PutSKeepsIndex(sc: Schema, m: Flat, pending: Pending, hb: Bytes, key: Bytes, value: Option<Bytes>, t: BlockNr)
    requires IndexExact(sc, m, pending) && hb in sc && |key| == sc[hb]
    ensures IndexExact(sc, Assign(m, Tuple(Item(hb, Composite(key, t)), value)), pending + {(t, hb, key)}) <==>
      value.Some?
  {
    hide RecordsGood, HistoryGood, Listed, Composite;
    var i := Item(hb, Composite(key, t));
    var m' := Assign(m, Tuple(i, value));
    if value.Some? {
      PutSKeepsShape(sc, m, hb, key, value.value, t);
      forall t': BlockNr, hb', k | hb' in sc && |k| == sc[hb']
        ensures Item(hb', Composite(k, t')) in m' <==>
          k in Listed(m', t', hb') || (t', hb', k) in pending + {(t, hb, key)}
      {
        PutSKeepsEntry(sc, m, hb, key, value.value, t, t', hb', k);
      }
    } else {
      assert i !in m' && (t, hb, key) in pending + {(t, hb, key)};
    }
  }

  lemma PutSKeepsShape(sc: Schema, m: Flat, hb: Bytes, key: Bytes, value: Bytes, t: BlockNr)
    requires ValidSchema(sc) && RecordsGood(sc, m) && HistoryGood(sc, m) && hb in sc && |key| == sc[hb]
    ensures var m' := m[Item(hb, Composite(key, t)) := value]; RecordsGood(sc, m') && HistoryGood(sc, m')
  {
    hide GoodSuffixItem;
    assert IsHistoryKey(Composite(key, t), sc[hb]) by {
      assert Composite(key, t)[..sc[hb]] == key;
    }
  }

  /** A new change is the only entry PutS adds, and it touches no record. */
  lemma PutSKeepsEntry(sc: Schema, m: Flat, hb: Bytes, key: Bytes, value: Bytes, t: BlockNr, t': BlockNr, hb': Bytes,
                       k: Bytes)
    requires ValidSchema(sc) && hb in sc && |key| == sc[hb] && hb' in sc && |k| == sc[hb']
    ensures var m' := m[Item(hb, Composite(key, t)) := value];
      && (Item(hb', Composite(k, t')) in m' <==> Item(hb', Composite(k, t')) in m || (t', hb', k) == (t, hb, key))
      && Listed(m', t', hb') == Listed(m, t', hb')
  {
    hide Composite, KeysIn, Less;
    if hb' == hb { CompositeOrder(k, t', key, t); }
  }

  // Commit

  ghost function PendingOf(sk: SuffixKeys): Pending {
    set t, hb, k | t in sk && hb in sk[t] && k in sk[t][hb] :: (t, hb, k)
  }

  /** What PutS collects: non-empty lists of keys of the right length. */
  ghost predicate GoodPending(sc: Schema, sk: SuffixKeys) {
    forall t, hb :: t in sk && hb in sk[t] ==>
      hb in sc && sk[t][hb] != [] && forall k :: k in sk[t][hb] ==> |k| == sc[hb]
  }

  /** The record counters have room for what is pending. */
  ghost predicate RoomFor(m: Flat, sk: SuffixKeys) {
    forall t, hb :: t in sk && hb in sk[t] ==> |Listed(m, t, hb)| + |sk[t][hb]| < U32_LIMIT
  }

  lemma AddSuffixIsPending(sc: Schema, sk: SuffixKeys, t: BlockNr, hb: Bytes, key: Bytes)
    requires GoodPending(sc, sk) && hb in sc && |key| == sc[hb]
    ensures GoodPending(sc, AddSuffix(sk, t, hb, key))
    ensures PendingOf(AddSuffix(sk, t, hb, key)) == PendingOf(sk) + {(t, hb, key)}
  {
    var sk' := AddSuffix(sk, t, hb, key);
    forall t', hb', k
      ensures (t', hb', k) in PendingOf(sk') <==> (t', hb', k) in PendingOf(sk) + {(t, hb, key)}
    {
    }
  }

  lemma IndexedAt(m: Flat, sk: SuffixKeys, m': Flat, t: BlockNr, hb: Bytes)
    requires t in sk && hb in sk[t] && Indexed(m, sk, Pairs(sk), m')
    ensures Lookup(m, SuffixItem(t, hb)).Some? ==> |Lookup(m, SuffixItem(t, hb)).value| >= 4
    ensures Lookup(m', SuffixItem(t, hb)) == Some(AppendKeys(Lookup(m, SuffixItem(t, hb)), sk[t][hb]))
  {
    assert (t, hb) in Pairs(sk);
  }

  lemma CommittedRecord(sc: Schema, m: Flat, sk: SuffixKeys, m': Flat, t: BlockNr, hb: Bytes)
    requires t in sk && hb in sk[t] && hb in sc
    requires ValidSchema(sc) && RecordsGood(sc, m) && GoodPending(sc, sk) && RoomFor(m, sk)
    requires Indexed(m, sk, Pairs(sk), m')
    ensures SuffixItem(t, hb) in m' && GoodRecord(sc[hb], m'[SuffixItem(t, hb)])
    ensures Listed(m', t, hb) == Listed(m, t, hb) + sk[t][hb]
  {
    hide Indexed, AppendKeys, Record;
    var i := SuffixItem(t, hb);
    IndexedAt(m, sk, m', t, hb);
    var old_, new_ := Listed(m, t, hb), sk[t][hb];
    if i in m {
      GoodSuffixItemParts(sc, m, t, hb);
      AppendIsConcat(old_, new_);
    } else {
      AppendToNothing(new_);
      assert old_ + new_ == new_;
    }
    RecordIsGood(sc[hb], old_ + new_);
  }

  lemma UntouchedRecord(sc: Schema, m: Flat, sk: SuffixKeys, m': Flat, t: BlockNr, hb: Bytes)
    requires Indexed(m, sk, Pairs(sk), m') && (t, hb) !in Pairs(sk)
    ensures Lookup(m', SuffixItem(t, hb)) == Lookup(m, SuffixItem(t, hb))
    ensures Listed(m', t, hb) == Listed(m, t, hb)
  {
    forall p | p in Pairs(sk)
      ensures SuffixItem(t, hb) != SuffixItem(p.0, p.1)
    {
      if SuffixItem(t, hb) == SuffixItem(p.0, p.1) { SuffixItemInjective((t, hb), p); }
    }
  }

  /** Commit moves what was pending into the records and keeps the index exact. */
  lemma CommitKeepsIndex(sc: Schema, m: Flat, sk: SuffixKeys, rest: Pending, m': Flat)
    requires IndexExact(sc, m, PendingOf(sk) + rest) && GoodPending(sc, sk) && RoomFor(m, sk)
    requires Indexed(m, sk, Pairs(sk), m')
    ensures IndexExact(sc, m', rest)
  {
    CommitKeepsRecords(sc, m, sk, m');
    assert HistoryGood(sc, m') by {
      forall i | i in m' && i.bucket in sc
        ensures IsHistoryKey(i.key, sc[i.bucket])
      {
        assert Lookup(m', i) == Lookup(m, i);
      }
    }
    forall t: BlockNr, hb, k | hb in sc && |k| == sc[hb]
      ensures Item(hb, Composite(k, t)) in m' <==> k in Listed(m', t, hb) || (t, hb, k) in rest
    {
      CommitKeepsEntry(sc, m, sk, rest, m', t, hb, k);
    }
  }

  lemma CommitKeepsEntry(sc: Schema, m: Flat, sk: SuffixKeys, rest: Pending, m': Flat, t: BlockNr, hb: Bytes, k: Bytes)
    requires IndexExact(sc, m, PendingOf(sk) + rest) && GoodPending(sc, sk) && RoomFor(m, sk)
    requires Indexed(m, sk, Pairs(sk), m') && hb in sc && |k| == sc[hb]
    ensures Item(hb, Composite(k, t)) in m' <==> k in Listed(m', t, hb) || (t, hb, k) in rest
  {
    assert Lookup(m', Item(hb, Composite(k, t))) == Lookup(m, Item(hb, Composite(k, t)));
    hide Indexed;
    if (t, hb) in Pairs(sk) {
      CommittedRecord(sc, m, sk, m', t, hb);
      assert (t, hb, k) in PendingOf(sk) <==> k in sk[t][hb];
    } else {
      UntouchedRecord(sc, m, sk, m', t, hb);
      assert (t, hb, k) !in PendingOf(sk);
    }
  }

  lemma CommitKeepsRecords(sc: Schema, m: Flat, sk: SuffixKeys, m': Flat)
    requires ValidSchema(sc) && RecordsGood(sc, m) && GoodPending(sc, sk) && RoomFor(m, sk)
    requires Indexed(m, sk, Pairs(sk), m')
    ensures RecordsGood(sc, m')
  {
    hide Indexed, GoodSuffixItem, ValidSchema, GoodPending, RoomFor;
    forall i | i in m' && i.bucket == SUFFIX
      ensures GoodSuffixItem(sc, i, m'[i])
    {
      CommitKeepsRecord(sc, m, sk, m', i);
    }
  }

  lemma CommitKeepsRecord(sc: Schema, m: Flat, sk: SuffixKeys, m': Flat, i: Item)
    requires ValidSchema(sc) && RecordsGood(sc, m) && GoodPending(sc, sk) && RoomFor(m, sk)
    requires Indexed(m, sk, Pairs(sk), m') && i in m' && i.bucket == SUFFIX
    ensures GoodSuffixItem(sc, i, m'[i])
  {
    hide Indexed, GoodSuffixItem, ValidSchema, GoodPending, RoomFor, RecordsGood, SuffixItem;
    if p :| p in Pairs(sk) && i == SuffixItem(p.0, p.1) {
      NewRecord(sc, m, sk, m', p.0, p.1);
    } else {
      KeptRecord(sc, m, sk, m', i);
    }
  }

  lemma NewRecord(sc: Schema, m: Flat, sk: SuffixKeys, m': Flat, t: BlockNr, hb: Bytes)
    requires t in sk && hb in sk[t]
    requires ValidSchema(sc) && RecordsGood(sc, m) && GoodPending(sc, sk) && RoomFor(m, sk)
    requires Indexed(m, sk, Pairs(sk), m')
    ensures SuffixItem(t, hb) in m' && GoodSuffixItem(sc, SuffixItem(t, hb), m'[SuffixItem(t, hb)])
  {
    hide Indexed, GoodRecord, RecordsGood, RoomFor;
    assert hb in sc;
    CommittedRecord(sc, m, sk, m', t, hb);
  }

  lemma KeptRecord(sc: Schema, m: Flat, sk: SuffixKeys, m': Flat, i: Item)
    requires RecordsGood(sc, m) && Indexed(m, sk, Pairs(sk), m')
    requires i in m' && i.bucket == SUFFIX && forall p :: p in Pairs(sk) ==> i != SuffixItem(p.0, p.1)
    ensures GoodSuffixItem(sc, i, m'[i])
  {
    hide GoodSuffixItem;
    assert Lookup(m', i) == Lookup(m, i);
  }

  // DeleteTimestamp

  /** Whether an item belongs to block t: a SUFFIX record of the block, or a history entry that ends in its number. */
  ghost predicate OfBlock(sc: Schema, t: BlockNr, i: Item) {
    || (i.bucket == SUFFIX && HasPrefix(i.key, Enc(t)))
    || (i.bucket in sc && |i.key| >= sc[i.bucket] && i.key[sc[i.bucket]..] == Enc(t))
  }

  ghost function WithoutBlock(sc: Schema, m: Flat, t: BlockNr): Flat {
    map i | i in m && !OfBlock(sc, t, i) :: m[i]
  }

  lemma BlockOfSuffixItem(sc: Schema, t: BlockNr, u: BlockNr, hb: Bytes)
    requires ValidSchema(sc)
    ensures OfBlock(sc, t, SuffixItem(u, hb)) <==> t == u
  {
    var key := SuffixItem(u, hb).key;
    if t == u {
      assert key[..|Enc(t)|] == Enc(t);
    } else if HasPrefix(key, Enc(t)) {
      assert key == Enc(t) + key[|Enc(t)|..];
      EncPrefixFree(t, u, key[|Enc(t)|..], hb);
    }
  }

  lemma BlockOfEntry(sc: Schema, t: BlockNr, u: BlockNr, hb: Bytes, k: Bytes)
    requires ValidSchema(sc) && hb in sc && |k| == sc[hb]
    ensures OfBlock(sc, t, Item(hb, Composite(k, u))) <==> t == u
  {
    assert Composite(k, u)[sc[hb]..] == Enc(u);
    EncOrderIff(t, u);
  }

  lemma SubmapGood(sc: Schema, m: Flat, m': Flat)
    requires RecordsGood(sc, m) && HistoryGood(sc, m)
    requires forall i :: i in m' ==> i in m && m'[i] == m[i]
    ensures RecordsGood(sc, m') && HistoryGood(sc, m')
  {
    hide GoodSuffixItem, IsHistoryKey;
  }

  /** Dropping a block with nothing pending keeps the index exact. */
  lemma DeleteKeepsIndex(sc: Schema, m: Flat, pending: Pending, t: BlockNr)
    requires IndexExact(sc, m, pending) && forall p :: p in pending ==> p.0 != t
    ensures IndexExact(sc, WithoutBlock(sc, m, t), pending)
  {
    var m' := WithoutBlock(sc, m, t);
    hide OfBlock;
    SubmapGood(sc, m, m');
    hide RecordsGood, HistoryGood, WithoutBlock, Listed;
    forall u: BlockNr, hb, k | hb in sc && |k| == sc[hb]
      ensures Item(hb, Composite(k, u)) in m' <==> k in Listed(m', u, hb) || (u, hb, k) in pending
    {
      DeleteKeepsEntry(sc, m, t, u, hb, k);
    }
  }

  lemma DeleteKeepsEntry(sc: Schema, m: Flat, t: BlockNr, u: BlockNr, hb: Bytes, k: Bytes)
    requires ValidSchema(sc) && hb in sc && |k| == sc[hb]
    ensures var m' := WithoutBlock(sc, m, t);
      && (Item(hb, Composite(k, u)) in m' <==> u != t && Item(hb, Composite(k, u)) in m)
      && Listed(m', u, hb) == (if u == t then [] else Listed(m, u, hb))
  {
    hide OfBlock, Composite, SuffixItem;
    BlockOfEntry(sc, t, u, hb, k);
    BlockOfSuffixItem(sc, t, u, hb);
  }

  /** The items of block t that the records visible in m list, with the records. */
  lemma DoomedItem(sb: Bucket, t: BlockNr, i: Item)
    ensures i in Doomed(sb, t) <==>
      exists sk :: sk in sb && HasPrefix(sk, Enc(t)) && i in DoomedBy(t, sk, sb[sk])
  {
  }

  /** The records of the block as m sees them are those in the database's SUFFIX bucket,
      except for ones already deleted. */
  ghost predicate CommittedBlock(m: Flat, sb: Bucket, t: BlockNr) {
    forall k :: HasPrefix(k, Enc(t)) && Item(SUFFIX, k) in m ==> k in sb && sb[k] == m[Item(SUFFIX, k)]
  }

  lemma EverythingDoomed(sc: Schema, m: Flat, pending: Pending, sb: Bucket, t: BlockNr, i: Item)
    requires IndexExact(sc, m, pending) && (forall p :: p in pending ==> p.0 != t) && CommittedBlock(m, sb, t)
    requires i in m && OfBlock(sc, t, i)
    ensures i in Doomed(sb, t)
  {
    hide RecordsGood, CommittedBlock, Doomed, Listed, Composite, Enc;
    if i.bucket == SUFFIX {
      DoomedRecord(m, sb, t, i.key);
    } else {
      var k, u := SplitHistoryKey(i.key, sc[i.bucket]);
      hide OfBlock;
      BlockOfEntry(sc, t, u, i.bucket, k);
      assert k in Listed(m, t, i.bucket);
      DoomedEntry(m, sb, t, i.bucket, k);
    }
  }

  lemma DoomedRecord(m: Flat, sb: Bucket, t: BlockNr, k: Bytes)
    requires CommittedBlock(m, sb, t) && Item(SUFFIX, k) in m && HasPrefix(k, Enc(t))
    ensures Item(SUFFIX, k) in Doomed(sb, t)
  {
    hide Doomed, Enc, ListedItems;
    assert k in sb;
    assert Item(SUFFIX, k) in DoomedBy(t, k, sb[k]);
    DoomedItem(sb, t, Item(SUFFIX, k));
  }

  /** A key that the block's record lists loses its entry. */
  lemma DoomedEntry(m: Flat, sb: Bucket, t: BlockNr, hb: Bytes, k: Bytes)
    requires CommittedBlock(m, sb, t) && k in Listed(m, t, hb)
    ensures Item(hb, Composite(k, t)) in Doomed(sb, t)
  {
    hide Doomed, Enc, Composite, KeysIn;
    var sk := SuffixItem(t, hb).key;
    assert sk[..|Enc(t)|] == Enc(t) && HistoryBucketOf(t, sk) == hb;
    assert sk in sb && sb[sk] == m[Item(SUFFIX, sk)];
    assert Item(hb, Composite(k, t)) in DoomedBy(t, sk, sb[sk]);
    DoomedItem(sb, t, Item(hb, Composite(k, t)));
  }

  lemma OnlyBlockDoomed(sc: Schema, base: Flat, sb: Bucket, t: BlockNr, i: Item)
    requires ValidSchema(sc) && RecordsGood(sc, base)
    requires forall k :: k in sb ==> Lookup(base, Item(SUFFIX, k)) == Some(sb[k])
    requires i in Doomed(sb, t)
    ensures OfBlock(sc, t, i)
  {
    hide RecordsGood, OfBlock;
    DoomedItem(sb, t, i);
    var sk :| sk in sb && HasPrefix(sk, Enc(t)) && i in DoomedBy(t, sk, sb[sk]);
    DoomedByIsOfBlock(sc, base, sk, sb[sk], t, i);
  }

  lemma DoomedByIsOfBlock(sc: Schema, base: Flat, sk: Bytes, v: Bytes, t: BlockNr, i: Item)
    requires ValidSchema(sc) && RecordsGood(sc, base) && Lookup(base, Item(SUFFIX, sk)) == Some(v)
    requires HasPrefix(sk, Enc(t)) && i in DoomedBy(t, sk, v)
    ensures OfBlock(sc, t, i)
  {
    hide RecordsGood, Enc, Composite, KeysIn;
    if i != Item(SUFFIX, sk) {
      var hb := HistoryBucketOf(t, sk);
      assert sk == Enc(t) + hb;
      assert Item(SUFFIX, sk) == SuffixItem(t, hb);
      GoodSuffixItemParts(sc, base, t, hb);
      var key :| key in KeysIn(v) && i == Item(hb, Composite(key, t));
      BlockOfEntry(sc, t, t, hb, key);
    }
  }

  /** DeleteTimestamp erases the block's entries and records, all of them and nothing else. */
  lemma DeleteIsWithoutBlock(sc: Schema, m: Flat, pending: Pending, base: Flat, sb: Bucket, t: BlockNr)
    requires IndexExact(sc, m, pending) && (forall p :: p in pending ==> p.0 != t) && CommittedBlock(m, sb, t)
    requires RecordsGood(sc, base) && forall k :: k in sb ==> Lookup(base, Item(SUFFIX, k)) == Some(sb[k])
    ensures m - Doomed(sb, t) == WithoutBlock(sc, m, t)
  {
    hide Doomed, IndexExact, OfBlock;
    assert ValidSchema(sc) by { ExactParts(sc, m, pending); }
    forall i | i in m
      ensures i in Doomed(sb, t) <==> OfBlock(sc, t, i)
    {
      if i in Doomed(sb, t) { OnlyBlockDoomed(sc, base, sb, t, i); }
      if OfBlock(sc, t, i) { EverythingDoomed(sc, m, pending, sb, t, i); }
    }
  }

  /** It erases the whole block and keeps the index exact if and only if nothing recorded for the block is pending. */
  lemma DeleteExactly(sc: Schema, m: Flat, pending: Pending, base: Flat, sb: Bucket, t: BlockNr)
    requires IndexExact(sc, m, pending) && CommittedBlock(m, sb, t) && RecordsGood(sc, base)
    requires forall k :: k in sb ==> Lookup(base, Item(SUFFIX, k)) == Some(sb[k])
    requires forall p :: p in pending ==> p.1 in sc && |p.2| == sc[p.1]
    ensures m - Doomed(sb, t) == WithoutBlock(sc, m, t) && IndexExact(sc, m - Doomed(sb, t), pending) <==>
      forall p :: p in pending ==> p.0 != t
  {
    hide Doomed, IndexExact, WithoutBlock, CommittedBlock, RecordsGood;
    if forall p :: p in pending ==> p.0 != t {
      DeleteIsWithoutBlock(sc, m, pending, base, sb, t);
      DeleteKeepsIndex(sc, m, pending, t);
    } else if IndexExact(sc, WithoutBlock(sc, m, t), pending) {
      var p :| p in pending && p.0 == t;
      PendingWithout(sc, m, pending, t, p.1, p.2);
      assert false;
    }
  }

  lemma PendingWithout(sc: Schema, m: Flat, pending: Pending, t: BlockNr, hb: Bytes, k: Bytes)
    requires (t, hb, k) in pending && hb in sc && |k| == sc[hb]
    ensures !IndexExact(sc, WithoutBlock(sc, m, t), pending)
  {
    if IndexExact(sc, WithoutBlock(sc, m, t), pending) {
      hide Listed, OfBlock, RecordsGood, HistoryGood, Composite;
      DeleteKeepsEntry(sc, m, t, t, hb, k);
      assert false;
    }
  }

  lemma ExactParts(sc: Schema, m: Flat, pending: Pending)
    requires IndexExact(sc, m, pending)
    ensures ValidSchema(sc) && RecordsGood(sc, m)
  {
  }

  /** Good records can be walked and read for every block. */
  lemma GoodRecordsOf(sc: Schema, base: Flat, sb: Bucket, t: BlockNr)
    requires ValidSchema(sc) && RecordsGood(sc, base)
    requires forall k :: k in sb ==> Lookup(base, Item(SUFFIX, k)) == Some(sb[k])
    ensures RecordsOf(sb, t)
  {
    hide ReadRecord, Less, Enc;
    forall k | k in sb
      ensures !Less(k, Enc(t)) ==> |Enc(t)| <= |k|
      ensures ReadRecord(sb[k]).Some?
    {
      GoodSuffixKey(sc, base, k, sb[k], t);
    }
  }

  lemma GoodSuffixKey(sc: Schema, base: Flat, k: Bytes, v: Bytes, t: BlockNr)
    requires ValidSchema(sc) && RecordsGood(sc, base) && Lookup(base, Item(SUFFIX, k)) == Some(v)
    ensures !Less(k, Enc(t)) ==> |Enc(t)| <= |k|
    ensures ReadRecord(v).Some?
  {
    hide Less, Enc, Record;
    var u: BlockNr, hb :| Item(SUFFIX, k) == SuffixItem(u, hb) && hb in sc && GoodRecord(sc[hb], v);
    if u < t {
      EncOrder(u, t, hb, []);
      assert Enc(t) + [] == Enc(t);
    } else {
      LongerEncoding(t, u);
    }
    RecordRead(KeysIn(v));
  }

  lemma LongerEncoding(t: BlockNr, u: BlockNr)
    requires t <= u
    ensures |Enc(t)| <= |Enc(u)|
  {
    var n, _, _, _ := EncShape(t);
    var m, _, _, _ := EncShape(u);
    if t < u { ByteCountMonotone(t, u); }
  }
}
