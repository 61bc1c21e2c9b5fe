/** The index over whole runs: any order of recording changes, committing them and deleting blocks. */
module IndexRuns {
  import opened Options
  import opened ByteOrder
  import opened Encoding
  import opened Buckets
  import opened Records
  import opened Mutations
  import opened SuffixIndex

  // A batch over committed data

  /** The batch stands on a database whose index is exact, is itself exact up to what it has not committed, and shows no
      SUFFIX record that the database does not hold. */
  ghost predicate Overlays(sc: Schema, m: Flat, base: Flat, pending: Pending) {
    && IndexExact(sc, base, {})
    && IndexExact(sc, m, pending)
    && forall i :: i in m && i.bucket == SUFFIX ==> Lookup(base, i) == Some(m[i])
  }

  lemma OverlaysWithout(sc: Schema, m: Flat, base: Flat, t: BlockNr, pending: Pending)
    requires Overlays(sc, m, base, pending) && forall p :: p in pending ==> p.0 != t
    ensures Overlays(sc, WithoutBlock(sc, m, t), base, pending)
  {
    hide IndexExact, OfBlock;
    DeleteKeepsIndex(sc, m, pending, t);
  }

  lemma SuffixBucketView(store: Store)
    ensures forall k :: k in BucketOf(store, SUFFIX) ==>
      Lookup(Flatten(store), Item(SUFFIX, k)) == Some(BucketOf(store, SUFFIX)[k])
    ensures forall k :: Item(SUFFIX, k) in Flatten(store) ==> k in BucketOf(store, SUFFIX)
  {
    hide Flatten;
    forall k: Bytes
      ensures k in BucketOf(store, SUFFIX) <==> Item(SUFFIX, k) in Flatten(store)
      ensures k in BucketOf(store, SUFFIX) ==>
        Lookup(Flatten(store), Item(SUFFIX, k)) == Some(BucketOf(store, SUFFIX)[k])
    {
      FlattenAt(store, Item(SUFFIX, k));
    }
  }

  lemma OverlaysSuffix(sc: Schema, m: Flat, store: Store, t: BlockNr, pending: Pending)
    requires Overlays(sc, m, Flatten(store), pending) && forall p :: p in pending ==> p.0 != t
    ensures RecordsOf(BucketOf(store, SUFFIX), t)
    ensures m - Doomed(BucketOf(store, SUFFIX), t) == WithoutBlock(sc, m, t)
  {
    hide Flatten, Doomed, WithoutBlock, IndexExact, RecordsOf, RecordsGood, BucketOf;
    SuffixBucketView(store);
    ExactParts(sc, Flatten(store), {});
    GoodRecordsOf(sc, Flatten(store), BucketOf(store, SUFFIX), t);
    CommittedHere(sc, m, Flatten(store), BucketOf(store, SUFFIX), t, pending);
    DeleteIsWithoutBlock(sc, m, pending, Flatten(store), BucketOf(store, SUFFIX), t);
  }

  lemma CommittedHere(sc: Schema, m: Flat, base: Flat, sb: Bucket, t: BlockNr, pending: Pending)
    requires Overlays(sc, m, base, pending)
    requires forall k :: k in sb ==> Lookup(base, Item(SUFFIX, k)) == Some(sb[k])
    requires forall k :: Item(SUFFIX, k) in base ==> k in sb
    ensures CommittedBlock(m, sb, t)
  {
    hide IndexExact;
    forall k | HasPrefix(k, Enc(t)) && Item(SUFFIX, k) in m
      ensures k in sb && sb[k] == m[Item(SUFFIX, k)]
    {
      assert Lookup(base, Item(SUFFIX, k)) == Some(m[Item(SUFFIX, k)]);
    }
  }

  lemma DoomedNothing(t: BlockNr)
    ensures Doomed(map[], t) == {}
  {
  }

  /** DeleteTimestamp on a batch over committed data removes the block, wholly and alone. */
  method DropBlock(ghost sc: Schema, m: Mutation, t: BlockNr, ghost pending: Pending)
    requires m.Valid() && m.db.Bolt? && Overlays(sc, m.Contents(), m.Below(), pending)
    requires forall p :: p in pending ==> p.0 != t
    modifies m`puts
    ensures m.Below() == old(m.Below())
    ensures m.Contents() == WithoutBlock(sc, old(m.Contents()), t)
    ensures Overlays(sc, m.Contents(), m.Below(), pending)
  {
    hide Flatten, Overlays, Doomed, WithoutBlock, Overlay;
    OverlaysSuffix(sc, m.Contents(), m.BaseStore(), t, pending);
    OverlaysWithout(sc, m.Contents(), m.Below(), t, pending);
    DoomedNothing(t);
    m.DeleteTimestamp(t);
  }

  lemma OverlaysReadable(sc: Schema, m: Flat, base: Flat, pending: Pending)
    requires Overlays(sc, m, base, pending)
    ensures Readable(m) && IndexExact(sc, m, pending) && ValidSchema(sc)
  {
    GoodIsReadable(sc, m);
  }

  /** Committing a batch with nothing pending: the database becomes what the batch shows. */
  lemma CommitUnwound(sc: Schema, m: Flat, m': Flat)
    requires Indexed(m, map[], Pairs(map[]), m')
    ensures m' == m
  {
    assert Pairs(map[]) == {};
    forall i: Item
      ensures i in m' <==> i in m
      ensures i in m ==> m'[i] == m[i]
    {
      assert Lookup(m', i) == Lookup(m, i);
    }
  }

  // Runs

  /** PutS of a value, Commit, and DeleteTimestamp. */
  datatype IndexOp = Note(t: BlockNr, hb: Bytes, key: Bytes, value: Bytes) | Flush | Forget(t: BlockNr)

  ghost predicate FitsSchema(sc: Schema, op: IndexOp) {
    op.Note? ==> op.hb in sc && |op.key| == sc[op.hb]
  }

  /** The blocks with changes that are not committed yet. */
  ghost function OpenBlocks(ops: seq<IndexOp>): set<BlockNr>
    decreases |ops|
  {
    if ops == [] then {}
    else
      var before := OpenBlocks(ops[..|ops| - 1]);
      match ops[|ops| - 1]
      case Note(t, _, _, _) => before + {t}
      case Flush => {}
      case Forget(_) => before
  }

  /** Blocks are deleted only when all their changes are committed. */
  ghost predicate ForgetsCommitted(ops: seq<IndexOp>) {
    forall i :: 0 <= i < |ops| && ops[i].Forget? ==> ops[i].t !in OpenBlocks(ops[..i])
  }

  /** How many keys a record holds, or will hold once committed. */
  ghost function Counted(m: Flat, ops: seq<IndexOp>, t: BlockNr, hb: Bytes): nat
    decreases |ops|
  {
    if ops == [] then |Listed(m, t, hb)|
    else
      var before := Counted(m, ops[..|ops| - 1], t, hb);
      match ops[|ops| - 1]
      case Note(u, b, _, _) => if u == t && b == hb then before + 1 else before
      case Flush => before
      case Forget(u) => if u == t then 0 else before
  }

  /** No record outgrows its 32-bit counter on the way. */
  ghost predicate RoomThroughout(m: Flat, ops: seq<IndexOp>) {
    forall i, t: BlockNr, hb :: 0 <= i <= |ops| ==> Counted(m, ops[..i], t, hb) < U32_LIMIT
  }

  /** What the operations leave outside the SUFFIX bucket: notes write one entry, deletions take a block's entries. */
  ghost function EntriesAfter(sc: Schema, m: Flat, ops: seq<IndexOp>): Flat
    decreases |ops|
  {
    if ops == [] then m
    else
      var before := EntriesAfter(sc, m, ops[..|ops| - 1]);
      match ops[|ops| - 1]
      case Note(t, hb, key, value) => before[Item(hb, Composite(key, t)) := value]
      case Flush => before
      case Forget(t) => WithoutBlock(sc, before, t)
  }

  ghost predicate SameEntries(m: Flat, n: Flat) {
    forall i: Item :: i.bucket != SUFFIX ==> Lookup(m, i) == Lookup(n, i)
  }

  ghost function Waiting(sk: SuffixKeys, t: BlockNr, hb: Bytes): nat {
    if t in sk && hb in sk[t] then |sk[t][hb]| else 0
  }

  ghost predicate CountsTrue(start: Flat, ops: seq<IndexOp>, m: Flat, sk: SuffixKeys) {
    forall t: BlockNr, hb :: |Listed(m, t, hb)| + Waiting(sk, t, hb) == Counted(start, ops, t, hb)
  }

  /** A batch in the middle of a run. */
  ghost predicate InRun(sc: Schema, start: Flat, ops: seq<IndexOp>, m: Flat, base: Flat, sk: SuffixKeys) {
    && Overlays(sc, m, base, PendingOf(sk)) && GoodPending(sc, sk) && sk.Keys <= OpenBlocks(ops)
    && SameEntries(m, EntriesAfter(sc, start, ops)) && CountsTrue(start, ops, m, sk)
  }

  lemma Unrolled(sc: Schema, m: Flat, ops: seq<IndexOp>, op: IndexOp)
    ensures (ops + [op])[..|ops|] == ops && (ops + [op])[|ops|] == op
    ensures OpenBlocks(ops + [op]) ==
      if op.Flush? then {} else if op.Note? then OpenBlocks(ops) + {op.t} else OpenBlocks(ops)
    ensures EntriesAfter(sc, m, ops + [op]) ==
      if op.Flush? then EntriesAfter(sc, m, ops)
      else if op.Note? then EntriesAfter(sc, m, ops)[Item(op.hb, Composite(op.key, op.t)) := op.value]
      else WithoutBlock(sc, EntriesAfter(sc, m, ops), op.t)
  {
    assert (ops + [op])[..|ops|] == ops;
  }

  lemma CountUnrolled(m: Flat, ops: seq<IndexOp>, op: IndexOp, t: BlockNr, hb: Bytes)
    ensures Counted(m, ops + [op], t, hb) ==
      if op.Flush? || op.t != t then Counted(m, ops, t, hb)
      else if op.Note? then Counted(m, ops, t, hb) + if op.hb == hb then 1 else 0
      else 0
  {
    assert (ops + [op])[..|ops|] == ops;
  }

  lemma RunStarts(sc: Schema, m: Flat)
    requires IndexExact(sc, m, {})
    ensures InRun(sc, m, [], m, m, map[])
  {
    hide IndexExact;
    assert PendingOf(map[]) == {};
  }

  // A note

  lemma NoteStep(sc: Schema, start: Flat, ops: seq<IndexOp>, m: Flat, base: Flat, sk: SuffixKeys, op: IndexOp)
    requires InRun(sc, start, ops, m, base, sk) && op.Note? && FitsSchema(sc, op)
    ensures InRun(sc, start, ops + [op], m[Item(op.hb, Composite(op.key, op.t)) := op.value], base,
                  AddSuffix(sk, op.t, op.hb, op.key))
  {
    hide *;
    var i, sk' := Item(op.hb, Composite(op.key, op.t)), AddSuffix(sk, op.t, op.hb, op.key);
    RunParts(sc, start, ops, m, base, sk);
    NoteFits(sc, op);
    Unrolled(sc, start, ops, op);
    OverlaysParts(sc, m, base, PendingOf(sk));
    NoteExact(sc, m, PendingOf(sk), op);
    AddSuffixIsPending(sc, sk, op.t, op.hb, op.key);
    NoteElsewhere(sc, m, base, op);
    IsOverlay(sc, m[i := op.value], base, PendingOf(sk'));
    NoteEntries(m, EntriesAfter(sc, start, ops), i, op.value);
    NoteCounts(sc, start, ops, m, sk, op);
    NoteBlocks(sk, op);
    IsRun(sc, start, ops + [op], m[i := op.value], base, sk');
  }

  lemma RunParts(sc: Schema, start: Flat, ops: seq<IndexOp>, m: Flat, base: Flat, sk: SuffixKeys)
    requires InRun(sc, start, ops, m, base, sk)
    ensures Overlays(sc, m, base, PendingOf(sk)) && GoodPending(sc, sk) && sk.Keys <= OpenBlocks(ops)
    ensures SameEntries(m, EntriesAfter(sc, start, ops)) && CountsTrue(start, ops, m, sk)
  {
  }

  lemma IsRun(sc: Schema, start: Flat, ops: seq<IndexOp>, m: Flat, base: Flat, sk: SuffixKeys)
    requires Overlays(sc, m, base, PendingOf(sk)) && GoodPending(sc, sk) && sk.Keys <= OpenBlocks(ops)
    requires SameEntries(m, EntriesAfter(sc, start, ops)) && CountsTrue(start, ops, m, sk)
    ensures InRun(sc, start, ops, m, base, sk)
  {
  }

  ghost predicate SuffixBelow(m: Flat, base: Flat) {
    forall i :: i in m && i.bucket == SUFFIX ==> Lookup(base, i) == Some(m[i])
  }

  lemma OverlaysParts(sc: Schema, m: Flat, base: Flat, pending: Pending)
    requires Overlays(sc, m, base, pending)
    ensures IndexExact(sc, base, {}) && IndexExact(sc, m, pending) && SuffixBelow(m, base)
    ensures ValidSchema(sc) && RecordsGood(sc, m)
  {
  }

  lemma IsOverlay(sc: Schema, m: Flat, base: Flat, pending: Pending)
    requires IndexExact(sc, base, {}) && IndexExact(sc, m, pending) && SuffixBelow(m, base)
    ensures Overlays(sc, m, base, pending)
  {
  }

  lemma NoteFits(sc: Schema, op: IndexOp)
    requires op.Note? && FitsSchema(sc, op)
    ensures op.hb in sc && |op.key| == sc[op.hb]
  {
  }

  lemma NoteExact(sc: Schema, m: Flat, pending: Pending, op: IndexOp)
    requires IndexExact(sc, m, pending) && op.Note? && op.hb in sc && |op.key| == sc[op.hb]
    ensures IndexExact(sc, m[Item(op.hb, Composite(op.key, op.t)) := op.value], pending + {(op.t, op.hb, op.key)})
  {
    hide IndexExact;
    PutSKeepsIndex(sc, m, pending, op.hb, op.key, Some(op.value), op.t);
  }

  lemma NoteElsewhere(sc: Schema, m: Flat, base: Flat, op: IndexOp)
    requires ValidSchema(sc) && op.Note? && op.hb in sc && SuffixBelow(m, base)
    ensures SuffixBelow(m[Item(op.hb, Composite(op.key, op.t)) := op.value], base)
  {
  }

  lemma NoteEntries(m: Flat, n: Flat, i: Item, value: Bytes)
    requires SameEntries(m, n)
    ensures SameEntries(m[i := value], n[i := value])
  {
  }

  lemma NoteBlocks(sk: SuffixKeys, op: IndexOp)
    requires op.Note?
    ensures AddSuffix(sk, op.t, op.hb, op.key).Keys == sk.Keys + {op.t}
  {
  }

  lemma NoteCounts(sc: Schema, start: Flat, ops: seq<IndexOp>, m: Flat, sk: SuffixKeys, op: IndexOp)
    requires ValidSchema(sc) && op.Note? && op.hb in sc && CountsTrue(start, ops, m, sk)
    ensures CountsTrue(start, ops + [op], m[Item(op.hb, Composite(op.key, op.t)) := op.value],
                       AddSuffix(sk, op.t, op.hb, op.key))
  {
    var m', sk' := m[Item(op.hb, Composite(op.key, op.t)) := op.value], AddSuffix(sk, op.t, op.hb, op.key);
    forall t: BlockNr, hb
      ensures |Listed(m', t, hb)| + Waiting(sk', t, hb) == Counted(start, ops + [op], t, hb)
    {
      CountUnrolled(start, ops, op, t, hb);
      assert Listed(m', t, hb) == Listed(m, t, hb);
      assert |Listed(m, t, hb)| + Waiting(sk, t, hb) == Counted(start, ops, t, hb);
    }
  }

  // A deletion

  lemma ForgetStep(sc: Schema, start: Flat, ops: seq<IndexOp>, m: Flat, base: Flat, sk: SuffixKeys, op: IndexOp)
    requires InRun(sc, start, ops, m, base, sk) && op.Forget? && op.t !in OpenBlocks(ops)
    ensures forall p :: p in PendingOf(sk) ==> p.0 != op.t
    ensures Overlays(sc, WithoutBlock(sc, m, op.t), base, PendingOf(sk)) ==>
      InRun(sc, start, ops + [op], WithoutBlock(sc, m, op.t), base, sk)
  {
    hide *;
    RunParts(sc, start, ops, m, base, sk);
    Unrolled(sc, start, ops, op);
    OverlaysParts(sc, m, base, PendingOf(sk));
    NothingPending(sk, op.t);
    ForgetEntries(sc, m, EntriesAfter(sc, start, ops), op.t);
    ForgetCounts(sc, start, ops, m, sk, op);
    if Overlays(sc, WithoutBlock(sc, m, op.t), base, PendingOf(sk)) {
      IsRun(sc, start, ops + [op], WithoutBlock(sc, m, op.t), base, sk);
    }
  }

  lemma NothingPending(sk: SuffixKeys, t: BlockNr)
    requires t !in sk
    ensures forall p :: p in PendingOf(sk) ==> p.0 != t
  {
  }

  lemma ForgetEntries(sc: Schema, m: Flat, n: Flat, t: BlockNr)
    requires SameEntries(m, n)
    ensures SameEntries(WithoutBlock(sc, m, t), WithoutBlock(sc, n, t))
  {
    hide OfBlock;
    forall i: Item | i.bucket != SUFFIX
      ensures Lookup(WithoutBlock(sc, m, t), i) == Lookup(WithoutBlock(sc, n, t), i)
    {
      assert Lookup(m, i) == Lookup(n, i);
    }
  }

  lemma ForgetCounts(sc: Schema, start: Flat, ops: seq<IndexOp>, m: Flat, sk: SuffixKeys, op: IndexOp)
    requires ValidSchema(sc) && op.Forget? && op.t !in sk && CountsTrue(start, ops, m, sk)
    ensures CountsTrue(start, ops + [op], WithoutBlock(sc, m, op.t), sk)
  {
    var m' := WithoutBlock(sc, m, op.t);
    forall t: BlockNr, hb
      ensures |Listed(m', t, hb)| + Waiting(sk, t, hb) == Counted(start, ops + [op], t, hb)
    {
      CountUnrolled(start, ops, op, t, hb);
      ListedWithout(sc, m, op.t, t, hb);
      assert |Listed(m, t, hb)| + Waiting(sk, t, hb) == Counted(start, ops, t, hb);
    }
  }

  lemma ListedWithout(sc: Schema, m: Flat, t: BlockNr, u: BlockNr, hb: Bytes)
    requires ValidSchema(sc)
    ensures Listed(WithoutBlock(sc, m, t), u, hb) == if u == t then [] else Listed(m, u, hb)
  {
    hide OfBlock, SuffixItem;
    BlockOfSuffixItem(sc, t, u, hb);
  }

  // A commit

  lemma FlushReady(sc: Schema, start: Flat, ops: seq<IndexOp>, m: Flat, base: Flat, sk: SuffixKeys)
    requires InRun(sc, start, ops, m, base, sk)
    requires forall t: BlockNr, hb :: Counted(start, ops, t, hb) < U32_LIMIT
    ensures ReadableFor(m, sk) && RoomFor(m, sk)
  {
    hide IndexExact, Listed, Counted, EntriesAfter, OpenBlocks, Readable, ReadableFor;
    OverlaysReadable(sc, m, base, PendingOf(sk));
    ReadableForAny(m, sk);
    forall t, hb | t in sk && hb in sk[t]
      ensures |Listed(m, t, hb)| + |sk[t][hb]| < U32_LIMIT
    {
      assert |Listed(m, t, hb)| + Waiting(sk, t, hb) == Counted(start, ops, t, hb);
    }
  }

  lemma FlushStep(sc: Schema, start: Flat, ops: seq<IndexOp>, m: Flat, base: Flat, sk: SuffixKeys, m': Flat)
    requires InRun(sc, start, ops, m, base, sk) && RoomFor(m, sk) && Indexed(m, sk, Pairs(sk), m')
    ensures InRun(sc, start, ops + [Flush], m', m', map[])
  {
    hide *;
    RunParts(sc, start, ops, m, base, sk);
    Unrolled(sc, start, ops, Flush);
    OverlaysParts(sc, m, base, PendingOf(sk));
    assert PendingOf(sk) + {} == PendingOf(sk);
    CommitKeepsIndex(sc, m, sk, {}, m');
    CleanOverlay(sc, m');
    FlushEntries(m, sk, m', EntriesAfter(sc, start, ops));
    FlushCounts(sc, start, ops, m, sk, m');
    IsRun(sc, start, ops + [Flush], m', m', map[]);
  }

  lemma CleanOverlay(sc: Schema, m: Flat)
    requires IndexExact(sc, m, {})
    ensures Overlays(sc, m, m, PendingOf(map[])) && GoodPending(sc, map[])
  {
    hide IndexExact;
    assert PendingOf(map[]) == {};
  }

  lemma FlushEntries(m: Flat, sk: SuffixKeys, m': Flat, n: Flat)
    requires Indexed(m, sk, Pairs(sk), m') && SameEntries(m, n)
    ensures SameEntries(m', n)
  {
  }

  lemma FlushCounts(sc: Schema, start: Flat, ops: seq<IndexOp>, m: Flat, sk: SuffixKeys, m': Flat)
    requires ValidSchema(sc) && RecordsGood(sc, m) && GoodPending(sc, sk) && RoomFor(m, sk)
    requires Indexed(m, sk, Pairs(sk), m') && CountsTrue(start, ops, m, sk)
    ensures CountsTrue(start, ops + [Flush], m', map[])
  {
    hide Indexed, RecordsGood, Listed, RoomFor;
    forall t: BlockNr, hb
      ensures |Listed(m', t, hb)| + Waiting(map[], t, hb) == Counted(start, ops + [Flush], t, hb)
    {
      CountUnrolled(start, ops, Flush, t, hb);
      assert |Listed(m, t, hb)| + Waiting(sk, t, hb) == Counted(start, ops, t, hb);
      if (t, hb) in Pairs(sk) {
        CommittedRecord(sc, m, sk, m', t, hb);
      } else {
        UntouchedRecord(sc, m, sk, m', t, hb);
      }
    }
  }

  lemma AllowedNow(start: Flat, ops: seq<IndexOp>, i: nat)
    requires i < |ops| && ForgetsCommitted(ops) && RoomThroughout(start, ops)
    ensures ops[i].Forget? ==> ops[i].t !in OpenBlocks(ops[..i])
    ensures forall t: BlockNr, hb :: Counted(start, ops[..i], t, hb) < U32_LIMIT
  {
    hide OpenBlocks, Counted;
  }

  /** One operation of a run. */
  method Perform(ghost sc: Schema, ghost start: Flat, m: Mutation, ghost done: seq<IndexOp>, op: IndexOp)
    requires m.Valid() && m.db.Bolt? && InRun(sc, start, done, m.Contents(), m.Below(), m.suffixkeys)
    requires FitsSchema(sc, op) && (op.Forget? ==> op.t !in OpenBlocks(done))
    requires forall t: BlockNr, hb :: Counted(start, done, t, hb) < U32_LIMIT
    modifies m, m.db.bolt
    ensures InRun(sc, start, done + [op], m.Contents(), m.Below(), m.suffixkeys)
    ensures op.Flush? ==> m.puts == map[] && m.suffixkeys == map[] && m.Contents() == m.Below()
    ensures op.Forget? ==> m.Contents() == WithoutBlock(sc, old(m.Contents()), op.t)
  {
    hide *;
    RunParts(sc, start, done, m.Contents(), m.Below(), m.suffixkeys);
    ghost var view, base, sk := m.Contents(), m.Below(), m.suffixkeys;
    match op {
      case Note(t, hb, key, value) =>
        NoteStep(sc, start, done, view, base, sk, op);
        AssignSome(view, Item(hb, Composite(key, t)), value);
        m.PutS(hb, key, Some(value), t);
      case Flush =>
        FlushReady(sc, start, done, view, base, sk);
        FlushTarget(m);
        m.Commit();
        FlushStep(sc, start, done, view, base, sk, m.Contents());
      case Forget(t) =>
        ForgetStep(sc, start, done, view, base, sk, op);
        DropBlock(sc, m, t, PendingOf(sk));
    }
  }

  lemma AssignSome(m: Flat, i: Item, value: Bytes)
    ensures Assign(m, Tuple(i, Some(value))) == m[i := value]
  {
  }

  lemma FlushTarget(m: Mutation)
    requires m.db.Bolt?
    ensures ParentObject(m.db) == {m.db.bolt}
  {
  }

  /** Any run of PutS, Commit and DeleteTimestamp, in any order and for any blocks: the committed index is exact, the
      batch's is exact up to what it has not committed, and the entries are those noted and not forgotten. */
  method Run(ghost sc: Schema, m: Mutation, ops: seq<IndexOp>)
    requires m.Valid() && m.db.Bolt? && m.puts == map[] && m.suffixkeys == map[] && IndexExact(sc, m.Below(), {})
    requires (forall op :: op in ops ==> FitsSchema(sc, op)) && ForgetsCommitted(ops) && RoomThroughout(m.Below(), ops)
    modifies m, m.db.bolt
    ensures IndexExact(sc, m.Below(), {}) && IndexExact(sc, m.Contents(), PendingOf(m.suffixkeys))
    ensures SameEntries(m.Contents(), EntriesAfter(sc, old(m.Below()), ops))
    ensures ops != [] && ops[|ops| - 1].Flush? ==> m.puts == map[] && m.suffixkeys == map[] && m.Contents() == m.Below()
  {
    hide *;
    ghost var start := m.Below();
    m.CleanView();
    RunStarts(sc, start);
    assert ops[..0] == [];
    var i := 0;
    while i < |ops|
      invariant 0 <= i <= |ops| && InRun(sc, start, ops[..i], m.Contents(), m.Below(), m.suffixkeys)
      invariant i > 0 && ops[i - 1].Flush? ==> m.puts == map[] && m.suffixkeys == map[] && m.Contents() == m.Below()
    {
      assert ops[..i + 1] == ops[..i] + [ops[i]];
      assert ops[i] in ops;
      AllowedNow(start, ops, i);
      Perform(sc, start, m, ops[..i], ops[i]);
      i := i + 1;
    }
    assert ops[..|ops|] == ops;
    RunParts(sc, start, ops, m.Contents(), m.Below(), m.suffixkeys);
    OverlaysParts(sc, m.Contents(), m.Below(), PendingOf(m.suffixkeys));
  }
}
