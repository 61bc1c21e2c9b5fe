/** Stacks of batches: any interleaving of their operations answers like layered maps with tombstones. */
module BatchStacks {
  import opened Options
  import opened ByteOrder
  import opened Buckets
  import opened Mutations
  import opened Records

  // The reference: a database under layers of writes, the lowest first

  datatype Stack = Stack(base: Flat, layers: seq<Puts>)

  /** The topmost layer that mentions the key decides. */
  ghost function LayeredGet(base: Flat, layers: seq<Puts>, i: Item): Option<Bytes>
    decreases |layers|
  {
    if layers == [] then Lookup(base, i)
    else if i in layers[|layers| - 1] then layers[|layers| - 1][i]
    else LayeredGet(base, layers[..|layers| - 1], i)
  }

  datatype BatchOp =
    | Write(t: Tuple)
    | WriteAll(ts: seq<Tuple>)
    | Note(hb: Bytes, key: Bytes, value: Option<Bytes>, block: BlockNr)
    | Commit
    | Rollback

  /** What PutS writes; the pending SUFFIX entry it also makes is for Commit. */
  ghost function Noted(op: BatchOp): Tuple
    requires op.Note?
  {
    Tuple(Item(op.hb, Composite(op.key, op.block)), op.value)
  }

  /** An operation on the k-th layer: writes stay in it, a commit moves them one layer down, a rollback forgets them. */
  ghost function StepAt(st: Stack, k: nat, op: BatchOp): Stack
    requires k < |st.layers|
  {
    match op
    case Write(t) => st.(layers := st.layers[k := st.layers[k][t.item := t.value]])
    case WriteAll(ts) => st.(layers := st.layers[k := PutAll(st.layers[k], ts)])
    case Note(_, _, _, _) => st.(layers := st.layers[k := st.layers[k][Noted(op).item := Noted(op).value]])
    case Rollback => st.(layers := st.layers[k := map[]])
    case Commit =>
      if k == 0 then Stack(Overlay(st.base, st.layers[0]), st.layers[0 := map[]])
      else st.(layers := st.layers[k - 1 := st.layers[k - 1] + st.layers[k]][k := map[]])
  }

  /** An operation with how many batches below the top it is made on, or a new batch on top. */
  datatype Step = At(below: nat, op: BatchOp) | NewBatch

  /** The number of batches after some steps. */
  ghost function Height(n: nat, steps: seq<Step>): nat
    decreases |steps|
  {
    if steps == [] then n
    else Height(n, steps[..|steps| - 1]) + if steps[|steps| - 1].NewBatch? then 1 else 0
  }

  /** Every operation is on a batch that exists by then. */
  ghost predicate Fits(n: nat, steps: seq<Step>) {
    forall i :: 0 <= i < |steps| && steps[i].At? ==> steps[i].below < Height(n, steps[..i])
  }

  lemma FitsShorter(n: nat, steps: seq<Step>, k: nat)
    requires Fits(n, steps) && k <= |steps|
    ensures Fits(n, steps[..k])
  {
    hide Height;
    forall i | 0 <= i < k && steps[..k][i].At?
      ensures steps[..k][i].below < Height(n, steps[..k][..i])
    {
      assert steps[..k][..i] == steps[..i];
    }
  }

  lemma StepKeepsHeight(st: Stack, k: nat, op: BatchOp)
    requires k < |st.layers|
    ensures |StepAt(st, k, op).layers| == |st.layers|
  {
  }

  ghost function RunModel(st: Stack, steps: seq<Step>): (r: Stack)
    requires Fits(|st.layers|, steps)
    ensures |r.layers| == Height(|st.layers|, steps)
    decreases |steps|
  {
    if steps == [] then st
    else
      FitsShorter(|st.layers|, steps, |steps| - 1);
      NextModel(RunModel(st, steps[..|steps| - 1]), steps[|steps| - 1])
  }

  ghost function NextModel(st: Stack, step: Step): (r: Stack)
    requires step.At? ==> step.below < |st.layers|
    ensures |r.layers| == |st.layers| + if step.NewBatch? then 1 else 0
  {
    if step.NewBatch? then Push(st, map[])
    else
      StepKeepsHeight(st, |st.layers| - 1 - step.below, step.op);
      StepAt(st, |st.layers| - 1 - step.below, step.op)
  }

  // The code's stacks

  /** What lies under a batch. */
  ghost function LowStack(m: Mutation): Stack
    requires m.Valid()
    reads ChainOf(m.db)
    decreases m.depth, 0
  {
    match m.db
    case NoDb => Stack(map[], [])
    case Bolt(b) => Stack(b.Contents(), [])
    case Batch(p) => StackOf(p)
  }

  ghost function StackOf(m: Mutation): (st: Stack)
    requires m.Valid()
    reads m.chain, ChainOf(m.db)
    ensures |st.layers| > 0
    decreases m.depth, 1
  {
    Push(LowStack(m), m.puts)
  }

  ghost function Push(st: Stack, top: Puts): Stack {
    Stack(st.base, st.layers + [top])
  }

  lemma LookupOverlay(m: Flat, puts: Puts, i: Item)
    ensures Lookup(Overlay(m, puts), i) == if i in puts then puts[i] else Lookup(m, i)
  {
  }

  lemma LayeredPush(st: Stack, top: Puts, i: Item)
    ensures LayeredGet(st.base, Push(st, top).layers, i) ==
      if i in top then top[i] else LayeredGet(st.base, st.layers, i)
  {
    var ls := st.layers + [top];
    assert ls[..|ls| - 1] == st.layers;
  }

  /** Get on a batch is the layered lookup. */
  lemma {:induction false} GetIsLayered(m: Mutation, i: Item)
    requires m.Valid()
    ensures m.Get(i.bucket, i.key) == LayeredGet(StackOf(m).base, StackOf(m).layers, i)
    decreases m.depth
  {
    hide Overlay, Flatten, LayeredGet;
    assert Item(i.bucket, i.key) == i;
    LookupOverlay(m.Below(), m.puts, i);
    LayeredPush(LowStack(m), m.puts, i);
    match m.db {
      case NoDb =>
        NoLayers(map[], i);
      case Bolt(b) =>
        NoLayers(b.Contents(), i);
      case Batch(p) =>
        GetIsLayered(p, i);
    }
  }

  lemma NoLayers(base: Flat, i: Item)
    ensures LayeredGet(base, [], i) == Lookup(base, i)
  {
  }

  ghost predicate LowReadable(m: Mutation)
    requires m.Valid()
    reads ChainOf(m.db)
    decreases m.depth, 0
  {
    match m.db
    case NoDb => true
    case Bolt(b) => Readable(b.Contents())
    case Batch(p) => AllReadable(p)
  }

  /** The SUFFIX records of all layers can be read, which Commit needs to append to them. */
  ghost predicate AllReadable(m: Mutation)
    requires m.Valid()
    reads m.chain, ChainOf(m.db)
    decreases m.depth, 1
  {
    PutsReadable(m.puts) && LowReadable(m)
  }

  lemma {:induction false} ReadableView(m: Mutation)
    requires m.Valid() && AllReadable(m)
    ensures Readable(m.Contents()) && Readable(m.Below())
    decreases m.depth
  {
    match m.db {
      case NoDb =>
      case Bolt(b) =>
      case Batch(p) =>
        ReadableView(p);
    }
  }

  // Agreement outside the SUFFIX bucket, where Commit also writes its index

  ghost predicate SameFlat(m: Flat, n: Flat) {
    forall i: Item :: i.bucket != SUFFIX ==> Lookup(m, i) == Lookup(n, i)
  }

  ghost predicate Similar(a: Stack, b: Stack) {
    && SameFlat(a.base, b.base) && |a.layers| == |b.layers|
    && forall k :: 0 <= k < |a.layers| ==> SamePuts(a.layers[k], b.layers[k])
  }

  lemma SimilarItself(a: Stack)
    ensures Similar(a, a)
  {
  }

  lemma SimilarTransitive(a: Stack, b: Stack, c: Stack)
    requires Similar(a, b) && Similar(b, c)
    ensures Similar(a, c)
  {
    hide SamePuts, SameFlat;
    forall k | 0 <= k < |a.layers|
      ensures SamePuts(a.layers[k], c.layers[k])
    {
      SameThrough(a.layers[k], b.layers[k], c.layers[k]);
    }
    FlatThrough(a.base, b.base, c.base);
  }

  lemma SameThrough(a: Puts, b: Puts, c: Puts)
    requires SamePuts(a, b) && SamePuts(b, c)
    ensures SamePuts(a, c)
  {
  }

  lemma FlatThrough(a: Flat, b: Flat, c: Flat)
    requires SameFlat(a, b) && SameFlat(b, c)
    ensures SameFlat(a, c)
  {
  }

  /** Stacks that agree outside the SUFFIX bucket give the same answers there. */
  lemma {:induction false} SimilarAnswers(a: Stack, b: Stack, i: Item)
    requires Similar(a, b) && i.bucket != SUFFIX
    ensures LayeredGet(a.base, a.layers, i) == LayeredGet(b.base, b.layers, i)
    decreases |a.layers|
  {
    if a.layers != [] {
      var k := |a.layers| - 1;
      assert SamePuts(a.layers[k], b.layers[k]);
      SimilarAnswers(Stack(a.base, a.layers[..k]), Stack(b.base, b.layers[..k]), i);
    }
  }

  /** The same operation keeps two stacks alike. */
  lemma StepSimilar(a: Stack, b: Stack, k: nat, op: BatchOp)
    requires Similar(a, b) && k < |a.layers|
    ensures Similar(StepAt(a, k, op), StepAt(b, k, op))
  {
    var x, y := a.layers[k], b.layers[k];
    assert SamePuts(x, y);
    match op {
      case Write(t) =>
        SameWrite(x, y, t);
      case WriteAll(ts) =>
        SameWrites(x, y, ts);
      case Note(_, _, _, _) =>
        SameWrite(x, y, Noted(op));
      case Rollback =>
      case Commit =>
        if k == 0 {
          SameOverlay(a.base, b.base, x, y);
        } else {
          assert SamePuts(a.layers[k - 1], b.layers[k - 1]);
          SameMerge(a.layers[k - 1], b.layers[k - 1], x, y);
        }
    }
    hide SamePuts, SameFlat, PutAll, Overlay;
  }

  lemma SameWrite(x: Puts, y: Puts, t: Tuple)
    requires SamePuts(x, y)
    ensures SamePuts(x[t.item := t.value], y[t.item := t.value])
  {
  }

  lemma {:induction false} SameWrites(x: Puts, y: Puts, ts: seq<Tuple>)
    requires SamePuts(x, y)
    ensures SamePuts(PutAll(x, ts), PutAll(y, ts))
    decreases |ts|
  {
    if ts != [] {
      SameWrite(x, y, ts[0]);
      SameWrites(x[ts[0].item := ts[0].value], y[ts[0].item := ts[0].value], ts[1..]);
    }
  }

  lemma SameOverlay(m: Flat, n: Flat, x: Puts, y: Puts)
    requires SameFlat(m, n) && SamePuts(x, y)
    ensures SameFlat(Overlay(m, x), Overlay(n, y))
  {
  }

  lemma SameMerge(u: Puts, v: Puts, x: Puts, y: Puts)
    requires SamePuts(u, v) && SamePuts(x, y)
    ensures SamePuts(u + x, v + y)
  {
  }

  /** An operation below the top layer is the same operation on the stack without it. */
  lemma StepBelow(st: Stack, top: Puts, k: nat, op: BatchOp)
    requires k < |st.layers|
    ensures StepAt(Push(st, top), k, op) == Push(StepAt(st, k, op), top)
  {
    hide PutAll, Overlay;
    var more := st.layers + [top];
    match op {
      case Write(t) =>
        assert more[k := more[k][t.item := t.value]] == st.layers[k := st.layers[k][t.item := t.value]] + [top];
      case WriteAll(ts) =>
        assert more[k := PutAll(more[k], ts)] == st.layers[k := PutAll(st.layers[k], ts)] + [top];
      case Note(_, _, _, _) =>
        var t := Noted(op);
        assert more[k := more[k][t.item := t.value]] == st.layers[k := st.layers[k][t.item := t.value]] + [top];
      case Rollback =>
        assert more[k := map[]] == st.layers[k := map[]] + [top];
      case Commit =>
        if k == 0 {
          assert more[0 := map[]] == st.layers[0 := map[]] + [top];
        } else {
          var merged := st.layers[k - 1] + st.layers[k];
          assert more[k - 1 := merged][k := map[]] == st.layers[k - 1 := merged][k := map[]] + [top];
        }
    }
  }

  /** Writes and rollbacks of the top layer. */
  ghost function NewTop(top: Puts, op: BatchOp): Puts {
    match op
    case Write(t) => top[t.item := t.value]
    case WriteAll(ts) => PutAll(top, ts)
    case Note(_, _, _, _) => top[Noted(op).item := Noted(op).value]
    case _ => map[]
  }

  lemma StepTop(st: Stack, top: Puts, op: BatchOp)
    requires !op.Commit?
    ensures StepAt(Push(st, top), |st.layers|, op) == Push(st, NewTop(top, op))
  {
    hide PutAll;
    var k := |st.layers|;
    assert (st.layers + [top])[k := NewTop(top, op)] == st.layers + [NewTop(top, op)];
  }

  lemma CommitToBase(base: Flat, top: Puts)
    ensures StepAt(Push(Stack(base, []), top), 0, Commit) == Push(Stack(Overlay(base, top), []), map[])
  {
    hide Overlay;
    assert ([] + [top])[0 := map[]] == [] + [map[]];
  }

  lemma CommitToLayer(st: Stack, under: Puts, top: Puts)
    ensures StepAt(Push(Push(st, under), top), |st.layers| + 1, Commit) == Push(Push(st, under + top), map[])
  {
    var k := |st.layers|;
    var ls := st.layers + [under] + [top];
    assert ls[k := under + top][k + 1 := map[]] == st.layers + [under + top] + [map[]];
  }

  lemma SimilarPush(a: Stack, b: Stack, x: Puts, y: Puts)
    requires Similar(a, b) && SamePuts(x, y)
    ensures Similar(Push(a, x), Push(b, y))
  {
    hide SamePuts, SameFlat;
  }

  // Runs

  /** What is written to the SUFFIX bucket, which is the index's own, has a counter to read. */
  ghost predicate Legible(t: Tuple) {
    t.item.bucket == SUFFIX && t.value.Some? ==> |t.value.value| >= 4
  }

  ghost predicate Harmless(op: BatchOp) {
    match op
    case Write(t) => Legible(t)
    case WriteAll(ts) => forall t :: t in ts ==> Legible(t)
    case Note(_, _, _, _) => Legible(Noted(op))
    case _ => true
  }

  lemma {:induction false} HarmlessWrites(puts: Puts, ts: seq<Tuple>)
    requires PutsReadable(puts) && forall t :: t in ts ==> Legible(t)
    ensures PutsReadable(PutAll(puts, ts))
    decreases |ts|
  {
    if ts != [] {
      assert Legible(ts[0]);
      HarmlessWrites(puts[ts[0].item := ts[0].value], ts[1..]);
    }
  }

  lemma HarmlessTop(puts: Puts, op: BatchOp)
    requires PutsReadable(puts) && Harmless(op)
    ensures PutsReadable(NewTop(puts, op))
  {
    if op.WriteAll? {
      HarmlessWrites(puts, op.ts);
    }
  }

  /** What an unfolded batch is made of. */
  lemma Unfold(m: Mutation)
    requires m.Valid()
    ensures StackOf(m) == Push(LowStack(m), m.puts) && |StackOf(m).layers| == |LowStack(m).layers| + 1
    ensures AllReadable(m) <==> PutsReadable(m.puts) && LowReadable(m)
    ensures m.db.Bolt? ==>
      && LowStack(m) == Stack(m.db.bolt.Contents(), []) && m.Below() == m.db.bolt.Contents()
      && (LowReadable(m) <==> Readable(m.db.bolt.Contents()))
    ensures m.db.Batch? ==>
      && m.db.batch.Valid() && m.db.batch.chain <= m.chain && m !in m.db.batch.chain && m.db.batch.depth < m.depth
      && LowStack(m) == StackOf(m.db.batch) && (LowReadable(m) <==> AllReadable(m.db.batch))
    ensures !m.db.Batch? ==> |LowStack(m).layers| == 0
    ensures m.Rooted() <==> m.db.Bolt? || (m.db.Batch? && m.db.batch.Rooted())
    ensures m in m.chain && m !in ChainOf(m.db) && ChainOf(m.db) <= m.chain && ParentObject(m.db) <= m.chain
  {
  }

  /** A write or a rollback on the top batch. */
  method ApplyTop(m: Mutation, op: BatchOp)
    requires m.Valid() && AllReadable(m) && Harmless(op) && !op.Commit?
    modifies m
    ensures AllReadable(m) && StackOf(m) == StepAt(old(StackOf(m)), old(|StackOf(m).layers|) - 1, op)
  {
    hide *;
    Unfold(m);
    StepTop(LowStack(m), m.puts, op);
    HarmlessTop(m.puts, op);
    ghost var puts := m.puts;
    match op {
      case Write(t) =>
        WrittenTuple(t);
        if t.value.Some? {
          m.Put(t.item.bucket, t.item.key, t.value.value);
        } else {
          m.Delete(t.item.bucket, t.item.key);
        }
      case WriteAll(ts) => m.MultiPut(ts);
      case Note(hb, key, value, block) => m.PutS(hb, key, value, block);
      case Rollback => m.Rollback();
    }
    TopIs(puts, op);
    Unfold(m);
  }

  lemma WrittenTuple(t: Tuple)
    ensures Item(t.item.bucket, t.item.key) == t.item && (t.value.None? || t.value == Some(t.value.value))
  {
  }

  lemma TopIs(puts: Puts, op: BatchOp)
    ensures op.Write? ==> NewTop(puts, op) == puts[op.t.item := op.t.value]
    ensures op.WriteAll? ==> NewTop(puts, op) == PutAll(puts, op.ts)
    ensures op.Note? ==> NewTop(puts, op) == puts[Item(op.hb, Composite(op.key, op.block)) := op.value]
    ensures op.Rollback? ==> NewTop(puts, op) == map[]
  {
  }

  lemma ContentsIs(m: Mutation)
    requires m.Valid()
    ensures m.Contents() == Overlay(m.Below(), m.puts)
  {
  }

  lemma IndexedSame(m: Flat, sk: SuffixKeys, m': Flat)
    requires Indexed(m, sk, Pairs(sk), m') && Readable(m)
    ensures SameFlat(m', m) && Readable(m')
  {
    IndexedElsewhere(m, sk, Pairs(sk), m');
    forall i: Item | i.bucket != SUFFIX
      ensures Lookup(m', i) == Lookup(m, i)
    {
      assert i == Item(i.bucket, i.key);
    }
    forall i | i in m' && i.bucket == SUFFIX
      ensures |m'[i]| >= 4
    {
      RecordLength(m, sk, m', i);
    }
  }

  lemma RecordLength(m: Flat, sk: SuffixKeys, m': Flat, i: Item)
    requires Indexed(m, sk, Pairs(sk), m') && Readable(m) && i in m' && i.bucket == SUFFIX
    ensures |m'[i]| >= 4
  {
    if p :| p in Pairs(sk) && i == SuffixItem(p.0, p.1) {
      assert Lookup(m', i) == Some(AppendKeys(Lookup(m, i), sk[p.0][p.1]));
      assert |AppendKeys(Lookup(m, i), sk[p.0][p.1])| >= 4;
    } else {
      assert Lookup(m', i) == Lookup(m, i);
    }
  }

  lemma SameSymmetric(a: Puts, b: Puts)
    requires SamePuts(a, b)
    ensures SamePuts(b, a)
  {
  }

  lemma NothingSame()
    ensures SamePuts(map[], map[]) && PutsReadable(map[])
  {
  }

  /** A commit of the top batch. */
  method CommitTop(m: Mutation)
    requires m.Valid() && m.Rooted() && AllReadable(m)
    modifies m, ParentObject(m.db)
    ensures AllReadable(m) && Similar(StackOf(m), StepAt(old(StackOf(m)), old(|StackOf(m).layers|) - 1, Commit))
  {
    hide *;
    ReadableView(m);
    ReadableForAny(m.Contents(), m.suffixkeys);
    Unfold(m);
    ContentsIs(m);
    NothingSame();
    CommitTargets(m);
    match m.db {
      case Bolt(b) =>
        CommitToBase(b.Contents(), m.puts);
        ghost var sk := m.suffixkeys;
        m.Commit();
        Unfold(m);
        IndexedSame(old(m.Contents()), sk, m.Contents());
        SimilarBases(b.Contents(), old(m.Contents()));
        SimilarPush(Stack(b.Contents(), []), Stack(old(m.Contents()), []), map[], map[]);
      case Batch(p) =>
        Unfold(p);
        CommitToLayer(LowStack(p), p.puts, m.puts);
        ghost var low := LowStack(p);
        m.Commit();
        Unfold(m);
        Unfold(p);
        SimilarItself(low);
        SameSymmetric(old(p.puts + m.puts), p.puts);
        SimilarPush(low, low, p.puts, old(p.puts + m.puts));
        SimilarPush(Push(low, p.puts), Push(low, old(p.puts + m.puts)), map[], map[]);
    }
  }

  lemma CommitTargets(m: Mutation)
    ensures m.db.Bolt? ==> ParentObject(m.db) == {m.db.bolt}
    ensures m.db.Batch? ==> ParentObject(m.db) == {m.db.batch}
  {
  }

  lemma SimilarBases(a: Flat, b: Flat)
    requires SameFlat(a, b)
    ensures Similar(Stack(a, []), Stack(b, []))
  {
  }

  /** One operation on a batch of the stack, while others lie on top of it. */
  method ApplyAt(m: Mutation, below: nat, op: BatchOp)
    requires m.Valid() && m.Rooted() && AllReadable(m) && below < |StackOf(m).layers| && Harmless(op)
    modifies m.chain
    ensures AllReadable(m) && Similar(StackOf(m), StepAt(old(StackOf(m)), old(|StackOf(m).layers|) - 1 - below, op))
    decreases m.depth
  {
    hide *;
    Unfold(m);
    CommitTargets(m);
    if below > 0 {
      StepBelow(LowStack(m), m.puts, |LowStack(m).layers| - below, op);
      ghost var after := StepAt(LowStack(m), |LowStack(m).layers| - below, op);
      ApplyAt(m.db.batch, below - 1, op);
      Unfold(m);
      SameItself(m.puts);
      SimilarPush(StackOf(m.db.batch), after, m.puts, m.puts);
    } else if op == Commit {
      CommitTop(m);
    } else {
      ApplyTop(m, op);
      SimilarItself(StackOf(m));
    }
  }

  /** NewBatch on the top of a stack. */
  method PushBatch(m: Mutation) returns (top: Mutation)
    requires m.Valid() && m.Rooted() && AllReadable(m)
    ensures fresh(top) && top.Valid() && top.Rooted() && AllReadable(top) && top.chain == {top} + m.chain
    ensures StackOf(top) == Push(old(StackOf(m)), map[])
  {
    hide *;
    ghost var st := StackOf(m);
    Unfold(m);
    top := new Mutation(Batch(m));
    assert StackOf(m) == st && AllReadable(m);
    NothingSame();
    Unfold(top);
    ChainIs(m);
  }

  lemma ChainIs(m: Mutation)
    ensures ChainOf(Batch(m)) == m.chain
  {
  }

  /** Any interleaving of operations on any batches of a stack, and of new batches on top of it: outside the SUFFIX
      bucket the stack stays what the layered maps are, and so are all answers of its top. */
  method Run(m: Mutation, steps: seq<Step>) returns (top: Mutation)
    requires m.Valid() && m.Rooted() && AllReadable(m) && Fits(|StackOf(m).layers|, steps)
    requires forall s :: s in steps && s.At? ==> Harmless(s.op)
    modifies m.chain
    ensures top.Valid() && AllReadable(top) && fresh(top.chain - m.chain)
    ensures Similar(StackOf(top), RunModel(old(StackOf(m)), steps))
    ensures forall i: Item :: i.bucket != SUFFIX ==>
      top.Get(i.bucket, i.key) ==
        LayeredGet(RunModel(old(StackOf(m)), steps).base, RunModel(old(StackOf(m)), steps).layers, i)
  {
    hide *;
    ghost var start := StackOf(m);
    SimilarItself(start);
    NoSteps(start, steps);
    top := m;
    var i := 0;
    while i < |steps|
      invariant 0 <= i <= |steps| && top.Valid() && top.Rooted() && AllReadable(top) && fresh(top.chain - m.chain)
      invariant Fits(|start.layers|, steps[..i]) && Similar(StackOf(top), RunModel(start, steps[..i]))
    {
      NextStep(start, steps, i);
      ghost var before := StackOf(top);
      ghost var model := RunModel(start, steps[..i]);
      SimilarHeights(before, model);
      NextIs(model, steps[i]);
      match steps[i] {
        case NewBatch =>
          top := PushBatch(top);
          NothingSame();
          SimilarPush(before, model, map[], map[]);
        case At(below, op) =>
          ApplyAt(top, below, op);
          StepSimilar(before, model, |model.layers| - 1 - below, op);
          SimilarTransitive(StackOf(top), StepAt(before, |before.layers| - 1 - below, op),
                            RunModel(start, steps[..i + 1]));
      }
      i := i + 1;
    }
    assert steps[..|steps|] == steps;
    forall i: Item | i.bucket != SUFFIX
      ensures top.Get(i.bucket, i.key) == LayeredGet(RunModel(start, steps).base, RunModel(start, steps).layers, i)
    {
      GetIsLayered(top, i);
      SimilarAnswers(StackOf(top), RunModel(start, steps), i);
    }
  }

  lemma SimilarHeights(a: Stack, b: Stack)
    requires Similar(a, b)
    ensures |a.layers| == |b.layers|
  {
  }

  lemma NextIs(st: Stack, step: Step)
    requires step.At? ==> step.below < |st.layers|
    ensures step.NewBatch? ==> NextModel(st, step) == Push(st, map[])
    ensures step.At? ==> NextModel(st, step) == StepAt(st, |st.layers| - 1 - step.below, step.op)
  {
  }

  lemma NoSteps(st: Stack, steps: seq<Step>)
    ensures Fits(|st.layers|, steps[..0]) && RunModel(st, steps[..0]) == st
  {
  }

  lemma NextStep(st: Stack, steps: seq<Step>, i: nat)
    requires i < |steps| && Fits(|st.layers|, steps)
    ensures Fits(|st.layers|, steps[..i]) && Fits(|st.layers|, steps[..i + 1]) && steps[i] in steps
    ensures var before := RunModel(st, steps[..i]);
      && (steps[i].At? ==> steps[i].below < |before.layers|)
      && RunModel(st, steps[..i + 1]) == NextModel(before, steps[i])
  {
    var now := steps[..i + 1];
    FitsShorter(|st.layers|, steps, i);
    FitsShorter(|st.layers|, steps, i + 1);
    hide Fits;
    assert now[..|now| - 1] == steps[..i] && now[|now| - 1] == steps[i];
    FitsAt(|st.layers|, steps, i);
  }

  lemma FitsAt(n: nat, steps: seq<Step>, i: nat)
    requires Fits(n, steps) && i < |steps|
    ensures steps[i].At? ==> steps[i].below < Height(n, steps[..i])
  {
    hide Height;
  }
}
