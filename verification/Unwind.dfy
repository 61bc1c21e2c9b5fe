/** ethdb/walk.go and its client in core/state/database.go: undoing blocks from the recorded history. */
module Unwind {
  import opened Options
  import opened ByteOrder
  import opened Encoding
  import opened KeyRange
  import opened Buckets
  import opened Records
  import opened Mutations
  import opened SuffixIndex
  import opened IndexRuns
  import BucketWalk

  /** A cell of the state, named by its history bucket and key. The state bucket is the same
      name without its first byte. */
  datatype Cell = Cell(hb: Bytes, key: Bytes)
  /** The state after a block; a missing cell stands for the empty value, which is never stored. */
  type Snapshot = map<Cell, Bytes>
  datatype Undo = Undo(cell: Cell, value: Option<Bytes>)

  function ValueIn(s: Snapshot, c: Cell): Bytes {
    if c in s then s[c] else []
  }

  function CellOf(hb: Bytes, key: Bytes): Cell {
    Cell(hb, key)
  }

  ghost predicate InSchema(sc: Schema, c: Cell) {
    c.hb in sc && |c.key| == sc[c.hb]
  }

  function StateItem(c: Cell): Item
    requires c.hb != []
  {
    Item(c.hb[1..], c.key)
  }

  function EntryItem(c: Cell, t: BlockNr): Item {
    Item(c.hb, Composite(c.key, t))
  }

  /** History buckets are named by historyBucket, and their state buckets are neither history buckets nor SUFFIX. */
  ghost predicate Separate(sc: Schema) {
    ValidSchema(sc) && forall hb :: hb in sc ==> hb != [] && hb[0] == 104 && hb[1..] !in sc && hb[1..] != SUFFIX
  }

  lemma StateItemInjective(sc: Schema, c: Cell, d: Cell)
    requires Separate(sc) && InSchema(sc, c) && InSchema(sc, d) && StateItem(c) == StateItem(d)
    ensures c == d
  {
    assert c.hb == [c.hb[0]] + c.hb[1..] && d.hb == [d.hb[0]] + d.hb[1..];
  }

  /** The database holds the last state, and for each block the values that it overwrote. */
  ghost predicate Recorded(sc: Schema, m: Flat, states: seq<Snapshot>) {
    && Separate(sc)
    && 0 < |states| <= TIMESTAMP_LIMIT
    && StateStored(sc, m, states[|states| - 1])
    && OldValuesStored(sc, m, states)
    && ChangesStored(sc, m, states)
  }

  /** How a value is kept in a state bucket: the empty value by absence. */
  function Stored(value: Bytes): Option<Bytes> {
    if value == [] then None else Some(value)
  }

  ghost predicate StateStored(sc: Schema, m: Flat, s: Snapshot)
    requires Separate(sc)
  {
    forall c: Cell :: InSchema(sc, c) ==> Lookup(m, StateItem(c)) == Stored(ValueIn(s, c))
  }

  /** Every entry belongs to a block of the run and holds the cell's value before that block. */
  ghost predicate OldValuesStored(sc: Schema, m: Flat, states: seq<Snapshot>) {
    forall c: Cell, t: BlockNr :: InSchema(sc, c) && EntryItem(c, t) in m ==>
      1 <= t < |states| && m[EntryItem(c, t)] == ValueIn(states[t - 1], c)
  }

  /** Every change of a cell in a block of the run has an entry. */
  ghost predicate ChangesStored(sc: Schema, m: Flat, states: seq<Snapshot>) {
    forall c: Cell, t: BlockNr :: InSchema(sc, c) && 1 <= t < |states| && EntryItem(c, t) !in m ==>
      ValueIn(states[t], c) == ValueIn(states[t - 1], c)
  }

  // rewindData

  /** The cells with an entry in the blocks after dst, up to src. */
  ghost predicate Changed(sc: Schema, m: Flat, dst: BlockNr, src: BlockNr, c: Cell) {
    InSchema(sc, c) && exists t: BlockNr :: dst < t <= src && EntryItem(c, t) in m
  }

  lemma {:induction false} UnchangedSince(sc: Schema, m: Flat, states: seq<Snapshot>, c: Cell, dst: nat, n: nat)
    requires ChangesStored(sc, m, states) && InSchema(sc, c) && |states| <= TIMESTAMP_LIMIT
    requires dst <= n < |states|
    requires forall t: BlockNr :: dst < t <= n ==> EntryItem(c, t) !in m
    ensures ValueIn(states[n], c) == ValueIn(states[dst], c)
  {
    if dst < n {
      UnchangedSince(sc, m, states, c, dst, n - 1);
      var t: BlockNr := n;
      assert EntryItem(c, t) !in m;
    }
  }

  /** GetAsOf just after dst answers the value that a changed cell had after dst. */
  lemma AsOfRestores(sc: Schema, store: Store, states: seq<Snapshot>, dst: BlockNr, src: BlockNr, c: Cell)
    requires Recorded(sc, Flatten(store), states) && HistoryGood(sc, Flatten(store))
    requires dst < |states| && dst + 1 < TIMESTAMP_LIMIT && Changed(sc, Flatten(store), dst, src, c)
    ensures GetAsOf(store, c.hb[1..], c.hb, c.key, dst + 1) == Some(ValueIn(states[dst], c))
  {
    hide Flatten, Composite, StateStored;
    var t: BlockNr :| dst < t <= src && EntryItem(c, t) in Flatten(store);
    FlattenAt(store, EntryItem(c, t));
    HistoryBucketKeys(sc, store, c.hb);
    SeekFindsNextChange(store[c.hb], c.key, dst + 1);
    assert Composite(c.key, t) in store[c.hb];
    var u: BlockNr := NextChange(store[c.hb], c.key, dst + 1).value;
    FlattenAt(store, EntryItem(c, u));
    forall w: BlockNr | dst < w <= u - 1
      ensures EntryItem(c, w) !in Flatten(store)
    {
      FlattenAt(store, EntryItem(c, w));
    }
    UnchangedSince(sc, Flatten(store), states, c, dst, u - 1);
  }

  lemma HistoryBucketKeys(sc: Schema, store: Store, hb: Bytes)
    requires HistoryGood(sc, Flatten(store)) && hb in sc && hb in store
    ensures HistoryKeys(store[hb], sc[hb])
  {
    hide Flatten, IsHistoryKey;
    forall hk | hk in store[hb]
      ensures IsHistoryKey(hk, sc[hb])
    {
      FlattenAt(store, Item(hb, hk));
    }
  }

  /** The cells that a SUFFIX record contributes: those it lists, if its block is not after src. */
  ghost function CellsIn(p: Pair, src: BlockNr): set<Cell> {
    match Decode(p.key)
    case None => {}
    case Some((t, hb)) => if t > src then {} else set k | k in KeysIn(p.value) :: CellOf(hb, k)
  }

  ghost function CellsOf(visited: seq<Pair>, src: BlockNr): set<Cell> {
    set p, c | p in visited && c in CellsIn(p, src) :: c
  }

  lemma OneMoreRecord(visited: seq<Pair>, i: nat, src: BlockNr)
    requires i < |visited|
    ensures CellsOf(visited[..i + 1], src) == CellsOf(visited[..i], src) + CellsIn(visited[i], src)
  {
    hide CellsIn;
    assert visited[..i + 1] == visited[..i] + [visited[i]];
  }

  /** The walker of rewindData stops at the first record of a block after src. */
  function StopAfter(src: BlockNr): seq<Pair> -> Answer {
    (visits: seq<Pair>) =>
      Answer(visits == [] || (var d := Decode(visits[|visits| - 1].key); d.Some? && d.value.0 <= src), false)
  }

  /** Every visit of the walk is a readable record of a block and a history bucket. */
  lemma VisitShape(sc: Schema, m: Flat, dst: BlockNr, p: Pair) returns (t: BlockNr, hb: Bytes)
    requires dst + 1 < TIMESTAMP_LIMIT && ValidSchema(sc) && RecordsGood(sc, m)
    requires Lookup(m, Item(SUFFIX, p.key)) == Some(p.value) && !Less(p.key, Enc(dst + 1))
    ensures p.key == Enc(t) + hb && t > dst && hb in sc
    ensures GoodRecord(sc[hb], p.value)
    ensures Decode(p.key) == Some((t, hb)) && ReadRecord(p.value) == Some(KeysIn(p.value))
  {
    hide Less, Enc, Record;
    assert GoodSuffixItem(sc, Item(SUFFIX, p.key), p.value);
    t, hb :| Item(SUFFIX, p.key) == SuffixItem(t, hb) && hb in sc && GoodRecord(sc[hb], p.value);
    RoundTrip(t, hb);
    RecordRead(KeysIn(p.value));
    assert Enc(dst + 1) + [] == Enc(dst + 1);
    if t <= dst {
      EncOrder(t, dst + 1, hb, []);
    }
  }

  /** The records from dst + 1 on, up to src, name exactly the changed cells. */
  lemma CellsAreChanged(sc: Schema, store: Store, dst: BlockNr, src: BlockNr, visited: seq<Pair>, c: Cell)
    requires IndexExact(sc, Flatten(store), {}) && SUFFIX in store && dst + 1 < TIMESTAMP_LIMIT
    requires BucketWalk.Walkable(store[SUFFIX], Enc(dst + 1), 0)
    requires BucketWalk.IsWalk(store[SUFFIX], Enc(dst + 1), 0, StopAfter(src), visited)
    ensures c in CellsOf(visited, src) <==> Changed(sc, Flatten(store), dst, src, c)
  {
    if c in CellsOf(visited, src) {
      CellIsChanged(sc, store, dst, src, visited, c);
    }
    if Changed(sc, Flatten(store), dst, src, c) {
      ChangedIsVisited(sc, store, dst, src, visited, c);
    }
  }

  lemma CellIsChanged(sc: Schema, store: Store, dst: BlockNr, src: BlockNr, visited: seq<Pair>, c: Cell)
    requires IndexExact(sc, Flatten(store), {}) && SUFFIX in store && dst + 1 < TIMESTAMP_LIMIT
    requires BucketWalk.Walkable(store[SUFFIX], Enc(dst + 1), 0)
    requires BucketWalk.IsWalk(store[SUFFIX], Enc(dst + 1), 0, StopAfter(src), visited)
    requires c in CellsOf(visited, src)
    ensures Changed(sc, Flatten(store), dst, src, c)
  {
    hide *;
    var p :| p in visited && c in CellsIn(p, src) by { CellHasVisit(visited, src, c); }
    WantedInSuffix(store, dst, src, visited, p);
    VisitGivesChange(sc, Flatten(store), dst, src, p, c);
  }

  lemma CellHasVisit(visited: seq<Pair>, src: BlockNr, c: Cell)
    requires c in CellsOf(visited, src)
    ensures exists p :: p in visited && c in CellsIn(p, src)
  {
  }

  lemma WantedInSuffix(store: Store, dst: BlockNr, src: BlockNr, visited: seq<Pair>, p: Pair)
    requires SUFFIX in store && dst + 1 < TIMESTAMP_LIMIT
    requires BucketWalk.Walkable(store[SUFFIX], Enc(dst + 1), 0)
    requires BucketWalk.IsWalk(store[SUFFIX], Enc(dst + 1), 0, StopAfter(src), visited) && p in visited
    ensures Lookup(Flatten(store), Item(SUFFIX, p.key)) == Some(p.value) && !Less(p.key, Enc(dst + 1))
  {
    hide Flatten, Less, Enc, Decode;
    FlattenAt(store, Item(SUFFIX, p.key));
    assert BucketWalk.Wanted(store[SUFFIX], Enc(dst + 1), 0, p);
  }

  lemma VisitGivesChange(sc: Schema, m: Flat, dst: BlockNr, src: BlockNr, p: Pair, c: Cell)
    requires IndexExact(sc, m, {}) && dst + 1 < TIMESTAMP_LIMIT
    requires Lookup(m, Item(SUFFIX, p.key)) == Some(p.value) && !Less(p.key, Enc(dst + 1))
    requires c in CellsIn(p, src)
    ensures Changed(sc, m, dst, src, c)
  {
    hide Less, Enc, Record, Decode, ReadRecord, KeysIn, RecordsGood, HistoryGood;
    var t, hb := VisitShape(sc, m, dst, p);
    assert SuffixItem(t, hb) in m && m[SuffixItem(t, hb)] == p.value;
    assert c.hb == hb && c.key in Listed(m, t, hb);
    assert EntryItem(c, t) in m;
  }

  lemma ChangedIsVisited(sc: Schema, store: Store, dst: BlockNr, src: BlockNr, visited: seq<Pair>, c: Cell)
    requires IndexExact(sc, Flatten(store), {}) && SUFFIX in store && dst + 1 < TIMESTAMP_LIMIT
    requires BucketWalk.Walkable(store[SUFFIX], Enc(dst + 1), 0)
    requires BucketWalk.IsWalk(store[SUFFIX], Enc(dst + 1), 0, StopAfter(src), visited)
    requires Changed(sc, Flatten(store), dst, src, c)
    ensures c in CellsOf(visited, src)
  {
    hide Flatten, Less, Enc, BucketWalk.IsWalk, BucketWalk.Walkable, RecordsGood, HistoryGood, ReadRecord;
    var m := Flatten(store);
    var t: BlockNr :| dst < t <= src && EntryItem(c, t) in m;
    assert c.key in Listed(m, t, c.hb);
    var i := SuffixItem(t, c.hb);
    var p := Pair(i.key, m[i]);
    FlattenAt(store, i);
    RecordReached(sc, store, dst, src, visited, t, c.hb, p);
    RoundTrip(t, c.hb);
    assert c in CellsIn(p, src);
  }

  lemma RecordReached(sc: Schema, store: Store, dst: BlockNr, src: BlockNr, visited: seq<Pair>, t: BlockNr, hb: Bytes,
                      p: Pair)
    requires ValidSchema(sc) && RecordsGood(sc, Flatten(store))
    requires SUFFIX in store && dst < t <= src && dst + 1 < TIMESTAMP_LIMIT
    requires p.key == Enc(t) + hb && p.key in store[SUFFIX] && p.value == store[SUFFIX][p.key]
    requires BucketWalk.Walkable(store[SUFFIX], Enc(dst + 1), 0)
    requires BucketWalk.IsWalk(store[SUFFIX], Enc(dst + 1), 0, StopAfter(src), visited)
    ensures p in visited
  {
    hide Decode, Less, Enc, Flatten;
    NotBelowStart(dst, t, hb);
    assert BucketWalk.Wanted(store[SUFFIX], Enc(dst + 1), 0, p);
    if !BucketWalk.Unstopped(StopAfter(src), visited) {
      var last := visited[|visited| - 1];
      WantedInSuffix(store, dst, src, visited, last);
      var t', hb' := VisitShape(sc, Flatten(store), dst, last);
      assert t' > src;
      EncOrder(t, t', hb, hb');
      LessAsymmetric(p.key, last.key);
    }
    assert BucketWalk.NotBeyond(StopAfter(src), visited, p.key);
  }

  lemma NotBelowStart(dst: BlockNr, t: BlockNr, hb: Bytes)
    requires dst < t && dst + 1 < TIMESTAMP_LIMIT
    ensures !Less(Enc(t) + hb, Enc(dst + 1))
  {
    assert Enc(dst + 1) + [] == Enc(dst + 1);
    if dst + 1 < t {
      EncOrder(dst + 1, t, [], hb);
      LessAsymmetric(Enc(dst + 1), Enc(t) + hb);
    } else {
      LessExtension(Enc(t), hb);
      LessIrreflexive(Enc(t));
      if hb != [] { LessAsymmetric(Enc(t), Enc(t) + hb); } else { assert Enc(t) + hb == Enc(t); }
    }
  }

  /** The walk of rewindData over the SUFFIX bucket, collecting the cells named there. */
  method CollectCells(ghost sc: Schema, store: Store, src: BlockNr, dst: BlockNr) returns (cells: set<Cell>)
    requires IndexExact(sc, Flatten(store), {}) && dst + 1 < TIMESTAMP_LIMIT
    ensures forall c :: c in cells <==> Changed(sc, Flatten(store), dst, src, c)
  {
    hide Flatten, IndexExact, Changed, CellsIn, CellsOf, Enc, Less;
    cells := {};
    var suffixDst := EncodeTimestamp(dst + 1);
    if SUFFIX in store { EmptyFits(store[SUFFIX], suffixDst); }
    var visited, _ := BucketWalk.Walk(store, SUFFIX, suffixDst, 0, StopAfter(src));
    NoCells(visited, src);
    var i := 0;
    while i < |visited|
      invariant 0 <= i <= |visited|
      invariant cells == CellsOf(visited[..i], src)
    {
      VisitReads(sc, store, src, dst, visited, i);
      OneMoreRecord(visited, i, src);
      var d := DecodeTimestamp(visited[i].key);
      if d.value.0 <= src {
        var keys := ReadKeys(visited[i].value);
        cells := cells + set k | k in keys.value :: CellOf(d.value.1, k);
      }
      i := i + 1;
    }
    assert visited[..|visited|] == visited;
    forall c
      ensures c in cells <==> Changed(sc, Flatten(store), dst, src, c)
    {
      if SUFFIX in store {
        CellsAreChanged(sc, store, dst, src, visited, c);
      } else {
        NothingRecorded(sc, store, dst, src, c);
      }
    }
  }

  lemma EmptyFits(b: Bucket, startkey: Bytes)
    ensures BucketWalk.Walkable(b, startkey, 0)
  {
  }

  lemma NoCells(visited: seq<Pair>, src: BlockNr)
    ensures CellsOf(visited[..0], src) == {}
  {
  }

  /** What decoding and reading a visit gives. */
  lemma VisitReads(sc: Schema, store: Store, src: BlockNr, dst: BlockNr, visited: seq<Pair>, i: nat)
    requires IndexExact(sc, Flatten(store), {}) && dst + 1 < TIMESTAMP_LIMIT && i < |visited|
    requires SUFFIX in store ==> BucketWalk.Walkable(store[SUFFIX], Enc(dst + 1), 0)
    requires SUFFIX in store ==> BucketWalk.IsWalk(store[SUFFIX], Enc(dst + 1), 0, StopAfter(src), visited)
    requires SUFFIX !in store ==> visited == []
    ensures var d, keys := Decode(visited[i].key), ReadRecord(visited[i].value);
      d.Some? && keys.Some? &&
      CellsIn(visited[i], src) == if d.value.0 > src then {} else set k | k in keys.value :: CellOf(d.value.1, k)
  {
    hide Flatten, Enc, Less, Decode, BucketWalk.IsWalk, HistoryGood, ListedExactly, Record;
    assert visited[i] in visited;
    WantedInSuffix(store, dst, src, visited, visited[i]);
    var t, hb := VisitShape(sc, Flatten(store), dst, visited[i]);
  }

  lemma NothingRecorded(sc: Schema, store: Store, dst: BlockNr, src: BlockNr, c: Cell)
    requires IndexExact(sc, Flatten(store), {}) && SUFFIX !in store
    ensures !Changed(sc, Flatten(store), dst, src, c)
  {
    hide Flatten, Composite, RecordsGood, HistoryGood, KeysIn, Enc;
    forall t: BlockNr | dst < t <= src && InSchema(sc, c)
      ensures EntryItem(c, t) !in Flatten(store)
    {
      FlattenAt(store, SuffixItem(t, c.hb));
      assert Listed(Flatten(store), t, c.hb) == [];
    }
  }

  ghost predicate HasCell(undone: seq<Undo>, c: Cell) {
    exists u :: u in undone && u.cell == c
  }

  lemma HasCellAppend(undone: seq<Undo>, u: Undo, c: Cell)
    ensures HasCell(undone + [u], c) <==> HasCell(undone, c) || u.cell == c
  {
    assert forall w :: w in undone + [u] <==> w in undone || w == u;
    if u.cell == c { assert u in undone + [u]; }
  }

  ghost predicate DistinctCells(undone: seq<Undo>) {
    forall i, j :: 0 <= i < j < |undone| ==> undone[i].cell != undone[j].cell
  }

  /** What rewindData tells its callback: changed cells only, each once, with the value they had after dst. */
  ghost predicate Undoes(sc: Schema, m: Flat, states: seq<Snapshot>, src: BlockNr, dst: BlockNr, undone: seq<Undo>)
    requires dst < |states|
  {
    && DistinctCells(undone)
    && forall u :: u in undone ==> Changed(sc, m, dst, src, u.cell) && u.value == Some(ValueIn(states[dst], u.cell))
  }

  /** rewindData; df tells whether the callback fails after the given calls. */
  method RewindData(ghost sc: Schema, ghost states: seq<Snapshot>, store: Store, src: BlockNr, dst: BlockNr,
                    df: seq<Undo> -> bool) returns (undone: seq<Undo>, failed: bool)
    requires Recorded(sc, Flatten(store), states) && IndexExact(sc, Flatten(store), {})
    requires dst < |states| && dst + 1 < TIMESTAMP_LIMIT
    ensures Undoes(sc, Flatten(store), states, src, dst, undone)
    ensures failed ==> undone != [] && df(undone)
    ensures !failed ==> forall c :: Changed(sc, Flatten(store), dst, src, c) ==> HasCell(undone, c)
  {
    hide Flatten, Recorded, IndexExact, Changed, GetAsOf;
    var todo := CollectCells(sc, store, src, dst);
    undone, failed := [], false;
    ghost var m := Flatten(store);
    while todo != {}
      invariant Undoes(sc, m, states, src, dst, undone)
      invariant forall c :: c in todo ==> Changed(sc, m, dst, src, c)
      invariant forall c :: c in todo ==> forall u :: u in undone ==> u.cell != c
      invariant forall c :: Changed(sc, m, dst, src, c) ==> c in todo || HasCell(undone, c)
      decreases todo
    {
      var c :| c in todo;
      RecordedParts(sc, store, states, dst, src, c);
      AsOfRestores(sc, store, states, dst, src, c);
      var u := Undo(c, GetAsOf(store, c.hb[1..], c.hb, c.key, dst + 1));
      assert forall w :: w in undone + [u] <==> w in undone || w == u;
      forall d ensures HasCell(undone + [u], d) <==> HasCell(undone, d) || u.cell == d {
        HasCellAppend(undone, u, d);
      }
      undone := undone + [u];
      todo := todo - {c};
      if df(undone) {
        return undone, true;
      }
    }
  }

  lemma RecordedParts(sc: Schema, store: Store, states: seq<Snapshot>, dst: BlockNr, src: BlockNr, c: Cell)
    requires Recorded(sc, Flatten(store), states) && IndexExact(sc, Flatten(store), {})
    requires Changed(sc, Flatten(store), dst, src, c)
    ensures HistoryGood(sc, Flatten(store)) && c.hb != []
  {
  }

  // UnwindTo

  /** m' differs from m in state buckets only. */
  ghost predicate SameHistory(sc: Schema, m: Flat, m': Flat) {
    forall i: Item :: i.bucket in sc || i.bucket == SUFFIX ==> Lookup(m', i) == Lookup(m, i)
  }

  ghost predicate StateIs(sc: Schema, m: Flat, value: Cell -> Bytes)
    requires Separate(sc)
  {
    forall c: Cell :: InSchema(sc, c) ==> Lookup(m, StateItem(c)) == Stored(value(c))
  }

  /** Writing one cell to its state bucket. */
  lemma WriteCell(sc: Schema, m: Flat, value: Cell -> Bytes, c: Cell, v: Bytes)
    requires Separate(sc) && InSchema(sc, c) && StateIs(sc, m, value)
    ensures var m' := Assign(m, Tuple(StateItem(c), Stored(v)));
      SameHistory(sc, m, m') && StateIs(sc, m', d => if d == c then v else value(d))
  {
    var m' := Assign(m, Tuple(StateItem(c), Stored(v)));
    forall d: Cell | InSchema(sc, d)
      ensures Lookup(m', StateItem(d)) == Stored(if d == c then v else value(d))
    {
      if d != c && StateItem(d) == StateItem(c) { StateItemInjective(sc, d, c); }
    }
  }

  ghost function Undone(states: seq<Snapshot>, dst: nat, undone: seq<Undo>): Cell -> Bytes
    requires dst < |states|
  {
    c => if HasCell(undone, c) then ValueIn(states[dst], c) else ValueIn(states[|states| - 1], c)
  }

  lemma StateIsCongruent(sc: Schema, m: Flat, f: Cell -> Bytes, g: Cell -> Bytes)
    requires Separate(sc) && StateIs(sc, m, f) && forall c :: InSchema(sc, c) ==> f(c) == g(c)
    ensures StateIs(sc, m, g)
  {
  }

  /** The callback of UnwindTo: an empty or missing value deletes the cell, any other is put back. */
  method ApplyUndos(ghost sc: Schema, ghost states: seq<Snapshot>, ghost src: BlockNr, dst: BlockNr, m: Mutation,
                    undone: seq<Undo>)
    requires m.Valid() && m.db.Bolt? && dst < |states|
    requires Separate(sc) && StateStored(sc, m.Contents(), states[|states| - 1])
    requires Undoes(sc, m.Contents(), states, src, dst, undone)
    modifies m`puts
    ensures m.Below() == old(m.Below()) && SameHistory(sc, old(m.Contents()), m.Contents())
    ensures StateIs(sc, m.Contents(), Undone(states, dst, undone))
  {
    hide *;
    ghost var m0 := m.Contents();
    UndoStarts(sc, m0, states, dst, undone);
    var i := 0;
    while i < |undone|
      invariant 0 <= i <= |undone|
      invariant m.Below() == old(m.Below()) && SameHistory(sc, m0, m.Contents())
      invariant StateIs(sc, m.Contents(), Undone(states, dst, undone[..i]))
    {
      var u := undone[i];
      UndoParts(sc, m0, states, src, dst, undone, i);
      var value := if u.value.Some? then u.value.value else [];
      ghost var before := m.Contents();
      WriteCell(sc, before, Undone(states, dst, undone[..i]), u.cell, value);
      if |value| > 0 {
        m.Put(u.cell.hb[1..], u.cell.key, value);
      } else {
        m.Delete(u.cell.hb[1..], u.cell.key);
      }
      StoredWrite(before, u.cell, value);
      UndoStep(sc, m.Contents(), states, dst, undone, i, value);
      SameHistoryTransitive(sc, m0, before, m.Contents());
      i := i + 1;
    }
    assert undone[..|undone|] == undone;
  }

  lemma UndoStarts(sc: Schema, m: Flat, states: seq<Snapshot>, dst: nat, undone: seq<Undo>)
    requires Separate(sc) && dst < |states| && StateStored(sc, m, states[|states| - 1])
    ensures SameHistory(sc, m, m) && StateIs(sc, m, Undone(states, dst, undone[..0]))
  {
  }

  lemma UndoParts(sc: Schema, m: Flat, states: seq<Snapshot>, src: BlockNr, dst: BlockNr, undone: seq<Undo>, i: nat)
    requires Separate(sc) && dst < |states| && i < |undone| && Undoes(sc, m, states, src, dst, undone)
    ensures InSchema(sc, undone[i].cell) && undone[i].cell.hb != []
    ensures undone[i].value == Some(ValueIn(states[dst], undone[i].cell))
  {
    assert undone[i] in undone;
  }

  lemma StoredWrite(m: Flat, c: Cell, value: Bytes)
    requires c.hb != []
    ensures Assign(m, Tuple(StateItem(c), Stored(value))) ==
      if |value| > 0 then m[Item(c.hb[1..], c.key) := value] else m - {Item(c.hb[1..], c.key)}
  {
  }

  lemma UndoStep(sc: Schema, m: Flat, states: seq<Snapshot>, dst: nat, undone: seq<Undo>, i: nat, value: Bytes)
    requires Separate(sc) && dst < |states| && i < |undone| && value == ValueIn(states[dst], undone[i].cell)
    requires StateIs(sc, m, d => if d == undone[i].cell then value else Undone(states, dst, undone[..i])(d))
    ensures StateIs(sc, m, Undone(states, dst, undone[..i + 1]))
  {
    assert undone[..i + 1] == undone[..i] + [undone[i]];
    var f := (d: Cell) => if d == undone[i].cell then value else Undone(states, dst, undone[..i])(d);
    forall d: Cell
      ensures f(d) == Undone(states, dst, undone[..i + 1])(d)
    {
      HasCellAppend(undone[..i], undone[i], d);
      assert HasCell(undone[..i + 1], d) <==> HasCell(undone[..i], d) || undone[i].cell == d;
      assert f(d) == if d == undone[i].cell then value else Undone(states, dst, undone[..i])(d);
    }
    StateIsCongruent(sc, m, f, Undone(states, dst, undone[..i + 1]));
  }

  lemma SameHistoryTransitive(sc: Schema, a: Flat, b: Flat, c: Flat)
    requires SameHistory(sc, a, b) && SameHistory(sc, b, c)
    ensures SameHistory(sc, a, c)
  {
  }

  /** With every changed cell undone, the state is that of dst. */
  lemma UndoneIsRestored(sc: Schema, m: Flat, m': Flat, states: seq<Snapshot>, src: BlockNr, dst: BlockNr,
                         undone: seq<Undo>)
    requires Recorded(sc, m, states) && dst < |states| && src == |states| - 1
    requires forall c :: Changed(sc, m, dst, src, c) ==> HasCell(undone, c)
    requires StateIs(sc, m', Undone(states, dst, undone))
    ensures StateStored(sc, m', states[dst])
  {
    hide Composite;
    forall c: Cell | InSchema(sc, c)
      ensures Lookup(m', StateItem(c)) == Stored(ValueIn(states[dst], c))
    {
      if !HasCell(undone, c) {
        assert !Changed(sc, m, dst, src, c);
        UnchangedSince(sc, m, states, c, dst, src);
      }
    }
  }

  /** m' is m without the entries of blocks above n. */
  ghost predicate TrimmedTo(sc: Schema, m: Flat, m': Flat, n: nat) {
    forall c: Cell, t: BlockNr :: InSchema(sc, c) ==>
      Lookup(m', EntryItem(c, t)) == if t <= n then Lookup(m, EntryItem(c, t)) else None
  }

  /** A history that is trimmed to dst, under the state of dst, is the record of the run up to dst. */
  lemma TrimmedIsRecorded(sc: Schema, m: Flat, m': Flat, states: seq<Snapshot>, dst: BlockNr)
    requires Recorded(sc, m, states) && dst < |states|
    requires TrimmedTo(sc, m, m', dst) && StateStored(sc, m', states[dst])
    ensures Recorded(sc, m', states[..dst + 1])
  {
    var kept := states[..dst + 1];
    forall c: Cell, t: BlockNr | InSchema(sc, c) && EntryItem(c, t) in m'
      ensures 1 <= t < |kept| && m'[EntryItem(c, t)] == ValueIn(kept[t - 1], c)
    {
      assert Lookup(m', EntryItem(c, t)) == if t <= dst then Lookup(m, EntryItem(c, t)) else None;
    }
    forall c: Cell, t: BlockNr | InSchema(sc, c) && 1 <= t < |kept| && EntryItem(c, t) !in m'
      ensures ValueIn(kept[t], c) == ValueIn(kept[t - 1], c)
    {
      assert Lookup(m', EntryItem(c, t)) == Lookup(m, EntryItem(c, t));
    }
  }

  lemma TrimOne(sc: Schema, m: Flat, m': Flat, n: BlockNr)
    requires Separate(sc) && n > 0 && TrimmedTo(sc, m, m', n)
    ensures TrimmedTo(sc, m, WithoutBlock(sc, m', n), n - 1)
  {
    hide OfBlock, Composite;
    forall c: Cell, t: BlockNr | InSchema(sc, c)
      ensures Lookup(WithoutBlock(sc, m', n), EntryItem(c, t)) ==
        if t <= n - 1 then Lookup(m, EntryItem(c, t)) else None
    {
      BlockOfEntry(sc, n, t, c.hb, c.key);
      assert Lookup(m', EntryItem(c, t)) == if t <= n then Lookup(m, EntryItem(c, t)) else None;
    }
  }

  lemma StateWithoutBlock(sc: Schema, m: Flat, s: Snapshot, t: BlockNr)
    requires Separate(sc) && StateStored(sc, m, s)
    ensures StateStored(sc, WithoutBlock(sc, m, t), s)
  {
    forall c: Cell | InSchema(sc, c)
      ensures Lookup(WithoutBlock(sc, m, t), StateItem(c)) == Stored(ValueIn(s, c))
    {
      assert !OfBlock(sc, t, StateItem(c));
    }
  }

  /** A batch with nothing in it, over a database that records the run and indexes it exactly. */
  ghost predicate Ready(sc: Schema, states: seq<Snapshot>, m: Mutation)
    requires m.Valid()
    reads m.chain
  {
    && m.db.Bolt? && m.puts == map[] && m.suffixkeys == map[]
    && Recorded(sc, m.Below(), states) && IndexExact(sc, m.Below(), {})
  }

  lemma NothingToTrim(sc: Schema, m: Flat, m': Flat, states: seq<Snapshot>)
    requires Recorded(sc, m, states) && SameHistory(sc, m, m')
    ensures TrimmedTo(sc, m, m', |states| - 1)
  {
    forall c: Cell, t: BlockNr | InSchema(sc, c)
      ensures Lookup(m', EntryItem(c, t)) == if t <= |states| - 1 then Lookup(m, EntryItem(c, t)) else None
    {
      assert Lookup(m', EntryItem(c, t)) == Lookup(m, EntryItem(c, t));
    }
  }

  /** The index speaks of history only. */
  lemma SameHistoryIndex(sc: Schema, m: Flat, m': Flat, pending: Pending)
    requires IndexExact(sc, m, pending) && SameHistory(sc, m, m')
    ensures IndexExact(sc, m', pending)
  {
    hide Composite, GoodSuffixItem, IsHistoryKey, KeysIn;
    assert RecordsGood(sc, m') && HistoryGood(sc, m') by {
      forall i | i in m' && (i.bucket in sc || i.bucket == SUFFIX)
        ensures i in m && m'[i] == m[i]
      {
        assert Lookup(m', i) == Lookup(m, i);
      }
    }
    forall t: BlockNr, hb, k | hb in sc && |k| == sc[hb]
      ensures Item(hb, Composite(k, t)) in m' <==> k in Listed(m', t, hb) || (t, hb, k) in pending
    {
      assert Lookup(m', Item(hb, Composite(k, t))) == Lookup(m, Item(hb, Composite(k, t)));
      assert Lookup(m', SuffixItem(t, hb)) == Lookup(m, SuffixItem(t, hb));
    }
  }

  lemma SameHistoryOverlays(sc: Schema, m: Flat, m': Flat)
    requires IndexExact(sc, m, {}) && SameHistory(sc, m, m')
    ensures Overlays(sc, m', m, {})
  {
    hide IndexExact;
    SameHistoryIndex(sc, m, m', {});
    forall i | i in m' && i.bucket == SUFFIX
      ensures Lookup(m, i) == Some(m'[i])
    {
      assert Lookup(m', i) == Lookup(m, i);
    }
  }

  /** TrieDbState.UnwindTo, from the last block of the run: restores the state of dst and
      forgets the blocks after it. */
  method UnwindTo(ghost sc: Schema, ghost states: seq<Snapshot>, m: Mutation, blockNr: BlockNr, dst: BlockNr)
    requires m.Valid() && Ready(sc, states, m)
    requires blockNr == |states| - 1 && dst <= blockNr && dst + 1 < TIMESTAMP_LIMIT
    modifies m`puts
    ensures m.Below() == old(m.Below()) && m.suffixkeys == map[]
    ensures Recorded(sc, m.Contents(), states[..dst + 1]) && Overlays(sc, m.Contents(), m.Below(), {})
  {
    hide Flatten, Recorded, IndexExact, Overlay, Overlays, Undoes, WithoutBlock, TrimmedTo, SameHistory;
    hide StateStored, StateIs, Undone;
    ghost var base := m.Below();
    m.CleanView();
    var undone, _ := RewindData(sc, states, m.BaseStore(), blockNr, dst, _ => false);
    assert Separate(sc) && StateStored(sc, base, states[|states| - 1]) by { RecordedHere(sc, base, states); }
    ApplyUndos(sc, states, blockNr, dst, m, undone);
    UndoneIsRestored(sc, base, m.Contents(), states, blockNr, dst, undone);
    NothingToTrim(sc, base, m.Contents(), states);
    SameHistoryOverlays(sc, base, m.Contents());
    var i := blockNr;
    while i > dst
      invariant dst <= i <= blockNr
      invariant m.Below() == base
      invariant TrimmedTo(sc, base, m.Contents(), i) && StateStored(sc, m.Contents(), states[dst])
      invariant Overlays(sc, m.Contents(), base, {})
    {
      TrimOne(sc, base, m.Contents(), i);
      StateWithoutBlock(sc, m.Contents(), states[dst], i);
      DropBlock(sc, m, i, {});
      i := i - 1;
    }
    TrimmedIsRecorded(sc, base, m.Contents(), states, dst);
  }

  lemma RecordedHere(sc: Schema, m: Flat, states: seq<Snapshot>)
    requires Recorded(sc, m, states)
    ensures Separate(sc) && 0 < |states| <= TIMESTAMP_LIMIT && StateStored(sc, m, states[|states| - 1])
  {
  }

  // Executing a block

  /** The state after a block that writes the given values; the empty value deletes. */
  function NextSnapshot(s: Snapshot, changes: map<Cell, Bytes>): Snapshot {
    map c | c in s.Keys + changes.Keys :: if c in changes then changes[c] else s[c]
  }

  lemma NextValue(s: Snapshot, changes: map<Cell, Bytes>, c: Cell)
    ensures ValueIn(NextSnapshot(s, changes), c) == if c in changes then changes[c] else ValueIn(s, c)
  {
  }

  ghost function Written(s: Snapshot, changes: map<Cell, Bytes>, done: set<Cell>): Cell -> Bytes {
    c => if c in done && c in changes then changes[c] else ValueIn(s, c)
  }

  /** The entries of the block under execution, on top of those of the blocks before. */
  ghost predicate EntriesAre(sc: Schema, base: Flat, m: Flat, s: Snapshot, t: BlockNr, done: set<Cell>) {
    forall c: Cell, u: BlockNr :: InSchema(sc, c) ==>
      Lookup(m, EntryItem(c, u)) == if u == t && c in done then Some(ValueIn(s, c)) else Lookup(base, EntryItem(c, u))
  }

  ghost predicate SameSuffix(base: Flat, m: Flat) {
    forall i: Item :: i.bucket == SUFFIX ==> Lookup(m, i) == Lookup(base, i)
  }

  /** What the batch collects for its one block. */
  ghost predicate CollectedFor(sk: SuffixKeys, t: BlockNr, n: nat) {
    forall u, hb :: u in sk && hb in sk[u] ==> u == t && |sk[u][hb]| <= n
  }

  /** The batch in the middle of a block: the cells done have new values and entries, the others
      are as the block found them. */
  ghost predicate InBlock(sc: Schema, base: Flat, s: Snapshot, t: BlockNr, changes: map<Cell, Bytes>, done: set<Cell>,
                          m: Flat, sk: SuffixKeys)
    requires Separate(sc)
  {
    && SameSuffix(base, m)
    && StateIs(sc, m, Written(s, changes, done))
    && EntriesAre(sc, base, m, s, t, done)
    && IndexExact(sc, m, PendingOf(sk)) && GoodPending(sc, sk)
    && CollectedFor(sk, t, |done|)
  }

  lemma BlockBegins(sc: Schema, base: Flat, s: Snapshot, t: BlockNr, changes: map<Cell, Bytes>)
    requires Separate(sc) && StateStored(sc, base, s) && IndexExact(sc, base, {})
    ensures InBlock(sc, base, s, t, changes, {}, base, map[])
  {
    hide IndexExact, Composite;
    assert PendingOf(map[]) == {};
  }

  lemma WriteEntry(sc: Schema, base: Flat, m: Flat, s: Snapshot, t: BlockNr, done: set<Cell>, c: Cell)
    requires Separate(sc) && InSchema(sc, c) && EntriesAre(sc, base, m, s, t, done)
    ensures EntriesAre(sc, base, Assign(m, Tuple(EntryItem(c, t), Some(ValueIn(s, c)))), s, t, done + {c})
  {
    var m' := Assign(m, Tuple(EntryItem(c, t), Some(ValueIn(s, c))));
    hide Composite;
    forall d: Cell, u: BlockNr | InSchema(sc, d)
      ensures Lookup(m', EntryItem(d, u)) ==
        if u == t && d in done + {c} then Some(ValueIn(s, d)) else Lookup(base, EntryItem(d, u))
    {
      if d.hb == c.hb { CompositeOrder(d.key, u, c.key, t); }
      assert EntryItem(d, u) == EntryItem(c, t) <==> d == c && u == t;
      assert Lookup(m, EntryItem(d, u)) ==
        if u == t && d in done then Some(ValueIn(s, d)) else Lookup(base, EntryItem(d, u));
    }
  }

  lemma EntryApart(sc: Schema, m: Flat, t: BlockNr, c: Cell, v: Bytes, value: Cell -> Bytes)
    requires Separate(sc) && InSchema(sc, c) && StateIs(sc, m, value)
    ensures var m' := Assign(m, Tuple(EntryItem(c, t), Some(v)));
      StateIs(sc, m', value) && forall i: Item :: i.bucket == SUFFIX ==> Lookup(m', i) == Lookup(m, i)
  {
    var m' := Assign(m, Tuple(EntryItem(c, t), Some(v)));
    forall d: Cell | InSchema(sc, d)
      ensures Lookup(m', StateItem(d)) == Stored(value(d))
    {
      assert StateItem(d) != EntryItem(c, t);
    }
  }

  lemma CellWritten(s: Snapshot, changes: map<Cell, Bytes>, done: set<Cell>, c: Cell, sc: Schema, m: Flat)
    requires Separate(sc) && c in changes
    requires StateIs(sc, m, d => if d == c then changes[c] else Written(s, changes, done)(d))
    ensures StateIs(sc, m, Written(s, changes, done + {c}))
  {
    var f := (d: Cell) => if d == c then changes[c] else Written(s, changes, done)(d);
    forall d: Cell
      ensures f(d) == Written(s, changes, done + {c})(d)
    {
      assert f(d) == if d == c then changes[c] else Written(s, changes, done)(d);
    }
    StateIsCongruent(sc, m, f, Written(s, changes, done + {c}));
  }

  lemma SameHistoryKeeps(sc: Schema, base: Flat, m: Flat, m': Flat, s: Snapshot, t: BlockNr, done: set<Cell>)
    requires SameHistory(sc, m, m') && EntriesAre(sc, base, m, s, t, done) && SameSuffix(base, m)
    ensures EntriesAre(sc, base, m', s, t, done) && SameSuffix(base, m')
  {
    hide Composite;
    forall c: Cell, u: BlockNr | InSchema(sc, c)
      ensures Lookup(m', EntryItem(c, u)) ==
        if u == t && c in done then Some(ValueIn(s, c)) else Lookup(base, EntryItem(c, u))
    {
      assert Lookup(m', EntryItem(c, u)) == Lookup(m, EntryItem(c, u));
    }
  }

  lemma CollectOne(sk: SuffixKeys, t: BlockNr, done: set<Cell>, c: Cell)
    requires CollectedFor(sk, t, |done|) && c !in done
    ensures CollectedFor(AddSuffix(sk, t, c.hb, c.key), t, |done + {c}|)
  {
    assert |done + {c}| == |done| + 1;
  }

  /** One cell of the block: the new value goes to the state bucket, the old one to the history. */
  lemma CellStep(sc: Schema, base: Flat, s: Snapshot, t: BlockNr, changes: map<Cell, Bytes>, done: set<Cell>,
                 m: Flat, sk: SuffixKeys, c: Cell)
    requires Separate(sc) && InBlock(sc, base, s, t, changes, done, m, sk)
    requires InSchema(sc, c) && c in changes && c !in done
    ensures Lookup(m, StateItem(c)) == Stored(ValueIn(s, c))
    ensures var m1 := Assign(m, Tuple(StateItem(c), Stored(changes[c])));
      var m2 := Assign(m1, Tuple(EntryItem(c, t), Some(ValueIn(s, c))));
      InBlock(sc, base, s, t, changes, done + {c}, m2, AddSuffix(sk, t, c.hb, c.key))
  {
    assert Lookup(m, StateItem(c)) == Stored(Written(s, changes, done)(c));
    hide Assign, StateIs, EntriesAre, SameHistory, IndexExact, GoodPending, CollectedFor, AddSuffix, Composite;
    hide Written, PendingOf;
    var m1 := Assign(m, Tuple(StateItem(c), Stored(changes[c])));
    var m2 := Assign(m1, Tuple(EntryItem(c, t), Some(ValueIn(s, c))));
    WriteCell(sc, m, Written(s, changes, done), c, changes[c]);
    CellWritten(s, changes, done, c, sc, m1);
    SameHistoryKeeps(sc, base, m, m1, s, t, done);
    SameHistoryIndex(sc, m, m1, PendingOf(sk));
    WriteEntry(sc, base, m1, s, t, done, c);
    EntryApart(sc, m1, t, c, ValueIn(s, c), Written(s, changes, done + {c}));
    PutSKeepsIndex(sc, m1, PendingOf(sk), c.hb, c.key, Some(ValueIn(s, c)), t);
    AddSuffixIsPending(sc, sk, t, c.hb, c.key);
    CollectOne(sk, t, done, c);
  }

  /** A block that was not executed has no record. */
  lemma NoRecordYet(sc: Schema, base: Flat, states: seq<Snapshot>, t: BlockNr, hb: Bytes)
    requires Recorded(sc, base, states) && IndexExact(sc, base, {}) && t >= |states|
    ensures SuffixItem(t, hb) !in base
  {
    hide IndexExact, Composite, StateStored, ChangesStored, Separate;
    if SuffixItem(t, hb) in base {
      var c := RecordHasEntry(sc, base, t, hb);
    }
  }

  lemma RecordHasEntry(sc: Schema, base: Flat, t: BlockNr, hb: Bytes) returns (c: Cell)
    requires IndexExact(sc, base, {}) && SuffixItem(t, hb) in base
    ensures InSchema(sc, c) && EntryItem(c, t) in base
  {
    hide Composite, HistoryGood, ReadRecord, Record, Enc, RecordsGood;
    GoodSuffixItemParts(sc, base, t, hb);
    var k := KeysIn(base[SuffixItem(t, hb)])[0];
    assert k in Listed(base, t, hb);
    c := Cell(hb, k);
  }

  lemma RoomForBlock(sc: Schema, base: Flat, states: seq<Snapshot>, t: BlockNr, m: Flat, sk: SuffixKeys, n: nat)
    requires Recorded(sc, base, states) && IndexExact(sc, base, {}) && t >= |states|
    requires SameSuffix(base, m) && CollectedFor(sk, t, n) && n < U32_LIMIT
    ensures RoomFor(m, sk)
  {
    hide Recorded, IndexExact;
    forall u, hb | u in sk && hb in sk[u]
      ensures |Listed(m, u, hb)| + |sk[u][hb]| < U32_LIMIT
    {
      NoRecordYet(sc, base, states, t, hb);
      assert Lookup(m, SuffixItem(u, hb)) == Lookup(base, SuffixItem(u, hb));
    }
  }

  lemma BlockState(sc: Schema, s: Snapshot, changes: map<Cell, Bytes>, m: Flat, m': Flat)
    requires Separate(sc) && StateIs(sc, m, Written(s, changes, changes.Keys))
    requires forall i: Item :: i.bucket != SUFFIX ==> Lookup(m', i) == Lookup(m, i)
    ensures StateStored(sc, m', NextSnapshot(s, changes))
  {
    hide NextSnapshot, Lookup;
    forall c: Cell | InSchema(sc, c)
      ensures Lookup(m', StateItem(c)) == Stored(ValueIn(NextSnapshot(s, changes), c))
    {
      NextValue(s, changes, c);
      assert Lookup(m, StateItem(c)) == Stored(Written(s, changes, changes.Keys)(c));
    }
  }

  ghost predicate EntryOk(m: Flat, states: seq<Snapshot>, c: Cell, u: BlockNr) {
    && (EntryItem(c, u) in m ==> 1 <= u < |states| && m[EntryItem(c, u)] == ValueIn(states[u - 1], c))
    && (1 <= u < |states| && EntryItem(c, u) !in m ==> ValueIn(states[u], c) == ValueIn(states[u - 1], c))
  }

  lemma BlockEntry(sc: Schema, base: Flat, states: seq<Snapshot>, t: BlockNr, changes: map<Cell, Bytes>, m': Flat,
                   c: Cell, u: BlockNr)
    requires 0 < |states| == t && OldValuesStored(sc, base, states) && ChangesStored(sc, base, states)
    requires InSchema(sc, c)
    requires Lookup(m', EntryItem(c, u)) ==
      if u == t && c in changes.Keys then Some(ValueIn(states[t - 1], c)) else Lookup(base, EntryItem(c, u))
    ensures EntryOk(m', states + [NextSnapshot(states[t - 1], changes)], c, u)
  {
    hide Composite, NextSnapshot;
    NextValue(states[t - 1], changes, c);
  }

  /** The finished block, committed, extends the recorded run. */
  lemma BlockRecorded(sc: Schema, base: Flat, states: seq<Snapshot>, t: BlockNr, changes: map<Cell, Bytes>, m: Flat,
                      sk: SuffixKeys, m': Flat)
    requires Recorded(sc, base, states) && t == |states|
    requires InBlock(sc, base, states[|states| - 1], t, changes, changes.Keys, m, sk)
    requires forall i: Item :: i.bucket != SUFFIX ==> Lookup(m', i) == Lookup(m, i)
    ensures Recorded(sc, m', states + [NextSnapshot(states[|states| - 1], changes)])
  {
    hide IndexExact, GoodPending, CollectedFor, NextSnapshot, SameSuffix, StateStored, StateIs, ValueIn;
    hide Lookup, Composite;
    var s := states[|states| - 1];
    var after := states + [NextSnapshot(s, changes)];
    BlockState(sc, s, changes, m, m');
    hide OldValuesStored, ChangesStored;
    forall c: Cell, u: BlockNr | InSchema(sc, c)
      ensures EntryOk(m', after, c, u)
    {
      assert Lookup(m', EntryItem(c, u)) == Lookup(m, EntryItem(c, u));
      BlockEntry(sc, base, states, t, changes, m', c, u);
    }
    EntriesMakeRecord(sc, m', after);
  }

  lemma EntriesMakeRecord(sc: Schema, m: Flat, states: seq<Snapshot>)
    requires forall c: Cell, u: BlockNr :: InSchema(sc, c) ==> EntryOk(m, states, c, u)
    ensures OldValuesStored(sc, m, states) && ChangesStored(sc, m, states)
  {
    hide EntryItem;
    forall c: Cell, u: BlockNr | InSchema(sc, c) && EntryItem(c, u) in m
      ensures 1 <= u < |states| && m[EntryItem(c, u)] == ValueIn(states[u - 1], c)
    {
      assert EntryOk(m, states, c, u);
    }
    forall c: Cell, u: BlockNr | InSchema(sc, c) && 1 <= u < |states| && EntryItem(c, u) !in m
      ensures ValueIn(states[u], c) == ValueIn(states[u - 1], c)
    {
      assert EntryOk(m, states, c, u);
    }
  }

  /** The writes of one cell of a block: the new value to its state bucket, the old one to the history. */
  method WriteChange(ghost sc: Schema, ghost base: Flat, ghost s: Snapshot, m: Mutation, blockNr: BlockNr,
                     changes: map<Cell, Bytes>, ghost done: set<Cell>, c: Cell)
    requires m.Valid() && m.db.Bolt? && Separate(sc) && InSchema(sc, c) && c in changes && c !in done
    requires m.Below() == base && InBlock(sc, base, s, blockNr, changes, done, m.Contents(), m.suffixkeys)
    modifies m
    ensures m.Below() == base && InBlock(sc, base, s, blockNr, changes, done + {c}, m.Contents(), m.suffixkeys)
  {
    hide *;
    CellStep(sc, base, s, blockNr, changes, done, m.Contents(), m.suffixkeys, c);
    CellInSchema(sc, c);
    var original := m.Get(c.hb[1..], c.key);
    OriginalValue(m.Contents(), s, c, original);
    StoredWrite(m.Contents(), c, changes[c]);
    EntryItemIs(c, blockNr);
    if |changes[c]| > 0 {
      m.Put(c.hb[1..], c.key, changes[c]);
    } else {
      m.Delete(c.hb[1..], c.key);
    }
    m.PutS(c.hb, c.key, Some(if original.Some? then original.value else []), blockNr);
  }

  lemma EntryItemIs(c: Cell, t: BlockNr)
    ensures EntryItem(c, t) == Item(c.hb, Composite(c.key, t))
  {
  }

  /** The writes of all cells of a block, in any order. */
  method WriteChanges(ghost sc: Schema, ghost base: Flat, ghost s: Snapshot, m: Mutation, blockNr: BlockNr,
                      changes: map<Cell, Bytes>)
    requires m.Valid() && m.db.Bolt? && Separate(sc) && forall c :: c in changes ==> InSchema(sc, c)
    requires m.Below() == base && InBlock(sc, base, s, blockNr, changes, {}, m.Contents(), m.suffixkeys)
    modifies m
    ensures m.Below() == base && InBlock(sc, base, s, blockNr, changes, changes.Keys, m.Contents(), m.suffixkeys)
  {
    hide *;
    var todo := changes.Keys;
    ghost var done: set<Cell> := {};
    while todo != {}
      invariant todo + done == changes.Keys && todo !! done
      invariant m.Below() == base
      invariant InBlock(sc, base, s, blockNr, changes, done, m.Contents(), m.suffixkeys)
      decreases todo
    {
      var c :| c in todo;
      WriteChange(sc, base, s, m, blockNr, changes, done, c);
      todo, done := todo - {c}, done + {c};
    }
    assert done == changes.Keys;
  }

  /** Executes one block as DbStateWriter does, in any order of its changes, and commits it. */
  method ExecuteBlock(ghost sc: Schema, ghost states: seq<Snapshot>, m: Mutation, blockNr: BlockNr,
                      changes: map<Cell, Bytes>)
    requires m.Valid() && Ready(sc, states, m) && blockNr == |states|
    requires |changes| < U32_LIMIT && forall c :: c in changes ==> InSchema(sc, c)
    modifies m, m.db.bolt
    ensures Ready(sc, states + [NextSnapshot(states[|states| - 1], changes)], m)
  {
    hide *;
    ReadyParts(sc, states, m);
    ghost var base := m.Below();
    RecordedHere(sc, base, states);
    ghost var s := states[|states| - 1];
    m.CleanView();
    BlockBegins(sc, base, s, blockNr, changes);
    WriteChanges(sc, base, s, m, blockNr, changes);
    ghost var m1, sk := m.Contents(), m.suffixkeys;
    BlockReady(sc, base, states, blockNr, changes, m1, sk);
    CommitTarget(m);
    m.Commit();
    BlockRecordedAfterCommit(sc, base, states, blockNr, changes, m1, sk, m.Contents());
    IsReady(sc, states + [NextSnapshot(s, changes)], m);
  }

  lemma CommitTarget(m: Mutation)
    requires m.db.Bolt?
    ensures ParentObject(m.db) == {m.db.bolt}
  {
  }

  lemma ReadyParts(sc: Schema, states: seq<Snapshot>, m: Mutation)
    requires m.Valid() && Ready(sc, states, m)
    ensures m.db.Bolt? && m.puts == map[] && m.suffixkeys == map[]
    ensures Recorded(sc, m.Below(), states) && IndexExact(sc, m.Below(), {})
  {
  }

  lemma IsReady(sc: Schema, states: seq<Snapshot>, m: Mutation)
    requires m.Valid() && m.db.Bolt? && m.puts == map[] && m.suffixkeys == map[]
    requires Recorded(sc, m.Below(), states) && IndexExact(sc, m.Below(), {})
    ensures Ready(sc, states, m)
  {
  }

  lemma CellInSchema(sc: Schema, c: Cell)
    requires Separate(sc) && InSchema(sc, c)
    ensures c.hb != []
  {
  }

  lemma OriginalValue(m: Flat, s: Snapshot, c: Cell, original: Option<Bytes>)
    requires c.hb != [] && original == Lookup(m, Item(c.hb[1..], c.key))
    requires Lookup(m, StateItem(c)) == Stored(ValueIn(s, c))
    ensures ValueIn(s, c) == if original.Some? then original.value else []
  {
  }

  lemma BlockReady(sc: Schema, base: Flat, states: seq<Snapshot>, t: BlockNr, changes: map<Cell, Bytes>, m: Flat,
                   sk: SuffixKeys)
    requires Recorded(sc, base, states) && IndexExact(sc, base, {}) && t == |states| && |changes| < U32_LIMIT
    requires InBlock(sc, base, states[|states| - 1], t, changes, changes.Keys, m, sk)
    ensures ReadableFor(m, sk) && RoomFor(m, sk)
  {
    hide Recorded, StateIs, EntriesAre, SameSuffix, CollectedFor, Readable, ReadableFor, RoomFor;
    assert |changes.Keys| == |changes|;
    RoomForBlock(sc, base, states, t, m, sk, |changes|);
    GoodIsReadable(sc, m);
    ReadableForAny(m, sk);
  }

  lemma BlockRecordedAfterCommit(sc: Schema, base: Flat, states: seq<Snapshot>, t: BlockNr, changes: map<Cell, Bytes>,
                                 m: Flat, sk: SuffixKeys, m': Flat)
    requires Recorded(sc, base, states) && t == |states|
    requires InBlock(sc, base, states[|states| - 1], t, changes, changes.Keys, m, sk)
    requires RoomFor(m, sk) && Indexed(m, sk, Pairs(sk), m')
    ensures Recorded(sc, m', states + [NextSnapshot(states[|states| - 1], changes)]) && IndexExact(sc, m', {})
  {
    assert forall i: Item :: i.bucket != SUFFIX ==> Lookup(m', i) == Lookup(m, i);
    hide Recorded, Indexed, StateIs, EntriesAre, SameSuffix, CollectedFor, RoomFor, GoodPending, IndexExact, PendingOf;
    BlockRecorded(sc, base, states, t, changes, m, sk, m');
    assert PendingOf(sk) + {} == PendingOf(sk);
    CommitKeepsIndex(sc, m, sk, {}, m');
  }

  // Runs

  datatype Step = Execute(changes: map<Cell, Bytes>) | Unwind(dst: BlockNr)

  /** The states that a run leaves behind: blocks push, unwinding pops; a step that cannot be taken is skipped. */
  function StatesAfter(states: seq<Snapshot>, steps: seq<Step>): seq<Snapshot>
    requires states != []
    decreases |steps|
  {
    if steps == [] then states else StatesAfter(After(states, steps[0]), steps[1..])
  }

  function After(states: seq<Snapshot>, step: Step): (r: seq<Snapshot>)
    requires states != []
    ensures r != []
  {
    match step
    case Execute(changes) =>
      if |states| < TIMESTAMP_LIMIT then states + [NextSnapshot(states[|states| - 1], changes)] else states
    case Unwind(dst) =>
      if dst < |states| && dst + 1 < TIMESTAMP_LIMIT then states[..dst + 1] else states
  }

  lemma {:induction false} StatesAppend(states: seq<Snapshot>, steps: seq<Step>, step: Step)
    requires states != []
    ensures StatesAfter(states, steps) != []
    ensures StatesAfter(states, steps + [step]) == After(StatesAfter(states, steps), step)
    decreases |steps|
  {
    if steps == [] {
      assert [step][1..] == [];
    } else {
      assert (steps + [step])[1..] == steps[1..] + [step];
      StatesAppend(After(states, steps[0]), steps[1..], step);
    }
  }

  /** Any run of blocks and unwinds leaves the database recording exactly the blocks that were not unwound. */
  method Run(ghost sc: Schema, ghost states: seq<Snapshot>, m: Mutation, blockNr: BlockNr, steps: seq<Step>)
    requires m.Valid() && Ready(sc, states, m) && blockNr == |states| - 1
    requires forall s :: s in steps && s.Execute? ==>
      |s.changes| < U32_LIMIT && forall c :: c in s.changes ==> InSchema(sc, c)
    modifies m, m.db.bolt
    ensures states != [] && Ready(sc, StatesAfter(states, steps), m)
  {
    hide Flatten, Recorded, IndexExact, Overlay, Overlays, NextSnapshot, Indexed, InSchema, StatesAfter, Readable;
    var current := blockNr;
    RecordedHere(sc, m.Below(), states);
    ghost var now := states;
    assert steps[..0] == [];
    NoSteps(states);
    var i := 0;
    while i < |steps|
      invariant 0 <= i <= |steps|
      invariant now != [] && now == StatesAfter(states, steps[..i]) && current == |now| - 1
      invariant Ready(sc, now, m)
    {
      assert steps[..i + 1] == steps[..i] + [steps[i]];
      assert steps[i] in steps;
      StatesAppend(states, steps[..i], steps[i]);
      RecordedHere(sc, m.Below(), now);
      match steps[i] {
        case Execute(changes) =>
          if current + 1 < TIMESTAMP_LIMIT {
            ExecuteBlock(sc, now, m, current + 1, changes);
            current := current + 1;
          }
        case Unwind(dst) =>
          if dst <= current && dst + 1 < TIMESTAMP_LIMIT {
            UnwindTo(sc, now, m, current, dst);
            OverlaysReadable(sc, m.Contents(), m.Below(), {});
            ReadableForAny(m.Contents(), m.suffixkeys);
            ghost var unwound := m.Contents();
            m.Commit();
            CommitUnwound(sc, unwound, m.Contents());
            current := dst;
          }
      }
      now := After(now, steps[i]);
      i := i + 1;
    }
    assert steps[..|steps|] == steps;
  }

  lemma NoSteps(states: seq<Snapshot>)
    requires states != []
    ensures StatesAfter(states, []) == states
  {
  }
}
