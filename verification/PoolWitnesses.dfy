/** Two runs of the pool that show what it does not promise: a refused transaction can cost others their place, and a
    reset that goes back can leave a gap among the pending nonces. */
module PoolWitnesses {
  import opened Numbers
  import opened Options
  import opened TxLists
  import opened PoolTables
  import opened Pricing
  import opened Fairness
  import opened PoolSteps
  import opened PoolOrder
  import opened QueueLimits
  import opened PoolChanges
  import opened PoolTraces
  import opened PoolFates
  import opened TxPools
  import Gas

  /** Transactions of the right size and signature; a plain transfer costs this much gas before it runs. */
  const TRANSFERS := Checks(_ => true, _ => true, _ => Gas.TX_GAS)
  const BLOCK_GAS: nat := 8_000_000

  // One step at a time

  /** A valid transaction with a slot of its own goes to the queue of a pool that is not full. */
  lemma QueuesFreely(c: Config, checks: Checks, s: Snap, e: Event, s': Snap)
    requires Step(c, checks, s, e, s') && e.Addition? && e.tx !in s.all && !Full(c, s.all)
    requires ValidateIn(checks, s, e.tx, e.local) == Accepted
    requires e.tx.nonce !in ListOf(s.pending, e.tx.from) && e.tx.nonce !in ListOf(s.queue, e.tx.from)
    ensures e.verdict == Accepted && e.room == s
    ensures s' == s.(all := s.all + {e.tx}, locals := s.locals + (if e.local then {e.tx.from} else {}),
                     queue := SetList(s.queue, e.tx.from, ListOf(s.queue, e.tx.from)[e.tx.nonce := e.tx]))
  {
    hide Inv, Full, SetList, ListOf;
    assert s.all - {} == s.all;
  }

  /** A pool within its limits keeps its lists as promotion leaves them. */
  lemma NothingCut(c: Config, s: Snap, accounts: set<Address>, now: int, mid: Snap, s': Snap)
    requires Advances(c, s, accounts, now, mid, s') && Within(c, |s.all|)
    ensures s'.pending == mid.pending && s'.queue == mid.queue
  {
    hide *;
    AdvanceParts(c, s, accounts, now, mid, s');
    LookupCounts(mid.pending, mid.queue, mid.all);
    SubsetSize(mid.all, s.all);
    WithinMeans(c, |s.all|);
    PendingUncut(c, s.locals, mid.pending, s'.pending);
    QueueUncut(c, s.locals, s'.beats, mid, s');
  }

  lemma WithinMeans(c: Config, n: nat)
    ensures Within(c, n) ==> n <= c.globalSlots && n <= c.globalQueue
  {
  }

  lemma AdvanceParts(c: Config, s: Snap, accounts: set<Address>, now: int, mid: Snap, s': Snap)
    requires Advances(c, s, accounts, now, mid, s')
    ensures mid.all <= s.all && mid.Valid() && s'.Valid() && Inv(mid.pending, mid.queue, mid.all, {})
    ensures Fair(mid.pending, s'.pending, s.locals, c.accountSlots, c.globalSlots)
    ensures QueueCut(mid.queue, s'.queue, s.locals, s'.beats, c.globalQueue)
  {
  }

  lemma PendingUncut(c: Config, locals: set<Address>, before: Lists, after: Lists)
    requires Fair(before, after, locals, c.accountSlots, c.globalSlots) && Total(before) <= c.globalSlots
    ensures after == before
  {
    hide Fair, Total;
    FairMeans(before, after, locals, c.accountSlots, c.globalSlots);
    forall a | a in before
      ensures after[a] == before[a]
    {
      FairCut(before, after, locals, c.accountSlots, c.globalSlots, a);
    }
  }

  lemma QueueUncut(c: Config, locals: set<Address>, beats: map<Address, int>, mid: Snap, s': Snap)
    requires mid.Valid() && QueueCut(mid.queue, s'.queue, locals, beats, c.globalQueue)
    requires Total(mid.queue) <= c.globalQueue
    ensures s'.queue == mid.queue
  {
    hide Total, CapTo, Inv;
    var before, after := mid.queue, s'.queue;
    forall a | a in before
      ensures a in after && after[a] == before[a]
    {
      NoEmptyList(mid, a);
      Uncut(before, after, a);
    }
    assert after.Keys == before.Keys;
  }

  lemma Uncut(before: Lists, after: Lists, a: Address)
    requires Prefixes(before, after) && (after == before || Total(after) >= Total(before)) && a in before
    requires before[a] != map[]
    ensures a in after && after[a] == before[a]
  {
    hide Total, Prefixes;
    if after != before && Lost(before, after, a) {
      LosesTotal(before, after, a);
      assert false;
    }
  }

  lemma NoEmptyList(s: Snap, a: Address)
    requires s.Valid() && a in s.queue
    ensures s.queue[a] != map[]
  {
  }

  /** A lone queued transaction that follows its account's pending ones joins them. */
  lemma PromotesNext(c: Config, s: Snap, now: int, mid: Snap, s': Snap, tx: Tx)
    requires s.Valid() && Advances(c, s, {tx.from}, now, mid, s') && Within(c, |s.all|)
    requires ListOf(s.queue, tx.from) == map[tx.nonce := tx] && !Useless(tx, s.state(tx.from), s.maxGas)
    requires NextNonce(s.state, s.managed, tx.from) == tx.nonce
    ensures ListOf(s'.pending, tx.from) == ListOf(s.pending, tx.from)[tx.nonce := tx]
    ensures ListOf(s'.queue, tx.from) == map[]
    ensures forall a: Address :: a != tx.from ==> ListOf(s'.queue, a) == ListOf(s.queue, a)
  {
    hide *;
    NothingCut(c, s, {tx.from}, now, mid, s');
    JustPromoted(c, s, {tx.from}, now, mid, s');
    RulesAre(c, s);
    var r := RulesIn(c, s);
    forall a: Address
      ensures a != tx.from ==> ListOf(mid.queue, a) == ListOf(s.queue, a)
    {
      PromotedAt(r, s.pending, s.queue, s.managed, mid.pending, mid.queue, mid.managed, {tx.from}, a);
      PromotionMeans(r, s.pending, s.queue, s.managed, mid.pending, mid.queue, mid.managed, a);
    }
    PromotedAt(r, s.pending, s.queue, s.managed, mid.pending, mid.queue, mid.managed, {tx.from}, tx.from);
    PromotionMeans(r, s.pending, s.queue, s.managed, mid.pending, mid.queue, mid.managed, tx.from);
    LoneRun(tx, s.state(tx.from), s.maxGas, c.accountQueue, tx.from in s.locals);
    MergeOne(ListOf(s.pending, tx.from), tx);
  }

  lemma JustPromoted(c: Config, s: Snap, accounts: set<Address>, now: int, mid: Snap, s': Snap)
    requires Advances(c, s, accounts, now, mid, s')
    ensures Promoted(RulesIn(c, s), s.pending, s.queue, s.managed, mid.pending, mid.queue, mid.managed, accounts)
  {
  }

  lemma MergeOne(list: Items, tx: Tx)
    ensures Merge(list, map[tx.nonce := tx]) == list[tx.nonce := tx]
  {
  }

  lemma LoneRun(tx: Tx, acct: Account, maxGas: nat, accountQueue: nat, local: bool)
    requires !Useless(tx, acct, maxGas)
    ensures var one := map[tx.nonce := tx];
      PromotionOf(one, acct, maxGas, tx.nonce, accountQueue, local) == Promotion(one, map[])
  {
    var one := map[tx.nonce := tx];
    assert From(one, acct.nonce) == one;
    assert Affordable(one, acct.balance, maxGas, false) == one;
    assert tx.nonce in Nonces(one);
    assert |one| == 1;
    assert Head(Nonces(one)) == tx.nonce by { assert forall n :: n in Nonces(one) ==> n == tx.nonce; }
    assert RunFrom(one, tx.nonce) == one;
    assert Minus(one, one) == map[];
  }

  // A refused replacement

  /** Room for two transactions, one pending and one queued. */
  const NARROW := Config(10, 1, 1, 1, 1)

  /** Three transactions for two places: the third is dearer than the first, but does not outbid the second, whose slot
      it wants. It is refused, and the first has gone to make room for it. */
  method RefusedReplacement(state: Address -> Account) returns (p: TxPool, cheap: Tx, verdicts: seq<Verdict>)
    requires forall a: Address :: state(a).nonce == 0 && state(a).balance >= 210_000
    ensures fresh(p) && p.Valid() && verdicts == [Accepted, Accepted, ReplaceUnderpriced]
    ensures cheap !in p.all && |p.all| <= 1
  {
    hide *;
    NarrowIsSane();
    p := new TxPool(NARROW, TRANSFERS, 1, {}, state, BLOCK_GAS);
    ghost var s0 := p.Snapshot();
    cheap := Tx(1, 0, 5, 21000, 0, 0);
    var dear, middling := Tx(2, 0, 10, 21000, 0, 0), Tx(2, 0, 6, 21000, 0, 0);
    ghost var log: Log;
    verdicts, log := p.AddTxs([cheap, dear, middling], false, 0);
    p.SnapshotIs();
    Crowded(state, s0, cheap, dear, middling, verdicts, log, p.Snapshot());
  }

  lemma NarrowIsSane()
    ensures NARROW.Sane()
  {
  }

  lemma Crowded(state: Address -> Account, s: Snap, cheap: Tx, dear: Tx, middling: Tx, verdicts: seq<Verdict>, log: Log,
                s': Snap)
    requires s == Snap({}, map[], map[], map[], map[], {}, 1, state, BLOCK_GAS)
    requires forall a: Address :: state(a).nonce == 0 && state(a).balance >= 210_000
    requires cheap == Tx(1, 0, 5, 21000, 0, 0) && dear == Tx(2, 0, 10, 21000, 0, 0)
    requires middling == Tx(2, 0, 6, 21000, 0, 0)
    requires Leads(NARROW, TRANSFERS, s, log, s') && AddEvents([cheap, dear, middling], false, 0, log.events)
    requires |verdicts| == 3 && Verdicts(verdicts, log.events)
    ensures verdicts == [Accepted, Accepted, ReplaceUnderpriced] && s'.all <= {dear} && |s'.all| <= 1
    ensures cheap !in s'.all
  {
    hide *;
    ThreeAdded(cheap, dear, middling, verdicts, log.events);
    ChainEnds(NARROW, TRANSFERS, s, log, s');
    StepAt(NARROW, TRANSFERS, log, 0);
    var s1, s2, s3 := log.snaps[1], log.snaps[2], log.snaps[3];
    CheapIn(s, cheap, log.events[0], s1);
    StepAt(NARROW, TRANSFERS, log, 1);
    DearIn(s1, cheap, dear, log.events[1], s2);
    StepAt(NARROW, TRANSFERS, log, 2);
    Welcome(s2, middling);
    Refused(s2, cheap, dear, middling, log.events[2], s3);
    if |log.events| == 4 {
      StepAt(NARROW, TRANSFERS, log, 3);
      AdvanceLoses(NARROW, TRANSFERS, s3, log.events[3], s');
    }
    SubsetSize(s'.all, {dear});
  }

  lemma AdvanceLoses(c: Config, checks: Checks, s: Snap, e: Event, s': Snap)
    requires Step(c, checks, s, e, s') && e.Advance?
    ensures s'.all <= s.all
  {
    hide Inv, Promoted, Fair, QueueCut;
  }

  lemma ThreeAdded(a: Tx, b: Tx, c: Tx, verdicts: seq<Verdict>, events: seq<Event>)
    requires AddEvents([a, b, c], false, 0, events) && |verdicts| == 3 && Verdicts(verdicts, events)
    ensures 3 <= |events| <= 4 && (|events| == 4 ==> events[3].Advance?)
    ensures events[0].Addition? && events[0].tx == a && !events[0].local && events[0].verdict == verdicts[0]
    ensures events[1].Addition? && events[1].tx == b && !events[1].local && events[1].verdict == verdicts[1]
    ensures events[2].Addition? && events[2].tx == c && !events[2].local && events[2].verdict == verdicts[2]
  {
    hide NewSenders;
    assert forall i :: 0 <= i < 3 ==> events[..3][i] == events[i];
  }

  lemma ChainEnds(c: Config, checks: Checks, s: Snap, log: Log, s': Snap)
    requires Leads(c, checks, s, log, s')
    ensures Chain(c, checks, log) && |log.snaps| == |log.events| + 1 && log.snaps[0] == s
    ensures log.snaps[|log.events|] == s'
  {
    hide Step;
  }

  /** A transfer that its account can pay for is accepted. */
  lemma Welcome(s: Snap, tx: Tx)
    requires tx.gas == 21000 && s.maxGas == BLOCK_GAS && s.gasPrice == 1 <= tx.price
    requires s.state(tx.from).nonce <= tx.nonce && tx.price * 21000 + tx.value <= s.state(tx.from).balance
    ensures ValidateIn(TRANSFERS, s, tx, false) == Accepted
  {
  }

  lemma CheapIn(s: Snap, cheap: Tx, e: Event, s': Snap)
    requires Step(NARROW, TRANSFERS, s, e, s') && e.Addition? && e.tx == cheap == Tx(1, 0, 5, 21000, 0, 0) && !e.local
    requires s == Snap({}, map[], map[], map[], map[], {}, 1, s.state, BLOCK_GAS)
    requires s.state(1).nonce == 0 && s.state(1).balance >= 210_000
    ensures e.verdict == Accepted && s' == s.(all := {cheap}, queue := map[1 := map[0 := cheap]])
  {
    hide Step;
    QueuesFreely(NARROW, TRANSFERS, s, e, s');
  }

  lemma DearIn(s: Snap, cheap: Tx, dear: Tx, e: Event, s': Snap)
    requires Step(NARROW, TRANSFERS, s, e, s') && e.Addition? && e.tx == dear == Tx(2, 0, 10, 21000, 0, 0) && !e.local
    requires cheap == Tx(1, 0, 5, 21000, 0, 0)
    requires s == Snap({cheap}, map[], map[1 := map[0 := cheap]], map[], map[], {}, 1, s.state, BLOCK_GAS)
    requires s.state(2).nonce == 0 && s.state(2).balance >= 210_000
    ensures e.verdict == Accepted && s'.all == {cheap, dear} && s'.pending == map[] && s'.locals == {}
    ensures s'.state == s.state && s'.gasPrice == 1 && s'.maxGas == BLOCK_GAS
  {
    hide Step;
    assert |s.all| == 1;
    QueuesFreely(NARROW, TRANSFERS, s, e, s');
  }

  lemma Refused(s: Snap, cheap: Tx, dear: Tx, middling: Tx, e: Event, s': Snap)
    requires Step(NARROW, TRANSFERS, s, e, s') && e.Addition? && e.tx == middling && !e.local
    requires cheap == Tx(1, 0, 5, 21000, 0, 0) && dear == Tx(2, 0, 10, 21000, 0, 0)
    requires middling == Tx(2, 0, 6, 21000, 0, 0)
    requires s.all == {cheap, dear} && s.pending == map[] && s.locals == {}
    requires ValidateIn(TRANSFERS, s, middling, false) == Accepted
    ensures e.verdict == ReplaceUnderpriced && s'.all == {dear}
  {
    hide Inv, MakesRoom, Inserts;
    assert |s.all| == 2;
    assert cheap in s.all && !CheaperThanAll(middling, s.all);
    OneGoes(s, cheap, dear, e.room);
    DearHolds(e.room, dear);
    hide Destination;
    NotOutbid(e.room, dear, middling, e, s');
  }

  lemma NotOutbid(s: Snap, dear: Tx, middling: Tx, e: Event, s': Snap)
    requires e.Addition? && Inserts(NARROW, s, middling, e.local, e.verdict, s')
    requires dear == Tx(2, 0, 10, 21000, 0, 0) && middling == Tx(2, 0, 6, 21000, 0, 0)
    requires Destination(s, middling) == map[0 := dear]
    ensures e.verdict == ReplaceUnderpriced && s' == s
  {
  }

  lemma OneGoes(s: Snap, cheap: Tx, dear: Tx, room: Snap)
    requires s.Valid() && MakesRoom(NARROW, s, room) && s.all == {cheap, dear} && s.locals == {}
    requires cheap.price < dear.price
    ensures room.Valid() && room.all == {dear}
  {
    hide Inv;
    var dropped := s.all - room.all;
    assert !IsLocal({}, cheap) && |s.all| == 2;
    assert dropped != {} && |dropped| <= 1;
    assert dear in dropped ==> cheap in dropped;
    assert dear in dropped ==> dropped == {cheap, dear};
  }

  lemma DearHolds(s: Snap, dear: Tx)
    requires s.Valid() && s.all == {dear}
    ensures Destination(s, dear) == map[dear.nonce := dear]
    ensures forall tx :: SlotMates(tx, dear) ==> Destination(s, tx) == map[dear.nonce := dear]
  {
    WhereHeld(s.pending, s.queue, s.all, dear);
    OnlyOne(s.pending, s.queue, s.all, dear);
    OwnedHere(s.pending, s.queue, s.all, dear.from);
    hide Inv;
    assert dear.nonce in Destination(s, dear) && Destination(s, dear)[dear.nonce] == dear;
  }

  lemma OnlyOne(pending: Lists, queue: Lists, all: set<Tx>, tx: Tx)
    requires Inv(pending, queue, all, {}) && all == {tx}
    ensures forall n :: n in ListOf(pending, tx.from) ==> n == tx.nonce
    ensures forall n :: n in ListOf(queue, tx.from) ==> n == tx.nonce
  {
    forall n | n in ListOf(pending, tx.from)
      ensures n == tx.nonce
    {
      assert Holds(pending, pending[tx.from][n]);
    }
    forall n | n in ListOf(queue, tx.from)
      ensures n == tx.nonce
    {
      assert Holds(queue, queue[tx.from][n]);
    }
  }

  // A gap after a reset

  /** The limits of DefaultTxPoolConfig. */
  const DEFAULTS := Config(10, 16, 4096, 64, 1024)

  const THIRD := Tx(1, 3, 1, 21000, 0, 0)
  const FIFTH := Tx(1, 5, 1, 21000, 0, 0)

  /** Nonce 5 is pending when the chain goes back to nonce 3, and only nonce 3 is reinjected: 3 and 5 are
      then pending and 4 is missing. */
  method GapAfterReset() returns (p: TxPool)
    ensures fresh(p) && p.Valid() && THIRD in p.all && FIFTH in p.all && !p.TightNow()
  {
    hide *;
    DefaultsAreSane();
    p := new TxPool(DEFAULTS, TRANSFERS, 1, {}, _ => Account(5, 21000), BLOCK_GAS);
    ghost var s0 := p.Snapshot();
    var _, log := p.AddTx(FIFTH, false, 0);
    p.SnapshotIs();
    p.ValidFolded();
    ghost var s1 := p.Snapshot();
    FifthPending(s0, log, s1);
    var back: Address -> Account := _ => Account(3, 21000);
    var log2 := p.Reset([THIRD], back, BLOCK_GAS, 0);
    p.SnapshotIs();
    p.ValidFolded();
    p.TablesAre();
    BookTight(p.state, p.Tables());
    GapLeft(s1, back, log2, p.Snapshot());
  }

  lemma DefaultsAreSane()
    ensures DEFAULTS.Sane()
  {
  }

  /** Of account 1 the fifth is pending, and nothing else is pooled. */
  ghost predicate OnlyFifth(s: Snap) {
    && s.Valid() && s.all == {FIFTH} && s.locals == {} && s.gasPrice == 1
    && ListOf(s.pending, 1) == map[5 := FIFTH] && s.queue == map[]
  }

  lemma FifthPending(s: Snap, log: Log, s': Snap)
    requires s.all == {} && s.pending == map[] && s.queue == map[] && s.managed == map[] && s.locals == {}
    requires s.gasPrice == 1
    requires s.maxGas == BLOCK_GAS && s.state(1) == Account(5, 21000)
    requires Leads(DEFAULTS, TRANSFERS, s, log, s') && AddEvents([FIFTH], false, 0, log.events) && s'.Valid()
    ensures OnlyFifth(s')
  {
    hide Chain, Inv, NewSenders, Advances;
    var e := log.events[0];
    StepAt(DEFAULTS, TRANSFERS, log, 0);
    var s1 := log.snaps[1];
    QueuesFreely(DEFAULTS, TRANSFERS, s, e, s1);
    assert log.events[..1] == [e];
    OneSender(e);
    StepAt(DEFAULTS, TRANSFERS, log, 1);
    assert s1.all == {FIFTH} && |s1.all| == 1;
    PromotesNext(DEFAULTS, s1, log.events[1].now, log.events[1].mid, s', FIFTH);
    assert ListOf(s'.pending, 1) == map[5 := FIFTH];
    AdvanceKeeps(DEFAULTS, s1, {1}, log.events[1].now, log.events[1].mid, s');
    AllHeld(s', {FIFTH});
  }

  lemma OneSender(e: Event)
    requires Fresh(e)
    ensures NewSenders([e]) == {e.tx.from}
  {
    hide Fresh;
    assert [e][0] == e;
  }

  lemma AdvanceKeeps(c: Config, s: Snap, accounts: set<Address>, now: int, mid: Snap, s': Snap)
    requires Advances(c, s, accounts, now, mid, s')
    ensures s'.all <= s.all && s'.locals == s.locals && s'.gasPrice == s.gasPrice && s'.state == s.state
    ensures s'.maxGas == s.maxGas
  {
    hide Inv, Promoted, Fair, QueueCut;
  }

  /** If every transaction of account 1 that may be pooled is pending, nothing is queued. */
  lemma AllHeld(s: Snap, txs: set<Tx>)
    requires s.Valid() && s.all <= txs && forall tx :: tx in txs ==> Holds(s.pending, tx)
    ensures s.queue == map[] && s.all == txs
  {
    forall a | a in s.queue
      ensures false
    {
      NoEmptyList(s, a);
      var n :| n in s.queue[a];
      var tx := s.queue[a][n];
      assert Holds(s.queue, tx);
      assert tx in s.all;
      PartsDisjoint(s.pending, s.queue, s.all, {}, tx);
    }
    assert s.queue.Keys == {};
  }

  lemma GapLeft(s: Snap, back: Address -> Account, log: Log, s': Snap)
    requires OnlyFifth(s) && Leads(DEFAULTS, TRANSFERS, s, log, s') && s'.Valid()
    requires back(1) == Account(3, 21000) && ResetLog([THIRD], back, BLOCK_GAS, 0, log)
    ensures THIRD in s'.all && FIFTH in s'.all && !Tight(s'.pending, s'.state, s'.managed)
  {
    hide *;
    ResetOfOne(THIRD, back, BLOCK_GAS, log);
    ChainEnds(DEFAULTS, TRANSFERS, s, log, s');
    StepAt(DEFAULTS, TRANSFERS, log, 0);
    StepAt(DEFAULTS, TRANSFERS, log, 1);
    ThirdReinjected(s, back, log.snaps[1], log.events[1], log.snaps[2]);
    ThirdJoins(log.snaps[2], log, s');
  }

  lemma ResetOfOne(tx: Tx, state: Address -> Account, maxGas: nat, log: Log)
    requires ResetLog([tx], state, maxGas, 0, log)
    ensures |log.events| >= 4 && log.events[0] == NewState(state, maxGas)
    ensures log.events[1].Addition? && log.events[1].tx == tx && !log.events[1].local
    ensures Fresh(log.events[1]) ==>
      && |log.events| == 5 && log.events[2].Advance? && log.events[2].accounts == {tx.from} && log.events[3].Demotion?
      && |log.snaps| == 6 && log.events[4].Advance? && log.events[4].accounts == log.snaps[4].queue.Keys
  {
    hide NewSenders, Fresh;
    var e := log.events[1];
    var added := log.events[1..|log.events| - 2];
    assert |added| >= 1 && added[0] == e;
    assert added[..1] == [e];
    assert AddsEach([tx], false, [e]);
    if Fresh(e) { OneSender(e); }
  }

  lemma ThirdReinjected(s: Snap, back: Address -> Account, s1: Snap, e: Event, s2: Snap)
    requires OnlyFifth(s) && back(1) == Account(3, 21000) && Step(DEFAULTS, TRANSFERS, s, NewState(back, BLOCK_GAS), s1)
    requires Step(DEFAULTS, TRANSFERS, s1, e, s2) && e.Addition? && e.tx == THIRD && !e.local
    ensures Fresh(e)
    ensures s2.all == {THIRD, FIFTH} && s2.managed == map[]
    ensures s2.state(1) == Account(3, 21000) && s2.maxGas == BLOCK_GAS
    ensures ListOf(s2.pending, 1) == map[5 := FIFTH] && s2.queue == map[1 := map[3 := THIRD]]
  {
    hide *;
    StateOnly(s, back, s1);
    FifthOnly(s);
    SomeRoom(s1.all);
    Welcome(s1, THIRD);
    FirstQueued(THIRD);
    QueuesFreely(DEFAULTS, TRANSFERS, s1, e, s2);
    FreshIs(e);
  }

  lemma FifthOnly(s: Snap)
    requires OnlyFifth(s)
    ensures s.all == {FIFTH} && s.locals == {} && s.gasPrice == 1 && THIRD !in s.all
    ensures s.all + {THIRD} == {THIRD, FIFTH}
    ensures ListOf(s.pending, 1) == map[5 := FIFTH] && s.queue == map[]
    ensures THIRD == Tx(1, 3, 1, 21000, 0, 0)
  {
    hide Inv, ListOf;
  }

  lemma SomeRoom(all: set<Tx>)
    requires all == {FIFTH}
    ensures !Full(DEFAULTS, all)
  {
    assert |all| == 1;
  }

  lemma FreshIs(e: Event)
    requires e.Addition? && e.verdict == Accepted
    requires e.tx.nonce !in ListOf(e.room.pending, e.tx.from) && e.tx.nonce !in ListOf(e.room.queue, e.tx.from)
    ensures Fresh(e)
  {
  }

  lemma StateOnly(s: Snap, back: Address -> Account, s1: Snap)
    requires Step(DEFAULTS, TRANSFERS, s, NewState(back, BLOCK_GAS), s1)
    ensures s1 == s.(state := back, maxGas := BLOCK_GAS, managed := map[])
  {
    hide Inv;
  }

  lemma FirstQueued(tx: Tx)
    ensures var none: Lists := map[];
      && tx.nonce !in ListOf(none, tx.from)
      && SetList(none, tx.from, ListOf(none, tx.from)[tx.nonce := tx]) == map[tx.from := map[tx.nonce := tx]]
  {
    var none: Lists, one := map[], map[tx.nonce := tx];
    assert tx.nonce in one;
    assert ListOf(none, tx.from)[tx.nonce := tx] == one;
    assert none[tx.from := one] == map[tx.from := one];
  }

  lemma ThirdJoins(s: Snap, log: Log, s': Snap)
    requires Chain(DEFAULTS, TRANSFERS, log) && |log.events| == 5 && |log.snaps| == 6 && log.snaps[2] == s
    requires log.snaps[5] == s'
    requires s.all == {THIRD, FIFTH} && s.managed == map[] && s.state(1) == Account(3, 21000) && s.maxGas == BLOCK_GAS
    requires ListOf(s.pending, 1) == map[5 := FIFTH] && s.queue == map[1 := map[3 := THIRD]]
    requires log.events[2].Advance? && log.events[2].accounts == {THIRD.from} && log.events[3].Demotion?
    requires log.events[4].Advance? && log.events[4].accounts == log.snaps[4].queue.Keys
    ensures THIRD in s'.all && FIFTH in s'.all && !Tight(s'.pending, s'.state, s'.managed)
  {
    hide *;
    StepAt(DEFAULTS, TRANSFERS, log, 2);
    ThirdPromoted(s, log.events[2], log.snaps[3]);
    StepAt(DEFAULTS, TRANSFERS, log, 3);
    BothStay(log.snaps[3], log.snaps[4]);
    StepAt(DEFAULTS, TRANSFERS, log, 4);
    StillBoth(log.snaps[4], log.events[4], s');
  }

  /** Of account 1 the third and the fifth are pending, and nothing else is pooled. */
  ghost predicate Both(s: Snap) {
    && s.Valid() && s.all == {THIRD, FIFTH} && s.state(1) == Account(3, 21000) && s.maxGas == BLOCK_GAS
    && ListOf(s.pending, 1) == map[3 := THIRD, 5 := FIFTH] && s.queue == map[]
  }

  lemma HoldBoth(s: Snap)
    requires s.Valid() && ListOf(s.pending, 1) == map[3 := THIRD, 5 := FIFTH]
    ensures Holds(s.pending, THIRD) && Holds(s.pending, FIFTH) && THIRD in s.all && FIFTH in s.all
  {
    assert 3 in ListOf(s.pending, 1);
  }

  lemma ThirdPromoted(s: Snap, e: Event, s': Snap)
    requires Step(DEFAULTS, TRANSFERS, s, e, s') && e.Advance? && e.accounts == {THIRD.from}
    requires s.all == {THIRD, FIFTH} && s.managed == map[] && s.state(1) == Account(3, 21000) && s.maxGas == BLOCK_GAS
    requires ListOf(s.pending, 1) == map[5 := FIFTH] && s.queue == map[1 := map[3 := THIRD]]
    ensures Both(s')
  {
    hide Inv, Advances, Holds;
    assert |s.all| == 2;
    PromotesNext(DEFAULTS, s, e.now, e.mid, s', THIRD);
    AdvanceKeeps(DEFAULTS, s, {1}, e.now, e.mid, s');
    assert ListOf(s'.pending, 1) == map[3 := THIRD, 5 := FIFTH];
    HoldBoth(s');
    AllHeld(s', {THIRD, FIFTH});
  }

  lemma BothStay(s: Snap, s': Snap)
    requires Both(s) && Step(DEFAULTS, TRANSFERS, s, Demotion, s')
    ensures Both(s')
  {
    hide Inv, StaysPending, Holds, Step;
    DemotionAt(s, s', 1);
    GapStays(THIRD, FIFTH, Account(3, 21000), BLOCK_GAS);
    HoldBoth(s');
    AllHeld(s', {THIRD, FIFTH});
  }

  lemma DemotionAt(s: Snap, s': Snap, a: Address)
    requires Step(DEFAULTS, TRANSFERS, s, Demotion, s')
    ensures ListOf(s'.pending, a) == StaysPending(ListOf(s.pending, a), s.state(a), s.maxGas)
    ensures s'.Valid() && s'.all <= s.all && s'.state == s.state && s'.maxGas == s.maxGas
  {
    hide Inv, StaysPending;
    assert StayedAt(s.pending, s'.pending, s.state, s.maxGas, a);
  }

  lemma StillBoth(s: Snap, e: Event, s': Snap)
    requires Both(s) && Step(DEFAULTS, TRANSFERS, s, e, s') && e.Advance? && e.accounts == s.queue.Keys
    ensures THIRD in s'.all && FIFTH in s'.all && !Tight(s'.pending, s'.state, s'.managed)
  {
    hide Inv, Advances, Holds, Tight;
    assert |s.all| == 2;
    assert s.queue.Keys == {};
    NothingPromoted(DEFAULTS, s, e.now, e.mid, s', 1);
    AdvanceKeeps(DEFAULTS, s, {}, e.now, e.mid, s');
    HoldBoth(s');
    GapStays(THIRD, FIFTH, Account(3, 21000), BLOCK_GAS);
    if Tight(s'.pending, s'.state, s'.managed) {
      TightAt(s'.pending, s'.state, s'.managed, 1);
    }
  }

  /** With no account to promote, a pool within its limits stays as it is. */
  lemma NothingPromoted(c: Config, s: Snap, now: int, mid: Snap, s': Snap, a: Address)
    requires Advances(c, s, {}, now, mid, s') && Within(c, |s.all|)
    ensures ListOf(s'.pending, a) == ListOf(s.pending, a)
  {
    hide *;
    NothingCut(c, s, {}, now, mid, s');
    JustPromoted(c, s, {}, now, mid, s');
    PromotedAt(RulesIn(c, s), s.pending, s.queue, s.managed, mid.pending, mid.queue, mid.managed, {}, a);
    PromotionMeans(RulesIn(c, s), s.pending, s.queue, s.managed, mid.pending, mid.queue, mid.managed, a);
  }
}
