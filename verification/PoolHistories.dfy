/** core/tx_pool.go over whole runs: who has a heartbeat and what it protects, and the price limit. */
module PoolHistories {
  import opened TxLists
  import opened PoolTables
  import opened Pricing
  import opened Fairness
  import opened PoolSteps
  import opened QueueLimits
  import opened PoolChanges
  import opened PoolRecords
  import opened PoolTraces
  import opened PoolFates

  /** Every pooled transaction is local or meets the price limit. */
  ghost predicate Priced(s: Snap) {
    forall tx :: tx in s.all ==> IsLocal(s.locals, tx) || s.gasPrice <= tx.price
  }

  /** Exactly the accounts with pending transactions have a heartbeat. */
  ghost predicate Matched(s: Snap) {
    s.beats.Keys == s.pending.Keys
  }

  /** Every pooled transaction is small enough, signed, and pays for what it costs before it runs. */
  ghost predicate Vetted(checks: Checks, s: Snap) {
    forall tx :: tx in s.all ==> checks.sized(tx) && checks.signed(tx) && checks.intrinsic(tx) <= tx.gas
  }

  ghost predicate Sound(checks: Checks, s: Snap) {
    Priced(s) && Vetted(checks, s) && Matched(s)
  }

  ghost predicate SoundThroughout(checks: Checks, log: Log) {
    forall i :: 0 <= i < |log.snaps| ==> Sound(checks, log.snaps[i])
  }

  /** A run that starts so stays so, at every step. */
  lemma StaysSound(c: Config, checks: Checks, s: Snap, log: Log, s': Snap)
    requires c.Sane() && Leads(c, checks, s, log, s')
    ensures Sound(checks, s) ==> SoundThroughout(checks, log) && Sound(checks, s')
  {
    hide Step, Sound;
    if Sound(checks, s) {
      forall i | 0 <= i < |log.snaps|
        ensures Sound(checks, log.snaps[i])
      {
        SoundAt(c, checks, log, i);
      }
    }
  }

  lemma {:induction false} SoundAt(c: Config, checks: Checks, log: Log, i: nat)
    requires c.Sane() && Chain(c, checks, log) && i < |log.snaps| == |log.events| + 1 && Sound(checks, log.snaps[0])
    ensures Sound(checks, log.snaps[i])
    decreases i
  {
    hide Chain, Step, Sound;
    if i > 0 {
      SoundAt(c, checks, log, i - 1);
      StepAt(c, checks, log, i - 1);
      StepSound(c, checks, log.snaps[i - 1], log.events[i - 1], log.snaps[i]);
    }
  }

  lemma StepSound(c: Config, checks: Checks, s: Snap, e: Event, s': Snap)
    requires c.Sane() && Step(c, checks, s, e, s') && Sound(checks, s)
    ensures Sound(checks, s')
  {
    hide Step, Priced, Matched, Vetted;
    StepPriced(c, checks, s, e, s');
    StepVetted(c, checks, s, e, s');
    StepMatched(c, checks, s, e, s');
  }

  // Validation

  /** validateTx lets through exactly the transactions that meet all its conditions. */
  lemma AcceptedIff(checks: Checks, s: Snap, tx: Tx, local: bool)
    ensures ValidateIn(checks, s, tx, local) == Accepted <==>
      && checks.sized(tx) && checks.signed(tx) && checks.intrinsic(tx) <= tx.gas <= s.maxGas
      && (local || IsLocal(s.locals, tx) || s.gasPrice <= tx.price)
      && s.state(tx.from).nonce <= tx.nonce && tx.gas * tx.price + tx.value <= s.state(tx.from).balance
  {
  }

  lemma StepVetted(c: Config, checks: Checks, s: Snap, e: Event, s': Snap)
    requires Step(c, checks, s, e, s') && Vetted(checks, s)
    ensures Vetted(checks, s')
  {
    hide *;
    if e.Addition? && e.verdict == Accepted {
      AcceptedParts(c, checks, s, e, s');
      RoomParts(c, s, e.room);
      NewcomerOnly(c, e.room, e.tx, e.local, s');
      VettedMore(checks, s, s', e.tx);
    } else {
      NothingComes(c, checks, s, e, s');
      VettedFewer(checks, s, s');
    }
  }

  lemma NewcomerOnly(c: Config, s: Snap, tx: Tx, local: bool, s': Snap)
    requires Inserts(c, s, tx, local, Accepted, s')
    ensures s'.all <= s.all + {tx}
  {
    hide SetList, AddTo, ListOf;
  }

  lemma VettedMore(checks: Checks, s: Snap, s': Snap, tx: Tx)
    requires Vetted(checks, s) && s'.all <= s.all + {tx}
    requires checks.sized(tx) && checks.signed(tx) && checks.intrinsic(tx) <= tx.gas
    ensures Vetted(checks, s')
  {
  }

  lemma VettedFewer(checks: Checks, s: Snap, s': Snap)
    requires Vetted(checks, s) && s'.all <= s.all
    ensures Vetted(checks, s')
  {
  }

  // The price limit

  /** A newcomer meets the limit or makes its account local, or outbids one that does; a new limit removes the rest. */
  lemma StepPriced(c: Config, checks: Checks, s: Snap, e: Event, s': Snap)
    requires Step(c, checks, s, e, s') && Priced(s)
    ensures Priced(s')
  {
    hide *;
    if e.Repricing? {
      RepricedIs(c, checks, s, e, s');
    } else if e.Addition? && e.verdict == Accepted {
      NewcomerPriced(c, checks, s, e, s');
    } else {
      NothingComes(c, checks, s, e, s');
      MoreLocals(c, checks, s, e, s');
      SamePrice(c, checks, s, e, s');
      FewerPriced(s, s');
    }
  }

  lemma RepricedIs(c: Config, checks: Checks, s: Snap, e: Event, s': Snap)
    requires Step(c, checks, s, e, s') && e.Repricing?
    ensures Priced(s')
  {
    hide Inv, RemovedIn;
  }

  lemma SamePrice(c: Config, checks: Checks, s: Snap, e: Event, s': Snap)
    requires Step(c, checks, s, e, s') && !e.Repricing?
    ensures s'.gasPrice == s.gasPrice
  {
    hide Inv, Full, Unwelcome, AddTo, SetList, ListOf, Promoted, Fair, QueueCut, RemovedIn, RecordsAdvance;
  }

  lemma FewerPriced(s: Snap, s': Snap)
    requires Priced(s) && s'.all <= s.all && s.locals <= s'.locals && s'.gasPrice == s.gasPrice
    ensures Priced(s')
  {
  }

  lemma NewcomerPriced(c: Config, checks: Checks, s: Snap, e: Event, s': Snap)
    requires Step(c, checks, s, e, s') && e.Addition? && e.verdict == Accepted && Priced(s)
    ensures Priced(s')
  {
    hide *;
    AcceptedParts(c, checks, s, e, s');
    RoomParts(c, s, e.room);
    FewerPriced(s, e.room);
    InsertPriced(c, checks, e.room, e.tx, e.local, s');
  }

  lemma AcceptedParts(c: Config, checks: Checks, s: Snap, e: Event, s': Snap)
    requires Step(c, checks, s, e, s') && e.Addition? && e.verdict == Accepted
    ensures MakesRoom(c, s, e.room) && Inserts(c, e.room, e.tx, e.local, Accepted, s')
    ensures e.room.Valid()
    ensures checks.sized(e.tx) && checks.signed(e.tx) && checks.intrinsic(e.tx) <= e.tx.gas
    ensures e.local || e.tx.from in e.room.locals || e.room.gasPrice <= e.tx.price
  {
    hide Inv, Full, Unwelcome, Inserts, RemovedIn, CheapestGone, Excess;
  }

  lemma RoomParts(c: Config, s: Snap, room: Snap)
    requires MakesRoom(c, s, room)
    ensures room.all <= s.all && room.locals == s.locals && room.gasPrice == s.gasPrice && room.state == s.state
    ensures room == s || RemovedIn(s, s.all - room.all, room)
  {
    hide Inv, Full, RemovedIn, CheapestGone, Excess;
  }

  lemma InsertPriced(c: Config, checks: Checks, s: Snap, tx: Tx, local: bool, s': Snap)
    requires s.Valid() && Inserts(c, s, tx, local, Accepted, s') && Priced(s)
    requires local || tx.from in s.locals || s.gasPrice <= tx.price
    ensures Priced(s')
  {
    var pending := ListOf(s.pending, tx.from);
    if tx.nonce in pending {
      var holder := pending[tx.nonce];
      assert Holds(s.pending, holder);
      assert Outbids(tx, holder, c.priceBump);
    }
    hide SetList, Outbids, AddTo;
    forall t | t in s'.all
      ensures IsLocal(s'.locals, t) || s'.gasPrice <= t.price
    {
      assert t == tx || t in s.all;
    }
  }

  // Heartbeats

  /** The accounts that promote something in a step. */
  ghost function Risen(c: Config, s: Snap, e: Event): set<Address> {
    if e.Advance? then Runners(RulesIn(c, s), s.queue, s.managed, e.accounts) else {}
  }

  /** What a step does to the heartbeats: who promotes something is heard of now, and who has nothing
      pending any more is forgotten. */
  ghost predicate BeatsStep(c: Config, s: Snap, e: Event, s': Snap) {
    && Risen(c, s, e) <= s'.pending.Keys <= s.pending.Keys + Risen(c, s, e)
    && s'.beats.Keys == s.beats.Keys + Risen(c, s, e) - (s.pending.Keys - s'.pending.Keys)
    && (forall a :: a in s'.beats && a in Risen(c, s, e) ==> e.Advance? && s'.beats[a] == e.now)
    && (forall a :: a in s'.beats && a !in Risen(c, s, e) ==> a in s.beats && s'.beats[a] == s.beats[a])
  }

  lemma StepBeats(c: Config, checks: Checks, s: Snap, e: Event, s': Snap)
    requires c.Sane() && Step(c, checks, s, e, s')
    ensures BeatsStep(c, s, e, s')
  {
    hide *;
    NoneRisen(c, s, e);
    if e.Addition? {
      AdditionRecords(c, checks, s, e, s');
      if e.room != s {
        RemovedRecords(s, s.all - e.room.all, e.room);
      }
      FollowedBeats(c, s, e, s');
    } else if e.Advance? {
      AdvanceRecords(c, checks, s, e, s');
    } else if e.NewState? {
      NewStateRecords(c, checks, s, e, s');
      FollowedBeats(c, s, e, s');
    } else if e.Demotion? {
      DemotionRecords(c, checks, s, e, s');
      FollowedBeats(c, s, e, s');
    } else if e.Repricing? {
      RepricingRecords(c, checks, s, e, s');
      RemovedRecords(s, s.all - s'.all, s');
      FollowedBeats(c, s, e, s');
    } else {
      EvictionRecords(c, checks, s, e, s');
      FollowedBeats(c, s, e, s');
    }
  }

  lemma NoneRisen(c: Config, s: Snap, e: Event)
    ensures !e.Advance? ==> Risen(c, s, e) == {}
  {
  }

  lemma FollowedBeats(c: Config, s: Snap, e: Event, s': Snap)
    requires Risen(c, s, e) == {} && s'.pending.Keys <= s.pending.Keys
    requires s'.beats == s.beats - (s.pending.Keys - s'.pending.Keys)
    ensures BeatsStep(c, s, e, s')
  {
  }

  lemma RemovedRecords(s: Snap, gone: set<Tx>, s': Snap)
    requires RemovedIn(s, gone, s')
    ensures s'.pending.Keys <= s.pending.Keys && s'.beats == s.beats - (s.pending.Keys - s'.pending.Keys)
  {
    hide Fallen, Kept;
  }

  lemma AdditionRecords(c: Config, checks: Checks, s: Snap, e: Event, s': Snap)
    requires Step(c, checks, s, e, s') && e.Addition?
    ensures e.room == s || RemovedIn(s, s.all - e.room.all, e.room)
    ensures s'.pending.Keys == e.room.pending.Keys && s'.beats == e.room.beats
    ensures s.beats - (s.pending.Keys - s.pending.Keys) == s.beats
  {
    hide *;
    assert s.pending.Keys - s.pending.Keys == {};
    AddsSplit(c, checks, s, e, s');
    if e.room != s || s' != s {
      RoomParts(c, s, e.room);
      InsertRecords(c, e.room, e.tx, e.local, e.verdict, s');
    }
  }

  lemma AddsSplit(c: Config, checks: Checks, s: Snap, e: Event, s': Snap)
    requires Step(c, checks, s, e, s') && e.Addition?
    ensures (e.room == s && s' == s) || (MakesRoom(c, s, e.room) && Inserts(c, e.room, e.tx, e.local, e.verdict, s'))
  {
    hide Inv, Unwelcome, MakesRoom, Inserts, ValidateIn;
  }

  lemma InsertRecords(c: Config, s: Snap, tx: Tx, local: bool, verdict: Verdict, s': Snap)
    requires Inserts(c, s, tx, local, verdict, s')
    ensures s'.pending.Keys == s.pending.Keys && s'.beats == s.beats
  {
    if tx.nonce in ListOf(s.pending, tx.from) {
      var r := AddTo(Destination(s, tx), tx, c.priceBump);
      assert r.inserted ==> tx.nonce in r.items;
      assert tx.from in s.pending;
      assert (s.pending[tx.from := r.items]).Keys == s.pending.Keys;
    }
  }

  lemma AdvanceRecords(c: Config, checks: Checks, s: Snap, e: Event, s': Snap)
    requires c.Sane() && Step(c, checks, s, e, s') && e.Advance?
    ensures BeatsStep(c, s, e, s')
  {
    hide *;
    AdvanceMeans(c, checks, s, e, s');
    FairMeans(e.mid.pending, s'.pending, s.locals, c.accountSlots, c.globalSlots);
    PromotedKeys(RulesIn(c, s), s.pending, s.queue, s.managed, e.mid.pending, e.mid.queue, e.mid.managed, e.accounts);
    HeardBeats(c, s, e, s');
  }

  lemma AdvanceMeans(c: Config, checks: Checks, s: Snap, e: Event, s': Snap)
    requires Step(c, checks, s, e, s') && e.Advance?
    ensures WellFormed(s.pending) && WellFormed(e.mid.pending)
    ensures Fair(e.mid.pending, s'.pending, s.locals, c.accountSlots, c.globalSlots)
    ensures
      Promoted(RulesIn(c, s), s.pending, s.queue, s.managed, e.mid.pending, e.mid.queue, e.mid.managed, e.accounts)
    ensures Heard(s.beats, e.mid.beats, Runners(RulesIn(c, s), s.queue, s.managed, e.accounts), e.now)
    ensures s'.beats == e.mid.beats
  {
    hide Promoted, Fair, QueueCut, Heard, Runners, Fallen, Moved, RulesIn, WellFormed;
  }

  lemma PromotedKeys(r: Rules, p0: Lists, q0: Lists, m0: map<Address, nat>, p: Lists, q: Lists, m: map<Address, nat>,
                     accounts: set<Address>)
    requires WellFormed(p0) && WellFormed(p) && Promoted(r, p0, q0, m0, p, q, m, accounts)
    ensures p.Keys == p0.Keys + Runners(r, q0, m0, accounts)
  {
    hide Promoted;
    forall a: Address
      ensures a in p <==> a in p0 || (a in accounts && PromotionAt(r, q0, m0, a).run != map[])
    {
      PromotedAt(r, p0, q0, m0, p, q, m, accounts, a);
      hide PromotionAt;
      if a in accounts {
        MergeEmpty(ListOf(p0, a), PromotionAt(r, q0, m0, a).run);
      }
    }
  }

  lemma MergeEmpty(items: Items, more: Items)
    ensures Merge(items, more) == map[] <==> items == map[] && more == map[]
  {
    if k: nat :| k in items {
      assert k in Merge(items, more);
    } else if k: nat :| k in more {
      assert k in Merge(items, more);
    }
  }

  lemma HeardBeats(c: Config, s: Snap, e: Event, s': Snap)
    requires e.Advance? && s'.pending.Keys == s.pending.Keys + Runners(RulesIn(c, s), s.queue, s.managed, e.accounts)
    requires Heard(s.beats, s'.beats, Runners(RulesIn(c, s), s.queue, s.managed, e.accounts), e.now)
    ensures BeatsStep(c, s, e, s')
  {
    hide Runners, RulesIn;
    assert s.pending.Keys - s'.pending.Keys == {};
  }

  lemma NewStateRecords(c: Config, checks: Checks, s: Snap, e: Event, s': Snap)
    requires Step(c, checks, s, e, s') && e.NewState?
    ensures s'.pending.Keys <= s.pending.Keys && s'.beats == s.beats - (s.pending.Keys - s'.pending.Keys)
  {
    hide Inv;
    assert s.pending.Keys - s'.pending.Keys == {};
  }

  lemma DemotionRecords(c: Config, checks: Checks, s: Snap, e: Event, s': Snap)
    requires Step(c, checks, s, e, s') && e.Demotion?
    ensures s'.pending.Keys <= s.pending.Keys && s'.beats == s.beats - (s.pending.Keys - s'.pending.Keys)
  {
    hide UselessIn, NextNonces;
    forall a: Address | a in s'.pending
      ensures a in s.pending
    {
      assert StayedAt(s.pending, s'.pending, s.state, s.maxGas, a);
      hide StaysPending;
      NothingStays(s.state(a), s.maxGas);
      assert s'.pending[a] != map[];
    }
  }

  lemma NothingStays(acct: Account, maxGas: nat)
    ensures StaysPending(map[], acct, maxGas) == map[]
  {
  }

  lemma RepricingRecords(c: Config, checks: Checks, s: Snap, e: Event, s': Snap)
    requires Step(c, checks, s, e, s') && e.Repricing?
    ensures RemovedIn(s, s.all - s'.all, s')
  {
    hide Inv, RemovedIn;
  }

  lemma EvictionRecords(c: Config, checks: Checks, s: Snap, e: Event, s': Snap)
    requires Step(c, checks, s, e, s') && e.Eviction?
    ensures s'.pending.Keys <= s.pending.Keys && s'.beats == s.beats - (s.pending.Keys - s'.pending.Keys)
    ensures s'.queue == Evicted(s.queue, s.locals, s.beats, e.now, e.lifetime, {})
  {
    hide Inv, Evicted;
    assert s.pending.Keys - s'.pending.Keys == {};
  }

  lemma StepMatched(c: Config, checks: Checks, s: Snap, e: Event, s': Snap)
    requires c.Sane() && Step(c, checks, s, e, s') && Matched(s)
    ensures Matched(s')
  {
    hide Step, Risen;
    StepBeats(c, checks, s, e, s');
  }

  /** The account has pending transactions and was heard of at the given time or later. */
  ghost predicate HeardSince(s: Snap, a: Address, time: int) {
    a in s.pending && a in s.beats && s.beats[a] >= time
  }

  /** Promotions of the account are not earlier than a time. */
  ghost predicate NotEarlier(c: Config, log: Log, a: Address, time: int, i: nat, j: nat) {
    j <= |log.events| <= |log.snaps| && forall k :: i <= k < j && a in Risen(c, log.snaps[k], log.events[k]) ==>
      log.events[k].Advance? && log.events[k].now >= time
  }

  /** An account that promoted something loses nothing to an eviction within the lifetime, if it has had pending
      transactions since and the clock has not gone back. */
  lemma HeartbeatProtects(c: Config, checks: Checks, log: Log, a: Address, i: nat, j: nat)
    requires c.Sane() && Chain(c, checks, log) && i < j < |log.events| && log.events[i].Advance?
    requires a in Risen(c, log.snaps[i], log.events[i]) && NotEarlier(c, log, a, log.events[i].now, i, j)
    requires forall k :: i < k <= j ==> a in log.snaps[k].pending
    requires log.events[j].Eviction? && log.events[j].now <= log.events[i].now + log.events[j].lifetime
    ensures ListOf(log.snaps[j + 1].queue, a) == ListOf(log.snaps[j].queue, a)
    ensures forall tx :: tx in log.snaps[j].all && tx.from == a ==> tx in log.snaps[j + 1].all
  {
    hide Chain, Step, Risen;
    StepAt(c, checks, log, i);
    StepBeats(c, checks, log.snaps[i], log.events[i], log.snaps[i + 1]);
    assert HeardSince(log.snaps[i + 1], a, log.events[i].now);
    StillHeard(c, checks, log, a, log.events[i].now, i + 1, j);
    StepAt(c, checks, log, j);
    NotExpired(c, checks, log.snaps[j], log.events[j], log.snaps[j + 1], a);
  }

  lemma {:induction false} StillHeard(c: Config, checks: Checks, log: Log, a: Address, time: int, i: nat, j: nat)
    requires c.Sane() && Chain(c, checks, log) && i <= j <= |log.events| && HeardSince(log.snaps[i], a, time)
    requires NotEarlier(c, log, a, time, i, j) && forall k :: i <= k <= j ==> a in log.snaps[k].pending
    ensures HeardSince(log.snaps[j], a, time)
    decreases j - i
  {
    hide Chain, Step, Risen;
    if i < j {
      StillHeard(c, checks, log, a, time, i, j - 1);
      StepAt(c, checks, log, j - 1);
      StepBeats(c, checks, log.snaps[j - 1], log.events[j - 1], log.snaps[j]);
    }
  }

  lemma NotExpired(c: Config, checks: Checks, s: Snap, e: Event, s': Snap, a: Address)
    requires Step(c, checks, s, e, s') && e.Eviction? && a in s.beats && e.now <= s.beats[a] + e.lifetime
    ensures ListOf(s'.queue, a) == ListOf(s.queue, a)
    ensures forall tx :: tx in s.all && tx.from == a ==> tx in s'.all
  {
    assert a in s.queue ==> a in s'.queue && s'.queue[a] == s.queue[a];
    hide Evicted;
    forall tx | tx in s.all && tx.from == a
      ensures tx in s'.all
    {
      assert Holds(s.pending, tx) || Holds(s.queue, tx);
      assert Holds(s'.pending, tx) || Holds(s'.queue, tx);
    }
  }

  /** A remote account with nothing pending loses its queue to every eviction later than the lifetime, however lately
      its transactions came, since only promotion sets a heartbeat. */
  lemma QueuedOnlyEvicted(c: Config, checks: Checks, s: Snap, e: Event, s': Snap, a: Address)
    requires Step(c, checks, s, e, s') && Matched(s) && e.Eviction? && a !in s.locals && a !in s.pending
    requires e.now > e.lifetime
    ensures a !in s'.queue && forall tx :: tx in s'.all ==> tx.from != a
  {
    assert a !in s'.queue;
    hide Evicted;
    forall tx | tx in s'.all
      ensures tx.from != a
    {
      assert Holds(s'.pending, tx) || Holds(s'.queue, tx);
    }
  }
}
