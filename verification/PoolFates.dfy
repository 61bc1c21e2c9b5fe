/** Why a transaction leaves the pool: every departure has one of eight causes, and a local one only two of them. */
module PoolFates {
  import opened Numbers
  import opened Options
  import opened TxLists
  import opened PoolTables
  import opened Pricing
  import opened Fairness
  import opened PoolSteps
  import opened PoolOrder
  import opened QueueLimits
  import opened PoolChanges
  import opened PoolTraces

  // The causes

  /** A newcomer with the same account and nonce paid enough more. */
  ghost predicate Outbid(c: Config, e: Event, tx: Tx) {
    e.Addition? && e.verdict == Accepted && SlotMates(e.tx, tx) && Outbids(e.tx, tx, c.priceBump)
  }

  /** The pool was full, and of the remote transactions that stayed none was cheaper. */
  ghost predicate Discarded(c: Config, s: Snap, e: Event, tx: Tx) {
    && e.Addition? && Full(c, s.all) && !IsLocal(s.locals, tx)
    && forall t :: t in e.room.all && !IsLocal(s.locals, t) ==> tx.price <= t.price
  }

  /** Its nonce is spent, or its account cannot pay for it. */
  ghost predicate Spent(s: Snap, e: Event, tx: Tx) {
    (e.Advance? || e.Demotion?) && Useless(tx, s.state(tx.from), s.maxGas)
  }

  /** Its account, not local, had more queued than an account may, and keeps as much as it may of lower nonces. */
  ghost predicate OverAccountQueue(c: Config, s: Snap, e: Event, tx: Tx) {
    && e.Advance? && tx.from in e.accounts && !IsLocal(s.locals, tx)
    && Holds(s.queue, tx) && |s.queue[tx.from]| > c.accountQueue
    && |ListOf(e.mid.queue, tx.from)| == c.accountQueue
    && forall n :: n in ListOf(e.mid.queue, tx.from) ==> n < tx.nonce
  }

  /** More was pending than the pool may hold, and its account, not local, keeps its
      guaranteed slots and as much as any. */
  ghost predicate OverSlots(c: Config, s: Snap, e: Event, s': Snap, tx: Tx) {
    && e.Advance? && !IsLocal(s.locals, tx) && Holds(e.mid.pending, tx) && Total(e.mid.pending) > c.globalSlots
    && var kept := ListOf(s'.pending, tx.from);
      && c.accountSlots <= |kept| && (forall n :: n in kept ==> n < tx.nonce)
      && forall b :: b in s'.pending && b !in s.locals ==> |s'.pending[b]| <= |kept|
  }

  /** More was queued than the pool may hold, and no other remote account heard of later than its own keeps anything. */
  ghost predicate OverQueue(c: Config, s: Snap, e: Event, s': Snap, tx: Tx) {
    && e.Advance? && !IsLocal(s.locals, tx) && Holds(e.mid.queue, tx)
    && Total(e.mid.queue) > c.globalQueue && Total(s'.queue) >= c.globalQueue
    && (forall n :: n in ListOf(s'.queue, tx.from) ==> n < tx.nonce)
    && forall b :: b in s'.queue && b !in s.locals && b != tx.from ==> BeatOf(s'.beats, b) <= BeatOf(s'.beats, tx.from)
  }

  ghost predicate BelowPrice(s: Snap, e: Event, tx: Tx) {
    e.Repricing? && !IsLocal(s.locals, tx) && tx.price < e.price
  }

  ghost predicate Lapsed(s: Snap, e: Event, tx: Tx) {
    e.Eviction? && Holds(s.queue, tx) && Expired(s.locals, s.beats, tx.from, e.now, e.lifetime)
  }

  ghost predicate OverLimits(c: Config, s: Snap, e: Event, s': Snap, tx: Tx) {
    OverAccountQueue(c, s, e, tx) || OverSlots(c, s, e, s', tx) || OverQueue(c, s, e, s', tx)
  }

  ghost predicate Departs(c: Config, s: Snap, e: Event, s': Snap, tx: Tx) {
    || Outbid(c, e, tx) || Spent(s, e, tx)
    || Discarded(c, s, e, tx) || OverLimits(c, s, e, s', tx) || BelowPrice(s, e, tx) || Lapsed(s, e, tx)
  }

  // Every departure has a cause

  lemma Fate(c: Config, checks: Checks, s: Snap, e: Event, s': Snap, tx: Tx)
    requires Step(c, checks, s, e, s') && tx in s.all && tx !in s'.all
    ensures Departs(c, s, e, s', tx)
  {
    hide Inv, Adds, Advances, Outbid, Discarded, OverLimits, Evicted;
    match e {
      case Addition(ntx, local, verdict, room) => AdditionFate(c, checks, s, e, s', tx);
      case Advance(_, _, _) => AdvanceFate(c, s, e, s', tx);
      case NewState(_, _) => assert false;
      case Demotion => DemotionFate(s, s', tx);
      case Repricing(price) =>
      case Eviction(now, lifetime) => EvictionFate(s, now, lifetime, s', tx);
    }
  }

  lemma AdditionFate(c: Config, checks: Checks, s: Snap, e: Event, s': Snap, tx: Tx)
    requires e.Addition? && s.Valid() && Adds(c, checks, s, e.tx, e.local, e.verdict, e.room, s') && tx in s.all
    requires tx !in s'.all
    ensures Outbid(c, e, tx) || Discarded(c, s, e, tx)
  {
    hide Inv, Full, Outbids, AddTo, SetList;
    if tx in e.room.all {
      OnlyOutbid(c, e.room, e.tx, e.local, e.verdict, s', tx);
    }
  }

  lemma OnlyOutbid(c: Config, s: Snap, ntx: Tx, local: bool, verdict: Verdict, s': Snap, tx: Tx)
    requires s.Valid() && Inserts(c, s, ntx, local, verdict, s') && tx in s.all && tx !in s'.all
    ensures verdict == Accepted && SlotMates(ntx, tx) && Outbids(ntx, tx, c.priceBump)
  {
    OwnedHere(s.pending, s.queue, s.all, ntx.from);
    hide Inv, Outbids, SetList, ListOf;
  }

  lemma DemotionFate(s: Snap, s': Snap, tx: Tx)
    requires Demotes(s, s') && tx in s.all && tx !in s'.all
    ensures Useless(tx, s.state(tx.from), s.maxGas)
  {
    hide Inv, StayedAt;
    assert UselessIn(s.pending, tx, s.state, s.maxGas);
  }

  lemma EvictionFate(s: Snap, now: int, lifetime: nat, s': Snap, tx: Tx)
    requires s.Valid() && Evicts(s, now, lifetime, s') && tx in s.all && tx !in s'.all
    ensures Holds(s.queue, tx) && Expired(s.locals, s.beats, tx.from, now, lifetime)
  {
    hide Expired, WellFormed, Apart, InFlight;
    assert !Holds(s'.pending, tx) && !Holds(s'.queue, tx);
  }

  // Promotion and truncation

  lemma AdvanceFate(c: Config, s: Snap, e: Event, s': Snap, tx: Tx)
    requires e.Advance? && s.Valid() && Advances(c, s, e.accounts, e.now, e.mid, s') && tx in s.all && tx !in s'.all
    ensures Spent(s, e, tx) || OverLimits(c, s, e, s', tx)
  {
    hide Promoted, Fair, QueueCut, OverAccountQueue, OverSlots, OverQueue, SameSetting;
    NotHeld(s'.pending, s'.queue, s'.all, tx);
    if tx !in e.mid.all {
      NotHeld(e.mid.pending, e.mid.queue, e.mid.all, tx);
      PromotionFate(c, s, e, tx);
    } else if Holds(e.mid.pending, tx) {
      SlotsFate(c, s, e, s', tx);
    } else {
      QueueFate(c, s, e, s', tx);
    }
  }

  lemma NotHeld(pending: Lists, queue: Lists, all: set<Tx>, tx: Tx)
    requires Inv(pending, queue, all, {})
    ensures tx in all <==> Holds(pending, tx) || Holds(queue, tx)
  {
  }

  /** What promotion itself drops is useless, or beyond the account's queue limit. */
  lemma PromotionFate(c: Config, s: Snap, e: Event, tx: Tx)
    requires e.Advance? && s.Valid() && tx in s.all && !Holds(e.mid.pending, tx) && !Holds(e.mid.queue, tx)
    requires Promoted(RulesIn(c, s), s.pending, s.queue, s.managed, e.mid.pending, e.mid.queue, e.mid.managed,
                      e.accounts)
    ensures Spent(s, e, tx) || OverAccountQueue(c, s, e, tx)
  {
    hide *;
    var a := tx.from;
    PromotedAt(RulesIn(c, s), s.pending, s.queue, s.managed, e.mid.pending, e.mid.queue, e.mid.managed, e.accounts, a);
    HeldAsList(s, tx);
    HeldInLists(e.mid, tx);
    RulesAre(c, s);
    PromotionMeans(RulesIn(c, s), s.pending, s.queue, s.managed, e.mid.pending, e.mid.queue, e.mid.managed, a);
    if tx.nonce in ListOf(s.pending, a) && ListOf(s.pending, a)[tx.nonce] == tx {
      PendingKept(s, tx, PromotionAt(RulesIn(c, s), s.queue, s.managed, a).run);
    }
    if Useless(tx, s.state(a), s.maxGas) {
      SpentIs(s, e, tx);
    } else {
      RunMerged(ListOf(s.pending, a), PromotionAt(RulesIn(c, s), s.queue, s.managed, a).run, tx.nonce);
      RestFate(ListOf(s.queue, a), s.state(a), s.maxGas, NextNonce(s.state, s.managed, a), c.accountQueue,
               a in s.locals, tx);
      OverAccountQueueIs(c, s, e, tx);
    }
  }

  lemma RulesAre(c: Config, s: Snap)
    ensures RulesIn(c, s) == Rules(s.state, s.maxGas, c.accountQueue, s.locals)
  {
  }

  lemma HeldAsList(s: Snap, tx: Tx)
    requires s.Valid() && tx in s.all
    ensures OwnedBy(ListOf(s.pending, tx.from), tx.from) && OwnedBy(ListOf(s.queue, tx.from), tx.from)
    ensures || (tx.nonce in ListOf(s.pending, tx.from) && ListOf(s.pending, tx.from)[tx.nonce] == tx)
            || (Holds(s.queue, tx) && tx.nonce in ListOf(s.queue, tx.from) && ListOf(s.queue, tx.from)[tx.nonce] == tx)
  {
  }

  lemma HeldInLists(s: Snap, tx: Tx)
    ensures Holds(s.pending, tx) <==>
      tx.nonce in ListOf(s.pending, tx.from) && ListOf(s.pending, tx.from)[tx.nonce] == tx
    ensures Holds(s.queue, tx) <==> tx.nonce in ListOf(s.queue, tx.from) && ListOf(s.queue, tx.from)[tx.nonce] == tx
  {
  }

  lemma PromotionMeans(r: Rules, p0: Lists, q0: Lists, m0: map<Address, nat>, p: Lists, q: Lists, m: map<Address, nat>,
                       a: Address)
    ensures AccountPromoted(r, p0, q0, m0, p, q, a) ==>
      var pr := PromotionOf(ListOf(q0, a), r.state(a), r.maxGas, NextNonce(r.state, m0, a), r.accountQueue,
                            a in r.locals);
      && PromotionAt(r, q0, m0, a) == pr && ListOf(q, a) == pr.rest && ListOf(p, a) == Merge(ListOf(p0, a), pr.run)
      && SubItems(pr.run, ListOf(q0, a))
    ensures AccountAsIs(r, p0, q0, m0, p, q, m, a) ==> ListOf(q, a) == ListOf(q0, a) && ListOf(p, a) == ListOf(p0, a)
  {
    hide ListOf, NextNonce, Merge, ReadyItems, CapTo;
    var able := Affordable(From(ListOf(q0, a), r.state(a).nonce), r.state(a).balance, r.maxGas, false);
    Parts(ListOf(q0, a), r.state(a).nonce, r.state(a).balance, r.maxGas);
    hide Affordable, From;
    RunIsPart(able, NextNonce(r.state, m0, a));
  }

  /** Promotion adds to a pending list and takes nothing from it. */
  lemma PendingKept(s: Snap, tx: Tx, run: Items)
    requires s.Valid() && tx.nonce in ListOf(s.pending, tx.from) && ListOf(s.pending, tx.from)[tx.nonce] == tx
    ensures SubItems(run, ListOf(s.queue, tx.from)) ==>
      tx.nonce in Merge(ListOf(s.pending, tx.from), run) && Merge(ListOf(s.pending, tx.from), run)[tx.nonce] == tx
  {
    if SubItems(run, ListOf(s.queue, tx.from)) && tx.nonce in run {
      SlotsApart(s.pending, s.queue, s.all, tx.from, tx.nonce);
    }
  }

  lemma RunMerged(list: Items, run: Items, n: nat)
    ensures n in run ==> n in Merge(list, run) && Merge(list, run)[n] == run[n]
  {
  }

  lemma SpentIs(s: Snap, e: Event, tx: Tx)
    requires e.Advance? && Useless(tx, s.state(tx.from), s.maxGas)
    ensures Spent(s, e, tx)
  {
  }

  lemma OverAccountQueueIs(c: Config, s: Snap, e: Event, tx: Tx)
    requires e.Advance? && tx.from in e.accounts && tx.from !in s.locals && Holds(s.queue, tx)
    requires |ListOf(s.queue, tx.from)| > c.accountQueue && |ListOf(e.mid.queue, tx.from)| == c.accountQueue
    requires forall n :: n in ListOf(e.mid.queue, tx.from) ==> n < tx.nonce
    ensures OverAccountQueue(c, s, e, tx)
  {
  }

  /** A queued transaction that could run and is neither promoted nor kept was beyond the account's limit. */
  lemma RestFate(list: Items, acct: Account, maxGas: nat, next: nat, accountQueue: nat, local: bool, tx: Tx)
    requires tx.nonce in list && list[tx.nonce] == tx && !Useless(tx, acct, maxGas)
    requires var pr := PromotionOf(list, acct, maxGas, next, accountQueue, local);
      (tx.nonce in pr.run ==> pr.run[tx.nonce] != tx) && (tx.nonce in pr.rest ==> pr.rest[tx.nonce] != tx)
    ensures var rest := PromotionOf(list, acct, maxGas, next, accountQueue, local).rest;
      !local && |list| > accountQueue && |rest| == accountQueue && forall n :: n in rest ==> n < tx.nonce
  {
    var able := Affordable(From(list, acct.nonce), acct.balance, maxGas, false);
    assert tx.nonce in able && able[tx.nonce] == tx && SubItems(able, list);
    hide Affordable, From;
    var run := ReadyItems(able, next);
    RunIsPart(able, next);
    hide ReadyItems;
    var stay := Minus(able, run);
    assert tx.nonce in stay && stay[tx.nonce] == tx && SubItems(stay, list);
    hide Minus;
    CapToIsLowest(stay, accountQueue);
    hide CapTo;
    FewerItems(stay, list);
  }

  lemma FewerItems(part: Items, whole: Items)
    requires SubItems(part, whole)
    ensures |part| <= |whole|
  {
    assert part.Keys <= whole.Keys;
    SubsetSize(part.Keys, whole.Keys);
  }

  lemma SlotsFate(c: Config, s: Snap, e: Event, s': Snap, tx: Tx)
    requires e.Advance? && Fair(e.mid.pending, s'.pending, s.locals, c.accountSlots, c.globalSlots)
    requires Holds(e.mid.pending, tx) && !Holds(s'.pending, tx)
    ensures OverSlots(c, s, e, s', tx)
  {
    hide Fair, Total;
    var before, after, a := e.mid.pending, s'.pending, tx.from;
    FairMeans(before, after, s.locals, c.accountSlots, c.globalSlots);
    FairCut(before, after, s.locals, c.accountSlots, c.globalSlots, a);
    assert after[a] != before[a];
  }

  /** Truncation cuts only a total over the limit, and from the highest nonce down. */
  lemma FairCut(before: Lists, after: Lists, locals: set<Address>, accountSlots: nat, globalSlots: nat, a: Address)
    requires Fair(before, after, locals, accountSlots, globalSlots) && a in before
    ensures a in after && (after[a] != before[a] ==> a !in locals && Total(before) > globalSlots)
    ensures forall k, d :: k in after[a] && d in before[a] && d !in after[a] ==> k < d
    ensures SubItems(after[a], before[a])
  {
    hide Total, CapTo;
    var n: nat :| IsFairLevel(before, after, locals, accountSlots, globalSlots, n);
    CapToIsLowest(before[a], n);
    CutTotal(before, locals, n + 1);
  }

  lemma CutTotal(ls: Lists, locals: set<Address>, n: nat)
    ensures Total(CutAt(ls, locals, n)) <= Total(ls)
  {
    forall a | a in ls
      ensures |CutAt(ls, locals, n)[a]| <= |ls[a]|
    {
      CutLength(ls, locals, n, a);
    }
    SumAtMost(Lengths(ls), Lengths(CutAt(ls, locals, n)));
  }

  lemma QueueFate(c: Config, s: Snap, e: Event, s': Snap, tx: Tx)
    requires e.Advance? && e.mid.Valid() && QueueCut(e.mid.queue, s'.queue, s.locals, s'.beats, c.globalQueue)
    requires Holds(e.mid.queue, tx) && !Holds(s'.queue, tx)
    ensures OverQueue(c, s, e, s', tx)
  {
    var before, after, a := e.mid.queue, s'.queue, tx.from;
    assert Lost(before, after, a);
    QueuePrefix(before, after, a);
    LosesTotal(before, after, a);
    hide Total, CapTo, Prefixes;
  }

  lemma QueuePrefix(before: Lists, after: Lists, a: Address)
    requires Prefixes(before, after) && a in before
    ensures forall k, d :: k in ListOf(after, a) && d in before[a] && d !in ListOf(after, a) ==> k < d
    ensures SubItems(ListOf(after, a), before[a])
  {
    if a in after {
      CapToIsLowest(before[a], |after[a]|);
      hide CapTo;
    }
  }

  lemma LosesTotal(before: Lists, after: Lists, a: Address)
    requires Prefixes(before, after) && Lost(before, after, a) && before[a] != map[]
    ensures Total(after) < Total(before)
  {
    hide CapTo;
    if a in after { Shorter(before[a], after[a]); }
    SumBelow(Lengths(before), Lengths(after), a);
  }

  lemma Shorter(items: Items, part: Items)
    requires |part| <= |items| && part == CapTo(items, |part|)
    ensures part == items || |part| < |items|
  {
    CapNothing(items, |part|);
  }

  // Over whole logs

  ghost predicate DepartsAt(c: Config, log: Log, j: nat, tx: Tx) {
    && j < |log.events| && |log.snaps| == |log.events| + 1
    && tx in log.snaps[j].all && tx !in log.snaps[j + 1].all
    && Departs(c, log.snaps[j], log.events[j], log.snaps[j + 1], tx)
  }

  lemma StepAt(c: Config, checks: Checks, log: Log, i: nat)
    requires Chain(c, checks, log) && i < |log.events|
    ensures |log.snaps| == |log.events| + 1 && Step(c, checks, log.snaps[i], log.events[i], log.snaps[i + 1])
  {
    hide Step;
  }

  /** A transaction that was in the pool at some step and is not at the end left at a later
      step, for one of the causes. */
  lemma {:induction false} LeftSomewhere(c: Config, checks: Checks, log: Log, i: nat, tx: Tx) returns (j: nat)
    requires Chain(c, checks, log) && i < |log.snaps| == |log.events| + 1
    requires tx in log.snaps[i].all && tx !in log.snaps[|log.events|].all
    ensures i <= j && DepartsAt(c, log, j, tx)
    decreases |log.snaps| - i
  {
    hide Chain, Step, Departs;
    StepAt(c, checks, log, i);
    if tx in log.snaps[i + 1].all {
      j := LeftSomewhere(c, checks, log, i + 1, tx);
    } else {
      Fate(c, checks, log.snaps[i], log.events[i], log.snaps[i + 1], tx);
      j := i;
    }
  }

  ghost predicate EntersAt(log: Log, i: nat, tx: Tx) {
    i < |log.events| && log.events[i].Addition? && log.events[i].tx == tx && log.events[i].verdict == Accepted
  }

  /** Whatever was in the pool or came into it is still there, or left for one of the
      causes; and nothing else is there. */
  ghost predicate Accounted(c: Config, log: Log, before: set<Tx>, after: set<Tx>) {
    && (forall tx :: tx in before && tx !in after ==> exists j :: DepartsAt(c, log, j, tx))
    && (forall i, tx :: EntersAt(log, i, tx) && tx !in after ==> exists j :: i <= j && DepartsAt(c, log, j, tx))
    && (forall tx :: tx in after && tx !in before ==> exists i :: EntersAt(log, i, tx))
  }

  lemma AllAccounted(c: Config, checks: Checks, s: Snap, log: Log, s': Snap)
    requires Leads(c, checks, s, log, s')
    ensures Accounted(c, log, s.all, s'.all)
  {
    hide Step, DepartsAt;
    forall tx | tx in s.all && tx !in s'.all
      ensures exists j :: DepartsAt(c, log, j, tx)
    {
      var j := LeftSomewhere(c, checks, log, 0, tx);
    }
    forall i: nat, tx | EntersAt(log, i, tx) && tx !in s'.all
      ensures exists j :: i <= j && DepartsAt(c, log, j, tx)
    {
      StepAt(c, checks, log, i);
      EntersMeans(c, checks, log.snaps[i], log.events[i], log.snaps[i + 1]);
      var j := LeftSomewhere(c, checks, log, i + 1, tx);
    }
    forall tx | tx in s'.all && tx !in s.all
      ensures exists i :: EntersAt(log, i, tx)
    {
      var i := CameSomewhere(c, checks, log, |log.events|, tx);
    }
  }

  lemma EntersMeans(c: Config, checks: Checks, s: Snap, e: Event, s': Snap)
    requires Step(c, checks, s, e, s') && e.Addition? && e.verdict == Accepted
    ensures e.tx in s'.all
  {
    hide Inv, MakesRoom, Unwelcome, AddTo, SetList, ListOf;
  }

  lemma {:induction false} CameSomewhere(c: Config, checks: Checks, log: Log, k: nat, tx: Tx) returns (i: nat)
    requires Chain(c, checks, log) && k <= |log.events| == |log.snaps| - 1
    requires tx !in log.snaps[0].all && tx in log.snaps[k].all
    ensures EntersAt(log, i, tx)
    decreases k
  {
    hide Chain, Step;
    StepAt(c, checks, log, k - 1);
    if tx in log.snaps[k - 1].all {
      i := CameSomewhere(c, checks, log, k - 1, tx);
    } else {
      Comes(c, checks, log.snaps[k - 1], log.events[k - 1], log.snaps[k], tx);
      i := k - 1;
    }
  }

  lemma Comes(c: Config, checks: Checks, s: Snap, e: Event, s': Snap, tx: Tx)
    requires Step(c, checks, s, e, s') && tx !in s.all && tx in s'.all
    ensures e.Addition? && e.tx == tx && e.verdict == Accepted
  {
    hide Inv, Full, Unwelcome, AddTo, SetList, ListOf, Promoted, Fair, QueueCut;
  }

  // Local accounts

  ghost predicate LocalDepartsAt(c: Config, log: Log, j: nat, tx: Tx) {
    && j < |log.events| && |log.snaps| == |log.events| + 1
    && (Outbid(c, log.events[j], tx) || Spent(log.snaps[j], log.events[j], tx))
  }

  /** A local account's transaction leaves only by being outbid or because it cannot run in the state of that
      moment; price and limits spare it. */
  lemma LocalStays(c: Config, checks: Checks, log: Log, i: nat, tx: Tx)
    requires Chain(c, checks, log) && i < |log.snaps| && tx in log.snaps[i].all && IsLocal(log.snaps[i].locals, tx)
    ensures tx in log.snaps[|log.events|].all || exists j :: i <= j && LocalDepartsAt(c, log, j, tx)
  {
    if tx !in log.snaps[|log.events|].all {
      var j := LeftSomewhere(c, checks, log, i, tx);
      LocalsGrow(c, checks, log, i, j);
      hide Chain, Outbid, Spent;
      NotForLocals(c, log.snaps[j], log.events[j], log.snaps[j + 1], tx);
      assert LocalDepartsAt(c, log, j, tx);
    }
  }

  ghost predicate LocalsSpared(c: Config, log: Log) {
    forall i, tx :: 0 <= i < |log.snaps| && tx in log.snaps[i].all && IsLocal(log.snaps[i].locals, tx) ==>
      tx in log.snaps[|log.snaps| - 1].all || exists j :: i <= j && LocalDepartsAt(c, log, j, tx)
  }

  lemma AllLocalsSpared(c: Config, checks: Checks, s: Snap, log: Log, s': Snap)
    requires Leads(c, checks, s, log, s')
    ensures LocalsSpared(c, log)
  {
    hide Step, LocalDepartsAt;
    forall i, tx | 0 <= i < |log.snaps| && tx in log.snaps[i].all && IsLocal(log.snaps[i].locals, tx)
      ensures tx in log.snaps[|log.snaps| - 1].all || exists j :: i <= j && LocalDepartsAt(c, log, j, tx)
    {
      LocalStays(c, checks, log, i, tx);
    }
  }

  lemma NotForLocals(c: Config, s: Snap, e: Event, s': Snap, tx: Tx)
    requires Departs(c, s, e, s', tx) && IsLocal(s.locals, tx)
    ensures Outbid(c, e, tx) || Spent(s, e, tx)
  {
  }

  lemma {:induction false} LocalsGrow(c: Config, checks: Checks, log: Log, i: nat, j: nat)
    requires Chain(c, checks, log) && i <= j < |log.snaps|
    ensures log.snaps[i].locals <= log.snaps[j].locals
    decreases j
  {
    hide Step;
    if i < j {
      LocalsGrow(c, checks, log, i, j - 1);
      StepAt(c, checks, log, j - 1);
      MoreLocals(c, checks, log.snaps[j - 1], log.events[j - 1], log.snaps[j]);
    }
  }

  lemma MoreLocals(c: Config, checks: Checks, s: Snap, e: Event, s': Snap)
    requires Step(c, checks, s, e, s')
    ensures s.locals <= s'.locals
  {
    hide Inv, Full, Unwelcome, AddTo, SetList, ListOf, Promoted, Fair, QueueCut;
  }

  // The size of the pool

  ghost function Remote(s: Snap): set<Tx> {
    set t | t in s.all && !IsLocal(s.locals, t)
  }

  /** The pool is within its capacity, or all its transactions but at most one are local. */
  ghost predicate Bounded(c: Config, s: Snap) {
    |s.all| <= c.globalSlots + c.globalQueue || |Remote(s)| <= 1
  }

  /** In a bounded pool Discard gives up exactly as many transactions as it is asked to, or all remote ones: it is asked
      for two or more only when at most one is remote, so copies in the heap do not matter. */
  lemma DiscardsEnough(c: Config, s: Snap, room: Snap)
    requires c.Sane() && Bounded(c, s) && Full(c, s.all) && MakesRoom(c, s, room)
    ensures Excess(c, s.all) >= 1 && |s.all - room.all| == Min(Excess(c, s.all), |Remote(s)|)
    ensures |room.all| < c.globalSlots + c.globalQueue || Remote(room) == {}
  {
    hide Inv;
    var dropped := s.all - room.all;
    SubsetSize(dropped, Remote(s));
    assert dropped == {} <==> Remote(s) == {} by {
      assert forall t :: t in Remote(s) <==> t in s.all && !IsLocal(s.locals, t);
    }
    assert |dropped| == 0 <==> dropped == {};
    assert |Remote(s)| == 0 <==> Remote(s) == {};
    assert s.all == room.all + dropped && room.all !! dropped;
    if |s.all| > c.globalSlots + c.globalQueue {
      SameOfOne(dropped, Remote(s));
    }
  }

  lemma SameOfOne(part: set<Tx>, whole: set<Tx>)
    requires part <= whole && |whole| <= 1 && (part == {} ==> whole == {})
    ensures part == whole
  {
    if part != {} {
      assert |whole - part| == |whole| - |part|;
      assert |part| >= 1;
      assert whole - part == {};
    }
  }

  /** Every step keeps the bound. */
  lemma StepBounded(c: Config, checks: Checks, s: Snap, e: Event, s': Snap)
    requires c.Sane() && Step(c, checks, s, e, s') && Bounded(c, s)
    ensures Bounded(c, s')
  {
    hide *;
    if e.Addition? && e.verdict == Accepted {
      AdditionBounded(c, checks, s, e, s');
    } else {
      NothingComes(c, checks, s, e, s');
      MoreLocals(c, checks, s, e, s');
      FewerBounded(c, s, s');
    }
  }

  lemma AddsBounded(c: Config, checks: Checks, s: Snap, tx: Tx, local: bool, verdict: Verdict, room: Snap, s': Snap)
    requires c.Sane() && s.Valid() && s'.Valid() && Adds(c, checks, s, tx, local, verdict, room, s')
    ensures Bounded(c, s) ==> Bounded(c, s')
  {
    hide Adds, Bounded;
    if Bounded(c, s) {
      StepBounded(c, checks, s, Addition(tx, local, verdict, room), s');
    }
  }

  lemma NothingComes(c: Config, checks: Checks, s: Snap, e: Event, s': Snap)
    requires Step(c, checks, s, e, s') && !(e.Addition? && e.verdict == Accepted)
    ensures s'.all <= s.all
  {
    hide Step;
    forall tx | tx in s'.all
      ensures tx in s.all
    {
      if tx !in s.all { Comes(c, checks, s, e, s', tx); }
    }
  }

  lemma FewerBounded(c: Config, s: Snap, s': Snap)
    requires Bounded(c, s) && s'.all <= s.all && s.locals <= s'.locals
    ensures Bounded(c, s')
  {
    SubsetSize(s'.all, s.all);
    SubsetSize(Remote(s'), Remote(s));
  }

  lemma AdditionBounded(c: Config, checks: Checks, s: Snap, e: Event, s': Snap)
    requires c.Sane() && Step(c, checks, s, e, s') && e.Addition? && e.verdict == Accepted && Bounded(c, s)
    ensures Bounded(c, s')
  {
    hide *;
    AdditionParts(c, checks, s, e, s');
    if Full(c, s.all) {
      DiscardsEnough(c, s, e.room);
    } else {
      NotFullMeans(c, s, e.room);
    }
    InsertKeeps(c, e.room, e.tx, e.local, s');
    InsertedBounded(c, e.room, e.tx, s');
  }

  lemma AdditionParts(c: Config, checks: Checks, s: Snap, e: Event, s': Snap)
    requires Step(c, checks, s, e, s') && e.Addition? && e.verdict == Accepted
    ensures MakesRoom(c, s, e.room) && Inserts(c, e.room, e.tx, e.local, Accepted, s') && e.room.locals <= s'.locals
  {
    hide Inv, MakesRoom, Unwelcome, AddTo, Destination, SetList;
  }

  lemma NotFullMeans(c: Config, s: Snap, room: Snap)
    requires MakesRoom(c, s, room) && !Full(c, s.all)
    ensures |room.all| < c.globalSlots + c.globalQueue
  {
  }

  lemma InsertedBounded(c: Config, room: Snap, tx: Tx, s': Snap)
    requires s'.all <= room.all + {tx} && room.locals <= s'.locals
    requires |room.all| < c.globalSlots + c.globalQueue || Remote(room) == {}
    ensures Bounded(c, s')
  {
    SubsetSize(s'.all, room.all + {tx});
    if Remote(room) == {} {
      forall t | t in Remote(s')
        ensures t in {tx}
      {
        assert t in room.all ==> t in Remote(room);
      }
      SubsetSize(Remote(s'), {tx});
    }
  }

  ghost predicate BoundedThroughout(c: Config, log: Log) {
    forall i :: 0 <= i < |log.snaps| ==> Bounded(c, log.snaps[i])
  }

  lemma {:induction false} BoundedAt(c: Config, checks: Checks, log: Log, i: nat)
    requires c.Sane() && Chain(c, checks, log) && i < |log.snaps| == |log.events| + 1 && Bounded(c, log.snaps[0])
    ensures Bounded(c, log.snaps[i])
    decreases i
  {
    hide Chain, Step, Bounded;
    if i > 0 {
      BoundedAt(c, checks, log, i - 1);
      StepAt(c, checks, log, i - 1);
      StepBounded(c, checks, log.snaps[i - 1], log.events[i - 1], log.snaps[i]);
    }
  }

  /** A run from a bounded pool, such as an empty one, is bounded at every step. */
  lemma StaysBounded(c: Config, checks: Checks, s: Snap, log: Log, s': Snap)
    requires c.Sane() && Leads(c, checks, s, log, s')
    ensures Bounded(c, s) ==> BoundedThroughout(c, log) && Bounded(c, s')
  {
    hide Step, Bounded;
    if Bounded(c, s) {
      forall i | 0 <= i < |log.snaps|
        ensures Bounded(c, log.snaps[i])
      {
        BoundedAt(c, checks, log, i);
      }
    }
  }

  // Pools within their limits

  /** The lookup is as large as the lists together. */
  lemma LookupCounts(pending: Lists, queue: Lists, all: set<Tx>)
    requires Inv(pending, queue, all, {})
    ensures |all| == Total(pending) + Total(queue)
  {
    TxsCount(pending);
    TxsCount(queue);
    hide *;
    var p, q := TxsOf(pending), TxsOf(queue);
    forall tx: Tx
      ensures tx in all <==> tx in p || tx in q
      ensures !(tx in p && tx in q)
    {
      HeldOnce(pending, queue, all, tx);
    }
    UnionSize(all, p, q);
  }

  lemma UnionSize(all: set<Tx>, p: set<Tx>, q: set<Tx>)
    requires forall tx: Tx :: (tx in all <==> tx in p || tx in q) && !(tx in p && tx in q)
    ensures |all| == |p| + |q|
  {
    assert all == p + q && p !! q;
  }

  lemma HeldOnce(pending: Lists, queue: Lists, all: set<Tx>, tx: Tx)
    requires Inv(pending, queue, all, {})
    ensures tx in all <==> tx in TxsOf(pending) || tx in TxsOf(queue)
    ensures !(tx in TxsOf(pending) && tx in TxsOf(queue))
  {
    TxOf(pending, tx);
    TxOf(queue, tx);
    PartsDisjoint(pending, queue, all, {}, tx);
    hide TxsOf, Holds;
  }

  ghost function TxsOf(ls: Lists): set<Tx> {
    set a, n | a in ls && n in ls[a] :: ls[a][n]
  }

  lemma TxOf(ls: Lists, tx: Tx)
    requires WellFormed(ls)
    ensures tx in TxsOf(ls) <==> Holds(ls, tx)
  {
    if Holds(ls, tx) { assert ls[tx.from][tx.nonce] == tx; }
  }

  lemma {:induction false} TxsCount(ls: Lists)
    requires WellFormed(ls)
    ensures |TxsOf(ls)| == Total(ls)
    decreases |ls|
  {
    if |ls| == 0 {
      assert TxsOf(ls) == {} && Lengths(ls) == map[];
    } else {
      var a :| a in ls;
      Fewer(ls, a);
      TxsCount(ls - {a});
      TotalSplit(ls, a);
      ValuesCount(ls[a], a);
      TxsSplit(ls, a);
    }
  }

  lemma TxsSplit(ls: Lists, a: Address)
    requires WellFormed(ls) && a in ls
    ensures TxsOf(ls) == Values(ls[a]) + TxsOf(ls - {a}) && Values(ls[a]) !! TxsOf(ls - {a})
  {
    forall tx: Tx
      ensures tx in TxsOf(ls) <==> tx in Values(ls[a]) || tx in TxsOf(ls - {a})
      ensures !(tx in Values(ls[a]) && tx in TxsOf(ls - {a}))
    {
      TxOf(ls, tx);
      TxOf(ls - {a}, tx);
      ValueOf(ls[a], a, tx);
    }
  }

  lemma {:induction false} ValuesCount(items: Items, a: Address)
    requires OwnedBy(items, a)
    ensures |Values(items)| == |items|
    decreases |items|
  {
    if |items| == 0 {
      assert Values(items) == {};
    } else {
      var n :| n in items;
      Fewer(items, n);
      ValuesCount(items - {n}, a);
      forall tx: Tx
        ensures tx in Values(items - {n}) <==> tx in Values(items) && tx != items[n]
      {
        ValueOf(items, a, tx);
        ValueOf(items - {n}, a, tx);
      }
      assert Values(items) == Values(items - {n}) + {items[n]};
    }
  }

  /** So few transactions that no limit of the pool can be exceeded. */
  ghost predicate Within(c: Config, n: nat) {
    n <= c.accountQueue && n <= c.globalSlots && n <= c.globalQueue
  }

  /** A pool within its limits gives up nothing for price or room: what leaves was outbid, useless, below a new price
      limit or left alone for too long. */
  lemma WithinLimits(c: Config, checks: Checks, s: Snap, e: Event, s': Snap, tx: Tx)
    requires c.Sane() && Within(c, |s.all|) && Step(c, checks, s, e, s') && Departs(c, s, e, s', tx)
    ensures Outbid(c, e, tx) || Spent(s, e, tx) || BelowPrice(s, e, tx) || Lapsed(s, e, tx)
  {
    hide *;
    NotFull(c, s.all);
    DepartsMeans(c, s, e, s', tx);
    if e.Advance? {
      Advanced(c, checks, s, e, s');
      if OverAccountQueue(c, s, e, tx) { TooManyQueued(c, s, e, tx); }
      if OverSlots(c, s, e, s', tx) { TooManyPending(c, s, e, s', tx); }
      if OverQueue(c, s, e, s', tx) { TooManyInQueues(c, s, e, s', tx); }
    }
  }

  lemma NotFull(c: Config, all: set<Tx>)
    requires c.Sane()
    ensures Within(c, |all|) ==>
      !Full(c, all) && |all| <= c.accountQueue && |all| <= c.globalSlots && |all| <= c.globalQueue
  {
  }

  lemma Advanced(c: Config, checks: Checks, s: Snap, e: Event, s': Snap)
    requires Step(c, checks, s, e, s') && e.Advance?
    ensures s.Valid() && e.mid.Valid() && |e.mid.all| <= |s.all|
  {
    hide Inv;
    SubsetSize(e.mid.all, s.all);
  }

  lemma DepartsMeans(c: Config, s: Snap, e: Event, s': Snap, tx: Tx)
    requires Departs(c, s, e, s', tx) && !Full(c, s.all)
    ensures || Outbid(c, e, tx) || Spent(s, e, tx) || BelowPrice(s, e, tx) || Lapsed(s, e, tx)
            || (e.Advance? &&
                (OverAccountQueue(c, s, e, tx) || OverSlots(c, s, e, s', tx) || OverQueue(c, s, e, s', tx)))
  {
    hide Full, Total;
  }

  lemma TooManyQueued(c: Config, s: Snap, e: Event, tx: Tx)
    requires s.Valid() && OverAccountQueue(c, s, e, tx)
    ensures |s.all| > c.accountQueue
  {
    hide Inv, Total;
    LookupCounts(s.pending, s.queue, s.all);
    TotalSplit(s.queue, tx.from);
  }

  lemma TooManyPending(c: Config, s: Snap, e: Event, s': Snap, tx: Tx)
    requires OverSlots(c, s, e, s', tx) && e.mid.Valid()
    ensures |e.mid.all| > c.globalSlots
  {
    hide Inv, Total;
    LookupCounts(e.mid.pending, e.mid.queue, e.mid.all);
  }

  lemma TooManyInQueues(c: Config, s: Snap, e: Event, s': Snap, tx: Tx)
    requires OverQueue(c, s, e, s', tx) && e.mid.Valid()
    ensures |e.mid.all| > c.globalQueue
  {
    hide Inv, Total;
    LookupCounts(e.mid.pending, e.mid.queue, e.mid.all);
  }

  /** The newcomer is in, and of the others only those it outbid and those that cannot run now are not. */
  ghost predicate KeptBut(s: Snap, tx: Tx, priceBump: nat, after: set<Tx>) {
    && tx in after
    && forall t :: t in s.all && t !in after ==>
      (SlotMates(tx, t) && Outbids(tx, t, priceBump)) || Useless(t, s.state(t.from), s.maxGas)
  }

  /** One transaction added to a pool that stays within its limits. */
  lemma SmallAddition(c: Config, checks: Checks, s: Snap, tx: Tx, local: bool, now: int, verdict: Verdict, log: Log,
                      s': Snap)
    requires c.Sane() && Leads(c, checks, s, log, s') && AddEvents([tx], local, now, log.events)
    requires Verdicts([verdict], log.events)
    ensures verdict == Accepted && Within(c, |s.all| + 1) ==> KeptBut(s, tx, c.priceBump, s'.all)
  {
    hide Chain, Useless, Outbids, NewSenders, Within;
    if verdict == Accepted && Within(c, |s.all| + 1) {
      forall t | t in s.all + {tx} && t !in s'.all
        ensures t != tx && ((SlotMates(tx, t) && Outbids(tx, t, c.priceBump)) || Useless(t, s.state(t.from), s.maxGas))
      {
        SmallLoss(c, checks, s, tx, log, t);
      }
    }
  }

  lemma AdditionMeans(c: Config, checks: Checks, s: Snap, e: Event, s': Snap)
    requires Step(c, checks, s, e, s') && e.Addition? && e.verdict == Accepted
    ensures e.tx in s'.all && s'.all <= s.all + {e.tx} && |s'.all| <= |s.all| + 1
    ensures s'.state == s.state && s'.maxGas == s.maxGas && !Useless(e.tx, s.state(e.tx.from), s.maxGas)
  {
    hide Inv, Unwelcome, AddTo, SetList, Destination, MakesRoom, Inserts;
    RoomKeeps(c, s, e.room);
    InsertKeeps(c, e.room, e.tx, e.local, s');
    hide Adds;
    SubsetSize(s'.all, s.all + {e.tx});
  }

  lemma RoomKeeps(c: Config, s: Snap, s': Snap)
    ensures MakesRoom(c, s, s') ==> s'.all <= s.all && SameSetting(s, s')
  {
    hide Inv, Full;
  }

  lemma InsertKeeps(c: Config, s: Snap, tx: Tx, local: bool, s': Snap)
    ensures Inserts(c, s, tx, local, Accepted, s') ==>
      tx in s'.all && s'.all <= s.all + {tx} && s'.state == s.state && s'.maxGas == s.maxGas
  {
    hide AddTo, SetList, Destination;
  }

  lemma SmallLoss(c: Config, checks: Checks, s: Snap, tx: Tx, log: Log, t: Tx)
    requires c.Sane() && Chain(c, checks, log) && log.snaps[0] == s && 1 <= |log.events| <= 2 && Within(c, |s.all| + 1)
    requires log.events[0].Addition? && log.events[0].tx == tx && log.events[0].verdict == Accepted
    requires |log.events| == 2 ==> log.events[1].Advance?
    requires t in s.all + {tx} && t !in log.snaps[|log.events|].all
    ensures t != tx && ((SlotMates(tx, t) && Outbids(tx, t, c.priceBump)) || Useless(t, s.state(t.from), s.maxGas))
  {
    hide *;
    StepAt(c, checks, log, 0);
    AdditionMeans(c, checks, s, log.events[0], log.snaps[1]);
    var i := if t == tx then 1 else 0;
    var j := LeftSomewhere(c, checks, log, i, t);
    DepartsHere(c, log, j, t);
    StepAt(c, checks, log, j);
    SmallToo(c, |s.all| + 1, |log.snaps[j].all|);
    WithinLimits(c, checks, log.snaps[j], log.events[j], log.snaps[j + 1], t);
    CauseMeans(c, log.snaps[j], log.events[j], t);
  }

  lemma SmallToo(c: Config, n: nat, k: nat)
    requires Within(c, n)
    ensures k <= n ==> Within(c, k)
  {
  }

  lemma CauseMeans(c: Config, s: Snap, e: Event, tx: Tx)
    ensures Outbid(c, e, tx) ==> e.Addition? && SlotMates(e.tx, tx) && Outbids(e.tx, tx, c.priceBump)
    ensures Spent(s, e, tx) ==> Useless(tx, s.state(tx.from), s.maxGas)
    ensures BelowPrice(s, e, tx) ==> e.Repricing?
    ensures Lapsed(s, e, tx) ==> e.Eviction?
  {
  }

  lemma DepartsHere(c: Config, log: Log, j: nat, tx: Tx)
    requires DepartsAt(c, log, j, tx)
    ensures j < |log.events| && |log.snaps| == |log.events| + 1
    ensures tx in log.snaps[j].all && Departs(c, log.snaps[j], log.events[j], log.snaps[j + 1], tx)
  {
  }
}
