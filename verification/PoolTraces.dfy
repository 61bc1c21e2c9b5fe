/** core/tx_pool.go as a transition system: the steps its operations are made of, and the logs they leave. */
module PoolTraces {
  import opened Options
  import opened TxLists
  import opened PoolTables
  import opened Pricing
  import opened Fairness
  import opened PoolSteps
  import opened PoolOrder
  import opened QueueLimits
  import opened PoolChanges
  import opened PoolRecords

  /** The pool at one moment. */
  datatype Snap = Snap(all: set<Tx>, pending: Lists, queue: Lists, managed: map<Address, nat>, beats: map<Address, int>,
                       locals: set<Address>, gasPrice: nat, state: Address -> Account, maxGas: nat) {
    ghost predicate Valid() {
      Inv(pending, queue, all, {})
    }
  }

  /** Only the transactions and what is kept about them changed. */
  ghost predicate SameSetting(s: Snap, s': Snap) {
    s'.locals == s.locals && s'.gasPrice == s.gasPrice && s'.state == s.state && s'.maxGas == s.maxGas
  }

  // add

  /** validateTx */
  function ValidateIn(checks: Checks, s: Snap, tx: Tx, local: bool): Verdict {
    if !checks.sized(tx) then OversizedData
    else if s.maxGas < tx.gas then GasLimitExceeded
    else if !checks.signed(tx) then InvalidSender
    else if !(local || tx.from in s.locals) && s.gasPrice > tx.price then UnderpricedTx
    else if s.state(tx.from).nonce > tx.nonce then NonceTooLow
    else if s.state(tx.from).balance < tx.Cost() then InsufficientFunds
    else if tx.gas < checks.intrinsic(tx) then IntrinsicGasTooLow
    else Accepted
  }

  /** How many transactions are over the limit once one more has come. */
  function Excess(c: Config, all: set<Tx>): int {
    |all| - (c.globalSlots + c.globalQueue - 1)
  }

  /** A full pool dropped some of the cheapest of its remote transactions, if it has any;
      any other pool is as it was. */
  ghost predicate MakesRoom(c: Config, s: Snap, s': Snap) {
    if !Full(c, s.all) then s' == s
    else
      var dropped := s.all - s'.all;
      && s'.Valid() && SameSetting(s, s') && s'.all <= s.all && CheapestGone(s.all, dropped, s.locals)
      && |dropped| <= Excess(c, s.all) && (dropped == {} <==> forall t :: t in s.all ==> IsLocal(s.locals, t))
      && RemovedIn(s, dropped, s')
  }

  /** Transactions were removed one by one, with what is kept about their accounts. */
  ghost predicate RemovedIn(s: Snap, gone: set<Tx>, s': Snap) {
    Removal(s.state, gone, s.pending, s.managed, s.beats, s'.pending, s'.managed, s'.beats)
  }

  lemma RemovedInIs(s: Snap, gone: set<Tx>, s': Snap)
    ensures RemovedIn(s, gone, s') <==>
      Removal(s.state, gone, s.pending, s.managed, s.beats, s'.pending, s'.managed, s'.beats)
  {
  }

  /** The list that a transaction is put in: the pending one if its slot there is taken, or else the queued one. */
  function Destination(s: Snap, tx: Tx): Items {
    ListOf(if tx.nonce in ListOf(s.pending, tx.from) then s.pending else s.queue, tx.from)
  }

  /** The end of add: the transaction takes a free slot in the queue or outbids the holder of its slot. */
  ghost predicate Inserts(c: Config, s: Snap, tx: Tx, local: bool, verdict: Verdict, s': Snap) {
    var r := AddTo(Destination(s, tx), tx, c.priceBump);
    if !r.inserted then verdict == ReplaceUnderpriced && s' == s
    else
      && verdict == Accepted
      && s' == if tx.nonce in ListOf(s.pending, tx.from)
               then s.(all := s.all - ReplacedSet(r.replaced) + {tx}, pending := SetList(s.pending, tx.from, r.items))
               else s.(all := s.all - ReplacedSet(r.replaced) + {tx}, queue := SetList(s.queue, tx.from, r.items),
                       locals := s.locals + if local then {tx.from} else {})
  }

  /** No dearer than anything in a full pool, and not local. */
  ghost predicate Unwelcome(c: Config, s: Snap, tx: Tx, local: bool) {
    Full(c, s.all) && !local && !IsLocal(s.locals, tx) && CheaperThanAll(tx, s.all)
  }

  /** add: what it answers and what it leaves; room is the pool between making room and inserting. */
  ghost predicate Adds(c: Config, checks: Checks, s: Snap, tx: Tx, local: bool, verdict: Verdict, room: Snap, s': Snap)
  {
    if tx in s.all then verdict == KnownTransaction && room == s && s' == s
    else if ValidateIn(checks, s, tx, local) != Accepted then
      verdict == ValidateIn(checks, s, tx, local) && room == s && s' == s
    else if Unwelcome(c, s, tx, local) then verdict == UnderpricedTx && room == s && s' == s
    else MakesRoom(c, s, room) && Inserts(c, room, tx, local, verdict, s')
  }

  lemma RoomAsIs(c: Config, s: Snap)
    requires !Full(c, s.all)
    ensures MakesRoom(c, s, s)
  {
  }

  lemma RoomIs(c: Config, s: Snap, dropped: set<Tx>, s': Snap)
    requires Full(c, s.all) && s'.Valid() && s'.all == s.all - dropped
    requires s'.locals == s.locals && s'.gasPrice == s.gasPrice && s'.state == s.state && s'.maxGas == s.maxGas
    requires CheapestGone(s.all, dropped, s.locals) && |dropped| <= Excess(c, s.all)
    requires dropped != {} <==> exists t :: t in s.all && !IsLocal(s.locals, t)
    requires RemovedIn(s, dropped, s')
    ensures MakesRoom(c, s, s')
  {
    hide RemovedIn;
    assert s.all - s'.all == dropped;
  }

  /** The pool after an attempt to insert, but for the local accounts. */
  ghost predicate InsertedBy(c: Config, s: Snap, tx: Tx, r: Added, s': Snap) {
    s' == if !r.inserted then s
          else if tx.nonce in ListOf(s.pending, tx.from)
          then s.(all := s.all - ReplacedSet(r.replaced) + {tx}, pending := SetList(s.pending, tx.from, r.items))
          else s.(all := s.all - ReplacedSet(r.replaced) + {tx}, queue := SetList(s.queue, tx.from, r.items))
  }

  lemma InsertedByIs(c: Config, s: Snap, tx: Tx)
    ensures tx.nonce in ListOf(s.pending, tx.from) <==> Taken(s.pending, tx)
    ensures Destination(s, tx) == ListOf(if Taken(s.pending, tx) then s.pending else s.queue, tx.from)
    ensures forall r: Added, s': Snap ::
      InsertedBy(c, s, tx, r, s') <==>
        s' == if !r.inserted then s
              else if Taken(s.pending, tx)
              then s.(all := s.all - ReplacedSet(r.replaced) + {tx}, pending := SetList(s.pending, tx.from, r.items))
              else s.(all := s.all - ReplacedSet(r.replaced) + {tx}, queue := SetList(s.queue, tx.from, r.items))
  {
  }

  lemma InsertedRefused(c: Config, s: Snap, tx: Tx, local: bool, r: Added, s': Snap)
    requires r == AddTo(Destination(s, tx), tx, c.priceBump) && !r.inserted && InsertedBy(c, s, tx, r, s')
    ensures Inserts(c, s, tx, local, ReplaceUnderpriced, s')
  {
  }

  lemma InsertedAccepted(c: Config, s: Snap, tx: Tx, local: bool, r: Added, s1: Snap, s': Snap)
    requires r == AddTo(Destination(s, tx), tx, c.priceBump) && r.inserted && InsertedBy(c, s, tx, r, s1)
    requires s' == s1.(locals := s.locals + if local && !Taken(s.pending, tx) then {tx.from} else {})
    ensures Inserts(c, s, tx, local, Accepted, s')
    ensures r.replaced.Some? <==> tx.nonce in Destination(s, tx)
  {
    assert s.locals + {} == s.locals;
  }

  lemma UnwelcomeIs(c: Config, s: Snap, tx: Tx, local: bool)
    ensures Unwelcome(c, s, tx, local) <==>
      Full(c, s.all) && !local && !IsLocal(s.locals, tx) && CheaperThanAll(tx, s.all)
  {
  }

  /** Discarding costs a full pool something, unless all of it is local. */
  lemma SomeDropped(c: Config, all: set<Tx>, drop: seq<Tx>, locals: set<Address>)
    requires Full(c, all) && |drop| <= (if Excess(c, all) < 0 then 0 else Excess(c, all))
    requires forall tx :: tx in drop ==> tx in all && !IsLocal(locals, tx)
    requires |drop| < Excess(c, all) ==> forall t :: t in all && !IsLocal(locals, t) ==> t in drop
    ensures TxSet(drop) != {} <==> exists t :: t in all && !IsLocal(locals, t)
    ensures |TxSet(drop)| <= Excess(c, all)
  {
    if drop != [] { assert drop[0] in TxSet(drop); }
    FewInSet(drop);
  }

  lemma {:induction false} FewInSet(txs: seq<Tx>)
    ensures |TxSet(txs)| <= |txs|
    decreases |txs|
  {
    if txs != [] {
      FewInSet(txs[1..]);
      assert TxSet(txs) == TxSet(txs[1..]) + {txs[0]};
    }
  }

  /** Making room leaves the lookup as it was only if there was no need to, or nothing to drop. */
  lemma CostOfRoom(c: Config, all: set<Tx>, dropped: set<Tx>, locals: set<Address>)
    requires CheapestGone(all, dropped, locals)
    requires dropped != {} <==> Full(c, all) && exists t :: t in all && !IsLocal(locals, t)
    ensures all - dropped == all <==> !Full(c, all) || forall t :: t in all ==> IsLocal(locals, t)
  {
    assert forall t :: t in dropped ==> t in all && t !in all - dropped;
  }

  lemma AddsRefused(c: Config, checks: Checks, s: Snap, tx: Tx, local: bool, verdict: Verdict)
    requires if tx in s.all then verdict == KnownTransaction
             else if ValidateIn(checks, s, tx, local) != Accepted then verdict == ValidateIn(checks, s, tx, local)
             else Unwelcome(c, s, tx, local) && verdict == UnderpricedTx
    ensures Adds(c, checks, s, tx, local, verdict, s, s)
  {
  }

  lemma AddsDecided(c: Config, checks: Checks, s: Snap, tx: Tx, local: bool, verdict: Verdict, room: Snap, s': Snap)
    requires tx !in s.all && ValidateIn(checks, s, tx, local) == Accepted && !Unwelcome(c, s, tx, local)
    requires MakesRoom(c, s, room) && Inserts(c, room, tx, local, verdict, s')
    ensures Adds(c, checks, s, tx, local, verdict, room, s')
  {
  }

  // promoteExecutables

  ghost function RulesIn(c: Config, s: Snap): Rules {
    Rules(s.state, s.maxGas, c.accountQueue, s.locals)
  }

  /** The accounts are promoted, giving mid; then the pending lists are cut to a fair level
      and the queues to their limit. */
  ghost predicate Advances(c: Config, s: Snap, accounts: set<Address>, now: int, mid: Snap, s': Snap) {
    && mid.Valid() && s'.Valid() && SameSetting(s, mid) && SameSetting(s, s') && s'.all <= mid.all <= s.all
    && Promoted(RulesIn(c, s), s.pending, s.queue, s.managed, mid.pending, mid.queue, mid.managed, accounts)
    && Fair(mid.pending, s'.pending, s.locals, c.accountSlots, c.globalSlots)
    && QueueCut(mid.queue, s'.queue, s.locals, s'.beats, c.globalQueue)
    && RecordsAdvance(c, s, accounts, now, mid, s')
  }

  /** Who promotes a run has its pending nonce behind it and is heard of now; who is cut has it before the cut. */
  ghost predicate RecordsAdvance(c: Config, s: Snap, accounts: set<Address>, now: int, mid: Snap, s': Snap) {
    && Moved(RulesIn(c, s), s.queue, s.managed, mid.managed, accounts)
    && Fallen(s.state, mid.pending, s'.pending, mid.managed, s'.managed)
    && Heard(s.beats, mid.beats, Runners(RulesIn(c, s), s.queue, s.managed, accounts), now) && s'.beats == mid.beats
  }

  // demoteUnexecutables, with the nonces set afterwards

  ghost predicate Demotes(s: Snap, s': Snap) {
    && s'.Valid() && SameSetting(s, s')
    && (forall a: Address :: StayedAt(s.pending, s'.pending, s.state, s.maxGas, a))
    && (forall tx :: tx in s'.all <==> tx in s.all && !UselessIn(s.pending, tx, s.state, s.maxGas))
    && s'.managed == s.managed + NextNonces(s'.pending) && BeatsFollow(s.pending, s'.pending, s.beats, s'.beats)
  }

  // SetGasPrice and the eviction of the pool's loop

  ghost predicate Reprices(s: Snap, price: nat, s': Snap) {
    && s'.Valid() && s'.gasPrice == price && SameSetting(s.(gasPrice := price), s')
    && (forall tx :: tx in s'.all <==> tx in s.all && (IsLocal(s.locals, tx) || price <= tx.price))
    && RemovedIn(s, s.all - s'.all, s')
  }

  ghost predicate Evicts(s: Snap, now: int, lifetime: nat, s': Snap) {
    && s'.Valid() && s'.all <= s.all
    && s' == s.(all := s'.all, queue := Evicted(s.queue, s.locals, s.beats, now, lifetime, {}))
  }

  // Logs

  datatype Event =
    | Addition(tx: Tx, local: bool, verdict: Verdict, room: Snap)
    | Advance(accounts: set<Address>, mid: Snap, now: int)
    | NewState(state: Address -> Account, maxGas: nat)
    | Demotion
    | Repricing(price: nat)
    | Eviction(now: int, lifetime: nat)

  /** What one step does to the pool. */
  ghost predicate Step(c: Config, checks: Checks, s: Snap, e: Event, s': Snap) {
    && s.Valid() && s'.Valid()
    && match e
       case Addition(tx, local, verdict, room) => Adds(c, checks, s, tx, local, verdict, room, s')
       case Advance(accounts, mid, now) => Advances(c, s, accounts, now, mid, s')
       case NewState(state, maxGas) => s' == s.(state := state, maxGas := maxGas, managed := map[])
       case Demotion => Demotes(s, s')
       case Repricing(price) => Reprices(s, price, s')
       case Eviction(now, lifetime) => Evicts(s, now, lifetime, s')
  }

  /** The steps of an operation, with the pool before each and after the last. */
  datatype Log = Log(snaps: seq<Snap>, events: seq<Event>)

  ghost predicate Chain(c: Config, checks: Checks, log: Log) {
    && |log.snaps| == |log.events| + 1
    && forall i :: 0 <= i < |log.events| ==> Step(c, checks, log.snaps[i], log.events[i], log.snaps[i + 1])
  }

  ghost predicate Leads(c: Config, checks: Checks, s: Snap, log: Log, s': Snap) {
    Chain(c, checks, log) && log.snaps[0] == s && log.snaps[|log.events|] == s'
  }

  ghost function Extended(log: Log, e: Event, s: Snap): Log {
    Log(log.snaps + [s], log.events + [e])
  }

  lemma NoSteps(c: Config, checks: Checks, s: Snap)
    ensures Leads(c, checks, s, Log([s], []), s)
  {
  }

  lemma OneStep(c: Config, checks: Checks, s: Snap, log: Log, s1: Snap, e: Event, s2: Snap)
    requires Leads(c, checks, s, log, s1) && Step(c, checks, s1, e, s2)
    ensures Leads(c, checks, s, Extended(log, e, s2), s2)
  {
    hide Step;
  }

  ghost function Joined(log: Log, more: Log): Log
    requires |more.snaps| > 0
  {
    Log(log.snaps + more.snaps[1..], log.events + more.events)
  }

  lemma Follows(c: Config, checks: Checks, s: Snap, log: Log, s1: Snap, more: Log, s2: Snap)
    requires Leads(c, checks, s, log, s1) && Leads(c, checks, s1, more, s2)
    ensures Leads(c, checks, s, Joined(log, more), s2)
  {
    hide Step;
    var j := Joined(log, more);
    forall i | 0 <= i < |j.events|
      ensures Step(c, checks, j.snaps[i], j.events[i], j.snaps[i + 1])
    {
      if i >= |log.events| {
        var k := i - |log.events|;
        assert Step(c, checks, more.snaps[k], more.events[k], more.snaps[k + 1]);
      }
    }
  }

  // The logs of the pool's operations

  /** A transaction that was accepted into a free slot. */
  ghost predicate Fresh(e: Event) {
    e.Addition? && e.verdict == Accepted && e.tx.nonce !in Destination(e.room, e.tx)
  }

  ghost predicate AddsEach(txs: seq<Tx>, local: bool, events: seq<Event>) {
    && |events| == |txs|
    && forall i :: 0 <= i < |txs| ==> events[i].Addition? && events[i].tx == txs[i] && events[i].local == local
  }

  /** The senders of the transactions that took free slots. */
  ghost function NewSenders(events: seq<Event>): set<Address> {
    set i | 0 <= i < |events| && Fresh(events[i]) :: events[i].tx.from
  }

  /** Transactions are added one by one, and then the senders of those that took free slots are promoted. */
  ghost predicate AddEvents(txs: seq<Tx>, local: bool, now: int, events: seq<Event>) {
    && |txs| <= |events| <= |txs| + 1 && AddsEach(txs, local, events[..|txs|])
    && (|events| == |txs| <==> NewSenders(events[..|txs|]) == {})
    && (|events| > |txs| ==>
          && events[|txs|].Advance? && events[|txs|].accounts == NewSenders(events[..|txs|])
          && events[|txs|].now == now)
  }

  /** The new state, the additions of what is reinjected, the demotion, and the promotion of every queued account. */
  ghost predicate ResetLog(reinject: seq<Tx>, state: Address -> Account, maxGas: nat, now: int, log: Log) {
    var n := |log.events|;
    && 3 <= n == |log.snaps| - 1
    && log.events[0] == NewState(state, maxGas) && AddEvents(reinject, false, now, log.events[1..n - 2])
    && log.events[n - 2] == Demotion
    && log.events[n - 1].Advance? && log.events[n - 1].accounts == log.snaps[n - 1].queue.Keys
    && log.events[n - 1].now == now
  }

  /** Demotion would leave every account's pending nonces without a gap. */
  ghost predicate AllInLine(s: Snap) {
    forall a: Address :: InLine(s.pending, s.managed, s.state, s.maxGas, a)
  }

  lemma AllInLineMeans(s: Snap)
    ensures AllInLine(s) <==> forall a: Address :: InLine(s.pending, s.managed, s.state, s.maxGas, a)
  {
    hide InLine;
  }

  ghost predicate OpLog(op: Op, log: Log) {
    match op
    case AddOne(tx, local, now) => AddEvents([tx], local, now, log.events)
    case AddMany(txs, local, now) => AddEvents(txs, local, now, log.events)
    case SetPrice(price) => log.events == [Repricing(price)]
    case EvictOld(now, lifetime) => log.events == [Eviction(now, lifetime)]
    case NewHead(reinject, state, maxGas, now) => ResetLog(reinject, state, maxGas, now, log)
  }

  /** The log of a run is made of those of its operations, one after the other. */
  ghost predicate RunLog(ops: seq<Op>, log: Log)
    decreases |ops|
  {
    if ops == [] then log.events == [] else exists k :: LastOpFrom(ops, log, k)
  }

  ghost predicate LastOpFrom(ops: seq<Op>, log: Log, k: nat)
    requires ops != []
    decreases |ops|, 0
  {
    && k <= |log.events| == |log.snaps| - 1
    && OpLog(ops[|ops| - 1], Log(log.snaps[k..], log.events[k..]))
    && RunLog(ops[..|ops| - 1], Log(log.snaps[..k + 1], log.events[..k]))
  }

  lemma OneMoreOp(ops: seq<Op>, i: nat, log: Log, more: Log)
    requires i < |ops| && RunLog(ops[..i], log) && OpLog(ops[i], more)
    requires |log.snaps| == |log.events| + 1 && |more.snaps| == |more.events| + 1
    requires log.snaps[|log.events|] == more.snaps[0]
    ensures RunLog(ops[..i + 1], Joined(log, more))
  {
    hide OpLog;
    var j, k := Joined(log, more), |log.events|;
    assert j.snaps[k..] == more.snaps && j.events[k..] == more.events;
    assert j.snaps[..k + 1] == log.snaps && j.events[..k] == log.events;
    assert ops[..i + 1][..i] == ops[..i];
    assert LastOpFrom(ops[..i + 1], j, k);
  }

  // Single steps

  lemma AdvancesIs(c: Config, s: Snap, accounts: set<Address>, now: int, mid: Snap, s': Snap)
    requires mid.Valid() && s'.Valid() && s'.all <= mid.all <= s.all
    requires mid.locals == s'.locals == s.locals && mid.gasPrice == s'.gasPrice == s.gasPrice
    requires mid.state == s'.state == s.state && mid.maxGas == s'.maxGas == s.maxGas
    requires Promoted(Rules(s.state, s.maxGas, c.accountQueue, s.locals), s.pending, s.queue, s.managed,
                      mid.pending, mid.queue, mid.managed, accounts)
    requires Fair(mid.pending, s'.pending, s.locals, c.accountSlots, c.globalSlots)
    requires QueueCut(mid.queue, s'.queue, s.locals, s'.beats, c.globalQueue)
    requires RecordsAdvance(c, s, accounts, now, mid, s')
    ensures Advances(c, s, accounts, now, mid, s')
  {
    hide RecordsAdvance;
  }

  lemma RecordsAre(c: Config, s: Snap, accounts: set<Address>, now: int, mid: Snap, s': Snap)
    requires var r := Rules(s.state, s.maxGas, c.accountQueue, s.locals);
      && Moved(r, s.queue, s.managed, mid.managed, accounts)
      && Fallen(s.state, mid.pending, s'.pending, mid.managed, s'.managed)
      && Heard(s.beats, mid.beats, Runners(r, s.queue, s.managed, accounts), now) && s'.beats == mid.beats
    ensures RecordsAdvance(c, s, accounts, now, mid, s')
  {
    hide Moved, Fallen, Heard, Runners;
  }

  lemma DemotionIs(c: Config, checks: Checks, s: Snap, s': Snap)
    requires s.Valid() && s'.Valid()
    requires s' == s.(all := s'.all, pending := s'.pending, queue := s'.queue, beats := s'.beats, managed := s'.managed)
    requires forall a: Address :: StayedAt(s.pending, s'.pending, s.state, s.maxGas, a)
    requires forall tx :: tx in s'.all <==> tx in s.all && !UselessIn(s.pending, tx, s.state, s.maxGas)
    requires s'.managed == s.managed + NextNonces(s'.pending) && BeatsFollow(s.pending, s'.pending, s.beats, s'.beats)
    ensures Step(c, checks, s, Demotion, s')
  {
  }

  lemma RepricingIs(c: Config, checks: Checks, s: Snap, price: nat, s': Snap)
    requires s.Valid() && s'.Valid() && s'.gasPrice == price
    requires s'.locals == s.locals && s'.state == s.state && s'.maxGas == s.maxGas
    requires forall tx :: tx in s'.all <==> tx in s.all && (IsLocal(s.locals, tx) || price <= tx.price)
    requires RemovedIn(s, s.all - s'.all, s')
    ensures Step(c, checks, s, Repricing(price), s')
  {
    hide RemovedIn;
  }

  lemma EvictionIs(c: Config, checks: Checks, s: Snap, now: int, lifetime: nat, s': Snap)
    requires s.Valid() && s'.Valid() && s'.all <= s.all
    requires s' == s.(all := s'.all, queue := Evicted(s.queue, s.locals, s.beats, now, lifetime, {}))
    ensures Step(c, checks, s, Eviction(now, lifetime), s')
  {
  }

  lemma SingleStep(c: Config, checks: Checks, s: Snap, e: Event, s': Snap) returns (log: Log)
    requires Step(c, checks, s, e, s')
    ensures log == Log([s, s'], [e]) && Leads(c, checks, s, log, s')
  {
    hide Step;
    log := Log([s, s'], [e]);
  }

  // Additions

  /** The answers given are those in the log. */
  ghost predicate Verdicts(verdicts: seq<Verdict>, events: seq<Event>) {
    && |verdicts| <= |events|
    && forall i :: 0 <= i < |verdicts| ==> events[i].Addition? && events[i].verdict == verdicts[i]
  }

  lemma AddingStarts(txs: seq<Tx>, local: bool)
    ensures AddsEach(txs[..0], local, []) && Verdicts([], []) && NewSenders([]) == {}
  {
  }

  /** One more transaction is added. */
  lemma Adding(c: Config, checks: Checks, s: Snap, log: Log, s1: Snap, txs: seq<Tx>, local: bool, k: nat, e: Event,
               s2: Snap)
    requires Leads(c, checks, s, log, s1) && k < |txs| && AddsEach(txs[..k], local, log.events)
    requires e.Addition? && e.tx == txs[k] && e.local == local && s1.Valid() && s2.Valid()
    requires Adds(c, checks, s1, e.tx, e.local, e.verdict, e.room, s2)
    ensures var log' := Extended(log, e, s2);
      && Leads(c, checks, s, log', s2) && AddsEach(txs[..k + 1], local, log'.events)
      && NewSenders(log'.events) ==
         NewSenders(log.events)
         + (if e.verdict == Accepted && e.tx.nonce !in Destination(e.room, e.tx) then {e.tx.from} else {})
    ensures forall verdicts :: Verdicts(verdicts, log.events) && |verdicts| == k ==>
      Verdicts(verdicts + [e.verdict], Extended(log, e, s2).events)
  {
    hide Adds, Leads, Destination, Chain;
    assert Step(c, checks, s1, e, s2);
    OneStep(c, checks, s, log, s1, e, s2);
    SendersGrow(log.events, e);
  }

  /** The first transaction is added. */
  lemma AddingOne(c: Config, checks: Checks, s: Snap, tx: Tx, local: bool, verdict: Verdict, room: Snap,
                  s': Snap) returns (log: Log)
    requires s.Valid() && s'.Valid() && Adds(c, checks, s, tx, local, verdict, room, s')
    ensures Leads(c, checks, s, log, s') && AddsEach([tx], local, log.events) && Verdicts([verdict], log.events)
    ensures NewSenders(log.events) ==
      if verdict == Accepted && tx.nonce !in Destination(room, tx) then {tx.from} else {}
  {
    hide Adds, Leads, Destination, Chain;
    var e, empty := Addition(tx, local, verdict, room), Log([s], []);
    NoSteps(c, checks, s);
    Adding(c, checks, s, empty, s, [tx], local, 0, e, s');
    log := Extended(empty, e, s');
    assert [tx][..1] == [tx] && [] + [verdict] == [verdict];
    assert Verdicts([], empty.events);
  }

  ghost function NewSender(e: Event): set<Address> {
    if Fresh(e) then {e.tx.from} else {}
  }

  lemma SendersGrow(events: seq<Event>, e: Event)
    ensures NewSenders(events + [e]) == NewSenders(events) + NewSender(e)
  {
    hide Destination;
    var more := events + [e];
    forall a
      ensures a in NewSenders(more) <==> a in NewSenders(events) || a in NewSender(e)
    {
      if a in NewSenders(events) {
        var i :| 0 <= i < |events| && Fresh(events[i]) && events[i].tx.from == a;
        assert more[i] == events[i];
      }
      if a in NewSender(e) { assert more[|events|] == e; }
    }
  }

  lemma NotPromoting(txs: seq<Tx>, local: bool, now: int, events: seq<Event>)
    requires AddsEach(txs, local, events) && NewSenders(events) == {}
    ensures AddEvents(txs, local, now, events)
  {
    hide Fresh;
    assert events[..|txs|] == events;
  }

  /** The accounts that got something new are promoted. */
  lemma Promoting(c: Config, checks: Checks, s: Snap, log: Log, s1: Snap, txs: seq<Tx>, local: bool,
                  dirty: set<Address>, now: int, mid: Snap, s2: Snap)
    requires Leads(c, checks, s, log, s1) && AddsEach(txs, local, log.events)
    requires NewSenders(log.events) == dirty != {}
    requires s1.Valid() && s2.Valid() && Advances(c, s1, dirty, now, mid, s2)
    ensures var log' := Extended(log, Advance(dirty, mid, now), s2);
      Leads(c, checks, s, log', s2) && AddEvents(txs, local, now, log'.events)
    ensures forall verdicts :: Verdicts(verdicts, log.events) ==>
      Verdicts(verdicts, Extended(log, Advance(dirty, mid, now), s2).events)
  {
    hide Advances, Leads, Fresh, Chain;
    var e := Advance(dirty, mid, now);
    assert Step(c, checks, s1, e, s2);
    OneStep(c, checks, s, log, s1, e, s2);
    assert (log.events + [e])[..|txs|] == log.events;
  }

  // Resets and runs

  lemma ResetSteps(c: Config, checks: Checks, s: Snap, reinject: seq<Tx>, state: Address -> Account, maxGas: nat,
                   now: int, s1: Snap, more: Log, s2: Snap, s3: Snap, mid: Snap, s4: Snap) returns (log: Log)
    requires s.Valid() && s1.Valid() && s1 == s.(state := state, maxGas := maxGas, managed := map[])
    requires Leads(c, checks, s1, more, s2) && AddEvents(reinject, false, now, more.events)
    requires Step(c, checks, s2, Demotion, s3) && s4.Valid() && Advances(c, s3, s3.queue.Keys, now, mid, s4)
    ensures Leads(c, checks, s, log, s4) && ResetLog(reinject, state, maxGas, now, log)
    ensures 3 <= |log.events| == |log.snaps| - 1 && log.snaps[|log.events| - 2] == s2
  {
    hide Advances, AddEvents, Demotes;
    var e := NewState(state, maxGas);
    var log0 := SingleStep(c, checks, s, e, s1);
    Follows(c, checks, s, log0, s1, more, s2);
    var log1 := Joined(log0, more);
    OneStep(c, checks, s, log1, s2, Demotion, s3);
    var log2 := Extended(log1, Demotion, s3);
    var e' := Advance(s3.queue.Keys, mid, now);
    assert Step(c, checks, s3, e', s4);
    hide Step;
    OneStep(c, checks, s, log2, s3, e', s4);
    log := Extended(log2, e', s4);
    assert log.events[1..|log.events| - 2] == more.events;
  }

  lemma OpLogIs(op: Op, log: Log)
    ensures op.AddOne? ==> (OpLog(op, log) <==> AddEvents([op.tx], op.local, op.now, log.events))
    ensures op.AddMany? ==> (OpLog(op, log) <==> AddEvents(op.txs, op.local, op.now, log.events))
    ensures op.SetPrice? ==> (OpLog(op, log) <==> log.events == [Repricing(op.price)])
    ensures op.EvictOld? ==> (OpLog(op, log) <==> log.events == [Eviction(op.now, op.lifetime)])
    ensures op.NewHead? ==> (OpLog(op, log) <==> ResetLog(op.reinject, op.state, op.maxGas, op.now, log))
  {
  }

  lemma NoOps(ops: seq<Op>, s: Snap)
    ensures RunLog(ops[..0], Log([s], []))
  {
  }

  lemma NextOp(c: Config, checks: Checks, s: Snap, ops: seq<Op>, i: nat, log: Log, s1: Snap, more: Log, s2: Snap)
    requires Leads(c, checks, s, log, s1) && Leads(c, checks, s1, more, s2)
    requires i < |ops| && RunLog(ops[..i], log) && OpLog(ops[i], more)
    ensures |more.snaps| > 0 && Leads(c, checks, s, Joined(log, more), s2) && RunLog(ops[..i + 1], Joined(log, more))
  {
    hide Step, OpLog, RunLog;
    Follows(c, checks, s, log, s1, more, s2);
    OneMoreOp(ops, i, log, more);
  }
}
