/** core/tx_pool.go: the transaction pool. Every method is one region under the pool's lock. */
module TxPools {
  import opened Options
  import opened TxLists
  import opened PoolTables
  import opened Pricing
  import opened Fairness
  import opened PoolSteps
  import opened PoolOrder
  import opened QueueLimits
  import opened PoolChanges
  import opened PoolRecords
  import opened PoolTraces
  import opened PoolFates
  import opened PoolHistories
  import SortedMaps

  class TxPool {
    const config: Config
    const priced: TxPricedList
    /** What validateTx asks of a transaction alone: its size, its signature and its intrinsic gas. */
    const checks: Checks
    var gasPrice: nat
    var state: Address -> Account
    var maxGas: nat
    var managed: map<Address, nat>
    var locals: set<Address>
    var pending: Lists
    var queue: Lists
    var beats: map<Address, int>
    var all: set<Tx>

    ghost predicate Valid()
      reads this, priced
    {
      config.Sane() && Inv(pending, queue, all, {}) && Covered(all, priced.items)
    }

    ghost function Tables(): Book
      reads this`pending, this`queue, this`managed
    {
      Book(pending, queue, managed)
    }

    function Snapshot(): Snap
      reads this
    {
      Snap(all, pending, queue, managed, beats, locals, gasPrice, state, maxGas)
    }

    /** Every account's pending nonces run without a gap from its state nonce to its pending nonce. */
    ghost predicate TightNow()
      reads this
    {
      Tight(pending, state, managed)
    }

    /** And the transaction that would run next is not waiting in the queue. */
    ghost predicate OrderlyNow()
      reads this
    {
      TightNow() && forall a: Address :: SettledAt(Tables(), state, a)
    }

    /** Every pending transaction can be paid for, and no pending nonce is spent. */
    ghost predicate RunnableNow()
      reads this
    {
      forall a: Address :: RunnableAt(Tables(), state, maxGas, a)
    }

    /** NewTxPool without its journal and event loop; the first reset of an empty pool is the initial state. */
    constructor (config: Config, checks: Checks, priceLimit: nat, locals: set<Address>, state: Address -> Account,
                 maxGas: nat)
      requires config.Sane()
      ensures Valid() && OrderlyNow() && RunnableNow() && fresh(priced)
      ensures this.config == config && this.checks == checks
      ensures Bounded(config, Snapshot()) && Sound(checks, Snapshot())
      ensures Snapshot() == Snap({}, map[], map[], map[], map[], locals, priceLimit, state, maxGas)
    {
      this.config, this.checks, this.locals := config, checks, locals;
      this.state, this.maxGas, gasPrice := state, maxGas, priceLimit;
      priced := new TxPricedList();
      managed, pending, queue, beats, all := map[], map[], map[], map[], {};
    }

    /** Takes transactions out of the lookup and tells the price heap. */
    method DropAll(txs: seq<Tx>)
      modifies this`all, priced
      ensures all == old(all) - TxSet(txs)
      ensures KeepsCover(old(all), old(priced.items), all, priced.items)
    {
      var i := 0;
      while i < |txs|
        invariant 0 <= i <= |txs|
        invariant all == old(all) - TxSet(txs[..i])
        invariant KeepsCover(old(all), old(priced.items), all, priced.items)
      {
        ghost var before := priced.items;
        ShrinkCover(old(all), old(priced.items), all, before, all - {txs[i]});
        all := all - {txs[i]};
        priced.Removed(all);
        assert txs[..i + 1] == txs[..i] + [txs[i]];
        i := i + 1;
      }
      assert txs[..|txs|] == txs;
    }

    /** enqueueTx */
    method EnqueueTx(tx: Tx) returns (replaced: bool, failed: bool)
      modifies this`queue, this`all, priced
      ensures var r := AddTo(ListOf(old(queue), tx.from), tx, config.priceBump);
        && failed == !r.inserted && replaced == r.replaced.Some?
        && queue == SetList(old(queue), tx.from, r.items)
        && all == if r.inserted then old(all) - ReplacedSet(r.replaced) + {tx} else old(all)
      ensures KeepsCover(old(all), old(priced.items), all, priced.items)
    {
      hide CoveredWith;
      var r := AddTo(ListOf(queue, tx.from), tx, config.priceBump);
      queue := SetList(queue, tx.from, r.items);
      if !r.inserted {
        return false, true;
      }
      if r.replaced.Some? {
        ShrinkCover(all, priced.items, all, priced.items, all - {r.replaced.value});
        all := all - {r.replaced.value};
        priced.Removed(all);
      }
      if tx !in all {
        GrowCover(old(all), old(priced.items), all, priced.items, tx);
        all := all + {tx};
        priced.Put(tx);
      }
      return r.replaced.Some?, false;
    }

    /** Queues, in any order, transactions that have left the pending lists. */
    method EnqueueAll(txs: seq<Tx>, ghost limbo: set<Tx>)
      requires Inv(pending, queue, all, limbo) && TxSet(txs) == limbo && Distinct(txs)
      modifies this`queue, this`all, priced
      ensures Inv(pending, queue, all, {}) && all == old(all)
      ensures KeepsCover(old(all), old(priced.items), all, priced.items)
    {
      hide *;
      ghost var flying := limbo;
      assert txs[0..] == txs;
      SameCover(all, priced.items);
      var i := 0;
      while i < |txs|
        invariant 0 <= i <= |txs|
        invariant flying == TxSet(txs[i..]) && Inv(pending, queue, all, flying) && all == old(all)
        invariant KeepsCover(old(all), old(priced.items), all, priced.items)
      {
        NextInFlight(txs, i);
        LandQueued(pending, queue, all, flying, txs[i]);
        FreeSlot(pending, queue, all, flying, txs[i], config.priceBump);
        ghost var items := priced.items;
        var _, _ := EnqueueTx(txs[i]);
        CoverTransitive(old(all), old(priced.items), all, items, all, priced.items);
        flying := flying - {txs[i]};
        i := i + 1;
      }
      NoneLeft(txs);
    }

    /** Cuts a pending list at a transaction that has left the lookup and queues what was behind it. */
    method LeavePending(tx: Tx, ghost all0: set<Tx>)
      requires Inv(pending, queue, all0, {}) && tx in all0 && all == all0 - {tx} && Taken(pending, tx)
      modifies this`all, this`pending, this`queue, this`beats, this`managed, priced
      ensures Inv(pending, queue, all, {}) && all == old(all)
      ensures KeepsCover(all, old(priced.items), all, priced.items)
      ensures KeepsOrder(state, maxGas, {}, old(Tables()), Tables())
      ensures pending == SetList(old(pending), tx.from, Below(ListOf(old(pending), tx.from), tx.nonce))
      ensures managed == if NextNonce(state, old(managed), tx.from) > tx.nonce then old(managed)[tx.from := tx.nonce]
                         else old(managed)
      ensures beats == if tx.from in pending then old(beats) else old(beats) - {tx.from}
    {
      hide *;
      TablesAre();
      var addr := tx.from;
      TakenMeans(pending, tx);
      var list := pending[addr];
      TakeOnePending(pending, queue, all0, tx);
      RemoveTight(pending, state, managed, tx);
      HeldInList(pending, queue, all0, tx);
      BelowIsPart(list, tx.nonce);
      BookTight(state, Tables());
      var rest := Below(list, tx.nonce);
      var invalids := ListAny(Minus(list - {tx.nonce}, rest));
      pending := SetList(pending, addr, rest);
      SetMeans(old(pending), addr, rest);
      if rest == map[] {
        beats := beats - {addr};
      }
      EnqueueAll(invalids, TxSet(invalids));
      if NextNonce(state, managed, addr) > tx.nonce {
        managed := managed[addr := tx.nonce];
      }
      TablesAre();
      OrderOnCut(state, maxGas, old(Tables()), all0, Tables(), all, addr, rest, tx.nonce);
    }

    /** removeTx: forgets one transaction; what was pending behind it goes back to the queue. */
    method RemoveTx(tx: Tx, outofbound: bool)
      requires Inv(pending, queue, all, {})
      modifies this`all, this`pending, this`queue, this`beats, this`managed, priced
      ensures Inv(pending, queue, all, {}) && all == old(all) - {tx}
      ensures KeepsCover(old(all), old(priced.items), all, priced.items)
      ensures KeepsOrder(state, maxGas, {}, old(Tables()), Tables())
      ensures tx in old(all) && !Taken(old(pending), tx) ==>
        && pending == old(pending) && beats == old(beats) && managed == old(managed)
        && queue == SetList(old(queue), tx.from, ListOf(old(queue), tx.from) - {tx.nonce})
      ensures tx in old(all) && Taken(old(pending), tx) ==>
        && pending == SetList(old(pending), tx.from, Below(ListOf(old(pending), tx.from), tx.nonce))
        && managed == (if NextNonce(state, old(managed), tx.from) > tx.nonce then old(managed)[tx.from := tx.nonce]
                       else old(managed))
        && beats == if tx.from in pending then old(beats) else old(beats) - {tx.from}
      ensures tx !in old(all) ==>
        pending == old(pending) && queue == old(queue) && beats == old(beats) && managed == old(managed)
    {
      hide *;
      TablesAre();
      SameOrder(state, maxGas, Tables());
      SameCover(all, priced.items);
      if tx !in all {
        assert all - {tx} == all;
        return;
      }
      var addr := tx.from;
      ghost var all0 := all;
      WhereHeld(pending, queue, all, tx);
      ShrinkCover(all, priced.items, all, priced.items, all - {tx});
      all := all - {tx};
      if outofbound {
        ghost var items := priced.items;
        priced.Removed(all);
        RemovedCover(old(all), old(priced.items), all, items, priced.items);
      }
      TakenMeans(pending, tx);
      if addr in pending && tx.nonce in pending[addr] {
        ghost var items := priced.items;
        LeavePending(tx, all0);
        CoverTransitive(old(all), old(priced.items), all, items, all, priced.items);
        return;
      }
      TakeOneQueued(pending, queue, all0, tx);
      TakenMeans(queue, tx);
      if addr in queue {
        queue := SetList(queue, addr, queue[addr] - {tx.nonce});
      }
      TablesAre();
      OrderOnQueueLoss(state, maxGas, old(Tables()), all0, Tables(), all);
    }

    /** promoteTx, with the time of the heartbeat */
    method PromoteTx(addr: Address, tx: Tx, now: int) returns (promoted: bool)
      modifies this`pending, this`all, this`beats, this`managed, priced
      ensures var r := AddTo(ListOf(old(pending), addr), tx, config.priceBump);
        && promoted == r.inserted && pending == SetList(old(pending), addr, r.items)
        && all == (if r.inserted then old(all) - ReplacedSet(r.replaced) + {tx} else old(all) - {tx})
        && managed == (if r.inserted then old(managed)[addr := tx.nonce + 1] else old(managed))
        && beats == if r.inserted then old(beats)[addr := now] else old(beats)
      ensures KeepsCover(old(all), old(priced.items), all, priced.items)
    {
      hide CoveredWith;
      var r := AddTo(ListOf(pending, addr), tx, config.priceBump);
      pending := SetList(pending, addr, r.items);
      if !r.inserted {
        ShrinkCover(all, priced.items, all, priced.items, all - {tx});
        all := all - {tx};
        priced.Removed(all);
        return false;
      }
      if r.replaced.Some? {
        ShrinkCover(all, priced.items, all, priced.items, all - {r.replaced.value});
        all := all - {r.replaced.value};
        priced.Removed(all);
      }
      if tx !in all {
        GrowCover(old(all), old(priced.items), all, priced.items, tx);
        all := all + {tx};
        priced.Put(tx);
      }
      beats := beats[addr := now];
      managed := managed[addr := tx.nonce + 1];
      return true;
    }

    /** Cuts a queued list down and forgets what is cut off. */
    method ShrinkQueued(addr: Address, rest: Items)
      requires Inv(pending, queue, all, {}) && SubItems(rest, ListOf(queue, addr))
      modifies this`queue, this`all, priced
      ensures Inv(pending, queue, all, {}) && queue == SetList(old(queue), addr, rest)
      ensures all == old(all) - Values(Minus(ListOf(old(queue), addr), rest))
      ensures KeepsCover(old(all), old(priced.items), all, priced.items)
    {
      hide *;
      TakeQueued(pending, queue, all, {}, addr, rest);
      var drops := ListAny(Minus(ListOf(queue, addr), rest));
      queue := SetList(queue, addr, rest);
      Forget(pending, queue, all, {} + TxSet(drops), TxSet(drops));
      assert {} + TxSet(drops) - TxSet(drops) == {};
      DropAll(drops);
    }

    /** Moves a run of an account's queue to its pending list, in nonce order. */
    method PromoteRun(addr: Address, run: Items, now: int)
      requires Inv(pending, queue, all, {}) && SubItems(run, ListOf(queue, addr))
      modifies this`pending, this`queue, this`all, this`beats, this`managed, priced
      ensures Inv(pending, queue, all, {}) && all == old(all)
      ensures queue == SetList(old(queue), addr, Minus(ListOf(old(queue), addr), run))
      ensures pending == SetList(old(pending), addr, Merge(ListOf(old(pending), addr), run))
      ensures managed == if run == map[] then old(managed) else old(managed)[addr := Highest(run) + 1]
      ensures beats == if run == map[] then old(beats) else old(beats)[addr := now]
      ensures KeepsCover(old(all), old(priced.items), all, priced.items)
    {
      hide *;
      SameCover(all, priced.items);
      RunOwned(queue, pending, all, addr, run);
      var ready := SortedMaps.SortByNonce(run);
      TakeRun(pending, queue, all, addr, run, ready);
      queue := SetList(queue, addr, Minus(ListOf(queue, addr), run));
      ghost var flying := TxSet(ready);
      assert ready[0..] == ready && ready[..0] == [];
      PromoteStarts(pending, queue, all, flying, addr);
      var i := 0;
      while i < |ready|
        invariant 0 <= i <= |ready|
        invariant flying == TxSet(ready[i..]) && Inv(pending, queue, all, flying) && all == old(all)
        invariant pending == SetList(old(pending), addr, Merge(ListOf(old(pending), addr), KeyedBy(ready[..i])))
        invariant managed == if i == 0 then old(managed) else old(managed)[addr := ready[i - 1].nonce + 1]
        invariant beats == if i == 0 then old(beats) else old(beats)[addr := now]
        invariant queue == SetList(old(queue), addr, Minus(ListOf(old(queue), addr), run))
        invariant KeepsCover(old(all), old(priced.items), all, priced.items)
      {
        NextInFlight(ready, i);
        RunMember(run, ready, addr, i);
        LandPending(pending, queue, all, flying, ready[i]);
        FreePending(pending, queue, all, flying, ready[i], config.priceBump);
        PromoteStep(old(pending), addr, ready, i);
        ghost var items := priced.items;
        var _ := PromoteTx(addr, ready[i], now);
        CoverTransitive(old(all), old(priced.items), all, items, all, priced.items);
        flying := flying - {ready[i]};
        i := i + 1;
      }
      NoneLeft(ready);
      assert ready[..|ready|] == ready;
      RunDone(run, ready);
    }

    /** Drops an account's queued transactions that are too old or too dear. */
    method DropUnable(addr: Address) returns (l2: Items)
      requires Inv(pending, queue, all, {})
      modifies this`queue, this`all, priced
      ensures Inv(pending, queue, all, {}) && queue == SetList(old(queue), addr, l2)
      ensures l2 == Affordable(From(ListOf(old(queue), addr), state(addr).nonce), state(addr).balance, maxGas, false)
      ensures var l0 := ListOf(old(queue), addr); var l1 := From(l0, state(addr).nonce);
        all == old(all) - Values(Minus(l0, l1)) - Values(Minus(l1, l2))
      ensures KeepsCover(old(all), old(priced.items), all, priced.items)
    {
      hide *;
      var acct := state(addr);
      Parts(ListOf(queue, addr), acct.nonce, acct.balance, maxGas);
      var l1 := From(ListOf(queue, addr), acct.nonce);
      ShrinkQueued(addr, l1);
      ListOfSet(old(queue), addr, l1, addr);
      ghost var items1, all1 := priced.items, all;
      l2 := Affordable(l1, acct.balance, maxGas, false);
      ShrinkQueued(addr, l2);
      CoverTransitive(old(all), old(priced.items), all1, items1, all, priced.items);
      SetTwice(old(queue), addr, l1, l2);
    }

    /** Drops what a remote account has queued beyond its limit. */
    method CapQueue(addr: Address) returns (ghost rest: Items)
      requires Inv(pending, queue, all, {})
      modifies this`queue, this`all, priced
      ensures Inv(pending, queue, all, {}) && queue == SetList(old(queue), addr, rest)
      ensures var list := ListOf(old(queue), addr);
        && rest == (if addr in locals then list else CapTo(list, config.accountQueue)) && SubItems(rest, list)
        && all == old(all) - Values(Minus(list, rest))
      ensures KeepsCover(old(all), old(priced.items), all, priced.items)
    {
      hide *;
      SameCover(all, priced.items);
      rest := ListOf(queue, addr);
      if addr !in locals {
        var list := ListOf(queue, addr);
        CapIsPart(list, config.accountQueue);
        rest := CapTo(list, config.accountQueue);
        ShrinkQueued(addr, CapTo(list, config.accountQueue));
      } else {
        MinusSelf(all, rest);
        SelfPart(rest);
        SetBack(pending, queue, all, addr);
      }
    }

    /** One account of promoteExecutables: drops what is too old, too dear or too much, and
        promotes what can run next. */
    method PromoteAccount(addr: Address, now: int)
      requires Inv(pending, queue, all, {})
      modifies this`pending, this`queue, this`all, this`beats, this`managed, priced
      ensures Inv(pending, queue, all, {})
      ensures var list := ListOf(old(queue), addr);
        var r := PromotionOf(list, state(addr), maxGas, NextNonce(state, old(managed), addr), config.accountQueue,
                             addr in locals);
        && queue == SetList(old(queue), addr, r.rest)
        && pending == SetList(old(pending), addr, Merge(ListOf(old(pending), addr), r.run))
        && all == old(all) - Values(Minus(Minus(list, r.run), r.rest))
        && managed == (if r.run == map[] then old(managed) else old(managed)[addr := Highest(r.run) + 1])
        && beats == if r.run == map[] then old(beats) else old(beats)[addr := now]
      ensures KeepsCover(old(all), old(priced.items), all, priced.items)
      ensures KeepsOrder(state, maxGas, {}, old(Tables()), Tables())
      ensures old(TightNow()) ==> SettledAt(Tables(), state, addr)
    {
      hide *;
      TablesAre();
      SameCover(all, priced.items);
      ghost var l0 := ListOf(queue, addr);
      var acct := state(addr);
      ghost var pn := NextNonce(state, managed, addr);
      OwnedHere(pending, queue, all, addr);
      if addr !in queue {
        NothingQueued(pending, queue, all, addr, acct, maxGas, pn, config.accountQueue, addr in locals);
        SameOrder(state, maxGas, Tables());
        NoQueue(state, Tables(), addr);
        return;
      }
      Parts(l0, acct.nonce, acct.balance, maxGas);
      ghost var l1 := From(l0, acct.nonce);
      var l2 := DropUnable(addr);
      ListOfSet(old(queue), addr, l2, addr);
      var run := ReadyItems(l2, NextNonce(state, managed, addr));
      RunIsPart(l2, NextNonce(state, managed, addr));
      PromoteTight(pending, queue, all, state, managed, addr, l0, l2, run);
      ghost var items2, all2 := priced.items, all;
      PromoteRun(addr, run, now);
      CoverTransitive(old(all), old(priced.items), all2, items2, all, priced.items);
      var l3 := Minus(l2, run);
      SetTwice(old(queue), addr, l2, l3);
      ListOfSet(old(queue), addr, l3, addr);
      ghost var items3, all3 := priced.items, all;
      ghost var l4 := CapQueue(addr);
      CoverTransitive(old(all), old(priced.items), all3, items3, all, priced.items);
      SetTwice(old(queue), addr, l3, l4);
      DroppedTogether(old(all), addr, l0, l1, l2, run, l3, l4);
      PromotionIs(l0, acct, maxGas, pn, config.accountQueue, addr in locals, run, l4);
      ListOfSet(old(queue), addr, l4, addr);
      BookTight(state, old(Tables()));
      TablesAre();
      BookTight(state, Tables());
      PromoteOrder(state, maxGas, old(Tables()), old(all), Tables(), all, addr, l2, run);
    }

    /** list.Cap(list.Len() - 1) on a pending list, with the bookkeeping of the dropped transaction. */
    method DropHighest(addr: Address)
      requires Inv(pending, queue, all, {}) && addr in pending && |pending[addr]| > 1
      modifies this`pending, this`all, this`managed, priced
      ensures Inv(pending, queue, all, {}) && all <= old(all)
      ensures pending == old(pending)[addr := CapTo(old(pending)[addr], |old(pending)[addr]| - 1)]
      ensures Fallen(state, old(pending), pending, old(managed), managed)
      ensures KeepsCover(old(all), old(priced.items), all, priced.items)
      ensures KeepsOrder(state, maxGas, {}, old(Tables()), Tables())
    {
      hide *;
      TablesAre();
      var list := pending[addr];
      var cap := CapTo(list, |list| - 1);
      var nonce := Highest(list);
      InTable(pending, addr);
      CutHighest(list);
      TakePending(pending, queue, all, {}, addr, cap);
      CutTight(pending, state, managed, addr);
      var drops := ListAny(Minus(list, cap));
      pending := SetList(pending, addr, cap);
      Forget(pending, queue, all, {} + TxSet(drops), TxSet(drops));
      assert {} + TxSet(drops) - TxSet(drops) == {};
      DropAll(drops);
      if NextNonce(state, managed, addr) > nonce {
        managed := managed[addr := nonce];
      }
      HighestDropped(list);
      HighestIsEnd(list);
      ListOfIs(old(pending), addr);
      FallsHere(state, old(pending), old(managed), addr, nonce);
      BookTight(state, old(Tables()));
      TablesAre();
      OrderOnCut(state, maxGas, old(Tables()), old(all), Tables(), all, addr, cap, nonce);
    }

    /** One round over the offenders, each losing its highest nonce. */
    method CutRound(offenders: seq<Address>, total: nat, ghost before: Lists, ghost n: nat) returns (total': nat)
      requires Inv(pending, queue, all, {}) && n > 1
      requires pending == CutAt(before, locals, n) && total == Total(pending) && Reaching(before, locals, n, offenders)
      modifies this`pending, this`all, this`managed, priced
      ensures Inv(pending, queue, all, {}) && all <= old(all)
      ensures pending == CutAt(before, locals, n - 1) && total' == Total(pending)
      ensures Fallen(state, old(pending), pending, old(managed), managed)
      ensures KeepsCover(old(all), old(priced.items), all, priced.items)
      ensures KeepsOrder(state, maxGas, {}, old(Tables()), Tables())
    {
      hide *;
      SameCover(all, priced.items);
      SameOrder(state, maxGas, Tables());
      RoundBegins(before, locals, n);
      FallenNone(state, pending, managed);
      assert offenders[..0] == [];
      total' := total;
      var i := 0;
      while i < |offenders|
        invariant 0 <= i <= |offenders|
        invariant Inv(pending, queue, all, {}) && all <= old(all)
        invariant pending == CutPartly(before, locals, n, AddressesOf(offenders[..i])) && total' == Total(pending)
        invariant Fallen(state, old(pending), pending, old(managed), managed)
        invariant KeepsCover(old(all), old(priced.items), all, priced.items)
        invariant KeepsOrder(state, maxGas, {}, old(Tables()), Tables())
      {
        NextToCut(before, locals, n, offenders, i);
        ghost var items, all1, b1, p1, m1 := priced.items, all, Tables(), pending, managed;
        DropHighest(offenders[i]);
        FallenTwice(state, old(pending), p1, pending, old(managed), m1, managed);
        CoverTransitive(old(all), old(priced.items), all1, items, all, priced.items);
        OrderChain(state, maxGas, old(Tables()), b1, Tables());
        total' := total' - 1;
        i := i + 1;
      }
      assert offenders[..|offenders|] == offenders;
      RoundOver(before, locals, n, offenders);
    }

    /** The equalizing inner loop: rounds over the earlier offenders until they reach the newest one's length. */
    method EqualizeTo(earlier: seq<Address>, threshold: nat, total: nat, ghost before: Lists, ghost n: nat)
      returns (total': nat, ghost n': nat)
      requires Inv(pending, queue, all, {}) && config.Sane() && earlier != []
      requires Leveled(before, pending, locals, config.accountSlots, config.globalSlots, earlier, threshold, total, n)
      modifies this`pending, this`all, this`managed, priced
      ensures Inv(pending, queue, all, {}) && all <= old(all)
      ensures Leveled(before, pending, locals, config.accountSlots, config.globalSlots, earlier, threshold, total', n')
      ensures total' <= config.globalSlots || n' == threshold
      ensures Fallen(state, old(pending), pending, old(managed), managed)
      ensures KeepsCover(old(all), old(priced.items), all, priced.items)
      ensures KeepsOrder(state, maxGas, {}, old(Tables()), Tables())
    {
      hide *;
      SameCover(all, priced.items);
      SameOrder(state, maxGas, Tables());
      FallenNone(state, pending, managed);
      total', n' := total, n;
      LevelOfLast(before, pending, locals, config, earlier, threshold, total', n');
      while total' > config.globalSlots && |pending[earlier[|earlier| - 1]]| > threshold
        invariant Inv(pending, queue, all, {}) && all <= old(all)
        invariant Leveled(before, pending, locals, config.accountSlots, config.globalSlots, earlier, threshold, total',
                          n')
        invariant earlier[|earlier| - 1] in pending && |pending[earlier[|earlier| - 1]]| == n' >= threshold
        invariant Fallen(state, old(pending), pending, old(managed), managed)
        invariant KeepsCover(old(all), old(priced.items), all, priced.items)
        invariant KeepsOrder(state, maxGas, {}, old(Tables()), Tables())
        decreases n'
      {
        LeveledRound(before, pending, locals, config, earlier, threshold, total', n');
        ghost var items, all1, b1, p1, m1 := priced.items, all, Tables(), pending, managed;
        total' := CutRound(earlier, total', before, n');
        FallenTwice(state, old(pending), p1, pending, old(managed), m1, managed);
        CoverTransitive(old(all), old(priced.items), all1, items, all, priced.items);
        OrderChain(state, maxGas, old(Tables()), b1, Tables());
        n' := n' - 1;
        LeveledAfter(before, pending, locals, config, earlier, threshold, total', n');
        LevelOfLast(before, pending, locals, config, earlier, threshold, total', n');
      }
    }

    /** One turn of the outer loop: pops an account of greatest length and brings the earlier offenders down to it. */
    method PunishNext(spammers: set<Address>, offenders: seq<Address>, lengths: map<Address, nat>, total: nat,
                      ghost before: Lists, ghost n: nat)
      returns (offender: Address, total': nat, ghost n': nat)
      requires Inv(pending, queue, all, {}) && config.Sane() && total > config.globalSlots && spammers != {}
      requires lengths == map a | a in before :: |before[a]|
      requires Equalizing(before, pending, locals, config.accountSlots, config.globalSlots, spammers, offenders, total,
                          n)
      modifies this`pending, this`all, this`managed, priced
      ensures Inv(pending, queue, all, {}) && all <= old(all) && offender in spammers
      ensures Equalizing(before, pending, locals, config.accountSlots, config.globalSlots, spammers - {offender},
                         offenders + [offender], total', n')
      ensures Fallen(state, old(pending), pending, old(managed), managed)
      ensures KeepsCover(old(all), old(priced.items), all, priced.items)
      ensures KeepsOrder(state, maxGas, {}, old(Tables()), Tables())
    {
      hide *;
      SameCover(all, priced.items);
      SameOrder(state, maxGas, Tables());
      FallenNone(state, pending, managed);
      SpammersCounted(before, pending, locals, config, spammers, offenders, total, n, lengths);
      MostExistsIn(lengths, spammers);
      offender :| offender in spammers && forall b :: b in spammers ==> lengths[b] <= lengths[offender];
      NextOffender(before, pending, locals, config, spammers, offenders, total, n, offender, lengths);
      EqualizingParts(before, pending, locals, config, spammers, offenders, total, n, offender, lengths);
      if |offenders| > 0 {
        total', n' := EqualizeTo(offenders, |pending[offender]|, total, before, n);
        OffenderJoins(before, pending, locals, config, spammers, offenders, total', n', offender);
      } else {
        assert offenders + [offender] == [offender];
        total', n' := total, lengths[offender];
      }
    }

    /** The first half of promoteExecutables' truncation: equalizes the largest remote accounts until the total fits. */
    method TruncatePending()
      requires Inv(pending, queue, all, {}) && config.Sane()
      modifies this`pending, this`all, this`managed, priced
      ensures Inv(pending, queue, all, {}) && all <= old(all)
      ensures Fair(old(pending), pending, locals, config.accountSlots, config.globalSlots)
      ensures Fallen(state, old(pending), pending, old(managed), managed)
      ensures KeepsCover(old(all), old(priced.items), all, priced.items)
      ensures KeepsOrder(state, maxGas, {}, old(Tables()), Tables())
    {
      hide *;
      SameCover(all, priced.items);
      SameOrder(state, maxGas, Tables());
      FallenNone(state, pending, managed);
      ghost var before := pending;
      var total: nat := Count(pending);
      if total <= config.globalSlots {
        Untouched(before, locals, config.accountSlots, config.globalSlots);
        return;
      }
      var lengths := map a | a in pending :: |pending[a]|;
      var spammers := set a | a in pending && a !in locals && |pending[a]| > config.accountSlots;
      var offenders: seq<Address> := [];
      ghost var n: nat := 0;
      EqualizingStarts(before, locals, config, spammers, total);
      while total > config.globalSlots && spammers != {}
        invariant Inv(pending, queue, all, {}) && all <= old(all)
        invariant Equalizing(before, pending, locals, config.accountSlots, config.globalSlots, spammers, offenders,
                             total, n)
        invariant Fallen(state, old(pending), pending, old(managed), managed)
        invariant KeepsCover(old(all), old(priced.items), all, priced.items)
        invariant KeepsOrder(state, maxGas, {}, old(Tables()), Tables())
        decreases spammers
      {
        ghost var items, all1, b1, p1, m1 := priced.items, all, Tables(), pending, managed;
        var offender;
        offender, total, n := PunishNext(spammers, offenders, lengths, total, before, n);
        FallenTwice(state, old(pending), p1, pending, old(managed), m1, managed);
        CoverTransitive(old(all), old(priced.items), all1, items, all, priced.items);
        OrderChain(state, maxGas, old(Tables()), b1, Tables());
        spammers := spammers - {offender};
        offenders := offenders + [offender];
      }
      if total > config.globalSlots && |offenders| > 0 {
        ghost var items, all1, b1, p1, m1 := priced.items, all, Tables(), pending, managed;
        AllOffenders(before, pending, locals, config, offenders, total, n);
        total, n := EqualizeTo(offenders, config.accountSlots, total, before, n);
        FallenTwice(state, old(pending), p1, pending, old(managed), m1, managed);
        CoverTransitive(old(all), old(priced.items), all1, items, all, priced.items);
        OrderChain(state, maxGas, old(Tables()), b1, Tables());
        FloorReached(before, pending, locals, config, offenders, total, n);
      } else {
        EqualizingEnds(before, pending, locals, config, spammers, offenders, total, n);
      }
    }

    /** Removes the whole queue of an account, transaction by transaction. */
    method RemoveQueue(addr: Address)
      requires Inv(pending, queue, all, {}) && addr in queue
      modifies this`all, this`pending, this`queue, this`beats, this`managed, priced
      ensures Inv(pending, queue, all, {}) && all <= old(all)
      ensures pending == old(pending) && beats == old(beats) && managed == old(managed) && queue == old(queue) - {addr}
      ensures KeepsCover(old(all), old(priced.items), all, priced.items)
    {
      hide *;
      SameCover(all, priced.items);
      OwnedHere(pending, queue, all, addr);
      QueueStarts(pending, queue, all, addr);
      var txs := SortedMaps.SortByNonce(queue[addr]);
      ghost var left := queue[addr];
      assert txs[0..] == txs;
      var i := 0;
      while i < |txs|
        invariant 0 <= i <= |txs| && Sorted(txs[i..], left)
        invariant Inv(pending, queue, all, {}) && all <= old(all)
        invariant pending == old(pending) && beats == old(beats) && managed == old(managed)
        invariant queue == SetList(old(queue), addr, left) && OwnedBy(left, addr)
        invariant KeepsCover(old(all), old(priced.items), all, priced.items)
      {
        LowestLeaves(pending, queue, all, old(queue), addr, txs, i, left);
        ghost var items, all1 := priced.items, all;
        RemoveTx(txs[i], true);
        CoverTransitive(old(all), old(priced.items), all1, items, all, priced.items);
        left := left - {txs[i].nonce};
        i := i + 1;
      }
      NoneListed(old(queue), addr, txs, left);
    }

    /** Removes the transactions of highest nonce from an account's queue, as many as are to be dropped. */
    method RemoveLast(addr: Address, drop: nat)
      requires Inv(pending, queue, all, {}) && addr in queue && drop < |queue[addr]|
      modifies this`all, this`pending, this`queue, this`beats, this`managed, priced
      ensures Inv(pending, queue, all, {}) && all <= old(all)
      ensures pending == old(pending) && beats == old(beats) && managed == old(managed)
      ensures queue == old(queue)[addr := CapTo(old(queue)[addr], |old(queue)[addr]| - drop)]
      ensures KeepsCover(old(all), old(priced.items), all, priced.items)
    {
      hide *;
      SameCover(all, priced.items);
      OwnedHere(pending, queue, all, addr);
      QueueStarts(pending, queue, all, addr);
      var txs := SortedMaps.SortByNonce(queue[addr]);
      ghost var left := queue[addr];
      CapStarts(txs, left);
      var i, todo := |txs|, drop;
      while i > 0 && todo > 0
        invariant 0 <= i <= |txs| && todo == drop - (|txs| - i) && Sorted(txs[..i], left)
        invariant left == CapTo(old(queue)[addr], i)
        invariant Inv(pending, queue, all, {}) && all <= old(all)
        invariant pending == old(pending) && beats == old(beats) && managed == old(managed)
        invariant queue == SetList(old(queue), addr, left) && OwnedBy(left, addr)
        invariant KeepsCover(old(all), old(priced.items), all, priced.items)
        decreases i
      {
        HighestLeaves(pending, queue, all, old(queue), addr, txs, i, left);
        ghost var items, all1 := priced.items, all;
        RemoveTx(txs[i - 1], true);
        CoverTransitive(old(all), old(priced.items), all1, items, all, priced.items);
        left := left - {txs[i - 1].nonce};
        i := i - 1;
        todo := todo - 1;
      }
      SomeListed(old(queue), addr, txs, i, left);
    }

    /** The second half of promoteExecutables' truncation: drops queued transactions of the accounts heard of last. */
    method TruncateQueue()
      requires Inv(pending, queue, all, {}) && config.Sane()
      modifies this`all, this`pending, this`queue, this`beats, this`managed, priced
      ensures Inv(pending, queue, all, {}) && all <= old(all)
      ensures pending == old(pending) && beats == old(beats) && managed == old(managed)
      ensures QueueCut(old(queue), queue, locals, beats, config.globalQueue)
      ensures KeepsCover(old(all), old(priced.items), all, priced.items)
    {
      hide *;
      SameCover(all, priced.items);
      var queued: nat := Count(queue);
      if queued <= config.globalQueue {
        QueueFits(queue, locals, beats, config.globalQueue);
        return;
      }
      var addresses := SortByHeartbeat((set a | a in queue && a !in locals), beats);
      var drop: nat := queued - config.globalQueue;
      CuttingStarts(queue, locals, beats, config.globalQueue, addresses, drop);
      while drop > 0 && |addresses| > 0
        invariant Inv(pending, queue, all, {}) && all <= old(all)
        invariant pending == old(pending) && beats == old(beats) && managed == old(managed)
        invariant Cutting(old(queue), queue, locals, beats, config.globalQueue, addresses, drop)
        invariant KeepsCover(old(all), old(priced.items), all, priced.items)
        decreases |addresses|
      {
        var addr := addresses[|addresses| - 1];
        CuttingStep(old(queue), queue, locals, beats, config.globalQueue, addresses, drop);
        addresses := addresses[..|addresses| - 1];
        ghost var items, all1 := priced.items, all;
        var size: nat := |queue[addr]|;
        if size <= drop {
          RemoveQueue(addr);
          drop := drop - size;
        } else {
          RemoveLast(addr, drop);
          drop := 0;
        }
        CoverTransitive(old(all), old(priced.items), all1, items, all, priced.items);
      }
      CuttingEnds(old(queue), queue, locals, beats, config.globalQueue, addresses, drop);
    }

    /** The first part of promoteExecutables: promotes the given accounts, in any order. */
    method PromoteAccounts(accounts: set<Address>, now: int)
      requires Inv(pending, queue, all, {})
      modifies this`pending, this`queue, this`all, this`beats, this`managed, priced
      ensures Inv(pending, queue, all, {}) && all <= old(all)
      ensures Promoted(CurrentRules(), old(pending), old(queue), old(managed), pending, queue, managed, accounts)
      ensures Moved(CurrentRules(), old(queue), old(managed), managed, accounts)
      ensures Heard(old(beats), beats, Runners(CurrentRules(), old(queue), old(managed), accounts), now)
      ensures KeepsCover(old(all), old(priced.items), all, priced.items)
      ensures KeepsOrder(state, maxGas, {}, old(Tables()), Tables())
      ensures TightBook(old(Tables()), state) ==> AllSettled(Tables(), state, accounts)
    {
      hide *;
      SameCover(all, priced.items);
      RulesAre();
      TablesAre();
      SameOrder(state, maxGas, Tables());
      NoneSettled(Tables(), state);
      ghost var done: set<Address> := {};
      PromotedNone(CurrentRules(), pending, queue, managed);
      HeardNone(CurrentRules(), queue, managed, beats, now);
      var todo := accounts;
      while todo != {}
        invariant done + todo == accounts && done !! todo
        invariant Inv(pending, queue, all, {}) && all <= old(all)
        invariant Promoted(CurrentRules(), old(pending), old(queue), old(managed), pending, queue, managed, done)
        invariant Moved(CurrentRules(), old(queue), old(managed), managed, done)
        invariant Heard(old(beats), beats, Runners(CurrentRules(), old(queue), old(managed), done), now)
        invariant KeepsCover(old(all), old(priced.items), all, priced.items)
        invariant KeepsOrder(state, maxGas, {}, old(Tables()), Tables())
        invariant TightBook(old(Tables()), state) ==> AllSettled(Tables(), state, done)
        decreases todo
      {
        var addr :| addr in todo;
        ghost var items, all1, p, q, m, b := priced.items, all, pending, queue, managed, beats;
        ghost var b1 := Tables();
        TablesAre();
        PromotionHere(CurrentRules(), queue, managed, addr);
        PromoteAccount(addr, now);
        SettledMore(state, maxGas, old(Tables()), b1, Tables(), done, addr);
        OneMorePromoted(CurrentRules(), old(pending), old(queue), old(managed), old(beats), p, q, m, b, done, addr,
                        now, pending, queue, managed, beats);
        CoverTransitive(old(all), old(priced.items), all1, items, all, priced.items);
        todo := todo - {addr};
        done := done + {addr};
      }
      assert done == accounts;
    }

    /** promoteExecutables: promotes the given accounts and then truncates what is over the limits. */
    method PromoteExecutables(accounts: set<Address>, now: int) returns (ghost mid: Snap)
      requires Inv(pending, queue, all, {}) && config.Sane()
      modifies this`pending, this`queue, this`all, this`beats, this`managed, priced
      ensures Inv(pending, queue, all, {}) && all <= old(all)
      ensures Advances(config, old(Snapshot()), accounts, now, mid, Snapshot())
      ensures KeepsCover(old(all), old(priced.items), all, priced.items)
      ensures KeepsOrder(state, maxGas, {}, old(Tables()), Tables())
      ensures old(TightNow()) ==> AllSettled(Tables(), state, accounts)
    {
      hide *;
      TablesAre();
      SnapshotIs();
      PromoteAccounts(accounts, now);
      mid := Snapshot();
      SnapshotIs();
      RulesAre();
      ghost var items, all1, b1 := priced.items, all, Tables();
      TruncatePending();
      CoverTransitive(old(all), old(priced.items), all1, items, all, priced.items);
      SettledStay(state, maxGas, old(Tables()), b1, Tables(), accounts);
      ghost var items2, all2, b2 := priced.items, all, Tables();
      TablesAre();
      TruncateQueue();
      TablesAre();
      OrderOnQueueLoss(state, maxGas, b2, all2, Tables(), all);
      SettledStay(state, maxGas, old(Tables()), b2, Tables(), accounts);
      CoverTransitive(old(all), old(priced.items), all2, items2, all, priced.items);
      SnapshotIs();
      RecordsAre(config, old(Snapshot()), accounts, now, mid, Snapshot());
      AdvancesIs(config, old(Snapshot()), accounts, now, mid, Snapshot());
    }

    ghost function CurrentRules(): Rules
      reads this`state, this`maxGas, this`locals
    {
      Rules(state, maxGas, config.accountQueue, locals)
    }

    lemma RulesAre()
      ensures CurrentRules() == Rules(state, maxGas, config.accountQueue, locals)
    {
    }

    /** Cuts a pending list down and forgets what is cut off. */
    method ShrinkPending(addr: Address, rest: Items)
      requires Inv(pending, queue, all, {}) && SubItems(rest, ListOf(pending, addr))
      modifies this`pending, this`all, priced
      ensures Inv(pending, queue, all, {}) && pending == SetList(old(pending), addr, rest)
      ensures all == old(all) - Values(Minus(ListOf(old(pending), addr), rest))
      ensures KeepsCover(old(all), old(priced.items), all, priced.items)
    {
      hide *;
      TakePending(pending, queue, all, {}, addr, rest);
      var drops := ListAny(Minus(ListOf(pending, addr), rest));
      pending := SetList(pending, addr, rest);
      Forget(pending, queue, all, {} + TxSet(drops), TxSet(drops));
      assert {} + TxSet(drops) - TxSet(drops) == {};
      DropAll(drops);
    }

    /** Filter on a pending list: drops what cannot be paid for and queues what came after it. */
    method FilterPending(addr: Address, l1: Items)
      requires Inv(pending, queue, all, {}) && ListOf(pending, addr) == l1 && OwnedBy(l1, addr) && Keyed(l1)
      requires forall n :: n in l1 ==> state(addr).nonce <= n
      modifies this`pending, this`queue, this`all, priced
      ensures Inv(pending, queue, all, {})
      ensures pending == SetList(old(pending), addr, Affordable(l1, state(addr).balance, maxGas, true))
      ensures all == old(all) - Values(Dear(l1, state(addr).balance, maxGas))
      ensures KeepsCover(old(all), old(priced.items), all, priced.items)
    {
      hide *;
      var acct := state(addr);
      FilterParts(addr, l1, acct, maxGas);
      var l2 := Affordable(l1, acct.balance, maxGas, true);
      TakePending(pending, queue, all, {}, addr, l2);
      var drops := ListAny(Dear(l1, acct.balance, maxGas));
      pending := SetList(pending, addr, l2);
      Forget(pending, queue, all, {} + Values(Minus(l1, l2)), TxSet(drops));
      DropAll(drops);
      var invalids := ListAny(Minus(Minus(l1, l2), Dear(l1, acct.balance, maxGas)));
      assert {} + Values(Minus(l1, l2)) - TxSet(drops) == TxSet(invalids);
      ghost var items := priced.items;
      EnqueueAll(invalids, TxSet(invalids));
      CoverTransitive(old(all), old(priced.items), all, items, all, priced.items);
    }

    /** One account of demoteUnexecutables. */
    method DemoteAccount(addr: Address)
      requires Inv(pending, queue, all, {}) && addr in pending
      modifies this`pending, this`queue, this`all, this`beats, priced
      ensures Inv(pending, queue, all, {})
      ensures pending == SetList(old(pending), addr, StaysPending(old(pending)[addr], state(addr), maxGas))
      ensures all == old(all) - Values(UselessItems(old(pending)[addr], state(addr), maxGas))
      ensures beats == if addr in pending then old(beats) else old(beats) - {addr}
      ensures KeepsCover(old(all), old(priced.items), all, priced.items)
    {
      hide *;
      var acct := state(addr);
      var list := pending[addr];
      InTable(pending, addr);
      OwnedHere(pending, queue, all, addr);
      DemotionParts(addr, list, acct, maxGas);
      var l1 := From(list, acct.nonce);
      ShrinkPending(addr, l1);
      ListOfSet(old(pending), addr, l1, addr);
      ghost var items1, all1 := priced.items, all;
      var l2 := Affordable(l1, acct.balance, maxGas, true);
      FilterPending(addr, l1);
      CoverTransitive(old(all), old(priced.items), all1, items1, all, priced.items);
      SetTwice(old(pending), addr, l1, l2);
      ListOfSet(old(pending), addr, l2, addr);
      assert all == old(all) - Values(UselessItems(list, acct, maxGas));
      var stays := l2;
      if |l2| > 0 && acct.nonce !in l2 {
        stays := map[];
        TakeWhole(pending, queue, all, addr, l2);
        pending := SetList(pending, addr, map[]);
        SetTwice(old(pending), addr, l2, map[]);
        var postponed := ListAny(l2);
        ghost var items2 := priced.items;
        EnqueueAll(postponed, TxSet(postponed));
        CoverTransitive(old(all), old(priced.items), all, items2, all, priced.items);
      }
      StaysIs(list, acct, maxGas, l2, stays);
      SetMeans(old(pending), addr, stays);
      if stays == map[] {
        beats := beats - {addr};
      }
    }

    /** demoteUnexecutables: what the state leaves runnable stays pending, what it makes
        useless goes, the rest is queued. */
    method DemoteUnexecutables()
      requires Inv(pending, queue, all, {})
      modifies this`pending, this`queue, this`all, this`beats, priced
      ensures Inv(pending, queue, all, {})
      ensures forall a: Address :: StayedAt(old(pending), pending, state, maxGas, a)
      ensures forall tx :: tx in all <==> tx in old(all) && !UselessIn(old(pending), tx, state, maxGas)
      ensures BeatsFollow(old(pending), pending, old(beats), beats)
      ensures KeepsCover(old(all), old(priced.items), all, priced.items)
    {
      hide *;
      SameCover(all, priced.items);
      BeatsSame(pending, beats);
      DemotingStarts(pending, all, state, maxGas);
      WellFormedPending(pending, queue, all);
      var todo := pending.Keys;
      while todo != {}
        invariant Inv(pending, queue, all, {}) && todo <= old(pending).Keys
        invariant DemotedLists(old(pending), pending, state, maxGas, todo)
        invariant DemotedLookup(old(pending), old(all), all, state, maxGas, todo)
        invariant pending.Keys <= old(pending).Keys && BeatsFollow(old(pending), pending, old(beats), beats)
        invariant KeepsCover(old(all), old(priced.items), all, priced.items)
        decreases todo
      {
        var addr :| addr in todo;
        ListsStep(old(pending), pending, state, maxGas, todo, addr);
        LookupStep(old(pending), old(all), all, state, maxGas, todo, addr);
        StillListed(old(pending), pending, addr);
        BeatsFollowOne(old(pending), pending, old(beats), beats, addr,
                       StaysPending(pending[addr], state(addr), maxGas));
        ghost var items, all1 := priced.items, all;
        DemoteAccount(addr);
        CoverTransitive(old(all), old(priced.items), all1, items, all, priced.items);
        todo := todo - {addr};
      }
      DemotingEnds(old(pending), old(all), pending, all, state, maxGas);
    }

    function Validate(tx: Tx, local: bool): Verdict
      reads this
    {
      ValidateIn(checks, Snapshot(), tx, local)
    }

    /** Removes transactions that are already out of the price heap. */
    method RemoveAll(drop: seq<Tx>)
      requires Inv(pending, queue, all, {}) && CoveredWith(all, priced.items, drop)
      modifies this`all, this`pending, this`queue, this`beats, this`managed, priced
      ensures Inv(pending, queue, all, {}) && Covered(all, priced.items)
      ensures all == old(all) - TxSet(drop)
      ensures Removal(state, TxSet(drop), old(pending), old(managed), old(beats), pending, managed, beats)
      ensures KeepsOrder(state, maxGas, {}, old(Tables()), Tables())
    {
      hide *;
      SameOrder(state, maxGas, Tables());
      TakeNone(all, drop);
      RemovalNone(state, pending, managed, beats);
      WellFormedPending(pending, queue, all);
      var i := 0;
      while i < |drop|
        invariant 0 <= i <= |drop|
        invariant Inv(pending, queue, all, {}) && CoveredWith(all, priced.items, drop)
        invariant all == old(all) - TxSet(drop[..i])
        invariant Removal(state, TxSet(drop[..i]), old(pending), old(managed), old(beats), pending, managed, beats)
        invariant KeepsOrder(state, maxGas, {}, old(Tables()), Tables())
      {
        ghost var items, all1, b1 := priced.items, all, Tables();
        TakeNext(old(all), drop, i);
        RemovalNext(state, TxSet(drop[..i]), old(pending), old(managed), old(beats), pending, queue, all, managed,
                    beats, drop[i]);
        RemoveTx(drop[i], false);
        OrderChain(state, maxGas, old(Tables()), b1, Tables());
        StillCovered(all1, items, all, priced.items, drop);
        i := i + 1;
      }
      assert drop[..|drop|] == drop;
      CoveredFully(all, priced.items, drop);
    }

    /** Discards the cheapest remote transactions of a full pool, as many as are over the limit. */
    method DropCheapest() returns (ghost dropped: set<Tx>)
      requires Valid() && Full(config, all)
      modifies this`all, this`pending, this`queue, this`beats, this`managed, priced
      ensures Valid() && all == old(all) - dropped && CheapestGone(old(all), dropped, locals)
      ensures MakesRoom(config, old(Snapshot()), Snapshot())
      ensures dropped != {} <==> exists t :: t in old(all) && !IsLocal(locals, t)
      ensures KeepsOrder(state, maxGas, {}, old(Tables()), Tables())
    {
      hide *;
      ValidFolded();
      TablesAre();
      SnapshotIs();
      var drop := priced.Discard(Excess(config, all), all, locals);
      TablesAre();
      CheapestDropped(all, drop, locals);
      SomeDropped(config, all, drop, locals);
      dropped := TxSet(drop);
      RemoveAll(drop);
      ValidFolded();
      SnapshotIs();
      RemovedInIs(old(Snapshot()), dropped, Snapshot());
      RoomIs(config, old(Snapshot()), dropped, Snapshot());
    }

    /** The full pool's branch of add: refuses a remote transaction no dearer than all others,
        or drops the cheapest ones. */
    method MakeRoom(tx: Tx, local: bool) returns (underpriced: bool, ghost dropped: set<Tx>)
      requires Valid()
      modifies this`all, this`pending, this`queue, this`beats, this`managed, priced
      ensures Valid() && all == old(all) - dropped && CheapestGone(old(all), dropped, locals)
      ensures underpriced <==> Full(config, old(all)) && !local && !IsLocal(locals, tx) && CheaperThanAll(tx, old(all))
      ensures underpriced || !Full(config, old(all)) ==> Snapshot() == old(Snapshot())
      ensures !underpriced ==> MakesRoom(config, old(Snapshot()), Snapshot())
      ensures dropped != {} <==>
        Full(config, old(all)) && !underpriced && exists t :: t in old(all) && !IsLocal(locals, t)
      ensures KeepsOrder(state, maxGas, {}, old(Tables()), Tables())
    {
      hide *;
      ValidFolded();
      TablesAre();
      SnapshotIs();
      SameOrder(state, maxGas, Tables());
      NothingDropped(all, locals);
      FullMeans(config, all);
      underpriced, dropped := false, {};
      if |all| < config.globalSlots + config.globalQueue {
        RoomAsIs(config, Snapshot());
        return;
      }
      CheaperMeans(tx, all);
      if !local {
        underpriced := priced.Underpriced(tx, all, locals);
        if underpriced {
          TablesAre();
          SnapshotIs();
          ValidFolded();
          return;
        }
      }
      TablesAre();
      SnapshotIs();
      ValidFolded();
      dropped := DropCheapest();
    }

    /** The end of add: takes the slot of a pending transaction by outbidding it, or else goes to the queue. */
    method Insert(tx: Tx) returns (queued: bool, r: Added)
      requires Valid() && tx !in all && !Useless(tx, state(tx.from), maxGas)
      modifies this`all, this`pending, this`queue, priced
      ensures Valid() && Replaces(old(all), tx, config.priceBump, r)
      ensures all == if r.inserted then old(all) - ReplacedSet(r.replaced) + {tx} else old(all)
      ensures !r.inserted ==> pending == old(pending) && queue == old(queue)
      ensures queued <==> !Taken(old(pending), tx)
      ensures r.inserted ==> if queued then Holds(queue, tx) else Holds(pending, tx)
      ensures r == AddTo(Destination(old(Snapshot()), tx), tx, config.priceBump)
      ensures InsertedBy(config, old(Snapshot()), tx, r, Snapshot())
      ensures KeepsOrder(state, maxGas, Unsettled(tx, r), old(Tables()), Tables())
    {
      hide *;
      ValidFolded();
      TablesAre();
      SnapshotIs();
      InsertedByIs(config, Snapshot(), tx);
      SameOrder(state, maxGas, Tables());
      SameCover(all, priced.items);
      TakenMeans(pending, tx);
      if tx.from in pending && tx.nonce in pending[tx.from] {
        Outpriced(pending, queue, all, tx, config.priceBump);
        ReplaceTight(pending, state, managed, tx, config.priceBump);
        r := AddTo(pending[tx.from], tx, config.priceBump);
        InsertedHere(pending[tx.from], tx, config.priceBump);
        if !r.inserted {
          return false, r;
        }
        BookTight(state, Tables());
        ReplacedOne(r);
        ShrinkCover(all, priced.items, all, priced.items, all - {r.replaced.value});
        pending := SetList(pending, tx.from, r.items);
        HeldAfter(old(pending), tx, r.items);
        all := all - {r.replaced.value};
        ghost var items := priced.items;
        priced.Removed(all);
        RemovedCover(old(all), old(priced.items), all, items, priced.items);
        GrowCover(old(all), old(priced.items), all, priced.items, tx);
        all := all + {tx};
        priced.Put(tx);
        StillCovered(old(all), old(priced.items), all, priced.items, []);
        ValidFolded();
        TablesAre();
        SnapshotIs();
        BookTight(state, Tables());
        OrderOnReplacement(state, maxGas, old(Tables()), Tables(), tx);
        return false, r;
      }
      Enqueued(pending, queue, all, tx, config.priceBump);
      r := AddTo(ListOf(queue, tx.from), tx, config.priceBump);
      InsertedHere(ListOf(queue, tx.from), tx, config.priceBump);
      var _, _ := EnqueueTx(tx);
      StillCovered(old(all), old(priced.items), all, priced.items, []);
      ValidFolded();
      TablesAre();
      SnapshotIs();
      if r.inserted {
        HeldAfter(old(queue), tx, r.items);
        OrderOnArrival(state, maxGas, old(Tables()), Tables(), tx);
      }
      return true, r;
    }

    /** add: validates a transaction and puts it in the place of a pending one, or else in the queue. */
    method Add(tx: Tx, local: bool)
      returns (replaced: bool, verdict: Verdict, ghost dropped: set<Tx>, ghost r: Added, ghost queued: bool,
               ghost room: Snap)
      requires Valid()
      modifies this`all, this`pending, this`queue, this`beats, this`managed, this`locals, priced
      ensures Valid() && CheapestGone(old(all), dropped, old(locals))
      ensures verdict == Accepted ==> if queued then Holds(queue, tx) else Holds(pending, tx)
      ensures locals == old(locals) + if verdict == Accepted && local && queued then {tx.from} else {}
      ensures tx in old(all) ==> verdict == KnownTransaction
      ensures tx !in old(all) && old(Validate(tx, local)) != Accepted ==> verdict == old(Validate(tx, local))
      ensures tx !in old(all) && old(Validate(tx, local)) == Accepted ==>
        if Full(config, old(all)) && !local && !IsLocal(old(locals), tx) && CheaperThanAll(tx, old(all))
        then verdict == UnderpricedTx
        else (verdict == Accepted || verdict == ReplaceUnderpriced)
             && Replaces(old(all) - dropped, tx, config.priceBump, r)
      ensures (verdict != Accepted && verdict != ReplaceUnderpriced) || !Full(config, old(all)) ==>
        dropped == {} && (!r.inserted ==> pending == old(pending) && queue == old(queue))
      ensures verdict == Accepted <==> r.inserted
      ensures replaced == r.replaced.Some?
      ensures all == if r.inserted then old(all) - dropped - ReplacedSet(r.replaced) + {tx} else old(all) - dropped
      ensures Adds(config, checks, old(Snapshot()), tx, local, verdict, room, Snapshot())
      ensures replaced <==> verdict == Accepted && tx.nonce in Destination(room, tx)
      ensures Bounded(config, old(Snapshot())) ==> Bounded(config, Snapshot())
      ensures verdict == ReplaceUnderpriced ==>
        (all == old(all) <==> !Full(config, old(all)) || forall t :: t in old(all) ==> IsLocal(old(locals), t))
      ensures KeepsOrder(state, maxGas, if verdict == Accepted && !replaced then {tx.from} else {}, old(Tables()),
                         Tables())
    {
      hide *;
      SameOrder(state, maxGas, Tables());
      NothingDropped(all, locals);
      dropped, r, queued, room := {}, Added(false, None, map[]), false, Snapshot();
      ValidFolded();
      assert locals + {} == locals;
      SnapshotIs();
      if tx in all {
        AddsRefused(config, checks, room, tx, local, KnownTransaction);
        return false, KnownTransaction, dropped, r, queued, room;
      }
      verdict := Validate(tx, local);
      ValidateIs(tx, local);
      if verdict != Accepted {
        AddsRefused(config, checks, room, tx, local, verdict);
        return false, verdict, dropped, r, queued, room;
      }
      UnwelcomeIs(config, room, tx, local);
      ValidatedRuns(tx, local);
      var underpriced;
      underpriced, dropped := MakeRoom(tx, local);
      SnapshotIs();
      if underpriced {
        AddsRefused(config, checks, room, tx, local, UnderpricedTx);
        return false, UnderpricedTx, dropped, r, queued, room;
      }
      StillUnknown(old(all), dropped, tx);
      CostOfRoom(config, old(all), dropped, locals);
      room := Snapshot();
      ghost var b1 := Tables();
      var toQueue, added := Insert(tx);
      queued := toQueue;
      UnsettledIs(tx, added);
      OrderTransitive(state, maxGas, {}, Unsettled(tx, added), old(Tables()), b1, Tables());
      assert {} + Unsettled(tx, added) == Unsettled(tx, added);
      ReplacesOnlyIn(old(all) - dropped, tx, config.priceBump, added);
      r := added;
      SnapshotIs();
      ghost var s1 := Snapshot();
      if !added.inserted {
        InsertedRefused(config, room, tx, local, r, s1);
        AddsDecided(config, checks, old(Snapshot()), tx, local, ReplaceUnderpriced, room, s1);
        ValidFolded();
        AddsBounded(config, checks, old(Snapshot()), tx, local, ReplaceUnderpriced, room, s1);
        return false, ReplaceUnderpriced, dropped, r, queued, room;
      }
      if local && toQueue {
        ValidFolded();
        TablesAre();
        locals := locals + {tx.from};
        ValidFolded();
        TablesAre();
      }
      SnapshotIs();
      InsertedAccepted(config, room, tx, local, r, s1, Snapshot());
      AddsDecided(config, checks, old(Snapshot()), tx, local, Accepted, room, Snapshot());
      ValidFolded();
      AddsBounded(config, checks, old(Snapshot()), tx, local, Accepted, room, Snapshot());
      return added.replaced.Some?, Accepted, dropped, r, queued, room;
    }

    /** add, with the log of its one step. */
    method AddLogged(tx: Tx, local: bool) returns (replaced: bool, verdict: Verdict, ghost log: Log)
      requires Valid()
      modifies this`all, this`pending, this`queue, this`beats, this`managed, this`locals, priced
      ensures Valid() && all <= old(all) + if verdict == Accepted then {tx} else {}
      ensures tx in old(all) ==> verdict == KnownTransaction
      ensures tx !in old(all) && old(Validate(tx, local)) != Accepted ==> verdict == old(Validate(tx, local))
      ensures tx !in old(all) && old(Validate(tx, local)) == Accepted ==>
        verdict in {Accepted, UnderpricedTx, ReplaceUnderpriced}
      ensures Leads(config, checks, old(Snapshot()), log, Snapshot())
      ensures AddsEach([tx], local, log.events) && Verdicts([verdict], log.events)
      ensures NewSenders(log.events) == if verdict == Accepted && !replaced then {tx.from} else {}
      ensures KeepsOrder(state, maxGas, if verdict == Accepted && !replaced then {tx.from} else {},
                         old(Tables()), Tables())
    {
      hide *;
      ghost var dropped: set<Tx>, r: Added, queued: bool, room: Snap;
      ValidFolded();
      SnapshotIs();
      replaced, verdict, dropped, r, queued, room := Add(tx, local);
      ValidFolded();
      SnapshotIs();
      log := AddingOne(config, checks, old(Snapshot()), tx, local, verdict, room, Snapshot());
    }

    /** addTx */
    method AddTx(tx: Tx, local: bool, now: int) returns (verdict: Verdict, ghost log: Log)
      requires Valid()
      modifies this`all, this`pending, this`queue, this`beats, this`managed, this`locals, priced
      ensures Valid() && (verdict == Accepted ==> all <= old(all) + {tx}) && (verdict != Accepted ==> all <= old(all))
      ensures tx in old(all) ==> verdict == KnownTransaction
      ensures tx !in old(all) && old(Validate(tx, local)) != Accepted ==> verdict == old(Validate(tx, local))
      ensures tx !in old(all) && old(Validate(tx, local)) == Accepted ==>
        verdict in {Accepted, UnderpricedTx, ReplaceUnderpriced}
      ensures Leads(config, checks, old(Snapshot()), log, Snapshot())
      ensures AddEvents([tx], local, now, log.events) && Verdicts([verdict], log.events)
      ensures Accounted(config, log, old(all), all)
      ensures Bounded(config, old(Snapshot())) ==> Bounded(config, Snapshot())
      ensures verdict == Accepted && Within(config, |old(all)| + 1) ==>
        KeptBut(old(Snapshot()), tx, config.priceBump, all)
      ensures KeepsOrder(state, maxGas, {}, old(Tables()), Tables())
    {
      hide *;
      var replaced;
      ValidFolded();
      SnapshotIs();
      replaced, verdict, log := AddLogged(tx, local);
      ValidFolded();
      SnapshotIs();
      if verdict == Accepted && !replaced {
        ghost var items, all1, b1 := priced.items, all, Tables();
        TablesAre();
        ghost var s1 := Snapshot();
        ghost var mid := PromoteExecutables({tx.from}, now);
        OrderRestored(state, maxGas, {tx.from}, old(Tables()), b1, Tables());
        StillCovered(all1, items, all, priced.items, []);
        ValidFolded();
        SnapshotIs();
        Promoting(config, checks, old(Snapshot()), log, s1, [tx], local, {tx.from}, now, mid, Snapshot());
        log := Extended(log, Advance({tx.from}, mid, now), Snapshot());
      } else {
        NotPromoting([tx], local, now, log.events);
      }
      AllAccounted(config, checks, old(Snapshot()), log, Snapshot());
      StaysBounded(config, checks, old(Snapshot()), log, Snapshot());
      SmallAddition(config, checks, old(Snapshot()), tx, local, now, verdict, log, Snapshot());
    }

    /** addTxsLocked */
    method AddTxs(txs: seq<Tx>, local: bool, now: int) returns (verdicts: seq<Verdict>, ghost log: Log)
      requires Valid()
      modifies this`all, this`pending, this`queue, this`beats, this`managed, this`locals, priced
      ensures Valid() && |verdicts| == |txs| && all <= old(all) + TxSet(txs)
      ensures txs == [] ==> unchanged(this) && unchanged(priced)
      ensures Leads(config, checks, old(Snapshot()), log, Snapshot())
      ensures AddEvents(txs, local, now, log.events) && Verdicts(verdicts, log.events)
      ensures Accounted(config, log, old(all), all)
      ensures KeepsOrder(state, maxGas, {}, old(Tables()), Tables())
    {
      hide *;
      SnapshotIs();
      SameOrder(state, maxGas, Tables());
      TxSetStarts(txs);
      var dirty: set<Address> := {};
      verdicts := [];
      log := Log([Snapshot()], []);
      NoSteps(config, checks, Snapshot());
      AddingStarts(txs, local);
      while |verdicts| < |txs|
        invariant |verdicts| <= |txs| && Valid() && all <= old(all) + TxSet(txs[..|verdicts|])
        invariant txs == [] ==> unchanged(this) && unchanged(priced) && dirty == {}
        invariant Leads(config, checks, old(Snapshot()), log, Snapshot())
        invariant AddsEach(txs[..|verdicts|], local, log.events) && Verdicts(verdicts, log.events)
        invariant dirty == NewSenders(log.events)
        invariant KeepsOrder(state, maxGas, dirty, old(Tables()), Tables())
        decreases |txs| - |verdicts|
      {
        ghost var dropped: set<Tx>, r: Added, queued: bool, room: Snap;
        var replaced, verdict;
        TxSetGrows(txs, |verdicts|);
        ghost var b1, s1 := Tables(), Snapshot();
        ValidFolded();
        SnapshotIs();
        replaced, verdict, dropped, r, queued, room := Add(txs[|verdicts|], local);
        ghost var arrived := if verdict == Accepted && !replaced then {txs[|verdicts|].from} else {};
        OrderTransitive(state, maxGas, dirty, arrived, old(Tables()), b1, Tables());
        assert dirty + {} == dirty;
        ValidFolded();
        SnapshotIs();
        ghost var e := Addition(txs[|verdicts|], local, verdict, room);
        Adding(config, checks, old(Snapshot()), log, s1, txs, local, |verdicts|, e, Snapshot());
        log := Extended(log, e, Snapshot());
        if verdict == Accepted && !replaced {
          dirty := dirty + {txs[|verdicts|].from};
        }
        verdicts := verdicts + [verdict];
      }
      assert txs[..|txs|] == txs;
      SnapshotIs();
      if dirty != {} {
        ghost var items, all1, b1, s1 := priced.items, all, Tables(), Snapshot();
        ValidFolded();
        TablesAre();
        ghost var mid := PromoteExecutables(dirty, now);
        OrderRestored(state, maxGas, dirty, old(Tables()), b1, Tables());
        StillCovered(all1, items, all, priced.items, []);
        ValidFolded();
        SnapshotIs();
        Promoting(config, checks, old(Snapshot()), log, s1, txs, local, dirty, now, mid, Snapshot());
        log := Extended(log, Advance(dirty, mid, now), Snapshot());
      } else {
        NotPromoting(txs, local, now, log.events);
      }
      AllAccounted(config, checks, old(Snapshot()), log, Snapshot());
    }

    /** SetGasPrice: afterwards no remote transaction is below the threshold, and no other transaction has gone. */
    method SetGasPrice(price: nat)
      requires Valid()
      modifies this`gasPrice, this`all, this`pending, this`queue, this`beats, this`managed, priced
      ensures Valid() && gasPrice == price
      ensures forall tx :: tx in all <==> tx in old(all) && (IsLocal(locals, tx) || price <= tx.price)
      ensures Step(config, checks, old(Snapshot()), Repricing(price), Snapshot())
      ensures KeepsOrder(state, maxGas, {}, old(Tables()), Tables())
    {
      hide *;
      ValidFolded();
      TablesAre();
      SnapshotIs();
      gasPrice := price;
      var drop := priced.Cap(price, all, locals);
      TablesAre();
      BelowThreshold(all, drop, locals, price);
      SameOrder(state, maxGas, Tables());
      ghost var b1 := Tables();
      RemoveAll(drop);
      OrderChain(state, maxGas, old(Tables()), b1, Tables());
      ValidFolded();
      SnapshotIs();
      RemovedInIs(old(Snapshot()), TxSet(drop), Snapshot());
      RepricingIs(config, checks, old(Snapshot()), price, Snapshot());
    }

    /** The eviction of the pool's loop: remote accounts not heard of for too long lose their queue. */
    method Evict(now: int, lifetime: nat)
      requires Valid()
      modifies this`all, this`pending, this`queue, this`beats, this`managed, priced
      ensures Valid() && all <= old(all)
      ensures pending == old(pending) && managed == old(managed) && beats == old(beats)
      ensures queue == map a | a in old(queue) && !Expired(locals, beats, a, now, lifetime) :: old(queue)[a]
      ensures Step(config, checks, old(Snapshot()), Eviction(now, lifetime), Snapshot())
      ensures KeepsOrder(state, maxGas, {}, old(Tables()), Tables())
    {
      hide *;
      ValidFolded();
      TablesAre();
      SnapshotIs();
      SameCover(all, priced.items);
      EvictStarts(queue, locals, beats, now, lifetime);
      var todo := queue.Keys;
      while todo != {}
        invariant Inv(pending, queue, all, {}) && all <= old(all) && todo <= old(queue).Keys
        invariant pending == old(pending) && managed == old(managed) && beats == old(beats)
        invariant queue == Evicted(old(queue), locals, beats, now, lifetime, todo)
        invariant KeepsCover(old(all), old(priced.items), all, priced.items)
        decreases todo
      {
        var addr :| addr in todo;
        EvictStep(old(queue), locals, beats, now, lifetime, todo, addr);
        if addr !in locals && now - BeatOf(beats, addr) > lifetime {
          ghost var items, all1 := priced.items, all;
          RemoveQueue(addr);
          CoverTransitive(old(all), old(priced.items), all1, items, all, priced.items);
        }
        todo := todo - {addr};
      }
      EvictEnds(old(queue), locals, beats, now, lifetime);
      StillCovered(old(all), old(priced.items), all, priced.items, []);
      ValidFolded();
      TablesAre();
      SnapshotIs();
      EvictionIs(config, checks, old(Snapshot()), now, lifetime, Snapshot());
      OrderOnQueueLoss(state, maxGas, old(Tables()), old(all), Tables(), all);
    }

    /** Sets every pending account's nonce behind its highest pending transaction. */
    method SyncNonces()
      requires WellFormed(pending)
      modifies this`managed
      ensures managed == old(managed) + NextNonces(pending)
    {
      hide *;
      SyncStarts(managed, pending);
      var todo := pending.Keys;
      while todo != {}
        invariant todo <= pending.Keys && managed == Synced(old(managed), pending, todo)
        decreases todo
      {
        var addr :| addr in todo;
        SyncStep(old(managed), pending, todo, addr);
        managed := managed[addr := Highest(pending[addr]) + 1];
        todo := todo - {addr};
      }
    }

    /** Brings the pending lists and the pending nonces in line with the current state. */
    method Refresh()
      requires Inv(pending, queue, all, {})
      modifies this`pending, this`queue, this`all, this`beats, this`managed, priced
      ensures Inv(pending, queue, all, {}) && all <= old(all) && WellFormed(old(pending)) && WellFormed(pending)
      ensures forall a: Address :: StayedAt(old(pending), pending, state, maxGas, a)
      ensures forall a: Address :: RunnableAt(Tables(), state, maxGas, a)
      ensures managed == old(managed) + NextNonces(pending)
      ensures TightNow() <==> forall a: Address :: InLine(old(pending), old(managed), state, maxGas, a)
      ensures Step(config, checks, old(Snapshot()), Demotion, Snapshot())
      ensures KeepsCover(old(all), old(priced.items), all, priced.items)
    {
      hide *;
      SnapshotIs();
      WellFormedPending(pending, queue, all);
      DemoteUnexecutables();
      WellFormedPending(pending, queue, all);
      TablesAre();
      AllRunnable(old(pending), Tables(), state, maxGas);
      ghost var b1 := Tables();
      SyncNonces();
      TablesAre();
      SamePending(b1, Tables(), state, maxGas);
      DemotionTight(old(pending), old(managed), pending, state, maxGas);
      BookTight(state, Tables());
      SnapshotIs();
      DemotionIs(config, checks, old(Snapshot()), Snapshot());
    }

    /** reset to a new head, with the transactions of abandoned blocks that the new chain lacks. */
    method Reset(reinject: seq<Tx>, newState: Address -> Account, newMaxGas: nat, now: int) returns (ghost log: Log)
      requires Valid()
      modifies this`state, this`maxGas, this`all, this`pending, this`queue, this`beats, this`managed, this`locals
      modifies priced
      ensures Valid() && state == newState && maxGas == newMaxGas && all <= old(all) + TxSet(reinject)
      ensures Leads(config, checks, old(Snapshot()), log, Snapshot())
      ensures ResetLog(reinject, newState, newMaxGas, now, log) && Accounted(config, log, old(all), all)
      ensures RunnableNow()
      ensures AllInLine(log.snaps[|log.events| - 2]) ==> OrderlyNow()
      ensures old(TightNow()) && reinject == [] && Forward(old(state), newState) ==> OrderlyNow()
    {
      hide *;
      ValidFolded();
      TablesAre();
      SnapshotIs();
      ghost var p0, m0, state0, s0 := pending, managed, state, Snapshot();
      BookTight(state, Tables());
      state, maxGas, managed := newState, newMaxGas, map[];
      ValidFolded();
      SnapshotIs();
      ghost var s1 := Snapshot();
      var _, more := AddTxs(reinject, false, now);
      ValidFolded();
      SnapshotIs();
      ghost var all1, items1, s2 := all, priced.items, Snapshot();
      Refresh();
      SnapshotIs();
      StillCovered(all1, items1, all, priced.items, []);
      if Tight(p0, state0, m0) && reinject == [] && Forward(state0, newState) {
        ForwardInLine(p0, state0, m0, state, maxGas);
      }
      TablesAre();
      BookTight(state, Tables());
      NowMeans();
      ghost var all2, items2, s3 := all, priced.items, Snapshot();
      ghost var mid := PromoteQueued(now);
      StillCovered(all2, items2, all, priced.items, []);
      ValidFolded();
      SnapshotIs();
      log := ResetSteps(config, checks, s0, reinject, newState, newMaxGas, now, s1, more, s2, s3, mid,
                        Snapshot());
      AllInLineMeans(s2);
      AllAccounted(config, checks, s0, log, Snapshot());
    }

    /** Promotes every account that has queued transactions. */
    method PromoteQueued(now: int) returns (ghost mid: Snap)
      requires Inv(pending, queue, all, {}) && config.Sane()
      modifies this`pending, this`queue, this`all, this`beats, this`managed, priced
      ensures Inv(pending, queue, all, {}) && all <= old(all)
      ensures Advances(config, old(Snapshot()), old(queue).Keys, now, mid, Snapshot())
      ensures KeepsCover(old(all), old(priced.items), all, priced.items)
      ensures old(TightNow()) ==> OrderlyNow()
      ensures old(RunnableNow()) ==> RunnableNow()
    {
      hide *;
      TablesAre();
      NowMeans();
      mid := PromoteExecutables(queue.Keys, now);
      TablesAre();
      AllInOrder(state, maxGas, old(Tables()), Tables());
      NowMeans();
    }

    lemma NowMeans()
      ensures OrderlyNow() <==> TightBook(Tables(), state) && forall a: Address :: SettledAt(Tables(), state, a)
      ensures RunnableNow() <==> forall a: Address :: RunnableAt(Tables(), state, maxGas, a)
    {
      TablesAre();
    }

    /** One operation of the pool, under its lock. */
    method Apply(op: Op) returns (ghost log: Log)
      requires Valid()
      modifies this, priced
      ensures Valid() && state == StateAfter(op, old(state))
      ensures Leads(config, checks, old(Snapshot()), log, Snapshot()) && OpLog(op, log)
      ensures old(RunnableNow()) ==> RunnableNow()
      ensures old(OrderlyNow()) && KeepsRuns(op, old(state)) ==> OrderlyNow()
    {
      hide *;
      TablesAre();
      NowMeans();
      ResetMeans(op, state);
      NoSteps(config, checks, Snapshot());
      match op {
        case AddOne(tx, local, now) =>
          var _, steps := AddTx(tx, local, now);
          log := steps;
        case AddMany(txs, local, now) =>
          var _, steps := AddTxs(txs, local, now);
          log := steps;
        case SetPrice(price) =>
          SetGasPrice(price);
          log := SingleStep(config, checks, old(Snapshot()), Repricing(price), Snapshot());
        case EvictOld(now, lifetime) =>
          Evict(now, lifetime);
          log := SingleStep(config, checks, old(Snapshot()), Eviction(now, lifetime), Snapshot());
        case NewHead(reinject, newState, newMaxGas, now) => log := Reset(reinject, newState, newMaxGas, now);
      }
      OpLogIs(op, log);
      NowMeans();
      if !op.NewHead? {
        OrderMeans(state, maxGas, old(Tables()), Tables());
      }
    }

    /** Any run of pool operations keeps the lookup, the tables and the price heap in step and every pending transaction
        runnable; and as long as its resets only move forward, every account's pending transactions stay the longest
        gapless run of its pooled nonces from its state nonce on. The run is a chain of steps, and whatever left the
        pool left it at one of them for a cause; a local account's transaction was outbid or could not run then. A pool
        that is within its capacity, or local but for one transaction, stays so. */
    method Run(ops: seq<Op>) returns (ghost log: Log)
      requires Valid()
      modifies this, priced
      ensures Valid()
      ensures Leads(config, checks, old(Snapshot()), log, Snapshot()) && RunLog(ops, log)
      ensures Accounted(config, log, old(all), all) && LocalsSpared(config, log)
      ensures Bounded(config, old(Snapshot())) ==> BoundedThroughout(config, log) && Bounded(config, Snapshot())
      ensures Sound(checks, old(Snapshot())) ==> SoundThroughout(checks, log) && Sound(checks, Snapshot())
      ensures old(RunnableNow()) ==> RunnableNow()
      ensures old(OrderlyNow()) && RunsForward(ops, old(state)) ==> OrderlyNow()
    {
      hide *;
      RunStarts(ops, state);
      SnapshotIs();
      log := Log([Snapshot()], []);
      NoSteps(config, checks, Snapshot());
      NoOps(ops, Snapshot());
      var i := 0;
      while i < |ops|
        invariant 0 <= i <= |ops| && Valid()
        invariant Leads(config, checks, old(Snapshot()), log, Snapshot()) && RunLog(ops[..i], log)
        invariant old(RunnableNow()) ==> RunnableNow()
        invariant old(OrderlyNow()) && RunsForward(ops, old(state)) ==> OrderlyNow() && RunsForward(ops[i..], state)
      {
        RunStep(ops, i, state);
        ghost var s1 := Snapshot();
        ghost var more := Apply(ops[i]);
        NextOp(config, checks, old(Snapshot()), ops, i, log, s1, more, Snapshot());
        log := Joined(log, more);
        i := i + 1;
      }
      assert ops[..|ops|] == ops;
      SnapshotIs();
      AllAccounted(config, checks, old(Snapshot()), log, Snapshot());
      AllLocalsSpared(config, checks, old(Snapshot()), log, Snapshot());
      ValidFolded();
      StaysBounded(config, checks, old(Snapshot()), log, Snapshot());
      StaysSound(config, checks, old(Snapshot()), log, Snapshot());
    }

    lemma ValidatedRuns(tx: Tx, local: bool)
      ensures Validate(tx, local) == Accepted ==> !Useless(tx, state(tx.from), maxGas)
    {
    }

    lemma ValidFolded()
      ensures Valid() <==> config.Sane() && Inv(pending, queue, all, {}) && Covered(all, priced.items)
    {
    }

    lemma SnapshotIs()
      ensures Snapshot() == Snap(all, pending, queue, managed, beats, locals, gasPrice, state, maxGas)
      ensures Snapshot().Valid() <==> Inv(pending, queue, all, {})
    {
    }

    lemma ValidateIs(tx: Tx, local: bool)
      ensures Validate(tx, local) == ValidateIn(checks, Snapshot(), tx, local) != ReplaceUnderpriced
    {
    }

    lemma TablesAre()
      ensures Tables() == Book(pending, queue, managed)
      ensures TightNow() <==> TightBook(Tables(), state)
    {
    }
  }
}
