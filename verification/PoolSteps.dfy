/** What the single steps of core/tx_pool.go keep, as lemmas on values. */
module PoolSteps {
  import opened Options
  import opened TxLists
  import opened PoolTables
  import opened Pricing
  import opened Fairness
  import SortedMaps

  /** The limits of a sanitized configuration. */
  datatype Config = Config(priceBump: nat, accountSlots: nat, globalSlots: nat, accountQueue: nat, globalQueue: nat) {
    ghost predicate Sane() {
      priceBump >= 1 && accountSlots >= 1 && globalSlots >= 1 && accountQueue >= 1 && globalQueue >= 1
    }
  }

  function TxSet(txs: seq<Tx>): set<Tx> {
    set tx | tx in txs
  }

  function ReplacedSet(r: Option<Tx>): set<Tx> {
    if r.Some? then {r.value} else {}
  }

  /** The lookup shrank, or grew by transactions put in the heap: whoever was covered still is. */
  ghost predicate KeepsCover(all: set<Tx>, items: multiset<Tx>, all': set<Tx>, items': multiset<Tx>) {
    forall s :: CoveredWith(all, items, s) ==> CoveredWith(all', items', s)
  }

  /** Transactions with slots of their own. */
  ghost predicate Distinct(txs: seq<Tx>) {
    forall i, j :: 0 <= i < j < |txs| ==> txs[i] != txs[j]
  }

  lemma NextInFlight(txs: seq<Tx>, i: nat)
    requires i < |txs| && Distinct(txs)
    ensures txs[i] in TxSet(txs[i..]) && TxSet(txs[i + 1..]) == TxSet(txs[i..]) - {txs[i]}
  {
    assert txs[i..] == [txs[i]] + txs[i + 1..];
  }

  lemma NoneLeft(txs: seq<Tx>)
    ensures TxSet(txs[|txs|..]) == {}
  {
  }

  /** Landing in a free slot is an insertion that replaces nothing and leaves the lookup as it is. */
  lemma FreeSlot(pending: Lists, queue: Lists, all: set<Tx>, limbo: set<Tx>, tx: Tx, priceBump: nat)
    requires Inv(pending, queue, all, limbo) && tx in limbo && tx.nonce !in ListOf(queue, tx.from)
    ensures AddTo(ListOf(queue, tx.from), tx, priceBump) == Added(true, None, ListOf(queue, tx.from)[tx.nonce := tx])
    ensures all - ReplacedSet(None) + {tx} == all
  {
  }

  lemma TakenMeans(ls: Lists, tx: Tx)
    ensures Taken(ls, tx) <==> tx.from in ls && tx.nonce in ls[tx.from]
    ensures tx.from in ls ==> ListOf(ls, tx.from) == ls[tx.from]
    ensures Holds(ls, tx) ==> tx.from in ls
  {
  }

  lemma RemoveTight(pending: Lists, state: Address -> Account, managed: map<Address, nat>, tx: Tx)
    requires Taken(pending, tx)
    ensures Tight(pending, state, managed) ==>
      && NextNonce(state, managed, tx.from) > tx.nonce
      && Tight(SetList(pending, tx.from, Below(ListOf(pending, tx.from), tx.nonce)), state,
               managed[tx.from := tx.nonce])
  {
    if Tight(pending, state, managed) {
      TightAt(pending, state, managed, tx.from);
      TightSet(pending, state, managed, tx.from, Below(ListOf(pending, tx.from), tx.nonce), tx.nonce);
    }
  }

  lemma SameCover(all: set<Tx>, items: multiset<Tx>)
    ensures KeepsCover(all, items, all, items)
  {
  }

  lemma CoverTransitive(a: set<Tx>, i: multiset<Tx>, b: set<Tx>, j: multiset<Tx>, c: set<Tx>, k: multiset<Tx>)
    requires KeepsCover(a, i, b, j) && KeepsCover(b, j, c, k)
    ensures KeepsCover(a, i, c, k)
  {
  }

  lemma RemovedCover(a: set<Tx>, i: multiset<Tx>, b: set<Tx>, j: multiset<Tx>, k: multiset<Tx>)
    requires KeepsCover(a, i, b, j) && forall s :: CoveredWith(b, j, s) ==> CoveredWith(b, k, s)
    ensures KeepsCover(a, i, b, k)
  {
  }

  /** The transactions of a map in some order. */
  method ListAny(items: Items) returns (txs: seq<Tx>)
    ensures TxSet(txs) == Values(items) && Distinct(txs)
  {
    txs := [];
    var todo := Values(items);
    while todo != {}
      invariant TxSet(txs) + todo == Values(items) && TxSet(txs) !! todo && Distinct(txs)
      decreases todo
    {
      var tx :| tx in todo;
      assert TxSet(txs + [tx]) == TxSet(txs) + {tx};
      assert forall i :: 0 <= i < |txs| ==> txs[i] in TxSet(txs);
      txs := txs + [tx];
      todo := todo - {tx};
    }
  }

  lemma ShrinkCover(all: set<Tx>, items: multiset<Tx>, all': set<Tx>, items': multiset<Tx>, all'': set<Tx>)
    requires KeepsCover(all, items, all', items') || (all == all' && items == items')
    requires all'' <= all'
    ensures KeepsCover(all, items, all'', items')
  {
    forall s | CoveredWith(all, items, s)
      ensures CoveredWith(all'', items', s)
    {
      assert CoveredWith(all', items', s);
    }
  }

  lemma GrowCover(all: set<Tx>, items: multiset<Tx>, all': set<Tx>, items': multiset<Tx>, tx: Tx)
    requires KeepsCover(all, items, all', items') || (all == all' && items == items')
    ensures KeepsCover(all, items, all' + {tx}, items' + multiset{tx})
  {
    forall s | CoveredWith(all, items, s)
      ensures CoveredWith(all' + {tx}, items' + multiset{tx}, s)
    {
      assert CoveredWith(all', items', s);
    }
  }

  // Promotion

  function Merge(items: Items, more: Items): Items {
    map n | n in items.Keys + more.Keys :: if n in more then more[n] else items[n]
  }

  ghost function KeyedBy(txs: seq<Tx>): Items {
    if txs == [] then map[] else KeyedBy(txs[..|txs| - 1])[txs[|txs| - 1].nonce := txs[|txs| - 1]]
  }

  lemma RunOwned(queue: Lists, pending: Lists, all: set<Tx>, addr: Address, run: Items)
    requires Inv(pending, queue, all, {}) && SubItems(run, ListOf(queue, addr))
    ensures OwnedBy(run, addr) && Keyed(run)
  {
    OwnedByList(queue, addr);
  }

  lemma TakeRun(pending: Lists, queue: Lists, all: set<Tx>, addr: Address, run: Items, ready: seq<Tx>)
    requires Inv(pending, queue, all, {}) && SubItems(run, ListOf(queue, addr)) && Sorted(ready, run)
    ensures Inv(pending, SetList(queue, addr, Minus(ListOf(queue, addr), run)), all, TxSet(ready)) && Distinct(ready)
  {
    hide *;
    var list := ListOf(queue, addr);
    MinusTwice(list, run);
    TakeQueued(pending, queue, all, {}, addr, Minus(list, run));
    SortedValues(ready, run);
    assert {} + Values(run) == TxSet(ready);
  }

  lemma MinusTwice(list: Items, run: Items)
    requires SubItems(run, list)
    ensures SubItems(Minus(list, run), list) && Minus(list, Minus(list, run)) == run
  {
  }

  lemma SortedValues(ready: seq<Tx>, run: Items)
    requires Sorted(ready, run)
    ensures TxSet(ready) == Values(run) && Distinct(ready)
  {
    forall tx | tx in ready
      ensures tx in Values(run)
    {
      assert tx == run[tx.nonce];
    }
  }

  lemma PromoteStarts(pending: Lists, queue: Lists, all: set<Tx>, limbo: set<Tx>, addr: Address)
    requires Inv(pending, queue, all, limbo)
    ensures pending == SetList(pending, addr, Merge(ListOf(pending, addr), KeyedBy([])))
  {
    var list := ListOf(pending, addr);
    assert Merge(list, map[]) == list;
    if addr in pending { assert pending[addr] != map[]; } else { assert pending - {addr} == pending; }
  }

  lemma RunMember(run: Items, ready: seq<Tx>, addr: Address, i: nat)
    requires Sorted(ready, run) && OwnedBy(run, addr) && i < |ready|
    ensures ready[i].from == addr
  {
    assert ready[i] in ready;
  }

  lemma FreePending(pending: Lists, queue: Lists, all: set<Tx>, limbo: set<Tx>, tx: Tx, priceBump: nat)
    requires Inv(pending, queue, all, limbo) && tx in limbo && tx.nonce !in ListOf(pending, tx.from)
    ensures AddTo(ListOf(pending, tx.from), tx, priceBump) ==
      Added(true, None, ListOf(pending, tx.from)[tx.nonce := tx])
    ensures all - ReplacedSet(None) + {tx} == all
  {
  }

  lemma PromoteStep(pending: Lists, addr: Address, ready: seq<Tx>, i: nat)
    requires i < |ready|
    ensures var p := SetList(pending, addr, Merge(ListOf(pending, addr), KeyedBy(ready[..i])));
      var items := ListOf(p, addr)[ready[i].nonce := ready[i]];
      SetList(p, addr, items) == SetList(pending, addr, Merge(ListOf(pending, addr), KeyedBy(ready[..i + 1])))
  {
    var a, b := ready[..i], ready[..i + 1];
    assert b[..|b| - 1] == a && b[|b| - 1] == ready[i];
    var list := ListOf(pending, addr);
    ListOfSet(pending, addr, Merge(list, KeyedBy(a)), addr);
    assert Merge(list, KeyedBy(a))[ready[i].nonce := ready[i]] == Merge(list, KeyedBy(b));
    assert ready[i].nonce in Merge(list, KeyedBy(b));
    hide Merge, KeyedBy;
  }

  lemma {:induction false} KeyedByLists(txs: seq<Tx>, m: Items)
    requires Sorted(txs, m)
    ensures KeyedBy(txs) == m
    decreases |txs|
  {
    if txs == [] {
      assert m.Keys == {};
    } else {
      SortedLast(txs, m);
      var last := txs[|txs| - 1];
      KeyedByLists(txs[..|txs| - 1], m - {last.nonce});
      assert m == (m - {last.nonce})[last.nonce := last];
    }
  }

  lemma RunDone(run: Items, ready: seq<Tx>)
    requires Sorted(ready, run)
    ensures KeyedBy(ready) == run
    ensures |ready| == 0 <==> run == map[]
    ensures |ready| > 0 ==> ready[|ready| - 1].nonce == Highest(run)
  {
    KeyedByLists(ready, run);
    SortedSize(ready, run);
    if |ready| > 0 {
      SortedLast(ready, run);
      assert |run| > 0;
    } else {
      assert run == map[];
    }
  }

  /** What a queued list becomes: the run that is promoted, and the rest that stays queued. */
  datatype Promotion = Promotion(run: Items, rest: Items)

  ghost function PromotionOf(list: Items, acct: Account, maxGas: nat, next: nat, accountQueue: nat,
                             local: bool): Promotion
  {
    var able := Affordable(From(list, acct.nonce), acct.balance, maxGas, false);
    var run := ReadyItems(able, next);
    Promotion(run, if local then Minus(able, run) else CapTo(Minus(able, run), accountQueue))
  }

  lemma PromotionIs(list: Items, acct: Account, maxGas: nat, next: nat, accountQueue: nat, local: bool, run: Items,
                    rest: Items)
    requires var able := Affordable(From(list, acct.nonce), acct.balance, maxGas, false);
      run == ReadyItems(able, next) && rest == if local then Minus(able, run) else CapTo(Minus(able, run), accountQueue)
    ensures PromotionOf(list, acct, maxGas, next, accountQueue, local) == Promotion(run, rest)
  {
  }

  lemma OwnedHere(pending: Lists, queue: Lists, all: set<Tx>, addr: Address)
    requires Inv(pending, queue, all, {})
    ensures OwnedBy(ListOf(queue, addr), addr) && OwnedBy(ListOf(pending, addr), addr)
  {
  }

  lemma Parts(list: Items, nonce: nat, balance: nat, maxGas: nat)
    ensures SubItems(From(list, nonce), list)
    ensures SubItems(Affordable(From(list, nonce), balance, maxGas, false), From(list, nonce))
  {
  }

  lemma RunIsPart(items: Items, start: nat)
    ensures SubItems(ReadyItems(items, start), items)
  {
  }

  lemma CapIsPart(items: Items, n: nat)
    ensures SubItems(CapTo(items, n), items)
  {
  }

  lemma SetTwice(ls: Lists, a: Address, x: Items, y: Items)
    ensures SetList(SetList(ls, a, x), a, y) == SetList(ls, a, y)
  {
  }

  lemma SetBack(pending: Lists, queue: Lists, all: set<Tx>, a: Address)
    requires Inv(pending, queue, all, {})
    ensures SetList(queue, a, ListOf(queue, a)) == queue
  {
    assert a in queue ==> queue[a] != map[] && queue[a := queue[a]] == queue;
    assert a !in queue ==> queue - {a} == queue;
  }

  lemma SetMeans(ls: Lists, a: Address, items: Items)
    ensures a in SetList(ls, a, items) <==> items != map[]
  {
  }

  lemma HeldAfter(ls: Lists, tx: Tx, items: Items)
    requires tx.nonce in items && items[tx.nonce] == tx
    ensures Holds(SetList(ls, tx.from, items), tx)
  {
  }

  lemma MinusSelf(all: set<Tx>, items: Items)
    ensures Minus(items, items) == map[] && Values(map[]) == {} && all - {} == all
  {
  }

  lemma NothingQueued(pending: Lists, queue: Lists, all: set<Tx>, addr: Address, acct: Account, maxGas: nat, next: nat,
                      accountQueue: nat, local: bool)
    requires Inv(pending, queue, all, {}) && addr !in queue
    ensures var r := PromotionOf(ListOf(queue, addr), acct, maxGas, next, accountQueue, local);
      && r.run == map[] && queue == SetList(queue, addr, r.rest)
      && pending == SetList(pending, addr, Merge(ListOf(pending, addr), r.run))
      && all == all - Values(Minus(Minus(ListOf(queue, addr), r.run), r.rest))
  {
    EmptyPromotion(acct, maxGas, next, accountQueue, local);
    PromoteStartsOf(pending, queue, all, addr);
    hide PromotionOf, Merge, Inv;
    MinusSelf(all, map[]);
    assert queue - {addr} == queue;
  }

  lemma EmptyPromotion(acct: Account, maxGas: nat, next: nat, accountQueue: nat, local: bool)
    ensures PromotionOf(map[], acct, maxGas, next, accountQueue, local) == Promotion(map[], map[])
  {
    var able := Affordable(From(map[], acct.nonce), acct.balance, maxGas, false);
    assert From(map[], acct.nonce) == map[];
    assert able == map[];
    assert ReadyItems(map[], next) == map[];
    assert Minus(map[], map[]) == map[] && CapTo(map[], accountQueue) == map[];
  }

  lemma PromoteStartsOf(pending: Lists, queue: Lists, all: set<Tx>, addr: Address)
    requires Inv(pending, queue, all, {})
    ensures pending == SetList(pending, addr, Merge(ListOf(pending, addr), map[]))
  {
    PromoteStarts(pending, queue, all, {}, addr);
  }

  /** The drops of the single steps are, together, what is neither promoted nor kept. */
  lemma DroppedTogether(all: set<Tx>, a: Address, l0: Items, l1: Items, l2: Items, run: Items, l3: Items, l4: Items)
    requires OwnedBy(l0, a) && SubItems(l1, l0) && SubItems(l2, l1) && SubItems(run, l2) && l3 == Minus(l2, run)
    requires SubItems(l4, l3)
    ensures all - Values(Minus(l0, l1)) - Values(Minus(l1, l2)) - Values(Minus(l3, l4)) ==
      all - Values(Minus(Minus(l0, run), l4))
  {
    forall tx: Tx
      ensures tx in Values(Minus(l0, l1)) || tx in Values(Minus(l1, l2)) || tx in Values(Minus(l3, l4)) <==>
        tx in Values(Minus(Minus(l0, run), l4))
    {
      ValueOf(Minus(l0, l1), a, tx);
      ValueOf(Minus(l1, l2), a, tx);
      ValueOf(Minus(l3, l4), a, tx);
      ValueOf(Minus(Minus(l0, run), l4), a, tx);
    }
  }

  /** A promoted run starts exactly at the pending nonce, so the pending list grows without a gap. */
  lemma PromoteTight(pending: Lists, queue: Lists, all: set<Tx>, state: Address -> Account, managed: map<Address, nat>,
                     addr: Address, l0: Items, l2: Items, run: Items)
    requires Inv(pending, queue, all, {}) && ListOf(queue, addr) == l2
    requires SubItems(l2, From(l0, state(addr).nonce)) && run == ReadyItems(l2, NextNonce(state, managed, addr))
    ensures Tight(pending, state, managed) ==>
      Tight(SetList(pending, addr, Merge(ListOf(pending, addr), run)), state,
            if run == map[] then managed else managed[addr := Highest(run) + 1])
  {
    hide *;
    if Tight(pending, state, managed) {
      TightAt(pending, state, managed, addr);
      PromoteStartsOf(pending, queue, all, addr);
      if run != map[] {
        forall n | n in l2
          ensures n !in ListOf(pending, addr)
        {
          SlotsApart(pending, queue, all, addr, n);
        }
        OwnedHereKeyed(pending, queue, all, addr);
        FromAbove(l0, l2, state(addr).nonce);
        RunExtends(ListOf(pending, addr), l2, state(addr).nonce, NextNonce(state, managed, addr), run);
        TightSet(pending, state, managed, addr, Merge(ListOf(pending, addr), run), Highest(run) + 1);
      }
    }
  }

  lemma FromAbove(l0: Items, l2: Items, sn: nat)
    requires SubItems(l2, From(l0, sn))
    ensures forall n :: n in l2 ==> sn <= n
  {
  }

  lemma RunExtends(list: Items, l2: Items, sn: nat, pn: nat, run: Items)
    requires Contiguous(list, sn, pn) && Keyed(l2) && run == ReadyItems(l2, pn) && run != map[]
    requires forall n :: n in l2 ==> sn <= n && n !in list
    ensures |run| > 0 && Contiguous(Merge(list, run), sn, Highest(run) + 1)
  {
    hide ReadyItems, Highest, Merge;
    assert forall n :: n in l2 ==> pn <= n;
    SortedMaps.ReadyIsMaximalRun(l2, pn);
    var hi :| pn <= hi && Contiguous(run, pn, hi) && hi !in l2;
    ContiguousSize(run, pn, hi);
    HighestOfRun(run, pn, hi);
    RunsMeet(list, run, sn, pn, hi);
  }

  lemma HighestOfRun(run: Items, lo: nat, hi: nat)
    requires Contiguous(run, lo, hi) && run != map[]
    ensures |run| > 0 && Highest(run) == hi - 1
  {
    ContiguousSize(run, lo, hi);
    assert hi - 1 in run;
  }

  lemma RunsMeet(list: Items, run: Items, lo: nat, mid: nat, hi: nat)
    requires Contiguous(list, lo, mid) && Contiguous(run, mid, hi)
    ensures Contiguous(Merge(list, run), lo, hi)
  {
  }

  lemma OwnedHereKeyed(pending: Lists, queue: Lists, all: set<Tx>, addr: Address)
    requires Inv(pending, queue, all, {})
    ensures Keyed(ListOf(queue, addr))
  {
  }

  lemma SlotsApart(pending: Lists, queue: Lists, all: set<Tx>, addr: Address, n: nat)
    requires Inv(pending, queue, all, {}) && n in ListOf(queue, addr)
    ensures n !in ListOf(pending, addr)
  {
    var tx := queue[addr][n];
    assert tx.from == addr && tx.nonce == n;
    assert Taken(queue, tx);
    assert n in ListOf(pending, addr) ==> Taken(pending, tx);
  }

  // Truncation of the pending lists

  lemma InTable(ls: Lists, a: Address)
    requires a in ls
    ensures ListOf(ls, a) == ls[a]
    ensures forall items: Items :: items != map[] ==> SetList(ls, a, items) == ls[a := items]
  {
  }

  lemma CutHighest(list: Items)
    requires |list| > 1
    ensures var cap := CapTo(list, |list| - 1); cap == list - {Highest(list)} && cap != map[] && SubItems(cap, list)
  {
    RemoveShrinks(list);
    var rest := list - {Highest(list)};
    assert CapTo(rest, |list| - 1) == rest;
    assert |rest| > 0;
  }

  lemma CutTight(pending: Lists, state: Address -> Account, managed: map<Address, nat>, a: Address)
    requires a in pending && |pending[a]| > 1
    ensures var list := pending[a];
      Tight(pending, state, managed) ==>
        && NextNonce(state, managed, a) > Highest(list)
        && Tight(SetList(pending, a, CapTo(list, |list| - 1)), state, managed[a := Highest(list)])
  {
    var list := pending[a];
    if Tight(pending, state, managed) {
      TightAt(pending, state, managed, a);
      CapToContiguous(list, state(a).nonce, NextNonce(state, managed, a), |list| - 1);
      hide Tight, CapTo;
      assert Highest(list) == NextNonce(state, managed, a) - 1 by {
        assert NextNonce(state, managed, a) - 1 in list;
      }
      TightSet(pending, state, managed, a, CapTo(list, |list| - 1), Highest(list));
    }
  }

  ghost predicate DistinctAddresses(s: seq<Address>) {
    forall i, j :: 0 <= i < j < |s| ==> s[i] != s[j]
  }

  ghost function AddressesOf(s: seq<Address>): set<Address> {
    set a | a in s
  }

  /** The offenders are the remote accounts whose lists reach level n. */
  ghost predicate Reaching(before: Lists, locals: set<Address>, n: nat, offenders: seq<Address>) {
    DistinctAddresses(offenders) && forall a :: a in offenders <==> a in before && a !in locals && |before[a]| >= n
  }

  lemma RoundBegins(before: Lists, locals: set<Address>, n: nat)
    requires n > 0
    ensures CutPartly(before, locals, n, AddressesOf([])) == CutAt(before, locals, n)
  {
    RoundStarts(before, locals, n);
    assert AddressesOf([]) == {};
  }

  lemma NextToCut(before: Lists, locals: set<Address>, n: nat, offenders: seq<Address>, i: nat)
    requires n > 1 && i < |offenders| && Reaching(before, locals, n, offenders)
    ensures var a := offenders[i]; var p := CutPartly(before, locals, n, AddressesOf(offenders[..i]));
      && a in p && |p[a]| == n
      && CutPartly(before, locals, n, AddressesOf(offenders[..i + 1])) == p[a := CapTo(p[a], n - 1)]
      && Total(p[a := CapTo(p[a], n - 1)]) == Total(p) - 1
  {
    hide CapTo, Total;
    var a, done := offenders[i], AddressesOf(offenders[..i]);
    assert AddressesOf(offenders[..i + 1]) == done + {a};
    assert a in offenders;
    CutStep(before, locals, n, done, a);
  }

  lemma RoundOver(before: Lists, locals: set<Address>, n: nat, offenders: seq<Address>)
    requires n > 1 && Reaching(before, locals, n, offenders)
    ensures CutPartly(before, locals, n, AddressesOf(offenders)) == CutAt(before, locals, n - 1)
  {
    RoundEnds(before, locals, n, AddressesOf(offenders));
  }

  /** The lists are cut at level n, the given offenders are exactly the remote accounts that stand at it or above the
      threshold, and the level was not lowered needlessly. */
  ghost predicate Leveled(before: Lists, now: Lists, locals: set<Address>, slots: nat, global: nat,
                          offenders: seq<Address>, threshold: nat, total: nat, n: nat)
  {
    && now == CutAt(before, locals, n) && total == Total(now)
    && slots <= threshold <= n
    && DistinctAddresses(offenders)
    && (forall a :: a in offenders ==> a in before && a !in locals && |before[a]| >= n)
    && (forall a :: a in before && a !in locals && |before[a]| > threshold ==> a in offenders)
    && (now == before || Total(CutAt(before, locals, n + 1)) > global)
  }

  lemma LevelOfLast(before: Lists, now: Lists, locals: set<Address>, config: Config, offenders: seq<Address>,
                    threshold: nat, total: nat, n: nat)
    requires Leveled(before, now, locals, config.accountSlots, config.globalSlots, offenders, threshold, total, n)
    requires offenders != []
    ensures var last := offenders[|offenders| - 1]; last in now && |now[last]| == n >= threshold
  {
    hide CapTo, Total;
    var last := offenders[|offenders| - 1];
    assert last in offenders;
    CutLength(before, locals, n, last);
  }

  lemma LeveledRound(before: Lists, now: Lists, locals: set<Address>, config: Config, offenders: seq<Address>,
                     threshold: nat, total: nat, n: nat)
    requires Leveled(before, now, locals, config.accountSlots, config.globalSlots, offenders, threshold, total, n)
    requires n > threshold && config.Sane()
    ensures n > 1 && now == CutAt(before, locals, n) && total == Total(now) && threshold >= config.accountSlots
    ensures forall a :: a in before && a !in locals && |before[a]| > threshold ==> a in offenders
    ensures Reaching(before, locals, n, offenders)
  {
    hide CapTo, Total;
  }

  lemma LeveledAfter(before: Lists, now: Lists, locals: set<Address>, config: Config, offenders: seq<Address>,
                     threshold: nat, total: nat, n: nat)
    requires now == CutAt(before, locals, n) && total == Total(now) && n >= threshold >= config.accountSlots
    requires Total(CutAt(before, locals, n + 1)) > config.globalSlots
    requires Reaching(before, locals, n + 1, offenders)
    requires forall a :: a in before && a !in locals && |before[a]| > threshold ==> a in offenders
    ensures Leveled(before, now, locals, config.accountSlots, config.globalSlots, offenders, threshold, total, n)
  {
    hide CapTo, Total;
  }

  /** The outer loop: what was popped is cut at one level, what was not popped is no longer than what was. */
  ghost predicate Equalizing(before: Lists, now: Lists, locals: set<Address>, slots: nat, global: nat,
                             spammers: set<Address>, offenders: seq<Address>, total: nat, n: nat)
  {
    && total == Total(now) && DistinctAddresses(offenders)
    && (forall a :: a in spammers ==> a !in offenders)
    && (forall a :: a in spammers || a in offenders <==> a in before && a !in locals && |before[a]| > slots)
    && (offenders == [] ==> now == before)
    && (offenders != [] ==>
          && slots < n && now == CutAt(before, locals, n)
          && (now == before || Total(CutAt(before, locals, n + 1)) > global)
          && (total > global ==> forall a :: a in offenders ==> |before[a]| >= n)
          && (total > global ==> forall b :: b in spammers ==> |before[b]| <= n)
          && (total > global ==> |before[offenders[|offenders| - 1]]| == n)
          && (forall b :: b in spammers ==> |before[b]| <= |before[offenders[|offenders| - 1]]|)
          && |before[offenders[|offenders| - 1]]| <= n)
  }

  lemma EqualizingStarts(before: Lists, locals: set<Address>, config: Config, spammers: set<Address>, total: nat)
    requires total == Total(before)
    requires spammers == set a | a in before && a !in locals && |before[a]| > config.accountSlots
    ensures Equalizing(before, before, locals, config.accountSlots, config.globalSlots, spammers, [], total, 0)
  {
    hide CapTo, Total;
  }

  lemma {:induction false} MostExistsIn(lengths: map<Address, nat>, s: set<Address>)
    requires s != {} && forall a :: a in s ==> a in lengths
    ensures exists o :: o in s && forall b :: b in s ==> lengths[b] <= lengths[o]
    decreases s
  {
    var x :| x in s;
    var rest := s - {x};
    if rest == {} {
      assert s == {x};
    } else {
      MostExistsIn(lengths, rest);
      var y :| y in rest && forall b :: b in rest ==> lengths[b] <= lengths[y];
      var o := if lengths[x] <= lengths[y] then y else x;
      assert forall b :: b in s ==> b == x || b in rest;
      assert o in s && forall b :: b in s ==> lengths[b] <= lengths[o];
    }
  }

  lemma SpammersCounted(before: Lists, now: Lists, locals: set<Address>, config: Config, spammers: set<Address>,
                        offenders: seq<Address>, total: nat, n: nat, lengths: map<Address, nat>)
    requires Equalizing(before, now, locals, config.accountSlots, config.globalSlots, spammers, offenders, total, n)
    requires lengths == map a | a in before :: |before[a]|
    ensures forall a :: a in spammers ==> a in lengths
  {
    hide CapTo, Total, CutAt;
  }

  /** Popping the next offender: it is uncut, and the earlier offenders are ready to be brought down to it. */
  lemma NextOffender(before: Lists, now: Lists, locals: set<Address>, config: Config, spammers: set<Address>,
                     offenders: seq<Address>, total: nat, n: nat, offender: Address, lengths: map<Address, nat>)
    requires Equalizing(before, now, locals, config.accountSlots, config.globalSlots, spammers, offenders, total, n)
    requires lengths == map a | a in before :: |before[a]|
    requires total > config.globalSlots && offender in spammers && forall b :: b in spammers ==>
      lengths[b] <= lengths[offender]
    ensures offender in now && |now[offender]| == lengths[offender] == |before[offender]| > config.accountSlots
    ensures offenders != [] ==>
      Leveled(before, now, locals, config.accountSlots, config.globalSlots, offenders, lengths[offender], total, n)
    ensures offenders == [] ==> Equalizing(before, now, locals, config.accountSlots, config.globalSlots,
                                           spammers - {offender}, [offender], total, lengths[offender])
  {
    hide CapTo, Total;
    if offenders == [] {
      CutNothing(before, locals, lengths[offender]);
    } else {
      CutLength(before, locals, n, offender);
    }
  }

  /** The newest offender joins the earlier ones, which were brought down towards it. */
  lemma OffenderJoins(before: Lists, now: Lists, locals: set<Address>, config: Config, spammers: set<Address>,
                      offenders: seq<Address>, total: nat, n: nat, offender: Address)
    requires offender in spammers && offender in before && offender !in locals
    requires |before[offender]| > config.accountSlots
    requires Leveled(before, now, locals, config.accountSlots, config.globalSlots, offenders, |before[offender]|, total,
                     n)
    requires total <= config.globalSlots || n == |before[offender]|
    requires forall a :: a in spammers ==> a !in offenders && a in before && |before[a]| <= |before[offender]|
    requires forall a :: a in spammers || a in offenders <==>
      a in before && a !in locals && |before[a]| > config.accountSlots
    ensures Equalizing(before, now, locals, config.accountSlots, config.globalSlots, spammers - {offender},
                       offenders + [offender], total, n)
  {
    hide CapTo, Total;
    assert forall a :: a in offenders + [offender] <==> a in offenders || a == offender;
  }

  lemma EqualizingParts(before: Lists, now: Lists, locals: set<Address>, config: Config, spammers: set<Address>,
                        offenders: seq<Address>, total: nat, n: nat, offender: Address, lengths: map<Address, nat>)
    requires Equalizing(before, now, locals, config.accountSlots, config.globalSlots, spammers, offenders, total, n)
    requires lengths == map a | a in before :: |before[a]|
    requires offender in spammers && forall b :: b in spammers ==> b in lengths && lengths[b] <= lengths[offender]
    ensures offender in before && offender !in locals
    ensures forall a :: a in spammers ==> a !in offenders && a in before && |before[a]| <= |before[offender]|
    ensures forall a :: a in spammers || a in offenders <==>
      a in before && a !in locals && |before[a]| > config.accountSlots
  {
    hide CapTo, Total, CutAt;
  }

  lemma AllOffenders(before: Lists, now: Lists, locals: set<Address>, config: Config, offenders: seq<Address>,
                     total: nat, n: nat)
    requires Equalizing(before, now, locals, config.accountSlots, config.globalSlots, {}, offenders, total, n)
    requires total > config.globalSlots && offenders != []
    ensures Leveled(before, now, locals, config.accountSlots, config.globalSlots, offenders, config.accountSlots, total,
                    n)
  {
    hide CapTo, Total;
  }

  lemma FloorReached(before: Lists, now: Lists, locals: set<Address>, config: Config, offenders: seq<Address>,
                     total: nat, n: nat)
    requires Leveled(before, now, locals, config.accountSlots, config.globalSlots, offenders, config.accountSlots,
                     total, n)
    requires total <= config.globalSlots || n == config.accountSlots
    ensures Fair(before, now, locals, config.accountSlots, config.globalSlots)
  {
    hide CapTo, Total;
    assert IsFairLevel(before, now, locals, config.accountSlots, config.globalSlots, n);
  }

  lemma EqualizingEnds(before: Lists, now: Lists, locals: set<Address>, config: Config, spammers: set<Address>,
                       offenders: seq<Address>, total: nat, n: nat)
    requires Equalizing(before, now, locals, config.accountSlots, config.globalSlots, spammers, offenders, total, n)
    requires total <= config.globalSlots || (spammers == {} && offenders == [])
    ensures Fair(before, now, locals, config.accountSlots, config.globalSlots)
  {
    hide CapTo, Total;
    if offenders == [] {
      Untouched(before, locals, config.accountSlots, config.globalSlots);
    } else {
      assert IsFairLevel(before, now, locals, config.accountSlots, config.globalSlots, n);
    }
  }
}
