/** What the pool promises of nonces and funds: pending transactions can run, one after the other,
    and none that could run waits. */
module PoolOrder {
  import opened Options
  import opened TxLists
  import opened PoolTables
  import opened PoolSteps
  import SortedMaps

  /** The tables of the pool that say where a transaction stands. */
  datatype Book = Book(pending: Lists, queue: Lists, managed: map<Address, nat>)

  /** A transaction that cannot run in the account's state: its nonce is spent, or the account cannot pay for it. */
  ghost predicate Useless(tx: Tx, acct: Account, maxGas: nat) {
    tx.nonce < acct.nonce || TooDear(tx, acct.balance, maxGas)
  }

  ghost predicate NoneUseless(items: Items, acct: Account, maxGas: nat) {
    forall n :: n in items ==> !Useless(items[n], acct, maxGas)
  }

  /** Every pending transaction of the account can be paid for, and its nonce is not spent. */
  ghost predicate RunnableAt(b: Book, state: Address -> Account, maxGas: nat, a: Address) {
    NoneUseless(ListOf(b.pending, a), state(a), maxGas)
  }

  /** The transaction that would run after the account's pending ones is not left in the queue. */
  ghost predicate SettledAt(b: Book, state: Address -> Account, a: Address) {
    NextNonce(state, b.managed, a) !in ListOf(b.queue, a)
  }

  ghost predicate TightBook(b: Book, state: Address -> Account) {
    Tight(b.pending, state, b.managed)
  }

  /** Gapless pending lists stay gapless, accounts stay settled (except those named), and
      pending lists stay runnable. */
  ghost predicate KeepsOrder(state: Address -> Account, maxGas: nat, but: set<Address>, b: Book, b': Book) {
    && (TightBook(b, state) ==> TightBook(b', state))
    && (TightBook(b, state) ==> forall a: Address :: a !in but && SettledAt(b, state, a) ==> SettledAt(b', state, a))
    && (forall a: Address :: RunnableAt(b, state, maxGas, a) ==> RunnableAt(b', state, maxGas, a))
  }

  lemma SameOrder(state: Address -> Account, maxGas: nat, b: Book)
    ensures KeepsOrder(state, maxGas, {}, b, b)
  {
  }

  lemma OrderTransitive(state: Address -> Account, maxGas: nat, but: set<Address>, but': set<Address>, a: Book, b: Book,
                        c: Book)
    requires KeepsOrder(state, maxGas, but, a, b) && KeepsOrder(state, maxGas, but', b, c)
    ensures KeepsOrder(state, maxGas, but + but', a, c)
  {
    hide TightBook, SettledAt, RunnableAt;
  }

  lemma OrderChain(state: Address -> Account, maxGas: nat, a: Book, b: Book, c: Book)
    requires KeepsOrder(state, maxGas, {}, a, b) && KeepsOrder(state, maxGas, {}, b, c)
    ensures KeepsOrder(state, maxGas, {}, a, c)
  {
    OrderTransitive(state, maxGas, {}, {}, a, b, c);
  }

  /** Where a queued transaction was before a step that let no new transaction in. */
  lemma QueuedWas(p: Lists, q: Lists, all: set<Tx>, p': Lists, q': Lists, all': set<Tx>, a: Address, n: nat)
    requires Inv(p, q, all, {}) && Inv(p', q', all', {}) && all' <= all && n in ListOf(q', a)
    ensures ListOf(q', a)[n] in all'
    ensures n in ListOf(q, a) || (n in ListOf(p, a) && ListOf(p, a)[n] == ListOf(q', a)[n])
  {
    var tx := q'[a][n];
    assert tx.from == a && tx.nonce == n;
    assert Holds(q', tx);
    assert tx in all;
  }

  /** The account's next nonce is as before, or that of a pending transaction that has left. */
  ghost predicate NonceGone(state: Address -> Account, b: Book, b': Book, all': set<Tx>, a: Address) {
    var n := NextNonce(state, b'.managed, a);
    n == NextNonce(state, b.managed, a) || (n in ListOf(b.pending, a) && ListOf(b.pending, a)[n] !in all')
  }

  ghost predicate Shrinks(b: Book, b': Book, a: Address) {
    SubItems(ListOf(b'.pending, a), ListOf(b.pending, a))
  }

  /** A step that only takes transactions away keeps order, if it lowers a pending nonce only to
      that of a transaction it took. */
  lemma OrderOnLoss(state: Address -> Account, maxGas: nat, b: Book, all: set<Tx>, b': Book, all': set<Tx>)
    requires Inv(b.pending, b.queue, all, {}) && Inv(b'.pending, b'.queue, all', {}) && all' <= all
    requires TightBook(b, state) ==> TightBook(b', state) && forall a: Address :: NonceGone(state, b, b', all', a)
    requires forall a: Address :: Shrinks(b, b', a)
    ensures KeepsOrder(state, maxGas, {}, b, b')
  {
    hide *;
    if TightBook(b, state) {
      forall a: Address | SettledAt(b, state, a)
        ensures SettledAt(b', state, a)
      {
        assert NonceGone(state, b, b', all', a);
        StaysSettled(state, b, all, b', all', a);
      }
    }
    forall a: Address | RunnableAt(b, state, maxGas, a)
      ensures RunnableAt(b', state, maxGas, a)
    {
      assert Shrinks(b, b', a);
      StaysRunnableAt(state, maxGas, b, b', a);
    }
    IsOrder(state, maxGas, {}, b, b');
  }

  lemma IsOrder(state: Address -> Account, maxGas: nat, but: set<Address>, b: Book, b': Book)
    requires TightBook(b, state) ==> TightBook(b', state)
    requires TightBook(b, state) ==>
      forall a: Address :: a !in but && SettledAt(b, state, a) ==> SettledAt(b', state, a)
    requires forall a: Address :: RunnableAt(b, state, maxGas, a) ==> RunnableAt(b', state, maxGas, a)
    ensures KeepsOrder(state, maxGas, but, b, b')
  {
    hide TightBook, SettledAt, RunnableAt;
  }

  lemma StaysSettled(state: Address -> Account, b: Book, all: set<Tx>, b': Book, all': set<Tx>, a: Address)
    requires Inv(b.pending, b.queue, all, {}) && Inv(b'.pending, b'.queue, all', {}) && all' <= all
    requires TightBook(b, state) && NonceGone(state, b, b', all', a) && SettledAt(b, state, a)
    ensures SettledAt(b', state, a)
  {
    var n := NextNonce(state, b'.managed, a);
    if n in ListOf(b'.queue, a) {
      QueuedWas(b.pending, b.queue, all, b'.pending, b'.queue, all', a, n);
      TightAt(b.pending, state, b.managed, a);
      if n in ListOf(b.queue, a) {
        SlotsApart(b.pending, b.queue, all, a, n);
      }
      assert false;
    }
  }

  lemma StaysRunnableAt(state: Address -> Account, maxGas: nat, b: Book, b': Book, a: Address)
    requires Shrinks(b, b', a) && RunnableAt(b, state, maxGas, a)
    ensures RunnableAt(b', state, maxGas, a)
  {
  }

  // The steps of the pool

  lemma ShrunkAt(ls: Lists, addr: Address, items: Items, a: Address)
    requires SubItems(items, ListOf(ls, addr))
    ensures SubItems(ListOf(SetList(ls, addr, items), a), ListOf(ls, a))
  {
    ListOfSet(ls, addr, items, a);
  }

  lemma LoweredAt(state: Address -> Account, managed: map<Address, nat>, addr: Address, n: nat, a: Address)
    ensures NextNonce(state, managed[addr := n], a) == if a == addr then n else NextNonce(state, managed, a)
  {
  }

  /** Transactions left only the queue. */
  lemma OrderOnQueueLoss(state: Address -> Account, maxGas: nat, b: Book, all: set<Tx>, b': Book, all': set<Tx>)
    requires Inv(b.pending, b.queue, all, {}) && Inv(b'.pending, b'.queue, all', {}) && all' <= all
    requires b'.pending == b.pending && b'.managed == b.managed
    ensures KeepsOrder(state, maxGas, {}, b, b')
  {
    hide *;
    forall a: Address
      ensures NonceGone(state, b, b', all', a) && Shrinks(b, b', a)
    {
      SameAt(state, b, b', all', a);
    }
    SameTight(state, b, b');
    OrderOnLoss(state, maxGas, b, all, b', all');
  }

  lemma SameAt(state: Address -> Account, b: Book, b': Book, all': set<Tx>, a: Address)
    requires b'.pending == b.pending && b'.managed == b.managed
    ensures NonceGone(state, b, b', all', a) && Shrinks(b, b', a)
  {
  }

  lemma SameTight(state: Address -> Account, b: Book, b': Book)
    requires b'.pending == b.pending && b'.managed == b.managed
    ensures TightBook(b', state) <==> TightBook(b, state)
  {
  }

  /** An account's pending list was cut from a nonce on, and its pending nonce lowered to it. */
  lemma OrderOnCut(state: Address -> Account, maxGas: nat, b: Book, all: set<Tx>, b': Book, all': set<Tx>,
                   addr: Address, rest: Items, n: nat)
    requires Inv(b.pending, b.queue, all, {}) && Inv(b'.pending, b'.queue, all', {}) && all' <= all
    requires b'.pending == SetList(b.pending, addr, rest) && SubItems(rest, ListOf(b.pending, addr))
    requires n in ListOf(b.pending, addr) && ListOf(b.pending, addr)[n] !in all'
    requires b'.managed == if NextNonce(state, b.managed, addr) > n then b.managed[addr := n] else b.managed
    requires TightBook(b, state) ==>
      NextNonce(state, b.managed, addr) > n && Tight(b'.pending, state, b.managed[addr := n])
    ensures KeepsOrder(state, maxGas, {}, b, b')
  {
    hide *;
    forall a: Address
      ensures Shrinks(b, b', a) && (TightBook(b, state) ==> NonceGone(state, b, b', all', a))
    {
      CutAtAccount(state, b, b', all', addr, rest, n, a);
    }
    BookTight(state, b');
    OrderOnLoss(state, maxGas, b, all, b', all');
  }

  lemma BookTight(state: Address -> Account, b: Book)
    ensures TightBook(b, state) <==> Tight(b.pending, state, b.managed)
  {
  }

  lemma CutAtAccount(state: Address -> Account, b: Book, b': Book, all': set<Tx>, addr: Address, rest: Items, n: nat,
                     a: Address)
    requires b'.pending == SetList(b.pending, addr, rest) && SubItems(rest, ListOf(b.pending, addr))
    requires n in ListOf(b.pending, addr) && ListOf(b.pending, addr)[n] !in all'
    requires b'.managed == if NextNonce(state, b.managed, addr) > n then b.managed[addr := n] else b.managed
    requires TightBook(b, state) ==> NextNonce(state, b.managed, addr) > n
    ensures Shrinks(b, b', a) && (TightBook(b, state) ==> NonceGone(state, b, b', all', a))
  {
    ShrunkAt(b.pending, addr, rest, a);
    LoweredAt(state, b.managed, addr, n, a);
    hide Tight;
  }

  /** Promotion takes the whole run that can follow, so it settles the account. */
  lemma PromoteOrder(state: Address -> Account, maxGas: nat, b: Book, all: set<Tx>, b': Book, all': set<Tx>,
                     addr: Address, able: Items, run: Items)
    requires Inv(b.pending, b.queue, all, {}) && Inv(b'.pending, b'.queue, all', {}) && all' <= all
    requires able == Affordable(From(ListOf(b.queue, addr), state(addr).nonce), state(addr).balance, maxGas, false)
    requires run == ReadyItems(able, NextNonce(state, b.managed, addr))
    requires b'.pending == SetList(b.pending, addr, Merge(ListOf(b.pending, addr), run))
    requires b'.managed == if run == map[] then b.managed else b.managed[addr := Highest(run) + 1]
    requires SubItems(ListOf(b'.queue, addr), Minus(able, run))
    requires TightBook(b, state) ==> TightBook(b', state)
    ensures KeepsOrder(state, maxGas, {}, b, b') && (TightBook(b, state) ==> SettledAt(b', state, addr))
  {
    hide *;
    if TightBook(b, state) {
      PromoteSettles(state, maxGas, b, all, b', addr, able, run);
      forall a: Address | SettledAt(b, state, a)
        ensures SettledAt(b', state, a)
      {
        if a != addr {
          OtherNonce(state, b, b', all', addr, run, a);
          StaysSettled(state, b, all, b', all', a);
        }
      }
    }
    forall a: Address | RunnableAt(b, state, maxGas, a)
      ensures RunnableAt(b', state, maxGas, a)
    {
      PromotedRunnable(state, maxGas, b, all, b', addr, able, run, a);
    }
    IsOrder(state, maxGas, {}, b, b');
  }

  lemma OtherNonce(state: Address -> Account, b: Book, b': Book, all': set<Tx>, addr: Address, run: Items, a: Address)
    requires a != addr && b'.managed == if run == map[] then b.managed else b.managed[addr := Highest(run) + 1]
    ensures NonceGone(state, b, b', all', a)
  {
  }

  lemma AbleMeans(list: Items, addr: Address, acct: Account, maxGas: nat)
    requires OwnedBy(list, addr)
    ensures var able := Affordable(From(list, acct.nonce), acct.balance, maxGas, false);
      && SubItems(able, list)
      && Keyed(able)
      && NoneUseless(able, acct, maxGas)
      && forall n :: n in able ==> acct.nonce <= n
  {
  }

  lemma PromotedRunnable(state: Address -> Account, maxGas: nat, b: Book, all: set<Tx>, b': Book, addr: Address,
                         able: Items, run: Items, a: Address)
    requires Inv(b.pending, b.queue, all, {}) && RunnableAt(b, state, maxGas, a)
    requires able == Affordable(From(ListOf(b.queue, addr), state(addr).nonce), state(addr).balance, maxGas, false)
    requires run == ReadyItems(able, NextNonce(state, b.managed, addr))
    requires b'.pending == SetList(b.pending, addr, Merge(ListOf(b.pending, addr), run))
    ensures RunnableAt(b', state, maxGas, a)
  {
    OwnedHere(b.pending, b.queue, all, addr);
    AbleMeans(ListOf(b.queue, addr), addr, state(addr), maxGas);
    RunIsPart(able, NextNonce(state, b.managed, addr));
    ListOfSet(b.pending, addr, Merge(ListOf(b.pending, addr), run), a);
    hide Affordable, ReadyItems, Useless, ListOf, SetList, Inv;
  }

  lemma PromoteSettles(state: Address -> Account, maxGas: nat, b: Book, all: set<Tx>, b': Book, addr: Address,
                       able: Items, run: Items)
    requires Inv(b.pending, b.queue, all, {}) && TightBook(b, state)
    requires able == Affordable(From(ListOf(b.queue, addr), state(addr).nonce), state(addr).balance, maxGas, false)
    requires run == ReadyItems(able, NextNonce(state, b.managed, addr))
    requires b'.managed == if run == map[] then b.managed else b.managed[addr := Highest(run) + 1]
    requires SubItems(ListOf(b'.queue, addr), Minus(able, run))
    ensures SettledAt(b', state, addr)
  {
    hide *;
    var pn := NextNonce(state, b.managed, addr);
    OwnedHere(b.pending, b.queue, all, addr);
    AbleMeans(ListOf(b.queue, addr), addr, state(addr), maxGas);
    BookTight(state, b);
    TightAt(b.pending, state, b.managed, addr);
    forall n | n in able
      ensures pn <= n
    {
      PartMember(able, ListOf(b.queue, addr), n);
      SlotsApart(b.pending, b.queue, all, addr, n);
      InRun(ListOf(b.pending, addr), state(addr).nonce, pn, n);
    }
    var hi := RunEnd(able, pn);
    NextAfterRun(able, pn, run, hi);
    LoweredAt(state, b.managed, addr, hi, addr);
    NotQueued(state, b', able, run, addr, hi);
  }

  lemma PartMember(part: Items, whole: Items, n: nat)
    requires SubItems(part, whole) && n in part
    ensures n in whole
  {
  }

  lemma InRun(list: Items, lo: nat, hi: nat, n: nat)
    requires Contiguous(list, lo, hi) && lo <= n && n !in list
    ensures hi <= n
  {
  }

  lemma RunEnd(able: Items, pn: nat) returns (hi: nat)
    requires Keyed(able) && forall n :: n in able ==> pn <= n
    ensures pn <= hi && Contiguous(ReadyItems(able, pn), pn, hi) && hi !in able
  {
    SortedMaps.ReadyIsMaximalRun(able, pn);
    hide ReadyItems;
    hi :| pn <= hi && Contiguous(ReadyItems(able, pn), pn, hi) && hi !in able;
  }

  /** Behind the run comes the first nonce that is missing. */
  lemma NextAfterRun(able: Items, pn: nat, run: Items, hi: nat)
    requires run == ReadyItems(able, pn) && pn <= hi && Contiguous(run, pn, hi)
    ensures if run == map[] then hi == pn else |run| > 0 && Highest(run) + 1 == hi
  {
    hide ReadyItems;
    if run == map[] {
      assert pn < hi ==> pn in run;
    } else {
      ContiguousSize(run, pn, hi);
      assert |run| > 0;
      assert Highest(run) == hi - 1 by { assert hi - 1 in run; }
    }
  }

  lemma NotQueued(state: Address -> Account, b': Book, able: Items, run: Items, addr: Address, hi: nat)
    requires NextNonce(state, b'.managed, addr) == hi && hi !in able
    requires SubItems(ListOf(b'.queue, addr), Minus(able, run))
    ensures SettledAt(b', state, addr)
  {
  }

  // A newcomer

  /** A newcomer that can run takes the slot of a pending transaction. */
  lemma OrderOnReplacement(state: Address -> Account, maxGas: nat, b: Book, b': Book, tx: Tx)
    requires Taken(b.pending, tx) && !Useless(tx, state(tx.from), maxGas)
    requires b' == b.(pending := SetList(b.pending, tx.from, ListOf(b.pending, tx.from)[tx.nonce := tx]))
    requires TightBook(b, state) ==> TightBook(b', state)
    ensures KeepsOrder(state, maxGas, {}, b, b')
  {
    hide TightBook;
    forall a: Address | RunnableAt(b, state, maxGas, a)
      ensures RunnableAt(b', state, maxGas, a)
    {
      ListOfSet(b.pending, tx.from, ListOf(b.pending, tx.from)[tx.nonce := tx], a);
    }
  }

  /** A newcomer goes to the queue; only its own account may now have something that could run there. */
  lemma OrderOnArrival(state: Address -> Account, maxGas: nat, b: Book, b': Book, tx: Tx)
    requires b' == b.(queue := SetList(b.queue, tx.from, ListOf(b.queue, tx.from)[tx.nonce := tx]))
    ensures KeepsOrder(state, maxGas, if tx.nonce in ListOf(b.queue, tx.from) then {} else {tx.from}, b, b')
  {
    hide Tight;
    forall a: Address | SettledAt(b, state, a) && (tx.nonce in ListOf(b.queue, tx.from) || a != tx.from)
      ensures SettledAt(b', state, a)
    {
      ListOfSet(b.queue, tx.from, ListOf(b.queue, tx.from)[tx.nonce := tx], a);
    }
  }

  /** Promoting the accounts that newcomers left unsettled restores order. */
  lemma OrderRestored(state: Address -> Account, maxGas: nat, dirty: set<Address>, a: Book, b: Book, c: Book)
    requires KeepsOrder(state, maxGas, dirty, a, b) && KeepsOrder(state, maxGas, {}, b, c)
    requires TightBook(b, state) ==> AllSettled(c, state, dirty)
    ensures KeepsOrder(state, maxGas, {}, a, c)
  {
    hide TightBook, SettledAt, RunnableAt;
  }

  /** Together: an account's pending transactions are the longest run of its pooled nonces
      that starts at its state nonce. */
  lemma PendingIsMaximal(state: Address -> Account, b: Book, all: set<Tx>, a: Address)
    requires Inv(b.pending, b.queue, all, {}) && TightBook(b, state) && SettledAt(b, state, a)
    ensures var top := NextNonce(state, b.managed, a);
      && Contiguous(ListOf(b.pending, a), state(a).nonce, top)
      && forall tx :: tx in all && tx.from == a ==> tx.nonce != top
  {
    TightAt(b.pending, state, b.managed, a);
    forall tx | tx in all && tx.from == a
      ensures tx.nonce != NextNonce(state, b.managed, a)
    {
      assert Holds(b.pending, tx) || Holds(b.queue, tx);
    }
  }

  // Several accounts

  ghost predicate AllSettled(b: Book, state: Address -> Account, accounts: set<Address>) {
    forall a :: a in accounts ==> SettledAt(b, state, a)
  }

  lemma NoneSettled(b: Book, state: Address -> Account)
    ensures AllSettled(b, state, {})
  {
  }

  lemma NoQueue(state: Address -> Account, b: Book, a: Address)
    requires a !in b.queue
    ensures SettledAt(b, state, a)
  {
  }

  lemma SettledMore(state: Address -> Account, maxGas: nat, b0: Book, b1: Book, b2: Book, done: set<Address>,
                    addr: Address)
    requires KeepsOrder(state, maxGas, {}, b0, b1) && KeepsOrder(state, maxGas, {}, b1, b2)
    requires TightBook(b0, state) ==> AllSettled(b1, state, done)
    requires TightBook(b1, state) ==> SettledAt(b2, state, addr)
    ensures KeepsOrder(state, maxGas, {}, b0, b2) && (TightBook(b0, state) ==> AllSettled(b2, state, done + {addr}))
  {
    hide TightBook, SettledAt, RunnableAt;
    OrderChain(state, maxGas, b0, b1, b2);
  }

  lemma SettledStay(state: Address -> Account, maxGas: nat, b0: Book, b1: Book, b2: Book, accounts: set<Address>)
    requires KeepsOrder(state, maxGas, {}, b0, b1) && KeepsOrder(state, maxGas, {}, b1, b2)
    requires TightBook(b0, state) ==> AllSettled(b1, state, accounts)
    ensures KeepsOrder(state, maxGas, {}, b0, b2) && (TightBook(b0, state) ==> AllSettled(b2, state, accounts))
  {
    hide TightBook, SettledAt, RunnableAt;
    OrderChain(state, maxGas, b0, b1, b2);
  }

  /** Promoting every queued account settles all of them. */
  lemma AllInOrder(state: Address -> Account, maxGas: nat, b: Book, b': Book)
    requires KeepsOrder(state, maxGas, {}, b, b')
    requires TightBook(b, state) ==> AllSettled(b', state, b.queue.Keys)
    ensures TightBook(b, state) ==> TightBook(b', state) && forall a: Address :: SettledAt(b', state, a)
    ensures (forall a: Address :: RunnableAt(b, state, maxGas, a)) ==>
      forall a: Address :: RunnableAt(b', state, maxGas, a)
  {
    hide TightBook, SettledAt, RunnableAt;
    forall a: Address | TightBook(b, state)
      ensures SettledAt(b', state, a)
    {
      if a !in b.queue {
        NoQueue(state, b, a);
      }
    }
  }

  lemma OrderMeans(state: Address -> Account, maxGas: nat, b: Book, b': Book)
    requires KeepsOrder(state, maxGas, {}, b, b')
    ensures TightBook(b, state) && (forall a: Address :: SettledAt(b, state, a)) ==>
      TightBook(b', state) && forall a: Address :: SettledAt(b', state, a)
    ensures (forall a: Address :: RunnableAt(b, state, maxGas, a)) ==>
      forall a: Address :: RunnableAt(b', state, maxGas, a)
  {
    hide TightBook, SettledAt, RunnableAt;
  }

  lemma SamePending(b: Book, b': Book, state: Address -> Account, maxGas: nat)
    requires b'.pending == b.pending
    ensures (forall a: Address :: RunnableAt(b, state, maxGas, a)) ==>
      forall a: Address :: RunnableAt(b', state, maxGas, a)
  {
    forall a: Address | RunnableAt(b, state, maxGas, a)
      ensures RunnableAt(b', state, maxGas, a)
    {
    }
  }

  lemma SelfPart(items: Items)
    ensures SubItems(items, items)
  {
  }

  lemma HighestDropped(list: Items)
    requires |list| > 1
    ensures list[Highest(list)] in Values(Minus(list, CapTo(list, |list| - 1))) && Highest(list) in list
  {
    CutHighest(list);
    var n := Highest(list);
    hide CapTo;
    assert n in Minus(list, CapTo(list, |list| - 1));
  }

  /** The accounts that an insertion may leave unsettled. */
  function Unsettled(tx: Tx, r: Added): set<Address> {
    if r.inserted && r.replaced.None? then {tx.from} else {}
  }

  lemma UnsettledIs(tx: Tx, r: Added)
    ensures Unsettled(tx, r) == if r.inserted && r.replaced.None? then {tx.from} else {}
  {
  }

  lemma InsertedHere(list: Items, tx: Tx, priceBump: nat)
    ensures var r := AddTo(list, tx, priceBump);
      && (r.inserted ==> r.items == list[tx.nonce := tx] && tx.nonce in r.items && r.items[tx.nonce] == tx)
      && (r.inserted ==> (r.replaced.Some? <==> tx.nonce in list))
      && Unsettled(tx, r) == if r.inserted && tx.nonce !in list then {tx.from} else {}
  {
  }
}
