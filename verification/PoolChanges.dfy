/** What whole operations of core/tx_pool.go do to the tables, as predicates on values. */
module PoolChanges {
  import opened TxLists
  import opened PoolTables
  import opened Pricing
  import opened Fairness
  import opened PoolSteps
  import opened PoolOrder
  import opened QueueLimits
  import SortedMaps

  // Promotion of several accounts

  /** What the pool knows when it promotes: the account states, the block gas limit, its
      limits and the local accounts. */
  datatype Rules = Rules(state: Address -> Account, maxGas: nat, accountQueue: nat, locals: set<Address>)

  ghost function PromotionAt(r: Rules, queue: Lists, managed: map<Address, nat>, a: Address): Promotion {
    PromotionOf(ListOf(queue, a), r.state(a), r.maxGas, NextNonce(r.state, managed, a), r.accountQueue, a in r.locals)
  }

  ghost predicate AccountPromoted(r: Rules, p0: Lists, q0: Lists, m0: map<Address, nat>, p: Lists, q: Lists, a: Address)
  {
    var pr := PromotionAt(r, q0, m0, a);
    ListOf(q, a) == pr.rest && ListOf(p, a) == Merge(ListOf(p0, a), pr.run)
  }

  ghost predicate AccountAsIs(r: Rules, p0: Lists, q0: Lists, m0: map<Address, nat>, p: Lists, q: Lists,
                              m: map<Address, nat>, a: Address)
  {
    && ListOf(q, a) == ListOf(q0, a)
    && ListOf(p, a) == ListOf(p0, a)
    && NextNonce(r.state, m, a) == NextNonce(r.state, m0, a)
  }

  /** Exactly the given accounts were promoted, each from its own lists; the others are as they were. */
  ghost predicate Promoted(r: Rules, p0: Lists, q0: Lists, m0: map<Address, nat>, p: Lists, q: Lists,
                           m: map<Address, nat>, done: set<Address>)
  {
    forall a: Address ::
      if a in done then AccountPromoted(r, p0, q0, m0, p, q, a) else AccountAsIs(r, p0, q0, m0, p, q, m, a)
  }

  lemma PromotedNone(r: Rules, p: Lists, q: Lists, m: map<Address, nat>)
    ensures Promoted(r, p, q, m, p, q, m, {})
  {
  }

  lemma PromotedNext(r: Rules, p0: Lists, q0: Lists, m0: map<Address, nat>, p: Lists, q: Lists, m: map<Address, nat>,
                     done: set<Address>, a: Address, m': map<Address, nat>)
    requires Promoted(r, p0, q0, m0, p, q, m, done) && a !in done
    requires forall b: Address :: b != a ==> NextNonce(r.state, m', b) == NextNonce(r.state, m, b)
    ensures var pr := PromotionAt(r, q, m, a);
      Promoted(r, p0, q0, m0, SetList(p, a, Merge(ListOf(p, a), pr.run)), SetList(q, a, pr.rest), m', done + {a})
  {
    hide *;
    var pr := PromotionAt(r, q, m, a);
    var p', q' := SetList(p, a, Merge(ListOf(p, a), pr.run)), SetList(q, a, pr.rest);
    forall b: Address
      ensures if b in done + {a} then AccountPromoted(r, p0, q0, m0, p', q', b)
         else AccountAsIs(r, p0, q0, m0, p', q', m', b)
    {
      PromotedAt(r, p0, q0, m0, p, q, m, done, b);
      ListOfSet(p, a, Merge(ListOf(p, a), pr.run), b);
      ListOfSet(q, a, pr.rest, b);
      if b == a {
        ThisPromoted(r, p0, q0, m0, p, q, m, p', q', a);
      } else {
        OtherKept(r, p0, q0, m0, p, q, m, p', q', m', b);
      }
    }
    PromotedAll(r, p0, q0, m0, p', q', m', done + {a});
  }

  lemma PromotedAt(r: Rules, p0: Lists, q0: Lists, m0: map<Address, nat>, p: Lists, q: Lists, m: map<Address, nat>,
                   done: set<Address>, a: Address)
    requires Promoted(r, p0, q0, m0, p, q, m, done)
    ensures if a in done then AccountPromoted(r, p0, q0, m0, p, q, a) else AccountAsIs(r, p0, q0, m0, p, q, m, a)
  {
    hide AccountPromoted, AccountAsIs;
  }

  lemma PromotedAll(r: Rules, p0: Lists, q0: Lists, m0: map<Address, nat>, p: Lists, q: Lists, m: map<Address, nat>,
                    done: set<Address>)
    requires forall a: Address ::
      if a in done then AccountPromoted(r, p0, q0, m0, p, q, a) else AccountAsIs(r, p0, q0, m0, p, q, m, a)
    ensures Promoted(r, p0, q0, m0, p, q, m, done)
  {
    hide AccountPromoted, AccountAsIs;
  }

  lemma ThisPromoted(r: Rules, p0: Lists, q0: Lists, m0: map<Address, nat>, p: Lists, q: Lists, m: map<Address, nat>,
                     p': Lists, q': Lists, a: Address)
    requires AccountAsIs(r, p0, q0, m0, p, q, m, a)
    requires var pr := PromotionAt(r, q, m, a); ListOf(q', a) == pr.rest && ListOf(p', a) == Merge(ListOf(p, a), pr.run)
    ensures AccountPromoted(r, p0, q0, m0, p', q', a)
  {
    hide PromotionOf, Merge, ListOf, NextNonce;
  }

  lemma OtherKept(r: Rules, p0: Lists, q0: Lists, m0: map<Address, nat>, p: Lists, q: Lists, m: map<Address, nat>,
                  p': Lists, q': Lists, m': map<Address, nat>, b: Address)
    requires ListOf(p', b) == ListOf(p, b) && ListOf(q', b) == ListOf(q, b)
    requires NextNonce(r.state, m', b) == NextNonce(r.state, m, b)
    ensures AccountPromoted(r, p0, q0, m0, p, q, b) ==> AccountPromoted(r, p0, q0, m0, p', q', b)
    ensures AccountAsIs(r, p0, q0, m0, p, q, m, b) ==> AccountAsIs(r, p0, q0, m0, p', q', m', b)
  {
    hide PromotionAt, Merge, ListOf, NextNonce;
  }

  lemma PromotionHere(r: Rules, queue: Lists, managed: map<Address, nat>, a: Address)
    ensures PromotionAt(r, queue, managed, a) ==
      PromotionOf(ListOf(queue, a), r.state(a), r.maxGas, NextNonce(r.state, managed, a), r.accountQueue, a in r.locals)
  {
  }

  lemma NoncesApart(state: Address -> Account, managed: map<Address, nat>, a: Address, n: nat)
    ensures forall b: Address :: b != a ==> NextNonce(state, managed[a := n], b) == NextNonce(state, managed, b)
  {
  }

  // Demotion

  ghost function UselessItems(list: Items, acct: Account, maxGas: nat): Items {
    map n | n in list && Useless(list[n], acct, maxGas) :: list[n]
  }

  /** What stays pending: from the state nonce on, up to the first transaction that cannot be paid for. */
  function StaysPending(list: Items, acct: Account, maxGas: nat): Items {
    var able := Affordable(From(list, acct.nonce), acct.balance, maxGas, true);
    if acct.nonce in able then able else map[]
  }

  /** Everything that stays can be paid for, and the first of it can run next. */
  lemma StaysRunnable(list: Items, acct: Account, maxGas: nat)
    requires Keyed(list)
    ensures var stays := StaysPending(list, acct, maxGas);
      && SubItems(stays, list)
      && (forall n :: n in stays ==> !Useless(stays[n], acct, maxGas))
      && (stays != map[] ==> acct.nonce in stays)
  {
    var l1 := From(list, acct.nonce);
    var dear := Dear(l1, acct.balance, maxGas);
    assert dear == Matching(l1, tx => TooDear(tx, acct.balance, maxGas));
    forall n | n in StaysPending(list, acct, maxGas)
      ensures !TooDear(list[n], acct.balance, maxGas)
    {
      assert TooDear(list[n], acct.balance, maxGas) ==> n in dear && n in Nonces(dear);
    }
  }

  lemma AllRunnable(p0: Lists, b: Book, state: Address -> Account, maxGas: nat)
    requires WellFormed(p0) && forall a: Address :: StayedAt(p0, b.pending, state, maxGas, a)
    ensures forall a: Address :: RunnableAt(b, state, maxGas, a)
  {
    forall a: Address
      ensures RunnableAt(b, state, maxGas, a)
    {
      assert StayedAt(p0, b.pending, state, maxGas, a);
      KeyedList(p0, a);
      StaysRunnable(ListOf(p0, a), state(a), maxGas);
      hide StaysPending, Useless;
    }
  }

  /** Demotion drops what is useless and queues the rest of what leaves, whatever the order of its steps. */
  lemma DemotionParts(a: Address, list: Items, acct: Account, maxGas: nat)
    requires OwnedBy(list, a)
    ensures var l1 := From(list, acct.nonce); var l2 := Affordable(l1, acct.balance, maxGas, true);
      var dear := Dear(l1, acct.balance, maxGas); var invalids := Minus(Minus(l1, l2), dear);
      && SubItems(l1, list) && SubItems(l2, l1) && OwnedBy(l1, a) && OwnedBy(l2, a) && Keyed(l1)
      && (forall n :: n in l1 ==> acct.nonce <= n)
      && Values(dear) <= Values(Minus(l1, l2)) && Values(Minus(l1, l2)) - Values(dear) == Values(invalids)
      && Values(Minus(list, l1)) + Values(dear) == Values(UselessItems(list, acct, maxGas))
  {
    var l1 := From(list, acct.nonce);
    var l2 := Affordable(l1, acct.balance, maxGas, true);
    var dear := Dear(l1, acct.balance, maxGas);
    assert dear == Matching(l1, tx => TooDear(tx, acct.balance, maxGas));
    assert SubItems(l2, l1) && OwnedBy(l1, a);
    forall n | n in dear
      ensures n !in l2
    {
      assert n in Nonces(dear);
      assert |Nonces(dear)| > 0;
    }
    hide Affordable;
    forall tx: Tx
      ensures tx in Values(dear) ==> tx in Values(Minus(l1, l2))
      ensures tx in Values(Minus(Minus(l1, l2), dear)) <==> tx in Values(Minus(l1, l2)) && tx !in Values(dear)
      ensures tx in Values(Minus(list, l1)) || tx in Values(dear) <==> tx in Values(UselessItems(list, acct, maxGas))
    {
      ValueOf(dear, a, tx);
      ValueOf(Minus(l1, l2), a, tx);
      ValueOf(Minus(Minus(l1, l2), dear), a, tx);
      ValueOf(Minus(list, l1), a, tx);
      ValueOf(UselessItems(list, acct, maxGas), a, tx);
    }
  }

  lemma FilterParts(a: Address, l1: Items, acct: Account, maxGas: nat)
    requires OwnedBy(l1, a) && forall n :: n in l1 ==> acct.nonce <= n
    ensures var l2 := Affordable(l1, acct.balance, maxGas, true);
      var dear := Dear(l1, acct.balance, maxGas); var invalids := Minus(Minus(l1, l2), dear);
      && SubItems(l2, l1)
      && Values(dear) <= Values(Minus(l1, l2)) && Values(Minus(l1, l2)) - Values(dear) == Values(invalids)
  {
    assert From(l1, acct.nonce) == l1;
    DemotionParts(a, l1, acct, maxGas);
  }

  lemma StaysIs(list: Items, acct: Account, maxGas: nat, l2: Items, stays: Items)
    requires l2 == Affordable(From(list, acct.nonce), acct.balance, maxGas, true)
    requires stays == if |l2| > 0 && acct.nonce !in l2 then map[] else l2
    ensures stays == StaysPending(list, acct, maxGas)
  {
    assert acct.nonce in l2 ==> |l2| > 0;
    assert |l2| == 0 ==> l2 == map[];
  }

  lemma WellFormedPending(pending: Lists, queue: Lists, all: set<Tx>)
    requires Inv(pending, queue, all, {})
    ensures WellFormed(pending)
  {
  }

  lemma StillListed(p0: Lists, p: Lists, a: Address)
    requires WellFormed(p0) && a in p0 && ListOf(p, a) == p0[a]
    ensures a in p && p[a] == p0[a]
  {
    assert p0[a] != map[];
  }

  lemma TakeWhole(pending: Lists, queue: Lists, all: set<Tx>, a: Address, list: Items)
    requires Inv(pending, queue, all, {}) && ListOf(pending, a) == list
    ensures Inv(SetList(pending, a, map[]), queue, all, Values(list))
  {
    hide *;
    NothingIsPart(list);
    TakePending(pending, queue, all, {}, a, map[]);
    assert {} + Values(list) == Values(list);
  }

  lemma NothingIsPart(list: Items)
    ensures SubItems(map[], list) && Minus(list, map[]) == list
  {
  }

  ghost predicate StayedAt(p0: Lists, p: Lists, state: Address -> Account, maxGas: nat, a: Address) {
    ListOf(p, a) == StaysPending(ListOf(p0, a), state(a), maxGas)
  }

  /** The accounts done keep what stays pending, the others what they had. */
  ghost predicate DemotedLists(p0: Lists, p: Lists, state: Address -> Account, maxGas: nat, todo: set<Address>) {
    forall a: Address :: if a in todo then ListOf(p, a) == ListOf(p0, a) else StayedAt(p0, p, state, maxGas, a)
  }

  /** Of the pending transactions of the accounts done, exactly the useless ones have left the lookup. */
  ghost predicate DemotedLookup(p0: Lists, all0: set<Tx>, all: set<Tx>, state: Address -> Account, maxGas: nat,
                                todo: set<Address>)
  {
    forall tx :: tx in all <==> tx in all0 && !(tx.from !in todo && UselessIn(p0, tx, state, maxGas))
  }

  ghost predicate UselessIn(p0: Lists, tx: Tx, state: Address -> Account, maxGas: nat) {
    Holds(p0, tx) && Useless(tx, state(tx.from), maxGas)
  }

  lemma DemotingStarts(p0: Lists, all0: set<Tx>, state: Address -> Account, maxGas: nat)
    ensures DemotedLists(p0, p0, state, maxGas, p0.Keys) && DemotedLookup(p0, all0, all0, state, maxGas, p0.Keys)
  {
    forall a: Address | a !in p0
      ensures StayedAt(p0, p0, state, maxGas, a)
    {
      assert From(map[], state(a).nonce) == map[];
    }
  }

  lemma ListsStep(p0: Lists, p: Lists, state: Address -> Account, maxGas: nat, todo: set<Address>, a: Address)
    requires DemotedLists(p0, p, state, maxGas, todo) && a in todo && a in p0
    ensures ListOf(p, a) == p0[a]
    ensures DemotedLists(p0, SetList(p, a, StaysPending(p0[a], state(a), maxGas)), state, maxGas, todo - {a})
  {
    hide StaysPending, SetList;
    var p' := SetList(p, a, StaysPending(p0[a], state(a), maxGas));
    forall b: Address
      ensures if b in todo - {a} then ListOf(p', b) == ListOf(p0, b) else StayedAt(p0, p', state, maxGas, b)
    {
      ListOfSet(p, a, StaysPending(p0[a], state(a), maxGas), b);
      assert if b in todo then ListOf(p, b) == ListOf(p0, b) else StayedAt(p0, p, state, maxGas, b);
    }
  }

  lemma LookupStep(p0: Lists, all0: set<Tx>, all: set<Tx>, state: Address -> Account, maxGas: nat, todo: set<Address>,
                   a: Address)
    requires DemotedLookup(p0, all0, all, state, maxGas, todo) && a in todo && WellFormed(p0) && a in p0
    ensures DemotedLookup(p0, all0, all - Values(UselessItems(p0[a], state(a), maxGas)), state, maxGas, todo - {a})
  {
    var out := UselessItems(p0[a], state(a), maxGas);
    forall tx: Tx
      ensures tx in Values(out) <==> tx.from == a && UselessIn(p0, tx, state, maxGas)
    {
      ValueOf(out, a, tx);
    }
    hide UselessIn, UselessItems, Values;
  }

  lemma DemotingEnds(p0: Lists, all0: set<Tx>, p: Lists, all: set<Tx>, state: Address -> Account, maxGas: nat)
    requires DemotedLists(p0, p, state, maxGas, {}) && DemotedLookup(p0, all0, all, state, maxGas, {})
    ensures forall a: Address :: StayedAt(p0, p, state, maxGas, a)
    ensures forall tx :: tx in all <==> tx in all0 && !UselessIn(p0, tx, state, maxGas)
  {
    hide StayedAt, UselessIn;
  }

  // Resetting to a newer state

  /** Every pending account's nonce follows its highest pending transaction. */
  ghost function NextNonces(pending: Lists): map<Address, nat> {
    map a | a in pending && |pending[a]| > 0 :: Highest(pending[a]) + 1
  }

  ghost function Synced(managed: map<Address, nat>, pending: Lists, todo: set<Address>): map<Address, nat> {
    managed + (NextNonces(pending) - todo)
  }

  lemma SyncStarts(managed: map<Address, nat>, pending: Lists)
    ensures Synced(managed, pending, pending.Keys) == managed
    ensures Synced(managed, pending, {}) == managed + NextNonces(pending)
  {
    assert NextNonces(pending).Keys <= pending.Keys;
    hide NextNonces;
    WithoutKeys(managed, NextNonces(pending), pending.Keys);
  }

  lemma WithoutKeys(m: map<Address, nat>, next: map<Address, nat>, s: set<Address>)
    requires next.Keys <= s
    ensures m + (next - s) == m && m + (next - {}) == m + next
  {
    assert (next - s).Keys == {};
    assert (m + (next - s)).Keys == m.Keys;
    assert next - {} == next;
  }

  lemma SyncStep(managed: map<Address, nat>, pending: Lists, todo: set<Address>, a: Address)
    requires WellFormed(pending) && todo <= pending.Keys && a in todo
    ensures |pending[a]| > 0
    ensures Synced(managed, pending, todo)[a := Highest(pending[a]) + 1] == Synced(managed, pending, todo - {a})
  {
    assert pending[a] != map[];
    var next := NextNonces(pending);
    assert a in next && next[a] == Highest(pending[a]) + 1;
    hide NextNonces;
    assert (managed + (next - todo))[a := next[a]] == managed + (next - (todo - {a}));
  }

  /** Survives demotion's payment filter: the nonce is not spent, and nothing from the state
      nonce up to it is too dear. */
  ghost predicate Survives(list: Items, acct: Account, maxGas: nat, k: nat) {
    && k in list
    && acct.nonce <= k
    && forall m :: m in list && acct.nonce <= m <= k ==> !TooDear(list[m], acct.balance, maxGas)
  }

  /** No nonce between the state nonce and a survivor is missing, or the state nonce itself does not survive. */
  ghost predicate NoHole(list: Items, acct: Account, maxGas: nat) {
    Survives(list, acct, maxGas, acct.nonce) ==>
      forall k: nat, m :: Survives(list, acct, maxGas, k) && acct.nonce <= m <= k ==> m in list
  }

  lemma AbleSurvives(list: Items, acct: Account, maxGas: nat, k: nat)
    requires Keyed(list)
    ensures k in Affordable(From(list, acct.nonce), acct.balance, maxGas, true) <==> Survives(list, acct, maxGas, k)
  {
    var l1 := From(list, acct.nonce);
    var dear := Dear(l1, acct.balance, maxGas);
    assert dear == Matching(l1, tx => TooDear(tx, acct.balance, maxGas));
    assert forall m :: m in dear <==> m in list && acct.nonce <= m && TooDear(list[m], acct.balance, maxGas);
    assert forall n :: n in dear <==> n in Nonces(dear);
    if |Nonces(dear)| > 0 {
      var h := Head(Nonces(dear));
      assert Affordable(l1, acct.balance, maxGas, true) == Below(l1, h);
      hide Dear, Affordable, Nonces, TooDear;
      assert h in Nonces(dear);
      assert forall m :: m in dear ==> h <= m;
    } else {
      assert forall n :: n !in Nonces(dear);
    }
  }

  lemma StaysSurvive(list: Items, acct: Account, maxGas: nat)
    requires Keyed(list)
    ensures var stays := StaysPending(list, acct, maxGas);
      && (forall k :: k in stays <==> Survives(list, acct, maxGas, acct.nonce) && Survives(list, acct, maxGas, k))
      && (stays == map[] <==> !Survives(list, acct, maxGas, acct.nonce))
  {
    hide Affordable, From, Survives;
    forall k
      ensures k in Affordable(From(list, acct.nonce), acct.balance, maxGas, true) <==> Survives(list, acct, maxGas, k)
    {
      if k >= 0 { AbleSurvives(list, acct, maxGas, k); }
    }
  }

  /** Demotion leaves a list without a gap from the state nonce on exactly if it had no hole there. */
  lemma StaysGapless(list: Items, acct: Account, maxGas: nat)
    requires Keyed(list)
    ensures (exists top: nat :: Contiguous(StaysPending(list, acct, maxGas), acct.nonce, top)) <==>
      NoHole(list, acct, maxGas)
  {
    var stays := StaysPending(list, acct, maxGas);
    StaysSurvive(list, acct, maxGas);
    hide StaysPending, Survives, Contiguous;
    if !Survives(list, acct, maxGas, acct.nonce) {
      EmptyRun(acct.nonce, acct.nonce);
      assert Contiguous(stays, acct.nonce, acct.nonce);
    } else if NoHole(list, acct, maxGas) {
      SurvivorsRun(list, acct, maxGas, stays);
    } else {
      HoleStays(list, acct, maxGas, stays);
    }
  }

  lemma EmptyRun(lo: nat, hi: nat)
    ensures Contiguous(map[], lo, hi) <==> lo == hi
  {
    var none: Items := map[];
    assert lo !in none;
    assert Contiguous(none, lo, hi) ==> !(lo <= lo < hi);
  }

  lemma SurvivorsRun(list: Items, acct: Account, maxGas: nat, stays: Items)
    requires NoHole(list, acct, maxGas) && Survives(list, acct, maxGas, acct.nonce)
    requires forall k :: k in stays <==> Survives(list, acct, maxGas, k)
    ensures exists top: nat :: Contiguous(stays, acct.nonce, top)
  {
    assert acct.nonce in stays;
    assert |stays| > 0;
    var top := Highest(stays);
    forall m: nat | acct.nonce <= m <= top
      ensures m in stays
    {
      assert Survives(list, acct, maxGas, top);
      assert m in list;
    }
    assert forall m :: m in stays ==> Survives(list, acct, maxGas, m);
    assert Contiguous(stays, acct.nonce, top + 1);
  }

  lemma HoleStays(list: Items, acct: Account, maxGas: nat, stays: Items)
    requires !NoHole(list, acct, maxGas)
    requires forall k :: k in stays <==> Survives(list, acct, maxGas, acct.nonce) && Survives(list, acct, maxGas, k)
    ensures !exists top: nat :: Contiguous(stays, acct.nonce, top)
  {
    var k: nat, m :| Survives(list, acct, maxGas, k) && acct.nonce <= m <= k && m !in list;
    assert k in stays;
    assert m !in stays;
  }

  /** What demotion needs of an account to leave its pending nonces without a gap up to its pending nonce. */
  ghost predicate InLine(p0: Lists, m0: map<Address, nat>, state: Address -> Account, maxGas: nat, a: Address) {
    && NoHole(ListOf(p0, a), state(a), maxGas)
    && (Survives(ListOf(p0, a), state(a), maxGas, state(a).nonce) || NextNonce(state, m0, a) == state(a).nonce)
  }

  /** Demotion and the new pending nonces leave every account without a gap exactly if each was in line. */
  lemma DemotionTight(p0: Lists, m0: map<Address, nat>, p: Lists, state: Address -> Account, maxGas: nat)
    requires WellFormed(p0) && WellFormed(p) && forall a: Address :: StayedAt(p0, p, state, maxGas, a)
    ensures Tight(p, state, m0 + NextNonces(p)) <==> forall a: Address :: InLine(p0, m0, state, maxGas, a)
  {
    hide *;
    forall a: Address
      ensures Contiguous(ListOf(p, a), state(a).nonce, NextNonce(state, m0 + NextNonces(p), a)) <==>
        InLine(p0, m0, state, maxGas, a)
    {
      assert StayedAt(p0, p, state, maxGas, a);
      StayedMeans(p0, p, state, maxGas, a);
      KeyedList(p0, a);
      InLineMeans(p0, m0, state, maxGas, a);
      StaysGapless(ListOf(p0, a), state(a), maxGas);
      StaysSurvive(ListOf(p0, a), state(a), maxGas);
      NextAfter(p, m0, state, a);
    }
    TightMeans(p, state, m0 + NextNonces(p));
  }

  lemma InLineMeans(p0: Lists, m0: map<Address, nat>, state: Address -> Account, maxGas: nat, a: Address)
    ensures InLine(p0, m0, state, maxGas, a) <==>
      && NoHole(ListOf(p0, a), state(a), maxGas)
      && (Survives(ListOf(p0, a), state(a), maxGas, state(a).nonce) || NextNonce(state, m0, a) == state(a).nonce)
  {
  }

  lemma StayedMeans(p0: Lists, p: Lists, state: Address -> Account, maxGas: nat, a: Address)
    requires StayedAt(p0, p, state, maxGas, a)
    ensures ListOf(p, a) == StaysPending(ListOf(p0, a), state(a), maxGas)
  {
  }

  lemma KeyedList(ls: Lists, a: Address)
    requires WellFormed(ls)
    ensures Keyed(ListOf(ls, a))
  {
  }

  lemma TightMeans(p: Lists, state: Address -> Account, m: map<Address, nat>)
    ensures Tight(p, state, m) <==>
      forall a: Address :: Contiguous(ListOf(p, a), state(a).nonce, NextNonce(state, m, a))
  {
    hide Contiguous;
  }

  lemma NextAfter(p: Lists, m0: map<Address, nat>, state: Address -> Account, a: Address)
    requires WellFormed(p)
    ensures Contiguous(ListOf(p, a), state(a).nonce, NextNonce(state, m0 + NextNonces(p), a)) <==>
      && (exists top: nat :: Contiguous(ListOf(p, a), state(a).nonce, top))
      && (ListOf(p, a) == map[] ==> NextNonce(state, m0, a) == state(a).nonce)
  {
    if a in p {
      assert p[a] != map[] && |p[a]| > 0;
      assert NextNonce(state, m0 + NextNonces(p), a) == Highest(p[a]) + 1;
      if top: nat :| Contiguous(p[a], state(a).nonce, top) {
        ContiguousSize(p[a], state(a).nonce, top);
        assert Highest(p[a]) == top - 1 by { assert top - 1 in p[a]; }
      }
    } else {
      assert NextNonce(state, m0 + NextNonces(p), a) == NextNonce(state, m0, a);
      assert Contiguous(map[], state(a).nonce, state(a).nonce);
      EmptyRun(state(a).nonce, NextNonce(state, m0, a));
    }
  }

  /** Moving to a state in which no nonce is lower puts every account in line: no transaction is missing. */
  lemma ForwardInLine(p0: Lists, state0: Address -> Account, m0: map<Address, nat>, state: Address -> Account,
                      maxGas: nat)
    requires Tight(p0, state0, m0) && Forward(state0, state)
    ensures forall a: Address :: InLine(p0, map[], state, maxGas, a)
  {
    forall a: Address
      ensures InLine(p0, map[], state, maxGas, a)
    {
      TightAt(p0, state0, m0, a);
      assert state0(a).nonce <= state(a).nonce;
    }
  }

  /** Demotion closes no gap behind the state nonce: with nonces 3 and 5 pending and 3 next,
      both stay, though 4 is missing. */
  lemma GapStays(third: Tx, fifth: Tx, acct: Account, maxGas: nat)
    requires third.nonce == acct.nonce == 3 && fifth.nonce == 5
    requires !TooDear(third, acct.balance, maxGas) && !TooDear(fifth, acct.balance, maxGas)
    ensures var list := map[3 := third, 5 := fifth];
      StaysPending(list, acct, maxGas) == list && forall top: nat :: !Contiguous(list, 3, top)
  {
    hide TooDear;
    var list := map[3 := third, 5 := fifth];
    assert From(list, 3) == list;
    var dear := Dear(list, acct.balance, maxGas);
    assert dear == Matching(list, tx => TooDear(tx, acct.balance, maxGas));
    assert dear == map[];
    assert Nonces(dear) == multiset{};
    assert Affordable(list, acct.balance, maxGas, true) == list;
    forall top: nat
      ensures !Contiguous(list, 3, top)
    {
      assert 5 in list && 4 !in list;
    }
  }

  // Insertion

  /** A newcomer takes the slot of a pending transaction, which leaves the lookup. */
  lemma ReplacePending(pending: Lists, queue: Lists, all: set<Tx>, tx: Tx)
    requires Inv(pending, queue, all, {}) && Taken(pending, tx) && tx !in all
    ensures tx.nonce in ListOf(pending, tx.from) && ListOf(pending, tx.from)[tx.nonce] in all
    ensures Inv(SetList(pending, tx.from, ListOf(pending, tx.from)[tx.nonce := tx]), queue,
                all - {ListOf(pending, tx.from)[tx.nonce]} + {tx}, {})
  {
    Swap(pending, queue, all, {});
    ReplaceQueued(queue, pending, all, tx);
    var list := ListOf(pending, tx.from);
    Swap(queue, SetList(pending, tx.from, list[tx.nonce := tx]), all - {list[tx.nonce]} + {tx}, {});
  }

  lemma ReplaceQueued(pending: Lists, queue: Lists, all: set<Tx>, tx: Tx)
    requires Inv(pending, queue, all, {}) && Taken(queue, tx) && tx !in all
    ensures tx.nonce in ListOf(queue, tx.from) && ListOf(queue, tx.from)[tx.nonce] in all
    ensures Inv(pending, SetList(queue, tx.from, ListOf(queue, tx.from)[tx.nonce := tx]),
                all - {ListOf(queue, tx.from)[tx.nonce]} + {tx}, {})
  {
    hide *;
    var a := tx.from;
    var list := ListOf(queue, a);
    var other := SlotHolder(pending, queue, all, tx);
    TakeOneQueued(pending, queue, all, other);
    var q1 := SetList(queue, a, list - {tx.nonce});
    SlotFree(pending, queue, all, tx, q1);
    Arrive(pending, q1, all - {other}, {}, tx);
    assert {} + {tx} - {tx} == {};
    LandQueued(pending, q1, all - {other} + {tx}, {} + {tx}, tx);
    SameSlot(queue, a, list, tx);
  }

  /** The transaction in a taken queue slot. */
  lemma SlotHolder(pending: Lists, queue: Lists, all: set<Tx>, tx: Tx) returns (other: Tx)
    requires Inv(pending, queue, all, {}) && Taken(queue, tx)
    ensures tx.nonce in ListOf(queue, tx.from) && other == ListOf(queue, tx.from)[tx.nonce]
    ensures other in all && other.from == tx.from && other.nonce == tx.nonce && !Taken(pending, other)
  {
    other := queue[tx.from][tx.nonce];
    assert other.from == tx.from && other.nonce == tx.nonce;
    assert Holds(queue, other) && Taken(queue, other);
  }

  lemma SlotFree(pending: Lists, queue: Lists, all: set<Tx>, tx: Tx, q1: Lists)
    requires Inv(pending, queue, all, {}) && Taken(queue, tx)
    requires q1 == SetList(queue, tx.from, ListOf(queue, tx.from) - {tx.nonce})
    ensures !Taken(pending, tx) && !Taken(q1, tx)
  {
  }

  lemma SameSlot(queue: Lists, a: Address, list: Items, tx: Tx)
    requires list == ListOf(queue, a)
    ensures var q1 := SetList(queue, a, list - {tx.nonce});
      SetList(q1, a, ListOf(q1, a)[tx.nonce := tx]) == SetList(queue, a, list[tx.nonce := tx])
  {
    ListOfSet(queue, a, list - {tx.nonce}, a);
    assert (list - {tx.nonce})[tx.nonce := tx] == list[tx.nonce := tx];
    SetTwice(queue, a, list - {tx.nonce}, list[tx.nonce := tx]);
  }

  /** A newcomer whose nonce is not pending goes to the queue, into a free slot or the place of another. */
  lemma Enqueued(pending: Lists, queue: Lists, all: set<Tx>, tx: Tx, priceBump: nat)
    requires Inv(pending, queue, all, {}) && !Taken(pending, tx) && tx !in all
    ensures var r := AddTo(ListOf(queue, tx.from), tx, priceBump);
      && (r.inserted ==> Inv(pending, SetList(queue, tx.from, r.items), all - ReplacedSet(r.replaced) + {tx}, {}))
      && (!r.inserted ==> SetList(queue, tx.from, r.items) == queue)
      && Replaces(all, tx, priceBump, r)
  {
    hide *;
    SlotOf(pending, queue, all, tx, priceBump);
    if tx.nonce in ListOf(queue, tx.from) {
      ReplaceQueued(pending, queue, all, tx);
    } else {
      Arrive(pending, queue, all, {}, tx);
      LandQueued(pending, queue, all + {tx}, {} + {tx}, tx);
      assert {} + {tx} - {tx} == {};
      assert all - {} == all;
    }
  }

  /** What an insertion says of the slot: the transaction it replaced was outbid, and the
      one that refused it was not. */
  ghost predicate Replaces(all: set<Tx>, tx: Tx, priceBump: nat, r: Added) {
    && (r.replaced.Some? ==> r.inserted && r.replaced.value in all)
    && (r.replaced.Some? ==> SlotMates(tx, r.replaced.value) && Outbids(tx, r.replaced.value, priceBump))
    && (!r.inserted ==> exists o :: o in all && SlotMates(tx, o) && !Outbids(tx, o, priceBump))
  }

  ghost predicate SlotMates(a: Tx, b: Tx) {
    a.from == b.from && a.nonce == b.nonce
  }

  lemma SlotOf(pending: Lists, queue: Lists, all: set<Tx>, tx: Tx, priceBump: nat)
    requires Inv(pending, queue, all, {})
    ensures tx.nonce in ListOf(queue, tx.from) <==> Taken(queue, tx)
    ensures var list := ListOf(queue, tx.from); var r := AddTo(list, tx, priceBump);
      && Replaces(all, tx, priceBump, r)
      && (r.inserted ==> r.items == list[tx.nonce := tx])
      && (r.inserted ==> ReplacedSet(r.replaced) == if tx.nonce in list then {list[tx.nonce]} else {})
      && (!r.inserted ==> SetList(queue, tx.from, r.items) == queue)
  {
    var list := ListOf(queue, tx.from);
    if tx.nonce in list {
      var o := SlotHolder(pending, queue, all, tx);
      assert SlotMates(tx, o);
      assert queue[tx.from := list] == queue;
    }
  }

  /** The same for a pending slot. */
  lemma Outpriced(pending: Lists, queue: Lists, all: set<Tx>, tx: Tx, priceBump: nat)
    requires Inv(pending, queue, all, {}) && Taken(pending, tx) && tx !in all
    ensures var r := AddTo(ListOf(pending, tx.from), tx, priceBump);
      && (r.inserted ==>
          r.replaced.Some? && Inv(SetList(pending, tx.from, r.items), queue, all - ReplacedSet(r.replaced) + {tx}, {}))
      && (!r.inserted ==> SetList(pending, tx.from, r.items) == pending)
      && Replaces(all, tx, priceBump, r)
  {
    hide *;
    Swap(pending, queue, all, {});
    SlotOf(queue, pending, all, tx, priceBump);
    ReplacePending(pending, queue, all, tx);
    AddToTaken(ListOf(pending, tx.from), tx, priceBump);
  }

  lemma AddToTaken(list: Items, tx: Tx, priceBump: nat)
    requires tx.nonce in list
    ensures AddTo(list, tx, priceBump).inserted ==> AddTo(list, tx, priceBump).replaced.Some?
  {
  }

  /** A replacement keeps the nonces of its list. */
  lemma ReplaceTight(pending: Lists, state: Address -> Account, managed: map<Address, nat>, tx: Tx, priceBump: nat)
    requires Taken(pending, tx)
    ensures Tight(pending, state, managed) ==>
      Tight(SetList(pending, tx.from, AddTo(ListOf(pending, tx.from), tx, priceBump).items), state, managed)
  {
    if Tight(pending, state, managed) {
      var a := tx.from;
      var items := AddTo(ListOf(pending, a), tx, priceBump).items;
      forall b: Address
        ensures Contiguous(ListOf(SetList(pending, a, items), b), state(b).nonce, NextNonce(state, managed, b))
      {
        ListOfSet(pending, a, items, b);
        TightAt(pending, state, managed, b);
      }
    }
  }

  // Making room

  /** add's answers. */
  datatype Verdict = Accepted | KnownTransaction | OversizedData | GasLimitExceeded | InvalidSender | UnderpricedTx
                   | NonceTooLow | InsufficientFunds | IntrinsicGasTooLow | ReplaceUnderpriced

  datatype Checks = Checks(sized: Tx -> bool, signed: Tx -> bool, intrinsic: Tx -> nat)

  ghost predicate Full(config: Config, all: set<Tx>) {
    |all| >= config.globalSlots + config.globalQueue
  }

  ghost predicate CheaperThanAll(tx: Tx, all: set<Tx>) {
    forall t :: t in all ==> tx.price <= t.price
  }

  lemma FullMeans(config: Config, all: set<Tx>)
    requires config.Sane()
    ensures Full(config, all) <==> |all| >= config.globalSlots + config.globalQueue
    ensures Full(config, all) ==> all != {}
  {
  }

  lemma CheaperMeans(tx: Tx, all: set<Tx>)
    ensures CheaperThanAll(tx, all) <==> forall t :: t in all ==> tx.price <= t.price
  {
  }

  lemma StillUnknown(all: set<Tx>, dropped: set<Tx>, tx: Tx)
    requires tx !in all
    ensures tx !in all - dropped
  {
  }

  lemma ReplacedOne(r: Added)
    requires r.replaced.Some?
    ensures ReplacedSet(r.replaced) == {r.replaced.value}
  {
  }

  lemma ReplacesOnlyIn(all: set<Tx>, tx: Tx, priceBump: nat, r: Added)
    requires Replaces(all, tx, priceBump, r)
    ensures r.replaced.Some? ==> r.inserted
  {
  }

  lemma TxSetStarts(txs: seq<Tx>)
    ensures TxSet(txs[..0]) == {}
  {
  }

  lemma TxSetGrows(txs: seq<Tx>, i: nat)
    requires i < |txs|
    ensures TxSet(txs[..i + 1]) == TxSet(txs[..i]) + {txs[i]}
  {
    assert txs[..i + 1] == txs[..i] + [txs[i]];
  }

  /** After a price cap the lookup has lost exactly the remote transactions below the threshold. */
  lemma BelowThreshold(all: set<Tx>, drop: seq<Tx>, locals: set<Address>, price: nat)
    requires forall tx :: tx in drop <==> tx in all && !IsLocal(locals, tx) && tx.price < price
    ensures forall tx :: tx in all - TxSet(drop) <==> tx in all && (IsLocal(locals, tx) || price <= tx.price)
    ensures all - (all - TxSet(drop)) == TxSet(drop)
  {
  }

  // Eviction

  ghost predicate Expired(locals: set<Address>, beats: map<Address, int>, a: Address, now: int, lifetime: nat) {
    a !in locals && now - BeatOf(beats, a) > lifetime
  }

  /** The queue with the expired accounts gone, except those still to be looked at. */
  ghost function Evicted(queue: Lists, locals: set<Address>, beats: map<Address, int>, now: int, lifetime: nat,
                         todo: set<Address>): Lists
  {
    map a | a in queue && (a in todo || !Expired(locals, beats, a, now, lifetime)) :: queue[a]
  }

  lemma EvictStarts(queue: Lists, locals: set<Address>, beats: map<Address, int>, now: int, lifetime: nat)
    ensures queue == Evicted(queue, locals, beats, now, lifetime, queue.Keys)
  {
  }

  lemma EvictStep(queue: Lists, locals: set<Address>, beats: map<Address, int>, now: int, lifetime: nat,
                  todo: set<Address>, a: Address)
    requires a in todo && a in queue
    ensures var q := Evicted(queue, locals, beats, now, lifetime, todo);
      a in q && Evicted(queue, locals, beats, now, lifetime, todo - {a}) ==
        if a !in locals && now - BeatOf(beats, a) > lifetime then q - {a} else q
  {
  }

  lemma EvictEnds(queue: Lists, locals: set<Address>, beats: map<Address, int>, now: int, lifetime: nat)
    ensures Evicted(queue, locals, beats, now, lifetime, {}) ==
      map a | a in queue && !Expired(locals, beats, a, now, lifetime) :: queue[a]
  {
  }

  /** No account has a lower nonce than before. */
  ghost predicate Forward(from: Address -> Account, to: Address -> Account) {
    forall a: Address :: from(a).nonce <= to(a).nonce
  }

  // Runs of operations

  datatype Op =
    | AddOne(tx: Tx, local: bool, now: int)
    | AddMany(txs: seq<Tx>, local: bool, now: int)
    | SetPrice(price: nat)
    | EvictOld(now: int, lifetime: nat)
    | NewHead(reinject: seq<Tx>, state: Address -> Account, maxGas: nat, now: int)

  function StateAfter(op: Op, state: Address -> Account): Address -> Account {
    if op.NewHead? then op.state else state
  }

  /** Every operation but a reset that goes back or reinjects. */
  ghost predicate KeepsRuns(op: Op, state: Address -> Account) {
    op.NewHead? ==> op.reinject == [] && Forward(state, op.state)
  }

  ghost predicate RunsForward(ops: seq<Op>, state: Address -> Account)
    decreases |ops|
  {
    ops != [] ==> KeepsRuns(ops[0], state) && RunsForward(ops[1..], StateAfter(ops[0], state))
  }

  lemma ResetMeans(op: Op, state: Address -> Account)
    ensures StateAfter(op, state) == if op.NewHead? then op.state else state
    ensures KeepsRuns(op, state) <==> (op.NewHead? ==> op.reinject == [] && Forward(state, op.state))
  {
  }

  lemma RunStarts(ops: seq<Op>, state: Address -> Account)
    ensures RunsForward(ops, state) ==> RunsForward(ops[0..], state)
  {
    assert ops[0..] == ops;
  }

  lemma RunStep(ops: seq<Op>, i: nat, state: Address -> Account)
    requires i < |ops|
    ensures RunsForward(ops[i..], state) ==>
      KeepsRuns(ops[i], state) && RunsForward(ops[i + 1..], StateAfter(ops[i], state))
  {
    assert ops[i..][1..] == ops[i + 1..];
  }

  // Dropping

  /** Only remote transactions were dropped, none dearer than a remote one that stayed. */
  ghost predicate CheapestGone(all: set<Tx>, dropped: set<Tx>, locals: set<Address>) {
    && dropped <= all
    && (forall d :: d in dropped ==> !IsLocal(locals, d))
    && (forall d, t :: d in dropped && t in all && t !in dropped && !IsLocal(locals, t) ==> d.price <= t.price)
  }

  lemma CheapestDropped(all: set<Tx>, drop: seq<Tx>, locals: set<Address>)
    requires forall tx :: tx in drop ==> tx in all && !IsLocal(locals, tx)
    requires forall d, t :: d in drop && t in all && !IsLocal(locals, t) && t !in drop ==> d.price <= t.price
    ensures CheapestGone(all, TxSet(drop), locals)
  {
  }

  lemma NothingDropped(all: set<Tx>, locals: set<Address>)
    ensures CheapestGone(all, {}, locals) && all - {} == all
  {
  }

  lemma CoveredFully(all: set<Tx>, items: multiset<Tx>, out: seq<Tx>)
    requires CoveredWith(all, items, out) && all * TxSet(out) == {}
    ensures Covered(all, items)
  {
    forall tx | tx in all
      ensures tx in items
    {
      assert tx in out ==> tx in all * TxSet(out);
    }
  }

  lemma StillCovered(all0: set<Tx>, items0: multiset<Tx>, all: set<Tx>, items: multiset<Tx>, out: seq<Tx>)
    requires KeepsCover(all0, items0, all, items)
    ensures CoveredWith(all0, items0, out) ==> CoveredWith(all, items, out)
    ensures Covered(all0, items0) ==> Covered(all, items)
  {
    assert Covered(all0, items0) ==> CoveredWith(all0, items0, []);
    assert CoveredWith(all, items, []) ==> Covered(all, items);
  }

  lemma TakeNext(all: set<Tx>, txs: seq<Tx>, i: nat)
    requires i < |txs|
    ensures all - TxSet(txs[..i]) - {txs[i]} == all - TxSet(txs[..i + 1])
    ensures TxSet(txs[..i + 1]) == TxSet(txs[..i]) + {txs[i]}
  {
    assert txs[..i + 1] == txs[..i] + [txs[i]];
  }

  lemma TakeNone(all: set<Tx>, txs: seq<Tx>)
    ensures all - TxSet(txs[..0]) == all && TxSet(txs[..0]) == {}
    ensures (all - TxSet(txs)) * TxSet(txs) == {} && txs[..|txs|] == txs
  {
  }
}
