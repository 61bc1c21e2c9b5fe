/** core/tx_pool.go: the pending and queued lists and the lookup of all transactions, as values. */
module PoolTables {
  import opened TxLists

  type Lists = map<Address, Items>

  function ListOf(ls: Lists, a: Address): Items {
    if a in ls then ls[a] else map[]
  }

  /** A list is kept under its account while it holds anything. */
  function SetList(ls: Lists, a: Address, items: Items): Lists {
    if items == map[] then ls - {a} else ls[a := items]
  }

  ghost predicate Holds(ls: Lists, tx: Tx) {
    tx.from in ls && tx.nonce in ls[tx.from] && ls[tx.from][tx.nonce] == tx
  }

  /** Whether the slot of a transaction, its account and nonce, is taken. */
  ghost predicate Taken(ls: Lists, tx: Tx) {
    tx.from in ls && tx.nonce in ls[tx.from]
  }

  ghost predicate OwnedBy(items: Items, a: Address) {
    forall n :: n in items ==> items[n].nonce == n && items[n].from == a
  }

  ghost predicate WellFormed(ls: Lists) {
    forall a :: a in ls ==> ls[a] != map[] && OwnedBy(ls[a], a)
  }

  /** No account has a nonce both pending and queued. */
  ghost predicate Apart(pending: Lists, queue: Lists) {
    forall tx: Tx :: Taken(pending, tx) ==> !Taken(queue, tx)
  }

  /** Transactions between two lists: known to the pool, with slots of their own that are free in both tables. */
  ghost predicate InFlight(pending: Lists, queue: Lists, limbo: set<Tx>) {
    && (forall tx :: tx in limbo ==> !Taken(pending, tx) && !Taken(queue, tx))
    && (forall tx, ux :: tx in limbo && ux in limbo && tx.from == ux.from && tx.nonce == ux.nonce ==> tx == ux)
  }

  /** The lookup is the disjoint union of pending, queue and what is in flight, and no account has a nonce twice. */
  ghost predicate Inv(pending: Lists, queue: Lists, all: set<Tx>, limbo: set<Tx>) {
    && WellFormed(pending) && WellFormed(queue) && Apart(pending, queue) && InFlight(pending, queue, limbo)
    && (forall tx :: tx in all <==> Holds(pending, tx) || Holds(queue, tx) || tx in limbo)
  }

  /** Under the invariant the three parts do not overlap. */
  lemma PartsDisjoint(pending: Lists, queue: Lists, all: set<Tx>, limbo: set<Tx>, tx: Tx)
    requires Inv(pending, queue, all, limbo)
    ensures !(Holds(pending, tx) && Holds(queue, tx))
    ensures !(tx in limbo && (Holds(pending, tx) || Holds(queue, tx)))
  {
    assert Holds(pending, tx) ==> Taken(pending, tx);
  }

  function Values(items: Items): set<Tx> {
    set n | n in items :: items[n]
  }

  ghost predicate SubItems(part: Items, whole: Items) {
    forall n :: n in part ==> n in whole && part[n] == whole[n]
  }

  lemma ListOfSet(ls: Lists, a: Address, items: Items, b: Address)
    ensures ListOf(SetList(ls, a, items), b) == if a == b then items else ListOf(ls, b)
  {
  }

  lemma WellFormedSet(ls: Lists, a: Address, items: Items)
    requires WellFormed(ls) && OwnedBy(items, a)
    ensures WellFormed(SetList(ls, a, items))
  {
  }

  lemma HoldsSet(ls: Lists, a: Address, items: Items, tx: Tx)
    ensures Holds(SetList(ls, a, items), tx) <==>
      if tx.from == a then tx.nonce in items && items[tx.nonce] == tx else Holds(ls, tx)
    ensures Taken(SetList(ls, a, items), tx) <==> if tx.from == a then tx.nonce in items else Taken(ls, tx)
  {
  }

  lemma OwnedByList(ls: Lists, a: Address)
    requires WellFormed(ls)
    ensures OwnedBy(ListOf(ls, a), a)
  {
  }

  lemma ValueOf(items: Items, a: Address, tx: Tx)
    requires OwnedBy(items, a)
    ensures tx in Values(items) <==> tx.nonce in items && items[tx.nonce] == tx && tx.from == a
  {
    if tx.nonce in items && items[tx.nonce] == tx { assert tx == items[tx.nonce]; }
  }

  // Moves between the tables

  /** Shrinking a queued list puts what left it in flight. */
  lemma TakeQueued(pending: Lists, queue: Lists, all: set<Tx>, limbo: set<Tx>, a: Address, rest: Items)
    requires Inv(pending, queue, all, limbo) && SubItems(rest, ListOf(queue, a))
    ensures Inv(pending, SetList(queue, a, rest), all, limbo + Values(Minus(ListOf(queue, a), rest)))
  {
    var q' := SetList(queue, a, rest);
    var out := Values(Minus(ListOf(queue, a), rest));
    OwnedByList(queue, a);
    WellFormedSet(queue, a, rest);
    forall tx: Tx
      ensures Holds(queue, tx) <==> Holds(q', tx) || tx in out
      ensures tx in out ==> Taken(queue, tx) && !Taken(q', tx)
      ensures Taken(q', tx) ==> Taken(queue, tx)
      ensures forall ux :: tx in out && ux in out && tx.from == ux.from && tx.nonce == ux.nonce ==> tx == ux
      ensures tx in out ==> forall ux :: ux in limbo && tx.from == ux.from && tx.nonce == ux.nonce ==> Taken(queue, ux)
    {
      TakenOut(queue, a, rest, tx);
      forall ux | tx in out && ux in out && tx.from == ux.from && tx.nonce == ux.nonce ensures tx == ux {
        TakenOut(queue, a, rest, ux);
      }
    }
    hide SetList, Minus, Values, Taken, Holds, WellFormed;
    InvAfterTake(pending, queue, q', all, limbo, out);
  }

  lemma TakenOut(queue: Lists, a: Address, rest: Items, tx: Tx)
    requires WellFormed(queue) && SubItems(rest, ListOf(queue, a))
    ensures var q' := SetList(queue, a, rest); var out := Values(Minus(ListOf(queue, a), rest));
      && (Holds(queue, tx) <==> Holds(q', tx) || tx in out)
      && (tx in out ==> Taken(queue, tx) && !Taken(q', tx) && Holds(queue, tx))
      && (Taken(q', tx) ==> Taken(queue, tx))
  {
    OwnedByList(queue, a);
    HoldsSet(queue, a, rest, tx);
    ValueOf(Minus(ListOf(queue, a), rest), a, tx);
  }

  lemma InvAfterTake(pending: Lists, queue: Lists, q': Lists, all: set<Tx>, limbo: set<Tx>, out: set<Tx>)
    requires Inv(pending, queue, all, limbo) && WellFormed(q')
    requires forall tx: Tx :: Holds(queue, tx) <==> Holds(q', tx) || tx in out
    requires forall tx: Tx :: tx in out ==> Taken(queue, tx) && !Taken(q', tx)
    requires forall tx: Tx :: Taken(q', tx) ==> Taken(queue, tx)
    requires forall tx, ux :: tx in out && ux in out && tx.from == ux.from && tx.nonce == ux.nonce ==> tx == ux
    requires forall tx, ux :: tx in out && ux in limbo && tx.from == ux.from && tx.nonce == ux.nonce ==>
      Taken(queue, ux)
    ensures Inv(pending, q', all, limbo + out)
  {
    hide Taken, Holds, WellFormed;
  }

  /** Shrinking a pending list puts what left it in flight. */
  lemma TakePending(pending: Lists, queue: Lists, all: set<Tx>, limbo: set<Tx>, a: Address, rest: Items)
    requires Inv(pending, queue, all, limbo) && SubItems(rest, ListOf(pending, a))
    ensures Inv(SetList(pending, a, rest), queue, all, limbo + Values(Minus(ListOf(pending, a), rest)))
  {
    Swap(pending, queue, all, limbo);
    TakeQueued(queue, pending, all, limbo, a, rest);
    Swap(queue, SetList(pending, a, rest), all, limbo + Values(Minus(ListOf(pending, a), rest)));
  }

  lemma Swap(pending: Lists, queue: Lists, all: set<Tx>, limbo: set<Tx>)
    requires Inv(pending, queue, all, limbo)
    ensures Inv(queue, pending, all, limbo)
  {
  }

  /** A transaction in flight lands in a queue slot, which is free. */
  lemma LandQueued(pending: Lists, queue: Lists, all: set<Tx>, limbo: set<Tx>, tx: Tx)
    requires Inv(pending, queue, all, limbo) && tx in limbo
    ensures tx.nonce !in ListOf(queue, tx.from)
    ensures Inv(pending, SetList(queue, tx.from, ListOf(queue, tx.from)[tx.nonce := tx]), all, limbo - {tx})
  {
    var a := tx.from;
    var items := ListOf(queue, a)[tx.nonce := tx];
    var q' := SetList(queue, a, items);
    OwnedByList(queue, a);
    WellFormedSet(queue, a, items);
    forall ux: Tx
      ensures Holds(q', ux) <==> Holds(queue, ux) || ux == tx
      ensures Taken(q', ux) <==> Taken(queue, ux) || (ux.from == a && ux.nonce == tx.nonce)
      ensures ux.from == a && ux.nonce == tx.nonce ==> (Taken(pending, ux) <==> Taken(pending, tx))
    {
      HoldsSet(queue, a, items, ux);
    }
    hide SetList, ListOf, Taken, Holds, WellFormed;
    InvAfterLand(pending, queue, q', all, limbo, tx);
  }

  lemma InvAfterLand(pending: Lists, queue: Lists, q': Lists, all: set<Tx>, limbo: set<Tx>, tx: Tx)
    requires Inv(pending, queue, all, limbo) && WellFormed(q') && tx in limbo
    requires forall ux: Tx :: Holds(q', ux) <==> Holds(queue, ux) || ux == tx
    requires forall ux: Tx :: Taken(q', ux) <==> Taken(queue, ux) || (ux.from == tx.from && ux.nonce == tx.nonce)
    requires forall ux: Tx :: ux.from == tx.from && ux.nonce == tx.nonce ==>
      (Taken(pending, ux) <==> Taken(pending, tx))
    ensures Inv(pending, q', all, limbo - {tx})
  {
    hide Taken, Holds, WellFormed;
  }

  lemma LandPending(pending: Lists, queue: Lists, all: set<Tx>, limbo: set<Tx>, tx: Tx)
    requires Inv(pending, queue, all, limbo) && tx in limbo
    ensures tx.nonce !in ListOf(pending, tx.from)
    ensures Inv(SetList(pending, tx.from, ListOf(pending, tx.from)[tx.nonce := tx]), queue, all, limbo - {tx})
  {
    Swap(pending, queue, all, limbo);
    LandQueued(queue, pending, all, limbo, tx);
    Swap(queue, SetList(pending, tx.from, ListOf(pending, tx.from)[tx.nonce := tx]), all, limbo - {tx});
  }

  /** Dropping transactions in flight from the lookup. */
  lemma Forget(pending: Lists, queue: Lists, all: set<Tx>, limbo: set<Tx>, gone: set<Tx>)
    requires Inv(pending, queue, all, limbo) && gone <= limbo
    ensures Inv(pending, queue, all - gone, limbo - gone)
  {
  }

  /** A new transaction whose slot is free enters in flight. */
  lemma Arrive(pending: Lists, queue: Lists, all: set<Tx>, limbo: set<Tx>, tx: Tx)
    requires Inv(pending, queue, all, limbo) && !Taken(pending, tx) && !Taken(queue, tx)
    requires forall ux :: ux in limbo ==> ux.from != tx.from || ux.nonce != tx.nonce
    ensures Inv(pending, queue, all + {tx}, limbo + {tx})
  {
  }

  // Pending nonces

  datatype Account = Account(nonce: nat, balance: nat)

  /** pendingState.GetNonce: the managed nonce of an account, or else its nonce in the state. */
  function NextNonce(state: Address -> Account, managed: map<Address, nat>, a: Address): nat {
    if a in managed then managed[a] else state(a).nonce
  }

  /** Each account's pending nonces run without a gap from its state nonce to its pending nonce. */
  ghost predicate Tight(pending: Lists, state: Address -> Account, managed: map<Address, nat>) {
    forall a: Address :: Contiguous(ListOf(pending, a), state(a).nonce, NextNonce(state, managed, a))
  }

  lemma TightSet(pending: Lists, state: Address -> Account, managed: map<Address, nat>, a: Address, items: Items,
                 hi: nat)
    requires Tight(pending, state, managed) && Contiguous(items, state(a).nonce, hi)
    ensures Tight(SetList(pending, a, items), state, managed[a := hi])
  {
    forall b: Address
      ensures Contiguous(ListOf(SetList(pending, a, items), b), state(b).nonce, NextNonce(state, managed[a := hi], b))
    {
      ListOfSet(pending, a, items, b);
      assert Contiguous(ListOf(pending, b), state(b).nonce, NextNonce(state, managed, b));
    }
  }

  lemma TightAt(pending: Lists, state: Address -> Account, managed: map<Address, nat>, a: Address)
    requires Tight(pending, state, managed)
    ensures Contiguous(ListOf(pending, a), state(a).nonce, NextNonce(state, managed, a))
  {
  }

  // Removal of one transaction

  /** The lists after removing the transaction of a slot: a pending account loses everything from the nonce on. */
  lemma TakeOnePending(pending: Lists, queue: Lists, all: set<Tx>, tx: Tx)
    requires Inv(pending, queue, all, {}) && tx in all && Taken(pending, tx)
    ensures Holds(pending, tx)
    ensures var list := ListOf(pending, tx.from); var rest := Below(list, tx.nonce);
      Inv(SetList(pending, tx.from, rest), queue, all - {tx}, Values(Minus(list - {tx.nonce}, rest)))
  {
    hide *;
    var a := tx.from;
    WhereHeld(pending, queue, all, tx);
    var list := ListOf(pending, a);
    var rest := Below(list, tx.nonce);
    BelowIsPart(list, tx.nonce);
    TakePending(pending, queue, all, {}, a, rest);
    HeldInList(pending, queue, all, tx);
    ValuesWithout(list, rest, a, tx);
    Forget(SetList(pending, a, rest), queue, all, {} + Values(Minus(list, rest)), {tx});
    assert {} + Values(Minus(list, rest)) - {tx} == Values(Minus(list - {tx.nonce}, rest));
  }

  /** The right transaction sits in the slot: a known transaction is pending if its slot there
      is taken, and queued if not. */
  lemma WhereHeld(pending: Lists, queue: Lists, all: set<Tx>, tx: Tx)
    requires Inv(pending, queue, all, {}) && tx in all
    ensures if Taken(pending, tx) then Holds(pending, tx) else Holds(queue, tx)
  {
    assert Holds(queue, tx) ==> Taken(queue, tx);
    assert Holds(pending, tx) ==> Taken(pending, tx);
  }

  lemma HeldInList(pending: Lists, queue: Lists, all: set<Tx>, tx: Tx)
    requires Inv(pending, queue, all, {}) && Holds(pending, tx)
    ensures OwnedBy(ListOf(pending, tx.from), tx.from)
    ensures tx.nonce in ListOf(pending, tx.from) && ListOf(pending, tx.from)[tx.nonce] == tx
  {
  }

  lemma BelowIsPart(list: Items, n: nat)
    ensures SubItems(Below(list, n), list) && n !in Below(list, n)
  {
  }

  lemma ValuesWithout(list: Items, rest: Items, a: Address, tx: Tx)
    requires OwnedBy(list, a) && tx.nonce in list && list[tx.nonce] == tx && tx.nonce !in rest
    ensures tx in Values(Minus(list, rest))
    ensures Values(Minus(list, rest)) - {tx} == Values(Minus(list - {tx.nonce}, rest))
  {
    forall ux: Tx
      ensures ux in Values(Minus(list - {tx.nonce}, rest)) <==> ux in Values(Minus(list, rest)) && ux != tx
      ensures ux == tx ==> ux in Values(Minus(list, rest))
    {
      ValueOf(Minus(list, rest), a, ux);
      ValueOf(Minus(list - {tx.nonce}, rest), a, ux);
    }
  }

  lemma TakeOneQueued(pending: Lists, queue: Lists, all: set<Tx>, tx: Tx)
    requires Inv(pending, queue, all, {}) && tx in all && !Taken(pending, tx)
    ensures Holds(queue, tx)
    ensures Inv(pending, SetList(queue, tx.from, ListOf(queue, tx.from) - {tx.nonce}), all - {tx}, {})
  {
    hide *;
    var a := tx.from;
    WhereHeld(pending, queue, all, tx);
    var list := ListOf(queue, a);
    var rest := list - {tx.nonce};
    Swap(pending, queue, all, {});
    HeldInList(queue, pending, all, tx);
    OneOut(list, tx);
    TakeQueued(pending, queue, all, {}, a, rest);
    Forget(pending, SetList(queue, a, rest), all, {} + {tx}, {tx});
    assert {} + {tx} - {tx} == {};
  }

  lemma OneOut(list: Items, tx: Tx)
    requires tx.nonce in list && list[tx.nonce] == tx
    ensures SubItems(list - {tx.nonce}, list) && Values(Minus(list, list - {tx.nonce})) == {tx}
  {
    var one := map[tx.nonce := tx];
    assert Minus(list, list - {tx.nonce}) == one;
    assert Values(one) == {tx} by {
      assert one[tx.nonce] in Values(one);
    }
  }
}
