/** Where core/tx_pool.go works on one account's txList: the list objects do to their transactions what the
    pool's tables say of the account. */
module AccountLists {
  import opened Options
  import opened TxLists
  import opened PoolTables
  import opened PoolSteps
  import opened PoolOrder
  import opened PoolChanges
  import opened SortedMaps

  lemma ListedValues(s: seq<Tx>, m: Items)
    requires TxLists.Lists(s, m)
    ensures TxSet(s) == Values(m)
  {
    forall tx | tx in s
      ensures tx in Values(m)
    {
      assert tx == m[tx.nonce];
    }
  }

  /** promoteExecutables on an account's queued list: what can run next comes out in order, the rest stays up to the
      account's limit, and everything else is dropped. */
  method PromoteList(list: TxList, a: Address, acct: Account, maxGas: nat, next: nat, accountQueue: nat, local: bool)
    returns (ready: seq<Tx>, dropped: seq<Tx>)
    requires list.Valid() && !list.strict && OwnedBy(list.txs.items, a)
    modifies list, list.txs
    ensures list.Valid()
    ensures var r := PromotionOf(old(list.txs.items), acct, maxGas, next, accountQueue, local);
      && list.txs.items == r.rest && Sorted(ready, r.run)
      && TxSet(dropped) == Values(Minus(Minus(old(list.txs.items), r.run), r.rest))
  {
    ghost var l0 := list.txs.items;
    var olds := list.Forward(acct.nonce);
    ghost var l1 := list.txs.items;
    var drops, _ := list.Filter(acct.balance, maxGas);
    ghost var l2 := list.txs.items;
    ready := list.Ready(next);
    ghost var run, l3 := ReadyItems(l2, next), list.txs.items;
    var caps: seq<Tx> := [];
    if !local {
      caps := list.Cap(accountQueue);
    }
    ghost var l4 := list.txs.items;
    dropped := olds + drops + caps;
    hide *;
    DroppedAre(a, l0, l1, l2, run, l3, l4, acct, maxGas, next, accountQueue, local, olds, drops, caps);
  }

  lemma DroppedAre(a: Address, l0: Items, l1: Items, l2: Items, run: Items, l3: Items, l4: Items, acct: Account,
                   maxGas: nat, next: nat, accountQueue: nat, local: bool, olds: seq<Tx>, drops: seq<Tx>, caps: seq<Tx>)
    requires OwnedBy(l0, a) && l1 == From(l0, acct.nonce) && l2 == Affordable(l1, acct.balance, maxGas, false)
    requires run == ReadyItems(l2, next) && l3 == Minus(l2, run) && l4 == if local then l3 else CapTo(l3, accountQueue)
    requires Sorted(olds, Below(l0, acct.nonce)) && TxLists.Lists(drops, Dear(l1, acct.balance, maxGas))
    requires if local then caps == [] else TxLists.Lists(caps, Minus(l3, l4))
    ensures PromotionOf(l0, acct, maxGas, next, accountQueue, local) == Promotion(run, l4)
    ensures TxSet(olds + drops + caps) == Values(Minus(Minus(l0, run), l4))
  {
    hide *;
    PromotionIs(l0, acct, maxGas, next, accountQueue, local, run, l4);
    Parts(l0, acct.nonce, acct.balance, maxGas);
    RunIsPart(l2, next);
    CapIsPart(l3, accountQueue);
    SelfPart(l3);
    OldsAre(l0, acct.nonce, olds);
    DropsAre(l1, acct.balance, maxGas, drops);
    if local { MinusSelf({}, l3); } else { ListedValues(caps, Minus(l3, l4)); }
    var all := Values(l0);
    DroppedTogether(all, a, l0, l1, l2, run, l3, l4);
    InList(l0, l1, l2, run, l3, l4);
    Together(olds, drops, caps);
    Complement(all, Values(Minus(l0, l1)), Values(Minus(l1, l2)), Values(Minus(l3, l4)),
                   Values(Minus(Minus(l0, run), l4)));
  }

  lemma OldsAre(l0: Items, nonce: nat, olds: seq<Tx>)
    requires Sorted(olds, Below(l0, nonce))
    ensures TxSet(olds) == Values(Minus(l0, From(l0, nonce)))
  {
    ListedValues(olds, Below(l0, nonce));
    assert Minus(l0, From(l0, nonce)) == Below(l0, nonce);
  }

  lemma DropsAre(l1: Items, balance: nat, maxGas: nat, drops: seq<Tx>)
    requires TxLists.Lists(drops, Dear(l1, balance, maxGas))
    ensures TxSet(drops) == Values(Minus(l1, Affordable(l1, balance, maxGas, false)))
  {
    ListedValues(drops, Dear(l1, balance, maxGas));
    assert Minus(l1, Affordable(l1, balance, maxGas, false)) == Dear(l1, balance, maxGas);
  }

  lemma InList(l0: Items, l1: Items, l2: Items, run: Items, l3: Items, l4: Items)
    requires SubItems(l1, l0) && SubItems(l2, l1) && l3 == Minus(l2, run)
    ensures Values(Minus(l0, l1)) <= Values(l0) && Values(Minus(l1, l2)) <= Values(l0)
    ensures Values(Minus(l3, l4)) <= Values(l0)
    ensures Values(Minus(Minus(l0, run), l4)) <= Values(l0)
  {
    SubValues(Minus(l0, l1), l0);
    SubValues(Minus(l1, l2), l0);
    SubValues(Minus(l3, l4), l0);
    SubValues(Minus(Minus(l0, run), l4), l0);
  }

  lemma SubValues(part: Items, whole: Items)
    requires SubItems(part, whole)
    ensures Values(part) <= Values(whole)
  {
    forall tx | tx in Values(part)
      ensures tx in Values(whole)
    {
      var n :| n in part && part[n] == tx;
      assert whole[n] == tx;
    }
  }

  lemma Together(a: seq<Tx>, b: seq<Tx>, c: seq<Tx>)
    ensures TxSet(a + b + c) == TxSet(a) + TxSet(b) + TxSet(c)
    ensures TxSet([]) == {}
  {
  }

  lemma Complement(all: set<Tx>, x: set<Tx>, y: set<Tx>, z: set<Tx>, w: set<Tx>)
    requires x <= all && y <= all && z <= all && w <= all && all - x - y - z == all - w
    ensures x + y + z == w
  {
    forall tx | tx in all
      ensures tx in w <==> tx in x + y + z
    {
      assert tx in all - w <==> tx in all - x - y - z;
    }
  }

  /** demoteUnexecutables on an account's pending list: the useless go, what can run stays,
      and the rest is to be queued. */
  method DemoteList(list: TxList, a: Address, acct: Account, maxGas: nat) returns (useless: seq<Tx>, queued: seq<Tx>)
    requires list.Valid() && list.strict && OwnedBy(list.txs.items, a)
    modifies list, list.txs
    ensures list.Valid() && list.txs.items == StaysPending(old(list.txs.items), acct, maxGas)
    ensures TxSet(useless) == Values(UselessItems(old(list.txs.items), acct, maxGas))
    ensures TxSet(queued) ==
      Values(Minus(Minus(old(list.txs.items), UselessItems(old(list.txs.items), acct, maxGas)), list.txs.items))
  {
    ghost var l0 := list.txs.items;
    var olds := list.Forward(acct.nonce);
    ghost var l1 := list.txs.items;
    var drops, invalids := list.Filter(acct.balance, maxGas);
    ghost var l2 := list.txs.items;
    var postponed: seq<Tx> := [];
    if |list.txs.items| > 0 && acct.nonce !in list.txs.items {
      postponed := list.Cap(0);
    }
    ghost var l3 := list.txs.items;
    useless, queued := olds + drops, invalids + postponed;
    hide *;
    DemotedAre(a, l0, l1, l2, l3, acct, maxGas, olds, drops, invalids, postponed);
  }

  lemma DemotedAre(a: Address, l0: Items, l1: Items, l2: Items, l3: Items, acct: Account, maxGas: nat,
                   olds: seq<Tx>, drops: seq<Tx>, invalids: seq<Tx>, postponed: seq<Tx>)
    requires OwnedBy(l0, a) && l1 == From(l0, acct.nonce) && l2 == Affordable(l1, acct.balance, maxGas, true)
    requires Sorted(olds, Below(l0, acct.nonce)) && TxLists.Lists(drops, Dear(l1, acct.balance, maxGas))
    requires TxLists.Lists(invalids, Minus(Missing(l1, tx => TooDear(tx, acct.balance, maxGas)), l2))
    requires if |l2| > 0 && acct.nonce !in l2 then l3 == CapTo(l2, 0) && TxLists.Lists(postponed, Minus(l2, l3))
             else l3 == l2 && postponed == []
    ensures l3 == StaysPending(l0, acct, maxGas)
    ensures TxSet(olds + drops) == Values(UselessItems(l0, acct, maxGas))
    ensures TxSet(invalids + postponed) == Values(Minus(Minus(l0, UselessItems(l0, acct, maxGas)), l3))
  {
    hide *;
    NothingLeft(l2);
    StaysIs(l0, acct, maxGas, l2, l3);
    DemotionParts(a, l0, acct, maxGas);
    OldsAre(l0, acct.nonce, olds);
    ListedValues(drops, Dear(l1, acct.balance, maxGas));
    ListedValues(invalids, Minus(Missing(l1, tx => TooDear(tx, acct.balance, maxGas)), l2));
    if |l2| > 0 && acct.nonce !in l2 { ListedValues(postponed, Minus(l2, l3)); } else { MinusSelf({}, l2); }
    Pairs(olds, drops);
    Pairs(invalids, postponed);
    NoneDear(l1, acct.balance, maxGas);
    QueuedAre(a, l0, l1, l2, l3, acct, maxGas);
  }

  lemma NoneDear(items: Items, balance: nat, maxGas: nat)
    ensures forall n :: n in Affordable(items, balance, maxGas, true) ==> n !in Dear(items, balance, maxGas)
  {
    var dear := Dear(items, balance, maxGas);
    assert dear == Matching(items, tx => TooDear(tx, balance, maxGas));
    forall n | n in dear
      ensures n !in Affordable(items, balance, maxGas, true)
    {
      assert n in Nonces(dear);
      assert |Nonces(dear)| > 0;
    }
  }

  lemma NothingLeft(items: Items)
    ensures CapTo(items, 0) == map[]
  {
    CapToIsLowest(items, 0);
    assert |CapTo(items, 0)| == 0;
  }

  lemma Pairs(a: seq<Tx>, b: seq<Tx>)
    ensures TxSet(a + b) == TxSet(a) + TxSet(b)
    ensures TxSet([]) == {}
  {
  }

  lemma QueuedAre(a: Address, l0: Items, l1: Items, l2: Items, l3: Items, acct: Account, maxGas: nat)
    requires OwnedBy(l0, a) && l1 == From(l0, acct.nonce) && SubItems(l2, l1) && (l3 == l2 || l3 == map[])
    requires forall n :: n in l2 ==> n !in Dear(l1, acct.balance, maxGas)
    ensures Values(Minus(Missing(l1, tx => TooDear(tx, acct.balance, maxGas)), l2)) + Values(Minus(l2, l3)) ==
      Values(Minus(Minus(l0, UselessItems(l0, acct, maxGas)), l3))
  {
    var able := Missing(l1, tx => TooDear(tx, acct.balance, maxGas));
    var rest := Minus(l0, UselessItems(l0, acct, maxGas));
    assert rest == able;
    assert SubItems(l2, able);
    forall tx: Tx
      ensures tx in Values(Minus(able, l2)) || tx in Values(Minus(l2, l3)) <==> tx in Values(Minus(rest, l3))
    {
      ValueOf(Minus(able, l2), a, tx);
      ValueOf(Minus(l2, l3), a, tx);
      ValueOf(Minus(rest, l3), a, tx);
    }
  }
}
