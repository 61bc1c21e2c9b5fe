/** core/tx_pool.go: what the pool keeps about accounts besides their transactions, the
    pending nonces and the heartbeats. */
module PoolRecords {
  import opened TxLists
  import opened PoolTables
  import opened PoolSteps
  import opened PoolChanges

  // Pending nonces

  /** The lowest nonce that a list has lost. */
  ghost predicate LowestLost(before: Items, after: Items, low: nat) {
    low in before && low !in after && forall k :: k in before && k < low ==> k in after
  }

  /** A list loses its end, and the account's pending nonce falls to the first nonce lost if it was above. */
  ghost predicate Falls(before: Items, after: Items, n: nat, n': nat) {
    && SubItems(after, before) && (forall j, k :: j in before && k in after && j < k ==> j in after)
    && (after == before ==> n' == n)
    && (forall low: nat :: LowestLost(before, after, low) ==> n' == if n > low then low else n)
  }

  /** Every pending list lost its end, if anything, and the pending nonces followed. */
  ghost predicate Fallen(state: Address -> Account, p: Lists, p': Lists, m: map<Address, nat>, m': map<Address, nat>) {
    forall a: Address :: FallenAt(state, p, p', m, m', a)
  }

  ghost predicate FallenAt(state: Address -> Account, p: Lists, p': Lists, m: map<Address, nat>, m': map<Address, nat>,
                           a: Address)
  {
    Falls(ListOf(p, a), ListOf(p', a), NextNonce(state, m, a), NextNonce(state, m', a))
  }

  lemma FallenNone(state: Address -> Account, p: Lists, m: map<Address, nat>)
    ensures Fallen(state, p, p, m, m)
  {
  }

  lemma SomethingLost(before: Items, after: Items, k: nat) returns (low: nat)
    requires k in before && k !in after
    ensures LowestLost(before, after, low) && low <= k
  {
    if j: nat :| j in before && j !in after && j < k {
      low := SomethingLost(before, after, j);
    } else {
      low := k;
    }
  }

  lemma FallsTwice(l0: Items, l1: Items, l2: Items, n0: nat, n1: nat, n2: nat)
    requires Falls(l0, l1, n0, n1) && Falls(l1, l2, n1, n2)
    ensures Falls(l0, l2, n0, n2)
  {
    forall low: nat | LowestLost(l0, l2, low)
      ensures n2 == if n0 > low then low else n0
    {
      if low in l1 {
        assert LowestLost(l1, l2, low);
        if k: nat :| k in l0 && k !in l1 {
          var lost := SomethingLost(l0, l1, k);
          assert lost > low;
        } else {
          assert l0 == l1;
        }
      } else {
        assert LowestLost(l0, l1, low);
        assert forall k :: k in l1 ==> k < low;
        assert l2 == l1;
      }
    }
  }

  lemma FallenTwice(state: Address -> Account, p0: Lists, p1: Lists, p2: Lists, m0: map<Address, nat>,
                    m1: map<Address, nat>, m2: map<Address, nat>)
    requires Fallen(state, p0, p1, m0, m1) && Fallen(state, p1, p2, m1, m2)
    ensures Fallen(state, p0, p2, m0, m2)
  {
    hide Falls, ListOf, NextNonce;
    forall a: Address
      ensures FallenAt(state, p0, p2, m0, m2, a)
    {
      assert FallenAt(state, p0, p1, m0, m1, a) && FallenAt(state, p1, p2, m1, m2, a);
      FallsTwice(ListOf(p0, a), ListOf(p1, a), ListOf(p2, a), NextNonce(state, m0, a), NextNonce(state, m1, a),
                 NextNonce(state, m2, a));
    }
  }

  /** One list is cut at a nonce, and its account's pending nonce follows. */
  lemma FallsHere(state: Address -> Account, p: Lists, m: map<Address, nat>, a: Address, low: nat)
    requires low in ListOf(p, a)
    ensures Fallen(state, p, SetList(p, a, Below(ListOf(p, a), low)), m,
                   if NextNonce(state, m, a) > low then m[a := low] else m)
  {
    var rest := Below(ListOf(p, a), low);
    var p', m' := SetList(p, a, rest), if NextNonce(state, m, a) > low then m[a := low] else m;
    forall b: Address
      ensures FallenAt(state, p, p', m, m', b)
    {
      ListOfSet(p, a, rest, b);
      hide SetList, ListOf;
      if a == b {
        assert forall k: nat :: LowestLost(ListOf(p, a), rest, k) ==> k == low;
        assert low !in rest;
      }
    }
  }

  lemma HighestIsEnd(list: Items)
    requires |list| > 1
    ensures CapTo(list, |list| - 1) == Below(list, Highest(list)) && Highest(list) in list
  {
    CutHighest(list);
    var n := Highest(list);
    hide CapTo;
    assert forall k :: k in list && k != n ==> k < n;
  }

  // Heartbeats

  /** An account's heartbeat goes with its last pending transaction. */
  ghost predicate BeatsFollow(p: Lists, p': Lists, b: map<Address, int>, b': map<Address, int>) {
    b' == b - (p.Keys - p'.Keys)
  }

  lemma BeatsSame(p: Lists, b: map<Address, int>)
    ensures BeatsFollow(p, p, b, b)
  {
    assert p.Keys - p.Keys == {};
    assert b - {} == b;
  }

  /** One account's list is replaced by part of it. */
  lemma BeatsFollowOne(p0: Lists, p: Lists, b0: map<Address, int>, b: map<Address, int>, a: Address, items: Items)
    requires BeatsFollow(p0, p, b0, b) && a in p && p.Keys <= p0.Keys
    ensures var p' := SetList(p, a, items);
      p'.Keys <= p0.Keys && BeatsFollow(p0, p', b0, if a in p' then b else b - {a})
  {
    var p' := SetList(p, a, items);
    if items == map[] {
      assert p0.Keys - p'.Keys == (p0.Keys - p.Keys) + {a};
    } else {
      assert p'.Keys == p.Keys;
    }
  }

  /** The accounts that have a run to promote. */
  ghost function Runners(r: Rules, queue: Lists, managed: map<Address, nat>, accounts: set<Address>): set<Address> {
    set a | a in accounts && PromotionAt(r, queue, managed, a).run != map[]
  }

  /** Exactly the accounts that promoted something were heard of. */
  ghost predicate Heard(b: map<Address, int>, b': map<Address, int>, promoted: set<Address>, now: int) {
    && b'.Keys == b.Keys + promoted
    && forall a :: a in b' ==> b'[a] == if a in promoted then now else b[a]
  }

  /** An account that promoted a run has its pending nonce behind it, the others have theirs. */
  ghost predicate Moved(r: Rules, queue: Lists, m: map<Address, nat>, m': map<Address, nat>, accounts: set<Address>) {
    forall a: Address :: MovedAt(r, queue, m, m', accounts, a)
  }

  ghost predicate MovedAt(r: Rules, queue: Lists, m: map<Address, nat>, m': map<Address, nat>, accounts: set<Address>,
                          a: Address)
  {
    var run := PromotionAt(r, queue, m, a).run;
    NextNonce(r.state, m', a) == if a in accounts && |run| > 0 then Highest(run) + 1 else NextNonce(r.state, m, a)
  }

  lemma HeardNone(r: Rules, queue: Lists, m: map<Address, nat>, b: map<Address, int>, now: int)
    ensures Runners(r, queue, m, {}) == {} && Heard(b, b, {}, now) && Moved(r, queue, m, m, {})
  {
  }

  /** One more account is promoted, from what the others have left as it was. */
  lemma HeardMore(r: Rules, p0: Lists, q0: Lists, m0: map<Address, nat>, b0: map<Address, int>, p: Lists, q: Lists,
                  m: map<Address, nat>, b: map<Address, int>, done: set<Address>, a: Address, now: int)
    requires a !in done && Promoted(r, p0, q0, m0, p, q, m, done)
    requires Heard(b0, b, Runners(r, q0, m0, done), now) && Moved(r, q0, m0, m, done)
    ensures var run := PromotionAt(r, q, m, a).run;
      && (|run| > 0 <==> run != map[])
      && Heard(b0, if run == map[] then b else b[a := now], Runners(r, q0, m0, done + {a}), now)
      && Moved(r, q0, m0, if run == map[] then m else m[a := Highest(run) + 1], done + {a})
  {
    hide *;
    SameRun(r, p0, q0, m0, p, q, m, done, a);
    RunnersMore(r, q0, m0, done, a);
    MovedMore(r, q0, m0, m, done, a);
    HeardOne(b0, b, Runners(r, q0, m0, done), now, a);
    assert Runners(r, q0, m0, done) + {} == Runners(r, q0, m0, done);
  }

  lemma OneMorePromoted(r: Rules, p0: Lists, q0: Lists, m0: map<Address, nat>, b0: map<Address, int>, p: Lists,
                        q: Lists, m: map<Address, nat>, b: map<Address, int>, done: set<Address>, a: Address, now: int,
                        p': Lists, q': Lists, m': map<Address, nat>, b': map<Address, int>)
    requires a !in done && Promoted(r, p0, q0, m0, p, q, m, done)
    requires Heard(b0, b, Runners(r, q0, m0, done), now) && Moved(r, q0, m0, m, done)
    requires var pr := PromotionAt(r, q, m, a);
      && p' == SetList(p, a, Merge(ListOf(p, a), pr.run)) && q' == SetList(q, a, pr.rest)
      && m' == (if pr.run == map[] then m else m[a := Highest(pr.run) + 1])
      && b' == if pr.run == map[] then b else b[a := now]
    ensures Promoted(r, p0, q0, m0, p', q', m', done + {a})
    ensures Heard(b0, b', Runners(r, q0, m0, done + {a}), now) && Moved(r, q0, m0, m', done + {a})
  {
    hide *;
    var run := PromotionAt(r, q, m, a).run;
    HeardMore(r, p0, q0, m0, b0, p, q, m, b, done, a, now);
    NoncesApart(r.state, m, a, if run == map[] then 0 else Highest(run) + 1);
    PromotedNext(r, p0, q0, m0, p, q, m, done, a, m');
  }

  lemma SameRun(r: Rules, p0: Lists, q0: Lists, m0: map<Address, nat>, p: Lists, q: Lists, m: map<Address, nat>,
                done: set<Address>, a: Address)
    requires a !in done && Promoted(r, p0, q0, m0, p, q, m, done)
    ensures PromotionAt(r, q, m, a) == PromotionAt(r, q0, m0, a)
  {
    hide PromotionOf, ListOf, NextNonce, Promoted;
    PromotedAt(r, p0, q0, m0, p, q, m, done, a);
  }

  lemma HeardOne(b0: map<Address, int>, b: map<Address, int>, promoted: set<Address>, now: int, a: Address)
    requires Heard(b0, b, promoted, now)
    ensures Heard(b0, b[a := now], promoted + {a}, now)
  {
  }

  lemma RunnersMore(r: Rules, queue: Lists, m: map<Address, nat>, done: set<Address>, a: Address)
    ensures Runners(r, queue, m, done + {a}) ==
      Runners(r, queue, m, done) + if PromotionAt(r, queue, m, a).run == map[] then {} else {a}
  {
    hide PromotionAt;
  }

  lemma MovedMore(r: Rules, queue: Lists, m0: map<Address, nat>, m: map<Address, nat>, done: set<Address>, a: Address)
    requires a !in done && Moved(r, queue, m0, m, done)
    ensures var run := PromotionAt(r, queue, m0, a).run;
      && (|run| > 0 <==> run != map[])
      && Moved(r, queue, m0, if run == map[] then m else m[a := Highest(run) + 1], done + {a})
  {
    hide PromotionAt;
    var run := PromotionAt(r, queue, m0, a).run;
    var m' := if run == map[] then m else m[a := Highest(run) + 1];
    forall c: Address
      ensures MovedAt(r, queue, m0, m', done + {a}, c)
    {
      assert MovedAt(r, queue, m0, m, done, c);
    }
  }

  // Removals

  /** What is left of a pending list when transactions are removed: what is before the first of them. */
  ghost function Kept(list: Items, gone: set<Tx>): Items {
    map n | n in list && (forall k :: k in list && k <= n ==> list[k] !in gone) :: list[n]
  }

  /** Transactions were removed: their accounts' pending lists end before the first of them, the pending nonces fall to
      it, and an account with nothing left pending loses its heartbeat. */
  ghost predicate Removal(state: Address -> Account, gone: set<Tx>, p: Lists, m: map<Address, nat>,
                          b: map<Address, int>, p': Lists, m': map<Address, nat>, b': map<Address, int>)
  {
    && (forall a: Address :: ListOf(p', a) == Kept(ListOf(p, a), gone))
    && Fallen(state, p, p', m, m') && BeatsFollow(p, p', b, b') && p'.Keys <= p.Keys
  }

  lemma RemovalNone(state: Address -> Account, p: Lists, m: map<Address, nat>, b: map<Address, int>)
    ensures Removal(state, {}, p, m, b, p, m, b)
  {
    FallenNone(state, p, m);
    BeatsSame(p, b);
    forall a: Address
      ensures Kept(ListOf(p, a), {}) == ListOf(p, a)
    {
    }
  }

  /** Removing something that is not pending any more changes nothing about the pending lists. */
  lemma RemovalQueued(state: Address -> Account, gone: set<Tx>, p0: Lists, m0: map<Address, nat>,
                      b0: map<Address, int>, p: Lists, m: map<Address, nat>, b: map<Address, int>, tx: Tx)
    requires Removal(state, gone, p0, m0, b0, p, m, b) && WellFormed(p0) && !Holds(p, tx)
    ensures Removal(state, gone + {tx}, p0, m0, b0, p, m, b)
  {
    hide Fallen, BeatsFollow;
    forall a: Address
      ensures ListOf(p, a) == Kept(ListOf(p0, a), gone + {tx})
    {
      KeptMore(p0, p, gone, tx, a);
    }
  }

  lemma KeptMore(p0: Lists, p: Lists, gone: set<Tx>, tx: Tx, a: Address)
    requires WellFormed(p0) && ListOf(p, a) == Kept(ListOf(p0, a), gone) && !Holds(p, tx)
    ensures ListOf(p, a) == Kept(ListOf(p0, a), gone + {tx})
  {
    var list := ListOf(p0, a);
    assert OwnedBy(list, a);
    forall k | k in list && list[k] == tx
      ensures k !in Kept(list, gone)
    {
    }
  }

  /** Removing something that is pending cuts its account's list there. */
  lemma RemovalPending(state: Address -> Account, gone: set<Tx>, p0: Lists, m0: map<Address, nat>,
                       b0: map<Address, int>, p: Lists, m: map<Address, nat>, b: map<Address, int>, tx: Tx)
    requires Removal(state, gone, p0, m0, b0, p, m, b) && WellFormed(p0) && Holds(p, tx)
    ensures var p' := SetList(p, tx.from, Below(ListOf(p, tx.from), tx.nonce));
      Removal(state, gone + {tx}, p0, m0, b0, p', if NextNonce(state, m, tx.from) > tx.nonce then m[tx.from := tx.nonce]
              else m, if tx.from in p' then b else b - {tx.from})
  {
    var a, n := tx.from, tx.nonce;
    var rest := Below(ListOf(p, a), n);
    var p', m' := SetList(p, a, rest), if NextNonce(state, m, a) > n then m[a := n] else m;
    FallsHere(state, p, m, a, n);
    FallenTwice(state, p0, p, p', m0, m, m');
    BeatsFollowOne(p0, p, b0, b, a, rest);
    hide Fallen, BeatsFollow;
    forall c: Address
      ensures ListOf(p', c) == Kept(ListOf(p0, c), gone + {tx})
    {
      ListOfSet(p, a, rest, c);
      if c == a {
        KeptLess(p0, p, gone, tx);
      } else {
        KeptElsewhere(p0, p, gone, tx, c);
      }
    }
  }

  lemma RemovalNext(state: Address -> Account, gone: set<Tx>, p0: Lists, m0: map<Address, nat>, b0: map<Address, int>,
                    p: Lists, q: Lists, all: set<Tx>, m: map<Address, nat>, b: map<Address, int>, tx: Tx)
    requires Removal(state, gone, p0, m0, b0, p, m, b) && WellFormed(p0) && Inv(p, q, all, {})
    ensures tx !in all || !Taken(p, tx) ==> Removal(state, gone + {tx}, p0, m0, b0, p, m, b)
    ensures tx in all && Taken(p, tx) ==>
      var p' := SetList(p, tx.from, Below(ListOf(p, tx.from), tx.nonce));
      Removal(state, gone + {tx}, p0, m0, b0, p', if NextNonce(state, m, tx.from) > tx.nonce then m[tx.from := tx.nonce]
              else m, if tx.from in p' then b else b - {tx.from})
  {
    hide Removal, WellFormed;
    if tx in all && Taken(p, tx) {
      WhereHeld(p, q, all, tx);
      RemovalPending(state, gone, p0, m0, b0, p, m, b, tx);
    } else {
      assert !Holds(p, tx);
      RemovalQueued(state, gone, p0, m0, b0, p, m, b, tx);
    }
  }

  lemma ListOfIs(ls: Lists, a: Address)
    requires a in ls
    ensures ListOf(ls, a) == ls[a] && forall items :: items != map[] ==> SetList(ls, a, items) == ls[a := items]
  {
  }

  lemma KeptElsewhere(p0: Lists, p: Lists, gone: set<Tx>, tx: Tx, a: Address)
    requires WellFormed(p0) && ListOf(p, a) == Kept(ListOf(p0, a), gone) && tx.from != a
    ensures ListOf(p, a) == Kept(ListOf(p0, a), gone + {tx})
  {
    assert OwnedBy(ListOf(p0, a), a);
  }

  lemma KeptLess(p0: Lists, p: Lists, gone: set<Tx>, tx: Tx)
    requires WellFormed(p0) && ListOf(p, tx.from) == Kept(ListOf(p0, tx.from), gone) && Holds(p, tx)
    ensures Below(ListOf(p, tx.from), tx.nonce) == Kept(ListOf(p0, tx.from), gone + {tx})
  {
    var list, n := ListOf(p0, tx.from), tx.nonce;
    assert OwnedBy(list, tx.from);
    assert n in list && list[n] == tx;
    assert forall k :: k in list && list[k] == tx ==> k == n;
  }
}
