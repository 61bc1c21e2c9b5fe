/** The truncation of pending lists as a value: one level at which the lists of all remote accounts are cut. */
module Fairness {
  import opened Numbers
  import opened TxLists
  import opened PoolTables

  ghost function Lengths(ls: Lists): map<Address, nat> {
    map a | a in ls :: |ls[a]|
  }

  /** The number of transactions in all lists. */
  ghost function Total(ls: Lists): nat {
    Sum(Lengths(ls))
  }

  lemma TotalSplit(ls: Lists, a: Address)
    requires a in ls
    ensures Total(ls) == |ls[a]| + Total(ls - {a})
  {
    hide Sum;
    SumWithout(Lengths(ls), a);
    assert Lengths(ls - {a}) == Lengths(ls) - {a};
  }

  lemma TotalSet(ls: Lists, a: Address, items: Items)
    requires a in ls
    ensures Total(ls[a := items]) == Total(ls) - |ls[a]| + |items|
  {
    hide Sum;
    SumSet(Lengths(ls), a, |items|);
    assert Lengths(ls[a := items]) == Lengths(ls)[a := |items|];
  }

  /** Adding up the lengths, in any order of accounts. */
  method Count(ls: Lists) returns (n: nat)
    ensures n == Total(ls)
  {
    n := 0;
    var rest := ls;
    while |rest| > 0
      invariant n + Total(rest) == Total(ls)
      decreases |rest|
    {
      var a :| a in rest;
      TotalSplit(rest, a);
      Fewer(rest, a);
      n := n + |rest[a]|;
      rest := rest - {a};
    }
  }

  /** Every remote list cut to at most n transactions, the lowest nonces staying. */
  function CutAt(ls: Lists, locals: set<Address>, n: nat): Lists {
    map a | a in ls :: if a in locals then ls[a] else CapTo(ls[a], n)
  }

  /** The truncation in the middle of a round from n to n - 1, with the accounts in done already cut. */
  ghost function CutPartly(ls: Lists, locals: set<Address>, n: nat, done: set<Address>): Lists
    requires n > 0
  {
    map a | a in ls :: if a in locals then ls[a] else CapTo(ls[a], if a in done then n - 1 else n)
  }

  /** Levels above every remote list change nothing. */
  lemma CutNothing(ls: Lists, locals: set<Address>, n: nat)
    requires forall a :: a in ls && a !in locals ==> |ls[a]| <= n
    ensures CutAt(ls, locals, n) == ls
  {
  }

  lemma CutLength(ls: Lists, locals: set<Address>, n: nat, a: Address)
    requires a in ls
    ensures |CutAt(ls, locals, n)[a]| == if a !in locals && |ls[a]| > n then n else |ls[a]|
  {
    CapToIsLowest(ls[a], n);
  }

  /** The next list of a round: cutting its highest nonce takes it from level n to n - 1. */
  lemma CutStep(ls: Lists, locals: set<Address>, n: nat, done: set<Address>, a: Address)
    requires n > 1 && a in ls && a !in locals && a !in done && |ls[a]| >= n
    ensures var p := CutPartly(ls, locals, n, done);
      && |p[a]| == n
      && CapTo(p[a], n - 1) != map[]
      && CutPartly(ls, locals, n, done + {a}) == p[a := CapTo(p[a], n - 1)]
      && Total(p[a := CapTo(p[a], n - 1)]) == Total(p) - 1
  {
    var p := CutPartly(ls, locals, n, done);
    hide CapTo, Total;
    CapSizes(ls[a], n);
    CutMore(ls, locals, n, done, a);
    TotalSet(p, a, CapTo(p[a], n - 1));
  }

  lemma CapSizes(items: Items, n: nat)
    requires n > 1 && |items| >= n
    ensures |CapTo(items, n)| == n && |CapTo(CapTo(items, n), n - 1)| == n - 1
    ensures CapTo(CapTo(items, n), n - 1) == CapTo(items, n - 1) != map[]
  {
    CapToIsLowest(items, n);
    CapToTwice(items, n, n - 1);
    CapToIsLowest(items, n - 1);
  }

  lemma CutMore(ls: Lists, locals: set<Address>, n: nat, done: set<Address>, a: Address)
    requires n > 1 && a in ls && a !in locals && a !in done
    ensures CutPartly(ls, locals, n, done + {a}) == CutPartly(ls, locals, n, done)[a := CapTo(ls[a], n - 1)]
  {
    hide CapTo;
  }

  lemma RoundStarts(ls: Lists, locals: set<Address>, n: nat)
    requires n > 0
    ensures CutPartly(ls, locals, n, {}) == CutAt(ls, locals, n)
  {
  }

  /** After a round over exactly the remote lists that reach level n, all of them are at n - 1. */
  lemma RoundEnds(ls: Lists, locals: set<Address>, n: nat, done: set<Address>)
    requires n > 0 && forall a :: a in ls && a !in locals ==> (a in done <==> |ls[a]| >= n)
    ensures CutPartly(ls, locals, n, done) == CutAt(ls, locals, n - 1)
  {
    forall a | a in ls && a !in locals && a !in done
      ensures CapTo(ls[a], n) == CapTo(ls[a], n - 1)
    {
    }
  }

  /** The outcome of truncation: a common level no lower than the guaranteed slots, which suffices unless it is at that
      floor, and which is as high as it can be. */
  ghost predicate Fair(before: Lists, after: Lists, locals: set<Address>, accountSlots: nat, globalSlots: nat) {
    exists n :: IsFairLevel(before, after, locals, accountSlots, globalSlots, n)
  }

  ghost predicate IsFairLevel(before: Lists, after: Lists, locals: set<Address>, accountSlots: nat, globalSlots: nat,
                              n: nat)
  {
    && n >= accountSlots
    && after == CutAt(before, locals, n)
    && (Total(after) <= globalSlots || n == accountSlots)
    && (after == before || Total(CutAt(before, locals, n + 1)) > globalSlots)
  }

  /** What fairness means account by account. */
  lemma FairMeans(before: Lists, after: Lists, locals: set<Address>, accountSlots: nat, globalSlots: nat)
    requires Fair(before, after, locals, accountSlots, globalSlots)
    ensures after.Keys == before.Keys
    ensures Total(after) <= globalSlots || forall a :: a in after && a !in locals ==> |after[a]| <= accountSlots
    ensures forall a :: a in before && a in locals ==> after[a] == before[a]
    ensures forall a :: a in before && after[a] != before[a] ==> |after[a]| >= accountSlots
    ensures forall a, b :: a in before && b in before && after[a] != before[a] && after[b] != before[b] ==>
      |after[a]| == |after[b]|
    ensures forall a, b :: a in before && b in before && b !in locals && after[a] != before[a] ==>
      |after[b]| <= |after[a]|
  {
    hide *;
    var n := FairLevel(before, after, locals, accountSlots, globalSlots);
  }

  lemma FairLevel(before: Lists, after: Lists, locals: set<Address>, accountSlots: nat,
                  globalSlots: nat) returns (n: nat)
    requires Fair(before, after, locals, accountSlots, globalSlots)
    ensures n >= accountSlots && after.Keys == before.Keys && (Total(after) <= globalSlots || n == accountSlots)
    ensures forall a :: a in before ==> |after[a]| == if a !in locals && |before[a]| > n then n else |before[a]|
    ensures forall a :: a in before && after[a] != before[a] ==> a !in locals && |before[a]| > n
  {
    n :| IsFairLevel(before, after, locals, accountSlots, globalSlots, n);
    hide CapTo, Total;
    forall a | a in before
      ensures |after[a]| == if a !in locals && |before[a]| > n then n else |before[a]|
      ensures after[a] != before[a] ==> a !in locals && |before[a]| > n
    {
      CutLength(before, locals, n, a);
      CapNothing(before[a], n);
    }
  }

  lemma CapNothing(items: Items, n: nat)
    ensures |items| <= n ==> CapTo(items, n) == items
  {
  }

  lemma Untouched(before: Lists, locals: set<Address>, accountSlots: nat, globalSlots: nat)
    requires Total(before) <= globalSlots || forall a :: a in before && a !in locals ==> |before[a]| <= accountSlots
    ensures Fair(before, before, locals, accountSlots, globalSlots)
  {
    if Total(before) <= globalSlots {
      var n := accountSlots + Total(before);
      forall a | a in before
        ensures |before[a]| <= n
      {
        TotalSplit(before, a);
      }
      CutNothing(before, locals, n);
      assert IsFairLevel(before, before, locals, accountSlots, globalSlots, n);
    } else {
      CutNothing(before, locals, accountSlots);
      assert IsFairLevel(before, before, locals, accountSlots, globalSlots, accountSlots);
    }
  }
}
