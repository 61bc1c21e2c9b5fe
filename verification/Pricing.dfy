/** core/tx_list.go: the price heap of the pool, cleaned lazily of transactions that have left. */
module Pricing {
  import opened TxLists

  /** priceHeap.Less: cheaper first, and of equal prices the higher nonce first. */
  predicate Less(a: Tx, b: Tx) {
    a.price < b.price || (a.price == b.price && a.nonce > b.nonce)
  }

  predicate IsHead(h: multiset<Tx>, x: Tx) {
    x in h && forall y :: y in h ==> !Less(y, x)
  }

  lemma {:induction false} HeadExists(h: multiset<Tx>)
    requires |h| > 0
    ensures exists x :: IsHead(h, x)
    decreases |h|
  {
    var x :| x in h;
    var rest := h - multiset{x};
    if |rest| > 0 {
      HeadExists(rest);
      var y :| IsHead(rest, y);
      assert forall z :: z in h ==> z == x || z in rest;
      assert IsHead(h, if Less(x, y) then x else y);
    } else {
      assert h == multiset{x};
      assert IsHead(h, x);
    }
  }

  predicate IsLocal(locals: set<Address>, tx: Tx) {
    tx.from in locals
  }

  /** Every pooled transaction is in the heap, whatever else is there. */
  ghost predicate Covered(all: set<Tx>, items: multiset<Tx>) {
    forall tx :: tx in all ==> tx in items
  }

  ghost predicate CoveredWith(all: set<Tx>, items: multiset<Tx>, out: seq<Tx>) {
    forall tx :: tx in all ==> tx in items || tx in out
  }

  /** txPricedList; the pool's lookup, which the source shares with it, is the argument all. */
  class TxPricedList {
    var items: multiset<Tx>
    var stales: int

    constructor ()
      ensures items == multiset{} && stales == 0
    {
      items, stales := multiset{}, 0;
    }

    method Put(tx: Tx)
      modifies this
      ensures items == old(items) + multiset{tx} && stales == old(stales)
    {
      items := items + multiset{tx};
    }

    /** Counts a departure, and rebuilds the heap from the lookup when a quarter of it may be stale. */
    method Removed(all: set<Tx>)
      modifies this
      ensures forall s :: CoveredWith(all, old(items), s) ==> CoveredWith(all, items, s)
      ensures Covered(all, old(items)) ==> Covered(all, items)
    {
      stales := stales + 1;
      if stales <= |items| / 4 {
        return;
      }
      stales, items := 0, multiset(all);
    }

    /** Takes the head of the heap out. */
    method Pop() returns (tx: Tx)
      requires |items| > 0
      modifies this`items
      ensures IsHead(old(items), tx) && items == old(items) - multiset{tx}
      ensures forall y :: y in items ==> tx.price <= y.price
    {
      HeadExists(items);
      tx :| IsHead(items, tx);
      assert forall y :: y in items - multiset{tx} ==> y in items;
      items := items - multiset{tx};
    }

    method PushAll(save: seq<Tx>)
      modifies this`items
      ensures items == old(items) + multiset(save)
    {
      for i := 0 to |save|
        invariant items == old(items) + multiset(save[..i])
      {
        assert save[..i + 1] == save[..i] + [save[i]];
        items := items + multiset{save[i]};
      }
      assert save[..|save|] == save;
    }

    /** Takes out every remote transaction below the threshold. */
    method Cap(threshold: nat, all: set<Tx>, locals: set<Address>) returns (drop: seq<Tx>)
      requires Covered(all, items)
      modifies this
      ensures forall tx :: tx in drop <==> tx in all && !IsLocal(locals, tx) && tx.price < threshold
      ensures CoveredWith(all, items, drop)
    {
      drop := [];
      var save: seq<Tx> := [];
      var done := false;
      while |items| > 0 && !done
        invariant forall tx :: tx in drop ==> tx in all && !IsLocal(locals, tx) && tx.price < threshold
        invariant forall tx :: tx in save ==> IsLocal(locals, tx) || threshold <= tx.price
        invariant CoveredWith(all, items, drop + save)
        invariant done ==> forall tx :: tx in items ==> threshold <= tx.price
        decreases |items|, !done
      {
        var tx := Pop();
        if tx !in all {
          stales := stales - 1;
          continue;
        }
        if tx.price >= threshold {
          save := save + [tx];
          done := true;
        } else if IsLocal(locals, tx) {
          save := save + [tx];
        } else {
          drop := drop + [tx];
        }
      }
      Everything(all, items, drop, save);
      PushAll(save);
    }

    /** Whether a remote transaction is no dearer than everything pooled. */
    method Underpriced(tx: Tx, all: set<Tx>, locals: set<Address>) returns (r: bool)
      requires Covered(all, items)
      modifies this
      ensures Covered(all, items)
      ensures r <==> !IsLocal(locals, tx) && all != {} && forall t :: t in all ==> tx.price <= t.price
    {
      if IsLocal(locals, tx) {
        return false;
      }
      while |items| > 0
        invariant Covered(all, items)
        decreases |items|
      {
        HeadExists(items);
        var head :| IsHead(items, head);
        if head in all {
          return head.price >= tx.price;
        }
        stales := stales - 1;
        items := items - multiset{head};
      }
      r := false;
    }

    /** Takes out up to count of the cheapest entries that stand for pooled remote transactions, copies included. */
    method Discard(count: int, all: set<Tx>, locals: set<Address>) returns (drop: seq<Tx>)
      requires Covered(all, items)
      modifies this
      ensures forall tx :: tx in drop ==> tx in all && !IsLocal(locals, tx)
      ensures CoveredWith(all, items, drop)
      ensures forall d, t :: d in drop && t in all && !IsLocal(locals, t) && t !in drop ==> d.price <= t.price
      ensures |drop| <= (if count < 0 then 0 else count)
      ensures |drop| < count ==> forall t :: t in all && !IsLocal(locals, t) ==> t in drop && t !in items
      ensures forall t :: t in all && !IsLocal(locals, t) ==> old(items)[t] == items[t] + multiset(drop)[t]
      ensures forall d, t :: d in drop && t in items && t in all && !IsLocal(locals, t) ==> d.price <= t.price
    {
      drop := [];
      var save: seq<Tx> := [];
      var left := count;
      while |items| > 0 && left > 0
        invariant forall tx :: tx in drop ==> tx in all && !IsLocal(locals, tx)
        invariant forall tx :: tx in save ==> IsLocal(locals, tx)
        invariant CoveredWith(all, items, drop + save)
        invariant forall d, t :: d in drop && t in items ==> d.price <= t.price
        invariant forall t :: t in all && !IsLocal(locals, t) ==> old(items)[t] == items[t] + multiset(drop)[t]
        invariant if count < 0 then left == count && drop == [] else left >= 0 && left == count - |drop|
        decreases |items|
      {
        var tx := Pop();
        if tx !in all {
          stales := stales - 1;
          continue;
        }
        if IsLocal(locals, tx) {
          save := save + [tx];
        } else {
          drop := drop + [tx];
          left := left - 1;
        }
      }
      Everything(all, items, drop, save);
      PushAll(save);
    }
  }

  lemma Everything(all: set<Tx>, items: multiset<Tx>, drop: seq<Tx>, save: seq<Tx>)
    requires CoveredWith(all, items, drop + save)
    ensures CoveredWith(all, items + multiset(save), drop)
    ensures forall tx :: tx in all ==> tx in items || tx in drop || tx in save
  {
  }
}
