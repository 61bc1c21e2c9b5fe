/** core/tx_list.go: the nonce-sorted transaction lists of one account. */
module TxLists {
  import opened Options

  type Address = nat

  /** A transaction stands for its hash: distinct transactions have distinct hashes. */
  datatype Tx = Tx(from: Address, nonce: nat, price: nat, gas: nat, value: nat, payload: nat) {
    function Cost(): nat {
      price * gas + value
    }
  }

  type Items = map<nat, Tx>

  // Plain sorted maps, what the lists are measured against

  ghost predicate Keyed(items: Items) {
    forall n :: n in items ==> items[n].nonce == n
  }

  function Below(items: Items, n: nat): Items {
    map k | k in items && k < n :: items[k]
  }

  function From(items: Items, n: nat): Items {
    map k | k in items && n <= k :: items[k]
  }

  function Matching(items: Items, p: Tx -> bool): Items {
    map k | k in items && p(items[k]) :: items[k]
  }

  function Missing(items: Items, p: Tx -> bool): Items {
    map k | k in items && !p(items[k]) :: items[k]
  }

  /** All nonces from lo to hi, hi excluded. */
  ghost predicate Contiguous(items: Items, lo: nat, hi: nat) {
    lo <= hi && forall n :: n in items <==> lo <= n < hi
  }

  /** s lists the transactions of m, each once. */
  ghost predicate Lists(s: seq<Tx>, m: Items) {
    && Keyed(m)
    && (forall i, j :: 0 <= i < j < |s| ==> s[i].nonce != s[j].nonce)
    && (forall tx :: tx in s ==> tx.nonce in m && m[tx.nonce] == tx)
    && (forall n :: n in m ==> m[n] in s)
  }

  /** s lists the transactions of m by ascending nonce. */
  ghost predicate Sorted(s: seq<Tx>, m: Items) {
    Lists(s, m) && forall i, j :: 0 <= i < j < |s| ==> s[i].nonce < s[j].nonce
  }

  /** The sorted listing is one particular sequence. */
  lemma {:induction false} SortedUnique(s: seq<Tx>, t: seq<Tx>, m: Items)
    requires Sorted(s, m) && Sorted(t, m)
    ensures s == t
    decreases |s|
  {
    hide *;
    SortedSize(s, m);
    SortedSize(t, m);
    if s != [] {
      SortedLast(s, m);
      SortedLast(t, m);
      var a, b := s[|s| - 1], t[|t| - 1];
      assert a == b;
      SortedUnique(s[..|s| - 1], t[..|t| - 1], m - {a.nonce});
      assert s == s[..|s| - 1] + [a] && t == t[..|t| - 1] + [b];
    }
  }

  lemma SortedSize(s: seq<Tx>, m: Items)
    requires Sorted(s, m)
    ensures |s| == |m|
  {
    ListsSize(s, m);
  }

  lemma SortedLast(s: seq<Tx>, m: Items)
    requires Sorted(s, m) && s != []
    ensures var last := s[|s| - 1];
      && last.nonce in m && m[last.nonce] == last && (forall n :: n in m ==> n <= last.nonce)
      && Sorted(s[..|s| - 1], m - {last.nonce})
  {
    var last := s[|s| - 1];
    assert last in s;
    forall n | n in m
      ensures n <= last.nonce
    {
      var i :| 0 <= i < |s| && s[i] == m[n];
    }
    ListsDropLast(s, m);
  }

  /** A list has as many entries as the map it lists. */
  lemma {:induction false} ListsSize(s: seq<Tx>, m: Items)
    requires Lists(s, m)
    ensures |s| == |m|
    decreases |s|
  {
    if s == [] {
      assert m.Keys == {};
    } else {
      var last := s[|s| - 1];
      assert last in s;
      var m' := m - {last.nonce};
      assert m.Keys == m'.Keys + {last.nonce};
      ListsDropLast(s, m);
      ListsSize(s[..|s| - 1], m');
    }
  }

  lemma ListsDropLast(s: seq<Tx>, m: Items)
    requires Lists(s, m) && s != []
    ensures Lists(s[..|s| - 1], m - {s[|s| - 1].nonce})
  {
    var t, last := s[..|s| - 1], s[|s| - 1];
    forall tx | tx in t
      ensures tx.nonce in m - {last.nonce} && (m - {last.nonce})[tx.nonce] == tx
    {
      var i :| 0 <= i < |t| && t[i] == tx;
      assert s[i] == tx && tx in s;
    }
    forall n | n in m - {last.nonce}
      ensures m[n] in t
    {
      var i :| 0 <= i < |s| && s[i] == m[n];
      assert last in s;
      assert i != |s| - 1;
      assert t[i] == m[n];
    }
  }

  // The heap of nonces, by its contract: the head is the least element

  predicate IsLeast(h: multiset<nat>, x: nat) {
    x in h && forall y :: y in h ==> x <= y
  }

  lemma {:induction false} LeastExists(h: multiset<nat>)
    requires |h| > 0
    ensures exists x :: IsLeast(h, x)
    decreases |h|
  {
    var x :| x in h;
    var rest := h - multiset{x};
    if |rest| > 0 {
      LeastExists(rest);
      var y :| IsLeast(rest, y);
      assert IsLeast(h, if x <= y then x else y) by {
        forall z | z in h
          ensures z == x || z in rest
        {
        }
      }
    } else {
      assert h == multiset{x};
      assert IsLeast(h, x);
    }
  }

  function Head(h: multiset<nat>): (x: nat)
    requires |h| > 0
    ensures IsLeast(h, x)
  {
    LeastExists(h);
    var x :| IsLeast(h, x);
    x
  }

  function Nonces(items: Items): multiset<nat> {
    multiset(items.Keys)
  }

  /** sort.Sort on the heap's slice. */
  method SortNonces(h: multiset<nat>) returns (s: seq<nat>)
    ensures multiset(s) == h
    ensures forall i, j :: 0 <= i < j < |s| ==> s[i] <= s[j]
  {
    s := [];
    var rest := h;
    while |rest| > 0
      invariant multiset(s) + rest == h
      invariant forall i, j :: 0 <= i < j < |s| ==> s[i] <= s[j]
      invariant forall i, y :: 0 <= i < |s| && y in rest ==> s[i] <= y
      decreases |rest|
    {
      var x := Head(rest);
      assert forall y :: y in rest - multiset{x} ==> y in rest;
      s := s + [x];
      rest := rest - multiset{x};
    }
  }

  // Truncation

  predicate IsGreatest(keys: set<nat>, x: nat) {
    x in keys && forall y :: y in keys ==> y <= x
  }

  lemma {:induction false} GreatestExists(keys: set<nat>)
    requires keys != {}
    ensures exists x :: IsGreatest(keys, x)
    decreases keys
  {
    var x :| x in keys;
    var rest := keys - {x};
    if rest != {} {
      GreatestExists(rest);
      var y :| IsGreatest(rest, y);
      assert forall z :: z in keys ==> z == x || z in rest;
      assert IsGreatest(keys, if x <= y then y else x);
    } else {
      assert keys == {x};
      assert IsGreatest(keys, x);
    }
  }

  function Highest(items: Items): (x: nat)
    requires |items| > 0
    ensures IsGreatest(items.Keys, x)
  {
    GreatestExists(items.Keys);
    var x :| IsGreatest(items.Keys, x);
    x
  }

  /** The n transactions of lowest nonce. */
  function CapTo(items: Items, n: nat): (r: Items)
    ensures forall k :: k in r ==> k in items && r[k] == items[k]
    decreases |items|
  {
    if |items| <= n then items else RemoveShrinks(items); CapTo(items - {Highest(items)}, n)
  }

  lemma RemoveShrinks(items: Items)
    requires |items| > 0
    ensures |items - {Highest(items)}| == |items| - 1
  {
    assert items.Keys == (items - {Highest(items)}).Keys + {Highest(items)};
  }

  /** CapTo keeps exactly n transactions, and no kept nonce lies above a dropped one. */
  lemma {:induction false} CapToIsLowest(items: Items, n: nat)
    ensures |CapTo(items, n)| == if |items| <= n then |items| else n
    ensures forall k, d :: k in CapTo(items, n) && d in items && d !in CapTo(items, n) ==> k < d
    decreases |items|
  {
    if |items| > n {
      RemoveShrinks(items);
      CapToIsLowest(items - {Highest(items)}, n);
    }
  }

  /** Truncating twice is truncating to the smaller length. */
  lemma {:induction false} CapToTwice(items: Items, n: nat, k: nat)
    requires k <= n
    ensures CapTo(CapTo(items, n), k) == CapTo(items, k)
    decreases |items|
  {
    if |items| > n {
      RemoveShrinks(items);
      CapToTwice(items - {Highest(items)}, n, k);
    }
  }

  lemma {:induction false} CapToContiguous(items: Items, lo: nat, hi: nat, n: nat)
    requires Contiguous(items, lo, hi)
    ensures |items| == hi - lo
    ensures Contiguous(CapTo(items, n), lo, if hi - lo <= n then hi else lo + n)
    decreases |items|
  {
    ContiguousSize(items, lo, hi);
    if |items| > n {
      RemoveShrinks(items);
      assert Highest(items) == hi - 1 by { assert hi - 1 in items; }
      CapToContiguous(items - {Highest(items)}, lo, hi - 1, n);
    }
  }

  lemma {:induction false} ContiguousSize(items: Items, lo: nat, hi: nat)
    requires Contiguous(items, lo, hi)
    ensures |items| == hi - lo
    decreases hi
  {
    if lo < hi {
      assert items.Keys == (items - {hi - 1}).Keys + {hi - 1};
      ContiguousSize(items - {hi - 1}, lo, hi - 1);
    } else {
      assert items.Keys == {};
    }
  }

  // Runs

  /** The unbroken run of nonces that starts at the given one. */
  function RunFrom(items: Items, start: nat): Items {
    map k | k in items && start <= k && (forall j :: start <= j <= k ==> j in items) :: items[k]
  }

  /** What Ready takes: nothing if the lowest nonce is above start, and otherwise the run from the lowest nonce. */
  function ReadyItems(items: Items, start: nat): Items {
    if |items| == 0 || Head(Nonces(items)) > start then map[] else RunFrom(items, Head(Nonces(items)))
  }

  /** What of before is not in rest. */
  function Minus(before: Items, rest: Items): Items {
    map k | k in before && k !in rest :: before[k]
  }

  // Replacement

  /** list.Add's price rule for a transaction with the same nonce. */
  predicate Outbids(tx: Tx, old_: Tx, priceBump: nat) {
    old_.price < tx.price && old_.price * (100 + priceBump) / 100 <= tx.price
  }

  datatype Added = Added(inserted: bool, replaced: Option<Tx>, items: Items)

  /** txList.Add on a plain map. */
  function AddTo(items: Items, tx: Tx, priceBump: nat): Added {
    if tx.nonce !in items then Added(true, None, items[tx.nonce := tx])
    else if Outbids(tx, items[tx.nonce], priceBump) then Added(true, Some(items[tx.nonce]), items[tx.nonce := tx])
    else Added(false, None, items)
  }

  // Affordability

  predicate TooDear(tx: Tx, costLimit: nat, gasLimit: nat) {
    tx.Cost() > costLimit || tx.gas > gasLimit
  }

  function Dear(items: Items, costLimit: nat, gasLimit: nat): Items {
    Matching(items, tx => TooDear(tx, costLimit, gasLimit))
  }

  /** What is left of a list after Filter: a strict list loses everything from its first unaffordable nonce on. */
  function Affordable(items: Items, costLimit: nat, gasLimit: nat, strict: bool): Items {
    var dear := Dear(items, costLimit, gasLimit);
    if strict && |Nonces(dear)| > 0 then Below(items, Head(Nonces(dear)))
    else Missing(items, tx => TooDear(tx, costLimit, gasLimit))
  }
}
