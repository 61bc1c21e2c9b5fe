/** core/tx_list.go: the heap-indexed, cached map behind a list, and the list with its cost and gas caps. */
module SortedMaps {
  import opened Options
  import opened TxLists

  // Steps of the loops, on plain maps

  lemma NoncesOfRemoved(items: Items, n: nat)
    requires n in items
    ensures Nonces(items) - multiset{n} == Nonces(items - {n})
  {
    var a, b := Nonces(items) - multiset{n}, Nonces(items - {n});
    forall x: nat
      ensures a[x] == b[x]
    {
    }
  }

  lemma KeyedRemoved(items: Items, n: nat)
    requires Keyed(items)
    ensures Keyed(items - {n})
  {
  }

  lemma NoncesOfAdded(items: Items, n: nat, tx: Tx)
    requires n !in items
    ensures Nonces(items) + multiset{n} == Nonces(items[n := tx])
  {
    assert items[n := tx].Keys == items.Keys + {n};
  }

  lemma NoncesEmpty(items: Items)
    ensures |Nonces(items)| == |items|
    ensures |items| == 0 <==> items == map[]
  {
    assert |items| == |items.Keys|;
  }

  lemma SortedAppend(s: seq<Tx>, m: Items, tx: Tx)
    requires Sorted(s, m) && forall n :: n in m ==> n < tx.nonce
    ensures Sorted(s + [tx], m[tx.nonce := tx])
  {
    var t := s + [tx];
    forall i, j | 0 <= i < j < |t|
      ensures t[i].nonce < t[j].nonce
    {
      if j == |s| { assert t[i] in s; }
    }
    var m' := m[tx.nonce := tx];
    forall n | n in m'
      ensures m'[n] in t
    {
    }
  }

  lemma ListsAppend(s: seq<Tx>, m: Items, tx: Tx)
    requires Lists(s, m) && tx.nonce !in m
    ensures Lists(s + [tx], m[tx.nonce := tx])
  {
    var t := s + [tx];
    forall i, j | 0 <= i < j < |t|
      ensures t[i].nonce != t[j].nonce
    {
      if j == |s| { assert t[i] in s; }
    }
    var m' := m[tx.nonce := tx];
    forall n | n in m'
      ensures m'[n] in t
    {
    }
  }

  lemma ListsNothing()
    ensures Sorted([], map[]) && Lists([], map[])
  {
  }

  lemma SortedSplit(s: seq<Tx>, m: Items, n: nat, front: seq<Tx>)
    requires Sorted(s, m) && Sorted(front, Below(m, n))
    ensures |front| <= |s| && Sorted(s[|front|..], From(m, n)) && s[..|front|] == front
  {
    var i := SplitPoint(s, m, n);
    SortedUnique(front, s[..i], Below(m, n));
  }

  lemma SplitPoint(s: seq<Tx>, m: Items, n: nat) returns (i: nat)
    requires Sorted(s, m)
    ensures i <= |s| && Sorted(s[..i], Below(m, n)) && Sorted(s[i..], From(m, n))
  {
    hide Sorted;
    SortedFacts(s, m);
    i := 0;
    while i < |s| && s[i].nonce < n
      invariant 0 <= i <= |s|
      invariant forall j :: 0 <= j < i ==> s[j].nonce < n
    {
      i := i + 1;
    }
    assert forall j :: i <= j < |s| ==> n <= s[j].nonce;
    PartSorted(s, m, s[..i], Below(m, n), 0);
    PartSorted(s, m, s[i..], From(m, n), i);
  }

  lemma SortedFacts(s: seq<Tx>, m: Items)
    requires Sorted(s, m)
    ensures forall i, j :: 0 <= i < j < |s| ==> s[i].nonce < s[j].nonce
    ensures forall i :: 0 <= i < |s| ==> s[i].nonce in m && m[s[i].nonce] == s[i]
  {
    assert forall i :: 0 <= i < |s| ==> s[i] in s;
  }

  /** A stretch of a sorted listing lists the part of the map with its nonces. */
  lemma PartSorted(s: seq<Tx>, m: Items, part: seq<Tx>, m': Items, at: nat)
    requires Sorted(s, m) && at + |part| <= |s| && part == s[at..at + |part|]
    requires forall n :: n in m' ==> n in m && m'[n] == m[n]
    requires forall i :: 0 <= i < |s| ==> (s[i].nonce in m' <==> at <= i < at + |part|)
    ensures Sorted(part, m')
  {
    SortedFacts(s, m);
    PartOrdered(s, part, at);
    PartHolds(s, m, part, m', at);
    PartMisses(s, m, part, m', at);
  }

  lemma PartOrdered(s: seq<Tx>, part: seq<Tx>, at: nat)
    requires at + |part| <= |s| && part == s[at..at + |part|]
    requires forall i, j :: 0 <= i < j < |s| ==> s[i].nonce < s[j].nonce
    ensures forall i, j :: 0 <= i < j < |part| ==> part[i].nonce < part[j].nonce
  {
    assert forall i :: 0 <= i < |part| ==> part[i] == s[at + i];
  }

  lemma PartHolds(s: seq<Tx>, m: Items, part: seq<Tx>, m': Items, at: nat)
    requires at + |part| <= |s| && part == s[at..at + |part|]
    requires forall i :: 0 <= i < |s| ==> s[i].nonce in m && m[s[i].nonce] == s[i]
    requires forall n :: n in m' ==> n in m && m'[n] == m[n]
    requires forall i :: at <= i < at + |part| ==> s[i].nonce in m'
    ensures forall tx :: tx in part ==> tx.nonce in m' && m'[tx.nonce] == tx
  {
    forall tx | tx in part
      ensures tx.nonce in m' && m'[tx.nonce] == tx
    {
      var i :| 0 <= i < |part| && part[i] == tx;
      assert s[at + i] == tx;
    }
  }

  lemma PartMisses(s: seq<Tx>, m: Items, part: seq<Tx>, m': Items, at: nat)
    requires Lists(s, m) && at + |part| <= |s| && part == s[at..at + |part|]
    requires forall n :: n in m' ==> n in m && m'[n] == m[n]
    requires forall i :: 0 <= i < |s| && s[i].nonce in m' ==> at <= i < at + |part|
    ensures forall n :: n in m' ==> m'[n] in part
  {
    forall n | n in m'
      ensures m'[n] in part
    {
      var i :| 0 <= i < |s| && s[i] == m[n];
      assert part[i - at] == m'[n];
    }
  }

  /** txSortedMap */
  class TxSortedMap {
    var items: Items
    var index: multiset<nat>
    var cache: Option<seq<Tx>>

    /** The heap holds the map's nonces, and a cache holds its sorted contents. */
    ghost predicate Valid()
      reads this
    {
      Keyed(items) && index == Nonces(items) && (cache.Some? ==> Sorted(cache.value, items))
    }

    constructor ()
      ensures Valid() && items == map[]
    {
      items, index, cache := map[], multiset{}, None;
    }

    method Put(tx: Tx)
      requires Valid()
      modifies this
      ensures Valid() && items == old(items)[tx.nonce := tx]
    {
      if tx.nonce !in items {
        NoncesOfAdded(items, tx.nonce, tx);
        index := index + multiset{tx.nonce};
      } else {
        assert items[tx.nonce := tx].Keys == items.Keys;
      }
      items, cache := items[tx.nonce := tx], None;
    }

    method Forward(threshold: nat) returns (removed: seq<Tx>)
      requires Valid()
      modifies this
      ensures Valid() && items == From(old(items), threshold)
      ensures Sorted(removed, Below(old(items), threshold))
    {
      hide *;
      ValidParts();
      removed := [];
      ghost var gone: Items := map[];
      ForwardStarts(items, threshold);
      while |index| > 0 && Head(index) < threshold
        invariant index == Nonces(items) && |index| == |items| && cache == old(cache)
        invariant Forwarding(old(items), items, gone, removed, threshold)
        decreases |index|
      {
        var nonce := Head(index);
        ForwardStep(old(items), items, gone, removed, threshold);
        removed := removed + [items[nonce]];
        gone := gone[nonce := items[nonce]];
        index := index - multiset{nonce};
        items := items - {nonce};
      }
      ForwardEnds(old(items), items, gone, removed, threshold);
      if cache.Some? {
        SortedSplit(cache.value, old(items), threshold, removed);
        cache := Some(cache.value[|removed|..]);
      }
      IsValid();
    }

    /** Removes, in any order, the transactions for which the filter holds. */
    method Filter(filter: Tx -> bool) returns (removed: seq<Tx>)
      requires Valid()
      modifies this
      ensures Valid() && items == Missing(old(items), filter)
      ensures Lists(removed, Matching(old(items), filter))
    {
      hide *;
      ValidParts();
      removed := [];
      var todo := items.Keys;
      FilterStarts(items, filter);
      while todo != {}
        invariant Filtering(old(items), filter, todo, items, removed)
        invariant index == old(index) && cache == old(cache)
        decreases todo
      {
        var nonce :| nonce in todo;
        FilterStep(old(items), filter, todo, items, removed, nonce);
        if filter(items[nonce]) {
          removed := removed + [items[nonce]];
          items := items - {nonce};
        }
        todo := todo - {nonce};
      }
      FilterEnds(old(items), filter, items, removed);
      if |removed| > 0 {
        index := Nonces(items);
        cache := None;
      }
      IsValid();
    }

    method Cap(threshold: nat) returns (drops: seq<Tx>)
      requires Valid()
      modifies this
      ensures Valid() && items == CapTo(old(items), threshold)
      ensures Lists(drops, Minus(old(items), items))
    {
      hide *;
      ValidParts();
      drops := [];
      CapStarts(items, threshold);
      if |items| <= threshold {
        return;
      }
      var sorted := SortNonces(index);
      var size := |items|;
      CapSorted(items, sorted);
      while size > threshold
        invariant threshold <= size <= |old(items)| == |sorted|
        invariant cache == old(cache)
        invariant Capping(old(items), sorted, size, items, drops)
      {
        CapStep(old(items), sorted, size, items, drops);
        drops := drops + [items[sorted[size - 1]]];
        items := items - {sorted[size - 1]};
        size := size - 1;
      }
      CapEnds(old(items), sorted, threshold, items, drops);
      index := multiset(sorted[..threshold]);
      if cache.Some? {
        CapCache(cache.value, old(items), threshold, drops);
        cache := Some(cache.value[..|cache.value| - |drops|]);
      }
      IsValid();
    }

    method Remove(nonce: nat) returns (found: bool)
      requires Valid()
      modifies this
      ensures Valid() && found == (nonce in old(items)) && items == old(items) - {nonce}
    {
      hide *;
      ValidParts();
      if nonce !in items {
        assert items == items - {nonce};
        return false;
      }
      KeyedRemoved(items, nonce);
      NoncesOfRemoved(items, nonce);
      index := index - multiset{nonce};
      items := items - {nonce};
      cache := None;
      found := true;
      IsValid();
    }

    method Ready(start: nat) returns (ready: seq<Tx>)
      requires Valid()
      modifies this
      ensures Valid() && Sorted(ready, ReadyItems(old(items), start))
      ensures items == Minus(old(items), ReadyItems(old(items), start))
    {
      hide *;
      ValidParts();
      ready := [];
      ReadyNothing(items, start);
      if |index| == 0 || Head(index) > start {
        return;
      }
      var next := Head(index);
      ghost var lo := next;
      RunStarts(items);
      while |index| > 0 && Head(index) == next
        invariant Running(old(items), lo, next, items, ready)
        invariant index == Nonces(items) && |index| == |items|
        decreases |index|
      {
        RunStep(old(items), lo, next, items, ready);
        ready := ready + [items[next]];
        items := items - {next};
        index := index - multiset{next};
        next := next + 1;
      }
      RunEnds(old(items), start, lo, next, items, ready);
      cache := None;
      IsValid();
    }

    method Flatten() returns (txs: seq<Tx>)
      requires Valid()
      modifies this`cache
      ensures Valid() && Sorted(txs, items)
    {
      hide *;
      ValidParts();
      if cache.None? {
        var sorted := SortByNonce(items);
        cache := Some(sorted);
      }
      txs := cache.value;
      IsValid();
    }

    lemma IsValid()
      requires Keyed(items) && index == Nonces(items) && (cache.Some? ==> Sorted(cache.value, items))
      ensures Valid()
    {
    }

    lemma ValidParts()
      requires Valid()
      ensures Keyed(items) && index == Nonces(items) && (cache.Some? ==> Sorted(cache.value, items))
    {
    }
  }

  /** All of before, split into what left and what stayed; everything that left lies below
      what stayed and the threshold. */
  ghost predicate MoveBelow(before: Items, stay: Items, left: Items, threshold: nat) {
    && (forall n :: n in before <==> n in stay || n in left)
    && (forall n :: n in stay ==> n in before && stay[n] == before[n] && n !in left)
    && (forall n :: n in left ==> n in before && left[n] == before[n] && n < threshold)
    && (forall n, k :: n in left && k in stay ==> n < k)
  }

  ghost predicate Forwarding(before: Items, stay: Items, left: Items, removed: seq<Tx>, threshold: nat) {
    Keyed(before) && MoveBelow(before, stay, left, threshold) && Sorted(removed, left)
  }

  lemma ForwardStarts(before: Items, threshold: nat)
    requires Keyed(before)
    ensures Forwarding(before, before, map[], [], threshold) && |Nonces(before)| == |before|
  {
    ListsNothing();
    NoncesEmpty(before);
  }

  lemma HeadIsLowest(items: Items)
    requires |Nonces(items)| > 0
    ensures Head(Nonces(items)) in items && forall n :: n in items ==> Head(Nonces(items)) <= n
  {
    forall n | n in items
      ensures Head(Nonces(items)) <= n
    {
      assert n in Nonces(items);
    }
  }

  lemma TakeHead(items: Items)
    requires |Nonces(items)| > 0
    ensures var n := Head(Nonces(items));
      && n in items && (forall k :: k in items ==> n <= k)
      && Nonces(items) - multiset{n} == Nonces(items - {n}) && |Nonces(items - {n})| == |items - {n}| < |items|
  {
    HeadIsLowest(items);
    var n := Head(Nonces(items));
    hide *;
    NoncesOfRemoved(items, n);
    NoncesEmpty(items - {n});
    assert items.Keys == (items - {n}).Keys + {n};
  }

  lemma ForwardStep(before: Items, stay: Items, left: Items, removed: seq<Tx>, threshold: nat)
    requires |Nonces(stay)| > 0 && Head(Nonces(stay)) < threshold && Forwarding(before, stay, left, removed, threshold)
    ensures var n := Head(Nonces(stay));
      && n in stay
      && Forwarding(before, stay - {n}, left[n := stay[n]], removed + [stay[n]], threshold)
      && Nonces(stay) - multiset{n} == Nonces(stay - {n}) && |Nonces(stay - {n})| == |stay - {n}| < |stay|
  {
    TakeHead(stay);
    var n := Head(Nonces(stay));
    hide Nonces, Head, Sorted;
    SortedAppend(removed, left, stay[n]);
  }

  lemma ForwardEnds(before: Items, stay: Items, left: Items, removed: seq<Tx>, threshold: nat)
    requires Forwarding(before, stay, left, removed, threshold)
    requires |Nonces(stay)| == 0 || Head(Nonces(stay)) >= threshold
    ensures stay == From(before, threshold) && Keyed(stay) && Sorted(removed, Below(before, threshold))
  {
    NoncesEmpty(stay);
    if |Nonces(stay)| > 0 { HeadIsLowest(stay); }
    assert left == Below(before, threshold);
  }

  /** Collecting the transactions of a map and sorting them by nonce. */
  method SortByNonce(items: Items) returns (s: seq<Tx>)
    requires Keyed(items)
    ensures Sorted(s, items)
  {
    hide *;
    s := [];
    var rest := items;
    ghost var done: Items := map[];
    ghost var threshold := Bound(items);
    ForwardStarts(items, threshold);
    while |Nonces(rest)| > 0
      invariant |Nonces(rest)| == |rest| && Forwarding(items, rest, done, s, threshold)
      decreases |Nonces(rest)|
    {
      var nonce := Head(Nonces(rest));
      BoundAbove(items, rest, done, s, threshold);
      ForwardStep(items, rest, done, s, threshold);
      s := s + [rest[nonce]];
      done := done[nonce := rest[nonce]];
      rest := rest - {nonce};
    }
    ForwardEnds(items, rest, done, s, threshold);
    BelowBound(items);
  }

  /** A nonce above every nonce of the map. */
  ghost function Bound(items: Items): nat {
    if |items| == 0 then 0 else Highest(items) + 1
  }

  lemma BoundAbove(items: Items, rest: Items, done: Items, s: seq<Tx>, threshold: nat)
    requires threshold == Bound(items) && |Nonces(rest)| > 0 && Forwarding(items, rest, done, s, threshold)
    ensures Head(Nonces(rest)) < threshold
  {
    HeadIsLowest(rest);
    assert Head(Nonces(rest)) in items;
  }

  lemma BelowBound(items: Items)
    ensures Below(items, Bound(items)) == items
  {
    if |items| == 0 { assert items == map[]; }
  }

  // Filter

  ghost function Doing(before: Items, p: Tx -> bool, todo: set<nat>): Items {
    map n | n in before && n !in todo && p(before[n]) :: before[n]
  }

  ghost predicate Filtering(before: Items, p: Tx -> bool, todo: set<nat>, items: Items, removed: seq<Tx>) {
    && Keyed(before) && todo <= before.Keys
    && items == Minus(before, Doing(before, p, todo))
    && Lists(removed, Doing(before, p, todo))
  }

  lemma FilterStarts(before: Items, p: Tx -> bool)
    requires Keyed(before)
    ensures Filtering(before, p, before.Keys, before, [])
  {
    ListsNothing();
    assert Doing(before, p, before.Keys) == map[];
    assert Minus(before, map[]) == before;
  }

  lemma FilterStep(before: Items, p: Tx -> bool, todo: set<nat>, items: Items, removed: seq<Tx>, n: nat)
    requires Filtering(before, p, todo, items, removed) && n in todo
    ensures n in items && items[n] == before[n]
    ensures p(items[n]) ==> Filtering(before, p, todo - {n}, items - {n}, removed + [items[n]])
    ensures !p(items[n]) ==> Filtering(before, p, todo - {n}, items, removed)
  {
    hide Lists;
    var done, done' := Doing(before, p, todo), Doing(before, p, todo - {n});
    if p(before[n]) {
      ListsAppend(removed, done, before[n]);
      assert done' == done[n := before[n]];
    } else {
      assert done' == done;
    }
  }

  lemma FilterEnds(before: Items, p: Tx -> bool, items: Items, removed: seq<Tx>)
    requires Filtering(before, p, {}, items, removed)
    ensures Keyed(items) && items == Missing(before, p) && Lists(removed, Matching(before, p))
    ensures |removed| == 0 ==> items == before
  {
    assert Doing(before, p, {}) == Matching(before, p);
    if |removed| == 0 {
      ListsSize(removed, Matching(before, p));
      assert Matching(before, p).Keys == {};
      assert items == before;
    }
  }

  // Cap

  ghost predicate Capping(before: Items, sorted: seq<nat>, size: nat, items: Items, drops: seq<Tx>) {
    && Keyed(before) && size <= |sorted|
    && items == CapTo(before, size) && |items| == size
    && multiset(sorted[..size]) == Nonces(items)
    && (forall i, j :: 0 <= i < j < |sorted| ==> sorted[i] <= sorted[j])
    && Lists(drops, Minus(before, items))
  }

  lemma CapStarts(before: Items, threshold: nat)
    requires Keyed(before)
    ensures |before| <= threshold ==> before == CapTo(before, threshold)
    ensures Lists([], Minus(before, before))
  {
    ListsNothing();
    assert Minus(before, before) == map[];
  }

  lemma CapSorted(before: Items, sorted: seq<nat>)
    requires Keyed(before) && multiset(sorted) == Nonces(before)
    requires forall i, j :: 0 <= i < j < |sorted| ==> sorted[i] <= sorted[j]
    ensures |sorted| == |before| && Capping(before, sorted, |before|, before, [])
  {
    CapStarts(before, |before|);
    NoncesEmpty(before);
    assert |multiset(sorted)| == |sorted|;
    assert sorted[..|sorted|] == sorted;
  }

  lemma SortedLastNonce(sorted: seq<nat>, size: nat, items: Items)
    requires 0 < size <= |sorted| && multiset(sorted[..size]) == Nonces(items)
    requires forall i, j :: 0 <= i < j < |sorted| ==> sorted[i] <= sorted[j]
    ensures sorted[size - 1] in items && forall n :: n in items ==> n <= sorted[size - 1]
    ensures multiset(sorted[..size - 1]) == Nonces(items - {sorted[size - 1]})
  {
    var last := sorted[size - 1];
    assert sorted[..size] == sorted[..size - 1] + [last];
    assert last in multiset(sorted[..size]);
    forall n | n in items
      ensures n <= last
    {
      assert n in Nonces(items) && n in multiset(sorted[..size]);
      var i :| 0 <= i < size && sorted[..size][i] == n;
    }
    NoncesOfRemoved(items, last);
    assert multiset(sorted[..size]) - multiset{last} == multiset(sorted[..size - 1]);
  }

  lemma CapStep(before: Items, sorted: seq<nat>, size: nat, items: Items, drops: seq<Tx>)
    requires Capping(before, sorted, size, items, drops) && size > 0
    ensures sorted[size - 1] in items
    ensures Capping(before, sorted, size - 1, items - {sorted[size - 1]}, drops + [items[sorted[size - 1]]])
  {
    hide Lists;
    var last := sorted[size - 1];
    SortedLastNonce(sorted, size, items);
    assert last == Highest(items);
    RemoveShrinks(items);
    CapToTwice(before, size, size - 1);
    assert CapTo(items, size - 1) == items - {last};
    var rest := items - {last};
    assert Minus(before, rest) == Minus(before, items)[last := items[last]];
    ListsAppend(drops, Minus(before, items), items[last]);
  }

  lemma CapEnds(before: Items, sorted: seq<nat>, threshold: nat, items: Items, drops: seq<Tx>)
    requires Capping(before, sorted, threshold, items, drops)
    ensures Keyed(items) && items == CapTo(before, threshold) && Lists(drops, Minus(before, items))
    ensures multiset(sorted[..threshold]) == Nonces(items)
  {
  }

  lemma {:induction false} SortedCap(s: seq<Tx>, m: Items, n: nat)
    requires Sorted(s, m) && n <= |s|
    ensures Sorted(s[..n], CapTo(m, n))
    decreases |s|
  {
    hide Sorted;
    SortedSize(s, m);
    if n < |s| {
      SortedLast(s, m);
      assert Highest(m) == s[|s| - 1].nonce;
      SortedCap(s[..|s| - 1], m - {Highest(m)}, n);
      assert s[..|s| - 1][..n] == s[..n];
    } else {
      assert s[..n] == s;
    }
  }

  lemma CapCache(s: seq<Tx>, m: Items, n: nat, drops: seq<Tx>)
    requires Sorted(s, m) && n < |m| && Lists(drops, Minus(m, CapTo(m, n)))
    ensures |drops| <= |s| && Sorted(s[..|s| - |drops|], CapTo(m, n))
  {
    hide Sorted;
    SortedSize(s, m);
    ListsSize(drops, Minus(m, CapTo(m, n)));
    CapToIsLowest(m, n);
    assert m.Keys == Minus(m, CapTo(m, n)).Keys + CapTo(m, n).Keys;
    SortedCap(s, m, n);
  }

  // Ready

  ghost predicate Running(before: Items, lo: nat, next: nat, items: Items, ready: seq<Tx>) {
    && Keyed(before) && lo <= next
    && (forall n :: n in before ==> lo <= n)
    && (forall j :: lo <= j < next ==> j in before)
    && items == From(before, next) && Sorted(ready, Below(before, next))
  }

  lemma ReadyNothing(before: Items, start: nat)
    requires Keyed(before)
    ensures |Nonces(before)| == 0 || Head(Nonces(before)) > start ==>
      Sorted([], ReadyItems(before, start)) && before == Minus(before, ReadyItems(before, start))
  {
    NoncesEmpty(before);
    ListsNothing();
    assert Minus(before, map[]) == before;
  }

  lemma RunStarts(before: Items)
    requires Keyed(before) && |Nonces(before)| > 0
    ensures Running(before, Head(Nonces(before)), Head(Nonces(before)), before, [])
    ensures |Nonces(before)| == |before|
  {
    HeadIsLowest(before);
    NoncesEmpty(before);
    ListsNothing();
    var lo := Head(Nonces(before));
    assert From(before, lo) == before && Below(before, lo) == map[];
  }

  lemma RunStep(before: Items, lo: nat, next: nat, items: Items, ready: seq<Tx>)
    requires Running(before, lo, next, items, ready) && |Nonces(items)| > 0 && Head(Nonces(items)) == next
    ensures next in items && Running(before, lo, next + 1, items - {next}, ready + [items[next]])
    ensures Nonces(items) - multiset{next} == Nonces(items - {next})
    ensures |Nonces(items - {next})| == |items - {next}| < |items|
  {
    TakeHead(items);
    hide Sorted, Nonces, Head;
    SortedAppend(ready, Below(before, next), items[next]);
    assert Below(before, next + 1) == Below(before, next)[next := before[next]];
    assert From(before, next + 1) == items - {next};
  }

  lemma RunEnds(before: Items, start: nat, lo: nat, next: nat, items: Items, ready: seq<Tx>)
    requires Running(before, lo, next, items, ready) && |Nonces(before)| > 0 && lo == Head(Nonces(before)) <= start
    requires |Nonces(items)| == 0 || Head(Nonces(items)) != next
    ensures Keyed(items) && Sorted(ready, ReadyItems(before, start))
    ensures items == Minus(before, ReadyItems(before, start))
  {
    hide Sorted;
    NoncesEmpty(before);
    NoncesEmpty(items);
    if next in before {
      assert next in items && items != map[];
      HeadIsLowest(items);
    }
    hide Nonces, Head;
    assert RunFrom(before, lo) == Below(before, next);
    assert items == Minus(before, Below(before, next));
  }

  // The list with its caps

  ghost predicate Capped(items: Items, costcap: nat, gascap: nat) {
    forall n :: n in items ==> items[n].Cost() <= costcap && items[n].gas <= gascap
  }

  /** Filter may skip its work when the caps lie within the limits: nothing would be removed. */
  lemma ShortCircuit(items: Items, costcap: nat, gascap: nat, costLimit: nat, gasLimit: nat, strict: bool)
    requires Keyed(items) && Capped(items, costcap, gascap) && costcap <= costLimit && gascap <= gasLimit
    ensures Affordable(items, costLimit, gasLimit, strict) == items
    ensures Lists([], Dear(items, costLimit, gasLimit))
    ensures Lists([], Minus(Missing(items, tx => TooDear(tx, costLimit, gasLimit)), items))
  {
    ListsNothing();
    var p := tx => TooDear(tx, costLimit, gasLimit);
    assert Dear(items, costLimit, gasLimit) == map[];
    NoncesEmpty(Dear(items, costLimit, gasLimit));
    assert Missing(items, p) == items;
    assert Minus(Missing(items, p), items) == map[];
  }

  /** The second pass of a strict Filter removes what the first left above the lowest removed nonce. */
  lemma StrictPass(items: Items, costLimit: nat, gasLimit: nat, lowest: nat)
    requires Keyed(items) && |Nonces(Dear(items, costLimit, gasLimit))| > 0
    requires lowest == Head(Nonces(Dear(items, costLimit, gasLimit)))
    ensures var kept := Missing(items, tx => TooDear(tx, costLimit, gasLimit));
      && Missing(kept, (tx: Tx) => tx.nonce > lowest) == Affordable(items, costLimit, gasLimit, true)
      && Matching(kept, (tx: Tx) => tx.nonce > lowest) == Minus(kept, Affordable(items, costLimit, gasLimit, true))
  {
    var dear := Dear(items, costLimit, gasLimit);
    HeadIsLowest(dear);
    hide Nonces, Head;
    var kept := Missing(items, tx => TooDear(tx, costLimit, gasLimit));
    var q := (tx: Tx) => tx.nonce > lowest;
    forall n
      ensures n in Missing(kept, q) <==> n in Below(items, lowest)
    {
      if n in items && n < lowest { assert n !in dear; }
    }
    assert Missing(kept, q) == Below(items, lowest);
  }

  lemma AffordableCapped(items: Items, costLimit: nat, gasLimit: nat, strict: bool)
    ensures Capped(Affordable(items, costLimit, gasLimit, strict), costLimit, gasLimit)
  {
    var dear := Dear(items, costLimit, gasLimit);
    if strict && |Nonces(dear)| > 0 {
      HeadIsLowest(dear);
      var lowest := Head(Nonces(dear));
      forall n | n in Below(items, lowest)
        ensures items[n].Cost() <= costLimit && items[n].gas <= gasLimit
      {
        assert n !in dear;
      }
    }
  }

  lemma LowestListed(s: seq<Tx>, m: Items, lowest: nat)
    requires Lists(s, m) && s != []
    requires forall i :: 0 <= i < |s| ==> lowest <= s[i].nonce
    requires exists i :: 0 <= i < |s| && lowest == s[i].nonce
    ensures |Nonces(m)| > 0 && lowest == Head(Nonces(m))
  {
    ListsSize(s, m);
    NoncesEmpty(m);
    HeadIsLowest(m);
    var i :| 0 <= i < |s| && lowest == s[i].nonce;
    assert s[i] in s && m[Head(Nonces(m))] in s;
  }

  /** txList */
  class TxList {
    const strict: bool
    const txs: TxSortedMap
    var costcap: nat
    var gascap: nat

    /** The caps bound every transaction, so they can stand in for the scan that Filter would make. */
    ghost predicate Valid()
      reads this, txs
    {
      txs.Valid() && Capped(txs.items, costcap, gascap)
    }

    constructor (strict: bool)
      ensures Valid() && this.strict == strict && txs.items == map[] && fresh(txs)
    {
      this.strict := strict;
      txs := new TxSortedMap();
      costcap, gascap := 0, 0;
    }

    method Add(tx: Tx, priceBump: nat) returns (inserted: bool, replaced: Option<Tx>)
      requires Valid()
      modifies this, txs
      ensures Valid() && Added(inserted, replaced, txs.items) == AddTo(old(txs.items), tx, priceBump)
    {
      hide Nonces, Sorted;
      replaced := None;
      if tx.nonce in txs.items {
        var old_ := txs.items[tx.nonce];
        var threshold := old_.price * (100 + priceBump) / 100;
        if old_.price >= tx.price || threshold > tx.price {
          return false, None;
        }
        replaced := Some(old_);
      }
      txs.Put(tx);
      if costcap < tx.Cost() {
        costcap := tx.Cost();
      }
      if gascap < tx.gas {
        gascap := tx.gas;
      }
      inserted := true;
    }

    method Forward(threshold: nat) returns (removed: seq<Tx>)
      requires Valid()
      modifies txs
      ensures Valid() && txs.items == From(old(txs.items), threshold)
      ensures Sorted(removed, Below(old(txs.items), threshold))
    {
      removed := txs.Forward(threshold);
    }

    method Filter(costLimit: nat, gasLimit: nat) returns (removed: seq<Tx>, invalids: seq<Tx>)
      requires Valid()
      modifies this, txs
      ensures Valid() && txs.items == Affordable(old(txs.items), costLimit, gasLimit, strict)
      ensures Lists(removed, Dear(old(txs.items), costLimit, gasLimit))
      ensures Lists(invalids, Minus(Missing(old(txs.items), tx => TooDear(tx, costLimit, gasLimit)), txs.items))
    {
      hide Nonces, Head, Lists, Sorted, Keyed, Dear, Missing, Matching, Affordable, Minus;
      ListsNothing();
      ghost var before := txs.items;
      txs.ValidParts();
      if costcap <= costLimit && gascap <= gasLimit {
        ShortCircuit(before, costcap, gascap, costLimit, gasLimit, strict);
        return [], [];
      }
      AffordableCapped(before, costLimit, gasLimit, strict);
      costcap, gascap := costLimit, gasLimit;
      removed := txs.Filter(tx => TooDear(tx, costLimit, gasLimit));
      DearIs(before, costLimit, gasLimit);
      invalids := [];
      ghost var kept := txs.items;
      if strict && |removed| > 0 {
        var lowest := LowestNonce(removed);
        LowestListed(removed, Dear(before, costLimit, gasLimit), lowest);
        StrictPass(before, costLimit, gasLimit, lowest);
        invalids := txs.Filter((tx: Tx) => tx.nonce > lowest);
      } else {
        OnePass(before, costLimit, gasLimit, strict, removed);
      }
    }

    method Cap(threshold: nat) returns (drops: seq<Tx>)
      requires Valid()
      modifies txs
      ensures Valid() && txs.items == CapTo(old(txs.items), threshold)
      ensures Lists(drops, Minus(old(txs.items), txs.items))
    {
      drops := txs.Cap(threshold);
    }

    /** Removes by nonce; a strict list also gives up everything above. */
    method Remove(tx: Tx) returns (removed: bool, invalids: seq<Tx>)
      requires Valid()
      modifies txs
      ensures Valid() && removed == (tx.nonce in old(txs.items))
      ensures txs.items == if removed && strict then Below(old(txs.items), tx.nonce) else old(txs.items) - {tx.nonce}
      ensures Lists(invalids, Minus(old(txs.items) - {tx.nonce}, txs.items))
    {
      hide Nonces, Sorted, Lists;
      ghost var before := txs.items;
      txs.ValidParts();
      removed := txs.Remove(tx.nonce);
      invalids := [];
      ListsNothing();
      assert Minus(txs.items, txs.items) == map[];
      if removed && strict {
        var nonce := tx.nonce;
        RemoveAbove(before, nonce);
        invalids := txs.Filter((tx: Tx) => tx.nonce > nonce);
      }
    }

    method Ready(start: nat) returns (ready: seq<Tx>)
      requires Valid()
      modifies txs
      ensures Valid() && Sorted(ready, ReadyItems(old(txs.items), start))
      ensures txs.items == Minus(old(txs.items), ReadyItems(old(txs.items), start))
    {
      ready := txs.Ready(start);
    }
  }

  lemma DearIs(items: Items, costLimit: nat, gasLimit: nat)
    ensures Dear(items, costLimit, gasLimit) == Matching(items, tx => TooDear(tx, costLimit, gasLimit))
  {
  }

  lemma OnePass(items: Items, costLimit: nat, gasLimit: nat, strict: bool, removed: seq<Tx>)
    requires Lists(removed, Dear(items, costLimit, gasLimit)) && !(strict && |removed| > 0)
    ensures var kept := Missing(items, tx => TooDear(tx, costLimit, gasLimit));
      kept == Affordable(items, costLimit, gasLimit, strict) && Lists([], Minus(kept, kept))
  {
    var kept := Missing(items, tx => TooDear(tx, costLimit, gasLimit));
    ListsSize(removed, Dear(items, costLimit, gasLimit));
    NoncesEmpty(Dear(items, costLimit, gasLimit));
    ListsNothing();
    assert Minus(kept, kept) == map[];
  }

  lemma RemoveAbove(items: Items, nonce: nat)
    requires Keyed(items)
    ensures var rest := items - {nonce};
      && Missing(rest, (tx: Tx) => tx.nonce > nonce) == Below(items, nonce)
      && Matching(rest, (tx: Tx) => tx.nonce > nonce) == Minus(rest, Below(items, nonce))
  {
  }

  method LowestNonce(txs: seq<Tx>) returns (lowest: nat)
    requires |txs| > 0
    ensures forall i :: 0 <= i < |txs| ==> lowest <= txs[i].nonce
    ensures exists i :: 0 <= i < |txs| && lowest == txs[i].nonce
  {
    // the source starts from the greatest uint64, which no nonce exceeds
    lowest := txs[0].nonce;
    for i := 1 to |txs|
      invariant forall j :: 0 <= j < i ==> lowest <= txs[j].nonce
      invariant exists j :: 0 <= j < i && lowest == txs[j].nonce
    {
      if lowest > txs[i].nonce {
        lowest := txs[i].nonce;
      }
    }
  }

  // What strict lists are for

  /** Removing, filtering, forwarding and truncating a contiguous strict list leave it contiguous
      from the same or a later nonce. */
  lemma StrictStaysContiguous(items: Items, lo: nat, hi: nat, nonce: nat, costLimit: nat, gasLimit: nat)
    requires Keyed(items) && Contiguous(items, lo, hi)
    ensures lo <= nonce < hi ==> Contiguous(Below(items, nonce), lo, nonce)
    ensures var kept := Affordable(items, costLimit, gasLimit, true);
      exists hi' :: lo <= hi' <= hi && Contiguous(kept, lo, hi')
    ensures Contiguous(From(items, nonce), if nonce <= lo then lo else if nonce <= hi then nonce else hi, hi)
  {
    var dear := Dear(items, costLimit, gasLimit);
    var kept := Affordable(items, costLimit, gasLimit, true);
    if |Nonces(dear)| > 0 {
      HeadIsLowest(dear);
      assert Contiguous(kept, lo, Head(Nonces(dear)));
    } else {
      NoncesEmpty(dear);
      assert kept == items by {
        assert forall n :: n in items ==> n !in dear;
      }
      assert Contiguous(kept, lo, hi);
    }
  }

  /** Ready on a list whose lowest nonce is the start takes the maximal unbroken run from it. */
  lemma ReadyIsMaximalRun(items: Items, start: nat)
    requires Keyed(items) && forall n :: n in items ==> start <= n
    ensures var run := ReadyItems(items, start);
      exists hi :: start <= hi && Contiguous(run, start, hi) && hi !in items
  {
    var run := ReadyItems(items, start);
    var hi := FirstGap(items, start);
    NoncesEmpty(items);
    if start in items {
      HeadIsLowest(items);
      assert Head(Nonces(items)) == start;
    } else if |items| > 0 {
      HeadIsLowest(items);
    }
    assert Contiguous(run, start, hi);
  }

  lemma FirstGap(items: Items, start: nat) returns (hi: nat)
    ensures start <= hi && hi !in items && forall n :: start <= n < hi ==> n in items
  {
    hi := start;
    ghost var rest := items;
    while hi in items
      invariant start <= hi && forall n :: start <= n < hi ==> n in items
      invariant rest == From(items, hi) || hi == start
      decreases |From(items, hi)|
    {
      assert From(items, hi).Keys == From(items, hi + 1).Keys + {hi};
      hi := hi + 1;
      rest := From(items, hi);
    }
  }
}
