/** The truncation of queued lists as a value: whole accounts go, heard of last first, and
    at most one is cut in part. */
module QueueLimits {
  import opened TxLists
  import opened PoolTables
  import opened Fairness
  import opened PoolSteps
  import SortedMaps

  /** The heartbeat of an account, the zero time if it has none. */
  function BeatOf(beats: map<Address, int>, a: Address): int {
    if a in beats then beats[a] else 0
  }

  /** Everything kept is the lowest nonces of its account's queue. */
  ghost predicate Prefixes(before: Lists, after: Lists) {
    forall a :: a in after ==> a in before && |after[a]| <= |before[a]| && after[a] == CapTo(before[a], |after[a]|)
  }

  ghost predicate LocalsKept(before: Lists, after: Lists, locals: set<Address>) {
    forall a :: a in locals ==> ListOf(after, a) == ListOf(before, a)
  }

  ghost predicate Lost(before: Lists, after: Lists, a: Address) {
    a in before && ListOf(after, a) != before[a]
  }

  /** No account was cut while another remote account, heard of later, kept something. */
  ghost predicate LatestFirst(before: Lists, after: Lists, locals: set<Address>, beats: map<Address, int>) {
    forall a, b :: Lost(before, after, a) && b in after && b !in locals && a != b ==>
      BeatOf(beats, a) >= BeatOf(beats, b)
  }

  /** The outcome: the total fits or only local accounts stay queued, no more is dropped than needed, local queues are
      untouched, lowest nonces stay, and accounts heard of last go first. */
  ghost predicate QueueCut(before: Lists, after: Lists, locals: set<Address>, beats: map<Address, int>,
                           globalQueue: nat)
  {
    && (Total(after) <= globalQueue || forall a :: a in after ==> a in locals)
    && (after == before || Total(after) >= globalQueue)
    && Prefixes(before, after) && LocalsKept(before, after, locals) && LatestFirst(before, after, locals, beats)
  }

  ghost predicate ByBeat(addresses: seq<Address>, beats: map<Address, int>) {
    && DistinctAddresses(addresses)
    && forall i, j :: 0 <= i < j < |addresses| ==> BeatOf(beats, addresses[i]) <= BeatOf(beats, addresses[j])
  }

  /** sort.Sort of the accounts by heartbeat. */
  method SortByHeartbeat(accounts: set<Address>, beats: map<Address, int>) returns (s: seq<Address>)
    ensures ByBeat(s, beats) && forall a :: a in s <==> a in accounts
  {
    s := [];
    var todo := accounts;
    while todo != {}
      invariant ByBeat(s, beats)
      invariant forall a :: a in accounts <==> a in s || a in todo
      invariant forall a, b :: a in s && b in todo ==> a != b && BeatOf(beats, a) <= BeatOf(beats, b)
      decreases todo
    {
      EarliestExists(todo, beats);
      var x :| x in todo && forall b :: b in todo ==> BeatOf(beats, x) <= BeatOf(beats, b);
      assert forall i :: 0 <= i < |s| ==> s[i] in s;
      s := s + [x];
      todo := todo - {x};
    }
  }

  lemma {:induction false} EarliestExists(s: set<Address>, beats: map<Address, int>)
    requires s != {}
    ensures exists x :: x in s && forall b :: b in s ==> BeatOf(beats, x) <= BeatOf(beats, b)
    decreases s
  {
    var x :| x in s;
    var rest := s - {x};
    if rest == {} {
      assert s == {x};
    } else {
      EarliestExists(rest, beats);
      var y :| y in rest && forall b :: b in rest ==> BeatOf(beats, y) <= BeatOf(beats, b);
      var o := if BeatOf(beats, x) <= BeatOf(beats, y) then x else y;
      assert forall b :: b in s ==> b == x || b in rest;
      assert o in s && forall b :: b in s ==> BeatOf(beats, o) <= BeatOf(beats, b);
    }
  }

  // One account's queue

  lemma QueueStarts(pending: Lists, queue: Lists, all: set<Tx>, addr: Address)
    requires Inv(pending, queue, all, {}) && addr in queue
    ensures queue == SetList(queue, addr, queue[addr]) && OwnedBy(queue[addr], addr) && Keyed(queue[addr])
  {
    assert queue[addr] != map[];
    assert queue[addr := queue[addr]] == queue;
  }

  lemma SortedFirst(s: seq<Tx>, m: Items)
    requires Sorted(s, m) && s != []
    ensures s[0].nonce in m && m[s[0].nonce] == s[0] && Sorted(s[1..], m - {s[0].nonce})
  {
    SortedMaps.SortedFacts(s, m);
    SortedMaps.PartSorted(s, m, s[1..], m - {s[0].nonce}, 1);
  }

  /** A transaction that is queued sits in the lookup and in no pending slot. */
  lemma QueuedHere(pending: Lists, queue: Lists, all: set<Tx>, before: Lists, addr: Address, left: Items, tx: Tx)
    requires Inv(pending, queue, all, {}) && queue == SetList(before, addr, left) && OwnedBy(left, addr)
    requires tx.nonce in left && left[tx.nonce] == tx
    ensures tx in all && !Taken(pending, tx) && tx.from == addr
    ensures SetList(queue, addr, ListOf(queue, addr) - {tx.nonce}) == SetList(before, addr, left - {tx.nonce})
    ensures OwnedBy(left - {tx.nonce}, addr)
  {
    ListOfSet(before, addr, left, addr);
    SetTwice(before, addr, left, left - {tx.nonce});
    assert Holds(queue, tx);
    assert Taken(queue, tx);
  }

  lemma LowestLeaves(pending: Lists, queue: Lists, all: set<Tx>, before: Lists, addr: Address, txs: seq<Tx>, i: nat,
                     left: Items)
    requires i < |txs| && Sorted(txs[i..], left)
    requires Inv(pending, queue, all, {}) && queue == SetList(before, addr, left) && OwnedBy(left, addr)
    ensures var tx := txs[i];
      && tx in all && !Taken(pending, tx) && tx.from == addr
      && SetList(queue, addr, ListOf(queue, addr) - {tx.nonce}) == SetList(before, addr, left - {tx.nonce})
      && OwnedBy(left - {tx.nonce}, addr) && Sorted(txs[i + 1..], left - {tx.nonce}) && all - {tx} <= all
  {
    hide *;
    SortedFirst(txs[i..], left);
    assert txs[i..][1..] == txs[i + 1..];
    QueuedHere(pending, queue, all, before, addr, left, txs[i]);
  }

  lemma NoneListed(before: Lists, addr: Address, txs: seq<Tx>, left: Items)
    requires Sorted(txs[|txs|..], left)
    ensures SetList(before, addr, left) == before - {addr}
  {
    SortedSize(txs[|txs|..], left);
    assert left == map[];
  }

  lemma CapStarts(txs: seq<Tx>, list: Items)
    requires Sorted(txs, list)
    ensures txs[..|txs|] == txs && list == CapTo(list, |txs|) && |txs| == |list|
  {
    SortedSize(txs, list);
  }

  lemma HighestLeaves(pending: Lists, queue: Lists, all: set<Tx>, before: Lists, addr: Address, txs: seq<Tx>, i: nat,
                      left: Items)
    requires 0 < i <= |txs| && Sorted(txs[..i], left) && addr in before && left == CapTo(before[addr], i)
    requires Inv(pending, queue, all, {}) && queue == SetList(before, addr, left) && OwnedBy(left, addr)
    ensures var tx := txs[i - 1];
      && tx in all && !Taken(pending, tx) && tx.from == addr
      && SetList(queue, addr, ListOf(queue, addr) - {tx.nonce}) == SetList(before, addr, left - {tx.nonce})
      && OwnedBy(left - {tx.nonce}, addr) && Sorted(txs[..i - 1], left - {tx.nonce})
      && left - {tx.nonce} == CapTo(before[addr], i - 1) && all - {tx} <= all
  {
    hide *;
    SortedLast(txs[..i], left);
    SortedSize(txs[..i], left);
    assert txs[..i][..i - 1] == txs[..i - 1];
    QueuedHere(pending, queue, all, before, addr, left, txs[i - 1]);
    CapLess(left, txs[i - 1].nonce);
    CapToTwice(before[addr], i, i - 1);
  }

  lemma CapLess(list: Items, n: nat)
    requires n in list && forall k :: k in list ==> k <= n
    ensures |list| > 0 && CapTo(list, |list| - 1) == list - {n}
  {
    assert list.Keys != {};
    assert Highest(list) == n;
    RemoveShrinks(list);
  }

  lemma SomeListed(before: Lists, addr: Address, txs: seq<Tx>, i: nat, left: Items)
    requires 0 < i <= |txs| && Sorted(txs[..i], left)
    ensures SetList(before, addr, left) == before[addr := left]
  {
    SortedSize(txs[..i], left);
  }

  // The loop over the accounts

  /** The accounts still listed are whole, and every other remote account is gone while there is more to drop. */
  ghost predicate Whole(before: Lists, now: Lists, locals: set<Address>, listed: set<Address>, drop: nat) {
    && (forall a :: a in listed ==> a in before && a in now && now[a] == before[a] && a !in locals)
    && (drop > 0 ==> forall a :: a in now && a !in locals ==> a in listed)
  }

  ghost predicate LostLater(before: Lists, now: Lists, beats: map<Address, int>, listed: set<Address>) {
    forall a, b :: Lost(before, now, a) && b in listed ==> BeatOf(beats, a) >= BeatOf(beats, b)
  }

  ghost predicate Cutting(before: Lists, now: Lists, locals: set<Address>, beats: map<Address, int>, globalQueue: nat,
                          addresses: seq<Address>, drop: nat)
  {
    && Total(now) == globalQueue + drop && ByBeat(addresses, beats)
    && Whole(before, now, locals, AddressesOf(addresses), drop) && LostLater(before, now, beats, AddressesOf(addresses))
    && Prefixes(before, now) && LocalsKept(before, now, locals) && LatestFirst(before, now, locals, beats)
  }

  lemma QueueFits(queue: Lists, locals: set<Address>, beats: map<Address, int>, globalQueue: nat)
    requires Total(queue) <= globalQueue
    ensures QueueCut(queue, queue, locals, beats, globalQueue)
  {
  }

  lemma CuttingStarts(queue: Lists, locals: set<Address>, beats: map<Address, int>, globalQueue: nat,
                      addresses: seq<Address>, drop: nat)
    requires Total(queue) == globalQueue + drop && ByBeat(addresses, beats)
    requires forall a :: a in addresses <==> a in set b | b in queue && b !in locals
    ensures Cutting(queue, queue, locals, beats, globalQueue, addresses, drop)
  {
  }

  /** One account of the queue is removed, or cut to its lowest nonces with nothing left to drop. */
  ghost predicate OneCut(now: Lists, after: Lists, addr: Address, drop': nat) {
    && addr in now
    && (forall a :: a != addr ==> (a in after <==> a in now) && (a in now ==> after[a] == now[a]))
    && (addr in after ==> drop' == 0 && |after[addr]| <= |now[addr]| && after[addr] == CapTo(now[addr], |after[addr]|))
  }

  lemma CutFully(now: Lists, addr: Address, drop: nat)
    requires addr in now && |now[addr]| <= drop
    ensures OneCut(now, now - {addr}, addr, drop - |now[addr]|) && Total(now - {addr}) == Total(now) - |now[addr]|
  {
    TotalSplit(now, addr);
  }

  lemma CutInPart(now: Lists, addr: Address, drop: nat)
    requires addr in now && |now[addr]| > drop
    ensures var after := now[addr := CapTo(now[addr], |now[addr]| - drop)];
      OneCut(now, after, addr, 0) && Total(after) == Total(now) - drop
  {
    hide Total;
    TotalSet(now, addr, CapTo(now[addr], |now[addr]| - drop));
    CapToIsLowest(now[addr], |now[addr]| - drop);
  }

  lemma CuttingStep(before: Lists, now: Lists, locals: set<Address>, beats: map<Address, int>, globalQueue: nat,
                    addresses: seq<Address>, drop: nat)
    requires Cutting(before, now, locals, beats, globalQueue, addresses, drop) && drop > 0 && addresses != []
    ensures var addr := addresses[|addresses| - 1]; var rest := addresses[..|addresses| - 1];
      && addr in now
      && (|now[addr]| <= drop ==> Cutting(before, now - {addr}, locals, beats, globalQueue, rest, drop - |now[addr]|))
      && (|now[addr]| > drop ==>
            Cutting(before, now[addr := CapTo(now[addr], |now[addr]| - drop)], locals, beats, globalQueue, rest, 0))
  {
    hide *;
    var addr := addresses[|addresses| - 1];
    LastListed(before, now, locals, beats, globalQueue, addresses, drop);
    if |now[addr]| <= drop {
      CutFully(now, addr, drop);
      AccountGoes(before, now, locals, beats, globalQueue, addresses, drop, now - {addr}, drop - |now[addr]|);
    } else {
      CutInPart(now, addr, drop);
      AccountGoes(before, now, locals, beats, globalQueue, addresses, drop,
                  now[addr := CapTo(now[addr], |now[addr]| - drop)], 0);
    }
  }

  lemma LastListed(before: Lists, now: Lists, locals: set<Address>, beats: map<Address, int>, globalQueue: nat,
                   addresses: seq<Address>, drop: nat)
    requires Cutting(before, now, locals, beats, globalQueue, addresses, drop) && addresses != []
    ensures addresses[|addresses| - 1] in now && Total(now) == globalQueue + drop
  {
    hide Total, Prefixes, LatestFirst, LocalsKept, LostLater;
    assert addresses[|addresses| - 1] in AddressesOf(addresses);
  }

  lemma Unlisted(addresses: seq<Address>, beats: map<Address, int>)
    requires ByBeat(addresses, beats) && addresses != []
    ensures var addr := addresses[|addresses| - 1]; var rest := addresses[..|addresses| - 1];
      && ByBeat(rest, beats) && addr in AddressesOf(addresses) && AddressesOf(rest) == AddressesOf(addresses) - {addr}
      && forall b :: b in AddressesOf(rest) ==> BeatOf(beats, b) <= BeatOf(beats, addr)
  {
    var addr, rest := addresses[|addresses| - 1], addresses[..|addresses| - 1];
    assert addresses == rest + [addr];
    forall b | b in rest
      ensures b != addr && BeatOf(beats, b) <= BeatOf(beats, addr)
    {
      var i :| 0 <= i < |rest| && rest[i] == b;
      assert addresses[i] == b;
    }
  }

  lemma AccountGoes(before: Lists, now: Lists, locals: set<Address>, beats: map<Address, int>, globalQueue: nat,
                    addresses: seq<Address>, drop: nat, after: Lists, drop': nat)
    requires Cutting(before, now, locals, beats, globalQueue, addresses, drop) && drop > 0 && addresses != []
    requires OneCut(now, after, addresses[|addresses| - 1], drop') && Total(after) == globalQueue + drop'
    ensures Cutting(before, after, locals, beats, globalQueue, addresses[..|addresses| - 1], drop')
  {
    hide Total, AddressesOf, OneCut, Whole, LostLater, Prefixes, LocalsKept, LatestFirst, ByBeat;
    var addr := addresses[|addresses| - 1];
    var listed := AddressesOf(addresses);
    Unlisted(addresses, beats);
    WholeAfter(before, now, after, locals, listed, drop, addr, drop');
    LostAfter(before, now, after, locals, beats, listed, drop, addr, drop');
    KeptAfter(before, now, after, locals, listed, drop, addr, drop');
  }

  lemma WholeAfter(before: Lists, now: Lists, after: Lists, locals: set<Address>, listed: set<Address>, drop: nat,
                   addr: Address, drop': nat)
    requires Whole(before, now, locals, listed, drop) && drop > 0 && addr in listed && OneCut(now, after, addr, drop')
    ensures Whole(before, after, locals, listed - {addr}, drop')
  {
    hide CapTo;
  }

  lemma LostAfter(before: Lists, now: Lists, after: Lists, locals: set<Address>, beats: map<Address, int>,
                  listed: set<Address>, drop: nat, addr: Address, drop': nat)
    requires Whole(before, now, locals, listed, drop) && drop > 0 && addr in listed && OneCut(now, after, addr, drop')
    requires LostLater(before, now, beats, listed) && LatestFirst(before, now, locals, beats)
    requires forall b :: b in listed - {addr} ==> BeatOf(beats, b) <= BeatOf(beats, addr)
    ensures LostLater(before, after, beats, listed - {addr}) && LatestFirst(before, after, locals, beats)
  {
    hide CapTo, BeatOf;
    forall a
      ensures a != addr ==> (Lost(before, after, a) <==> Lost(before, now, a))
    {
    }
    hide Lost;
    assert forall b :: b in after && b !in locals && b != addr ==> b in listed - {addr};
  }

  lemma KeptAfter(before: Lists, now: Lists, after: Lists, locals: set<Address>, listed: set<Address>, drop: nat,
                  addr: Address, drop': nat)
    requires Whole(before, now, locals, listed, drop) && drop > 0 && addr in listed && OneCut(now, after, addr, drop')
    requires Prefixes(before, now) && LocalsKept(before, now, locals)
    ensures Prefixes(before, after) && LocalsKept(before, after, locals)
  {
    hide CapTo;
  }

  lemma CuttingEnds(before: Lists, now: Lists, locals: set<Address>, beats: map<Address, int>, globalQueue: nat,
                    addresses: seq<Address>, drop: nat)
    requires Cutting(before, now, locals, beats, globalQueue, addresses, drop) && (drop == 0 || addresses == [])
    ensures QueueCut(before, now, locals, beats, globalQueue)
  {
    hide Total, Prefixes, LatestFirst, LocalsKept, LostLater;
  }
}
