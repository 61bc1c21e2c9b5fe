/** core/blockchain.go: switching the canonical chain to another head, with the transaction lookup index. */
module Reorg {
  import opened Ancestry
  import opened Numbers

  type TxHash = nat

  /** A transaction's place: its block's hash and number, and its index in the block. */
  datatype Entry = Entry(block: Hash, number: nat, index: nat)

  type Bodies = map<Hash, seq<TxHash>>
  type Lookups = map<TxHash, Entry>

  /** Transaction t is the j-th of the block at number i of a chain. */
  ghost predicate At(bodies: Bodies, path: seq<Hash>, t: TxHash, i: nat, j: nat) {
    i < |path| && path[i] in bodies && j < |bodies[path[i]]| && bodies[path[i]][j] == t
  }

  /** The index holds exactly the transactions of a chain, each with its place. */
  ghost predicate IndexExact(lookups: Lookups, bodies: Bodies, path: seq<Hash>) {
    && (forall t, i: nat, j: nat :: At(bodies, path, t, i, j) ==> t in lookups && lookups[t] == Entry(path[i], i, j))
    && (forall t :: t in lookups ==> Included(bodies, path, t))
  }

  ghost predicate Included(bodies: Bodies, path: seq<Hash>, t: TxHash) {
    exists i: nat, j: nat :: At(bodies, path, t, i, j)
  }

  /** A chain includes no transaction twice, since each uses up a nonce of its sender. */
  ghost predicate Unrepeated(bodies: Bodies, path: seq<Hash>) {
    forall t, i: nat, j: nat, k: nat, l: nat :: At(bodies, path, t, i, j) && At(bodies, path, t, k, l) ==>
      i == k && j == l
  }

  /** A transaction of the blocks above number k, up to number m. */
  ghost predicate Between(bodies: Bodies, path: seq<Hash>, k: int, m: int, t: TxHash) {
    exists i: nat, j: nat :: k < i <= m && At(bodies, path, t, i, j)
  }

  /** types.TxDifference: the first list without what is in the second, in order. */
  method TxDifference(a: seq<TxHash>, b: seq<TxHash>) returns (keep: seq<TxHash>)
    ensures forall t :: t in keep <==> t in a && t !in b
    ensures keep == Without(a, SetOf(b))
  {
    keep := [];
    var remove: set<TxHash> := {};
    for i := 0 to |b|
      invariant remove == SetOf(b[..i])
    {
      assert b[..i + 1] == b[..i] + [b[i]];
      remove := remove + {b[i]};
    }
    assert b[..|b|] == b;
    for i := 0 to |a|
      invariant keep == Without(a[..i], remove)
    {
      assert a[..i + 1][..i] == a[..i];
      if a[i] !in remove {
        keep := keep + [a[i]];
      }
    }
    assert a[..|a|] == a;
    forall t ensures t in keep <==> t in a && t !in b {
      WithoutMembers(a, remove, t);
    }
  }

  ghost function SetOf(s: seq<TxHash>): set<TxHash> {
    set t | t in s
  }

  ghost function Without(a: seq<TxHash>, remove: set<TxHash>): seq<TxHash>
    decreases |a|
  {
    if a == [] then []
    else Without(a[..|a| - 1], remove) + if a[|a| - 1] in remove then [] else [a[|a| - 1]]
  }

  lemma {:induction false} WithoutMembers(a: seq<TxHash>, remove: set<TxHash>, t: TxHash)
    ensures t in Without(a, remove) <==> t in a && t !in remove
    decreases |a|
  {
    if a != [] {
      WithoutMembers(a[..|a| - 1], remove, t);
      assert a == a[..|a| - 1] + [a[|a| - 1]];
    }
  }

  /** rawdb.WriteTxLookupEntries */
  method WriteTxLookupEntries(lookups: Lookups, txs: seq<TxHash>, block: Hash, number: nat) returns (r: Lookups)
    ensures forall t :: t !in txs ==> (t in r <==> t in lookups) && (t in lookups ==> r[t] == lookups[t])
    ensures forall t :: t in txs ==>
      t in r && r[t].block == block && r[t].number == number && r[t].index < |txs| && txs[r[t].index] == t
  {
    r := lookups;
    for i := 0 to |txs|
      invariant forall t :: t !in txs[..i] ==> (t in r <==> t in lookups) && (t in lookups ==> r[t] == lookups[t])
      invariant forall t :: t in txs[..i] ==>
        t in r && r[t].block == block && r[t].number == number && r[t].index < i && txs[r[t].index] == t
    {
      assert txs[..i + 1] == txs[..i] + [txs[i]];
      r := r[txs[i] := Entry(block, number, i)];
    }
    assert txs[..|txs|] == txs;
  }

  class BlockChain {
    const genesis: Hash
    var headers: Headers
    var bodies: Bodies
    var canonical: map<nat, Hash>
    var lookups: Lookups
    var currentBlock: Hash
    var currentHeader: Hash
    var currentFastBlock: Hash

    constructor (g: Header, txs: seq<TxHash>)
      requires g.number == 0 && g.hash != NO_HASH
      ensures Closed(headers, genesis) && currentBlock == g.hash && headers == map[g.hash := g]
      ensures bodies == map[g.hash := txs]
      ensures canonical == AncestorMap(headers, genesis, currentBlock)
    {
      genesis, headers, bodies := g.hash, map[g.hash := g], map[g.hash := txs];
      canonical, lookups := map[0 := g.hash], map[];
      currentBlock, currentHeader, currentFastBlock := g.hash, g.hash, g.hash;
      new;
      assert Linked(headers, genesis, g.hash);
      assert Path(headers, genesis, g.hash) == [g.hash];
    }

    /** Whether GetBlock finds a block: its header under the number, and its body. */
    predicate HasBlock(hash: Hash, number: int)
      reads this`headers, this`bodies
    {
      GetHeader(headers, hash, number).Some? && hash in bodies
    }

    /** insert */
    method Insert(block: Hash)
      requires block in headers
      modifies this`canonical, this`currentBlock, this`currentHeader, this`currentFastBlock
      ensures canonical == old(canonical)[headers[block].number := block] && currentBlock == block
      ensures if ReadCanonical(old(canonical), headers[block].number) != block
        then currentHeader == block && currentFastBlock == block
        else currentHeader == old(currentHeader) && currentFastBlock == old(currentFastBlock)
    {
      var updateHeads := ReadCanonical(canonical, headers[block].number) != block;
      canonical := canonical[headers[block].number := block];
      currentBlock := block;
      if updateHeads {
        currentHeader := block;
        currentFastBlock := block;
      }
    }

    /** Walks down from a block to a number, collecting the blocks passed and their transactions. */
    method Reduce(start: Hash, number: nat) returns (ok: bool, block: Hash, chain: seq<Hash>, txs: seq<TxHash>)
      requires Closed(headers, genesis) && start in headers && start in bodies && number <= headers[start].number
      ensures ok ==> block in bodies && Collected(bodies, Path(headers, genesis, start), number, chain, txs, block)
      ensures ok <==> Whole(bodies, Path(headers, genesis, start), number, headers[start].number)
    {
      hide *;
      ghost var path := Path(headers, genesis, start);
      ok, block, chain, txs := true, start, [], [];
      CollectStarts(headers, genesis, bodies, start);
      var at: nat := headers[start].number;
      WholeStarts(bodies, path, at);
      while at != number
        invariant number <= at <= headers[start].number && block in bodies
        invariant Collected(bodies, path, at, chain, txs, block) && Whole(bodies, path, at, headers[start].number)
        decreases at
      {
        CollectStep(headers, genesis, bodies, start, at, chain, txs, block);
        chain := chain + [block];
        txs := txs + bodies[block];
        var parent := headers[block].parent;
        BlockMissing(parent, at - 1);
        CollectedSize(bodies, path, at - 1, chain, txs, parent);
        WholeStep(bodies, path, number, at, headers[start].number);
        if !HasBlock(parent, at - 1) {
          return false, parent, chain, txs;
        }
        block, at := parent, at - 1;
      }
    }

    /** Walks down two chains of equal height until they meet, collecting the blocks of both. */
    method FindCommon(oldHead: Hash, newHead: Hash, number: nat, oldBlock: Hash, newBlock: Hash,
                      oldChain0: seq<Hash>, newChain0: seq<Hash>, deleted0: seq<TxHash>, ghost passed0: seq<TxHash>)
      returns (ok: bool, ghost at: nat, common: Hash, oldChain: seq<Hash>, newChain: seq<Hash>, deleted: seq<TxHash>,
               ghost passed: seq<TxHash>)
      requires Closed(headers, genesis) && oldHead in headers && newHead in headers && oldBlock in bodies
      requires newBlock in bodies
      requires Collected(bodies, Path(headers, genesis, oldHead), number, oldChain0, deleted0, oldBlock)
      requires Collected(bodies, Path(headers, genesis, newHead), number, newChain0, passed0, newBlock)
      ensures ok ==>
        common in bodies && Collected(bodies, Path(headers, genesis, oldHead), at, oldChain, deleted, common)
      ensures ok ==> Collected(bodies, Path(headers, genesis, newHead), at, newChain, passed, common)
      ensures ok ==> Differ(Path(headers, genesis, oldHead), Path(headers, genesis, newHead), at, number)
      ensures var p, q := Path(headers, genesis, oldHead), Path(headers, genesis, newHead);
        number < |p| && number < |q| && p[0] == q[0] &&
        var c := Fork(p, q, number);
        (ok <==> Whole(bodies, p, c, number) && Whole(bodies, q, c, number)) && (ok ==> at == c)
    {
      hide *;
      ghost var p, q := Path(headers, genesis, oldHead), Path(headers, genesis, newHead);
      var x, y, n: nat := oldBlock, newBlock, number;
      oldChain, newChain, deleted, passed := oldChain0, newChain0, deleted0, passed0;
      CollectedSize(bodies, p, n, oldChain, deleted, x);
      CollectedSize(bodies, q, n, newChain, passed, y);
      DifferNone(p, q, number);
      WholeStarts(bodies, p, number);
      WholeStarts(bodies, q, number);
      PathStartsAtGenesis(headers, genesis, oldHead);
      PathStartsAtGenesis(headers, genesis, newHead);
      while x != y
        invariant x in bodies && y in bodies && Collected(bodies, p, n, oldChain, deleted, x)
        invariant Collected(bodies, q, n, newChain, passed, y)
        invariant Differ(p, q, n, number)
        invariant n <= number < |p| && number < |q| && x == p[n] && y == q[n]
        invariant Whole(bodies, p, n, number) && Whole(bodies, q, n, number) && Fork(p, q, n) == Fork(p, q, number)
        decreases n
      {
        GenesisIsCommon(headers, genesis, bodies, oldHead, newHead, n, oldChain, newChain, deleted, passed, x, y);
        CollectStep(headers, genesis, bodies, oldHead, n, oldChain, deleted, x);
        CollectStep(headers, genesis, bodies, newHead, n, newChain, passed, y);
        CollectedSize(bodies, p, n, oldChain, deleted, x);
        CollectedSize(bodies, q, n, newChain, passed, y);
        DifferMore(p, q, n, number);
        oldChain := oldChain + [x];
        newChain := newChain + [y];
        deleted := deleted + bodies[x];
        passed := passed + bodies[y];
        x, y := headers[x].parent, headers[y].parent;
        BlockMissing(x, n - 1);
        BlockMissing(y, n - 1);
        CollectedSize(bodies, p, n - 1, oldChain, deleted, x);
        CollectedSize(bodies, q, n - 1, newChain, passed, y);
        ForkBelow(p, q, n);
        WholeStep(bodies, p, Fork(p, q, n), n, number);
        WholeStep(bodies, q, Fork(p, q, n), n, number);
        if !HasBlock(x, n - 1) || !HasBlock(y, n - 1) {
          return false, n, x, oldChain, newChain, deleted, passed;
        }
        n := n - 1;
      }
      ForkHere(p, q, n);
      return true, n, x, oldChain, newChain, deleted, passed;
    }

    /** Takes the canonical entries of the old chain's blocks out. */
    method DeleteOld(ghost oldHead: Hash, oldChain: seq<Hash>, ghost at: nat, ghost txs: seq<TxHash>,
                     ghost common: Hash)
      requires Closed(headers, genesis) && oldHead in headers && canonical == AncestorMap(headers, genesis, oldHead)
      requires Collected(bodies, Path(headers, genesis, oldHead), at, oldChain, txs, common)
      modifies this`canonical
      ensures canonical == Upto(Path(headers, genesis, oldHead), at)
    {
      hide *;
      ghost var p := Path(headers, genesis, oldHead);
      UptoWhole(headers, genesis, oldHead);
      CollectedSize(bodies, p, at, oldChain, txs, common);
      var i := 0;
      while i < |oldChain|
        invariant 0 <= i <= |oldChain| && canonical == Upto(p, |p| - 1 - i)
      {
        CollectedAt(headers, genesis, bodies, oldHead, at, oldChain, txs, common, i);
        UptoLess(p, |p| - 1 - i);
        canonical := canonical - {headers[oldChain[i]].number};
        i := i + 1;
      }
    }

    /** Inserts the new chain's blocks, lowest first, with their lookup entries. */
    method InsertNew(ghost newHead: Hash, newChain: seq<Hash>, ghost at: nat, ghost txs: seq<TxHash>,
                     ghost common: Hash)
      returns (added: seq<TxHash>)
      requires Closed(headers, genesis) && newHead in headers && currentBlock == common
      requires Collected(bodies, Path(headers, genesis, newHead), at, newChain, txs, common)
      requires canonical == Upto(Path(headers, genesis, newHead), at)
      modifies this`canonical, this`currentBlock, this`currentHeader, this`currentFastBlock, this`lookups
      ensures canonical == AncestorMap(headers, genesis, newHead) && currentBlock == newHead
      ensures if newChain == [] then currentHeader == old(currentHeader) && currentFastBlock == old(currentFastBlock)
        else currentHeader == newHead && currentFastBlock == newHead
      ensures Written(old(lookups), lookups, bodies, Path(headers, genesis, newHead), at, headers[newHead].number)
      ensures forall t :: t in added <==>
        Between(bodies, Path(headers, genesis, newHead), at, headers[newHead].number, t)
    {
      hide *;
      ghost var q := Path(headers, genesis, newHead);
      UptoWhole(headers, genesis, newHead);
      CollectedSize(bodies, q, at, newChain, txs, common);
      WrittenNone(lookups, bodies, q, at);
      added := [];
      var i := |newChain|;
      while i > 0
        invariant 0 <= i <= |newChain| && canonical == Upto(q, |q| - 1 - i) && currentBlock == q[|q| - 1 - i]
        invariant
          if i == |newChain| then currentHeader == old(currentHeader) && currentFastBlock == old(currentFastBlock)
          else currentHeader == currentBlock && currentFastBlock == currentBlock
        invariant Written(old(lookups), lookups, bodies, q, at, |q| - 1 - i)
        invariant forall t :: t in added <==> Between(bodies, q, at, |q| - 1 - i, t)
        decreases i
      {
        i := i - 1;
        var block := newChain[i];
        CollectedAt(headers, genesis, bodies, newHead, at, newChain, txs, common, i);
        UptoMore(q, |q| - 1 - i);
        ghost var before := lookups;
        Insert(block);
        lookups := WriteTxLookupEntries(lookups, bodies[block], block, headers[block].number);
        WrittenStep(old(lookups), before, lookups, bodies, q, at, |q| - 1 - i);
        BetweenStep(bodies, q, at, |q| - 1 - i);
        added := added + bodies[block];
      }
    }

    method DeleteLookups(diff: seq<TxHash>)
      modifies this`lookups
      ensures lookups == old(lookups) - SetOf(diff)
    {
      for i := 0 to |diff|
        invariant lookups == old(lookups) - SetOf(diff[..i])
      {
        assert SetOf(diff[..i + 1]) == SetOf(diff[..i]) + {diff[i]};
        lookups := lookups - {diff[i]};
      }
      assert diff[..|diff|] == diff;
    }

    /** reorg: afterwards the canonical map is the new head's and the index holds the new chain's transactions;
        a failed reorg changes nothing, and fails just if a body is missing on one of the two chains, from
        their highest common block on. */
    method Reorganize(oldHead: Hash, newHead: Hash) returns (ok: bool)
      requires Closed(headers, genesis) && oldHead in headers && oldHead in bodies && newHead in headers
      requires newHead in bodies
      requires canonical == AncestorMap(headers, genesis, oldHead)
      modifies this`canonical, this`currentBlock, this`currentHeader, this`currentFastBlock, this`lookups
      ensures ok ==> canonical == AncestorMap(headers, genesis, newHead) && currentBlock == newHead
      ensures ok && old(IndexExact(lookups, bodies, Path(headers, genesis, oldHead))) ==>
        (IndexExact(lookups, bodies, Path(headers, genesis, newHead)) <==>
          Unrepeated(bodies, Path(headers, genesis, newHead)))
      ensures ok ==> if newHead in Path(headers, genesis, oldHead)
        then currentHeader == old(currentHeader) && currentFastBlock == old(currentFastBlock)
        else currentHeader == newHead && currentFastBlock == newHead
      ensures !ok ==> unchanged(this)
      ensures ok <==> BothWhole(old(headers), genesis, old(bodies), oldHead, newHead)
    {
      hide *;
      ghost var p, q := Path(headers, genesis, oldHead), Path(headers, genesis, newHead);
      var oldBlock, newBlock := oldHead, newHead;
      var oldChain, newChain: seq<Hash>, deleted, passed: seq<TxHash> := [], [], [], [];
      CollectStarts(headers, genesis, bodies, oldHead);
      CollectStarts(headers, genesis, bodies, newHead);
      BothWholeIs(headers, genesis, bodies, oldHead, newHead);
      var low: nat;
      if headers[oldHead].number > headers[newHead].number {
        low := headers[newHead].number;
        ok, oldBlock, oldChain, deleted := Reduce(oldHead, low);
      } else {
        low := headers[oldHead].number;
        ok, newBlock, newChain, passed := Reduce(newHead, low);
      }
      if !ok {
        return false;
      }
      ghost var at: nat, seen: seq<TxHash>;
      var common;
      ok, at, common, oldChain, newChain, deleted, seen :=
        FindCommon(oldHead, newHead, low, oldBlock, newBlock, oldChain, newChain, deleted, passed);
      if !ok {
        return false;
      }
      Meeting(headers, genesis, bodies, oldHead, newHead, low, at, common, oldChain, newChain, deleted, seen);
      DeleteOld(oldHead, oldChain, at, deleted, common);
      Insert(common);
      ghost var lookups0 := lookups;
      var added := InsertNew(newHead, newChain, at, seen, common);
      var diff := TxDifference(deleted, added);
      ghost var lookups1 := lookups;
      DeleteLookups(diff);
      CollectedTxs(bodies, p, at, oldChain, deleted, common);
      Reindexed(bodies, p, q, at, lookups0, lookups1, lookups, deleted, added, diff);
    }

    lemma BlockMissing(hash: Hash, number: int)
      requires hash in headers && headers[hash].number == number
      ensures HasBlock(hash, number) <==> hash in bodies
    {
    }
  }

  // Missing bodies

  /** The blocks of a path from number k to number m have their bodies. */
  ghost predicate Whole(bodies: Bodies, path: seq<Hash>, k: nat, m: nat) {
    m < |path| && forall i :: k <= i <= m ==> path[i] in bodies
  }

  /** The number of the highest block, up to number n, that two chains share. */
  ghost function Fork(p: seq<Hash>, q: seq<Hash>, n: nat): (k: nat)
    requires n < |p| && n < |q| && p[0] == q[0]
    ensures k <= n && p[k] == q[k] && forall i :: k < i <= n ==> p[i] != q[i]
  {
    if p[n] == q[n] then n else Fork(p, q, n - 1)
  }

  /** The number of the highest block that is on the chains of both heads. */
  ghost function ForkOf(headers: Headers, genesis: Hash, a: Hash, b: Hash): (k: nat)
    requires Closed(headers, genesis) && a in headers && b in headers
    ensures k <= headers[a].number && k <= headers[b].number
  {
    PathStartsAtGenesis(headers, genesis, a);
    PathStartsAtGenesis(headers, genesis, b);
    Fork(Path(headers, genesis, a), Path(headers, genesis, b), Min(headers[a].number, headers[b].number))
  }

  /** Both chains have all their bodies from their highest common block on. */
  ghost predicate BothWhole(headers: Headers, genesis: Hash, bodies: Bodies, a: Hash, b: Hash)
    requires Closed(headers, genesis) && a in headers && b in headers
  {
    var c := ForkOf(headers, genesis, a, b);
    && Whole(bodies, Path(headers, genesis, a), c, headers[a].number)
    && Whole(bodies, Path(headers, genesis, b), c, headers[b].number)
  }

  lemma BothWholeIs(headers: Headers, genesis: Hash, bodies: Bodies, a: Hash, b: Hash)
    requires Closed(headers, genesis) && a in headers && b in headers && a in bodies && b in bodies
    ensures var p, q := Path(headers, genesis, a), Path(headers, genesis, b);
      var low := Min(headers[a].number, headers[b].number);
      && low == (if headers[a].number > headers[b].number then headers[b].number else headers[a].number)
      && low < |p| && low < |q| && p[0] == q[0]
      && Whole(bodies, p, headers[a].number, headers[a].number)
      && Whole(bodies, q, headers[b].number, headers[b].number)
      && (BothWhole(headers, genesis, bodies, a, b) <==>
            && Whole(bodies, p, low, headers[a].number) && Whole(bodies, q, low, headers[b].number)
            && Whole(bodies, p, Fork(p, q, low), low) && Whole(bodies, q, Fork(p, q, low), low))
  {
    PathStartsAtGenesis(headers, genesis, a);
    PathStartsAtGenesis(headers, genesis, b);
    hide Path, Closed, Fork;
  }

  lemma WholeStarts(bodies: Bodies, path: seq<Hash>, k: nat)
    requires k < |path| && path[k] in bodies
    ensures Whole(bodies, path, k, k)
  {
  }

  lemma WholeStep(bodies: Bodies, path: seq<Hash>, low: nat, k: nat, m: nat)
    requires low < k <= m < |path| && Whole(bodies, path, k, m)
    ensures Whole(bodies, path, k - 1, m) <==> path[k - 1] in bodies
    ensures path[k - 1] !in bodies ==> !Whole(bodies, path, low, m)
  {
  }

  lemma ForkBelow(p: seq<Hash>, q: seq<Hash>, n: nat)
    requires 0 < n < |p| && n < |q| && p[0] == q[0] && p[n] != q[n]
    ensures Fork(p, q, n) == Fork(p, q, n - 1) < n
  {
  }

  lemma ForkHere(p: seq<Hash>, q: seq<Hash>, n: nat)
    requires n < |p| && n < |q| && p[0] == q[0] && p[n] == q[n]
    ensures Fork(p, q, n) == n
  {
  }

  // Collecting blocks

  /** The blocks of a path above number k, highest first, and their transactions; the walk stands at number k. */
  ghost predicate Collected(bodies: Bodies, path: seq<Hash>, k: nat, chain: seq<Hash>, txs: seq<TxHash>, block: Hash) {
    && k < |path| && block == path[k] && |chain| == |path| - 1 - k
    && (forall j :: 0 <= j < |chain| ==> chain[j] in bodies && chain[j] == path[|path| - 1 - j])
    && (forall t :: t in txs <==> Between(bodies, path, k, |path| - 1, t))
  }

  lemma CollectStarts(headers: Headers, genesis: Hash, bodies: Bodies, head: Hash)
    requires Closed(headers, genesis) && head in headers
    ensures |Path(headers, genesis, head)| == headers[head].number + 1
    ensures Collected(bodies, Path(headers, genesis, head), headers[head].number, [], [], head)
  {
    hide Path, Closed;
  }

  lemma CollectStep(headers: Headers, genesis: Hash, bodies: Bodies, head: Hash, k: nat, chain: seq<Hash>,
                    txs: seq<TxHash>, block: Hash)
    requires Closed(headers, genesis) && head in headers && k > 0
    requires Collected(bodies, Path(headers, genesis, head), k, chain, txs, block) && block in bodies
    ensures block in headers && headers[block].parent in headers && headers[headers[block].parent].number == k - 1
    ensures Collected(bodies, Path(headers, genesis, head), k - 1, chain + [block], txs + bodies[block],
                      headers[block].parent)
  {
    PathAt(headers, genesis, head, k);
    PathAt(headers, genesis, head, k - 1);
    hide Path, Closed;
    CollectMore(bodies, Path(headers, genesis, head), k, chain, txs, block, headers[block].parent);
  }

  lemma CollectMore(bodies: Bodies, path: seq<Hash>, k: nat, chain: seq<Hash>, txs: seq<TxHash>, block: Hash,
                    next: Hash)
    requires k > 0 && Collected(bodies, path, k, chain, txs, block) && block in bodies && next == path[k - 1]
    ensures Collected(bodies, path, k - 1, chain + [block], txs + bodies[block], next)
  {
    var below := k - 1;
    forall t
      ensures t in txs + bodies[block] <==> Between(bodies, path, below, |path| - 1, t)
    {
      BelowStep(bodies, path, k, t);
    }
    hide Between;
  }

  lemma BelowStep(bodies: Bodies, path: seq<Hash>, k: nat, t: TxHash)
    requires k < |path| && path[k] in bodies
    ensures Between(bodies, path, k - 1, |path| - 1, t) <==>
      Between(bodies, path, k, |path| - 1, t) || t in bodies[path[k]]
  {
    if t in bodies[path[k]] {
      var j :| 0 <= j < |bodies[path[k]]| && bodies[path[k]][j] == t;
      assert At(bodies, path, t, k, j);
    }
    if Between(bodies, path, k, |path| - 1, t) {
      var i: nat, j: nat :| k < i <= |path| - 1 && At(bodies, path, t, i, j);
      assert k - 1 < i;
    }
  }

  lemma GenesisIsCommon(headers: Headers, genesis: Hash, bodies: Bodies, oldHead: Hash, newHead: Hash, n: nat,
                        oldChain: seq<Hash>, newChain: seq<Hash>, deleted: seq<TxHash>, passed: seq<TxHash>,
                        x: Hash, y: Hash)
    requires Closed(headers, genesis) && oldHead in headers && newHead in headers && x != y
    requires Collected(bodies, Path(headers, genesis, oldHead), n, oldChain, deleted, x)
    requires Collected(bodies, Path(headers, genesis, newHead), n, newChain, passed, y)
    ensures n > 0
  {
    PathStartsAtGenesis(headers, genesis, oldHead);
    PathStartsAtGenesis(headers, genesis, newHead);
  }

  lemma CollectedSize(bodies: Bodies, path: seq<Hash>, k: nat, chain: seq<Hash>, txs: seq<TxHash>, block: Hash)
    requires Collected(bodies, path, k, chain, txs, block)
    ensures |chain| == |path| - 1 - k && k < |path| && block == path[k]
  {
  }

  lemma CollectedTxs(bodies: Bodies, path: seq<Hash>, k: nat, chain: seq<Hash>, txs: seq<TxHash>, block: Hash)
    requires Collected(bodies, path, k, chain, txs, block)
    ensures forall t :: t in txs <==> Between(bodies, path, k, |path| - 1, t)
  {
    hide Between;
  }

  lemma CollectedAt(headers: Headers, genesis: Hash, bodies: Bodies, head: Hash, k: nat, chain: seq<Hash>,
                    txs: seq<TxHash>, block: Hash, i: nat)
    requires Closed(headers, genesis) && head in headers && i < |chain|
    requires Collected(bodies, Path(headers, genesis, head), k, chain, txs, block)
    ensures var p := Path(headers, genesis, head);
      && k < |p| - 1 - i && chain[i] == p[|p| - 1 - i] && chain[i] in bodies && chain[i] in headers
      && headers[chain[i]].number == |p| - 1 - i && chain[i] != NO_HASH
  {
    PathAt(headers, genesis, head, headers[head].number - i);
  }

  // The canonical map

  ghost function Upto(path: seq<Hash>, k: int): map<nat, Hash>
    requires k < |path|
  {
    map i: nat | 0 <= i <= k :: path[i]
  }

  lemma UptoWhole(headers: Headers, genesis: Hash, h: Hash)
    requires Closed(headers, genesis) && h in headers
    ensures var p := Path(headers, genesis, h);
      && |p| == headers[h].number + 1 && p[|p| - 1] == h && AncestorMap(headers, genesis, h) == Upto(p, |p| - 1)
  {
  }

  lemma UptoLess(path: seq<Hash>, k: nat)
    requires 0 < k < |path|
    ensures Upto(path, k) - {k} == Upto(path, k - 1)
  {
  }

  lemma UptoMore(path: seq<Hash>, k: nat)
    requires 0 < k < |path|
    ensures Upto(path, k - 1)[k := path[k]] == Upto(path, k) && ReadCanonical(Upto(path, k - 1), k) == NO_HASH
  {
  }

  /** Where the two chains meet they agree below, and the new chain is empty just if the
      new head is on the old chain. */
  lemma Meeting(headers: Headers, genesis: Hash, bodies: Bodies, oldHead: Hash, newHead: Hash, low: nat, at: nat,
                common: Hash, oldChain: seq<Hash>, newChain: seq<Hash>, deleted: seq<TxHash>, passed: seq<TxHash>)
    requires Closed(headers, genesis) && oldHead in headers && newHead in headers
    requires Collected(bodies, Path(headers, genesis, oldHead), at, oldChain, deleted, common)
    requires Collected(bodies, Path(headers, genesis, newHead), at, newChain, passed, common)
    requires Differ(Path(headers, genesis, oldHead), Path(headers, genesis, newHead), at, low)
    requires headers[oldHead].number == low || headers[newHead].number == low
    ensures var p, q := Path(headers, genesis, oldHead), Path(headers, genesis, newHead);
      && at < |p| && at < |q| && p[..at + 1] == q[..at + 1] && |p| == headers[oldHead].number + 1
      && |q| == headers[newHead].number + 1
      && common in headers && headers[common].number == at
      && Upto(p, at)[at := common] == Upto(q, at) && ReadCanonical(Upto(p, at), at) == common
      && (newChain == [] <==> newHead in p)
  {
    var p, q := Path(headers, genesis, oldHead), Path(headers, genesis, newHead);
    PathsMeet(headers, genesis, oldHead, newHead, at);
    PathAt(headers, genesis, oldHead, at);
    if newHead in p {
      HeadOnOldChain(headers, genesis, oldHead, newHead, low, at);
    }
    assert q[|q| - 1] == newHead;
    hide Path, Closed;
    UptoAgree(p, q, at);
    assert newChain == [] ==> p[at] == newHead;
  }

  /** The paths have different blocks at the numbers above at, up to low. */
  ghost predicate Differ(p: seq<Hash>, q: seq<Hash>, at: nat, low: nat) {
    at <= low < |p| && low < |q| && forall k :: at < k <= low ==> p[k] != q[k]
  }

  lemma DifferNone(p: seq<Hash>, q: seq<Hash>, low: nat)
    requires low < |p| && low < |q|
    ensures Differ(p, q, low, low)
  {
  }

  lemma DifferMore(p: seq<Hash>, q: seq<Hash>, n: nat, low: nat)
    requires Differ(p, q, n, low) && n > 0 && p[n] != q[n]
    ensures Differ(p, q, n - 1, low)
  {
  }

  lemma HeadOnOldChain(headers: Headers, genesis: Hash, oldHead: Hash, newHead: Hash, low: nat, at: nat)
    requires Closed(headers, genesis) && oldHead in headers && newHead in headers
    requires newHead in Path(headers, genesis, oldHead)
    requires Differ(Path(headers, genesis, oldHead), Path(headers, genesis, newHead), at, low)
    requires headers[oldHead].number == low || headers[newHead].number == low
    ensures at == headers[newHead].number
  {
    var p := Path(headers, genesis, oldHead);
    var i :| 0 <= i < |p| && p[i] == newHead;
    PathAt(headers, genesis, oldHead, i);
    hide Closed;
  }

  // The lookup index

  /** Of one transaction: it got the place of one of its blocks above c up to m, or kept what it had. */
  ghost predicate WrittenAt(l0: Lookups, l: Lookups, bodies: Bodies, path: seq<Hash>, c: int, m: int, t: TxHash) {
    if Between(bodies, path, c, m, t)
    then
      && t in l && c < l[t].number <= m && At(bodies, path, t, l[t].number, l[t].index)
      && l[t].block == path[l[t].number]
    else SameAt(l0, l, t)
  }

  ghost predicate SameAt(l0: Lookups, l: Lookups, t: TxHash) {
    (t in l <==> t in l0) && (t in l0 ==> l[t] == l0[t])
  }

  ghost predicate Written(l0: Lookups, l: Lookups, bodies: Bodies, path: seq<Hash>, c: int, m: int) {
    forall t :: WrittenAt(l0, l, bodies, path, c, m, t)
  }

  lemma WrittenNone(l: Lookups, bodies: Bodies, path: seq<Hash>, c: int)
    ensures Written(l, l, bodies, path, c, c)
    ensures forall t :: !Between(bodies, path, c, c, t)
  {
  }

  lemma BetweenStep(bodies: Bodies, path: seq<Hash>, c: int, m: nat)
    requires c < m < |path| && path[m] in bodies
    ensures forall t :: Between(bodies, path, c, m, t) <==> Between(bodies, path, c, m - 1, t) || t in bodies[path[m]]
  {
    forall t
      ensures Between(bodies, path, c, m, t) <==> Between(bodies, path, c, m - 1, t) || t in bodies[path[m]]
    {
      BetweenStepAt(bodies, path, c, m, t);
    }
  }

  lemma BetweenStepAt(bodies: Bodies, path: seq<Hash>, c: int, m: nat, t: TxHash)
    requires c < m < |path| && path[m] in bodies
    ensures Between(bodies, path, c, m, t) <==> Between(bodies, path, c, m - 1, t) || t in bodies[path[m]]
  {
    if t in bodies[path[m]] {
      var j :| 0 <= j < |bodies[path[m]]| && bodies[path[m]][j] == t;
      assert At(bodies, path, t, m, j);
    }
    if Between(bodies, path, c, m - 1, t) {
      var i: nat, j: nat :| c < i <= m - 1 && At(bodies, path, t, i, j);
      assert i <= m;
    }
  }

  lemma WrittenStep(l0: Lookups, l1: Lookups, l2: Lookups, bodies: Bodies, path: seq<Hash>, c: int, m: nat)
    requires c < m < |path| && path[m] in bodies && Written(l0, l1, bodies, path, c, m - 1)
    requires forall t :: t !in bodies[path[m]] ==> (t in l2 <==> t in l1) && (t in l1 ==> l2[t] == l1[t])
    requires var txs := bodies[path[m]];
      forall t :: t in txs ==>
        t in l2 && l2[t].block == path[m] && l2[t].number == m && l2[t].index < |txs| && txs[l2[t].index] == t
    ensures Written(l0, l2, bodies, path, c, m)
  {
    forall t
      ensures WrittenAt(l0, l2, bodies, path, c, m, t)
    {
      BetweenStepAt(bodies, path, c, m, t);
      assert WrittenAt(l0, l1, bodies, path, c, m - 1, t);
    }
  }

  /** One place per transaction is all an index can hold. */
  lemma ExactIsUnrepeated(l: Lookups, bodies: Bodies, path: seq<Hash>)
    requires IndexExact(l, bodies, path)
    ensures Unrepeated(bodies, path)
  {
    forall t, i: nat, j: nat, k: nat, m: nat | At(bodies, path, t, i, j) && At(bodies, path, t, k, m)
      ensures i == k && j == m
    {
      assert l[t] == Entry(path[i], i, j) && l[t] == Entry(path[k], k, m);
    }
  }

  /** Writing the places of the new blocks and deleting what only the old blocks had makes the index the new chain's. */
  lemma Reindexed(bodies: Bodies, p: seq<Hash>, q: seq<Hash>, c: nat, l0: Lookups, l1: Lookups, l2: Lookups,
                  deleted: seq<TxHash>, added: seq<TxHash>, diff: seq<TxHash>)
    requires c < |p| && c < |q| && p[..c + 1] == q[..c + 1]
    requires Written(l0, l1, bodies, q, c, |q| - 1) && l2 == l1 - SetOf(diff)
    requires forall t :: t in deleted <==> Between(bodies, p, c, |p| - 1, t)
    requires forall t :: t in added <==> Between(bodies, q, c, |q| - 1, t)
    requires forall t :: t in diff <==> t in deleted && t !in added
    ensures IndexExact(l0, bodies, p) ==> (IndexExact(l2, bodies, q) <==> Unrepeated(bodies, q))
  {
    if IndexExact(l2, bodies, q) {
      ExactIsUnrepeated(l2, bodies, q);
    }
    if IndexExact(l0, bodies, p) && Unrepeated(bodies, q) {
      forall t, i: nat, j: nat | At(bodies, q, t, i, j)
        ensures t in l2 && l2[t] == Entry(q[i], i, j)
      {
        PlaceKept(bodies, p, q, c, l0, l1, t, i, j);
      }
      forall t | t in l2
        ensures Included(bodies, q, t)
      {
        PlaceThere(bodies, p, q, c, l0, l1, t);
      }
    }
  }

  lemma BelowAgrees(bodies: Bodies, p: seq<Hash>, q: seq<Hash>, c: nat, t: TxHash, i: nat, j: nat)
    requires c < |p| && c < |q| && p[..c + 1] == q[..c + 1] && i <= c
    ensures At(bodies, p, t, i, j) <==> At(bodies, q, t, i, j)
    ensures p[i] == q[i]
  {
    assert p[..c + 1][i] == q[..c + 1][i];
  }

  /** A place on the new chain is in the index, and its transaction is not deleted. */
  lemma PlaceKept(bodies: Bodies, p: seq<Hash>, q: seq<Hash>, c: nat, l0: Lookups, l1: Lookups, t: TxHash, i: nat,
                  j: nat)
    requires c < |p| && c < |q| && p[..c + 1] == q[..c + 1] && WrittenAt(l0, l1, bodies, q, c, |q| - 1, t)
    requires IndexExact(l0, bodies, p) && Unrepeated(bodies, q) && At(bodies, q, t, i, j)
    ensures t in l1 && l1[t] == Entry(q[i], i, j)
    ensures Between(bodies, q, c, |q| - 1, t) || !Between(bodies, p, c, |p| - 1, t)
  {
    if i <= c {
      BelowAgrees(bodies, p, q, c, t, i, j);
      forall k: nat, l: nat | At(bodies, p, t, k, l)
        ensures k == i
      {
        assert l0[t] == Entry(p[k], k, l) && l0[t] == Entry(p[i], i, j);
      }
    }
  }

  /** A transaction in the index that is not deleted has a place on the new chain. */
  lemma PlaceThere(bodies: Bodies, p: seq<Hash>, q: seq<Hash>, c: nat, l0: Lookups, l1: Lookups, t: TxHash)
    requires c < |p| && c < |q| && p[..c + 1] == q[..c + 1] && WrittenAt(l0, l1, bodies, q, c, |q| - 1, t)
    requires IndexExact(l0, bodies, p) && t in l1
    requires Between(bodies, q, c, |q| - 1, t) || !Between(bodies, p, c, |p| - 1, t)
    ensures Included(bodies, q, t)
  {
    if !Between(bodies, q, c, |q| - 1, t) {
      assert Included(bodies, p, t);
      var i: nat, j: nat :| At(bodies, p, t, i, j);
      assert i <= c;
      BelowAgrees(bodies, p, q, c, t, i, j);
    }
  }

  lemma UptoAgree(p: seq<Hash>, q: seq<Hash>, k: nat)
    requires k < |p| && k < |q| && p[..k + 1] == q[..k + 1]
    ensures Upto(p, k)[k := q[k]] == Upto(q, k) && ReadCanonical(Upto(p, k), k) == q[k]
  {
    forall i | 0 <= i <= k
      ensures p[i] == q[i]
    {
      assert p[..k + 1][i] == q[..k + 1][i];
    }
  }
}
