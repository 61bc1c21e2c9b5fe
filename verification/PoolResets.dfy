/** core/tx_pool.go: the walk of a reset over the blocks that the chain abandoned and those that it adopted. */
module PoolResets {
  import opened Options
  import opened Numbers
  import opened Ancestry
  import opened Reorg
  import opened TxLists
  import opened PoolTables
  import opened PoolChanges
  import opened PoolTraces
  import opened PoolFates
  import opened TxPools

  /** A reorg deeper than this reinjects nothing. */
  const MAX_DEPTH: nat := 64

  /** The transactions of a path's blocks above number k, the highest block first. */
  ghost function Down(bodies: Bodies, path: seq<Hash>, k: nat): seq<TxHash>
    decreases |path| - k
  {
    if k + 1 >= |path| then []
    else Down(bodies, path, k + 1) + if path[k + 1] in bodies then bodies[path[k + 1]] else []
  }

  /** What the chain of b leaves out of the chain of a, in the order of the walk. */
  ghost function Abandoned(headers: Headers, genesis: Hash, bodies: Bodies, a: Hash, b: Hash): seq<TxHash>
    requires Closed(headers, genesis) && a in headers && b in headers
  {
    var c := ForkOf(headers, genesis, a, b);
    Without(Down(bodies, Path(headers, genesis, a), c), SetOf(Down(bodies, Path(headers, genesis, b), c)))
  }

  /** A reset walks the chains unless the new head follows the old one, is too far from it, or a head is missing. */
  ghost predicate Walks(headers: Headers, bodies: Bodies, oldHead: Option<Header>, newHead: Header) {
    && oldHead.Some? && oldHead.value.hash != newHead.parent
    && oldHead.value.number <= newHead.number + MAX_DEPTH && newHead.number <= oldHead.value.number + MAX_DEPTH
    && GetHeader(headers, oldHead.value.hash, oldHead.value.number).Some? && oldHead.value.hash in bodies
    && GetHeader(headers, newHead.hash, newHead.number).Some? && newHead.hash in bodies
  }

  /** A walk that must be given up, since a block that it comes to has no body. */
  ghost predicate Unrooted(headers: Headers, genesis: Hash, bodies: Bodies, oldHead: Option<Header>, newHead: Header)
    requires Closed(headers, genesis)
  {
    && Walks(headers, bodies, oldHead, newHead)
    && !BothWhole(headers, genesis, bodies, oldHead.value.hash, newHead.hash)
  }

  /** The transactions to offer to the pool again. */
  ghost function Reinjected(headers: Headers, genesis: Hash, bodies: Bodies, oldHead: Option<Header>, newHead: Header)
    : seq<TxHash>
    requires Closed(headers, genesis)
  {
    if Walks(headers, bodies, oldHead, newHead)
    then Abandoned(headers, genesis, bodies, oldHead.value.hash, newHead.hash)
    else []
  }

  function Decoded(hashes: seq<TxHash>, tx: TxHash -> Tx): (txs: seq<Tx>)
    ensures |txs| == |hashes| && forall i :: 0 <= i < |txs| ==> txs[i] == tx(hashes[i])
  {
    seq(|hashes|, i requires 0 <= i < |hashes| => tx(hashes[i]))
  }

  /** Walks down from a block to a number, collecting the transactions of the blocks passed. */
  method Descend(chain: BlockChain, start: Hash, number: nat) returns (ok: bool, block: Hash, txs: seq<TxHash>)
    requires Closed(chain.headers, chain.genesis) && start in chain.headers && start in chain.bodies
    requires number <= chain.headers[start].number
    ensures var path := Path(chain.headers, chain.genesis, start);
      && (ok <==> Whole(chain.bodies, path, number, chain.headers[start].number))
      && (ok ==> block == path[number] && block in chain.bodies && txs == Down(chain.bodies, path, number))
  {
    hide *;
    ghost var path := Path(chain.headers, chain.genesis, start);
    ok, block, txs := true, start, [];
    var at: nat := chain.headers[start].number;
    DescentStarts(chain.headers, chain.genesis, chain.bodies, start);
    while at > number
      invariant number <= at <= chain.headers[start].number < |path| && block == path[at] && block in chain.bodies
      invariant txs == Down(chain.bodies, path, at) && Whole(chain.bodies, path, at, chain.headers[start].number)
    {
      DescentStep(chain.headers, chain.genesis, chain.bodies, start, at);
      WholeStep(chain.bodies, path, number, at, chain.headers[start].number);
      txs := txs + chain.bodies[block];
      block, at := chain.headers[block].parent, at - 1;
      chain.BlockMissing(block, at);
      if !chain.HasBlock(block, at) {
        return false, block, txs;
      }
    }
  }

  /** Walks down two chains from a common height until they meet, collecting the transactions of both. */
  method Meet(chain: BlockChain, ghost oldHead: Hash, ghost newHead: Hash, low: nat, oldBlock: Hash, newBlock: Hash,
              discarded0: seq<TxHash>, included0: seq<TxHash>)
    returns (ok: bool, discarded: seq<TxHash>, included: seq<TxHash>)
    requires Closed(chain.headers, chain.genesis) && oldHead in chain.headers && newHead in chain.headers
    requires low == Min(chain.headers[oldHead].number, chain.headers[newHead].number)
    requires var p, q := Path(chain.headers, chain.genesis, oldHead), Path(chain.headers, chain.genesis, newHead);
      && oldBlock == p[low] && newBlock == q[low] && oldBlock in chain.bodies && newBlock in chain.bodies
      && discarded0 == Down(chain.bodies, p, low) && included0 == Down(chain.bodies, q, low)
    ensures var p, q := Path(chain.headers, chain.genesis, oldHead), Path(chain.headers, chain.genesis, newHead);
      var c := ForkOf(chain.headers, chain.genesis, oldHead, newHead);
      && (ok <==> Whole(chain.bodies, p, c, low) && Whole(chain.bodies, q, c, low))
      && (ok ==> discarded == Down(chain.bodies, p, c) && included == Down(chain.bodies, q, c))
  {
    hide *;
    ghost var p, q := Path(chain.headers, chain.genesis, oldHead), Path(chain.headers, chain.genesis, newHead);
    ghost var c := ForkOf(chain.headers, chain.genesis, oldHead, newHead);
    var x, y, n: nat := oldBlock, newBlock, low;
    discarded, included := discarded0, included0;
    MeetStarts(chain.headers, chain.genesis, oldHead, newHead);
    WholeStarts(chain.bodies, p, low);
    WholeStarts(chain.bodies, q, low);
    while x != y
      invariant n <= low < |p| && low < |q| && p[0] == q[0] && x == p[n] && y == q[n] && c == Fork(p, q, n)
      invariant x in chain.bodies && y in chain.bodies
      invariant Whole(chain.bodies, p, n, low) && Whole(chain.bodies, q, n, low)
      invariant discarded == Down(chain.bodies, p, n) && included == Down(chain.bodies, q, n)
      decreases n
    {
      ForkBelow(p, q, n);
      DescentStep(chain.headers, chain.genesis, chain.bodies, oldHead, n);
      DescentStep(chain.headers, chain.genesis, chain.bodies, newHead, n);
      WholeStep(chain.bodies, p, c, n, low);
      WholeStep(chain.bodies, q, c, n, low);
      discarded := discarded + chain.bodies[x];
      x := chain.headers[x].parent;
      chain.BlockMissing(x, n - 1);
      if !chain.HasBlock(x, n - 1) {
        return false, discarded, included;
      }
      included := included + chain.bodies[y];
      y := chain.headers[y].parent;
      chain.BlockMissing(y, n - 1);
      if !chain.HasBlock(y, n - 1) {
        return false, discarded, included;
      }
      n := n - 1;
    }
    ForkHere(p, q, n);
    ok := true;
  }

  /** The first part of reset: which transactions to reinject, or that the chains have no common root. */
  method Reinject(chain: BlockChain, oldHead: Option<Header>, newHead: Header)
    returns (rooted: bool, reinject: seq<TxHash>)
    requires Closed(chain.headers, chain.genesis)
    ensures rooted <==> !Unrooted(chain.headers, chain.genesis, chain.bodies, oldHead, newHead)
    ensures rooted ==> reinject == Reinjected(chain.headers, chain.genesis, chain.bodies, oldHead, newHead)
  {
    hide Path, Closed, Fork, ForkOf, BothWhole, Whole, Down, SetOf;
    rooted, reinject := true, [];
    if oldHead.Some? && oldHead.value.hash != newHead.parent {
      var oldNum, newNum := oldHead.value.number, newHead.number;
      var depth := if oldNum > newNum then oldNum - newNum else newNum - oldNum;
      if depth <= MAX_DEPTH {
        var discarded, included: seq<TxHash> := [], [];
        var rem, add := oldHead.value.hash, newHead.hash;
        if chain.HasBlock(rem, oldNum) && chain.HasBlock(add, newNum) {
          BothWholeIs(chain.headers, chain.genesis, chain.bodies, rem, add);
          MeetStarts(chain.headers, chain.genesis, rem, add);
          var low := Min(oldNum, newNum);
          rooted, rem, discarded := Descend(chain, rem, low);
          if !rooted {
            return;
          }
          rooted, add, included := Descend(chain, add, low);
          if !rooted {
            return;
          }
          rooted, discarded, included :=
            Meet(chain, oldHead.value.hash, newHead.hash, low, rem, add, discarded, included);
          if !rooted {
            return;
          }
        }
        reinject := TxDifference(discarded, included);
      }
    }
  }

  /** reset: the pool takes on the state of the new head with the transactions that the chain abandoned, unless a block
      or the state is missing, when nothing changes. */
  method ResetTo(pool: TxPool, chain: BlockChain, tx: TxHash -> Tx, oldHead: Option<Header>, newHead: Header,
                 newState: Option<Address -> Account>, newMaxGas: nat, now: int)
    returns (done: bool, ghost log: Log)
    requires pool.Valid() && Closed(chain.headers, chain.genesis)
    modifies pool, pool.priced
    ensures pool.Valid()
    ensures done <==> newState.Some? && !Unrooted(chain.headers, chain.genesis, chain.bodies, oldHead, newHead)
    ensures !done ==> unchanged(pool) && unchanged(pool.priced)
    ensures Leads(pool.config, pool.checks, old(pool.Snapshot()), log, pool.Snapshot())
    ensures Bounded(pool.config, old(pool.Snapshot())) ==> Bounded(pool.config, pool.Snapshot())
    ensures done ==> pool.RunnableNow() && pool.state == newState.value && pool.maxGas == newMaxGas
    ensures done ==>
      var again := Reinjected(chain.headers, chain.genesis, chain.bodies, oldHead, newHead);
      && ResetLog(Decoded(again, tx), newState.value, newMaxGas, now, log)
      && (old(pool.TightNow()) && again == [] && Forward(old(pool.state), newState.value) ==> pool.OrderlyNow())
  {
    hide *;
    done, log := false, Log([pool.Snapshot()], []);
    NoSteps(pool.config, pool.checks, pool.Snapshot());
    var rooted, reinject := Reinject(chain, oldHead, newHead);
    if rooted && newState.Some? {
      log := pool.Reset(Decoded(reinject, tx), newState.value, newMaxGas, now);
      pool.ValidFolded();
      StaysBounded(pool.config, pool.checks, old(pool.Snapshot()), log, pool.Snapshot());
      done := true;
    }
  }

  // The walk

  lemma DescentStarts(headers: Headers, genesis: Hash, bodies: Bodies, head: Hash)
    requires Closed(headers, genesis) && head in headers && head in bodies
    ensures var p := Path(headers, genesis, head);
      var n := headers[head].number;
      && |p| == n + 1 && p[n] == head && Down(bodies, p, n) == [] && Whole(bodies, p, n, n)
  {
    PathAt(headers, genesis, head, headers[head].number);
  }

  lemma DescentStep(headers: Headers, genesis: Hash, bodies: Bodies, head: Hash, k: nat)
    requires Closed(headers, genesis) && head in headers && 0 < k <= headers[head].number
    ensures var p := Path(headers, genesis, head);
      && |p| == headers[head].number + 1 && p[k] in headers && headers[p[k]].parent == p[k - 1] && p[k - 1] in headers
      && headers[p[k - 1]].number == k - 1
      && (p[k] in bodies ==> Down(bodies, p, k - 1) == Down(bodies, p, k) + bodies[p[k]])
  {
    PathAt(headers, genesis, head, k);
    PathAt(headers, genesis, head, k - 1);
    hide Path, Closed;
  }

  lemma MeetStarts(headers: Headers, genesis: Hash, a: Hash, b: Hash)
    requires Closed(headers, genesis) && a in headers && b in headers
    ensures var p, q := Path(headers, genesis, a), Path(headers, genesis, b);
      var low := Min(headers[a].number, headers[b].number);
      && |p| == headers[a].number + 1 && |q| == headers[b].number + 1 && low < |p| && low < |q| && p[0] == q[0]
      && low <= headers[a].number && low <= headers[b].number && ForkOf(headers, genesis, a, b) == Fork(p, q, low)
  {
    PathStartsAtGenesis(headers, genesis, a);
    PathStartsAtGenesis(headers, genesis, b);
    hide Path, Closed;
  }

  // What the walk finds

  lemma {:induction false} DownMembers(bodies: Bodies, path: seq<Hash>, k: nat, t: TxHash)
    ensures t in Down(bodies, path, k) <==> Between(bodies, path, k, |path| - 1, t)
    decreases |path| - k
  {
    if k + 1 < |path| {
      DownMembers(bodies, path, k + 1, t);
      if path[k + 1] in bodies {
        BelowStep(bodies, path, k + 1, t);
      } else if Between(bodies, path, k, |path| - 1, t) {
        var i: nat, j: nat :| k < i <= |path| - 1 && At(bodies, path, t, i, j);
        assert k + 1 < i;
      }
    }
  }

  /** Exactly the transactions of abandoned blocks that are in no adopted block come back. */
  lemma AbandonedAre(headers: Headers, genesis: Hash, bodies: Bodies, a: Hash, b: Hash, t: TxHash)
    requires Closed(headers, genesis) && a in headers && b in headers
    ensures var p, q := Path(headers, genesis, a), Path(headers, genesis, b);
      var c := ForkOf(headers, genesis, a, b);
      t in Abandoned(headers, genesis, bodies, a, b) <==>
        Between(bodies, p, c, |p| - 1, t) && !Between(bodies, q, c, |q| - 1, t)
  {
    hide Path, Closed, ForkOf, Between, Without, Down, SetOf;
    OnlyAbove(bodies, Path(headers, genesis, a), Path(headers, genesis, b), ForkOf(headers, genesis, a, b), t);
  }

  lemma OnlyAbove(bodies: Bodies, p: seq<Hash>, q: seq<Hash>, c: nat, t: TxHash)
    ensures t in Without(Down(bodies, p, c), SetOf(Down(bodies, q, c))) <==>
      Between(bodies, p, c, |p| - 1, t) && !Between(bodies, q, c, |q| - 1, t)
  {
    hide Between, Without, Down;
    DownMembers(bodies, p, c, t);
    DownMembers(bodies, q, c, t);
    WithoutMembers(Down(bodies, p, c), SetOf(Down(bodies, q, c)), t);
  }

  /** They are the transactions of the old chain that the new chain lacks, except one that the old chain holds both
      below and above the fork and the new chain only below. */
  lemma AbandonedLacking(headers: Headers, genesis: Hash, bodies: Bodies, a: Hash, b: Hash, t: TxHash)
    requires Closed(headers, genesis) && a in headers && b in headers
    ensures var p, q := Path(headers, genesis, a), Path(headers, genesis, b);
      var c := ForkOf(headers, genesis, a, b);
      (t in Abandoned(headers, genesis, bodies, a, b) <==> Included(bodies, p, t) && !Included(bodies, q, t)) <==>
        !(Between(bodies, p, -1, c, t) && Between(bodies, p, c, |p| - 1, t) && !Between(bodies, q, c, |q| - 1, t))
  {
    hide Path, Closed, ForkOf, Fork, Between, Included, Abandoned;
    var p, q := Path(headers, genesis, a), Path(headers, genesis, b);
    var c := ForkOf(headers, genesis, a, b);
    AbandonedAre(headers, genesis, bodies, a, b, t);
    MeetStarts(headers, genesis, a, b);
    PathsMeet(headers, genesis, a, b, c);
    SplitAt(bodies, p, c, t);
    SplitAt(bodies, q, c, t);
    BelowAgree(bodies, p, q, c, t);
  }

  /** On a chain that includes nothing twice they are the transactions that the new chain lacks. */
  lemma AbandonedOfUnrepeated(headers: Headers, genesis: Hash, bodies: Bodies, a: Hash, b: Hash, t: TxHash)
    requires Closed(headers, genesis) && a in headers && b in headers
    requires Unrepeated(bodies, Path(headers, genesis, a))
    ensures t in Abandoned(headers, genesis, bodies, a, b) <==>
      Included(bodies, Path(headers, genesis, a), t) && !Included(bodies, Path(headers, genesis, b), t)
  {
    hide Path, Closed, ForkOf, Between, Included, Abandoned, Unrepeated;
    AbandonedLacking(headers, genesis, bodies, a, b, t);
    OnceOnly(bodies, Path(headers, genesis, a), ForkOf(headers, genesis, a, b), t);
  }

  lemma OnceOnly(bodies: Bodies, path: seq<Hash>, c: nat, t: TxHash)
    requires Unrepeated(bodies, path)
    ensures !(Between(bodies, path, -1, c, t) && Between(bodies, path, c, |path| - 1, t))
  {
  }

  lemma SplitAt(bodies: Bodies, path: seq<Hash>, c: nat, t: TxHash)
    requires c < |path|
    ensures Included(bodies, path, t) <==> Between(bodies, path, -1, c, t) || Between(bodies, path, c, |path| - 1, t)
  {
    if Included(bodies, path, t) {
      var i: nat, j: nat :| At(bodies, path, t, i, j);
      assert i <= c || c < i <= |path| - 1;
    }
  }

  lemma BelowAgree(bodies: Bodies, p: seq<Hash>, q: seq<Hash>, c: nat, t: TxHash)
    requires c < |p| && c < |q| && p[..c + 1] == q[..c + 1]
    ensures Between(bodies, p, -1, c, t) <==> Between(bodies, q, -1, c, t)
  {
    forall i: nat, j: nat | i <= c
      ensures At(bodies, p, t, i, j) <==> At(bodies, q, t, i, j)
    {
      assert p[i] == p[..c + 1][i] == q[..c + 1][i] == q[i];
    }
  }
}
