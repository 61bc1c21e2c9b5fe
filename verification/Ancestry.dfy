/** Stored headers and the chains of parents they form. */
module Ancestry {
  import opened Options

  type Hash = nat

  /** The empty hash, which no header has. */
  const NO_HASH: Hash := 0

  /** A header with its hash. */
  datatype Header = Header(hash: Hash, parent: Hash, number: nat, difficulty: nat)

  type Headers = map<Hash, Header>

  /** Stored headers are keyed by their hash and linked to a stored parent, down to the genesis. */
  ghost predicate Closed(headers: Headers, genesis: Hash) {
    && genesis in headers && headers[genesis].number == 0 && NO_HASH !in headers
    && forall h :: h in headers ==> Linked(headers, genesis, h)
  }

  ghost predicate Linked(headers: Headers, genesis: Hash, h: Hash)
    requires h in headers
  {
    var x := headers[h];
    && x.hash == h
    && (x.number == 0 ==> h == genesis)
    && (x.number > 0 ==> x.parent in headers && headers[x.parent].number == x.number - 1)
  }

  /** The hashes from the genesis to a header, found by following parents. */
  ghost function Path(headers: Headers, genesis: Hash, h: Hash): (p: seq<Hash>)
    requires Closed(headers, genesis) && h in headers
    ensures |p| == headers[h].number + 1 && p[headers[h].number] == h
    decreases headers[h].number
  {
    assert Linked(headers, genesis, h);
    if headers[h].number == 0 then [h] else Path(headers, genesis, headers[h].parent) + [h]
  }

  /** Every entry of a path is stored, has its index as number, and has the entries before it as its own path. */
  lemma {:induction false} PathAt(headers: Headers, genesis: Hash, h: Hash, i: nat)
    requires Closed(headers, genesis) && h in headers && i <= headers[h].number
    ensures var p := Path(headers, genesis, h);
      && p[i] in headers && headers[p[i]].number == i && p[i] != NO_HASH
      && Path(headers, genesis, p[i]) == p[..i + 1]
      && (i > 0 ==> headers[p[i]].parent == p[i - 1])
    decreases headers[h].number
  {
    assert Linked(headers, genesis, h);
    var p := Path(headers, genesis, h);
    if i == headers[h].number {
      assert p[..i + 1] == p;
      if i > 0 {
        var q := Path(headers, genesis, headers[h].parent);
        assert p[i - 1] == q[i - 1] == headers[h].parent;
      }
    } else {
      var q := Path(headers, genesis, headers[h].parent);
      PathAt(headers, genesis, headers[h].parent, i);
      assert p == q + [h];
      assert p[..i + 1] == q[..i + 1];
    }
  }

  lemma PathStartsAtGenesis(headers: Headers, genesis: Hash, h: Hash)
    requires Closed(headers, genesis) && h in headers
    ensures Path(headers, genesis, h)[0] == genesis
  {
    PathAt(headers, genesis, h, 0);
    assert Linked(headers, genesis, Path(headers, genesis, h)[0]);
  }

  /** Two paths that meet at some number agree below it. */
  lemma PathsMeet(headers: Headers, genesis: Hash, a: Hash, b: Hash, k: nat)
    requires Closed(headers, genesis) && a in headers && b in headers
    requires k <= headers[a].number && k <= headers[b].number
    requires Path(headers, genesis, a)[k] == Path(headers, genesis, b)[k]
    ensures Path(headers, genesis, a)[..k + 1] == Path(headers, genesis, b)[..k + 1]
  {
    PathAt(headers, genesis, a, k);
    PathAt(headers, genesis, b, k);
  }

  /** Storing more headers changes no path. */
  lemma {:induction false} PathMonotone(headers: Headers, more: Headers, genesis: Hash, h: Hash)
    requires Closed(headers, genesis) && Closed(more, genesis) && h in headers
    requires forall k :: k in headers ==> k in more && more[k] == headers[k]
    ensures Path(more, genesis, h) == Path(headers, genesis, h)
    decreases headers[h].number
  {
    assert Linked(headers, genesis, h);
    if headers[h].number > 0 {
      PathMonotone(headers, more, genesis, headers[h].parent);
    }
  }

  /** The number-to-hash map of the chain that ends in a header. */
  ghost function AncestorMap(headers: Headers, genesis: Hash, h: Hash): (m: map<nat, Hash>)
    requires Closed(headers, genesis) && h in headers
  {
    var p := Path(headers, genesis, h);
    map i | 0 <= i < |p| :: p[i]
  }

  lemma MapOfPath(headers: Headers, genesis: Hash, h: Hash)
    requires Closed(headers, genesis) && h in headers
    ensures var m, p := AncestorMap(headers, genesis, h), Path(headers, genesis, h);
      && (forall i: nat :: i in m <==> i <= headers[h].number)
      && (forall i: nat :: i in m ==> m[i] == p[i])
      && |p| == headers[h].number + 1
  {
  }

  function ReadCanonical(canonical: map<nat, Hash>, number: int): Hash {
    if number >= 0 && number in canonical then canonical[number] else NO_HASH
  }

  function GetHeader(headers: Headers, hash: Hash, number: int): Option<Header> {
    if hash in headers && headers[hash].number == number then Some(headers[hash]) else None
  }

  /** A map that follows a path up to k, and another above it up to the last entry, is the map of the
      other path if they meet at k. */
  lemma Rerouted(headers: Headers, genesis: Hash, head: Hash, h: Hash, k: nat, canonical: map<nat, Hash>)
    requires Closed(headers, genesis) && head in headers && h in headers && k <= headers[head].number
    requires k <= headers[h].number
    requires Path(headers, genesis, head)[k] == Path(headers, genesis, h)[k]
    requires forall i: nat :: i in canonical <==> i <= headers[h].number
    requires forall i: nat :: i in canonical ==>
      canonical[i] == if i <= k then Path(headers, genesis, head)[i] else Path(headers, genesis, h)[i]
    ensures canonical == AncestorMap(headers, genesis, h)
  {
    PathsMeet(headers, genesis, head, h, k);
    var p, q := Path(headers, genesis, head), Path(headers, genesis, h);
    forall i: nat | i in canonical
      ensures canonical[i] == q[i]
    {
      assert i <= k ==> p[..k + 1][i] == q[..k + 1][i];
    }
  }
}
