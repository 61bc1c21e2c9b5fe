/** core/headerchain.go: fork choice by total difficulty and the canonical number-to-hash map. */
module HeaderChains {
  import opened Options
  import opened Ancestry

  datatype WriteStatus = NonStat | Canon | Side

  /** Total difficulties: a header's is its parent's plus its own difficulty. */
  ghost predicate Accumulated(headers: Headers, genesis: Hash, tds: map<Hash, nat>)
    requires Closed(headers, genesis)
  {
    tds.Keys == headers.Keys && forall h :: h in headers ==> AddedUp(headers, genesis, tds, h)
  }

  ghost predicate AddedUp(headers: Headers, genesis: Hash, tds: map<Hash, nat>, h: Hash)
    requires Closed(headers, genesis) && h in headers && tds.Keys == headers.Keys
  {
    assert Linked(headers, genesis, h);
    tds[h] == headers[h].difficulty + if headers[h].number == 0 then 0 else tds[headers[h].parent]
  }

  ghost function SumDifficulty(headers: Headers, path: seq<Hash>): nat
    requires forall h :: h in path ==> h in headers
    decreases |path|
  {
    if path == [] then 0
    else
      assert path[|path| - 1] in path;
      SumDifficulty(headers, path[..|path| - 1]) + headers[path[|path| - 1]].difficulty
  }

  /** So the recorded total is the sum of the difficulties from the genesis on. */
  lemma {:induction false} TdIsSum(headers: Headers, genesis: Hash, tds: map<Hash, nat>, h: Hash)
    requires Closed(headers, genesis) && Accumulated(headers, genesis, tds) && h in headers
    ensures forall x :: x in Path(headers, genesis, h) ==> x in headers
    ensures tds[h] == SumDifficulty(headers, Path(headers, genesis, h))
    decreases headers[h].number
  {
    assert Linked(headers, genesis, h) && AddedUp(headers, genesis, tds, h);
    var p := Path(headers, genesis, h);
    if headers[h].number > 0 {
      var q := Path(headers, genesis, headers[h].parent);
      TdIsSum(headers, genesis, tds, headers[h].parent);
      assert p[..|p| - 1] == q && p[|p| - 1] == h;
    } else {
      assert p == [h] && p[..0] == [];
    }
  }

  /** What header validation promises: the number follows the parent's, and a hash belongs to one header. */
  ghost predicate Validated(headers: Headers, x: Header) {
    && x.hash != NO_HASH
    && (x.hash in headers ==> headers[x.hash] == x)
    && (x.parent in headers ==> x.number == headers[x.parent].number + 1)
  }

  class HeaderChain {
    const genesis: Hash
    var headers: Headers
    var tds: map<Hash, nat>
    var canonical: map<nat, Hash>
    var current: Hash

    /** The canonical map is gap-free and parent-linked from the genesis to the current
        header, with nothing above it. */
    ghost predicate Valid()
      reads this
    {
      && Closed(headers, genesis) && Accumulated(headers, genesis, tds)
      && current in headers && canonical == AncestorMap(headers, genesis, current)
    }

    /** No stored header has a greater total difficulty than the current one. */
    ghost predicate Heaviest()
      requires Valid()
      reads this
    {
      forall h :: h in headers ==> tds[h] <= tds[current]
    }

    constructor (g: Header)
      requires g.number == 0 && g.hash != NO_HASH
      ensures Valid() && Heaviest() && headers == map[g.hash := g] && current == g.hash
    {
      genesis := g.hash;
      headers, tds := map[g.hash := g], map[g.hash := g.difficulty];
      canonical, current := map[0 := g.hash], g.hash;
      new;
      assert Linked(headers, genesis, g.hash);
      assert AddedUp(headers, genesis, tds, g.hash);
      assert Path(headers, genesis, g.hash) == [g.hash];
    }

    /** GetTd */
    function GetTd(hash: Hash, number: int): (r: int)
      reads this
    {
      if hash in headers && headers[hash].number == number && hash in tds then tds[hash] else -1
    }

    /** WriteHeader; the coin decides between heads of equal total difficulty. */
    method WriteHeader(header: Header, coin: bool) returns (status: WriteStatus)
      requires Valid() && Validated(headers, header)
      modifies this
      ensures Valid() && (old(Heaviest()) ==> Heaviest())
      ensures status == NonStat <==> header.parent !in old(headers)
      ensures status == NonStat ==> unchanged(this)
      ensures status != NonStat ==> headers == old(headers)[header.hash := header]
      ensures var td, best := GetTd(header.hash, header.number), old(GetTd(current, headers[current].number));
        status == Canon <==> status != NonStat && (td > best || (td == best && coin))
      ensures status == Canon ==> current == header.hash
      ensures status == Side ==> current == old(current) && canonical == old(canonical)
    {
      hide *;
      ValidParts();
      TdRead(header.parent, header.number - 1);
      TdRead(current, headers[current].number);
      var ptd := GetTd(header.parent, header.number - 1);
      if ptd < 0 {
        UnknownAncestor(headers, genesis, tds, header);
        return NonStat;
      }
      FollowsParent(headers, header);
      HeaderStored(headers, genesis, tds, header, current);
      HeaviestMeans();
      var localTd := GetTd(current, headers[current].number);
      var externTd := header.difficulty + ptd;
      tds := tds[header.hash := externTd];
      headers := headers[header.hash := header];
      if externTd > localTd || (externTd == localTd && coin) {
        Reroute(header);
        status := Canon;
      } else {
        status := Side;
      }
      ValidParts();
      HeaviestMeans();
      TdRead(header.hash, header.number);
    }

    /** Makes the chain of a stored header the canonical one. */
    method Reroute(header: Header)
      requires Closed(headers, genesis) && header.hash in headers && headers[header.hash] == header && header.number > 0
      requires current in headers && canonical == AncestorMap(headers, genesis, current)
      modifies this`canonical, this`current
      ensures canonical == AncestorMap(headers, genesis, header.hash) && current == header.hash
    {
      hide *;
      ghost var head, h := current, header.hash;
      MapOfPath(headers, genesis, head);
      MapOfPath(headers, genesis, h);
      NoEmptyEntries(headers, genesis, head);
      DeleteAbove(header.number, headers[head].number);
      var headHash, headNumber: nat := header.parent, header.number - 1;
      var headHeader := GetHeader(headers, headHash, headNumber);
      RerouteStarts(headers, genesis, head, h, old(canonical), canonical, headHash);
      while ReadCanonical(canonical, headNumber) != headHash
        invariant headNumber < header.number
        invariant Rerouting(headers, genesis, head, h, headNumber, canonical, headHash, headHeader)
        decreases headNumber
      {
        RerouteStep(headers, genesis, head, h, headNumber, canonical, headHash, headHeader);
        canonical := canonical[headNumber := headHash];
        headHash := headHeader.value.parent;
        headNumber := headHeader.value.number - 1;
        headHeader := GetHeader(headers, headHash, headNumber);
      }
      RerouteEnds(headers, genesis, head, h, headNumber, canonical, headHash, headHeader);
      canonical := canonical[header.number := header.hash];
      current := header.hash;
    }

    /** Deletes the canonical entries above a number, reading until the first that is missing. */
    method DeleteAbove(number: nat, ghost top: nat)
      requires forall i: nat :: i in canonical <==> i <= top
      requires forall i: nat :: i in canonical ==> canonical[i] != NO_HASH
      modifies this`canonical
      ensures canonical == map i | i in old(canonical) && i <= number :: old(canonical)[i]
    {
      var batch: set<nat> := {};
      var i := number + 1;
      while ReadCanonical(canonical, i) != NO_HASH
        invariant number < i && (i <= top + 1 || i == number + 1) && forall j: nat :: j in batch <==> number < j < i
        decreases top + 1 - i
      {
        batch := batch + {i};
        i := i + 1;
      }
      canonical := canonical - batch;
    }

    /** InsertHeaderChain without its statistics: any run of header writes, known headers being skipped. The process may
        be interrupted before any of them. */
    method InsertHeaderChain(chain: seq<Header>, coins: seq<bool>, interrupt: nat) returns (done: nat)
      requires Valid() && |coins| == |chain|
      requires Consistent(headers.Values + set x | x in chain)
      modifies this
      ensures Valid() && (old(Heaviest()) ==> Heaviest())
      ensures done <= |chain| && Stored(headers, chain[..done]) && Extends(old(headers), headers)
      ensures done == |chain| || done == interrupt || (chain[done].hash !in headers && chain[done].parent !in headers)
    {
      hide *;
      done := 0;
      ghost var world := headers.Values + set x | x in chain;
      StoredNone(headers);
      while done < |chain|
        invariant done <= |chain| && Valid() && (old(Heaviest()) ==> Heaviest())
        invariant headers.Values <= world && Stored(headers, chain[..done]) && Extends(old(headers), headers)
        decreases |chain| - done
      {
        if done == interrupt {
          return;
        }
        var header := chain[done];
        ValidParts();
        GenuineHeader(headers, genesis, world, header);
        StoredNext(old(headers), headers, world, chain, done);
        if GetHeader(headers, header.hash, header.number).None? {
          var status := WriteHeader(header, coins[done]);
          if status == NonStat {
            return;
          }
        }
        done := done + 1;
      }
    }

    /** GetAncestor: the answer is the ancestor that following parents would reach, if the budget is enough for the
        headers to check one by one, which are those before the canonical chain; a canonical header needs none. The
        empty hash is canonical above the head. */
    method GetAncestor(hash: Hash, number: nat, ancestor: nat, maxNonCanonical: nat)
      returns (r: Hash, at: nat, left: nat)
      requires Valid()
      ensures ancestor > number ==> r == NO_HASH && at == 0 && left == maxNonCanonical
      ensures hash != NO_HASH && ancestor <= number ==>
        var checked := Checked(headers, canonical, hash, number, ancestor);
        && r == (if checked <= maxNonCanonical then Follow(headers, hash, number, ancestor) else NO_HASH)
        && at == (if r == NO_HASH then 0 else number - ancestor)
        && left == if checked <= maxNonCanonical then maxNonCanonical - checked else 0
      ensures hash != NO_HASH && ancestor <= number && ReadCanonical(canonical, number) == hash ==>
        r == ReadCanonical(canonical, number - ancestor) != NO_HASH && left == maxNonCanonical
      ensures hash == NO_HASH && ancestor <= number ==>
        if ancestor >= 2 && number !in canonical
        then r == ReadCanonical(canonical, number - ancestor) && at == number - ancestor && left == maxNonCanonical
        else
          && r == NO_HASH && at == (if ancestor == 0 then number else 0)
          && left == if ancestor >= 2 && maxNonCanonical > 0 then maxNonCanonical - 1 else maxNonCanonical
    {
      hide *;
      ValidParts();
      left := maxNonCanonical;
      if ancestor > number {
        return NO_HASH, 0, left;
      }
      EntryMeans(headers, genesis, current, number);
      CheckedIs(headers, genesis, current, hash, number, ancestor);
      if ReadCanonical(canonical, number) == hash != NO_HASH {
        CanonicalAncestor(headers, genesis, current, hash, number, ancestor);
      }
      if ancestor == 1 {
        var header := GetHeader(headers, hash, number);
        ParentStored(headers, genesis, hash, number);
        FollowStep(headers, hash, number, 1);
        if header.Some? {
          FollowStep(headers, header.value.parent, number - 1, 0);
          return header.value.parent, number - 1, left;
        }
        return NO_HASH, 0, left;
      }
      ParentStored(headers, genesis, hash, number);
      var h, n, a := hash, number, ancestor;
      while a != 0
        invariant 0 <= a <= n && n - a == number - ancestor && left >= 0 && left + (ancestor - a) == maxNonCanonical
        invariant Follow(headers, h, n, a) == Follow(headers, hash, number, ancestor)
        invariant if GetHeader(headers, hash, number).None? then a == ancestor && h == hash && n == number
          else
            && GetHeader(headers, h, n).Some? && h != NO_HASH
            && Distance(headers, canonical, hash, number) ==
                 ancestor - a + Distance(headers, canonical, h, n)
        decreases a
      {
        EntryMeans(headers, genesis, current, n);
        ParentStored(headers, genesis, h, n);
        CanonicalStored(headers, genesis, current, n);
        if GetHeader(headers, h, n).Some? {
          DistanceStep(headers, genesis, current, h, n);
        }
        if ReadCanonical(canonical, n) == h {
          if h != NO_HASH {
            CanonicalAncestor(headers, genesis, current, h, n, a);
          }
          return ReadCanonical(canonical, n - a), n - a, left;
        }
        FollowStep(headers, h, n, a);
        if left == 0 {
          return NO_HASH, 0, left;
        }
        var header := GetHeader(headers, h, n);
        left := left - 1;
        a := a - 1;
        if header.None? {
          return NO_HASH, 0, left;
        }
        h, n := header.value.parent, n - 1;
        ParentStored(headers, genesis, h, n);
      }
      FollowStep(headers, h, n, 0);
      return h, n, left;
    }

    lemma TdRead(hash: Hash, number: int)
      requires tds.Keys == headers.Keys || Valid()
      ensures GetTd(hash, number) ==
        if hash in headers && headers[hash].number == number && hash in tds then tds[hash] else -1
      ensures Valid() ==> tds.Keys == headers.Keys
    {
    }

    lemma HeaviestMeans()
      requires Valid()
      ensures tds.Keys == headers.Keys && current in headers
      ensures Heaviest() <==> forall h :: h in headers ==> tds[h] <= tds[current]
    {
    }

    lemma ValidParts()
      ensures Valid() <==>
        && Closed(headers, genesis) && Accumulated(headers, genesis, tds)
        && current in headers && canonical == AncestorMap(headers, genesis, current)
    {
    }
  }

  // Storing a header

  lemma UnknownAncestor(headers: Headers, genesis: Hash, tds: map<Hash, nat>, header: Header)
    requires Closed(headers, genesis) && Accumulated(headers, genesis, tds) && Validated(headers, header)
    requires !(header.parent in headers && headers[header.parent].number == header.number - 1 && header.parent in tds)
    ensures header.parent !in headers
  {
  }

  /** A header whose parent is stored can be stored: the headers stay closed, the totals add up and no path changes. */
  lemma HeaderStored(headers: Headers, genesis: Hash, tds: map<Hash, nat>, header: Header, current: Hash)
    requires Closed(headers, genesis) && Accumulated(headers, genesis, tds) && Validated(headers, header)
    requires header.parent in headers && current in headers
    ensures var more := headers[header.hash := header];
      && Closed(more, genesis)
      && Accumulated(more, genesis, tds[header.hash := header.difficulty + tds[header.parent]])
      && AncestorMap(more, genesis, current) == AncestorMap(headers, genesis, current)
    ensures header.hash in tds ==> tds[header.hash] == header.difficulty + tds[header.parent]
  {
    var more := headers[header.hash := header];
    StoredClosed(headers, genesis, header);
    assert header.hash in headers ==> AddedUp(headers, genesis, tds, header.hash);
    StoredTds(headers, genesis, tds, header);
    PathMonotone(headers, more, genesis, current);
  }

  lemma StoredClosed(headers: Headers, genesis: Hash, header: Header)
    requires Closed(headers, genesis) && Validated(headers, header) && header.parent in headers
    ensures Closed(headers[header.hash := header], genesis)
  {
    var more := headers[header.hash := header];
    forall h | h in more
      ensures Linked(more, genesis, h)
    {
      assert h in headers ==> Linked(headers, genesis, h);
    }
  }

  lemma StoredTds(headers: Headers, genesis: Hash, tds: map<Hash, nat>, header: Header)
    requires Closed(headers, genesis) && Accumulated(headers, genesis, tds) && Validated(headers, header)
    requires header.parent in headers
    requires Closed(headers[header.hash := header], genesis)
    requires header.hash in tds ==> tds[header.hash] == header.difficulty + tds[header.parent]
    ensures Accumulated(headers[header.hash := header], genesis,
                        tds[header.hash := header.difficulty + tds[header.parent]])
  {
    var more, tds' := headers[header.hash := header], tds[header.hash := header.difficulty + tds[header.parent]];
    forall h | h in more
      ensures AddedUp(more, genesis, tds', h)
    {
      assert Linked(more, genesis, h);
      assert h in headers ==> AddedUp(headers, genesis, tds, h) && Linked(headers, genesis, h);
    }
  }

  // Rerouting the canonical map

  /** Down to number k the map is the old chain's, above k it is the new header's. */
  ghost predicate Rerouting(headers: Headers, genesis: Hash, head: Hash, h: Hash, k: nat, canonical: map<nat, Hash>,
                            headHash: Hash, headHeader: Option<Header>)
  {
    && Closed(headers, genesis) && head in headers && h in headers && k < headers[h].number
    && headHash == Path(headers, genesis, h)[k] && headHash in headers && headHeader == Some(headers[headHash])
    && headers[headHash].number == k
    && forall i: nat :: EntryAt(headers, genesis, head, h, k, canonical, i)
  }

  ghost predicate EntryAt(headers: Headers, genesis: Hash, head: Hash, h: Hash, k: nat, canonical: map<nat, Hash>,
                          i: nat)
    requires Closed(headers, genesis) && head in headers && h in headers
  {
    var n := headers[h].number;
    if k < i < n then i in canonical && canonical[i] == Path(headers, genesis, h)[i]
    else if i <= n && i <= headers[head].number then i in canonical && canonical[i] == Path(headers, genesis, head)[i]
    else i !in canonical
  }

  lemma RerouteStarts(headers: Headers, genesis: Hash, head: Hash, h: Hash, before: map<nat, Hash>,
                      canonical: map<nat, Hash>, headHash: Hash)
    requires Closed(headers, genesis) && head in headers && h in headers && headers[h].number > 0
    requires headHash == headers[h].parent
    requires before == AncestorMap(headers, genesis, head)
    requires canonical == map i | i in before && i <= headers[h].number :: before[i]
    ensures Rerouting(headers, genesis, head, h, headers[h].number - 1, canonical, headHash,
                      GetHeader(headers, headHash, headers[h].number - 1))
  {
    PathAt(headers, genesis, h, headers[h].number);
    PathAt(headers, genesis, h, headers[h].number - 1);
    MapOfPath(headers, genesis, head);
  }

  /** While the walk goes on it is above the genesis, and its next header is stored. */
  lemma RerouteStep(headers: Headers, genesis: Hash, head: Hash, h: Hash, k: nat, canonical: map<nat, Hash>,
                    headHash: Hash, headHeader: Option<Header>)
    requires Rerouting(headers, genesis, head, h, k, canonical, headHash, headHeader)
    requires ReadCanonical(canonical, k) != headHash
    ensures k > 0 && headHeader.Some? && headHeader.value.number == k
    ensures var next := headHeader.value.parent;
      Rerouting(headers, genesis, head, h, k - 1, canonical[k := headHash], next, GetHeader(headers, next, k - 1))
  {
    hide Path, EntryAt, GetHeader, ReadCanonical, Closed;
    AboveGenesis(headers, genesis, head, h, k, canonical, headHash);
    var below, after := k - 1, canonical[k := headHash];
    forall i: nat
      ensures EntryAt(headers, genesis, head, h, below, after, i)
    {
      EntryMoves(headers, genesis, head, h, k, canonical, headHash, i);
    }
  }

  lemma AboveGenesis(headers: Headers, genesis: Hash, head: Hash, h: Hash, k: nat, canonical: map<nat, Hash>,
                     headHash: Hash)
    requires Closed(headers, genesis) && head in headers && h in headers && k < headers[h].number
    requires headHash == Path(headers, genesis, h)[k]
    requires EntryAt(headers, genesis, head, h, k, canonical, k) && ReadCanonical(canonical, k) != headHash
    ensures k > 0 && headHash in headers && headers[headHash].number == k
    ensures var next := headers[headHash].parent;
      next == Path(headers, genesis, h)[k - 1] && next in headers && headers[next].number == k - 1
      && GetHeader(headers, next, k - 1) == Some(headers[next])
  {
    PathAt(headers, genesis, h, k);
    PathStartsAtGenesis(headers, genesis, h);
    PathStartsAtGenesis(headers, genesis, head);
    hide Path;
    PathAt(headers, genesis, h, k - 1);
  }

  lemma EntryMoves(headers: Headers, genesis: Hash, head: Hash, h: Hash, k: nat, canonical: map<nat, Hash>,
                   headHash: Hash, i: nat)
    requires Closed(headers, genesis) && head in headers && h in headers && 0 < k < headers[h].number
    requires headHash == Path(headers, genesis, h)[k]
    requires EntryAt(headers, genesis, head, h, k, canonical, i)
    ensures EntryAt(headers, genesis, head, h, k - 1, canonical[k := headHash], i)
  {
    hide Path, Closed;
  }

  lemma RerouteEnds(headers: Headers, genesis: Hash, head: Hash, h: Hash, k: nat, canonical: map<nat, Hash>,
                    headHash: Hash, headHeader: Option<Header>)
    requires Rerouting(headers, genesis, head, h, k, canonical, headHash, headHeader)
    requires ReadCanonical(canonical, k) == headHash
    ensures canonical[headers[h].number := h] == AncestorMap(headers, genesis, h)
  {
    PathAt(headers, genesis, h, k);
    assert EntryAt(headers, genesis, head, h, k, canonical, k);
    var after := canonical[headers[h].number := h];
    assert Path(headers, genesis, h)[headers[h].number] == h;
    hide Path;
    forall i: nat
      ensures i in after <==> i <= headers[h].number
      ensures i in after ==>
        after[i] == if i <= k then Path(headers, genesis, head)[i] else Path(headers, genesis, h)[i]
    {
      assert EntryAt(headers, genesis, head, h, k, canonical, i);
    }
    Rerouted(headers, genesis, head, h, k, after);
  }

  lemma EntryMeans(headers: Headers, genesis: Hash, h: Hash, n: nat)
    requires Closed(headers, genesis) && h in headers
    ensures ReadCanonical(AncestorMap(headers, genesis, h), n) == NO_HASH <==> n !in AncestorMap(headers, genesis, h)
  {
    NoEmptyEntries(headers, genesis, h);
  }

  lemma NoEmptyEntries(headers: Headers, genesis: Hash, h: Hash)
    requires Closed(headers, genesis) && h in headers
    ensures forall i: nat :: i in AncestorMap(headers, genesis, h) ==> AncestorMap(headers, genesis, h)[i] != NO_HASH
  {
    forall i: nat | i <= headers[h].number
      ensures Path(headers, genesis, h)[i] != NO_HASH
    {
      PathAt(headers, genesis, h, i);
    }
  }

  // Runs of writes

  /** Headers that can exist together: hashes are distinct and numbers follow parents. */
  ghost predicate Consistent(world: set<Header>) {
    && (forall x :: x in world ==> x.hash != NO_HASH)
    && (forall x, y :: x in world && y in world && x.hash == y.hash ==> x == y)
    && (forall x, y :: x in world && y in world && x.parent == y.hash ==> x.number == y.number + 1)
  }

  /** Earlier headers stay. */
  ghost predicate Extends(before: Headers, after: Headers) {
    forall h :: h in before ==> h in after && after[h] == before[h]
  }

  ghost predicate Stored(headers: Headers, chain: seq<Header>) {
    forall x :: x in chain ==> x.hash in headers && headers[x.hash] == x
  }

  lemma StoredNone(headers: Headers)
    ensures Stored(headers, []) && Extends(headers, headers)
  {
  }

  lemma StoredNext(before: Headers, headers: Headers, world: set<Header>, chain: seq<Header>, i: nat)
    requires i < |chain| && Stored(headers, chain[..i]) && Extends(before, headers) && headers.Values <= world
    requires chain[i] in world
    requires Validated(headers, chain[i])
    ensures var x := chain[i]; var more := headers[x.hash := x];
      && Stored(more, chain[..i + 1]) && Extends(before, more) && more.Values <= world
      && (x.hash in headers ==> Stored(headers, chain[..i + 1]))
  {
    assert chain[..i + 1] == chain[..i] + [chain[i]];
  }

  lemma FollowsParent(headers: Headers, x: Header)
    requires Validated(headers, x) && x.parent in headers
    ensures x.number == headers[x.parent].number + 1
  {
  }

  lemma GenuineHeader(headers: Headers, genesis: Hash, world: set<Header>, x: Header)
    requires Closed(headers, genesis) && Consistent(world) && headers.Values <= world && x in world
    ensures Validated(headers, x) && (x.hash in headers <==> GetHeader(headers, x.hash, x.number).Some?)
  {
    if x.hash in headers {
      assert headers[x.hash] in headers.Values && Linked(headers, genesis, x.hash);
    }
    if x.parent in headers {
      assert headers[x.parent] in headers.Values && Linked(headers, genesis, x.parent);
    }
  }

  // Ancestors

  /** The hash reached from a header by following that many parents, empty if one of the headers is not stored. */
  ghost function Follow(headers: Headers, hash: Hash, number: int, ancestor: nat): Hash
    decreases ancestor
  {
    if ancestor == 0 then hash
    else if GetHeader(headers, hash, number).None? then NO_HASH
    else Follow(headers, headers[hash].parent, number - 1, ancestor - 1)
  }

  /** That many parents up, the chain of a header is on the canonical chain. */
  ghost predicate Joined(headers: Headers, canonical: map<nat, Hash>, hash: Hash, number: nat, k: nat) {
    k <= number && Follow(headers, hash, number, k) == ReadCanonical(canonical, number - k)
  }

  /** The number of parents to follow from a stored header to the canonical chain. */
  ghost function Distance(headers: Headers, canonical: map<nat, Hash>, hash: Hash, number: nat): nat
    decreases number
  {
    if number == 0 || ReadCanonical(canonical, number) == hash || GetHeader(headers, hash, number).None? then 0
    else 1 + Distance(headers, canonical, headers[hash].parent, number - 1)
  }

  /** It is the least number after which the chain of the header is on the canonical chain. */
  lemma {:induction false} DistanceIsLeast(headers: Headers, genesis: Hash, current: Hash, hash: Hash, number: nat)
    requires Closed(headers, genesis) && current in headers && GetHeader(headers, hash, number).Some?
    ensures var canonical := AncestorMap(headers, genesis, current);
      var d := Distance(headers, canonical, hash, number);
      && Joined(headers, canonical, hash, number, d)
      && forall k: nat :: k < d ==> !Joined(headers, canonical, hash, number, k)
    decreases number
  {
    hide Closed, Path, AncestorMap, Joined;
    var canonical := AncestorMap(headers, genesis, current);
    DistanceStep(headers, genesis, current, hash, number);
    if ReadCanonical(canonical, number) == hash {
      JoinedHere(headers, canonical, hash, number);
    } else {
      var parent, below := headers[hash].parent, number - 1;
      DistanceIsLeast(headers, genesis, current, parent, below);
      JoinedUp(headers, canonical, hash, number, parent, below, Distance(headers, canonical, parent, below));
    }
  }

  /** How many headers GetAncestor looks at one by one, given the budget: none for a parent. */
  ghost function Checked(headers: Headers, canonical: map<nat, Hash>, hash: Hash, number: nat, ancestor: nat): nat {
    if ancestor <= 1 then 0
    else if GetHeader(headers, hash, number).None? then 1
    else
      var d := Distance(headers, canonical, hash, number);
      if d < ancestor then d else ancestor
  }

  lemma CheckedIs(headers: Headers, genesis: Hash, current: Hash, hash: Hash, number: nat, ancestor: nat)
    requires Closed(headers, genesis) && current in headers
    ensures var canonical := AncestorMap(headers, genesis, current);
      && Checked(headers, canonical, hash, number, ancestor) ==
           (if ancestor <= 1 then 0
            else if GetHeader(headers, hash, number).None? then 1
            else
              var d := Distance(headers, canonical, hash, number);
              if d < ancestor then d else ancestor)
      && (ReadCanonical(canonical, number) == hash != NO_HASH ==>
            Checked(headers, canonical, hash, number, ancestor) == 0)
  {
    CanonicalStored(headers, genesis, current, number);
  }

  lemma JoinedHere(headers: Headers, canonical: map<nat, Hash>, hash: Hash, number: nat)
    requires ReadCanonical(canonical, number) == hash
    ensures Joined(headers, canonical, hash, number, 0)
  {
  }

  lemma OffCanonical(headers: Headers, genesis: Hash, current: Hash, hash: Hash, number: nat)
    requires Closed(headers, genesis) && current in headers && GetHeader(headers, hash, number).Some?
    requires ReadCanonical(AncestorMap(headers, genesis, current), number) != hash
    ensures number > 0 && GetHeader(headers, headers[hash].parent, number - 1).Some?
  {
    PathStartsAtGenesis(headers, genesis, current);
    assert Linked(headers, genesis, hash);
  }

  lemma JoinedUp(headers: Headers, canonical: map<nat, Hash>, hash: Hash, number: nat, parent: Hash, below: nat, d: nat)
    requires GetHeader(headers, hash, number).Some? && number == below + 1 && parent == headers[hash].parent
    requires ReadCanonical(canonical, number) != hash && Joined(headers, canonical, parent, below, d)
    requires forall k: nat :: k < d ==> !Joined(headers, canonical, parent, below, k)
    ensures Joined(headers, canonical, hash, number, d + 1)
    ensures forall k: nat :: k < d + 1 ==> !Joined(headers, canonical, hash, number, k)
  {
    forall k: nat | k < d + 1
      ensures !Joined(headers, canonical, hash, number, k)
    {
      assert k > 0 ==> !Joined(headers, canonical, parent, below, k - 1);
    }
  }

  lemma DistanceStep(headers: Headers, genesis: Hash, current: Hash, hash: Hash, number: nat)
    requires Closed(headers, genesis) && current in headers && GetHeader(headers, hash, number).Some?
    ensures var canonical := AncestorMap(headers, genesis, current);
      if ReadCanonical(canonical, number) == hash then Distance(headers, canonical, hash, number) == 0
      else
        && number > 0 && hash in headers && GetHeader(headers, headers[hash].parent, number - 1).Some?
        && Distance(headers, canonical, hash, number) ==
             1 + Distance(headers, canonical, headers[hash].parent, number - 1)
  {
    hide Closed, Path, AncestorMap;
    if ReadCanonical(AncestorMap(headers, genesis, current), number) != hash {
      OffCanonical(headers, genesis, current, hash, number);
    }
  }

  lemma CanonicalStored(headers: Headers, genesis: Hash, current: Hash, n: nat)
    requires Closed(headers, genesis) && current in headers
    ensures var h := ReadCanonical(AncestorMap(headers, genesis, current), n);
      h != NO_HASH ==> GetHeader(headers, h, n).Some?
  {
    if n <= headers[current].number {
      PathAt(headers, genesis, current, n);
    }
  }

  /** On the canonical chain the ancestor is the entry that many numbers below. */
  lemma {:induction false} CanonicalAncestor(headers: Headers, genesis: Hash, current: Hash, h: Hash, n: nat, a: nat)
    requires Closed(headers, genesis) && current in headers && a <= n
    requires ReadCanonical(AncestorMap(headers, genesis, current), n) == h != NO_HASH
    ensures Follow(headers, h, n, a) == ReadCanonical(AncestorMap(headers, genesis, current), n - a) != NO_HASH
    decreases a
  {
    hide *;
    CanonicalParent(headers, genesis, current, h, n);
    FollowStep(headers, h, n, a);
    if a > 0 {
      CanonicalAncestor(headers, genesis, current, headers[h].parent, n - 1, a - 1);
    }
  }

  lemma CanonicalParent(headers: Headers, genesis: Hash, current: Hash, h: Hash, n: nat)
    requires Closed(headers, genesis) && current in headers
    requires ReadCanonical(AncestorMap(headers, genesis, current), n) == h != NO_HASH
    ensures h in headers && GetHeader(headers, h, n) == Some(headers[h])
    ensures n > 0 ==> ReadCanonical(AncestorMap(headers, genesis, current), n - 1) == headers[h].parent != NO_HASH
  {
    MapOfPath(headers, genesis, current);
    PathAt(headers, genesis, current, n);
    if n > 0 {
      PathAt(headers, genesis, current, n - 1);
    }
  }

  lemma FollowStep(headers: Headers, hash: Hash, number: int, ancestor: nat)
    ensures Follow(headers, hash, number, ancestor) ==
      if ancestor == 0 then hash
      else if GetHeader(headers, hash, number).None? || hash !in headers then NO_HASH
      else Follow(headers, headers[hash].parent, number - 1, ancestor - 1)
  {
  }

  lemma ParentStored(headers: Headers, genesis: Hash, hash: Hash, number: int)
    requires Closed(headers, genesis)
    ensures GetHeader(headers, hash, number).Some? ==>
      && hash in headers && GetHeader(headers, hash, number).value == headers[hash]
      && (number > 0 ==> headers[hash].parent != NO_HASH)
    ensures GetHeader(headers, NO_HASH, number).None?
  {
    assert hash in headers ==> Linked(headers, genesis, hash);
  }
}
