/** The records of the SUFFIX bucket: a big-endian count, then each key behind a length byte. */
module Records {
  import opened Options
  import opened ByteOrder
  import opened Encoding

  const U32_LIMIT: nat := 0x1_0000_0000

  lemma FourBytes()
    ensures Pow256(4) == U32_LIMIT
  {
    Powers();
  }

  /** The length-prefixed keys, one after the other. */
  function Entries(keys: seq<Bytes>): Bytes {
    if keys == [] then [] else [|keys[0]| % 256] + keys[0] + Entries(keys[1..])
  }

  function Record(keys: seq<Bytes>): Bytes {
    BigEndian(4, |keys|) + Entries(keys)
  }

  /** binary.BigEndian.Uint32 */
  function Count(dat: Bytes): nat
    requires |dat| >= 4
  {
    FromBigEndian(0, dat[..4])
  }

  /** What Commit stores for a batch of keys on top of the record it found. */
  function AppendKeys(dat: Option<Bytes>, keys: seq<Bytes>): Bytes
    requires dat.Some? ==> |dat.value| >= 4
  {
    var found := if dat.None? then [0, 0, 0, 0] else dat.value;
    BigEndian(4, (|keys| + Count(found)) % U32_LIMIT) + found[4..] + Entries(keys)
  }

  /** The loop of Commit that builds the new record in dv. */
  method BuildRecord(dat: Option<Bytes>, keys: seq<Bytes>) returns (dv: Bytes)
    requires dat.Some? ==> |dat.value| >= 4
    ensures dv == AppendKeys(dat, keys)
  {
    hide BigEndian, Count;
    var found := if dat.None? then [0, 0, 0, 0] else dat.value;
    dv := BigEndian(4, (|keys| + Count(found)) % U32_LIMIT) + found[4..];
    ghost var start := dv;
    var i := 0;
    while i < |keys|
      invariant 0 <= i <= |keys|
      invariant dv + Entries(keys[i..]) == start + Entries(keys)
    {
      assert keys[i..][1..] == keys[i + 1..];
      assert dv + Entries(keys[i..]) == (dv + [|keys[i]| % 256] + keys[i]) + Entries(keys[i + 1..]);
      dv := dv + [|keys[i]| % 256] + keys[i];
      i := i + 1;
    }
    assert dv + [] == dv;
  }

  /** Reads n length-prefixed keys; None when the source's loop would index past the end. */
  function ReadEntries(v: Bytes, n: nat): Option<seq<Bytes>>
    decreases n
  {
    if n == 0 then Some([])
    else if v == [] || |v| - 1 < v[0] then None
    else
      match ReadEntries(v[1 + v[0]..], n - 1)
      case None => None
      case Some(rest) => Some([v[1..1 + v[0]]] + rest)
  }

  function ReadRecord(v: Bytes): Option<seq<Bytes>> {
    if |v| < 4 then None else ReadEntries(v[4..], Count(v))
  }

  /** The keys read so far, followed by the rest if it can be read. */
  function Join(read: seq<Bytes>, rest: Option<seq<Bytes>>): Option<seq<Bytes>> {
    if rest.None? then None else Some(read + rest.value)
  }

  lemma ReadStarts(v: Bytes)
    requires |v| >= 4
    ensures Join([], ReadEntries(v[4..], Count(v))) == ReadRecord(v)
  {
    var all := ReadEntries(v[4..], Count(v));
    assert all.Some? ==> [] + all.value == all.value;
  }

  lemma TooShort(v: Bytes)
    requires |v| < 4
    ensures ReadRecord(v) == None
  {
  }

  lemma ReadStep(v: Bytes, i: nat, l: nat, n: nat, read: seq<Bytes>)
    requires n > 0 && i < |v| && l == v[i] && i + 1 + l <= |v|
    ensures Join(read, ReadEntries(v[i..], n)) == Join(read + [v[i + 1..i + 1 + l]], ReadEntries(v[i + 1 + l..], n - 1))
  {
    assert v[i..][1 + l..] == v[i + 1 + l..] && v[i..][1..1 + l] == v[i + 1..i + 1 + l];
    var there := ReadEntries(v[i + 1 + l..], n - 1);
    if there.Some? {
      assert read + ([v[i + 1..i + 1 + l]] + there.value) == read + [v[i + 1..i + 1 + l]] + there.value;
    }
  }

  lemma ReadEnds(v: Bytes, read: seq<Bytes>)
    ensures Join(read, ReadEntries(v, 0)) == Some(read)
  {
    assert read + [] == read;
  }

  lemma ReadPastEnd(v: Bytes, i: nat, n: nat, read: seq<Bytes>)
    requires n > 0 && i <= |v| && (i < |v| ==> i + 1 + (v[i] as int) > |v|)
    ensures Join(read, ReadEntries(v[i..], n)) == None
  {
  }

  /** The reading loop of DeleteTimestamp, rewindData and GetModifiedAccounts. */
  method ReadKeys(v: Bytes) returns (keys: Option<seq<Bytes>>)
    ensures keys == ReadRecord(v)
  {
    hide *;
    if |v| < 4 {
      TooShort(v);
      return None;
    }
    var keycount := Count(v);
    var i, ki := 4, 0;
    var read: seq<Bytes> := [];
    ReadStarts(v);
    while ki < keycount
      invariant 0 <= ki <= keycount && 4 <= i <= |v|
      invariant ReadRecord(v) == Join(read, ReadEntries(v[i..], keycount - ki))
    {
      if i == |v| || i + 1 + (v[i] as int) > |v| {
        ReadPastEnd(v, i, keycount - ki, read);
        return None;
      }
      var l: nat := v[i];
      ReadStep(v, i, l, keycount - ki, read);
      i := i + 1;
      read := read + [v[i..i + l]];
      i := i + l;
      ki := ki + 1;
    }
    ReadEnds(v[i..], read);
    keys := Some(read);
  }

  ghost predicate ShortKeys(keys: seq<Bytes>) {
    forall k :: k in keys ==> |k| < 256
  }

  lemma ReadFirst(key: Bytes, rest: Bytes, n: nat)
    requires |key| < 256 && n > 0
    ensures ReadEntries([|key|] + key + rest, n) == Join([key], ReadEntries(rest, n - 1))
  {
    var v: Bytes := [|key|] + key + rest;
    assert v[1..1 + |key|] == key && v[1 + |key|..] == rest;
  }

  lemma EntriesFront(keys: seq<Bytes>, rest: Bytes)
    requires keys != [] && |keys[0]| < 256
    ensures Entries(keys) + rest == [|keys[0]|] + keys[0] + (Entries(keys[1..]) + rest)
  {
  }

  lemma NoEntries(rest: Bytes)
    ensures ReadEntries(Entries([]) + rest, 0) == Some([])
  {
  }

  lemma {:induction false} EntriesRead(keys: seq<Bytes>, rest: Bytes)
    requires ShortKeys(keys)
    ensures ReadEntries(Entries(keys) + rest, |keys|) == Some(keys)
  {
    hide ReadEntries, Entries;
    if keys == [] {
      NoEntries(rest);
    } else {
      EntriesRead(keys[1..], rest);
      ReadFirst(keys[0], Entries(keys[1..]) + rest, |keys|);
      EntriesFront(keys, rest);
      assert keys == [keys[0]] + keys[1..];
    }
  }

  lemma RecordParts(keys: seq<Bytes>)
    requires |keys| < U32_LIMIT
    ensures Count(Record(keys)) == |keys| && Record(keys)[4..] == Entries(keys)
  {
    FourBytes();
    FromBigEndianInverts(0, 4, |keys|);
    assert Record(keys)[..4] == BigEndian(4, |keys|);
  }

  /** Whatever is read fits the fields: lengths in a byte, and as many keys as the counter says. */
  lemma {:induction false} ReadFits(v: Bytes, n: nat)
    ensures var r := ReadEntries(v, n); r.Some? ==> ShortKeys(r.value) && |r.value| == n
    decreases n
  {
    if n > 0 && v != [] && |v| - 1 >= v[0] {
      ReadFits(v[1 + v[0]..], n - 1);
    }
  }

  lemma CountFits(dat: Bytes)
    requires |dat| >= 4
    ensures Count(dat) < U32_LIMIT
  {
    FourBytes();
    FromBigEndianBound(0, dat[..4]);
  }

  /** Reading a record gives back the keys written exactly if their number and lengths fit their fields. */
  lemma RecordRead(keys: seq<Bytes>)
    ensures ReadRecord(Record(keys)) == Some(keys) <==> ShortKeys(keys) && |keys| < U32_LIMIT
  {
    if ShortKeys(keys) && |keys| < U32_LIMIT {
      RecordParts(keys);
      assert Record(keys)[4..] == Entries(keys) + [];
      EntriesRead(keys, []);
    } else {
      CountFits(Record(keys));
      ReadFits(Record(keys)[4..], Count(Record(keys)));
    }
  }

  lemma {:induction false} EntriesConcat(a: seq<Bytes>, b: seq<Bytes>)
    ensures Entries(a + b) == Entries(a) + Entries(b)
  {
    if a == [] {
      assert a + b == b;
    } else {
      assert (a + b)[1..] == a[1..] + b;
      EntriesConcat(a[1..], b);
    }
  }

  /** Appending to a record is recording the longer list. */
  lemma AppendIsConcat(a: seq<Bytes>, b: seq<Bytes>)
    requires |a| + |b| < U32_LIMIT
    ensures AppendKeys(Some(Record(a)), b) == Record(a + b)
  {
    RecordParts(a);
    EntriesConcat(a, b);
    assert (|b| + |a|) % U32_LIMIT == |a + b|;
  }

  /** Without a record to append to, Commit starts a new one. */
  lemma AppendToNothing(b: seq<Bytes>)
    requires |b| < U32_LIMIT
    ensures AppendKeys(None, b) == Record(b)
  {
    assert Record([]) == [0, 0, 0, 0] by {
      assert BigEndian(2, 0) == [0, 0];
      assert BigEndian(3, 0) == [0, 0] + [0];
    }
    assert [] + b == b;
    AppendIsConcat([], b);
  }
}
