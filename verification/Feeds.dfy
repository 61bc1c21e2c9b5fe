/** event/feed.go: one-to-many delivery over a slice of cases that is permuted and shrunk in place. */
module Feeds {
  type Channel = nat
  type Value = nat

  /** A select case: the first waits for unsubscriptions, the others send to a subscriber. */
  datatype Case = Removals | SendTo(ch: Channel)

  const FIRST_SUB_SEND_CASE: nat := 1

  ghost predicate Distinct(cs: seq<Case>) {
    forall i, j :: 0 <= i < j < |cs| ==> cs[i] != cs[j]
  }

  /** The cases of a feed: the unsubscription case, then one case per subscriber. */
  ghost predicate CaseList(cs: seq<Case>) {
    |cs| >= FIRST_SUB_SEND_CASE && cs[0] == Removals && Distinct(cs)
  }

  ghost function Channels(cs: seq<Case>): set<Channel> {
    set c | c in cs && c.SendTo? :: c.ch
  }

  /** What a channel has received so far. */
  function ReceivedBy(received: map<Channel, seq<Value>>, ch: Channel): seq<Value> {
    if ch in received then received[ch] else []
  }

  /** Exactly the channels of a set have received the value, once each. */
  ghost predicate Gave(before: map<Channel, seq<Value>>, after: map<Channel, seq<Value>>, to: set<Channel>,
                       value: Value)
  {
    forall ch :: ReceivedBy(after, ch) == ReceivedBy(before, ch) + if ch in to then [value] else []
  }

  // What a Send does, channel by channel

  /** What a blocking select yields: a channel takes the value, or an unsubscription arrives. */
  datatype Choice = Takes(ch: Channel) | Leaves(ch: Channel)

  /** What the receivers do in one round of a Send: which channels take the value at once, and what select yields. */
  datatype Round = Round(ready: set<Channel>, next: Choice)

  /** A Send under way: who has yet to get the value, who is subscribed, and who has got it. */
  datatype Progress = Progress(waiting: set<Channel>, subscribed: set<Channel>, got: set<Channel>)

  ghost function Tried(p: Progress, ready: set<Channel>): Progress {
    Progress(p.waiting - ready, p.subscribed, p.got + p.waiting * ready)
  }

  /** select passes over a channel that it does not wait for. */
  ghost function Chosen(p: Progress, next: Choice): Progress {
    match next
    case Takes(ch) => if ch in p.waiting then Progress(p.waiting - {ch}, p.subscribed, p.got + {ch}) else p
    case Leaves(ch) => Progress(p.waiting - {ch}, p.subscribed - {ch}, p.got)
  }

  /** The rounds of a Send, which ends when no channel is waiting. */
  ghost function Play(rounds: seq<Round>, p: Progress): Progress
    decreases |rounds|
  {
    if rounds == [] then p
    else
      var q := Tried(p, rounds[0].ready);
      if q.waiting == {} then q else Play(rounds[1..], Chosen(q, rounds[0].next))
  }

  /** In round i the channel takes the value. */
  ghost predicate TakesAt(rounds: seq<Round>, ch: Channel, i: nat) {
    i < |rounds| && (ch in rounds[i].ready || rounds[i].next == Takes(ch))
  }

  ghost predicate LeavesAt(rounds: seq<Round>, ch: Channel, i: nat) {
    i < |rounds| && rounds[i].next == Leaves(ch)
  }

  ghost predicate TakesOnce(rounds: seq<Round>, ch: Channel) {
    exists i: nat :: TakesAt(rounds, ch, i)
  }

  ghost predicate LeavesOnce(rounds: seq<Round>, ch: Channel) {
    exists i: nat :: LeavesAt(rounds, ch, i)
  }

  /** The channel takes the value in some round, and has not unsubscribed in a round before. */
  ghost predicate Willing(rounds: seq<Round>, ch: Channel) {
    exists i: nat :: TakesAt(rounds, ch, i) && forall j: nat :: j < i ==> !LeavesAt(rounds, ch, j)
  }

  ghost function Takers(rounds: seq<Round>, start: set<Channel>): set<Channel> {
    set ch | ch in start && Willing(rounds, ch)
  }

  /** Every waiting channel that takes the value before it leaves gets it; one that does neither keeps the Send waiting;
      and only who leaves is forgotten. */
  lemma {:induction false} PlayMeans(rounds: seq<Round>, p: Progress, ch: Channel)
    requires p.waiting <= p.subscribed && p.waiting !! p.got
    ensures var q := Play(rounds, p);
      && (ch in q.got <==> ch in p.got || (ch in p.waiting && Willing(rounds, ch)))
      && (ch in q.waiting <==> ch in p.waiting && !TakesOnce(rounds, ch) && !LeavesOnce(rounds, ch))
      && q.subscribed <= p.subscribed
      && (ch in p.subscribed && ch !in q.subscribed ==> LeavesOnce(rounds, ch))
      && (ch in p.waiting && ch !in q.waiting && ch !in q.got ==> ch !in q.subscribed)
      && q.waiting <= q.subscribed && q.waiting !! q.got
    decreases |rounds|
  {
    if rounds != [] {
      var q := Tried(p, rounds[0].ready);
      Later(rounds, ch);
      if q.waiting != {} {
        PlayMeans(rounds[1..], Chosen(q, rounds[0].next), ch);
      }
      hide Willing, Play, TakesOnce, LeavesOnce;
      assert Play(rounds, p) == if q.waiting == {} then q else Play(rounds[1..], Chosen(q, rounds[0].next));
    }
  }

  /** The rounds of a channel, the first one apart. */
  lemma Later(rounds: seq<Round>, ch: Channel)
    requires rounds != []
    ensures Willing(rounds, ch) <==>
      TakesAt(rounds, ch, 0) || (!LeavesAt(rounds, ch, 0) && Willing(rounds[1..], ch))
    ensures TakesOnce(rounds, ch) <==> TakesAt(rounds, ch, 0) || TakesOnce(rounds[1..], ch)
    ensures LeavesOnce(rounds, ch) <==> LeavesAt(rounds, ch, 0) || LeavesOnce(rounds[1..], ch)
  {
    var tail := rounds[1..];
    LaterWilling(rounds, ch);
    if TakesOnce(rounds, ch) {
      var i: nat :| TakesAt(rounds, ch, i);
      assert i > 0 ==> TakesAt(tail, ch, i - 1);
    }
    if TakesOnce(tail, ch) {
      var i: nat :| TakesAt(tail, ch, i);
      assert TakesAt(rounds, ch, i + 1);
    }
    if LeavesOnce(rounds, ch) {
      var i: nat :| LeavesAt(rounds, ch, i);
      assert i > 0 ==> LeavesAt(tail, ch, i - 1);
    }
    if LeavesOnce(tail, ch) {
      var i: nat :| LeavesAt(tail, ch, i);
      assert LeavesAt(rounds, ch, i + 1);
    }
  }

  lemma LaterWilling(rounds: seq<Round>, ch: Channel)
    requires rounds != []
    ensures Willing(rounds, ch) <==>
      TakesAt(rounds, ch, 0) || (!LeavesAt(rounds, ch, 0) && Willing(rounds[1..], ch))
  {
    var tail := rounds[1..];
    if Willing(rounds, ch) {
      var i: nat :| TakesAt(rounds, ch, i) && forall j: nat :: j < i ==> !LeavesAt(rounds, ch, j);
      if i > 0 {
        forall j: nat | j < i - 1 ensures !LeavesAt(tail, ch, j) {
          assert !LeavesAt(rounds, ch, j + 1);
        }
        assert TakesAt(tail, ch, i - 1);
      }
    }
    if !LeavesAt(rounds, ch, 0) && Willing(tail, ch) {
      var i: nat :| TakesAt(tail, ch, i) && forall j: nat :: j < i ==> !LeavesAt(tail, ch, j);
      forall j: nat | j < i + 1 ensures !LeavesAt(rounds, ch, j) {
        assert j > 0 ==> !LeavesAt(tail, ch, j - 1);
      }
      assert TakesAt(rounds, ch, i + 1);
    }
  }

  /** The state of the cases of a Send: the first m are those of the waiting channels. */
  ghost predicate Sending(cs: seq<Case>, m: nat, p: Progress) {
    && CaseList(cs) && FIRST_SUB_SEND_CASE <= m <= |cs| && p.waiting !! p.got
    && (forall ch :: SendTo(ch) in cs[..m] <==> ch in p.waiting)
    && (forall ch :: SendTo(ch) in cs <==> ch in p.subscribed)
  }

  class Feed {
    /** sendCases is the first size elements of the backing array, which a Send permutes in place. */
    var backing: array<Case>
    var size: nat
    var inbox: seq<Channel>
    /** What the channels have received. */
    var received: map<Channel, seq<Value>>

    ghost predicate Valid()
      reads this, backing
    {
      && size <= backing.Length && CaseList(backing[..size])
      && (forall i, j :: 0 <= i < j < |inbox| ==> inbox[i] != inbox[j])
      && (forall ch :: ch in inbox ==> ch !in Subscribed())
    }

    /** The channels in sendCases. */
    ghost function Subscribed(): set<Channel>
      requires size <= backing.Length
      reads this, backing
    {
      Channels(backing[..size])
    }

    constructor ()
      ensures Valid() && fresh(backing) && inbox == [] && Subscribed() == {} && received == map[]
    {
      backing := new Case[1](i => Removals);
      size, inbox, received := 1, [], map[];
    }

    /** Subscribe of a channel that is not subscribed yet. */
    method Subscribe(ch: Channel)
      requires Valid() && ch !in inbox && ch !in Subscribed()
      modifies this`inbox
      ensures Valid() && inbox == old(inbox) + [ch]
    {
      inbox := inbox + [ch];
    }

    /** caseList.find */
    method Find(ch: Channel) returns (index: int)
      requires size <= backing.Length
      ensures -1 <= index < size
      ensures if index == -1 then SendTo(ch) !in backing[..size] else backing[index] == SendTo(ch)
    {
      index := 0;
      while index < size
        invariant 0 <= index <= size && SendTo(ch) !in backing[..index]
      {
        if backing[index] == SendTo(ch) {
          return;
        }
        index := index + 1;
      }
      index := -1;
    }

    /** caseList.delete: moves everything behind the index down by one. */
    method Delete(index: nat)
      requires index < size <= backing.Length
      modifies this`size, backing
      ensures size == old(size) - 1 && backing[..size] == Dropped(old(backing[..size]), index)
    {
      var j := index;
      while j < size - 1
        invariant index <= j <= size - 1 && size == old(size)
        invariant forall k :: 0 <= k < index ==> backing[k] == old(backing[k])
        invariant forall k :: index <= k < j ==> backing[k] == old(backing[k + 1])
        invariant forall k :: j <= k < size ==> backing[k] == old(backing[k])
      {
        backing[j] := backing[j + 1];
        j := j + 1;
      }
      size := size - 1;
    }

    /** caseList.deactivate on the first m cases: swaps a case to their end, which the
        shrunk prefix no longer covers. */
    method Deactivate(index: nat, m: nat)
      requires index < m <= size <= backing.Length
      modifies backing
      ensures backing[..size] == Swapped(old(backing[..size]), index, m - 1)
    {
      backing[index], backing[m - 1] := backing[m - 1], backing[index];
    }

    /** remove when no Send is in progress: from the inbox, or else from the cases. */
    method Remove(ch: Channel)
      requires Valid() && (ch in inbox || ch in Subscribed())
      modifies this`inbox, this`size, backing
      ensures Valid() && Subscribed() == old(Subscribed()) - {ch}
      ensures forall c :: c in inbox <==> c in old(inbox) && c != ch
    {
      var i := 0;
      while i < |inbox|
        invariant 0 <= i <= |inbox| && ch !in inbox[..i]
      {
        if inbox[i] == ch {
          InboxWithout(inbox, i);
          inbox := inbox[..i] + inbox[i + 1..];
          return;
        }
        i := i + 1;
      }
      var index := Find(ch);
      ghost var cs := backing[..size];
      ChannelsAre(cs, ch);
      DeleteCase(cs, index);
      Delete(index);
    }

    /** Moves the inbox behind the cases. */
    method TakeInbox()
      requires Valid()
      modifies this`backing, this`size, this`inbox
      ensures Valid() && inbox == [] && fresh(backing)
      ensures Subscribed() == old(Subscribed()) + set ch | ch in old(inbox)
    {
      var cases := new Case[size + |inbox|](
        i requires 0 <= i < size + |inbox| && size <= backing.Length reads this, backing =>
        if i < size then backing[i] else SendTo(inbox[i - size]));
      ghost var cs := backing[..size];
      AppendCases(cs, inbox, cases[..]);
      backing, size, inbox := cases, size + |inbox|, [];
      assert backing[..size] == cases[..];
    }

    /** A channel takes the value. */
    method Deliver(ch: Channel, value: Value)
      modifies this`received
      ensures Gave(old(received), received, {ch}, value)
    {
      received := received[ch := ReceivedBy(received, ch) + [value]];
    }

    /** The fast path of Send: tries every active case once without blocking. */
    method TryAll(cases: nat, value: Value, ready: set<Channel>, ghost p: Progress) returns (m: nat, nsent: nat)
      requires size <= backing.Length && Sending(backing[..size], cases, p)
      modifies backing, this`received
      ensures Sending(backing[..size], m, Tried(p, ready)) && m <= cases
      ensures nsent == |Tried(p, ready).got| - |p.got|
      ensures Gave(old(received), received, p.waiting * ready, value)
    {
      hide *;
      m, nsent := cases, 0;
      ghost var done: set<Channel> := {};
      SendingBounds(backing[..size], m, p);
      TriedNone(p);
      NoneReadyYet(backing[..size], ready);
      GaveNone(received, value);
      var i: nat := FIRST_SUB_SEND_CASE;
      while i < m
        invariant FIRST_SUB_SEND_CASE <= i <= m <= cases && done <= p.waiting * ready
        invariant Sending(backing[..size], m, Tried(p, done)) && nsent == |Tried(p, done).got| - |p.got|
        invariant Gave(old(received), received, done, value)
        invariant NoneReady(backing[..size], i, ready)
        decreases m - i
      {
        ghost var cs := backing[..size];
        SendingCase(cs, m, Tried(p, done), i);
        var ch := backing[i].ch;
        if ch in ready {
          nsent := nsent + 1;
          TriedMore(p, done, ch);
          Delivered(cs, m, Tried(p, done), i);
          GaveMore(old(received), received, done, ch, value);
          NotYetReady(cs, i, m, ready);
          Deliver(ch, value);
          Deactivate(i, m);
          m, done := m - 1, done + {ch};
        } else {
          NotReady(cs, i, ready);
          i := i + 1;
        }
      }
      TriedAll(backing[..size], m, p, done, ready);
    }

    /** The blocking select of Send: an unsubscription, or a delivery to an active case. */
    method Select(cases: nat, value: Value, next: Choice, ghost p: Progress) returns (m: nat, nsent: nat)
      requires size <= backing.Length && Sending(backing[..size], cases, p)
      modifies this`size, backing, this`received
      ensures size <= backing.Length && Sending(backing[..size], m, Chosen(p, next))
      ensures nsent == |Chosen(p, next).got| - |p.got|
      ensures Gave(old(received), received, Chosen(p, next).got - p.got, value)
    {
      hide *;
      m, nsent := cases, 0;
      ghost var cs := backing[..size];
      SendingBounds(cs, m, p);
      GaveNone(received, value);
      var index := Find(next.ch);
      SendingFound(cs, m, p, next.ch, index);
      match next {
        case Leaves(ch) =>
          LeftIs(p, ch);
          if index != -1 {
            Removed(cs, m, p, index);
            Delete(index);
            if index < m {
              m := m - 1;
            }
          }
        case Takes(ch) =>
          TookIs(p, ch);
          if index != -1 && index < m {
            Delivered(cs, m, p, index);
            Deliver(ch, value);
            Deactivate(index, m);
            m, nsent := m - 1, 1;
          }
      }
    }

    /** Send, as far as the given rounds take it. Whatever the order of successful sends and of unsubscriptions,
        every channel subscribed at the start that takes the value before it leaves gets it once and nobody else
        does; the result counts them; the Send is finished when every channel has done one or the other, and only
        those that left are forgotten. */
    method Send(value: Value, rounds: seq<Round>) returns (nsent: nat, finished: bool)
      requires Valid()
      modifies this
      ensures Valid() && inbox == [] && fresh(backing)
      ensures var start := old(Subscribed() + set ch | ch in inbox);
        var end := Play(rounds, Progress(start, start, {}));
        && Subscribed() == end.subscribed && nsent == |end.got| && (finished <==> end.waiting == {})
        && Gave(old(received), received, end.got, value)
      ensures var start := old(Subscribed() + set ch | ch in inbox);
        && nsent == |Takers(rounds, start)|
        && Gave(old(received), received, Takers(rounds, start), value)
        && (finished <==> forall ch :: ch in start ==> TakesOnce(rounds, ch) || LeavesOnce(rounds, ch))
        && (forall ch :: ch in start && !LeavesOnce(rounds, ch) ==> ch in Subscribed())
        && Subscribed() <= start
      ensures var start := old(Subscribed() + set ch | ch in inbox);
        finished && (forall ch :: ch in start ==> !LeavesOnce(rounds, ch)) ==>
          nsent == |start| && Subscribed() == start && Gave(old(received), received, start, value)
    {
      hide *;
      TakeInbox();
      ghost var start := Subscribed();
      ghost var p := Progress(start, start, {});
      var m: nat := size;
      nsent := 0;
      ValidMeans();
      SendingStarts(backing[..size]);
      GaveNone(received, value);
      PlayStarts(rounds, start);
      var i := 0;
      while true
        invariant 0 <= i <= |rounds| && size <= backing.Length && Sending(backing[..size], m, p)
        invariant nsent == |p.got| && inbox == [] && fresh(backing)
        invariant Gave(old(received), received, p.got, value)
        invariant Play(rounds[i..], p) == Play(rounds, Progress(start, start, {}))
        decreases |rounds| - i
      {
        var sent;
        ghost var before, q := received, p;
        SendingBounds(backing[..size], m, p);
        if i < |rounds| {
          TriedGot(p, rounds[i].ready);
          m, sent := TryAll(m, value, rounds[i].ready, p);
          nsent := nsent + sent;
          p := Tried(p, rounds[i].ready);
          GaveBoth(old(received), before, received, q.got, p.got, value);
        }
        PlayStep(rounds, i, q);
        NoneWaiting(backing[..size], m, p);
        if m == FIRST_SUB_SEND_CASE {
          finished := true;
          break;
        }
        if i == |rounds| {
          finished := false;
          break;
        }
        before, q := received, p;
        ChosenGot(p, rounds[i].next);
        m, sent := Select(m, value, rounds[i].next, p);
        nsent := nsent + sent;
        p := Chosen(p, rounds[i].next);
        GaveBoth(old(received), before, received, q.got, p.got, value);
        i := i + 1;
      }
      SendingEnds(backing[..size], m, p);
      ValidMeans();
      Outcome(rounds, start, p);
    }

    lemma ValidMeans()
      requires size <= backing.Length
      ensures Subscribed() == Channels(backing[..size])
      ensures Valid() ==> CaseList(backing[..size])
      ensures CaseList(backing[..size]) && inbox == [] ==> Valid()
    {
    }
  }

  function Dropped(cs: seq<Case>, k: nat): seq<Case>
    requires k < |cs|
  {
    cs[..k] + cs[k + 1..]
  }

  function Swapped(cs: seq<Case>, i: nat, j: nat): seq<Case>
    requires i < |cs| && j < |cs|
  {
    cs[i := cs[j]][j := cs[i]]
  }

  // Received values

  lemma GaveNone(received: map<Channel, seq<Value>>, value: Value)
    ensures Gave(received, received, {}, value)
  {
  }

  lemma GaveMore(before: map<Channel, seq<Value>>, now: map<Channel, seq<Value>>, done: set<Channel>, ch: Channel,
                 value: Value)
    requires Gave(before, now, done, value) && ch !in done
    ensures forall after :: Gave(now, after, {ch}, value) ==> Gave(before, after, done + {ch}, value)
  {
  }

  lemma GaveBoth(a: map<Channel, seq<Value>>, b: map<Channel, seq<Value>>, c: map<Channel, seq<Value>>,
                 first: set<Channel>, both: set<Channel>, value: Value)
    requires Gave(a, b, first, value) && Gave(b, c, both - first, value) && first <= both
    ensures Gave(a, c, both, value)
  {
  }

  // The rounds of a Send

  lemma TriedNone(p: Progress)
    ensures Tried(p, {}) == p
  {
    assert p.waiting - {} == p.waiting && p.waiting * {} == {};
  }

  lemma TriedMore(p: Progress, done: set<Channel>, ch: Channel)
    requires p.waiting !! p.got && done <= p.waiting && ch in Tried(p, done).waiting
    ensures var q := Tried(p, done);
      && ch !in done && ch in p.waiting
      && Tried(p, done + {ch}) == Progress(q.waiting - {ch}, q.subscribed, q.got + {ch})
      && |Tried(p, done + {ch}).got| == |q.got| + 1
  {
    var q := Tried(p, done);
    assert p.waiting * (done + {ch}) == p.waiting * done + {ch};
    assert p.waiting - (done + {ch}) == p.waiting - done - {ch};
  }

  lemma TriedGot(p: Progress, ready: set<Channel>)
    requires p.waiting !! p.got
    ensures p.got <= Tried(p, ready).got && Tried(p, ready).got - p.got == p.waiting * ready
  {
  }

  lemma ChosenGot(p: Progress, next: Choice)
    ensures p.got <= Chosen(p, next).got
  {
  }

  lemma LeftIs(p: Progress, ch: Channel)
    ensures Chosen(p, Leaves(ch)) == Progress(p.waiting - {ch}, p.subscribed - {ch}, p.got)
    ensures Chosen(p, Leaves(ch)).got - p.got == {}
    ensures ch !in p.waiting && ch !in p.subscribed ==> Chosen(p, Leaves(ch)) == p
  {
  }

  lemma TookIs(p: Progress, ch: Channel)
    requires p.waiting !! p.got
    ensures if ch in p.waiting
      then
        var q := Chosen(p, Takes(ch));
        q == Progress(p.waiting - {ch}, p.subscribed, p.got + {ch}) && q.got - p.got == {ch} && |q.got| == |p.got| + 1
      else Chosen(p, Takes(ch)) == p && p.got - p.got == {}
  {
  }

  lemma PlayStarts(rounds: seq<Round>, start: set<Channel>)
    ensures Play(rounds[0..], Progress(start, start, {})) == Play(rounds, Progress(start, start, {}))
  {
    assert rounds[0..] == rounds;
  }

  lemma PlayStep(rounds: seq<Round>, i: nat, p: Progress)
    requires i <= |rounds|
    ensures Play(rounds[i..], p) ==
      if i == |rounds| then p
      else
        var q := Tried(p, rounds[i].ready);
        if q.waiting == {} then q else Play(rounds[i + 1..], Chosen(q, rounds[i].next))
  {
    assert i < |rounds| ==> rounds[i..][1..] == rounds[i + 1..];
  }

  /** The outcome of the rounds, channel by channel. */
  lemma Outcome(rounds: seq<Round>, start: set<Channel>, end: Progress)
    requires end == Play(rounds, Progress(start, start, {}))
    ensures end.got == Takers(rounds, start)
    ensures end.waiting == {} <==> forall ch :: ch in start ==> TakesOnce(rounds, ch) || LeavesOnce(rounds, ch)
    ensures forall ch :: ch in start && !LeavesOnce(rounds, ch) ==> ch in end.subscribed
    ensures end.subscribed <= start
    ensures end.waiting == {} && (forall ch :: ch in start ==> !LeavesOnce(rounds, ch)) ==>
      end.got == start && end.subscribed == start
  {
    hide Play, Willing, TakesOnce, LeavesOnce;
    forall ch
      ensures ch in end.got <==> ch in start && Willing(rounds, ch)
      ensures ch in end.waiting <==> ch in start && !TakesOnce(rounds, ch) && !LeavesOnce(rounds, ch)
      ensures ch in start && !LeavesOnce(rounds, ch) ==> ch in end.subscribed
      ensures ch in start && ch !in end.waiting && ch !in end.got ==> ch !in end.subscribed
    {
      PlayMeans(rounds, Progress(start, start, {}), ch);
    }
    PlayMeans(rounds, Progress(start, start, {}), 0);
  }

  // The steps of a Send on the sequence of cases

  lemma SendingBounds(cs: seq<Case>, m: nat, p: Progress)
    requires Sending(cs, m, p)
    ensures FIRST_SUB_SEND_CASE <= m <= |cs| && p.waiting !! p.got
  {
  }

  lemma SendingStarts(cs: seq<Case>)
    requires CaseList(cs)
    ensures Sending(cs, |cs|, Progress(Channels(cs), Channels(cs), {}))
  {
    assert cs[..|cs|] == cs;
    forall ch
      ensures SendTo(ch) in cs <==> ch in Channels(cs)
    {
      ChannelsAre(cs, ch);
    }
  }

  /** None of the cases before i is one of the ready channels. */
  ghost predicate NoneReady(cs: seq<Case>, i: nat, ready: set<Channel>) {
    i <= |cs| && forall j :: FIRST_SUB_SEND_CASE <= j < i ==> cs[j].SendTo? && cs[j].ch !in ready
  }

  lemma NoneReadyYet(cs: seq<Case>, ready: set<Channel>)
    requires |cs| >= FIRST_SUB_SEND_CASE
    ensures NoneReady(cs, FIRST_SUB_SEND_CASE, ready)
  {
  }

  lemma NotReady(cs: seq<Case>, i: nat, ready: set<Channel>)
    requires i < |cs| && NoneReady(cs, i, ready) && cs[i].SendTo? && cs[i].ch !in ready
    ensures NoneReady(cs, i + 1, ready)
  {
  }

  lemma NotYetReady(cs: seq<Case>, i: nat, m: nat, ready: set<Channel>)
    requires i < m <= |cs| && NoneReady(cs, i, ready)
    ensures NoneReady(Swapped(cs, i, m - 1), i, ready)
  {
  }

  lemma TriedAll(cs: seq<Case>, m: nat, p: Progress, done: set<Channel>, ready: set<Channel>)
    requires Sending(cs, m, Tried(p, done)) && NoneReady(cs, m, ready) && done <= p.waiting * ready
    ensures done == p.waiting * ready && Tried(p, done) == Tried(p, ready)
  {
    forall ch | ch in ready
      ensures SendTo(ch) !in cs[..m]
    {
    }
    assert done == p.waiting * ready;
    assert p.waiting - done == p.waiting - ready && p.waiting * done == p.waiting * ready;
  }

  lemma ChannelsAre(cs: seq<Case>, ch: Channel)
    ensures ch in Channels(cs) <==> SendTo(ch) in cs
  {
    if SendTo(ch) in cs {
      assert SendTo(ch).ch == ch;
    }
  }

  /** Every case but the first is a subscriber's. */
  lemma SendingCase(cs: seq<Case>, m: nat, p: Progress, i: nat)
    requires Sending(cs, m, p) && FIRST_SUB_SEND_CASE <= i < |cs|
    ensures cs[i].SendTo? && cs[i].ch in p.subscribed && (i < m ==> cs[i].ch in p.waiting) && p.waiting !! p.got
  {
    assert cs[0] != cs[i];
    assert cs[i] in cs && SendTo(cs[i].ch) == cs[i];
    assert i < m ==> cs[..m][i] == cs[i];
  }

  lemma SendingFound(cs: seq<Case>, m: nat, p: Progress, ch: Channel, index: int)
    requires Sending(cs, m, p) && -1 <= index < |cs|
    requires if index == -1 then SendTo(ch) !in cs else cs[index] == SendTo(ch)
    ensures index == -1 ==> ch !in p.subscribed && ch !in p.waiting
    ensures index != -1 ==> FIRST_SUB_SEND_CASE <= index && (index < m <==> ch in p.waiting)
  {
    if index == -1 {
      assert forall c :: c in cs[..m] ==> c in cs;
    } else {
      assert cs[0] == Removals;
      if index < m {
        assert cs[..m][index] == SendTo(ch);
      } else {
        assert forall j :: 0 <= j < m ==> cs[..m][j] == cs[j] != cs[index];
      }
    }
  }

  /** A delivery moves the case out of the active prefix. */
  lemma Delivered(cs: seq<Case>, m: nat, p: Progress, i: nat)
    requires Sending(cs, m, p) && FIRST_SUB_SEND_CASE <= i < m
    ensures cs[i].SendTo? && cs[i].ch in p.waiting
    ensures var ch := cs[i].ch;
      Sending(Swapped(cs, i, m - 1), m - 1, Progress(p.waiting - {ch}, p.subscribed, p.got + {ch}))
  {
    SendingCase(cs, m, p, i);
    var after, ch := Swapped(cs, i, m - 1), cs[i].ch;
    SwapPrefix(cs, i, m);
    forall c
      ensures SendTo(c) in after[..m - 1] <==> SendTo(c) in cs[..m] && c != ch
      ensures SendTo(c) in after <==> SendTo(c) in cs
    {
      SameMembers(cs, after, i, m - 1, SendTo(c));
    }
  }

  lemma SameMembers(cs: seq<Case>, after: seq<Case>, i: nat, j: nat, c: Case)
    requires i < |cs| && j < |cs| && after == Swapped(cs, i, j)
    ensures c in after <==> c in cs
  {
    if c in cs {
      var k :| 0 <= k < |cs| && cs[k] == c;
      assert after[if k == i then j else if k == j then i else k] == c;
    }
    if c in after {
      var k :| 0 <= k < |after| && after[k] == c;
      assert cs[if k == i then j else if k == j then i else k] == c;
    }
  }

  lemma SwapPrefix(cs: seq<Case>, i: nat, m: nat)
    requires CaseList(cs) && FIRST_SUB_SEND_CASE <= i < m <= |cs|
    ensures var after := Swapped(cs, i, m - 1);
      && CaseList(after)
      && (forall c :: c in after[..m - 1] <==> c in cs[..m] && c != cs[i])
      && (forall c :: c in after[m - 1..] <==> c in cs[m..] || c == cs[i])
  {
    var after := Swapped(cs, i, m - 1);
    assert CaseList(after);
    assert after[m - 1..] == [cs[i]] + cs[m..];
    forall c
      ensures c in after[..m - 1] <==> c in cs[..m] && c != cs[i]
    {
      SwapMember(cs, i, m, c);
    }
  }

  lemma SwapMember(cs: seq<Case>, i: nat, m: nat, c: Case)
    requires Distinct(cs) && i < m <= |cs|
    ensures c in Swapped(cs, i, m - 1)[..m - 1] <==> c in cs[..m] && c != cs[i]
  {
    var before, after := cs[..m], Swapped(cs, i, m - 1)[..m - 1];
    if c in before && c != cs[i] {
      var j :| 0 <= j < m && before[j] == c;
      assert after[if j == m - 1 then i else j] == c;
    }
    if c in after {
      var j :| 0 <= j < m - 1 && after[j] == c;
      assert before[if j == i then m - 1 else j] == c;
    }
  }

  /** A removal closes the gap; the active prefix shrinks just if the case was still active. */
  lemma Removed(cs: seq<Case>, m: nat, p: Progress, k: nat)
    requires Sending(cs, m, p) && FIRST_SUB_SEND_CASE <= k < |cs|
    ensures cs[k].SendTo?
    ensures var ch := cs[k].ch;
      Sending(Dropped(cs, k), if k < m then m - 1 else m, Progress(p.waiting - {ch}, p.subscribed - {ch}, p.got))
  {
    SendingCase(cs, m, p, k);
    var ch := cs[k].ch;
    DropPrefix(cs, k, m);
    SplitAround(cs, k);
    var after, n := Dropped(cs, k), if k < m then m - 1 else m;
    forall c
      ensures SendTo(c) in after[..n] <==> SendTo(c) in cs[..m] && c != ch
      ensures SendTo(c) in after <==> SendTo(c) in cs && c != ch
    {
      assert SendTo(c) == cs[k] <==> c == ch;
    }
  }

  lemma DropPrefix(cs: seq<Case>, k: nat, m: nat)
    requires CaseList(cs) && FIRST_SUB_SEND_CASE <= k < |cs| && FIRST_SUB_SEND_CASE <= m <= |cs|
    ensures var after := Dropped(cs, k); var n := if k < m then m - 1 else m;
      && CaseList(after)
      && (forall c :: c in after[..n] <==> c in cs[..m] && c != cs[k])
      && (forall c :: c in after[n..] <==> c in cs[m..] && c != cs[k])
  {
    var after, n := Dropped(cs, k), if k < m then m - 1 else m;
    if k < m {
      assert after[..n] == cs[..k] + cs[k + 1..m] && after[n..] == cs[m..];
      SplitAround(cs[..m], k);
      assert cs[..m][..k] == cs[..k] && cs[..m][k + 1..] == cs[k + 1..m];
    } else {
      assert after[..n] == cs[..m] && after[n..] == cs[m..k] + cs[k + 1..];
      SplitAround(cs[m..], k - m);
      assert cs[m..][..k - m] == cs[m..k] && cs[m..][k - m + 1..] == cs[k + 1..];
    }
  }

  lemma SplitAround(s: seq<Case>, k: nat)
    requires k < |s| && Distinct(s)
    ensures forall c :: c in s[..k] + s[k + 1..] <==> c in s && c != s[k]
  {
    forall c
      ensures c in s[..k] + s[k + 1..] <==> c in s && c != s[k]
    {
      if c in s && c != s[k] {
        var j :| 0 <= j < |s| && s[j] == c;
        assert if j < k then s[..k][j] == c else s[k + 1..][j - k - 1] == c;
      }
      if c in s[..k] {
        var j :| 0 <= j < k && s[j] == c;
      }
      if c in s[k + 1..] {
        var j :| 0 <= j < |s| - k - 1 && s[k + 1..][j] == c;
        assert s[j + k + 1] == c;
      }
    }
  }

  lemma NoneWaiting(cs: seq<Case>, m: nat, p: Progress)
    requires Sending(cs, m, p)
    ensures FIRST_SUB_SEND_CASE <= m <= |cs| && p.waiting !! p.got
    ensures m == FIRST_SUB_SEND_CASE <==> p.waiting == {}
  {
    if m == FIRST_SUB_SEND_CASE {
      assert cs[..m] == [Removals];
    } else {
      SendingCase(cs, m, p, FIRST_SUB_SEND_CASE);
    }
  }

  lemma SendingEnds(cs: seq<Case>, m: nat, p: Progress)
    requires Sending(cs, m, p)
    ensures CaseList(cs) && Channels(cs) == p.subscribed
  {
    forall ch
      ensures ch in Channels(cs) <==> ch in p.subscribed
    {
      ChannelsAre(cs, ch);
    }
  }

  // Subscriptions

  lemma InboxWithout(inbox: seq<Channel>, i: nat)
    requires i < |inbox| && forall j, k :: 0 <= j < k < |inbox| ==> inbox[j] != inbox[k]
    ensures var after := inbox[..i] + inbox[i + 1..];
      && (forall j, k :: 0 <= j < k < |after| ==> after[j] != after[k])
      && (forall c :: c in after <==> c in inbox && c != inbox[i])
  {
    var after := inbox[..i] + inbox[i + 1..];
    forall c
      ensures c in after <==> c in inbox && c != inbox[i]
    {
      if c in inbox && c != inbox[i] {
        var j :| 0 <= j < |inbox| && inbox[j] == c;
        assert after[if j < i then j else j - 1] == c;
      }
      if c in after {
        var j :| 0 <= j < |after| && after[j] == c;
        assert inbox[if j < i then j else j + 1] == c;
      }
    }
  }

  lemma DeleteCase(cs: seq<Case>, index: nat)
    requires CaseList(cs) && index < |cs| && cs[index].SendTo?
    ensures var after := Dropped(cs, index);
      CaseList(after) && Channels(after) == Channels(cs) - {cs[index].ch}
  {
    var after := Dropped(cs, index);
    SplitAround(cs, index);
    forall ch
      ensures ch in Channels(after) <==> ch in Channels(cs) && ch != cs[index].ch
    {
      ChannelsAre(cs, ch);
      ChannelsAre(after, ch);
      assert SendTo(ch) == cs[index] <==> ch == cs[index].ch;
    }
  }

  lemma AppendCases(cs: seq<Case>, inbox: seq<Channel>, after: seq<Case>)
    requires CaseList(cs) && |after| == |cs| + |inbox|
    requires forall i, j :: 0 <= i < j < |inbox| ==> inbox[i] != inbox[j]
    requires forall ch :: ch in inbox ==> ch !in Channels(cs)
    requires forall i :: 0 <= i < |after| ==> after[i] == if i < |cs| then cs[i] else SendTo(inbox[i - |cs|])
    ensures CaseList(after) && Channels(after) == Channels(cs) + set ch | ch in inbox
  {
    forall ch
      ensures SendTo(ch) in after <==> SendTo(ch) in cs || ch in inbox
    {
      if SendTo(ch) in cs {
        var i :| 0 <= i < |cs| && cs[i] == SendTo(ch);
        assert after[i] == SendTo(ch);
      }
      if ch in inbox {
        var i :| 0 <= i < |inbox| && inbox[i] == ch;
        assert after[|cs| + i] == SendTo(ch);
      }
    }
    forall ch
      ensures ch in Channels(after) <==> ch in Channels(cs) || ch in inbox
    {
      ChannelsAre(cs, ch);
      ChannelsAre(after, ch);
    }
    forall i, j | 0 <= i < j < |after|
      ensures after[i] != after[j]
    {
      if i < |cs| <= j {
        assert inbox[j - |cs|] in inbox;
        ChannelsAre(cs, inbox[j - |cs|]);
        assert cs[i] in cs;
      }
    }
  }
}
