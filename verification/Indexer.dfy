/** core/chain_indexer.go: sections indexed by a loop that works outside the lock, racing
    with reorgs and a checkpoint. */
module Indexer {
  import opened Numbers
  import opened Ancestry

  /** How many whole sections there are in a number of blocks. */
  function Sections(blocks: nat, size: nat): nat
    requires size >= 1
  {
    blocks / size
  }

  function Blocks(sections: nat, size: nat): nat {
    sections * size
  }

  /** The headers that can ever be read: a hash has one header, and only a first block has no parent. */
  ghost predicate Readable(headers: Headers) {
    forall h :: h in headers ==>
      headers[h].hash == h != NO_HASH && (headers[h].number > 0 ==> headers[h].parent != NO_HASH)
  }

  /** A block is reached from another by going up exactly n parent links. */
  ghost predicate Links(headers: Headers, from: Hash, to: Hash, n: nat)
    decreases n
  {
    if n == 0 then to == from else to in headers && Links(headers, from, headers[to].parent, n - 1)
  }

  /** The record of a section, empty if there is none. */
  function HeadAt(heads: map<nat, Hash>, section: int): Hash {
    if section >= 0 && section in heads then heads[section] else NO_HASH
  }

  /** A section head is one section of links above the head before it, and the last block of its section. */
  ghost predicate Grown(headers: Headers, size: nat, heads: map<nat, Hash>, i: nat) {
    && i in heads && (i > 0 ==> i - 1 in heads)
    && Links(headers, HeadAt(heads, i - 1), heads[i], size)
    && heads[i] in headers && headers[heads[i]].number == (i + 1) * size - 1
  }

  ghost predicate AllGrown(headers: Headers, size: nat, heads: map<nat, Hash>, sections: set<nat>) {
    forall i :: i in sections ==> Grown(headers, size, heads, i)
  }

  function Truncated(heads: map<nat, Hash>, sections: nat): map<nat, Hash> {
    map i | i in heads && i < sections :: heads[i]
  }

  /** What other goroutines do while the update loop does not hold the lock. A head notification carries the canonical
      hash that it reads to verify the checkpoint. */
  datatype Event = NewHead(head: nat, reorg: bool, synced: Hash) | Checkpoint(section: nat, shead: Hash)

  /** What the indexer has on record. */
  datatype State = State(stored: nat, known: nat, cascaded: nat, checkpointSections: nat, checkpointHead: Hash,
                         heads: map<nat, Hash>)

  /** A new head makes known the sections with all their confirmations, if the chain matches the checkpoint; a reorg
      takes back what is above it, but no stored section below the checkpoint. */
  ghost function OnHead(size: nat, confirmsReq: nat, s: State, head: nat, reorg: bool, synced: Hash): State
    requires size >= 1
  {
    if reorg then
      var reached := Sections(head, size);
      var known := if reached < s.checkpointSections then 0 else reached;
      var floor := if reached < s.checkpointSections then s.checkpointSections else reached;
      var t := s.(known := Min(s.known, known), cascaded := Min(s.cascaded, Blocks(known, size)));
      if floor < s.stored then t.(stored := floor, heads := Truncated(s.heads, floor)) else t
    else
      var confirmed := if head < confirmsReq then 0 else Sections(head + 1 - confirmsReq, size);
      if confirmed > s.known && confirmed >= s.checkpointSections
         && (s.known >= s.checkpointSections || synced == s.checkpointHead)
      then s.(known := confirmed)
      else s
  }

  ghost function OnCheckpoint(s: State, section: nat, shead: Hash): State {
    var t := s.(checkpointSections := section + 1, checkpointHead := shead);
    if section < s.stored then t else t.(stored := section + 1, heads := s.heads[section := shead])
  }

  ghost function After(size: nat, confirmsReq: nat, s: State, e: Event): State
    requires size >= 1
  {
    match e
    case NewHead(head, reorg, synced) => OnHead(size, confirmsReq, s, head, reorg, synced)
    case Checkpoint(section, shead) => OnCheckpoint(s, section, shead)
  }

  /** What events do one after the other. */
  ghost function AfterAll(size: nat, confirmsReq: nat, s: State, events: seq<Event>): State
    requires size >= 1
    decreases |events|
  {
    if events == [] then s
    else After(size, confirmsReq, AfterAll(size, confirmsReq, s, events[..|events| - 1]), events[|events| - 1])
  }

  class ChainIndexer {
    const headers: Headers
    const sectionSize: nat
    const confirmsReq: nat
    var storedSections: nat
    var knownSections: nat
    var cascadedHead: nat
    var checkpointSections: nat
    var checkpointHead: Hash
    var heads: map<nat, Hash>
    /** The sections whose heads the update loop has written. */
    ghost var indexed: set<nat>
    /** The heads that checkpoints have given. */
    ghost var given: map<nat, Hash>

    /** Section heads exist only below the stored sections, and each was given by a checkpoint or written by the loop,
        and then it is linked to its predecessor. */
    ghost predicate Valid()
      reads this`storedSections, this`heads, this`indexed, this`given
    {
      && Readable(headers) && sectionSize >= 1
      && (forall i :: i in heads ==> i < storedSections)
      && AllGrown(headers, sectionSize, heads, indexed)
      && (forall i :: i in heads ==> Explained(heads, indexed, given, i))
    }

    ghost function Now(): State
      reads this
    {
      State(storedSections, knownSections, cascadedHead, checkpointSections, checkpointHead, heads)
    }

    constructor (headers: Headers, sectionSize: nat, confirmsReq: nat)
      requires Readable(headers) && sectionSize >= 1
      ensures Valid() && heads == map[] && given == map[] && storedSections == 0
    {
      this.headers, this.sectionSize, this.confirmsReq := headers, sectionSize, confirmsReq;
      storedSections, knownSections, cascadedHead, checkpointSections, checkpointHead := 0, 0, 0, 0, NO_HASH;
      heads, indexed, given := map[], {}, map[];
    }

    /** setValidSections: removes the heads from the top down to the given number of sections. */
    method SetValidSections(sections: nat)
      requires Readable(headers) && sectionSize >= 1 && AllGrown(headers, sectionSize, heads, indexed)
      requires forall i :: i in heads ==> i < storedSections || i < sections
      requires forall i :: i in heads && i < sections ==> Explained(heads, indexed, given, i)
      modifies this`storedSections, this`heads, this`indexed
      ensures Valid() && storedSections == sections && heads == Truncated(old(heads), sections)
      ensures indexed == set i | i in old(indexed) && i < sections
    {
      while storedSections > sections
        invariant indexed == old(indexed)
        invariant heads == Truncated(old(heads), if storedSections > sections then storedSections else sections)
        decreases storedSections
      {
        storedSections := storedSections - 1;
        heads := heads - {storedSections};
      }
      storedSections := sections;
      indexed := set i | i in indexed && i < sections;
      TruncatedGrown(headers, sectionSize, old(heads), old(indexed), sections);
      hide AllGrown, Grown, Links;
    }

    /** AddCheckpoint */
    method AddCheckpoint(section: nat, shead: Hash)
      requires Valid()
      modifies this`checkpointSections, this`checkpointHead, this`storedSections, this`heads, this`indexed, this`given
      ensures Valid() && checkpointSections == section + 1 && checkpointHead == shead && indexed == old(indexed)
      ensures if section < old(storedSections)
        then storedSections == old(storedSections) && heads == old(heads) && given == old(given)
        else
          && storedSections == section + 1 && heads == old(heads)[section := shead]
          && given == old(given)[section := shead]
      ensures Now() == OnCheckpoint(old(Now()), section, shead)
    {
      checkpointSections, checkpointHead := section + 1, shead;
      if section < storedSections {
        return;
      }
      CheckpointGrown(headers, sectionSize, heads, indexed, section, shead);
      heads, given := heads[section := shead], given[section := shead];
      ghost var kept := heads;
      SetValidSections(section + 1);
      assert Truncated(kept, section + 1) == kept;
      assert indexed == old(indexed);
    }

    /** newHead: a reorg takes back the sections above the common block, but never below the checkpoint. */
    method HandleHead(head: nat, reorg: bool, synced: Hash)
      requires Valid()
      modifies this`knownSections, this`cascadedHead, this`storedSections, this`heads, this`indexed
      ensures Valid()
      ensures var reached := Sections(head, sectionSize);
        var floor := if reached < checkpointSections then checkpointSections else reached;
        if reorg && floor < old(storedSections)
        then
          && storedSections == floor && heads == Truncated(old(heads), floor)
          && indexed == set i | i in old(indexed) && i < floor
        else storedSections == old(storedSections) && heads == old(heads) && indexed == old(indexed)
      ensures reorg ==>
        var reached := if Sections(head, sectionSize) < checkpointSections then 0 else Sections(head, sectionSize);
        && knownSections == Min(old(knownSections), reached)
        && cascadedHead == Min(old(cascadedHead), Blocks(reached, sectionSize))
      ensures !reorg ==> cascadedHead == old(cascadedHead)
      ensures !reorg && knownSections != old(knownSections) ==>
        && checkpointSections <= knownSections && old(knownSections) < knownSections
        && knownSections * sectionSize + confirmsReq <= head + 1 < (knownSections + 1) * sectionSize + confirmsReq
      ensures !reorg ==>
        var confirmed := if head < confirmsReq then 0 else Sections(head + 1 - confirmsReq, sectionSize);
        knownSections == if confirmed > old(knownSections) && confirmed >= checkpointSections
                            && (old(knownSections) >= checkpointSections || synced == checkpointHead)
                         then confirmed else old(knownSections)
      ensures Now() == OnHead(sectionSize, confirmsReq, old(Now()), head, reorg, synced)
    {
      if reorg {
        var known := head / sectionSize;
        var stored := known;
        if known < checkpointSections {
          known := 0;
        }
        if stored < checkpointSections {
          stored := checkpointSections;
        }
        if known < knownSections {
          knownSections := known;
        }
        if stored < storedSections {
          SetValidSections(stored);
        }
        if known * sectionSize < cascadedHead {
          cascadedHead := known * sectionSize;
        }
        return;
      }
      if head >= confirmsReq {
        var sections := (head + 1 - confirmsReq) / sectionSize;
        if sections < checkpointSections {
          sections := 0;
        }
        if sections > knownSections {
          if knownSections < checkpointSections && synced != checkpointHead {
            return;
          }
          SectionCount(head + 1 - confirmsReq, sectionSize);
          knownSections := sections;
        }
      }
    }

    /** Everything other goroutines do at one point, in order. */
    method Others(events: seq<Event>)
      requires Valid()
      modifies this
      ensures Valid() && (events == [] ==> unchanged(this))
      ensures GivenBy(old(given), given, set e | e in events)
      ensures Now() == AfterAll(sectionSize, confirmsReq, old(Now()), events)
    {
      hide Grown, AllGrown, Links, Readable, OnHead, OnCheckpoint, AfterAll;
      NoneAfter(sectionSize, confirmsReq, Now(), events);
      for i := 0 to |events|
        invariant Valid() && (events == [] ==> unchanged(this))
        invariant GivenBy(old(given), given, set e | e in events)
        invariant Now() == AfterAll(sectionSize, confirmsReq, old(Now()), events[..i])
      {
        assert events[i] in events;
        NextAfter(sectionSize, confirmsReq, old(Now()), events, i);
        match events[i] {
          case NewHead(head, reorg, synced) => HandleHead(head, reorg, synced);
          case Checkpoint(section, shead) => AddCheckpoint(section, shead);
        }
      }
    }

    /** processSection, without the lock: at every read the canonical chain may be another one, a header may be
        missing, and other goroutines may have acted. It succeeds just if the backend does and the blocks read form
        one chain from the given head. */
    method ProcessSection(section: nat, oldHead: Hash, answers: seq<Hash>, schedule: seq<seq<Event>>, backend: Backend)
      returns (ok: bool, newHead: Hash, ghost passed: nat)
      requires Valid() && |answers| == sectionSize && |schedule| == sectionSize
      modifies this
      ensures Valid()
      ensures ok <==>
        && !backend.resetFails
        && backend.failsAt >= sectionSize
        && ReadsChain(headers, oldHead, answers, Blocks(section, sectionSize))
      ensures ok ==> newHead == answers[sectionSize - 1]
      ensures !backend.resetFails && Quiet(schedule) ==> unchanged(this)
      ensures GivenBy(old(given), given, EventsOf(schedule))
      ensures Stopped(headers, oldHead, answers, Blocks(section, sectionSize), backend, passed)
      ensures Now() == AfterAll(sectionSize, confirmsReq, ResetTo(old(Now()), backend), Flat(schedule, passed))
    {
      hide AfterAll, Flat, After;
      var lastHead := oldHead;
      passed := 0;
      NoneAfter(sectionSize, confirmsReq, ResetTo(Now(), backend), []);
      NoEvents(schedule);
      if backend.resetFails {
        SetValidSections(0);
        assert heads == map[];
        return false, NO_HASH, 0;
      }
      var k := 0;
      while k < sectionSize
        invariant 0 <= k <= sectionSize && k <= backend.failsAt && Valid()
        invariant ReadsChain(headers, oldHead, answers[..k], Blocks(section, sectionSize))
        invariant lastHead == if k == 0 then oldHead else answers[k - 1]
        invariant Quiet(schedule) ==> unchanged(this)
        invariant GivenBy(old(given), given, EventsOf(schedule))
        invariant Now() == AfterAll(sectionSize, confirmsReq, old(Now()), Flat(schedule, k))
      {
        ghost var before, s := given, Now();
        Others(schedule[k]);
        MoreEvents(sectionSize, confirmsReq, old(Now()), schedule, k, s);
        GivenMore(old(given), before, given, schedule, k);
        var hash := answers[k];
        ReadsMore(headers, oldHead, answers, Blocks(section, sectionSize), k);
        if hash == NO_HASH {
          return false, NO_HASH, k + 1;
        }
        var header := GetHeader(headers, hash, Blocks(section, sectionSize) + k);
        if header.None? || header.value.parent != lastHead {
          return false, NO_HASH, k + 1;
        }
        if k == backend.failsAt {
          return false, NO_HASH, k + 1;
        }
        lastHead := header.value.hash;
        k := k + 1;
      }
      assert answers[..k] == answers;
      return true, lastHead, k;
    }

    /** The end of a successful turn: records the section's head and counts the section. */
    method StoreHead(section: nat, newHead: Hash)
      requires Valid() && Links(headers, HeadAt(heads, section - 1), newHead, sectionSize)
      requires section > 0 ==> HeadAt(heads, section - 1) != NO_HASH
      requires newHead in headers && headers[newHead].number == Blocks(section + 1, sectionSize) - 1
      modifies this`heads, this`indexed, this`storedSections, this`cascadedHead
      ensures Valid() && storedSections == section + 1 && section in indexed
      ensures Now() == Stored(old(Now()), section, newHead, sectionSize)
      ensures old(storedSections) == section ==>
        heads == old(heads)[section := newHead] && indexed == old(indexed) + {section}
    {
      hide AllGrown, Grown, Links, Readable, HeadAt;
      SectionGrown(headers, sectionSize, heads, indexed, section, newHead);
      WholeBelow(headers, sectionSize, heads, indexed, storedSections, section, newHead);
      ghost var rest := set i | i in indexed && i < section;
      heads, indexed := heads[section := newHead], rest + {section};
      SetValidSections(section + 1);
      cascadedHead := Blocks(storedSections, sectionSize) - 1;
    }

    /** The end of a turn, under the lock again: the section is stored if it was processed and the head that it
        was grown from is in place. */
    method Finish(section: nat, oldHead: Hash, ok: bool, newHead: Hash)
      requires Valid() && (section == 0 ==> oldHead == NO_HASH)
      requires ok ==> Links(headers, oldHead, newHead, sectionSize) && (section > 0 ==> oldHead != NO_HASH)
      requires ok ==> newHead in headers && headers[newHead].number == Blocks(section + 1, sectionSize) - 1
      modifies this`heads, this`indexed, this`storedSections, this`cascadedHead, this`knownSections
      ensures Valid()
      ensures Now() == if ok && HeadAt(old(heads), section - 1) == oldHead
        then Stored(old(Now()), section, newHead, sectionSize)
        else old(Now()).(known := old(storedSections))
      ensures ok && HeadAt(old(heads), section - 1) == oldHead ==> section in indexed
      ensures ok && HeadAt(old(heads), section - 1) == oldHead && old(storedSections) == section ==>
        indexed == old(indexed) + {section}
    {
      hide *;
      ValidMeans();
      NowIs();
      if ok && oldHead == HeadAt(heads, section - 1) {
        StoreHead(section, newHead);
      } else {
        knownSections := storedSections;
        NowIs();
      }
    }

    /** One turn of the update loop: a section's head is written only if the head it was
        grown from is still in place. */
    method Update(answers: seq<Hash>, schedule: seq<seq<Event>>, backend: Backend) returns (ghost passed: nat)
      requires Valid() && |answers| == sectionSize && |schedule| == sectionSize + 1
      modifies this
      ensures Valid() && GivenBy(old(given), given, EventsOf(schedule))
      ensures old(knownSections <= storedSections) ==> unchanged(this)
      ensures old(knownSections > storedSections) ==>
        Turned(headers, sectionSize, confirmsReq, old(Now()), answers, schedule, backend, passed, Now())
      ensures old(knownSections > storedSections) && knownSections != storedSections ==> old(storedSections) in indexed
      ensures old(knownSections > storedSections) && Quiet(schedule) && !backend.resetFails ==>
        var section := old(storedSections);
        if backend.failsAt >= sectionSize
           && ReadsChain(headers, old(HeadAt(heads, storedSections - 1)), answers, Blocks(section, sectionSize))
        then
          && storedSections == section + 1 && heads == old(heads)[section := answers[sectionSize - 1]]
          && indexed == old(indexed) + {section}
        else storedSections == section && heads == old(heads) && knownSections == section
    {
      hide *;
      if knownSections <= storedSections {
        GivenNone(given, EventsOf(schedule));
        return 0;
      }
      ghost var s := Now();
      NowIs();
      ValidMeans();
      HeadBelow(heads);
      if Quiet(schedule) { QuietMeans(schedule); }
      var section: nat := storedSections;
      var oldHead := if section > 0 then HeadAt(heads, section - 1) else NO_HASH;
      var ok, newHead;
      ok, newHead, passed := ProcessSection(section, oldHead, answers, schedule[..sectionSize], backend);
      StoppedBy(headers, oldHead, answers, Blocks(section, sectionSize), backend, passed);
      ghost var before, s1 := given, Now();
      Others(schedule[sectionSize]);
      EventsJoined(sectionSize, confirmsReq, ResetTo(s, backend), schedule, passed, s1);
      GivenSooner(old(given), before, schedule);
      GivenMore(old(given), before, given, schedule, sectionSize);
      if ok {
        ChainIsLinked(headers, oldHead, answers, section, sectionSize);
      }
      ghost var s2 := Now();
      NowIs();
      Finish(section, oldHead, ok, newHead);
      NowIs();
      TurnIs(headers, sectionSize, confirmsReq, s, answers, schedule, backend, passed, s2, Now());
      if Quiet(schedule) && !backend.resetFails {
        QuietTurn(headers, sectionSize, confirmsReq, s, answers, schedule, backend, passed, Now());
      }
    }

    lemma NowIs()
      ensures Now() ==
        State(storedSections, knownSections, cascadedHead, checkpointSections, checkpointHead, heads)
    {
    }

    lemma ValidMeans()
      requires Valid()
      ensures Readable(headers) && sectionSize >= 1 && forall i :: i in heads ==> i < storedSections
    {
    }

    /** Every interleaving: turns of the update loop and the other goroutines' events in any order. The states are
        those after each step. Afterwards every section head is linked to the one before, or came with a
        checkpoint that was announced. */
    method Run(steps: seq<Step>) returns (ghost states: seq<State>)
      requires Valid() && forall i :: 0 <= i < |steps| && steps[i].Turn? ==>
        |steps[i].answers| == sectionSize && |steps[i].schedule| == sectionSize + 1
      modifies this
      ensures Valid() && GivenBy(old(given), given, AllEvents(steps))
      ensures old(given) == map[] ==> forall i :: i in heads ==>
        Grown(headers, sectionSize, heads, i) || Checkpoint(i, heads[i]) in AllEvents(steps)
      ensures |states| == |steps| + 1 && states[0] == old(Now()) && states[|steps|] == Now()
      ensures forall i :: 0 <= i < |steps| ==>
        Stepped(headers, sectionSize, confirmsReq, states[i], steps[i], states[i + 1])
    {
      hide AfterAll, After, Turned;
      states := [Now()];
      GivenNone(given, AllEvents(steps));
      for i := 0 to |steps|
        invariant Valid() && GivenBy(old(given), given, AllEvents(steps))
        invariant |states| == i + 1 && states[0] == old(Now()) && states[i] == Now()
        invariant forall k :: 0 <= k < i ==>
          Stepped(headers, sectionSize, confirmsReq, states[k], steps[k], states[k + 1])
      {
        ghost var before, s := given, Now();
        EventsIn(steps, i);
        match steps[i] {
          case Turn(answers, schedule, backend) =>
            ghost var passed := Update(answers, schedule, backend);
            TurnStepped(headers, sectionSize, confirmsReq, s, steps[i], passed, Now());
          case Other(event) =>
            Others([event]);
            NextAfter(sectionSize, confirmsReq, s, [event], 0);
            NoneAfter(sectionSize, confirmsReq, s, [event]);
            assert [event][..1] == [event];
        }
        states := states + [Now()];
        GivenTransitive(old(given), before, given, AllEvents(steps));
      }
    }
  }

  // What a turn does

  /** A backend that cannot be reset costs all sections. */
  ghost function ResetTo(s: State, backend: Backend): State {
    if backend.resetFails then s.(stored := 0, heads := map[]) else s
  }

  /** The events of the first n reads. */
  ghost function Flat(schedule: seq<seq<Event>>, n: nat): seq<Event>
    requires n <= |schedule|
  {
    if n == 0 then [] else Flat(schedule, n - 1) + schedule[n - 1]
  }

  /** After n reads the section was done, or the last of them was the first that did not fit or was not processed. */
  ghost predicate Stopped(headers: Headers, from: Hash, answers: seq<Hash>, number: nat, backend: Backend, n: nat) {
    if backend.resetFails then n == 0
    else
      && n <= |answers| && (n == 0 ==> answers == [])
      && (n > 0 ==> ReadsChain(headers, from, answers[..n - 1], number) && n - 1 <= backend.failsAt)
      && (n < |answers| ==> !ReadsChain(headers, from, answers[..n], number) || n - 1 == backend.failsAt)
  }

  /** A stored section: its head is on record, and nothing is above it. */
  ghost function Stored(s: State, section: nat, newHead: Hash, size: nat): State
    requires size >= 1
  {
    s.(stored := section + 1, cascaded := Blocks(section, size) + size - 1,
       heads := Truncated(s.heads[section := newHead], section + 1))
  }

  /** A turn of the update loop: whatever has happened by its end, the next section is stored if and only if it was read
      as one chain, the backend took it, and the head that it was grown from is in place. */
  ghost predicate Turned(headers: Headers, size: nat, confirmsReq: nat, s: State, answers: seq<Hash>,
                         schedule: seq<seq<Event>>, backend: Backend, passed: nat, s': State)
    requires size >= 1 && |answers| == size && |schedule| == size + 1
  {
    var section, from := s.stored, HeadAt(s.heads, s.stored - 1);
    && Stopped(headers, from, answers, Blocks(section, size), backend, passed) && passed <= size
    && var s2 := AfterAll(size, confirmsReq, ResetTo(s, backend), Flat(schedule, passed) + schedule[size]);
       if !backend.resetFails && backend.failsAt >= size
          && ReadsChain(headers, from, answers, Blocks(section, size)) && HeadAt(s2.heads, section - 1) == from
       then s' == Stored(s2, section, answers[size - 1], size)
       else s' == s2.(known := s2.stored)
  }

  /** One step of a run: a turn of the update loop, if there is a section to index, or an event. */
  ghost predicate Stepped(headers: Headers, size: nat, confirmsReq: nat, s: State, step: Step, s': State)
    requires size >= 1
  {
    match step
    case Turn(answers, schedule, backend) =>
      && |answers| == size && |schedule| == size + 1
      && if s.known <= s.stored then s' == s
         else exists passed: nat :: Turned(headers, size, confirmsReq, s, answers, schedule, backend, passed, s')
    case Other(event) => s' == After(size, confirmsReq, s, event)
  }

  lemma TurnStepped(headers: Headers, size: nat, confirmsReq: nat, s: State, step: Step, passed: nat, s': State)
    requires size >= 1 && step.Turn? && |step.answers| == size && |step.schedule| == size + 1
    requires if s.known <= s.stored then s' == s
      else Turned(headers, size, confirmsReq, s, step.answers, step.schedule, step.backend, passed, s')
    ensures Stepped(headers, size, confirmsReq, s, step, s')
  {
    hide Turned;
  }

  lemma TurnIs(headers: Headers, size: nat, confirmsReq: nat, s: State, answers: seq<Hash>, schedule: seq<seq<Event>>,
               backend: Backend, passed: nat, s2: State, s': State)
    requires size >= 1 && |answers| == size && |schedule| == size + 1 && passed <= size
    requires s2 == AfterAll(size, confirmsReq, ResetTo(s, backend), Flat(schedule, passed) + schedule[size])
    requires Stopped(headers, HeadAt(s.heads, s.stored - 1), answers, Blocks(s.stored, size), backend, passed)
    requires
      if !backend.resetFails && backend.failsAt >= size
         && ReadsChain(headers, HeadAt(s.heads, s.stored - 1), answers, Blocks(s.stored, size))
         && HeadAt(s2.heads, s.stored - 1) == HeadAt(s.heads, s.stored - 1)
      then s' == Stored(s2, s.stored, answers[size - 1], size)
      else s' == s2.(known := s2.stored)
    ensures Turned(headers, size, confirmsReq, s, answers, schedule, backend, passed, s')
  {
  }

  /** If nothing happens in between, the turn depends on the reads and the backend alone. */
  lemma QuietTurn(headers: Headers, size: nat, confirmsReq: nat, s: State, answers: seq<Hash>,
                  schedule: seq<seq<Event>>, backend: Backend, passed: nat, s': State)
    requires size >= 1 && |answers| == size && |schedule| == size + 1 && !backend.resetFails && Quiet(schedule)
    requires Turned(headers, size, confirmsReq, s, answers, schedule, backend, passed, s')
    requires forall i :: i in s.heads ==> i < s.stored
    ensures
      if backend.failsAt >= size && ReadsChain(headers, HeadAt(s.heads, s.stored - 1), answers, Blocks(s.stored, size))
      then
        && s'.stored == s.stored + 1 && s'.heads == s.heads[s.stored := answers[size - 1]]
        && s'.known == s.known
      else s'.stored == s.stored && s'.heads == s.heads && s'.known == s.stored
  {
    hide ReadsChain, Stopped, HeadAt, Blocks;
    QuietFlat(schedule, passed);
    assert Flat(schedule, passed) + schedule[size] == [];
    hide Flat;
  }

  /** Among the events there is no reorg below a section. */
  ghost predicate Undisturbed(events: seq<Event>, section: nat, size: nat)
    requires size >= 1
  {
    forall e :: e in events && e.NewHead? && e.reorg ==> Sections(e.head, size) >= section
  }

  /** Whatever new heads and checkpoints arrive and whatever reorgs there are above it, a section is stored just if it
      was read as one chain and the backend took it. */
  lemma UndisturbedTurn(headers: Headers, size: nat, confirmsReq: nat, s: State, answers: seq<Hash>,
                        schedule: seq<seq<Event>>, backend: Backend, passed: nat, s': State)
    requires size >= 1 && |answers| == size && |schedule| == size + 1 && passed <= size && !backend.resetFails
    requires Turned(headers, size, confirmsReq, s, answers, schedule, backend, passed, s')
    requires Undisturbed(Flat(schedule, passed) + schedule[size], s.stored, size)
    ensures backend.failsAt >= size
            && ReadsChain(headers, HeadAt(s.heads, s.stored - 1), answers, Blocks(s.stored, size)) ==>
      && s'.stored == s.stored + 1 && s.stored in s'.heads && s'.heads[s.stored] == answers[size - 1]
      && forall i :: i < s.stored ==> HeadAt(s'.heads, i) == HeadAt(s.heads, i)
  {
    hide ReadsChain, Stopped, Blocks, Flat, AfterAll;
    StaysInPlace(size, confirmsReq, s, Flat(schedule, passed) + schedule[size], s.stored);
  }

  lemma {:induction false} StaysInPlace(size: nat, confirmsReq: nat, s: State, events: seq<Event>, section: nat)
    requires size >= 1 && Undisturbed(events, section, size) && section <= s.stored
    ensures var t := AfterAll(size, confirmsReq, s, events);
      section <= t.stored && forall i :: i < section ==> HeadAt(t.heads, i) == HeadAt(s.heads, i)
    decreases |events|
  {
    if events != [] {
      var n := |events| - 1;
      assert forall e :: e in events[..n] ==> e in events;
      StaysInPlace(size, confirmsReq, s, events[..n], section);
      assert events[n] in events;
      hide AfterAll, Sections, Blocks, Min;
      NextAfter(size, confirmsReq, s, events, n);
      assert events[..n + 1] == events;
    }
  }

  lemma {:induction false} QuietFlat(schedule: seq<seq<Event>>, n: nat)
    requires Quiet(schedule) && n <= |schedule|
    ensures Flat(schedule, n) == []
  {
    if n > 0 {
      QuietFlat(schedule, n - 1);
    }
  }

  lemma StoppedBy(headers: Headers, from: Hash, answers: seq<Hash>, number: nat, backend: Backend, n: nat)
    requires Stopped(headers, from, answers, number, backend, n)
    ensures n <= |answers|
  {
  }

  lemma NoneAfter(size: nat, confirmsReq: nat, s: State, events: seq<Event>)
    requires size >= 1
    ensures AfterAll(size, confirmsReq, s, []) == s && events[..0] == [] && events[..|events|] == events
  {
  }

  lemma NextAfter(size: nat, confirmsReq: nat, s: State, events: seq<Event>, i: nat)
    requires size >= 1 && i < |events|
    ensures AfterAll(size, confirmsReq, s, events[..i + 1]) ==
      After(size, confirmsReq, AfterAll(size, confirmsReq, s, events[..i]), events[i])
  {
    assert events[..i + 1][..i] == events[..i];
  }

  lemma NoEvents(schedule: seq<seq<Event>>)
    ensures Flat(schedule, 0) == []
  {
  }

  lemma {:induction false} AfterBoth(size: nat, confirmsReq: nat, s: State, first: seq<Event>, next: seq<Event>)
    requires size >= 1
    ensures AfterAll(size, confirmsReq, s, first + next) ==
      AfterAll(size, confirmsReq, AfterAll(size, confirmsReq, s, first), next)
    decreases |next|
  {
    if next == [] {
      assert first + next == first;
    } else {
      var n := |next| - 1;
      AfterBoth(size, confirmsReq, s, first, next[..n]);
      assert (first + next)[..|first + next| - 1] == first + next[..n];
    }
  }

  lemma MoreEvents(size: nat, confirmsReq: nat, s: State, schedule: seq<seq<Event>>, k: nat, now: State)
    requires size >= 1 && k < |schedule| && now == AfterAll(size, confirmsReq, s, Flat(schedule, k))
    ensures AfterAll(size, confirmsReq, now, schedule[k]) == AfterAll(size, confirmsReq, s, Flat(schedule, k + 1))
  {
    AfterBoth(size, confirmsReq, s, Flat(schedule, k), schedule[k]);
  }

  lemma EventsJoined(size: nat, confirmsReq: nat, s: State, schedule: seq<seq<Event>>, passed: nat, now: State)
    requires size >= 1 && |schedule| == size + 1 && passed <= size
    requires now == AfterAll(size, confirmsReq, s, Flat(schedule[..size], passed))
    ensures AfterAll(size, confirmsReq, now, schedule[size]) ==
      AfterAll(size, confirmsReq, s, Flat(schedule, passed) + schedule[size])
  {
    FlatPrefix(schedule, size, passed);
    AfterBoth(size, confirmsReq, s, Flat(schedule, passed), schedule[size]);
  }

  lemma {:induction false} FlatPrefix(schedule: seq<seq<Event>>, m: nat, n: nat)
    requires n <= m <= |schedule|
    ensures Flat(schedule[..m], n) == Flat(schedule, n)
    decreases n
  {
    if n > 0 {
      FlatPrefix(schedule, m, n - 1);
    }
  }

  lemma HeadBelow(heads: map<nat, Hash>)
    ensures HeadAt(heads, -1) == NO_HASH
  {
  }

  lemma QuietMeans(schedule: seq<seq<Event>>)
    requires |schedule| > 0 && Quiet(schedule)
    ensures Quiet(schedule[..|schedule| - 1]) && schedule[|schedule| - 1] == []
  {
  }

  /** A section's head was written by the loop or given by a checkpoint. */
  ghost predicate Explained(heads: map<nat, Hash>, indexed: set<nat>, given: map<nat, Hash>, i: nat) {
    i in heads && (i in indexed || (i in given && given[i] == heads[i]))
  }

  /** What is given was given before, or comes from a checkpoint among the events. */
  ghost predicate GivenBy(before: map<nat, Hash>, after: map<nat, Hash>, events: set<Event>) {
    forall i :: i in after ==> (i in before && before[i] == after[i]) || Checkpoint(i, after[i]) in events
  }

  ghost function EventsOf(schedule: seq<seq<Event>>): set<Event> {
    set k, e | 0 <= k < |schedule| && e in schedule[k] :: e
  }

  ghost function AllEvents(steps: seq<Step>): set<Event> {
    set k, e | 0 <= k < |steps| && e in EventsAt(steps[k]) :: e
  }

  ghost function EventsAt(step: Step): set<Event> {
    if step.Turn? then EventsOf(step.schedule) else {step.event}
  }

  lemma GivenNone(a: map<nat, Hash>, events: set<Event>)
    ensures GivenBy(a, a, events)
  {
  }

  lemma GivenTransitive(a: map<nat, Hash>, b: map<nat, Hash>, c: map<nat, Hash>, events: set<Event>)
    ensures GivenBy(a, b, events) && GivenBy(b, c, events) ==> GivenBy(a, c, events)
  {
  }

  lemma GivenMore(a: map<nat, Hash>, b: map<nat, Hash>, c: map<nat, Hash>, schedule: seq<seq<Event>>, k: nat)
    requires k < |schedule| && GivenBy(a, b, EventsOf(schedule)) && GivenBy(b, c, set e | e in schedule[k])
    ensures GivenBy(a, c, EventsOf(schedule))
  {
    assert forall e :: e in schedule[k] ==> e in EventsOf(schedule);
  }

  lemma GivenSooner(a: map<nat, Hash>, b: map<nat, Hash>, schedule: seq<seq<Event>>)
    requires |schedule| > 0 && GivenBy(a, b, EventsOf(schedule[..|schedule| - 1]))
    ensures GivenBy(a, b, EventsOf(schedule))
  {
    var sooner := schedule[..|schedule| - 1];
    forall e | e in EventsOf(sooner)
      ensures e in EventsOf(schedule)
    {
      var k :| 0 <= k < |sooner| && e in sooner[k];
      assert e in schedule[k];
    }
  }

  /** The events of a step are events of the run. */
  lemma EventsIn(steps: seq<Step>, k: nat)
    requires k < |steps|
    ensures EventsAt(steps[k]) <= AllEvents(steps)
    ensures forall a, b :: GivenBy(a, b, EventsAt(steps[k])) ==> GivenBy(a, b, AllEvents(steps))
    ensures steps[k].Other? ==> EventsAt(steps[k]) == set e | e in [steps[k].event]
  {
    forall e | e in EventsAt(steps[k])
      ensures e in AllEvents(steps)
    {
    }
  }

  /** Whether the backend's Reset fails, and after how many headers its Process or Commit does,
      if before the section's end. */
  datatype Backend = Backend(resetFails: bool, failsAt: nat)

  datatype Step = Turn(answers: seq<Hash>, schedule: seq<seq<Event>>, backend: Backend) | Other(event: Event)

  /** Nothing happens in between. */
  ghost predicate Quiet(schedule: seq<seq<Event>>) {
    forall k :: 0 <= k < |schedule| ==> schedule[k] == []
  }

  /** The hashes read are stored headers with consecutive numbers, each the parent of the
      next, from the given head on. */
  ghost predicate ReadsChain(headers: Headers, from: Hash, answers: seq<Hash>, number: nat)
    decreases |answers|
  {
    answers == [] ||
    (var last := |answers| - 1;
     && answers[last] in headers && headers[answers[last]].number == number + last
     && headers[answers[last]].parent == (if last == 0 then from else answers[last - 1])
     && ReadsChain(headers, from, answers[..last], number))
  }

  lemma {:induction false} ReadsPrefix(headers: Headers, from: Hash, answers: seq<Hash>, number: nat, k: nat)
    requires k <= |answers| && ReadsChain(headers, from, answers, number)
    ensures ReadsChain(headers, from, answers[..k], number)
    decreases |answers|
  {
    if k == |answers| {
      assert answers[..k] == answers;
    } else {
      ReadsPrefix(headers, from, answers[..|answers| - 1], number, k);
      assert answers[..|answers| - 1][..k] == answers[..k];
    }
  }

  /** One more read extends the chain just if its header is there and has the last one as parent. */
  lemma ReadsMore(headers: Headers, from: Hash, answers: seq<Hash>, number: nat, k: nat)
    requires Readable(headers) && k < |answers| && ReadsChain(headers, from, answers[..k], number)
    ensures var header := GetHeader(headers, answers[k], number + k);
      ReadsChain(headers, from, answers[..k + 1], number) <==>
        header.Some? && header.value.parent == if k == 0 then from else answers[k - 1]
    ensures ReadsChain(headers, from, answers, number) ==> ReadsChain(headers, from, answers[..k + 1], number)
    ensures GetHeader(headers, answers[k], number + k).Some? ==>
      GetHeader(headers, answers[k], number + k).value.hash == answers[k] != NO_HASH
  {
    if ReadsChain(headers, from, answers, number) {
      ReadsPrefix(headers, from, answers, number, k + 1);
    }
    assert answers[..k + 1][..k] == answers[..k];
  }

  lemma {:induction false} ReadsLinked(headers: Headers, from: Hash, answers: seq<Hash>, number: nat)
    requires ReadsChain(headers, from, answers, number)
    ensures Links(headers, from, if answers == [] then from else answers[|answers| - 1], |answers|)
    ensures answers != [] ==>
      answers[0] in headers && headers[answers[0]].parent == from && headers[answers[0]].number == number
    decreases |answers|
  {
    if answers != [] {
      ReadsLinked(headers, from, answers[..|answers| - 1], number);
    }
  }

  /** A section that was read is as many parent links long as it has blocks. */
  lemma ChainIsLinked(headers: Headers, from: Hash, answers: seq<Hash>, section: nat, size: nat)
    requires Readable(headers) && size >= 1 && |answers| == size
    requires ReadsChain(headers, from, answers, Blocks(section, size))
    ensures var to := answers[size - 1];
      && Links(headers, from, to, size) && to in headers && headers[to].number == Blocks(section + 1, size) - 1
      && (section > 0 ==> from != NO_HASH)
  {
    ReadsLinked(headers, from, answers, section * size);
    SectionBounds(section, size);
  }

  lemma WholeBelow(headers: Headers, size: nat, heads: map<nat, Hash>, indexed: set<nat>, stored: nat, section: nat,
                   newHead: Hash)
    requires AllGrown(headers, size, heads, indexed) && forall i :: i in heads ==> i < stored
    ensures stored == section ==> (set i | i in indexed && i < section) == indexed
    ensures stored == section ==> Truncated(heads[section := newHead], section + 1) == heads[section := newHead]
    ensures var rest := set i | i in indexed && i < section;
      (set i | i in rest + {section} && i < section + 1) == rest + {section}
  {
    forall i | i in indexed
      ensures i < stored
    {
      assert Grown(headers, size, heads, i);
    }
  }

  lemma TruncatedGrown(headers: Headers, size: nat, heads: map<nat, Hash>, indexed: set<nat>, sections: nat)
    requires AllGrown(headers, size, heads, indexed)
    ensures AllGrown(headers, size, Truncated(heads, sections), set i | i in indexed && i < sections)
  {
    forall i | i in indexed && i < sections
      ensures Grown(headers, size, Truncated(heads, sections), i)
    {
      assert Grown(headers, size, heads, i);
    }
  }

  lemma CheckpointGrown(headers: Headers, size: nat, heads: map<nat, Hash>, indexed: set<nat>, section: nat,
                        shead: Hash)
    requires AllGrown(headers, size, heads, indexed) && forall i :: i in heads ==> i < section
    ensures AllGrown(headers, size, heads[section := shead], indexed) && forall i :: i in indexed ==> i < section
  {
    forall i | i in indexed
      ensures Grown(headers, size, heads[section := shead], i) && i < section
    {
      assert Grown(headers, size, heads, i);
    }
  }

  lemma SectionCount(blocks: nat, size: nat)
    requires size >= 1
    ensures (blocks / size) * size <= blocks < (blocks / size + 1) * size
  {
  }

  lemma SectionBounds(section: nat, size: nat)
    requires size >= 1
    ensures (section + 1) * size - 1 == section * size + size - 1
    ensures section > 0 ==> section * size > 0
  {
  }

  /** If the head a section was grown from is in place, its own head is linked to it, and what
      the loop wrote below stays so. */
  lemma SectionGrown(headers: Headers, size: nat, heads: map<nat, Hash>, indexed: set<nat>, section: nat, newHead: Hash)
    requires AllGrown(headers, size, heads, indexed)
    requires Links(headers, HeadAt(heads, section - 1), newHead, size)
    requires (section > 0 ==> HeadAt(heads, section - 1) != NO_HASH)
    requires newHead in headers && headers[newHead].number == (section + 1) * size - 1
    ensures AllGrown(headers, size, heads[section := newHead], (set i | i in indexed && i < section) + {section})
  {
    forall i | i in indexed && i < section
      ensures Grown(headers, size, heads[section := newHead], i)
    {
      assert Grown(headers, size, heads, i);
    }
    assert Grown(headers, size, heads[section := newHead], section);
  }
}
