/** The hash-chained audit log: appending, verifying, and what a chain that verifies can be. */
module Audit {
  import opened Wrappers
  import opened Text
  import opened Numbers
  import opened Sorting

  const GENESIS: Str := Zeros(64)
  const PRUNE := U("audit:prune")

  function Zeros(n: nat): (r: Str)
    ensures |r| == n && forall i :: 0 <= i < n ==> r[i] == ZERO
  {
    seq(n, i => ZERO)
  }

  /** An event without its hash: what the hash covers. `content` stands for the fields no code here reads. */
  datatype Body = Body(
    id: Str, tenantId: Str, action: Str, timestamp: int, content: Str,
    prunedSequence: Option<Double>, prunedHash: Option<Str>,
    sequence: Option<Double>, previousHash: Option<Str>)

  datatype Event = Event(body: Body, hash: Option<Str>)

  datatype Head = Head(sequence: Double, hash: Str, updatedAt: int)

  /** The hash tells bodies apart, and no body hashes to the genesis value. */
  ghost predicate CollisionFree(digest: Body -> Str) {
    (forall a, b :: digest(a) == digest(b) ==> a == b) && forall a :: digest(a) != GENESIS
  }

  /** A body written out, each part followed by the next. */
  function SpelledOut(body: Body): Str {
    [ONE] + (TextCode(body.id) + (TextCode(body.tenantId) + Rest(body)))
  }

  function Rest(body: Body): Str {
    TextCode(body.action) + (IntCode(body.timestamp) + (TextCode(body.content) + ChainFields(body)))
  }

  function ChainFields(body: Body): Str {
    OptionCode(DoubleCode, body.prunedSequence) + (OptionCode(TextCode, body.prunedHash)
      + (OptionCode(DoubleCode, body.sequence) + (OptionCode(TextCode, body.previousHash) + [])))
  }

  lemma ChainFieldsUnique(a: Body, b: Body)
    requires ChainFields(a) == ChainFields(b)
    ensures a.prunedSequence == b.prunedSequence && a.prunedHash == b.prunedHash
    ensures a.sequence == b.sequence && a.previousHash == b.previousHash
  {
    CodesDelimit();
    hide SelfDelimiting, OptionCode;
    var x2, y2 := OptionCode(TextCode, a.previousHash) + [], OptionCode(TextCode, b.previousHash) + [];
    var x1, y1 := OptionCode(DoubleCode, a.sequence) + x2, OptionCode(DoubleCode, b.sequence) + y2;
    var x0, y0 := OptionCode(TextCode, a.prunedHash) + x1, OptionCode(TextCode, b.prunedHash) + y1;
    OptionUnique(DoubleCode, a.prunedSequence, b.prunedSequence, x0, y0);
    OptionUnique(TextCode, a.prunedHash, b.prunedHash, x1, y1);
    OptionUnique(DoubleCode, a.sequence, b.sequence, x2, y2);
    OptionUnique(TextCode, a.previousHash, b.previousHash, [], []);
  }

  /** Writing bodies out is such a hash: what is proved of collision-free hashes is not proved of none. */
  lemma SomeCollisionFree()
    ensures CollisionFree(SpelledOut)
  {
    forall a, b | SpelledOut(a) == SpelledOut(b)
      ensures a == b
    { SpelledOutUnique(a, b); }
    forall a: Body
      ensures SpelledOut(a) != GENESIS
    { assert SpelledOut(a)[0] == ONE && GENESIS[0] == ZERO; }
  }

  lemma SpelledOutUnique(a: Body, b: Body)
    requires SpelledOut(a) == SpelledOut(b)
    ensures a == b
  {
    hide ChainFields, TextCode, IntCode;
    assert SpelledOut(a)[1..] == TextCode(a.id) + (TextCode(a.tenantId) + Rest(a));
    assert SpelledOut(b)[1..] == TextCode(b.id) + (TextCode(b.tenantId) + Rest(b));
    TextUnique(a.id, b.id, TextCode(a.tenantId) + Rest(a), TextCode(b.tenantId) + Rest(b));
    TextUnique(a.tenantId, b.tenantId, Rest(a), Rest(b));
    var x1, y1 := TextCode(a.content) + ChainFields(a), TextCode(b.content) + ChainFields(b);
    TextUnique(a.action, b.action, IntCode(a.timestamp) + x1, IntCode(b.timestamp) + y1);
    IntUnique(a.timestamp, b.timestamp, x1, y1);
    TextUnique(a.content, b.content, ChainFields(a), ChainFields(b));
    ChainFieldsUnique(a, b);
  }

  // --- recording -------------------------------------------------------------------------------------

  /** A chain from the start: numbered from one, each event holding the hash of the one before and its own. */
  ghost predicate Chain(digest: Body -> Str, events: seq<Event>) {
    forall i :: 0 <= i < |events| ==> Link(digest, events, i)
  }

  predicate Link(digest: Body -> Str, events: seq<Event>, i: nat)
    requires i < |events|
  {
    && events[i].body.sequence == Some(Integer(i + 1))
    && events[i].body.previousHash == Some(if i == 0 then GENESIS else digest(events[i - 1].body))
    && events[i].hash == Some(digest(events[i].body))
  }

  predicate OfTenant(event: Event, tenantId: Str) { event.body.tenantId == tenantId }

  function Events(log: seq<Event>, tenantId: Str): seq<Event> { Where(log, (e: Event) => OfTenant(e, tenantId)) }

  /** The head a chain ends at. */
  function HeadOf(events: seq<Event>): Option<(Double, Option<Str>)> {
    if events == [] then None else Some((Integer(|events|), events[|events| - 1].hash))
  }

  function HeadIn(chains: map<Str, Head>, tenantId: Str): Option<Head> {
    if tenantId in chains then Some(chains[tenantId]) else None
  }

  /** A tenant's events are a chain that ends at its stored head. */
  ghost predicate Headed(digest: Body -> Str, events: seq<Event>, head: Option<Head>) {
    && Chain(digest, events)
    && HeadOf(events) == if head.Some? then Some((head.value.sequence, Some(head.value.hash))) else None
  }

  function Next(digest: Body -> Str, event: Body, head: Option<Head>): Event {
    var next := event.(sequence := Some(if head.Some? then Plus(head.value.sequence, 1) else Integer(1)),
                       previousHash := Some(if head.Some? then head.value.hash else GENESIS));
    Event(next, Some(digest(next)))
  }

  class AuditLog {
    const digest: Body -> Str
    var chains: map<Str, Head>
    var log: seq<Event>

    ghost predicate Valid()
      reads this
    {
      forall tenantId :: Headed(digest, Events(log, tenantId), HeadIn(chains, tenantId))
    }

    constructor (digest: Body -> Str)
      ensures Valid() && log == [] && this.digest == digest
    {
      this.digest := digest;
      chains := map[];
      log := [];
    }

    /** `chainAuditEvent`: the next position of the tenant's chain, and the head moved to it. */
    method ChainEvent(event: Body) returns (chained: Event)
      modifies this`chains
      ensures chained == Next(digest, event, HeadIn(old(chains), event.tenantId))
      ensures chains == old(chains)[event.tenantId :=
                Head(chained.body.sequence.value, chained.hash.value, event.timestamp)]
    {
      chained := Next(digest, event, HeadIn(chains, event.tenantId));
      chains := chains[event.tenantId := Head(chained.body.sequence.value, chained.hash.value, event.timestamp)];
    }

    /** `appendAuditEvent`: one tenant's chain grows by the event, and nothing else changes. */
    method Append(event: Body) returns (chained: Event)
      requires Valid()
      modifies this`chains, this`log
      ensures Valid()
      ensures log == old(log) + [chained]
      ensures chained.body == event.(sequence := chained.body.sequence, previousHash := chained.body.previousHash)
      ensures forall tenantId :: Events(log, tenantId)
                == Events(old(log), tenantId) + if tenantId == event.tenantId then [chained] else []
    {
      hide Headed, Events;
      chained := ChainEvent(event);
      forall tenantId
        ensures Events(log + [chained], tenantId)
             == Events(log, tenantId) + if tenantId == event.tenantId then [chained] else []
        ensures Headed(digest, Events(log + [chained], tenantId), HeadIn(chains, tenantId))
      {
        EventsAppend(log, chained, tenantId);
        assert Headed(digest, Events(log, tenantId), HeadIn(old(chains), tenantId));
        HeadedNext(digest, Events(log, event.tenantId), HeadIn(old(chains), event.tenantId), event);
        assert Events(log, tenantId) + [] == Events(log, tenantId);
      }
      log := log + [chained];
    }
  }

  lemma EventsAppend(log: seq<Event>, event: Event, tenantId: Str)
    ensures Events(log + [event], tenantId)
         == Events(log, tenantId) + if OfTenant(event, tenantId) then [event] else []
  {
    WhereConcat(log, [event], (e: Event) => OfTenant(e, tenantId));
    assert [event][1..] == [];
  }

  lemma HeadedNext(digest: Body -> Str, events: seq<Event>, head: Option<Head>, event: Body)
    requires Headed(digest, events, head)
    ensures var next := Next(digest, event, head);
            Headed(digest, events + [next], Some(Head(next.body.sequence.value, next.hash.value, event.timestamp)))
  {
    var n, all := |events|, events + [Next(digest, event, head)];
    forall i | 0 <= i < |all|
      ensures Link(digest, all, i)
    {
      if i < n {
        assert Link(digest, events, i);
      } else if n > 0 {
        assert Link(digest, events, n - 1) && all[n - 1] == events[n - 1];
      }
    }
  }

  // --- verifying -------------------------------------------------------------------------------------

  datatype Reason = SequenceGap | PreviousHashMismatch | HashMismatch | HeadMismatch | MissingPrefix | Unchained

  datatype Failure = Failure(sequence: Double, id: Str, reason: Reason)

  datatype Verification = Verification(checked: nat, unchained: nat, failure: Option<Failure>)

  predicate Chained(event: Event) { event.body.sequence.Some? }

  function SequenceOf(event: Event): Double { if Chained(event) then event.body.sequence.value else Integer(0) }

  predicate Earlier(a: Event, b: Event) { Below(SequenceOf(a), SequenceOf(b)) }

  /** The events with chain fields, by sequence. */
  function Sorted(events: seq<Event>): seq<Event> { Sort(Where(events, Chained), Earlier) }

  /** What the hash before the first event is taken to be. */
  function Start(events: seq<Event>, previousHash: Option<Str>): Option<Str> {
    if previousHash.Some? || events == [] then previousHash
    else if SequenceOf(events[0]) == Integer(1) then Some(GENESIS) else events[0].body.previousHash
  }

  /** What is wrong with an event, given those before it: the first check it fails. */
  function Fault(digest: Body -> Str, events: seq<Event>, i: nat, start: Option<Str>): Option<Reason>
    requires i < |events|
  {
    var event := events[i];
    if SequenceOf(event) != Plus(SequenceOf(events[0]), i) then Some(SequenceGap)
    else if event.body.previousHash != (if i == 0 then start else events[i - 1].hash) then Some(PreviousHashMismatch)
    else if event.hash != Some(digest(event.body)) then Some(HashMismatch)
    else None
  }

  predicate Linked(digest: Body -> Str, events: seq<Event>, n: nat, start: Option<Str>)
    requires n <= |events|
  {
    forall i :: 0 <= i < n ==> Fault(digest, events, i, start).None?
  }

  /** A prune checkpoint for everything before this event. */
  predicate Checkpoint(event: Event, first: Event) {
    && event.body.action == PRUNE
    && event.body.prunedSequence == Some(Plus(SequenceOf(first), -1))
    && event.body.prunedHash == first.body.previousHash
  }

  /** The whole list is the stored chain of a tenant with this head. */
  predicate Whole(events: seq<Event>, head: Head) {
    var chained := Sorted(events);
    && chained != []
    && head.sequence == SequenceOf(chained[|chained| - 1]) && Some(head.hash) == chained[|chained| - 1].hash
    && (Below(Integer(1), SequenceOf(chained[0])) ==> exists i :: 0 <= i < |chained| && Checkpoint(chained[i], chained[0]))
    && |chained| == |events|
  }

  /** Where the first event without chain fields is; the number of events when all have them. */
  function Loose(events: seq<Event>): (k: nat)
    ensures k <= |events| && (k < |events| ==> !Chained(events[k])) && forall i :: 0 <= i < k ==> Chained(events[i])
  {
    if events == [] || !Chained(events[0]) then 0 else 1 + Loose(events[1..])
  }

  /** What keeps a faultless run from being the whole chain of this head: the first check it fails. */
  function HeadFault(events: seq<Event>, head: Head): Option<Failure> {
    var chained := Sorted(events);
    if chained == [] then Some(Failure(head.sequence, [], HeadMismatch))
    else
      var first, last := chained[0], chained[|chained| - 1];
      if head.sequence != SequenceOf(last) || Some(head.hash) != last.hash then
        Some(Failure(SequenceOf(last), last.body.id, HeadMismatch))
      else if Below(Integer(1), SequenceOf(first)) && !exists i :: 0 <= i < |chained| && Checkpoint(chained[i], first) then
        Some(Failure(SequenceOf(first), first.body.id, MissingPrefix))
      else if Loose(events) < |events| then Some(Failure(Integer(0), events[Loose(events)].body.id, Unchained))
      else None
  }

  lemma HeadFaultWhole(events: seq<Event>, head: Head)
    ensures HeadFault(events, head).None? <==> Whole(events, head)
  {
    AllChained(events);
  }

  /** What keeps an unbroken run from being the whole chain that the head describes. */
  method CheckHead(events: seq<Event>, chained: seq<Event>, head: Head) returns (failure: Option<Failure>)
    requires chained == Sorted(events)
    ensures failure == HeadFault(events, head)
  {
    if chained == [] || head.sequence != SequenceOf(chained[|chained| - 1]) || Some(head.hash) != chained[|chained| - 1].hash {
      var at := if chained == [] then head.sequence else SequenceOf(chained[|chained| - 1]);
      var id := if chained == [] then [] else chained[|chained| - 1].body.id;
      return Some(Failure(at, id, HeadMismatch));
    }
    var first := chained[0];
    var covered := exists i :: 0 <= i < |chained| && Checkpoint(chained[i], first);
    if Below(Integer(1), SequenceOf(first)) && !covered {
      return Some(Failure(SequenceOf(first), first.body.id, MissingPrefix));
    }
    var loose := 0;
    while loose < |events| && Chained(events[loose])
      invariant loose <= Loose(events)
    {
      loose := loose + 1;
    }
    return if loose < |events| then Some(Failure(Integer(0), events[loose].body.id, Unchained)) else None;
  }

  /** `verifyAuditChain`: the first fault in the run, or else what keeps it from being the whole chain. */
  method VerifyAuditChain(digest: Body -> Str, events: seq<Event>, previousHash: Option<Str>, head: Option<Head>)
    returns (result: Verification)
    ensures var chained, start := Sorted(events), Start(Sorted(events), previousHash);
            && result.checked <= |chained| && Linked(digest, chained, result.checked, start)
            && (result.checked < |chained| ==>
                  && Fault(digest, chained, result.checked, start).Some?
                  && result.failure == Some(Failure(SequenceOf(chained[result.checked]), chained[result.checked].body.id,
                                                    Fault(digest, chained, result.checked, start).value)))
            && (result.checked == |chained| ==>
                  && result.failure == (if head.None? then None else HeadFault(events, head.value))
                  && (result.failure.None? <==> head.None? || Whole(events, head.value)))
    ensures result.unchained == |events| - |Sorted(events)|
  {
    var chained := Sorted(events);
    SortedCount(events);
    result := Verification(0, |events| - |chained|, None);
    var expectedPrevious := previousHash;
    var expectedSequence: Option<Double> := None;
    ghost var start := Start(chained, previousHash);
    var i := 0;
    while i < |chained|
      invariant i <= |chained| && result == Verification(i, |events| - |chained|, None)
      invariant Linked(digest, chained, i, start)
      invariant expectedSequence == if i == 0 then None else Some(Plus(SequenceOf(chained[0]), i))
      invariant expectedPrevious == if i == 0 then previousHash else chained[i - 1].hash
    {
      var event := chained[i];
      if expectedSequence.None? {
        expectedSequence := Some(SequenceOf(event));
        if expectedPrevious.None? {
          expectedPrevious := if SequenceOf(event) == Integer(1) then Some(GENESIS) else event.body.previousHash;
        }
      }
      if SequenceOf(event) != expectedSequence.value {
        return result.(failure := Some(Failure(SequenceOf(event), event.body.id, SequenceGap)));
      }
      if event.body.previousHash != expectedPrevious {
        return result.(failure := Some(Failure(SequenceOf(event), event.body.id, PreviousHashMismatch)));
      }
      if Some(digest(event.body)) != event.hash {
        return result.(failure := Some(Failure(SequenceOf(event), event.body.id, HashMismatch)));
      }
      result := result.(checked := i + 1);
      expectedPrevious := event.hash;
      expectedSequence := Some(Plus(SequenceOf(event), 1));
      i := i + 1;
    }
    if head.None? { return; }
    HeadFaultWhole(events, head.value);
    var failure := CheckHead(events, chained, head.value);
    return result.(failure := failure);
  }

  lemma {:induction false} WhereLength(events: seq<Event>)
    ensures |Where(events, Chained)| <= |events|
    ensures |Where(events, Chained)| == |events| <==> forall k :: 0 <= k < |events| ==> Chained(events[k])
  {
    if events != [] {
      WhereLength(events[1..]);
      assert forall k :: 1 <= k < |events| ==> events[k] == events[1..][k - 1];
      assert forall k :: 0 <= k < |events[1..]| ==> events[1..][k] == events[k + 1];
    }
  }

  lemma EarlierOrdered()
    ensures WeakOrder(Earlier)
  {}

  lemma SortedCount(events: seq<Event>)
    ensures |Sorted(events)| == |Where(events, Chained)| <= |events|
  {
    SortCount(Where(events, Chained), Earlier);
    WhereLength(events);
  }

  lemma AllChained(events: seq<Event>)
    ensures |Sorted(events)| == |events| <==> forall k :: 0 <= k < |events| ==> Chained(events[k])
  {
    SortedCount(events);
    WhereLength(events);
  }

  // --- what verifies ---------------------------------------------------------------------------------

  predicate Accepted(digest: Body -> Str, events: seq<Event>, head: Head) {
    Linked(digest, Sorted(events), |Sorted(events)|, Start(Sorted(events), None)) && Whole(events, head)
  }

  /** A later part of a recorded chain that can stand for the whole: from the start, or after a checkpoint in it. */
  predicate Resumable(recorded: seq<Event>, k: nat)
    requires k < |recorded|
  {
    k == 0 || exists i :: k <= i < |recorded| && Checkpoint(recorded[i], recorded[k])
  }

  /** Backwards from the head, the hash of each event fixes the one before it. */
  lemma {:induction false} SuffixForced(digest: Body -> Str, recorded: seq<Event>, chained: seq<Event>, start: Option<Str>, n: nat)
    requires CollisionFree(digest) && Chain(digest, recorded) && Linked(digest, chained, |chained|, start)
    requires n < |chained| && n < |recorded|
    requires chained[|chained| - 1].hash == recorded[|recorded| - 1].hash
    ensures chained[|chained| - 1 - n] == recorded[|recorded| - 1 - n]
  {
    var i, j := |chained| - 1 - n, |recorded| - 1 - n;
    assert Fault(digest, chained, i, start).None? && Link(digest, recorded, j);
    if n > 0 {
      SuffixForced(digest, recorded, chained, start, n - 1);
      assert Fault(digest, chained, i + 1, start).None? && Link(digest, recorded, j + 1);
    }
  }

  lemma NeverAfterGenesis(digest: Body -> Str, chained: seq<Event>, i: nat, start: Option<Str>)
    requires CollisionFree(digest) && Linked(digest, chained, |chained|, start) && 0 < i < |chained|
    ensures chained[i].body.previousHash != Some(GENESIS)
  {
    assert Fault(digest, chained, i, start).None? && Fault(digest, chained, i - 1, start).None?;
  }

  /** An accepted chain has no event before the recorded first one: none hashes to the genesis value. */
  lemma NotLonger(digest: Body -> Str, recorded: seq<Event>, chained: seq<Event>, start: Option<Str>)
    requires CollisionFree(digest) && Chain(digest, recorded) && Linked(digest, chained, |chained|, start)
    requires recorded != [] && chained != []
    requires chained[|chained| - 1].hash == recorded[|recorded| - 1].hash
    ensures |chained| <= |recorded|
  {
    var i := |chained| - |recorded|;
    if i > 0 {
      assert Link(digest, recorded, 0);
      NeverAfterGenesis(digest, chained, i, start);
      SuffixForced(digest, recorded, chained, start, |recorded| - 1);
    }
  }

  lemma ForcedSuffix(digest: Body -> Str, recorded: seq<Event>, chained: seq<Event>, start: Option<Str>)
    requires CollisionFree(digest) && Chain(digest, recorded) && Linked(digest, chained, |chained|, start)
    requires chained != [] && |chained| <= |recorded|
    requires chained[|chained| - 1].hash == recorded[|recorded| - 1].hash
    ensures chained == recorded[|recorded| - |chained|..]
  {
    forall j | 0 <= j < |chained|
      ensures chained[j] == recorded[|recorded| - |chained| + j]
    { SuffixForced(digest, recorded, chained, start, |chained| - 1 - j); }
  }

  lemma SortedBag(events: seq<Event>)
    requires |Sorted(events)| == |events|
    ensures multiset(Sorted(events)) == multiset(events)
  {
    AllChained(events);
    WhereAll(events, Chained);
    SortBag(events, Earlier);
  }

  /** The events of a recorded chain from some point on, handed over in any order, are sorted back. */
  lemma SortedSuffix(digest: Body -> Str, recorded: seq<Event>, k: nat, events: seq<Event>)
    requires Chain(digest, recorded) && k < |recorded| && multiset(events) == multiset(recorded[k..])
    ensures Sorted(events) == recorded[k..] && |events| == |recorded| - k
  {
    var rest := recorded[k..];
    assert |events| == |multiset(events)| && |rest| == |multiset(rest)|;
    forall i | 0 <= i < |events|
      ensures Chained(events[i])
    {
      assert events[i] in multiset(events) && events[i] in rest;
      var j :| 0 <= j < |rest| && rest[j] == events[i];
      assert Link(digest, recorded, k + j);
    }
    AllChained(events);
    SortedBag(events);
    EarlierOrdered();
    SortOrdered(Where(events, Chained), Earlier);
    forall i | 0 <= i < |rest|
      ensures SequenceOf(rest[i]) == Integer(k + i + 1)
    { assert Link(digest, recorded, k + i); }
    OnlyOrder(Sorted(events), rest, Earlier);
  }

  lemma SuffixLinked(digest: Body -> Str, recorded: seq<Event>, k: nat)
    requires Chain(digest, recorded) && k < |recorded|
    ensures Linked(digest, recorded[k..], |recorded| - k, Start(recorded[k..], None))
  {
    var rest := recorded[k..];
    forall i | 0 <= i < |rest|
      ensures Fault(digest, rest, i, Start(rest, None)).None?
    {
      assert rest[i] == recorded[k + i] && rest[0] == recorded[k];
      assert Link(digest, recorded, k + i) && Link(digest, recorded, k);
      if i > 0 { assert rest[i - 1] == recorded[k + i - 1] && Link(digest, recorded, k + i - 1); }
    }
  }

  lemma SuffixResumable(recorded: seq<Event>, k: nat)
    requires k < |recorded|
    ensures Resumable(recorded, k)
       <==> (k == 0 || exists i :: 0 <= i < |recorded[k..]| && Checkpoint(recorded[k..][i], recorded[k..][0]))
  {
    var rest := recorded[k..];
    assert forall i :: 0 <= i < |rest| ==> rest[i] == recorded[k + i];
    assert forall i :: k <= i < |recorded| ==> recorded[i] == rest[i - k];
  }

  /** What a tenant recorded verifies against its head, whatever the hash is. */
  lemma RecordedAccepted(digest: Body -> Str, recorded: seq<Event>, head: Head)
    requires Headed(digest, recorded, Some(head))
    ensures Accepted(digest, recorded, head)
  {
    assert recorded[0..] == recorded;
    SortedSuffix(digest, recorded, 0, recorded);
    SuffixLinked(digest, recorded, 0);
    assert Link(digest, recorded, 0) && Link(digest, recorded, |recorded| - 1);
  }

  /**
   * Verified against the tenant's head, a list of events is accepted exactly when it is, in some order, the
   * recorded chain or the part of it after a prune checkpoint that the part itself holds.
   */
  lemma AcceptedExactly(digest: Body -> Str, recorded: seq<Event>, head: Head, events: seq<Event>)
    requires CollisionFree(digest) && Headed(digest, recorded, Some(head))
    ensures Accepted(digest, events, head)
       <==> exists k :: 0 <= k < |recorded| && Resumable(recorded, k) && multiset(events) == multiset(recorded[k..])
  {
    if Accepted(digest, events, head) {
      var k := AcceptedSuffix(digest, recorded, head, events);
    }
    forall k | 0 <= k < |recorded| && Resumable(recorded, k) && multiset(events) == multiset(recorded[k..])
      ensures Accepted(digest, events, head)
    {
      SortedSuffix(digest, recorded, k, events);
      SuffixLinked(digest, recorded, k);
      SuffixResumable(recorded, k);
      assert Link(digest, recorded, k) && Link(digest, recorded, |recorded| - 1);
    }
  }

  lemma AcceptedSuffix(digest: Body -> Str, recorded: seq<Event>, head: Head, events: seq<Event>) returns (k: nat)
    requires CollisionFree(digest) && Headed(digest, recorded, Some(head)) && Accepted(digest, events, head)
    ensures k < |recorded| && Resumable(recorded, k) && multiset(events) == multiset(recorded[k..])
  {
    hide CollisionFree, Sorted, Linked, Start, Checkpoint, Resumable, Link, Chain;
    var chained := Sorted(events);
    assert Chain(digest, recorded);
    NotLonger(digest, recorded, chained, Start(chained, None));
    ForcedSuffix(digest, recorded, chained, Start(chained, None));
    k := |recorded| - |chained|;
    SortedBag(events);
    SuffixResumable(recorded, k);
    NumberedFrom(digest, recorded, k);
  }

  lemma NumberedFrom(digest: Body -> Str, recorded: seq<Event>, k: nat)
    requires Chain(digest, recorded) && k < |recorded|
    ensures SequenceOf(recorded[k]) == Integer(k + 1) && (k > 0 ==> Below(Integer(1), SequenceOf(recorded[k])))
  {
    assert Link(digest, recorded, k);
  }

  /** With no prune checkpoint recorded, nothing but the whole chain is accepted: nothing deleted, edited or added. */
  lemma Untampered(digest: Body -> Str, recorded: seq<Event>, head: Head, events: seq<Event>)
    requires CollisionFree(digest) && Headed(digest, recorded, Some(head))
    requires forall i :: 0 <= i < |recorded| ==> recorded[i].body.action != PRUNE
    ensures Accepted(digest, events, head) <==> multiset(events) == multiset(recorded)
  {
    AcceptedExactly(digest, recorded, head, events);
    assert recorded[0..] == recorded;
    if multiset(events) == multiset(recorded) {
      assert Resumable(recorded, 0);
      assert multiset(events) == multiset(recorded[0..]);
    }
  }
}
