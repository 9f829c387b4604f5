/** What the verifier reports of a recorded audit chain that was tampered with, and where. */
module Tampering {
  import opened Wrappers
  import opened Text
  import opened Numbers
  import opened Sorting
  import opened Audit

  /** The chain is whole up to the k-th event, and that one fails for this reason. */
  ghost predicate Reported(digest: Body -> Str, events: seq<Event>, k: nat, reason: Reason) {
    var chained := Sorted(events);
    && k < |chained| && Linked(digest, chained, k, Start(chained, None))
    && Fault(digest, chained, k, Start(chained, None)) == Some(reason)
  }

  /** No event fails; what the head says does. */
  ghost predicate HeadReported(digest: Body -> Str, events: seq<Event>, head: Head, failure: Failure) {
    var chained := Sorted(events);
    Linked(digest, chained, |chained|, Start(chained, None)) && HeadFault(events, head) == Some(failure)
  }

  /** Events numbered upwards are sorted already. */
  lemma SortedAlready(events: seq<Event>)
    requires forall i :: 0 <= i < |events| ==> Chained(events[i])
    requires forall i, j :: 0 <= i < j < |events| ==> Below(SequenceOf(events[i]), SequenceOf(events[j]))
    ensures Sorted(events) == events
  {
    AllChained(events);
    SortedBag(events);
    EarlierOrdered();
    SortedOrdered(events);
    hide Sorted;
    OnlyOrder(Sorted(events), events, Earlier);
  }

  lemma SortedOrdered(events: seq<Event>)
    ensures Ordered(Sorted(events), Earlier)
  {
    EarlierOrdered();
    SortOrdered(Where(events, Chained), Earlier);
  }

  lemma Numbered(digest: Body -> Str, recorded: seq<Event>)
    requires Chain(digest, recorded)
    ensures forall i :: 0 <= i < |recorded| ==> Chained(recorded[i]) && SequenceOf(recorded[i]) == Integer(i + 1)
  {
    forall i | 0 <= i < |recorded|
      ensures Chained(recorded[i]) && SequenceOf(recorded[i]) == Integer(i + 1)
    { assert Link(digest, recorded, i); }
  }

  /** The first events of a recorded chain hold together, whatever follows them. */
  lemma PrefixLinked(digest: Body -> Str, recorded: seq<Event>, events: seq<Event>, k: nat)
    requires Chain(digest, recorded) && k <= |recorded| && k <= |events| && events != []
    requires forall i :: 0 <= i < k ==> events[i] == recorded[i]
    ensures Linked(digest, events, k, Start(events, None))
  {
    Numbered(digest, recorded);
    forall i | 0 <= i < k
      ensures Fault(digest, events, i, Start(events, None)).None?
    {
      assert Link(digest, recorded, i);
      if i > 0 { assert Link(digest, recorded, i - 1); }
    }
  }

  /** An event left out shows as a gap where the next one stands. */
  lemma Omitted(digest: Body -> Str, recorded: seq<Event>, k: nat)
    requires Chain(digest, recorded) && 0 < k < |recorded| - 1
    ensures Reported(digest, recorded[..k] + recorded[k + 1..], k, SequenceGap)
  {
    var events := recorded[..k] + recorded[k + 1..];
    Numbered(digest, recorded);
    assert forall i :: 0 <= i < |events| ==> events[i] == recorded[if i < k then i else i + 1];
    SortedAlready(events);
    PrefixLinked(digest, recorded, events, k);
  }

  /** A changed event whose hash is kept shows at the event itself. */
  lemma Edited(digest: Body -> Str, recorded: seq<Event>, k: nat, body: Body)
    requires CollisionFree(digest) && Chain(digest, recorded) && k < |recorded| && body != recorded[k].body
    requires body.sequence == recorded[k].body.sequence && body.previousHash == recorded[k].body.previousHash
    ensures Reported(digest, recorded[k := Event(body, recorded[k].hash)], k, HashMismatch)
  {
    var events := recorded[k := Event(body, recorded[k].hash)];
    Numbered(digest, recorded);
    Renumbered(recorded, events, k);
    SortedAlready(events);
    PrefixLinked(digest, recorded, events, k);
    assert Link(digest, recorded, k);
    if k > 0 { assert Link(digest, recorded, k - 1); }
  }

  lemma Renumbered(recorded: seq<Event>, events: seq<Event>, k: nat)
    requires forall i :: 0 <= i < |recorded| ==> Chained(recorded[i]) && SequenceOf(recorded[i]) == Integer(i + 1)
    requires |events| == |recorded| && k < |recorded| && events[k].body.sequence == recorded[k].body.sequence
    requires forall i :: 0 <= i < |recorded| && i != k ==> events[i] == recorded[i]
    ensures forall i :: 0 <= i < |events| ==> Chained(events[i]) && SequenceOf(events[i]) == Integer(i + 1)
  {}

  /** A changed event with a fitting hash shows at the one after it, or, as the last, against the head. */
  lemma Rewritten(digest: Body -> Str, recorded: seq<Event>, head: Head, k: nat, body: Body)
    requires CollisionFree(digest) && Headed(digest, recorded, Some(head)) && k < |recorded| && body != recorded[k].body
    requires body.sequence == recorded[k].body.sequence && body.previousHash == recorded[k].body.previousHash
    ensures var events := recorded[k := Event(body, Some(digest(body)))];
            if k + 1 < |recorded| then Reported(digest, events, k + 1, PreviousHashMismatch)
            else HeadReported(digest, events, head, Failure(Integer(|recorded|), body.id, HeadMismatch))
  {
    RewrittenLinks(digest, recorded, k, body);
    hide CollisionFree, Sorted, Linked, Start, Fault, Chain;
    if k + 1 == |recorded| { RewrittenLast(digest, recorded, head, body); }
  }

  lemma RewrittenLinks(digest: Body -> Str, recorded: seq<Event>, k: nat, body: Body)
    requires CollisionFree(digest) && Chain(digest, recorded) && k < |recorded| && body != recorded[k].body
    requires body.sequence == recorded[k].body.sequence && body.previousHash == recorded[k].body.previousHash
    ensures var events := recorded[k := Event(body, Some(digest(body)))];
            && Sorted(events) == events && Linked(digest, events, k + 1, Start(events, None))
            && (k + 1 < |recorded| ==> Fault(digest, events, k + 1, Start(events, None)) == Some(PreviousHashMismatch))
  {
    var events := recorded[k := Event(body, Some(digest(body)))];
    Numbered(digest, recorded);
    Renumbered(recorded, events, k);
    SortedAlready(events);
    PrefixLinked(digest, recorded, events, k);
    hide Sorted;
    assert Link(digest, recorded, k);
    if k > 0 { assert Link(digest, recorded, k - 1); }
    if k + 1 < |recorded| { assert Link(digest, recorded, k + 1); }
    assert Fault(digest, events, k, Start(events, None)).None?;
  }

  lemma RewrittenLast(digest: Body -> Str, recorded: seq<Event>, head: Head, body: Body)
    requires CollisionFree(digest) && Headed(digest, recorded, Some(head)) && recorded != []
    requires body != recorded[|recorded| - 1].body && body.sequence == recorded[|recorded| - 1].body.sequence
    requires var events := recorded[|recorded| - 1 := Event(body, Some(digest(body)))]; Sorted(events) == events
    ensures HeadFault(recorded[|recorded| - 1 := Event(body, Some(digest(body)))], head)
         == Some(Failure(Integer(|recorded|), body.id, HeadMismatch))
  {
    hide Sorted, Checkpoint;
    assert Link(digest, recorded, |recorded| - 1);
  }

  /** Events cut off at the end show against the head. */
  lemma CutShort(digest: Body -> Str, recorded: seq<Event>, head: Head, m: nat)
    requires Headed(digest, recorded, Some(head)) && 0 < m < |recorded|
    ensures HeadReported(digest, recorded[..m], head, Failure(Integer(m), recorded[m - 1].body.id, HeadMismatch))
  {
    var events := recorded[..m];
    Numbered(digest, recorded);
    SortedAlready(events);
    PrefixLinked(digest, recorded, events, m);
  }

  /** Nothing left at all shows too. */
  lemma AllGone(digest: Body -> Str, head: Head)
    ensures HeadReported(digest, [], head, Failure(head.sequence, [], HeadMismatch))
  {
    SortedAlready([]);
  }

  /** A prune event that names the k-th event as the last one removed, and its hash. */
  predicate AccountsFor(event: Event, recorded: seq<Event>, k: nat)
    requires 0 < k <= |recorded|
  {
    event.body.action == U("audit:prune")
    && event.body.prunedSequence == recorded[k - 1].body.sequence && event.body.prunedHash == recorded[k - 1].hash
  }

  /** The chain may start after its first k events exactly when an event after them accounts for these. */
  lemma ResumableExactly(digest: Body -> Str, recorded: seq<Event>, k: nat)
    requires Chain(digest, recorded) && k < |recorded|
    ensures Resumable(recorded, k) <==>
            k == 0 || exists i :: k <= i < |recorded| && AccountsFor(recorded[i], recorded, k)
  {
    if k > 0 {
      Numbered(digest, recorded);
      assert Link(digest, recorded, k) && Link(digest, recorded, k - 1);
      assert Plus(SequenceOf(recorded[k]), -1) == Integer(k);
      hide Chain, Link, PRUNE;
      PruneAction();
      forall i | k <= i < |recorded|
        ensures Checkpoint(recorded[i], recorded[k]) <==> AccountsFor(recorded[i], recorded, k)
      {}
    }
  }

  lemma PruneAction()
    ensures PRUNE == U("audit:prune")
  {}

  /** Events cut off at the start show as a missing prefix, unless a checkpoint among the others accounts for them. */
  lemma CutFront(digest: Body -> Str, recorded: seq<Event>, head: Head, m: nat)
    requires Headed(digest, recorded, Some(head)) && 0 < m < |recorded| && !Resumable(recorded, m)
    ensures HeadReported(digest, recorded[m..], head, Failure(Integer(m + 1), recorded[m].body.id, MissingPrefix))
  {
    Numbered(digest, recorded);
    SortedSuffix(digest, recorded, m, recorded[m..]);
    SuffixLinked(digest, recorded, m);
    SuffixResumable(recorded, m);
    hide Sorted, Linked, Checkpoint, Resumable;
    assert recorded[m..][0] == recorded[m] && recorded[m..][|recorded| - m - 1] == recorded[|recorded| - 1];
  }

  /** An event without chain fields beside the whole chain is reported as such. */
  lemma Padded(digest: Body -> Str, recorded: seq<Event>, head: Head, loose: Event)
    requires Headed(digest, recorded, Some(head)) && !Chained(loose)
    ensures HeadReported(digest, recorded + [loose], head, Failure(Integer(0), loose.body.id, Unchained))
  {
    var events := recorded + [loose];
    Numbered(digest, recorded);
    SortedAlready(recorded);
    var one := [loose];
    assert one[1..] == [];
    WhereConcat(recorded, one, Chained);
    assert Where(recorded, Chained) + [] == Where(recorded, Chained);
    assert Sorted(events) == recorded;
    PrefixLinked(digest, recorded, recorded, |recorded|);
    LooseAfter(recorded, loose);
    assert Link(digest, recorded, 0) && SequenceOf(recorded[0]) == Integer(1);
  }

  lemma LooseAfter(events: seq<Event>, loose: Event)
    requires !Chained(loose) && forall i :: 0 <= i < |events| ==> Chained(events[i])
    ensures Loose(events + [loose]) == |events|
  {
    var all := events + [loose];
    assert all[|events|] == loose && forall i :: 0 <= i < |events| ==> all[i] == events[i];
  }
}
