/** The leased outbox: workers that claim, deliver and settle messages in transactions of their own. */
module Outbox {
  import opened Wrappers
  import opened Text
  import opened Order
  import opened Sorting

  const LEASE_MS: nat := 60_000
  const FIRST_BACKOFF: nat := 30_000
  const LONGEST_BACKOFF: nat := 3_600_000

  type Lease = nat

  /** `payload` is the sealed payload, empty once the message is settled. */
  datatype Message = Message(
    createdAt: int, attempts: nat, payload: Str, lease: Option<Lease>, leaseUntil: Option<int>,
    deliveredAt: Option<int>, failedAt: Option<int>, lastError: Option<Str>)

  /** Between its transactions a worker holds a claim: not called back yet, called back, or failed. */
  datatype Phase = Claimed | Called | Threw(error: Str)

  datatype Work = Work(id: Str, attempts: nat, phase: Phase)

  /**
   * The stored messages and the workers' claims. `issued`, `turn` and `called` remember which message every lease
   * was for, which of its attempts that was, and which leases' callbacks returned; `used` is every id ever enqueued.
   */
  datatype State = State(
    messages: map<Str, Message>, work: map<Lease, Work>,
    issued: map<Lease, Str>, turn: map<Lease, nat>, called: set<Lease>, used: set<Str>, now: int)

  datatype Step =
    | Enqueue(id: Str, sealed: Str)
    | Claim(lease: Lease, id: Str)
    | CallBack(lease: Lease)
    | Throw(lease: Lease, error: Str)
    | Deliver(lease: Lease)
    | Fail(lease: Lease)
    | Crash(lease: Lease)
    | Remove(id: Str)
    | Tick(elapsed: nat)

  predicate Settled(m: Message) { m.deliveredAt.Some? || m.failedAt.Some? }

  predicate Claimable(m: Message, now: int) {
    !Settled(m) && !(m.leaseUntil.Some? && m.leaseUntil.value > now)
  }

  function Doubled(base: nat, times: nat): nat { if times == 0 then base else 2 * Doubled(base, times - 1) }

  /** The wait after the k-th attempt fails. */
  function Backoff(attempts: nat): nat {
    var wait := Doubled(FIRST_BACKOFF, if attempts == 0 then 0 else attempts - 1);
    if wait < LONGEST_BACKOFF then wait else LONGEST_BACKOFF
  }

  function ClaimedMessage(m: Message, lease: Lease, now: int): Message {
    m.(lease := Some(lease), leaseUntil := Some(now + LEASE_MS), attempts := m.attempts + 1)
  }

  function DeliveredMessage(m: Message, now: int): Message {
    m.(payload := [], deliveredAt := Some(now), leaseUntil := Some(0), lastError := None)
  }

  function FailedMessage(m: Message, attempts: nat, maxAttempts: nat, now: int, error: Str): Message {
    if attempts >= maxAttempts
    then m.(payload := [], failedAt := Some(now), leaseUntil := Some(0), lastError := Some(error))
    else m.(leaseUntil := Some(now + Backoff(attempts)), lastError := Some(error))
  }

  predicate Holds(s: State, lease: Lease, id: Str) { id in s.messages && s.messages[id].lease == Some(lease) }

  /** What one transaction or event does; one whose conditions do not hold does nothing. */
  function Apply(s: State, step: Step, maxAttempts: nat): State {
    match step
    case Enqueue(id, sealed) =>
      if id in s.used || sealed == [] then s
      else s.(messages := s.messages[id := Message(s.now, 0, sealed, None, None, None, None, None)], used := s.used + {id})
    case Claim(lease, id) =>
      if lease in s.issued || id !in s.messages || !Claimable(s.messages[id], s.now) then s
      else
        var m := ClaimedMessage(s.messages[id], lease, s.now);
        s.(messages := s.messages[id := m], work := s.work[lease := Work(id, m.attempts, Claimed)],
           issued := s.issued[lease := id], turn := s.turn[lease := m.attempts])
    case CallBack(lease) =>
      if lease in s.work && s.work[lease].phase == Claimed
      then s.(work := s.work[lease := s.work[lease].(phase := Called)], called := s.called + {lease})
      else s
    case Throw(lease, error) =>
      if lease in s.work then s.(work := s.work[lease := s.work[lease].(phase := Threw(error))]) else s
    case Deliver(lease) =>
      if lease !in s.work || s.work[lease].phase != Called then s
      else
        var id := s.work[lease].id;
        s.(work := s.work - {lease},
           messages := if Holds(s, lease, id) then s.messages[id := DeliveredMessage(s.messages[id], s.now)] else s.messages)
    case Fail(lease) =>
      if lease !in s.work || !s.work[lease].phase.Threw? then s
      else
        var w := s.work[lease];
        s.(work := s.work - {lease},
           messages := if Holds(s, lease, w.id)
                       then s.messages[w.id := FailedMessage(s.messages[w.id], w.attempts, maxAttempts, s.now, w.phase.error)]
                       else s.messages)
    case Crash(lease) => s.(work := s.work - {lease})
    case Remove(id) => s.(messages := s.messages - {id})
    case Tick(elapsed) => s.(now := s.now + elapsed)
  }

  function Run(s: State, steps: seq<Step>, maxAttempts: nat): State
    decreases |steps|
  {
    if steps == [] then s else Run(Apply(s, steps[0], maxAttempts), steps[1..], maxAttempts)
  }

  // --- what every run keeps --------------------------------------------------------------------------

  ghost predicate MessageKept(s: State, id: Str)
    requires id in s.messages
  {
    var m := s.messages[id];
    && id in s.used
    && !(m.deliveredAt.Some? && m.failedAt.Some?)
    && (m.payload == [] <==> Settled(m))
    && (m.lease.Some? ==> m.lease.value in s.issued && s.issued[m.lease.value] == id)
    && (m.lease.None? ==> m.attempts == 0 && !Settled(m) && m.leaseUntil.None?)
    && (m.deliveredAt.Some? ==> m.lease.value in s.called)
  }

  /** A worker that still holds a message's lease is the only one to have it, and has not settled it. */
  ghost predicate WorkKept(s: State, lease: Lease)
    requires lease in s.work
  {
    var w := s.work[lease];
    && lease in s.issued && s.issued[lease] == w.id && lease in s.turn && s.turn[lease] == w.attempts
    && (w.phase.Called? ==> lease in s.called)
    && (Holds(s, lease, w.id) ==> !Settled(s.messages[w.id]) && s.messages[w.id].attempts == w.attempts)
  }

  ghost predicate Inv(s: State) {
    && (forall id :: id in s.messages ==> MessageKept(s, id))
    && (forall lease :: lease in s.work ==> WorkKept(s, lease))
    && forall lease :: lease in s.issued ==> s.issued[lease] in s.used
  }

  lemma StepKeeps(s: State, step: Step, maxAttempts: nat)
    requires Inv(s)
    ensures Inv(Apply(s, step, maxAttempts))
  {
    hide Backoff;
    var t := Apply(s, step, maxAttempts);
    forall id | id in t.messages
      ensures MessageKept(t, id)
    {
      if id in s.messages { assert MessageKept(s, id); }
      StepMessage(s, step, maxAttempts, id);
    }
    forall lease | lease in t.work
      ensures WorkKept(t, lease)
    {
      if lease in s.work { assert WorkKept(s, lease); }
      StepWork(s, step, maxAttempts, lease);
    }
  }

  lemma StepMessage(s: State, step: Step, maxAttempts: nat, id: Str)
    requires Inv(s) && id in Apply(s, step, maxAttempts).messages
    ensures MessageKept(Apply(s, step, maxAttempts), id)
  {
    if id !in s.messages {
    } else if step.Deliver? || step.Fail? {
      SettledMessage(s, step, maxAttempts, id);
    } else if step.Claim? {
      assert MessageKept(s, id);
    } else {
      assert MessageKept(s, id);
      OtherSteps(s, step, maxAttempts, id);
      hide Apply;
    }
  }

  /** A worker that settles leaves its message as settled messages are, and every other as it was. */
  lemma SettledMessage(s: State, step: Step, maxAttempts: nat, id: Str)
    requires Inv(s) && id in s.messages && (step.Deliver? || step.Fail?)
    ensures id in Apply(s, step, maxAttempts).messages && MessageKept(Apply(s, step, maxAttempts), id)
  {
    hide Backoff;
    assert MessageKept(s, id);
    if step.lease in s.work { assert WorkKept(s, step.lease); }
  }

  /** No other step than a claim and the settling changes a message that stays. */
  lemma OtherSteps(s: State, step: Step, maxAttempts: nat, id: Str)
    requires id in s.messages && id in Apply(s, step, maxAttempts).messages
    requires !step.Claim? && !step.Deliver? && !step.Fail?
    requires step.Enqueue? ==> id in s.used
    ensures var t := Apply(s, step, maxAttempts);
            t.messages[id] == s.messages[id] && t.issued == s.issued && s.called <= t.called && s.used <= t.used
  {}

  lemma StepWork(s: State, step: Step, maxAttempts: nat, lease: Lease)
    requires Inv(s) && lease in Apply(s, step, maxAttempts).work
    ensures WorkKept(Apply(s, step, maxAttempts), lease)
  {
    if lease in s.work { KeptWork(s, step, maxAttempts, lease); } else { ClaimedWork(s, step, maxAttempts, lease); }
  }

  lemma ClaimedWork(s: State, step: Step, maxAttempts: nat, lease: Lease)
    requires lease !in s.work && lease in Apply(s, step, maxAttempts).work
    ensures WorkKept(Apply(s, step, maxAttempts), lease)
  {
    hide Backoff;
  }

  lemma KeptWork(s: State, step: Step, maxAttempts: nat, lease: Lease)
    requires Inv(s) && lease in s.work && lease in Apply(s, step, maxAttempts).work
    ensures WorkKept(Apply(s, step, maxAttempts), lease)
  {
    hide Backoff, Claimable;
    assert WorkKept(s, lease);
    HeldStays(s, step, maxAttempts, lease);
    hide Inv, Holds;
  }

  /** A worker that goes on holds its message exactly if it did, unsettled and with the attempts it claimed it with. */
  lemma HeldStays(s: State, step: Step, maxAttempts: nat, lease: Lease)
    requires Inv(s) && lease in s.work && lease in Apply(s, step, maxAttempts).work
    ensures var t := Apply(s, step, maxAttempts);
            Holds(t, lease, s.work[lease].id) ==>
              Holds(s, lease, s.work[lease].id) && t.messages[s.work[lease].id] == s.messages[s.work[lease].id]
  {
    hide Backoff, Claimable;
    assert WorkKept(s, lease);
    if s.work[lease].id in s.messages { assert MessageKept(s, s.work[lease].id); }
  }

  lemma {:induction false} RunKeeps(s: State, steps: seq<Step>, maxAttempts: nat)
    requires Inv(s)
    ensures Inv(Run(s, steps, maxAttempts))
    decreases |steps|
  {
    if steps != [] {
      StepKeeps(s, steps[0], maxAttempts);
      RunKeeps(Apply(s, steps[0], maxAttempts), steps[1..], maxAttempts);
    }
  }

  // --- attempts count the claims ---------------------------------------------------------------------

  ghost function Claims(issued: map<Lease, Str>, id: Str): set<Lease> { set l | l in issued && issued[l] == id }

  /** `attempts` is how often the message was ever claimed, and its claims are numbered apart. */
  ghost predicate Counted(s: State) {
    && (forall id :: id in s.messages ==> CountedMessage(s, id))
    && (forall lease :: lease in s.issued ==> NumberedLease(s, lease))
    && forall k, l :: k in s.issued && l in s.issued && k != l ==> NumberedApart(s, k, l)
  }

  ghost predicate CountedMessage(s: State, id: Str)
    requires id in s.messages
  {
    s.messages[id].attempts == |Claims(s.issued, id)|
  }

  ghost predicate NumberedLease(s: State, lease: Lease)
    requires lease in s.issued
  {
    && lease in s.turn && s.turn[lease] >= 1
    && (s.issued[lease] in s.messages ==> s.turn[lease] <= s.messages[s.issued[lease]].attempts)
  }

  ghost predicate NumberedApart(s: State, k: Lease, l: Lease)
    requires k in s.issued && l in s.issued
  {
    s.issued[k] == s.issued[l] && s.issued[k] in s.messages ==> k in s.turn && l in s.turn && s.turn[k] != s.turn[l]
  }

  lemma ClaimsGrow(issued: map<Lease, Str>, lease: Lease, claimed: Str, id: Str)
    requires lease !in issued
    ensures |Claims(issued[lease := claimed], id)| == |Claims(issued, id)| + if id == claimed then 1 else 0
  {
    var more := issued[lease := claimed];
    if id == claimed {
      assert Claims(more, id) == Claims(issued, id) + {lease};
    } else {
      assert Claims(more, id) == Claims(issued, id);
    }
  }

  /**
   * Every step keeps that `attempts` is how often the message was ever claimed, and that its claims are numbered apart, and
   * so from one to as many as there were.
   */
  lemma StepCounts(s: State, step: Step, maxAttempts: nat)
    requires Inv(s) && Counted(s)
    ensures Counted(Apply(s, step, maxAttempts))
  {
    if Apply(s, step, maxAttempts) == s {
    } else if step.Enqueue? {
      EnqueueCounts(s, step, maxAttempts);
    } else if step.Claim? {
      ClaimCounts(s, step, maxAttempts);
    } else {
      SameCounts(s, step, maxAttempts);
      StillCounted(s, Apply(s, step, maxAttempts));
    }
  }

  lemma EnqueueCounts(s: State, step: Step, maxAttempts: nat)
    requires Inv(s) && Counted(s) && step.Enqueue?
    ensures Counted(Apply(s, step, maxAttempts))
  {
    var t := Apply(s, step, maxAttempts);
    if t != s {
      assert Claims(s.issued, step.id) == {};
      forall id | id in t.messages
        ensures CountedMessage(t, id)
      { if id != step.id { assert CountedMessage(s, id); } }
      hide CountedMessage, Claims;
      forall lease | lease in t.issued
        ensures NumberedLease(t, lease)
      { assert NumberedLease(s, lease); }
      forall k, l | k in t.issued && l in t.issued && k != l
        ensures NumberedApart(t, k, l)
      { assert NumberedApart(s, k, l); }
    }
  }

  /** A claim is numbered after all earlier ones of its message. */
  lemma ClaimCounts(s: State, step: Step, maxAttempts: nat)
    requires Counted(s) && step.Claim?
    ensures Counted(Apply(s, step, maxAttempts))
  {
    hide Claims;
    var t := Apply(s, step, maxAttempts);
    if t != s {
      forall id | id in t.messages
        ensures CountedMessage(t, id)
      {
        assert CountedMessage(s, id);
        ClaimsGrow(s.issued, step.lease, step.id, id);
      }
      hide CountedMessage;
      forall lease | lease in t.issued
        ensures NumberedLease(t, lease)
      { if lease != step.lease { assert NumberedLease(s, lease); } }
      forall k, l | k in t.issued && l in t.issued && k != l
        ensures NumberedApart(t, k, l)
      {
        if k != step.lease { assert NumberedLease(s, k); }
        if l != step.lease { assert NumberedLease(s, l); }
        if k != step.lease && l != step.lease { assert NumberedApart(s, k, l); }
      }
    }
  }

  lemma StillCounted(s: State, t: State)
    requires Counted(s) && t.issued == s.issued && t.turn == s.turn
    requires forall id :: id in t.messages ==> id in s.messages && t.messages[id].attempts == s.messages[id].attempts
    ensures Counted(t)
  {
    hide Claims;
    forall id | id in t.messages
      ensures CountedMessage(t, id)
    { assert CountedMessage(s, id); }
    forall lease | lease in t.issued
      ensures NumberedLease(t, lease)
    { assert NumberedLease(s, lease); }
    forall k, l | k in t.issued && l in t.issued && k != l
      ensures NumberedApart(t, k, l)
    { assert NumberedApart(s, k, l); }
  }

  /** No other step changes a message's attempts or issues a lease. */
  lemma SameCounts(s: State, step: Step, maxAttempts: nat)
    requires (step.Enqueue? || step.Claim?) ==> Apply(s, step, maxAttempts) == s
    ensures var t := Apply(s, step, maxAttempts);
            && t.issued == s.issued && t.turn == s.turn
            && forall id :: id in t.messages ==> id in s.messages && t.messages[id].attempts == s.messages[id].attempts
  {
    hide Backoff, Claimable;
  }

  // --- what single steps and whole runs cannot do ----------------------------------------------------

  predicate SameOutcome(m: Message, n: Message) {
    m.deliveredAt == n.deliveredAt && m.failedAt == n.failedAt && m.lastError == n.lastError && m.payload == n.payload
  }

  /** Only the worker that holds the latest lease records an outcome, and only of its own callback. */
  lemma OutcomeByHolder(s: State, step: Step, maxAttempts: nat, id: Str)
    requires Inv(s) && id in s.messages && id in Apply(s, step, maxAttempts).messages
    requires !SameOutcome(s.messages[id], Apply(s, step, maxAttempts).messages[id])
    ensures (step.Deliver? || step.Fail?) && s.messages[id].lease == Some(step.lease) && step.lease in s.work
    ensures step.Deliver? ==> s.work[step.lease].phase == Called && step.lease in s.called
    ensures step.Fail? ==> s.work[step.lease].phase.Threw?
  {
    assert MessageKept(s, id);
    if step.Deliver? && step.lease in s.work { assert WorkKept(s, step.lease); }
  }

  /** A settled message never changes again. */
  lemma {:induction false} SettledStays(s: State, steps: seq<Step>, maxAttempts: nat, id: Str)
    requires Inv(s) && id in s.messages && Settled(s.messages[id])
    ensures var t := Run(s, steps, maxAttempts); id in t.messages ==> t.messages[id] == s.messages[id]
    decreases |steps|
  {
    if steps != [] {
      var t := Apply(s, steps[0], maxAttempts);
      assert MessageKept(s, id);
      StepKeeps(s, steps[0], maxAttempts);
      SettledStep(s, steps[0], maxAttempts, id);
      if id in t.messages {
        SettledStays(t, steps[1..], maxAttempts, id);
      } else {
        RemovedStays(t, steps[1..], maxAttempts, id);
      }
    }
  }

  lemma SettledStep(s: State, step: Step, maxAttempts: nat, id: Str)
    requires Inv(s) && id in s.messages && Settled(s.messages[id])
    ensures var t := Apply(s, step, maxAttempts); id in t.messages ==> t.messages[id] == s.messages[id]
  {
    hide Backoff;
    assert MessageKept(s, id);
    if (step.Deliver? || step.Fail?) && step.lease in s.work { assert WorkKept(s, step.lease); }
  }

  /** Ids are never used again. */
  lemma {:induction false} RemovedStays(s: State, steps: seq<Step>, maxAttempts: nat, id: Str)
    requires id in s.used && id !in s.messages
    ensures id !in Run(s, steps, maxAttempts).messages
    decreases |steps|
  {
    if steps != [] { RemovedStays(Apply(s, steps[0], maxAttempts), steps[1..], maxAttempts, id); }
  }

  lemma {:induction false} TimePasses(s: State, steps: seq<Step>, maxAttempts: nat)
    ensures Run(s, steps, maxAttempts).now >= s.now
    decreases |steps|
  {
    if steps != [] { TimePasses(Apply(s, steps[0], maxAttempts), steps[1..], maxAttempts); }
  }

  // --- what becomes of a message -----------------------------------------------------------------------

  /** The worker that holds the message records that its callback returned. */
  ghost predicate DeliversIt(s: State, step: Step, id: Str) {
    step.Deliver? && step.lease in s.work && s.work[step.lease].phase == Called && Holds(s, step.lease, id)
  }

  /** The worker that holds the message records that its callback, or its settling, threw. */
  ghost predicate FailsIt(s: State, step: Step, id: Str) {
    step.Fail? && step.lease in s.work && s.work[step.lease].phase.Threw? && Holds(s, step.lease, id)
  }

  /** Its last attempt failed. */
  ghost predicate GivesItUp(s: State, step: Step, id: Str, maxAttempts: nat) {
    FailsIt(s, step, id) && s.work[step.lease].attempts >= maxAttempts
  }

  /** One step on one message that it leaves there: what is recorded, and when nothing is. */
  lemma StepRecords(s: State, step: Step, maxAttempts: nat, id: Str)
    requires Inv(s) && id in s.messages && id in Apply(s, step, maxAttempts).messages
    ensures var m, n := s.messages[id], Apply(s, step, maxAttempts).messages[id];
            && (DeliversIt(s, step, id) ==>
                  !Settled(m) && n.deliveredAt == Some(s.now) && n.failedAt.None? && n.lastError.None? && n.payload == [])
            && (GivesItUp(s, step, id, maxAttempts) ==>
                  !Settled(m) && n.failedAt == Some(s.now) && n.deliveredAt.None?
                  && n.lastError == Some(s.work[step.lease].phase.error) && n.payload == [])
            && (FailsIt(s, step, id) && !GivesItUp(s, step, id, maxAttempts) ==>
                  !Settled(m) && !Settled(n) && n.lastError == Some(s.work[step.lease].phase.error) && n.payload == m.payload
                  && n.leaseUntil == Some(s.now + Backoff(s.work[step.lease].attempts)))
            && (!DeliversIt(s, step, id) ==> n.deliveredAt == m.deliveredAt)
            && (!GivesItUp(s, step, id, maxAttempts) ==> n.failedAt == m.failedAt)
            && (!DeliversIt(s, step, id) && !FailsIt(s, step, id) ==> n.lastError == m.lastError && n.payload == m.payload)
  {
    if step.Deliver? || step.Fail? {
      SettlingRecords(s, step, maxAttempts, id);
    } else {
      OthersRecordNothing(s, step, maxAttempts, id);
    }
    hide Backoff, Apply, Inv;
  }

  lemma OthersRecordNothing(s: State, step: Step, maxAttempts: nat, id: Str)
    requires Inv(s) && id in s.messages && id in Apply(s, step, maxAttempts).messages && !step.Deliver? && !step.Fail?
    ensures var m, n := s.messages[id], Apply(s, step, maxAttempts).messages[id];
            n.deliveredAt == m.deliveredAt && n.failedAt == m.failedAt && n.lastError == m.lastError && n.payload == m.payload
  {
    assert MessageKept(s, id);
  }

  lemma SettlingRecords(s: State, step: Step, maxAttempts: nat, id: Str)
    requires Inv(s) && id in s.messages && (step.Deliver? || step.Fail?)
    ensures id in Apply(s, step, maxAttempts).messages
    ensures var m, n := s.messages[id], Apply(s, step, maxAttempts).messages[id];
            && (DeliversIt(s, step, id) || FailsIt(s, step, id) ==> !Settled(m))
            && if DeliversIt(s, step, id) then
                 n.deliveredAt == Some(s.now) && n.failedAt.None? && n.lastError.None? && n.payload == []
               else if GivesItUp(s, step, id, maxAttempts) then
                 && n.failedAt == Some(s.now) && n.deliveredAt.None? && n.payload == []
                 && n.lastError == Some(s.work[step.lease].phase.error)
               else if FailsIt(s, step, id) then
                 !Settled(n) && n.lastError == Some(s.work[step.lease].phase.error) && n.payload == m.payload
                 && n.leaseUntil == Some(s.now + Backoff(s.work[step.lease].attempts))
               else n == m
  {
    hide Backoff;
    assert MessageKept(s, id);
    if step.lease in s.work { assert WorkKept(s, step.lease); }
  }

  lemma {:induction false} UsedGrows(s: State, steps: seq<Step>, maxAttempts: nat)
    ensures s.used <= Run(s, steps, maxAttempts).used
    decreases |steps|
  {
    if steps != [] { UsedGrows(Apply(s, steps[0], maxAttempts), steps[1..], maxAttempts); }
  }

  /** The k-th step of a run, where it is taken. */
  ghost predicate DeliveredAt(s: State, steps: seq<Step>, maxAttempts: nat, id: Str, k: nat) {
    k < |steps| && DeliversIt(Run(s, steps[..k], maxAttempts), steps[k], id)
  }

  ghost predicate GivenUpAt(s: State, steps: seq<Step>, maxAttempts: nat, id: Str, k: nat) {
    k < |steps| && GivesItUp(Run(s, steps[..k], maxAttempts), steps[k], id, maxAttempts)
  }

  /** What a run says of a message's delivery, and of its being given up. */
  ghost predicate DeliveryTold(s: State, steps: seq<Step>, maxAttempts: nat, id: Str, m: Message) {
    && (m.deliveredAt.Some? <==> exists k: nat :: DeliveredAt(s, steps, maxAttempts, id, k))
    && forall k: nat :: DeliveredAt(s, steps, maxAttempts, id, k) ==>
         m.deliveredAt == Some(Run(s, steps[..k], maxAttempts).now) && m.lastError.None?
  }

  ghost predicate GivingUpTold(s: State, steps: seq<Step>, maxAttempts: nat, id: Str, m: Message) {
    && (m.failedAt.Some? <==> exists k: nat :: GivenUpAt(s, steps, maxAttempts, id, k))
    && forall k: nat :: GivenUpAt(s, steps, maxAttempts, id, k) ==>
         var before := Run(s, steps[..k], maxAttempts);
         m.failedAt == Some(before.now) && m.lastError == Some(before.work[steps[k].lease].phase.error)
  }

  ghost predicate OutcomeTold(s: State, steps: seq<Step>, maxAttempts: nat, id: Str, m: Message) {
    DeliveryTold(s, steps, maxAttempts, id, m) && GivingUpTold(s, steps, maxAttempts, id, m)
  }

  /**
   * A message that was not settled is delivered exactly if, along the run, the worker that held it recorded that its
   * callback had returned, and at that moment; and given up exactly if the worker that held it recorded the failure of its
   * last attempt, at that moment and with that error.
   */
  lemma {:induction false} OutcomeExactly(s: State, steps: seq<Step>, maxAttempts: nat, id: Str)
    requires Inv(s) && (id in s.messages ==> !Settled(s.messages[id]))
    requires id in Run(s, steps, maxAttempts).messages
    ensures OutcomeTold(s, steps, maxAttempts, id, Run(s, steps, maxAttempts).messages[id])
    decreases |steps|
  {
    if steps == [] {
    } else {
      var n := |steps| - 1;
      var before, last := steps[..n], steps[n];
      assert steps == before + [last];
      RunMore(s, before, last, maxAttempts);
      RunKeeps(s, before, maxAttempts);
      var u := Run(s, before, maxAttempts);
      if id in u.messages {
        OutcomeExactly(s, before, maxAttempts, id);
        StepRecords(u, last, maxAttempts, id);
        ToldMore(s, before, last, maxAttempts, id);
      } else {
        EnqueuedTold(s, before, last, maxAttempts, id);
      }
    }
  }

  /** A request to enqueue under this id, with something to deliver. */
  predicate Asks(step: Step, id: Str) { step.Enqueue? && step.id == id && step.sealed != [] }

  /** The first such request of the run. */
  ghost predicate FirstAsked(steps: seq<Step>, id: Str, k: nat) {
    k < |steps| && Asks(steps[k], id) && forall j :: 0 <= j < k ==> !Asks(steps[j], id)
  }

  ghost predicate Stands(steps: seq<Step>, id: Str, k: nat) {
    FirstAsked(steps, id, k) && forall j :: k < j < |steps| ==> steps[j] != Remove(id)
  }

  /** What one step means for the message of this id. */
  lemma StepOrigin(s: State, step: Step, maxAttempts: nat, id: Str)
    requires Inv(s)
    ensures var t := Apply(s, step, maxAttempts);
            && (id in t.used <==> id in s.used || Asks(step, id))
            && (Asks(step, id) && id !in s.used ==>
                  && id in t.messages && t.messages[id].createdAt == s.now
                  && t.messages[id].payload == step.sealed && !Settled(t.messages[id]))
            && (step == Remove(id) ==> id !in t.messages)
            && (!(Asks(step, id) && id !in s.used) && step != Remove(id) ==> (id in t.messages <==> id in s.messages))
            && (id in s.messages && id in t.messages ==>
                  && t.messages[id].createdAt == s.messages[id].createdAt
                  && (t.messages[id].payload == s.messages[id].payload || Settled(t.messages[id])))
  {
    hide Backoff;
    assert id in s.messages ==> MessageKept(s, id);
  }

  lemma FirstMore(before: seq<Step>, last: Step, id: Str, k: nat)
    requires k < |before|
    ensures FirstAsked(before + [last], id, k) <==> FirstAsked(before, id, k)
    ensures Stands(before + [last], id, k) <==> Stands(before, id, k) && last != Remove(id)
  {
    var steps := before + [last];
    assert forall j :: 0 <= j < |before| ==> steps[j] == before[j];
    assert steps[|before|] == last;
  }

  ghost predicate EverAsked(steps: seq<Step>, id: Str) { exists k :: 0 <= k < |steps| && Asks(steps[k], id) }

  ghost predicate SomeStands(steps: seq<Step>, id: Str) { exists k: nat :: Stands(steps, id, k) }

  /** The moment, and what is to be delivered until it is settled. */
  ghost predicate KeptSince(m: Message, now: int, sealed: Str) {
    m.createdAt == now && m.payload == if Settled(m) then [] else sealed
  }

  ghost predicate KeptTold(s: State, steps: seq<Step>, maxAttempts: nat, id: Str, m: Message) {
    forall k: nat :: FirstAsked(steps, id, k) ==> KeptSince(m, Run(s, steps[..k], maxAttempts).now, steps[k].sealed)
  }

  lemma EverMore(before: seq<Step>, last: Step, id: Str)
    ensures EverAsked(before + [last], id) <==> EverAsked(before, id) || Asks(last, id)
  {
    var steps := before + [last];
    hide Asks;
    assert forall j :: 0 <= j < |before| ==> steps[j] == before[j];
    assert steps[|before|] == last;
  }

  lemma StandsMore(before: seq<Step>, last: Step, id: Str)
    ensures SomeStands(before + [last], id) <==>
            if Asks(last, id) && !EverAsked(before, id) then true
            else SomeStands(before, id) && last != Remove(id)
  {
    var steps, n := before + [last], |before|;
    assert steps[n] == last && forall j :: 0 <= j < n ==> steps[j] == before[j];
    forall k: nat | k < n
      ensures Stands(steps, id, k) <==> Stands(before, id, k) && last != Remove(id)
    { FirstMore(before, last, id, k); }
    hide Asks;
    if Asks(last, id) && !EverAsked(before, id) { assert Stands(steps, id, n); }
    if k: nat :| Stands(before, id, k) { assert k < n; }
  }

  /**
   * A message is there exactly since the first time something was enqueued under its id, until it is removed; it keeps
   * that moment and, until it is settled, what was enqueued.
   */
  lemma {:induction false} EnqueuedExactly(s: State, steps: seq<Step>, maxAttempts: nat, id: Str)
    requires Inv(s) && id !in s.used
    ensures var t := Run(s, steps, maxAttempts);
            && (id in t.used <==> EverAsked(steps, id))
            && (id in t.messages <==> SomeStands(steps, id))
            && (id in t.messages ==> KeptTold(s, steps, maxAttempts, id, t.messages[id]))
    decreases |steps|
  {
    hide Apply, Inv, EverAsked, SomeStands, KeptTold;
    if steps == [] {
      NothingAsked(s, id);
      RunNothing(s, maxAttempts);
    } else {
      var n := |steps| - 1;
      var before, last := steps[..n], steps[n];
      assert steps == before + [last];
      hide Run;
      RunMore(s, before, last, maxAttempts);
      RunKeeps(s, before, maxAttempts);
      RunKeeps(s, steps, maxAttempts);
      EnqueuedExactly(s, before, maxAttempts, id);
      var u := Run(s, before, maxAttempts);
      UsedIds(u, id);
      StepOrigin(u, last, maxAttempts, id);
      EverMore(before, last, id);
      StandsMore(before, last, id);
      if id in Run(s, steps, maxAttempts).messages { KeptMore(s, before, last, maxAttempts, id); }
    }
  }

  lemma RunNothing(s: State, maxAttempts: nat)
    ensures Run(s, [], maxAttempts) == s
  {}

  lemma NothingAsked(s: State, id: Str)
    requires Inv(s) && id !in s.used
    ensures id !in s.messages && !EverAsked([], id) && !SomeStands([], id)
  {
    assert id in s.messages ==> MessageKept(s, id);
  }

  lemma UsedIds(s: State, id: Str)
    requires Inv(s)
    ensures id in s.messages ==> id in s.used && (s.messages[id].payload == [] <==> Settled(s.messages[id]))
  {
    assert id in s.messages ==> MessageKept(s, id);
  }

  lemma KeptMore(s: State, before: seq<Step>, last: Step, maxAttempts: nat, id: Str)
    requires var u, t := Run(s, before, maxAttempts), Run(s, before + [last], maxAttempts);
             && Inv(u) && Inv(t) && t == Apply(u, last, maxAttempts) && id in t.messages
             && (id in u.used <==> EverAsked(before, id))
             && (id in u.messages ==> KeptTold(s, before, maxAttempts, id, u.messages[id]))
    ensures KeptTold(s, before + [last], maxAttempts, id, Run(s, before + [last], maxAttempts).messages[id])
  {
    hide Inv, Apply, Run, Settled;
    var steps, n := before + [last], |before|;
    var u, t := Run(s, before, maxAttempts), Run(s, steps, maxAttempts);
    StepOrigin(u, last, maxAttempts, id);
    UsedIds(t, id);
    UsedIds(u, id);
    forall k: nat | FirstAsked(steps, id, k)
      ensures KeptSince(t.messages[id], Run(s, steps[..k], maxAttempts).now, steps[k].sealed)
    {
      if k < n {
        FirstMore(before, last, id, k);
        assert EverAsked(before, id) && steps[..k] == before[..k] && steps[k] == before[k];
      } else {
        LastAsked(before, last, id);
      }
    }
  }

  /** When the last step is the first to ask, none before it did. */
  lemma LastAsked(before: seq<Step>, last: Step, id: Str)
    requires FirstAsked(before + [last], id, |before|)
    ensures !EverAsked(before, id) && Asks(last, id)
    ensures (before + [last])[..|before|] == before && (before + [last])[|before|] == last
  {
    assert forall j :: 0 <= j < |before| ==> (before + [last])[j] == before[j];
  }

  lemma EarlierSame(s: State, before: seq<Step>, last: Step, maxAttempts: nat, id: Str, k: nat)
    requires k < |before|
    ensures DeliveredAt(s, before + [last], maxAttempts, id, k) <==> DeliveredAt(s, before, maxAttempts, id, k)
    ensures GivenUpAt(s, before + [last], maxAttempts, id, k) <==> GivenUpAt(s, before, maxAttempts, id, k)
    ensures Run(s, (before + [last])[..k], maxAttempts) == Run(s, before[..k], maxAttempts)
  {
    assert (before + [last])[..k] == before[..k];
  }

  /** The last step's part in it. */
  lemma LastSame(s: State, before: seq<Step>, last: Step, maxAttempts: nat, id: Str)
    ensures var u, n := Run(s, before, maxAttempts), |before|;
            && (DeliveredAt(s, before + [last], maxAttempts, id, n) <==> DeliversIt(u, last, id))
            && (GivenUpAt(s, before + [last], maxAttempts, id, n) <==> GivesItUp(u, last, id, maxAttempts))
            && Run(s, (before + [last])[..n], maxAttempts) == u && (before + [last])[n] == last
  {
    assert (before + [last])[..|before|] == before;
  }

  lemma ToldMore(s: State, before: seq<Step>, last: Step, maxAttempts: nat, id: Str)
    requires var u := Run(s, before, maxAttempts);
             && Inv(u) && id in u.messages && id in Apply(u, last, maxAttempts).messages
             && OutcomeTold(s, before, maxAttempts, id, u.messages[id])
    ensures OutcomeTold(s, before + [last], maxAttempts, id, Apply(Run(s, before, maxAttempts), last, maxAttempts).messages[id])
  {
    DeliveryMore(s, before, last, maxAttempts, id);
    GivingUpMore(s, before, last, maxAttempts, id);
  }

  lemma DeliveryMore(s: State, before: seq<Step>, last: Step, maxAttempts: nat, id: Str)
    requires var u := Run(s, before, maxAttempts);
             && Inv(u) && id in u.messages && id in Apply(u, last, maxAttempts).messages
             && DeliveryTold(s, before, maxAttempts, id, u.messages[id])
    ensures DeliveryTold(s, before + [last], maxAttempts, id, Apply(Run(s, before, maxAttempts), last, maxAttempts).messages[id])
  {
    hide Run, Apply, Inv, DeliversIt, FailsIt, GivesItUp, GivenUpAt;
    var u, steps, n := Run(s, before, maxAttempts), before + [last], |before|;
    var m := Apply(u, last, maxAttempts).messages[id];
    StepRecords(u, last, maxAttempts, id);
    LastSame(s, before, last, maxAttempts, id);
    forall k: nat | DeliveredAt(s, steps, maxAttempts, id, k)
      ensures m.deliveredAt == Some(Run(s, steps[..k], maxAttempts).now) && m.lastError.None?
    { EarlierDelivery(s, before, last, maxAttempts, id, k); }
    if m.deliveredAt.Some? && !DeliversIt(u, last, id) {
      var k: nat :| DeliveredAt(s, before, maxAttempts, id, k);
      DeliveryWithin(s, before, maxAttempts, id, k);
      EarlierSame(s, before, last, maxAttempts, id, k);
    }
  }

  lemma DeliveryWithin(s: State, steps: seq<Step>, maxAttempts: nat, id: Str, k: nat)
    requires DeliveredAt(s, steps, maxAttempts, id, k) || GivenUpAt(s, steps, maxAttempts, id, k)
    ensures k < |steps|
  {}

  /** A delivery along the run is the last step's, or an earlier one that the run before already tells. */
  lemma EarlierDelivery(s: State, before: seq<Step>, last: Step, maxAttempts: nat, id: Str, k: nat)
    requires DeliveredAt(s, before + [last], maxAttempts, id, k) || GivenUpAt(s, before + [last], maxAttempts, id, k)
    ensures k == |before| ||
            (k < |before| && (before + [last])[k] == before[k] && (before + [last])[..k] == before[..k]
             && (DeliveredAt(s, before + [last], maxAttempts, id, k) ==> DeliveredAt(s, before, maxAttempts, id, k))
             && (GivenUpAt(s, before + [last], maxAttempts, id, k) ==> GivenUpAt(s, before, maxAttempts, id, k)))
  {
    hide Run, DeliversIt, GivesItUp;
    if k < |before| { assert (before + [last])[..k] == before[..k]; }
  }

  lemma GivingUpMore(s: State, before: seq<Step>, last: Step, maxAttempts: nat, id: Str)
    requires var u := Run(s, before, maxAttempts);
             && Inv(u) && id in u.messages && id in Apply(u, last, maxAttempts).messages
             && GivingUpTold(s, before, maxAttempts, id, u.messages[id])
    ensures GivingUpTold(s, before + [last], maxAttempts, id, Apply(Run(s, before, maxAttempts), last, maxAttempts).messages[id])
  {
    hide Run, Apply, Inv, DeliversIt, DeliveredAt;
    var u, steps, n := Run(s, before, maxAttempts), before + [last], |before|;
    var m := Apply(u, last, maxAttempts).messages[id];
    StepRecords(u, last, maxAttempts, id);
    LastSame(s, before, last, maxAttempts, id);
    forall k: nat | GivenUpAt(s, steps, maxAttempts, id, k)
      ensures var earlier := Run(s, steps[..k], maxAttempts);
              m.failedAt == Some(earlier.now) && m.lastError == Some(earlier.work[steps[k].lease].phase.error)
    { EarlierDelivery(s, before, last, maxAttempts, id, k); }
    if m.failedAt.Some? && !GivesItUp(u, last, id, maxAttempts) {
      var k: nat :| GivenUpAt(s, before, maxAttempts, id, k);
      DeliveryWithin(s, before, maxAttempts, id, k);
      EarlierSame(s, before, last, maxAttempts, id, k);
    }
  }

  lemma EnqueuedTold(s: State, before: seq<Step>, last: Step, maxAttempts: nat, id: Str)
    requires Inv(s)
    requires var u := Run(s, before, maxAttempts); id !in u.messages && id in Apply(u, last, maxAttempts).messages
    ensures OutcomeTold(s, before + [last], maxAttempts, id, Apply(Run(s, before, maxAttempts), last, maxAttempts).messages[id])
  {
    var u := Run(s, before, maxAttempts);
    LastSame(s, before, last, maxAttempts, id);
    assert last.Enqueue? && id !in u.used;
    forall k: nat
      ensures !DeliveredAt(s, before + [last], maxAttempts, id, k) && !GivenUpAt(s, before + [last], maxAttempts, id, k)
    {
      if k < |before| {
        EarlierSame(s, before, last, maxAttempts, id, k);
        NotThere(s, before, maxAttempts, id, k);
      }
    }
  }

  /** Nothing happened before to a message that is only enqueued now. */
  lemma NotThere(s: State, steps: seq<Step>, maxAttempts: nat, id: Str, k: nat)
    requires Inv(s) && id !in Run(s, steps, maxAttempts).used && k < |steps|
    ensures id !in Run(s, steps[..k], maxAttempts).messages
  {
    var u := Run(s, steps[..k], maxAttempts);
    RunKeeps(s, steps[..k], maxAttempts);
    RunParts(s, steps[..k], steps[k..], maxAttempts);
    assert steps[..k] + steps[k..] == steps;
    UsedGrows(u, steps[k..], maxAttempts);
    MessagesUsed(u);
  }

  lemma MessagesUsed(s: State)
    requires Inv(s)
    ensures forall id :: id in s.messages ==> id in s.used
  {
    forall id | id in s.messages
      ensures id in s.used
    { assert MessageKept(s, id); }
  }

  lemma {:induction false} RunParts(s: State, a: seq<Step>, b: seq<Step>, maxAttempts: nat)
    ensures Run(s, a + b, maxAttempts) == Run(Run(s, a, maxAttempts), b, maxAttempts)
    decreases |a|
  {
    if a == [] {
      assert a + b == b;
    } else {
      assert (a + b)[0] == a[0] && (a + b)[1..] == a[1..] + b;
      RunParts(Apply(s, a[0], maxAttempts), a[1..], b, maxAttempts);
    }
  }

  /** Under a lease whose worker is done a message stays as it is: it is claimed anew, removed, or the same. */
  ghost predicate Quiet(s: State, t: State) {
    forall lease :: lease in s.issued && lease !in s.work ==> QuietLease(s, t, lease)
  }

  ghost predicate QuietLease(s: State, t: State, lease: Lease) {
    && lease in t.issued && lease !in t.work && SameTurn(s.turn, t.turn, lease)
    && forall id :: Holds(t, lease, id) ==> Holds(s, lease, id) && t.messages[id] == s.messages[id]
  }

  lemma StepQuiet(s: State, step: Step, maxAttempts: nat)
    requires Inv(s)
    ensures Quiet(s, Apply(s, step, maxAttempts))
  {
    hide Apply, Inv;
    var t := Apply(s, step, maxAttempts);
    forall lease | lease in s.issued && lease !in s.work
      ensures QuietLease(s, t, lease)
    {
      QuietIssue(s, step, maxAttempts, lease);
      forall id | Holds(t, lease, id)
        ensures Holds(s, lease, id) && t.messages[id] == s.messages[id]
      { QuietMessage(s, step, maxAttempts, lease, id); }
    }
  }

  lemma QuietIssue(s: State, step: Step, maxAttempts: nat, lease: Lease)
    requires lease in s.issued && lease !in s.work
    ensures var t := Apply(s, step, maxAttempts); lease in t.issued && lease !in t.work && SameTurn(s.turn, t.turn, lease)
  {
    hide Backoff, Claimable;
  }

  lemma QuietMessage(s: State, step: Step, maxAttempts: nat, lease: Lease, id: Str)
    requires Inv(s) && lease in s.issued && lease !in s.work && Holds(Apply(s, step, maxAttempts), lease, id)
    ensures Holds(s, lease, id) && Apply(s, step, maxAttempts).messages[id] == s.messages[id]
  {
    hide Backoff, Claimable, Inv;
  }

  lemma {:induction false} RunQuiet(s: State, steps: seq<Step>, maxAttempts: nat)
    requires Inv(s)
    ensures Quiet(s, Run(s, steps, maxAttempts))
    decreases |steps|
  {
    if steps == [] {
    } else {
      var t := Apply(s, steps[0], maxAttempts);
      StepKeeps(s, steps[0], maxAttempts);
      StepQuiet(s, steps[0], maxAttempts);
      RunQuiet(t, steps[1..], maxAttempts);
      hide Inv, Apply, QuietLease;
      QuietTwice(s, t, Run(t, steps[1..], maxAttempts));
    }
  }

  lemma QuietTwice(s: State, t: State, u: State)
    requires Quiet(s, t) && Quiet(t, u)
    ensures Quiet(s, u)
  {
    forall lease | lease in s.issued && lease !in s.work
      ensures QuietLease(s, u, lease)
    { assert QuietLease(s, t, lease) && QuietLease(t, u, lease); }
  }

  ghost predicate NotSettledBy(steps: seq<Step>, lease: Lease) {
    forall i :: 0 <= i < |steps| ==> steps[i] != Deliver(lease) && steps[i] != Fail(lease)
  }

  /** A claimed message stays as it is unless its holder settles it, its lease has run out or it is removed. */
  lemma LeaseStep(s: State, step: Step, maxAttempts: nat, id: Str, lease: Lease, until: int)
    requires Inv(s) && Holds(s, lease, id) && s.messages[id].leaseUntil == Some(until)
    requires (step != Deliver(lease) && step != Fail(lease)) || lease !in s.work
    ensures var t := Apply(s, step, maxAttempts);
            && t.now >= s.now && id in t.used && (lease !in s.work ==> lease !in t.work)
            && (id in t.messages && t.messages[id] != s.messages[id] ==> s.now >= until)
  {
    hide Backoff;
    assert MessageKept(s, id);
  }

  /** Until its lease runs out, a claimed message changes only by its holder's hand: nobody else can claim it. */
  lemma {:induction false} LeaseExclusive(s: State, steps: seq<Step>, maxAttempts: nat, id: Str, lease: Lease, until: int)
    requires Inv(s) && Holds(s, lease, id) && s.messages[id].leaseUntil == Some(until)
    requires NotSettledBy(steps, lease) || lease !in s.work
    ensures var t := Run(s, steps, maxAttempts);
            id in t.messages && t.messages[id] != s.messages[id] ==> t.now >= until
    decreases |steps|
  {
    if steps != [] {
      var t := Apply(s, steps[0], maxAttempts);
      LeaseStep(s, steps[0], maxAttempts, id, lease, until);
      StepKeeps(s, steps[0], maxAttempts);
      hide Inv, Apply;
      if id !in t.messages {
        RemovedStays(t, steps[1..], maxAttempts, id);
      } else if t.messages[id] == s.messages[id] {
        LeaseExclusive(t, steps[1..], maxAttempts, id, lease, until);
      } else {
        TimePasses(t, steps[1..], maxAttempts);
      }
    }
  }

  /** After a claim, no one else claims the message for a minute. */
  lemma ClaimExcludes(s: State, id: Str, lease: Lease, steps: seq<Step>, maxAttempts: nat)
    requires Inv(s) && lease !in s.issued && id in s.messages && Claimable(s.messages[id], s.now)
    requires NotSettledBy(steps, lease)
    ensures var m := ClaimedMessage(s.messages[id], lease, s.now);
            var t := Run(Apply(s, Claim(lease, id), maxAttempts), steps, maxAttempts);
            id in t.messages && t.messages[id] != m ==> t.now >= s.now + LEASE_MS
  {
    StepKeeps(s, Claim(lease, id), maxAttempts);
    LeaseExclusive(Apply(s, Claim(lease, id), maxAttempts), steps, maxAttempts, id, lease, s.now + LEASE_MS);
  }

  /** After a recorded failure, no one claims the message before the backoff has passed. */
  lemma FailureWaits(s: State, id: Str, lease: Lease, steps: seq<Step>, maxAttempts: nat)
    requires Inv(s) && Holds(s, lease, id) && lease in s.work && s.work[lease].phase.Threw?
    requires s.messages[id].attempts < maxAttempts
    ensures var m := FailedMessage(s.messages[id], s.messages[id].attempts, maxAttempts, s.now, s.work[lease].phase.error);
            var t := Run(Apply(s, Fail(lease), maxAttempts), steps, maxAttempts);
            id in t.messages && t.messages[id] != m ==> t.now >= s.now + Backoff(s.messages[id].attempts)
  {
    assert WorkKept(s, lease) && MessageKept(s, id);
    StepKeeps(s, Fail(lease), maxAttempts);
    hide Backoff;
    LeaseExclusive(Apply(s, Fail(lease), maxAttempts), steps, maxAttempts, id, lease,
                   s.now + Backoff(s.messages[id].attempts));
  }

  /** After a claim that nothing follows, the next claim takes exactly once a minute has passed. */
  lemma LeaseEnds(s: State, id: Str, lease: Lease, elapsed: nat, next: Lease, maxAttempts: nat)
    requires lease !in s.issued && next !in s.issued && next != lease && id in s.messages && Claimable(s.messages[id], s.now)
    ensures var t := Apply(Apply(s, Claim(lease, id), maxAttempts), Tick(elapsed), maxAttempts);
            Holds(Apply(t, Claim(next, id), maxAttempts), next, id) <==> elapsed >= 60_000
  {}

  /** After the failure of an attempt that was not the last, exactly once the backoff has passed; after the last, never. */
  lemma WaitEnds(s: State, id: Str, lease: Lease, elapsed: nat, next: Lease, maxAttempts: nat)
    requires Inv(s) && Holds(s, lease, id) && lease in s.work && s.work[lease].phase.Threw? && s.work[lease].id == id
    requires next !in s.issued
    ensures var t := Apply(Apply(s, Fail(lease), maxAttempts), Tick(elapsed), maxAttempts);
            Holds(Apply(t, Claim(next, id), maxAttempts), next, id) <==>
            s.messages[id].attempts < maxAttempts && elapsed >= Backoff(s.messages[id].attempts)
  {
    assert WorkKept(s, lease) && MessageKept(s, id);
    hide Backoff;
  }

  /** The waits: 30 seconds, doubling with every attempt, and an hour from the eighth on. */
  lemma {:induction false} BackoffDoubles(attempts: nat)
    requires attempts >= 1
    ensures Backoff(1) == 30_000
    ensures Backoff(attempts + 1) == if 2 * Backoff(attempts) < 3_600_000 then 2 * Backoff(attempts) else 3_600_000
    ensures Backoff(attempts) == 3_600_000 <==> attempts >= 8
  {
    DoubledSeven(attempts - 1);
  }

  lemma {:induction false} DoubledSeven(times: nat)
    ensures Doubled(FIRST_BACKOFF, times) >= FIRST_BACKOFF
    ensures Doubled(FIRST_BACKOFF, times) >= LONGEST_BACKOFF <==> times >= 7
  {
    if times == 7 {
      assert Doubled(FIRST_BACKOFF, 2) == 120_000;
      assert Doubled(FIRST_BACKOFF, 4) == 480_000;
      assert Doubled(FIRST_BACKOFF, 6) == 1_920_000;
    } else if times > 7 {
      DoubledSeven(times - 1);
    } else {
      assert Doubled(FIRST_BACKOFF, 2) == 120_000;
      assert Doubled(FIRST_BACKOFF, 4) == 480_000;
      assert Doubled(FIRST_BACKOFF, 6) == 1_920_000;
    }
  }

  // --- one worker among others -----------------------------------------------------------------------

  datatype Outcome = Returns | Throws(error: Str) | SettlingThrows(error: Str)

  datatype DispatchResult = DispatchResult(delivered: nat, failed: nat, abandoned: nat)

  /** A message as `find` returns it. */
  datatype Found = Found(id: Str, message: Message)

  /** Oldest first, ties by id. */
  predicate Before(a: Found, b: Found) {
    a.message.createdAt < b.message.createdAt || (a.message.createdAt == b.message.createdAt && UnitLess(a.id, b.id))
  }

  /** Every stored message, as it is. */
  ghost predicate Lists(found: seq<Found>, messages: map<Str, Message>) {
    forall entry: Found :: entry in found <==> entry.id in messages && messages[entry.id] == entry.message
  }

  predicate Open(entry: Found, now: int) { Claimable(entry.message, now) }

  /** What a dispatch tries, in order. */
  function Candidates(found: seq<Found>, now: int, limit: nat): seq<Found> {
    Page(Sort(Where(found, (entry: Found) => Open(entry, now)), Before), 0, Some(limit))
  }

  lemma BeforeOrdered()
    ensures WeakOrder(Before)
  {
    forall a: Found, b: Found, c: Found
      ensures Before(a, b) ==> !Before(b, a)
      ensures !Before(b, a) && !Before(c, b) ==> !Before(c, a)
    { UnitsOrdered(a.id, b.id, c.id); }
  }

  /** As old as the other or older, and of the same age with no greater id. */
  predicate NoYounger(a: Found, b: Found) {
    a.message.createdAt <= b.message.createdAt && (a.message.createdAt == b.message.createdAt ==> !UnitLess(b.id, a.id))
  }

  lemma NoneBefore(a: Found, b: Found)
    requires !Before(b, a)
    ensures NoYounger(a, b)
  {}

  /** The candidates are the oldest claimable messages of the store, oldest first, as many as the limit allows. */
  lemma OldestFirst(found: seq<Found>, messages: map<Str, Message>, now: int, limit: nat)
    requires Lists(found, messages)
    ensures var chosen := Candidates(found, now, limit);
            && |chosen| <= limit && (forall i, j :: 0 <= i < j < |chosen| ==> NoYounger(chosen[i], chosen[j]))
            && (forall entry :: entry in chosen ==>
                  entry.id in messages && messages[entry.id] == entry.message && Claimable(entry.message, now))
            && forall id :: id in messages && Claimable(messages[id], now) && Found(id, messages[id]) !in chosen ==>
                 |chosen| == limit && forall entry :: entry in chosen ==> NoYounger(entry, Found(id, messages[id]))
  {
    var open := (entry: Found) => Open(entry, now);
    var sorted := Sort(Where(found, open), Before);
    var chosen := Candidates(found, now, limit);
    BeforeOrdered();
    SortOrdered(Where(found, open), Before);
    forall entry: Found
      ensures entry in sorted <==> entry in found && Claimable(entry.message, now)
    { WhereMember(found, open, entry); }
    FirstOrdered(sorted, limit);
    assert chosen == Page(sorted, 0, Some(limit));
    hide Where, Sort, Before, WeakOrder, Candidates, Claimable, NoYounger;
    forall i, j | 0 <= i < j < |chosen|
      ensures NoYounger(chosen[i], chosen[j])
    { NoneBefore(chosen[i], chosen[j]); }
    forall id | id in messages && Claimable(messages[id], now) && Found(id, messages[id]) !in chosen
      ensures |chosen| == limit && forall entry :: entry in chosen ==> NoYounger(entry, Found(id, messages[id]))
    {
      assert Found(id, messages[id]) in sorted;
      forall entry | entry in chosen
        ensures NoYounger(entry, Found(id, messages[id]))
      { NoneBefore(entry, Found(id, messages[id])); }
    }
  }

  /** The first of an ordered list come before no other. */
  lemma FirstOrdered(sorted: seq<Found>, limit: nat)
    requires Ordered(sorted, Before)
    ensures var chosen := Page(sorted, 0, Some(limit));
            && |chosen| <= limit && Ordered(chosen, Before) && (forall entry :: entry in chosen ==> entry in sorted)
            && forall entry :: entry in sorted && entry !in chosen ==>
                 |chosen| == limit && forall other :: other in chosen ==> !Before(entry, other)
  {
    hide Before;
    var chosen := Page(sorted, 0, Some(limit));
    assert forall i :: 0 <= i < |chosen| ==> sorted[i] == chosen[i] && chosen[i] in chosen;
    forall entry | entry in sorted && entry !in chosen
      ensures |chosen| == limit && forall other :: other in chosen ==> !Before(entry, other)
    {
      var k :| 0 <= k < |sorted| && sorted[k] == entry;
    }
  }

  /** Of the first `n` leases, those that were issued for a message whose callback returned, or did not. */
  function Tried(issued: map<Lease, Str>, leases: seq<Lease>, outcomes: nat -> Outcome, n: nat, returned: bool): nat
    requires n <= |leases|
  {
    if n == 0 then 0
    else Tried(issued, leases, outcomes, n - 1, returned)
         + if leases[n - 1] in issued && outcomes(n - 1).Returns? == returned then 1 else 0
  }

  lemma {:induction false} TriedSame(a: map<Lease, Str>, b: map<Lease, Str>, leases: seq<Lease>, outcomes: nat -> Outcome, n: nat, returned: bool)
    requires n <= |leases| && forall i :: 0 <= i < n ==> (leases[i] in a <==> leases[i] in b)
    ensures Tried(a, leases, outcomes, n, returned) == Tried(b, leases, outcomes, n, returned)
  {
    if n > 0 { TriedSame(a, b, leases, outcomes, n - 1, returned); }
  }

  /** Of the first `n` leases, those that were issued for the last attempt a message has, and whose callback did not return. */
  function GivenUp(turn: map<Lease, nat>, leases: seq<Lease>, outcomes: nat -> Outcome, n: nat, maxAttempts: nat): nat
    requires n <= |leases|
  {
    if n == 0 then 0
    else GivenUp(turn, leases, outcomes, n - 1, maxAttempts)
         + if leases[n - 1] in turn && !outcomes(n - 1).Returns? && turn[leases[n - 1]] >= maxAttempts then 1 else 0
  }

  lemma {:induction false} GivenUpSame(a: map<Lease, nat>, b: map<Lease, nat>, leases: seq<Lease>, outcomes: nat -> Outcome, n: nat,
                                       maxAttempts: nat)
    requires n <= |leases| && forall i :: 0 <= i < n ==> SameTurn(a, b, leases[i])
    ensures GivenUp(a, leases, outcomes, n, maxAttempts) == GivenUp(b, leases, outcomes, n, maxAttempts)
  {
    if n > 0 {
      assert SameTurn(a, b, leases[n - 1]);
      GivenUpSame(a, b, leases, outcomes, n - 1, maxAttempts);
    }
  }

  predicate SameTurn(a: map<Lease, nat>, b: map<Lease, nat>, lease: Lease) {
    (lease in a <==> lease in b) && (lease in a ==> a[lease] == b[lease])
  }

  lemma {:induction false} RunMore(s: State, steps: seq<Step>, step: Step, maxAttempts: nat)
    ensures Run(s, steps + [step], maxAttempts) == Apply(Run(s, steps, maxAttempts), step, maxAttempts)
    decreases |steps|
  {
    if steps == [] {
      assert [step][1..] == [];
      assert steps + [step] == [step];
    } else {
      assert (steps + [step])[0] == steps[0] && (steps + [step])[1..] == steps[1..] + [step];
      RunMore(Apply(s, steps[0], maxAttempts), steps[1..], step, maxAttempts);
    }
  }

  /** The store the workers share, with the run that brought it here. */
  class Store {
    const maxAttempts: nat
    const initial: State
    var state: State
    ghost var history: seq<Step>

    ghost predicate Valid()
      reads this
    {
      Inv(initial) && Inv(state) && state == Run(initial, history, maxAttempts)
    }

    constructor (initial: State, maxAttempts: nat)
      requires Inv(initial)
      ensures Valid() && state == initial && history == [] && this.maxAttempts == maxAttempts
    {
      this.maxAttempts := maxAttempts;
      this.initial := initial;
      state := initial;
      history := [];
    }

    /** One transaction, callback or event. */
    method Take(step: Step)
      requires Valid()
      modifies this
      ensures Valid() && state == Apply(old(state), step, maxAttempts) && history == old(history) + [step]
    {
      StepKeeps(state, step, maxAttempts);
      RunMore(initial, history, step, maxAttempts);
      state := Apply(state, step, maxAttempts);
      history := history + [step];
    }

    /** What others do meanwhile: anything, but with leases of their own. */
    method Meanwhile(steps: seq<Step>, ghost leases: seq<Lease>)
      requires Valid() && AllOthers(steps, leases)
      modifies this
      ensures Valid() && history == old(history) + steps
      ensures SameLeases(old(state), state, leases)
    {
      var i := 0;
      while i < |steps|
        invariant i <= |steps| && Valid() && history == old(history) + steps[..i]
        invariant SameLeases(old(state), state, leases)
      {
        hide Inv, Run;
        LeasesUntouched(state, steps[i], maxAttempts, leases);
        assert steps[..i + 1] == steps[..i] + [steps[i]];
        Take(steps[i]);
        i := i + 1;
      }
    }

    /** Others act, and then the worker that holds the lease goes on. */
    method Next(step: Step, lease: Lease, others: seq<Step>, ghost leases: seq<Lease>)
      requires Valid() && AllOthers(others, leases) && lease in leases && lease in state.work
      requires Own(step, lease, state.work[lease].phase)
      modifies this
      ensures Valid() && history == old(history) + others + [step]
      ensures OtherLeases(old(state), state, leases, lease)
      ensures SameIssue(old(state), state, lease) && Moved(old(state), step, lease, state)
      ensures SettledSo(old(state).work[lease], step, lease, state, maxAttempts)
    {
      hide Inv, Run, AllOthers, Apply, OtherLeases, SameLeases, SettledSo;
      ghost var before := state;
      Meanwhile(others, leases);
      Meantime(before, before, state, leases, lease);
      OwnStep(state, step, lease, maxAttempts, leases);
      OwnSettles(state, step, lease, maxAttempts);
      Onward(before, state, Apply(state, step, maxAttempts), leases, lease);
      Take(step);
    }

    /** One candidate is claimed if it still can be. */
    method TakeOn(id: Str, lease: Lease, others: seq<Step>, ghost leases: seq<Lease>) returns (claimed: bool)
      requires Valid() && lease in leases && lease !in state.issued && lease !in state.work && lease !in state.turn
      requires AllOthers(others, leases)
      modifies this
      ensures Valid() && old(history) <= history && OtherLeases(old(state), state, leases, lease)
      ensures claimed <==> lease in state.issued
      ensures !claimed ==> lease !in state.work && lease !in state.turn
      ensures claimed ==> state.issued[lease] == id && lease in state.work && state.work[lease].phase == Claimed
                          && lease in state.turn && state.turn[lease] == state.work[lease].attempts
    {
      hide Inv, Run, AllOthers, Apply, Claimable, OtherLeases, SameLeases;
      ghost var before := state;
      Meanwhile(others, leases);
      Meantime(before, before, state, leases, lease);
      if id !in state.messages || !Claimable(state.messages[id], state.now) { return false; }
      OwnClaim(state, lease, id, maxAttempts, leases);
      Onward(before, state, Apply(state, Claim(lease, id), maxAttempts), leases, lease);
      Take(Claim(lease, id));
      return true;
    }

    /** The worker's callback, or its settling, threw: it records the failure. */
    method Recover(lease: Lease, error: Str, before: seq<Step>, after: seq<Step>, ghost leases: seq<Lease>)
      requires Valid() && AllOthers(before, leases) && AllOthers(after, leases) && lease in leases && lease in state.work
      modifies this
      ensures Valid() && old(history) <= history && Fail(lease) in history
      ensures OtherLeases(old(state), state, leases, lease) && SameIssue(old(state), state, lease) && lease !in state.work
      ensures NotedLease(state, lease, Some(error), maxAttempts)
    {
      hide Inv, Run, AllOthers, OtherLeases, NotedLease;
      ghost var start := state;
      Next(Throw(lease, error), lease, before, leases);
      ghost var last := state;
      Next(Fail(lease), lease, after, leases);
      Onward(start, last, state, leases, lease);
      assert history[|history| - 1] == Fail(lease);
    }

    /**
     * One candidate: claimed if it still can be, called back, and settled, with others acting in between. The lease is
     * issued for the message exactly when it was claimed, and it is the last of its attempts if that was the most it has.
     */
    method Attempt(id: Str, lease: Lease, outcome: Outcome, others: nat -> seq<Step>, ghost leases: seq<Lease>)
      returns (tried: Attempted)
      requires Valid() && lease in leases && lease !in state.issued && lease !in state.work && lease !in state.turn
      requires forall k :: AllOthers(others(k), leases)
      modifies this
      ensures Valid() && old(history) <= history
      ensures lease !in state.work && OtherLeases(old(state), state, leases, lease)
      ensures tried.Skipped? <==> lease !in state.issued
      ensures tried.Skipped? <==> lease !in state.turn
      ensures !tried.Skipped? ==> state.issued[lease] == id
      ensures tried.Delivered? ==> outcome.Returns? && Deliver(lease) in history
      ensures tried.Failed? ==> !outcome.Returns? && Fail(lease) in history
      ensures tried.Failed? ==> (tried.exhausted <==> state.turn[lease] >= maxAttempts)
      ensures !tried.Skipped? ==> NotedLease(state, lease, ErrorOf(outcome), maxAttempts)
    {
      hide Inv, Run, AllOthers, OtherLeases, NotedLease;
      ghost var start := state;
      var claimed := TakeOn(id, lease, others(0), leases);
      if !claimed { return Skipped; }
      ghost var last := state;
      var attempts := state.work[lease].attempts;
      if !outcome.Throws? {
        Next(CallBack(lease), lease, others(1), leases);
        Onward(start, last, state, leases, lease);
        last := state;
      }
      if outcome.Returns? {
        Next(Deliver(lease), lease, others(2), leases);
        Onward(start, last, state, leases, lease);
        assert history[|history| - 1] == Deliver(lease);
        return Delivered;
      }
      Recover(lease, outcome.error, others(if outcome.Throws? then 1 else 2), others(3), leases);
      Onward(start, last, state, leases, lease);
      return Failed(attempts >= maxAttempts);
    }

    /**
     * `dispatchOutbox`: the oldest claimable messages are tried, each under a lease of its own, while others act in
     * between. Whatever they do, every claim made here is settled, and the counts are those of the messages claimed here
     * whose callbacks returned, of those whose callbacks, or whose settling, did not, and of those among these that were
     * at their last attempt when they were claimed. As long as its lease is the latest and the message is still there, what
     * is stored is what happened: delivered, or failed with that error, and given up if it was the last attempt.
     */
    method Dispatch(found: seq<Found>, limit: int, leases: seq<Lease>, outcomes: nat -> Outcome,
                    others: nat -> nat -> seq<Step>)
      returns (result: Option<DispatchResult>)
      requires Valid() && Lists(found, state.messages) && |leases| == |found| && FreshLeases(leases, state)
      requires forall i, k :: AllOthers(others(i)(k), leases)
      modifies this
      ensures Valid()
      ensures result.None? <==> limit < 1 || limit > 1000
      ensures result.None? ==> state == old(state)
      ensures result.Some? ==>
                var pending := Candidates(found, old(state).now, limit);
                && |pending| <= |leases|
                && (forall i :: 0 <= i < |leases| && leases[i] in state.issued ==>
                      i < |pending| && state.issued[leases[i]] == pending[i].id)
                && result.value.delivered == Tried(state.issued, leases, outcomes, |pending|, true)
                && result.value.failed == Tried(state.issued, leases, outcomes, |pending|, false)
                && result.value.abandoned == GivenUp(state.turn, leases, outcomes, |pending|, maxAttempts)
                && (forall i :: 0 <= i < |pending| && leases[i] in state.issued && Holds(state, leases[i], pending[i].id) ==>
                      leases[i] in state.turn &&
                      RecordedAs(state.messages[pending[i].id], ErrorOf(outcomes(i)), state.turn[leases[i]] >= maxAttempts))
                && forall i :: 0 <= i < |pending| && leases[i] in state.issued ==>
                     (if outcomes(i).Returns? then Deliver(leases[i]) else Fail(leases[i])) in history
      ensures forall lease :: lease in leases ==> lease !in state.work
    {
      hide Inv, Run, AllOthers, Tried, GivenUp, Candidates, Lists, OtherLeases, NotedLease, Quiet;
      IssuedWork(state, leases);
      if limit < 1 || limit > 1000 { return None; }
      var pending := Candidates(found, state.now, limit);
      PendingCount(found, state.now, limit);
      var delivered, failed, abandoned := 0, 0, 0;
      var i := 0;
      NothingTried(state.issued, state.turn, leases, outcomes, maxAttempts);
      while i < |pending|
        invariant i <= |pending| <= |leases| && Valid()
        invariant delivered == Tried(state.issued, leases, outcomes, i, true)
        invariant failed == Tried(state.issued, leases, outcomes, i, false)
        invariant abandoned == GivenUp(state.turn, leases, outcomes, i, maxAttempts)
        invariant Settling(state, pending, leases, i) && Recorded(state, history, leases, outcomes, i)
        invariant NotedAll(state, pending, leases, outcomes, i, maxAttempts)
      {
        label Before:
        var tried := Attempt(pending[i].id, leases[i], outcomes(i), others(i), leases);
        TriedMore(old@Before(state), state, leases, outcomes, i, maxAttempts);
        SettlingMore(old@Before(state), state, pending, leases, i);
        HistoryQuiet(initial, old@Before(history), history, maxAttempts);
        NotedMore(old@Before(state), state, pending, leases, outcomes, i, maxAttempts);
        RecordedMore(old@Before(state), state, old@Before(history), history, leases, outcomes, i);
        if tried.Delivered? { delivered := delivered + 1; }
        if tried.Failed? {
          failed := failed + 1;
          if tried.exhausted { abandoned := abandoned + 1; }
        }
        i := i + 1;
      }
      NotedShown(state, pending, leases, outcomes, |pending|, maxAttempts);
      return Some(DispatchResult(delivered, failed, abandoned));
    }
  }

  datatype Attempted = Skipped | Delivered | Failed(exhausted: bool)

  lemma NothingTried(issued: map<Lease, Str>, turn: map<Lease, nat>, leases: seq<Lease>, outcomes: nat -> Outcome, maxAttempts: nat)
    ensures forall returned :: Tried(issued, leases, outcomes, 0, returned) == 0
    ensures GivenUp(turn, leases, outcomes, 0, maxAttempts) == 0
  {}

  /** One more lease tried; those before it stand as they stood. */
  lemma TriedMore(s: State, t: State, leases: seq<Lease>, outcomes: nat -> Outcome, n: nat, maxAttempts: nat)
    requires n < |leases| && Distinct(leases) && OtherLeases(s, t, leases, leases[n])
    ensures forall returned :: Tried(t.issued, leases, outcomes, n + 1, returned)
              == Tried(s.issued, leases, outcomes, n, returned)
                 + if leases[n] in t.issued && outcomes(n).Returns? == returned then 1 else 0
    ensures GivenUp(t.turn, leases, outcomes, n + 1, maxAttempts)
              == GivenUp(s.turn, leases, outcomes, n, maxAttempts)
                 + if leases[n] in t.turn && !outcomes(n).Returns? && t.turn[leases[n]] >= maxAttempts then 1 else 0
  {
    forall i | 0 <= i < n
      ensures SameIssue(s, t, leases[i])
    {}
    hide OtherLeases;
    TriedSame(s.issued, t.issued, leases, outcomes, n, true);
    TriedSame(s.issued, t.issued, leases, outcomes, n, false);
    GivenUpSame(s.turn, t.turn, leases, outcomes, n, maxAttempts);
  }

  /** Of the leases, the first `n` are settled or never were issued, and the rest are yet to be. */
  ghost predicate Settling(s: State, pending: seq<Found>, leases: seq<Lease>, n: nat)
    requires n <= |pending| <= |leases|
  {
    && (forall k :: 0 <= k < |leases| ==> leases[k] !in s.work)
    && (forall k :: n <= k < |leases| ==> leases[k] !in s.issued && leases[k] !in s.turn)
    && forall k :: 0 <= k < n && leases[k] in s.issued ==> s.issued[leases[k]] == pending[k].id
  }

  /** Every one of the first `n` that was issued was settled as its callback ended. */
  ghost predicate Recorded(s: State, history: seq<Step>, leases: seq<Lease>, outcomes: nat -> Outcome, n: nat)
    requires n <= |leases|
  {
    forall k :: 0 <= k < n && leases[k] in s.issued ==>
      (if outcomes(k).Returns? then Deliver(leases[k]) else Fail(leases[k])) in history
  }

  function ErrorOf(outcome: Outcome): Option<Str> { if outcome.Returns? then None else Some(outcome.error) }

  /** What a message shows after it was settled: delivered, or failed with this error, and given up or not. */
  predicate RecordedAs(m: Message, error: Option<Str>, last: bool) {
    && m.lastError == error && (m.deliveredAt.Some? <==> error.None?) && (m.failedAt.Some? <==> error.Some? && last)
    && (m.payload == [] <==> error.None? || last)
  }

  /** The message under this lease, if there is one still. */
  ghost predicate NotedLease(s: State, lease: Lease, error: Option<Str>, maxAttempts: nat) {
    forall id :: Holds(s, lease, id) ==> lease in s.turn && RecordedAs(s.messages[id], error, s.turn[lease] >= maxAttempts)
  }

  /** Where a worker's last step leaves its message. */
  ghost predicate SettledSo(w: Work, step: Step, lease: Lease, t: State, maxAttempts: nat) {
    && (step.Deliver? ==> NotedLease(t, lease, None, maxAttempts))
    && (step.Fail? && w.phase.Threw? ==> NotedLease(t, lease, Some(w.phase.error), maxAttempts))
  }

  lemma OwnSettles(s: State, step: Step, lease: Lease, maxAttempts: nat)
    requires Inv(s) && lease in s.work && Own(step, lease, s.work[lease].phase)
    ensures SettledSo(s.work[lease], step, lease, Apply(s, step, maxAttempts), maxAttempts)
  {
    if step.Deliver? || step.Fail? {
      var t := Apply(s, step, maxAttempts);
      forall id | Holds(t, lease, id)
        ensures lease in t.turn && RecordedAs(t.messages[id], if step.Deliver? then None else Some(s.work[lease].phase.error),
                                              t.turn[lease] >= maxAttempts)
      { OwnRecords(s, step, lease, maxAttempts, id); }
    }
  }

  lemma OwnRecords(s: State, step: Step, lease: Lease, maxAttempts: nat, id: Str)
    requires Inv(s) && lease in s.work && Own(step, lease, s.work[lease].phase) && (step.Deliver? || step.Fail?)
    requires Holds(Apply(s, step, maxAttempts), lease, id)
    ensures var t := Apply(s, step, maxAttempts);
            && lease in t.turn && RecordedAs(t.messages[id], if step.Deliver? then None else Some(s.work[lease].phase.error),
                                             t.turn[lease] >= maxAttempts)
  {
    assert WorkKept(s, lease);
    HeldBefore(s, step, lease, maxAttempts, id);
    assert MessageKept(s, id);
    SettlingRecords(s, step, maxAttempts, id);
  }

  /** A worker that settles held the message before. */
  lemma HeldBefore(s: State, step: Step, lease: Lease, maxAttempts: nat, id: Str)
    requires Inv(s) && lease in s.work && (step == Deliver(lease) || step == Fail(lease))
    requires Holds(Apply(s, step, maxAttempts), lease, id)
    ensures Holds(s, lease, id)
  {
    hide Backoff, Inv;
  }

  ghost predicate NotedAll(s: State, pending: seq<Found>, leases: seq<Lease>, outcomes: nat -> Outcome, n: nat, maxAttempts: nat)
    requires n <= |pending| <= |leases|
  {
    forall k :: 0 <= k < n && leases[k] in s.issued ==> NotedLease(s, leases[k], ErrorOf(outcomes(k)), maxAttempts)
  }

  lemma NotedMore(s: State, t: State, pending: seq<Found>, leases: seq<Lease>, outcomes: nat -> Outcome, n: nat, maxAttempts: nat)
    requires n < |pending| <= |leases| && NotedAll(s, pending, leases, outcomes, n, maxAttempts) && Settling(s, pending, leases, n)
    requires Distinct(leases) && OtherLeases(s, t, leases, leases[n]) && Quiet(s, t)
    requires leases[n] in t.issued ==> NotedLease(t, leases[n], ErrorOf(outcomes(n)), maxAttempts)
    ensures NotedAll(t, pending, leases, outcomes, n + 1, maxAttempts)
  {
    forall k | 0 <= k < n && leases[k] in t.issued
      ensures NotedLease(t, leases[k], ErrorOf(outcomes(k)), maxAttempts)
    {
      assert SameIssue(s, t, leases[k]);
      assert QuietLease(s, t, leases[k]);
      StillNoted(s, t, leases[k], ErrorOf(outcomes(k)), maxAttempts);
    }
    hide NotedLease, Quiet, OtherLeases;
  }

  lemma NotedShown(s: State, pending: seq<Found>, leases: seq<Lease>, outcomes: nat -> Outcome, n: nat, maxAttempts: nat)
    requires n <= |pending| <= |leases| && NotedAll(s, pending, leases, outcomes, n, maxAttempts)
    ensures forall i :: 0 <= i < n && leases[i] in s.issued && Holds(s, leases[i], pending[i].id) ==>
              leases[i] in s.turn && RecordedAs(s.messages[pending[i].id], ErrorOf(outcomes(i)), s.turn[leases[i]] >= maxAttempts)
  {
    hide RecordedAs;
  }

  lemma StillNoted(s: State, t: State, lease: Lease, error: Option<Str>, maxAttempts: nat)
    requires QuietLease(s, t, lease) && NotedLease(s, lease, error, maxAttempts)
    ensures NotedLease(t, lease, error, maxAttempts)
  {
    hide RecordedAs;
  }

  lemma HistoryQuiet(s: State, before: seq<Step>, after: seq<Step>, maxAttempts: nat)
    requires Inv(s) && before <= after
    ensures Quiet(Run(s, before, maxAttempts), Run(s, after, maxAttempts))
  {
    RunKeeps(s, before, maxAttempts);
    assert after == before + after[|before|..];
    RunParts(s, before, after[|before|..], maxAttempts);
    RunQuiet(Run(s, before, maxAttempts), after[|before|..], maxAttempts);
  }

  lemma SettlingMore(s: State, t: State, pending: seq<Found>, leases: seq<Lease>, n: nat)
    requires n < |pending| <= |leases| && Distinct(leases) && Settling(s, pending, leases, n)
    requires OtherLeases(s, t, leases, leases[n]) && leases[n] !in t.work
    requires leases[n] in t.issued ==> t.issued[leases[n]] == pending[n].id
    ensures Settling(t, pending, leases, n + 1)
  {
    forall k | 0 <= k < |leases| && k != n
      ensures leases[k] !in t.work && SameIssue(s, t, leases[k])
    {}
    hide OtherLeases;
  }

  lemma RecordedMore(s: State, t: State, before: seq<Step>, after: seq<Step>, leases: seq<Lease>, outcomes: nat -> Outcome, n: nat)
    requires n < |leases| && Distinct(leases) && Recorded(s, before, leases, outcomes, n) && before <= after
    requires OtherLeases(s, t, leases, leases[n])
    requires leases[n] in t.issued ==> (if outcomes(n).Returns? then Deliver(leases[n]) else Fail(leases[n])) in after
    ensures Recorded(t, after, leases, outcomes, n + 1)
  {
    forall k | 0 <= k < n
      ensures SameIssue(s, t, leases[k])
    {}
    hide OtherLeases;
  }

  ghost predicate Distinct(leases: seq<Lease>) { forall i, j :: 0 <= i < j < |leases| ==> leases[i] != leases[j] }

  /** Which message a lease was for, and which of its attempts, is as it was. */
  ghost predicate SameIssue(s: State, t: State, lease: Lease) {
    && (lease in s.issued <==> lease in t.issued) && (lease in s.issued ==> s.issued[lease] == t.issued[lease])
    && SameTurn(s.turn, t.turn, lease)
  }

  /** The steps a worker takes itself while it holds a claim. */
  predicate Own(step: Step, lease: Lease, phase: Phase) {
    || (step == CallBack(lease) && phase == Claimed) || (step == Deliver(lease) && phase == Called)
    || (step == Fail(lease) && phase.Threw?) || (step.Throw? && step.lease == lease)
  }

  /** Where they lead. */
  ghost predicate Moved(s: State, step: Step, lease: Lease, t: State)
    requires lease in s.work
  {
    match step
    case CallBack(_) => lease in t.work && t.work[lease] == s.work[lease].(phase := Called)
    case Throw(_, error) => lease in t.work && t.work[lease] == s.work[lease].(phase := Threw(error))
    case _ => lease !in t.work
  }

  /** The claims under the other leases are as they were. */
  ghost predicate OtherLeases(s: State, t: State, leases: seq<Lease>, lease: Lease) {
    forall l :: l in leases && l != lease ==> (l in s.work <==> l in t.work) && SameIssue(s, t, l)
  }

  lemma Onward(s: State, t: State, u: State, leases: seq<Lease>, lease: Lease)
    requires OtherLeases(s, t, leases, lease) && OtherLeases(t, u, leases, lease)
    ensures OtherLeases(s, u, leases, lease)
  {}

  /** While only others act, a lease is as it was, and so are the rest. */
  lemma Meantime(s: State, t: State, u: State, leases: seq<Lease>, lease: Lease)
    requires (s == t || OtherLeases(s, t, leases, lease)) && SameLeases(t, u, leases) && lease in leases
    ensures OtherLeases(s, u, leases, lease)
    ensures SameClaim(t, u, lease)
  {}

  lemma OwnClaim(s: State, lease: Lease, id: Str, maxAttempts: nat, leases: seq<Lease>)
    requires lease !in s.issued && id in s.messages && Claimable(s.messages[id], s.now)
    ensures var t := Apply(s, Claim(lease, id), maxAttempts);
            && lease in t.work && t.work[lease].phase == Claimed && lease in t.issued && t.issued[lease] == id
            && lease in t.turn && t.turn[lease] == t.work[lease].attempts && OtherLeases(s, t, leases, lease)
  {}

  /** Where a worker's own steps lead its claim. */
  lemma OwnStep(s: State, step: Step, lease: Lease, maxAttempts: nat, leases: seq<Lease>)
    requires lease in s.work && Own(step, lease, s.work[lease].phase)
    ensures var t := Apply(s, step, maxAttempts);
            OtherLeases(s, t, leases, lease) && SameIssue(s, t, lease) && Moved(s, step, lease, t)
  {}

  ghost predicate AllOthers(steps: seq<Step>, leases: seq<Lease>) {
    forall i :: 0 <= i < |steps| ==> OthersStep(steps[i], leases)
  }

  ghost predicate FreshLeases(leases: seq<Lease>, s: State) {
    && Distinct(leases)
    && forall i :: 0 <= i < |leases| ==> leases[i] !in s.issued && leases[i] !in s.turn
  }

  lemma IssuedWork(s: State, leases: seq<Lease>)
    requires Inv(s) && FreshLeases(leases, s)
    ensures forall i :: 0 <= i < |leases| ==> leases[i] !in s.work
  {
    forall lease | lease in s.work
      ensures lease in s.issued
    { assert WorkKept(s, lease); }
  }

  lemma PendingCount(found: seq<Found>, now: int, limit: nat)
    ensures |Candidates(found, now, limit)| <= |found|
  {
    var open := (entry: Found) => Open(entry, now);
    WhereCount(found, open);
    SortCount(Where(found, open), Before);
  }

  predicate OthersStep(step: Step, leases: seq<Lease>) {
    match step
    case Claim(lease, _) => lease !in leases
    case CallBack(lease) => lease !in leases
    case Throw(lease, _) => lease !in leases
    case Deliver(lease) => lease !in leases
    case Fail(lease) => lease !in leases
    case Crash(lease) => lease !in leases
    case _ => true
  }

  ghost predicate SameClaim(s: State, t: State, lease: Lease) {
    (lease in s.work <==> lease in t.work) && (lease in s.work ==> s.work[lease] == t.work[lease]) && SameIssue(s, t, lease)
  }

  /** The claims under these leases are as they were. */
  ghost predicate SameLeases(s: State, t: State, leases: seq<Lease>) {
    forall lease :: lease in leases ==> SameClaim(s, t, lease)
  }

  lemma LeasesUntouched(s: State, step: Step, maxAttempts: nat, leases: seq<Lease>)
    requires OthersStep(step, leases)
    ensures SameLeases(s, Apply(s, step, maxAttempts), leases)
  {}
}
