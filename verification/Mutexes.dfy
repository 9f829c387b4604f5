/** The SQLite adapter's per-file locks: a chain of promises, and what each call chain holds. */
module Mutexes {
  import opened Wrappers
  import opened Sorting

  datatype Phase = Waiting | Running | Done

  /**
   * One call of `run` that was not refused: the lock, the promise it waits for (none: one already kept), the held
   * entries of its caller's chain, and where it is. Its own promise and its own entry go by its number: the promise
   * is kept when it is done, the entry active while it runs.
   */
  datatype Run = Run(mutex: nat, previous: Option<nat>, chain: seq<nat>, phase: Phase)

  datatype State = State(tails: map<nat, nat>, runs: seq<Run>)

  /** What can happen next: a call, from outside or inside a run that has begun, or a run's begin or end. */
  datatype Step = Enter(mutex: nat, caller: Option<nat>) | Begin(run: nat) | End(run: nat)

  const START: State := State(map[], [])

  /** The held entries that calls made inside a run see. */
  function ChainOf(s: State, caller: Option<nat>): seq<nat> {
    if caller.None? || caller.value >= |s.runs| then [] else s.runs[caller.value].chain + [caller.value]
  }

  predicate Holds(s: State, mutex: nat, r: nat) { r < |s.runs| && s.runs[r].mutex == mutex && s.runs[r].phase.Running? }

  /** `chain.some(...)`: the caller's chain has an active entry of this lock. */
  predicate Refuses(s: State, mutex: nat, caller: Option<nat>) {
    exists i :: 0 <= i < |ChainOf(s, caller)| && Holds(s, mutex, ChainOf(s, caller)[i])
  }

  predicate Kept(s: State, promise: Option<nat>) {
    promise.Some? ==> promise.value < |s.runs| && s.runs[promise.value].phase.Done?
  }

  /** Calls come from outside or from a run that has begun, what it started may outlive it; the rest takes its turn. */
  predicate Enabled(s: State, step: Step) {
    match step
    case Enter(_, caller) => caller.Some? ==> caller.value < |s.runs| && !s.runs[caller.value].phase.Waiting?
    case Begin(r) => r < |s.runs| && s.runs[r].phase.Waiting? && Kept(s, s.runs[r].previous)
    case End(r) => r < |s.runs| && s.runs[r].phase.Running?
  }

  function TailOf(s: State, mutex: nat): Option<nat> { if mutex in s.tails then Some(s.tails[mutex]) else None }

  function Entered(s: State, mutex: nat, caller: Option<nat>): State {
    State(s.tails[mutex := |s.runs|], s.runs + [Run(mutex, TailOf(s, mutex), ChainOf(s, caller), Waiting)])
  }

  function Moved(s: State, r: nat, phase: Phase): State
    requires r < |s.runs|
  {
    s.(runs := s.runs[r := s.runs[r].(phase := phase)])
  }

  function Next(s: State, step: Step): State
    requires Enabled(s, step)
  {
    match step
    case Enter(mutex, caller) => if Refuses(s, mutex, caller) then s else Entered(s, mutex, caller)
    case Begin(r) => Moved(s, r, Running)
    case End(r) => Moved(s, r, Done)
  }

  ghost predicate Moves(s: State, t: State) { exists step :: Enabled(s, step) && t == Next(s, step) }

  /** The states along a run of the program. */
  ghost predicate Follows(states: seq<State>) {
    states != [] && states[0] == START && forall i, j :: 0 <= i && j == i + 1 < |states| ==> Moves(states[i], states[j])
  }

  // --- as it runs --------------------------------------------------------------------------------------

  /** Every lock of the process, between two awaits. */
  class Locks {
    var tails: map<nat, nat>
    var runs: seq<Run>

    function Now(): State
      reads this
    {
      State(tails, runs)
    }

    constructor ()
      ensures Sound(Now()) && Now() == START
    {
      tails, runs := map[], [];
    }

    /** `run` up to its await: refused, or behind the tail it found and the tail itself. */
    method Enter(mutex: nat, caller: Option<nat>) returns (r: Option<nat>)
      requires Sound(Now()) && Enabled(Now(), Step.Enter(mutex, caller))
      modifies this
      ensures Sound(Now()) && Now() == Next(old(Now()), Step.Enter(mutex, caller))
      ensures r == if Refuses(old(Now()), mutex, caller) then None else Some(|old(runs)|)
    {
      var chain := ChainOf(Now(), caller);
      if caller.Some? { ChainBegun(Now(), caller.value); }
      StepKeeps(Now(), Step.Enter(mutex, caller));
      var i := 0;
      while i < |chain|
        invariant i <= |chain| && forall k :: 0 <= k < i ==> !Holds(Now(), mutex, chain[k])
      {
        var entry := runs[chain[i]];
        if entry.mutex == mutex && entry.phase.Running? {
          assert Holds(Now(), mutex, ChainOf(Now(), caller)[i]);
          return None;
        }
        i := i + 1;
      }
      var previous := if mutex in tails then Some(tails[mutex]) else None;
      r := Some(|runs|);
      tails := tails[mutex := |runs|];
      runs := runs + [Run(mutex, previous, chain, Waiting)];
    }

    /** The awaited promise was kept: the entry becomes active and the operation begins. */
    method Begin(r: nat)
      requires Sound(Now()) && Enabled(Now(), Step.Begin(r))
      modifies this`runs
      ensures Sound(Now()) && Now() == Next(old(Now()), Step.Begin(r))
    {
      StepKeeps(Now(), Step.Begin(r));
      runs := runs[r := runs[r].(phase := Running)];
    }

    /** The operation ended, however it did: its entry is inactive and its promise kept. */
    method End(r: nat)
      requires Sound(Now()) && Enabled(Now(), Step.End(r))
      modifies this`runs
      ensures Sound(Now()) && Now() == Next(old(Now()), Step.End(r))
    {
      StepKeeps(Now(), Step.End(r));
      runs := runs[r := runs[r].(phase := Done)];
    }
  }

  // --- what every step keeps -----------------------------------------------------------------------------

  /** No run of this lock among the first `n` after run `p`. */
  predicate LastOf(s: State, mutex: nat, n: nat, p: Option<nat>)
    requires n <= |s.runs|
  {
    && (p.Some? ==> p.value < n && s.runs[p.value].mutex == mutex)
    && forall k :: (if p.Some? then p.value + 1 else 0) <= k < n ==> s.runs[k].mutex != mutex
  }

  /** Every run waits for the run of its lock before it, and has begun only if that one is done. */
  predicate Queued(s: State, r: nat)
    requires r < |s.runs|
  {
    LastOf(s, s.runs[r].mutex, r, s.runs[r].previous) && (s.runs[r].phase.Waiting? || Kept(s, s.runs[r].previous))
  }

  /** A chain lists runs that began before, each inside the one before it. */
  predicate ChainSound(s: State, r: nat)
    requires r < |s.runs|
  {
    var chain := s.runs[r].chain;
    chain != [] ==>
      var caller := chain[|chain| - 1];
      caller < r && !s.runs[caller].phase.Waiting? && chain == s.runs[caller].chain + [caller]
  }

  /** No run waits for a lock that a run it was called in holds. */
  predicate NotBehindItself(s: State, r: nat)
    requires r < |s.runs|
  {
    s.runs[r].phase.Waiting? ==>
      forall i :: 0 <= i < |s.runs[r].chain| ==> !Holds(s, s.runs[r].mutex, s.runs[r].chain[i])
  }

  ghost predicate Sound(s: State) {
    && (forall mutex :: LastOf(s, mutex, |s.runs|, TailOf(s, mutex)))
    && forall r :: 0 <= r < |s.runs| ==> Queued(s, r) && ChainSound(s, r) && NotBehindItself(s, r)
  }

  /** The runs in a chain have begun. */
  lemma {:induction false} ChainBegun(s: State, r: nat)
    requires Sound(s) && r < |s.runs|
    ensures forall i :: 0 <= i < |s.runs[r].chain| ==> s.runs[r].chain[i] < r && !s.runs[s.runs[r].chain[i]].phase.Waiting?
    decreases r
  {
    var chain := s.runs[r].chain;
    assert ChainSound(s, r);
    if chain != [] {
      var caller := chain[|chain| - 1];
      ChainBegun(s, caller);
    }
  }

  lemma EnterKeeps(s: State, mutex: nat, caller: Option<nat>)
    requires Sound(s) && Enabled(s, Enter(mutex, caller)) && !Refuses(s, mutex, caller)
    ensures Sound(Entered(s, mutex, caller))
  {
    var t := Entered(s, mutex, caller);
    assert forall r :: 0 <= r < |s.runs| ==> t.runs[r] == s.runs[r];
    forall m
      ensures LastOf(t, m, |t.runs|, TailOf(t, m))
    { assert LastOf(s, m, |s.runs|, TailOf(s, m)); }
    forall r | 0 <= r < |t.runs|
      ensures Queued(t, r) && ChainSound(t, r) && NotBehindItself(t, r)
    {
      if r < |s.runs| { EarlierStays(s, t, r); } else { JoinsSound(s, mutex, caller); }
    }
  }

  /** A run stands as it did when others join. */
  lemma EarlierStays(s: State, t: State, r: nat)
    requires Sound(s) && r < |s.runs| < |t.runs| && forall k :: 0 <= k < |s.runs| ==> t.runs[k] == s.runs[k]
    ensures Queued(t, r) && ChainSound(t, r) && NotBehindItself(t, r)
  {
    assert Queued(s, r) && ChainSound(s, r) && NotBehindItself(s, r);
    ChainBegun(s, r);
  }

  lemma JoinsSound(s: State, mutex: nat, caller: Option<nat>)
    requires Sound(s) && Enabled(s, Enter(mutex, caller)) && !Refuses(s, mutex, caller)
    ensures var t := Entered(s, mutex, caller); Queued(t, |s.runs|) && ChainSound(t, |s.runs|) && NotBehindItself(t, |s.runs|)
  {
    if caller.Some? { ChainBegun(s, caller.value); }
    assert LastOf(s, mutex, |s.runs|, TailOf(s, mutex));
  }

  lemma MoveKeeps(s: State, r: nat, phase: Phase)
    requires Sound(s) && r < |s.runs|
    requires phase == Running ==> Enabled(s, Begin(r))
    requires phase == Done ==> Enabled(s, End(r))
    requires phase != Waiting
    ensures Sound(Moved(s, r, phase))
  {
    var t := Moved(s, r, phase);
    forall m
      ensures LastOf(t, m, |t.runs|, TailOf(t, m))
    { assert LastOf(s, m, |s.runs|, TailOf(s, m)); }
    forall k | 0 <= k < |t.runs|
      ensures Queued(t, k) && ChainSound(t, k) && NotBehindItself(t, k)
    {
      assert Queued(s, k) && ChainSound(s, k) && NotBehindItself(s, k);
      ChainBegun(s, k);
      if t.runs[k].phase.Waiting? {
        forall i | 0 <= i < |t.runs[k].chain|
          ensures !Holds(t, t.runs[k].mutex, t.runs[k].chain[i])
        { assert !Holds(s, s.runs[k].mutex, s.runs[k].chain[i]); }
      }
    }
  }

  /** Whatever happens next, soundness is kept. */
  lemma StepKeeps(s: State, step: Step)
    requires Sound(s) && Enabled(s, step)
    ensures Sound(Next(s, step))
  {
    match step
    case Enter(mutex, caller) => if !Refuses(s, mutex, caller) { EnterKeeps(s, mutex, caller); }
    case Begin(r) => MoveKeeps(s, r, Running);
    case End(r) => MoveKeeps(s, r, Done);
  }

  lemma {:induction false} AlwaysSound(states: seq<State>, i: nat)
    requires Follows(states) && i < |states|
    ensures Sound(states[i])
  {
    if i > 0 {
      AlwaysSound(states, i - 1);
      assert Moves(states[i - 1], states[i]);
      var step :| Enabled(states[i - 1], step) && states[i] == Next(states[i - 1], step);
      StepKeeps(states[i - 1], step);
    }
  }

  // --- what that means -----------------------------------------------------------------------------------

  /** Service in order of arrival: once a run has begun, every earlier one of its lock is done. */
  lemma {:induction false} ServedInOrder(s: State, i: nat, j: nat)
    requires Sound(s) && i < j < |s.runs| && s.runs[i].mutex == s.runs[j].mutex && !s.runs[j].phase.Waiting?
    ensures s.runs[i].phase.Done?
    decreases j
  {
    assert Queued(s, j);
    var p := s.runs[j].previous;
    if p.Some? && i < p.value { ServedInOrder(s, i, p.value); }
  }

  /** A lock is held once at most. */
  lemma HeldOnce(states: seq<State>, at: nat, mutex: nat, i: nat, j: nat)
    requires Follows(states) && at < |states| && Holds(states[at], mutex, i) && Holds(states[at], mutex, j)
    ensures i == j
  {
    AlwaysSound(states, at);
    if i < j {
      ServedInOrder(states[at], i, j);
    } else if j < i {
      ServedInOrder(states[at], j, i);
    }
  }

  function Of(runs: seq<Run>, mutex: nat): seq<Run> { Where(runs, (r: Run) => r.mutex == mutex) }

  function RunsOf(s: State, mutex: nat): seq<Run> { Of(s.runs, mutex) }

  /** Some done, at most one running, the rest waiting: a queue served from its head, one at a time. */
  predicate Queue(runs: seq<Run>, ended: nat) {
    && ended <= |runs| && (forall i :: 0 <= i < ended ==> runs[i].phase.Done?)
    && (ended < |runs| ==> !runs[ended].phase.Done?)
    && forall i :: ended < i < |runs| ==> runs[i].phase.Waiting?
  }

  // --- the turns of one lock -------------------------------------------------------------------------------

  /** How often a lock was asked for, how many of these are served, and whether the next one is being served. */
  ghost predicate Turns(s: State, mutex: nat, asked: nat, ended: nat, running: bool) {
    && Sound(s) && |RunsOf(s, mutex)| == asked && Queue(RunsOf(s, mutex), ended)
    && (running <==> ended < asked && RunsOf(s, mutex)[ended].phase.Running?)
  }

  /** Where a run stands among those of its lock; a change of it changes nothing else there. */
  lemma Standing(runs: seq<Run>, r: nat, changed: Run) returns (k: nat)
    requires r < |runs| && changed.mutex == runs[r].mutex
    ensures var all := Of(runs, runs[r].mutex);
            && k < |all| && all[k] == runs[r] && Of(runs[r := changed], runs[r].mutex) == all[k := changed]
            && (forall i :: 0 <= i < k ==> all[i] in runs[..r] && all[i].mutex == runs[r].mutex)
  {
    var mutex := runs[r].mutex;
    var earlier := Of(runs[..r], mutex);
    SplitAt(runs, r, mutex);
    SplitAt(runs[r := changed], r, mutex);
    assert runs[r := changed][..r] == runs[..r] && runs[r := changed][r + 1..] == runs[r + 1..];
    k := |earlier|;
    forall i | 0 <= i < k
      ensures earlier[i] in runs[..r] && earlier[i].mutex == mutex
    {
      assert earlier[i] in earlier;
      WhereMember(runs[..r], (run: Run) => run.mutex == mutex, earlier[i]);
    }
    hide Of;
  }

  lemma SplitAt(runs: seq<Run>, r: nat, mutex: nat)
    requires r < |runs|
    ensures Of(runs, mutex) == Of(runs[..r], mutex) + (if runs[r].mutex == mutex then [runs[r]] else []) + Of(runs[r + 1..], mutex)
  {
    var p := (run: Run) => run.mutex == mutex;
    assert runs == runs[..r] + ([runs[r]] + runs[r + 1..]);
    WhereConcat(runs[..r], [runs[r]] + runs[r + 1..], p);
    assert ([runs[r]] + runs[r + 1..])[1..] == runs[r + 1..];
    hide Where;
  }

  lemma FirstKept(first: Run, rest: seq<Run>, mutex: nat)
    requires first.mutex == mutex
    ensures Of([first] + rest, mutex) == [first] + Of(rest, mutex)
  {
    assert ([first] + rest)[1..] == rest;
  }

  lemma OthersKept(runs: seq<Run>, r: nat, changed: Run, mutex: nat)
    requires r < |runs| && changed.mutex == runs[r].mutex != mutex
    ensures Of(runs[r := changed], mutex) == Of(runs, mutex)
  {
    SplitAt(runs, r, mutex);
    SplitAt(runs[r := changed], r, mutex);
    assert runs[r := changed][..r] == runs[..r] && runs[r := changed][r + 1..] == runs[r + 1..];
    hide Of;
  }

  /** The first of its lock that is not done stands right behind those served. */
  lemma InTurn(s: State, r: nat, changed: Run, asked: nat, ended: nat, running: bool)
    requires r < |s.runs| && changed.mutex == s.runs[r].mutex && Turns(s, s.runs[r].mutex, asked, ended, running)
    requires !s.runs[r].phase.Done?
    requires forall i :: 0 <= i < r && s.runs[i].mutex == s.runs[r].mutex ==> s.runs[i].phase.Done?
    ensures ended < asked && RunsOf(s, s.runs[r].mutex)[ended] == s.runs[r]
    ensures Of(s.runs[r := changed], s.runs[r].mutex) == RunsOf(s, s.runs[r].mutex)[ended := changed]
  {
    hide Of, Sound;
    var k := Standing(s.runs, r, changed);
  }

  /** A call that is not refused joins the queue of its lock at the end. */
  lemma AsksTurn(s: State, mutex: nat, caller: Option<nat>, asked: nat, ended: nat, running: bool)
    requires Turns(s, mutex, asked, ended, running) && Enabled(s, Enter(mutex, caller)) && !Refuses(s, mutex, caller)
    ensures Turns(Next(s, Enter(mutex, caller)), mutex, asked + 1, ended, running)
  {
    StepKeeps(s, Enter(mutex, caller));
    var run := Run(mutex, TailOf(s, mutex), ChainOf(s, caller), Waiting);
    WhereConcat(s.runs, [run], (r: Run) => r.mutex == mutex);
    FirstKept(run, [], mutex);
    assert [run] + [] == [run];
  }

  /** A run of the lock begins only when it is its turn. */
  lemma TakesTurn(s: State, r: nat, asked: nat, ended: nat, running: bool)
    requires Enabled(s, Begin(r)) && Turns(s, s.runs[r].mutex, asked, ended, running)
    ensures !running && ended < asked && RunsOf(s, s.runs[r].mutex)[ended] == s.runs[r]
    ensures Turns(Next(s, Begin(r)), s.runs[r].mutex, asked, ended, true)
  {
    StepKeeps(s, Begin(r));
    assert Queued(s, r);
    var p := s.runs[r].previous;
    forall i | 0 <= i < r && s.runs[i].mutex == s.runs[r].mutex
      ensures s.runs[i].phase.Done?
    { if i != p.value { ServedInOrder(s, i, p.value); } }
    InTurn(s, r, s.runs[r].(phase := Running), asked, ended, running);
  }

  /** A run of the lock ends its own turn. */
  lemma EndsTurn(s: State, r: nat, asked: nat, ended: nat, running: bool)
    requires Enabled(s, End(r)) && Turns(s, s.runs[r].mutex, asked, ended, running)
    ensures running && RunsOf(s, s.runs[r].mutex)[ended] == s.runs[r]
    ensures Turns(Next(s, End(r)), s.runs[r].mutex, asked, ended + 1, false)
  {
    StepKeeps(s, End(r));
    forall i | 0 <= i < r && s.runs[i].mutex == s.runs[r].mutex
      ensures s.runs[i].phase.Done?
    { ServedInOrder(s, i, r); }
    InTurn(s, r, s.runs[r].(phase := Done), asked, ended, running);
  }

  /** Refused calls, and what happens to other locks, leave the turns of a lock as they are. */
  lemma OthersTurns(s: State, step: Step, mutex: nat, asked: nat, ended: nat, running: bool)
    requires Turns(s, mutex, asked, ended, running) && Enabled(s, step)
    requires match step
             case Enter(m, caller) => m != mutex || Refuses(s, m, caller)
             case Begin(r) => s.runs[r].mutex != mutex
             case End(r) => s.runs[r].mutex != mutex
    ensures Turns(Next(s, step), mutex, asked, ended, running)
  {
    StepKeeps(s, step);
    match step
    case Enter(m, caller) =>
      if !Refuses(s, m, caller) {
        var run := Run(m, TailOf(s, m), ChainOf(s, caller), Waiting);
        WhereConcat(s.runs, [run], (r: Run) => r.mutex == mutex);
      }
    case Begin(r) => OthersKept(s.runs, r, s.runs[r].(phase := Running), mutex);
    case End(r) => OthersKept(s.runs, r, s.runs[r].(phase := Done), mutex);
  }

  /** While some wait and none is served, one can begin. */
  lemma NextTurn(s: State, mutex: nat, asked: nat, ended: nat) returns (r: nat)
    requires Turns(s, mutex, asked, ended, false) && ended < asked
    ensures Enabled(s, Begin(r)) && s.runs[r].mutex == mutex
  {
    var all := RunsOf(s, mutex);
    var w := RunAt(s, mutex, ended);
    forall k | 0 <= k < |s.runs|
      ensures !Holds(s, mutex, k)
    {
      if Holds(s, mutex, k) { var j := Standing(s.runs, k, s.runs[k]); }
    }
    r := SomeoneBegins(s, mutex, w);
  }

  /** While one is served, it can end. */
  lemma ThisTurn(s: State, mutex: nat, asked: nat, ended: nat) returns (r: nat)
    requires Turns(s, mutex, asked, ended, true)
    ensures Enabled(s, End(r)) && s.runs[r].mutex == mutex
  {
    r := RunAt(s, mutex, ended);
  }

  lemma RunAt(s: State, mutex: nat, k: nat) returns (r: nat)
    requires k < |RunsOf(s, mutex)|
    ensures r < |s.runs| && s.runs[r] == RunsOf(s, mutex)[k] && s.runs[r].mutex == mutex
  {
    var run := RunsOf(s, mutex)[k];
    WhereMember(s.runs, (other: Run) => other.mutex == mutex, run);
    r :| 0 <= r < |s.runs| && s.runs[r] == run;
  }

  /** What any step makes of the turns of a lock. */
  lemma StepTurns(s: State, step: Step, mutex: nat, asked: nat, ended: nat, running: bool)
    requires Turns(s, mutex, asked, ended, running) && Enabled(s, step)
    ensures exists a, e, r :: Turns(Next(s, step), mutex, a, e, r)
  {
    hide Turns, Next;
    if step.Enter? && step.mutex == mutex && !Refuses(s, mutex, step.caller) {
      AsksTurn(s, mutex, step.caller, asked, ended, running);
    } else if step.Begin? && s.runs[step.run].mutex == mutex {
      TakesTurn(s, step.run, asked, ended, running);
    } else if step.End? && s.runs[step.run].mutex == mutex {
      EndsTurn(s, step.run, asked, ended, running);
    } else {
      OthersTurns(s, step, mutex, asked, ended, running);
    }
  }

  lemma {:induction false} AlwaysTurns(states: seq<State>, at: nat, mutex: nat) returns (asked: nat, ended: nat, running: bool)
    requires Follows(states) && at < |states|
    ensures Turns(states[at], mutex, asked, ended, running)
  {
    if at == 0 {
      asked, ended, running := 0, 0, false;
    } else {
      asked, ended, running := AlwaysTurns(states, at - 1, mutex);
      var s, t := states[at - 1], states[at];
      assert Moves(s, t);
      var step :| Enabled(s, step) && t == Next(s, step);
      StepTurns(s, step, mutex, asked, ended, running);
      hide *;
      asked, ended, running :| Turns(t, mutex, asked, ended, running);
    }
  }

  /** At every moment the runs of a lock, as they arrived, are a queue: what `transaction` takes its turn in. */
  lemma AlwaysQueue(states: seq<State>, at: nat, mutex: nat)
    requires Follows(states) && at < |states|
    ensures exists ended :: Queue(RunsOf(states[at], mutex), ended)
  {
    var asked, ended, running := AlwaysTurns(states, at, mutex);
  }

  /** Nobody is forgotten: while a run of a free lock waits, one of them can begin. */
  lemma {:induction false} SomeoneBegins(s: State, mutex: nat, r: nat) returns (first: nat)
    requires Sound(s) && r < |s.runs| && s.runs[r].mutex == mutex && s.runs[r].phase.Waiting?
    requires forall k :: 0 <= k < |s.runs| ==> !Holds(s, mutex, k)
    ensures Enabled(s, Begin(first)) && s.runs[first].mutex == mutex && first <= r
    decreases r
  {
    assert Queued(s, r);
    var p := s.runs[r].previous;
    if Kept(s, p) {
      first := r;
    } else {
      assert !Holds(s, mutex, p.value);
      first := SomeoneBegins(s, mutex, p.value);
    }
  }

  /** The caller is, or was called, inside this run. */
  predicate Inside(s: State, caller: Option<nat>, r: nat)
    decreases if caller.Some? then caller.value + 1 else 0
  {
    && caller.Some? && caller.value < |s.runs|
    && (caller.value == r ||
        var chain := s.runs[caller.value].chain;
        chain != [] && chain[|chain| - 1] < caller.value && Inside(s, Some(chain[|chain| - 1]), r))
  }

  lemma {:induction false} ChainInside(s: State, caller: nat, r: nat)
    requires Sound(s) && caller < |s.runs|
    ensures r in ChainOf(s, Some(caller)) <==> Inside(s, Some(caller), r)
    decreases caller
  {
    var chain := s.runs[caller].chain;
    assert ChainSound(s, caller);
    if chain != [] {
      ChainInside(s, chain[|chain| - 1], r);
      assert chain == ChainOf(s, Some(chain[|chain| - 1]));
    }
    assert r in chain + [caller] <==> r in chain || r == caller;
  }

  /**
   * Refusal, exactly: the caller is inside the run that holds the lock now. A run that has ended refuses nothing to what
   * it left behind, and a holder elsewhere is waited for.
   */
  lemma RefusedExactly(states: seq<State>, at: nat, mutex: nat, caller: Option<nat>)
    requires Follows(states) && at < |states|
    ensures Refuses(states[at], mutex, caller) <==>
            exists r :: 0 <= r < |states[at].runs| && Holds(states[at], mutex, r) && Inside(states[at], caller, r)
  {
    var s := states[at];
    AlwaysSound(states, at);
    var chain := ChainOf(s, caller);
    if caller.Some? && caller.value < |s.runs| {
      forall r
        ensures r in chain <==> Inside(s, caller, r)
      { ChainInside(s, caller.value, r); }
      if i :| 0 <= i < |chain| && Holds(s, mutex, chain[i]) { assert chain[i] in chain && Inside(s, caller, chain[i]); }
      if r: nat :| r < |s.runs| && Holds(s, mutex, r) && Inside(s, caller, r) {
        var i :| 0 <= i < |chain| && chain[i] == r;
      }
    }
  }

  /** Without the refusal the call would wait for the run it is inside of, and could not begin before that one ends. */
  lemma WouldWait(s: State, mutex: nat, caller: Option<nat>)
    requires Sound(s) && Refuses(s, mutex, caller)
    ensures var t := Entered(s, mutex, caller); !Enabled(t, Begin(|s.runs|))
    ensures exists r :: 0 <= r < |s.runs| && Holds(s, mutex, r) && r in ChainOf(s, caller)
  {
    var chain := ChainOf(s, caller);
    var i :| 0 <= i < |chain| && Holds(s, mutex, chain[i]);
    assert LastOf(s, mutex, |s.runs|, TailOf(s, mutex));
    var p := TailOf(s, mutex);
    assert chain[i] in chain && chain[i] <= p.value;
    if chain[i] < p.value && !s.runs[p.value].phase.Waiting? { ServedInOrder(s, chain[i], p.value); }
  }

  /** No wait is for a run the waiting one is inside of, at any moment. */
  lemma NeverBehindItself(states: seq<State>, at: nat, w: nat, r: nat)
    requires Follows(states) && at < |states| && w < |states[at].runs| && states[at].runs[w].phase.Waiting?
    requires Holds(states[at], states[at].runs[w].mutex, r)
    ensures r !in states[at].runs[w].chain
  {
    AlwaysSound(states, at);
    assert NotBehindItself(states[at], w);
  }
}
