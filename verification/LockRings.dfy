/** Several locks at once: when runs can wait for each other in a ring, which no lock by itself can refuse. */
module LockRings {
  import opened Wrappers
  import opened Mutexes

  predicate CalledIn(s: State, b: nat, a: nat)
    requires b < |s.runs|
  {
    s.runs[b].chain != [] && s.runs[b].chain[|s.runs[b].chain| - 1] == a
  }

  /** What a run can be waiting for: the run of its lock before it, or, while it runs, a call that was made in it. */
  predicate WaitsFor(s: State, a: nat, b: nat) {
    && a < |s.runs| && b < |s.runs| && !s.runs[b].phase.Done?
    && match s.runs[a].phase
       case Waiting => s.runs[a].previous == Some(b)
       case Running => CalledIn(s, b, a)
       case Done => false
  }

  /** Runs each of which can be waiting for another of them. */
  ghost predicate Ring(s: State, runs: set<nat>) { runs != {} && forall a :: a in runs ==> WaitsIn(s, runs, a) }

  ghost predicate WaitsIn(s: State, runs: set<nat>, a: nat) { exists b :: b in runs && WaitsFor(s, a, b) }

  /** From inside the run that holds the lock, through runs that all run still, a call waits. */
  predicate Blocks(s: State, mutex: nat, w: nat, at: nat) {
    && w < |s.runs| && s.runs[w].phase.Waiting? && at < |s.runs[w].chain| && Holds(s, mutex, s.runs[w].chain[at])
    && AllRun(s, s.runs[w].chain[at..])
  }

  predicate AllRun(s: State, chain: seq<nat>) {
    forall i :: 0 <= i < |chain| ==> chain[i] < |s.runs| && s.runs[chain[i]].phase.Running?
  }

  /** Locks each of which is held by a run inside of which a call waits for another of them. */
  ghost predicate LockRing(s: State, locks: set<nat>) { locks != {} && forall mutex :: mutex in locks ==> BlocksIn(s, locks, mutex) }

  ghost predicate BlocksIn(s: State, locks: set<nat>, mutex: nat) {
    exists w: nat, at: nat :: Blocks(s, mutex, w, at) && s.runs[w].mutex in locks
  }

  lemma WaitedFor(s: State, runs: set<nat>, a: nat) returns (b: nat)
    requires Ring(s, runs) && a in runs
    ensures b in runs && WaitsFor(s, a, b)
  {
    assert WaitsIn(s, runs, a);
    b :| b in runs && WaitsFor(s, a, b);
  }

  // --- runs in a ring hold locks in a ring ---------------------------------------------------------------

  /** From a run of the ring inwards, to a call that waits. */
  lemma {:induction false} Inward(s: State, runs: set<nat>, x: nat, mutex: nat, at: nat) returns (w: nat)
    requires Sound(s) && Ring(s, runs) && x in runs && x < |s.runs|
    requires var chain := ChainOf(s, Some(x)); at < |chain| && Holds(s, mutex, chain[at]) && AllRun(s, chain[at..])
    ensures w in runs && Blocks(s, mutex, w, at)
    decreases |s.runs| - x
  {
    hide Ring, Sound;
    var b := WaitedFor(s, runs, x);
    var chain := ChainOf(s, Some(x));
    assert chain[at..][|chain| - 1 - at] == x;
    CallersChain(s, x, b);
    if s.runs[b].phase.Waiting? {
      w := b;
    } else {
      InnerChain(s, chain, at, b);
      w := Inward(s, runs, b, mutex, at);
    }
  }

  /** A call's chain is that of its caller, and the caller. */
  lemma CallersChain(s: State, a: nat, b: nat)
    requires Sound(s) && WaitsFor(s, a, b) && s.runs[a].phase.Running?
    ensures a < b && s.runs[b].chain == ChainOf(s, Some(a))
  {
    assert ChainSound(s, b);
  }

  /** The run before is earlier, and of the same lock. */
  lemma EarlierRun(s: State, a: nat, b: nat)
    requires Sound(s) && WaitsFor(s, a, b) && s.runs[a].phase.Waiting?
    ensures b < a && s.runs[b].mutex == s.runs[a].mutex
  {
    assert Queued(s, a);
  }

  lemma InnerChain(s: State, chain: seq<nat>, at: nat, b: nat)
    requires at < |chain| && AllRun(s, chain[at..]) && b < |s.runs| && s.runs[b].phase.Running?
    ensures AllRun(s, (chain + [b])[at..])
  {
    assert (chain + [b])[at..] == chain[at..] + [b];
  }

  /** From a run that waits, to the one of its lock that runs. */
  lemma {:induction false} ToHolder(s: State, runs: set<nat>, w: nat) returns (h: nat)
    requires Sound(s) && Ring(s, runs) && w in runs && w < |s.runs|
    ensures h in runs && Holds(s, s.runs[w].mutex, h)
    decreases w
  {
    hide Ring, Sound;
    var b := WaitedFor(s, runs, w);
    if s.runs[w].phase.Running? {
      h := w;
    } else {
      EarlierRun(s, w, b);
      h := ToHolder(s, runs, b);
    }
  }

  lemma RingOfLocks(s: State, runs: set<nat>) returns (locks: set<nat>)
    requires Sound(s) && Ring(s, runs)
    ensures LockRing(s, locks)
  {
    hide WaitsIn, Sound, BlocksIn;
    locks := set h | h in runs && h < |s.runs| && s.runs[h].phase.Running? :: s.runs[h].mutex;
    var a :| a in runs;
    var b := WaitedFor(s, runs, a);
    var first := ToHolder(s, runs, a);
    assert s.runs[first].mutex in locks;
    forall mutex | mutex in locks
      ensures BlocksIn(s, locks, mutex)
    {
      var h :| h in runs && h < |s.runs| && s.runs[h].phase.Running? && s.runs[h].mutex == mutex;
      var w := Inmost(s, runs, h);
      var next := ToHolder(s, runs, w);
      BlocksAt(s, locks, mutex, w, |s.runs[h].chain|);
    }
  }

  lemma Inmost(s: State, runs: set<nat>, h: nat) returns (w: nat)
    requires Sound(s) && Ring(s, runs) && h in runs && h < |s.runs| && s.runs[h].phase.Running?
    ensures w in runs && Blocks(s, s.runs[h].mutex, w, |s.runs[h].chain|)
  {
    hide Ring, Sound;
    var at := |s.runs[h].chain|;
    assert ChainOf(s, Some(h))[at..] == [h];
    w := Inward(s, runs, h, s.runs[h].mutex, at);
  }

  lemma BlocksAt(s: State, locks: set<nat>, mutex: nat, w: nat, at: nat)
    requires Blocks(s, mutex, w, at) && s.runs[w].mutex in locks
    ensures BlocksIn(s, locks, mutex)
  {}

  // --- locks in a ring are held by runs in a ring --------------------------------------------------------

  /** A run that waits for one of the locks, or inside of which, through runs that run still, a call does. */
  ghost predicate Member(s: State, locks: set<nat>, r: nat) {
    && r < |s.runs|
    && ((s.runs[r].phase.Waiting? && s.runs[r].mutex in locks)
        || exists w: nat, at: nat :: Blocks(s, s.runs[r].mutex, w, at) && s.runs[w].mutex in locks && s.runs[w].chain[at] == r)
  }

  /** A chain starts with the chain of every run in it. */
  lemma {:induction false} ChainPrefix(s: State, w: nat, i: nat)
    requires Sound(s) && w < |s.runs| && i < |s.runs[w].chain|
    ensures s.runs[w].chain[i] < w && s.runs[s.runs[w].chain[i]].chain == s.runs[w].chain[..i]
    decreases w
  {
    var chain := s.runs[w].chain;
    assert ChainSound(s, w);
    if i < |chain| - 1 {
      ChainPrefix(s, chain[|chain| - 1], i);
      assert chain[..|chain| - 1][..i] == chain[..i];
    }
  }

  /** Whoever runs waits for the next run inwards. */
  lemma InwardMember(s: State, locks: set<nat>, w: nat, at: nat) returns (b: nat)
    requires Sound(s) && w < |s.runs| && at < |s.runs[w].chain| && s.runs[w].chain[at] < |s.runs|
    requires Blocks(s, s.runs[s.runs[w].chain[at]].mutex, w, at) && s.runs[w].mutex in locks
    ensures Member(s, locks, b) && WaitsFor(s, s.runs[w].chain[at], b)
  {
    var chain := s.runs[w].chain;
    if at == |chain| - 1 {
      b := w;
    } else {
      b := chain[at + 1];
      assert chain[at..][1] == b && chain[at..][1..] == chain[at + 1..];
      ChainPrefix(s, w, at + 1);
      assert Blocks(s, s.runs[b].mutex, w, at + 1);
    }
  }

  /** Whoever waits for a held lock waits for one that waits for it too, or for the holder. */
  lemma BehindHolder(s: State, w: nat, h: nat) returns (b: nat)
    requires Sound(s) && w < |s.runs| && s.runs[w].phase.Waiting? && Holds(s, s.runs[w].mutex, h)
    ensures WaitsFor(s, w, b) && s.runs[b].mutex == s.runs[w].mutex && (s.runs[b].phase.Waiting? || b == h)
  {
    assert Queued(s, w);
    if w < h { ServedInOrder(s, w, h); }
    b := s.runs[w].previous.value;
    if b != h && !s.runs[b].phase.Waiting? { ServedInOrder(s, h, b); }
  }

  lemma RingOfRuns(s: State, locks: set<nat>) returns (runs: set<nat>)
    requires Sound(s) && LockRing(s, locks)
    ensures Ring(s, runs)
  {
    hide Sound, BlocksIn, WaitsIn, Member;
    runs := set r | 0 <= r < |s.runs| && Member(s, locks, r);
    var mutex :| mutex in locks;
    var first := SomeMember(s, locks, mutex);
    assert first in runs;
    forall a | a in runs
      ensures WaitsIn(s, runs, a)
    {
      var b := NextMember(s, locks, a);
      WaitsAt(s, runs, a, b);
    }
  }

  lemma WaitsAt(s: State, runs: set<nat>, a: nat, b: nat)
    requires b in runs && WaitsFor(s, a, b)
    ensures WaitsIn(s, runs, a)
  {}

  lemma Blocked(s: State, locks: set<nat>, mutex: nat) returns (w: nat, at: nat)
    requires LockRing(s, locks) && mutex in locks
    ensures Blocks(s, mutex, w, at) && s.runs[w].mutex in locks
  {
    assert BlocksIn(s, locks, mutex);
    w, at :| Blocks(s, mutex, w, at) && s.runs[w].mutex in locks;
  }

  lemma SomeMember(s: State, locks: set<nat>, mutex: nat) returns (w: nat)
    requires LockRing(s, locks) && mutex in locks
    ensures w < |s.runs| && Member(s, locks, w)
  {
    hide LockRing;
    var at;
    w, at := Blocked(s, locks, mutex);
  }

  lemma NextMember(s: State, locks: set<nat>, a: nat) returns (b: nat)
    requires Sound(s) && LockRing(s, locks) && Member(s, locks, a)
    ensures Member(s, locks, b) && WaitsFor(s, a, b)
  {
    hide LockRing, Sound;
    if s.runs[a].phase.Waiting? && s.runs[a].mutex in locks {
      var w, at := Blocked(s, locks, s.runs[a].mutex);
      b := BehindHolder(s, a, s.runs[w].chain[at]);
    } else {
      var w: nat, at: nat :| Blocks(s, s.runs[a].mutex, w, at) && s.runs[w].mutex in locks && s.runs[w].chain[at] == a;
      hide Member;
      b := InwardMember(s, locks, w, at);
    }
  }

  /**
   * Runs can wait for each other in a ring if and only if some locks do: each held by a run inside of which a call waits
   * for another of them.
   */
  lemma RingExactly(states: seq<State>, at: nat)
    requires Follows(states) && at < |states|
    ensures (exists runs :: Ring(states[at], runs)) <==> (exists locks :: LockRing(states[at], locks))
  {
    var s := states[at];
    AlwaysSound(states, at);
    hide Ring, LockRing, Sound;
    if runs :| Ring(s, runs) { var locks := RingOfLocks(s, runs); }
    if locks :| LockRing(s, locks) { var runs := RingOfRuns(s, locks); }
  }

  /** Nobody in a ring ever begins, and the ring stays until a run of it ends before the call it could wait for. */
  lemma RingStays(s: State, step: Step, runs: set<nat>)
    requires Ring(s, runs) && Enabled(s, step) && (step.End? ==> step.run !in runs)
    ensures step.Begin? ==> step.run !in runs
    ensures Ring(Next(s, step), runs)
  {
    hide WaitsIn;
    if step.Begin? && step.run in runs { var b := WaitedFor(s, runs, step.run); }
    var t := Next(s, step);
    forall a | a in runs
      ensures WaitsIn(t, runs, a)
    {
      var b := WaitedFor(s, runs, a);
      var c := WaitedFor(s, runs, b);
      hide Ring;
      StillWaits(s, step, a, b);
      WaitsAt(t, runs, a, b);
    }
  }

  lemma StillWaits(s: State, step: Step, a: nat, b: nat)
    requires WaitsFor(s, a, b) && Enabled(s, step)
    requires step.Begin? || step.End? ==> step.run != a && step.run != b
    ensures WaitsFor(Next(s, step), a, b)
  {}

  // --- how to avoid it -----------------------------------------------------------------------------------

  /** Calls made while other locks are held are for locks that come later. */
  ghost predicate Ascends(s: State, rank: nat -> nat) {
    forall w, i :: 0 <= w < |s.runs| && s.runs[w].phase.Waiting? && 0 <= i < |s.runs[w].chain| ==>
      Later(s, s.runs[w].chain[i], s.runs[w].mutex, rank)
  }

  predicate Later(s: State, held: nat, mutex: nat, rank: nat -> nat) {
    held < |s.runs| && s.runs[held].phase.Running? ==>
      s.runs[held].mutex == mutex || rank(s.runs[held].mutex) < rank(mutex)
  }

  /** The order is kept by a step: of the locks that the caller's chain holds, all come before the one it asks for. */
  ghost predicate Rises(s: State, step: Step, rank: nat -> nat) {
    step.Enter? ==>
      var chain := ChainOf(s, step.caller);
      forall i :: 0 <= i < |chain| ==> Later(s, chain[i], step.mutex, rank)
  }

  ghost predicate FollowsRising(states: seq<State>, rank: nat -> nat) {
    states != [] && states[0] == START && forall i, j :: 0 <= i && j == i + 1 < |states| ==> MovesUp(states[i], states[j], rank)
  }

  ghost predicate MovesUp(s: State, t: State, rank: nat -> nat) {
    exists step :: Enabled(s, step) && Rises(s, step, rank) && t == Next(s, step)
  }

  lemma RisingKeeps(s: State, step: Step, rank: nat -> nat)
    requires Sound(s) && Enabled(s, step) && Rises(s, step, rank) && Ascends(s, rank)
    ensures Sound(Next(s, step)) && Ascends(Next(s, step), rank)
  {
    StepKeeps(s, step);
    var t := Next(s, step);
    forall w, i | 0 <= w < |t.runs| && t.runs[w].phase.Waiting? && 0 <= i < |t.runs[w].chain|
      ensures Later(t, t.runs[w].chain[i], t.runs[w].mutex, rank)
    {
      if w < |s.runs| {
        ChainBegun(s, w);
        assert Later(s, s.runs[w].chain[i], s.runs[w].mutex, rank);
      } else {
        if step.caller.Some? { ChainBegun(s, step.caller.value); }
        assert Later(s, ChainOf(s, step.caller)[i], step.mutex, rank);
      }
    }
  }

  lemma {:induction false} AlwaysAscends(states: seq<State>, at: nat, rank: nat -> nat)
    requires FollowsRising(states, rank) && at < |states|
    ensures Sound(states[at]) && Ascends(states[at], rank)
  {
    if at > 0 {
      AlwaysAscends(states, at - 1, rank);
      var s, t := states[at - 1], states[at];
      assert MovesUp(s, t, rank);
      hide Sound, Ascends, Enabled, Rises, Next;
      var step :| Enabled(s, step) && Rises(s, step, rank) && t == Next(s, step);
      RisingKeeps(s, step, rank);
    }
  }

  lemma {:induction false} LastInOrder(locks: set<nat>, rank: nat -> nat) returns (last: nat)
    requires locks != {}
    ensures last in locks && forall mutex :: mutex in locks ==> rank(mutex) <= rank(last)
    decreases |locks|
  {
    last :| last in locks;
    var rest := locks - {last};
    if rest != {} {
      var other := LastInOrder(rest, rank);
      if rank(last) < rank(other) { last := other; }
    }
  }

  /** Where locks are entered in one order, no runs ever wait for each other in a ring; so too where there is one lock. */
  lemma OrderedNeverRing(states: seq<State>, at: nat, rank: nat -> nat, runs: set<nat>)
    requires FollowsRising(states, rank) && at < |states|
    ensures !Ring(states[at], runs)
  {
    var s := states[at];
    AlwaysAscends(states, at, rank);
    hide Ring, FollowsRising;
    if Ring(s, runs) {
      var locks := RingOfLocks(s, runs);
      var last := LastInOrder(locks, rank);
      var w, i := Blocked(s, locks, last);
      hide LockRing;
      BlocksLater(s, last, w, i, rank);
    }
  }

  lemma BlocksLater(s: State, mutex: nat, w: nat, at: nat, rank: nat -> nat)
    requires Sound(s) && Ascends(s, rank) && Blocks(s, mutex, w, at)
    ensures rank(mutex) < rank(s.runs[w].mutex)
  {
    assert Later(s, s.runs[w].chain[at], s.runs[w].mutex, rank);
    assert NotBehindItself(s, w);
  }

  /** Two call chains come to hold a lock each, and then each asks for the other's. */
  function Opposite(k: nat): State {
    var first, second := Run(0, None, [], Running), Run(1, None, [], Running);
    var third, fourth := Run(1, Some(1), [0], Waiting), Run(0, Some(0), [1], Waiting);
    match k
    case 0 => START
    case 1 => State(map[0 := 0], [first.(phase := Waiting)])
    case 2 => State(map[0 := 0], [first])
    case 3 => State(map[0 := 0, 1 := 1], [first, second.(phase := Waiting)])
    case 4 => State(map[0 := 0, 1 := 1], [first, second])
    case 5 => State(map[0 := 0, 1 := 2], [first, second, third])
    case _ => State(map[0 := 3, 1 := 2], [first, second, third, fourth])
  }

  lemma OppositeCall(k: nat, mutex: nat, caller: Option<nat>)
    requires k < 6 && mutex == (if k == 0 || k == 5 then 0 else 1)
    requires (k == 0 || k == 2 || k == 4 || k == 5) && caller == if k == 4 then Some(0) else if k == 5 then Some(1) else None
    ensures Enabled(Opposite(k), Enter(mutex, caller)) && Next(Opposite(k), Enter(mutex, caller)) == Opposite(k + 1)
  {
    var s, t := Opposite(k), Entered(Opposite(k), mutex, caller);
    assert ChainOf(s, caller) == if k == 4 then [0] else if k == 5 then [1] else [];
    assert !Refuses(s, mutex, caller);
    assert t.tails == Opposite(k + 1).tails;
    assert t.runs == Opposite(k + 1).runs;
  }

  lemma OppositeStep(k: nat)
    requires k < 6
    ensures Moves(Opposite(k), Opposite(k + 1))
  {
    if k == 1 || k == 3 {
      var step := Begin(if k == 1 then 0 else 1);
      assert Enabled(Opposite(k), step) && Next(Opposite(k), step).runs == Opposite(k + 1).runs;
    } else {
      hide Next, Enabled, Opposite;
      OppositeCall(k, if k == 0 || k == 5 then 0 else 1, if k == 4 then Some(0) else if k == 5 then Some(1) else None);
    }
  }

  lemma OppositeRing()
    ensures Ring(Opposite(6), {0, 1, 2, 3})
  {
    var s, runs := Opposite(6), {0, 1, 2, 3};
    WaitsAt(s, runs, 0, 2);
    WaitsAt(s, runs, 2, 1);
    WaitsAt(s, runs, 1, 3);
    WaitsAt(s, runs, 3, 0);
    hide WaitsIn, Opposite;
  }

  lemma FollowsOn(states: seq<State>, t: State)
    requires Follows(states) && Moves(states[|states| - 1], t)
    ensures Follows(states + [t])
  {
    hide Moves;
  }

  lemma {:induction false} OppositeRun(k: nat) returns (states: seq<State>)
    requires k <= 6
    ensures Follows(states) && |states| == k + 1 && states[k] == Opposite(k)
  {
    if k == 0 {
      states := [START];
    } else {
      states := OppositeRun(k - 1);
      OppositeStep(k - 1);
      hide *;
      FollowsOn(states, Opposite(k));
      states := states + [Opposite(k)];
    }
  }

  /** All four calls are let in, and then the four runs wait for each other. */
  lemma OppositeOrders() returns (states: seq<State>)
    ensures Follows(states) && |states| == 7 && states[6] == Opposite(6) && Ring(states[6], {0, 1, 2, 3})
  {
    states := OppositeRun(6);
    OppositeRing();
    hide *;
  }
}
