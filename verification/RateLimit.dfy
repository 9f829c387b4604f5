/** The in-process rate limiter: bounded fixed-window counters, against counters without a bound. */
module RateLimit {
  import opened Wrappers
  import opened Sums
  import opened Text

  datatype Counter = Counter(count: nat, resetAt: int)

  /** The counters in the order of the map: the order in which their windows were started. */
  type Counters = seq<(Str, Counter)>

  datatype Call = Consume(key: Str, limit: int, windowMs: nat, now: int) | Reset(key: Str)

  predicate Distinct(cs: Counters) { forall i, j :: 0 <= i < j < |cs| ==> cs[i].0 != cs[j].0 }

  /** Oldest window first. */
  predicate Aged(cs: Counters) { forall i, j :: 0 <= i < j < |cs| ==> cs[i].1.resetAt <= cs[j].1.resetAt }

  predicate AllBy(cs: Counters, latest: int) { forall i :: 0 <= i < |cs| ==> cs[i].1.resetAt <= latest }

  function Position(cs: Counters, key: Str): (i: nat)
    ensures i <= |cs|
    ensures i < |cs| ==> cs[i].0 == key
    ensures forall k :: 0 <= k < i ==> cs[k].0 != key
  {
    if cs == [] then 0 else if cs[0].0 == key then 0 else 1 + Position(cs[1..], key)
  }

  function Entry(cs: Counters, key: Str): Option<Counter> {
    if Position(cs, key) < |cs| then Some(cs[Position(cs, key)].1) else None
  }

  /** A counter whose window has not ended. */
  function Live(entry: Option<Counter>, now: int): Option<Counter> {
    if entry.Some? && entry.value.resetAt > now then entry else None
  }

  function Without(cs: Counters, key: Str): Counters {
    var i := Position(cs, key);
    if i < |cs| then cs[..i] + cs[i + 1..] else cs
  }

  // --- what one call does ----------------------------------------------------------------------------

  function Pruned(cs: Counters, now: int): Counters {
    if cs != [] && cs[0].1.resetAt <= now then Pruned(cs[1..], now) else cs
  }

  /** Room for one more: the oldest windows are dropped. */
  function Evicted(cs: Counters, maxKeys: nat): Counters
    requires maxKeys >= 1
  {
    if |cs| >= maxKeys then cs[|cs| - maxKeys + 1..] else cs
  }

  function Started(cs: Counters, maxKeys: nat, key: Str, windowMs: nat, now: int): Counters
    requires maxKeys >= 1
  {
    if Live(Entry(cs, key), now).Some? then cs
    else Evicted(Without(cs, key), maxKeys) + [(key, Counter(0, now + windowMs))]
  }

  function Counted(cs: Counters, key: Str, limit: int): (Counters, bool) {
    var i := Position(cs, key);
    if i == |cs| || cs[i].1.count >= limit then (cs, false)
    else (cs[i := (key, cs[i].1.(count := cs[i].1.count + 1))], true)
  }

  function Apply(cs: Counters, maxKeys: nat, call: Call): (Counters, bool)
    requires maxKeys >= 1
  {
    match call
    case Consume(key, limit, windowMs, now) =>
      Counted(Started(Pruned(cs, now), maxKeys, key, windowMs, now), key, limit)
    case Reset(key) => (Without(cs, key), true)
  }

  class MemoryRateLimiter {
    const maxKeys: nat
    var counters: Counters

    ghost predicate Valid()
      reads this
    {
      maxKeys >= 1 && Distinct(counters) && |counters| <= maxKeys
    }

    constructor (maxKeys: nat)
      requires maxKeys >= 1
      ensures Valid() && counters == [] && this.maxKeys == maxKeys
    {
      this.maxKeys := maxKeys;
      counters := [];
    }

    /** Drops expired counters from the front. */
    method Prune(now: int)
      requires Valid()
      modifies this`counters
      ensures Valid() && counters == Pruned(old(counters), now)
    {
      while counters != [] && counters[0].1.resetAt <= now
        invariant Pruned(counters, now) == Pruned(old(counters), now)
        invariant Distinct(counters) && |counters| <= maxKeys
        decreases |counters|
      {
        counters := counters[1..];
      }
    }

    /** A new window for the key, making room when there is none. */
    method Start(key: Str, windowMs: nat, now: int)
      requires Valid() && Live(Entry(counters, key), now).None?
      modifies this`counters
      ensures Valid() && counters == Started(old(counters), maxKeys, key, windowMs, now)
    {
      var i := Position(counters, key);
      if i < |counters| { counters := counters[..i] + counters[i + 1..]; }
      ghost var rest := counters;
      NoneLeft(old(counters), key);
      WithoutDistinct(old(counters), key);
      ghost var dropped := 0;
      while |counters| >= maxKeys
        invariant dropped <= |rest| && counters == rest[dropped..]
        invariant dropped > 0 ==> |counters| >= maxKeys - 1
        decreases |counters|
      {
        counters := counters[1..];
        dropped := dropped + 1;
      }
      assert counters == Evicted(rest, maxKeys);
      EvictedDistinct(rest, maxKeys, key);
      counters := counters + [(key, Counter(0, now + windowMs))];
    }

    /** Never more than `maxKeys` counters, whatever the calls are. */
    method ConsumeKey(key: Str, limit: int, windowMs: nat, now: int) returns (permitted: bool)
      requires Valid()
      modifies this`counters
      ensures Valid()
      ensures (counters, permitted) == Apply(old(counters), maxKeys, Consume(key, limit, windowMs, now))
    {
      hide Pruned, Evicted, Without, Distinct;
      Prune(now);
      ghost var pruned := counters;
      var i := Position(counters, key);
      if i == |counters| || counters[i].1.resetAt <= now {
        Start(key, windowMs, now);
      }
      StartedHas(pruned, maxKeys, key, windowMs, now);
      var at := Position(counters, key);
      CountedDistinct(counters, key, limit);
      if counters[at].1.count >= limit { return false; }
      counters := counters[at := (key, counters[at].1.(count := counters[at].1.count + 1))];
      return true;
    }

    method ResetKey(key: Str)
      requires Valid()
      modifies this`counters
      ensures Valid() && counters == Apply(old(counters), maxKeys, Reset(key)).0
    {
      var i := Position(counters, key);
      if i < |counters| { counters := counters[..i] + counters[i + 1..]; }
    }
  }

  lemma {:induction false} PrunedShape(cs: Counters, now: int)
    ensures |Pruned(cs, now)| <= |cs| && Pruned(cs, now) == cs[|cs| - |Pruned(cs, now)|..]
    ensures forall i :: 0 <= i < |cs| - |Pruned(cs, now)| ==> cs[i].1.resetAt <= now
    ensures Pruned(cs, now) != [] ==> Pruned(cs, now)[0].1.resetAt > now
  {
    if cs != [] && cs[0].1.resetAt <= now { PrunedShape(cs[1..], now); }
  }

  lemma WithoutDistinct(cs: Counters, key: Str)
    requires Distinct(cs)
    ensures Distinct(Without(cs, key)) && |Without(cs, key)| <= |cs|
  {}

  lemma CountedDistinct(cs: Counters, key: Str, limit: int)
    requires Distinct(cs)
    ensures Distinct(Counted(cs, key, limit).0) && |Counted(cs, key, limit).0| == |cs|
  {}

  lemma EvictedDistinct(cs: Counters, maxKeys: nat, key: Str)
    requires maxKeys >= 1 && Distinct(cs) && forall i :: 0 <= i < |cs| ==> cs[i].0 != key
    ensures Distinct(Evicted(cs, maxKeys)) && |Evicted(cs, maxKeys)| < maxKeys
    ensures forall i :: 0 <= i < |Evicted(cs, maxKeys)| ==> Evicted(cs, maxKeys)[i].0 != key
  {}

  lemma StartedHas(cs: Counters, maxKeys: nat, key: Str, windowMs: nat, now: int)
    requires maxKeys >= 1 && Distinct(cs)
    ensures Position(Started(cs, maxKeys, key, windowMs, now), key) < |Started(cs, maxKeys, key, windowMs, now)|
    ensures Live(Entry(cs, key), now).Some? ==> Started(cs, maxKeys, key, windowMs, now) == cs
    ensures Live(Entry(cs, key), now).None? ==>
              var started := Started(cs, maxKeys, key, windowMs, now);
              Entry(started, key) == Some(Counter(0, now + windowMs))
  {
    if Live(Entry(cs, key), now).None? {
      NoneLeft(cs, key);
      WithoutDistinct(cs, key);
      EvictedDistinct(Without(cs, key), maxKeys, key);
      var rest := Evicted(Without(cs, key), maxKeys);
      var all := rest + [(key, Counter(0, now + windowMs))];
      assert all[|rest|].0 == key;
      assert forall i :: 0 <= i < |rest| ==> all[i] == rest[i];
    }
  }

  lemma NoneLeft(cs: Counters, key: Str)
    requires Distinct(cs)
    ensures forall i :: 0 <= i < |Without(cs, key)| ==> Without(cs, key)[i].0 != key
  {}

  // --- counters without a bound ----------------------------------------------------------------------

  type Windows = map<Str, Counter>

  function Window(ws: Windows, key: Str): Option<Counter> { if key in ws then Some(ws[key]) else None }

  /** A fixed window for every key, kept for ever. */
  function Unbounded(ws: Windows, call: Call): (Windows, bool) {
    match call
    case Consume(key, limit, windowMs, now) =>
      var c := if Live(Window(ws, key), now).Some? then ws[key] else Counter(0, now + windowMs);
      if c.count >= limit then (ws[key := c], false) else (ws[key := c.(count := c.count + 1)], true)
    case Reset(key) => (ws - {key}, true)
  }

  ghost predicate Agree(cs: Counters, ws: Windows, now: int) {
    forall key :: Live(Entry(cs, key), now) == Live(Window(ws, key), now)
  }

  /** The other keys with a live window leave room for this one. */
  ghost predicate Fits(ws: Windows, maxKeys: nat, key: Str, now: int) {
    |LiveOthers(ws, key, now)| < maxKeys
  }

  ghost function LiveOthers(ws: Windows, key: Str, now: int): set<Str> {
    set k | k in ws && ws[k].resetAt > now && k != key
  }

  /** With one window length and a clock that does not go back, the map runs oldest window first. */
  ghost predicate Tidy(cs: Counters, latest: int) { Distinct(cs) && Aged(cs) && AllBy(cs, latest) }

  lemma EntryAt(cs: Counters, i: nat)
    requires Distinct(cs) && i < |cs|
    ensures Entry(cs, cs[i].0) == Some(cs[i].1)
  {
    assert Position(cs, cs[i].0) <= i;
  }

  lemma EntryGone(cs: Counters, key: Str)
    requires forall i :: 0 <= i < |cs| ==> cs[i].0 != key
    ensures Entry(cs, key).None?
  {}

  lemma PrunedTidy(cs: Counters, now: int, latest: int)
    requires Tidy(cs, latest)
    ensures Tidy(Pruned(cs, now), latest)
    ensures forall i :: 0 <= i < |Pruned(cs, now)| ==> Pruned(cs, now)[i].1.resetAt > now
  {
    PrunedShape(cs, now);
    var pruned := Pruned(cs, now);
    var n := |cs| - |pruned|;
    hide Pruned;
    assert forall i :: 0 <= i < |pruned| ==> pruned[i] == cs[n + i];
  }

  /** Pruning removes every expired counter and nothing else. */
  lemma {:induction false} PrunedLive(cs: Counters, now: int, key: Str)
    requires Distinct(cs) && Aged(cs)
    ensures Entry(Pruned(cs, now), key) == Live(Entry(cs, key), now)
  {
    if cs != [] && cs[0].1.resetAt <= now {
      var rest := cs[1..];
      assert forall i :: 0 <= i < |rest| ==> rest[i] == cs[i + 1];
      PrunedLive(rest, now, key);
      if cs[0].0 == key { EntryGone(rest, key); }
    }
  }

  lemma {:induction false} KeysCount(cs: Counters)
    requires Distinct(cs)
    ensures |set i | 0 <= i < |cs| :: cs[i].0| == |cs|
  {
    if cs != [] {
      var n := |cs| - 1;
      KeysCount(cs[..n]);
      var keys := set i | 0 <= i < n :: cs[..n][i].0;
      assert (set i | 0 <= i < |cs| :: cs[i].0) == keys + {cs[n].0};
    }
  }

  /** When the live keys fit there is nothing to evict. */
  lemma NothingEvicted(cs: Counters, ws: Windows, maxKeys: nat, key: Str, now: int)
    requires maxKeys >= 1 && Distinct(cs) && Fits(ws, maxKeys, key, now) && Entry(cs, key).None?
    requires forall i :: 0 <= i < |cs| ==> cs[i].1.resetAt > now
    requires forall k :: Entry(cs, k) == Live(Window(ws, k), now)
    ensures Without(cs, key) == cs && Evicted(cs, maxKeys) == cs
  {
    KeysCount(cs);
    var keys := set i | 0 <= i < |cs| :: cs[i].0;
    forall k | k in keys
      ensures k in LiveOthers(ws, key, now)
    {
      var i :| 0 <= i < |cs| && cs[i].0 == k;
      EntryAt(cs, i);
    }
    SubsetSize(keys, LiveOthers(ws, key, now));
  }

  lemma AppendEntry(cs: Counters, key: Str, counter: Counter)
    requires Distinct(cs) && Entry(cs, key).None?
    ensures Distinct(cs + [(key, counter)])
    ensures forall k :: Entry(cs + [(key, counter)], k) == if k == key then Some(counter) else Entry(cs, k)
  {
    var all := cs + [(key, counter)];
    assert Position(cs, key) == |cs|;
    forall k
      ensures Entry(all, k) == if k == key then Some(counter) else Entry(cs, k)
    {
      if k == key {
        EntryAt(all, |cs|);
      } else if Position(cs, k) < |cs| {
        assert all[Position(cs, k)] == cs[Position(cs, k)];
        EntryAt(all, Position(cs, k));
      } else {
        EntryGone(all, k);
      }
    }
  }

  lemma UpdateEntry(cs: Counters, key: Str, counter: Counter)
    requires Distinct(cs) && Position(cs, key) < |cs|
    ensures var all := cs[Position(cs, key) := (key, counter)];
            Distinct(all) && forall k :: Entry(all, k) == if k == key then Some(counter) else Entry(cs, k)
  {
    var at := Position(cs, key);
    var all := cs[at := (key, counter)];
    forall k
      ensures Entry(all, k) == if k == key then Some(counter) else Entry(cs, k)
    {
      if k == key {
        EntryAt(all, at);
      } else if Position(cs, k) < |cs| {
        EntryAt(all, Position(cs, k));
      } else {
        EntryGone(all, k);
      }
    }
  }

  lemma RemoveEntry(cs: Counters, key: Str)
    requires Distinct(cs)
    ensures Distinct(Without(cs, key))
    ensures forall k :: Entry(Without(cs, key), k) == if k == key then None else Entry(cs, k)
  {
    var at, rest := Position(cs, key), Without(cs, key);
    NoneLeft(cs, key);
    WithoutDistinct(cs, key);
    forall k
      ensures Entry(rest, k) == if k == key then None else Entry(cs, k)
    {
      var i := Position(cs, k);
      if k == key {
        EntryGone(rest, k);
      } else if i < |cs| {
        EntryAt(rest, if i < at then i else i - 1);
      } else {
        EntryGone(rest, k);
      }
    }
  }

  /** At the cap the oldest windows are dropped, and only as many as it takes to make room for one. */
  lemma OldestEvicted(cs: Counters, maxKeys: nat)
    requires maxKeys >= 1 && Aged(cs) && Distinct(cs)
    ensures |Evicted(cs, maxKeys)| == if |cs| < maxKeys then |cs| else maxKeys - 1
    ensures forall i :: 0 <= i < |cs| && cs[i] !in Evicted(cs, maxKeys) ==>
              forall k :: 0 <= k < |Evicted(cs, maxKeys)| ==> cs[i].1.resetAt <= Evicted(cs, maxKeys)[k].1.resetAt
    ensures forall counter :: counter in Evicted(cs, maxKeys) ==> counter in cs
  {
    var kept := Evicted(cs, maxKeys);
    var n := |cs| - |kept|;
    assert kept == cs[n..];
    hide Evicted, Aged, Distinct;
    forall i, k | 0 <= i < |cs| && cs[i] !in kept && 0 <= k < |kept|
      ensures cs[i].1.resetAt <= kept[k].1.resetAt
    { DroppedOlder(cs, n, i, k); }
    forall counter | counter in kept
      ensures counter in cs
    {
      var k :| 0 <= k < |kept| && kept[k] == counter;
      assert cs[n + k] == counter;
    }
  }

  /** In an aged map what is dropped from the front is no newer than what stays. */
  lemma DroppedOlder(cs: Counters, n: nat, i: nat, k: nat)
    requires Aged(cs) && n <= |cs| && i < |cs| && k < |cs| - n && cs[i] !in cs[n..]
    ensures cs[i].1.resetAt <= cs[n..][k].1.resetAt
  {
    assert forall j :: n <= j < |cs| ==> cs[n..][j - n] == cs[j];
    assert cs[n..][k] == cs[n + k];
  }

  /** The calls a comparison speaks of: one window length, a clock that does not go back, and keys that fit. */
  ghost predicate Comparable(ws: Windows, maxKeys: nat, call: Call, clock: int, windowMs: nat) {
    call.Consume? ==> call.windowMs == windowMs && call.now >= clock && Fits(ws, maxKeys, call.key, call.now)
  }

  function Clock(call: Call, clock: int): int { if call.Consume? then call.now else clock }

  /** A window is live, or is started: the same in the bounded map and the unbounded one. */
  lemma StartedAgrees(cs: Counters, ws: Windows, maxKeys: nat, key: Str, windowMs: nat, now: int)
    requires maxKeys >= 1 && Tidy(cs, now + windowMs) && Fits(ws, maxKeys, key, now)
    requires forall i :: 0 <= i < |cs| ==> cs[i].1.resetAt > now
    requires forall k :: Entry(cs, k) == Live(Window(ws, k), now)
    ensures var started := Started(cs, maxKeys, key, windowMs, now);
            var c := if Live(Window(ws, key), now).Some? then ws[key] else Counter(0, now + windowMs);
            && Tidy(started, now + windowMs)
            && forall k :: Entry(started, k) == if k == key then Some(c) else Live(Window(ws, k), now)
  {
    var c := Counter(0, now + windowMs);
    assert Entry(cs, key) == Live(Window(ws, key), now);
    if Live(Window(ws, key), now).None? {
      NothingEvicted(cs, ws, maxKeys, key, now);
      AppendEntry(cs, key, c);
      AppendTidy(cs, key, c, now + windowMs);
      assert Started(cs, maxKeys, key, windowMs, now) == cs + [(key, c)];
      hide Started, Tidy, Entry, Window, Fits;
    } else {
      hide Tidy, Entry, Fits;
    }
  }

  lemma AppendTidy(cs: Counters, key: Str, counter: Counter, latest: int)
    requires Tidy(cs, latest) && Entry(cs, key).None? && counter.resetAt == latest
    ensures Tidy(cs + [(key, counter)], latest)
  {
    AppendEntry(cs, key, counter);
  }

  lemma StepAgrees(cs: Counters, ws: Windows, maxKeys: nat, call: Call, clock: int, windowMs: nat)
    requires maxKeys >= 1 && Tidy(cs, clock + windowMs) && Agree(cs, ws, clock)
    requires Comparable(ws, maxKeys, call, clock, windowMs)
    ensures Apply(cs, maxKeys, call).1 == Unbounded(ws, call).1
    ensures Tidy(Apply(cs, maxKeys, call).0, Clock(call, clock) + windowMs)
    ensures Agree(Apply(cs, maxKeys, call).0, Unbounded(ws, call).0, Clock(call, clock))
  {
    hide Fits, Pruned, Started, Counted, Without, Position;
    match call
    case Reset(key) =>
      RemoveEntry(cs, key);
      RemovedTidy(cs, key, clock + windowMs);
    case Consume(key, limit, _, now) =>
      AgreePruned(cs, ws, clock, now, windowMs);
      hide Agree, Tidy, Entry, Window, Live, Unbounded;
      StartedAgrees(Pruned(cs, now), ws, maxKeys, key, windowMs, now);
      CountedAgrees(Started(Pruned(cs, now), maxKeys, key, windowMs, now), ws, call);
  }

  lemma AgreePruned(cs: Counters, ws: Windows, clock: int, now: int, windowMs: nat)
    requires Tidy(cs, clock + windowMs) && Agree(cs, ws, clock) && now >= clock
    ensures Tidy(Pruned(cs, now), now + windowMs)
    ensures forall i :: 0 <= i < |Pruned(cs, now)| ==> Pruned(cs, now)[i].1.resetAt > now
    ensures forall k :: Entry(Pruned(cs, now), k) == Live(Window(ws, k), now)
  {
    hide Pruned, Entry;
    PrunedTidy(cs, now, now + windowMs);
    forall k
      ensures Entry(Pruned(cs, now), k) == Live(Window(ws, k), now)
    {
      PrunedLive(cs, now, k);
      assert Live(Entry(cs, k), clock) == Live(Window(ws, k), clock);
    }
  }

  lemma RemovedTidy(cs: Counters, key: Str, latest: int)
    requires Tidy(cs, latest)
    ensures Tidy(Without(cs, key), latest)
  {
    WithoutDistinct(cs, key);
    hide Position, Distinct;
    var at, rest := Position(cs, key), Without(cs, key);
    assert forall i :: 0 <= i < |rest| ==> rest[i] == cs[if i < at then i else i + 1];
  }

  lemma CountedAgrees(started: Counters, ws: Windows, call: Call)
    requires call.Consume? && Tidy(started, call.now + call.windowMs)
    requires var c := if Live(Window(ws, call.key), call.now).Some? then ws[call.key] else Counter(0, call.now + call.windowMs);
             forall k :: Entry(started, k) == if k == call.key then Some(c) else Live(Window(ws, k), call.now)
    ensures Counted(started, call.key, call.limit).1 == Unbounded(ws, call).1
    ensures Tidy(Counted(started, call.key, call.limit).0, call.now + call.windowMs)
    ensures Agree(Counted(started, call.key, call.limit).0, Unbounded(ws, call).0, call.now)
  {
    var key, limit, now := call.key, call.limit, call.now;
    CountedTidy(started, key, limit, now + call.windowMs);
    CountedEntries(started, key, limit);
    assert Entry(started, key).Some?;
    hide Counted, Entry, Tidy;
    var after, next := Counted(started, key, limit), Unbounded(ws, call);
    forall k
      ensures Live(Entry(after.0, k), now) == Live(Window(next.0, k), now)
    {
      if k != key { assert Window(next.0, k) == Window(ws, k); }
    }
  }

  lemma CountedEntries(cs: Counters, key: Str, limit: int)
    requires Distinct(cs) && Entry(cs, key).Some?
    ensures var c := Entry(cs, key).value;
            var after := Counted(cs, key, limit);
            && after.1 == (c.count < limit)
            && forall k :: Entry(after.0, k)
                 == if k == key && c.count < limit then Some(c.(count := c.count + 1)) else Entry(cs, k)
  {
    var c := Entry(cs, key).value;
    UpdateEntry(cs, key, c.(count := c.count + 1));
  }

  lemma CountedTidy(cs: Counters, key: Str, limit: int, latest: int)
    requires Tidy(cs, latest)
    ensures Tidy(Counted(cs, key, limit).0, latest)
  {
    hide Position;
  }

  // --- whole runs ------------------------------------------------------------------------------------

  function Answers(cs: Counters, maxKeys: nat, calls: seq<Call>): seq<bool>
    requires maxKeys >= 1
    decreases |calls|
  {
    if calls == [] then []
    else [Apply(cs, maxKeys, calls[0]).1] + Answers(Apply(cs, maxKeys, calls[0]).0, maxKeys, calls[1..])
  }

  function UnboundedAnswers(ws: Windows, calls: seq<Call>): seq<bool>
    decreases |calls|
  {
    if calls == [] then [] else [Unbounded(ws, calls[0]).1] + UnboundedAnswers(Unbounded(ws, calls[0]).0, calls[1..])
  }

  ghost predicate AllComparable(ws: Windows, maxKeys: nat, calls: seq<Call>, clock: int, windowMs: nat)
    decreases |calls|
  {
    calls == [] ||
    (Comparable(ws, maxKeys, calls[0], clock, windowMs)
     && AllComparable(Unbounded(ws, calls[0]).0, maxKeys, calls[1..], Clock(calls[0], clock), windowMs))
  }

  /** As long as the live keys fit, the bounded limiter answers every call as one without a bound. */
  lemma {:induction false} RunAgrees(cs: Counters, ws: Windows, maxKeys: nat, calls: seq<Call>, clock: int, windowMs: nat)
    requires maxKeys >= 1 && Tidy(cs, clock + windowMs) && Agree(cs, ws, clock)
    requires AllComparable(ws, maxKeys, calls, clock, windowMs)
    ensures Answers(cs, maxKeys, calls) == UnboundedAnswers(ws, calls)
    decreases |calls|
  {
    if calls != [] {
      StepAgrees(cs, ws, maxKeys, calls[0], clock, windowMs);
      RunAgrees(Apply(cs, maxKeys, calls[0]).0, Unbounded(ws, calls[0]).0, maxKeys, calls[1..],
                Clock(calls[0], clock), windowMs);
    }
  }

  /** The attempts permitted for a key. */
  function Permits(ws: Windows, calls: seq<Call>, key: Str): nat
    decreases |calls|
  {
    if calls == [] then 0
    else
      (if calls[0].Consume? && calls[0].key == key && Unbounded(ws, calls[0]).1 then 1 else 0)
      + Permits(Unbounded(ws, calls[0]).0, calls[1..], key)
  }

  /** Within one window, never more than the limit. */
  lemma {:induction false} WindowLimit(ws: Windows, calls: seq<Call>, key: Str, limit: nat)
    requires key in ws && ws[key].count <= limit
    requires forall i :: 0 <= i < |calls| ==>
               calls[i].Consume? && (calls[i].key == key ==> calls[i].limit <= limit && calls[i].now < ws[key].resetAt)
    ensures ws[key].count + Permits(ws, calls, key) <= limit
    decreases |calls|
  {
    if calls != [] {
      var next := Unbounded(ws, calls[0]).0;
      assert next[key].resetAt == ws[key].resetAt;
      WindowLimit(next, calls[1..], key, limit);
    }
  }

  // --- counters kept in the store --------------------------------------------------------------------

  const SWEEP_INTERVAL_MS: nat := 60_000

  /** One attempt against the stored counters; a refused one writes nothing. */
  function Stored(ws: Windows, call: Call): (Windows, bool) {
    match call
    case Consume(key, limit, windowMs, now) =>
      var c := if Live(Window(ws, key), now).Some? then ws[key] else Counter(0, now + windowMs);
      if c.count >= limit then (ws, false) else (ws[key := c.(count := c.count + 1)], true)
    case Reset(key) => (ws - {key}, true)
  }

  /** One transaction of a sweep: of the counters it found stale, those that still are. */
  function Swept(ws: Windows, stale: set<Str>, now: int): Windows {
    map key | key in ws && !(key in stale && ws[key].resetAt <= now) :: ws[key]
  }

  /** When the next sweep may start, and whether one runs. */
  datatype Sweeper = Sweeper(next: Option<int>, running: bool)

  datatype SweepEvent = Attempted(now: int) | Finished

  predicate Starts(s: Sweeper, event: SweepEvent) {
    event.Attempted? && !s.running && (s.next.None? || event.now >= s.next.value)
  }

  function SweepStep(s: Sweeper, event: SweepEvent): Sweeper {
    if event.Finished? then s.(running := false)
    else if Starts(s, event) then Sweeper(Some(event.now + SWEEP_INTERVAL_MS), true)
    else s
  }

  function SweeperAt(s: Sweeper, events: seq<SweepEvent>, n: nat): Sweeper
    requires n <= |events|
  {
    if n == 0 then s else SweepStep(SweeperAt(s, events, n - 1), events[n - 1])
  }

  /** From a start on: the next is a minute away, and until the sweep has finished it runs. */
  lemma {:induction false} AfterStart(s: Sweeper, events: seq<SweepEvent>, i: nat, n: nat)
    requires i < n <= |events| && Starts(SweeperAt(s, events, i), events[i])
    ensures var later := SweeperAt(s, events, n);
            && later.next.Some? && later.next.value >= events[i].now + SWEEP_INTERVAL_MS
            && (later.running || exists k :: i < k < n && events[k].Finished?)
  {
    if i + 1 < n {
      AfterStart(s, events, i, n - 1);
      if k :| i < k < n - 1 && events[k].Finished? { assert i < k < n && events[k].Finished?; }
    }
  }

  /** However attempts and ends of sweeps fall: starts are a minute apart, and the first sweep ended before the second. */
  lemma SweepsApart(s: Sweeper, events: seq<SweepEvent>, i: nat, j: nat)
    requires i < j < |events| && Starts(SweeperAt(s, events, i), events[i]) && Starts(SweeperAt(s, events, j), events[j])
    ensures events[j].now >= events[i].now + SWEEP_INTERVAL_MS
    ensures exists k :: i < k < j && events[k].Finished?
  {
    AfterStart(s, events, i, j);
  }

  class StoreRateLimiter {
    var counters: Windows
    var nextSweep: Option<int>
    var sweeping: bool

    constructor ()
      ensures counters == map[] && nextSweep == None && !sweeping
    {
      counters, nextSweep, sweeping := map[], None, false;
    }

    /** Answers from the stored counter, and starts a sweep when none runs and the last is a minute old. */
    method ConsumeKey(key: Str, limit: int, windowMs: nat, now: int) returns (permitted: bool, sweeps: bool)
      modifies this
      ensures (counters, permitted) == Stored(old(counters), Consume(key, limit, windowMs, now))
      ensures sweeps == Starts(Sweeper(old(nextSweep), old(sweeping)), Attempted(now))
      ensures Sweeper(nextSweep, sweeping) == SweepStep(Sweeper(old(nextSweep), old(sweeping)), Attempted(now))
    {
      var existing := Window(counters, key);
      var record := if existing.Some? && existing.value.resetAt > now then existing.value else Counter(0, now + windowMs);
      permitted := record.count < limit;
      if permitted { counters := counters[key := record.(count := record.count + 1)]; }
      sweeps := !sweeping && (nextSweep.None? || now >= nextSweep.value);
      if sweeps {
        sweeping := true;
        nextSweep := Some(now + SWEEP_INTERVAL_MS);
      }
    }

    /** A batch of a sweep, each counter read again before it is deleted. */
    method SweepBatch(stale: seq<Str>, now: int)
      modifies this`counters
      ensures counters == Swept(old(counters), (set key | key in stale), now)
    {
      var i := 0;
      assert counters == Swept(counters, (set key | key in stale[..0]), now);
      while i < |stale|
        invariant i <= |stale| && counters == Swept(old(counters), (set key | key in stale[..i]), now)
      {
        assert stale[..i + 1] == stale[..i] + [stale[i]];
        if stale[i] in counters && counters[stale[i]].resetAt <= now { counters := counters - {stale[i]}; }
        i := i + 1;
      }
      assert stale[..i] == stale;
    }

    method FinishSweep()
      modifies this`sweeping
      ensures Sweeper(nextSweep, sweeping) == SweepStep(Sweeper(nextSweep, old(sweeping)), Finished)
    {
      sweeping := false;
    }
  }

  /** What may happen to the stored counters: attempts and resets, with batches of sweeps in between. */
  datatype Event = Call(call: Call) | Sweep(stale: set<Str>, now: int)

  /** The clock does not go back, and a sweep looks back to a time that has come. */
  predicate Timely(events: seq<Event>, clock: int)
    decreases |events|
  {
    events == [] ||
    match events[0]
    case Call(call) => (call.Consume? ==> call.now >= clock) && Timely(events[1..], Clock(call, clock))
    case Sweep(_, now) => now <= clock && Timely(events[1..], clock)
  }

  function StoredAnswers(ws: Windows, events: seq<Event>): seq<bool>
    decreases |events|
  {
    if events == [] then []
    else
      match events[0]
      case Call(call) => [Stored(ws, call).1] + StoredAnswers(Stored(ws, call).0, events[1..])
      case Sweep(stale, now) => StoredAnswers(Swept(ws, stale, now), events[1..])
  }

  function Calls(events: seq<Event>): seq<Event> {
    if events == [] then [] else (if events[0].Call? then [events[0]] else []) + Calls(events[1..])
  }

  ghost predicate SameLive(a: Windows, b: Windows, now: int) {
    forall key :: Live(Window(a, key), now) == Live(Window(b, key), now)
  }

  /** Sweeps, however they fall between attempts, change no answer: only what has expired is deleted. */
  lemma {:induction false} SweepsUnseen(swept: Windows, kept: Windows, events: seq<Event>, clock: int)
    requires Timely(events, clock) && SameLive(swept, kept, clock)
    ensures StoredAnswers(swept, events) == StoredAnswers(kept, Calls(events))
    decreases |events|
  {
    if events != [] {
      var rest := events[1..];
      match events[0]
      case Call(call) =>
        var calls := Calls(events);
        assert calls == [events[0]] + Calls(rest);
        assert calls[1..] == Calls(rest);
        StoredAlike(swept, kept, call, clock);
        SweepsUnseen(Stored(swept, call).0, Stored(kept, call).0, rest, Clock(call, clock));
      case Sweep(stale, now) =>
        assert Calls(events) == Calls(rest);
        SweepsUnseen(Swept(swept, stale, now), kept, rest, clock);
    }
  }

  lemma StoredAlike(a: Windows, b: Windows, call: Call, clock: int)
    requires SameLive(a, b, clock) && (call.Consume? ==> call.now >= clock)
    ensures Stored(a, call).1 == Stored(b, call).1
    ensures SameLive(Stored(a, call).0, Stored(b, call).0, Clock(call, clock))
  {
    var now := Clock(call, clock);
    assert Live(Window(a, call.key), clock) == Live(Window(b, call.key), clock);
    forall key
      ensures Live(Window(Stored(a, call).0, key), now) == Live(Window(Stored(b, call).0, key), now)
    {
      assert Live(Window(a, key), clock) == Live(Window(b, key), clock);
    }
  }

  /** The attempts the stored limiter permits for a key. */
  function StoredPermits(ws: Windows, events: seq<Event>, key: Str): nat
    decreases |events|
  {
    if events == [] then 0
    else
      match events[0]
      case Call(call) =>
        (if call.Consume? && call.key == key && Stored(ws, call).1 then 1 else 0)
        + StoredPermits(Stored(ws, call).0, events[1..], key)
      case Sweep(stale, now) => StoredPermits(Swept(ws, stale, now), events[1..], key)
  }

  /** Within one window never more than the limit, whatever is swept meanwhile. */
  lemma {:induction false} StoredLimit(ws: Windows, events: seq<Event>, key: Str, limit: nat)
    requires key in ws && ws[key].count <= limit
    requires forall i :: 0 <= i < |events| ==>
               match events[i]
               case Call(call) => call.Consume? && (call.key == key ==> call.limit <= limit && call.now < ws[key].resetAt)
               case Sweep(_, now) => now < ws[key].resetAt
    ensures ws[key].count + StoredPermits(ws, events, key) <= limit
    decreases |events|
  {
    if events != [] {
      var next := if events[0].Call? then Stored(ws, events[0].call).0 else Swept(ws, events[0].stale, events[0].now);
      assert key in next && next[key].resetAt == ws[key].resetAt;
      assert forall i :: 0 <= i < |events[1..]| ==> events[1..][i] == events[i + 1];
      StoredLimit(next, events[1..], key, limit);
    }
  }

  // --- what a window permits, exactly ----------------------------------------------------------------

  /** Limiters that count in fixed windows: what one call answers and leaves, said of the counters before and after. */
  ghost predicate FixedWindows(step: (Windows, Call) -> (Windows, bool)) {
    forall ws, call :: CountsRightly(step, ws, call)
  }

  ghost predicate CountsRightly(step: (Windows, Call) -> (Windows, bool), ws: Windows, call: Call) {
    var after, permitted := step(ws, call).0, step(ws, call).1;
    && (forall k :: k != call.key ==> Window(after, k) == Window(ws, k))
    && match call
       case Reset(key) => key !in after
       case Consume(key, limit, windowMs, now) =>
         if key in ws && ws[key].resetAt > now then
           && (permitted <==> ws[key].count < limit)
           && key in after && after[key] == Counter(ws[key].count + if permitted then 1 else 0, ws[key].resetAt)
         else
           (permitted <==> 0 < limit) && (permitted ==> key in after && after[key] == Counter(1, now + windowMs))
  }

  /** Both limiters do: the one in memory while its keys fit, the one in the store whatever is swept. */
  lemma BothFixed()
    ensures FixedWindows(Stored) && FixedWindows(Unbounded)
  {}

  function After(step: (Windows, Call) -> (Windows, bool), ws: Windows, calls: seq<Call>, n: nat): Windows
    requires n <= |calls|
  {
    if n == 0 then ws else step(After(step, ws, calls, n - 1), calls[n - 1]).0
  }

  /** The answer to the n-th call. */
  predicate Permitted(step: (Windows, Call) -> (Windows, bool), ws: Windows, calls: seq<Call>, n: nat)
    requires n < |calls|
  {
    step(After(step, ws, calls, n), calls[n]).1
  }

  /** The attempts for a key that were permitted from the i-th call up to the n-th. */
  function PermittedFrom(step: (Windows, Call) -> (Windows, bool), ws: Windows, calls: seq<Call>, key: Str, i: nat, n: nat): nat
    requires i <= n <= |calls|
  {
    if n == i then 0
    else PermittedFrom(step, ws, calls, key, i, n - 1)
         + if calls[n - 1].Consume? && calls[n - 1].key == key && Permitted(step, ws, calls, n - 1) then 1 else 0
  }

  /** The i-th call opens a window: it is permitted when none is open. */
  ghost predicate Opens(step: (Windows, Call) -> (Windows, bool), ws: Windows, calls: seq<Call>, i: nat)
    requires i < |calls|
  {
    && calls[i].Consume? && Permitted(step, ws, calls, i)
    && Live(Window(After(step, ws, calls, i), calls[i].key), calls[i].now).None?
  }

  function EndOf(call: Call): int
    requires call.Consume?
  {
    call.now + call.windowMs
  }

  /** Up to the n-th call the key is only asked for while the window that the i-th opened lasts, and not reset. */
  ghost predicate WithinWindow(calls: seq<Call>, i: nat, n: nat)
    requires i < n <= |calls| && calls[i].Consume?
  {
    forall k :: i < k < n && calls[k].key == calls[i].key ==> calls[k].Consume? && calls[k].now < EndOf(calls[i])
  }

  lemma {:induction false} WindowCounts(step: (Windows, Call) -> (Windows, bool), ws: Windows, calls: seq<Call>, i: nat, n: nat)
    requires FixedWindows(step) && i < n <= |calls| && Opens(step, ws, calls, i) && WithinWindow(calls, i, n)
    ensures var counters, key := After(step, ws, calls, n), calls[i].key;
            key in counters && counters[key] == Counter(PermittedFrom(step, ws, calls, key, i, n), EndOf(calls[i]))
  {
    var before := After(step, ws, calls, n - 1);
    assert CountsRightly(step, before, calls[n - 1]);
    if n > i + 1 {
      WindowCounts(step, ws, calls, i, n - 1);
      if calls[n - 1].key != calls[i].key {
        assert Window(step(before, calls[n - 1]).0, calls[i].key) == Window(before, calls[i].key);
      }
    } else {
      assert PermittedFrom(step, ws, calls, calls[i].key, i, i) == 0;
    }
  }

  /**
   * While a window lasts, an attempt is permitted if and only if fewer than the limit were since it opened; and once it is
   * over, no window is open.
   */
  lemma WindowExactly(step: (Windows, Call) -> (Windows, bool), ws: Windows, calls: seq<Call>, i: nat, n: nat)
    requires FixedWindows(step) && i < n < |calls| && Opens(step, ws, calls, i) && WithinWindow(calls, i, n)
    requires calls[n].Consume? && calls[n].key == calls[i].key
    ensures calls[n].now < EndOf(calls[i]) ==>
              (Permitted(step, ws, calls, n) <==> PermittedFrom(step, ws, calls, calls[i].key, i, n) < calls[n].limit)
    ensures calls[n].now >= EndOf(calls[i]) ==> Live(Window(After(step, ws, calls, n), calls[n].key), calls[n].now).None?
  {
    WindowCounts(step, ws, calls, i, n);
    assert CountsRightly(step, After(step, ws, calls, n), calls[n]);
  }

  /** With no window open an attempt is permitted unless the limit is none at all; after a reset none is open. */
  lemma FreshExactly(step: (Windows, Call) -> (Windows, bool), ws: Windows, calls: seq<Call>, n: nat)
    requires FixedWindows(step) && n < |calls|
    ensures calls[n].Consume? && Live(Window(After(step, ws, calls, n), calls[n].key), calls[n].now).None? ==>
              (Permitted(step, ws, calls, n) <==> calls[n].limit > 0)
    ensures calls[n].Reset? ==> Window(After(step, ws, calls, n + 1), calls[n].key).None?
  {
    assert CountsRightly(step, After(step, ws, calls, n), calls[n]);
  }
}
