/** The SQLite adapter's transactions: one at a time, all or nothing, and dead handles afterwards. */
module Transactions {
  import Mutexes
  import opened Text
  import opened Wrappers

  type Db = map<Str, Str>

  /**
   * What a callback does, one awaited step after another. `Broken` is any driver operation that fails for
   * a reason of its own; `Late` is a use of a finished transaction's handle and `Reenter` of another adapter
   * instance on the same file, which the lock refuses (`Mutexes.RefusedExactly`), both before anything happens;
   * `Arrive` is another call chain asking for a transaction meanwhile.
   */
  datatype Action =
    | Get(key: Str)
    | Insert(key: Str, value: Str)
    | Put(key: Str, value: Str)
    | Delete(key: Str)
    | Broken
    | Throw
    | Late
    | Reenter
    | Catch(body: seq<Action>)
    | Nested(body: seq<Action>)
    | Arrive(request: Request)

  /** A top-level transaction: its callback, and whether the database accepts the COMMIT. */
  datatype Request = Request(body: seq<Action>, commits: bool)

  // --- the simple meaning ----------------------------------------------------------------------------

  /** A callback returns, throws an error of its own, or has met a failure that rules out a commit. */
  datatype Outcome = Returned(db: Db) | Thrown(db: Db) | Aborted

  /** A failed operation or nested callback aborts at once, whoever catches it. */
  function Effect(action: Action, db: Db): Outcome
    decreases action, 0
  {
    match action
    case Get(_) => Returned(db)
    case Insert(key, value) => if key in db then Aborted else Returned(db[key := value])
    case Put(key, value) => if key in db then Returned(db[key := value]) else Aborted
    case Delete(key) => Returned(db - {key})
    case Broken => Aborted
    case Throw => Thrown(db)
    case Late => Thrown(db)
    case Reenter => Thrown(db)
    case Catch(body) =>
      (match Effects(body, db)
       case Returned(d) => Returned(d)
       case Thrown(d) => Returned(d)
       case Aborted => Aborted)
    case Nested(body) =>
      (match Effects(body, db)
       case Returned(d) => Returned(d)
       case Thrown(_) => Aborted
       case Aborted => Aborted)
    case Arrive(_) => Returned(db)
  }

  function Effects(body: seq<Action>, db: Db): Outcome {
    if body == [] then Returned(db)
    else
      match Effect(body[0], db)
      case Returned(d) => Effects(body[1..], d)
      case Thrown(d) => Thrown(d)
      case Aborted => Aborted
  }

  predicate Commits(request: Request, db: Db) { request.commits && Effects(request.body, db).Returned? }

  /** All of a transaction or none of it. */
  function Committed(request: Request, db: Db): Db {
    if Commits(request, db) then Effects(request.body, db).db else db
  }

  /** One transaction after another. */
  function Serial(requests: seq<Request>, db: Db): Db {
    if requests == [] then db else Committed(requests[|requests| - 1], Serial(requests[..|requests| - 1], db))
  }

  // --- step by step ------------------------------------------------------------------------------------

  /** A step that throws an error of the callback's own. */
  predicate Stops(action: Action) { action.Throw? || action.Late? || action.Reenter? }

  /** A step that is done leads from one content of the connection to another. */
  ghost predicate StepTo(action: Action, d: Db, e: Db)
    decreases action, 0
  {
    match action
    case Get(_) => e == d
    case Arrive(_) => e == d
    case Insert(key, value) => key !in d && e == d[key := value]
    case Put(key, value) => key in d && e == d[key := value]
    case Delete(key) => e == d - {key}
    case Nested(body) => exists dbs :: Along(body, |body|, dbs) && dbs[0] == d && dbs[|body|] == e
    case Catch(body) =>
      exists n: nat, dbs :: Along(body, n, dbs) && dbs[0] == d && dbs[n] == e && (n < |body| ==> Stops(body[n]))
    case Broken | Throw | Late | Reenter => false
  }

  /** The first `n` steps are done, one after another, with these contents in between. */
  ghost predicate Along(body: seq<Action>, n: nat, dbs: seq<Db>)
    decreases body, 0
  {
    n <= |body| && |dbs| == n + 1 && forall i :: 0 <= i < n ==> StepTo(body[i], dbs[i], dbs[i + 1])
  }

  /** After the first `n` steps the connection holds this. */
  ghost predicate Reaches(body: seq<Action>, n: nat, db: Db, d: Db) {
    exists dbs :: Along(body, n, dbs) && dbs[0] == db && dbs[n] == d
  }

  /** A step that fails the transaction: a failed operation, or a nested callback that throws. */
  ghost predicate FailsAt(action: Action, db: Db)
    decreases action, 0
  {
    match action
    case Insert(key, _) => key in db
    case Put(key, _) => key !in db
    case Broken => true
    case Catch(body) => Fails(body, db)
    case Nested(body) => Fails(body, db) || Throws(body, db)
    case _ => false
  }

  /** Some step that is reached fails the transaction, caught or not. */
  ghost predicate Fails(body: seq<Action>, db: Db)
    decreases body, 0
  {
    exists n: nat, d :: n < |body| && Reaches(body, n, db, d) && FailsAt(body[n], d)
  }

  /** Some step that is reached, with this on the connection, throws, and nothing in this callback catches it. */
  ghost predicate ThrowsAt(body: seq<Action>, db: Db, d: Db) {
    exists n: nat :: n < |body| && Reaches(body, n, db, d) && Stops(body[n])
  }

  ghost predicate Throws(body: seq<Action>, db: Db)
    decreases body
  {
    exists d :: ThrowsAt(body, db, d)
  }

  lemma ReachesNone(body: seq<Action>, db: Db, d: Db)
    ensures Reaches(body, 0, db, d) <==> d == db
  {
    assert Along(body, 0, [db]);
  }

  lemma AlongFirst(body: seq<Action>, n: nat, dbs: seq<Db>)
    requires body != []
    ensures Along(body, n + 1, dbs) <==> dbs != [] && |dbs| >= 2 && StepTo(body[0], dbs[0], dbs[1]) && Along(body[1..], n, dbs[1..])
  {
    hide StepTo;
    var rest, tail := body[1..], if dbs == [] then [] else dbs[1..];
    if n + 1 <= |body| && |dbs| == n + 2 {
      assert forall i :: 0 <= i < |rest| ==> rest[i] == body[i + 1];
      assert forall i :: 0 <= i < |tail| ==> tail[i] == dbs[i + 1];
      if StepTo(body[0], dbs[0], dbs[1]) && Along(rest, n, tail) {
        forall i | 0 <= i < n + 1
          ensures StepTo(body[i], dbs[i], dbs[i + 1])
        { if i > 0 { assert StepTo(rest[i - 1], tail[i - 1], tail[i]); } }
      }
    }
  }

  /** The first step, and then the others. */
  ghost predicate FirstThen(body: seq<Action>, n: nat, db: Db, d: Db)
    requires body != []
  {
    exists e :: StepTo(body[0], db, e) && Reaches(body[1..], n, e, d)
  }

  lemma ReachesFirst(body: seq<Action>, n: nat, db: Db, d: Db)
    requires body != []
    ensures Reaches(body, n + 1, db, d) <==> FirstThen(body, n, db, d)
  {
    hide StepTo;
    if Reaches(body, n + 1, db, d) {
      var dbs :| Along(body, n + 1, dbs) && dbs[0] == db && dbs[n + 1] == d;
      AlongFirst(body, n, dbs);
      assert Reaches(body[1..], n, dbs[1], d) by { assert dbs[1..][n] == d; }
    }
    if FirstThen(body, n, db, d) {
      var e :| StepTo(body[0], db, e) && Reaches(body[1..], n, e, d);
      var tail :| Along(body[1..], n, tail) && tail[0] == e && tail[n] == d;
      var dbs := [db] + tail;
      assert dbs[1..] == tail;
      AlongFirst(body, n, dbs);
    }
  }

  lemma ThrowsFirst(body: seq<Action>, db: Db, d: Db)
    requires body != []
    ensures ThrowsAt(body, db, d) <==>
            (Stops(body[0]) && d == db) || exists e :: StepTo(body[0], db, e) && ThrowsAt(body[1..], e, d)
  {
    hide StepTo, Stops, Reaches;
    ReachesNone(body, db, d);
    if ThrowsAt(body, db, d) {
      var n: nat :| n < |body| && Reaches(body, n, db, d) && Stops(body[n]);
      if n > 0 {
        ReachesFirst(body, n - 1, db, d);
        var e :| StepTo(body[0], db, e) && Reaches(body[1..], n - 1, e, d);
        assert body[1..][n - 1] == body[n];
        assert ThrowsAt(body[1..], e, d);
      }
    }
    if e :| StepTo(body[0], db, e) && ThrowsAt(body[1..], e, d) {
      var n: nat :| n < |body[1..]| && Reaches(body[1..], n, e, d) && Stops(body[1..][n]);
      assert FirstThen(body, n, db, d);
      ReachesFirst(body, n, db, d);
      assert body[n + 1] == body[1..][n];
    }
  }

  lemma FailsFirst(body: seq<Action>, db: Db)
    requires body != []
    ensures Fails(body, db) <==> FailsAt(body[0], db) || exists e :: StepTo(body[0], db, e) && Fails(body[1..], e)
  {
    hide StepTo, FailsAt, Reaches;
    ReachesNone(body, db, db);
    if Fails(body, db) {
      var n: nat, d :| n < |body| && Reaches(body, n, db, d) && FailsAt(body[n], d);
      if n > 0 {
        ReachesFirst(body, n - 1, db, d);
        var e :| StepTo(body[0], db, e) && Reaches(body[1..], n - 1, e, d);
        assert body[1..][n - 1] == body[n];
        assert Fails(body[1..], e);
      } else {
        ReachesNone(body, db, d);
      }
    }
    if FailsAt(body[0], db) { assert Reaches(body, 0, db, db); }
    if e :| StepTo(body[0], db, e) && Fails(body[1..], e) {
      var n: nat, d :| n < |body[1..]| && Reaches(body[1..], n, e, d) && FailsAt(body[1..][n], d);
      assert FirstThen(body, n, db, d);
      ReachesFirst(body, n, db, d);
      assert body[n + 1] == body[1..][n];
    }
  }

  /** What the steps say of an outcome. */
  ghost predicate Told(outcome: Outcome, body: seq<Action>, db: Db) {
    && (forall d :: outcome == Returned(d) <==> Reaches(body, |body|, db, d))
    && (forall d :: outcome == Thrown(d) <==> ThrowsAt(body, db, d))
    && (outcome.Aborted? <==> Fails(body, db))
  }

  ghost predicate ToldStep(outcome: Outcome, action: Action, db: Db) {
    && (forall d :: outcome == Returned(d) <==> StepTo(action, db, d))
    && (forall d :: outcome == Thrown(d) <==> Stops(action) && d == db)
    && (outcome.Aborted? <==> FailsAt(action, db))
  }

  /** The meaning of one step is what the steps inside it say. */
  lemma {:induction false} StepExactly(action: Action, db: Db)
    ensures ToldStep(Effect(action, db), action, db)
    decreases action, 0
  {
    match action
    case Nested(body) =>
      CallbackExactly(body, db);
      NestedTold(body, db);
    case Catch(body) =>
      CallbackExactly(body, db);
      CatchTold(body, db);
    case _ =>
  }

  lemma NestedTold(body: seq<Action>, db: Db)
    requires Told(Effects(body, db), body, db)
    ensures ToldStep(Effect(Nested(body), db), Nested(body), db)
  {
    hide Effects, Along, Fails, ThrowsAt;
    forall d
      ensures StepTo(Nested(body), db, d) <==> Reaches(body, |body|, db, d)
    {}
  }

  lemma CatchTold(body: seq<Action>, db: Db)
    requires Told(Effects(body, db), body, db)
    ensures ToldStep(Effect(Catch(body), db), Catch(body), db)
  {
    hide Effects, Along, Fails;
    forall d
      ensures StepTo(Catch(body), db, d) <==> Reaches(body, |body|, db, d) || ThrowsAt(body, db, d)
    { CaughtEnds(body, db, d); }
  }

  lemma CaughtEnds(body: seq<Action>, db: Db, d: Db)
    ensures StepTo(Catch(body), db, d) <==> Reaches(body, |body|, db, d) || ThrowsAt(body, db, d)
  {
    if StepTo(Catch(body), db, d) {
      var n: nat, dbs :| Along(body, n, dbs) && dbs[0] == db && dbs[n] == d && (n < |body| ==> Stops(body[n]));
      assert Reaches(body, n, db, d);
    }
    if Reaches(body, |body|, db, d) {
      var dbs :| Along(body, |body|, dbs) && dbs[0] == db && dbs[|body|] == d;
    }
    if ThrowsAt(body, db, d) {
      var n: nat :| n < |body| && Reaches(body, n, db, d) && Stops(body[n]);
      var dbs :| Along(body, n, dbs) && dbs[0] == db && dbs[n] == d;
    }
  }

  /**
   * A callback returns with what its steps, all done one after another, leave; throws where a reached step throws; and is
   * aborted exactly when a reached step fails. One of the three is so, and only one.
   */
  lemma {:induction false} CallbackExactly(body: seq<Action>, db: Db)
    ensures Told(Effects(body, db), body, db)
    decreases body, 1
  {
    if body == [] {
      forall d
        ensures Reaches(body, 0, db, d) <==> d == db
      { ReachesNone(body, db, d); }
    } else {
      StepExactly(body[0], db);
      var first := Effect(body[0], db);
      if first.Returned? { CallbackExactly(body[1..], first.db); }
      ToldFirst(body, db);
    }
  }

  lemma ToldFirst(body: seq<Action>, db: Db)
    requires body != [] && ToldStep(Effect(body[0], db), body[0], db)
    requires Effect(body[0], db).Returned? ==> Told(Effects(body[1..], Effect(body[0], db).db), body[1..], Effect(body[0], db).db)
    ensures Told(Effects(body, db), body, db)
  {
    hide Effect, StepTo, Stops, Reaches, Fails, FailsAt, ThrowsAt;
    var first, rest := Effect(body[0], db), body[1..];
    FailsFirst(body, db);
    forall d
      ensures Reaches(body, |body|, db, d) <==> first.Returned? && Reaches(rest, |rest|, first.db, d)
      ensures ThrowsAt(body, db, d) <==> first == Thrown(d) || (first.Returned? && ThrowsAt(rest, first.db, d))
    {
      ReachesFirst(body, |body| - 1, db, d);
      ThrowsFirst(body, db, d);
      if first.Returned? { assert StepTo(body[0], db, first.db); }
    }
    if first.Returned? { assert StepTo(body[0], db, first.db); }
  }

  /** A callback rules out a commit, caught or not, exactly when a reached step fails. */
  lemma AbortedExactly(body: seq<Action>, db: Db)
    ensures Effects(body, db).Aborted? <==> Fails(body, db)
  {
    CallbackExactly(body, db);
    hide Effects, Fails;
  }

  /**
   * All or nothing: where a reached step throws or fails, or the COMMIT is refused, the store is as it was; and where
   * none does, the steps can all be done, and the store is what they leave.
   */
  lemma CommittedExactly(request: Request, db: Db)
    ensures Throws(request.body, db) || Fails(request.body, db) || !request.commits ==>
              !Commits(request, db) && Committed(request, db) == db
    ensures !Throws(request.body, db) && !Fails(request.body, db) && request.commits ==>
              Commits(request, db) && Reaches(request.body, |request.body|, db, Committed(request, db))
    ensures forall d :: Reaches(request.body, |request.body|, db, d) && request.commits ==> Committed(request, db) == d
  {
    CallbackExactly(request.body, db);
    hide Effects, Reaches, Fails, ThrowsAt;
    var outcome := Effects(request.body, db);
    if outcome.Thrown? { assert ThrowsAt(request.body, db, outcome.db); }
  }

  /** How a callback ended, as `transaction` sees it, decides what becomes of the store. */
  lemma SettledExactly(request: Request, db: Db, threw: bool, marked: bool)
    requires Effects(request.body, db).Returned? ==> !threw
    requires Effects(request.body, db).Thrown? ==> threw
    requires marked <==> Effects(request.body, db).Aborted?
    ensures var ok := !threw && !marked && request.commits;
            && ok == Commits(request, db) && (ok <==> !threw && !Fails(request.body, db) && request.commits)
            && (Throws(request.body, db) ==> threw)
            && if ok then Reaches(request.body, |request.body|, db, Committed(request, db)) else Committed(request, db) == db
  {
    CallbackExactly(request.body, db);
    hide Effects, Reaches, Fails, ThrowsAt;
  }

  // --- how much there is to do -----------------------------------------------------------------------

  function Size(action: Action): nat
    decreases action, 0
  {
    match action
    case Catch(body) => 1 + Sizes(body)
    case Nested(body) => 1 + Sizes(body)
    case Arrive(request) => 2 + Sizes(request.body)
    case _ => 1
  }

  function Sizes(body: seq<Action>): nat { if body == [] then 0 else Size(body[0]) + Sizes(body[1..]) }

  function Weight(requests: seq<Request>): nat {
    if requests == [] then 0 else 1 + Sizes(requests[0].body) + Weight(requests[1..])
  }

  lemma {:induction false} WeightAppend(requests: seq<Request>, request: Request)
    ensures Weight(requests + [request]) == Weight(requests) + 1 + Sizes(request.body)
  {
    if requests == [] {
      assert [request][1..] == [];
    } else {
      assert (requests + [request])[1..] == requests[1..] + [request];
      WeightAppend(requests[1..], request);
    }
  }

  // --- the adapter -----------------------------------------------------------------------------------

  class TransactionContext {
    var active: bool
    var rollbackOnly: bool

    constructor ()
      ensures active && !rollbackOnly
    {
      active, rollbackOnly := true, false;
    }
  }

  class SqliteStore {
    /** What is committed, and what the open connection sees. */
    var disk: Db
    var working: Db
    var context: TransactionContext?
    /** The callbacks that wait for the store's lock, in order of arrival. */
    var waiting: seq<Request>
    ghost const mutex: nat
    /** The locks of the process. */
    ghost var locks: Mutexes.State
    ghost var initial: Db
    /** Every transaction ever asked for, and how many have ended: as many as runs of the lock. */
    ghost var arrived: seq<Request>
    ghost var ended: nat

    /**
     * What is on disk is a serial run of the transactions that ended; the others wait in order of arrival. The lock has
     * served as many runs, has one running while there is a context, and keeps the others waiting.
     */
    ghost predicate Valid()
      reads this
    {
      var next := ended + if context == null then 0 else 1;
      && next <= |arrived| && waiting == arrived[next..]
      && disk == Serial(arrived[..ended], initial)
      && Mutexes.Turns(locks, mutex, |arrived|, ended, context != null)
    }

    constructor (disk: Db, ghost mutex: nat, ghost locks: Mutexes.State)
      requires Mutexes.Turns(locks, mutex, 0, 0, false)
      ensures Valid() && context == null && this.disk == disk && waiting == [] && this.mutex == mutex
    {
      this.mutex, this.locks := mutex, locks;
      this.disk, working := disk, disk;
      context := null;
      waiting := [];
      initial := disk;
      arrived, ended := [], 0;
    }

    /** A callback runs: neither the disk nor the transactions before it change, and more may arrive. */
    twostate predicate Running()
      reads this
    {
      && Valid() && context == old(context) && disk == old(disk) && initial == old(initial)
      && ended == old(ended) && old(arrived) <= arrived
    }

    /** `transaction` from another call chain: waits its turn. */
    method Ask(request: Request)
      requires Valid()
      modifies this`waiting, this`arrived, this`locks
      ensures Running() && waiting == old(waiting) + [request] && arrived == old(arrived) + [request]
      ensures locks == Mutexes.Next(old(locks), Mutexes.Enter(mutex, None))
    {
      hide Mutexes.Turns, Mutexes.Next, Serial;
      Mutexes.AsksTurn(locks, mutex, None, |arrived|, ended, context != null);
      OneMore(arrived, request, ended);
      OneMore(arrived, request, ended + if context == null then 0 else 1);
      locks := Mutexes.Next(locks, Mutexes.Enter(mutex, None));
      waiting := waiting + [request];
      arrived := arrived + [request];
    }

    /** `read` and `write` inside a transaction: a failure marks the context before it is thrown on. */
    method Operate(action: Action) returns (threw: bool)
      requires context != null && context.active
      requires action.Get? || action.Insert? || action.Put? || action.Delete? || action.Broken?
      modifies this`working, context`rollbackOnly
      ensures threw <==> Effect(action, old(working)).Aborted?
      ensures context.rollbackOnly == (old(context.rollbackOnly) || threw)
      ensures working == if threw then old(working) else Effect(action, old(working)).db
    {
      match action {
        case Get(_) => return false;
        case Delete(key) =>
          working := working - {key};
          return false;
        case Insert(key, value) =>
          if key !in working {
            working := working[key := value];
            return false;
          }
        case Put(key, value) =>
          if key in working {
            working := working[key := value];
            return false;
          }
        case Broken =>
      }
      context.rollbackOnly := true;
      return true;
    }

    /** How a callback's end shows on the connection: exactly, unless something aborted and marked the context. */
    ghost predicate Shows(outcome: Outcome, threw: bool)
      reads this, context
      requires context != null
    {
      match outcome
      case Returned(d) => !threw && working == d
      case Thrown(d) => threw && working == d
      case Aborted => context.rollbackOnly
    }

    /** One awaited step of a callback. */
    method Do(action: Action) returns (threw: bool)
      requires Valid() && context != null && context.active
      modifies this`working, this`waiting, this`arrived, this`locks, context`rollbackOnly
      ensures Running() && context.active && Shows(Effect(action, old(working)), threw)
      ensures context.rollbackOnly == (old(context.rollbackOnly) || Effect(action, old(working)).Aborted?)
      ensures Weight(waiting) <= old(Weight(waiting)) + Size(action) - 1
      decreases action, 0
    {
      hide Weight, Serial, Mutexes.Turns, Mutexes.Next;
      match action
      case Throw => return true;
      case Late => return true;
      case Reenter => return true;
      case Catch(body) =>
        threw := Call(body);
        return false;
      case Nested(body) =>
        threw := Call(body);
        if threw { context.rollbackOnly := true; }
      case Arrive(request) =>
        WeightAppend(waiting, request);
        Ask(request);
        return false;
      case _ =>
        threw := Operate(action);
    }

    /** `fn(tx)`: the steps of a callback until one throws. */
    method Call(body: seq<Action>) returns (threw: bool)
      requires Valid() && context != null && context.active
      modifies this`working, this`waiting, this`arrived, this`locks, context`rollbackOnly
      ensures Running() && context.active && Shows(Effects(body, old(working)), threw)
      ensures context.rollbackOnly == (old(context.rollbackOnly) || Effects(body, old(working)).Aborted?)
      ensures Weight(waiting) <= old(Weight(waiting)) + Sizes(body)
      decreases body, 1
    {
      if body == [] { return false; }
      threw := Do(body[0]);
      if !threw { threw := Call(body[1..]); }
    }

    /** The lock lets the first that waits begin. */
    method Enter() returns (begun: TransactionContext)
      requires Valid() && context == null && waiting != []
      modifies this`working, this`waiting, this`context, this`locks
      ensures Valid() && fresh(begun) && context == begun && begun.active && !begun.rollbackOnly
      ensures working == disk && waiting == old(waiting)[1..]
    {
      hide Serial, Mutexes.Turns, Mutexes.Next, Mutexes.Enabled;
      ghost var r := Mutexes.NextTurn(locks, mutex, |arrived|, ended);
      Mutexes.TakesTurn(locks, r, |arrived|, ended, false);
      locks := Mutexes.Next(locks, Mutexes.Begin(r));
      begun := new TransactionContext();
      context, working, waiting := begun, disk, waiting[1..];
    }

    /** What committed is on disk, the handle is dead, and the lock is released. */
    method Leave(ok: bool)
      requires Valid() && context != null
      requires Serial(arrived[..ended + 1], initial) == if ok then working else disk
      modifies this`disk, this`context, this`ended, this`locks, context`active
      ensures Valid() && context == null && ended == old(ended) + 1 && !old(context).active
      ensures disk == if ok then working else old(disk)
    {
      hide Serial, Mutexes.Turns, Mutexes.Next, Mutexes.Enabled;
      ghost var r := Mutexes.ThisTurn(locks, mutex, |arrived|, ended);
      Mutexes.EndsTurn(locks, r, |arrived|, ended, true);
      locks := Mutexes.Next(locks, Mutexes.End(r));
      if ok { disk := working; }
      context.active := false;
      context, ended := null, ended + 1;
    }

    /**
     * `transaction` once its turn has come. It commits exactly when its callback returned, nothing in it failed
     * (caught or not) and the COMMIT went through; otherwise the store is as it was. Its context is dead.
     */
    method Transact() returns (ok: bool, threw: bool, ended': TransactionContext)
      requires Valid() && context == null && waiting != []
      modifies this
      ensures Valid() && context == null && ended == old(ended) + 1
      ensures old(arrived) <= arrived && initial == old(initial)
      ensures ok == Commits(old(waiting[0]), old(disk)) && disk == Committed(old(waiting[0]), old(disk))
      ensures ok <==> !threw && !Fails(old(waiting[0]).body, old(disk)) && old(waiting[0]).commits
      ensures Throws(old(waiting[0]).body, old(disk)) ==> threw
      ensures if ok then Reaches(old(waiting[0]).body, |old(waiting[0]).body|, old(disk), disk) else disk == old(disk)
      ensures fresh(ended') && !ended'.active
      ensures Weight(waiting) < old(Weight(waiting))
    {
      hide Weight, Effects, Serial, Mutexes.Turns, Mutexes.Next, Reaches, Fails, Throws;
      var request := waiting[0];
      WeightFirst(waiting);
      ended' := Enter();
      threw := Call(request.body);
      ok := !threw && !context.rollbackOnly && request.commits;
      SerialNext(arrived, ended, initial);
      SettledExactly(request, old(disk), threw, context.rollbackOnly);
      Leave(ok);
    }

    /** A handle of a finished transaction is refused before anything happens. */
    method UseHandle(handle: TransactionContext, action: Action) returns (refused: bool)
      requires handle.active ==> handle == context
      requires action.Get? || action.Insert? || action.Put? || action.Delete? || action.Broken?
      modifies this`working, handle`rollbackOnly
      ensures refused ==> working == old(working) && handle.rollbackOnly == old(handle.rollbackOnly)
      ensures !old(handle.active) ==> refused
    {
      if !handle.active { return true; }
      var threw := Operate(action);
      return false;
    }

    /**
     * Everyone is served, also those who arrive meanwhile: in the end the store is what the transactions leave
     * when they run one after another, in the order they asked.
     */
    method Drain()
      requires Valid() && context == null
      modifies this
      ensures Valid() && context == null && waiting == [] && old(arrived) <= arrived && initial == old(initial)
      ensures disk == Serial(arrived, initial)
      ensures forall run :: run in Mutexes.RunsOf(locks, mutex) ==> run.phase.Done?
    {
      while waiting != []
        invariant Valid() && context == null && old(arrived) <= arrived && initial == old(initial)
        decreases Weight(waiting)
      {
        hide Weight, Serial, Committed, Mutexes.Turns;
        var ok, threw, dead := Transact();
      }
      assert arrived[..ended] == arrived;
    }
  }

  lemma OneMore(requests: seq<Request>, request: Request, n: nat)
    requires n <= |requests|
    ensures (requests + [request])[..n] == requests[..n]
    ensures (requests + [request])[n..] == requests[n..] + [request]
  {}

  lemma WeightFirst(requests: seq<Request>)
    requires requests != []
    ensures Weight(requests) == 1 + Sizes(requests[0].body) + Weight(requests[1..])
  {}

  lemma SerialNext(requests: seq<Request>, n: nat, db: Db)
    requires n < |requests|
    ensures Serial(requests[..n + 1], db) == Committed(requests[n], Serial(requests[..n], db))
  {
    assert requests[..n + 1][..n] == requests[..n];
  }

  // --- the cache of prepared statements --------------------------------------------------------------

  function Without(sources: seq<Str>, source: Str): seq<Str> {
    if sources == [] then []
    else (if sources[0] == source then [] else [sources[0]]) + Without(sources[1..], source)
  }

  /** The distinct sources of a history, least recently used first. */
  function Recent(history: seq<Str>): seq<Str> {
    if history == [] then []
    else
      var n := |history| - 1;
      Without(Recent(history[..n]), history[n]) + [history[n]]
  }

  function Last<T>(s: seq<T>, size: nat): seq<T> { if |s| > size then s[|s| - size..] else s }

  /** `cachePreparedStatements`: the keys of the map, in the order in which they were last set. */
  class StatementCache {
    const size: nat
    var keys: seq<Str>
    ghost var history: seq<Str>

    /** The cache holds the `size` most recently used sources. */
    ghost predicate Valid()
      reads this
    {
      size >= 1 && keys == Last(Recent(history), size)
    }

    constructor (size: nat)
      requires size >= 1
      ensures Valid() && keys == []
    {
      this.size := size;
      keys, history := [], [];
    }

    method Prepare(source: Str) returns (cached: bool)
      requires Valid()
      modifies this
      ensures Valid() && history == old(history) + [source] && |keys| <= size
      ensures cached <==> source in old(keys)
      ensures cached <==> UsedLately(old(history), source, size)
    {
      CachedExactly(history, source, size);
      RecentDistinct(history);
      CacheStep(Recent(history), source, size);
      assert (history + [source])[..|history|] == history;
      history := history + [source];
      cached := source in keys;
      keys := Without(keys, source) + [source];
      if |keys| > size { keys := keys[1..]; }
    }
  }

  lemma {:induction false} WithoutConcat(a: seq<Str>, b: seq<Str>, source: Str)
    ensures Without(a + b, source) == Without(a, source) + Without(b, source)
  {
    if a == [] {
      assert a + b == b;
    } else {
      assert (a + b)[0] == a[0] && (a + b)[1..] == a[1..] + b;
      WithoutConcat(a[1..], b, source);
    }
  }

  lemma {:induction false} WithoutAbsent(sources: seq<Str>, source: Str)
    requires source !in sources
    ensures Without(sources, source) == sources
  {
    if sources != [] {
      WithoutAbsent(sources[1..], source);
      assert sources == [sources[0]] + sources[1..];
    }
  }

  predicate Distinct(sources: seq<Str>) { forall i, j :: 0 <= i < j < |sources| ==> sources[i] != sources[j] }

  lemma {:induction false} WithoutDistinct(sources: seq<Str>, source: Str)
    requires Distinct(sources)
    ensures |Without(sources, source)| == |sources| - (if source in sources then 1 else 0)
    ensures Distinct(Without(sources, source))
    ensures forall s :: s in Without(sources, source) ==> s in sources && s != source
  {
    if sources != [] {
      var rest := sources[1..];
      assert forall i :: 0 <= i < |rest| ==> rest[i] == sources[i + 1];
      WithoutDistinct(rest, source);
      assert sources == [sources[0]] + rest;
      assert sources[0] !in Without(rest, source);
    }
  }

  lemma {:induction false} RecentDistinct(history: seq<Str>)
    ensures Distinct(Recent(history))
  {
    if history != [] {
      var n := |history| - 1;
      RecentDistinct(history[..n]);
      WithoutDistinct(Recent(history[..n]), history[n]);
    }
  }

  /** Moving a source to the end and dropping the first beyond `size` keeps the most recent ones. */
  lemma CacheStep(recent: seq<Str>, source: Str, size: nat)
    requires size >= 1 && Distinct(recent)
    ensures var moved := Without(Last(recent, size), source) + [source];
            (if |moved| > size then moved[1..] else moved) == Last(Without(recent, source) + [source], size)
  {
    var kept := Last(recent, size);
    var older := recent[..|recent| - |kept|];
    assert recent == older + kept;
    WithoutConcat(older, kept, source);
    KeptWithout(recent, older, kept, source);
    hide Without, Distinct;
    LastOf(Without(older, source), Without(kept, source), source, size);
  }

  /** Either the kept ones lose a source or all stay; if they do, the older ones stay. */
  lemma KeptWithout(recent: seq<Str>, older: seq<Str>, kept: seq<Str>, source: Str)
    requires Distinct(recent) && recent == older + kept
    ensures |Without(kept, source)| <= |kept|
    ensures if source in kept then |Without(kept, source)| == |kept| - 1 && Without(older, source) == older
            else Without(kept, source) == kept
    ensures older == [] ==> Without(older, source) == []
  {
    if source in kept {
      SuffixDistinct(recent, |older|);
      assert kept == recent[|older|..] && older == recent[..|older|];
      WithoutDistinct(kept, source);
      NotBefore(recent, |older|, source);
      hide Distinct;
      WithoutAbsent(older, source);
    } else {
      WithoutAbsent(kept, source);
    }
  }

  lemma SuffixDistinct(sources: seq<Str>, n: nat)
    requires Distinct(sources) && n <= |sources|
    ensures Distinct(sources[n..])
  {}

  lemma NotBefore(sources: seq<Str>, n: nat, source: Str)
    requires Distinct(sources) && n <= |sources| && source in sources[n..]
    ensures source !in sources[..n]
  {
    var k :| n <= k < |sources| && sources[k] == source;
  }

  lemma LastOf(older: seq<Str>, kept: seq<Str>, source: Str, size: nat)
    requires size >= 1 && |kept| <= size && (|kept| < size - 1 ==> older == [])
    ensures var moved := kept + [source];
            (if |moved| > size then moved[1..] else moved) == Last(older + kept + [source], size)
  {}

  /** The sources of a history. */
  function Used(history: seq<Str>): set<Str> { set source | source in history }

  /** Fewer than `size` sources were used since this one was. */
  ghost predicate UsedLately(history: seq<Str>, source: Str, size: nat) {
    exists j :: 0 <= j < |history| && history[j] == source && |Used(history[j + 1..])| < size
  }

  lemma {:induction false} WithoutMember(sources: seq<Str>, source: Str, x: Str)
    ensures x in Without(sources, source) <==> x in sources && x != source
  {
    if sources != [] {
      WithoutMember(sources[1..], source, x);
      assert sources == [sources[0]] + sources[1..];
    }
  }

  lemma UsedAppend(a: seq<Str>, x: Str)
    ensures Used(a + [x]) == Used(a) + {x}
  {}

  lemma UsedWithout(sources: seq<Str>, source: Str)
    ensures Used(Without(sources, source)) == Used(sources) - {source}
  {
    forall x
      ensures x in Without(sources, source) <==> x in sources && x != source
    { WithoutMember(sources, source, x); }
  }

  lemma {:induction false} DistinctUsed(sources: seq<Str>)
    requires Distinct(sources)
    ensures |Used(sources)| == |sources|
  {
    if sources != [] {
      var n := |sources| - 1;
      DistinctUsed(sources[..n]);
      assert sources == sources[..n] + [sources[n]];
      UsedAppend(sources[..n], sources[n]);
    }
  }

  /** After a source come just those used since it was. */
  lemma {:induction false} RecentSince(history: seq<Str>, j: nat) returns (p: nat)
    requires j < |history| && history[j] !in history[j + 1..]
    ensures p < |Recent(history)| && Recent(history)[p] == history[j]
    ensures Used(Recent(history)[p + 1..]) == Used(history[j + 1..])
    decreases |history|
  {
    hide Recent, Used;
    var n := |history| - 1;
    RecentNext(history);
    var before, x := Recent(history[..n]), history[n];
    if j == n {
      p := |Without(before, x)|;
      assert (Without(before, x) + [x])[p + 1..] == [] && history[j + 1..] == [];
    } else {
      assert history[j + 1..] == history[..n][j + 1..] + [x];
      assert x in history[j + 1..];
      var q := RecentSince(history[..n], j);
      p := WithoutSplits(before, q, x);
      UsedAppend(Without(before[q + 1..], x), x);
      UsedWithout(before[q + 1..], x);
      UsedAppend(history[..n][j + 1..], x);
    }
  }

  lemma RecentNext(history: seq<Str>)
    requires history != []
    ensures var n := |history| - 1; Recent(history) == Without(Recent(history[..n]), history[n]) + [history[n]]
  {}

  /** Leaving out another source keeps what comes after this one together. */
  lemma WithoutSplits(sources: seq<Str>, q: nat, x: Str) returns (p: nat)
    requires q < |sources| && sources[q] != x
    ensures var moved := Without(sources, x) + [x];
            p < |moved| && moved[p] == sources[q] && moved[p + 1..] == Without(sources[q + 1..], x) + [x]
  {
    var a, b := sources[..q], sources[q + 1..];
    assert sources == a + ([sources[q]] + b);
    WithoutConcat(a, [sources[q]] + b, x);
    WithoutConcat([sources[q]], b, x);
    WithoutAbsent([sources[q]], x);
    hide Without;
    p := |Without(a, x)|;
    assert Without(sources, x) == Without(a, x) + ([sources[q]] + Without(b, x));
  }

  lemma {:induction false} RecentUsed(history: seq<Str>)
    ensures Used(Recent(history)) == Used(history)
  {
    if history != [] {
      var n := |history| - 1;
      RecentUsed(history[..n]);
      UsedWithout(Recent(history[..n]), history[n]);
      UsedAppend(Without(Recent(history[..n]), history[n]), history[n]);
      UsedAppend(history[..n], history[n]);
      assert history == history[..n] + [history[n]];
    }
  }

  lemma {:induction false} LastUse(history: seq<Str>, source: Str) returns (j: nat)
    requires source in history
    ensures j < |history| && history[j] == source && source !in history[j + 1..]
    ensures forall k :: 0 <= k < |history| && history[k] == source ==> k <= j
  {
    var n := |history| - 1;
    if history[n] == source {
      j := n;
    } else {
      assert history == history[..n] + [history[n]];
      j := LastUse(history[..n], source);
      assert history[j + 1..] == history[..n][j + 1..] + [history[n]];
    }
  }

  lemma LaterUsed(history: seq<Str>, k: nat, j: nat)
    requires k <= j <= |history|
    ensures |Used(history[j..])| <= |Used(history[k..])|
  {
    assert history[k..] == history[k..j] + history[j..];
    assert Used(history[j..]) <= Used(history[k..]);
    SubsetCount(Used(history[j..]), Used(history[k..]));
  }

  lemma SubsetCount(a: set<Str>, b: set<Str>)
    requires a <= b
    ensures |a| <= |b|
  {
    assert b == a + (b - a);
  }

  lemma SameUsed(a: seq<Str>, b: seq<Str>, source: Str)
    requires Used(a) == Used(b)
    ensures source in a <==> source in b
  {
    assert source in Used(a) <==> source in Used(b);
  }

  lemma InLast(recent: seq<Str>, p: nat, size: nat)
    requires Distinct(recent) && p < |recent|
    ensures recent[p] in Last(recent, size) <==> |recent| - p <= size
  {
    var last := Last(recent, size);
    if |recent| - p <= size { assert last[|last| - (|recent| - p)] == recent[p]; }
    if recent[p] in last {
      var i :| 0 <= i < |last| && last[i] == recent[p];
      assert recent[|recent| - |last| + i] == recent[p];
    }
  }

  lemma LastIn(recent: seq<Str>, source: Str, size: nat)
    requires source in Last(recent, size)
    ensures source in recent
  {}

  lemma LatelyAfter(history: seq<Str>, j: nat, size: nat)
    requires j < |history| && history[j] !in history[j + 1..]
    ensures UsedLately(history, history[j], size) <==> |Used(history[j + 1..])| < size
  {
    hide Used;
    forall k | j < k < |history|
      ensures history[k] != history[j]
    { assert history[k] == history[j + 1..][k - j - 1]; }
    if k :| 0 <= k < |history| && history[k] == history[j] && |Used(history[k + 1..])| < size {
      LaterUsed(history, k + 1, j + 1);
    }
  }

  /** A statement is still prepared exactly when it was used, and fewer than `size` others since. */
  lemma CachedExactly(history: seq<Str>, source: Str, size: nat)
    ensures source in Last(Recent(history), size) <==> UsedLately(history, source, size)
  {
    var recent := Recent(history);
    RecentUsed(history);
    RecentDistinct(history);
    hide Recent, Used, Last, Distinct;
    SameUsed(recent, history, source);
    if source in history {
      var j := LastUse(history, source);
      var p := RecentSince(history, j);
      SuffixDistinct(recent, p + 1);
      DistinctUsed(recent[p + 1..]);
      hide UsedLately;
      LatelyAfter(history, j, size);
      InLast(recent, p, size);
    } else if source in Last(recent, size) {
      LastIn(recent, source, size);
    }
  }
}
