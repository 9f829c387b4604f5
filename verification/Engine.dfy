/** The policy engine as it runs: loops over statements under a work budget that can only refuse. */
module Engine {
  import opened Wrappers
  import opened Text
  import opened Glob
  import opened Patterns
  import opened Policy
  import opened Sums

  /** The outcome of a piece of work: an answer, or the evaluation limit. */
  datatype Attempt = Answer(value: bool) | OutOfWork

  datatype Evaluation = InvalidRequest | InvalidPolicy | Decided(decision: Decision)

  const EVALUATION_WORK: int := 4_000_000

  function TextLength(v: Value): nat { if IsText(v) then |v.scalar.text| else 0 }

  lemma Outcome(h: Host, op: Operator, actual: Value, expected: Scalar, ctx: Context)
    ensures TestValue(h, op, actual, expected, ctx) <==> Compare(h, op, actual, expected, ctx) != Negated(op)
  {}

  lemma IllTyped(h: Host, op: Operator, values: seq<Scalar>, actual: Value, ctx: Context)
    ensures Negated(op) && !WellTyped(h, op, actual) ==> !ValueHolds(h, op, values, actual, ctx)
  {}

  /** One value decides: the first that fails where all must hold, or holds where one must. */
  lemma SettledBy(h: Host, op: Operator, values: seq<Scalar>, actual: Value, ctx: Context, i: nat)
    requires Negated(op) ==> WellTyped(h, op, actual)
    requires i < |values| && TestValue(h, op, actual, values[i], ctx) != EveryValue(op)
    ensures ValueHolds(h, op, values, actual, ctx) <==> !EveryValue(op)
  {
    hide TestValue, WellTyped;
  }

  lemma NothingSettled(h: Host, op: Operator, values: seq<Scalar>, actual: Value, ctx: Context)
    requires Negated(op) ==> WellTyped(h, op, actual)
    requires forall k :: 0 <= k < |values| ==> TestValue(h, op, actual, values[k], ctx) == EveryValue(op)
    ensures ValueHolds(h, op, values, actual, ctx) <==> EveryValue(op)
  {
    hide TestValue, WellTyped;
  }

  // --- the work of an evaluation ---------------------------------------------------------------------

  function MatchWork(tokens: nat, chars: nat): nat { chars + tokens + (tokens + 1) * (chars + 1) }

  function PatternWork(h: Host, pattern: Str, value: Str, ctx: Context): nat {
    if IndexOf(pattern, MARKER, 0) != -1 then
      match PatternTokens(h, pattern, ctx, false)
      case None => 0
      case Some(tokens) => MatchWork(|tokens|, |Chars(value)|)
    else if 63 in pattern || HasSurrogate(pattern) || HasSurrogate(value) then
      MatchWork(|GlobTokens(pattern)|, |Chars(value)|)
    else |pattern| + |value|
  }

  function CompareWork(h: Host, op: Operator, actual: Value, expected: Scalar, ctx: Context): nat {
    match op
    case StringLike | StringNotLike =>
      if IsText(actual) && expected.String? then PatternWork(h, expected.text, actual.scalar.text, ctx) else 0
    case StringLikeIgnoreCase =>
      if IsText(actual) && expected.String?
      then PatternWork(h, h.lower(expected.text), h.lower(actual.scalar.text), LowerContext(h, ctx)) else 0
    case ArrayContains | ArrayContainsAll => if actual.List? then |actual.items| else 0
    case _ => 0
  }

  function ValueCosts(h: Host, op: Operator, values: seq<Scalar>, actual: Value, ctx: Context): (r: seq<nat>)
    ensures |r| == |values|
  {
    seq(|values|, i requires 0 <= i < |values| => 1 + TextLength(actual) + CompareWork(h, op, actual, values[i], ctx))
  }

  function ActualOf(c: Condition, ctx: Context): Value
    requires c.operator.Exists? || c.key in ctx
  {
    if c.operator.Exists? then Single(Boolean(c.key in ctx)) else ctx[c.key]
  }

  function ConditionWork(h: Host, c: Condition, ctx: Context): nat {
    if c.operator.Exists? || c.key in ctx then Sum(ValueCosts(h, c.operator, c.values, ActualOf(c, ctx), ctx)) else 0
  }

  function ConditionCosts(h: Host, s: Statement, ctx: Context): (r: seq<nat>)
    ensures |r| == |s.conditions|
  {
    seq(|s.conditions|, i requires 0 <= i < |s.conditions| => ConditionWork(h, s.conditions[i], ctx))
  }

  function PatternCosts(h: Host, patterns: seq<Str>, value: Str, ctx: Context): (r: seq<nat>)
    ensures |r| == |patterns|
  {
    seq(|patterns|, i requires 0 <= i < |patterns| => PatternWork(h, patterns[i], value, ctx))
  }

  function StatementWork(h: Host, s: Statement, request: Request): nat {
    Sum(PatternCosts(h, s.actions, request.action, map[])) + Sum(PatternCosts(h, s.resources, request.resource, request.context))
      + Sum(ConditionCosts(h, s, request.context))
  }

  function StatementCosts(h: Host, d: Document, request: Request): (r: seq<nat>)
    ensures |r| == |d.statements|
  {
    seq(|d.statements|, i requires 0 <= i < |d.statements| => StatementWork(h, d.statements[i], request))
  }

  function DocumentCosts(h: Host, ds: seq<Document>, request: Request): (r: seq<nat>)
    ensures |r| == |ds|
  {
    seq(|ds|, i requires 0 <= i < |ds| => Sum(StatementCosts(h, ds[i], request)))
  }

  /** A bound on the work of a decision: what it would take if nothing were settled early. */
  function EvaluationWork(h: Host, request: Request, grants: seq<Document>, boundaries: seq<Document>): nat {
    Sum(DocumentCosts(h, grants, request)) + Sum(DocumentCosts(h, boundaries, request))
  }

  class Evaluator {
    const h: Host
    /** Whether an evaluation is running; matching outside one is unbounded. */
    var bounded: bool
    var workLeft: int

    constructor (host: Host)
      ensures h == host && !bounded
    {
      h := host;
      bounded := false;
      workLeft := 0;
    }

    /** Running out is the only thing the budget can report. */
    twostate predicate Spent(ok: bool)
      reads this
    {
      && bounded == old(bounded)
      && workLeft <= old(workLeft)
      && (!bounded ==> workLeft == old(workLeft))
      && (!ok ==> bounded && workLeft < 0)
    }

    method Spend(units: nat) returns (ok: bool)
      modifies this
      ensures Spent(ok)
      ensures bounded ==> workLeft == old(workLeft) - units && (ok <==> workLeft >= 0)
    {
      if bounded { workLeft := workLeft - units; }
      ok := !bounded || workLeft >= 0;
    }

    /** `matchTokens`: greedy matching that pays for every turn of its loop. */
    method MatchTokens(tokens: seq<Token>, value: Str) returns (r: Attempt)
      modifies this
      ensures Spent(r.Answer?)
      ensures r.Answer? ==> (r.value <==> Accepts(tokens, Chars(value)))
      ensures old(workLeft) - workLeft <= MatchWork(|tokens|, |Chars(value)|)
    {
      hide Accepts, AcceptsFrom, Chars, Times, Tracking;
      var chars := Chars(value);
      ghost var width := |tokens| + 1;
      ghost var start := |chars| + |tokens|;
      TimesStep(0, width);
      StepBound(0, 0, |chars|, |tokens|);
      var ok := Spend(|chars| + |tokens|);
      if !ok { return OutOfWork; }
      var p, v, star, retry := 0, 0, -1, 0;
      TrackStart(tokens, chars);
      while v < |chars|
        invariant Tracking(tokens, chars, p, v, star, retry) && v <= |chars|
        invariant Spent(true)
        invariant old(workLeft) - workLeft <= start + Times(retry, width) + p
        decreases |chars| - retry, |tokens| - p
      {
        TrackBounds(tokens, chars, p, v, star, retry);
        StepBound(retry, p, |chars|, |tokens|);
        ok := Spend(1);
        if !ok { return OutOfWork; }
        if p < |tokens| && (tokens[p].Any? || (tokens[p].Char? && tokens[p].value == chars[v])) {
          TrackTaken(tokens, chars, p, v, star, retry);
          p, v := p + 1, v + 1;
        } else if p < |tokens| && tokens[p].Star? {
          TrackStar(tokens, chars, p, v, star, retry);
          TimesMonotone(retry, v, width);
          star, p, retry := p, p + 1, v;
        } else {
          TrackRetry(tokens, chars, p, v, star, retry);
          if star == -1 { return Answer(false); }
          TimesStep(retry, width);
          p, retry := star + 1, retry + 1;
          v := retry;
        }
      }
      TrackBounds(tokens, chars, p, v, star, retry);
      TrackEnd(tokens, chars, p, star, retry);
      StepBound(retry, p, |chars|, |tokens|);
      p := SkipStars(tokens, p);
      r := Answer(p == |tokens|);
    }

    /** `matchPattern`: whichever matcher it picks, the answer is the glob's. */
    method MatchPattern(pattern: Str, value: Str, ctx: Context) returns (r: Attempt)
      modifies this
      ensures Spent(r.Answer?)
      ensures r.Answer? ==> (r.value <==> PatternMatches(h, pattern, value, ctx))
      ensures old(workLeft) - workLeft <= PatternWork(h, pattern, value, ctx)
    {
      hide Accepts, PieceTokensOf, Chars, MatchWork;
      if IndexOf(pattern, MARKER, 0) != -1 {
        var tokens := Tokenize(h, pattern, ctx, false);
        if tokens.None? { return Answer(false); }
        r := MatchTokens(tokens.value, value);
        return;
      }
      PlainPattern(h, pattern, ctx, false);
      if 63 in pattern || HasSurrogate(pattern) || HasSurrogate(value) {
        r := MatchTokens(GlobTokens(pattern), value);
        return;
      }
      UnitsAreChars(pattern, value);
      var ok := Spend(|pattern| + |value|);
      if !ok { return OutOfWork; }
      var answer := MatchStars(pattern, value);
      r := Answer(answer);
    }

    method Member(actual: seq<Value>, expected: Scalar, ctx: Context) returns (r: Attempt)
      modifies this
      ensures Spent(r.Answer?)
      ensures r.Answer? ==> (r.value <==> Wanted(h, expected, ctx).Some? && Includes(actual, Wanted(h, expected, ctx).value))
      ensures old(workLeft) - workLeft <= |actual|
    {
      var wanted := Wanted(h, expected, ctx);
      var ok := Spend(|actual|);
      if !ok { return OutOfWork; }
      r := Answer(wanted.Some? && Includes(actual, wanted.value));
    }

    method CompareValue(op: Operator, actual: Value, expected: Scalar, ctx: Context) returns (r: Attempt)
      modifies this
      ensures Spent(r.Answer?)
      ensures r.Answer? ==> (r.value <==> Compare(h, op, actual, expected, ctx))
      ensures old(workLeft) - workLeft <= CompareWork(h, op, actual, expected, ctx)
    {
      hide PatternMatches, ResolveValue, PatternWork;
      match op {
        case StringLike | StringNotLike =>
          if !IsText(actual) || !expected.String? { return Answer(false); }
          r := MatchPattern(expected.text, actual.scalar.text, ctx);
        case StringLikeIgnoreCase =>
          if !IsText(actual) || !expected.String? { return Answer(false); }
          r := MatchPattern(h.lower(expected.text), h.lower(actual.scalar.text), LowerContext(h, ctx));
        case ArrayContains | ArrayContainsAll =>
          if !actual.List? { return Answer(false); }
          r := Member(actual.items, expected, ctx);
        case _ =>
          r := Answer(Compare(h, op, actual, expected, ctx));
      }
    }

    /** The values of one condition, stopping at the first that settles it. */
    method TestValues(op: Operator, values: seq<Scalar>, actual: Value, ctx: Context) returns (r: Attempt)
      modifies this
      ensures Spent(r.Answer?)
      ensures r.Answer? ==> (r.value <==> ValueHolds(h, op, values, actual, ctx))
      ensures old(workLeft) - workLeft <= Sum(ValueCosts(h, op, values, actual, ctx))
    {
      hide Compare, WellTyped, Negated, EveryValue, TestValue, IsText, ValueHolds, CompareWork, SumTo;
      ghost var costs := ValueCosts(h, op, values, actual, ctx);
      SumStart(costs);
      IllTyped(h, op, values, actual, ctx);
      if Negated(op) && !WellTyped(h, op, actual) { return Answer(false); }
      var i := 0;
      while i < |values|
        invariant 0 <= i <= |values| && Spent(true) && old(workLeft) - workLeft <= SumTo(costs, i)
        invariant forall k :: 0 <= k < i ==> TestValue(h, op, actual, values[k], ctx) == EveryValue(op)
      {
        SumStep(costs, i);
        var ok := Spend(1 + TextLength(actual));
        if !ok { return OutOfWork; }
        var compared := CompareValue(op, actual, values[i], ctx);
        if compared.OutOfWork? { return OutOfWork; }
        var outcome := compared.value != Negated(op);
        Outcome(h, op, actual, values[i], ctx);
        if outcome != EveryValue(op) {
          SettledBy(h, op, values, actual, ctx, i);
          return Answer(outcome);
        }
        i := i + 1;
      }
      NothingSettled(h, op, values, actual, ctx);
      r := Answer(EveryValue(op));
    }

    method MatchAny(patterns: seq<Str>, value: Str, ctx: Context) returns (r: Attempt)
      modifies this
      ensures Spent(r.Answer?)
      ensures r.Answer? ==> (r.value <==> exists i :: 0 <= i < |patterns| && PatternMatches(h, patterns[i], value, ctx))
      ensures old(workLeft) - workLeft <= Sum(PatternCosts(h, patterns, value, ctx))
    {
      hide PatternMatches, PatternWork, SumTo;
      ghost var costs := PatternCosts(h, patterns, value, ctx);
      SumStart(costs);
      var i := 0;
      while i < |patterns|
        invariant 0 <= i <= |patterns| && Spent(true) && old(workLeft) - workLeft <= SumTo(costs, i)
        invariant forall k :: 0 <= k < i ==> !PatternMatches(h, patterns[k], value, ctx)
      {
        SumStep(costs, i);
        r := MatchPattern(patterns[i], value, ctx);
        if r.OutOfWork? || r.value { return; }
        i := i + 1;
      }
      r := Answer(false);
    }

    /** `matches`: actions, then resources, then every condition. */
    method Matches(s: Statement, request: Request) returns (r: Attempt)
      modifies this
      ensures Spent(r.Answer?)
      ensures r.Answer? ==> (r.value <==> StatementMatches(h, s, request))
      ensures old(workLeft) - workLeft <= StatementWork(h, s, request)
    {
      hide PatternMatches, ValueHolds, PatternCosts, ValueCosts, SumTo;
      ghost var costs := ConditionCosts(h, s, request.context);
      SumStart(costs);
      r := MatchAny(s.actions, request.action, map[]);
      if r.OutOfWork? || !r.value { return; }
      r := MatchAny(s.resources, request.resource, request.context);
      if r.OutOfWork? || !r.value { return; }
      ghost var before := workLeft;
      var i := 0;
      while i < |s.conditions|
        invariant 0 <= i <= |s.conditions| && Spent(true) && before - workLeft <= SumTo(costs, i)
        invariant forall k :: 0 <= k < i ==> ConditionHolds(h, s.conditions[k], request.context)
      {
        var c := s.conditions[i];
        SumStep(costs, i);
        var exists_ := c.key in request.context;
        if !c.operator.Exists? && !exists_ { return Answer(false); }
        var actual := if c.operator.Exists? then Single(Boolean(exists_)) else request.context[c.key];
        r := TestValues(c.operator, c.values, actual, request.context);
        if r.OutOfWork? || !r.value { return; }
        i := i + 1;
      }
      r := Answer(true);
    }

    /** One document: which statements match, whether one denies, whether one allows. */
    method VisitStatements(kind: Kind, ds: seq<Document>, d: nat, request: Request)
      returns (done: bool, matched: seq<Mark>, denied: bool, allowed: bool)
      requires d < |ds|
      modifies this
      ensures Spent(done)
      ensures done ==> matched == StatementMarks(h, kind, ds, request, d, 0)
      ensures done ==> (denied <==> DocumentHas(h, ds[d], Deny, request))
      ensures done ==> (allowed <==> DocumentHas(h, ds[d], Allow, request))
      ensures matched <= StatementMarks(h, kind, ds, request, d, 0)
      ensures old(workLeft) - workLeft <= Sum(StatementCosts(h, ds[d], request))
    {
      hide StatementMatches, StatementWork, SumTo;
      ghost var costs := StatementCosts(h, ds[d], request);
      SumStart(costs);
      var statements := ds[d].statements;
      var s := 0;
      matched, denied, allowed := [], false, false;
      while s < |statements|
        invariant 0 <= s <= |statements| && Spent(true) && old(workLeft) - workLeft <= SumTo(costs, s)
        invariant StatementMarks(h, kind, ds, request, d, 0) == matched + StatementMarks(h, kind, ds, request, d, s)
        invariant denied <==> exists k :: 0 <= k < s && statements[k].effect.Deny? && StatementMatches(h, statements[k], request)
        invariant allowed <==> exists k :: 0 <= k < s && statements[k].effect.Allow? && StatementMatches(h, statements[k], request)
      {
        SumStep(costs, s);
        var r := Matches(statements[s], request);
        if r.OutOfWork? { return false, matched, denied, allowed; }
        ghost var rest := StatementMarks(h, kind, ds, request, d, s + 1);
        assert matched + ([Mark(kind, d, s)] + rest) == (matched + [Mark(kind, d, s)]) + rest;
        assert [] + rest == rest;
        if r.value {
          matched := matched + [Mark(kind, d, s)];
          if statements[s].effect.Deny? { denied := true; } else { allowed := true; }
        }
        s := s + 1;
      }
      done := true;
    }

    /** All documents of one kind, in order. */
    method VisitDocuments(kind: Kind, ds: seq<Document>, request: Request)
      returns (done: bool, matched: seq<Mark>, denied: bool, allows: seq<bool>)
      modifies this
      ensures Spent(done)
      ensures done ==> matched == DocumentMarks(h, kind, ds, request, 0)
      ensures done ==> (denied <==> AnyDocumentHas(h, ds, Deny, request))
      ensures done ==> |allows| == |ds| &&
                       forall i :: 0 <= i < |ds| ==> (allows[i] <==> DocumentHas(h, ds[i], Allow, request))
      ensures matched <= DocumentMarks(h, kind, ds, request, 0)
      ensures old(workLeft) - workLeft <= Sum(DocumentCosts(h, ds, request))
    {
      hide DocumentHas, StatementMarks, StatementCosts, SumTo;
      ghost var costs := DocumentCosts(h, ds, request);
      SumStart(costs);
      var d := 0;
      matched, denied, allows := [], false, [];
      while d < |ds|
        invariant 0 <= d <= |ds| && Spent(true) && old(workLeft) - workLeft <= SumTo(costs, d)
        invariant DocumentMarks(h, kind, ds, request, 0) == matched + DocumentMarks(h, kind, ds, request, d)
        invariant denied <==> exists k :: 0 <= k < d && DocumentHas(h, ds[k], Deny, request)
        invariant |allows| == d && forall i :: 0 <= i < d ==> (allows[i] <==> DocumentHas(h, ds[i], Allow, request))
      {
        SumStep(costs, d);
        var ok, more, deniedHere, allowed := VisitStatements(kind, ds, d, request);
        ghost var rest := DocumentMarks(h, kind, ds, request, d + 1);
        ghost var here := StatementMarks(h, kind, ds, request, d, 0);
        assert matched + (here + rest) == (matched + here) + rest;
        if !ok {
          PrefixAppends(matched, more, here);
          return false, matched + more, denied, allows;
        }
        matched := matched + more;
        denied := denied || deniedHere;
        allows := allows + [allowed];
        d := d + 1;
      }
      done := true;
    }

    /**
     * `evaluatePolicy`: the decision the documents mean, or an error, or, only where the work could pass the limit, a
     * refusal for it; the caller's budget is untouched.
     */
    method EvaluatePolicy(request: Request, grants: seq<Document>, boundaries: seq<Document>) returns (r: Evaluation)
      modifies this
      ensures workLeft == old(workLeft) && bounded == old(bounded)
      ensures r.InvalidRequest? <==> !ValidRequest(request)
      ensures r.InvalidPolicy? <==> ValidRequest(request) && !(ValidDocuments(h, grants) && ValidDocuments(h, boundaries))
      ensures r.Decided? <==> Evaluate(h, request, grants, boundaries).Some?
      ensures r.Decided? && !r.decision.reason.EvaluationLimit? ==>
                Evaluate(h, request, grants, boundaries) == Some(r.decision)
      ensures r.Decided? && r.decision.reason.EvaluationLimit? ==>
                && EvaluationWork(h, request, grants, boundaries) > EVALUATION_WORK
                && !r.decision.allowed && r.decision.matched <= Decide(h, request, grants, boundaries).matched
    {
      hide DocumentHas, ValidDocument, DocumentMarks, DocumentCosts, SumTo;
      if !ValidRequest(request) { return InvalidRequest; }
      if !ValidDocuments(h, grants) || !ValidDocuments(h, boundaries) { return InvalidPolicy; }
      var outerBounded, outerWork := bounded, workLeft;
      bounded, workLeft := true, EVALUATION_WORK;
      var done, matched, denied, granting := VisitDocuments(Grant, grants, request);
      var boundaryAllows: seq<bool> := [];
      if done {
        var more, deniedMore;
        ghost var before := matched;
        done, more, deniedMore, boundaryAllows := VisitDocuments(Boundary, boundaries, request);
        matched := matched + more;
        denied := denied || deniedMore;
      }
      bounded, workLeft := outerBounded, outerWork;
      if !done { return Decided(Decision(false, EvaluationLimit, matched)); }
      if denied { return Decided(Decision(false, ExplicitDeny, matched)); }
      if true !in granting {
        return Decided(Decision(false, NoGrant, matched));
      }
      if false in boundaryAllows {
        return Decided(Decision(false, BoundaryDeny, matched));
      }
      r := Decided(Decision(true, Allowed, matched));
    }
  }

  lemma PrefixAppends(a: seq<Mark>, b: seq<Mark>, c: seq<Mark>)
    requires b <= c
    ensures a + b <= a + c
  {
    assert a + c == (a + b) + c[|b|..];
  }
}
