/** Policy documents and what they mean for one request. */
module Policy {
  import opened Wrappers
  import opened Text
  import opened Glob
  import opened Patterns

  datatype Operator =
    | StringEquals | StringNotEquals | StringEqualsIgnoreCase | StringNotEqualsIgnoreCase
    | StringLike | StringNotLike | StringLikeIgnoreCase
    | Bool
    | NumericEquals | NumericNotEquals
    | NumericLessThan | NumericLessThanEquals | NumericGreaterThan | NumericGreaterThanEquals
    | DateBefore | DateAfter
    | IpAddress | NotIpAddress
    | ArrayContains | ArrayContainsAll
    | Exists

  /** Succeeds only when the actual value differs from every listed value. */
  predicate Negated(op: Operator) {
    op.StringNotEquals? || op.StringNotEqualsIgnoreCase? || op.StringNotLike? || op.NumericNotEquals? || op.NotIpAddress?
  }

  predicate EveryValue(op: Operator) { Negated(op) || op.ArrayContainsAll? }

  /** Operators whose string values substitute variables. */
  predicate Substituting(op: Operator) {
    || op.StringEquals? || op.StringNotEquals? || op.StringEqualsIgnoreCase? || op.StringNotEqualsIgnoreCase?
    || op.StringLike? || op.StringNotLike? || op.StringLikeIgnoreCase? || op.ArrayContains? || op.ArrayContainsAll?
  }

  datatype Effect = Allow | Deny
  datatype Condition = Condition(operator: Operator, key: Str, values: seq<Scalar>)
  datatype Statement = Statement(effect: Effect, actions: seq<Str>, resources: seq<Str>, conditions: seq<Condition>)
  datatype Document = Document(statements: seq<Statement>)
  datatype Request = Request(action: Str, resource: Str, context: Context)

  // --- validation --------------------------------------------------------------------------------

  predicate NonEmptyText(s: Str, max: nat) {
    0 < |s| <= max && forall i :: 0 <= i < |s| ==> 32 <= s[i] && s[i] != 127
  }

  /** Every `${` from `search` on opens a well-formed reference. */
  predicate ValidVariables(p: Str, search: nat)
    requires search <= |p|
    decreases |p| - search
  {
    var index := IndexOf(p, MARKER, search);
    index == -1 ||
    (VariableAt(p, index).Some? && ValidVariables(p, index + 3 + |VariableAt(p, index).value|))
  }

  predicate ValidValue(h: Host, op: Operator, value: Scalar) {
    match op
    case Bool | Exists => value.Boolean?
    case NumericEquals | NumericNotEquals | NumericLessThan | NumericLessThanEquals
      | NumericGreaterThan | NumericGreaterThanEquals => value.Number?
    case DateBefore | DateAfter => value.String? && h.timestamp(value.text).Some?
    case IpAddress | NotIpAddress => value.String? && h.isRange(value.text)
    case ArrayContains | ArrayContainsAll => value.String? ==> |value.text| <= 2048
    case _ => value.String? && |value.text| <= 2048
  }

  const UNSAFE_KEYS: set<Str> := {U("__proto__"), U("prototype"), U("constructor")}

  predicate ValidCondition(h: Host, c: Condition) {
    && NonEmptyText(c.key, 128) && c.key !in UNSAFE_KEYS
    && 0 < |c.values| <= 64
    && (forall i :: 0 <= i < |c.values| ==> ValidValue(h, c.operator, c.values[i]))
    && (forall i :: 0 <= i < |c.values| && c.values[i].String? ==> ValidVariables(c.values[i].text, 0))
  }

  /** The text before the first slash: the type in a resource pattern. */
  function TypeText(p: Str): Str {
    var slash := IndexOf(p, [47], 0);
    if slash == -1 then p else p[..slash]
  }

  /** Variables are well-formed, and stand after the resource type only. */
  predicate ValidResource(p: Str) {
    NonEmptyText(p, 512) && ValidVariables(p, 0) && IndexOf(TypeText(p), MARKER, 0) == -1
  }

  predicate ValidStatement(h: Host, s: Statement) {
    && 0 < |s.actions| <= 128 && 0 < |s.resources| <= 128
    && (forall i :: 0 <= i < |s.actions| ==> NonEmptyText(s.actions[i], 512) && IndexOf(s.actions[i], MARKER, 0) == -1)
    && (forall i :: 0 <= i < |s.resources| ==> ValidResource(s.resources[i]))
    && (forall i :: 0 <= i < |s.conditions| ==> ValidCondition(h, s.conditions[i]))
  }

  predicate ValidDocument(h: Host, d: Document) {
    |d.statements| <= 128 && forall i :: 0 <= i < |d.statements| ==> ValidStatement(h, d.statements[i])
  }

  predicate ValidDocuments(h: Host, ds: seq<Document>) {
    forall i :: 0 <= i < |ds| ==> ValidDocument(h, ds[i])
  }

  predicate ValidRequest(r: Request) { NonEmptyText(r.action, 512) && NonEmptyText(r.resource, 2048) }

  // --- conditions --------------------------------------------------------------------------------

  predicate IsText(v: Value) { v.Single? && v.scalar.String? }

  predicate IsFinite(v: Value) { v.Single? && v.scalar.Number? }

  function LowerValue(h: Host, v: Value): Value {
    if IsText(v) then Single(String(h.lower(v.scalar.text))) else v
  }

  /** `lowerCaseContext`: lowers values, never keys. */
  function LowerContext(h: Host, ctx: Context): Context {
    map k | k in ctx :: LowerValue(h, ctx[k])
  }

  function Timestamp(h: Host, v: Value): Option<int> {
    if IsText(v) then h.timestamp(v.scalar.text) else None
  }

  predicate Includes(items: seq<Value>, wanted: Scalar) { Single(wanted) in items }

  /** The expected value of a list condition; string members honour variables. */
  function Wanted(h: Host, expected: Scalar, ctx: Context): Option<Scalar> {
    if expected.String? then
      match ResolveValue(h, expected.text, ctx)
      case None => None
      case Some(text) => Some(String(text))
    else Some(expected)
  }

  /** `compare`: the positive comparison of an operator. */
  predicate Compare(h: Host, op: Operator, actual: Value, expected: Scalar, ctx: Context) {
    match op
    case Exists => actual == Single(expected)
    case StringEquals | StringNotEquals =>
      IsText(actual) && expected.String? && ResolveValue(h, expected.text, ctx) == Some(actual.scalar.text)
    case StringEqualsIgnoreCase | StringNotEqualsIgnoreCase =>
      var resolved := if expected.String? then ResolveValue(h, expected.text, ctx) else None;
      IsText(actual) && resolved.Some? && h.lower(actual.scalar.text) == h.lower(resolved.value)
    case StringLike | StringNotLike =>
      IsText(actual) && expected.String? && PatternMatches(h, expected.text, actual.scalar.text, ctx)
    case StringLikeIgnoreCase =>
      IsText(actual) && expected.String? &&
      PatternMatches(h, h.lower(expected.text), h.lower(actual.scalar.text), LowerContext(h, ctx))
    case Bool => actual.Single? && actual.scalar.Boolean? && actual.scalar == expected
    case NumericEquals | NumericNotEquals => IsFinite(actual) && actual.scalar == expected
    case NumericLessThan => IsFinite(actual) && expected.Number? && actual.scalar.value < expected.value
    case NumericLessThanEquals => IsFinite(actual) && expected.Number? && actual.scalar.value <= expected.value
    case NumericGreaterThan => IsFinite(actual) && expected.Number? && actual.scalar.value > expected.value
    case NumericGreaterThanEquals => IsFinite(actual) && expected.Number? && actual.scalar.value >= expected.value
    case DateBefore | DateAfter =>
      var left, right := Timestamp(h, actual), Timestamp(h, Single(expected));
      left.Some? && right.Some? && (if op.DateBefore? then left.value < right.value else left.value > right.value)
    case IpAddress | NotIpAddress =>
      IsText(actual) && expected.String? && h.inNetwork(actual.scalar.text, expected.text)
    case ArrayContains | ArrayContainsAll =>
      actual.List? && Wanted(h, expected, ctx).Some? && Includes(actual.items, Wanted(h, expected, ctx).value)
  }

  /** A negated operator only negates a comparison that could have succeeded. */
  predicate WellTyped(h: Host, op: Operator, actual: Value) {
    match op
    case NumericNotEquals => IsFinite(actual)
    case NotIpAddress => IsText(actual) && h.isAddress(actual.scalar.text)
    case _ => IsText(actual)
  }

  predicate TestValue(h: Host, op: Operator, actual: Value, expected: Scalar, ctx: Context) {
    Compare(h, op, actual, expected, ctx) != Negated(op)
  }

  /** One condition on a value that is there (for `Exists`: whether it is). */
  predicate ValueHolds(h: Host, op: Operator, values: seq<Scalar>, actual: Value, ctx: Context) {
    && (Negated(op) ==> WellTyped(h, op, actual))
    && if EveryValue(op) then forall i :: 0 <= i < |values| ==> TestValue(h, op, actual, values[i], ctx)
       else exists i :: 0 <= i < |values| && TestValue(h, op, actual, values[i], ctx)
  }

  /** One condition: missing or wrongly typed values satisfy nothing but `Exists`. */
  predicate ConditionHolds(h: Host, c: Condition, ctx: Context) {
    if c.operator.Exists? then ValueHolds(h, c.operator, c.values, Single(Boolean(c.key in ctx)), ctx)
    else c.key in ctx && ValueHolds(h, c.operator, c.values, ctx[c.key], ctx)
  }

  predicate ActionMatches(h: Host, s: Statement, action: Str) {
    exists i :: 0 <= i < |s.actions| && PatternMatches(h, s.actions[i], action, map[])
  }

  predicate ResourceMatches(h: Host, s: Statement, resource: Str, ctx: Context) {
    exists i :: 0 <= i < |s.resources| && PatternMatches(h, s.resources[i], resource, ctx)
  }

  predicate ConditionsHold(h: Host, s: Statement, ctx: Context) {
    forall i :: 0 <= i < |s.conditions| ==> ConditionHolds(h, s.conditions[i], ctx)
  }

  predicate StatementMatches(h: Host, s: Statement, r: Request) {
    && ActionMatches(h, s, r.action)
    && ResourceMatches(h, s, r.resource, r.context)
    && ConditionsHold(h, s, r.context)
  }

  // --- decisions ---------------------------------------------------------------------------------

  predicate DocumentHas(h: Host, d: Document, effect: Effect, r: Request) {
    exists i :: 0 <= i < |d.statements| && d.statements[i].effect == effect && StatementMatches(h, d.statements[i], r)
  }

  predicate AnyDocumentHas(h: Host, ds: seq<Document>, effect: Effect, r: Request) {
    exists i :: 0 <= i < |ds| && DocumentHas(h, ds[i], effect, r)
  }

  predicate EveryDocumentHas(h: Host, ds: seq<Document>, effect: Effect, r: Request) {
    forall i :: 0 <= i < |ds| ==> DocumentHas(h, ds[i], effect, r)
  }

  datatype Kind = Grant | Boundary
  datatype Mark = Mark(kind: Kind, policy: nat, statement: nat)
  datatype Reason = Allowed | ExplicitDeny | NoGrant | BoundaryDeny | EvaluationLimit
  datatype Decision = Decision(allowed: bool, reason: Reason, matched: seq<Mark>)

  /** The marks of the matching statements from position `s` of document `d` on. */
  function StatementMarks(h: Host, kind: Kind, ds: seq<Document>, r: Request, d: nat, s: nat): seq<Mark>
    requires d < |ds| && s <= |ds[d].statements|
    decreases |ds[d].statements| - s
  {
    if s == |ds[d].statements| then []
    else (if StatementMatches(h, ds[d].statements[s], r) then [Mark(kind, d, s)] else []) +
         StatementMarks(h, kind, ds, r, d, s + 1)
  }

  function DocumentMarks(h: Host, kind: Kind, ds: seq<Document>, r: Request, d: nat): seq<Mark>
    requires d <= |ds|
    decreases |ds| - d
  {
    if d == |ds| then [] else StatementMarks(h, kind, ds, r, d, 0) + DocumentMarks(h, kind, ds, r, d + 1)
  }

  /** What `evaluatePolicy` answers when work is not the point: none where it throws, for the request or a document. */
  function Evaluate(h: Host, r: Request, grants: seq<Document>, boundaries: seq<Document>): Option<Decision> {
    if ValidRequest(r) && ValidDocuments(h, grants) && ValidDocuments(h, boundaries)
    then Some(Decide(h, r, grants, boundaries)) else None
  }

  /** Grants form a union, every boundary is an intersection of its own, and a deny anywhere wins. */
  function Decide(h: Host, r: Request, grants: seq<Document>, boundaries: seq<Document>): Decision {
    var matched := DocumentMarks(h, Grant, grants, r, 0) + DocumentMarks(h, Boundary, boundaries, r, 0);
    if AnyDocumentHas(h, grants, Deny, r) || AnyDocumentHas(h, boundaries, Deny, r) then
      Decision(false, ExplicitDeny, matched)
    else if !AnyDocumentHas(h, grants, Allow, r) then Decision(false, NoGrant, matched)
    else if !EveryDocumentHas(h, boundaries, Allow, r) then Decision(false, BoundaryDeny, matched)
    else Decision(true, Allowed, matched)
  }

  // --- what a decision says ----------------------------------------------------------------------

  /** Statement `s` of document `d` is there and matches. */
  predicate MatchesAt(h: Host, ds: seq<Document>, r: Request, d: nat, s: nat) {
    d < |ds| && s < |ds[d].statements| && StatementMatches(h, ds[d].statements[s], r)
  }

  /** A matching statement of this effect, in any of the documents. */
  ghost predicate SomeMatch(h: Host, ds: seq<Document>, effect: Effect, r: Request) {
    exists d: nat, s: nat :: MatchesAt(h, ds, r, d, s) && ds[d].statements[s].effect == effect
  }

  lemma AnyMeansSome(h: Host, ds: seq<Document>, effect: Effect, r: Request)
    ensures AnyDocumentHas(h, ds, effect, r) <==> SomeMatch(h, ds, effect, r)
  {
    hide StatementMatches;
    if AnyDocumentHas(h, ds, effect, r) {
      var d :| 0 <= d < |ds| && DocumentHas(h, ds[d], effect, r);
      var s :| 0 <= s < |ds[d].statements| && ds[d].statements[s].effect == effect && StatementMatches(h, ds[d].statements[s], r);
      assert MatchesAt(h, ds, r, d, s);
    }
    if d: nat, s: nat :| MatchesAt(h, ds, r, d, s) && ds[d].statements[s].effect == effect {
      assert DocumentHas(h, ds[d], effect, r);
    }
  }

  /** Earlier in the order of kinds, documents and statements. */
  predicate Earlier(a: Mark, b: Mark) {
    if a.kind != b.kind then a.kind.Grant?
    else a.policy < b.policy || (a.policy == b.policy && a.statement < b.statement)
  }

  ghost predicate InOrder(marks: seq<Mark>) { forall i, j :: 0 <= i < j < |marks| ==> Earlier(marks[i], marks[j]) }

  lemma {:induction false} StatementMarksExactly(h: Host, kind: Kind, ds: seq<Document>, r: Request, d: nat, s: nat)
    requires d < |ds| && s <= |ds[d].statements|
    ensures var marks := StatementMarks(h, kind, ds, r, d, s);
            && InOrder(marks)
            && forall m :: m in marks <==> m.kind == kind && m.policy == d && m.statement >= s && MatchesAt(h, ds, r, d, m.statement)
    decreases |ds[d].statements| - s
  {
    hide StatementMatches;
    if s < |ds[d].statements| {
      StatementMarksExactly(h, kind, ds, r, d, s + 1);
      var rest := StatementMarks(h, kind, ds, r, d, s + 1);
      var first: seq<Mark> := if StatementMatches(h, ds[d].statements[s], r) then [Mark(kind, d, s)] else [];
      OrderedParts(first, rest);
    }
  }

  lemma OrderedParts(a: seq<Mark>, b: seq<Mark>)
    requires InOrder(a) && InOrder(b) && forall m, n :: m in a && n in b ==> Earlier(m, n)
    ensures InOrder(a + b) && forall m :: m in a + b <==> m in a || m in b
  {
    forall i, j | 0 <= i < j < |a + b|
      ensures Earlier((a + b)[i], (a + b)[j])
    {
      if i < |a| <= j { assert a[i] in a && b[j - |a|] in b; }
    }
  }

  lemma {:induction false} DocumentMarksExactly(h: Host, kind: Kind, ds: seq<Document>, r: Request, d: nat)
    requires d <= |ds|
    ensures var marks := DocumentMarks(h, kind, ds, r, d);
            && InOrder(marks)
            && forall m :: m in marks <==> m.kind == kind && m.policy >= d && MatchesAt(h, ds, r, m.policy, m.statement)
    decreases |ds| - d
  {
    hide MatchesAt, StatementMarks;
    if d < |ds| {
      StatementMarksExactly(h, kind, ds, r, d, 0);
      DocumentMarksExactly(h, kind, ds, r, d + 1);
      OrderedParts(StatementMarks(h, kind, ds, r, d, 0), DocumentMarks(h, kind, ds, r, d + 1));
    } else {
      NothingBeyond(h, ds, r);
    }
  }

  lemma NothingBeyond(h: Host, ds: seq<Document>, r: Request)
    ensures forall d, s :: d >= |ds| ==> !MatchesAt(h, ds, r, d, s)
  {}

  /**
   * A deny wins wherever it is; without one, a grant must allow, and then every boundary. The reason is the first of these
   * that fails, and the marks are those of the statements that match, grants first, in the order of the documents.
   */
  lemma DecisionExactly(h: Host, r: Request, grants: seq<Document>, boundaries: seq<Document>)
    ensures var decision := Decide(h, r, grants, boundaries);
            var denied := SomeMatch(h, grants, Deny, r) || SomeMatch(h, boundaries, Deny, r);
            var granted := SomeMatch(h, grants, Allow, r);
            var bounded := forall b :: 0 <= b < |boundaries| ==> SomeMatch(h, [boundaries[b]], Allow, r);
            && (decision.allowed <==> !denied && granted && bounded)
            && (decision.reason == Allowed <==> decision.allowed)
            && (decision.reason == ExplicitDeny <==> denied)
            && (decision.reason == NoGrant <==> !denied && !granted)
            && (decision.reason == BoundaryDeny <==> !denied && granted && !bounded)
            && InOrder(decision.matched)
            && forall m :: m in decision.matched <==>
                 MatchesAt(h, if m.kind.Grant? then grants else boundaries, r, m.policy, m.statement)
  {
    hide AnyDocumentHas, SomeMatch, MatchesAt, DocumentMarks, DocumentHas;
    AnyMeansSome(h, grants, Deny, r);
    AnyMeansSome(h, boundaries, Deny, r);
    AnyMeansSome(h, grants, Allow, r);
    forall b | 0 <= b < |boundaries|
      ensures DocumentHas(h, boundaries[b], Allow, r) <==> SomeMatch(h, [boundaries[b]], Allow, r)
    {
      SingleDocument(h, boundaries[b], Allow, r);
      AnyMeansSome(h, [boundaries[b]], Allow, r);
    }
    DocumentMarksExactly(h, Grant, grants, r, 0);
    DocumentMarksExactly(h, Boundary, boundaries, r, 0);
    OrderedParts(DocumentMarks(h, Grant, grants, r, 0), DocumentMarks(h, Boundary, boundaries, r, 0));
  }

  lemma SingleDocument(h: Host, d: Document, effect: Effect, r: Request)
    ensures AnyDocumentHas(h, [d], effect, r) <==> DocumentHas(h, d, effect, r)
  {
    hide DocumentHas;
    assert [d][0] == d;
  }
}
