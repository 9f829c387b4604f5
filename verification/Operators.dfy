/** What each condition operator asks of a context value, said operator by operator. */
module Operators {
  import opened Wrappers
  import opened Text
  import opened Glob
  import opened Patterns
  import opened Policy

  /** What is found is a string. */
  function FoundText(found: Option<Value>): Option<Str> {
    if found.Some? && found.value.Single? && found.value.scalar.String? then Some(found.value.scalar.text) else None
  }

  /** What is found is a number with digits. */
  function FoundNumber(found: Option<Value>): Option<real> {
    if found.Some? && found.value.Single? && found.value.scalar.Number? then Some(found.value.scalar.value) else None
  }

  function FoundMoment(h: Host, found: Option<Value>): Option<int> {
    if FoundText(found).Some? then h.timestamp(FoundText(found).value) else None
  }

  predicate Listed(values: seq<Scalar>, v: Scalar) { exists i :: 0 <= i < |values| && values[i] == v }

  ghost predicate SomeNumber(values: seq<Scalar>, p: real -> bool) {
    exists i :: 0 <= i < |values| && values[i].Number? && p(values[i].value)
  }

  ghost predicate SomeText(values: seq<Scalar>, p: Str -> bool) {
    exists i :: 0 <= i < |values| && values[i].String? && p(values[i].text)
  }

  /** The member a list condition names: a text with its variables resolved, or the number or boolean itself. */
  ghost predicate Names(h: Host, expected: Scalar, ctx: Context, member: Value) {
    member.Single? &&
    (if expected.String? then member.scalar.String? && ResolveValue(h, expected.text, ctx) == Some(member.scalar.text)
     else member.scalar == expected)
  }

  ghost predicate HasNamed(h: Host, list: Value, expected: Scalar, ctx: Context) {
    list.List? && exists i :: 0 <= i < |list.items| && Names(h, expected, ctx, list.items[i])
  }

  /** What the operator asks of what is found under the key, if anything is. */
  ghost predicate Asks(h: Host, op: Operator, values: seq<Scalar>, found: Option<Value>, ctx: Context) {
    var text, number, moment := FoundText(found), FoundNumber(found), FoundMoment(h, found);
    match op
    case Exists => Listed(values, Boolean(found.Some?))
    case Bool => found.Some? && found.value.Single? && found.value.scalar.Boolean? && Listed(values, found.value.scalar)
    case StringEquals => text.Some? && SomeText(values, t => ResolveValue(h, t, ctx) == text)
    case StringNotEquals => text.Some? && !SomeText(values, t => ResolveValue(h, t, ctx) == text)
    case StringEqualsIgnoreCase => text.Some? && SomeText(values, t => SameCase(h, ResolveValue(h, t, ctx), text.value))
    case StringNotEqualsIgnoreCase => text.Some? && !SomeText(values, t => SameCase(h, ResolveValue(h, t, ctx), text.value))
    case StringLike => text.Some? && SomeText(values, t => PatternMatches(h, t, text.value, ctx))
    case StringNotLike => text.Some? && !SomeText(values, t => PatternMatches(h, t, text.value, ctx))
    case StringLikeIgnoreCase =>
      text.Some? && SomeText(values, t => PatternMatches(h, h.lower(t), h.lower(text.value), LowerContext(h, ctx)))
    case NumericEquals => number.Some? && SomeNumber(values, n => number.value == n)
    case NumericNotEquals => number.Some? && !SomeNumber(values, n => number.value == n)
    case NumericLessThan => number.Some? && SomeNumber(values, n => number.value < n)
    case NumericLessThanEquals => number.Some? && SomeNumber(values, n => number.value <= n)
    case NumericGreaterThan => number.Some? && SomeNumber(values, n => number.value > n)
    case NumericGreaterThanEquals => number.Some? && SomeNumber(values, n => number.value >= n)
    case DateBefore => moment.Some? && SomeText(values, t => h.timestamp(t).Some? && moment.value < h.timestamp(t).value)
    case DateAfter => moment.Some? && SomeText(values, t => h.timestamp(t).Some? && moment.value > h.timestamp(t).value)
    case IpAddress => text.Some? && SomeText(values, t => h.inNetwork(text.value, t))
    case NotIpAddress => text.Some? && h.isAddress(text.value) && !SomeText(values, t => h.inNetwork(text.value, t))
    case ArrayContains =>
      found.Some? && exists i :: 0 <= i < |values| && HasNamed(h, found.value, values[i], ctx)
    case ArrayContainsAll =>
      found.Some? && forall i :: 0 <= i < |values| ==> HasNamed(h, found.value, values[i], ctx)
  }

  ghost predicate SameCase(h: Host, resolved: Option<Str>, text: Str) {
    resolved.Some? && h.lower(resolved.value) == h.lower(text)
  }

  function Under(ctx: Context, key: Str): Option<Value> { if key in ctx then Some(ctx[key]) else None }

  lemma MemberNamed(h: Host, actual: Value, expected: Scalar, ctx: Context)
    ensures Compare(h, ArrayContains, actual, expected, ctx) <==> HasNamed(h, actual, expected, ctx)
    ensures Compare(h, ArrayContainsAll, actual, expected, ctx) <==> HasNamed(h, actual, expected, ctx)
  {
    hide ResolveValue;
    if actual.List? {
      var wanted := Wanted(h, expected, ctx);
      if wanted.Some? && Includes(actual.items, wanted.value) {
        var i :| 0 <= i < |actual.items| && actual.items[i] == Single(wanted.value);
        assert Names(h, expected, ctx, actual.items[i]);
      }
      if i :| 0 <= i < |actual.items| && Names(h, expected, ctx, actual.items[i]) {
        assert actual.items[i] == Single(wanted.value) && actual.items[i] in actual.items;
      }
    }
  }

  lemma ListHolds(h: Host, op: Operator, values: seq<Scalar>, actual: Value, ctx: Context)
    requires op.ArrayContains? || op.ArrayContainsAll?
    ensures ValueHolds(h, op, values, actual, ctx) <==>
            if op.ArrayContains? then exists i :: 0 <= i < |values| && HasNamed(h, actual, values[i], ctx)
            else forall i :: 0 <= i < |values| ==> HasNamed(h, actual, values[i], ctx)
  {
    forall i | 0 <= i < |values|
      ensures TestValue(h, op, actual, values[i], ctx) <==> HasNamed(h, actual, values[i], ctx)
    { MemberNamed(h, actual, values[i], ctx); }
    hide Compare, TestValue, HasNamed;
  }

  /** A condition holds exactly when its operator gets what it asks for. */
  lemma ConditionExactly(h: Host, c: Condition, ctx: Context)
    ensures ConditionHolds(h, c, ctx) <==> Asks(h, c.operator, c.values, Under(ctx, c.key), ctx)
  {
    hide ResolveValue, PatternMatches, LowerContext;
    if c.operator.ArrayContains? || c.operator.ArrayContainsAll? {
      hide ValueHolds, HasNamed;
      if c.key in ctx { ListHolds(h, c.operator, c.values, ctx[c.key], ctx); }
    }
  }
}
