/** Conditions on a resource's own attributes, as filters with the engine's meaning. */
module Conditions {
  import opened Wrappers
  import opened Text
  import opened Glob
  import opened Patterns
  import opened Policy
  import opened Filter
  import opened Residual

  /** The values of string conditions with their variables substituted; unresolved ones drop out. */
  function Resolved(h: Host, values: seq<Scalar>, ctx: Context): seq<Scalar> {
    if values == [] then []
    else
      var rest := Resolved(h, values[1..], ctx);
      if !values[0].String? then rest
      else match ResolveValue(h, values[0].text, ctx)
        case None => rest
        case Some(text) => [String(text)] + rest
  }

  function LoweredValues(h: Host, values: seq<Scalar>): (r: seq<Scalar>)
    ensures |r| == |values|
  {
    seq(|values|, i requires 0 <= i < |values| =>
      if values[i].String? then String(h.lower(values[i].text)) else values[i])
  }

  function OnlyNumbers(values: seq<Scalar>): seq<Scalar> {
    if values == [] then [] else (if values[0].Number? then [values[0]] else []) + OnlyNumbers(values[1..])
  }

  function OnlyBooleans(values: seq<Scalar>): seq<Scalar> {
    if values == [] then [] else (if values[0].Boolean? then [values[0]] else []) + OnlyBooleans(values[1..])
  }

  function LikeTokens(h: Host, text: Str, ctx: Context, ignoreCase: bool): Option<seq<Token>> {
    if ignoreCase then PatternTokens(h, h.lower(text), LowerContext(h, ctx), false)
    else PatternTokens(h, text, ctx, false)
  }

  /** The filter of one listed value, for the operators that build one each. */
  function ValueFilter(h: Host, op: Operator, field: Str, value: Scalar, ctx: Context): ResourceFilter {
    match op
    case Exists => if value == Boolean(true) then Present(field) else NotFilter(Present(field))
    case StringLike | StringNotLike | StringLikeIgnoreCase =>
      var ignoreCase := op.StringLikeIgnoreCase?;
      if !value.String? then False
      else (match LikeTokens(h, value.text, ctx, ignoreCase)
            case None => False
            case Some(tokens) => GlobFilter(field, tokens, ignoreCase))
    case NumericLessThan => if value.Number? then Compared(field, Lt, value.value) else False
    case NumericLessThanEquals => if value.Number? then Compared(field, Le, value.value) else False
    case NumericGreaterThan => if value.Number? then Compared(field, Gt, value.value) else False
    case NumericGreaterThanEquals => if value.Number? then Compared(field, Ge, value.value) else False
    case DateBefore => if value.String? then Dated(field, Before, value.text) else False
    case DateAfter => if value.String? then Dated(field, After, value.text) else False
    case IpAddress | NotIpAddress => if value.String? then InNetwork(field, value.text) else False
    case ArrayContains | ArrayContainsAll =>
      (match Wanted(h, value, ctx) case None => False case Some(wanted) => Contains(field, wanted))
    case _ => False
  }

  function ValueFilters(h: Host, op: Operator, field: Str, values: seq<Scalar>, ctx: Context): (r: seq<ResourceFilter>)
    ensures |r| == |values|
  {
    seq(|values|, i requires 0 <= i < |values| => ValueFilter(h, op, field, values[i], ctx))
  }

  /** The rows some listed value matches. */
  function AnyOf(h: Host, op: Operator, field: Str, values: seq<Scalar>, ctx: Context): ResourceFilter {
    match op
    case StringEquals | StringNotEquals => EqualsFilter(field, Resolved(h, values, ctx), false)
    case StringEqualsIgnoreCase | StringNotEqualsIgnoreCase =>
      EqualsFilter(field, LoweredValues(h, Resolved(h, values, ctx)), true)
    case Bool => EqualsFilter(field, OnlyBooleans(values), false)
    case NumericEquals | NumericNotEquals => EqualsFilter(field, OnlyNumbers(values), false)
    case _ => OrFilter(ValueFilters(h, op, field, values, ctx))
  }

  function NegatedType(op: Operator): FieldType {
    if op.NumericNotEquals? then NumberType else if op.NotIpAddress? then AddressType else StringType
  }

  /** `attributeCondition`. */
  function AttributeCondition(h: Host, op: Operator, field: Str, values: seq<Scalar>, ctx: Context): ResourceFilter {
    if Negated(op) then AndFilter([HasType(field, NegatedType(op)), NotFilter(AnyOf(h, op, field, values, ctx))])
    else if op.ArrayContainsAll? then AndFilter(ValueFilters(h, op, field, values, ctx))
    else AnyOf(h, op, field, values, ctx)
  }

  // --- meaning -------------------------------------------------------------------------------------

  predicate Globbing(op: Operator) { op.StringLike? || op.StringNotLike? || op.StringLikeIgnoreCase? }

  /**
   * What is asked of the globs a condition compares with: literals that stay apart when joined and, where case is
   * ignored, no reference to a number without digits.
   */
  predicate ReadyValue(h: Host, op: Operator, value: Scalar, ctx: Context) {
    Globbing(op) && value.String? && LikeTokens(h, value.text, ctx, op.StringLikeIgnoreCase?).Some? ==>
      && TokensSeparable(LikeTokens(h, value.text, ctx, op.StringLikeIgnoreCase?).value)
      && (op.StringLikeIgnoreCase? ==> !NamesNonFinite(Pieces(h.lower(value.text)), ctx))
  }

  predicate ReadyValues(h: Host, op: Operator, values: seq<Scalar>, ctx: Context) {
    forall i :: 0 <= i < |values| ==> ReadyValue(h, op, values[i], ctx)
  }

  predicate SomeCompares(h: Host, op: Operator, values: seq<Scalar>, actual: Value, ctx: Context) {
    exists i :: 0 <= i < |values| && Compare(h, op, actual, values[i], ctx)
  }

  lemma {:induction false} ResolvedMember(h: Host, values: seq<Scalar>, ctx: Context, s: Scalar)
    ensures s in Resolved(h, values, ctx) <==>
            s.String? && exists i :: 0 <= i < |values| && values[i].String? && ResolveValue(h, values[i].text, ctx) == Some(s.text)
  {
    hide ResolveValue;
    if values != [] {
      var rest := values[1..];
      ResolvedMember(h, rest, ctx, s);
      forall i | 0 <= i < |rest|
        ensures rest[i] == values[i + 1]
      {}
      if i :| 0 <= i < |values| && values[i].String? && s.String? && ResolveValue(h, values[i].text, ctx) == Some(s.text) {
        if i > 0 { assert rest[i - 1] == values[i]; }
      }
      if s in Resolved(h, rest, ctx) {
        var i :| 0 <= i < |rest| && rest[i].String? && ResolveValue(h, rest[i].text, ctx) == Some(s.text);
        assert values[i + 1] == rest[i];
      }
    }
  }

  lemma {:induction false} OnlyMembers(values: seq<Scalar>, s: Scalar)
    ensures s in OnlyNumbers(values) <==> s.Number? && s in values
    ensures s in OnlyBooleans(values) <==> s.Boolean? && s in values
  {
    if values != [] {
      OnlyMembers(values[1..], s);
      assert values == [values[0]] + values[1..];
    }
  }

  /** An equality filter passes the rows that hold one of its values. */
  lemma EqualsMember(h: Host, field: Str, values: seq<Scalar>, ignoreCase: bool, row: Row)
    ensures FilterMatches(h, EqualsFilter(field, values, ignoreCase), row) <==>
            field in row && exists v :: v in values && SameValue(h, row[field], v, ignoreCase)
  {
    hide SameValue;
    EqualsMeaning(h, field, values, ignoreCase, row);
    if field in row {
      if v :| v in values && SameValue(h, row[field], v, ignoreCase) {
        var i :| 0 <= i < |values| && values[i] == v;
      }
    }
  }

  lemma StringEqualsMeaning(h: Host, op: Operator, field: Str, values: seq<Scalar>, ctx: Context, row: Row)
    requires op.StringEquals? || op.StringNotEquals?
    ensures FilterMatches(h, AnyOf(h, op, field, values, ctx), row) <==>
            field in row && SomeCompares(h, op, values, row[field], ctx)
  {
    hide ResolveValue, FilterMatches;
    EqualsMember(h, field, Resolved(h, values, ctx), false, row);
    if field in row {
      forall s
        ensures s in Resolved(h, values, ctx) <==>
                s.String? && exists i :: 0 <= i < |values| && values[i].String? && ResolveValue(h, values[i].text, ctx) == Some(s.text)
      { ResolvedMember(h, values, ctx, s); }
      if SomeCompares(h, op, values, row[field], ctx) {
        var i :| 0 <= i < |values| && Compare(h, op, row[field], values[i], ctx);
        assert row[field].scalar in Resolved(h, values, ctx);
        assert SameValue(h, row[field], row[field].scalar, false);
      }
      if v :| v in Resolved(h, values, ctx) && SameValue(h, row[field], v, false) {
        var i :| 0 <= i < |values| && values[i].String? && ResolveValue(h, values[i].text, ctx) == Some(v.text);
        assert Compare(h, op, row[field], values[i], ctx);
      }
    }
  }

  /** Comparing with the lower-cased resolved text is comparing without regard to case. */
  lemma SameLowered(h: Host, op: Operator, actual: Value, value: Scalar, ctx: Context, text: Str)
    requires h.Lawful() && (op.StringEqualsIgnoreCase? || op.StringNotEqualsIgnoreCase?)
    requires value.String? && ResolveValue(h, value.text, ctx) == Some(text)
    ensures Compare(h, op, actual, value, ctx) <==> SameValue(h, actual, String(h.lower(text)), true)
  {
    hide ResolveValue, Host.Lawful;
    LowerTwice(h, text);
  }

  lemma IgnoreCaseMeaning(h: Host, op: Operator, field: Str, values: seq<Scalar>, ctx: Context, row: Row)
    requires h.Lawful() && (op.StringEqualsIgnoreCase? || op.StringNotEqualsIgnoreCase?)
    ensures FilterMatches(h, AnyOf(h, op, field, values, ctx), row) <==>
            field in row && SomeCompares(h, op, values, row[field], ctx)
  {
    hide ResolveValue, FilterMatches, Host.Lawful, Resolved, SameValue, Compare;
    var resolved := Resolved(h, values, ctx);
    var lowered := LoweredValues(h, resolved);
    EqualsMember(h, field, lowered, true, row);
    if field in row {
      if i :| 0 <= i < |values| && Compare(h, op, row[field], values[i], ctx) {
        ComparedResolves(h, op, row[field], values[i], ctx);
        var text := ResolveValue(h, values[i].text, ctx).value;
        SameLowered(h, op, row[field], values[i], ctx, text);
        ResolvedMember(h, values, ctx, String(text));
        var k :| 0 <= k < |resolved| && resolved[k] == String(text);
        assert lowered[k] in lowered;
      }
      if v :| v in lowered && SameValue(h, row[field], v, true) {
        var k :| 0 <= k < |lowered| && lowered[k] == v;
        ResolvedMember(h, values, ctx, resolved[k]);
        assert resolved[k] in resolved;
        var i :| 0 <= i < |values| && values[i].String? && ResolveValue(h, values[i].text, ctx) == Some(resolved[k].text);
        SameLowered(h, op, row[field], values[i], ctx, resolved[k].text);
      }
    }
  }

  lemma ComparedResolves(h: Host, op: Operator, actual: Value, value: Scalar, ctx: Context)
    requires op.StringEqualsIgnoreCase? || op.StringNotEqualsIgnoreCase?
    requires Compare(h, op, actual, value, ctx)
    ensures value.String? && ResolveValue(h, value.text, ctx).Some?
  {
    hide ResolveValue;
  }

  lemma LowerTwice(h: Host, s: Str)
    requires h.Lawful()
    ensures h.lower(h.lower(s)) == h.lower(s)
  {
    assert h.Lowered(h.lower(s));
  }

  lemma ScalarsMeaning(h: Host, op: Operator, field: Str, values: seq<Scalar>, ctx: Context, row: Row)
    requires op.Bool? || op.NumericEquals? || op.NumericNotEquals?
    ensures FilterMatches(h, AnyOf(h, op, field, values, ctx), row) <==>
            field in row && SomeCompares(h, op, values, row[field], ctx)
  {
    hide FilterMatches;
    var kept := if op.Bool? then OnlyBooleans(values) else OnlyNumbers(values);
    EqualsMember(h, field, kept, false, row);
    if field in row {
      forall s
        ensures s in kept <==> (if op.Bool? then s.Boolean? else s.Number?) && s in values
      { OnlyMembers(values, s); }
      if SomeCompares(h, op, values, row[field], ctx) {
        var i :| 0 <= i < |values| && Compare(h, op, row[field], values[i], ctx);
        assert values[i] in kept && SameValue(h, row[field], values[i], false);
      }
      if v :| v in kept && SameValue(h, row[field], v, false) {
        var i :| 0 <= i < |values| && values[i] == v;
        assert Compare(h, op, row[field], values[i], ctx);
      }
    }
  }

  /** Operators whose values get a filter each. */
  predicate PerValue(op: Operator) {
    !(op.StringEquals? || op.StringNotEquals? || op.StringEqualsIgnoreCase? || op.StringNotEqualsIgnoreCase? ||
      op.Bool? || op.NumericEquals? || op.NumericNotEquals? || op.Exists?)
  }

  lemma LowerContextClean(h: Host, ctx: Context)
    requires h.Lawful() && CleanContext(ctx)
    ensures CleanContext(LowerContext(h, ctx))
  {
    hide Clean, Host.Lowered;
  }

  /** Substituted values of a lower-cased context are their own lower-case form, numbers without digits aside. */
  lemma SubstitutionsLowered(h: Host, ctx: Context, name: Str)
    requires h.Lawful() && Substitution(h, LowerContext(h, ctx), name).Some?
    requires !NonFinitePiece(Variable(name), ctx)
    ensures EveryChar(Substitution(h, LowerContext(h, ctx), name).value, c => h.lower(c) == c)
  {
    hide EveryChar, Clean;
    BooleanTexts();
    var low := LowerContext(h, ctx);
    var text := Substitution(h, low, name).value;
    match low[name].scalar
    case String(s) =>
      assert text == h.lower(ctx[name].scalar.text);
      assert h.Lowered(text);
    case Number(n) => PlainChars(h, text);
    case Boolean(b) => PlainChars(h, text);
  }

  lemma LoweredPatternTokens(h: Host, text: Str, ctx: Context)
    requires h.Lawful() && LikeTokens(h, text, ctx, true).Some? && !NamesNonFinite(Pieces(h.lower(text)), ctx)
    ensures LoweredTokens(h, LikeTokens(h, text, ctx, true).value)
  {
    hide EveryChar, Clean, Substitution, LowerContext;
    var pattern, low := h.lower(text), LowerContext(h, ctx);
    assert h.Lowered(pattern);
    assert pattern[0..] == pattern;
    PiecesKeepChars(pattern, 0, 0, c => h.lower(c) == c);
    var pieces := Pieces(pattern);
    forall i | 0 <= i < |pieces| && pieces[i].Variable? && Substitution(h, low, pieces[i].name).Some?
      ensures EveryChar(Substitution(h, low, pieces[i].name).value, c => h.lower(c) == c)
    {
      assert !NonFinitePiece(pieces[i], ctx);
      SubstitutionsLowered(h, ctx, pieces[i].name);
    }
    TokensKeepChars(h, pieces, low, c => h.lower(c) == c);
  }

  lemma LikeMeaning(h: Host, op: Operator, field: Str, value: Scalar, ctx: Context, row: Row)
    requires Globbing(op) && h.Lawful() && ReadyValue(h, op, value, ctx)
    ensures FilterMatches(h, ValueFilter(h, op, field, value, ctx), row) <==>
            field in row && Compare(h, op, row[field], value, ctx)
  {
    hide FilterMatches, TokensSeparable, Accepts, PieceTokensOf, LowerContext, GlobFilter, Chars, NamesNonFinite;
    hide Host.Lawful;
    var ignoreCase := op.StringLikeIgnoreCase?;
    if value.String? && LikeTokens(h, value.text, ctx, ignoreCase).Some? {
      if ignoreCase { LoweredPatternTokens(h, value.text, ctx); }
      GlobFilterExact(h, field, LikeTokens(h, value.text, ctx, ignoreCase).value, ignoreCase, row);
    } else {
      FalseMatchesNothing(h, row);
    }
  }

  /** Texts without unpaired surrogates, and finite numbers, are enough. */
  lemma CleanReady(h: Host, op: Operator, value: Scalar, ctx: Context)
    requires h.Lawful() && CleanContext(ctx) && (value.String? ==> Clean(value.text))
    requires op.StringLikeIgnoreCase? ==> forall name :: name in ctx ==> !ctx[name].NonFinite?
    ensures ReadyValue(h, op, value, ctx)
  {
    hide Clean, CleanContext, PieceTokensOf, Host.Lawful, TokensSeparable, LowerContext, Pieces;
    if Globbing(op) && value.String? && LikeTokens(h, value.text, ctx, op.StringLikeIgnoreCase?).Some? {
      if op.StringLikeIgnoreCase? {
        LowerContextClean(h, ctx);
        LowerKeepsClean(h, value.text);
        CleanTokens(h, h.lower(value.text), LowerContext(h, ctx));
      } else {
        CleanTokens(h, value.text, ctx);
      }
    }
  }

  lemma LowerKeepsClean(h: Host, s: Str)
    requires h.Lawful() && Clean(s)
    ensures Clean(h.lower(s))
  {}

  lemma FalseMatchesNothing(h: Host, row: Row)
    ensures !FilterMatches(h, False, row) && FilterMatches(h, True, row)
  {}

  lemma ValueMeaning(h: Host, op: Operator, field: Str, value: Scalar, ctx: Context, row: Row)
    requires PerValue(op) && h.Lawful() && ReadyValue(h, op, value, ctx)
    ensures FilterMatches(h, ValueFilter(h, op, field, value, ctx), row) <==>
            field in row && Compare(h, op, row[field], value, ctx)
  {
    if Globbing(op) {
      LikeMeaning(h, op, field, value, ctx, row);
    } else {
      SimpleMeaning(h, op, field, value, ctx, row);
    }
  }

  lemma SimpleMeaning(h: Host, op: Operator, field: Str, value: Scalar, ctx: Context, row: Row)
    requires PerValue(op) && !Globbing(op)
    ensures FilterMatches(h, ValueFilter(h, op, field, value, ctx), row) <==>
            field in row && Compare(h, op, row[field], value, ctx)
  {
    hide PatternMatches, ResolveValue, GlobFilter, LowerContext, Wanted, Accepts, Chars, ParseChars;
    FalseMatchesNothing(h, row);
    match op
    case NumericLessThan | NumericLessThanEquals =>
    case NumericGreaterThan | NumericGreaterThanEquals =>
    case DateBefore | DateAfter =>
    case IpAddress | NotIpAddress =>
    case ArrayContains | ArrayContainsAll =>
  }

  lemma AnyOfMeaning(h: Host, op: Operator, field: Str, values: seq<Scalar>, ctx: Context, row: Row)
    requires !op.Exists? && h.Lawful() && ReadyValues(h, op, values, ctx)
    ensures FilterMatches(h, AnyOf(h, op, field, values, ctx), row) <==>
            field in row && SomeCompares(h, op, values, row[field], ctx)
  {
    if op.StringEquals? || op.StringNotEquals? {
      StringEqualsMeaning(h, op, field, values, ctx, row);
    } else if op.StringEqualsIgnoreCase? || op.StringNotEqualsIgnoreCase? {
      IgnoreCaseMeaning(h, op, field, values, ctx, row);
    } else if !PerValue(op) {
      ScalarsMeaning(h, op, field, values, ctx, row);
    } else {
      PerValueMeaning(h, op, field, values, ctx, row);
    }
  }

  lemma PerValueMeaning(h: Host, op: Operator, field: Str, values: seq<Scalar>, ctx: Context, row: Row)
    requires PerValue(op) && h.Lawful() && ReadyValues(h, op, values, ctx)
    ensures FilterMatches(h, AnyOf(h, op, field, values, ctx), row) <==>
            field in row && SomeCompares(h, op, values, row[field], ctx)
  {
    hide FilterMatches, ValueFilter, Compare, ReadyValue, Host.Lawful, OrFilter, Resolved, LoweredValues, OnlyNumbers, OnlyBooleans;
    var filters := ValueFilters(h, op, field, values, ctx);
    forall i | 0 <= i < |values|
      ensures FilterMatches(h, filters[i], row) <==> field in row && Compare(h, op, row[field], values[i], ctx)
    { ValueMeaning(h, op, field, values[i], ctx, row); }
    OrMeaning(h, filters, row);
  }

  lemma PresenceMeaning(h: Host, field: Str, values: seq<Scalar>, ctx: Context, row: Row)
    requires forall i :: 0 <= i < |values| ==> values[i].Boolean?
    ensures FilterMatches(h, AnyOf(h, Exists, field, values, ctx), row) <==>
            SomeCompares(h, Exists, values, Single(Boolean(field in row)), ctx)
  {
    hide FilterMatches, ValueFilter, Compare, OrFilter;
    var filters := ValueFilters(h, Exists, field, values, ctx);
    forall i | 0 <= i < |values|
      ensures FilterMatches(h, filters[i], row) <==> Compare(h, Exists, Single(Boolean(field in row)), values[i], ctx)
    { PresentMeaning(h, field, values[i], ctx, row); }
    OrMeaning(h, filters, row);
  }

  lemma PresentMeaning(h: Host, field: Str, value: Scalar, ctx: Context, row: Row)
    requires value.Boolean?
    ensures FilterMatches(h, ValueFilter(h, Exists, field, value, ctx), row) <==>
            Compare(h, Exists, Single(Boolean(field in row)), value, ctx)
  {
    NotMeaning(h, Present(field), row);
  }

  lemma TypeMeaning(h: Host, op: Operator, field: Str, row: Row)
    requires h.Lawful() && Negated(op)
    ensures FilterMatches(h, HasType(field, NegatedType(op)), row) <==> field in row && WellTyped(h, op, row[field])
  {
    hide Host.Lowered, Clean;
  }

  /** What a condition on an attribute asks of a row that has, or lacks, the attribute. */
  predicate AttributeHolds(h: Host, op: Operator, values: seq<Scalar>, field: Str, ctx: Context, row: Row) {
    if op.Exists? then ValueHolds(h, op, values, Single(Boolean(field in row)), ctx)
    else field in row && ValueHolds(h, op, values, row[field], ctx)
  }

  lemma NegatedMeaning(h: Host, op: Operator, field: Str, values: seq<Scalar>, ctx: Context, row: Row)
    requires Negated(op) && h.Lawful() && ReadyValues(h, op, values, ctx)
    ensures FilterMatches(h, AttributeCondition(h, op, field, values, ctx), row) <==>
            AttributeHolds(h, op, values, field, ctx, row)
  {
    hide Compare, FilterMatches, AnyOf, WellTyped, Host.Lawful, ReadyValue;
    AnyOfMeaning(h, op, field, values, ctx, row);
    TypeMeaning(h, op, field, row);
    var any, typed := AnyOf(h, op, field, values, ctx), HasType(field, NegatedType(op));
    var both := [typed, NotFilter(any)];
    NotMeaning(h, any, row);
    AndMeaning(h, both, row);
    assert both[0] == typed && both[1] == NotFilter(any);
  }

  lemma EveryMemberMeaning(h: Host, field: Str, values: seq<Scalar>, ctx: Context, row: Row)
    requires h.Lawful() && values != []
    ensures FilterMatches(h, AttributeCondition(h, ArrayContainsAll, field, values, ctx), row) <==>
            AttributeHolds(h, ArrayContainsAll, values, field, ctx, row)
  {
    hide Compare, FilterMatches, AnyOf, Host.Lawful, ValueFilter;
    var filters := ValueFilters(h, ArrayContainsAll, field, values, ctx);
    forall i | 0 <= i < |values|
      ensures FilterMatches(h, filters[i], row) <==> field in row && Compare(h, ArrayContainsAll, row[field], values[i], ctx)
    { ValueMeaning(h, ArrayContainsAll, field, values[i], ctx, row); }
    AndMeaning(h, filters, row);
    assert FilterMatches(h, filters[0], row) ==> field in row;
  }

  /** Every operator, listed values, absence and wrong types: the filter passes the rows the engine accepts. */
  lemma AttributeMeaning(h: Host, c: Condition, field: Str, ctx: Context, row: Row)
    requires h.Lawful() && ValidCondition(h, c) && ReadyValues(h, c.operator, c.values, ctx)
    ensures FilterMatches(h, AttributeCondition(h, c.operator, field, c.values, ctx), row) <==>
            AttributeHolds(h, c.operator, c.values, field, ctx, row)
  {
    hide Compare, FilterMatches, AnyOf, Host.Lawful, ReadyValue;
    var op, values := c.operator, c.values;
    if op.Exists? {
      assert forall i :: 0 <= i < |values| ==> ValidValue(h, op, values[i]);
      PresenceMeaning(h, field, values, ctx, row);
    } else if Negated(op) {
      NegatedMeaning(h, op, field, values, ctx, row);
    } else if op.ArrayContainsAll? {
      EveryMemberMeaning(h, field, values, ctx, row);
    } else {
      AnyOfMeaning(h, op, field, values, ctx, row);
    }
  }

  lemma ValueFiltersPlanned(h: Host, op: Operator, field: Str, values: seq<Scalar>, ctx: Context)
    ensures AllPlanned(ValueFilters(h, op, field, values, ctx))
  {
    forall i | 0 <= i < |values|
      ensures Planned(ValueFilter(h, op, field, values[i], ctx))
    {
      match op {
        case StringLike | StringNotLike | StringLikeIgnoreCase =>
          if values[i].String? && LikeTokens(h, values[i].text, ctx, op.StringLikeIgnoreCase?).Some? {
            GlobFilterPlanned(field, LikeTokens(h, values[i].text, ctx, op.StringLikeIgnoreCase?).value, op.StringLikeIgnoreCase?);
          }
        case _ =>
      }
    }
  }

  lemma EqualsFilterPlanned(field: Str, values: seq<Scalar>, ignoreCase: bool)
    ensures Planned(EqualsFilter(field, values, ignoreCase))
  {
    if |values| > 0 { assert values[0] in AddMissing([], values); }
  }

  lemma AttributePlanned(h: Host, op: Operator, field: Str, values: seq<Scalar>, ctx: Context)
    ensures Planned(AttributeCondition(h, op, field, values, ctx))
  {
    hide ValueFilter, AndFilter, OrFilter, EqualsFilter, Resolved, LoweredValues, OnlyNumbers, OnlyBooleans;
    var any := AnyOf(h, op, field, values, ctx);
    ValueFiltersPlanned(h, op, field, values, ctx);
    ConstructorsPlanned(ValueFilters(h, op, field, values, ctx));
    EqualsFilterPlanned(field, Resolved(h, values, ctx), false);
    EqualsFilterPlanned(field, LoweredValues(h, Resolved(h, values, ctx)), true);
    EqualsFilterPlanned(field, OnlyBooleans(values), false);
    EqualsFilterPlanned(field, OnlyNumbers(values), false);
    assert Planned(any);
    assert [any][0] == any;
    ConstructorsPlanned([any]);
    if Negated(op) {
      ConstructorsPlanned([HasType(field, NegatedType(op)), NotFilter(any)]);
    }
  }
}
