/** The compiled expression is true for exactly the stored rows whose originals pass the filter, and never unknown. */
module SqlMeaning {
  import opened Wrappers
  import opened Text
  import opened Glob
  import opened Patterns
  import opened Policy
  import opened Filter
  import opened Residual
  import opened Sql

  // --- patterns ----------------------------------------------------------------------------------------

  lemma CleanParsed(cs: seq<Str>)
    requires forall i :: 0 <= i < |cs| ==> CleanChar(cs[i])
    ensures CleanLiterals(ParseChars(cs))
  {
    ParsedLiterals(cs);
  }

  lemma {:induction false} LikeTextChars(token: Token)
    requires token.Char? ==> CleanChar(token.value)
    ensures var text := LikeTokenText(token);
            && text != [] && !High(text[|text| - 1])
            && Chars(text) == if token.Char? && text != token.value then [BACKSLASH, token.value] else [text]
  {
    var text := LikeTokenText(token);
    if token.Char? && text != token.value {
      CharsOfChar(BACKSLASH);
      CharsOfChar(token.value);
      CharsConcat(BACKSLASH, token.value);
    } else {
      CharsOfChar(text);
    }
  }

  lemma LikeParsesFirst(token: Token, cs: seq<Str>)
    requires token.Char? ==> CleanChar(token.value)
    ensures ParseLike(Chars(LikeTokenText(token)) + cs) == [token] + ParseLike(cs)
  {
    LikeTextChars(token);
    hide Chars;
    var all := Chars(LikeTokenText(token)) + cs;
    if token.Char? && LikeTokenText(token) != token.value {
      assert all[2..] == cs;
    } else {
      assert all[1..] == cs;
    }
  }

  /** LIKE reads back the glob's tokens: every operator of LIKE in a literal is escaped. */
  lemma {:induction false} LikeRoundTrip(tokens: seq<Token>)
    requires CleanLiterals(tokens)
    ensures ParseLike(Chars(LikeTokensText(tokens))) == tokens
  {
    hide Chars, ParseLike;
    if tokens == [] {
      EmptyLike();
    } else {
      LikeRoundTrip(tokens[1..]);
      LikeTextChars(tokens[0]);
      CharsConcat(LikeTokenText(tokens[0]), LikeTokensText(tokens[1..]));
      LikeParsesFirst(tokens[0], Chars(LikeTokensText(tokens[1..])));
    }
  }

  lemma EmptyLike()
    ensures ParseLike(Chars([])) == [] && ParseSqliteGlob(Chars([])) == []
  {}

  function PartOf(token: Token): GlobPart {
    match token
    case Star => AnyRun
    case Any => AnyOne
    case Char(c) => if c == STAR || c == QUESTION || c == OPEN then OneOf(false, {c}) else Plainly(c)
  }

  function PartsOf(tokens: seq<Token>): (r: seq<GlobPart>)
    ensures |r| == |tokens|
  {
    seq(|tokens|, i requires 0 <= i < |tokens| => PartOf(tokens[i]))
  }

  lemma GlobTextChars(token: Token)
    requires token.Char? ==> CleanChar(token.value)
    ensures var text := GlobTokenText(token);
            && text != [] && !High(text[|text| - 1])
            && Chars(text) == if token.Char? && text != token.value then [OPEN, token.value, CLOSE] else [text]
  {
    hide Chars;
    var text := GlobTokenText(token);
    if token.Char? && text != token.value {
      BracketedChars(token.value);
    } else {
      CharsOfChar(text);
    }
  }

  lemma BracketedChars(c: Str)
    requires CleanChar(c)
    ensures Chars(OPEN + c + CLOSE) == [OPEN, c, CLOSE]
  {
    CharsOfChar(OPEN);
    CharsOfChar(c);
    CharsOfChar(CLOSE);
    hide Chars;
    CharsConcat(OPEN, c);
    CharsConcat(OPEN + c, CLOSE);
  }

  lemma ClassOfOne(c: Str, cs: seq<Str>)
    ensures ParseClass([c, CLOSE] + cs, true) == ({c}, cs)
  {
    var all := [c, CLOSE] + cs;
    assert all[1..] == [CLOSE] + cs && ([CLOSE] + cs)[1..] == cs;
    assert ParseClass([CLOSE] + cs, false) == ({}, cs);
    assert {c} + {} == {c};
  }

  lemma GlobParsesFirst(token: Token, cs: seq<Str>)
    requires token.Char? ==> CleanChar(token.value)
    ensures ParseSqliteGlob(Chars(GlobTokenText(token)) + cs) == [PartOf(token)] + ParseSqliteGlob(cs)
  {
    GlobTextChars(token);
    hide Chars;
    if token.Char? && GlobTokenText(token) != token.value {
      BracketedParses(token.value, cs);
    } else {
      var all := Chars(GlobTokenText(token)) + cs;
      assert all[1..] == cs;
    }
  }

  lemma BracketedParses(c: Str, cs: seq<Str>)
    requires c != [] && c[0] != CARET[0]
    ensures ParseSqliteGlob([OPEN, c, CLOSE] + cs) == [OneOf(false, {c})] + ParseSqliteGlob(cs)
  {
    ClassOfOne(c, cs);
    hide ParseClass;
    var all := [OPEN, c, CLOSE] + cs;
    assert all[1..] == [c, CLOSE] + cs;
    assert OPEN[0] != STAR[0] && OPEN[0] != QUESTION[0];
  }

  lemma {:induction false} GlobPartsRoundTrip(tokens: seq<Token>)
    requires CleanLiterals(tokens)
    ensures ParseSqliteGlob(Chars(GlobTokensText(tokens))) == PartsOf(tokens)
  {
    hide Chars, ParseSqliteGlob;
    if tokens == [] {
      EmptyLike();
    } else {
      GlobPartsRoundTrip(tokens[1..]);
      GlobTextChars(tokens[0]);
      CharsConcat(GlobTokenText(tokens[0]), GlobTokensText(tokens[1..]));
      GlobParsesFirst(tokens[0], Chars(GlobTokensText(tokens[1..])));
    }
  }

  lemma {:induction false} PartsAccept(tokens: seq<Token>, cs: seq<Str>)
    ensures GlobAccepts(PartsOf(tokens), cs) <==> Accepts(tokens, cs)
    decreases |tokens|, |cs|
  {
    if tokens != [] {
      assert PartsOf(tokens)[1..] == PartsOf(tokens[1..]);
      PartsAccept(tokens[1..], cs);
      if cs != [] {
        PartsAccept(tokens, cs[1..]);
        PartsAccept(tokens[1..], cs[1..]);
      }
    }
  }

  /** Both databases match what the filter's glob matches. */
  lemma PatternsMatch(h: Host, pattern: Str, lower: bool, text: Str)
    requires h.Lawful() && Clean(pattern)
    ensures var accepted := Accepts(ParseChars(Chars(LowerIf(h, lower, pattern))), Chars(text));
            && (Accepts(ParseLike(Chars(LikePattern(h, pattern, lower))), Chars(text)) <==> accepted)
            && (GlobAccepts(ParseSqliteGlob(Chars(SqliteGlob(h, pattern, lower))), Chars(text)) <==> accepted)
  {
    var p := LowerIf(h, lower, pattern);
    assert Clean(p);
    hide Accepts, GlobAccepts, Chars, ParseLike, ParseSqliteGlob, Host.Lawful, LikeTokensText, GlobTokensText;
    var tokens := ParseChars(Chars(p));
    CleanParsed(Chars(p));
    LikeRoundTrip(tokens);
    GlobPartsRoundTrip(tokens);
    PartsAccept(tokens, Chars(text));
  }

  // --- placeholders ----------------------------------------------------------------------------------------

  /** The arguments from `at` on are the parameters. */
  predicate Supplies(args: Args, at: nat, params: seq<SqlValue>) {
    at + |params| <= |args| && args[at..at + |params|] == params
  }

  lemma SuppliesConcat(args: Args, at: nat, a: seq<SqlValue>, b: seq<SqlValue>)
    requires Supplies(args, at, a + b)
    ensures Supplies(args, at, a) && Supplies(args, at + |a|, b)
  {
    var all := args[at..at + |a + b|];
    assert args[at..at + |a|] == all[..|a|];
    assert args[at + |a|..at + |a| + |b|] == all[|a|..];
  }

  lemma SuppliedArgument(o: Options, args: Args, n: nat, params: seq<SqlValue>, i: nat)
    requires Supplies(args, o.offset + n, params) && i < |params|
    ensures Argument(args, Place(o, n + i), o.offset + n + i) == params[i]
  {
    assert args[o.offset + n..o.offset + n + |params|][i] == args[o.offset + n + i];
  }

  function MarkCount(d: Dialect, count: nat): nat { if d.Sqlite? then count else 0 }

  lemma {:induction false} MarksOfPlaces(o: Options, n: nat, count: nat)
    ensures MarksIn(Places(o, n, count)) == MarkCount(o.dialect, count)
    decreases count
  {
    if count > 0 {
      var list := Places(o, n, count);
      assert list[0] == Place(o, n) && list[1..] == Places(o, n + 1, count - 1);
      MarksOfPlaces(o, n + 1, count - 1);
    }
  }

  /** Every parameter has its placeholder: as many positional ones as parameters, or none. */
  lemma {:induction false} MarksOfCompiled(h: Host, o: Options, f: ResourceFilter, n: nat)
    requires Expressible(o, f)
    ensures Marks(Compiled(h, o, f, n)) == MarkCount(o.dialect, |Params(h, o.dialect, f)|)
    decreases f, 0
  {
    if f.And? || f.Or? {
      MarksOfCompiledAll(h, o, f.filters, n);
    } else if f.Not? {
      MarksOfCompiled(h, o, f.filter, n);
    } else {
      MarksOfAtom(h, o, f, n);
    }
  }

  lemma MarksOfAtom(h: Host, o: Options, f: ResourceFilter, n: nat)
    requires !f.And? && !f.Or? && !f.Not?
    ensures Marks(Compiled(h, o, f, n)) == MarkCount(o.dialect, |Params(h, o.dialect, f)|)
  {
    hide LikePattern, SqliteGlob, Places, ColumnOf;
    match f
    case Equals(_, values, _) => MarksOfPlaces(o, n, |values|);
    case Compared(_, _, _) => OneMark(Place(o, n));
    case Like(_, _, _) => OneMark(Place(o, n));
    case Dated(_, _, _) => OneMark(Place(o, n));
    case _ =>
  }

  lemma OneMark(p: Placeholder)
    ensures MarksIn([p]) == if p.Positional? then 1 else 0
  {
    assert [p][1..] == [];
  }

  lemma {:induction false} MarksOfCompiledAll(h: Host, o: Options, fs: seq<ResourceFilter>, n: nat)
    requires forall i :: 0 <= i < |fs| ==> Expressible(o, fs[i])
    ensures MarksOfAll(CompiledAll(h, o, fs, n)) == MarkCount(o.dialect, |ParamsOfAll(h, o.dialect, fs)|)
    decreases fs, 0
  {
    if fs != [] {
      MarksOfCompiled(h, o, fs[0], n);
      MarksOfCompiledAll(h, o, fs[1..], n + |Params(h, o.dialect, fs[0])|);
    }
  }

  // --- atoms -------------------------------------------------------------------------------------------------

  /** What compiling and running one filter relates. */
  ghost predicate Setting(h: Host, db: Database, o: Options, schema: Schema, f: ResourceFilter, n: nat, row: Row, stored: SqlRow, args: Args) {
    && h.Lawful() && ReadsAlike(h, db, o.dialect, f, row) && Expressible(o, f) && FilterFits(h, schema, f) && FilterClean(f)
    && RowFits(h, schema, row) && Stores(o, row, stored)
    && Supplies(args, o.offset + n, Params(h, o.dialect, f))
  }

  ghost predicate Decides(h: Host, db: Database, o: Options, f: ResourceFilter, n: nat, row: Row, stored: SqlRow, args: Args) {
    Eval(db, Compiled(h, o, f, n), stored, args, o.offset + n) == VerdictOf(FilterMatches(h, f, row))
  }

  /** A guarded predicate that does not fail is false on NULL and the predicate itself otherwise. */
  lemma GuardedEval(db: Database, column: Str, e: Expr, row: SqlRow, args: Args, at: nat)
    ensures Eval(db, Guarded(column, e), row, args, at) ==
            if ColumnValue(row, column).Null? && !Eval(db, e, row, args, at).Failed? then No else Eval(db, e, row, args, at)
  {
    hide ColumnValue;
  }

  lemma {:induction false} InListVerdict(h: Host, o: Options, v: SqlValue, n: nat, params: seq<SqlValue>, args: Args)
    requires Supplies(args, o.offset + n, params) && !v.Null? && forall i :: 0 <= i < |params| ==> !params[i].Null?
    ensures InVerdict(v, Places(o, n, |params|), args, o.offset + n) == VerdictOf(v in params)
    decreases |params|
  {
    hide Supplies, Argument;
    if params != [] {
      var list, rest := Places(o, n, |params|), Places(o, n + 1, |params| - 1);
      SuppliedArgument(o, args, n, params, 0);
      assert [params[0]] + params[1..] == params;
      SuppliesConcat(args, o.offset + n, [params[0]], params[1..]);
      assert list[0] == Place(o, n) && list[1..] == rest;
      InListVerdict(h, o, v, n + 1, params[1..], args);
      if o.dialect.Postgres? {
        assert forall i :: 0 <= i < |rest| ==> rest[i] == Place(o, n + 1 + i);
        PositionIrrelevant(v, rest, args, o.offset + n, o.offset + n + 1);
      }
      assert v in params <==> v == params[0] || v in params[1..];
    }
  }

  lemma {:induction false} PositionIrrelevant(v: SqlValue, list: seq<Placeholder>, args: Args, a: nat, b: nat)
    requires forall i :: 0 <= i < |list| ==> list[i].Numbered?
    ensures InVerdict(v, list, args, a) == InVerdict(v, list, args, b)
  {
    if list != [] { PositionIrrelevant(v, list[1..], args, a, b); }
  }

  /** Equality of bound values of one column type is equality of the values. */
  lemma BoundSame(h: Host, d: Dialect, t: ColumnType, actual: Value, expected: Scalar, ignoreCase: bool)
    requires ValueFits(h, t, actual) && ScalarFits(t, expected) && (ignoreCase ==> expected.String?)
    ensures var v := Bound(d, actual.scalar);
            var left := if ignoreCase && v.Txt? then Txt(h.lower(v.text)) else v;
            left == BoundCase(h, d, expected, ignoreCase) <==> SameValue(h, actual, expected, ignoreCase)
  {}

  /** The stored column of a field: the bound value, or NULL. */
  lemma StoredColumn(h: Host, o: Options, schema: Schema, f: ResourceFilter, field: Str, row: Row, stored: SqlRow)
    requires field in o.columns && field in schema && RowFits(h, schema, row) && Stores(o, row, stored)
    ensures field !in row ==> ColumnValue(stored, ColumnOf(o, field)).Null?
    ensures field in row ==>
              && ValueFits(h, schema[field], row[field]) && row[field].Single?
              && ColumnValue(stored, ColumnOf(o, field)) == Bound(o.dialect, row[field].scalar)
              && !ColumnValue(stored, ColumnOf(o, field)).Null?
  {
    if field in row { assert ValueFits(h, schema[field], row[field]); }
  }

  lemma ListedValue(h: Host, o: Options, t: ColumnType, actual: Value, values: seq<Scalar>, ignoreCase: bool)
    requires ValueFits(h, t, actual) && (forall i :: 0 <= i < |values| ==> ScalarFits(t, values[i]))
    requires ignoreCase ==> t.TextColumn? || t.MomentColumn?
    ensures var v := Bound(o.dialect, actual.scalar);
            (if ignoreCase && v.Txt? then Txt(h.lower(v.text)) else v) in BoundValues(h, o.dialect, values, ignoreCase) <==>
            exists i :: 0 <= i < |values| && SameValue(h, actual, values[i], ignoreCase)
  {
    var v := Bound(o.dialect, actual.scalar);
    var left := if ignoreCase && v.Txt? then Txt(h.lower(v.text)) else v;
    var params := BoundValues(h, o.dialect, values, ignoreCase);
    forall i | 0 <= i < |values|
      ensures left == params[i] <==> SameValue(h, actual, values[i], ignoreCase)
    {
      BoundSame(h, o.dialect, t, actual, values[i], ignoreCase);
    }
    hide SameValue, BoundCase, Bound;
    if left in params {
      var i :| 0 <= i < |params| && params[i] == left;
      assert SameValue(h, actual, values[i], ignoreCase);
    }
  }

  lemma EqualsDecides(h: Host, db: Database, o: Options, schema: Schema, f: ResourceFilter, n: nat, row: Row, stored: SqlRow, args: Args)
    requires f.Equals? && Setting(h, db, o, schema, f, n, row, stored, args)
    ensures Decides(h, db, o, f, n, row, stored, args)
  {
    hide Host.Lawful, SameValue, BoundCase, InVerdict, Supplies, RowFits, Stores, ColumnOf, ColumnValue, ValueFits, BoundValues;
    var params := BoundValues(h, o.dialect, f.values, f.ignoreCase);
    var column := ColumnOf(o, f.field);
    var atom := InList(Target(column, f.ignoreCase), Places(o, n, |f.values|));
    assert Compiled(h, o, f, n) == Guarded(column, atom);
    GuardedEval(db, column, atom, stored, args, o.offset + n);
    StoredColumn(h, o, schema, f, f.field, row, stored);
    if f.field in row {
      var v := TargetValue(db, stored, Target(column, f.ignoreCase));
      BoundNotNull(h, o.dialect, f.values, f.ignoreCase);
      InListVerdict(h, o, v, n, params, args);
      ListedValue(h, o, schema[f.field], row[f.field], f.values, f.ignoreCase);
    }
  }

  lemma BoundNotNull(h: Host, d: Dialect, values: seq<Scalar>, ignoreCase: bool)
    ensures forall i :: 0 <= i < |values| ==> !BoundValues(h, d, values, ignoreCase)[i].Null?
  {}

  lemma AtomDecides(h: Host, db: Database, o: Options, schema: Schema, f: ResourceFilter, n: nat, row: Row, stored: SqlRow, args: Args)
    requires f.Present? || f.HasType? || f.Compared?
    requires Setting(h, db, o, schema, f, n, row, stored, args)
    ensures Decides(h, db, o, f, n, row, stored, args)
  {
    hide Host.Lawful, RowFits, Stores, ColumnOf, ColumnValue, Supplies, Argument;
    var column := ColumnOf(o, f.field);
    StoredColumn(h, o, schema, f, f.field, row, stored);
    if f.Compared? {
      SuppliedArgument(o, args, n, [Num(f.value)], 0);
      GuardedEval(db, column, Compares(Target(column, false), f.comparison, Place(o, n)), stored, args, o.offset + n);
    }
  }

  lemma DatedDecides(h: Host, db: Database, o: Options, schema: Schema, f: ResourceFilter, n: nat, row: Row, stored: SqlRow, args: Args)
    requires f.Dated? && Setting(h, db, o, schema, f, n, row, stored, args)
    ensures Decides(h, db, o, f, n, row, stored, args)
  {
    hide Host.Lawful, RowFits, Stores, ColumnOf, ColumnValue, Supplies, Argument;
    var column := ColumnOf(o, f.field);
    StoredColumn(h, o, schema, f, f.field, row, stored);
    SuppliedArgument(o, args, n, [Txt(f.moment)], 0);
    GuardedEval(db, column, TimeTest(o.dialect, Target(column, false), f.side, Place(o, n)), stored, args, o.offset + n);
  }

  lemma LikeDecides(h: Host, db: Database, o: Options, schema: Schema, f: ResourceFilter, n: nat, row: Row, stored: SqlRow, args: Args)
    requires f.Like? && Setting(h, db, o, schema, f, n, row, stored, args)
    ensures Decides(h, db, o, f, n, row, stored, args)
  {
    LikeVerdict(h, db, o, schema, f, n, row, stored, args);
    LikeMatches(h, f, row);
    assert h.Lawful() && Clean(f.pattern);
    hide *;
    if f.field in row {
      PatternsMatch(h, f.pattern, f.ignoreCase, LowerIf(h, f.ignoreCase, row[f.field].scalar.text));
    }
    EvaluatesTo(h, db, o, f, n, row, stored, args, FilterMatches(h, f, row));
  }

  lemma EvaluatesTo(h: Host, db: Database, o: Options, f: ResourceFilter, n: nat, row: Row, stored: SqlRow, args: Args, passes: bool)
    requires Eval(db, Compiled(h, o, f, n), stored, args, o.offset + n) == VerdictOf(passes) && FilterMatches(h, f, row) == passes
    ensures Decides(h, db, o, f, n, row, stored, args)
  {}

  lemma LikeMatches(h: Host, f: ResourceFilter, row: Row)
    requires f.Like? && (f.field in row ==> IsText(row[f.field]))
    ensures FilterMatches(h, f, row) == (f.field in row &&
              Accepts(ParseChars(Chars(LowerIf(h, f.ignoreCase, f.pattern))), Chars(LowerIf(h, f.ignoreCase, row[f.field].scalar.text))))
  {
    hide Accepts, ParseChars, Chars, LowerIf;
  }

  /** The text matched with the pattern that was bound, as the dialect reads it. */
  lemma LikeVerdict(h: Host, db: Database, o: Options, schema: Schema, f: ResourceFilter, n: nat, row: Row, stored: SqlRow, args: Args)
    requires f.Like? && Setting(h, db, o, schema, f, n, row, stored, args)
    ensures f.field in row ==> IsText(row[f.field])
    ensures Eval(db, Compiled(h, o, f, n), stored, args, o.offset + n) == VerdictOf(
              f.field in row &&
              var chars := Chars(LowerIf(h, f.ignoreCase, row[f.field].scalar.text));
              if o.dialect.Postgres? then Accepts(ParseLike(Chars(LikePattern(h, f.pattern, f.ignoreCase))), chars)
              else GlobAccepts(ParseSqliteGlob(Chars(SqliteGlob(h, f.pattern, f.ignoreCase))), chars))
  {
    hide Host.Lawful, Accepts, GlobAccepts, Chars, ParseLike, ParseSqliteGlob, ParseChars, LikePattern, SqliteGlob, Clean;
    hide RowFits, Stores, ColumnOf, ColumnValue, Supplies, Argument, LowerIf;
    var column := ColumnOf(o, f.field);
    var target := Target(column, f.ignoreCase);
    SuppliedArgument(o, args, n, Params(h, o.dialect, f), 0);
    StoredColumn(h, o, schema, f, f.field, row, stored);
    GuardedEval(db, column, if o.dialect.Postgres? then LikeText(target, Place(o, n)) else GlobText(target, Place(o, n)),
      stored, args, o.offset + n);
    if f.field in row { TargetText(h, db, o, f.field, f.ignoreCase, row, stored); }
    hide TargetValue, LowersAlike;
  }

  /** The text a test compares, as the engine does, lower-cased or as it is. */
  lemma TargetText(h: Host, db: Database, o: Options, field: Str, ignoreCase: bool, row: Row, stored: SqlRow)
    requires field in row && IsText(row[field]) && ColumnValue(stored, ColumnOf(o, field)) == Bound(o.dialect, row[field].scalar)
    requires ignoreCase ==> LowersAlike(h, db, field, row)
    ensures TargetValue(db, stored, Target(ColumnOf(o, field), ignoreCase)) == Txt(LowerIf(h, ignoreCase, row[field].scalar.text))
  {
    hide ColumnValue, ColumnOf;
  }

  // --- the whole filter -----------------------------------------------------------------------------------------

  ghost predicate SettingAll(h: Host, db: Database, o: Options, schema: Schema, fs: seq<ResourceFilter>, n: nat, row: Row, stored: SqlRow, args: Args) {
    && h.Lawful() && (forall i :: 0 <= i < |fs| ==> ReadsAlike(h, db, o.dialect, fs[i], row))
    && (forall i :: 0 <= i < |fs| ==> Expressible(o, fs[i]) && FilterFits(h, schema, fs[i]) && FilterClean(fs[i]))
    && RowFits(h, schema, row) && Stores(o, row, stored)
    && Supplies(args, o.offset + n, ParamsOfAll(h, o.dialect, fs))
  }

  /**
   * Under three-valued logic the expression is never unknown, negations included, and true exactly when the row
   * passes the filter: for both dialects, wherever the parameters start.
   */
  lemma {:induction false} CompiledDecides(h: Host, db: Database, o: Options, schema: Schema, f: ResourceFilter, n: nat, row: Row, stored: SqlRow, args: Args)
    requires Setting(h, db, o, schema, f, n, row, stored, args)
    ensures Decides(h, db, o, f, n, row, stored, args)
    decreases f, 0
  {
    hide Setting, SettingAll, Decides;
    SettingWithin(h, db, o, schema, f, n, row, stored, args);
    match f
    case True => ConstantDecides(h, db, o, schema, f, n, row, stored, args);
    case False => ConstantDecides(h, db, o, schema, f, n, row, stored, args);
    case And(filters) =>
      AllDecide(h, db, o, schema, filters, n, row, stored, args);
      JoinDecides(h, db, o, f, n, row, stored, args);
    case Or(filters) =>
      AllDecide(h, db, o, schema, filters, n, row, stored, args);
      JoinDecides(h, db, o, f, n, row, stored, args);
    case Not(filter) =>
      CompiledDecides(h, db, o, schema, filter, n, row, stored, args);
      NotDecides(h, db, o, f, n, row, stored, args);
    case Equals(_, _, _) => EqualsDecides(h, db, o, schema, f, n, row, stored, args);
    case Like(_, _, _) => LikeDecides(h, db, o, schema, f, n, row, stored, args);
    case Dated(_, _, _) => DatedDecides(h, db, o, schema, f, n, row, stored, args);
    case InNetwork(_, _) => assert false;
    case Contains(_, _) => assert false;
    case _ => AtomDecides(h, db, o, schema, f, n, row, stored, args);
  }

  lemma SettingWithin(h: Host, db: Database, o: Options, schema: Schema, f: ResourceFilter, n: nat, row: Row, stored: SqlRow, args: Args)
    requires Setting(h, db, o, schema, f, n, row, stored, args)
    ensures f.And? || f.Or? ==> SettingAll(h, db, o, schema, f.filters, n, row, stored, args)
    ensures f.Not? ==> Setting(h, db, o, schema, f.filter, n, row, stored, args)
    ensures !f.InNetwork? && !f.Contains?
  {
    hide Host.Lawful, RowFits, Stores, Supplies, ParamsOfAll, LowersAlike;
  }

  lemma ConstantDecides(h: Host, db: Database, o: Options, schema: Schema, f: ResourceFilter, n: nat, row: Row, stored: SqlRow, args: Args)
    requires f.True? || f.False?
    ensures Decides(h, db, o, f, n, row, stored, args)
  {}

  lemma JoinDecides(h: Host, db: Database, o: Options, f: ResourceFilter, n: nat, row: Row, stored: SqlRow, args: Args)
    requires f.And? || f.Or?
    requires EvalAnd(db, CompiledAll(h, o, f.filters, n), stored, args, o.offset + n) == VerdictOf(AllPass(h, f.filters, row))
    requires EvalOr(db, CompiledAll(h, o, f.filters, n), stored, args, o.offset + n) == VerdictOf(SomePasses(h, f.filters, row))
    ensures Decides(h, db, o, f, n, row, stored, args)
  {
    hide EvalAnd, EvalOr, CompiledAll;
  }

  lemma NotDecides(h: Host, db: Database, o: Options, f: ResourceFilter, n: nat, row: Row, stored: SqlRow, args: Args)
    requires f.Not? && Decides(h, db, o, f.filter, n, row, stored, args)
    ensures Decides(h, db, o, f, n, row, stored, args)
  {}

  lemma {:induction false} AllDecide(h: Host, db: Database, o: Options, schema: Schema, fs: seq<ResourceFilter>, n: nat, row: Row, stored: SqlRow, args: Args)
    requires SettingAll(h, db, o, schema, fs, n, row, stored, args)
    ensures EvalAnd(db, CompiledAll(h, o, fs, n), stored, args, o.offset + n) == VerdictOf(AllPass(h, fs, row))
    ensures EvalOr(db, CompiledAll(h, o, fs, n), stored, args, o.offset + n) == VerdictOf(SomePasses(h, fs, row))
    decreases fs, 0
  {
    hide *;
    if fs == [] {
      NoneDecide(h, db, o, n, row, stored, args);
    } else {
      SettingFirst(h, db, o, schema, fs, n, row, stored, args);
      CompiledDecides(h, db, o, schema, fs[0], n, row, stored, args);
      AllDecide(h, db, o, schema, fs[1..], n + |Params(h, o.dialect, fs[0])|, row, stored, args);
      FirstDecides(h, db, o, schema, fs, n, row, stored, args);
    }
  }

  lemma NoneDecide(h: Host, db: Database, o: Options, n: nat, row: Row, stored: SqlRow, args: Args)
    ensures EvalAnd(db, CompiledAll(h, o, [], n), stored, args, o.offset + n) == VerdictOf(AllPass(h, [], row))
    ensures EvalOr(db, CompiledAll(h, o, [], n), stored, args, o.offset + n) == VerdictOf(SomePasses(h, [], row))
  {}

  lemma SettingFirst(h: Host, db: Database, o: Options, schema: Schema, fs: seq<ResourceFilter>, n: nat, row: Row, stored: SqlRow, args: Args)
    requires SettingAll(h, db, o, schema, fs, n, row, stored, args) && fs != []
    ensures Setting(h, db, o, schema, fs[0], n, row, stored, args)
    ensures SettingAll(h, db, o, schema, fs[1..], n + |Params(h, o.dialect, fs[0])|, row, stored, args)
  {
    hide Host.Lawful, RowFits, Stores, Params, Expressible, FilterFits, FilterClean, Supplies, ReadsAlike;
    SuppliesConcat(args, o.offset + n, Params(h, o.dialect, fs[0]), ParamsOfAll(h, o.dialect, fs[1..]));
  }

  /** The first and the rest, put together. */
  lemma FirstDecides(h: Host, db: Database, o: Options, schema: Schema, fs: seq<ResourceFilter>, n: nat, row: Row, stored: SqlRow, args: Args)
    requires fs != [] && SettingAll(h, db, o, schema, fs, n, row, stored, args) && Decides(h, db, o, fs[0], n, row, stored, args)
    requires var rest, k := fs[1..], n + |Params(h, o.dialect, fs[0])|;
             && EvalAnd(db, CompiledAll(h, o, rest, k), stored, args, o.offset + k) == VerdictOf(AllPass(h, rest, row))
             && EvalOr(db, CompiledAll(h, o, rest, k), stored, args, o.offset + k) == VerdictOf(SomePasses(h, rest, row))
    ensures EvalAnd(db, CompiledAll(h, o, fs, n), stored, args, o.offset + n) == VerdictOf(AllPass(h, fs, row))
    ensures EvalOr(db, CompiledAll(h, o, fs, n), stored, args, o.offset + n) == VerdictOf(SomePasses(h, fs, row))
  {
    hide Host.Lawful, RowFits, Stores, FilterMatches, Compiled, CompiledAll, Eval, EvalAnd, EvalOr, Params, ParamsOfAll, Supplies;
    hide ReadsAlike, Expressible, FilterFits, FilterClean, AllPass, SomePasses, And3, Or3, VerdictOf;
    FirstEval(h, db, o, fs, n, stored, args);
    hide SettingAll;
    PassFirst(h, fs, row);
    Verdicts(FilterMatches(h, fs[0], row), AllPass(h, fs[1..], row));
    Verdicts(FilterMatches(h, fs[0], row), SomePasses(h, fs[1..], row));
  }

  /** The rest is evaluated where its parameters are. */
  lemma FirstEval(h: Host, db: Database, o: Options, fs: seq<ResourceFilter>, n: nat, stored: SqlRow, args: Args)
    requires fs != [] && forall i :: 0 <= i < |fs| ==> Expressible(o, fs[i])
    ensures var first, k := Eval(db, Compiled(h, o, fs[0], n), stored, args, o.offset + n), n + |Params(h, o.dialect, fs[0])|;
            var items, rest := CompiledAll(h, o, fs, n), CompiledAll(h, o, fs[1..], k);
            && EvalAnd(db, items, stored, args, o.offset + n) == And3(first, EvalAnd(db, rest, stored, args, o.offset + k))
            && EvalOr(db, items, stored, args, o.offset + n) == Or3(first, EvalOr(db, rest, stored, args, o.offset + k))
  {
    hide Compiled, Eval, Params, Expressible, And3, Or3;
    var k := n + |Params(h, o.dialect, fs[0])|;
    MarksOfCompiled(h, o, fs[0], n);
    assert CompiledAll(h, o, fs, n)[1..] == CompiledAll(h, o, fs[1..], k);
    if o.dialect.Postgres? { NumberedAll(h, db, o, fs[1..], k, stored, args, o.offset + n, o.offset + k); }
  }

  lemma Verdicts(a: bool, b: bool)
    ensures And3(VerdictOf(a), VerdictOf(b)) == VerdictOf(a && b) && Or3(VerdictOf(a), VerdictOf(b)) == VerdictOf(a || b)
  {}

  lemma PassFirst(h: Host, fs: seq<ResourceFilter>, row: Row)
    requires fs != []
    ensures AllPass(h, fs, row) <==> FilterMatches(h, fs[0], row) && AllPass(h, fs[1..], row)
    ensures SomePasses(h, fs, row) <==> FilterMatches(h, fs[0], row) || SomePasses(h, fs[1..], row)
  {
    hide FilterMatches;
    assert fs == [fs[0]] + fs[1..];
    AllPassConcat(h, [fs[0]], fs[1..], row);
    SomePassesConcat(h, [fs[0]], fs[1..], row);
    SinglePass(h, fs[0], row);
  }

  /** With numbered placeholders the position does not matter. */
  lemma {:induction false} NumberedAll(h: Host, db: Database, o: Options, fs: seq<ResourceFilter>, n: nat, stored: SqlRow, args: Args, a: nat, b: nat)
    requires o.dialect.Postgres? && forall i :: 0 <= i < |fs| ==> Expressible(o, fs[i])
    ensures var items := CompiledAll(h, o, fs, n);
            && EvalAnd(db, items, stored, args, a) == EvalAnd(db, items, stored, args, b)
            && EvalOr(db, items, stored, args, a) == EvalOr(db, items, stored, args, b)
    decreases fs, 0
  {
    hide Compiled, Eval, Params, Expressible;
    if fs != [] {
      NumberedOne(h, db, o, fs[0], n, stored, args, a, b);
      MarksOfCompiled(h, o, fs[0], n);
      NumberedAll(h, db, o, fs[1..], n + |Params(h, o.dialect, fs[0])|, stored, args, a, b);
    }
  }

  lemma {:induction false} NumberedOne(h: Host, db: Database, o: Options, f: ResourceFilter, n: nat, stored: SqlRow, args: Args, a: nat, b: nat)
    requires o.dialect.Postgres? && Expressible(o, f)
    ensures Eval(db, Compiled(h, o, f, n), stored, args, a) == Eval(db, Compiled(h, o, f, n), stored, args, b)
    decreases f, 0
  {
    if f.And? {
      NumberedAll(h, db, o, f.filters, n, stored, args, a, b);
    } else if f.Or? {
      NumberedAll(h, db, o, f.filters, n, stored, args, a, b);
    } else if f.Not? {
      NumberedOne(h, db, o, f.filter, n, stored, args, a, b);
    } else {
      NumberedAtom(h, db, o, f, n, stored, args, a, b);
    }
  }

  lemma NumberedAtom(h: Host, db: Database, o: Options, f: ResourceFilter, n: nat, stored: SqlRow, args: Args, a: nat, b: nat)
    requires o.dialect.Postgres? && !f.And? && !f.Or? && !f.Not?
    ensures Eval(db, Compiled(h, o, f, n), stored, args, a) == Eval(db, Compiled(h, o, f, n), stored, args, b)
  {
    hide ParseLike, Accepts, Chars, ColumnValue, TimeVerdict, TargetValue, ColumnOf, GlobAccepts, ParseSqliteGlob, Params, InVerdict;
    var e := Compiled(h, o, f, n);
    if e.Both? {
      GuardedEval(db, e.left.column, e.right, stored, args, a);
      GuardedEval(db, e.left.column, e.right, stored, args, b);
      if f.Equals? {
        assert forall i :: 0 <= i < |f.values| ==> Places(o, n, |f.values|)[i] == Place(o, n + i);
        PositionIrrelevant(TargetValue(db, stored, e.right.target), e.right.list, args, a, b);
      }
    }
  }

  ghost predicate DecidesBoth(h: Host, db: Database, o: Options, f: ResourceFilter, n: nat, row: Row, stored: SqlRow, args: Args) {
    Decides(h, db, o, f, n, row, stored, args) && Decides(h, db, o, Not(f), n, row, stored, args)
  }

  /** The arguments of a filter alone, behind as many as come before it. */
  function Alone(h: Host, o: Options, f: ResourceFilter): (args: Args)
    ensures Supplies(args, o.offset, Params(h, o.dialect, f))
  {
    var before := seq(o.offset, _ => Null);
    assert (before + Params(h, o.dialect, f))[o.offset..] == Params(h, o.dialect, f);
    before + Params(h, o.dialect, f)
  }

  /** A test alone and its negation: both are the filter's answers. */
  ghost predicate Right(h: Host, db: Database, o: Options, f: ResourceFilter, row: Row, stored: SqlRow) {
    DecidesBoth(h, db, o, f, 0, row, stored, Alone(h, o, f))
  }

  // --- what the database makes of texts ------------------------------------------------------------------------

  /** A comparison without regard to case, as the database makes it. */
  lemma CaseTest(h: Host, db: Database, o: Options, field: Str, text: Str, row: Row, stored: SqlRow)
    requires field in o.columns && Stores(o, row, stored) && field in row && IsText(row[field])
    ensures Right(h, db, o, Equals(field, [String(text)], true), row, stored) <==>
            (db.lower(row[field].scalar.text) == h.lower(text) <==> h.lower(row[field].scalar.text) == h.lower(text))
  {
    var f := Equals(field, [String(text)], true);
    CaseVerdict(h, db, o, field, text, row, stored, Alone(h, o, f));
    OneEquals(h, field, text, row);
    var passes := FilterMatches(h, f, row);
    assert FilterMatches(h, Not(f), row) == !passes;
    hide Alone, FilterMatches, Compiled, Eval;
  }

  /** What the comparison and its negation evaluate to. */
  lemma CaseVerdict(h: Host, db: Database, o: Options, field: Str, text: Str, row: Row, stored: SqlRow, args: Args)
    requires field in o.columns && Stores(o, row, stored) && field in row && IsText(row[field])
    requires Supplies(args, o.offset, Params(h, o.dialect, Equals(field, [String(text)], true)))
    ensures var f, equal := Equals(field, [String(text)], true), db.lower(row[field].scalar.text) == h.lower(text);
            && Eval(db, Compiled(h, o, f, 0), stored, args, o.offset) == VerdictOf(equal)
            && Eval(db, Compiled(h, o, Not(f), 0), stored, args, o.offset) == VerdictOf(!equal)
  {
    var f := Equals(field, [String(text)], true);
    var column, list := ColumnOf(o, field), Places(o, 0, 1);
    var test := InList(Target(column, true), list);
    var bound := Txt(h.lower(text));
    assert Params(h, o.dialect, f) == [bound];
    SuppliedArgument(o, args, 0, [bound], 0);
    hide Supplies, Argument, Places;
    OnePlace(o, Txt(db.lower(row[field].scalar.text)), args);
    hide InVerdict;
    GuardedEval(db, column, test, stored, args, o.offset);
    assert Compiled(h, o, f, 0) == Guarded(column, test);
    assert ColumnValue(stored, column) == Txt(row[field].scalar.text);
    assert Eval(db, Compiled(h, o, Not(f), 0), stored, args, o.offset) == Not3(Eval(db, Compiled(h, o, f, 0), stored, args, o.offset));
  }

  lemma OnePlace(o: Options, v: SqlValue, args: Args)
    requires !v.Null? && !Argument(args, Place(o, 0), o.offset).Null?
    ensures InVerdict(v, Places(o, 0, 1), args, o.offset) == VerdictOf(v == Argument(args, Place(o, 0), o.offset))
  {
    hide Argument;
    assert Places(o, 0, 1) == [Place(o, 0)] && Places(o, 0, 1)[1..] == [];
  }

  lemma OneEquals(h: Host, field: Str, text: Str, row: Row)
    requires field in row && IsText(row[field])
    ensures FilterMatches(h, Equals(field, [String(text)], true), row) <==> h.lower(row[field].scalar.text) == h.lower(text)
  {
    assert [String(text)][0] == String(text);
  }

  /**
   * For every text at once: tests without regard to case, and their negations, are right exactly when the database
   * lower-cases the row's text as the host does.
   */
  lemma CaseExactIff(h: Host, db: Database, o: Options, field: Str, row: Row, stored: SqlRow)
    requires field in o.columns && Stores(o, row, stored) && field in row && IsText(row[field])
    ensures (forall text :: Right(h, db, o, Equals(field, [String(text)], true), row, stored)) <==> LowersAlike(h, db, field, row)
  {
    hide Right, Stores;
    forall text
      ensures Right(h, db, o, Equals(field, [String(text)], true), row, stored) <==>
              (db.lower(row[field].scalar.text) == h.lower(text) <==> h.lower(row[field].scalar.text) == h.lower(text))
    { CaseTest(h, db, o, field, text, row, stored); }
    assert Right(h, db, o, Equals(field, [String(row[field].scalar.text)], true), row, stored) <==> LowersAlike(h, db, field, row);
  }

  /**
   * One test of a date in a column that may hold any text: right where the row has no date, or where the database reads
   * it and compares it as the engine does. Text it cannot read makes the test and its negation NULL in SQLite, so that a
   * negation loses the row, and fails the statement in PostgreSQL.
   */
  lemma DateTest(h: Host, db: Database, o: Options, f: ResourceFilter, n: nat, row: Row, stored: SqlRow, args: Args)
    requires f.Dated? && Expressible(o, f) && Stores(o, row, stored)
    requires h.timestamp(f.moment).Some? && db.Moment(o.dialect, f.moment) == h.timestamp(f.moment)
    requires Supplies(args, o.offset + n, Params(h, o.dialect, f))
    requires f.field in row ==> IsText(row[f.field])
    ensures DecidesBoth(h, db, o, f, n, row, stored, args) <==>
            f.field !in row ||
            var read, moment := db.Moment(o.dialect, row[f.field].scalar.text), h.timestamp(f.moment).value;
            read.Some? && (OnSide(f.side, read.value, moment) <==> FilterMatches(h, f, row))
    ensures f.field in row && db.Moment(o.dialect, row[f.field].scalar.text).None? ==>
              var verdict := if o.dialect.Postgres? then Failed else Unknown;
              && Eval(db, Compiled(h, o, f, n), stored, args, o.offset + n) == verdict
              && Eval(db, Compiled(h, o, Not(f), n), stored, args, o.offset + n) == verdict
  {
    var verdict := DateVerdict(h, db, o, f, n, row, stored, args);
    var passes := FilterMatches(h, f, row);
    assert f.field !in row ==> !passes;
    assert FilterMatches(h, Not(f), row) == !passes;
    hide Supplies, Stores, Compiled, Eval, OnSide, FilterMatches;
    assert Decides(h, db, o, f, n, row, stored, args) <==> verdict == VerdictOf(passes);
    assert Decides(h, db, o, Not(f), n, row, stored, args) <==> Not3(verdict) == VerdictOf(!passes);
  }

  /** What the test and its negation evaluate to. */
  lemma DateVerdict(h: Host, db: Database, o: Options, f: ResourceFilter, n: nat, row: Row, stored: SqlRow, args: Args)
    returns (verdict: Verdict)
    requires f.Dated? && Expressible(o, f) && Stores(o, row, stored)
    requires h.timestamp(f.moment).Some? && db.Moment(o.dialect, f.moment) == h.timestamp(f.moment)
    requires Supplies(args, o.offset + n, Params(h, o.dialect, f))
    requires f.field in row ==> IsText(row[f.field])
    ensures Eval(db, Compiled(h, o, f, n), stored, args, o.offset + n) == verdict
    ensures Eval(db, Compiled(h, o, Not(f), n), stored, args, o.offset + n) == Not3(verdict)
    ensures verdict == if f.field !in row then No
                       else
                         var read := db.Moment(o.dialect, row[f.field].scalar.text);
                         if read.None? then (if o.dialect.Postgres? then Failed else Unknown)
                         else VerdictOf(OnSide(f.side, read.value, h.timestamp(f.moment).value))
  {
    var column := ColumnOf(o, f.field);
    var test := TimeTest(o.dialect, Target(column, false), f.side, Place(o, n));
    SuppliedArgument(o, args, n, [Txt(f.moment)], 0);
    hide Supplies, Argument, OnSide;
    GuardedEval(db, column, test, stored, args, o.offset + n);
    assert Compiled(h, o, f, n) == Guarded(column, test);
    verdict := Eval(db, Compiled(h, o, f, n), stored, args, o.offset + n);
    assert Eval(db, Compiled(h, o, Not(f), n), stored, args, o.offset + n) == Not3(verdict);
  }

  /** A text that the engine and the database read as this moment. */
  predicate TextOf(h: Host, db: Database, d: Dialect, text: Str, moment: int) {
    h.timestamp(text) == Some(moment) && db.Moment(d, text) == Some(moment)
  }

  ghost predicate Sayable(h: Host, db: Database, d: Dialect, moment: int) { exists text :: TextOf(h, db, d, text, moment) }

  predicate EngineSide(h: Host, side: Side, text: Str, moment: int) {
    h.timestamp(text).Some? && OnSide(side, h.timestamp(text).value, moment)
  }

  /** With a moment both read alike, the row's date is tested rightly when it is read, and on the same side. */
  lemma OneDate(h: Host, db: Database, o: Options, field: Str, side: Side, text: Str, moment: int, row: Row, stored: SqlRow)
    requires field in o.columns && Stores(o, row, stored) && field in row && IsText(row[field])
    requires TextOf(h, db, o.dialect, text, moment)
    ensures var read := db.Moment(o.dialect, row[field].scalar.text);
            Right(h, db, o, Dated(field, side, text), row, stored) <==>
            read.Some? && (OnSide(side, read.value, moment) <==> EngineSide(h, side, row[field].scalar.text, moment))
  {
    var f := Dated(field, side, text);
    hide DecidesBoth, Stores, Supplies, Alone;
    DateTest(h, db, o, f, 0, row, stored, Alone(h, o, f));
  }

  /** Every date test on this row is right, before and after every moment the engine and the database read alike. */
  ghost predicate DatesRight(h: Host, db: Database, o: Options, field: Str, row: Row, stored: SqlRow) {
    forall side, text, moment :: TextOf(h, db, o.dialect, text, moment) ==> Right(h, db, o, Dated(field, side, text), row, stored)
  }

  /**
   * For all moments at once: date tests and their negations are right on a row with a date exactly when the engine reads
   * it and the database reads it as the same moment; as long as there are texts for that moment, and for two at all,
   * that both read alike.
   */
  lemma DateExactIff(h: Host, db: Database, o: Options, field: Str, row: Row, stored: SqlRow)
    requires field in o.columns && Stores(o, row, stored) && field in row && IsText(row[field])
    requires exists a, b :: a != b && Sayable(h, db, o.dialect, a) && Sayable(h, db, o.dialect, b)
    requires h.timestamp(row[field].scalar.text).Some? ==> Sayable(h, db, o.dialect, h.timestamp(row[field].scalar.text).value)
    ensures DatesRight(h, db, o, field, row, stored) <==>
            var date := row[field].scalar.text;
            h.timestamp(date).Some? && db.Moment(o.dialect, date) == h.timestamp(date)
  {
    hide Right, Stores;
    var date := row[field].scalar.text;
    var read := db.Moment(o.dialect, date);
    if h.timestamp(date).Some? && read == h.timestamp(date) {
      forall side, text, moment | TextOf(h, db, o.dialect, text, moment)
        ensures Right(h, db, o, Dated(field, side, text), row, stored)
      { OneDate(h, db, o, field, side, text, moment, row, stored); }
    }
    if DatesRight(h, db, o, field, row, stored) {
      hide Sayable;
      var a, b :| a != b && Sayable(h, db, o.dialect, a) && Sayable(h, db, o.dialect, b);
      ReadAs(h, db, o, field, a, row, stored);
      ReadAs(h, db, o, field, b, row, stored);
      if h.timestamp(date).Some? { ReadAs(h, db, o, field, h.timestamp(date).value, row, stored); }
    }
  }

  /** What tests around one moment say of the date: it is read; as that moment, if for the engine it is that or none. */
  lemma ReadAs(h: Host, db: Database, o: Options, field: Str, moment: int, row: Row, stored: SqlRow)
    requires field in o.columns && Stores(o, row, stored) && field in row && IsText(row[field])
    requires Sayable(h, db, o.dialect, moment) && DatesRight(h, db, o, field, row, stored)
    ensures var date := row[field].scalar.text;
            && db.Moment(o.dialect, date).Some?
            && (h.timestamp(date).None? || h.timestamp(date).value == moment ==> db.Moment(o.dialect, date).value == moment)
  {
    hide Right, Stores;
    var text :| TextOf(h, db, o.dialect, text, moment);
    OneDate(h, db, o, field, Before, text, moment, row, stored);
    OneDate(h, db, o, field, After, text, moment, row, stored);
    assert Right(h, db, o, Dated(field, Before, text), row, stored) && Right(h, db, o, Dated(field, After, text), row, stored);
  }

  /** The expression as a WHERE clause, its parameters behind those of the surrounding query. */
  lemma SelectsMatching(h: Host, db: Database, o: Options, schema: Schema, f: ResourceFilter, row: Row, stored: SqlRow, before: Args)
    requires h.Lawful() && ReadsAlike(h, db, o.dialect, f, row) && Expressible(o, f) && FilterFits(h, schema, f) && FilterClean(f)
    requires RowFits(h, schema, row) && Stores(o, row, stored) && |before| == o.offset
    ensures Eval(db, Compiled(h, o, f, 0), stored, before + Params(h, o.dialect, f), |before|) ==
            VerdictOf(FilterMatches(h, f, row))
  {
    hide Host.Lawful, FilterFits, FilterClean, Expressible, RowFits, Stores, Params, ReadsAlike, Eval, Compiled, FilterMatches;
    var args := before + Params(h, o.dialect, f);
    assert args[|before|..|args|] == Params(h, o.dialect, f);
    CompiledDecides(h, db, o, schema, f, 0, row, stored, args);
  }

  // --- shape -------------------------------------------------------------------------------------------------------

  /** No empty list anywhere, so the text is an expression, and no constant inside another expression. */
  predicate WellFormed(e: Expr) {
    match e
    case Constant(_) => false
    case AndAll(items) => items != [] && forall i :: 0 <= i < |items| ==> WellFormed(items[i])
    case OrAny(items) => items != [] && forall i :: 0 <= i < |items| ==> WellFormed(items[i])
    case Negate(item) => WellFormed(item)
    case Both(left, right) => WellFormed(left) && WellFormed(right)
    case InList(_, list) => list != []
    case _ => true
  }

  lemma {:induction false} InnerWellFormed(h: Host, o: Options, f: ResourceFilter, n: nat)
    requires Inner(f) && Expressible(o, f)
    ensures WellFormed(Compiled(h, o, f, n))
    decreases f, 0
  {
    match f
    case And(filters) => AllWellFormed(h, o, filters, n);
    case Or(filters) => AllWellFormed(h, o, filters, n);
    case Not(filter) => InnerWellFormed(h, o, filter, n);
    case _ =>
  }

  lemma {:induction false} AllWellFormed(h: Host, o: Options, fs: seq<ResourceFilter>, n: nat)
    requires forall i :: 0 <= i < |fs| ==> Inner(fs[i]) && Expressible(o, fs[i])
    ensures forall i :: 0 <= i < |fs| ==> WellFormed(CompiledAll(h, o, fs, n)[i])
    decreases fs, 0
  {
    hide Inner, Expressible, Compiled, WellFormed, Params;
    if fs != [] {
      InnerWellFormed(h, o, fs[0], n);
      AllWellFormed(h, o, fs[1..], n + |Params(h, o.dialect, fs[0])|);
    }
  }

  /** A plan compiles to a constant or to a well-formed expression without constants. */
  lemma PlannedWellFormed(h: Host, o: Options, f: ResourceFilter, n: nat)
    requires Planned(f) && Expressible(o, f)
    ensures Compiled(h, o, f, n).Constant? || WellFormed(Compiled(h, o, f, n))
  {
    if Inner(f) { InnerWellFormed(h, o, f, n); }
  }
}
