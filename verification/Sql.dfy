/** Filters as parameterised SQL expressions, and what those mean under three-valued logic. */
module Sql {
  import opened Wrappers
  import opened Text
  import opened Glob
  import opened Patterns
  import opened Policy
  import opened Filter
  import opened Residual

  datatype Dialect = Postgres | Sqlite
  datatype SqlValue = Null | Truth(flag: bool) | Num(value: real) | Txt(text: Str)

  /** A numbered placeholder `$n`, or the next positional one `?`. */
  datatype Placeholder = Numbered(n: nat) | Positional

  /** A column, as it is or through LOWER. */
  datatype Target = Target(column: Str, lowered: bool)

  datatype Expr =
    | Constant(value: bool)
    | AndAll(items: seq<Expr>)
    | OrAny(items: seq<Expr>)
    | Negate(item: Expr)
    | IsNotNull(column: Str)
    | Both(left: Expr, right: Expr)
    | InList(target: Target, list: seq<Placeholder>)
    | Compares(target: Target, comparison: Comparison, arg: Placeholder)
    | LikeText(target: Target, pattern: Placeholder)
    | GlobText(target: Target, pattern: Placeholder)
    | JulianDays(target: Target, side: Side, arg: Placeholder)
    | Instants(target: Target, side: Side, arg: Placeholder)

  datatype Options = Options(dialect: Dialect, columns: map<Str, Str>, offset: nat)

  // --- LIKE and GLOB ---------------------------------------------------------------------------------

  const PERCENT: Str := [37]
  const UNDERSCORE: Str := [95]
  const OPEN: Str := [91]
  const CLOSE: Str := [93]
  const CARET: Str := [94]

  /** LIKE with `\` as its escape: `%` any run, `_` any character. */
  function ParseLike(cs: seq<Str>): seq<Token> {
    if cs == [] then []
    else if cs[0] == BACKSLASH && |cs| >= 2 then [Char(cs[1])] + ParseLike(cs[2..])
    else [if cs[0] == PERCENT then Star else if cs[0] == UNDERSCORE then Any else Char(cs[0])] + ParseLike(cs[1..])
  }

  datatype GlobPart = AnyRun | AnyOne | OneOf(negated: bool, members: set<Str>) | Plainly(value: Str)

  /** The members of a character class up to its `]`, which is a member itself when it comes first. */
  function ParseClass(cs: seq<Str>, first: bool): (r: (set<Str>, seq<Str>))
    ensures |r.1| <= |cs|
  {
    if cs == [] then ({}, [])
    else if cs[0] == CLOSE && !first then ({}, cs[1..])
    else
      var more := ParseClass(cs[1..], false);
      ({cs[0]} + more.0, more.1)
  }

  /** SQLite's GLOB: `*`, `?` and character classes; a backslash is an ordinary character. */
  function ParseSqliteGlob(cs: seq<Str>): seq<GlobPart>
    decreases |cs|
  {
    if cs == [] then []
    else if cs[0] == STAR then [AnyRun] + ParseSqliteGlob(cs[1..])
    else if cs[0] == QUESTION then [AnyOne] + ParseSqliteGlob(cs[1..])
    else if cs[0] == OPEN then
      var negated := |cs| >= 2 && cs[1] == CARET;
      var parsed := ParseClass(if negated then cs[2..] else cs[1..], true);
      [OneOf(negated, parsed.0)] + ParseSqliteGlob(parsed.1)
    else [Plainly(cs[0])] + ParseSqliteGlob(cs[1..])
  }

  predicate GlobAccepts(parts: seq<GlobPart>, cs: seq<Str>)
    decreases |parts|, |cs|
  {
    if parts == [] then cs == []
    else match parts[0]
      case AnyRun => GlobAccepts(parts[1..], cs) || (cs != [] && GlobAccepts(parts, cs[1..]))
      case AnyOne => cs != [] && GlobAccepts(parts[1..], cs[1..])
      case OneOf(negated, members) => cs != [] && (cs[0] in members) != negated && GlobAccepts(parts[1..], cs[1..])
      case Plainly(value) => cs != [] && cs[0] == value && GlobAccepts(parts[1..], cs[1..])
  }

  function LikeTokenText(token: Token): Str {
    match token
    case Star => PERCENT
    case Any => UNDERSCORE
    case Char(c) => if c == PERCENT || c == UNDERSCORE || c == BACKSLASH then BACKSLASH + c else c
  }

  function GlobTokenText(token: Token): Str {
    match token
    case Star => STAR
    case Any => QUESTION
    case Char(c) => if c == STAR || c == QUESTION || c == OPEN then OPEN + c + CLOSE else c
  }

  function LikeTokensText(tokens: seq<Token>): Str {
    if tokens == [] then [] else LikeTokenText(tokens[0]) + LikeTokensText(tokens[1..])
  }

  function GlobTokensText(tokens: seq<Token>): Str {
    if tokens == [] then [] else GlobTokenText(tokens[0]) + GlobTokensText(tokens[1..])
  }

  /** `likePattern` and `sqliteGlob`. */
  function LikePattern(h: Host, pattern: Str, lower: bool): Str {
    LikeTokensText(ParseChars(Chars(LowerIf(h, lower, pattern))))
  }

  function SqliteGlob(h: Host, pattern: Str, lower: bool): Str {
    GlobTokensText(ParseChars(Chars(LowerIf(h, lower, pattern))))
  }

  // --- compiling -------------------------------------------------------------------------------------

  function Bound(d: Dialect, v: Scalar): SqlValue {
    match v
    case String(s) => Txt(s)
    case Number(n) => Num(n)
    case Boolean(b) => if d.Sqlite? then Num(if b then 1.0 else 0.0) else Truth(b)
  }

  /** A listed value as it is bound: texts lower-cased when case is ignored. */
  function BoundCase(h: Host, d: Dialect, v: Scalar, ignoreCase: bool): SqlValue {
    Bound(d, if ignoreCase && v.String? then String(h.lower(v.text)) else v)
  }

  /** The parameters a filter binds, in order. */
  function Params(h: Host, d: Dialect, f: ResourceFilter): seq<SqlValue>
    decreases f, 0
  {
    match f
    case And(filters) => ParamsOfAll(h, d, filters)
    case Or(filters) => ParamsOfAll(h, d, filters)
    case Not(filter) => Params(h, d, filter)
    case Equals(_, values, ignoreCase) =>
      BoundValues(h, d, values, ignoreCase)
    case Compared(_, _, value) => [Num(value)]
    case Like(_, pattern, ignoreCase) =>
      [Txt(if d.Postgres? then LikePattern(h, pattern, ignoreCase) else SqliteGlob(h, pattern, ignoreCase))]
    case Dated(_, _, moment) => [Txt(moment)]
    case _ => []
  }

  function ParamsOfAll(h: Host, d: Dialect, fs: seq<ResourceFilter>): seq<SqlValue>
    decreases fs, 0
  {
    if fs == [] then [] else Params(h, d, fs[0]) + ParamsOfAll(h, d, fs[1..])
  }

  function Place(o: Options, n: nat): Placeholder {
    if o.dialect.Postgres? then Numbered(o.offset + n + 1) else Positional
  }

  function Places(o: Options, n: nat, count: nat): (r: seq<Placeholder>)
    ensures |r| == count
  {
    seq(count, i requires 0 <= i < count => Place(o, n + i))
  }

  function BoundValues(h: Host, d: Dialect, values: seq<Scalar>, ignoreCase: bool): (r: seq<SqlValue>)
    ensures |r| == |values|
  {
    seq(|values|, i requires 0 <= i < |values| => BoundCase(h, d, values[i], ignoreCase))
  }

  function ColumnOf(o: Options, field: Str): Str { if field in o.columns then o.columns[field] else [] }

  /** A comparison of moments: `julianday` in SQLite, casts to `timestamptz` in PostgreSQL. */
  function TimeTest(d: Dialect, target: Target, side: Side, arg: Placeholder): Expr {
    if d.Postgres? then Instants(target, side, arg) else JulianDays(target, side, arg)
  }

  function Guarded(column: Str, predicate_: Expr): Expr { Both(IsNotNull(column), predicate_) }

  /** The expression of a filter whose first parameter is the `n`-th. */
  function Compiled(h: Host, o: Options, f: ResourceFilter, n: nat): Expr
    decreases f, 0
  {
    match f
    case True => Constant(true)
    case False => Constant(false)
    case And(filters) => AndAll(CompiledAll(h, o, filters, n))
    case Or(filters) => OrAny(CompiledAll(h, o, filters, n))
    case Not(filter) => Negate(Compiled(h, o, filter, n))
    case Present(field) => IsNotNull(ColumnOf(o, field))
    case HasType(field, _) => IsNotNull(ColumnOf(o, field))
    case Equals(field, values, ignoreCase) =>
      Guarded(ColumnOf(o, field), InList(Target(ColumnOf(o, field), ignoreCase),
        Places(o, n, |values|)))
    case Compared(field, comparison, _) =>
      Guarded(ColumnOf(o, field), Compares(Target(ColumnOf(o, field), false), comparison, Place(o, n)))
    case Like(field, _, ignoreCase) =>
      var target := Target(ColumnOf(o, field), ignoreCase);
      Guarded(ColumnOf(o, field),
        if o.dialect.Postgres? then LikeText(target, Place(o, n)) else GlobText(target, Place(o, n)))
    case Dated(field, side, _) =>
      Guarded(ColumnOf(o, field), TimeTest(o.dialect, Target(ColumnOf(o, field), false), side, Place(o, n)))
    case InNetwork(_, _) => Constant(false)
    case Contains(_, _) => Constant(false)
  }

  function CompiledAll(h: Host, o: Options, fs: seq<ResourceFilter>, n: nat): (r: seq<Expr>)
    ensures |r| == |fs|
    decreases fs, 0
  {
    if fs == [] then []
    else [Compiled(h, o, fs[0], n)] + CompiledAll(h, o, fs[1..], n + |Params(h, o.dialect, fs[0])|)
  }

  /** Filters the target can express: no address or list atom, and a column for every field. */
  predicate Expressible(o: Options, f: ResourceFilter) {
    match f
    case True | False => true
    case And(filters) => forall i :: 0 <= i < |filters| ==> Expressible(o, filters[i])
    case Or(filters) => forall i :: 0 <= i < |filters| ==> Expressible(o, filters[i])
    case Not(filter) => Expressible(o, filter)
    case HasType(field, kind) => !kind.AddressType? && field in o.columns
    case InNetwork(_, _) | Contains(_, _) => false
    case _ => f.field in o.columns
  }

  datatype Refusal = NoColumn | Unsupported

  /** The atoms of a filter, in the order in which they are written. */
  function Atoms(f: ResourceFilter): seq<ResourceFilter>
    decreases f, 0
  {
    match f
    case And(filters) => AtomsOfAll(filters)
    case Or(filters) => AtomsOfAll(filters)
    case Not(filter) => Atoms(filter)
    case _ => [f]
  }

  function AtomsOfAll(fs: seq<ResourceFilter>): seq<ResourceFilter>
    decreases fs, 0
  {
    if fs == [] then [] else Atoms(fs[0]) + AtomsOfAll(fs[1..])
  }

  /** Why an atom has no SQL: addresses and lists never have, and other fields need a column. */
  function RefusalOf(o: Options, atom: ResourceFilter): Option<Refusal> {
    if atom.InNetwork? || atom.Contains? || (atom.HasType? && atom.kind.AddressType?) then Some(Unsupported)
    else if atom.True? || atom.False? || atom.And? || atom.Or? || atom.Not? || atom.field in o.columns then None
    else Some(NoColumn)
  }

  /** The first atom that is refused says why the filter is. */
  function FirstRefusal(o: Options, atoms: seq<ResourceFilter>): Option<Refusal> {
    if atoms == [] then None
    else if RefusalOf(o, atoms[0]).Some? then RefusalOf(o, atoms[0])
    else FirstRefusal(o, atoms[1..])
  }

  lemma {:induction false} FirstOfBoth(o: Options, a: seq<ResourceFilter>, b: seq<ResourceFilter>)
    ensures FirstRefusal(o, a + b) == if FirstRefusal(o, a).Some? then FirstRefusal(o, a) else FirstRefusal(o, b)
  {
    hide RefusalOf;
    if a == [] {
      assert a + b == b;
    } else {
      assert (a + b)[0] == a[0] && (a + b)[1..] == a[1..] + b;
      FirstOfBoth(o, a[1..], b);
    }
  }

  lemma OneAtom(o: Options, atom: ResourceFilter)
    ensures FirstRefusal(o, [atom]) == RefusalOf(o, atom)
  {
    hide RefusalOf;
    assert [atom][1..] == [];
  }

  /** A filter has SQL exactly when each of its atoms has. */
  lemma {:induction false} ExpressibleExactly(o: Options, f: ResourceFilter)
    ensures Expressible(o, f) <==> FirstRefusal(o, Atoms(f)).None?
    decreases f, 0
  {
    hide FirstRefusal;
    match f
    case And(filters) => ExpressibleAll(o, filters);
    case Or(filters) => ExpressibleAll(o, filters);
    case Not(filter) => ExpressibleExactly(o, filter);
    case _ => OneAtom(o, f);
  }

  lemma {:induction false} ExpressibleAll(o: Options, fs: seq<ResourceFilter>)
    ensures (forall i :: 0 <= i < |fs| ==> Expressible(o, fs[i])) <==> FirstRefusal(o, AtomsOfAll(fs)).None?
    decreases fs, 0
  {
    hide Expressible, Atoms;
    if fs != [] {
      ExpressibleExactly(o, fs[0]);
      ExpressibleAll(o, fs[1..]);
      FirstOfBoth(o, Atoms(fs[0]), AtomsOfAll(fs[1..]));
      assert forall i :: 0 < i < |fs| ==> fs[i] == fs[1..][i - 1];
    }
  }
  datatype Result<T> = Ok(value: T) | Err(error: Refusal)

  /** `filterToSql` as it runs: expressions are returned, parameters pile up. */
  class Compiler {
    const h: Host
    const o: Options
    var params: seq<SqlValue>

    constructor (host: Host, options: Options)
      ensures h == host && o == options && params == []
    {
      h, o, params := host, options, [];
    }

    method Bind(v: SqlValue) returns (place: Placeholder)
      modifies this
      ensures params == old(params) + [v] && place == Place(o, |old(params)|)
    {
      params := params + [v];
      place := if o.dialect.Postgres? then Numbered(o.offset + |params|) else Positional;
    }

    method Compile(f: ResourceFilter) returns (r: Result<Expr>)
      modifies this
      ensures r.Ok? <==> Expressible(o, f)
      ensures r.Err? ==> FirstRefusal(o, Atoms(f)) == Some(r.error)
      ensures r.Ok? ==> r.value == Compiled(h, o, f, |old(params)|)
      ensures r.Ok? ==> params == old(params) + Params(h, o.dialect, f)
      decreases f, 1
    {
      hide LikePattern, SqliteGlob;
      OneAtom(o, f);
      hide FirstRefusal;
      match f {
        case True => r := Ok(Constant(true));
        case False => r := Ok(Constant(false));
        case And(filters) =>
          var items := CompileAll(filters);
          if items.Err? { return Err(items.error); }
          r := Ok(AndAll(items.value));
        case Or(filters) =>
          var items := CompileAll(filters);
          if items.Err? { return Err(items.error); }
          r := Ok(OrAny(items.value));
        case Not(filter) =>
          var item := Compile(filter);
          if item.Err? { return Err(item.error); }
          r := Ok(Negate(item.value));
        case InNetwork(_, _) => r := Err(Unsupported);
        case Contains(_, _) => r := Err(Unsupported);
        case HasType(field, kind) =>
          if kind.AddressType? { return Err(Unsupported); }
          if field !in o.columns { return Err(NoColumn); }
          r := Ok(IsNotNull(o.columns[field]));
        case Present(field) =>
          if field !in o.columns { return Err(NoColumn); }
          r := Ok(IsNotNull(o.columns[field]));
        case Equals(field, values, ignoreCase) =>
          if field !in o.columns { return Err(NoColumn); }
          var places := BindAll(values, ignoreCase);
          assert places == Places(o, |old(params)|, |values|);
          r := Ok(Guarded(o.columns[field], InList(Target(o.columns[field], ignoreCase), places)));
        case Compared(field, comparison, value) =>
          if field !in o.columns { return Err(NoColumn); }
          var place := Bind(Num(value));
          r := Ok(Guarded(o.columns[field], Compares(Target(o.columns[field], false), comparison, place)));
        case Like(field, pattern, ignoreCase) =>
          if field !in o.columns { return Err(NoColumn); }
          var text := if o.dialect.Postgres? then LikePattern(h, pattern, ignoreCase) else SqliteGlob(h, pattern, ignoreCase);
          var place := Bind(Txt(text));
          var target := Target(o.columns[field], ignoreCase);
          r := Ok(Guarded(o.columns[field], if o.dialect.Postgres? then LikeText(target, place) else GlobText(target, place)));
        case Dated(field, side, moment) =>
          if field !in o.columns { return Err(NoColumn); }
          var place := Bind(Txt(moment));
          var target := Target(o.columns[field], false);
          r := Ok(Guarded(o.columns[field],
            if o.dialect.Postgres? then Instants(target, side, place) else JulianDays(target, side, place)));
      }
    }

    method CompileAll(fs: seq<ResourceFilter>) returns (r: Result<seq<Expr>>)
      modifies this
      ensures r.Ok? <==> forall i :: 0 <= i < |fs| ==> Expressible(o, fs[i])
      ensures r.Err? ==> FirstRefusal(o, AtomsOfAll(fs)) == Some(r.error)
      ensures r.Ok? ==> r.value == CompiledAll(h, o, fs, |old(params)|)
      ensures r.Ok? ==> params == old(params) + ParamsOfAll(h, o.dialect, fs)
      decreases fs, 1
    {
      hide Expressible, Params, Compiled, FirstRefusal, Atoms;
      if fs == [] { return Ok([]); }
      FirstOfBoth(o, Atoms(fs[0]), AtomsOfAll(fs[1..]));
      ExpressibleExactly(o, fs[0]);
      var first := Compile(fs[0]);
      if first.Err? { return Err(first.error); }
      var rest := CompileAll(fs[1..]);
      assert forall i :: 0 < i < |fs| ==> fs[i] == fs[1..][i - 1];
      if rest.Err? { return Err(rest.error); }
      ghost var a, b, c := old(params), Params(h, o.dialect, fs[0]), ParamsOfAll(h, o.dialect, fs[1..]);
      assert a + (b + c) == (a + b) + c;
      r := Ok([first.value] + rest.value);
    }

    method BindAll(values: seq<Scalar>, ignoreCase: bool) returns (places: seq<Placeholder>)
      modifies this
      ensures |places| == |values|
      ensures forall i :: 0 <= i < |values| ==> places[i] == Place(o, |old(params)| + i)
      ensures params == old(params) + BoundValues(h, o.dialect, values, ignoreCase)
    {
      places := [];
      while |places| < |values|
        invariant |places| <= |values| && |params| == |old(params)| + |places| && old(params) <= params
        invariant forall i :: 0 <= i < |places| ==> places[i] == Place(o, |old(params)| + i)
        invariant forall i :: 0 <= i < |places| ==>
          params[|old(params)| + i] == BoundCase(h, o.dialect, values[i], ignoreCase)
      {
        var value := values[|places|];
        var place := Bind(BoundCase(h, o.dialect, value, ignoreCase));
        places := places + [place];
      }
    }
  }

  /** `filterToSql`. */
  method FilterToSql(h: Host, o: Options, f: ResourceFilter) returns (r: Result<(Expr, seq<SqlValue>)>)
    ensures r.Ok? <==> Expressible(o, f)
    ensures FirstRefusal(o, Atoms(f)) == if r.Err? then Some(r.error) else None
    ensures r.Ok? ==> r.value == (Compiled(h, o, f, 0), Params(h, o.dialect, f))
  {
    hide Compiled, Params, Expressible, FirstRefusal, Atoms;
    ExpressibleExactly(o, f);
    var compiler := new Compiler(h, o);
    var compiled := compiler.Compile(f);
    if compiled.Err? { return Err(compiled.error); }
    assert [] + Params(h, o.dialect, f) == Params(h, o.dialect, f);
    r := Ok((compiled.value, compiler.params));
  }

  // --- three-valued meaning ----------------------------------------------------------------------------

  /**
   * What the database makes of texts: its lower case, and the moments its two dialects read. Text `julianday` cannot
   * read gives NULL; text PostgreSQL cannot cast ends the statement with an error.
   */
  datatype Database = Database(lower: Str -> Str, julianday: Str -> Option<int>, timestamptz: Str -> Option<int>) {
    function Moment(d: Dialect, s: Str): Option<int> { if d.Postgres? then timestamptz(s) else julianday(s) }
  }

  /** True, false, NULL, or a statement that failed. */
  datatype Verdict = Yes | No | Unknown | Failed

  function VerdictOf(b: bool): Verdict { if b then Yes else No }

  function And3(a: Verdict, b: Verdict): Verdict {
    if a.Failed? || b.Failed? then Failed
    else if a.No? || b.No? then No else if a.Unknown? || b.Unknown? then Unknown else Yes
  }

  function Or3(a: Verdict, b: Verdict): Verdict {
    if a.Failed? || b.Failed? then Failed
    else if a.Yes? || b.Yes? then Yes else if a.Unknown? || b.Unknown? then Unknown else No
  }

  function Not3(a: Verdict): Verdict {
    match a case Yes => No case No => Yes case other => other
  }

  type SqlRow = map<Str, SqlValue>

  /** The arguments of the whole statement, those before this filter first. */
  type Args = seq<SqlValue>

  function ColumnValue(row: SqlRow, column: Str): SqlValue { if column in row then row[column] else Null }

  function TargetValue(db: Database, row: SqlRow, t: Target): SqlValue {
    var v := ColumnValue(row, t.column);
    if t.lowered && v.Txt? then Txt(db.lower(v.text)) else v
  }

  /** A numbered placeholder reads its own argument, a mark the one at its position. */
  function Argument(args: Args, p: Placeholder, at: nat): SqlValue {
    match p
    case Numbered(n) => if 1 <= n <= |args| then args[n - 1] else Null
    case Positional => if at < |args| then args[at] else Null
  }

  function InVerdict(v: SqlValue, list: seq<Placeholder>, args: Args, at: nat): (r: Verdict)
    ensures !r.Failed?
  {
    if list == [] then No
    else
      var a := Argument(args, list[0], at);
      Or3(if v.Null? || a.Null? then Unknown else VerdictOf(v == a),
          InVerdict(v, list[1..], args, if list[0].Positional? then at + 1 else at))
  }

  predicate OnSide(side: Side, left: int, right: int) { if side.Before? then left < right else left > right }

  /** NULL where a side is NULL; text that is no moment is NULL too, or an error. */
  function TimeVerdict(db: Database, d: Dialect, side: Side, v: SqlValue, a: SqlValue): Verdict {
    if !v.Txt? || !a.Txt? then Unknown
    else
      var left, right := db.Moment(d, v.text), db.Moment(d, a.text);
      if left.None? || right.None? then (if d.Postgres? then Failed else Unknown)
      else VerdictOf(OnSide(side, left.value, right.value))
  }

  /** How many positional placeholders an expression holds. */
  function Marks(e: Expr): nat
    decreases e, 0
  {
    match e
    case AndAll(items) => MarksOfAll(items)
    case OrAny(items) => MarksOfAll(items)
    case Negate(item) => Marks(item)
    case Both(left, right) => Marks(left) + Marks(right)
    case InList(_, list) => MarksIn(list)
    case Compares(_, _, p) => MarksIn([p])
    case LikeText(_, p) => MarksIn([p])
    case GlobText(_, p) => MarksIn([p])
    case JulianDays(_, _, p) => MarksIn([p])
    case Instants(_, _, p) => MarksIn([p])
    case _ => 0
  }

  function MarksOfAll(items: seq<Expr>): nat
    decreases items, 0
  {
    if items == [] then 0 else Marks(items[0]) + MarksOfAll(items[1..])
  }

  function MarksIn(list: seq<Placeholder>): nat {
    if list == [] then 0 else (if list[0].Positional? then 1 else 0) + MarksIn(list[1..])
  }

  /** The verdict of an expression whose first positional placeholder is number `at`. */
  function Eval(db: Database, e: Expr, row: SqlRow, args: Args, at: nat): Verdict
    decreases e, 0
  {
    match e
    case Constant(b) => VerdictOf(b)
    case AndAll(items) => EvalAnd(db, items, row, args, at)
    case OrAny(items) => EvalOr(db, items, row, args, at)
    case Negate(item) => Not3(Eval(db, item, row, args, at))
    case IsNotNull(column) => VerdictOf(!ColumnValue(row, column).Null?)
    case Both(left, right) => And3(Eval(db, left, row, args, at), Eval(db, right, row, args, at + Marks(left)))
    case InList(target, list) => InVerdict(TargetValue(db, row, target), list, args, at)
    case Compares(target, comparison, p) =>
      var v, a := TargetValue(db, row, target), Argument(args, p, at);
      if !v.Num? || !a.Num? then Unknown
      else VerdictOf(match comparison
                     case Lt => v.value < a.value
                     case Le => v.value <= a.value
                     case Gt => v.value > a.value
                     case Ge => v.value >= a.value)
    case LikeText(target, p) =>
      var v, a := TargetValue(db, row, target), Argument(args, p, at);
      if !v.Txt? || !a.Txt? then Unknown else VerdictOf(Accepts(ParseLike(Chars(a.text)), Chars(v.text)))
    case GlobText(target, p) =>
      var v, a := TargetValue(db, row, target), Argument(args, p, at);
      if !v.Txt? || !a.Txt? then Unknown else VerdictOf(GlobAccepts(ParseSqliteGlob(Chars(a.text)), Chars(v.text)))
    case JulianDays(target, side, p) =>
      TimeVerdict(db, Sqlite, side, TargetValue(db, row, target), Argument(args, p, at))
    case Instants(target, side, p) =>
      TimeVerdict(db, Postgres, side, TargetValue(db, row, target), Argument(args, p, at))
  }

  function EvalAnd(db: Database, items: seq<Expr>, row: SqlRow, args: Args, at: nat): Verdict
    decreases items, 0
  {
    if items == [] then Yes
    else And3(Eval(db, items[0], row, args, at), EvalAnd(db, items[1..], row, args, at + Marks(items[0])))
  }

  function EvalOr(db: Database, items: seq<Expr>, row: SqlRow, args: Args, at: nat): Verdict
    decreases items, 0
  {
    if items == [] then No
    else Or3(Eval(db, items[0], row, args, at), EvalOr(db, items[1..], row, args, at + Marks(items[0])))
  }

  // --- schemas -------------------------------------------------------------------------------------------

  datatype ColumnType = TextColumn | NumberColumn | BooleanColumn | MomentColumn

  type Schema = map<Str, ColumnType>

  predicate ValueFits(h: Host, t: ColumnType, v: Value) {
    match t
    case TextColumn => IsText(v)
    case NumberColumn => IsFinite(v)
    case BooleanColumn => v.Single? && v.scalar.Boolean?
    case MomentColumn => IsText(v) && h.timestamp(v.scalar.text).Some?
  }

  predicate ScalarFits(t: ColumnType, v: Scalar) {
    match t
    case TextColumn | MomentColumn => v.String?
    case NumberColumn => v.Number?
    case BooleanColumn => v.Boolean?
  }

  /** Every attribute holds a value of its column's type. */
  predicate RowFits(h: Host, schema: Schema, row: Row) {
    forall field :: field in row && field in schema ==> ValueFits(h, schema[field], row[field])
  }

  /** What a column holds of a value; SQLite has no booleans and keeps 1 and 0. */
  function Kept(d: Dialect, v: Value): SqlValue {
    if !v.Single? then Null
    else if v.scalar.String? then Txt(v.scalar.text)
    else if v.scalar.Number? then Num(v.scalar.value)
    else if d.Postgres? then Truth(v.scalar.flag)
    else if v.scalar.flag then Num(1.0)
    else Num(0.0)
  }

  /** The stored row: each attribute in its column, NULL where it is absent. */
  predicate Stores(o: Options, row: Row, stored: SqlRow) {
    forall field :: field in o.columns ==>
      ColumnValue(stored, o.columns[field]) == if field in row then Kept(o.dialect, row[field]) else Null
  }

  /** The filter compares every field with values of its column's type. */
  predicate FilterFits(h: Host, schema: Schema, f: ResourceFilter) {
    match f
    case True | False => true
    case And(filters) => forall i :: 0 <= i < |filters| ==> FilterFits(h, schema, filters[i])
    case Or(filters) => forall i :: 0 <= i < |filters| ==> FilterFits(h, schema, filters[i])
    case Not(filter) => FilterFits(h, schema, filter)
    case Present(field) => field in schema
    case HasType(field, kind) =>
      field in schema &&
      (match kind
       case StringType => schema[field].TextColumn? || schema[field].MomentColumn?
       case NumberType => schema[field].NumberColumn?
       case BooleanType => schema[field].BooleanColumn?
       case AddressType => false)
    case Equals(field, values, ignoreCase) =>
      field in schema && (ignoreCase ==> schema[field].TextColumn? || schema[field].MomentColumn?) &&
      forall i :: 0 <= i < |values| ==> ScalarFits(schema[field], values[i])
    case Compared(field, _, _) => field in schema && schema[field].NumberColumn?
    case Like(field, _, _) => field in schema && (schema[field].TextColumn? || schema[field].MomentColumn?)
    case Dated(field, _, moment) => field in schema && schema[field].MomentColumn? && h.timestamp(moment).Some?
    case InNetwork(_, _) | Contains(_, _) => false
  }

  /** The globs of a filter hold no unpaired surrogate, as no stored text does. */
  predicate FilterClean(f: ResourceFilter) {
    match f
    case And(filters) => forall i :: 0 <= i < |filters| ==> FilterClean(filters[i])
    case Or(filters) => forall i :: 0 <= i < |filters| ==> FilterClean(filters[i])
    case Not(filter) => FilterClean(filter)
    case Like(_, pattern, _) => Clean(pattern)
    case _ => true
  }

  /**
   * What the filter has the database read of this row, it reads as the host does: the lower case of texts compared
   * without regard to case, and dates with the moments they are compared with. Nothing is asked of other texts.
   */
  predicate ReadsAlike(h: Host, db: Database, d: Dialect, f: ResourceFilter, row: Row) {
    match f
    case And(filters) => forall i :: 0 <= i < |filters| ==> ReadsAlike(h, db, d, filters[i], row)
    case Or(filters) => forall i :: 0 <= i < |filters| ==> ReadsAlike(h, db, d, filters[i], row)
    case Not(filter) => ReadsAlike(h, db, d, filter, row)
    case Equals(field, _, ignoreCase) => ignoreCase ==> LowersAlike(h, db, field, row)
    case Like(field, _, ignoreCase) => ignoreCase ==> LowersAlike(h, db, field, row)
    case Dated(field, _, moment) =>
      db.Moment(d, moment) == h.timestamp(moment) &&
      (field in row && IsText(row[field]) ==> db.Moment(d, row[field].scalar.text) == h.timestamp(row[field].scalar.text))
    case _ => true
  }

  predicate LowersAlike(h: Host, db: Database, field: Str, row: Row) {
    field in row && IsText(row[field]) ==> db.lower(row[field].scalar.text) == h.lower(row[field].scalar.text)
  }

  /** The database lower-cases as the host does, and reads every moment the engine reads, as the same moment. */
  ghost predicate Agrees(h: Host, db: Database, d: Dialect) {
    && (forall s :: db.lower(s) == h.lower(s))
    && forall s {:trigger db.Moment(d, s)} {:trigger h.timestamp(s)} :: h.timestamp(s).Some? ==> db.Moment(d, s) == h.timestamp(s)
  }

  /** For every host there is such a database. */
  lemma SomeAgrees(h: Host)
    ensures forall d :: Agrees(h, Database(h.lower, h.timestamp, h.timestamp), d)
  {}

  /** Such a database reads alike whatever filters have it read. */
  lemma {:induction false} AgreesReads(h: Host, db: Database, d: Dialect, schema: Schema, f: ResourceFilter, row: Row)
    requires Agrees(h, db, d) && FilterFits(h, schema, f) && RowFits(h, schema, row)
    ensures ReadsAlike(h, db, d, f, row)
  {
    match f
    case And(filters) =>
      forall i | 0 <= i < |filters|
        ensures ReadsAlike(h, db, d, filters[i], row)
      { AgreesReads(h, db, d, schema, filters[i], row); }
    case Or(filters) =>
      forall i | 0 <= i < |filters|
        ensures ReadsAlike(h, db, d, filters[i], row)
      { AgreesReads(h, db, d, schema, filters[i], row); }
    case Not(filter) => AgreesReads(h, db, d, schema, filter, row);
    case Dated(field, _, moment) => if field in row { assert ValueFits(h, schema[field], row[field]); }
    case _ =>
  }
}
