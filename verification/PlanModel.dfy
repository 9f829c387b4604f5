/** What a plan is planned from, what every row of it is decided against, and the filter of one condition. */
module PlanModel {
  import opened Wrappers
  import opened Text
  import opened Glob
  import opened Patterns
  import opened Policy
  import opened Filter
  import opened Residual
  import opened Conditions

  /** The relations held on one resource. */
  datatype Relation = Relation(kind: Str, id: Str, names: seq<Str>)

  datatype Path = Path(grants: seq<Document>, boundaries: seq<Document>)

  datatype Input = Input(
    action: Str,
    resourceType: Str,
    tenantId: Str,
    context: Context,
    denies: seq<Document>,
    boundaries: seq<Document>,
    paths: seq<Path>,
    relations: seq<Relation>,
    mandatory: Option<ResourceFilter>,
    derivedKeys: set<Str>)

  const ID: Str := U("id")
  const ID_KEY: Str := U("resource.id")
  const PARENT_TYPE: Str := U("parentType")
  const PARENT_ID: Str := U("parentId")

  /** A candidate resource: its id, its attributes by name, and the keys the server derives from its label. */
  datatype Resource = Resource(id: Str, attributes: Row, derived: Context) {
    predicate Valid() { id != [] }

    /** The row a filter reads: the id, whatever attribute has its name. */
    function Record(): Row { attributes[ID := Single(String(id))] }
  }

  /** A resource the planner answers for: the server derives no more keys than the planner is told of. */
  predicate Candidate(input: Input, res: Resource) {
    res.Valid() && forall key :: key in res.derived ==> RowVariable(key) && key in input.derivedKeys
  }

  function RelationsOn(relations: seq<Relation>, kind: Str, id: Str): seq<Str> {
    if relations == [] then []
    else (if relations[0].kind == kind && relations[0].id == id then relations[0].names else []) +
         RelationsOn(relations[1..], kind, id)
  }

  function TextAt(row: Row, field: Str): Option<Str> {
    if field in row && IsText(row[field]) then Some(row[field].scalar.text) else None
  }

  function ParentRelations(input: Input, res: Resource): seq<Str> {
    var kind, id := TextAt(res.attributes, PARENT_TYPE), TextAt(res.attributes, PARENT_ID);
    if kind.Some? && id.Some? then RelationsOn(input.relations, kind.value, id.value) else []
  }

  function AttributeContext(row: Row): Context {
    var keys := set f | f in row :: RESOURCE + f;
    assert forall f :: (RESOURCE + f)[|RESOURCE|..] == f;
    map k | k in keys :: row[k[|RESOURCE|..]]
  }

  /** The context one resource is decided with: its attributes over the shared keys, then what the server derives. */
  function RowContext(input: Input, res: Resource): Context { UnlabeledContext(input, res) + res.derived }

  function UnlabeledContext(input: Input, res: Resource): Context {
    (input.context + AttributeContext(res.attributes))[
      TENANT_KEY := Single(String(input.tenantId))][
      RELATIONS_KEY := List(Texts(RelationsOn(input.relations, input.resourceType, res.id)))][
      PARENT_RELATIONS_KEY := List(Texts(ParentRelations(input, res)))]
  }

  /** What variables and conditions on the principal read while planning. */
  function PlannerContext(input: Input): Context {
    input.context[TENANT_KEY := Single(String(input.tenantId))][
      RELATIONS_KEY := List([])][PARENT_RELATIONS_KEY := List([])]
  }

  function RowRequest(input: Input, res: Resource): Request {
    Request(input.action, input.resourceType + [47] + res.id, RowContext(input, res))
  }

  const ALLOW_ALL: Document := Document([Statement(Allow, [STAR], [STAR], [])])

  predicate PathAllows(h: Host, input: Input, path: Path, r: Request) {
    Decide(h, r, path.grants, input.boundaries + path.boundaries).allowed
  }

  predicate MandatoryHolds(h: Host, input: Input, res: Resource) {
    input.mandatory.Some? ==> FilterMatches(h, input.mandatory.value, res.Record())
  }

  /** What the documents mean for one resource: no deny across the paths and ceilings, then any one path. */
  predicate Meant(h: Host, input: Input, res: Resource) { MeantAs(h, input, res, RowRequest(input, res)) }

  predicate MeantAs(h: Host, input: Input, res: Resource, r: Request) {
    && MandatoryHolds(h, input, res)
    && Decide(h, r, [ALLOW_ALL] + input.denies, input.boundaries).allowed
    && exists i :: 0 <= i < |input.paths| && PathAllows(h, input, input.paths[i], r)
  }

  /** The evaluator answered, and allows. */
  predicate Allows(answer: Option<Decision>) { answer.Some? && answer.value.allowed }

  /** The decision for one resource: the evaluator's answers, for the denies first and then for one path after another. */
  predicate Permitted(h: Host, input: Input, res: Resource) { PermittedAs(h, input, res, RowRequest(input, res)) }

  predicate PermittedAs(h: Host, input: Input, res: Resource, r: Request) {
    && MandatoryHolds(h, input, res)
    && Allows(Evaluate(h, r, [ALLOW_ALL] + input.denies, input.boundaries))
    && exists i :: 0 <= i < |input.paths| &&
         Allows(Evaluate(h, r, input.paths[i].grants, input.boundaries + input.paths[i].boundaries))
  }

  // --- what planning is exact for -------------------------------------------------------------------

  predicate RowDependent(c: Condition) {
    Substituting(c.operator) &&
    exists i :: 0 <= i < |c.values| && c.values[i].String? && NamesRowVariable(Pieces(c.values[i].text))
  }

  /** Lower-casing a value brings out no row variable that its own spelling hides. */
  predicate CaseSafe(h: Host, c: Condition) {
    c.operator.StringLikeIgnoreCase? ==>
      forall i :: 0 <= i < |c.values| && c.values[i].String? && NamesRowVariable(Pieces(h.lower(c.values[i].text))) ==>
        NamesRowVariable(Pieces(c.values[i].text))
  }

  /** The literals of a resource pattern that names no row variable stay apart when joined. */
  predicate ReadyPattern(h: Host, ctx: Context, pattern: Str) {
    !NamesRowVariable(Pieces(pattern)) && PatternTokens(h, pattern, ctx, false).Some? ==>
      TokensSeparable(PatternTokens(h, pattern, ctx, false).value)
  }

  /** A condition that plans exactly: ready globs, and no variable that only lower-casing brings out. */
  predicate ReadyCondition(h: Host, ctx: Context, c: Condition) {
    CaseSafe(h, c) && (RowDependent(c) || ReadyValues(h, c.operator, c.values, ctx))
  }

  predicate PlannableCondition(h: Host, ctx: Context, c: Condition) { ValidCondition(h, c) && ReadyCondition(h, ctx, c) }

  predicate PlannableStatement(h: Host, ctx: Context, s: Statement) { ValidStatement(h, s) && TidyStatement(h, ctx, s) }

  predicate PlannableDocument(h: Host, ctx: Context, d: Document) {
    forall i :: 0 <= i < |d.statements| ==> PlannableStatement(h, ctx, d.statements[i])
  }

  predicate PlannableDocuments(h: Host, ctx: Context, ds: seq<Document>) {
    forall i :: 0 <= i < |ds| ==> PlannableDocument(h, ctx, ds[i])
  }

  predicate TidyStatement(h: Host, ctx: Context, s: Statement) {
    && (forall i :: 0 <= i < |s.resources| ==> ReadyPattern(h, ctx, s.resources[i]))
    && (forall i :: 0 <= i < |s.conditions| ==> ReadyCondition(h, ctx, s.conditions[i]))
  }

  predicate TidyDocuments(h: Host, ctx: Context, ds: seq<Document>) {
    forall d, i :: 0 <= d < |ds| && 0 <= i < |ds[d].statements| ==> TidyStatement(h, ctx, ds[d].statements[i])
  }

  function PathDocuments(paths: seq<Path>): seq<Document> {
    if paths == [] then [] else (paths[0].grants + paths[0].boundaries) + PathDocuments(paths[1..])
  }

  /** Every document a plan reads. */
  function AllDocuments(input: Input): seq<Document> {
    input.denies + input.boundaries + PathDocuments(input.paths)
  }

  /** Patterns and values that plan exactly in this context, and a filter of the planner's own shape to start from. */
  predicate Tidy(h: Host, input: Input) {
    && TidyDocuments(h, PlannerContext(input), AllDocuments(input))
    && (input.mandatory.Some? ==> Planned(input.mandatory.value))
  }

  lemma {:induction false} PathDocumentsHold(paths: seq<Path>, i: nat)
    requires i < |paths|
    ensures forall d :: d in paths[i].grants || d in paths[i].boundaries ==> d in PathDocuments(paths)
  {
    if i > 0 {
      PathDocumentsHold(paths[1..], i - 1);
      assert paths[1..][i - 1] == paths[i];
    }
  }

  lemma AllowAllValid(h: Host)
    ensures ValidDocument(h, ALLOW_ALL)
  {
    assert |MARKER| == 2;
  }

  lemma ValidParts(h: Host, ds: seq<Document>, all: seq<Document>)
    requires ValidDocuments(h, all) && forall d :: d in ds ==> d in all || d == ALLOW_ALL
    ensures ValidDocuments(h, ds)
  {
    AllowAllValid(h);
    hide ValidDocument;
    forall i | 0 <= i < |ds|
      ensures ValidDocument(h, ds[i])
    {
      assert ds[i] in ds;
      if ds[i] in all { var k :| 0 <= k < |all| && all[k] == ds[i]; }
    }
  }

  /** With valid documents the evaluator permits what the documents mean, of the requests it takes. */
  lemma PermittedMeant(h: Host, input: Input, res: Resource, r: Request)
    requires ValidDocuments(h, AllDocuments(input))
    ensures PermittedAs(h, input, res, r) <==> ValidRequest(r) && MeantAs(h, input, res, r)
  {
    hide ValidDocuments, Decide, ValidRequest, MandatoryHolds;
    var all := AllDocuments(input);
    ValidParts(h, [ALLOW_ALL] + input.denies, all);
    ValidParts(h, input.boundaries, all);
    forall i | 0 <= i < |input.paths|
      ensures ValidDocuments(h, input.paths[i].grants) && ValidDocuments(h, input.boundaries + input.paths[i].boundaries)
    {
      PathDocumentsHold(input.paths, i);
      ValidParts(h, input.paths[i].grants, all);
      ValidParts(h, input.boundaries + input.paths[i].boundaries, all);
    }
    assert forall i :: 0 <= i < |input.paths| && ValidRequest(r) ==>
      (Allows(Evaluate(h, r, input.paths[i].grants, input.boundaries + input.paths[i].boundaries)) <==>
       PathAllows(h, input, input.paths[i], r));
  }

  lemma PlannableFrom(h: Host, ctx: Context, ds: seq<Document>, all: seq<Document>)
    requires ValidDocuments(h, all) && TidyDocuments(h, ctx, all) && forall d :: d in ds ==> d in all
    ensures PlannableDocuments(h, ctx, ds)
  {
    hide ValidStatement, TidyStatement;
    forall i | 0 <= i < |ds|
      ensures PlannableDocument(h, ctx, ds[i])
    {
      assert ds[i] in all;
      var k :| 0 <= k < |all| && all[k] == ds[i];
      assert ValidDocument(h, all[k]);
    }
  }

  /** Valid, tidy documents are plannable wherever the planner meets them. */
  lemma InputPlannable(h: Host, input: Input)
    requires ValidDocuments(h, AllDocuments(input)) && TidyDocuments(h, PlannerContext(input), AllDocuments(input))
    ensures var ctx := PlannerContext(input);
            && PlannableDocuments(h, ctx, input.denies + input.boundaries) && PlannableDocuments(h, ctx, input.boundaries)
            && forall i :: 0 <= i < |input.paths| ==>
                 PlannableDocuments(h, ctx, input.paths[i].grants) && PlannableDocuments(h, ctx, input.paths[i].boundaries)
  {
    hide ValidDocuments, TidyDocuments, PlannableDocuments, PlannerContext;
    var all, ctx := AllDocuments(input), PlannerContext(input);
    PlannableFrom(h, ctx, input.denies + input.boundaries, all);
    PlannableFrom(h, ctx, input.boundaries, all);
    forall i | 0 <= i < |input.paths|
      ensures PlannableDocuments(h, ctx, input.paths[i].grants) && PlannableDocuments(h, ctx, input.paths[i].boundaries)
    {
      PathDocumentsHold(input.paths, i);
      PlannableFrom(h, ctx, input.paths[i].grants, all);
      PlannableFrom(h, ctx, input.paths[i].boundaries, all);
    }
  }

  /** Texts without unpaired surrogates and finite numbers plan exactly, if no variable is brought out by lower-casing. */
  lemma CleanTidy(h: Host, ctx: Context, s: Statement)
    requires h.Lawful() && CleanContext(ctx) && forall name :: name in ctx ==> !ctx[name].NonFinite?
    requires forall i :: 0 <= i < |s.resources| ==> Clean(s.resources[i])
    requires forall i, k :: 0 <= i < |s.conditions| && 0 <= k < |s.conditions[i].values| && s.conditions[i].values[k].String? ==>
               Clean(s.conditions[i].values[k].text)
    requires forall i :: 0 <= i < |s.conditions| ==> CaseSafe(h, s.conditions[i])
    ensures TidyStatement(h, ctx, s)
  {
    hide Clean, CaseSafe, CleanContext, Host.Lawful, ReadyValue, RowDependent, PieceTokensOf, TokensSeparable, NamesRowVariable;
    forall i | 0 <= i < |s.resources|
      ensures ReadyPattern(h, ctx, s.resources[i])
    { if PatternTokens(h, s.resources[i], ctx, false).Some? { CleanTokens(h, s.resources[i], ctx); } }
    forall i, k | 0 <= i < |s.conditions| && 0 <= k < |s.conditions[i].values|
      ensures ReadyValue(h, s.conditions[i].operator, s.conditions[i].values[k], ctx)
    { CleanReady(h, s.conditions[i].operator, s.conditions[i].values[k], ctx); }
  }

  // --- contexts --------------------------------------------------------------------------------------

  lemma KeysDistinct()
    ensures TENANT_KEY != RELATIONS_KEY && RELATIONS_KEY != PARENT_RELATIONS_KEY && TENANT_KEY != PARENT_RELATIONS_KEY
    ensures ID != PARENT_TYPE && ID != PARENT_ID && PARENT_TYPE != PARENT_ID
    ensures |RESOURCE| == 9 && ID_KEY == RESOURCE + ID
  {
    assert |TENANT_KEY| == 17 && |RELATIONS_KEY| == 18 && |PARENT_RELATIONS_KEY| == 24;
    assert |ID| == 2 && |PARENT_TYPE| == 10 && |PARENT_ID| == 8;
    assert |ID_KEY| == |RESOURCE + ID| == 11;
    forall i | 0 <= i < 11
      ensures ID_KEY[i] == (RESOURCE + ID)[i]
    {
      assert i == 0 || i == 1 || i == 2 || i == 3 || i == 4 || i == 5 || i == 6 || i == 7 || i == 8 || i == 9 || i == 10;
    }
  }

  lemma ResourceKeyField(key: Str)
    requires IsResourceKey(key)
    ensures |RESOURCE| <= |key| && key == RESOURCE + key[|RESOURCE|..]
  {
    assert key == key[..|RESOURCE|] + key[|RESOURCE|..];
  }

  lemma AttributeContextAt(row: Row, key: Str)
    ensures key in AttributeContext(row) <==> IsResourceKey(key) && key[|RESOURCE|..] in row
    ensures key in AttributeContext(row) ==> AttributeContext(row)[key] == row[key[|RESOURCE|..]]
  {
    if IsResourceKey(key) { ResourceKeyField(key); }
    if key in AttributeContext(row) {
      var f :| f in row && key == RESOURCE + f;
      assert key[..|RESOURCE|] == RESOURCE && key[|RESOURCE|..] == f;
    }
  }

  /** Where the context of a row gets a key from. */
  lemma RowContextAt(input: Input, res: Resource, key: Str)
    requires !ConstantKey(key) && key !in res.derived
    ensures var row, field := RowContext(input, res), key[if |RESOURCE| <= |key| then |RESOURCE| else 0..];
            if IsResourceKey(key) && field in res.attributes then key in row && row[key] == res.attributes[field]
            else (key in row <==> key in input.context) && (key in input.context ==> row[key] == input.context[key])
  {
    AttributeContextAt(res.attributes, key);
  }

  lemma RowContextConstants(input: Input, res: Resource)
    requires Candidate(input, res)
    ensures var row := RowContext(input, res);
            && TENANT_KEY in row && row[TENANT_KEY] == Single(String(input.tenantId))
            && RELATIONS_KEY in row &&
               row[RELATIONS_KEY] == List(Texts(RelationsOn(input.relations, input.resourceType, res.id)))
            && PARENT_RELATIONS_KEY in row && row[PARENT_RELATIONS_KEY] == List(Texts(ParentRelations(input, res)))
    ensures var ctx := PlannerContext(input);
            && TENANT_KEY in ctx && ctx[TENANT_KEY] == Single(String(input.tenantId))
            && RELATIONS_KEY in ctx && ctx[RELATIONS_KEY] == List([])
            && PARENT_RELATIONS_KEY in ctx && ctx[PARENT_RELATIONS_KEY] == List([])
  {
    KeysDistinct();
  }

  lemma PlannerContextAt(input: Input, key: Str)
    requires !ConstantKey(key)
    ensures key in PlannerContext(input) <==> key in input.context
    ensures key in input.context ==> PlannerContext(input)[key] == input.context[key]
  {}

  /** The planner's context and every row's context agree on all that is not the row's own. */
  lemma ContextsAgree(input: Input, res: Resource)
    requires Candidate(input, res)
    ensures AgreeOffRow(PlannerContext(input), RowContext(input, res))
  {
    hide RowContext, PlannerContext, IsResourceKey;
    RowContextConstants(input, res);
    forall name | !RowVariable(name)
      ensures var a, b := PlannerContext(input), RowContext(input, res);
              (name in a <==> name in b) && (name in a ==> a[name] == b[name] || (a[name].List? && b[name].List?))
    {
      if !ConstantKey(name) {
        RowContextAt(input, res, name);
        PlannerContextAt(input, name);
      }
    }
  }

  // --- conditions that read the same either way -------------------------------------------------------

  lemma LowerContextsAgree(h: Host, a: Context, b: Context)
    requires AgreeOffRow(a, b)
    ensures AgreeOffRow(LowerContext(h, a), LowerContext(h, b))
  {
    hide RowVariable;
  }

  lemma ComparesAlike(h: Host, op: Operator, actual: Value, value: Scalar, a: Context, b: Context)
    requires AgreeOffRow(a, b)
    requires Substituting(op) && value.String? ==> !NamesRowVariable(Pieces(value.text))
    requires op.StringLikeIgnoreCase? && value.String? ==> !NamesRowVariable(Pieces(h.lower(value.text)))
    ensures Compare(h, op, actual, value, a) <==> Compare(h, op, actual, value, b)
  {
    hide PieceTokensOf, Chars, Accepts, LowerContext;
    if op.StringLikeIgnoreCase? {
      LoweredAlike(h, actual, value, a, b);
    } else if op.StringLike? || op.StringNotLike? {
      LikeAlike(h, op, actual, value, a, b);
    } else if Substituting(op) && value.String? {
      SameResolution(h, value.text, a, b);
      hide ResolveValue, AgreeOffRow, NamesRowVariable, Pieces;
    }
  }

  lemma LikeAlike(h: Host, op: Operator, actual: Value, value: Scalar, a: Context, b: Context)
    requires op.StringLike? || op.StringNotLike?
    requires AgreeOffRow(a, b) && (value.String? ==> !NamesRowVariable(Pieces(value.text)))
    ensures Compare(h, op, actual, value, a) <==> Compare(h, op, actual, value, b)
  {
    hide AgreeOffRow, NamesRowVariable, Pieces, Accepts, PieceTokensOf, Chars;
    if value.String? { SameTokens(h, Pieces(value.text), a, b); }
  }

  lemma LoweredAlike(h: Host, actual: Value, value: Scalar, a: Context, b: Context)
    requires AgreeOffRow(a, b) && (value.String? ==> !NamesRowVariable(Pieces(h.lower(value.text))))
    ensures Compare(h, StringLikeIgnoreCase, actual, value, a) <==> Compare(h, StringLikeIgnoreCase, actual, value, b)
  {
    LowerContextsAgree(h, a, b);
    hide AgreeOffRow, NamesRowVariable, Pieces, LowerContext, Accepts;
    if value.String? { SameTokens(h, Pieces(h.lower(value.text)), LowerContext(h, a), LowerContext(h, b)); }
  }

  lemma ValuesHoldAlike(h: Host, c: Condition, actual: Value, a: Context, b: Context)
    requires AgreeOffRow(a, b) && !RowDependent(c) && CaseSafe(h, c)
    ensures ValueHolds(h, c.operator, c.values, actual, a) <==> ValueHolds(h, c.operator, c.values, actual, b)
  {
    hide AgreeOffRow, NamesRowVariable, Pieces, Compare, WellTyped;
    forall i | 0 <= i < |c.values|
      ensures TestValue(h, c.operator, actual, c.values[i], a) <==> TestValue(h, c.operator, actual, c.values[i], b)
    {
      ComparesAlike(h, c.operator, actual, c.values[i], a, b);
    }
  }

  lemma ConditionHoldsAlike(h: Host, c: Condition, a: Context, b: Context)
    requires AgreeOffRow(a, b) && !RowDependent(c) && CaseSafe(h, c)
    requires (c.key in a <==> c.key in b) && (c.key in a ==> a[c.key] == b[c.key])
    ensures ConditionHolds(h, c, a) <==> ConditionHolds(h, c, b)
  {
    hide ValueHolds, AgreeOffRow, RowDependent, CaseSafe;
    ValuesHoldAlike(h, c, Single(Boolean(c.key in a)), a, b);
    if c.key in a { ValuesHoldAlike(h, c, a[c.key], a, b); }
  }

  // --- conditions decided while planning ---------------------------------------------------------------

  const PLAN: Str := U("plan")
  const PLAN_RESOURCE: Str := U("plan/plan")

  /** `concrete`: one condition evaluated by the engine itself. */
  predicate Concrete(h: Host, c: Condition, ctx: Context) {
    Decide(h, Request(PLAN, PLAN_RESOURCE, ctx), [Document([Statement(Allow, [STAR], [STAR], [c])])], []).allowed
  }

  lemma StarMatches(h: Host, value: Str, ctx: Context)
    ensures PatternMatches(h, STAR, value, ctx)
  {
    PlainPattern(h, STAR, ctx, false);
    CharsOfChar(STAR);
    assert GlobTokens(STAR) == [Star];
    AllStarsAccept([Star], Chars(value));
  }

  lemma OpenStatement(h: Host, effect: Effect, conditions: seq<Condition>, r: Request)
    ensures StatementMatches(h, Statement(effect, [STAR], [STAR], conditions), r) <==>
            ConditionsHold(h, Statement(effect, [STAR], [STAR], conditions), r.context)
  {
    hide PatternMatches, ConditionHolds;
    StarMatches(h, r.action, map[]);
    StarMatches(h, r.resource, r.context);
    assert [STAR][0] == STAR;
  }

  lemma ConcreteMeaning(h: Host, c: Condition, ctx: Context)
    ensures Concrete(h, c, ctx) <==> ConditionHolds(h, c, ctx)
  {
    hide ConditionHolds, StatementMatches, DocumentMarks;
    var s := Statement(Allow, [STAR], [STAR], [c]);
    var d, r := Document([s]), Request(PLAN, PLAN_RESOURCE, ctx);
    OpenStatement(h, Allow, [c], r);
    assert s.conditions[0] == c;
    assert d.statements[0] == s && [d][0] == d;
    assert DocumentHas(h, d, Allow, r) <==> StatementMatches(h, s, r);
    assert !DocumentHas(h, d, Deny, r);
    assert AnyDocumentHas(h, [d], Allow, r) <==> DocumentHas(h, d, Allow, r);
  }

  // --- relations -----------------------------------------------------------------------------------------

  type IdIndex = map<Str, seq<Str>>
  type ParentIndex = map<Str, seq<(Str, Str)>>

  predicate HasId(ids: IdIndex, name: Str, id: Str) { name in ids && id in ids[name] }

  predicate HasParent(parents: ParentIndex, name: Str, kind: Str, id: Str) {
    name in parents && (kind, id) in parents[name]
  }

  predicate Holds(relations: seq<Relation>, kind: Str, id: Str, name: Str) { name in RelationsOn(relations, kind, id) }

  /** The indexes say which resources a relation is held on. */
  ghost predicate Indexed(input: Input, ids: IdIndex, parents: ParentIndex) {
    && (forall name, id :: HasId(ids, name, id) <==> Holds(input.relations, input.resourceType, id, name))
    && (forall name, kind, id :: HasParent(parents, name, kind, id) <==> Holds(input.relations, kind, id, name))
  }

  function TextScalars(texts: seq<Str>): (r: seq<Scalar>)
    ensures |r| == |texts|
  {
    seq(|texts|, i requires 0 <= i < |texts| => String(texts[i]))
  }

  function ParentFilter(parent: (Str, Str)): ResourceFilter {
    AndFilter([EqualsFilter(PARENT_TYPE, [String(parent.0)], false), EqualsFilter(PARENT_ID, [String(parent.1)], false)])
  }

  function ParentFilters(parents: seq<(Str, Str)>): (r: seq<ResourceFilter>)
    ensures |r| == |parents|
  {
    seq(|parents|, i requires 0 <= i < |parents| => ParentFilter(parents[i]))
  }

  function MemberFilter(h: Host, ids: IdIndex, parents: ParentIndex, key: Str, value: Scalar, ctx: Context): ResourceFilter {
    match Wanted(h, value, ctx)
    case Some(String(wanted)) =>
      if key == RELATIONS_KEY then
        EqualsFilter(ID, TextScalars(if wanted in ids then ids[wanted] else []), false)
      else OrFilter(ParentFilters(if wanted in parents then parents[wanted] else []))
    case _ => False
  }

  function MemberFilters(h: Host, ids: IdIndex, parents: ParentIndex, c: Condition, ctx: Context): (r: seq<ResourceFilter>)
    ensures |r| == |c.values|
  {
    seq(|c.values|, i requires 0 <= i < |c.values| => MemberFilter(h, ids, parents, c.key, c.values[i], ctx))
  }

  /** `relationCondition`. */
  function RelationCondition(h: Host, ids: IdIndex, parents: ParentIndex, c: Condition, ctx: Context): ResourceFilter {
    if !c.operator.ArrayContains? && !c.operator.ArrayContainsAll? then
      if Concrete(h, c, ctx[c.key := List([])]) then True else False
    else if c.operator.ArrayContains? then OrFilter(MemberFilters(h, ids, parents, c, ctx))
    else AndFilter(MemberFilters(h, ids, parents, c, ctx))
  }

  lemma TextEquals(h: Host, field: Str, text: Str, row: Row)
    ensures FilterMatches(h, EqualsFilter(field, [String(text)], false), row) <==> TextAt(row, field) == Some(text)
  {
    EqualsMeaning(h, field, [String(text)], false, row);
    assert [String(text)][0] == String(text);
  }

  lemma IdsMeaning(h: Host, texts: seq<Str>, res: Resource)
    ensures FilterMatches(h, EqualsFilter(ID, TextScalars(texts), false), res.Record()) <==> res.id in texts
  {
    EqualsMeaning(h, ID, TextScalars(texts), false, res.Record());
    if res.id in texts {
      var i :| 0 <= i < |texts| && texts[i] == res.id;
      assert SameValue(h, res.Record()[ID], TextScalars(texts)[i], false);
    }
  }

  lemma ParentMeaning(h: Host, parent: (Str, Str), res: Resource)
    ensures FilterMatches(h, ParentFilter(parent), res.Record()) <==>
            TextAt(res.attributes, PARENT_TYPE) == Some(parent.0) && TextAt(res.attributes, PARENT_ID) == Some(parent.1)
  {
    hide FilterMatches, AndFilter, EqualsFilter;
    KeysDistinct();
    var parts := [EqualsFilter(PARENT_TYPE, [String(parent.0)], false), EqualsFilter(PARENT_ID, [String(parent.1)], false)];
    AndMeaning(h, parts, res.Record());
    TextEquals(h, PARENT_TYPE, parent.0, res.Record());
    TextEquals(h, PARENT_ID, parent.1, res.Record());
    assert parts[0] == EqualsFilter(PARENT_TYPE, [String(parent.0)], false);
    assert parts[1] == EqualsFilter(PARENT_ID, [String(parent.1)], false);
  }

  lemma ParentsMeaning(h: Host, parents: seq<(Str, Str)>, res: Resource)
    ensures FilterMatches(h, OrFilter(ParentFilters(parents)), res.Record()) <==>
            var kind, id := TextAt(res.attributes, PARENT_TYPE), TextAt(res.attributes, PARENT_ID);
            kind.Some? && id.Some? && (kind.value, id.value) in parents
  {
    hide FilterMatches, OrFilter, ParentFilter;
    OrMeaning(h, ParentFilters(parents), res.Record());
    forall i | 0 <= i < |parents|
      ensures FilterMatches(h, ParentFilters(parents)[i], res.Record()) <==>
              TextAt(res.attributes, PARENT_TYPE) == Some(parents[i].0) && TextAt(res.attributes, PARENT_ID) == Some(parents[i].1)
    { ParentMeaning(h, parents[i], res); }
    var kind, id := TextAt(res.attributes, PARENT_TYPE), TextAt(res.attributes, PARENT_ID);
    if kind.Some? && id.Some? && (kind.value, id.value) in parents {
      var i :| 0 <= i < |parents| && parents[i] == (kind.value, id.value);
      assert FilterMatches(h, ParentFilters(parents)[i], res.Record());
    }
  }

  lemma TextsInclude(texts: seq<Str>, s: Scalar)
    ensures Includes(Texts(texts), s) <==> s.String? && s.text in texts
  {
    if s.String? && s.text in texts {
      var i :| 0 <= i < |texts| && texts[i] == s.text;
      assert Texts(texts)[i] == Single(s);
    }
  }

  /** The list a relation key holds for a resource. */
  function HeldList(input: Input, key: Str, res: Resource): seq<Str> {
    if key == RELATIONS_KEY then RelationsOn(input.relations, input.resourceType, res.id) else ParentRelations(input, res)
  }

  lemma MemberMeaning(h: Host, input: Input, ids: IdIndex, parents: ParentIndex, key: Str, value: Scalar, ctx: Context, res: Resource)
    requires Indexed(input, ids, parents)
    requires key == RELATIONS_KEY || key == PARENT_RELATIONS_KEY
    ensures FilterMatches(h, MemberFilter(h, ids, parents, key, value, ctx), res.Record()) <==>
            Compare(h, ArrayContains, List(Texts(HeldList(input, key, res))), value, ctx)
  {
    hide FilterMatches, EqualsFilter, OrFilter, Wanted, HasId, HasParent, Indexed, ParentRelations;
    var wanted := Wanted(h, value, ctx);
    if wanted.Some? {
      TextsInclude(HeldList(input, key, res), wanted.value);
    }
    if wanted.Some? && wanted.value.String? {
      if key == RELATIONS_KEY {
        IdMemberMeaning(h, input, ids, parents, wanted.value.text, res);
      } else {
        KeysDistinct();
        ParentMemberMeaning(h, input, ids, parents, wanted.value.text, res);
      }
    } else {
      FalseMatchesNothing(h, res.Record());
    }
  }

  lemma IdMemberMeaning(h: Host, input: Input, ids: IdIndex, parents: ParentIndex, name: Str, res: Resource)
    requires Indexed(input, ids, parents)
    ensures FilterMatches(h, EqualsFilter(ID, TextScalars(if name in ids then ids[name] else []), false), res.Record()) <==>
            name in RelationsOn(input.relations, input.resourceType, res.id)
  {
    hide FilterMatches, EqualsFilter;
    var texts := if name in ids then ids[name] else [];
    IdsMeaning(h, texts, res);
    assert HasId(ids, name, res.id) <==> res.id in texts;
  }

  lemma ParentMemberMeaning(h: Host, input: Input, ids: IdIndex, parents: ParentIndex, name: Str, res: Resource)
    requires Indexed(input, ids, parents)
    ensures FilterMatches(h, OrFilter(ParentFilters(if name in parents then parents[name] else [])), res.Record()) <==>
            name in ParentRelations(input, res)
  {
    hide FilterMatches, OrFilter, ParentFilter;
    var pairs := if name in parents then parents[name] else [];
    ParentsMeaning(h, pairs, res);
    var kind, id := TextAt(res.attributes, PARENT_TYPE), TextAt(res.attributes, PARENT_ID);
    if kind.Some? && id.Some? {
      assert HasParent(parents, name, kind.value, id.value) <==> (kind.value, id.value) in pairs;
    }
  }

  /** Operators that do not look inside a list treat every list alike. */
  lemma ListsAlike(h: Host, c: Condition, a: seq<Value>, b: seq<Value>, ctx: Context)
    requires !c.operator.ArrayContains? && !c.operator.ArrayContainsAll? && !c.operator.Exists?
    ensures ValueHolds(h, c.operator, c.values, List(a), ctx) <==> ValueHolds(h, c.operator, c.values, List(b), ctx)
  {
    hide PatternMatches, ResolveValue;
    forall i | 0 <= i < |c.values|
      ensures TestValue(h, c.operator, List(a), c.values[i], ctx) <==> TestValue(h, c.operator, List(b), c.values[i], ctx)
    {}
  }

  lemma RelationMeaning(h: Host, input: Input, ids: IdIndex, parents: ParentIndex, c: Condition, res: Resource)
    requires Indexed(input, ids, parents) && !RowDependent(c) && CaseSafe(h, c) && ValidCondition(h, c) && Candidate(input, res)
    requires c.key == RELATIONS_KEY || c.key == PARENT_RELATIONS_KEY
    ensures FilterMatches(h, RelationCondition(h, ids, parents, c, PlannerContext(input)), res.Record()) <==>
            ConditionHolds(h, c, RowContext(input, res))
  {
    hide FilterMatches, RowContext, PlannerContext, Indexed, RowDependent, CaseSafe, Compare, AndFilter, OrFilter, MemberFilter;
    hide Concrete, HeldList, ValidValue;
    var ctx, row := PlannerContext(input), RowContext(input, res);
    RowContextConstants(input, res);
    ContextsAgree(input, res);
    HeldListIs(input, c.key, res);
    var held := Texts(HeldList(input, c.key, res));
    if !c.operator.ArrayContains? && !c.operator.ArrayContainsAll? {
      ValuesHoldAlike(h, c, Single(Boolean(true)), ctx, row);
      ValuesHoldAlike(h, c, List(held), ctx, row);
      assert ctx[c.key := List([])] == ctx;
      ConcreteMeaning(h, c, ctx);
      FalseMatchesNothing(h, res.Record());
      if !c.operator.Exists? { ListsAlike(h, c, [], held, ctx); }
    } else {
      ValuesHoldAlike(h, c, List(held), ctx, row);
      MembersMeaning(h, input, ids, parents, c, ctx, res);
    }
  }

  /** The listed members, one filter each: any of them, or all. */
  lemma MembersMeaning(h: Host, input: Input, ids: IdIndex, parents: ParentIndex, c: Condition, ctx: Context, res: Resource)
    requires Indexed(input, ids, parents) && (c.operator.ArrayContains? || c.operator.ArrayContainsAll?)
    requires c.key == RELATIONS_KEY || c.key == PARENT_RELATIONS_KEY
    ensures FilterMatches(h, RelationCondition(h, ids, parents, c, ctx), res.Record()) <==>
            ValueHolds(h, c.operator, c.values, List(Texts(HeldList(input, c.key, res))), ctx)
  {
    hide FilterMatches, Indexed, Compare, AndFilter, OrFilter, MemberFilter, HeldList, Concrete;
    var held := List(Texts(HeldList(input, c.key, res)));
    var filters := MemberFilters(h, ids, parents, c, ctx);
    forall i | 0 <= i < |c.values|
      ensures FilterMatches(h, filters[i], res.Record()) <==> TestValue(h, c.operator, held, c.values[i], ctx)
    {
      MemberMeaning(h, input, ids, parents, c.key, c.values[i], ctx, res);
      ContainsAlike(h, held, c.values[i], ctx);
    }
    AndMeaning(h, filters, res.Record());
    OrMeaning(h, filters, res.Record());
  }

  lemma HeldListIs(input: Input, key: Str, res: Resource)
    requires Candidate(input, res) && (key == RELATIONS_KEY || key == PARENT_RELATIONS_KEY)
    ensures key in RowContext(input, res) && RowContext(input, res)[key] == List(Texts(HeldList(input, key, res)))
  {
    hide RowContext;
    RowContextConstants(input, res);
    KeysDistinct();
  }

  lemma ContainsAlike(h: Host, actual: Value, value: Scalar, ctx: Context)
    ensures Compare(h, ArrayContainsAll, actual, value, ctx) <==> Compare(h, ArrayContains, actual, value, ctx)
  {}
}
