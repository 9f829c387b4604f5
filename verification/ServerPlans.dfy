/** The server around the planner: how it keys the relations a principal holds, and what its plans then mean. */
module ServerPlans {
  import opened Wrappers
  import opened Text
  import opened Glob
  import opened Patterns
  import opened Policy
  import opened Filter
  import opened PlanModel
  import opened Planning
  import opened PlanLimits

  const SLASH: CodeUnit := 47
  const IAM: Str := [105, 97, 109]

  /** A relationship the principal holds directly or through a group. */
  datatype Tuple = Tuple(kind: Str, resourceId: Str, relation: Str)

  /** What the server holds under one key, `type/id`. */
  datatype Held = Held(key: Str, names: seq<Str>)

  /** `resourceTypeName`: a small letter, then at most 63 small letters, digits and hyphens. */
  predicate TypeName(s: Str) {
    1 <= |s| <= 64 && 97 <= s[0] <= 122 && forall i :: 1 <= i < |s| ==> 97 <= s[i] <= 122 || 48 <= s[i] <= 57 || s[i] == 45
  }

  function Key(kind: Str, id: Str): Str { kind + [SLASH] + id }

  /** A relationship's type is one of the catalog, which `iam` never is. */
  predicate CatalogType(kind: Str) { TypeName(kind) && kind != IAM }

  /** The server's own types, which are never planned for. */
  const INTERNAL_TYPES: set<Str> := {IAM, U("oauth-client"), U("scim"), U("saml"), U("ssf"), U("role")}

  predicate PlanType(kind: Str) { TypeName(kind) && kind !in INTERNAL_TYPES }

  function SlashAt(key: Str): int { IndexOf(key, [SLASH], 0) }

  /** A key the server can have made of a relationship. */
  predicate RealKey(key: Str) { SlashAt(key) >= 0 && CatalogType(key[..SlashAt(key)]) }

  predicate RealKeys(held: seq<Held>) { forall i :: 0 <= i < |held| ==> RealKey(held[i].key) }

  /** What is held under a key; a map has one entry for it at most. */
  function HeldAt(held: seq<Held>, key: Str): seq<Str> {
    if held == [] then [] else (if held[0].key == key then held[0].names else []) + HeldAt(held[1..], key)
  }

  /** `relationsOf`: administration of `iam/{type}/{id}` reads the named resource's. */
  function RelationsOf(held: seq<Held>, kind: Option<Str>, id: Option<Str>): seq<Str> {
    if kind.None? || id.None? then []
    else HeldAt(held, if kind.value == IAM then id.value else Key(kind.value, id.value))
  }

  lemma FirstSlash(kind: Str, id: Str)
    requires SLASH !in kind
    ensures SlashAt(Key(kind, id)) == |kind|
    ensures Key(kind, id)[..|kind|] == kind && Key(kind, id)[|kind| + 1..] == id
  {
    var key := Key(kind, id);
    assert key[|kind|..|kind| + 1] == [SLASH];
    assert OccursAt(key, [SLASH], |kind|);
    forall k | 0 <= k < |kind|
      ensures !OccursAt(key, [SLASH], k)
    {
      assert key[k] == kind[k] && key[k..k + 1] == [key[k]];
    }
  }

  lemma CatalogTypeSlash(kind: Str)
    requires TypeName(kind)
    ensures SLASH !in kind
  {}

  // --- gathering the relations -----------------------------------------------------------------------

  predicate Gives(tuple: Tuple, key: Str, name: Str) { Key(tuple.kind, tuple.resourceId) == key && tuple.relation == name }

  lemma {:induction false} HeldAtMember(held: seq<Held>, key: Str, name: Str)
    ensures name in HeldAt(held, key) <==> exists i :: 0 <= i < |held| && held[i].key == key && name in held[i].names
  {
    if held != [] {
      HeldAtMember(held[1..], key, name);
      if i :| 0 <= i < |held| && held[i].key == key && name in held[i].names {
        if i > 0 { assert held[1..][i - 1] == held[i]; }
      }
      if i :| 0 <= i < |held[1..]| && held[1..][i].key == key && name in held[1..][i].names {
        assert held[i + 1] == held[1..][i];
      }
    }
  }

  /** A relation is held under a key by one of these relationships. */
  ghost predicate GivenBy(held: seq<Held>, tuples: seq<Tuple>) {
    forall key, name :: name in HeldAt(held, key) <==> exists t :: 0 <= t < |tuples| && Gives(tuples[t], key, name)
  }

  predicate DistinctKeys(held: seq<Held>) {
    forall i, j :: 0 <= i < j < |held| ==> held[i].key != held[j].key
  }

  /** The relationships by key, in the order the keys first came. */
  method Gather(tuples: seq<Tuple>) returns (held: seq<Held>)
    requires forall t :: 0 <= t < |tuples| ==> CatalogType(tuples[t].kind)
    ensures RealKeys(held) && DistinctKeys(held) && GivenBy(held, tuples)
  {
    held := [];
    var n := 0;
    hide CatalogType, HeldAt;
    NothingGathered();
    while n < |tuples|
      invariant n <= |tuples| && RealKeys(held) && DistinctKeys(held) && GivenBy(held, tuples[..n])
    {
      var tuple := tuples[n];
      var key := Key(tuple.kind, tuple.resourceId);
      var i := 0;
      while i < |held| && held[i].key != key
        invariant i <= |held| && forall k :: 0 <= k < i ==> held[k].key != key
      {
        i := i + 1;
      }
      ghost var before := held;
      if i == |held| {
        RealKeyOf(tuple);
        held := held + [Held(key, [tuple.relation])];
      } else {
        held := held[i := Held(key, held[i].names + [tuple.relation])];
      }
      GatherStep(before, held, i, tuples[..n], tuple);
      assert tuples[..n + 1] == tuples[..n] + [tuple];
      n := n + 1;
    }
    assert tuples[..n] == tuples;
  }

  lemma NothingGathered()
    ensures GivenBy([], [])
  {}

  lemma RealKeyOf(tuple: Tuple)
    requires CatalogType(tuple.kind)
    ensures RealKey(Key(tuple.kind, tuple.resourceId))
  {
    CatalogTypeSlash(tuple.kind);
    FirstSlash(tuple.kind, tuple.resourceId);
  }

  lemma GatherStep(before: seq<Held>, after: seq<Held>, i: nat, tuples: seq<Tuple>, tuple: Tuple)
    requires GivenBy(before, tuples) && i <= |before|
    requires var key := Key(tuple.kind, tuple.resourceId);
             if i == |before| then after == before + [Held(key, [tuple.relation])]
             else before[i].key == key && after == before[i := Held(key, before[i].names + [tuple.relation])]
    ensures GivenBy(after, tuples + [tuple])
  {
    hide HeldAt;
    forall key, name
      ensures name in HeldAt(after, key) <==> exists t :: 0 <= t < |tuples + [tuple]| && Gives((tuples + [tuple])[t], key, name)
    {
      HeldAtMember(before, key, name);
      HeldAtMember(after, key, name);
      GivesMore(tuples, tuple, key, name);
      if k :| 0 <= k < |before| && before[k].key == key && name in before[k].names {
        assert after[k].key == key && name in after[k].names;
      }
      if Gives(tuple, key, name) { assert after[i].key == key && name in after[i].names; }
    }
  }

  lemma GivesMore(tuples: seq<Tuple>, tuple: Tuple, key: Str, name: Str)
    ensures (exists t :: 0 <= t < |tuples + [tuple]| && Gives((tuples + [tuple])[t], key, name)) <==>
            (exists t :: 0 <= t < |tuples| && Gives(tuples[t], key, name)) || Gives(tuple, key, name)
  {
    var all := tuples + [tuple];
    if t :| 0 <= t < |tuples| && Gives(tuples[t], key, name) { assert Gives(all[t], key, name); }
    if Gives(tuple, key, name) { assert Gives(all[|tuples|], key, name); }
  }

  // --- what the planner is told ------------------------------------------------------------------------

  /** A key cut at its first slash. */
  function Split(held: Held): Relation
    requires SlashAt(held.key) >= 0
  {
    Relation(held.key[..SlashAt(held.key)], held.key[SlashAt(held.key) + 1..], held.names)
  }

  function Relations(held: seq<Held>): (r: seq<Relation>)
    requires RealKeys(held)
    ensures |r| == |held| && forall i :: 0 <= i < |held| ==> r[i] == Split(held[i])
  {
    seq(|held|, i requires 0 <= i < |held| => Split(held[i]))
  }

  lemma SplitJoins(held: Held)
    requires RealKey(held.key)
    ensures held.key == Key(Split(held).kind, Split(held).id) && CatalogType(Split(held).kind)
  {
    var at := SlashAt(held.key);
    assert held.key[at..at + 1] == [SLASH];
    assert held.key == held.key[..at] + held.key[at..at + 1] + held.key[at + 1..];
  }

  /** A pair whose type has no slash is found by its key. */
  lemma {:induction false} SameList(held: seq<Held>, kind: Str, id: Str)
    requires RealKeys(held) && SLASH !in kind
    ensures RelationsOn(Relations(held), kind, id) == HeldAt(held, Key(kind, id))
  {
    hide Key, SlashAt, CatalogType;
    if held != [] {
      SameList(held[1..], kind, id);
      assert Relations(held)[1..] == Relations(held[1..]);
      SplitJoins(held[0]);
      FirstSlash(kind, id);
    }
  }

  lemma {:induction false} NoPair(held: seq<Held>, kind: Str, id: Str)
    requires RealKeys(held) && !CatalogType(kind)
    ensures RelationsOn(Relations(held), kind, id) == []
  {
    hide SlashAt, CatalogType;
    if held != [] {
      NoPair(held[1..], kind, id);
      assert Relations(held)[1..] == Relations(held[1..]);
      SplitJoins(held[0]);
    }
  }

  lemma {:induction false} NoKey(held: seq<Held>, key: Str)
    requires RealKeys(held) && !RealKey(key)
    ensures HeldAt(held, key) == []
  {
    hide RealKey;
    if held != [] { NoKey(held[1..], key); }
  }

  // --- the decision the server makes --------------------------------------------------------------------

  function ServerContext(input: Input, held: seq<Held>, res: Resource): Context {
    (input.context + AttributeContext(res.attributes))[
      TENANT_KEY := Single(String(input.tenantId))][
      RELATIONS_KEY := List(Texts(RelationsOf(held, Some(input.resourceType), Some(res.id))))][
      PARENT_RELATIONS_KEY := List(Texts(RelationsOf(held, TextAt(res.attributes, PARENT_TYPE), TextAt(res.attributes, PARENT_ID))))]
      + res.derived
  }

  /** `text`: not blank, not too long, and no control character but delete. */
  predicate PlainText(s: Str, max: nat) {
    (exists i :: 0 <= i < |s| && !White(s[i])) && |s| <= max && forall i :: 0 <= i < |s| ==> s[i] >= 32
  }

  function ServerRequest(input: Input, held: seq<Held>, res: Resource): Request {
    Request(input.action, Key(input.resourceType, res.id), ServerContext(input, held, res))
  }

  /** The server resolves the resource and allows it. */
  predicate ServerPermits(h: Host, input: Input, held: seq<Held>, res: Resource) {
    PlainText(res.id, 256) && PermittedAs(h, input, res, ServerRequest(input, held, res))
  }

  const DELETE: CodeUnit := 127

  /** An id the server resolves and the engine takes. */
  predicate ServerId(id: Str) { PlainText(id, 256) && DELETE !in id }

  /** For a type of the catalog such an id makes the text of a valid request, and of the ids resolved no other does. */
  lemma RequestText(kind: Str, id: Str)
    requires TypeName(kind) && PlainText(id, 256)
    ensures NonEmptyText(Key(kind, id), 2048) <==> DELETE !in id
  {
    var key := Key(kind, id);
    assert forall i :: 0 <= i < |id| ==> key[|kind| + 1 + i] == id[i];
    assert forall i :: 0 <= i < |kind| ==> key[i] == kind[i];
    assert key[|kind|] == SLASH;
  }

  /** The planner's input for these relations. */
  function Told(input: Input, held: seq<Held>): Input
    requires RealKeys(held)
  {
    input.(relations := Relations(held))
  }

  /**
   * The row's parent is looked up under a key that says the same to the planner: not `iam` naming another resource, and
   * no type with a slash that runs into the key of one.
   */
  predicate OrdinaryParent(res: Resource) {
    var kind, id := TextAt(res.attributes, PARENT_TYPE), TextAt(res.attributes, PARENT_ID);
    kind.Some? && id.Some? ==>
      && !(kind.value == IAM && RealKey(id.value))
      && !(SLASH in kind.value && RealKey(Key(kind.value, id.value)))
  }

  lemma ParentsSame(held: seq<Held>, kind: Str, id: Str)
    requires RealKeys(held) && !(kind == IAM && RealKey(id)) && !(SLASH in kind && RealKey(Key(kind, id)))
    ensures RelationsOn(Relations(held), kind, id) == RelationsOf(held, Some(kind), Some(id))
  {
    hide RealKey, RealKeys, HeldAt, RelationsOn, Relations;
    if kind == IAM {
      NoKey(held, id);
      NoPair(held, kind, id);
    } else if SLASH in kind {
      NoKey(held, Key(kind, id));
      if TypeName(kind) { CatalogTypeSlash(kind); }
      NoPair(held, kind, id);
    } else {
      SameList(held, kind, id);
    }
  }

  lemma OwnSame(held: seq<Held>, kind: Str, id: Str)
    requires RealKeys(held) && CatalogType(kind)
    ensures RelationsOn(Relations(held), kind, id) == RelationsOf(held, Some(kind), Some(id))
  {
    CatalogTypeSlash(kind);
    SameList(held, kind, id);
  }

  /** For a row with an ordinary parent the server's context is the one the plan was made for. */
  lemma SameRequest(h: Host, input: Input, held: seq<Held>, res: Resource)
    requires RealKeys(held) && CatalogType(input.resourceType) && OrdinaryParent(res)
    ensures ServerRequest(input, held, res) == RowRequest(Told(input, held), res)
  {
    var kind, id := TextAt(res.attributes, PARENT_TYPE), TextAt(res.attributes, PARENT_ID);
    hide RealKeys, RealKey, CatalogType, RelationsOn, HeldAt, TypeName, AttributeContext, Relations;
    OwnSame(held, input.resourceType, res.id);
    if kind.Some? && id.Some? { ParentsSame(held, kind.value, id.value); }
    hide RelationsOf;
    assert ServerContext(input, held, res) == RowContext(Told(input, held), res);
  }

  /** The server's decision for such a row: its id, and then what the documents mean for the planner's input. */
  lemma SameDecision(h: Host, input: Input, held: seq<Held>, res: Resource)
    requires RealKeys(held) && CatalogType(input.resourceType) && OrdinaryParent(res)
    requires ValidDocuments(h, AllDocuments(input)) && NonEmptyText(input.action, 512)
    ensures ServerPermits(h, input, held, res) <==> ServerId(res.id) && Meant(h, Told(input, held), res)
  {
    SameRequest(h, input, held, res);
    hide MeantAs, PermittedAs, ServerRequest, RowContext, PlainText, ValidDocuments, NonEmptyText, Relations, OrdinaryParent;
    ServerAnswer(h, input, held, res);
    ToldAlike(h, input, held, res, ServerRequest(input, held, res));
  }

  lemma ServerAnswer(h: Host, input: Input, held: seq<Held>, res: Resource)
    requires CatalogType(input.resourceType) && ValidDocuments(h, AllDocuments(input)) && NonEmptyText(input.action, 512)
    ensures ServerPermits(h, input, held, res) <==> ServerId(res.id) && MeantAs(h, input, res, ServerRequest(input, held, res))
  {
    PermittedMeant(h, input, res, ServerRequest(input, held, res));
    hide MeantAs, PermittedAs, ServerContext, PlainText, ValidDocuments, NonEmptyText, TypeName;
    if PlainText(res.id, 256) { RequestText(input.resourceType, res.id); }
  }

  /** What documents mean for a request does not depend on the relations the planner is told. */
  lemma ToldAlike(h: Host, input: Input, held: seq<Held>, res: Resource, r: Request)
    requires RealKeys(held)
    ensures MeantAs(h, input, res, r) <==> MeantAs(h, Told(input, held), res, r)
  {
    hide Decide, RealKeys, FilterMatches;
    var told := Told(input, held);
    assert forall i :: 0 <= i < |input.paths| ==> (PathAllows(h, input, input.paths[i], r) <==> PathAllows(h, told, told.paths[i], r));
  }

  const IAM_PREFIX: Str := IAM + [58]

  /** `planTarget`: an action that is not the server's own, and a type that is planned for. */
  predicate PlanTarget(action: Str, kind: Str) {
    PlainText(action, 256) && !OccursAt(action, IAM_PREFIX, 0) && PlanType(kind)
  }

  /**
   * `principalPlan`, past the fixed answers: the relations cut at their slashes and planned with. The server permits
   * exactly the resources with ordinary parents that pass the filter and whose names, as the action's, it takes.
   */
  method PlanForType(h: Host, input: Input, held: seq<Held>) returns (r: PlanResult)
    requires h.Lawful() && Tidy(h, input) && RealKeys(held)
    ensures !PlanTarget(input.action, input.resourceType) ==> r.InvalidType?
    ensures r.Plan? ==> forall res: Resource :: Candidate(input, res) && OrdinaryParent(res) ==>
              (ServerPermits(h, input, held, res) <==>
               FilterMatches(h, r.filter, res.Record()) && ServerId(res.id) && DELETE !in input.action)
    ensures PlanTarget(input.action, input.resourceType) && ValidDocuments(h, AllDocuments(input)) ==>
              Expressible(h, Told(input, held)) ==> r.Plan?
  {
    hide Host.Lawful, TidyDocuments, CatalogType, PlannerContext, RowContext, ValidDocuments, ServerPermits, MeantAs, FilterMatches;
    hide OrdinaryParent, Because, AllDocuments, Planned, ServerContext, Answers, ServerId;
    PlannedTypes(input.action, input.resourceType);
    hide PlanTarget;
    if !PlanTarget(input.action, input.resourceType) { return InvalidType; }
    var relations: seq<Relation> := [];
    var i := 0;
    while i < |held|
      invariant i <= |held| && relations == Relations(held)[..i]
    {
      var slash := SlashAt(held[i].key);
      relations := relations + [Relation(held[i].key[..slash], held[i].key[slash + 1..], held[i].names)];
      i := i + 1;
    }
    assert relations == Relations(held);
    SameBut(h, input, held);
    r := PlanResources(h, input.(relations := relations));
    if r.Plan? {
      forall res: Resource | Candidate(input, res) && OrdinaryParent(res)
        ensures ServerPermits(h, input, held, res) <==>
                FilterMatches(h, r.filter, res.Record()) && ServerId(res.id) && DELETE !in input.action
      { PlannedRow(h, input, held, res); }
    }
  }

  lemma PlannedTypes(action: Str, kind: Str)
    ensures PlanTarget(action, kind) ==> CatalogType(kind)
  {}

  lemma PlannedRow(h: Host, input: Input, held: seq<Held>, res: Resource)
    requires RealKeys(held) && PlanTarget(input.action, input.resourceType) && OrdinaryParent(res)
    requires ValidDocuments(h, AllDocuments(input))
    ensures ServerPermits(h, input, held, res) <==>
            Meant(h, Told(input, held), res) && ServerId(res.id) && DELETE !in input.action
  {
    hide PermittedAs, MeantAs, ValidDocuments, OrdinaryParent, ServerId, RealKeys, RowContext, ServerContext;
    PlannedTypes(input.action, input.resourceType);
    if DELETE !in input.action {
      SameDecision(h, input, held, res);
    } else {
      var i :| 0 <= i < |input.action| && input.action[i] == DELETE;
      assert !NonEmptyText(input.action, 512);
      PermittedMeant(h, input, res, ServerRequest(input, held, res));
    }
  }

  lemma SameBut(h: Host, input: Input, held: seq<Held>)
    requires RealKeys(held)
    ensures Tidy(h, input) ==> Tidy(h, Told(input, held))
    ensures AllDocuments(Told(input, held)) == AllDocuments(input)
    ensures CatalogType(input.resourceType) ==> input.resourceType != [] && 47 !in input.resourceType
  {
    if CatalogType(input.resourceType) { CatalogTypeSlash(input.resourceType); }
  }

  // --- where plan and server part ------------------------------------------------------------------------

  /** What the server may be asked about: valid policies, and an action and a type of its own kinds. */
  predicate Askable(h: Host, input: Input, held: seq<Held>) {
    RealKeys(held) && CatalogType(input.resourceType) && NonEmptyText(input.action, 512) && ValidDocuments(h, AllDocuments(input))
  }

  /** Whatever the policies and relations, a plan gives this row the server's answer. */
  ghost predicate PlansRight(h: Host, res: Resource) {
    forall input: Input, held: seq<Held> ::
      Askable(h, input, held) && Candidate(input, res) ==>
      (ServerPermits(h, input, held, res) <==> Meant(h, Told(input, held), res))
  }

  const FILE: Str := [102]
  const RELATION: Str := [114]

  /** No resource may be read whose parent the principal holds the relation on. */
  const ON_PARENT: Condition := Condition(ArrayContains, PARENT_RELATIONS_KEY, [String(RELATION)])
  const ONLY_PARENT: Statement := Statement(Deny, [STAR], [STAR], [ON_PARENT])

  function DenyInput(res: Resource): Input {
    Input(FILE, FILE, FILE, map[], [Document([ONLY_PARENT])], [], [Path([ALLOW_ALL], [])], [], None, res.derived.Keys)
  }

  function HeldOnParent(kind: Str, id: Str): seq<Held> {
    [Held(if kind == IAM then id else Key(kind, id), [RELATION])]
  }

  lemma PlainValue(h: Host, ctx: Context)
    ensures Wanted(h, String(RELATION), ctx) == Some(String(RELATION))
  {
    assert |MARKER| == 2;
  }

  /** The one condition holds exactly when the list has the relation. */
  lemma OnParentHolds(h: Host, ctx: Context, names: seq<Str>)
    requires PARENT_RELATIONS_KEY in ctx && ctx[PARENT_RELATIONS_KEY] == List(Texts(names))
    ensures ConditionHolds(h, ON_PARENT, ctx) <==> RELATION in names
  {
    PlainValue(h, ctx);
    TextsInclude(names, String(RELATION));
    assert ON_PARENT.values[0] == String(RELATION);
    hide Wanted;
    assert TestValue(h, ArrayContains, List(Texts(names)), ON_PARENT.values[0], ctx) <==> RELATION in names;
    assert ValueHolds(h, ArrayContains, ON_PARENT.values, List(Texts(names)), ctx) <==>
           TestValue(h, ArrayContains, List(Texts(names)), ON_PARENT.values[0], ctx);
  }

  /** With this deny alone, what decides is whether the parent's list has the relation. */
  lemma DeniedOnParent(h: Host, res: Resource, input: Input, r: Request, names: seq<Str>)
    requires input.(relations := []) == DenyInput(res)
    requires PARENT_RELATIONS_KEY in r.context && r.context[PARENT_RELATIONS_KEY] == List(Texts(names))
    ensures MeantAs(h, input, res, r) <==> RELATION !in names
  {
    hide StatementMatches, ConditionHolds, DocumentMarks;
    var denies, allow := [Document([ONLY_PARENT])], [ALLOW_ALL];
    OnParentHolds(h, r.context, names);
    OpenStatement(h, Deny, [ON_PARENT], r);
    assert ONLY_PARENT.conditions[0] == ON_PARENT;
    assert StatementMatches(h, ONLY_PARENT, r) <==> RELATION in names;
    assert denies[0].statements[0] == ONLY_PARENT;
    assert DocumentHas(h, denies[0], Deny, r) <==> RELATION in names;
    assert AnyDocumentHas(h, denies, Deny, r) <==> RELATION in names;
    hide DocumentHas;
    AllowAllHas(h, r);
    AllowedWhen(h, r, allow + denies, []);
    AllowedWhen(h, r, allow, [] + []);
    assert allow[0] == ALLOW_ALL && allow + [] == allow && (allow + denies) + [] == allow + denies;
    assert AnyDocumentHas(h, allow, Deny, r) ==> DocumentHas(h, ALLOW_ALL, Deny, r);
    assert AnyDocumentHas(h, allow, Allow, r);
    assert PathAllows(h, input, input.paths[0], r);
  }

  /** The deny is a policy like any other. */
  lemma DenyInputValid(h: Host, res: Resource)
    ensures ValidDocuments(h, AllDocuments(DenyInput(res)))
  {
    var input := DenyInput(res);
    assert |MARKER| == 2;
    ParentKeyText();
    assert ValidCondition(h, ON_PARENT);
    assert ValidStatement(h, ONLY_PARENT);
    AllowAllValid(h);
    hide ValidStatement;
    assert PathDocuments(input.paths[1..]) == [];
  }

  predicate Printable(s: string) { forall i :: 0 <= i < |s| ==> ' ' <= s[i] <= '~' }

  lemma PrintableText(s: string, max: nat)
    requires Printable(s) && 0 < |s| <= max
    ensures NonEmptyText(U(s), max)
  {
    forall i | 0 <= i < |s|
      ensures 32 <= U(s)[i] < 127
    { assert ' ' <= s[i] <= '~'; }
  }

  lemma ParentKeyText()
    ensures NonEmptyText(PARENT_RELATIONS_KEY, 128)
  {
    ParentKeyPrintable();
    PrintableText("resource.parentRelations", 128);
  }

  lemma ParentKeyPrintable()
    ensures Printable("resource.parentRelations")
  {
    var a, b, c := "resource", ".parent", "Relations";
    assert Printable(a) && Printable(b) && Printable(c);
    assert "resource.parentRelations" == a + b + c;
  }

  /**
   * Where plan and server part on a row, exactly: its id is one the server or the engine refuses, or its parent is not
   * ordinary. Then a relation held under the key the server looks up is none the planner knows, and a deny that rests on
   * it is dropped.
   */
  lemma ParentExactIff(h: Host, res: Resource)
    requires res.Valid() && forall key :: key in res.derived ==> RowVariable(key)
    ensures PlansRight(h, res) <==> OrdinaryParent(res) && ServerId(res.id)
    ensures !OrdinaryParent(res) ==>
              var held := HeldOnParent(TextAt(res.attributes, PARENT_TYPE).value, TextAt(res.attributes, PARENT_ID).value);
              && Askable(h, DenyInput(res), held) && !ServerPermits(h, DenyInput(res), held, res)
              && Meant(h, Told(DenyInput(res), held), res)
    ensures !ServerId(res.id) ==>
              && Askable(h, AllowInput(FILE, FILE, res), []) && !ServerPermits(h, AllowInput(FILE, FILE, res), [], res)
              && Meant(h, Told(AllowInput(FILE, FILE, res), []), res)
  {
    hide ServerPermits, MeantAs, RealKeys, ServerId, ValidDocuments;
    if !OrdinaryParent(res) {
      DroppedDeny(h, res);
      assert Candidate(DenyInput(res), res);
    }
    if !ServerId(res.id) {
      RefusedId(h, res);
      assert Candidate(AllowInput(FILE, FILE, res), res);
    }
    if OrdinaryParent(res) && ServerId(res.id) {
      forall input: Input, held: seq<Held> | Askable(h, input, held) && Candidate(input, res)
        ensures ServerPermits(h, input, held, res) <==> Meant(h, Told(input, held), res)
      { SameDecision(h, input, held, res); }
    }
  }

  /** An id the server or the engine refuses: the plan that allows everything lists it. */
  lemma RefusedId(h: Host, res: Resource)
    requires !ServerId(res.id)
    ensures var input := AllowInput(FILE, FILE, res);
            Askable(h, input, []) && !ServerPermits(h, input, [], res) && Meant(h, Told(input, []), res)
  {
    var input := AllowInput(FILE, FILE, res);
    NothingTold(input);
    FileText();
    AllowInputMeans(h, FILE, FILE, res);
    hide MeantAs, ValidDocuments, AllDocuments, RowContext, TypeName, NonEmptyText, RealKeys, Relations;
    NotPermitted(h, input, [], res);
  }

  lemma NothingTold(input: Input)
    requires input.relations == []
    ensures RealKeys([]) && Told(input, []) == input
  {}

  lemma FileText()
    ensures CatalogType(FILE) && NonEmptyText(FILE, 512)
  {}

  lemma NotPermitted(h: Host, input: Input, held: seq<Held>, res: Resource)
    requires !ServerId(res.id) && CatalogType(input.resourceType) && ValidDocuments(h, AllDocuments(input))
    ensures !ServerPermits(h, input, held, res)
  {
    hide MeantAs, PermittedAs, ServerContext, ValidDocuments, TypeName, NonEmptyText, PlainText;
    PermittedMeant(h, input, res, ServerRequest(input, held, res));
    if PlainText(res.id, 256) { RequestText(input.resourceType, res.id); }
  }

  lemma DroppedDeny(h: Host, res: Resource)
    requires !OrdinaryParent(res) && res.Valid() && forall key :: key in res.derived ==> RowVariable(key)
    ensures var held := HeldOnParent(TextAt(res.attributes, PARENT_TYPE).value, TextAt(res.attributes, PARENT_ID).value);
            && Askable(h, DenyInput(res), held) && !ServerPermits(h, DenyInput(res), held, res)
            && Meant(h, Told(DenyInput(res), held), res)
  {
    var kind, id := TextAt(res.attributes, PARENT_TYPE).value, TextAt(res.attributes, PARENT_ID).value;
    var input, held := DenyInput(res), HeldOnParent(kind, id);
    LostRelation(kind, id);
    DenyInputValid(h, res);
    FileText();
    DeniedByServer(h, res, held, RelationsOf(held, Some(kind), Some(id)));
    AllowedByPlan(h, res, held, kind, id);
  }

  lemma DeniedByServer(h: Host, res: Resource, held: seq<Held>, names: seq<Str>)
    requires RELATION in names && ValidDocuments(h, AllDocuments(DenyInput(res)))
    requires names == RelationsOf(held, TextAt(res.attributes, PARENT_TYPE), TextAt(res.attributes, PARENT_ID))
    requires Candidate(DenyInput(res), res)
    ensures !ServerPermits(h, DenyInput(res), held, res)
  {
    var input := DenyInput(res);
    ServerList(input, held, res);
    hide MeantAs, PermittedAs, RelationsOf, ServerContext, ValidDocuments, AllDocuments, TextAt;
    DeniedOnParent(h, res, input, ServerRequest(input, held, res), names);
    PermittedMeant(h, input, res, ServerRequest(input, held, res));
  }

  lemma AllowedByPlan(h: Host, res: Resource, held: seq<Held>, kind: Str, id: Str)
    requires RealKeys(held) && RelationsOn(Relations(held), kind, id) == [] && Candidate(DenyInput(res), res)
    requires TextAt(res.attributes, PARENT_TYPE) == Some(kind) && TextAt(res.attributes, PARENT_ID) == Some(id)
    ensures Meant(h, Told(DenyInput(res), held), res)
  {
    var told := Told(DenyInput(res), held);
    RowContextConstants(told, res);
    hide MeantAs, RelationsOn, RowContext, Relations, RealKeys, TextAt;
    assert ParentRelations(told, res) == [];
    DeniedOnParent(h, res, told, RowRequest(told, res), []);
  }

  /** Held for the server, unknown to the planner. */
  lemma LostRelation(kind: Str, id: Str)
    requires (kind == IAM && RealKey(id)) || (SLASH in kind && RealKey(Key(kind, id)))
    ensures var held := HeldOnParent(kind, id);
            && RealKeys(held) && RELATION in RelationsOf(held, Some(kind), Some(id))
            && RelationsOn(Relations(held), kind, id) == []
  {
    var held := HeldOnParent(kind, id);
    assert held[1..] == [];
    hide RealKey, TypeName;
    if kind != IAM && TypeName(kind) { CatalogTypeSlash(kind); }
    NoPair(held, kind, id);
  }

  lemma ServerList(input: Input, held: seq<Held>, res: Resource)
    requires Candidate(input, res)
    ensures var ctx := ServerContext(input, held, res);
            && PARENT_RELATIONS_KEY in ctx
            && ctx[PARENT_RELATIONS_KEY] ==
                 List(Texts(RelationsOf(held, TextAt(res.attributes, PARENT_TYPE), TextAt(res.attributes, PARENT_ID))))
  {
    hide AttributeContext, RelationsOf;
  }

  /** The parents that are not ordinary: `iam` with a resource's key, and a type that is the start of a resource's key. */
  lemma PartingParents(res: Resource, kind: Str, more: Str)
    requires CatalogType(kind)
    requires var parentType, parentId := TextAt(res.attributes, PARENT_TYPE), TextAt(res.attributes, PARENT_ID);
             || (parentType == Some(IAM) && parentId == Some(Key(kind, more)))
             || (parentType == Some(Key(kind, more)) && parentId.Some?)
    ensures !OrdinaryParent(res)
  {
    hide Key;
    CatalogTypeSlash(kind);
    FirstSlash(kind, more);
    var parentType := TextAt(res.attributes, PARENT_TYPE).value;
    if parentType != IAM {
      var parentId := TextAt(res.attributes, PARENT_ID).value;
      JoinedTwice(kind, more, parentId);
      FirstSlash(kind, Key(more, parentId));
      KeyHasSlash(kind, more);
    }
  }

  lemma JoinedTwice(a: Str, b: Str, c: Str)
    ensures Key(Key(a, b), c) == Key(a, Key(b, c))
  {}

  lemma KeyHasSlash(a: Str, b: Str)
    ensures SLASH in Key(a, b)
  {
    assert Key(a, b)[|a|] == SLASH;
  }
}
