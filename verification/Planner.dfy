/** The planner as it runs: statements to filters, under a work limit that can only refuse. */
module Planning {
  import opened Wrappers
  import opened Text
  import opened Glob
  import opened Patterns
  import opened Policy
  import opened Filter
  import opened Residual
  import opened Conditions
  import opened PlanModel
  import opened ConditionFilters
  import opened Sums

  const PLAN_WORK_LIMIT: int := 200_000

  datatype Refusal = TooComplex | RowDependentValue | IdCondition | DerivedKey
  datatype Outcome = Refused(reason: Refusal) | Filtered(filter: ResourceFilter)
  datatype PlanKind = Always | Never | Conditional
  datatype PlanResult = InvalidDocuments | InvalidType | Unsupported(reason: Refusal) | Plan(kind: PlanKind, filter: ResourceFilter)

  // --- what a filter stands for --------------------------------------------------------------------

  /** The filter passes exactly the resources the statement matches. */
  ghost predicate ForStatement(h: Host, input: Input, f: ResourceFilter, s: Statement) {
    Planned(f) &&
    forall res: Resource :: Candidate(input, res) ==>
      (FilterMatches(h, f, res.Record()) <==> StatementMatches(h, s, RowRequest(input, res)))
  }

  /** The filter passes exactly the resources some statement of the effect matches. */
  ghost predicate ForAny(h: Host, input: Input, f: ResourceFilter, ds: seq<Document>, effect: Effect) {
    Planned(f) &&
    forall res: Resource :: Candidate(input, res) ==>
      (FilterMatches(h, f, res.Record()) <==> AnyDocumentHas(h, ds, effect, RowRequest(input, res)))
  }

  /** The filter passes exactly the resources every document allows. */
  ghost predicate ForEvery(h: Host, input: Input, f: ResourceFilter, ds: seq<Document>) {
    Planned(f) &&
    forall res: Resource :: Candidate(input, res) ==>
      (FilterMatches(h, f, res.Record()) <==> EveryDocumentHas(h, ds, Allow, RowRequest(input, res)))
  }

  /** What one grant path asks, besides what every path asks. */
  predicate PathHolds(h: Host, path: Path, r: Request) {
    && !AnyDocumentHas(h, path.grants + path.boundaries, Deny, r)
    && AnyDocumentHas(h, path.grants, Allow, r)
    && EveryDocumentHas(h, path.boundaries, Allow, r)
  }

  ghost predicate ForPath(h: Host, input: Input, f: ResourceFilter, path: Path) {
    Planned(f) &&
    forall res: Resource :: Candidate(input, res) ==>
      (FilterMatches(h, f, res.Record()) <==> PathHolds(h, path, RowRequest(input, res)))
  }

  /** The filter passes exactly the resources the documents are meant to allow. */
  ghost predicate Exact(h: Host, input: Input, f: ResourceFilter) {
    Planned(f) && forall res: Resource :: Candidate(input, res) ==> (FilterMatches(h, f, res.Record()) <==> Meant(h, input, res))
  }

  /** Of the resources whose names the engine takes, the filter passes exactly those it permits; it permits no others. */
  ghost predicate Answers(h: Host, input: Input, f: ResourceFilter) {
    forall res: Resource :: Candidate(input, res) ==>
      (Permitted(h, input, res) <==> ValidRequest(RowRequest(input, res)) && FilterMatches(h, f, res.Record()))
  }

  /** The filter passes exactly the ids that complete the prefix to a match. */
  ghost predicate ForIds(h: Host, f: ResourceFilter, tokens: seq<Token>, prefix: seq<Str>) {
    forall res: Resource :: res.Valid() ==>
      (FilterMatches(h, f, res.Record()) <==> Accepts(tokens, prefix + Chars(res.id)))
  }

  ghost predicate NoId(tokens: seq<Token>, prefix: seq<Str>) {
    forall id: Str :: id != [] ==> !Accepts(tokens, prefix + Chars(id))
  }

  // --- reasons to refuse ---------------------------------------------------------------------------

  /** Some text behind the prefix lets the tokens match. */
  ghost predicate Reaches(tokens: seq<Token>, prefix: seq<Str>) {
    exists cs :: cs != [] && Accepts(tokens, prefix + cs)
  }

  /** A pattern, a star for each of its row variables, that a resource of the type could match. */
  ghost predicate PatternReaches(h: Host, input: Input, pattern: Str) {
    var tokens := PatternTokens(h, pattern, PlannerContext(input), NamesRowVariable(Pieces(pattern)));
    tokens.Some? && Reaches(tokens.value, Chars(Prefix(input)))
  }

  /** A condition planned by itself. */
  predicate Standalone(input: Input, c: Condition) {
    !RowDependent(c) && c.key != ID_KEY && c.key !in input.derivedKeys
  }

  /** No condition planned by itself is found to hold of nothing. */
  ghost predicate Open(h: Host, input: Input, ids: IdIndex, parents: ParentIndex, s: Statement, n: nat)
    requires n <= |s.conditions|
  {
    forall i :: 0 <= i < n && Standalone(input, s.conditions[i]) ==> !ConditionFilter(h, input, ids, parents, s.conditions[i]).False?
  }

  /** As far as the plan can tell the statement could apply: the action, some pattern, and every planned condition. */
  ghost predicate CouldApply(h: Host, input: Input, s: Statement) {
    && ActionMatches(h, s, input.action)
    && (exists i :: 0 <= i < |s.resources| && PatternReaches(h, input, s.resources[i]))
    && exists ids, parents :: Indexed(input, ids, parents) && Open(h, input, ids, parents, s, |s.conditions|)
  }

  /** A pattern that could match, or a value, is compared with the row's own. */
  ghost predicate NamesRow(h: Host, input: Input, s: Statement) {
    || (exists i :: 0 <= i < |s.resources| && NamesRowVariable(Pieces(s.resources[i])) && PatternReaches(h, input, s.resources[i]))
    || (exists i :: 0 <= i < |s.conditions| && RowDependent(s.conditions[i]))
  }

  predicate HasKey(s: Statement, keys: set<Str>) {
    exists i :: 0 <= i < |s.conditions| && s.conditions[i].key in keys
  }

  /** Planning a statement refuses, unless it takes too much work, only for a reason in it and only if it could apply. */
  ghost predicate Caused(h: Host, reason: Refusal, input: Input, s: Statement) {
    CouldApply(h, input, s) &&
    match reason
    case TooComplex => false
    case RowDependentValue => NamesRow(h, input, s)
    case IdCondition => HasKey(s, {ID_KEY})
    case DerivedKey => HasKey(s, input.derivedKeys)
  }

  ghost predicate CausedIn(h: Host, reason: Refusal, input: Input, ds: seq<Document>) {
    exists d, s :: 0 <= d < |ds| && 0 <= s < |ds[d].statements| && Caused(h, reason, input, ds[d].statements[s])
  }

  // --- the work of a plan ----------------------------------------------------------------------------

  /** At most every state for each character of the prefix, and the rest of the tokens for every state. */
  function IdWork(tokens: nat, prefix: nat): nat { (prefix + tokens + 1) * (tokens + 1) }

  function PatternWork(h: Host, input: Input, pattern: Str): nat {
    match PatternTokens(h, pattern, PlannerContext(input), NamesRowVariable(Pieces(pattern)))
    case None => 0
    case Some(tokens) => IdWork(|tokens|, |Chars(Prefix(input))|)
  }

  function PatternCosts(h: Host, input: Input, s: Statement): (r: seq<nat>)
    ensures |r| == |s.resources|
  {
    seq(|s.resources|, i requires 0 <= i < |s.resources| => PatternWork(h, input, s.resources[i]))
  }

  function ConditionCosts(s: Statement): (r: seq<nat>)
    ensures |r| == |s.conditions|
  {
    seq(|s.conditions|, i requires 0 <= i < |s.conditions| => |s.conditions[i].values|)
  }

  function StatementWork(h: Host, input: Input, s: Statement): nat {
    Sum(PatternCosts(h, input, s)) + Sum(ConditionCosts(s))
  }

  function StatementCosts(h: Host, input: Input, d: Document, effect: Effect): (r: seq<nat>)
    ensures |r| == |d.statements|
  {
    seq(|d.statements|, i requires 0 <= i < |d.statements| =>
      if d.statements[i].effect == effect then StatementWork(h, input, d.statements[i]) else 0)
  }

  function DocumentCosts(h: Host, input: Input, ds: seq<Document>, effect: Effect): (r: seq<nat>)
    ensures |r| == |ds|
  {
    seq(|ds|, i requires 0 <= i < |ds| => Sum(StatementCosts(h, input, ds[i], effect)))
  }

  function AnyWork(h: Host, input: Input, ds: seq<Document>, effect: Effect): nat {
    Sum(DocumentCosts(h, input, ds, effect))
  }

  function PathWork(h: Host, input: Input, path: Path): nat {
    AnyWork(h, input, path.grants + path.boundaries, Deny) + AnyWork(h, input, path.grants, Allow)
      + AnyWork(h, input, path.boundaries, Allow)
  }

  function PathCosts(h: Host, input: Input): (r: seq<nat>)
    ensures |r| == |input.paths|
  {
    seq(|input.paths|, i requires 0 <= i < |input.paths| => PathWork(h, input, input.paths[i]))
  }

  /** A bound on the work of a plan: what its statements would cost if none were found not to apply. */
  function PlanWork(h: Host, input: Input): nat {
    AnyWork(h, input, input.denies + input.boundaries, Deny) + AnyWork(h, input, input.boundaries, Allow)
      + Sum(PathCosts(h, input))
  }

  lemma {:induction false} StatesCount(states: set<nat>, n: nat)
    requires forall s :: s in states ==> s <= n
    ensures |states| <= n + 1
  {
    if n == 0 {
      assert states <= {0};
      SubsetSize(states, {0});
    } else {
      StatesCount(states - {n}, n - 1);
      assert |states| <= |states - {n}| + 1;
    }
  }

  /** The work of so many steps, each over every state at most. */
  function StepsWork(tokens: nat, steps: nat): nat { steps * (tokens + 1) }

  lemma NoStep(tokens: nat)
    ensures StepsWork(tokens, 0) == 0
  {}

  lemma OneStep(tokens: nat, n: nat, all: nat)
    ensures StepsWork(tokens, n + 1) == StepsWork(tokens, n) + tokens + 1
    ensures n < all ==> StepsWork(tokens, n + 1) <= StepsWork(tokens, all)
  {
    if n < all { MoreSteps(tokens, n + 1, all); }
  }

  lemma MoreSteps(tokens: nat, n: nat, m: nat)
    ensures n <= m ==> StepsWork(tokens, n) <= StepsWork(tokens, m)
  {
    if n <= m { MoreTimes(n, m, tokens + 1); }
  }

  lemma IdWorkSplits(tokens: nat, prefix: nat)
    ensures IdWork(tokens, prefix) == StepsWork(tokens, prefix) + StepsWork(tokens, tokens + 1)
  {}

  lemma MoreTimes(a: nat, b: nat, c: nat)
    requires a <= b
    ensures a * c <= b * c
  {
    assert b * c == a * c + (b - a) * c;
  }

  // --- lemmas on states and parts --------------------------------------------------------------------

  ghost predicate AtPrefix(tokens: seq<Token>, states: set<nat>, prefix: seq<Str>) {
    && Closed(tokens, states)
    && forall cs :: SomeState(tokens, states, cs) <==> Accepts(tokens, prefix + cs)
  }

  lemma AtStart(tokens: seq<Token>, states: set<nat>)
    requires Closed(tokens, states)
    requires forall cs :: SomeState(tokens, states, cs) <==> SomeState(tokens, {0}, cs)
    ensures AtPrefix(tokens, states, [])
  {
    forall cs
      ensures SomeState(tokens, states, cs) <==> Accepts(tokens, [] + cs)
    {
      assert [] + cs == cs && tokens[0..] == tokens;
      assert SomeState(tokens, {0}, cs) <==> Accepts(tokens, cs);
    }
  }

  lemma AtNext(tokens: seq<Token>, states: set<nat>, fed: set<nat>, next: set<nat>, prefix: seq<Str>, c: Str)
    requires AtPrefix(tokens, states, prefix) && FedBy(tokens, states, fed, c) && Closed(tokens, next)
    requires forall cs :: SomeState(tokens, next, cs) <==> SomeState(tokens, fed, cs)
    ensures AtPrefix(tokens, next, prefix + [c])
  {
    hide Accepts, FedBy, Closed;
    forall cs
      ensures SomeState(tokens, next, cs) <==> Accepts(tokens, prefix + [c] + cs)
    {
      StepMeaning(tokens, states, fed, c, cs);
      assert prefix + [c] + cs == prefix + ([c] + cs);
    }
  }

  /** No state left: nothing completes the prefix, however it goes on. */
  lemma DeadFurther(tokens: seq<Token>, prefix: seq<Str>, more: seq<Str>)
    requires AtPrefix(tokens, {}, prefix)
    ensures AtPrefix(tokens, {}, prefix + more)
  {
    hide Accepts;
    forall cs
      ensures SomeState(tokens, {}, cs) <==> Accepts(tokens, prefix + more + cs)
    {
      assert prefix + more + cs == prefix + (more + cs);
      assert !SomeState(tokens, {}, more + cs);
    }
  }

  lemma Dead(h: Host, tokens: seq<Token>, prefix: seq<Str>)
    requires AtPrefix(tokens, {}, prefix)
    ensures NoId(tokens, prefix) && ForIds(h, False, tokens, prefix)
  {
    hide Accepts;
    forall cs
      ensures !Accepts(tokens, prefix + cs)
    { assert !SomeState(tokens, {}, cs); }
    forall res: Resource | res.Valid()
      ensures !FilterMatches(h, False, res.Record())
    { FalseMatchesNothing(h, res.Record()); }
  }

  /** The parts stand for the states, one each. */
  ghost predicate PartsOf(tokens: seq<Token>, states: set<nat>, parts: seq<ResourceFilter>) {
    && (forall s :: s in states ==> s <= |tokens| && RestFilter(tokens[s..]) in parts)
    && (forall i :: 0 <= i < |parts| ==> exists s :: s in states && s <= |tokens| && parts[i] == RestFilter(tokens[s..]))
  }

  /** A part that is left over lets some text match. */
  lemma PartsReach(tokens: seq<Token>, states: set<nat>, prefix: seq<Str>, parts: seq<ResourceFilter>)
    requires AtPrefix(tokens, states, prefix) && PartsOf(tokens, states, parts) && !OrFilter(parts).False?
    ensures Reaches(tokens, prefix)
  {
    hide Accepts, OrFilter, Closed;
    var i := OrSome(parts);
    var s :| s in states && s <= |tokens| && parts[i] == RestFilter(tokens[s..]);
    var cs := Instance(tokens[s..]);
    InstanceAccepted(tokens[s..]);
    assert SomeState(tokens, states, cs);
    assert cs != [] && Accepts(tokens, prefix + cs);
  }

  lemma PartsForIds(h: Host, tokens: seq<Token>, states: set<nat>, prefix: seq<Str>, parts: seq<ResourceFilter>)
    requires AtPrefix(tokens, states, prefix) && PartsOf(tokens, states, parts) && Valid(tokens)
    ensures Planned(OrFilter(parts))
    ensures OrFilter(parts).False? ==> NoId(tokens, prefix)
    ensures !OrFilter(parts).False? ==> Reaches(tokens, prefix)
    ensures h.Lawful() && TokensSeparable(tokens) ==> ForIds(h, OrFilter(parts), tokens, prefix)
  {
    if !OrFilter(parts).False? { PartsReach(tokens, states, prefix, parts); }
    hide Accepts, RestFilter, OrFilter, Host.Lawful, TokensSeparable, Closed, Reaches;
    forall i | 0 <= i < |parts|
      ensures Planned(parts[i]) && !parts[i].Or?
    {
      var s :| s in states && s <= |tokens| && parts[i] == RestFilter(tokens[s..]);
      RestPlanned(tokens[s..]);
    }
    ConstructorsPlanned(parts);
    if OrFilter(parts).False? {
      OrFalse(parts);
      forall id: Str | id != []
        ensures !Accepts(tokens, prefix + Chars(id))
      {
        if s :| s in states && s <= |tokens| && Accepts(tokens[s..], Chars(id)) {
          assert RestFilter(tokens[s..]).False?;
          RestPlanned(tokens[s..]);
          EmptyAccepts(Chars(id));
        }
      }
    }
    if h.Lawful() && TokensSeparable(tokens) {
      forall res: Resource | res.Valid()
        ensures FilterMatches(h, OrFilter(parts), res.Record()) <==> Accepts(tokens, prefix + Chars(res.id))
      {
        OrMeaning(h, parts, res.Record());
        PartsMean(h, tokens, states, parts, res);
        assert SomeState(tokens, states, Chars(res.id)) <==> Accepts(tokens, prefix + Chars(res.id));
      }
    }
  }

  lemma PartsMean(h: Host, tokens: seq<Token>, states: set<nat>, parts: seq<ResourceFilter>, res: Resource)
    requires PartsOf(tokens, states, parts) && Valid(tokens) && h.Lawful() && TokensSeparable(tokens) && res.Valid()
    ensures SomePasses(h, parts, res.Record()) <==> SomeState(tokens, states, Chars(res.id))
  {
    hide Accepts, RestFilter, Host.Lawful, TokensSeparable, FilterMatches, Valid;
    forall s: nat | s in states && s <= |tokens|
      ensures FilterMatches(h, RestFilter(tokens[s..]), res.Record()) <==> Accepts(tokens[s..], Chars(res.id))
    {
      SuffixSeparable(tokens, s);
      RestExact(h, tokens[s..], res.id, res.Record());
    }
    if SomeState(tokens, states, Chars(res.id)) {
      var s :| s in states && s <= |tokens| && Accepts(tokens[s..], Chars(res.id));
      var i :| 0 <= i < |parts| && parts[i] == RestFilter(tokens[s..]);
      assert FilterMatches(h, parts[i], res.Record());
    }
  }

  // --- resource patterns --------------------------------------------------------------------------------

  function Prefix(input: Input): Str { input.resourceType + [47] }

  lemma ResourceChars(input: Input, res: Resource)
    ensures Chars(RowRequest(input, res).resource) == Chars(Prefix(input)) + Chars(res.id)
  {
    CharsConcat(Prefix(input), res.id);
  }

  /** The filter of one resource pattern. */
  ghost predicate ForPattern(h: Host, input: Input, f: ResourceFilter, pattern: Str) {
    forall res: Resource :: Candidate(input, res) ==>
      (FilterMatches(h, f, res.Record()) <==>
       PatternMatches(h, pattern, RowRequest(input, res).resource, RowContext(input, res)))
  }

  lemma PatternFromIds(h: Host, input: Input, f: ResourceFilter, pattern: Str)
    requires !NamesRowVariable(Pieces(pattern))
    requires var tokens := PatternTokens(h, pattern, PlannerContext(input), false);
             tokens.Some? ==> ForIds(h, f, tokens.value, Chars(Prefix(input)))
    requires PatternTokens(h, pattern, PlannerContext(input), false).None? ==> f == False
    ensures ForPattern(h, input, f, pattern)
  {
    hide Accepts, FilterMatches, PlannerContext, RowContext, PieceTokensOf, NamesRowVariable, Chars;
    forall res: Resource | Candidate(input, res)
      ensures FilterMatches(h, f, res.Record()) <==>
              PatternMatches(h, pattern, RowRequest(input, res).resource, RowContext(input, res))
    {
      ContextsAgree(input, res);
      SameTokens(h, Pieces(pattern), PlannerContext(input), RowContext(input, res));
      ResourceChars(input, res);
      FalseMatchesNothing(h, res.Record());
    }
  }

  /** A row-dependent pattern whose widest form admits no id never matches a resource of the type. */
  lemma PatternTooNarrow(h: Host, input: Input, pattern: Str)
    requires var widest := PatternTokens(h, pattern, PlannerContext(input), true);
             widest.Some? ==> NoId(widest.value, Chars(Prefix(input)))
    ensures ForPattern(h, input, False, pattern)
  {
    hide Accepts, PlannerContext, RowContext, PieceTokensOf, Chars;
    forall res: Resource | Candidate(input, res)
      ensures !FilterMatches(h, False, res.Record())
      ensures !PatternMatches(h, pattern, RowRequest(input, res).resource, RowContext(input, res))
    {
      FalseMatchesNothing(h, res.Record());
      ContextsAgree(input, res);
      ResourceChars(input, res);
      if PatternMatches(h, pattern, RowRequest(input, res).resource, RowContext(input, res)) {
        WidestContains(h, Pieces(pattern), PlannerContext(input), RowContext(input, res),
          Chars(RowRequest(input, res).resource));
      }
    }
  }

  ghost predicate ForPatterns(h: Host, input: Input, parts: seq<ResourceFilter>, patterns: seq<Str>) {
    |parts| == |patterns| && forall i :: 0 <= i < |parts| ==> ForPattern(h, input, parts[i], patterns[i])
  }

  lemma PatternsMeaning(h: Host, input: Input, s: Statement, parts: seq<ResourceFilter>, res: Resource)
    requires ForPatterns(h, input, parts, s.resources) && Candidate(input, res)
    ensures FilterMatches(h, OrFilter(parts), res.Record()) <==>
            ResourceMatches(h, s, RowRequest(input, res).resource, RowContext(input, res))
  {
    hide FilterMatches, PatternMatches, RowContext, OrFilter;
    OrMeaning(h, parts, res.Record());
  }

  // --- the planner ----------------------------------------------------------------------------------------

  class Planner {
    const h: Host
    const input: Input
    const ids: IdIndex
    const parents: ParentIndex
    /** Work done so far, against the limit. */
    var work: int

    constructor (host: Host, given: Input, idsByRelation: IdIndex, parentsByRelation: ParentIndex)
      ensures h == host && input == given && ids == idsByRelation && parents == parentsByRelation && work == 0
    {
      h, input, ids, parents, work := host, given, idsByRelation, parentsByRelation, 0;
    }

    ghost predicate Ready() {
      h.Lawful() && Indexed(input, ids, parents)
    }

    method Spend(units: nat) returns (ok: bool)
      modifies this
      ensures work == old(work) + units && (ok <==> work <= PLAN_WORK_LIMIT)
    {
      work := work + units;
      ok := work <= PLAN_WORK_LIMIT;
    }

    /** The places in the tokens after the known prefix, from every place a star could be. */
    method Walk(tokens: seq<Token>, chars: seq<Str>) returns (ok: bool, states: set<nat>)
      modifies this
      ensures old(work) <= work <= old(work) + StepsWork(|tokens|, |chars|)
      ensures !ok ==> work > PLAN_WORK_LIMIT
      ensures ok ==> AtPrefix(tokens, states, chars)
    {
      hide AtPrefix, StepsWork;
      states := StartStates(tokens);
      var i := 0;
      NoStep(|tokens|);
      assert chars[..0] == [];
      while i < |chars| && states != {}
        invariant 0 <= i <= |chars| && old(work) <= work <= old(work) + StepsWork(|tokens|, i)
        invariant AtPrefix(tokens, states, chars[..i])
      {
        StatesBound(tokens, states, chars[..i]);
        StatesCount(states, |tokens|);
        OneStep(|tokens|, i, |chars|);
        ok := Spend(|states|);
        if !ok { return; }
        states := Step(tokens, states, chars[..i], chars[i]);
        assert chars[..i + 1] == chars[..i] + [chars[i]];
        i := i + 1;
      }
      MoreSteps(|tokens|, i, |chars|);
      if i < |chars| { DeadFurther(tokens, chars[..i], chars[i..]); }
      assert chars[..i] + chars[i..] == chars;
      assert i == |chars| ==> chars[..i] == chars;
      ok := true;
    }

    /** What is left of the tokens at each place, as a filter. */
    method RestFilters(tokens: seq<Token>, states: set<nat>) returns (ok: bool, parts: seq<ResourceFilter>)
      requires forall s :: s in states ==> s <= |tokens|
      modifies this
      ensures old(work) <= work <= old(work) + StepsWork(|tokens|, |tokens| + 1)
      ensures !ok ==> work > PLAN_WORK_LIMIT
      ensures ok ==> PartsOf(tokens, states, parts)
    {
      hide RestFilter, StepsWork;
      parts := [];
      var todo := states;
      ghost var n := 0;
      NoStep(|tokens|);
      StatesCount(states, |tokens|);
      assert states - todo == {};
      while todo != {}
        invariant todo <= states && PartsOf(tokens, states - todo, parts) && n == |states| - |todo|
        invariant old(work) <= work <= old(work) + StepsWork(|tokens|, n)
        decreases todo
      {
        var state :| state in todo;
        OneStep(|tokens|, n, |tokens| + 1);
        ok := Spend(|tokens| - state + 1);
        if !ok { return; }
        AddPart(tokens, states - todo, parts, state);
        n := n + 1;
        assert states - (todo - {state}) == (states - todo) + {state};
        parts := parts + [RestFilter(tokens[state..])];
        todo := todo - {state};
      }
      assert states - {} == states;
      MoreSteps(|tokens|, n, |tokens| + 1);
      ok := true;
    }

    /** `idFilter`: the ids behind the known prefix. */
    method IdFilter(tokens: seq<Token>, prefix: Str) returns (r: Outcome)
      requires h.Lawful() && Valid(tokens)
      modifies this
      ensures old(work) <= work <= old(work) + IdWork(|tokens|, |Chars(prefix)|)
      ensures r.Refused? ==> r.reason.TooComplex? && work > PLAN_WORK_LIMIT
      ensures r.Filtered? ==> Planned(r.filter)
      ensures r.Filtered? ==> if r.filter.False? then NoId(tokens, Chars(prefix)) else Reaches(tokens, Chars(prefix))
      ensures r.Filtered? && TokensSeparable(tokens) ==> ForIds(h, r.filter, tokens, Chars(prefix))
    {
      hide AtPrefix, PartsOf, Host.Lawful, NoId, Reaches, ForIds, TokensSeparable, Planned, Chars, Valid, IdWork, StepsWork;
      var chars := Chars(prefix);
      IdWorkSplits(|tokens|, |chars|);
      var ok, states := Walk(tokens, chars);
      if !ok { return Refused(TooComplex); }
      if states == {} {
        Dead(h, tokens, chars);
        FalsePlanned();
        return Filtered(False);
      }
      StatesBound(tokens, states, chars);
      var done, parts := RestFilters(tokens, states);
      if !done { return Refused(TooComplex); }
      PartsForIds(h, tokens, states, chars, parts);
      var f := BuildOr(parts);
      r := Filtered(f);
    }

    /** `statementFilter`. */
    method StatementFilter(s: Statement) returns (r: Outcome)
      requires Ready() && PlannableStatement(h, PlannerContext(input), s)
      modifies this
      ensures old(work) <= work <= old(work) + StatementWork(h, input, s)
      ensures r.Refused? ==> if r.reason.TooComplex? then work > PLAN_WORK_LIMIT else Caused(h, r.reason, input, s)
      ensures r.Filtered? ==> ForStatement(h, input, r.filter, s)
    {
      hide ForStatement, PlannableStatement, Indexed, Planned, PatternReaches, NamesRow, Caused, ForResources, PatternCosts, ConditionCosts;
      hide ActionMatches, SumTo;
      if !ActionMatches(h, s, input.action) {
        NoAction(h, input, s);
        return Filtered(False);
      }
      var outcome, rowDependent := ResourcesFilter(s);
      if outcome.Refused? { return outcome; }
      if outcome.filter.False? && !rowDependent {
        NoResource(h, input, s, outcome.filter);
        return Filtered(False);
      }
      r := Conditions(s, outcome.filter, rowDependent);
    }

    /** What the loop over conditions has seen: why planning will refuse, and that no filter was false. */
    ghost predicate Seen(s: Statement, n: nat, rowDependent: bool, idCondition: bool, derived: bool)
      requires n <= |s.conditions|
    {
      && (rowDependent ==> NamesRow(h, input, s)) && (idCondition ==> HasKey(s, {ID_KEY}))
      && (derived ==> HasKey(s, input.derivedKeys)) && Open(h, input, ids, parents, s, n)
    }

    lemma SeenMore(s: Statement, n: nat, rowDependent: bool, idCondition: bool, derived: bool)
      requires n < |s.conditions| && Seen(s, n, rowDependent, idCondition, derived)
      ensures var c := s.conditions[n];
              && (RowDependent(c) ==> Seen(s, n + 1, true, idCondition, derived))
              && (c.key == ID_KEY ==> Seen(s, n + 1, rowDependent, true, derived))
              && (c.key in input.derivedKeys ==> Seen(s, n + 1, rowDependent, idCondition, true))
              && (!ConditionFilter(h, input, ids, parents, c).False? ==> Seen(s, n + 1, rowDependent, idCondition, derived))
    {
      hide ConditionFilter, RowDependent, PatternReaches, NamesRowVariable;
    }

    lemma SeenCauses(s: Statement, rowDependent: bool, idCondition: bool, derived: bool)
      requires Indexed(input, ids, parents) && Seen(s, |s.conditions|, rowDependent, idCondition, derived)
      requires ActionMatches(h, s, input.action) && exists i :: 0 <= i < |s.resources| && PatternReaches(h, input, s.resources[i])
      ensures rowDependent ==> Caused(h, RowDependentValue, input, s)
      ensures idCondition ==> Caused(h, IdCondition, input, s)
      ensures derived ==> Caused(h, DerivedKey, input, s)
    {
      hide Indexed, ConditionFilter, RowDependent, PatternReaches, NamesRow, HasKey, ActionMatches, Open;
    }

    /** The conditions of a statement whose action and patterns could apply. */
    method Conditions(s: Statement, resource: ResourceFilter, rowPattern: bool) returns (r: Outcome)
      requires Ready() && PlannableStatement(h, PlannerContext(input), s) && ActionMatches(h, s, input.action) && Planned(resource)
      requires exists i :: 0 <= i < |s.resources| && PatternReaches(h, input, s.resources[i])
      requires if rowPattern then NamesRow(h, input, s) else ForResources(h, input, resource, s)
      modifies this
      ensures old(work) <= work <= old(work) + Sum(ConditionCosts(s))
      ensures r.Refused? ==> if r.reason.TooComplex? then work > PLAN_WORK_LIMIT else Caused(h, r.reason, input, s)
      ensures r.Filtered? ==> ForStatement(h, input, r.filter, s)
    {
      hide ForStatement, PlannableStatement, Host.Lawful, Indexed, ForResources, Planned, Caused, Seen, ForConditions, ForCondition;
      hide PatternReaches, NamesRow, ActionMatches, ConditionFilter, PlannerContext, PlannableCondition, RowDependent, SumTo;
      ghost var costs := ConditionCosts(s);
      var conditions := [resource];
      var rowDependent, idCondition, derived := rowPattern, false, false;
      var i := 0;
      SumStart(costs);
      FirstSeen(s, rowPattern);
      if !rowPattern { FirstConditions(h, input, resource, s); }
      while i < |s.conditions|
        invariant 0 <= i <= |s.conditions| && old(work) <= work <= old(work) + SumTo(costs, i)
        invariant Seen(s, i, rowDependent, idCondition, derived)
        invariant !rowDependent && !idCondition && !derived ==> ForConditions(h, input, conditions, resource, s, i)
      {
        var c := s.conditions[i];
        PlannableAt(h, input, s, i);
        SumStep(costs, i);
        var ok := Spend(|c.values|);
        if !ok { return Refused(TooComplex); }
        SeenMore(s, i, rowDependent, idCondition, derived);
        var dependent := IsRowDependent(c);
        if dependent {
          rowDependent := true;
        } else if c.key == ID_KEY {
          idCondition := true;
        } else if c.key in input.derivedKeys {
          derived := true;
        } else {
          var filter := ConditionFilter(h, input, ids, parents, c);
          ConditionFilterPlanned(h, input, ids, parents, c);
          ConditionAtExact(s, i);
          if filter.False? {
            NoCondition(h, input, s, i);
            return Filtered(False);
          }
          if !rowDependent && !idCondition && !derived {
            MoreConditions(h, input, conditions, resource, s, i, filter);
          }
          conditions := conditions + [filter];
        }
        i := i + 1;
      }
      SeenCauses(s, rowDependent, idCondition, derived);
      if rowDependent { return Refused(RowDependentValue); }
      if idCondition { return Refused(IdCondition); }
      if derived { return Refused(DerivedKey); }
      AllConditions(h, input, conditions, resource, s);
      var f := BuildAnd(conditions);
      r := Filtered(f);
    }

    lemma FirstSeen(s: Statement, rowPattern: bool)
      requires rowPattern ==> NamesRow(h, input, s)
      ensures Seen(s, 0, rowPattern, false, false)
    {}

    lemma ConditionAtExact(s: Statement, i: nat)
      requires Ready() && i < |s.conditions| && PlannableCondition(h, PlannerContext(input), s.conditions[i])
      requires !RowDependent(s.conditions[i]) && s.conditions[i].key != ID_KEY && s.conditions[i].key !in input.derivedKeys
      ensures ForCondition(h, input, ConditionFilter(h, input, ids, parents, s.conditions[i]), s.conditions[i])
    {
      hide FilterMatches, RowContext, PlannerContext, ConditionFilter, ConditionHolds, RowDependent, PlannableCondition, Indexed;
      forall res: Resource | Candidate(input, res)
        ensures FilterMatches(h, ConditionFilter(h, input, ids, parents, s.conditions[i]), res.Record()) <==>
                ConditionHolds(h, s.conditions[i], RowContext(input, res))
      {
        ConditionFilterExact(h, input, ids, parents, s.conditions[i], res);
      }
    }

    /** One resource pattern, with a star for each of its row variables, and whether it has any. */
    method OnePattern(pattern: Str) returns (r: Outcome, row: bool)
      requires Ready() && ReadyPattern(h, PlannerContext(input), pattern)
      modifies this
      ensures old(work) <= work <= old(work) + PatternWork(h, input, pattern)
      ensures r.Refused? ==> r.reason.TooComplex? && work > PLAN_WORK_LIMIT
      ensures row == NamesRowVariable(Pieces(pattern))
      ensures r.Filtered? ==> Planned(r.filter) && (!r.filter.False? ==> PatternReaches(h, input, pattern))
      ensures r.Filtered? && (row ==> r.filter.False?) ==> ForPattern(h, input, r.filter, pattern)
    {
      hide PatternMatches, Host.Lawful, Indexed, RowContext, FilterMatches, PlannerContext, ForPattern;
      hide NamesRowVariable, ForIds, NoId, TokensSeparable, Planned, PieceTokensOf, IdWork, Reaches;
      FalsePlanned();
      row := HasRowVariable(pattern);
      var ctx := PlannerContext(input);
      var tokens := Tokenize(h, pattern, ctx, row);
      r := Filtered(False);
      if tokens.Some? {
        r := IdFilter(tokens.value, Prefix(input));
        if r.Refused? { return; }
      }
      if !row {
        PatternFromIds(h, input, r.filter, pattern);
      } else if r.filter.False? {
        PatternTooNarrow(h, input, pattern);
      }
    }

    /** The resource patterns of a statement, and whether a row-dependent one could apply. */
    method ResourcesFilter(s: Statement) returns (r: Outcome, rowDependent: bool)
      requires Ready() && PlannableStatement(h, PlannerContext(input), s)
      modifies this
      ensures old(work) <= work <= old(work) + Sum(PatternCosts(h, input, s))
      ensures r.Refused? ==> r.reason.TooComplex? && work > PLAN_WORK_LIMIT
      ensures rowDependent ==> NamesRow(h, input, s)
      ensures r.Filtered? && (rowDependent || !r.filter.False?) ==>
                exists i :: 0 <= i < |s.resources| && PatternReaches(h, input, s.resources[i])
      ensures r.Filtered? ==> Planned(r.filter)
      ensures r.Filtered? && !rowDependent ==> ForResources(h, input, r.filter, s)
    {
      hide Host.Lawful, Indexed, PlannerContext, ForPattern, NamesRowVariable, Planned, OrFilter, PlannableStatement, PatternCosts;
      hide SumTo, ReadyPattern, PatternWork, PatternReaches, ForResources;
      var parts: seq<ResourceFilter> := [];
      ghost var costs := PatternCosts(h, input, s);
      SumStart(costs);
      rowDependent := false;
      var i := 0;
      FalsePlanned();
      while i < |s.resources|
        invariant 0 <= i <= |s.resources| && |parts| == i
        invariant old(work) <= work <= old(work) + SumTo(costs, i)
        invariant rowDependent ==> RowReaches(h, input, s, i)
        invariant forall k :: 0 <= k < i && !parts[k].False? ==> PatternReaches(h, input, s.resources[k])
        invariant AllPlanned(parts)
        invariant !rowDependent ==> forall k :: 0 <= k < i ==> ForPattern(h, input, parts[k], s.resources[k])
      {
        SumStep(costs, i);
        PatternAt(h, input, s, i);
        var outcome, row := OnePattern(s.resources[i]);
        if outcome.Refused? { return outcome, rowDependent; }
        if row && !outcome.filter.False? {
          rowDependent := true;
          parts := parts + [False];
        } else {
          parts := parts + [outcome.filter];
        }
        i := i + 1;
      }
      ConstructorsPlanned(parts);
      var f := BuildOr(parts);
      if !rowDependent { ResourcesMean(h, input, f, s, parts); }
      if !f.False? {
        var k := OrSome(parts);
        assert PatternReaches(h, input, s.resources[k]);
      }
      r := Filtered(f);
    }

    method IsRowDependent(c: Condition) returns (r: bool)
      ensures r <==> RowDependent(c)
    {
      hide NamesRowVariable, Pieces;
      if !Substituting(c.operator) { return false; }
      var i := 0;
      while i < |c.values|
        invariant 0 <= i <= |c.values|
        invariant forall k :: 0 <= k < i && c.values[k].String? ==> !NamesRowVariable(Pieces(c.values[k].text))
      {
        if c.values[i].String? {
          r := HasRowVariable(c.values[i].text);
          if r { return; }
        }
        i := i + 1;
      }
      r := false;
    }

    /** The statements of one document that have the effect, after those of the documents before it. */
    method DocumentStatements(ds: seq<Document>, effect: Effect, d: nat, parts: seq<ResourceFilter>, ghost from: seq<Statement>)
      returns (r: Outcome, more: seq<ResourceFilter>, ghost all: seq<Statement>)
      requires Ready() && PlannableDocuments(h, PlannerContext(input), ds) && d < |ds|
      requires ForEach(h, input, parts, from) && ListsFirst(ds, effect, d, 0, from)
      modifies this
      ensures old(work) <= work <= old(work) + DocumentCosts(h, input, ds, effect)[d]
      ensures r.Refused? ==> if r.reason.TooComplex? then work > PLAN_WORK_LIMIT else CausedIn(h, r.reason, input, ds)
      ensures r.Filtered? ==> ForEach(h, input, more, all) && ListsFirst(ds, effect, d + 1, 0, all)
    {
      hide PlannableDocuments, Host.Lawful, Indexed, ForStatement, ForEach, ListsFirst, ListsUpTo, Caused, CausedIn, StatementWork, SumTo;
      hide PlannerContext;
      ghost var costs := StatementCosts(h, input, ds[d], effect);
      SumStart(costs);
      more, all := parts, from;
      var k := 0;
      NextDocument(ds, effect, d, from);
      while k < |ds[d].statements|
        invariant 0 <= k <= |ds[d].statements| && old(work) <= work <= old(work) + SumTo(costs, k)
        invariant ForEach(h, input, more, all) && ListsUpTo(ds, effect, d, k, all)
      {
        var s := ds[d].statements[k];
        SumStep(costs, k);
        if s.effect == effect {
          PlannableIn(h, input, ds, d, k);
          var outcome := StatementFilter(s);
          if outcome.Refused? {
            if !outcome.reason.TooComplex? { CauseIn(h, outcome.reason, input, ds, d, k); }
            return outcome, more, all;
          }
          OneMoreStatement(h, input, more, all, outcome.filter, s);
          more := more + [outcome.filter];
          ListsNext(ds, effect, d, k, all, all + [s]);
          all := all + [s];
        } else {
          ListsNext(ds, effect, d, k, all, all);
        }
        k := k + 1;
      }
      ListsDone(ds, effect, d, all);
      r := Filtered(False);
    }

    /** `anyStatement`. */
    method AnyStatement(ds: seq<Document>, effect: Effect) returns (r: Outcome)
      requires Ready() && PlannableDocuments(h, PlannerContext(input), ds)
      modifies this
      ensures old(work) <= work <= old(work) + AnyWork(h, input, ds, effect)
      ensures r.Refused? ==> if r.reason.TooComplex? then work > PLAN_WORK_LIMIT else CausedIn(h, r.reason, input, ds)
      ensures r.Filtered? ==> ForAny(h, input, r.filter, ds, effect)
    {
      hide PlannableDocuments, Host.Lawful, Indexed, ForEach, ListsFirst, ForAny, CausedIn, OrFilter, SumTo, DocumentCosts, PlannerContext;
      ghost var costs := DocumentCosts(h, input, ds, effect);
      SumStart(costs);
      var parts: seq<ResourceFilter> := [];
      ghost var from: seq<Statement> := [];
      var d := 0;
      FromNothing(h, input, ds, effect);
      while d < |ds|
        invariant 0 <= d <= |ds| && old(work) <= work <= old(work) + SumTo(costs, d)
        invariant ForEach(h, input, parts, from) && ListsFirst(ds, effect, d, 0, from)
      {
        SumStep(costs, d);
        var outcome;
        outcome, parts, from := DocumentStatements(ds, effect, d, parts, from);
        if outcome.Refused? { return outcome; }
        d := d + 1;
      }
      AnyOfParts(h, input, ds, effect, parts, from);
      var f := BuildOr(parts);
      r := Filtered(f);
    }

    /** `everyBoundary`. */
    method EveryBoundary(ds: seq<Document>) returns (r: Outcome)
      requires Ready() && PlannableDocuments(h, PlannerContext(input), ds)
      modifies this
      ensures old(work) <= work <= old(work) + AnyWork(h, input, ds, Allow)
      ensures r.Refused? ==> if r.reason.TooComplex? then work > PLAN_WORK_LIMIT else CausedIn(h, r.reason, input, ds)
      ensures r.Filtered? ==> ForEvery(h, input, r.filter, ds)
    {
      hide PlannableDocument, Host.Lawful, Indexed, ForAny, ForEvery, CausedIn, AndFilter, SumTo, DocumentCosts;
      ghost var all := DocumentCosts(h, input, ds, Allow);
      SumStart(all);
      var parts: seq<ResourceFilter> := [];
      var d := 0;
      while d < |ds|
        invariant 0 <= d <= |ds| && |parts| == d && old(work) <= work <= old(work) + SumTo(all, d)
        invariant forall i :: 0 <= i < d ==> ForAny(h, input, parts[i], [ds[i]], Allow)
      {
        OneDocument(h, input, ds, Allow, d);
        SumStep(all, d);
        assert [ds[d]][0] == ds[d];
        var outcome := AnyStatement([ds[d]], Allow);
        if outcome.Refused? {
          if !outcome.reason.TooComplex? { CausedWithin(h, outcome.reason, input, [ds[d]], ds); }
          return outcome;
        }
        parts := parts + [outcome.filter];
        d := d + 1;
      }
      EveryOfParts(h, input, ds, parts);
      var f := BuildAnd(parts);
      r := Filtered(f);
    }

    /** One grant path. */
    method PathFilter(path: Path) returns (r: Outcome)
      requires Ready() && PlannableDocuments(h, PlannerContext(input), path.grants) && PlannableDocuments(h, PlannerContext(input), path.boundaries)
      modifies this
      ensures old(work) <= work <= old(work) + PathWork(h, input, path)
      ensures r.Refused? ==> if r.reason.TooComplex? then work > PLAN_WORK_LIMIT
                             else CausedIn(h, r.reason, input, path.grants + path.boundaries)
      ensures r.Filtered? ==> ForPath(h, input, r.filter, path)
    {
      hide PlannableDocument, Host.Lawful, Indexed, ForAny, ForEvery, ForPath, CausedIn, AndFilter, NotFilter, AnyWork;
      var ds := path.grants + path.boundaries;
      var denied := AnyStatement(ds, Deny);
      if denied.Refused? { return denied; }
      var granted := AnyStatement(path.grants, Allow);
      if granted.Refused? {
        if !granted.reason.TooComplex? { CausedWithin(h, granted.reason, input, path.grants, ds); }
        return granted;
      }
      var bounded := EveryBoundary(path.boundaries);
      if bounded.Refused? {
        if !bounded.reason.TooComplex? { CausedWithin(h, bounded.reason, input, path.boundaries, ds); }
        return bounded;
      }
      PathOfParts(h, input, path, denied.filter, granted.filter, bounded.filter);
      var f := BuildAnd([NotFilter(denied.filter), granted.filter, bounded.filter]);
      r := Filtered(f);
    }
  }

  // --- support for the loops --------------------------------------------------------------------------------

  method StartStates(tokens: seq<Token>) returns (states: set<nat>)
    ensures AtPrefix(tokens, states, [])
  {
    states := Closure(tokens, {0});
    AtStart(tokens, states);
  }

  /** One character further, and closed over stars again. */
  method Step(tokens: seq<Token>, states: set<nat>, ghost prefix: seq<Str>, c: Str) returns (next: set<nat>)
    requires AtPrefix(tokens, states, prefix)
    ensures AtPrefix(tokens, next, prefix + [c])
  {
    hide Accepts, SomeState, Closed, FedBy;
    StatesBound(tokens, states, prefix);
    var fed := Advance(tokens, states, c);
    FedBound(tokens, states, fed, c);
    next := Closure(tokens, fed);
    AtNext(tokens, states, fed, next, prefix, c);
  }

  lemma StatesBound(tokens: seq<Token>, states: set<nat>, prefix: seq<Str>)
    requires AtPrefix(tokens, states, prefix)
    ensures forall s :: s in states ==> s <= |tokens|
  {}

  lemma FedBound(tokens: seq<Token>, states: set<nat>, next: set<nat>, c: Str)
    requires FedBy(tokens, states, next, c)
    ensures forall s :: s in next ==> s <= |tokens|
  {}

  lemma FalsePlanned()
    ensures Planned(False) && Planned(True)
  {}

  lemma AddPart(tokens: seq<Token>, states: set<nat>, parts: seq<ResourceFilter>, state: nat)
    requires PartsOf(tokens, states, parts) && state <= |tokens|
    ensures PartsOf(tokens, states + {state}, parts + [RestFilter(tokens[state..])])
  {
    hide RestFilter;
    var more := parts + [RestFilter(tokens[state..])];
    assert more[|parts|] == RestFilter(tokens[state..]);
    forall s | s in states + {state}
      ensures s <= |tokens| && RestFilter(tokens[s..]) in more
    {
      if s in states {
        var i :| 0 <= i < |parts| && parts[i] == RestFilter(tokens[s..]);
        assert more[i] == parts[i];
      }
    }
    forall i | 0 <= i < |more|
      ensures exists s :: s in states + {state} && s <= |tokens| && more[i] == RestFilter(tokens[s..])
    {
      if i < |parts| {
        var s :| s in states && s <= |tokens| && parts[i] == RestFilter(tokens[s..]);
        assert s in states + {state};
      } else {
        assert state in states + {state};
      }
    }
  }

  /** The filter of the resource patterns together. */
  ghost predicate ForResources(h: Host, input: Input, f: ResourceFilter, s: Statement) {
    forall res: Resource :: Candidate(input, res) ==>
      (FilterMatches(h, f, res.Record()) <==> ResourceMatches(h, s, RowRequest(input, res).resource, RowContext(input, res)))
  }

  lemma ResourcesMean(h: Host, input: Input, f: ResourceFilter, s: Statement, parts: seq<ResourceFilter>)
    requires f == OrFilter(parts) && |parts| == |s.resources|
    requires forall k :: 0 <= k < |parts| ==> ForPattern(h, input, parts[k], s.resources[k])
    ensures ForResources(h, input, f, s)
  {
    hide FilterMatches, ResourceMatches, RowContext, OrFilter, ForPattern;
    forall res: Resource | Candidate(input, res)
      ensures FilterMatches(h, f, res.Record()) <==>
              ResourceMatches(h, s, RowRequest(input, res).resource, RowContext(input, res))
    { PatternsMeaning(h, input, s, parts, res); }
  }

  ghost predicate ForCondition(h: Host, input: Input, f: ResourceFilter, c: Condition) {
    forall res: Resource :: Candidate(input, res) ==>
      (FilterMatches(h, f, res.Record()) <==> ConditionHolds(h, c, RowContext(input, res)))
  }

  /** The parts kept so far: the resource patterns and the first conditions. */
  ghost predicate ForConditions(h: Host, input: Input, parts: seq<ResourceFilter>, resource: ResourceFilter, s: Statement, n: nat) {
    && n <= |s.conditions| && |parts| == n + 1 && parts[0] == resource && AllPlanned(parts)
    && ForResources(h, input, resource, s)
    && forall k :: 0 <= k < n ==> ForCondition(h, input, parts[k + 1], s.conditions[k])
  }

  lemma MoreConditions(h: Host, input: Input, parts: seq<ResourceFilter>, resource: ResourceFilter, s: Statement, n: nat, f: ResourceFilter)
    requires ForConditions(h, input, parts, resource, s, n) && n < |s.conditions|
    requires ForCondition(h, input, f, s.conditions[n]) && Planned(f)
    ensures ForConditions(h, input, parts + [f], resource, s, n + 1)
  {
    hide ForCondition, ForResources, Planned;
  }

  lemma AllConditions(h: Host, input: Input, parts: seq<ResourceFilter>, resource: ResourceFilter, s: Statement)
    requires ForConditions(h, input, parts, resource, s, |s.conditions|) && ActionMatches(h, s, input.action)
    ensures ForStatement(h, input, AndFilter(parts), s)
  {
    hide FilterMatches, ResourceMatches, RowContext, AndFilter, ConditionHolds, ActionMatches, Planned;
    ConstructorsPlanned(parts);
    forall res: Resource | Candidate(input, res)
      ensures FilterMatches(h, AndFilter(parts), res.Record()) <==> StatementMatches(h, s, RowRequest(input, res))
    {
      AndMeaning(h, parts, res.Record());
      var row := RowContext(input, res);
      if AllPass(h, parts, res.Record()) {
        forall k | 0 <= k < |s.conditions|
          ensures ConditionHolds(h, s.conditions[k], row)
        { assert FilterMatches(h, parts[k + 1], res.Record()); }
        assert FilterMatches(h, parts[0], res.Record());
      }
      if ConditionsHold(h, s, row) && ResourceMatches(h, s, RowRequest(input, res).resource, row) {
        forall k | 0 <= k < |parts|
          ensures FilterMatches(h, parts[k], res.Record())
        {
          if k > 0 { assert ForCondition(h, input, parts[k - 1 + 1], s.conditions[k - 1]); }
        }
      }
    }
  }

  lemma NoAction(h: Host, input: Input, s: Statement)
    requires !ActionMatches(h, s, input.action)
    ensures ForStatement(h, input, False, s)
  {
    hide FilterMatches, RowContext, ActionMatches;
    forall res: Resource | Candidate(input, res)
      ensures !FilterMatches(h, False, res.Record())
    { FalseMatchesNothing(h, res.Record()); }
  }

  lemma NoResource(h: Host, input: Input, s: Statement, f: ResourceFilter)
    requires ForResources(h, input, f, s) && f.False?
    ensures ForStatement(h, input, False, s)
  {
    hide FilterMatches, RowContext, ResourceMatches, ActionMatches;
    forall res: Resource | Candidate(input, res)
      ensures !FilterMatches(h, False, res.Record())
    { FalseMatchesNothing(h, res.Record()); }
  }

  lemma NoCondition(h: Host, input: Input, s: Statement, i: nat)
    requires i < |s.conditions| && ForCondition(h, input, False, s.conditions[i])
    ensures ForStatement(h, input, False, s)
  {
    hide FilterMatches, RowContext, ResourceMatches, ActionMatches, ConditionHolds;
    forall res: Resource | Candidate(input, res)
      ensures !FilterMatches(h, False, res.Record())
      ensures !StatementMatches(h, s, RowRequest(input, res))
    {
      FalseMatchesNothing(h, res.Record());
      assert !ConditionHolds(h, s.conditions[i], RowContext(input, res));
    }
  }

  lemma PatternAt(h: Host, input: Input, s: Statement, i: nat)
    requires PlannableStatement(h, PlannerContext(input), s) && i < |s.resources|
    ensures PatternCosts(h, input, s)[i] == PatternWork(h, input, s.resources[i])
    ensures ReadyPattern(h, PlannerContext(input), s.resources[i])
  {
    hide PatternWork, ReadyPattern, ReadyCondition, ValidStatement;
  }

  lemma PlannableAt(h: Host, input: Input, s: Statement, i: nat)
    requires PlannableStatement(h, PlannerContext(input), s) && i < |s.conditions|
    ensures PlannableCondition(h, PlannerContext(input), s.conditions[i])
  {
    hide ValidCondition, ReadyCondition;
  }

  /** One of the first patterns names the row and could match. */
  ghost predicate RowReaches(h: Host, input: Input, s: Statement, n: nat) {
    exists i :: 0 <= i < |s.resources| && i < n && NamesRowVariable(Pieces(s.resources[i])) && PatternReaches(h, input, s.resources[i])
  }

  lemma FirstConditions(h: Host, input: Input, resource: ResourceFilter, s: Statement)
    requires Planned(resource) && ForResources(h, input, resource, s)
    ensures ForConditions(h, input, [resource], resource, s, 0)
  {
    hide Planned, ForResources;
  }

  // --- lists of statements ------------------------------------------------------------------------------------

  ghost predicate ForEach(h: Host, input: Input, parts: seq<ResourceFilter>, from: seq<Statement>) {
    |parts| == |from| && forall i :: 0 <= i < |parts| ==> ForStatement(h, input, parts[i], from[i])
  }

  /** `from` lists the statements of the effect in the first `d` documents and the first `k` of the next. */
  ghost predicate ListsUpTo(ds: seq<Document>, effect: Effect, d: nat, k: nat, from: seq<Statement>)
    requires d < |ds| && k <= |ds[d].statements|
  {
    && (forall e, i :: 0 <= e < d && 0 <= i < |ds[e].statements| && ds[e].statements[i].effect == effect ==>
          ds[e].statements[i] in from)
    && (forall i :: 0 <= i < k && ds[d].statements[i].effect == effect ==> ds[d].statements[i] in from)
    && (forall s :: s in from ==> Listed(ds, effect, s))
  }

  ghost predicate ListsFirst(ds: seq<Document>, effect: Effect, d: nat, k: nat, from: seq<Statement>)
    requires d <= |ds|
  {
    && (forall e, i :: 0 <= e < d && 0 <= i < |ds[e].statements| && ds[e].statements[i].effect == effect ==>
          ds[e].statements[i] in from)
    && (forall s :: s in from ==> Listed(ds, effect, s))
  }

  ghost predicate Listed(ds: seq<Document>, effect: Effect, s: Statement) {
    exists e, i :: 0 <= e < |ds| && 0 <= i < |ds[e].statements| && ds[e].statements[i] == s && s.effect == effect
  }

  lemma FromNothing(h: Host, input: Input, ds: seq<Document>, effect: Effect)
    ensures ForEach(h, input, [], []) && ListsFirst(ds, effect, 0, 0, [])
  {}

  lemma NextDocument(ds: seq<Document>, effect: Effect, d: nat, from: seq<Statement>)
    requires d < |ds| && ListsFirst(ds, effect, d, 0, from)
    ensures ListsUpTo(ds, effect, d, 0, from)
  {}

  lemma ListsNext(ds: seq<Document>, effect: Effect, d: nat, k: nat, from: seq<Statement>, more: seq<Statement>)
    requires d < |ds| && k < |ds[d].statements| && ListsUpTo(ds, effect, d, k, from)
    requires more == if ds[d].statements[k].effect == effect then from + [ds[d].statements[k]] else from
    ensures ListsUpTo(ds, effect, d, k + 1, more)
  {
    forall s | s in from
      ensures s in more
    {}
    if ds[d].statements[k].effect == effect {
      assert Listed(ds, effect, ds[d].statements[k]);
      assert more[|from|] == ds[d].statements[k];
    }
  }

  lemma ListsDone(ds: seq<Document>, effect: Effect, d: nat, from: seq<Statement>)
    requires d < |ds| && ListsUpTo(ds, effect, d, |ds[d].statements|, from)
    ensures ListsFirst(ds, effect, d + 1, 0, from)
  {}

  lemma OneMoreStatement(h: Host, input: Input, parts: seq<ResourceFilter>, from: seq<Statement>, f: ResourceFilter, s: Statement)
    requires ForEach(h, input, parts, from) && ForStatement(h, input, f, s)
    ensures ForEach(h, input, parts + [f], from + [s])
  {
    hide ForStatement;
  }

  lemma PlannableIn(h: Host, input: Input, ds: seq<Document>, d: nat, k: nat)
    requires PlannableDocuments(h, PlannerContext(input), ds) && d < |ds| && k < |ds[d].statements|
    ensures PlannableStatement(h, PlannerContext(input), ds[d].statements[k])
  {
    hide PlannableStatement;
    assert PlannableDocument(h, PlannerContext(input), ds[d]);
  }

  lemma CauseIn(h: Host, reason: Refusal, input: Input, ds: seq<Document>, d: nat, k: nat)
    requires d < |ds| && k < |ds[d].statements| && Caused(h, reason, input, ds[d].statements[k])
    ensures CausedIn(h, reason, input, ds)
  {
    hide Caused;
  }

  /** A cause in some documents is a cause in a list that holds them. */
  lemma CausedWithin(h: Host, reason: Refusal, input: Input, ds: seq<Document>, all: seq<Document>)
    requires CausedIn(h, reason, input, ds) && forall d :: d in ds ==> d in all
    ensures CausedIn(h, reason, input, all)
  {
    hide Caused;
    var d, s :| 0 <= d < |ds| && 0 <= s < |ds[d].statements| && Caused(h, reason, input, ds[d].statements[s]);
    assert ds[d] in all;
    var k :| 0 <= k < |all| && all[k] == ds[d];
  }

  lemma OneDocument(h: Host, input: Input, ds: seq<Document>, effect: Effect, d: nat)
    requires d < |ds|
    ensures AnyWork(h, input, [ds[d]], effect) == DocumentCosts(h, input, ds, effect)[d]
  {
    var costs := DocumentCosts(h, input, [ds[d]], effect);
    assert SumTo(costs, 1) == SumTo(costs, 0) + costs[0];
  }

  lemma AnyOfParts(h: Host, input: Input, ds: seq<Document>, effect: Effect, parts: seq<ResourceFilter>, from: seq<Statement>)
    requires ForEach(h, input, parts, from) && ListsFirst(ds, effect, |ds|, 0, from)
    ensures ForAny(h, input, OrFilter(parts), ds, effect)
  {
    hide FilterMatches, StatementMatches, RowContext, OrFilter, Planned, RowRequest;
    assert AllPlanned(parts);
    ConstructorsPlanned(parts);
    forall res: Resource | Candidate(input, res)
      ensures FilterMatches(h, OrFilter(parts), res.Record()) <==> AnyDocumentHas(h, ds, effect, RowRequest(input, res))
    {
      OrMeaning(h, parts, res.Record());
      AnyFrom(h, input, ds, effect, parts, from, res);
    }
  }

  lemma AnyFrom(h: Host, input: Input, ds: seq<Document>, effect: Effect, parts: seq<ResourceFilter>, from: seq<Statement>, res: Resource)
    requires ForEach(h, input, parts, from) && ListsFirst(ds, effect, |ds|, 0, from) && Candidate(input, res)
    ensures SomePasses(h, parts, res.Record()) <==> AnyDocumentHas(h, ds, effect, RowRequest(input, res))
  {
    hide FilterMatches, StatementMatches, RowContext, Planned, RowRequest, Candidate;
    var r := RowRequest(input, res);
    if i :| 0 <= i < |parts| && FilterMatches(h, parts[i], res.Record()) {
      assert ForStatement(h, input, parts[i], from[i]) && from[i] in from;
      var e, k :| 0 <= e < |ds| && 0 <= k < |ds[e].statements| && ds[e].statements[k] == from[i] && from[i].effect == effect;
      assert DocumentHas(h, ds[e], effect, r);
    }
    if e :| 0 <= e < |ds| && DocumentHas(h, ds[e], effect, r) {
      var k :| 0 <= k < |ds[e].statements| && ds[e].statements[k].effect == effect && StatementMatches(h, ds[e].statements[k], r);
      var i :| 0 <= i < |from| && from[i] == ds[e].statements[k];
      assert FilterMatches(h, parts[i], res.Record());
    }
  }

  lemma EveryOfParts(h: Host, input: Input, ds: seq<Document>, parts: seq<ResourceFilter>)
    requires |parts| == |ds| && forall i :: 0 <= i < |ds| ==> ForAny(h, input, parts[i], [ds[i]], Allow)
    ensures ForEvery(h, input, AndFilter(parts), ds)
  {
    hide FilterMatches, DocumentHas, RowContext, AndFilter, Planned, RowRequest;
    assert AllPlanned(parts);
    ConstructorsPlanned(parts);
    forall res: Resource | Candidate(input, res)
      ensures FilterMatches(h, AndFilter(parts), res.Record()) <==> EveryDocumentHas(h, ds, Allow, RowRequest(input, res))
    {
      var r := RowRequest(input, res);
      AndMeaning(h, parts, res.Record());
      forall i | 0 <= i < |ds|
        ensures FilterMatches(h, parts[i], res.Record()) <==> DocumentHas(h, ds[i], Allow, r)
      {
        assert ForAny(h, input, parts[i], [ds[i]], Allow);
        assert [ds[i]][0] == ds[i];
        assert AnyDocumentHas(h, [ds[i]], Allow, r) <==> DocumentHas(h, ds[i], Allow, r);
      }
    }
  }

  lemma ThreePass(h: Host, a: ResourceFilter, b: ResourceFilter, c: ResourceFilter, row: Row)
    ensures FilterMatches(h, AndFilter([a, b, c]), row) <==>
            FilterMatches(h, a, row) && FilterMatches(h, b, row) && FilterMatches(h, c, row)
  {
    hide FilterMatches, AndFilter;
    var parts := [a, b, c];
    AndMeaning(h, parts, row);
    assert parts[0] == a && parts[1] == b && parts[2] == c;
  }

  lemma PathOfParts(h: Host, input: Input, path: Path, denied: ResourceFilter, granted: ResourceFilter, bounded: ResourceFilter)
    requires ForAny(h, input, denied, path.grants + path.boundaries, Deny)
    requires ForAny(h, input, granted, path.grants, Allow) && ForEvery(h, input, bounded, path.boundaries)
    ensures ForPath(h, input, AndFilter([NotFilter(denied), granted, bounded]), path)
  {
    hide FilterMatches, AnyDocumentHas, EveryDocumentHas, RowContext, AndFilter, NotFilter, Planned, RowRequest;
    ConstructorsPlanned([denied]);
    assert [denied][0] == denied;
    ConstructorsPlanned([NotFilter(denied), granted, bounded]);
    forall res: Resource | Candidate(input, res)
      ensures FilterMatches(h, AndFilter([NotFilter(denied), granted, bounded]), res.Record()) <==>
              PathHolds(h, path, RowRequest(input, res))
    {
      ThreePass(h, NotFilter(denied), granted, bounded, res.Record());
      NotMeaning(h, denied, res.Record());
    }
  }

  // --- the whole plan -----------------------------------------------------------------------------------------

  lemma {:induction false} HoldsByTuple(relations: seq<Relation>, kind: Str, id: Str, name: Str)
    ensures Holds(relations, kind, id, name) <==>
            exists t :: 0 <= t < |relations| && relations[t].kind == kind && relations[t].id == id && name in relations[t].names
  {
    if relations != [] {
      HoldsByTuple(relations[1..], kind, id, name);
      if t :| 0 <= t < |relations| && relations[t].kind == kind && relations[t].id == id && name in relations[t].names {
        if t > 0 { assert relations[1..][t - 1] == relations[t]; }
      }
      if Holds(relations[1..], kind, id, name) {
        var t :| 0 <= t < |relations[1..]| && relations[1..][t].kind == kind && relations[1..][t].id == id &&
                 name in relations[1..][t].names;
        assert relations[t + 1] == relations[1..][t];
      }
    }
  }

  /** The relation is named by one of the first `n` tuples, or by the first `k` names of the next. */
  ghost predicate HeldUpTo(relations: seq<Relation>, n: nat, k: nat, kind: Str, id: Str, name: Str)
    requires n <= |relations| && (k > 0 ==> n < |relations| && k <= |relations[n].names|)
  {
    || (exists t :: 0 <= t < n && relations[t].kind == kind && relations[t].id == id && name in relations[t].names)
    || (k > 0 && relations[n].kind == kind && relations[n].id == id && name in relations[n].names[..k])
  }

  ghost predicate IndexedUpTo(input: Input, ids: IdIndex, parents: ParentIndex, n: nat, k: nat)
    requires n <= |input.relations| && (k > 0 ==> n < |input.relations| && k <= |input.relations[n].names|)
  {
    && (forall name, id :: HasId(ids, name, id) <==> HeldUpTo(input.relations, n, k, input.resourceType, id, name))
    && (forall name, kind, id :: HasParent(parents, name, kind, id) <==> HeldUpTo(input.relations, n, k, kind, id, name))
  }

  lemma NextName(relations: seq<Relation>, n: nat, k: nat, kind: Str, id: Str, name: Str)
    requires n < |relations| && k < |relations[n].names|
    ensures HeldUpTo(relations, n, k + 1, kind, id, name) <==>
            HeldUpTo(relations, n, k, kind, id, name) ||
            (relations[n].kind == kind && relations[n].id == id && name == relations[n].names[k])
  {
    var names := relations[n].names;
    assert names[..k + 1] == names[..k] + [names[k]];
  }

  lemma NextTuple(relations: seq<Relation>, n: nat, kind: Str, id: Str, name: Str)
    requires n < |relations|
    ensures HeldUpTo(relations, n + 1, 0, kind, id, name) <==>
            HeldUpTo(relations, n, |relations[n].names|, kind, id, name)
  {
    assert relations[n].names[..|relations[n].names|] == relations[n].names;
  }

  function AddId(ids: IdIndex, name: Str, id: Str): (r: IdIndex)
    ensures forall other, i :: HasId(r, other, i) <==> HasId(ids, other, i) || (other == name && i == id)
  {
    ids[name := (if name in ids then ids[name] else []) + [id]]
  }

  function AddParent(parents: ParentIndex, name: Str, kind: Str, id: Str): (r: ParentIndex)
    ensures forall other, k, i :: HasParent(r, other, k, i) <==>
              HasParent(parents, other, k, i) || (other == name && k == kind && i == id)
  {
    parents[name := (if name in parents then parents[name] else []) + [(kind, id)]]
  }

  lemma IndexStep(input: Input, ids: IdIndex, parents: ParentIndex, n: nat, k: nat)
    requires n < |input.relations| && k < |input.relations[n].names|
    requires IndexedUpTo(input, ids, parents, n, k)
    ensures var tuple, name := input.relations[n], input.relations[n].names[k];
            IndexedUpTo(input, if tuple.kind == input.resourceType then AddId(ids, name, tuple.id) else ids,
              AddParent(parents, name, tuple.kind, tuple.id), n, k + 1)
  {
    hide HeldUpTo, AddId, AddParent, HasId, HasParent;
    var tuple, name := input.relations[n], input.relations[n].names[k];
    var more := if tuple.kind == input.resourceType then AddId(ids, name, tuple.id) else ids;
    forall other, id
      ensures HasId(more, other, id) <==> HeldUpTo(input.relations, n, k + 1, input.resourceType, id, other)
    {
      assert HasId(ids, other, id) <==> HeldUpTo(input.relations, n, k, input.resourceType, id, other);
      NextName(input.relations, n, k, input.resourceType, id, other);
    }
    forall other, kind, id
      ensures HasParent(AddParent(parents, name, tuple.kind, tuple.id), other, kind, id) <==>
              HeldUpTo(input.relations, n, k + 1, kind, id, other)
    {
      assert HasParent(parents, other, kind, id) <==> HeldUpTo(input.relations, n, k, kind, id, other);
      NextName(input.relations, n, k, kind, id, other);
    }
  }

  /** The index of ids and the index of parents, tuple by tuple and name by name. */
  method BuildIndexes(input: Input) returns (ids: IdIndex, parents: ParentIndex)
    ensures Indexed(input, ids, parents)
  {
    hide HeldUpTo, Holds, AddId, AddParent;
    ids, parents := map[], map[];
    var n := 0;
    forall kind, id, name
      ensures !HeldUpTo(input.relations, 0, 0, kind, id, name)
    { NothingHeld(input.relations, kind, id, name); }
    while n < |input.relations|
      invariant 0 <= n <= |input.relations| && IndexedUpTo(input, ids, parents, n, 0)
    {
      var tuple := input.relations[n];
      var k := 0;
      while k < |tuple.names|
        invariant 0 <= k <= |tuple.names| && IndexedUpTo(input, ids, parents, n, k)
      {
        var name := tuple.names[k];
        IndexStep(input, ids, parents, n, k);
        if tuple.kind == input.resourceType {
          ids := AddId(ids, name, tuple.id);
        }
        parents := AddParent(parents, name, tuple.kind, tuple.id);
        k := k + 1;
      }
      forall kind, id, name
        ensures HeldUpTo(input.relations, n + 1, 0, kind, id, name) <==>
                HeldUpTo(input.relations, n, |tuple.names|, kind, id, name)
      { NextTuple(input.relations, n, kind, id, name); }
      n := n + 1;
    }
    forall kind, id, name
      ensures HeldUpTo(input.relations, |input.relations|, 0, kind, id, name) <==> Holds(input.relations, kind, id, name)
    { AllHeld(input.relations, kind, id, name); }
  }

  lemma NothingHeld(relations: seq<Relation>, kind: Str, id: Str, name: Str)
    ensures !HeldUpTo(relations, 0, 0, kind, id, name)
  {}

  lemma AllHeld(relations: seq<Relation>, kind: Str, id: Str, name: Str)
    ensures HeldUpTo(relations, |relations|, 0, kind, id, name) <==> Holds(relations, kind, id, name)
  {
    HoldsByTuple(relations, kind, id, name);
  }

  lemma AnyConcat(h: Host, a: seq<Document>, b: seq<Document>, effect: Effect, r: Request)
    ensures AnyDocumentHas(h, a + b, effect, r) <==> AnyDocumentHas(h, a, effect, r) || AnyDocumentHas(h, b, effect, r)
    ensures EveryDocumentHas(h, a + b, effect, r) <==> EveryDocumentHas(h, a, effect, r) && EveryDocumentHas(h, b, effect, r)
  {
    hide DocumentHas;
    forall i | 0 <= i < |a|
      ensures (a + b)[i] == a[i]
    {}
    forall i | 0 <= i < |b|
      ensures (a + b)[|a| + i] == b[i]
    {}
    if i :| 0 <= i < |b| && DocumentHas(h, b[i], effect, r) { assert DocumentHas(h, (a + b)[|a| + i], effect, r); }
    if i :| 0 <= i < |a| && DocumentHas(h, a[i], effect, r) { assert DocumentHas(h, (a + b)[i], effect, r); }
    if EveryDocumentHas(h, a + b, effect, r) {
      forall i | 0 <= i < |b|
        ensures DocumentHas(h, b[i], effect, r)
      { assert DocumentHas(h, (a + b)[|a| + i], effect, r); }
      forall i | 0 <= i < |a|
        ensures DocumentHas(h, a[i], effect, r)
      { assert DocumentHas(h, (a + b)[i], effect, r); }
    }
  }

  lemma AllowedWhen(h: Host, r: Request, grants: seq<Document>, boundaries: seq<Document>)
    ensures Decide(h, r, grants, boundaries).allowed <==>
            && !AnyDocumentHas(h, grants + boundaries, Deny, r)
            && AnyDocumentHas(h, grants, Allow, r) && EveryDocumentHas(h, boundaries, Allow, r)
  {
    hide DocumentHas, DocumentMarks, AnyDocumentHas, EveryDocumentHas;
    AnyConcat(h, grants, boundaries, Deny, r);
  }

  lemma AllowAllHas(h: Host, r: Request)
    ensures DocumentHas(h, ALLOW_ALL, Allow, r) && !DocumentHas(h, ALLOW_ALL, Deny, r)
    ensures forall ds :: AnyDocumentHas(h, [ALLOW_ALL] + ds, Allow, r)
    ensures forall ds :: AnyDocumentHas(h, [ALLOW_ALL] + ds, Deny, r) <==> AnyDocumentHas(h, ds, Deny, r)
  {
    hide StatementMatches;
    OpenStatement(h, Allow, [], r);
    assert ALLOW_ALL.statements[0] == Statement(Allow, [STAR], [STAR], []);
    assert DocumentHas(h, ALLOW_ALL, Allow, r);
    hide DocumentHas;
    forall ds
      ensures AnyDocumentHas(h, [ALLOW_ALL] + ds, Allow, r)
      ensures AnyDocumentHas(h, [ALLOW_ALL] + ds, Deny, r) <==> AnyDocumentHas(h, ds, Deny, r)
    {
      assert ([ALLOW_ALL] + ds)[0] == ALLOW_ALL;
      AnyConcat(h, [ALLOW_ALL], ds, Deny, r);
      assert [ALLOW_ALL][0] == ALLOW_ALL;
    }
  }

  /** What the documents mean for one resource, in the planner's order. */
  lemma MeantWhen(h: Host, input: Input, res: Resource)
    ensures var r := RowRequest(input, res);
            Meant(h, input, res) <==>
            && MandatoryHolds(h, input, res)
            && !AnyDocumentHas(h, input.denies + input.boundaries, Deny, r)
            && EveryDocumentHas(h, input.boundaries, Allow, r)
            && exists i :: 0 <= i < |input.paths| && PathHolds(h, input.paths[i], r)
  {
    hide Decide, RowContext, FilterMatches, AnyDocumentHas, EveryDocumentHas, RowRequest;
    var r := RowRequest(input, res);
    AllowAllHas(h, r);
    AllowedWhen(h, r, [ALLOW_ALL] + input.denies, input.boundaries);
    AnyConcat(h, [ALLOW_ALL] + input.denies, input.boundaries, Deny, r);
    AnyConcat(h, input.denies, input.boundaries, Deny, r);
    forall i | 0 <= i < |input.paths|
      ensures PathAllows(h, input, input.paths[i], r) <==>
              PathHolds(h, input.paths[i], r) && !AnyDocumentHas(h, input.boundaries, Deny, r) &&
              EveryDocumentHas(h, input.boundaries, Allow, r)
    {
      var path := input.paths[i];
      AllowedWhen(h, r, path.grants, input.boundaries + path.boundaries);
      AnyConcat(h, path.grants, input.boundaries + path.boundaries, Deny, r);
      AnyConcat(h, input.boundaries, path.boundaries, Deny, r);
      AnyConcat(h, input.boundaries, path.boundaries, Allow, r);
      AnyConcat(h, path.grants, path.boundaries, Deny, r);
    }
  }

  /** The server's decision for one resource, in the planner's order. */
  lemma PermittedWhen(h: Host, input: Input, res: Resource)
    requires ValidDocuments(h, AllDocuments(input))
    ensures var r := RowRequest(input, res);
            Permitted(h, input, res) <==>
            && ValidRequest(r) && MandatoryHolds(h, input, res)
            && !AnyDocumentHas(h, input.denies + input.boundaries, Deny, r)
            && EveryDocumentHas(h, input.boundaries, Allow, r)
            && exists i :: 0 <= i < |input.paths| && PathHolds(h, input.paths[i], r)
  {
    hide MeantAs, PermittedAs, ValidDocuments, RowContext, ValidRequest;
    PermittedMeant(h, input, res, RowRequest(input, res));
    MeantWhen(h, input, res);
  }

  lemma ExactAnswers(h: Host, input: Input, f: ResourceFilter)
    requires ValidDocuments(h, AllDocuments(input)) && Exact(h, input, f)
    ensures Answers(h, input, f)
  {
    hide MeantAs, PermittedAs, ValidDocuments, RowContext, ValidRequest, FilterMatches;
    forall res: Resource | Candidate(input, res)
      ensures Permitted(h, input, res) <==> ValidRequest(RowRequest(input, res)) && FilterMatches(h, f, res.Record())
    { PermittedMeant(h, input, res, RowRequest(input, res)); }
  }

  ghost predicate ForPaths(h: Host, input: Input, parts: seq<ResourceFilter>, paths: seq<Path>) {
    |parts| == |paths| && forall i :: 0 <= i < |parts| ==> ForPath(h, input, parts[i], paths[i])
  }

  lemma MorePaths(h: Host, input: Input, parts: seq<ResourceFilter>, paths: seq<Path>, f: ResourceFilter, path: Path)
    requires ForPaths(h, input, parts, paths) && ForPath(h, input, f, path)
    ensures ForPaths(h, input, parts + [f], paths + [path])
  {
    hide ForPath;
  }

  function MandatoryParts(input: Input): seq<ResourceFilter> {
    if input.mandatory.Some? then [input.mandatory.value] else []
  }

  function PlanParts(input: Input, denied: ResourceFilter, bounded: ResourceFilter, paths: seq<ResourceFilter>): seq<ResourceFilter> {
    MandatoryParts(input) + [NotFilter(denied), bounded, OrFilter(paths)]
  }

  lemma PlanOfParts(h: Host, input: Input, denied: ResourceFilter, bounded: ResourceFilter, paths: seq<ResourceFilter>)
    requires ForAny(h, input, denied, input.denies + input.boundaries, Deny)
    requires ForEvery(h, input, bounded, input.boundaries) && ForPaths(h, input, paths, input.paths)
    requires input.mandatory.Some? ==> Planned(input.mandatory.value)
    ensures Exact(h, input, AndFilter(PlanParts(input, denied, bounded, paths)))
  {
    hide FilterMatches, AnyDocumentHas, EveryDocumentHas, RowContext, AndFilter, NotFilter, OrFilter, Planned, RowRequest, Meant, PathHolds;
    var parts := PlanParts(input, denied, bounded, paths);
    var three := [NotFilter(denied), bounded, OrFilter(paths)];
    ConstructorsPlanned([denied]);
    assert [denied][0] == denied;
    assert AllPlanned(paths);
    ConstructorsPlanned(paths);
    ConstructorsPlanned(parts);
    forall res: Resource | Candidate(input, res)
      ensures FilterMatches(h, AndFilter(parts), res.Record()) <==> Meant(h, input, res)
    {
      var row := res.Record();
      MeantWhen(h, input, res);
      AndMeaning(h, parts, row);
      AllPassConcat(h, MandatoryParts(input), three, row);
      if input.mandatory.Some? { SinglePass(h, input.mandatory.value, row); }
      assert three[0] == NotFilter(denied) && three[1] == bounded && three[2] == OrFilter(paths);
      assert AllPass(h, three, row) <==>
             FilterMatches(h, NotFilter(denied), row) && FilterMatches(h, bounded, row) && FilterMatches(h, OrFilter(paths), row);
      NotMeaning(h, denied, row);
      OrMeaning(h, paths, row);
      forall i | 0 <= i < |paths|
        ensures FilterMatches(h, paths[i], row) <==> PathHolds(h, input.paths[i], RowRequest(input, res))
      { assert ForPath(h, input, paths[i], input.paths[i]); }
    }
  }

  /** No statement that could apply stops planning, and the work stays within the limit. */
  ghost predicate Expressible(h: Host, input: Input) {
    && PlanWork(h, input) <= PLAN_WORK_LIMIT
    && forall d, i :: 0 <= d < |AllDocuments(input)| && 0 <= i < |AllDocuments(input)[d].statements| ==>
         var s := AllDocuments(input)[d].statements[i];
         CouldApply(h, input, s) ==> !NamesRow(h, input, s) && !HasKey(s, {ID_KEY}) && !HasKey(s, input.derivedKeys)
  }

  /** Why a plan is refused. */
  ghost predicate Because(h: Host, reason: Refusal, input: Input) {
    if reason.TooComplex? then PlanWork(h, input) > PLAN_WORK_LIMIT else CausedIn(h, reason, input, AllDocuments(input))
  }

  lemma ExpressibleNotRefused(h: Host, reason: Refusal, input: Input)
    requires Because(h, reason, input)
    ensures !Expressible(h, input)
  {
    hide NamesRow, HasKey, CouldApply, AllDocuments, PlanWork;
  }

  /**
   * `planResources`: of the resources whose names the engine takes, a plan passes exactly those it permits one by one;
   * of the others it passes those the documents would allow, which the engine refuses. Without a plan, the documents or
   * the type are invalid, or some statement gives the reason, or the work could pass the limit; where none of that is
   * so, there is a plan.
   */
  method PlanResources(h: Host, input: Input) returns (r: PlanResult)
    requires h.Lawful() && Tidy(h, input)
    ensures r.InvalidDocuments? <==> !ValidDocuments(h, AllDocuments(input))
    ensures r.InvalidType? <==>
            ValidDocuments(h, AllDocuments(input)) && (input.resourceType == [] || 47 in input.resourceType)
    ensures r.Unsupported? ==> Because(h, r.reason, input)
    ensures Expressible(h, input) ==> !r.Unsupported?
    ensures r.Plan? ==> Exact(h, input, r.filter) && Answers(h, input, r.filter)
    ensures r.Plan? ==> (r.kind.Always? <==> r.filter.True?) && (r.kind.Never? <==> r.filter.False?)
  {
    hide ValidDocument, TidyDocuments, Host.Lawful, PlannableDocuments, Exact, Answers, ForAny, ForEvery, ForPath, Indexed;
    hide PlannerContext, AndFilter, OrFilter, NotFilter, PathDocuments, CausedIn, Expressible, AnyWork, PathWork, SumTo;
    if !ValidDocuments(h, AllDocuments(input)) { return InvalidDocuments; }
    if input.resourceType == [] || 47 in input.resourceType { return InvalidType; }
    InputPlannable(h, input);
    var ids, parents := BuildIndexes(input);
    var planner := new Planner(h, input, ids, parents);
    var all := AllDocuments(input);
    var denied := planner.AnyStatement(input.denies + input.boundaries, Deny);
    if denied.Refused? {
      if !denied.reason.TooComplex? { CausedWithin(h, denied.reason, input, input.denies + input.boundaries, all); }
      ExpressibleNotRefused(h, denied.reason, input);
      return Unsupported(denied.reason);
    }
    var bounded := planner.EveryBoundary(input.boundaries);
    if bounded.Refused? {
      if !bounded.reason.TooComplex? { CausedWithin(h, bounded.reason, input, input.boundaries, all); }
      ExpressibleNotRefused(h, bounded.reason, input);
      return Unsupported(bounded.reason);
    }
    var parts: seq<ResourceFilter> := [];
    ghost var costs := PathCosts(h, input);
    ghost var before := planner.work;
    SumStart(costs);
    var i := 0;
    while i < |input.paths|
      invariant 0 <= i <= |input.paths| && fresh(planner)
      invariant planner.Ready() && planner.h == h && planner.input == input
      invariant planner.work <= before + SumTo(costs, i)
      invariant ForPaths(h, input, parts, input.paths[..i])
    {
      var path := input.paths[i];
      SumStep(costs, i);
      var outcome := planner.PathFilter(path);
      if outcome.Refused? {
        PathDocumentsHold(input.paths, i);
        if !outcome.reason.TooComplex? { CausedWithin(h, outcome.reason, input, path.grants + path.boundaries, all); }
        ExpressibleNotRefused(h, outcome.reason, input);
        return Unsupported(outcome.reason);
      }
      assert input.paths[..i + 1] == input.paths[..i] + [path];
      MorePaths(h, input, parts, input.paths[..i], outcome.filter, path);
      parts := parts + [outcome.filter];
      i := i + 1;
    }
    assert input.paths[..i] == input.paths;
    PlanOfParts(h, input, denied.filter, bounded.filter, parts);
    var any := BuildOr(parts);
    var filter := BuildAnd(MandatoryParts(input) + [NotFilter(denied.filter), bounded.filter, any]);
    ExactAnswers(h, input, filter);
    r := Plan(if filter.True? then Always else if filter.False? then Never else Conditional, filter);
  }
}
