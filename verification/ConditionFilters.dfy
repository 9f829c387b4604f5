/** One condition of a statement as a filter over the planned type's rows. */
module ConditionFilters {
  import opened Wrappers
  import opened Text
  import opened Patterns
  import opened Policy
  import opened Filter
  import opened Residual
  import opened Conditions
  import opened PlanModel

  /** `withFallback`: a row without the attribute may inherit the key from the shared context. */
  function WithFallback(field: Str, present: ResourceFilter, fallback: Option<bool>): ResourceFilter {
    if fallback.None? then present
    else OrFilter([AndFilter([Present(field), present])] +
                  (if fallback.value then [NotFilter(Present(field))] else []))
  }

  function FieldOf(key: Str): Str { if |RESOURCE| <= |key| then key[|RESOURCE|..] else key }

  function Constant(b: bool): ResourceFilter { if b then True else False }

  /** The filter of a condition that is neither row-dependent nor on `resource.id`. */
  function ConditionFilter(h: Host, input: Input, ids: IdIndex, parents: ParentIndex, c: Condition): ResourceFilter {
    var ctx := PlannerContext(input);
    if c.key == TENANT_KEY then Constant(Concrete(h, c, ctx))
    else if c.key == RELATIONS_KEY || c.key == PARENT_RELATIONS_KEY then RelationCondition(h, ids, parents, c, ctx)
    else if IsResourceKey(c.key) then
      var field := FieldOf(c.key);
      WithFallback(field, AttributeCondition(h, c.operator, field, c.values, ctx),
        if c.key in input.context then Some(Concrete(h, c, ctx)) else None)
    else Constant(Concrete(h, c, ctx))
  }

  lemma ConstantMeaning(h: Host, b: bool, row: Row)
    ensures FilterMatches(h, Constant(b), row) <==> b
  {}

  lemma FallbackMeaning(h: Host, field: Str, present: ResourceFilter, fallback: Option<bool>, row: Row)
    ensures FilterMatches(h, WithFallback(field, present, fallback), row) <==>
            if fallback.None? then FilterMatches(h, present, row)
            else if field in row then FilterMatches(h, present, row) else fallback.value
  {
    if fallback.Some? {
      var here, absent := [Present(field), present], NotFilter(Present(field));
      AndMeaning(h, here, row);
      assert here[0] == Present(field) && here[1] == present;
      assert FilterMatches(h, Present(field), row) <==> field in row;
      NotMeaning(h, Present(field), row);
      hide FilterMatches, AndFilter, OrFilter, NotFilter;
      var rest := if fallback.value then [absent] else [];
      var parts := [AndFilter(here)] + rest;
      OrMeaning(h, parts, row);
      SomePassesConcat(h, [AndFilter(here)], rest, row);
      SinglePass(h, AndFilter(here), row);
      SinglePass(h, absent, row);
    }
  }

  lemma SharedConditionMeaning(h: Host, input: Input, c: Condition, res: Resource)
    requires Candidate(input, res) && !RowDependent(c) && CaseSafe(h, c) && (c.key == TENANT_KEY || !IsResourceKey(c.key))
    ensures FilterMatches(h, Constant(Concrete(h, c, PlannerContext(input))), res.Record()) <==>
            ConditionHolds(h, c, RowContext(input, res))
  {
    hide FilterMatches, RowContext, PlannerContext, RowDependent, CaseSafe, ConditionHolds, Concrete, IsResourceKey;
    var ctx, row := PlannerContext(input), RowContext(input, res);
    ContextsAgree(input, res);
    RowContextConstants(input, res);
    if !ConstantKey(c.key) {
      RowContextAt(input, res, c.key);
      PlannerContextAt(input, c.key);
    } else {
      ConstantsAreResourceKeys();
    }
    ConditionHoldsAlike(h, c, ctx, row);
    ConcreteMeaning(h, c, ctx);
    ConstantMeaning(h, Concrete(h, c, ctx), res.Record());
  }

  lemma ConstantsAreResourceKeys()
    ensures IsResourceKey(RELATIONS_KEY) && IsResourceKey(PARENT_RELATIONS_KEY)
  {
    assert |RELATIONS_KEY| == 18 && |PARENT_RELATIONS_KEY| == 24;
    SamePrefix(U("resource.relations"), U("resource."));
    SamePrefix(U("resource.parentRelations"), U("resource."));
  }

  lemma SamePrefix(s: Str, p: Str)
    requires |p| == 9 && |p| <= |s|
    requires s[0] == p[0] && s[1] == p[1] && s[2] == p[2] && s[3] == p[3] && s[4] == p[4]
    requires s[5] == p[5] && s[6] == p[6] && s[7] == p[7] && s[8] == p[8]
    ensures OccursAt(s, p, 0)
  {
    assert s[0..9] == p;
  }

  lemma AttributeKeyMeaning(h: Host, input: Input, c: Condition, res: Resource)
    requires h.Lawful() && Candidate(input, res) && c.key !in input.derivedKeys
    requires !RowDependent(c) && PlannableCondition(h, PlannerContext(input), c) && c.key != ID_KEY
    requires IsResourceKey(c.key) && !ConstantKey(c.key)
    ensures var ctx, field := PlannerContext(input), FieldOf(c.key);
            FilterMatches(h, WithFallback(field, AttributeCondition(h, c.operator, field, c.values, ctx),
              if c.key in input.context then Some(Concrete(h, c, ctx)) else None), res.Record()) <==>
            ConditionHolds(h, c, RowContext(input, res))
  {
    var ctx, row, field := PlannerContext(input), RowContext(input, res), FieldOf(c.key);
    ResourceKeyField(c.key);
    KeysDistinct();
    assert field != ID;
    assert field in res.Record() <==> field in res.attributes;
    assert field in res.attributes ==> res.Record()[field] == res.attributes[field];
    ContextsAgree(input, res);
    RowContextAt(input, res, c.key);
    PlannerContextAt(input, c.key);
    hide FilterMatches, RowContext, PlannerContext, RowDependent, CaseSafe, Concrete, AttributeCondition, WithFallback;
    hide ValueHolds, Host.Lawful, ReadyValues, ValidCondition, IsResourceKey;
    var present := AttributeCondition(h, c.operator, field, c.values, ctx);
    var fallback := if c.key in input.context then Some(Concrete(h, c, ctx)) else None;
    FallbackMeaning(h, field, present, fallback, res.Record());
    AttributeMeaning(h, c, field, ctx, res.Record());
    ValuesHoldAlike(h, c, Single(Boolean(true)), ctx, row);
    ValuesHoldAlike(h, c, Single(Boolean(false)), ctx, row);
    if field in res.attributes {
      ValuesHoldAlike(h, c, res.attributes[field], ctx, row);
    } else if c.key in input.context {
      ConcreteMeaning(h, c, ctx);
      ConditionHoldsAlike(h, c, ctx, row);
    }
  }

  /** One condition, wherever its key comes from: the filter passes the rows whose decision finds it satisfied. */
  lemma ConditionFilterExact(h: Host, input: Input, ids: IdIndex, parents: ParentIndex, c: Condition, res: Resource)
    requires h.Lawful() && Candidate(input, res) && Indexed(input, ids, parents)
    requires !RowDependent(c) && PlannableCondition(h, PlannerContext(input), c) && c.key != ID_KEY && c.key !in input.derivedKeys
    ensures FilterMatches(h, ConditionFilter(h, input, ids, parents, c), res.Record()) <==>
            ConditionHolds(h, c, RowContext(input, res))
  {
    hide FilterMatches, RowContext, PlannerContext, RowDependent, Concrete, AttributeCondition, WithFallback, Constant;
    hide ConditionHolds, Indexed, IsResourceKey, RelationCondition, Host.Lawful, ReadyValues;
    if c.key == TENANT_KEY {
      SharedConditionMeaning(h, input, c, res);
    } else if c.key == RELATIONS_KEY || c.key == PARENT_RELATIONS_KEY {
      RelationMeaning(h, input, ids, parents, c, res);
    } else if IsResourceKey(c.key) {
      AttributeKeyMeaning(h, input, c, res);
    } else {
      SharedConditionMeaning(h, input, c, res);
    }
  }

  lemma RelationPlanned(h: Host, ids: IdIndex, parents: ParentIndex, c: Condition, ctx: Context)
    ensures Planned(RelationCondition(h, ids, parents, c, ctx))
  {
    hide AndFilter, OrFilter, EqualsFilter, Concrete, Wanted;
    forall i | 0 <= i < |c.values|
      ensures Planned(MemberFilter(h, ids, parents, c.key, c.values[i], ctx))
    {
      match Wanted(h, c.values[i], ctx)
      case Some(String(wanted)) =>
        var texts := TextScalars(if wanted in ids then ids[wanted] else []);
        EqualsFilterPlanned(ID, texts, false);
        var pairs := if wanted in parents then parents[wanted] else [];
        forall k | 0 <= k < |pairs|
          ensures Planned(ParentFilter(pairs[k]))
        {
          EqualsFilterPlanned(PARENT_TYPE, [String(pairs[k].0)], false);
          EqualsFilterPlanned(PARENT_ID, [String(pairs[k].1)], false);
          ConstructorsPlanned([EqualsFilter(PARENT_TYPE, [String(pairs[k].0)], false),
                               EqualsFilter(PARENT_ID, [String(pairs[k].1)], false)]);
        }
        ConstructorsPlanned(ParentFilters(pairs));
      case _ =>
    }
    ConstructorsPlanned(MemberFilters(h, ids, parents, c, ctx));
  }

  lemma ConditionFilterPlanned(h: Host, input: Input, ids: IdIndex, parents: ParentIndex, c: Condition)
    ensures Planned(ConditionFilter(h, input, ids, parents, c))
  {
    hide AndFilter, OrFilter, NotFilter, AttributeCondition, RelationCondition, Concrete, IsResourceKey;
    var ctx, field := PlannerContext(input), FieldOf(c.key);
    var present := AttributeCondition(h, c.operator, field, c.values, ctx);
    RelationPlanned(h, ids, parents, c, ctx);
    AttributePlanned(h, c.operator, field, c.values, ctx);
    ConstructorsPlanned([Present(field), present]);
    assert [Present(field), present][0] == Present(field);
    var absent := NotFilter(Present(field));
    var here := AndFilter([Present(field), present]);
    ConstructorsPlanned([here] + [absent]);
    ConstructorsPlanned([here] + []);
  }
}
