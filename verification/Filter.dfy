/** Filters over one resource row: their meaning, and the simplifying constructors. */
module Filter {
  import opened Wrappers
  import opened Text
  import opened Glob
  import opened Patterns
  import opened Policy

  datatype FieldType = StringType | NumberType | BooleanType | AddressType
  datatype Comparison = Lt | Le | Gt | Ge
  datatype Side = Before | After

  datatype ResourceFilter =
    | True
    | False
    | And(filters: seq<ResourceFilter>)
    | Or(filters: seq<ResourceFilter>)
    | Not(filter: ResourceFilter)
    | Present(field: Str)
    | HasType(field: Str, kind: FieldType)
    | Equals(field: Str, values: seq<Scalar>, ignoreCase: bool)
    | Compared(field: Str, comparison: Comparison, value: real)
    | Like(field: Str, pattern: Str, ignoreCase: bool)
    | Dated(field: Str, side: Side, moment: Str)
    | InNetwork(field: Str, network: Str)
    | Contains(field: Str, member: Scalar)

  type Row = map<Str, Value>

  function Read(row: Row, field: Str): Option<Value> {
    if field in row then Some(row[field]) else None
  }

  predicate SameValue(h: Host, actual: Value, expected: Scalar, ignoreCase: bool) {
    if expected.Number? then IsFinite(actual) && actual.scalar == expected
    else if !(actual.Single? && (actual.scalar.String? <==> expected.String?) && (actual.scalar.Boolean? <==> expected.Boolean?)) then false
    else if ignoreCase && actual.scalar.String? then h.lower(actual.scalar.text) == h.lower(expected.text)
    else actual.scalar == expected
  }

  function LowerIf(h: Host, ignoreCase: bool, s: Str): Str { if ignoreCase then h.lower(s) else s }

  /** `filterMatches`: whether a row passes a filter. */
  predicate FilterMatches(h: Host, f: ResourceFilter, row: Row) {
    match f
    case True => true
    case False => false
    case And(filters) => forall i :: 0 <= i < |filters| ==> FilterMatches(h, filters[i], row)
    case Or(filters) => exists i :: 0 <= i < |filters| && FilterMatches(h, filters[i], row)
    case Not(filter) => !FilterMatches(h, filter, row)
    case Present(field) => field in row
    case HasType(field, kind) =>
      field in row &&
      (match kind
       case StringType => IsText(row[field])
       case NumberType => IsFinite(row[field])
       case BooleanType => row[field].Single? && row[field].scalar.Boolean?
       case AddressType => IsText(row[field]) && 47 !in row[field].scalar.text && h.isRange(row[field].scalar.text))
    case Equals(field, values, ignoreCase) =>
      field in row && exists i :: 0 <= i < |values| && SameValue(h, row[field], values[i], ignoreCase)
    case Compared(field, comparison, value) =>
      field in row && IsFinite(row[field]) &&
      (match comparison
       case Lt => row[field].scalar.value < value
       case Le => row[field].scalar.value <= value
       case Gt => row[field].scalar.value > value
       case Ge => row[field].scalar.value >= value)
    case Like(field, pattern, ignoreCase) =>
      field in row && IsText(row[field]) &&
      Accepts(ParseChars(Chars(LowerIf(h, ignoreCase, pattern))), Chars(LowerIf(h, ignoreCase, row[field].scalar.text)))
    case Dated(field, side, moment) =>
      field in row && Timestamp(h, row[field]).Some? && h.timestamp(moment).Some? &&
      (if side.Before? then Timestamp(h, row[field]).value < h.timestamp(moment).value
       else Timestamp(h, row[field]).value > h.timestamp(moment).value)
    case InNetwork(field, network) =>
      field in row && IsText(row[field]) && h.inNetwork(row[field].scalar.text, network)
    case Contains(field, member) =>
      field in row && row[field].List? && Includes(row[field].items, member)
  }

  predicate AllPass(h: Host, fs: seq<ResourceFilter>, row: Row) {
    forall i :: 0 <= i < |fs| ==> FilterMatches(h, fs[i], row)
  }

  predicate SomePasses(h: Host, fs: seq<ResourceFilter>, row: Row) {
    exists i :: 0 <= i < |fs| && FilterMatches(h, fs[i], row)
  }

  lemma AllPassConcat(h: Host, a: seq<ResourceFilter>, b: seq<ResourceFilter>, row: Row)
    ensures AllPass(h, a + b, row) <==> AllPass(h, a, row) && AllPass(h, b, row)
  {
    if AllPass(h, a + b, row) {
      forall i | 0 <= i < |a|
        ensures FilterMatches(h, a[i], row)
      { assert (a + b)[i] == a[i]; }
      forall i | 0 <= i < |b|
        ensures FilterMatches(h, b[i], row)
      { assert (a + b)[|a| + i] == b[i]; }
    }
  }

  lemma SomePassesConcat(h: Host, a: seq<ResourceFilter>, b: seq<ResourceFilter>, row: Row)
    ensures SomePasses(h, a + b, row) <==> SomePasses(h, a, row) || SomePasses(h, b, row)
  {
    if i :| 0 <= i < |a| && FilterMatches(h, a[i], row) { assert (a + b)[i] == a[i]; }
    if i :| 0 <= i < |b| && FilterMatches(h, b[i], row) { assert (a + b)[|a| + i] == b[i]; }
  }

  // --- constructors ------------------------------------------------------------------------------

  function FlattenAnd(fs: seq<ResourceFilter>): seq<ResourceFilter> {
    if fs == [] then [] else (if fs[0].And? then fs[0].filters else [fs[0]]) + FlattenAnd(fs[1..])
  }

  function FlattenOr(fs: seq<ResourceFilter>): seq<ResourceFilter> {
    if fs == [] then [] else (if fs[0].Or? then fs[0].filters else [fs[0]]) + FlattenOr(fs[1..])
  }

  function Keep(kept: seq<ResourceFilter>, f: ResourceFilter): seq<ResourceFilter> {
    if f in kept then kept else kept + [f]
  }

  function AndFold(kept: seq<ResourceFilter>, rest: seq<ResourceFilter>): ResourceFilter
    decreases |rest|
  {
    if rest == [] then
      if |kept| == 0 then True else if |kept| == 1 then kept[0] else And(kept)
    else if rest[0].False? then False
    else if rest[0].True? then AndFold(kept, rest[1..])
    else AndFold(Keep(kept, rest[0]), rest[1..])
  }

  function AndFilter(fs: seq<ResourceFilter>): ResourceFilter { AndFold([], FlattenAnd(fs)) }

  /** Where the `equals` on this field and case rule is, if one is kept. */
  function SlotIndex(kept: seq<ResourceFilter>, field: Str, ignoreCase: bool): (i: nat)
    ensures i <= |kept|
    ensures i < |kept| ==> kept[i].Equals? && kept[i].field == field && kept[i].ignoreCase == ignoreCase
  {
    if kept == [] then 0
    else if kept[0].Equals? && kept[0].field == field && kept[0].ignoreCase == ignoreCase then 0
    else 1 + SlotIndex(kept[1..], field, ignoreCase)
  }

  function AddMissing(values: seq<Scalar>, more: seq<Scalar>): (r: seq<Scalar>)
    ensures forall v :: v in r <==> v in values || v in more
    decreases |more|
  {
    if more == [] then values
    else AddMissing(if more[0] in values then values else values + [more[0]], more[1..])
  }

  function MergeEquals(kept: seq<ResourceFilter>, f: ResourceFilter): seq<ResourceFilter>
    requires f.Equals?
  {
    var i := SlotIndex(kept, f.field, f.ignoreCase);
    if i == |kept| then kept + [f]
    else kept[i := Equals(f.field, AddMissing(kept[i].values, f.values), f.ignoreCase)]
  }

  function OrFold(kept: seq<ResourceFilter>, rest: seq<ResourceFilter>): ResourceFilter
    decreases |rest|
  {
    if rest == [] then
      if |kept| == 0 then False else if |kept| == 1 then kept[0] else Or(kept)
    else if rest[0].True? then True
    else if rest[0].False? then OrFold(kept, rest[1..])
    else if rest[0].Equals? then OrFold(MergeEquals(kept, rest[0]), rest[1..])
    else OrFold(Keep(kept, rest[0]), rest[1..])
  }

  function OrFilter(fs: seq<ResourceFilter>): ResourceFilter { OrFold([], FlattenOr(fs)) }

  function NotFilter(f: ResourceFilter): ResourceFilter {
    if f.True? then False else if f.False? then True else if f.Not? then f.filter else Not(f)
  }

  function EqualsFilter(field: Str, values: seq<Scalar>, ignoreCase: bool): ResourceFilter {
    if |values| == 0 then False else Equals(field, AddMissing([], values), ignoreCase)
  }

  /** `andFilter` as it runs. */
  method BuildAnd(fs: seq<ResourceFilter>) returns (r: ResourceFilter)
    ensures r == AndFilter(fs)
  {
    var items, kept := FlattenAnd(fs), [];
    var i := 0;
    assert items[0..] == items;
    while i < |items|
      invariant 0 <= i <= |items| && AndFold([], items) == AndFold(kept, items[i..])
    {
      var filter := items[i];
      assert items[i..][1..] == items[i + 1..];
      if filter.False? { return False; }
      if !filter.True? { kept := Keep(kept, filter); }
      i := i + 1;
    }
    r := if |kept| == 0 then True else if |kept| == 1 then kept[0] else And(kept);
  }

  /** `orFilter` as it runs. */
  method BuildOr(fs: seq<ResourceFilter>) returns (r: ResourceFilter)
    ensures r == OrFilter(fs)
  {
    var items, kept := FlattenOr(fs), [];
    var i := 0;
    assert items[0..] == items;
    while i < |items|
      invariant 0 <= i <= |items| && OrFold([], items) == OrFold(kept, items[i..])
    {
      var filter := items[i];
      assert items[i..][1..] == items[i + 1..];
      if filter.True? { return True; }
      if filter.Equals? {
        kept := MergeEquals(kept, filter);
      } else if !filter.False? {
        kept := Keep(kept, filter);
      }
      i := i + 1;
    }
    r := if |kept| == 0 then False else if |kept| == 1 then kept[0] else Or(kept);
  }

  // --- what the constructors mean ------------------------------------------------------------------

  lemma {:induction false} FlattenAndPasses(h: Host, fs: seq<ResourceFilter>, row: Row)
    ensures AllPass(h, FlattenAnd(fs), row) <==> AllPass(h, fs, row)
  {
    if fs != [] {
      FlattenAndPasses(h, fs[1..], row);
      var head := if fs[0].And? then fs[0].filters else [fs[0]];
      AllPassConcat(h, head, FlattenAnd(fs[1..]), row);
      AllPassConcat(h, [fs[0]], fs[1..], row);
      assert fs == [fs[0]] + fs[1..];
      assert AllPass(h, head, row) <==> FilterMatches(h, fs[0], row) by { assert [fs[0]][0] == fs[0]; }
      assert AllPass(h, [fs[0]], row) <==> FilterMatches(h, fs[0], row) by { assert [fs[0]][0] == fs[0]; }
    }
  }

  lemma {:induction false} FlattenOrPasses(h: Host, fs: seq<ResourceFilter>, row: Row)
    ensures SomePasses(h, FlattenOr(fs), row) <==> SomePasses(h, fs, row)
  {
    if fs != [] {
      FlattenOrPasses(h, fs[1..], row);
      var head := if fs[0].Or? then fs[0].filters else [fs[0]];
      SomePassesConcat(h, head, FlattenOr(fs[1..]), row);
      SomePassesConcat(h, [fs[0]], fs[1..], row);
      assert fs == [fs[0]] + fs[1..];
      assert SomePasses(h, head, row) <==> FilterMatches(h, fs[0], row) by { assert [fs[0]][0] == fs[0]; }
      assert SomePasses(h, [fs[0]], row) <==> FilterMatches(h, fs[0], row) by { assert [fs[0]][0] == fs[0]; }
    }
  }

  lemma SinglePass(h: Host, f: ResourceFilter, row: Row)
    ensures AllPass(h, [f], row) <==> FilterMatches(h, f, row)
    ensures SomePasses(h, [f], row) <==> FilterMatches(h, f, row)
  {
    assert [f][0] == f;
  }

  lemma KeepPasses(h: Host, kept: seq<ResourceFilter>, f: ResourceFilter, row: Row)
    ensures AllPass(h, Keep(kept, f), row) <==> AllPass(h, kept, row) && FilterMatches(h, f, row)
    ensures SomePasses(h, Keep(kept, f), row) <==> SomePasses(h, kept, row) || FilterMatches(h, f, row)
  {
    AllPassConcat(h, kept, [f], row);
    SomePassesConcat(h, kept, [f], row);
    SinglePass(h, f, row);
  }

  lemma {:induction false} AndFoldPasses(h: Host, kept: seq<ResourceFilter>, rest: seq<ResourceFilter>, row: Row)
    ensures FilterMatches(h, AndFold(kept, rest), row) <==> AllPass(h, kept, row) && AllPass(h, rest, row)
    decreases |rest|
  {
    if rest == [] {
      if |kept| == 1 { SinglePass(h, kept[0], row); assert kept == [kept[0]]; }
    } else {
      assert rest == [rest[0]] + rest[1..];
      AllPassConcat(h, [rest[0]], rest[1..], row);
      SinglePass(h, rest[0], row);
      if rest[0].True? {
        AndFoldPasses(h, kept, rest[1..], row);
      } else if !rest[0].False? {
        AndFoldPasses(h, Keep(kept, rest[0]), rest[1..], row);
        KeepPasses(h, kept, rest[0], row);
      }
    }
  }

  /** Conjunction: however it is simplified, it passes exactly the rows every part passes. */
  lemma AndMeaning(h: Host, fs: seq<ResourceFilter>, row: Row)
    ensures FilterMatches(h, AndFilter(fs), row) <==> AllPass(h, fs, row)
  {
    FlattenAndPasses(h, fs, row);
    AndFoldPasses(h, [], FlattenAnd(fs), row);
  }

  /** An `equals` passes when one of its values does. */
  predicate SameAsSome(h: Host, row: Row, f: ResourceFilter)
    requires f.Equals?
  {
    f.field in row && exists v :: v in f.values && SameValue(h, row[f.field], v, f.ignoreCase)
  }

  lemma EqualsPasses(h: Host, f: ResourceFilter, row: Row)
    requires f.Equals?
    ensures FilterMatches(h, f, row) <==> SameAsSome(h, row, f)
  {
    if SameAsSome(h, row, f) {
      var v :| v in f.values && SameValue(h, row[f.field], v, f.ignoreCase);
      var i :| 0 <= i < |f.values| && f.values[i] == v;
      assert SameValue(h, row[f.field], f.values[i], f.ignoreCase);
    }
  }

  lemma MergePasses(h: Host, kept: seq<ResourceFilter>, f: ResourceFilter, row: Row)
    requires f.Equals?
    ensures SomePasses(h, MergeEquals(kept, f), row) <==> SomePasses(h, kept, row) || FilterMatches(h, f, row)
  {
    var i := SlotIndex(kept, f.field, f.ignoreCase);
    if i == |kept| {
      SomePassesConcat(h, kept, [f], row);
      SinglePass(h, f, row);
    } else {
      var merged := Equals(f.field, AddMissing(kept[i].values, f.values), f.ignoreCase);
      EqualsPasses(h, f, row);
      EqualsPasses(h, kept[i], row);
      EqualsPasses(h, merged, row);
      var after := MergeEquals(kept, f);
      assert after[i] == merged;
      assert FilterMatches(h, merged, row) <==> FilterMatches(h, kept[i], row) || FilterMatches(h, f, row);
      if k :| 0 <= k < |kept| && FilterMatches(h, kept[k], row) {
        if k != i { assert after[k] == kept[k]; }
      }
      if k :| 0 <= k < |after| && FilterMatches(h, after[k], row) {
        if k != i { assert after[k] == kept[k]; }
      }
    }
  }

  lemma {:induction false} OrFoldPasses(h: Host, kept: seq<ResourceFilter>, rest: seq<ResourceFilter>, row: Row)
    ensures FilterMatches(h, OrFold(kept, rest), row) <==> SomePasses(h, kept, row) || SomePasses(h, rest, row)
    decreases |rest|
  {
    if rest == [] {
      if |kept| == 1 { SinglePass(h, kept[0], row); assert kept == [kept[0]]; }
    } else {
      assert rest == [rest[0]] + rest[1..];
      SomePassesConcat(h, [rest[0]], rest[1..], row);
      SinglePass(h, rest[0], row);
      if rest[0].False? {
        OrFoldPasses(h, kept, rest[1..], row);
      } else if rest[0].Equals? {
        OrFoldPasses(h, MergeEquals(kept, rest[0]), rest[1..], row);
        MergePasses(h, kept, rest[0], row);
      } else if !rest[0].True? {
        OrFoldPasses(h, Keep(kept, rest[0]), rest[1..], row);
        KeepPasses(h, kept, rest[0], row);
      }
    }
  }

  lemma {:induction false} AllFalse(fs: seq<ResourceFilter>)
    requires forall i :: 0 <= i < |fs| ==> fs[i].False?
    ensures OrFilter(fs).False?
  {
    if fs != [] {
      AllFalse(fs[1..]);
      assert FlattenOr(fs) == [False] + FlattenOr(fs[1..]);
      assert FlattenOr(fs)[1..] == FlattenOr(fs[1..]);
    }
  }

  /** A disjunction that is not false has a part that is not. */
  lemma OrSome(fs: seq<ResourceFilter>) returns (i: nat)
    requires !OrFilter(fs).False?
    ensures i < |fs| && !fs[i].False?
  {
    if forall k :: 0 <= k < |fs| ==> fs[k].False? { AllFalse(fs); }
    i :| 0 <= i < |fs| && !fs[i].False?;
  }

  /** Disjunction: flattening, dropping duplicates and merging `equals` keep the rows some part passes. */
  lemma OrMeaning(h: Host, fs: seq<ResourceFilter>, row: Row)
    ensures FilterMatches(h, OrFilter(fs), row) <==> SomePasses(h, fs, row)
  {
    FlattenOrPasses(h, fs, row);
    OrFoldPasses(h, [], FlattenOr(fs), row);
  }

  lemma NotMeaning(h: Host, f: ResourceFilter, row: Row)
    ensures FilterMatches(h, NotFilter(f), row) <==> !FilterMatches(h, f, row)
  {}

  lemma EqualsMeaning(h: Host, field: Str, values: seq<Scalar>, ignoreCase: bool, row: Row)
    ensures FilterMatches(h, EqualsFilter(field, values, ignoreCase), row) <==>
            field in row && exists i :: 0 <= i < |values| && SameValue(h, row[field], values[i], ignoreCase)
  {
    if |values| > 0 {
      var f := Equals(field, AddMissing([], values), ignoreCase);
      EqualsPasses(h, f, row);
      EqualsPasses(h, Equals(field, values, ignoreCase), row);
    }
  }

  /** A disjunction simplifies to the false filter only when every part is it. */
  lemma {:induction false} OrFoldFalse(kept: seq<ResourceFilter>, rest: seq<ResourceFilter>)
    requires OrFold(kept, rest) == False && forall i :: 0 <= i < |kept| ==> !kept[i].False?
    ensures kept == [] && forall i :: 0 <= i < |rest| ==> rest[i].False?
    decreases |rest|
  {
    if rest != [] {
      if rest[0].False? {
        OrFoldFalse(kept, rest[1..]);
        forall i | 0 <= i < |rest|
          ensures rest[i].False?
        { if i > 0 { assert rest[i] == rest[1..][i - 1]; } }
      } else if rest[0].Equals? {
        OrFoldFalse(MergeEquals(kept, rest[0]), rest[1..]);
      } else {
        OrFoldFalse(Keep(kept, rest[0]), rest[1..]);
      }
    }
  }

  lemma {:induction false} OrFalse(fs: seq<ResourceFilter>)
    requires OrFilter(fs) == False && forall i :: 0 <= i < |fs| ==> !fs[i].Or?
    ensures forall i :: 0 <= i < |fs| ==> fs[i].False?
  {
    FlattenOrIdentity(fs);
    OrFoldFalse([], FlattenOr(fs));
  }

  lemma {:induction false} FlattenOrIdentity(fs: seq<ResourceFilter>)
    requires forall i :: 0 <= i < |fs| ==> !fs[i].Or?
    ensures FlattenOr(fs) == fs
  {
    if fs != [] { FlattenOrIdentity(fs[1..]); }
  }

  // --- planner shape -------------------------------------------------------------------------------

  /** No constant, no empty list: what every filter below the root of a plan looks like. */
  predicate Inner(f: ResourceFilter) {
    match f
    case True | False => false
    case And(filters) => filters != [] && forall i :: 0 <= i < |filters| ==> Inner(filters[i])
    case Or(filters) => filters != [] && forall i :: 0 <= i < |filters| ==> Inner(filters[i])
    case Not(filter) => Inner(filter)
    case Equals(_, values, _) => values != []
    case _ => true
  }

  predicate Planned(f: ResourceFilter) { f.True? || f.False? || Inner(f) }

  predicate AllInner(fs: seq<ResourceFilter>) { forall i :: 0 <= i < |fs| ==> Inner(fs[i]) }

  predicate AllPlanned(fs: seq<ResourceFilter>) { forall i :: 0 <= i < |fs| ==> Planned(fs[i]) }

  lemma {:induction false} FlattenPlanned(fs: seq<ResourceFilter>)
    requires AllPlanned(fs)
    ensures AllPlanned(FlattenAnd(fs)) && AllPlanned(FlattenOr(fs))
  {
    if fs != [] { FlattenPlanned(fs[1..]); }
  }

  lemma {:induction false} AndFoldPlanned(kept: seq<ResourceFilter>, rest: seq<ResourceFilter>)
    requires AllInner(kept) && AllPlanned(rest)
    ensures Planned(AndFold(kept, rest))
    decreases |rest|
  {
    if rest != [] && !rest[0].False? {
      AndFoldPlanned(if rest[0].True? then kept else Keep(kept, rest[0]), rest[1..]);
    }
  }

  lemma {:induction false} OrFoldPlanned(kept: seq<ResourceFilter>, rest: seq<ResourceFilter>)
    requires AllInner(kept) && AllPlanned(rest)
    ensures Planned(OrFold(kept, rest))
    decreases |rest|
  {
    if rest != [] && !rest[0].True? {
      if rest[0].Equals? {
        var f, i := rest[0], SlotIndex(kept, rest[0].field, rest[0].ignoreCase);
        if i < |kept| {
          assert kept[i].values[0] in AddMissing(kept[i].values, f.values);
        }
        OrFoldPlanned(MergeEquals(kept, f), rest[1..]);
      } else {
        OrFoldPlanned(if rest[0].False? then kept else Keep(kept, rest[0]), rest[1..]);
      }
    }
  }

  /** The constructors never leave a constant below the root, nor an empty list. */
  lemma ConstructorsPlanned(fs: seq<ResourceFilter>)
    requires AllPlanned(fs)
    ensures Planned(AndFilter(fs)) && Planned(OrFilter(fs))
    ensures forall i :: 0 <= i < |fs| ==> Planned(NotFilter(fs[i]))
  {
    FlattenPlanned(fs);
    AndFoldPlanned([], FlattenAnd(fs));
    OrFoldPlanned([], FlattenOr(fs));
  }
}
