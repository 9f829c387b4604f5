/** Classification labels: checking, joining and comparing them, and who may read what they mark. */
module Labels {
  import opened Wrappers
  import opened Text
  import opened Order
  import opened Sorting

  const MAX_COMPARTMENTS: nat := 200
  const MAX_RELEASABLE: nat := 300

  datatype Level = Level(id: Str, rank: int)

  datatype Scheme = Scheme(levels: seq<Level>, compartments: seq<Str>, ownerCountries: seq<Str>, noforn: bool, relto: bool)

  /** An absent `releasableTo` is unrestricted; an empty one means the owner countries only. */
  datatype Label = Label(level: Str, compartments: Option<seq<Str>>, noforn: Option<bool>, releasableTo: Option<seq<Str>>)

  datatype Party = Party(rank: int, compartments: set<Str>, citizenship: set<Str>)

  function Elements(s: seq<Str>): set<Str> { set i | 0 <= i < |s| :: s[i] }

  predicate Distinct(s: seq<Str>) { forall i, j :: 0 <= i < j < |s| ==> s[i] != s[j] }

  /** What a validated scheme guarantees. */
  ghost predicate ValidScheme(scheme: Scheme) {
    && (forall i, j :: 0 <= i < j < |scheme.levels| ==>
          scheme.levels[i].id != scheme.levels[j].id && scheme.levels[i].rank < scheme.levels[j].rank)
    && Distinct(scheme.compartments) && |scheme.compartments| <= MAX_COMPARTMENTS
    && (scheme.noforn ==> scheme.ownerCountries != [])
  }

  // --- checking a label ------------------------------------------------------------------------------

  predicate Country(s: Str) { |s| == 3 && forall i :: 0 <= i < 3 ==> 65 <= s[i] <= 90 }

  /** Position of a level; the number of levels when it is unknown. */
  function LevelAt(levels: seq<Level>, id: Str): (i: nat)
    ensures i <= |levels|
    ensures i < |levels| ==> levels[i].id == id
    ensures forall k :: 0 <= k < i ==> levels[k].id != id
  {
    if levels == [] then 0 else if levels[0].id == id then 0 else 1 + LevelAt(levels[1..], id)
  }

  /** `labelRank`. */
  function LabelRank(mark: Label, scheme: Scheme): Option<int> {
    var i := LevelAt(scheme.levels, mark.level);
    if i < |scheme.levels| then Some(scheme.levels[i].rank) else None
  }

  datatype Fault =
    | UnknownLevel | TooManyCompartments | UnknownCompartment | RepeatedCompartment
    | NoNoforn | NoRelto | TooManyCountries | NotACountry | RepeatedCountry

  datatype Checked = Valid(mark: Label) | Invalid(fault: Fault)

  predicate AllIn(list: seq<Str>, known: seq<Str>) { forall i :: 0 <= i < |list| ==> list[i] in known }

  predicate AllCountries(list: seq<Str>) { forall i :: 0 <= i < |list| ==> Country(list[i]) }

  /** The labels of a scheme. */
  predicate IsLabel(mark: Label, scheme: Scheme) {
    && LabelRank(mark, scheme).Some?
    && (mark.compartments.Some? ==>
          var c := mark.compartments.value;
          |c| <= MAX_COMPARTMENTS && AllIn(c, scheme.compartments) && Distinct(c))
    && (mark.noforn == Some(true) ==> scheme.noforn)
    && (mark.releasableTo.Some? ==>
          var r := mark.releasableTo.value;
          scheme.relto && |r| <= MAX_RELEASABLE && AllCountries(r) && Distinct(r))
  }

  predicate Before(a: Str, b: Str) { UnitLess(a, b) }

  function SortedList(s: seq<Str>): seq<Str> { Sort(s, Before) }

  /** Sorted, with an empty compartment list and a false `noforn` left out. */
  function Normalized(mark: Label): Label {
    Label(mark.level,
          if mark.compartments.Some? && mark.compartments.value != [] then Some(SortedList(mark.compartments.value)) else None,
          if mark.noforn == Some(true) then Some(true) else None,
          if mark.releasableTo.Some? then Some(SortedList(mark.releasableTo.value)) else None)
  }

  /** One list of a label: every entry accepted, none repeated. */
  method CheckList(list: seq<Str>, accepts: Str -> bool, unknown: Fault, repeated: Fault) returns (fault: Option<Fault>)
    ensures fault.None? <==> (forall i :: 0 <= i < |list| ==> accepts(list[i])) && Distinct(list)
    ensures fault.Some? ==> fault.value == unknown || fault.value == repeated
  {
    var seen: set<Str> := {};
    var i := 0;
    while i < |list|
      invariant i <= |list| && seen == Elements(list[..i])
      invariant (forall k :: 0 <= k < i ==> accepts(list[k])) && Distinct(list[..i])
    {
      if !accepts(list[i]) { return Some(unknown); }
      if list[i] in seen {
        var k :| 0 <= k < i && list[..i][k] == list[i];
        assert list[k] == list[i];
        return Some(repeated);
      }
      SeenMore(list, i);
      seen := seen + {list[i]};
      i := i + 1;
    }
    assert list[..i] == list;
    return None;
  }

  lemma SeenMore(list: seq<Str>, i: nat)
    requires i < |list|
    ensures Elements(list[..i + 1]) == Elements(list[..i]) + {list[i]}
    ensures list[i] !in Elements(list[..i]) && Distinct(list[..i]) ==> Distinct(list[..i + 1])
  {
    var more := list[..i + 1];
    assert more == list[..i] + [list[i]];
    forall s
      ensures s in Elements(more) <==> s in Elements(list[..i]) + {list[i]}
    {
      if s in Elements(list[..i]) {
        var k :| 0 <= k < i && list[..i][k] == s;
        assert more[k] == s;
      }
      assert more[i] == list[i];
    }
    assert forall k :: 0 <= k < i ==> list[..i][k] in Elements(list[..i]);
  }

  /** `checkLabel`: the normalized label exactly when it is one of the scheme. */
  method CheckLabel(mark: Label, scheme: Scheme) returns (checked: Checked)
    ensures IsLabel(mark, scheme) ==> checked == Valid(Normalized(mark))
    ensures !IsLabel(mark, scheme) ==> checked.Invalid?
    ensures checked == Invalid(UnknownLevel) <==> LabelRank(mark, scheme).None?
  {
    if LabelRank(mark, scheme).None? { return Invalid(UnknownLevel); }
    if mark.compartments.Some? {
      if |mark.compartments.value| > MAX_COMPARTMENTS { return Invalid(TooManyCompartments); }
      var fault := CheckList(mark.compartments.value, s => s in scheme.compartments, UnknownCompartment, RepeatedCompartment);
      if fault.Some? { return Invalid(fault.value); }
    }
    if mark.noforn == Some(true) && !scheme.noforn { return Invalid(NoNoforn); }
    if mark.releasableTo.Some? {
      if !scheme.relto { return Invalid(NoRelto); }
      if |mark.releasableTo.value| > MAX_RELEASABLE { return Invalid(TooManyCountries); }
      var fault := CheckList(mark.releasableTo.value, s => Country(s), NotACountry, RepeatedCountry);
      if fault.Some? { return Invalid(fault.value); }
    }
    return Valid(Normalized(mark));
  }

  function Check(mark: Label, scheme: Scheme): Option<Label> {
    if IsLabel(mark, scheme) then Some(Normalized(mark)) else None
  }

  // --- joining, covering, dominating -----------------------------------------------------------------

  function CompartmentsOf(mark: Label): seq<Str> { if mark.compartments.Some? then mark.compartments.value else [] }

  /** `joinLabels`; an invalid label joined with anything stays as it is. */
  function Join(a: Option<Label>, b: Option<Label>, scheme: Scheme): Option<Label> {
    if a.Some? && !IsLabel(a.value, scheme) then a
    else if b.Some? && !IsLabel(b.value, scheme) then b
    else if a.None? && b.None? then None
    else if a.None? then Check(b.value, scheme)
    else if b.None? then Check(a.value, scheme)
    else Some(JoinChecked(Normalized(a.value), Normalized(b.value), scheme))
  }

  function RankOr(mark: Label, scheme: Scheme, otherwise: int): int {
    if LabelRank(mark, scheme).Some? then LabelRank(mark, scheme).value else otherwise
  }

  function JoinChecked(left: Label, right: Label, scheme: Scheme): Label {
    var level := if RankOr(left, scheme, 0) >= RankOr(right, scheme, 0) then left.level else right.level;
    var compartments := Union(CompartmentsOf(left), CompartmentsOf(right));
    var releasableTo :=
      if left.releasableTo.Some? && right.releasableTo.Some?
      then Some(Where(left.releasableTo.value, s => s in right.releasableTo.value))
      else if left.releasableTo.Some? then left.releasableTo else right.releasableTo;
    Label(level, if compartments != [] then Some(compartments) else None,
          if left.noforn == Some(true) || right.noforn == Some(true) then Some(true) else None, releasableTo)
  }

  /** The entries of both lists, once each and sorted. */
  function Union(left: seq<Str>, right: seq<Str>): seq<Str> { SortedList(left + Where(right, s => s !in left)) }

  /** The countries whose citizens may read it; none when that is unrestricted. */
  function Reach(mark: Label, scheme: Scheme): Option<set<Str>> {
    if mark.noforn == Some(true) then Some(Elements(scheme.ownerCountries))
    else if mark.releasableTo.Some? then Some(Elements(mark.releasableTo.value) + Elements(scheme.ownerCountries))
    else None
  }

  /** `labelCovers`: replacing `lower` with `upper` declassifies nothing. */
  predicate Covers(upper: Label, lower: Label, scheme: Scheme) {
    && IsLabel(upper, scheme) && IsLabel(lower, scheme)
    && RankOr(upper, scheme, -1) >= RankOr(lower, scheme, 0)
    && Elements(CompartmentsOf(lower)) <= Elements(CompartmentsOf(upper))
    && (lower.noforn == Some(true) ==> upper.noforn == Some(true))
    && (Reach(lower, scheme).Some? ==>
          Reach(upper, scheme).Some? && Reach(upper, scheme).value <= Reach(lower, scheme).value)
  }

  datatype Failure = LevelTooLow | MissingCompartment | Foreign | NotReleasable | InvalidLabel

  /** `dominates`: none when the party may read it, and else the first dimension it fails. */
  function Dominates(party: Party, mark: Label, scheme: Scheme): Option<Failure> {
    if !IsLabel(mark, scheme) then Some(InvalidLabel)
    else if party.rank < RankOr(mark, scheme, 0) then Some(LevelTooLow)
    else if !(Elements(CompartmentsOf(mark)) <= party.compartments) then Some(MissingCompartment)
    else if mark.noforn == Some(true) && Elements(scheme.ownerCountries) !! party.citizenship then Some(Foreign)
    else if mark.releasableTo.Some?
         && Elements(mark.releasableTo.value) + Elements(scheme.ownerCountries) !! party.citizenship then Some(NotReleasable)
    else None
  }

  predicate MayRead(party: Party, mark: Label, scheme: Scheme) { Dominates(party, mark, scheme).None? }

  // --- what a label says, whatever the order of its lists --------------------------------------------

  datatype View = View(level: Str, compartments: set<Str>, noforn: bool, releasableTo: Option<set<Str>>)

  function ViewOf(mark: Label): View {
    View(mark.level, Elements(CompartmentsOf(mark)), mark.noforn == Some(true),
         if mark.releasableTo.Some? then Some(Elements(mark.releasableTo.value)) else None)
  }

  lemma StringsOrdered()
    ensures WeakOrder(Before)
  {
    forall a: Str, b: Str, c: Str
      ensures Before(a, b) ==> !Before(b, a)
      ensures !Before(b, a) && !Before(c, b) ==> !Before(c, a)
    { UnitsOrdered(a, b, c); }
  }

  lemma SortedElements(s: seq<Str>)
    ensures Elements(SortedList(s)) == Elements(s) && |SortedList(s)| == |s|
    ensures Distinct(s) ==> Strict(SortedList(s), Before) && Distinct(SortedList(s))
  {
    StringsOrdered();
    SortOrdered(s, Before);
    SortCount(s, Before);
    ElementsIn(s);
    ElementsIn(SortedList(s));
    if Distinct(s) {
      forall i, j | 0 <= i < j < |s|
        ensures Before(s[i], s[j]) || Before(s[j], s[i])
      { UnitsOrdered(s[i], s[j], []); }
      SortStrict(s, Before);
      StrictDistinct(SortedList(s));
    }
  }

  lemma StrictDistinct(s: seq<Str>)
    requires Strict(s, Before)
    ensures Distinct(s)
  {
    forall i, j | 0 <= i < j < |s|
      ensures s[i] != s[j]
    {
      assert Before(s[i], s[j]);
      UnitsOrdered(s[i], s[j], []);
    }
  }

  lemma ElementsIn(s: seq<Str>)
    ensures forall x :: x in Elements(s) <==> x in s
  {}

  /** A list in strict order is determined by its elements. */
  lemma SortedOnce(a: seq<Str>, b: seq<Str>)
    requires Strict(a, Before) && Strict(b, Before) && Elements(a) == Elements(b)
    ensures a == b
  {
    StringsOrdered();
    ElementsIn(a);
    ElementsIn(b);
    OneOrder(a, b, Before);
  }

  lemma SortedAlready(s: seq<Str>)
    requires Strict(s, Before)
    ensures SortedList(s) == s
  {
    StrictDistinct(s);
    SortedElements(s);
    SortedOnce(SortedList(s), s);
  }

  /** Lists in strict order, none empty but `releasableTo`, and no false `noforn`: what `checkLabel` returns. */
  ghost predicate Canonical(mark: Label) {
    && (mark.compartments.Some? ==> mark.compartments.value != [] && Strict(mark.compartments.value, Before))
    && (mark.noforn.Some? ==> mark.noforn.value)
    && (mark.releasableTo.Some? ==> Strict(mark.releasableTo.value, Before))
  }

  /** Checking keeps what a label says, and gives its one canonical form. */
  lemma NormalizedKeeps(mark: Label, scheme: Scheme)
    requires IsLabel(mark, scheme)
    ensures IsLabel(Normalized(mark), scheme) && Canonical(Normalized(mark))
    ensures ViewOf(Normalized(mark)) == ViewOf(mark) && Reach(Normalized(mark), scheme) == Reach(mark, scheme)
  {
    if mark.compartments.Some? {
      SortedElements(mark.compartments.value);
      SameMembership(mark.compartments.value, SortedList(mark.compartments.value));
    }
    if mark.releasableTo.Some? {
      SortedElements(mark.releasableTo.value);
      SameMembership(mark.releasableTo.value, SortedList(mark.releasableTo.value));
    }
    hide SortedList;
  }

  lemma SameMembership(a: seq<Str>, b: seq<Str>)
    requires Elements(a) == Elements(b)
    ensures forall i :: 0 <= i < |b| ==> b[i] in a
  {
    ElementsIn(a);
    forall i | 0 <= i < |b|
      ensures b[i] in a
    { assert b[i] in Elements(b); }
  }

  lemma CanonicalNormalized(mark: Label)
    requires Canonical(mark)
    ensures Normalized(mark) == mark
  {
    if mark.compartments.Some? { SortedAlready(mark.compartments.value); }
    if mark.releasableTo.Some? { SortedAlready(mark.releasableTo.value); }
  }

  lemma ViewDetermines(a: Label, b: Label)
    requires Canonical(a) && Canonical(b) && ViewOf(a) == ViewOf(b)
    ensures a == b
  {
    if a.compartments.Some? { assert a.compartments.value[0] in Elements(CompartmentsOf(a)); }
    if b.compartments.Some? { assert b.compartments.value[0] in Elements(CompartmentsOf(b)); }
    if a.compartments.Some? && b.compartments.Some? { SortedOnce(a.compartments.value, b.compartments.value); }
    if a.releasableTo.Some? && b.releasableTo.Some? { SortedOnce(a.releasableTo.value, b.releasableTo.value); }
  }

  // --- the order of labels ---------------------------------------------------------------------------

  /** On the labels of a scheme, covering is reflexive and transitive. */
  lemma CoversPreorder(a: Label, b: Label, c: Label, scheme: Scheme)
    ensures Covers(a, a, scheme) <==> IsLabel(a, scheme)
    ensures Covers(a, b, scheme) && Covers(b, c, scheme) ==> Covers(a, c, scheme)
  {}

  /** Whoever may read what the covering label marks may read what the covered one does. */
  lemma CoversSound(upper: Label, lower: Label, party: Party, scheme: Scheme)
    requires Covers(upper, lower, scheme) && MayRead(party, upper, scheme)
    ensures MayRead(party, lower, scheme)
  {
    if lower.releasableTo.Some? && lower.noforn != Some(true) {
      var reach := Reach(upper, scheme).value;
      assert exists c :: c in reach && c in party.citizenship;
    }
  }

  function JoinView(a: View, b: View, rankA: int, rankB: int): View {
    View(if rankA >= rankB then a.level else b.level, a.compartments + b.compartments, a.noforn || b.noforn,
         if a.releasableTo.Some? && b.releasableTo.Some? then Some(a.releasableTo.value * b.releasableTo.value)
         else if a.releasableTo.Some? then a.releasableTo else b.releasableTo)
  }

  lemma UnionElements(left: seq<Str>, right: seq<Str>)
    requires Distinct(left) && Distinct(right)
    ensures Elements(Union(left, right)) == Elements(left) + Elements(right) && Strict(Union(left, right), Before)
  {
    var p := (s: Str) => s !in left;
    var added := Where(right, p);
    var all := left + added;
    WhereMembers(right, p);
    WhereDistinct(right, p);
    ElementsIn(left);
    ElementsIn(right);
    ElementsIn(all);
    forall i, j | 0 <= i < j < |all|
      ensures all[i] != all[j]
    {
      if i < |left| <= j { assert all[j] in added && all[i] in left; }
    }
    SortedElements(all);
  }

  lemma {:induction false} WhereDistinct(s: seq<Str>, p: Str -> bool)
    requires Distinct(s)
    ensures Distinct(Where(s, p))
  {
    if s != [] {
      assert forall i :: 0 <= i < |s[1..]| ==> s[1..][i] == s[i + 1];
      WhereDistinct(s[1..], p);
      WhereMembers(s[1..], p);
      assert s[0] !in s[1..];
    }
  }

  lemma {:induction false} DistinctCount(s: seq<Str>)
    requires Distinct(s)
    ensures |Elements(s)| == |s|
  {
    if s != [] {
      var n := |s| - 1;
      DistinctCount(s[..n]);
      SeenMore(s, n);
      assert s[..n + 1] == s;
      ElementsIn(s[..n]);
    }
  }

  /** As many distinct entries as there are to choose from, at most. */
  lemma NotMore(list: seq<Str>, known: seq<Str>)
    requires Distinct(list) && Distinct(known) && Elements(list) <= Elements(known)
    ensures |list| <= |known|
  {
    DistinctCount(list);
    DistinctCount(known);
    assert Elements(known) == Elements(list) + (Elements(known) - Elements(list));
  }

  lemma IntersectionElements(left: seq<Str>, right: seq<Str>)
    requires Strict(left, Before)
    ensures var both := Where(left, s => s in right);
            Elements(both) == Elements(left) * Elements(right) && Strict(both, Before) && |both| <= |left|
  {
    var p := (s: Str) => s in right;
    var both := Where(left, p);
    WhereMembers(left, p);
    WhereStrict(left, p);
    WhereCount(left, p);
    ElementsIn(left);
    ElementsIn(right);
    ElementsIn(both);
  }

  lemma {:induction false} WhereStrict(s: seq<Str>, p: Str -> bool)
    requires Strict(s, Before)
    ensures Strict(Where(s, p), Before)
  {
    if s != [] {
      var rest := s[1..];
      assert forall i :: 0 <= i < |rest| ==> rest[i] == s[i + 1];
      WhereStrict(rest, p);
      WhereMembers(rest, p);
      var kept := Where(rest, p);
      forall j | 0 <= j < |kept|
        ensures Before(s[0], kept[j])
      {
        assert kept[j] in rest;
        var k :| 0 <= k < |rest| && rest[k] == kept[j];
      }
    }
  }

  lemma JoinedCompartments(left: Label, right: Label, scheme: Scheme)
    requires ValidScheme(scheme) && IsLabel(left, scheme) && IsLabel(right, scheme)
    ensures var union := Union(CompartmentsOf(left), CompartmentsOf(right));
            && Strict(union, Before) && Distinct(union)
            && Elements(union) == Elements(CompartmentsOf(left)) + Elements(CompartmentsOf(right))
            && AllIn(union, scheme.compartments) && |union| <= MAX_COMPARTMENTS
            && (union == [] ==> Elements(union) == {})
  {
    var l, r := CompartmentsOf(left), CompartmentsOf(right);
    UnionElements(l, r);
    hide Union;
    StrictDistinct(Union(l, r));
    KnownCompartments(Union(l, r), scheme, l, r);
  }

  lemma JoinedCountries(left: seq<Str>, right: seq<Str>)
    requires Strict(left, Before) && AllCountries(left) && |left| <= MAX_RELEASABLE
    ensures var both := Where(left, s => s in right);
            && Strict(both, Before) && Distinct(both) && Elements(both) == Elements(left) * Elements(right)
            && AllCountries(both) && |both| <= MAX_RELEASABLE
  {
    IntersectionElements(left, right);
    StrictDistinct(Where(left, s => s in right));
    CountriesKept(left, Where(left, s => s in right));
  }

  /** What the joined label says, in its canonical form. */
  lemma JoinViews(left: Label, right: Label, scheme: Scheme)
    requires ValidScheme(scheme) && IsLabel(left, scheme) && IsLabel(right, scheme) && Canonical(left) && Canonical(right)
    ensures var joined := JoinChecked(left, right, scheme);
            && Canonical(joined) && IsLabel(joined, scheme)
            && ViewOf(joined) == JoinView(ViewOf(left), ViewOf(right), RankOr(left, scheme, 0), RankOr(right, scheme, 0))
  {
    hide Union, Strict, Distinct, AllIn, AllCountries, Elements, Where, LevelAt, Before, ValidScheme;
    JoinedCompartments(left, right, scheme);
    if left.releasableTo.Some? && right.releasableTo.Some? {
      JoinedCountries(left.releasableTo.value, right.releasableTo.value);
    }
  }

  lemma KnownCompartments(union: seq<Str>, scheme: Scheme, l: seq<Str>, r: seq<Str>)
    requires Distinct(union) && Distinct(scheme.compartments) && |scheme.compartments| <= MAX_COMPARTMENTS
    requires AllIn(l, scheme.compartments) && AllIn(r, scheme.compartments)
    requires Elements(union) == Elements(l) + Elements(r)
    ensures AllIn(union, scheme.compartments) && |union| <= MAX_COMPARTMENTS
  {
    ElementsIn(scheme.compartments);
    forall i | 0 <= i < |union|
      ensures union[i] in scheme.compartments
    { assert union[i] in Elements(union); }
    NotMore(union, scheme.compartments);
  }

  lemma CountriesKept(left: seq<Str>, both: seq<Str>)
    requires AllCountries(left) && Elements(both) <= Elements(left)
    ensures AllCountries(both)
  {
    ElementsIn(left);
    forall i | 0 <= i < |both|
      ensures Country(both[i])
    { assert both[i] in Elements(both); }
  }

  lemma JoinOf(a: Label, b: Label, scheme: Scheme)
    requires ValidScheme(scheme) && IsLabel(a, scheme) && IsLabel(b, scheme)
    ensures Join(Some(a), Some(b), scheme).Some?
    ensures var joined := Join(Some(a), Some(b), scheme).value;
            && Canonical(joined) && IsLabel(joined, scheme)
            && ViewOf(joined) == JoinView(ViewOf(a), ViewOf(b), RankOr(a, scheme, 0), RankOr(b, scheme, 0))
  {
    NormalizedKeeps(a, scheme);
    NormalizedKeeps(b, scheme);
    assert Normalized(a).level == a.level && Normalized(b).level == b.level;
    hide JoinChecked, Normalized, IsLabel;
    JoinViews(Normalized(a), Normalized(b), scheme);
  }

  /** Covering depends on what the labels say. */
  lemma CoversByView(upper: Label, lower: Label, scheme: Scheme)
    requires IsLabel(upper, scheme) && IsLabel(lower, scheme)
    ensures Covers(upper, lower, scheme) <==> CoversView(ViewOf(upper), ViewOf(lower), scheme,
                                                         RankOr(upper, scheme, 0), RankOr(lower, scheme, 0))
  {}

  function ReachView(v: View, scheme: Scheme): Option<set<Str>> {
    if v.noforn then Some(Elements(scheme.ownerCountries))
    else if v.releasableTo.Some? then Some(v.releasableTo.value + Elements(scheme.ownerCountries))
    else None
  }

  predicate CoversView(u: View, l: View, scheme: Scheme, rankU: int, rankL: int) {
    && rankU >= rankL && l.compartments <= u.compartments && (l.noforn ==> u.noforn)
    && (ReachView(l, scheme).Some? ==>
          ReachView(u, scheme).Some? && ReachView(u, scheme).value <= ReachView(l, scheme).value)
  }

  lemma JoinRank(a: Label, b: Label, scheme: Scheme)
    requires ValidScheme(scheme) && IsLabel(a, scheme) && IsLabel(b, scheme)
    ensures var rank := RankOr(Join(Some(a), Some(b), scheme).value, scheme, 0);
            rank == if RankOr(a, scheme, 0) >= RankOr(b, scheme, 0) then RankOr(a, scheme, 0) else RankOr(b, scheme, 0)
  {
    JoinOf(a, b, scheme);
    hide Join;
  }

  /** The join covers both labels, and every label that covers both covers the join. */
  lemma JoinLeastUpperBound(a: Label, b: Label, c: Label, scheme: Scheme)
    requires ValidScheme(scheme) && IsLabel(a, scheme) && IsLabel(b, scheme) && IsLabel(c, scheme)
    ensures Join(Some(a), Some(b), scheme).Some?
    ensures var joined := Join(Some(a), Some(b), scheme).value;
            && Covers(joined, a, scheme) && Covers(joined, b, scheme)
            && (Covers(c, a, scheme) && Covers(c, b, scheme) <==> Covers(c, joined, scheme))
  {
    JoinOf(a, b, scheme);
    JoinRank(a, b, scheme);
    hide Join, IsLabel, Covers, RankOr, ViewOf, Canonical, ValidScheme, JoinView, CoversView;
    var joined := Join(Some(a), Some(b), scheme).value;
    JoinViewBounds(ViewOf(a), ViewOf(b), ViewOf(c), scheme,
                   RankOr(a, scheme, 0), RankOr(b, scheme, 0), RankOr(c, scheme, 0));
    CoversByView(joined, a, scheme);
    CoversByView(joined, b, scheme);
    CoversByView(c, a, scheme);
    CoversByView(c, b, scheme);
    CoversByView(c, joined, scheme);
  }

  lemma JoinViewBounds(a: View, b: View, c: View, scheme: Scheme, rankA: int, rankB: int, rankC: int)
    ensures var joined, rank := JoinView(a, b, rankA, rankB), if rankA >= rankB then rankA else rankB;
            && CoversView(joined, a, scheme, rank, rankA) && CoversView(joined, b, scheme, rank, rankB)
            && (CoversView(c, a, scheme, rankC, rankA) && CoversView(c, b, scheme, rankC, rankB)
                <==> CoversView(c, joined, scheme, rankC, rank))
  {
    hide Elements;
  }

  /** Whoever may read what the join marks may read what either label does. */
  lemma JoinSound(a: Label, b: Label, party: Party, scheme: Scheme)
    requires ValidScheme(scheme) && IsLabel(a, scheme) && IsLabel(b, scheme)
    requires MayRead(party, Join(Some(a), Some(b), scheme).value, scheme)
    ensures MayRead(party, a, scheme) && MayRead(party, b, scheme)
  {
    JoinLeastUpperBound(a, b, a, scheme);
    hide Join, Covers;
    CoversSound(Join(Some(a), Some(b), scheme).value, a, party, scheme);
    CoversSound(Join(Some(a), Some(b), scheme).value, b, party, scheme);
  }

  /** Levels are told apart by their ranks. */
  lemma SameRankSameLevel(a: Label, b: Label, scheme: Scheme)
    requires ValidScheme(scheme) && IsLabel(a, scheme) && IsLabel(b, scheme)
    requires RankOr(a, scheme, 0) == RankOr(b, scheme, 0)
    ensures a.level == b.level
  {}

  /** The very same label either way round. */
  lemma JoinCommutes(a: Label, b: Label, scheme: Scheme)
    requires ValidScheme(scheme) && IsLabel(a, scheme) && IsLabel(b, scheme)
    ensures Join(Some(a), Some(b), scheme) == Join(Some(b), Some(a), scheme)
  {
    JoinOf(a, b, scheme);
    JoinOf(b, a, scheme);
    if RankOr(a, scheme, 0) == RankOr(b, scheme, 0) { SameRankSameLevel(a, b, scheme); }
    hide Join, IsLabel, Canonical, ValidScheme, RankOr;
    JoinViewCommutes(ViewOf(a), ViewOf(b), RankOr(a, scheme, 0), RankOr(b, scheme, 0));
    ViewDetermines(Join(Some(a), Some(b), scheme).value, Join(Some(b), Some(a), scheme).value);
  }

  lemma JoinViewCommutes(a: View, b: View, rankA: int, rankB: int)
    requires rankA == rankB ==> a.level == b.level
    ensures JoinView(a, b, rankA, rankB) == JoinView(b, a, rankB, rankA)
  {
    if a.releasableTo.Some? && b.releasableTo.Some? {
      assert a.releasableTo.value * b.releasableTo.value == b.releasableTo.value * a.releasableTo.value;
    }
    assert a.compartments + b.compartments == b.compartments + a.compartments;
  }

  /** A label joined with itself is its normalized form. */
  lemma JoinIdempotent(a: Label, scheme: Scheme)
    requires ValidScheme(scheme) && IsLabel(a, scheme)
    ensures Join(Some(a), Some(a), scheme) == Check(a, scheme)
  {
    JoinOf(a, a, scheme);
    NormalizedKeeps(a, scheme);
    var v := ViewOf(a);
    assert v.compartments + v.compartments == v.compartments;
    assert v.releasableTo.Some? ==> v.releasableTo.value * v.releasableTo.value == v.releasableTo.value;
    hide Join, IsLabel, Canonical, ValidScheme, RankOr, Normalized, ViewOf;
    ViewDetermines(Join(Some(a), Some(a), scheme).value, Normalized(a));
  }

  lemma JoinAssociates(a: Label, b: Label, c: Label, scheme: Scheme)
    requires ValidScheme(scheme) && IsLabel(a, scheme) && IsLabel(b, scheme) && IsLabel(c, scheme)
    ensures Join(Join(Some(a), Some(b), scheme), Some(c), scheme) == Join(Some(a), Join(Some(b), Some(c), scheme), scheme)
  {
    JoinOf(a, b, scheme);
    JoinOf(b, c, scheme);
    JoinRank(a, b, scheme);
    JoinRank(b, c, scheme);
    var ab, bc := Join(Some(a), Some(b), scheme).value, Join(Some(b), Some(c), scheme).value;
    JoinOf(ab, c, scheme);
    JoinOf(a, bc, scheme);
    hide Join, IsLabel, Canonical, ValidScheme, RankOr, ViewOf;
    JoinViewAssociates(ViewOf(a), ViewOf(b), ViewOf(c), RankOr(a, scheme, 0), RankOr(b, scheme, 0), RankOr(c, scheme, 0));
    ViewDetermines(Join(Some(ab), Some(c), scheme).value, Join(Some(a), Some(bc), scheme).value);
  }

  lemma JoinViewAssociates(a: View, b: View, c: View, rankA: int, rankB: int, rankC: int)
    ensures JoinView(JoinView(a, b, rankA, rankB), c, if rankA >= rankB then rankA else rankB, rankC)
         == JoinView(a, JoinView(b, c, rankB, rankC), rankA, if rankB >= rankC then rankB else rankC)
  {
    assert a.compartments + b.compartments + c.compartments == a.compartments + (b.compartments + c.compartments);
    if a.releasableTo.Some? && b.releasableTo.Some? && c.releasableTo.Some? {
      var x, y, z := a.releasableTo.value, b.releasableTo.value, c.releasableTo.value;
      assert x * y * z == x * (y * z);
    }
  }

  /** A label that is not one of the scheme stays as it is, and nobody may read what it marks. */
  lemma JoinInvalid(a: Option<Label>, b: Option<Label>, party: Party, scheme: Scheme)
    requires (a.Some? && !IsLabel(a.value, scheme)) || (b.Some? && !IsLabel(b.value, scheme))
    ensures var joined := Join(a, b, scheme);
            joined.Some? && (joined == a || joined == b) && Dominates(party, joined.value, scheme) == Some(InvalidLabel)
  {}

  // --- how exact covering is -------------------------------------------------------------------------

  /** Covering, but for keeping the NOFORN mark itself. */
  predicate Protects(upper: Label, lower: Label, scheme: Scheme) {
    && RankOr(upper, scheme, -1) >= RankOr(lower, scheme, 0)
    && Elements(CompartmentsOf(lower)) <= Elements(CompartmentsOf(upper))
    && (Reach(lower, scheme).Some? ==>
          Reach(upper, scheme).Some? && Reach(upper, scheme).value <= Reach(lower, scheme).value)
  }

  /** A party with just the clearance a label asks for, and these citizenships. */
  function Reader(mark: Label, citizenship: set<Str>, scheme: Scheme): Party {
    Party(RankOr(mark, scheme, 0), Elements(CompartmentsOf(mark)), citizenship)
  }

  function AnyReader(mark: Label, scheme: Scheme): Party {
    Reader(mark, if Reach(mark, scheme).Some? then Reach(mark, scheme).value else {}, scheme)
  }

  lemma ReadersRead(mark: Label, country: Str, scheme: Scheme)
    requires IsLabel(mark, scheme)
    ensures Reach(mark, scheme) != Some({}) ==> MayRead(AnyReader(mark, scheme), mark, scheme)
    ensures Reach(mark, scheme).Some? && country in Reach(mark, scheme).value ==>
              MayRead(Reader(mark, {country}, scheme), mark, scheme)
  {
    hide IsLabel, Elements, LabelRank;
    if Reach(mark, scheme).Some? && Reach(mark, scheme).value != {} {
      var c :| c in Reach(mark, scheme).value;
      assert c in AnyReader(mark, scheme).citizenship;
    }
  }

  /**
   * Of labels somebody may read, one protects at least as much as another exactly when all its readers may read
   * the other; `labelCovers` asks for the NOFORN mark besides, which adds nothing for readers.
   */
  lemma ProtectsExactly(upper: Label, lower: Label, scheme: Scheme)
    requires IsLabel(upper, scheme) && IsLabel(lower, scheme) && Reach(upper, scheme) != Some({})
    ensures Protects(upper, lower, scheme)
       <==> forall party :: MayRead(party, upper, scheme) ==> MayRead(party, lower, scheme)
    ensures Covers(upper, lower, scheme)
       <==> Protects(upper, lower, scheme) && (lower.noforn == Some(true) ==> upper.noforn == Some(true))
  {
    if Protects(upper, lower, scheme) {
      forall party | MayRead(party, upper, scheme)
        ensures MayRead(party, lower, scheme)
      { ProtectsSound(upper, lower, party, scheme); }
    }
    if forall party :: MayRead(party, upper, scheme) ==> MayRead(party, lower, scheme) {
      ReadersDecide(upper, lower, scheme);
    }
  }

  lemma ProtectsSound(upper: Label, lower: Label, party: Party, scheme: Scheme)
    requires IsLabel(upper, scheme) && IsLabel(lower, scheme)
    requires Protects(upper, lower, scheme) && MayRead(party, upper, scheme)
    ensures MayRead(party, lower, scheme)
  {
    assert RankOr(lower, scheme, 0) <= party.rank;
    hide IsLabel, Elements, LabelRank;
    if Reach(lower, scheme).Some? {
      var reach := Reach(upper, scheme).value;
      assert exists c :: c in reach && c in party.citizenship;
    }
  }

  lemma ReadersDecide(upper: Label, lower: Label, scheme: Scheme)
    requires IsLabel(upper, scheme) && IsLabel(lower, scheme) && Reach(upper, scheme) != Some({})
    requires forall party :: MayRead(party, upper, scheme) ==> MayRead(party, lower, scheme)
    ensures Protects(upper, lower, scheme)
  {
    ReadersRead(upper, [], scheme);
    assert MayRead(AnyReader(upper, scheme), lower, scheme);
    if Reach(lower, scheme).Some? && Reach(upper, scheme).Some? {
      forall country | country in Reach(upper, scheme).value
        ensures country in Reach(lower, scheme).value
      {
        ReadersRead(upper, country, scheme);
        assert MayRead(Reader(upper, {country}, scheme), lower, scheme);
      }
    }
  }

  // --- who may read --------------------------------------------------------------------------------------

  predicate CitizenOf(party: Party, countries: seq<Str>) {
    exists i :: 0 <= i < |countries| && countries[i] in party.citizenship
  }

  /** At least the rank of the label's level. */
  predicate HighEnough(party: Party, mark: Label, scheme: Scheme) {
    forall i :: 0 <= i < |scheme.levels| && scheme.levels[i].id == mark.level ==> party.rank >= scheme.levels[i].rank
  }

  predicate ReadIn(party: Party, mark: Label) {
    forall i :: 0 <= i < |CompartmentsOf(mark)| ==> CompartmentsOf(mark)[i] in party.compartments
  }

  predicate Native(party: Party, mark: Label, scheme: Scheme) {
    mark.noforn == Some(true) ==> CitizenOf(party, scheme.ownerCountries)
  }

  predicate Released(party: Party, mark: Label, scheme: Scheme) {
    mark.releasableTo.Some? ==> CitizenOf(party, mark.releasableTo.value) || CitizenOf(party, scheme.ownerCountries)
  }

  lemma CitizenMeets(party: Party, countries: seq<Str>)
    ensures CitizenOf(party, countries) <==> !(Elements(countries) !! party.citizenship)
  {
    if !(Elements(countries) !! party.citizenship) {
      var c :| c in Elements(countries) && c in party.citizenship;
      var i :| 0 <= i < |countries| && countries[i] == c;
    }
    if i :| 0 <= i < |countries| && countries[i] in party.citizenship {
      assert countries[i] in Elements(countries);
    }
  }

  /** The refusal names the first of level, compartments, NOFORN and releasability that fails; without one, all are met. */
  lemma DominatesExactly(party: Party, mark: Label, scheme: Scheme)
    requires ValidScheme(scheme)
    ensures var refusal := Dominates(party, mark, scheme);
            var valid, high, into := IsLabel(mark, scheme), HighEnough(party, mark, scheme), ReadIn(party, mark);
            var native, released := Native(party, mark, scheme), Released(party, mark, scheme);
            && (refusal == Some(InvalidLabel) <==> !valid)
            && (refusal == Some(LevelTooLow) <==> valid && !high)
            && (refusal == Some(MissingCompartment) <==> valid && high && !into)
            && (refusal == Some(Foreign) <==> valid && high && into && !native)
            && (refusal == Some(NotReleasable) <==> valid && high && into && native && !released)
            && (MayRead(party, mark, scheme) <==> valid && high && into && native && released)
  {
    CitizenMeets(party, scheme.ownerCountries);
    if mark.releasableTo.Some? { CitizenMeets(party, mark.releasableTo.value); }
    RankedAt(party, mark, scheme);
    CompartmentsMeet(party, mark);
    hide IsLabel, LabelRank, HighEnough, ReadIn, CitizenOf, ValidScheme, Elements, RankOr, CompartmentsOf;
  }

  lemma RankedAt(party: Party, mark: Label, scheme: Scheme)
    requires ValidScheme(scheme)
    ensures IsLabel(mark, scheme) ==> (HighEnough(party, mark, scheme) <==> party.rank >= RankOr(mark, scheme, 0))
  {
    var k := LevelAt(scheme.levels, mark.level);
    if k < |scheme.levels| {
      assert forall i :: 0 <= i < |scheme.levels| && scheme.levels[i].id == mark.level ==> i == k;
    }
  }

  lemma CompartmentsMeet(party: Party, mark: Label)
    ensures ReadIn(party, mark) <==> Elements(CompartmentsOf(mark)) <= party.compartments
  {
    assert forall i :: 0 <= i < |CompartmentsOf(mark)| ==> CompartmentsOf(mark)[i] in Elements(CompartmentsOf(mark));
  }
}
