/** JSON values as stored records and filters hold them, and equality that ignores the order of members. */
module Json {
  import opened Numbers
  import opened Text

  /** `Undefined` occurs in filters only: a member asked to be absent. */
  datatype Json =
    | Undefined
    | Null
    | Bool(flag: bool)
    | Number(value: Double)
    | Text(text: Str)
    | Arr(items: seq<Json>)
    | Obj(members: Members)

  type Members = seq<(Str, Json)>

  /** A JSON value up to the order of its members. */
  datatype Data = Scalar(scalar: Json) | List(items: seq<Data>) | Record(members: map<Str, Data>)

  predicate DistinctNames(members: Members) {
    forall i, j :: 0 <= i < j < |members| ==> members[i].0 != members[j].0
  }

  /** Object members have distinct names, at every depth. */
  predicate WellFormed(j: Json) {
    match j
    case Arr(items) => forall i :: 0 <= i < |items| ==> WellFormed(items[i])
    case Obj(members) => DistinctNames(members) && forall i :: 0 <= i < |members| ==> WellFormed(members[i].1)
    case _ => true
  }

  /** Nothing undefined, at any depth: what JSON text can hold. */
  predicate Pure(j: Json) {
    match j
    case Undefined => false
    case Arr(items) => forall i :: 0 <= i < |items| ==> Pure(items[i])
    case Obj(members) => forall i :: 0 <= i < |members| ==> Pure(members[i].1)
    case _ => true
  }

  /** Where a member of this name is; the number of members when there is none. */
  function Find(members: Members, name: Str): (i: nat)
    ensures i <= |members|
    ensures i < |members| ==> members[i].0 == name
    ensures forall k :: 0 <= k < i ==> members[k].0 != name
  {
    if members == [] then 0 else if members[0].0 == name then 0 else 1 + Find(members[1..], name)
  }

  predicate Has(members: Members, name: Str) { Find(members, name) < |members| }

  function Get(members: Members, name: Str): Json {
    if Has(members, name) then members[Find(members, name)].1 else Undefined
  }

  lemma FindsItself(members: Members, i: nat)
    requires DistinctNames(members) && i < |members|
    ensures Find(members, members[i].0) == i && Get(members, members[i].0) == members[i].1
  {
    var k := Find(members, members[i].0);
    assert k <= i && members[k].0 == members[i].0;
  }

  function Names(members: Members): set<Str> { set i | 0 <= i < |members| :: members[i].0 }

  lemma NamesHas(members: Members, name: Str)
    ensures name in Names(members) <==> Has(members, name)
  {
    if Has(members, name) { assert members[Find(members, name)].0 == name; }
  }

  lemma {:induction false} NamesCount(members: Members)
    requires DistinctNames(members)
    ensures |Names(members)| == |members|
  {
    if members != [] {
      var n := |members| - 1;
      NamesCount(members[..n]);
      assert Names(members) == Names(members[..n]) + {members[n].0};
    }
  }

  function Meaning(j: Json): Data {
    match j
    case Arr(items) => List(seq(|items|, i requires 0 <= i < |items| => Meaning(items[i])))
    case Obj(members) =>
      Record(map name | name in Names(members) && Has(members, name) :: Meaning(members[Find(members, name)].1))
    case _ => Scalar(j)
  }

  function MembersMeaning(members: Members): map<Str, Data> { Meaning(Obj(members)).members }

  /** `equal`: deep equality of JSON data, the order of members aside. */
  predicate Equal(a: Json, b: Json) {
    match (a, b)
    case (Arr(x), Arr(y)) => |x| == |y| && forall i :: 0 <= i < |x| ==> Equal(x[i], y[i])
    case (Obj(x), Obj(y)) =>
      |x| == |y| && forall i :: 0 <= i < |x| ==> Has(y, x[i].0) && Equal(x[i].1, Get(y, x[i].0))
    case _ => a == b
  }

  /** As many members, all found: then the names are the same. */
  lemma SameNames(x: Members, y: Members)
    requires DistinctNames(x) && DistinctNames(y) && |x| == |y|
    requires forall i :: 0 <= i < |x| ==> Has(y, x[i].0)
    ensures Names(x) == Names(y)
  {
    NamesCount(x);
    NamesCount(y);
    forall name | name in Names(x)
      ensures name in Names(y)
    { NamesHas(y, name); }
    SubsetOfSameSize(Names(x), Names(y));
  }

  lemma SubsetOfSameSize<T>(a: set<T>, b: set<T>)
    requires a <= b && |a| == |b|
    ensures a == b
  {
    assert b == a + (b - a);
    assert |b - a| == 0;
  }

  /** `equal` decides exactly whether two values are the same up to the order of members. */
  lemma {:induction false} EqualMeaning(a: Json, b: Json)
    requires WellFormed(a) && WellFormed(b)
    ensures Equal(a, b) <==> Meaning(a) == Meaning(b)
  {
    match (a, b)
    case (Arr(x), Arr(y)) =>
      forall i | 0 <= i < |x| && i < |y|
        ensures Equal(x[i], y[i]) <==> Meaning(x[i]) == Meaning(y[i])
      { EqualMeaning(x[i], y[i]); }
      if Meaning(a) == Meaning(b) {
        forall i | 0 <= i < |x|
          ensures Meaning(x[i]) == Meaning(y[i])
        { assert Meaning(a).items[i] == Meaning(b).items[i]; }
      }
    case (Obj(x), Obj(y)) =>
      forall i | 0 <= i < |x| && Has(y, x[i].0)
        ensures Equal(x[i].1, Get(y, x[i].0)) <==> Meaning(x[i].1) == Meaning(Get(y, x[i].0))
      { EqualMeaning(x[i].1, Get(y, x[i].0)); }
      MembersEqual(x, y);
    case _ =>
  }

  predicate SameMembers(x: Members, y: Members) {
    |x| == |y| && forall i :: 0 <= i < |x| ==> Has(y, x[i].0) && Meaning(x[i].1) == Meaning(Get(y, x[i].0))
  }

  lemma MembersEqual(x: Members, y: Members)
    requires DistinctNames(x) && DistinctNames(y)
    ensures MembersMeaning(x) == MembersMeaning(y) <==> SameMembers(x, y)
  {
    MeaningNames(x);
    MeaningNames(y);
    if MembersMeaning(x) == MembersMeaning(y) {
      MeaningMembers(x, y);
    }
    if SameMembers(x, y) {
      MembersMeaningSame(x, y);
    }
  }

  lemma MeaningMembers(x: Members, y: Members)
    requires DistinctNames(x) && DistinctNames(y) && MembersMeaning(x) == MembersMeaning(y)
    ensures SameMembers(x, y)
  {
    NamesCount(x);
    NamesCount(y);
    MeaningNames(x);
    MeaningNames(y);
    forall i | 0 <= i < |x|
      ensures Has(y, x[i].0) && Meaning(x[i].1) == Meaning(Get(y, x[i].0))
    {
      MeaningAt(x, i);
      NamesHas(y, x[i].0);
      MeaningGet(y, x[i].0);
    }
  }

  lemma MembersMeaningSame(x: Members, y: Members)
    requires DistinctNames(x) && DistinctNames(y) && SameMembers(x, y)
    ensures MembersMeaning(x) == MembersMeaning(y)
  {
    SameNames(x, y);
    MeaningNames(x);
    MeaningNames(y);
    forall name | name in MembersMeaning(x)
      ensures MembersMeaning(x)[name] == MembersMeaning(y)[name]
    {
      NamesHas(x, name);
      MeaningAt(x, Find(x, name));
      MeaningGet(y, name);
    }
  }

  lemma MeaningNames(members: Members)
    ensures MembersMeaning(members).Keys == Names(members)
  {
    forall name
      ensures name in Names(members) <==> name in MembersMeaning(members)
    { NamesHas(members, name); }
  }

  lemma MeaningAt(members: Members, i: nat)
    requires DistinctNames(members) && i < |members|
    ensures members[i].0 in MembersMeaning(members)
    ensures MembersMeaning(members)[members[i].0] == Meaning(members[i].1)
  {
    FindsItself(members, i);
    NamesHas(members, members[i].0);
  }

  lemma MeaningGet(members: Members, name: Str)
    requires Has(members, name)
    ensures name in MembersMeaning(members) && MembersMeaning(members)[name] == Meaning(Get(members, name))
  {
    NamesHas(members, name);
  }
}
