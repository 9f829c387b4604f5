/** Stored rows, the in-memory filter they are searched with, and the queries a database driver answers. */
module Records {
  import opened Wrappers
  import opened Text
  import opened Order
  import opened Json
  import opened Numbers
  import opened Sorting

  const ID := U("id")
  const TENANT_ID := U("tenantId")
  const UNIQUE_KEY := U("uniqueKey")

  /** What a database column can hold unchanged: no U+0000 and no unpaired surrogate. */
  predicate Storable(s: Str) { Clean(s) && 0 !in s }

  /** `storableString`: one pass over the code units. */
  method StorableString(s: Str) returns (ok: bool)
    ensures ok == Storable(s)
  {
    var i := 0;
    while i < |s|
      invariant i <= |s|
      invariant Storable(s) <==> Storable(s[i..])
    {
      var rest := s[i..];
      var n := FirstLength(rest);
      StorableFirst(rest);
      assert rest[n..] == s[i + n..];
      if s[i] == 0 { return false; }
      if High(s[i]) {
        if !(i + 1 < |s| && Low(s[i + 1])) { return false; }
        i := i + 1;
      } else if Low(s[i]) {
        return false;
      }
      i := i + 1;
    }
    return true;
  }

  lemma StorableFirst(s: Str)
    requires s != []
    ensures var n := FirstLength(s); Storable(s) <==> CleanChar(s[..n]) && 0 !in s[..n] && Storable(s[n..])
  {
    var n := FirstLength(s);
    assert s == s[..n] + s[n..];
    assert Chars(s) == [s[..n]] + Chars(s[n..]);
    if Clean(s) {
      assert Chars(s)[0] == s[..n];
      forall i | 0 <= i < |Chars(s[n..])|
        ensures CleanChar(Chars(s[n..])[i])
      { assert Chars(s)[i + 1] == Chars(s[n..])[i]; }
    }
  }

  /** Every high surrogate has a low one after it, every low one a high one before it, and there is no U+0000. */
  predicate WholePairs(s: Str) { forall i :: 0 <= i < |s| ==> PairedAt(s, i) }

  predicate PairedAt(s: Str, i: nat)
    requires i < |s|
  {
    s[i] != 0 && (High(s[i]) ==> i + 1 < |s| && Low(s[i + 1])) && (Low(s[i]) ==> i > 0 && High(s[i - 1]))
  }

  lemma {:induction false} StorableExactly(s: Str)
    ensures Storable(s) <==> WholePairs(s)
    decreases |s|
  {
    if s != [] {
      var n := FirstLength(s);
      StorableFirst(s);
      StorableExactly(s[n..]);
      PairsFirst(s);
      hide Storable, WholePairs;
    }
  }

  lemma PairsFirst(s: Str)
    requires s != []
    ensures var n := FirstLength(s); WholePairs(s) <==> CleanChar(s[..n]) && 0 !in s[..n] && WholePairs(s[n..])
  {
    var n := FirstLength(s);
    var rest := s[n..];
    assert forall i :: 0 <= i < |rest| ==> rest[i] == s[n + i];
    if WholePairs(s) {
      assert PairedAt(s, 0) && (n == 2 ==> PairedAt(s, 1));
      forall i | 0 <= i < |rest|
        ensures PairedAt(rest, i)
      { assert PairedAt(s, n + i); }
    }
    if CleanChar(s[..n]) && 0 !in s[..n] && WholePairs(rest) {
      assert s[..n][0] == s[0] && (n == 2 ==> s[..n][1] == s[1]);
      forall i | 0 <= i < |s|
        ensures PairedAt(s, i)
      {
        if i >= n { assert PairedAt(rest, i - n); }
      }
    }
  }

  // --- rows ------------------------------------------------------------------------------------------

  datatype Row = Row(collection: Str, id: Str, tenantId: Str, uniqueKey: Option<Str>, record: Members)

  /** The columns repeat the record's own fields, and hold only what a column can. */
  ghost predicate Consistent(row: Row) {
    && WellFormed(Obj(row.record)) && Pure(Obj(row.record))
    && Storable(row.collection) && Storable(row.id) && Storable(row.tenantId)
    && (row.uniqueKey.Some? ==> Storable(row.uniqueKey.value))
    && Get(row.record, ID) == Text(row.id)
    && Get(row.record, TENANT_ID) == Text(row.tenantId)
    && Get(row.record, UNIQUE_KEY) == if row.uniqueKey.Some? then Text(row.uniqueKey.value) else Undefined
  }

  /** `matchesFilter`: every filter member equals the record's; an absent member is undefined. */
  predicate Matches(record: Members, filter: Members) { MatchesUpTo(record, filter, |filter|) }

  predicate MatchesUpTo(record: Members, filter: Members, n: nat)
    requires n <= |filter|
  {
    forall i :: 0 <= i < n ==> Equal(Get(record, filter[i].0), filter[i].1)
  }

  // --- queries ---------------------------------------------------------------------------------------

  datatype Test =
    | IsText(text: Str)
    | IsNumber(number: Double)
    | IsFlag(flag: bool)
    | IsNull
    | IsAbsent
    | IsJson(expected: Json)

  datatype Condition = Condition(field: Str, test: Test)

  datatype Query = Query(
    collection: Str, id: Option<Str>, tenantId: Option<Str>, uniqueKey: Option<Str>,
    conditions: seq<Condition>, after: Option<Str>)

  /** What a driver's typed condition selects. */
  predicate Holds(record: Members, c: Condition) {
    var found := Get(record, c.field);
    match c.test
    case IsText(t) => found == Text(t)
    case IsNumber(n) => found == Number(n)
    case IsFlag(b) => found == Bool(b)
    case IsNull => found == Null
    case IsAbsent => !Has(record, c.field)
    case IsJson(j) => Has(record, c.field) && Meaning(found) == Meaning(j)
  }

  predicate Accepts(column: Option<Str>, wanted: Option<Str>) { wanted.Some? ==> column == wanted }

  /** Every column and field condition of the query, the cursor aside. */
  predicate Selects(q: Query, row: Row) {
    && row.collection == q.collection
    && Accepts(Some(row.id), q.id) && Accepts(Some(row.tenantId), q.tenantId) && Accepts(row.uniqueKey, q.uniqueKey)
    && forall i :: 0 <= i < |q.conditions| ==> Holds(row.record, q.conditions[i])
  }

  // --- the order of ids ------------------------------------------------------------------------------

  predicate IdBefore(a: Row, b: Row) { Less(a.id, b.id) }

  lemma IdsOrdered()
    ensures WeakOrder(IdBefore)
  {
    forall a: Row, b: Row
      ensures IdBefore(a, b) ==> !IdBefore(b, a)
    { TotalOrder(a.id, b.id, a.id); }
    forall a: Row, b: Row, c: Row
      ensures !IdBefore(b, a) && !IdBefore(c, b) ==> !IdBefore(c, a)
    {
      TotalOrder(a.id, b.id, c.id);
      TotalOrder(c.id, a.id, b.id);
      TotalOrder(b.id, c.id, a.id);
    }
  }

  /** Sorted by id, in code-point order. */
  function ById(rows: seq<Row>): seq<Row> { Sort(rows, IdBefore) }

  lemma ByIdOrdered(rows: seq<Row>)
    ensures Ordered(ById(rows), IdBefore)
    ensures forall r :: r in ById(rows) <==> r in rows
  {
    IdsOrdered();
    SortOrdered(rows, IdBefore);
  }
}
