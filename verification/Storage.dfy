/** The record store: planning a query for the driver, and searches whose answer no driver changes. */
module Storage {
  import opened Wrappers
  import opened Text
  import opened Order
  import opened Json
  import opened Records
  import opened Sorting

  const MAX_QUERY_CONDITIONS: nat := 24
  const ESCAPE_KEY: Str := [1] + U("better-iam")

  predicate Letter(u: CodeUnit) { 65 <= u <= 90 || 97 <= u <= 122 || u == 95 }

  predicate Digit(u: CodeUnit) { 48 <= u <= 57 }

  /** `QUERYABLE_FIELD`: a name a driver may put into an SQL path. */
  predicate Queryable(field: Str) {
    && 1 <= |field| <= 128 && Letter(field[0])
    && forall i :: 0 <= i < |field| ==> Letter(field[i]) || Digit(field[i])
  }

  /** `pushableJson`: what a database compares exactly. */
  predicate Pushable(j: Json) {
    match j
    case Undefined => false
    case Text(t) => Storable(t)
    case Arr(items) => forall i :: 0 <= i < |items| ==> Pushable(items[i])
    case Obj(members) =>
      forall i :: 0 <= i < |members| ==>
        members[i].0 != ESCAPE_KEY && Storable(members[i].0) && Pushable(members[i].1)
    case _ => true
  }

  // --- planning a query ------------------------------------------------------------------------------

  /** A filter member answered by a column of the row. */
  predicate OnColumn(member: (Str, Json)) { member.1.Text? && member.0 in {ID, TENANT_ID, UNIQUE_KEY} }

  /** A filter member answered by a typed condition, given room for one. */
  predicate OnCondition(member: (Str, Json), json: bool) {
    && Queryable(member.0)
    && match member.1
       case Text(t) => Storable(t)
       case Arr(_) => json && Pushable(member.1)
       case Obj(_) => json && Pushable(member.1)
       case _ => true
  }

  function Conditional(filter: Members, n: nat): nat
    requires n <= |filter|
  {
    if n == 0 then 0 else Conditional(filter, n - 1) + if OnColumn(filter[n - 1]) then 0 else 1
  }

  /** The driver can answer the whole filter. */
  predicate Exact(filter: Members, n: nat, json: bool)
    requires n <= |filter|
  {
    && (forall i :: 0 <= i < n ==> OnColumn(filter[i]) || OnCondition(filter[i], json))
    && Conditional(filter, n) <= MAX_QUERY_CONDITIONS
  }

  lemma ExactStep(filter: Members, n: nat, json: bool)
    requires n < |filter|
    ensures Exact(filter, n + 1, json)
       <==> (Exact(filter, n, json) && (OnColumn(filter[n]) || OnCondition(filter[n], json))
             && Conditional(filter, n + 1) <= MAX_QUERY_CONDITIONS)
    ensures Conditional(filter, n + 1) == Conditional(filter, n) + if OnColumn(filter[n]) then 0 else 1
  {}

  function TestFor(j: Json): Test {
    match j
    case Text(t) => IsText(t)
    case Number(n) => IsNumber(n)
    case Bool(b) => IsFlag(b)
    case Null => IsNull
    case Undefined => IsAbsent
    case _ => IsJson(j)
  }

  /** Each kind of condition selects exactly what the in-memory filter does. */
  lemma ConditionExact(record: Members, field: Str, wanted: Json)
    requires WellFormed(Obj(record)) && Pure(Obj(record)) && WellFormed(wanted)
    ensures Holds(record, Condition(field, TestFor(wanted))) <==> Equal(Get(record, field), wanted)
  {
    var found := Get(record, field);
    MemberKept(record, field);
    if Has(record, field) && (wanted.Arr? || wanted.Obj?) {
      EqualMeaning(found, wanted);
      hide *;
    } else {
      hide WellFormed, Pure, Meaning, Has, Get;
    }
  }

  /** What a record has under a name is well-formed, and never undefined. */
  lemma MemberKept(record: Members, field: Str)
    requires WellFormed(Obj(record)) && Pure(Obj(record))
    ensures WellFormed(Get(record, field)) && (Get(record, field) == Undefined <==> !Has(record, field))
  {}

  /** What the plan of the first members of the filter promises about every row a store can hold. */
  ghost predicate Planned(filter: Members, n: nat, q: Query, exact: bool, empty: bool)
    requires n <= |filter|
  {
    && (forall row: Row :: Consistent(row) && row.collection == q.collection && MatchesUpTo(row.record, filter, n)
          ==> !empty && Selects(q, row))
    && (forall row: Row :: Consistent(row) && exact && !empty && Selects(q, row)
          ==> MatchesUpTo(row.record, filter, n))
  }

  ghost predicate UnusedColumns(filter: Members, n: nat, q: Query)
    requires n <= |filter|
  {
    && (q.id.Some? ==> exists i :: 0 <= i < n && filter[i].0 == ID)
    && (q.tenantId.Some? ==> exists i :: 0 <= i < n && filter[i].0 == TENANT_ID)
    && (q.uniqueKey.Some? ==> exists i :: 0 <= i < n && filter[i].0 == UNIQUE_KEY)
  }

  lemma ColumnNames()
    ensures ID != TENANT_ID && ID != UNIQUE_KEY && TENANT_ID != UNIQUE_KEY
  {
    assert |ID| == 2 && |TENANT_ID| == 8 && |UNIQUE_KEY| == 9;
  }

  lemma PlannedNothing(filter: Members, q: Query, json: bool)
    requires q == Query(q.collection, None, None, None, [], None)
    ensures Planned(filter, 0, q, true, false) && UnusedColumns(filter, 0, q)
    ensures Exact(filter, 0, json) && Conditional(filter, 0) == 0
  {}

  /** A member the driver does not see leaves the plan inexact but still covering. */
  lemma PlannedSkip(filter: Members, n: nat, q: Query, exact: bool, empty: bool)
    requires n < |filter| && Planned(filter, n, q, exact, empty)
    ensures Planned(filter, n + 1, q, false, empty)
  {
    forall row: Row | Consistent(row) && row.collection == q.collection && MatchesUpTo(row.record, filter, n + 1)
      ensures !empty && Selects(q, row)
    { assert MatchesUpTo(row.record, filter, n); }
  }

  lemma PlannedCondition(filter: Members, n: nat, q: Query, exact: bool, empty: bool)
    requires n < |filter| && Planned(filter, n, q, exact, empty) && WellFormed(filter[n].1)
    ensures var c := Condition(filter[n].0, TestFor(filter[n].1));
            Planned(filter, n + 1, q.(conditions := q.conditions + [c]), exact, empty)
  {
    var c := Condition(filter[n].0, TestFor(filter[n].1));
    var more := q.(conditions := q.conditions + [c]);
    forall row: Row | Consistent(row) && row.collection == q.collection && MatchesUpTo(row.record, filter, n + 1)
      ensures !empty && Selects(more, row)
    {
      assert MatchesUpTo(row.record, filter, n);
      ConditionExact(row.record, filter[n].0, filter[n].1);
    }
    forall row: Row | Consistent(row) && exact && !empty && Selects(more, row)
      ensures MatchesUpTo(row.record, filter, n + 1)
    {
      assert Selects(q, row) by {
        forall i | 0 <= i < |q.conditions|
          ensures Holds(row.record, q.conditions[i])
        { assert more.conditions[i] == q.conditions[i]; }
      }
      assert Holds(row.record, more.conditions[|q.conditions|]);
      ConditionExact(row.record, filter[n].0, filter[n].1);
    }
  }

  function OnColumnQuery(q: Query, field: Str, value: Str): (r: Query)
    ensures r.collection == q.collection && r.conditions == q.conditions && r.after == q.after
  {
    if field == ID then q.(id := Some(value))
    else if field == TENANT_ID then q.(tenantId := Some(value))
    else q.(uniqueKey := Some(value))
  }

  lemma ColumnSelects(member: (Str, Json), q: Query, row: Row)
    requires OnColumn(member) && Consistent(row)
    requires (member.0 == ID ==> q.id == None) && (member.0 == TENANT_ID ==> q.tenantId == None)
    requires member.0 == UNIQUE_KEY ==> q.uniqueKey == None
    ensures Selects(OnColumnQuery(q, member.0, member.1.text), row)
       <==> Selects(q, row) && Equal(Get(row.record, member.0), member.1)
  {
    hide WellFormed, Pure, Find, Storable, Holds, ID, TENANT_ID, UNIQUE_KEY;
    ColumnNames();
  }

  lemma ColumnUsed(filter: Members, n: nat, q: Query)
    requires n < |filter| && OnColumn(filter[n]) && UnusedColumns(filter, n, q)
    ensures UnusedColumns(filter, n + 1, OnColumnQuery(q, filter[n].0, filter[n].1.text))
  {
    ColumnNames();
  }

  lemma PlannedColumn(filter: Members, n: nat, q: Query, exact: bool, empty: bool)
    requires n < |filter| && DistinctNames(filter) && OnColumn(filter[n]) && Storable(filter[n].1.text)
    requires Planned(filter, n, q, exact, empty) && UnusedColumns(filter, n, q)
    ensures Planned(filter, n + 1, OnColumnQuery(q, filter[n].0, filter[n].1.text), exact, empty)
    ensures UnusedColumns(filter, n + 1, OnColumnQuery(q, filter[n].0, filter[n].1.text))
  {
    hide Consistent, Storable, Equal, Selects, OnColumnQuery;
    ColumnNames();
    var more := OnColumnQuery(q, filter[n].0, filter[n].1.text);
    forall row: Row | Consistent(row)
      ensures Selects(more, row) <==> Selects(q, row) && Equal(Get(row.record, filter[n].0), filter[n].1)
      ensures MatchesUpTo(row.record, filter, n + 1)
         <==> MatchesUpTo(row.record, filter, n) && Equal(Get(row.record, filter[n].0), filter[n].1)
    { ColumnSelects(filter[n], q, row); }
    ColumnUsed(filter, n, q);
  }

  lemma PlannedEmpty(filter: Members, n: nat, q: Query, exact: bool, empty: bool)
    requires n < |filter| && OnColumn(filter[n]) && !Storable(filter[n].1.text)
    requires Planned(filter, n, q, exact, empty)
    ensures Planned(filter, n + 1, q, exact, true)
  {
    ColumnNames();
    forall row: Row | Consistent(row)
      ensures !Equal(Get(row.record, filter[n].0), filter[n].1)
    {}
  }

  /** What the planning loop knows of its next member. */
  lemma MemberFacts(filter: Members, i: nat, q: Query, json: bool)
    requires WellFormed(Obj(filter)) && i < |filter|
    ensures WellFormed(filter[i].1) && DistinctNames(filter)
    ensures OnColumn(filter[i]) ==> filter[i].1.Text?
    ensures OnCondition(filter[i], json) ==> Queryable(filter[i].0)
    ensures UnusedColumns(filter, i, q) ==> UnusedColumns(filter, i + 1, q)
    ensures forall conditions :: UnusedColumns(filter, i, q) ==> UnusedColumns(filter, i, q.(conditions := conditions))
  {}

  /** `planQuery`: what the driver is asked, whether that is the whole filter, and whether nothing can match. */
  method PlanQuery(collection: Str, filter: Members, json: bool) returns (q: Query, exact: bool, empty: bool)
    requires WellFormed(Obj(filter))
    ensures q.collection == collection && q.after == None && |q.conditions| <= MAX_QUERY_CONDITIONS
    ensures Planned(filter, |filter|, q, exact, empty)
    ensures exact <==> Exact(filter, |filter|, json)
  {
    hide *;
    q, exact, empty := Query(collection, None, None, None, [], None), true, false;
    var i := 0;
    PlannedNothing(filter, q, json);
    while i < |filter|
      invariant i <= |filter|
      invariant q.collection == collection && q.after == None
      invariant |q.conditions| <= MAX_QUERY_CONDITIONS
      invariant |q.conditions| <= Conditional(filter, i) && (exact ==> |q.conditions| == Conditional(filter, i))
      invariant exact <==> Exact(filter, i, json)
      invariant Planned(filter, i, q, exact, empty) && UnusedColumns(filter, i, q)
    {
      var field, value := filter[i].0, filter[i].1;
      ExactStep(filter, i, json);
      MemberFacts(filter, i, q, json);
      if OnColumn(filter[i]) {
        var ok := StorableString(value.text);
        if !ok {
          PlannedEmpty(filter, i, q, exact, empty);
          empty := true;
        } else {
          PlannedColumn(filter, i, q, exact, empty);
          q := OnColumnQuery(q, field, value.text);
        }
      } else if !Queryable(field) || |q.conditions| >= MAX_QUERY_CONDITIONS {
        PlannedSkip(filter, i, q, exact, empty);
        exact := false;
      } else {
        var pushed := OnCondition(filter[i], json);
        if pushed {
          PlannedCondition(filter, i, q, exact, empty);
          MemberFacts(filter, i, q.(conditions := q.conditions + [Condition(field, TestFor(value))]), json);
          q := q.(conditions := q.conditions + [Condition(field, TestFor(value))]);
        } else {
          PlannedSkip(filter, i, q, exact, empty);
          exact := false;
        }
      }
      i := i + 1;
    }
  }

  // --- the driver and the store ----------------------------------------------------------------------

  /**
   * What a driver offers: filtered queries or not, JSON conditions or not, and the cursors it honours
   * (a driver may ignore any of them, even all).
   */
  datatype Driver = Driver(queries: bool, json: bool, honours: Str -> bool)

  ghost predicate DistinctIds(rows: seq<Row>) {
    forall i, j :: 0 <= i < j < |rows| ==> rows[i].collection != rows[j].collection || rows[i].id != rows[j].id
  }

  /** The two keys of the table. */
  ghost predicate Keyed(rows: seq<Row>) {
    && DistinctIds(rows)
    && forall i, j :: 0 <= i < j < |rows| ==> !SharesKey(rows[i], rows[j])
  }

  /** The natural key of another record of the tenant. */
  predicate SharesKey(a: Row, b: Row) {
    a.collection == b.collection && a.tenantId == b.tenantId && a.uniqueKey.Some? && a.uniqueKey == b.uniqueKey
  }

  predicate Follows(row: Row, after: Option<Str>) { after.Some? ==> Less(after.value, row.id) }

  /** `wanted`, for a record of the collection. */
  predicate Wanted(row: Row, filter: Members, after: Option<Str>) {
    Matches(row.record, filter) && Follows(row, after)
  }

  /** The simple search: the matching records of the collection past the cursor, by id, and then the page. */
  function Reference(rows: seq<Row>, collection: Str, filter: Members, after: Option<Str>): seq<Row> {
    Where(ById(rows), (row: Row) => row.collection == collection && Wanted(row, filter, after))
  }

  /** A driver's answer to a query: exactly the selected rows by id, from the cursor if it is honoured. */
  function Answer(driver: Driver, rows: seq<Row>, q: Query): seq<Row> {
    Where(ById(rows), (row: Row) =>
      Selects(q, row) && (q.after.Some? && driver.honours(q.after.value) ==> Follows(row, q.after)))
  }

  /** `driver.select`: the rows of a collection, an id, a tenant, in any order. */
  function Select(rows: seq<Row>, collection: Str, id: Option<Str>, tenantId: Option<Str>): seq<Row> {
    Where(rows, (row: Row) => row.collection == collection && Accepts(Some(row.id), id) && Accepts(Some(row.tenantId), tenantId))
  }

  predicate AllWanted(rows: seq<Row>, filter: Members, after: Option<Str>) {
    forall i :: 0 <= i < |rows| ==> Wanted(rows[i], filter, after)
  }

  /** The driver's rows, filtered again in memory, are the simple search. */
  lemma FilteredAnswer(driver: Driver, rows: seq<Row>, filter: Members, after: Option<Str>,
                       q: Query, exact: bool, cursor: Option<Str>)
    requires forall row :: row in rows ==> Consistent(row)
    requires Planned(filter, |filter|, q, exact, false) && (cursor == after || cursor == None)
    ensures Where(Answer(driver, rows, q.(after := cursor)), (row: Row) => Wanted(row, filter, after))
         == Reference(rows, q.collection, filter, after)
  {
    var asked := q.(after := cursor);
    var p := (row: Row) => Selects(asked, row) && (asked.after.Some? && driver.honours(asked.after.value) ==> Follows(row, asked.after));
    var w := (row: Row) => Wanted(row, filter, after);
    var both := (row: Row) => row.collection == q.collection && Wanted(row, filter, after);
    ByIdOrdered(rows);
    forall row | row in ById(rows)
      ensures both(row) == (p(row) && w(row))
    {
      assert Selects(asked, row) <==> Selects(q, row);
    }
    WhereTwice(ById(rows), p, w, both);
  }

  lemma PlannedCursor(filter: Members, q: Query, exact: bool, cursor: Option<Str>)
    requires Planned(filter, |filter|, q, exact, false)
    ensures Planned(filter, |filter|, q.(after := cursor), exact, false)
  {
    forall row: Row
      ensures Selects(q.(after := cursor), row) <==> Selects(q, row)
    {}
  }

  /** With an exact plan and an honoured cursor, the driver's rows are the simple search. */
  lemma ExactAnswer(driver: Driver, rows: seq<Row>, filter: Members, after: Option<Str>, q: Query)
    requires forall row :: row in rows ==> Consistent(row)
    requires Planned(filter, |filter|, q, true, false) && q.after == after
    requires after.Some? ==> driver.honours(after.value)
    ensures Answer(driver, rows, q) == Reference(rows, q.collection, filter, after)
  {
    FilteredAnswer(driver, rows, filter, after, q, true, after);
    ByIdOrdered(rows);
    var p := (row: Row) => Selects(q, row) && (q.after.Some? && driver.honours(q.after.value) ==> Follows(row, q.after));
    WhereMembers(ById(rows), p);
    var answer := Where(ById(rows), p);
    forall row | row in answer
      ensures Wanted(row, filter, after)
    {}
    WhereAll(answer, (row: Row) => Wanted(row, filter, after));
  }

  /**
   * A page read from the start of an answer that ignores the cursor: when every row of it is past the
   * cursor, so is the whole answer, because the rows are in order. This needs a page that is not empty.
   */
  lemma IgnoredCursor(driver: Driver, rows: seq<Row>, filter: Members, after: Option<Str>, q: Query, limit: Option<nat>)
    requires forall row :: row in rows ==> Consistent(row)
    requires Planned(filter, |filter|, q, true, false) && q.after == after
    requires limit.Some? ==> limit.value > 0
    requires AllWanted(Page(Answer(driver, rows, q), 0, limit), filter, after)
    ensures Answer(driver, rows, q) == Reference(rows, q.collection, filter, after)
  {
    var answer := Answer(driver, rows, q);
    FilteredAnswer(driver, rows, filter, after, q, true, after);
    AnswerOrdered(driver, rows, q);
    hide Answer, Reference, Consistent;
    forall row | row in answer
      ensures Wanted(row, filter, after)
    {
      AnswerMatches(driver, rows, filter, q, row);
      hide Planned, Matches;
      assert Page(answer, 0, limit)[0] == answer[0];
      var k :| 0 <= k < |answer| && answer[k] == row;
      if after.Some? && k > 0 {
        assert !IdBefore(answer[k], answer[0]);
        PastFirst(after.value, answer[0].id, answer[k].id);
      }
    }
    hide Wanted, Ordered, IdBefore;
    WhereAll(answer, (row: Row) => Wanted(row, filter, after));
  }

  lemma AnswerMatches(driver: Driver, rows: seq<Row>, filter: Members, q: Query, row: Row)
    requires forall other :: other in rows ==> Consistent(other)
    requires Planned(filter, |filter|, q, true, false) && row in Answer(driver, rows, q)
    ensures Matches(row.record, filter)
  {
    var p := (row: Row) => Selects(q, row) && (q.after.Some? && driver.honours(q.after.value) ==> Follows(row, q.after));
    ByIdOrdered(rows);
    WhereMembers(ById(rows), p);
  }

  lemma AnswerOrdered(driver: Driver, rows: seq<Row>, q: Query)
    ensures Ordered(Answer(driver, rows, q), IdBefore)
  {
    var p := (row: Row) => Selects(q, row) && (q.after.Some? && driver.honours(q.after.value) ==> Follows(row, q.after));
    ByIdOrdered(rows);
    WhereOrdered(ById(rows), p, IdBefore);
  }

  lemma PastFirst(cursor: Str, first: Str, later: Str)
    requires Less(cursor, first) && !Less(later, first)
    ensures Less(cursor, later)
  {
    TotalOrder(cursor, first, later);
    TotalOrder(first, later, later);
  }

  /** Skipping after reading from the start is reading a later page. */
  lemma PageOfPage<T>(s: seq<T>, offset: nat, limit: Option<nat>)
    ensures Page(Page(s, 0, if limit.Some? then Some(offset + limit.value) else None), offset, None)
         == Page(s, offset, limit)
  {}

  /** A driver without queries: the selected rows, filtered and then sorted. */
  lemma SortedSelection(rows: seq<Row>, collection: Str, filter: Members, after: Option<Str>,
                        id: Option<Str>, tenantId: Option<Str>)
    requires forall row :: row in rows ==> Consistent(row)
    requires id == if Get(filter, ID).Text? then Some(Get(filter, ID).text) else None
    requires tenantId == if Get(filter, TENANT_ID).Text? then Some(Get(filter, TENANT_ID).text) else None
    ensures ById(Where(Select(rows, collection, id, tenantId), (row: Row) => Wanted(row, filter, after)))
         == Reference(rows, collection, filter, after)
  {
    var p := (row: Row) => row.collection == collection && Accepts(Some(row.id), id) && Accepts(Some(row.tenantId), tenantId);
    var w := (row: Row) => Wanted(row, filter, after);
    var both := (row: Row) => row.collection == collection && Wanted(row, filter, after);
    forall row | row in rows
      ensures both(row) == (p(row) && w(row))
    {
      if Matches(row.record, filter) {
        MatchedMember(row.record, filter, ID);
        MatchedMember(row.record, filter, TENANT_ID);
      }
    }
    WhereTwice(rows, p, w, both);
    IdsOrdered();
    WhereSort(rows, both, IdBefore);
  }

  lemma MatchedMember(record: Members, filter: Members, name: Str)
    requires Matches(record, filter)
    ensures Get(filter, name).Text? ==> Get(record, name) == Get(filter, name)
  {
    if Has(filter, name) { assert Equal(Get(record, filter[Find(filter, name)].0), filter[Find(filter, name)].1); }
  }

  /** Nothing in a consistent store matches an identifier no column can hold. */
  lemma UnstorableMatchesNothing(rows: seq<Row>, collection: Str, filter: Members, after: Option<Str>)
    requires forall row :: row in rows ==> Consistent(row)
    requires !Storable(collection)
          || (exists name :: name in {ID, TENANT_ID} && Get(filter, name).Text? && !Storable(Get(filter, name).text))
    ensures Reference(rows, collection, filter, after) == []
  {
    var both := (row: Row) => row.collection == collection && Wanted(row, filter, after);
    ByIdOrdered(rows);
    forall row | row in rows
      ensures !both(row)
    {
      if Matches(row.record, filter) {
        MatchedMember(row.record, filter, ID);
        MatchedMember(row.record, filter, TENANT_ID);
      }
    }
    WhereNone(ById(rows), both);
  }

  lemma EmptyPlan(rows: seq<Row>, filter: Members, after: Option<Str>, q: Query, exact: bool)
    requires forall row :: row in rows ==> Consistent(row)
    requires Planned(filter, |filter|, q, exact, true)
    ensures Reference(rows, q.collection, filter, after) == []
  {
    var both := (row: Row) => row.collection == q.collection && Wanted(row, filter, after);
    ByIdOrdered(rows);
    WhereNone(ById(rows), both);
  }

  // --- writing ---------------------------------------------------------------------------------------

  datatype Failure = InvalidRecord | NotFound | Conflict

  /** The bytes of a character in UTF-8; an unpaired surrogate is encoded as U+FFFD. */
  function Utf8Length(cs: seq<Str>): nat
    requires AllChars(cs)
  {
    if cs == [] then 0
    else
      var point := CodePoint(cs[0]);
      (if point < 0x80 then 1 else if point < 0x800 then 2 else if point < 0x1_0000 then 3 else 4) + Utf8Length(cs[1..])
  }

  /** `validIdentifier`. */
  predicate Identifier(s: Str) {
    1 <= |s| <= 512 && Utf8Length(Chars(s)) <= 512 && forall i :: 0 <= i < |s| ==> s[i] >= 0x20
  }

  /** `storableIdentifier`: what a key column takes. */
  predicate KeyText(s: Str) { Identifier(s) && Storable(s) }

  predicate IdentifierMember(record: Members, name: Str) {
    Get(record, name).Text? && KeyText(Get(record, name).text)
  }

  /** `rowFor`: the row of a record, or none when a column refuses it. */
  function RowFor(collection: Str, record: Members): (row: Option<Row>)
    requires WellFormed(Obj(record)) && Pure(Obj(record))
    ensures row.Some? ==> Consistent(row.value) && row.value.collection == collection && row.value.record == record
  {
    if KeyText(collection) && IdentifierMember(record, ID) && IdentifierMember(record, TENANT_ID)
       && (Has(record, UNIQUE_KEY) ==> IdentifierMember(record, UNIQUE_KEY))
    then
      Some(Row(collection, Get(record, ID).text, Get(record, TENANT_ID).text,
               if Has(record, UNIQUE_KEY) then Some(Get(record, UNIQUE_KEY).text) else None, record))
    else None
  }

  /** Where the row of this collection and id is; the number of rows when there is none. */
  function Position(rows: seq<Row>, collection: Str, id: Str): (i: nat)
    ensures i <= |rows|
    ensures i < |rows| ==> rows[i].collection == collection && rows[i].id == id
    ensures forall k :: 0 <= k < i ==> !(rows[k].collection == collection && rows[k].id == id)
  {
    if rows == [] then 0
    else if rows[0].collection == collection && rows[0].id == id then 0
    else 1 + Position(rows[1..], collection, id)
  }

  function Lookup(rows: seq<Row>, collection: Str, id: Str): Option<Row> {
    var i := Position(rows, collection, id);
    if i < |rows| then Some(rows[i]) else None
  }

  /** Another row, not the one being replaced, holds the natural key. */
  predicate KeyTaken(rows: seq<Row>, row: Row) {
    exists i :: 0 <= i < |rows| && SharesKey(rows[i], row) && rows[i].id != row.id
  }

  // --- what the keys mean for the records ------------------------------------------------------------

  /** A record of the collection has this record's id. */
  ghost predicate IdHeld(rows: seq<Row>, collection: Str, record: Members) {
    exists row :: row in rows && row.collection == collection && Get(row.record, ID) == Get(record, ID)
  }

  /** Another record of the same collection and tenant has this record's natural key. */
  predicate HoldsKeyOf(row: Row, collection: Str, record: Members) {
    && row.collection == collection && Get(row.record, TENANT_ID) == Get(record, TENANT_ID)
    && Get(record, UNIQUE_KEY) != Undefined && Get(row.record, UNIQUE_KEY) == Get(record, UNIQUE_KEY)
    && Get(row.record, ID) != Get(record, ID)
  }

  ghost predicate KeyHeld(rows: seq<Row>, collection: Str, record: Members) {
    exists row :: row in rows && HoldsKeyOf(row, collection, record)
  }

  /** The record of this id is another tenant's. */
  ghost predicate OthersRecord(rows: seq<Row>, collection: Str, record: Members) {
    exists row :: row in rows && row.collection == collection && Get(row.record, ID) == Get(record, ID)
                  && Get(row.record, TENANT_ID) != Get(record, TENANT_ID)
  }

  /** The columns say of the natural key what the records do. */
  lemma KeyColumns(rows: seq<Row>, row: Row)
    requires Consistent(row) && forall other :: other in rows ==> Consistent(other)
    ensures KeyTaken(rows, row) <==> KeyHeld(rows, row.collection, row.record)
  {
    hide WellFormed, Pure, Get, Storable;
    forall other | other in rows
      ensures SharesKey(other, row) && other.id != row.id <==> HoldsKeyOf(other, row.collection, row.record)
    {}
    hide SharesKey, HoldsKeyOf, Consistent;
    if KeyHeld(rows, row.collection, row.record) {
      var other :| other in rows && HoldsKeyOf(other, row.collection, row.record);
      var i :| 0 <= i < |rows| && rows[i] == other;
    }
  }

  lemma IdColumns(rows: seq<Row>, row: Row)
    requires Consistent(row) && DistinctIds(rows) && forall other :: other in rows ==> Consistent(other)
    ensures var was := Lookup(rows, row.collection, row.id);
            && (was.Some? <==> IdHeld(rows, row.collection, row.record))
            && (was.Some? && was.value.tenantId != row.tenantId <==> OthersRecord(rows, row.collection, row.record))
  {
    var k := Position(rows, row.collection, row.id);
    hide WellFormed, Pure, Get, Storable, Position;
    forall other | other in rows && other.collection == row.collection
      ensures Get(other.record, ID) == Get(row.record, ID) <==> other.id == row.id
      ensures Get(other.record, TENANT_ID) == Get(row.record, TENANT_ID) <==> other.tenantId == row.tenantId
    {}
    hide Consistent;
    if k < |rows| { assert rows[k] in rows; }
    forall other | other in rows && other.collection == row.collection && other.id == row.id
      ensures k < |rows| && rows[k] == other
    {
      var i :| 0 <= i < |rows| && rows[i] == other;
      LookupHere(rows, i);
    }
  }

  /** No two records of a store have the same id in a collection, or the same natural key in a collection and tenant. */
  lemma KeysApart(rows: seq<Row>, a: Row, b: Row)
    requires Keyed(rows) && (forall row :: row in rows ==> Consistent(row)) && a in rows && b in rows && a != b
    ensures a.collection == b.collection ==> Get(a.record, ID) != Get(b.record, ID) && !HoldsKeyOf(a, b.collection, b.record)
  {
    hide WellFormed, Pure, Get, Storable;
    var i :| 0 <= i < |rows| && rows[i] == a;
    var j :| 0 <= j < |rows| && rows[j] == b;
    if i < j { assert !SharesKey(rows[i], rows[j]); } else { assert !SharesKey(rows[j], rows[i]); }
  }

  /** Other tenants' records take no natural key of this one's. */
  lemma OthersIgnored(rows: seq<Row>, collection: Str, record: Members)
    ensures KeyHeld(rows, collection, record) <==>
            KeyHeld(Where(rows, (row: Row) => Get(row.record, TENANT_ID) == Get(record, TENANT_ID)), collection, record)
  {
    WhereMembers(rows, (row: Row) => Get(row.record, TENANT_ID) == Get(record, TENANT_ID));
    hide Get, Where;
  }

  lemma LookupHere(rows: seq<Row>, i: nat)
    requires DistinctIds(rows) && i < |rows|
    ensures Lookup(rows, rows[i].collection, rows[i].id) == Some(rows[i])
  {
    var k := Position(rows, rows[i].collection, rows[i].id);
    assert k <= i;
  }

  lemma LookupGone(rows: seq<Row>, collection: Str, id: Str)
    requires forall i :: 0 <= i < |rows| ==> !(rows[i].collection == collection && rows[i].id == id)
    ensures Lookup(rows, collection, id) == None
  {}

  /** Two stores with the same rows, in whatever order they hold them, answer every search alike. */
  lemma SameContent(a: seq<Row>, b: seq<Row>, collection: Str, filter: Members, after: Option<Str>)
    requires Keyed(a) && Keyed(b) && forall c, id :: Lookup(a, c, id) == Lookup(b, c, id)
    ensures Reference(a, collection, filter, after) == Reference(b, collection, filter, after)
  {
    var p := (row: Row) => row.collection == collection && Wanted(row, filter, after);
    SameMembers(a, b);
    SameMembers(b, a);
    WhereMembers(a, p);
    WhereMembers(b, p);
    WhereKeyed(a, p, collection);
    WhereKeyed(b, p, collection);
    IdsOrdered();
    WhereSort(a, p, IdBefore);
    WhereSort(b, p, IdBefore);
    ByIdOrdered(Where(a, p));
    ByIdOrdered(Where(b, p));
    SortStrict(Where(a, p), IdBefore);
    SortStrict(Where(b, p), IdBefore);
    OneOrder(ById(Where(a, p)), ById(Where(b, p)), IdBefore);
  }

  lemma SameMembers(a: seq<Row>, b: seq<Row>)
    requires Keyed(a) && forall c, id :: Lookup(a, c, id) == Lookup(b, c, id)
    ensures forall row :: row in a ==> row in b
  {
    forall row | row in a
      ensures row in b
    {
      var i :| 0 <= i < |a| && a[i] == row;
      LookupHere(a, i);
      assert Lookup(b, row.collection, row.id) == Some(row);
    }
  }

  lemma {:induction false} WhereKeyed(rows: seq<Row>, p: Row -> bool, collection: Str)
    requires Keyed(rows) && forall row :: p(row) ==> row.collection == collection
    ensures Untied(Where(rows, p), IdBefore)
  {
    if rows != [] {
      WhereKeyed(rows[1..], p, collection);
      WhereMembers(rows[1..], p);
      var rest := Where(rows[1..], p);
      forall j | 0 <= j < |rest| && p(rows[0])
        ensures IdBefore(rows[0], rest[j]) || IdBefore(rest[j], rows[0])
      {
        assert rest[j] in rows[1..];
        var k :| 0 <= k < |rows[1..]| && rows[1..][k] == rest[j];
        assert rows[k + 1] == rest[j];
        TotalOrder(rows[0].id, rest[j].id, rest[j].id);
      }
    }
  }

  class RecordStore {
    const driver: Driver
    var rows: seq<Row>

    ghost predicate Valid()
      reads this
    {
      Keyed(rows) && forall row :: row in rows ==> Consistent(row)
    }

    constructor (driver: Driver)
      ensures Valid() && rows == [] && this.driver == driver
    {
      this.driver := driver;
      rows := [];
    }

    /**
     * `find`: whatever the driver can do, the page of the simple search. `limit` of none reads to the
     * end; the cursor need not be an id the database can hold.
     */
    method Find(collection: Str, filter: Members, offset: nat, limit: Option<nat>, after: Option<Str>)
      returns (found: seq<Row>)
      requires Valid() && WellFormed(Obj(filter))
      ensures found == Page(Reference(rows, collection, filter, after), offset, limit)
    {
      assert forall row :: row in rows ==> Consistent(row);
      hide Valid, Planned, Reference, Answer, Select, Storable, Exact, AllWanted, Wanted;
      var storable := StorableString(collection);
      if limit == Some(0) { return []; }
      if !storable {
        UnstorableMatchesNothing(rows, collection, filter, after);
        return [];
      }
      if driver.queries {
        var q, exact, empty := PlanQuery(collection, filter, driver.json);
        if empty {
          EmptyPlan(rows, filter, after, q, exact);
          return [];
        }
        var cursor := None;
        if after.Some? {
          var ok := StorableString(after.value);
          if ok { cursor := after; }
        }
        FilteredAnswer(driver, rows, filter, after, q, exact, cursor);
        PlannedCursor(filter, q, exact, cursor);
        q := q.(after := cursor);
        if exact && cursor == after {
          var answer := Answer(driver, rows, q);
          if after.None? {
            ExactAnswer(driver, rows, filter, after, q);
            found := Page(answer, offset, limit);
          } else {
            found := Page(answer, 0, if limit.Some? then Some(offset + limit.value) else None);
          }
          var agreed := AllWanted(found, filter, after);
          if agreed {
            if after.None? { return; }
            IgnoredCursor(driver, rows, filter, after, q, if limit.Some? then Some(offset + limit.value) else None);
            PageOfPage(answer, offset, limit);
            return Page(found, offset, None);
          }
        }
        return Page(Where(Answer(driver, rows, q), (row: Row) => Wanted(row, filter, after)), offset, limit);
      }
      var id := if Get(filter, ID).Text? then Some(Get(filter, ID).text) else None;
      var tenantId := if Get(filter, TENANT_ID).Text? then Some(Get(filter, TENANT_ID).text) else None;
      var idOk, tenantOk := true, true;
      if id.Some? { idOk := StorableString(id.value); }
      if tenantId.Some? { tenantOk := StorableString(tenantId.value); }
      if !idOk || !tenantOk {
        UnstorableMatchesNothing(rows, collection, filter, after);
        return [];
      }
      SortedSelection(rows, collection, filter, after, id, tenantId);
      return Page(ById(Where(Select(rows, collection, id, tenantId), (row: Row) => Wanted(row, filter, after))), offset, limit);
    }

    /** `get`: an identifier no row can have is looked up nowhere. */
    method Fetch(collection: Str, id: Str) returns (failure: Option<Failure>, row: Option<Row>)
      requires Valid()
      ensures failure == if Identifier(collection) && Identifier(id) then None else Some(InvalidRecord)
      ensures failure.None? ==> row == Lookup(rows, collection, id)
    {
      if !Identifier(collection) || !Identifier(id) { return Some(InvalidRecord), None; }
      var collectionOk := StorableString(collection);
      var idOk := StorableString(id);
      if !collectionOk || !idOk {
        UnstorableGone(rows, collection, id);
        return None, None;
      }
      var selected := Select(rows, collection, Some(id), None);
      SelectedOne(rows, collection, id);
      return None, if selected == [] then None else Some(selected[0]);
    }

    /** `insert`: refused without a change, or the record is there beside everything that was. */
    method Insert(collection: Str, record: Members) returns (failure: Option<Failure>)
      requires Valid() && WellFormed(Obj(record)) && Pure(Obj(record))
      modifies this`rows
      ensures Valid()
      ensures var row := RowFor(collection, record);
              failure == if row.None? then Some(InvalidRecord)
                         else if Lookup(old(rows), collection, row.value.id).Some? || KeyTaken(old(rows), row.value)
                         then Some(Conflict) else None
      ensures RowFor(collection, record).Some? ==>
                (failure == Some(Conflict) <==> IdHeld(old(rows), collection, record) || KeyHeld(old(rows), collection, record))
      ensures rows == if failure.Some? then old(rows) else old(rows) + [RowFor(collection, record).value]
      ensures failure.None? ==> forall c, id ::
                Lookup(rows, c, id) == var row := RowFor(collection, record);
                                       if c == collection && id == row.value.id then row else Lookup(old(rows), c, id)
    {
      hide WellFormed, Pure, IdHeld, KeyHeld, OthersRecord, Keyed, KeyTaken, Consistent, RowFor, Position;
      var row := RowFor(collection, record);
      if row.None? { return Some(InvalidRecord); }
      KeyedIds(rows);
      IdColumns(rows, row.value);
      KeyColumns(rows, row.value);
      var there := Lookup(rows, collection, row.value.id);
      var taken := KeyTaken(rows, row.value);
      if there.Some? || taken { return Some(Conflict); }
      forall c, id
        ensures Lookup(rows + [row.value], c, id)
             == if c == collection && id == row.value.id then row else Lookup(rows, c, id)
      { LookupAppend(rows, row.value, c, id); }
      KeyedAppend(rows, row.value);
      rows := rows + [row.value];
      return None;
    }

    /** `put`: replaces a record of the same tenant, and nothing else. */
    method Put(collection: Str, record: Members) returns (failure: Option<Failure>)
      requires Valid() && WellFormed(Obj(record)) && Pure(Obj(record))
      modifies this`rows
      ensures Valid()
      ensures var row := RowFor(collection, record);
              failure == if row.None? then Some(InvalidRecord)
                         else var was := Lookup(old(rows), collection, row.value.id);
                              if was.None? then Some(NotFound)
                              else if was.value.tenantId != row.value.tenantId || KeyTaken(old(rows), row.value)
                              then Some(Conflict) else None
      ensures RowFor(collection, record).Some? ==>
                && (failure == Some(NotFound) <==> !IdHeld(old(rows), collection, record))
                && (failure == Some(Conflict) <==>
                    OthersRecord(old(rows), collection, record)
                    || (IdHeld(old(rows), collection, record) && KeyHeld(old(rows), collection, record)))
      ensures failure.Some? ==> rows == old(rows)
      ensures failure.None? ==> forall c, id ::
                Lookup(rows, c, id) == var row := RowFor(collection, record);
                                       if c == collection && id == row.value.id then row else Lookup(old(rows), c, id)
    {
      hide WellFormed, Pure, IdHeld, KeyHeld, OthersRecord, Keyed, KeyTaken, Consistent, RowFor, Position;
      var row := RowFor(collection, record);
      if row.None? { return Some(InvalidRecord); }
      KeyedIds(rows);
      IdColumns(rows, row.value);
      KeyColumns(rows, row.value);
      var was := Lookup(rows, collection, row.value.id);
      if was.None? { return Some(NotFound); }
      if was.value.tenantId != row.value.tenantId { return Some(Conflict); }
      var taken := KeyTaken(rows, row.value);
      if taken { return Some(Conflict); }
      var k := Position(rows, collection, row.value.id);
      forall c, id
        ensures Lookup(rows[k := row.value], c, id)
             == if c == collection && id == row.value.id then row else Lookup(rows, c, id)
      { LookupReplace(rows, k, row.value, c, id); }
      KeyedReplace(rows, k, row.value);
      rows := rows[k := row.value];
      return None;
    }

    method Delete(collection: Str, id: Str) returns (failure: Option<Failure>)
      requires Valid()
      modifies this`rows
      ensures Valid()
      ensures failure == if Identifier(collection) && Identifier(id) then None else Some(InvalidRecord)
      ensures failure.Some? ==> rows == old(rows)
      ensures failure.None? ==>
                forall c, i :: Lookup(rows, c, i) == if c == collection && i == id then None else Lookup(old(rows), c, i)
    {
      hide Keyed, Consistent, Storable, Identifier;
      if !Identifier(collection) || !Identifier(id) { return Some(InvalidRecord); }
      var collectionOk := StorableString(collection);
      var idOk := StorableString(id);
      KeyedIds(rows);
      if !collectionOk || !idOk {
        UnstorableGone(rows, collection, id);
        return None;
      }
      var k := Position(rows, collection, id);
      if k < |rows| {
        forall c, i
          ensures Lookup(rows[..k] + rows[k + 1..], c, i)
               == if c == collection && i == id then None else Lookup(rows, c, i)
        { LookupWithout(rows, k, c, i); }
        KeyedWithout(rows, k);
        rows := rows[..k] + rows[k + 1..];
      }
      return None;
    }
  }

  lemma KeyedIds(rows: seq<Row>)
    requires Keyed(rows)
    ensures DistinctIds(rows)
  {}

  lemma KeyedAppend(rows: seq<Row>, row: Row)
    requires Keyed(rows) && Lookup(rows, row.collection, row.id).None? && !KeyTaken(rows, row)
    ensures Keyed(rows + [row])
  {
    hide Position;
  }

  lemma KeyedReplace(rows: seq<Row>, k: nat, row: Row)
    requires Keyed(rows) && k < |rows| && k == Position(rows, row.collection, row.id) && !KeyTaken(rows, row)
    ensures Keyed(rows[k := row])
  {}

  lemma KeyedWithout(rows: seq<Row>, k: nat)
    requires Keyed(rows) && k < |rows|
    ensures Keyed(rows[..k] + rows[k + 1..])
  {
    var all := rows[..k] + rows[k + 1..];
    assert forall i :: 0 <= i < |all| ==> all[i] == rows[if i < k then i else i + 1];
    hide SharesKey;
  }

  lemma UnstorableGone(rows: seq<Row>, collection: Str, id: Str)
    requires forall row :: row in rows ==> Consistent(row)
    requires !Storable(collection) || !Storable(id)
    ensures Lookup(rows, collection, id) == None
  {
    hide WellFormed, Pure, Find;
    forall i | 0 <= i < |rows|
      ensures !(rows[i].collection == collection && rows[i].id == id)
    { assert rows[i] in rows; }
    LookupGone(rows, collection, id);
  }

  lemma SelectedOne(rows: seq<Row>, collection: Str, id: Str)
    ensures var selected := Select(rows, collection, Some(id), None);
            Lookup(rows, collection, id) == if selected == [] then None else Some(selected[0])
  {
    if rows != [] {
      SelectedOne(rows[1..], collection, id);
    }
  }

  lemma LookupAppend(rows: seq<Row>, row: Row, c: Str, id: Str)
    requires Lookup(rows, row.collection, row.id).None?
    ensures Lookup(rows + [row], c, id) == if c == row.collection && id == row.id then Some(row) else Lookup(rows, c, id)
  {
    var k, n := Position(rows + [row], c, id), Position(rows, c, id);
    if n < |rows| { assert (rows + [row])[n] == rows[n]; }
    assert (rows + [row])[|rows|] == row;
  }

  lemma LookupReplace(rows: seq<Row>, k: nat, row: Row, c: Str, id: Str)
    requires k < |rows| && k == Position(rows, row.collection, row.id)
    ensures Lookup(rows[k := row], c, id) == if c == row.collection && id == row.id then Some(row) else Lookup(rows, c, id)
  {
    var all := rows[k := row];
    var a, b := Position(all, c, id), Position(rows, c, id);
    assert all[k] == row;
    assert a < |rows| && a != k ==> all[a] == rows[a];
    assert b < |rows| && b != k ==> all[b] == rows[b];
  }

  lemma LookupWithout(rows: seq<Row>, k: nat, c: Str, id: Str)
    requires DistinctIds(rows) && k < |rows|
    ensures Lookup(rows[..k] + rows[k + 1..], c, id)
         == if c == rows[k].collection && id == rows[k].id then None else Lookup(rows, c, id)
  {
    if c == rows[k].collection && id == rows[k].id {
      var all := rows[..k] + rows[k + 1..];
      assert forall i :: 0 <= i < |all| ==> all[i] == rows[if i < k then i else i + 1];
      LookupGone(all, c, id);
    } else {
      WithoutKeeps(rows, k, c, id);
      WithoutAdds(rows, k, c, id);
    }
  }

  lemma WithoutKeeps(rows: seq<Row>, k: nat, c: Str, id: Str)
    requires DistinctIds(rows) && k < |rows| && !(c == rows[k].collection && id == rows[k].id)
    ensures Lookup(rows, c, id).Some? ==> Lookup(rows[..k] + rows[k + 1..], c, id) == Lookup(rows, c, id)
  {
    WithoutDistinct(rows, k);
    var all, b := rows[..k] + rows[k + 1..], Position(rows, c, id);
    hide Position, DistinctIds;
    if b < |rows| {
      var i := if b < k then b else b - 1;
      assert all[i] == rows[b];
      LookupHere(all, i);
    }
  }

  lemma WithoutAdds(rows: seq<Row>, k: nat, c: Str, id: Str)
    requires DistinctIds(rows) && k < |rows|
    ensures var all := rows[..k] + rows[k + 1..]; Lookup(all, c, id).Some? ==> Lookup(rows, c, id) == Lookup(all, c, id)
  {
    var all := rows[..k] + rows[k + 1..];
    var a := Position(all, c, id);
    hide Position, DistinctIds;
    if a < |all| {
      var i := if a < k then a else a + 1;
      assert all[a] == rows[i];
      LookupHere(rows, i);
    }
  }

  lemma WithoutDistinct(rows: seq<Row>, k: nat)
    requires DistinctIds(rows) && k < |rows|
    ensures DistinctIds(rows[..k] + rows[k + 1..])
  {
    var all := rows[..k] + rows[k + 1..];
    assert forall i :: 0 <= i < |all| ==> all[i] == rows[if i < k then i else i + 1];
  }

  // --- reading an ordered answer in chunks -----------------------------------------------------------

  lemma PageOfPrefix(a: seq<Row>, b: seq<Row>, offset: nat, limit: Option<nat>)
    requires b == [] || (limit.Some? && offset + limit.value <= |a|)
    ensures Page(a, offset, limit) == Page(a + b, offset, limit)
  {}

  /**
   * `findOrdered` with a predicate: chunks of the store's ordered answer are read only until the page is
   * full, and the page is the one of the whole filtered answer.
   */
  method FindOrdered(answer: seq<Row>, wanted: Row -> bool, offset: nat, limit: Option<nat>) returns (found: seq<Row>)
    ensures found == Page(Where(answer, wanted), offset, limit)
  {
    var enough := if limit.Some? then Some(offset + limit.value) else None;
    var twice := if enough.Some? then enough.value * 2 else 500;
    var chunk := if twice < 100 then 100 else if twice > 2000 then 2000 else twice;
    var matches: seq<Row> := [];
    var read := 0;
    assert matches == Where(answer[..read], wanted);
    assert Where([], wanted) == [];
    hide Where;
    while enough.None? || |matches| < enough.value
      invariant read <= |answer| && matches == Where(answer[..read], wanted)
      invariant chunk >= 100
      decreases |answer| - read
    {
      var batch := Page(answer, read, Some(chunk));
      var kept := Where(batch, wanted);
      assert answer[..read] + batch == answer[..read + |batch|];
      WhereConcat(answer[..read], batch, wanted);
      matches := matches + kept;
      read := read + |batch|;
      if |batch| < chunk {
        assert answer[read..] == [];
        break;
      }
    }
    assert answer == answer[..read] + answer[read..];
    WhereConcat(answer[..read], answer[read..], wanted);
    PageOfPrefix(matches, Where(answer[read..], wanted), offset, limit);
    return Page(matches, offset, limit);
  }
}
