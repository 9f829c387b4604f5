/** What a search finds, said of single records: which ones are on the page, and in what order. */
module Searching {
  import opened Wrappers
  import opened Text
  import opened Order
  import opened Json
  import opened Records
  import opened Sorting
  import opened Storage

  /** A record has what one member of a filter asks for; `Undefined` asks that nothing be there. */
  predicate HasAsked(record: Members, name: Str, asked: Json) {
    if asked.Undefined? then !Has(record, name) else Has(record, name) && Meaning(Get(record, name)) == Meaning(asked)
  }

  /** A record of the collection that has all that the filter asks for, past the cursor in the order of ids. */
  predicate Sought(row: Row, collection: Str, filter: Members, after: Option<Str>) {
    && row.collection == collection
    && (forall i :: 0 <= i < |filter| ==> HasAsked(row.record, filter[i].0, filter[i].1))
    && (after.Some? ==> Less(after.value, row.id))
  }

  /** The ids of those sought that come before this one. */
  ghost function Before(rows: seq<Row>, collection: Str, filter: Members, after: Option<Str>, id: Str): set<Str> {
    set row | row in rows && Sought(row, collection, filter, after) && Less(row.id, id) :: row.id
  }

  lemma AskedEqual(record: Members, name: Str, asked: Json)
    requires WellFormed(Obj(record)) && Pure(Obj(record)) && WellFormed(asked)
    ensures HasAsked(record, name, asked) <==> Equal(Get(record, name), asked)
  {
    MemberKept(record, name);
    EqualMeaning(Get(record, name), asked);
    hide WellFormed, Pure, Has, Get, Equal;
  }

  lemma SoughtWanted(row: Row, collection: Str, filter: Members, after: Option<Str>)
    requires Consistent(row) && WellFormed(Obj(filter))
    ensures Sought(row, collection, filter, after) <==> row.collection == collection && Wanted(row, filter, after)
  {
    forall i | 0 <= i < |filter|
      ensures HasAsked(row.record, filter[i].0, filter[i].1) <==> Equal(Get(row.record, filter[i].0), filter[i].1)
    { AskedEqual(row.record, filter[i].0, filter[i].1); }
    hide WellFormed, Pure, Has, Get, Equal, HasAsked, Storable;
  }

  /** The search holds exactly the rows sought, each once, in the order of their ids. */
  lemma ReferenceExactly(rows: seq<Row>, collection: Str, filter: Members, after: Option<Str>)
    requires Keyed(rows) && (forall row :: row in rows ==> Consistent(row)) && WellFormed(Obj(filter))
    ensures var found := Reference(rows, collection, filter, after);
            && Strict(found, IdBefore)
            && forall row :: row in found <==> row in rows && Sought(row, collection, filter, after)
  {
    var p := (row: Row) => row.collection == collection && Wanted(row, filter, after);
    forall row | row in rows
      ensures p(row) <==> Sought(row, collection, filter, after)
    { SoughtWanted(row, collection, filter, after); }
    hide Wanted, Sought, WellFormed, Consistent, Keyed, IdBefore;
    WhereMembers(rows, p);
    WhereKeyed(rows, p, collection);
    IdsOrdered();
    WhereSort(rows, p, IdBefore);
    ByIdOrdered(Where(rows, p));
    SortStrict(Where(rows, p), IdBefore);
  }

  ghost function Ids(rows: seq<Row>): set<Str> { set row | row in rows :: row.id }

  lemma IdsAppend(rows: seq<Row>, last: Row)
    ensures Ids(rows + [last]) == Ids(rows) + {last.id}
  {}

  lemma NewId(rows: seq<Row>, n: nat)
    requires Strict(rows, IdBefore) && n < |rows|
    ensures rows[n].id !in Ids(rows[..n])
  {
    forall k | 0 <= k < n
      ensures rows[k].id != rows[n].id
    {
      assert IdBefore(rows[k], rows[n]);
      TotalOrder(rows[k].id, rows[n].id, rows[n].id);
    }
  }

  lemma {:induction false} IdsCounted(rows: seq<Row>, n: nat)
    requires Strict(rows, IdBefore) && n <= |rows|
    ensures |Ids(rows[..n])| == n
  {
    hide Strict, Ids;
    if n == 0 {
      NoIds();
    } else {
      IdsCounted(rows, n - 1);
      assert rows[..n] == rows[..n - 1] + [rows[n - 1]];
      IdsAppend(rows[..n - 1], rows[n - 1]);
      NewId(rows, n - 1);
    }
  }

  lemma NoIds()
    ensures Ids([]) == {}
  {}

  /** In the order of ids, a row stands after just the ones with smaller ids. */
  lemma PlaceOf(found: seq<Row>, k: nat)
    requires Strict(found, IdBefore) && k < |found|
    ensures |set row | row in found && Less(row.id, found[k].id) :: row.id| == k
  {
    forall row | row in found && Less(row.id, found[k].id)
      ensures row in found[..k]
    {
      var i :| 0 <= i < |found| && found[i] == row;
      if i > k { assert IdBefore(found[k], found[i]); }
      TotalOrder(row.id, found[k].id, row.id);
    }
    assert forall row :: row in found[..k] ==> Less(row.id, found[k].id);
    assert (set row | row in found && Less(row.id, found[k].id) :: row.id) == Ids(found[..k]);
    IdsCounted(found, k);
  }

  /**
   * A record is on the page of a search exactly when it is sought and as many of those sought come before it as the
   * page asks for; the page is in the order of ids, and holds no record twice.
   */
  lemma FoundExactly(rows: seq<Row>, collection: Str, filter: Members, offset: nat, limit: Option<nat>, after: Option<Str>)
    requires Keyed(rows) && (forall row :: row in rows ==> Consistent(row)) && WellFormed(Obj(filter))
    ensures var page := Page(Reference(rows, collection, filter, after), offset, limit);
            && Strict(page, IdBefore)
            && forall row :: row in page <==>
                 && row in rows && Sought(row, collection, filter, after)
                 && offset <= |Before(rows, collection, filter, after, row.id)|
                 && (limit.Some? ==> |Before(rows, collection, filter, after, row.id)| < offset + limit.value)
  {
    ReferenceExactly(rows, collection, filter, after);
    var found := Reference(rows, collection, filter, after);
    hide Reference, Sought, Keyed, Consistent, WellFormed;
    forall k | 0 <= k < |found|
      ensures |Before(rows, collection, filter, after, found[k].id)| == k
    {
      PlaceOf(found, k);
      assert Before(rows, collection, filter, after, found[k].id) == set row | row in found && Less(row.id, found[k].id) :: row.id;
    }
    hide Before, Strict;
    PageStrict(found, offset, limit);
    forall row
      ensures row in Page(found, offset, limit) <==>
        exists k :: 0 <= k < |found| && found[k] == row && offset <= k && (limit.Some? ==> k < offset + limit.value)
    { OnPage(found, offset, limit, row); }
    assert forall row :: row in found <==> exists k :: 0 <= k < |found| && found[k] == row;
    assert forall j, k :: 0 <= j < |found| && 0 <= k < |found| && found[j] == found[k] ==> j == k;
  }

  lemma PageStrict(found: seq<Row>, offset: nat, limit: Option<nat>)
    requires Strict(found, IdBefore)
    ensures Strict(Page(found, offset, limit), IdBefore)
  {}

  lemma OnPage(found: seq<Row>, offset: nat, limit: Option<nat>, row: Row)
    ensures row in Page(found, offset, limit) <==>
      exists k :: 0 <= k < |found| && found[k] == row && offset <= k && (limit.Some? ==> k < offset + limit.value)
  {
    var page := Page(found, offset, limit);
    if row in page {
      var i :| 0 <= i < |page| && page[i] == row;
      assert found[offset + i] == row;
    }
    if k :| 0 <= k < |found| && found[k] == row && offset <= k && (limit.Some? ==> k < offset + limit.value) {
      assert page[k - offset] == row;
    }
  }
}
