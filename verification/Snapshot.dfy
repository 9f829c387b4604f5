/** Store snapshots: reading every record page by page, and loading them into an empty store or not at all. */
module Snapshot {
  import opened Wrappers
  import opened Text
  import opened Order
  import opened Sorting
  import opened Json
  import opened Records
  import opened Storage

  // --- reading every record --------------------------------------------------------------------------

  /** The records of a collection, by id. */
  function InCollection(rows: seq<Row>, collection: Str): seq<Row> {
    Where(ById(rows), (row: Row) => row.collection == collection)
  }

  /** A page of `find` with no filter; a store may ignore any cursor. */
  function FindPage(all: seq<Row>, honours: Str -> bool, after: Option<Str>, offset: nat, limit: nat): seq<Row> {
    Page(if after.Some? && honours(after.value) then Where(all, (row: Row) => Less(after.value, row.id)) else all,
         offset, Some(limit))
  }

  lemma SplitAt(all: seq<Row>, count: nat, k: nat)
    requires Strict(all, IdBefore) && 0 < count <= |all| && k < |all|
    ensures Less(all[count - 1].id, all[k].id) <==> k >= count
  {
    if k < count - 1 { assert IdBefore(all[k], all[count - 1]); }
    if k >= count { assert IdBefore(all[count - 1], all[k]); }
    TotalOrder(all[count - 1].id, all[k].id, all[count - 1].id);
  }

  /** What follows the last record read is what lies past its id. */
  lemma PastCursor(all: seq<Row>, count: nat)
    requires Strict(all, IdBefore) && 0 < count <= |all|
    ensures Where(all, (row: Row) => Less(all[count - 1].id, row.id)) == all[count..]
  {
    var cursor := all[count - 1].id;
    var p := (row: Row) => Less(cursor, row.id);
    hide Where, Less;
    forall k | 0 <= k < |all|
      ensures p(all[k]) <==> k >= count
    { SplitAt(all, count, k); }
    WhereSuffix(all, p, count);
  }

  /** A page the store gave without looking at the cursor starts at or before it. */
  lemma IgnoredShows(all: seq<Row>, count: nat, limit: nat)
    requires Strict(all, IdBefore) && 0 < count <= |all| && limit > 0
    ensures var page := Page(all, 0, Some(limit)); page != [] && !Less(all[count - 1].id, page[0].id)
  {
    if count > 1 { assert IdBefore(all[0], all[count - 1]); }
    TotalOrder(all[0].id, all[count - 1].id, all[0].id);
  }

  predicate AtOrBefore(page: seq<Row>, cursor: Str) {
    exists i :: 0 <= i < |page| && !Less(cursor, page[i].id)
  }

  /** `eachRecord` on one collection: every record exactly once, in id order, whichever cursors the store honours. */
  method EachPage(all: seq<Row>, honours: Str -> bool, pageSize: nat) returns (visited: seq<Row>)
    requires Strict(all, IdBefore) && pageSize >= 1
    ensures visited == all
  {
    hide Strict, Where, Page, Less;
    visited := [];
    PageLength(all, 0, pageSize);
    var count, cursor, keyset := 0, None, true;
    while true
      invariant count <= |all| && visited == all[..count]
      invariant cursor == if count == 0 then None else Some(all[count - 1].id)
      decreases |all| - count
    {
      var after := cursor;
      var page;
      if after.None? {
        page := FindPage(all, honours, None, 0, pageSize);
      } else if keyset {
        page := FindPage(all, honours, after, 0, pageSize);
        PastCursor(all, count);
        IgnoredShows(all, count, pageSize);
        PageAfter(all, count, pageSize);
      } else {
        page := FindPage(all, honours, None, count, pageSize);
      }
      if keyset && after.Some? {
        var shown := AtOrBefore(page, after.value);
        if shown {
          keyset := false;
          page := FindPage(all, honours, None, count, pageSize);
        }
      }
      assert page == Page(all, count, Some(pageSize));
      PageAdds(all, count, pageSize);
      if page != [] { cursor := Some(page[|page| - 1].id); }
      visited := visited + page;
      count := count + |page|;
      if |page| < pageSize { return; }
    }
  }

  lemma PageLength(all: seq<Row>, count: nat, limit: nat)
    requires count <= |all|
    ensures var page := Page(all, count, Some(limit));
            count + |page| <= |all| && page == all[count..count + |page|] && (|page| < limit ==> count + |page| == |all|)
  {}

  lemma PageAdds(all: seq<Row>, count: nat, limit: nat)
    requires count <= |all|
    ensures var page := Page(all, count, Some(limit));
            && count + |page| <= |all| && all[..count] + page == all[..count + |page|]
            && (page != [] ==> page[|page| - 1] == all[count + |page| - 1])
            && (|page| < limit ==> count + |page| == |all|)
  {
    PageLength(all, count, limit);
  }

  /** Past the cursor nothing is at or before it, and a page of it is the next page of everything. */
  lemma PageAfter(all: seq<Row>, count: nat, limit: nat)
    requires Strict(all, IdBefore) && 0 < count <= |all|
    ensures Page(all[count..], 0, Some(limit)) == Page(all, count, Some(limit))
    ensures !AtOrBefore(Page(all[count..], 0, Some(limit)), all[count - 1].id)
  {
    var page := Page(all[count..], 0, Some(limit));
    forall i | 0 <= i < |page|
      ensures Less(all[count - 1].id, page[i].id)
    { assert IdBefore(all[count - 1], all[count + i]); }
  }

  lemma CollectionOrdered(rows: seq<Row>, collection: Str)
    requires Keyed(rows)
    ensures Strict(InCollection(rows, collection), IdBefore)
    ensures forall row :: row in InCollection(rows, collection) <==> row in rows && row.collection == collection
  {
    var p := (row: Row) => row.collection == collection;
    IdsOrdered();
    WhereKeyed(rows, p, collection);
    WhereSort(rows, p, IdBefore);
    SortStrict(Where(rows, p), IdBefore);
    ByIdOrdered(rows);
    WhereMembers(ById(rows), p);
  }

  function Everything(rows: seq<Row>, collections: seq<Str>): seq<Row> {
    if collections == [] then [] else InCollection(rows, collections[0]) + Everything(rows, collections[1..])
  }

  /** `eachRecord`: the collections one after another, each in id order, with their counts. */
  method EachRecord(rows: seq<Row>, honours: Str -> bool, collections: seq<Str>, pageSize: nat)
    returns (visited: seq<Row>, counts: map<Str, nat>)
    requires Keyed(rows) && pageSize >= 1
    ensures visited == Everything(rows, collections)
    ensures counts.Keys == set c | c in collections
    ensures forall c :: c in counts ==> counts[c] == |InCollection(rows, c)|
  {
    hide Keyed, InCollection;
    visited, counts := [], map[];
    var i := 0;
    assert collections[0..] == collections;
    while i < |collections|
      invariant i <= |collections| && visited + Everything(rows, collections[i..]) == Everything(rows, collections)
      invariant counts.Keys == set c | c in collections[..i]
      invariant forall c :: c in counts ==> counts[c] == |InCollection(rows, c)|
    {
      var collection := collections[i];
      CollectionOrdered(rows, collection);
      var all := EachPage(InCollection(rows, collection), honours, pageSize);
      assert collections[i..][1..] == collections[i + 1..];
      assert visited + (all + Everything(rows, collections[i + 1..])) == visited + all + Everything(rows, collections[i + 1..]);
      assert collections[..i + 1] == collections[..i] + [collection];
      visited := visited + all;
      counts := counts[collection := |all|];
      i := i + 1;
    }
    assert collections[..i] == collections;
    assert visited + [] == visited;
  }

  // --- the lines of a snapshot -----------------------------------------------------------------------

  /**
   * A line as the import tells it: blank, a header, an entry, a trailer, or anything else. What an entry holds
   * is JSON, so nothing undefined and no member twice.
   */
  datatype Line =
    | Blank
    | Header(collections: Option<seq<Str>>)
    | Entry(collection: Str, record: Json)
    | Trailer(records: int, counts: map<Str, int>)
    | Other

  predicate FromJson(line: Line) { line.Entry? ==> WellFormed(line.record) && Pure(line.record) }

  function EntryLines(rows: seq<Row>): (r: seq<Line>)
    ensures |r| == |rows|
  {
    seq(|rows|, i requires 0 <= i < |rows| => Entry(rows[i].collection, Obj(rows[i].record)))
  }

  function Exported(collections: seq<Str>, visited: seq<Row>, counts: map<Str, nat>): seq<Line> {
    [Header(Some(collections))] + EntryLines(visited) + [Trailer(|visited|, map c | c in counts :: counts[c])]
  }

  // --- loading ---------------------------------------------------------------------------------------

  datatype Loading = Loading(rows: seq<Row>, header: bool, trailer: Option<Line>, counts: map<Str, nat>, records: nat)

  /** The row added by `insert`, when nothing refuses it. */
  function Inserted(rows: seq<Row>, collection: Str, record: Json): Option<Row>
    requires WellFormed(record) && Pure(record)
  {
    if !record.Obj? then None
    else
      var row := RowFor(collection, record.members);
      if row.None? || Lookup(rows, collection, row.value.id).Some? || KeyTaken(rows, row.value) then None else row
  }

  function CountOf(counts: map<Str, nat>, collection: Str): nat {
    if collection in counts then counts[collection] else 0
  }

  /** `assertEmpty`: with a store that lists its collections, no record at all; else none in those named. */
  predicate Empty(rows: seq<Row>, lists: bool, collections: Option<seq<Str>>) {
    if lists then rows == []
    else
      var named := if collections.Some? then collections.value else [U("tenants"), U("identities")];
      forall i :: 0 <= i < |rows| ==> rows[i].collection !in named
  }

  /** One line, or none when it makes the import fail. */
  function Load(l: Loading, line: Line, lists: bool): Option<Loading>
    requires FromJson(line)
  {
    if line.Blank? then Some(l)
    else if l.trailer.Some? then None
    else if !l.header then
      if line.Header? && Empty(l.rows, lists, line.collections) then Some(l.(header := true)) else None
    else
      match line
      case Trailer(_, _) => Some(l.(trailer := Some(line)))
      case Entry(collection, record) =>
        var row := Inserted(l.rows, collection, record);
        if row.None? then None
        else Some(l.(rows := l.rows + [row.value],
                     counts := l.counts[collection := CountOf(l.counts, collection) + 1], records := l.records + 1))
      case _ => None
  }

  function LoadAll(l: Loading, lines: seq<Line>, lists: bool): Option<Loading>
    requires forall i :: 0 <= i < |lines| ==> FromJson(lines[i])
    decreases |lines|
  {
    if lines == [] then Some(l)
    else
      var next := Load(l, lines[0], lists);
      if next.None? then None else LoadAll(next.value, lines[1..], lists)
  }

  /** The trailer's counts, those of zero aside, are the counts of the entries. */
  predicate CountsMatch(l: Loading) {
    && l.trailer.Some? && l.trailer.value.Trailer?
    && l.trailer.value.records == l.records
    && (set c | c in l.trailer.value.counts && l.trailer.value.counts[c] != 0) == l.counts.Keys
    && forall c :: c in l.counts ==> c in l.trailer.value.counts && l.trailer.value.counts[c] == l.counts[c]
  }

  function Begun(rows: seq<Row>): Loading { Loading(rows, false, None, map[], 0) }

  /** `importStore`: every line loads and the trailer agrees, or nothing is imported. */
  function Imported(rows: seq<Row>, lines: seq<Line>, lists: bool): Option<Loading>
    requires forall i :: 0 <= i < |lines| ==> FromJson(lines[i])
  {
    var l := LoadAll(Begun(rows), lines, lists);
    if l.Some? && CountsMatch(l.value) then l else None
  }

  /** A line that loads as an entry is one the store inserts. */
  lemma EntryInserted(l: Loading, line: Line, lists: bool)
    requires FromJson(line) && line.Entry? && Load(l, line, lists).Some?
    ensures line.record.Obj? && RowFor(line.collection, line.record.members).Some?
    ensures var row := RowFor(line.collection, line.record.members).value;
            && Lookup(l.rows, line.collection, row.id).None? && !KeyTaken(l.rows, row)
            && Load(l, line, lists).value.rows == l.rows + [row]
  {
    hide RowFor, Lookup, KeyTaken;
  }

  lemma OthersKeepRows(l: Loading, line: Line, lists: bool)
    requires FromJson(line) && !line.Entry? && Load(l, line, lists).Some?
    ensures Load(l, line, lists).value.rows == l.rows
  {}

  method ImportStore(store: RecordStore, lines: seq<Line>, lists: bool) returns (summary: Option<map<Str, nat>>)
    requires store.Valid() && forall i :: 0 <= i < |lines| ==> FromJson(lines[i])
    modifies store`rows
    ensures store.Valid()
    ensures var l := Imported(old(store.rows), lines, lists);
            && summary == (if l.None? then None else Some(l.value.counts))
            && store.rows == if l.None? then old(store.rows) else l.value.rows
  {
    var rows := store.rows;
    var l := Begun(rows);
    var i := 0;
    assert lines[0..] == lines;
    while i < |lines|
      invariant i <= |lines| && store.Valid() && store.rows == l.rows
      invariant LoadAll(Begun(rows), lines, lists) == LoadAll(l, lines[i..], lists)
    {
      var line := lines[i];
      assert lines[i..][0] == line && lines[i..][1..] == lines[i + 1..];
      var next := Load(l, line, lists);
      if next.None? {
        store.rows := rows;
        return None;
      }
      if line.Entry? {
        EntryInserted(l, line, lists);
        var failure := store.Insert(line.collection, line.record.members);
      } else {
        OthersKeepRows(l, line, lists);
      }
      l := next.value;
      i := i + 1;
    }
    if !CountsMatch(l) {
      store.rows := rows;
      return None;
    }
    return Some(l.counts);
  }

  // --- what an import accepts ------------------------------------------------------------------------

  function Entries(lines: seq<Line>): nat {
    if lines == [] then 0 else (if lines[0].Entry? then 1 else 0) + Entries(lines[1..])
  }

  function EntriesIn(lines: seq<Line>, collection: Str): nat {
    if lines == [] then 0
    else (if lines[0].Entry? && lines[0].collection == collection then 1 else 0) + EntriesIn(lines[1..], collection)
  }

  lemma {:induction false} LoadCounts(l: Loading, lines: seq<Line>, lists: bool)
    requires forall i :: 0 <= i < |lines| ==> FromJson(lines[i])
    requires LoadAll(l, lines, lists).Some?
    ensures LoadAll(l, lines, lists).value.records == l.records + Entries(lines)
    ensures forall c :: CountOf(LoadAll(l, lines, lists).value.counts, c) == CountOf(l.counts, c) + EntriesIn(lines, c)
    ensures l.trailer.Some? ==> LoadAll(l, lines, lists).value.trailer == l.trailer
    ensures LoadAll(l, lines, lists).value.trailer.Some? && l.trailer.None? ==>
              exists i :: 0 <= i < |lines| && lines[i].Trailer? && LoadAll(l, lines, lists).value.trailer == Some(lines[i])
    decreases |lines|
  {
    if lines != [] {
      hide Inserted, Empty;
      var next := Load(l, lines[0], lists).value;
      LoadCounts(next, lines[1..], lists);
      if next.trailer.None? && LoadAll(next, lines[1..], lists).value.trailer.Some? {
        var i :| 0 <= i < |lines[1..]| && lines[1..][i].Trailer?
                 && LoadAll(next, lines[1..], lists).value.trailer == Some(lines[1..][i]);
        assert lines[i + 1] == lines[1..][i];
      }
    }
  }

  /** What a trailer says of a collection; one it does not name has no records. */
  function Listed(counts: map<Str, int>, collection: Str): int {
    if collection in counts then counts[collection] else 0
  }

  /**
   * Lines are accepted only with a trailer that counts the entries, all of them and those of every collection: a
   * truncated file, or one missing an entry line or with one more, imports nothing.
   */
  lemma AcceptedCounts(rows: seq<Row>, lines: seq<Line>, lists: bool)
    requires forall i :: 0 <= i < |lines| ==> FromJson(lines[i])
    requires Imported(rows, lines, lists).Some?
    ensures exists i :: 0 <= i < |lines| && lines[i].Trailer? && lines[i].records == Entries(lines)
              && forall c :: Listed(lines[i].counts, c) == EntriesIn(lines, c)
  {
    LoadCounts(Begun(rows), lines, lists);
    hide LoadAll, Load, CountsMatch, Listed, CountOf, Entries, EntriesIn;
    var l := LoadAll(Begun(rows), lines, lists).value;
    var i :| 0 <= i < |lines| && lines[i].Trailer? && l.trailer == Some(lines[i]);
    MatchedCounts(l);
    forall c
      ensures Listed(lines[i].counts, c) == EntriesIn(lines, c)
    { assert CountOf(l.counts, c) == EntriesIn(lines, c); }
  }

  lemma MatchedCounts(l: Loading)
    requires CountsMatch(l)
    ensures l.trailer.Some? && l.trailer.value.Trailer? && l.trailer.value.records == l.records
    ensures forall c :: Listed(l.trailer.value.counts, c) == CountOf(l.counts, c)
  {
    forall c
      ensures Listed(l.trailer.value.counts, c) == CountOf(l.counts, c)
    { assert c in (set n | n in l.trailer.value.counts && l.trailer.value.counts[n] != 0) <==> c in l.counts.Keys; }
  }

  lemma LookupStays(rows: seq<Row>, row: Row, collection: Str, id: Str)
    requires Lookup(rows, collection, id).Some?
    ensures Lookup(rows + [row], collection, id).Some?
  {
    var i :| 0 <= i < |rows| && rows[i].collection == collection && rows[i].id == id;
    assert (rows + [row])[i] == rows[i];
  }

  /** An entry whose id its collection already has makes the import fail, wherever it stands. */
  lemma {:induction false} HeldRefused(l: Loading, lines: seq<Line>, k: nat, lists: bool)
    requires forall i :: 0 <= i < |lines| ==> FromJson(lines[i])
    requires k < |lines| && lines[k].Entry? && lines[k].record.Obj? && FromJson(lines[k])
    requires var row := RowFor(lines[k].collection, lines[k].record.members);
             row.Some? && Lookup(l.rows, lines[k].collection, row.value.id).Some?
    ensures LoadAll(l, lines, lists).None?
    decreases k
  {
    hide RowFor, Lookup, KeyTaken;
    if k > 0 {
      var next := Load(l, lines[0], lists);
      if next.Some? {
        assert lines[1..][k - 1] == lines[k];
        var id := RowFor(lines[k].collection, lines[k].record.members).value.id;
        if lines[0].Entry? {
          EntryInserted(l, lines[0], lists);
          LookupStays(l.rows, RowFor(lines[0].collection, lines[0].record.members).value, lines[k].collection, id);
        } else {
          OthersKeepRows(l, lines[0], lists);
        }
        HeldRefused(next.value, lines[1..], k - 1, lists);
      }
    }
  }

  lemma LookupLast(rows: seq<Row>, row: Row)
    ensures Lookup(rows + [row], row.collection, row.id).Some?
  {
    assert (rows + [row])[|rows|] == row;
  }

  /** An entry line that is there twice, at any two places, makes the import fail. */
  lemma {:induction false} RepeatedRefused(l: Loading, lines: seq<Line>, i: nat, j: nat, lists: bool)
    requires forall n :: 0 <= n < |lines| ==> FromJson(lines[n])
    requires i < j < |lines| && lines[i].Entry? && lines[i] == lines[j]
    ensures LoadAll(l, lines, lists).None?
    decreases i
  {
    hide RowFor, Lookup, KeyTaken;
    var next := Load(l, lines[0], lists);
    if next.Some? {
      assert lines[1..][j - 1] == lines[j];
      if i == 0 {
        EntryInserted(l, lines[0], lists);
        var row := RowFor(lines[0].collection, lines[0].record.members).value;
        RowKeys(lines[0].collection, lines[0].record.members);
        LookupLast(l.rows, row);
        HeldRefused(next.value, lines[1..], j - 1, lists);
      } else {
        assert lines[1..][i - 1] == lines[i];
        RepeatedRefused(next.value, lines[1..], i - 1, j - 1, lists);
      }
    }
  }

  lemma RowKeys(collection: Str, record: Members)
    requires WellFormed(Obj(record)) && Pure(Obj(record)) && RowFor(collection, record).Some?
    ensures RowFor(collection, record).value.collection == collection
  {}

  // --- an export loads back --------------------------------------------------------------------------

  /** Rows as a store writes them. */
  ghost predicate Written(row: Row) {
    Consistent(row) && RowFor(row.collection, row.record) == Some(row)
  }

  function RowsOf(rows: seq<Row>, collection: Str): nat { |Where(rows, (row: Row) => row.collection == collection)| }

  lemma RowsOfNext(rows: seq<Row>, k: nat, collection: Str)
    requires k < |rows|
    ensures RowsOf(rows[..k + 1], collection) == RowsOf(rows[..k], collection) + if rows[k].collection == collection then 1 else 0
  {
    var p := (row: Row) => row.collection == collection;
    assert rows[..k + 1] == rows[..k] + [rows[k]];
    WhereConcat(rows[..k], [rows[k]], p);
    var one := [rows[k]];
    assert one[1..] == [];
  }

  ghost predicate CountsFor(counts: map<Str, nat>, rows: seq<Row>) {
    && (forall c :: CountOf(counts, c) == RowsOf(rows, c))
    && forall c :: c in counts ==> counts[c] > 0
  }

  /** Some of the rows are loaded and counted. */
  ghost predicate LoadedTo(l: Loading, rows: seq<Row>, k: nat)
    requires k <= |rows|
  {
    l.header && l.trailer.None? && l.rows == rows[..k] && l.records == k && CountsFor(l.counts, rows[..k])
  }

  lemma LoadNext(l: Loading, rows: seq<Row>, k: nat, lists: bool)
    requires k < |rows| && LoadedTo(l, rows, k) && Keyed(rows) && Written(rows[k])
    ensures var entry := Entry(rows[k].collection, Obj(rows[k].record));
            FromJson(entry) && Load(l, entry, lists).Some? && LoadedTo(Load(l, entry, lists).value, rows, k + 1)
  {
    NextInserts(rows, k);
    CountsNext(l.counts, rows, k);
    hide Inserted, CountsFor, CountOf, Keyed, Written, WellFormed, Pure;
    assert rows[..k + 1] == rows[..k] + [rows[k]];
  }

  lemma CountsNext(counts: map<Str, nat>, rows: seq<Row>, k: nat)
    requires k < |rows| && CountsFor(counts, rows[..k])
    ensures CountsFor(counts[rows[k].collection := CountOf(counts, rows[k].collection) + 1], rows[..k + 1])
  {
    hide RowsOf;
    var next := counts[rows[k].collection := CountOf(counts, rows[k].collection) + 1];
    forall c
      ensures CountOf(next, c) == RowsOf(rows[..k + 1], c)
    {
      assert CountOf(counts, c) == RowsOf(rows[..k], c);
      RowsOfNext(rows, k, c);
    }
  }

  lemma EntryLinesStep(rows: seq<Row>, k: nat, more: seq<Line>)
    requires k <= |rows|
    ensures var lines := EntryLines(rows[k..]) + more;
            if k == |rows| then lines == more
            else lines != [] && lines[0] == Entry(rows[k].collection, Obj(rows[k].record))
                 && lines[1..] == EntryLines(rows[k + 1..]) + more
  {
    if k < |rows| { assert rows[k..][1..] == rows[k + 1..]; }
  }

  lemma LoadAllStep(l: Loading, lines: seq<Line>, lists: bool)
    requires lines != [] && (forall i :: 0 <= i < |lines| ==> FromJson(lines[i])) && Load(l, lines[0], lists).Some?
    ensures LoadAll(l, lines, lists) == LoadAll(Load(l, lines[0], lists).value, lines[1..], lists)
  {}

  /** Distinct rows load one after another, and are counted by collection. */
  lemma {:induction false} EntriesLoad(l: Loading, rows: seq<Row>, k: nat, more: seq<Line>, lists: bool) returns (done: Loading)
    requires k <= |rows| && LoadedTo(l, rows, k)
    requires Keyed(rows) && forall row :: row in rows ==> Written(row)
    requires forall i :: 0 <= i < |more| ==> FromJson(more[i])
    ensures forall i :: 0 <= i < |EntryLines(rows[k..]) + more| ==> FromJson((EntryLines(rows[k..]) + more)[i])
    ensures LoadedTo(done, rows, |rows|)
    ensures LoadAll(l, EntryLines(rows[k..]) + more, lists) == LoadAll(done, more, lists)
    decreases |rows| - k
  {
    EntriesFromJson(rows, k, more);
    hide Keyed, Written, FromJson, LoadedTo, Load, LoadAll, EntryLines;
    EntryLinesStep(rows, k, more);
    var lines := EntryLines(rows[k..]) + more;
    if k == |rows| {
      assert lines == more;
      done := l;
    } else {
      var row := rows[k];
      assert row in rows;
      LoadNext(l, rows, k, lists);
      assert rows[k..][0] == row && rows[k..][1..] == rows[k + 1..];
      LoadAllStep(l, lines, lists);
      done := EntriesLoad(Load(l, lines[0], lists).value, rows, k + 1, more, lists);
    }
  }

  lemma EntriesFromJson(rows: seq<Row>, k: nat, more: seq<Line>)
    requires k <= |rows| && forall row :: row in rows ==> Written(row)
    requires forall i :: 0 <= i < |more| ==> FromJson(more[i])
    ensures forall i :: 0 <= i < |EntryLines(rows[k..]) + more| ==> FromJson((EntryLines(rows[k..]) + more)[i])
  {
    var lines := EntryLines(rows[k..]) + more;
    forall i | 0 <= i < |lines|
      ensures FromJson(lines[i])
    {
      if i < |rows| - k {
        assert rows[k..][i] == rows[k + i] && rows[k + i] in rows;
        assert lines[i] == Entry(rows[k + i].collection, Obj(rows[k + i].record));
      }
    }
  }

  /** The next row's keys are not taken by those before it. */
  lemma NextInserts(rows: seq<Row>, k: nat)
    requires k < |rows| && Keyed(rows) && Written(rows[k])
    ensures WellFormed(Obj(rows[k].record)) && Pure(Obj(rows[k].record))
    ensures Inserted(rows[..k], rows[k].collection, Obj(rows[k].record)) == Some(rows[k])
  {
    var before, row := rows[..k], rows[k];
    assert forall i :: 0 <= i < k ==> before[i] == rows[i];
    LookupGone(before, row.collection, row.id);
    hide RowFor, Lookup, Position;
  }

  predicate DistinctNamesOf(collections: seq<Str>) {
    forall i, j :: 0 <= i < j < |collections| ==> collections[i] != collections[j]
  }

  lemma {:induction false} EverythingFrom(rows: seq<Row>, collections: seq<Str>)
    requires Keyed(rows)
    ensures forall row :: row in Everything(rows, collections) <==> row in rows && row.collection in collections
  {
    if collections != [] {
      hide Keyed, InCollection;
      EverythingFrom(rows, collections[1..]);
      CollectionOrdered(rows, collections[0]);
      assert collections == [collections[0]] + collections[1..];
    }
  }

  predicate Once(rows: seq<Row>) { forall i, j :: 0 <= i < j < |rows| ==> rows[i] != rows[j] }

  lemma StrictOnce(rows: seq<Row>)
    requires Strict(rows, IdBefore)
    ensures Once(rows)
  {
    forall i, j | 0 <= i < j < |rows|
      ensures rows[i] != rows[j]
    {
      assert IdBefore(rows[i], rows[j]);
      TotalOrder(rows[i].id, rows[i].id, rows[i].id);
    }
  }

  lemma {:induction false} EverythingOnce(rows: seq<Row>, collections: seq<Str>)
    requires Keyed(rows) && DistinctNamesOf(collections)
    ensures Once(Everything(rows, collections))
  {
    if collections != [] {
      hide Keyed, InCollection;
      var first, rest := collections[0], collections[1..];
      assert forall i :: 0 <= i < |rest| ==> rest[i] == collections[i + 1];
      EverythingOnce(rows, rest);
      EverythingFrom(rows, rest);
      CollectionOrdered(rows, first);
      StrictOnce(InCollection(rows, first));
      var a, b := InCollection(rows, first), Everything(rows, rest);
      forall i, j | 0 <= i < |a| && 0 <= j < |b|
        ensures a[i] != b[j]
      {
        assert a[i] in a && b[j] in b;
        assert a[i].collection == first && b[j].collection in rest;
      }
    }
  }

  /** Some of a store's rows, each once, still have distinct keys. */
  lemma PartKeyed(rows: seq<Row>, part: seq<Row>)
    requires Keyed(rows) && Once(part) && forall row :: row in part ==> row in rows
    ensures Keyed(part)
  {
    forall i, j | 0 <= i < j < |part|
      ensures part[i].collection != part[j].collection || part[i].id != part[j].id
      ensures !SharesKey(part[i], part[j])
    {
      assert part[i] in rows && part[j] in rows;
      var a :| 0 <= a < |rows| && rows[a] == part[i];
      var b :| 0 <= b < |rows| && rows[b] == part[j];
      if a > b { assert !SharesKey(rows[b], rows[a]); }
    }
  }

  /** A collection's part of everything is the collection. */
  lemma {:induction false} EverythingOf(rows: seq<Row>, collections: seq<Str>, collection: Str)
    requires Keyed(rows) && DistinctNamesOf(collections)
    ensures Where(Everything(rows, collections), (row: Row) => row.collection == collection)
         == if collection in collections then InCollection(rows, collection) else []
  {
    var p := (row: Row) => row.collection == collection;
    if collections != [] {
      hide Keyed, InCollection;
      var first, rest := collections[0], collections[1..];
      assert forall i :: 0 <= i < |rest| ==> rest[i] == collections[i + 1];
      assert collections == [first] + rest;
      EverythingOf(rows, rest, collection);
      CollectionOrdered(rows, first);
      WhereConcat(InCollection(rows, first), Everything(rows, rest), p);
      if first == collection {
        WhereAll(InCollection(rows, first), p);
        assert InCollection(rows, first) + [] == InCollection(rows, first);
      } else {
        WhereNone(InCollection(rows, first), p);
        assert [] + Where(Everything(rows, rest), p) == Where(Everything(rows, rest), p);
      }
    }
  }

  /** The counts a reading gives are those of what it visited. */
  ghost predicate ReadingOf(rows: seq<Row>, collections: seq<Str>, visited: seq<Row>, counts: map<Str, nat>) {
    && visited == Everything(rows, collections) && counts.Keys == (set c | c in collections)
    && forall c :: c in counts ==> counts[c] == |InCollection(rows, c)|
  }

  /** What `exportStore` writes, an empty store imports: the exported records, all of them and nothing else. */
  lemma ExportImports(rows: seq<Row>, collections: seq<Str>, visited: seq<Row>, counts: map<Str, nat>, lists: bool)
    requires Keyed(rows) && DistinctNamesOf(collections) && forall row :: row in rows ==> Written(row)
    requires ReadingOf(rows, collections, visited, counts)
    ensures forall i :: 0 <= i < |Exported(collections, visited, counts)| ==> FromJson(Exported(collections, visited, counts)[i])
    ensures Imported([], Exported(collections, visited, counts), lists).Some?
    ensures Imported([], Exported(collections, visited, counts), lists).value.rows == visited
  {
    EverythingFrom(rows, collections);
    EverythingOnce(rows, collections);
    PartKeyed(rows, visited);
    hide Keyed, Written, Everything, InCollection, LoadedTo, CountsMatch, EntryLines, LoadAll, FromJson;
    var trailer := Trailer(|visited|, map c | c in counts :: counts[c]);
    var done := LinesLoad(collections, visited, trailer, lists);
    CountsAgree(rows, collections, visited, counts, done);
  }

  lemma LinesLoad(collections: seq<Str>, visited: seq<Row>, trailer: Line, lists: bool) returns (done: Loading)
    requires Keyed(visited) && trailer.Trailer? && forall row :: row in visited ==> Written(row)
    ensures var lines := [Header(Some(collections))] + EntryLines(visited) + [trailer];
            && (forall i :: 0 <= i < |lines| ==> FromJson(lines[i]))
            && LoadAll(Begun([]), lines, lists) == Some(done.(trailer := Some(trailer)))
    ensures LoadedTo(done, visited, |visited|) && done.rows == visited
  {
    var begun := Begun([]).(header := true);
    BegunLoaded(visited);
    hide Keyed, Written, LoadedTo, EntryLines;
    done := EntriesLoad(begun, visited, 0, [trailer], lists);
    assert visited[0..] == visited;
    var body := EntryLines(visited) + [trailer];
    var lines := [Header(Some(collections))] + EntryLines(visited) + [trailer];
    assert lines[0] == Header(Some(collections)) && lines[1..] == body;
    assert forall i :: 0 < i < |lines| ==> lines[i] == body[i - 1];
    hide LoadAll;
    LoadAllStep(Begun([]), lines, lists);
    TrailerLoads(done, visited, trailer, lists);
  }

  lemma BegunLoaded(rows: seq<Row>)
    ensures LoadedTo(Begun([]).(header := true), rows, 0)
  {
    assert rows[..0] == [];
    forall c
      ensures RowsOf(rows[..0], c) == 0
    {}
  }

  lemma TrailerLoads(done: Loading, visited: seq<Row>, trailer: Line, lists: bool)
    requires LoadedTo(done, visited, |visited|) && trailer.Trailer?
    ensures LoadAll(done, [trailer], lists) == Some(done.(trailer := Some(trailer)))
    ensures done.rows == visited
  {
    assert [trailer][1..] == [];
    assert visited[..|visited|] == visited;
  }

  lemma CountsAgree(rows: seq<Row>, collections: seq<Str>, visited: seq<Row>, counts: map<Str, nat>, done: Loading)
    requires Keyed(rows) && DistinctNamesOf(collections) && ReadingOf(rows, collections, visited, counts)
    requires LoadedTo(done, visited, |visited|)
    ensures CountsMatch(done.(trailer := Some(Trailer(|visited|, map c | c in counts :: counts[c]))))
  {
    forall c
      ensures CountOf(done.counts, c) == CountOf(counts, c)
    { CountAgrees(rows, collections, visited, counts, done, c); }
    SameCounts(counts, done.counts);
  }

  lemma CountAgrees(rows: seq<Row>, collections: seq<Str>, visited: seq<Row>, counts: map<Str, nat>, done: Loading, c: Str)
    requires Keyed(rows) && DistinctNamesOf(collections) && ReadingOf(rows, collections, visited, counts)
    requires LoadedTo(done, visited, |visited|)
    ensures CountOf(done.counts, c) == CountOf(counts, c)
  {
    assert visited[..|visited|] == visited;
    hide Keyed, InCollection, Everything;
    EverythingOf(rows, collections, c);
  }

  /** Counts that agree everywhere differ at most in listing collections without records. */
  lemma SameCounts(listed: map<Str, nat>, counts: map<Str, nat>)
    requires forall c :: CountOf(counts, c) == CountOf(listed, c)
    requires forall c :: c in counts ==> counts[c] > 0
    ensures var all: map<Str, int> := map c | c in listed :: listed[c];
            && (set c | c in all && all[c] != 0) == counts.Keys
            && forall c :: c in counts ==> c in all && all[c] == counts[c]
  {
    var all: map<Str, int> := map c | c in listed :: listed[c];
    forall c
      ensures c in (set n | n in all && all[n] != 0) <==> c in counts.Keys
      ensures c in counts ==> c in all && all[c] == counts[c]
    { assert CountOf(counts, c) == CountOf(listed, c); }
  }

  /** The imported store answers every search of an exported collection as the source does. */
  lemma SameAnswers(rows: seq<Row>, collections: seq<Str>, collection: Str, filter: Members, after: Option<Str>)
    requires Keyed(rows) && DistinctNamesOf(collections) && collection in collections
    ensures Reference(Everything(rows, collections), collection, filter, after) == Reference(rows, collection, filter, after)
  {
    var visited := Everything(rows, collections);
    EverythingFrom(rows, collections);
    EverythingOnce(rows, collections);
    PartKeyed(rows, visited);
    var p := (row: Row) => row.collection == collection && Wanted(row, filter, after);
    hide Everything, Wanted;
    IdsOrdered();
    WhereMembers(visited, p);
    WhereMembers(rows, p);
    WhereKeyed(visited, p, collection);
    WhereKeyed(rows, p, collection);
    WhereSort(visited, p, IdBefore);
    WhereSort(rows, p, IdBefore);
    ByIdOrdered(Where(visited, p));
    ByIdOrdered(Where(rows, p));
    SortStrict(Where(visited, p), IdBefore);
    SortStrict(Where(rows, p), IdBefore);
    OneOrder(ById(Where(visited, p)), ById(Where(rows, p)), IdBefore);
  }

  /** A line put in once more, after the lines before it. */
  function Repeating(lines: seq<Line>, line: Line, at: nat): seq<Line>
    requires at <= |lines|
  {
    lines[..at] + [line] + lines[at..]
  }

  /**
   * A snapshot without its trailer imports nothing, and neither does one without one of its entries, or with one of
   * them again at any place.
   */
  lemma DamagedRefused(rows: seq<Row>, collections: seq<Str>, visited: seq<Row>, counts: map<Str, nat>, k: nat, at: nat, lists: bool)
    requires k <= |visited| && forall row :: row in visited ==> Written(row)
    ensures var lines := Exported(collections, visited, counts)[..k + 1];
            (forall i :: 0 <= i < |lines| ==> FromJson(lines[i])) ==> Imported(rows, lines, lists).None?
    ensures k < |visited| ==>
              var lines := Exported(collections, visited[..k] + visited[k + 1..], counts)
                             [|visited| := Trailer(|visited|, map c | c in counts :: counts[c])];
              (forall i :: 0 <= i < |lines| ==> FromJson(lines[i])) ==> Imported(rows, lines, lists).None?
    ensures k < |visited| && at <= |visited| + 2 ==>
              var lines := Repeating(Exported(collections, visited, counts), Exported(collections, visited, counts)[k + 1], at);
              (forall i :: 0 <= i < |lines| ==> FromJson(lines[i])) ==> Imported(rows, lines, lists).None?
  {
    TruncatedRefused(rows, collections, visited, counts, k, lists);
    if k < |visited| {
      MissingRefused(rows, collections, visited, counts, k, lists);
      if at <= |visited| + 2 { AgainRefused(rows, collections, visited, counts, k, at, lists); }
    }
  }

  lemma TruncatedRefused(rows: seq<Row>, collections: seq<Str>, visited: seq<Row>, counts: map<Str, nat>, k: nat, lists: bool)
    requires k <= |visited|
    ensures var lines := Exported(collections, visited, counts)[..k + 1];
            (forall i :: 0 <= i < |lines| ==> FromJson(lines[i])) ==> Imported(rows, lines, lists).None?
  {
    var cut := Exported(collections, visited, counts)[..k + 1];
    if (forall i :: 0 <= i < |cut| ==> FromJson(cut[i])) && Imported(rows, cut, lists).Some? {
      AcceptedCounts(rows, cut, lists);
    }
  }

  lemma AgainRefused(rows: seq<Row>, collections: seq<Str>, visited: seq<Row>, counts: map<Str, nat>, k: nat, at: nat, lists: bool)
    requires k < |visited| && at <= |visited| + 2
    ensures var lines := Repeating(Exported(collections, visited, counts), Exported(collections, visited, counts)[k + 1], at);
            (forall i :: 0 <= i < |lines| ==> FromJson(lines[i])) ==> Imported(rows, lines, lists).None?
  {
    var whole := Exported(collections, visited, counts);
    var lines := Repeating(whole, whole[k + 1], at);
    var other := if at <= k + 1 then k + 2 else k + 1;
    assert lines[at] == whole[k + 1] == lines[other];
    if forall i :: 0 <= i < |lines| ==> FromJson(lines[i]) {
      if at < other {
        RepeatedRefused(Begun(rows), lines, at, other, lists);
      } else {
        RepeatedRefused(Begun(rows), lines, other, at, lists);
      }
    }
  }

  lemma MissingRefused(rows: seq<Row>, collections: seq<Str>, visited: seq<Row>, counts: map<Str, nat>, k: nat, lists: bool)
    requires k < |visited|
    ensures var lines := Exported(collections, visited[..k] + visited[k + 1..], counts)
                           [|visited| := Trailer(|visited|, map c | c in counts :: counts[c])];
            (forall i :: 0 <= i < |lines| ==> FromJson(lines[i])) ==> Imported(rows, lines, lists).None?
  {
    var part := visited[..k] + visited[k + 1..];
    var trailer := Trailer(|visited|, map c | c in counts :: counts[c]);
    var lines := Exported(collections, part, counts)[|visited| := trailer];
    assert lines == [Header(Some(collections))] + EntryLines(part) + [trailer];
    EntriesOf(collections, part, trailer);
    if (forall i :: 0 <= i < |lines| ==> FromJson(lines[i])) && Imported(rows, lines, lists).Some? {
      AcceptedCounts(rows, lines, lists);
    }
  }

  lemma EntriesOf(collections: seq<Str>, rows: seq<Row>, trailer: Line)
    requires trailer.Trailer?
    ensures Entries([Header(Some(collections))] + EntryLines(rows) + [trailer]) == |rows|
  {
    var lines := [Header(Some(collections))] + EntryLines(rows) + [trailer];
    assert lines[1..] == EntryLines(rows) + [trailer];
    EntryCount(rows, trailer);
  }

  lemma {:induction false} EntryCount(rows: seq<Row>, trailer: Line)
    requires trailer.Trailer?
    ensures Entries(EntryLines(rows) + [trailer]) == |rows|
  {
    if rows == [] {
      assert EntryLines(rows) + [trailer] == [trailer] && [trailer][1..] == [];
    } else {
      EntryCount(rows[1..], trailer);
      assert (EntryLines(rows) + [trailer])[1..] == EntryLines(rows[1..]) + [trailer];
    }
  }
}
