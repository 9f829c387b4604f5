/** Which lines an import accepts, and what the store then holds, said of the lines that are not blank. */
module Importing {
  import opened Wrappers
  import opened Text
  import opened Json
  import opened Records
  import opened Storage
  import opened Snapshot

  predicate AllFromJson(lines: seq<Line>) { forall i :: 0 <= i < |lines| ==> FromJson(lines[i]) }

  function Told(lines: seq<Line>): (r: seq<Line>)
    ensures AllFromJson(lines) ==> AllFromJson(r)
  {
    if lines == [] then [] else (if lines[0].Blank? then [] else [lines[0]]) + Told(lines[1..])
  }

  /** Every line is an entry, and the store takes them one after another. */
  function Inserting(rows: seq<Row>, lines: seq<Line>): Option<seq<Row>>
    requires AllFromJson(lines)
    decreases |lines|
  {
    if lines == [] then Some(rows)
    else if !lines[0].Entry? then None
    else
      var row := Inserted(rows, lines[0].collection, lines[0].record);
      if row.None? then None else Inserting(rows + [row.value], lines[1..])
  }

  /** The store has no record an import looks for: none at all, or none of the collections named. */
  predicate Vacant(rows: seq<Row>, lists: bool, header: Line)
    requires header.Header?
  {
    forall i :: 0 <= i < |rows| ==>
      && !lists
      && (header.collections.Some? ==> rows[i].collection !in header.collections.value)
      && (header.collections.None? ==> rows[i].collection != U("tenants") && rows[i].collection != U("identities"))
  }

  lemma EmptyVacant(rows: seq<Row>, lists: bool, header: Line)
    requires header.Header?
    ensures Empty(rows, lists, header.collections) <==> Vacant(rows, lists, header)
  {
    hide *;
    EmptyIs(rows, lists, header.collections);
    VacantIs(rows, lists, header);
  }

  lemma EmptyIs(rows: seq<Row>, lists: bool, collections: Option<seq<Str>>)
    ensures Empty(rows, lists, collections) <==>
            if lists then rows == []
            else forall i :: 0 <= i < |rows| ==>
              rows[i].collection !in if collections.Some? then collections.value else [U("tenants"), U("identities")]
  {}

  lemma VacantIs(rows: seq<Row>, lists: bool, header: Line)
    requires header.Header?
    ensures Vacant(rows, lists, header) <==>
            if lists then rows == []
            else forall i :: 0 <= i < |rows| ==>
              rows[i].collection !in if header.collections.Some? then header.collections.value else [U("tenants"), U("identities")]
  {
    if rows != [] { assert rows[0] in rows; }
  }

  /** A trailer, and nothing after it. */
  ghost predicate Ended(told: seq<Line>) { told != [] && told[|told| - 1].Trailer? }

  /** After the trailer only blank lines load. */
  lemma {:induction false} NothingAfter(l: Loading, lines: seq<Line>, lists: bool)
    requires AllFromJson(lines) && l.trailer.Some?
    ensures LoadAll(l, lines, lists) == if Told(lines) == [] then Some(l) else None
    decreases |lines|
  {
    if lines != [] {
      hide Inserted, Empty;
      NothingAfter(l, lines[1..], lists);
    }
  }

  lemma ToldStep(lines: seq<Line>)
    requires lines != []
    ensures Told(lines) == if lines[0].Blank? then Told(lines[1..]) else [lines[0]] + Told(lines[1..])
  {
    assert [] + Told(lines[1..]) == Told(lines[1..]);
  }

  lemma LoadStep(l: Loading, lines: seq<Line>, lists: bool)
    requires AllFromJson(lines) && lines != []
    ensures var next := Load(l, lines[0], lists);
            LoadAll(l, lines, lists) == if next.None? then None else LoadAll(next.value, lines[1..], lists)
  {}

  lemma InsertingStep(rows: seq<Row>, lines: seq<Line>)
    requires AllFromJson(lines) && lines != []
    ensures Inserting(rows, lines)
         == if !lines[0].Entry? then None
            else
              var row := Inserted(rows, lines[0].collection, lines[0].record);
              if row.None? then None else Inserting(rows + [row.value], lines[1..])
  {}

  /** What loading the lines after a header comes to, given those that are not blank. */
  ghost predicate EntriesLoadedTo(l: Loading, told: seq<Line>, loaded: Option<Loading>)
    requires AllFromJson(told)
  {
    if told == [] then loaded == Some(l)
    else if !Ended(told) then loaded.Some? ==> loaded.value.trailer.None?
    else
      var rows := Inserting(l.rows, told[..|told| - 1]);
      && (loaded.Some? <==> rows.Some?)
      && (loaded.Some? ==> loaded.value.rows == rows.value && loaded.value.trailer == Some(told[|told| - 1]))
  }

  lemma {:induction false} EntriesLoaded(l: Loading, lines: seq<Line>, lists: bool)
    requires AllFromJson(lines) && l.header && l.trailer.None?
    ensures EntriesLoadedTo(l, Told(lines), LoadAll(l, lines, lists))
    decreases |lines|
  {
    if lines != [] {
      hide LoadAll, Load, Inserted, Inserting, Told;
      ToldStep(lines);
      LoadStep(l, lines, lists);
      OneLoads(l, lines[0], lists);
      var next, rest := Load(l, lines[0], lists), lines[1..];
      if lines[0].Blank? {
        EntriesLoaded(l, rest, lists);
      } else if next.Some? && lines[0].Trailer? {
        NothingAfter(next.value, rest, lists);
        TrailerFirst(l, lines[0], Told(rest), LoadAll(next.value, rest, lists), next.value);
      } else if next.Some? {
        EntriesLoaded(next.value, rest, lists);
        EntryFirst(l, lines[0], Told(rest), LoadAll(next.value, rest, lists), next.value);
      } else {
        RefusedFirst(l, lines[0], Told(rest));
      }
    }
  }

  /** One line after the header and before the trailer. */
  lemma OneLoads(l: Loading, line: Line, lists: bool)
    requires FromJson(line) && l.header && l.trailer.None?
    ensures line.Blank? ==> Load(l, line, lists) == Some(l)
    ensures line.Trailer? ==> Load(l, line, lists) == Some(l.(trailer := Some(line)))
    ensures line.Header? || line.Other? ==> Load(l, line, lists) == None
    ensures line.Entry? ==>
              var row, next := Inserted(l.rows, line.collection, line.record), Load(l, line, lists);
              && (next.Some? <==> row.Some?)
              && (next.Some? ==> next.value.rows == l.rows + [row.value] && next.value.header && next.value.trailer.None?)
  {
    hide Inserted, Empty;
  }

  lemma InsertingNothing(rows: seq<Row>)
    ensures Inserting(rows, []) == Some(rows)
  {}

  lemma TrailerFirst(l: Loading, trailer: Line, rest: seq<Line>, loaded: Option<Loading>, next: Loading)
    requires trailer.Trailer? && AllFromJson(rest) && next == l.(trailer := Some(trailer))
    requires loaded == if rest == [] then Some(next) else None
    ensures EntriesLoadedTo(l, [trailer] + rest, loaded)
  {
    hide Inserting;
    var told := [trailer] + rest;
    var before := told[..|told| - 1];
    if rest == [] {
      assert before == [];
      InsertingNothing(l.rows);
    } else {
      assert before[0] == trailer;
      InsertingStep(l.rows, before);
    }
  }

  lemma EntryFirst(l: Loading, entry: Line, rest: seq<Line>, loaded: Option<Loading>, next: Loading)
    requires entry.Entry? && FromJson(entry) && AllFromJson(rest) && l.trailer.None?
    requires var row := Inserted(l.rows, entry.collection, entry.record);
             row.Some? && next.rows == l.rows + [row.value] && next.trailer.None?
    requires EntriesLoadedTo(next, rest, loaded)
    ensures EntriesLoadedTo(l, [entry] + rest, loaded)
  {
    hide Inserting, Inserted;
    var told := [entry] + rest;
    if rest != [] {
      assert told[|told| - 1] == rest[|rest| - 1];
      assert told[..|told| - 1] == [entry] + rest[..|rest| - 1];
      assert ([entry] + rest[..|rest| - 1])[1..] == rest[..|rest| - 1];
      InsertingStep(l.rows, [entry] + rest[..|rest| - 1]);
    }
  }

  lemma RefusedFirst(l: Loading, line: Line, rest: seq<Line>)
    requires FromJson(line) && AllFromJson(rest) && !line.Blank? && !line.Trailer?
    requires line.Entry? ==> Inserted(l.rows, line.collection, line.record).None?
    ensures EntriesLoadedTo(l, [line] + rest, None)
  {
    hide Inserting, Inserted;
    var told := [line] + rest;
    if rest != [] {
      assert told[..|told| - 1][0] == line;
      InsertingStep(l.rows, told[..|told| - 1]);
    }
  }

  /** What the lines have to be like. */
  ghost predicate Importable(rows: seq<Row>, lines: seq<Line>, lists: bool)
    requires AllFromJson(lines)
  {
    var told := Told(lines);
    && |told| >= 2 && told[0].Header? && Vacant(rows, lists, told[0])
    && told[|told| - 1].Trailer? && Inserting(rows, told[1..|told| - 1]).Some?
    && Tallies(told[|told| - 1], lines)
  }

  /** Up to the header. */
  lemma {:induction false} HeaderFirst(rows: seq<Row>, lines: seq<Line>, lists: bool)
    requires AllFromJson(lines)
    ensures var told, l := Told(lines), LoadAll(Begun(rows), lines, lists);
            if told != [] && told[0].Header? && Empty(rows, lists, told[0].collections)
            then EntriesLoadedTo(Begun(rows).(header := true), told[1..], l)
            else l.Some? ==> l.value.trailer.None?
    decreases |lines|
  {
    if lines != [] {
      hide Inserted, Empty, Told, Inserting;
      ToldStep(lines);
      if lines[0].Blank? {
        HeaderFirst(rows, lines[1..], lists);
      } else if Load(Begun(rows), lines[0], lists).Some? {
        assert Told(lines)[1..] == Told(lines[1..]);
        EntriesLoaded(Begun(rows).(header := true), lines[1..], lists);
      }
    }
  }

  /** Without entries lost or added the counts agree, and only then. */
  lemma CountsExactly(l: Loading)
    requires l.trailer.Some? && l.trailer.value.Trailer? && forall c :: c in l.counts ==> l.counts[c] > 0
    ensures CountsMatch(l) <==>
            l.trailer.value.records == l.records && forall c :: Listed(l.trailer.value.counts, c) == CountOf(l.counts, c)
  {
    if CountsMatch(l) { MatchedCounts(l); }
    if forall c :: Listed(l.trailer.value.counts, c) == CountOf(l.counts, c) {
      forall c
        ensures c in (set n | n in l.trailer.value.counts && l.trailer.value.counts[n] != 0) <==> c in l.counts.Keys
      { assert Listed(l.trailer.value.counts, c) == CountOf(l.counts, c); }
      forall c | c in l.counts
        ensures c in l.trailer.value.counts && l.trailer.value.counts[c] == l.counts[c]
      { assert Listed(l.trailer.value.counts, c) == CountOf(l.counts, c); }
    }
  }

  lemma {:induction false} CountsPositive(l: Loading, lines: seq<Line>, lists: bool)
    requires AllFromJson(lines) && (forall c :: c in l.counts ==> l.counts[c] > 0)
    ensures LoadAll(l, lines, lists).Some? ==>
              forall c :: c in LoadAll(l, lines, lists).value.counts ==> LoadAll(l, lines, lists).value.counts[c] > 0
    decreases |lines|
  {
    if lines != [] {
      hide Inserted, Empty;
      var next := Load(l, lines[0], lists);
      if next.Some? { CountsPositive(next.value, lines[1..], lists); }
    }
  }

  /**
   * Lines are imported exactly when, blank ones aside, they are a header, entries the store takes one after another, and
   * a trailer that counts them, and the store held none of the records looked for. It then holds the entries besides.
   */
  lemma ImportedExactly(rows: seq<Row>, lines: seq<Line>, lists: bool)
    requires AllFromJson(lines)
    ensures Imported(rows, lines, lists).Some? <==> Importable(rows, lines, lists)
    ensures Importable(rows, lines, lists) ==>
              Inserting(rows, Told(lines)[1..|Told(lines)| - 1]) == Some(Imported(rows, lines, lists).value.rows)
  {
    var told, l := Told(lines), LoadAll(Begun(rows), lines, lists);
    hide *;
    HeaderFirst(rows, lines, lists);
    if told != [] && told[0].Header? { EmptyVacant(rows, lists, told[0]); }
    LoadedCounts(rows, lines, lists);
    ImportedIs(rows, lines, lists);
    ImportableIs(rows, lines, lists);
    BegunIs(rows);
    if told != [] && told[0].Header? && Empty(rows, lists, told[0].collections) {
      if |told| >= 2 {
        assert told[1..][|told| - 2] == told[|told| - 1];
        assert told[1..][..|told| - 2] == told[1..|told| - 1];
        LoadedIs(Begun(rows).(header := true), told[1..], l);
      } else {
        assert told[1..] == [];
        LoadedNothing(Begun(rows).(header := true), l);
      }
    }
  }

  lemma BegunIs(rows: seq<Row>)
    ensures var l := Begun(rows).(header := true); l.rows == rows && l.trailer.None?
  {}

  lemma ImportedIs(rows: seq<Row>, lines: seq<Line>, lists: bool)
    requires AllFromJson(lines)
    ensures var l := LoadAll(Begun(rows), lines, lists);
            Imported(rows, lines, lists) == if l.Some? && CountsMatch(l.value) then l else None
  {}

  lemma ImportableIs(rows: seq<Row>, lines: seq<Line>, lists: bool)
    requires AllFromJson(lines)
    ensures var told := Told(lines);
            Importable(rows, lines, lists) <==>
            && |told| >= 2 && told[0].Header? && Vacant(rows, lists, told[0])
            && told[|told| - 1].Trailer? && Inserting(rows, told[1..|told| - 1]).Some?
            && Tallies(told[|told| - 1], lines)
  {}

  /** The trailer counts the entries. */
  ghost predicate Tallies(trailer: Line, lines: seq<Line>)
    requires trailer.Trailer?
  {
    trailer.records == Entries(lines) && forall c :: Listed(trailer.counts, c) == EntriesIn(lines, c)
  }

  lemma LoadedIs(l: Loading, told: seq<Line>, loaded: Option<Loading>)
    requires AllFromJson(told) && told != [] && EntriesLoadedTo(l, told, loaded)
    ensures !told[|told| - 1].Trailer? ==> loaded.Some? ==> loaded.value.trailer.None?
    ensures told[|told| - 1].Trailer? ==>
              var rows := Inserting(l.rows, told[..|told| - 1]);
              && (loaded.Some? <==> rows.Some?)
              && (loaded.Some? ==> loaded.value.rows == rows.value && loaded.value.trailer == Some(told[|told| - 1]))
  {}

  lemma LoadedNothing(l: Loading, loaded: Option<Loading>)
    requires EntriesLoadedTo(l, [], loaded)
    ensures loaded == Some(l)
  {}

  /** When all lines load, the counts match exactly with a trailer that counts the entries. */
  lemma LoadedCounts(rows: seq<Row>, lines: seq<Line>, lists: bool)
    requires AllFromJson(lines)
    ensures var l := LoadAll(Begun(rows), lines, lists);
            l.Some? ==> (CountsMatch(l.value) <==>
                         l.value.trailer.Some? && l.value.trailer.value.Trailer? && Tallies(l.value.trailer.value, lines))
  {
    var l := LoadAll(Begun(rows), lines, lists);
    hide LoadAll, CountsMatch, Listed, CountOf, Entries, EntriesIn;
    CountsPositive(Begun(rows), lines, lists);
    if l.Some? {
      LoadCounts(Begun(rows), lines, lists);
      NoneCounted();
      if l.value.trailer.Some? && l.value.trailer.value.Trailer? { CountsExactly(l.value); }
      MatchHasTrailer(l.value);
    }
  }

  lemma MatchHasTrailer(l: Loading)
    ensures CountsMatch(l) ==> l.trailer.Some? && l.trailer.value.Trailer?
  {}

  lemma NoneCounted()
    ensures forall c :: CountOf(map[], c) == 0
  {}
}
