/** The PostgreSQL value encoding: records with strings that jsonb cannot hold, stored as records that it can. */
module ValueEncoding {
  import opened Wrappers
  import opened Text
  import opened Hexadecimal
  import opened Json
  import opened Records
  import opened Storage

  // --- encoding --------------------------------------------------------------------------------------

  /** A key kept in place. */
  predicate Ordinary(key: Str) { key != ESCAPE_KEY && Storable(key) }

  function Keep(members: Members, ordinary: bool): Members {
    if members == [] then []
    else (if Ordinary(members[0].0) == ordinary then [members[0]] else []) + Keep(members[1..], ordinary)
  }

  /** The escaped members as pairs of a hexadecimal key and a value. */
  function Pairs(members: Members): (r: seq<Json>)
    ensures |r| == |members|
  {
    seq(|members|, k requires 0 <= k < |members| => Arr([Text(Hex(members[k].0)), members[k].1]))
  }

  function Marked(encoded: Members): Members {
    Keep(encoded, true) +
    if Keep(encoded, false) == [] then [] else [(ESCAPE_KEY, Arr(Pairs(Keep(encoded, false))))]
  }

  function EncodeAll(members: Members): (r: Members)
    ensures |r| == |members|
  {
    seq(|members|, i requires 0 <= i < |members| => (members[i].0, Encode(members[i].1)))
  }

  function Encode(j: Json): Json {
    match j
    case Text(t) => if Storable(t) then j else Obj([(ESCAPE_KEY, Text(Hex(t)))])
    case Arr(items) => Arr(seq(|items|, i requires 0 <= i < |items| => Encode(items[i])))
    case Obj(members) =>
      Obj(Marked(seq(|members|, i requires 0 <= i < |members| => (members[i].0, Encode(members[i].1)))))
    case _ => j
  }

  // --- decoding --------------------------------------------------------------------------------------

  function All<T>(s: seq<Option<T>>): (r: Option<seq<T>>)
    ensures r.Some? <==> forall i :: 0 <= i < |s| ==> s[i].Some?
    ensures r.Some? ==> |r.value| == |s| && forall i :: 0 <= i < |s| ==> Some(r.value[i]) == s[i]
  {
    if s == [] then Some([])
    else if s[0].None? || All(s[1..]).None? then None
    else Some([s[0].value] + All(s[1..]).value)
  }

  /** `out[key] = value`. */
  function Assign(members: Members, key: Str, value: Json): Members {
    if Has(members, key) then members[Find(members, key) := (key, value)] else members + [(key, value)]
  }

  function AssignAll(members: Members, more: Members): Members
    decreases |more|
  {
    if more == [] then members else AssignAll(Assign(members, more[0].0, more[0].1), more[1..])
  }

  function Except(members: Members, key: Str): Members {
    if members == [] then [] else (if members[0].0 == key then [] else [members[0]]) + Except(members[1..], key)
  }

  function Named(key: Str, value: Option<Json>): Option<(Str, Json)> {
    if value.None? then None else Some((key, value.value))
  }

  /** Each entry beside the marker, decoded in place. */
  function DecodedEntries(j: Json): (r: seq<Option<(Str, Json)>>)
    requires j.Obj?
    ensures |r| == |j.members|
    decreases j, 0
  {
    seq(|j.members|, i requires 0 <= i < |j.members| =>
      if j.members[i].0 == ESCAPE_KEY then Some((ESCAPE_KEY, Null)) else Named(j.members[i].0, Decode(j.members[i].1)))
  }

  /** Each pair of the marker's list, its key read from hexadecimal. */
  function DecodedPairs(j: Json): (r: seq<Option<(Str, Json)>>)
    requires j.Obj? && Get(j.members, ESCAPE_KEY).Arr?
    ensures |r| == |Get(j.members, ESCAPE_KEY).items|
    decreases j, 0
  {
    var items := Get(j.members, ESCAPE_KEY).items;
    seq(|items|, k requires 0 <= k < |items| =>
      var pair := items[k];
      if !pair.Arr? || |pair.items| != 2 || !pair.items[0].Text? || FromHex(pair.items[0].text).None? then None
      else Named(FromHex(pair.items[0].text).value, Decode(pair.items[1])))
  }

  /** None is the refusal of a corrupt record. */
  function Decode(j: Json): Option<Json>
    decreases j, 1
  {
    match j
    case Arr(items) =>
      var all := All(seq(|items|, i requires 0 <= i < |items| => Decode(items[i])));
      if all.None? then None else Some(Arr(all.value))
    case Obj(entries) =>
      var marker := Get(entries, ESCAPE_KEY);
      if marker.Text? && |entries| == 1 then
        (var text := FromHex(marker.text); if text.None? then None else Some(Text(text.value)))
      else
        var plain := All(DecodedEntries(j));
        if plain.None? then None
        else if marker == Undefined then Some(Obj(Except(plain.value, ESCAPE_KEY)))
        else if !marker.Arr? then None
        else
          var pairs := All(DecodedPairs(j));
          if pairs.None? then None else Some(Obj(AssignAll(Except(plain.value, ESCAPE_KEY), pairs.value)))
    case _ => Some(j)
  }

  // --- what is stored --------------------------------------------------------------------------------

  /** Every string and every member name is one a database holds unchanged. */
  predicate AllStorable(j: Json) {
    match j
    case Text(t) => Storable(t)
    case Arr(items) => forall i :: 0 <= i < |items| ==> AllStorable(items[i])
    case Obj(members) => forall i :: 0 <= i < |members| ==> Storable(members[i].0) && AllStorable(members[i].1)
    case _ => true
  }

  lemma {:induction false} KeptFrom(members: Members, ordinary: bool)
    ensures forall m :: m in Keep(members, ordinary) <==> m in members && Ordinary(m.0) == ordinary
    ensures |Keep(members, ordinary)| <= |members|
    ensures DistinctNames(members) ==> DistinctNames(Keep(members, ordinary))
  {
    if members != [] {
      hide Ordinary;
      var rest := Keep(members[1..], ordinary);
      KeptFrom(members[1..], ordinary);
      assert members == [members[0]] + members[1..];
      if DistinctNames(members) {
        TailDistinct(members);
        forall k | 0 <= k < |rest|
          ensures rest[k].0 != members[0].0
        {
          assert rest[k] in members[1..];
        }
      }
    }
  }

  lemma TailDistinct(members: Members)
    requires members != [] && DistinctNames(members)
    ensures DistinctNames(members[1..])
    ensures forall m :: m in members[1..] ==> m.0 != members[0].0
  {
    forall m | m in members[1..]
      ensures m.0 != members[0].0
    {
      var k :| 0 <= k < |members[1..]| && members[1..][k] == m;
      assert members[k + 1] == m;
    }
    assert forall k :: 0 <= k < |members[1..]| ==> members[1..][k] == members[k + 1];
  }

  lemma OrdinaryNotMarker(key: Str)
    requires Ordinary(key)
    ensures key != ESCAPE_KEY
  {}

  lemma MarkedShape(encoded: Members)
    requires DistinctNames(encoded)
    ensures DistinctNames(Marked(encoded))
    ensures forall i :: 0 <= i < |Marked(encoded)| ==>
              (Marked(encoded)[i] in encoded && Ordinary(Marked(encoded)[i].0))
              || Marked(encoded)[i] == (ESCAPE_KEY, Arr(Pairs(Keep(encoded, false))))
  {
    hide Ordinary, ESCAPE_KEY;
    KeptFrom(encoded, true);
    KeptFrom(encoded, false);
    var kept := Keep(encoded, true);
    forall i | 0 <= i < |kept|
      ensures kept[i] in encoded && Ordinary(kept[i].0) && kept[i].0 != ESCAPE_KEY
    {
      assert kept[i] in kept;
      OrdinaryNotMarker(kept[i].0);
    }
  }

  lemma {:induction false} HexStorable(s: Str)
    ensures Storable(Hex(s))
  {
    HexUnits(s);
    CharsOfUnits(Hex(s));
  }

  lemma {:induction false} HexUnits(s: Str)
    ensures forall i :: 0 <= i < |Hex(s)| ==> 48 <= Hex(s)[i] <= 102
  {
    if s != [] { HexUnits(s[1..]); }
  }

  lemma EscapeKeyStorable()
    ensures Storable(ESCAPE_KEY)
  {
    assert |ESCAPE_KEY| == 11;
    assert forall i :: 0 <= i < 11 ==> 1 <= ESCAPE_KEY[i] < 128;
    CharsOfUnits(ESCAPE_KEY);
  }

  /** An encoded value holds only storable strings, and is again JSON with distinct member names. */
  lemma {:induction false} EncodedStorable(j: Json)
    requires WellFormed(j)
    ensures AllStorable(Encode(j)) && WellFormed(Encode(j)) && (Pure(j) ==> Pure(Encode(j)))
  {
    match j
    case Text(t) =>
      HexStorable(t);
      EscapeKeyStorable();
    case Arr(items) =>
      forall i | 0 <= i < |items|
        ensures AllStorable(Encode(items[i])) && WellFormed(Encode(items[i])) && (Pure(items[i]) ==> Pure(Encode(items[i])))
      { EncodedStorable(items[i]); }
    case Obj(members) =>
      var encoded := EncodeAll(members);
      forall i | 0 <= i < |members|
        ensures AllStorable(encoded[i].1) && WellFormed(encoded[i].1) && (Pure(members[i].1) ==> Pure(encoded[i].1))
      { EncodedStorable(members[i].1); }
      MarkedStorable(encoded, Pure(j));
    case _ =>
  }

  lemma MarkedStorable(encoded: Members, pure: bool)
    requires DistinctNames(encoded)
    requires forall i :: 0 <= i < |encoded| ==> AllStorable(encoded[i].1) && WellFormed(encoded[i].1)
    requires pure ==> forall i :: 0 <= i < |encoded| ==> Pure(encoded[i].1)
    ensures AllStorable(Obj(Marked(encoded))) && WellFormed(Obj(Marked(encoded)))
    ensures pure ==> Pure(Obj(Marked(encoded)))
  {
    hide Marked, ESCAPE_KEY, Storable, Hex;
    MarkedShape(encoded);
    EscapeKeyStorable();
    KeptFrom(encoded, false);
    var special := Keep(encoded, false);
    forall k | 0 <= k < |special|
      ensures AllStorable(Pairs(special)[k]) && WellFormed(Pairs(special)[k]) && (pure ==> Pure(Pairs(special)[k]))
    {
      assert special[k] in encoded;
      HexStorable(special[k].0);
    }
  }

  // --- comparing encoded values ----------------------------------------------------------------------

  lemma {:induction false} KeepAll(members: Members)
    requires forall i :: 0 <= i < |members| ==> Ordinary(members[i].0)
    ensures Keep(members, true) == members && Keep(members, false) == []
  {
    if members != [] {
      hide Ordinary;
      KeepAll(members[1..]);
      assert members == [members[0]] + members[1..];
    }
  }

  /** What a filter may push to the database is its own encoding. */
  lemma {:induction false} PushableEncoded(w: Json)
    requires Pushable(w)
    ensures Encode(w) == w
  {
    match w
    case Arr(items) =>
      forall i | 0 <= i < |items|
        ensures Encode(items[i]) == items[i]
      { PushableEncoded(items[i]); }
      assert Encode(w).items == items;
    case Obj(members) =>
      forall i | 0 <= i < |members|
        ensures Encode(members[i].1) == members[i].1
      { PushableEncoded(members[i].1); }
      assert EncodeAll(members) == members;
      KeepAll(members);
    case _ =>
  }

  lemma EscapedNotPushable(t: Str)
    ensures !Pushable(Obj([(ESCAPE_KEY, Text(Hex(t)))]))
  {
    assert [(ESCAPE_KEY, Text(Hex(t)))][0].0 == ESCAPE_KEY;
  }

  lemma {:induction false} EncodedPushable(v: Json)
    requires Pushable(Encode(v))
    ensures Pushable(v)
  {
    match v
    case Text(t) => EscapedNotPushable(t);
    case Arr(items) =>
      forall i | 0 <= i < |items|
        ensures Pushable(items[i])
      {
        assert Encode(v).items[i] == Encode(items[i]);
        EncodedPushable(items[i]);
      }
    case Obj(members) =>
      var encoded := EncodeAll(members);
      NothingEscaped(encoded);
      forall i | 0 <= i < |members|
        ensures members[i].0 != ESCAPE_KEY && Storable(members[i].0) && Pushable(members[i].1)
      {
        assert Marked(encoded)[i] == encoded[i];
        EncodedPushable(members[i].1);
      }
    case _ =>
  }

  lemma NothingEscaped(encoded: Members)
    requires Pushable(Obj(Marked(encoded)))
    ensures Marked(encoded) == encoded && forall i :: 0 <= i < |encoded| ==> Ordinary(encoded[i].0)
  {
    KeptFrom(encoded, false);
    if Keep(encoded, false) != [] {
      assert Marked(encoded)[|Keep(encoded, true)|].0 == ESCAPE_KEY;
    }
    forall i | 0 <= i < |encoded|
      ensures Ordinary(encoded[i].0)
    { assert encoded[i] in encoded; }
    KeepAll(encoded);
  }

  lemma {:induction false} PushableMeaning(a: Json, b: Json)
    requires WellFormed(a) && WellFormed(b) && Meaning(a) == Meaning(b) && Pushable(a)
    ensures Pushable(b)
  {
    match (a, b)
    case (Arr(x), Arr(y)) =>
      assert |Meaning(a).items| == |Meaning(b).items|;
      forall i | 0 <= i < |y|
        ensures Pushable(y[i])
      {
        assert Meaning(a).items[i] == Meaning(b).items[i];
        PushableMeaning(x[i], y[i]);
      }
    case (Obj(x), Obj(y)) =>
      assert MembersMeaning(y) == MembersMeaning(x);
      MeaningMembers(y, x);
      forall i | 0 <= i < |y|
        ensures y[i].0 != ESCAPE_KEY && Storable(y[i].0) && Pushable(y[i].1)
      {
        var k := Find(x, y[i].0);
        PushableMeaning(x[k].1, y[i].1);
      }
    case _ =>
  }

  /** Equality with a pushable value, asked of the encoded one, is equality with the original. */
  lemma EncodedCompares(v: Json, w: Json)
    requires WellFormed(v) && WellFormed(w) && Pushable(w)
    ensures Meaning(Encode(v)) == Meaning(w) <==> Meaning(v) == Meaning(w)
  {
    if Meaning(v) == Meaning(w) {
      PushableMeaning(w, v);
      PushableEncoded(v);
    }
    if Meaning(Encode(v)) == Meaning(w) {
      EncodedStorable(v);
      PushableMeaning(w, Encode(v));
      EncodedPushable(v);
      PushableEncoded(v);
    }
  }

  lemma FoundCompares(found: Json, wanted: Json)
    requires WellFormed(found) && WellFormed(wanted)
    requires !wanted.Arr? && !wanted.Obj? && (wanted.Text? ==> Storable(wanted.text))
    ensures Encode(found) == wanted <==> found == wanted
  {}

  /** A typed condition on an ordinary field selects the same records, stored encoded or not. */
  lemma ConditionOnEncoded(record: Members, field: Str, wanted: Json)
    requires WellFormed(Obj(record)) && Pure(Obj(record)) && WellFormed(wanted)
    requires OnCondition((field, wanted), true)
    ensures Holds(Marked(EncodeAll(record)), Condition(field, TestFor(wanted)))
       <==> Holds(record, Condition(field, TestFor(wanted)))
  {
    hide Encode, Meaning, Marked, Ordinary, Storable, Queryable, Find, Pure;
    var encoded := EncodeAll(record);
    QueryableOrdinary(field);
    EncodedMember(encoded, field);
    SameFind(record, encoded, field);
    if Has(record, field) {
      var found := Get(record, field);
      assert WellFormed(found);
      assert Get(encoded, field) == Encode(found);
      TestOnEncoded(found, wanted);
    }
  }

  lemma TestOnEncoded(found: Json, wanted: Json)
    requires WellFormed(found) && WellFormed(wanted)
    requires wanted.Text? ==> Storable(wanted.text)
    requires wanted.Arr? || wanted.Obj? ==> Pushable(wanted)
    ensures if wanted.Arr? || wanted.Obj? then Meaning(Encode(found)) == Meaning(wanted) <==> Meaning(found) == Meaning(wanted)
            else Encode(found) == wanted <==> found == wanted
  {
    if wanted.Arr? || wanted.Obj? {
      EncodedCompares(found, wanted);
    } else {
      FoundCompares(found, wanted);
    }
  }

  lemma {:induction false} SameFind(a: Members, b: Members, name: Str)
    requires |a| == |b| && forall i :: 0 <= i < |a| ==> a[i].0 == b[i].0
    ensures Find(a, name) == Find(b, name)
  {
    var i, k := Find(a, name), Find(b, name);
    assert i < |a| ==> b[i].0 == name;
    assert k < |b| ==> a[k].0 == name;
  }

  lemma QueryableOrdinary(field: Str)
    requires Queryable(field)
    ensures Ordinary(field)
  {
    assert ESCAPE_KEY[0] == 1;
    CharsOfUnits(field);
  }

  /** An ordinary member stays where it is found. */
  lemma EncodedMember(encoded: Members, name: Str)
    requires DistinctNames(encoded) && Ordinary(name)
    ensures Has(Marked(encoded), name) == Has(encoded, name)
    ensures Get(Marked(encoded), name) == Get(encoded, name)
  {
    hide Ordinary, ESCAPE_KEY;
    MarkedShape(encoded);
    KeptFrom(encoded, true);
    OrdinaryNotMarker(name);
    var marked := Marked(encoded);
    if Has(encoded, name) {
      var m := encoded[Find(encoded, name)];
      assert m in Keep(encoded, true);
      var k :| 0 <= k < |Keep(encoded, true)| && Keep(encoded, true)[k] == m;
      assert marked[k] == m;
      FindsItself(marked, k);
    }
    if Has(marked, name) {
      var m := marked[Find(marked, name)];
      assert m in encoded;
      var k :| 0 <= k < |encoded| && encoded[k] == m;
      FindsItself(encoded, k);
    }
  }

  // --- decoding what was encoded ---------------------------------------------------------------------

  lemma {:induction false} AssignAllFresh(members: Members, more: Members)
    requires DistinctNames(members + more)
    ensures AssignAll(members, more) == members + more
    decreases |more|
  {
    if more == [] {
      assert members + more == members;
    } else {
      var all := members + more;
      forall k | 0 <= k < |members|
        ensures members[k].0 != more[0].0
      { assert all[k] == members[k] && all[|members|] == more[0]; }
      assert members + [(more[0].0, more[0].1)] + more[1..] == all;
      AssignAllFresh(members + [more[0]], more[1..]);
    }
  }

  lemma {:induction false} ExceptAbsent(members: Members, key: Str)
    requires forall i :: 0 <= i < |members| ==> members[i].0 != key
    ensures Except(members, key) == members
    ensures forall value :: Except(members + [(key, value)], key) == members
  {
    if members != [] {
      ExceptAbsent(members[1..], key);
      forall value
        ensures Except(members + [(key, value)], key) == members
      {
        assert (members + [(key, value)])[1..] == members[1..] + [(key, value)];
      }
      assert members == [members[0]] + members[1..];
    } else {
      forall value
        ensures Except(members + [(key, value)], key) == members
      {
        assert members + [(key, value)] == [(key, value)];
        assert [(key, value)][1..] == [];
      }
    }
  }

  lemma {:induction false} KeepCount(members: Members)
    ensures |Keep(members, true)| + |Keep(members, false)| == |members|
  {
    if members != [] { KeepCount(members[1..]); }
  }

  /** The kept members of either kind, side by side, have distinct names. */
  lemma BothKeptDistinct(encoded: Members)
    requires DistinctNames(encoded)
    ensures DistinctNames(Keep(encoded, true) + Keep(encoded, false))
  {
    hide Ordinary, Keep;
    var a, b := Keep(encoded, true), Keep(encoded, false);
    KeptFrom(encoded, true);
    KeptFrom(encoded, false);
    forall i, j | 0 <= i < |a| && 0 <= j < |b|
      ensures a[i].0 != b[j].0
    { assert a[i] in a && b[j] in b; }
  }

  ghost predicate AllDecode(members: Members) {
    forall i :: 0 <= i < |members| ==> Decode(members[i].1).Some?
  }

  ghost function DecodeAll(members: Members): (r: Members)
    requires AllDecode(members)
    ensures |r| == |members|
    ensures forall i :: 0 <= i < |r| ==> r[i].0 == members[i].0
  {
    seq(|members|, i requires 0 <= i < |members| => (members[i].0, Decode(members[i].1).value))
  }

  /** The ordinary members first, and then at most the marker. */
  ghost predicate MarksAfter(ordinary: Members, special: Members, marked: Members) {
    && (forall i :: 0 <= i < |ordinary| ==> ordinary[i].0 != ESCAPE_KEY)
    && marked == ordinary + if special == [] then [] else [(ESCAPE_KEY, Arr(Pairs(special)))]
  }

  lemma MarkedLayout(encoded: Members)
    requires DistinctNames(encoded)
    ensures MarksAfter(Keep(encoded, true), Keep(encoded, false), Marked(encoded))
    ensures DistinctNames(Marked(encoded))
  {
    hide Keep, Ordinary, ESCAPE_KEY, Pairs;
    MarkedShape(encoded);
    KeptFrom(encoded, true);
    var ordinary := Keep(encoded, true);
    forall i | 0 <= i < |ordinary|
      ensures ordinary[i].0 != ESCAPE_KEY
    {
      assert ordinary[i] in ordinary;
      OrdinaryNotMarker(ordinary[i].0);
    }
  }

  lemma MarkerFound(ordinary: Members, special: Members, marked: Members)
    requires MarksAfter(ordinary, special, marked) && DistinctNames(marked)
    ensures Get(marked, ESCAPE_KEY) == if special == [] then Undefined else Arr(Pairs(special))
  {
    hide ESCAPE_KEY, Pairs;
    if special != [] { FindsItself(marked, |ordinary|); }
  }

  lemma EntriesDecoded(ordinary: Members, special: Members, marked: Members)
    requires MarksAfter(ordinary, special, marked) && AllDecode(ordinary)
    ensures var plain := All(DecodedEntries(Obj(marked)));
            plain.Some? && Except(plain.value, ESCAPE_KEY) == DecodeAll(ordinary)
  {
    hide Decode, All, Except, Pairs, ESCAPE_KEY;
    ExceptAbsent(DecodeAll(ordinary), ESCAPE_KEY);
    var list := DecodedEntries(Obj(marked));
    forall i | 0 <= i < |ordinary|
      ensures list[i] == Some(DecodeAll(ordinary)[i])
    { assert marked[i] == ordinary[i]; }
    if special == [] {
      assert All(list).value == DecodeAll(ordinary);
    } else {
      assert list[|ordinary|] == Some((ESCAPE_KEY, Null));
      assert All(list).value == DecodeAll(ordinary) + [(ESCAPE_KEY, Null)];
    }
  }

  lemma KeptDecode(encoded: Members, ordinary: bool)
    requires AllDecode(encoded)
    ensures AllDecode(Keep(encoded, ordinary))
  {
    hide Decode;
    KeptFrom(encoded, ordinary);
    var kept := Keep(encoded, ordinary);
    forall i | 0 <= i < |kept|
      ensures Decode(kept[i].1).Some?
    { assert kept[i] in kept && kept[i] in encoded; }
  }

  lemma MarkedPairs(encoded: Members)
    requires DistinctNames(encoded) && AllDecode(encoded) && AllDecode(Keep(encoded, false))
    requires Get(Marked(encoded), ESCAPE_KEY) == Arr(Pairs(Keep(encoded, false)))
    ensures All(DecodedPairs(Obj(Marked(encoded)))) == Some(DecodeAll(Keep(encoded, false)))
  {
    hide Decode, Keep, Marked, Hex, FromHex;
    var special := Keep(encoded, false);
    var list := DecodedPairs(Obj(Marked(encoded)));
    forall k | 0 <= k < |list|
      ensures list[k] == Some(DecodeAll(special)[k])
    { HexInverse(special[k].0, Hex(special[k].0)); }
    assert All(list).value == DecodeAll(special);
  }

  lemma DecodedMarked(encoded: Members)
    requires DistinctNames(encoded) && AllDecode(encoded)
    ensures AllDecode(Keep(encoded, true)) && AllDecode(Keep(encoded, false))
    ensures Decode(Obj(Marked(encoded))) == Some(Obj(DecodeAll(Keep(encoded, true)) + DecodeAll(Keep(encoded, false))))
  {
    hide Keep, Marked, Ordinary, ESCAPE_KEY, All, Except, AssignAll, DecodedEntries, DecodedPairs, Find, Pairs, Decode;
    KeptDecode(encoded, true);
    KeptDecode(encoded, false);
    var ordinary, special, marked := Keep(encoded, true), Keep(encoded, false), Marked(encoded);
    MarkedLayout(encoded);
    MarkerFound(ordinary, special, marked);
    EntriesDecoded(ordinary, special, marked);
    var a, b: Members := DecodeAll(ordinary), DecodeAll(special);
    if special == [] {
      assert a + b == a;
    } else {
      MarkedPairs(encoded);
      BothKeptDistinct(encoded);
      assert forall i :: 0 <= i < |a + b| ==> (a + b)[i].0 == (ordinary + special)[i].0;
      AssignAllFresh(a, b);
    }
    DecodeSteps(marked, a, b);
  }

  /** `Decode` of an object whose marker is not a single string, from its parts. */
  lemma DecodeSteps(marked: Members, a: Members, b: Members)
    requires var plain := All(DecodedEntries(Obj(marked)));
             plain.Some? && Except(plain.value, ESCAPE_KEY) == a
    requires (Get(marked, ESCAPE_KEY) == Undefined && b == [])
          || (Get(marked, ESCAPE_KEY).Arr? && All(DecodedPairs(Obj(marked))) == Some(b) && AssignAll(a, b) == a + b)
    ensures Decode(Obj(marked)) == Some(Obj(a + b))
  {
    hide All, Except, AssignAll, DecodedEntries, DecodedPairs, Find, ESCAPE_KEY;
    assert b == [] ==> a + b == a;
  }

  lemma DecodedMembers(members: Members, encoded: Members)
    requires |encoded| == |members| && DistinctNames(members) && AllDecode(encoded)
    requires forall i :: 0 <= i < |members| ==>
               encoded[i].0 == members[i].0 && Meaning(Decode(encoded[i].1).value) == Meaning(members[i].1)
    ensures Decode(Obj(Marked(encoded))).Some? && Decode(Obj(Marked(encoded))).value.Obj?
    ensures DistinctNames(Decode(Obj(Marked(encoded))).value.members)
    ensures MembersMeaning(Decode(Obj(Marked(encoded))).value.members) == MembersMeaning(members)
  {
    DecodedMarked(encoded);
    BothKeptDistinct(encoded);
    KeepCount(encoded);
    var both: Members := Keep(encoded, true) + Keep(encoded, false);
    var result: Members := DecodeAll(Keep(encoded, true)) + DecodeAll(Keep(encoded, false));
    forall i | 0 <= i < |result|
      ensures result[i].0 == both[i].0 && Has(members, result[i].0) && Meaning(result[i].1) == Meaning(Get(members, result[i].0))
    { BothDecoded(members, encoded, i); }
    hide Decode, Keep, Meaning, Marked, MembersMeaning, Has, Get, DecodeAll, AllDecode;
    SameNamesDistinct(result, both);
    hide DistinctNames;
    MembersMeaningSame(result, members);
  }

  /** Every decoded member, of either kind, means what the member of its name does. */
  lemma BothDecoded(members: Members, encoded: Members, i: nat)
    requires |encoded| == |members| && DistinctNames(members) && AllDecode(encoded)
    requires forall i :: 0 <= i < |members| ==>
               encoded[i].0 == members[i].0 && Meaning(Decode(encoded[i].1).value) == Meaning(members[i].1)
    requires AllDecode(Keep(encoded, true)) && AllDecode(Keep(encoded, false))
    requires i < |Keep(encoded, true) + Keep(encoded, false)|
    ensures var m := (Keep(encoded, true) + Keep(encoded, false))[i];
            var r := (DecodeAll(Keep(encoded, true)) + DecodeAll(Keep(encoded, false)))[i];
            r.0 == m.0 && Has(members, r.0) && Meaning(r.1) == Meaning(Get(members, r.0))
  {
    hide Keep, Decode, Meaning, DistinctNames, Has, Get;
    BothFrom(encoded, i);
    DecodedMember(members, encoded, (Keep(encoded, true) + Keep(encoded, false))[i]);
  }

  lemma BothFrom(members: Members, i: nat)
    requires i < |Keep(members, true) + Keep(members, false)|
    ensures (Keep(members, true) + Keep(members, false))[i] in members
  {
    hide Keep;
    KeptFrom(members, true);
    KeptFrom(members, false);
    var both: Members := Keep(members, true) + Keep(members, false);
    assert both[i] in both;
  }

  lemma SameNamesDistinct(a: Members, b: Members)
    requires |a| == |b| && DistinctNames(b) && forall i :: 0 <= i < |a| ==> a[i].0 == b[i].0
    ensures DistinctNames(a)
  {}

  lemma DecodedMember(members: Members, encoded: Members, m: (Str, Json))
    requires |encoded| == |members| && DistinctNames(members) && AllDecode(encoded) && m in encoded
    requires forall i :: 0 <= i < |members| ==>
               encoded[i].0 == members[i].0 && Meaning(Decode(encoded[i].1).value) == Meaning(members[i].1)
    ensures Decode(m.1).Some? && Has(members, m.0) && Meaning(Decode(m.1).value) == Meaning(Get(members, m.0))
  {
    hide Decode, Meaning;
    var k :| 0 <= k < |encoded| && encoded[k] == m;
    FindsItself(members, k);
  }

  /** Decoding restores every JSON value, reserved key and unstorable strings included, up to member order. */
  lemma {:induction false} DecodedValue(v: Json)
    requires WellFormed(v) && Pure(v)
    ensures Decode(Encode(v)).Some? && WellFormed(Decode(Encode(v)).value)
    ensures Meaning(Decode(Encode(v)).value) == Meaning(v)
  {
    match v
    case Text(t) => DecodedText(t);
    case Arr(items) =>
      forall i | 0 <= i < |items|
        ensures Decode(Encode(items[i])).Some? && WellFormed(Decode(Encode(items[i])).value)
        ensures Meaning(Decode(Encode(items[i])).value) == Meaning(items[i])
      { DecodedValue(items[i]); }
      DecodedItems(items);
    case Obj(members) =>
      var encoded := EncodeAll(members);
      forall i | 0 <= i < |members|
        ensures Decode(encoded[i].1).Some? && WellFormed(Decode(encoded[i].1).value)
        ensures Meaning(Decode(encoded[i].1).value) == Meaning(members[i].1)
      { DecodedValue(members[i].1); }
      DecodedMembers(members, encoded);
      DecodedWellFormed(encoded);
    case _ =>
  }

  lemma DecodedWellFormed(encoded: Members)
    requires DistinctNames(encoded) && AllDecode(encoded)
    requires forall i :: 0 <= i < |encoded| ==> WellFormed(Decode(encoded[i].1).value)
    requires Decode(Obj(Marked(encoded))).Some? && Decode(Obj(Marked(encoded))).value.Obj?
    requires DistinctNames(Decode(Obj(Marked(encoded))).value.members)
    ensures WellFormed(Decode(Obj(Marked(encoded))).value)
  {
    DecodedMarked(encoded);
    hide Decode, Keep, Marked, Ordinary;
    KeptFrom(encoded, true);
    KeptFrom(encoded, false);
    hide DistinctNames;
    KeptValues(encoded, Keep(encoded, true));
    KeptValues(encoded, Keep(encoded, false));
  }

  lemma KeptValues(encoded: Members, kept: Members)
    requires AllDecode(encoded) && AllDecode(kept) && forall m :: m in kept ==> m in encoded
    requires forall i :: 0 <= i < |encoded| ==> WellFormed(Decode(encoded[i].1).value)
    ensures forall i :: 0 <= i < |kept| ==> WellFormed(DecodeAll(kept)[i].1)
  {
    hide Decode, WellFormed;
    forall i | 0 <= i < |kept|
      ensures WellFormed(DecodeAll(kept)[i].1)
    { assert kept[i] in kept && kept[i] in encoded; }
  }

  lemma DecodedText(t: Str)
    ensures Decode(Encode(Text(t))) == Some(Text(t))
  {
    if !Storable(t) {
      var entries: Members := [(ESCAPE_KEY, Text(Hex(t)))];
      assert Find(entries, ESCAPE_KEY) == 0;
      HexInverse(t, Hex(t));
    }
  }

  lemma DecodedItems(items: seq<Json>)
    requires forall i :: 0 <= i < |items| ==> Decode(Encode(items[i])).Some?
    requires forall i :: 0 <= i < |items| ==> WellFormed(Decode(Encode(items[i])).value)
    requires forall i :: 0 <= i < |items| ==> Meaning(Decode(Encode(items[i])).value) == Meaning(items[i])
    ensures Decode(Encode(Arr(items))).Some? && WellFormed(Decode(Encode(Arr(items))).value)
    ensures Meaning(Decode(Encode(Arr(items))).value) == Meaning(Arr(items))
  {
    var encoded := Encode(Arr(items)).items;
    assert forall i :: 0 <= i < |items| ==> encoded[i] == Encode(items[i]);
    var all: Option<seq<Json>> := All(seq(|encoded|, i requires 0 <= i < |encoded| => Decode(encoded[i])));
    assert Decode(Arr(encoded)) == Some(Arr(all.value));
    assert Meaning(Arr(all.value)).items == Meaning(Arr(items)).items;
  }
}
