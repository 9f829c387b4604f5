/** The JSON Canonicalization Scheme (RFC 8785, section 3.2): one text for each JSON value. */
module Jcs {
  import opened Wrappers
  import opened Text
  import opened Hexadecimal
  import opened Numbers
  import opened Order
  import opened Sorting
  import opened Json

  const QUOTE: CodeUnit := 34
  const BACKSLASH: CodeUnit := 92
  const COMMA: CodeUnit := 44
  const COLON: CodeUnit := 58
  const OPEN_LIST: CodeUnit := 91
  const CLOSE_LIST: CodeUnit := 93
  const OPEN_OBJECT: CodeUnit := 123
  const CLOSE_OBJECT: CodeUnit := 125

  /** Digits, signs, the point and the exponent. */
  predicate NumberUnit(u: CodeUnit) { 48 <= u <= 57 || u in {43, 45, 46, 101} }

  /** How the host prints numbers: a digit or minus, digits, signs, points and exponents, and no two numbers alike. */
  ghost predicate Lawful(show: Double -> Str) {
    && (forall n :: show(n) != [] && (48 <= show(n)[0] <= 57 || show(n)[0] == 45))
    && (forall n, i :: 0 <= i < |show(n)| ==> NumberUnit(show(n)[i]))
    && forall n, m :: show(n) == show(m) ==> n == m
  }

  /** There is such a printing: what is proved of lawful printings is not proved of none. */
  lemma SomeLawful()
    ensures Lawful(DoubleCode)
  {
    forall n, m | DoubleCode(n) == DoubleCode(m)
      ensures n == m
    {
      assert DoubleCode(n) + [] == DoubleCode(m) + [];
      DoubleUnique(n, m, [], []);
    }
  }

  // --- strings ---------------------------------------------------------------------------------------

  function UnicodeEscape(u: CodeUnit): (r: Str)
    ensures |r| == 6 && r[0] == BACKSLASH && r[1] == 117
  {
    [BACKSLASH, 117] + Quad(u)
  }

  /** `JSON.stringify` of one character: short escapes, control characters and unpaired surrogates escaped. */
  function EscapeChar(c: Str): Str
    requires IsChar(c)
  {
    if |c| == 2 then c
    else
      match c[0]
      case 34 => [BACKSLASH, 34]
      case 92 => [BACKSLASH, 92]
      case 8 => [BACKSLASH, 98]
      case 9 => [BACKSLASH, 116]
      case 10 => [BACKSLASH, 110]
      case 12 => [BACKSLASH, 102]
      case 13 => [BACKSLASH, 114]
      case _ => if c[0] < 32 || Surrogate(c[0]) then UnicodeEscape(c[0]) else c
  }

  function EscapeAll(cs: seq<Str>): Str
    requires AllChars(cs)
  {
    if cs == [] then [] else EscapeChar(cs[0]) + EscapeAll(cs[1..])
  }

  function Quoted(s: Str): Str { [QUOTE] + EscapeAll(Chars(s)) + [QUOTE] }

  lemma UnicodeEscapeInjective(u: CodeUnit, v: CodeUnit)
    requires UnicodeEscape(u) == UnicodeEscape(v)
    ensures u == v
  {
    assert Quad(u) == UnicodeEscape(u)[2..] && Quad(v) == UnicodeEscape(v)[2..];
    QuadRead(u);
    QuadRead(v);
  }

  /** An escaped character is never a quotation mark, and is told from any other wherever it stands. */
  lemma EscapeCharUnique(c: Str, d: Str, x: Str, y: Str)
    requires IsChar(c) && IsChar(d) && EscapeChar(c) + x == EscapeChar(d) + y
    ensures c == d && x == y
  {
    var s, t := EscapeChar(c) + x, EscapeChar(d) + y;
    hide UnicodeEscape;
    assert s[0] == t[0];
    if s[0] == BACKSLASH {
      assert s[1] == t[1];
      if s[1] == 117 {
        assert s[..6] == EscapeChar(c) && t[..6] == EscapeChar(d);
        UnicodeEscapeInjective(c[0], d[0]);
        assert s[6..] == x && t[6..] == y;
      } else {
        assert s[2..] == x && t[2..] == y;
      }
    } else if |c| == 2 {
      assert s[1] == t[1];
      assert s[2..] == x && t[2..] == y;
    } else {
      assert s[1..] == x && t[1..] == y;
    }
  }

  lemma EscapeCharStart(c: Str)
    requires IsChar(c)
    ensures EscapeChar(c) != [] && EscapeChar(c)[0] != QUOTE
  {}

  lemma {:induction false} EscapeAllUnique(cs: seq<Str>, ds: seq<Str>, x: Str, y: Str)
    requires AllChars(cs) && AllChars(ds)
    requires EscapeAll(cs) + ([QUOTE] + x) == EscapeAll(ds) + ([QUOTE] + y)
    ensures cs == ds && x == y
  {
    hide EscapeChar;
    EscapeAllStep(cs, x);
    EscapeAllStep(ds, y);
    if cs != [] { EscapeCharStart(cs[0]); }
    if ds != [] { EscapeCharStart(ds[0]); }
    hide EscapeAll;
    if cs == [] {
      FirstAndRest(QUOTE, x, QUOTE, y);
    } else {
      var u, v := EscapeAll(cs[1..]) + ([QUOTE] + x), EscapeAll(ds[1..]) + ([QUOTE] + y);
      EscapeCharUnique(cs[0], ds[0], u, v);
      EscapeAllUnique(cs[1..], ds[1..], x, y);
      assert cs == [cs[0]] + cs[1..] && ds == [ds[0]] + ds[1..];
    }
  }

  /** The first unit decides between the end and another character. */
  lemma EscapeAllStep(cs: seq<Str>, x: Str)
    requires AllChars(cs)
    ensures cs == [] ==> EscapeAll(cs) + ([QUOTE] + x) == [QUOTE] + x
    ensures cs != [] ==> EscapeAll(cs) + ([QUOTE] + x) == EscapeChar(cs[0]) + (EscapeAll(cs[1..]) + ([QUOTE] + x))
    ensures (EscapeAll(cs) + ([QUOTE] + x))[0] == QUOTE <==> cs == []
  {
    hide EscapeChar;
    if cs != [] { EscapeCharStart(cs[0]); }
  }

  lemma QuotedUnique(s: Str, t: Str, x: Str, y: Str)
    requires Quoted(s) + x == Quoted(t) + y
    ensures s == t && x == y
  {
    hide EscapeAll;
    var a, b := EscapeAll(Chars(s)) + ([QUOTE] + x), EscapeAll(Chars(t)) + ([QUOTE] + y);
    assert Quoted(s) + x == [QUOTE] + a && Quoted(t) + y == [QUOTE] + b;
    FirstAndRest(QUOTE, a, QUOTE, b);
    EscapeAllUnique(Chars(s), Chars(t), x, y);
    CharsInjective(s, t);
  }

  // --- values ----------------------------------------------------------------------------------------

  /** `join(',')`, after the first k parts. */
  function Following(parts: seq<Str>, k: nat): Str
    decreases |parts| - k
  {
    if k >= |parts| then [] else [COMMA] + parts[k] + Following(parts, k + 1)
  }

  function Commas(parts: seq<Str>): Str { if parts == [] then [] else parts[0] + Following(parts, 1) }

  /** The text of a value whose members are already in order. */
  function Print(show: Double -> Str, j: Json): Str
    decreases j, 1, 0
  {
    match j
    case Undefined => []
    case Null => U("null")
    case Bool(b) => if b then U("true") else U("false")
    case Number(n) => show(n)
    case Text(t) => Quoted(t)
    case Arr(_) => [OPEN_LIST] + Commas(Parts(show, j)) + [CLOSE_LIST]
    case Obj(_) => [OPEN_OBJECT] + Commas(Parts(show, j)) + [CLOSE_OBJECT]
  }

  function Size(j: Json): nat { if j.Arr? then |j.items| else if j.Obj? then |j.members| else 0 }

  function Part(show: Double -> Str, j: Json, i: nat): Str
    requires (j.Arr? || j.Obj?) && i < Size(j)
    decreases j, 0, 0
  {
    if j.Arr? then Print(show, j.items[i])
    else Quoted(j.members[i].0) + [COLON] + Print(show, j.members[i].1)
  }

  function Parts(show: Double -> Str, j: Json): (r: seq<Str>)
    requires j.Arr? || j.Obj?
    ensures |r| == Size(j)
    decreases j, 0, 1
  {
    seq(Size(j), i requires 0 <= i < Size(j) => Part(show, j, i))
  }

  /** What may follow a value: nothing, or a comma or bracket. */
  predicate Ends(x: Str) { x == [] || x[0] in {COMMA, CLOSE_LIST, CLOSE_OBJECT} }

  datatype Kind = NullKind | TrueKind | FalseKind | NumberKind | TextKind | ArrKind | ObjKind

  /** The first unit of a text tells what kind of value it is. */
  function KindOf(u: CodeUnit): Kind {
    if u == 110 then NullKind
    else if u == 116 then TrueKind
    else if u == 102 then FalseKind
    else if u == QUOTE then TextKind
    else if u == OPEN_LIST then ArrKind
    else if u == OPEN_OBJECT then ObjKind
    else NumberKind
  }

  function KindOfValue(j: Json): Kind
    requires !j.Undefined?
  {
    match j
    case Null => NullKind
    case Bool(b) => if b then TrueKind else FalseKind
    case Number(_) => NumberKind
    case Text(_) => TextKind
    case Arr(_) => ArrKind
    case Obj(_) => ObjKind
  }

  lemma PrintStart(show: Double -> Str, j: Json)
    requires Lawful(show) && !j.Undefined?
    ensures Print(show, j) != [] && KindOf(Print(show, j)[0]) == KindOfValue(j)
    ensures Print(show, j)[0] !in {COMMA, CLOSE_LIST, CLOSE_OBJECT}
  {
    match j
    case Number(n) => assert NumberUnit(show(n)[0]);
    case _ =>
  }

  /** One run of number units is not longer than another when both are followed by an end. */
  lemma RunLength(r: Str, q: Str, x: Str, y: Str)
    requires r + x == q + y && Ends(x) && forall i :: 0 <= i < |q| ==> NumberUnit(q[i])
    ensures |q| <= |r|
  {
    assert forall i :: 0 <= i < |q| ==> NumberUnit((q + y)[i]);
    assert x != [] ==> !NumberUnit((r + x)[|r|]);
  }

  lemma NumberUnique(show: Double -> Str, n: Double, m: Double, x: Str, y: Str)
    requires Lawful(show) && Ends(x) && Ends(y) && show(n) + x == show(m) + y
    ensures n == m && x == y
  {
    RunLength(show(n), show(m), x, y);
    RunLength(show(m), show(n), y, x);
    SameLength(show(n), show(m), x, y);
  }

  lemma SameLength(r: Str, q: Str, x: Str, y: Str)
    requires r + x == q + y && |r| == |q|
    ensures r == q && x == y
  {
    assert (r + x)[..|r|] == r && (q + y)[..|q|] == q;
    assert (r + x)[|r|..] == x && (q + y)[|q|..] == y;
  }

  /** The text of a value, with anything that may follow it, is read in one way only. */
  lemma {:induction false} PrintUnique(show: Double -> Str, a: Json, b: Json, x: Str, y: Str)
    requires Lawful(show) && Pure(a) && Pure(b) && Ends(x) && Ends(y)
    requires Print(show, a) + x == Print(show, b) + y
    ensures a == b && x == y
    decreases a, 1, 0
  {
    var s, t := Print(show, a) + x, Print(show, b) + y;
    PrintStart(show, a);
    PrintStart(show, b);
    assert s[0] == Print(show, a)[0] && t[0] == Print(show, b)[0];
    assert KindOfValue(a) == KindOfValue(b);
    match a
    case Null =>
      assert s[4..] == x && t[4..] == y;
    case Bool(v) =>
      if v {
        assert s[4..] == x && t[4..] == y;
      } else {
        assert s[5..] == x && t[5..] == y;
      }
    case Number(n) => NumberUnique(show, n, b.value, x, y);
    case Text(u) => QuotedUnique(u, b.text, x, y);
    case Arr(items) => PartsUnique(show, a, b, x, y);
    case Obj(members) => PartsUnique(show, a, b, x, y);
  }

  function Open(j: Json): CodeUnit { if j.Arr? then OPEN_LIST else OPEN_OBJECT }

  function Close(j: Json): CodeUnit { if j.Arr? then CLOSE_LIST else CLOSE_OBJECT }

  /** What follows the first k parts: more of them, the closing bracket, and then the rest. */
  function After(parts: seq<Str>, k: nat, close: CodeUnit, x: Str): Str
    decreases |parts| - k
  {
    if k >= |parts| then [close] + x else [COMMA] + (parts[k] + After(parts, k + 1, close, x))
  }

  lemma Regroup(a: Str, b: Str, c: Str, d: Str, e: Str)
    ensures a + b + c + d + e == a + (b + (c + d + e))
  {}

  lemma {:induction false} AfterFollowing(parts: seq<Str>, k: nat, close: CodeUnit, x: Str)
    ensures Following(parts, k) + [close] + x == After(parts, k, close, x)
    decreases |parts| - k
  {
    if k < |parts| {
      AfterFollowing(parts, k + 1, close, x);
      Regroup([COMMA], parts[k], Following(parts, k + 1), [close], x);
    }
  }

  lemma PrintList(show: Double -> Str, j: Json, x: Str)
    requires j.Arr? || j.Obj?
    ensures var p := Parts(show, j);
            Print(show, j) + x == [Open(j)] + if p == [] then [Close(j)] + x else p[0] + After(p, 1, Close(j), x)
  {
    hide Parts, Following, After;
    var p := Parts(show, j);
    if p != [] { AfterFollowing(p, 1, Close(j), x); }
    assert Print(show, j) == [Open(j)] + Commas(p) + [Close(j)];
    if p == [] {
      assert Print(show, j) + x == [Open(j)] + ([Close(j)] + x);
    } else {
      assert Print(show, j) + x == [Open(j)] + (p[0] + (Following(p, 1) + [Close(j)] + x));
    }
  }

  ghost predicate Comparable(show: Double -> Str, a: Json, b: Json, x: Str, y: Str) {
    Lawful(show) && Pure(a) && Pure(b) && Ends(x) && Ends(y) && ((a.Arr? && b.Arr?) || (a.Obj? && b.Obj?))
  }

  lemma PartsUnique(show: Double -> Str, a: Json, b: Json, x: Str, y: Str)
    requires Comparable(show, a, b, x, y)
    requires Print(show, a) + x == Print(show, b) + y
    ensures a == b && x == y
    decreases a, 0, Size(a) + 1
  {
    var p, q := Parts(show, a), Parts(show, b);
    SameFirst(show, a, b, x, y);
    hide Comparable, Print, Part, Parts, After, Lawful, Pure;
    if p == [] {
      FirstAndRest(Close(a), x, Close(b), y);
    } else {
      AfterEnds(p, 1, Close(a), x);
      AfterEnds(q, 1, Close(b), y);
      PartAt(show, a, 0);
      PartAt(show, b, 0);
      PartUnique(show, a, b, 0, x, y, After(p, 1, Close(a), x), After(q, 1, Close(b), y));
      FollowingUnique(show, a, b, 1, x, y);
      SameParts(a, b);
    }
  }

  /** Equal prints have both no part, or the same text from their first parts on. */
  lemma SameFirst(show: Double -> Str, a: Json, b: Json, x: Str, y: Str)
    requires Comparable(show, a, b, x, y)
    requires Print(show, a) + x == Print(show, b) + y
    ensures var p, q := Parts(show, a), Parts(show, b);
            && (p == [] <==> q == [])
            && if p == [] then [Close(a)] + x == [Close(b)] + y
               else p[0] + After(p, 1, Close(a), x) == q[0] + After(q, 1, Close(b), y)
  {
    var p, q := Parts(show, a), Parts(show, b);
    PrintList(show, a, x);
    PrintList(show, b, y);
    FirstPart(show, a);
    FirstPart(show, b);
    hide Comparable, Print, Part, Parts, After, Lawful, Pure;
    var s := if p == [] then [Close(a)] + x else p[0] + After(p, 1, Close(a), x);
    var t := if q == [] then [Close(b)] + y else q[0] + After(q, 1, Close(b), y);
    FirstAndRest(Open(a), s, Open(b), t);
    assert p == [] <==> s[0] == Close(a);
    assert q == [] <==> t[0] == Close(b);
  }

  lemma SameParts(a: Json, b: Json)
    requires (a.Arr? && b.Arr?) || (a.Obj? && b.Obj?)
    requires Size(a) == Size(b) && forall i :: 0 <= i < Size(a) ==> SamePart(a, b, i)
    ensures a == b
  {
    if a.Arr? {
      forall i | 0 <= i < |a.items|
        ensures a.items[i] == b.items[i]
      { assert SamePart(a, b, i); }
    } else {
      forall i | 0 <= i < |a.members|
        ensures a.members[i] == b.members[i]
      { assert SamePart(a, b, i); }
    }
  }

  lemma FirstPart(show: Double -> Str, j: Json)
    requires Lawful(show) && Pure(j) && (j.Arr? || j.Obj?)
    ensures Parts(show, j) != [] ==> Parts(show, j)[0] != [] && Parts(show, j)[0][0] != Close(j)
  {
    if Parts(show, j) != [] { PartStart(show, j, 0); }
  }

  lemma AfterEnds(parts: seq<Str>, k: nat, close: CodeUnit, x: Str)
    requires close == CLOSE_LIST || close == CLOSE_OBJECT
    ensures Ends(After(parts, k, close, x))
  {}

  lemma PartAt(show: Double -> Str, j: Json, i: nat)
    requires (j.Arr? || j.Obj?) && i < Size(j)
    ensures Parts(show, j)[i] == Part(show, j, i)
  {}

  lemma PartStart(show: Double -> Str, j: Json, i: nat)
    requires Lawful(show) && Pure(j) && (j.Arr? || j.Obj?) && i < Size(j)
    ensures Part(show, j, i) != [] && Part(show, j, i)[0] !in {COMMA, CLOSE_LIST, CLOSE_OBJECT}
  {
    if j.Arr? { PrintStart(show, j.items[i]); }
  }

  predicate SamePart(a: Json, b: Json, i: nat)
    requires (a.Arr? && b.Arr?) || (a.Obj? && b.Obj?)
    requires i < Size(a) && i < Size(b)
  {
    if a.Arr? then a.items[i] == b.items[i] else a.members[i] == b.members[i]
  }

  lemma PartUnique(show: Double -> Str, a: Json, b: Json, i: nat, x: Str, y: Str, u: Str, v: Str)
    requires Comparable(show, a, b, x, y) && Ends(u) && Ends(v)
    requires i < Size(a) && i < Size(b)
    requires Part(show, a, i) + u == Part(show, b, i) + v
    ensures SamePart(a, b, i) && u == v
    decreases a, 0, 0
  {
    hide Print, Lawful, Pure;
    if a.Arr? {
      PureParts(a, i);
      PureParts(b, i);
      PrintUnique(show, a.items[i], b.items[i], u, v);
    } else {
      var m, n := a.members[i], b.members[i];
      PartText(show, a, i, u);
      PartText(show, b, i, v);
      PureParts(a, i);
      PureParts(b, i);
      hide Part, Quoted;
      QuotedUnique(m.0, n.0, [COLON] + (Print(show, m.1) + u), [COLON] + (Print(show, n.1) + v));
      FirstAndRest(COLON, Print(show, m.1) + u, COLON, Print(show, n.1) + v);
      PrintUnique(show, m.1, n.1, u, v);
    }
  }

  lemma PureParts(j: Json, i: nat)
    requires Pure(j) && (j.Arr? || j.Obj?) && i < Size(j)
    ensures j.Arr? ==> Pure(j.items[i])
    ensures j.Obj? ==> Pure(j.members[i].1)
  {}

  lemma PartText(show: Double -> Str, j: Json, i: nat, x: Str)
    requires j.Obj? && i < Size(j)
    ensures Part(show, j, i) + x == Quoted(j.members[i].0) + ([COLON] + (Print(show, j.members[i].1) + x))
  {
    hide Quoted, Print;
    var q, t := Quoted(j.members[i].0), Print(show, j.members[i].1);
    assert q + [COLON] + t + x == q + ([COLON] + (t + x));
  }

  lemma FollowingUnique(show: Double -> Str, a: Json, b: Json, k: nat, x: Str, y: Str)
    requires Comparable(show, a, b, x, y) && k <= Size(a) && k <= Size(b)
    requires After(Parts(show, a), k, Close(a), x) == After(Parts(show, b), k, Close(b), y)
    ensures Size(a) == Size(b) && (forall i :: k <= i < Size(a) ==> SamePart(a, b, i)) && x == y
    decreases a, 0, Size(a) - k
  {
    var p, q := Parts(show, a), Parts(show, b);
    var u, v := After(p, k + 1, Close(a), x), After(q, k + 1, Close(b), y);
    AfterEnds(p, k + 1, Close(a), x);
    AfterEnds(q, k + 1, Close(b), y);
    assert (a.Arr? && b.Arr?) || (a.Obj? && b.Obj?);
    hide Comparable, Print, Part, Parts, Lawful, Pure;
    if k == Size(a) || k == Size(b) {
      assert After(p, k, Close(a), x)[0] == After(q, k, Close(b), y)[0];
      FirstAndRest(Close(a), x, Close(b), y);
    } else {
      hide After;
      AfterStep(p, k, Close(a), x);
      AfterStep(q, k, Close(b), y);
      FirstAndRest(COMMA, p[k] + u, COMMA, q[k] + v);
      PartAt(show, a, k);
      PartAt(show, b, k);
      PartUnique(show, a, b, k, x, y, u, v);
      FollowingUnique(show, a, b, k + 1, x, y);
    }
  }

  lemma AfterStep(parts: seq<Str>, k: nat, close: CodeUnit, x: Str)
    requires k < |parts|
    ensures After(parts, k, close, x) == [COMMA] + (parts[k] + After(parts, k + 1, close, x))
  {}

  // --- the order of members --------------------------------------------------------------------------

  predicate NameBefore(m: (Str, Json), n: (Str, Json)) { UnitLess(m.0, n.0) }

  lemma NamesOrdered()
    ensures WeakOrder(NameBefore)
  {
    forall m: (Str, Json), n: (Str, Json)
      ensures NameBefore(m, n) ==> !NameBefore(n, m)
    { UnitsOrdered(m.0, n.0, []); }
    forall m: (Str, Json), n: (Str, Json), o: (Str, Json)
      ensures !NameBefore(n, m) && !NameBefore(o, n) ==> !NameBefore(o, m)
    { UnitsOrdered(m.0, n.0, o.0); }
  }

  lemma DistinctUntied(members: Members)
    requires DistinctNames(members)
    ensures Untied(members, NameBefore)
  {
    forall i, j | 0 <= i < j < |members|
      ensures NameBefore(members[i], members[j]) || NameBefore(members[j], members[i])
    { UnitsOrdered(members[i].0, members[j].0, []); }
  }

  // --- the value that is printed ---------------------------------------------------------------------

  predicate Defined(m: (Str, Json)) { !m.1.Undefined? }

  /** Members in order, undefined ones left out; an undefined list entry is null. */
  function Canonical(j: Json): Json {
    match j
    case Arr(items) =>
      Arr(seq(|items|, i requires 0 <= i < |items| => if items[i].Undefined? then Null else Canonical(items[i])))
    case Obj(members) =>
      Obj(Where(Sort(seq(|members|, i requires 0 <= i < |members| => (members[i].0, Canonical(members[i].1))),
                     NameBefore), Defined))
    case _ => j
  }

  function CanonicalMembers(members: Members): (r: Members)
    ensures |r| == |members|
  {
    seq(|members|, i requires 0 <= i < |members| => (members[i].0, Canonical(members[i].1)))
  }

  lemma CanonicalObject(members: Members)
    ensures Canonical(Obj(members)) == Obj(Where(Sort(CanonicalMembers(members), NameBefore), Defined))
  {
    var all := seq(|members|, i requires 0 <= i < |members| => (members[i].0, Canonical(members[i].1)));
    assert all == CanonicalMembers(members);
  }

  lemma {:induction false} InsertCanonical(m: (Str, Json), members: Members)
    ensures CanonicalMembers(Insert(m, members, NameBefore))
         == Insert((m.0, Canonical(m.1)), CanonicalMembers(members), NameBefore)
  {
    hide Canonical, UnitLess;
    var all := CanonicalMembers(members);
    if members == [] || !NameBefore(members[0], m) {
      assert CanonicalMembers([m] + members) == [(m.0, Canonical(m.1))] + all;
    } else {
      InsertCanonical(m, members[1..]);
      assert CanonicalMembers(members[1..]) == all[1..];
      var rest := Insert(m, members[1..], NameBefore);
      assert CanonicalMembers([members[0]] + rest) == [all[0]] + CanonicalMembers(rest);
    }
  }

  /** Sorting by name, before or after the values are made canonical. */
  lemma {:induction false} SortCanonical(members: Members)
    ensures Sort(CanonicalMembers(members), NameBefore) == CanonicalMembers(Sort(members, NameBefore))
  {
    hide Canonical, UnitLess;
    var all := CanonicalMembers(members);
    if members == [] {
      assert all == [];
      assert CanonicalMembers([]) == [];
    } else {
      SortCanonical(members[1..]);
      assert CanonicalMembers(members[1..]) == all[1..];
      InsertCanonical(members[0], Sort(members[1..], NameBefore));
    }
  }

  function MemberParts(show: Double -> Str, members: Members): (r: seq<Str>)
    ensures |r| == |members|
  {
    seq(|members|, i requires 0 <= i < |members| => Quoted(members[i].0) + [COLON] + Print(show, members[i].1))
  }

  method Join(parts: seq<Str>) returns (text: Str)
    ensures text == Commas(parts)
  {
    if parts == [] { return []; }
    text := parts[0];
    var k := 1;
    while k < |parts|
      invariant 1 <= k <= |parts| && text + Following(parts, k) == Commas(parts)
    {
      assert text + ([COMMA] + parts[k] + Following(parts, k + 1)) == text + [COMMA] + parts[k] + Following(parts, k + 1);
      text := text + [COMMA] + parts[k];
      k := k + 1;
    }
    assert text + [] == text;
  }

  /** `write`: the canonical text; none for a value without a JSON form. */
  method Write(show: Double -> Str, j: Json) returns (text: Option<Str>)
    ensures text == if j.Undefined? then None else Some(Print(show, Canonical(j)))
    decreases j
  {
    match j
    case Undefined => return None;
    case Arr(items) =>
      ghost var c := Canonical(j);
      var parts: seq<Str> := [];
      var i := 0;
      while i < |items|
        invariant i <= |items| == |c.items| && parts == Parts(show, c)[..i]
      {
        hide Canonical, Print;
        assert Parts(show, c)[i] == Print(show, c.items[i]);
        CanonicalItem(items, i);
        var entry := Write(show, items[i]);
        NullText(show);
        parts := parts + [if entry.Some? then entry.value else U("null")];
        i := i + 1;
      }
      assert Parts(show, c)[..i] == Parts(show, c);
      var list := Join(parts);
      return Some([OPEN_LIST] + list + [CLOSE_LIST]);
    case Obj(members) =>
      var members' := WriteMembers(show, j, members);
      var list := Join(members');
      return Some([OPEN_OBJECT] + list + [CLOSE_OBJECT]);
    case Null => return Some(U("null"));
    case Bool(b) => return Some(if b then U("true") else U("false"));
    case Number(n) => return Some(show(n));
    case Text(t) => return Some(Quoted(t));
  }

  lemma CanonicalItem(items: seq<Json>, i: nat)
    requires i < |items|
    ensures Canonical(Arr(items)).Arr? && |Canonical(Arr(items)).items| == |items|
    ensures Canonical(Arr(items)).items[i] == if items[i].Undefined? then Null else Canonical(items[i])
  {}

  lemma NullText(show: Double -> Str)
    ensures Print(show, Null) == U("null")
  {}

  method WriteMembers(show: Double -> Str, j: Json, members: Members) returns (parts: seq<Str>)
    requires j == Obj(members)
    ensures parts == Parts(show, Canonical(j))
    decreases j, 0
  {
    var keys := Sort(members, NameBefore);
    SortedFrom(members);
    SortCanonical(members);
    CanonicalObject(members);
    hide *;
    ghost var all := CanonicalMembers(keys);
    parts := [];
    var i := 0;
    NoParts(show, all);
    while i < |keys|
      invariant i <= |keys|
      invariant parts == MemberParts(show, Where(all[..i], Defined))
    {
      assert keys[i].1 < j;
      var entry := Write(show, keys[i].1);
      WriteStep(show, keys, i);
      if entry.Some? {
        parts := parts + [Quoted(keys[i].0) + [COLON] + entry.value];
      }
      i := i + 1;
    }
    assert all[..|keys|] == all;
    PartsOfMembers(show, Where(all, Defined));
  }

  lemma SortedFrom(members: Members)
    ensures forall i :: 0 <= i < |Sort(members, NameBefore)| ==> Sort(members, NameBefore)[i].1 < Obj(members)
  {
    NamesOrdered();
    SortOrdered(members, NameBefore);
    forall i | 0 <= i < |Sort(members, NameBefore)|
      ensures Sort(members, NameBefore)[i].1 < Obj(members)
    {
      assert Sort(members, NameBefore)[i] in members;
      var k :| 0 <= k < |members| && members[k] == Sort(members, NameBefore)[i];
    }
  }

  lemma NoParts(show: Double -> Str, all: Members)
    ensures MemberParts(show, Where(all[..0], Defined)) == []
  {}

  lemma PartsOfMembers(show: Double -> Str, members: Members)
    ensures Parts(show, Obj(members)) == MemberParts(show, members)
  {
    hide Print, Quoted;
    var j := Obj(members);
    var p, q := Parts(show, j), MemberParts(show, members);
    forall i | 0 <= i < |members|
      ensures p[i] == q[i]
    { assert p[i] == Part(show, j, i); }
  }

  lemma WhereStep(all: Members, i: nat)
    requires i < |all|
    ensures Where(all[..i + 1], Defined) == Where(all[..i], Defined) + if Defined(all[i]) then [all[i]] else []
  {
    assert all[..i + 1] == all[..i] + [all[i]];
    WhereConcat(all[..i], [all[i]], Defined);
    var one: Members := [all[i]];
    assert one[1..] == [];
  }

  /** One more key: its text is added unless its value has none. */
  lemma WriteStep(show: Double -> Str, keys: Members, i: nat)
    requires i < |keys|
    ensures MemberParts(show, Where(CanonicalMembers(keys)[..i + 1], Defined))
         == MemberParts(show, Where(CanonicalMembers(keys)[..i], Defined))
            + if keys[i].1.Undefined? then [] else [Quoted(keys[i].0) + [COLON] + Print(show, Canonical(keys[i].1))]
  {
    hide Canonical, Print, Quoted;
    var all := CanonicalMembers(keys);
    var was := Where(all[..i], Defined);
    CanonicalDefined(keys[i].1);
    WhereStep(all, i);
    assert MemberParts(show, was + [all[i]])
        == MemberParts(show, was) + [Quoted(all[i].0) + [COLON] + Print(show, all[i].1)];
    assert was + [] == was;
  }

  lemma CanonicalDefined(j: Json)
    ensures Canonical(j).Undefined? <==> j.Undefined?
  {}

  // --- the theorem -----------------------------------------------------------------------------------

  lemma CanonicalFrom(members: Members, i: nat) returns (k: nat)
    requires i < |Canonical(Obj(members)).members|
    ensures k < |members| && !members[k].1.Undefined?
    ensures Canonical(Obj(members)).members[i] == (members[k].0, Canonical(members[k].1))
  {
    var all := CanonicalMembers(members);
    CanonicalObject(members);
    hide Canonical;
    var sorted: Members := Sort(all, NameBefore);
    NamesOrdered();
    SortOrdered(all, NameBefore);
    var m := Canonical(Obj(members)).members[i];
    WhereMember(sorted, Defined, m);
    assert m in all;
    k :| 0 <= k < |all| && all[k] == m;
    CanonicalDefined(members[k].1);
  }

  lemma {:induction false} CanonicalPure(j: Json)
    requires !j.Undefined?
    ensures Pure(Canonical(j))
  {
    match j
    case Arr(items) =>
      forall i | 0 <= i < |items| && !items[i].Undefined?
        ensures Pure(Canonical(items[i]))
      { CanonicalPure(items[i]); }
    case Obj(members) =>
      var kept := Canonical(j).members;
      forall i | 0 <= i < |kept|
        ensures Pure(kept[i].1)
      {
        var k := CanonicalFrom(members, i);
        CanonicalPure(members[k].1);
      }
    case _ =>
  }

  /** Of a value with nothing undefined, canonical members are all of them, sorted. */
  lemma CanonicalSorted(members: Members)
    requires WellFormed(Obj(members)) && Pure(Obj(members))
    ensures Canonical(Obj(members)) == Obj(Sort(CanonicalMembers(members), NameBefore))
    ensures Strict(Sort(CanonicalMembers(members), NameBefore), NameBefore)
    ensures |Sort(CanonicalMembers(members), NameBefore)| == |members|
    ensures forall m :: m in Sort(CanonicalMembers(members), NameBefore) <==> m in CanonicalMembers(members)
  {
    var all := CanonicalMembers(members);
    CanonicalObject(members);
    NamesOrdered();
    SortOrdered(all, NameBefore);
    SortCount(all, NameBefore);
    DistinctUntied(all);
    SortStrict(all, NameBefore);
    forall m | m in Sort(all, NameBefore)
      ensures Defined(m)
    {
      var k :| 0 <= k < |all| && all[k] == m;
      CanonicalDefined(members[k].1);
    }
    WhereAll(Sort(all, NameBefore), Defined);
  }

  lemma {:induction false} CanonicalMeaning(j: Json)
    requires WellFormed(j) && Pure(j)
    ensures Meaning(Canonical(j)) == Meaning(j)
  {
    match j
    case Arr(items) =>
      forall i | 0 <= i < |items|
        ensures Meaning(Canonical(items[i])) == Meaning(items[i])
      { CanonicalMeaning(items[i]); }
      assert Meaning(Canonical(j)).items == Meaning(j).items;
    case Obj(members) =>
      forall i | 0 <= i < |members|
        ensures Meaning(Canonical(members[i].1)) == Meaning(members[i].1)
      { CanonicalMeaning(members[i].1); }
      CanonicalSorted(members);
      SortedMeaning(members);
    case _ =>
  }

  lemma StrictDistinct(members: Members)
    requires Strict(members, NameBefore)
    ensures DistinctNames(members)
  {
    forall i, j | 0 <= i < j < |members|
      ensures members[i].0 != members[j].0
    {
      assert NameBefore(members[i], members[j]);
      UnitsOrdered(members[i].0, members[j].0, []);
    }
  }

  lemma SortedMeaning(members: Members)
    requires WellFormed(Obj(members)) && Pure(Obj(members))
    requires forall i :: 0 <= i < |members| ==> Meaning(Canonical(members[i].1)) == Meaning(members[i].1)
    ensures MembersMeaning(Sort(CanonicalMembers(members), NameBefore)) == MembersMeaning(members)
  {
    var all, sorted := CanonicalMembers(members), Sort(CanonicalMembers(members), NameBefore);
    CanonicalSorted(members);
    StrictDistinct(sorted);
    assert DistinctNames(members);
    hide Canonical, Sort, Meaning, WellFormed, Pure;
    forall i | 0 <= i < |sorted|
      ensures Has(members, sorted[i].0) && Meaning(sorted[i].1) == Meaning(Get(members, sorted[i].0))
    {
      assert sorted[i] in sorted;
      var k :| 0 <= k < |all| && all[k] == sorted[i];
      FindsItself(members, k);
    }
    MembersMeaningSame(sorted, members);
  }

  lemma {:induction false} SameCanonical(a: Json, b: Json)
    requires WellFormed(a) && Pure(a) && WellFormed(b) && Pure(b) && Meaning(a) == Meaning(b)
    ensures Canonical(a) == Canonical(b)
  {
    match (a, b)
    case (Arr(x), Arr(y)) =>
      assert |Meaning(a).items| == |Meaning(b).items|;
      forall i | 0 <= i < |x|
        ensures Canonical(x[i]) == Canonical(y[i])
      {
        assert Meaning(a).items[i] == Meaning(b).items[i];
        SameCanonical(x[i], y[i]);
      }
      assert Canonical(a).items == Canonical(b).items;
    case (Obj(x), Obj(y)) =>
      assert MembersMeaning(x) == MembersMeaning(y);
      MeaningMembers(x, y);
      MeaningMembers(y, x);
      forall i | 0 <= i < |x|
        ensures Canonical(x[i].1) == Canonical(Get(y, x[i].0))
      { SameCanonical(x[i].1, Get(y, x[i].0)); }
      forall i | 0 <= i < |y|
        ensures Canonical(y[i].1) == Canonical(Get(x, y[i].0))
      {
        var k := Find(x, y[i].0);
        FindsItself(y, i);
      }
      CanonicalSorted(x);
      CanonicalSorted(y);
      CanonicalWithin(x, y);
      CanonicalWithin(y, x);
      NamesOrdered();
      OneOrder(Sort(CanonicalMembers(x), NameBefore), Sort(CanonicalMembers(y), NameBefore), NameBefore);
    case _ =>
  }

  lemma CanonicalWithin(x: Members, y: Members)
    requires forall i :: 0 <= i < |x| ==> Has(y, x[i].0) && Canonical(x[i].1) == Canonical(Get(y, x[i].0))
    ensures forall m :: m in CanonicalMembers(x) ==> m in CanonicalMembers(y)
  {
    hide Canonical;
    forall m | m in CanonicalMembers(x)
      ensures m in CanonicalMembers(y)
    {
      var i :| 0 <= i < |x| && CanonicalMembers(x)[i] == m;
      assert CanonicalMembers(y)[Find(y, x[i].0)] == m;
    }
  }

  /** Two values have the same canonical text exactly when they are the same up to the order of members. */
  lemma SameText(show: Double -> Str, a: Json, b: Json)
    requires Lawful(show)
    requires WellFormed(a) && Pure(a) && WellFormed(b) && Pure(b)
    ensures Print(show, Canonical(a)) == Print(show, Canonical(b)) <==> Meaning(a) == Meaning(b)
  {
    CanonicalPure(a);
    CanonicalPure(b);
    CanonicalMeaning(a);
    CanonicalMeaning(b);
    if Print(show, Canonical(a)) == Print(show, Canonical(b)) {
      PrintUnique(show, Canonical(a), Canonical(b), [], []);
    }
    if Meaning(a) == Meaning(b) { SameCanonical(a, b); }
  }
}
