/** A reader of JSON text (RFC 8259) without whitespace: what others make of the canonical text. */
module JsonReader {
  import opened Wrappers
  import opened Text
  import opened Numbers
  import opened Sorting
  import opened Hexadecimal
  import opened Json
  import opened Jcs

  datatype Reading<T> = Got(value: T, rest: Str) | Malformed

  // --- the grammar ---------------------------------------------------------------------------------------

  /** What a letter after a backslash stands for (RFC 8259, section 7). */
  function Escaped(letter: CodeUnit): Option<CodeUnit> {
    if letter == 34 || letter == 92 || letter == 47 then Some(letter)
    else if letter == 98 then Some(0x08)
    else if letter == 102 then Some(0x0C)
    else if letter == 110 then Some(0x0A)
    else if letter == 114 then Some(0x0D)
    else if letter == 116 then Some(0x09)
    else None
  }

  /** A hexadecimal digit, either case. */
  function Digit(u: CodeUnit): (d: Option<nat>)
    ensures d.Some? ==> d.value < 16
  {
    if 48 <= u <= 57 then Some(u - 48)
    else if 65 <= u <= 70 then Some(u - 65 + 10)
    else if 97 <= u <= 102 then Some(u - 97 + 10)
    else None
  }

  /** Four hexadecimal digits, the first the highest. */
  function FourDigits(s: Str): Option<CodeUnit>
    requires |s| >= 4
  {
    var a, b, c, d := Digit(s[0]), Digit(s[1]), Digit(s[2]), Digit(s[3]);
    if a.None? || b.None? || c.None? || d.None? then None
    else Some(((a.value * 16 + b.value) * 16 + c.value) * 16 + d.value)
  }

  function Before(unit: CodeUnit, r: Reading<Str>): Reading<Str> {
    if r.Got? then Got([unit] + r.value, r.rest) else Malformed
  }

  /** A string after its quotation mark. */
  function ReadString(s: Str): (r: Reading<Str>)
    ensures r.Got? ==> |r.rest| < |s|
    decreases |s|
  {
    if s == [] || s[0] < 32 then Malformed
    else if s[0] == QUOTE then Got([], s[1..])
    else if s[0] != BACKSLASH then Before(s[0], ReadString(s[1..]))
    else if |s| < 2 then Malformed
    else if s[1] == 117 then
      if |s| < 6 || FourDigits(s[2..]).None? then Malformed
      else Before(FourDigits(s[2..]).value, ReadString(s[6..]))
    else if Escaped(s[1]).None? then Malformed
    else Before(Escaped(s[1]).value, ReadString(s[2..]))
  }

  function NumberEnd(s: Str): (n: nat)
    ensures n <= |s|
  {
    if s != [] && NumberUnit(s[0]) then 1 + NumberEnd(s[1..]) else 0
  }

  /** A value, and what follows it; the text of a number is read by the host. */
  function ReadJson(read: Str -> Option<Double>, s: Str): (r: Reading<Json>)
    ensures r.Got? ==> |r.rest| < |s|
    decreases |s|, 0
  {
    if s == [] then Malformed
    else if s[0] == QUOTE then
      match ReadString(s[1..])
      case Got(text, rest) => Got(Text(text), rest)
      case Malformed => Malformed
    else if s[0] == OPEN_LIST then
      if |s| > 1 && s[1] == CLOSE_LIST then Got(Arr([]), s[2..])
      else
        match ReadItems(read, s[1..])
        case Got(items, rest) => Got(Arr(items), rest)
        case Malformed => Malformed
    else if s[0] == OPEN_OBJECT then
      if |s| > 1 && s[1] == CLOSE_OBJECT then Got(Obj([]), s[2..])
      else
        match ReadMembers(read, s[1..])
        case Got(members, rest) => Got(Obj(members), rest)
        case Malformed => Malformed
    else if U("null") <= s then Got(Null, s[4..])
    else if U("true") <= s then Got(Bool(true), s[4..])
    else if U("false") <= s then Got(Bool(false), s[5..])
    else if s[0] == 45 || 48 <= s[0] <= 57 then
      match read(s[..NumberEnd(s)])
      case Some(n) => Got(Number(n), s[NumberEnd(s)..])
      case None => Malformed
    else Malformed
  }

  /** The entries of a list, up to its bracket. */
  function ReadItems(read: Str -> Option<Double>, s: Str): (r: Reading<seq<Json>>)
    ensures r.Got? ==> |r.rest| < |s|
    decreases |s|, 1
  {
    match ReadJson(read, s)
    case Malformed => Malformed
    case Got(item, rest) =>
      if rest == [] then Malformed
      else if rest[0] == CLOSE_LIST then Got([item], rest[1..])
      else if rest[0] != COMMA then Malformed
      else
        match ReadItems(read, rest[1..])
        case Got(items, after) => Got([item] + items, after)
        case Malformed => Malformed
  }

  /** The members of an object, up to its bracket. */
  function ReadMembers(read: Str -> Option<Double>, s: Str): (r: Reading<Members>)
    ensures r.Got? ==> |r.rest| < |s|
    decreases |s|, 1
  {
    match ReadMember(read, s)
    case Malformed => Malformed
    case Got(member, rest) =>
      if rest == [] then Malformed
      else if rest[0] == CLOSE_OBJECT then Got([member], rest[1..])
      else if rest[0] != COMMA then Malformed
      else
        match ReadMembers(read, rest[1..])
        case Got(members, after) => Got([member] + members, after)
        case Malformed => Malformed
  }

  function ReadMember(read: Str -> Option<Double>, s: Str): (r: Reading<(Str, Json)>)
    ensures r.Got? ==> |r.rest| < |s|
    decreases |s|, 0
  {
    if s == [] || s[0] != QUOTE then Malformed
    else
      match ReadString(s[1..])
      case Malformed => Malformed
      case Got(name, rest) =>
        if rest == [] || rest[0] != COLON then Malformed
        else
          match ReadJson(read, rest[1..])
          case Got(value, after) => Got((name, value), after)
          case Malformed => Malformed
  }

  // --- strings -------------------------------------------------------------------------------------------

  /** The characters that RFC 8785, section 3.2.2.2, has escaped, and those with a short form. */
  predicate Escapes(c: Str) { |c| == 1 && (c[0] == 0x22 || c[0] == 0x5C || c[0] < 0x20 || Surrogate(c[0])) }

  predicate Shortly(c: Str) { |c| == 1 && c[0] in {0x08, 0x09, 0x0A, 0x0C, 0x0D, 0x22, 0x5C} }

  /** Escaped are just these, the short way where there is one, else with four small hexadecimal digits. */
  lemma EscapedExactly(c: Str)
    requires IsChar(c)
    ensures var e := EscapeChar(c);
            && (!Escapes(c) ==> e == c)
            && (Escapes(c) && Shortly(c) ==> |e| == 2 && e[0] == BACKSLASH && e[1] != 117 && Escaped(e[1]) == Some(c[0]))
            && (Escapes(c) && !Shortly(c) ==>
                  && |e| == 6 && e[0] == BACKSLASH && e[1] == 117 && FourDigits(e[2..]) == Some(c[0])
                  && forall i :: 2 <= i < 6 ==> 48 <= e[i] <= 57 || 97 <= e[i] <= 102)
  {
    if |c| == 1 {
      DigitsRead(c[0]);
    }
  }

  lemma DigitsRead(u: CodeUnit)
    ensures var e := UnicodeEscape(u);
            FourDigits(e[2..]) == Some(u) && forall i :: 2 <= i < 6 ==> 48 <= e[i] <= 57 || 97 <= e[i] <= 102
  {
    Composed(u);
  }

  function BeforeAll(c: Str, r: Reading<Str>): Reading<Str> { if r.Got? then Got(c + r.value, r.rest) else Malformed }

  lemma CharReads(c: Str, y: Str)
    requires IsChar(c)
    ensures ReadString(EscapeChar(c) + y) == BeforeAll(c, ReadString(y))
  {
    EscapedExactly(c);
    hide EscapeChar, FourDigits, Escaped;
    var s := EscapeChar(c) + y;
    if |c| == 1 { assert c == [c[0]]; }
    if !Escapes(c) {
      PlainReads(c, y);
    } else if Shortly(c) {
      assert s[0] == BACKSLASH && s[1] == EscapeChar(c)[1] && s[2..] == y;
    } else {
      assert s[0] == BACKSLASH && s[1] == 117 && s[6..] == y;
      FourSame(s[2..], EscapeChar(c)[2..]);
    }
  }

  lemma FourSame(s: Str, t: Str)
    requires |s| >= 4 && |t| >= 4 && forall i :: 0 <= i < 4 ==> s[i] == t[i]
    ensures FourDigits(s) == FourDigits(t)
  {}

  lemma PlainReads(c: Str, y: Str)
    requires IsChar(c) && !Escapes(c)
    ensures ReadString(c + y) == BeforeAll(c, ReadString(y))
  {
    assert (c + y)[1..] == c[1..] + y;
    if |c| == 2 {
      assert (c[1..] + y)[1..] == y;
      assert forall r: Str :: [c[0]] + ([c[1]] + r) == c + r;
    } else {
      assert c[1..] + y == y && [c[0]] == c;
    }
  }

  lemma {:induction false} StringReads(cs: seq<Str>, x: Str)
    requires AllChars(cs)
    ensures ReadString(EscapeAll(cs) + ([QUOTE] + x)) == Got(Text.Join(cs), x)
  {
    EscapeAllStep(cs, x);
    hide EscapeAll, ReadString, EscapeChar;
    if cs == [] {
      ClosedReads(x);
    } else {
      StringReads(cs[1..], x);
      CharReads(cs[0], EscapeAll(cs[1..]) + ([QUOTE] + x));
    }
  }

  lemma ClosedReads(x: Str)
    ensures ReadString([QUOTE] + x) == Got([], x)
  {
    assert ([QUOTE] + x)[1..] == x;
  }

  // --- values --------------------------------------------------------------------------------------------

  /** The host reads the numbers it prints. */
  ghost predicate Reads(show: Double -> Str, read: Str -> Option<Double>) { forall n :: read(show(n)) == Some(n) }

  lemma {:induction false} NumberRun(digits: Str, x: Str)
    requires Ends(x) && forall i :: 0 <= i < |digits| ==> NumberUnit(digits[i])
    ensures NumberEnd(digits + x) == |digits|
  {
    if digits == [] {
      assert digits + x == x;
    } else {
      assert (digits + x)[1..] == digits[1..] + x;
      NumberRun(digits[1..], x);
    }
  }

  lemma NumberReads(show: Double -> Str, read: Str -> Option<Double>, n: Double, x: Str)
    requires Lawful(show) && Reads(show, read) && Ends(x)
    ensures ReadJson(read, show(n) + x) == Got(Number(n), x)
  {
    NumberRun(show(n), x);
    var s := show(n) + x;
    assert s[..|show(n)|] == show(n) && s[|show(n)|..] == x;
    assert s[0] == show(n)[0];
  }

  lemma TextReads(read: Str -> Option<Double>, t: Str, x: Str)
    ensures Quoted(t) + x == [QUOTE] + (EscapeAll(Chars(t)) + ([QUOTE] + x))
    ensures ReadString((Quoted(t) + x)[1..]) == Got(t, x)
    ensures ReadJson(read, Quoted(t) + x) == Got(Text(t), x)
  {
    hide EscapeAll, Chars, ReadString;
    var body := EscapeAll(Chars(t)) + ([QUOTE] + x);
    assert Quoted(t) + x == [QUOTE] + body;
    assert ([QUOTE] + body)[1..] == body;
    StringReads(Chars(t), x);
    JoinChars(t);
  }

  lemma WordReads(read: Str -> Option<Double>, x: Str)
    ensures ReadJson(read, U("null") + x) == Got(Null, x)
    ensures ReadJson(read, U("true") + x) == Got(Bool(true), x)
    ensures ReadJson(read, U("false") + x) == Got(Bool(false), x)
  {
    OneWord(U("null"), x);
    OneWord(U("true"), x);
    OneWord(U("false"), x);
    hide ReadString, ReadItems, ReadMembers, NumberEnd;
  }

  lemma OneWord(word: Str, x: Str)
    ensures word <= word + x && (word + x)[|word|..] == x && (word != [] ==> (word + x)[0] == word[0])
  {}

  /** Every value reads back from its text, whatever follows it. */
  lemma {:induction false} PrintReads(show: Double -> Str, read: Str -> Option<Double>, j: Json, x: Str)
    requires Lawful(show) && Reads(show, read) && Pure(j) && Ends(x)
    ensures ReadJson(read, Print(show, j) + x) == Got(j, x)
    decreases j, 1, 0
  {
    match j
    case Null => WordReads(read, x);
    case Bool(b) => WordReads(read, x);
    case Number(n) => NumberReads(show, read, n, x);
    case Text(t) => TextReads(read, t, x);
    case Arr(items) => ListReads(show, read, j, x);
    case Obj(members) => ListReads(show, read, j, x);
  }

  lemma ListReads(show: Double -> Str, read: Str -> Option<Double>, j: Json, x: Str)
    requires Lawful(show) && Reads(show, read) && Pure(j) && Ends(x) && (j.Arr? || j.Obj?)
    ensures ReadJson(read, Print(show, j) + x) == Got(j, x)
    decreases j, 0, Size(j) + 1
  {
    hide Lawful, Reads, Pure, ReadJson, ReadItems, ReadMembers, Print, Parts, Part, After, Ends;
    PrintList(show, j, x);
    if Size(j) == 0 {
      EmptyReads(read, j, x);
    } else {
      PartAt(show, j, 0);
      FirstPart(show, j);
      FilledReads(read, j, Parts(show, j)[0] + After(Parts(show, j), 1, Close(j), x));
      if j.Arr? { ItemsRead(show, read, j, 0, x); } else { MembersRead(show, read, j, 0, x); }
      WholeList(j);
    }
  }

  lemma WholeList(j: Json)
    ensures j.Arr? ==> j.items[0..] == j.items
    ensures j.Obj? ==> j.members[0..] == j.members
  {}

  lemma EmptyReads(read: Str -> Option<Double>, j: Json, x: Str)
    requires (j.Arr? || j.Obj?) && Size(j) == 0
    ensures ReadJson(read, [Open(j)] + ([Close(j)] + x)) == Got(j, x)
  {
    assert ([Open(j)] + ([Close(j)] + x))[2..] == x;
  }

  /** Past an opening bracket that no closing one follows. */
  lemma FilledReads(read: Str -> Option<Double>, j: Json, inner: Str)
    requires (j.Arr? || j.Obj?) && inner != [] && inner[0] != Close(j)
    ensures j.Arr? && ReadItems(read, inner).Got? ==>
              ReadJson(read, [Open(j)] + inner) == Got(Arr(ReadItems(read, inner).value), ReadItems(read, inner).rest)
    ensures j.Obj? && ReadMembers(read, inner).Got? ==>
              ReadJson(read, [Open(j)] + inner) == Got(Obj(ReadMembers(read, inner).value), ReadMembers(read, inner).rest)
  {
    assert ([Open(j)] + inner)[1..] == inner;
    hide ReadItems, ReadMembers;
  }

  lemma ItemsRead(show: Double -> Str, read: Str -> Option<Double>, j: Json, k: nat, x: Str)
    requires Lawful(show) && Reads(show, read) && Pure(j) && Ends(x) && j.Arr? && k < |j.items|
    ensures ReadItems(read, Parts(show, j)[k] + After(Parts(show, j), k + 1, CLOSE_LIST, x)) == Got(j.items[k..], x)
    decreases j, 0, Size(j) - k
  {
    hide Lawful, Reads, Pure, ReadJson, Print, Parts, Part, After, ReadItems;
    var p := Parts(show, j);
    var after := After(p, k + 1, CLOSE_LIST, x);
    AfterEnds(p, k + 1, CLOSE_LIST, x);
    PartAt(show, j, k);
    PureParts(j, k);
    ItemPart(show, j, k);
    PrintReads(show, read, j.items[k], after);
    if k + 1 < |j.items| {
      ItemsRead(show, read, j, k + 1, x);
      AfterStep(p, k + 1, CLOSE_LIST, x);
      NextItem(read, p[k] + after, j.items[k], p[k + 1] + After(p, k + 2, CLOSE_LIST, x));
      assert j.items[k..] == [j.items[k]] + j.items[k + 1..];
    } else {
      AfterLast(p, k + 1, CLOSE_LIST, x);
      LastItem(read, p[k] + after, j.items[k], x);
      assert j.items[k..] == [j.items[k]];
    }
  }

  lemma ItemPart(show: Double -> Str, j: Json, k: nat)
    requires j.Arr? && k < |j.items|
    ensures Part(show, j, k) == Print(show, j.items[k])
  {}

  lemma AfterLast(parts: seq<Str>, k: nat, close: CodeUnit, x: Str)
    requires k >= |parts|
    ensures After(parts, k, close, x) == [close] + x
  {}

  lemma NextItem(read: Str -> Option<Double>, s: Str, item: Json, more: Str)
    requires ReadJson(read, s) == Got(item, [COMMA] + more)
    ensures ReadItems(read, s) == match ReadItems(read, more)
                                  case Got(items, after) => Got([item] + items, after)
                                  case Malformed => Malformed
  {
    hide ReadJson;
    assert ([COMMA] + more)[1..] == more;
  }

  lemma LastItem(read: Str -> Option<Double>, s: Str, item: Json, x: Str)
    requires ReadJson(read, s) == Got(item, [CLOSE_LIST] + x)
    ensures ReadItems(read, s) == Got([item], x)
  {
    hide ReadJson;
    assert ([CLOSE_LIST] + x)[1..] == x;
  }

  lemma MembersRead(show: Double -> Str, read: Str -> Option<Double>, j: Json, k: nat, x: Str)
    requires Lawful(show) && Reads(show, read) && Pure(j) && Ends(x) && j.Obj? && k < |j.members|
    ensures ReadMembers(read, Parts(show, j)[k] + After(Parts(show, j), k + 1, CLOSE_OBJECT, x)) == Got(j.members[k..], x)
    decreases j, 0, Size(j) - k
  {
    hide Lawful, Reads, Pure, ReadJson, ReadMember, Print, Parts, Part, After, ReadMembers;
    var p := Parts(show, j);
    var after := After(p, k + 1, CLOSE_OBJECT, x);
    AfterEnds(p, k + 1, CLOSE_OBJECT, x);
    PartAt(show, j, k);
    MemberReads(show, read, j, k, after);
    if k + 1 < |j.members| {
      MembersRead(show, read, j, k + 1, x);
      AfterStep(p, k + 1, CLOSE_OBJECT, x);
      NextMember(read, p[k] + after, j.members[k], p[k + 1] + After(p, k + 2, CLOSE_OBJECT, x));
      assert j.members[k..] == [j.members[k]] + j.members[k + 1..];
    } else {
      AfterLast(p, k + 1, CLOSE_OBJECT, x);
      LastMember(read, p[k] + after, j.members[k], x);
      assert j.members[k..] == [j.members[k]];
    }
  }

  lemma NextMember(read: Str -> Option<Double>, s: Str, member: (Str, Json), more: Str)
    requires ReadMember(read, s) == Got(member, [COMMA] + more)
    ensures ReadMembers(read, s) == match ReadMembers(read, more)
                                    case Got(members, after) => Got([member] + members, after)
                                    case Malformed => Malformed
  {
    hide ReadMember;
    assert ([COMMA] + more)[1..] == more;
  }

  lemma LastMember(read: Str -> Option<Double>, s: Str, member: (Str, Json), x: Str)
    requires ReadMember(read, s) == Got(member, [CLOSE_OBJECT] + x)
    ensures ReadMembers(read, s) == Got([member], x)
  {
    hide ReadMember;
    assert ([CLOSE_OBJECT] + x)[1..] == x;
  }

  lemma MemberReads(show: Double -> Str, read: Str -> Option<Double>, j: Json, k: nat, x: Str)
    requires Lawful(show) && Reads(show, read) && Pure(j) && Ends(x) && j.Obj? && k < |j.members|
    ensures ReadMember(read, Part(show, j, k) + x) == Got(j.members[k], x)
    decreases j, 0, 0
  {
    var name, value := j.members[k].0, j.members[k].1;
    PartText(show, j, k, x);
    var rest := [COLON] + (Print(show, value) + x);
    TextReads(read, name, rest);
    PureParts(j, k);
    hide Lawful, Reads, Pure, ReadJson, Print, Quoted, ReadString;
    PrintReads(show, read, value, x);
    assert rest[1..] == Print(show, value) + x;
  }

  /**
   * The canonical text of a value is JSON: whoever reads it gets the canonical value, and of a value with nothing undefined
   * the same up to the order of members.
   */
  lemma CanonicalReads(show: Double -> Str, read: Str -> Option<Double>, j: Json)
    requires Lawful(show) && Reads(show, read) && !j.Undefined?
    ensures ReadJson(read, Print(show, Canonical(j))) == Got(Canonical(j), [])
    ensures WellFormed(j) && Pure(j) ==> Meaning(Canonical(j)) == Meaning(j)
  {
    CanonicalPure(j);
    if WellFormed(j) && Pure(j) { CanonicalMeaning(j); }
    hide *;
    PrintReads(show, read, Canonical(j), []);
    assert Print(show, Canonical(j)) + [] == Print(show, Canonical(j));
  }

  /** For every printing there is such a reading. */
  lemma SomeReads(show: Double -> Str)
    requires Lawful(show)
    ensures exists read :: Reads(show, read)
  {
    var read := (s: Str) => NumberOf(show, s);
    forall n
      ensures read(show(n)) == Some(n)
    {}
    assert Reads(show, read);
  }

  ghost function NumberOf(show: Double -> Str, s: Str): Option<Double> {
    if exists n :: show(n) == s then var n :| show(n) == s; Some(n) else None
  }
}
