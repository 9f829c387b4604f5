/** What a pattern matches, said of texts: the two operators, and references that match their value and nothing else. */
module PatternMeaning {
  import opened Wrappers
  import opened Text
  import opened Glob
  import opened Patterns
  import opened Policy

  const CLOSE_BRACE: CodeUnit := 125

  /** A letter or underscore, and at most 127 more units of a name. */
  predicate VariableName(name: Str) {
    1 <= |name| <= 128 && Letter(name[0]) && forall i :: 0 <= i < |name| ==> NameUnit(name[i])
  }

  function Reference(name: Str): Str { MARKER + name + [CLOSE_BRACE] }

  /** A text without a well-formed reference. */
  ghost predicate Referenceless(p: Str) {
    forall name, i: nat :: VariableName(name) ==> !OccursAt(p, Reference(name), i)
  }

  // --- where references are ------------------------------------------------------------------------------

  lemma {:induction false} RunOfName(p: Str, at: nat)
    requires at <= |p|
    ensures forall k :: at <= k < RunEnd(p, at) ==> NameUnit(p[k])
    ensures RunEnd(p, at) < |p| ==> !NameUnit(p[RunEnd(p, at)])
    decreases |p| - at
  {
    if at < |p| && NameUnit(p[at]) { RunOfName(p, at + 1); }
  }

  lemma ReferenceUnits(p: Str, i: nat, name: Str)
    ensures OccursAt(p, Reference(name), i) <==>
            && i + 3 + |name| <= |p| && p[i] == 36 && p[i + 1] == 123 && p[i + 2 + |name|] == CLOSE_BRACE
            && p[i + 2..i + 2 + |name|] == name
  {
    var r := Reference(name);
    assert r[0] == 36 && r[1] == 123 && r[2 + |name|] == CLOSE_BRACE && r[2..2 + |name|] == name;
    if i + 3 + |name| <= |p| {
      var s := p[i..i + 3 + |name|];
      var inner, outer := s[2..2 + |name|], p[i + 2..i + 2 + |name|];
      assert forall k :: 0 <= k < |name| ==> inner[k] == outer[k];
      assert inner == outer;
      if s[0] == 36 && s[1] == 123 && s[2 + |name|] == CLOSE_BRACE && s[2..2 + |name|] == name {
        assert s == [s[0], s[1]] + s[2..2 + |name|] + [s[2 + |name|]];
      }
    }
  }

  /** The scan finds a reference exactly where one is written. */
  lemma VariableExactly(p: Str, i: nat, name: Str)
    requires i <= |p|
    ensures VariableAt(p, i) == Some(name) <==> VariableName(name) && OccursAt(p, Reference(name), i)
  {
    hide OccursAt, Reference;
    ReferenceUnits(p, i, name);
    if VariableAt(p, i) == Some(name) {
      VariableWritten(p, i, name);
    }
    if VariableName(name) && OccursAt(p, Reference(name), i) {
      WrittenVariable(p, i, name);
    }
  }

  lemma VariableWritten(p: Str, i: nat, name: Str)
    requires i <= |p| && VariableAt(p, i) == Some(name)
    ensures VariableName(name) && i + 3 + |name| <= |p| && p[i] == 36 && p[i + 1] == 123 && p[i + 2 + |name|] == CLOSE_BRACE
    ensures p[i + 2..i + 2 + |name|] == name
  {
    RunOfName(p, i + 3);
    assert p[i..i + 2][0] == p[i] && p[i..i + 2][1] == p[i + 1];
    forall k | 0 <= k < |name|
      ensures NameUnit(name[k])
    { assert name[k] == p[i + 2 + k]; }
  }

  lemma WrittenVariable(p: Str, i: nat, name: Str)
    requires VariableName(name) && i + 3 + |name| <= |p| && p[i] == 36 && p[i + 1] == 123 && p[i + 2 + |name|] == CLOSE_BRACE
    requires p[i + 2..i + 2 + |name|] == name
    ensures VariableAt(p, i) == Some(name)
  {
    assert p[i..i + 2] == MARKER;
    assert name[0] == p[i + 2];
    forall k | i + 2 <= k < i + 2 + |name|
      ensures NameUnit(p[k])
    { assert name[k - i - 2] == p[k]; }
    RunStops(p, i + 3, i + 2 + |name|);
  }

  lemma {:induction false} RunStops(p: Str, at: nat, end: nat)
    requires at <= end < |p| && !NameUnit(p[end]) && forall k :: at <= k < end ==> NameUnit(p[k])
    ensures RunEnd(p, at) == end
    decreases end - at
  {
    if at < end { RunStops(p, at + 1, end); }
  }

  // --- the pieces of a pattern ---------------------------------------------------------------------------

  lemma OccursShifted(x: Str, b: Str, what: Str, i: nat)
    ensures OccursAt(x + b, what, |x| + i) <==> OccursAt(b, what, i)
  {
    if i + |what| <= |b| { assert (x + b)[|x| + i..|x| + i + |what|] == b[i..i + |what|]; }
  }

  lemma VariableShifted(x: Str, b: Str, i: nat)
    requires i <= |b|
    ensures VariableAt(x + b, |x| + i) == VariableAt(b, i)
  {
    hide VariableAt, OccursAt, Reference, VariableName;
    var long, short := VariableAt(x + b, |x| + i), VariableAt(b, i);
    if long.Some? {
      VariableExactly(x + b, |x| + i, long.value);
      OccursShifted(x, b, Reference(long.value), i);
      VariableExactly(b, i, long.value);
    }
    if short.Some? {
      VariableExactly(b, i, short.value);
      OccursShifted(x, b, Reference(short.value), i);
      VariableExactly(x + b, |x| + i, short.value);
    }
  }

  lemma IndexShifted(x: Str, b: Str, what: Str, from: nat)
    ensures IndexOf(x + b, what, |x| + from) == if IndexOf(b, what, from) == -1 then -1 else |x| + IndexOf(b, what, from)
  {
    hide OccursAt, IndexOf;
    var long, short := IndexOf(x + b, what, |x| + from), IndexOf(b, what, from);
    if long != -1 { OccursShifted(x, b, what, long - |x|); }
    if short != -1 { OccursShifted(x, b, what, short); }
  }

  /** Pieces after a prefix are the pieces of what follows it. */
  lemma {:induction false} PiecesShifted(x: Str, b: Str, cursor: nat, search: nat)
    requires cursor <= search <= |b|
    ensures PiecesFrom(x + b, |x| + cursor, |x| + search) == PiecesFrom(b, cursor, search)
    decreases |b| - search
  {
    hide VariableAt, OccursAt, PiecesFrom;
    IndexShifted(x, b, MARKER, search);
    Patterns.PiecesStep(x + b, |x| + cursor, |x| + search);
    Patterns.PiecesStep(b, cursor, search);
    var index := IndexOf(b, MARKER, search);
    if index == -1 {
      assert (x + b)[|x| + cursor..] == b[cursor..];
    } else {
      VariableShifted(x, b, index);
      match VariableAt(b, index)
      case None => PiecesShifted(x, b, cursor, index + 2);
      case Some(name) =>
        var next := index + 3 + |name|;
        assert (x + b)[|x| + cursor..|x| + index] == b[cursor..index];
        PiecesShifted(x, b, next, next);
    }
  }

  /** No reference begins in a text without references, whatever reference follows it. */
  lemma NoneStraddles(a: Str, rest: Str, i: nat)
    requires Referenceless(a) && i < |a| && rest != [] && rest[0] == 36
    ensures VariableAt(a + rest, i).None?
  {
    hide VariableAt, OccursAt, Reference;
    var p := a + rest;
    if VariableAt(p, i).Some? {
      var name := VariableAt(p, i).value;
      VariableExactly(p, i, name);
      ReferenceUnits(p, i, name);
      assert p[|a|] == 36;
      if i + 3 + |name| <= |a| {
        assert a[i + 2..i + 2 + |name|] == p[i + 2..i + 2 + |name|];
        ReferenceUnits(a, i, name);
      }
    }
  }

  /** Up to the first reference everything is literal text. */
  lemma {:induction false} PiecesUpTo(p: Str, at: nat, name: Str, search: nat)
    requires search <= at <= |p| && VariableAt(p, at) == Some(name) && forall i :: 0 <= i < at ==> VariableAt(p, i).None?
    ensures at + 3 + |name| <= |p|
    ensures PiecesFrom(p, 0, search) == [Literal(p[0..at]), Variable(name)] + PiecesFrom(p, at + 3 + |name|, at + 3 + |name|)
    decreases at - search
  {
    hide *;
    MarkerComes(p, at, search);
    var index: nat := IndexOf(p, MARKER, search);
    if index < at {
      SkipsMarker(p, 0, search);
      PiecesUpTo(p, at, name, index + 2);
    } else {
      TakesReference(p, 0, search);
    }
  }

  lemma SkipsMarker(p: Str, cursor: nat, search: nat)
    requires cursor <= search <= |p|
    requires var index := IndexOf(p, MARKER, search); index != -1 && VariableAt(p, index).None?
    ensures PiecesFrom(p, cursor, search) == PiecesFrom(p, cursor, IndexOf(p, MARKER, search) + 2)
  {
    Patterns.PiecesStep(p, cursor, search);
  }

  lemma TakesReference(p: Str, cursor: nat, search: nat)
    requires cursor <= search <= |p|
    requires var index := IndexOf(p, MARKER, search); index != -1 && VariableAt(p, index).Some?
    ensures var index := IndexOf(p, MARKER, search);
            var name := VariableAt(p, index).value;
            PiecesFrom(p, cursor, search) == [Literal(p[cursor..index]), Variable(name)]
                                             + PiecesFrom(p, index + 3 + |name|, index + 3 + |name|)
  {
    Patterns.PiecesStep(p, cursor, search);
  }

  lemma PiecesBefore(a: Str, name: Str, b: Str)
    requires Referenceless(a) && VariableName(name)
    ensures Pieces(a + Reference(name) + b) == [Literal(a), Variable(name)] + Pieces(b)
  {
    hide VariableAt, PiecesFrom, Referenceless, VariableName;
    var rest, x := Reference(name) + b, a + Reference(name);
    var p := x + b;
    assert p == a + rest;
    forall i | 0 <= i < |a|
      ensures VariableAt(p, i).None?
    { NoneStraddles(a, rest, i); }
    ReferenceHere(a, name, b);
    hide Reference;
    PiecesUpTo(p, |a|, name, 0);
    PiecesShifted(x, b, 0, 0);
    assert p[0..|a|] == a;
  }

  /** The marker of a reference is found, if none before it is. */
  lemma MarkerComes(p: Str, at: nat, search: nat)
    requires search <= at <= |p| && VariableAt(p, at).Some?
    ensures search <= IndexOf(p, MARKER, search) <= at
    ensures IndexOf(p, MARKER, search) < at ==> IndexOf(p, MARKER, search) + 2 <= at
  {
    assert OccursAt(p, MARKER, at);
    var index := IndexOf(p, MARKER, search);
    assert p[index..index + 2][1] == p[index + 1] && p[at..at + 2][0] == p[at];
  }

  lemma ReferenceHere(a: Str, name: Str, b: Str)
    requires VariableName(name)
    ensures VariableAt(a + Reference(name) + b, |a|) == Some(name)
  {
    var p := a + Reference(name) + b;
    assert p[|a|..|a| + |Reference(name)|] == Reference(name);
    VariableExactly(p, |a|, name);
  }

  lemma {:induction false} PiecesAlone(a: Str, search: nat)
    requires Referenceless(a) && search <= |a|
    ensures PiecesFrom(a, 0, search) == [Literal(a)]
    decreases |a| - search
  {
    hide VariableAt, PiecesFrom, OccursAt, Referenceless;
    Patterns.PiecesStep(a, 0, search);
    var index := IndexOf(a, MARKER, search);
    if index == -1 {
      assert a[0..] == a;
    } else {
      NoReferenceAt(a, index);
      PiecesAlone(a, index + 2);
    }
  }

  lemma NoReferenceAt(a: Str, i: nat)
    requires Referenceless(a) && i <= |a|
    ensures VariableAt(a, i).None?
  {
    if VariableAt(a, i).Some? { VariableExactly(a, i, VariableAt(a, i).value); }
  }

  // --- what they match -----------------------------------------------------------------------------------

  /** `String(value)`, for the values that have such a text here. */
  predicate Prints(h: Host, v: Value, text: Str) {
    match v
    case Single(String(s)) => text == s
    case Single(Number(n)) => text == h.show(n)
    case Single(Boolean(b)) => text == if b then U("true") else U("false")
    case NonFinite(NaN) => text == U("NaN")
    case NonFinite(Infinity) => text == U("Infinity")
    case NonFinite(MinusInfinity) => text == U("-Infinity")
    case List(_) => false
    case Other => false
  }

  lemma SubstitutionPrints(h: Host, ctx: Context, name: Str, text: Str)
    ensures Substitution(h, ctx, name) == Some(text) <==> name in ctx && Prints(h, ctx[name], text)
  {
    assert NaN.Text() == U("NaN");
    assert Infinity.Text() == U("Infinity");
    assert MinusInfinity.Text() == U("-Infinity");
    hide U, Digitless.Text;
  }

  /** The text splits between characters into these. */
  predicate SplitsInto(value: Str, x: Str, y: Str) { Chars(value) == Chars(x) + Chars(y) }

  lemma SomeSplit(value: Str, k: nat) returns (x: Str, y: Str)
    requires k <= |Chars(value)|
    ensures Chars(x) == Chars(value)[..k] && Chars(y) == Chars(value)[k..] && SplitsInto(value, x, y)
  {
    hide Chars, Join, Separable;
    var cs := Chars(value);
    CharsSeparable(value);
    SeparableParts(cs, k);
    x, y := Join(cs[..k]), Join(cs[k..]);
    CharsJoin(cs[..k]);
    CharsJoin(cs[k..]);
    assert cs == cs[..k] + cs[k..];
  }

  lemma SeparableParts(cs: seq<Str>, k: nat)
    requires Separable(cs) && k <= |cs|
    ensures Separable(cs[..k]) && Separable(cs[k..])
  {
    hide LoneHigh, LoneLow;
    var rest := cs[k..];
    forall i | 0 <= i < |rest| - 1
      ensures !(LoneHigh(rest[i]) && LoneLow(rest[i + 1]))
    { assert rest[i] == cs[k + i] && rest[i + 1] == cs[k + i + 1]; }
  }

  /** Tokens put together accept the texts that split into texts accepted by each. */
  lemma SplitAccepts(a: seq<Token>, b: seq<Token>, value: Str)
    ensures Accepts(a + b, Chars(value)) <==>
            exists x, y :: SplitsInto(value, x, y) && Accepts(a, Chars(x)) && Accepts(b, Chars(y))
  {
    hide Accepts, Chars;
    var cs := Chars(value);
    ConcatAccepts(a, b, cs);
    if Accepts(a + b, cs) {
      var k :| 0 <= k <= |cs| && Accepts(a, cs[..k]) && Accepts(b, cs[k..]);
      var x, y := SomeSplit(value, k);
      assert SplitsInto(value, x, y);
    }
    if x, y :| SplitsInto(value, x, y) && Accepts(a, Chars(x)) && Accepts(b, Chars(y)) {
      assert cs[..|Chars(x)|] == Chars(x) && cs[|Chars(x)|..] == Chars(y);
    }
  }

  /** A substituted value is matched by itself alone. */
  lemma LiteralOnly(text: Str, value: Str)
    ensures Accepts(LiteralTokens(text), Chars(value)) <==> value == text
  {
    LiteralAccepts(LiteralTokens(text), Chars(value));
    assert Values(LiteralTokens(text)) == Chars(text);
    if Chars(value) == Chars(text) { CharsInjective(value, text); }
  }

  lemma ReferencelessMatches(h: Host, a: Str, ctx: Context)
    requires Referenceless(a)
    ensures PatternTokens(h, a, ctx, false) == Some(GlobTokens(a))
  {
    PiecesAlone(a, 0);
    hide PiecesFrom, GlobTokens;
    TokensStep(h, Literal(a), Literal([]), [], ctx, false);
  }

  /** A text that splits into a match of what is before the reference, the value, and a match of what is after it. */
  ghost predicate SplitAround(h: Host, a: Str, v: Value, b: Str, ctx: Context, value: Str) {
    exists x, rest, text, y ::
      && SplitsInto(value, x, rest) && SplitsInto(rest, text, y)
      && PatternMatches(h, a, x, ctx) && Prints(h, v, text) && PatternMatches(h, b, y, ctx)
  }

  /**
   * Substituted values match literally, whatever is in them. What is before the reference is without references; what is
   * after it may hold more. A reference to a key that is absent, or holds a list or an object, matches nothing.
   */
  lemma ReferenceMatches(h: Host, a: Str, name: Str, b: Str, ctx: Context, value: Str)
    requires Referenceless(a) && VariableName(name)
    ensures PatternMatches(h, a + Reference(name) + b, value, ctx) <==> name in ctx && SplitAround(h, a, ctx[name], b, ctx, value)
  {
    WholeTokens(h, a, name, b, ctx);
    ReferencelessMatches(h, a, ctx);
    hide Substitution, Accepts, Chars, GlobTokens, LiteralTokens, Prints, Referenceless, SplitsInto, PatternTokens, Reference, SplitAround;
    if PatternMatches(h, a + Reference(name) + b, value, ctx) {
      var text := Substitution(h, ctx, name).value;
      SubstitutionPrints(h, ctx, name, text);
      var x, rest, y := SplitTwice(GlobTokens(a), text, PatternTokens(h, b, ctx, false).value, value);
      SplitHere(h, a, ctx[name], b, ctx, value, x, rest, text, y);
    }
    if name in ctx && SplitAround(h, a, ctx[name], b, ctx, value) {
      var x, rest, text, y := SomewhereSplit(h, a, ctx[name], b, ctx, value);
      SubstitutionPrints(h, ctx, name, text);
      JoinTwice(GlobTokens(a), text, PatternTokens(h, b, ctx, false).value, value, x, rest, y);
    }
  }

  lemma SplitHere(h: Host, a: Str, v: Value, b: Str, ctx: Context, value: Str, x: Str, rest: Str, text: Str, y: Str)
    requires SplitsInto(value, x, rest) && SplitsInto(rest, text, y)
    requires PatternMatches(h, a, x, ctx) && Prints(h, v, text) && PatternMatches(h, b, y, ctx)
    ensures SplitAround(h, a, v, b, ctx, value)
  {
    hide SplitsInto, PatternMatches, Prints;
  }

  lemma SomewhereSplit(h: Host, a: Str, v: Value, b: Str, ctx: Context, value: Str) returns (x: Str, rest: Str, text: Str, y: Str)
    requires SplitAround(h, a, v, b, ctx, value)
    ensures SplitsInto(value, x, rest) && SplitsInto(rest, text, y)
    ensures PatternMatches(h, a, x, ctx) && Prints(h, v, text) && PatternMatches(h, b, y, ctx)
  {
    hide SplitsInto, PatternMatches, Prints;
    x, rest, text, y :| SplitsInto(value, x, rest) && SplitsInto(rest, text, y)
      && PatternMatches(h, a, x, ctx) && Prints(h, v, text) && PatternMatches(h, b, y, ctx);
  }

  lemma WholeTokens(h: Host, a: Str, name: Str, b: Str, ctx: Context)
    requires Referenceless(a) && VariableName(name)
    ensures var text, after := Substitution(h, ctx, name), PatternTokens(h, b, ctx, false);
            PatternTokens(h, a + Reference(name) + b, ctx, false) ==
            if text.Some? && after.Some? then Some(GlobTokens(a) + (LiteralTokens(text.value) + after.value)) else None
  {
    PiecesBefore(a, name, b);
    hide PiecesFrom, Substitution, GlobTokens, LiteralTokens, Referenceless, PieceTokensOf, Reference, VariableName;
    TokensStep(h, Literal(a), Variable(name), Pieces(b), ctx, false);
    var text, after := Substitution(h, ctx, name), PatternTokens(h, b, ctx, false);
    if text.Some? && after.Some? {
      assert GlobTokens(a) + (LiteralTokens(text.value) + after.value) == GlobTokens(a) + LiteralTokens(text.value) + after.value;
    }
  }

  lemma SplitTwice(a: seq<Token>, text: Str, b: seq<Token>, value: Str) returns (x: Str, rest: Str, y: Str)
    requires Accepts(a + (LiteralTokens(text) + b), Chars(value))
    ensures SplitsInto(value, x, rest) && SplitsInto(rest, text, y) && Accepts(a, Chars(x)) && Accepts(b, Chars(y))
  {
    hide Accepts, LiteralTokens, SplitsInto;
    SplitAccepts(a, LiteralTokens(text) + b, value);
    x, rest :| SplitsInto(value, x, rest) && Accepts(a, Chars(x)) && Accepts(LiteralTokens(text) + b, Chars(rest));
    SplitAccepts(LiteralTokens(text), b, rest);
    var t;
    t, y :| SplitsInto(rest, t, y) && Accepts(LiteralTokens(text), Chars(t)) && Accepts(b, Chars(y));
    LiteralOnly(text, t);
  }

  lemma JoinTwice(a: seq<Token>, text: Str, b: seq<Token>, value: Str, x: Str, rest: Str, y: Str)
    requires SplitsInto(value, x, rest) && SplitsInto(rest, text, y) && Accepts(a, Chars(x)) && Accepts(b, Chars(y))
    ensures Accepts(a + (LiteralTokens(text) + b), Chars(value))
  {
    hide Accepts, LiteralTokens, SplitsInto;
    LiteralOnly(text, text);
    SplitAccepts(LiteralTokens(text), b, rest);
    SplitAccepts(a, LiteralTokens(text) + b, value);
  }

  lemma NothingMatches(h: Host, value: Str, ctx: Context)
    ensures PatternMatches(h, [], value, ctx) <==> value == []
  {
    assert Referenceless([]);
    ReferencelessMatches(h, [], ctx);
  }

  /** A reference alone is matched by exactly the text of its value. */
  lemma ReferenceAlone(h: Host, name: Str, ctx: Context, value: Str)
    requires VariableName(name)
    ensures PatternMatches(h, Reference(name), value, ctx) <==> name in ctx && Prints(h, ctx[name], value)
  {
    assert Referenceless([]);
    assert [] + Reference(name) + [] == Reference(name);
    ReferenceMatches(h, [], name, [], ctx, value);
    hide PatternMatches, Prints, Reference, VariableName, Referenceless;
    if name in ctx && Prints(h, ctx[name], value) {
      NothingMatches(h, [], ctx);
      assert SplitsInto(value, [], value) && SplitsInto(value, value, []);
    }
    if name in ctx && SplitAround(h, [], ctx[name], [], ctx, value) {
      var x, rest, text, y :| SplitsInto(value, x, rest) && SplitsInto(rest, text, y)
        && PatternMatches(h, [], x, ctx) && Prints(h, ctx[name], text) && PatternMatches(h, [], y, ctx);
      NothingMatches(h, x, ctx);
      NothingMatches(h, y, ctx);
      assert Chars(value) == Chars(text);
      CharsInjective(value, text);
    }
  }

  /** What one character of a pattern is matched by. */
  predicate CharacterMatches(c: Str, x: Str) {
    if c == U("*") then true else if c == U("?") then IsChar(x) else x == c
  }

  lemma OneToken(c: Str, x: Str)
    requires IsChar(c)
    ensures Accepts([Classify(c)], Chars(x)) <==> CharacterMatches(c, x)
  {
    var token := Classify(c);
    assert [token][1..] == [];
    AllStarsAccept([Star], Chars(x));
    if x != [] { JoinChars(x); }
    if IsChar(x) { CharsOfChar(x); }
    CharsOfChar(c);
    assert U("*") == STAR && U("?") == QUESTION;
    if Chars(x) == Chars(c) { CharsInjective(x, c); }
    if |Chars(x)| == 1 { assert Join(Chars(x)) == Chars(x)[0] + Join(Chars(x)[1..]); }
  }

  /**
   * Without references a pattern is a glob: its first character is matched by any text if it is a star, by any one
   * character if it is a question mark, and by itself otherwise; the rest of the pattern by the rest of the text.
   */
  lemma FirstCharacterMatches(h: Host, p: Str, ctx: Context, value: Str)
    requires Referenceless(p) && p != []
    ensures PatternMatches(h, p, value, ctx) <==>
            exists x, y :: SplitsInto(value, x, y) && CharacterMatches(p[..FirstLength(p)], x)
                           && PatternMatches(h, p[FirstLength(p)..], y, ctx)
  {
    var n := FirstLength(p);
    var c, rest := p[..n], p[n..];
    ReferencelessTail(p, n);
    ReferencelessMatches(h, p, ctx);
    ReferencelessMatches(h, rest, ctx);
    assert GlobTokens(p) == [Classify(c)] + GlobTokens(rest);
    SplitAccepts([Classify(c)], GlobTokens(rest), value);
    hide Accepts, Chars, GlobTokens, Classify, CharacterMatches, SplitsInto, PatternTokens;
    forall x
      ensures Accepts([Classify(c)], Chars(x)) <==> CharacterMatches(c, x)
    { OneToken(c, x); }
  }

  lemma ReferencelessTail(p: Str, n: nat)
    requires Referenceless(p) && n <= |p|
    ensures Referenceless(p[n..])
  {
    hide OccursAt, Reference, VariableName;
    forall name, i: nat | VariableName(name)
      ensures !OccursAt(p[n..], Reference(name), i)
    {
      OccursShifted(p[..n], p[n..], Reference(name), i);
      assert p[..n] + p[n..] == p;
    }
  }

  // --- what they resolve to ------------------------------------------------------------------------------

  function TokenText(token: Token): Str { match token case Star => STAR case Any => QUESTION case Char(c) => c }

  function TokenTexts(tokens: seq<Token>): (r: seq<Str>)
    ensures |r| == |tokens|
  {
    seq(|tokens|, i requires 0 <= i < |tokens| => TokenText(tokens[i]))
  }

  lemma {:induction false} PlainJoins(tokens: seq<Token>)
    ensures PlainText(tokens) == Join(TokenTexts(tokens))
  {
    if tokens != [] {
      PlainJoins(tokens[1..]);
      assert TokenTexts(tokens)[1..] == TokenTexts(tokens[1..]);
    }
  }

  lemma PlainConcat(a: seq<Token>, b: seq<Token>)
    ensures PlainText(a + b) == PlainText(a) + PlainText(b)
  {
    hide PlainText, Join;
    PlainJoins(a);
    PlainJoins(b);
    PlainJoins(a + b);
    JoinConcat(TokenTexts(a), TokenTexts(b));
    assert TokenTexts(a + b) == TokenTexts(a) + TokenTexts(b);
  }

  lemma PlainTexts(s: Str)
    ensures PlainText(GlobTokens(s)) == s && PlainText(LiteralTokens(s)) == s
  {
    hide PlainText, Join, Chars;
    PlainJoins(GlobTokens(s));
    PlainJoins(LiteralTokens(s));
    assert TokenTexts(GlobTokens(s)) == Chars(s) == TokenTexts(LiteralTokens(s));
    JoinChars(s);
  }

  /** A condition value without references is itself. */
  lemma ReferencelessResolves(h: Host, p: Str, ctx: Context)
    requires Referenceless(p)
    ensures ResolveValue(h, p, ctx) == Some(p)
  {
    ReferencelessMatches(h, p, ctx);
    PlainTexts(p);
  }

  /** A reference in a condition value is replaced by the text of its value, and resolved only if it has one. */
  lemma ReferenceResolves(h: Host, a: Str, name: Str, b: Str, ctx: Context, text: Str)
    requires Referenceless(a) && VariableName(name)
    ensures var whole, after := ResolveValue(h, a + Reference(name) + b, ctx), ResolveValue(h, b, ctx);
            && (name in ctx && Prints(h, ctx[name], text) && after.Some? ==> whole == Some(a + text + after.value))
            && (whole.Some? ==> name in ctx && (exists t :: Prints(h, ctx[name], t)) && after.Some?)
  {
    hide *;
    ResolvedTokens(h, b, ctx);
    ResolvedTokens(h, a + Reference(name) + b, ctx);
    WholeTokens(h, a, name, b, ctx);
    SubstitutionPrints(h, ctx, name, text);
    var value, after := Substitution(h, ctx, name), PatternTokens(h, b, ctx, false);
    if value.Some? {
      SubstitutionPrints(h, ctx, name, value.value);
      if after.Some? { PlainAround(a, value.value, after.value); }
    }
  }

  /** A condition value resolves to the text of its tokens. */
  lemma ResolvedTokens(h: Host, p: Str, ctx: Context)
    ensures var tokens := PatternTokens(h, p, ctx, false);
            ResolveValue(h, p, ctx) == if tokens.Some? then Some(PlainText(tokens.value)) else None
  {
    hide PatternTokens, GlobTokens, PlainText;
    if IndexOf(p, MARKER, 0) == -1 {
      PlainPattern(h, p, ctx, false);
      PlainTexts(p);
    }
  }

  lemma PlainAround(a: Str, text: Str, after: seq<Token>)
    ensures PlainText(GlobTokens(a) + (LiteralTokens(text) + after)) == a + text + PlainText(after)
  {
    hide *;
    PlainTexts(a);
    PlainTexts(text);
    PlainConcat(GlobTokens(a), LiteralTokens(text) + after);
    PlainConcat(LiteralTokens(text), after);
    assert a + (text + PlainText(after)) == a + text + PlainText(after);
  }

  // --- validation ----------------------------------------------------------------------------------------

  lemma MarkerStart(p: Str, i: nat)
    ensures OccursAt(p, MARKER, i) ==> i + 2 <= |p| && p[i] == 36
  {
    if OccursAt(p, MARKER, i) { assert p[i..i + 2][0] == p[i]; }
  }

  /** No marker starts inside a reference. */
  lemma NoMarkerInside(p: Str, i: nat, name: Str)
    requires i <= |p| && VariableAt(p, i) == Some(name)
    ensures forall k: nat :: i < k < i + 3 + |name| ==> !OccursAt(p, MARKER, k)
  {
    VariableExactly(p, i, name);
    ReferenceUnits(p, i, name);
    hide VariableAt;
    forall k: nat | i < k < i + 3 + |name|
      ensures !OccursAt(p, MARKER, k)
    {
      MarkerStart(p, k);
      if i + 2 <= k < i + 2 + |name| { assert p[i + 2..i + 2 + |name|][k - i - 2] == p[k]; }
    }
  }

  lemma {:induction false} MarkersOpen(p: Str, search: nat)
    requires search <= |p|
    ensures ValidVariables(p, search) <==> forall k: nat :: search <= k <= |p| && OccursAt(p, MARKER, k) ==> VariableAt(p, k).Some?
    decreases |p| - search
  {
    hide VariableAt, OccursAt;
    var index := IndexOf(p, MARKER, search);
    if index != -1 && VariableAt(p, index).Some? {
      var name := VariableAt(p, index).value;
      NoMarkerInside(p, index, name);
      MarkersOpen(p, index + 3 + |name|);
    }
  }

  /** Validation asks exactly that a well-formed reference is written wherever its two first characters are. */
  lemma VariablesExactly(p: Str)
    ensures ValidVariables(p, 0) <==>
            forall i: nat :: OccursAt(p, MARKER, i) ==> exists name :: VariableName(name) && OccursAt(p, Reference(name), i)
  {
    MarkersOpen(p, 0);
    hide ValidVariables, VariableAt, VariableName, Reference;
    forall i: nat | OccursAt(p, MARKER, i)
      ensures i <= |p|
      ensures VariableAt(p, i).Some? <==> exists name :: VariableName(name) && OccursAt(p, Reference(name), i)
    {
      MarkerStart(p, i);
      if VariableAt(p, i).Some? { VariableExactly(p, i, VariableAt(p, i).value); }
      if name :| VariableName(name) && OccursAt(p, Reference(name), i) { VariableExactly(p, i, name); }
    }
  }

  predicate SlashBefore(p: Str, i: nat) { exists j :: 0 <= j < i && j < |p| && p[j] == 47 }

  lemma SlashFound(p: Str, k: nat)
    ensures OccursAt(p, [47], k) <==> k < |p| && p[k] == 47
  {
    if k < |p| { assert p[k..k + 1] == [p[k]]; }
  }

  lemma MarkerUnits(p: Str, i: nat)
    ensures OccursAt(p, MARKER, i) <==> i + 2 <= |p| && p[i] == 36 && p[i + 1] == 123
  {
    if i + 2 <= |p| { assert p[i..i + 2] == [p[i], p[i + 1]]; }
  }

  /** A marker stands in the type exactly when no slash is before it. */
  lemma MarkerInType(p: Str, i: nat)
    ensures OccursAt(TypeText(p), MARKER, i) <==> OccursAt(p, MARKER, i) && !SlashBefore(p, i)
  {
    var slash := IndexOf(p, [47], 0);
    MarkerUnits(p, i);
    MarkerUnits(TypeText(p), i);
    if slash != -1 { SlashFound(p, slash); }
    hide OccursAt, IndexOf;
    forall k: nat | k < |p| && p[k] == 47
      ensures 0 <= slash <= k
    { SlashFound(p, k); }
    if slash != -1 && OccursAt(p, MARKER, i) && i < slash { assert i + 1 != slash; }
  }

  /** A resource pattern may hold variables only where a slash is before them, and only well-formed ones. */
  lemma ResourceExactly(p: Str)
    ensures ValidResource(p) <==>
            && NonEmptyText(p, 512)
            && forall i: nat :: OccursAt(p, MARKER, i) ==>
                 SlashBefore(p, i) && exists name :: VariableName(name) && OccursAt(p, Reference(name), i)
  {
    VariablesExactly(p);
    hide ValidVariables, OccursAt, TypeText, SlashBefore, VariableName, NonEmptyText, IndexOf, Reference;
    forall i: nat
      ensures OccursAt(TypeText(p), MARKER, i) <==> OccursAt(p, MARKER, i) && !SlashBefore(p, i)
    { MarkerInType(p, i); }
  }
}
