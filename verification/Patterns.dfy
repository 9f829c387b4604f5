/** Values, contexts, and policy variables: `${name}` inside a pattern or a string condition value. */
module Patterns {
  import opened Wrappers
  import opened Text
  import opened Glob

  /** What a policy or a filter compares with. */
  datatype Scalar = String(text: Str) | Number(value: real) | Boolean(flag: bool)

  /** The numbers without digits, and the texts they substitute as. */
  datatype Digitless = NaN | Infinity | MinusInfinity {
    function Text(): (r: Str)
      ensures r != [] && forall i :: 0 <= i < |r| ==> r[i] < 128
    {
      match this
      case NaN => [78, 97, 78]
      case Infinity => [73, 110, 102, 105, 110, 105, 116, 121]
      case MinusInfinity => [45, 73, 110, 102, 105, 110, 105, 116, 121]
    }
  }

  /** What a context key or a resource attribute holds. */
  datatype Value =
    | Single(scalar: Scalar)
    | List(items: seq<Value>)
    | NonFinite(number: Digitless)
    | Other

  type Context = map<Str, Value>

  function Texts(items: seq<Str>): (r: seq<Value>)
    ensures |r| == |items| && forall i :: 0 <= i < |items| ==> r[i] == Single(String(items[i]))
  {
    seq(|items|, i requires 0 <= i < |items| => Single(String(items[i])))
  }

  /** What the language and the platform provide; both sides of every comparison use the same functions. */
  datatype Host = Host(
    lower: Str -> Str,
    show: real -> Str,
    timestamp: Str -> Option<int>,
    isAddress: Str -> bool,
    isRange: Str -> bool,
    inNetwork: (Str, Str) -> bool)
  {
    /** Every character already is its own lower-case form. */
    ghost predicate Lowered(s: Str) { EveryChar(s, c => lower(c) == c) }

    /**
     * Lower-casing yields characters that are their own lower-case form, leaves such text and ASCII without capitals
     * alone, turns an ASCII capital into its small letter, and neither makes nor splits surrogate pairs; numbers print
     * as ASCII without capitals; an address is a range without a slash.
     */
    ghost predicate Lawful() {
      && (forall s :: Lowered(lower(s)))
      && (forall s :: Lowered(s) ==> lower(s) == s)
      && (forall s :: Clean(s) ==> Clean(lower(s)))
      && (forall u: CodeUnit {:trigger Plain(u)} :: Plain(u) ==> lower([u]) == [u])
      && (forall u: CodeUnit {:trigger Capital(u)} :: Capital(u) ==> lower([u]) == [u + 32])
      && (forall n :: AllPlain(show(n)))
      && (forall s :: isAddress(s) <==> 47 !in s && isRange(s))
    }
  }

  /** ASCII, but no capital letter. */
  predicate Plain(u: CodeUnit) { u < 128 && !Capital(u) }

  predicate Capital(u: CodeUnit) { 65 <= u <= 90 }

  predicate AllPlain(s: Str) { forall i :: 0 <= i < |s| ==> Plain(s[i]) }

  /** ASCII lower-casing, unit by unit. */
  function SmallUnit(u: CodeUnit): CodeUnit { if Capital(u) then u + 32 else u }

  function Small(s: Str): (r: Str)
    ensures |r| == |s| && forall i :: 0 <= i < |s| ==> r[i] == SmallUnit(s[i])
  {
    seq(|s|, i requires 0 <= i < |s| => SmallUnit(s[i]))
  }

  lemma {:induction false} SmallChars(s: Str)
    ensures |Chars(Small(s))| == |Chars(s)|
    ensures forall i :: 0 <= i < |Chars(s)| ==> Chars(Small(s))[i] == Small(Chars(s)[i])
  {
    if s != [] {
      var n := FirstLength(s);
      SmallChars(s[n..]);
      assert Small(s)[n..] == Small(s[n..]) && Small(s)[..n] == Small(s[..n]);
      assert FirstLength(Small(s)) == n;
    }
  }

  lemma SmallTwice(s: Str)
    ensures Small(Small(s)) == Small(s)
  {}

  lemma {:induction false} SmallFixes(s: Str)
    requires forall i :: 0 <= i < |Chars(s)| ==> Small(Chars(s)[i]) == Chars(s)[i]
    ensures Small(s) == s
  {
    SmallChars(s);
    assert Chars(Small(s)) == Chars(s);
    CharsInjective(Small(s), s);
  }

  /** A host that lower-cases ASCII only and knows no moments and addresses. */
  function PlainHost(): Host { Host(Small, n => [48], s => None, s => false, s => false, (a, b) => false) }

  /** There is a lawful host. */
  lemma SomeLawful()
    ensures PlainHost().Lawful()
  {
    var h := PlainHost();
    forall s
      ensures h.Lowered(h.lower(s)) && (h.Lowered(s) ==> h.lower(s) == s) && (Clean(s) ==> Clean(h.lower(s)))
    { SmallLawful(s); }
    hide Chars;
    forall u: CodeUnit
      ensures Capital(u) ==> h.lower([u]) == [u + 32]
      ensures Plain(u) ==> h.lower([u]) == [u]
    {}
  }

  lemma SmallLawful(s: Str)
    ensures forall i :: 0 <= i < |Chars(Small(s))| ==> Small(Chars(Small(s))[i]) == Chars(Small(s))[i]
    ensures (forall i :: 0 <= i < |Chars(s)| ==> Small(Chars(s)[i]) == Chars(s)[i]) ==> Small(s) == s
    ensures Clean(s) ==> Clean(Small(s))
  {
    SmallChars(s);
    hide Chars;
    forall i | 0 <= i < |Chars(Small(s))|
      ensures Small(Chars(Small(s))[i]) == Chars(Small(s))[i]
    { SmallTwice(Chars(s)[i]); }
    if forall i :: 0 <= i < |Chars(s)| ==> Small(Chars(s)[i]) == Chars(s)[i] { SmallFixes(s); }
  }

  const MARKER: Str := [36, 123]
  const RESOURCE: Str := U("resource.")

  predicate Letter(u: CodeUnit) { 65 <= u <= 90 || 97 <= u <= 122 || u == 95 }

  predicate NameUnit(u: CodeUnit) { Letter(u) || 48 <= u <= 57 || u == 46 || u == 58 || u == 45 }

  function RunEnd(p: Str, at: nat): (end: nat)
    requires at <= |p|
    ensures at <= end <= |p|
    decreases |p| - at
  {
    if at < |p| && NameUnit(p[at]) then RunEnd(p, at + 1) else at
  }

  /** The reference at `i`: `${`, a name of at most 128 characters, `}`. */
  function VariableAt(p: Str, i: nat): (r: Option<Str>)
    requires i <= |p|
    ensures r.Some? ==> i + 3 + |r.value| <= |p|
  {
    if i + 2 < |p| && p[i..i + 2] == MARKER && Letter(p[i + 2]) then
      var end := RunEnd(p, i + 3);
      if end < |p| && p[end] == 125 && end - (i + 3) <= 127 then Some(p[i + 2..end]) else None
    else None
  }

  datatype Piece = Literal(text: Str) | Variable(name: Str)

  /** The pattern as literal text and references; a malformed reference is literal text. */
  function PiecesFrom(p: Str, cursor: nat, search: nat): (pieces: seq<Piece>)
    requires cursor <= search <= |p|
    decreases |p| - search
  {
    var index := IndexOf(p, MARKER, search);
    if index == -1 then [Literal(p[cursor..])]
    else match VariableAt(p, index)
      case None => PiecesFrom(p, cursor, index + 2)
      case Some(name) =>
        var next := index + 3 + |name|;
        [Literal(p[cursor..index]), Variable(name)] + PiecesFrom(p, next, next)
  }

  function Pieces(p: Str): seq<Piece> { PiecesFrom(p, 0, 0) }

  /** `String(value)` of a context value a variable may take; lists, objects and absent keys never substitute. */
  function Substitution(h: Host, ctx: Context, name: Str): Option<Str> {
    if name !in ctx then None
    else match ctx[name]
      case Single(String(s)) => Some(s)
      case Single(Number(n)) => Some(h.show(n))
      case Single(Boolean(b)) => Some(if b then U("true") else U("false"))
      case NonFinite(number) => Some(number.Text())
      case List(_) => None
      case Other => None
  }

  const TENANT_KEY: Str := U("resource.tenantId")
  const RELATIONS_KEY: Str := U("resource.relations")
  const PARENT_RELATIONS_KEY: Str := U("resource.parentRelations")

  predicate ConstantKey(name: Str) {
    name == TENANT_KEY || name == RELATIONS_KEY || name == PARENT_RELATIONS_KEY
  }

  predicate IsResourceKey(name: Str) { OccursAt(name, RESOURCE, 0) }

  /** A variable whose value is the resource's own. */
  predicate RowVariable(name: Str) { IsResourceKey(name) && !ConstantKey(name) }

  /** The tokens of one piece; with `rowAsStar`, a row variable is the widest thing it could become. */
  function TokensOfPiece(h: Host, piece: Piece, ctx: Context, rowAsStar: bool): (r: Option<seq<Token>>)
    ensures r.Some? ==> Valid(r.value)
  {
    match piece
    case Literal(text) => Some(GlobTokens(text))
    case Variable(name) =>
      if rowAsStar && RowVariable(name) then Some([Star])
      else match Substitution(h, ctx, name)
        case None => None
        case Some(text) => Some(LiteralTokens(text))
  }

  function PieceTokensOf(h: Host, pieces: seq<Piece>, ctx: Context, rowAsStar: bool): (r: Option<seq<Token>>)
    ensures r.Some? ==> Valid(r.value)
  {
    if pieces == [] then Some([])
    else Both(TokensOfPiece(h, pieces[0], ctx, rowAsStar), PieceTokensOf(h, pieces[1..], ctx, rowAsStar))
  }

  function Both(a: Option<seq<Token>>, b: Option<seq<Token>>): Option<seq<Token>> {
    if a.None? || b.None? then None else Some(a.value + b.value)
  }

  function PatternTokens(h: Host, pattern: Str, ctx: Context, rowAsStar: bool): Option<seq<Token>> {
    PieceTokensOf(h, Pieces(pattern), ctx, rowAsStar)
  }

  /** Some reference among the pieces is to a row variable. */
  predicate NamesRowVariable(pieces: seq<Piece>) {
    pieces != [] && ((pieces[0].Variable? && RowVariable(pieces[0].name)) || NamesRowVariable(pieces[1..]))
  }

  lemma BothAssociative(a: Option<seq<Token>>, b: Option<seq<Token>>, c: Option<seq<Token>>)
    ensures Both(Both(a, b), c) == Both(a, Both(b, c))
    ensures Both(Some([]), a) == a == Both(a, Some([]))
  {
    if a.Some? {
      assert [] + a.value == a.value == a.value + [];
      if b.Some? && c.Some? { assert (a.value + b.value) + c.value == a.value + (b.value + c.value); }
    }
  }

  /** One turn of the scan: skip a malformed reference, or take the text before a reference and the reference. */
  lemma PiecesStep(p: Str, cursor: nat, search: nat)
    requires cursor <= search <= |p|
    ensures var index := IndexOf(p, MARKER, search);
            if index == -1 then PiecesFrom(p, cursor, search) == [Literal(p[cursor..])]
            else match VariableAt(p, index)
              case None => PiecesFrom(p, cursor, search) == PiecesFrom(p, cursor, index + 2)
              case Some(name) =>
                var next := index + 3 + |name|;
                PiecesFrom(p, cursor, search) == [Literal(p[cursor..index]), Variable(name)] + PiecesFrom(p, next, next)
  {}

  lemma TokensStep(h: Host, a: Piece, b: Piece, rest: seq<Piece>, ctx: Context, rowAsStar: bool)
    ensures PieceTokensOf(h, [a], ctx, rowAsStar) == TokensOfPiece(h, a, ctx, rowAsStar)
    ensures PieceTokensOf(h, [a, b] + rest, ctx, rowAsStar) ==
            Both(Both(TokensOfPiece(h, a, ctx, rowAsStar), TokensOfPiece(h, b, ctx, rowAsStar)),
                 PieceTokensOf(h, rest, ctx, rowAsStar))
  {
    var pieces := [a, b] + rest;
    assert pieces[1..] == [b] + rest && pieces[1..][1..] == rest && [a][1..] == [];
    BothAssociative(TokensOfPiece(h, a, ctx, rowAsStar), TokensOfPiece(h, b, ctx, rowAsStar),
      PieceTokensOf(h, rest, ctx, rowAsStar));
  }

  /** `tokenize`: a pattern's tokens with variables substituted; none when a variable is unresolved. */
  method Tokenize(h: Host, pattern: Str, ctx: Context, rowAsStar: bool) returns (r: Option<seq<Token>>)
    ensures r == PatternTokens(h, pattern, ctx, rowAsStar)
  {
    hide RowVariable, VariableAt, OccursAt, Substitution, PiecesFrom, PieceTokensOf, GlobTokens;
    var tokens := [];
    var cursor: nat, search: nat := 0, 0;
    BothAssociative(PatternTokens(h, pattern, ctx, rowAsStar), None, None);
    var index: int := IndexOf(pattern, MARKER, search);
    while index != -1
      invariant cursor <= search <= |pattern|
      invariant index == IndexOf(pattern, MARKER, search)
      invariant PatternTokens(h, pattern, ctx, rowAsStar) ==
                Both(Some(tokens), PieceTokensOf(h, PiecesFrom(pattern, cursor, search), ctx, rowAsStar))
      decreases |pattern| - search
    {
      PiecesStep(pattern, cursor, search);
      var reference := VariableAt(pattern, index);
      if reference.None? {
        search := index + 2;
      } else {
        var name := reference.value;
        var next: nat := index + 3 + |name|;
        var text := GlobTokens(pattern[cursor..index]);
        var value := Substitution(h, ctx, name);
        ghost var rest := PiecesFrom(pattern, next, next);
        TokensStep(h, Literal(pattern[cursor..index]), Variable(name), rest, ctx, rowAsStar);
        BothAssociative(Some(tokens), Some(text), TokensOfPiece(h, Variable(name), ctx, rowAsStar));
        BothAssociative(Some(tokens), Both(Some(text), TokensOfPiece(h, Variable(name), ctx, rowAsStar)),
          PieceTokensOf(h, rest, ctx, rowAsStar));
        tokens := tokens + text;
        if rowAsStar && RowVariable(name) {
          tokens := tokens + [Star];
        } else if value.None? {
          return None;
        } else {
          tokens := tokens + LiteralTokens(value.value);
        }
        cursor, search := next, next;
      }
      index := IndexOf(pattern, MARKER, search);
    }
    PiecesStep(pattern, cursor, search);
    TokensStep(h, Literal(pattern[cursor..]), Literal([]), [], ctx, rowAsStar);
    r := Some(tokens + GlobTokens(pattern[cursor..]));
  }

  lemma RowVariableFirst(text: Str, name: Str, rest: seq<Piece>)
    ensures NamesRowVariable([Literal(text), Variable(name)] + rest) <==> RowVariable(name) || NamesRowVariable(rest)
  {
    var pieces := [Literal(text), Variable(name)] + rest;
    assert pieces[1..] == [Variable(name)] + rest && pieces[1..][1..] == rest;
  }

  lemma LiteralNamesNothing(text: Str)
    ensures !NamesRowVariable([Literal(text)])
  {
    assert [Literal(text)][1..] == [];
  }

  /** `hasRowVariable`. */
  method HasRowVariable(value: Str) returns (r: bool)
    ensures r <==> NamesRowVariable(Pieces(value))
  {
    hide RowVariable, VariableAt, OccursAt, PiecesFrom, NamesRowVariable, IndexOf;
    ghost var cursor: nat := 0;
    var search: nat := 0;
    var index: int := IndexOf(value, MARKER, search);
    while index != -1
      invariant cursor <= search <= |value|
      invariant index == IndexOf(value, MARKER, search)
      invariant NamesRowVariable(Pieces(value)) <==> NamesRowVariable(PiecesFrom(value, cursor, search))
      decreases |value| - search
    {
      PiecesStep(value, cursor, search);
      var reference := VariableAt(value, index);
      if reference.None? {
        search := index + 2;
      } else {
        var next: nat := index + 3 + |reference.value|;
        RowVariableFirst(value[cursor..index], reference.value, PiecesFrom(value, next, next));
        if RowVariable(reference.value) {
          return true;
        }
        cursor, search := next, next;
      }
      index := IndexOf(value, MARKER, search);
    }
    PiecesStep(value, cursor, search);
    LiteralNamesNothing(value[cursor..]);
    r := false;
  }

  /** `resolvePolicyValue`: a condition value with its variables substituted. */
  function ResolveValue(h: Host, value: Str, ctx: Context): Option<Str> {
    if IndexOf(value, MARKER, 0) == -1 then Some(value)
    else match PatternTokens(h, value, ctx, false)
      case None => None
      case Some(tokens) => Some(PlainText(tokens))
  }

  /** The text tokens stand for, wildcards as themselves. */
  function PlainText(tokens: seq<Token>): Str {
    if tokens == [] then []
    else (match tokens[0] case Star => STAR case Any => QUESTION case Char(c) => c) + PlainText(tokens[1..])
  }

  /** The meaning of `matchPattern`: the value matches the pattern's tokens as a glob over characters. */
  predicate PatternMatches(h: Host, pattern: Str, value: Str, ctx: Context) {
    var tokens := PatternTokens(h, pattern, ctx, false);
    tokens.Some? && Accepts(tokens.value, Chars(value))
  }

  lemma PlainPattern(h: Host, pattern: Str, ctx: Context, rowAsStar: bool)
    requires IndexOf(pattern, MARKER, 0) == -1
    ensures PatternTokens(h, pattern, ctx, rowAsStar) == Some(GlobTokens(pattern))
    ensures !NamesRowVariable(Pieces(pattern))
  {
    assert Pieces(pattern) == [Literal(pattern)] && pattern[0..] == pattern;
    assert Pieces(pattern)[1..] == [];
    LiteralNamesNothing(pattern);
    TokensStep(h, Literal(pattern), Literal([]), [], ctx, rowAsStar);
  }

  predicate HasSurrogate(s: Str) { exists i :: 0 <= i < |s| && Surrogate(s[i]) }

  /** Without surrogates and `?`, matching units by pieces is matching characters by tokens. */
  lemma UnitsAreChars(pattern: Str, value: Str)
    requires !HasSurrogate(pattern) && !HasSurrogate(value)
    ensures GlobTokens(pattern) == ClassifyAll(Units(pattern)) && Chars(value) == Units(value)
  {
    CharsOfUnits(pattern);
    CharsOfUnits(value);
    assert Chars(value) == Units(value);
    assert Chars(pattern) == Units(pattern);
  }

  // --- substitution and row variables --------------------------------------------------------------

  /** Contexts that agree on the keys every row shares; lists never substitute, so they may differ. */
  ghost predicate AgreeOffRow(a: Context, b: Context) {
    forall name :: !RowVariable(name) ==>
      && (name in a <==> name in b)
      && (name in a ==> a[name] == b[name] || (a[name].List? && b[name].List?))
  }

  lemma AgreeSubstitution(h: Host, a: Context, b: Context, name: Str)
    requires AgreeOffRow(a, b) && !RowVariable(name)
    ensures Substitution(h, a, name) == Substitution(h, b, name)
  {}

  lemma {:induction false} SameTokens(h: Host, pieces: seq<Piece>, a: Context, b: Context)
    requires AgreeOffRow(a, b) && !NamesRowVariable(pieces)
    ensures PieceTokensOf(h, pieces, a, false) == PieceTokensOf(h, pieces, b, false)
  {
    if pieces != [] {
      SameTokens(h, pieces[1..], a, b);
    }
  }

  lemma SameResolution(h: Host, value: Str, a: Context, b: Context)
    requires AgreeOffRow(a, b) && !NamesRowVariable(Pieces(value))
    ensures ResolveValue(h, value, a) == ResolveValue(h, value, b)
  {
    SameTokens(h, Pieces(value), a, b);
  }

  /** Whatever a row puts in its variables, the pattern with stars in their place is at least as wide. */
  lemma {:induction false} WidestContains(h: Host, pieces: seq<Piece>, shared: Context, row: Context, cs: seq<Str>)
    requires AgreeOffRow(shared, row)
    requires PieceTokensOf(h, pieces, row, false).Some?
    requires Accepts(PieceTokensOf(h, pieces, row, false).value, cs)
    ensures PieceTokensOf(h, pieces, shared, true).Some?
    ensures Accepts(PieceTokensOf(h, pieces, shared, true).value, cs)
  {
    hide Substitution, RowVariable, Accepts;
    if pieces != [] {
      var tail := PieceTokensOf(h, pieces[1..], row, false).value;
      var all := PieceTokensOf(h, pieces, row, false).value;
      var head := all[..|all| - |tail|];
      assert all == head + tail;
      ConcatAccepts(head, tail, cs);
      var k :| 0 <= k <= |cs| && Accepts(head, cs[..k]) && Accepts(tail, cs[k..]);
      WidestContains(h, pieces[1..], shared, row, cs[k..]);
      if pieces[0].Variable? && !RowVariable(pieces[0].name) { AgreeSubstitution(h, shared, row, pieces[0].name); }
      var wide := PieceTokensOf(h, pieces[1..], shared, true).value;
      var first := if pieces[0].Variable? && RowVariable(pieces[0].name) then [Star] else head;
      assert PieceTokensOf(h, pieces, shared, true) == Some(first + wide);
      AllStarsAccept([Star], cs[..k]);
      SplitBackward(first, wide, cs, k);
    }
  }

  // --- characters of tokens ------------------------------------------------------------------------

  ghost predicate EveryLiteral(tokens: seq<Token>, P: Str -> bool) {
    forall i :: 0 <= i < |tokens| && tokens[i].Char? ==> P(tokens[i].value)
  }

  ghost predicate EveryLiteralPiece(pieces: seq<Piece>, P: Str -> bool) {
    forall i :: 0 <= i < |pieces| && pieces[i].Literal? ==> EveryChar(pieces[i].text, P)
  }

  /** References start and end with ASCII, so the pieces have the pattern's own characters. */
  lemma {:induction false} PiecesKeepChars(p: Str, cursor: nat, search: nat, P: Str -> bool)
    requires cursor <= search <= |p| && EveryChar(p[cursor..], P)
    ensures EveryLiteralPiece(PiecesFrom(p, cursor, search), P)
    decreases |p| - search
  {
    hide EveryChar, OccursAt, VariableAt, PiecesFrom;
    var index := IndexOf(p, MARKER, search);
    PiecesStep(p, cursor, search);
    if index != -1 {
      match VariableAt(p, index)
      case None => PiecesKeepChars(p, cursor, index + 2, P);
      case Some(name) =>
        var next := index + 3 + |name|;
        ReferenceSplits(p, cursor, index, P);
        PiecesKeepChars(p, next, next, P);
    }
  }

  lemma ReferenceSplits(p: Str, cursor: nat, index: nat, P: Str -> bool)
    requires cursor <= index <= |p| && VariableAt(p, index).Some? && EveryChar(p[cursor..], P)
    ensures var next := index + 3 + |VariableAt(p, index).value|;
            EveryChar(p[cursor..index], P) && EveryChar(p[next..], P)
  {
    hide EveryChar;
    var next := index + 3 + |VariableAt(p, index).value|;
    ReferenceEdges(p, index);
    hide VariableAt;
    assert p[cursor..] == p[cursor..index] + p[index..];
    EveryCharConcat(p[cursor..index], p[index..], P);
    assert p[index..] == p[index..next] + p[next..];
    EveryCharConcat(p[index..next], p[next..], P);
  }

  lemma ReferenceEdges(p: Str, index: nat)
    requires index <= |p| && VariableAt(p, index).Some?
    ensures p[index] == 36 && p[index + 2 + |VariableAt(p, index).value|] == 125
  {
    assert p[index..index + 2][0] == p[index];
  }

  /** What the references among the pieces substitute is made of such characters. */
  ghost predicate EverySubstitution(h: Host, pieces: seq<Piece>, ctx: Context, P: Str -> bool) {
    forall i :: 0 <= i < |pieces| && pieces[i].Variable? && Substitution(h, ctx, pieces[i].name).Some? ==>
      EveryChar(Substitution(h, ctx, pieces[i].name).value, P)
  }

  lemma PiecesTail(h: Host, pieces: seq<Piece>, ctx: Context, P: Str -> bool)
    requires pieces != [] && EveryLiteralPiece(pieces, P) && EverySubstitution(h, pieces, ctx, P)
    ensures EveryLiteralPiece(pieces[1..], P) && EverySubstitution(h, pieces[1..], ctx, P)
  {
    hide Substitution, EveryChar;
    forall i | 0 <= i < |pieces[1..]|
      ensures pieces[1..][i] == pieces[i + 1]
    {}
  }

  lemma {:induction false} TokensKeepChars(h: Host, pieces: seq<Piece>, ctx: Context, P: Str -> bool)
    requires PieceTokensOf(h, pieces, ctx, false).Some?
    requires EveryLiteralPiece(pieces, P) && EverySubstitution(h, pieces, ctx, P)
    ensures EveryLiteral(PieceTokensOf(h, pieces, ctx, false).value, P)
  {
    hide Substitution;
    if pieces != [] {
      PiecesTail(h, pieces, ctx, P);
      TokensKeepChars(h, pieces[1..], ctx, P);
      PieceKeepsChars(h, pieces[0], ctx, P);
    }
  }

  lemma PieceKeepsChars(h: Host, piece: Piece, ctx: Context, P: Str -> bool)
    requires TokensOfPiece(h, piece, ctx, false).Some?
    requires piece.Literal? ==> EveryChar(piece.text, P)
    requires piece.Variable? && Substitution(h, ctx, piece.name).Some? ==> EveryChar(Substitution(h, ctx, piece.name).value, P)
    ensures EveryLiteral(TokensOfPiece(h, piece, ctx, false).value, P)
  {
    hide Substitution;
  }

  /** Context strings without unpaired surrogates. */
  ghost predicate CleanContext(ctx: Context) {
    forall name :: name in ctx && ctx[name].Single? && ctx[name].scalar.String? ==> Clean(ctx[name].scalar.text)
  }

  lemma PlainChars(h: Host, s: Str)
    requires h.Lawful() && AllPlain(s)
    ensures EveryChar(s, c => CleanChar(c)) && EveryChar(s, c => h.lower(c) == c)
  {
    CharsOfUnits(s);
    forall i | 0 <= i < |Chars(s)|
      ensures CleanChar(Chars(s)[i]) && h.lower(Chars(s)[i]) == Chars(s)[i]
    {
      assert Chars(s)[i] == [s[i]] && Plain(s[i]);
    }
  }

  lemma BooleanTexts()
    ensures AllPlain(U("true")) && AllPlain(U("false"))
  {}

  lemma CleanMeansEvery(s: Str)
    ensures Clean(s) <==> EveryChar(s, c => CleanChar(c))
  {}

  lemma SubstitutionsClean(h: Host, ctx: Context, name: Str)
    requires h.Lawful() && CleanContext(ctx) && Substitution(h, ctx, name).Some?
    ensures EveryChar(Substitution(h, ctx, name).value, c => CleanChar(c))
  {
    hide EveryChar, Clean, Host.Lowered;
    BooleanTexts();
    var text := Substitution(h, ctx, name).value;
    match ctx[name]
    case Single(String(s)) => CleanMeansEvery(s);
    case Single(Number(n)) => PlainChars(h, text);
    case Single(Boolean(b)) => PlainChars(h, text);
    case NonFinite(number) => CleanAscii(text);
  }

  lemma CleanAscii(s: Str)
    requires forall i :: 0 <= i < |s| ==> s[i] < 128
    ensures EveryChar(s, c => CleanChar(c))
  {
    CharsOfUnits(s);
  }

  /** Patterns and contexts without unpaired surrogates give tokens without them, which stay apart when joined. */
  lemma CleanTokens(h: Host, pattern: Str, ctx: Context)
    requires h.Lawful() && Clean(pattern) && CleanContext(ctx)
    requires PatternTokens(h, pattern, ctx, false).Some?
    ensures EveryLiteral(PatternTokens(h, pattern, ctx, false).value, c => CleanChar(c))
    ensures TokensSeparable(PatternTokens(h, pattern, ctx, false).value)
  {
    hide EveryChar, Clean, Substitution, Host.Lawful, CleanContext;
    CleanMeansEvery(pattern);
    assert pattern[0..] == pattern;
    PiecesKeepChars(pattern, 0, 0, c => CleanChar(c));
    forall name | Substitution(h, ctx, name).Some?
      ensures EveryChar(Substitution(h, ctx, name).value, c => CleanChar(c))
    { SubstitutionsClean(h, ctx, name); }
    TokensKeepChars(h, Pieces(pattern), ctx, c => CleanChar(c));
  }

  // --- numbers without digits --------------------------------------------------------------------

  /** Some reference among the pieces is to a number without digits. */
  predicate NamesNonFinite(pieces: seq<Piece>, ctx: Context) {
    exists i :: 0 <= i < |pieces| && NonFinitePiece(pieces[i], ctx)
  }

  predicate NonFinitePiece(piece: Piece, ctx: Context) {
    piece.Variable? && piece.name in ctx && ctx[piece.name].NonFinite?
  }

  lemma SpecialCapital(h: Host, number: Digitless)
    requires h.Lawful()
    ensures exists i :: 0 <= i < |Chars(number.Text())| && h.lower(Chars(number.Text())[i]) != Chars(number.Text())[i]
  {
    var text := number.Text();
    var i := if number.MinusInfinity? then 1 else 0;
    CharsOfUnits(text);
    assert Capital(text[i]) && Chars(text)[i] == [text[i]];
    assert [text[i] + 32][0] != text[i];
  }

  /** Such a number keeps its capitals among the tokens. */
  lemma {:induction false} NonFiniteToken(h: Host, pieces: seq<Piece>, ctx: Context) returns (i: nat)
    requires h.Lawful() && NamesNonFinite(pieces, ctx) && PieceTokensOf(h, pieces, ctx, false).Some?
    ensures var tokens := PieceTokensOf(h, pieces, ctx, false).value;
            i < |tokens| && tokens[i].Char? && h.lower(tokens[i].value) != tokens[i].value
  {
    hide Host.Lawful;
    if NonFinitePiece(pieces[0], ctx) {
      i := DigitlessToken(h, pieces[0], ctx);
    } else {
      var k :| 0 <= k < |pieces| && NonFinitePiece(pieces[k], ctx);
      assert pieces[1..][k - 1] == pieces[k];
      hide NonFinitePiece, TokensOfPiece;
      var rest := NonFiniteToken(h, pieces[1..], ctx);
      i := |TokensOfPiece(h, pieces[0], ctx, false).value| + rest;
    }
  }

  lemma DigitlessToken(h: Host, piece: Piece, ctx: Context) returns (i: nat)
    requires h.Lawful() && NonFinitePiece(piece, ctx)
    ensures var tokens := TokensOfPiece(h, piece, ctx, false);
            tokens.Some? && i < |tokens.value| && tokens.value[i].Char? && h.lower(tokens.value[i].value) != tokens.value[i].value
  {
    hide Digitless.Text, Host.Lawful, LiteralTokens, GlobTokens, RowVariable;
    i := CapitalLiteral(h, ctx[piece.name].number);
    assert TokensOfPiece(h, piece, ctx, false) == Some(LiteralTokens(ctx[piece.name].number.Text()));
  }

  lemma CapitalLiteral(h: Host, number: Digitless) returns (i: nat)
    requires h.Lawful()
    ensures var tokens := LiteralTokens(number.Text());
            i < |tokens| && tokens[i].Char? && h.lower(tokens[i].value) != tokens[i].value
  {
    SpecialCapital(h, number);
    hide Host.Lawful, Digitless.Text, Chars;
    var cs := Chars(number.Text());
    i :| 0 <= i < |cs| && h.lower(cs[i]) != cs[i];
    assert LiteralTokens(number.Text())[i] == Char(cs[i]);
  }
}
