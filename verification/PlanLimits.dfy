/** Where planning stops being exact: the inputs the planner's preconditions leave out, and why. */
module PlanLimits {
  import opened Wrappers
  import opened Text
  import opened Glob
  import opened Patterns
  import opened Policy
  import opened Filter
  import opened Residual
  import opened Conditions
  import opened PlanModel
  import opened Planning

  /**
   * The filter of a `StringLikeIgnoreCase` value, built from the shared context, agrees with the engine for every
   * context of a row.
   */
  ghost predicate IgnoreCaseExact(h: Host, field: Str, text: Str) {
    forall shared: Context, row: Context, actual: Str ::
      ReadyValue(h, StringLikeIgnoreCase, String(text), shared) && AgreeOffRow(shared, row) ==>
      (FilterMatches(h, ValueFilter(h, StringLikeIgnoreCase, field, String(text), shared), map[field := Single(String(actual))]) <==>
       Compare(h, StringLikeIgnoreCase, Single(String(actual)), String(text), row))
  }

  function NamesOf(pieces: seq<Piece>): set<Str> {
    set i | 0 <= i < |pieces| && pieces[i].Variable? :: pieces[i].name
  }

  const LETTER: Str := [97]

  /** A context in which every variable named is the letter. */
  function Everywhere(names: set<Str>): Context {
    map name | name in names :: Single(String(LETTER))
  }

  lemma {:induction false} TokensOfEverywhere(h: Host, pieces: seq<Piece>, names: set<Str>)
    requires forall i :: 0 <= i < |pieces| && pieces[i].Variable? ==> pieces[i].name in names
    ensures PieceTokensOf(h, pieces, Everywhere(names), false).Some?
  {
    if pieces != [] {
      forall i | 0 <= i < |pieces[1..]| && pieces[1..][i].Variable?
        ensures pieces[1..][i].name in names
      { assert pieces[1..][i] == pieces[i + 1]; }
      TokensOfEverywhere(h, pieces[1..], names);
    }
  }

  lemma {:induction false} TokensWithoutRow(h: Host, pieces: seq<Piece>, ctx: Context)
    requires NamesRowVariable(pieces) && forall name :: name in ctx ==> !RowVariable(name)
    ensures PieceTokensOf(h, pieces, ctx, false).None?
  {
    hide RowVariable;
    if !(pieces[0].Variable? && RowVariable(pieces[0].name)) {
      TokensWithoutRow(h, pieces[1..], ctx);
    }
  }

  lemma LetterFacts(h: Host)
    requires h.Lawful()
    ensures h.lower(LETTER) == LETTER && h.lower(QUESTION) == QUESTION && Clean(LETTER) && CleanChar(QUESTION)
  {
    assert Plain(97) && Plain(63);
    CharsOfUnits(LETTER);
  }

  lemma LetterContext(h: Host, names: set<Str>)
    requires h.Lawful()
    ensures CleanContext(Everywhere(names)) && LowerContext(h, Everywhere(names)) == Everywhere(names)
  {
    hide Clean;
    LetterFacts(h);
  }

  /** A text the glob of lower-case literals matches even when case is ignored. */
  lemma LoweredInstance(h: Host, tokens: seq<Token>) returns (text: Str)
    requires h.Lawful() && Valid(tokens) && TokensSeparable(tokens) && LoweredTokens(h, tokens)
    ensures Accepts(tokens, Chars(h.lower(text)))
  {
    hide Accepts;
    LetterFacts(h);
    var cs := Instance(tokens);
    InstanceSeparable(tokens);
    CharsJoin(cs);
    JoinLowered(h, cs);
    InstanceAccepted(tokens);
    text := Join(cs);
  }

  /**
   * The engine lower-cases variable names before it looks them up, the row-variable check reads the original
   * spelling: where lower-casing brings out a row variable the filter is wrong for some row, otherwise for none.
   */
  lemma IgnoreCaseExactIff(h: Host, field: Str, text: Str)
    requires h.Lawful() && Clean(text) && !NamesRowVariable(Pieces(text))
    ensures IgnoreCaseExact(h, field, text) <==> !NamesRowVariable(Pieces(h.lower(text)))
  {
    if !NamesRowVariable(Pieces(h.lower(text))) {
      forall shared: Context, row: Context, actual: Str
        | ReadyValue(h, StringLikeIgnoreCase, String(text), shared) && AgreeOffRow(shared, row)
        ensures FilterMatches(h, ValueFilter(h, StringLikeIgnoreCase, field, String(text), shared), map[field := Single(String(actual))]) <==>
                Compare(h, StringLikeIgnoreCase, Single(String(actual)), String(text), row)
      {
        hide FilterMatches, ValueFilter, Compare, AgreeOffRow, ReadyValue, NamesRowVariable, Clean, Host.Lawful;
        LikeMeaning(h, StringLikeIgnoreCase, field, String(text), shared, map[field := Single(String(actual))]);
        ComparesAlike(h, StringLikeIgnoreCase, Single(String(actual)), String(text), shared, row);
      }
    } else {
      RevealedVariable(h, field, text);
    }
  }

  lemma RevealedVariable(h: Host, field: Str, text: Str)
    requires h.Lawful() && Clean(text) && NamesRowVariable(Pieces(h.lower(text)))
    ensures !IgnoreCaseExact(h, field, text)
  {
    hide RowVariable, NamesRowVariable, Clean, Accepts, PieceTokensOf, Substitution, FilterMatches, Host.Lawful, Pieces;
    var pattern := h.lower(text);
    var names := NamesOf(Pieces(pattern));
    var shared := Everywhere(set name | name in names && !RowVariable(name));
    var row := Everywhere(names);
    LetterContext(h, names);
    LetterContext(h, set name | name in names && !RowVariable(name));
    assert AgreeOffRow(shared, row);
    TokensWithoutRow(h, Pieces(pattern), shared);
    TokensOfEverywhere(h, Pieces(pattern), names);
    var tokens := PatternTokens(h, pattern, row, false).value;
    LowerKeepsClean(h, text);
    CleanTokens(h, pattern, row);
    LoweredPatternTokens(h, text, row);
    var actual := LoweredInstance(h, tokens);
    FalseMatchesNothing(h, map[field := Single(String(actual))]);
    assert ValueFilter(h, StringLikeIgnoreCase, field, String(text), shared) == False;
    assert Compare(h, StringLikeIgnoreCase, Single(String(actual)), String(text), row);
  }

  // --- numbers without digits ------------------------------------------------------------------------

  /** In this context the filter of a `StringLikeIgnoreCase` value passes exactly the rows the engine accepts. */
  ghost predicate ExactHere(h: Host, field: Str, text: Str, ctx: Context) {
    forall row: Row ::
      FilterMatches(h, ValueFilter(h, StringLikeIgnoreCase, field, String(text), ctx), row) <==>
      field in row && Compare(h, StringLikeIgnoreCase, row[field], String(text), ctx)
  }

  lemma {:induction false} LiteralNeeded(tokens: seq<Token>, cs: seq<Str>, i: nat)
    requires Accepts(tokens, cs) && i < |tokens| && tokens[i].Char?
    ensures tokens[i].value in cs
    decreases |tokens|, |cs|
  {
    var rest := tokens[1..];
    if i == 0 {
      assert cs[0] == tokens[0].value;
    } else {
      assert rest[i - 1] == tokens[i];
      if tokens[0].Star? && Accepts(rest, cs) {
        LiteralNeeded(rest, cs, i - 1);
      } else if tokens[0].Star? {
        LiteralNeeded(tokens, cs[1..], i);
      } else {
        LiteralNeeded(rest, cs[1..], i - 1);
      }
    }
  }

  lemma {:induction false} GlobCharsClean(tokens: seq<Token>)
    requires Valid(tokens) && CleanLiterals(tokens)
    ensures forall i :: 0 <= i < |GlobChars(tokens)| ==> CleanChar(GlobChars(tokens)[i])
  {
    hide Chars, ParseChars;
    if tokens != [] {
      TokenTextChars(tokens[0]);
      GlobCharsClean(tokens[1..]);
    }
  }

  /** Lower-casing a glob of clean literals gives a glob of clean, lower-cased ones. */
  lemma LoweredGlob(h: Host, tokens: seq<Token>)
    requires h.Lawful() && Valid(tokens) && CleanLiterals(tokens)
    ensures var lowered := ParseChars(Chars(h.lower(GlobString(tokens))));
            Valid(lowered) && TokensSeparable(lowered) && LoweredTokens(h, lowered)
  {
    hide Chars, GlobString, ParseChars, GlobChars;
    GlobStringChars(tokens);
    GlobCharsClean(tokens);
    var glob := GlobString(tokens);
    assert Clean(glob);
    var cs := Chars(h.lower(glob));
    assert Clean(h.lower(glob)) && h.Lowered(h.lower(glob));
    ParsedLiterals(cs);
    forall i | 0 <= i < |ParseChars(cs)| && ParseChars(cs)[i].Char?
      ensures CleanChar(ParseChars(cs)[i].value) && h.lower(ParseChars(cs)[i].value) == ParseChars(cs)[i].value
    {
      var k :| 0 <= k < |cs| && cs[k] == ParseChars(cs)[i].value;
    }
  }

  lemma SeparableWhenClean(tokens: seq<Token>)
    requires CleanLiterals(tokens)
    ensures TokensSeparable(tokens)
  {}

  /** A row the filter of such a glob passes. */
  lemma PassingRow(h: Host, field: Str, tokens: seq<Token>) returns (row: Row)
    requires h.Lawful() && Valid(tokens) && CleanLiterals(tokens) && exists i :: 0 <= i < |tokens| && tokens[i].Char?
    ensures FilterMatches(h, GlobFilter(field, tokens, true), row)
  {
    hide Accepts, Chars, ParseChars, GlobString, Join, Host.Lawful;
    if AllLiteral(tokens) {
      var text := Join(Values(tokens));
      row := map[field := Single(String(text))];
      EqualsMeaning(h, field, [String(text)], true, row);
      assert SameValue(h, row[field], [String(text)][0], true) by { LowerTwice(h, text); }
    } else {
      LoweredGlob(h, tokens);
      var text := LoweredInstance(h, ParseChars(Chars(h.lower(GlobString(tokens)))));
      row := map[field := Single(String(text))];
    }
  }

  /** Text the engine compares with is lower-cased, so a token that is not is never matched. */
  lemma NeverMatched(h: Host, tokens: seq<Token>, text: Str, i: nat)
    requires h.Lawful() && i < |tokens| && tokens[i].Char? && h.lower(tokens[i].value) != tokens[i].value
    ensures !Accepts(tokens, Chars(h.lower(text)))
  {
    assert h.Lowered(h.lower(text));
    if Accepts(tokens, Chars(h.lower(text))) { LiteralNeeded(tokens, Chars(h.lower(text)), i); }
  }

  lemma LowerKeepsNonFinite(h: Host, pieces: seq<Piece>, ctx: Context)
    ensures NamesNonFinite(pieces, LowerContext(h, ctx)) <==> NamesNonFinite(pieces, ctx)
  {
    forall i | 0 <= i < |pieces|
      ensures NonFinitePiece(pieces[i], LowerContext(h, ctx)) <==> NonFinitePiece(pieces[i], ctx)
    {}
  }

  /**
   * `NaN`, `Infinity` and `-Infinity` keep their capitals when they are substituted, so the engine, which lower-cases
   * the other side only, never matches them, while the filter lower-cases both. The filter of a value is right for
   * every row exactly when its lower-cased pattern refers to no such number, or to a variable without a value.
   */
  lemma NonFiniteExactIff(h: Host, field: Str, text: Str, ctx: Context)
    requires h.Lawful() && (LikeTokens(h, text, ctx, true).Some? ==> CleanLiterals(LikeTokens(h, text, ctx, true).value))
    ensures ExactHere(h, field, text, ctx) <==>
            LikeTokens(h, text, ctx, true).None? || !NamesNonFinite(Pieces(h.lower(text)), ctx)
  {
    hide FilterMatches, Accepts, PieceTokensOf, Host.Lawful, Pieces, Chars, NamesNonFinite, GlobFilter, LowerContext;
    if LikeTokens(h, text, ctx, true).None? || !NamesNonFinite(Pieces(h.lower(text)), ctx) {
      if LikeTokens(h, text, ctx, true).Some? { SeparableWhenClean(LikeTokens(h, text, ctx, true).value); }
      hide CleanLiterals, TokensSeparable;
      forall row: Row
        ensures FilterMatches(h, ValueFilter(h, StringLikeIgnoreCase, field, String(text), ctx), row) <==>
                field in row && Compare(h, StringLikeIgnoreCase, row[field], String(text), ctx)
      { LikeMeaning(h, StringLikeIgnoreCase, field, String(text), ctx, row); }
    } else {
      var tokens := LikeTokens(h, text, ctx, true).value;
      LowerKeepsNonFinite(h, Pieces(h.lower(text)), ctx);
      var i := NonFiniteToken(h, Pieces(h.lower(text)), LowerContext(h, ctx));
      var row := PassingRow(h, field, tokens);
      assert FilterMatches(h, ValueFilter(h, StringLikeIgnoreCase, field, String(text), ctx), row);
      if field in row && IsText(row[field]) { NeverMatched(h, tokens, row[field].scalar.text, i); }
    }
  }

  /** In such a context the planner's requirement is exact too: it asks no more than the filter needs. */
  lemma NonFiniteReady(h: Host, field: Str, text: Str, ctx: Context)
    requires h.Lawful() && (LikeTokens(h, text, ctx, true).Some? ==> CleanLiterals(LikeTokens(h, text, ctx, true).value))
    ensures ReadyValue(h, StringLikeIgnoreCase, String(text), ctx) <==> ExactHere(h, field, text, ctx)
  {
    hide NamesNonFinite, PieceTokensOf, ExactHere, Host.Lawful, LowerContext, Pieces;
    NonFiniteExactIff(h, field, text, ctx);
    if LikeTokens(h, text, ctx, true).Some? { SeparableWhenClean(LikeTokens(h, text, ctx, true).value); }
  }

  // --- names the engine does not take --------------------------------------------------------------------

  /** Everything allowed, by one path. */
  function AllowInput(action: Str, kind: Str, res: Resource): Input {
    Input(action, kind, kind, map[], [], [], [Path([ALLOW_ALL], [])], [], None, res.derived.Keys)
  }

  lemma AllowInputMeans(h: Host, action: Str, kind: Str, res: Resource)
    ensures Meant(h, AllowInput(action, kind, res), res)
    ensures ValidDocuments(h, AllDocuments(AllowInput(action, kind, res)))
  {
    AllowInputValid(h, action, kind, res);
    var input := AllowInput(action, kind, res);
    AllowAllDecides(h, RowRequest(input, res));
    hide Decide, RowContext, AllDocuments, ValidDocuments;
    assert PathAllows(h, input, input.paths[0], RowRequest(input, res));
  }

  lemma AllowInputValid(h: Host, action: Str, kind: Str, res: Resource)
    ensures ValidDocuments(h, AllDocuments(AllowInput(action, kind, res)))
  {
    var paths := [Path([ALLOW_ALL], [])];
    AllowAllValid(h);
    hide ValidDocument;
    assert paths[1..] == [] && PathDocuments(paths) == [ALLOW_ALL];
  }

  lemma AllowAllDecides(h: Host, r: Request)
    ensures Decide(h, r, [ALLOW_ALL] + [], []).allowed && Decide(h, r, [ALLOW_ALL], [] + []).allowed
  {
    var all := [ALLOW_ALL];
    AllowAllHas(h, r);
    AllowedWhen(h, r, all, []);
    hide Decide, DocumentHas;
    var none: seq<Document> := [];
    assert all + none == all && none + none == none && all[0] == ALLOW_ALL;
    assert AnyDocumentHas(h, all, Allow, r);
    assert AnyDocumentHas(h, all, Deny, r) ==> DocumentHas(h, ALLOW_ALL, Deny, r);
  }

  /** Whatever the policies, what a plan answers for this row and action is what the engine answers. */
  ghost predicate EngineAgrees(h: Host, action: Str, kind: Str, res: Resource) {
    forall input: Input ::
      input.action == action && input.resourceType == kind && Candidate(input, res) && ValidDocuments(h, AllDocuments(input)) ==>
      (Meant(h, input, res) <==> Permitted(h, input, res))
  }

  /**
   * A plan does not look at names, and the engine throws for some: plan and engine agree on a row for all policies
   * exactly when the action and `type/id` are texts of a valid request.
   */
  lemma RequestExactIff(h: Host, action: Str, kind: Str, res: Resource)
    requires res.Valid() && forall key :: key in res.derived ==> RowVariable(key)
    ensures EngineAgrees(h, action, kind, res) <==> NonEmptyText(action, 512) && NonEmptyText(kind + [47] + res.id, 2048)
    ensures !(NonEmptyText(action, 512) && NonEmptyText(kind + [47] + res.id, 2048)) ==>
              Meant(h, AllowInput(action, kind, res), res) && !Permitted(h, AllowInput(action, kind, res), res)
  {
    hide MeantAs, PermittedAs, ValidDocuments, RowContext, NonEmptyText;
    var open := AllowInput(action, kind, res);
    AllowInputMeans(h, action, kind, res);
    PermittedMeant(h, open, res, RowRequest(open, res));
    assert Candidate(open, res);
    if NonEmptyText(action, 512) && NonEmptyText(kind + [47] + res.id, 2048) {
      forall input: Input
        | input.action == action && input.resourceType == kind && Candidate(input, res) && ValidDocuments(h, AllDocuments(input))
        ensures Meant(h, input, res) <==> Permitted(h, input, res)
      { PermittedMeant(h, input, res, RowRequest(input, res)); }
    }
  }

  /** For one, a row whose id is a line feed: a plan that allows everything lists it, the engine throws. */
  lemma LineFeedRow(h: Host, action: Str, kind: Str)
    ensures var res := Resource([10], map[], map[]);
            Meant(h, AllowInput(action, kind, res), res) && !Permitted(h, AllowInput(action, kind, res), res)
  {
    var res := Resource([10], map[], map[]);
    var name := kind + [47] + res.id;
    assert name[|name| - 1] == 10;
    assert !NonEmptyText(name, 2048);
    RequestExactIff(h, action, kind, res);
  }
}
