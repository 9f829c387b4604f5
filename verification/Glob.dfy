/** Globs: `*` matches any run of characters, `?` one character; nothing else is an operator. */
module Glob {
  import opened Text

  const STAR: Str := [42]
  const QUESTION: Str := [63]
  const BACKSLASH: Str := [92]

  datatype Token = Star | Any | Char(value: Str)

  predicate Valid(tokens: seq<Token>) {
    forall i :: 0 <= i < |tokens| && tokens[i].Char? ==> IsChar(tokens[i].value)
  }

  /** The declarative meaning of a glob: which character sequences it matches. */
  predicate Accepts(tokens: seq<Token>, cs: seq<Str>)
    decreases |tokens|, |cs|
  {
    if tokens == [] then cs == []
    else match tokens[0]
      case Star => Accepts(tokens[1..], cs) || (cs != [] && Accepts(tokens, cs[1..]))
      case Any => cs != [] && Accepts(tokens[1..], cs[1..])
      case Char(c) => cs != [] && cs[0] == c && Accepts(tokens[1..], cs[1..])
  }

  function Classify(c: Str): Token {
    if c == STAR then Star else if c == QUESTION then Any else Char(c)
  }

  function ClassifyAll(cs: seq<Str>): (tokens: seq<Token>)
    ensures |tokens| == |cs|
  {
    seq(|cs|, i requires 0 <= i < |cs| => Classify(cs[i]))
  }

  /** `globTokens`: a pattern without variables. */
  function GlobTokens(pattern: Str): (tokens: seq<Token>)
    ensures Valid(tokens)
  {
    ClassifyAll(Chars(pattern))
  }

  /** `literalTokens`: a substituted value matches only itself. */
  function LiteralTokens(value: Str): (tokens: seq<Token>)
    ensures Valid(tokens) && forall i :: 0 <= i < |tokens| ==> tokens[i].Char?
  {
    var cs := Chars(value);
    seq(|cs|, i requires 0 <= i < |cs| => Char(cs[i]))
  }

  predicate AllStars(tokens: seq<Token>) { forall i :: 0 <= i < |tokens| ==> tokens[i].Star? }

  predicate AllLiteral(tokens: seq<Token>) { forall i :: 0 <= i < |tokens| ==> tokens[i].Char? }

  function Values(tokens: seq<Token>): (cs: seq<Str>)
    requires AllLiteral(tokens)
    ensures |cs| == |tokens|
    ensures Valid(tokens) ==> AllChars(cs)
  {
    seq(|tokens|, i requires 0 <= i < |tokens| => tokens[i].value)
  }

  // --- the meaning of a glob ---------------------------------------------------------------------

  lemma {:induction false} StarAccepts(tokens: seq<Token>, cs: seq<Str>)
    requires tokens != [] && tokens[0].Star?
    ensures Accepts(tokens, cs) <==> exists k :: 0 <= k <= |cs| && Accepts(tokens[1..], cs[k..])
    decreases |cs|
  {
    assert cs[0..] == cs;
    if cs != [] {
      StarAccepts(tokens, cs[1..]);
      forall k | 0 <= k <= |cs| - 1
        ensures cs[1..][k..] == cs[k + 1..]
      {}
      if Accepts(tokens, cs[1..]) {
        var k :| 0 <= k <= |cs[1..]| && Accepts(tokens[1..], cs[1..][k..]);
        assert Accepts(tokens[1..], cs[k + 1..]);
      }
      if k :| 0 <= k <= |cs| && Accepts(tokens[1..], cs[k..]) {
        if k > 0 {
          assert cs[1..][k - 1..] == cs[k..];
        }
      }
    }
  }

  lemma AllStarsAccept(tokens: seq<Token>, cs: seq<Str>)
    requires AllStars(tokens)
    ensures Accepts(tokens, cs) <==> tokens != [] || cs == []
    decreases |tokens|, |cs|
  {
    if tokens != [] && cs != [] {
      AllStarsAccept(tokens, cs[1..]);
    } else if tokens != [] {
      AllStarsAccept(tokens[1..], cs);
    }
  }

  lemma {:induction false} LiteralAccepts(tokens: seq<Token>, cs: seq<Str>)
    requires AllLiteral(tokens)
    ensures Accepts(tokens, cs) <==> cs == Values(tokens)
    decreases |tokens|
  {
    if tokens != [] && cs != [] {
      LiteralAccepts(tokens[1..], cs[1..]);
      assert cs == [cs[0]] + cs[1..];
      assert Values(tokens) == [tokens[0].value] + Values(tokens[1..]);
    }
  }

  /** A match of `a + b` splits into a match of `a` and a match of `b`. */
  lemma {:induction false} ConcatAccepts(a: seq<Token>, b: seq<Token>, cs: seq<Str>)
    ensures Accepts(a + b, cs) <==> exists k :: 0 <= k <= |cs| && Accepts(a, cs[..k]) && Accepts(b, cs[k..])
    decreases |a|, |cs|
  {
    if a == [] {
      assert a + b == b && cs[0..] == cs;
      assert cs[..0] == [];
    } else {
      var rest := a[1..];
      assert (a + b)[1..] == rest + b && (a + b)[0] == a[0];
      if a[0].Star? {
        ConcatAccepts(rest, b, cs);
        if cs != [] { ConcatAccepts(a, b, cs[1..]); }
      } else if cs != [] {
        ConcatAccepts(rest, b, cs[1..]);
      }
      if Accepts(a + b, cs) {
        SplitForward(a, b, cs);
      }
      if k :| 0 <= k <= |cs| && Accepts(a, cs[..k]) && Accepts(b, cs[k..]) {
        SplitBackward(a, b, cs, k);
      }
    }
  }

  lemma {:induction false} SplitForward(a: seq<Token>, b: seq<Token>, cs: seq<Str>)
    requires Accepts(a + b, cs)
    ensures exists k :: 0 <= k <= |cs| && Accepts(a, cs[..k]) && Accepts(b, cs[k..])
    decreases |a|, |cs|
  {
    if a == [] {
      assert a + b == b && cs[0..] == cs;
      assert cs[..0] == [];
    } else {
      var rest := a[1..];
      assert (a + b)[1..] == rest + b && (a + b)[0] == a[0];
      if a[0].Star? && Accepts(rest + b, cs) {
        SplitForward(rest, b, cs);
        var k :| 0 <= k <= |cs| && Accepts(rest, cs[..k]) && Accepts(b, cs[k..]);
        assert Accepts(a, cs[..k]);
      } else {
        var tail := cs[1..];
        var shorter := if a[0].Star? then a else rest;
        SplitForward(shorter, b, tail);
        var k :| 0 <= k <= |tail| && Accepts(shorter, tail[..k]) && Accepts(b, tail[k..]);
        assert cs[..k + 1][1..] == tail[..k] && cs[k + 1..] == tail[k..] && cs[..k + 1][0] == cs[0];
        OneMore(a, cs[..k + 1]);
      }
    }
  }

  /** A first token that takes one character, and the rest the rest. */
  lemma OneMore(tokens: seq<Token>, cs: seq<Str>)
    requires tokens != [] && cs != [] && (tokens[0].Char? ==> cs[0] == tokens[0].value)
    requires Accepts(if tokens[0].Star? then tokens else tokens[1..], cs[1..])
    ensures Accepts(tokens, cs)
  {}

  lemma {:induction false} SplitBackward(a: seq<Token>, b: seq<Token>, cs: seq<Str>, k: nat)
    requires k <= |cs| && Accepts(a, cs[..k]) && Accepts(b, cs[k..])
    ensures Accepts(a + b, cs)
    decreases |a|, |cs|
  {
    if a == [] {
      assert a + b == b && cs[0..] == cs;
    } else {
      var rest := a[1..];
      assert (a + b)[1..] == rest + b && (a + b)[0] == a[0];
      if a[0].Star? && Accepts(rest, cs[..k]) {
        SplitBackward(rest, b, cs, k);
      } else {
        var tail := cs[1..];
        assert cs[..k][1..] == tail[..k - 1] && cs[k..] == tail[k - 1..];
        SplitBackward(if a[0].Star? then a else rest, b, tail, k - 1);
      }
    }
  }

  // --- the greedy matcher ------------------------------------------------------------------------

  /** `Accepts` for the tokens from `p` on and the characters from `v` on. */
  ghost predicate AcceptsFrom(tokens: seq<Token>, p: nat, cs: seq<Str>, v: nat)
    requires p <= |tokens| && v <= |cs|
    decreases |tokens| - p, |cs| - v
  {
    if p == |tokens| then v == |cs|
    else match tokens[p]
      case Star => AcceptsFrom(tokens, p + 1, cs, v) || (v < |cs| && AcceptsFrom(tokens, p, cs, v + 1))
      case Any => v < |cs| && AcceptsFrom(tokens, p + 1, cs, v + 1)
      case Char(c) => v < |cs| && cs[v] == c && AcceptsFrom(tokens, p + 1, cs, v + 1)
  }

  lemma {:induction false} AcceptsSuffix(tokens: seq<Token>, p: nat, cs: seq<Str>, v: nat)
    requires p <= |tokens| && v <= |cs|
    ensures AcceptsFrom(tokens, p, cs, v) <==> Accepts(tokens[p..], cs[v..])
    decreases |tokens| - p, |cs| - v
  {
    if p < |tokens| {
      assert tokens[p..][1..] == tokens[p + 1..];
      AcceptsSuffix(tokens, p + 1, cs, v);
      if v < |cs| {
        assert cs[v..][1..] == cs[v + 1..];
        AcceptsSuffix(tokens, p, cs, v + 1);
        AcceptsSuffix(tokens, p + 1, cs, v + 1);
      }
    }
  }

  /** A glob starting with a star that matches a suffix matches every longer suffix. */
  lemma {:induction false} StarSkips(tokens: seq<Token>, p: nat, cs: seq<Str>, i: nat, j: nat)
    requires p < |tokens| && tokens[p].Star? && i <= j <= |cs| && AcceptsFrom(tokens, p, cs, j)
    ensures AcceptsFrom(tokens, p, cs, i)
    decreases j - i
  {
    if i < j { StarSkips(tokens, p, cs, i, j - 1); }
  }

  /** A star that matches from `j` on hands over to the next token somewhere after `j`. */
  lemma {:induction false} StarHandsOver(tokens: seq<Token>, p: nat, cs: seq<Str>, j: nat) returns (k: nat)
    requires p < |tokens| && tokens[p].Star? && j <= |cs| && AcceptsFrom(tokens, p, cs, j)
    ensures j <= k <= |cs| && AcceptsFrom(tokens, p + 1, cs, k)
    decreases |cs| - j
  {
    if AcceptsFrom(tokens, p + 1, cs, j) {
      k := j;
    } else {
      k := StarHandsOver(tokens, p, cs, j + 1);
    }
  }

  /** Tokens other than stars consume one character each. */
  lemma {:induction false} RunConsumes(tokens: seq<Token>, p: nat, q: nat, cs: seq<Str>, v: nat)
    requires p <= q <= |tokens| && v <= |cs| && AcceptsFrom(tokens, p, cs, v)
    requires forall i :: p <= i < q ==> !tokens[i].Star?
    ensures v + (q - p) <= |cs| && AcceptsFrom(tokens, q, cs, v + (q - p))
    decreases q - p
  {
    if p < q { RunConsumes(tokens, p + 1, q, cs, v + 1); }
  }

  /** What the loop of the greedy matcher knows: the tried position, or a later one for the last star. */
  ghost predicate Tracking(tokens: seq<Token>, cs: seq<Str>, p: nat, v: nat, star: int, retry: nat) {
    && p <= |tokens| && v <= |cs|
    && (star == -1 ==> retry == 0 && (AcceptsFrom(tokens, 0, cs, 0) <==> AcceptsFrom(tokens, p, cs, v)))
    && (star != -1 ==>
          && 0 <= star < p && tokens[star].Star? && retry <= v && v - retry == p - star - 1
          && (forall i :: star < i < p ==> !tokens[i].Star?)
          && (AcceptsFrom(tokens, 0, cs, 0) <==>
              AcceptsFrom(tokens, p, cs, v) || (retry < |cs| && AcceptsFrom(tokens, star, cs, retry + 1))))
  }

  /** Wherever the last star could resume later, the glob from the next star on also matches from here. */
  lemma LaterPlaceIsCovered(tokens: seq<Token>, cs: seq<Str>, p: nat, v: nat, star: nat, retry: nat)
    requires star < p <= |tokens| && v <= |cs| && retry <= v && v - retry == p - star - 1
    requires tokens[star].Star? && (forall i :: star < i < p ==> !tokens[i].Star?)
    requires retry < |cs| && AcceptsFrom(tokens, star, cs, retry + 1)
    ensures v < |cs|
    ensures p < |tokens| && tokens[p].Star? ==> AcceptsFrom(tokens, p, cs, v)
  {
    var k := StarHandsOver(tokens, star, cs, retry + 1);
    RunConsumes(tokens, star + 1, p, cs, k);
    if p < |tokens| && tokens[p].Star? {
      StarSkips(tokens, p, cs, v, k + (p - star - 1));
    }
  }

  /** `a * w`, by repeated addition. */
  ghost function Times(a: nat, w: nat): nat {
    if a == 0 then 0 else w + Times(a - 1, w)
  }

  lemma {:induction false} TimesMonotone(a: nat, b: nat, w: nat)
    requires a <= b
    ensures Times(a, w) <= Times(b, w) && Times(b, w) == b * w
  {
    if b > 0 {
      TimesMonotone(if a < b then a else b - 1, b - 1, w);
      assert b * w == (b - 1) * w + w;
    }
  }

  lemma TimesStep(a: nat, w: nat)
    ensures Times(a + 1, w) == w + Times(a, w) && Times(0, w) == 0
  {}

  /** A token that takes this one character. */
  predicate Takes(token: Token, c: Str) { token.Any? || (token.Char? && token.value == c) }

  lemma TrackStart(tokens: seq<Token>, cs: seq<Str>)
    ensures Tracking(tokens, cs, 0, 0, -1, 0) && (AcceptsFrom(tokens, 0, cs, 0) <==> Accepts(tokens, cs))
  {
    AcceptsSuffix(tokens, 0, cs, 0);
    assert tokens[0..] == tokens && cs[0..] == cs;
  }

  lemma TrackBounds(tokens: seq<Token>, cs: seq<Str>, p: nat, v: nat, star: int, retry: nat)
    requires Tracking(tokens, cs, p, v, star, retry)
    ensures p <= |tokens| && v <= |cs| && -1 <= star < p && (star == -1 ==> retry == 0) && retry <= v
    ensures star == -1 || v - retry == p - star - 1
  {
    hide AcceptsFrom;
  }

  lemma TrackTaken(tokens: seq<Token>, cs: seq<Str>, p: nat, v: nat, star: int, retry: nat)
    requires Tracking(tokens, cs, p, v, star, retry) && v < |cs| && p < |tokens| && Takes(tokens[p], cs[v])
    ensures Tracking(tokens, cs, p + 1, v + 1, star, retry)
  {}

  lemma TrackStar(tokens: seq<Token>, cs: seq<Str>, p: nat, v: nat, star: int, retry: nat)
    requires Tracking(tokens, cs, p, v, star, retry) && v < |cs| && p < |tokens| && tokens[p].Star?
    ensures Tracking(tokens, cs, p + 1, v, p, v)
  {
    if star != -1 && retry < |cs| && AcceptsFrom(tokens, star, cs, retry + 1) {
      LaterPlaceIsCovered(tokens, cs, p, v, star, retry);
    }
  }

  lemma TrackRetry(tokens: seq<Token>, cs: seq<Str>, p: nat, v: nat, star: int, retry: nat)
    requires Tracking(tokens, cs, p, v, star, retry) && v < |cs| && (p < |tokens| ==> !tokens[p].Star? && !Takes(tokens[p], cs[v]))
    ensures star != -1 ==> Tracking(tokens, cs, star + 1, retry + 1, star, retry + 1)
    ensures star == -1 ==> !AcceptsFrom(tokens, 0, cs, 0)
  {}

  lemma TrackEnd(tokens: seq<Token>, cs: seq<Str>, p: nat, star: int, retry: nat)
    requires Tracking(tokens, cs, p, |cs|, star, retry)
    ensures AcceptsFrom(tokens, 0, cs, 0) <==> Accepts(tokens[p..], [])
  {
    if star != -1 && retry < |cs| && AcceptsFrom(tokens, star, cs, retry + 1) {
      LaterPlaceIsCovered(tokens, cs, p, |cs|, star, retry);
    }
    AcceptsSuffix(tokens, p, cs, |cs|);
    assert cs[|cs|..] == [];
  }

  /** `globMatches`: greedy matching with backtracking to the last star, and the steps its loop takes. */
  method GlobMatches(tokens: seq<Token>, value: Str) returns (r: bool, ghost steps: nat)
    ensures r <==> Accepts(tokens, Chars(value))
    ensures steps <= (|tokens| + 1) * (|Chars(value)| + 1)
  {
    hide Accepts, AcceptsFrom, Chars, Times, Tracking;
    var chars := Chars(value);
    var p, v, star, retry := 0, 0, -1, 0;
    ghost var width := |tokens| + 1;
    steps := 0;
    TimesStep(0, width);
    TrackStart(tokens, chars);
    while v < |chars|
      invariant Tracking(tokens, chars, p, v, star, retry) && v <= |chars|
      invariant steps <= Times(retry, width) + p
      decreases |chars| - retry, |tokens| - p
    {
      TrackBounds(tokens, chars, p, v, star, retry);
      steps := steps + 1;
      if p < |tokens| && (tokens[p].Any? || (tokens[p].Char? && tokens[p].value == chars[v])) {
        TrackTaken(tokens, chars, p, v, star, retry);
        p, v := p + 1, v + 1;
      } else if p < |tokens| && tokens[p].Star? {
        TrackStar(tokens, chars, p, v, star, retry);
        TimesMonotone(retry, v, width);
        star, p, retry := p, p + 1, v;
      } else {
        TrackRetry(tokens, chars, p, v, star, retry);
        if star == -1 {
          StepBound(retry, p, |chars|, |tokens|);
          return false, steps;
        }
        TimesStep(retry, width);
        p, retry := star + 1, retry + 1;
        v := retry;
      }
    }
    TrackBounds(tokens, chars, p, v, star, retry);
    TrackEnd(tokens, chars, p, star, retry);
    StepBound(retry, p, |chars|, |tokens|);
    p := SkipStars(tokens, p);
    r := p == |tokens|;
  }

  lemma StepBound(retry: nat, p: nat, chars: nat, tokens: nat)
    requires retry <= chars && p <= tokens
    ensures Times(retry, tokens + 1) + p + 1 <= (tokens + 1) * (chars + 1)
  {
    TimesMonotone(retry, chars, tokens + 1);
    assert (tokens + 1) * (chars + 1) == chars * (tokens + 1) + (tokens + 1);
  }

  /** Stars left over at the end of the value match the empty rest. */
  method SkipStars(tokens: seq<Token>, from: nat) returns (p: nat)
    requires from <= |tokens|
    ensures p == |tokens| <==> Accepts(tokens[from..], [])
  {
    p := from;
    while p < |tokens| && tokens[p].Star?
      invariant p <= |tokens| && (Accepts(tokens[from..], []) <==> Accepts(tokens[p..], []))
    {
      assert tokens[p..][1..] == tokens[p + 1..];
      p := p + 1;
    }
  }

  // --- matching by leftmost pieces ---------------------------------------------------------------

  /** `pattern.split('*')`. */
  function Split(pattern: Str): (pieces: seq<Str>)
    ensures pieces != []
  {
    if pattern == [] then [[]]
    else
      var rest := Split(pattern[1..]);
      if pattern[0] == 42 then [[]] + rest else [[pattern[0]] + rest[0]] + rest[1..]
  }

  function Units(s: Str): (cs: seq<Str>)
    ensures |cs| == |s|
  {
    seq(|s|, i requires 0 <= i < |s| => [s[i]])
  }

  function Literals(s: Str): (tokens: seq<Token>)
    ensures |tokens| == |s|
  {
    seq(|s|, i requires 0 <= i < |s| => Char([s[i]]))
  }

  /** The tokens of pieces joined by stars. */
  function PieceTokens(pieces: seq<Str>): seq<Token>
    requires pieces != []
  {
    if |pieces| == 1 then Literals(pieces[0])
    else Literals(pieces[0]) + ([Star] + PieceTokens(pieces[1..]))
  }

  lemma StarPiece(rest: seq<Str>)
    requires rest != []
    ensures PieceTokens([[]] + rest) == [Star] + PieceTokens(rest)
  {
    assert ([[]] + rest)[1..] == rest && Literals([]) == [];
    assert [] + ([Star] + PieceTokens(rest)) == [Star] + PieceTokens(rest);
  }

  lemma LongerPiece(u: CodeUnit, rest: seq<Str>)
    requires rest != []
    ensures PieceTokens([[u] + rest[0]] + rest[1..]) == [Char([u])] + PieceTokens(rest)
  {
    var pieces := [[u] + rest[0]] + rest[1..];
    assert pieces[0] == [u] + rest[0] && pieces[1..] == rest[1..];
    LongerLiteral(u, rest[0]);
    PiecesStep(pieces);
    PiecesStep(rest);
    hide *;
    if |rest| > 1 { TokensAssociate([Char([u])], Literals(rest[0]), [Star] + PieceTokens(rest[1..])); }
  }

  lemma PiecesStep(pieces: seq<Str>)
    requires pieces != []
    ensures |pieces| == 1 ==> PieceTokens(pieces) == Literals(pieces[0])
    ensures |pieces| > 1 ==> PieceTokens(pieces) == Literals(pieces[0]) + ([Star] + PieceTokens(pieces[1..]))
  {}

  lemma TokensAssociate(a: seq<Token>, b: seq<Token>, c: seq<Token>)
    ensures (a + b) + c == a + (b + c)
  {}

  lemma LongerLiteral(u: CodeUnit, text: Str)
    ensures Literals([u] + text) == [Char([u])] + Literals(text)
  {}

  lemma {:induction false} SplitTokens(pattern: Str)
    requires forall i :: 0 <= i < |pattern| ==> pattern[i] != 63
    ensures ClassifyAll(Units(pattern)) == PieceTokens(Split(pattern))
  {
    if pattern == [] {
    } else {
      SplitTokens(pattern[1..]);
      var rest, u := Split(pattern[1..]), pattern[0];
      assert ClassifyAll(Units(pattern)) == [Classify([u])] + ClassifyAll(Units(pattern[1..]));
      if u == 42 {
        StarPiece(rest);
      } else {
        LongerPiece(u, rest);
      }
    }
  }

  lemma {:induction false} LiteralsAccept(p: Str, rest: seq<Token>, s: Str)
    ensures Accepts(Literals(p) + rest, Units(s)) <==>
            OccursAt(s, p, 0) && Accepts(rest, Units(s[|p|..]))
    decreases |p|
  {
    var tokens := Literals(p) + rest;
    if p == [] {
      assert tokens == rest && s[0..] == s;
    } else {
      assert tokens[1..] == Literals(p[1..]) + rest;
      if s != [] {
        LiteralsAccept(p[1..], rest, s[1..]);
        assert Units(s)[1..] == Units(s[1..]);
        if |p| <= |s| {
          assert s[1..][|p| - 1..] == s[|p|..];
          assert s[1..][0..|p| - 1] == s[1..|p|];
          assert s[0..|p|] == [s[0]] + s[1..|p|] && p == [p[0]] + p[1..];
        }
      }
    }
  }

  /** The pieces fit in order from `c` on, each after a star, the last one at the end. */
  ghost predicate Fits(pieces: seq<Str>, s: Str, c: nat)
    requires pieces != []
    decreases |pieces|
  {
    if |pieces| == 1 then c + |pieces[0]| <= |s| && OccursAt(s, pieces[0], |s| - |pieces[0]|)
    else exists at: nat :: c <= at && OccursAt(s, pieces[0], at) && Fits(pieces[1..], s, at + |pieces[0]|)
  }

  lemma {:induction false} FitsMonotone(pieces: seq<Str>, s: Str, c: nat, d: nat)
    requires pieces != [] && c <= d && Fits(pieces, s, d)
    ensures Fits(pieces, s, c)
  {
    if |pieces| > 1 {
      var at: nat :| d <= at && OccursAt(s, pieces[0], at) && Fits(pieces[1..], s, at + |pieces[0]|);
    }
  }

  lemma {:induction false} FitsEnds(pieces: seq<Str>, s: Str, c: nat)
    requires pieces != [] && Fits(pieces, s, c)
    ensures var last := pieces[|pieces| - 1]; c + |last| <= |s| && OccursAt(s, last, |s| - |last|)
    decreases |pieces|
  {
    if |pieces| > 1 {
      var at: nat :| c <= at && OccursAt(s, pieces[0], at) && Fits(pieces[1..], s, at + |pieces[0]|);
      FitsEnds(pieces[1..], s, at + |pieces[0]|);
    }
  }

  /** Where the first of the pieces goes: here, or further on. */
  lemma FitsStep(pieces: seq<Str>, s: Str, c: nat)
    requires pieces != [] && c <= |s|
    ensures Fits(pieces, s, c) <==>
            (OccursAt(s, pieces[0], c) &&
             (if |pieces| == 1 then c + |pieces[0]| == |s| else Fits(pieces[1..], s, c + |pieces[0]|))) ||
            (c < |s| && Fits(pieces, s, c + 1))
  {
    if |pieces| > 1 && Fits(pieces, s, c) {
      var at: nat :| c <= at && OccursAt(s, pieces[0], at) && Fits(pieces[1..], s, at + |pieces[0]|);
      assert at > c ==> c + 1 <= at <= |s|;
    }
    if c < |s| && Fits(pieces, s, c + 1) { FitsMonotone(pieces, s, c, c + 1); }
  }

  lemma {:induction false} FitsAccepts(pieces: seq<Str>, s: Str, c: nat)
    requires pieces != [] && c <= |s|
    ensures Accepts([Star] + PieceTokens(pieces), Units(s[c..])) <==> Fits(pieces, s, c)
    decreases |pieces|, |s| - c, 1
  {
    var tokens := [Star] + PieceTokens(pieces);
    assert tokens[1..] == PieceTokens(pieces);
    PieceHere(pieces, s, c);
    FitsStep(pieces, s, c);
    if c < |s| {
      FitsAccepts(pieces, s, c + 1);
      assert Units(s[c..])[1..] == Units(s[c + 1..]);
    }
  }

  lemma {:induction false} PieceHere(pieces: seq<Str>, s: Str, at: nat)
    requires pieces != [] && at <= |s|
    ensures Accepts(PieceTokens(pieces), Units(s[at..])) <==>
            OccursAt(s, pieces[0], at) &&
            (if |pieces| == 1 then at + |pieces[0]| == |s| else Fits(pieces[1..], s, at + |pieces[0]|))
    decreases |pieces|, |s| - at, 0
  {
    var p, end := pieces[0], at + |pieces[0]|;
    var rest := if |pieces| == 1 then [] else [Star] + PieceTokens(pieces[1..]);
    assert PieceTokens(pieces) == Literals(p) + rest;
    LiteralsAccept(p, rest, s[at..]);
    if end <= |s| {
      assert s[at..][0..|p|] == s[at..end];
      assert s[at..][|p|..] == s[end..];
      if |pieces| > 1 { FitsAccepts(pieces[1..], s, end); }
    }
  }

  /** `matchStars`: each piece at its leftmost place after the previous one. */
  method MatchStars(pattern: Str, value: Str) returns (r: bool)
    requires forall i :: 0 <= i < |pattern| ==> pattern[i] != 63
    ensures r <==> Accepts(ClassifyAll(Units(pattern)), Units(value))
  {
    hide Fits, Accepts, Split, PieceTokens;
    var pieces := Split(pattern);
    var n := |pieces|;
    PiecesDecide(pattern, value);
    if n == 1 {
      return pattern == value;
    }
    var first, last := pieces[0], pieces[n - 1];
    if |value| < |first| + |last| || !OccursAt(value, first, 0) || !OccursAt(value, last, |value| - |last|) {
      return false;
    }
    var end := |value| - |last|;
    var cursor: nat := |first|;
    var index: nat := 1;
    while index < n - 1
      invariant 1 <= index <= n - 1 && cursor <= end
      invariant Accepts(ClassifyAll(Units(pattern)), Units(value)) <==> Fits(pieces[index..], value, cursor)
    {
      var piece := pieces[index];
      assert pieces[index..][1..] == pieces[index + 1..];
      NextPiece(pieces[index..], value, cursor);
      if piece != [] {
        var at: int := IndexOf(value, piece, cursor);
        if at == -1 || at + |piece| > end {
          return false;
        }
        cursor := at + |piece|;
      }
      index := index + 1;
    }
    assert pieces[index..] == [last];
    LastPiece(last, value, cursor);
    r := true;
  }

  lemma LastPiece(last: Str, s: Str, c: nat)
    ensures Fits([last], s, c) <==> c + |last| <= |s| && OccursAt(s, last, |s| - |last|)
  {}

  /** The glob by its pieces: plain equality, or the first piece in front and the others in order behind it. */
  lemma PiecesDecide(pattern: Str, value: Str)
    requires forall i :: 0 <= i < |pattern| ==> pattern[i] != 63
    ensures var pieces, accepted := Split(pattern), Accepts(ClassifyAll(Units(pattern)), Units(value));
            && (|pieces| == 1 ==> (accepted <==> pattern == value))
            && (|pieces| > 1 ==>
                  var last := pieces[|pieces| - 1];
                  && (accepted <==> OccursAt(value, pieces[0], 0) && Fits(pieces[1..], value, |pieces[0]|))
                  && (accepted ==> |pieces[0]| + |last| <= |value| && OccursAt(value, last, |value| - |last|)))
  {
    hide Fits, Accepts, PieceTokens;
    var pieces := Split(pattern);
    SplitTokens(pattern);
    PieceHere(pieces, value, 0);
    assert value[0..] == value;
    if |pieces| == 1 {
      OnePiece(pattern);
    } else if Fits(pieces[1..], value, |pieces[0]|) {
      FitsEnds(pieces[1..], value, |pieces[0]|);
    }
  }

  /** The next piece goes to its leftmost place; without one before the last piece, nothing fits. */
  lemma NextPiece(pieces: seq<Str>, s: Str, c: nat)
    requires |pieces| > 1 && c <= |s|
    ensures pieces[0] == [] ==> (Fits(pieces, s, c) <==> Fits(pieces[1..], s, c))
    ensures pieces[0] != [] ==>
              var at, last := IndexOf(s, pieces[0], c), pieces[|pieces| - 1];
              && (at == -1 || at + |pieces[0]| > |s| - |last| ==> !Fits(pieces, s, c))
              && (at != -1 ==> (Fits(pieces, s, c) <==> Fits(pieces[1..], s, at + |pieces[0]|)))
  {
    if pieces[0] == [] {
      if Fits(pieces, s, c) { EmptyPiece(pieces, s, c); }
      assert OccursAt(s, pieces[0], c);
    } else {
      var at := IndexOf(s, pieces[0], c);
      if Fits(pieces, s, c) {
        LeftmostPiece(pieces, s, c, at);
        FitsEnds(pieces[1..], s, at + |pieces[0]|);
      }
    }
  }

  lemma {:induction false} OnePiece(pattern: Str)
    requires |Split(pattern)| == 1
    ensures Split(pattern) == [pattern]
  {
    if pattern != [] {
      OnePiece(pattern[1..]);
      assert [pattern[0]] + pattern[1..] == pattern;
    }
  }

  lemma EmptyPiece(pieces: seq<Str>, s: Str, c: nat)
    requires |pieces| > 1 && pieces[0] == [] && Fits(pieces, s, c)
    ensures Fits(pieces[1..], s, c)
  {
    var at: nat :| c <= at && OccursAt(s, pieces[0], at) && Fits(pieces[1..], s, at + |pieces[0]|);
    FitsMonotone(pieces[1..], s, c, at);
  }

  /** The leftmost place of a piece leaves the most room for the others. */
  lemma LeftmostPiece(pieces: seq<Str>, s: Str, c: nat, at: int)
    requires |pieces| > 1 && Fits(pieces, s, c) && at == IndexOf(s, pieces[0], c)
    ensures at >= c && Fits(pieces[1..], s, at + |pieces[0]|)
  {
    var other: nat :| c <= other && OccursAt(s, pieces[0], other) && Fits(pieces[1..], s, other + |pieces[0]|);
    assert 0 <= at <= other;
    FitsMonotone(pieces[1..], s, at + |pieces[0]|, other + |pieces[0]|);
  }

  // --- filter globs ------------------------------------------------------------------------------

  predicate Special(c: Str) { c == STAR || c == QUESTION || c == BACKSLASH }

  function TokenText(token: Token): Str {
    match token
    case Star => STAR
    case Any => QUESTION
    case Char(c) => if Special(c) then BACKSLASH + c else c
  }

  /** `globString`: tokens as a filter glob, with `\` before a literal `*`, `?` or `\`. */
  function GlobString(tokens: seq<Token>): Str {
    if tokens == [] then [] else TokenText(tokens[0]) + GlobString(tokens[1..])
  }

  /** What `parseGlob` reads from the characters of a filter glob. */
  function ParseChars(cs: seq<Str>): seq<Token> {
    if cs == [] then []
    else if cs[0] == BACKSLASH && |cs| >= 2 then [Char(cs[1])] + ParseChars(cs[2..])
    else [Classify(cs[0])] + ParseChars(cs[1..])
  }

  lemma ParseStep(chars: seq<Str>, index: nat)
    requires index < |chars|
    ensures chars[index] == BACKSLASH && index + 1 < |chars| ==>
              ParseChars(chars[index..]) == [Char(chars[index + 1])] + ParseChars(chars[index + 2..])
    ensures !(chars[index] == BACKSLASH && index + 1 < |chars|) ==>
              ParseChars(chars[index..]) == [Classify(chars[index])] + ParseChars(chars[index + 1..])
  {
    assert chars[index..][1..] == chars[index + 1..];
    if index + 1 < |chars| { assert chars[index..][2..] == chars[index + 2..]; }
  }

  /** `parseGlob`. */
  method ParseGlob(pattern: Str) returns (tokens: seq<Token>)
    ensures tokens == ParseChars(Chars(pattern))
  {
    hide ParseChars;
    tokens := [];
    var chars := Chars(pattern);
    var index := 0;
    assert chars[0..] == chars;
    while index < |chars|
      invariant index <= |chars|
      invariant ParseChars(chars) == tokens + ParseChars(chars[index..])
    {
      var next := chars[index];
      var token;
      ParseStep(chars, index);
      if next == BACKSLASH && index + 1 < |chars| {
        index := index + 1;
        token := Char(chars[index]);
      } else if next == STAR {
        token := Star;
      } else if next == QUESTION {
        token := Any;
      } else {
        token := Char(next);
      }
      index := index + 1;
      ghost var rest := ParseChars(chars[index..]);
      assert tokens + ([token] + rest) == tokens + [token] + rest;
      tokens := tokens + [token];
    }
    EndOfGlob(chars);
  }

  lemma EndOfGlob(chars: seq<Str>)
    ensures ParseChars(chars[|chars|..]) == []
  {}

  predicate LiteralPair(a: Token, b: Token) {
    a.Char? && b.Char? && LoneHigh(a.value) && LoneLow(b.value)
  }

  /** No literal lone high surrogate directly before a literal lone low one. */
  predicate TokensSeparable(tokens: seq<Token>) {
    forall i :: 0 <= i < |tokens| - 1 ==> !LiteralPair(tokens[i], tokens[i + 1])
  }

  lemma SeparableTail(tokens: seq<Token>)
    requires tokens != []
    ensures TokensSeparable(tokens) <==>
            TokensSeparable(tokens[1..]) && (|tokens| >= 2 ==> !LiteralPair(tokens[0], tokens[1]))
  {
    if TokensSeparable(tokens[1..]) && (|tokens| >= 2 ==> !LiteralPair(tokens[0], tokens[1])) {
      forall i | 0 <= i < |tokens| - 1
        ensures !LiteralPair(tokens[i], tokens[i + 1])
      {
        if i > 0 { assert tokens[1..][i - 1] == tokens[i] && tokens[1..][i] == tokens[i + 1]; }
      }
    }
    if TokensSeparable(tokens) {
      forall i | 0 <= i < |tokens[1..]| - 1
        ensures !LiteralPair(tokens[1..][i], tokens[1..][i + 1])
      {
        assert tokens[1..][i] == tokens[i + 1] && tokens[1..][i + 1] == tokens[i + 2];
      }
    }
  }

  lemma {:induction false} TokenTextChars(token: Token)
    requires token.Char? ==> IsChar(token.value)
    ensures TokenText(token) != []
    ensures ParseChars(Chars(TokenText(token))) == [token]
    ensures Chars(TokenText(token)) ==
            if token.Char? && Special(token.value) then [BACKSLASH, token.value] else [TokenText(token)]
  {
    if token.Char? && Special(token.value) {
      CharsOfChar(BACKSLASH);
      CharsOfChar(token.value);
      CharsConcat(BACKSLASH, token.value);
    } else {
      CharsOfChar(TokenText(token));
    }
  }

  /** A glob written out and parsed back is the same glob exactly when its literals stay apart. */
  lemma {:induction false} GlobRoundTrip(tokens: seq<Token>)
    requires Valid(tokens)
    ensures ParseChars(Chars(GlobString(tokens))) == tokens <==> TokensSeparable(tokens)
  {
    if tokens != [] {
      SeparableTail(tokens);
      if |tokens| >= 2 && LiteralPair(tokens[0], tokens[1]) {
        PairMerges(tokens);
      } else {
        GlobRoundTrip(tokens[1..]);
        FirstTokenParses(tokens);
      }
    }
  }

  /** The text of a token ends where no surrogate pair can span into the next token. */
  lemma TextsSplit(tokens: seq<Token>)
    requires Valid(tokens) && tokens != []
    requires |tokens| >= 2 ==> !LiteralPair(tokens[0], tokens[1])
    ensures SplitsCleanly(TokenText(tokens[0]), GlobString(tokens[1..]))
  {
    if |tokens| >= 2 {
      var text := TokenText(tokens[1]);
      assert text != [];
      assert GlobString(tokens[1..])[0] == text[0];
    }
  }

  lemma FirstTokenParses(tokens: seq<Token>)
    requires Valid(tokens) && tokens != []
    requires |tokens| >= 2 ==> !LiteralPair(tokens[0], tokens[1])
    ensures ParseChars(Chars(GlobString(tokens))) == [tokens[0]] + ParseChars(Chars(GlobString(tokens[1..])))
  {
    TextsSplit(tokens);
    CharsConcat(TokenText(tokens[0]), GlobString(tokens[1..]));
    ParseFirst(tokens[0], Chars(GlobString(tokens[1..])));
  }

  lemma ParseFirst(token: Token, cs: seq<Str>)
    requires token.Char? ==> IsChar(token.value)
    ensures ParseChars(Chars(TokenText(token)) + cs) == [token] + ParseChars(cs)
  {
    TokenTextChars(token);
    var all := Chars(TokenText(token)) + cs;
    if token.Char? && Special(token.value) {
      assert all[2..] == cs;
    } else {
      assert all[1..] == cs;
    }
  }

  lemma PairText(tokens: seq<Token>)
    requires |tokens| >= 2 && LiteralPair(tokens[0], tokens[1])
    ensures GlobString(tokens) == tokens[0].value + tokens[1].value + GlobString(tokens[2..])
  {
    var a, b, more := tokens[0].value, tokens[1].value, GlobString(tokens[2..]);
    assert tokens[1..][0] == tokens[1] && tokens[1..][1..] == tokens[2..];
    assert GlobString(tokens[1..]) == b + more;
    assert a + (b + more) == a + b + more;
  }

  lemma PairMerges(tokens: seq<Token>)
    requires |tokens| >= 2 && LiteralPair(tokens[0], tokens[1])
    ensures ParseChars(Chars(GlobString(tokens))) != tokens
  {
    var a, b := tokens[0].value, tokens[1].value;
    var rest := GlobString(tokens[2..]);
    PairText(tokens);
    hide GlobString, ParseChars, Chars;
    CharsConcat(a + b, rest);
    CharsOfChar(a + b);
    ParseHead(a + b, Chars(rest));
  }

  lemma ParseHead(c: Str, cs: seq<Str>)
    requires |c| == 2
    ensures ParseChars([c] + cs) == [Char(c)] + ParseChars(cs)
  {
    assert ([c] + cs)[1..] == cs;
  }

  /** Literals that would merge match no string: iterating a string never yields the two halves apart. */
  lemma {:induction false} InseparableMatchesNothing(tokens: seq<Token>, cs: seq<Str>, i: nat) returns (j: nat)
    requires Accepts(tokens, cs) && i + 1 < |tokens| && LiteralPair(tokens[i], tokens[i + 1])
    ensures j + 1 < |cs| && LoneHigh(cs[j]) && LoneLow(cs[j + 1])
    decreases |tokens|, |cs|
  {
    var rest := tokens[1..];
    if i == 0 {
      assert rest[0] == tokens[1] && cs[1..][0] == cs[1];
      j := 0;
    } else {
      assert rest[i - 1] == tokens[i] && rest[i] == tokens[i + 1];
      if tokens[0].Star? && Accepts(rest, cs) {
        j := InseparableMatchesNothing(rest, cs, i - 1);
      } else if tokens[0].Star? {
        j := InseparableMatchesNothing(tokens, cs[1..], i);
        j := j + 1;
      } else {
        j := InseparableMatchesNothing(rest, cs[1..], i - 1);
        j := j + 1;
      }
    }
  }
}
