/** What is left of a pattern: globs as field filters, and the ids a pattern admits behind a known prefix. */
module Residual {
  import opened Wrappers
  import opened Text
  import opened Glob
  import opened Patterns
  import opened Policy
  import opened Filter

  /** `globFilter`: equality without wildcards, a type test for stars alone, otherwise a glob. */
  function GlobFilter(field: Str, tokens: seq<Token>, ignoreCase: bool): ResourceFilter {
    if AllLiteral(tokens) then EqualsFilter(field, [String(Join(Values(tokens)))], ignoreCase)
    else if tokens != [] && AllStars(tokens) then HasType(field, StringType)
    else Like(field, GlobString(tokens), ignoreCase)
  }

  lemma GlobFilterPlanned(field: Str, tokens: seq<Token>, ignoreCase: bool)
    ensures Inner(GlobFilter(field, tokens, ignoreCase)) && !GlobFilter(field, tokens, ignoreCase).Or?
    ensures !GlobFilter(field, tokens, ignoreCase).And?
  {}

  /** The literals of the tokens are their own lower-case form. */
  ghost predicate LoweredTokens(h: Host, tokens: seq<Token>) {
    forall i :: 0 <= i < |tokens| && tokens[i].Char? ==> h.lower(tokens[i].value) == tokens[i].value
  }

  lemma LowerFixes(h: Host, s: Str)
    requires h.Lawful() && h.Lowered(s)
    ensures h.lower(s) == s
  {}

  /** The literals of the tokens hold no unpaired surrogate. */
  predicate CleanLiterals(tokens: seq<Token>) {
    forall i :: 0 <= i < |tokens| && tokens[i].Char? ==> CleanChar(tokens[i].value)
  }

  /** What `parseGlob` reads has no literal that is not among the characters. */
  lemma {:induction false} ParsedLiterals(cs: seq<Str>)
    requires AllChars(cs)
    ensures Valid(ParseChars(cs))
    ensures forall i :: 0 <= i < |ParseChars(cs)| && ParseChars(cs)[i].Char? ==> ParseChars(cs)[i].value in cs
  {
    if cs != [] {
      ParsedLiterals(cs[1..]);
      if |cs| >= 2 { ParsedLiterals(cs[2..]); }
    }
  }

  /** Joined characters that are their own lower-case form make a text that is. */
  lemma {:induction false} JoinLowered(h: Host, cs: seq<Str>)
    requires h.Lawful() && AllChars(cs) && Separable(cs)
    requires forall i :: 0 <= i < |cs| ==> h.lower(cs[i]) == cs[i]
    ensures h.lower(Join(cs)) == Join(cs)
  {
    CharsJoin(cs);
    LowerFixes(h, Join(cs));
  }

  /** The characters a glob is written with. */
  function GlobChars(tokens: seq<Token>): seq<Str> {
    if tokens == [] then [] else Chars(TokenText(tokens[0])) + GlobChars(tokens[1..])
  }

  lemma {:induction false} GlobStringChars(tokens: seq<Token>)
    requires Valid(tokens) && TokensSeparable(tokens)
    ensures Chars(GlobString(tokens)) == GlobChars(tokens)
  {
    if tokens != [] {
      SeparableTokens(tokens);
      GlobStringChars(tokens[1..]);
      TextsSplit(tokens);
      CharsConcat(TokenText(tokens[0]), GlobString(tokens[1..]));
    }
  }

  lemma SeparableTokens(tokens: seq<Token>)
    requires tokens != [] && TokensSeparable(tokens)
    ensures TokensSeparable(tokens[1..]) && (|tokens| >= 2 ==> !LiteralPair(tokens[0], tokens[1]))
  {
    Glob.SeparableTail(tokens);
  }

  lemma {:induction false} GlobCharsLowered(h: Host, tokens: seq<Token>)
    requires h.lower(STAR) == STAR && h.lower(QUESTION) == QUESTION && h.lower(BACKSLASH) == BACKSLASH
    requires Valid(tokens) && LoweredTokens(h, tokens)
    ensures forall i :: 0 <= i < |GlobChars(tokens)| ==> h.lower(GlobChars(tokens)[i]) == GlobChars(tokens)[i]
  {
    hide Chars, ParseChars;
    if tokens != [] {
      TokenTextChars(tokens[0]);
      GlobCharsLowered(h, tokens[1..]);
    }
  }

  /** Lower-casing a glob of lower-case literals changes nothing. */
  lemma GlobStringLowered(h: Host, tokens: seq<Token>)
    requires h.Lawful() && Valid(tokens) && TokensSeparable(tokens) && LoweredTokens(h, tokens)
    ensures h.lower(GlobString(tokens)) == GlobString(tokens)
  {
    GlobStringChars(tokens);
    assert Plain(42) && Plain(63) && Plain(92);
    GlobCharsLowered(h, tokens);
    LowerFixes(h, GlobString(tokens));
  }

  lemma ValuesSeparable(tokens: seq<Token>)
    requires AllLiteral(tokens)
    ensures Separable(Values(tokens)) <==> TokensSeparable(tokens)
  {
    var cs := Values(tokens);
    forall i | 0 <= i < |tokens| - 1
      ensures LiteralPair(tokens[i], tokens[i + 1]) <==> LoneHigh(cs[i]) && LoneLow(cs[i + 1])
    {}
  }

  /** A glob as a filter passes the texts the glob matches (both lower-cased when case is ignored). */
  lemma GlobFilterExact(h: Host, field: Str, tokens: seq<Token>, ignoreCase: bool, row: Row)
    requires h.Lawful() && Valid(tokens) && TokensSeparable(tokens)
    requires ignoreCase ==> LoweredTokens(h, tokens)
    ensures FilterMatches(h, GlobFilter(field, tokens, ignoreCase), row) <==>
            field in row && IsText(row[field]) && Accepts(tokens, Chars(LowerIf(h, ignoreCase, row[field].scalar.text)))
  {
    hide Accepts, Chars, ParseChars, GlobString, Join, Host.Lowered;
    if AllLiteral(tokens) {
      var cs := Values(tokens);
      var text := Join(cs);
      EqualsMeaning(h, field, [String(text)], ignoreCase, row);
      assert [String(text)][0] == String(text);
      ValuesSeparable(tokens);
      CharsJoin(cs);
      if ignoreCase { JoinLowered(h, cs); }
      if field in row && IsText(row[field]) {
        var actual := LowerIf(h, ignoreCase, row[field].scalar.text);
        LiteralAccepts(tokens, Chars(actual));
        if Chars(actual) == cs { JoinChars(actual); }
      }
    } else if AllStars(tokens) {
      if field in row && IsText(row[field]) {
        AllStarsAccept(tokens, Chars(LowerIf(h, ignoreCase, row[field].scalar.text)));
      }
    } else {
      GlobRoundTrip(tokens);
      if ignoreCase { GlobStringLowered(h, tokens); }
    }
  }

  // --- exactly when the filter is exact ------------------------------------------------------------

  /** A text the tokens match: the literals, with one character for every wildcard. */
  function Instance(tokens: seq<Token>): (cs: seq<Str>)
    ensures |cs| == |tokens|
  {
    seq(|tokens|, i requires 0 <= i < |tokens| => if tokens[i].Char? then tokens[i].value else QUESTION)
  }

  lemma {:induction false} InstanceAccepted(tokens: seq<Token>)
    ensures Accepts(tokens, Instance(tokens))
  {
    if tokens != [] {
      InstanceAccepted(tokens[1..]);
      assert Instance(tokens)[1..] == Instance(tokens[1..]);
      if tokens[0].Star? { assert Accepts(tokens, Instance(tokens[1..])); }
    }
  }

  lemma {:induction false} ParsedSeparable(tokens: seq<Token>)
    requires Valid(tokens)
    ensures var u := ParseChars(Chars(GlobString(tokens)));
            && TokensSeparable(u) && Valid(u)
            && (tokens == [] ==> u == [])
            && (u != [] && u[0].Char? && LoneLow(u[0].value) ==> tokens != [] && u[0] == tokens[0])
    decreases |tokens|
  {
    hide Chars;
    if tokens != [] {
      var u := ParseChars(Chars(GlobString(tokens)));
      if |tokens| >= 2 && LiteralPair(tokens[0], tokens[1]) {
        ParsedSeparable(tokens[2..]);
        PairParses(tokens);
        Glob.SeparableTail(u);
      } else {
        ParsedSeparable(tokens[1..]);
        FirstTokenParses(tokens);
        assert u[1..] == ParseChars(Chars(GlobString(tokens[1..])));
        Glob.SeparableTail(u);
      }
    }
  }

  lemma PairParses(tokens: seq<Token>)
    requires |tokens| >= 2 && LiteralPair(tokens[0], tokens[1])
    ensures var rest := ParseChars(Chars(GlobString(tokens[2..])));
            var u := ParseChars(Chars(GlobString(tokens)));
            u == [Char(tokens[0].value + tokens[1].value)] + rest && u[1..] == rest
  {
    var a, b, more := tokens[0].value, tokens[1].value, GlobString(tokens[2..]);
    PairText(tokens);
    hide GlobString, ParseChars, Chars;
    CharsConcat(a + b, more);
    CharsOfChar(a + b);
    ParseHead(a + b, Chars(more));
  }

  ghost predicate FilterExact(h: Host, field: Str, tokens: seq<Token>) {
    forall text: Str ::
      FilterMatches(h, GlobFilter(field, tokens, false), map[field := Single(String(text))]) <==>
      Accepts(tokens, Chars(text))
  }

  /**
   * The filter of a glob is exact for every text exactly when no unpaired high surrogate is followed by an unpaired
   * low one among its literals; otherwise the glob matches nothing while the filter, which joins the two, does.
   */
  lemma GlobFilterExactIff(h: Host, field: Str, tokens: seq<Token>)
    requires h.Lawful() && Valid(tokens)
    ensures FilterExact(h, field, tokens) <==> TokensSeparable(tokens)
  {
    hide Accepts, Chars, ParseChars, GlobString, Join, Host.Lawful;
    if TokensSeparable(tokens) {
      forall text: Str
        ensures FilterMatches(h, GlobFilter(field, tokens, false), map[field := Single(String(text))]) <==> Accepts(tokens, Chars(text))
      {
        GlobFilterExact(h, field, tokens, false, map[field := Single(String(text))]);
      }
    } else {
      var text := Witness(tokens);
      var row := map[field := Single(String(text))];
      var i :| 0 <= i < |tokens| - 1 && LiteralPair(tokens[i], tokens[i + 1]);
      if Accepts(tokens, Chars(text)) {
        CharsSeparable(text);
        var j := InseparableMatchesNothing(tokens, Chars(text), i);
      }
      if AllLiteral(tokens) {
        EqualsMeaning(h, field, [String(text)], false, row);
        assert SameValue(h, row[field], [String(text)][0], false);
      } else {
        var u := ParseChars(Chars(GlobString(tokens)));
        ParsedSeparable(tokens);
        InstanceSeparable(u);
        CharsJoin(Instance(u));
        InstanceAccepted(u);
      }
      assert FilterMatches(h, GlobFilter(field, tokens, false), row);
    }
  }

  /** The text the filter of inseparable tokens accepts by mistake. */
  function Witness(tokens: seq<Token>): Str {
    if AllLiteral(tokens) then Join(Values(tokens)) else Join(Instance(ParseChars(Chars(GlobString(tokens)))))
  }

  lemma InstanceSeparable(tokens: seq<Token>)
    requires Valid(tokens) && TokensSeparable(tokens)
    ensures AllChars(Instance(tokens)) && Separable(Instance(tokens))
  {
    var cs := Instance(tokens);
    forall i | 0 <= i < |cs| - 1
      ensures !(LoneHigh(cs[i]) && LoneLow(cs[i + 1]))
    {
      assert !LiteralPair(tokens[i], tokens[i + 1]);
    }
  }

  // --- the ids a pattern admits --------------------------------------------------------------------

  ghost predicate SomeState(tokens: seq<Token>, states: set<nat>, cs: seq<Str>) {
    exists s :: s in states && s <= |tokens| && Accepts(tokens[s..], cs)
  }

  /** Every place a star can be left from is a place too. */
  ghost predicate Closed(tokens: seq<Token>, states: set<nat>) {
    && (forall s :: s in states ==> s <= |tokens|)
    && (forall s :: s in states && s < |tokens| && tokens[s].Star? ==> s + 1 in states)
  }

  /** `closure`. */
  method Closure(tokens: seq<Token>, states: set<nat>) returns (r: set<nat>)
    requires forall s :: s in states ==> s <= |tokens|
    ensures Closed(tokens, r) && states <= r
    ensures forall cs :: SomeState(tokens, r, cs) <==> SomeState(tokens, states, cs)
  {
    hide Accepts;
    r := states;
    var todo := states;
    while todo != {}
      invariant todo <= states <= r && (forall s :: s in r ==> s <= |tokens|)
      invariant forall s :: s in r && s < |tokens| && tokens[s].Star? ==> s + 1 in r || s in todo
      invariant forall cs :: SomeState(tokens, r, cs) <==> SomeState(tokens, states, cs)
      decreases todo
    {
      var state :| state in todo;
      var at: nat := state;
      while at < |tokens| && tokens[at].Star?
        invariant state <= at <= |tokens| && at in r && states <= r && (forall s :: s in r ==> s <= |tokens|)
        invariant forall s :: s in r && s < |tokens| && tokens[s].Star? ==> s + 1 in r || s in todo || s == at
        invariant state < at ==> state + 1 in r
        invariant forall cs :: SomeState(tokens, r, cs) <==> SomeState(tokens, states, cs)
        decreases |tokens| - at
      {
        forall cs
          ensures SomeState(tokens, r + {at + 1}, cs) <==> SomeState(tokens, r, cs)
        {
          StarReaches(tokens, r, at, cs);
        }
        at := at + 1;
        r := r + {at};
      }
      todo := todo - {state};
    }
  }

  lemma StarReaches(tokens: seq<Token>, states: set<nat>, at: nat, cs: seq<Str>)
    requires at in states && at < |tokens| && tokens[at].Star?
    ensures SomeState(tokens, states + {at + 1}, cs) <==> SomeState(tokens, states, cs)
  {
    assert tokens[at..][1..] == tokens[at + 1..];
    assert Accepts(tokens[at + 1..], cs) ==> Accepts(tokens[at..], cs);
    if SomeState(tokens, states, cs) {
      var s :| s in states && s <= |tokens| && Accepts(tokens[s..], cs);
      assert s in states + {at + 1};
    }
  }

  function NextOf(tokens: seq<Token>, state: nat, c: Str): set<nat>
    requires state <= |tokens|
  {
    if state == |tokens| then {}
    else match tokens[state]
      case Star => {state}
      case Any => {state + 1}
      case Char(value) => if value == c then {state + 1} else {}
  }

  lemma {:induction false} StepForward(tokens: seq<Token>, states: set<nat>, s: nat, c: Str, cs: seq<Str>) returns (from: nat, to: nat)
    requires Closed(tokens, states) && s in states && Accepts(tokens[s..], [c] + cs)
    ensures from in states && to in NextOf(tokens, from, c) && to <= |tokens| && Accepts(tokens[to..], cs)
    decreases |tokens| - s
  {
    var rest := tokens[s..];
    assert ([c] + cs)[1..] == cs && rest[1..] == tokens[s + 1..] && rest[0] == tokens[s];
    if tokens[s].Star? && Accepts(rest[1..], [c] + cs) {
      from, to := StepForward(tokens, states, s + 1, c, cs);
    } else if tokens[s].Star? {
      from, to := s, s;
    } else {
      from, to := s, s + 1;
    }
  }

  lemma StepBackward(tokens: seq<Token>, from: nat, to: nat, c: Str, cs: seq<Str>)
    requires from <= |tokens| && to in NextOf(tokens, from, c) && to <= |tokens| && Accepts(tokens[to..], cs)
    ensures Accepts(tokens[from..], [c] + cs)
  {
    assert ([c] + cs)[1..] == cs && tokens[from..][1..] == tokens[from + 1..];
  }

  ghost predicate FedBy(tokens: seq<Token>, states: set<nat>, next: set<nat>, c: Str) {
    && (forall s, t :: s in states && s <= |tokens| && t in NextOf(tokens, s, c) ==> t in next)
    && (forall t :: t in next ==> t <= |tokens| && exists s :: s in states && s <= |tokens| && t in NextOf(tokens, s, c))
  }

  lemma StepMeaning(tokens: seq<Token>, states: set<nat>, next: set<nat>, c: Str, cs: seq<Str>)
    requires Closed(tokens, states) && FedBy(tokens, states, next, c)
    ensures SomeState(tokens, next, cs) <==> SomeState(tokens, states, [c] + cs)
  {
    if SomeState(tokens, states, [c] + cs) {
      var s :| s in states && s <= |tokens| && Accepts(tokens[s..], [c] + cs);
      var from, to := StepForward(tokens, states, s, c, cs);
    }
    if SomeState(tokens, next, cs) {
      var t :| t in next && t <= |tokens| && Accepts(tokens[t..], cs);
      var s :| s in states && s <= |tokens| && t in NextOf(tokens, s, c);
      StepBackward(tokens, s, t, c, cs);
    }
  }

  /** One character of the prefix: where every state goes. */
  method Advance(tokens: seq<Token>, states: set<nat>, c: Str) returns (next: set<nat>)
    requires forall s :: s in states ==> s <= |tokens|
    ensures FedBy(tokens, states, next, c)
  {
    next := {};
    var todo := states;
    while todo != {}
      invariant todo <= states && FedBy(tokens, states - todo, next, c)
      decreases todo
    {
      var state :| state in todo;
      var more := NextOf(tokens, state, c);
      assert states - (todo - {state}) == (states - todo) + {state};
      forall t | t in next + more
        ensures exists s :: s in (states - todo) + {state} && s <= |tokens| && t in NextOf(tokens, s, c)
      {
        if t in next {
          var s :| s in states - todo && s <= |tokens| && t in NextOf(tokens, s, c);
          assert s in (states - todo) + {state};
        } else {
          assert state in (states - todo) + {state};
        }
      }
      next := next + more;
      todo := todo - {state};
    }
    assert states - {} == states;
  }

  /** The filter of one state's rest of the pattern; ids are nonempty. */
  function RestFilter(rest: seq<Token>): ResourceFilter {
    if rest == [] then False
    else if AllStars(rest) then True
    else GlobFilter(U("id"), rest, false)
  }

  lemma RestPlanned(rest: seq<Token>)
    ensures Planned(RestFilter(rest)) && !RestFilter(rest).Or?
    ensures RestFilter(rest).False? ==> rest == []
  {
    GlobFilterPlanned(U("id"), rest, false);
  }

  lemma {:induction false} SuffixSeparable(tokens: seq<Token>, s: nat)
    requires s <= |tokens| && Valid(tokens)
    ensures Valid(tokens[s..])
    ensures TokensSeparable(tokens) ==> TokensSeparable(tokens[s..])
  {
    var rest := tokens[s..];
    forall i | 0 <= i < |rest| - 1
      ensures LiteralPair(rest[i], rest[i + 1]) ==> LiteralPair(tokens[s + i], tokens[s + i + 1])
    {}
  }

  lemma RestExact(h: Host, rest: seq<Token>, id: Str, row: Row)
    requires h.Lawful() && Valid(rest) && TokensSeparable(rest)
    requires id != [] && U("id") in row && row[U("id")] == Single(String(id))
    ensures FilterMatches(h, RestFilter(rest), row) <==> Accepts(rest, Chars(id))
  {
    hide Accepts;
    if rest == [] {
      EmptyAccepts(Chars(id));
    } else if AllStars(rest) {
      AllStarsAccept(rest, Chars(id));
    } else {
      GlobFilterExact(h, U("id"), rest, false, row);
    }
  }

  lemma EmptyAccepts(cs: seq<Str>)
    ensures Accepts([], cs) <==> cs == []
  {}
}
