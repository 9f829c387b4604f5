/** Strings as the program sees them: sequences of UTF-16 code units, iterated by code point. */
module Text {

  type CodeUnit = u: int | 0 <= u < 0x1_0000
  type Str = seq<CodeUnit>

  /** The string of an ASCII literal. */
  function U(s: string): (r: Str)
    ensures |r| == |s|
  {
    seq(|s|, i requires 0 <= i < |s| => (s[i] as int) % 0x1_0000)
  }

  predicate High(u: CodeUnit) { 0xD800 <= u <= 0xDBFF }

  predicate Low(u: CodeUnit) { 0xDC00 <= u <= 0xDFFF }

  predicate Surrogate(u: CodeUnit) { 0xD800 <= u <= 0xDFFF }

  /** What `trim` removes. */
  predicate White(u: CodeUnit) {
    9 <= u <= 13 || u in {32, 0xA0, 0x1680, 0x2028, 0x2029, 0x202F, 0x205F, 0x3000, 0xFEFF} || 0x2000 <= u <= 0x200A
  }

  /** One character of an iteration: a single unit, or a surrogate pair. */
  predicate IsChar(c: Str) { |c| == 1 || (|c| == 2 && High(c[0]) && Low(c[1])) }

  predicate LoneHigh(c: Str) { |c| == 1 && High(c[0]) }

  predicate LoneLow(c: Str) { |c| == 1 && Low(c[0]) }

  predicate CleanChar(c: Str) { IsChar(c) && !LoneHigh(c) && !LoneLow(c) }

  /** The length of the first character of a nonempty string. */
  function FirstLength(s: Str): (n: nat)
    requires s != []
    ensures 1 <= n <= |s| && IsChar(s[..n])
  {
    if |s| >= 2 && High(s[0]) && Low(s[1]) then 2 else 1
  }

  /** `[...s]`: the characters of a string in order. */
  function Chars(s: Str): (cs: seq<Str>)
    ensures |cs| <= |s|
    ensures forall i :: 0 <= i < |cs| ==> IsChar(cs[i])
  {
    if s == [] then [] else [s[..FirstLength(s)]] + Chars(s[FirstLength(s)..])
  }

  function Join(cs: seq<Str>): Str {
    if cs == [] then [] else cs[0] + Join(cs[1..])
  }

  /** No unpaired surrogate anywhere. */
  predicate Clean(s: Str) { forall i :: 0 <= i < |Chars(s)| ==> CleanChar(Chars(s)[i]) }

  ghost predicate EveryChar(s: Str, P: Str -> bool) {
    forall i :: 0 <= i < |Chars(s)| ==> P(Chars(s)[i])
  }

  /** No lone high surrogate directly before a lone low one: joining keeps the characters apart. */
  predicate Separable(cs: seq<Str>) {
    forall i :: 0 <= i < |cs| - 1 ==> !(LoneHigh(cs[i]) && LoneLow(cs[i + 1]))
  }

  predicate AllChars(cs: seq<Str>) { forall i :: 0 <= i < |cs| ==> IsChar(cs[i]) }

  lemma {:induction false} JoinChars(s: Str)
    ensures Join(Chars(s)) == s
  {
    if s != [] {
      var n := FirstLength(s);
      JoinChars(s[n..]);
      assert Chars(s)[1..] == Chars(s[n..]);
      assert s == s[..n] + s[n..];
    }
  }

  lemma {:induction false} JoinConcat(a: seq<Str>, b: seq<Str>)
    ensures Join(a + b) == Join(a) + Join(b)
  {
    if a == [] {
      assert a + b == b;
    } else {
      JoinConcat(a[1..], b);
      assert (a + b)[1..] == a[1..] + b && (a + b)[0] == a[0];
      assert a[0] + (Join(a[1..]) + Join(b)) == (a[0] + Join(a[1..])) + Join(b);
    }
  }

  /** A boundary that no surrogate pair spans splits the characters too. */
  predicate SplitsCleanly(a: Str, b: Str) {
    a == [] || b == [] || !High(a[|a| - 1]) || !Low(b[0])
  }

  lemma {:induction false} CharsConcat(a: Str, b: Str)
    requires SplitsCleanly(a, b)
    ensures Chars(a + b) == Chars(a) + Chars(b)
  {
    if a == [] {
      assert a + b == b;
    } else if b == [] {
      assert a + b == a;
    } else {
      var s, n := a + b, FirstLength(a);
      assert FirstLength(s) == n;
      assert s[..n] == a[..n];
      assert s[n..] == a[n..] + b;
      CharsConcat(a[n..], b);
      assert Chars(s) == [s[..n]] + Chars(s[n..]);
    }
  }

  lemma EveryCharConcat(a: Str, b: Str, P: Str -> bool)
    requires SplitsCleanly(a, b)
    ensures EveryChar(a + b, P) <==> EveryChar(a, P) && EveryChar(b, P)
  {
    CharsConcat(a, b);
    var ab := Chars(a) + Chars(b);
    if EveryChar(a + b, P) {
      forall i | 0 <= i < |Chars(a)|
        ensures P(Chars(a)[i])
      { assert ab[i] == Chars(a)[i]; }
      forall i | 0 <= i < |Chars(b)|
        ensures P(Chars(b)[i])
      { assert ab[|Chars(a)| + i] == Chars(b)[i]; }
    }
  }

  lemma {:induction false} CharsOfChar(c: Str)
    requires IsChar(c)
    ensures Chars(c) == [c]
  {
    assert c[..FirstLength(c)] == c && c[FirstLength(c)..] == [];
  }

  lemma {:induction false} JoinFirst(cs: seq<Str>)
    requires cs != [] && AllChars(cs)
    ensures Join(cs) != [] && Join(cs)[0] == cs[0][0]
  {}

  lemma SeparableTail(cs: seq<Str>)
    requires cs != []
    ensures Separable(cs) <==> Separable(cs[1..]) && (|cs| >= 2 ==> !(LoneHigh(cs[0]) && LoneLow(cs[1])))
  {
    var rest := cs[1..];
    forall i | 0 <= i < |rest|
      ensures rest[i] == cs[i + 1]
    {}
    if Separable(rest) && (|cs| >= 2 ==> !(LoneHigh(cs[0]) && LoneLow(cs[1]))) {
      forall i | 0 <= i < |cs| - 1
        ensures !(LoneHigh(cs[i]) && LoneLow(cs[i + 1]))
      {
        if i > 0 { assert rest[i - 1] == cs[i] && rest[i] == cs[i + 1]; }
      }
    }
  }

  /** Joining and iterating again returns the characters exactly when they are separable. */
  lemma {:induction false} CharsJoin(cs: seq<Str>)
    requires AllChars(cs)
    ensures |Chars(Join(cs))| <= |cs|
    ensures Separable(cs) ==> Chars(Join(cs)) == cs
    ensures !Separable(cs) ==> |Chars(Join(cs))| < |cs|
  {
    if cs != [] {
      var rest := cs[1..];
      SeparableTail(cs);
      CharsOfChar(cs[0]);
      if |cs| >= 2 { JoinFirst(rest); }
      if |cs| >= 2 && LoneHigh(cs[0]) && LoneLow(cs[1]) {
        CharsJoin(cs[2..]);
        HalvesMerge(cs);
      } else {
        CharsJoin(rest);
        CharsConcat(cs[0], Join(rest));
      }
    }
  }

  lemma HalvesMerge(cs: seq<Str>)
    requires |cs| >= 2 && LoneHigh(cs[0]) && LoneLow(cs[1])
    ensures Chars(Join(cs)) == [cs[0] + cs[1]] + Chars(Join(cs[2..]))
  {
    var pair, more := cs[0] + cs[1], Join(cs[2..]);
    assert Join(cs) == pair + more by {
      assert cs[1..][0] == cs[1] && cs[1..][1..] == cs[2..];
      assert Join(cs[1..]) == cs[1] + more;
      assert cs[0] + (cs[1] + more) == pair + more;
    }
    CharsConcat(pair, more);
    CharsOfChar(pair);
  }

  lemma CharsSeparable(s: Str)
    ensures Separable(Chars(s))
  {
    JoinChars(s);
    CharsJoin(Chars(s));
  }

  lemma CharsInjective(a: Str, b: Str)
    requires Chars(a) == Chars(b)
    ensures a == b
  {
    JoinChars(a);
    JoinChars(b);
  }

  /** Without surrogates every unit is a character. */
  lemma {:induction false} CharsOfUnits(s: Str)
    requires forall i :: 0 <= i < |s| ==> !Surrogate(s[i])
    ensures |Chars(s)| == |s| && forall i :: 0 <= i < |s| ==> Chars(s)[i] == [s[i]]
    ensures Clean(s)
  {
    if s != [] {
      CharsOfUnits(s[1..]);
      assert Chars(s) == [s[..1]] + Chars(s[1..]);
      assert s[..1] == [s[0]];
    }
  }

  predicate OccursAt(s: Str, what: Str, k: nat) {
    k + |what| <= |s| && s[k..k + |what|] == what
  }

  /** `s.indexOf(what, from)`: the first occurrence at or after `from`, or -1. */
  function IndexOf(s: Str, what: Str, from: nat): (at: int)
    ensures at == -1 || (from <= at && at + |what| <= |s| && OccursAt(s, what, at))
    ensures forall k: nat :: from <= k && OccursAt(s, what, k) ==> 0 <= at <= k
    decreases |s| - from
  {
    if from + |what| > |s| then -1
    else if OccursAt(s, what, from) then from
    else IndexOf(s, what, from + 1)
  }
}
