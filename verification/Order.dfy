/** The order of record ids: by UTF-16 units, corrected so that it is the order of code points. */
module Order {
  import opened Text

  /** Puts surrogates, which stand for the code points above U+FFFF, behind every other unit. */
  function Rank(u: CodeUnit): (r: int)
    ensures 0 <= r < 0x1_0000
  {
    if u < 0xD800 then u else if u >= 0xE000 then u - 0x800 else u + 0x2000
  }

  function Compare(left: Str, right: Str): int {
    if left == [] || right == [] then |left| - |right|
    else if left[0] == right[0] then Compare(left[1..], right[1..])
    else Rank(left[0]) - Rank(right[0])
  }

  predicate Less(a: Str, b: Str) { Compare(a, b) < 0 }

  /** `compareIds`. */
  method CompareIds(left: Str, right: Str) returns (r: int)
    ensures r == Compare(left, right)
  {
    var length := if |left| <= |right| then |left| else |right|;
    var index := 0;
    assert left[0..] == left && right[0..] == right;
    while index < length
      invariant 0 <= index <= length
      invariant Compare(left, right) == Compare(left[index..], right[index..])
    {
      var a, b: int := left[index], right[index];
      assert left[index..][1..] == left[index + 1..] && right[index..][1..] == right[index + 1..];
      if a != b {
        if a >= 0xD800 { a := if a >= 0xE000 then a - 0x800 else a + 0x2000; }
        if b >= 0xD800 { b := if b >= 0xE000 then b - 0x800 else b + 0x2000; }
        return a - b;
      }
      index := index + 1;
    }
    r := |left| - |right|;
  }

  // --- a total order -----------------------------------------------------------------------------

  lemma {:induction false} CompareZero(a: Str, b: Str)
    ensures Compare(a, b) == 0 <==> a == b
  {
    if a != [] && b != [] {
      CompareZero(a[1..], b[1..]);
      if a[0] == b[0] && a[1..] == b[1..] {
        assert a == [a[0]] + a[1..] && b == [b[0]] + b[1..];
      }
    }
  }

  lemma {:induction false} CompareFlips(a: Str, b: Str)
    ensures Compare(a, b) == -Compare(b, a)
  {
    if a != [] && b != [] { CompareFlips(a[1..], b[1..]); }
  }

  lemma {:induction false} LessTransitive(a: Str, b: Str, c: Str)
    requires Less(a, b) && Less(b, c)
    ensures Less(a, c)
  {
    if a != [] && b != [] && c != [] && a[0] == b[0] && b[0] == c[0] {
      LessTransitive(a[1..], b[1..], c[1..]);
    }
  }

  /** Ids are totally ordered: of two different ones exactly one comes first, and first-ness is transitive. */
  lemma TotalOrder(a: Str, b: Str, c: Str)
    ensures !Less(a, a)
    ensures a != b ==> (Less(a, b) <==> !Less(b, a))
    ensures Less(a, b) && Less(b, c) ==> Less(a, c)
  {
    CompareZero(a, a);
    CompareZero(a, b);
    CompareFlips(a, b);
    if Less(a, b) && Less(b, c) { LessTransitive(a, b, c); }
  }

  // --- the order of code points --------------------------------------------------------------------

  function CodePoint(c: Str): int
    requires IsChar(c)
  {
    if |c| == 1 then c[0]
    else
      var high: int, low: int := c[0], c[1];
      0x1_0000 + (high - 0xD800) * 0x400 + (low - 0xDC00)
  }

  function CodePoints(s: Str): (r: seq<int>)
    ensures |r| == |Chars(s)|
  {
    var cs := Chars(s);
    seq(|cs|, i requires 0 <= i < |cs| => CodePoint(cs[i]))
  }

  /** Plain lexicographic comparison. */
  function Lexicographic(a: seq<int>, b: seq<int>): int {
    if a == [] || b == [] then |a| - |b|
    else if a[0] == b[0] then Lexicographic(a[1..], b[1..])
    else a[0] - b[0]
  }

  function Sign(n: int): int { if n < 0 then -1 else if n > 0 then 1 else 0 }

  lemma CodePointsFirst(s: Str)
    requires s != []
    ensures var n := FirstLength(s);
            CodePoints(s) == [CodePoint(s[..n])] + CodePoints(s[n..])
  {
    var n := FirstLength(s);
    assert Chars(s) == [s[..n]] + Chars(s[n..]);
  }

  lemma CleanRest(s: Str)
    requires s != [] && Clean(s)
    ensures CleanChar(s[..FirstLength(s)]) && Clean(s[FirstLength(s)..])
  {
    var n := FirstLength(s);
    var cs, rest := Chars(s), Chars(s[n..]);
    assert cs == [s[..n]] + rest;
    assert cs[0] == s[..n];
    forall i | 0 <= i < |rest|
      ensures CleanChar(rest[i])
    { assert rest[i] == cs[i + 1]; }
  }

  lemma SameFirst(a: Str, b: Str)
    requires a != [] && b != [] && a[..FirstLength(a)] == b[..FirstLength(b)]
    ensures Compare(a, b) == Compare(a[FirstLength(a)..], b[FirstLength(b)..])
  {
    var n := FirstLength(a);
    assert |a[..n]| == |b[..FirstLength(b)]|;
    assert a[0] == a[..n][0] == b[..n][0] == b[0];
    if n == 2 {
      assert a[1] == a[..n][1] == b[..n][1] == b[1];
      assert a[1..][1..] == a[2..] && b[1..][1..] == b[2..];
    }
  }

  lemma EmptyEnds(a: Str, b: Str)
    requires a == [] || b == []
    ensures Sign(Compare(a, b)) == Sign(Lexicographic(CodePoints(a), CodePoints(b)))
  {
    assert a != [] ==> Chars(a) != [];
    assert b != [] ==> Chars(b) != [];
  }

  /**
   * The unpaired surrogate `c` is behind `d` among units and before it among code points: `d` is one of the units above
   * the surrogates, or a pair that starts with a smaller half.
   */
  predicate Misplaced(c: Str, d: Str)
    requires IsChar(c) && IsChar(d)
  {
    |c| == 1 && Surrogate(c[0]) && if |d| == 1 then d[0] >= 0xE000 else d[0] < c[0]
  }

  /** Where the two strings first differ, neither character is misplaced against the other. */
  predicate OrdersAgree(a: Str, b: Str)
    decreases |a|
  {
    a == [] || b == [] ||
    var x, y := a[..FirstLength(a)], b[..FirstLength(b)];
    if x == y then OrdersAgree(a[FirstLength(a)..], b[FirstLength(b)..]) else !Misplaced(x, y) && !Misplaced(y, x)
  }

  /** Two different first characters: how each order compares the strings. */
  lemma FirstCharacters(a: Str, b: Str)
    requires a != [] && b != [] && a[..FirstLength(a)] != b[..FirstLength(b)]
    ensures var x, y := a[..FirstLength(a)], b[..FirstLength(b)];
            && Sign(CodePoint(x) - CodePoint(y)) != 0
            && (Sign(Compare(a, b)) == Sign(CodePoint(x) - CodePoint(y)) <==> !Misplaced(x, y) && !Misplaced(y, x))
  {
    var x, y := a[..FirstLength(a)], b[..FirstLength(b)];
    if |x| == 2 && |y| == 2 && a[0] == b[0] {
      assert a[1..][0] == x[1] && b[1..][0] == y[1] && x[1] != y[1];
      assert x == [x[0], x[1]] && y == [y[0], y[1]];
    } else if |x| == 1 && |y| == 1 {
      assert x == [a[0]] && y == [b[0]];
    }
  }

  /** For all strings: the two orders say the same exactly when no unpaired surrogate is misplaced where they differ. */
  lemma {:induction false} OrdersPart(a: Str, b: Str)
    ensures Sign(Compare(a, b)) == Sign(Lexicographic(CodePoints(a), CodePoints(b))) <==> OrdersAgree(a, b)
    decreases |a|
  {
    hide CodePoints, Compare, CodePoint, Misplaced;
    if a == [] || b == [] {
      EmptyEnds(a, b);
    } else {
      CodePointsFirst(a);
      CodePointsFirst(b);
      var n, m := FirstLength(a), FirstLength(b);
      if a[..n] == b[..m] {
        SameFirst(a, b);
        OrdersPart(a[n..], b[m..]);
        assert CodePoints(a)[1..] == CodePoints(a[n..]) && CodePoints(b)[1..] == CodePoints(b[m..]);
      } else {
        FirstCharacters(a, b);
      }
    }
  }

  /** Without unpaired surrogates nothing is misplaced: comparing units is comparing decoded code points. */
  lemma ComparesCodePoints(a: Str, b: Str)
    requires Clean(a) && Clean(b)
    ensures Sign(Compare(a, b)) == Sign(Lexicographic(CodePoints(a), CodePoints(b)))
  {
    CleanAgree(a, b);
    OrdersPart(a, b);
  }

  lemma {:induction false} CleanAgree(a: Str, b: Str)
    requires Clean(a) && Clean(b)
    ensures OrdersAgree(a, b)
    decreases |a|
  {
    hide Clean;
    if a != [] && b != [] {
      CleanRest(a);
      CleanRest(b);
      if a[..FirstLength(a)] == b[..FirstLength(b)] { CleanAgree(a[FirstLength(a)..], b[FirstLength(b)..]); }
    }
  }

  // --- the order of code units ---------------------------------------------------------------------

  /** The order of `<` and of `sort()` on strings: by UTF-16 code units. */
  predicate UnitLess(a: Str, b: Str) {
    b != [] && (a == [] || a[0] < b[0] || (a[0] == b[0] && UnitLess(a[1..], b[1..])))
  }

  lemma {:induction false} UnitsOrdered(a: Str, b: Str, c: Str)
    ensures UnitLess(a, b) ==> !UnitLess(b, a)
    ensures a != b ==> UnitLess(a, b) || UnitLess(b, a)
    ensures !UnitLess(b, a) && !UnitLess(c, b) ==> !UnitLess(c, a)
  {
    if a != [] && b != [] && c != [] {
      UnitsOrdered(a[1..], b[1..], c[1..]);
      assert a == [a[0]] + a[1..] && b == [b[0]] + b[1..];
    } else if a != [] && b != [] {
      UnitsOrdered(a[1..], b[1..], []);
      assert a == [a[0]] + a[1..] && b == [b[0]] + b[1..];
    }
  }
}
