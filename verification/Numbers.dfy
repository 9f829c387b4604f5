/** Finite numbers as the program stores them, and codes that tell values apart by the text they start. */
module Numbers {
  import opened Wrappers
  import opened Text

  /**
   * A finite number: its floor, and how many multiples of 2^-1074 it lies above it. Every finite double is one;
   * pairs with larger fractions are not, and what is proved of all pairs holds of the doubles among them.
   */
  datatype Double = Double(whole: int, part: nat)

  function Integer(n: int): Double { Double(n, 0) }

  function Plus(d: Double, n: int): Double { d.(whole := d.whole + n) }

  predicate Below(a: Double, b: Double) { a.whole < b.whole || (a.whole == b.whole && a.part < b.part) }

  // --- codes -----------------------------------------------------------------------------------------

  const ZERO: CodeUnit := 48
  const ONE: CodeUnit := 49
  const MINUS: CodeUnit := 45

  /** As many ones as the number says, and a zero. */
  function NatCode(n: nat): (r: Str)
    ensures |r| == n + 1
    ensures forall i :: 0 <= i < |r| ==> r[i] in {ZERO, ONE}
  {
    if n == 0 then [ZERO] else [ONE] + NatCode(n - 1)
  }

  function IntCode(n: int): (r: Str)
    ensures r != [] && forall i :: 0 <= i < |r| ==> r[i] in {ZERO, ONE, MINUS}
  {
    if n < 0 then [MINUS] + NatCode(-n) else NatCode(n)
  }

  function DoubleCode(d: Double): (r: Str)
    ensures r != [] && forall i :: 0 <= i < |r| ==> r[i] in {ZERO, ONE, MINUS}
  {
    IntCode(d.whole) + NatCode(d.part)
  }

  function TextCode(s: Str): Str { NatCode(|s|) + s }

  function OptionCode<T>(code: T -> Str, v: Option<T>): Str { if v.None? then [ZERO] else [ONE] + code(v.value) }

  /** Texts that start with the codes of two values differ, unless the values are the same and so are the rests. */
  ghost predicate SelfDelimiting<T(!new)>(code: T -> Str) { forall a, b, x, y :: Splits(code, a, b, x, y) }

  predicate Splits<T(==)>(code: T -> Str, a: T, b: T, x: Str, y: Str) {
    code(a) + x == code(b) + y ==> a == b && x == y
  }

  lemma FirstAndRest(u: CodeUnit, x: Str, v: CodeUnit, y: Str)
    requires [u] + x == [v] + y
    ensures u == v && x == y
  {
    assert ([u] + x)[0] == u && ([u] + x)[1..] == x && ([v] + y)[1..] == y;
  }

  lemma {:induction false} NatUnique(n: nat, m: nat, x: Str, y: Str)
    requires NatCode(n) + x == NatCode(m) + y
    ensures n == m && x == y
  {
    var s, t := NatCode(n) + x, NatCode(m) + y;
    assert s[0] == t[0];
    if n > 0 && m > 0 {
      assert s[1..] == NatCode(n - 1) + x && t[1..] == NatCode(m - 1) + y;
      NatUnique(n - 1, m - 1, x, y);
    } else {
      assert s[1..] == x && t[1..] == y;
    }
  }

  lemma IntUnique(n: int, m: int, x: Str, y: Str)
    requires IntCode(n) + x == IntCode(m) + y
    ensures n == m && x == y
  {
    var s, t := IntCode(n) + x, IntCode(m) + y;
    assert s[0] == t[0];
    if n < 0 {
      assert s[1..] == NatCode(-n) + x && t[1..] == NatCode(-m) + y;
      NatUnique(-n, -m, x, y);
    } else {
      NatUnique(n, m, x, y);
    }
  }

  lemma DoubleUnique(d: Double, e: Double, x: Str, y: Str)
    requires DoubleCode(d) + x == DoubleCode(e) + y
    ensures d == e && x == y
  {
    assert DoubleCode(d) + x == IntCode(d.whole) + (NatCode(d.part) + x);
    assert DoubleCode(e) + y == IntCode(e.whole) + (NatCode(e.part) + y);
    IntUnique(d.whole, e.whole, NatCode(d.part) + x, NatCode(e.part) + y);
    NatUnique(d.part, e.part, x, y);
  }

  lemma TextUnique(s: Str, t: Str, x: Str, y: Str)
    requires TextCode(s) + x == TextCode(t) + y
    ensures s == t && x == y
  {
    assert TextCode(s) + x == NatCode(|s|) + (s + x);
    assert TextCode(t) + y == NatCode(|t|) + (t + y);
    NatUnique(|s|, |t|, s + x, t + y);
    assert (s + x)[..|s|] == s && (t + y)[..|t|] == t;
    assert (s + x)[|s|..] == x && (t + y)[|t|..] == y;
  }

  lemma OptionUnique<T(!new)>(code: T -> Str, v: Option<T>, w: Option<T>, x: Str, y: Str)
    requires SelfDelimiting(code) && OptionCode(code, v) + x == OptionCode(code, w) + y
    ensures v == w && x == y
  {
    hide SelfDelimiting;
    OptionStep(code, v, x);
    OptionStep(code, w, y);
    var xs, ys := if v.None? then x else code(v.value) + x, if w.None? then y else code(w.value) + y;
    hide OptionCode;
    FirstAndRest(if v.None? then ZERO else ONE, xs, if w.None? then ZERO else ONE, ys);
    if v.Some? { ValueUnique(code, v.value, w.value, x, y); }
  }

  lemma OptionStep<T>(code: T -> Str, v: Option<T>, x: Str)
    ensures v.None? ==> OptionCode(code, v) + x == [ZERO] + x
    ensures v.Some? ==> OptionCode(code, v) + x == [ONE] + (code(v.value) + x)
  {}

  lemma ValueUnique<T(!new)>(code: T -> Str, a: T, b: T, x: Str, y: Str)
    requires SelfDelimiting(code) && code(a) + x == code(b) + y
    ensures a == b && x == y
  {
    assert Splits(code, a, b, x, y);
  }

  lemma CodesDelimit()
    ensures SelfDelimiting(IntCode) && SelfDelimiting(DoubleCode) && SelfDelimiting(TextCode)
  {
    forall n, m, x, y
      ensures Splits(IntCode, n, m, x, y)
    { if IntCode(n) + x == IntCode(m) + y { IntUnique(n, m, x, y); } }
    forall d, e, x, y
      ensures Splits(DoubleCode, d, e, x, y)
    { if DoubleCode(d) + x == DoubleCode(e) + y { DoubleUnique(d, e, x, y); } }
    forall s, t, x, y
      ensures Splits(TextCode, s, t, x, y)
    { if TextCode(s) + x == TextCode(t) + y { TextUnique(s, t, x, y); } }
  }
}
