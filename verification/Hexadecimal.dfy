/** Code units as four lower-case hexadecimal digits, and strings as runs of them. */
module Hexadecimal {
  import opened Wrappers
  import opened Text

  function HexDigit(n: int): CodeUnit
    requires 0 <= n < 16
  {
    if n < 10 then 48 + n else 87 + n
  }

  function DigitValue(u: CodeUnit): Option<nat> {
    if 48 <= u <= 57 then Some(u - 48) else if 97 <= u <= 102 then Some(u - 87) else None
  }

  /** A code unit as four lower-case digits. */
  function Quad(u: CodeUnit): (r: Str)
    ensures |r| == 4
  {
    [HexDigit(u / 4096), HexDigit(u / 256 % 16), HexDigit(u / 16 % 16), HexDigit(u % 16)]
  }

  function QuadValue(s: Str): Option<CodeUnit>
    requires |s| == 4
  {
    var a, b, c, d := DigitValue(s[0]), DigitValue(s[1]), DigitValue(s[2]), DigitValue(s[3]);
    if a.Some? && b.Some? && c.Some? && d.Some? && a.value < 16 && b.value < 16 && c.value < 16 && d.value < 16
    then Some(a.value * 4096 + b.value * 256 + c.value * 16 + d.value)
    else None
  }

  function Hex(s: Str): Str { if s == [] then [] else Quad(s[0]) + Hex(s[1..]) }

  /** Undefined unless the string is a run of four-digit groups. */
  function FromHex(s: Str): Option<Str> {
    if s == [] then Some([])
    else if |s| < 4 || QuadValue(s[..4]).None? || FromHex(s[4..]).None? then None
    else Some([QuadValue(s[..4]).value] + FromHex(s[4..]).value)
  }

  lemma DigitInverse(n: int, u: CodeUnit)
    requires 0 <= n < 16
    ensures DigitValue(HexDigit(n)) == Some(n)
    ensures DigitValue(u).Some? ==> DigitValue(u).value < 16 && HexDigit(DigitValue(u).value) == u
  {}

  lemma Places(a: int, b: int, c: int, d: int)
    requires 0 <= a < 16 && 0 <= b < 16 && 0 <= c < 16 && 0 <= d < 16
    ensures var v := a * 4096 + b * 256 + c * 16 + d;
            v < 0x1_0000 && v / 4096 == a && v / 256 % 16 == b && v / 16 % 16 == c && v % 16 == d
  {
    var v := a * 4096 + b * 256 + c * 16 + d;
    assert v / 256 == a * 16 + b && v / 16 == a * 256 + b * 16 + c;
  }

  lemma Composed(u: CodeUnit)
    ensures 0 <= u / 4096 < 16
    ensures u / 4096 * 4096 + u / 256 % 16 * 256 + u / 16 % 16 * 16 + u % 16 == u
  {
    var a, b, c := u / 16, u / 256, u / 4096;
    assert u == a * 16 + u % 16;
    assert b == a / 16 && a == b * 16 + a % 16;
    assert c == b / 16 && b == c * 16 + b % 16;
  }

  lemma QuadRead(u: CodeUnit)
    ensures QuadValue(Quad(u)) == Some(u)
  {
    hide DigitValue, HexDigit;
    Composed(u);
    DigitInverse(u / 4096, 0);
    DigitInverse(u / 256 % 16, 0);
    DigitInverse(u / 16 % 16, 0);
    DigitInverse(u % 16, 0);
  }

  lemma QuadWritten(s: Str)
    requires |s| == 4 && QuadValue(s).Some?
    ensures Quad(QuadValue(s).value) == s
  {
    hide DigitValue, HexDigit;
    DigitInverse(0, s[0]);
    DigitInverse(0, s[1]);
    DigitInverse(0, s[2]);
    DigitInverse(0, s[3]);
    Places(DigitValue(s[0]).value, DigitValue(s[1]).value, DigitValue(s[2]).value, DigitValue(s[3]).value);
  }

  lemma QuadDigits(s: Str)
    requires |s| == 4
    ensures QuadValue(s).Some? <==> forall i :: 0 <= i < 4 ==> DigitValue(s[i]).Some?
  {
    DigitInverse(0, s[0]);
    DigitInverse(0, s[1]);
    DigitInverse(0, s[2]);
    DigitInverse(0, s[3]);
  }

  /** `fromHex` is exactly the inverse of `hexString`: it reads its output and refuses anything else. */
  lemma {:induction false} HexInverse(s: Str, text: Str)
    ensures FromHex(text) == Some(s) <==> text == Hex(s)
  {
    if text == [] {
    } else if |text| >= 4 && s != [] {
      HexInverse(s[1..], text[4..]);
      hide QuadValue, Quad;
      QuadRead(s[0]);
      if QuadValue(text[..4]).Some? { QuadWritten(text[..4]); }
      assert text == text[..4] + text[4..] && s == [s[0]] + s[1..];
      if text == Hex(s) {
        assert text[..4] == Quad(s[0]) && text[4..] == Hex(s[1..]);
      }
      if FromHex(text) == Some(s) {
        assert FromHex(text).value[0] == s[0] && FromHex(text).value[1..] == s[1..];
      }
    }
  }

  method HexString(value: Str) returns (out: Str)
    ensures out == Hex(value)
  {
    out := [];
    var i := 0;
    assert value[0..] == value;
    while i < |value|
      invariant i <= |value| && out + Hex(value[i..]) == Hex(value)
    {
      assert value[i..][1..] == value[i + 1..];
      assert out + (Quad(value[i]) + Hex(value[i + 1..])) == out + Quad(value[i]) + Hex(value[i + 1..]);
      out := out + Quad(value[i]);
      i := i + 1;
    }
    assert out + [] == out;
  }

  predicate HexDigits(s: Str) { forall i :: 0 <= i < |s| ==> DigitValue(s[i]).Some? }

  /** The test `fromHex` makes first: whole groups of hexadecimal digits. */
  lemma {:induction false} GroupsParse(s: Str)
    ensures FromHex(s).Some? <==> |s| % 4 == 0 && HexDigits(s)
  {
    if |s| >= 4 {
      hide QuadValue, DigitValue;
      GroupsParse(s[4..]);
      FourLess(|s|);
      QuadDigits(s[..4]);
      DigitsSplit(s);
    }
  }

  lemma FourLess(n: int)
    ensures (n - 4) % 4 == n % 4
  {}

  lemma DigitsSplit(s: Str)
    requires |s| >= 4
    ensures HexDigits(s) <==> HexDigits(s[..4]) && HexDigits(s[4..])
  {
    hide DigitValue;
    assert forall i :: 4 <= i < |s| ==> s[i] == s[4..][i - 4];
    assert forall i :: 0 <= i < |s[4..]| ==> s[4..][i] == s[i + 4];
    assert forall i :: 0 <= i < 4 ==> s[..4][i] == s[i];
  }

  lemma FromHexStep(s: Str)
    requires s != [] && FromHex(s).Some?
    ensures |s| >= 4 && QuadValue(s[..4]).Some? && FromHex(s[4..]).Some?
    ensures FromHex(s).value == [QuadValue(s[..4]).value] + FromHex(s[4..]).value
  {}

  lemma FromHexEnd()
    ensures FromHex([]) == Some([])
  {}

  method DecodeHex(value: Str) returns (out: Option<Str>)
    ensures out == FromHex(value)
  {
    GroupsParse(value);
    if |value| % 4 != 0 || !HexDigits(value) { return None; }
    hide FromHex, QuadValue;
    var text: Str := [];
    var i := 0;
    assert value[0..] == value;
    while i < |value|
      invariant i <= |value| && FromHex(value[i..]).Some?
      invariant text + FromHex(value[i..]).value == FromHex(value).value
    {
      assert value[i..][..4] == value[i..i + 4] && value[i..][4..] == value[i + 4..];
      FromHexStep(value[i..]);
      var unit := QuadValue(value[i..i + 4]);
      assert text + ([unit.value] + FromHex(value[i + 4..]).value) == text + [unit.value] + FromHex(value[i + 4..]).value;
      text := text + [unit.value];
      i := i + 4;
    }
    assert value[i..] == [];
    FromHexEnd();
    assert text + [] == text;
    return Some(text);
  }
}
