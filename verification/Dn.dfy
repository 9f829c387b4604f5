/** Distinguished names (section 2.4 of RFC 4514): formatting, parsing back, and comparing RDN by RDN. */
module Dn {
  import opened Wrappers
  import opened Text
  import opened Order
  import opened Sorting
  import opened Hexadecimal

  const SPACE: CodeUnit := 32
  const QUOTE: CodeUnit := 34
  const HASH: CodeUnit := 35
  const PLUS: CodeUnit := 43
  const COMMA: CodeUnit := 44
  const SEMICOLON: CodeUnit := 59
  const EQUALS: CodeUnit := 61
  const BACKSLASH: CodeUnit := 92

  const MAX_LENGTH: nat := 4096

  datatype Rdn = Rdn(kind: Str, value: Str)

  type Rdns = seq<seq<Rdn>>

  type Byte = b: int | 0 <= b < 256

  /** What the host does with text: UTF-8 bytes to a string, lower case, and the folding of values. */
  datatype Host = Host(decode: seq<Byte> -> Str, lower: Str -> Str, fold: Str -> Str) {
    /** ASCII bytes are the characters they look like, and lower-casing keeps an attribute type one. */
    ghost predicate Lawful() {
      && (forall bytes :: (forall i :: 0 <= i < |bytes| ==> bytes[i] < 128) ==> decode(bytes) == bytes)
      && forall kind :: LegalKind(kind) ==> LegalKind(lower(kind))
    }
  }

  function Latin(bytes: seq<Byte>): (r: Str)
    ensures |r| == |bytes| && forall i :: 0 <= i < |bytes| ==> r[i] == bytes[i]
  {
    seq(|bytes|, i requires 0 <= i < |bytes| => bytes[i])
  }

  /** There is a lawful host. */
  lemma SomeLawful()
    ensures Host(Latin, (s: Str) => s, (s: Str) => s).Lawful()
  {
    hide LegalKind;
    forall bytes
      ensures Latin(bytes) == bytes
    {}
  }

  // --- formatting ------------------------------------------------------------------------------------

  predicate Special(u: CodeUnit) { u in {COMMA, PLUS, QUOTE, BACKSLASH, 60, 62, SEMICOLON, EQUALS} }

  predicate Control(u: CodeUnit) { u < 32 || u == 127 }

  function HexValue(u: CodeUnit): Option<nat> {
    if 48 <= u <= 57 then Some(u - 48)
    else if 97 <= u <= 102 then Some(u - 87)
    else if 65 <= u <= 70 then Some(u - 55)
    else None
  }

  /** The text of one unit of a value: escaped where it would be read as something else. */
  function EscapeUnit(value: Str, i: nat): Str
    requires i < |value|
  {
    var u := value[i];
    if Special(u) then [BACKSLASH, u]
    else if Control(u) then [BACKSLASH, HexDigit(u / 16), HexDigit(u % 16)]
    else if (i == 0 && (u == SPACE || u == HASH)) || (i == |value| - 1 && u == SPACE) then [BACKSLASH, u]
    else [u]
  }

  function EscapeFrom(value: Str, i: nat): Str
    decreases |value| - i
  {
    if i >= |value| then [] else EscapeUnit(value, i) + EscapeFrom(value, i + 1)
  }

  method EscapeDnValue(value: Str) returns (out: Str)
    ensures out == EscapeFrom(value, 0)
  {
    out := [];
    var i := 0;
    while i < |value|
      invariant i <= |value| && out + EscapeFrom(value, i) == EscapeFrom(value, 0)
    {
      assert out + (EscapeUnit(value, i) + EscapeFrom(value, i + 1)) == out + EscapeUnit(value, i) + EscapeFrom(value, i + 1);
      out := out + EscapeUnit(value, i);
      i := i + 1;
    }
    assert out + [] == out;
  }

  function FormatPart(part: Rdn): Str { part.kind + [EQUALS] + EscapeFrom(part.value, 0) }

  function FormatRdn(rdn: seq<Rdn>): Str {
    if rdn == [] then []
    else if |rdn| == 1 then FormatPart(rdn[0])
    else FormatPart(rdn[0]) + ([PLUS] + FormatRdn(rdn[1..]))
  }

  function FormatDn(rdns: Rdns): Str {
    if rdns == [] then []
    else if |rdns| == 1 then FormatRdn(rdns[0])
    else FormatRdn(rdns[0]) + ([COMMA] + FormatDn(rdns[1..]))
  }

  // --- parsing ---------------------------------------------------------------------------------------

  function TrimStart(s: Str): Str { if s != [] && White(s[0]) then TrimStart(s[1..]) else s }

  function TrimEnd(s: Str): Str { if s != [] && White(s[|s| - 1]) then TrimEnd(s[..|s| - 1]) else s }

  function Trim(s: Str): Str { TrimEnd(TrimStart(s)) }

  predicate AsciiLetter(u: CodeUnit) { 65 <= u <= 90 || 97 <= u <= 122 }

  predicate AsciiDigit(u: CodeUnit) { 48 <= u <= 57 }

  /** A name: a letter, then letters, digits and hyphens. */
  predicate Name(s: Str) {
    s != [] && AsciiLetter(s[0]) && forall i :: 0 <= i < |s| ==> AsciiLetter(s[i]) || AsciiDigit(s[i]) || s[i] == 45
  }

  /** Digits with single points between them. */
  predicate DottedNumber(s: Str) {
    && s != [] && AsciiDigit(s[0]) && AsciiDigit(s[|s| - 1])
    && (forall i :: 0 <= i < |s| ==> AsciiDigit(s[i]) || s[i] == 46)
    && forall i :: 0 < i < |s| ==> s[i - 1] != 46 || s[i] != 46
  }

  /** What may stand before the equals sign. */
  predicate LegalKind(s: Str) { Name(s) || DottedNumber(s) }

  function SkipSpaces(s: Str): (r: Str)
    ensures |r| <= |s|
  {
    if s != [] && s[0] == SPACE then SkipSpaces(s[1..]) else s
  }

  predicate Separator(u: CodeUnit) { u == COMMA || u == PLUS || u == SEMICOLON }

  /** `flushBytes`: the escaped bytes collected so far, as text. */
  function Flush(h: Host, bytes: seq<Byte>): Str { if bytes == [] then [] else h.decode(bytes) }

  predicate HexPair(s: Str) { |s| >= 2 && HexValue(s[0]).Some? && HexValue(s[1]).Some? }

  /** An unquoted value from here: its text, and what is left. */
  function ParseValue(h: Host, s: Str, value: Str, bytes: seq<Byte>, trailing: nat): (r: Option<(Str, Str)>)
    ensures r.Some? ==> |r.value.1| <= |s|
    decreases |s|
  {
    if s == [] || Separator(s[0]) then
      var all := value + Flush(h, bytes);
      Some((if trailing <= |all| then all[..|all| - trailing] else [], s))
    else if s[0] == BACKSLASH then
      if HexPair(s[1..]) then
        ParseValue(h, s[3..], value, bytes + [HexValue(s[1]).value * 16 + HexValue(s[2]).value], 0)
      else if |s| >= 2 then ParseValue(h, s[2..], value + Flush(h, bytes) + [s[1]], [], 0)
      else None
    else ParseValue(h, s[1..], value + Flush(h, bytes) + [s[0]], [], if s[0] == SPACE then trailing + 1 else 0)
  }

  /** A quoted value after its opening quotation mark. */
  function ParseQuoted(s: Str, value: Str): (r: Option<(Str, Str)>)
    ensures r.Some? ==> |r.value.1| <= |s|
    decreases |s|
  {
    if s == [] then None
    else if s[0] == QUOTE then Some((value, SkipSpaces(s[1..])))
    else if s[0] == BACKSLASH then if |s| == 1 then None else ParseQuoted(s[2..], value + [s[1]])
    else ParseQuoted(s[1..], value + [s[0]])
  }

  /** One attribute type and value. */
  function ParsePart(h: Host, s: Str): (r: Option<(Rdn, Str)>)
    ensures r.Some? ==> LegalKind(r.value.0.kind) && |r.value.1| < |s|
  {
    var from := SkipSpaces(s);
    var at := IndexOf(from, [EQUALS], 0);
    if at < 0 || !LegalKind(Trim(from[..at])) then None
    else
      var after := SkipSpaces(from[at + 1..]);
      var parsed :=
        if after != [] && after[0] == QUOTE then ParseQuoted(after[1..], []) else ParseValue(h, after, [], [], 0);
      if parsed.None? then None else Some((Rdn(Trim(from[..at]), parsed.value.0), parsed.value.1))
  }

  function Prepend(rdn: seq<Rdn>, rest: Option<Rdns>): Option<Rdns> {
    if rest.None? then None else Some([rdn] + rest.value)
  }

  /** The rest of a name, given the parts of the RDN so far. Any unit ends a part; only `+` continues its RDN. */
  function ParseFrom(h: Host, s: Str, current: seq<Rdn>): Option<Rdns>
    decreases |s|
  {
    var part := ParsePart(h, s);
    if part.None? then None
    else
      var rdn, rest := current + [part.value.0], part.value.1;
      if rest == [] then Some([rdn])
      else if rest[0] == PLUS then ParseFrom(h, rest[1..], rdn)
      else Prepend(rdn, ParseFrom(h, rest[1..], []))
  }

  /** `parseDn`. */
  function ParseDn(h: Host, dn: Str): Option<Rdns> {
    if |dn| > MAX_LENGTH then None else if Trim(dn) == [] then Some([]) else ParseFrom(h, dn, [])
  }

  // --- parsing back what was formatted ---------------------------------------------------------------

  predicate Legal(rdns: Rdns) { forall i :: 0 <= i < |rdns| ==> rdns[i] != [] && LegalParts(rdns[i]) }

  predicate LegalParts(rdn: seq<Rdn>) { forall i :: 0 <= i < |rdn| ==> LegalKind(rdn[i].kind) }

  predicate Ends(tail: Str) { tail == [] || Separator(tail[0]) }

  lemma ControlBack(u: CodeUnit)
    requires Control(u)
    ensures 0 <= u / 16 < 16 && HexValue(HexDigit(u / 16)) == Some(u / 16) && HexValue(HexDigit(u % 16)) == Some(u % 16)
    ensures u / 16 * 16 + u % 16 == u
  {}

  lemma SpecialNotHex(u: CodeUnit)
    requires Special(u) || u == SPACE || u == HASH
    ensures HexValue(u).None?
  {}

  ghost predicate Pending(h: Host, value: Str, k: nat, text: Str, bytes: seq<Byte>, trailing: nat) {
    && k <= |value| && text + bytes == value[..k]
    && (forall i :: 0 <= i < |bytes| ==> bytes[i] < 128)
    && (k == |value| ==> trailing == 0)
  }

  lemma PendingFlush(h: Host, value: Str, k: nat, text: Str, bytes: seq<Byte>, trailing: nat)
    requires h.Lawful() && Pending(h, value, k, text, bytes, trailing)
    ensures text + Flush(h, bytes) == value[..k]
  {}

  lemma EndStep(h: Host, tail: Str, text: Str, bytes: seq<Byte>)
    requires Ends(tail)
    ensures ParseValue(h, tail, text, bytes, 0) == Some((text + Flush(h, bytes), tail))
  {
    var all := text + Flush(h, bytes);
    assert all[..|all|] == all;
  }

  lemma HexStep(h: Host, a: CodeUnit, b: CodeUnit, more: Str, text: Str, bytes: seq<Byte>, trailing: nat)
    requires HexValue(a).Some? && HexValue(b).Some?
    ensures ParseValue(h, [BACKSLASH, a, b] + more, text, bytes, trailing)
         == ParseValue(h, more, text, bytes + [HexValue(a).value * 16 + HexValue(b).value], 0)
  {
    var s := [BACKSLASH, a, b] + more;
    assert s[1..][0] == a && s[1..][1] == b && s[3..] == more;
  }

  lemma EscapeStep(h: Host, u: CodeUnit, more: Str, text: Str, bytes: seq<Byte>, trailing: nat)
    requires HexValue(u).None?
    ensures ParseValue(h, [BACKSLASH, u] + more, text, bytes, trailing)
         == ParseValue(h, more, text + Flush(h, bytes) + [u], [], 0)
  {
    var s := [BACKSLASH, u] + more;
    assert s[1..][0] == u && s[2..] == more;
  }

  lemma PlainStep(h: Host, u: CodeUnit, more: Str, text: Str, bytes: seq<Byte>, trailing: nat)
    requires !Separator(u) && u != BACKSLASH
    ensures ParseValue(h, [u] + more, text, bytes, trailing)
         == ParseValue(h, more, text + Flush(h, bytes) + [u], [], if u == SPACE then trailing + 1 else 0)
  {
    assert ([u] + more)[1..] == more;
  }

  lemma NextPending(h: Host, value: Str, k: nat, text: Str, bytes: seq<Byte>, trailing: nat, n: nat)
    requires h.Lawful() && Pending(h, value, k, text, bytes, trailing) && k < |value|
    requires k + 1 == |value| ==> n == 0
    ensures Pending(h, value, k + 1, text + Flush(h, bytes) + [value[k]], [], n)
  {
    PendingFlush(h, value, k, text, bytes, trailing);
    hide Flush, Host.Lawful;
    var t := text + Flush(h, bytes) + [value[k]];
    assert value[..k + 1] == value[..k] + [value[k]];
    assert t + [] == t;
  }

  lemma NextByte(h: Host, value: Str, k: nat, text: Str, bytes: seq<Byte>, trailing: nat)
    requires Pending(h, value, k, text, bytes, trailing) && k < |value| && value[k] < 128
    ensures Pending(h, value, k + 1, text, bytes + [value[k]], 0)
  {
    assert value[..k + 1] == value[..k] + [value[k]];
    assert text + (bytes + [value[k]]) == text + bytes + [value[k]];
  }

  /** One unit of an escaped value is read, whatever follows. */
  lemma ValueStep(h: Host, value: Str, k: nat, text: Str, bytes: seq<Byte>, trailing: nat, more: Str)
    returns (t: Str, b: seq<Byte>, n: nat)
    requires h.Lawful() && Pending(h, value, k, text, bytes, trailing) && k < |value|
    ensures Pending(h, value, k + 1, t, b, n)
    ensures ParseValue(h, EscapeUnit(value, k) + more, text, bytes, trailing) == ParseValue(h, more, t, b, n)
  {
    hide ParseValue, Flush, HexValue, HexDigit, Host.Lawful, Pending;
    var u := value[k];
    if Control(u) && !Special(u) {
      ControlBack(u);
      HexStep(h, HexDigit(u / 16), HexDigit(u % 16), more, text, bytes, trailing);
      NextByte(h, value, k, text, bytes, trailing);
      t, b, n := text, bytes + [u], 0;
    } else if EscapeUnit(value, k) == [BACKSLASH, u] {
      SpecialNotHex(u);
      EscapeStep(h, u, more, text, bytes, trailing);
      NextPending(h, value, k, text, bytes, trailing, 0);
      t, b, n := text + Flush(h, bytes) + [u], [], 0;
    } else {
      PlainStep(h, u, more, text, bytes, trailing);
      NextPending(h, value, k, text, bytes, trailing, if u == SPACE then trailing + 1 else 0);
      t, b, n := text + Flush(h, bytes) + [u], [], if u == SPACE then trailing + 1 else 0;
    }
  }

  /** From any point on, an escaped value is read to its end and nothing more. */
  lemma {:induction false} ValueBack(h: Host, value: Str, k: nat, text: Str, bytes: seq<Byte>, trailing: nat, tail: Str)
    requires h.Lawful() && Pending(h, value, k, text, bytes, trailing) && Ends(tail)
    ensures ParseValue(h, EscapeFrom(value, k) + tail, text, bytes, trailing) == Some((value, tail))
    decreases |value| - k
  {
    EscapeFromStep(value, k, tail);
    hide EscapeFrom, ParseValue, EscapeUnit, Host.Lawful;
    if k == |value| {
      PendingFlush(h, value, k, text, bytes, trailing);
      EndStep(h, tail, text, bytes);
      assert value[..k] == value;
    } else {
      assert k < |value|;
      hide Pending;
      var t, b, n := ValueStep(h, value, k, text, bytes, trailing, EscapeFrom(value, k + 1) + tail);
      ValueBack(h, value, k + 1, t, b, n, tail);
    }
  }

  lemma EscapeFromStep(value: Str, k: nat, tail: Str)
    ensures k >= |value| ==> EscapeFrom(value, k) + tail == tail
    ensures k < |value| ==> EscapeFrom(value, k) + tail == EscapeUnit(value, k) + (EscapeFrom(value, k + 1) + tail)
  {
    hide EscapeUnit;
  }

  lemma KindUnits(s: Str)
    requires LegalKind(s)
    ensures s != [] && forall i :: 0 <= i < |s| ==> !White(s[i]) && s[i] != EQUALS
  {}

  lemma TrimKind(s: Str)
    requires LegalKind(s)
    ensures Trim(s) == s
  {
    KindUnits(s);
  }

  lemma KindFound(kind: Str, more: Str)
    requires LegalKind(kind)
    ensures IndexOf(kind + [EQUALS] + more, [EQUALS], 0) == |kind|
  {
    KindUnits(kind);
    var s := kind + [EQUALS] + more;
    assert OccursAt(s, [EQUALS], |kind|);
    var at := IndexOf(s, [EQUALS], 0);
    assert s[at..at + 1][0] == s[at];
    assert s[at..at + 1] == [EQUALS];
  }

  lemma ValueStart(value: Str, tail: Str)
    requires Ends(tail)
    ensures var s := EscapeFrom(value, 0) + tail; s != [] ==> s[0] != SPACE && s[0] != QUOTE
  {}

  /** A formatted part is read as itself, up to what ends it. */
  lemma PartBack(h: Host, part: Rdn, tail: Str)
    requires h.Lawful() && LegalKind(part.kind) && Ends(tail)
    ensures ParsePart(h, FormatPart(part) + tail) == Some((part, tail))
  {
    hide ParseValue, EscapeFrom, Trim, LegalKind, ParseQuoted, IndexOf, SkipSpaces, Pending, Host.Lawful, White;
    var escaped := EscapeFrom(part.value, 0) + tail;
    var s := part.kind + [EQUALS] + escaped;
    assert FormatPart(part) + tail == s;
    KindUnits(part.kind);
    KindFound(part.kind, escaped);
    TrimKind(part.kind);
    ValueStart(part.value, tail);
    assert s[..|part.kind|] == part.kind && s[|part.kind| + 1..] == escaped;
    SpaceIsWhite();
    NoSpaces(s);
    NoSpaces(escaped);
    PendingStart(h, part.value);
    ValueBack(h, part.value, 0, [], [], 0, tail);
  }

  lemma SpaceIsWhite()
    ensures White(SPACE)
  {}

  lemma PendingStart(h: Host, value: Str)
    ensures Pending(h, value, 0, [], [], 0)
  {}

  lemma NoSpaces(s: Str)
    requires s == [] || s[0] != SPACE
    ensures SkipSpaces(s) == s
  {}

  /** The rest of an RDN, and then what follows its comma or semicolon. */
  lemma {:induction false} RdnBack(h: Host, rdn: seq<Rdn>, k: nat, tail: Str)
    requires h.Lawful() && LegalParts(rdn) && k < |rdn| && (tail == [] || tail[0] == COMMA || tail[0] == SEMICOLON)
    ensures ParseFrom(h, FormatRdn(rdn[k..]) + tail, rdn[..k])
         == if tail == [] then Some([rdn]) else Prepend(rdn, ParseFrom(h, tail[1..], []))
    decreases |rdn| - k
  {
    hide ParsePart, FormatPart, LegalKind, Host.Lawful;
    var parts := rdn[k..];
    assert rdn[..k] + [rdn[k]] == rdn[..k + 1];
    if k == |rdn| - 1 {
      PartBack(h, rdn[k], tail);
      assert rdn[..k + 1] == rdn;
    } else {
      var more := FormatRdn(rdn[k + 1..]) + tail;
      assert parts[1..] == rdn[k + 1..];
      assert FormatRdn(parts) + tail == FormatPart(rdn[k]) + ([PLUS] + more);
      PartBack(h, rdn[k], [PLUS] + more);
      assert ([PLUS] + more)[1..] == more;
      RdnBack(h, rdn, k + 1, tail);
    }
  }

  lemma {:induction false} DnBack(h: Host, rdns: Rdns)
    requires h.Lawful() && Legal(rdns) && rdns != []
    ensures ParseFrom(h, FormatDn(rdns), []) == Some(rdns)
  {
    hide ParseFrom, FormatRdn, LegalParts, Host.Lawful;
    var first := rdns[0];
    assert first[0..] == first && first[..0] == [];
    if |rdns| == 1 {
      RdnBack(h, first, 0, []);
      assert FormatRdn(first) + [] == FormatRdn(first) && rdns == [first];
    } else {
      var tail := [COMMA] + FormatDn(rdns[1..]);
      RdnBack(h, first, 0, tail);
      assert tail[1..] == FormatDn(rdns[1..]);
      DnBack(h, rdns[1..]);
      assert rdns == [first] + rdns[1..];
    }
  }

  lemma {:induction false} ParsedLegal(h: Host, s: Str, current: seq<Rdn>)
    requires LegalParts(current)
    ensures ParseFrom(h, s, current).Some? ==> Legal(ParseFrom(h, s, current).value)
    decreases |s|
  {
    hide LegalKind;
    var part := ParsePart(h, s);
    if part.Some? {
      var rdn, rest := current + [part.value.0], part.value.1;
      if rest != [] {
        ParsedLegal(h, rest[1..], if rest[0] == PLUS then rdn else []);
      }
    }
  }

  lemma {:induction false} TrimKeeps(s: Str)
    requires s != [] && !White(s[0])
    ensures Trim(s) != []
  {
    TrimEndKeeps(s);
  }

  lemma {:induction false} TrimEndKeeps(s: Str)
    requires s != [] && !White(s[0])
    ensures TrimEnd(s) != []
    decreases |s|
  {
    if White(s[|s| - 1]) { TrimEndKeeps(s[..|s| - 1]); }
  }

  lemma FormatStart(rdns: Rdns)
    requires Legal(rdns) && rdns != []
    ensures FormatDn(rdns) != [] && !White(FormatDn(rdns)[0])
  {
    var part := rdns[0][0];
    assert LegalKind(part.kind);
    KindUnits(part.kind);
    hide LegalKind, White;
    assert FormatPart(part)[0] == part.kind[0];
    assert FormatRdn(rdns[0])[0] == FormatPart(part)[0];
  }

  lemma NothingFormatted()
    ensures FormatDn([]) == [] && LegalParts([])
  {}

  /**
   * A name is parsed back from its formatted text exactly when every RDN has a part, every attribute type is
   * one, and the text is within the length limit, whatever the values are.
   */
  lemma DnRoundTrip(h: Host, rdns: Rdns)
    requires h.Lawful()
    ensures ParseDn(h, FormatDn(rdns)) == Some(rdns) <==> Legal(rdns) && |FormatDn(rdns)| <= MAX_LENGTH
  {
    hide ParseFrom, FormatDn, Host.Lawful, LegalParts;
    if Legal(rdns) && rdns != [] {
      FormatStart(rdns);
      TrimKeeps(FormatDn(rdns));
      DnBack(h, rdns);
    }
    NothingFormatted();
    ParsedLegal(h, FormatDn(rdns), []);
  }

  // --- the parser as it runs -------------------------------------------------------------------------

  method SkipFrom(dn: Str, index: nat) returns (k: nat)
    requires index <= |dn|
    ensures index <= k <= |dn| && dn[k..] == SkipSpaces(dn[index..])
  {
    k := index;
    while k < |dn| && dn[k] == SPACE
      invariant index <= k <= |dn| && SkipSpaces(dn[k..]) == SkipSpaces(dn[index..])
    {
      assert dn[k..][1..] == dn[k + 1..];
      k := k + 1;
    }
  }

  /** Where a value's text ends and its separator is. */
  method ReadValue(h: Host, dn: Str, start: nat) returns (r: Option<(Str, nat)>)
    requires start <= |dn|
    ensures r.Some? ==> start <= r.value.1 <= |dn|
    ensures ParseValue(h, dn[start..], [], [], 0) == if r.None? then None else Some((r.value.0, dn[r.value.1..]))
  {
    hide ParseValue, Flush;
    var index: nat, value: Str, bytes: seq<Byte>, trailing: nat := start, [], [], 0;
    while index < |dn| && !Separator(dn[index])
      invariant start <= index <= |dn|
      invariant ParseValue(h, dn[start..], [], [], 0) == ParseValue(h, dn[index..], value, bytes, trailing)
      decreases |dn| - index
    {
      ValueUnit(h, dn[index..], value, bytes, trailing);
      if dn[index] == BACKSLASH {
        assert dn[index..][1..] == dn[index + 1..];
        if HexPair(dn[index + 1..]) {
          assert dn[index..][3..] == dn[index + 3..];
          bytes := bytes + [HexValue(dn[index + 1]).value * 16 + HexValue(dn[index + 2]).value];
          index := index + 3;
        } else if index + 1 < |dn| {
          assert dn[index..][2..] == dn[index + 2..];
          value := value + Flush(h, bytes) + [dn[index + 1]];
          bytes := [];
          index := index + 2;
        } else {
          return None;
        }
        trailing := 0;
      } else {
        assert dn[index..][1..] == dn[index + 1..];
        value := value + Flush(h, bytes) + [dn[index]];
        bytes := [];
        trailing := if dn[index] == SPACE then trailing + 1 else 0;
        index := index + 1;
      }
    }
    ValueEnd(h, dn[index..], value, bytes, trailing);
    value := value + Flush(h, bytes);
    if trailing > 0 { value := if trailing <= |value| then value[..|value| - trailing] else []; }
    return Some((value, index));
  }

  lemma ValueUnit(h: Host, s: Str, value: Str, bytes: seq<Byte>, trailing: nat)
    requires s != [] && !Separator(s[0])
    ensures ParseValue(h, s, value, bytes, trailing)
         == if s[0] == BACKSLASH then
              if HexPair(s[1..]) then
                ParseValue(h, s[3..], value, bytes + [HexValue(s[1]).value * 16 + HexValue(s[2]).value], 0)
              else if |s| >= 2 then ParseValue(h, s[2..], value + Flush(h, bytes) + [s[1]], [], 0)
              else None
            else ParseValue(h, s[1..], value + Flush(h, bytes) + [s[0]], [], if s[0] == SPACE then trailing + 1 else 0)
  {}

  lemma ValueEnd(h: Host, s: Str, value: Str, bytes: seq<Byte>, trailing: nat)
    requires s == [] || Separator(s[0])
    ensures var all := value + Flush(h, bytes);
            ParseValue(h, s, value, bytes, trailing)
            == Some((if trailing == 0 then all else if trailing <= |all| then all[..|all| - trailing] else [], s))
  {
    var all := value + Flush(h, bytes);
    assert all[..|all|] == all;
  }

  method ReadQuoted(dn: Str, start: nat) returns (r: Option<(Str, nat)>)
    requires start <= |dn|
    ensures r.Some? ==> start <= r.value.1 <= |dn|
    ensures ParseQuoted(dn[start..], []) == if r.None? then None else Some((r.value.0, dn[r.value.1..]))
  {
    var index, value := start, [];
    while index < |dn| && dn[index] != QUOTE
      invariant start <= index <= |dn|
      invariant ParseQuoted(dn[start..], []) == ParseQuoted(dn[index..], value)
      decreases |dn| - index
    {
      if dn[index] == BACKSLASH {
        if index + 1 == |dn| { return None; }
        assert dn[index..][2..] == dn[index + 2..];
        index := index + 1;
      } else {
        assert dn[index..][1..] == dn[index + 1..];
      }
      value := value + [dn[index]];
      index := index + 1;
    }
    if index == |dn| { return None; }
    assert dn[index..][1..] == dn[index + 1..];
    var after := SkipFrom(dn, index + 1);
    return Some((value, after));
  }

  method ReadPart(h: Host, dn: Str, start: nat) returns (r: Option<(Rdn, nat)>)
    requires start <= |dn|
    ensures r.Some? ==> start < r.value.1 <= |dn|
    ensures ParsePart(h, dn[start..]) == if r.None? then None else Some((r.value.0, dn[r.value.1..]))
  {
    hide ParseValue, ParseQuoted, LegalKind, Trim, IndexOf, SkipSpaces;
    var index := SkipFrom(dn, start);
    ghost var from := dn[index..];
    var equals: int := IndexOf(dn[index..], [EQUALS], 0);
    if equals < 0 { return None; }
    var kind := Trim(dn[index..][..equals]);
    if !LegalKind(kind) { return None; }
    assert from[equals + 1..] == dn[index + equals + 1..];
    var value := SkipFrom(dn, index + equals + 1);
    if value < |dn| && dn[value] == QUOTE {
      assert dn[value..][1..] == dn[value + 1..];
      var quoted := ReadQuoted(dn, value + 1);
      return if quoted.None? then None else Some((Rdn(kind, quoted.value.0), quoted.value.1));
    }
    var plain := ReadValue(h, dn, value);
    return if plain.None? then None else Some((Rdn(kind, plain.value.0), plain.value.1));
  }

  function After(rdns: Rdns, rest: Option<Rdns>): Option<Rdns> {
    if rest.None? then None else Some(rdns + rest.value)
  }

  lemma AfterNext(rdns: Rdns, rdn: seq<Rdn>, rest: Option<Rdns>)
    ensures After(rdns + [rdn], rest) == After(rdns, Prepend(rdn, rest))
  {
    if rest.Some? { assert rdns + [rdn] + rest.value == rdns + ([rdn] + rest.value); }
  }

  lemma AfterNothing(rest: Option<Rdns>)
    ensures After([], rest) == rest
  {
    assert rest.Some? ==> [] + rest.value == rest.value;
  }

  lemma AfterRefused(rdns: Rdns)
    ensures After(rdns, None) == None
  {}

  lemma AfterLast(rdns: Rdns, rdn: seq<Rdn>)
    ensures After(rdns, Some([rdn])) == Some(rdns + [rdn])
  {}

  lemma NamedWhole(h: Host, dn: Str)
    requires |dn| <= MAX_LENGTH && Trim(dn) != []
    ensures ParseDn(h, dn) == ParseFrom(h, dn, [])
  {}

  /** `parseDn`. */
  method ReadDn(h: Host, dn: Str) returns (r: Option<Rdns>)
    ensures r == ParseDn(h, dn)
  {
    if |dn| > MAX_LENGTH { return None; }
    if Trim(dn) == [] { return Some([]); }
    hide *;
    var index, rdns: Rdns, current: seq<Rdn> := 0, [], [];
    assert dn[0..] == dn;
    ghost var whole := ParseFrom(h, dn, []);
    AfterNothing(whole);
    NamedWhole(h, dn);
    while true
      invariant index <= |dn| && After(rdns, ParseFrom(h, dn[index..], current)) == whole
      decreases |dn| - index
    {
      ParseFromStep(h, dn[index..], current);
      var part := ReadPart(h, dn, index);
      if part.None? {
        AfterRefused(rdns);
        return None;
      }
      current := current + [part.value.0];
      index := part.value.1;
      if index == |dn| {
        AfterLast(rdns, current);
        rdns := rdns + [current];
        return Some(rdns);
      }
      assert dn[index..][1..] == dn[index + 1..];
      if dn[index] != PLUS {
        AfterNext(rdns, current, ParseFrom(h, dn[index + 1..], []));
        rdns := rdns + [current];
        current := [];
      }
      index := index + 1;
    }
  }

  lemma ParseFromStep(h: Host, s: Str, current: seq<Rdn>)
    ensures var part := ParsePart(h, s);
            ParseFrom(h, s, current)
            == if part.None? then None
               else
                 var rdn, rest := current + [part.value.0], part.value.1;
                 if rest == [] then Some([rdn])
                 else if rest[0] == PLUS then ParseFrom(h, rest[1..], rdn)
                 else Prepend(rdn, ParseFrom(h, rest[1..], []))
  {
    hide ParsePart;
  }

  // --- comparing names -------------------------------------------------------------------------------

  function NormalPart(h: Host, part: Rdn): Rdn { Rdn(h.lower(part.kind), h.fold(part.value)) }

  /** The order of the formatted parts. */
  predicate PartBefore(a: Rdn, b: Rdn) { UnitLess(FormatPart(a), FormatPart(b)) }

  function NormalRdn(h: Host, rdn: seq<Rdn>): seq<Rdn> {
    Sort(seq(|rdn|, i requires 0 <= i < |rdn| => NormalPart(h, rdn[i])), PartBefore)
  }

  function Normal(h: Host, rdns: Rdns): (r: Rdns)
    ensures |r| == |rdns|
  {
    seq(|rdns|, i requires 0 <= i < |rdns| => NormalRdn(h, rdns[i]))
  }

  /** `normalizeDn`. */
  function NormalizeDn(h: Host, dn: Str): Option<Str> {
    var rdns := ParseDn(h, dn);
    if rdns.None? then None else Some(FormatDn(Normal(h, rdns.value)))
  }

  function FormatEach(rdns: Rdns): (r: seq<Str>)
    ensures |r| == |rdns|
  {
    seq(|rdns|, i requires 0 <= i < |rdns| => FormatDn([rdns[i]]))
  }

  /** `normalizedRdns`: the normalized name is parsed once more, and may be too long for it. */
  function NormalizedRdns(h: Host, dn: Str): Option<seq<Str>> {
    var normalized := NormalizeDn(h, dn);
    if normalized.None? then None
    else if normalized.value == [] then Some([])
    else
      var rdns := ParseDn(h, normalized.value);
      if rdns.None? then None else Some(FormatEach(rdns.value))
  }

  /** `isUnder`. */
  function IsUnder(h: Host, dn: Str, base: Str): Option<bool> {
    var child, parent := NormalizedRdns(h, dn), NormalizedRdns(h, base);
    if child.None? || parent.None? then None else Some(EndsWith(child.value, parent.value))
  }

  predicate EndsWith(child: seq<Str>, parent: seq<Str>) {
    |parent| <= |child| && forall i :: 0 <= i < |parent| ==> child[|child| - |parent| + i] == parent[i]
  }

  /** `depthBelow`. */
  function DepthBelow(h: Host, dn: Str, base: Str): Option<int> {
    var under := IsUnder(h, dn, base);
    if under.None? then None
    else if under.value then Some(|NormalizedRdns(h, dn).value| - |NormalizedRdns(h, base).value|)
    else Some(-1)
  }

  lemma NormalLegal(h: Host, rdns: Rdns)
    requires h.Lawful() && Legal(rdns)
    ensures Legal(Normal(h, rdns))
  {
    hide LegalKind, UnitLess, FormatPart;
    forall i | 0 <= i < |rdns|
      ensures NormalRdn(h, rdns[i]) != [] && LegalParts(NormalRdn(h, rdns[i]))
    { NormalParts(h, rdns[i]); }
  }

  lemma NormalParts(h: Host, rdn: seq<Rdn>)
    requires h.Lawful() && LegalParts(rdn)
    ensures |NormalRdn(h, rdn)| == |rdn| && LegalParts(NormalRdn(h, rdn))
  {
    var parts := seq(|rdn|, i requires 0 <= i < |rdn| => NormalPart(h, rdn[i]));
    SortCount(parts, PartBefore);
    SortBag(parts, PartBefore);
    forall i | 0 <= i < |parts|
      ensures LegalKind(parts[i].kind)
    { assert LegalKind(rdn[i].kind); }
    hide *;
    SameBag(parts, Sort(parts, PartBefore));
    NormalIsSorted(h, rdn, parts);
    PartsLegal(Sort(parts, PartBefore), parts);
  }

  lemma NormalIsSorted(h: Host, rdn: seq<Rdn>, parts: seq<Rdn>)
    requires parts == seq(|rdn|, i requires 0 <= i < |rdn| => NormalPart(h, rdn[i]))
    ensures NormalRdn(h, rdn) == Sort(parts, PartBefore)
  {
    hide Sort, PartBefore, NormalPart;
  }

  lemma SameBag(a: seq<Rdn>, b: seq<Rdn>)
    requires multiset(a) == multiset(b)
    ensures forall x :: x in b ==> x in a
  {
    forall x | x in b
      ensures x in a
    { assert x in multiset(b) && x in multiset(a); }
  }

  lemma PartsLegal(sorted: seq<Rdn>, parts: seq<Rdn>)
    requires forall x :: x in sorted ==> x in parts
    requires forall i :: 0 <= i < |parts| ==> LegalKind(parts[i].kind)
    ensures LegalParts(sorted)
  {
    hide LegalKind;
    forall i | 0 <= i < |sorted|
      ensures LegalKind(sorted[i].kind)
    { assert sorted[i] in sorted; }
  }

  /** The names compared are those of the normalized RDNs, one by one, as long as they fit the length limit. */
  lemma NormalizedExactly(h: Host, dn: Str, rdns: Rdns)
    requires h.Lawful() && ParseDn(h, dn) == Some(rdns)
    ensures NormalizedRdns(h, dn)
         == if |FormatDn(Normal(h, rdns))| <= MAX_LENGTH then Some(FormatEach(Normal(h, rdns))) else None
  {
    var normal := Normal(h, rdns);
    DnRoundTrip(h, rdns);
    ParsedIsLegal(h, dn);
    NormalLegal(h, rdns);
    DnRoundTrip(h, normal);
    hide ParseDn, Legal, NormalRdn;
    if FormatDn(normal) == [] { EmptyName(normal); }
  }

  lemma ParsedIsLegal(h: Host, dn: Str)
    ensures ParseDn(h, dn).Some? ==> Legal(ParseDn(h, dn).value)
  {
    hide ParseFrom;
    ParsedLegal(h, dn, []);
  }

  lemma EmptyName(rdns: Rdns)
    requires Legal(rdns) && FormatDn(rdns) == []
    ensures rdns == []
  {
    if rdns != [] { FormatStart(rdns); }
  }

  /** Two RDNs with the same text are the same. */
  lemma RdnText(h: Host, a: seq<Rdn>, b: seq<Rdn>)
    requires h.Lawful() && Legal([a]) && Legal([b]) && FormatDn([a]) == FormatDn([b])
    ensures a == b
  {
    DnBack(h, [a]);
    DnBack(h, [b]);
    assert [a][0] == [b][0];
  }

  /** A name is under another exactly when its normalized RDNs end with the other's, never as strings. */
  lemma UnderExactly(h: Host, dn: Str, base: Str, child: Rdns, parent: Rdns)
    requires h.Lawful() && ParseDn(h, dn) == Some(child) && ParseDn(h, base) == Some(parent)
    requires |FormatDn(Normal(h, child))| <= MAX_LENGTH && |FormatDn(Normal(h, parent))| <= MAX_LENGTH
    ensures IsUnder(h, dn, base)
         == Some(|parent| <= |child| && Normal(h, child)[|child| - |parent|..] == Normal(h, parent))
  {
    hide ParseDn, NormalizedRdns, Normal, FormatEach, Legal, FormatDn, Host.Lawful, EndsWith, NormalizeDn;
    NormalizedExactly(h, dn, child);
    NormalizedExactly(h, base, parent);
    ParsedIsLegal(h, dn);
    ParsedIsLegal(h, base);
    NormalLegal(h, child);
    NormalLegal(h, parent);
    SuffixTexts(h, Normal(h, child), Normal(h, parent));
  }

  lemma LegalOne(rdns: Rdns, i: nat)
    requires Legal(rdns) && i < |rdns|
    ensures Legal([rdns[i]])
  {
    hide LegalParts;
  }

  lemma FormatEachAt(rdns: Rdns, i: nat)
    requires i < |rdns|
    ensures FormatEach(rdns)[i] == FormatDn([rdns[i]])
  {}

  lemma SuffixTexts(h: Host, c: Rdns, p: Rdns)
    requires h.Lawful() && Legal(c) && Legal(p)
    ensures EndsWith(FormatEach(c), FormatEach(p)) <==> |p| <= |c| && c[|c| - |p|..] == p
  {
    if |p| <= |c| {
      var offset := |c| - |p|;
      hide FormatDn, Legal, Host.Lawful, FormatEach, EndsWith;
      forall i | 0 <= i < |p|
        ensures FormatEach(c)[offset + i] == FormatEach(p)[i] <==> c[offset + i] == p[i]
      {
        LegalOne(c, offset + i);
        LegalOne(p, i);
        FormatEachAt(c, offset + i);
        FormatEachAt(p, i);
        if FormatDn([c[offset + i]]) == FormatDn([p[i]]) { RdnText(h, c[offset + i], p[i]); }
      }
      SuffixPointwise(FormatEach(c), FormatEach(p), c, p);
    } else {
      hide FormatDn, Legal;
    }
  }

  lemma SuffixPointwise(texts: seq<Str>, ends: seq<Str>, c: Rdns, p: Rdns)
    requires |texts| == |c| && |ends| == |p| && |p| <= |c|
    requires forall i :: 0 <= i < |p| ==> (texts[|c| - |p| + i] == ends[i] <==> c[|c| - |p| + i] == p[i])
    ensures EndsWith(texts, ends) <==> c[|c| - |p|..] == p
  {
    var suffix := c[|c| - |p|..];
    assert forall i :: 0 <= i < |p| ==> suffix[i] == c[|c| - |p| + i];
    assert suffix == p <==> forall i :: 0 <= i < |p| ==> suffix[i] == p[i];
  }

  /** Being under is transitive, and depths add up along it. */
  lemma UnderTransitive(h: Host, a: Str, b: Str, c: Str)
    requires IsUnder(h, a, b) == Some(true) && IsUnder(h, b, c) == Some(true)
    ensures IsUnder(h, a, c) == Some(true)
    ensures DepthBelow(h, a, c) == Some(DepthBelow(h, a, b).value + DepthBelow(h, b, c).value)
  {
    hide NormalizedRdns;
    var x, y, z := NormalizedRdns(h, a).value, NormalizedRdns(h, b).value, NormalizedRdns(h, c).value;
    forall i | 0 <= i < |z|
      ensures x[|x| - |z| + i] == z[i]
    {
      assert y[|y| - |z| + i] == z[i];
      assert x[|x| - |y| + (|y| - |z| + i)] == y[|y| - |z| + i];
    }
  }
}
