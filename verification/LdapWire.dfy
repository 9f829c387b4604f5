/** The bytes of LDAP filters as X.690 and RFC 4511 lay them out, written apart from the encoder. */
module LdapWire {
  import opened Wrappers
  import opened Text
  import opened Ber
  import opened LdapFilter

  // --- numbers in base 256 -------------------------------------------------------------------------------

  /** What big-endian digits stand for, from the last one. */
  function Value(digits: Bytes): nat {
    if digits == [] then 0 else Value(digits[..|digits| - 1]) * 256 + digits[|digits| - 1]
  }

  lemma {:induction false} ComposeLast(start: int, digits: Bytes, last: Byte)
    ensures Compose(start, digits + [last]) == Compose(start, digits) * 256 + last
  {
    ComposeConcat(start, digits, [last]);
    assert [last][1..] == [];
  }

  /** Reading digits onto a start shifts the start by as many places. */
  lemma {:induction false} ComposeMeans(start: int, digits: Bytes)
    ensures Compose(start, digits) == start * Power(|digits|) + Value(digits)
  {
    if digits != [] {
      var before, last := digits[..|digits| - 1], digits[|digits| - 1];
      assert digits == before + [last];
      ComposeLast(start, before, last);
      ComposeMeans(start, before);
      Shifted(start, Power(|before|));
    }
  }

  lemma Shifted(start: int, p: nat)
    ensures start * (256 * p) == start * p * 256
  {}

  /** Two's complement: with the first bit set, the value less what one more digit could hold. */
  lemma SignedMeans(bytes: Bytes)
    requires bytes != []
    ensures Signed(bytes) == if bytes[0] >= 128 then Value(bytes) - Power(|bytes|) else Value(bytes)
  {
    ComposeMeans(if bytes[0] >= 128 then -1 else 0, bytes);
  }

  /** Section 8.1.3 of X.690: one octet below 128, and else a count with its top bit set and no digit too many. */
  lemma LengthMeans(n: nat)
    requires n < 0x1_0000_0000
    ensures var length := LengthOf(n);
            if n < 128 then length == [n]
            else 2 <= |length| <= 5 && length[0] == 0x80 + |length| - 1 && Value(length[1..]) == n && length[1] != 0
  {
    BigEndianValue(n);
    if n >= 128 {
      assert LengthOf(n)[1..] == BigEndian(n);
      ComposeMeans(0, BigEndian(n));
      FirstDigit(n);
    }
  }

  lemma {:induction false} FirstDigit(n: nat)
    requires n > 0
    ensures BigEndian(n) != [] && BigEndian(n)[0] != 0
  {
    if n >= 256 { FirstDigit(n / 256); }
  }

  /** Where the content of an element starts, once its first two octets and its digits are there. */
  function HeaderSize(buffer: Bytes): nat
    requires |buffer| >= 2
  {
    if buffer[1] < 0x80 then 2 else 2 + (buffer[1] - 0x80)
  }

  /** The length it announces. */
  function Announced(buffer: Bytes): nat
    requires |buffer| >= 2 && HeaderSize(buffer) <= |buffer|
  {
    if buffer[1] < 0x80 then buffer[1] else Value(buffer[2..HeaderSize(buffer)])
  }

  /** Tags of several octets, indefinite lengths, lengths of more than four digits, and longer content than allowed. */
  predicate Unreadable(buffer: Bytes, maxSize: nat) {
    && buffer != []
    && (|| buffer[0] % 32 == 31
        || (|buffer| >= 2
            && (|| buffer[1] == 0x80 || buffer[1] > 0x84
                || (HeaderSize(buffer) <= |buffer| && Announced(buffer) > maxSize))))
  }

  predicate WholeElement(buffer: Bytes) {
    |buffer| >= 2 && HeaderSize(buffer) <= |buffer| && HeaderSize(buffer) + Announced(buffer) <= |buffer|
  }

  /** What is read: refused exactly as said, else the content announced, as soon as all of it is there. */
  lemma ReadExactly(buffer: Bytes, maxSize: nat)
    ensures Read(buffer, maxSize)
         == if Unreadable(buffer, maxSize) then Malformed
            else if WholeElement(buffer) then
              var header, length := HeaderSize(buffer), Announced(buffer);
              Complete(Item(buffer[0], buffer[header..header + length]), header + length)
            else Incomplete
  {
    if |buffer| >= 2 && buffer[1] >= 0x80 && HeaderSize(buffer) <= |buffer| {
      ComposeMeans(0, buffer[2..HeaderSize(buffer)]);
    }
    hide Compose, Value, Power;
  }

  // --- filters -------------------------------------------------------------------------------------------

  /** The number of the alternative in the `Filter` choice of section 4.5.1 of RFC 4511. */
  function Choice(f: Filter): nat {
    match f
    case And(_) => 0
    case Or(_) => 1
    case Not(_) => 2
    case Compare(Equal, _, _) => 3
    case Substrings(_, _, _, _) => 4
    case Compare(Greater, _, _) => 5
    case Compare(Less, _, _) => 6
    case Present(_) => 7
    case Compare(Approx, _, _) => 8
    case Extensible(_, _, _, _) => 9
  }

  /** A context-specific element: constructed ones hold other elements. */
  function Context(number: nat, constructed: bool, content: Bytes): Bytes
    requires number < 31
  {
    Element(0x80 + (if constructed then 0x20 else 0) + number, content)
  }

  function OctetString(content: Bytes): Bytes { Element(0x04, content) }

  function Sequence(content: Bytes): Bytes { Element(0x30, content) }

  function Each(number: nat, contents: seq<Bytes>): Bytes
    requires number < 31
  {
    if contents == [] then [] else Context(number, false, contents[0]) + Each(number, contents[1..])
  }

  function Maybe(number: nat, content: Option<Bytes>): Bytes
    requires number < 31
  {
    if content.Some? then Context(number, false, content.value) else []
  }

  function Texts(c: Utf8, any: seq<Str>): (r: seq<Bytes>)
    ensures |r| == |any|
  {
    seq(|any|, i requires 0 <= i < |any| => c.encode(any[i]))
  }

  function Optional(c: Utf8, s: Option<Str>): Option<Bytes> { if s.Some? then Some(c.encode(s.value)) else None }

  function All(c: Utf8, filters: seq<Filter>): Bytes {
    if filters == [] then [] else Wire(c, filters[0]) + All(c, filters[1..])
  }

  /** The definition of `Filter` in section 4.5.1 of RFC 4511, alternative by alternative. */
  function Wire(c: Utf8, f: Filter): Bytes {
    match f
    case And(filters) => Context(Choice(f), true, All(c, filters))
    case Or(filters) => Context(Choice(f), true, All(c, filters))
    case Not(inner) => Context(Choice(f), true, Wire(c, inner))
    case Compare(_, attribute, value) =>
      Context(Choice(f), true, OctetString(c.encode(attribute)) + OctetString(c.encode(value)))
    case Substrings(attribute, initial, any, final) =>
      Context(Choice(f), true,
              OctetString(c.encode(attribute))
              + Sequence(Maybe(0, Optional(c, initial)) + Each(1, Texts(c, any)) + Maybe(2, Optional(c, final))))
    case Present(attribute) => Context(Choice(f), false, c.encode(attribute))
    case Extensible(named, rule, value, dnAttributes) =>
      Context(Choice(f), true,
              Maybe(1, Optional(c, Nonempty(rule))) + Maybe(2, Optional(c, Nonempty(named)))
              + Context(3, false, c.encode(value)) + Flag(dnAttributes))
  }

  lemma {:induction false} ConcatAppend(a: seq<Bytes>, b: seq<Bytes>)
    ensures Concat(a + b) == Concat(a) + Concat(b)
  {
    if a == [] {
      assert a + b == b;
    } else {
      assert (a + b)[1..] == a[1..] + b;
      ConcatAppend(a[1..], b);
    }
  }

  lemma ElementsAppend(a: seq<Item>, b: seq<Item>)
    ensures Concat(Elements(a + b)) == Concat(Elements(a)) + Concat(Elements(b))
  {
    assert Elements(a + b) == Elements(a) + Elements(b) by { hide Element; }
    ConcatAppend(Elements(a), Elements(b));
  }

  lemma ElementsOne(item: Item)
    ensures Concat(Elements([item])) == Element(item.tag, item.value)
  {
    hide Element;
    var parts := Elements([item]);
    assert parts[1..] == [];
  }

  lemma NoElements()
    ensures Concat(Elements([])) == []
  {}

  lemma ElementsTwo(a: Item, b: Item)
    ensures Concat(Elements([a, b])) == Element(a.tag, a.value) + Element(b.tag, b.value)
  {
    hide *;
    assert [a, b] == [a] + [b];
    ElementsAppend([a], [b]);
    ElementsOne(a);
    ElementsOne(b);
  }

  lemma MaybeElements(c: Utf8, s: Option<Str>, number: nat)
    requires number < 31
    ensures Concat(Elements(Given(c, s, 0x80 + number))) == Maybe(number, Optional(c, s))
  {
    hide Element;
    NoElements();
    if s.Some? { ElementsOne(Octets(c, s.value, 0x80 + number)); }
  }

  function AnyOctets(c: Utf8, any: seq<Str>): (r: seq<Item>)
    ensures |r| == |any|
  {
    seq(|any|, i requires 0 <= i < |any| => Octets(c, any[i], 0x81))
  }

  lemma {:induction false} EachElements(c: Utf8, any: seq<Str>)
    ensures Concat(Elements(AnyOctets(c, any))) == Each(1, Texts(c, any))
  {
    hide Element;
    if any == [] {
      NoElements();
    } else {
      var first := Octets(c, any[0], 0x81);
      assert AnyOctets(c, any) == [first] + AnyOctets(c, any[1..]);
      ElementsAppend([first], AnyOctets(c, any[1..]));
      ElementsOne(first);
      assert Texts(c, any)[1..] == Texts(c, any[1..]);
      EachElements(c, any[1..]);
    }
  }

  lemma ThreeRuns(a: seq<Item>, b: seq<Item>, d: seq<Item>)
    ensures Concat(Elements(a + b + d)) == Concat(Elements(a)) + Concat(Elements(b)) + Concat(Elements(d))
  {
    hide *;
    ElementsAppend(a + b, d);
    ElementsAppend(a, b);
  }

  lemma FourRuns(a: seq<Item>, b: seq<Item>, d: seq<Item>, e: seq<Item>)
    ensures Concat(Elements(a + b + d + e))
         == Concat(Elements(a)) + Concat(Elements(b)) + Concat(Elements(d)) + Concat(Elements(e))
  {
    hide *;
    ElementsAppend(a + b + d, e);
    ThreeRuns(a, b, d);
  }

  lemma SubstringRuns(c: Utf8, initial: Option<Str>, any: seq<Str>, final: Option<Str>)
    ensures SubstringItems(c, initial, any, final) == Given(c, initial, 0x80) + AnyOctets(c, any) + Given(c, final, 0x82)
  {
    hide Given, Octets;
  }

  lemma SubstringElements(c: Utf8, initial: Option<Str>, any: seq<Str>, final: Option<Str>)
    ensures Concat(Elements(SubstringItems(c, initial, any, final)))
         == Maybe(0, Optional(c, initial)) + Each(1, Texts(c, any)) + Maybe(2, Optional(c, final))
  {
    var i, m, f := Given(c, initial, 0x80), AnyOctets(c, any), Given(c, final, 0x82);
    SubstringRuns(c, initial, any, final);
    hide *;
    MaybeElements(c, initial, 0);
    EachElements(c, any);
    MaybeElements(c, final, 2);
    ThreeRuns(i, m, f);
  }

  lemma ExtensibleElements(c: Utf8, f: Filter)
    requires f.Extensible?
    ensures Concat(Elements(ExtensibleItems(c, f)))
         == Maybe(1, Optional(c, Nonempty(f.rule))) + Maybe(2, Optional(c, Nonempty(f.named)))
            + Context(3, false, c.encode(f.value)) + Flag(f.dnAttributes)
  {
    hide *;
    ExtensibleRuns(c, f);
    FourRuns(Given(c, Nonempty(f.rule), 0x81), Given(c, Nonempty(f.named), 0x82), ValueItems(c, f.value), FlagItems(f.dnAttributes));
    MaybeElements(c, Nonempty(f.rule), 1);
    MaybeElements(c, Nonempty(f.named), 2);
    ValueElement(c, f.value);
    FlagElements(f.dnAttributes);
  }

  function Flag(given: bool): Bytes { if given then Context(4, false, [0xff]) else [] }

  function ValueItems(c: Utf8, value: Str): seq<Item> { [Octets(c, value, 0x83)] }

  function FlagItems(flag: bool): seq<Item> { if flag then [Item(0x84, [0xff])] else [] }

  lemma ExtensibleRuns(c: Utf8, f: Filter)
    requires f.Extensible?
    ensures ExtensibleItems(c, f)
         == Given(c, Nonempty(f.rule), 0x81) + Given(c, Nonempty(f.named), 0x82) + ValueItems(c, f.value)
            + FlagItems(f.dnAttributes)
  {}

  lemma ValueElement(c: Utf8, value: Str)
    ensures Concat(Elements(ValueItems(c, value))) == Context(3, false, c.encode(value))
  {
    hide Element, Elements, Concat;
    ElementsOne(Octets(c, value, 0x83));
  }

  lemma FlagElements(flag: bool)
    ensures Concat(Elements(FlagItems(flag))) == Flag(flag)
  {
    hide Element, Elements, Concat;
    NoElements();
    ElementsOne(Item(0x84, [0xff]));
  }

  function FilterItems(c: Utf8, filters: seq<Filter>): (r: seq<Item>)
    ensures |r| == |filters|
  {
    seq(|filters|, i requires 0 <= i < |filters| => Item(TagOf(filters[i]), Content(c, filters[i])))
  }

  lemma {:induction false} AllElements(c: Utf8, filters: seq<Filter>)
    ensures Concat(Elements(FilterItems(c, filters))) == All(c, filters)
    decreases filters
  {
    hide Element, Content, Wire, TagOf;
    if filters == [] {
      NoElements();
    } else {
      var first := Item(TagOf(filters[0]), Content(c, filters[0]));
      assert FilterItems(c, filters) == [first] + FilterItems(c, filters[1..]);
      ElementsAppend([first], FilterItems(c, filters[1..]));
      ElementsOne(first);
      WireExactly(c, filters[0]);
      assert first.tag == TagOf(filters[0]);
      AllElements(c, filters[1..]);
    }
  }

  /** A constructed filter is its tag, the length and the elements in it. */
  lemma Constructed(c: Utf8, f: Filter, content: Bytes)
    requires !f.Present? && Concat(Elements(ChildItems(c, f))) == content
    ensures Encode(c, f) == Context(Choice(f), true, content)
  {
    hide Element, Elements, Concat, ChildItems;
  }

  /** The elements in an encoded filter, as the definition lists them. */
  lemma {:induction false} ContentExactly(c: Utf8, f: Filter)
    requires !f.Present?
    ensures Wire(c, f) == Context(Choice(f), true, Concat(Elements(ChildItems(c, f))))
    decreases f, 0
  {
    hide Element, Elements, Concat, SubstringItems, ExtensibleItems, All, Each, Maybe, Optional, Nonempty, Context, Choice;
    match f {
      case And(filters) =>
        AllElements(c, filters);
        assert ChildItems(c, f) == FilterItems(c, filters);
      case Or(filters) =>
        AllElements(c, filters);
        assert ChildItems(c, f) == FilterItems(c, filters);
      case Not(inner) =>
        ElementsOne(Item(TagOf(inner), Content(c, inner)));
        WireExactly(c, inner);
      case Compare(_, attribute, value) =>
        ElementsTwo(Octets(c, attribute, 4), Octets(c, value, 4));
      case Substrings(attribute, initial, any, final) =>
        SubstringElements(c, initial, any, final);
        ElementsTwo(Octets(c, attribute, 4), Item(0x30, Concat(Elements(SubstringItems(c, initial, any, final)))));
      case Extensible(_, _, _, _) =>
        ExtensibleElements(c, f);
    }
  }

  /** The encoder writes the bytes that the definition asks for. */
  lemma {:induction false} WireExactly(c: Utf8, f: Filter)
    ensures Encode(c, f) == Wire(c, f)
    decreases f, 1
  {
    hide Element, Elements, Concat, ChildItems;
    if !f.Present? {
      ContentExactly(c, f);
      Constructed(c, f, Concat(Elements(ChildItems(c, f))));
    }
  }

  // --- what is decoded -----------------------------------------------------------------------------------

  /** A decoded filter is of the alternative its tag names. */
  lemma DecodedTag(c: Utf8, item: Item, depth: nat, terms: nat)
    ensures var r := Decode(c, item, depth, terms); r.Decoded? ==> TagOf(r.value) == item.tag
  {
    if item.tag != 0x87 && Children(item.value).Some? {
      PartsTag(c, item.tag, Children(item.value).value, |item.value|, depth + 1, terms + 1);
    }
    hide DecodeParts, Children;
  }

  lemma PartsTag(c: Utf8, tag: Byte, parts: seq<Item>, bound: nat, depth: nat, terms: nat)
    requires Within(parts, bound)
    ensures var r := DecodeParts(c, tag, parts, bound, depth, terms); r.Decoded? ==> TagOf(r.value) == tag
  {
    hide Decode, DecodeAll, Children;
    if tag == 0xa4 && |parts| >= 2 && Children(parts[1].value).Some? {
      SubstringsExactly(c, Substrings(c.decode(parts[0].value), None, [], None), Children(parts[1].value).value);
    }
    if tag == 0xa9 { ExtensibleExactly(c, Extensible(None, None, [], false), parts); }
    hide TakeSubstrings, TakeExtensible;
  }

  /** The texts of the parts with this tag, in order. */
  function TextsOf(c: Utf8, parts: seq<Item>, tag: Byte): seq<Str> {
    if parts == [] then []
    else (if parts[0].tag == tag then [c.decode(parts[0].value)] else []) + TextsOf(c, parts[1..], tag)
  }

  /** The last of them, if there is one. */
  function Latest(texts: seq<Str>, otherwise: Option<Str>): Option<Str> {
    if texts == [] then otherwise else Some(texts[|texts| - 1])
  }

  lemma LatestOf(first: Str, rest: seq<Str>, otherwise: Option<Str>)
    ensures Latest([first] + rest, otherwise) == Latest(rest, Some(first))
  {}

  ghost predicate SomeUnknown(parts: seq<Item>) { exists i :: 0 <= i < |parts| && parts[i].tag !in {0x80, 0x81, 0x82} }

  ghost predicate SomeBadFlag(parts: seq<Item>) {
    exists i :: 0 <= i < |parts| && parts[i].tag == 0x84 && |parts[i].value| != 1
  }

  lemma FirstOrRest(parts: seq<Item>)
    requires parts != []
    ensures SomeUnknown(parts) <==> parts[0].tag !in {0x80, 0x81, 0x82} || SomeUnknown(parts[1..])
    ensures SomeBadFlag(parts) <==> (parts[0].tag == 0x84 && |parts[0].value| != 1) || SomeBadFlag(parts[1..])
  {
    var rest := parts[1..];
    assert forall i :: 0 < i < |parts| ==> parts[i] == rest[i - 1];
    assert forall i :: 0 <= i < |rest| ==> rest[i] == parts[i + 1];
  }

  lemma TakeOne(c: Utf8, f: Filter, parts: seq<Item>)
    requires f.Substrings? && parts != []
    ensures var text, rest := c.decode(parts[0].value), parts[1..];
            TakeSubstrings(c, f, parts)
            == match parts[0].tag
               case 0x80 => TakeSubstrings(c, Substrings(f.attribute, Some(text), f.any, f.final), rest)
               case 0x81 => TakeSubstrings(c, Substrings(f.attribute, f.initial, f.any + [text], f.final), rest)
               case 0x82 => TakeSubstrings(c, Substrings(f.attribute, f.initial, f.any, Some(text)), rest)
               case _ => None
  {}

  /** Substrings are decoded exactly without unknown parts: the last initial and final piece, and the others in order. */
  lemma {:induction false} SubstringsExactly(c: Utf8, f: Filter, parts: seq<Item>)
    requires f.Substrings?
    ensures TakeSubstrings(c, f, parts)
         == if SomeUnknown(parts) then None
            else Some(Substrings(f.attribute, Latest(TextsOf(c, parts, 0x80), f.initial),
                                 f.any + TextsOf(c, parts, 0x81), Latest(TextsOf(c, parts, 0x82), f.final)))
    decreases |parts|
  {
    if parts == [] {
      assert f.any + [] == f.any;
    } else {
      hide TextsOf, Latest, SomeUnknown, SomeBadFlag, TakeSubstrings;
      var text, rest := c.decode(parts[0].value), parts[1..];
      FirstOrRest(parts);
      TakeOne(c, f, parts);
      OneText(c, parts, 0x80);
      OneText(c, parts, 0x81);
      OneText(c, parts, 0x82);
      match parts[0].tag
      case 0x80 =>
        SubstringsExactly(c, Substrings(f.attribute, Some(text), f.any, f.final), rest);
        LatestOf(text, TextsOf(c, rest, 0x80), f.initial);
      case 0x81 =>
        SubstringsExactly(c, Substrings(f.attribute, f.initial, f.any + [text], f.final), rest);
        assert f.any + [text] + TextsOf(c, rest, 0x81) == f.any + ([text] + TextsOf(c, rest, 0x81));
      case 0x82 =>
        SubstringsExactly(c, Substrings(f.attribute, f.initial, f.any, Some(text)), rest);
        LatestOf(text, TextsOf(c, rest, 0x82), f.final);
      case _ =>
    }
  }

  lemma OneText(c: Utf8, parts: seq<Item>, tag: Byte)
    requires parts != []
    ensures TextsOf(c, parts, tag)
         == if parts[0].tag == tag then [c.decode(parts[0].value)] + TextsOf(c, parts[1..], tag) else TextsOf(c, parts[1..], tag)
  {
    assert [] + TextsOf(c, parts[1..], tag) == TextsOf(c, parts[1..], tag);
  }

  /** What the parts of an extensible match come to. */
  ghost predicate ExtendedTo(c: Utf8, f: Filter, parts: seq<Item>, r: Option<Filter>)
    requires f.Extensible?
  {
    && (r.None? <==> SomeBadFlag(parts))
    && (r.Some? ==> r.value.Extensible?
                    && r.value.rule == Latest(TextsOf(c, parts, 0x81), f.rule)
                    && r.value.named == Latest(TextsOf(c, parts, 0x82), f.named)
                    && Some(r.value.value) == Latest(TextsOf(c, parts, 0x83), Some(f.value)))
  }

  /** The filter with one more part read, unless that is a flag that is not one octet. */
  function WithPart(c: Utf8, f: Filter, part: Item): Filter
    requires f.Extensible?
  {
    var text := c.decode(part.value);
    if part.tag == 0x81 then Extensible(f.named, Some(text), f.value, f.dnAttributes)
    else if part.tag == 0x82 then Extensible(Some(text), f.rule, f.value, f.dnAttributes)
    else if part.tag == 0x83 then Extensible(f.named, f.rule, text, f.dnAttributes)
    else if part.tag == 0x84 && |part.value| == 1 then Extensible(f.named, f.rule, f.value, part.value[0] != 0)
    else f
  }

  lemma ExtendOne(c: Utf8, f: Filter, parts: seq<Item>)
    requires f.Extensible? && parts != []
    ensures TakeExtensible(c, f, parts)
         == if parts[0].tag == 0x84 && |parts[0].value| != 1 then None
            else TakeExtensible(c, WithPart(c, f, parts[0]), parts[1..])
  {}

  lemma ExtendedMore(c: Utf8, f: Filter, parts: seq<Item>, r: Option<Filter>)
    requires f.Extensible? && parts != [] && !(parts[0].tag == 0x84 && |parts[0].value| != 1)
    requires ExtendedTo(c, WithPart(c, f, parts[0]), parts[1..], r)
    ensures ExtendedTo(c, f, parts, r)
  {
    hide TextsOf, Latest, SomeBadFlag, SomeUnknown;
    var text, rest := c.decode(parts[0].value), parts[1..];
    FirstOrRest(parts);
    OneText(c, parts, 0x81);
    OneText(c, parts, 0x82);
    OneText(c, parts, 0x83);
    if parts[0].tag == 0x81 {
      LatestOf(text, TextsOf(c, rest, 0x81), f.rule);
    } else if parts[0].tag == 0x82 {
      LatestOf(text, TextsOf(c, rest, 0x82), f.named);
    } else if parts[0].tag == 0x83 {
      LatestOf(text, TextsOf(c, rest, 0x83), Some(f.value));
    }
  }

  /** Extensible matches are refused exactly for a flag that is not one octet; the last part of each kind counts. */
  lemma {:induction false} ExtensibleExactly(c: Utf8, f: Filter, parts: seq<Item>)
    requires f.Extensible?
    ensures ExtendedTo(c, f, parts, TakeExtensible(c, f, parts))
    decreases |parts|
  {
    if parts != [] {
      ExtendOne(c, f, parts);
      if parts[0].tag == 0x84 && |parts[0].value| != 1 {
        FirstOrRest(parts);
      } else {
        hide TakeExtensible, ExtendedTo, WithPart;
        ExtensibleExactly(c, WithPart(c, f, parts[0]), parts[1..]);
        ExtendedMore(c, f, parts, TakeExtensible(c, f, parts));
      }
    }
  }
}
