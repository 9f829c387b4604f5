/** LDAP search filters (section 4.5.1 of RFC 4511): their BER form, and reading it back within a budget. */
module LdapFilter {
  import opened Wrappers
  import opened Text
  import opened Ber
  import Glob

  const MAX_DEPTH: nat := 32
  const MAX_TERMS: nat := 256

  datatype Kind = Equal | Greater | Less | Approx

  datatype Filter =
    | And(filters: seq<Filter>)
    | Or(filters: seq<Filter>)
    | Not(filter: Filter)
    | Compare(kind: Kind, attribute: Str, value: Str)
    | Substrings(attribute: Str, initial: Option<Str>, any: seq<Str>, final: Option<Str>)
    | Present(attribute: Str)
    | Extensible(named: Option<Str>, rule: Option<Str>, value: Str, dnAttributes: bool)

  /** The host's UTF-8: what it encodes it decodes, unless a string has an unpaired surrogate. */
  datatype Utf8 = Utf8(encode: Str -> Bytes, decode: Bytes -> Str) {
    ghost predicate Lawful() { forall s :: Clean(s) ==> decode(encode(s)) == s }
  }

  function TwoBytes(s: Str): (r: Bytes)
    ensures |r| == 2 * |s|
  {
    seq(2 * |s|, i requires 0 <= i < 2 * |s| => if i % 2 == 0 then s[i / 2] / 256 else s[i / 2] % 256)
  }

  function Unit(high: int, low: int): CodeUnit
    requires 0 <= high < 256 && 0 <= low < 256
  {
    256 * high + low
  }

  function FromTwoBytes(b: Bytes): (r: Str)
    ensures |r| == |b| / 2
  {
    seq(|b| / 2, i requires 0 <= i < |b| / 2 => Unit(b[2 * i], b[2 * i + 1]))
  }

  /** There is such an encoding. */
  lemma SomeLawful()
    ensures Utf8(TwoBytes, FromTwoBytes).Lawful()
  {
    forall s
      ensures FromTwoBytes(TwoBytes(s)) == s
    {
      forall i | 0 <= i < |s|
        ensures FromTwoBytes(TwoBytes(s))[i] == s[i]
      {
        assert TwoBytes(s)[2 * i] == s[i] / 256 && TwoBytes(s)[2 * i + 1] == s[i] % 256;
      }
    }
  }

  // --- encoding --------------------------------------------------------------------------------------

  function KindTag(kind: Kind): Byte {
    match kind
    case Equal => 0xa3
    case Greater => 0xa5
    case Less => 0xa6
    case Approx => 0xa8
  }

  function TagOf(f: Filter): Byte {
    match f
    case And(_) => 0xa0
    case Or(_) => 0xa1
    case Not(_) => 0xa2
    case Compare(kind, _, _) => KindTag(kind)
    case Substrings(_, _, _, _) => 0xa4
    case Present(_) => 0x87
    case Extensible(_, _, _, _) => 0xa9
  }

  function Elements(items: seq<Item>): (r: seq<Bytes>)
    ensures |r| == |items|
  {
    seq(|items|, i requires 0 <= i < |items| => Element(items[i].tag, items[i].value))
  }

  function Octets(c: Utf8, s: Str, tag: Byte): Item { Item(tag, c.encode(s)) }

  function Given(c: Utf8, s: Option<Str>, tag: Byte): seq<Item> { if s.Some? then [Octets(c, s.value, tag)] else [] }

  function SubstringItems(c: Utf8, initial: Option<Str>, any: seq<Str>, final: Option<Str>): seq<Item> {
    Given(c, initial, 0x80) + seq(|any|, i requires 0 <= i < |any| => Octets(c, any[i], 0x81)) + Given(c, final, 0x82)
  }

  /** An empty rule or name is left out, as one that is not there. */
  function Nonempty(s: Option<Str>): Option<Str> { if s.Some? && s.value != [] then s else None }

  function ExtensibleItems(c: Utf8, f: Filter): seq<Item>
    requires f.Extensible?
  {
    Given(c, Nonempty(f.rule), 0x81) + Given(c, Nonempty(f.named), 0x82) + [Octets(c, f.value, 0x83)]
    + if f.dnAttributes then [Item(0x84, [0xff])] else []
  }

  /** The elements a constructed filter is made of. */
  function ChildItems(c: Utf8, f: Filter): seq<Item>
    decreases f, 0
  {
    match f
    case And(filters) => seq(|filters|, i requires 0 <= i < |filters| => Item(TagOf(filters[i]), Content(c, filters[i])))
    case Or(filters) => seq(|filters|, i requires 0 <= i < |filters| => Item(TagOf(filters[i]), Content(c, filters[i])))
    case Not(inner) => [Item(TagOf(inner), Content(c, inner))]
    case Compare(_, attribute, value) => [Octets(c, attribute, 4), Octets(c, value, 4)]
    case Substrings(attribute, initial, any, final) =>
      [Octets(c, attribute, 4), Item(0x30, Concat(Elements(SubstringItems(c, initial, any, final))))]
    case Present(_) => []
    case Extensible(_, _, _, _) => ExtensibleItems(c, f)
  }

  function Content(c: Utf8, f: Filter): Bytes
    decreases f, 1
  {
    if f.Present? then c.encode(f.attribute) else Concat(Elements(ChildItems(c, f)))
  }

  /** `encodeFilter`, for filters whose content is not too long. */
  function Encode(c: Utf8, f: Filter): Bytes { Element(TagOf(f), Content(c, f)) }

  // --- decoding --------------------------------------------------------------------------------------

  /** A filter with the terms used so far, or a refusal. */
  datatype Decoded<+T> = Decoded(value: T, terms: nat) | Refused

  function KindOf(tag: Byte): Option<Kind> {
    if tag == 0xa3 then Some(Equal) else if tag == 0xa5 then Some(Greater)
    else if tag == 0xa6 then Some(Less) else if tag == 0xa8 then Some(Approx) else None
  }

  /** The substrings so far, part by part: an unknown part is refused. */
  function TakeSubstrings(c: Utf8, f: Filter, parts: seq<Item>): Option<Filter>
    requires f.Substrings?
    decreases |parts|
  {
    if parts == [] then Some(f)
    else
      var text := c.decode(parts[0].value);
      match parts[0].tag
      case 0x80 => TakeSubstrings(c, Substrings(f.attribute, Some(text), f.any, f.final), parts[1..])
      case 0x81 => TakeSubstrings(c, Substrings(f.attribute, f.initial, f.any + [text], f.final), parts[1..])
      case 0x82 => TakeSubstrings(c, Substrings(f.attribute, f.initial, f.any, Some(text)), parts[1..])
      case _ => None
  }

  /** The parts of an extensible match so far: unknown parts are skipped. */
  function TakeExtensible(c: Utf8, f: Filter, parts: seq<Item>): Option<Filter>
    requires f.Extensible?
    decreases |parts|
  {
    if parts == [] then Some(f)
    else
      var part := parts[0];
      match part.tag
      case 0x81 => TakeExtensible(c, Extensible(f.named, Some(c.decode(part.value)), f.value, f.dnAttributes), parts[1..])
      case 0x82 => TakeExtensible(c, Extensible(Some(c.decode(part.value)), f.rule, f.value, f.dnAttributes), parts[1..])
      case 0x83 => TakeExtensible(c, Extensible(f.named, f.rule, c.decode(part.value), f.dnAttributes), parts[1..])
      case 0x84 =>
        if |part.value| != 1 then None
        else TakeExtensible(c, Extensible(f.named, f.rule, f.value, part.value[0] != 0), parts[1..])
      case _ => TakeExtensible(c, f, parts[1..])
  }

  function DecodeCompare(c: Utf8, kind: Kind, parts: seq<Item>): Option<Filter> {
    if |parts| < 2 || parts[0].tag != 4 || parts[1].tag != 4 then None
    else Some(Compare(kind, c.decode(parts[0].value), c.decode(parts[1].value)))
  }

  function DecodeSubstrings(c: Utf8, parts: seq<Item>): Option<Filter> {
    if |parts| < 2 || parts[0].tag != 4 || parts[1].tag != 0x30 || Children(parts[1].value).None? then None
    else TakeSubstrings(c, Substrings(c.decode(parts[0].value), None, [], None), Children(parts[1].value).value)
  }

  function Counted(f: Option<Filter>, terms: nat): Decoded<Filter> {
    if f.None? then Refused else Decoded(f.value, terms)
  }

  /** Smaller than what holds them. */
  ghost predicate Within(items: seq<Item>, bound: nat) { forall i :: 0 <= i < |items| ==> |items[i].value| < bound }

  /** `decodeFilter`, given the terms already counted. */
  function Decode(c: Utf8, item: Item, depth: nat, terms: nat): Decoded<Filter>
    decreases |item.value| + 1, 0
  {
    if depth > MAX_DEPTH || terms + 1 > MAX_TERMS then Refused
    else if item.tag == 0x87 then Decoded(Present(c.decode(item.value)), terms + 1)
    else if Children(item.value).None? then Refused
    else DecodeParts(c, item.tag, Children(item.value).value, |item.value|, depth + 1, terms + 1)
  }

  function DecodeParts(c: Utf8, tag: Byte, parts: seq<Item>, bound: nat, depth: nat, terms: nat): Decoded<Filter>
    requires Within(parts, bound)
    decreases bound, |parts| + 2
  {
    if tag == 0xa0 || tag == 0xa1 then
      (var all := DecodeAll(c, parts, bound, depth, terms);
       if all.Refused? then Refused else Decoded(if tag == 0xa0 then And(all.value) else Or(all.value), all.terms))
    else if tag == 0xa2 then
      if parts == [] then Refused
      else
        (var inner := Decode(c, parts[0], depth, terms);
         if inner.Refused? then Refused else Decoded(Not(inner.value), inner.terms))
    else if KindOf(tag).Some? then Counted(DecodeCompare(c, KindOf(tag).value, parts), terms)
    else if tag == 0xa4 then Counted(DecodeSubstrings(c, parts), terms)
    else if tag == 0xa9 then Counted(TakeExtensible(c, Extensible(None, None, [], false), parts), terms)
    else Refused
  }

  function DecodeAll(c: Utf8, items: seq<Item>, bound: nat, depth: nat, terms: nat): Decoded<seq<Filter>>
    requires Within(items, bound)
    decreases bound, |items| + 1
  {
    if items == [] then Decoded([], terms)
    else
      var first := Decode(c, items[0], depth, terms);
      if first.Refused? then Refused
      else
        var rest := DecodeAll(c, items[1..], bound, depth, first.terms);
        if rest.Refused? then Refused else Decoded([first.value] + rest.value, rest.terms)
  }

  // --- the round trip --------------------------------------------------------------------------------

  /** Levels below a filter, and filters in it. */
  function Depth(f: Filter): nat
    decreases f, 0
  {
    match f
    case And(filters) => Deepest(f, |filters|)
    case Or(filters) => Deepest(f, |filters|)
    case Not(inner) => 1 + Depth(inner)
    case _ => 0
  }

  function Deepest(f: Filter, n: nat): nat
    requires (f.And? || f.Or?) && n <= |f.filters|
    decreases f, 0, n
  {
    if n == 0 then 0
    else
      var d := 1 + Depth(f.filters[n - 1]);
      if d > Deepest(f, n - 1) then d else Deepest(f, n - 1)
  }

  function Terms(f: Filter): nat
    decreases f, 0
  {
    match f
    case And(filters) => 1 + TermsFrom(f, 0)
    case Or(filters) => 1 + TermsFrom(f, 0)
    case Not(inner) => 1 + Terms(inner)
    case _ => 1
  }

  function TermsFrom(f: Filter, k: nat): nat
    requires (f.And? || f.Or?) && k <= |f.filters|
    decreases f, 0, |f.filters| - k
  {
    if k == |f.filters| then 0 else Terms(f.filters[k]) + TermsFrom(f, k + 1)
  }

  predicate CleanOption(s: Option<Str>) { s.Some? ==> Clean(s.value) }

  /** Texts without unpaired surrogates, and no empty rule or name. */
  predicate Plain(f: Filter) {
    match f
    case And(filters) => forall i :: 0 <= i < |filters| ==> Plain(filters[i])
    case Or(filters) => forall i :: 0 <= i < |filters| ==> Plain(filters[i])
    case Not(inner) => Plain(inner)
    case Compare(_, attribute, value) => Clean(attribute) && Clean(value)
    case Substrings(attribute, initial, any, final) =>
      Clean(attribute) && CleanOption(initial) && CleanOption(final) && forall i :: 0 <= i < |any| ==> Clean(any[i])
    case Present(attribute) => Clean(attribute)
    case Extensible(named, rule, value, _) =>
      CleanOption(named) && CleanOption(rule) && Clean(value) && Nonempty(named) == named && Nonempty(rule) == rule
  }

  lemma {:induction false} ConcatBounds(parts: seq<Bytes>, i: nat)
    requires i < |parts|
    ensures |parts[i]| <= |Concat(parts)|
  {
    if i > 0 { ConcatBounds(parts[1..], i - 1); }
  }

  /** Constructed content is read as the elements it was made of. */
  lemma ItemsRead(items: seq<Item>)
    requires |Concat(Elements(items))| <= MAX_SIZE
    requires forall i :: 0 <= i < |items| ==> items[i].tag % 32 != 31
    ensures Children(Concat(Elements(items))) == Some(items)
    ensures forall i :: 0 <= i < |items| ==> |items[i].value| < |Concat(Elements(items))|
  {
    hide LengthOf;
    var parts := Elements(items);
    forall i | 0 <= i < |items|
      ensures |items[i].value| < |Concat(parts)|
    { ConcatBounds(parts, i); }
    ChildrenOf(parts, items);
  }

  lemma GoodTag(f: Filter)
    ensures TagOf(f) % 32 != 31
  {}

  /** The parts of a substrings filter put it together again. */
  lemma SubstringsRead(c: Utf8, attribute: Str, initial: Option<Str>, any: seq<Str>, final: Option<Str>)
    requires c.Lawful() && Plain(Substrings(attribute, initial, any, final))
    ensures TakeSubstrings(c, Substrings(attribute, None, [], None), SubstringItems(c, initial, any, final))
         == Some(Substrings(attribute, initial, any, final))
  {
    var items := SubstringItems(c, initial, any, final);
    var middle := AnyItems(c, any, 0) + Given(c, final, 0x82);
    assert items == Given(c, initial, 0x80) + middle;
    if initial.Some? {
      assert items[0] == Octets(c, initial.value, 0x80) && items[1..] == middle;
    } else {
      assert items == middle;
    }
    AnyRead(c, attribute, initial, any, final, 0);
    assert any[..0] == [];
  }

  function AnyItems(c: Utf8, any: seq<Str>, k: nat): seq<Item>
    requires k <= |any|
  {
    seq(|any| - k, i requires 0 <= i < |any| - k => Octets(c, any[k + i], 0x81))
  }

  lemma {:induction false} AnyRead(c: Utf8, attribute: Str, initial: Option<Str>, any: seq<Str>, final: Option<Str>, k: nat)
    requires c.Lawful() && Plain(Substrings(attribute, initial, any, final)) && k <= |any|
    ensures TakeSubstrings(c, Substrings(attribute, initial, any[..k], None), AnyItems(c, any, k) + Given(c, final, 0x82))
         == Some(Substrings(attribute, initial, any, final))
    decreases |any| - k
  {
    var items := AnyItems(c, any, k) + Given(c, final, 0x82);
    if k < |any| {
      assert items[0] == Octets(c, any[k], 0x81);
      assert items[1..] == AnyItems(c, any, k + 1) + Given(c, final, 0x82);
      assert any[..k] + [any[k]] == any[..k + 1];
      AnyRead(c, attribute, initial, any, final, k + 1);
    } else {
      assert any[..k] == any;
      assert items == Given(c, final, 0x82);
      if final.Some? { assert items[1..] == []; }
    }
  }

  lemma ExtensibleRead(c: Utf8, f: Filter)
    requires c.Lawful() && f.Extensible? && Plain(f)
    ensures TakeExtensible(c, Extensible(None, None, [], false), ExtensibleItems(c, f)) == Some(f)
  {
    var tail := ValueItems(c, f);
    var named := Given(c, f.named, 0x82) + tail;
    assert ExtensibleItems(c, f) == Given(c, f.rule, 0x81) + named;
    ValueRead(c, f);
    NamedRead(c, f, tail);
    RuleRead(c, f, named);
  }

  function ValueItems(c: Utf8, f: Filter): seq<Item>
    requires f.Extensible?
  {
    [Octets(c, f.value, 0x83)] + if f.dnAttributes then [Item(0x84, [0xff])] else []
  }

  lemma ValueRead(c: Utf8, f: Filter)
    requires c.Lawful() && f.Extensible? && Plain(f)
    ensures TakeExtensible(c, Extensible(f.named, f.rule, [], false), ValueItems(c, f)) == Some(f)
  {
    FlagRead(c, Extensible(f.named, f.rule, f.value, false), f.dnAttributes);
    assert ValueItems(c, f)[1..] == if f.dnAttributes then [Item(0x84, [0xff])] else [];
  }

  lemma NamedRead(c: Utf8, f: Filter, tail: seq<Item>)
    requires c.Lawful() && f.Extensible? && Plain(f)
    ensures TakeExtensible(c, Extensible(None, f.rule, [], false), Given(c, f.named, 0x82) + tail)
         == TakeExtensible(c, Extensible(f.named, f.rule, [], false), tail)
  {
    var items := Given(c, f.named, 0x82) + tail;
    if f.named.Some? { assert items[1..] == tail; } else { assert items == tail; }
  }

  lemma RuleRead(c: Utf8, f: Filter, tail: seq<Item>)
    requires c.Lawful() && f.Extensible? && Plain(f)
    ensures TakeExtensible(c, Extensible(None, None, [], false), Given(c, f.rule, 0x81) + tail)
         == TakeExtensible(c, Extensible(None, f.rule, [], false), tail)
  {
    var items := Given(c, f.rule, 0x81) + tail;
    if f.rule.Some? { assert items[1..] == tail; } else { assert items == tail; }
  }

  lemma FlagRead(c: Utf8, f: Filter, flagged: bool)
    requires f.Extensible? && !f.dnAttributes
    ensures TakeExtensible(c, f, if flagged then [Item(0x84, [0xff])] else [])
         == Some(Extensible(f.named, f.rule, f.value, flagged))
  {
    var one := [Item(0x84, [0xff])];
    assert one[1..] == [];
  }

  lemma ItemTags(c: Utf8, f: Filter)
    ensures forall i :: 0 <= i < |ChildItems(c, f)| ==> ChildItems(c, f)[i].tag % 32 != 31
  {
    hide Content;
    match f
    case And(filters) => forall i | 0 <= i < |filters| ensures TagOf(filters[i]) % 32 != 31 { GoodTag(filters[i]); }
    case Or(filters) => forall i | 0 <= i < |filters| ensures TagOf(filters[i]) % 32 != 31 { GoodTag(filters[i]); }
    case Not(inner) => GoodTag(inner);
    case _ =>
  }

  lemma ChildrenRead(c: Utf8, f: Filter)
    requires |Content(c, f)| <= MAX_SIZE && !f.Present?
    ensures Children(Content(c, f)) == Some(ChildItems(c, f))
    ensures Within(ChildItems(c, f), |Content(c, f)|)
  {
    ItemTags(c, f);
    hide ChildItems;
    ItemsRead(ChildItems(c, f));
  }

  lemma DecodeStep(c: Utf8, f: Filter, depth: nat, terms: nat)
    requires |Content(c, f)| <= MAX_SIZE && !f.Present? && depth <= MAX_DEPTH && terms + 1 <= MAX_TERMS
    ensures Within(ChildItems(c, f), |Content(c, f)|)
    ensures Decode(c, Item(TagOf(f), Content(c, f)), depth, terms)
         == DecodeParts(c, TagOf(f), ChildItems(c, f), |Content(c, f)|, depth + 1, terms + 1)
  {
    ChildrenRead(c, f);
    hide Content, ChildItems, Children, DecodeParts;
  }

  /** Read back with so many levels and terms used already, a filter is restored exactly when both budgets hold. */
  lemma {:induction false} Decodes(c: Utf8, f: Filter, depth: nat, terms: nat)
    requires c.Lawful() && Plain(f) && |Content(c, f)| <= MAX_SIZE
    ensures Decode(c, Item(TagOf(f), Content(c, f)), depth, terms) == Expected(f, depth, terms)
    decreases f, 1, 0
  {
    AtLeastOne(f);
    if depth > MAX_DEPTH || terms + 1 > MAX_TERMS || f.Present? {
      LeafDecodes(c, f, depth, terms);
    } else if f.And? || f.Or? {
      ListDecodes(c, f, depth, terms);
    } else if f.Not? {
      NotDecodes(c, f, depth, terms);
    } else {
      SimpleDecodes(c, f, depth, terms);
    }
  }

  lemma NotDecodes(c: Utf8, f: Filter, depth: nat, terms: nat)
    requires c.Lawful() && Plain(f) && |Content(c, f)| <= MAX_SIZE && f.Not?
    requires depth <= MAX_DEPTH && terms + 1 <= MAX_TERMS
    ensures Decode(c, Item(TagOf(f), Content(c, f)), depth, terms) == Expected(f, depth, terms)
    decreases f, 0, 0
  {
    DecodeStep(c, f, depth, terms);
    InnerSmaller(c, f.filter);
    hide Decode, Content, Children;
    Decodes(c, f.filter, depth + 1, terms + 1);
  }

  lemma SimpleDecodes(c: Utf8, f: Filter, depth: nat, terms: nat)
    requires c.Lawful() && Plain(f) && |Content(c, f)| <= MAX_SIZE && (f.Compare? || f.Substrings? || f.Extensible?)
    requires depth <= MAX_DEPTH && terms + 1 <= MAX_TERMS
    ensures Decode(c, Item(TagOf(f), Content(c, f)), depth, terms) == Expected(f, depth, terms)
  {
    DecodeStep(c, f, depth, terms);
    PartsDecode(c, f);
    SimpleParts(c, f, |Content(c, f)|, depth + 1, terms + 1);
    SimpleCounts(f);
    hide Decode, Content, DecodeParts, ChildItems, Plain, Depth, Terms, DecodeCompare, DecodeSubstrings, TakeExtensible, TagOf;
  }

  lemma SimpleCounts(f: Filter)
    requires f.Compare? || f.Substrings? || f.Extensible?
    ensures Depth(f) == 0 && Terms(f) == 1
  {}

  lemma SimpleParts(c: Utf8, f: Filter, bound: nat, depth: nat, terms: nat)
    requires Within(ChildItems(c, f), bound)
    requires f.Compare? || f.Substrings? || f.Extensible?
    requires f.Compare? ==> DecodeCompare(c, f.kind, ChildItems(c, f)) == Some(f)
    requires f.Substrings? ==> DecodeSubstrings(c, ChildItems(c, f)) == Some(f)
    requires f.Extensible? ==> TakeExtensible(c, Extensible(None, None, [], false), ChildItems(c, f)) == Some(f)
    ensures DecodeParts(c, TagOf(f), ChildItems(c, f), bound, depth, terms) == Decoded(f, terms)
  {
    hide ChildItems, DecodeCompare, DecodeSubstrings, TakeExtensible, DecodeAll, Decode;
  }

  lemma PartsDecode(c: Utf8, f: Filter)
    requires c.Lawful() && Plain(f) && |Content(c, f)| <= MAX_SIZE
    ensures f.Compare? ==> DecodeCompare(c, f.kind, ChildItems(c, f)) == Some(f)
    ensures f.Substrings? ==> DecodeSubstrings(c, ChildItems(c, f)) == Some(f)
    ensures f.Extensible? ==>
              TakeExtensible(c, Extensible(None, None, [], false), ChildItems(c, f)) == Some(f)
  {
    if f.Substrings? {
      SubstringsDecode(c, f);
    } else if f.Extensible? {
      ExtensibleRead(c, f);
      hide ExtensibleItems, TakeExtensible;
    }
  }

  function Expected(f: Filter, depth: nat, terms: nat): Decoded<Filter> {
    if depth + Depth(f) <= MAX_DEPTH && terms + Terms(f) <= MAX_TERMS then Decoded(f, terms + Terms(f)) else Refused
  }

  lemma AtLeastOne(f: Filter)
    ensures Terms(f) >= 1
  {}

  lemma LeafDecodes(c: Utf8, f: Filter, depth: nat, terms: nat)
    requires c.Lawful() && Plain(f)
    requires depth > MAX_DEPTH || terms + 1 > MAX_TERMS || f.Present?
    ensures Decode(c, Item(TagOf(f), Content(c, f)), depth, terms) == Expected(f, depth, terms)
  {
    AtLeastOne(f);
  }

  lemma InnerSmaller(c: Utf8, inner: Filter)
    ensures |Content(c, inner)| <= |Content(c, Not(inner))|
  {
    hide LengthOf;
    ConcatBounds(Elements(ChildItems(c, Not(inner))), 0);
  }

  lemma SubstringTags(c: Utf8, f: Filter)
    requires f.Substrings?
    ensures var items := SubstringItems(c, f.initial, f.any, f.final);
            forall i :: 0 <= i < |items| ==> items[i].tag % 32 != 31
  {}

  /** The substrings are the second element of their filter. */
  lemma SubstringSize(c: Utf8, f: Filter)
    requires f.Substrings? && |Content(c, f)| <= MAX_SIZE
    ensures |Concat(Elements(SubstringItems(c, f.initial, f.any, f.final)))| <= MAX_SIZE
  {
    hide LengthOf, SubstringItems;
    ConcatBounds(Elements(ChildItems(c, f)), 1);
  }

  lemma SubstringsDecode(c: Utf8, f: Filter)
    requires c.Lawful() && f.Substrings? && Plain(f) && |Content(c, f)| <= MAX_SIZE
    ensures DecodeSubstrings(c, ChildItems(c, f)) == Some(f)
  {
    hide SubstringItems, Content, Elements, Concat, Children, TakeSubstrings;
    SubstringSize(c, f);
    SubstringTags(c, f);
    ItemsRead(SubstringItems(c, f.initial, f.any, f.final));
    SubstringsRead(c, f.attribute, f.initial, f.any, f.final);
  }

  lemma {:induction false} DeepestBound(f: Filter, n: nat, m: nat)
    requires (f.And? || f.Or?) && n <= |f.filters|
    ensures Deepest(f, n) <= m <==> forall i :: 0 <= i < n ==> 1 + Depth(f.filters[i]) <= m
  {
    if n > 0 { DeepestBound(f, n - 1, m); }
  }

  lemma TermsCounted(f: Filter, k: nat)
    requires (f.And? || f.Or?) && k <= |f.filters|
    ensures TermsFrom(f, k) >= |f.filters| - k
    decreases |f.filters| - k
  {
    if k < |f.filters| { TermsCounted(f, k + 1); }
  }

  predicate AllShallow(f: Filter, k: nat, depth: nat)
    requires (f.And? || f.Or?) && k <= |f.filters|
  {
    forall i :: k <= i < |f.filters| ==> depth + Depth(f.filters[i]) <= MAX_DEPTH
  }

  lemma PlainAt(f: Filter, k: nat)
    requires (f.And? || f.Or?) && Plain(f) && k < |f.filters|
    ensures Plain(f.filters[k])
  {}

  function RestExpected(f: Filter, k: nat, depth: nat, terms: nat): Decoded<seq<Filter>>
    requires (f.And? || f.Or?) && k <= |f.filters|
  {
    if AllShallow(f, k, depth) && terms + TermsFrom(f, k) <= MAX_TERMS then Decoded(f.filters[k..], terms + TermsFrom(f, k)) else Refused
  }

  /** From the k-th on, a list's parts are decoded exactly when both budgets hold for all of them. */
  ghost predicate RestDecodes(c: Utf8, f: Filter, k: nat, bound: nat, depth: nat, terms: nat)
    requires (f.And? || f.Or?) && k <= |f.filters|
  {
    && Within(ChildItems(c, f)[k..], bound)
    && DecodeAll(c, ChildItems(c, f)[k..], bound, depth, terms) == RestExpected(f, k, depth, terms)
  }

  lemma AllDecodes(c: Utf8, f: Filter, k: nat, bound: nat, depth: nat, terms: nat)
    requires c.Lawful() && (f.And? || f.Or?) && Plain(f) && k <= |f.filters|
    requires bound <= MAX_SIZE && Within(ChildItems(c, f), bound)
    requires terms <= MAX_TERMS
    ensures RestDecodes(c, f, k, bound, depth, terms)
    decreases f, 0, |f.filters| - k
  {
    hide RestDecodes, Decode, DecodeAll, Content, Plain, Depth, ChildItems, TagOf, Terms, Within, Expected;
    if k == |f.filters| {
      NoneDecodes(c, f, bound, depth, terms);
    } else {
      var first := f.filters[k];
      PlainAt(f, k);
      ItemWithin(c, f, k, bound);
      Decodes(c, first, depth, terms);
      if depth + Depth(first) <= MAX_DEPTH && terms + Terms(first) <= MAX_TERMS {
        AllDecodes(c, f, k + 1, bound, depth, terms + Terms(first));
      }
      FirstDecodes(c, f, k, bound, depth, terms);
    }
  }

  lemma ItemWithin(c: Utf8, f: Filter, k: nat, bound: nat)
    requires (f.And? || f.Or?) && k < |f.filters| && Within(ChildItems(c, f), bound)
    ensures |Content(c, f.filters[k])| < bound
  {
    hide Content, TagOf;
    assert ChildItems(c, f)[k] == Item(TagOf(f.filters[k]), Content(c, f.filters[k]));
  }

  lemma NoneDecodes(c: Utf8, f: Filter, bound: nat, depth: nat, terms: nat)
    requires (f.And? || f.Or?) && terms <= MAX_TERMS
    ensures RestDecodes(c, f, |f.filters|, bound, depth, terms)
  {
    hide Content, TagOf, Depth, Terms;
    assert ChildItems(c, f)[|f.filters|..] == [] && f.filters[|f.filters|..] == [];
  }

  lemma FirstDecodes(c: Utf8, f: Filter, k: nat, bound: nat, depth: nat, terms: nat)
    requires (f.And? || f.Or?) && k < |f.filters| && Within(ChildItems(c, f), bound) && terms <= MAX_TERMS
    requires Decode(c, Item(TagOf(f.filters[k]), Content(c, f.filters[k])), depth, terms) == Expected(f.filters[k], depth, terms)
    requires depth + Depth(f.filters[k]) <= MAX_DEPTH && terms + Terms(f.filters[k]) <= MAX_TERMS ==>
               RestDecodes(c, f, k + 1, bound, depth, terms + Terms(f.filters[k]))
    ensures RestDecodes(c, f, k, bound, depth, terms)
  {
    hide Decode, DecodeAll, Content, ChildItems, TagOf, Within, Expected, RestExpected, Depth, Terms;
    ListItem(c, f, k);
    RestWithin(ChildItems(c, f), k, bound);
    DecodeFirst(c, ChildItems(c, f)[k..], bound, depth, terms);
    ExpectedFirst(f, k, depth, terms);
  }

  /** What is expected of the first and of the rest, put together. */
  lemma ExpectedFirst(f: Filter, k: nat, depth: nat, terms: nat)
    requires (f.And? || f.Or?) && k < |f.filters| && terms <= MAX_TERMS
    ensures var first := Expected(f.filters[k], depth, terms);
            && (first.Decoded? <==> depth + Depth(f.filters[k]) <= MAX_DEPTH && terms + Terms(f.filters[k]) <= MAX_TERMS)
            && (first.Decoded? ==> first == Decoded(f.filters[k], terms + Terms(f.filters[k])))
            && RestExpected(f, k, depth, terms) ==
               if first.Refused? then Refused
               else
                 var rest := RestExpected(f, k + 1, depth, first.terms);
                 if rest.Refused? then Refused else Decoded([first.value] + rest.value, rest.terms)
  {
    FirstLeft(f, k, depth);
    hide Depth, Terms, AllShallow, TermsFrom;
  }

  lemma RestWithin(items: seq<Item>, k: nat, bound: nat)
    requires k <= |items| && Within(items, bound)
    ensures Within(items[k..], bound)
  {}

  lemma FirstLeft(f: Filter, k: nat, depth: nat)
    requires (f.And? || f.Or?) && k < |f.filters|
    ensures AllShallow(f, k, depth) <==> depth + Depth(f.filters[k]) <= MAX_DEPTH && AllShallow(f, k + 1, depth)
    ensures TermsFrom(f, k) == Terms(f.filters[k]) + TermsFrom(f, k + 1)
    ensures f.filters[k..] == [f.filters[k]] + f.filters[k + 1..]
  {
    hide Depth, Terms;
  }

  lemma ListItem(c: Utf8, f: Filter, k: nat)
    requires (f.And? || f.Or?) && k <= |f.filters|
    ensures |ChildItems(c, f)| == |f.filters|
    ensures k < |f.filters| ==>
              && ChildItems(c, f)[k..][0] == Item(TagOf(f.filters[k]), Content(c, f.filters[k]))
              && ChildItems(c, f)[k..][1..] == ChildItems(c, f)[k + 1..]
  {
    hide Content, TagOf;
  }

  lemma DecodeFirst(c: Utf8, items: seq<Item>, bound: nat, depth: nat, terms: nat)
    requires items != [] && Within(items, bound)
    ensures DecodeAll(c, items, bound, depth, terms) ==
            var first := Decode(c, items[0], depth, terms);
            if first.Refused? then Refused
            else
              var rest := DecodeAll(c, items[1..], bound, depth, first.terms);
              if rest.Refused? then Refused else Decoded([first.value] + rest.value, rest.terms)
  {
    hide Decode;
  }

  lemma ListDecodes(c: Utf8, f: Filter, depth: nat, terms: nat)
    requires c.Lawful() && Plain(f) && |Content(c, f)| <= MAX_SIZE && (f.And? || f.Or?)
    requires depth <= MAX_DEPTH && terms + 1 <= MAX_TERMS
    ensures Decode(c, Item(TagOf(f), Content(c, f)), depth, terms) == Expected(f, depth, terms)
    decreases f, 0, |f.filters| + 1
  {
    DecodeStep(c, f, depth, terms);
    AllDecodes(c, f, 0, |Content(c, f)|, depth + 1, terms + 1);
    ListExpected(c, f, |Content(c, f)|, depth, terms);
    hide *;
  }

  lemma ListExpected(c: Utf8, f: Filter, bound: nat, depth: nat, terms: nat)
    requires (f.And? || f.Or?) && depth <= MAX_DEPTH && Within(ChildItems(c, f), bound)
    requires RestDecodes(c, f, 0, bound, depth + 1, terms + 1)
    ensures DecodeParts(c, TagOf(f), ChildItems(c, f), bound, depth + 1, terms + 1) == Expected(f, depth, terms)
  {
    ShallowDepth(f, depth);
    ListParts(c, f, bound, depth + 1, terms + 1);
    hide Content, ChildItems, DecodeAll, DecodeParts, AllShallow, Depth, TermsFrom, Terms, TagOf;
    assert ChildItems(c, f)[0..] == ChildItems(c, f) && f.filters[0..] == f.filters;
  }

  lemma ListParts(c: Utf8, f: Filter, bound: nat, depth: nat, terms: nat)
    requires Within(ChildItems(c, f), bound)
    requires f.And? || f.Or?
    ensures var all := DecodeAll(c, ChildItems(c, f), bound, depth, terms);
            DecodeParts(c, TagOf(f), ChildItems(c, f), bound, depth, terms) ==
            if all.Refused? then Refused else Decoded(if f.And? then And(all.value) else Or(all.value), all.terms)
  {
    hide ChildItems, DecodeAll;
  }

  lemma ShallowDepth(f: Filter, depth: nat)
    requires (f.And? || f.Or?) && depth <= MAX_DEPTH
    ensures AllShallow(f, 0, depth + 1) <==> depth + Depth(f) <= MAX_DEPTH
    ensures Terms(f) == 1 + TermsFrom(f, 0)
  {
    DeepestBound(f, |f.filters|, MAX_DEPTH - depth);
  }

  /** A filter within the size limit is decoded to itself exactly when it has at most 32 levels and 256 terms. */
  lemma RoundTrip(c: Utf8, f: Filter, rest: Bytes)
    requires c.Lawful() && Plain(f) && |Content(c, f)| <= MAX_SIZE
    ensures var read := Read(Encode(c, f) + rest, MAX_SIZE);
            && read.Complete?
            && Decode(c, read.item, 0, 0)
            == if Depth(f) <= MAX_DEPTH && Terms(f) <= MAX_TERMS then Decoded(f, Terms(f)) else Refused
  {
    GoodTag(f);
    ReadElementOf(TagOf(f), Content(c, f), rest, MAX_SIZE);
    Decodes(c, f, 0, 0);
  }

  // --- the decoder as it runs ------------------------------------------------------------------------

  class Budget {
    var terms: nat

    constructor ()
      ensures terms == 0
    {
      terms := 0;
    }
  }

  ghost predicate Answers(expected: Decoded<Filter>, r: Option<Filter>, terms: nat) {
    match expected
    case Decoded(f, t) => r == Some(f) && terms == t
    case Refused => r.None?
  }

  ghost predicate AnswersAll(expected: Decoded<seq<Filter>>, r: Option<seq<Filter>>, terms: nat) {
    match expected
    case Decoded(fs, t) => r == Some(fs) && terms == t
    case Refused => r.None?
  }

  /** `decodeFilter`: one budget is spent over the whole tree. */
  method DecodeFilter(c: Utf8, item: Item, depth: nat, budget: Budget) returns (r: Option<Filter>)
    modifies budget
    ensures Answers(Decode(c, item, depth, old(budget.terms)), r, budget.terms)
    decreases |item.value| + 1, 0
  {
    hide Children, DecodeAll, DecodeCompare, DecodeSubstrings, TakeExtensible, KindTag;
    if depth > MAX_DEPTH { return None; }
    budget.terms := budget.terms + 1;
    if budget.terms > MAX_TERMS { return None; }
    if item.tag == 0x87 { return Some(Present(c.decode(item.value))); }
    var parts := ReadChildren(item.value);
    if parts.None? { return None; }
    if item.tag == 0xa0 || item.tag == 0xa1 {
      var filters := DecodeEach(c, parts.value, |item.value|, depth + 1, budget);
      if filters.None? { return None; }
      return Some(if item.tag == 0xa0 then And(filters.value) else Or(filters.value));
    }
    if item.tag == 0xa2 {
      if parts.value == [] { return None; }
      var inner := DecodeFilter(c, parts.value[0], depth + 1, budget);
      return if inner.None? then None else Some(Not(inner.value));
    }
    if KindOf(item.tag).Some? { return DecodeCompare(c, KindOf(item.tag).value, parts.value); }
    if item.tag == 0xa4 { return DecodeSubstrings(c, parts.value); }
    if item.tag == 0xa9 { return TakeExtensible(c, Extensible(None, None, [], false), parts.value); }
    return None;
  }

  method DecodeEach(c: Utf8, items: seq<Item>, bound: nat, depth: nat, budget: Budget) returns (r: Option<seq<Filter>>)
    requires Within(items, bound)
    modifies budget
    ensures AnswersAll(DecodeAll(c, items, bound, depth, old(budget.terms)), r, budget.terms)
    decreases bound, |items| + 1
  {
    var filters: seq<Filter> := [];
    var i := 0;
    assert items[0..] == items;
    FollowedByAll(filters, DecodeAll(c, items, bound, depth, budget.terms));
    while i < |items|
      invariant i <= |items|
      invariant FollowedBy(filters, DecodeAll(c, items[i..], bound, depth, budget.terms))
             == DecodeAll(c, items, bound, depth, old(budget.terms))
    {
      hide Decode;
      DecodeAllStep(c, items[i..], bound, depth, budget.terms);
      assert items[i..][1..] == items[i + 1..] && items[i..][0] == items[i];
      var next := DecodeFilter(c, items[i], depth, budget);
      if next.None? { return None; }
      FollowedByNext(filters, next.value, DecodeAll(c, items[i + 1..], bound, depth, budget.terms));
      filters := filters + [next.value];
      i := i + 1;
    }
    assert items[i..] == [] && filters + [] == filters;
    return Some(filters);
  }

  function FollowedBy(filters: seq<Filter>, rest: Decoded<seq<Filter>>): Decoded<seq<Filter>> {
    if rest.Refused? then Refused else Decoded(filters + rest.value, rest.terms)
  }

  lemma FollowedByAll(filters: seq<Filter>, rest: Decoded<seq<Filter>>)
    requires filters == []
    ensures FollowedBy(filters, rest) == rest
  {
    if rest.Decoded? { assert filters + rest.value == rest.value; }
  }

  lemma FollowedByNext(filters: seq<Filter>, next: Filter, rest: Decoded<seq<Filter>>)
    ensures FollowedBy(filters + [next], rest) == FollowedBy(filters, FollowedBy([next], rest))
  {
    if rest.Decoded? { assert filters + [next] + rest.value == filters + ([next] + rest.value); }
  }

  lemma DecodeAllStep(c: Utf8, items: seq<Item>, bound: nat, depth: nat, terms: nat)
    requires items != [] && Within(items, bound)
    ensures var first := Decode(c, items[0], depth, terms);
            DecodeAll(c, items, bound, depth, terms)
            == if first.Refused? then Refused
               else FollowedBy([first.value], DecodeAll(c, items[1..], bound, depth, first.terms))
  {}

  // --- substrings ------------------------------------------------------------------------------------

  /** The pieces after the initial one; without a final one, anything may end the value. */
  function Pieces(any: seq<Str>, final: Option<Str>): seq<Str> { any + [if final.Some? then final.value else []] }

  /** The initial piece at the front, the others in order without overlap, and the final one at the end. */
  ghost predicate SubstringsMatch(value: Str, initial: Option<Str>, any: seq<Str>, final: Option<Str>) {
    var first := if initial.Some? then initial.value else [];
    OccursAt(value, first, 0) && Glob.Fits(Pieces(any, final), value, |first|)
  }

  /** The substrings case of `matchFilter`: taking each piece where it first occurs finds a match if there is one. */
  method MatchSubstrings(value: Str, initial: Option<Str>, any: seq<Str>, final: Option<Str>) returns (r: bool)
    ensures r <==> SubstringsMatch(value, initial, any, final)
  {
    hide Glob.Fits;
    var position: nat := 0;
    if initial.Some? {
      if !OccursAt(value, initial.value, 0) { return false; }
      position := |initial.value|;
    }
    var i := 0;
    assert any[0..] == any;
    while i < |any|
      invariant i <= |any| && position <= |value|
      invariant SubstringsMatch(value, initial, any, final)
           <==> Glob.Fits(Pieces(any[i..], final), value, position)
    {
      var pieces := Pieces(any[i..], final);
      assert pieces[0] == any[i] && pieces[1..] == Pieces(any[i + 1..], final);
      var found: int := IndexOf(value, any[i], position);
      PieceStep(pieces, value, position);
      if found < 0 { return false; }
      position := found + |any[i]|;
      i := i + 1;
    }
    assert any[i..] == [] && Pieces(any[i..], final) == [if final.Some? then final.value else []];
    LastPiece(if final.Some? then final.value else [], value, position);
    return final.None? || (|value| - |final.value| >= position && OccursAt(value, final.value, |value| - |final.value|));
  }

  lemma PieceStep(pieces: seq<Str>, value: Str, position: nat)
    requires |pieces| > 1 && position <= |value|
    ensures var at := IndexOf(value, pieces[0], position);
            Glob.Fits(pieces, value, position) <==> at >= 0 && Glob.Fits(pieces[1..], value, at + |pieces[0]|)
  {
    if Glob.Fits(pieces, value, position) {
      Glob.LeftmostPiece(pieces, value, position, IndexOf(value, pieces[0], position));
    }
  }

  lemma LastPiece(piece: Str, value: Str, position: nat)
    requires position <= |value|
    ensures Glob.Fits([piece], value, position)
       <==> |piece| <= |value| && |value| - |piece| >= position && OccursAt(value, piece, |value| - |piece|)
  {}

  function Folded(fold: Str -> Str, piece: Option<Str>): Option<Str> {
    if piece.Some? then Some(fold(piece.value)) else None
  }

  function FoldedAll(fold: Str -> Str, pieces: seq<Str>): (r: seq<Str>)
    ensures |r| == |pieces| && forall i :: 0 <= i < |pieces| ==> r[i] == fold(pieces[i])
  {
    seq(|pieces|, i requires 0 <= i < |pieces| => fold(pieces[i]))
  }

  /** One value, folded as the pieces are. */
  ghost predicate ValueMatches(fold: Str -> Str, raw: Str, initial: Option<Str>, any: seq<Str>, final: Option<Str>) {
    SubstringsMatch(fold(raw), Folded(fold, initial), FoldedAll(fold, any), Folded(fold, final))
  }

  /** An attribute matches when one of its values does. */
  method MatchValues(fold: Str -> Str, raws: seq<Str>, initial: Option<Str>, any: seq<Str>, final: Option<Str>) returns (r: bool)
    ensures r <==> exists i :: 0 <= i < |raws| && ValueMatches(fold, raws[i], initial, any, final)
  {
    hide SubstringsMatch;
    var i := 0;
    while i < |raws|
      invariant i <= |raws| && forall k :: 0 <= k < i ==> !ValueMatches(fold, raws[k], initial, any, final)
    {
      r := MatchSubstrings(fold(raws[i]), Folded(fold, initial), FoldedAll(fold, any), Folded(fold, final));
      if r { return; }
      i := i + 1;
    }
    r := false;
  }
}
