/** Names as others write and compare them: what is escaped, other ways to write a value, and when names are the same. */
module DnReading {
  import opened Wrappers
  import opened Text
  import opened Sorting
  import opened Order
  import opened Dn

  // --- what is escaped -----------------------------------------------------------------------------------

  /** RFC 4514, section 2.4, and the equals sign: what has to be escaped by a backslash before it. */
  predicate MustEscape(value: Str, i: nat)
    requires i < |value|
  {
    || value[i] in U("\"+,;<>\\=")
    || (i == 0 && value[i] in U(" #"))
    || (i == |value| - 1 && value[i] in U(" "))
  }

  /** Escaped are just these, and control characters as two hexadecimal digits; all other units stand for themselves. */
  lemma EscapedExactly(value: Str, i: nat)
    requires i < |value|
    ensures var e, u := EscapeUnit(value, i), value[i];
            && (MustEscape(value, i) ==> e == [0x5C, u])
            && (u < 0x20 || u == 0x7F ==> |e| == 3 && e[0] == 0x5C && HexPair(e[1..])
                                          && HexValue(e[1]).value * 16 + HexValue(e[2]).value == u)
            && (!MustEscape(value, i) && u >= 0x20 && u != 0x7F ==> e == [u])
  {
    SpecialUnits(value[i]);
    if Control(value[i]) { ControlBack(value[i]); }
    hide Special;
  }

  lemma SpecialUnits(u: CodeUnit)
    ensures u in U("\"+,;<>\\=") <==> Special(u)
    ensures u in U(" #") <==> u == 32 || u == 35
    ensures u in U(" ") <==> u == 32
  {
    var s := U("\"+,;<>\\=");
    assert s[0] == 34 && s[1] == 43 && s[2] == 44 && s[3] == 59 && s[4] == 60 && s[5] == 62 && s[6] == 92 && s[7] == 61;
    var t := U(" #");
    assert t[0] == 32 && t[1] == 35;
    assert U(" ")[0] == 32;
  }

  // --- other ways to write a value -----------------------------------------------------------------------

  function Spaces(n: nat): (r: Str)
    ensures |r| == n
  {
    seq(n, _ => 32)
  }

  /** Between quotation marks only these and backslashes are escaped. */
  function QuotedText(value: Str): Str {
    if value == [] then []
    else (if value[0] == 34 || value[0] == 92 then [92, value[0]] else [value[0]]) + QuotedText(value[1..])
  }

  lemma {:induction false} SpacesSkipped(n: nat, s: Str)
    requires s == [] || s[0] != 32
    ensures SkipSpaces(Spaces(n) + s) == s
  {
    if n == 0 {
      assert Spaces(0) + s == s;
    } else {
      assert (Spaces(n) + s)[1..] == Spaces(n - 1) + s;
      SpacesSkipped(n - 1, s);
    }
  }

  lemma {:induction false} QuotedBack(value: Str, read: Str, after: Str)
    ensures ParseQuoted(QuotedText(value) + ([34] + after), read) == Some((read + value, SkipSpaces(after)))
    decreases |value|
  {
    var s := QuotedText(value) + ([34] + after);
    if value == [] {
      assert s == [34] + after && s[1..] == after && read + [] == read;
    } else {
      var rest := QuotedText(value[1..]) + ([34] + after);
      QuotedBack(value[1..], read + [value[0]], after);
      assert read + [value[0]] + value[1..] == read + value;
      if value[0] == 34 || value[0] == 92 {
        assert s[0] == 92 && s[1] == value[0] && s[2..] == rest;
      } else {
        assert s[0] == value[0] && s[1..] == rest;
      }
    }
  }

  /** A quoted value is read as it was meant, spaces around it and around the type aside. */
  lemma QuotedRead(h: Host, part: Rdn, a: nat, b: nat, c: nat, d: nat, tail: Str)
    requires LegalKind(part.kind) && Ends(tail)
    ensures ParsePart(h, Spaces(a) + (part.kind + Spaces(b) + [61]
                                      + (Spaces(c) + ([34] + (QuotedText(part.value) + ([34] + (Spaces(d) + tail)))))))
         == Some((part, tail))
  {
    hide *;
    var quoted := QuotedText(part.value) + ([34] + (Spaces(d) + tail));
    var after := Spaces(c) + ([34] + quoted);
    var from := part.kind + Spaces(b) + [61] + after;
    KindStart(part.kind, Spaces(b) + [61] + after);
    assert part.kind + (Spaces(b) + [61] + after) == from;
    SpacesSkipped(a, from);
    SpacesSkipped(c, [34] + quoted);
    NotSpaced(tail);
    SpacesSkipped(d, tail);
    QuotedBack(part.value, [], Spaces(d) + tail);
    assert [] + part.value == part.value;
    EqualsFound(part.kind, b, after);
    TrimSpaced(part.kind, b);
    Cut(part.kind, b, after);
    PartOfQuoted(h, Spaces(a) + from, from, |part.kind| + b, quoted);
  }

  lemma NotSpaced(tail: Str)
    requires Ends(tail)
    ensures tail == [] || tail[0] != 32
  {}

  lemma KindStart(kind: Str, more: Str)
    requires LegalKind(kind)
    ensures (kind + more) != [] && (kind + more)[0] != 32
  {
    KindUnits(kind);
    SpaceIsWhite();
  }

  lemma Cut(kind: Str, b: nat, after: Str)
    ensures var from := kind + Spaces(b) + [61] + after;
            from[..|kind| + b] == kind + Spaces(b) && from[|kind| + b + 1..] == after
  {
    hide *;
    var k := kind + Spaces(b);
    assert (k + [61] + after)[..|k|] == k && (k + [61] + after)[|k| + 1..] == after;
  }

  /** One step of the parser, for a value in quotation marks. */
  lemma PartOfQuoted(h: Host, s: Str, from: Str, at: nat, quoted: Str)
    requires SkipSpaces(s) == from && IndexOf(from, [EQUALS], 0) == at < |from| && LegalKind(Trim(from[..at]))
    requires SkipSpaces(from[at + 1..]) == [34] + quoted && ParseQuoted(quoted, []).Some?
    ensures var r := ParseQuoted(quoted, []).value; ParsePart(h, s) == Some((Rdn(Trim(from[..at]), r.0), r.1))
  {
    assert ([34] + quoted)[1..] == quoted;
    hide SkipSpaces, IndexOf, LegalKind, Trim, ParseQuoted, ParseValue;
  }

  lemma EqualsFound(kind: Str, b: nat, more: Str)
    requires LegalKind(kind)
    ensures IndexOf(kind + Spaces(b) + [61] + more, [EQUALS], 0) == |kind| + b
  {
    KindUnits(kind);
    var s := kind + Spaces(b) + [61] + more;
    assert s[|kind| + b..|kind| + b + 1] == [EQUALS];
    assert OccursAt(s, [EQUALS], |kind| + b);
    var at := IndexOf(s, [EQUALS], 0);
    assert s[at..at + 1][0] == s[at];
    assert forall i :: 0 <= i < |kind| ==> s[i] == kind[i];
  }

  lemma TrimSpaced(kind: Str, b: nat)
    requires LegalKind(kind)
    ensures Trim(kind + Spaces(b)) == kind
  {
    KindUnits(kind);
    SpaceIsWhite();
    hide White, LegalKind;
    SpacesTrimmed(kind, b);
  }

  lemma {:induction false} SpacesTrimmed(kind: Str, b: nat)
    requires kind != [] && White(32) && forall i :: 0 <= i < |kind| ==> !White(kind[i])
    ensures TrimEnd(kind + Spaces(b)) == kind
  {
    var s := kind + Spaces(b);
    if b == 0 {
      assert s == kind;
    } else {
      assert s[..|s| - 1] == kind + Spaces(b - 1);
      SpacesTrimmed(kind, b - 1);
    }
  }

  // --- separators ----------------------------------------------------------------------------------------

  /** RDNs separated by commas or semicolons, as these say. */
  function FormatWith(rdns: Rdns, semicolons: nat -> bool): Str
    requires rdns != []
    decreases |rdns|
  {
    if |rdns| == 1 then FormatRdn(rdns[0])
    else FormatRdn(rdns[0]) + ([if semicolons(|rdns|) then 59 else 44] + FormatWith(rdns[1..], semicolons))
  }

  /** A semicolon separates as a comma does. */
  lemma {:induction false} SeparatedBack(h: Host, rdns: Rdns, semicolons: nat -> bool)
    requires h.Lawful() && Legal(rdns) && rdns != []
    ensures ParseFrom(h, FormatWith(rdns, semicolons), []) == Some(rdns)
    decreases |rdns|
  {
    hide ParseFrom, FormatRdn, LegalParts, Host.Lawful;
    var first := rdns[0];
    assert first[0..] == first && first[..0] == [];
    if |rdns| == 1 {
      RdnBack(h, first, 0, []);
      assert FormatRdn(first) + [] == FormatRdn(first) && rdns == [first];
    } else {
      var tail := [if semicolons(|rdns|) then 59 else 44] + FormatWith(rdns[1..], semicolons);
      RdnBack(h, first, 0, tail);
      assert tail[1..] == FormatWith(rdns[1..], semicolons);
      SeparatedBack(h, rdns[1..], semicolons);
      assert rdns == [first] + rdns[1..];
    }
  }

  // --- when names are the same ---------------------------------------------------------------------------

  /** An RDN's attribute types without regard to case, with their folded values. */
  function Lowered(h: Host, rdn: seq<Rdn>): (r: seq<Rdn>)
    ensures |r| == |rdn|
  {
    seq(|rdn|, i requires 0 <= i < |rdn| => Rdn(h.lower(rdn[i].kind), h.fold(rdn[i].value)))
  }

  /** The same attributes, in any order. */
  predicate SameRdn(h: Host, a: seq<Rdn>, b: seq<Rdn>) { multiset(Lowered(h, a)) == multiset(Lowered(h, b)) }

  lemma NormalSorts(h: Host, rdn: seq<Rdn>)
    ensures NormalRdn(h, rdn) == Sort(Lowered(h, rdn), PartBefore)
  {
    var parts := seq(|rdn|, i requires 0 <= i < |rdn| => NormalPart(h, rdn[i]));
    assert parts == Lowered(h, rdn);
    hide Sort;
    NormalIsSorted(h, rdn, parts);
  }

  lemma PartOrder()
    ensures WeakOrder(PartBefore)
  {
    hide FormatPart;
    forall a, b | PartBefore(a, b)
      ensures !PartBefore(b, a)
    { UnitsOrdered(FormatPart(a), FormatPart(b), []); }
    forall a, b, c | !PartBefore(b, a) && !PartBefore(c, b)
      ensures !PartBefore(c, a)
    { UnitsOrdered(FormatPart(a), FormatPart(b), FormatPart(c)); }
  }

  /** Attributes with the same text are the same. */
  lemma PartText(h: Host, a: Rdn, b: Rdn)
    requires h.Lawful() && LegalKind(a.kind) && LegalKind(b.kind) && !PartBefore(a, b) && !PartBefore(b, a)
    ensures a == b
  {
    hide FormatPart, ParsePart, LegalKind, Host.Lawful;
    UnitsOrdered(FormatPart(a), FormatPart(b), []);
    EndsNothing();
    PartBack(h, a, []);
    PartBack(h, b, []);
  }

  lemma EndsNothing()
    ensures Ends([])
  {}

  /** An RDN is normalized to the same as another exactly when both have the same attributes. */
  lemma SameNormalRdn(h: Host, a: seq<Rdn>, b: seq<Rdn>)
    requires h.Lawful() && LegalParts(a) && LegalParts(b)
    ensures NormalRdn(h, a) == NormalRdn(h, b) <==> SameRdn(h, a, b)
  {
    SameIs(h, a, b);
    hide *;
    var x, y := Lowered(h, a), Lowered(h, b);
    NormalSorts(h, a);
    NormalSorts(h, b);
    SortBag(x, PartBefore);
    SortBag(y, PartBefore);
    if multiset(x) == multiset(y) {
      PartOrder();
      SortOrdered(x, PartBefore);
      SortOrdered(y, PartBefore);
      forall p, q | p in Sort(x, PartBefore) && q in Sort(x, PartBefore) && !PartBefore(p, q) && !PartBefore(q, p)
        ensures p == q
      {
        LoweredLegal(h, a, p);
        LoweredLegal(h, a, q);
        PartText(h, p, q);
      }
      SettledOrder(Sort(x, PartBefore), Sort(y, PartBefore), PartBefore);
    }
  }

  lemma SameIs(h: Host, a: seq<Rdn>, b: seq<Rdn>)
    ensures SameRdn(h, a, b) <==> multiset(Lowered(h, a)) == multiset(Lowered(h, b))
  {}

  lemma LoweredLegal(h: Host, rdn: seq<Rdn>, part: Rdn)
    requires h.Lawful() && LegalParts(rdn) && part in Lowered(h, rdn)
    ensures LegalKind(part.kind)
  {
    hide LegalKind;
    var i :| 0 <= i < |rdn| && Lowered(h, rdn)[i] == part;
    assert LegalKind(rdn[i].kind);
  }

  /**
   * A name is under another exactly when its last RDNs have the attributes of the other's, one by one, without
   * regard to the case of types, to the order within an RDN and to what folding ignores.
   */
  lemma UnderMeans(h: Host, dn: Str, base: Str, child: Rdns, parent: Rdns)
    requires h.Lawful() && ParseDn(h, dn) == Some(child) && ParseDn(h, base) == Some(parent)
    requires |FormatDn(Normal(h, child))| <= MAX_LENGTH && |FormatDn(Normal(h, parent))| <= MAX_LENGTH
    ensures IsUnder(h, dn, base)
         == Some(|parent| <= |child|
                 && forall i :: 0 <= i < |parent| ==> SameRdn(h, child[|child| - |parent| + i], parent[i]))
  {
    hide *;
    UnderExactly(h, dn, base, child, parent);
    ParsedIsLegal(h, dn);
    ParsedIsLegal(h, base);
    NormalCount(h, child);
    NormalCount(h, parent);
    if |parent| <= |child| { SuffixMeans(h, child, parent, |child| - |parent|); }
  }

  lemma NormalCount(h: Host, rdns: Rdns)
    ensures |Normal(h, rdns)| == |rdns|
  {}

  lemma SuffixMeans(h: Host, child: Rdns, parent: Rdns, offset: nat)
    requires h.Lawful() && Legal(child) && Legal(parent) && |child| == offset + |parent|
    ensures |Normal(h, child)| == |child|
    ensures Normal(h, child)[offset..] == Normal(h, parent)
            <==> forall i :: 0 <= i < |parent| ==> SameRdn(h, child[offset + i], parent[i])
  {
    hide *;
    NormalCount(h, child);
    NormalCount(h, parent);
    var suffix := Normal(h, child)[offset..];
    forall i | 0 <= i < |parent|
      ensures suffix[i] == Normal(h, parent)[i] <==> SameRdn(h, child[offset + i], parent[i])
    {
      RdnLegal(child, offset + i);
      RdnLegal(parent, i);
      NormalAt(h, child, offset + i);
      NormalAt(h, parent, i);
      SameNormalRdn(h, child[offset + i], parent[i]);
    }
    assert suffix == Normal(h, parent) <==> forall i :: 0 <= i < |parent| ==> suffix[i] == Normal(h, parent)[i];
  }

  lemma RdnLegal(rdns: Rdns, i: nat)
    requires Legal(rdns) && i < |rdns|
    ensures LegalParts(rdns[i])
  {
    hide LegalParts;
  }

  lemma NormalAt(h: Host, rdns: Rdns, i: nat)
    requires i < |rdns|
    ensures Normal(h, rdns)[i] == NormalRdn(h, rdns[i])
  {
    hide NormalRdn;
  }
}
