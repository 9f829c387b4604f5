/** The part of ASN.1 BER (X.690) that LDAP uses: elements with definite lengths, and integers. */
module Ber {
  import opened Wrappers

  type Byte = b: int | 0 <= b < 256
  type Bytes = seq<Byte>

  const MAX_SIZE: nat := 0x10_0000
  const MAX_SAFE_INTEGER := 0x1F_FFFF_FFFF_FFFF

  // --- base 256 --------------------------------------------------------------------------------------

  /** Bytes read onto what came before: `(value << 8) | byte`, byte after byte. */
  function Compose(start: int, bytes: Bytes): int
    decreases |bytes|
  {
    if bytes == [] then start else Compose(start * 256 + bytes[0], bytes[1..])
  }

  function Power(n: nat): nat { if n == 0 then 1 else 256 * Power(n - 1) }

  lemma {:induction false} ComposeConcat(start: int, a: Bytes, b: Bytes)
    ensures Compose(start, a + b) == Compose(Compose(start, a), b)
    decreases |a|
  {
    if a == [] {
      assert a + b == b;
    } else {
      assert (a + b)[1..] == a[1..] + b && (a + b)[0] == a[0];
      ComposeConcat(start * 256 + a[0], a[1..], b);
    }
  }

  lemma {:induction false} ComposeBounds(start: int, bytes: Bytes)
    ensures start * Power(|bytes|) <= Compose(start, bytes) < (start + 1) * Power(|bytes|)
    decreases |bytes|
  {
    if bytes != [] {
      var next, p := start * 256 + bytes[0], Power(|bytes| - 1);
      ComposeBounds(next, bytes[1..]);
      Between(start, bytes[0], p);
    }
  }

  lemma Between(start: int, byte: Byte, p: nat)
    ensures start * (256 * p) <= (start * 256 + byte) * p
    ensures (start * 256 + byte + 1) * p <= (start + 1) * (256 * p)
  {
    assert (start * 256 + byte) * p == start * (256 * p) + byte * p;
    assert (start * 256 + byte + 1) * p == start * (256 * p) + (byte + 1) * p;
    assert (start + 1) * (256 * p) == start * (256 * p) + 256 * p;
    assert (byte + 1) * p <= 256 * p;
  }

  /** Big-endian digits without leading zeros. */
  function BigEndian(n: nat): Bytes { if n == 0 then [] else BigEndian(n / 256) + [n % 256] }

  lemma {:induction false} BigEndianValue(n: nat)
    ensures Compose(0, BigEndian(n)) == n
    ensures |BigEndian(n)| <= 4 <==> n < 0x1_0000_0000
    ensures |BigEndian(n)| <= 3 <==> n < 0x100_0000
    ensures |BigEndian(n)| <= 2 <==> n < 0x1_0000
    ensures |BigEndian(n)| <= 1 <==> n < 0x100
  {
    if n != 0 {
      BigEndianValue(n / 256);
      ComposeConcat(0, BigEndian(n / 256), [n % 256]);
      assert Compose(n / 256, [n % 256]) == n / 256 * 256 + n % 256;
    }
  }

  // --- elements --------------------------------------------------------------------------------------

  /** The length octets: one below 128, and else a count of digits and the digits; none for what is too long. */
  function LengthOf(n: nat): Bytes {
    BigEndianValue(n);
    if n < 128 then [n] else if n < 0x1_0000_0000 then [128 + |BigEndian(n)|] + BigEndian(n) else []
  }

  /** `element`, for content that is not too long. */
  function Element(tag: Byte, content: Bytes): Bytes { [tag] + LengthOf(|content|) + content }

  /** `lengthBytes`: refused when the length needs more than four digits. */
  method LengthBytes(length: nat) returns (r: Option<Bytes>)
    ensures r == if length < 0x1_0000_0000 then Some(LengthOf(length)) else None
  {
    BigEndianValue(length);
    if length < 128 { return Some([length]); }
    var bytes: Bytes := [];
    var rest := length;
    while rest > 0
      invariant BigEndian(rest) + bytes == BigEndian(length)
    {
      assert BigEndian(rest) + bytes == BigEndian(rest / 256) + ([rest % 256] + bytes);
      bytes := [rest % 256] + bytes;
      rest := rest / 256;
    }
    assert [] + bytes == bytes;
    if |bytes| > 4 { return None; }
    return Some([128 + |bytes|] + bytes);
  }

  datatype Item = Item(tag: Byte, value: Bytes)

  /** An element, or not yet enough bytes, or bytes no element starts with. */
  datatype Reading = Complete(item: Item, size: nat) | Incomplete | Malformed

  function Framed(tag: Byte, header: nat, length: nat, buffer: Bytes, maxSize: nat): Reading {
    if length > maxSize then Malformed
    else if header + length > |buffer| then Incomplete
    else Complete(Item(tag, buffer[header..header + length]), header + length)
  }

  /** `readElement` at the start of the buffer. */
  function Read(buffer: Bytes, maxSize: nat): (r: Reading)
    ensures r.Complete? ==> 2 <= r.size <= |buffer| && |r.item.value| + 2 <= r.size
  {
    if buffer == [] then Incomplete
    else if buffer[0] % 32 == 31 then Malformed
    else if |buffer| == 1 then Incomplete
    else if buffer[1] < 128 then Framed(buffer[0], 2, buffer[1], buffer, maxSize)
    else
      var count := buffer[1] % 128;
      if count == 0 || count > 4 then Malformed
      else if 2 + count > |buffer| then Incomplete
      else
        var length := Compose(0, buffer[2..2 + count]);
        ComposeBounds(0, buffer[2..2 + count]);
        Framed(buffer[0], 2 + count, length, buffer, maxSize)
  }

  method ReadDigits(buffer: Bytes, from: nat, count: nat) returns (length: nat)
    requires from + count <= |buffer|
    ensures length == Compose(0, buffer[from..from + count])
  {
    ghost var digits := buffer[from..from + count];
    assert digits[0..] == digits;
    length := 0;
    var index := 0;
    while index < count
      invariant index <= count && Compose(length, digits[index..]) == Compose(0, digits)
    {
      assert digits[index..][1..] == digits[index + 1..];
      length := length * 256 + buffer[from + index];
      index := index + 1;
    }
  }

  method ReadElement(buffer: Bytes, offset: nat, maxSize: nat) returns (r: Reading)
    requires offset <= |buffer|
    ensures r == Read(buffer[offset..], maxSize)
  {
    hide Compose, Power;
    ghost var rest := buffer[offset..];
    if offset >= |buffer| { return Incomplete; }
    var tag := buffer[offset];
    if tag % 32 == 31 { return Malformed; }
    if offset + 1 >= |buffer| { return Incomplete; }
    var length: int := buffer[offset + 1];
    var header := 2;
    if length >= 128 {
      var count := length % 128;
      if count == 0 || count > 4 { return Malformed; }
      if offset + 2 + count > |buffer| { return Incomplete; }
      length := ReadDigits(buffer, offset + 2, count);
      assert rest[2..2 + count] == buffer[offset + 2..offset + 2 + count];
      header := header + count;
    }
    if length > maxSize { return Malformed; }
    if offset + header + length > |buffer| { return Incomplete; }
    assert rest[header..header + length] == buffer[offset + header..offset + header + length];
    return Complete(Item(tag, buffer[offset + header..offset + header + length]), header + length);
  }

  lemma FramedStable(tag: Byte, header: nat, length: int, buffer: Bytes, more: Bytes, maxSize: nat)
    ensures length >= 0 && !Framed(tag, header, length, buffer, maxSize).Incomplete? ==>
              Framed(tag, header, length, buffer + more, maxSize) == Framed(tag, header, length, buffer, maxSize)
  {
    if length >= 0 && header + length <= |buffer| {
      assert (buffer + more)[header..header + length] == buffer[header..header + length];
    }
  }

  /** A complete or malformed reading does not depend on the bytes that follow. */
  lemma ReadStable(buffer: Bytes, more: Bytes, maxSize: nat)
    requires !Read(buffer, maxSize).Incomplete?
    ensures Read(buffer + more, maxSize) == Read(buffer, maxSize)
  {
    var all := buffer + more;
    assert all[0] == buffer[0] && (|buffer| >= 2 ==> all[1] == buffer[1]);
    if |buffer| >= 2 {
      var count := buffer[1] % 128;
      if buffer[1] >= 128 && 2 + count <= |buffer| {
        assert all[2..2 + count] == buffer[2..2 + count];
        ComposeBounds(0, buffer[2..2 + count]);
        FramedStable(buffer[0], 2 + count, Compose(0, buffer[2..2 + count]), buffer, more, maxSize);
      }
      FramedStable(buffer[0], 2, buffer[1], buffer, more, maxSize);
    }
  }

  /** A proper prefix of an element is incomplete, never something else. */
  lemma PrefixIncomplete(buffer: Bytes, k: nat, maxSize: nat)
    requires Read(buffer, maxSize).Complete? && k < Read(buffer, maxSize).size
    ensures Read(buffer[..k], maxSize) == Incomplete
  {
    if k >= 2 && buffer[1] >= 128 && 2 + buffer[1] % 128 <= k {
      assert buffer[..k][2..2 + buffer[1] % 128] == buffer[2..2 + buffer[1] % 128];
    }
  }

  /** An element reads back, whatever follows it. */
  lemma ReadElementOf(tag: Byte, content: Bytes, more: Bytes, maxSize: nat)
    requires tag % 32 != 31 && |content| <= maxSize && |content| < 0x1_0000_0000
    ensures Read(Element(tag, content) + more, maxSize) == Complete(Item(tag, content), |Element(tag, content)|)
  {
    var n, all := |content|, Element(tag, content) + more;
    var length := LengthOf(n);
    var header := 1 + |length|;
    BigEndianValue(n);
    assert all[header..header + n] == content;
    if n >= 128 {
      assert all[1] == 128 + |BigEndian(n)|;
      assert all[2..header] == BigEndian(n);
    }
  }

  /** `children`: the elements of a constructed value; none when it is not a run of whole elements. */
  function Children(value: Bytes): (r: Option<seq<Item>>)
    ensures r.Some? ==> forall i :: 0 <= i < |r.value| ==> |r.value[i].value| < |value|
    decreases |value|
  {
    if value == [] then Some([])
    else
      var first := Read(value, MAX_SIZE);
      if !first.Complete? || Children(value[first.size..]).None? then None
      else Some([first.item] + Children(value[first.size..]).value)
  }

  method ReadChildren(value: Bytes) returns (r: Option<seq<Item>>)
    ensures r == Children(value)
  {
    hide Children, Read;
    var items: seq<Item> := [];
    var offset := 0;
    assert value[0..] == value;
    if Children(value).Some? { assert [] + Children(value).value == Children(value).value; }
    while offset < |value|
      invariant offset <= |value| && Children(value) == Joined(items, Children(value[offset..]))
    {
      var item := ReadElement(value, offset, MAX_SIZE);
      ChildrenStep(value[offset..]);
      if !item.Complete? { return None; }
      assert value[offset..][item.size..] == value[offset + item.size..];
      var rest := Children(value[offset + item.size..]);
      if rest.Some? { assert items + ([item.item] + rest.value) == items + [item.item] + rest.value; }
      items := items + [item.item];
      offset := offset + item.size;
    }
    ChildrenStep(value[offset..]);
    assert items + [] == items;
    return Some(items);
  }

  function Joined(items: seq<Item>, rest: Option<seq<Item>>): Option<seq<Item>> {
    if rest.None? then None else Some(items + rest.value)
  }

  lemma ChildrenStep(value: Bytes)
    ensures value == [] ==> Children(value) == Some([])
    ensures value != [] ==> var first := Read(value, MAX_SIZE);
              if first.Complete?
              then first.size <= |value| && first.size > 0 && Children(value) == Joined([first.item], Children(value[first.size..]))
              else Children(value) == None
  {}

  function Concat(parts: seq<Bytes>): Bytes { if parts == [] then [] else parts[0] + Concat(parts[1..]) }

  /** Elements side by side are read as the children they are. */
  lemma {:induction false} ChildrenOf(parts: seq<Bytes>, items: seq<Item>)
    requires |parts| == |items|
    requires forall i :: 0 <= i < |items| ==> items[i].tag % 32 != 31 && |items[i].value| <= MAX_SIZE
    requires forall i :: 0 <= i < |items| ==> parts[i] == Element(items[i].tag, items[i].value)
    ensures Children(Concat(parts)) == Some(items)
  {
    ChildrenStep([]);
    if parts != [] {
      hide Element, Read, Children;
      ChildrenOf(parts[1..], items[1..]);
      var rest := Concat(parts[1..]);
      ReadElementOf(items[0].tag, items[0].value, rest, MAX_SIZE);
      ChildrenStep(parts[0] + rest);
      assert (parts[0] + rest)[|parts[0]|..] == rest;
      assert items == [items[0]] + items[1..];
    }
  }

  // --- integers --------------------------------------------------------------------------------------

  /** Two's complement. */
  function Signed(bytes: Bytes): int
    requires bytes != []
  {
    Compose(if bytes[0] >= 128 then -1 else 0, bytes)
  }

  /** No first byte that only repeats the sign. */
  predicate Minimal(bytes: Bytes) {
    |bytes| >= 2 ==> !(bytes[0] == 0 && bytes[1] < 128) && !(bytes[0] == 255 && bytes[1] >= 128)
  }

  /** `integerBytes`: the shortest two's complement form. */
  method IntegerBytes(value: int) returns (r: Option<Bytes>)
    ensures r.None? <==> value < -MAX_SAFE_INTEGER || value > MAX_SAFE_INTEGER
    ensures r.Some? ==> r.value != [] && Signed(r.value) == value && Minimal(r.value)
  {
    if value < -MAX_SAFE_INTEGER || value > MAX_SAFE_INTEGER { return None; }
    var rest := value / 256;
    var bytes: Bytes := [value % 256];
    assert Compose(rest, bytes) == rest * 256 + value % 256;
    while rest != 0 && rest != -1
      invariant bytes != [] && Compose(rest, bytes) == value
      invariant |bytes| >= 2 ==> !(rest == 0 && bytes[0] == 0) && !(rest == -1 && bytes[0] == 255)
      decreases if rest < 0 then -rest else rest
    {
      bytes := [rest % 256] + bytes;
      rest := rest / 256;
    }
    ComposeSign(rest, bytes);
    if value >= 0 && bytes[0] >= 128 { bytes := [0] + bytes; }
    if value < 0 && bytes[0] < 128 { bytes := [255] + bytes; }
    return Some(bytes);
  }

  lemma {:induction false} ComposeSign(start: int, bytes: Bytes)
    ensures Compose(start, bytes) >= 0 <==> start >= 0
    decreases |bytes|
  {
    if bytes != [] { ComposeSign(start * 256 + bytes[0], bytes[1..]); }
  }

  lemma PowerValues()
    ensures Power(5) == 0x100_0000_0000 && Power(6) == 0x1_0000_0000_0000
  {
    assert Power(2) == 256 * 256;
    assert Power(4) == 256 * 256 * Power(2);
  }

  lemma {:induction false} PowerGrows(n: nat, m: nat)
    requires n <= m
    ensures 1 <= Power(n) <= Power(m)
    decreases m
  {
    if n < m {
      PowerGrows(n, m - 1);
    } else if n > 0 {
      PowerGrows(n - 1, m - 1);
    }
  }

  /** What n bytes hold, and what the shortest form of n bytes says about the value. */
  lemma SignedBounds(bytes: Bytes)
    requires bytes != []
    ensures 0 <= 2 * Signed(bytes) + Power(|bytes|) && 2 * Signed(bytes) < Power(|bytes|)
    ensures Minimal(bytes) && |bytes| >= 2 ==>
              2 * Signed(bytes) >= Power(|bytes| - 1) || 2 * Signed(bytes) + Power(|bytes| - 1) < 0
  {
    var n: nat := |bytes| - 1;
    var first: int := bytes[0];
    var start: int := if first >= 128 then first - 256 else first;
    ComposeBounds(start, bytes[1..]);
    Scaled(start, Power(n));
    if n >= 1 {
      var m: nat := n - 1;
      var next: int := start * 256 + bytes[1];
      ComposeBounds(next, bytes[1..][1..]);
      Scaled(next, Power(m));
    }
  }

  lemma Scaled(start: int, p: nat)
    ensures -128 <= start ==> -128 * p <= start * p
    ensures start < 128 ==> (start + 1) * p <= 128 * p
    ensures 1 <= start ==> p <= start * p
    ensures 128 <= start ==> 128 * p <= start * p
    ensures start < -1 ==> (start + 1) * p + p <= 0
    ensures start < -128 ==> (start + 1) * p <= -128 * p
  {
    if -128 <= start { ScaledBy(-128, start, p); }
    if start < 128 { ScaledBy(start + 1, 128, p); }
    if 1 <= start { ScaledBy(1, start, p); }
    if 128 <= start { ScaledBy(128, start, p); }
    if start < -1 { ScaledBy(start + 2, 0, p); }
    if start < -128 { ScaledBy(start + 1, -128, p); }
  }

  lemma ScaledBy(a: int, b: int, p: nat)
    requires a <= b
    ensures a * p <= b * p
  {}

  /** `readInteger`: at most six bytes. */
  function ReadInteger(item: Item, tag: Byte): Option<int> {
    if item.tag != tag || item.value == [] || |item.value| > 6 then None else Some(Signed(item.value))
  }

  /** The shortest form of an integer is read back exactly when it has 48 bits; a longer one is refused. */
  lemma IntegerRoundTrip(value: int, bytes: Bytes, tag: Byte)
    requires bytes != [] && Signed(bytes) == value && Minimal(bytes)
    ensures ReadInteger(Item(tag, bytes), tag)
         == if -0x8000_0000_0000 <= value < 0x8000_0000_0000 then Some(value) else None
  {
    SignedBounds(bytes);
    PowerValues();
    if |bytes| <= 6 {
      PowerGrows(|bytes|, 6);
    } else {
      var n: nat := |bytes| - 1;
      PowerGrows(6, n);
    }
  }

  /** Two shortest forms of the same integer are the same. */
  lemma {:induction false} OneShortForm(a: Bytes, b: Bytes)
    requires a != [] && b != [] && Minimal(a) && Minimal(b) && Signed(a) == Signed(b)
    ensures a == b
  {
    SignedBounds(a);
    SignedBounds(b);
    if |a| < |b| {
      var n: nat := |b| - 1;
      PowerGrows(|a|, n);
    } else if |b| < |a| {
      var n: nat := |a| - 1;
      PowerGrows(|b|, n);
    } else {
      ComposeSign(if a[0] >= 128 then -1 else 0, a);
      ComposeSign(if b[0] >= 128 then -1 else 0, b);
      ComposeInjective(if a[0] >= 128 then -1 else 0, a, b);
    }
  }

  lemma {:induction false} ComposeInjective(start: int, a: Bytes, b: Bytes)
    requires |a| == |b| && Compose(start, a) == Compose(start, b)
    ensures a == b
    decreases |a|
  {
    if a != [] {
      var n := |a| - 1;
      ComposeConcat(start, a[..n], a[n..]);
      ComposeConcat(start, b[..n], b[n..]);
      assert a == a[..n] + a[n..] && b == b[..n] + b[n..];
      assert a[n..] == [a[n]] && b[n..] == [b[n]];
      assert Compose(Compose(start, a[..n]), [a[n]]) == Compose(start, a[..n]) * 256 + a[n];
      assert Compose(Compose(start, b[..n]), [b[n]]) == Compose(start, b[..n]) * 256 + b[n];
      ComposeInjective(start, a[..n], b[..n]);
    }
  }
}
