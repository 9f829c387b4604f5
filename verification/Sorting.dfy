/** Sorting, selecting and paging sequences, for any order. */
module Sorting {
  import opened Wrappers

  function Where<T>(s: seq<T>, p: T -> bool): seq<T> {
    if s == [] then [] else (if p(s[0]) then [s[0]] else []) + Where(s[1..], p)
  }

  /** `slice(offset, offset + limit)`, or to the end without a limit. */
  function Page<T>(s: seq<T>, offset: nat, limit: Option<nat>): seq<T> {
    var from := if offset < |s| then offset else |s|;
    var to := if limit.Some? && offset + limit.value < |s| then offset + limit.value else |s|;
    s[from..to]
  }

  function Insert<T>(x: T, s: seq<T>, before: (T, T) -> bool): seq<T> {
    if s == [] || !before(s[0], x) then [x] + s else [s[0]] + Insert(x, s[1..], before)
  }

  function Sort<T>(s: seq<T>, before: (T, T) -> bool): seq<T> {
    if s == [] then [] else Insert(s[0], Sort(s[1..], before), before)
  }

  predicate Ordered<T>(s: seq<T>, before: (T, T) -> bool) {
    forall i, j :: 0 <= i < j < |s| ==> !before(s[j], s[i])
  }

  /** Ordered, and no two elements tie. */
  predicate Strict<T>(s: seq<T>, before: (T, T) -> bool) {
    forall i, j :: 0 <= i < j < |s| ==> before(s[i], s[j])
  }

  /** No two elements tie, in any order. */
  predicate Untied<T>(s: seq<T>, before: (T, T) -> bool) {
    forall i, j :: 0 <= i < j < |s| ==> before(s[i], s[j]) || before(s[j], s[i])
  }

  ghost predicate WeakOrder<T(!new)>(before: (T, T) -> bool) {
    && (forall a, b :: before(a, b) ==> !before(b, a))
    && (forall a, b, c :: !before(b, a) && !before(c, b) ==> !before(c, a))
  }

  // --- sorting ---------------------------------------------------------------------------------------

  lemma OrderedTail<T>(s: seq<T>, before: (T, T) -> bool)
    requires Ordered(s, before) && s != []
    ensures Ordered(s[1..], before) && forall x :: x in s[1..] ==> !before(x, s[0])
  {
    assert forall i :: 0 <= i < |s[1..]| ==> s[1..][i] == s[i + 1];
  }

  lemma OrderedCons<T>(x: T, s: seq<T>, before: (T, T) -> bool)
    requires Ordered(s, before) && forall y :: y in s ==> !before(y, x)
    ensures Ordered([x] + s, before)
  {}

  lemma {:induction false} InsertMembers<T>(x: T, s: seq<T>, before: (T, T) -> bool)
    ensures forall y :: y in Insert(x, s, before) <==> y == x || y in s
  {
    if s != [] && before(s[0], x) {
      InsertMembers(x, s[1..], before);
      assert s == [s[0]] + s[1..];
    }
  }

  lemma {:induction false} InsertOrdered<T(!new)>(x: T, s: seq<T>, before: (T, T) -> bool)
    requires WeakOrder(before) && Ordered(s, before)
    ensures Ordered(Insert(x, s, before), before)
  {
    if s == [] {
    } else if !before(s[0], x) {
      OrderedTail(s, before);
      assert s == [s[0]] + s[1..];
      OrderedCons(x, s, before);
    } else {
      OrderedTail(s, before);
      InsertOrdered(x, s[1..], before);
      InsertMembers(x, s[1..], before);
      OrderedCons(s[0], Insert(x, s[1..], before), before);
    }
  }

  lemma {:induction false} SortOrdered<T(!new)>(s: seq<T>, before: (T, T) -> bool)
    requires WeakOrder(before)
    ensures Ordered(Sort(s, before), before)
    ensures forall x :: x in Sort(s, before) <==> x in s
  {
    if s != [] {
      SortOrdered(s[1..], before);
      InsertOrdered(s[0], Sort(s[1..], before), before);
      InsertMembers(s[0], Sort(s[1..], before), before);
      assert s == [s[0]] + s[1..];
    }
  }

  lemma {:induction false} InsertLength<T>(x: T, s: seq<T>, before: (T, T) -> bool)
    ensures |Insert(x, s, before)| == |s| + 1
  {
    if s != [] { InsertLength(x, s[1..], before); }
  }

  lemma {:induction false} SortCount<T>(s: seq<T>, before: (T, T) -> bool)
    ensures |Sort(s, before)| == |s|
  {
    if s != [] {
      SortCount(s[1..], before);
      InsertLength(s[0], Sort(s[1..], before), before);
    }
  }

  lemma {:induction false} SortStrict<T(!new)>(s: seq<T>, before: (T, T) -> bool)
    requires WeakOrder(before) && Untied(s, before)
    ensures Strict(Sort(s, before), before)
  {
    if s != [] {
      assert forall i :: 0 <= i < |s[1..]| ==> s[1..][i] == s[i + 1];
      SortStrict(s[1..], before);
      SortOrdered(s[1..], before);
      InsertStrict(s[0], Sort(s[1..], before), before);
    }
  }

  lemma {:induction false} InsertStrict<T(!new)>(x: T, s: seq<T>, before: (T, T) -> bool)
    requires WeakOrder(before) && Strict(s, before)
    requires forall y :: y in s ==> before(x, y) || before(y, x)
    ensures Strict(Insert(x, s, before), before)
  {
    if s == [] {
    } else if !before(s[0], x) {
      assert s[0] in s;
      forall j | 0 < j < |s|
        ensures before(x, s[j])
      {
        assert before(s[0], s[j]) && s[j] in s;
      }
    } else {
      var rest := Insert(x, s[1..], before);
      assert s == [s[0]] + s[1..];
      InsertStrict(x, s[1..], before);
      InsertMembers(x, s[1..], before);
      forall j | 0 <= j < |rest|
        ensures before(s[0], rest[j])
      {
        assert rest[j] in rest;
        if rest[j] != x {
          var k :| 0 <= k < |s[1..]| && s[1..][k] == rest[j];
          assert s[k + 1] == rest[j];
        }
      }
    }
  }

  /** A strictly ordered sequence is determined by its elements. */
  lemma {:induction false} OneOrder<T(!new)>(a: seq<T>, b: seq<T>, before: (T, T) -> bool)
    requires WeakOrder(before) && Strict(a, before) && Strict(b, before)
    requires forall x :: x in a <==> x in b
    ensures a == b
  {
    if b != [] { assert b[0] in a; }
    if a != [] {
      assert a[0] in b;
      SameFirst(a, b, before);
      forall x
        ensures x in a[1..] <==> x in b[1..]
      {
        RestMembers(a, x, before);
        RestMembers(b, x, before);
      }
      OneOrder(a[1..], b[1..], before);
      assert a == [a[0]] + a[1..] && b == [b[0]] + b[1..];
    }
  }

  lemma {:induction false} InsertBag<T>(x: T, s: seq<T>, before: (T, T) -> bool)
    ensures multiset(Insert(x, s, before)) == multiset(s) + multiset{x}
  {
    if s != [] && before(s[0], x) {
      InsertBag(x, s[1..], before);
      assert s == [s[0]] + s[1..];
    }
  }

  lemma {:induction false} SortBag<T>(s: seq<T>, before: (T, T) -> bool)
    ensures multiset(Sort(s, before)) == multiset(s)
  {
    if s != [] {
      SortBag(s[1..], before);
      InsertBag(s[0], Sort(s[1..], before), before);
      assert s == [s[0]] + s[1..];
    }
  }

  /** A sequence without ties is the only order of its elements. */
  lemma {:induction false} OnlyOrder<T(!new)>(a: seq<T>, b: seq<T>, before: (T, T) -> bool)
    requires WeakOrder(before) && Ordered(a, before) && Strict(b, before) && multiset(a) == multiset(b)
    ensures a == b
  {
    hide WeakOrder, Ordered, Strict;
    SameCount(a, b);
    if a != [] {
      LeastFirst(a, b, before);
      OrderedTail(a, before);
      StrictTail(b, before);
      SameRest(a, b);
      OnlyOrder(a[1..], b[1..], before);
      SameWhole(a, b);
    }
  }

  /** Elements that tie only with themselves have one order. */
  lemma {:induction false} SettledOrder<T(!new)>(a: seq<T>, b: seq<T>, before: (T, T) -> bool)
    requires WeakOrder(before) && Ordered(a, before) && Ordered(b, before) && multiset(a) == multiset(b)
    requires forall x, y :: x in a && y in a && !before(x, y) && !before(y, x) ==> x == y
    ensures a == b
  {
    SameCount(a, b);
    if a != [] {
      SettledFirst(a, b, before);
      OrderedTail(a, before);
      OrderedTail(b, before);
      SameRest(a, b);
      assert forall x :: x in a[1..] ==> x in a;
      hide WeakOrder, Ordered;
      SettledOrder(a[1..], b[1..], before);
      SameWhole(a, b);
    }
  }

  lemma SettledFirst<T(!new)>(a: seq<T>, b: seq<T>, before: (T, T) -> bool)
    requires Ordered(a, before) && Ordered(b, before) && a != [] && b != [] && multiset(a) == multiset(b)
    requires forall x, y :: x in a && y in a && !before(x, y) && !before(y, x) ==> x == y
    ensures a[0] == b[0]
  {
    assert a[0] in multiset(a) && b[0] in multiset(b);
    var i :| 0 <= i < |a| && a[i] == b[0];
    var j :| 0 <= j < |b| && b[j] == a[0];
    if i > 0 && j > 0 {
      assert !before(a[i], a[0]) && !before(b[j], b[0]);
      assert a[0] in a && a[i] in a;
    }
  }

  lemma SameRest<T>(a: seq<T>, b: seq<T>)
    requires a != [] && b != [] && a[0] == b[0] && multiset(a) == multiset(b)
    ensures multiset(a[1..]) == multiset(b[1..])
  {
    BagRest(a);
    BagRest(b);
  }

  lemma SameWhole<T>(a: seq<T>, b: seq<T>)
    requires a != [] && b != [] && a[0] == b[0] && a[1..] == b[1..]
    ensures a == b
  {
    assert a == [a[0]] + a[1..] && b == [b[0]] + b[1..];
  }

  lemma SameCount<T>(a: seq<T>, b: seq<T>)
    requires multiset(a) == multiset(b)
    ensures |a| == |b|
  {
    assert |a| == |multiset(a)| && |b| == |multiset(b)|;
  }

  lemma StrictTail<T>(s: seq<T>, before: (T, T) -> bool)
    requires Strict(s, before) && s != []
    ensures Strict(s[1..], before)
  {
    assert forall i :: 0 <= i < |s[1..]| ==> s[1..][i] == s[i + 1];
  }

  lemma BagRest<T>(a: seq<T>)
    requires a != []
    ensures multiset(a[1..]) == multiset(a) - multiset{a[0]}
  {
    assert a == [a[0]] + a[1..];
  }

  lemma LeastFirst<T(!new)>(a: seq<T>, b: seq<T>, before: (T, T) -> bool)
    requires WeakOrder(before) && Ordered(a, before) && Strict(b, before)
    requires a != [] && b != [] && multiset(a) == multiset(b)
    ensures a[0] == b[0]
  {
    assert a[0] in multiset(a) && b[0] in multiset(b);
    var i :| 0 <= i < |a| && a[i] == b[0];
    var j :| 0 <= j < |b| && b[j] == a[0];
    assert i > 0 ==> !before(a[i], a[0]);
    assert j > 0 ==> before(b[0], b[j]);
  }

  lemma SameFirst<T(!new)>(a: seq<T>, b: seq<T>, before: (T, T) -> bool)
    requires WeakOrder(before) && Strict(a, before) && Strict(b, before)
    requires a != [] && b != [] && a[0] in b && b[0] in a
    ensures a[0] == b[0]
  {
    var i :| 0 <= i < |a| && a[i] == b[0];
    var j :| 0 <= j < |b| && b[j] == a[0];
    assert i > 0 ==> before(a[0], a[i]);
    assert j > 0 ==> before(b[0], b[j]);
  }

  lemma RestMembers<T(!new)>(a: seq<T>, x: T, before: (T, T) -> bool)
    requires a != [] && WeakOrder(before) && Strict(a, before)
    ensures x in a[1..] <==> x in a && x != a[0]
  {
    if x in a && x != a[0] {
      var k :| 0 <= k < |a| && a[k] == x;
      assert a[1..][k - 1] == x;
    }
    if x in a[1..] {
      var k :| 0 <= k < |a[1..]| && a[1..][k] == x;
      assert before(a[0], a[k + 1]);
    }
  }

  // --- selecting -------------------------------------------------------------------------------------

  lemma {:induction false} WhereMembers<T>(s: seq<T>, p: T -> bool)
    ensures forall x :: x in Where(s, p) <==> x in s && p(x)
  {
    if s != [] {
      WhereMembers(s[1..], p);
      assert s == [s[0]] + s[1..];
    }
  }

  lemma WhereMember<T>(s: seq<T>, p: T -> bool, x: T)
    ensures x in Where(s, p) <==> x in s && p(x)
  {
    WhereMembers(s, p);
  }

  lemma {:induction false} WhereTwice<T>(s: seq<T>, p: T -> bool, q: T -> bool, both: T -> bool)
    requires forall x :: x in s ==> both(x) == (p(x) && q(x))
    ensures Where(Where(s, p), q) == Where(s, both)
  {
    if s != [] {
      assert s[0] in s;
      assert s == [s[0]] + s[1..];
      WhereTwice(s[1..], p, q, both);
      var rest := Where(s[1..], p);
      if p(s[0]) {
        assert ([s[0]] + rest)[1..] == rest;
      } else {
        assert [] + rest == rest;
      }
    }
  }

  lemma {:induction false} WhereAll<T>(s: seq<T>, p: T -> bool)
    requires forall x :: x in s ==> p(x)
    ensures Where(s, p) == s
  {
    if s != [] {
      assert s[0] in s;
      assert s == [s[0]] + s[1..];
      WhereAll(s[1..], p);
    }
  }

  lemma {:induction false} WhereCount<T>(s: seq<T>, p: T -> bool)
    ensures |Where(s, p)| <= |s|
  {
    if s != [] { WhereCount(s[1..], p); }
  }

  lemma {:induction false} WhereNone<T>(s: seq<T>, p: T -> bool)
    requires forall x :: x in s ==> !p(x)
    ensures Where(s, p) == []
  {
    if s != [] {
      assert s[0] in s;
      assert s == [s[0]] + s[1..];
      WhereNone(s[1..], p);
    }
  }

  lemma {:induction false} WhereSuffix<T>(s: seq<T>, p: T -> bool, n: nat)
    requires n <= |s| && forall k :: 0 <= k < |s| ==> (p(s[k]) <==> k >= n)
    ensures Where(s, p) == s[n..]
  {
    if s != [] {
      var rest := s[1..];
      assert forall k :: 0 <= k < |rest| ==> rest[k] == s[k + 1];
      WhereSuffix(rest, p, if n == 0 then 0 else n - 1);
      assert s == [s[0]] + rest;
    }
  }

  lemma {:induction false} WhereConcat<T>(a: seq<T>, b: seq<T>, p: T -> bool)
    ensures Where(a + b, p) == Where(a, p) + Where(b, p)
  {
    if a == [] {
      assert a + b == b;
    } else {
      assert (a + b)[0] == a[0] && (a + b)[1..] == a[1..] + b;
      WhereConcat(a[1..], b, p);
      var first := if p(a[0]) then [a[0]] else [];
      assert first + (Where(a[1..], p) + Where(b, p)) == (first + Where(a[1..], p)) + Where(b, p);
    }
  }

  lemma {:induction false} WhereOrdered<T(!new)>(s: seq<T>, p: T -> bool, before: (T, T) -> bool)
    requires Ordered(s, before)
    ensures Ordered(Where(s, p), before)
  {
    if s != [] {
      OrderedTail(s, before);
      WhereOrdered(s[1..], p, before);
      WhereMembers(s[1..], p);
      if p(s[0]) { OrderedCons(s[0], Where(s[1..], p), before); }
    }
  }

  /** Selecting from what is sorted, or sorting what is selected. */
  lemma {:induction false} WhereSort<T(!new)>(s: seq<T>, p: T -> bool, before: (T, T) -> bool)
    requires WeakOrder(before)
    ensures Where(Sort(s, before), p) == Sort(Where(s, p), before)
  {
    if s != [] {
      WhereSort(s[1..], p, before);
      SortOrdered(s[1..], before);
      WhereInsert(s[0], Sort(s[1..], before), p, before);
      var rest := Where(s[1..], p);
      if p(s[0]) {
        assert ([s[0]] + rest)[1..] == rest;
      } else {
        assert [] + rest == rest;
      }
    }
  }

  lemma BeforeKept<T(!new)>(x: T, s: seq<T>, p: T -> bool, before: (T, T) -> bool)
    requires WeakOrder(before) && Ordered(s, before) && s != [] && !before(s[0], x)
    ensures Insert(x, Where(s, p), before) == [x] + Where(s, p)
  {
    WhereMembers(s, p);
    var kept := Where(s, p);
    if kept != [] {
      assert kept[0] in s;
      OrderedTail(s, before);
      assert s == [s[0]] + s[1..];
    }
  }

  lemma {:induction false} WhereInsert<T(!new)>(x: T, s: seq<T>, p: T -> bool, before: (T, T) -> bool)
    requires WeakOrder(before) && Ordered(s, before)
    ensures Where(Insert(x, s, before), p) == if p(x) then Insert(x, Where(s, p), before) else Where(s, p)
  {
    if s == [] {
      assert [x][1..] == [];
    } else if !before(s[0], x) {
      assert ([x] + s)[1..] == s;
      BeforeKept(x, s, p, before);
      assert [] + Where(s, p) == Where(s, p);
    } else {
      var rest := Insert(x, s[1..], before);
      assert ([s[0]] + rest)[1..] == rest;
      OrderedTail(s, before);
      WhereInsert(x, s[1..], p, before);
      var kept := Where(s[1..], p);
      if p(s[0]) {
        assert ([s[0]] + kept)[1..] == kept;
      } else {
        assert [] + kept == kept && [] + Where(rest, p) == Where(rest, p);
      }
    }
  }
}
