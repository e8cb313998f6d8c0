/**
 Lexicographic order on code sequences, and sorting by a key.
 Go compares strings byte by byte and sorts with `sort.Slice`; every sort of the
 catalog compares ids by their text, so all of its orders are instances of this one.
 */
module Ordering {
  import opened Prelude

  /** Strict lexicographic order: the order of Go's `<` on strings. */
  predicate LexLess(a: seq<int>, b: seq<int>) {
    if |b| == 0 then false
    else if |a| == 0 then true
    else if a[0] != b[0] then a[0] < b[0]
    else LexLess(a[1..], b[1..])
  }

  lemma {:induction false} LexIrreflexive(a: seq<int>)
    ensures !LexLess(a, a)
  {
    if a != [] { LexIrreflexive(a[1..]); }
  }

  lemma {:induction false} LexTransitive(a: seq<int>, b: seq<int>, c: seq<int>)
    requires LexLess(a, b) && LexLess(b, c)
    ensures LexLess(a, c)
  {
    if a != [] && a[0] == b[0] == c[0] { LexTransitive(a[1..], b[1..], c[1..]); }
  }

  lemma {:induction false} LexTotal(a: seq<int>, b: seq<int>)
    ensures a == b || LexLess(a, b) || LexLess(b, a)
  {
    if a != [] && b != [] && a[0] == b[0] {
      LexTotal(a[1..], b[1..]);
      assert a == [a[0]] + a[1..] && b == [b[0]] + b[1..];
    }
  }

  /** Comparing sequences that share a prefix is comparing what follows it. */
  lemma {:induction false} LexSamePrefix(p: seq<int>, a: seq<int>, b: seq<int>)
    ensures LexLess(p + a, p + b) == LexLess(a, b)
  {
    if p == [] {
      assert p + a == a && p + b == b;
    } else {
      LexSamePrefix(p[1..], a, b);
      assert (p + a)[1..] == p[1..] + a && (p + b)[1..] == p[1..] + b;
    }
  }

  /** Prefixes of one length decide the order when they differ. */
  lemma {:induction false} LexPrefixDecides(p: seq<int>, q: seq<int>, a: seq<int>, b: seq<int>)
    requires |p| == |q| && p != q
    ensures LexLess(p + a, q + b) == LexLess(p, q)
  {
    if p != [] {
      assert (p + a)[0] == p[0] && (q + b)[0] == q[0];
      if p[0] == q[0] {
        assert p == [p[0]] + p[1..] && q == [q[0]] + q[1..];
        LexPrefixDecides(p[1..], q[1..], a, b);
        assert (p + a)[1..] == p[1..] + a && (q + b)[1..] == q[1..] + b;
      }
    }
  }

  /** `s` is in strictly ascending key order, so in particular keys are distinct. */
  ghost predicate Ascending<T>(key: T -> seq<int>, s: seq<T>) {
    forall i, j :: 0 <= i < j < |s| ==> LexLess(key(s[i]), key(s[j]))
  }

  /** Keys tell the elements of `s` apart. */
  ghost predicate KeysDistinct<T(!new)>(key: T -> seq<int>, s: seq<T>) {
    forall i, j :: 0 <= i < j < |s| ==> key(s[i]) != key(s[j])
  }

  /** Insert `x` before the first element whose key is not below its own. */
  function Insert<T>(key: T -> seq<int>, x: T, s: seq<T>): (r: seq<T>)
    ensures multiset(r) == multiset(s) + multiset{x}
  {
    if s == [] then [x]
    else if LexLess(key(s[0]), key(x)) then
      assert s == [s[0]] + s[1..];
      [s[0]] + Insert(key, x, s[1..])
    else [x] + s
  }

  /** The library sort: the result it promises, computed by insertion. */
  function SortBy<T>(key: T -> seq<int>, s: seq<T>): (r: seq<T>)
    ensures multiset(r) == multiset(s)
  {
    if s == [] then []
    else
      assert s == [s[0]] + s[1..];
      Insert(key, s[0], SortBy(key, s[1..]))
  }

  lemma MultisetMembers<T>(a: seq<T>, b: seq<T>)
    requires multiset(a) == multiset(b)
    ensures |a| == |b|
    ensures forall x :: x in a <==> x in b
  {
    assert |multiset(a)| == |a| && |multiset(b)| == |b|;
    forall x ensures x in a <==> x in b {
      assert x in a <==> x in multiset(a);
      assert x in b <==> x in multiset(b);
    }
  }

  lemma {:induction false} InsertAscending<T(!new)>(key: T -> seq<int>, x: T, s: seq<T>)
    requires Ascending(key, s)
    requires forall y :: y in s ==> key(y) != key(x)
    ensures Ascending(key, Insert(key, x, s))
  {
    if s != [] {
      LexTotal(key(s[0]), key(x));
      if LexLess(key(s[0]), key(x)) {
        InsertAscending(key, x, s[1..]);
        var t := Insert(key, x, s[1..]);
        assert forall y :: y in t <==> y in multiset(t);
        assert forall y :: y in t ==> LexLess(key(s[0]), key(y));
        ConsAscending(key, s[0], t);
      } else {
        forall y | y in s ensures LexLess(key(x), key(y)) { HeadLeast(key, s, y); LexTransitiveFrom(key, x, s[0], y); }
        ConsAscending(key, x, s);
      }
    }
  }

  lemma ConsAscending<T(!new)>(key: T -> seq<int>, x: T, s: seq<T>)
    requires Ascending(key, s) && forall y :: y in s ==> LexLess(key(x), key(y))
    ensures Ascending(key, [x] + s)
  {
  }

  lemma HeadLeast<T(!new)>(key: T -> seq<int>, s: seq<T>, y: T)
    requires Ascending(key, s) && y in s
    ensures y == s[0] || LexLess(key(s[0]), key(y))
  {
    var j :| 0 <= j < |s| && s[j] == y;
  }

  lemma LexTransitiveFrom<T(!new)>(key: T -> seq<int>, a: T, b: T, c: T)
    requires LexLess(key(a), key(b)) && (c == b || LexLess(key(b), key(c)))
    ensures LexLess(key(a), key(c))
  {
    if c != b { LexTransitive(key(a), key(b), key(c)); }
  }

  /** Sorting elements with distinct keys puts them in strictly ascending order. */
  lemma {:induction false} SortByAscending<T(!new)>(key: T -> seq<int>, s: seq<T>)
    requires KeysDistinct(key, s)
    ensures Ascending(key, SortBy(key, s))
  {
    if s != [] {
      SortByAscending(key, s[1..]);
      MultisetMembers(SortBy(key, s[1..]), s[1..]);
      InsertAscending(key, s[0], SortBy(key, s[1..]));
    }
  }

  /** There is only one ascending arrangement: the sort result does not depend on the algorithm. */
  lemma {:induction false} AscendingUnique<T(!new)>(key: T -> seq<int>, a: seq<T>, b: seq<T>)
    requires Ascending(key, a) && Ascending(key, b)
    requires forall x :: x in a <==> x in b
    ensures a == b
  {
    assert a != [] ==> a[0] in a;
    assert b != [] ==> b[0] in b;
    if a != [] && b != [] {
      var i :| 0 <= i < |b| && b[i] == a[0];
      var j :| 0 <= j < |a| && a[j] == b[0];
      if i > 0 && j > 0 {
        LexTransitive(key(a[0]), key(b[0]), key(a[0]));
        LexIrreflexive(key(a[0]));
      }
      assert a[0] == b[0];
      LexIrreflexive(key(a[0]));
      forall x ensures x in a[1..] <==> x in b[1..] {
        assert a == [a[0]] + a[1..] && b == [b[0]] + b[1..];
        if x in a[1..] { assert LexLess(key(a[0]), key(x)) && x in a; }
        if x in b[1..] { assert LexLess(key(b[0]), key(x)) && x in b; }
      }
      AscendingUnique(key, a[1..], b[1..]);
    }
  }

  /** Any two permutations with distinct keys sort to the same sequence. */
  lemma SortByCanonical<T(!new)>(key: T -> seq<int>, a: seq<T>, b: seq<T>)
    requires KeysDistinct(key, a) && KeysDistinct(key, b)
    requires forall x :: x in a <==> x in b
    ensures SortBy(key, a) == SortBy(key, b)
  {
    SortByAscending(key, a);
    SortByAscending(key, b);
    MultisetMembers(SortBy(key, a), a);
    MultisetMembers(SortBy(key, b), b);
    AscendingUnique(key, SortBy(key, a), SortBy(key, b));
  }

  /** Keys tell the elements of a set apart. */
  ghost predicate KeyInjective<T(!new)>(key: T -> seq<int>, s: set<T>) {
    forall x, y :: x in s && y in s && x != y ==> key(x) != key(y)
  }

  ghost function Pick<T>(s: set<T>): (x: T)
    requires s != {}
    ensures x in s
  {
    var x :| x in s; x
  }

  /** The one ascending, duplicate-free list of a set: what a query with `ORDER BY` returns. */
  ghost function ListingBy<T(!new)>(key: T -> seq<int>, s: set<T>): seq<T> {
    if s == {} then [] else Insert(key, Pick(s), ListingBy(key, s - {Pick(s)}))
  }

  lemma AscendingDistinct<T(!new)>(key: T -> seq<int>, s: seq<T>)
    requires Ascending(key, s)
    ensures Distinct(s)
  {
    forall i, j | 0 <= i < j < |s| ensures s[i] != s[j] {
      LexIrreflexive(key(s[i]));
    }
  }

  lemma {:induction false} ListingByFacts<T(!new)>(key: T -> seq<int>, s: set<T>)
    requires KeyInjective(key, s)
    ensures Ascending(key, ListingBy(key, s))
    ensures Elements(ListingBy(key, s)) == s
    ensures Distinct(ListingBy(key, s))
    ensures |ListingBy(key, s)| == |s|
  {
    if s == {} {
      assert Elements(ListingBy(key, s)) == {};
    } else {
      var x, rest := Pick(s), ListingBy(key, s - {Pick(s)});
      ListingByFacts(key, s - {x});
      forall y | y in rest ensures key(y) != key(x) {
        assert y in Elements(rest);
      }
      InsertAscending(key, x, rest);
      forall y ensures y in Elements(ListingBy(key, s)) <==> y in s {
        assert y in ListingBy(key, s) <==> y in multiset(ListingBy(key, s));
        assert y in rest <==> y in Elements(rest);
      }
      AscendingDistinct(key, ListingBy(key, s));
      DistinctCardinality(ListingBy(key, s));
    }
  }

  /** An ascending list is the listing of its elements. */
  lemma AscendingIsListingBy<T(!new)>(key: T -> seq<int>, s: seq<T>)
    requires Ascending(key, s) && KeyInjective(key, Elements(s))
    ensures s == ListingBy(key, Elements(s))
  {
    var t := ListingBy(key, Elements(s));
    ListingByFacts(key, Elements(s));
    forall x ensures x in s <==> x in t {
      assert x in s <==> x in Elements(s);
      assert x in t <==> x in Elements(t);
    }
    AscendingUnique(key, s, t);
  }

  /** Sorting a distinct list lists its elements, whatever its order was. */
  lemma SortByIsListing<T(!new)>(key: T -> seq<int>, s: seq<T>)
    requires Distinct(s) && KeyInjective(key, Elements(s))
    ensures SortBy(key, s) == ListingBy(key, Elements(s))
  {
    forall i, j | 0 <= i < j < |s| ensures key(s[i]) != key(s[j]) {
      assert s[i] in Elements(s) && s[j] in Elements(s);
    }
    SortByAscending(key, s);
    MultisetMembers(SortBy(key, s), s);
    assert Elements(SortBy(key, s)) == Elements(s);
    AscendingIsListingBy(key, SortBy(key, s));
  }
}
