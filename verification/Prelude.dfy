/** Values shared by every module: an optional value and an error-carrying result. */
module Prelude {

  datatype Option<+T> = None | Some(value: T)

  datatype Result<+T, +E> = Ok(value: T) | Err(error: E)

  /** True when no element of `s` occurs twice. */
  ghost predicate Distinct<T>(s: seq<T>) {
    forall i, j :: 0 <= i < j < |s| ==> s[i] != s[j]
  }

  /** The elements of a sequence, as a set. */
  ghost function Elements<T>(s: seq<T>): set<T> {
    set x | x in s
  }

  /** A distinct sequence has as many elements as entries. */
  lemma {:induction false} DistinctCardinality<T>(s: seq<T>)
    requires Distinct(s)
    ensures |Elements(s)| == |s|
  {
    if s == [] {
      assert Elements(s) == {};
    } else {
      var n := |s| - 1;
      DistinctCardinality(s[..n]);
      assert s == s[..n] + [s[n]];
      assert Elements(s) == Elements(s[..n]) + {s[n]};
    }
  }

  /** A subset has at most as many elements. */
  lemma {:induction false} SubsetCardinality<T>(a: set<T>, b: set<T>)
    requires a <= b
    ensures |a| <= |b|
  {
    assert b == a + (b - a);
  }

  /** Distinctness is a property of the multiset, so permutations share it. */
  lemma {:induction false} DistinctByMultiset<T>(s: seq<T>)
    ensures Distinct(s) <==> forall x :: x in s ==> multiset(s)[x] == 1
  {
    if s != [] {
      var n := |s| - 1;
      var p, y := s[..n], s[n];
      assert s == p + [y];
      assert multiset(s) == multiset(p) + multiset{y};
      DistinctByMultiset(p);
      assert forall x :: x in p <==> x in multiset(p);
      if Distinct(s) {
        forall x | x in s ensures multiset(s)[x] == 1 {
          if x == y { assert y !in p; }
        }
      }
      if forall x :: x in s ==> multiset(s)[x] == 1 {
        assert multiset(s)[y] == 1;
        assert y !in multiset(p);
        forall x | x in p ensures multiset(p)[x] == 1 {
          assert x in s && x != y;
          assert multiset(s)[x] == 1;
        }
      }
    }
  }
}
