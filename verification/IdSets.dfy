/** Id-list helpers of the catalog: normalising, comparing and merging id sets. */
module IdSets {
  import opened Prelude
  import opened Ordering
  import opened Uuids

  const MAX_ASSIGNMENT_IDS: nat := 500

  datatype IdSetError = TooMany | EmptyId | Repeated(id: Uuid)

  /** What a replacement adds to and removes from a stored set. */
  datatype IdSetChange = IdSetChange(added: seq<Uuid>, removed: seq<Uuid>)

  function Key(u: Uuid): seq<int> { Text(u) }

  ghost predicate AscendingIds(s: seq<Uuid>) {
    Ascending(Key, s)
  }

  /** `sortUUIDs`: the library sort on id text. */
  function SortIds(s: seq<Uuid>): (r: seq<Uuid>)
    ensures multiset(r) == multiset(s)
  {
    SortBy(Key, s)
  }

  /** The one ascending, duplicate-free list of a set of ids: what `ORDER BY id` returns. */
  ghost function Listing(s: set<Uuid>): seq<Uuid> {
    ListingBy(Key, s)
  }

  lemma KeysInjective(s: set<Uuid>)
    ensures KeyInjective(Key, s)
  {
    forall x, y | x in s && y in s && x != y ensures Key(x) != Key(y) {
      TextInjective(x, y);
    }
  }

  lemma ListingFacts(s: set<Uuid>)
    ensures AscendingIds(Listing(s))
    ensures Elements(Listing(s)) == s
    ensures Distinct(Listing(s))
    ensures |Listing(s)| == |s|
  {
    KeysInjective(s);
    ListingByFacts(Key, s);
  }

  lemma SortIdsIsListing(s: seq<Uuid>)
    requires Distinct(s)
    ensures SortIds(s) == Listing(Elements(s))
  {
    KeysInjective(Elements(s));
    SortByIsListing(Key, s);
  }

  method ContainsID(ids: seq<Uuid>, id: Uuid) returns (found: bool)
    ensures found <==> id in Elements(ids)
  {
    for i := 0 to |ids|
      invariant id !in ids[..i]
    {
      if ids[i] == id { return true; }
    }
    return false;
  }

  /** The first entry a request is refused for: an empty id, or an id seen earlier. */
  ghost predicate FirstRefused(ids: seq<Uuid>, i: nat) {
    && i < |ids|
    && (ids[i] == NIL || ids[i] in ids[..i])
    && forall k :: 0 <= k < i ==> ids[k] != NIL && ids[k] !in ids[..k]
  }

  /** A request list is usable when it is short enough, distinct and has no empty id. */
  ghost predicate UsableIds(ids: seq<Uuid>) {
    |ids| <= MAX_ASSIGNMENT_IDS && NIL !in ids && Distinct(ids)
  }

  /** What `NormalizeIDSet` answers, said without its loop. */
  ghost function Normalized(ids: seq<Uuid>): Result<seq<Uuid>, IdSetError> {
    if |ids| > MAX_ASSIGNMENT_IDS then Err(TooMany)
    else if UsableIds(ids) then Ok(Listing(Elements(ids)))
    else
      var i := RefusedAt(ids);
      if ids[i] == NIL then Err(EmptyId) else Err(Repeated(ids[i]))
  }

  /** Where the scan of an unusable list stops. */
  ghost function RefusedAt(ids: seq<Uuid>): (i: nat)
    requires NIL in ids || !Distinct(ids)
    ensures FirstRefused(ids, i)
  {
    UnusableIsRefused(ids);
    var i: nat :| FirstRefused(ids, i); i
  }

  lemma {:induction false} UnusableIsRefused(ids: seq<Uuid>)
    requires NIL in ids || !Distinct(ids)
    ensures exists i: nat :: FirstRefused(ids, i)
  {
    var n := |ids| - 1;
    var p := ids[..n];
    assert ids == p + [ids[n]];
    if NIL in p || !Distinct(p) {
      UnusableIsRefused(p);
      var i: nat :| FirstRefused(p, i);
      assert forall k :: 0 <= k <= i ==> ids[..k] == p[..k];
      assert FirstRefused(ids, i);
    } else {
      forall k | 0 <= k < n ensures ids[k] != NIL && ids[k] !in ids[..k] {
        assert ids[k] == p[k] && ids[..k] == p[..k];
        assert forall j :: 0 <= j < k ==> p[j] != p[k];
      }
      assert FirstRefused(ids, n);
    }
  }

  lemma FirstRefusedUnique(ids: seq<Uuid>, i: nat, j: nat)
    requires FirstRefused(ids, i) && FirstRefused(ids, j)
    ensures i == j
  {
  }

  lemma RefusedIsUnusable(ids: seq<Uuid>, i: nat)
    requires FirstRefused(ids, i)
    ensures !UsableIds(ids)
  {
    if ids[i] != NIL {
      var k :| 0 <= k < i && ids[..i][k] == ids[i];
      assert ids[k] == ids[i];
    }
  }

  method NormalizeIDSet(ids: seq<Uuid>) returns (r: Result<seq<Uuid>, IdSetError>)
    ensures r == Normalized(ids)
    ensures r.Ok? <==> UsableIds(ids)
    ensures r.Ok? ==> AscendingIds(r.value) && multiset(r.value) == multiset(ids)
  {
    if |ids| > MAX_ASSIGNMENT_IDS { return Err(TooMany); }
    var seen: set<Uuid> := {};
    var out: seq<Uuid> := [];
    for i := 0 to |ids|
      invariant out == ids[..i]
      invariant seen == Elements(ids[..i])
      invariant forall k :: 0 <= k < i ==> ids[k] != NIL && ids[k] !in ids[..k]
      invariant Distinct(ids[..i])
    {
      var id := ids[i];
      if id == NIL || id in seen {
        assert FirstRefused(ids, i);
        RefusedIsUnusable(ids, i);
        forall j: nat | FirstRefused(ids, j) ensures j == i { FirstRefusedUnique(ids, i, j); }
        if id == NIL { return Err(EmptyId); }
        return Err(Repeated(id));
      }
      seen := seen + {id};
      out := out + [id];
      assert ids[..i + 1] == ids[..i] + [id];
    }
    assert ids[..|ids|] == ids;
    SortIdsIsListing(out);
    ListingFacts(Elements(ids));
    return Ok(SortIds(out));
  }

  method DiffIDSets(current: seq<Uuid>, desired: seq<Uuid>) returns (added: seq<Uuid>, removed: seq<Uuid>)
    ensures Elements(added) == Elements(desired) - Elements(current)
    ensures Elements(removed) == Elements(current) - Elements(desired)
    ensures Distinct(desired) ==> added == Listing(Elements(desired) - Elements(current))
    ensures Distinct(current) ==> removed == Listing(Elements(current) - Elements(desired))
  {
    added := Missing(desired, current);
    removed := Missing(current, desired);
  }

  /** One loop of `DiffIDSets`: the ids of `from` absent from `other`, sorted. */
  method Missing(from: seq<Uuid>, other: seq<Uuid>) returns (out: seq<Uuid>)
    ensures Elements(out) == Elements(from) - Elements(other)
    ensures Distinct(from) ==> out == Listing(Elements(from) - Elements(other))
  {
    out := [];
    for i := 0 to |from|
      invariant Elements(out) == Elements(from[..i]) - Elements(other)
      invariant Distinct(from) ==> Distinct(out)
    {
      var known := ContainsID(other, from[i]);
      assert from[..i + 1] == from[..i] + [from[i]];
      assert Elements(from[..i + 1]) == Elements(from[..i]) + {from[i]};
      if !known {
        assert from[i] in out <==> from[i] in Elements(out);
        assert Elements(out + [from[i]]) == Elements(out) + {from[i]};
        out := out + [from[i]];
      }
    }
    assert from[..|from|] == from;
    ghost var unsorted := out;
    out := SortIds(out);
    MultisetMembers(out, unsorted);
    assert Elements(out) == Elements(unsorted);
    if Distinct(from) { SortIdsIsListing(unsorted); }
  }

  /** `UnionIDs` of two sets: the listing of their union. */
  method UnionIDs(a: seq<Uuid>, b: seq<Uuid>) returns (out: seq<Uuid>)
    ensures out == Listing(Elements(a) + Elements(b))
  {
    var all := a + b;
    var seen: set<Uuid> := {};
    out := [];
    for i := 0 to |all|
      invariant seen == Elements(out) == Elements(all[..i])
      invariant Distinct(out)
    {
      assert all[..i + 1] == all[..i] + [all[i]];
      assert Elements(all[..i + 1]) == Elements(all[..i]) + {all[i]};
      if all[i] !in seen {
        assert all[i] !in Elements(out);
        assert Elements(out + [all[i]]) == Elements(out) + {all[i]};
        seen := seen + {all[i]};
        out := out + [all[i]];
      }
    }
    assert all[..|all|] == all;
    assert Elements(all) == Elements(a) + Elements(b);
    SortIdsIsListing(out);
    out := SortIds(out);
  }

  /** The groups an item offers: inherited minus excluded, plus direct. */
  method EffectiveGroupIDs(inherited: seq<Uuid>, excludedIDs: seq<Uuid>, direct: seq<Uuid>) returns (result: seq<Uuid>)
    ensures result == Listing((Elements(inherited) - Elements(excludedIDs)) + Elements(direct))
  {
    var excluded: set<Uuid> := {};
    for i := 0 to |excludedIDs|
      invariant excluded == Elements(excludedIDs[..i])
    {
      excluded := excluded + {excludedIDs[i]};
      assert excludedIDs[..i + 1] == excludedIDs[..i] + [excludedIDs[i]];
    }
    assert excludedIDs[..|excludedIDs|] == excludedIDs;
    var seen: set<Uuid> := {};
    result := [];
    for i := 0 to |inherited|
      invariant seen == Elements(result) == Elements(inherited[..i]) - excluded
      invariant Distinct(result)
    {
      var id := inherited[i];
      assert inherited[..i + 1] == inherited[..i] + [id];
      assert Elements(inherited[..i + 1]) == Elements(inherited[..i]) + {id};
      if id in excluded { continue; }
      if id !in seen {
        assert id !in Elements(result);
        assert Elements(result + [id]) == Elements(result) + {id};
        seen := seen + {id};
        result := result + [id];
      }
    }
    assert inherited[..|inherited|] == inherited;
    for i := 0 to |direct|
      invariant seen == Elements(result) == (Elements(inherited) - excluded) + Elements(direct[..i])
      invariant Distinct(result)
    {
      var id := direct[i];
      assert direct[..i + 1] == direct[..i] + [id];
      assert Elements(direct[..i + 1]) == Elements(direct[..i]) + {id};
      if id !in seen {
        assert id !in Elements(result);
        assert Elements(result + [id]) == Elements(result) + {id};
        seen := seen + {id};
        result := result + [id];
      }
    }
    assert direct[..|direct|] == direct;
    SortIdsIsListing(result);
    result := SortIds(result);
  }

  /**
   Request lists that are permutations of each other are accepted or refused
   together, and when accepted they normalise to one sequence, so they
   fingerprint alike.
   */
  lemma NormalizedCanonical(a: seq<Uuid>, b: seq<Uuid>)
    requires multiset(a) == multiset(b)
    ensures Normalized(a).Ok? == Normalized(b).Ok?
    ensures Normalized(a).Ok? ==> Normalized(a) == Normalized(b)
  {
    MultisetMembers(a, b);
    assert Elements(a) == Elements(b);
    DistinctByMultiset(a);
    DistinctByMultiset(b);
  }

  /**
   Why a list that is short enough is refused, whatever its order: it has an empty id, or it repeats
   the id it names.
   */
  lemma RefusedWhy(ids: seq<Uuid>)
    requires Normalized(ids).Err? && |ids| <= MAX_ASSIGNMENT_IDS
    ensures (Normalized(ids).error == EmptyId && NIL in ids)
            || (Normalized(ids).error.Repeated? && Normalized(ids).error.id != NIL
                && multiset(ids)[Normalized(ids).error.id] >= 2)
  {
    var i := RefusedAt(ids);
    if ids[i] != NIL {
      assert ids == ids[..i] + [ids[i]] + ids[i + 1..];
      assert multiset(ids) == multiset(ids[..i]) + multiset{ids[i]} + multiset(ids[i + 1..]);
      assert ids[i] in multiset(ids[..i]);
    }
  }

  /**
   Permutations of a refused list. They are too long together. Without an empty
   id they are all refused for a repeated one; with no other repetition they are
   all refused for the empty one; otherwise the order decides which comes first.
   */
  lemma RefusedByPermutation(a: seq<Uuid>, b: seq<Uuid>)
    requires multiset(a) == multiset(b) && Normalized(a).Err?
    ensures Normalized(b).Err? && (Normalized(a).error == TooMany <==> Normalized(b).error == TooMany)
    ensures Normalized(a).error != TooMany && NIL !in a ==> Normalized(b).error.Repeated?
    ensures Normalized(a).error != TooMany && (forall x :: x != NIL ==> multiset(a)[x] <= 1) ==>
      Normalized(b).error == EmptyId
  {
    NormalizedCanonical(a, b);
    MultisetMembers(a, b);
    assert |multiset(a)| == |a| && |multiset(b)| == |b|;
    if |b| <= MAX_ASSIGNMENT_IDS { RefusedWhy(b); }
  }
}
