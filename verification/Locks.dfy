/** Row locks of the catalog and the order in which its commands take them. */
module Locks {
  import opened Prelude
  import opened Ordering
  import opened Uuids

  /** A lock held to the end of a transaction: the request's advisory lock, or a row. */
  datatype Lock =
    | RequestLock(key: int)
    | ItemLock(item: Uuid)
    | SizeLock(item: Uuid, size: Uuid)
    | CategoryLock(category: Uuid)
    | GroupLock(group: Uuid)
    | OptionLock(group: Uuid, option: Uuid)

  /**
   The global order: the request, then each item followed by its sizes, then
   categories, then each modifier group followed by its options, all by id.
   */
  function LockKey(l: Lock): seq<int> {
    match l
    case RequestLock(k) => [0, k]
    case ItemLock(i) => [1] + Text(i) + [0]
    case SizeLock(i, s) => [1] + Text(i) + [1] + Text(s)
    case CategoryLock(c) => [2] + Text(c)
    case GroupLock(g) => [3] + Text(g) + [0]
    case OptionLock(g, o) => [3] + Text(g) + [1] + Text(o)
  }

  /** `a` comes before `b` in the global order. */
  predicate Below(a: Lock, b: Lock) {
    LexLess(LockKey(a), LockKey(b))
  }

  lemma BelowTransitive(a: Lock, b: Lock, c: Lock)
    requires Below(a, b) && Below(b, c)
    ensures Below(a, c)
  {
    LexTransitive(LockKey(a), LockKey(b), LockKey(c));
  }

  lemma BelowIrreflexive(a: Lock)
    ensures !Below(a, a)
  {
    LexIrreflexive(LockKey(a));
  }

  /** The table a lock belongs to, in lock order. */
  function Tier(l: Lock): int {
    match l
    case RequestLock(_) => 0
    case ItemLock(_) => 1
    case SizeLock(_, _) => 1
    case CategoryLock(_) => 2
    case GroupLock(_) => 3
    case OptionLock(_, _) => 3
  }

  /** The table a lock belongs to when groups are locked before items, as the column-wise replacement does. */
  function GroupsFirstTier(l: Lock): int {
    match l
    case RequestLock(_) => 0
    case GroupLock(_) => 1
    case OptionLock(_, _) => 1
    case ItemLock(_) => 2
    case SizeLock(_, _) => 2
    case CategoryLock(_) => 3
  }

  /** `a` comes before `b` in that order; within a table it is the global one. */
  predicate Under(a: Lock, b: Lock) {
    GroupsFirstTier(a) < GroupsFirstTier(b) || (GroupsFirstTier(a) == GroupsFirstTier(b) && Below(a, b))
  }

  /** Locks of different tables are ordered by table. */
  lemma TierDecides(a: Lock, b: Lock)
    requires Tier(a) < Tier(b)
    ensures Below(a, b)
  {
    assert LockKey(a)[0] == Tier(a) && LockKey(b)[0] == Tier(b);
  }

  /** Rows of one table that stand for themselves are ordered by id. */
  lemma RowOrder(a: Uuid, b: Uuid)
    requires Before(a, b)
    ensures Below(ItemLock(a), ItemLock(b))
    ensures Below(CategoryLock(a), CategoryLock(b))
    ensures Below(GroupLock(a), GroupLock(b))
  {
    TreeOrder(1, a, b, [0], [0]);
    TreeOrder(3, a, b, [0], [0]);
    LexSamePrefix([2], Text(a), Text(b));
  }

  /** Different trees of one table are ordered by the id of their root, whatever follows it. */
  lemma TreeOrder(tier: int, a: Uuid, b: Uuid, x: seq<int>, y: seq<int>)
    requires Before(a, b)
    ensures LexLess([tier] + Text(a) + x, [tier] + Text(b) + y)
  {
    TextLength(a);
    TextLength(b);
    LexIrreflexive(Text(a));
    LexSamePrefix([tier], Text(a), Text(b));
    LexPrefixDecides([tier] + Text(a), [tier] + Text(b), x, y);
  }

  /** A root comes before its children, and children are ordered by id. */
  lemma ChildOrder(root: Uuid, a: Uuid, b: Uuid)
    ensures Below(ItemLock(root), SizeLock(root, a)) && Below(GroupLock(root), OptionLock(root, a))
    ensures Before(a, b) ==>
      Below(SizeLock(root, a), SizeLock(root, b)) && Below(OptionLock(root, a), OptionLock(root, b))
  {
    RootFirst(1, root, a);
    RootFirst(3, root, a);
    SiblingOrder(1, root, a, b);
    SiblingOrder(3, root, a, b);
  }

  lemma RootFirst(tier: int, root: Uuid, a: Uuid)
    ensures LexLess([tier] + Text(root) + [0], [tier] + Text(root) + [1] + Text(a))
  {
    var p := [tier] + Text(root);
    assert p + [1] + Text(a) == p + ([1] + Text(a));
    LexSamePrefix(p, [0], [1] + Text(a));
  }

  lemma SiblingOrder(tier: int, root: Uuid, a: Uuid, b: Uuid)
    ensures LexLess([tier] + Text(root) + [1] + Text(a), [tier] + Text(root) + [1] + Text(b)) <==> Before(a, b)
  {
    LexSamePrefix([tier] + Text(root) + [1], Text(a), Text(b));
  }

  /**
   A list of lock requests respects the order from a set of held locks: each
   request is for a lock already held, or for one above everything held then.
   */
  ghost predicate Ordered(held: set<Lock>, requests: seq<Lock>)
    decreases |requests|
  {
    requests != [] ==>
      && (requests[0] in held || forall h :: h in held ==> Below(h, requests[0]))
      && Ordered(held + {requests[0]}, requests[1..])
  }

  /** Two ordered lists in a row are ordered. */
  lemma {:induction false} OrderedConcat(held: set<Lock>, a: seq<Lock>, b: seq<Lock>)
    requires Ordered(held, a) && Ordered(held + Elements(a), b)
    ensures Ordered(held, a + b)
    decreases |a|
  {
    if a == [] {
      assert held + Elements(a) == held;
      assert a + b == b;
    } else {
      assert a == [a[0]] + a[1..];
      assert held + {a[0]} + Elements(a[1..]) == held + Elements(a);
      OrderedConcat(held + {a[0]}, a[1..], b);
      assert (a + b)[1..] == a[1..] + b;
    }
  }

  /** An ascending list above everything held is ordered. */
  lemma {:induction false} AscendingOrdered(held: set<Lock>, requests: seq<Lock>)
    requires forall i, j :: 0 <= i < j < |requests| ==> Below(requests[i], requests[j])
    requires forall h, r :: h in held && r in requests ==> Below(h, r)
    ensures Ordered(held, requests)
    decreases |requests|
  {
    if requests != [] {
      forall h, r | h in held + {requests[0]} && r in requests[1..] ensures Below(h, r) {
        var j :| 0 <= j < |requests[1..]| && requests[1..][j] == r;
        assert r == requests[j + 1];
      }
      AscendingOrdered(held + {requests[0]}, requests[1..]);
    }
  }
}
