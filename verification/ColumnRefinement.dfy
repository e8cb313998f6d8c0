/**
 The column-wise command against the row-wise ones. Setting which categories and
 items one group is attached to is the same as replacing, for each affected
 category and then each affected item, its own list with that one group changed.
 */
module ColumnRefinement {
  import opened Prelude
  import opened Uuids
  import opened IdSets
  import opened Links
  import opened LinkTheorems
  import LinkStore

  function Toggle(s: set<Uuid>, g: Uuid, attach: bool): set<Uuid> {
    if attach then s + {g} else s - {g}
  }

  /** Replace one category's list, changing only `g`. */
  ghost function SetCategory(t: Tables, g: Uuid, c: Uuid, attach: bool): Outcome {
    ReplaceCategory(t, c, Listing(Toggle(GroupsOf(t.provided, c), g, attach)))
  }

  /** Replace one item's direct list, changing only `g`, and keep its exclusions. */
  ghost function SetItem(t: Tables, g: Uuid, i: Uuid, attach: bool): Outcome {
    ReplaceItem(t, i, Listing(Toggle(GroupsOf(t.direct, i), g, attach)), Listing(GroupsOf(t.excluded, i)))
  }

  /** Runs one command per owner, stopping at the first refusal. */
  ghost function Fold(t: Tables, owners: seq<Uuid>, step: (Tables, Uuid) -> Outcome): Outcome
    decreases |owners|
  {
    if owners == [] then Done(t, None)
    else match step(t, owners[0])
      case Refused(e) => Refused(e)
      case Done(t1, _) => Fold(t1, owners[1..], step)
  }

  ghost function CategoryCommand(g: Uuid, cats: set<Uuid>): (Tables, Uuid) -> Outcome {
    (t, c) => SetCategory(t, g, c, c in cats)
  }

  ghost function ItemCommand(g: Uuid, items: set<Uuid>): (Tables, Uuid) -> Outcome {
    (t, i) => SetItem(t, g, i, i in items)
  }

  /** The row-wise run: the categories in the order `cs`, then the items in the order `its`. */
  ghost function RowWise(t: Tables, g: Uuid, cs: seq<Uuid>, cats: set<Uuid>, its: seq<Uuid>,
                         items: set<Uuid>): Outcome {
    match Fold(t, cs, CategoryCommand(g, cats))
    case Refused(e) => Refused(e)
    case Done(t1, _) => Fold(t1, its, ItemCommand(g, items))
  }

  /**
   `step` on `x` is accepted exactly when `x` is ready, and takes the tables reached by `q` to those
   reached by `q + {x}`.
   */
  ghost predicate StepOk(step: (Tables, Uuid) -> Outcome, reached: set<Uuid> -> Tables, ready: Uuid -> bool,
                         q: set<Uuid>, x: Uuid) {
    && (step(reached(q), x).Done? <==> ready(x))
    && (step(reached(q), x).Done? ==> step(reached(q), x).tables == reached(q + {x}))
  }

  /** Steps on distinct owners compose: all are accepted exactly when each owner is ready. */
  lemma {:induction false} FoldSteps(step: (Tables, Uuid) -> Outcome, reached: set<Uuid> -> Tables, ready: Uuid -> bool,
                                     q: set<Uuid>, xs: seq<Uuid>)
    requires Distinct(xs) && Elements(xs) !! q
    requires forall q', x :: x in xs && x !in q' ==> StepOk(step, reached, ready, q', x)
    ensures Fold(reached(q), xs, step).Done? <==> forall x :: x in xs ==> ready(x)
    ensures Fold(reached(q), xs, step).Done? ==> Fold(reached(q), xs, step).tables == reached(q + Elements(xs))
    decreases |xs|
  {
    if xs == [] {
      assert q + Elements(xs) == q;
    } else {
      assert xs[0] in Elements(xs);
      assert StepOk(step, reached, ready, q, xs[0]);
      assert xs == [xs[0]] + xs[1..];
      assert q + {xs[0]} + Elements(xs[1..]) == q + Elements(xs);
      FoldSteps(step, reached, ready, q + {xs[0]}, xs[1..]);
    }
  }

  /** Owners whose attachment to the group changes. */
  ghost function Affected(current: set<Uuid>, desired: set<Uuid>): set<Uuid> {
    (current - desired) + (desired - current)
  }

  ghost predicate Sendable(s: set<Uuid>) {
    |s| <= MAX_ASSIGNMENT_IDS && NIL !in s
  }

  lemma SendableList(s: set<Uuid>)
    ensures Normalized(Listing(s)).Ok? <==> Sendable(s)
    ensures Elements(Listing(s)) == s
  {
    ListingFacts(s);
    assert NIL in Listing(s) <==> NIL in Elements(Listing(s));
  }

  /** What the row-wise command needs of an affected category; all of it can be read beforehand. */
  ghost predicate CategoryRowReady(t: Tables, g: Uuid, c: Uuid, attach: bool) {
    c in t.categories && !t.categories[c] && Sendable(Toggle(GroupsOf(t.provided, c), g, attach))
  }

  /** What it needs of an affected item, given the exclusions `e` the item has by then. */
  ghost predicate ItemRowReady(t: Tables, g: Uuid, i: Uuid, attach: bool, e: set<Uuid>) {
    && i in t.items && !t.items[i].retired
    && Sendable(Toggle(GroupsOf(t.direct, i), g, attach)) && Sendable(e)
    && (GroupsOf(t.direct, i) - {g}) * GroupsOf(t.excluded, i) == {}
  }

  /** The exclusions an item keeps when `g` leaves the categories `lost`. */
  ghost function KeptExclusions(t: Tables, g: Uuid, lost: set<Uuid>, i: Uuid): set<Uuid> {
    GroupsOf(t.excluded, i) - (if i in t.items && t.items[i].category in lost then {g} else {})
  }

  /** The tables once the categories `p` and the items `q` have been set. */
  ghost function Partial(t: Tables, g: Uuid, p: set<Uuid>, cats: set<Uuid>, q: set<Uuid>, items: set<Uuid>): Tables {
    t.(provided := (t.provided - LinksTo(p - cats, g)) + LinksTo(p * cats, g),
       direct := (t.direct - LinksTo(q - items, g)) + LinksTo(q * items, g),
       excluded := t.excluded - GroupExclusions(t, p - cats, g))
  }

  /** When a category's list can be replaced by one that differs in `g` only. */
  lemma CategoryAccepts(s: Tables, g: Uuid, c: Uuid, attach: bool)
    requires References(s) && g in s.groups && !s.groups[g]
    requires attach || g in GroupsOf(s.provided, c)
    ensures SetCategory(s, g, c, attach).Done? <==> CategoryRowReady(s, g, c, attach)
    ensures SetCategory(s, g, c, attach).Done? ==>
      SetCategory(s, g, c, attach).tables == CategoryReplaced(s, c, Toggle(GroupsOf(s.provided, c), g, attach))
  {
    var current := GroupsOf(s.provided, c);
    var desired := Toggle(current, g, attach);
    SendableList(desired);
    forall h | h in current ensures h in s.groups { GroupsOfMember(s.provided, c, h); }
    assert GroupSetError(s, current, desired) == None;
  }

  /** One category step, from a state in which the categories `p` are already set. */
  lemma CategoryStep(t: Tables, g: Uuid, p: set<Uuid>, c: Uuid, cats: set<Uuid>)
    requires References(t) && cats <= t.categories.Keys && g in t.groups && !t.groups[g]
    requires c !in p && (c in cats || Link(c, g) in t.provided)
    ensures var s := Partial(t, g, p, cats, {}, {});
      && (SetCategory(s, g, c, c in cats).Done? <==> CategoryRowReady(t, g, c, c in cats))
      && (SetCategory(s, g, c, c in cats).Done? ==>
          SetCategory(s, g, c, c in cats).tables == Partial(t, g, p + {c}, cats, {}, {}))
  {
    var s := Partial(t, g, p, cats, {}, {});
    forall h ensures h in GroupsOf(s.provided, c) <==> h in GroupsOf(t.provided, c) {
      GroupsOfMember(s.provided, c, h);
      GroupsOfMember(t.provided, c, h);
    }
    assert GroupsOf(s.provided, c) == GroupsOf(t.provided, c);
    GroupsOfMember(t.provided, c, g);
    PartialReferences(t, g, p, cats, {}, {});
    CategoryAccepts(s, g, c, c in cats);
    CategoryRowTables(t, g, p, c, cats);
  }

  lemma PartialReferences(t: Tables, g: Uuid, p: set<Uuid>, cats: set<Uuid>, q: set<Uuid>, items: set<Uuid>)
    requires References(t) && cats <= t.categories.Keys && items <= t.items.Keys && g in t.groups
    ensures References(Partial(t, g, p, cats, q, items))
  {
  }

  lemma CategoryRowTables(t: Tables, g: Uuid, p: set<Uuid>, c: Uuid, cats: set<Uuid>)
    requires c !in p && (c in cats || Link(c, g) in t.provided)
    ensures var s := Partial(t, g, p, cats, {}, {});
      CategoryReplaced(s, c, Toggle(GroupsOf(s.provided, c), g, c in cats)) == Partial(t, g, p + {c}, cats, {}, {})
  {
    var s := Partial(t, g, p, cats, {}, {});
    var current := GroupsOf(s.provided, c);
    var desired := Toggle(current, g, c in cats);
    var a, b := CategoryReplaced(s, c, desired), Partial(t, g, p + {c}, cats, {}, {});
    forall l ensures l in a.provided <==> l in b.provided {
      GroupsOfMember(s.provided, c, l.group);
      assert l == Link(l.owner, l.group);
      assert l in LinksTo((p + {c}) * cats, g) <==> l.group == g && l.owner in (p + {c}) * cats;
      assert l in LinksTo((p + {c}) - cats, g) <==> l.group == g && l.owner in (p + {c}) - cats;
      assert l in LinksTo(p * cats, g) <==> l.group == g && l.owner in p * cats;
      assert l in LinksTo(p - cats, g) <==> l.group == g && l.owner in p - cats;
      assert l in LinksFrom(c, desired) <==> l.owner == c && l.group in desired;
      assert l in LinksFrom(c, current) <==> l.owner == c && l.group in current;
    }
    GroupsOfMember(s.provided, c, g);
    assert current - desired == if c in cats then {} else current * {g};
    forall l ensures l in a.excluded <==> l in b.excluded {
    }
  }

  lemma SetItemSends(s: Tables, g: Uuid, i: Uuid, attach: bool)
    ensures var desired, kept := Toggle(GroupsOf(s.direct, i), g, attach), GroupsOf(s.excluded, i);
      if Sendable(desired) && Sendable(kept) then SetItem(s, g, i, attach) == ReplaceItemSets(s, i, desired, kept)
      else SetItem(s, g, i, attach).Refused?
  {
    SendableList(Toggle(GroupsOf(s.direct, i), g, attach));
    SendableList(GroupsOf(s.excluded, i));
  }

  /** Changing only `g` and keeping the exclusions passes every check but the owner's and the overlap. */
  lemma ItemSetsAccept(s: Tables, g: Uuid, i: Uuid, desired: set<Uuid>)
    requires Consistent(s) && g in s.groups && !s.groups[g]
    requires desired <= GroupsOf(s.direct, i) + {g}
    ensures ReplaceItemSets(s, i, desired, GroupsOf(s.excluded, i)).Done? <==>
      i in s.items && !s.items[i].retired && desired * GroupsOf(s.excluded, i) == {}
  {
    var current, kept := GroupsOf(s.direct, i), GroupsOf(s.excluded, i);
    forall h | h in current + kept ensures h in s.groups {
      GroupsOfMember(s.direct, i, h);
      GroupsOfMember(s.excluded, i, h);
    }
    assert GroupSetError(s, current + kept, desired + kept) == None;
    if i in s.items {
      forall h | h in kept ensures h in GroupsOf(s.provided, s.items[i].category) {
        GroupsOfMember(s.excluded, i, h);
        GroupsOfMember(s.provided, s.items[i].category, h);
      }
    }
  }

  /** When an item's direct list can be replaced by one that differs in `g` only. */
  lemma ItemAccepts(s: Tables, g: Uuid, i: Uuid, attach: bool)
    requires Consistent(s) && g in s.groups && !s.groups[g]
    ensures SetItem(s, g, i, attach).Done? <==>
      && i in s.items && !s.items[i].retired
      && Sendable(Toggle(GroupsOf(s.direct, i), g, attach)) && Sendable(GroupsOf(s.excluded, i))
      && Toggle(GroupsOf(s.direct, i), g, attach) * GroupsOf(s.excluded, i) == {}
    ensures SetItem(s, g, i, attach).Done? ==>
      SetItem(s, g, i, attach).tables ==
        ItemReplaced(s, i, Toggle(GroupsOf(s.direct, i), g, attach), GroupsOf(s.excluded, i))
  {
    SetItemSends(s, g, i, attach);
    ItemSetsAccept(s, g, i, Toggle(GroupsOf(s.direct, i), g, attach));
  }

  /** What an item holds once all categories and the items `q` are set. */
  lemma ItemReads(t: Tables, g: Uuid, p: set<Uuid>, cats: set<Uuid>, q: set<Uuid>, i: Uuid, items: set<Uuid>)
    requires i !in q
    ensures var s := Partial(t, g, p, cats, q, items);
      && GroupsOf(s.direct, i) == GroupsOf(t.direct, i)
      && GroupsOf(s.excluded, i) == KeptExclusions(t, g, p - cats, i)
  {
    var s := Partial(t, g, p, cats, q, items);
    forall h ensures h in GroupsOf(s.direct, i) <==> h in GroupsOf(t.direct, i) {
      GroupsOfMember(s.direct, i, h);
      GroupsOfMember(t.direct, i, h);
    }
    forall h ensures h in GroupsOf(s.excluded, i) <==> h in KeptExclusions(t, g, p - cats, i) {
      GroupsOfMember(s.excluded, i, h);
      GroupsOfMember(t.excluded, i, h);
    }
  }

  /** Only groups other than `g` can be direct and excluded at once for an affected item. */
  lemma RolesOverlap(t: Tables, g: Uuid, lost: set<Uuid>, i: Uuid, attach: bool)
    requires attach ==> Link(i, g) !in t.excluded
    ensures Toggle(GroupsOf(t.direct, i), g, attach) * KeptExclusions(t, g, lost, i) == {}
       <==> (GroupsOf(t.direct, i) - {g}) * GroupsOf(t.excluded, i) == {}
  {
    GroupsOfMember(t.excluded, i, g);
    var a := Toggle(GroupsOf(t.direct, i), g, attach) * KeptExclusions(t, g, lost, i);
    var b := (GroupsOf(t.direct, i) - {g}) * GroupsOf(t.excluded, i);
    assert forall h :: h in a <==> h in b;
  }

  /** One item step, once all categories and the items `q` are set. */
  lemma ItemStep(t: Tables, g: Uuid, p: set<Uuid>, cats: set<Uuid>, q: set<Uuid>, i: Uuid, items: set<Uuid>)
    requires g in t.groups && !t.groups[g]
    requires Consistent(Partial(t, g, p, cats, q, items))
    requires i !in q && (if i in items then Link(i, g) !in t.excluded else Link(i, g) in t.direct)
    ensures var s := Partial(t, g, p, cats, q, items);
      && (SetItem(s, g, i, i in items).Done? <==> ItemRowReady(t, g, i, i in items, KeptExclusions(t, g, p - cats, i)))
      && (SetItem(s, g, i, i in items).Done? ==>
          SetItem(s, g, i, i in items).tables == Partial(t, g, p, cats, q + {i}, items))
  {
    ItemReads(t, g, p, cats, q, i, items);
    GroupsOfMember(t.direct, i, g);
    ItemAccepts(Partial(t, g, p, cats, q, items), g, i, i in items);
    RolesOverlap(t, g, p - cats, i, i in items);
    ItemRowTables(t, g, p, cats, q, i, items);
  }

  lemma ItemRowTables(t: Tables, g: Uuid, p: set<Uuid>, cats: set<Uuid>, q: set<Uuid>, i: Uuid, items: set<Uuid>)
    requires i !in q
    ensures var s := Partial(t, g, p, cats, q, items);
      ItemReplaced(s, i, Toggle(GroupsOf(s.direct, i), g, i in items), GroupsOf(s.excluded, i))
      == Partial(t, g, p, cats, q + {i}, items)
  {
    var s := Partial(t, g, p, cats, q, items);
    var current := GroupsOf(s.direct, i);
    var desired := Toggle(current, g, i in items);
    RewireSame(s.excluded, i);
    var a, b := Rewired(s.direct, i, desired), Partial(t, g, p, cats, q + {i}, items).direct;
    forall l ensures l in a <==> l in b {
      GroupsOfMember(s.direct, i, l.group);
      assert l == Link(l.owner, l.group);
      assert l in LinksTo((q + {i}) * items, g) <==> l.group == g && l.owner in (q + {i}) * items;
      assert l in LinksTo((q + {i}) - items, g) <==> l.group == g && l.owner in (q + {i}) - items;
      assert l in LinksTo(q * items, g) <==> l.group == g && l.owner in q * items;
      assert l in LinksTo(q - items, g) <==> l.group == g && l.owner in q - items;
      assert l in LinksFrom(i, desired) <==> l.owner == i && l.group in desired;
      assert l in LinksFrom(i, current) <==> l.owner == i && l.group in current;
    }
    assert a == b;
  }

  lemma PartialConsistent(t: Tables, g: Uuid, p: set<Uuid>, cats: set<Uuid>, q: set<Uuid>, items: set<Uuid>)
    requires Consistent(t) && g in t.groups && items <= t.items.Keys
    requires Consistent(Partial(t, g, p, cats, {}, {}))
    ensures Consistent(Partial(t, g, p, cats, q, items))
  {
    var a, b := Partial(t, g, p, cats, {}, {}), Partial(t, g, p, cats, q, items);
    assert a.provided == b.provided && a.excluded == b.excluded;
  }

  /** What the caller of the row-wise commands can check beforehand on every affected owner. */
  ghost predicate RowsReady(t: Tables, g: Uuid, itemIDs: set<Uuid>, catIDs: set<Uuid>) {
    var curItems, curCats := OwnersOf(t.direct, g), OwnersOf(t.provided, g);
    && (forall c :: c in Affected(curCats, catIDs) ==> CategoryRowReady(t, g, c, c in catIDs))
    && (forall i :: i in Affected(curItems, itemIDs) ==>
         ItemRowReady(t, g, i, i in itemIDs, KeptExclusions(t, g, curCats - catIDs, i)))
  }

  /**
   The column-wise command refines the row-wise ones. When it succeeds, the
   row-wise run over the affected owners, in any order, succeeds exactly when
   every affected row is ready (its owner not retired, its lists short enough
   to send, its direct and excluded groups disjoint), and then it ends in the
   same tables.
   */
  lemma ColumnRefinesRows(t: Tables, g: Uuid, itemIDs: seq<Uuid>, categoryIDs: seq<Uuid>, cs: seq<Uuid>, its: seq<Uuid>)
    requires Consistent(t)
    requires ReplaceAssignments(t, g, itemIDs, categoryIDs).Done?
    requires Distinct(cs) && Elements(cs) == Affected(OwnersOf(t.provided, g), Elements(categoryIDs))
    requires Distinct(its) && Elements(its) == Affected(OwnersOf(t.direct, g), Elements(itemIDs))
    ensures var rows := RowWise(t, g, cs, Elements(categoryIDs), its, Elements(itemIDs));
      && (rows.Done? <==> RowsReady(t, g, Elements(itemIDs), Elements(categoryIDs)))
      && (rows.Done? ==> rows.tables == ReplaceAssignments(t, g, itemIDs, categoryIDs).tables)
  {
    var items, cats := Elements(itemIDs), Elements(categoryIDs);
    var p, q := Elements(cs), Elements(its);
    PartialIsReplaced(t, g, cats, items);
    LinkTheorems.CommandKeepsConsistent(t, CmdReplaceAssignments(g, itemIDs, categoryIDs));
    CategoriesDoneConsistent(t, g, p, cats, q, items);
    CategoriesFold(t, g, cs, cats);
    ItemsReady(t, g, itemIDs, categoryIDs, its);
    ItemsFold(t, g, p, cats, its, items);
    assert p - cats == OwnersOf(t.provided, g) - cats;
    assert forall c :: c in cs <==> c in p;
    assert forall i :: i in its <==> i in q;
  }

  lemma ItemsReady(t: Tables, g: Uuid, itemIDs: seq<Uuid>, categoryIDs: seq<Uuid>, its: seq<Uuid>)
    requires ReplaceAssignments(t, g, itemIDs, categoryIDs).Done?
    requires Elements(its) == Affected(OwnersOf(t.direct, g), Elements(itemIDs))
    ensures forall i :: i in its ==>
      if i in Elements(itemIDs) then Link(i, g) !in t.excluded else Link(i, g) in t.direct
  {
    var items, curItems := Elements(itemIDs), OwnersOf(t.direct, g);
    forall i | i in its ensures if i in items then Link(i, g) !in t.excluded else Link(i, g) in t.direct {
      assert i in Elements(its);
      OwnersOfMember(t.direct, i, g);
      OwnersOfMember(t.excluded, i, g);
      assert i !in (items - curItems) * OwnersOf(t.excluded, g);
    }
  }

  lemma CategoriesFold(t: Tables, g: Uuid, cs: seq<Uuid>, cats: set<Uuid>)
    requires References(t) && cats <= t.categories.Keys && g in t.groups && !t.groups[g]
    requires Distinct(cs) && Elements(cs) == Affected(OwnersOf(t.provided, g), cats)
    ensures var o := Fold(t, cs, CategoryCommand(g, cats));
      && (o.Done? <==> forall c :: c in cs ==> CategoryRowReady(t, g, c, c in cats))
      && (o.Done? ==> o.tables == Partial(t, g, Elements(cs), cats, {}, {}))
  {
    var step := CategoryCommand(g, cats);
    var reached := (p: set<Uuid>) => Partial(t, g, p, cats, {}, {});
    var ready := (c: Uuid) => CategoryRowReady(t, g, c, c in cats);
    forall p, c | c in cs && c !in p ensures StepOk(step, reached, ready, p, c) {
      assert c in Elements(cs);
      OwnersOfMember(t.provided, c, g);
      CategoryStep(t, g, p, c, cats);
    }
    PartialNone(t, g, cats);
    FoldSteps(step, reached, ready, {}, cs);
    assert {} + Elements(cs) == Elements(cs);
  }

  lemma ItemsFold(t: Tables, g: Uuid, p: set<Uuid>, cats: set<Uuid>, its: seq<Uuid>, items: set<Uuid>)
    requires Consistent(t) && g in t.groups && !t.groups[g] && items <= t.items.Keys
    requires Consistent(Partial(t, g, p, cats, {}, {}))
    requires Distinct(its)
    requires forall i :: i in its ==> if i in items then Link(i, g) !in t.excluded else Link(i, g) in t.direct
    ensures var o := Fold(Partial(t, g, p, cats, {}, {}), its, ItemCommand(g, items));
      && (o.Done? <==> forall i :: i in its ==> ItemRowReady(t, g, i, i in items, KeptExclusions(t, g, p - cats, i)))
      && (o.Done? ==> o.tables == Partial(t, g, p, cats, Elements(its), items))
  {
    var step := ItemCommand(g, items);
    var reached := (q: set<Uuid>) => Partial(t, g, p, cats, q, items);
    var ready := (i: Uuid) => ItemRowReady(t, g, i, i in items, KeptExclusions(t, g, p - cats, i));
    forall q, i | i in its && i !in q ensures StepOk(step, reached, ready, q, i) {
      PartialConsistent(t, g, p, cats, q, items);
      ItemStep(t, g, p, cats, q, i, items);
    }
    NoItemsSet(t, g, p, cats, items);
    FoldSteps(step, reached, ready, {}, its);
    assert {} + Elements(its) == Elements(its);
  }

  lemma PartialNone(t: Tables, g: Uuid, cats: set<Uuid>)
    ensures Partial(t, g, {}, cats, {}, {}) == t
  {
    var s := Partial(t, g, {}, cats, {}, {});
    assert s.provided == t.provided && s.direct == t.direct && s.excluded == t.excluded;
  }

  lemma NoItemsSet(t: Tables, g: Uuid, p: set<Uuid>, cats: set<Uuid>, items: set<Uuid>)
    ensures Partial(t, g, p, cats, {}, items) == Partial(t, g, p, cats, {}, {})
  {
    var a, b := Partial(t, g, p, cats, {}, items), Partial(t, g, p, cats, {}, {});
    assert {} * items == {} && {} - items == {};
    assert a.direct == b.direct;
  }

  lemma PartialIsReplaced(t: Tables, g: Uuid, cats: set<Uuid>, items: set<Uuid>)
    ensures Partial(t, g, Affected(OwnersOf(t.provided, g), cats), cats, Affected(OwnersOf(t.direct, g), items), items)
         == AssignmentsReplaced(t, g, items, cats)
  {
    var p, q := Affected(OwnersOf(t.provided, g), cats), Affected(OwnersOf(t.direct, g), items);
    var a, b := Partial(t, g, p, cats, q, items), AssignmentsReplaced(t, g, items, cats);
    OwnersPatched(t.provided, g, cats);
    OwnersPatched(t.direct, g, items);
    assert p - cats == OwnersOf(t.provided, g) - cats;
    assert a.provided == b.provided && a.direct == b.direct && a.excluded == b.excluded;
  }

  lemma OwnersPatched(rel: set<Link>, g: Uuid, desired: set<Uuid>)
    ensures var p := Affected(OwnersOf(rel, g), desired);
      (rel - LinksTo(p - desired, g)) + LinksTo(p * desired, g) == RewiredOwners(rel, g, desired)
  {
    var p := Affected(OwnersOf(rel, g), desired);
    assert p - desired == OwnersOf(rel, g) - desired;
    assert p * desired == desired - OwnersOf(rel, g);
    LinkStore.RewireOwnersByDifference(rel, g, desired);
  }

  lemma CategoriesDoneConsistent(t: Tables, g: Uuid, p: set<Uuid>, cats: set<Uuid>, q: set<Uuid>, items: set<Uuid>)
    requires Consistent(t) && Consistent(Partial(t, g, p, cats, q, items))
    ensures Consistent(Partial(t, g, p, cats, {}, {}))
  {
    var a, b := Partial(t, g, p, cats, {}, {}), Partial(t, g, p, cats, q, items);
    assert a.provided == b.provided && a.excluded == b.excluded;
    assert a.direct == t.direct;
  }
}
