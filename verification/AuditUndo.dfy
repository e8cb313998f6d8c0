/**
 The audit trail undoes: from the tables after a command and its event alone, the tables
 before it come back, so an event says exactly what was there as well as what came.
 */
module AuditUndo {
  import opened Prelude
  import opened Uuids
  import opened IdSets
  import opened Links
  import opened LinkTheorems
  import LinkStore

  function Reverse(c: IdSetChange): IdSetChange {
    IdSetChange(c.removed, c.added)
  }

  /** Takes one audit event back, from its details alone. */
  ghost function Undo1(t: Tables, a: Audit): Tables {
    match a
    case CategoryCreated(c) => t.(categories := t.categories - {c})
    case GroupCreated(g) => t.(groups := t.groups - {g})
    case ItemCreated(i, _) => t.(items := t.items - {i})
    case CategoryRetired(c) => t.(categories := t.categories[c := false])
    case GroupRetired(g) => t.(groups := t.groups[g := false])
    case ItemRetired(i) => if i in t.items then t.(items := t.items[i := t.items[i].(retired := false)]) else t
    case ItemGroupAttached(i, g) => t.(direct := t.direct - {Link(i, g)})
    case CategoryGroupAttached(c, g) => t.(provided := t.provided - {Link(c, g)})
    case InheritedGroupExcluded(i, g) => t.(excluded := t.excluded - {Link(i, g)})
    case ItemGroupsReplaced(i, dc, ec) =>
      t.(direct := Patched(t.direct, i, Reverse(dc)), excluded := Patched(t.excluded, i, Reverse(ec)))
    case CategoryGroupsReplaced(c, gc, refs) =>
      t.(provided := Patched(t.provided, c, Reverse(gc)), excluded := t.excluded + Elements(refs))
    case GroupAssignmentsReplaced(g, ic, cc, refs) =>
      t.(provided := PatchedOwners(t.provided, g, Reverse(cc)),
         direct := PatchedOwners(t.direct, g, Reverse(ic)),
         excluded := t.excluded + Elements(refs))
    case ItemCategoryChanged(i, from, _, removed) =>
      if i in t.items then
        t.(items := t.items[i := t.items[i].(category := from)], excluded :=
           t.excluded + LinksFrom(i, Elements(removed)))
      else t
  }

  /** The last event first. */
  ghost function Undo(t: Tables, log: seq<Audit>): Tables
    decreases |log|
  {
    if log == [] then t else Undo(Undo1(t, log[|log| - 1]), log[..|log| - 1])
  }

  lemma PatchBack(rel: set<Link>, owner: Uuid, desired: set<Uuid>)
    ensures Patched(Rewired(rel, owner, desired), owner, Reverse(Change(GroupsOf(rel, owner), desired))) == rel
  {
    var current := GroupsOf(rel, owner);
    ListingFacts(desired - current);
    ListingFacts(current - desired);
    forall l: Link ensures l in Rewired(rel, owner, desired)
      <==> if l.owner == owner then l.group in desired else l in rel
    {
      GroupsOfMember(rel, owner, l.group);
    }
    forall l: Link | l.owner == owner ensures l in rel <==> l.group in current { GroupsOfMember(rel, owner, l.group); }
  }

  lemma PatchOwnersBack(rel: set<Link>, group: Uuid, desired: set<Uuid>)
    ensures PatchedOwners(RewiredOwners(rel, group, desired), group, Reverse(Change(OwnersOf(rel, group), desired)))
      == rel
  {
    var current := OwnersOf(rel, group);
    ListingFacts(desired - current);
    ListingFacts(current - desired);
    forall l: Link ensures l in RewiredOwners(rel, group, desired)
      <==> if l.group == group then l.owner in desired else l in rel
    {
      OwnersOfMember(rel, l.owner, group);
    }
    forall l: Link | l.group == group ensures l in rel <==> l.owner in current { OwnersOfMember(rel, l.owner, group); }
  }

  /** The event of the outcome, if any, leads back to where the command began; without one nothing changed. */
  ghost predicate Undone(t: Tables, o: Outcome) {
    o.Done? ==> t == if o.audit.Some? then Undo1(o.tables, o.audit.value) else o.tables
  }

  lemma ItemRowsBack(t: Tables, i: Uuid, d: set<Uuid>, e: set<Uuid>)
    ensures Undo1(ItemReplaced(t, i, d, e),
                  ItemGroupsReplaced(i, Change(GroupsOf(t.direct, i), d), Change(GroupsOf(t.excluded, i), e))) == t
  {
    PatchBack(t.direct, i, d);
    PatchBack(t.excluded, i, e);
    TwoBack(t, ItemReplaced(t, i, d, e), i, Change(GroupsOf(t.direct, i), d), Change(GroupsOf(t.excluded, i), e));
  }

  lemma TwoBack(t: Tables, t': Tables, i: Uuid, dc: IdSetChange, ec: IdSetChange)
    requires Patched(t'.direct, i, Reverse(dc)) == t.direct && Patched(t'.excluded, i, Reverse(ec)) == t.excluded
    requires t' == t.(direct := t'.direct, excluded := t'.excluded)
    ensures Undo1(t', ItemGroupsReplaced(i, dc, ec)) == t
  {
  }

  lemma ItemUndone(t: Tables, i: Uuid, d: set<Uuid>, e: set<Uuid>)
    ensures Undone(t, ReplaceItemSets(t, i, d, e))
  {
    match ReplaceItemSets(t, i, d, e) {
      case Done(_, Some(_)) => ItemRowsBack(t, i, d, e);
      case Done(_, None) => ItemRowsUnchanged(t, i, d, e);
      case Refused(_) =>
    }
  }

  lemma CategoryRowsBack(t: Tables, c: Uuid, gs: set<Uuid>)
    ensures var current := GroupsOf(t.provided, c);
      Undo1(CategoryReplaced(t, c, gs),
            CategoryGroupsReplaced(c, Change(current, gs), RefListing(CategoryExclusions(t, c, current - gs)))) == t
  {
    var dropped := CategoryExclusions(t, c, GroupsOf(t.provided, c) - gs);
    PatchBack(t.provided, c, gs);
    RefListingElements(dropped);
    DropBack(t.excluded, dropped);
  }

  lemma DropBack(rel: set<Link>, dropped: set<Link>)
    requires dropped <= rel
    ensures (rel - dropped) + dropped == rel
  {
  }

  lemma CategoryUndone(t: Tables, c: Uuid, gs: set<Uuid>)
    ensures Undone(t, ReplaceCategorySets(t, c, gs))
  {
    match ReplaceCategorySets(t, c, gs) {
      case Done(_, Some(_)) => CategoryRowsBack(t, c, gs);
      case Done(_, None) => CategoryRowsUnchanged(t, c, gs);
      case Refused(_) =>
    }
  }

  lemma AssignmentRowsBack(t: Tables, g: Uuid, its: set<Uuid>, cats: set<Uuid>)
    ensures var curItems, curCats := OwnersOf(t.direct, g), OwnersOf(t.provided, g);
      Undo1(AssignmentsReplaced(t, g, its, cats),
            GroupAssignmentsReplaced(g, Change(curItems, its), Change(curCats, cats),
                                     RefListing(GroupExclusions(t, curCats - cats, g)))) == t
  {
    var dropped := GroupExclusions(t, OwnersOf(t.provided, g) - cats, g);
    PatchOwnersBack(t.direct, g, its);
    PatchOwnersBack(t.provided, g, cats);
    RefListingElements(dropped);
    DropBack(t.excluded, dropped);
  }

  lemma AssignmentsUndone(t: Tables, g: Uuid, its: set<Uuid>, cats: set<Uuid>)
    ensures Undone(t, ReplaceAssignmentsSets(t, g, its, cats))
  {
    match ReplaceAssignmentsSets(t, g, its, cats) {
      case Done(_, Some(_)) => AssignmentRowsBack(t, g, its, cats);
      case Done(_, None) => AssignmentRowsUnchanged(t, g, its, cats);
      case Refused(_) =>
    }
  }

  lemma OrphansBack(rel: set<Link>, i: Uuid, orphans: set<Uuid>)
    requires forall g :: g in orphans ==> Link(i, g) in rel
    ensures Elements(Listing(orphans)) == orphans
    ensures (rel - LinksFrom(i, orphans)) + LinksFrom(i, orphans) == rel
  {
    ListingFacts(orphans);
  }

  lemma MoveUndone(t: Tables, i: Uuid, c: Uuid)
    ensures Undone(t, MoveItem(t, i, c))
  {
    var orphans := Orphaned(t, i, c);
    forall g | g in orphans ensures Link(i, g) in t.excluded { GroupsOfMember(t.excluded, i, g); }
    OrphansBack(t.excluded, i, orphans);
    if i in t.items { assert t.items[i := t.items[i].(category := c)][i := t.items[i]] == t.items; }
  }

  /** Every command can be taken back with what it audits. */
  lemma CommandUndone(t: Tables, cmd: Command)
    ensures Undone(t, Apply(t, cmd))
  {
    match cmd {
      case CmdReplaceItem(i, d, e) => ItemUndone(t, i, Elements(d), Elements(e));
      case CmdReplaceCategory(c, gs) => CategoryUndone(t, c, Elements(gs));
      case CmdReplaceAssignments(g, its, cats) => AssignmentsUndone(t, g, Elements(its), Elements(cats));
      case CmdMoveItem(i, c) => MoveUndone(t, i, c);
      case _ => RowUndone(t, cmd);
    }
  }

  lemma RowUndone(t: Tables, cmd: Command)
    requires !cmd.CmdReplaceItem? && !cmd.CmdReplaceCategory? && !cmd.CmdReplaceAssignments? && !cmd.CmdMoveItem?
    ensures Undone(t, Apply(t, cmd))
  {
    match cmd {
      case CmdCreateCategory(c) => if c !in t.categories { assert t.categories[c := false] - {c} == t.categories; }
      case CmdCreateGroup(g) => if g !in t.groups { assert t.groups[g := false] - {g} == t.groups; }
      case CmdCreateItem(i, c) => if i !in t.items { assert t.items[i := ItemRow(c, false)] - {i} == t.items; }
      case CmdRetireCategory(c) =>
        if ActiveCategory(t, c) { assert t.categories[c := true][c := false] == t.categories; }
      case CmdRetireGroup(g) => if ActiveGroup(t, g) { assert t.groups[g := true][g := false] == t.groups; }
      case CmdRetireItem(i) =>
        if ActiveItem(t, i) {
          assert t.items[i := t.items[i].(retired := true)][i := t.items[i].(retired := false)] == t.items;
        }
      case CmdAttachItem(i, g) =>
        if Link(i, g) !in t.direct { assert (t.direct + {Link(i, g)}) - {Link(i, g)} == t.direct; }
      case CmdAttachCategory(c, g) =>
        if Link(c, g) !in t.provided { assert (t.provided + {Link(c, g)}) - {Link(c, g)} == t.provided; }
      case CmdExclude(i, g) =>
        if Link(i, g) !in t.excluded { assert (t.excluded + {Link(i, g)}) - {Link(i, g)} == t.excluded; }
      case _ =>
    }
  }

  lemma {:induction false} UndoAppend(t: Tables, a: seq<Audit>, b: seq<Audit>)
    ensures Undo(t, a + b) == Undo(Undo(t, b), a)
    decreases |b|
  {
    if b == [] {
      assert a + b == a;
    } else {
      var n := |b| - 1;
      assert (a + b)[..|a + b| - 1] == a + b[..n];
      UndoAppend(Undo1(t, b[n]), a, b[..n]);
    }
  }

  /** Taking back the audit events of a whole run, last first, leads from its end to its start. */
  lemma {:induction false} RunUndone(t: Tables, cmds: seq<Command>)
    ensures Undo(Run(t, cmds).0, Run(t, cmds).1) == t
    decreases |cmds|
  {
    if cmds != [] {
      var o := Apply(t, cmds[0]);
      var next := LinkStore.After(o, t);
      RunUndone(next, cmds[1..]);
      UndoAppend(Run(t, cmds).0, LinkStore.Events(o), Run(next, cmds[1..]).1);
      CommandUndone(t, cmds[0]);
      OneUndone(t, o);
    }
  }

  lemma OneUndone(t: Tables, o: Outcome)
    requires Undone(t, o)
    ensures Undo(LinkStore.After(o, t), LinkStore.Events(o)) == t
  {
    if o.Done? && o.audit.Some? {
      assert [o.audit.value][..0] == [];
      assert Undo(Undo1(o.tables, o.audit.value), []) == t;
    }
  }
}
