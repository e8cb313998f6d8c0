/**
 Which error a command is refused with, by the rows and links it finds: what is
 missing, retired, not inherited or there already, and which of these is told first.
 */
module Refusals {
  import opened Prelude
  import opened Uuids
  import opened IdSets
  import opened Links
  import Availability
  import Staff

  // ---------- lists of ids ----------

  /** At most 500 ids, none of them empty, none repeated. */
  ghost predicate Readable(ids: seq<Uuid>) {
    |ids| <= 500 && (forall id :: id in ids ==> id != NIL) && forall i, j :: 0 <= i < j < |ids| ==> ids[i] != ids[j]
  }

  lemma ReadableIsUsable(ids: seq<Uuid>)
    ensures UsableIds(ids) <==> Readable(ids)
    ensures Normalized(ids).Ok? <==> Readable(ids)
  {
  }

  /** Why a list is not readable: its length, or else the first id that is empty or was there before. */
  lemma ListReasons(ids: seq<Uuid>)
    ensures Normalized(ids) == Err(TooMany) <==> |ids| > 500
    ensures Normalized(ids) == Err(EmptyId)
      <==> |ids| <= 500 && exists k :: 0 <= k < |ids| && Readable(ids[..k]) && ids[k] == NIL
    ensures forall x ::
      (Normalized(ids) == Err(Repeated(x))
       <==> |ids| <= 500 && x != NIL
            && exists k :: 0 <= k < |ids| && Readable(ids[..k]) && x in ids[..k] && ids[k] == x)
  {
    if |ids| <= 500 && !UsableIds(ids) {
      var i := RefusedAt(ids);
      BeforeFirst(ids, i);
      forall k | 0 <= k < |ids| && Readable(ids[..k]) && (ids[k] == NIL || ids[k] in ids[..k]) ensures k == i {
        BeforeFirst(ids, k);
        FirstRefusedUnique(ids, i, k);
      }
    }
    forall k | 0 <= k < |ids| && UsableIds(ids) ensures ids[k] != NIL && ids[k] !in ids[..k] {}
  }

  lemma BeforeFirst(ids: seq<Uuid>, k: nat)
    requires k < |ids| <= 500
    ensures Readable(ids[..k]) <==> forall j :: 0 <= j < k ==> ids[j] != NIL && ids[j] !in ids[..j]
  {
    var p := ids[..k];
    if Readable(p) {
      forall j | 0 <= j < k ensures ids[j] != NIL && ids[j] !in ids[..j] {
        assert p[j] in p && p[j] == ids[j];
        forall h | 0 <= h < j ensures ids[h] != ids[j] { assert p[h] == ids[h]; }
      }
    }
    if forall j :: 0 <= j < k ==> ids[j] != NIL && ids[j] !in ids[..j] {
      forall a, b | 0 <= a < b < k ensures p[a] != p[b] { assert ids[a] in ids[..b]; }
    }
  }

  /** A replacement is refused for its lists, before anything is read, exactly when one of them is not readable. */
  lemma ListRefusals(t: Tables, owner: Uuid, a: seq<Uuid>, b: seq<Uuid>)
    ensures var o := Apply(t, CmdReplaceItem(owner, a, b));
      o.Refused? && o.error.Invalid? <==> !(Readable(a) && Readable(b))
    ensures var o := Apply(t, CmdReplaceAssignments(owner, a, b));
      o.Refused? && o.error.Invalid? <==> !(Readable(a) && Readable(b))
    ensures var o := Apply(t, CmdReplaceCategory(owner, a)); o.Refused? && o.error.Invalid? <==> !Readable(a)
  {
    ReadableIsUsable(a);
    ReadableIsUsable(b);
  }

  // ---------- the row-wise replacements ----------

  ghost predicate ItemUses(t: Tables, i: Uuid, d: seq<Uuid>, e: seq<Uuid>, g: Uuid) {
    g in d || g in e || Link(i, g) in t.direct || Link(i, g) in t.excluded
  }

  /** The group is wanted and the item has no link to it yet, of either kind. */
  ghost predicate ItemAdds(t: Tables, i: Uuid, d: seq<Uuid>, e: seq<Uuid>, g: Uuid) {
    (g in d || g in e) && Link(i, g) !in t.direct && Link(i, g) !in t.excluded
  }

  /**
   Replacing an item's groups: a group in both lists, then a missing or retired item, then
   a group without a row, then a retired group it would add, then an exclusion of a group
   the category does not provide.
   */
  lemma ReplaceItemRefusals(t: Tables, i: Uuid, d: seq<Uuid>, e: seq<Uuid>)
    requires Readable(d) && Readable(e)
    ensures var o := Apply(t, CmdReplaceItem(i, d, e));
      var both := exists g :: g in d && g in e;
      var active := i in t.items && !t.items[i].retired;
      var missing := exists g :: ItemUses(t, i, d, e, g) && g !in t.groups;
      var retired := exists g :: ItemAdds(t, i, d, e, g) && g in t.groups && t.groups[g];
      var unprovided := i in t.items && exists g :: g in e && Link(t.items[i].category, g) !in t.provided;
      && (o == Refused(NotFound) <==> !both && (i !in t.items || (active && missing)))
      && (o == Refused(EntityRetired) <==> !both && i in t.items && (t.items[i].retired || (!missing && retired)))
      && (o == Refused(InvalidInheritance) <==> both || (active && !missing && !retired && unprovided))
      && (o.Done? <==> !both && active && !missing && !retired && !unprovided)
  {
    ReadableIsUsable(d);
    ReadableIsUsable(e);
    InBoth(d, e);
    ItemGroupConditions(t, i, d, e);
    ItemSetsRefused(t, i, Elements(d), Elements(e));
    if i in t.items { Unprovided(t.provided, t.items[i].category, Elements(e)); }
  }

  /** The same by sets. */
  lemma ItemSetsRefused(t: Tables, i: Uuid, d: set<Uuid>, e: set<Uuid>)
    ensures var o := ReplaceItemSets(t, i, d, e);
      var current := GroupsOf(t.direct, i) + GroupsOf(t.excluded, i);
      var active := i in t.items && !t.items[i].retired;
      var missing := exists g :: g in current + (d + e) && g !in t.groups;
      var retired := exists g :: g in (d + e) - current && g in t.groups && t.groups[g];
      var unprovided := i in t.items && !(e <= GroupsOf(t.provided, t.items[i].category));
      && (o == Refused(NotFound) <==> d * e == {} && (i !in t.items || (active && missing)))
      && (o == Refused(EntityRetired) <==> d * e == {} && i in t.items && (t.items[i].retired || (!missing && retired)))
      && (o == Refused(InvalidInheritance) <==> d * e != {} || (active && !missing && !retired && unprovided))
      && (o.Done? <==> d * e == {} && active && !missing && !retired && !unprovided)
  {
    GroupErrors(t, GroupsOf(t.direct, i) + GroupsOf(t.excluded, i), d + e);
  }

  lemma ItemGroupConditions(t: Tables, i: Uuid, d: seq<Uuid>, e: seq<Uuid>)
    ensures var current := GroupsOf(t.direct, i) + GroupsOf(t.excluded, i);
      var all := Elements(d) + Elements(e);
      && ((exists g :: g in current + all && g !in t.groups) <==> exists g :: ItemUses(t, i, d, e, g) && g !in t.groups)
      && ((exists g :: g in all - current && g in t.groups && t.groups[g])
          <==> exists g :: ItemAdds(t, i, d, e, g) && g in t.groups && t.groups[g])
  {
    var current, all := GroupsOf(t.direct, i) + GroupsOf(t.excluded, i), Elements(d) + Elements(e);
    forall g
      ensures g in current + all <==> ItemUses(t, i, d, e, g)
      ensures g in all - current <==> ItemAdds(t, i, d, e, g)
    {
      GroupsOfMember(t.direct, i, g);
      GroupsOfMember(t.excluded, i, g);
    }
  }

  lemma Overlap(a: set<Uuid>, b: set<Uuid>)
    ensures a * b != {} <==> exists g :: g in a && g in b
  {
    if g :| g in a && g in b { assert g in a * b; }
  }

  lemma InBoth(a: seq<Uuid>, b: seq<Uuid>)
    ensures Elements(a) * Elements(b) != {} <==> exists g :: g in a && g in b
  {
    if g :| g in a && g in b { assert g in Elements(a) * Elements(b); }
    if Elements(a) * Elements(b) != {} {
      var g :| g in Elements(a) * Elements(b);
      assert g in a && g in b;
    }
  }

  lemma Unprovided(rel: set<Link>, owner: Uuid, gs: set<Uuid>)
    ensures !(gs <= GroupsOf(rel, owner)) <==> exists g :: g in gs && Link(owner, g) !in rel
  {
    forall g ensures g in GroupsOf(rel, owner) <==> Link(owner, g) in rel { GroupsOfMember(rel, owner, g); }
  }

  /** What the group check of the replacements says: a group without a row first, then a retired one that is added. */
  lemma GroupErrors(t: Tables, current: set<Uuid>, desired: set<Uuid>)
    ensures var missing := exists g :: g in current + desired && g !in t.groups;
      var retired := exists g :: g in desired - current && g in t.groups && t.groups[g];
      GroupSetError(t, current, desired)
      == if missing then Some(NotFound) else if retired then Some(EntityRetired) else None
  {
    if !(current + desired <= t.groups.Keys) {
      var g :| g in current + desired && g !in t.groups.Keys;
    }
  }

  ghost predicate CategoryUses(t: Tables, c: Uuid, gs: seq<Uuid>, g: Uuid) {
    g in gs || Link(c, g) in t.provided
  }

  ghost predicate CategoryAdds(t: Tables, c: Uuid, gs: seq<Uuid>, g: Uuid) {
    g in gs && Link(c, g) !in t.provided
  }

  /**
   Replacing a category's groups: a missing or retired category, then a group without a
   row, then a retired group it would add.
   */
  lemma ReplaceCategoryRefusals(t: Tables, c: Uuid, gs: seq<Uuid>)
    requires Readable(gs)
    ensures var o := Apply(t, CmdReplaceCategory(c, gs));
      var active := c in t.categories && !t.categories[c];
      var missing := exists g :: CategoryUses(t, c, gs, g) && g !in t.groups;
      var retired := exists g :: CategoryAdds(t, c, gs, g) && g in t.groups && t.groups[g];
      && (o == Refused(NotFound) <==> c !in t.categories || (active && missing))
      && (o == Refused(EntityRetired) <==> c in t.categories && (t.categories[c] || (!missing && retired)))
      && (o.Done? <==> active && !missing && !retired)
  {
    ReadableIsUsable(gs);
    var current := GroupsOf(t.provided, c);
    forall g
      ensures g in current + Elements(gs) <==> CategoryUses(t, c, gs, g)
      ensures g in Elements(gs) - current <==> CategoryAdds(t, c, gs, g)
    {
      GroupsOfMember(t.provided, c, g);
    }
    GroupErrors(t, current, Elements(gs));
  }

  // ---------- the column-wise replacement ----------

  ghost predicate UsesOwner(rel: set<Link>, g: Uuid, wanted: seq<Uuid>, o: Uuid) {
    o in wanted || Link(o, g) in rel
  }

  ghost predicate AddsOwner(rel: set<Link>, g: Uuid, wanted: seq<Uuid>, o: Uuid) {
    o in wanted && Link(o, g) !in rel
  }

  /**
   Replacing a group's owners: a missing or retired group, then an item without a row, a
   retired item it would add, a category without a row, a retired category it would add,
   and last an item it would add that excludes the group.
   */
  lemma ReplaceAssignmentsRefusals(t: Tables, g: Uuid, its: seq<Uuid>, cats: seq<Uuid>)
    requires Readable(its) && Readable(cats)
    ensures var o := Apply(t, CmdReplaceAssignments(g, its, cats));
      var active := g in t.groups && !t.groups[g];
      var noItem := exists i :: UsesOwner(t.direct, g, its, i) && i !in t.items;
      var oldItem := exists i :: AddsOwner(t.direct, g, its, i) && i in t.items && t.items[i].retired;
      var noCategory := exists c :: UsesOwner(t.provided, g, cats, c) && c !in t.categories;
      var oldCategory := exists c :: AddsOwner(t.provided, g, cats, c) && c in t.categories && t.categories[c];
      var excluding := exists i :: AddsOwner(t.direct, g, its, i) && Link(i, g) in t.excluded;
      && (o == Refused(NotFound) <==> g !in t.groups || (active && (noItem || (!oldItem && noCategory))))
      && (o == Refused(EntityRetired)
          <==> g in t.groups && (t.groups[g] || (!noItem && (oldItem || (!noCategory && oldCategory)))))
      && (o == Refused(InvalidInheritance)
          <==> active && !noItem && !oldItem && !noCategory && !oldCategory && excluding)
      && (o.Done? <==> active && !noItem && !oldItem && !noCategory && !oldCategory && !excluding)
  {
    ReadableIsUsable(its);
    ReadableIsUsable(cats);
    ItemConditions(t, g, its);
    CategoryConditions(t, g, cats);
    AssignmentSetsRefused(t, g, Elements(its), Elements(cats));
  }

  /** The same by sets. */
  lemma AssignmentSetsRefused(t: Tables, g: Uuid, its: set<Uuid>, cats: set<Uuid>)
    ensures var o := ReplaceAssignmentsSets(t, g, its, cats);
      var curItems, curCats := OwnersOf(t.direct, g), OwnersOf(t.provided, g);
      var active := g in t.groups && !t.groups[g];
      var noItem, oldItem := !(curItems + its <= t.items.Keys), (its - curItems) * RetiredItems(t) != {};
      var noCategory := !(curCats + cats <= t.categories.Keys);
      var oldCategory := (cats - curCats) * RetiredCategories(t) != {};
      var excluding := (its - curItems) * OwnersOf(t.excluded, g) != {};
      && (o == Refused(NotFound) <==> g !in t.groups || (active && (noItem || (!oldItem && noCategory))))
      && (o == Refused(EntityRetired)
          <==> g in t.groups && (t.groups[g] || (!noItem && (oldItem || (!noCategory && oldCategory)))))
      && (o == Refused(InvalidInheritance)
          <==> active && !noItem && !oldItem && !noCategory && !oldCategory && excluding)
      && (o.Done? <==> active && !noItem && !oldItem && !noCategory && !oldCategory && !excluding)
  {
  }

  lemma ItemConditions(t: Tables, g: Uuid, its: seq<Uuid>)
    ensures var current := OwnersOf(t.direct, g);
      && ((exists i :: UsesOwner(t.direct, g, its, i) && i !in t.items) <==> !(current + Elements(its) <= t.items.Keys))
      && ((exists i :: AddsOwner(t.direct, g, its, i) && i in t.items && t.items[i].retired)
          <==> (Elements(its) - current) * RetiredItems(t) != {})
      && ((exists i :: AddsOwner(t.direct, g, its, i) && Link(i, g) in t.excluded)
          <==> (Elements(its) - current) * OwnersOf(t.excluded, g) != {})
  {
    var current := OwnersOf(t.direct, g);
    OwnersAre(t.direct, g, its);
    Missing(current + Elements(its), t.items.Keys);
    Overlap(Elements(its) - current, RetiredItems(t));
    Overlap(Elements(its) - current, OwnersOf(t.excluded, g));
    forall i ensures i in OwnersOf(t.excluded, g) <==> Link(i, g) in t.excluded { OwnersOfMember(t.excluded, i, g); }
  }

  lemma CategoryConditions(t: Tables, g: Uuid, cats: seq<Uuid>)
    ensures var current := OwnersOf(t.provided, g);
      && ((exists c :: UsesOwner(t.provided, g, cats, c) && c !in t.categories)
          <==> !(current + Elements(cats) <= t.categories.Keys))
      && ((exists c :: AddsOwner(t.provided, g, cats, c) && c in t.categories && t.categories[c])
          <==> (Elements(cats) - current) * RetiredCategories(t) != {})
  {
    var current := OwnersOf(t.provided, g);
    OwnersAre(t.provided, g, cats);
    Missing(current + Elements(cats), t.categories.Keys);
    Overlap(Elements(cats) - current, RetiredCategories(t));
  }

  lemma OwnersAre(rel: set<Link>, g: Uuid, wanted: seq<Uuid>)
    ensures forall o :: o in OwnersOf(rel, g) + Elements(wanted) <==> UsesOwner(rel, g, wanted, o)
    ensures forall o :: o in Elements(wanted) - OwnersOf(rel, g) <==> AddsOwner(rel, g, wanted, o)
  {
    forall o ensures o in OwnersOf(rel, g) <==> Link(o, g) in rel { OwnersOfMember(rel, o, g); }
  }

  lemma Missing(used: set<Uuid>, rows: set<Uuid>)
    ensures !(used <= rows) <==> exists x :: x in used && x !in rows
  {
  }

  // ---------- one link, one row ----------

  /** Neither row may be missing or retired, the owner is looked at first, and the link must be new. */
  lemma AttachRefusals(t: Tables, owner: Uuid, g: Uuid)
    ensures var o := Apply(t, CmdAttachItem(owner, g));
      var active, usable := owner in t.items && !t.items[owner].retired, g in t.groups && !t.groups[g];
      && (o == Refused(NotFound) <==> owner !in t.items || (active && g !in t.groups))
      && (o == Refused(EntityRetired) <==> (owner in t.items && !active) || (active && g in t.groups && !usable))
      && (o == Refused(Conflict) <==> active && usable && Link(owner, g) in t.direct)
      && (o.Done? <==> active && usable && Link(owner, g) !in t.direct)
    ensures var o := Apply(t, CmdAttachCategory(owner, g));
      var active, usable := owner in t.categories && !t.categories[owner], g in t.groups && !t.groups[g];
      && (o == Refused(NotFound) <==> owner !in t.categories || (active && g !in t.groups))
      && (o == Refused(EntityRetired) <==> (owner in t.categories && !active) || (active && g in t.groups && !usable))
      && (o == Refused(Conflict) <==> active && usable && Link(owner, g) in t.provided)
      && (o.Done? <==> active && usable && Link(owner, g) !in t.provided)
  {
  }

  /** Then the category must provide the group, and only then is the exclusion a conflict. */
  lemma ExcludeRefusals(t: Tables, i: Uuid, g: Uuid)
    ensures var o := Apply(t, CmdExclude(i, g));
      var active, usable := i in t.items && !t.items[i].retired, g in t.groups && !t.groups[g];
      var provided := i in t.items && Link(t.items[i].category, g) in t.provided;
      && (o == Refused(NotFound) <==> i !in t.items || (active && g !in t.groups))
      && (o == Refused(EntityRetired) <==> (i in t.items && !active) || (active && g in t.groups && !usable))
      && (o == Refused(InvalidInheritance) <==> active && usable && !provided)
      && (o == Refused(Conflict) <==> active && usable && provided && Link(i, g) in t.excluded)
      && (o.Done? <==> active && usable && provided && Link(i, g) !in t.excluded)
  {
  }

  /**
   Moving an item to where it is is accepted, even when that category is retired; elsewhere the target
   must be active.
   */
  lemma MoveRefusals(t: Tables, i: Uuid, c: Uuid)
    requires References(t)
    ensures var o := Apply(t, CmdMoveItem(i, c));
      var active := i in t.items && !t.items[i].retired;
      var away := i in t.items && t.items[i].category != c;
      && (o == Refused(NotFound) <==> i !in t.items || (active && away && c !in t.categories))
      && (o == Refused(EntityRetired)
          <==> (i in t.items && !active) || (active && away && c in t.categories && t.categories[c]))
      && (o.Done? <==> active && (away ==> c in t.categories && !t.categories[c]))
  {
  }

  // ---------- availability and staff ----------

  /** The row an availability entry is about, and the row that is locked before it: its parent, or the item itself. */
  ghost predicate Rows(m: Availability.Menu, c: Availability.Change, retired: bool) {
    match c.kind
    case ItemKind => c.id in m.items && (retired ==> m.items[c.id].retired)
    case SizeKind => c.id in m.sizes && m.sizes[c.id].parent in m.items
      && (retired ==> m.sizes[c.id].retired || m.items[m.sizes[c.id].parent].retired)
    case OptionKind => c.id in m.options && m.options[c.id].parent in m.groups
      && (retired ==> m.options[c.id].retired || m.groups[m.options[c.id].parent].retired)
    case OtherKind(_) => true
  }

  /** An entry is refused as missing when its row or its parent is, and otherwise as retired when either is. */
  lemma EntryRefusals(m: Availability.Menu, c: Availability.Change)
    requires !c.kind.OtherKind?
    ensures var r := Availability.Refusal(m, c);
      && (r == Some(Availability.NotFound) <==> !Rows(m, c, false))
      && (r == Some(Availability.EntityRetired) <==> Rows(m, c, true))
      && (r.None? <==> Rows(m, c, false) && !Rows(m, c, true))
  {
  }

  /** Staff changes: an unchanged flag, a missing member, an unexpected flag, and last the last-Manager rule. */
  lemma StaffRefusals(t: Staff.Table, cmd: Staff.Command)
    ensures match cmd
      case SetEnabled(x, enabled, expected) =>
        var r := Staff.Refusal(t, cmd);
        && (r == Some(Staff.Invalid) <==> enabled == expected)
        && (r == Some(Staff.NotFound) <==> enabled != expected && x !in t)
        && (r == Some(Staff.Conflict) <==> enabled != expected && x in t && t[x].enabled != expected)
        && (r == Some(Staff.LastManager)
            <==> enabled != expected && x in t && t[x].enabled == expected && OnlyManager(t, x))
      case SetRoles(x, roles) =>
        var r := Staff.Refusal(t, cmd);
        && (r == Some(Staff.NotFound) <==> x !in t)
        && (r == Some(Staff.LastManager) <==> x in t && OnlyManager(t, x) && Staff.Manager !in roles)
        && r != Some(Staff.Invalid) && r != Some(Staff.Conflict)
      case Create(x, _, _) => Staff.Refusal(t, cmd) == if x in t then Some(Staff.Conflict) else None
      case Bootstrap(x) =>
        Staff.Refusal(t, cmd)
        == if x in t || (exists y :: y in t && Staff.Manager in t[y].roles) then Some(Staff.Conflict) else None
  {
    match cmd {
      case SetEnabled(x, _, _) => OneManager(t, x);
      case SetRoles(x, _) => OneManager(t, x);
      case Create(_, _, _) =>
      case Bootstrap(_) =>
        if y :| y in t && Staff.Manager in t[y].roles { assert y in Staff.AllManagers(t); }
    }
  }

  /** The member is an enabled Manager and nobody else is. */
  ghost predicate OnlyManager(t: Staff.Table, x: Uuid) {
    forall y :: y in t && t[y].enabled && Staff.Manager in t[y].roles <==> y == x
  }

  lemma OneManager(t: Staff.Table, x: Uuid)
    ensures OnlyManager(t, x) <==> x in Staff.ActiveManagers(t) && |Staff.ActiveManagers(t)| <= 1
  {
    var managers := Staff.ActiveManagers(t);
    if x in managers {
      Staff.OneLess(managers, x);
      assert forall y :: y in managers <==> y in t && t[y].enabled && Staff.Manager in t[y].roles;
      if managers - {x} == {} { assert forall y :: y in managers ==> y !in managers - {x}; }
    }
    if OnlyManager(t, x) {
      assert x in managers;
      assert managers == {x};
    }
  }
}
