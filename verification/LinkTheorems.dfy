/**
 What the link commands promise: over one command, over whole runs, and between the row-wise and
 column-wise forms.
 */
module LinkTheorems {
  import opened Prelude
  import opened Ordering
  import opened Uuids
  import opened IdSets
  import opened Links
  import LinkStore

  // ---------- consistency over runs ----------

  /** Every command keeps the foreign keys and the exclusion invariant of ADR-059. */
  lemma CommandKeepsConsistent(t: Tables, cmd: Command)
    requires Consistent(t) && Apply(t, cmd).Done?
    ensures Consistent(Apply(t, cmd).tables)
  {
    var t' := Apply(t, cmd).tables;
    match cmd {
      case CmdReplaceItem(i, d, e) => ItemReplacementKeepsConsistent(t, i, Elements(d), Elements(e));
      case CmdReplaceCategory(c, gs) => CategoryReplacementKeepsConsistent(t, c, Elements(gs));
      case CmdReplaceAssignments(g, its, cats) => AssignmentsKeepConsistent(t, g, Elements(its), Elements(cats));
      case CmdMoveItem(i, c) => MoveKeepsConsistent(t, i, c);
      case _ =>
    }
  }

  lemma ItemReplacementKeepsConsistent(t: Tables, item: Uuid, d: set<Uuid>, e: set<Uuid>)
    requires Consistent(t) && ReplaceItemSets(t, item, d, e).Done?
    ensures Consistent(ReplaceItemSets(t, item, d, e).tables)
  {
    var t' := ItemReplaced(t, item, d, e);
    forall l | l in t'.excluded ensures Link(t'.items[l.owner].category, l.group) in t'.provided {
      if l !in t.excluded {
        assert l.group in e && l.owner == item;
        GroupsOfMember(t.provided, t.items[item].category, l.group);
      }
    }
  }

  lemma CategoryReplacementKeepsConsistent(t: Tables, category: Uuid, gs: set<Uuid>)
    requires Consistent(t) && ReplaceCategorySets(t, category, gs).Done?
    ensures Consistent(ReplaceCategorySets(t, category, gs).tables)
  {
    var t' := CategoryReplaced(t, category, gs);
    forall l | l in t'.excluded ensures Link(t'.items[l.owner].category, l.group) in t'.provided {
      var c := t.items[l.owner].category;
      assert Link(c, l.group) in t.provided;
      if c == category {
        GroupsOfMember(t.provided, category, l.group);
        assert l.group in gs;
      }
    }
  }

  lemma AssignmentsKeepConsistent(t: Tables, group: Uuid, its: set<Uuid>, cats: set<Uuid>)
    requires Consistent(t) && ReplaceAssignmentsSets(t, group, its, cats).Done?
    ensures Consistent(ReplaceAssignmentsSets(t, group, its, cats).tables)
  {
    var t' := AssignmentsReplaced(t, group, its, cats);
    forall l | l in t'.excluded ensures Link(t'.items[l.owner].category, l.group) in t'.provided {
      var c := t.items[l.owner].category;
      assert Link(c, l.group) in t.provided;
      if l.group == group {
        OwnersOfMember(t.provided, c, group);
        assert c in cats;
      }
    }
  }

  lemma MoveKeepsConsistent(t: Tables, item: Uuid, category: Uuid)
    requires Consistent(t) && MoveItem(t, item, category).Done?
    ensures Consistent(MoveItem(t, item, category).tables)
  {
    var t' := MoveItem(t, item, category).tables;
    forall l | l in t'.excluded ensures Link(t'.items[l.owner].category, l.group) in t'.provided {
      if l.owner == item {
        GroupsOfMember(t.excluded, item, l.group);
        GroupsOfMember(t.provided, category, l.group);
      }
    }
  }

  /** A serial run: refused commands change nothing, the others write their audit event. */
  ghost function Run(t: Tables, cmds: seq<Command>): (r: (Tables, seq<Audit>))
    decreases |cmds|
  {
    if cmds == [] then (t, [])
    else
      var o := Apply(t, cmds[0]);
      var rest := Run(LinkStore.After(o, t), cmds[1..]);
      (rest.0, LinkStore.Events(o) + rest.1)
  }

  /** In every state a serial run from consistent tables reaches, exclusions are provided. */
  lemma {:induction false} RunKeepsConsistent(t: Tables, cmds: seq<Command>)
    requires Consistent(t)
    ensures Consistent(Run(t, cmds).0)
    decreases |cmds|
  {
    if cmds != [] {
      var o := Apply(t, cmds[0]);
      if o.Done? { CommandKeepsConsistent(t, cmds[0]); }
      RunKeepsConsistent(LinkStore.After(o, t), cmds[1..]);
    }
  }

  // ---------- the audit trail rebuilds the tables ----------

  /** One owner's links after a recorded change. */
  ghost function Patched(rel: set<Link>, owner: Uuid, c: IdSetChange): set<Link> {
    (rel - LinksFrom(owner, Elements(c.removed))) + LinksFrom(owner, Elements(c.added))
  }

  /** One group's owners after a recorded change. */
  ghost function PatchedOwners(rel: set<Link>, group: Uuid, c: IdSetChange): set<Link> {
    (rel - LinksTo(Elements(c.removed), group)) + LinksTo(Elements(c.added), group)
  }

  /** Replays one audit event, from its details alone. */
  ghost function Replay1(t: Tables, a: Audit): Tables {
    match a
    case CategoryCreated(c) => t.(categories := t.categories[c := false])
    case GroupCreated(g) => t.(groups := t.groups[g := false])
    case ItemCreated(i, c) => t.(items := t.items[i := ItemRow(c, false)])
    case CategoryRetired(c) => t.(categories := t.categories[c := true])
    case GroupRetired(g) => t.(groups := t.groups[g := true])
    case ItemRetired(i) => if i in t.items then t.(items := t.items[i := t.items[i].(retired := true)]) else t
    case ItemGroupAttached(i, g) => t.(direct := t.direct + {Link(i, g)})
    case CategoryGroupAttached(c, g) => t.(provided := t.provided + {Link(c, g)})
    case InheritedGroupExcluded(i, g) => t.(excluded := t.excluded + {Link(i, g)})
    case ItemGroupsReplaced(i, dc, ec) =>
      t.(direct := Patched(t.direct, i, dc), excluded := Patched(t.excluded, i, ec))
    case CategoryGroupsReplaced(c, gc, refs) =>
      t.(provided := Patched(t.provided, c, gc), excluded := t.excluded - Elements(refs))
    case GroupAssignmentsReplaced(g, ic, cc, refs) =>
      t.(provided := PatchedOwners(t.provided, g, cc),
         direct := PatchedOwners(t.direct, g, ic),
         excluded := t.excluded - Elements(refs))
    case ItemCategoryChanged(i, _, to, removed) =>
      if i in t.items then
        t.(items := t.items[i := t.items[i].(category := to)],
           excluded := t.excluded - LinksFrom(i, Elements(removed)))
      else t
  }

  ghost function Replay(t: Tables, log: seq<Audit>): Tables
    decreases |log|
  {
    if log == [] then t else Replay(Replay1(t, log[0]), log[1..])
  }

  lemma {:induction false} ReplayAppend(t: Tables, a: seq<Audit>, b: seq<Audit>)
    ensures Replay(t, a + b) == Replay(Replay(t, a), b)
    decreases |a|
  {
    if a == [] {
      assert a + b == b;
    } else {
      assert (a + b)[1..] == a[1..] + b;
      ReplayAppend(Replay1(t, a[0]), a[1..], b);
    }
  }

  /**
   The event says exactly what changed: replaying it gives the new tables, and none is written exactly
   when nothing changed.
   */
  ghost predicate Audited(t: Tables, o: Outcome) {
    o.Done? ==>
      && (o.audit.Some? ==> Replay1(t, o.audit.value) == o.tables)
      && (o.audit.None? <==> o.tables == t)
  }

  /** The recorded change of one owner's set patches the relation as the replacement did. */
  lemma PatchIsRewire(rel: set<Link>, owner: Uuid, desired: set<Uuid>)
    ensures Patched(rel, owner, Change(GroupsOf(rel, owner), desired)) == Rewired(rel, owner, desired)
    ensures Rewired(rel, owner, desired) == rel <==> GroupsOf(rel, owner) == desired
  {
    LinkStore.ChangeFacts(GroupsOf(rel, owner), desired);
    LinkStore.RewireByDifference(rel, owner, desired);
    RewiredGroups(rel, owner, desired);
    RewireSame(rel, owner);
  }

  lemma PatchIsRewireOwners(rel: set<Link>, group: Uuid, desired: set<Uuid>)
    ensures PatchedOwners(rel, group, Change(OwnersOf(rel, group), desired)) == RewiredOwners(rel, group, desired)
    ensures RewiredOwners(rel, group, desired) == rel <==> OwnersOf(rel, group) == desired
  {
    LinkStore.ChangeFacts(OwnersOf(rel, group), desired);
    LinkStore.RewireOwnersByDifference(rel, group, desired);
    RewiredOwnersExact(rel, group, desired);
    RewireOwnersSame(rel, group);
  }

  lemma RefListingElements(s: set<Link>)
    ensures Elements(RefListing(s)) == s
  {
    LinkStore.RefKeysInjective(s);
    ListingByFacts(RefKey, s);
  }

  lemma ItemRowsAudited(t: Tables, i: Uuid, d: set<Uuid>, e: set<Uuid>)
    ensures Replay1(t, ItemGroupsReplaced(i, Change(GroupsOf(t.direct, i), d), Change(GroupsOf(t.excluded, i), e)))
         == ItemReplaced(t, i, d, e)
  {
    PatchIsRewire(t.direct, i, d);
    PatchIsRewire(t.excluded, i, e);
  }

  lemma ItemRowsUnchanged(t: Tables, i: Uuid, d: set<Uuid>, e: set<Uuid>)
    ensures ItemReplaced(t, i, d, e) == t <==> GroupsOf(t.direct, i) == d && GroupsOf(t.excluded, i) == e
  {
    PatchIsRewire(t.direct, i, d);
    PatchIsRewire(t.excluded, i, e);
    assert ItemReplaced(t, i, d, e) == t
      <==> Rewired(t.direct, i, d) == t.direct && Rewired(t.excluded, i, e) == t.excluded;
  }

  lemma ItemReplacementAudited(t: Tables, i: Uuid, d: set<Uuid>, e: set<Uuid>)
    ensures Audited(t, ReplaceItemSets(t, i, d, e))
  {
    ItemRowsAudited(t, i, d, e);
    ItemRowsUnchanged(t, i, d, e);
  }

  lemma CategoryRowsAudited(t: Tables, c: Uuid, gs: set<Uuid>)
    ensures var current := GroupsOf(t.provided, c);
      Replay1(t, CategoryGroupsReplaced(c, Change(current, gs), RefListing(CategoryExclusions(t, c, current - gs))))
      == CategoryReplaced(t, c, gs)
  {
    PatchIsRewire(t.provided, c, gs);
    RefListingElements(CategoryExclusions(t, c, GroupsOf(t.provided, c) - gs));
  }

  lemma CategoryRowsUnchanged(t: Tables, c: Uuid, gs: set<Uuid>)
    ensures CategoryReplaced(t, c, gs) == t <==> GroupsOf(t.provided, c) == gs
  {
    PatchIsRewire(t.provided, c, gs);
    var dropped := CategoryExclusions(t, c, GroupsOf(t.provided, c) - gs);
    if GroupsOf(t.provided, c) == gs {
      assert GroupsOf(t.provided, c) - gs == {};
      assert dropped == {};
      assert t.excluded - dropped == t.excluded;
    }
  }

  lemma CategoryReplacementAudited(t: Tables, c: Uuid, gs: set<Uuid>)
    ensures Audited(t, ReplaceCategorySets(t, c, gs))
  {
    match ReplaceCategorySets(t, c, gs) {
      case Done(_, Some(_)) => CategoryRowsAudited(t, c, gs); CategoryRowsUnchanged(t, c, gs);
      case Done(_, None) => CategoryRowsUnchanged(t, c, gs);
      case Refused(_) =>
    }
  }

  lemma AssignmentRowsAudited(t: Tables, g: Uuid, its: set<Uuid>, cats: set<Uuid>)
    ensures Replay1(t, GroupAssignmentsReplaced(g, Change(OwnersOf(t.direct, g), its),
                                                Change(OwnersOf(t.provided, g), cats),
                                                RefListing(GroupExclusions(t, OwnersOf(t.provided, g) - cats, g))))
         == AssignmentsReplaced(t, g, its, cats)
  {
    PatchIsRewireOwners(t.direct, g, its);
    PatchIsRewireOwners(t.provided, g, cats);
    RefListingElements(GroupExclusions(t, OwnersOf(t.provided, g) - cats, g));
  }

  lemma AssignmentRowsUnchanged(t: Tables, g: Uuid, its: set<Uuid>, cats: set<Uuid>)
    ensures AssignmentsReplaced(t, g, its, cats) == t
      <==> OwnersOf(t.direct, g) == its && OwnersOf(t.provided, g) == cats
  {
    PatchIsRewireOwners(t.direct, g, its);
    PatchIsRewireOwners(t.provided, g, cats);
    var dropped := GroupExclusions(t, OwnersOf(t.provided, g) - cats, g);
    if OwnersOf(t.provided, g) == cats {
      assert OwnersOf(t.provided, g) - cats == {};
      assert dropped == {};
      assert t.excluded - dropped == t.excluded;
    }
    assert AssignmentsReplaced(t, g, its, cats) == t <==>
      RewiredOwners(t.direct, g, its) == t.direct && RewiredOwners(t.provided, g, cats) == t.provided
        && t.excluded - dropped == t.excluded;
  }

  lemma AssignmentsAudited(t: Tables, g: Uuid, its: set<Uuid>, cats: set<Uuid>)
    ensures Audited(t, ReplaceAssignmentsSets(t, g, its, cats))
  {
    match ReplaceAssignmentsSets(t, g, its, cats) {
      case Done(_, Some(_)) => AssignmentRowsAudited(t, g, its, cats); AssignmentRowsUnchanged(t, g, its, cats);
      case Done(_, None) => AssignmentRowsUnchanged(t, g, its, cats);
      case Refused(_) =>
    }
  }

  lemma MoveAudited(t: Tables, i: Uuid, c: Uuid)
    ensures Audited(t, MoveItem(t, i, c))
  {
    ListingFacts(Orphaned(t, i, c));
    var o := MoveItem(t, i, c);
    if o.Done? && o.audit.Some? {
      assert o.tables.items[i].category != t.items[i].category;
    }
  }

  /** Every command tells the audit trail exactly what it changed. */
  lemma CommandAudited(t: Tables, cmd: Command)
    ensures Audited(t, Apply(t, cmd))
  {
    match cmd {
      case CmdReplaceItem(i, d, e) => ItemReplacementAudited(t, i, Elements(d), Elements(e));
      case CmdReplaceCategory(c, gs) => CategoryReplacementAudited(t, c, Elements(gs));
      case CmdReplaceAssignments(g, its, cats) => AssignmentsAudited(t, g, Elements(its), Elements(cats));
      case CmdMoveItem(i, c) => MoveAudited(t, i, c);
      case CmdRetireItem(i) =>
        var o := Apply(t, cmd);
        if o.Done? { assert o.tables.items[i] != t.items[i]; }
      case CmdRetireCategory(c) =>
        var o := Apply(t, cmd);
        if o.Done? { assert o.tables.categories[c] != t.categories[c]; }
      case CmdRetireGroup(g) =>
        var o := Apply(t, cmd);
        if o.Done? { assert o.tables.groups[g] != t.groups[g]; }
      case _ =>
    }
  }

  /** After a rewire an owner has exactly the desired groups, and every other owner what it had. */
  lemma RewiredGroups(rel: set<Link>, owner: Uuid, desired: set<Uuid>)
    ensures GroupsOf(Rewired(rel, owner, desired), owner) == desired
    ensures forall o :: o != owner ==> GroupsOf(Rewired(rel, owner, desired), o) == GroupsOf(rel, o)
  {
    var r := Rewired(rel, owner, desired);
    forall g ensures g in GroupsOf(r, owner) <==> g in desired {
      GroupsOfMember(r, owner, g);
      GroupsOfMember(rel, owner, g);
    }
    forall o | o != owner ensures GroupsOf(r, o) == GroupsOf(rel, o) {
      forall g ensures g in GroupsOf(r, o) <==> g in GroupsOf(rel, o) {
        GroupsOfMember(r, o, g);
        GroupsOfMember(rel, o, g);
      }
    }
  }

  lemma RewiredOwnersExact(rel: set<Link>, group: Uuid, desired: set<Uuid>)
    ensures OwnersOf(RewiredOwners(rel, group, desired), group) == desired
    ensures forall g :: g != group ==> OwnersOf(RewiredOwners(rel, group, desired), g) == OwnersOf(rel, g)
  {
    var r := RewiredOwners(rel, group, desired);
    forall o ensures o in OwnersOf(r, group) <==> o in desired {
      OwnersOfMember(r, o, group);
      OwnersOfMember(rel, o, group);
    }
    forall g | g != group ensures OwnersOf(r, g) == OwnersOf(rel, g) {
      forall o ensures o in OwnersOf(r, g) <==> o in OwnersOf(rel, g) {
        OwnersOfMember(r, o, g);
        OwnersOfMember(rel, o, g);
      }
    }
  }

  lemma RewireSame(rel: set<Link>, owner: Uuid)
    ensures Rewired(rel, owner, GroupsOf(rel, owner)) == rel
  {
    forall l | l in LinksFrom(owner, GroupsOf(rel, owner)) ensures l in rel {
      GroupsOfMember(rel, owner, l.group);
    }
  }

  lemma RewireOwnersSame(rel: set<Link>, group: Uuid)
    ensures RewiredOwners(rel, group, OwnersOf(rel, group)) == rel
  {
    forall l | l in LinksTo(OwnersOf(rel, group), group) ensures l in rel {
      OwnersOfMember(rel, l.owner, group);
    }
  }

  /** Over any serial run, folding the emitted events over the starting tables rebuilds the final tables. */
  lemma {:induction false} AuditRebuilds(t: Tables, cmds: seq<Command>)
    ensures Replay(t, Run(t, cmds).1) == Run(t, cmds).0
    decreases |cmds|
  {
    if cmds != [] {
      var o := Apply(t, cmds[0]);
      var t1 := LinkStore.After(o, t);
      CommandAudited(t, cmds[0]);
      assert Replay(t, LinkStore.Events(o)) == t1 by {
        if LinkStore.Events(o) != [] {
          assert Replay(t, LinkStore.Events(o)) == Replay(Replay1(t, o.audit.value), LinkStore.Events(o)[1..]);
        }
      }
      AuditRebuilds(t1, cmds[1..]);
      ReplayAppend(t, LinkStore.Events(o), Run(t1, cmds[1..]).1);
    }
  }

  // ---------- each replacement is exact, local and idempotent ----------

  /**
   The item replacement stores exactly the requested sets, touches no other owner, and a second run
   changes nothing.
   */
  lemma ReplaceItemExact(t: Tables, item: Uuid, directIDs: seq<Uuid>, excludedIDs: seq<Uuid>)
    requires ReplaceItem(t, item, directIDs, excludedIDs).Done?
    ensures var t' := ReplaceItem(t, item, directIDs, excludedIDs).tables;
      && GroupsOf(t'.direct, item) == Elements(directIDs)
      && GroupsOf(t'.excluded, item) == Elements(excludedIDs)
      && (forall o :: o != item ==> GroupsOf(t'.direct, o) == GroupsOf(t.direct, o))
      && (forall o :: o != item ==> GroupsOf(t'.excluded, o) == GroupsOf(t.excluded, o))
      && t'.provided == t.provided && t'.items == t.items
      && ReplaceItem(t', item, directIDs, excludedIDs) == Done(t', None)
  {
    var d, e := Elements(directIDs), Elements(excludedIDs);
    var t' := ReplaceItem(t, item, directIDs, excludedIDs).tables;
    RewiredGroups(t.direct, item, d);
    RewiredGroups(t.excluded, item, e);
    ItemRowsUnchanged(t', item, d, e);
    assert GroupSetError(t', d + e, d + e) == None;
  }

  /** The exclusions an item keeps when `category` goes over to the groups `gs`. */
  ghost function KeptIn(t: Tables, category: Uuid, gs: set<Uuid>, item: Uuid): set<Uuid>
    requires item in t.items
  {
    if t.items[item].category == category then GroupsOf(t.excluded, item) - (GroupsOf(t.provided, category) - gs)
    else GroupsOf(t.excluded, item)
  }

  /**
   The category replacement stores exactly the requested set, drops only the exclusions it orphans, and
   is idempotent.
   */
  lemma ReplaceCategoryExact(t: Tables, category: Uuid, groupIDs: seq<Uuid>)
    requires ReplaceCategory(t, category, groupIDs).Done?
    ensures var t' := ReplaceCategory(t, category, groupIDs).tables;
      && GroupsOf(t'.provided, category) == Elements(groupIDs)
      && (forall c :: c != category ==> GroupsOf(t'.provided, c) == GroupsOf(t.provided, c))
      && (forall i :: i in t.items ==> GroupsOf(t'.excluded, i) == KeptIn(t, category, Elements(groupIDs), i))
      && t'.direct == t.direct && t'.items == t.items
      && ReplaceCategory(t', category, groupIDs) == Done(t', None)
  {
    var gs := Elements(groupIDs);
    var t' := ReplaceCategory(t, category, groupIDs).tables;
    RewiredGroups(t.provided, category, gs);
    RewireSame(t'.provided, category);
    assert GroupSetError(t', gs, gs) == None;
    assert CategoryExclusions(t', category, gs - gs) == {};
    assert CategoryReplaced(t', category, gs) == t';
    var removed := GroupsOf(t.provided, category) - gs;
    forall i | i in t.items ensures GroupsOf(t'.excluded, i) == KeptIn(t, category, gs, i) {
      forall g ensures g in GroupsOf(t'.excluded, i) <==>
          g in GroupsOf(t.excluded, i) && !(t.items[i].category == category && g in removed) {
        GroupsOfMember(t'.excluded, i, g);
        GroupsOfMember(t.excluded, i, g);
      }
    }
  }

  /** The column-wise replacement stores exactly the requested owners, touches no other group, and is idempotent. */
  lemma ReplaceAssignmentsExact(t: Tables, group: Uuid, itemIDs: seq<Uuid>, categoryIDs: seq<Uuid>)
    requires ReplaceAssignments(t, group, itemIDs, categoryIDs).Done?
    ensures var t' := ReplaceAssignments(t, group, itemIDs, categoryIDs).tables;
      && OwnersOf(t'.direct, group) == Elements(itemIDs)
      && OwnersOf(t'.provided, group) == Elements(categoryIDs)
      && (forall g :: g != group ==> OwnersOf(t'.direct, g) == OwnersOf(t.direct, g))
      && (forall g :: g != group ==> OwnersOf(t'.provided, g) == OwnersOf(t.provided, g))
      && (forall g :: g != group ==> OwnersOf(t'.excluded, g) == OwnersOf(t.excluded, g))
      && (forall i :: Link(i, group) in t'.excluded <==>
           && Link(i, group) in t.excluded
           && !(i in t.items && Link(t.items[i].category, group) in t.provided && t.items[i].category !in categoryIDs))
      && t'.items == t.items
      && ReplaceAssignments(t', group, itemIDs, categoryIDs) == Done(t', None)
  {
    var its, cats := Elements(itemIDs), Elements(categoryIDs);
    var t' := ReplaceAssignments(t, group, itemIDs, categoryIDs).tables;
    RewiredOwnersExact(t.direct, group, its);
    RewiredOwnersExact(t.provided, group, cats);
    AssignmentRowsUnchanged(t', group, its, cats);
    assert (its - its) * OwnersOf(t'.excluded, group) == {};
    forall g | g != group ensures OwnersOf(t'.excluded, g) == OwnersOf(t.excluded, g) {
      forall o ensures o in OwnersOf(t'.excluded, g) <==> o in OwnersOf(t.excluded, g) {
        OwnersOfMember(t'.excluded, o, g);
        OwnersOfMember(t.excluded, o, g);
      }
    }
  }

  // ---------- direct and excluded at once ----------

  /** The two commands that can make a group direct and excluded for one item, by the links they find. */
  ghost predicate MixesRoles(t: Tables, cmd: Command) {
    || (cmd.CmdAttachItem? && Link(cmd.item, cmd.group) in t.excluded)
    || (cmd.CmdExclude? && Link(cmd.item, cmd.group) in t.direct)
  }

  lemma ReplaceItemDisjoint(t: Tables, i: Uuid, d: set<Uuid>, e: set<Uuid>)
    requires DisjointRoles(t) && d * e == {}
    ensures DisjointRoles(ItemReplaced(t, i, d, e))
  {
    var t' := ItemReplaced(t, i, d, e);
    RewiredGroups(t.direct, i, d);
    RewiredGroups(t.excluded, i, e);
    forall l | l in t'.direct ensures l !in t'.excluded {
      if l.owner == i {
        GroupsOfMember(t'.direct, i, l.group);
        GroupsOfMember(t'.excluded, i, l.group);
        assert l.group !in d * e;
      }
    }
  }

  lemma ReplaceAssignmentsDisjoint(t: Tables, g: Uuid, its: set<Uuid>, cats: set<Uuid>)
    requires DisjointRoles(t) && (its - OwnersOf(t.direct, g)) * OwnersOf(t.excluded, g) == {}
    ensures DisjointRoles(AssignmentsReplaced(t, g, its, cats))
  {
    var t' := AssignmentsReplaced(t, g, its, cats);
    forall l | l in t'.direct ensures l !in t'.excluded {
      if l !in t.direct {
        OwnersOfMember(t.direct, l.owner, g);
        OwnersOfMember(t.excluded, l.owner, g);
        assert l.owner in its && l.group == g;
        assert l.owner !in (its - OwnersOf(t.direct, g)) * OwnersOf(t.excluded, g);
      }
    }
  }

  /** From disjoint roles, a successful command keeps them disjoint exactly when it is not one of those two. */
  lemma CommandKeepsDisjointRoles(t: Tables, cmd: Command)
    requires Consistent(t) && DisjointRoles(t) && Apply(t, cmd).Done?
    ensures DisjointRoles(Apply(t, cmd).tables) <==> !MixesRoles(t, cmd)
  {
    match cmd {
      case CmdReplaceItem(i, ds, es) => ReplaceItemDisjoint(t, i, Elements(ds), Elements(es));
      case CmdReplaceAssignments(g, its, cats) => ReplaceAssignmentsDisjoint(t, g, Elements(its), Elements(cats));
      case CmdAttachItem(i, g) => OneLinkDisjoint(t.direct, t.excluded, Link(i, g));
      case CmdExclude(i, g) => OneLinkDisjoint(t.excluded, t.direct, Link(i, g));
      case _ => OthersKeepDisjoint(t, cmd);
    }
  }

  lemma OthersKeepDisjoint(t: Tables, cmd: Command)
    requires DisjointRoles(t) && Apply(t, cmd).Done?
    requires !cmd.CmdReplaceItem? && !cmd.CmdReplaceAssignments? && !cmd.CmdAttachItem? && !cmd.CmdExclude?
    ensures DisjointRoles(Apply(t, cmd).tables) && !MixesRoles(t, cmd)
  {
    OthersAddNoRole(t, cmd);
  }

  lemma OneLinkDisjoint(a: set<Link>, b: set<Link>, l: Link)
    requires a !! b
    ensures a + {l} !! b <==> l !in b
  {
    assert l in b ==> l in (a + {l}) * b;
  }

  /** The commands that are not about an item's own links add none. */
  lemma OthersAddNoRole(t: Tables, cmd: Command)
    requires Apply(t, cmd).Done?
    requires !cmd.CmdReplaceItem? && !cmd.CmdReplaceAssignments? && !cmd.CmdAttachItem? && !cmd.CmdExclude?
    ensures Apply(t, cmd).tables.direct == t.direct && Apply(t, cmd).tables.excluded <= t.excluded
  {
  }

  lemma MenuBuilt(c: Uuid, g: Uuid, i: Uuid)
    ensures var t1 := EMPTY.(categories := map[c := false]);
      var t2 := t1.(groups := map[g := false]);
      var t3 := t2.(items := map[i := ItemRow(c, false)]);
      && Apply(EMPTY, CmdCreateCategory(c)) == Done(t1, Some(CategoryCreated(c)))
      && Apply(t1, CmdCreateGroup(g)) == Done(t2, Some(GroupCreated(g)))
      && Apply(t2, CmdCreateItem(i, c)) == Done(t3, Some(ItemCreated(i, c)))
      && Apply(t3, CmdAttachCategory(c, g)) == Done(t3.(provided := {Link(c, g)}), Some(CategoryGroupAttached(c, g)))
  {
    assert {} + {Link(c, g)} == {Link(c, g)};
  }

  /**
   ADR-059 says direct and excluded never mean both at once for one item and
   group. The plain attach and exclude commands break that: whatever the three
   ids, six commands from empty tables reach a state where it is false.
   */
  lemma AttachThenExcludeMixesRoles(c: Uuid, g: Uuid, i: Uuid)
    ensures var t := Run(EMPTY, [CmdCreateCategory(c), CmdCreateGroup(g), CmdCreateItem(i, c),
                                 CmdAttachCategory(c, g), CmdAttachItem(i, g), CmdExclude(i, g)]).0;
      Consistent(t) && Link(i, g) in t.direct && Link(i, g) in t.excluded
  {
    var cmds := [CmdCreateCategory(c), CmdCreateGroup(g), CmdCreateItem(i, c),
                 CmdAttachCategory(c, g), CmdAttachItem(i, g), CmdExclude(i, g)];
    var t4 := EMPTY.(categories := map[c := false], groups := map[g := false],
                     items := map[i := ItemRow(c, false)], provided := {Link(c, g)});
    var t5 := t4.(direct := {Link(i, g)});
    MenuRun(c, g, i, cmds);
    RunStep(t4, cmds[4..]);
    RunStep(t5, cmds[5..]);
    assert Apply(t4, CmdAttachItem(i, g)).tables == t5;
    assert Apply(t5, CmdExclude(i, g)).tables == t5.(excluded := {Link(i, g)});
    assert cmds[6..] == [];
  }

  /** A run that first builds a category with one group and one item. */
  lemma MenuRun(c: Uuid, g: Uuid, i: Uuid, cmds: seq<Command>)
    requires |cmds| >= 4
    requires cmds[0] == CmdCreateCategory(c) && cmds[1] == CmdCreateGroup(g)
    requires cmds[2] == CmdCreateItem(i, c) && cmds[3] == CmdAttachCategory(c, g)
    ensures Run(EMPTY, cmds).0 ==
      Run(EMPTY.(categories := map[c := false], groups := map[g := false], items := map[i := ItemRow(c, false)],
                 provided := {Link(c, g)}), cmds[4..]).0
  {
    var t1 := EMPTY.(categories := map[c := false]);
    var t2 := t1.(groups := map[g := false]);
    var t3 := t2.(items := map[i := ItemRow(c, false)]);
    MenuBuilt(c, g, i);
    RunStep(EMPTY, cmds);
    RunStep(t1, cmds[1..]);
    RunStep(t2, cmds[2..]);
    RunStep(t3, cmds[3..]);
  }

  lemma RunStep(t: Tables, cmds: seq<Command>)
    requires cmds != []
    ensures Run(t, cmds).0 == Run(LinkStore.After(Apply(t, cmds[0]), t), cmds[1..]).0
  {
  }

  // ---------- dropped exclusions never return ----------

  /**
   While the category does not provide a group, the group is effective for an item exactly when it is
   direct there.
   */
  lemma UnprovidedEffectiveIsDirect(t: Tables, item: Uuid, group: Uuid)
    requires Consistent(t) && item in t.items && Link(t.items[item].category, group) !in t.provided
    ensures group in Effective(t, item) <==> Link(item, group) in t.direct
    ensures Link(item, group) !in t.excluded
  {
    GroupsOfMember(t.direct, item, group);
    GroupsOfMember(t.provided, t.items[item].category, group);
  }

  /** No command both provides a group and excludes one or moves an item. */
  lemma ProvidingExcludesNothing(t: Tables, cmd: Command)
    requires Apply(t, cmd).Done?
    ensures var t' := Apply(t, cmd).tables;
      t'.provided == t.provided || (t'.excluded <= t.excluded && t'.items == t.items)
  {
  }

  /**
   Whatever command makes a category provide a group again, the group becomes effective for every item
   of the category.
   */
  lemma ProvidedAgainIsEffective(t: Tables, cmd: Command, category: Uuid, group: Uuid, item: Uuid)
    requires Consistent(t) && Apply(t, cmd).Done?
    requires Link(category, group) !in t.provided && Link(category, group) in Apply(t, cmd).tables.provided
    requires item in Apply(t, cmd).tables.items && Apply(t, cmd).tables.items[item].category == category
    ensures group in Effective(Apply(t, cmd).tables, item)
  {
    var t' := Apply(t, cmd).tables;
    ProvidingExcludesNothing(t, cmd);
    UnprovidedEffectiveIsDirect(t, item, group);
    GroupsOfMember(t'.provided, category, group);
    GroupsOfMember(t'.excluded, item, group);
  }

  /**
   Removing a group and adding it back, in any run: while the category does not
   provide it, it is effective exactly where it is direct; whatever command
   brings it back makes it effective for every item of the category.
   */
  lemma BackForEveryItem(cmds: seq<Command>, cmd: Command, category: Uuid, group: Uuid, item: Uuid)
    requires var t := Run(EMPTY, cmds).0;
      && Apply(t, cmd).Done? && Link(category, group) !in t.provided
      && Link(category, group) in Apply(t, cmd).tables.provided
      && item in Apply(t, cmd).tables.items && Apply(t, cmd).tables.items[item].category == category
    ensures var t := Run(EMPTY, cmds).0;
      && item in t.items && (group in Effective(t, item) <==> Link(item, group) in t.direct)
      && group in Effective(Apply(t, cmd).tables, item)
  {
    var t := Run(EMPTY, cmds).0;
    RunKeepsConsistent(EMPTY, cmds);
    ProvidedAgainIsEffective(t, cmd, category, group, item);
    ProvidingExcludesNothing(t, cmd);
    UnprovidedEffectiveIsDirect(t, item, group);
  }

  // ---------- what the plain commands mean for the groups an item offers ----------

  /** No other item's groups change. */
  ghost predicate OthersOffer(t: Tables, t': Tables, item: Uuid) {
    t'.items == t.items && forall j :: j in t.items && j != item ==> Effective(t', j) == Effective(t, j)
  }

  /**
   A plain attach succeeds exactly for an active item, an active group and a link
   that is new. The item then offers that group besides what it offered, no other
   item is affected, and a second attach is a conflict.
   */
  lemma AttachItemOffers(t: Tables, i: Uuid, g: Uuid)
    ensures AttachItem(t, i, g).Done? <==> ActiveItem(t, i) && ActiveGroup(t, g) && Link(i, g) !in t.direct
    ensures AttachItem(t, i, g).Done? ==>
              var t' := AttachItem(t, i, g).tables;
              && i in t.items && Effective(t', i) == Effective(t, i) + {g} && OthersOffer(t, t', i)
              && t'.provided == t.provided && t'.excluded == t.excluded
              && AttachItem(t', i, g) == Refused(Conflict)
  {
    if AttachItem(t, i, g).Done? {
      var t' := AttachItem(t, i, g).tables;
      forall x ensures x in Effective(t', i) <==> x in Effective(t, i) + {g} {
        GroupsOfMember(t.direct, i, x);
        GroupsOfMember(t'.direct, i, x);
      }
      forall j | j in t.items && j != i ensures Effective(t', j) == Effective(t, j) {
        SameGroups(t.direct, t'.direct, j);
      }
    }
  }

  lemma SameGroups(a: set<Link>, b: set<Link>, owner: Uuid)
    requires forall g :: Link(owner, g) in a <==> Link(owner, g) in b
    ensures GroupsOf(a, owner) == GroupsOf(b, owner)
  {
    forall g ensures g in GroupsOf(a, owner) <==> g in GroupsOf(b, owner) {
      GroupsOfMember(a, owner, g);
      GroupsOfMember(b, owner, g);
    }
  }

  /**
   Attaching a group to a category succeeds exactly for an active category, an
   active group and a link that is new. Every item of the category then offers
   the group, and no other item is affected.
   */
  lemma AttachCategoryOffers(t: Tables, c: Uuid, g: Uuid)
    requires Consistent(t)
    ensures AttachCategory(t, c, g).Done? <==> ActiveCategory(t, c) && ActiveGroup(t, g) && Link(c, g) !in t.provided
    ensures AttachCategory(t, c, g).Done? ==>
              var t' := AttachCategory(t, c, g).tables;
              && t'.items == t.items && t'.direct == t.direct && t'.excluded == t.excluded
              && (forall j :: j in t.items ==>
                    Effective(t', j) == if t.items[j].category == c then Effective(t, j) + {g} else Effective(t, j))
              && AttachCategory(t', c, g) == Refused(Conflict)
  {
    if AttachCategory(t, c, g).Done? {
      var t' := AttachCategory(t, c, g).tables;
      forall j | j in t.items
        ensures Effective(t', j) == if t.items[j].category == c then Effective(t, j) + {g} else Effective(t, j)
      {
        CategoryGives(t, t', j, g);
      }
    }
  }

  lemma CategoryGives(t: Tables, t': Tables, j: Uuid, g: Uuid)
    requires Consistent(t) && j in t.items && t'.items == t.items && t'.direct == t.direct && t'.excluded == t.excluded
    requires exists c :: Link(c, g) !in t.provided && t'.provided == t.provided + {Link(c, g)}
    ensures Effective(t', j)
            == if Link(t.items[j].category, g) in t'.provided && Link(t.items[j].category, g) !in t.provided
               then Effective(t, j) + {g} else Effective(t, j)
  {
    var k := t.items[j].category;
    forall x ensures x in GroupsOf(t'.provided, k) <==> x in GroupsOf(t.provided, k) || Link(k, x) in t'.provided {
      GroupsOfMember(t.provided, k, x);
      GroupsOfMember(t'.provided, k, x);
    }
    GroupsOfMember(t.excluded, j, g);
    GroupsOfMember(t.provided, k, g);
  }

  /**
   Excluding a group succeeds exactly for an active item and group that the
   item's category provides and the item does not exclude yet. The item then no
   longer offers the group, unless it has it directly; nothing else changes.
   */
  lemma ExcludeHides(t: Tables, i: Uuid, g: Uuid)
    ensures Exclude(t, i, g).Done? <==>
              ActiveItem(t, i) && ActiveGroup(t, g) && Link(t.items[i].category, g) in t.provided
                && Link(i, g) !in t.excluded
    ensures Exclude(t, i, g).Done? ==>
              var t' := Exclude(t, i, g).tables;
              && i in t.items && g in Effective(t, i) && OthersOffer(t, t', i)
              && Effective(t', i) == (if Link(i, g) in t.direct then Effective(t, i) else Effective(t, i) - {g})
              && t'.provided == t.provided && t'.direct == t.direct
              && Exclude(t', i, g) == Refused(Conflict)
  {
    if Exclude(t, i, g).Done? {
      var t' := Exclude(t, i, g).tables;
      var c := t.items[i].category;
      GroupsOfMember(t.provided, c, g);
      GroupsOfMember(t.direct, i, g);
      forall x ensures x in GroupsOf(t'.excluded, i) <==> x in GroupsOf(t.excluded, i) || x == g {
        GroupsOfMember(t.excluded, i, x);
        GroupsOfMember(t'.excluded, i, x);
      }
      GroupsOfMember(t.excluded, i, g);
      forall j | j in t.items && j != i ensures Effective(t', j) == Effective(t, j) {
        SameGroups(t.excluded, t'.excluded, j);
      }
    }
  }
}
