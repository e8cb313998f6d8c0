/**
 New links and retired rows. The commands mean to add no link to a retired group
 or owner. They keep to it but for one case: the item replacement compares the
 union of its two current sets with the union of its two desired ones, so a
 retired group that an item excludes can be made direct, and the other way round.
 */
module RetiredLinks {
  import opened Prelude
  import opened Uuids
  import opened IdSets
  import opened Links
  import opened LinkTheorems

  /** Every link that is new in `t'` joins an owner and a group that were there and not retired. */
  ghost predicate AddsOnlyActive(t: Tables, t': Tables) {
    && (forall l :: l in t'.provided - t.provided ==> ActiveCategory(t, l.owner) && ActiveGroup(t, l.group))
    && (forall l :: l in t'.direct - t.direct ==> ActiveItem(t, l.owner) && ActiveGroup(t, l.group))
    && (forall l :: l in t'.excluded - t.excluded ==> ActiveItem(t, l.owner) && ActiveGroup(t, l.group))
  }

  /** A retired group changes sides: excluded and now wanted direct, or direct and now wanted excluded. */
  ghost predicate ChangesSides(t: Tables, i: Uuid, d: set<Uuid>, e: set<Uuid>, g: Uuid) {
    RetiredGroup(t, g)
    && ((g in d && Link(i, g) in t.excluded && Link(i, g) !in t.direct)
        || (g in e && Link(i, g) in t.direct && Link(i, g) !in t.excluded))
  }

  ghost predicate SwitchesRetired(t: Tables, cmd: Command) {
    cmd.CmdReplaceItem? && exists g :: ChangesSides(t, cmd.item, Elements(cmd.directIDs), Elements(cmd.excludedIDs), g)
  }

  /**
   A successful command adds links between active rows only, if and only if it does not move a retired
   group to the other side of an item.
   */
  lemma CommandAddsOnlyActive(t: Tables, cmd: Command)
    requires Consistent(t) && Apply(t, cmd).Done?
    ensures AddsOnlyActive(t, Apply(t, cmd).tables) <==> !SwitchesRetired(t, cmd)
  {
    match cmd {
      case CmdReplaceItem(i, d, e) => ReplaceItemAdds(t, i, Elements(d), Elements(e));
      case CmdReplaceCategory(c, gs) => ReplaceCategoryAdds(t, c, Elements(gs));
      case CmdReplaceAssignments(g, its, cats) => ReplaceAssignmentsAdds(t, g, Elements(its), Elements(cats));
      case _ =>
    }
  }

  /** What replacing one owner's groups adds. */
  lemma RewiredAdds(rel: set<Link>, owner: Uuid, groups: set<Uuid>, l: Link)
    ensures l in Rewired(rel, owner, groups) - rel <==> l.owner == owner && l.group in groups && l !in rel
  {
    GroupsOfMember(rel, owner, l.group);
  }

  lemma RewiredOwnersAdds(rel: set<Link>, group: Uuid, owners: set<Uuid>, l: Link)
    ensures l in RewiredOwners(rel, group, owners) - rel <==> l.group == group && l.owner in owners && l !in rel
  {
    OwnersOfMember(rel, l.owner, group);
  }

  lemma ReplaceItemAdds(t: Tables, i: Uuid, d: set<Uuid>, e: set<Uuid>)
    requires ReplaceItemSets(t, i, d, e).Done?
    ensures AddsOnlyActive(t, ItemReplaced(t, i, d, e)) <==> !exists g :: ChangesSides(t, i, d, e, g)
  {
    var t' := ItemReplaced(t, i, d, e);
    forall l: Link
      ensures l in t'.direct - t.direct <==> l.owner == i && l.group in d && l !in t.direct
      ensures l in t'.excluded - t.excluded <==> l.owner == i && l.group in e && l !in t.excluded
    {
      RewiredAdds(t.direct, i, d, l);
      RewiredAdds(t.excluded, i, e, l);
    }
    if g :| ChangesSides(t, i, d, e, g) {
      assert Link(i, g) in t'.direct - t.direct || Link(i, g) in t'.excluded - t.excluded;
    } else {
      forall l | l in t'.direct - t.direct || l in t'.excluded - t.excluded ensures ActiveGroup(t, l.group) {
        assert !ChangesSides(t, i, d, e, l.group);
        LockedGroupActive(t, i, d, e, l.group);
      }
    }
  }

  /** A wanted group that is not linked to the item yet has passed the retirement check. */
  lemma LockedGroupActive(t: Tables, i: Uuid, d: set<Uuid>, e: set<Uuid>, g: Uuid)
    requires ReplaceItemSets(t, i, d, e).Done? && g in d + e
    ensures ActiveGroup(t, g) || (RetiredGroup(t, g) && (Link(i, g) in t.direct || Link(i, g) in t.excluded))
  {
    var current := GroupsOf(t.direct, i) + GroupsOf(t.excluded, i);
    GroupsOfMember(t.direct, i, g);
    GroupsOfMember(t.excluded, i, g);
    assert g in current + (d + e);
    assert g !in current ==> g in (d + e) - current;
  }

  lemma ReplaceCategoryAdds(t: Tables, c: Uuid, gs: set<Uuid>)
    requires ReplaceCategorySets(t, c, gs).Done?
    ensures AddsOnlyActive(t, CategoryReplaced(t, c, gs))
  {
    forall l | l in CategoryReplaced(t, c, gs).provided - t.provided
      ensures ActiveCategory(t, l.owner) && ActiveGroup(t, l.group) {
      RewiredAdds(t.provided, c, gs, l);
      GroupsOfMember(t.provided, c, l.group);
      assert l.group in gs - GroupsOf(t.provided, c) && l.group in GroupsOf(t.provided, c) + gs;
    }
  }

  lemma ReplaceAssignmentsAdds(t: Tables, g: Uuid, its: set<Uuid>, cats: set<Uuid>)
    requires ReplaceAssignmentsSets(t, g, its, cats).Done?
    ensures AddsOnlyActive(t, AssignmentsReplaced(t, g, its, cats))
  {
    var t' := AssignmentsReplaced(t, g, its, cats);
    forall l | l in t'.provided - t.provided ensures ActiveCategory(t, l.owner) && ActiveGroup(t, l.group) {
      RewiredOwnersAdds(t.provided, g, cats, l);
      OwnersOfMember(t.provided, l.owner, g);
      assert l.owner in cats - OwnersOf(t.provided, g) && l.owner in OwnersOf(t.provided, g) + cats;
      assert l.owner !in (cats - OwnersOf(t.provided, g)) * RetiredCategories(t);
    }
    forall l | l in t'.direct - t.direct ensures ActiveItem(t, l.owner) && ActiveGroup(t, l.group) {
      RewiredOwnersAdds(t.direct, g, its, l);
      OwnersOfMember(t.direct, l.owner, g);
      assert l.owner in its - OwnersOf(t.direct, g) && l.owner in OwnersOf(t.direct, g) + its;
      assert l.owner !in (its - OwnersOf(t.direct, g)) * RetiredItems(t);
    }
  }

  // ---------- the case ----------

  /** An item excludes a group that was retired afterwards. */
  ghost function RetiredExclusion(c: Uuid, g: Uuid, i: Uuid): Tables {
    Tables(map[c := false], map[g := true], map[i := ItemRow(c, false)], {Link(c, g)}, {}, {Link(i, g)})
  }

  /** Seven commands from empty tables give a retired group a new direct link. */
  lemma RetiredGroupCanBecomeDirect(c: Uuid, g: Uuid, i: Uuid)
    requires g != NIL
    ensures var t := Run(EMPTY, [CmdCreateCategory(c), CmdCreateGroup(g), CmdCreateItem(i, c), CmdAttachCategory(c, g),
                                 CmdExclude(i, g), CmdRetireGroup(g)]).0;
      && t == RetiredExclusion(c, g, i)
      && Apply(t, CmdReplaceItem(i, [g], [])).Done?
      && Link(i, g) in Apply(t, CmdReplaceItem(i, [g], [])).tables.direct
  {
    var cmds := [CmdCreateCategory(c), CmdCreateGroup(g), CmdCreateItem(i, c), CmdAttachCategory(c, g),
                 CmdExclude(i, g), CmdRetireGroup(g)];
    var t4 := EMPTY.(categories := map[c := false], groups := map[g := false],
                     items := map[i := ItemRow(c, false)], provided := {Link(c, g)});
    MenuRun(c, g, i, cmds);
    RunStep(t4, cmds[4..]);
    RunStep(t4.(excluded := {Link(i, g)}), cmds[5..]);
    assert Apply(t4, CmdExclude(i, g)).tables == t4.(excluded := {Link(i, g)});
    assert Apply(t4.(excluded := {Link(i, g)}), CmdRetireGroup(g)).tables == RetiredExclusion(c, g, i);
    assert cmds[6..] == [];
    ReplacementAccepted(c, g, i);
  }

  lemma ReplacementAccepted(c: Uuid, g: Uuid, i: Uuid)
    requires g != NIL
    ensures var o := Apply(RetiredExclusion(c, g, i), CmdReplaceItem(i, [g], []));
      o.Done? && Link(i, g) in o.tables.direct
  {
    var t := RetiredExclusion(c, g, i);
    GroupsOfMember(t.excluded, i, g);
    assert UsableIds([g]) && UsableIds([]);
    assert Elements([g]) == {g} && Elements<Uuid>([]) == {};
    assert GroupsOf(t.direct, i) == {} && GroupsOf(t.excluded, i) == {g};
    assert GroupSetError(t, {g}, {g}) == None;
    assert {} + {g} == {g} && {g} + {} == {g};
  }
}
