/**
 The link commands as they run: each locks its rows, reads the stored sets,
 loops over the ids to remove and to add, and records one audit event. A
 command that fails leaves no trace, because its transaction rolls back.
 Every method is proved against the function of module Links with its name.
 */
module LinkStore {
  import opened Prelude
  import opened Ordering
  import opened Uuids
  import opened IdSets
  import opened Links

  datatype ItemGroups = ItemGroups(item: Uuid, directIDs: seq<Uuid>, excludedIDs: seq<Uuid>)
  datatype CategoryGroups = CategoryGroups(category: Uuid, groupIDs: seq<Uuid>, removedExclusions: seq<Link>)
  datatype GroupAssignments =
    GroupAssignments(group: Uuid, itemIDs: seq<Uuid>, categoryIDs: seq<Uuid>, removedExclusions: seq<Link>)
  datatype ItemCategory = ItemCategory(item: Uuid, category: Uuid, removedGroups: seq<Uuid>)

  /** The tables after a command that started from `t`. */
  ghost function After(o: Outcome, t: Tables): Tables {
    match o case Refused(_) => t case Done(t', _) => t'
  }

  /** The audit events a command writes. */
  ghost function Events(o: Outcome): seq<Audit> {
    match o
    case Refused(_) => []
    case Done(_, None) => []
    case Done(_, Some(a)) => [a]
  }

  /** The answer agrees with the outcome on success and on the error. */
  ghost predicate Answers<T>(r: Result<T, Error>, o: Outcome) {
    match r case Ok(_) => o.Done? case Err(e) => o == Refused(e)
  }

  lemma RefKeysInjective(s: set<Link>)
    ensures KeyInjective(RefKey, s)
  {
    forall x, y | x in s && y in s && x != y ensures RefKey(x) != RefKey(y) {
      TextLength(x.group);
      TextLength(y.group);
      if x.group != y.group {
        TextInjective(x.group, y.group);
        assert RefKey(x)[..36] == Text(x.group) && RefKey(y)[..36] == Text(y.group);
      } else {
        TextInjective(x.owner, y.owner);
        assert RefKey(x)[36..] == Text(x.owner) && RefKey(y)[36..] == Text(y.owner);
      }
    }
  }

  /** `sortExclusionRefs` compares group texts and, when they are equal, item texts. */
  lemma RefKeyOrder(x: Link, y: Link)
    ensures LexLess(RefKey(x), RefKey(y))
       <==> if x.group != y.group then Before(x.group, y.group) else Before(x.owner, y.owner)
  {
    TextLength(x.group);
    TextLength(y.group);
    TextInjective(x.group, y.group);
    if x.group == y.group {
      LexSamePrefix(Text(x.group), Text(x.owner), Text(y.owner));
    } else {
      LexPrefixDecides(Text(x.group), Text(y.group), Text(x.owner), Text(y.owner));
    }
  }

  /** The two sides of a change, as sets, and when it changes nothing. */
  lemma ChangeFacts(current: set<Uuid>, desired: set<Uuid>)
    ensures var c := Change(current, desired);
      && Elements(c.added) == desired - current && Distinct(c.added)
      && Elements(c.removed) == current - desired && Distinct(c.removed)
      && (|c.added| + |c.removed| == 0 <==> current == desired)
  {
    ListingFacts(desired - current);
    ListingFacts(current - desired);
    if |desired - current| + |current - desired| == 0 {
      assert desired - current == {} && current - desired == {};
    }
  }

  lemma AddedAreNew(rel: set<Link>, owner: Uuid, added: seq<Uuid>, desired: set<Uuid>)
    requires Elements(added) == desired - GroupsOf(rel, owner)
    ensures forall g :: g in added ==> Link(owner, g) !in rel
  {
    forall g | g in added ensures Link(owner, g) !in rel {
      assert g in Elements(added);
      GroupsOfMember(rel, owner, g);
    }
  }

  lemma AddedOwnersAreNew(rel: set<Link>, group: Uuid, added: seq<Uuid>, desired: set<Uuid>)
    requires Elements(added) == desired - OwnersOf(rel, group)
    ensures forall o :: o in added ==> Link(o, group) !in rel
  {
    forall o | o in added ensures Link(o, group) !in rel {
      assert o in Elements(added);
      OwnersOfMember(rel, o, group);
    }
  }

  /** Deleting and inserting only the difference replaces an owner's whole set. */
  lemma RewireByDifference(rel: set<Link>, owner: Uuid, desired: set<Uuid>)
    ensures var current := GroupsOf(rel, owner);
      (rel - LinksFrom(owner, current - desired)) + LinksFrom(owner, desired - current) == Rewired(rel, owner, desired)
  {
    var current := GroupsOf(rel, owner);
    var a := (rel - LinksFrom(owner, current - desired)) + LinksFrom(owner, desired - current);
    var b := Rewired(rel, owner, desired);
    forall l ensures l in a <==> l in b {
      GroupsOfMember(rel, owner, l.group);
    }
  }

  lemma RewireOwnersByDifference(rel: set<Link>, group: Uuid, desired: set<Uuid>)
    ensures var current := OwnersOf(rel, group);
      (rel - LinksTo(current - desired, group)) + LinksTo(desired - current, group)
        == RewiredOwners(rel, group, desired)
  {
    var current := OwnersOf(rel, group);
    var a := (rel - LinksTo(current - desired, group)) + LinksTo(desired - current, group);
    var b := RewiredOwners(rel, group, desired);
    forall l ensures l in a <==> l in b {
      OwnersOfMember(rel, l.owner, group);
    }
  }

  lemma AppendDistinct<T>(a: seq<T>, b: seq<T>)
    requires Distinct(a) && Distinct(b) && Elements(a) !! Elements(b)
    ensures Distinct(a + b)
    ensures Elements(a + b) == Elements(a) + Elements(b)
  {
    forall i, j | 0 <= i < j < |a + b| ensures (a + b)[i] != (a + b)[j] {
      assert (a + b)[i] in Elements(a) || i >= |a|;
      assert (a + b)[j] in Elements(b) || j < |a|;
    }
  }

  /** The tables after the category replacement, part by part. */
  lemma CategoryWritten(t: Tables, t': Tables, category: Uuid, gs: set<Uuid>)
    requires t'.categories == t.categories && t'.groups == t.groups && t'.items == t.items && t'.direct == t.direct
    requires t'.provided == Rewired(t.provided, category, gs)
    requires t'.excluded == t.excluded - CategoryExclusions(t, category, GroupsOf(t.provided, category) - gs)
    ensures t' == CategoryReplaced(t, category, gs)
  {
  }

  /** The tables after the column-wise replacement, part by part. */
  lemma AssignmentsWritten(t: Tables, t': Tables, group: Uuid, its: set<Uuid>, cats: set<Uuid>)
    requires t'.categories == t.categories && t'.groups == t.groups && t'.items == t.items
    requires t'.provided == RewiredOwners(t.provided, group, cats) && t'.direct == RewiredOwners(t.direct, group, its)
    requires t'.excluded == t.excluded - GroupExclusions(t, OwnersOf(t.provided, group) - cats, group)
    ensures t' == AssignmentsReplaced(t, group, its, cats)
  {
  }

  lemma TwoListed(a: Uuid, b: Uuid)
    ensures Elements([a]) + Elements([b]) == {a, b} && Elements(Listing({a, b})) == {a, b}
  {
    ListingFacts({a, b});
  }

  class Store {
    var categories: map<Uuid, bool>
    var groups: map<Uuid, bool>
    var items: map<Uuid, ItemRow>
    var provided: set<Link>
    var direct: set<Link>
    var excluded: set<Link>
    var audit: seq<Audit>

    ghost function State(): Tables
      reads this
    {
      Tables(categories, groups, items, provided, direct, excluded)
    }

    constructor ()
      ensures State() == EMPTY && audit == []
    {
      categories, groups, items := map[], map[], map[];
      provided, direct, excluded := {}, {}, {};
      audit := [];
    }

    // ---------- queries ----------

    static method GroupIDs(rel: set<Link>, owner: Uuid) returns (ids: seq<Uuid>)
      ensures ids == Listing(GroupsOf(rel, owner))
    {
      ids := [];
      var rest := rel;
      while rest != {}
        invariant rest <= rel
        invariant Elements(ids) == GroupsOf(rel - rest, owner)
        invariant Distinct(ids)
        decreases rest
      {
        var l :| l in rest;
        ghost var seen := rel - rest;
        rest := rest - {l};
        assert rel - rest == seen + {l};
        if l.owner == owner {
          assert l == Link(owner, l.group);
          assert l.group !in Elements(ids);
          assert Elements(ids + [l.group]) == Elements(ids) + {l.group};
          assert GroupsOf(seen + {l}, owner) == GroupsOf(seen, owner) + {l.group};
          ids := ids + [l.group];
        } else {
          assert GroupsOf(seen + {l}, owner) == GroupsOf(seen, owner);
        }
      }
      assert rel - rest == rel;
      SortIdsIsListing(ids);
      ids := SortIds(ids);
    }

    static method OwnerIDs(rel: set<Link>, group: Uuid) returns (ids: seq<Uuid>)
      ensures ids == Listing(OwnersOf(rel, group))
    {
      ids := [];
      var rest := rel;
      while rest != {}
        invariant rest <= rel
        invariant Elements(ids) == OwnersOf(rel - rest, group)
        invariant Distinct(ids)
        decreases rest
      {
        var l :| l in rest;
        ghost var seen := rel - rest;
        rest := rest - {l};
        assert rel - rest == seen + {l};
        if l.group == group {
          assert l == Link(l.owner, group);
          assert l.owner !in Elements(ids);
          assert Elements(ids + [l.owner]) == Elements(ids) + {l.owner};
          assert OwnersOf(seen + {l}, group) == OwnersOf(seen, group) + {l.owner};
          ids := ids + [l.owner];
        } else {
          assert OwnersOf(seen + {l}, group) == OwnersOf(seen, group);
        }
      }
      assert rel - rest == rel;
      SortIdsIsListing(ids);
      ids := SortIds(ids);
    }

    /** The rows of a table that exist among `ids`, in the order of `ids`. */
    static method RowsByIDs(ids: seq<Uuid>, table: set<Uuid>) returns (rows: seq<Uuid>)
      requires Distinct(ids)
      ensures Elements(rows) == Elements(ids) * table
      ensures |rows| == |ids| <==> Elements(ids) <= table
    {
      rows := [];
      for i := 0 to |ids|
        invariant Elements(rows) == Elements(ids[..i]) * table
        invariant |rows| <= i
        invariant |rows| == i <==> Elements(ids[..i]) <= table
      {
        assert ids[..i + 1] == ids[..i] + [ids[i]];
        assert Elements(ids[..i + 1]) == Elements(ids[..i]) + {ids[i]};
        if ids[i] in table {
          assert Elements(rows + [ids[i]]) == Elements(rows) + {ids[i]};
          rows := rows + [ids[i]];
        }
      }
      assert ids[..|ids|] == ids;
    }

    /** Whether a locked row is retired and among the added ids. */
    static method AnyRetiredAdded(rows: seq<Uuid>, added: seq<Uuid>, retired: set<Uuid>) returns (found: bool)
      ensures found <==> Elements(rows) * Elements(added) * retired != {}
    {
      for i := 0 to |rows|
        invariant Elements(rows[..i]) * Elements(added) * retired == {}
      {
        assert rows[..i + 1] == rows[..i] + [rows[i]];
        assert Elements(rows[..i + 1]) == Elements(rows[..i]) + {rows[i]};
        var isAdded := ContainsID(added, rows[i]);
        if rows[i] in retired && isAdded {
          assert rows[i] in Elements(rows) * Elements(added) * retired;
          return true;
        }
      }
      assert rows[..|rows|] == rows;
      return false;
    }

    /** `lockGroupsForSet`, on the rows of the locked groups. */
    method LockGroupsForSet(current: seq<Uuid>, desired: seq<Uuid>) returns (err: Option<Error>)
      ensures err == GroupSetError(State(), Elements(current), Elements(desired))
    {
      var all := UnionIDs(current, desired);
      ListingFacts(Elements(current) + Elements(desired));
      if |all| == 0 {
        assert Elements(all) == {};
        return None;
      }
      var rows := RowsByIDs(all, groups.Keys);
      if |rows| != |all| { return Some(NotFound); }
      var added, _ := DiffIDSets(current, desired);
      var retired := set g | g in groups.Keys && groups[g];
      var refused := AnyRetiredAdded(rows, added, retired);
      ghost var bad := Elements(rows) * Elements(added) * retired;
      assert forall g :: g in bad <==> g in Elements(desired) - Elements(current) && RetiredGroup(State(), g);
      if refused { return Some(EntityRetired); }
      return None;
    }

    /** Deletes the exclusions of `group` held by items of `category`, and names their items. */
    method DeleteCategoryGroupExclusions(category: Uuid, group: Uuid) returns (refs: seq<Link>)
      modifies this`excluded
      ensures Distinct(refs)
      ensures Elements(refs) == CategoryExclusions(old(State()), category, {group})
      ensures excluded == old(excluded) - Elements(refs)
    {
      refs := [];
      var rest := excluded;
      ghost var start := State();
      while rest != {}
        invariant rest <= start.excluded
        invariant Elements(refs) == CategoryExclusions(start.(excluded := start.excluded - rest), category, {group})
        invariant excluded == start.excluded - Elements(refs)
        invariant Distinct(refs)
        decreases rest
      {
        var l :| l in rest;
        ghost var seen := start.excluded - rest;
        rest := rest - {l};
        assert start.excluded - rest == seen + {l};
        if l.owner in items && items[l.owner].category == category && l.group == group {
          assert l !in Elements(refs);
          assert Elements(refs + [l]) == Elements(refs) + {l};
          excluded := excluded - {l};
          refs := refs + [l];
        }
      }
      assert start.excluded - rest == start.excluded;
    }

    // ---------- row loops ----------

    /** Writes an item's direct and excluded changes: removals first, then additions. */
    method ApplyItemGroupChanges(item: Uuid, d: IdSetChange, e: IdSetChange)
      requires forall g :: g in d.added ==> Link(item, g) !in direct
      requires forall g :: g in e.added ==> Link(item, g) !in excluded
      requires Distinct(d.added) && Distinct(e.added)
      modifies this`direct, this`excluded
      ensures direct == (old(direct) - LinksFrom(item, Elements(d.removed))) + LinksFrom(item, Elements(d.added))
      ensures excluded == (old(excluded) - LinksFrom(item, Elements(e.removed))) + LinksFrom(item, Elements(e.added))
    {
      direct := RemoveLinks(direct, item, d.removed);
      excluded := RemoveLinks(excluded, item, e.removed);
      direct := AddLinks(direct, item, d.added);
      excluded := AddLinks(excluded, item, e.added);
    }

    static method RemoveLinks(rel: set<Link>, owner: Uuid, ids: seq<Uuid>) returns (out: set<Link>)
      ensures out == rel - LinksFrom(owner, Elements(ids))
    {
      out := rel;
      for i := 0 to |ids|
        invariant out == rel - LinksFrom(owner, Elements(ids[..i]))
      {
        assert ids[..i + 1] == ids[..i] + [ids[i]];
        assert Elements(ids[..i + 1]) == Elements(ids[..i]) + {ids[i]};
        out := out - {Link(owner, ids[i])};
      }
      assert ids[..|ids|] == ids;
    }

    /** Inserts one row per id. The primary key refuses a row that exists; none does. */
    static method AddLinks(rel: set<Link>, owner: Uuid, ids: seq<Uuid>) returns (out: set<Link>)
      requires Distinct(ids)
      requires forall g :: g in ids ==> Link(owner, g) !in rel
      ensures out == rel + LinksFrom(owner, Elements(ids))
    {
      out := rel;
      for i := 0 to |ids|
        invariant out == rel + LinksFrom(owner, Elements(ids[..i]))
      {
        assert ids[..i + 1] == ids[..i] + [ids[i]];
        assert Elements(ids[..i + 1]) == Elements(ids[..i]) + {ids[i]};
        assert ids[i] in ids;
        assert Link(owner, ids[i]) !in out;  // no unique violation
        out := out + {Link(owner, ids[i])};
      }
      assert ids[..|ids|] == ids;
    }

    static method RemoveOwners(rel: set<Link>, owners: seq<Uuid>, group: Uuid) returns (out: set<Link>)
      ensures out == rel - LinksTo(Elements(owners), group)
    {
      out := rel;
      for i := 0 to |owners|
        invariant out == rel - LinksTo(Elements(owners[..i]), group)
      {
        assert owners[..i + 1] == owners[..i] + [owners[i]];
        assert Elements(owners[..i + 1]) == Elements(owners[..i]) + {owners[i]};
        out := out - {Link(owners[i], group)};
      }
      assert owners[..|owners|] == owners;
    }

    static method AddOwners(rel: set<Link>, owners: seq<Uuid>, group: Uuid) returns (out: set<Link>)
      requires Distinct(owners)
      requires forall o :: o in owners ==> Link(o, group) !in rel
      ensures out == rel + LinksTo(Elements(owners), group)
    {
      out := rel;
      for i := 0 to |owners|
        invariant out == rel + LinksTo(Elements(owners[..i]), group)
      {
        assert owners[..i + 1] == owners[..i] + [owners[i]];
        assert Elements(owners[..i + 1]) == Elements(owners[..i]) + {owners[i]};
        assert owners[i] in owners;
        assert Link(owners[i], group) !in out;  // no unique violation
        out := out + {Link(owners[i], group)};
      }
      assert owners[..|owners|] == owners;
    }

    // ---------- handlers ----------

    method AttachItemModifierGroup(item: Uuid, group: Uuid) returns (r: Result<(), Error>)
      modifies this
      ensures var o := AttachItem(old(State()), item, group);
        Answers(r, o) && State() == After(o, old(State())) && audit == old(audit) + Events(o)
    {
      if item !in items { return Err(NotFound); }
      if items[item].retired { return Err(EntityRetired); }
      if group !in groups { return Err(NotFound); }
      if groups[group] { return Err(EntityRetired); }
      if Link(item, group) in direct { return Err(Conflict); }
      direct := direct + {Link(item, group)};
      audit := audit + [ItemGroupAttached(item, group)];
      return Ok(());
    }

    method AttachCategoryModifierGroup(category: Uuid, group: Uuid) returns (r: Result<(), Error>)
      modifies this
      ensures var o := AttachCategory(old(State()), category, group);
        Answers(r, o) && State() == After(o, old(State())) && audit == old(audit) + Events(o)
    {
      if category !in categories { return Err(NotFound); }
      if categories[category] { return Err(EntityRetired); }
      if group !in groups { return Err(NotFound); }
      if groups[group] { return Err(EntityRetired); }
      if Link(category, group) in provided { return Err(Conflict); }
      provided := provided + {Link(category, group)};
      audit := audit + [CategoryGroupAttached(category, group)];
      return Ok(());
    }

    method ExcludeInheritedModifierGroup(item: Uuid, group: Uuid) returns (r: Result<(), Error>)
      modifies this
      ensures var o := Exclude(old(State()), item, group);
        Answers(r, o) && State() == After(o, old(State())) && audit == old(audit) + Events(o)
    {
      if item !in items { return Err(NotFound); }
      if items[item].retired { return Err(EntityRetired); }
      if group !in groups { return Err(NotFound); }
      if groups[group] { return Err(EntityRetired); }
      if Link(items[item].category, group) !in provided { return Err(InvalidInheritance); }
      if Link(item, group) in excluded { return Err(Conflict); }
      excluded := excluded + {Link(item, group)};
      audit := audit + [InheritedGroupExcluded(item, group)];
      return Ok(());
    }

    /** Replaces an item's direct and excluded groups. */
    method ReplaceItemModifierGroups(item: Uuid, directIDs: seq<Uuid>, excludedIDs: seq<Uuid>)
      returns (r: Result<ItemGroups, Error>)
      modifies this
      ensures var o := ReplaceItem(old(State()), item, directIDs, excludedIDs);
        Answers(r, o) && State() == After(o, old(State())) && audit == old(audit) + Events(o)
      ensures r.Ok? ==> r.value == ItemGroups(item, Listing(Elements(directIDs)), Listing(Elements(excludedIDs)))
    {
      var d := NormalizeIDSet(directIDs);
      if d.Err? { return Err(Invalid(d.error)); }
      var e := NormalizeIDSet(excludedIDs);
      if e.Err? { return Err(Invalid(e.error)); }
      ListingFacts(Elements(directIDs));
      ListingFacts(Elements(excludedIDs));
      var overlap := Overlaps(d.value, e.value);
      if overlap { return Err(InvalidInheritance); }
      r := ReplaceItemBody(item, d.value, e.value);
    }

    /** The transaction body of the item replacement: lock and check, then write the difference. */
    method ReplaceItemBody(item: Uuid, d: seq<Uuid>, e: seq<Uuid>) returns (r: Result<ItemGroups, Error>)
      requires AscendingIds(d) && AscendingIds(e) && Elements(d) * Elements(e) == {}
      modifies this
      ensures var o := ReplaceItemSets(old(State()), item, Elements(d), Elements(e));
        Answers(r, o) && State() == After(o, old(State())) && audit == old(audit) + Events(o)
      ensures r.Ok? ==> r.value == ItemGroups(item, d, e)
    {
      if item !in items { return Err(NotFound); }
      if items[item].retired { return Err(EntityRetired); }
      var curDirect := GroupIDs(direct, item);
      var curExcluded := GroupIDs(excluded, item);
      ListingFacts(GroupsOf(direct, item));
      ListingFacts(GroupsOf(excluded, item));
      var refused := CheckItemGroups(items[item].category, curDirect, curExcluded, d, e);
      if refused.Some? { return Err(refused.value); }
      var dc, ec := WriteItemGroups(item, curDirect, curExcluded, d, e);
      if |dc.added| + |dc.removed| + |ec.added| + |ec.removed| != 0 {
        audit := audit + [ItemGroupsReplaced(item, dc, ec)];
      }
      return Ok(ItemGroups(item, d, e));
    }

    /** The checks between the reads and the first write: the groups, then that what is excluded is inherited. */
    method CheckItemGroups(category: Uuid, curDirect: seq<Uuid>, curExcluded: seq<Uuid>, d: seq<Uuid>, e: seq<Uuid>)
      returns (err: Option<Error>)
      ensures var groupError :=
          GroupSetError(State(), Elements(curDirect) + Elements(curExcluded), Elements(d) + Elements(e));
        err == if groupError.Some? then groupError
               else if !(Elements(e) <= GroupsOf(provided, category)) then Some(InvalidInheritance)
               else None
    {
      var groupError := LockItemGroups(curDirect, curExcluded, d, e);
      if groupError.Some? { return groupError; }
      var offered := GroupIDs(provided, category);
      ListingFacts(GroupsOf(provided, category));
      var inherited := Includes(offered, e);
      return if inherited then None else Some(InvalidInheritance);
    }

    method LockItemGroups(curDirect: seq<Uuid>, curExcluded: seq<Uuid>, d: seq<Uuid>, e: seq<Uuid>)
      returns (err: Option<Error>)
      ensures err == GroupSetError(State(), Elements(curDirect) + Elements(curExcluded), Elements(d) + Elements(e))
    {
      var current := UnionIDs(curDirect, curExcluded);
      var desired := UnionIDs(d, e);
      ListingFacts(Elements(curDirect) + Elements(curExcluded));
      ListingFacts(Elements(d) + Elements(e));
      err := LockGroupsForSet(current, desired);
    }

    method WriteItemGroups(item: Uuid, curDirect: seq<Uuid>, curExcluded: seq<Uuid>, d: seq<Uuid>, e: seq<Uuid>)
      returns (dc: IdSetChange, ec: IdSetChange)
      requires curDirect == Listing(GroupsOf(direct, item)) && curExcluded == Listing(GroupsOf(excluded, item))
      requires AscendingIds(d) && AscendingIds(e)
      modifies this`direct, this`excluded
      ensures State() == ItemReplaced(old(State()), item, Elements(d), Elements(e))
      ensures dc == Change(GroupsOf(old(direct), item), Elements(d))
      ensures ec == Change(GroupsOf(old(excluded), item), Elements(e))
      ensures |dc.added| + |dc.removed| + |ec.added| + |ec.removed| == 0
         <==> GroupsOf(old(direct), item) == Elements(d) && GroupsOf(old(excluded), item) == Elements(e)
    {
      dc := GroupDifference(direct, item, curDirect, d);
      ec := GroupDifference(excluded, item, curExcluded, e);
      ApplyItemGroupChanges(item, dc, ec);
    }

    /** What a replacement adds to and removes from one owner's links. */
    static method GroupDifference(rel: set<Link>, owner: Uuid, current: seq<Uuid>, desired: seq<Uuid>)
      returns (c: IdSetChange)
      requires current == Listing(GroupsOf(rel, owner)) && AscendingIds(desired)
      ensures c == Change(GroupsOf(rel, owner), Elements(desired))
      ensures Distinct(c.added) && Distinct(c.removed)
      ensures Elements(c.removed) == GroupsOf(rel, owner) - Elements(desired)
      ensures |c.added| + |c.removed| == 0 <==> GroupsOf(rel, owner) == Elements(desired)
      ensures forall g :: g in c.added ==> Link(owner, g) !in rel
      ensures (rel - LinksFrom(owner, Elements(c.removed))) + LinksFrom(owner, Elements(c.added))
           == Rewired(rel, owner, Elements(desired))
    {
      ListingFacts(GroupsOf(rel, owner));
      AscendingDistinct(Key, desired);
      var added, removed := DiffIDSets(current, desired);
      ChangeFacts(GroupsOf(rel, owner), Elements(desired));
      AddedAreNew(rel, owner, added, Elements(desired));
      RewireByDifference(rel, owner, Elements(desired));
      return IdSetChange(added, removed);
    }

    /** What a replacement adds to and removes from one group's owners. */
    static method OwnerDifference(rel: set<Link>, group: Uuid, current: seq<Uuid>, desired: seq<Uuid>)
      returns (c: IdSetChange)
      requires current == Listing(OwnersOf(rel, group)) && AscendingIds(desired)
      ensures c == Change(OwnersOf(rel, group), Elements(desired))
      ensures Distinct(c.added) && Distinct(c.removed)
      ensures Elements(c.removed) == OwnersOf(rel, group) - Elements(desired)
      ensures |c.added| + |c.removed| == 0 <==> OwnersOf(rel, group) == Elements(desired)
      ensures forall o :: o in c.added ==> Link(o, group) !in rel
      ensures (rel - LinksTo(Elements(c.removed), group)) + LinksTo(Elements(c.added), group)
           == RewiredOwners(rel, group, Elements(desired))
    {
      ListingFacts(OwnersOf(rel, group));
      AscendingDistinct(Key, desired);
      var added, removed := DiffIDSets(current, desired);
      ChangeFacts(OwnersOf(rel, group), Elements(desired));
      AddedOwnersAreNew(rel, group, added, Elements(desired));
      RewireOwnersByDifference(rel, group, Elements(desired));
      return IdSetChange(added, removed);
    }

    /** Whether two lists share an id. */
    static method Overlaps(a: seq<Uuid>, b: seq<Uuid>) returns (found: bool)
      ensures found <==> Elements(a) * Elements(b) != {}
    {
      for i := 0 to |a|
        invariant Elements(a[..i]) * Elements(b) == {}
      {
        assert a[..i + 1] == a[..i] + [a[i]];
        assert Elements(a[..i + 1]) == Elements(a[..i]) + {a[i]};
        var both := ContainsID(b, a[i]);
        if both {
          assert a[i] in Elements(a) * Elements(b);
          return true;
        }
      }
      assert a[..|a|] == a;
      return false;
    }

    /** Whether every id of `wanted` is offered. */
    static method Includes(offered: seq<Uuid>, wanted: seq<Uuid>) returns (all: bool)
      ensures all <==> Elements(wanted) <= Elements(offered)
    {
      for i := 0 to |wanted|
        invariant Elements(wanted[..i]) <= Elements(offered)
      {
        assert wanted[..i + 1] == wanted[..i] + [wanted[i]];
        assert Elements(wanted[..i + 1]) == Elements(wanted[..i]) + {wanted[i]};
        var has := ContainsID(offered, wanted[i]);
        if !has {
          assert wanted[i] in Elements(wanted) - Elements(offered);
          return false;
        }
      }
      assert wanted[..|wanted|] == wanted;
      return true;
    }

    /** Replaces the groups a category provides. */
    method ReplaceCategoryModifierGroups(category: Uuid, groupIDs: seq<Uuid>) returns (r: Result<CategoryGroups, Error>)
      modifies this
      ensures var o := ReplaceCategory(old(State()), category, groupIDs);
        Answers(r, o) && State() == After(o, old(State())) && audit == old(audit) + Events(o)
      ensures r.Ok? ==> r.value == CategoryGroups(category, Listing(Elements(groupIDs)),
        RefListing(CategoryExclusions(old(State()), category,
                                      GroupsOf(old(provided), category) - Elements(groupIDs))))
    {
      var gs := NormalizeIDSet(groupIDs);
      if gs.Err? { return Err(Invalid(gs.error)); }
      ListingFacts(Elements(groupIDs));
      if category !in categories { return Err(NotFound); }
      if categories[category] { return Err(EntityRetired); }
      var current := GroupIDs(provided, category);
      ListingFacts(GroupsOf(provided, category));
      var groupError := LockGroupsForSet(current, gs.value);
      if groupError.Some? { return Err(groupError.value); }

      var removedExcl := WriteCategoryGroups(category, current, gs.value);
      return Ok(CategoryGroups(category, gs.value, removedExcl));
    }

    /** Writes the difference, removals first, and sorts the exclusions that went with them. */
    method WriteCategoryGroups(category: Uuid, current: seq<Uuid>, desired: seq<Uuid>) returns (removedExcl: seq<Link>)
      requires current == Listing(GroupsOf(provided, category)) && AscendingIds(desired)
      modifies this`provided, this`excluded, this`audit
      ensures State() == CategoryReplaced(old(State()), category, Elements(desired))
      ensures removedExcl
        == RefListing(CategoryExclusions(old(State()), category, GroupsOf(old(provided), category) - Elements(desired)))
      ensures audit == old(audit) +
        (if GroupsOf(old(provided), category) == Elements(desired) then []
         else [CategoryGroupsReplaced(category, Change(GroupsOf(old(provided), category), Elements(desired)),
                                      removedExcl)])
    {
      ghost var before := State();
      var c := GroupDifference(provided, category, current, desired);
      removedExcl := RemoveCategoryGroups(category, c.removed);
      provided := AddLinks(provided, category, c.added);
      CategoryWritten(before, State(), category, Elements(desired));
      RefKeysInjective(Elements(removedExcl));
      SortByIsListing(RefKey, removedExcl);
      removedExcl := SortBy(RefKey, removedExcl);
      if |c.added| + |c.removed| != 0 {
        audit := audit + [CategoryGroupsReplaced(category, c, removedExcl)];
      }
    }

    /** The removal loop: each group leaves the category together with its exclusions there. */
    method RemoveCategoryGroups(category: Uuid, removed: seq<Uuid>) returns (removedExcl: seq<Link>)
      requires Distinct(removed)
      modifies this`provided, this`excluded
      ensures provided == old(provided) - LinksFrom(category, Elements(removed))
      ensures Elements(removedExcl) == CategoryExclusions(old(State()), category, Elements(removed))
      ensures excluded == old(excluded) - Elements(removedExcl)
      ensures Distinct(removedExcl)
    {
      removedExcl := [];
      for i := 0 to |removed|
        invariant provided == old(provided) - LinksFrom(category, Elements(removed[..i]))
        invariant Elements(removedExcl) == CategoryExclusions(old(State()), category, Elements(removed[..i]))
        invariant excluded == old(excluded) - Elements(removedExcl)
        invariant Distinct(removedExcl)
      {
        var g := removed[i];
        assert removed[..i + 1] == removed[..i] + [g];
        assert Elements(removed[..i + 1]) == Elements(removed[..i]) + {g};
        assert g !in Elements(removed[..i]);
        provided := provided - {Link(category, g)};
        ghost var seen := Elements(removedExcl);
        var refs := DeleteCategoryGroupExclusions(category, g);
        assert Elements(refs) == CategoryExclusions(old(State()), category, {g});
        AppendDistinct(removedExcl, refs);
        removedExcl := removedExcl + refs;
      }
      assert removed[..|removed|] == removed;
    }

    /** Sets exactly which items and categories a group is directly attached to. */
    method ReplaceGroupAssignments(group: Uuid, itemIDs: seq<Uuid>, categoryIDs: seq<Uuid>)
      returns (r: Result<GroupAssignments, Error>)
      modifies this
      ensures var o := ReplaceAssignments(old(State()), group, itemIDs, categoryIDs);
        Answers(r, o) && State() == After(o, old(State())) && audit == old(audit) + Events(o)
      ensures r.Ok? ==> r.value == GroupAssignments(group, Listing(Elements(itemIDs)), Listing(Elements(categoryIDs)),
        RefListing(GroupExclusions(old(State()), OwnersOf(old(provided), group) - Elements(categoryIDs), group)))
    {
      var its := NormalizeIDSet(itemIDs);
      if its.Err? { return Err(Invalid(its.error)); }
      var cats := NormalizeIDSet(categoryIDs);
      if cats.Err? { return Err(Invalid(cats.error)); }
      ListingFacts(Elements(itemIDs));
      ListingFacts(Elements(categoryIDs));
      r := ReplaceAssignmentsBody(group, its.value, cats.value);
    }

    /** `lockOwners`: every owner must exist, and a retired one may not be added. */
    static method LockOwners(current: seq<Uuid>, desired: seq<Uuid>, added: seq<Uuid>, table: set<Uuid>,
                             retired: set<Uuid>)
      returns (err: Option<Error>)
      requires Elements(added) == Elements(desired) - Elements(current)
      ensures err == if !(Elements(current) + Elements(desired) <= table) then Some(NotFound)
                     else if (Elements(desired) - Elements(current)) * retired != {} then Some(EntityRetired)
                     else None
    {
      var ids := UnionIDs(current, desired);
      ListingFacts(Elements(current) + Elements(desired));
      if |ids| == 0 {
        assert Elements(ids) == {};
        return None;
      }
      var rows := RowsByIDs(ids, table);
      if |rows| != |ids| { return Some(NotFound); }
      var refused := AnyRetiredAdded(rows, added, retired);
      assert Elements(rows) * Elements(added) == Elements(desired) - Elements(current);
      if refused { return Some(EntityRetired); }
      return None;
    }

    method ReplaceAssignmentsBody(group: Uuid, its: seq<Uuid>, cats: seq<Uuid>)
      returns (r: Result<GroupAssignments, Error>)
      requires AscendingIds(its) && AscendingIds(cats)
      modifies this
      ensures var o := ReplaceAssignmentsSets(old(State()), group, Elements(its), Elements(cats));
        Answers(r, o) && State() == After(o, old(State())) && audit == old(audit) + Events(o)
      ensures r.Ok? ==> r.value == GroupAssignments(group, its, cats,
        RefListing(GroupExclusions(old(State()), OwnersOf(old(provided), group) - Elements(cats), group)))
    {
      if group !in groups { return Err(NotFound); }
      if groups[group] { return Err(EntityRetired); }
      var curItems := OwnerIDs(direct, group);
      var curCats := OwnerIDs(provided, group);
      ListingFacts(OwnersOf(direct, group));
      ListingFacts(OwnersOf(provided, group));
      var refusal := CheckAssignments(group, curItems, curCats, its, cats);
      if refusal.Some? { return Err(refusal.value); }
      var removedExcl := WriteAssignments(group, curItems, curCats, its, cats);
      return Ok(GroupAssignments(group, its, cats, removedExcl));
    }

    /** The checks between reading the current owners and the first write. */
    method CheckAssignments(group: Uuid, curItems: seq<Uuid>, curCats: seq<Uuid>, its: seq<Uuid>, cats: seq<Uuid>)
      returns (refusal: Option<Error>)
      requires group in groups && !groups[group]
      requires Elements(curItems) == OwnersOf(direct, group) && Elements(curCats) == OwnersOf(provided, group)
      ensures refusal == AssignmentRefusal(State(), group, Elements(its), Elements(cats))
    {
      var iAdd, _ := DiffIDSets(curItems, its);
      var cAdd, _ := DiffIDSets(curCats, cats);
      var retiredItems := set i | i in items.Keys && items[i].retired;
      var itemError := LockOwners(curItems, its, iAdd, items.Keys, retiredItems);
      if itemError.Some? { return itemError; }
      var retiredCats := set c | c in categories.Keys && categories[c];
      var catError := LockOwners(curCats, cats, cAdd, categories.Keys, retiredCats);
      if catError.Some? { return catError; }
      var excluding := OwnerIDs(excluded, group);
      ListingFacts(OwnersOf(excluded, group));
      var clash := Overlaps(iAdd, excluding);
      if clash { return Some(InvalidInheritance); }
      return None;
    }

    /** Writes the category changes, then the item changes, removals before additions. */
    method WriteAssignments(group: Uuid, curItems: seq<Uuid>, curCats: seq<Uuid>, its: seq<Uuid>, cats: seq<Uuid>)
      returns (removedExcl: seq<Link>)
      requires curItems == Listing(OwnersOf(direct, group)) && curCats == Listing(OwnersOf(provided, group))
      requires AscendingIds(its) && AscendingIds(cats)
      modifies this`direct, this`provided, this`excluded, this`audit
      ensures State() == AssignmentsReplaced(old(State()), group, Elements(its), Elements(cats))
      ensures removedExcl
        == RefListing(GroupExclusions(old(State()), OwnersOf(old(provided), group) - Elements(cats), group))
      ensures audit == old(audit) +
        (if OwnersOf(old(direct), group) == Elements(its) && OwnersOf(old(provided), group) == Elements(cats) then []
         else [GroupAssignmentsReplaced(group, Change(OwnersOf(old(direct), group), Elements(its)),
                                        Change(OwnersOf(old(provided), group), Elements(cats)), removedExcl)])
    {
      ghost var before := State();
      var ic := OwnerDifference(direct, group, curItems, its);
      var cc := OwnerDifference(provided, group, curCats, cats);
      removedExcl := ApplyGroupAssignmentChanges(group, ic, cc);
      AssignmentsWritten(before, State(), group, Elements(its), Elements(cats));
      if |ic.added| + |ic.removed| + |cc.added| + |cc.removed| != 0 {
        audit := audit + [GroupAssignmentsReplaced(group, ic, cc, removedExcl)];
      }
    }

    method ApplyGroupAssignmentChanges(group: Uuid, ic: IdSetChange, cc: IdSetChange) returns (removedExcl: seq<Link>)
      requires Distinct(ic.added) && Distinct(cc.added) && Distinct(cc.removed)
      requires forall o :: o in ic.added ==> Link(o, group) !in direct
      requires forall o :: o in cc.added ==> Link(o, group) !in provided
      modifies this`direct, this`provided, this`excluded
      ensures provided == (old(provided) - LinksTo(Elements(cc.removed), group)) + LinksTo(Elements(cc.added), group)
      ensures direct == (old(direct) - LinksTo(Elements(ic.removed), group)) + LinksTo(Elements(ic.added), group)
      ensures excluded == old(excluded) - GroupExclusions(old(State()), Elements(cc.removed), group)
      ensures removedExcl == RefListing(GroupExclusions(old(State()), Elements(cc.removed), group))
    {
      removedExcl := RemoveGroupFromCategories(group, cc.removed);
      provided := AddOwners(provided, cc.added, group);
      direct := RemoveOwners(direct, ic.removed, group);
      direct := AddOwners(direct, ic.added, group);
      RefKeysInjective(Elements(removedExcl));
      SortByIsListing(RefKey, removedExcl);
      removedExcl := SortBy(RefKey, removedExcl);
    }

    /** The category removal loop of the column-wise command. */
    method RemoveGroupFromCategories(group: Uuid, removed: seq<Uuid>) returns (removedExcl: seq<Link>)
      requires Distinct(removed)
      modifies this`provided, this`excluded
      ensures provided == old(provided) - LinksTo(Elements(removed), group)
      ensures Elements(removedExcl) == GroupExclusions(old(State()), Elements(removed), group)
      ensures excluded == old(excluded) - Elements(removedExcl)
      ensures Distinct(removedExcl)
    {
      removedExcl := [];
      for i := 0 to |removed|
        invariant provided == old(provided) - LinksTo(Elements(removed[..i]), group)
        invariant Elements(removedExcl) == GroupExclusions(old(State()), Elements(removed[..i]), group)
        invariant excluded == old(excluded) - Elements(removedExcl)
        invariant Distinct(removedExcl)
      {
        var c := removed[i];
        assert removed[..i + 1] == removed[..i] + [c];
        assert Elements(removed[..i + 1]) == Elements(removed[..i]) + {c};
        assert c !in Elements(removed[..i]);
        provided := provided - {Link(c, group)};
        var refs := DeleteCategoryGroupExclusions(c, group);
        assert Elements(refs) == GroupExclusions(old(State()), {c}, group);
        AppendDistinct(removedExcl, refs);
        removedExcl := removedExcl + refs;
      }
      assert removed[..|removed|] == removed;
    }

    /** Moves an item to another category and drops the exclusions its new category gives no reason for. */
    method MoveItemCategory(item: Uuid, category: Uuid) returns (r: Result<ItemCategory, Error>)
      requires References(State())
      modifies this
      ensures var o := MoveItem(old(State()), item, category);
        Answers(r, o) && State() == After(o, old(State())) && audit == old(audit) + Events(o)
      ensures r.Ok? && old(items)[item].category != category ==>
        r.value == ItemCategory(item, category, Listing(Orphaned(old(State()), item, category)))
      ensures r.Ok? && old(items)[item].category == category ==> r.value == ItemCategory(item, category, [])
    {
      if item !in items { return Err(NotFound); }
      var row := items[item];
      if row.retired { return Err(EntityRetired); }
      if row.category == category { return Ok(ItemCategory(item, category, [])); }
      var catError := LockBothCategories(row.category, category);
      if catError.Some? { return Err(catError.value); }
      var orphans := OrphanedGroups(item, category);
      items := items[item := row.(category := category)];
      excluded := RemoveLinks(excluded, item, orphans);
      audit := audit + [ItemCategoryChanged(item, row.category, category, orphans)];
      return Ok(ItemCategory(item, category, orphans));
    }

    /** Locks the old and the new category in id order; only the new one must be unretired. */
    method LockBothCategories(source: Uuid, target: Uuid) returns (err: Option<Error>)
      requires source in categories && source != target
      ensures err == if target !in categories then Some(NotFound)
                     else if categories[target] then Some(EntityRetired)
                     else None
    {
      var both := UnionIDs([source], [target]);
      TwoListed(source, target);
      for i := 0 to |both|
        invariant forall k :: 0 <= k < i && both[k] == target ==> target in categories && !categories[target]
      {
        assert both[i] in Elements(both);
        if both[i] !in categories { return Some(NotFound); }
        if both[i] == target && categories[target] { return Some(EntityRetired); }
      }
      assert target in Elements(both);
      return None;
    }

    /** `DeleteItemExclusionsOutsideCategory`: which exclusions of the item the category gives no reason for. */
    method OrphanedGroups(item: Uuid, category: Uuid) returns (orphans: seq<Uuid>)
      ensures orphans == Listing(Orphaned(State(), item, category))
      ensures Elements(orphans) == Orphaned(State(), item, category)
    {
      var held := GroupIDs(excluded, item);
      var kept := GroupIDs(provided, category);
      ListingFacts(GroupsOf(excluded, item));
      ListingFacts(GroupsOf(provided, category));
      orphans := Missing(held, kept);
      ListingFacts(Orphaned(State(), item, category));
    }
  }
}
