/** When an item can be sold, and what turning entities on or choosing defaults does to that. */
module Sellable {
  import opened Prelude
  import opened Uuids
  import opened Availability

  datatype EffectiveGroup = EffectiveGroup(id: Uuid, minSelections: int)

  datatype ItemState = ItemState(
    available: bool,
    hasDirectPrice: bool,
    availableSizeCount: int,
    effectiveGroups: set<EffectiveGroup>,
    availableOptionCounts: map<Uuid, int>)

  /** A missing count reads as zero, as a Go map does. */
  function CountOf(counts: map<Uuid, int>, g: Uuid): int {
    if g in counts then counts[g] else 0
  }

  predicate IsSellable(s: ItemState) {
    && s.available
    && (s.hasDirectPrice || s.availableSizeCount != 0)
    && !(s.hasDirectPrice && s.availableSizeCount > 0)
    && forall g :: g in s.effectiveGroups && g.minSelections > 0 ==>
      CountOf(s.availableOptionCounts, g.id) >= g.minSelections
  }

  /** The children of a parent that can be ordered. */
  function Orderable(rows: map<Uuid, Child>, parent: Uuid): set<Uuid> {
    set r | r in rows && rows[r].parent == parent && rows[r].available && !rows[r].retired
  }

  /** What the projection hands to `IsSellable`: retired groups are left out, and options are counted per group. */
  ghost function StateOf(m: Menu, item: Uuid, groups: set<Uuid>): ItemState
    requires item in m.items
  {
    ItemState(m.items[item].available, m.items[item].priced, |Orderable(m.sizes, item)|,
              set g | g in groups && g in m.groups && !m.groups[g].retired ::
                EffectiveGroup(g, m.groups[g].minSelections),
              map g | g in groups && g in m.groups && !m.groups[g].retired :: |Orderable(m.options, g)|)
  }

  /** An item of the menu that the sellable projection shows. */
  ghost predicate Sold(m: Menu, item: Uuid, groups: set<Uuid>) {
    item in m.items && !m.items[item].retired && IsSellable(StateOf(m, item, groups))
  }

  /**
   What can be sold, by the rows: an item that is on and not retired, with a price or an
   orderable size but not both, and in each of its unretired groups at least as many
   orderable options as must be chosen.
   */
  lemma SoldExactly(m: Menu, item: Uuid, groups: set<Uuid>)
    ensures Sold(m, item, groups) <==>
      && item in m.items && m.items[item].available && !m.items[item].retired
      && (m.items[item].priced
          <==> forall s :: s in m.sizes && m.sizes[s].parent == item ==> m.sizes[s].retired || !m.sizes[s].available)
      && forall g :: g in groups && g in m.groups && !m.groups[g].retired ==>
           m.groups[g].minSelections
           <= |set o | o in m.options && m.options[o].parent == g && m.options[o].available && !m.options[o].retired|
  {
    if item in m.items {
      var st := StateOf(m, item, groups);
      SomeOrderable(m.sizes, item);
      forall g | g in groups && g in m.groups && !m.groups[g].retired
        ensures EffectiveGroup(g, m.groups[g].minSelections) in st.effectiveGroups
        ensures CountOf(st.availableOptionCounts, g) == |Orderable(m.options, g)|
        ensures Orderable(m.options, g) ==
          set o | o in m.options && m.options[o].parent == g && m.options[o].available && !m.options[o].retired
      {
      }
    }
  }

  lemma SomeOrderable(rows: map<Uuid, Child>, parent: Uuid)
    ensures |Orderable(rows, parent)| == 0
      <==> forall s :: s in rows && rows[s].parent == parent ==> rows[s].retired || !rows[s].available
  {
    var ordered := Orderable(rows, parent);
    if s :| s in rows && rows[s].parent == parent && !rows[s].retired && rows[s].available {
      assert s in ordered;
    } else {
      assert ordered == {};
    }
  }

  /** Turning an item off, retiring it, or not having it unsells it, whatever else a batch does. */
  lemma OffIsNotSold(m: Menu, cs: set<Change>, item: Uuid, groups: set<Uuid>)
    requires Change(ItemKind, item, false) in cs && Change(ItemKind, item, true) !in cs
    ensures !Sold(Update(m, cs), item, groups)
  {
    SoldExactly(Update(m, cs), item, groups);
  }

  /** The orderable children of a parent once some of its children are turned off. */
  ghost function LeftOrderable(rows: map<Uuid, Child>, kind: Kind, cs: set<Change>, parent: Uuid): set<Uuid> {
    set r | r in rows && rows[r].parent == parent && rows[r].available && !rows[r].retired
            && Change(kind, r, false) !in cs
  }

  /**
   Turning sizes and options off unsells a sold item exactly when it has no price and no
   orderable size is left, or some group of it is left with fewer orderable options than
   must be chosen.
   */
  lemma TurningOffUnsells(m: Menu, cs: set<Change>, item: Uuid, groups: set<Uuid>)
    requires Sold(m, item, groups) && forall c :: c in cs ==> !c.available && c.kind != ItemKind
    ensures !Sold(Update(m, cs), item, groups) <==>
      || (!m.items[item].priced && LeftOrderable(m.sizes, SizeKind, cs, item) == {})
      || exists g :: g in groups && g in m.groups && !m.groups[g].retired
           && |LeftOrderable(m.options, OptionKind, cs, g)| < m.groups[g].minSelections
  {
    var u := Update(m, cs);
    SoldExactly(m, item, groups);
    SoldExactly(u, item, groups);
    LeftIsOrderable(m.sizes, SizeKind, cs, item);
    SomeOrderable(u.sizes, item);
    SomeOrderable(m.sizes, item);
    assert u.items[item] == m.items[item];
    forall g
      ensures (set o | o in u.options && u.options[o].parent == g && u.options[o].available && !u.options[o].retired)
        == LeftOrderable(m.options, OptionKind, cs, g)
    {
      LeftIsOrderable(m.options, OptionKind, cs, g);
    }
  }

  lemma LeftIsOrderable(rows: map<Uuid, Child>, kind: Kind, cs: set<Change>, parent: Uuid)
    requires forall c :: c in cs ==> !c.available
    ensures Orderable(UpdateChildren(rows, kind, cs), parent) == LeftOrderable(rows, kind, cs, parent)
    ensures LeftOrderable(rows, kind, cs, parent) <= Orderable(rows, parent)
  {
  }

  /** Items have a price or sizes, never both (checked when an item is created; sizes are added to sized items only). */
  ghost predicate OnePricingForm(m: Menu) {
    forall s :: s in m.sizes && m.sizes[s].parent in m.items ==> !m.items[m.sizes[s].parent].priced
  }

  ghost predicate TurnsOn(cs: set<Change>) {
    forall c :: c in cs ==> c.available
  }

  lemma TurnedOnMore(rows: map<Uuid, Child>, kind: Kind, cs: set<Change>, parent: Uuid)
    requires TurnsOn(cs)
    ensures Orderable(rows, parent) <= Orderable(UpdateChildren(rows, kind, cs), parent)
    ensures |Orderable(rows, parent)| <= |Orderable(UpdateChildren(rows, kind, cs), parent)|
  {
    var a, b := Orderable(rows, parent), Orderable(UpdateChildren(rows, kind, cs), parent);
    forall r | r in a ensures r in b {
      assert Change(kind, r, false) !in cs;
    }
    SubsetCardinality(a, b);
  }

  /**
   A batch that only turns entities on can make a sold item unsold in one way:
   the item has a direct price and the batch leaves it with an available size.
   */
  lemma TurningOnSellable(m: Menu, cs: set<Change>, item: Uuid, groups: set<Uuid>)
    requires TurnsOn(cs) && Sold(m, item, groups)
    ensures Sold(Update(m, cs), item, groups) <==>
      !(m.items[item].priced && Orderable(Update(m, cs).sizes, item) != {})
  {
    var u := Update(m, cs);
    assert Change(ItemKind, item, false) !in cs;
    TurnedOnMore(m.sizes, SizeKind, cs, item);
    var before, after := StateOf(m, item, groups), StateOf(u, item, groups);
    assert after.effectiveGroups == before.effectiveGroups;
    forall g | g in after.effectiveGroups && g.minSelections > 0
      ensures CountOf(after.availableOptionCounts, g.id) >= g.minSelections
    {
      assert g in before.effectiveGroups;
      TurnedOnMore(m.options, OptionKind, cs, g.id);
    }
    assert Orderable(u.sizes, item) != {} <==> |Orderable(u.sizes, item)| > 0;
  }

  /** With one pricing form per item, turning entities on never makes a sold item unsold. */
  lemma TurningOnKeepsSold(m: Menu, cs: set<Change>, item: Uuid, groups: set<Uuid>)
    requires OnePricingForm(m) && TurnsOn(cs) && Sold(m, item, groups)
    ensures Sold(Update(m, cs), item, groups)
  {
    TurningOnSellable(m, cs, item, groups);
    if m.items[item].priced {
      assert forall s :: s in m.sizes ==> m.sizes[s].parent != item;
      assert Orderable(Update(m, cs).sizes, item) == {};
    }
  }

  // ---------- default options ----------

  datatype DefaultsError = GroupNotFound | GroupRetired | InvalidConfiguration | OptionRetired

  /** What the default options of a group must be. */
  ghost predicate GoodDefaults(g: Group, group: Uuid, options: map<Uuid, Child>, ids: seq<Uuid>) {
    && g.minSelections <= |ids| <= g.maxSelections
    && Distinct(ids)
    && forall id :: id in ids ==> id in Orderable(options, group)
  }

  predicate RetiredOption(options: map<Uuid, Child>, group: Uuid, id: Uuid) {
    id in options && options[id].parent == group && options[id].retired
  }

  /** The modifier groups with their options and defaults, as the defaults command sees them. */
  class GroupStore {
    var groups: map<Uuid, Group>
    var options: map<Uuid, Child>
    var defaults: set<(Uuid, Uuid)>

    /** Checks the count, then repeats, then that each default is an active, available option of the group. */
    method ValidateGroupDefaults(group: Uuid, ids: seq<Uuid>) returns (r: Option<DefaultsError>)
      requires group in groups
      ensures r.None? <==> GoodDefaults(groups[group], group, options, ids)
      ensures r == Some(OptionRetired) <==>
        && groups[group].minSelections <= |ids| <= groups[group].maxSelections && Distinct(ids)
        && exists k :: 0 <= k < |ids| && RetiredOption(options, group, ids[k])
             && forall j :: 0 <= j < k ==> ids[j] in Orderable(options, group)
      ensures r.Some? ==> r.value == OptionRetired || r.value == InvalidConfiguration
    {
      if |ids| < groups[group].minSelections || |ids| > groups[group].maxSelections {
        return Some(InvalidConfiguration);
      }
      var seen: set<Uuid> := {};
      for i := 0 to |ids|
        invariant seen == Elements(ids[..i])
        invariant Distinct(ids[..i])
      {
        if ids[i] in seen {
          ghost var k :| 0 <= k < i && ids[..i][k] == ids[i];
          return Some(InvalidConfiguration);
        }
        seen := seen + {ids[i]};
        assert ids[..i + 1] == ids[..i] + [ids[i]];
      }
      assert ids[..|ids|] == ids;
      if |ids| == 0 { return None; }
      var ofGroup := map o | o in options && options[o].parent == group :: options[o];
      for i := 0 to |ids|
        invariant forall k :: 0 <= k < i ==> ids[k] in Orderable(options, group)
      {
        var id := ids[i];
        assert id in ids;
        if id !in ofGroup { return Some(InvalidConfiguration); }
        if ofGroup[id].retired { return Some(OptionRetired); }
        if !ofGroup[id].available { return Some(InvalidConfiguration); }
      }
      return None;
    }

    /** Replaces a group's defaults wholesale. */
    method SetModifierGroupDefaults(group: Uuid, ids: seq<Uuid>) returns (r: Option<DefaultsError>)
      modifies this`defaults
      ensures r.None? <==>
        group in groups && !groups[group].retired && GoodDefaults(groups[group], group, options, ids)
      ensures r == Some(GroupNotFound) <==> group !in groups
      ensures r == Some(GroupRetired) <==> group in groups && groups[group].retired
      ensures defaults == if r.Some? then old(defaults)
                          else (set d | d in old(defaults) && d.0 != group) + (set id | id in ids :: (group, id))
    {
      if group !in groups { return Some(GroupNotFound); }
      if groups[group].retired { return Some(GroupRetired); }
      r := ValidateGroupDefaults(group, ids);
      if r.Some? { return; }
      defaults := set d | d in defaults && d.0 != group;
      for i := 0 to |ids|
        invariant defaults == (set d | d in old(defaults) && d.0 != group) + (set k | 0 <= k < i :: (group, ids[k]))
      {
        defaults := defaults + {(group, ids[i])};
      }
    }
  }

  /**
   Defaults that passed validation leave the group with at least its minimum
   number of orderable options, because distinct ids name distinct options; so
   the group is not what keeps an item from being sold.
   */
  lemma GoodDefaultsSatisfyMinimum(m: Menu, group: Uuid, ids: seq<Uuid>, item: Uuid, groups: set<Uuid>)
    requires group in m.groups && GoodDefaults(m.groups[group], group, m.options, ids)
    requires item in m.items
    ensures |Orderable(m.options, group)| >= m.groups[group].minSelections
    ensures forall g :: g in StateOf(m, item, groups).effectiveGroups && g.id == group ==>
      CountOf(StateOf(m, item, groups).availableOptionCounts, g.id) >= g.minSelections
  {
    DistinctCardinality(ids);
    assert Elements(ids) <= Orderable(m.options, group);
    SubsetCardinality(Elements(ids), Orderable(m.options, group));
  }
}
