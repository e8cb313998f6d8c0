/**
 The modifier-link tables of the catalog and what each command does to them.
 Three relations say which groups a category provides, which an item has
 directly, and which inherited ones it excludes.
 */
module Links {
  import opened Prelude
  import opened Ordering
  import opened Uuids
  import opened IdSets

  /** One row of a link table; `owner` is a category or an item. */
  datatype Link = Link(owner: Uuid, group: Uuid)

  datatype ItemRow = ItemRow(category: Uuid, retired: bool)

  /** The rows the commands read and write. A category or group maps to "is retired". */
  datatype Tables = Tables(
    categories: map<Uuid, bool>,
    groups: map<Uuid, bool>,
    items: map<Uuid, ItemRow>,
    provided: set<Link>,
    direct: set<Link>,
    excluded: set<Link>)

  const EMPTY: Tables := Tables(map[], map[], map[], {}, {}, {})

  datatype Error =
    | NotFound
    | EntityRetired
    | InvalidInheritance
    | Conflict
    | Invalid(reason: IdSetError)

  /** The details of one audit event. */
  datatype Audit =
    | CategoryCreated(category: Uuid)
    | GroupCreated(group: Uuid)
    | ItemCreated(item: Uuid, category: Uuid)
    | CategoryRetired(category: Uuid)
    | GroupRetired(group: Uuid)
    | ItemRetired(item: Uuid)
    | ItemGroupAttached(item: Uuid, group: Uuid)
    | CategoryGroupAttached(category: Uuid, group: Uuid)
    | InheritedGroupExcluded(item: Uuid, group: Uuid)
    | ItemGroupsReplaced(item: Uuid, directChange: IdSetChange, excludedChange: IdSetChange)
    | CategoryGroupsReplaced(category: Uuid, change: IdSetChange, removedExclusions: seq<Link>)
    | GroupAssignmentsReplaced(group: Uuid, items: IdSetChange, categories: IdSetChange, removedExclusions: seq<Link>)
    | ItemCategoryChanged(item: Uuid, fromCategory: Uuid, toCategory: Uuid, removedGroups: seq<Uuid>)

  /** What a command answers: refused with nothing written, or the new tables and the audit event, if any. */
  datatype Outcome =
    | Refused(error: Error)
    | Done(tables: Tables, audit: Option<Audit>)

  // ---------- reading the relations ----------

  ghost function GroupsOf(rel: set<Link>, owner: Uuid): set<Uuid> {
    set l | l in rel && l.owner == owner :: l.group
  }

  ghost function OwnersOf(rel: set<Link>, group: Uuid): set<Uuid> {
    set l | l in rel && l.group == group :: l.owner
  }

  ghost function LinksFrom(owner: Uuid, groups: set<Uuid>): set<Link> {
    set g | g in groups :: Link(owner, g)
  }

  ghost function LinksTo(owners: set<Uuid>, group: Uuid): set<Link> {
    set o | o in owners :: Link(o, group)
  }

  lemma GroupsOfMember(rel: set<Link>, owner: Uuid, group: Uuid)
    ensures group in GroupsOf(rel, owner) <==> Link(owner, group) in rel
  {
  }

  lemma OwnersOfMember(rel: set<Link>, owner: Uuid, group: Uuid)
    ensures owner in OwnersOf(rel, group) <==> Link(owner, group) in rel
  {
  }

  /** The exclusions of `groups` held by items of `category`. */
  ghost function CategoryExclusions(t: Tables, category: Uuid, groups: set<Uuid>): set<Link> {
    set l | l in t.excluded && l.owner in t.items && t.items[l.owner].category == category && l.group in groups
  }

  /** The exclusions of `group` held by items of `categories`. */
  ghost function GroupExclusions(t: Tables, categories: set<Uuid>, group: Uuid): set<Link> {
    set l | l in t.excluded && l.owner in t.items && t.items[l.owner].category in categories && l.group == group
  }

  /** Exclusion references are ordered by group text, then item text. */
  function RefKey(l: Link): seq<int> { Text(l.group) + Text(l.owner) }

  ghost function RefListing(s: set<Link>): seq<Link> { ListingBy(RefKey, s) }

  /** The groups an item offers. */
  ghost function Effective(t: Tables, item: Uuid): set<Uuid>
    requires item in t.items
  {
    (GroupsOf(t.provided, t.items[item].category) - GroupsOf(t.excluded, item)) + GroupsOf(t.direct, item)
  }

  // ---------- invariants ----------

  /** Foreign keys: every link names existing rows. */
  ghost predicate References(t: Tables) {
    && (forall i :: i in t.items ==> t.items[i].category in t.categories)
    && (forall l :: l in t.provided ==> l.owner in t.categories && l.group in t.groups)
    && (forall l :: l in t.direct ==> l.owner in t.items && l.group in t.groups)
    && (forall l :: l in t.excluded ==> l.owner in t.items && l.group in t.groups)
  }

  /** ADR-059: an exclusion exists only while the item's category provides the group. */
  ghost predicate ExclusionsProvided(t: Tables) {
    forall l :: l in t.excluded ==> l.owner in t.items && Link(t.items[l.owner].category, l.group) in t.provided
  }

  ghost predicate Consistent(t: Tables) {
    References(t) && ExclusionsProvided(t)
  }

  /** No group is both direct and excluded for one item. */
  ghost predicate DisjointRoles(t: Tables) {
    t.direct !! t.excluded
  }

  // ---------- what the commands do ----------

  predicate ActiveGroup(t: Tables, g: Uuid) { g in t.groups && !t.groups[g] }

  predicate ActiveItem(t: Tables, i: Uuid) { i in t.items && !t.items[i].retired }

  predicate ActiveCategory(t: Tables, c: Uuid) { c in t.categories && !t.categories[c] }

  function RetiredGroup(t: Tables, g: Uuid): bool { g in t.groups && t.groups[g] }

  /** `lockGroupsForSet`: every group must exist, and a retired one may not be added. */
  ghost function GroupSetError(t: Tables, current: set<Uuid>, desired: set<Uuid>): Option<Error> {
    if !(current + desired <= t.groups.Keys) then Some(NotFound)
    else if exists g :: g in desired - current && RetiredGroup(t, g) then Some(EntityRetired)
    else None
  }

  ghost function Change(current: set<Uuid>, desired: set<Uuid>): IdSetChange {
    IdSetChange(Listing(desired - current), Listing(current - desired))
  }

  /** `rel` with an owner's groups set to exactly `desired`. */
  ghost function Rewired(rel: set<Link>, owner: Uuid, desired: set<Uuid>): set<Link> {
    (rel - LinksFrom(owner, GroupsOf(rel, owner))) + LinksFrom(owner, desired)
  }

  /** `rel` with a group's owners set to exactly `desired`. */
  ghost function RewiredOwners(rel: set<Link>, group: Uuid, desired: set<Uuid>): set<Link> {
    (rel - LinksTo(OwnersOf(rel, group), group)) + LinksTo(desired, group)
  }

  ghost function ItemReplaced(t: Tables, item: Uuid, d: set<Uuid>, e: set<Uuid>): Tables {
    t.(direct := Rewired(t.direct, item, d), excluded := Rewired(t.excluded, item, e))
  }

  /** The replacement of an item's groups, for lists that are already normalised. */
  ghost function ReplaceItemSets(t: Tables, item: Uuid, d: set<Uuid>, e: set<Uuid>): Outcome {
    if d * e != {} then Refused(InvalidInheritance)
    else if item !in t.items then Refused(NotFound)
    else if t.items[item].retired then Refused(EntityRetired)
    else
      var curD, curE := GroupsOf(t.direct, item), GroupsOf(t.excluded, item);
      var groupError := GroupSetError(t, curD + curE, d + e);
      if groupError.Some? then Refused(groupError.value)
      else if !(e <= GroupsOf(t.provided, t.items[item].category)) then Refused(InvalidInheritance)
      else Done(ItemReplaced(t, item, d, e),
                if curD == d && curE == e then None
                else Some(ItemGroupsReplaced(item, Change(curD, d), Change(curE, e))))
  }

  ghost function ReplaceItem(t: Tables, item: Uuid, directIDs: seq<Uuid>, excludedIDs: seq<Uuid>): Outcome {
    var d, e := Normalized(directIDs), Normalized(excludedIDs);
    if d.Err? then Refused(Invalid(d.error))
    else if e.Err? then Refused(Invalid(e.error))
    else ReplaceItemSets(t, item, Elements(directIDs), Elements(excludedIDs))
  }

  ghost function CategoryReplaced(t: Tables, category: Uuid, gs: set<Uuid>): Tables {
    var current := GroupsOf(t.provided, category);
    t.(provided := Rewired(t.provided, category, gs),
       excluded := t.excluded - CategoryExclusions(t, category, current - gs))
  }

  ghost function ReplaceCategorySets(t: Tables, category: Uuid, gs: set<Uuid>): Outcome {
    if category !in t.categories then Refused(NotFound)
    else if t.categories[category] then Refused(EntityRetired)
    else
      var current := GroupsOf(t.provided, category);
      var groupError := GroupSetError(t, current, gs);
      if groupError.Some? then Refused(groupError.value)
      else Done(CategoryReplaced(t, category, gs),
                if current == gs then None
                else Some(CategoryGroupsReplaced(category, Change(current, gs),
                                                 RefListing(CategoryExclusions(t, category, current - gs)))))
  }

  ghost function ReplaceCategory(t: Tables, category: Uuid, groupIDs: seq<Uuid>): Outcome {
    var gs := Normalized(groupIDs);
    if gs.Err? then Refused(Invalid(gs.error))
    else ReplaceCategorySets(t, category, Elements(groupIDs))
  }

  ghost function AssignmentsReplaced(t: Tables, group: Uuid, its: set<Uuid>, cats: set<Uuid>): Tables {
    var curCats := OwnersOf(t.provided, group);
    t.(provided := RewiredOwners(t.provided, group, cats),
       direct := RewiredOwners(t.direct, group, its),
       excluded := t.excluded - GroupExclusions(t, curCats - cats, group))
  }

  /** Why a group's owners may not be set as wanted from the current ones, once the group itself is there. */
  ghost function OwnersRefusal(t: Tables, group: Uuid, curItems: set<Uuid>, curCats: set<Uuid>, its: set<Uuid>,
                               cats: set<Uuid>)
    : Option<Error>
  {
    if !(curItems + its <= t.items.Keys) then Some(NotFound)
    else if (its - curItems) * RetiredItems(t) != {} then Some(EntityRetired)
    else if !(curCats + cats <= t.categories.Keys) then Some(NotFound)
    else if (cats - curCats) * RetiredCategories(t) != {} then Some(EntityRetired)
    else if (its - curItems) * OwnersOf(t.excluded, group) != {} then Some(InvalidInheritance)
    else None
  }

  ghost function AssignmentRefusal(t: Tables, group: Uuid, its: set<Uuid>, cats: set<Uuid>): Option<Error> {
    OwnersRefusal(t, group, OwnersOf(t.direct, group), OwnersOf(t.provided, group), its, cats)
  }

  function RetiredItems(t: Tables): set<Uuid> {
    set i | i in t.items && t.items[i].retired
  }

  function RetiredCategories(t: Tables): set<Uuid> {
    set c | c in t.categories && t.categories[c]
  }

  ghost function ReplaceAssignmentsSets(t: Tables, group: Uuid, its: set<Uuid>, cats: set<Uuid>): Outcome {
    if group !in t.groups then Refused(NotFound)
    else if t.groups[group] then Refused(EntityRetired)
    else if AssignmentRefusal(t, group, its, cats).Some? then Refused(AssignmentRefusal(t, group, its, cats).value)
    else
      var curItems, curCats := OwnersOf(t.direct, group), OwnersOf(t.provided, group);
      Done(AssignmentsReplaced(t, group, its, cats),
           if curItems == its && curCats == cats then None
           else Some(GroupAssignmentsReplaced(group, Change(curItems, its), Change(curCats, cats),
                                              RefListing(GroupExclusions(t, curCats - cats, group)))))
  }

  ghost function ReplaceAssignments(t: Tables, group: Uuid, itemIDs: seq<Uuid>, categoryIDs: seq<Uuid>): Outcome {
    var its, cats := Normalized(itemIDs), Normalized(categoryIDs);
    if its.Err? then Refused(Invalid(its.error))
    else if cats.Err? then Refused(Invalid(cats.error))
    else ReplaceAssignmentsSets(t, group, Elements(itemIDs), Elements(categoryIDs))
  }

  ghost function AttachItem(t: Tables, item: Uuid, group: Uuid): Outcome {
    if item !in t.items then Refused(NotFound)
    else if t.items[item].retired then Refused(EntityRetired)
    else if group !in t.groups then Refused(NotFound)
    else if t.groups[group] then Refused(EntityRetired)
    else if Link(item, group) in t.direct then Refused(Conflict)
    else Done(t.(direct := t.direct + {Link(item, group)}), Some(ItemGroupAttached(item, group)))
  }

  ghost function AttachCategory(t: Tables, category: Uuid, group: Uuid): Outcome {
    if category !in t.categories then Refused(NotFound)
    else if t.categories[category] then Refused(EntityRetired)
    else if group !in t.groups then Refused(NotFound)
    else if t.groups[group] then Refused(EntityRetired)
    else if Link(category, group) in t.provided then Refused(Conflict)
    else Done(t.(provided := t.provided + {Link(category, group)}), Some(CategoryGroupAttached(category, group)))
  }

  ghost function Exclude(t: Tables, item: Uuid, group: Uuid): Outcome {
    if item !in t.items then Refused(NotFound)
    else if t.items[item].retired then Refused(EntityRetired)
    else if group !in t.groups then Refused(NotFound)
    else if t.groups[group] then Refused(EntityRetired)
    else if Link(t.items[item].category, group) !in t.provided then Refused(InvalidInheritance)
    else if Link(item, group) in t.excluded then Refused(Conflict)
    else Done(t.(excluded := t.excluded + {Link(item, group)}), Some(InheritedGroupExcluded(item, group)))
  }

  /** The exclusions of an item that `category` gives no reason for. */
  ghost function Orphaned(t: Tables, item: Uuid, category: Uuid): set<Uuid> {
    GroupsOf(t.excluded, item) - GroupsOf(t.provided, category)
  }

  ghost function MoveItem(t: Tables, item: Uuid, category: Uuid): Outcome {
    if item !in t.items then Refused(NotFound)
    else if t.items[item].retired then Refused(EntityRetired)
    else if t.items[item].category == category then Done(t, None)
    else if t.items[item].category !in t.categories || category !in t.categories then Refused(NotFound)
    else if t.categories[category] then Refused(EntityRetired)
    else
      var orphans := Orphaned(t, item, category);
      Done(t.(items := t.items[item := t.items[item].(category := category)],
              excluded := t.excluded - LinksFrom(item, orphans)),
           Some(ItemCategoryChanged(item, t.items[item].category, category, Listing(orphans))))
  }

  datatype Command =
    | CmdCreateCategory(category: Uuid)
    | CmdCreateGroup(group: Uuid)
    | CmdCreateItem(item: Uuid, category: Uuid)
    | CmdRetireCategory(category: Uuid)
    | CmdRetireGroup(group: Uuid)
    | CmdRetireItem(item: Uuid)
    | CmdAttachItem(item: Uuid, group: Uuid)
    | CmdAttachCategory(category: Uuid, group: Uuid)
    | CmdExclude(item: Uuid, group: Uuid)
    | CmdReplaceItem(item: Uuid, directIDs: seq<Uuid>, excludedIDs: seq<Uuid>)
    | CmdReplaceCategory(category: Uuid, groupIDs: seq<Uuid>)
    | CmdReplaceAssignments(group: Uuid, itemIDs: seq<Uuid>, categoryIDs: seq<Uuid>)
    | CmdMoveItem(item: Uuid, category: Uuid)

  /** The effect of one committed command run on its own. */
  ghost function Apply(t: Tables, cmd: Command): Outcome {
    match cmd
    case CmdCreateCategory(c) =>
      if c in t.categories then Refused(Conflict)
      else Done(t.(categories := t.categories[c := false]), Some(CategoryCreated(c)))
    case CmdCreateGroup(g) =>
      if g in t.groups then Refused(Conflict)
      else Done(t.(groups := t.groups[g := false]), Some(GroupCreated(g)))
    case CmdCreateItem(i, c) =>
      if c !in t.categories then Refused(NotFound)
      else if t.categories[c] then Refused(EntityRetired)
      else if i in t.items then Refused(Conflict)
      else Done(t.(items := t.items[i := ItemRow(c, false)]), Some(ItemCreated(i, c)))
    case CmdRetireCategory(c) =>
      if c !in t.categories then Refused(NotFound)
      else if t.categories[c] then Refused(EntityRetired)
      else Done(t.(categories := t.categories[c := true]), Some(CategoryRetired(c)))
    case CmdRetireGroup(g) =>
      if g !in t.groups then Refused(NotFound)
      else if t.groups[g] then Refused(EntityRetired)
      else Done(t.(groups := t.groups[g := true]), Some(GroupRetired(g)))
    case CmdRetireItem(i) =>
      if i !in t.items then Refused(NotFound)
      else if t.items[i].retired then Refused(EntityRetired)
      else Done(t.(items := t.items[i := t.items[i].(retired := true)]), Some(ItemRetired(i)))
    case CmdAttachItem(i, g) => AttachItem(t, i, g)
    case CmdAttachCategory(c, g) => AttachCategory(t, c, g)
    case CmdExclude(i, g) => Exclude(t, i, g)
    case CmdReplaceItem(i, d, e) => ReplaceItem(t, i, d, e)
    case CmdReplaceCategory(c, gs) => ReplaceCategory(t, c, gs)
    case CmdReplaceAssignments(g, its, cats) => ReplaceAssignments(t, g, its, cats)
    case CmdMoveItem(i, c) => MoveItem(t, i, c)
  }
}
