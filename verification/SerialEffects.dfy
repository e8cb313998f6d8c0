/**
 Concurrent commands against the serial ones. Whatever interleaves, a committing
 command is accepted, changes the tables and is audited exactly as it would be
 if it ran alone at that moment. Only `ReplaceItemModifierGroups` needs a
 condition for that. So a schedule is a serial run of the commands it commits,
 and its audit trail rebuilds the tables.
 */
module SerialEffects {
  import opened Prelude
  import opened Uuids
  import opened IdSets
  import opened Links
  import opened LinkTheorems
  import opened RetiredLinks
  import opened Transactions
  import opened LinkSafety
  import opened ItemRaces
  import opened OwnerRaces
  import opened ExactWrites
  import opened Grants

  // ---------- the serial command of a job ----------

  /** What a job answers when it runs alone. Jobs that touch no link or row of these tables do nothing here. */
  ghost function Alone(t: Tables, job: Job): Outcome {
    match job
    case AttachItem(i, g) => Links.AttachItem(t, i, g)
    case AttachCategory(c, g) => Links.AttachCategory(t, c, g)
    case Exclude(i, g) => Links.Exclude(t, i, g)
    case ReplaceItem(i, d, e) => ReplaceItemSets(t, i, d, e)
    case ReplaceCategory(c, gs) => ReplaceCategorySets(t, c, gs)
    case ReplaceAssignments(g, its, cs) => ReplaceAssignmentsSets(t, g, its, cs)
    case MoveItem(i, c) => Links.MoveItem(t, i, c)
    case CreateCategory(c) => Apply(t, CmdCreateCategory(c))
    case CreateGroup(g) => Apply(t, CmdCreateGroup(g))
    case CreateItem(i, c) => Apply(t, CmdCreateItem(i, c))
    case RetireCategory(c) => Apply(t, CmdRetireCategory(c))
    case RetireGroup(g) => Apply(t, CmdRetireGroup(g))
    case RetireItem(i) => Apply(t, CmdRetireItem(i))
    case SetAvailability(_, _) => Done(t, None)
    case OneRow(_) => Done(t, None)
  }

  ghost function JobOf(cmd: Command): Job {
    match cmd
    case CmdCreateCategory(c) => CreateCategory(c)
    case CmdCreateGroup(g) => CreateGroup(g)
    case CmdCreateItem(i, c) => CreateItem(i, c)
    case CmdRetireCategory(c) => RetireCategory(c)
    case CmdRetireGroup(g) => RetireGroup(g)
    case CmdRetireItem(i) => RetireItem(i)
    case CmdAttachItem(i, g) => AttachItem(i, g)
    case CmdAttachCategory(c, g) => AttachCategory(c, g)
    case CmdExclude(i, g) => Exclude(i, g)
    case CmdReplaceItem(i, d, e) => ReplaceItem(i, Elements(d), Elements(e))
    case CmdReplaceCategory(c, gs) => ReplaceCategory(c, Elements(gs))
    case CmdReplaceAssignments(g, its, cs) => ReplaceAssignments(g, Elements(its), Elements(cs))
    case CmdMoveItem(i, c) => MoveItem(i, c)
  }

  /** The id lists of a command pass normalisation, which comes before its transaction begins. */
  ghost predicate Sendable(cmd: Command) {
    match cmd
    case CmdReplaceItem(_, d, e) => UsableIds(d) && UsableIds(e)
    case CmdReplaceCategory(_, gs) => UsableIds(gs)
    case CmdReplaceAssignments(_, its, cs) => UsableIds(its) && UsableIds(cs)
    case _ => true
  }

  /** A job run alone is its command. */
  lemma AloneIsApply(t: Tables, cmd: Command)
    requires Sendable(cmd)
    ensures Apply(t, cmd) == Alone(t, JobOf(cmd))
  {
  }

  // ---------- the audit event of a transaction ----------

  /** The event a committing transaction writes, from what it read and deleted. */
  ghost function AuditOf(tx: Tx): Option<Audit> {
    match tx.job
    case AttachItem(i, g) => Some(ItemGroupAttached(i, g))
    case AttachCategory(c, g) => Some(CategoryGroupAttached(c, g))
    case Exclude(i, g) => Some(InheritedGroupExcluded(i, g))
    case ReplaceItem(i, d, e) =>
      if tx.first == d && tx.second == e then None
      else Some(ItemGroupsReplaced(i, Change(tx.first, d), Change(tx.second, e)))
    case ReplaceCategory(c, gs) =>
      if tx.first == gs then None
      else Some(CategoryGroupsReplaced(c, Change(tx.first, gs), RefListing(tx.writes.removeExcluded)))
    case ReplaceAssignments(g, its, cs) =>
      if tx.first == its && tx.second == cs then None
      else Some(GroupAssignmentsReplaced(g, Change(tx.first, its), Change(tx.second, cs),
                                         RefListing(tx.writes.removeExcluded)))
    case MoveItem(i, c) =>
      if tx.writes.moved == map[] then None
      else Some(ItemCategoryChanged(i, tx.source, c, Listing(GroupsOf(tx.writes.removeExcluded, i))))
    case CreateCategory(c) => Some(CategoryCreated(c))
    case CreateGroup(g) => Some(GroupCreated(g))
    case CreateItem(i, c) => Some(ItemCreated(i, c))
    case RetireCategory(c) => Some(CategoryRetired(c))
    case RetireGroup(g) => Some(GroupRetired(g))
    case RetireItem(i) => Some(ItemRetired(i))
    case SetAvailability(_, _) => None
    case OneRow(_) => None
  }

  /** The transaction has run its last statement and its inserted row, if any, is still new. */
  ghost predicate Ready(s: System, id: nat) {
    id in s.txs && s.txs[id].phase == Writing && s.txs[id].todo == [] && !Taken(s.db, s.txs[id].writes.change)
  }

  // ---------- the main result ----------

  /**
   In any schedule a committing command, other than an item replacement, does
   what the serial command does on the tables it commits to: it is accepted
   there, leaves the same tables, and writes the same audit event.
   */
  lemma EveryCommitIsSerial(db: Tables, events: seq<Event>, id: nat, cmd: Command)
    requires ExclusionsProvided(db) && Ready(Play(Start(db), events), id)
    requires var tx := Play(Start(db), events).txs[id]; tx.job == JobOf(cmd) && Sendable(cmd) && !cmd.CmdReplaceItem?
    ensures var s := Play(Start(db), events);
      Apply(s.db, cmd) == Done(Do(s, Commit(id)).db, AuditOf(s.txs[id]))
  {
    PlayKeepsGranted(Start(db), events);
    AloneIsApply(Play(Start(db), events).db, cmd);
    CommitIsAlone(Play(Start(db), events), id);
  }

  lemma CommitIsAlone(s: System, id: nat)
    requires GrantedIn(s) && Ready(s, id) && !s.txs[id].job.ReplaceItem?
    ensures Alone(s.db, s.txs[id].job) == Done(Do(s, Commit(id)).db, AuditOf(s.txs[id]))
  {
    var tx := s.txs[id];
    assert TxOk(s.db, tx) && OwnerReads(s.db, tx) && ExactOk(s.db, tx) && Granted(s.db, tx);
    WritesAreAlone(s.db, tx);
  }

  lemma WritesAreAlone(db: Tables, tx: Tx)
    requires tx.phase == Writing && tx.todo == [] && !Taken(db, tx.writes.change) && !tx.job.ReplaceItem?
    requires WritingOk(db, tx) && OwnerReads(db, tx) && ExactOk(db, tx) && Granted(db, tx)
    ensures Alone(db, tx.job) == Done(Install(db, tx.writes), AuditOf(tx))
  {
    match tx.job {
      case ReplaceCategory(c, gs) => CategoryAlone(db, tx, c, gs);
      case ReplaceAssignments(g, its, cs) => AssignmentsAlone(db, tx, g, its, cs);
      case MoveItem(i, c) => MoveAlone(db, tx, i, c);
      case AttachItem(_, _) => LinkAlone(db, tx);
      case AttachCategory(_, _) => LinkAlone(db, tx);
      case Exclude(_, _) => LinkAlone(db, tx);
      case _ => RowAlone(db, tx);
    }
  }

  lemma NothingMoved(db: Tables, w: Writes)
    requires w.moved == map[]
    ensures MovedItems(db.items, w.moved) == db.items
  {
  }

  lemma LinkAlone(db: Tables, tx: Tx)
    requires tx.phase == Writing && tx.todo == [] && ExactOk(db, tx) && Granted(db, tx)
    requires tx.job.AttachItem? || tx.job.AttachCategory? || tx.job.Exclude?
    ensures Alone(db, tx.job) == Done(Install(db, tx.writes), AuditOf(tx))
  {
    NothingMoved(db, tx.writes);
  }

  lemma RowAlone(db: Tables, tx: Tx)
    requires tx.phase == Writing && tx.todo == [] && WritingOk(db, tx) && Granted(db, tx)
      && !Taken(db, tx.writes.change)
    requires !tx.job.AttachItem? && !tx.job.AttachCategory? && !tx.job.Exclude? && !tx.job.MoveItem?
    requires !tx.job.ReplaceItem? && !tx.job.ReplaceCategory? && !tx.job.ReplaceAssignments?
    ensures Alone(db, tx.job) == Done(Install(db, tx.writes), AuditOf(tx))
  {
    NothingMoved(db, tx.writes);
  }

  /** Two relations with the same groups of one owner, and the same links of every other, are one relation. */
  lemma SameRelation(a: set<Link>, b: set<Link>, owner: Uuid)
    requires GroupsOf(a, owner) == GroupsOf(b, owner)
    requires forall l: Link :: l.owner != owner ==> (l in a <==> l in b)
    ensures a == b
  {
    forall l: Link ensures l in a <==> l in b {
      GroupsOfMember(a, owner, l.group);
      GroupsOfMember(b, owner, l.group);
    }
  }

  lemma SameOwners(a: set<Link>, b: set<Link>, group: Uuid)
    requires OwnersOf(a, group) == OwnersOf(b, group)
    requires forall l: Link :: l.group != group ==> (l in a <==> l in b)
    ensures a == b
  {
    forall l: Link ensures l in a <==> l in b {
      OwnersOfMember(a, l.owner, group);
      OwnersOfMember(b, l.owner, group);
    }
  }

  lemma RewiredIs(rel: set<Link>, rel': set<Link>, owner: Uuid, groups: set<Uuid>)
    requires GroupsOf(rel', owner) == groups
    requires forall l: Link :: l.owner != owner ==> (l in rel' <==> l in rel)
    ensures rel' == Rewired(rel, owner, groups)
  {
    var r := Rewired(rel, owner, groups);
    forall g ensures g in GroupsOf(r, owner) <==> g in groups {
      GroupsOfMember(r, owner, g);
      GroupsOfMember(rel, owner, g);
      assert Link(owner, g) in LinksFrom(owner, groups) <==> g in groups;
      assert Link(owner, g) in LinksFrom(owner, GroupsOf(rel, owner)) <==> g in GroupsOf(rel, owner);
    }
    SameRelation(rel', r, owner);
  }

  lemma RewiredOwnersIs(rel: set<Link>, rel': set<Link>, group: Uuid, owners: set<Uuid>)
    requires OwnersOf(rel', group) == owners
    requires forall l: Link :: l.group != group ==> (l in rel' <==> l in rel)
    ensures rel' == RewiredOwners(rel, group, owners)
  {
    var r := RewiredOwners(rel, group, owners);
    forall o ensures o in OwnersOf(r, group) <==> o in owners {
      OwnersOfMember(r, o, group);
      OwnersOfMember(rel, o, group);
      assert Link(o, group) in LinksTo(owners, group) <==> o in owners;
      assert Link(o, group) in LinksTo(OwnersOf(rel, group), group) <==> o in OwnersOf(rel, group);
    }
    SameOwners(rel', r, group);
  }

  lemma DroppedExactly(db: Tables, w: Writes)
    requires OnlyDropped(db, w) && w.addExcluded == {}
    requires forall l :: l in w.removeProvided ==> Dropped(db, w, l.owner, l.group)
    ensures forall l :: l in Install(db, w).excluded <==>
              l in db.excluded
                && !(l.owner in db.items && Link(db.items[l.owner].category, l.group) in w.removeProvided)
  {
    forall l | l in db.excluded && l.owner in db.items && Link(db.items[l.owner].category, l.group) in w.removeProvided
      ensures l in w.removeExcluded
    {
      assert Dropped(db, w, db.items[l.owner].category, l.group);
    }
  }

  lemma CategoryEffect(db: Tables, tx: Tx, c: Uuid, gs: set<Uuid>)
    requires tx.job == ReplaceCategory(c, gs) && tx.phase == Writing && tx.todo == []
    requires ProvidingOk(db, tx) && CategoryReads(db, tx, c, gs) && OnlyDropped(db, tx.writes)
    ensures Install(db, tx.writes) == CategoryReplaced(db, c, gs)
    ensures tx.writes.removeExcluded == CategoryExclusions(db, c, GroupsOf(db.provided, c) - gs)
  {
    var after := Install(db, tx.writes);
    CategoryInstalled(db, tx, c, gs);
    NothingMoved(db, tx.writes);
    RewiredIs(db.provided, after.provided, c, gs);
    DroppedExactly(db, tx.writes);
    var gone := GroupsOf(db.provided, c) - gs;
    forall l: Link ensures l in tx.writes.removeExcluded <==> l in CategoryExclusions(db, c, gone) {
      if l.owner in db.items {
        var lost := Link(db.items[l.owner].category, l.group);
        assert lost in tx.writes.removeProvided <==> lost in LinksFrom(c, gone);
        assert lost in LinksFrom(c, gone) <==> lost.owner == c && l.group in gone;
      }
    }
  }

  lemma CategoryAlone(db: Tables, tx: Tx, c: Uuid, gs: set<Uuid>)
    requires tx.job == ReplaceCategory(c, gs) && tx.phase == Writing && tx.todo == []
    requires ProvidingOk(db, tx) && CategoryReads(db, tx, c, gs) && OnlyDropped(db, tx.writes)
      && CategoryGranted(db, tx, c, gs)
    ensures Alone(db, tx.job) == Done(Install(db, tx.writes), AuditOf(tx))
  {
    CategoryEffect(db, tx, c, gs);
  }

  lemma AssignmentsEffect(db: Tables, tx: Tx, g: Uuid, its: set<Uuid>, cs: set<Uuid>)
    requires tx.job == ReplaceAssignments(g, its, cs) && tx.phase == Writing && tx.todo == []
    requires ProvidingOk(db, tx) && AssignmentReads(db, tx, g, its, cs) && OnlyDropped(db, tx.writes)
    ensures Install(db, tx.writes) == AssignmentsReplaced(db, g, its, cs)
    ensures tx.writes.removeExcluded == GroupExclusions(db, OwnersOf(db.provided, g) - cs, g)
  {
    var after := Install(db, tx.writes);
    AssignmentsInstalled(db, tx, g, its, cs);
    NothingMoved(db, tx.writes);
    RewiredOwnersIs(db.provided, after.provided, g, cs);
    RewiredOwnersIs(db.direct, after.direct, g, its);
    DroppedExactly(db, tx.writes);
    var gone := OwnersOf(db.provided, g) - cs;
    forall l: Link ensures l in tx.writes.removeExcluded <==> l in GroupExclusions(db, gone, g) {
      if l.owner in db.items {
        var lost := Link(db.items[l.owner].category, l.group);
        assert lost in tx.writes.removeProvided <==> lost in LinksTo(gone, g);
        assert lost in LinksTo(gone, g) <==> lost.owner in gone && l.group == g;
      }
    }
  }

  lemma AssignmentsAlone(db: Tables, tx: Tx, g: Uuid, its: set<Uuid>, cs: set<Uuid>)
    requires tx.job == ReplaceAssignments(g, its, cs) && tx.phase == Writing && tx.todo == []
    requires ProvidingOk(db, tx) && AssignmentReads(db, tx, g, its, cs) && OnlyDropped(db, tx.writes)
    requires AssignmentsGranted(db, tx, g, its, cs)
    ensures Alone(db, tx.job) == Done(Install(db, tx.writes), AuditOf(tx))
  {
    AssignmentsEffect(db, tx, g, its, cs);
  }

  lemma MoveAlone(db: Tables, tx: Tx, i: Uuid, c: Uuid)
    requires tx.job == MoveItem(i, c) && tx.phase == Writing && tx.todo == []
    requires MoveExact(db, tx, i, c) && MoveGranted(db, tx, i, c)
    ensures Alone(db, tx.job) == Done(Install(db, tx.writes), AuditOf(tx))
  {
    if tx.writes == NO_WRITES {
      NothingMoved(db, tx.writes);
      assert Install(db, tx.writes) == db;
    } else {
      var orphans := Orphaned(db, i, c);
      assert MovedItems(db.items, tx.writes.moved) == db.items[i := db.items[i].(category := c)];
      forall g ensures g in GroupsOf(LinksFrom(i, orphans), i) <==> g in orphans {
        GroupsOfMember(LinksFrom(i, orphans), i, g);
      }
      assert GroupsOf(LinksFrom(i, orphans), i) == orphans;
      var after := Install(db, tx.writes);
      assert i in tx.writes.moved;
      assert after.provided == db.provided && after.direct == db.direct;
      assert after.excluded == db.excluded - LinksFrom(i, orphans);
    }
  }

  // ---------- the item replacement ----------

  /** The exclusions the replacement read as stored that are gone by now. */
  ghost function Gone(db: Tables, tx: Tx): set<Uuid>
    requires tx.job.ReplaceItem?
  {
    tx.second - GroupsOf(db.excluded, tx.job.item)
  }

  /** Nothing it asked for was lost, and no retired group it makes direct has lost the exclusion that let it through. */
  ghost predicate NothingLost(db: Tables, tx: Tx)
    requires tx.job.ReplaceItem?
  {
    && tx.job.excluded !! Gone(db, tx)
    && forall g :: g in tx.job.direct - tx.first && g in Gone(db, tx) ==> !RetiredGroup(db, g)
  }

  lemma ItemEffect(db: Tables, tx: Tx, i: Uuid, d: set<Uuid>, e: set<Uuid>)
    requires tx.job == ReplaceItem(i, d, e) && tx.phase == Writing && tx.todo == []
    requires ReadsHold(db, tx) && ExcludingOk(db, tx)
    ensures Install(db, tx.writes) == ItemReplaced(db, i, d, e) <==> e !! Gone(db, tx)
  {
    PendingInstalled(db, tx);
    NothingMoved(db, tx.writes);
    var after := Install(db, tx.writes);
    RewiredIs(db.direct, after.direct, i, d);
    RewiredIs(db.excluded, after.excluded, i, GroupsOf(after.excluded, i));
    var r := Rewired(db.excluded, i, e);
    if e !! Gone(db, tx) {
      assert GroupsOf(after.excluded, i) == e;
    } else {
      var g :| g in e && g in Gone(db, tx);
      assert Link(i, g) in LinksFrom(i, e);
      GroupsOfMember(after.excluded, i, g);
      assert Link(i, g) in r && Link(i, g) !in after.excluded;
    }
  }

  /** The serial replacement is refused now exactly for a retired group that it would add now and did not add then. */
  lemma ItemAccepted(db: Tables, tx: Tx, i: Uuid, d: set<Uuid>, e: set<Uuid>)
    requires tx.job == ReplaceItem(i, d, e) && tx.phase == Writing && ReadsHold(db, tx) && ItemGranted(db, tx, i, d, e)
    requires e !! Gone(db, tx)
    ensures ReplaceItemSets(db, i, d, e).Done?
      <==> forall g :: g in d - tx.first && g in Gone(db, tx) ==> !RetiredGroup(db, g)
  {
    var current := GroupsOf(db.direct, i) + GroupsOf(db.excluded, i);
    assert current + (d + e) <= (tx.first + tx.second) + (d + e) <= db.groups.Keys;
    forall g | RetiredGroup(db, g)
      ensures g in (d + e) - current <==> g in d - tx.first && g in Gone(db, tx)
    {
      assert !(g in (d + e) - (tx.first + tx.second) && RetiredGroup(db, g));
    }
    if g :| g in d - tx.first && g in Gone(db, tx) && RetiredGroup(db, g) {
      assert g in (d + e) - current && RetiredGroup(db, g);
    }
  }

  /**
   In any schedule a committing item replacement does what the serial command
   does at that moment if and only if nothing it relied on was lost since it
   read its exclusions.
   */
  lemma ItemReplacementIsSerial(s: System, id: nat)
    requires GrantedIn(s) && Ready(s, id) && s.txs[id].job.ReplaceItem?
    ensures var o := Alone(s.db, s.txs[id].job);
      (o.Done? && o.tables == Do(s, Commit(id)).db) <==> NothingLost(s.db, s.txs[id])
  {
    ReadyItem(s, id);
    ItemJobAlone(s.db, s.txs[id]);
  }

  /** What is known of an item replacement that is about to commit. */
  ghost predicate ItemReady(db: Tables, tx: Tx) {
    && tx.job.ReplaceItem? && tx.phase == Writing && tx.todo == []
    && ReadsHold(db, tx) && ExcludingOk(db, tx) && ItemGranted(db, tx, tx.job.item, tx.job.direct, tx.job.excluded)
  }

  lemma ReadyItem(s: System, id: nat)
    requires GrantedIn(s) && Ready(s, id) && s.txs[id].job.ReplaceItem?
    ensures ItemReady(s.db, s.txs[id])
    ensures Do(s, Commit(id)).db == Install(s.db, s.txs[id].writes)
  {
    var tx := s.txs[id];
    assert TxOk(s.db, tx) && ReadsHold(s.db, tx) && Granted(s.db, tx);
    KnownIsReady(s.db, tx);
  }

  lemma KnownIsReady(db: Tables, tx: Tx)
    requires tx.job.ReplaceItem? && tx.phase == Writing && tx.todo == []
    requires WritingOk(db, tx) && ReadsHold(db, tx) && Granted(db, tx)
    ensures ItemReady(db, tx)
  {
  }

  lemma ItemJobAlone(db: Tables, tx: Tx)
    requires ItemReady(db, tx)
    ensures var o := Alone(db, tx.job);
      (o.Done? && o.tables == Install(db, tx.writes)) <==> NothingLost(db, tx)
  {
    ItemAlone(db, tx, tx.job.item, tx.job.direct, tx.job.excluded);
  }

  lemma ItemAlone(db: Tables, tx: Tx, i: Uuid, d: set<Uuid>, e: set<Uuid>)
    requires tx.job == ReplaceItem(i, d, e) && tx.phase == Writing && tx.todo == []
    requires ReadsHold(db, tx) && ExcludingOk(db, tx) && ItemGranted(db, tx, i, d, e)
    ensures var o := ReplaceItemSets(db, i, d, e);
      (o.Done? && o.tables == Install(db, tx.writes)) <==> NothingLost(db, tx)
  {
    ItemEffect(db, tx, i, d, e);
    if e !! Gone(db, tx) { ItemAccepted(db, tx, i, d, e); }
  }

  /** The change recorded for a desired set tells the set it started from. */
  lemma ChangeTellsCurrent(a: set<Uuid>, b: set<Uuid>, desired: set<Uuid>)
    ensures Change(a, desired) == Change(b, desired) <==> a == b
  {
    ListingFacts(desired - a);
    ListingFacts(desired - b);
    ListingFacts(a - desired);
    ListingFacts(b - desired);
    if Change(a, desired) == Change(b, desired) {
      assert desired - a == desired - b && a - desired == b - desired;
      assert a == (desired - (desired - a)) + (a - desired);
      assert b == (desired - (desired - b)) + (b - desired);
    }
  }

  /**
   The audit event of the item replacement is the serial one exactly when the exclusions it read are
   those stored now.
   */
  lemma ItemAuditTells(db: Tables, tx: Tx, i: Uuid, d: set<Uuid>, e: set<Uuid>)
    requires tx.job == ReplaceItem(i, d, e) && tx.first == GroupsOf(db.direct, i)
    requires ReplaceItemSets(db, i, d, e).Done?
    ensures ReplaceItemSets(db, i, d, e).audit == AuditOf(tx) <==> tx.second == GroupsOf(db.excluded, i)
  {
    var stored := GroupsOf(db.excluded, i);
    ChangeTellsCurrent(tx.second, stored, e);
    if tx.second == stored {
      assert ReplaceItemSets(db, i, d, e).audit == AuditOf(tx);
    }
  }

  /**
   A committing item replacement is the serial command with its audit event if and
   only if it lost nothing it read, asked for or not; the tables follow from the event.
   */
  lemma ItemAuditIsSerial(s: System, id: nat)
    requires GrantedIn(s) && Ready(s, id) && s.txs[id].job.ReplaceItem?
    ensures var tx := s.txs[id];
      var o := Alone(s.db, tx.job);
      && ((o.Done? && o.audit == AuditOf(tx)) <==> Gone(s.db, tx) == {})
      && (o == Done(Do(s, Commit(id)).db, AuditOf(tx)) <==> Gone(s.db, tx) == {})
  {
    ReadyItem(s, id);
    ItemJobAudit(s.db, s.txs[id]);
  }

  lemma ItemJobAudit(db: Tables, tx: Tx)
    requires ItemReady(db, tx)
    ensures var o := Alone(db, tx.job);
      && ((o.Done? && o.audit == AuditOf(tx)) <==> Gone(db, tx) == {})
      && (o == Done(Install(db, tx.writes), AuditOf(tx)) <==> Gone(db, tx) == {})
  {
    ItemAuditAlone(db, tx, tx.job.item, tx.job.direct, tx.job.excluded);
  }

  lemma NothingGone(read: set<Uuid>, stored: set<Uuid>)
    requires stored <= read
    ensures read - stored == {} <==> read == stored
  {
    if read - stored == {} { assert forall g :: g in read ==> g !in read - stored; }
  }

  lemma ItemAuditAlone(db: Tables, tx: Tx, i: Uuid, d: set<Uuid>, e: set<Uuid>)
    requires tx.job == ReplaceItem(i, d, e) && tx.phase == Writing && tx.todo == []
    requires ReadsHold(db, tx) && ExcludingOk(db, tx) && ItemGranted(db, tx, i, d, e)
    ensures var o := ReplaceItemSets(db, i, d, e);
      && ((o.Done? && o.audit == AuditOf(tx)) <==> Gone(db, tx) == {})
      && (o == Done(Install(db, tx.writes), AuditOf(tx)) <==> Gone(db, tx) == {})
  {
    ItemAlone(db, tx, i, d, e);
    NothingGone(tx.second, GroupsOf(db.excluded, i));
    if ReplaceItemSets(db, i, d, e).Done? { ItemAuditTells(db, tx, i, d, e); }
  }

  // ---------- runs ----------

  /** The event is a commit that takes effect. */
  ghost predicate Commits(s: System, e: Event) {
    e.Commit? && Ready(s, e.id)
  }

  /** The audit events a schedule writes, in commit order. */
  ghost function Log(s: System, events: seq<Event>): seq<Audit>
    decreases |events|
  {
    if events == [] then []
    else
      var rest := Log(Do(s, events[0]), events[1..]);
      if Commits(s, events[0]) && AuditOf(s.txs[events[0].id]).Some? then [AuditOf(s.txs[events[0].id]).value] + rest
      else rest
  }

  /** The commands a schedule commits, in commit order. */
  ghost function Committed(s: System, events: seq<Event>): seq<Job>
    decreases |events|
  {
    if events == [] then []
    else
      var rest := Committed(Do(s, events[0]), events[1..]);
      if Commits(s, events[0]) then [s.txs[events[0].id].job] + rest else rest
  }

  /** No item replacement of the schedule commits after losing something it relied on. */
  ghost predicate LosesNothing(s: System, events: seq<Event>)
    decreases |events|
  {
    events != [] ==>
      && (Commits(s, events[0]) && s.txs[events[0].id].job.ReplaceItem? ==> NothingLost(s.db, s.txs[events[0].id]))
      && LosesNothing(Do(s, events[0]), events[1..])
  }

  /** A serial run in which every command is accepted. */
  ghost predicate RunsTo(t: Tables, jobs: seq<Job>, t': Tables)
    decreases |jobs|
  {
    if jobs == [] then t' == t
    else Alone(t, jobs[0]).Done? && RunsTo(Alone(t, jobs[0]).tables, jobs[1..], t')
  }

  lemma OnlyCommitsWrite(s: System, e: Event)
    ensures !Commits(s, e) ==> Do(s, e).db == s.db
  {
  }

  /**
   A schedule that loses nothing is a serial run: its commands, in commit order
   and one at a time, are all accepted and end in the same tables.
   */
  lemma {:induction false} ScheduleIsSerialRun(s: System, events: seq<Event>)
    requires GrantedIn(s) && LosesNothing(s, events)
    ensures RunsTo(s.db, Committed(s, events), Play(s, events).db)
    decreases |events|
  {
    if events != [] {
      DoKeepsGranted(s, events[0]);
      OnlyCommitsWrite(s, events[0]);
      ScheduleIsSerialRun(Do(s, events[0]), events[1..]);
      if Commits(s, events[0]) {
        var job := s.txs[events[0].id].job;
        if job.ReplaceItem? { ItemReplacementIsSerial(s, events[0].id); } else { CommitIsAlone(s, events[0].id); }
        assert Committed(s, events)[1..] == Committed(Do(s, events[0]), events[1..]);
      }
    }
  }

  lemma AloneAudited(t: Tables, job: Job)
    requires !job.ReplaceItem?
    ensures Audited(t, Alone(t, job))
  {
    match job {
      case ReplaceCategory(c, gs) => CategoryReplacementAudited(t, c, gs);
      case ReplaceAssignments(g, its, cs) => AssignmentsAudited(t, g, its, cs);
      case MoveItem(i, c) => MoveAudited(t, i, c);
      case _ => OneRowAudited(t, job);
    }
  }

  lemma OneRowAudited(t: Tables, job: Job)
    requires !job.ReplaceItem? && !job.ReplaceCategory? && !job.ReplaceAssignments? && !job.MoveItem?
    ensures Audited(t, Alone(t, job))
  {
    match job {
      case AttachItem(i, g) => CommandAudited(t, CmdAttachItem(i, g));
      case AttachCategory(c, g) => CommandAudited(t, CmdAttachCategory(c, g));
      case Exclude(i, g) => CommandAudited(t, CmdExclude(i, g));
      case CreateCategory(c) => CommandAudited(t, CmdCreateCategory(c));
      case CreateGroup(g) => CommandAudited(t, CmdCreateGroup(g));
      case CreateItem(i, c) => CommandAudited(t, CmdCreateItem(i, c));
      case RetireCategory(c) => CommandAudited(t, CmdRetireCategory(c));
      case RetireGroup(g) => CommandAudited(t, CmdRetireGroup(g));
      case RetireItem(i) => CommandAudited(t, CmdRetireItem(i));
      case _ =>
    }
  }

  /** What an item replacement records is what it wrote, lost exclusions or not. */
  lemma ItemCommitAudited(db: Tables, tx: Tx, i: Uuid, d: set<Uuid>, e: set<Uuid>)
    requires tx.job == ReplaceItem(i, d, e) && tx.phase == Writing && tx.todo == []
    requires ReadsHold(db, tx) && ExcludingOk(db, tx)
    ensures AuditOf(tx).Some? ==> Replay1(db, AuditOf(tx).value) == Install(db, tx.writes)
    ensures AuditOf(tx).None? ==> Install(db, tx.writes) == db
  {
    PatchedInstalled(db, tx, i, d, e);
    PatchedIsAudited(db, tx, i, d, e);
  }

  lemma PatchedIsAudited(db: Tables, tx: Tx, i: Uuid, d: set<Uuid>, e: set<Uuid>)
    requires tx.job == ReplaceItem(i, d, e)
    ensures var patched := db.(direct := Patched(db.direct, i, Change(tx.first, d)),
                               excluded := Patched(db.excluded, i, Change(tx.second, e)));
      patched == if AuditOf(tx).Some? then Replay1(db, AuditOf(tx).value) else db
  {
    if tx.first == d && tx.second == e {
      PatchedNothing(db, i, d, e);
    } else {
      PatchedReplays(db, i, Change(tx.first, d), Change(tx.second, e));
    }
  }

  lemma PatchedReplays(db: Tables, i: Uuid, dc: IdSetChange, ec: IdSetChange)
    ensures Replay1(db, ItemGroupsReplaced(i, dc, ec))
      == db.(direct := Patched(db.direct, i, dc), excluded := Patched(db.excluded, i, ec))
  {
  }

  lemma PatchedNothing(db: Tables, i: Uuid, d: set<Uuid>, e: set<Uuid>)
    ensures db.(direct := Patched(db.direct, i, Change(d, d)), excluded := Patched(db.excluded, i, Change(e, e))) == db
  {
    PatchedBy(db.direct, i, d, d);
    PatchedBy(db.excluded, i, e, e);
  }

  lemma PatchedInstalled(db: Tables, tx: Tx, i: Uuid, d: set<Uuid>, e: set<Uuid>)
    requires tx.job == ReplaceItem(i, d, e) && tx.phase == Writing && tx.todo == []
    requires ReadsHold(db, tx) && ExcludingOk(db, tx)
    ensures Install(db, tx.writes) == db.(direct := Patched(db.direct, i, Change(tx.first, d)),
                                          excluded := Patched(db.excluded, i, Change(tx.second, e)))
  {
    PendingDone(tx, i, d, e);
    NothingMoved(db, tx.writes);
    PatchedBy(db.direct, i, tx.first, d);
    PatchedBy(db.excluded, i, tx.second, e);
    assert (db.provided - {}) + {} == db.provided;
  }

  lemma PendingDone(tx: Tx, i: Uuid, d: set<Uuid>, e: set<Uuid>)
    requires tx.todo == [] && Pending(tx, i, d, e)
    ensures tx.writes.addDirect == LinksFrom(i, d - tx.first) && tx.writes.removeDirect == LinksFrom(i, tx.first - d)
    ensures tx.writes.addExcluded == LinksFrom(i, e - tx.second)
      && tx.writes.removeExcluded == LinksFrom(i, tx.second - e)
  {
  }

  /** The recorded change of a set patches the relation as the writes of the change do. */
  lemma PatchedBy(rel: set<Link>, owner: Uuid, current: set<Uuid>, desired: set<Uuid>)
    ensures Patched(rel, owner, Change(current, desired))
            == (rel - LinksFrom(owner, current - desired)) + LinksFrom(owner, desired - current)
    ensures current == desired ==> Patched(rel, owner, Change(current, desired)) == rel
  {
    ListingFacts(desired - current);
    ListingFacts(current - desired);
    if current == desired {
      assert LinksFrom(owner, current - desired) == {} && LinksFrom(owner, desired - current) == {};
    }
  }

  lemma CommitAudited(s: System, id: nat)
    requires GrantedIn(s) && Ready(s, id)
    ensures var audit := AuditOf(s.txs[id]);
      Do(s, Commit(id)).db == if audit.Some? then Replay1(s.db, audit.value) else s.db
  {
    var tx := s.txs[id];
    if tx.job.ReplaceItem? {
      ReadyItem(s, id);
      ItemCommitAudited(s.db, tx, tx.job.item, tx.job.direct, tx.job.excluded);
    } else {
      CommitIsAlone(s, id);
      AloneAudited(s.db, tx.job);
    }
  }

  /** Under any interleaving the audit events, folded in commit order, rebuild the tables. */
  lemma {:induction false} LogRebuilds(s: System, events: seq<Event>)
    requires GrantedIn(s)
    ensures Replay(s.db, Log(s, events)) == Play(s, events).db
    decreases |events|
  {
    if events != [] {
      DoKeepsGranted(s, events[0]);
      OnlyCommitsWrite(s, events[0]);
      LogRebuilds(Do(s, events[0]), events[1..]);
      if Commits(s, events[0]) {
        CommitAudited(s, events[0].id);
        assert AuditOf(s.txs[events[0].id]).Some? ==> Log(s, events)[1..] == Log(Do(s, events[0]), events[1..]);
      }
    }
  }

  /** From consistent tables, for every schedule. */
  lemma ConcurrentAuditRebuilds(db: Tables, events: seq<Event>)
    requires ExclusionsProvided(db)
    ensures Replay(db, Log(Start(db), events)) == Play(Start(db), events).db
  {
    LogRebuilds(Start(db), events);
  }

  /** From consistent tables, for every schedule that loses nothing. */
  lemma EveryScheduleIsSerial(db: Tables, events: seq<Event>)
    requires ExclusionsProvided(db) && LosesNothing(Start(db), events)
    ensures RunsTo(db, Committed(Start(db), events), Play(Start(db), events).db)
  {
    ScheduleIsSerialRun(Start(db), events);
  }

  // ---------- retired rows ----------

  /** A retired group changes sides, by the sets the replacement read. */
  ghost predicate SwitchesSides(db: Tables, tx: Tx, g: Uuid)
    requires tx.job.ReplaceItem?
  {
    RetiredGroup(db, g)
      && ((g in tx.job.direct - tx.first && g in tx.second) || (g in tx.job.excluded - tx.second && g in tx.first))
  }

  /**
   In any schedule a commit adds links between active rows only, if and only if
   it is not an item replacement that moves a retired group to the other side.
   */
  lemma CommitAddsOnlyActive(s: System, id: nat)
    requires GrantedIn(s) && Ready(s, id)
    ensures AddsOnlyActive(s.db, Do(s, Commit(id)).db)
            <==> (s.txs[id].job.ReplaceItem? ==> forall g :: !SwitchesSides(s.db, s.txs[id], g))
  {
    var tx := s.txs[id];
    if tx.job.ReplaceItem? {
      ReadyItem(s, id);
      ItemCommitAdds(s.db, tx, tx.job.item, tx.job.direct, tx.job.excluded);
    } else {
      CommitIsAlone(s, id);
      AloneAddsOnlyActive(s.db, tx.job);
    }
  }

  /** The same from consistent tables, for every schedule. */
  lemma EveryCommitAddsOnlyActive(db: Tables, events: seq<Event>, id: nat)
    requires ExclusionsProvided(db) && Ready(Play(Start(db), events), id)
    ensures var s := Play(Start(db), events);
      AddsOnlyActive(s.db, Do(s, Commit(id)).db)
      <==> (s.txs[id].job.ReplaceItem? ==> forall g :: !SwitchesSides(s.db, s.txs[id], g))
  {
    PlayKeepsGranted(Start(db), events);
    CommitAddsOnlyActive(Play(Start(db), events), id);
  }

  lemma AloneAddsOnlyActive(t: Tables, job: Job)
    requires !job.ReplaceItem? && Alone(t, job).Done?
    ensures AddsOnlyActive(t, Alone(t, job).tables)
  {
    match job {
      case ReplaceCategory(c, gs) => ReplaceCategoryAdds(t, c, gs);
      case ReplaceAssignments(g, its, cs) => ReplaceAssignmentsAdds(t, g, its, cs);
      case _ =>
    }
  }

  lemma ItemCommitAdds(db: Tables, tx: Tx, i: Uuid, d: set<Uuid>, e: set<Uuid>)
    requires tx.job == ReplaceItem(i, d, e) && tx.phase == Writing && tx.todo == []
    requires ReadsHold(db, tx) && ExcludingOk(db, tx) && ItemGranted(db, tx, i, d, e)
    ensures AddsOnlyActive(db, Install(db, tx.writes)) <==> forall g :: !SwitchesSides(db, tx, g)
  {
    var after := Install(db, tx.writes);
    PendingDone(tx, i, d, e);
    forall l: Link
      ensures l in after.direct - db.direct <==> l in LinksFrom(i, d - tx.first)
      ensures l in after.excluded - db.excluded <==> l in LinksFrom(i, e - tx.second)
    {
      GroupsOfMember(db.direct, i, l.group);
      GroupsOfMember(db.excluded, i, l.group);
    }
    forall g | g in d + e ensures ActiveGroup(db, g) || (RetiredGroup(db, g) && g in tx.first + tx.second) {
      assert g in (tx.first + tx.second) + (d + e);
      assert !(g in (d + e) - (tx.first + tx.second) && RetiredGroup(db, g));
    }
    if g :| SwitchesSides(db, tx, g) {
      assert Link(i, g) in LinksFrom(i, d - tx.first) || Link(i, g) in LinksFrom(i, e - tx.second);
    } else {
      forall l | l in after.direct - db.direct || l in after.excluded - db.excluded ensures ActiveGroup(db, l.group) {
        assert !SwitchesSides(db, tx, l.group);
      }
    }
  }
}
