/**
 What `ReplaceCategoryModifierGroups` and `ReplaceGroupAssignments` store when
 other commands run at the same time. They read their current links under a lock
 that every writer of those links takes, so they store exactly what was asked for.
 */
module OwnerRaces {
  import opened Prelude
  import opened Uuids
  import opened IdSets
  import opened Links
  import opened Locks
  import opened Transactions
  import opened LinkSafety
  import opened LinkRuns
  import opened ItemRaces

  /** The provided links a transaction adds and removes, done or still to do. */
  ghost predicate PendingProvided(tx: Tx, add: set<Link>, remove: set<Link>) {
    && (forall l :: l in tx.writes.addProvided || AddProvided(l.owner, l.group) in tx.todo <==> l in add)
    && (forall l :: l in tx.writes.removeProvided || RemoveProvided(l.owner, l.group) in tx.todo <==> l in remove)
  }

  ghost predicate PendingDirect(tx: Tx, add: set<Link>, remove: set<Link>) {
    && (forall l :: l in tx.writes.addDirect || AddDirect(l.owner, l.group) in tx.todo <==> l in add)
    && (forall l :: l in tx.writes.removeDirect || RemoveDirect(l.owner, l.group) in tx.todo <==> l in remove)
  }

  /** What a running category replacement knows about the set it read. */
  ghost predicate CategoryReads(db: Tables, tx: Tx, c: Uuid, gs: set<Uuid>) {
    && (tx.phase == Checking || tx.phase == Writing ==>
        CategoryLock(c) in tx.held && tx.first == GroupsOf(db.provided, c))
    && (tx.phase == Writing ==> PendingProvided(tx, LinksFrom(c, gs - tx.first), LinksFrom(c, tx.first - gs))
                                && PendingDirect(tx, {}, {}))
  }

  /** What a running column-wise replacement knows about the two sets it read. */
  ghost predicate AssignmentReads(db: Tables, tx: Tx, g: Uuid, its: set<Uuid>, cs: set<Uuid>) {
    && (tx.phase == FirstRead || tx.phase == Checking || tx.phase == Writing ==>
          GroupLock(g) in tx.held && tx.first == OwnersOf(db.direct, g))
    && (tx.phase == Checking || tx.phase == Writing ==> tx.second == OwnersOf(db.provided, g))
    && (tx.phase == Writing ==> PendingProvided(tx, LinksTo(cs - tx.second, g), LinksTo(tx.second - cs, g))
                                && PendingDirect(tx, LinksTo(its - tx.first, g), LinksTo(tx.first - its, g))
                                && (its - tx.first) * OwnersOf(db.excluded, g) == {})
  }

  ghost predicate OwnerReads(db: Tables, tx: Tx) {
    && (tx.job.ReplaceCategory? ==> CategoryReads(db, tx, tx.job.category, tx.job.groups))
    && (tx.job.ReplaceAssignments? ==> AssignmentReads(db, tx, tx.job.group, tx.job.items, tx.job.categories))
  }

  ghost predicate OwnerReadsIn(s: System) {
    Safe(s) && forall id :: id in s.txs ==> OwnerReads(s.db, s.txs[id])
  }

  // ---------- statements ----------

  lemma AcquireKeepsOwnerReads(db: Tables, tx: Tx)
    requires TxOk(db, tx) && OwnerReads(db, tx) && tx.todo != [] && tx.todo[0].Acquire?
    ensures OwnerReads(db, tx.(todo := tx.todo[1..], held := tx.held + {tx.todo[0].lock}))
  {
    assert tx.phase == Writing ==> OpLocked(tx.held, tx.todo[0]);
  }

  lemma WriteMovesPending(db: Tables, tx: Tx, add: set<Link>, remove: set<Link>)
    requires tx.todo != []
    ensures PendingProvided(tx, add, remove) ==>
              PendingProvided(tx.(todo := tx.todo[1..], writes := Write(db, tx.writes, tx.todo[0])), add, remove)
    ensures PendingDirect(tx, add, remove) ==>
              PendingDirect(tx.(todo := tx.todo[1..], writes := Write(db, tx.writes, tx.todo[0])), add, remove)
  {
    assert tx.todo == [tx.todo[0]] + tx.todo[1..];
  }

  lemma WriteKeepsOwnerReads(db: Tables, tx: Tx)
    requires TxOk(db, tx) && OwnerReads(db, tx) && tx.todo != [] && !tx.todo[0].Acquire?
    ensures OwnerReads(db, tx.(todo := tx.todo[1..], writes := Write(db, tx.writes, tx.todo[0])))
  {
    assert tx.phase == Writing;
    if tx.job.ReplaceCategory? {
      var (c, gs) := (tx.job.category, tx.job.groups);
      WriteMovesPending(db, tx, LinksFrom(c, gs - tx.first), LinksFrom(c, tx.first - gs));
      WriteMovesPending(db, tx, {}, {});
    } else if tx.job.ReplaceAssignments? {
      var (g, its, cs) := (tx.job.group, tx.job.items, tx.job.categories);
      WriteMovesPending(db, tx, LinksTo(cs - tx.second, g), LinksTo(tx.second - cs, g));
      WriteMovesPending(db, tx, LinksTo(its - tx.first, g), LinksTo(tx.first - its, g));
    }
  }

  lemma {:induction false} RemovalsFromMembers(c: Uuid, gs: seq<Uuid>)
    ensures forall g :: g in gs ==> RemoveProvided(c, g) in RemovalsFrom(c, gs)
    decreases |gs|
  {
    if gs != [] { RemovalsFromMembers(c, gs[1..]); }
  }

  lemma {:induction false} RemovalsOfMembers(g: Uuid, cs: seq<Uuid>)
    ensures forall c :: c in cs ==> RemoveProvided(c, g) in RemovalsOf(g, cs)
    decreases |cs|
  {
    if cs != [] { RemovalsOfMembers(g, cs[1..]); }
  }

  /** Membership of one statement in a loop over ids. */
  lemma EachIs(s: set<Uuid>, op: Uuid -> Op, o: Op)
    ensures o in Each(Listing(s), op) <==> exists id :: id in s && op(id) == o
  {
    EachFacts(s, op);
    EachMembers(s, op);
  }

  lemma CategoryWritesMembers(c: Uuid, current: set<Uuid>, gs: set<Uuid>, o: Op)
    ensures o.AddProvided? ==>
      (o in CategoryWrites(c, current, gs) <==> Link(o.category, o.group) in LinksFrom(c, gs - current))
    ensures o.RemoveProvided? ==>
      (o in CategoryWrites(c, current, gs) <==> Link(o.category, o.group) in LinksFrom(c, current - gs))
    ensures o.AddDirect? || o.RemoveDirect? ==> o !in CategoryWrites(c, current, gs)
  {
    var gone := Listing(current - gs);
    ListingFacts(current - gs);
    RemovalsFromFacts(c, gone);
    RemovalsFromMembers(c, gone);
    EachIs(gs - current, g => AddProvided(c, g), o);
    assert o.RemoveProvided? ==> (o.group in gone <==> o.group in Elements(gone));
  }

  lemma CategoryWritesPending(tx: Tx, c: Uuid, gs: set<Uuid>)
    requires tx.writes == NO_WRITES
    ensures var tx' := tx.(phase := Writing, todo := CategoryWrites(c, tx.first, gs));
      && PendingProvided(tx', LinksFrom(c, gs - tx.first), LinksFrom(c, tx.first - gs))
      && PendingDirect(tx', {}, {})
  {
    forall o: Op
      ensures o.AddProvided? ==>
        (o in CategoryWrites(c, tx.first, gs) <==> Link(o.category, o.group) in LinksFrom(c, gs - tx.first))
      ensures o.RemoveProvided? ==>
        (o in CategoryWrites(c, tx.first, gs) <==> Link(o.category, o.group) in LinksFrom(c, tx.first - gs))
      ensures o.AddDirect? || o.RemoveDirect? ==> o !in CategoryWrites(c, tx.first, gs)
    {
      CategoryWritesMembers(c, tx.first, gs, o);
    }
  }

  lemma ProvidedWritesMembers(g: Uuid, curItems: set<Uuid>, curCats: set<Uuid>, its: set<Uuid>, cs: set<Uuid>, o: Op)
    requires o.AddProvided? || o.RemoveProvided?
    ensures o in AssignmentWrites(g, curItems, curCats, its, cs)
            <==> Link(o.category, o.group) in LinksTo(if o.AddProvided? then cs - curCats else curCats - cs, g)
  {
    var gone := Listing(curCats - cs);
    ListingFacts(curCats - cs);
    RemovalsOfFacts(g, gone);
    RemovalsOfMembers(g, gone);
    EachIs(cs - curCats, c => AddProvided(c, g), o);
    EachIs(curItems - its, i => RemoveDirect(i, g), o);
    EachIs(its - curItems, i => AddDirect(i, g), o);
    assert o.category in gone <==> o.category in Elements(gone);
  }

  lemma DirectWritesMembers(g: Uuid, curItems: set<Uuid>, curCats: set<Uuid>, its: set<Uuid>, cs: set<Uuid>, o: Op)
    requires o.AddDirect? || o.RemoveDirect?
    ensures o in AssignmentWrites(g, curItems, curCats, its, cs)
            <==> Link(o.item, o.group) in LinksTo(if o.AddDirect? then its - curItems else curItems - its, g)
  {
    RemovalsOfFacts(g, Listing(curCats - cs));
    EachIs(cs - curCats, c => AddProvided(c, g), o);
    EachIs(curItems - its, i => RemoveDirect(i, g), o);
    EachIs(its - curItems, i => AddDirect(i, g), o);
  }

  lemma AssignmentWritesPending(tx: Tx, g: Uuid, its: set<Uuid>, cs: set<Uuid>)
    requires tx.writes == NO_WRITES
    ensures var tx' := tx.(phase := Writing, todo := AssignmentWrites(g, tx.first, tx.second, its, cs));
      && PendingProvided(tx', LinksTo(cs - tx.second, g), LinksTo(tx.second - cs, g))
      && PendingDirect(tx', LinksTo(its - tx.first, g), LinksTo(tx.first - its, g))
  {
    var todo := AssignmentWrites(g, tx.first, tx.second, its, cs);
    forall l: Link
      ensures AddProvided(l.owner, l.group) in todo <==> l in LinksTo(cs - tx.second, g)
      ensures RemoveProvided(l.owner, l.group) in todo <==> l in LinksTo(tx.second - cs, g)
      ensures AddDirect(l.owner, l.group) in todo <==> l in LinksTo(its - tx.first, g)
      ensures RemoveDirect(l.owner, l.group) in todo <==> l in LinksTo(tx.first - its, g)
    {
      ProvidedWritesMembers(g, tx.first, tx.second, its, cs, AddProvided(l.owner, l.group));
      ProvidedWritesMembers(g, tx.first, tx.second, its, cs, RemoveProvided(l.owner, l.group));
      DirectWritesMembers(g, tx.first, tx.second, its, cs, AddDirect(l.owner, l.group));
      DirectWritesMembers(g, tx.first, tx.second, its, cs, RemoveDirect(l.owner, l.group));
    }
  }

  lemma NextKeepsOwnerReads(db: Tables, tx: Tx)
    requires tx.phase != Writing && TxOk(db, tx) && OwnerReads(db, tx) && tx.todo == [] && Next(db, tx).Some?
    ensures OwnerReads(db, Next(db, tx).value)
  {
    NextKeepsRest(db, tx);
    assert forall l :: Covered(tx, l) ==> l in tx.held;
    if tx.job.ReplaceCategory? {
      NextKeepsCategoryReads(db, tx, tx.job.category, tx.job.groups);
    } else if tx.job.ReplaceAssignments? {
      NextKeepsAssignmentReads(db, tx, tx.job.group, tx.job.items, tx.job.categories);
    }
  }

  lemma NextKeepsCategoryReads(db: Tables, tx: Tx, c: Uuid, gs: set<Uuid>)
    requires tx.job == ReplaceCategory(c, gs) && tx.phase != Writing && ReadingOk(db, tx)
      && CategoryReads(db, tx, c, gs)
    requires tx.todo == [] && Next(db, tx).Some? && forall l :: Covered(tx, l) ==> l in tx.held
    ensures CategoryReads(db, Next(db, tx).value, c, gs)
  {
    if tx.phase == Checking { CategoryWritesPending(tx, c, gs); }
  }

  lemma NextKeepsAssignmentReads(db: Tables, tx: Tx, g: Uuid, its: set<Uuid>, cs: set<Uuid>)
    requires tx.job == ReplaceAssignments(g, its, cs) && tx.phase != Writing && ReadingOk(db, tx)
    requires AssignmentReads(db, tx, g, its, cs)
    requires tx.todo == [] && Next(db, tx).Some? && forall l :: Covered(tx, l) ==> l in tx.held
    ensures AssignmentReads(db, Next(db, tx).value, g, its, cs)
  {
    if tx.phase == Checking {
      AssignmentsAllowed(db, tx, g, its, cs);
      AssignmentWritesPending(tx, g, its, cs);
    }
  }

  /** A column-wise replacement is let through only if nothing it attaches is excluded. */
  lemma AssignmentsAllowed(db: Tables, tx: Tx, g: Uuid, its: set<Uuid>, cs: set<Uuid>)
    requires tx.job == ReplaceAssignments(g, its, cs) && tx.phase == Checking && Decide(db, tx).Some?
    ensures (its - tx.first) * OwnersOf(db.excluded, g) == {}
    ensures Next(db, tx)
         == Some(tx.(phase := Writing, todo := AssignmentWrites(g, tx.first, tx.second, its, cs)))
  {
  }

  // ---------- commits of others ----------

  lemma CommitKeepsOwnerReads(db: Tables, w: Writes, held: set<Lock>, other: Tx)
    requires WritesLocked(held, w) && held !! other.held && OwnerReads(db, other)
    ensures OwnerReads(Install(db, w), other)
  {
    if other.job.ReplaceCategory? && CategoryLock(other.job.category) in other.held {
      LockedCategoryStays(db, w, held, other.held, other.job.category);
    }
    if other.job.ReplaceAssignments? && GroupLock(other.job.group) in other.held {
      LockedGroupStays(db, w, held, other.held, other.job.group);
    }
  }

  lemma LockedCategoryStays(db: Tables, w: Writes, held: set<Lock>, others: set<Lock>, c: Uuid)
    requires WritesLocked(held, w) && held !! others && CategoryLock(c) in others
    ensures GroupsOf(Install(db, w).provided, c) == GroupsOf(db.provided, c)
  {
    assert CategoryLock(c) !in held;
    assert forall g :: Link(c, g) in Install(db, w).provided <==> Link(c, g) in db.provided;
  }

  lemma LockedGroupStays(db: Tables, w: Writes, held: set<Lock>, others: set<Lock>, g: Uuid)
    requires WritesLocked(held, w) && held !! others && GroupLock(g) in others
    ensures OwnersOf(Install(db, w).provided, g) == OwnersOf(db.provided, g)
    ensures OwnersOf(Install(db, w).direct, g) == OwnersOf(db.direct, g)
    ensures OwnersOf(Install(db, w).excluded, g) <= OwnersOf(db.excluded, g)
  {
    assert GroupLock(g) !in held;
    assert forall o :: Link(o, g) in Install(db, w).provided <==> Link(o, g) in db.provided;
    assert forall o :: Link(o, g) in Install(db, w).direct <==> Link(o, g) in db.direct;
    assert forall o :: Link(o, g) in Install(db, w).excluded ==> Link(o, g) in db.excluded;
  }

  // ---------- runs ----------

  lemma StepKeepsOwnerReads(s: System, id: nat)
    requires OwnerReadsIn(s) && id in s.txs
    ensures OwnerReadsIn(StepTx(s, id))
  {
    StepKeepsSafe(s, id);
    StepMovesOne(s, id);
    StepKeepsOwnReads(s, id);
  }

  lemma StepKeepsOwnReads(s: System, id: nat)
    requires OwnerReadsIn(s) && id in s.txs
    ensures id in StepTx(s, id).txs ==> OwnerReads(s.db, StepTx(s, id).txs[id])
  {
    var tx := s.txs[id];
    if tx.todo != [] {
      if tx.todo[0].Acquire? { AcquireKeepsOwnerReads(s.db, tx); } else { WriteKeepsOwnerReads(s.db, tx); }
    } else if tx.phase != Writing && Next(s.db, tx).Some? {
      NextKeepsOwnerReads(s.db, tx);
    }
  }

  lemma DoKeepsOwnerReads(s: System, e: Event)
    requires OwnerReadsIn(s)
    ensures OwnerReadsIn(Do(s, e))
  {
    DoKeepsSafe(s, e);
    match e {
      case Begin(id, job, request) =>
      case Step(id) => if id in s.txs { StepKeepsOwnerReads(s, id); }
      case Commit(id) =>
        if id in s.txs && s.txs[id].phase == Writing && s.txs[id].todo == [] {
          assert TxOk(s.db, s.txs[id]);
          forall other | other in s.txs - {id} ensures OwnerReads(Install(s.db, s.txs[id].writes), s.txs[other]) {
            CommitKeepsOwnerReads(s.db, s.txs[id].writes, s.txs[id].held, s.txs[other]);
          }
        }
      case Abort(id) =>
    }
  }

  lemma {:induction false} PlayKeepsOwnerReads(s: System, events: seq<Event>)
    requires OwnerReadsIn(s)
    ensures OwnerReadsIn(Play(s, events))
    decreases |events|
  {
    if events != [] {
      DoKeepsOwnerReads(s, events[0]);
      PlayKeepsOwnerReads(Do(s, events[0]), events[1..]);
    }
  }

  // ---------- what a commit stores ----------

  /**
   In any schedule, a committing category replacement leaves the category with
   exactly the groups asked for, no item of it with an exclusion of any other
   group, and every other category's and every item's direct links as they were.
   */
  lemma CategoryReplacementStores(db: Tables, events: seq<Event>, id: nat)
    requires ExclusionsProvided(db)
    requires id in Play(Start(db), events).txs && Play(Start(db), events).txs[id].job.ReplaceCategory?
    requires Play(Start(db), events).txs[id].phase == Writing && Play(Start(db), events).txs[id].todo == []
    ensures
      var before := Play(Start(db), events);
      var (c, gs) := (before.txs[id].job.category, before.txs[id].job.groups);
      var after := Do(before, Commit(id)).db;
      && GroupsOf(after.provided, c) == gs
      && (forall l :: l in after.excluded && l.owner in after.items && after.items[l.owner].category == c ==>
          l.group in gs)
      && (forall l: Link :: l.owner != c ==> (l in after.provided <==> l in before.db.provided))
      && after.direct == before.db.direct
  {
    PlayKeepsOwnerReads(Start(db), events);
    var before := Play(Start(db), events);
    var tx := before.txs[id];
    assert TxOk(before.db, tx) && OwnerReads(before.db, tx);
    CategoryInstalled(before.db, tx, tx.job.category, tx.job.groups);
    CommitKeepsExclusions(before.db, tx);
    var after := Do(before, Commit(id)).db;
    forall l | l in after.excluded && l.owner in after.items && after.items[l.owner].category == tx.job.category
      ensures l.group in tx.job.groups
    {
      GroupsOfMember(after.provided, tx.job.category, l.group);
    }
  }

  lemma CategoryInstalled(db: Tables, tx: Tx, c: Uuid, gs: set<Uuid>)
    requires tx.phase == Writing && tx.todo == [] && CategoryReads(db, tx, c, gs)
    ensures var after := Install(db, tx.writes);
      && GroupsOf(after.provided, c) == gs
      && (forall l: Link :: l.owner != c ==> (l in after.provided <==> l in db.provided))
      && after.direct == db.direct
  {
    var w := tx.writes;
    assert w.addProvided == LinksFrom(c, gs - tx.first) && w.removeProvided == LinksFrom(c, tx.first - gs);
    assert w.addDirect == {} && w.removeDirect == {};
    var after := Install(db, w);
    forall g ensures g in GroupsOf(after.provided, c) <==> g in gs {
      GroupsOfMember(after.provided, c, g);
      GroupsOfMember(db.provided, c, g);
      assert Link(c, g) in LinksFrom(c, gs - tx.first) <==> g in gs - tx.first;
      assert Link(c, g) in LinksFrom(c, tx.first - gs) <==> g in tx.first - gs;
    }
  }

  /**
   In any schedule, a committing column-wise replacement leaves the group with
   exactly the items and categories asked for, makes no item both direct and
   excluded that was not direct before, and touches no other group's links.
   */
  lemma AssignmentReplacementStores(db: Tables, events: seq<Event>, id: nat)
    requires ExclusionsProvided(db)
    requires id in Play(Start(db), events).txs && Play(Start(db), events).txs[id].job.ReplaceAssignments?
    requires Play(Start(db), events).txs[id].phase == Writing && Play(Start(db), events).txs[id].todo == []
    ensures
      var before := Play(Start(db), events);
      var job := before.txs[id].job;
      var after := Do(before, Commit(id)).db;
      && OwnersOf(after.direct, job.group) == job.items
      && OwnersOf(after.provided, job.group) == job.categories
      && (job.items - OwnersOf(before.db.direct, job.group)) * OwnersOf(after.excluded, job.group) == {}
      && (forall l: Link :: l.group != job.group ==>
            (l in after.provided <==> l in before.db.provided) && (l in after.direct <==> l in before.db.direct))
  {
    PlayKeepsOwnerReads(Start(db), events);
    var before := Play(Start(db), events);
    var tx := before.txs[id];
    assert TxOk(before.db, tx) && OwnerReads(before.db, tx);
    AssignmentsInstalled(before.db, tx, tx.job.group, tx.job.items, tx.job.categories);
  }

  lemma AssignmentsInstalled(db: Tables, tx: Tx, g: Uuid, its: set<Uuid>, cs: set<Uuid>)
    requires tx.phase == Writing && tx.todo == [] && AssignmentReads(db, tx, g, its, cs) && tx.writes.addExcluded == {}
    ensures var after := Install(db, tx.writes);
      && OwnersOf(after.direct, g) == its
      && OwnersOf(after.provided, g) == cs
      && (its - OwnersOf(db.direct, g)) * OwnersOf(after.excluded, g) == {}
      && (forall l: Link :: l.group != g ==>
            (l in after.provided <==> l in db.provided) && (l in after.direct <==> l in db.direct))
  {
    var w := tx.writes;
    assert w.addProvided == LinksTo(cs - tx.second, g) && w.removeProvided == LinksTo(tx.second - cs, g);
    assert w.addDirect == LinksTo(its - tx.first, g) && w.removeDirect == LinksTo(tx.first - its, g);
    var after := Install(db, w);
    RelationInstalled(db.direct, after.direct, g, its);
    RelationInstalled(db.provided, after.provided, g, cs);
    forall o | o in OwnersOf(after.excluded, g) ensures o in OwnersOf(db.excluded, g) {
      OwnersOfMember(after.excluded, o, g);
      OwnersOfMember(db.excluded, o, g);
    }
  }

  /** Removing the surplus owners of a group and adding the missing ones leaves exactly the wanted ones. */
  lemma RelationInstalled(rel: set<Link>, rel': set<Link>, g: Uuid, owners: set<Uuid>)
    requires rel' == (rel - LinksTo(OwnersOf(rel, g) - owners, g)) + LinksTo(owners - OwnersOf(rel, g), g)
    ensures OwnersOf(rel', g) == owners
  {
    forall o ensures o in OwnersOf(rel', g) <==> o in owners {
      OwnersOfMember(rel, o, g);
      OwnersOfMember(rel', o, g);
      assert Link(o, g) in LinksTo(owners - OwnersOf(rel, g), g) <==> o in owners - OwnersOf(rel, g);
      assert Link(o, g) in LinksTo(OwnersOf(rel, g) - owners, g) <==> o in OwnersOf(rel, g) - owners;
    }
  }
}
