/**
 What `ReplaceItemModifierGroups` stores when other commands run at the same
 time. It reads its current exclusions before it locks their groups, so an
 exclusion that is dropped in between, and whose group is provided again by the
 time the locks are granted, is believed stored and never written.
 */
module ItemRaces {
  import opened Prelude
  import opened Uuids
  import opened IdSets
  import opened Links
  import opened Locks
  import opened Transactions
  import opened LinkSafety
  import opened LinkRuns
  import opened Schedules

  /** What the write statements of a replacement add up to, done or still to do. */
  ghost predicate Pending(tx: Tx, i: Uuid, d: set<Uuid>, e: set<Uuid>) {
    && (forall l :: l in tx.writes.addDirect || AddDirect(l.owner, l.group) in tx.todo <==>
         l in LinksFrom(i, d - tx.first))
    && (forall l :: l in tx.writes.removeDirect || RemoveDirect(l.owner, l.group) in tx.todo <==>
         l in LinksFrom(i, tx.first - d))
    && (forall l :: l in tx.writes.addExcluded || AddExclusion(l.owner, l.group) in tx.todo <==>
         l in LinksFrom(i, e - tx.second))
    && (forall l :: l in tx.writes.removeExcluded || RemoveExclusion(l.owner, l.group) in tx.todo <==>
         l in LinksFrom(i, tx.second - e))
  }

  /** What a running replacement knows about the two sets it read. */
  ghost predicate ReadsHold(db: Tables, tx: Tx) {
    tx.job.ReplaceItem? ==>
      && (tx.phase == FirstRead || tx.phase == Checking || tx.phase == Writing ==>
            ItemLock(tx.job.item) in tx.held && tx.first == GroupsOf(db.direct, tx.job.item))
      && (tx.phase == Checking || tx.phase == Writing ==> GroupsOf(db.excluded, tx.job.item) <= tx.second)
      && (tx.phase == Writing ==> Pending(tx, tx.job.item, tx.job.direct, tx.job.excluded))
  }

  ghost predicate ReadsHoldIn(s: System) {
    Safe(s) && forall id :: id in s.txs ==> ReadsHold(s.db, s.txs[id])
  }

  // ---------- statements ----------

  lemma AcquireKeepsReads(db: Tables, tx: Tx)
    requires TxOk(db, tx) && ReadsHold(db, tx) && tx.todo != [] && tx.todo[0].Acquire?
    ensures ReadsHold(db, tx.(todo := tx.todo[1..], held := tx.held + {tx.todo[0].lock}))
  {
    assert tx.phase == Writing ==> OpLocked(tx.held, tx.todo[0]);
  }

  lemma WriteKeepsReads(db: Tables, tx: Tx)
    requires TxOk(db, tx) && ReadsHold(db, tx) && tx.todo != [] && !tx.todo[0].Acquire?
    ensures ReadsHold(db, tx.(todo := tx.todo[1..], writes := Write(db, tx.writes, tx.todo[0])))
  {
    assert tx.todo == [tx.todo[0]] + tx.todo[1..];
    if tx.job.ReplaceItem? {
      assert tx.phase == Writing;
      assert PlainOp(tx.todo[0]) || tx.todo[0].AddExclusion?;
    }
  }

  lemma EachMembers(s: set<Uuid>, op: Uuid -> Op)
    ensures forall id :: id in s ==> op(id) in Each(Listing(s), op)
  {
    ListingFacts(s);
    forall id | id in s ensures op(id) in Each(Listing(s), op) {
      var k :| 0 <= k < |Listing(s)| && Listing(s)[k] == id;
      assert Each(Listing(s), op)[k] == op(id);
    }
  }

  lemma NextKeepsReads(db: Tables, tx: Tx)
    requires tx.phase != Writing && TxOk(db, tx) && ReadsHold(db, tx) && tx.todo == []
    requires Next(db, tx).Some?
    ensures ReadsHold(db, Next(db, tx).value)
  {
    NextKeepsRest(db, tx);
    if tx.job.ReplaceItem? {
      if tx.phase == Checking {
        ItemWritesPending(tx, tx.job.item, tx.job.direct, tx.job.excluded);
      } else if tx.phase != Starting {
        ReadKeepsReads(db, tx);
      }
    }
  }

  lemma NextKeepsRest(db: Tables, tx: Tx)
    requires tx.phase != Writing && Next(db, tx).Some?
    ensures Next(db, tx).value.job == tx.job && Next(db, tx).value.held == tx.held
      && Next(db, tx).value.writes == tx.writes
  {
  }

  lemma StepKeepsJob(s: System, id: nat)
    requires id in s.txs
    ensures id in StepTx(s, id).txs ==> StepTx(s, id).txs[id].job == s.txs[id].job
  {
    var tx := s.txs[id];
    if tx.todo == [] && tx.phase != Writing && Next(s.db, tx).Some? { NextKeepsRest(s.db, tx); }
  }

  lemma ReadKeepsReads(db: Tables, tx: Tx)
    requires tx.job.ReplaceItem? && tx.phase != Starting && tx.phase != Checking && tx.phase != Writing
    requires ReadingOk(db, tx) && ReadsHold(db, tx) && tx.todo == [] && Read(db, tx).Some?
    ensures ReadsHold(db, Read(db, tx).value)
  {
    assert forall l :: Covered(tx, l) ==> l in tx.held;
    match tx.phase {
      case RowLocked =>
      case SourceRead =>
      case FirstRead =>
    }
  }

  lemma ItemWritesPending(tx: Tx, i: Uuid, d: set<Uuid>, e: set<Uuid>)
    requires tx.writes == NO_WRITES
    ensures Pending(tx.(phase := Writing, todo := ItemWrites(i, tx.first, tx.second, d, e)), i, d, e)
  {
    var todo := ItemWrites(i, tx.first, tx.second, d, e);
    var rd, re := Each(Listing(tx.first - d), g => RemoveDirect(i, g)),
      Each(Listing(tx.second - e), g => RemoveExclusion(i, g));
    var ad, ae := Each(Listing(d - tx.first), g => AddDirect(i, g)),
      Each(Listing(e - tx.second), g => AddExclusion(i, g));
    EachFacts(tx.first - d, g => RemoveDirect(i, g));
    EachFacts(tx.second - e, g => RemoveExclusion(i, g));
    EachFacts(d - tx.first, g => AddDirect(i, g));
    EachFacts(e - tx.second, g => AddExclusion(i, g));
    EachMembers(tx.first - d, g => RemoveDirect(i, g));
    EachMembers(tx.second - e, g => RemoveExclusion(i, g));
    EachMembers(d - tx.first, g => AddDirect(i, g));
    EachMembers(e - tx.second, g => AddExclusion(i, g));
    assert forall op :: op in todo <==> op in rd || op in re || op in ad || op in ae;
    forall l: Link ensures AddDirect(l.owner, l.group) in todo <==> l in LinksFrom(i, d - tx.first) {
      assert l in LinksFrom(i, d - tx.first) ==> AddDirect(l.owner, l.group) in ad;
    }
    forall l: Link ensures RemoveDirect(l.owner, l.group) in todo <==> l in LinksFrom(i, tx.first - d) {
      assert l in LinksFrom(i, tx.first - d) ==> RemoveDirect(l.owner, l.group) in rd;
    }
    forall l: Link ensures AddExclusion(l.owner, l.group) in todo <==> l in LinksFrom(i, e - tx.second) {
      assert l in LinksFrom(i, e - tx.second) ==> AddExclusion(l.owner, l.group) in ae;
    }
    forall l: Link ensures RemoveExclusion(l.owner, l.group) in todo <==> l in LinksFrom(i, tx.second - e) {
      assert l in LinksFrom(i, tx.second - e) ==> RemoveExclusion(l.owner, l.group) in re;
    }
  }

  /**
   A commit by another transaction may take exclusions away from a locked item, but neither add one nor
   touch its direct links.
   */
  lemma CommitKeepsReads(db: Tables, w: Writes, held: set<Lock>, other: Tx)
    requires WritesLocked(held, w) && held !! other.held && ReadsHold(db, other)
    ensures ReadsHold(Install(db, w), other)
  {
    var db' := Install(db, w);
    if other.job.ReplaceItem? && ItemLock(other.job.item) in other.held {
      var i := other.job.item;
      assert ItemLock(i) !in held;
      assert forall g :: Link(i, g) in db'.direct <==> Link(i, g) in db.direct;
      assert GroupsOf(db'.direct, i) == GroupsOf(db.direct, i);
      assert forall g :: Link(i, g) in db'.excluded ==> Link(i, g) in db.excluded;
      assert GroupsOf(db'.excluded, i) <= GroupsOf(db.excluded, i);
    }
  }

  lemma StepKeepsReads(s: System, id: nat)
    requires ReadsHoldIn(s) && id in s.txs
    ensures ReadsHoldIn(StepTx(s, id))
  {
    StepKeepsSafe(s, id);
    StepMovesOne(s, id);
    StepKeepsOwnReads(s, id);
  }

  lemma StepKeepsOwnReads(s: System, id: nat)
    requires id in s.txs && TxOk(s.db, s.txs[id]) && ReadsHold(s.db, s.txs[id])
    ensures id in StepTx(s, id).txs ==> ReadsHold(s.db, StepTx(s, id).txs[id])
  {
    var tx := s.txs[id];
    if tx.todo != [] {
      if tx.todo[0].Acquire? { AcquireKeepsReads(s.db, tx); } else { WriteKeepsReads(s.db, tx); }
    } else if tx.phase != Writing && Next(s.db, tx).Some? {
      NextKeepsReads(s.db, tx);
    }
  }

  lemma DoKeepsReads(s: System, e: Event)
    requires ReadsHoldIn(s)
    ensures ReadsHoldIn(Do(s, e))
  {
    DoKeepsSafe(s, e);
    match e {
      case Begin(id, job, request) =>
      case Step(id) => if id in s.txs { StepKeepsReads(s, id); }
      case Commit(id) =>
        if id in s.txs && s.txs[id].phase == Writing && s.txs[id].todo == [] {
          assert TxOk(s.db, s.txs[id]);
          forall other | other in s.txs - {id} ensures ReadsHold(Install(s.db, s.txs[id].writes), s.txs[other]) {
            CommitKeepsReads(s.db, s.txs[id].writes, s.txs[id].held, s.txs[other]);
          }
        }
      case Abort(id) =>
    }
  }

  lemma {:induction false} PlayKeepsReads(s: System, events: seq<Event>)
    requires ReadsHoldIn(s)
    ensures ReadsHoldIn(Play(s, events))
    decreases |events|
  {
    if events != [] {
      DoKeepsReads(s, events[0]);
      PlayKeepsReads(Do(s, events[0]), events[1..]);
    }
  }

  // ---------- what a commit stores ----------

  /**
   In any schedule, when a replacement of an item's groups commits, the direct
   set is exactly the one asked for, and the exclusions are the ones asked for
   less those it read as stored and that have been dropped since. They are
   exactly the ones asked for if and only if nothing asked for was dropped.
   Nobody else's links change.
   */
  lemma ReplacementStores(db: Tables, events: seq<Event>, id: nat)
    requires ExclusionsProvided(db)
    requires id in Play(Start(db), events).txs && Play(Start(db), events).txs[id].job.ReplaceItem?
    requires Play(Start(db), events).txs[id].phase == Writing && Play(Start(db), events).txs[id].todo == []
    ensures
      var before := Play(Start(db), events);
      var tx := before.txs[id];
      var after := Do(before, Commit(id)).db;
      var dropped := tx.second - GroupsOf(before.db.excluded, tx.job.item);
      && GroupsOf(after.direct, tx.job.item) == tx.job.direct
      && GroupsOf(after.excluded, tx.job.item) == tx.job.excluded - dropped
      && (GroupsOf(after.excluded, tx.job.item) == tx.job.excluded <==> tx.job.excluded !! dropped)
      && after.provided == before.db.provided
      && (forall l: Link :: l.owner != tx.job.item ==> (l in after.direct <==> l in before.db.direct))
      && (forall l: Link :: l.owner != tx.job.item ==> (l in after.excluded <==> l in before.db.excluded))
  {
    PlayKeepsReads(Start(db), events);
    var before := Play(Start(db), events);
    assert TxOk(before.db, before.txs[id]) && ReadsHold(before.db, before.txs[id]);
    PendingInstalled(before.db, before.txs[id]);
  }

  lemma PendingInstalled(db: Tables, tx: Tx)
    requires tx.job.ReplaceItem? && tx.phase == Writing && tx.todo == [] && ReadsHold(db, tx) && ExcludingOk(db, tx)
    ensures
      var after := Install(db, tx.writes);
      && GroupsOf(after.direct, tx.job.item) == tx.job.direct
      && GroupsOf(after.excluded, tx.job.item) == tx.job.excluded - (tx.second - GroupsOf(db.excluded, tx.job.item))
      && after.provided == db.provided
      && (forall l: Link :: l.owner != tx.job.item ==> (l in after.direct <==> l in db.direct))
      && (forall l: Link :: l.owner != tx.job.item ==> (l in after.excluded <==> l in db.excluded))
  {
    var (i, d, e) := (tx.job.item, tx.job.direct, tx.job.excluded);
    var w := tx.writes;
    assert w.addDirect == LinksFrom(i, d - tx.first) && w.removeDirect == LinksFrom(i, tx.first - d);
    assert w.addExcluded == LinksFrom(i, e - tx.second) && w.removeExcluded == LinksFrom(i, tx.second - e);
    var after := Install(db, w);
    var stored := GroupsOf(db.excluded, i);
    forall g ensures g in GroupsOf(after.direct, i) <==> g in d {
      GroupsOfMember(after.direct, i, g);
      GroupsOfMember(db.direct, i, g);
      assert Link(i, g) in LinksFrom(i, d - tx.first) <==> g in d - tx.first;
      assert Link(i, g) in LinksFrom(i, tx.first - d) <==> g in tx.first - d;
    }
    forall g ensures g in GroupsOf(after.excluded, i) <==> g in e - (tx.second - stored) {
      GroupsOfMember(after.excluded, i, g);
      GroupsOfMember(db.excluded, i, g);
      assert Link(i, g) in LinksFrom(i, e - tx.second) <==> g in e - tx.second;
      assert Link(i, g) in LinksFrom(i, tx.second - e) <==> g in tx.second - e;
    }
  }

  // ---------- a schedule that loses an exclusion ----------

  /** One item of one category, with one group provided and excluded. */
  ghost function OneExclusion(i: Uuid, c: Uuid, g: Uuid): Tables {
    Tables(map[c := false], map[g := false], map[i := ItemRow(c, false)], {Link(c, g)}, {}, {Link(i, g)})
  }

  lemma OneLock(g: Uuid)
    ensures Acquires(GroupLocks({g})) == [Acquire(GroupLock(g))]
  {
    ListingOfOne(g);
  }

  /** The kinds of command that take part in the race. */
  const RACE: set<Kind> := {ReplacesItem, ReplacesCategory, AttachesCategory}

  /** The replacement when it has read its current sets and waits for the group's lock. */
  ghost function Waiting(i: Uuid, c: Uuid, g: Uuid): Tx {
    Tx(ReplaceItem(i, {}, {g}), Checking, [Acquire(GroupLock(g))], {RequestLock(0), ItemLock(i)}, NO_WRITES, c, {}, {g})
  }

  lemma ReplacementReads(i: Uuid, c: Uuid, g: Uuid)
    ensures Reaches(RACE, Start(OneExclusion(i, c, g)), System(OneExclusion(i, c, g), map[0 := Waiting(i, c, g)]))
  {
    var db := OneExclusion(i, c, g);
    var s := Start(db);
    var job := ReplaceItem(i, {}, {g});
    BeginsWithRequest(RACE, db, map[], 0, job);
    var t0 := Tx(job, Starting, [], {RequestLock(0)}, NO_WRITES, NIL, {}, {});
    var t1 := t0.(phase := RowLocked, todo := [Acquire(ItemLock(i))]);
    assert Acquires([ItemLock(i)]) == t1.todo;
    Reads1(RACE, s, db, map[], 0, t0, t1);
    Acquires1(RACE, s, db, map[], 0, t1, ItemLock(i), []);
    var t2 := t1.(todo := [], held := {RequestLock(0), ItemLock(i)});
    assert t2.held == t1.held + {ItemLock(i)};
    var t3 := t2.(phase := SourceRead, source := c);
    Reads1(RACE, s, db, map[], 0, t2, t3);
    assert GroupsOf(db.direct, i) == {};
    var t4 := t3.(phase := FirstRead);
    Reads1(RACE, s, db, map[], 0, t3, t4);
    ExclusionRead(db, t4, i, c, g);
    Reads1(RACE, s, db, map[], 0, t4, Waiting(i, c, g));
    assert Beside(db, map[], 0, Waiting(i, c, g)) == System(db, map[0 := Waiting(i, c, g)]);
  }

  lemma ExclusionRead(db: Tables, tx: Tx, i: Uuid, c: Uuid, g: Uuid)
    requires db == OneExclusion(i, c, g)
    requires tx == Tx(ReplaceItem(i, {}, {g}), FirstRead, [], {RequestLock(0), ItemLock(i)}, NO_WRITES, c, {}, {})
    ensures Next(db, tx) == Some(Waiting(i, c, g))
  {
    GroupsOfMember(db.excluded, i, g);
    assert GroupsOf(db.excluded, i) == {g};
    assert {} + {g} + {} + {g} == {g};
    OneLock(g);
  }

  /** Meanwhile the category gives the group up, taking the exclusion with it. */
  lemma GroupLeaves(i: Uuid, c: Uuid, g: Uuid)
    ensures Reaches(RACE, System(OneExclusion(i, c, g), map[0 := Waiting(i, c, g)]),
                    System(OneExclusion(i, c, g).(provided := {}, excluded := {}), map[0 := Waiting(i, c, g)]))
  {
    var db, rest := OneExclusion(i, c, g), map[0 := Waiting(i, c, g)];
    var s := System(db, rest);
    var job := ReplaceCategory(c, {});
    BeginsWithRequest(RACE, db, rest, 1, job);
    var t0 := Tx(job, Starting, [], {RequestLock(1)}, NO_WRITES, NIL, {}, {});
    var t1 := t0.(phase := RowLocked, todo := [Acquire(CategoryLock(c))]);
    assert Acquires([CategoryLock(c)]) == t1.todo;
    Reads1(RACE, s, db, rest, 1, t0, t1);
    Acquires1(RACE, s, db, rest, 1, t1, CategoryLock(c), []);
    var t2 := t1.(todo := [], held := t1.held + {CategoryLock(c)});
    LeavingReads(db, t2, i, c, g);
    var t3 := t2.(phase := Checking, first := {g}, todo := [Acquire(GroupLock(g))]);
    Reads1(RACE, s, db, rest, 1, t2, t3);
    Acquires1(RACE, s, db, rest, 1, t3, GroupLock(g), []);
    var t4 := t3.(todo := [], held := t3.held + {GroupLock(g)});
    LeavingWrites(db, t4, c, g);
    var t5 := t4.(phase := Writing, todo := [RemoveProvided(c, g), DropExclusions(c, g)]);
    Reads1(RACE, s, db, rest, 1, t4, t5);
    GroupGone(s, db, t5, i, c, g);
  }

  lemma LeavingReads(db: Tables, tx: Tx, i: Uuid, c: Uuid, g: Uuid)
    requires db == OneExclusion(i, c, g) && tx.job == ReplaceCategory(c, {}) && tx.phase == RowLocked
    ensures Next(db, tx) == Some(tx.(phase := Checking, first := {g}, todo := [Acquire(GroupLock(g))]))
  {
    GroupsOfMember(db.provided, c, g);
    assert GroupsOf(db.provided, c) == {g};
    assert {g} + {} == {g};
    OneLock(g);
  }

  lemma LeavingWrites(db: Tables, tx: Tx, c: Uuid, g: Uuid)
    requires g in db.groups && tx.job == ReplaceCategory(c, {}) && tx.phase == Checking && tx.first == {g}
    ensures Next(db, tx) == Some(tx.(phase := Writing, todo := [RemoveProvided(c, g), DropExclusions(c, g)]))
  {
    ListingOfOne(g);
    var none: set<Uuid> := {};
    assert {g} - none == {g} && none - {g} == none && {g} + none == {g};
    assert GroupSetError(db, {g}, none).None?;
    assert RemovalsFrom(c, []) == [];
    assert [g][1..] == [];
    assert RemovalsFrom(c, [g]) == [RemoveProvided(c, g), DropExclusions(c, g)];
    assert Each(Listing(none), g => AddProvided(c, g)) == [];
  }

  lemma GroupGone(s: System, db: Tables, t: Tx, i: Uuid, c: Uuid, g: Uuid)
    requires db == OneExclusion(i, c, g) && Reaches(RACE, s, Beside(db, map[0 := Waiting(i, c, g)], 1, t))
    requires t.phase == Writing && t.writes == NO_WRITES && t.todo == [RemoveProvided(c, g), DropExclusions(c, g)]
    ensures Reaches(RACE, s, System(db.(provided := {}, excluded := {}), map[0 := Waiting(i, c, g)]))
  {
    var rest := map[0 := Waiting(i, c, g)];
    Writes1(RACE, s, db, rest, 1, t, RemoveProvided(c, g), [DropExclusions(c, g)]);
    var t1 := t.(todo := [DropExclusions(c, g)], writes := NO_WRITES.(removeProvided := {Link(c, g)}));
    assert t1.writes == Write(db, t.writes, RemoveProvided(c, g));
    Writes1(RACE, s, db, rest, 1, t1, DropExclusions(c, g), []);
    var t2 := t1.(todo := [], writes := t1.writes.(removeExcluded := {Link(i, g)}));
    assert t2.writes == Write(db, t1.writes, DropExclusions(c, g));
    Commits1(RACE, s, db, rest, 1, t2);
    assert Install(db, t2.writes) == db.(provided := {}, excluded := {});
  }

  /** And takes it back, without the exclusion. */
  lemma GroupReturns(i: Uuid, c: Uuid, g: Uuid)
    ensures Reaches(RACE, System(OneExclusion(i, c, g).(provided := {}, excluded := {}), map[0 := Waiting(i, c, g)]),
                    System(OneExclusion(i, c, g).(excluded := {}), map[0 := Waiting(i, c, g)]))
  {
    var db, rest := OneExclusion(i, c, g).(provided := {}, excluded := {}), map[0 := Waiting(i, c, g)];
    var s := System(db, rest);
    var job := AttachCategory(c, g);
    BeginsWithRequest(RACE, db, rest, 2, job);
    var t0 := Tx(job, Starting, [], {RequestLock(2)}, NO_WRITES, NIL, {}, {});
    var t1 := t0.(phase := Checking, todo := [Acquire(CategoryLock(c)), Acquire(GroupLock(g))]);
    assert Acquires([CategoryLock(c), GroupLock(g)]) == t1.todo;
    Reads1(RACE, s, db, rest, 2, t0, t1);
    Acquires1(RACE, s, db, rest, 2, t1, CategoryLock(c), [Acquire(GroupLock(g))]);
    var t2 := t1.(todo := [Acquire(GroupLock(g))], held := t1.held + {CategoryLock(c)});
    Acquires1(RACE, s, db, rest, 2, t2, GroupLock(g), []);
    GroupBack(s, db, t2.(todo := [], held := t2.held + {GroupLock(g)}), i, c, g);
  }

  lemma GroupBack(s: System, db: Tables, t: Tx, i: Uuid, c: Uuid, g: Uuid)
    requires db == OneExclusion(i, c, g).(provided := {}, excluded := {})
    requires Reaches(RACE, s, Beside(db, map[0 := Waiting(i, c, g)], 2, t))
    requires t.job == AttachCategory(c, g) && t.phase == Checking && t.todo == [] && t.writes == NO_WRITES
    ensures Reaches(RACE, s, System(OneExclusion(i, c, g).(excluded := {}), map[0 := Waiting(i, c, g)]))
  {
    var rest := map[0 := Waiting(i, c, g)];
    var t1 := t.(phase := Writing, todo := [AddProvided(c, g)]);
    Reads1(RACE, s, db, rest, 2, t, t1);
    Writes1(RACE, s, db, rest, 2, t1, AddProvided(c, g), []);
    var t2 := t1.(todo := [], writes := NO_WRITES.(addProvided := {Link(c, g)}));
    assert t2.writes == Write(db, t1.writes, AddProvided(c, g));
    Commits1(RACE, s, db, rest, 2, t2);
    assert Install(db, t2.writes) == OneExclusion(i, c, g).(excluded := {});
  }

  /** The replacement then finds nothing to write and commits. */
  lemma NothingToWrite(db: Tables, tx: Tx, i: Uuid, c: Uuid, g: Uuid)
    requires db == OneExclusion(i, c, g).(excluded := {})
    requires tx.job == ReplaceItem(i, {}, {g}) && tx.phase == Checking && tx.source == c && tx.first == {}
      && tx.second == {g}
    ensures Next(db, tx) == Some(tx.(phase := Writing, todo := []))
  {
    GroupsOfMember(db.provided, c, g);
    assert {g} <= GroupsOf(db.provided, c);
    ListingOfOne(g);
    var none: set<Uuid> := {};
    assert none - none == none && {g} - {g} == none && none - tx.first == none && {g} - tx.second == none;
    assert Listing(none) == [];
    assert tx.job.direct == none && tx.first - tx.job.direct == none && tx.job.direct - tx.first == none;
    assert forall op: Uuid -> Op :: Each([], op) == [];
    assert Next(db, tx).value.todo == [];
  }

  lemma GroupAwayAndBack(i: Uuid, c: Uuid, g: Uuid)
    ensures Reaches(RACE, Start(OneExclusion(i, c, g)),
                    System(OneExclusion(i, c, g).(excluded := {}), map[0 := Waiting(i, c, g)]))
  {
    var start := Start(OneExclusion(i, c, g));
    var w := map[0 := Waiting(i, c, g)];
    var gone := OneExclusion(i, c, g).(provided := {}, excluded := {});
    ReplacementReads(i, c, g);
    GroupLeaves(i, c, g);
    ReachesTransitive(RACE, start, System(OneExclusion(i, c, g), w), System(gone, w));
    GroupReturns(i, c, g);
    ReachesTransitive(RACE, start, System(gone, w), System(OneExclusion(i, c, g).(excluded := {}), w));
  }

  lemma ReplacementFinishes(i: Uuid, c: Uuid, g: Uuid) returns (t: Tx)
    requires Reaches(RACE, Start(OneExclusion(i, c, g)),
                     System(OneExclusion(i, c, g).(excluded := {}), map[0 := Waiting(i, c, g)]))
    ensures Reaches(RACE, Start(OneExclusion(i, c, g)), Beside(OneExclusion(i, c, g).(excluded := {}), map[], 0, t))
    ensures t.job == ReplaceItem(i, {}, {g}) && t.phase == Writing && t.todo == [] && t.writes == NO_WRITES
  {
    var start := Start(OneExclusion(i, c, g));
    var back, w := OneExclusion(i, c, g).(excluded := {}), Waiting(i, c, g);
    assert System(back, map[0 := w]) == Beside(back, map[], 0, w);
    Acquires1(RACE, start, back, map[], 0, w, GroupLock(g), []);
    var t1 := w.(todo := [], held := w.held + {GroupLock(g)});
    NothingToWrite(back, t1, i, c, g);
    t := t1.(phase := Writing, todo := []);
    Reads1(RACE, start, back, map[], 0, t1, t);
  }

  /**
   A schedule that loses an exclusion: the replacement asked for `{g}`, read
   `{g}`, was let through by every check, and leaves the item with no exclusion.
   */
  lemma ExclusionCanBeLost(i: Uuid, c: Uuid, g: Uuid)
    ensures exists s ::
      && Reaches(RACE, Start(OneExclusion(i, c, g)), s)
      && 0 in s.txs && s.txs[0].job == ReplaceItem(i, {}, {g}) && s.txs[0].phase == Writing && s.txs[0].todo == []
      && GroupsOf(Do(s, Commit(0)).db.excluded, i) == {}
  {
    var back := OneExclusion(i, c, g).(excluded := {});
    GroupAwayAndBack(i, c, g);
    var t := ReplacementFinishes(i, c, g);
    var s := Beside(back, map[], 0, t);
    assert Do(s, Commit(0)).db.excluded == {};
    assert Reaches(RACE, Start(OneExclusion(i, c, g)), s) && s.txs[0] == t;
  }
}
