/**
 Which commands can deadlock: a `ReplaceGroupAssignments` together with a command
 that asks for a group on top of an item or category, and nothing else.
 */
module Deadlocks {
  import opened Prelude
  import opened Uuids
  import opened Links
  import opened Locks
  import opened Transactions
  import opened LinkRuns
  import opened Schedules
  import opened LockOrder
  import Availability

  /** The kinds of command that lock an item or category and then a group. */
  const GROUPS_LAST: set<Kind> :=
    {AttachesItem, AttachesCategory, Excludes, ReplacesItem, ReplacesCategory, SetsAvailability}

  // ---------- the other commands ask for a group first or not at all ----------

  ghost predicate GroupFirst(tx: Tx) {
    forall op :: op in tx.todo && op.Acquire? && Tier(op.lock) == 3 ==>
      tx.todo == [op] && forall h :: h in tx.held ==> Tier(h) == 0
  }

  ghost predicate Fits(kinds: set<Kind>, tx: Tx) {
    KindOf(tx.job) in kinds && (KindOf(tx.job) !in GROUPS_LAST + {ReplacesAssignments} ==> GroupFirst(tx))
  }

  ghost predicate AllFit(kinds: set<Kind>, s: System) {
    forall id :: id in s.txs ==> Fits(kinds, s.txs[id])
  }

  lemma NextFits(kinds: set<Kind>, db: Tables, tx: Tx)
    requires InOrder(tx) && Fits(kinds, tx) && tx.todo == [] && tx.phase != Writing && Next(db, tx).Some?
    ensures Fits(kinds, Next(db, tx).value)
  {
    match (tx.job, tx.phase) {
      case (MoveItem(i, c), RowLocked) =>
        if db.items[i].category != c { CategoryLocksAscend({db.items[i].category, c}); }
      case (_, _) =>
    }
  }

  lemma StepFits(kinds: set<Kind>, s: System, id: nat)
    requires id in s.txs && InOrder(s.txs[id]) && Fits(kinds, s.txs[id])
    ensures id in StepTx(s, id).txs ==> Fits(kinds, StepTx(s, id).txs[id])
  {
    var tx := s.txs[id];
    if tx.todo == [] && tx.phase != Writing && Next(s.db, tx).Some? {
      NextFits(kinds, s.db, tx);
    } else if tx.todo != [] {
      forall op | op in tx.todo[1..] ensures op in tx.todo && |tx.todo| > 1 {}
    }
  }

  lemma DoFits(kinds: set<Kind>, s: System, e: Event)
    requires OrderedSystem(s) && AllFit(kinds, s) && (e.Begin? ==> KindOf(e.job) in kinds)
    ensures AllFit(kinds, Do(s, e))
  {
    if e.Step? && e.id in s.txs {
      assert InOrder(s.txs[e.id]);
      StepMovesOne(s, e.id);
      StepFits(kinds, s, e.id);
    }
  }

  lemma {:induction false} PlayFits(kinds: set<Kind>, s: System, events: seq<Event>)
    requires OrderedSystem(s) && AllFit(kinds, s) && OnlyKinds(kinds, events)
    ensures OrderedSystem(Play(s, events)) && AllFit(kinds, Play(s, events))
    decreases |events|
  {
    if events != [] {
      DoInOrder(s, events[0]);
      DoFits(kinds, s, events[0]);
      PlayFits(kinds, Do(s, events[0]), events[1..]);
    }
  }

  lemma MixedIsGroupsLast(kinds: set<Kind>, s: System, id: nat)
    requires AllFit(kinds, s) && Mixed(s, id)
    ensures KindOf(s.txs[id].job) in kinds * GROUPS_LAST
  {
    var tx := s.txs[id];
    assert tx.todo[0] in tx.todo;
  }

  // ---------- a command that holds a row and waits for the group ----------

  /** An item and a group its category provides. */
  ghost function Provided(i: Uuid, c: Uuid, g: Uuid): Tables {
    Tables(map[c := false], map[g := false], map[i := ItemRow(c, false)], {Link(c, g)}, {}, {})
  }

  /** A command of each kind about that item, category and group. */
  ghost function Example(kind: Kind, i: Uuid, c: Uuid, g: Uuid): Job {
    match kind
    case AttachesItem => AttachItem(i, g)
    case AttachesCategory => AttachCategory(c, g)
    case Excludes => Exclude(i, g)
    case ReplacesItem => ReplaceItem(i, {g}, {})
    case ReplacesCategory => ReplaceCategory(c, {g})
    case _ => SetAvailability(OnOff(i, g), OnOffPlan(i, g))
  }

  /** A menu with the item, the group and an option of it, and a batch that turns the item and the option on. */
  ghost function OnOff(i: Uuid, g: Uuid): Availability.Menu {
    Availability.Menu(map[i := Availability.Item(true, false, false)], map[], map[g := Availability.Group(0, 1, false)],
                      map[i := Availability.Child(g, false, false)])
  }

  ghost function OnOffPlan(i: Uuid, g: Uuid): seq<Availability.LockStep> {
    [Availability.LockStep(Availability.Change(Availability.ItemKind, i, true), 0, i, 0),
     Availability.LockStep(Availability.Change(Availability.OptionKind, i, true), 1, g, 1)]
  }

  lemma OnOffPlanned(i: Uuid, g: Uuid)
    ensures Startable(SetAvailability(OnOff(i, g), OnOffPlan(i, g)))
    ensures Availability.Requests(OnOffPlan(i, g)) == [ItemLock(i), GroupLock(g), OptionLock(g, i)]
  {
    var plan := OnOffPlan(i, g);
    assert Availability.StepKey(plan[0])[0] == 0 && Availability.StepKey(plan[1])[0] == 1;
    assert plan[1..] == [plan[1]] && plan[1..][1..] == [];
    assert Availability.Requests(plan[1..]) == Availability.LocksFor(plan[1]);
  }

  /** The row such a command locks before the group. */
  ghost function FirstRow(kind: Kind, i: Uuid, c: Uuid): Lock {
    if kind == AttachesCategory || kind == ReplacesCategory then CategoryLock(c) else ItemLock(i)
  }

  /** The command holds its first row, and the group is the next lock it asks for. */
  ghost predicate WaitsOnGroup(tx: Tx, job: Job, row: Lock, g: Uuid) {
    tx.job == job && Wanted(tx) == Some(GroupLock(g)) && tx.held == {RequestLock(0), row}
  }

  ghost function AtFirstRow(job: Job, row: Lock, rest: seq<Lock>): Tx {
    var phase := if ReadsMore(job) then RowLocked else Checking;
    Tx(job, phase, Acquires(rest), {RequestLock(0), row}, NO_WRITES, NIL, {}, {})
  }

  lemma TakesFirstRow(kinds: set<Kind>, db: Tables, job: Job, row: Lock, rest: seq<Lock>)
    requires KindOf(job) in kinds && Startable(job) && FirstLocks(job) == [row] + rest
    ensures Reaches(kinds, Start(db), Beside(db, map[], 0, AtFirstRow(job, row, rest)))
  {
    var s := Start(db);
    BeginsWithRequest(kinds, db, map[], 0, job);
    var t0 := Tx(job, Starting, [], {RequestLock(0)}, NO_WRITES, NIL, {}, {});
    var t1 := t0.(phase := if ReadsMore(job) then RowLocked else Checking, todo := Acquires(FirstLocks(job)));
    Reads1(kinds, s, db, map[], 0, t0, t1);
    assert Acquires([row] + rest) == [Acquire(row)] + Acquires(rest);
    Acquires1(kinds, s, db, map[], 0, t1, row, Acquires(rest));
    assert t1.held + {row} == {RequestLock(0), row};
  }

  lemma TakesRow(kind: Kind, i: Uuid, c: Uuid, g: Uuid) returns (tx: Tx)
    requires kind in GROUPS_LAST
    ensures Reaches({kind}, Start(Provided(i, c, g)), Beside(Provided(i, c, g), map[], 0, tx))
    ensures WaitsOnGroup(tx, Example(kind, i, c, g), FirstRow(kind, i, c), g)
  {
    var db, job, row := Provided(i, c, g), Example(kind, i, c, g), FirstRow(kind, i, c);
    if kind == SetsAvailability {
      OnOffPlanned(i, g);
      TakesFirstRow({kind}, db, job, row, [GroupLock(g), OptionLock(g, i)]);
      tx := AtFirstRow(job, row, [GroupLock(g), OptionLock(g, i)]);
    } else if kind == AttachesItem || kind == AttachesCategory {
      TakesFirstRow({kind}, db, job, row, [GroupLock(g)]);
      tx := AtFirstRow(job, row, [GroupLock(g)]);
    } else {
      TakesFirstRow({kind}, db, job, row, []);
      tx := ReadsItsGroups(kind, i, c, g);
    }
  }

  lemma ReadsItsGroups(kind: Kind, i: Uuid, c: Uuid, g: Uuid) returns (tx: Tx)
    requires kind == Excludes || kind == ReplacesItem || kind == ReplacesCategory
    requires Reaches({kind}, Start(Provided(i, c, g)),
                     Beside(Provided(i, c, g), map[], 0, AtFirstRow(Example(kind, i, c, g), FirstRow(kind, i, c), [])))
    ensures Reaches({kind}, Start(Provided(i, c, g)), Beside(Provided(i, c, g), map[], 0, tx))
    ensures WaitsOnGroup(tx, Example(kind, i, c, g), FirstRow(kind, i, c), g)
  {
    var db, s := Provided(i, c, g), Start(Provided(i, c, g));
    var t0 := AtFirstRow(Example(kind, i, c, g), FirstRow(kind, i, c), []);
    var wants := [Acquire(GroupLock(g))];
    if kind == ReplacesItem {
      tx := ReadsBothSets(i, c, g);
    } else {
      tx := if kind == Excludes then t0.(phase := Checking, source := c, todo := wants)
            else t0.(phase := Checking, first := {g}, todo := wants);
      OneOf(c, g);
      WantsOne(g);
      Reads1({kind}, s, db, map[], 0, t0, tx);
    }
  }

  /** The item replacement reads its source, its direct and its excluded groups. */
  lemma ReadsBothSets(i: Uuid, c: Uuid, g: Uuid) returns (tx: Tx)
    requires Reaches({ReplacesItem}, Start(Provided(i, c, g)),
                     Beside(Provided(i, c, g), map[], 0, AtFirstRow(ReplaceItem(i, {g}, {}), ItemLock(i), [])))
    ensures Reaches({ReplacesItem}, Start(Provided(i, c, g)), Beside(Provided(i, c, g), map[], 0, tx))
    ensures WaitsOnGroup(tx, ReplaceItem(i, {g}, {}), ItemLock(i), g)
  {
    var kinds, db, s := {ReplacesItem}, Provided(i, c, g), Start(Provided(i, c, g));
    var t0 := AtFirstRow(ReplaceItem(i, {g}, {}), ItemLock(i), []);
    var t1 := t0.(phase := SourceRead, source := c);
    Reads1(kinds, s, db, map[], 0, t0, t1);
    NoneOf(i);
    var t2 := t1.(phase := FirstRead);
    Reads1(kinds, s, db, map[], 0, t1, t2);
    tx := t2.(phase := Checking, todo := [Acquire(GroupLock(g))]);
    WantsOne(g);
    Reads1(kinds, s, db, map[], 0, t2, tx);
  }

  lemma NoneOf(owner: Uuid)
    ensures GroupsOf({}, owner) == {} && OwnersOf({}, owner) == {}
  {
  }

  lemma OneOf(owner: Uuid, g: Uuid)
    ensures GroupsOf({Link(owner, g)}, owner) == {g} && OwnersOf({Link(owner, g)}, g) == {owner}
  {
    assert Link(owner, g) in {Link(owner, g)};
  }

  lemma WantsOne(g: Uuid)
    ensures Acquires(GroupLocks({g})) == [Acquire(GroupLock(g))]
    ensures {g} + {g} == {g} && {} + {} + {g} + {} == {g}
  {
    ListingOfOne(g);
  }

  // ---------- the column-wise command that holds the group ----------

  ghost function ColumnExample(i: Uuid, c: Uuid, g: Uuid): Job {
    ReplaceAssignments(g, {i}, {c})
  }

  lemma WantsOwners(tx: Tx, i: Uuid, c: Uuid, g: Uuid)
    requires tx.job == ColumnExample(i, c, g) && tx.phase == FirstRead && tx.first == {}
    ensures Next(Provided(i, c, g), tx)
         == Some(tx.(phase := Checking, second := {c}, todo := [Acquire(ItemLock(i)), Acquire(CategoryLock(c))]))
  {
    OneOf(c, g);
    ListingOfOne(i);
    ListingOfOne(c);
    assert tx.first + {i} == {i} && {c} + {c} == {c};
    assert ItemLocks({i}) == [ItemLock(i)] && CategoryLocks({c}) == [CategoryLock(c)];
    assert Acquires([ItemLock(i)] + [CategoryLock(c)]) == [Acquire(ItemLock(i)), Acquire(CategoryLock(c))];
  }

  /** Beside a command that holds no group, the column-wise one takes its group and reads its owners. */
  lemma TakesGroup(i: Uuid, c: Uuid, g: Uuid, rest: map<nat, Tx>) returns (tx: Tx)
    requires 1 !in rest && Unheld(rest, RequestLock(1)) && Unheld(rest, GroupLock(g))
    ensures Reaches({ReplacesAssignments}, System(Provided(i, c, g), rest), Beside(Provided(i, c, g), rest, 1, tx))
    ensures tx.job == ColumnExample(i, c, g) && tx.held == {RequestLock(1), GroupLock(g)}
    ensures tx.todo == [Acquire(ItemLock(i)), Acquire(CategoryLock(c))]
  {
    var kinds, db, s, job :=
      {ReplacesAssignments}, Provided(i, c, g), System(Provided(i, c, g), rest), ColumnExample(i, c, g);
    BeginsWithRequest(kinds, db, rest, 1, job);
    var t0 := Tx(job, Starting, [], {RequestLock(1)}, NO_WRITES, NIL, {}, {});
    var t1 := t0.(phase := RowLocked, todo := [Acquire(GroupLock(g))]);
    assert Acquires([GroupLock(g)]) == t1.todo;
    Reads1(kinds, s, db, rest, 1, t0, t1);
    Acquires1(kinds, s, db, rest, 1, t1, GroupLock(g), []);
    var t2 := t1.(todo := [], held := {RequestLock(1), GroupLock(g)});
    assert t2.held == t1.held + {GroupLock(g)};
    NoneOf(g);
    var t3 := t2.(phase := FirstRead);
    Reads1(kinds, s, db, rest, 1, t2, t3);
    WantsOwners(t3, i, c, g);
    tx := t3.(phase := Checking, second := {c}, todo := [Acquire(ItemLock(i)), Acquire(CategoryLock(c))]);
    Reads1(kinds, s, db, rest, 1, t3, tx);
  }

  lemma WaitsOnRow(i: Uuid, c: Uuid, g: Uuid, rest: map<nat, Tx>, row: Lock) returns (tx: Tx)
    requires 1 !in rest && Unheld(rest, RequestLock(1)) && Unheld(rest, GroupLock(g))
    requires row == ItemLock(i) || (row == CategoryLock(c) && Unheld(rest, ItemLock(i)))
    ensures Reaches({ReplacesAssignments}, System(Provided(i, c, g), rest), Beside(Provided(i, c, g), rest, 1, tx))
    ensures tx.job == ColumnExample(i, c, g) && GroupLock(g) in tx.held && Wanted(tx) == Some(row)
  {
    var kinds, db, s := {ReplacesAssignments}, Provided(i, c, g), System(Provided(i, c, g), rest);
    tx := TakesGroup(i, c, g, rest);
    if row == CategoryLock(c) {
      Acquires1(kinds, s, db, rest, 1, tx, ItemLock(i), [Acquire(CategoryLock(c))]);
      tx := tx.(todo := [Acquire(CategoryLock(c))], held := tx.held + {ItemLock(i)});
    }
  }

  // ---------- the deadlocks ----------

  lemma ReachesWider(fewer: set<Kind>, kinds: set<Kind>, a: System, b: System)
    requires Reaches(fewer, a, b) && fewer <= kinds
    ensures Reaches(kinds, a, b)
  {
    var events :| OnlyKinds(fewer, events) && Play(a, events) == b;
    assert OnlyKinds(kinds, events);
  }

  /** Two transactions, each waiting for the other, and no third. */
  ghost predicate Deadlocked(s: System) {
    s.txs.Keys == {0, 1} && WaitsFor(s, 0, 1) && WaitsFor(s, 1, 0)
  }

  lemma HoldEachOther(db: Tables, a: Tx, b: Tx, x: Lock, y: Lock)
    requires x in a.held && Wanted(a) == Some(y) && y in b.held && Wanted(b) == Some(x)
    ensures Deadlocked(Beside(db, map[0 := a], 1, b))
  {
    assert map[0 := a][1 := b].Keys == {0, 1};
  }

  lemma TakesRowAlone(kind: Kind, i: Uuid, c: Uuid, g: Uuid) returns (tx: Tx)
    requires kind in GROUPS_LAST
    ensures Reaches({kind}, Start(Provided(i, c, g)), System(Provided(i, c, g), map[0 := tx]))
    ensures WaitsOnGroup(tx, Example(kind, i, c, g), FirstRow(kind, i, c), g)
    ensures Unheld(map[0 := tx], RequestLock(1)) && Unheld(map[0 := tx], GroupLock(g))
    ensures FirstRow(kind, i, c) == CategoryLock(c) ==> Unheld(map[0 := tx], ItemLock(i))
  {
    tx := TakesRow(kind, i, c, g);
    assert Beside(Provided(i, c, g), map[], 0, tx) == System(Provided(i, c, g), map[0 := tx]);
  }

  lemma TakeAndWait(kind: Kind, i: Uuid, c: Uuid, g: Uuid) returns (s: System)
    requires kind in GROUPS_LAST
    ensures Reaches({kind, ReplacesAssignments}, Start(Provided(i, c, g)), s) && Deadlocked(s)
    ensures s.txs[0].job == Example(kind, i, c, g) && s.txs[1].job == ColumnExample(i, c, g)
  {
    var db := Provided(i, c, g);
    var row := TakesRowAlone(kind, i, c, g);
    var column := WaitsOnRow(i, c, g, map[0 := row], FirstRow(kind, i, c));
    s := Beside(db, map[0 := row], 1, column);
    HoldEachOther(db, row, column, FirstRow(kind, i, c), GroupLock(g));
    OneThenOther({kind}, {ReplacesAssignments}, Start(db), System(db, map[0 := row]), s);
    assert {kind} + {ReplacesAssignments} == {kind, ReplacesAssignments};
  }

  /**
   A deadlock for each of these kinds: it holds an item or category and waits for
   the group, `ReplaceGroupAssignments` holds the group and waits for the row.
   */
  lemma ReplaceAssignmentsCanDeadlock(kind: Kind, i: Uuid, c: Uuid, g: Uuid)
    requires kind in GROUPS_LAST
    ensures KindOf(Example(kind, i, c, g)) == kind && KindOf(ColumnExample(i, c, g)) == ReplacesAssignments
    ensures exists s ::
      && Reaches({kind, ReplacesAssignments}, Start(Provided(i, c, g)), s) && Deadlocked(s)
      && s.txs[0].job == Example(kind, i, c, g) && s.txs[1].job == ColumnExample(i, c, g)
  {
    var s := TakeAndWait(kind, i, c, g);
  }

  lemma OneThenOther(k1: set<Kind>, k2: set<Kind>, a: System, b: System, c: System)
    requires Reaches(k1, a, b) && Reaches(k2, b, c)
    ensures Reaches(k1 + k2, a, c)
  {
    ReachesWider(k1, k1 + k2, a, b);
    ReachesWider(k2, k1 + k2, b, c);
    ReachesTransitive(k1 + k2, a, b, c);
  }

  /** A schedule of these kinds of command reaches a cycle of waits. */
  ghost predicate CycleReached(kinds: set<Kind>, db: Tables, s: System, ids: seq<nat>) {
    ExclusionsProvided(db) && Reaches(kinds, Start(db), s) && WaitCycle(s, ids)
  }

  /** A schedule of these kinds of command reaches a state in which something runs and everything waits. */
  ghost predicate StuckReached(kinds: set<Kind>, db: Tables, s: System) {
    && ExclusionsProvided(db) && Reaches(kinds, Start(db), s)
    && s.txs != map[] && forall id :: id in s.txs ==> Blocked(s, id)
  }

  ghost predicate Clashing(kinds: set<Kind>) {
    ReplacesAssignments in kinds && kinds * GROUPS_LAST != {}
  }

  /**
   Commands of some kinds can deadlock if and only if `ReplaceGroupAssignments` is one
   of them and so is a kind that locks a group last; and so it is with standing still.
   */
  lemma DeadlockExactly(kinds: set<Kind>)
    ensures (exists db, s, ids :: CycleReached(kinds, db, s, ids)) <==> Clashing(kinds)
    ensures (exists db, s :: StuckReached(kinds, db, s)) <==> Clashing(kinds)
    ensures Clashing(kinds) ==> exists db, s, ids :: UsableRows(db) && CycleReached(kinds, db, s, ids)
  {
    forall db, s, ids | CycleReached(kinds, db, s, ids) ensures Clashing(kinds) { CycleClashes(kinds, db, s, ids); }
    forall db, s | StuckReached(kinds, db, s) ensures Clashing(kinds) { StuckClashes(kinds, db, s); }
    if Clashing(kinds) { ClashDeadlocks(kinds); }
  }

  lemma ReachedInOrder(kinds: set<Kind>, db: Tables, s: System)
    requires ExclusionsProvided(db) && Reaches(kinds, Start(db), s)
    ensures OrderedSystem(s) && AllFit(kinds, s)
  {
    var events :| OnlyKinds(kinds, events) && Play(Start(db), events) == s;
    PlayFits(kinds, Start(db), events);
  }

  lemma ReversedAndMixedClash(kinds: set<Kind>, s: System, a: nat, b: nat)
    requires AllFit(kinds, s) && Reversed(s, a) && Mixed(s, b)
    ensures Clashing(kinds)
  {
    MixedIsGroupsLast(kinds, s, b);
    assert Fits(kinds, s.txs[a]);
  }

  lemma CycleClashes(kinds: set<Kind>, db: Tables, s: System, ids: seq<nat>)
    requires CycleReached(kinds, db, s, ids)
    ensures Clashing(kinds)
  {
    ReachedInOrder(kinds, db, s);
    CycleGoesAgainst(ItemsFirst, s, ids);
    CycleGoesAgainst(GroupsFirst, s, ids);
    var j :| 0 <= j < |ids| && Against(ItemsFirst, s, ids[j]);
    var k :| 0 <= k < |ids| && Against(GroupsFirst, s, ids[k]);
    ReversedAndMixedClash(kinds, s, ids[j], ids[k]);
  }

  lemma StuckClashes(kinds: set<Kind>, db: Tables, s: System)
    requires StuckReached(kinds, db, s)
    ensures Clashing(kinds)
  {
    ReachedInOrder(kinds, db, s);
    StuckGoesAgainst(ItemsFirst, s);
    StuckGoesAgainst(GroupsFirst, s);
    var a :| Against(ItemsFirst, s, a);
    var b :| Against(GroupsFirst, s, b);
    ReversedAndMixedClash(kinds, s, a, b);
  }

  lemma StuckGoesAgainst(o: Order, s: System)
    requires OrderedSystem(s) && s.txs != map[] && forall id :: id in s.txs ==> Blocked(s, id)
    ensures exists id :: Against(o, s, id)
  {
    if forall id :: !Against(o, s, id) { NotAllBlocked(o, s); }
  }

  lemma ClashDeadlocks(kinds: set<Kind>)
    requires Clashing(kinds)
    ensures exists db, s, ids :: UsableRows(db) && CycleReached(kinds, db, s, ids)
    ensures exists db, s :: StuckReached(kinds, db, s)
  {
    var kind :| kind in kinds * GROUPS_LAST;
    var db := Provided(ITEM, CATEGORY, GROUP);
    ExampleIds();
    var s := TakeAndWait(kind, ITEM, CATEGORY, GROUP);
    ReachesWider({kind, ReplacesAssignments}, kinds, Start(db), s);
    DeadlockIsBoth(kinds, db, s);
  }

  lemma DeadlockIsBoth(kinds: set<Kind>, db: Tables, s: System)
    requires ExclusionsProvided(db) && Reaches(kinds, Start(db), s) && Deadlocked(s)
    ensures CycleReached(kinds, db, s, [0, 1, 0]) && StuckReached(kinds, db, s)
  {
    assert WaitCycle(s, [0, 1, 0]);
    assert Blocked(s, 0) && Blocked(s, 1);
  }
}
