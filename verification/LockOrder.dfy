/**
 The order of lock requests. Every command but `ReplaceGroupAssignments` asks for
 its locks in the global order of `Locks`, and that one in the order with groups
 first. So every cycle of waits goes through a `ReplaceGroupAssignments` and
 through a transaction that asks for a group on top of an item or category; while
 there is none of the one or none of the other, some transaction can always go on.
 */
module LockOrder {
  import opened Prelude
  import opened Ordering
  import opened Uuids
  import opened IdSets
  import opened Links
  import opened Locks
  import opened Transactions
  import opened LinkSafety
  import opened LinkRuns
  import Availability

  /** The locks a list of statements asks for. */
  ghost function Requests(todo: seq<Op>): seq<Lock> {
    if todo == [] then []
    else if todo[0].Acquire? then [todo[0].lock] + Requests(todo[1..])
    else Requests(todo[1..])
  }

  lemma {:induction false} RequestsOfAcquires(ls: seq<Lock>)
    ensures Requests(Acquires(ls)) == ls
    decreases |ls|
  {
    if ls != [] {
      assert Acquires(ls)[1..] == Acquires(ls[1..]);
      RequestsOfAcquires(ls[1..]);
    }
  }

  lemma {:induction false} NoRequests(todo: seq<Op>)
    requires forall op :: op in todo ==> !op.Acquire?
    ensures Requests(todo) == []
    decreases |todo|
  {
    if todo != [] { NoRequests(todo[1..]); }
  }

  /** The highest table a transaction may have locked while it is still to read and ask for more. */
  ghost function Ceiling(tx: Tx): int {
    match (tx.job, tx.phase)
    case (_, Starting) => 0
    case (ReplaceCategory(_, _), RowLocked) => 2
    case (_, RowLocked) => 1
    case (_, SourceRead) => 1
    case (_, FirstRead) => 1
    case (_, _) => 4
  }

  ghost predicate UpTo(tx: Tx, tier: int) {
    && (forall h :: h in tx.held ==> Tier(h) <= tier)
    && (forall op :: op in tx.todo && op.Acquire? ==> Tier(op.lock) <= tier)
  }

  /** A row-wise command asks for its next locks in the global order. */
  ghost predicate RowWise(tx: Tx) {
    Startable(tx.job) && Ordered(tx.held, Requests(tx.todo)) && UpTo(tx, Ceiling(tx))
  }

  /** Every lock of the list is above the ones before it and above everything held, in the order with groups first. */
  ghost predicate Climbs(held: set<Lock>, ls: seq<Lock>) {
    && (forall i, j :: 0 <= i < j < |ls| ==> Under(ls[i], ls[j]))
    && forall h, l :: h in held && l in ls ==> Under(h, l)
  }

  /** Until it has read both current sets, the column-wise command holds its request and its group only. */
  ghost function ColumnCeiling(phase: Phase): int {
    match phase
    case Starting => 0
    case RowLocked => 1
    case SourceRead => 1
    case FirstRead => 1
    case _ => 3
  }

  ghost predicate ColumnUpTo(tx: Tx, tier: int) {
    && (forall h :: h in tx.held ==> GroupsFirstTier(h) <= tier)
    && (forall l :: l in Requests(tx.todo) ==> GroupsFirstTier(l) <= tier)
  }

  /** The column-wise command asks for its next locks in the order with groups first. */
  ghost predicate ColumnWise(tx: Tx) {
    Climbs(tx.held, Requests(tx.todo)) && ColumnUpTo(tx, ColumnCeiling(tx.phase))
  }

  ghost predicate InOrder(tx: Tx) {
    if tx.job.ReplaceAssignments? then ColumnWise(tx) else RowWise(tx)
  }

  ghost predicate OrderedSystem(s: System) {
    Safe(s) && forall id :: id in s.txs ==> InOrder(s.txs[id])
  }

  // ---------- the lists commands ask for ----------

  lemma AcquireInOrder(tx: Tx)
    requires InOrder(tx) && tx.todo != [] && tx.todo[0].Acquire?
    ensures InOrder(tx.(todo := tx.todo[1..], held := tx.held + {tx.todo[0].lock}))
  {
    var ls := Requests(tx.todo);
    assert ls[1..] == Requests(tx.todo[1..]);
    if tx.job.ReplaceAssignments? {
      assert tx.todo[0].lock == ls[0];
      AcquireClimbs(tx.held, ls);
    }
  }

  lemma AcquireClimbs(held: set<Lock>, ls: seq<Lock>)
    requires Climbs(held, ls) && ls != []
    ensures Climbs(held + {ls[0]}, ls[1..])
  {
    forall h, l | h in held + {ls[0]} && l in ls[1..] ensures Under(h, l) {
      var k :| 0 <= k < |ls[1..]| && ls[1..][k] == l;
      assert l == ls[k + 1];
    }
  }

  lemma GroupLocksAscend(gs: set<Uuid>)
    ensures forall i, j :: 0 <= i < j < |GroupLocks(gs)| ==> Below(GroupLocks(gs)[i], GroupLocks(gs)[j])
    ensures forall l :: l in GroupLocks(gs) ==> Tier(l) == 3
  {
    ListingFacts(gs);
    var ids := Listing(gs);
    forall i, j | 0 <= i < j < |ids| ensures Below(GroupLocks(gs)[i], GroupLocks(gs)[j]) {
      assert LexLess(Key(ids[i]), Key(ids[j]));
      RowOrder(ids[i], ids[j]);
    }
  }

  lemma CategoryLocksAscend(cs: set<Uuid>)
    ensures forall i, j :: 0 <= i < j < |CategoryLocks(cs)| ==> Below(CategoryLocks(cs)[i], CategoryLocks(cs)[j])
    ensures forall l :: l in CategoryLocks(cs) ==> Tier(l) == 2
  {
    ListingFacts(cs);
    var ids := Listing(cs);
    forall i, j | 0 <= i < j < |ids| ensures Below(CategoryLocks(cs)[i], CategoryLocks(cs)[j]) {
      assert LexLess(Key(ids[i]), Key(ids[j]));
      RowOrder(ids[i], ids[j]);
    }
  }

  /** Items and then categories, each by id, climb on top of a request and a group. */
  lemma OwnersClimb(held: set<Lock>, its: set<Uuid>, cs: set<Uuid>)
    requires forall h :: h in held ==> GroupsFirstTier(h) <= 1
    ensures Climbs(held, ItemLocks(its) + CategoryLocks(cs))
  {
    ItemLocksAscend(its);
    CategoryLocksAscend(cs);
    var a, b := ItemLocks(its), CategoryLocks(cs);
    forall i, j | 0 <= i < j < |a + b| ensures Under((a + b)[i], (a + b)[j]) {
      assert i < |a| ==> (a + b)[i] in a;
      assert j >= |a| ==> (a + b)[j] == b[j - |a|];
    }
  }

  lemma ItemLocksAscend(s: set<Uuid>)
    ensures forall i, j :: 0 <= i < j < |ItemLocks(s)| ==> Below(ItemLocks(s)[i], ItemLocks(s)[j])
    ensures forall l :: l in ItemLocks(s) ==> l.ItemLock?
  {
    ListingFacts(s);
    var ids := Listing(s);
    forall i, j | 0 <= i < j < |ids| ensures Below(ItemLocks(s)[i], ItemLocks(s)[j]) {
      assert LexLess(Key(ids[i]), Key(ids[j]));
      RowOrder(ids[i], ids[j]);
    }
  }

  /** An ascending list from tables above everything held is in order. */
  lemma HigherTablesInOrder(held: set<Lock>, tier: int, ls: seq<Lock>)
    requires forall h :: h in held ==> Tier(h) <= tier
    requires forall l :: l in ls ==> Tier(l) > tier
    requires forall i, j :: 0 <= i < j < |ls| ==> Below(ls[i], ls[j])
    ensures Ordered(held, Requests(Acquires(ls)))
  {
    forall h, l | h in held && l in ls ensures Below(h, l) { TierDecides(h, l); }
    AscendingOrdered(held, ls);
    RequestsOfAcquires(ls);
  }

  lemma OneInOrder(held: set<Lock>, tier: int, l: Lock)
    requires (forall h :: h in held ==> Tier(h) <= tier) && Tier(l) > tier
    ensures Ordered(held, Requests([Acquire(l)]))
  {
    HigherTablesInOrder(held, tier, [l]);
    assert Acquires([l]) == [Acquire(l)];
  }

  lemma TwoInOrder(held: set<Lock>, tier: int, a: Lock, b: Lock)
    requires (forall h :: h in held ==> Tier(h) <= tier) && tier < Tier(a) < Tier(b)
    ensures Ordered(held, Requests(Acquires([a, b])))
  {
    TierDecides(a, b);
    HigherTablesInOrder(held, tier, [a, b]);
  }

  lemma PlanInOrder(job: Job, held: set<Lock>)
    requires job.SetAvailability? && Startable(job) && forall h :: h in held ==> Tier(h) <= 0
    ensures Ordered(held, Requests(Acquires(Availability.Requests(job.plan))))
  {
    assert [] + job.plan == job.plan;
    forall h | h in held ensures Tier(h) == 0 {}
    Availability.PlanOrdered(job.menu, [], job.plan, held);
    RequestsOfAcquires(Availability.Requests(job.plan));
  }

  // ---------- a read or check ----------

  lemma NextInOrder(db: Tables, tx: Tx)
    requires tx.phase != Writing && TxOk(db, tx) && InOrder(tx) && tx.todo == [] && Next(db, tx).Some?
    ensures InOrder(Next(db, tx).value)
  {
    var tx' := Next(db, tx).value;
    if tx'.phase == Writing {
      NextWriting(db, tx);
      assert tx'.job == tx.job;
      WritingInOrder(db, tx');
    } else if tx.job.ReplaceAssignments? {
      NextColumnWise(db, tx);
    } else if tx.phase == Starting {
      StartInOrder(tx);
    } else {
      LaterRequestsInOrder(db, tx);
    }
  }

  lemma WritingInOrder(db: Tables, tx: Tx)
    requires tx.phase == Writing && WritingOk(db, tx) && (!tx.job.ReplaceAssignments? ==> Startable(tx.job))
    ensures InOrder(tx)
  {
    assert forall op :: op in tx.todo ==> OpLocked(tx.held, op);
    NoRequests(tx.todo);
  }

  lemma NextColumnWise(db: Tables, tx: Tx)
    requires tx.phase != Writing && tx.job.ReplaceAssignments? && ColumnWise(tx) && tx.todo == []
    requires Next(db, tx).Some? && Next(db, tx).value.phase != Writing
    ensures ColumnWise(Next(db, tx).value)
  {
    if tx.phase == Starting {
      RequestsOfAcquires([GroupLock(tx.job.group)]);
    } else if tx.phase == FirstRead {
      OwnersNext(db, tx);
    }
  }

  lemma OwnersNext(db: Tables, tx: Tx)
    requires tx.phase == FirstRead && tx.job.ReplaceAssignments? && ColumnWise(tx) && tx.todo == []
    ensures Next(db, tx).Some? && ColumnWise(Next(db, tx).value)
  {
    var its, cs := tx.first + tx.job.items, OwnersOf(db.provided, tx.job.group) + tx.job.categories;
    OwnersRequested(tx.held, its, cs);
    var tx' := OwnersRead(db, tx, Acquires(ItemLocks(its) + CategoryLocks(cs)));
    CheckingInOrder(tx');
  }

  /** A transaction that asks for its last locks may hold and ask for any table. */
  lemma CheckingInOrder(tx: Tx)
    requires tx.phase == Checking && Startable(tx.job)
    requires if tx.job.ReplaceAssignments? then Climbs(tx.held, Requests(tx.todo))
      else Ordered(tx.held, Requests(tx.todo))
    ensures InOrder(tx)
  {
  }

  lemma OwnersRead(db: Tables, tx: Tx, todo: seq<Op>) returns (tx': Tx)
    requires tx.phase == FirstRead && tx.job.ReplaceAssignments?
    requires todo == Acquires(ItemLocks(tx.first + tx.job.items)
                              + CategoryLocks(OwnersOf(db.provided, tx.job.group) + tx.job.categories))
    ensures Next(db, tx) == Some(tx') && tx'.phase == Checking && tx'.todo == todo && tx'.held == tx.held
      && tx'.job == tx.job
  {
    tx' := tx.(phase := Checking, second := OwnersOf(db.provided, tx.job.group), todo := todo);
  }

  lemma OwnersRequested(held: set<Lock>, its: set<Uuid>, cs: set<Uuid>)
    requires forall h :: h in held ==> GroupsFirstTier(h) <= 1
    ensures Climbs(held, Requests(Acquires(ItemLocks(its) + CategoryLocks(cs))))
  {
    OwnersClimb(held, its, cs);
    RequestsOfAcquires(ItemLocks(its) + CategoryLocks(cs));
  }

  lemma StartInOrder(tx: Tx)
    requires InOrder(tx) && tx.phase == Starting && !tx.job.ReplaceAssignments?
    ensures InOrder(tx.(phase := if ReadsMore(tx.job) then RowLocked else Checking,
                        todo := Acquires(FirstLocks(tx.job))))
  {
    FirstLocksInOrder(tx.job, tx.held);
  }

  lemma FirstLocksInOrder(job: Job, held: set<Lock>)
    requires Startable(job) && !job.ReplaceAssignments? && forall h :: h in held ==> Tier(h) <= 0
    ensures Ordered(held, Requests(Acquires(FirstLocks(job))))
  {
    match job {
      case AttachItem(i, g) => TwoInOrder(held, 0, ItemLock(i), GroupLock(g));
      case AttachCategory(c, g) => TwoInOrder(held, 0, CategoryLock(c), GroupLock(g));
      case SetAvailability(_, _) => PlanInOrder(job, held);
      case _ => HigherTablesInOrder(held, 0, FirstLocks(job));
    }
  }

  lemma LaterRequestsInOrder(db: Tables, tx: Tx)
    requires tx.phase != Starting && tx.phase != Checking && tx.phase != Writing && InOrder(tx) && tx.todo == []
    requires !tx.job.ReplaceAssignments? && Read(db, tx).Some? && Read(db, tx).value.phase != Writing
    ensures InOrder(Read(db, tx).value)
  {
    match tx.job {
      case Exclude(_, g) => if tx.phase == RowLocked { OneInOrder(tx.held, 1, GroupLock(g)); }
      case ReplaceItem(_, _, _) => ItemRequestsInOrder(db, tx);
      case ReplaceCategory(_, _) => CategoryRequestsInOrder(db, tx);
      case MoveItem(_, _) => MoveRequestsInOrder(db, tx);
      case _ =>
    }
  }

  lemma ItemRequestsInOrder(db: Tables, tx: Tx)
    requires tx.phase != Starting && tx.phase != Checking && tx.phase != Writing && InOrder(tx) && tx.todo == []
    requires tx.job.ReplaceItem? && Read(db, tx).Some?
    ensures InOrder(Read(db, tx).value)
  {
    if tx.phase == FirstRead {
      GroupsInOrder(tx.held, 1, tx.first + GroupsOf(db.excluded, tx.job.item) + tx.job.direct + tx.job.excluded);
      CheckingInOrder(Read(db, tx).value);
    }
  }

  lemma CategoryRequestsInOrder(db: Tables, tx: Tx)
    requires tx.phase != Starting && tx.phase != Checking && tx.phase != Writing && InOrder(tx) && tx.todo == []
    requires tx.job.ReplaceCategory? && Read(db, tx).Some?
    ensures InOrder(Read(db, tx).value)
  {
    GroupsInOrder(tx.held, 2, GroupsOf(db.provided, tx.job.category) + tx.job.groups);
    CheckingInOrder(Read(db, tx).value);
  }

  lemma MoveRequestsInOrder(db: Tables, tx: Tx)
    requires tx.phase != Starting && tx.phase != Checking && tx.phase != Writing && InOrder(tx) && tx.todo == []
    requires tx.job.MoveItem? && Read(db, tx).Some?
    ensures InOrder(Read(db, tx).value)
  {
    if db.items[tx.job.item].category != tx.job.category {
      CategoriesInOrder(tx.held, {db.items[tx.job.item].category, tx.job.category});
      CheckingInOrder(Read(db, tx).value);
    }
  }

  lemma GroupsInOrder(held: set<Lock>, tier: int, gs: set<Uuid>)
    requires tier <= 2 && forall h :: h in held ==> Tier(h) <= tier
    ensures Ordered(held, Requests(Acquires(GroupLocks(gs))))
  {
    GroupLocksAscend(gs);
    HigherTablesInOrder(held, tier, GroupLocks(gs));
  }

  lemma CategoriesInOrder(held: set<Lock>, cs: set<Uuid>)
    requires forall h :: h in held ==> Tier(h) <= 1
    ensures Ordered(held, Requests(Acquires(CategoryLocks(cs))))
  {
    CategoryLocksAscend(cs);
    HigherTablesInOrder(held, 1, CategoryLocks(cs));
  }

  // ---------- runs ----------

  lemma StepInOrder(s: System, id: nat)
    requires OrderedSystem(s) && id in s.txs
    ensures AllInOrder(StepTx(s, id))
  {
    StepMovesOne(s, id);
    StepOwnInOrder(s, id);
  }

  lemma StepOwnInOrder(s: System, id: nat)
    requires id in s.txs && TxOk(s.db, s.txs[id]) && InOrder(s.txs[id])
    ensures id in StepTx(s, id).txs ==> InOrder(StepTx(s, id).txs[id])
  {
    var tx := s.txs[id];
    if tx.todo != [] {
      if tx.todo[0].Acquire? { AcquireInOrder(tx); } else { WriteInOrder(tx, Write(s.db, tx.writes, tx.todo[0])); }
    } else if tx.phase != Writing && Next(s.db, tx).Some? {
      NextInOrder(s.db, tx);
    }
  }

  lemma WriteInOrder(tx: Tx, writes: Writes)
    requires InOrder(tx) && tx.todo != [] && !tx.todo[0].Acquire?
    ensures InOrder(tx.(todo := tx.todo[1..], writes := writes))
  {
    assert Requests(tx.todo) == Requests(tx.todo[1..]);
  }

  ghost predicate AllInOrder(s: System) {
    forall id :: id in s.txs ==> InOrder(s.txs[id])
  }

  lemma DoInOrder(s: System, e: Event)
    requires OrderedSystem(s)
    ensures OrderedSystem(Do(s, e))
  {
    DoKeepsSafe(s, e);
    match e {
      case Begin(id, job, request) => NewTxInOrder(job, request);
      case Step(id) => if id in s.txs { StepInOrder(s, id); }
      case _ => FewerInOrder(s, e);
    }
  }

  lemma FewerInOrder(s: System, e: Event)
    requires AllInOrder(s) && (e.Commit? || e.Abort?)
    ensures AllInOrder(Do(s, e))
  {
  }

  lemma NewTxInOrder(job: Job, request: int)
    ensures Startable(job) ==> InOrder(NewTx(job, request))
  {
    var l := RequestLock(request);
    OneInOrder({}, -1, l);
    RequestsOfAcquires([l]);
    assert Acquires([l]) == [Acquire(l)];
  }

  lemma {:induction false} PlayInOrder(s: System, events: seq<Event>)
    requires OrderedSystem(s)
    ensures OrderedSystem(Play(s, events))
    decreases |events|
  {
    if events != [] {
      DoInOrder(s, events[0]);
      PlayInOrder(Do(s, events[0]), events[1..]);
    }
  }

  // ---------- waiting ----------

  /** The lock a waiting transaction asks for. */
  ghost function Ask(s: System, id: nat): Lock
    requires id in s.txs && Wanted(s.txs[id]).Some?
  {
    Wanted(s.txs[id]).value
  }

  ghost predicate Asking(s: System, id: nat) {
    id in s.txs && Wanted(s.txs[id]).Some?
  }

  /** A running `ReplaceGroupAssignments`. */
  ghost predicate Reversed(s: System, id: nat) {
    id in s.txs && s.txs[id].job.ReplaceAssignments?
  }

  /** `a` asks for a lock `b` holds. */
  ghost predicate WaitsFor(s: System, a: nat, b: nat) {
    Asking(s, a) && b in s.txs && a != b && Ask(s, a) in s.txs[b].held
  }

  /** Each of a list of transactions waits for the one after it. */
  ghost predicate WaitChain(s: System, ids: seq<nat>) {
    forall k :: 0 <= k < |ids| - 1 ==> Asking(s, ids[k]) && WaitsFor(s, ids[k], ids[k + 1])
  }

  /** A transaction that asks for a group, or an option of one, while it holds a row of another table. */
  ghost predicate Mixed(s: System, id: nat) {
    && Asking(s, id) && !Reversed(s, id) && Tier(Ask(s, id)) == 3
    && exists h :: h in s.txs[id].held && 0 < Tier(h) < 3
  }

  /** The two orders commands ask in. */
  datatype Order = ItemsFirst | GroupsFirst

  predicate Less(o: Order, a: Lock, b: Lock) {
    if o.ItemsFirst? then Below(a, b) else Under(a, b)
  }

  /** The transactions that may ask against the order. */
  ghost predicate Against(o: Order, s: System, id: nat) {
    if o.ItemsFirst? then Reversed(s, id) else Mixed(s, id)
  }

  lemma LessTransitive(o: Order, a: Lock, b: Lock, c: Lock)
    requires Less(o, a, b) && Less(o, b, c)
    ensures Less(o, a, c)
  {
    if Below(a, b) && Below(b, c) { BelowTransitive(a, b, c); }
  }

  /** Along two waits in a row, the wanted lock rises if the one in the middle keeps the order. */
  lemma WaitRises(o: Order, s: System, a: nat, b: nat, c: nat)
    requires OrderedSystem(s) && WaitsFor(s, a, b) && WaitsFor(s, b, c) && !Against(o, s, b)
    ensures Less(o, Ask(s, a), Ask(s, b))
  {
    var tx, h, l := s.txs[b], Ask(s, a), Ask(s, b);
    assert l in s.txs[c].held && l !in tx.held;
    assert InOrder(tx);
    assert Requests(tx.todo)[0] == l;
    if tx.job.ReplaceAssignments? {
      assert Under(h, l);
    } else {
      assert Below(h, l);
      if o.GroupsFirst? { BelowIsUnder(h, l); }
    }
  }

  /** The two orders agree but on a group asked for on top of a row of another table. */
  lemma BelowIsUnder(h: Lock, l: Lock)
    requires Below(h, l) && !(Tier(l) == 3 && 0 < Tier(h) < 3)
    ensures Under(h, l)
  {
    if Tier(l) < Tier(h) {
      TierDecides(l, h);
      BelowTransitive(h, l, h);
      BelowIrreflexive(h);
    }
  }

  /** Along a list of waits the wanted lock rises. */
  ghost predicate Rising(o: Order, s: System, ids: seq<nat>) {
    && (forall k :: 0 <= k < |ids| - 1 ==> Asking(s, ids[k]))
    && forall k :: 0 <= k < |ids| - 2 ==> LessWanted(o, s, ids[k], ids[k + 1])
  }

  ghost predicate LessWanted(o: Order, s: System, a: nat, b: nat) {
    Asking(s, a) && Asking(s, b) && Less(o, Ask(s, a), Ask(s, b))
  }

  lemma ChainRises(o: Order, s: System, ids: seq<nat>)
    requires OrderedSystem(s) && WaitChain(s, ids)
    requires forall id :: id in ids ==> !Against(o, s, id)
    ensures Rising(o, s, ids)
  {
    forall k | 0 <= k < |ids| - 2 ensures LessWanted(o, s, ids[k], ids[k + 1]) {
      assert WaitsFor(s, ids[k], ids[k + 1]);
      assert WaitsFor(s, ids[k + 1], ids[k + 2]);
      WaitRises(o, s, ids[k], ids[k + 1], ids[k + 2]);
    }
  }

  lemma {:induction false} EndsRise(o: Order, s: System, ids: seq<nat>)
    requires Rising(o, s, ids) && |ids| >= 3
    ensures LessWanted(o, s, ids[0], ids[|ids| - 2])
    decreases |ids|
  {
    var n := |ids|;
    if n > 3 {
      assert Rising(o, s, ids[..n - 1]);
      EndsRise(o, s, ids[..n - 1]);
      LessWantedTransitive(o, s, ids[0], ids[n - 3], ids[n - 2]);
    }
  }

  lemma LessWantedTransitive(o: Order, s: System, a: nat, b: nat, c: nat)
    requires LessWanted(o, s, a, b) && LessWanted(o, s, b, c)
    ensures LessWanted(o, s, a, c)
  {
    LessTransitive(o, Ask(s, a), Ask(s, b), Ask(s, c));
  }

  /** A list of transactions in which each waits for the next and the last is the first. */
  ghost predicate WaitCycle(s: System, ids: seq<nat>) {
    |ids| >= 2 && ids[0] == ids[|ids| - 1] && WaitChain(s, ids)
  }

  /** In every reachable state, a cycle of waits goes through a `ReplaceGroupAssignments`. */
  lemma WaitCycleNeedsReplaceAssignments(db: Tables, events: seq<Event>, ids: seq<nat>)
    requires ExclusionsProvided(db) && WaitCycle(Play(Start(db), events), ids)
    ensures exists k :: 0 <= k < |ids| && Reversed(Play(Start(db), events), ids[k])
  {
    PlayInOrder(Start(db), events);
    CycleGoesAgainst(ItemsFirst, Play(Start(db), events), ids);
  }

  /** And through a transaction that asks for a group, or an option, while it holds a row of another table. */
  lemma WaitCycleNeedsMixed(db: Tables, events: seq<Event>, ids: seq<nat>)
    requires ExclusionsProvided(db) && WaitCycle(Play(Start(db), events), ids)
    ensures exists k :: 0 <= k < |ids| && Mixed(Play(Start(db), events), ids[k])
  {
    PlayInOrder(Start(db), events);
    CycleGoesAgainst(GroupsFirst, Play(Start(db), events), ids);
  }

  lemma CycleGoesAgainst(o: Order, s: System, ids: seq<nat>)
    requires OrderedSystem(s) && WaitCycle(s, ids)
    ensures exists k :: 0 <= k < |ids| && Against(o, s, ids[k])
  {
    if forall id :: id in ids ==> !Against(o, s, id) {
      var round := RoundAgain(s, ids);
      ChainRises(o, s, round);
      RisingIsNoCycle(o, s, round);
    }
  }

  /** A list of rising waits does not come back to where it started. */
  lemma RisingIsNoCycle(o: Order, s: System, round: seq<nat>)
    requires Rising(o, s, round) && |round| >= 3
    ensures round[0] != round[|round| - 2]
  {
    EndsRise(o, s, round);
    BelowIrreflexive(Ask(s, round[0]));
  }

  /** Going on along a cycle for one more wait. */
  lemma RoundAgain(s: System, ids: seq<nat>) returns (round: seq<nat>)
    requires WaitCycle(s, ids)
    ensures WaitChain(s, round) && |round| >= 3 && round[0] == round[|round| - 2]
    ensures forall id :: id in round ==> id in ids
  {
    round := ids + [ids[1]];
    assert WaitsFor(s, ids[0], ids[1]);
    forall k | 0 <= k < |round| - 1 ensures Asking(s, round[k]) && WaitsFor(s, round[k], round[k + 1]) {
      if k < |ids| - 1 {
        assert WaitsFor(s, ids[k], ids[k + 1]);
      } else {
        assert round[k] == ids[0] && round[k + 1] == ids[1];
      }
    }
  }

  // ---------- progress ----------

  /** A transaction whose wanted lock no other one's is above. */
  lemma {:induction false} HighestWanted(o: Order, s: System, ids: set<nat>) returns (top: nat)
    requires ids != {} && forall id :: id in ids ==> Asking(s, id)
    ensures top in ids && Asking(s, top)
    ensures forall id :: id in ids ==> Asking(s, id) && !Less(o, Ask(s, top), Ask(s, id))
    decreases |ids|
  {
    var id :| id in ids;
    BelowIrreflexive(Ask(s, id));
    if ids == {id} {
      top := id;
    } else {
      var rest := HighestWanted(o, s, ids - {id});
      if Less(o, Ask(s, rest), Ask(s, id)) {
        top := id;
        forall other | other in ids ensures !Less(o, Ask(s, id), Ask(s, other)) {
          if Less(o, Ask(s, id), Ask(s, other)) { LessTransitive(o, Ask(s, rest), Ask(s, id), Ask(s, other)); }
        }
      } else {
        top := rest;
      }
    }
  }

  lemma BlockedWaits(s: System, id: nat) returns (holder: nat)
    requires Blocked(s, id)
    ensures WaitsFor(s, id, holder)
  {
    holder :| holder in s.txs && holder != id && Wanted(s.txs[id]).value in s.txs[holder].held;
  }

  /** While anything runs, and nothing asks against one of the two orders, something is not waiting. */
  lemma SomethingCanGoOn(db: Tables, events: seq<Event>)
    requires ExclusionsProvided(db)
    requires Play(Start(db), events).txs != map[]
    requires || (forall id :: !Reversed(Play(Start(db), events), id))
             || (forall id :: !Mixed(Play(Start(db), events), id))
    ensures exists id :: id in Play(Start(db), events).txs && !Blocked(Play(Start(db), events), id)
  {
    var s := Play(Start(db), events);
    PlayInOrder(Start(db), events);
    NotAllBlocked(if forall id :: !Reversed(s, id) then ItemsFirst else GroupsFirst, s);
  }

  lemma NotAllBlocked(o: Order, s: System)
    requires OrderedSystem(s) && s.txs != map[] && forall id :: !Against(o, s, id)
    ensures exists id :: id in s.txs && !Blocked(s, id)
  {
    if forall id :: id in s.txs ==> Blocked(s, id) {
      assert forall id :: id in s.txs ==> Asking(s, id);
      assert s.txs.Keys != {};
      var top := HighestWanted(o, s, s.txs.Keys);
      var holder := BlockedWaits(s, top);
      var next := BlockedWaits(s, holder);
      WaitRises(o, s, top, holder, next);
      assert false;
    }
  }
}
