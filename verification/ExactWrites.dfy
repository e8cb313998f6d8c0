/**
 What the uncommitted writes of a transaction add up to. They are exactly the
 rows its command is about, and no one else can add or delete those meanwhile.
 */
module ExactWrites {
  import opened Uuids
  import opened IdSets
  import opened Links
  import opened Locks
  import opened Transactions
  import opened LinkSafety
  import opened LinkRuns
  import opened ItemRaces
  import opened OwnerRaces

  // ---------- what a transaction knows ----------

  ghost predicate MoveLocks(db: Tables, tx: Tx, i: Uuid, c: Uuid) {
    && i in db.items && tx.source == db.items[i].category && tx.source != c
    && ItemLock(i) in tx.held && CategoryLock(c) in tx.held && CategoryLock(tx.source) in tx.held
  }

  /** The stages of a move's writes. */
  ghost predicate MoveExact(db: Tables, tx: Tx, i: Uuid, c: Uuid) {
    if tx.phase == Checking then
      i in db.items && tx.source == db.items[i].category && tx.source != c && Covered(tx, CategoryLock(tx.source))
    else tx.phase == Writing ==>
      || (tx.todo == [] && tx.writes == NO_WRITES && i in db.items && db.items[i].category == c
          && ItemLock(i) in tx.held)
      || (tx.todo == [Recategorise(i, c), DropOrphans(i, c)] && tx.writes == NO_WRITES && MoveLocks(db, tx, i, c))
      || (tx.todo == [DropOrphans(i, c)] && tx.writes == NO_WRITES.(moved := map[i := c]) && MoveLocks(db, tx, i, c))
      || (tx.todo == [] && MoveLocks(db, tx, i, c)
          && tx.writes == NO_WRITES.(moved := map[i := c], removeExcluded := LinksFrom(i, Orphaned(db, i, c))))
  }

  /** Every exclusion being deleted is stored, and is of a group its item's category is losing. */
  ghost predicate OnlyDropped(db: Tables, w: Writes) {
    forall l :: l in w.removeExcluded ==>
      l in db.excluded && l.owner in db.items && Link(db.items[l.owner].category, l.group) in w.removeProvided
  }

  /** An exclusion delete comes right after the link removal it belongs to. */
  ghost predicate DropsFollow(tx: Tx) {
    && (forall k :: 0 < k < |tx.todo| && tx.todo[k].DropExclusions? ==>
          tx.todo[k - 1] == RemoveProvided(tx.todo[k].category, tx.todo[k].group))
    && (tx.todo != [] && tx.todo[0].DropExclusions? ==>
        Link(tx.todo[0].category, tx.todo[0].group) in tx.writes.removeProvided)
    && (forall op :: op in tx.todo ==> !op.RemoveExclusion?)
  }

  /** A command with one write. */
  ghost predicate OneWrite(tx: Tx, op: Op, done: Writes) {
    tx.phase == Writing ==> (tx.todo == [op] && tx.writes == NO_WRITES) || (tx.todo == [] && tx.writes == done)
  }

  /** An item replacement that writes holds the item and every group it read or was given. */
  ghost predicate ItemGroupsHeld(tx: Tx, i: Uuid, d: set<Uuid>, e: set<Uuid>) {
    ItemLock(i) in tx.held && forall g :: g in tx.first + tx.second + d + e ==> GroupLock(g) in tx.held
  }

  ghost predicate ExactOk(db: Tables, tx: Tx) {
    match tx.job
    case AttachItem(i, g) => OneWrite(tx, AddDirect(i, g), NO_WRITES.(addDirect := {Link(i, g)}))
    case AttachCategory(c, g) => OneWrite(tx, AddProvided(c, g), NO_WRITES.(addProvided := {Link(c, g)}))
    case Exclude(i, g) => OneWrite(tx, AddExclusion(i, g), NO_WRITES.(addExcluded := {Link(i, g)}))
    case ReplaceItem(i, d, e) => tx.phase == Writing ==> ItemGroupsHeld(tx, i, d, e)
    case ReplaceCategory(_, _) => tx.phase == Writing ==> OnlyDropped(db, tx.writes) && DropsFollow(tx)
    case ReplaceAssignments(_, _, _) => tx.phase == Writing ==> OnlyDropped(db, tx.writes) && DropsFollow(tx)
    case MoveItem(i, c) => MoveExact(db, tx, i, c)
    case _ => true
  }

  ghost predicate ExactIn(s: System) {
    ReadsHoldIn(s) && OwnerReadsIn(s) && forall id :: id in s.txs ==> ExactOk(s.db, s.txs[id])
  }

  // ---------- statements ----------

  lemma AcquireKeepsExact(db: Tables, tx: Tx)
    requires TxOk(db, tx) && ExactOk(db, tx) && tx.todo != [] && tx.todo[0].Acquire?
    ensures ExactOk(db, tx.(todo := tx.todo[1..], held := tx.held + {tx.todo[0].lock}))
  {
    var tx' := tx.(todo := tx.todo[1..], held := tx.held + {tx.todo[0].lock});
    assert tx.todo == [tx.todo[0]] + tx.todo[1..];
    assert tx.phase == Writing ==> OpLocked(tx.held, tx.todo[0]);
    assert forall l :: Covered(tx, l) ==> Covered(tx', l);
  }

  lemma DropWrite(db: Tables, tx: Tx)
    requires ProvidingOk(db, tx) && OnlyDropped(db, tx.writes) && DropsFollow(tx) && tx.todo != []
    ensures var tx' := tx.(todo := tx.todo[1..], writes := Write(db, tx.writes, tx.todo[0]));
      OnlyDropped(db, tx'.writes) && DropsFollow(tx')
  {
    var op := tx.todo[0];
    assert tx.todo == [op] + tx.todo[1..];
    assert PlainOp(op) || op.AddProvided? || op.RemoveProvided? || op.DropExclusions?;
    var tx' := tx.(todo := tx.todo[1..], writes := Write(db, tx.writes, op));
    forall k | 0 <= k < |tx'.todo| && tx'.todo[k].DropExclusions?
      ensures tx.todo[k] == RemoveProvided(tx'.todo[k].category, tx'.todo[k].group)
      ensures 0 < k ==> tx'.todo[k - 1] == tx.todo[k]
    {
      assert tx'.todo[k] == tx.todo[k + 1];
    }
    assert tx.writes.removeProvided <= tx'.writes.removeProvided;
  }

  lemma MoveWrite(db: Tables, tx: Tx, i: Uuid, c: Uuid)
    requires MoveExact(db, tx, i, c) && tx.phase == Writing && tx.todo != []
    ensures MoveExact(db, tx.(todo := tx.todo[1..], writes := Write(db, tx.writes, tx.todo[0])), i, c)
  {
    if tx.todo == [DropOrphans(i, c)] {
      var dropped := set l | l in db.excluded && l.owner == i && Link(c, l.group) !in db.provided;
      forall l ensures l in dropped <==> l in LinksFrom(i, Orphaned(db, i, c)) {
        GroupsOfMember(db.excluded, i, l.group);
        GroupsOfMember(db.provided, c, l.group);
        assert l in LinksFrom(i, Orphaned(db, i, c)) <==> l.owner == i && l.group in Orphaned(db, i, c);
      }
      assert dropped == LinksFrom(i, Orphaned(db, i, c));
    }
  }

  lemma WriteKeepsExact(db: Tables, tx: Tx)
    requires TxOk(db, tx) && ExactOk(db, tx) && tx.todo != [] && !tx.todo[0].Acquire?
    ensures ExactOk(db, tx.(todo := tx.todo[1..], writes := Write(db, tx.writes, tx.todo[0])))
  {
    assert tx.phase == Writing;
    match tx.job {
      case ReplaceCategory(_, _) => DropWrite(db, tx);
      case ReplaceAssignments(_, _, _) => DropWrite(db, tx);
      case MoveItem(i, c) => MoveWrite(db, tx, i, c);
      case _ =>
    }
  }

  ghost predicate Led(ops: seq<Op>) {
    && (ops != [] ==> !ops[0].DropExclusions?)
    && forall k :: 0 < k < |ops| && ops[k].DropExclusions? ==>
      ops[k - 1] == RemoveProvided(ops[k].category, ops[k].group)
  }

  lemma LedConcat(a: seq<Op>, b: seq<Op>)
    requires Led(a) && Led(b)
    ensures Led(a + b)
  {
    var ops := a + b;
    forall k | 0 < k < |ops| && ops[k].DropExclusions?
      ensures ops[k - 1] == RemoveProvided(ops[k].category, ops[k].group) {
      assert b != [] ==> ops[|a|] == b[0];
      if k < |a| { assert ops[k] == a[k] && ops[k - 1] == a[k - 1]; }
      else if k > |a| { assert ops[k] == b[k - |a|] && ops[k - 1] == b[k - |a| - 1]; }
    }
  }

  lemma {:induction false} RemovalsFromLed(c: Uuid, gs: seq<Uuid>)
    ensures Led(RemovalsFrom(c, gs))
    decreases |gs|
  {
    if gs != [] {
      RemovalsFromLed(c, gs[1..]);
      LedConcat([RemoveProvided(c, gs[0]), DropExclusions(c, gs[0])], RemovalsFrom(c, gs[1..]));
    }
  }

  lemma {:induction false} RemovalsOfLed(g: Uuid, cs: seq<Uuid>)
    ensures Led(RemovalsOf(g, cs))
    decreases |cs|
  {
    if cs != [] {
      RemovalsOfLed(g, cs[1..]);
      LedConcat([RemoveProvided(cs[0], g), DropExclusions(cs[0], g)], RemovalsOf(g, cs[1..]));
    }
  }

  lemma CategoryWritesLed(c: Uuid, current: set<Uuid>, gs: set<Uuid>)
    ensures Led(CategoryWrites(c, current, gs))
    ensures forall op :: op in CategoryWrites(c, current, gs) ==> !op.RemoveExclusion?
  {
    var a, b := RemovalsFrom(c, Listing(current - gs)), Each(Listing(gs - current), g => AddProvided(c, g));
    RemovalsFromFacts(c, Listing(current - gs));
    RemovalsFromLed(c, Listing(current - gs));
    EachFacts(gs - current, g => AddProvided(c, g));
    LedConcat(a, b);
  }

  lemma AssignmentWritesLed(g: Uuid, curItems: set<Uuid>, curCats: set<Uuid>, its: set<Uuid>, cs: set<Uuid>)
    ensures Led(AssignmentWrites(g, curItems, curCats, its, cs))
    ensures forall op :: op in AssignmentWrites(g, curItems, curCats, its, cs) ==> !op.RemoveExclusion?
  {
    var a := RemovalsOf(g, Listing(curCats - cs));
    var b := Each(Listing(cs - curCats), c => AddProvided(c, g));
    var p := Each(Listing(curItems - its), i => RemoveDirect(i, g));
    var q := Each(Listing(its - curItems), i => AddDirect(i, g));
    RemovalsOfFacts(g, Listing(curCats - cs));
    EachFacts(cs - curCats, c => AddProvided(c, g));
    EachFacts(curItems - its, i => RemoveDirect(i, g));
    EachFacts(its - curItems, i => AddDirect(i, g));
    RemovalsOfLed(g, Listing(curCats - cs));
    LedConcat(a, b);
    LedConcat(a + b, p);
    LedConcat(a + b + p, q);
  }

  lemma NextKeepsExact(db: Tables, tx: Tx)
    requires tx.phase != Writing && TxOk(db, tx) && ExactOk(db, tx) && tx.todo == [] && Next(db, tx).Some?
    ensures ExactOk(db, Next(db, tx).value)
  {
    assert forall l :: Covered(tx, l) ==> l in tx.held;
    if tx.job.MoveItem? {
      NextMove(db, tx, tx.job.item, tx.job.category);
    } else if tx.phase == Checking {
      DecideExact(db, tx);
    } else {
      StillReading(db, tx);
    }
  }

  lemma StillReading(db: Tables, tx: Tx)
    requires tx.phase != Checking && tx.phase != Writing && !tx.job.MoveItem? && Next(db, tx).Some?
    ensures Next(db, tx).value.phase != Writing && Next(db, tx).value.job == tx.job
  {
  }

  lemma DecideExact(db: Tables, tx: Tx)
    requires tx.phase == Checking && ReadingOk(db, tx) && !tx.job.MoveItem? && Decide(db, tx).Some?
    requires forall l :: Covered(tx, l) ==> l in tx.held
    ensures ExactOk(db, tx.(phase := Writing, todo := Decide(db, tx).value))
  {
    match tx.job {
      case ReplaceItem(i, d, e) => ItemLocksHeld(tx, i, d, e);
      case ReplaceCategory(c, gs) => CategoryWritesLed(c, tx.first, gs);
      case ReplaceAssignments(g, its, cs) => AssignmentWritesLed(g, tx.first, tx.second, its, cs);
      case _ =>
    }
  }

  lemma ItemLocksHeld(tx: Tx, i: Uuid, d: set<Uuid>, e: set<Uuid>)
    requires ItemLock(i) in tx.held && forall l :: Covered(tx, l) ==> l in tx.held
    requires forall g :: g in tx.first + tx.second + d + e ==> Covered(tx, GroupLock(g))
    ensures ItemGroupsHeld(tx, i, d, e)
  {
  }

  lemma NextMove(db: Tables, tx: Tx, i: Uuid, c: Uuid)
    requires tx.phase != Writing && ReadingOk(db, tx) && tx.job == MoveItem(i, c) && MoveExact(db, tx, i, c)
    requires tx.todo == [] && Next(db, tx).Some? && forall l :: Covered(tx, l) ==> l in tx.held
    ensures MoveExact(db, Next(db, tx).value, i, c)
  {
    if tx.phase == RowLocked {
      var both := {db.items[i].category, c};
      AcquiresFacts(CategoryLocks(both));
      CategoryLocksFacts(both);
    }
  }

  // ---------- commits of others ----------

  /** A moved item's old category is locked by its mover. */
  ghost predicate SourcesLocked(db: Tables, held: set<Lock>, w: Writes) {
    forall i :: i in w.moved && i in db.items ==> CategoryLock(db.items[i].category) in held
  }

  /** Two of the three rows an exclusion hangs on are held: its item, its group, the item's category. */
  ghost predicate HoldsTwo(db: Tables, held: set<Lock>, l: Link) {
    var item, group := ItemLock(l.owner) in held, GroupLock(l.group) in held;
    var category := l.owner in db.items && CategoryLock(db.items[l.owner].category) in held;
    (item && group) || (item && category) || (group && category)
  }

  /**
   Whoever deletes an exclusion holds two of its rows, so any two deletions and an insertion of it
   exclude each other.
   */
  ghost predicate RemovalsLocked(db: Tables, held: set<Lock>, w: Writes) {
    forall l :: l in w.removeExcluded ==> HoldsTwo(db, held, l)
  }

  lemma HoldsWhatItChanges(db: Tables, tx: Tx)
    requires tx.phase == Writing && tx.todo == [] && TxOk(db, tx) && ReadsHold(db, tx) && ExactOk(db, tx)
    ensures SourcesLocked(db, tx.held, tx.writes) && RemovalsLocked(db, tx.held, tx.writes)
  {
    match tx.job {
      case ReplaceItem(i, d, e) =>
        forall l | l in tx.writes.removeExcluded ensures HoldsTwo(db, tx.held, l) {
          assert l in LinksFrom(i, tx.second - e);
        }
      case ReplaceCategory(_, _) => DropperHolds(db, tx);
      case ReplaceAssignments(_, _, _) => DropperHolds(db, tx);
      case _ =>
    }
  }

  lemma DropperHolds(db: Tables, tx: Tx)
    requires WritesLocked(tx.held, tx.writes) && OnlyDropped(db, tx.writes)
    ensures RemovalsLocked(db, tx.held, tx.writes)
  {
    forall l | l in tx.writes.removeExcluded ensures HoldsTwo(db, tx.held, l) {
      assert Link(db.items[l.owner].category, l.group) in tx.writes.removeProvided;
    }
  }

  lemma CommitKeepsExact(db: Tables, w: Writes, held: set<Lock>, other: Tx)
    requires WritesLocked(held, w) && SourcesLocked(db, held, w) && RemovalsLocked(db, held, w) && held !! other.held
    requires TxOk(db, other) && ExactOk(db, other)
    ensures ExactOk(Install(db, w), other)
  {
    match other.job {
      case ReplaceCategory(_, _) => if other.phase == Writing { CommitKeepsDropped(db, w, held, other); }
      case ReplaceAssignments(_, _, _) => if other.phase == Writing { CommitKeepsDropped(db, w, held, other); }
      case MoveItem(i, c) => CommitKeepsMove(db, w, held, other, i, c);
      case _ =>
    }
  }

  lemma CommitKeepsDropped(db: Tables, w: Writes, held: set<Lock>, other: Tx)
    requires SourcesLocked(db, held, w) && RemovalsLocked(db, held, w) && held !! other.held
    requires WritesLocked(other.held, other.writes) && OnlyDropped(db, other.writes)
    ensures OnlyDropped(Install(db, w), other.writes)
  {
    forall l | l in other.writes.removeExcluded
      ensures l in Install(db, w).excluded && l.owner in Install(db, w).items
      ensures Link(Install(db, w).items[l.owner].category, l.group) in other.writes.removeProvided
    {
      var lost := Link(db.items[l.owner].category, l.group);
      assert lost in other.writes.removeProvided;
      assert CategoryLock(lost.owner) !in held && GroupLock(lost.group) !in held;
      assert !HoldsTwo(db, held, l);
    }
  }

  lemma CommitKeepsMove(db: Tables, w: Writes, held: set<Lock>, other: Tx, i: Uuid, c: Uuid)
    requires WritesLocked(held, w) && RemovalsLocked(db, held, w) && held !! other.held
    requires other.job == MoveItem(i, c) && TxOk(db, other) && MoveExact(db, other, i, c)
    ensures MoveExact(Install(db, w), other, i, c)
  {
    if other.phase == Checking || other.phase == Writing {
      LockedItemStays(db, w, held, other.held, i);
      if other.phase == Writing && MoveLocks(db, other, i, c) {
        LockedCategoryStays(db, w, held, other.held, c);
        LockedExclusionsStay(db, w, held, other, i);
      }
    }
  }

  lemma LockedExclusionsStay(db: Tables, w: Writes, held: set<Lock>, other: Tx, i: Uuid)
    requires WritesLocked(held, w) && RemovalsLocked(db, held, w) && held !! other.held
    requires i in db.items && ItemLock(i) in other.held && CategoryLock(db.items[i].category) in other.held
    ensures GroupsOf(Install(db, w).excluded, i) == GroupsOf(db.excluded, i)
  {
    assert ItemLock(i) !in held && CategoryLock(db.items[i].category) !in held;
    assert forall g :: !HoldsTwo(db, held, Link(i, g));
    assert forall g :: Link(i, g) in Install(db, w).excluded <==> Link(i, g) in db.excluded;
  }

  // ---------- runs ----------

  lemma StepKeepsExact(s: System, id: nat)
    requires ExactIn(s) && id in s.txs
    ensures id in StepTx(s, id).txs ==> ExactOk(s.db, StepTx(s, id).txs[id])
  {
    var tx := s.txs[id];
    if tx.todo != [] {
      if tx.todo[0].Acquire? { AcquireKeepsExact(s.db, tx); } else { WriteKeepsExact(s.db, tx); }
    } else if tx.phase != Writing && Next(s.db, tx).Some? {
      NextKeepsExact(s.db, tx);
    }
  }

  lemma CommitKeepsAllExact(s: System, id: nat)
    requires ExactIn(s) && id in s.txs && s.txs[id].phase == Writing && s.txs[id].todo == []
    ensures forall other :: other in s.txs - {id} ==> ExactOk(Install(s.db, s.txs[id].writes), s.txs[other])
  {
    var tx := s.txs[id];
    assert TxOk(s.db, tx) && ReadsHold(s.db, tx) && ExactOk(s.db, tx);
    HoldsWhatItChanges(s.db, tx);
    forall other | other in s.txs - {id} ensures ExactOk(Install(s.db, tx.writes), s.txs[other]) {
      CommitKeepsExact(s.db, tx.writes, tx.held, s.txs[other]);
    }
  }

  ghost predicate AllExact(s: System) {
    forall id :: id in s.txs ==> ExactOk(s.db, s.txs[id])
  }

  lemma StepKeepsAllExact(s: System, id: nat)
    requires ExactIn(s) && id in s.txs
    ensures AllExact(StepTx(s, id))
  {
    StepKeepsExact(s, id);
    StepMovesOne(s, id);
  }

  lemma CommitKeepsExactIn(s: System, id: nat)
    requires ExactIn(s)
    ensures AllExact(Do(s, Commit(id)))
  {
    if id in s.txs && s.txs[id].phase == Writing && s.txs[id].todo == [] { CommitKeepsAllExact(s, id); }
  }

  lemma BeginsExact(s: System, id: nat, job: Job, request: int)
    requires AllExact(s)
    ensures AllExact(Do(s, Begin(id, job, request)))
  {
  }

  lemma DoKeepsAllExact(s: System, e: Event)
    requires ExactIn(s)
    ensures AllExact(Do(s, e))
  {
    match e {
      case Begin(id, job, request) => BeginsExact(s, id, job, request);
      case Step(id) => if id in s.txs { StepKeepsAllExact(s, id); }
      case Commit(id) => CommitKeepsExactIn(s, id);
      case Abort(id) =>
    }
  }

  lemma DoKeepsExact(s: System, e: Event)
    requires ExactIn(s)
    ensures ExactIn(Do(s, e))
  {
    DoKeepsReads(s, e);
    DoKeepsOwnerReads(s, e);
    DoKeepsAllExact(s, e);
  }
}
