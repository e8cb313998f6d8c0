/**
 The exclusion invariant under any interleaving. Adding an exclusion and
 removing a category's link both hold the group's row lock; moving an item
 holds the item's and the target category's. So what a transaction checked
 still holds when it commits.
 */
module LinkSafety {
  import opened Uuids
  import opened Links
  import opened Locks
  import opened Transactions

  /** The transaction holds the lock, or is about to take it before its next read. */
  ghost predicate Covered(tx: Tx, l: Lock) {
    l in tx.held || Acquire(l) in tx.todo
  }

  /** Every uncommitted write is to a row whose guards the transaction holds. */
  ghost predicate WritesLocked(held: set<Lock>, w: Writes) {
    && (forall l :: l in w.addProvided + w.removeProvided ==>
        CategoryLock(l.owner) in held && GroupLock(l.group) in held)
    && (forall l :: l in w.addDirect + w.removeDirect ==> ItemLock(l.owner) in held && GroupLock(l.group) in held)
    && (forall l :: l in w.addExcluded ==> ItemLock(l.owner) in held && GroupLock(l.group) in held)
    && (forall i :: i in w.moved ==> ItemLock(i) in held && CategoryLock(w.moved[i]) in held)
    && RowLocked(held, w.change)
  }

  /** A row is retired by whoever holds it. */
  ghost predicate RowLocked(held: set<Lock>, change: RowWrite) {
    match change
    case EndCategory(c) => CategoryLock(c) in held
    case EndGroup(g) => GroupLock(g) in held
    case EndItem(i) => ItemLock(i) in held
    case NewItem(_, c) => CategoryLock(c) in held
    case _ => true
  }

  /** A write statement's guards are held before it runs. */
  ghost predicate OpLocked(held: set<Lock>, op: Op) {
    match op
    case Acquire(_) => false
    case RemoveProvided(c, g) => CategoryLock(c) in held && GroupLock(g) in held
    case AddProvided(c, g) => CategoryLock(c) in held && GroupLock(g) in held
    case DropExclusions(c, g) => CategoryLock(c) in held && GroupLock(g) in held
    case RemoveDirect(i, g) => ItemLock(i) in held && GroupLock(g) in held
    case AddDirect(i, g) => ItemLock(i) in held && GroupLock(g) in held
    case RemoveExclusion(_, _) => true
    case AddExclusion(i, g) => ItemLock(i) in held && GroupLock(g) in held
    case Recategorise(i, c) => ItemLock(i) in held && CategoryLock(c) in held
    case DropOrphans(i, c) => ItemLock(i) in held && CategoryLock(c) in held
    case WriteRow(change) => RowLocked(held, change)
  }

  /** An exclusion about to be added is of a group the item's category provides. */
  ghost predicate Inherited(db: Tables, item: Uuid, group: Uuid) {
    item in db.items && Link(db.items[item].category, group) in db.provided
  }

  /** Every committed exclusion of `group` in `category` is being deleted. */
  ghost predicate Dropped(db: Tables, w: Writes, category: Uuid, group: Uuid) {
    forall x :: x in db.excluded && x.group == group && x.owner in db.items && db.items[x.owner].category == category
      ==> x in w.removeExcluded
  }

  /** Every committed exclusion of `item` that `category` does not provide is being deleted. */
  ghost predicate OrphansDropped(db: Tables, w: Writes, item: Uuid, category: Uuid) {
    forall x :: x in db.excluded && x.owner == item ==> Link(category, x.group) in db.provided || x in w.removeExcluded
  }

  // ---------- what a transaction knows ----------

  ghost predicate ReadingOk(db: Tables, tx: Tx) {
    && tx.writes == NO_WRITES
    && (forall op :: op in tx.todo ==> op.Acquire?)
    && match (tx.job, tx.phase)
       case (_, Starting) => true
       case (AttachItem(i, g), Checking) => Covered(tx, ItemLock(i)) && Covered(tx, GroupLock(g))
       case (AttachCategory(c, g), Checking) => Covered(tx, CategoryLock(c)) && Covered(tx, GroupLock(g))
       case (Exclude(i, _), RowLocked) => Covered(tx, ItemLock(i))
       case (Exclude(i, g), Checking) =>
         ItemLock(i) in tx.held && Covered(tx, GroupLock(g)) && i in db.items && tx.source == db.items[i].category
       case (ReplaceItem(i, _, _), RowLocked) => Covered(tx, ItemLock(i))
       case (ReplaceItem(i, _, _), SourceRead) =>
         ItemLock(i) in tx.held && i in db.items && tx.source == db.items[i].category
       case (ReplaceItem(i, _, _), FirstRead) =>
         ItemLock(i) in tx.held && i in db.items && tx.source == db.items[i].category
       case (ReplaceItem(i, d, e), Checking) =>
         && ItemLock(i) in tx.held && i in db.items && tx.source == db.items[i].category
         && forall g :: g in tx.first + tx.second + d + e ==> Covered(tx, GroupLock(g))
       case (ReplaceCategory(c, _), RowLocked) => Covered(tx, CategoryLock(c))
       case (ReplaceCategory(c, gs), Checking) =>
         CategoryLock(c) in tx.held && forall g :: g in tx.first + gs ==> Covered(tx, GroupLock(g))
       case (ReplaceAssignments(g, _, _), RowLocked) => Covered(tx, GroupLock(g))
       case (ReplaceAssignments(g, _, _), FirstRead) => GroupLock(g) in tx.held
       case (ReplaceAssignments(g, its, cs), Checking) =>
         && GroupLock(g) in tx.held
         && (forall i :: i in tx.first + its ==> Covered(tx, ItemLock(i)))
         && (forall c :: c in tx.second + cs ==> Covered(tx, CategoryLock(c)))
       case (MoveItem(i, _), RowLocked) => Covered(tx, ItemLock(i))
       case (MoveItem(i, c), Checking) => ItemLock(i) in tx.held && i in db.items && Covered(tx, CategoryLock(c))
       case (CreateCategory(_), Checking) => true
       case (CreateGroup(_), Checking) => true
       case (CreateItem(_, c), Checking) => Covered(tx, CategoryLock(c))
       case (RetireCategory(c), Checking) => Covered(tx, CategoryLock(c))
       case (RetireGroup(g), Checking) => Covered(tx, GroupLock(g))
       case (RetireItem(i), Checking) => Covered(tx, ItemLock(i))
       case (SetAvailability(_, _), Checking) => true
       case (OneRow(_), Checking) => true
       case (_, _) => false
  }

  /** Writing a direct link or deleting a row; nothing the invariant needs protecting from. */
  ghost predicate PlainOp(op: Op) {
    op.RemoveDirect? || op.AddDirect? || op.RemoveExclusion?
  }

  ghost predicate ExcludingOk(db: Tables, tx: Tx) {
    && (forall op :: op in tx.todo ==> PlainOp(op) || (op.AddExclusion? && Inherited(db, op.item, op.group)))
    && tx.writes.addProvided == tx.writes.removeProvided == {} && tx.writes.moved == map[] && tx.writes.change == NoRow
    && forall l :: l in tx.writes.addExcluded ==> Inherited(db, l.owner, l.group)
  }

  ghost predicate ProvidingOk(db: Tables, tx: Tx) {
    && (forall op :: op in tx.todo ==> PlainOp(op) || op.AddProvided? || op.RemoveProvided? || op.DropExclusions?)
    && tx.writes.addExcluded == {} && tx.writes.moved == map[] && tx.writes.change == NoRow
    && (forall k :: 0 <= k < |tx.todo| && tx.todo[k].RemoveProvided? ==>
         k + 1 < |tx.todo| && tx.todo[k + 1] == DropExclusions(tx.todo[k].category, tx.todo[k].group))
    && forall l :: l in tx.writes.removeProvided ==>
         (tx.todo != [] && tx.todo[0] == DropExclusions(l.owner, l.group)) || Dropped(db, tx.writes, l.owner, l.group)
  }

  ghost predicate MovingOk(db: Tables, tx: Tx, item: Uuid, category: Uuid) {
    && item in db.items
    && tx.writes.addProvided == tx.writes.removeProvided == {} && tx.writes.addExcluded == {}
    && tx.writes.change == NoRow
    && (tx.todo == [] || tx.todo == [DropOrphans(item, category)]
        || tx.todo == [Recategorise(item, category), DropOrphans(item, category)])
    && (tx.todo == [Recategorise(item, category), DropOrphans(item, category)] ==> tx.writes.moved == map[])
    && (tx.todo == [DropOrphans(item, category)] ==> tx.writes.moved == map[item := category])
    && (tx.todo == [] ==>
         || tx.writes.moved == map[]
         || (tx.writes.moved == map[item := category] && OrphansDropped(db, tx.writes, item, category)
             && ItemLock(item) in tx.held && CategoryLock(category) in tx.held))
  }

  /** A creation or retirement writes its row and nothing else. */
  ghost predicate RowOk(tx: Tx, change: RowWrite) {
    (tx.todo == [WriteRow(change)] && tx.writes == NO_WRITES)
      || (tx.todo == [] && tx.writes == NO_WRITES.(change := change))
  }

  ghost predicate WritingOk(db: Tables, tx: Tx) {
    && WritesLocked(tx.held, tx.writes)
    && (forall op :: op in tx.todo ==> OpLocked(tx.held, op))
    && match tx.job
       case Exclude(_, _) => ExcludingOk(db, tx)
       case ReplaceItem(_, _, _) => ExcludingOk(db, tx)
       case AttachCategory(_, _) => ProvidingOk(db, tx)
       case ReplaceCategory(_, _) => ProvidingOk(db, tx)
       case ReplaceAssignments(_, _, _) => ProvidingOk(db, tx)
       case MoveItem(i, c) => MovingOk(db, tx, i, c)
       case AttachItem(_, _) => ExcludingOk(db, tx)
       case CreateCategory(c) => RowOk(tx, NewCategory(c))
       case CreateGroup(g) => RowOk(tx, NewGroup(g))
       case CreateItem(i, c) => RowOk(tx, NewItem(i, c))
       case RetireCategory(c) => RowOk(tx, EndCategory(c))
       case RetireGroup(g) => RowOk(tx, EndGroup(g))
       case RetireItem(i) => RowOk(tx, EndItem(i))
       case SetAvailability(_, _) => tx.todo == [] && tx.writes == NO_WRITES
       case OneRow(_) => tx.todo == [] && tx.writes == NO_WRITES
  }

  ghost predicate TxOk(db: Tables, tx: Tx) {
    if tx.phase == Writing then WritingOk(db, tx) else ReadingOk(db, tx)
  }

  /** No two transactions hold one lock. */
  ghost predicate Exclusive(txs: map<nat, Tx>) {
    forall a, b :: a in txs && b in txs && a != b ==> txs[a].held !! txs[b].held
  }

  ghost predicate Safe(s: System) {
    ExclusionsProvided(s.db) && Exclusive(s.txs) && forall id :: id in s.txs ==> TxOk(s.db, s.txs[id])
  }

  // ---------- committing ----------

  /** What a finished transaction installs keeps every exclusion provided. */
  lemma CommitKeepsExclusions(db: Tables, tx: Tx)
    requires ExclusionsProvided(db) && tx.phase == Writing && tx.todo == [] && WritingOk(db, tx)
    ensures ExclusionsProvided(Install(db, tx.writes))
  {
    var db' := Install(db, tx.writes);
    forall x | x in db'.excluded
      ensures x.owner in db'.items && Link(db'.items[x.owner].category, x.group) in db'.provided {
      var w := tx.writes;
      if x in w.addExcluded {
        assert Inherited(db, x.owner, x.group);
      } else {
        assert x in db.excluded && x !in w.removeExcluded;
        var c := db.items[x.owner].category;
        assert Link(c, x.group) in db.provided;
        assert Link(c, x.group) in w.removeProvided ==> Dropped(db, w, c, x.group);
      }
    }
  }

  /** A commit by one transaction leaves what another one knows intact, because their locks are disjoint. */
  lemma CommitKeepsOther(db: Tables, w: Writes, held: set<Lock>, other: Tx)
    requires WritesLocked(held, w) && held !! other.held && TxOk(db, other)
    ensures TxOk(Install(db, w), other)
  {
    if other.phase == Writing {
      CommitKeepsWriting(db, w, held, other);
    } else {
      CommitKeepsReading(db, w, held, other);
    }
  }

  /** An item whose lock another transaction holds is not moved. */
  lemma LockedItemStays(db: Tables, w: Writes, held: set<Lock>, others: set<Lock>, item: Uuid)
    requires WritesLocked(held, w) && held !! others && ItemLock(item) in others && item in db.items
    ensures item in Install(db, w).items && Install(db, w).items[item].category == db.items[item].category
  {
    assert ItemLock(item) !in held;
  }

  lemma CommitKeepsReading(db: Tables, w: Writes, held: set<Lock>, other: Tx)
    requires WritesLocked(held, w) && held !! other.held && ReadingOk(db, other)
    ensures ReadingOk(Install(db, w), other)
  {
    match (other.job, other.phase) {
      case (Exclude(i, _), Checking) => LockedItemStays(db, w, held, other.held, i);
      case (ReplaceItem(i, _, _), SourceRead) => LockedItemStays(db, w, held, other.held, i);
      case (ReplaceItem(i, _, _), FirstRead) => LockedItemStays(db, w, held, other.held, i);
      case (ReplaceItem(i, _, _), Checking) => LockedItemStays(db, w, held, other.held, i);
      case (_, _) =>
    }
  }

  lemma InheritedStays(db: Tables, w: Writes, held: set<Lock>, others: set<Lock>, item: Uuid, group: Uuid)
    requires WritesLocked(held, w) && held !! others && ItemLock(item) in others && GroupLock(group) in others
    requires Inherited(db, item, group)
    ensures Inherited(Install(db, w), item, group)
  {
    LockedItemStays(db, w, held, others, item);
    var l := Link(db.items[item].category, group);
    assert GroupLock(l.group) !in held;
  }

  lemma DroppedStays(db: Tables, w: Writes, held: set<Lock>, others: set<Lock>, mine: Writes, category: Uuid,
                     group: Uuid)
    requires WritesLocked(held, w) && held !! others && CategoryLock(category) in others && GroupLock(group) in others
    requires Dropped(db, mine, category, group)
    ensures Dropped(Install(db, w), mine, category, group)
  {
    var db' := Install(db, w);
    forall x | x in db'.excluded && x.group == group && x.owner in db'.items && db'.items[x.owner].category == category
      ensures x in mine.removeExcluded
    {
      assert GroupLock(x.group) !in held && CategoryLock(category) !in held;
    }
  }

  lemma OrphansDroppedStays(db: Tables, w: Writes, held: set<Lock>, others: set<Lock>, mine: Writes, item: Uuid,
                            category: Uuid)
    requires WritesLocked(held, w) && held !! others && ItemLock(item) in others && CategoryLock(category) in others
    requires OrphansDropped(db, mine, item, category)
    ensures OrphansDropped(Install(db, w), mine, item, category)
  {
    var db' := Install(db, w);
    forall x | x in db'.excluded && x.owner == item
      ensures Link(category, x.group) in db'.provided || x in mine.removeExcluded
    {
      var l := Link(category, x.group);
      assert ItemLock(x.owner) !in held && CategoryLock(l.owner) !in held;
    }
  }

  lemma CommitKeepsWriting(db: Tables, w: Writes, held: set<Lock>, other: Tx)
    requires WritesLocked(held, w) && held !! other.held && WritingOk(db, other)
    ensures WritingOk(Install(db, w), other)
  {
    match other.job {
      case Exclude(_, _) => CommitKeepsExcluding(db, w, held, other);
      case ReplaceItem(_, _, _) => CommitKeepsExcluding(db, w, held, other);
      case AttachItem(_, _) => CommitKeepsExcluding(db, w, held, other);
      case AttachCategory(_, _) => CommitKeepsProviding(db, w, held, other);
      case ReplaceCategory(_, _) => CommitKeepsProviding(db, w, held, other);
      case ReplaceAssignments(_, _, _) => CommitKeepsProviding(db, w, held, other);
      case MoveItem(i, c) =>
        if other.todo == [] && other.writes.moved == map[i := c] && OrphansDropped(db, other.writes, i, c) {
          OrphansDroppedStays(db, w, held, other.held, other.writes, i, c);
        }
      case _ =>
    }
  }

  lemma CommitKeepsExcluding(db: Tables, w: Writes, held: set<Lock>, other: Tx)
    requires WritesLocked(held, w) && held !! other.held
    requires WritesLocked(other.held, other.writes) && (forall op :: op in other.todo ==> OpLocked(other.held, op))
    requires ExcludingOk(db, other)
    ensures ExcludingOk(Install(db, w), other)
  {
    var db' := Install(db, w);
    forall op | op in other.todo ensures PlainOp(op) || (op.AddExclusion? && Inherited(db', op.item, op.group)) {
      assert OpLocked(other.held, op);
      if op.AddExclusion? { InheritedStays(db, w, held, other.held, op.item, op.group); }
    }
    forall l | l in other.writes.addExcluded ensures Inherited(db', l.owner, l.group) {
      InheritedStays(db, w, held, other.held, l.owner, l.group);
    }
  }

  lemma CommitKeepsProviding(db: Tables, w: Writes, held: set<Lock>, other: Tx)
    requires WritesLocked(held, w) && held !! other.held
    requires WritesLocked(other.held, other.writes)
    requires ProvidingOk(db, other)
    ensures ProvidingOk(Install(db, w), other)
  {
    forall l | l in other.writes.removeProvided && Dropped(db, other.writes, l.owner, l.group)
      ensures Dropped(Install(db, w), other.writes, l.owner, l.group)
    {
      DroppedStays(db, w, held, other.held, other.writes, l.owner, l.group);
    }
  }
}
