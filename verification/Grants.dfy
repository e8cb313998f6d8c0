/**
 What a command was let through by still holds when it commits. Each row it
 checked is locked until then: rows are never deleted, a row is retired only by
 whoever holds it, and a link comes and goes only under its group's lock.
 */
module Grants {
  import opened Uuids
  import opened Links
  import opened Locks
  import opened Transactions
  import opened LinkSafety
  import opened LinkRuns
  import opened ItemRaces
  import opened OwnerRaces
  import opened ExactWrites

  ghost predicate ItemGranted(db: Tables, tx: Tx, i: Uuid, d: set<Uuid>, e: set<Uuid>) {
    && d !! e
    && (tx.phase != Starting && tx.phase != RowLocked ==> ActiveItem(db, i))
    && (tx.phase == Writing ==>
        GroupSetError(db, tx.first + tx.second, d + e).None? && e <= GroupsOf(db.provided, db.items[i].category))
  }

  ghost predicate CategoryGranted(db: Tables, tx: Tx, c: Uuid, gs: set<Uuid>) {
    && (tx.phase == Checking || tx.phase == Writing ==> ActiveCategory(db, c))
    && (tx.phase == Writing ==>
          GroupSetError(db, tx.first, gs).None? && forall g :: g in tx.first + gs ==> GroupLock(g) in tx.held)
  }

  ghost predicate OwnersHeld(tx: Tx, its: set<Uuid>, cs: set<Uuid>) {
    && (forall i :: i in tx.first + its ==> ItemLock(i) in tx.held)
    && (forall c :: c in tx.second + cs ==> CategoryLock(c) in tx.held)
  }

  ghost predicate AssignmentsGranted(db: Tables, tx: Tx, g: Uuid, its: set<Uuid>, cs: set<Uuid>) {
    && (tx.phase != Starting && tx.phase != RowLocked ==> ActiveGroup(db, g))
    && (tx.phase == Writing ==> OwnersHeld(tx, its, cs) && OwnersRefusal(db, g, tx.first, tx.second, its, cs).None?)
  }

  ghost predicate MoveGranted(db: Tables, tx: Tx, i: Uuid, c: Uuid) {
    && (tx.phase == Checking || tx.phase == Writing ==> ActiveItem(db, i))
    && (tx.phase == Writing && db.items[i].category != c ==>
        db.items[i].category in db.categories && ActiveCategory(db, c))
  }

  /** A row command's own row, once it may be written. */
  ghost predicate RowGranted(db: Tables, tx: Tx, l: Lock, active: bool) {
    tx.phase == Writing ==> l in tx.held && active
  }

  ghost predicate Granted(db: Tables, tx: Tx) {
    match tx.job
    case AttachItem(i, g) =>
      tx.phase == Writing ==>
        ItemLock(i) in tx.held && GroupLock(g) in tx.held && ActiveItem(db, i) && ActiveGroup(db, g)
        && (tx.todo == [] ==> Link(i, g) !in db.direct)
    case AttachCategory(c, g) =>
      tx.phase == Writing ==>
        CategoryLock(c) in tx.held && GroupLock(g) in tx.held && ActiveCategory(db, c) && ActiveGroup(db, g)
        && (tx.todo == [] ==> Link(c, g) !in db.provided)
    case Exclude(i, g) =>
      && (tx.phase == Checking || tx.phase == Writing ==> ActiveItem(db, i))
      && (tx.phase == Writing ==>
            ItemLock(i) in tx.held && GroupLock(g) in tx.held && ActiveGroup(db, g) && Inherited(db, i, g)
            && (tx.todo == [] ==> Link(i, g) !in db.excluded))
    case ReplaceItem(i, d, e) => ItemGranted(db, tx, i, d, e)
    case ReplaceCategory(c, gs) => CategoryGranted(db, tx, c, gs)
    case ReplaceAssignments(g, its, cs) => AssignmentsGranted(db, tx, g, its, cs)
    case MoveItem(i, c) => MoveGranted(db, tx, i, c)
    case CreateItem(_, c) => RowGranted(db, tx, CategoryLock(c), ActiveCategory(db, c))
    case RetireCategory(c) => RowGranted(db, tx, CategoryLock(c), ActiveCategory(db, c))
    case RetireGroup(g) => RowGranted(db, tx, GroupLock(g), ActiveGroup(db, g))
    case RetireItem(i) => RowGranted(db, tx, ItemLock(i), ActiveItem(db, i))
    case _ => true
  }

  ghost predicate GrantedIn(s: System) {
    ExactIn(s) && forall id :: id in s.txs ==> Granted(s.db, s.txs[id])
  }

  // ---------- statements ----------

  lemma AcquireKeepsGranted(db: Tables, tx: Tx)
    requires TxOk(db, tx) && Granted(db, tx) && tx.todo != [] && tx.todo[0].Acquire?
    ensures Granted(db, tx.(todo := tx.todo[1..], held := tx.held + {tx.todo[0].lock}))
  {
    assert tx.phase == Writing ==> OpLocked(tx.held, tx.todo[0]);
  }

  lemma WriteKeepsGranted(db: Tables, tx: Tx)
    requires tx.phase == Writing && ExactOk(db, tx) && Granted(db, tx)
    requires tx.todo != [] && !Duplicate(db, tx.todo[0])
    ensures Granted(db, tx.(todo := tx.todo[1..], writes := Write(db, tx.writes, tx.todo[0])))
  {
  }

  lemma NextKeepsGranted(db: Tables, tx: Tx)
    requires tx.phase != Writing && ReadingOk(db, tx) && Granted(db, tx) && ExactOk(db, tx) && tx.todo == []
    requires Next(db, tx).Some?
    ensures Granted(db, Next(db, tx).value)
  {
    NextKeepsRest(db, tx);
    assert forall l :: Covered(tx, l) ==> l in tx.held;
    if tx.phase == Checking {
      DecideGrants(db, tx);
    } else if tx.phase != Starting {
      ReadGrants(db, tx);
    }
  }

  lemma ReadGrants(db: Tables, tx: Tx)
    requires tx.phase != Starting && tx.phase != Checking && tx.phase != Writing
    requires ReadingOk(db, tx) && Granted(db, tx) && tx.todo == [] && Read(db, tx).Some?
    ensures Granted(db, Read(db, tx).value)
  {
  }

  lemma DecideGrants(db: Tables, tx: Tx)
    requires tx.phase == Checking && ReadingOk(db, tx) && Granted(db, tx) && ExactOk(db, tx) && Decide(db, tx).Some?
    requires forall l :: Covered(tx, l) ==> l in tx.held
    ensures Granted(db, tx.(phase := Writing, todo := Decide(db, tx).value))
  {
    match tx.job {
      case ReplaceCategory(c, gs) =>
        assert forall g :: g in tx.first + gs ==> Covered(tx, GroupLock(g));
      case ReplaceAssignments(g, its, cs) =>
        assert forall i :: i in tx.first + its ==> Covered(tx, ItemLock(i));
        assert forall c :: c in tx.second + cs ==> Covered(tx, CategoryLock(c));
      case _ =>
    }
  }

  // ---------- commits of others ----------

  /** A locked row that exists stays as it is, and no row is ever deleted. */
  lemma LockedRowsStay(db: Tables, w: Writes, held: set<Lock>, others: set<Lock>)
    requires WritesLocked(held, w) && held !! others
    ensures var db' := Install(db, w);
      && db.items.Keys <= db'.items.Keys && db.categories.Keys <= db'.categories.Keys
      && db.groups.Keys <= db'.groups.Keys
      && (forall i :: i in db.items && ItemLock(i) in others ==> db'.items[i] == db.items[i])
      && (forall c :: c in db.categories && CategoryLock(c) in others ==> db'.categories[c] == db.categories[c])
      && (forall g :: g in db.groups && GroupLock(g) in others ==> db'.groups[g] == db.groups[g])
  {
    var db' := Install(db, w);
    forall i | i in db.items && ItemLock(i) in others ensures db'.items[i] == db.items[i] {
      assert ItemLock(i) !in held;
    }
    forall c | c in db.categories && CategoryLock(c) in others ensures db'.categories[c] == db.categories[c] {
      assert CategoryLock(c) !in held;
    }
    forall g | g in db.groups && GroupLock(g) in others ensures db'.groups[g] == db.groups[g] {
      assert GroupLock(g) !in held;
    }
  }

  lemma GroupCheckStays(db: Tables, w: Writes, held: set<Lock>, others: set<Lock>, current: set<Uuid>,
                        desired: set<Uuid>)
    requires WritesLocked(held, w) && held !! others && GroupSetError(db, current, desired).None?
    requires forall g :: g in current + desired ==> GroupLock(g) in others
    ensures GroupSetError(Install(db, w), current, desired).None?
  {
    LockedRowsStay(db, w, held, others);
    forall g | g in desired - current ensures !RetiredGroup(Install(db, w), g) {
      assert g in current + desired && !RetiredGroup(db, g);
    }
  }

  lemma OwnersCheckStays(db: Tables, w: Writes, held: set<Lock>, tx: Tx, g: Uuid, its: set<Uuid>, cs: set<Uuid>)
    requires WritesLocked(held, w) && held !! tx.held && OwnersHeld(tx, its, cs) && GroupLock(g) in tx.held
    requires OwnersRefusal(db, g, tx.first, tx.second, its, cs).None?
    ensures OwnersRefusal(Install(db, w), g, tx.first, tx.second, its, cs).None?
  {
    var db' := Install(db, w);
    LockedRowsStay(db, w, held, tx.held);
    LockedGroupStays(db, w, held, tx.held, g);
    forall i | i in its - tx.first ensures i !in RetiredItems(db') {
      assert i in tx.first + its;
      assert i !in (its - tx.first) * RetiredItems(db);
    }
    forall c | c in cs - tx.second ensures c !in RetiredCategories(db') {
      assert c in tx.second + cs;
      assert c !in (cs - tx.second) * RetiredCategories(db);
    }
  }

  lemma ProvidedStay(db: Tables, w: Writes, held: set<Lock>, others: set<Lock>, c: Uuid, e: set<Uuid>)
    requires WritesLocked(held, w) && held !! others && e <= GroupsOf(db.provided, c)
    requires forall g :: g in e ==> GroupLock(g) in others
    ensures e <= GroupsOf(Install(db, w).provided, c)
  {
    forall g | g in e ensures g in GroupsOf(Install(db, w).provided, c) {
      GroupsOfMember(db.provided, c, g);
      GroupsOfMember(Install(db, w).provided, c, g);
      assert GroupLock(g) !in held;
    }
  }

  lemma LinkStays(db: Tables, w: Writes, held: set<Lock>, others: set<Lock>, l: Link)
    requires WritesLocked(held, w) && held !! others && GroupLock(l.group) in others
    ensures l in Install(db, w).provided <==> l in db.provided
    ensures l in Install(db, w).direct <==> l in db.direct
    ensures l in Install(db, w).excluded ==> l in db.excluded
  {
    assert GroupLock(l.group) !in held;
  }

  lemma CommitKeepsGranted(db: Tables, w: Writes, held: set<Lock>, tx: Tx)
    requires WritesLocked(held, w) && held !! tx.held
    requires TxOk(db, tx) && OwnerReads(db, tx) && ExactOk(db, tx) && Granted(db, tx)
    ensures Granted(Install(db, w), tx)
  {
    if tx.job.ReplaceItem? {
      CommitKeepsItemGranted(db, w, held, tx, tx.job.item, tx.job.direct, tx.job.excluded);
    } else if tx.job.ReplaceCategory? || tx.job.ReplaceAssignments? {
      CommitKeepsColumnGranted(db, w, held, tx);
    } else {
      CommitKeepsOneRowGranted(db, w, held, tx);
    }
  }

  lemma CommitKeepsColumnGranted(db: Tables, w: Writes, held: set<Lock>, tx: Tx)
    requires WritesLocked(held, w) && held !! tx.held
    requires TxOk(db, tx) && OwnerReads(db, tx) && ExactOk(db, tx) && Granted(db, tx)
    requires tx.job.ReplaceCategory? || tx.job.ReplaceAssignments?
    ensures Granted(Install(db, w), tx)
  {
    LockedRowsStay(db, w, held, tx.held);
    if tx.phase == Writing {
      match tx.job {
        case ReplaceCategory(c, gs) => GroupCheckStays(db, w, held, tx.held, tx.first, gs);
        case ReplaceAssignments(g, its, cs) => OwnersCheckStays(db, w, held, tx, g, its, cs);
      }
    }
  }

  lemma CommitKeepsOneRowGranted(db: Tables, w: Writes, held: set<Lock>, tx: Tx)
    requires WritesLocked(held, w) && held !! tx.held
    requires TxOk(db, tx) && ExactOk(db, tx) && Granted(db, tx)
    requires !tx.job.ReplaceItem? && !tx.job.ReplaceCategory? && !tx.job.ReplaceAssignments?
    ensures Granted(Install(db, w), tx)
  {
    LockedRowsStay(db, w, held, tx.held);
    if tx.phase == Writing {
      match tx.job {
        case AttachItem(i, g) => LinkStays(db, w, held, tx.held, Link(i, g));
        case AttachCategory(c, g) => LinkStays(db, w, held, tx.held, Link(c, g));
        case Exclude(i, g) =>
          LinkStays(db, w, held, tx.held, Link(i, g));
          InheritedStays(db, w, held, tx.held, i, g);
        case _ =>
      }
    }
  }

  lemma CommitKeepsItemGranted(db: Tables, w: Writes, held: set<Lock>, tx: Tx, i: Uuid, d: set<Uuid>, e: set<Uuid>)
    requires WritesLocked(held, w) && held !! tx.held && tx.job == ReplaceItem(i, d, e)
    requires TxOk(db, tx) && ExactOk(db, tx) && ItemGranted(db, tx, i, d, e)
    ensures ItemGranted(Install(db, w), tx, i, d, e)
  {
    LockedRowsStay(db, w, held, tx.held);
    if tx.phase == Writing {
      GroupCheckStays(db, w, held, tx.held, tx.first + tx.second, d + e);
      ProvidedStay(db, w, held, tx.held, db.items[i].category, e);
    }
  }

  // ---------- runs ----------

  lemma StepKeepsGranted(s: System, id: nat)
    requires GrantedIn(s) && id in s.txs
    ensures id in StepTx(s, id).txs ==> Granted(s.db, StepTx(s, id).txs[id])
  {
    var tx := s.txs[id];
    assert TxOk(s.db, tx) && ExactOk(s.db, tx);
    if tx.todo != [] {
      if tx.todo[0].Acquire? { AcquireKeepsGranted(s.db, tx); }
      else if !Duplicate(s.db, tx.todo[0]) { WriteKeepsGranted(s.db, tx); }
    } else if tx.phase != Writing && Next(s.db, tx).Some? {
      NextKeepsGranted(s.db, tx);
    }
  }

  lemma CommitKeepsAllGranted(s: System, id: nat)
    requires GrantedIn(s) && id in s.txs && s.txs[id].phase == Writing && s.txs[id].todo == []
    ensures forall other :: other in s.txs - {id} ==> Granted(Install(s.db, s.txs[id].writes), s.txs[other])
  {
    var tx := s.txs[id];
    assert TxOk(s.db, tx);
    forall other | other in s.txs - {id} ensures Granted(Install(s.db, tx.writes), s.txs[other]) {
      CommitKeepsGranted(s.db, tx.writes, tx.held, s.txs[other]);
    }
  }

  ghost predicate AllGranted(s: System) {
    forall id :: id in s.txs ==> Granted(s.db, s.txs[id])
  }

  lemma StepKeepsAllGranted(s: System, id: nat)
    requires GrantedIn(s) && id in s.txs
    ensures AllGranted(StepTx(s, id))
  {
    StepKeepsGranted(s, id);
    StepMovesOne(s, id);
  }

  lemma CommitKeepsGrantedIn(s: System, id: nat)
    requires GrantedIn(s)
    ensures AllGranted(Do(s, Commit(id)))
  {
    if id in s.txs && s.txs[id].phase == Writing && s.txs[id].todo == [] { CommitKeepsAllGranted(s, id); }
  }

  lemma BeginsGranted(s: System, id: nat, job: Job, request: int)
    requires AllGranted(s)
    ensures AllGranted(Do(s, Begin(id, job, request)))
  {
  }

  lemma DoKeepsAllGranted(s: System, e: Event)
    requires GrantedIn(s)
    ensures AllGranted(Do(s, e))
  {
    match e {
      case Begin(id, job, request) => BeginsGranted(s, id, job, request);
      case Step(id) => if id in s.txs { StepKeepsAllGranted(s, id); }
      case Commit(id) => CommitKeepsGrantedIn(s, id);
      case Abort(id) =>
    }
  }

  lemma DoKeepsGranted(s: System, e: Event)
    requires GrantedIn(s)
    ensures GrantedIn(Do(s, e))
  {
    DoKeepsExact(s, e);
    DoKeepsAllGranted(s, e);
  }

  lemma {:induction false} PlayKeepsGranted(s: System, events: seq<Event>)
    requires GrantedIn(s)
    ensures GrantedIn(Play(s, events))
    decreases |events|
  {
    if events != [] {
      DoKeepsGranted(s, events[0]);
      PlayKeepsGranted(Do(s, events[0]), events[1..]);
    }
  }
}
