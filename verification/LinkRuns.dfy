/**
 Every statement of every transaction keeps the facts of `LinkSafety`, so no
 schedule of commands leaves an exclusion of a group the category does not provide.
 */
module LinkRuns {
  import opened Prelude
  import opened Uuids
  import opened IdSets
  import opened Links
  import opened Locks
  import opened Transactions
  import opened LinkSafety

  // ---------- the statement lists ----------

  lemma AcquiresFacts(ls: seq<Lock>)
    ensures forall op :: op in Acquires(ls) ==> op.Acquire?
    ensures forall l :: l in ls ==> Acquire(l) in Acquires(ls)
  {
    forall l | l in ls ensures Acquire(l) in Acquires(ls) {
      var k :| 0 <= k < |ls| && ls[k] == l;
      assert Acquires(ls)[k] == Acquire(l);
    }
  }

  lemma GroupLocksFacts(gs: set<Uuid>)
    ensures forall g :: g in gs ==> GroupLock(g) in GroupLocks(gs)
  {
    ListingFacts(gs);
    forall g | g in gs ensures GroupLock(g) in GroupLocks(gs) {
      var k :| 0 <= k < |Listing(gs)| && Listing(gs)[k] == g;
      assert GroupLocks(gs)[k] == GroupLock(g);
    }
  }

  lemma ItemLocksFacts(s: set<Uuid>)
    ensures forall i :: i in s ==> ItemLock(i) in ItemLocks(s)
  {
    ListingFacts(s);
    forall i | i in s ensures ItemLock(i) in ItemLocks(s) {
      var k :| 0 <= k < |Listing(s)| && Listing(s)[k] == i;
      assert ItemLocks(s)[k] == ItemLock(i);
    }
  }

  lemma CategoryLocksFacts(s: set<Uuid>)
    ensures forall c :: c in s ==> CategoryLock(c) in CategoryLocks(s)
  {
    ListingFacts(s);
    forall c | c in s ensures CategoryLock(c) in CategoryLocks(s) {
      var k :| 0 <= k < |Listing(s)| && Listing(s)[k] == c;
      assert CategoryLocks(s)[k] == CategoryLock(c);
    }
  }

  /** The removal loop touches only the ids it is given, and each link removal is followed by its exclusion delete. */
  ghost predicate Paired(ops: seq<Op>) {
    forall k :: 0 <= k < |ops| && ops[k].RemoveProvided? ==>
      k + 1 < |ops| && ops[k + 1] == DropExclusions(ops[k].category, ops[k].group)
  }

  ghost predicate Removal(op: Op) {
    op.RemoveProvided? || op.DropExclusions?
  }

  lemma {:induction false} RemovalsFromFacts(category: Uuid, gs: seq<Uuid>)
    ensures forall op :: op in RemovalsFrom(category, gs) ==> Removal(op) && op.category == category && op.group in gs
    ensures Paired(RemovalsFrom(category, gs))
    decreases |gs|
  {
    if gs != [] {
      RemovalsFromFacts(category, gs[1..]);
      PairedConcat([RemoveProvided(category, gs[0]), DropExclusions(category, gs[0])], RemovalsFrom(category, gs[1..]));
    }
  }

  lemma {:induction false} RemovalsOfFacts(group: Uuid, cs: seq<Uuid>)
    ensures forall op :: op in RemovalsOf(group, cs) ==> Removal(op) && op.category in cs && op.group == group
    ensures Paired(RemovalsOf(group, cs))
    decreases |cs|
  {
    if cs != [] {
      RemovalsOfFacts(group, cs[1..]);
      PairedConcat([RemoveProvided(cs[0], group), DropExclusions(cs[0], group)], RemovalsOf(group, cs[1..]));
    }
  }

  lemma PairedConcat(a: seq<Op>, b: seq<Op>)
    requires Paired(a) && Paired(b)
    ensures Paired(a + b)
  {
    var ops := a + b;
    forall k | 0 <= k < |ops| && ops[k].RemoveProvided?
      ensures k + 1 < |ops| && ops[k + 1] == DropExclusions(ops[k].category, ops[k].group)
    {
      if k < |a| { assert ops[k] == a[k] && ops[k + 1] == a[k + 1]; }
      else { assert ops[k] == b[k - |a|] && ops[k + 1] == b[k - |a| + 1]; }
    }
  }

  lemma EachFacts(s: set<Uuid>, op: Uuid -> Op)
    ensures forall o :: o in Each(Listing(s), op) ==> exists id :: id in s && o == op(id)
  {
    ListingFacts(s);
    forall o | o in Each(Listing(s), op) ensures exists id :: id in s && o == op(id) {
      var k :| 0 <= k < |Listing(s)| && Each(Listing(s), op)[k] == o;
      assert Listing(s)[k] in s && o == op(Listing(s)[k]);
    }
  }

  // ---------- a statement keeps what its own transaction knows ----------

  /** Taking a lock moves it from the list to the held set. */
  lemma AcquireKeeps(db: Tables, tx: Tx)
    requires TxOk(db, tx) && tx.todo != [] && tx.todo[0].Acquire?
    ensures TxOk(db, tx.(todo := tx.todo[1..], held := tx.held + {tx.todo[0].lock}))
  {
    var tx' := tx.(todo := tx.todo[1..], held := tx.held + {tx.todo[0].lock});
    assert tx.todo == [tx.todo[0]] + tx.todo[1..];
    assert tx.phase == Writing ==> OpLocked(tx.held, tx.todo[0]);
    assert forall l :: Covered(tx, l) ==> Covered(tx', l);
  }

  lemma WriteKeepsLocked(db: Tables, held: set<Lock>, w: Writes, op: Op)
    requires WritesLocked(held, w) && OpLocked(held, op)
    ensures WritesLocked(held, Write(db, w, op))
  {
  }

  lemma ProvidingWrite(db: Tables, tx: Tx)
    requires ProvidingOk(db, tx) && tx.todo != []
    ensures ProvidingOk(db, tx.(todo := tx.todo[1..], writes := Write(db, tx.writes, tx.todo[0])))
  {
    var op := tx.todo[0];
    assert PlainOp(op) || op.AddProvided? || op.RemoveProvided? || op.DropExclusions?;
    var tx' := tx.(todo := tx.todo[1..], writes := Write(db, tx.writes, op));
    forall k | 0 <= k < |tx'.todo| && tx'.todo[k].RemoveProvided?
      ensures k + 1 < |tx'.todo| && tx'.todo[k + 1] == DropExclusions(tx'.todo[k].category, tx'.todo[k].group)
    {
      assert tx'.todo[k] == tx.todo[k + 1];
    }
    assert op.RemoveProvided? ==> tx.todo[0 + 1] == DropExclusions(op.category, op.group);
    forall l | l in tx'.writes.removeProvided
      ensures (tx'.todo != [] && tx'.todo[0] == DropExclusions(l.owner, l.group))
        || Dropped(db, tx'.writes, l.owner, l.group)
    {
      if op == DropExclusions(l.owner, l.group) {
        assert Dropped(db, tx'.writes, l.owner, l.group);
      } else if l in tx.writes.removeProvided {
        assert Dropped(db, tx.writes, l.owner, l.group);
      }
    }
  }

  lemma MovingWrite(db: Tables, tx: Tx, i: Uuid, c: Uuid)
    requires MovingOk(db, tx, i, c) && tx.todo != [] && forall op :: op in tx.todo ==> OpLocked(tx.held, op)
    ensures MovingOk(db, tx.(todo := tx.todo[1..], writes := Write(db, tx.writes, tx.todo[0])), i, c)
  {
    assert OpLocked(tx.held, tx.todo[0]);
    var w' := Write(db, tx.writes, tx.todo[0]);
    if tx.todo[0].DropOrphans? {
      assert OrphansDropped(db, w', i, c);
    } else {
      assert w'.moved == map[i := c];
    }
  }

  lemma WriteKeeps(db: Tables, tx: Tx)
    requires tx.phase == Writing && WritingOk(db, tx) && tx.todo != []
    ensures WritingOk(db, tx.(todo := tx.todo[1..], writes := Write(db, tx.writes, tx.todo[0])))
  {
    var op := tx.todo[0];
    assert OpLocked(tx.held, op);
    WriteKeepsLocked(db, tx.held, tx.writes, op);
    match tx.job {
      case AttachCategory(_, _) => ProvidingWrite(db, tx);
      case ReplaceCategory(_, _) => ProvidingWrite(db, tx);
      case ReplaceAssignments(_, _, _) => ProvidingWrite(db, tx);
      case MoveItem(i, c) => MovingWrite(db, tx, i, c);
      case _ =>
    }
  }

  // ---------- a read or check keeps it ----------

  lemma NextReading(db: Tables, tx: Tx)
    requires tx.phase != Writing && ReadingOk(db, tx) && tx.todo == []
    requires Next(db, tx).Some? && Next(db, tx).value.phase != Writing
    ensures ReadingOk(db, Next(db, tx).value)
  {
    assert forall l :: Covered(tx, l) ==> l in tx.held;
    if tx.phase == Starting {
      AcquiresFacts(FirstLocks(tx.job));
    } else {
      ReadKeeps(db, tx);
    }
  }

  lemma ReadKeeps(db: Tables, tx: Tx)
    requires tx.phase != Starting && ReadingOk(db, tx) && tx.todo == [] && forall l :: Covered(tx, l) ==> l in tx.held
    requires Read(db, tx).Some? && Read(db, tx).value.phase != Writing
    ensures ReadingOk(db, Read(db, tx).value)
  {
    match (tx.job, tx.phase) {
      case (ReplaceItem(i, d, e), FirstRead) =>
        var all := tx.first + GroupsOf(db.excluded, i) + d + e;
        AcquiresFacts(GroupLocks(all));
        GroupLocksFacts(all);
      case (ReplaceCategory(c, gs), RowLocked) =>
        var all := GroupsOf(db.provided, c) + gs;
        AcquiresFacts(GroupLocks(all));
        GroupLocksFacts(all);
      case (ReplaceAssignments(g, its, cs), FirstRead) =>
        var current := OwnersOf(db.provided, g);
        AcquiresFacts(ItemLocks(tx.first + its) + CategoryLocks(current + cs));
        ItemLocksFacts(tx.first + its);
        CategoryLocksFacts(current + cs);
      case (MoveItem(i, c), RowLocked) =>
        var both := {db.items[i].category, c};
        AcquiresFacts(CategoryLocks(both));
        CategoryLocksFacts(both);
      case (_, _) =>
    }
  }

  lemma NextWriting(db: Tables, tx: Tx)
    requires tx.phase != Writing && ReadingOk(db, tx) && tx.todo == []
    requires Next(db, tx).Some? && Next(db, tx).value.phase == Writing
    ensures WritingOk(db, Next(db, tx).value)
  {
    assert forall l :: Covered(tx, l) ==> l in tx.held;
    match tx.job {
      case ReplaceItem(i, d, e) => NextItemWrites(db, tx, i, d, e);
      case ReplaceCategory(c, gs) => NextCategoryWrites(db, tx, c, gs);
      case ReplaceAssignments(g, its, cs) => NextAssignmentWrites(db, tx, g, its, cs);
      case _ => NextOtherWrites(db, tx);
    }
  }

  lemma NextOtherWrites(db: Tables, tx: Tx)
    requires tx.phase != Writing && ReadingOk(db, tx) && tx.todo == []
    requires !tx.job.ReplaceItem? && !tx.job.ReplaceCategory? && !tx.job.ReplaceAssignments?
    requires Next(db, tx).Some? && Next(db, tx).value.phase == Writing
    requires forall l :: Covered(tx, l) ==> l in tx.held
    ensures WritingOk(db, Next(db, tx).value)
  {
  }

  lemma ItemWritesFacts(i: Uuid, curD: set<Uuid>, curE: set<Uuid>, d: set<Uuid>, e: set<Uuid>)
    ensures forall op :: op in ItemWrites(i, curD, curE, d, e) ==>
              && (PlainOp(op) || op.AddExclusion?) && op.item == i && op.group in curD + curE + d + e
              && (op.AddExclusion? ==> op.group in e - curE)
  {
    var a, b := Each(Listing(curD - d), g => RemoveDirect(i, g)), Each(Listing(curE - e), g => RemoveExclusion(i, g));
    var p, q := Each(Listing(d - curD), g => AddDirect(i, g)), Each(Listing(e - curE), g => AddExclusion(i, g));
    forall op | op in ItemWrites(i, curD, curE, d, e)
      ensures (PlainOp(op) || op.AddExclusion?) && op.item == i && op.group in curD + curE + d + e
      ensures op.AddExclusion? ==> op.group in e - curE
    {
      assert op in a || op in b || op in p || op in q;
      if op in a {
        EachFacts(curD - d, g => RemoveDirect(i, g));
      } else if op in b {
        EachFacts(curE - e, g => RemoveExclusion(i, g));
      } else if op in p {
        EachFacts(d - curD, g => AddDirect(i, g));
      } else {
        EachFacts(e - curE, g => AddExclusion(i, g));
      }
    }
  }

  lemma NextItemWrites(db: Tables, tx: Tx, i: Uuid, d: set<Uuid>, e: set<Uuid>)
    requires tx.job == ReplaceItem(i, d, e) && tx.phase == Checking && ReadingOk(db, tx) && tx.todo == []
    requires e <= GroupsOf(db.provided, tx.source)
    ensures WritingOk(db, tx.(phase := Writing, todo := ItemWrites(i, tx.first, tx.second, d, e)))
  {
    ItemWritesFacts(i, tx.first, tx.second, d, e);
    forall op | op in ItemWrites(i, tx.first, tx.second, d, e)
      ensures OpLocked(tx.held, op) && (PlainOp(op) || (op.AddExclusion? && Inherited(db, op.item, op.group)))
    {
      assert Covered(tx, GroupLock(op.group));
      if op.AddExclusion? {
        assert op.group in GroupsOf(db.provided, tx.source);
      }
    }
  }

  lemma CategoryWritesFacts(c: Uuid, current: set<Uuid>, gs: set<Uuid>)
    ensures Paired(CategoryWrites(c, current, gs))
    ensures forall op :: op in CategoryWrites(c, current, gs) ==>
              (op.AddProvided? || Removal(op)) && op.category == c && op.group in current + gs
  {
    ListingFacts(current - gs);
    RemovalsFromFacts(c, Listing(current - gs));
    EachFacts(gs - current, g => AddProvided(c, g));
    PairedConcat(RemovalsFrom(c, Listing(current - gs)), Each(Listing(gs - current), g => AddProvided(c, g)));
    assert forall op :: op in RemovalsFrom(c, Listing(current - gs)) ==> op.group in Elements(Listing(current - gs));
  }

  lemma NextCategoryWrites(db: Tables, tx: Tx, c: Uuid, gs: set<Uuid>)
    requires tx.job == ReplaceCategory(c, gs) && tx.phase == Checking && ReadingOk(db, tx) && tx.todo == []
    ensures WritingOk(db, tx.(phase := Writing, todo := CategoryWrites(c, tx.first, gs)))
  {
    CategoryWritesFacts(c, tx.first, gs);
    forall op | op in CategoryWrites(c, tx.first, gs) ensures OpLocked(tx.held, op) {
      assert Covered(tx, GroupLock(op.group));
    }
  }

  lemma AssignmentWritesFacts(g: Uuid, curItems: set<Uuid>, curCats: set<Uuid>, its: set<Uuid>, cs: set<Uuid>)
    ensures Paired(AssignmentWrites(g, curItems, curCats, its, cs))
    ensures forall op :: op in AssignmentWrites(g, curItems, curCats, its, cs) ==>
              || ((op.AddProvided? || Removal(op)) && op.category in curCats + cs && op.group == g)
              || ((op.AddDirect? || op.RemoveDirect?) && op.item in curItems + its && op.group == g)
  {
    ListingFacts(curCats - cs);
    RemovalsOfFacts(g, Listing(curCats - cs));
    EachFacts(cs - curCats, c => AddProvided(c, g));
    EachFacts(curItems - its, i => RemoveDirect(i, g));
    EachFacts(its - curItems, i => AddDirect(i, g));
    var a := RemovalsOf(g, Listing(curCats - cs));
    var b := Each(Listing(cs - curCats), c => AddProvided(c, g));
    var p := Each(Listing(curItems - its), i => RemoveDirect(i, g));
    var q := Each(Listing(its - curItems), i => AddDirect(i, g));
    assert forall op :: op in a ==> op.category in Elements(Listing(curCats - cs));
    PairedConcat(a, b);
    PairedConcat(a + b, p);
    PairedConcat(a + b + p, q);
  }

  lemma NextAssignmentWrites(db: Tables, tx: Tx, g: Uuid, its: set<Uuid>, cs: set<Uuid>)
    requires tx.job == ReplaceAssignments(g, its, cs) && tx.phase == Checking && ReadingOk(db, tx) && tx.todo == []
    ensures WritingOk(db, tx.(phase := Writing, todo := AssignmentWrites(g, tx.first, tx.second, its, cs)))
  {
    AssignmentWritesFacts(g, tx.first, tx.second, its, cs);
    forall op | op in AssignmentWrites(g, tx.first, tx.second, its, cs) ensures OpLocked(tx.held, op) {
      if op.AddProvided? || Removal(op) {
        assert Covered(tx, CategoryLock(op.category));
      } else {
        assert Covered(tx, ItemLock(op.item));
      }
    }
  }

  // ---------- runs ----------

  /** A step moves one transaction, and takes a lock only when no other one has it. */
  lemma StepMovesOne(s: System, id: nat)
    requires id in s.txs
    ensures var s' := StepTx(s, id);
      && s'.db == s.db
      && (s'.txs == s.txs - {id} || (id in s'.txs && s'.txs == s.txs[id := s'.txs[id]]))
      && (id in s'.txs ==> forall l :: l in s'.txs[id].held ==> l in s.txs[id].held || Free(s, id, l))
  {
    assert s.txs == s.txs[id := s.txs[id]];
  }

  lemma StepKeepsSafe(s: System, id: nat)
    requires Safe(s) && id in s.txs
    ensures Safe(StepTx(s, id))
  {
    StepMovesOne(s, id);
    StepKeepsOwn(s, id);
  }

  lemma StepKeepsOwn(s: System, id: nat)
    requires Safe(s) && id in s.txs
    ensures id in StepTx(s, id).txs ==> TxOk(s.db, StepTx(s, id).txs[id])
  {
    var tx := s.txs[id];
    assert TxOk(s.db, tx);
    if tx.todo != [] {
      if tx.todo[0].Acquire? {
        AcquireKeeps(s.db, tx);
      } else {
        WriteKeeps(s.db, tx);
      }
    } else if tx.phase != Writing && Next(s.db, tx).Some? {
      if Next(s.db, tx).value.phase == Writing { NextWriting(s.db, tx); } else { NextReading(s.db, tx); }
    }
  }

  lemma CommitKeepsSafe(s: System, id: nat)
    requires Safe(s) && id in s.txs && s.txs[id].phase == Writing && s.txs[id].todo == []
    ensures Safe(System(Install(s.db, s.txs[id].writes), s.txs - {id}))
  {
    var tx := s.txs[id];
    CommitKeepsExclusions(s.db, tx);
    forall other | other in s.txs - {id} ensures TxOk(Install(s.db, tx.writes), s.txs[other]) {
      CommitKeepsOther(s.db, tx.writes, tx.held, s.txs[other]);
    }
  }

  lemma DoKeepsSafe(s: System, e: Event)
    requires Safe(s)
    ensures Safe(Do(s, e))
  {
    match e {
      case Begin(id, job, request) =>
      case Step(id) => if id in s.txs { StepKeepsSafe(s, id); }
      case Commit(id) =>
        if id in s.txs && s.txs[id].phase == Writing && s.txs[id].todo == [] { CommitKeepsSafe(s, id); }
      case Abort(id) =>
    }
  }

  lemma {:induction false} PlayKeepsSafe(s: System, events: seq<Event>)
    requires Safe(s)
    ensures Safe(Play(s, events))
    decreases |events|
  {
    if events != [] {
      DoKeepsSafe(s, events[0]);
      PlayKeepsSafe(Do(s, events[0]), events[1..]);
    }
  }

  /**
   Any number of attach, exclude, replace, move, availability and single-row
   commands, interleaved in any way and cut short anywhere, keep every
   exclusion's group provided by its item's category, in every state reached.
   */
  lemma EveryScheduleKeepsExclusionsProvided(db: Tables, events: seq<Event>)
    requires ExclusionsProvided(db)
    ensures ExclusionsProvided(Play(Start(db), events).db)
  {
    PlayKeepsSafe(Start(db), events);
  }
}
