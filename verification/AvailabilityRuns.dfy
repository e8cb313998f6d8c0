/**
 Any number of availability batches at once, statement by statement at READ
 COMMITTED, among any other commands on the same rows. A batch plans without
 locks, then locks, checks and writes its entries one by one. Another command
 may insert any rows and rewrite the rows it has locked. A single availability
 command is a batch of one entry.
 */
module AvailabilityRuns {
  import opened Prelude
  import opened Ordering
  import opened Uuids
  import opened Locks
  import opened Availability
  import opened AvailabilityStore

  /** A batch plans, then turns to the root, the child and the flag of each entry. */
  datatype Phase = Planning | AtRoot | AtChild | AtFlag

  /**
   A running transaction. A batch has its resolved steps, in plan order once it has planned,
   the entry it is at, the uncommitted changes of flags, and the flags it found.
   */
  datatype Tx =
    | Batch(changes: seq<Change>, phase: Phase, steps: seq<LockStep>, k: nat,
            held: set<Lock>, written: set<Change>, previous: map<(Kind, Uuid), bool>)
    | Other(held: set<Lock>)

  datatype System = System(menu: Menu, txs: map<nat, Tx>)

  datatype Event =
    | BeginBatch(id: nat, changes: seq<Change>)
    | BeginOther(id: nat)
    | Take(id: nat, lock: Lock)
    | Step(id: nat)
    | Commit(id: nat)
    | Rewrite(id: nat, menu: Menu)
    | Abort(id: nat)

  /** What the next statement of a batch comes to. */
  datatype Turn = Go(tx: Tx) | Wait | Fail(error: Error)

  ghost predicate Free(s: System, id: nat, l: Lock) {
    forall other :: other in s.txs && other != id ==> l !in s.txs[other].held
  }

  /** The retired flag of the item or group that an entry locks first, if the row is there. */
  ghost function RootRetired(m: Menu, st: LockStep): Option<bool> {
    if st.treeRank == 0 then (if st.parent in m.items then Some(m.items[st.parent].retired) else None)
    else if st.parent in m.groups then Some(m.groups[st.parent].retired) else None
  }

  ghost predicate ChildRetired(m: Menu, c: Change) {
    (c.kind == SizeKind && c.id in m.sizes && m.sizes[c.id].retired)
    || (c.kind == OptionKind && c.id in m.options && m.options[c.id].retired)
  }

  /** The flag of an entry's row, as the statement that locks the row returns it. */
  ghost function FlagOf(m: Menu, c: Change): bool {
    if c.kind == ItemKind then c.id in m.items && m.items[c.id].available
    else if c.kind == SizeKind then c.id in m.sizes && m.sizes[c.id].available
    else c.id in m.options && m.options[c.id].available
  }

  /** The rows as the transaction sees them: what is committed, with its own writes. */
  ghost function View(m: Menu, tx: Tx): Menu
    requires tx.Batch?
  {
    Update(m, tx.written)
  }

  ghost function Holding(tx: Tx, l: Lock): Tx {
    tx.(held := tx.held + {l})
  }

  /** The row is locked: its flag is remembered, and written next. */
  ghost function Remember(m: Menu, tx: Tx, c: Change): Tx
    requires tx.Batch?
  {
    tx.(phase := AtFlag, previous := tx.previous[(c.kind, c.id) := FlagOf(View(m, tx), c)])
  }

  /** The batch once it has written, or left alone, the flag of the entry it is at. */
  ghost function AfterFlag(m: Menu, tx: Tx): Tx
    requires tx.Batch? && tx.k < |tx.steps|
  {
    var c := tx.steps[tx.k].change;
    tx.(phase := AtRoot, k := tx.k + 1,
        written := if FlagOf(View(m, tx), c) != c.available then tx.written + {c} else tx.written)
  }

  ghost function TurnOf(s: System, id: nat): Turn
    requires id in s.txs && s.txs[id].Batch?
  {
    var tx := s.txs[id];
    if tx.phase == Planning then
      if |tx.steps| < |tx.changes| then
        var step := StepFor(View(s.menu, tx), tx.changes[|tx.steps|]);
        if step.Some? then Go(tx.(steps := tx.steps + [step.value])) else Fail(NotFound)
      else Go(tx.(phase := AtRoot, steps := SortBy(StepKey, tx.steps)))
    else if tx.k >= |tx.steps| then Wait
    else
      var step := tx.steps[tx.k];
      var root, row := LocksFor(step)[0], LocksFor(step)[|LocksFor(step)| - 1];
      if tx.phase == AtRoot then
        var retired := RootRetired(View(s.menu, tx), step);
        if retired.None? then Fail(NotFound)
        else if !Free(s, id, root) then Wait
        else if retired.value then Fail(EntityRetired)
        else if root == row then Go(Holding(Remember(s.menu, tx, step.change), root))
        else Go(Holding(tx.(phase := AtChild), root))
      else if tx.phase == AtChild then
        if !Free(s, id, row) then Wait
        else if ChildRetired(View(s.menu, tx), step.change) then Fail(EntityRetired)
        else Go(Holding(Remember(s.menu, tx, step.change), row))
      else
        Go(AfterFlag(s.menu, tx))
  }

  /** A batch with every entry applied. */
  ghost predicate Finished(tx: Tx) {
    tx.Batch? && tx.phase == AtRoot && tx.k == |tx.steps|
  }

  /** Between two menus only rows whose locks are held change, and rows appear. */
  ghost predicate OwnRows(m: Menu, m': Menu, held: set<Lock>) {
    && (forall i :: i in m.items ==> i in m'.items && (ItemLock(i) !in held ==> m'.items[i] == m.items[i]))
    && (forall g :: g in m.groups ==> g in m'.groups && (GroupLock(g) !in held ==> m'.groups[g] == m.groups[g]))
    && OwnChildren(m.sizes, m'.sizes, set l | l in held && l.SizeLock? :: (l.item, l.size))
    && OwnChildren(m.options, m'.options, set l | l in held && l.OptionLock? :: (l.group, l.option))
  }

  ghost predicate OwnChildren(rows: map<Uuid, Child>, rows': map<Uuid, Child>, held: set<(Uuid, Uuid)>) {
    forall r :: r in rows ==>
      r in rows' && rows'[r].parent == rows[r].parent && ((rows[r].parent, r) !in held ==> rows'[r] == rows[r])
  }

  ghost function Do(s: System, e: Event): System {
    match e
    case BeginBatch(id, changes) =>
      if id in s.txs || !UsableBatch(changes) then s
      else s.(txs := s.txs[id := Batch(changes, Planning, [], 0, {}, {}, map[])])
    case BeginOther(id) => if id in s.txs then s else s.(txs := s.txs[id := Other({})])
    case Take(id, l) =>
      if id in s.txs && s.txs[id].Other? && Free(s, id, l) then s.(txs := s.txs[id := Holding(s.txs[id], l)]) else s
    case Step(id) =>
      if id in s.txs && s.txs[id].Batch? then
        match TurnOf(s, id)
        case Go(tx) => s.(txs := s.txs[id := tx])
        case Wait => s
        case Fail(_) => s.(txs := s.txs - {id})
      else s
    case Commit(id) =>
      if id in s.txs && Finished(s.txs[id]) then System(View(s.menu, s.txs[id]), s.txs - {id}) else s
    case Rewrite(id, menu) =>
      if id in s.txs && s.txs[id].Other? && OwnRows(s.menu, menu, s.txs[id].held) then System(menu, s.txs - {id}) else s
    case Abort(id) => s.(txs := s.txs - {id})
  }

  ghost function Play(s: System, events: seq<Event>): System
    decreases |events|
  {
    if events == [] then s else Play(Do(s, events[0]), events[1..])
  }

  ghost function Start(menu: Menu): System { System(menu, map[]) }

  // ---------- what a batch knows ----------

  /** The entry's rows are locked, it is not refused, and its flag is the remembered one. */
  ghost predicate Locked(m: Menu, tx: Tx, st: LockStep)
    requires tx.Batch?
  {
    (forall l :: l in LocksFor(st) ==> l in tx.held) && Remembered(m, tx.previous, st.change)
  }

  /** And its flag is written exactly when it differs. */
  ghost predicate Settled(m: Menu, tx: Tx, st: LockStep)
    requires tx.Batch?
  {
    Locked(m, tx, st) && (st.change in tx.written <==> Flag(m, st.change) != st.change.available)
  }

  ghost predicate Resolved(m: Menu, cs: seq<Change>, steps: seq<LockStep>) {
    |steps| <= |cs| && forall j :: 0 <= j < |steps| ==> StepFor(m, cs[j]) == Some(steps[j])
  }

  ghost predicate Applying(m: Menu, tx: Tx)
    requires tx.Batch?
  {
    && IsPlan(m, tx.changes, tx.steps) && tx.k <= |tx.steps|
    && (forall j :: 0 <= j < tx.k ==> Settled(m, tx, tx.steps[j]))
    && tx.written <= ChangesOf(tx.steps[..tx.k])
    && (tx.phase != AtRoot ==> tx.k < |tx.steps|)
    && (tx.phase == AtChild ==>
          && LocksFor(tx.steps[tx.k])[0] in tx.held && |LocksFor(tx.steps[tx.k])| == 2
          && RootRetired(m, tx.steps[tx.k]) == Some(false))
    && (tx.phase == AtFlag ==> Locked(m, tx, tx.steps[tx.k]))
  }

  ghost predicate BatchOk(m: Menu, tx: Tx) {
    tx.Batch? ==>
      && UsableBatch(tx.changes)
      && if tx.phase == Planning then Resolved(m, tx.changes, tx.steps) && tx.k == 0 && tx.written == {}
        else Applying(m, tx)
  }

  ghost predicate Exclusive(txs: map<nat, Tx>) {
    forall a, b :: a in txs && b in txs && a != b ==> txs[a].held !! txs[b].held
  }

  ghost predicate Sound(s: System) {
    Exclusive(s.txs) && forall id :: id in s.txs ==> BatchOk(s.menu, s.txs[id])
  }

  // ---------- statements ----------

  /** The transaction's own writes hide nothing from it: they are about other entries. */
  lemma ViewShows(m: Menu, tx: Tx)
    requires tx.Batch? && Applying(m, tx) && tx.k < |tx.steps|
    ensures var c := tx.steps[tx.k].change;
      && c !in tx.written
      && RootRetired(View(m, tx), tx.steps[tx.k]) == RootRetired(m, tx.steps[tx.k])
      && ChildRetired(View(m, tx), c) == ChildRetired(m, c)
      && FlagOf(View(m, tx), c) == FlagOf(m, c)
  {
    var c := tx.steps[tx.k].change;
    assert tx.steps[tx.k] in tx.steps;
    PlanTargetsDistinct(m, tx.changes, tx.steps, tx.k);
    assert Change(c.kind, c.id, true) !in tx.written && Change(c.kind, c.id, false) !in tx.written;
  }

  /** The checks of an entry are those of the single command. */
  lemma ChecksAreRefusal(m: Menu, st: LockStep)
    requires Planned(m, st)
    ensures RootRetired(m, st).None? ==> Refusal(m, st.change) == Some(NotFound)
    ensures RootRetired(m, st) == Some(true) ==> Refusal(m, st.change) == Some(EntityRetired)
    ensures RootRetired(m, st) == Some(false) && |LocksFor(st)| == 2 && ChildRetired(m, st.change) ==>
              Refusal(m, st.change) == Some(EntityRetired)
    ensures RootRetired(m, st) == Some(false) && (|LocksFor(st)| == 2 ==> !ChildRetired(m, st.change)) ==>
              Refusal(m, st.change).None?
    ensures Refusal(m, st.change).None? ==> FlagOf(m, st.change) == Flag(m, st.change)
  {
  }

  /** Remembering one entry's flag keeps what earlier entries know. */
  lemma RememberKeeps(m: Menu, tx: Tx, l: Lock)
    requires tx.Batch? && Applying(m, tx) && tx.k < |tx.steps|
    ensures var next := Holding(Remember(m, tx, tx.steps[tx.k].change), l);
      forall j :: 0 <= j < tx.k ==> Settled(m, next, tx.steps[j])
  {
    var c := tx.steps[tx.k].change;
    PlanTargetsDistinct(m, tx.changes, tx.steps, tx.k);
    forall j | 0 <= j < tx.k ensures tx.steps[j].change.kind != c.kind || tx.steps[j].change.id != c.id {
      assert tx.steps[j] in tx.steps[..tx.k];
    }
  }

  lemma PlanningTurn(s: System, id: nat)
    requires id in s.txs && s.txs[id].Batch? && BatchOk(s.menu, s.txs[id]) && s.txs[id].phase == Planning
    ensures TurnOf(s, id).Go? ==> BatchOk(s.menu, TurnOf(s, id).tx) && TurnOf(s, id).tx.held == s.txs[id].held
    ensures TurnOf(s, id).Fail? ==> BatchRefused(s.menu, s.txs[id].changes, TurnOf(s, id).error)
  {
    var tx := s.txs[id];
    UpdateNothing(s.menu);
    if |tx.steps| < |tx.changes| {
      assert tx.changes[|tx.steps|] in tx.changes;
    } else {
      PlanFromSteps(s.menu, tx.changes, tx.steps);
      assert ChangesOf(SortBy(StepKey, tx.steps)[..0]) == {};
    }
  }

  lemma RootTurn(s: System, id: nat)
    requires id in s.txs && s.txs[id].Batch? && BatchOk(s.menu, s.txs[id])
    requires s.txs[id].phase == AtRoot && s.txs[id].k < |s.txs[id].steps|
    ensures TurnOf(s, id).Go? ==> BatchOk(s.menu, TurnOf(s, id).tx)
    ensures TurnOf(s, id).Fail? ==> Refusal(s.menu, s.txs[id].steps[s.txs[id].k].change) == Some(TurnOf(s, id).error)
  {
    var tx := s.txs[id];
    var st := tx.steps[tx.k];
    assert st in tx.steps;
    ViewShows(s.menu, tx);
    ChecksAreRefusal(s.menu, st);
    RememberKeeps(s.menu, tx, LocksFor(st)[0]);
  }

  lemma ChildTurn(s: System, id: nat)
    requires id in s.txs && s.txs[id].Batch? && BatchOk(s.menu, s.txs[id]) && s.txs[id].phase == AtChild
    ensures TurnOf(s, id).Go? ==> BatchOk(s.menu, TurnOf(s, id).tx)
    ensures TurnOf(s, id).Fail? ==> Refusal(s.menu, s.txs[id].steps[s.txs[id].k].change) == Some(TurnOf(s, id).error)
  {
    var tx := s.txs[id];
    var st := tx.steps[tx.k];
    assert st in tx.steps;
    ViewShows(s.menu, tx);
    ChecksAreRefusal(s.menu, st);
    RememberKeeps(s.menu, tx, LocksFor(st)[1]);
  }

  lemma EarlierStaySettled(m: Menu, tx: Tx)
    requires tx.Batch? && Applying(m, tx) && tx.phase == AtFlag
    ensures forall j :: 0 <= j < tx.k ==> Settled(m, AfterFlag(m, tx), tx.steps[j])
    ensures AfterFlag(m, tx).written <= ChangesOf(tx.steps[..tx.k + 1])
  {
    var st := tx.steps[tx.k];
    PlanTargetsDistinct(m, tx.changes, tx.steps, tx.k);
    assert tx.steps[..tx.k + 1] == tx.steps[..tx.k] + [st];
    forall j | 0 <= j < tx.k ensures tx.steps[j].change != st.change {
      assert tx.steps[j] in tx.steps[..tx.k];
    }
  }

  lemma ThisOneSettled(m: Menu, tx: Tx)
    requires tx.Batch? && Applying(m, tx) && tx.phase == AtFlag
    ensures Settled(m, AfterFlag(m, tx), tx.steps[tx.k])
  {
    assert tx.steps[tx.k] in tx.steps;
    ViewShows(m, tx);
    ChecksAreRefusal(m, tx.steps[tx.k]);
  }

  lemma FlagTurn(s: System, id: nat)
    requires id in s.txs && s.txs[id].Batch? && BatchOk(s.menu, s.txs[id]) && s.txs[id].phase == AtFlag
    ensures TurnOf(s, id).Go? && BatchOk(s.menu, TurnOf(s, id).tx)
  {
    assert TurnOf(s, id) == Go(AfterFlag(s.menu, s.txs[id]));
    FlagKeepsOk(s.menu, s.txs[id]);
  }

  lemma FlagKeepsOk(m: Menu, tx: Tx)
    requires tx.Batch? && BatchOk(m, tx) && tx.phase == AtFlag
    ensures BatchOk(m, AfterFlag(m, tx))
  {
    EarlierStaySettled(m, tx);
    ThisOneSettled(m, tx);
  }

  lemma TurnKeepsOk(s: System, id: nat)
    requires id in s.txs && s.txs[id].Batch? && BatchOk(s.menu, s.txs[id])
    ensures TurnOf(s, id).Go? ==> BatchOk(s.menu, TurnOf(s, id).tx)
  {
    match s.txs[id].phase {
      case Planning => PlanningTurn(s, id);
      case AtRoot => if s.txs[id].k < |s.txs[id].steps| { RootTurn(s, id); }
      case AtChild => ChildTurn(s, id);
      case AtFlag => FlagTurn(s, id);
    }
  }

  /** A step takes a lock only when nobody else has it. */
  lemma TurnTakesFree(s: System, id: nat)
    requires id in s.txs && s.txs[id].Batch? && TurnOf(s, id).Go?
    ensures forall l :: l in TurnOf(s, id).tx.held ==> l in s.txs[id].held || Free(s, id, l)
  {
  }

  // ---------- commits ----------

  lemma StepForStays(m: Menu, m': Menu, held: set<Lock>, c: Change)
    requires OwnRows(m, m', held) && StepFor(m, c).Some?
    ensures StepFor(m', c) == StepFor(m, c)
  {
  }

  /** What an entry knows under its locks survives whatever others do under theirs. */
  lemma EntryStays(m: Menu, m': Menu, held: set<Lock>, st: LockStep)
    requires OwnRows(m, m', held) && Planned(m, st) && Refusal(m, st.change).None?
    requires forall l :: l in LocksFor(st) ==> l !in held
    ensures Refusal(m', st.change).None? && Flag(m', st.change) == Flag(m, st.change)
  {
    assert LocksFor(st)[0] in LocksFor(st);
    if |LocksFor(st)| == 2 { assert LocksFor(st)[1] in LocksFor(st); }
  }

  lemma RootStays(m: Menu, m': Menu, held: set<Lock>, st: LockStep)
    requires OwnRows(m, m', held) && Planned(m, st) && LocksFor(st)[0] !in held && RootRetired(m, st).Some?
    ensures RootRetired(m', st) == RootRetired(m, st)
  {
  }

  lemma OthersKeepOk(m: Menu, m': Menu, held: set<Lock>, tx: Tx)
    requires OwnRows(m, m', held) && held !! tx.held && BatchOk(m, tx)
    ensures BatchOk(m', tx)
  {
    if tx.Batch? {
      if tx.phase == Planning {
        forall j | 0 <= j < |tx.steps| ensures StepFor(m', tx.changes[j]) == Some(tx.steps[j]) {
          StepForStays(m, m', held, tx.changes[j]);
        }
      } else {
        OthersKeepApplying(m, m', held, tx);
      }
    }
  }

  lemma OthersKeepApplying(m: Menu, m': Menu, held: set<Lock>, tx: Tx)
    requires OwnRows(m, m', held) && held !! tx.held && tx.Batch? && Applying(m, tx)
    ensures Applying(m', tx)
  {
    forall st | st in tx.steps ensures Planned(m', st) { StepForStays(m, m', held, st.change); }
    forall j | 0 <= j < |tx.steps| && Locked(m, tx, tx.steps[j])
      ensures Locked(m', tx, tx.steps[j]) && Flag(m', tx.steps[j].change) == Flag(m, tx.steps[j].change)
    {
      assert tx.steps[j] in tx.steps;
      EntryStays(m, m', held, tx.steps[j]);
    }
    if tx.phase == AtChild {
      assert tx.steps[tx.k] in tx.steps;
      RootStays(m, m', held, tx.steps[tx.k]);
    }
  }

  /** A batch writes only rows it has locked. */
  lemma BatchWritesOwn(m: Menu, tx: Tx)
    requires tx.Batch? && Applying(m, tx)
    ensures OwnRows(m, View(m, tx), tx.held)
  {
    forall c | c in tx.written
      ensures c.kind == ItemKind ==> ItemLock(c.id) in tx.held
      ensures c.kind == SizeKind ==> c.id in m.sizes && SizeLock(m.sizes[c.id].parent, c.id) in tx.held
      ensures c.kind == OptionKind ==> c.id in m.options && OptionLock(m.options[c.id].parent, c.id) in tx.held
    {
      var st :| st in tx.steps[..tx.k] && st.change == c;
      var j :| 0 <= j < tx.k && tx.steps[j] == st;
      assert Settled(m, tx, tx.steps[j]);
      assert st in tx.steps;
      assert forall l :: l in LocksFor(st) ==> l in tx.held;
      assert |LocksFor(st)| == 2 ==> LocksFor(st)[1] in LocksFor(st);
      assert LocksFor(st)[0] in LocksFor(st);
    }
    WritesOwnItems(m, tx.held, tx.written);
    WritesOwnChildren(m.sizes, SizeKind, tx.written, set l | l in tx.held && l.SizeLock? :: (l.item, l.size));
    WritesOwnChildren(m.options, OptionKind, tx.written, set l | l in tx.held && l.OptionLock? :: (l.group, l.option));
  }

  lemma WritesOwnItems(m: Menu, held: set<Lock>, written: set<Change>)
    requires forall c :: c in written && c.kind == ItemKind ==> ItemLock(c.id) in held
    ensures forall i :: i in m.items && ItemLock(i) !in held ==> UpdateItems(m.items, written)[i] == m.items[i]
  {
    forall i | i in m.items && ItemLock(i) !in held ensures UpdateItems(m.items, written)[i] == m.items[i] {
      assert Change(ItemKind, i, true) !in written && Change(ItemKind, i, false) !in written;
    }
  }

  lemma WritesOwnChildren(rows: map<Uuid, Child>, kind: Kind, written: set<Change>, held: set<(Uuid, Uuid)>)
    requires forall c :: c in written && c.kind == kind ==> c.id in rows && (rows[c.id].parent, c.id) in held
    ensures OwnChildren(rows, UpdateChildren(rows, kind, written), held)
  {
    forall r | r in rows && (rows[r].parent, r) !in held ensures UpdateChildren(rows, kind, written)[r] == rows[r] {
      assert Change(kind, r, true) !in written && Change(kind, r, false) !in written;
    }
  }

  // ---------- runs ----------

  lemma ReplaceKeepsOthers(s: System, m': Menu, id: nat)
    requires Sound(s) && id in s.txs && OwnRows(s.menu, m', s.txs[id].held)
    ensures Sound(System(m', s.txs - {id}))
  {
    forall other | other in s.txs - {id} ensures BatchOk(m', s.txs[other]) {
      OthersKeepOk(s.menu, m', s.txs[id].held, s.txs[other]);
    }
  }

  lemma StepKeepsSound(s: System, id: nat)
    requires Sound(s) && id in s.txs && s.txs[id].Batch?
    ensures Sound(Do(s, Step(id)))
  {
    TurnKeepsOk(s, id);
    if TurnOf(s, id).Go? { TurnTakesFree(s, id); }
  }

  lemma DoKeepsSound(s: System, e: Event)
    requires Sound(s)
    ensures Sound(Do(s, e))
  {
    match e {
      case Step(id) => if id in s.txs && s.txs[id].Batch? { StepKeepsSound(s, id); }
      case Commit(id) =>
        if id in s.txs && Finished(s.txs[id]) {
          BatchWritesOwn(s.menu, s.txs[id]);
          ReplaceKeepsOthers(s, View(s.menu, s.txs[id]), id);
        }
      case Rewrite(id, menu) =>
        if id in s.txs && s.txs[id].Other? && OwnRows(s.menu, menu, s.txs[id].held) { ReplaceKeepsOthers(s, menu, id); }
      case _ =>
    }
  }

  lemma {:induction false} PlayKeepsSound(s: System, events: seq<Event>)
    requires Sound(s)
    ensures Sound(Play(s, events))
    decreases |events|
  {
    if events != [] {
      DoKeepsSound(s, events[0]);
      PlayKeepsSound(Do(s, events[0]), events[1..]);
    }
  }

  // ---------- the main results ----------

  /** The answer a batch gives from the flags it remembered. */
  ghost function Answer(cs: seq<Change>, previous: map<(Kind, Uuid), bool>): BatchResponse
  {
    if cs == [] then BatchResponse([], [])
    else
      var n := |cs| - 1;
      var c, front := cs[n], Answer(cs[..n], previous);
      var was := if (c.kind, c.id) in previous then previous[(c.kind, c.id)] else c.available;
      BatchResponse(front.results + [BatchResult(c.kind, c.id, c.available, was != c.available)],
                    front.audit + if was != c.available then [AuditChange(c.kind, c.id, was, c.available)] else [])
  }

  lemma {:induction false} AnswerReports(m: Menu, cs: seq<Change>, previous: map<(Kind, Uuid), bool>)
    requires forall c :: c in cs ==> Remembered(m, previous, c)
    ensures Reports(m, cs, Answer(cs, previous))
    decreases |cs|
  {
    if cs != [] {
      var n := |cs| - 1;
      AnswerReports(m, cs[..n], previous);
      assert cs[n] in cs;
      assert forall c :: c in cs ==> c in cs[..n] || c == cs[n];
    }
  }

  /** Writing only the flags that differ is writing them all. */
  lemma WrittenIsAll(m: Menu, cs: seq<Change>, written: set<Change>)
    requires UsableBatch(cs) && (forall c :: c in cs ==> Refusal(m, c).None?)
    requires written <= Elements(cs) && forall c :: c in cs ==> (c in written <==> Flag(m, c) != c.available)
    ensures Update(m, written) == Update(m, Elements(cs))
  {
    var all := Elements(cs);
    forall i | i in m.items
      ensures Wanted(written, ItemKind, i, m.items[i].available) == Wanted(all, ItemKind, i, m.items[i].available) {
      WantedAll(m, cs, written, ItemKind, i, m.items[i].available);
    }
    forall r | r in m.sizes
      ensures Wanted(written, SizeKind, r, m.sizes[r].available) == Wanted(all, SizeKind, r, m.sizes[r].available) {
      WantedAll(m, cs, written, SizeKind, r, m.sizes[r].available);
    }
    forall r | r in m.options
      ensures Wanted(written, OptionKind, r, m.options[r].available)
        == Wanted(all, OptionKind, r, m.options[r].available)
    {
      WantedAll(m, cs, written, OptionKind, r, m.options[r].available);
    }
    assert UpdateItems(m.items, written) == UpdateItems(m.items, all);
    assert UpdateChildren(m.sizes, SizeKind, written) == UpdateChildren(m.sizes, SizeKind, all);
    assert UpdateChildren(m.options, OptionKind, written) == UpdateChildren(m.options, OptionKind, all);
  }

  lemma WantedAll(m: Menu, cs: seq<Change>, written: set<Change>, kind: Kind, id: Uuid, stored: bool)
    requires UsableBatch(cs) && written <= Elements(cs)
    requires forall c :: c in cs && c.kind == kind && c.id == id ==> (c in written <==> stored != c.available)
    ensures Wanted(written, kind, id, stored) == Wanted(Elements(cs), kind, id, stored)
  {
    var on, off := Change(kind, id, true), Change(kind, id, false);
    if on in cs {
      var i :| 0 <= i < |cs| && cs[i] == on;
      forall j | 0 <= j < |cs|
        ensures cs[j] != off { assert i != j ==> cs[i].kind != cs[j].kind || cs[i].id != cs[j].id; }
    }
  }

  lemma AllSettled(m: Menu, tx: Tx)
    requires BatchOk(m, tx) && Finished(tx)
    ensures forall c :: c in tx.changes ==>
              Remembered(m, tx.previous, c) && (c in tx.written <==> Flag(m, c) != c.available)
    ensures tx.written <= Elements(tx.changes)
  {
    forall c | c in tx.changes
      ensures Remembered(m, tx.previous, c) && (c in tx.written <==> Flag(m, c) != c.available) {
      assert c in ChangesOf(tx.steps);
      var st :| st in tx.steps && st.change == c;
      var j :| 0 <= j < |tx.steps| && tx.steps[j] == st;
      assert Settled(m, tx, tx.steps[j]);
    }
    assert tx.steps[..tx.k] == tx.steps;
  }

  /**
   In every schedule a committing batch is the serial batch on the menu it commits to:
   no entry is refused there, exactly the named flags are set, and its answer and its
   audit list are exact for that menu.
   */
  lemma EveryBatchIsSerial(menu: Menu, events: seq<Event>, id: nat)
    requires var s := Play(Start(menu), events); id in s.txs && Finished(s.txs[id])
    ensures var s := Play(Start(menu), events);
      var tx := s.txs[id];
      && (forall c :: c in tx.changes ==> Refusal(s.menu, c).None? && (c.kind, c.id) in tx.previous)
      && Do(s, Commit(id)).menu == Update(s.menu, Elements(tx.changes))
      && Reports(s.menu, tx.changes, Answer(tx.changes, tx.previous))
  {
    PlayKeepsSound(Start(menu), events);
    var s := Play(Start(menu), events);
    AllSettled(s.menu, s.txs[id]);
    WrittenIsAll(s.menu, s.txs[id].changes, s.txs[id].written);
    AnswerReports(s.menu, s.txs[id].changes, s.txs[id].previous);
  }

  lemma {:induction false} FirstRefusalAt(m: Menu, steps: seq<LockStep>, k: nat, e: Error)
    requires k < |steps| && (forall j :: 0 <= j < k ==> Refusal(m, steps[j].change).None?)
    requires Refusal(m, steps[k].change) == Some(e)
    ensures FirstRefusal(m, steps) == Some(e)
    decreases k
  {
    if k > 0 {
      assert forall j :: 0 <= j < k - 1 ==> steps[1..][j] == steps[j + 1];
      FirstRefusalAt(m, steps[1..], k - 1, e);
    }
  }

  /** And a batch that fails gets the error the serial batch gets on the menu it fails on. */
  lemma EveryFailureIsSerial(menu: Menu, events: seq<Event>, id: nat)
    requires var s := Play(Start(menu), events); id in s.txs && s.txs[id].Batch? && TurnOf(s, id).Fail?
    ensures var s := Play(Start(menu), events); BatchRefused(s.menu, s.txs[id].changes, TurnOf(s, id).error)
  {
    PlayKeepsSound(Start(menu), events);
    FailureIsSerial(Play(Start(menu), events), id);
  }

  lemma FailureIsSerial(s: System, id: nat)
    requires id in s.txs && s.txs[id].Batch? && BatchOk(s.menu, s.txs[id]) && TurnOf(s, id).Fail?
    ensures BatchRefused(s.menu, s.txs[id].changes, TurnOf(s, id).error)
  {
    var tx := s.txs[id];
    if tx.phase == Planning {
      PlanningTurn(s, id);
    } else {
      match tx.phase {
        case AtRoot => RootTurn(s, id);
        case AtChild => ChildTurn(s, id);
        case AtFlag => FlagTurn(s, id);
      }
      PlanRefused(s.menu, tx, TurnOf(s, id).error);
    }
  }

  lemma PlanRefused(m: Menu, tx: Tx, e: Error)
    requires tx.Batch? && Applying(m, tx) && tx.k < |tx.steps| && Refusal(m, tx.steps[tx.k].change) == Some(e)
    ensures BatchRefused(m, tx.changes, e)
  {
    assert forall j :: 0 <= j < tx.k ==> Settled(m, tx, tx.steps[j]);
    FirstRefusalAt(m, tx.steps, tx.k, e);
    forall c | c in tx.changes ensures StepFor(m, c).Some? {
      assert c in ChangesOf(tx.steps);
      var st :| st in tx.steps && st.change == c;
      assert Planned(m, st);
    }
  }

  /** A batch waits only when it is finished or somebody else holds a row of the entry it is at. */
  lemma WaitsForOthers(menu: Menu, events: seq<Event>, id: nat)
    requires var s := Play(Start(menu), events); id in s.txs && s.txs[id].Batch? && TurnOf(s, id) == Wait
    ensures var s := Play(Start(menu), events);
      Finished(s.txs[id])
      || (s.txs[id].k < |s.txs[id].steps|
          && exists other, l :: other in s.txs && other != id && l in s.txs[other].held
                                && l in LocksFor(s.txs[id].steps[s.txs[id].k]))
  {
    PlayKeepsSound(Start(menu), events);
    var s := Play(Start(menu), events);
    var tx := s.txs[id];
    if tx.k < |tx.steps| {
      var ls := LocksFor(tx.steps[tx.k]);
      assert ls[0] in ls && ls[|ls| - 1] in ls;
    }
  }
}
