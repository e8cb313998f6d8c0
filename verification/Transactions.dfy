/**
 Concurrent catalog transactions. Each runs its command statement by statement
 at READ COMMITTED: a statement sees what is committed when it runs, row locks
 are held to the end, and writes become visible together at commit. Any number
 of transactions interleave in any way; any of them may abort or crash at any
 point. A check that fails, a unique violation and an insert that loses a race
 end a transaction.
 */
module Transactions {
  import opened Prelude
  import opened Ordering
  import opened Uuids
  import opened IdSets
  import opened Links
  import opened Locks
  import Availability

  /** The commands that touch the link tables or hold several row locks. Id lists are normalised. */
  datatype Job =
    | AttachItem(item: Uuid, group: Uuid)
    | AttachCategory(category: Uuid, group: Uuid)
    | Exclude(item: Uuid, group: Uuid)
    | ReplaceItem(item: Uuid, direct: set<Uuid>, excluded: set<Uuid>)
    | ReplaceCategory(category: Uuid, groups: set<Uuid>)
    | ReplaceAssignments(group: Uuid, items: set<Uuid>, categories: set<Uuid>)
    | MoveItem(item: Uuid, category: Uuid)
    | CreateCategory(category: Uuid)
    | CreateGroup(group: Uuid)
    | CreateItem(item: Uuid, category: Uuid)
    | RetireCategory(category: Uuid)
    | RetireGroup(group: Uuid)
    | RetireItem(item: Uuid)
    | SetAvailability(menu: Availability.Menu, plan: seq<Availability.LockStep>)
    | OneRow(row: Lock)

  /** The row a creation inserts or a retirement ends. */
  datatype RowWrite =
    | NoRow
    | NewCategory(category: Uuid)
    | NewGroup(group: Uuid)
    | NewItem(item: Uuid, category: Uuid)
    | EndCategory(category: Uuid)
    | EndGroup(group: Uuid)
    | EndItem(item: Uuid)

  /** One statement of a transaction, once it is known what it will be. */
  datatype Op =
    | Acquire(lock: Lock)
    | RemoveProvided(category: Uuid, group: Uuid)
    | AddProvided(category: Uuid, group: Uuid)
    | DropExclusions(category: Uuid, group: Uuid)
    | RemoveDirect(item: Uuid, group: Uuid)
    | AddDirect(item: Uuid, group: Uuid)
    | RemoveExclusion(item: Uuid, group: Uuid)
    | AddExclusion(item: Uuid, group: Uuid)
    | Recategorise(item: Uuid, category: Uuid)
    | DropOrphans(item: Uuid, category: Uuid)
    | WriteRow(change: RowWrite)

  /** The uncommitted writes of a transaction. */
  datatype Writes = Writes(
    addProvided: set<Link>, removeProvided: set<Link>,
    addDirect: set<Link>, removeDirect: set<Link>,
    addExcluded: set<Link>, removeExcluded: set<Link>,
    moved: map<Uuid, Uuid>,
    change: RowWrite)

  const NO_WRITES := Writes({}, {}, {}, {}, {}, {}, map[], NoRow)

  /** Where a transaction is between its reads; `Writing` is the last. */
  datatype Phase = Starting | RowLocked | SourceRead | FirstRead | Checking | Writing

  /**
   A running transaction: `todo` are the statements it is about to run, `source`
   the category it read, `first` and `second` the current sets it read.
   */
  datatype Tx = Tx(job: Job, phase: Phase, todo: seq<Op>, held: set<Lock>, writes: Writes,
                   source: Uuid, first: set<Uuid>, second: set<Uuid>)

  datatype System = System(db: Tables, txs: map<nat, Tx>)

  /** What kind of command a job is. */
  datatype Kind =
    | AttachesItem | AttachesCategory | Excludes | ReplacesItem | ReplacesCategory | ReplacesAssignments | MovesItem
    | CreatesCategory | CreatesGroup | CreatesItem | RetiresCategory | RetiresGroup | RetiresItem
    | SetsAvailability | LocksOneRow

  function KindOf(job: Job): Kind {
    match job
    case AttachItem(_, _) => AttachesItem
    case AttachCategory(_, _) => AttachesCategory
    case Exclude(_, _) => Excludes
    case ReplaceItem(_, _, _) => ReplacesItem
    case ReplaceCategory(_, _) => ReplacesCategory
    case ReplaceAssignments(_, _, _) => ReplacesAssignments
    case MoveItem(_, _) => MovesItem
    case CreateCategory(_) => CreatesCategory
    case CreateGroup(_) => CreatesGroup
    case CreateItem(_, _) => CreatesItem
    case RetireCategory(_) => RetiresCategory
    case RetireGroup(_) => RetiresGroup
    case RetireItem(_) => RetiresItem
    case SetAvailability(_, _) => SetsAvailability
    case OneRow(_) => LocksOneRow
  }

  // ---------- what a job does next ----------

  ghost function Acquires(ls: seq<Lock>): seq<Op> {
    seq(|ls|, i requires 0 <= i < |ls| => Acquire(ls[i]))
  }

  ghost function GroupLocks(gs: set<Uuid>): seq<Lock> {
    var ids := Listing(gs); seq(|ids|, i requires 0 <= i < |ids| => GroupLock(ids[i]))
  }

  ghost function ItemLocks(s: set<Uuid>): seq<Lock> {
    var ids := Listing(s); seq(|ids|, i requires 0 <= i < |ids| => ItemLock(ids[i]))
  }

  ghost function CategoryLocks(s: set<Uuid>): seq<Lock> {
    var ids := Listing(s); seq(|ids|, i requires 0 <= i < |ids| => CategoryLock(ids[i]))
  }

  /** The category loop of `ReplaceCategoryModifierGroups`. */
  ghost function RemovalsFrom(category: Uuid, gs: seq<Uuid>): seq<Op> {
    if gs == [] then []
    else [RemoveProvided(category, gs[0]), DropExclusions(category, gs[0])] + RemovalsFrom(category, gs[1..])
  }

  /** The category loop of `applyGroupAssignmentChanges`. */
  ghost function RemovalsOf(group: Uuid, cs: seq<Uuid>): seq<Op> {
    if cs == [] then []
    else [RemoveProvided(cs[0], group), DropExclusions(cs[0], group)] + RemovalsOf(group, cs[1..])
  }

  ghost function Each(ids: seq<Uuid>, op: Uuid -> Op): seq<Op> {
    seq(|ids|, i requires 0 <= i < |ids| => op(ids[i]))
  }

  /** The writes of `ReplaceItemModifierGroups`. */
  ghost function ItemWrites(i: Uuid, curD: set<Uuid>, curE: set<Uuid>, d: set<Uuid>, e: set<Uuid>): seq<Op> {
    Each(Listing(curD - d), g => RemoveDirect(i, g)) + Each(Listing(curE - e), g => RemoveExclusion(i, g))
    + Each(Listing(d - curD), g => AddDirect(i, g)) + Each(Listing(e - curE), g => AddExclusion(i, g))
  }

  /** The writes of `ReplaceCategoryModifierGroups`. */
  ghost function CategoryWrites(c: Uuid, current: set<Uuid>, gs: set<Uuid>): seq<Op> {
    RemovalsFrom(c, Listing(current - gs)) + Each(Listing(gs - current), g => AddProvided(c, g))
  }

  /** The writes of `applyGroupAssignmentChanges`. */
  ghost function AssignmentWrites(g: Uuid, curItems: set<Uuid>, curCats: set<Uuid>, its: set<Uuid>,
                                  cs: set<Uuid>): seq<Op> {
    RemovalsOf(g, Listing(curCats - cs)) + Each(Listing(cs - curCats), c => AddProvided(c, g))
    + Each(Listing(curItems - its), i => RemoveDirect(i, g)) + Each(Listing(its - curItems), i => AddDirect(i, g))
  }

  // ---------- between statements ----------

  /** The rows a command locks first: the ones it can name from its request. */
  ghost function FirstLocks(job: Job): seq<Lock> {
    match job
    case AttachItem(i, g) => [ItemLock(i), GroupLock(g)]
    case AttachCategory(c, g) => [CategoryLock(c), GroupLock(g)]
    case Exclude(i, _) => [ItemLock(i)]
    case ReplaceItem(i, _, _) => [ItemLock(i)]
    case ReplaceCategory(c, _) => [CategoryLock(c)]
    case ReplaceAssignments(g, _, _) => [GroupLock(g)]
    case MoveItem(i, _) => [ItemLock(i)]
    case CreateCategory(_) => []
    case CreateGroup(_) => []
    case CreateItem(_, c) => [CategoryLock(c)]
    case RetireCategory(c) => [CategoryLock(c)]
    case RetireGroup(g) => [GroupLock(g)]
    case RetireItem(i) => [ItemLock(i)]
    case SetAvailability(_, plan) => Availability.Requests(plan)
    case OneRow(row) => [row]
  }

  /** Whether the command reads and locks more before its last checks. */
  predicate ReadsMore(job: Job) {
    job.Exclude? || job.ReplaceItem? || job.ReplaceCategory? || job.ReplaceAssignments? || job.MoveItem?
  }

  /** A read under the locks held so far, and the locks it leads to; `None` when a check fails. */
  ghost function Read(db: Tables, tx: Tx): Option<Tx> {
    match (tx.job, tx.phase)
    case (Exclude(i, g), RowLocked) =>
      if ActiveItem(db, i)
      then Some(tx.(phase := Checking, source := db.items[i].category, todo := [Acquire(GroupLock(g))]))
      else None
    case (ReplaceItem(i, _, _), RowLocked) =>
      if ActiveItem(db, i) then Some(tx.(phase := SourceRead, source := db.items[i].category)) else None
    case (ReplaceItem(i, _, _), SourceRead) => Some(tx.(phase := FirstRead, first := GroupsOf(db.direct, i)))
    case (ReplaceItem(i, d, e), FirstRead) =>
      var current := GroupsOf(db.excluded, i);
      Some(tx.(phase := Checking, second := current, todo := Acquires(GroupLocks(tx.first + current + d + e))))
    case (ReplaceCategory(c, gs), RowLocked) =>
      var current := GroupsOf(db.provided, c);
      if ActiveCategory(db, c)
      then Some(tx.(phase := Checking, first := current, todo := Acquires(GroupLocks(current + gs))))
      else None
    case (ReplaceAssignments(g, _, _), RowLocked) =>
      if ActiveGroup(db, g) then Some(tx.(phase := FirstRead, first := OwnersOf(db.direct, g))) else None
    case (ReplaceAssignments(g, its, cs), FirstRead) =>
      var current := OwnersOf(db.provided, g);
      Some(tx.(phase := Checking, second := current,
               todo := Acquires(ItemLocks(tx.first + its) + CategoryLocks(current + cs))))
    case (MoveItem(i, c), RowLocked) =>
      if !ActiveItem(db, i) then None
      else if db.items[i].category == c then Some(tx.(phase := Writing))
      else Some(tx.(phase := Checking, source := db.items[i].category,
                    todo := Acquires(CategoryLocks({db.items[i].category, c}))))
    case (_, _) => None
  }

  /** The last checks, and the writes they let through; `None` when a check fails. */
  ghost function Decide(db: Tables, tx: Tx): Option<seq<Op>> {
    match tx.job
    case AttachItem(i, g) => if ActiveItem(db, i) && ActiveGroup(db, g) then Some([AddDirect(i, g)]) else None
    case AttachCategory(c, g) => if ActiveCategory(db, c) && ActiveGroup(db, g) then Some([AddProvided(c, g)]) else None
    case Exclude(i, g) =>
      if ActiveGroup(db, g) && Link(tx.source, g) in db.provided then Some([AddExclusion(i, g)]) else None
    case ReplaceItem(i, d, e) =>
      if GroupSetError(db, tx.first + tx.second, d + e).None? && e <= GroupsOf(db.provided, tx.source)
      then Some(ItemWrites(i, tx.first, tx.second, d, e)) else None
    case ReplaceCategory(c, gs) =>
      if GroupSetError(db, tx.first, gs).None? then Some(CategoryWrites(c, tx.first, gs)) else None
    case ReplaceAssignments(g, its, cs) =>
      if OwnersRefusal(db, g, tx.first, tx.second, its, cs).None?
      then Some(AssignmentWrites(g, tx.first, tx.second, its, cs))
      else None
    case MoveItem(i, c) =>
      if tx.source in db.categories && ActiveCategory(db, c)
      then Some([Recategorise(i, c), DropOrphans(i, c)])
      else None
    case CreateCategory(c) => Some([WriteRow(NewCategory(c))])
    case CreateGroup(g) => Some([WriteRow(NewGroup(g))])
    case CreateItem(i, c) => if ActiveCategory(db, c) then Some([WriteRow(NewItem(i, c))]) else None
    case RetireCategory(c) => if ActiveCategory(db, c) then Some([WriteRow(EndCategory(c))]) else None
    case RetireGroup(g) => if ActiveGroup(db, g) then Some([WriteRow(EndGroup(g))]) else None
    case RetireItem(i) => if ActiveItem(db, i) then Some([WriteRow(EndItem(i))]) else None
    case SetAvailability(_, _) => Some([])
    case OneRow(_) => Some([])
  }

  /** What the transaction does when it has no statement left, from what is committed now; `None` when a check fails. */
  ghost function Next(db: Tables, tx: Tx): Option<Tx>
    requires tx.phase != Writing
  {
    match tx.phase
    case Starting =>
      Some(tx.(phase := if ReadsMore(tx.job) then RowLocked else Checking, todo := Acquires(FirstLocks(tx.job))))
    case Checking =>
      var writes := Decide(db, tx);
      if writes.Some? then Some(tx.(phase := Writing, todo := writes.value)) else None
    case _ => Read(db, tx)
  }

  // ---------- statements and commit ----------

  /** The category of an item as its own transaction sees it. */
  ghost function CategoryOf(db: Tables, w: Writes, item: Uuid): Uuid
    requires item in db.items
  {
    if item in w.moved then w.moved[item] else db.items[item].category
  }

  /** A write statement, run by a transaction with writes `w`. */
  ghost function Write(db: Tables, w: Writes, op: Op): Writes {
    match op
    case Acquire(_) => w
    case RemoveProvided(c, g) => w.(removeProvided := w.removeProvided + {Link(c, g)})
    case AddProvided(c, g) => w.(addProvided := w.addProvided + {Link(c, g)})
    case DropExclusions(c, g) =>
      w.(removeExcluded := w.removeExcluded +
           (set l | l in db.excluded && l.group == g && l.owner in db.items && CategoryOf(db, w, l.owner) == c))
    case RemoveDirect(i, g) => w.(removeDirect := w.removeDirect + {Link(i, g)})
    case AddDirect(i, g) => w.(addDirect := w.addDirect + {Link(i, g)})
    case RemoveExclusion(i, g) => w.(removeExcluded := w.removeExcluded + {Link(i, g)})
    case AddExclusion(i, g) => w.(addExcluded := w.addExcluded + {Link(i, g)})
    case Recategorise(i, c) => w.(moved := w.moved[i := c])
    case DropOrphans(i, c) =>
      w.(removeExcluded :=
         w.removeExcluded + (set l | l in db.excluded && l.owner == i && Link(c, l.group) !in db.provided))
    case WriteRow(change) => w.(change := change)
  }

  /** The insert violates a unique index: the row is there already. */
  ghost predicate Duplicate(db: Tables, op: Op) {
    match op
    case AddProvided(c, g) => Link(c, g) in db.provided
    case AddDirect(i, g) => Link(i, g) in db.direct
    case AddExclusion(i, g) => Link(i, g) in db.excluded
    case WriteRow(change) => Taken(db, change)
    case _ => false
  }

  /**
   The inserted row's id is in use. An insert waits for an uncommitted one of the same id, so this is
   asked again at commit.
   */
  ghost predicate Taken(db: Tables, change: RowWrite) {
    match change
    case NewCategory(c) => c in db.categories
    case NewGroup(g) => g in db.groups
    case NewItem(i, _) => i in db.items
    case _ => false
  }

  ghost function NewCategories(rows: map<Uuid, bool>, change: RowWrite): map<Uuid, bool> {
    match change
    case NewCategory(c) => if c in rows then rows else rows[c := false]
    case EndCategory(c) => rows[c := true]
    case _ => rows
  }

  ghost function NewGroups(rows: map<Uuid, bool>, change: RowWrite): map<Uuid, bool> {
    match change
    case NewGroup(g) => if g in rows then rows else rows[g := false]
    case EndGroup(g) => rows[g := true]
    case _ => rows
  }

  ghost function NewItems(rows: map<Uuid, ItemRow>, change: RowWrite): map<Uuid, ItemRow> {
    match change
    case NewItem(i, c) => if i in rows then rows else rows[i := ItemRow(c, false)]
    case EndItem(i) => if i in rows then rows[i := rows[i].(retired := true)] else rows
    case _ => rows
  }

  ghost function MovedItems(rows: map<Uuid, ItemRow>, moved: map<Uuid, Uuid>): map<Uuid, ItemRow> {
    map i | i in rows :: if i in moved then rows[i].(category := moved[i]) else rows[i]
  }

  /** The committed tables once the writes are installed. */
  ghost function Install(db: Tables, w: Writes): Tables {
    db.(categories := NewCategories(db.categories, w.change),
        groups := NewGroups(db.groups, w.change),
        items := NewItems(MovedItems(db.items, w.moved), w.change),
        provided := (db.provided - w.removeProvided) + w.addProvided,
        direct := (db.direct - w.removeDirect) + w.addDirect,
        excluded := (db.excluded - w.removeExcluded) + w.addExcluded)
  }

  // ---------- the system ----------

  datatype Event =
    | Begin(id: nat, job: Job, request: int)
    | Step(id: nat)
    | Commit(id: nat)
    | Abort(id: nat)

  ghost predicate Free(s: System, id: nat, l: Lock) {
    forall other :: other in s.txs && other != id ==> l !in s.txs[other].held
  }

  /** The lock the transaction asks for next, if that is what it does next. */
  ghost function Wanted(tx: Tx): Option<Lock> {
    if tx.todo != [] && tx.todo[0].Acquire? then Some(tx.todo[0].lock) else None
  }

  ghost predicate Blocked(s: System, id: nat) {
    id in s.txs && Wanted(s.txs[id]).Some? && !Free(s, id, Wanted(s.txs[id]).value)
  }

  /**
   A job the code can start: the two lists of an item are disjoint, an
   availability plan is a plan, and a single row is a row.
   */
  ghost predicate Startable(job: Job) {
    && (job.ReplaceItem? ==> job.direct !! job.excluded)
    && (job.OneRow? ==> !job.row.RequestLock?)
    && (job.SetAvailability? ==> Ascending(Availability.StepKey, job.plan)
                                 && forall st :: st in job.plan ==> Availability.Planned(job.menu, st))
  }

  ghost function NewTx(job: Job, request: int): Tx {
    Tx(job, Starting, [Acquire(RequestLock(request))], {}, NO_WRITES, NIL, {}, {})
  }

  /** One statement of one transaction. */
  ghost function StepTx(s: System, id: nat): System
    requires id in s.txs
  {
    var tx := s.txs[id];
    if tx.todo != [] then
      if tx.todo[0].Acquire? then
        if Blocked(s, id) then s
        else s.(txs := s.txs[id := tx.(todo := tx.todo[1..], held := tx.held + {tx.todo[0].lock})])
      else if Duplicate(s.db, tx.todo[0]) then s.(txs := s.txs - {id})
      else s.(txs := s.txs[id := tx.(todo := tx.todo[1..], writes := Write(s.db, tx.writes, tx.todo[0]))])
    else if tx.phase == Writing then s
    else match Next(s.db, tx)
      case Some(tx') => s.(txs := s.txs[id := tx'])
      case None => s.(txs := s.txs - {id})
  }

  /** One event of a schedule; an event that is not possible changes nothing. */
  ghost function Do(s: System, e: Event): System {
    match e
    case Begin(id, job, request) =>
      if id in s.txs || !Startable(job) then s else s.(txs := s.txs[id := NewTx(job, request)])
    case Step(id) => if id in s.txs then StepTx(s, id) else s
    case Commit(id) =>
      if id in s.txs && s.txs[id].phase == Writing && s.txs[id].todo == [] then
        if Taken(s.db, s.txs[id].writes.change) then s.(txs := s.txs - {id})
        else System(Install(s.db, s.txs[id].writes), s.txs - {id})
      else s
    case Abort(id) => s.(txs := s.txs - {id})
  }

  /** The state a schedule of events reaches. */
  ghost function Play(s: System, events: seq<Event>): System
    decreases |events|
  {
    if events == [] then s else Play(Do(s, events[0]), events[1..])
  }

  ghost function Start(db: Tables): System { System(db, map[]) }

  /** Every command that begins in the schedule is of one of these kinds. */
  ghost predicate OnlyKinds(kinds: set<Kind>, events: seq<Event>) {
    forall e :: e in events && e.Begin? ==> KindOf(e.job) in kinds
  }

  /** Some schedule of commands of these kinds leads from one state to the other. */
  ghost predicate Reaches(kinds: set<Kind>, s: System, s': System) {
    exists events :: OnlyKinds(kinds, events) && Play(s, events) == s'
  }

  lemma {:induction false} PlayConcat(s: System, a: seq<Event>, b: seq<Event>)
    ensures Play(s, a + b) == Play(Play(s, a), b)
    decreases |a|
  {
    if a == [] {
      assert a + b == b;
    } else {
      assert (a + b)[1..] == a[1..] + b;
      PlayConcat(Do(s, a[0]), a[1..], b);
    }
  }

  lemma ReachesTransitive(kinds: set<Kind>, a: System, b: System, c: System)
    requires Reaches(kinds, a, b) && Reaches(kinds, b, c)
    ensures Reaches(kinds, a, c)
  {
    var p :| OnlyKinds(kinds, p) && Play(a, p) == b;
    var q :| OnlyKinds(kinds, q) && Play(b, q) == c;
    PlayConcat(a, p, q);
    assert OnlyKinds(kinds, p + q);
  }

  lemma ReachesMore(kinds: set<Kind>, a: System, b: System, e: Event)
    requires Reaches(kinds, a, b) && (e.Begin? ==> KindOf(e.job) in kinds)
    ensures Reaches(kinds, a, Do(b, e))
  {
    assert Play(Do(b, e), []) == Do(b, e);
    assert [e][1..] == [];
    assert OnlyKinds(kinds, [e]) && Play(b, [e]) == Do(b, e);
    ReachesTransitive(kinds, a, b, Do(b, e));
  }
}
