/**
 Any number of staff-administration requests at once, statement by statement at
 READ COMMITTED. The routes of all but the bootstrap are for Managers: the request
 reads its session and then its roles before its handler begins. The transactions
 run under two advisory locks: the enabled-Manager lock and the bootstrap lock.
 Creating staff takes neither. A request may stop anywhere.
 */
module StaffRuns {
  import opened Prelude
  import opened Uuids
  import opened Staff

  /** Where a request is; it remembers what it read. */
  datatype Phase =
    | Arriving
    | SessionRead
    | Starting
    | Locked
    | TargetRead(enabled: bool)
    | RolesRead(enabled: bool, current: set<Role>)
    | Allowed
    | Adding(roles: set<Role>, next: nat)
    | Done(row: Row)

  /** A request and the member whose session it came with; a bootstrap needs none. */
  datatype Tx = Tx(cmd: Command, actor: Uuid, phase: Phase)

  /** The committed table, the running transactions, and how many bootstraps have committed. */
  datatype System = System(staff: Table, txs: map<nat, Tx>, bootstraps: nat)

  datatype Event =
    | Begin(id: nat, cmd: Command, actor: Uuid)
    | Step(id: nat)
    | Commit(id: nat)
    | Abort(id: nat)

  predicate TakesManagerLock(cmd: Command) {
    cmd.SetEnabled? || cmd.SetRoles?
  }

  /** The request has passed the role check of its route. */
  predicate Admitted(tx: Tx) {
    tx.phase != Arriving && tx.phase != SessionRead
  }

  /** The transaction is past its first statement and holds its advisory lock. */
  predicate Holds(tx: Tx, managerLock: bool) {
    Admitted(tx) && tx.phase != Starting && if managerLock then TakesManagerLock(tx.cmd) else tx.cmd.Bootstrap?
  }

  ghost predicate LockFree(s: System, id: nat, managerLock: bool) {
    forall other :: other in s.txs && other != id ==> !Holds(s.txs[other], managerLock)
  }

  ghost function At(s: System, id: nat, p: Phase): System
    requires id in s.txs
  {
    s.(txs := s.txs[id := s.txs[id].(phase := p)])
  }

  ghost function Ended(s: System, id: nat): System {
    s.(txs := s.txs - {id})
  }

  /** One statement, reading what is committed now. */
  ghost function StepTx(s: System, id: nat): System
    requires id in s.txs
  {
    var t := s.staff;
    var actor := s.txs[id].actor;
    match (s.txs[id].cmd, s.txs[id].phase)
    // the session and the enabled flag of its member, then the roles
    case (_, Arriving) => if actor in t && t[actor].enabled then At(s, id, SessionRead) else Ended(s, id)
    case (_, SessionRead) => if actor in t && Manager in t[actor].roles then At(s, id, Starting) else Ended(s, id)
    // disable or enable
    case (SetEnabled(_, enabled, expected), Starting) =>
      if enabled == expected then Ended(s, id) else if LockFree(s, id, true) then At(s, id, Locked) else s
    case (SetEnabled(x, _, expected), Locked) =>
      if x !in t || t[x].enabled != expected then Ended(s, id) else At(s, id, TargetRead(t[x].enabled))
    case (SetEnabled(x, _, _), TargetRead(e)) => if x in t then At(s, id, RolesRead(e, t[x].roles)) else Ended(s, id)
    case (SetEnabled(_, enabled, _), RolesRead(_, current)) =>
      if !enabled && Manager in current && |ActiveManagers(t)| <= 1 then Ended(s, id) else At(s, id, Allowed)
    case (SetEnabled(x, enabled, _), Allowed) =>
      if x in t then At(s, id, Done(t[x].(enabled := enabled))) else Ended(s, id)
    // replace roles: clear, then one insert a role
    case (SetRoles(_, _), Starting) => if LockFree(s, id, true) then At(s, id, Locked) else s
    case (SetRoles(x, _), Locked) => if x in t then At(s, id, TargetRead(t[x].enabled)) else Ended(s, id)
    case (SetRoles(x, _), TargetRead(e)) => if x in t then At(s, id, RolesRead(e, t[x].roles)) else Ended(s, id)
    case (SetRoles(_, roles), RolesRead(e, current)) =>
      if NoManagerRemains(t, e, current, Elements(roles)) then Ended(s, id) else At(s, id, Allowed)
    case (SetRoles(_, _), Allowed) => At(s, id, Adding({}, 0))
    case (SetRoles(x, roles), Adding(so, n)) =>
      if n < |roles| then At(s, id, Adding(so + {roles[n]}, n + 1))
      else if x in t then At(s, id, Done(t[x].(roles := so))) else Ended(s, id)
    // create: no lock, no check
    case (Create(_, _, _), Starting) => At(s, id, Adding({}, 0))
    case (Create(_, enabled, roles), Adding(so, n)) =>
      if n < |roles| then At(s, id, Adding(so + {roles[n]}, n + 1)) else At(s, id, Done(Row(enabled, so)))
    // bootstrap: its own lock, then the count
    case (Bootstrap(_), Starting) => if LockFree(s, id, false) then At(s, id, Locked) else s
    case (Bootstrap(_), Locked) => if |AllManagers(t)| > 0 then Ended(s, id) else At(s, id, Allowed)
    case (Bootstrap(_), Allowed) => At(s, id, Done(Row(true, {Manager})))
    case (_, _) => s
  }

  ghost function RowOf(cmd: Command): Uuid {
    match cmd
    case SetEnabled(x, _, _) => x
    case SetRoles(x, _) => x
    case Create(x, _, _) => x
    case Bootstrap(x) => x
  }

  /** Commit writes the one row; inserting an id that exists by now fails. */
  ghost function CommitTx(s: System, id: nat): System
    requires id in s.txs && s.txs[id].phase.Done?
  {
    var tx := s.txs[id];
    if !TakesManagerLock(tx.cmd) && RowOf(tx.cmd) in s.staff then Ended(s, id)
    else System(s.staff[RowOf(tx.cmd) := tx.phase.row], s.txs - {id}, s.bootstraps + if tx.cmd.Bootstrap? then 1 else 0)
  }

  ghost function Do(s: System, e: Event): System {
    match e
    case Begin(id, cmd, actor) =>
      if id in s.txs then s
      else s.(txs := s.txs[id := Tx(cmd, actor, if cmd.Bootstrap? then Starting else Arriving)])
    case Step(id) => if id in s.txs then StepTx(s, id) else s
    case Commit(id) => if id in s.txs && s.txs[id].phase.Done? then CommitTx(s, id) else s
    case Abort(id) => Ended(s, id)
  }

  ghost function Play(s: System, events: seq<Event>): System
    decreases |events|
  {
    if events == [] then s else Play(Do(s, events[0]), events[1..])
  }

  ghost function Start(staff: Table): System { System(staff, map[], 0) }

  // ---------- what a transaction knows ----------

  /** There are Managers and all of them are disabled. */
  ghost predicate LockedOut(t: Table) {
    AllManagers(t) != {} && ActiveManagers(t) == {}
  }

  /** Whoever is past the role check came while somebody is an active Manager, although it is two reads. */
  ghost predicate UnderManager(t: Table, tx: Tx) {
    && (tx.cmd.Bootstrap? ==> Admitted(tx))
    && (tx.phase == SessionRead && LockedOut(t) ==> tx.actor in t && t[tx.actor].enabled)
    && (Admitted(tx) && !tx.cmd.Bootstrap? ==> ActiveManagers(t) != {})
  }

  /** The checks of a command have passed and still hold. */
  ghost predicate Passed(t: Table, cmd: Command) {
    if cmd.Bootstrap? then AllManagers(t) == {} else Refusal(t, cmd).None?
  }

  ghost predicate Known(t: Table, tx: Tx) {
    match (tx.cmd, tx.phase)
    case (_, Arriving) => true
    case (_, SessionRead) => true
    case (_, Starting) => true
    case (SetEnabled(_, enabled, expected), Locked) => enabled != expected
    case (SetEnabled(x, enabled, expected), TargetRead(e)) =>
      enabled != expected && x in t && t[x].enabled == e == expected
    case (SetEnabled(x, enabled, expected), RolesRead(e, current)) =>
      enabled != expected && x in t && t[x] == Row(e, current) && e == expected
    case (SetRoles(_, _), Locked) => true
    case (SetRoles(x, _), TargetRead(e)) => x in t && t[x].enabled == e
    case (SetRoles(x, _), RolesRead(e, current)) => x in t && t[x] == Row(e, current)
    case (SetRoles(_, roles), Adding(so, n)) => Passed(t, tx.cmd) && n <= |roles| && so == Elements(roles[..n])
    case (Create(_, _, roles), Adding(so, n)) => n <= |roles| && so == Elements(roles[..n])
    case (Create(_, enabled, roles), Done(row)) => row == Row(enabled, Elements(roles))
    case (Create(_, _, _), _) => false
    case (Bootstrap(_), Locked) => true
    case (_, Allowed) => Passed(t, tx.cmd)
    case (_, Done(row)) => Passed(t, tx.cmd) && row == Changed(t, tx.cmd)[RowOf(tx.cmd)]
    case (_, _) => false
  }

  ghost predicate TxOk(t: Table, tx: Tx) {
    Known(t, tx) && UnderManager(t, tx)
  }

  /** The advisory locks are exclusive. */
  ghost predicate OneHolder(txs: map<nat, Tx>) {
    forall a, b, managerLock :: a in txs && b in txs && a != b ==>
      !(Holds(txs[a], managerLock) && Holds(txs[b], managerLock))
  }

  ghost predicate Sound(s: System) {
    && OneHolder(s.txs)
    && (s.bootstraps <= 1)
    && (s.bootstraps > 0 ==> ActiveManagers(s.staff) != {})
    && forall id :: id in s.txs ==> TxOk(s.staff, s.txs[id])
  }

  lemma AddedOne(roles: seq<Role>, n: nat)
    requires n < |roles|
    ensures Elements(roles[..n + 1]) == Elements(roles[..n]) + {roles[n]}
  {
    assert roles[..n + 1] == roles[..n] + [roles[n]];
  }

  // ---------- statements ----------

  lemma StepKeepsKnown(s: System, id: nat)
    requires Sound(s) && id in s.txs
    ensures id in StepTx(s, id).txs ==> Known(s.staff, StepTx(s, id).txs[id])
  {
    var tx := s.txs[id];
    assert TxOk(s.staff, tx);
    match (tx.cmd, tx.phase) {
      case (SetRoles(_, roles), Adding(_, n)) =>
        if n < |roles| { AddedOne(roles, n); } else { assert roles[..n] == roles; }
      case (Create(_, _, roles), Adding(_, n)) =>
        if n < |roles| { AddedOne(roles, n); } else { assert roles[..n] == roles; }
      case (Bootstrap(_), Locked) =>
        if |AllManagers(s.staff)| == 0 { assert AllManagers(s.staff) == {}; }
      case (_, _) =>
    }
  }

  /**
   While every Manager is disabled nothing commits, so the two reads of the role check
   see one table, in which nobody passes both. At any other time, that the second read
   finds a Manager means that there is an active one.
   */
  lemma StepKeepsUnderManager(s: System, id: nat)
    requires Sound(s) && id in s.txs
    ensures id in StepTx(s, id).txs ==> UnderManager(s.staff, StepTx(s, id).txs[id])
  {
    var tx, t := s.txs[id], s.staff;
    assert TxOk(t, tx);
    if tx.phase == SessionRead && tx.actor in t && Manager in t[tx.actor].roles {
      assert tx.actor in AllManagers(t);
      assert t[tx.actor].enabled ==> tx.actor in ActiveManagers(t);
    }
  }

  /** A step moves one transaction, and takes a lock only when no other one has it. */
  lemma StepMovesOne(s: System, id: nat)
    requires id in s.txs
    ensures var s' := StepTx(s, id);
      && s'.staff == s.staff && s'.bootstraps == s.bootstraps
      && (s'.txs == s.txs - {id} || (id in s'.txs && s'.txs == s.txs[id := s'.txs[id]]))
      && forall m :: id in s'.txs && Holds(s'.txs[id], m) ==> Holds(s.txs[id], m) || LockFree(s, id, m)
  {
    assert s.txs == s.txs[id := s.txs[id]];
  }

  lemma StepKeepsSound(s: System, id: nat)
    requires Sound(s) && id in s.txs
    ensures Sound(StepTx(s, id))
  {
    StepKeepsKnown(s, id);
    StepKeepsUnderManager(s, id);
    StepMovesOne(s, id);
  }

  // ---------- commits ----------

  /** Inserting a row cannot make an allowed change of another one refusable. */
  lemma InsertKeepsRefusal(t: Table, id: Uuid, row: Row, cmd: Command)
    requires TakesManagerLock(cmd) && id !in t && Refusal(t, cmd).None?
    ensures Refusal(t[id := row], cmd).None?
  {
    ManagersAfter(t, id, row);
    assert id !in ActiveManagers(t);
    SubsetCardinality(ActiveManagers(t), ActiveManagers(t[id := row]));
  }

  /** What a transaction under the Manager lock knows survives the insertion of a row. */
  lemma InsertKeepsLocked(t: Table, id: Uuid, row: Row, tx: Tx)
    requires TakesManagerLock(tx.cmd) && id !in t && Known(t, tx)
    ensures Known(t[id := row], tx)
  {
    if Refusal(t, tx.cmd).None? { InsertKeepsRefusal(t, id, row, tx.cmd); }
  }

  /** A commit leaves the table as it was, or with an active Manager. */
  lemma CommitLeavesManager(s: System, id: nat)
    requires Sound(s) && id in s.txs && s.txs[id].phase.Done?
    ensures ActiveManagers(s.staff) != {} || CommitTx(s, id).staff != s.staff ==>
      ActiveManagers(CommitTx(s, id).staff) != {}
    ensures CommitTx(s, id).bootstraps > s.bootstraps ==> ActiveManagers(CommitTx(s, id).staff) != {}
  {
    CommitIsSerial(s, id);
    assert TxOk(s.staff, s.txs[id]);
    var cmd := s.txs[id].cmd;
    if ActiveManagers(s.staff) != {} { CommandKeepsManager(s.staff, cmd); }
    if cmd.Bootstrap? { ManagersAfter(s.staff, cmd.id, Row(true, {Manager})); }
  }

  /**
   A commit is the command itself, run in one go on what is committed at that
   moment: what the transaction read under its lock still holds, and a bootstrap
   that counted no Manager still finds none.
   */
  lemma CommitIsSerial(s: System, id: nat)
    requires Sound(s) && id in s.txs && s.txs[id].phase.Done?
    ensures CommitTx(s, id).staff == After(s.staff, s.txs[id].cmd)
  {
    assert TxOk(s.staff, s.txs[id]);
  }

  /** A bootstrap that has found no Manager. */
  ghost predicate HasCounted(tx: Tx) {
    tx.cmd.Bootstrap? && (tx.phase.Allowed? || tx.phase.Done?)
  }

  /** Nobody past the role check runs beside a bootstrap past its count. */
  lemma NotBoth(s: System, a: nat, b: nat)
    requires Sound(s) && a in s.txs && b in s.txs && HasCounted(s.txs[b])
    ensures AllManagers(s.staff) == {}
    ensures Admitted(s.txs[a]) ==> s.txs[a].cmd.Bootstrap?
  {
    assert TxOk(s.staff, s.txs[b]);
    assert ActiveManagers(s.staff) <= AllManagers(s.staff);
    assert TxOk(s.staff, s.txs[a]);
  }

  lemma CommitKeepsOther(s: System, id: nat, other: nat)
    requires Sound(s) && id in s.txs && s.txs[id].phase.Done? && other in s.txs && other != id
    ensures TxOk(CommitTx(s, id).staff, s.txs[other])
  {
    var tx, o := s.txs[id], s.txs[other];
    assert TxOk(s.staff, o);
    CommitLeavesManager(s, id);
    CommitKeepsKnown(s, id, other);
  }

  lemma CommitKeepsKnown(s: System, id: nat, other: nat)
    requires Sound(s) && id in s.txs && s.txs[id].phase.Done? && other in s.txs && other != id
    ensures Known(CommitTx(s, id).staff, s.txs[other])
  {
    var tx, o := s.txs[id], s.txs[other];
    assert TxOk(s.staff, o);
    assert Holds(o, true) ==> !Holds(tx, true);
    assert Holds(o, false) ==> !Holds(tx, false);
    if TakesManagerLock(o.cmd) && Holds(o, true) && RowOf(tx.cmd) !in s.staff {
      InsertKeepsLocked(s.staff, RowOf(tx.cmd), tx.phase.row, o);
    }
    if HasCounted(o) { NotBoth(s, id, other); }
  }

  lemma CommitKeepsSound(s: System, id: nat)
    requires Sound(s) && id in s.txs && s.txs[id].phase.Done?
    ensures Sound(CommitTx(s, id))
  {
    CommitLeavesManager(s, id);
    assert TxOk(s.staff, s.txs[id]);
    assert ActiveManagers(s.staff) <= AllManagers(s.staff);
    var s' := CommitTx(s, id);
    forall other | other in s'.txs ensures TxOk(s'.staff, s'.txs[other]) {
      CommitKeepsOther(s, id, other);
    }
  }

  // ---------- runs ----------

  lemma DoKeepsSound(s: System, e: Event)
    requires Sound(s)
    ensures Sound(Do(s, e))
    ensures ActiveManagers(s.staff) != {} ==> ActiveManagers(Do(s, e).staff) != {}
  {
    match e {
      case Begin(id, cmd, actor) =>
      case Step(id) => if id in s.txs { StepKeepsSound(s, id); StepMovesOne(s, id); }
      case Commit(id) =>
        if id in s.txs && s.txs[id].phase.Done? {
          CommitKeepsSound(s, id);
          CommitLeavesManager(s, id);
        }
      case Abort(id) =>
    }
  }

  lemma {:induction false} PlayKeepsSound(s: System, events: seq<Event>)
    requires Sound(s)
    ensures Sound(Play(s, events))
    ensures ActiveManagers(s.staff) != {} ==> ActiveManagers(Play(s, events).staff) != {}
    decreases |events|
  {
    if events != [] {
      DoKeepsSound(s, events[0]);
      PlayKeepsSound(Do(s, events[0]), events[1..]);
    }
  }

  lemma {:induction false} PlayConcat(s: System, a: seq<Event>, b: seq<Event>)
    ensures Play(s, a + b) == Play(Play(s, a), b)
    decreases |a|
  {
    if a == [] {
      assert a + b == b;
    } else {
      assert (a + b)[1..] == a[1..] + b;
      PlayConcat(Do(s, a[0]), a[1..], b);
    }
  }

  /**
   Once a committed state has an active Manager, every later committed state has
   one, whatever disables, role changes, creations, bootstraps and crashes follow.
   */
  lemma ManagerForEver(staff: Table, before: seq<Event>, after: seq<Event>)
    requires ActiveManagers(Play(Start(staff), before).staff) != {}
    ensures ActiveManagers(Play(Start(staff), before + after).staff) != {}
  {
    PlayConcat(Start(staff), before, after);
    PlayKeepsSound(Start(staff), before);
    PlayKeepsSound(Play(Start(staff), before), after);
  }

  /** In any run at most one bootstrap ever succeeds. */
  lemma BootstrapOnce(staff: Table, events: seq<Event>)
    ensures Play(Start(staff), events).bootstraps <= 1
  {
    PlayKeepsSound(Start(staff), events);
  }

  /**
   Every committed change, bootstraps included, is the one the command makes when it
   runs alone on the state it commits to.
   */
  lemma EveryCommitIsSerial(staff: Table, events: seq<Event>, id: nat)
    requires var s := Play(Start(staff), events); id in s.txs && s.txs[id].phase.Done?
    ensures var s := Play(Start(staff), events); Do(s, Commit(id)).staff == After(s.staff, s.txs[id].cmd)
  {
    PlayKeepsSound(Start(staff), events);
    CommitIsSerial(Play(Start(staff), events), id);
  }

  /** Two transactions never have their Manager counts behind them at the same time. */
  lemma OneCounterAtATime(staff: Table, events: seq<Event>, a: nat, b: nat)
    requires var s := Play(Start(staff), events);
      && a in s.txs && b in s.txs && Holds(s.txs[a], true) && Holds(s.txs[b], true)
    ensures a == b
  {
    PlayKeepsSound(Start(staff), events);
  }

  // ---------- refusals and waiting ----------

  /** The request ends without a commit in its next step, or when its commit finds its id in use. */
  ghost predicate EndsRefused(s: System, id: nat) {
    && id in s.txs
    && if s.txs[id].phase.Done? then !TakesManagerLock(s.txs[id].cmd) && RowOf(s.txs[id].cmd) in s.staff
       else id !in StepTx(s, id).txs
  }

  /**
   In every schedule, a command that ends without a commit is one that is refused when it
   runs alone at that moment; before its role check, its actor is not an enabled member, or
   not a Manager.
   */
  lemma EveryRefusalIsSerial(staff: Table, events: seq<Event>, id: nat)
    requires EndsRefused(Play(Start(staff), events), id)
    ensures var s := Play(Start(staff), events);
      var tx := s.txs[id];
      if Admitted(tx) then Refusal(s.staff, tx.cmd).Some?
      else if tx.actor !in s.staff then true
      else if tx.phase == Arriving then !s.staff[tx.actor].enabled
      else Manager !in s.staff[tx.actor].roles
  {
    PlayKeepsSound(Start(staff), events);
    var s := Play(Start(staff), events);
    assert TxOk(s.staff, s.txs[id]);
    if s.txs[id].cmd.Bootstrap? && |AllManagers(s.staff)| > 0 { assert AllManagers(s.staff) != {}; }
  }

  /** A step of a request does nothing only if it is done or waits for the advisory lock that another one holds. */
  lemma StepsUnlessWaiting(s: System, id: nat)
    requires id in s.txs && TxOk(s.staff, s.txs[id]) && StepTx(s, id) == s
    ensures s.txs[id].phase.Done? || (s.txs[id].phase == Starting
              && ((TakesManagerLock(s.txs[id].cmd) && !LockFree(s, id, true))
                  || (s.txs[id].cmd.Bootstrap? && !LockFree(s, id, false))))
  {
    assert id in StepTx(s, id).txs && StepTx(s, id).txs[id].phase == s.txs[id].phase;
  }

  // ---------- the role check and the bootstrap ----------

  /**
   Whatever staff there was at the start, whoever is past the role check of a staff
   route runs while there is an active Manager, until it ends.
   */
  lemma AdmittedUnderManager(staff: Table, events: seq<Event>, id: nat)
    requires var s := Play(Start(staff), events); id in s.txs && Admitted(s.txs[id]) && !s.txs[id].cmd.Bootstrap?
    ensures ActiveManagers(Play(Start(staff), events).staff) != {}
  {
    PlayKeepsSound(Start(staff), events);
    var s := Play(Start(staff), events);
    assert TxOk(s.staff, s.txs[id]);
  }

  /**
   A bootstrap that has counted no Manager is alone until it ends: nobody becomes a
   Manager, no staff route is past its role check, and no other bootstrap has its lock.
   */
  lemma BootstrapIsAlone(staff: Table, events: seq<Event>, id: nat)
    requires var s := Play(Start(staff), events); id in s.txs && HasCounted(s.txs[id])
    ensures var s := Play(Start(staff), events);
      && AllManagers(s.staff) == {}
      && forall other :: other in s.txs && other != id ==>
           if s.txs[other].cmd.Bootstrap? then s.txs[other].phase == Starting else !Admitted(s.txs[other])
  {
    PlayKeepsSound(Start(staff), events);
    var s := Play(Start(staff), events);
    NotBoth(s, id, id);
    forall other | other in s.txs && other != id
      ensures if s.txs[other].cmd.Bootstrap? then s.txs[other].phase == Starting else !Admitted(s.txs[other])
    {
      NotBoth(s, other, id);
      assert TxOk(s.staff, s.txs[other]);
      assert Holds(s.txs[id], false);
    }
  }

  lemma DoKeepsLockedOut(s: System, e: Event)
    requires Sound(s)
    ensures Do(s, e).staff == s.staff || (ActiveManagers(Do(s, e).staff) != {} && !LockedOut(s.staff))
  {
    match e {
      case Begin(id, cmd, actor) =>
      case Step(id) => if id in s.txs { StepMovesOne(s, id); }
      case Commit(id) =>
        if id in s.txs && s.txs[id].phase.Done? {
          CommitLeavesManager(s, id);
          assert TxOk(s.staff, s.txs[id]);
        }
      case Abort(id) =>
    }
  }

  /**
   If all Managers are disabled from the start, no schedule ever changes the staff: a
   bootstrap counts them and nobody gets past the role check. Otherwise no schedule
   leads there.
   */
  lemma {:induction false} LockedOutForEver(s: System, events: seq<Event>)
    requires Sound(s)
    ensures LockedOut(s.staff) ==> Play(s, events).staff == s.staff
    ensures LockedOut(Play(s, events).staff) <==> LockedOut(s.staff)
    decreases |events|
  {
    if events != [] {
      DoKeepsSound(s, events[0]);
      DoKeepsLockedOut(s, events[0]);
      LockedOutForEver(Do(s, events[0]), events[1..]);
    }
  }

  /** The same for every schedule from any staff. */
  lemma LockedOutExactly(staff: Table, events: seq<Event>)
    ensures LockedOut(staff) ==> Play(Start(staff), events).staff == staff
    ensures LockedOut(Play(Start(staff), events).staff) <==> LockedOut(staff)
  {
    LockedOutForEver(Start(staff), events);
  }
}
