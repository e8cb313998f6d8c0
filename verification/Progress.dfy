/**
 That concurrent commands do what they should, not only nothing wrong: foreign keys hold
 in every schedule, a command that ends without a commit is one that is refused, a step
 that need not wait leads on, and a command alone does exactly what it does serially.
 */
module Progress {
  import opened Uuids
  import opened Links
  import opened LinkTheorems
  import opened Transactions
  import opened LinkSafety
  import opened LinkRuns
  import opened ItemRaces
  import opened OwnerRaces
  import opened ExactWrites
  import opened Grants
  import opened SerialEffects

  // ---------- foreign keys ----------

  /** The excluded groups a replacement read have rows, whether they are still excluded or not. */
  ghost predicate Rowed(db: Tables, tx: Tx) {
    tx.job.ReplaceItem? && (tx.phase == Checking || tx.phase == Writing) ==> tx.second <= db.groups.Keys
  }

  ghost predicate ConsistentIn(s: System) {
    GrantedIn(s) && Consistent(s.db) && forall id :: id in s.txs ==> Rowed(s.db, s.txs[id])
  }

  lemma AloneKeepsConsistent(t: Tables, job: Job)
    requires Consistent(t) && Alone(t, job).Done? && !job.ReplaceItem?
    ensures Consistent(Alone(t, job).tables)
  {
    match job {
      case ReplaceCategory(c, gs) => CategoryReplacementKeepsConsistent(t, c, gs);
      case ReplaceAssignments(g, its, cs) => AssignmentsKeepConsistent(t, g, its, cs);
      case MoveItem(i, c) => MoveKeepsConsistent(t, i, c);
      case _ =>
    }
  }

  lemma ItemKeepsReferences(db: Tables, tx: Tx)
    requires ItemReady(db, tx) && References(db)
    ensures References(Install(db, tx.writes))
  {
    var i, after := tx.job.item, Install(db, tx.writes);
    PendingInstalled(db, tx);
    NothingMoved(db, tx.writes);
    assert tx.job.direct + tx.job.excluded <= db.groups.Keys;
    forall l | l in after.direct + after.excluded ensures l.owner in after.items && l.group in after.groups {
      GroupsOfMember(after.direct, i, l.group);
      GroupsOfMember(after.excluded, i, l.group);
    }
  }

  lemma CommitKeepsConsistent(s: System, id: nat)
    requires GrantedIn(s) && Consistent(s.db) && Ready(s, id)
    ensures Consistent(Do(s, Commit(id)).db)
  {
    if s.txs[id].job.ReplaceItem? {
      ReadyItem(s, id);
      ItemKeepsReferences(s.db, s.txs[id]);
      DoKeepsSafe(s, Commit(id));
    } else {
      CommitIsAlone(s, id);
      AloneKeepsConsistent(s.db, s.txs[id].job);
    }
  }

  lemma DoKeepsTables(s: System, e: Event)
    requires GrantedIn(s) && Consistent(s.db)
    ensures Consistent(Do(s, e).db) && s.db.groups.Keys <= Do(s, e).db.groups.Keys
  {
    OnlyCommitsWrite(s, e);
    if Commits(s, e) { CommitKeepsConsistent(s, e.id); }
  }

  lemma StepRowed(s: System, id: nat)
    requires id in s.txs && References(s.db) && Rowed(s.db, s.txs[id])
    ensures id in StepTx(s, id).txs ==> Rowed(s.db, StepTx(s, id).txs[id])
  {
    var tx := s.txs[id];
    if tx.job.ReplaceItem? {
      forall g | g in GroupsOf(s.db.excluded, tx.job.item) ensures g in s.db.groups {
        GroupsOfMember(s.db.excluded, tx.job.item, g);
      }
    }
  }

  ghost predicate AllRowed(s: System) {
    forall id :: id in s.txs ==> Rowed(s.db, s.txs[id])
  }

  lemma DoKeepsRowed(s: System, e: Event)
    requires References(s.db) && AllRowed(s) && s.db.groups.Keys <= Do(s, e).db.groups.Keys
    ensures AllRowed(Do(s, e))
  {
    if e.Step? && e.id in s.txs {
      StepMovesOne(s, e.id);
      StepRowed(s, e.id);
    }
  }

  lemma DoKeepsConsistentIn(s: System, e: Event)
    requires ConsistentIn(s)
    ensures ConsistentIn(Do(s, e))
  {
    DoKeepsGranted(s, e);
    DoKeepsTables(s, e);
    DoKeepsRowed(s, e);
  }

  lemma {:induction false} PlayKeepsConsistentIn(s: System, events: seq<Event>)
    requires ConsistentIn(s)
    ensures ConsistentIn(Play(s, events))
    decreases |events|
  {
    if events != [] {
      DoKeepsConsistentIn(s, events[0]);
      PlayKeepsConsistentIn(Do(s, events[0]), events[1..]);
    }
  }

  /** From consistent tables every schedule keeps the foreign keys and every exclusion's group provided. */
  lemma EveryScheduleKeepsConsistent(db: Tables, events: seq<Event>)
    requires Consistent(db)
    ensures Consistent(Play(Start(db), events).db)
  {
    PlayKeepsConsistentIn(Start(db), events);
  }

  // ---------- refusals ----------

  /** A check that fails is one the command run alone fails at that moment. */
  lemma NextRefused(db: Tables, tx: Tx)
    requires tx.phase != Writing && tx.todo == [] && Next(db, tx).None?
    requires ReadingOk(db, tx) && ReadsHold(db, tx) && OwnerReads(db, tx)
    requires ExactOk(db, tx) && Granted(db, tx) && Rowed(db, tx)
    ensures Alone(db, tx.job).Refused?
  {
    if tx.phase != Checking {
      ReadRefused(db, tx);
    } else if tx.job.ReplaceItem? {
      ItemRefused(db, tx, tx.job.item, tx.job.direct, tx.job.excluded);
    } else {
      DecideRefused(db, tx);
    }
  }

  lemma ReadRefused(db: Tables, tx: Tx)
    requires tx.phase != Starting && tx.phase != Writing && tx.phase != Checking && Read(db, tx).None?
    requires ReadingOk(db, tx)
    ensures Alone(db, tx.job).Refused?
  {
  }

  lemma DecideRefused(db: Tables, tx: Tx)
    requires tx.phase == Checking && !tx.job.ReplaceItem? && Decide(db, tx).None?
    requires ReadingOk(db, tx) && OwnerReads(db, tx) && ExactOk(db, tx) && Granted(db, tx)
    ensures Alone(db, tx.job).Refused?
  {
  }

  lemma ItemRefused(db: Tables, tx: Tx, i: Uuid, d: set<Uuid>, e: set<Uuid>)
    requires tx.job == ReplaceItem(i, d, e) && tx.phase == Checking && Decide(db, tx).None?
    requires ReadingOk(db, tx) && ReadsHold(db, tx) && ItemGranted(db, tx, i, d, e) && Rowed(db, tx)
    ensures Alone(db, tx.job).Refused?
  {
  }

  /** An insert that finds its row there is a conflict of the command run alone. */
  lemma DuplicateRefused(db: Tables, tx: Tx)
    requires tx.todo != [] && Duplicate(db, tx.todo[0]) && TxOk(db, tx) && ReadsHold(db, tx) && OwnerReads(db, tx)
    requires ExactOk(db, tx) && Granted(db, tx)
    ensures Alone(db, tx.job).Refused?
  {
    assert tx.todo[0] in tx.todo;
  }

  /** The transaction ends without a commit in its next step, or when it tries to commit. */
  ghost predicate EndsRefused(s: System, id: nat) {
    && id in s.txs
    && if s.txs[id].phase == Writing && s.txs[id].todo == [] then Taken(s.db, s.txs[id].writes.change)
       else id !in StepTx(s, id).txs
  }

  lemma EndsAsRefused(s: System, id: nat)
    requires ConsistentIn(s) && EndsRefused(s, id)
    ensures Alone(s.db, s.txs[id].job).Refused?
  {
    var tx := s.txs[id];
    assert TxOk(s.db, tx) && ReadsHold(s.db, tx) && OwnerReads(s.db, tx);
    assert ExactOk(s.db, tx) && Granted(s.db, tx) && Rowed(s.db, tx);
    if tx.phase == Writing && tx.todo == [] {
      TakenRefused(s.db, tx);
    } else if tx.todo != [] {
      DuplicateRefused(s.db, tx);
    } else {
      NextRefused(s.db, tx);
    }
  }

  lemma TakenRefused(db: Tables, tx: Tx)
    requires tx.phase == Writing && tx.todo == [] && Taken(db, tx.writes.change)
    requires WritingOk(db, tx) && Granted(db, tx) && ExactOk(db, tx)
    ensures Alone(db, tx.job).Refused?
  {
  }

  /**
   In every schedule a command that a step or its commit ends without effect is one that
   the serial command refuses at that moment.
   */
  lemma EveryRefusalIsSerial(db: Tables, events: seq<Event>, id: nat, cmd: Command)
    requires Consistent(db) && EndsRefused(Play(Start(db), events), id)
    requires Play(Start(db), events).txs[id].job == JobOf(cmd) && Sendable(cmd)
    ensures Apply(Play(Start(db), events).db, cmd).Refused?
  {
    PlayKeepsConsistentIn(Start(db), events);
    EndsAsRefused(Play(Start(db), events), id);
    AloneIsApply(Play(Start(db), events).db, cmd);
  }

  // ---------- progress ----------

  function PhaseRank(p: Phase): nat {
    match p
    case Starting => 5
    case RowLocked => 4
    case SourceRead => 3
    case FirstRead => 2
    case Checking => 1
    case Writing => 0
  }

  /** The transaction has reached a later phase, or has fewer statements to go in the same one. */
  ghost predicate Further(a: Tx, b: Tx) {
    PhaseRank(b.phase) < PhaseRank(a.phase) || (b.phase == a.phase && |b.todo| < |a.todo|)
  }

  /** A step of a transaction that is not done and waits for no lock ends it or brings it further. */
  lemma StepLeadsOn(s: System, id: nat)
    requires id in s.txs && !Blocked(s, id) && !(s.txs[id].phase == Writing && s.txs[id].todo == [])
    ensures id in StepTx(s, id).txs ==> Further(s.txs[id], StepTx(s, id).txs[id])
  {
    var tx := s.txs[id];
    if tx.todo == [] && Next(s.db, tx).Some? { NextLeadsOn(s.db, tx); }
  }

  lemma NextLeadsOn(db: Tables, tx: Tx)
    requires tx.phase != Writing && Next(db, tx).Some?
    ensures PhaseRank(Next(db, tx).value.phase) < PhaseRank(tx.phase)
  {
  }

  // ---------- a command alone ----------

  /** A lone replacement's second read is still what is stored, and a lone creation's id is still free. */
  ghost predicate StillCurrent(db: Tables, tx: Tx) {
    && (tx.job.ReplaceItem? && (tx.phase == Checking || tx.phase == Writing) ==>
          tx.second == GroupsOf(db.excluded, tx.job.item))
    && !Taken(db, tx.writes.change)
  }

  lemma StepStillCurrent(s: System, id: nat)
    requires id in s.txs && StillCurrent(s.db, s.txs[id])
    ensures id in StepTx(s, id).txs ==> StillCurrent(s.db, StepTx(s, id).txs[id])
  {
  }

  /** The tables a job leaves when it runs alone. */
  ghost function Left(db: Tables, job: Job): Tables {
    var o := Alone(db, job); if o.Done? then o.tables else db
  }

  lemma LoneCommit(s: System, id: nat)
    requires GrantedIn(s) && Ready(s, id) && StillCurrent(s.db, s.txs[id])
    ensures Do(s, Commit(id)).db == Left(s.db, s.txs[id].job)
  {
    if s.txs[id].job.ReplaceItem? {
      ItemAuditIsSerial(s, id);
    } else {
      CommitIsAlone(s, id);
    }
  }

  lemma {:induction false} LoneFinishes(kinds: set<Kind>, s: System, id: nat)
    requires ConsistentIn(s) && s.txs.Keys == {id} && StillCurrent(s.db, s.txs[id])
    ensures Reaches(kinds, s, System(Left(s.db, s.txs[id].job), map[]))
    decreases PhaseRank(s.txs[id].phase), |s.txs[id].todo|
  {
    var tx := s.txs[id];
    Here(kinds, s);
    if tx.phase == Writing && tx.todo == [] {
      LoneCommit(s, id);
      ReachesMore(kinds, s, s, Commit(id));
      assert (s.txs - {id}) == map[];
    } else {
      LoneStep(s, id);
      ReachesMore(kinds, s, s, Step(id));
      if id in StepTx(s, id).txs {
        LoneFinishes(kinds, StepTx(s, id), id);
        ReachesTransitive(kinds, s, StepTx(s, id), System(Left(s.db, tx.job), map[]));
      } else {
        EndsAsRefused(s, id);
        assert StepTx(s, id) == System(Left(s.db, tx.job), map[]);
      }
    }
  }

  lemma Here(kinds: set<Kind>, s: System)
    ensures Reaches(kinds, s, s)
  {
    assert OnlyKinds(kinds, []) && Play(s, []) == s;
  }

  lemma LoneStep(s: System, id: nat)
    requires ConsistentIn(s) && s.txs.Keys == {id} && StillCurrent(s.db, s.txs[id])
    requires !(s.txs[id].phase == Writing && s.txs[id].todo == [])
    ensures var s' := StepTx(s, id);
      && s'.db == s.db && ConsistentIn(s')
      && (if id in s'.txs then
            && s'.txs.Keys == {id} && s'.txs[id].job == s.txs[id].job && StillCurrent(s.db, s'.txs[id])
            && Further(s.txs[id], s'.txs[id])
          else s'.txs == map[])
  {
    DoKeepsConsistentIn(s, Step(id));
    StepMovesOne(s, id);
    StepStillCurrent(s, id);
    StepLeadsOn(s, id);
    StepKeepsJob(s, id);
  }

  /**
   A command that runs alone goes through: some schedule of it only ends with the tables of
   the serial command if that is accepted, and with the tables as they were if it is refused.
   */
  lemma RunsAlone(db: Tables, cmd: Command)
    requires Consistent(db) && Sendable(cmd)
    ensures Reaches({KindOf(JobOf(cmd))}, Start(db),
                    Start(if Apply(db, cmd).Done? then Apply(db, cmd).tables else db))
  {
    var job := JobOf(cmd);
    AloneIsApply(db, cmd);
    if Startable(job) {
      JobRunsAlone(db, job);
    } else {
      Here({KindOf(job)}, Start(db));
      var g :| g in job.direct && g in job.excluded;
      assert g in job.direct * job.excluded;
    }
  }

  lemma JobRunsAlone(db: Tables, job: Job)
    requires Consistent(db) && Startable(job)
    ensures Reaches({KindOf(job)}, Start(db), Start(Left(db, job)))
  {
    var kinds, s := {KindOf(job)}, Do(Start(db), Begin(0, job, 0));
    Here(kinds, Start(db));
    ReachesMore(kinds, Start(db), Start(db), Begin(0, job, 0));
    DoKeepsConsistentIn(Start(db), Begin(0, job, 0));
    LoneFinishes(kinds, s, 0);
    ReachesTransitive(kinds, Start(db), s, Start(Left(db, job)));
  }
}
