/**
 Direct and excluded at once, under any interleaving: which commits keep the two
 roles of a group apart, and which kinds of command ever mix them.
 */
module ConcurrentRoles {
  import opened Prelude
  import opened Uuids
  import opened Links
  import opened LinkTheorems
  import opened Locks
  import opened Transactions
  import opened LinkRuns
  import opened ItemRaces
  import opened Grants
  import opened SerialEffects
  import opened Schedules
  import opened Deadlocks

  /** A plain attach of an excluded group, or a plain exclude of a direct one, by the links at its commit. */
  ghost predicate Mixes(t: Tables, job: Job) {
    || (job.AttachItem? && Link(job.item, job.group) in t.excluded)
    || (job.Exclude? && Link(job.item, job.group) in t.direct)
  }

  // ---------- one commit ----------

  lemma ItemKeepsApart(db: Tables, tx: Tx)
    requires ItemReady(db, tx) && DisjointRoles(db)
    ensures DisjointRoles(Install(db, tx.writes))
  {
    var i, after := tx.job.item, Install(db, tx.writes);
    PendingInstalled(db, tx);
    forall l | l in after.direct ensures l !in after.excluded {
      if l.owner == i {
        GroupsOfMember(after.direct, i, l.group);
        GroupsOfMember(after.excluded, i, l.group);
      }
    }
  }

  lemma AloneKeepsApart(t: Tables, job: Job)
    requires !job.ReplaceItem? && DisjointRoles(t) && Alone(t, job).Done?
    ensures DisjointRoles(Alone(t, job).tables) <==> !Mixes(t, job)
  {
    if job.ReplaceAssignments? {
      ReplaceAssignmentsDisjoint(t, job.group, job.items, job.categories);
    } else if job.AttachItem? {
      OneLinkDisjoint(t.direct, t.excluded, Link(job.item, job.group));
    } else if job.Exclude? {
      OneLinkDisjoint(t.excluded, t.direct, Link(job.item, job.group));
    } else {
      OthersAddNone(t, job);
    }
  }

  lemma OthersAddNone(t: Tables, job: Job)
    requires !job.ReplaceItem? && !job.ReplaceAssignments? && !job.AttachItem? && !job.Exclude? && Alone(t, job).Done?
    ensures Alone(t, job).tables.direct == t.direct && Alone(t, job).tables.excluded <= t.excluded
  {
  }

  lemma CommitKeepsApart(s: System, id: nat)
    requires GrantedIn(s) && Ready(s, id) && DisjointRoles(s.db)
    ensures DisjointRoles(Do(s, Commit(id)).db) <==> !Mixes(s.db, s.txs[id].job)
  {
    if s.txs[id].job.ReplaceItem? {
      ReadyItem(s, id);
      ItemKeepsApart(s.db, s.txs[id]);
    } else {
      CommitIsAlone(s, id);
      AloneKeepsApart(s.db, s.txs[id].job);
    }
  }

  /**
   In every schedule, from disjoint roles, a commit keeps them disjoint if and only if it
   is not a plain attach of an excluded group or a plain exclude of a direct one.
   */
  lemma EveryCommitKeepsApart(db: Tables, events: seq<Event>, id: nat)
    requires ExclusionsProvided(db) && Ready(Play(Start(db), events), id)
    requires DisjointRoles(Play(Start(db), events).db)
    ensures var s := Play(Start(db), events);
      DisjointRoles(Do(s, Commit(id)).db) <==> !Mixes(s.db, s.txs[id].job)
  {
    PlayKeepsGranted(Start(db), events);
    CommitKeepsApart(Play(Start(db), events), id);
  }

  // ---------- whole schedules ----------

  /** The roles are disjoint in every state of the schedule. */
  ghost predicate ApartThroughout(s: System, events: seq<Event>)
    decreases |events|
  {
    DisjointRoles(s.db) && (events != [] ==> ApartThroughout(Do(s, events[0]), events[1..]))
  }

  /** No commit of the schedule mixes roles. */
  ghost predicate NoneMixes(s: System, events: seq<Event>)
    decreases |events|
  {
    events != [] ==>
      && (Commits(s, events[0]) ==> !Mixes(s.db, s.txs[events[0].id].job))
      && NoneMixes(Do(s, events[0]), events[1..])
  }

  lemma {:induction false} ApartExactly(s: System, events: seq<Event>)
    requires GrantedIn(s) && DisjointRoles(s.db)
    ensures ApartThroughout(s, events) <==> NoneMixes(s, events)
    decreases |events|
  {
    if events != [] {
      DoKeepsGranted(s, events[0]);
      OnlyCommitsWrite(s, events[0]);
      if Commits(s, events[0]) { CommitKeepsApart(s, events[0].id); }
      if DisjointRoles(Do(s, events[0]).db) { ApartExactly(Do(s, events[0]), events[1..]); }
    }
  }

  /** Every state of a schedule from disjoint roles has disjoint roles if and only if no commit of it mixes them. */
  lemma ScheduleKeepsApartExactly(db: Tables, events: seq<Event>)
    requires ExclusionsProvided(db) && DisjointRoles(db)
    ensures ApartThroughout(Start(db), events) <==> NoneMixes(Start(db), events)
  {
    ApartExactly(Start(db), events);
  }

  // ---------- kinds of command ----------

  const MIXING: set<Kind> := {AttachesItem, Excludes}

  /** A schedule of these kinds of command leads from disjoint roles to mixed ones. */
  ghost predicate MixReached(kinds: set<Kind>, db: Tables, s: System) {
    ExclusionsProvided(db) && DisjointRoles(db) && Reaches(kinds, Start(db), s) && !DisjointRoles(s.db)
  }

  ghost predicate JobsIn(kinds: set<Kind>, s: System) {
    forall id :: id in s.txs ==> KindOf(s.txs[id].job) in kinds
  }

  lemma DoKeepsJobs(kinds: set<Kind>, s: System, e: Event)
    requires JobsIn(kinds, s) && (e.Begin? ==> KindOf(e.job) in kinds)
    ensures JobsIn(kinds, Do(s, e))
  {
    if e.Step? && e.id in s.txs {
      StepMovesOne(s, e.id);
      StepKeepsJob(s, e.id);
    }
  }

  /** Without a plain attach to an item and a plain exclude, no schedule mixes roles. */
  lemma {:induction false} OthersStayApart(kinds: set<Kind>, s: System, events: seq<Event>)
    requires GrantedIn(s) && DisjointRoles(s.db) && JobsIn(kinds, s) && OnlyKinds(kinds, events) && kinds !! MIXING
    ensures DisjointRoles(Play(s, events).db)
    decreases |events|
  {
    if events != [] {
      DoKeepsGranted(s, events[0]);
      OnlyCommitsWrite(s, events[0]);
      DoKeepsJobs(kinds, s, events[0]);
      if Commits(s, events[0]) { CommitKeepsApart(s, events[0].id); }
      OthersStayApart(kinds, Do(s, events[0]), events[1..]);
    }
  }

  /** One item with a group that its category provides, which is direct or excluded. */
  ghost function OneRole(i: Uuid, c: Uuid, g: Uuid, direct: bool): Tables {
    if direct then Provided(i, c, g).(direct := {Link(i, g)}) else Provided(i, c, g).(excluded := {Link(i, g)})
  }

  lemma AttachMixes(db: Tables, i: Uuid, c: Uuid, g: Uuid) returns (s: System)
    requires db == OneRole(i, c, g, false)
    ensures Reaches({AttachesItem}, Start(db), s) && !DisjointRoles(s.db)
  {
    var kinds: set<Kind>, job := {AttachesItem}, AttachItem(i, g);
    TakesFirstRow(kinds, db, job, ItemLock(i), [GroupLock(g)]);
    var t1 := AtFirstRow(job, ItemLock(i), [GroupLock(g)]);
    assert t1.todo == [Acquire(GroupLock(g))] + [];
    Acquires1(kinds, Start(db), db, map[], 0, t1, GroupLock(g), []);
    s := WritesAndCommits(kinds, db, t1.(todo := [], held := t1.held + {GroupLock(g)}), AddDirect(i, g));
    assert Link(i, g) in s.db.direct * s.db.excluded;
  }

  lemma ExcludeMixes(db: Tables, i: Uuid, c: Uuid, g: Uuid) returns (s: System)
    requires db == OneRole(i, c, g, true)
    ensures Reaches({Excludes}, Start(db), s) && !DisjointRoles(s.db)
  {
    var t := ExcludeChecks(db, i, c, g);
    s := WritesAndCommits({Excludes}, db, t, AddExclusion(i, g));
    assert Link(i, g) in s.db.direct * s.db.excluded;
  }

  lemma ExcludeChecks(db: Tables, i: Uuid, c: Uuid, g: Uuid) returns (t: Tx)
    requires db == OneRole(i, c, g, true)
    ensures Reaches({Excludes}, Start(db), Beside(db, map[], 0, t))
    ensures t.phase == Checking && t.todo == [] && t.writes == NO_WRITES && Decide(db, t) == Some([AddExclusion(i, g)])
  {
    var kinds: set<Kind>, job := {Excludes}, Exclude(i, g);
    TakesFirstRow(kinds, db, job, ItemLock(i), []);
    var t1 := AtFirstRow(job, ItemLock(i), []);
    var t2 := t1.(phase := Checking, source := c, todo := [Acquire(GroupLock(g))]);
    Reads1(kinds, Start(db), db, map[], 0, t1, t2);
    Acquires1(kinds, Start(db), db, map[], 0, t2, GroupLock(g), []);
    t := t2.(todo := [], held := t2.held + {GroupLock(g)});
  }

  /** From its last checks a command with one write goes through to its commit. */
  lemma WritesAndCommits(kinds: set<Kind>, db: Tables, tx: Tx, op: Op) returns (s: System)
    requires Reaches(kinds, Start(db), Beside(db, map[], 0, tx))
    requires tx.phase == Checking && tx.todo == [] && tx.writes == NO_WRITES && Decide(db, tx) == Some([op])
    requires (op.AddDirect? || op.AddExclusion?) && !Duplicate(db, op)
    ensures Reaches(kinds, Start(db), s) && s.db == Install(db, Write(db, NO_WRITES, op))
  {
    var start := Start(db);
    var t1 := tx.(phase := Writing, todo := [op]);
    Reads1(kinds, start, db, map[], 0, tx, t1);
    Writes1(kinds, start, db, map[], 0, t1, op, []);
    var t2 := t1.(todo := [], writes := Write(db, NO_WRITES, op));
    Commits1(kinds, start, db, map[], 0, t2);
    s := System(Install(db, t2.writes), map[]);
  }

  lemma MixNeedsKind(kinds: set<Kind>, db: Tables, s: System)
    requires MixReached(kinds, db, s)
    ensures !(kinds !! MIXING)
  {
    if kinds !! MIXING {
      var events :| OnlyKinds(kinds, events) && Play(Start(db), events) == s;
      OthersStayApart(kinds, Start(db), events);
    }
  }

  lemma KindMixes(kinds: set<Kind>, i: Uuid, c: Uuid, g: Uuid) returns (s: System)
    requires !(kinds !! MIXING)
    ensures exists direct: bool :: MixReached(kinds, OneRole(i, c, g, direct), s)
  {
    var direct := AttachesItem !in kinds;
    var db := OneRole(i, c, g, direct);
    if direct {
      s := ExcludeMixes(db, i, c, g);
      ReachesWider({Excludes}, kinds, Start(db), s);
    } else {
      s := AttachMixes(db, i, c, g);
      ReachesWider({AttachesItem}, kinds, Start(db), s);
    }
    assert MixReached(kinds, OneRole(i, c, g, direct), s);
  }

  /**
   Commands of some kinds can lead from disjoint roles to mixed ones if and only if a
   plain attach to an item or a plain exclude is among them.
   */
  lemma RolesMixExactly(kinds: set<Kind>)
    ensures (exists db, s :: MixReached(kinds, db, s)) <==> AttachesItem in kinds || Excludes in kinds
  {
    assert kinds !! MIXING <==> AttachesItem !in kinds && Excludes !in kinds;
    if db, s :| MixReached(kinds, db, s) { MixNeedsKind(kinds, db, s); }
    if !(kinds !! MIXING) {
      var s := KindMixes(kinds, ITEM, CATEGORY, GROUP);
    }
  }
}
