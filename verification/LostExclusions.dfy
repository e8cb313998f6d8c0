/**
 When `ReplaceItemModifierGroups` loses an exclusion, told by events. It reads
 the item's exclusions, then takes the groups' locks one by one; in between,
 other transactions may commit. Exactly their removals are what is lost.
 */
module LostExclusions {
  import opened Uuids
  import opened Links
  import opened Locks
  import opened Transactions
  import opened LinkSafety
  import opened LinkRuns
  import opened ItemRaces
  import opened OwnerRaces
  import opened ExactWrites
  import opened Grants
  import opened SerialEffects
  import opened RetiredLinks

  /** The transaction's next step reads the item's current exclusions. */
  ghost predicate AboutToRead(s: System, id: nat) {
    id in s.txs && s.txs[id].job.ReplaceItem? && s.txs[id].phase == FirstRead && s.txs[id].todo == []
  }

  /** The transaction runs through the whole of a schedule. */
  ghost predicate Running(s: System, events: seq<Event>, id: nat)
    decreases |events|
  {
    id in s.txs && (events != [] ==> Running(Do(s, events[0]), events[1..], id))
  }

  /** The `k`-th event deletes a stored exclusion whose group the transaction has not locked yet. */
  ghost predicate RemovedAt(s: System, events: seq<Event>, k: nat, id: nat, l: Link) {
    && k < |events|
    && var before := Play(s, events[..k]);
      && l in before.db.excluded && l !in Do(before, events[k]).db.excluded
      && id in before.txs && GroupLock(l.group) !in before.txs[id].held
  }

  /** A replacement that has read its exclusions. */
  ghost predicate HasRead(s: System, id: nat) {
    id in s.txs && s.txs[id].job.ReplaceItem? && (s.txs[id].phase == Checking || s.txs[id].phase == Writing)
  }

  /** The commands that can take an exclusion from an item another transaction holds. */
  ghost predicate Takes(db: Tables, job: Job, l: Link) {
    || (job.ReplaceCategory? && l.owner in db.items && db.items[l.owner].category == job.category
        && l.group !in job.groups)
    || (job.ReplaceAssignments? && l.owner in db.items && l.group == job.group
        && db.items[l.owner].category !in job.categories)
  }

  // ---------- one event ----------

  lemma ReaderStays(s: System, e: Event, id: nat)
    requires GrantedIn(s) && HasRead(s, id) && id in Do(s, e).txs
    ensures HasRead(Do(s, e), id)
    ensures var tx, tx' := s.txs[id], Do(s, e).txs[id];
      tx'.job == tx.job && tx'.first == tx.first && tx'.second == tx.second
  {
    if e == Step(id) {
      ReaderSteps(s, id);
    } else {
      if e.Step? && e.id in s.txs { StepMovesOne(s, e.id); }
      assert Do(s, e).txs[id] == s.txs[id];
    }
  }

  lemma ReaderSteps(s: System, id: nat)
    requires HasRead(s, id) && id in StepTx(s, id).txs
    ensures HasRead(StepTx(s, id), id)
    ensures var tx, tx' := s.txs[id], StepTx(s, id).txs[id];
      tx'.job == tx.job && tx'.first == tx.first && tx'.second == tx.second
  {
  }

  /**
   While a replacement runs, nobody adds an exclusion to its item, and one is deleted only before its
   group is locked.
   */
  lemma OneEvent(s: System, e: Event, id: nat, l: Link)
    requires GrantedIn(s) && HasRead(s, id) && id in Do(s, e).txs && l.owner == s.txs[id].job.item
    ensures l in Do(s, e).db.excluded ==> l in s.db.excluded
    ensures l in s.db.excluded && l !in Do(s, e).db.excluded ==>
              && GroupLock(l.group) !in s.txs[id].held
              && Commits(s, e) && Takes(s.db, s.txs[e.id].job, l)
  {
    OnlyCommitsWrite(s, e);
    if Commits(s, e) {
      var mine, tx := s.txs[id], s.txs[e.id];
      assert e.id != id;
      assert TxOk(s.db, mine) && ReadsHold(s.db, mine);
      assert TxOk(s.db, tx) && ReadsHold(s.db, tx) && OwnerReads(s.db, tx) && ExactOk(s.db, tx);
      assert ItemLock(l.owner) !in tx.held;
      HoldsWhatItChanges(s.db, tx);
      if l in tx.writes.removeExcluded {
        assert HoldsTwo(s.db, tx.held, l);
        RemoverTakes(s.db, tx, l);
      }
    }
  }

  lemma RemoverTakes(db: Tables, tx: Tx, l: Link)
    requires tx.phase == Writing && tx.todo == [] && l in tx.writes.removeExcluded && ItemLock(l.owner) !in tx.held
    requires TxOk(db, tx) && ReadsHold(db, tx) && OwnerReads(db, tx) && ExactOk(db, tx)
    ensures Takes(db, tx.job, l)
  {
    assert tx.job.ReplaceItem? ==> l in LinksFrom(tx.job.item, tx.second - tx.job.excluded);
    match tx.job {
      case ReplaceCategory(c, gs) =>
        var lost := Link(db.items[l.owner].category, l.group);
        assert lost in tx.writes.removeProvided;
        assert lost in LinksFrom(c, tx.first - gs);
      case ReplaceAssignments(g, its, cs) =>
        var lost := Link(db.items[l.owner].category, l.group);
        assert lost in tx.writes.removeProvided;
        assert lost in LinksTo(tx.second - cs, g);
      case _ =>
    }
  }

  // ---------- a span of events ----------

  lemma PlayRest(s: System, events: seq<Event>, k: nat)
    requires 0 < k < |events|
    ensures Play(s, events[..k]) == Play(Do(s, events[0]), events[1..][..k - 1]) && events[1..][k - 1] == events[k]
  {
    assert events[..k][1..] == events[1..][..k - 1];
  }

  lemma RemovedLater(s: System, events: seq<Event>, k: nat, id: nat, l: Link)
    requires events != []
    ensures RemovedAt(s, events, k + 1, id, l) <==> RemovedAt(Do(s, events[0]), events[1..], k, id, l)
  {
    if k + 1 < |events| { PlayRest(s, events, k + 1); }
  }

  lemma RemovedFirst(s: System, events: seq<Event>, id: nat, l: Link)
    requires events != []
    ensures RemovedAt(s, events, 0, id, l)
            <==> (l in s.db.excluded && l !in Do(s, events[0]).db.excluded && id in s.txs
                  && GroupLock(l.group) !in s.txs[id].held)
  {
    assert events[..0] == [];
  }

  /**
   Over a span, an exclusion of the replacement's item is gone if and only if some event removed it
   before its group was locked.
   */
  lemma {:induction false} GoneIsRemoved(s: System, events: seq<Event>, id: nat, l: Link)
    requires GrantedIn(s) && HasRead(s, id) && Running(s, events, id) && l.owner == s.txs[id].job.item
    ensures var s' := Play(s, events);
      && GrantedIn(s') && HasRead(s', id)
      && s'.txs[id].job == s.txs[id].job && s'.txs[id].first == s.txs[id].first && s'.txs[id].second == s.txs[id].second
      && (l in s'.db.excluded ==> l in s.db.excluded)
      && (l in s.db.excluded && l !in s'.db.excluded <==> exists k: nat :: RemovedAt(s, events, k, id, l))
    decreases |events|
  {
    if events != [] {
      var next, rest := Do(s, events[0]), events[1..];
      DoKeepsGranted(s, events[0]);
      ReaderStays(s, events[0], id);
      OneEvent(s, events[0], id, l);
      RemovedFirst(s, events, id, l);
      GoneIsRemoved(next, rest, id, l);
      RemovedNowOrLater(s, events, id, l);
    }
  }

  lemma RemovedNowOrLater(s: System, events: seq<Event>, id: nat, l: Link)
    requires events != []
    ensures (exists k: nat :: RemovedAt(s, events, k, id, l))
      <==> RemovedAt(s, events, 0, id, l) || exists k: nat :: RemovedAt(Do(s, events[0]), events[1..], k, id, l)
  {
    if k: nat :| RemovedAt(Do(s, events[0]), events[1..], k, id, l) {
      RemovedLater(s, events, k, id, l);
    }
    if k: nat :| RemovedAt(s, events, k, id, l) {
      if k > 0 { RemovedLater(s, events, k - 1, id, l); }
    }
  }

  /** The replacement is there before and after each event of the span. */
  lemma {:induction false} ReaderReaches(s: System, events: seq<Event>, id: nat, k: nat)
    requires GrantedIn(s) && HasRead(s, id) && Running(s, events, id) && k < |events|
    ensures var before := Play(s, events[..k]);
      && GrantedIn(before) && HasRead(before, id) && before.txs[id].job == s.txs[id].job
      && id in Do(before, events[k]).txs
    decreases |events|
  {
    if k == 0 {
      assert events[..0] == [];
    } else {
      DoKeepsGranted(s, events[0]);
      ReaderStays(s, events[0], id);
      ReaderReaches(Do(s, events[0]), events[1..], id, k - 1);
      PlayRest(s, events, k);
    }
  }

  /** What takes an exclusion in a span is a replacement of the item's category or of the exclusion's group. */
  lemma RemovedByReplacement(s: System, events: seq<Event>, id: nat, l: Link, k: nat)
    requires GrantedIn(s) && HasRead(s, id) && Running(s, events, id) && l.owner == s.txs[id].job.item
    requires RemovedAt(s, events, k, id, l)
    ensures var before := Play(s, events[..k]);
      Commits(before, events[k]) && Takes(before.db, before.txs[events[k].id].job, l)
  {
    ReaderReaches(s, events, id, k);
    OneEvent(Play(s, events[..k]), events[k], id, l);
  }

  // ---------- the main results ----------

  /** A schedule in which a replacement reads its exclusions, runs on, and is ready to commit. */
  ghost predicate ReadThenReady(db: Tables, pre: seq<Event>, id: nat, mid: seq<Event>) {
    && ExclusionsProvided(db)
    && AboutToRead(Play(Start(db), pre), id)
    && Running(AfterRead(db, pre, id), mid, id)
    && Ready(Play(AfterRead(db, pre, id), mid), id)
  }

  /** The state in which the exclusions have just been read. */
  ghost function AfterRead(db: Tables, pre: seq<Event>, id: nat): System {
    Do(Play(Start(db), pre), Step(id))
  }

  /** The exclusion of `g` is deleted after it was read and before `g` is locked. */
  ghost predicate Lost(db: Tables, pre: seq<Event>, id: nat, mid: seq<Event>, item: Uuid, g: Uuid) {
    exists k: nat :: RemovedAt(AfterRead(db, pre, id), mid, k, id, Link(item, g))
  }

  /** The replacement itself. */
  ghost function JobOfRead(db: Tables, pre: seq<Event>, id: nat): (job: Job)
    requires AboutToRead(Play(Start(db), pre), id)
    ensures job.ReplaceItem?
  {
    Play(Start(db), pre).txs[id].job
  }

  lemma JustRead(s: System, id: nat)
    requires GrantedIn(s) && AboutToRead(s, id)
    ensures var start := Do(s, Step(id));
      && GrantedIn(start) && HasRead(start, id) && start.db == s.db && start.txs[id].job == s.txs[id].job
      && start.txs[id].second == GroupsOf(s.db.excluded, s.txs[id].job.item)
  {
    DoKeepsGranted(s, Step(id));
  }

  /** From the read on, what is gone is what was removed before its group was locked. */
  lemma GoneInSpan(start: System, events: seq<Event>, id: nat, g: Uuid)
    requires GrantedIn(start) && HasRead(start, id) && Running(start, events, id)
    requires start.txs[id].second == GroupsOf(start.db.excluded, start.txs[id].job.item)
    ensures var end := Play(start, events);
      && GrantedIn(end) && HasRead(end, id) && end.txs[id].job == start.txs[id].job
      && (g in Gone(end.db, end.txs[id])
          <==> exists k: nat :: RemovedAt(start, events, k, id, Link(start.txs[id].job.item, g)))
  {
    var item := start.txs[id].job.item;
    GoneIsRemoved(start, events, id, Link(item, g));
    GroupsOfMember(start.db.excluded, item, g);
    GroupsOfMember(Play(start, events).db.excluded, item, g);
  }

  lemma SpanFacts(db: Tables, pre: seq<Event>, id: nat, mid: seq<Event>)
    requires ReadThenReady(db, pre, id, mid)
    ensures var start := AfterRead(db, pre, id);
      var tx := start.txs[id];
      && GrantedIn(start) && HasRead(start, id) && start.db == Play(Start(db), pre).db
      && tx.job == JobOfRead(db, pre, id) && tx.second == GroupsOf(start.db.excluded, tx.job.item)
    ensures var end := Play(AfterRead(db, pre, id), mid);
      && GrantedIn(end) && end.txs[id].job == JobOfRead(db, pre, id)
      && forall g :: g in Gone(end.db, end.txs[id]) <==> Lost(db, pre, id, mid, end.txs[id].job.item, g)
  {
    PlayKeepsGranted(Start(db), pre);
    JustRead(Play(Start(db), pre), id);
    var start := AfterRead(db, pre, id);
    GoneInSpan(start, mid, id, NIL);
    forall g ensures g in Gone(Play(start, mid).db, Play(start, mid).txs[id])
                     <==> Lost(db, pre, id, mid, start.txs[id].job.item, g) {
      GoneInSpan(start, mid, id, g);
    }
  }

  /**
   A requested exclusion that was stored when the replacement read is not stored
   after its commit if and only if some commit deleted it between that read and
   the taking of the group's lock. The stored exclusions are exactly the
   requested ones if and only if no requested one was lost that way.
   */
  lemma ExclusionLostExactly(db: Tables, pre: seq<Event>, id: nat, mid: seq<Event>, g: Uuid)
    requires ReadThenReady(db, pre, id, mid)
    ensures var end := Play(AfterRead(db, pre, id), mid);
      var after := Do(end, Commit(id)).db;
      var job := JobOfRead(db, pre, id);
      && (g in job.excluded && Link(job.item, g) in Play(Start(db), pre).db.excluded ==>
            (Link(job.item, g) !in after.excluded <==> Lost(db, pre, id, mid, job.item, g)))
      && (GroupsOf(after.excluded, job.item) == job.excluded
          <==> forall x :: x in job.excluded ==> !Lost(db, pre, id, mid, job.item, x))
  {
    SpanFacts(db, pre, id, mid);
    CommitStores(Play(AfterRead(db, pre, id), mid), id, g);
  }

  lemma CommitStores(s: System, id: nat, g: Uuid)
    requires GrantedIn(s) && Ready(s, id) && s.txs[id].job.ReplaceItem?
    ensures var tx := s.txs[id];
      var after := Do(s, Commit(id)).db;
      && GroupsOf(after.excluded, tx.job.item) == tx.job.excluded - Gone(s.db, tx)
      && (Link(tx.job.item, g) in after.excluded <==> g in tx.job.excluded - Gone(s.db, tx))
  {
    var tx := s.txs[id];
    assert TxOk(s.db, tx) && ReadsHold(s.db, tx);
    PendingInstalled(s.db, tx);
    GroupsOfMember(Do(s, Commit(id)).db.excluded, tx.job.item, g);
  }

  /**
   So nothing is lost while no replacement of the item's category that drops a
   requested group, and no column-wise replacement of a requested group that
   drops the category, commits before that group is locked.
   */
  lemma UndisturbedStoresAll(db: Tables, pre: seq<Event>, id: nat, mid: seq<Event>)
    requires ReadThenReady(db, pre, id, mid)
    requires var job := JobOfRead(db, pre, id);
      forall k: nat, g :: g in job.excluded ==> !DisturbedAt(AfterRead(db, pre, id), mid, k, id, Link(job.item, g))
    ensures var end := Play(AfterRead(db, pre, id), mid);
      var job := JobOfRead(db, pre, id);
      GroupsOf(Do(end, Commit(id)).db.excluded, job.item) == job.excluded
  {
    SpanFacts(db, pre, id, mid);
    ExclusionLostExactly(db, pre, id, mid, NIL);
    var start := AfterRead(db, pre, id);
    var job := JobOfRead(db, pre, id);
    forall g | g in job.excluded ensures !Lost(db, pre, id, mid, job.item, g) {
      if k: nat :| RemovedAt(start, mid, k, id, Link(job.item, g)) {
        RemovedByReplacement(start, mid, id, Link(job.item, g), k);
        assert DisturbedAt(start, mid, k, id, Link(job.item, g));
      }
    }
  }

  /**
   The `k`-th event commits a command that drops the exclusion's group from its item's category, and
   the group is not locked yet.
   */
  ghost predicate DisturbedAt(s: System, events: seq<Event>, k: nat, id: nat, l: Link) {
    && k < |events|
    && var before := Play(s, events[..k]);
      && Commits(before, events[k]) && Takes(before.db, before.txs[events[k].id].job, l)
      && id in before.txs && GroupLock(l.group) !in before.txs[id].held
  }

  /**
   A committing item replacement is the serial command, accepted and with the
   same tables, if and only if between its read and the group's lock nobody
   deleted an exclusion it asked for, or one that let it make a group direct
   that is retired by now.
   */
  lemma ItemCommitIsSerialExactly(db: Tables, pre: seq<Event>, id: nat, mid: seq<Event>, cmd: Command)
    requires ReadThenReady(db, pre, id, mid)
    requires JobOf(cmd) == JobOfRead(db, pre, id) && Sendable(cmd)
    ensures var end := Play(AfterRead(db, pre, id), mid);
      var job := JobOfRead(db, pre, id);
      var o := Apply(end.db, cmd);
      (o.Done? && o.tables == Do(end, Commit(id)).db)
      <==> forall g :: Lost(db, pre, id, mid, job.item, g) ==>
             g !in job.excluded && !(g in job.direct && Link(job.item, g) !in end.db.direct && RetiredGroup(end.db, g))
  {
    SpanFacts(db, pre, id, mid);
    var end := Play(AfterRead(db, pre, id), mid);
    var tx := end.txs[id];
    AloneIsApply(end.db, cmd);
    ItemReplacementIsSerial(end, id);
    assert TxOk(end.db, tx) && ReadsHold(end.db, tx);
    forall g ensures g in tx.first <==> Link(tx.job.item, g) in end.db.direct {
      GroupsOfMember(end.db.direct, tx.job.item, g);
    }
  }

  /**
   It is the serial command down to the audit event if and only if none of the
   item's exclusions was lost, whether it asked for it or not.
   */
  lemma ItemAuditIsSerialExactly(db: Tables, pre: seq<Event>, id: nat, mid: seq<Event>, cmd: Command)
    requires ReadThenReady(db, pre, id, mid)
    requires JobOf(cmd) == JobOfRead(db, pre, id) && Sendable(cmd)
    ensures var end := Play(AfterRead(db, pre, id), mid);
      var o, audit := Apply(end.db, cmd), AuditOf(end.txs[id]);
      var lossless := forall g :: !Lost(db, pre, id, mid, JobOfRead(db, pre, id).item, g);
      && ((o.Done? && o.audit == audit) <==> lossless)
      && (o == Done(Do(end, Commit(id)).db, audit) <==> lossless)
  {
    SpanFacts(db, pre, id, mid);
    var end := Play(AfterRead(db, pre, id), mid);
    AloneIsApply(end.db, cmd);
    ItemAuditIsSerial(end, id);
    forall g ensures g in Gone(end.db, end.txs[id]) <==> Lost(db, pre, id, mid, JobOfRead(db, pre, id).item, g) {}
    assert Gone(end.db, end.txs[id]) == {} <==> forall g :: g !in Gone(end.db, end.txs[id]);
  }

  // ---------- retired groups ----------

  /**
   A retired group that the replacement makes direct while it was excluded when
   read, or excludes while it is direct, told by the tables at the commit and
   what was lost before it.
   */
  ghost predicate MovesRetired(t: Tables, job: Job, g: Uuid, lost: bool)
    requires job.ReplaceItem?
  {
    var direct, excluded := Link(job.item, g) in t.direct, Link(job.item, g) in t.excluded;
    RetiredGroup(t, g)
    && ((g in job.direct && !direct && (excluded || lost)) || (g in job.excluded && direct && !excluded && !lost))
  }

  /** A commit of an item replacement adds links between active rows only, if and only if it moves no retired group. */
  lemma ItemAddsOnlyActiveExactly(db: Tables, pre: seq<Event>, id: nat, mid: seq<Event>)
    requires ReadThenReady(db, pre, id, mid)
    ensures var end := Play(AfterRead(db, pre, id), mid);
      var job := JobOfRead(db, pre, id);
      AddsOnlyActive(end.db, Do(end, Commit(id)).db)
      <==> forall g :: !MovesRetired(end.db, job, g, Lost(db, pre, id, mid, job.item, g))
  {
    SpanFacts(db, pre, id, mid);
    var end := Play(AfterRead(db, pre, id), mid);
    CommitAddsOnlyActive(end, id);
    assert ReadsHold(end.db, end.txs[id]);
    forall g ensures SwitchesSides(end.db, end.txs[id], g)
                     <==> MovesRetired(end.db, end.txs[id].job, g, Lost(db, pre, id, mid, end.txs[id].job.item, g)) {
      SwitchesByTables(end.db, end.txs[id], g);
    }
  }

  lemma SwitchesByTables(db: Tables, tx: Tx, g: Uuid)
    requires tx.job.ReplaceItem? && (tx.phase == Checking || tx.phase == Writing) && ReadsHold(db, tx)
    ensures SwitchesSides(db, tx, g) <==> MovesRetired(db, tx.job, g, g in Gone(db, tx))
  {
    GroupsOfMember(db.direct, tx.job.item, g);
    GroupsOfMember(db.excluded, tx.job.item, g);
  }
}
