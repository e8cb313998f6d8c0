/**
 What the session statements do, with the times written out: how long an idle session is
 accepted, what locks and unlocks it, and what a sign-out, a disable and an unlock leave.
 */
module SessionRules {
  import opened Prelude
  import opened Uuids
  import opened Sessions

  // ---------- acceptance ----------

  const SECOND: int := 1_000_000_000

  /** Idle minutes after which a session is locked. */
  function IdleMinutes(workspace: Option<Workspace>): int {
    match workspace
    case Some(PreparationSpace) => 15
    case Some(CashierSpace) => 5
    case Some(ManagerSpace) => 5
    case None => 5
  }

  /** Everything but the state and the time of the last activity allows the session. */
  ghost predicate InForce(db: Db, sid: Uuid, now: int) {
    && sid in db.sessions && !db.sessions[sid].revoked && now <= db.sessions[sid].expires
    && db.sessions[sid].staff in db.staff && db.staff[db.sessions[sid].staff].enabled
  }

  /** Less time than the limit of its workspace has passed since the session's last activity. */
  ghost predicate Recent(row: Session, now: int) {
    now - row.activity < IdleMinutes(row.workspace) * 60 * SECOND
  }

  /**
   A session is accepted if and only if it is in force and active, and its last activity is
   less than 15 minutes ago in the preparation space, less than 5 anywhere else. One that
   is in force and active and not accepted is locked by the call, and nothing else changes.
   */
  lemma AcceptedExactly(db: Db, sid: Uuid, now: int)
    ensures Accepted(db, sid, now)
      <==> InForce(db, sid, now) && db.sessions[sid].state == Active && Recent(db.sessions[sid], now)
    ensures AfterAuth(db, sid, now)
      == if InForce(db, sid, now) && db.sessions[sid].state == Active && !Recent(db.sessions[sid], now)
         then db.(sessions := db.sessions[sid := db.sessions[sid].(state := Locked)])
         else db
  {
    assert MINUTE == 60 * SECOND;
  }

  // ---------- idle sessions ----------

  /** The event is activity or a workspace of the session, or the commit of an unlock of it. */
  ghost predicate Wakes(s: System, e: Event, sid: Uuid) {
    || (e.Activity? && e.sid == sid) || (e.Declare? && e.sid == sid)
    || UnlockCommits(s, e, sid)
  }

  ghost predicate UnlockCommits(s: System, e: Event, sid: Uuid) {
    e.Commit? && e.id in s.requests && s.requests[e.id].Unlocking? && s.requests[e.id].sid == sid
    && s.requests[e.id].updated.Some?
  }

  /** No event of the schedule wakes the session. */
  ghost predicate Quiet(s: System, events: seq<Event>, sid: Uuid)
    decreases |events|
  {
    events != [] ==> !Wakes(s, events[0], sid) && Quiet(Do(s, events[0]), events[1..], sid)
  }

  /** No unlock of the session commits in the schedule. */
  ghost predicate NotUnlocked(s: System, events: seq<Event>, sid: Uuid)
    decreases |events|
  {
    events != [] ==> !UnlockCommits(s, events[0], sid) && NotUnlocked(Do(s, events[0]), events[1..], sid)
  }

  lemma QuietStep(s: System, e: Event, sid: Uuid)
    requires sid in s.db.sessions && !Wakes(s, e, sid)
    ensures sid in Do(s, e).db.sessions
    ensures var a, b := s.db.sessions[sid], Do(s, e).db.sessions[sid];
      b.activity == a.activity && b.workspace == a.workspace && (a.state == Locked ==> b.state == Locked)
  {
    DoContinues(s, e);
  }

  lemma {:induction false} QuietKeeps(s: System, events: seq<Event>, sid: Uuid)
    requires sid in s.db.sessions && Quiet(s, events, sid)
    ensures sid in Play(s, events).db.sessions
    ensures var a, b := s.db.sessions[sid], Play(s, events).db.sessions[sid];
      b.activity == a.activity && b.workspace == a.workspace
    decreases |events|
  {
    if events != [] {
      QuietStep(s, events[0], sid);
      QuietKeeps(Do(s, events[0]), events[1..], sid);
    }
  }

  lemma LockedStep(s: System, e: Event, sid: Uuid)
    requires sid in s.db.sessions && s.db.sessions[sid].state == Locked && !UnlockCommits(s, e, sid)
    ensures sid in Do(s, e).db.sessions && Do(s, e).db.sessions[sid].state == Locked
  {
    DoContinues(s, e);
  }

  /** A locked session is not accepted, whatever happens, until an unlock of it commits. */
  lemma {:induction false} LockedStaysOut(s: System, events: seq<Event>, sid: Uuid, now: int)
    requires sid in s.db.sessions && s.db.sessions[sid].state == Locked && NotUnlocked(s, events, sid)
    ensures !Accepted(Play(s, events).db, sid, now)
    decreases |events|
  {
    if events != [] {
      LockedStep(s, events[0], sid);
      LockedStaysOut(Do(s, events[0]), events[1..], sid, now);
    }
  }

  /**
   A session with no activity, workspace or unlock for as long as its workspace allows is
   not accepted; and when a request then touches it while its row is free, it stays out
   until an unlock commits, even for clocks that go back.
   */
  lemma IdleIsLockedOut(s: System, quiet: seq<Event>, sid: Uuid, now: int, later: seq<Event>, at: int)
    requires sid in s.db.sessions && Quiet(s, quiet, sid) && !Recent(s.db.sessions[sid], now)
    ensures !Accepted(Play(s, quiet).db, sid, now)
    ensures var idle := Play(s, quiet);
      var touched := Do(idle, Auth(sid, now));
      InForce(idle.db, sid, now) && RowFree(idle, sid) && NotUnlocked(touched, later, sid) ==>
        touched.db.sessions[sid].state == Locked && !Accepted(Play(touched, later).db, sid, at)
  {
    QuietKeeps(s, quiet, sid);
    var idle := Play(s, quiet);
    AcceptedExactly(idle.db, sid, now);
    var touched := Do(idle, Auth(sid, now));
    if InForce(idle.db, sid, now) && RowFree(idle, sid) && NotUnlocked(touched, later, sid) {
      LockedStaysOut(touched, later, sid, at);
    }
  }

  // ---------- sign-in, sign-out and lock ----------

  /** A sign-in starts an active session without workspace that ends twelve hours later. */
  lemma SignInStarts(s: System, id: nat, sid: Uuid, now: int)
    requires id in s.requests && s.requests[id].SigningIn? && sid !in s.db.sessions
    ensures Do(s, SignInInsert(id, sid, now)).db.sessions
      == s.db.sessions[sid := Session(s.requests[id].staff, Active, None, now, now + 12 * 60 * 60 * SECOND, false)]
    ensures forall at ::
      (Accepted(Do(s, SignInInsert(id, sid, now)).db, sid, at)
       <==> at < now + 5 * 60 * SECOND && Enabled(s.db, s.requests[id].staff))
  {
    var after := Do(s, SignInInsert(id, sid, now)).db;
    forall at ensures Accepted(after, sid, at) <==> at < now + 5 * 60 * SECOND && Enabled(s.db, s.requests[id].staff) {
      AcceptedExactly(after, sid, at);
    }
  }

  ghost predicate Enabled(db: Db, x: Uuid) {
    x in db.staff && db.staff[x].enabled
  }

  /** A session that signed out is never accepted again; one that was locked is not until an unlock of it commits. */
  lemma SignedOutOrLocked(s: System, sid: Uuid, later: seq<Event>, now: int)
    requires sid in s.db.sessions && !s.db.sessions[sid].revoked && RowFree(s, sid)
    ensures !Accepted(Play(Do(s, SignOut(sid)), later).db, sid, now)
    ensures NotUnlocked(Do(s, Lock(sid)), later, sid) ==> !Accepted(Play(Do(s, Lock(sid)), later).db, sid, now)
  {
    PlayContinues(Do(s, SignOut(sid)), later);
    if NotUnlocked(Do(s, Lock(sid)), later, sid) { LockedStaysOut(Do(s, Lock(sid)), later, sid, now); }
  }

  // ---------- unlock ----------

  /** Updated rows belong to one transaction, and a session an unlock has updated is not revoked. */
  ghost predicate RowsKept(s: System) {
    && (forall a, b :: a in s.requests && b in s.requests && a != b ==> Rows(s.requests[a]) !! Rows(s.requests[b]))
    && forall id :: id in s.requests && s.requests[id].Unlocking? && s.requests[id].updated.Some? ==>
         s.requests[id].sid in s.db.sessions && !s.db.sessions[s.requests[id].sid].revoked
  }

  ghost predicate Unlocked(db: Db, r: Request) {
    r.Unlocking? && r.updated.Some? ==> r.sid in db.sessions && !db.sessions[r.sid].revoked
  }

  lemma DoKeepsRows(s: System, e: Event)
    requires RowsKept(s) && Sound(s)
    ensures RowsKept(Do(s, e))
  {
    var s' := Do(s, e);
    DoKeepsExclusive(s, e);
    DoContinues(s, e);
    forall id | id in s'.requests && s'.requests[id].Unlocking? && s'.requests[id].updated.Some?
      ensures Unlocked(s'.db, s'.requests[id])
    {
      if id in s.requests && s'.requests[id] == s.requests[id] {
        UnlockedStays(s, e, id);
      }
    }
  }

  lemma DoKeepsExclusive(s: System, e: Event)
    requires RowsKept(s)
    ensures var r := Do(s, e).requests; forall a, b :: a in r && b in r && a != b ==> Rows(r[a]) !! Rows(r[b])
  {
  }

  lemma UnlockedStays(s: System, e: Event, id: nat)
    requires RowsKept(s) && id in s.requests && s.requests[id].Unlocking? && s.requests[id].updated.Some?
    requires id in Do(s, e).requests
    ensures Unlocked(Do(s, e).db, s.requests[id])
  {
    var sid := s.requests[id].sid;
    assert sid in Rows(s.requests[id]);
    assert !RowFree(s, sid);
  }

  lemma {:induction false} PlayKeepsRows(s: System, events: seq<Event>)
    requires RowsKept(s) && Sound(s)
    ensures RowsKept(Play(s, events)) && Sound(Play(s, events))
    decreases |events|
  {
    if events != [] {
      DoKeepsRows(s, events[0]);
      DoKeepsSound(s, events[0]);
      PlayKeepsRows(Do(s, events[0]), events[1..]);
    }
  }

  /**
   An unlock that commits leaves its session unrevoked and active with the time of the
   unlock as its last activity, and changes nothing else.
   */
  lemma CommittedUnlockActivates(db: Db, events: seq<Event>, id: nat, now: int)
    requires var s := Play(Start(db), events);
      id in s.requests && s.requests[id].Unlocking? && s.requests[id].updated == Some(now)
    ensures var s := Play(Start(db), events);
      var sid := s.requests[id].sid;
      && sid in s.db.sessions && !s.db.sessions[sid].revoked
      && Do(s, Commit(id)).db
         == s.db.(sessions := s.db.sessions[sid := s.db.sessions[sid].(state := Active, activity := now)])
  {
    PlayKeepsRows(Start(db), events);
  }

  // ---------- disable ----------

  /** The change of a member that a revocation carries: a disable has a flag, a reset has a PIN. */
  ghost predicate OnlyDisables(s: System) {
    forall id :: id in s.requests && s.requests[id].Revoking? && s.requests[id].enabled.Some? ==>
      !s.requests[id].enabled.value
  }

  lemma DisabledStep(s: System, e: Event, x: Uuid)
    requires OnlyDisables(s)
    ensures OnlyDisables(Do(s, e))
    ensures x in s.db.staff && !s.db.staff[x].enabled && e != Enable(x) ==>
      x in Do(s, e).db.staff && !Do(s, e).db.staff[x].enabled
  {
  }

  /** The schedule does not enable the member. */
  ghost predicate NotEnabled(events: seq<Event>, x: Uuid) {
    Enable(x) !in events
  }

  lemma {:induction false} DisabledStays(s: System, events: seq<Event>, x: Uuid)
    requires OnlyDisables(s) && NotEnabled(events, x)
    ensures OnlyDisables(Play(s, events))
    ensures x in s.db.staff && !s.db.staff[x].enabled ==>
      x in Play(s, events).db.staff && !Play(s, events).db.staff[x].enabled
    decreases |events|
  {
    if events != [] {
      DisabledStep(s, events[0], x);
      DisabledStays(Do(s, events[0]), events[1..], x);
    }
  }

  lemma {:induction false} PlayOnlyDisables(s: System, events: seq<Event>)
    requires OnlyDisables(s)
    ensures OnlyDisables(Play(s, events))
    decreases |events|
  {
    if events != [] {
      DisabledStep(s, events[0], NIL);
      PlayOnlyDisables(Do(s, events[0]), events[1..]);
    }
  }

  /**
   After a committed disable of a member, until an enable: no sign-in of the member begins,
   no unlock of one of the member's sessions begins, and none of them is accepted.
   */
  lemma DisableHolds(db: Db, events: seq<Event>, id: nat, later: seq<Event>, e: Event)
    requires var s := Play(Start(db), events);
      && id in s.requests && s.requests[id].Revoking? && s.requests[id].enabled.Some?
      && s.requests[id].progress.Revoked? && NotEnabled(later, s.requests[id].staff)
    ensures var s := Play(Start(db), events);
      var x := s.requests[id].staff;
      var t := Play(Do(s, Commit(id)), later);
      && x in t.db.staff && !t.db.staff[x].enabled
      && (e.SignInRead? && e.staff == x ==> Do(t, e) == t)
      && (e.UnlockRead? && e.sid in SessionsOf(t.db, x) ==> Do(t, e) == t)
      && forall sid, now :: sid in SessionsOf(t.db, x) ==> !Accepted(t.db, sid, now)
  {
    PlayOnlyDisables(Start(db), events);
    var s := Play(Start(db), events);
    DisabledStep(s, Commit(id), NIL);
    DisabledStays(Do(s, Commit(id)), later, s.requests[id].staff);
  }

  // ---------- requests that nothing interrupts ----------

  /** Activity, a workspace and an enable do what they say, and nothing else. */
  lemma StatementEffects(s: System, sid: Uuid, now: int, w: Workspace, x: Uuid)
    requires sid in s.db.sessions && !s.db.sessions[sid].revoked && RowFree(s, sid) && x in s.db.staff
    ensures var row := s.db.sessions[sid];
      && Do(s, Activity(sid, now)) == s.(db := s.db.(sessions := s.db.sessions[sid := row.(activity := now)]))
      && Do(s, Declare(sid, w)) == s.(db := s.db.(sessions := s.db.sessions[sid := row.(workspace := Some(w))]))
      && Do(s, Enable(x)) == s.(db := s.db.(staff := s.db.staff[x := Staff(true, s.db.staff[x].pin)]))
  {
  }

  /** A sign-in begins exactly with the PIN of an enabled member. */
  lemma SignInBegins(s: System, id: nat, x: Uuid, pin: int)
    requires id !in s.requests
    ensures Do(s, SignInRead(id, x, pin))
      == if Enabled(s.db, x) && s.db.staff[x].pin == pin then s.(requests := s.requests[id := SigningIn(x)]) else s
  {
  }

  /** An unlock with the right PIN of a session in force goes through, and with another PIN does nothing. */
  lemma UnlockAlone(s: System, id: nat, sid: Uuid, pin: int, now: int, at: int)
    requires id !in s.requests && InForce(s.db, sid, now) && RowFree(s, sid)
    ensures if s.db.staff[s.db.sessions[sid].staff].pin == pin then
        Do(Do(Do(s, UnlockRead(id, sid, pin, now)), UnlockUpdate(id, at)), Commit(id))
        == s.(db := s.db.(sessions := s.db.sessions[sid := s.db.sessions[sid].(state := Active, activity := at)]))
      else Do(s, UnlockRead(id, sid, pin, now)) == s
  {
    if s.db.staff[s.db.sessions[sid].staff].pin == pin {
      var read := s.(requests := s.requests[id := Unlocking(sid, None)]);
      assert Do(s, UnlockRead(id, sid, pin, now)) == read;
      assert RowFree(read, sid);
      assert Do(read, UnlockUpdate(id, at)) == s.(requests := s.requests[id := Unlocking(sid, Some(at))]);
      assert s.requests[id := Unlocking(sid, Some(at))] - {id} == s.requests;
    }
  }

  /** A revocation whose rows nobody holds goes through, and revokes all of the member's sessions and no other. */
  lemma RevocationAlone(s: System, id: nat, x: Uuid, enabled: Option<bool>, pin: Option<int>)
    requires id !in s.requests && x in s.db.staff && forall sid :: sid in SessionsOf(s.db, x) ==> RowFree(s, sid)
    ensures var open := s.(requests := s.requests[id := Revoking(x, enabled, pin, Open)]);
      var t := Do(Do(Do(open, Scan(id)), Revoke(id)), Commit(id));
      var row := s.db.staff[x];
      && t.requests == s.requests && t.db.sessions.Keys == s.db.sessions.Keys
      && t.db.staff == s.db.staff[x := Staff(if enabled.Some? then enabled.value else row.enabled,
                                              if pin.Some? then pin.value else row.pin)]
      && forall sid :: sid in s.db.sessions ==>
           t.db.sessions[sid] == if s.db.sessions[sid].staff == x then s.db.sessions[sid].(revoked := true)
                                 else s.db.sessions[sid]
  {
    var existing := SessionsOf(s.db, x);
    var open := s.(requests := s.requests[id := Revoking(x, enabled, pin, Open)]);
    var scanned := s.(requests := s.requests[id := Revoking(x, enabled, pin, Scanned(existing))]);
    assert Do(open, Scan(id)) == scanned;
    RevokesRows(s, id, x, enabled, pin, existing);
  }

  lemma RevokesRows(s: System, id: nat, x: Uuid, enabled: Option<bool>, pin: Option<int>, existing: set<Uuid>)
    requires id !in s.requests && x in s.db.staff && existing == SessionsOf(s.db, x)
    requires forall sid :: sid in existing ==> RowFree(s, sid)
    ensures var scanned := s.(requests := s.requests[id := Revoking(x, enabled, pin, Scanned(existing))]);
      Do(scanned, Revoke(id))
      == s.(requests := s.requests[id := Revoking(x, enabled, pin, Revoked(existing, Unrevoked(s.db, existing)))])
    ensures var revoked := Revoking(x, enabled, pin, Revoked(existing, Unrevoked(s.db, existing)));
      s.requests[id := revoked] - {id} == s.requests
  {
    var scanned := s.(requests := s.requests[id := Revoking(x, enabled, pin, Scanned(existing))]);
    forall sid | sid in existing ensures RowFree(scanned, sid) { assert RowFree(s, sid); }
  }

  /** A reset begins for any member, a disable for an enabled one. */
  lemma RevocationBegins(s: System, id: nat, x: Uuid, pin: int)
    requires id !in s.requests && x in s.db.staff
    ensures Do(s, ResetPin(id, x, pin)) == s.(requests := s.requests[id := Revoking(x, None, Some(pin), Open)])
    ensures Do(s, Disable(id, x))
      == if s.db.staff[x].enabled then s.(requests := s.requests[id := Revoking(x, Some(false), None, Open)]) else s
  {
  }
}
