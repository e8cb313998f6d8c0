/**
 Session lifecycle: sign-in, the authentication check, locking and unlocking,
 and the revocation that a PIN reset or a disablement carries out. Any number of
 requests run at once, statement by statement at READ COMMITTED.
 */
module Sessions {
  import opened Prelude
  import opened Uuids

  datatype Workspace = CashierSpace | ManagerSpace | PreparationSpace

  datatype State = Active | Locked

  datatype Staff = Staff(enabled: bool, pin: int)

  /** A session row; times are in nanoseconds. */
  datatype Session = Session(
    staff: Uuid, state: State, workspace: Option<Workspace>, activity: int, expires: int, revoked: bool)

  datatype Db = Db(staff: map<Uuid, Staff>, sessions: map<Uuid, Session>)

  const MINUTE: int := 60_000_000_000
  const SESSION_DURATION: int := 12 * 60 * MINUTE
  const PREPARATION_TIMEOUT: int := 15 * MINUTE
  const DEFAULT_TIMEOUT: int := 5 * MINUTE

  function Timeout(w: Option<Workspace>): int {
    if w == Some(PreparationSpace) then PREPARATION_TIMEOUT else DEFAULT_TIMEOUT
  }

  /** The session is known, unrevoked and unexpired, and its owner is enabled. */
  predicate Usable(db: Db, sid: Uuid, now: int) {
    && sid in db.sessions && !db.sessions[sid].revoked && now <= db.sessions[sid].expires
    && db.sessions[sid].staff in db.staff && db.staff[db.sessions[sid].staff].enabled
  }

  predicate Idle(s: Session, now: int) {
    s.state == Active && now - s.activity >= Timeout(s.workspace)
  }

  /** `RequireAuth` lets the request through. */
  predicate Accepted(db: Db, sid: Uuid, now: int) {
    Usable(db, sid, now) && db.sessions[sid].state == Active && !Idle(db.sessions[sid], now)
  }

  /** An update of one unrevoked session row. */
  function Updated(db: Db, sid: Uuid, row: Session): Db {
    if sid in db.sessions && !db.sessions[sid].revoked then db.(sessions := db.sessions[sid := row]) else db
  }

  /** The inactivity lock of `RequireAuth`. */
  function AfterAuth(db: Db, sid: Uuid, now: int): Db {
    if Usable(db, sid, now) && Idle(db.sessions[sid], now) then Updated(db, sid, db.sessions[sid].(state := Locked))
    else db
  }

  class Middleware {
    var db: Db

    constructor (db: Db)
      ensures this.db == db
    {
      this.db := db;
    }

    /** `RequireAuth`, without its role check. */
    method RequireAuth(sid: Uuid, now: int) returns (ok: bool)
      modifies this
      ensures ok <==> Accepted(old(db), sid, now)
      ensures db == AfterAuth(old(db), sid, now)
    {
      if sid !in db.sessions { return false; }
      var session := db.sessions[sid];
      if session.staff !in db.staff { return false; }
      if session.revoked || now > session.expires || !db.staff[session.staff].enabled { return false; }
      if session.state == Active && now - session.activity >= Timeout(session.workspace) {
        session := session.(state := Locked);
        db := db.(sessions := db.sessions[sid := session]);
      }
      return session.state == Active;
    }
  }

  // ---------- requests at once ----------

  /** How far a revoking transaction is; `existing` are the owner's sessions when its revoke statement began. */
  datatype Progress =
    | Open
    | Scanned(existing: set<Uuid>)
    | Revoked(existing: set<Uuid>, rows: set<Uuid>)

  datatype Request =
    | SigningIn(staff: Uuid)
    | Unlocking(sid: Uuid, updated: Option<int>)
    | Revoking(staff: Uuid, enabled: Option<bool>, pin: Option<int>, progress: Progress)

  /** `cut` are the sessions that committed revocations were to end. */
  datatype System = System(db: Db, requests: map<nat, Request>, cut: set<Uuid>)

  datatype Event =
    | SignInRead(id: nat, staff: Uuid, pin: int)
    | SignInInsert(id: nat, sid: Uuid, now: int)
    | Auth(sid: Uuid, now: int)
    | Lock(sid: Uuid)
    | Activity(sid: Uuid, now: int)
    | Declare(sid: Uuid, workspace: Workspace)
    | SignOut(sid: Uuid)
    | Enable(staff: Uuid)
    | UnlockRead(id: nat, sid: Uuid, pin: int, now: int)
    | UnlockUpdate(id: nat, now: int)
    | ResetPin(id: nat, staff: Uuid, pin: int)
    | Disable(id: nat, staff: Uuid)
    | Scan(id: nat)
    | Revoke(id: nat)
    | Commit(id: nat)
    | Abort(id: nat)

  /** The rows an open transaction has updated and so keeps locked. */
  function Rows(r: Request): set<Uuid> {
    match r
    case Unlocking(sid, Some(_)) => {sid}
    case Revoking(_, _, _, Revoked(_, rows)) => rows
    case _ => {}
  }

  ghost predicate RowFree(s: System, sid: Uuid) {
    forall id :: id in s.requests ==> sid !in Rows(s.requests[id])
  }

  /** A single-row statement outside a transaction; it waits while the row is locked. */
  ghost function Row(s: System, sid: Uuid, db: Db): System {
    if RowFree(s, sid) then s.(db := db) else s
  }

  function SessionsOf(db: Db, staff: Uuid): set<Uuid> {
    set sid | sid in db.sessions && db.sessions[sid].staff == staff
  }

  function Unrevoked(db: Db, rows: set<Uuid>): set<Uuid> {
    set sid | sid in rows && sid in db.sessions && !db.sessions[sid].revoked
  }

  function RevokedIn(sessions: map<Uuid, Session>, rows: set<Uuid>): map<Uuid, Session> {
    map sid | sid in sessions :: if sid in rows then sessions[sid].(revoked := true) else sessions[sid]
  }

  ghost function CommitRequest(s: System, id: nat): System
    requires id in s.requests
  {
    match s.requests[id]
    case Unlocking(sid, Some(now)) =>
      System(if sid in s.db.sessions
             then s.db.(sessions := s.db.sessions[sid := s.db.sessions[sid].(state := Active, activity := now)])
             else s.db, s.requests - {id}, s.cut)
    case Revoking(staff, enabled, pin, Revoked(existing, rows)) =>
      var was := if staff in s.db.staff then s.db.staff[staff] else Staff(false, 0);
      var row := Staff(if enabled.Some? then enabled.value else was.enabled, if pin.Some? then pin.value else was.pin);
      System(Db(s.db.staff[staff := row], RevokedIn(s.db.sessions, rows)), s.requests - {id}, s.cut + existing)
    case _ => s
  }

  ghost function Do(s: System, e: Event): System {
    match e
    case SignInRead(id, staff, pin) =>
      if id !in s.requests && staff in s.db.staff && s.db.staff[staff].pin == pin && s.db.staff[staff].enabled
      then s.(requests := s.requests[id := SigningIn(staff)]) else s
    case SignInInsert(id, sid, now) =>
      if id in s.requests && s.requests[id].SigningIn? && sid !in s.db.sessions then
        var session := Session(s.requests[id].staff, Active, None, now, now + SESSION_DURATION, false);
        s.(db := s.db.(sessions := s.db.sessions[sid := session]),
           requests := s.requests - {id})
      else s
    case Auth(sid, now) => Row(s, sid, AfterAuth(s.db, sid, now))
    case Lock(sid) =>
      if sid in s.db.sessions then Row(s, sid, Updated(s.db, sid, s.db.sessions[sid].(state := Locked))) else s
    case Activity(sid, now) =>
      if sid in s.db.sessions then Row(s, sid, Updated(s.db, sid, s.db.sessions[sid].(activity := now))) else s
    case Declare(sid, w) =>
      if sid in s.db.sessions then Row(s, sid, Updated(s.db, sid, s.db.sessions[sid].(workspace := Some(w)))) else s
    case SignOut(sid) =>
      if sid in s.db.sessions then Row(s, sid, Updated(s.db, sid, s.db.sessions[sid].(revoked := true))) else s
    case Enable(staff) =>
      if staff in s.db.staff then s.(db := s.db.(staff := s.db.staff[staff := s.db.staff[staff].(enabled := true)]))
      else s
    case UnlockRead(id, sid, pin, now) =>
      if id !in s.requests && Usable(s.db, sid, now) && s.db.staff[s.db.sessions[sid].staff].pin == pin
      then s.(requests := s.requests[id := Unlocking(sid, None)]) else s
    case UnlockUpdate(id, now) =>
      if id in s.requests && s.requests[id].Unlocking? && s.requests[id].updated.None?
        && RowFree(s, s.requests[id].sid) then
        var sid := s.requests[id].sid;
        if sid in s.db.sessions && !s.db.sessions[sid].revoked
        then s.(requests := s.requests[id := s.requests[id].(updated := Some(now))])
        else s.(requests := s.requests - {id})
      else s
    case ResetPin(id, staff, pin) =>
      if id !in s.requests && staff in s.db.staff
      then s.(requests := s.requests[id := Revoking(staff, None, Some(pin), Open)]) else s
    case Disable(id, staff) =>
      if id !in s.requests && staff in s.db.staff && s.db.staff[staff].enabled
      then s.(requests := s.requests[id := Revoking(staff, Some(false), None, Open)]) else s
    case Scan(id) =>
      if id in s.requests && s.requests[id].Revoking? && s.requests[id].progress.Open?
      then
        var existing := SessionsOf(s.db, s.requests[id].staff);
        s.(requests := s.requests[id := s.requests[id].(progress := Scanned(existing))])
      else s
    case Revoke(id) =>
      if id in s.requests && s.requests[id].Revoking? && s.requests[id].progress.Scanned?
         && forall sid :: sid in s.requests[id].progress.existing ==> RowFree(s, sid)
      then
        var existing := s.requests[id].progress.existing;
        s.(requests := s.requests[id := s.requests[id].(progress := Revoked(existing, Unrevoked(s.db, existing)))])
      else s
    case Commit(id) => if id in s.requests then CommitRequest(s, id) else s
    case Abort(id) => s.(requests := s.requests - {id})
  }

  ghost function Play(s: System, events: seq<Event>): System
    decreases |events|
  {
    if events == [] then s else Play(Do(s, events[0]), events[1..])
  }

  ghost function Start(db: Db): System { System(db, map[], {}) }

  // ---------- what never changes ----------

  /** Sessions stay, keep their owner and expiry, and never lose a revocation. */
  ghost predicate Continues(a: Db, b: Db) {
    forall sid :: sid in a.sessions ==>
      && sid in b.sessions
      && b.sessions[sid].staff == a.sessions[sid].staff
      && b.sessions[sid].expires == a.sessions[sid].expires
      && (a.sessions[sid].revoked ==> b.sessions[sid].revoked)
  }

  lemma DoContinues(s: System, e: Event)
    ensures Continues(s.db, Do(s, e).db)
  {
  }

  lemma {:induction false} PlayContinues(s: System, events: seq<Event>)
    ensures Continues(s.db, Play(s, events).db)
    decreases |events|
  {
    if events != [] {
      DoContinues(s, events[0]);
      PlayContinues(Do(s, events[0]), events[1..]);
    }
  }

  /** Whatever happens, no session is accepted after the expiry it was given. */
  lemma NeverAcceptedAfterExpiry(s: System, events: seq<Event>, sid: Uuid, now: int)
    requires sid in s.db.sessions && now > s.db.sessions[sid].expires
    ensures !Accepted(Play(s, events).db, sid, now)
  {
    PlayContinues(s, events);
  }

  // ---------- revocation ----------

  ghost predicate RequestOk(db: Db, r: Request) {
    match r
    case SigningIn(_) => true
    case Unlocking(sid, _) => sid in db.sessions
    case Revoking(staff, _, _, Open) => true
    case Revoking(staff, _, _, Scanned(existing)) => existing <= SessionsOf(db, staff)
    case Revoking(staff, _, _, Revoked(existing, rows)) =>
      && rows <= existing <= SessionsOf(db, staff)
      && forall sid :: sid in existing ==> db.sessions[sid].revoked || sid in rows
  }

  ghost predicate Sound(s: System) {
    && (forall sid :: sid in s.cut ==> sid in s.db.sessions && s.db.sessions[sid].revoked)
    && forall id :: id in s.requests ==> RequestOk(s.db, s.requests[id])
  }

  lemma ContinuesKeepsRequest(a: Db, b: Db, r: Request)
    requires Continues(a, b) && RequestOk(a, r)
    ensures RequestOk(b, r)
  {
  }

  lemma DoKeepsSound(s: System, e: Event)
    requires Sound(s)
    ensures Sound(Do(s, e))
  {
    var s' := Do(s, e);
    DoContinues(s, e);
    forall id | id in s'.requests ensures RequestOk(s'.db, s'.requests[id]) {
      if id in s.requests && s'.requests[id] == s.requests[id] {
        ContinuesKeepsRequest(s.db, s'.db, s.requests[id]);
      } else {
        assert id in s.requests ==> RequestOk(s.db, s.requests[id]);
      }
    }
    DoKeepsCut(s, e);
  }

  lemma DoKeepsCut(s: System, e: Event)
    requires Sound(s)
    ensures var s' := Do(s, e); forall sid :: sid in s'.cut ==> sid in s'.db.sessions && s'.db.sessions[sid].revoked
  {
    DoContinues(s, e);
    if e.Commit? && e.id in s.requests { assert RequestOk(s.db, s.requests[e.id]); }
  }

  lemma {:induction false} PlayKeepsSound(s: System, events: seq<Event>)
    requires Sound(s)
    ensures Sound(Play(s, events))
    decreases |events|
  {
    if events != [] {
      DoKeepsSound(s, events[0]);
      PlayKeepsSound(Do(s, events[0]), events[1..]);
    }
  }

  /**
   A session that existed when the revoke statement of a committed PIN reset or
   disablement began is never accepted again, whatever unlocks, locks, activity,
   workspace changes, sign-ins and re-enables interleave.
   */
  lemma CutNeverAccepted(db: Db, events: seq<Event>, sid: Uuid, now: int)
    requires sid in Play(Start(db), events).cut
    ensures !Accepted(Play(Start(db), events).db, sid, now)
  {
    PlayKeepsSound(Start(db), events);
  }

  /** What the commit of a revocation does to the member's sessions. */
  lemma CommitRevokes(s: System, id: nat)
    requires Sound(s) && id in s.requests && s.requests[id].Revoking? && s.requests[id].progress.Revoked?
    ensures var r := s.requests[id];
      var s' := Do(s, Commit(id));
      && SessionsOf(s'.db, r.staff) == SessionsOf(s.db, r.staff)
      && r.progress.existing <= s'.cut
      && forall sid :: sid in SessionsOf(s.db, r.staff) ==>
           (s'.db.sessions[sid].revoked <==> sid in r.progress.existing || s.db.sessions[sid].revoked)
  {
    var r := s.requests[id];
    assert RequestOk(s.db, r);
    var s' := Do(s, Commit(id));
    assert s'.db.sessions == RevokedIn(s.db.sessions, r.progress.rows);
    assert forall sid :: sid in s.db.sessions ==>
      s'.db.sessions[sid].staff == s.db.sessions[sid].staff
      && (s'.db.sessions[sid].revoked <==> s.db.sessions[sid].revoked || sid in r.progress.rows);
    assert SessionsOf(s'.db, r.staff) == SessionsOf(s.db, r.staff);
    assert forall sid :: sid in SessionsOf(s.db, r.staff) ==> sid in s.db.sessions;
  }

  /** The request runs through the whole of a schedule. */
  ghost predicate Running(s: System, events: seq<Event>, id: nat)
    decreases |events|
  {
    id in s.requests && (events != [] ==> Running(Do(s, events[0]), events[1..], id))
  }

  /** The `k`-th event is a sign-in of the member that inserts session `sid`. */
  ghost predicate InsertedAt(s: System, events: seq<Event>, k: nat, staff: Uuid, sid: Uuid) {
    && k < |events| && events[k].SignInInsert? && events[k].sid == sid
    && var before := Play(s, events[..k]);
      events[k].id in before.requests && before.requests[events[k].id] == SigningIn(staff) && sid !in before.db.sessions
  }

  /** The revocation has begun its revoke statement. */
  ghost predicate HasScanned(s: System, id: nat) {
    id in s.requests && s.requests[id].Revoking? && !s.requests[id].progress.Open?
  }

  lemma ScannedStays(s: System, e: Event, id: nat)
    requires HasScanned(s, id) && id in Do(s, e).requests
    ensures HasScanned(Do(s, e), id)
    ensures Do(s, e).requests[id].staff == s.requests[id].staff
    ensures Do(s, e).requests[id].progress.existing == s.requests[id].progress.existing
  {
  }

  /** Only a sign-in gives a member a session. */
  lemma OnlySignInsInsert(s: System, e: Event, staff: Uuid, sid: Uuid)
    ensures sid in SessionsOf(Do(s, e).db, staff)
            <==> sid in SessionsOf(s.db, staff) || InsertedAt(s, [e], 0, staff, sid)
  {
    DoContinues(s, e);
    assert [e][..0] == [];
  }

  lemma InsertedLater(s: System, events: seq<Event>, k: nat, staff: Uuid, sid: Uuid)
    requires events != []
    ensures InsertedAt(s, events, k + 1, staff, sid) <==> InsertedAt(Do(s, events[0]), events[1..], k, staff, sid)
    ensures InsertedAt(s, events, 0, staff, sid) <==> InsertedAt(s, [events[0]], 0, staff, sid)
  {
    assert events[..0] == [] && [events[0]][..0] == [];
    if k + 1 < |events| {
      assert events[..k + 1][1..] == events[1..][..k];
      assert Play(s, events[..k + 1]) == Play(Do(s, events[0]), events[1..][..k]);
    }
  }

  /** Over a span the revocation keeps its snapshot, and the member's new sessions are those that sign-ins inserted. */
  lemma {:induction false} SpanOfRevocation(s: System, events: seq<Event>, id: nat, sid: Uuid)
    requires HasScanned(s, id) && Running(s, events, id)
    ensures var s' := Play(s, events);
      var staff := s.requests[id].staff;
      && HasScanned(s', id) && s'.requests[id].staff == staff
      && s'.requests[id].progress.existing == s.requests[id].progress.existing
      && (sid in SessionsOf(s'.db, staff)
          <==> sid in SessionsOf(s.db, staff) || exists k: nat :: InsertedAt(s, events, k, staff, sid))
    decreases |events|
  {
    if events != [] {
      var next, rest, staff := Do(s, events[0]), events[1..], s.requests[id].staff;
      ScannedStays(s, events[0], id);
      OnlySignInsInsert(s, events[0], staff, sid);
      InsertedLater(s, events, 0, staff, sid);
      SpanOfRevocation(next, rest, id, sid);
      if k: nat :| InsertedAt(next, rest, k, staff, sid) { InsertedLater(s, events, k, staff, sid); }
      if k: nat :| InsertedAt(s, events, k, staff, sid) {
        if k > 0 { InsertedLater(s, events, k - 1, staff, sid); }
      }
    }
  }

  /**
   When a PIN reset or a disable commits, every session its member has by then
   is revoked if and only if each one that a sign-in of the member inserted
   between the start of the revoke statement and the commit is revoked already.
   */
  lemma RevocationEndsExactly(db: Db, pre: seq<Event>, id: nat, mid: seq<Event>)
    requires var s := Play(Start(db), pre);
      id in s.requests && s.requests[id].Revoking? && s.requests[id].progress.Open?
    requires var scanned := Do(Play(Start(db), pre), Scan(id));
      Running(scanned, mid, id) && HasScanned(Play(scanned, mid), id)
        && Play(scanned, mid).requests[id].progress.Revoked?
    ensures var staff := Play(Start(db), pre).requests[id].staff;
      var scanned := Do(Play(Start(db), pre), Scan(id));
      var end := Play(scanned, mid);
      var after := Do(end, Commit(id)).db;
      (forall sid :: sid in SessionsOf(after, staff) ==> after.sessions[sid].revoked)
      <==> (forall k: nat, sid :: InsertedAt(scanned, mid, k, staff, sid) ==>
            sid in end.db.sessions && end.db.sessions[sid].revoked)
  {
    PlayKeepsSound(Start(db), pre);
    var s := Play(Start(db), pre);
    var scanned := Do(s, Scan(id));
    var staff := s.requests[id].staff;
    DoKeepsSound(s, Scan(id));
    PlayKeepsSound(scanned, mid);
    var end := Play(scanned, mid);
    forall sid
      ensures end.requests[id].Revoking? && end.requests[id].staff == staff
      ensures end.requests[id].progress.existing == SessionsOf(scanned.db, staff)
      ensures sid in SessionsOf(end.db, staff)
              <==> sid in SessionsOf(scanned.db, staff) || exists k: nat :: InsertedAt(scanned, mid, k, staff, sid)
    {
      SpanOfRevocation(scanned, mid, id, sid);
    }
    SpanOfRevocation(scanned, mid, id, NIL);
    CommitRevokes(end, id);
    forall k: nat, sid | InsertedAt(scanned, mid, k, staff, sid) ensures sid !in SessionsOf(scanned.db, staff) {
      PlayContinues(scanned, mid[..k]);
    }
  }

  /**
   So if no sign-in of the member inserts a session in that span, none of the member's sessions is ever
   accepted again.
   */
  lemma NoSignInNoSurvivor(db: Db, pre: seq<Event>, id: nat, mid: seq<Event>, later: seq<Event>, sid: Uuid, now: int)
    requires var s := Play(Start(db), pre);
      id in s.requests && s.requests[id].Revoking? && s.requests[id].progress.Open?
    requires var scanned := Do(Play(Start(db), pre), Scan(id));
      Running(scanned, mid, id) && HasScanned(Play(scanned, mid), id)
        && Play(scanned, mid).requests[id].progress.Revoked?
    requires var s := Play(Start(db), pre);
      forall k: nat, x :: !InsertedAt(Do(s, Scan(id)), mid, k, s.requests[id].staff, x)
    requires var s := Play(Start(db), pre);
      sid in SessionsOf(Do(Play(Do(s, Scan(id)), mid), Commit(id)).db, s.requests[id].staff)
    ensures var end := Play(Do(Play(Start(db), pre), Scan(id)), mid);
      !Accepted(Play(Do(end, Commit(id)), later).db, sid, now)
  {
    RevocationEndsExactly(db, pre, id, mid);
    PlayContinues(Do(Play(Do(Play(Start(db), pre), Scan(id)), mid), Commit(id)), later);
  }

  /**
   So "existing at commit" is too much to ask: a sign-in with the old PIN may
   insert its session after the revoke statement and before the commit, and that
   session is accepted afterwards.
   */
  lemma SessionCanSurviveReset(x: Uuid, sid: Uuid, oldPin: int, newPin: int, now: int)
    ensures var db := Db(map[x := Staff(true, oldPin)], map[]);
      var s := Play(Start(db),
                    [SignInRead(0, x, oldPin), ResetPin(1, x, newPin), Scan(1), Revoke(1), SignInInsert(0, sid, now)]);
      var s' := Do(s, Commit(1));
      && sid in SessionsOf(s.db, x)
      && s'.db.staff == map[x := Staff(true, newPin)]
      && Accepted(s'.db, sid, now)
  {
    var db := Db(map[x := Staff(true, oldPin)], map[]);
    var s2 := Do(Do(Start(db), SignInRead(0, x, oldPin)), ResetPin(1, x, newPin));
    assert s2 == System(db, map[0 := SigningIn(x), 1 := Revoking(x, None, Some(newPin), Open)], {});
    SurvivingSteps(s2, db, x, sid, newPin, now);
    PlayFive(Start(db), SignInRead(0, x, oldPin), ResetPin(1, x, newPin), Scan(1), Revoke(1),
             SignInInsert(0, sid, now));
  }

  lemma SurvivingSteps(s: System, db: Db, x: Uuid, sid: Uuid, newPin: int, now: int)
    requires x in db.staff && db.staff.Keys == {x} && db.staff[x].enabled && db.sessions == map[]
    requires s == System(db, map[0 := SigningIn(x), 1 := Revoking(x, None, Some(newPin), Open)], {})
    ensures var t := Do(Do(Do(s, Scan(1)), Revoke(1)), SignInInsert(0, sid, now));
      && sid in SessionsOf(t.db, x)
      && Do(t, Commit(1)).db.staff == map[x := Staff(true, newPin)]
      && Accepted(Do(t, Commit(1)).db, sid, now)
  {
    RevokesNothing(s, db, x, newPin);
    var s4 := System(db, map[0 := SigningIn(x), 1 := Revoking(x, None, Some(newPin), Revoked({}, {}))], {});
    var s5 := Do(s4, SignInInsert(0, sid, now));
    assert s5.requests == map[1 := Revoking(x, None, Some(newPin), Revoked({}, {}))];
    assert s5.db.sessions == map[sid := Session(x, Active, None, now, now + SESSION_DURATION, false)];
    assert RevokedIn(s5.db.sessions, {}) == s5.db.sessions;
  }

  /** With no session yet the revoke statement finds none. */
  lemma RevokesNothing(s: System, db: Db, x: Uuid, newPin: int)
    requires x in db.staff && db.sessions == map[]
    requires s == System(db, map[0 := SigningIn(x), 1 := Revoking(x, None, Some(newPin), Open)], {})
    ensures Do(Do(s, Scan(1)), Revoke(1))
         == System(db, map[0 := SigningIn(x), 1 := Revoking(x, None, Some(newPin), Revoked({}, {}))], {})
  {
    assert SessionsOf(db, x) == {};
    var s3 := Do(s, Scan(1));
    assert s3.requests[1].progress == Scanned({});
    assert Unrevoked(db, {}) == {};
  }

  lemma PlayFive(s: System, a: Event, b: Event, c: Event, d: Event, e: Event)
    ensures Play(s, [a, b, c, d, e]) == Do(Do(Do(Do(Do(s, a), b), c), d), e)
  {
    var s2 := Do(Do(s, a), b);
    assert [a, b, c, d, e][1..] == [b, c, d, e] && [b, c, d, e][1..] == [c, d, e];
    assert Play(s, [a, b, c, d, e]) == Play(s2, [c, d, e]);
    assert [c, d, e][1..] == [d, e] && [d, e][1..] == [e] && [e][1..] == [];
    var s4 := Do(Do(s2, c), d);
    assert Play(s2, [c, d, e]) == Play(s4, [e]);
    assert Play(s4, [e]) == Do(s4, e);
  }

  // ---------- unlocking ----------

  lemma {:induction false} PlayLast(s: System, events: seq<Event>)
    requires events != []
    ensures Play(s, events) == Do(Play(s, events[..|events| - 1]), events[|events| - 1])
    decreases |events|
  {
    var front := events[..|events| - 1];
    if |events| == 1 {
      assert front == [] && events[1..] == [];
    } else {
      PlayLast(Do(s, events[0]), events[1..]);
      assert events[1..][..|events| - 2] == front[1..];
    }
  }

  /** At the `k`-th event the unlock read the session, found it usable and matched its owner's PIN. */
  ghost predicate CheckedAt(db: Db, events: seq<Event>, k: nat, id: nat, sid: Uuid) {
    && k < |events| && events[k].UnlockRead? && events[k].id == id && events[k].sid == sid
    && var seen := Play(Start(db), events[..k]).db;
      Usable(seen, sid, events[k].now) && seen.staff[seen.sessions[sid].staff].pin == events[k].pin
  }

  lemma {:induction false} UnlockWasChecked(db: Db, events: seq<Event>, id: nat)
    requires var s := Play(Start(db), events); id in s.requests && s.requests[id].Unlocking?
    ensures exists k: nat :: CheckedAt(db, events, k, id, Play(Start(db), events).requests[id].sid)
    decreases |events|
  {
    assert events != [];
    var n := |events| - 1;
    PlayLast(Start(db), events);
    var before := Play(Start(db), events[..n]);
    var sid := Play(Start(db), events).requests[id].sid;
    if id in before.requests && before.requests[id].Unlocking? && before.requests[id].sid == sid {
      UnlockWasChecked(db, events[..n], id);
      var k: nat :| CheckedAt(db, events[..n], k, id, sid);
      assert events[..n][..k] == events[..k];
      assert CheckedAt(db, events, k, id, sid);
    } else {
      assert CheckedAt(db, events, n, id, sid);
    }
  }

  /**
   A locked session becomes active only when an unlock of it commits, and at an
   earlier moment that unlock found the session usable and was given its owner's PIN.
   */
  lemma OnlyUnlockActivates(db: Db, events: seq<Event>, e: Event, sid: Uuid)
    requires var s := Play(Start(db), events); sid in s.db.sessions && s.db.sessions[sid].state == Locked
    ensures var s := Play(Start(db), events);
      sid in Do(s, e).db.sessions
      && (Do(s, e).db.sessions[sid].state == Active ==>
          e.Commit? && exists k: nat :: CheckedAt(db, events, k, e.id, sid))
  {
    PlayKeepsSound(Start(db), events);
    var s := Play(Start(db), events);
    DoContinues(s, e);
    if e.Commit? && e.id in s.requests && s.requests[e.id].Unlocking? {
      UnlockWasChecked(db, events, e.id);
    }
  }
}
