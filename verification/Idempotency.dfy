/**
 Exactly-once commands. `ExecuteWithIdempotency` runs an operation at most once
 for each actor and request id and replays its stored result. First the serial
 procedure, then any number of clients at once, which may stop at any point.
 */
module Idempotency {
  import opened Uuids

  // ---------- request fingerprints ----------

  /** What is hashed: the action, a colon, and the encoded payload. Hashing is taken to be injective. */
  function Fingerprint(action: string, body: string): string {
    action + ":" + body
  }

  /** Action names have no colon, so different actions or payloads never fingerprint alike. */
  lemma {:induction false} FingerprintInjective(action: string, body: string, action': string, body': string)
    requires ':' !in action && ':' !in action'
    requires Fingerprint(action, body) == Fingerprint(action', body')
    ensures action == action' && body == body'
    decreases |action|
  {
    var f, f' := Fingerprint(action, body), Fingerprint(action', body');
    assert action == [] ==> f[0] == ':';
    assert action' == [] ==> f'[0] == ':';
    assert action != [] ==> f[0] == action[0];
    assert action' != [] ==> f'[0] == action'[0];
    if action == [] || action' == [] {
      assert action == action' == [];
      assert f[1..] == body && f'[1..] == body';
    } else {
      assert f[1..] == Fingerprint(action[1..], body) && f'[1..] == Fingerprint(action'[1..], body');
      FingerprintInjective(action[1..], body, action'[1..], body');
      assert action == [action[0]] + action[1..] && action' == [action'[0]] + action'[1..];
    }
  }

  // ---------- the procedure, run on its own ----------

  type Response = string

  datatype Key = Key(actor: Uuid, request: Uuid)

  /** A row of the key table. */
  datatype Stored = Stored(hash: string, code: int, response: Response)

  datatype Reply =
    | Answer(code: int, response: Response)
    | Conflict
    | Failed

  /** What the wrapped operation does to the rest of the database: an error, or new contents and a result. */
  datatype Ran<W> = Refused | Ran(world: W, code: int, response: Response)

  /** The outcome of one attempt: the reply, the key table and the rest of the database. */
  ghost function Attempt<W>(keys: map<Key, Stored>, world: W, key: Key, hash: string, fn: W -> Ran<W>)
    : (Reply, map<Key, Stored>, W)
  {
    if key in keys then
      (if keys[key].hash == hash then Answer(keys[key].code, keys[key].response) else Conflict, keys, world)
    else match fn(world)
      case Refused => (Failed, keys, world)
      case Ran(w, code, response) => (Answer(code, response), keys[key := Stored(hash, code, response)], w)
  }

  class Database<W> {
    var keys: map<Key, Stored>
    var world: W

    constructor (w: W)
      ensures keys == map[] && world == w
    {
      keys, world := map[], w;
    }

    /** `ExecuteWithIdempotency` without a concurrent call; returning early rolls back. */
    method Execute(key: Key, action: string, body: string, fn: W -> Ran<W>) returns (reply: Reply)
      modifies this
      ensures (reply, keys, world) == Attempt(old(keys), old(world), key, Fingerprint(action, body), fn)
      ensures key in old(keys) || fn(old(world)).Refused? ==> keys == old(keys) && world == old(world)
      ensures key !in old(keys) && fn(old(world)).Ran? ==>
        world == fn(old(world)).world && keys.Keys == old(keys).Keys + {key}
    {
      var hash := Fingerprint(action, body);
      if key in keys {
        var existing := keys[key];
        if existing.hash != hash { return Conflict; }
        return Answer(existing.code, existing.response);
      }
      var result := fn(world);
      match result {
        case Refused => return Failed;
        case Ran(w, code, response) =>
          world := w;
          keys := keys[key := Stored(hash, code, response)];
          return Answer(code, response);
      }
    }
  }

  // ---------- a run of calls, one after the other ----------

  /** One call: its key, the fingerprint of its request, and the operation it wraps. */
  datatype Request<!W> = Request(key: Key, hash: string, fn: W -> Ran<W>)

  /** Some of the calls' operations, applied in a row; one that refuses changes nothing. */
  ghost function Fold<W>(w: W, calls: seq<Request<W>>, done: seq<nat>): W
    requires forall d :: d in done ==> d < |calls|
    decreases |done|
  {
    if done == [] then w
    else
      var n := |done| - 1;
      assert done[n] in done && forall d :: d in done[..n] ==> d in done;
      var before := Fold(w, calls, done[..n]);
      var ran := calls[done[n]].fn(before);
      if ran.Ran? then ran.world else before
  }

  /**
   The calls among the first `n` that take effect: those whose key had no effect yet and
   whose operation succeeds on what the earlier effects left. No key table has a part in this.
   */
  ghost function Effective<W>(w: W, calls: seq<Request<W>>, n: nat): (done: seq<nat>)
    requires n <= |calls|
    ensures forall d :: d in done ==> d < n
  {
    if n == 0 then []
    else
      var done := Effective(w, calls, n - 1);
      if Fresh(calls, done, calls[n - 1].key) && calls[n - 1].fn(Fold(w, calls, done)).Ran? then done + [n - 1]
      else done
  }

  ghost predicate Fresh<W>(calls: seq<Request<W>>, done: seq<nat>, key: Key)
    requires forall d :: d in done ==> d < |calls|
  {
    forall d :: d in done ==> calls[d].key != key
  }

  /** The result of a call's operation on what the effects before it left. */
  ghost function ResultOf<W>(w: W, calls: seq<Request<W>>, i: nat): Ran<W>
    requires i < |calls|
  {
    calls[i].fn(Fold(w, calls, Effective(w, calls, i)))
  }

  /** The row the effect of a call leaves. */
  ghost function RowOf<W>(w: W, calls: seq<Request<W>>, i: nat): Stored
    requires i < |calls| && ResultOf(w, calls, i).Ran?
  {
    Stored(calls[i].hash, ResultOf(w, calls, i).code, ResultOf(w, calls, i).response)
  }

  /** The key table and the rest of the database after the first `n` calls, one after the other. */
  ghost function Served<W>(w: W, calls: seq<Request<W>>, n: nat): (map<Key, Stored>, W)
    requires n <= |calls|
  {
    if n == 0 then (map[], w)
    else
      var (keys, world) := Served(w, calls, n - 1);
      var call := calls[n - 1];
      var (_, keys', world') := Attempt(keys, world, call.key, call.hash, call.fn);
      (keys', world')
  }

  /** The table has the row of each call that took effect, and no other. */
  ghost predicate RowsOf<W>(w: W, calls: seq<Request<W>>, done: seq<nat>, keys: map<Key, Stored>)
    requires forall d :: d in done ==> d < |calls|
  {
    && (forall d :: d in done ==> HasRow(w, calls, d, keys))
    && forall k :: k in keys ==> !Fresh(calls, done, k)
  }

  ghost predicate HasRow<W>(w: W, calls: seq<Request<W>>, d: nat, keys: map<Key, Stored>)
    requires d < |calls|
  {
    ResultOf(w, calls, d).Ran? && calls[d].key in keys && keys[calls[d].key] == RowOf(w, calls, d)
  }

  /**
   Whatever calls are made and repeated, the database ends as if the one operation that
   took effect for each key had run once, in the order they first succeeded; and the key
   table has exactly their results.
   */
  lemma {:induction false} ServedOnce<W>(w: W, calls: seq<Request<W>>, n: nat)
    requires n <= |calls|
    ensures Served(w, calls, n).1 == Fold(w, calls, Effective(w, calls, n))
    ensures RowsOf(w, calls, Effective(w, calls, n), Served(w, calls, n).0)
  {
    if n > 0 {
      ServedOnce(w, calls, n - 1);
      ServedStep(w, calls, n - 1);
    }
  }

  lemma ServedStep<W>(w: W, calls: seq<Request<W>>, i: nat)
    requires i < |calls|
    requires Served(w, calls, i).1 == Fold(w, calls, Effective(w, calls, i))
    requires RowsOf(w, calls, Effective(w, calls, i), Served(w, calls, i).0)
    ensures Served(w, calls, i + 1).1 == Fold(w, calls, Effective(w, calls, i + 1))
    ensures RowsOf(w, calls, Effective(w, calls, i + 1), Served(w, calls, i + 1).0)
  {
    var done, keys := Effective(w, calls, i), Served(w, calls, i).0;
    StoredIsNotFresh(w, calls, done, keys, calls[i].key);
    if calls[i].key !in keys && ResultOf(w, calls, i).Ran? {
      RowAdded(w, calls, done, i, keys);
      FoldOneMore(w, calls, done, i);
    }
  }

  lemma FoldOneMore<W>(w: W, calls: seq<Request<W>>, done: seq<nat>, i: nat)
    requires i < |calls| && (forall d :: d in done ==> d < |calls|) && calls[i].fn(Fold(w, calls, done)).Ran?
    ensures Fold(w, calls, done + [i]) == calls[i].fn(Fold(w, calls, done)).world
  {
    assert (done + [i])[..|done|] == done;
  }

  /** Each key takes effect at most once, and the effects are in call order. */
  lemma {:induction false} OncePerKey<W>(w: W, calls: seq<Request<W>>, n: nat)
    requires n <= |calls|
    ensures var done := Effective(w, calls, n);
      && (forall c, d :: c in done && d in done && calls[c].key == calls[d].key ==> c == d)
      && forall a, b :: 0 <= a < b < |done| ==> done[a] < done[b]
  {
    if n > 0 {
      OncePerKey(w, calls, n - 1);
      var done := Effective(w, calls, n - 1);
      forall a | 0 <= a < |done| ensures done[a] < n - 1 { assert done[a] in done; }
    }
  }

  lemma StoredIsNotFresh<W>(w: W, calls: seq<Request<W>>, done: seq<nat>, keys: map<Key, Stored>, key: Key)
    requires (forall d :: d in done ==> d < |calls|) && RowsOf(w, calls, done, keys)
    ensures key in keys <==> !Fresh(calls, done, key)
  {
    if d :| d in done && calls[d].key == key { assert HasRow(w, calls, d, keys); }
  }

  lemma RowAdded<W>(w: W, calls: seq<Request<W>>, done: seq<nat>, i: nat, keys: map<Key, Stored>)
    requires i < |calls| && (forall d :: d in done ==> d < |calls|) && RowsOf(w, calls, done, keys)
    requires ResultOf(w, calls, i).Ran? && calls[i].key !in keys
    ensures RowsOf(w, calls, done + [i], keys[calls[i].key := RowOf(w, calls, i)])
  {
    forall d | d in done ensures HasRow(w, calls, d, keys[calls[i].key := RowOf(w, calls, i)]) {
      assert HasRow(w, calls, d, keys);
    }
    assert i in done + [i];
    forall k | k in keys ensures !Fresh(calls, done + [i], k) {
      var d :| d in done && calls[d].key == k;
      assert d in done + [i];
    }
  }

  /**
   The reply to each call of the run: its own result if it takes effect; otherwise the
   result of the call that did, or a conflict if that was another request, or a failure if
   there is none.
   */
  lemma RepliesTellEffects<W>(w: W, calls: seq<Request<W>>, i: nat)
    requires i < |calls|
    ensures var (keys, world) := Served(w, calls, i);
      var reply := Attempt(keys, world, calls[i].key, calls[i].hash, calls[i].fn).0;
      var done := Effective(w, calls, i);
      if Fresh(calls, done, calls[i].key) then
        reply == if ResultOf(w, calls, i).Ran?
                 then Answer(ResultOf(w, calls, i).code, ResultOf(w, calls, i).response) else Failed
      else forall d :: d in done && calls[d].key == calls[i].key ==>
        && ResultOf(w, calls, d).Ran?
        && reply == if calls[d].hash == calls[i].hash
                    then Answer(ResultOf(w, calls, d).code, ResultOf(w, calls, d).response) else Conflict
  {
    ServedOnce(w, calls, i);
    var done, keys := Effective(w, calls, i), Served(w, calls, i).0;
    StoredIsNotFresh(w, calls, done, keys, calls[i].key);
    forall d | d in done ensures HasRow(w, calls, d, keys) {}
  }

  // ---------- many clients ----------

  /** Where a client is between its statements. */
  datatype Phase =
    | Waiting
    | Locked
    | Running
    | Finished(code: int, response: Response)
    | Inserted(code: int, response: Response)
    | Committed(code: int, response: Response)

  datatype Client = Client(key: Key, hash: string, phase: Phase)

  /** A committed run of the wrapped operation. */
  datatype Effect = Effect(key: Key, hash: string, code: int, response: Response)

  /** A reply that reached a caller. */
  datatype Sent = Sent(key: Key, hash: string, reply: Reply)

  datatype System = System(keys: map<Key, Stored>, effects: seq<Effect>, clients: map<nat, Client>, sent: seq<Sent>)

  const START := System(map[], [], map[], [])

  datatype Event =
    | Call(id: nat, key: Key, action: string, body: string)
    | Lock(id: nat)
    | Check(id: nat)
    | Run(id: nat, code: int, response: Response)
    | Refuse(id: nat)
    | Insert(id: nat)
    | Commit(id: nat)
    | Return(id: nat)
    | Crash(id: nat)

  /** The transaction is open and holds its advisory lock. */
  predicate Holding(p: Phase) {
    p.Locked? || p.Running? || p.Finished? || p.Inserted?
  }

  function Became(s: System, id: nat, p: Phase): System
    requires id in s.clients
  {
    s.(clients := s.clients[id := s.clients[id].(phase := p)])
  }

  /** The call ends with a reply; an open transaction is rolled back. */
  function Ended(s: System, id: nat, reply: Reply): System
    requires id in s.clients
  {
    s.(clients := s.clients - {id}, sent := s.sent + [Sent(s.clients[id].key, s.clients[id].hash, reply)])
  }

  /** No other client holds the advisory lock. `lockId` may collide. */
  ghost predicate LockFree(s: System, lockId: Key -> int, id: nat)
    requires id in s.clients
  {
    forall other :: other in s.clients && other != id && Holding(s.clients[other].phase) ==>
      lockId(s.clients[other].key) != lockId(s.clients[id].key)
  }

  ghost function Do(s: System, lockId: Key -> int, e: Event): System {
    match e
    case Call(id, key, action, body) =>
      if id in s.clients then s else s.(clients := s.clients[id := Client(key, Fingerprint(action, body), Waiting)])
    case Lock(id) =>
      if id in s.clients && s.clients[id].phase.Waiting? && LockFree(s, lockId, id) then Became(s, id, Locked) else s
    case Check(id) =>
      if id in s.clients && s.clients[id].phase.Locked? then
        var c := s.clients[id];
        if c.key !in s.keys then Became(s, id, Running)
        else if s.keys[c.key].hash != c.hash then Ended(s, id, Conflict)
        else Ended(s, id, Answer(s.keys[c.key].code, s.keys[c.key].response))
      else s
    case Run(id, code, response) =>
      if id in s.clients && s.clients[id].phase.Running? then Became(s, id, Finished(code, response)) else s
    case Refuse(id) =>
      if id in s.clients && s.clients[id].phase.Running? then Ended(s, id, Failed) else s
    case Insert(id) =>
      if id in s.clients && s.clients[id].phase.Finished? then
        if s.clients[id].key in s.keys then Ended(s, id, Failed)
        else Became(s, id, Inserted(s.clients[id].phase.code, s.clients[id].phase.response))
      else s
    case Commit(id) =>
      if id in s.clients && s.clients[id].phase.Inserted? then
        var c := s.clients[id];
        Became(s, id, Committed(c.phase.code, c.phase.response))
          .(keys := s.keys[c.key := Stored(c.hash, c.phase.code, c.phase.response)],
            effects := s.effects + [Effect(c.key, c.hash, c.phase.code, c.phase.response)])
      else s
    case Return(id) =>
      if id in s.clients && s.clients[id].phase.Committed? then
        Ended(s, id, Answer(s.clients[id].phase.code, s.clients[id].phase.response))
      else s
    case Crash(id) => s.(clients := s.clients - {id})
  }

  ghost function Play(s: System, lockId: Key -> int, events: seq<Event>): System
    decreases |events|
  {
    if events == [] then s else Play(Do(s, lockId, events[0]), lockId, events[1..])
  }

  // ---------- what every reachable state satisfies ----------

  /** Each stored key has one effect, its own. */
  ghost predicate Matched(s: System) {
    && (forall i :: 0 <= i < |s.effects| ==>
          s.effects[i].key in s.keys
          && s.keys[s.effects[i].key] == Stored(s.effects[i].hash, s.effects[i].code, s.effects[i].response))
    && (forall i, j :: 0 <= i < j < |s.effects| ==> s.effects[i].key != s.effects[j].key)
    && (forall k :: k in s.keys ==> exists i :: 0 <= i < |s.effects| && s.effects[i].key == k)
  }

  /** What a client knows, from its phase. */
  ghost predicate ClientOk(s: System, c: Client) {
    match c.phase
    case Running => c.key !in s.keys
    case Finished(_, _) => c.key !in s.keys
    case Inserted(_, _) => c.key !in s.keys
    case Committed(code, response) => c.key in s.keys && s.keys[c.key] == Stored(c.hash, code, response)
    case _ => true
  }

  /** A reply agrees with the key table. */
  ghost predicate SentOk(s: System, r: Sent) {
    match r.reply
    case Answer(code, response) => r.key in s.keys && s.keys[r.key] == Stored(r.hash, code, response)
    case Conflict => r.key in s.keys && s.keys[r.key].hash != r.hash
    case Failed => true
  }

  ghost predicate OneHolder(s: System, lockId: Key -> int) {
    forall a, b :: a in s.clients && b in s.clients && a != b && Holding(s.clients[a].phase)
      && Holding(s.clients[b].phase)
      ==> lockId(s.clients[a].key) != lockId(s.clients[b].key)
  }

  ghost predicate Sound(s: System, lockId: Key -> int) {
    && Matched(s) && OneHolder(s, lockId)
    && (forall id :: id in s.clients ==> ClientOk(s, s.clients[id]))
    && (forall i :: 0 <= i < |s.sent| ==> SentOk(s, s.sent[i]))
  }

  lemma CommitKeepsMatched(s: System, s': System, e: Effect)
    requires Matched(s) && e.key !in s.keys
    requires s'.keys == s.keys[e.key := Stored(e.hash, e.code, e.response)] && s'.effects == s.effects + [e]
    ensures Matched(s')
  {
    assert s'.effects[|s.effects|].key == e.key;
    forall k | k in s'.keys ensures exists i :: 0 <= i < |s'.effects| && s'.effects[i].key == k {
      if k != e.key {
        var i :| 0 <= i < |s.effects| && s.effects[i].key == k;
        assert s'.effects[i].key == k;
      }
    }
  }

  lemma CommitKeepsSound(s: System, lockId: Key -> int, id: nat)
    requires Sound(s, lockId) && id in s.clients && s.clients[id].phase.Inserted?
    ensures Sound(Do(s, lockId, Commit(id)), lockId)
  {
    var c := s.clients[id];
    var s' := Do(s, lockId, Commit(id));
    assert ClientOk(s, c);
    CommitKeepsMatched(s, s', Effect(c.key, c.hash, c.phase.code, c.phase.response));
    forall other | other in s'.clients ensures ClientOk(s', s'.clients[other]) {
      assert ClientOk(s, s.clients[other]);
      if other != id && Holding(s.clients[other].phase) {
        assert lockId(s.clients[other].key) != lockId(c.key);
      }
    }
    forall i | 0 <= i < |s'.sent| ensures SentOk(s', s'.sent[i]) {
      assert SentOk(s, s.sent[i]);
    }
  }

  lemma DoKeepsSound(s: System, lockId: Key -> int, e: Event)
    requires Sound(s, lockId)
    ensures Sound(Do(s, lockId, e), lockId)
  {
    if e.Commit? && e.id in s.clients && s.clients[e.id].phase.Inserted? {
      CommitKeepsSound(s, lockId, e.id);
    } else {
      var s' := Do(s, lockId, e);
      OthersKeepTables(s, lockId, e);
      TablesKeepMatched(s, s');
      OthersKeepLocks(s, lockId, e);
      OthersKeepClients(s, lockId, e);
      OthersKeepReplies(s, lockId, e);
    }
  }

  /** An event that is not a commit leaves the tables alone. */
  lemma OthersKeepTables(s: System, lockId: Key -> int, e: Event)
    requires e.Commit? ==> !(e.id in s.clients && s.clients[e.id].phase.Inserted?)
    ensures Do(s, lockId, e).keys == s.keys && Do(s, lockId, e).effects == s.effects
  {
  }

  lemma TablesKeepMatched(s: System, s': System)
    requires Matched(s) && s'.keys == s.keys && s'.effects == s.effects
    ensures Matched(s')
  {
  }

  lemma OthersKeepLocks(s: System, lockId: Key -> int, e: Event)
    requires OneHolder(s, lockId)
    requires e.Commit? ==> !(e.id in s.clients && s.clients[e.id].phase.Inserted?)
    ensures OneHolder(Do(s, lockId, e), lockId)
  {
  }

  lemma OthersKeepClients(s: System, lockId: Key -> int, e: Event)
    requires forall id :: id in s.clients ==> ClientOk(s, s.clients[id])
    requires e.Commit? ==> !(e.id in s.clients && s.clients[e.id].phase.Inserted?)
    ensures var s' := Do(s, lockId, e); forall id :: id in s'.clients ==> ClientOk(s', s'.clients[id])
  {
    var s' := Do(s, lockId, e);
    OthersKeepTables(s, lockId, e);
    forall id | id in s'.clients ensures ClientOk(s', s'.clients[id]) {
      assert id in s.clients ==> ClientOk(s, s.clients[id]);
    }
  }

  lemma OthersKeepReplies(s: System, lockId: Key -> int, e: Event)
    requires Sound(s, lockId)
    requires e.Commit? ==> !(e.id in s.clients && s.clients[e.id].phase.Inserted?)
    ensures var s' := Do(s, lockId, e); forall i :: 0 <= i < |s'.sent| ==> SentOk(s', s'.sent[i])
  {
    var s' := Do(s, lockId, e);
    OthersKeepTables(s, lockId, e);
    assert e.id in s.clients ==> ClientOk(s, s.clients[e.id]);
    forall i | 0 <= i < |s'.sent| ensures SentOk(s', s'.sent[i]) {
      assert i < |s.sent| ==> SentOk(s, s.sent[i]) && s'.sent[i] == s.sent[i];
    }
  }

  lemma {:induction false} PlayKeepsSound(s: System, lockId: Key -> int, events: seq<Event>)
    requires Sound(s, lockId)
    ensures Sound(Play(s, lockId, events), lockId)
    decreases |events|
  {
    if events != [] {
      DoKeepsSound(s, lockId, events[0]);
      PlayKeepsSound(Do(s, lockId, events[0]), lockId, events[1..]);
    }
  }

  // ---------- the main results ----------

  /** The committed effects of one key. */
  ghost function EffectsOf(s: System, key: Key): set<int> {
    set i | 0 <= i < |s.effects| && s.effects[i].key == key
  }

  /**
   For any number of clients, any interleaving, any crashes and any lock-id
   function: a key has at most one committed effect, and is stored if and only
   if it has one, with that effect's fingerprint, code and response.
   */
  lemma ExactlyOnce(lockId: Key -> int, events: seq<Event>, key: Key)
    ensures var s := Play(START, lockId, events);
      && |EffectsOf(s, key)| <= 1
      && (key in s.keys <==> EffectsOf(s, key) != {})
      && forall i :: i in EffectsOf(s, key) ==>
           s.keys[key] == Stored(s.effects[i].hash, s.effects[i].code, s.effects[i].response)
  {
    PlayKeepsSound(START, lockId, events);
    MatchedOnce(Play(START, lockId, events), key);
  }

  lemma MatchedOnce(s: System, key: Key)
    requires Matched(s)
    ensures |EffectsOf(s, key)| <= 1 && (key in s.keys <==> EffectsOf(s, key) != {})
    ensures forall i :: i in EffectsOf(s, key) ==>
      s.keys[key] == Stored(s.effects[i].hash, s.effects[i].code, s.effects[i].response)
  {
    if key in s.keys {
      var i :| 0 <= i < |s.effects| && s.effects[i].key == key;
      assert EffectsOf(s, key) == {i};
    } else {
      assert EffectsOf(s, key) == {};
    }
  }

  /**
   Every answer given for a key with the same fingerprint is the result of its
   one effect, and a conflict is answered exactly to another fingerprint; so two
   answers for one key are the same answer to the same request.
   */
  lemma RepliesAgree(lockId: Key -> int, events: seq<Event>, a: Sent, b: Sent)
    requires a in Play(START, lockId, events).sent && b in Play(START, lockId, events).sent && a.key == b.key
    ensures a.reply.Answer? && b.reply.Answer? ==> a.reply == b.reply && a.hash == b.hash
    ensures a.reply.Answer? && b.reply.Conflict? ==> a.hash != b.hash
    ensures a.reply.Answer? || a.reply.Conflict? ==> EffectsOf(Play(START, lockId, events), a.key) != {}
  {
    PlayKeepsSound(START, lockId, events);
    var s := Play(START, lockId, events);
    ExactlyOnce(lockId, events, a.key);
    assert SentOk(s, a) && SentOk(s, b);
  }

  /** A stored result is never changed, whatever happens next. */
  lemma {:induction false} StoredForever(s: System, lockId: Key -> int, events: seq<Event>)
    requires Sound(s, lockId)
    ensures forall k :: k in s.keys ==>
      k in Play(s, lockId, events).keys && Play(s, lockId, events).keys[k] == s.keys[k]
    ensures s.effects <= Play(s, lockId, events).effects
    decreases |events|
  {
    if events != [] {
      var s' := Do(s, lockId, events[0]);
      DoKeepsSound(s, lockId, events[0]);
      assert events[0].Commit? && events[0].id in s.clients ==> ClientOk(s, s.clients[events[0].id]);
      assert s.effects <= s'.effects;
      StoredForever(s', lockId, events[1..]);
    }
  }

  lemma {:induction false} PlayConcat(s: System, lockId: Key -> int, a: seq<Event>, b: seq<Event>)
    ensures Play(s, lockId, a + b) == Play(Play(s, lockId, a), lockId, b)
    decreases |a|
  {
    if a == [] {
      assert a + b == b;
    } else {
      assert (a + b)[1..] == a[1..] + b;
      PlayConcat(Do(s, lockId, a[0]), lockId, a[1..], b);
    }
  }

  /**
   Once a key is stored, the operation never takes effect for it again, and
   every later answer for it is the stored one.
   */
  lemma StoredOnceForAll(lockId: Key -> int, before: seq<Event>, after: seq<Event>, key: Key)
    requires key in Play(START, lockId, before).keys
    ensures EffectsOf(Play(START, lockId, before + after), key) == EffectsOf(Play(START, lockId, before), key)
    ensures forall r :: r in Play(START, lockId, before + after).sent && r.key == key && r.reply.Answer? ==>
              var stored := Play(START, lockId, before).keys[key];
              r.hash == stored.hash && r.reply == Answer(stored.code, stored.response)
  {
    PlayConcat(START, lockId, before, after);
    PlayKeepsSound(START, lockId, before);
    PlayKeepsSound(START, lockId, before + after);
    var s, s' := Play(START, lockId, before), Play(START, lockId, before + after);
    StoredForever(s, lockId, after);
    OneEffectStays(s, s', key);
    forall r | r in s'.sent && r.key == key && r.reply.Answer?
      ensures r.hash == s.keys[key].hash && r.reply == Answer(s.keys[key].code, s.keys[key].response)
    {
      assert SentOk(s', r);
    }
  }

  lemma OneEffectStays(s: System, s': System, key: Key)
    requires Matched(s) && Matched(s') && key in s.keys && s.effects <= s'.effects
    ensures EffectsOf(s', key) == EffectsOf(s, key)
  {
    var i :| 0 <= i < |s.effects| && s.effects[i].key == key;
    assert s'.effects[i] == s.effects[i];
    OneEffect(s, key, i);
    OneEffect(s', key, i);
  }

  lemma OneEffect(s: System, key: Key, i: nat)
    requires forall a, b :: 0 <= a < b < |s.effects| ==> s.effects[a].key != s.effects[b].key
    requires i < |s.effects| && s.effects[i].key == key
    ensures EffectsOf(s, key) == {i}
  {
    assert forall j :: 0 <= j < |s.effects| && j != i ==> s.effects[j].key != key;
  }

  /** No client of a stored key can run or commit the operation any more. */
  lemma StoredKeyIsNotRun(lockId: Key -> int, events: seq<Event>, id: nat, code: int, response: Response)
    requires var s := Play(START, lockId, events); id in s.clients && s.clients[id].key in s.keys
    ensures var s := Play(START, lockId, events);
      Do(s, lockId, Run(id, code, response)) == s && Do(s, lockId, Insert(id)) == s && Do(s, lockId, Commit(id)) == s
  {
    PlayKeepsSound(START, lockId, events);
    var s := Play(START, lockId, events);
    assert ClientOk(s, s.clients[id]);
  }

  /** The client's transaction is open and past its check. */
  predicate Uncommitted(p: Phase) {
    p.Running? || p.Finished? || p.Inserted?
  }

  /**
   Work that is not committed, even finished and with its key row inserted,
   leaves no key and no effect when it is cut short, and frees the lock: another
   call of the same key that follows at once gets to run the operation.
   */
  lemma UncommittedLeavesNothing(lockId: Key -> int, events: seq<Event>, id: nat, again: nat, action: string,
                                 body: string)
    requires var s := Play(START, lockId, events);
      id in s.clients && Uncommitted(s.clients[id].phase) && (again == id || again !in s.clients)
    ensures var s := Play(START, lockId, events);
      var key := s.clients[id].key;
      var cut := Do(s, lockId, Crash(id));
      && key !in cut.keys && EffectsOf(cut, key) == {}
      && Play(cut, lockId, [Call(again, key, action, body), Lock(again), Check(again)])
         == cut.(clients := cut.clients[again := Client(key, Fingerprint(action, body), Running)])
  {
    PlayKeepsSound(START, lockId, events);
    ExactlyOnce(lockId, events, Play(START, lockId, events).clients[id].key);
    var s := Play(START, lockId, events);
    assert ClientOk(s, s.clients[id]);
    var cut := Do(s, lockId, Crash(id));
    assert EffectsOf(cut, s.clients[id].key) == EffectsOf(s, s.clients[id].key);
    CallRuns(cut, lockId, again, s.clients[id].key, action, body);
  }

  /** Whenever a key is not stored and its lock is free, a call of it gets to run the operation. */
  lemma CallRuns(s: System, lockId: Key -> int, id: nat, key: Key, action: string, body: string)
    requires id !in s.clients && key !in s.keys
    requires forall other :: other in s.clients && Holding(s.clients[other].phase) ==>
      lockId(s.clients[other].key) != lockId(key)
    ensures Play(s, lockId, [Call(id, key, action, body), Lock(id), Check(id)])
            == s.(clients := s.clients[id := Client(key, Fingerprint(action, body), Running)])
  {
    var called := s.(clients := s.clients[id := Client(key, Fingerprint(action, body), Waiting)]);
    var locked := s.(clients := s.clients[id := Client(key, Fingerprint(action, body), Locked)]);
    var checked := s.(clients := s.clients[id := Client(key, Fingerprint(action, body), Running)]);
    assert Do(called, lockId, Lock(id)) == locked;
    assert Do(locked, lockId, Check(id)) == checked;
    PlayThree(s, lockId, Call(id, key, action, body), Lock(id), Check(id));
  }

  lemma PlayThree(s: System, lockId: Key -> int, a: Event, b: Event, c: Event)
    ensures Play(s, lockId, [a, b, c]) == Do(Do(Do(s, lockId, a), lockId, b), lockId, c)
  {
    assert [a, b, c][1..] == [b, c] && [b, c][1..] == [c] && [c][1..] == [];
    assert Play(s, lockId, [a, b, c]) == Play(Do(s, lockId, a), lockId, [b, c]);
    assert Play(Do(s, lockId, a), lockId, [b, c]) == Play(Do(Do(s, lockId, a), lockId, b), lockId, [c]);
  }

  // ---------- the procedure is a client run alone ----------

  /** The effect an attempt adds to the log. */
  ghost function Added<W>(keys: map<Key, Stored>, world: W, key: Key, hash: string, fn: W -> Ran<W>): seq<Effect> {
    if key in keys then []
    else match fn(world)
      case Refused => []
      case Ran(_, code, response) => [Effect(key, hash, code, response)]
  }

  /** The statements of one client that nothing interrupts. */
  ghost function Script<W>(keys: map<Key, Stored>, id: nat, key: Key, action: string, body: string,
                           ran: Ran<W>): seq<Event> {
    [Call(id, key, action, body), Lock(id), Check(id)]
    + if key in keys then []
      else match ran
        case Refused => [Refuse(id)]
        case Ran(_, code, response) => [Run(id, code, response), Insert(id), Commit(id)] + [Return(id)]
  }

  /** Run without interruption and with its lock free, a client does and answers what `Execute` does and answers. */
  lemma AloneIsAttempt<W>(s: System, lockId: Key -> int, id: nat, key: Key, action: string, body: string, world: W,
                          fn: W -> Ran<W>)
    requires id !in s.clients
    requires forall other :: other in s.clients && Holding(s.clients[other].phase) ==>
      lockId(s.clients[other].key) != lockId(key)
    ensures var hash := Fingerprint(action, body);
      var added := Added(s.keys, world, key, hash, fn);
      var (reply, keys, after) := Attempt(s.keys, world, key, hash, fn);
      && Play(s, lockId, Script(s.keys, id, key, action, body, fn(world)))
         == System(keys, s.effects + added, s.clients, s.sent + [Sent(key, hash, reply)])
      && (added == [] ==> after == world)
      && (added != [] ==> fn(world).Ran? && after == fn(world).world)
  {
    var hash := Fingerprint(action, body);
    var head := [Call(id, key, action, body), Lock(id), Check(id)];
    if key in s.keys {
      AloneReplays(s, lockId, id, key, action, body);
      assert head + [] == head;
    } else {
      CallRuns(s, lockId, id, key, action, body);
      var running := s.(clients := s.clients[id := Client(key, hash, Running)]);
      match fn(world) {
        case Refused =>
          PlayConcat(s, lockId, head, [Refuse(id)]);
          assert [Refuse(id)][1..] == [];
          assert Play(running, lockId, [Refuse(id)]) == Do(running, lockId, Refuse(id));
          assert running.clients - {id} == s.clients;
        case Ran(_, code, response) =>
          AloneCommits(s, lockId, id, key, hash, code, response);
          var tail := [Run(id, code, response), Insert(id), Commit(id)] + [Return(id)];
          PlayConcat(s, lockId, head, tail);
      }
    }
  }

  lemma AloneReplays(s: System, lockId: Key -> int, id: nat, key: Key, action: string, body: string)
    requires id !in s.clients && key in s.keys
    requires forall other :: other in s.clients && Holding(s.clients[other].phase) ==>
      lockId(s.clients[other].key) != lockId(key)
    ensures Play(s, lockId, [Call(id, key, action, body), Lock(id), Check(id)])
            == s.(sent := s.sent + [Sent(key, Fingerprint(action, body),
                                         if s.keys[key].hash == Fingerprint(action, body)
                                         then Answer(s.keys[key].code, s.keys[key].response) else Conflict)])
  {
    var called := s.(clients := s.clients[id := Client(key, Fingerprint(action, body), Waiting)]);
    var locked := s.(clients := s.clients[id := Client(key, Fingerprint(action, body), Locked)]);
    assert Do(called, lockId, Lock(id)) == locked;
    assert locked.clients - {id} == s.clients;
    PlayThree(s, lockId, Call(id, key, action, body), Lock(id), Check(id));
  }

  lemma AloneCommits(s: System, lockId: Key -> int, id: nat, key: Key, hash: string, code: int, response: Response)
    requires id !in s.clients && key !in s.keys
    ensures Play(s.(clients := s.clients[id := Client(key, hash, Running)]), lockId,
                 [Run(id, code, response), Insert(id), Commit(id)] + [Return(id)])
            == System(s.keys[key := Stored(hash, code, response)],
                      s.effects + [Effect(key, hash, code, response)], s.clients,
                      s.sent + [Sent(key, hash, Answer(code, response))])
  {
    var s0 := s.(clients := s.clients[id := Client(key, hash, Running)]);
    var s1 := s.(clients := s.clients[id := Client(key, hash, Finished(code, response))]);
    var s2 := s.(clients := s.clients[id := Client(key, hash, Inserted(code, response))]);
    var s3 := s.(clients := s.clients[id := Client(key, hash, Committed(code, response))],
                 keys := s.keys[key := Stored(hash, code, response)],
                 effects := s.effects + [Effect(key, hash, code, response)]);
    assert Do(s0, lockId, Run(id, code, response)) == s1;
    assert Do(s1, lockId, Insert(id)) == s2;
    assert Do(s2, lockId, Commit(id)) == s3;
    PlayThree(s0, lockId, Run(id, code, response), Insert(id), Commit(id));
    PlayConcat(s0, lockId, [Run(id, code, response), Insert(id), Commit(id)], [Return(id)]);
    assert [Return(id)][1..] == [];
    assert Play(s3, lockId, [Return(id)]) == Do(s3, lockId, Return(id));
    assert s3.clients - {id} == s.clients;
  }
}
