/**
 The sliding-window rate limiter: a map from keys to lists of admitted attempts.
 Lists are pruned in place, and a background sweep drops keys with nothing left.
 Clock readings are parameters, in nanoseconds.
 */
module RateLimit {

  // ---------- the limiter on values ----------

  /** The list of each key that has one. */
  datatype Attempts = Attempts(lists: map<string, seq<int>>) {
    function Of(key: string): seq<int> {
      if key in lists then lists[key] else []
    }

    function Put(key: string, list: seq<int>): Attempts {
      Attempts(lists[key := list])
    }

    function Without(key: string): Attempts {
      Attempts(lists - {key})
    }
  }

  const NONE := Attempts(map[])

  /** The attempts strictly after the cutoff, in order. */
  function Live(s: seq<int>, cutoff: int): (r: seq<int>)
    ensures |r| <= |s|
  {
    if s == [] then []
    else
      var rest := Live(s[..|s| - 1], cutoff);
      if s[|s| - 1] > cutoff then rest + [s[|s| - 1]] else rest
  }

  /** `Allow`: the answer and the lists after it. */
  function Allowed(t: Attempts, max: int, window: int, key: string, now: int): (bool, Attempts) {
    var valid := Live(t.Of(key), now - window);
    if |valid| >= max then (false, t.Put(key, valid)) else (true, t.Put(key, valid + [now]))
  }

  /** `evictStale`. */
  ghost function Evicted(t: Attempts, cutoff: int): Attempts {
    Attempts(map key | key in t.lists && Live(t.lists[key], cutoff) != [] :: Live(t.lists[key], cutoff))
  }

  /** What a sweep has made of one key. */
  ghost predicate SweptKey(list: seq<int>, lists: map<string, seq<int>>, key: string, cutoff: int) {
    if Live(list, cutoff) == [] then key !in lists else key in lists && lists[key] == Live(list, cutoff)
  }

  /** A sweep that has still to see the keys in `todo`. */
  ghost predicate Sweeping(t: Attempts, lists: map<string, seq<int>>, todo: set<string>, cutoff: int) {
    && todo <= t.lists.Keys && lists.Keys <= t.lists.Keys
    && (forall key :: key in todo ==> key in lists && lists[key] == t.lists[key])
    && (forall key :: key in t.lists && key !in todo ==> SweptKey(t.lists[key], lists, key, cutoff))
  }

  lemma SweepDone(t: Attempts, lists: map<string, seq<int>>, cutoff: int)
    requires Sweeping(t, lists, {}, cutoff)
    ensures Attempts(lists) == Evicted(t, cutoff)
  {
    assert forall key :: key in t.lists ==> SweptKey(t.lists[key], lists, key, cutoff);
    assert lists == Evicted(t, cutoff).lists;
  }

  lemma SweepRound(t: Attempts, lists: map<string, seq<int>>, todo: set<string>, key: string, cutoff: int)
    requires Sweeping(t, lists, todo, cutoff) && key in todo
    ensures var valid := Live(t.lists[key], cutoff);
      Sweeping(t, if valid == [] then lists - {key} else lists[key := valid], todo - {key}, cutoff)
  {
    var valid := Live(t.lists[key], cutoff);
    var lists' := if valid == [] then lists - {key} else lists[key := valid];
    forall k | k in t.lists && k !in todo - {key} ensures SweptKey(t.lists[k], lists', k, cutoff) {
      assert k != key ==> SweptKey(t.lists[k], lists, k, cutoff);
    }
  }

  // ---------- the limiter in memory ----------

  /** `valid := attempts[:0]`, then one append for each live attempt: the kept ones move to the front. */
  method Compact(data: array<int>, len: nat, cutoff: int) returns (kept: nat)
    requires len <= data.Length
    modifies data
    ensures kept <= len
    ensures data[..kept] == Live(old(data[..len]), cutoff)
  {
    ghost var was := data[..len];
    kept := 0;
    for i := 0 to len
      invariant kept <= i
      invariant data[..kept] == Live(was[..i], cutoff)
      invariant forall k :: i <= k < len ==> data[k] == was[k]
    {
      assert was[..i + 1][..i] == was[..i];
      ghost var front := data[..kept];
      if data[i] > cutoff {
        data[kept] := data[i];
        kept := kept + 1;
        assert data[..kept] == front + [was[i]];
      }
    }
    assert was[..len] == was;
  }

  class RateLimiter {
    const max: int
    const window: int
    var attempts: map<string, seq<int>>

    constructor (max: int, window: int)
      ensures attempts == map[] && this.max == max && this.window == window
    {
      this.max, this.window := max, window;
      attempts := map[];
    }

    /** The loop of both `Allow` and `evictStale`, over the backing array of the key's list. */
    method Prune(key: string, cutoff: int) returns (valid: seq<int>)
      ensures valid == Live(Attempts(attempts).Of(key), cutoff)
    {
      var list := if key in attempts then attempts[key] else [];
      var data := new int[|list|](i requires 0 <= i < |list| => list[i]);
      assert data[..] == data[..|list|] == list;
      var kept := Compact(data, |list|, cutoff);
      return data[..kept];
    }

    method Allow(key: string, now: int) returns (ok: bool)
      modifies this
      ensures (ok, Attempts(attempts)) == Allowed(old(Attempts(attempts)), max, window, key, now)
    {
      var valid := Prune(key, now - window);
      if |valid| >= max {
        attempts := attempts[key := valid];
        return false;
      }
      attempts := attempts[key := valid + [now]];
      return true;
    }

    method Reset(key: string)
      modifies this
      ensures Attempts(attempts) == old(Attempts(attempts)).Without(key)
    {
      attempts := attempts - {key};
    }

    method EvictStale(now: int)
      modifies this
      ensures Attempts(attempts) == Evicted(old(Attempts(attempts)), now - window)
    {
      ghost var was := Attempts(attempts);
      var cutoff := now - window;
      var todo := attempts.Keys;
      while todo != {}
        invariant Sweeping(was, attempts, todo, cutoff)
        decreases |todo|
      {
        var key :| key in todo;
        SweepRound(was, attempts, todo, key, cutoff);
        var valid := Prune(key, cutoff);
        attempts := if valid == [] then attempts - {key} else attempts[key := valid];
        todo := todo - {key};
      }
      SweepDone(was, attempts, cutoff);
    }
  }

  // ---------- an unpruned history ----------

  datatype Event =
    | Attempt(key: string, now: int)
    | Reset(key: string)
    | Sweep(now: int)

  /** The clock after an event; a reset does not read it. */
  function Clock(last: int, e: Event): int {
    if e.Reset? then last else e.now
  }

  /** Clock readings, taken under the mutex, never go back. */
  predicate Clocked(last: int, events: seq<Event>)
    decreases |events|
  {
    events != [] ==> last <= Clock(last, events[0]) && Clocked(Clock(last, events[0]), events[1..])
  }

  /** One event of a run: the answer, if it is an attempt, and the next state. */
  type Step = (Attempts, Event) -> (seq<bool>, Attempts)

  ghost function Limiter(max: int, window: int): Step {
    (t: Attempts, e: Event) =>
      match e
      case Attempt(key, now) => var (ok, t') := Allowed(t, max, window, key, now); ([ok], t')
      case Reset(key) => ([], t.Without(key))
      case Sweep(now) => ([], Evicted(t, now - window))
  }

  /** Admit when fewer than `max` attempts since the last reset are inside the window; forget none. */
  function Admit(h: Attempts, max: int, window: int, key: string, now: int): (bool, Attempts) {
    if |Live(h.Of(key), now - window)| < max then (true, h.Put(key, h.Of(key) + [now])) else (false, h)
  }

  /** The unpruned history: a sweep is nothing to it. */
  ghost function Ideal(max: int, window: int): Step {
    (h: Attempts, e: Event) =>
      match e
      case Attempt(key, now) => var (ok, h') := Admit(h, max, window, key, now); ([ok], h')
      case Reset(key) => ([], h.Without(key))
      case Sweep(_) => ([], h)
  }

  /** The answers of a run. */
  ghost function Answers(step: Step, t: Attempts, events: seq<Event>): seq<bool>
    decreases |events|
  {
    if events == [] then [] else step(t, events[0]).0 + Answers(step, step(t, events[0]).1, events[1..])
  }

  /** The state after a run. */
  ghost function Final(step: Step, t: Attempts, events: seq<Event>): Attempts
    decreases |events|
  {
    if events == [] then t else Final(step, step(t, events[0]).1, events[1..])
  }

  // ---------- pruning ----------

  lemma {:induction false} LiveTwice(s: seq<int>, low: int, high: int)
    requires low <= high
    ensures Live(Live(s, low), high) == Live(s, high)
    decreases |s|
  {
    if s != [] {
      var front, x := s[..|s| - 1], s[|s| - 1];
      LiveTwice(front, low, high);
      assert (Live(front, low) + [x])[..|Live(front, low)|] == Live(front, low);
    }
  }

  lemma {:induction false} LiveShrinks(s: seq<int>, low: int, high: int)
    requires low <= high
    ensures |Live(s, high)| <= |Live(s, low)|
    decreases |s|
  {
    if s != [] { LiveShrinks(s[..|s| - 1], low, high); }
  }

  lemma LiveAppend(s: seq<int>, x: int, cutoff: int)
    ensures Live(s + [x], cutoff) == if x > cutoff then Live(s, cutoff) + [x] else Live(s, cutoff)
  {
    assert (s + [x])[..|s|] == s;
  }

  ghost predicate SameLive(s: seq<int>, full: seq<int>, cutoff: int) {
    Live(s, cutoff) == Live(full, cutoff)
  }

  /** Two lists with the same live attempts from a cutoff on. */
  ghost predicate Alike(s: seq<int>, full: seq<int>, from: int) {
    forall cutoff :: from <= cutoff ==> SameLive(s, full, cutoff)
  }

  lemma PrunedAlike(s: seq<int>, full: seq<int>, now: int, from: int, low: int)
    requires Alike(s, full, from) && from <= low
    ensures SameLive(s, full, low)
    ensures Alike(Live(s, low), full, low)
    ensures Alike(Live(s, low) + [now], full + [now], low)
  {
    forall cutoff | low <= cutoff
      ensures SameLive(Live(s, low), full, cutoff) && SameLive(Live(s, low) + [now], full + [now], cutoff)
    {
      assert SameLive(s, full, cutoff);
      LiveTwice(s, low, cutoff);
      LiveAppend(Live(s, low), now, cutoff);
      LiveAppend(full, now, cutoff);
    }
  }

  /** From a cutoff on, the pruned lists and the history have the same live attempts. */
  ghost predicate Agree(t: Attempts, h: Attempts, from: int) {
    forall key :: Alike(t.Of(key), h.Of(key), from)
  }

  lemma AllowAgrees(t: Attempts, h: Attempts, max: int, window: int, key: string, now: int, from: int)
    requires Agree(t, h, from) && from <= now - window
    ensures Allowed(t, max, window, key, now).0 == Admit(h, max, window, key, now).0
    ensures Agree(Allowed(t, max, window, key, now).1, Admit(h, max, window, key, now).1, now - window)
  {
    assert Alike(t.Of(key), h.Of(key), from);
    assert SameLive(t.Of(key), h.Of(key), now - window);
    forall k
      ensures Alike(Allowed(t, max, window, key, now).1.Of(k), Admit(h, max, window, key, now).1.Of(k), now - window)
    {
      assert Alike(t.Of(k), h.Of(k), from);
      AllowAgreesOf(t, h, max, window, key, now, from, k);
    }
  }

  lemma AllowAgreesOf(t: Attempts, h: Attempts, max: int, window: int, key: string, now: int, from: int, k: string)
    requires Alike(t.Of(key), h.Of(key), from) && Alike(t.Of(k), h.Of(k), from) && from <= now - window
    ensures Alike(Allowed(t, max, window, key, now).1.Of(k), Admit(h, max, window, key, now).1.Of(k), now - window)
  {
    if k == key {
      AllowAgreesAt(t.Of(key), h.Of(key), max, now, from, now - window);
    } else {
      assert Allowed(t, max, window, key, now).1.Of(k) == t.Of(k);
      assert Admit(h, max, window, key, now).1.Of(k) == h.Of(k);
    }
  }

  /** The list of the tried key, whether the attempt is admitted or not. */
  lemma AllowAgreesAt(s: seq<int>, full: seq<int>, max: int, now: int, from: int, low: int)
    requires Alike(s, full, from) && from <= low
    ensures Alike(if |Live(s, low)| >= max then Live(s, low) else Live(s, low) + [now],
                  if |Live(full, low)| < max then full + [now] else full, low)
  {
    PrunedAlike(s, full, now, from, low);
  }

  lemma SweepAgrees(t: Attempts, h: Attempts, cutoff: int, from: int)
    requires Agree(t, h, from) && from <= cutoff
    ensures Agree(Evicted(t, cutoff), h, cutoff)
  {
    forall k ensures Alike(Evicted(t, cutoff).Of(k), h.Of(k), cutoff) {
      assert Alike(t.Of(k), h.Of(k), from);
      PrunedAlike(t.Of(k), h.Of(k), 0, from, cutoff);
      assert Evicted(t, cutoff).Of(k) == Live(t.Of(k), cutoff);
    }
  }

  lemma ResetAgrees(t: Attempts, h: Attempts, key: string, from: int)
    requires Agree(t, h, from)
    ensures Agree(t.Without(key), h.Without(key), from)
  {
    forall k ensures Alike(t.Without(key).Of(k), h.Without(key).Of(k), from) {
      assert Alike(t.Of(k), h.Of(k), from);
    }
  }

  lemma StepAgrees(t: Attempts, h: Attempts, max: int, window: int, last: int, e: Event)
    requires Agree(t, h, last - window) && last <= Clock(last, e)
    ensures Limiter(max, window)(t, e).0 == Ideal(max, window)(h, e).0
    ensures Agree(Limiter(max, window)(t, e).1, Ideal(max, window)(h, e).1, Clock(last, e) - window)
  {
    match e {
      case Attempt(key, now) => AllowAgrees(t, h, max, window, key, now, last - window);
      case Reset(key) => ResetAgrees(t, h, key, last - window);
      case Sweep(now) => SweepAgrees(t, h, now - window, last - window);
    }
  }

  lemma {:induction false} AnswersAgree(t: Attempts, h: Attempts, max: int, window: int, last: int, events: seq<Event>)
    requires Agree(t, h, last - window) && Clocked(last, events)
    ensures Answers(Limiter(max, window), t, events) == Answers(Ideal(max, window), h, events)
    decreases |events|
  {
    if events != [] {
      StepAgrees(t, h, max, window, last, events[0]);
      AnswersAgree(Limiter(max, window)(t, events[0]).1, Ideal(max, window)(h, events[0]).1, max, window,
                   Clock(last, events[0]), events[1..]);
    }
  }

  // ---------- the main results ----------

  /** Pruning and sweeping are invisible: the limiter answers as an unpruned history does. */
  lemma LimiterIsUnprunedHistory(max: int, window: int, start: int, events: seq<Event>)
    requires Clocked(start, events)
    ensures Answers(Limiter(max, window), NONE, events) == Answers(Ideal(max, window), NONE, events)
  {
    assert forall key :: Alike(NONE.Of(key), NONE.Of(key), start - window);
    AnswersAgree(NONE, NONE, max, window, start, events);
  }

  lemma {:induction false} ClockedEarlier(earlier: int, last: int, events: seq<Event>)
    requires earlier <= last && Clocked(last, events)
    ensures Clocked(earlier, events)
    decreases |events|
  {
    if events != [] && events[0].Reset? { ClockedEarlier(earlier, last, events[1..]); }
  }

  lemma {:induction false} ClockedWithout(last: int, a: seq<Event>, now: int, b: seq<Event>)
    requires Clocked(last, a + [Sweep(now)] + b)
    ensures Clocked(last, a + b)
    decreases |a|
  {
    var all := a + [Sweep(now)] + b;
    if a == [] {
      assert all[1..] == b && a + b == b;
      ClockedEarlier(last, now, b);
    } else {
      assert all[1..] == a[1..] + [Sweep(now)] + b && (a + b)[1..] == a[1..] + b;
      assert all[0] == a[0] == (a + b)[0];
      ClockedWithout(Clock(last, a[0]), a[1..], now, b);
    }
  }

  lemma {:induction false} IdealIgnoresSweep(h: Attempts, max: int, window: int, a: seq<Event>, now: int, b: seq<Event>)
    ensures Answers(Ideal(max, window), h, a + [Sweep(now)] + b) == Answers(Ideal(max, window), h, a + b)
    decreases |a|
  {
    var all := a + [Sweep(now)] + b;
    if a == [] {
      assert all[1..] == b && a + b == b;
      assert all[0] == Sweep(now);
    } else {
      assert all[1..] == a[1..] + [Sweep(now)] + b && (a + b)[1..] == a[1..] + b;
      assert all[0] == a[0] == (a + b)[0];
      IdealIgnoresSweep(Ideal(max, window)(h, a[0]).1, max, window, a[1..], now, b);
    }
  }

  /** A background sweep at any moment changes no answer. */
  lemma SweepChangesNoAnswer(max: int, window: int, start: int, a: seq<Event>, now: int, b: seq<Event>)
    requires Clocked(start, a + [Sweep(now)] + b)
    ensures Answers(Limiter(max, window), NONE, a + [Sweep(now)] + b) == Answers(Limiter(max, window), NONE, a + b)
  {
    ClockedWithout(start, a, now, b);
    LimiterIsUnprunedHistory(max, window, start, a + [Sweep(now)] + b);
    LimiterIsUnprunedHistory(max, window, start, a + b);
    IdealIgnoresSweep(NONE, max, window, a, now, b);
  }

  /** The attempts in the span `(to - window, to]`. */
  function InSpan(s: seq<int>, window: int, to: int): seq<int> {
    if s == [] then []
    else
      var rest := InSpan(s[..|s| - 1], window, to);
      if to - window < s[|s| - 1] <= to then rest + [s[|s| - 1]] else rest
  }

  /** Each attempt was admitted when fewer than `max` were live. */
  ghost predicate Admitted(s: seq<int>, max: int, window: int) {
    forall i :: 0 <= i < |s| ==> AdmittedAt(s, i, max, window)
  }

  ghost predicate AdmittedAt(s: seq<int>, i: nat, max: int, window: int)
    requires i < |s|
  {
    |Live(s[..i], s[i] - window)| < max
  }

  lemma {:induction false} SpanWithinLive(s: seq<int>, window: int, to: int)
    ensures |InSpan(s, window, to)| <= |Live(s, to - window)|
    decreases |s|
  {
    if s != [] { SpanWithinLive(s[..|s| - 1], window, to); }
  }

  lemma AdmittedPrefix(s: seq<int>, max: int, window: int)
    requires Admitted(s, max, window) && s != []
    ensures Admitted(s[..|s| - 1], max, window)
    ensures |Live(s[..|s| - 1], s[|s| - 1] - window)| < max
  {
    var front := s[..|s| - 1];
    forall i | 0 <= i < |front| ensures AdmittedAt(front, i, max, window) {
      assert AdmittedAt(s, i, max, window);
      assert front[..i] == s[..i] && front[i] == s[i];
    }
    assert AdmittedAt(s, |s| - 1, max, window);
  }

  lemma AdmittedAppend(s: seq<int>, now: int, max: int, window: int)
    requires Admitted(s, max, window) && |Live(s, now - window)| < max
    ensures Admitted(s + [now], max, window)
  {
    var t := s + [now];
    forall i | 0 <= i < |t| ensures AdmittedAt(t, i, max, window) {
      if i < |s| {
        assert AdmittedAt(s, i, max, window);
        assert t[i] == s[i] && t[..i] == s[..i];
      } else {
        assert t[i] == now && t[..i] == s;
      }
    }
  }

  lemma {:induction false} SpanBounded(s: seq<int>, max: int, window: int, to: int)
    requires Admitted(s, max, window)
    ensures s == [] || |InSpan(s, window, to)| <= max
    decreases |s|
  {
    if s != [] {
      var front, x := s[..|s| - 1], s[|s| - 1];
      AdmittedPrefix(s, max, window);
      if to - window < x <= to {
        SpanWithinLive(front, window, to);
        LiveShrinks(front, x - window, to - window);
      } else {
        SpanBounded(front, max, window, to);
      }
    }
  }

  ghost predicate AllAdmitted(h: Attempts, max: int, window: int) {
    forall key :: Admitted(h.Of(key), max, window)
  }

  lemma IdealKeepsAdmitted(h: Attempts, max: int, window: int, e: Event)
    requires AllAdmitted(h, max, window)
    ensures AllAdmitted(Ideal(max, window)(h, e).1, max, window)
  {
    var h' := Ideal(max, window)(h, e).1;
    forall key ensures Admitted(h'.Of(key), max, window) {
      assert Admitted(h.Of(key), max, window);
      if e.Attempt? && |Live(h.Of(e.key), e.now - window)| < max && key == e.key {
        AdmittedAppend(h.Of(key), e.now, max, window);
      }
    }
  }

  lemma {:induction false} HistoryAdmitted(h: Attempts, max: int, window: int, events: seq<Event>)
    requires AllAdmitted(h, max, window)
    ensures AllAdmitted(Final(Ideal(max, window), h, events), max, window)
    decreases |events|
  {
    if events != [] {
      IdealKeepsAdmitted(h, max, window, events[0]);
      HistoryAdmitted(Ideal(max, window)(h, events[0]).1, max, window, events[1..]);
    }
  }

  /** The times at which a run's answers admitted a key since its last reset, after those in `seen`. */
  ghost function Admissions(answers: seq<bool>, events: seq<Event>, key: string, seen: seq<int>): seq<int>
    decreases |events|
  {
    if events == [] then seen
    else match events[0]
      case Attempt(k, now) =>
        if answers == [] then seen
        else Admissions(answers[1..], events[1..], key, if k == key && answers[0] then seen + [now] else seen)
      case Reset(k) => Admissions(answers, events[1..], key, if k == key then [] else seen)
      case Sweep(_) => Admissions(answers, events[1..], key, seen)
  }

  /** The unpruned history holds exactly what its answers admitted. */
  lemma {:induction false} HistoryIsAdmissions(h: Attempts, max: int, window: int, events: seq<Event>, key: string)
    ensures Final(Ideal(max, window), h, events).Of(key)
            == Admissions(Answers(Ideal(max, window), h, events), events, key, h.Of(key))
    decreases |events|
  {
    if events != [] {
      var (out, h') := Ideal(max, window)(h, events[0]);
      HistoryIsAdmissions(h', max, window, events[1..], key);
      IdealStep(h, max, window, events[0], key);
      assert (out + Answers(Ideal(max, window), h', events[1..]))[|out|..]
        == Answers(Ideal(max, window), h', events[1..]);
    }
  }

  /** One event of the history, by what it does to one key. */
  lemma IdealStep(h: Attempts, max: int, window: int, e: Event, key: string)
    ensures var (out, h') := Ideal(max, window)(h, e);
      && |out| == (if e.Attempt? then 1 else 0)
      && h'.Of(key) == match e
           case Attempt(k, now) => if k == key && out[0] then h.Of(key) + [now] else h.Of(key)
           case Reset(k) => if k == key then [] else h.Of(key)
           case Sweep(_) => h.Of(key)
  {
  }

  lemma HistoryBounded(max: int, window: int, events: seq<Event>, key: string, to: int)
    ensures var admitted := Final(Ideal(max, window), NONE, events).Of(key);
      admitted == [] || |InSpan(admitted, window, to)| <= max
  {
    HistoryAdmitted(NONE, max, window, events);
    SpanBounded(Final(Ideal(max, window), NONE, events).Of(key), max, window, to);
  }

  /**
   In any run with clock readings that never go back, the times at which the
   limiter admitted a key since its last reset number at most `max` in any span
   as long as the window.
   */
  lemma NoSpanOverMax(max: int, window: int, start: int, events: seq<Event>, key: string, to: int)
    requires Clocked(start, events)
    ensures var admitted := Admissions(Answers(Limiter(max, window), NONE, events), events, key, []);
      admitted == [] || |InSpan(admitted, window, to)| <= max
  {
    LimiterIsUnprunedHistory(max, window, start, events);
    HistoryIsAdmissions(NONE, max, window, events, key);
    HistoryBounded(max, window, events, key, to);
  }

  lemma {:induction false} AnswersAppend(step: Step, t: Attempts, a: seq<Event>, b: seq<Event>)
    ensures Answers(step, t, a + b) == Answers(step, t, a) + Answers(step, Final(step, t, a), b)
    decreases |a|
  {
    if a == [] {
      assert a + b == b;
    } else {
      assert (a + b)[1..] == a[1..] + b;
      AnswersAppend(step, step(t, a[0]).1, a[1..], b);
    }
  }

  lemma {:induction false} ClockedFront(start: int, events: seq<Event>, e: Event)
    requires Clocked(start, events + [e])
    ensures Clocked(start, events)
    decreases |events|
  {
    if events != [] {
      assert (events + [e])[1..] == events[1..] + [e] && (events + [e])[0] == events[0];
      ClockedFront(Clock(start, events[0]), events[1..], e);
    }
  }

  ghost predicate NoneAfter(s: seq<int>, last: int) {
    forall k :: 0 <= k < |s| ==> s[k] <= last
  }

  /** Under a clock that never goes back everything admitted is in the past. */
  lemma {:induction false} AdmittedBefore(h: Attempts, max: int, window: int, last: int, events: seq<Event>,
                                          key: string,
                                          now: int)
    requires Clocked(last, events + [Attempt(key, now)]) && NoneAfter(h.Of(key), last)
    ensures NoneAfter(Final(Ideal(max, window), h, events).Of(key), now)
    decreases |events|
  {
    var all := events + [Attempt(key, now)];
    if events != [] {
      assert all[1..] == events[1..] + [Attempt(key, now)] && all[0] == events[0];
      IdealStep(h, max, window, events[0], key);
      AdmittedBefore(Ideal(max, window)(h, events[0]).1, max, window, Clock(last, events[0]), events[1..], key, now);
    }
  }

  lemma {:induction false} SpanIsLive(s: seq<int>, window: int, now: int)
    requires NoneAfter(s, now)
    ensures InSpan(s, window, now) == Live(s, now - window)
    decreases |s|
  {
    if s != [] { SpanIsLive(s[..|s| - 1], window, now); }
  }

  /**
   When the limiter admits: in any run with clock readings that never go back, an attempt is
   let through if and only if fewer than `max` of the attempts let through for its key since
   the key's last reset are less than a window old.
   */
  lemma AdmittedExactly(max: int, window: int, start: int, events: seq<Event>, key: string, now: int)
    requires Clocked(start, events + [Attempt(key, now)])
    ensures var before := Answers(Limiter(max, window), NONE, events);
      var after := Answers(Limiter(max, window), NONE, events + [Attempt(key, now)]);
      after == before + [|InSpan(Admissions(before, events, key, []), window, now)| < max]
  {
    var ideal, last := Ideal(max, window), Attempt(key, now);
    ClockedFront(start, events, last);
    LimiterIsUnprunedHistory(max, window, start, events);
    LimiterIsUnprunedHistory(max, window, start, events + [last]);
    AnswersAppend(ideal, NONE, events, [last]);
    HistoryIsAdmissions(NONE, max, window, events, key);
    var h := Final(ideal, NONE, events);
    AdmittedBefore(NONE, max, window, start, events, key, now);
    SpanIsLive(h.Of(key), window, now);
    OneAnswer(h, max, window, key, now);
  }

  lemma OneAnswer(h: Attempts, max: int, window: int, key: string, now: int)
    ensures Answers(Ideal(max, window), h, [Attempt(key, now)]) == [|Live(h.Of(key), now - window)| < max]
  {
    var e := Attempt(key, now);
    assert [e][1..] == [];
    assert Answers(Ideal(max, window), Ideal(max, window)(h, e).1, []) == [];
  }

  ghost predicate Short(t: Attempts, max: int) {
    forall key :: ShortList(t.Of(key), max)
  }

  ghost predicate ShortList(s: seq<int>, max: int) {
    s == [] || |s| <= max
  }

  lemma LimiterKeepsShort(t: Attempts, max: int, window: int, e: Event)
    requires Short(t, max)
    ensures Short(Limiter(max, window)(t, e).1, max)
  {
    var t' := Limiter(max, window)(t, e).1;
    forall key ensures ShortList(t'.Of(key), max) {
      assert ShortList(t.Of(key), max);
      LimiterStep(t, max, window, e, key);
    }
  }

  /** One event of the limiter, by what it does to one key's list. */
  lemma LimiterStep(t: Attempts, max: int, window: int, e: Event, key: string)
    ensures var s, s' := t.Of(key), Limiter(max, window)(t, e).1.Of(key);
      match e
      case Attempt(k, now) =>
        s' == if k != key then s
              else if |Live(s, now - window)| >= max then Live(s, now - window) else Live(s, now - window) + [now]
      case Reset(k) => s' == if k == key then [] else s
      case Sweep(now) => s' == Live(s, now - window)
  {
  }

  /** No stored list is ever longer than `max`. */
  lemma {:induction false} ListsStayShort(t: Attempts, max: int, window: int, events: seq<Event>)
    requires Short(t, max)
    ensures Short(Final(Limiter(max, window), t, events), max)
    decreases |events|
  {
    if events != [] {
      LimiterKeepsShort(t, max, window, events[0]);
      ListsStayShort(Limiter(max, window)(t, events[0]).1, max, window, events[1..]);
    }
  }
}
