/** The availability commands as they run, on stored rows, with the row locks they request. */
module AvailabilityStore {
  import opened Prelude
  import opened Ordering
  import opened Uuids
  import opened Locks
  import opened Availability

  datatype BatchResult = BatchResult(kind: Kind, id: Uuid, available: bool, changed: bool)
  datatype AuditChange = AuditChange(kind: Kind, id: Uuid, wasAvailable: bool, nowAvailable: bool)
  datatype BatchResponse = BatchResponse(results: seq<BatchResult>, audit: seq<AuditChange>)

  // ---------- normalising ----------

  ghost predicate RefusedEntry(cs: seq<Change>, i: nat)
    requires i < |cs|
  {
    || !KnownKind(cs[i].kind)
    || cs[i].id == NIL
    || exists j :: 0 <= j < i && cs[j].kind == cs[i].kind && cs[j].id == cs[i].id
  }

  /** The entry the scan stops at. */
  ghost predicate FirstRefusedEntry(cs: seq<Change>, i: nat) {
    i < |cs| && RefusedEntry(cs, i) && forall k :: 0 <= k < i ==> !RefusedEntry(cs, k)
  }

  ghost predicate UsableBatch(cs: seq<Change>) {
    0 < |cs| <= MAX_BATCH_SIZE && TargetsDistinct(cs) && forall c :: c in cs ==> KnownKind(c.kind) && c.id != NIL
  }

  ghost predicate NormalizeAnswer(cs: seq<Change>, r: Result<seq<Change>, Error>) {
    if |cs| == 0 then r == Err(NoChanges)
    else if |cs| > MAX_BATCH_SIZE then r == Err(TooManyChanges)
    else match r
      case Ok(out) => UsableBatch(cs) && out == SortBy(ChangeKey, cs)
      case Err(e) => exists i: nat :: FirstRefusedEntry(cs, i) && e == EntryError(cs[i], i)
  }

  ghost function EntryError(c: Change, i: nat): Error {
    if !KnownKind(c.kind) then UnknownKind(KindText(c.kind))
    else if c.id == NIL then MissingId(i)
    else RepeatedChange(c.kind, c.id)
  }

  lemma UsableKeysDistinct(cs: seq<Change>)
    requires UsableBatch(cs)
    ensures KeysDistinct(ChangeKey, cs)
  {
    forall i, j | 0 <= i < j < |cs| ensures ChangeKey(cs[i]) != ChangeKey(cs[j]) {
      assert cs[i] in cs && cs[j] in cs;
      ChangeKeyInjective(cs[i], cs[j]);
    }
  }

  method NormalizeAvailabilityChanges(cs: seq<Change>) returns (r: Result<seq<Change>, Error>)
    ensures NormalizeAnswer(cs, r)
    ensures r.Ok? <==> UsableBatch(cs)
    ensures r.Ok? ==> multiset(r.value) == multiset(cs) && Ascending(ChangeKey, r.value) && UsableBatch(r.value)
  {
    if |cs| == 0 { return Err(NoChanges); }
    if |cs| > MAX_BATCH_SIZE { return Err(TooManyChanges); }
    var seen: set<(Kind, Uuid)> := {};
    for i := 0 to |cs|
      invariant forall k, d :: (k, d) in seen <==> exists j :: 0 <= j < i && cs[j].kind == k && cs[j].id == d
      invariant forall k :: 0 <= k < i ==> !RefusedEntry(cs, k)
    {
      var c := cs[i];
      if c.kind.OtherKind? || c.id == NIL || (c.kind, c.id) in seen {
        assert FirstRefusedEntry(cs, i);
        if c.kind.OtherKind? || c.id == NIL {
          assert cs[i] in cs;
        } else {
          ghost var j :| 0 <= j < i && cs[j].kind == c.kind && cs[j].id == c.id;
        }
        if c.kind.OtherKind? { return Err(UnknownKind(c.kind.text)); }
        if c.id == NIL { return Err(MissingId(i)); }
        return Err(RepeatedChange(c.kind, c.id));
      }
      seen := seen + {(c.kind, c.id)};
    }
    forall i, j | 0 <= i < j < |cs| ensures cs[i].kind != cs[j].kind || cs[i].id != cs[j].id {
      assert !RefusedEntry(cs, j);
    }
    forall c | c in cs ensures KnownKind(c.kind) && c.id != NIL {
      var j :| 0 <= j < |cs| && cs[j] == c;
      assert !RefusedEntry(cs, j);
    }
    assert UsableBatch(cs);
    UsableKeysDistinct(cs);
    SortByAscending(ChangeKey, cs);
    var out := SortBy(ChangeKey, cs);
    AscendingUsable(cs, out);
    return Ok(out);
  }

  lemma AscendingUsable(cs: seq<Change>, out: seq<Change>)
    requires UsableBatch(cs) && multiset(out) == multiset(cs) && Ascending(ChangeKey, out)
    ensures UsableBatch(out)
  {
    MultisetMembers(out, cs);
    forall i, j | 0 <= i < j < |out| ensures out[i].kind != out[j].kind || out[i].id != out[j].id {
      assert out[i] in out && out[j] in out;
      LexIrreflexive(ChangeKey(out[i]));
      ChangeKeyInjective(out[i], out[j]);
    }
  }

  /** Batches that are permutations of each other are accepted or refused together, and normalise to one sequence. */
  lemma BatchCanonical(a: seq<Change>, b: seq<Change>, ra: Result<seq<Change>, Error>, rb: Result<seq<Change>, Error>)
    requires multiset(a) == multiset(b) && NormalizeAnswer(a, ra) && NormalizeAnswer(b, rb)
    ensures ra.Ok? <==> UsableBatch(a)
    ensures ra.Ok? || ra == Err(NoChanges) || ra == Err(TooManyChanges) ==> rb == ra
    ensures ra.Err? ==> rb.Err?
  {
    assert |multiset(a)| == |a| && |multiset(b)| == |b|;
    SortCanonical(a, b);
    if ra.Err? && 0 < |a| <= MAX_BATCH_SIZE { RefusedIsUnusable(a); }
    if rb.Err? && 0 < |b| <= MAX_BATCH_SIZE { RefusedIsUnusable(b); }
  }

  lemma RefusedIsUnusable(cs: seq<Change>)
    requires exists i: nat :: FirstRefusedEntry(cs, i)
    ensures !UsableBatch(cs)
  {
    var i: nat :| FirstRefusedEntry(cs, i);
    assert cs[i] in cs;
  }

  lemma SortCanonical(a: seq<Change>, b: seq<Change>)
    requires multiset(a) == multiset(b)
    ensures UsableBatch(a) <==> UsableBatch(b)
    ensures UsableBatch(a) ==> SortBy(ChangeKey, a) == SortBy(ChangeKey, b)
  {
    MultisetMembers(a, b);
    if UsableBatch(a) { UsableByPermutation(a, b); }
    if UsableBatch(b) { UsableByPermutation(b, a); }
    if UsableBatch(a) {
      UsableKeysDistinct(a);
      UsableKeysDistinct(b);
      SortByCanonical(ChangeKey, a, b);
    }
  }

  lemma UsableByPermutation(a: seq<Change>, b: seq<Change>)
    requires multiset(a) == multiset(b) && UsableBatch(a)
    ensures UsableBatch(b)
  {
    MultisetMembers(a, b);
    DistinctByMultiset(a);
    DistinctByMultiset(b);
    forall i, j | 0 <= i < j < |b| ensures b[i].kind != b[j].kind || b[i].id != b[j].id {
      assert b[i] in a && b[j] in a && b[i] != b[j];
      TargetsApart(a, b[i], b[j]);
    }
  }

  lemma TargetsApart(a: seq<Change>, x: Change, y: Change)
    requires TargetsDistinct(a) && x in a && y in a && x != y
    ensures x.kind != y.kind || x.id != y.id
  {
  }

  // ---------- planning and applying ----------

  ghost predicate AllPlanned(m: Menu, steps: seq<LockStep>) {
    forall s :: s in steps ==> Planned(m, s)
  }

  /** The entries of a plan, as changes. */
  ghost function ChangesOf(steps: seq<LockStep>): set<Change> {
    set s | s in steps :: s.change
  }

  /** `steps` are the plan of `cs`: one step per entry, in the global lock order. */
  ghost predicate IsPlan(m: Menu, cs: seq<Change>, steps: seq<LockStep>) {
    && AllPlanned(m, steps)
    && Ascending(StepKey, steps)
    && ChangesOf(steps) == Elements(cs)
  }

  /** The first step the single command refuses, in plan order. */
  ghost function FirstRefusal(m: Menu, steps: seq<LockStep>): Option<Error> {
    if steps == [] then None
    else if Refusal(m, steps[0].change).Some? then Refusal(m, steps[0].change)
    else FirstRefusal(m, steps[1..])
  }

  /** There is only one plan of a batch. */
  lemma PlanUnique(m: Menu, cs: seq<Change>, a: seq<LockStep>, b: seq<LockStep>)
    requires IsPlan(m, cs, a) && IsPlan(m, cs, b)
    ensures a == b
  {
    PlanSubset(m, cs, a, b);
    PlanSubset(m, cs, b, a);
    AscendingUnique(StepKey, a, b);
  }

  lemma PlanSubset(m: Menu, cs: seq<Change>, a: seq<LockStep>, b: seq<LockStep>)
    requires IsPlan(m, cs, a) && IsPlan(m, cs, b)
    ensures forall x :: x in a ==> x in b
  {
    forall x | x in a ensures x in b {
      assert x.change in ChangesOf(a);
      assert x.change in ChangesOf(b);
      var y :| y in b && y.change == x.change;
      assert Planned(m, x) && Planned(m, y);
    }
  }

  /**
   What a normalised batch is refused for: an unknown size or option while planning, or the first
   refusal in lock order.
   */
  ghost predicate BatchRefused(m: Menu, cs: seq<Change>, e: Error) {
    if exists c :: c in cs && StepFor(m, c).None? then e == NotFound
    else exists steps :: IsPlan(m, cs, steps) && FirstRefusal(m, steps) == Some(e)
  }

  /** The apply loop remembered the flag an entry found. */
  ghost predicate Remembered(m: Menu, previous: map<(Kind, Uuid), bool>, c: Change) {
    && Refusal(m, c).None?
    && (c.kind, c.id) in previous
    && previous[(c.kind, c.id)] == Flag(m, c)
  }

  /** The entries that change a flag, with both values, in the order of `cs`. */
  ghost function AuditOf(m: Menu, cs: seq<Change>): seq<AuditChange> {
    if cs == [] then []
    else
      var c := cs[|cs| - 1];
      AuditOf(m, cs[..|cs| - 1]) +
      (if Refusal(m, c).None? && Flag(m, c) != c.available then [AuditChange(c.kind, c.id, Flag(m, c), c.available)]
       else [])
  }

  /** The answer to a batch lists every entry with whether it changed its flag, and audits exactly those that did. */
  ghost predicate Reports(m: Menu, cs: seq<Change>, r: BatchResponse) {
    && |r.results| == |cs|
    && (forall c :: c in cs ==> Refusal(m, c).None?)
    && (forall k :: 0 <= k < |cs| ==>
      r.results[k] == BatchResult(cs[k].kind, cs[k].id, cs[k].available, Flag(m, cs[k]) != cs[k].available))
    && r.audit == AuditOf(m, cs)
  }

  // ---------- the order and content of the answer ----------

  /** Items are reported before options, and options before sizes. */
  function Rank(kind: Kind): int {
    match kind
    case ItemKind => 0
    case OptionKind => 1
    case SizeKind => 2
    case OtherKind(_) => 3
  }

  /** An earlier kind, or an earlier id of the same kind. */
  ghost predicate Precedes(kind: Kind, id: Uuid, kind': Kind, id': Uuid) {
    Rank(kind) < Rank(kind') || (kind == kind' && Before(id, id'))
  }

  /** Both lists go by kind and then by id. */
  ghost predicate InOrder(r: BatchResponse) {
    && (forall i, j :: 0 <= i < j < |r.results| ==>
         Precedes(r.results[i].kind, r.results[i].id, r.results[j].kind, r.results[j].id))
    && forall i, j :: 0 <= i < j < |r.audit| ==>
         Precedes(r.audit[i].kind, r.audit[i].id, r.audit[j].kind, r.audit[j].id)
  }

  lemma KeyOrderIsRank(a: Change, b: Change)
    requires KnownKind(a.kind) && KnownKind(b.kind) && LexLess(ChangeKey(a), ChangeKey(b))
    ensures Precedes(a.kind, a.id, b.kind, b.id)
  {
    ChangeKeyOrder(a, b);
    assert "item"[0] as int == 105 && "modifier_option"[0] as int == 109 && "size"[0] as int == 115;
    if a.kind != b.kind {
      var p, q := Codes(KindText(a.kind)), Codes(KindText(b.kind));
      assert p[0] == KindText(a.kind)[0] as int && q[0] == KindText(b.kind)[0] as int;
    }
  }

  /** The changes audited are among those of the batch, in its order. */
  lemma {:induction false} AuditedAreChanges(m: Menu, cs: seq<Change>, x: AuditChange)
    requires x in AuditOf(m, cs)
    ensures exists k :: 0 <= k < |cs| && cs[k].kind == x.kind && cs[k].id == x.id
    decreases |cs|
  {
    var n := |cs| - 1;
    if x in AuditOf(m, cs[..n]) {
      AuditedAreChanges(m, cs[..n], x);
      var k :| 0 <= k < n && cs[..n][k].kind == x.kind && cs[..n][k].id == x.id;
      assert cs[k] == cs[..n][k];
    }
  }

  lemma {:induction false} AuditedInOrder(m: Menu, cs: seq<Change>)
    requires forall c :: c in cs ==> KnownKind(c.kind)
    requires Ascending(ChangeKey, cs)
    ensures forall i, j :: 0 <= i < j < |AuditOf(m, cs)| ==>
      Precedes(AuditOf(m, cs)[i].kind, AuditOf(m, cs)[i].id, AuditOf(m, cs)[j].kind, AuditOf(m, cs)[j].id)
    decreases |cs|
  {
    if cs != [] {
      var n := |cs| - 1;
      AuditedInOrder(m, cs[..n]);
      var front := AuditOf(m, cs[..n]);
      forall i | 0 <= i < |front| ensures Precedes(front[i].kind, front[i].id, cs[n].kind, cs[n].id) {
        FrontPrecedes(m, cs, front[i]);
      }
    }
  }

  lemma FrontPrecedes(m: Menu, cs: seq<Change>, x: AuditChange)
    requires cs != [] && (forall c :: c in cs ==> KnownKind(c.kind)) && Ascending(ChangeKey, cs)
    requires x in AuditOf(m, cs[..|cs| - 1])
    ensures var last := cs[|cs| - 1]; Precedes(x.kind, x.id, last.kind, last.id)
  {
    var n := |cs| - 1;
    AuditedAreChanges(m, cs[..n], x);
    var k :| 0 <= k < n && cs[..n][k].kind == x.kind && cs[..n][k].id == x.id;
    assert cs[k] in cs && cs[n] in cs;
    KeyOrderIsRank(cs[k], cs[n]);
  }

  lemma ReportsInOrder(m: Menu, cs: seq<Change>, r: BatchResponse)
    requires Reports(m, cs, r) && Ascending(ChangeKey, cs) && forall c :: c in cs ==> KnownKind(c.kind)
    ensures InOrder(r)
  {
    AuditedInOrder(m, cs);
    forall i, j | 0 <= i < j < |r.results|
      ensures Precedes(r.results[i].kind, r.results[i].id, r.results[j].kind, r.results[j].id)
    {
      assert cs[i] in cs && cs[j] in cs;
      KeyOrderIsRank(cs[i], cs[j]);
    }
  }

  lemma SortedReportsInOrder(m: Menu, raw: seq<Change>, r: BatchResponse)
    requires UsableBatch(raw) && Reports(m, SortBy(ChangeKey, raw), r)
    ensures InOrder(r)
  {
    UsableKeysDistinct(raw);
    SortByAscending(ChangeKey, raw);
    MultisetMembers(SortBy(ChangeKey, raw), raw);
    ReportsInOrder(m, SortBy(ChangeKey, raw), r);
  }

  /** The stored flag of an entry's row. */
  function RowFlag(m: Menu, kind: Kind, id: Uuid): bool {
    match kind
    case ItemKind => id in m.items && m.items[id].available
    case SizeKind => id in m.sizes && m.sizes[id].available
    case OptionKind => id in m.options && m.options[id].available
    case OtherKind(_) => false
  }

  /**
   The audit list has an entry for a row exactly when the batch gives the row another flag
   than it has, with the stored flag and the new one.
   */
  lemma {:induction false} AuditedExactly(m: Menu, cs: seq<Change>, x: AuditChange)
    requires forall c :: c in cs ==> KnownKind(c.kind) && Refusal(m, c).None?
    ensures x in AuditOf(m, cs) <==>
      && Change(x.kind, x.id, x.nowAvailable) in cs
      && x.wasAvailable == RowFlag(m, x.kind, x.id) && x.wasAvailable != x.nowAvailable
    decreases |cs|
  {
    if cs != [] {
      var n := |cs| - 1;
      AuditedExactly(m, cs[..n], x);
      assert cs[n] in cs;
      assert cs == cs[..n] + [cs[n]];
      assert forall c :: c in cs <==> c in cs[..n] || c == cs[n];
      assert Flag(m, cs[n]) == RowFlag(m, cs[n].kind, cs[n].id);
    }
  }

  /** A batch gives each row it names the flag it asks for, and changes nothing else of any row. */
  lemma BatchSetsRows(m: Menu, raw: seq<Change>, c: Change)
    requires UsableBatch(raw) && Refusal(m, c).None? && KnownKind(c.kind)
    ensures var u := Update(m, Elements(raw));
      && RowFlag(u, c.kind, c.id)
         == (Change(c.kind, c.id, true) in raw || (Change(c.kind, c.id, false) !in raw && RowFlag(m, c.kind, c.id)))
      && u.items.Keys == m.items.Keys && u.sizes.Keys == m.sizes.Keys && u.options.Keys == m.options.Keys
      && u.groups == m.groups
      && (forall i :: i in m.items ==>
          u.items[i].priced == m.items[i].priced && u.items[i].retired == m.items[i].retired)
      && (forall x :: x in m.sizes ==>
          u.sizes[x].parent == m.sizes[x].parent && u.sizes[x].retired == m.sizes[x].retired)
      && (forall o :: o in m.options ==>
           u.options[o].parent == m.options[o].parent && u.options[o].retired == m.options[o].retired)
  {
  }

  class Store {
    var items: map<Uuid, Item>
    var sizes: map<Uuid, Child>
    var groups: map<Uuid, Group>
    var options: map<Uuid, Child>
    /** The row locks the running transaction has asked for, in order. */
    var requested: seq<Lock>

    ghost function State(): Menu
      reads this
    {
      Menu(items, sizes, groups, options)
    }

    /** Resolves each entry's parent without locking, then sorts into the global lock order. */
    method PlanAvailabilityLocks(cs: seq<Change>) returns (r: Result<seq<LockStep>, Error>)
      requires UsableBatch(cs)
      ensures r.Err? ==> r.error == NotFound && exists c :: c in cs && StepFor(State(), c).None?
      ensures r.Ok? ==> IsPlan(State(), cs, r.value) && forall c :: c in cs ==> StepFor(State(), c).Some?
    {
      var steps: seq<LockStep> := [];
      for i := 0 to |cs|
        invariant |steps| == i
        invariant forall k :: 0 <= k < i ==> StepFor(State(), cs[k]) == Some(steps[k])
      {
        var c := cs[i];
        assert c in cs;
        var step := LockStep(c, 0, c.id, 0);
        match c.kind {
          case SizeKind =>
            if c.id !in sizes { return Err(NotFound); }
            step := LockStep(c, 0, sizes[c.id].parent, 1);
          case OptionKind =>
            if c.id !in options { return Err(NotFound); }
            step := LockStep(c, 1, options[c.id].parent, 1);
          case _ =>
        }
        steps := steps + [step];
      }
      PlanFromSteps(State(), cs, steps);
      return Ok(SortBy(StepKey, steps));
    }

    /**
     One of the three single-entity commands: the same lock, check and write, and an audit entry when the
     flag changes.
     */
    method SetAvailability(c: Change, request: int) returns (r: Result<Option<AuditChange>, Error>)
      requires KnownKind(c.kind)
      modifies this
      ensures match Refusal(old(State()), c)
        case Some(e) => r == Err(e) && State() == old(State())
        case None =>
          && r.Ok? && State() == SetOne(old(State()), c)
          && r.value == if Flag(old(State()), c) == c.available then None
                        else Some(AuditChange(c.kind, c.id, Flag(old(State()), c), c.available))
    {
      requested := [RequestLock(request)];
      var step := LockStep(c, 0, c.id, 0);
      match c.kind {
        case SizeKind =>
          if c.id !in sizes { return Err(NotFound); }
          step := LockStep(c, 0, sizes[c.id].parent, 1);
        case OptionKind =>
          if c.id !in options { return Err(NotFound); }
          step := LockStep(c, 1, options[c.id].parent, 1);
        case _ =>
      }
      var was := ApplyAvailabilityChange(step);
      if was.Err? { return Err(was.error); }
      return Ok(if was.value == c.available then None else Some(AuditChange(c.kind, c.id, was.value, c.available)));
    }

    /** Applies a batch atomically: every entry succeeds, or nothing changes. */
    method SetAvailabilityBatch(raw: seq<Change>, request: int) returns (r: Result<BatchResponse, Error>)
      modifies this
      ensures r.Ok? <==> UsableBatch(raw) && forall c :: c in raw ==> Refusal(old(State()), c).None?
      ensures r.Ok? ==> State() == Update(old(State()), Elements(raw))
      ensures r.Ok? ==> Reports(old(State()), SortBy(ChangeKey, raw), r.value) && InOrder(r.value)
      ensures r.Err? ==> State() == old(State())
      ensures r.Err? ==>
        if UsableBatch(raw) then BatchRefused(old(State()), raw, r.error) else NormalizeAnswer(raw, Err(r.error))
      ensures Ordered({}, requested)
    {
      requested := [RequestLock(request)];
      assert requested[1..] == [];
      var normal := NormalizeAvailabilityChanges(raw);
      if normal.Err? { return Err(normal.error); }
      SameEntries(State(), raw, normal.value);
      r := RunBatch(normal.value, request);
      if r.Ok? { SortedReportsInOrder(old(State()), raw, r.value); }
    }

    /** The transaction body: plan, apply, report; on an error the rows are as before. */
    method RunBatch(changes: seq<Change>, request: int) returns (r: Result<BatchResponse, Error>)
      requires UsableBatch(changes) && requested == [RequestLock(request)]
      modifies this
      ensures r.Ok? <==> forall c :: c in changes ==> Refusal(old(State()), c).None?
      ensures r.Ok? ==> State() == Update(old(State()), Elements(changes)) && Reports(old(State()), changes, r.value)
      ensures r.Err? ==> State() == old(State()) && BatchRefused(old(State()), changes, r.error)
      ensures Ordered({}, requested)
    {
      var plan := PlanAvailabilityLocks(changes);
      assert requested[1..] == [] && Ordered({}, requested);
      if plan.Err? {
        UnknownIsRefused(State(), changes);
        return Err(plan.error);
      }
      r := RunPlan(changes, plan.value, request);
    }

    /** The plan step by step; on an error the rows are as before. */
    method RunPlan(changes: seq<Change>, plan: seq<LockStep>, request: int) returns (r: Result<BatchResponse, Error>)
      requires UsableBatch(changes) && requested == [RequestLock(request)]
      requires IsPlan(State(), changes, plan) && forall c :: c in changes ==> StepFor(State(), c).Some?
      modifies this
      ensures r.Ok? <==> forall c :: c in changes ==> Refusal(old(State()), c).None?
      ensures r.Ok? ==> State() == Update(old(State()), Elements(changes)) && Reports(old(State()), changes, r.value)
      ensures r.Err? ==> State() == old(State()) && BatchRefused(old(State()), changes, r.error)
      ensures Ordered({}, requested)
    {
      var savedItems, savedSizes, savedOptions := items, sizes, options;
      var previous := ApplySteps(changes, plan);
      PrefixOrdered(old(State()), changes, plan, request, requested);
      if previous.Err? {
        items, sizes, options := savedItems, savedSizes, savedOptions;  // roll back
        RefusedPlan(State(), changes, plan, previous.error);
        return Err(previous.error);
      }
      var response := Report(old(State()), changes, previous.value);
      return Ok(response);
    }

    /** The apply loop, which remembers each entity's previous flag. */
    method ApplySteps(ghost changes: seq<Change>, steps: seq<LockStep>)
      returns (r: Result<map<(Kind, Uuid), bool>, Error>)
      requires UsableBatch(changes) && IsPlan(State(), changes, steps)
      modifies this
      ensures groups == old(groups)
      ensures r.Err? ==> FirstRefusal(old(State()), steps) == Some(r.error)
      ensures r.Ok? ==> State() == Update(old(State()), Elements(changes))
      ensures r.Ok? ==> forall c :: c in changes ==> Remembered(old(State()), r.value, c)
      ensures requested <= old(requested) + Requests(steps)
    {
      ghost var m := State();
      var previous: map<(Kind, Uuid), bool> := map[];
      UpdateNothing(m);
      assert ChangesOf(steps[..0]) == {};
      assert steps[0..] == steps;
      for k := 0 to |steps|
        invariant groups == old(groups)
        invariant State() == Update(m, ChangesOf(steps[..k]))
        invariant FirstRefusal(m, steps) == FirstRefusal(m, steps[k..])
        invariant forall c :: c in ChangesOf(steps[..k]) ==> Remembered(m, previous, c)
        invariant requested + Requests(steps[k..]) == old(requested) + Requests(steps)
      {
        var step := steps[k];
        StepExtends(m, changes, steps, k);
        label Before:
        var was := ApplyAvailabilityChange(step);
        if was.Err? {
          PrefixOfSum(requested, old@Before(requested), LocksFor(step), Requests(steps[k + 1..]));
          return Err(was.error);
        }
        SumAssociates(old@Before(requested), LocksFor(step), Requests(steps[k + 1..]));
        RememberOne(m, previous, ChangesOf(steps[..k]), step.change);
        previous := previous[(step.change.kind, step.change.id) := was.value];
      }
      assert steps[..|steps|] == steps;
      assert Requests(steps[|steps|..]) == [];
      assert forall c :: c in changes ==> c in Elements(changes);
      return Ok(previous);
    }

    /** Builds the answer and the audit list from the remembered flags. */
    static method Report(ghost m: Menu, changes: seq<Change>, previous: map<(Kind, Uuid), bool>)
      returns (r: BatchResponse)
      requires forall c :: c in changes ==> Remembered(m, previous, c)
      ensures Reports(m, changes, r)
    {
      var results: seq<BatchResult> := [];
      var audited: seq<AuditChange> := [];
      for k := 0 to |changes|
        invariant Reports(m, changes[..k], BatchResponse(results, audited))
      {
        var c := changes[k];
        assert c in changes;
        var was := previous[(c.kind, c.id)];
        var changed := was != c.available;
        assert changes[..k + 1][..k] == changes[..k];
        results := results + [BatchResult(c.kind, c.id, c.available, changed)];
        if changed { audited := audited + [AuditChange(c.kind, c.id, was, c.available)]; }
      }
      assert changes[..|changes|] == changes;
      return BatchResponse(results, audited);
    }

    /** Locks one entity, parent first, refuses a retired one, and writes the flag unless it is already current. */
    method ApplyAvailabilityChange(step: LockStep) returns (r: Result<bool, Error>)
      requires Planned(State(), step)
      modifies this
      ensures groups == old(groups)
      ensures match Refusal(old(State()), step.change)
        case Some(e) => r == Err(e) && State() == old(State())
        case None => r == Ok(Flag(old(State()), step.change)) && State() == SetOne(old(State()), step.change)
      ensures r.Ok? ==> requested == old(requested) + LocksFor(step)
      ensures r.Err? ==> requested <= old(requested) + LocksFor(step)
    {
      var c := step.change;
      match c.kind {
        case ItemKind =>
          requested := requested + [ItemLock(c.id)];
          if c.id !in items { return Err(NotFound); }
          if items[c.id].retired { return Err(EntityRetired); }
          r := Ok(items[c.id].available);
          if r.value != c.available { items := items[c.id := items[c.id].(available := c.available)]; }
        case SizeKind =>
          var existing := LockSizeWithParentCheck(c.id);
          if existing.Err? { return Err(existing.error); }
          r := Ok(existing.value.available);
          if r.value != c.available { sizes := sizes[c.id := sizes[c.id].(available := c.available)]; }
        case OptionKind =>
          var existing := LockModifierOptionWithParentCheck(c.id);
          if existing.Err? { return Err(existing.error); }
          r := Ok(existing.value.available);
          if r.value != c.available { options := options[c.id := options[c.id].(available := c.available)]; }
        case OtherKind(text) =>
          assert false;
      }
      assert State() == SetOne(old(State()), c);
    }

    /** Locks the parent item, then the size; refuses if either is retired. */
    method LockSizeWithParentCheck(size: Uuid) returns (r: Result<Child, Error>)
      requires size in sizes
      modifies this`requested
      ensures match Refusal(State(), Change(SizeKind, size, true))
        case Some(e) => r == Err(e)
        case None => r == Ok(sizes[size])
      ensures var locks := [ItemLock(sizes[size].parent), SizeLock(sizes[size].parent, size)];
        if r.Ok? then requested == old(requested) + locks
        else requested <= old(requested) + locks
    {
      var parent := sizes[size].parent;
      requested := requested + [ItemLock(parent)];
      if parent !in items { return Err(NotFound); }
      if items[parent].retired { return Err(EntityRetired); }
      requested := requested + [SizeLock(parent, size)];
      if sizes[size].retired { return Err(EntityRetired); }
      return Ok(sizes[size]);
    }

    /** Locks the parent group, then the option; refuses if either is retired. */
    method LockModifierOptionWithParentCheck(option: Uuid) returns (r: Result<Child, Error>)
      requires option in options
      modifies this`requested
      ensures match Refusal(State(), Change(OptionKind, option, true))
        case Some(e) => r == Err(e)
        case None => r == Ok(options[option])
      ensures var locks := [GroupLock(options[option].parent), OptionLock(options[option].parent, option)];
        if r.Ok? then requested == old(requested) + locks
        else requested <= old(requested) + locks
    {
      var parent := options[option].parent;
      requested := requested + [GroupLock(parent)];
      if parent !in groups { return Err(NotFound); }
      if groups[parent].retired { return Err(EntityRetired); }
      requested := requested + [OptionLock(parent, option)];
      if options[option].retired { return Err(EntityRetired); }
      return Ok(options[option]);
    }
  }

  lemma PlanFromSteps(m: Menu, cs: seq<Change>, steps: seq<LockStep>)
    requires UsableBatch(cs) && |steps| == |cs|
    requires forall k :: 0 <= k < |cs| ==> StepFor(m, cs[k]) == Some(steps[k])
    ensures IsPlan(m, cs, SortBy(StepKey, steps))
    ensures forall c :: c in cs ==> StepFor(m, c).Some?
  {
    StepsPlanned(m, cs, steps);
    StepsDistinct(m, cs, steps);
    SortByAscending(StepKey, steps);
    MultisetMembers(SortBy(StepKey, steps), steps);
    assert ChangesOf(SortBy(StepKey, steps)) == ChangesOf(steps);
  }

  lemma StepsDistinct(m: Menu, cs: seq<Change>, steps: seq<LockStep>)
    requires UsableBatch(cs) && |steps| == |cs| && AllPlanned(m, steps)
    requires forall k :: 0 <= k < |cs| ==> steps[k].change == cs[k]
    ensures KeysDistinct(StepKey, steps)
  {
    forall i, j | 0 <= i < j < |steps| ensures StepKey(steps[i]) != StepKey(steps[j]) {
      assert steps[i] in steps && steps[j] in steps;
      StepKeyInjective(m, steps[i], steps[j]);
    }
  }

  lemma StepsPlanned(m: Menu, cs: seq<Change>, steps: seq<LockStep>)
    requires UsableBatch(cs) && |steps| == |cs|
    requires forall k :: 0 <= k < |cs| ==> StepFor(m, cs[k]) == Some(steps[k])
    ensures AllPlanned(m, steps)
    ensures ChangesOf(steps) == Elements(cs)
    ensures forall k :: 0 <= k < |cs| ==> steps[k].change == cs[k]
    ensures forall c :: c in cs ==> StepFor(m, c).Some?
  {
    forall k | 0 <= k < |cs| ensures steps[k].change == cs[k] && Planned(m, steps[k]) {
      assert cs[k] in cs;
    }
    forall c ensures c in ChangesOf(steps) <==> c in Elements(cs) {
      if c in Elements(cs) {
        var k :| 0 <= k < |cs| && cs[k] == c;
        assert steps[k] in steps;
      }
      if c in ChangesOf(steps) {
        var s :| s in steps && s.change == c;
      }
    }
  }

  /** A step about an entity is the same step before and after flags change. */
  lemma UpdateKeepsSteps(m: Menu, cs: set<Change>, c: Change)
    ensures StepFor(Update(m, cs), c) == StepFor(m, c)
  {
  }

  lemma PlanTargetsDistinct(m: Menu, changes: seq<Change>, steps: seq<LockStep>, k: nat)
    requires IsPlan(m, changes, steps) && k < |steps|
    ensures forall d :: d in ChangesOf(steps[..k]) ==> d.kind != steps[k].change.kind || d.id != steps[k].change.id
  {
    forall d | d in ChangesOf(steps[..k]) ensures d.kind != steps[k].change.kind || d.id != steps[k].change.id {
      var s :| s in steps[..k] && s.change == d;
      var j :| 0 <= j < k && steps[j] == s;
      assert steps[j] in steps && steps[k] in steps;
      if d.kind == steps[k].change.kind && d.id == steps[k].change.id { SameTargetSameKey(m, steps[j], steps[k]); }
      LexIrreflexive(StepKey(steps[k]));
    }
  }

  lemma SameTargetSameKey(m: Menu, a: LockStep, b: LockStep)
    requires Planned(m, a) && Planned(m, b) && a.change.kind == b.change.kind && a.change.id == b.change.id
    ensures StepKey(a) == StepKey(b)
  {
  }

  lemma PrefixOfSum(p: seq<Lock>, a: seq<Lock>, b: seq<Lock>, c: seq<Lock>)
    requires p <= a + b
    ensures p <= a + (b + c)
  {
    assert a + (b + c) == (a + b) + c;
  }

  lemma {:induction false} FirstRefusalMember(m: Menu, steps: seq<LockStep>)
    requires FirstRefusal(m, steps).Some?
    ensures exists s :: s in steps && Refusal(m, s.change).Some?
  {
    if Refusal(m, steps[0].change).None? {
      FirstRefusalMember(m, steps[1..]);
      var s :| s in steps[1..] && Refusal(m, s.change).Some?;
      assert s in steps;
    } else {
      assert steps[0] in steps;
    }
  }

  /** Whatever part of a plan has run, its lock requests respect the global order. */
  lemma PrefixOrdered(m: Menu, changes: seq<Change>, steps: seq<LockStep>, request: int, requested: seq<Lock>)
    requires IsPlan(m, changes, steps) && requested <= [RequestLock(request)] + Requests(steps)
    ensures Ordered({}, requested)
  {
    var first := [RequestLock(request)];
    assert [] + steps == steps;
    assert LocksOf([]) == {};
    PlanOrdered(m, [], steps, {RequestLock(request)});
    assert first[1..] == [];
    assert Ordered({}, first);
    assert {} + Elements(first) == {RequestLock(request)};
    OrderedConcat({}, first, Requests(steps));
    OrderedPrefix({}, first + Requests(steps), requested);
  }

  lemma {:induction false} OrderedPrefix(held: set<Lock>, all: seq<Lock>, p: seq<Lock>)
    requires Ordered(held, all) && p <= all
    ensures Ordered(held, p)
    decreases |p|
  {
    if p != [] { OrderedPrefix(held + {p[0]}, all[1..], p[1..]); }
  }

  /** One step of the apply loop, on the menu the earlier steps left. */
  lemma StepExtends(m: Menu, changes: seq<Change>, steps: seq<LockStep>, k: nat)
    requires IsPlan(m, changes, steps) && k < |steps|
    ensures var u, c := Update(m, ChangesOf(steps[..k])), steps[k].change;
      && Planned(u, steps[k])
      && Refusal(u, c) == Refusal(m, c)
      && (Refusal(m, c).None? ==> Flag(u, c) == Flag(m, c) && SetOne(u, c) == Update(m, ChangesOf(steps[..k + 1])))
    ensures ChangesOf(steps[..k + 1]) == ChangesOf(steps[..k]) + {steps[k].change}
    ensures forall d :: d in ChangesOf(steps[..k]) ==> d.kind != steps[k].change.kind || d.id != steps[k].change.id
    ensures FirstRefusal(m, steps[k..]) ==
      if Refusal(m, steps[k].change).Some? then Refusal(m, steps[k].change) else FirstRefusal(m, steps[k + 1..])
    ensures Requests(steps[k..]) == LocksFor(steps[k]) + Requests(steps[k + 1..])
  {
    var done, c := ChangesOf(steps[..k]), steps[k].change;
    assert steps[k] in steps;
    assert steps[k..][0] == steps[k] && steps[k..][1..] == steps[k + 1..];
    assert steps[..k + 1] == steps[..k] + [steps[k]];
    assert ChangesOf(steps[..k + 1]) == done + {c};
    PlanTargetsDistinct(m, changes, steps, k);
    UpdateKeepsRefusals(m, done, c);
    UpdateKeepsSteps(m, done, c);
    if Refusal(m, c).None? { UpdateThenSet(m, done, c); }
  }

  lemma RefusedPlan(m: Menu, changes: seq<Change>, steps: seq<LockStep>, e: Error)
    requires IsPlan(m, changes, steps) && FirstRefusal(m, steps) == Some(e)
    requires forall c :: c in changes ==> StepFor(m, c).Some?
    ensures BatchRefused(m, changes, e)
    ensures exists c :: c in changes && Refusal(m, c).Some?
  {
    FirstRefusalMember(m, steps);
    var s :| s in steps && Refusal(m, s.change).Some?;
    assert s.change in ChangesOf(steps);
    assert s.change in Elements(changes);
  }

  lemma UnknownIsRefused(m: Menu, changes: seq<Change>)
    requires exists c :: c in changes && StepFor(m, c).None?
    ensures exists c :: c in changes && Refusal(m, c).Some?
    ensures BatchRefused(m, changes, NotFound)
  {
    var c :| c in changes && StepFor(m, c).None?;
    assert Refusal(m, c) == Some(NotFound);
  }

  lemma SameEntries(m: Menu, raw: seq<Change>, changes: seq<Change>)
    requires multiset(raw) == multiset(changes)
    ensures Elements(raw) == Elements(changes)
    ensures (forall c :: c in raw ==> Refusal(m, c).None?) <==> (forall c :: c in changes ==> Refusal(m, c).None?)
    ensures forall e :: BatchRefused(m, changes, e) ==> BatchRefused(m, raw, e)
  {
    MultisetMembers(raw, changes);
    assert Elements(raw) == Elements(changes);
    forall e | BatchRefused(m, changes, e) ensures BatchRefused(m, raw, e) {
      if forall c :: c in changes ==> StepFor(m, c).Some? {
        var steps :| IsPlan(m, changes, steps) && FirstRefusal(m, steps) == Some(e);
        assert IsPlan(m, raw, steps);
      }
    }
  }

  lemma SumAssociates(a: seq<Lock>, b: seq<Lock>, c: seq<Lock>)
    ensures (a + b) + c == a + (b + c)
  {
  }

  /** Remembering one more flag forgets none. */
  lemma RememberOne(m: Menu, previous: map<(Kind, Uuid), bool>, done: set<Change>, c: Change)
    requires Refusal(m, c).None?
    requires forall d :: d in done ==> Remembered(m, previous, d)
    requires forall d :: d in done ==> d.kind != c.kind || d.id != c.id
    ensures forall d :: d in done + {c} ==> Remembered(m, previous[(c.kind, c.id) := Flag(m, c)], d)
  {
  }

  /**
   A batch does what its entries do one by one with the single commands, in
   any order: both succeed exactly when every entry is accepted on its own, and
   both end in the menu `SetAvailabilityBatch` promises.
   */
  lemma BatchIsOneByOne(m: Menu, raw: seq<Change>, order: seq<Change>)
    requires UsableBatch(raw) && multiset(order) == multiset(raw)
    ensures OneByOne(m, order).Ok? <==> forall c :: c in raw ==> Refusal(m, c).None?
    ensures OneByOne(m, order).Ok? ==> OneByOne(m, order).value == Update(m, Elements(raw))
  {
    UsableByPermutation(raw, order);
    OneByOneIsUpdate(m, order);
    SameEntries(m, raw, order);
  }
}
