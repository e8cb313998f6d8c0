/**
 Turning items, sizes and modifier options on and off, one at a time and in
 batches. A batch is planned in the global lock order, applied all or nothing,
 and reported in (kind, id) order.
 */
module Availability {
  import opened Prelude
  import opened Ordering
  import opened Uuids
  import opened Locks

  const MAX_BATCH_SIZE: nat := 200

  /** The kind a request names; any other text is unknown. */
  datatype Kind = ItemKind | SizeKind | OptionKind | OtherKind(text: string)

  datatype Change = Change(kind: Kind, id: Uuid, available: bool)

  datatype Error =
    | NoChanges
    | TooManyChanges
    | UnknownKind(text: string)
    | MissingId(index: nat)
    | RepeatedChange(kind: Kind, id: Uuid)
    | NotFound
    | EntityRetired

  datatype Item = Item(priced: bool, available: bool, retired: bool)
  datatype Group = Group(minSelections: int, maxSelections: int, retired: bool)
  /** A size or an option; `parent` is its item or group and never changes. */
  datatype Child = Child(parent: Uuid, available: bool, retired: bool)

  datatype Menu =
    Menu(items: map<Uuid, Item>, sizes: map<Uuid, Child>, groups: map<Uuid, Group>, options: map<Uuid, Child>)

  predicate KnownKind(k: Kind) {
    !k.OtherKind?
  }

  function KindText(k: Kind): string {
    match k
    case ItemKind => "item"
    case SizeKind => "size"
    case OptionKind => "modifier_option"
    case OtherKind(text) => text
  }

  function Codes(s: string): seq<int> {
    seq(|s|, i requires 0 <= i < |s| => s[i] as int)
  }

  /** Sort key of a normalised batch: kind, then id text. */
  function ChangeKey(c: Change): seq<int> {
    Codes(KindText(c.kind)) + Text(c.id)
  }

  /**
   `sort.Slice` in the normaliser compares kinds and, when they are equal, id texts; for known kinds
   this is `ChangeKey`.
   */
  lemma ChangeKeyOrder(a: Change, b: Change)
    requires KnownKind(a.kind) && KnownKind(b.kind)
    ensures LexLess(ChangeKey(a), ChangeKey(b))
       <==> if a.kind != b.kind then LexLess(Codes(KindText(a.kind)), Codes(KindText(b.kind))) else Before(a.id, b.id)
  {
    if a.kind == b.kind {
      LexSamePrefix(Codes(KindText(a.kind)), Text(a.id), Text(b.id));
    } else {
      assert Codes(KindText(a.kind))[0] == KindText(a.kind)[0] as int
        && Codes(KindText(b.kind))[0] == KindText(b.kind)[0] as int;
      assert ChangeKey(a)[0] == KindText(a.kind)[0] as int && ChangeKey(b)[0] == KindText(b.kind)[0] as int;
    }
  }

  lemma ChangeKeyInjective(a: Change, b: Change)
    requires KnownKind(a.kind) && KnownKind(b.kind)
    ensures ChangeKey(a) == ChangeKey(b) <==> a.kind == b.kind && a.id == b.id
  {
    if a.kind == b.kind {
      assert ChangeKey(a)[|KindText(a.kind)|..] == Text(a.id) && ChangeKey(b)[|KindText(b.kind)|..] == Text(b.id);
      TextInjective(a.id, b.id);
    } else {
      assert ChangeKey(a)[0] == KindText(a.kind)[0] as int && ChangeKey(b)[0] == KindText(b.kind)[0] as int;
    }
  }

  // ---------- one entity ----------

  /** Why the single command refuses an entry, if it does. */
  function Refusal(m: Menu, c: Change): Option<Error> {
    if c.kind == ItemKind then
      if c.id !in m.items then Some(NotFound)
      else if m.items[c.id].retired then Some(EntityRetired)
      else None
    else if c.kind == SizeKind then
      if c.id !in m.sizes || m.sizes[c.id].parent !in m.items then Some(NotFound)
      else if m.items[m.sizes[c.id].parent].retired || m.sizes[c.id].retired then Some(EntityRetired)
      else None
    else if c.kind == OptionKind then
      if c.id !in m.options || m.options[c.id].parent !in m.groups then Some(NotFound)
      else if m.groups[m.options[c.id].parent].retired || m.options[c.id].retired then Some(EntityRetired)
      else None
    else Some(UnknownKind(KindText(c.kind)))
  }

  /** The stored flag an accepted entry is about. */
  function Flag(m: Menu, c: Change): bool
    requires Refusal(m, c).None?
  {
    if c.kind == ItemKind then m.items[c.id].available
    else if c.kind == SizeKind then m.sizes[c.id].available
    else m.options[c.id].available
  }

  /** The menu after the single command for one entry. */
  function SetOne(m: Menu, c: Change): Menu
    requires Refusal(m, c).None?
  {
    if c.kind == ItemKind then m.(items := m.items[c.id := m.items[c.id].(available := c.available)])
    else if c.kind == SizeKind then m.(sizes := m.sizes[c.id := m.sizes[c.id].(available := c.available)])
    else m.(options := m.options[c.id := m.options[c.id].(available := c.available)])
  }

  // ---------- many entities ----------

  /** What a set of changes asks one flag to be. */
  ghost function Wanted(cs: set<Change>, kind: Kind, id: Uuid, stored: bool): bool {
    if Change(kind, id, true) in cs then true
    else if Change(kind, id, false) in cs then false
    else stored
  }

  ghost function UpdateItems(items: map<Uuid, Item>, cs: set<Change>): map<Uuid, Item> {
    map i | i in items :: items[i].(available := Wanted(cs, ItemKind, i, items[i].available))
  }

  ghost function UpdateChildren(rows: map<Uuid, Child>, kind: Kind, cs: set<Change>): map<Uuid, Child> {
    map r | r in rows :: rows[r].(available := Wanted(cs, kind, r, rows[r].available))
  }

  /** The menu with every flag the changes name set, and nothing else changed. */
  ghost function Update(m: Menu, cs: set<Change>): Menu {
    Menu(UpdateItems(m.items, cs), UpdateChildren(m.sizes, SizeKind, cs), m.groups,
         UpdateChildren(m.options, OptionKind, cs))
  }

  /** No two entries are about the same entity. */
  ghost predicate TargetsDistinct(cs: seq<Change>) {
    forall i, j :: 0 <= i < j < |cs| ==> cs[i].kind != cs[j].kind || cs[i].id != cs[j].id
  }

  /** The single commands run one after the other, each in its own transaction. */
  ghost function OneByOne(m: Menu, cs: seq<Change>): Result<Menu, Error>
    decreases |cs|
  {
    if cs == [] then Ok(m)
    else if Refusal(m, cs[0]).Some? then Err(Refusal(m, cs[0]).value)
    else OneByOne(SetOne(m, cs[0]), cs[1..])
  }

  /** Setting a flag accepts and refuses what was accepted and refused before. */
  lemma SetOneKeepsRefusals(m: Menu, c: Change, d: Change)
    requires Refusal(m, c).None?
    ensures Refusal(SetOne(m, c), d) == Refusal(m, d)
  {
  }

  lemma UpdateNothing(m: Menu)
    ensures Update(m, {}) == m
  {
    assert UpdateItems(m.items, {}) == m.items;
    assert UpdateChildren(m.sizes, SizeKind, {}) == m.sizes;
    assert UpdateChildren(m.options, OptionKind, {}) == m.options;
  }

  lemma WantedStep(c: Change, rest: set<Change>, kind: Kind, id: Uuid, stored: bool)
    requires forall d :: d in rest ==> d.kind != c.kind || d.id != c.id
    ensures Wanted({c} + rest, kind, id, stored) ==
      if kind == c.kind && id == c.id then c.available else Wanted(rest, kind, id, stored)
  {
  }

  lemma UpdateItemsStep(items: map<Uuid, Item>, c: Change, rest: set<Change>)
    requires c.kind == ItemKind ==> c.id in items
    requires forall d :: d in rest ==> d.kind != c.kind || d.id != c.id
    ensures var first := if c.kind == ItemKind then items[c.id := items[c.id].(available := c.available)] else items;
      UpdateItems(first, rest) == UpdateItems(items, {c} + rest)
  {
    var first := if c.kind == ItemKind then items[c.id := items[c.id].(available := c.available)] else items;
    var a, b := UpdateItems(first, rest), UpdateItems(items, {c} + rest);
    forall i | i in items ensures a[i] == b[i] { WantedStep(c, rest, ItemKind, i, items[i].available); }
    assert a == b;
  }

  lemma UpdateChildrenStep(rows: map<Uuid, Child>, kind: Kind, c: Change, rest: set<Change>)
    requires c.kind == kind ==> c.id in rows
    requires forall d :: d in rest ==> d.kind != c.kind || d.id != c.id
    ensures var first := if c.kind == kind then rows[c.id := rows[c.id].(available := c.available)] else rows;
      UpdateChildren(first, kind, rest) == UpdateChildren(rows, kind, {c} + rest)
  {
    var first := if c.kind == kind then rows[c.id := rows[c.id].(available := c.available)] else rows;
    var a, b := UpdateChildren(first, kind, rest), UpdateChildren(rows, kind, {c} + rest);
    forall r | r in rows ensures a[r] == b[r] { WantedStep(c, rest, kind, r, rows[r].available); }
    assert a == b;
  }

  /** Setting one flag and then the others is setting them together, when they are about other entities. */
  lemma UpdateStep(m: Menu, c: Change, rest: set<Change>)
    requires Refusal(m, c).None?
    requires forall d :: d in rest ==> d.kind != c.kind || d.id != c.id
    ensures Update(SetOne(m, c), rest) == Update(m, {c} + rest)
  {
    UpdateItemsStep(m.items, c, rest);
    UpdateChildrenStep(m.sizes, SizeKind, c, rest);
    UpdateChildrenStep(m.options, OptionKind, c, rest);
  }

  /**
   Entries about different entities can be set one by one in any order: the run
   succeeds exactly when the single command accepts each of them from the start,
   and ends where setting them all at once does.
   */
  lemma {:induction false} OneByOneIsUpdate(m: Menu, cs: seq<Change>)
    requires TargetsDistinct(cs)
    ensures OneByOne(m, cs).Ok? <==> forall c :: c in cs ==> Refusal(m, c).None?
    ensures OneByOne(m, cs).Ok? ==> OneByOne(m, cs).value == Update(m, Elements(cs))
    decreases |cs|
  {
    if cs == [] {
      assert Elements(cs) == {};
      UpdateNothing(m);
    } else if Refusal(m, cs[0]).None? {
      var m1 := SetOne(m, cs[0]);
      assert cs == [cs[0]] + cs[1..];
      assert Elements(cs) == {cs[0]} + Elements(cs[1..]);
      forall d ensures Refusal(m1, d) == Refusal(m, d) { SetOneKeepsRefusals(m, cs[0], d); }
      OneByOneIsUpdate(m1, cs[1..]);
      UpdateStep(m, cs[0], Elements(cs[1..]));
    } else {
      assert cs[0] in cs;
    }
  }

  /** Updating flags accepts and refuses what was accepted and refused before, and leaves the other flags alone. */
  lemma UpdateKeepsRefusals(m: Menu, cs: set<Change>, c: Change)
    ensures Refusal(Update(m, cs), c) == Refusal(m, c)
    ensures Refusal(m, c).None? && (forall d :: d in cs ==> d.kind != c.kind || d.id != c.id) ==>
      Flag(Update(m, cs), c) == Flag(m, c)
  {
  }

  lemma WantedLast(c: Change, cs: set<Change>, kind: Kind, id: Uuid, stored: bool)
    requires forall d :: d in cs ==> d.kind != c.kind || d.id != c.id
    ensures Wanted(cs + {c}, kind, id, stored) ==
      if kind == c.kind && id == c.id then c.available else Wanted(cs, kind, id, stored)
  {
  }

  lemma UpdateItemsThenSet(items: map<Uuid, Item>, cs: set<Change>, c: Change)
    requires c.kind == ItemKind && c.id in items
    requires forall d :: d in cs ==> d.kind != c.kind || d.id != c.id
    ensures var u := UpdateItems(items, cs);
      u[c.id := u[c.id].(available := c.available)] == UpdateItems(items, cs + {c})
  {
    var u := UpdateItems(items, cs);
    var a, b := u[c.id := u[c.id].(available := c.available)], UpdateItems(items, cs + {c});
    forall i | i in items ensures a[i] == b[i] { WantedLast(c, cs, ItemKind, i, items[i].available); }
    assert a == b;
  }

  lemma UpdateChildrenThenSet(rows: map<Uuid, Child>, kind: Kind, cs: set<Change>, c: Change)
    requires c.kind == kind && c.id in rows
    requires forall d :: d in cs ==> d.kind != c.kind || d.id != c.id
    ensures var u := UpdateChildren(rows, kind, cs);
      u[c.id := u[c.id].(available := c.available)] == UpdateChildren(rows, kind, cs + {c})
  {
    var u := UpdateChildren(rows, kind, cs);
    var a, b := u[c.id := u[c.id].(available := c.available)], UpdateChildren(rows, kind, cs + {c});
    forall r | r in rows ensures a[r] == b[r] { WantedLast(c, cs, kind, r, rows[r].available); }
    assert a == b;
  }

  lemma UpdateItemsOther(items: map<Uuid, Item>, cs: set<Change>, c: Change)
    requires c.kind != ItemKind
    ensures UpdateItems(items, cs + {c}) == UpdateItems(items, cs)
  {
    var a, b := UpdateItems(items, cs + {c}), UpdateItems(items, cs);
    forall i | i in items ensures a[i] == b[i] { }
    assert a == b;
  }

  lemma UpdateChildrenOther(rows: map<Uuid, Child>, kind: Kind, cs: set<Change>, c: Change)
    requires c.kind != kind
    ensures UpdateChildren(rows, kind, cs + {c}) == UpdateChildren(rows, kind, cs)
  {
    var a, b := UpdateChildren(rows, kind, cs + {c}), UpdateChildren(rows, kind, cs);
    forall r | r in rows ensures a[r] == b[r] { }
    assert a == b;
  }

  /** Setting one more flag extends the update. */
  lemma UpdateThenSet(m: Menu, cs: set<Change>, c: Change)
    requires Refusal(m, c).None?
    requires forall d :: d in cs ==> d.kind != c.kind || d.id != c.id
    ensures Refusal(Update(m, cs), c).None?
    ensures SetOne(Update(m, cs), c) == Update(m, cs + {c})
  {
    UpdateKeepsRefusals(m, cs, c);
    if c.kind == ItemKind { UpdateItemsThenSet(m.items, cs, c); } else { UpdateItemsOther(m.items, cs, c); }
    if c.kind == SizeKind {
      UpdateChildrenThenSet(m.sizes, SizeKind, cs, c);
    } else {
      UpdateChildrenOther(m.sizes, SizeKind, cs, c);
    }
    if c.kind == OptionKind {
      UpdateChildrenThenSet(m.options, OptionKind, cs, c);
    } else {
      UpdateChildrenOther(m.options, OptionKind, cs, c);
    }
  }

  // ---------- planning ----------

  /** One change in the global lock order. */
  datatype LockStep = LockStep(change: Change, treeRank: int, parent: Uuid, childRank: int)

  function StepFor(m: Menu, c: Change): Option<LockStep> {
    if c.kind == ItemKind then Some(LockStep(c, 0, c.id, 0))
    else if c.kind == SizeKind then
      if c.id in m.sizes then Some(LockStep(c, 0, m.sizes[c.id].parent, 1)) else None
    else if c.kind == OptionKind then
      if c.id in m.options then Some(LockStep(c, 1, m.options[c.id].parent, 1)) else None
    else Some(LockStep(c, 0, NIL, 0))
  }

  /** Sort key of the plan: tree, parent text, parent before child, id text. */
  function StepKey(s: LockStep): seq<int> {
    [s.treeRank] + Text(s.parent) + [s.childRank] + Text(s.change.id)
  }

  /** A step as the planner builds it. */
  ghost predicate Planned(m: Menu, s: LockStep) {
    KnownKind(s.change.kind) && StepFor(m, s.change) == Some(s)
  }

  lemma StepKeyInjective(m: Menu, a: LockStep, b: LockStep)
    requires Planned(m, a) && Planned(m, b)
    ensures StepKey(a) == StepKey(b) ==> a.change.kind == b.change.kind && a.change.id == b.change.id
  {
    TextLength(a.parent);
    TextLength(b.parent);
    if StepKey(a) == StepKey(b) {
      assert StepKey(a)[0] == a.treeRank && StepKey(b)[0] == b.treeRank;
      assert StepKey(a)[37] == a.childRank && StepKey(b)[37] == b.childRank;
      assert StepKey(a)[38..] == Text(a.change.id) && StepKey(b)[38..] == Text(b.change.id);
      TextInjective(a.change.id, b.change.id);
    }
  }

  /** The locks an entry takes, parent first. */
  function LocksFor(s: LockStep): seq<Lock> {
    if s.change.kind == ItemKind then [ItemLock(s.change.id)]
    else if s.change.kind == SizeKind then [ItemLock(s.parent), SizeLock(s.parent, s.change.id)]
    else [GroupLock(s.parent), OptionLock(s.parent, s.change.id)]
  }

  function Requests(steps: seq<LockStep>): seq<Lock> {
    if steps == [] then [] else LocksFor(steps[0]) + Requests(steps[1..])
  }

  /** The locks of the steps of one plan up to its last. */
  ghost function LocksOf(steps: seq<LockStep>): set<Lock> {
    set s, l | s in steps && l in LocksFor(s) :: l
  }

  lemma StepParents(a: LockStep, b: LockStep)
    requires a.treeRank == b.treeRank && a.parent != b.parent && LexLess(StepKey(a), StepKey(b))
    ensures Before(a.parent, b.parent)
  {
    TextLength(a.parent);
    TextLength(b.parent);
    TextInjective(a.parent, b.parent);
    var p, q := [a.treeRank] + Text(a.parent), [b.treeRank] + Text(b.parent);
    var ra, rb := [a.childRank] + Text(a.change.id), [b.childRank] + Text(b.change.id);
    assert StepKey(a) == p + ra && StepKey(b) == q + rb;
    assert p[1..] == Text(a.parent) && q[1..] == Text(b.parent);
    LexPrefixDecides(p, q, ra, rb);
    LexSamePrefix([a.treeRank], Text(a.parent), Text(b.parent));
  }

  lemma StepsApart(m: Menu, a: LockStep, b: LockStep)
    requires Planned(m, a) && Planned(m, b) && LexLess(StepKey(a), StepKey(b))
    requires a.treeRank != b.treeRank || a.parent != b.parent
    ensures forall x, y :: x in LocksFor(a) && y in LocksFor(b) ==> Below(x, y)
  {
    if a.treeRank == b.treeRank {
      StepParents(a, b);
      TreesApart(a, b);
    } else {
      assert StepKey(a)[0] == a.treeRank && StepKey(b)[0] == b.treeRank;
      assert a.treeRank < b.treeRank;
      forall x, y | x in LocksFor(a) && y in LocksFor(b) ensures Below(x, y) {
        TierDecides(x, y);
      }
    }
  }

  lemma TreesApart(a: LockStep, b: LockStep)
    requires Before(a.parent, b.parent)
    requires a.change.kind == ItemKind ==> a.parent == a.change.id
    requires b.change.kind == ItemKind ==> b.parent == b.change.id
    requires (a.change.kind == OptionKind) == (b.change.kind == OptionKind)
    requires KnownKind(a.change.kind) && KnownKind(b.change.kind)
    ensures forall x, y :: x in LocksFor(a) && y in LocksFor(b) ==> Below(x, y)
  {
    forall x, y | x in LocksFor(a) && y in LocksFor(b) ensures Below(x, y) {
      var p, q := a.parent, b.parent;
      var ca, cb := [1] + Text(a.change.id), [1] + Text(b.change.id);
      var tier := Tier(x);
      TreeOrder(tier, p, q, [0], [0]);
      TreeOrder(tier, p, q, [0], cb);
      TreeOrder(tier, p, q, ca, [0]);
      TreeOrder(tier, p, q, ca, cb);
      assert [tier] + Text(p) + ca == [tier] + Text(p) + [1] + Text(a.change.id);
      assert [tier] + Text(q) + cb == [tier] + Text(q) + [1] + Text(b.change.id);
    }
  }

  /** Within one tree the later step is a child of the root the earlier one locked. */
  lemma StepsTogether(m: Menu, a: LockStep, b: LockStep)
    requires Planned(m, a) && Planned(m, b) && LexLess(StepKey(a), StepKey(b))
    requires a.treeRank == b.treeRank && a.parent == b.parent
    ensures b.childRank == 1
    ensures LocksFor(b)[0] in LocksFor(a)
    ensures forall x :: x in LocksFor(a) ==> Below(x, LocksFor(b)[1])
  {
    var p := [a.treeRank] + Text(a.parent);
    assert StepKey(a) == p + ([a.childRank] + Text(a.change.id))
      && StepKey(b) == p + ([b.childRank] + Text(b.change.id));
    LexSamePrefix(p, [a.childRank] + Text(a.change.id), [b.childRank] + Text(b.change.id));
    if b.childRank == 0 {
      LexSamePrefix([0], Text(a.change.id), Text(b.change.id));
      LexIrreflexive(Text(a.change.id));
    } else {
      ChildOrder(a.parent, a.change.id, b.change.id);
      ChildOrder(a.parent, b.change.id, b.change.id);
      if a.childRank == 1 { LexSamePrefix([1], Text(a.change.id), Text(b.change.id)); }
    }
  }

  /**
   A plan requests its locks in the global order: each request is for a row the
   batch already locked, or for one above all of them.
   */
  lemma {:induction false} PlanOrdered(m: Menu, done: seq<LockStep>, steps: seq<LockStep>, held: set<Lock>)
    requires forall s :: s in done + steps ==> Planned(m, s)
    requires Ascending(StepKey, done + steps)
    requires forall h :: h in held ==> Tier(h) == 0 || h in LocksOf(done)
    requires LocksOf(done) <= held
    ensures Ordered(held, Requests(steps))
    decreases |steps|
  {
    if steps != [] {
      var s := steps[0];
      var ls := LocksFor(s);
      assert (done + steps)[|done|] == s;
      assert s in done + steps;
      forall d | d in done ensures LexLess(StepKey(d), StepKey(s)) {
        var i :| 0 <= i < |done| && done[i] == d;
        assert (done + steps)[i] == d;
      }
      StepOrdered(m, done, s, held);
      assert done + steps == (done + [s]) + steps[1..];
      assert LocksOf(done + [s]) == LocksOf(done) + Elements(ls);
      PlanOrdered(m, done + [s], steps[1..], held + Elements(ls));
      OrderedConcat(held, ls, Requests(steps[1..]));
    }
  }

  lemma StepOrdered(m: Menu, done: seq<LockStep>, s: LockStep, held: set<Lock>)
    requires Planned(m, s) && forall d :: d in done ==> Planned(m, d) && LexLess(StepKey(d), StepKey(s))
    requires forall h :: h in held ==> Tier(h) == 0 || h in LocksOf(done)
    requires LocksOf(done) <= held
    ensures Ordered(held, LocksFor(s))
  {
    var ls := LocksFor(s);
    if exists d :: d in done && d.treeRank == s.treeRank && d.parent == s.parent {
      var d :| d in done && d.treeRank == s.treeRank && d.parent == s.parent;
      StepsTogether(m, d, s);
      assert ls[0] in LocksOf(done);
      forall h | h in held ensures Below(h, ls[1]) {
        HeldBelow(m, done, s, h, ls[1]);
      }
      assert held + {ls[0]} == held;
      assert ls[1..] == [ls[1]] && ls[1..][1..] == [];
    } else {
      forall h | h in held ensures forall l :: l in ls ==> Below(h, l) {
        forall l | l in ls ensures Below(h, l) { HeldBelow(m, done, s, h, l); }
      }
      if |ls| == 2 { ChildOrder(s.parent, s.change.id, s.change.id); }
      AscendingOrdered(held, ls);
    }
  }

  /** Anything held is below a lock of the next step, unless it is of the same tree and the lock is the root. */
  lemma HeldBelow(m: Menu, done: seq<LockStep>, s: LockStep, h: Lock, l: Lock)
    requires Planned(m, s) && forall d :: d in done ==> Planned(m, d) && LexLess(StepKey(d), StepKey(s))
    requires Tier(h) == 0 || h in LocksOf(done)
    requires l in LocksFor(s)
    requires (forall d :: d in done ==> d.treeRank != s.treeRank || d.parent != s.parent)
      || (|LocksFor(s)| == 2 && l == LocksFor(s)[1])
    ensures Below(h, l)
  {
    if Tier(h) == 0 {
      TierDecides(h, l);
    } else {
      var d :| d in done && h in LocksFor(d);
      if d.treeRank == s.treeRank && d.parent == s.parent {
        StepsTogether(m, d, s);
      } else {
        StepsApart(m, d, s);
      }
    }
  }
}
