/** Building a schedule one transaction at a time, beside others that stand still. */
module Schedules {
  import opened Prelude
  import opened Uuids
  import opened IdSets
  import opened Links
  import opened Locks
  import opened Transactions

  ghost function Beside(db: Tables, rest: map<nat, Tx>, id: nat, tx: Tx): System {
    System(db, rest[id := tx])
  }

  /** The ids of an example: three, and none of them the one that requests may not use. */
  const CATEGORY := Uuid([0, 0, 0, 0, 0, 0, 0, 0, 0, 0, 0, 0, 0, 0, 0, 1])
  const GROUP := Uuid([0, 0, 0, 0, 0, 0, 0, 0, 0, 0, 0, 0, 0, 0, 0, 2])
  const ITEM := Uuid([0, 0, 0, 0, 0, 0, 0, 0, 0, 0, 0, 0, 0, 0, 0, 3])

  lemma ExampleIds()
    ensures NIL != CATEGORY && NIL != GROUP && NIL != ITEM
    ensures CATEGORY != GROUP && GROUP != ITEM && ITEM != CATEGORY
  {
    assert NIL.octets[15] == 0 && CATEGORY.octets[15] == 1 && GROUP.octets[15] == 2 && ITEM.octets[15] == 3;
  }

  /** No row has the id that requests may not use. */
  ghost predicate UsableRows(db: Tables) {
    NIL !in db.categories && NIL !in db.groups && NIL !in db.items
  }

  ghost predicate Unheld(rest: map<nat, Tx>, l: Lock) {
    forall other :: other in rest ==> l !in rest[other].held
  }

  lemma Begins(kinds: set<Kind>, db: Tables, rest: map<nat, Tx>, id: nat, job: Job)
    requires id !in rest && KindOf(job) in kinds && Startable(job)
    ensures Reaches(kinds, System(db, rest), Beside(db, rest, id, NewTx(job, id)))
  {
    var s := System(db, rest);
    assert OnlyKinds(kinds, []) && Play(s, []) == s;
    ReachesMore(kinds, s, s, Begin(id, job, id));
  }

  /** `tx` after taking the lock it asks for, with `todo` left. */
  lemma Acquires1(kinds: set<Kind>, start: System, db: Tables, rest: map<nat, Tx>, id: nat, tx: Tx, l: Lock,
                  todo: seq<Op>)
    requires id !in rest && Reaches(kinds, start, Beside(db, rest, id, tx))
    requires tx.todo == [Acquire(l)] + todo && Unheld(rest, l)
    ensures Reaches(kinds, start, Beside(db, rest, id, tx.(todo := todo, held := tx.held + {l})))
  {
    var s := Beside(db, rest, id, tx);
    assert !Blocked(s, id);
    assert tx.todo[1..] == todo;
    ReachesMore(kinds, start, s, Step(id));
    assert Do(s, Step(id)) == Beside(db, rest, id, tx.(todo := todo, held := tx.held + {l}));
  }

  /** `tx` after one write statement. */
  lemma Writes1(kinds: set<Kind>, start: System, db: Tables, rest: map<nat, Tx>, id: nat, tx: Tx, op: Op, todo: seq<Op>)
    requires id !in rest && Reaches(kinds, start, Beside(db, rest, id, tx))
    requires tx.todo == [op] + todo && !op.Acquire? && !Duplicate(db, op)
    ensures Reaches(kinds, start, Beside(db, rest, id, tx.(todo := todo, writes := Write(db, tx.writes, op))))
  {
    var s := Beside(db, rest, id, tx);
    assert tx.todo[1..] == todo;
    ReachesMore(kinds, start, s, Step(id));
    assert Do(s, Step(id)) == Beside(db, rest, id, tx.(todo := todo, writes := Write(db, tx.writes, op)));
  }

  /** `tx` after its next read or check. */
  lemma Reads1(kinds: set<Kind>, start: System, db: Tables, rest: map<nat, Tx>, id: nat, tx: Tx, tx': Tx)
    requires id !in rest && Reaches(kinds, start, Beside(db, rest, id, tx))
    requires tx.todo == [] && tx.phase != Writing && Next(db, tx) == Some(tx')
    ensures Reaches(kinds, start, Beside(db, rest, id, tx'))
  {
    var s := Beside(db, rest, id, tx);
    ReachesMore(kinds, start, s, Step(id));
    assert Do(s, Step(id)) == Beside(db, rest, id, tx');
  }

  lemma Commits1(kinds: set<Kind>, start: System, db: Tables, rest: map<nat, Tx>, id: nat, tx: Tx)
    requires id !in rest && Reaches(kinds, start, Beside(db, rest, id, tx))
    requires tx.todo == [] && tx.phase == Writing && !Taken(db, tx.writes.change)
    ensures Reaches(kinds, start, System(Install(db, tx.writes), rest))
  {
    var s := Beside(db, rest, id, tx);
    ReachesMore(kinds, start, s, Commit(id));
    assert Do(s, Commit(id)) == System(Install(db, tx.writes), rest);
  }

  /** Every command begins with its request's lock. */
  lemma BeginsWithRequest(kinds: set<Kind>, db: Tables, rest: map<nat, Tx>, id: nat, job: Job)
    requires id !in rest && KindOf(job) in kinds && Startable(job) && Unheld(rest, RequestLock(id))
    ensures Reaches(kinds, System(db, rest),
                    Beside(db, rest, id, Tx(job, Starting, [], {RequestLock(id)}, NO_WRITES, NIL, {}, {})))
  {
    Begins(kinds, db, rest, id, job);
    Acquires1(kinds, System(db, rest), db, rest, id, NewTx(job, id), RequestLock(id), []);
    assert {} + {RequestLock(id)} == {RequestLock(id)};
  }

  lemma ListingOfOne(g: Uuid)
    ensures Listing({g}) == [g] && Listing({}) == []
  {
    ListingFacts({g});
    ListingFacts({});
    assert Listing({g})[0] in Elements(Listing({g}));
  }
}
