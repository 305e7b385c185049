/** A clause that stays in the store as a reason, though a pass deleted it, and that later passes no longer look at. */
module KeptReasons {
  import opened Logic
  import opened SearchState
  import opened Subsumption
  import opened ForwardSubsumers

  // The long clause was checked by an earlier pass and is a reason; the short one has been learned since.
  const LONG: Ref := 0
  const SHORT: Ref := 1

  function Store(): Database {
    map[LONG := Entry([2, 4, 6], false), SHORT := Entry([2, 4], true)]
  }

  const LONG_LITS: Clause := [2, 4, 6]
  const SHORT_LITS: Clause := [2, 4]

  lemma OnlyOneWay()
    ensures Subsumes(SHORT_LITS, LONG_LITS) && !Subsumes(LONG_LITS, SHORT_LITS)
  {
  }

  /** The store of the two clauses, whichever of them are permanent. */
  ghost predicate Both(db: Database) {
    db.Keys == {LONG, SHORT} && db[LONG].lits == LONG_LITS && db[SHORT].lits == SHORT_LITS
  }

  /** Where the two clauses are in a pass. */
  lemma Places(db: Database, found: seq<Item>, checked: set<Ref>) returns (i: nat, j: nat)
    requires Both(db) && Collected(found, db, checked)
    ensures i < |found| && j < |found| && i != j && found[i].lits == SHORT_LITS && found[j].lits == LONG_LITS
    ensures found[i].ref == SHORT && found[j].ref == LONG && Signed(found)
    ensures forall k :: 0 <= k < |found| ==> found[k].lits == SHORT_LITS || found[k].lits == LONG_LITS
    ensures forall k :: 0 <= k < |found| ==>
            found[k].active && found[k].ref in db && (found[k].checked <==> found[k].ref in checked)
  {
    i :| 0 <= i < |found| && found[i].ref == SHORT;
    j :| 0 <= j < |found| && found[j].ref == LONG;
  }

  /** A clause that none of the others subsumes is not deleted. */
  lemma {:induction false} StillStands(items: seq<Item>, i: nat)
    requires i < |items| && Replaced(items)
    requires forall j :: 0 <= j < |items| && j != i ==> !Subsumes(items[j].lits, items[i].lits)
    ensures items[i].active
  {
    forall k | 0 <= k < |items| && !items[k].active ensures k != i {
      assert ReplacedAt(items, k);
    }
  }

  /** The pass that does not know the short clause deletes the long one, and it alone. */
  lemma {:induction false} FirstDeletes(db: Database, found: seq<Item>, promotable: set<Ref>, p: Pass)
    requires Both(db) && Collected(found, db, {LONG}) && db.Keys <= promotable
    requires p == Swept(found, promotable, |found|) && LogTells(p)
    ensures LONG in DeletedIn(p.log) && SHORT !in DeletedIn(p.log) && Standing(p.items) == {SHORT}
  {
    OnlyOneWay();
    var i, j := Places(db, found, {LONG});
    SweptLater(found, promotable, 0, |found|);
    DeletedAreReplaced(found, promotable, |found|);
    NothingSubsumedIsLeft(found, promotable, i, j);
    assert LaterItem(found[i], p.items[i]) && LaterItem(found[j], p.items[j]);
    hide Swept, Subsumes, Collected;
    StillStands(p.items, i);
    assert p.items[i].active && !p.items[j].active;
    assert forall r :: r in Standing(p.items) <==> r == SHORT;
  }

  /** A pass over the two clauses does nothing once both are marked; one that heeds no marks would delete one of
      them. */
  lemma {:induction false} SecondIsIdle(db: Database, found: seq<Item>, promotable: set<Ref>, p: Pass)
    requires Both(db) && Collected(found, db, {LONG, SHORT}) && db.Keys <= promotable
    requires p == Swept(found, promotable, |found|)
    ensures p.log == [] && Swept(Erased(found), promotable, |found|) != ErasedPass(p)
  {
    OnlyOneWay();
    var i, j := Places(db, found, {LONG, SHORT});
    MarkedPassIsIdle(found, promotable, |found|);
    NothingSubsumedIsLeft(Erased(found), promotable, i, j);
  }

  /** The first pass deletes the long clause, which stays and keeps its mark; a second one, when it is a reason no
      longer, leaves it alone, though a pass that heeds no marks would delete it. */
  method SecondPassMisses(s: ForwardSubsumer) returns (ghost found: seq<Item>)
    requires s.garbage == {} && s.incremental && s.checkedRefs == {LONG}
    modifies s
    ensures Both(s.database) && s.Now() == Swept(found, s.promotable, |found|) && s.log == []
    ensures Swept(Erased(found), s.promotable, |found|) != ErasedPass(s.Now())
  {
    hide *;
    FirstPass(s);
    ghost var db := s.database;
    Marks(s);
    s.Load(s.database, {});
    Marks(s);
    ghost var store;
    found, store := s.Run();
    SecondIsIdle(db, found, s.promotable, s.Now());
    NowIs(s);
    StillBoth(db, s.database, s.log);
  }

  lemma Marks(s: ForwardSubsumer)
    ensures s.incremental ==> s.Marked() == s.checkedRefs
  {
  }

  lemma NowIs(s: ForwardSubsumer)
    ensures s.Now().log == s.log && s.Now().items == s.clauses
  {
  }

  lemma StillBoth(db: Database, later: Database, log: seq<Event>)
    requires Both(db) && log == [] && forall r :: r in later ==> r in db && later[r].lits == db[r].lits
    requires forall r :: r in later <==> r in db && (r !in DeletedIn(log) || r in {})
    ensures Both(later)
  {
  }

  method FirstPass(s: ForwardSubsumer)
    requires s.garbage == {} && s.incremental && s.checkedRefs == {LONG}
    modifies s
    ensures s.garbage == {} && s.incremental && s.checkedRefs == {LONG, SHORT} && Both(s.database)
    ensures !CheckedClean(s.database, s.checkedRefs)
  {
    hide *;
    StoreIsBoth();
    s.Load(Store(), {LONG});
    Marks(s);
    ghost var found, store;
    found, store := s.Run();
    NowIs(s);
    FirstDeletes(Store(), found, s.promotable, s.Now());
    KeptBoth(Store(), s.database, s.log);
    NotClean(s.database);
  }

  lemma StoreIsBoth()
    ensures Both(Store())
  {
  }

  lemma KeptBoth(db: Database, later: Database, log: seq<Event>)
    requires Both(db) && SHORT !in DeletedIn(log) && forall r :: r in later ==> r in db && later[r].lits == db[r].lits
    requires forall r :: r in later <==> r in db && (r !in DeletedIn(log) || r in {LONG})
    ensures Both(later)
  {
    assert SHORT in later && LONG in later;
    assert forall r :: r in later.Keys <==> r in {LONG, SHORT};
  }

  lemma NotClean(db: Database)
    requires Both(db)
    ensures !CheckedClean(db, {LONG, SHORT})
  {
    OnlyOneWay();
  }
}
