/** The subsumption pass over the clause store. */
module ForwardSubsumers {
  import opened Logic
  import opened SearchState
  import opened CountingIndex
  import opened Implication
  import opened Subsumption

  class ForwardSubsumer {
    var database: Database
    var garbage: set<Ref>
    // Clauses an earlier pass has checked against one another.
    var checkedRefs: set<Ref>
    // Learned clauses the store would make permanent.
    var promotable: set<Ref>
    // Clauses that are reasons on a trail: flushing the garbage leaves them in the store.
    var reasons: set<Ref>
    var incremental: bool

    var clauses: seq<Item>
    var start: seq<nat>
    var entries: seq<nat>
    var slots: nat
    var subsumedCount: nat
    var log: seq<Event>

    constructor (database: Database, promotable: set<Ref>, incremental: bool)
      ensures this.database == database && this.promotable == promotable && this.incremental == incremental
      ensures garbage == {} && checkedRefs == {} && reasons == {}
    {
      reasons := {};
      this.database, garbage, checkedRefs, this.promotable, this.incremental := database, {}, {}, promotable,
          incremental;
      clauses, start, entries, slots, subsumedCount, log := [], [], [], 0, 0, [];
    }

    /** The store to work on next, and the clauses in it that are reasons. Every learned clause can be made
        permanent. */
    method Load(store: Database, reasons: set<Ref>)
      modifies this`database, this`reasons, this`promotable, this`garbage
      ensures database == store && this.reasons == reasons && promotable == store.Keys && garbage == {}
    {
      database, this.reasons, promotable, garbage := store, reasons, store.Keys, {};
    }

    ghost function Now(): Pass
      reads this`clauses, this`log
    {
      Pass(clauses, log)
    }

    /** The occurrence lists are those of the clauses. */
    ghost predicate Indexed()
      reads this`clauses, this`start, this`entries, this`slots
    {
      IndexOf(RowsOf(clauses), slots, start, entries) && RowsBelow(RowsOf(clauses), slots)
    }

    /** What is garbage has been logged as deleted. */
    predicate Logged()
      reads this`garbage, this`log
    {
      garbage == DeletedIn(log)
    }

    method ClauseSubsumes(left: Clause, right: Clause) returns (yes: bool)
      ensures yes <==> Subsumes(left, right)
    {
      if left == [] || |left| > |right| {
        return false;
      }
      var i := 0;
      while i < |left|
        invariant 0 <= i <= |left| && forall k :: 0 <= k < i ==> left[k] in right
      {
        if left[i] !in right {
          return false;
        }
        i := i + 1;
      }
      yes := true;
    }

    method Signature(c: Clause) returns (signature: set<nat>)
      ensures signature == SignatureOf(c)
    {
      signature := {};
      var i := 0;
      while i < |c|
        invariant 0 <= i <= |c| && signature == SignatureOf(c[..i])
      {
        SignatureMore(c, i);
        signature := signature + {c[i] % 64};
        i := i + 1;
      }
      assert c[..|c|] == c;
    }

    /** The clauses whose marks count: none, on a full pass. */
    function Marked(): set<Ref>
      reads this`incremental, this`checkedRefs
    {
      if incremental then checkedRefs else {}
    }

    method AppendClause(ref: Ref, ghost done: set<Ref>)
      requires CollectedFrom(clauses, database, Marked(), done) && ref in database && ref !in done
      modifies this`clauses
      ensures CollectedFrom(clauses, database, Marked(), done + {ref})
    {
      hide CollectedFrom;
      var lits := database[ref].lits;
      var signature := Signature(lits);
      CollectOne(clauses, database, Marked(), done, ref);
      clauses := clauses + [Item(ref, lits, signature, true, database[ref].redundant, incremental
                                 && ref in checkedRefs)];
    }

    /** Appends the clauses of one kind. */
    method AppendClauses(redundant: bool, ghost done: set<Ref>)
      requires CollectedFrom(clauses, database, Marked(), done) && done !! KindOf(database, redundant)
      modifies this`clauses
      ensures CollectedFrom(clauses, database, Marked(), done + KindOf(database, redundant))
    {
      hide CollectedFrom;
      var todo := KindOf(database, redundant);
      ghost var all, now := todo, done;
      while todo != {}
        invariant todo <= all && now == done + (all - todo)
        invariant CollectedFrom(clauses, database, Marked(), now)
        decreases |todo|
      {
        var ref :| ref in todo;
        AppendClause(ref, now);
        todo := todo - {ref};
        now := now + {ref};
      }
      assert now == done + all;
    }

    /** Lists the clauses of the store, permanent ones first. */
    method CollectClauses()
      modifies this`clauses
      ensures Collected(clauses, database, Marked())
    {
      hide Collected, CollectedFrom;
      clauses := [];
      CollectNothing(database, Marked());
      AppendClauses(false, {});
      ghost var permanent := KindOf(database, false);
      assert {} + permanent == permanent;
      AppendClauses(true, permanent);
      CollectedAll(clauses, database, Marked(), permanent + KindOf(database, true));
    }

    /** Files every clause under its literals. */
    method BuildOccurrenceIndex()
      modifies this`start, this`entries, this`slots
      ensures Indexed()
    {
      var highest := 0;
      var k := 0;
      while k < |clauses|
        invariant 0 <= k <= |clauses|
        invariant forall j, i :: 0 <= j < k && 0 <= i < |clauses[j].lits| ==> clauses[j].lits[i] <= highest
      {
        var i := 0;
        ghost var before := highest;
        while i < |clauses[k].lits|
          invariant 0 <= i <= |clauses[k].lits| && highest >= before
          invariant forall j :: 0 <= j < i ==> clauses[k].lits[j] <= highest
        {
          if clauses[k].lits[i] > highest {
            highest := clauses[k].lits[i];
          }
          i := i + 1;
        }
        k := k + 1;
      }
      slots := highest + 1;
      start, entries := BuildIndex(RowsOf(clauses), slots);
    }

    /** The clauses a literal occurs in. */
    method OccurrencesOf(l: Lit) returns (list: seq<nat>)
      requires Indexed()
      ensures list == Occurrences(RowsOf(clauses), l)
    {
      if l + 1 >= |start| {
        NoOccurrences(RowsOf(clauses), slots, l);
        return [];
      }
      assert ListIs(RowsOf(clauses), start, entries, l);
      list := entries[start[l]..start[l + 1]];
    }

    /** The shortest of the occurrence lists of a clause's literals. */
    method RarestCandidates(left: nat) returns (cands: seq<nat>)
      requires Indexed() && left < |clauses| && clauses[left].lits != []
      ensures cands == Candidates(RowsOf(clauses), clauses[left].lits)
    {
      hide IndexOf, RowsBelow, RowsOf;
      var lits := clauses[left].lits;
      cands := OccurrencesOf(lits[0]);
      var i := 1;
      while i < |lits|
        invariant 1 <= i <= |lits| && cands == Occurrences(RowsOf(clauses), Rarest(RowsOf(clauses), lits, i))
      {
        var candidates := OccurrencesOf(lits[i]);
        if |candidates| < |cands| {
          cands := candidates;
        }
        i := i + 1;
      }
    }

    /** Deletes one clause in favour of another. */
    method SubsumeClause(subsumed: nat, keeper: nat)
      requires subsumed < |clauses| && keeper < |clauses| && subsumed != keeper && Stored(clauses, database, garbage)
               && Logged()
      modifies this`clauses, this`log, this`database, this`garbage, this`subsumedCount
      ensures Now() == Subsume(old(Now()), promotable, subsumed, keeper) && Stored(clauses, database, garbage)
              && Logged()
    {
      hide Stored;
      if !clauses[subsumed].redundant && clauses[keeper].redundant {
        if clauses[keeper].ref !in promotable {
          return;
        }
        PromotedStored(clauses, database, garbage, keeper);
        DeletedMore(log, Promoted(clauses[keeper].ref));
        database := database[clauses[keeper].ref := Entry(clauses[keeper].lits, false)];
        log := log + [Promoted(clauses[keeper].ref)];
        clauses := clauses[keeper := clauses[keeper].(redundant := false)];
      }
      MarkSubsumed(subsumed);
    }

    method MarkSubsumed(i: nat)
      requires i < |clauses| && Stored(clauses, database, garbage) && Logged()
      modifies this`clauses, this`log, this`garbage, this`subsumedCount
      ensures clauses == old(clauses)[i := old(clauses)[i].(active := false)]
              && log == old(log) + [Deleted(old(clauses)[i].ref)]
      ensures Stored(clauses, database, garbage) && Logged()
    {
      hide Stored;
      DeletedStored(clauses, database, garbage, i);
      DeletedMore(log, Deleted(clauses[i].ref));
      garbage := garbage + {clauses[i].ref};
      log := log + [Deleted(clauses[i].ref)];
      clauses := clauses[i := clauses[i].(active := false)];
      subsumedCount := subsumedCount + 1;
    }

    /** Whether the candidate may replace the left clause. */
    method PassesForward(left: nat, c: nat) returns (yes: bool)
      requires left < |clauses| && c < |clauses|
      ensures yes <==> ForwardTest(clauses, left, c)
    {
      var l, x := clauses[left], clauses[c];
      if c == left || !x.active || (l.checked && x.checked) {
        return false;
      }
      var precedesEqual := c < left && |x.lits| == |l.lits|;
      if (|x.lits| < |l.lits| || precedesEqual) && x.signature <= l.signature {
        yes := ClauseSubsumes(x.lits, l.lits);
      } else {
        yes := false;
      }
    }

    /** Whether the left clause may replace the candidate. */
    method PassesBackward(left: nat, c: nat) returns (yes: bool)
      requires left < |clauses| && c < |clauses|
      ensures yes <==> BackwardTest(clauses, left, c)
    {
      var l, x := clauses[left], clauses[c];
      if c == left || !x.active || (l.checked && x.checked) {
        return false;
      }
      if |l.lits| <= |x.lits| && l.signature <= x.signature {
        yes := ClauseSubsumes(l.lits, x.lits);
      } else {
        yes := false;
      }
    }

    /** Looks for a clause that replaces the left one. */
    method SearchForward(left: nat, cands: seq<nat>) returns (at: nat)
      requires left < |clauses| && forall j :: j in cands ==> j < |clauses|
      ensures at == FirstForward(clauses, left, cands, 0)
    {
      at := 0;
      while at < |cands|
        invariant 0 <= at <= |cands| && FirstForward(clauses, left, cands, 0) == FirstForward(clauses, left, cands, at)
        decreases |cands| - at
      {
        assert cands[at] in cands;
        var passes := PassesForward(left, cands[at]);
        if passes {
          return;
        }
        at := at + 1;
      }
    }

    /** Deletes every candidate the left clause replaces. */
    method SearchBackward(left: nat, cands: seq<nat>)
      requires left < |clauses| && (forall j :: j in cands ==> j < |clauses|) && Stored(clauses, database, garbage)
               && Logged()
      modifies this`clauses, this`log, this`database, this`garbage, this`subsumedCount
      ensures Now() == Backward(old(Now()), promotable, left, cands, |cands|) && Stored(clauses, database, garbage)
              && Logged()
    {
      hide Stored, Subsume, BackwardTest;
      var k := 0;
      while k < |cands|
        invariant 0 <= k <= |cands| && Now() == Backward(old(Now()), promotable, left, cands, k)
        invariant Stored(clauses, database, garbage) && Logged() && |clauses| == old(|clauses|)
      {
        assert cands[k] in cands;
        var passes := PassesBackward(left, cands[k]);
        if passes {
          TestsAnother(clauses, left, cands[k]);
          SubsumeClause(cands[k], left);
        }
        k := k + 1;
      }
    }

    /** The turn of one clause. */
    method ProcessClause(left: nat)
      requires left < |clauses| && Stored(clauses, database, garbage) && Logged() && Indexed()
      modifies this`clauses, this`log, this`database, this`garbage, this`subsumedCount
      ensures Now() == Process(old(Now()), promotable, left) && Stored(clauses, database, garbage) && Logged()
              && Indexed()
    {
      hide Stored, Subsume, IndexOf, RowsBelow, FirstForward, Backward;
      ghost var before := Now();
      ProcessLater(before, promotable, left);
      LaterRows(before.items, Process(before, promotable, left).items);
      if !clauses[left].active || clauses[left].lits == [] {
        return;
      }
      var cands := RarestCandidates(left);
      CandidatesInRange(clauses, clauses[left].lits);
      var at := SearchForward(left, cands);
      if at < |cands| {
        ForwardAnother(clauses, left, cands, at);
        SubsumeClause(left, cands[at]);
      } else {
        SearchBackward(left, cands);
      }
    }

    /** A pass over the whole store: `found` is what it starts from, `store` and `deleted` what it leaves before the
        garbage is flushed. */
    method Sweep() returns (ghost found: seq<Item>)
      requires garbage == {}
      modifies this`clauses, this`log, this`database, this`garbage, this`subsumedCount, this`start, this`entries,
               this`slots
      ensures Collected(found, old(database), Marked()) && Now() == Swept(found, promotable, |found|)
      ensures Stored(clauses, database, garbage) && Logged()
    {
      hide Stored, Collected, IndexOf, RowsBelow, Process;
      log := [];
      CollectClauses();
      found := clauses;
      CollectedIsStored(clauses, database, Marked());
      BuildOccurrenceIndex();
      var left := 0;
      while left < |clauses|
        invariant 0 <= left <= |clauses| == |found| && Now() == Swept(found, promotable, left)
        invariant Stored(clauses, database, garbage) && Logged() && Indexed()
        invariant Collected(found, old(database), Marked())
      {
        ProcessClause(left);
        left := left + 1;
      }
    }

    /** A pass, after which the garbage is flushed but for reasons. When no two clauses marked before subsume one
        another, skipping such pairs changes nothing. When promotion never fails, no two marked clauses subsume one
        another afterwards if and only if no marked reason was deleted. */
    method Run() returns (ghost found: seq<Item>, ghost store: Database)
      requires garbage == {}
      modifies this`clauses, this`log, this`database, this`garbage, this`subsumedCount, this`start, this`entries,
               this`slots
      modifies this`checkedRefs
      ensures Collected(found, old(database), old(Marked())) && Now() == Swept(found, promotable, |found|)
      ensures Stored(clauses, store, DeletedIn(log)) && database == Flushed(store, DeletedIn(log), reasons)
              && garbage == {}
      ensures checkedRefs == old(checkedRefs) + Standing(clauses) && LogTells(Now())
      ensures forall r :: r in database ==> r in old(database) && database[r].lits == old(database)[r].lits
      ensures forall r :: r in database <==> r in old(database) && (r !in DeletedIn(log) || r in reasons)
      ensures forall f: Formula :: Represents(f, old(database)) ==> Represents(f, database)
      ensures old(CheckedClean(database, Marked())) ==> Swept(Erased(found), promotable, |found|) == ErasedPass(Now())
      ensures old(CheckedClean(database, Marked())) && old(database.Keys) <= promotable ==>
                && (CheckedClean(database, checkedRefs) <==>
                    forall r :: r in DeletedIn(log) && r in database ==> r !in old(checkedRefs))
                && (CheckedClean(database, Standing(clauses)))
    {
      hide Stored, Collected, Process, CheckedClean, NoCheckedPair, Represents, Swept, Erased, ErasedPass, Flushed,
           Signed, AllPromotable;
      found := Sweep();
      MarkChecked();
      store := database;
      database := Flushed(database, garbage, reasons);
      garbage := {};
      StoredTells(Now(), store);
      PassOnlyDeletes(found, promotable, old(database), old(Marked()), store, DeletedIn(log), reasons);
      forall f: Formula | Represents(f, old(database)) ensures Represents(f, database) {
        PassKeepsFormula(f, found, promotable, old(database), old(Marked()), store, DeletedIn(log), reasons);
      }
      if old(CheckedClean(database, Marked())) {
        CleanMeansNoPair(found, old(database), old(Marked()));
        IncrementalIsFull(found, promotable, |found|);
        if old(database.Keys) <= promotable {
          CollectedPromotable(found, old(database), old(Marked()), promotable);
          CleanAfter(found, promotable, store, DeletedIn(log), reasons, old(checkedRefs));
          CleanAfter(found, promotable, store, DeletedIn(log), reasons, {});
          assert {} + Standing(clauses) == Standing(clauses);
        }
      }
    }

    /** Everything still standing has been checked against everything. */
    method MarkChecked()
      modifies this`checkedRefs
      ensures checkedRefs == old(checkedRefs) + Standing(clauses)
    {
      var i := 0;
      while i < |clauses|
        invariant 0 <= i <= |clauses| && checkedRefs == old(checkedRefs) + Standing(clauses[..i])
      {
        StandingMore(clauses, i);
        if clauses[i].active {
          checkedRefs := checkedRefs + {clauses[i].ref};
        }
        i := i + 1;
      }
      assert clauses[..|clauses|] == clauses;
    }

    method CheckStrengthens(candidate: Clause, pivot: Lit, target: Clause) returns (yes: bool)
      ensures yes <==> ResolvesToStrengthen(candidate, pivot, target)
    {
      var foundPivot := false;
      var i := 0;
      while i < |candidate|
        invariant 0 <= i <= |candidate| && (foundPivot <==> pivot in candidate[..i])
        invariant forall k :: 0 <= k < i ==> candidate[k] == pivot || candidate[k] in target
      {
        assert candidate[..i + 1] == candidate[..i] + [candidate[i]];
        if candidate[i] == pivot {
          foundPivot := true;
        } else if candidate[i] !in target {
          return false;
        }
        i := i + 1;
      }
      assert candidate[..|candidate|] == candidate;
      yes := foundPivot;
    }
  }

  /** Any number of passes outside a search, where no clause is a reason, with changes to the store in between: each
      does just what a pass over unmarked clauses does, and leaves no clause that another subsumes. */
  method RunPasses(s: ForwardSubsumer, count: nat, change: (Database, set<Ref>) -> Database)
      returns (ghost found: seq<Item>)
    requires s.garbage == {} && CheckedClean(s.database, s.Marked()) && s.database.Keys <= s.promotable
             && s.reasons == {}
    requires forall db: Database, checked: set<Ref> :: Evolved(db, change(db, checked), checked)
    modifies s`clauses, s`log, s`database, s`garbage, s`subsumedCount, s`start, s`entries, s`slots, s`checkedRefs
    modifies s`promotable, s`reasons
    ensures s.garbage == {} && CheckedClean(s.database, s.Marked())
    ensures count > 0 ==>
              && s.Now() == Swept(found, s.promotable, |found|) && CheckedClean(s.database, s.database.Keys)
              && Swept(Erased(found), s.promotable, |found|) == ErasedPass(s.Now())
  {
    hide Stored, Collected, CheckedClean, ErasedPass, Swept, Flushed, Evolved, DeletedIn;
    found := [];
    var i := 0;
    while i < count
      invariant 0 <= i <= count && s.garbage == {} && s.reasons == {} && s.database.Keys <= s.promotable
      invariant CheckedClean(s.database, s.Marked())
      invariant i > 0 ==>
                  && s.Now() == Swept(found, s.promotable, |found|) && CheckedClean(s.database, s.database.Keys)
                  && Swept(Erased(found), s.promotable, |found|) == ErasedPass(s.Now())
    {
      if i > 0 {
        var later := change(s.database, s.checkedRefs);
        CleanMore(s.database, s.checkedRefs);
        CleanStays(s.database, later, s.checkedRefs);
        s.Load(later, {});
        FewerMarked(s.database, s.checkedRefs, s.Marked());
      }
      ghost var store;
      found, store := s.Run();
      NoReasonsNoneKept(s.clauses, store, DeletedIn(s.log), s.database);
      CleanMore(s.database, s.Marked());
      i := i + 1;
    }
  }

  /** When no clause at all subsumes another, none that is marked does. */
  lemma CleanMore(db: Database, checked: set<Ref>)
    requires CheckedClean(db, db.Keys)
    ensures CheckedClean(db, checked)
  {
  }

  lemma FewerMarked(db: Database, checked: set<Ref>, fewer: set<Ref>)
    requires CheckedClean(db, checked) && fewer <= checked
    ensures CheckedClean(db, fewer)
  {
  }

  /** Without reasons the clauses left are those that stand. */
  lemma NoReasonsNoneKept(after: seq<Item>, store: Database, deleted: set<Ref>, later: Database)
    requires Stored(after, store, deleted) && later == Flushed(store, deleted, {})
    ensures later.Keys == Standing(after)
  {
    forall r | r in later ensures r in Standing(after) {
      var i :| 0 <= i < |after| && after[i].ref == r;
    }
  }

  lemma CollectedPromotable(items: seq<Item>, db: Database, checked: set<Ref>, promotable: set<Ref>)
    requires Collected(items, db, checked) && db.Keys <= promotable
    ensures AllPromotable(items, promotable) && Signed(items)
    ensures forall i :: 0 <= i < |items| ==> items[i].active
  {
  }

  lemma TestsAnother(items: seq<Item>, left: nat, c: nat)
    requires left < |items| && BackwardTest(items, left, c)
    ensures c < |items| && c != left
  {
  }

  lemma ForwardAnother(items: seq<Item>, left: nat, cands: seq<nat>, at: nat)
    requires left < |items| && at == FirstForward(items, left, cands, 0) && at < |cands|
    ensures cands[at] < |items| && cands[at] != left
  {
  }

  lemma EmptyOrNot(list: seq<nat>)
    ensures list == [] || list[0] in list
  {
  }

  lemma NoOccurrences(rows: seq<seq<nat>>, slots: nat, l: nat)
    requires RowsBelow(rows, slots) && l >= slots
    ensures Occurrences(rows, l) == []
  {
    OccurrencesAre(rows, l);
    assert forall r :: 0 <= r < |rows| ==> l !in rows[r];
    EmptyOrNot(Occurrences(rows, l));
  }

  function KindOf(db: Database, redundant: bool): set<Ref> {
    set r | r in db && db[r].redundant == redundant
  }

  lemma SignatureMore(c: Clause, k: nat)
    requires k < |c|
    ensures SignatureOf(c[..k + 1]) == SignatureOf(c[..k]) + {c[k] % 64}
  {
    assert c[..k + 1] == c[..k] + [c[k]];
    forall b | b in SignatureOf(c[..k + 1]) ensures b in SignatureOf(c[..k]) || b == c[k] % 64 {
      var l :| l in c[..k + 1] && l % 64 == b;
      assert l in c[..k] || l == c[k];
    }
    forall b | b in SignatureOf(c[..k]) ensures b in SignatureOf(c[..k + 1]) {
      var l :| l in c[..k] && l % 64 == b;
      assert l in c[..k + 1];
    }
    assert c[k] in c[..k + 1];
  }

  /** The clauses of `done` have been listed. */
  ghost predicate CollectedFrom(items: seq<Item>, db: Database, checked: set<Ref>, done: set<Ref>) {
    && (forall i :: 0 <= i < |items| ==>
          items[i].ref in db && items[i].ref in done
          && items[i] == Item(items[i].ref, db[items[i].ref].lits, SignatureOf(db[items[i].ref].lits), true,
                              db[items[i].ref].redundant, items[i].ref in checked))
    && (forall i, j :: 0 <= i < j < |items| ==> items[i].ref != items[j].ref)
    && (forall r :: r in done && r in db ==> exists i :: 0 <= i < |items| && items[i].ref == r)
  }

  lemma CollectNothing(db: Database, checked: set<Ref>)
    ensures CollectedFrom([], db, checked, {})
  {
  }

  lemma CollectOne(items: seq<Item>, db: Database, checked: set<Ref>, done: set<Ref>, ref: Ref)
    requires CollectedFrom(items, db, checked, done) && ref in db && ref !in done
    ensures CollectedFrom(items + [Item(ref, db[ref].lits, SignatureOf(db[ref].lits), true, db[ref].redundant,
                                        ref in checked)], db, checked, done + {ref})
  {
    var more := items + [Item(ref, db[ref].lits, SignatureOf(db[ref].lits), true, db[ref].redundant, ref in checked)];
    forall r | r in done + {ref} && r in db ensures exists i :: 0 <= i < |more| && more[i].ref == r {
      if r == ref {
        assert more[|items|].ref == r;
      } else {
        var i :| 0 <= i < |items| && items[i].ref == r;
        assert more[i].ref == r;
      }
    }
  }

  lemma CollectedAll(items: seq<Item>, db: Database, checked: set<Ref>, done: set<Ref>)
    requires CollectedFrom(items, db, checked, done) && db.Keys <= done
    ensures Collected(items, db, checked)
  {
  }
}
