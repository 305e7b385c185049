/** The local-search walk: tables kept up to date flip by flip, and the best assignment seen. */
module LocalSearches {
  import opened Logic
  import opened SearchState
  import opened CountingIndex
  import opened WalkState

  class LocalSearch {
    var variableCount: nat
    var maximumClauseSize: nat
    var clauses: seq<Clause>
    var start: seq<nat>
    var entries: seq<nat>

    var assignment: seq<bool>
    var trueCounts: seq<nat>
    var critical: seq<nat>
    var breaks: seq<nat>
    var unsatisfied: seq<nat>
    var positions: seq<int>

    var bestAssignment: seq<bool>
    // Below zero until a walk has run.
    var bestUnsatisfiedCount: int
    var flipCount: nat

    /** The true literals of every clause, as far as the tables have been updated. */
    ghost var sets: seq<set<Lit>>

    constructor ()
      ensures clauses == [] && bestUnsatisfiedCount == -1
    {
      variableCount, maximumClauseSize, clauses, start, entries := 0, 0, [], [], [];
      assignment, trueCounts, critical, breaks, unsatisfied, positions := [], [], [], [], [], [];
      bestAssignment, bestUnsatisfiedCount, flipCount, sets := [], -1, 0, [];
    }

    ghost function Now(): Tables
      reads this`trueCounts, this`critical, this`breaks, this`unsatisfied, this`positions
    {
      Tables(trueCounts, critical, breaks, unsatisfied, positions)
    }

    /** The formula of the walk and its occurrence lists. */
    ghost predicate Prepared()
      reads this`variableCount, this`clauses, this`start, this`entries
    {
      && (forall i :: 0 <= i < |clauses| ==> ClauseOk(variableCount, clauses[i]) && clauses[i] != [])
      && IndexOf(clauses, 2 * variableCount + 2, start, entries)
    }

    ghost predicate Sized()
      reads this`variableCount, this`clauses, this`trueCounts, this`critical, this`breaks, this`positions,
            this`assignment
    {
      && |trueCounts| == |critical| == |positions| == |clauses|
      && |breaks| == |assignment| == variableCount + 1
    }

    /** Every table agrees with recomputation from the assignment. */
    ghost predicate UpToDate()
      reads this`variableCount, this`clauses, this`trueCounts, this`critical, this`breaks, this`positions,
            this`assignment
      reads this`unsatisfied, this`sets
    {
      Sized() && sets == AllTrueLits(assignment, clauses) && Agree(sets, Now())
    }

    /** The recorded count is exact for the recorded assignment. */
    ghost predicate BestOk()
      reads this`variableCount, this`clauses, this`bestAssignment, this`bestUnsatisfiedCount
    {
      bestUnsatisfiedCount >= 0 ==>
        |bestAssignment| == variableCount + 1
        && bestUnsatisfiedCount == UnsatisfiedCount(bestAssignment, clauses, |clauses|)
    }

    // -------------------------------------------------------------------------------------------
    // Preparing
    // -------------------------------------------------------------------------------------------

    /** Copies the non-empty permanent clauses, each once, and builds the occurrence lists. There is nothing to walk
        over exactly when there is no variable or no such clause. */
    method Prepare(db: Database, n: nat) returns (ready: bool, ghost refs: seq<Ref>)
      requires forall r :: r in db && !db[r].redundant ==> ClauseOk(n, db[r].lits)
      modifies this`variableCount, this`maximumClauseSize, this`clauses, this`start, this`entries
      modifies this`assignment, this`trueCounts, this`critical, this`breaks, this`positions, this`bestAssignment,
               this`bestUnsatisfiedCount
      ensures BestOk() && bestUnsatisfiedCount == -1 && variableCount == n
      ensures ready ==> Prepared() && Sized()
      ensures ready <==> clauses != []
      ensures n == 0 ==> clauses == []
      ensures n > 0 ==> Copied(db, refs, clauses) && LongestOf(clauses, maximumClauseSize)
    {
      hide Copied, LongestOf, ClauseOk;
      variableCount, clauses, maximumClauseSize := n, [], 0;
      bestUnsatisfiedCount, bestAssignment := -1, [];
      refs := [];
      if n == 0 {
        return false, refs;
      }
      refs := CopyClauses(db);
      if clauses == [] {
        return false, refs;
      }
      RowsInRange(clauses, n);
      start, entries := BuildIndex(clauses, 2 * n + 2);
      SizeTables();
      ready := true;
    }

    method CopyClauses(db: Database) returns (ghost refs: seq<Ref>)
      requires clauses == [] && maximumClauseSize == 0
      requires forall r :: r in db && !db[r].redundant ==> ClauseOk(variableCount, db[r].lits)
      modifies this`clauses, this`maximumClauseSize
      ensures forall i :: 0 <= i < |clauses| ==> ClauseOk(variableCount, clauses[i]) && clauses[i] != []
      ensures Copied(db, refs, clauses) && LongestOf(clauses, maximumClauseSize)
    {
      var todo: set<Ref> := set r | r in db && !db[r].redundant;
      refs := [];
      while todo != {}
        invariant forall r :: r in todo ==> r in db && !db[r].redundant
        invariant forall i :: 0 <= i < |clauses| ==> ClauseOk(variableCount, clauses[i]) && clauses[i] != []
        invariant CopiedBut(db, todo, refs, clauses) && LongestOf(clauses, maximumClauseSize)
        decreases |todo|
      {
        var ref :| ref in todo;
        var lits := db[ref].lits;
        CopyOne(db, todo, refs, clauses, ref);
        if lits != [] {
          LongestMore(clauses, maximumClauseSize, lits);
          clauses := clauses + [lits];
          refs := refs + [ref];
          if |lits| > maximumClauseSize {
            maximumClauseSize := |lits|;
          }
        }
        todo := todo - {ref};
      }
    }

    method SizeTables()
      modifies this`assignment, this`trueCounts, this`critical, this`breaks, this`positions
      ensures Sized()
    {
      trueCounts := seq(|clauses|, _ => 0);
      critical := seq(|clauses|, _ => 0);
      positions := seq(|clauses|, _ => -1);
      breaks := seq(variableCount + 1, _ => 0);
      assignment := seq(variableCount + 1, _ => false);
    }

    // -------------------------------------------------------------------------------------------
    // Recomputing
    // -------------------------------------------------------------------------------------------

    /** Counts a clause's true literals and remembers the variable of the last one. */
    method CountTrue(c: Clause) returns (satisfied: nat, variable: nat)
      requires ClauseOk(variableCount, c) && |assignment| == variableCount + 1
      ensures satisfied == |TrueLits(assignment, c)|
      ensures satisfied == 1 ==> Critical(TrueLits(assignment, c), variable) && variable <= variableCount
    {
      satisfied, variable := 0, 0;
      DistinctOf(variableCount, c);
      var j := 0;
      while j < |c|
        invariant 0 <= j <= |c| && satisfied == |TrueLits(assignment, c[..j])|
        invariant satisfied >= 1 ==>
                    variable <= variableCount && exists l :: l in TrueLits(assignment, c[..j]) && Var(l) == variable
      {
        TrueLitsMore(assignment, c, j);
        var raw := c[j];
        if assignment[Var(raw)] != IsNegated(raw) {
          satisfied := satisfied + 1;
          variable := Var(raw);
        }
        j := j + 1;
      }
      assert c[..|c|] == c;
    }

    /** Computes every table from the assignment. */
    method RecomputeState()
      requires Prepared() && Sized()
      modifies this`trueCounts, this`critical, this`breaks, this`unsatisfied, this`positions, this`sets
      ensures UpToDate()
    {
      hide AgreeUpTo, Prepared;
      ResetTables();
      var k := 0;
      while k < |clauses|
        invariant 0 <= k <= |clauses| && Sized() && sets == AllTrueLits(assignment, clauses)
        invariant AgreeUpTo(sets, Now(), k)
      {
        RecomputeClause(k);
        k := k + 1;
      }
      AgreeAll(sets, Now());
    }

    /** Nothing counted yet. */
    method ResetTables()
      requires Prepared() && Sized()
      modifies this`breaks, this`unsatisfied, this`sets
      ensures Sized() && sets == AllTrueLits(assignment, clauses) && AgreeUpTo(sets, Now(), 0)
    {
      sets := AllTrueLits(assignment, clauses);
      unsatisfied := [];
      breaks := seq(|breaks|, _ => 0);
    }

    method RecomputeClause(k: nat)
      requires Prepared() && Sized() && sets == AllTrueLits(assignment, clauses) && k < |clauses|
               && AgreeUpTo(sets, Now(), k)
      modifies this`trueCounts, this`critical, this`breaks, this`unsatisfied, this`positions
      ensures Sized() && AgreeUpTo(sets, Now(), k + 1)
    {
      hide AgreeUpTo;
      var satisfied, variable := CountTrue(clauses[k]);
      CountedOk(sets, Now(), k, satisfied, variable);
      trueCounts := trueCounts[k := satisfied];
      critical := critical[k := variable];
      if satisfied == 1 {
        breaks := breaks[variable := breaks[variable] + 1];
      }
      if satisfied == 0 {
        positions := positions[k := |unsatisfied|];
        unsatisfied := unsatisfied + [k];
      } else {
        positions := positions[k := -1];
      }
    }

    // -------------------------------------------------------------------------------------------
    // Flipping
    // -------------------------------------------------------------------------------------------

    /** The first true literal of a clause that has exactly one. */
    method FindTrue(c: Clause) returns (l: Lit)
      requires ClauseOk(variableCount, c) && |assignment| == variableCount + 1 && |TrueLits(assignment, c)| == 1
      ensures TrueLits(assignment, c) == {l} && Var(l) <= variableCount
    {
      var m :| m in TrueLits(assignment, c);
      var index := 0;
      while index < |c| && !(assignment[Var(c[index])] != IsNegated(c[index]))
        invariant 0 <= index <= |c| && forall i :: 0 <= i < index ==> c[i] !in TrueLits(assignment, c)
      {
        index := index + 1;
      }
      assert index < |c|;
      l := c[index];
      Single(TrueLits(assignment, c), l, m);
      Only(TrueLits(assignment, c), l);
    }

    /** A clause loses a true literal. */
    method LoseLiteral(i: nat, losing: Lit)
      requires Sized() && Agree(sets, Now()) && |sets| == |clauses| && i < |clauses| && losing in sets[i]
      requires ClauseOk(variableCount, clauses[i]) && sets[i] - {losing} == TrueLits(assignment, clauses[i])
      requires Var(losing) <= variableCount
      modifies this`trueCounts, this`critical, this`breaks, this`unsatisfied, this`positions, this`sets
      ensures Sized() && Agree(sets, Now()) && sets == old(sets)[i := old(sets)[i] - {losing}]
    {
      hide Agree;
      CountIs(sets, Now(), i);
      assert |sets[i] - {losing}| == |sets[i]| - 1;
      var remaining := trueCounts[i] - 1;
      if remaining == 0 {
        assert sets[i] == {losing} by { Only(sets[i], losing); }
        LoseLast(sets, Now(), i, losing);
        sets := sets[i := {}];
        trueCounts := trueCounts[i := remaining];
        positions := positions[i := |unsatisfied|];
        unsatisfied := unsatisfied + [i];
        breaks := breaks[Var(losing) := breaks[Var(losing)] - 1];
      } else if remaining == 1 {
        var m := FindTrue(clauses[i]);
        LoseToOne(sets, Now(), i, losing, m);
        sets := sets[i := {m}];
        trueCounts := trueCounts[i := remaining];
        critical := critical[i := Var(m)];
        breaks := breaks[critical[i] := breaks[critical[i]] + 1];
      } else {
        LoseOne(sets, Now(), i, losing);
        sets := sets[i := sets[i] - {losing}];
        trueCounts := trueCounts[i := remaining];
      }
    }

    /** A clause gains a true literal. */
    method GainLiteral(i: nat, gaining: Lit)
      requires Sized() && Agree(sets, Now()) && |sets| == |clauses| && i < |clauses| && gaining !in sets[i]
      requires Var(gaining) <= variableCount && forall l :: l in sets[i] ==> Var(l) <= variableCount
      modifies this`trueCounts, this`critical, this`breaks, this`unsatisfied, this`positions, this`sets
      ensures Sized() && Agree(sets, Now()) && sets == old(sets)[i := old(sets)[i] + {gaining}]
    {
      hide Agree;
      CountIs(sets, Now(), i);
      var previous := trueCounts[i];
      if previous == 0 {
        assert sets[i] == {};
        assert {} + {gaining} == {gaining};
        GainFirst(sets, Now(), i, gaining);
        sets := sets[i := {gaining}];
        trueCounts := trueCounts[i := previous + 1];
        LeaveUnsatisfied(i);
        critical := critical[i := Var(gaining)];
        breaks := breaks[Var(gaining) := breaks[Var(gaining)] + 1];
      } else if previous == 1 {
        GainSecond(sets, Now(), i, gaining);
        sets := sets[i := sets[i] + {gaining}];
        trueCounts := trueCounts[i := previous + 1];
        breaks := breaks[critical[i] := breaks[critical[i]] - 1];
      } else {
        GainMore(sets, Now(), i, gaining);
        sets := sets[i := sets[i] + {gaining}];
        trueCounts := trueCounts[i := previous + 1];
      }
    }

    /** Takes a clause off the list of unsatisfied ones; the last one takes its place. */
    method LeaveUnsatisfied(i: nat)
      requires i < |positions| && 0 <= positions[i] < |unsatisfied| && unsatisfied[|unsatisfied| - 1] < |positions|
      modifies this`unsatisfied, this`positions
      ensures unsatisfied == old(Replaced(unsatisfied, positions[i]))
      ensures positions == old(positions[unsatisfied[|unsatisfied| - 1] := positions[i]][i := -1])
    {
      var slot := positions[i];
      var moved := unsatisfied[|unsatisfied| - 1];
      unsatisfied := unsatisfied[slot := moved];
      positions := positions[moved := slot];
      unsatisfied := unsatisfied[..|unsatisfied| - 1];
      positions := positions[i := -1];
    }

    /** The clauses a literal occurs in. */
    method OccurrencesOf(l: Lit) returns (list: seq<nat>)
      requires Prepared() && l < 2 * variableCount + 2
      ensures list == Occurrences(clauses, l)
    {
      assert ListIs(clauses, start, entries, l);
      list := entries[start[l]..start[l + 1]];
    }

    /** Flips a variable and brings every table up to date. */
    method FlipVariable(v: nat)
      requires Prepared() && UpToDate() && v <= variableCount
      modifies this`assignment, this`trueCounts, this`critical, this`breaks, this`unsatisfied, this`positions, this`sets
      ensures UpToDate() && assignment == Flipped(old(assignment), v)
    {
      hide Agree, IndexOf;
      ghost var before := assignment;
      var losing := Losing(assignment, v);
      var gaining := Neg(losing);
      assignment := assignment[v := !assignment[v]];
      LoseAll(before, v, losing);
      GainAll(before, v, losing, gaining);
      FlippedAll(before, variableCount, clauses, v);
    }

    method LoseAll(ghost before: seq<bool>, v: nat, losing: Lit)
      requires Prepared() && Sized() && v <= variableCount && |before| == variableCount + 1
               && assignment == Flipped(before, v)
      requires losing == Losing(before, v) && sets == AllTrueLits(before, clauses) && Agree(sets, Now())
      modifies this`trueCounts, this`critical, this`breaks, this`unsatisfied, this`positions, this`sets
      ensures Sized() && Agree(sets, Now())
              && sets == Lost(AllTrueLits(before, clauses), Occurrences(clauses, losing), losing)
    {
      hide Agree, IndexOf, AllTrueLits;
      var list := OccurrencesOf(losing);
      ghost var sets0 := sets;
      OccurrencesAre(clauses, losing);
      DistinctRows(clauses, variableCount);
      OccursStrictly(clauses, losing, |clauses|, 0);
      LostNothing(sets0, losing);
      var k := 0;
      while k < |list|
        invariant 0 <= k <= |list| && Sized() && Agree(sets, Now()) && sets == Lost(sets0, list[..k], losing)
      {
        var i := list[k];
        assert i in list;
        LostNext(sets0, list, k, losing);
        LosesIt(before, clauses, variableCount, v, i);
        LoseLiteral(i, losing);
        k := k + 1;
      }
      assert list[..|list|] == list;
    }

    method GainAll(ghost before: seq<bool>, v: nat, ghost losing: Lit, gaining: Lit)
      requires Prepared() && Sized() && v <= variableCount && |before| == variableCount + 1
               && assignment == Flipped(before, v)
      requires losing == Losing(before, v) && gaining == Neg(losing) && Agree(sets, Now())
      requires sets == Lost(AllTrueLits(before, clauses), Occurrences(clauses, losing), losing)
      modifies this`trueCounts, this`critical, this`breaks, this`unsatisfied, this`positions, this`sets
      ensures Sized() && Agree(sets, Now())
      ensures sets == Gained(Lost(AllTrueLits(before, clauses), Occurrences(clauses, losing), losing),
                             Occurrences(clauses, gaining), gaining)
    {
      hide Agree, IndexOf, AllTrueLits;
      var list := OccurrencesOf(gaining);
      ghost var sets0 := sets;
      OccurrencesAre(clauses, gaining);
      DistinctRows(clauses, variableCount);
      OccursStrictly(clauses, gaining, |clauses|, 0);
      GainedNothing(sets0, gaining);
      var k := 0;
      while k < |list|
        invariant 0 <= k <= |list| && Sized() && Agree(sets, Now()) && sets == Gained(sets0, list[..k], gaining)
      {
        var i := list[k];
        assert i in list;
        GainedNext(sets0, list, k, gaining);
        GainsIt(before, clauses, variableCount, v, i);
        GainLiteral(i, gaining);
        k := k + 1;
      }
      assert list[..|list|] == list;
    }

    // -------------------------------------------------------------------------------------------
    // Walking
    // -------------------------------------------------------------------------------------------

    /** Starts from the given polarities; a variable without one gets any. */
    method InitializeAssignment(initialPhase: seq<bool>)
      requires |assignment| == variableCount + 1
      modifies this`assignment
      ensures |assignment| == variableCount + 1
      ensures StartsFrom(assignment, initialPhase)
    {
      var v := 1;
      while v <= variableCount
        invariant 1 <= v <= variableCount + 1 && |assignment| == variableCount + 1
        invariant forall u :: 1 <= u < v && u < |initialPhase| ==> assignment[u] == initialPhase[u]
      {
        var random: bool := *;
        assignment := assignment[v := if v < |initialPhase| then initialPhase[v] else random];
        v := v + 1;
      }
    }

    /** Records the current assignment when it is better than any before. */
    method RecordIfBetter()
      requires Prepared() && UpToDate() && BestOk()
      modifies this`bestAssignment, this`bestUnsatisfiedCount
      ensures BestOk() && |unsatisfied| == UnsatisfiedCount(assignment, clauses, |clauses|)
      ensures bestUnsatisfiedCount == if old(bestUnsatisfiedCount) < 0 || |unsatisfied| < old(bestUnsatisfiedCount)
              then |unsatisfied| else old(bestUnsatisfiedCount)
      ensures bestAssignment == if old(bestUnsatisfiedCount) < 0 || |unsatisfied| < old(bestUnsatisfiedCount)
              then assignment else old(bestAssignment)
    {
      ListLength(assignment, clauses, Now());
      if bestUnsatisfiedCount < 0 || |unsatisfied| < bestUnsatisfiedCount {
        bestAssignment := assignment;
        bestUnsatisfiedCount := |unsatisfied|;
      }
    }

    /** Some variable of an unsatisfied clause, whatever rule picks it. */
    method SelectVariable() returns (v: nat)
      requires Prepared() && UpToDate() && unsatisfied != []
      ensures v <= variableCount
      ensures Unhappy(clauses, assignment, v)
    {
      assert unsatisfied[0] in unsatisfied;
      var i :| i in unsatisfied;
      ListedIsUnsatisfied(assignment, clauses, Now(), i);
      var c := clauses[i];
      assert c[0] in c;
      var l :| l in c;
      v := Var(l);
    }

    /** One walk. It starts from the given polarities, flips variables of unsatisfied clauses until there is none or the
        budget is used up, and says which; the best assignment seen is kept across walks. */
    method Walk(maxFlips: nat, initialPhase: seq<bool>) returns (solved: bool, ghost path: seq<seq<bool>>)
      requires clauses != [] ==> Prepared() && Sized()
      requires BestOk()
      modifies this`assignment, this`trueCounts, this`critical, this`breaks, this`unsatisfied, this`positions, this`sets
      modifies this`bestAssignment, this`bestUnsatisfiedCount, this`flipCount
      ensures BestOk()
      ensures clauses == [] ==> !solved && flipCount == old(flipCount) && bestAssignment == old(bestAssignment)
                                && bestUnsatisfiedCount == old(bestUnsatisfiedCount)
      ensures clauses != [] ==>
                && UpToDate() && Walked(path, maxFlips, solved) && StartsFrom(path[0], initialPhase)
                && flipCount == old(flipCount) + |path| - 1
                && IsRecord(clauses, path, old(bestUnsatisfiedCount), bestUnsatisfiedCount)
                && (old(bestUnsatisfiedCount) != 0 ==> (solved <==> bestUnsatisfiedCount == 0))
      ensures solved ==> forall i :: 0 <= i < |clauses| ==> Satisfies(AsAssignment(bestAssignment), clauses[i])
    {
      hide Agree, IndexOf, AllTrueLits, Satisfies, IsWalk, IsRecord, UnsatisfiedCount, StartsFrom, ClauseOk;
      path := [];
      if clauses == [] {
        return false, path;
      }
      InitializeAssignment(initialPhase);
      RecomputeState();
      RecordIfBetter();
      WalkStarts(clauses, assignment, old(bestUnsatisfiedCount));
      solved, path := WalkOn(maxFlips, old(bestUnsatisfiedCount));
      if old(bestUnsatisfiedCount) != 0 {
        RecordDropsToZero(clauses, path, old(bestUnsatisfiedCount), bestUnsatisfiedCount);
      }
    }

    /** The walk has led to the assignment: it stopped early exactly because nothing is unsatisfied. */
    ghost predicate Walked(path: seq<seq<bool>>, maxFlips: nat, solved: bool)
      reads this`clauses, this`assignment, this`unsatisfied
    {
      && IsWalk(clauses, path) && assignment == path[|path| - 1]
      && |path| - 1 <= maxFlips && (!solved ==> |path| - 1 == maxFlips)
      && (solved <==> unsatisfied == []) && (solved <==> UnsatisfiedCount(assignment, clauses, |clauses|) == 0)
    }

    /** Flips until nothing is unsatisfied or the budget is used up. */
    method WalkOn(maxFlips: nat, ghost before: int) returns (solved: bool, ghost path: seq<seq<bool>>)
      requires Prepared() && UpToDate() && BestOk()
      requires IsRecord(clauses, [assignment], before, bestUnsatisfiedCount) && bestUnsatisfiedCount >= 0
      modifies this`assignment, this`trueCounts, this`critical, this`breaks, this`unsatisfied, this`positions, this`sets
      modifies this`bestAssignment, this`bestUnsatisfiedCount, this`flipCount
      ensures UpToDate() && BestOk() && Walked(path, maxFlips, solved) && path[0] == old(assignment)
      ensures flipCount == old(flipCount) + |path| - 1
      ensures IsRecord(clauses, path, before, bestUnsatisfiedCount)
      ensures solved ==> bestUnsatisfiedCount == 0
      ensures solved ==> forall i :: 0 <= i < |clauses| ==> Satisfies(AsAssignment(bestAssignment), clauses[i])
    {
      hide Agree, IndexOf, AllTrueLits, Satisfies, IsWalk, IsRecord, IsFlip, UnsatisfiedCount, Unhappy, Flipped;
      var flips := 0;
      path := [assignment];
      WalkStarts(clauses, assignment, -1);
      while unsatisfied != [] && flips < maxFlips
        decreases maxFlips - flips
        invariant Prepared() && UpToDate() && BestOk() && 0 <= bestUnsatisfiedCount && flips <= maxFlips
        invariant flipCount == old(flipCount)
        invariant |path| == flips + 1 && path[0] == old(assignment) && path[flips] == assignment
        invariant IsWalk(clauses, path) && IsRecord(clauses, path, before, bestUnsatisfiedCount)
      {
        ListLength(assignment, clauses, Now());
        ghost var last := assignment;
        var flipped := SelectVariable();
        FlipVariable(flipped);
        OneFlip(clauses, last, assignment, flipped);
        flips := flips + 1;
        WalkGoesOn(clauses, path, assignment);
        RecordGoesOn(clauses, path, assignment, before, bestUnsatisfiedCount);
        RecordIfBetter();
        path := path + [assignment];
      }
      ListLength(assignment, clauses, Now());
      flipCount := flipCount + flips;
      solved := unsatisfied == [];
      if solved {
        RecordAtMost(clauses, path, before, bestUnsatisfiedCount, flips);
        LiteralsInRange(clauses, variableCount);
        NoneUnsatisfied(bestAssignment, clauses, |clauses|);
      }
    }
  }

  // ---------------------------------------------------------------------------------------------
  // Facts about the clauses and their occurrences
  // ---------------------------------------------------------------------------------------------

  /** The clauses are the non-empty permanent ones of the store, each once. */
  ghost predicate Copied(db: Database, refs: seq<Ref>, clauses: seq<Clause>) {
    CopiedBut(db, {}, refs, clauses)
  }

  ghost predicate CopiedBut(db: Database, todo: set<Ref>, refs: seq<Ref>, clauses: seq<Clause>) {
    && |refs| == |clauses| && (forall i, j :: 0 <= i < j < |refs| ==> refs[i] != refs[j])
    && (forall i :: 0 <= i < |refs| ==> refs[i] in db && clauses[i] == db[refs[i]].lits)
    && (forall r :: r in refs <==> r in db && r !in todo && !db[r].redundant && db[r].lits != [])
  }

  lemma CopyOne(db: Database, todo: set<Ref>, refs: seq<Ref>, clauses: seq<Clause>, r: Ref)
    requires CopiedBut(db, todo, refs, clauses) && r in todo && r in db && !db[r].redundant
    ensures db[r].lits != [] ==> CopiedBut(db, todo - {r}, refs + [r], clauses + [db[r].lits])
    ensures db[r].lits == [] ==> CopiedBut(db, todo - {r}, refs, clauses)
  {
    assert forall q :: q in refs + [r] <==> q in refs || q == r;
  }

  ghost predicate LongestOf(clauses: seq<Clause>, size: nat) {
    && (forall i :: 0 <= i < |clauses| ==> |clauses[i]| <= size)
    && (size == 0 || exists i :: 0 <= i < |clauses| && |clauses[i]| == size)
  }

  lemma LongestMore(clauses: seq<Clause>, size: nat, c: Clause)
    requires LongestOf(clauses, size)
    ensures LongestOf(clauses + [c], if |c| > size then |c| else size)
  {
    var more := clauses + [c];
    assert more[|clauses|] == c;
    if |c| <= size && size > 0 {
      var i :| 0 <= i < |clauses| && |clauses[i]| == size;
      assert more[i] == clauses[i];
    }
  }

  lemma CountIs(sets: seq<set<Lit>>, t: Tables, i: nat)
    requires Agree(sets, t) && i < |sets|
    ensures i < |t.trueCounts| && t.trueCounts[i] == |sets[i]|
    ensures i < |t.critical| && (|sets[i]| == 1 ==> Critical(sets[i], t.critical[i]))
  {
  }

  lemma Only(s: set<Lit>, l: Lit)
    requires l in s && |s| == 1
    ensures s == {l}
  {
    assert |s - {l}| == 0;
    assert s == (s - {l}) + {l};
  }

  lemma DistinctOf(n: nat, c: Clause)
    requires ClauseOk(n, c)
    ensures forall i, j :: 0 <= i < j < |c| ==> c[i] != c[j]
  {
    forall i, j | 0 <= i < j < |c| ensures c[i] != c[j] {
      assert Var(c[i]) != Var(c[j]);
    }
  }

  lemma RowsInRange(clauses: seq<Clause>, n: nat)
    requires forall i :: 0 <= i < |clauses| ==> ClauseOk(n, clauses[i])
    ensures RowsBelow(clauses, 2 * n + 2)
  {
    forall k, i | 0 <= k < |clauses| && 0 <= i < |clauses[k]| ensures clauses[k][i] < 2 * n + 2 {
      assert ValidLit(n, clauses[k][i]);
    }
  }

  lemma LiteralsInRange(clauses: seq<Clause>, n: nat)
    requires forall i :: 0 <= i < |clauses| ==> ClauseOk(n, clauses[i])
    ensures forall i, l :: 0 <= i < |clauses| && l in clauses[i] ==> Var(l) < n + 1
  {
    forall i, l | 0 <= i < |clauses| && l in clauses[i] ensures Var(l) < n + 1 {
      var k :| 0 <= k < |clauses[i]| && clauses[i][k] == l;
      assert ValidLit(n, clauses[i][k]);
    }
  }

  lemma DistinctRows(clauses: seq<Clause>, n: nat)
    requires forall i :: 0 <= i < |clauses| ==> ClauseOk(n, clauses[i])
    ensures forall r, a, b :: 0 <= r < |clauses| && 0 <= a < b < |clauses[r]| ==> clauses[r][a] != clauses[r][b]
  {
    forall r, a, b | 0 <= r < |clauses| && 0 <= a < b < |clauses[r]| ensures clauses[r][a] != clauses[r][b] {
      DistinctOf(n, clauses[r]);
    }
  }

  /** The sets with one literal taken from the listed clauses. */
  ghost function Lost(sets: seq<set<Lit>>, list: seq<nat>, l: Lit): (after: seq<set<Lit>>)
    ensures |after| == |sets|
  {
    seq(|sets|, i requires 0 <= i < |sets| => if i in list then sets[i] - {l} else sets[i])
  }

  ghost function Gained(sets: seq<set<Lit>>, list: seq<nat>, l: Lit): (after: seq<set<Lit>>)
    ensures |after| == |sets|
  {
    seq(|sets|, i requires 0 <= i < |sets| => if i in list then sets[i] + {l} else sets[i])
  }

  lemma LostNothing(sets: seq<set<Lit>>, l: Lit)
    ensures Lost(sets, [], l) == sets
  {
  }

  lemma GainedNothing(sets: seq<set<Lit>>, l: Lit)
    ensures Gained(sets, [], l) == sets
  {
  }

  lemma LostNext(sets: seq<set<Lit>>, list: seq<nat>, k: nat, l: Lit)
    requires k < |list| && list[k] < |sets| && forall a, b :: 0 <= a < b < |list| ==> list[a] < list[b]
    ensures Lost(sets, list[..k], l)[list[k]] == sets[list[k]]
    ensures Lost(sets, list[..k + 1], l) == Lost(sets, list[..k], l)[list[k] := sets[list[k]] - {l}]
  {
    assert list[..k + 1] == list[..k] + [list[k]];
    assert list[k] !in list[..k];
  }

  lemma GainedNext(sets: seq<set<Lit>>, list: seq<nat>, k: nat, l: Lit)
    requires k < |list| && list[k] < |sets| && forall a, b :: 0 <= a < b < |list| ==> list[a] < list[b]
    ensures Gained(sets, list[..k], l)[list[k]] == sets[list[k]]
    ensures Gained(sets, list[..k + 1], l) == Gained(sets, list[..k], l)[list[k] := sets[list[k]] + {l}]
  {
    assert list[..k + 1] == list[..k] + [list[k]];
    assert list[k] !in list[..k];
  }

  /** A clause with the losing literal had it true, and keeps its other true literals. */
  lemma LosesIt(before: seq<bool>, clauses: seq<Clause>, n: nat, v: nat, i: nat)
    requires i < |clauses| && ClauseOk(n, clauses[i]) && v < |before| && Losing(before, v) in clauses[i]
    ensures var l := Losing(before, v);
            && l in AllTrueLits(before, clauses)[i]
            && AllTrueLits(before, clauses)[i] - {l} == TrueLits(Flipped(before, v), clauses[i])
  {
    FlippedLits(before, v, clauses[i]);
  }

  /** A clause with the gaining literal had it false and does not hold the losing one. */
  lemma GainsIt(before: seq<bool>, clauses: seq<Clause>, n: nat, v: nat, i: nat)
    requires i < |clauses| && ClauseOk(n, clauses[i]) && v < |before| && Neg(Losing(before, v)) in clauses[i]
    ensures var l := Losing(before, v);
            var s := Lost(AllTrueLits(before, clauses), Occurrences(clauses, l), l)[i];
            Neg(l) !in s && forall m :: m in s ==> Var(m) <= n
  {
    FlippedLits(before, v, clauses[i]);
    forall m | m in TrueLits(before, clauses[i]) ensures Var(m) <= n {
      var k :| 0 <= k < |clauses[i]| && clauses[i][k] == m;
      assert ValidLit(n, clauses[i][k]);
    }
  }

  /** After both passes the sets are those of the flipped assignment. */
  lemma FlippedAll(before: seq<bool>, n: nat, clauses: seq<Clause>, v: nat)
    requires v < |before| && forall i :: 0 <= i < |clauses| ==> ClauseOk(n, clauses[i])
    ensures var l := Losing(before, v);
            Gained(Lost(AllTrueLits(before, clauses), Occurrences(clauses, l), l), Occurrences(clauses, Neg(l)), Neg(l))
            == AllTrueLits(Flipped(before, v), clauses)
  {
    var l := Losing(before, v);
    OccurrencesAre(clauses, l);
    OccurrencesAre(clauses, Neg(l));
    var after := Gained(Lost(AllTrueLits(before, clauses), Occurrences(clauses, l), l), Occurrences(clauses, Neg(l)),
                        Neg(l));
    forall i | 0 <= i < |clauses| ensures after[i] == AllTrueLits(Flipped(before, v), clauses)[i] {
      FlippedLits(before, v, clauses[i]);
      assert l !in clauses[i] ==> TrueLits(before, clauses[i]) - {l} == TrueLits(before, clauses[i]);
    }
  }
}
