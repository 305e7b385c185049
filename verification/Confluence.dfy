/** Unit propagation is confluent: what it assigns, and whether it ends in a conflict, does not depend on its order. */
module Confluence {
  import opened Logic
  import opened SearchState
  import opened Watching
  import opened Visiting
  import opened Answers
  import opened SearchLoop

  /** Nothing is left to propagate. */
  ghost predicate Quiet(s: State) {
    WatchInvariant(s) && s.propagated == |s.trail|
  }

  /** And every unit clause is true. */
  ghost predicate AtRest(s: State) {
    Quiet(s) && UnitsTrue(s)
  }

  ghost predicate HasConflict(s: State) {
    exists q: Ref :: ConflictFound(s, q)
  }

  /** The trail goes on from `base` with propagated literals only. */
  ghost predicate PropagatedFrom(s: State, base: seq<Lit>) {
    && |base| <= |s.trail| && s.trail[..|base|] == base
    && forall i :: |base| <= i < |s.trail| ==> ReasonOf(s, s.trail[i]).Because?
  }

  /** Two states that propagation has led to from the same trail over the same clauses. */
  ghost predicate Siblings(s: State, t: State, base: seq<Lit>) {
    && SearchOk(s) && SearchOk(t) && s.n == t.n && SameClauses(s.db, t.db)
    && PropagatedFrom(s, base) && PropagatedFrom(t, base)
  }

  /** A clause with all literals but one false is true at a fixpoint. */
  lemma UnitIsTrue(s: State, r: Ref, l: Lit)
    requires SearchOk(s) && Quiet(s) && UnitsTrue(s) && r in s.db
    requires forall m :: m in s.db[r].lits && m != l ==> Value(s, m) == -1
    ensures l in s.db[r].lits && Value(s, l) == 1
  {
    var c := s.db[r].lits;
    SearchParts(s);
    assert ClauseOk(s.n, c);
    hide SearchOk, WatchInvariant, Value;
    if |c| >= 2 {
      Fixpoint(s, r);
      OnlyOneLeft(s, c, l);
    } else {
      assert UnitTrue(s, r);
      assert c[0] in c;
    }
  }

  lemma OnlyOneLeft(s: State, c: Clause, l: Lit)
    requires SatisfiedOrOpen(s, c) && ClauseOk(s.n, c) && forall m :: m in c && m != l ==> Value(s, m) == -1
    ensures l in c && Value(s, l) == 1
  {
    hide Value;
    assert forall i :: 0 <= i < |c| ==> c[i] == l || Value(s, c[i]) == -1;
  }

  /** Whatever one order of propagation assigns, a fixpoint reached in another makes true. */
  lemma {:induction false} Reached(s: State, t: State, base: seq<Lit>, i: nat)
    requires Siblings(s, t, base) && Quiet(s) && UnitsTrue(s) && i < |t.trail|
    ensures Value(s, t.trail[i]) == 1
    decreases i, 1
  {
    if i < |base| {
      assert s.trail[..|base|][i] == t.trail[..|base|][i];
      TrailEntry(s, i);
    } else {
      var l := t.trail[i];
      var r := ReasonOf(t, l).ref;
      PropagatedBy(t, base, i);
      assert r in s.db && multiset(s.db[r].lits) == multiset(t.db[r].lits);
      SameMembers(s.db[r].lits, t.db[r].lits);
      hide SearchOk, Value, Level, Position, WatchInvariant, UnitsTrue;
      forall m | m in s.db[r].lits && m != l ensures Value(s, m) == -1 {
        ReachedFalse(s, t, base, m, i);
      }
      UnitIsTrue(s, r, l);
    }
  }

  lemma PropagatedBy(t: State, base: seq<Lit>, i: nat)
    requires SearchOk(t) && PropagatedFrom(t, base) && |base| <= i < |t.trail|
    ensures ReasonOf(t, t.trail[i]).Because? && ReasonOf(t, t.trail[i]).ref in t.db
    ensures Forces(t, t.db[ReasonOf(t, t.trail[i]).ref].lits, t.trail[i], i)
  {
    assert ReasonAt(t, i);
  }

  lemma {:induction false} ReachedFalse(s: State, t: State, base: seq<Lit>, m: Lit, i: nat)
    requires Siblings(s, t, base) && Quiet(s) && UnitsTrue(s) && i <= |t.trail|
    requires Value(t, m) == -1 && Position(t, m) < i
    ensures Value(s, m) == -1
    decreases i, 0
  {
    var j := Position(t, m);
    Assigned(t, m);
    Reached(s, t, base, j);
    TrailEntry(t, j);
    SameVar(t.trail[j], m);
    Assigned(s, t.trail[j]);
    Assigned(s, m);
  }

  /** A fixpoint reached in one order rules out a conflict in any other. */
  lemma ConflictEveryTime(s: State, t: State, base: seq<Lit>)
    requires Siblings(s, t, base) && UnitsTrue(s)
    ensures !(Quiet(s) && HasConflict(t))
  {
    if Quiet(s) && HasConflict(t) {
      var q: Ref :| ConflictFound(t, q);
      SameMembers(s.db[q].lits, t.db[q].lits);
      forall m | m in s.db[q].lits ensures Value(s, m) == -1 {
        Assigned(t, m);
        ReachedFalse(s, t, base, m, |t.trail|);
      }
      UnitIsTrue(s, q, NO_LITERAL);
    }
  }

  /** Two fixpoints agree on every literal. */
  lemma FixpointsAgree(s: State, t: State, base: seq<Lit>, l: Lit)
    requires Siblings(s, t, base) && UnitsTrue(s) && UnitsTrue(t) && Quiet(s) && Quiet(t)
    ensures Value(s, l) == Value(t, l)
  {
    if Value(t, l) != 0 {
      ValueReached(s, t, base, l);
    } else if Value(s, l) != 0 {
      ValueReached(t, s, base, l);
    }
  }

  lemma ValueReached(s: State, t: State, base: seq<Lit>, l: Lit)
    requires Siblings(s, t, base) && Quiet(s) && UnitsTrue(s) && Value(t, l) != 0
    ensures Value(s, l) == Value(t, l)
  {
    var j := Position(t, l);
    Assigned(t, l);
    Reached(s, t, base, j);
    TrailEntry(t, j);
    SameVar(t.trail[j], l);
    Assigned(s, t.trail[j]);
    Assigned(s, l);
  }
}
