/** What holds at every step of the search loop, and the steps that keep it. */
module SearchLoop {
  import opened Logic
  import opened SearchState
  import opened Watching
  import opened Implication
  import opened Visiting
  import opened Causes
  import opened Analysis
  import opened Learning
  import opened Answers
  import opened Ranking
  import opened Attaching
  import opened ProofChain
  import opened ProofLog

  ghost predicate Prepared(f: Formula, s: State, x: Scratch, units: seq<Ref>) {
    SearchOk(s) && Represents(f, s.db) && Clean(s, x) && UnitsListed(s.db, units)
  }

  datatype Status = Sat | Unsat | Unknown

  /** The state of a run, watch soundness aside: every unit clause is true. */
  ghost predicate Running(f: Formula, s: State, x: Scratch, units: seq<Ref>, assumptions: seq<Lit>) {
    && Prepared(f, s, x, units) && AssumptionsOk(s, assumptions) && Opened(s, |assumptions|)
    && UnitsTrue(s)
  }

  lemma RunningParts(f: Formula, s: State, x: Scratch, units: seq<Ref>, assumptions: seq<Lit>)
    requires Running(f, s, x, units, assumptions)
    ensures SearchOk(s) && Represents(f, s.db) && DatabaseEntailed(f, s.db) && Clean(s, x)
    ensures s.level <= |assumptions| + s.n && |x.frames| == |s.control| == s.level + 1
    ensures |s.values| == |s.watches| == 2 * s.n + 2
  {
    LevelsBounded(s, |assumptions|);
  }

  lemma RunningScratch(f: Formula, s: State, x: Scratch, units: seq<Ref>, assumptions: seq<Lit>, y: Scratch)
    requires Running(f, s, x, units, assumptions) && Clean(s, y)
    ensures Running(f, s, y, units, assumptions)
  {
  }

  /** Propagation. */
  lemma RunningProgress(f: Formula, s: State, t: State, x: Scratch, units: seq<Ref>, assumptions: seq<Lit>)
    requires Running(f, s, x, units, assumptions) && Progress(s, t) && SearchOk(t)
    ensures Running(f, t, x, units, assumptions)
    ensures s.level < |assumptions| + s.n + 1
    ensures RankFrom(t, 0, |assumptions| + s.n + 1) >= RankFrom(s, 0, |assumptions| + s.n + 1)
  {
    hide SearchOk, Represents, SameClauses, UnitsListed, UnitsTrue, AssumptionsOk, Opened, RankFrom;
    RunningParts(f, s, x, units, assumptions);
    RankAfterProgress(s, t, |assumptions| + s.n + 1);
    assert Clean(t, x);
    SameClausesRepresent(f, s.db, t.db);
    ListedInOrder(s.db, t.db, units);
    AssumptionsExtend(s, t, assumptions);
    OpenedStays(s, t, |assumptions|);
    UnitsStayTrue(s, t);
  }

  lemma ListedInOrder(db: Database, later: Database, units: seq<Ref>)
    requires SameClauses(db, later) && UnitsListed(db, units)
    ensures UnitsListed(later, units)
  {
    forall r | r in later ensures |later[r].lits| == |db[r].lits| {
      SameMembers(db[r].lits, later[r].lits);
    }
  }

  lemma OpenedStays(s: State, t: State, assumptionCount: nat)
    requires Opened(s, assumptionCount) && t.control == s.control && t.level == s.level
    requires |s.trail| <= |t.trail| && t.trail[..|s.trail|] == s.trail
    ensures Opened(t, assumptionCount)
  {
    forall k: nat | assumptionCount < k <= t.level ensures LevelOpens(t, k) {
      assert LevelOpens(s, k);
    }
  }

  /** The scratch tables with the level frames above `target` gone. */
  function CutFrames(x: Scratch, target: nat): Scratch {
    if target + 1 <= |x.frames| then x.(frames := x.frames[..target + 1]) else x
  }

  /** Backtracking. */
  lemma RunningBacktrack(f: Formula, s: State, x: Scratch, units: seq<Ref>, assumptions: seq<Lit>, target: nat)
    requires Running(f, s, x, units, assumptions) && target < s.level
    ensures target + 1 < |s.control| && s.control[target + 1].trailBegin <= |s.trail|
    ensures Running(f, BacktrackStep(s, target), CutFrames(x, target), units, assumptions)
    ensures BacktrackStep(s, target).db == s.db && BacktrackStep(s, target).watches == s.watches
  {
    BacktrackTables(s, target);
    BacktrackKeeps(s, target);
    AssumptionsBacktrack(s, target, assumptions);
    UnitsSurviveBacktrack(s, target);
    var t := BacktrackStep(s, target);
    hide BacktrackStep;
    forall k: nat | |assumptions| < k <= t.level ensures LevelOpens(t, k) {
      assert LevelOpens(s, k);
    }
  }

  function UnitsWith(units: seq<Ref>, c: Clause, r: Ref): seq<Ref> {
    if |c| <= 1 then units + [r] else units
  }

  /** Learning an asserting clause and assigning its first literal. */
  lemma RunningLearn(f: Formula, s: State, x: Scratch, units: seq<Ref>, assumptions: seq<Lit>, c: Clause, r: Ref)
    requires Running(f, s, x, units, assumptions) && WatchInvariant(s)
    requires Asserting(s, c) && Entails(f, c) && r !in s.db && r !in units
    ensures |c| >= 2 ==> c[0] < |s.watches| && c[1] < |s.watches|
    ensures InBounds(WithClause(s, r, Entry(c, true)), c[0])
    ensures var u := AssignStep(WithClause(s, r, Entry(c, true)), c[0], Because(r));
            && Running(f, u, x, UnitsWith(units, c, r), assumptions) && WatchInvariant(u) && Extends(s, u)
            && |u.trail| == |s.trail| + 1 && u.control == s.control && u.level == s.level
  {
    var e := Entry(c, true);
    AssertKeeps(s, r, e);
    var t := WithClause(s, r, e);
    var u := AssignStep(t, c[0], Because(r));
    AssignTables(t, c[0], Because(r));
    AssignIs(t, c[0], Because(r));
    WithRedundant(f, s.db, r, c);
    hide AssignStep, WithClause, Value, Level, Position, SearchOk, WatchInvariant, Represents, UnitsTrue, UnitsListed,
         Opened, AssumptionsOk, Asserting;
    AssumptionsExtend(s, u, assumptions);
    LearnedUnits(s, u, units, c, r);
    OpenedStays(s, u, |assumptions|);
  }

  lemma LearnedUnits(s: State, u: State, units: seq<Ref>, c: Clause, r: Ref)
    requires UnitsListed(s.db, units) && r !in s.db && r !in units && u.db == s.db[r := Entry(c, true)]
    requires Extends(s, u) && Asserting(s, c) && Value(u, c[0]) == 1 && Level(u, c[0]) == s.level
    ensures UnitsListed(u.db, UnitsWith(units, c, r))
    ensures UnitsTrue(s) ==> UnitsTrue(u)
  {
    var more := UnitsWith(units, c, r);
    if |c| <= 1 {
      assert more[|units|] == r;
    }
    forall q | q in units ensures q in more {
      var i :| 0 <= i < |units| && units[i] == q;
      assert more[i] == q;
    }
    if UnitsTrue(s) {
      forall q | q in u.db ensures UnitTrue(u, q) {
        if q != r {
          assert UnitTrue(s, q);
        }
      }
    }
  }

  /** Opening a level with a decision, an assumption while there are any left. */
  lemma RunningDecide(f: Formula, s: State, x: Scratch, units: seq<Ref>, assumptions: seq<Lit>, l: Lit)
    requires Running(f, s, x, units, assumptions) && WatchInvariant(s) && s.propagated == |s.trail|
    requires ValidLit(s.n, l) && Value(s, l) == 0
    requires s.level < |assumptions| ==> l == assumptions[s.level]
    ensures InBounds(NewLevelStep(s, l), l)
    ensures var u := AssignStep(NewLevelStep(s, l), l, NoReason);
            && Running(f, u, x.(frames := x.frames + [NO_SEEN]), units, assumptions) && WatchInvariant(u)
            && u.trail == s.trail + [l] && u.control == s.control + [Frame(|s.trail|, l)] && u.level == s.level + 1
            && Extends(s, u)
  {
    NewLevelKeeps(s, l);
    NewLevelKeepsWatches(s, l);
    var t := NewLevelStep(s, l);
    assert Extends(s, t);
    assert Value(t, l) == 0;
    AssignKeeps(t, l, NoReason);
    AssignKeepsSound(t, l, NoReason, t.propagated);
    AssignTables(t, l, NoReason);
    AssignIs(t, l, NoReason);
    var u := AssignStep(t, l, NoReason);
    hide AssignStep, Value, Level, Position, SearchOk, Represents, WatchesOk;
    assert Extends(s, u);
    DecidedRest(f, s, u, x, units, assumptions, l);
  }

  lemma DecidedRest(f: Formula, s: State, u: State, x: Scratch, units: seq<Ref>, assumptions: seq<Lit>, l: Lit)
    requires Running(f, s, x, units, assumptions) && SearchOk(u) && Extends(s, u) && u.db == s.db
    requires u.control == s.control + [Frame(|s.trail|, l)] && u.level == s.level + 1 && u.trail == s.trail + [l]
    requires Value(u, l) == 1 && Level(u, l) == u.level && (s.level < |assumptions| ==> l == assumptions[s.level])
    ensures Running(f, u, x.(frames := x.frames + [NO_SEEN]), units, assumptions)
  {
    forall k: nat | 1 <= k <= |assumptions| && k <= u.level && k < |u.control| ensures AssumedAt(u, assumptions, k) {
      if k <= s.level {
        assert AssumedAt(s, assumptions, k);
      }
    }
    forall k: nat | |assumptions| < k <= u.level ensures LevelOpens(u, k) {
      if k <= s.level {
        assert LevelOpens(s, k);
      }
    }
    UnitsStayTrue(s, u);
  }

  /** Opening a level for an assumption that is true already. */
  lemma RunningPlaceholder(f: Formula, s: State, x: Scratch, units: seq<Ref>, assumptions: seq<Lit>)
    requires Running(f, s, x, units, assumptions) && WatchInvariant(s) && s.propagated == |s.trail|
    requires s.level < |assumptions| && Value(s, assumptions[s.level]) == 1
    ensures var u := NewLevelStep(s, NO_LITERAL);
            && Running(f, u, x.(frames := x.frames + [NO_SEEN]), units, assumptions) && WatchInvariant(u)
            && RankFrom(u, 0, |assumptions| + s.n + 1) == RankFrom(s, 0, |assumptions| + s.n + 1)
  {
    var u := NewLevelStep(s, NO_LITERAL);
    PlaceholderKeeps(f, s, assumptions);
    hide SearchOk, WatchInvariant, Represents, AssumptionsOk, Opened, UnitsTrue, UnitsListed;
    assert forall j: nat :: Begin(u, j) == Begin(s, j);
    RankSame(s, u, 0, |assumptions| + s.n + 1);
  }

  lemma PlaceholderKeeps(f: Formula, s: State, assumptions: seq<Lit>)
    requires SearchOk(s) && WatchInvariant(s) && s.propagated == |s.trail|
    requires AssumptionsOk(s, assumptions) && Opened(s, |assumptions|)
    requires s.level < |assumptions| && Value(s, assumptions[s.level]) == 1
    ensures var u := NewLevelStep(s, NO_LITERAL);
            && SearchOk(u) && WatchInvariant(u) && AssumptionsOk(u, assumptions) && Opened(u, |assumptions|)
            && (UnitsTrue(s) ==> UnitsTrue(u))
  {
    var u := NewLevelStep(s, NO_LITERAL);
    NewLevelKeeps(s, NO_LITERAL);
    NewLevelKeepsWatches(s, NO_LITERAL);
    LevelOfAssigned(s, assumptions[s.level]);
    hide SearchOk, WatchInvariant;
    forall k: nat | 1 <= k <= |assumptions| && k <= u.level && k < |u.control| ensures AssumedAt(u, assumptions, k) {
      if k <= s.level {
        assert AssumedAt(s, assumptions, k);
      }
    }
    if UnitsTrue(s) {
      UnitsStayTrue(s, u);
    }
  }

  /** Deleting redundant clauses. */
  lemma RunningPrune(f: Formula, s: State, t: State, x: Scratch, units: seq<Ref>, assumptions: seq<Lit>)
    requires Running(f, s, x, units, assumptions) && WatchInvariant(s) && Pruned(s, t) && KeepsReasons(s, t.db)
    requires forall r :: r in s.db && !s.db[r].redundant ==> r in t.db
    ensures Running(f, t, x, units, assumptions) && WatchInvariant(t)
    ensures forall k: nat :: Begin(t, k) == Begin(s, k)
  {
    PruneKeeps(s, t);
    OpenedStays(s, t, |assumptions|);
    PrunedRepresents(f, s.db, t.db);
    SameTrailTables(s, t);
    PrunedUnits(s, t, units);
    hide Value, Level;
    forall k: nat | 1 <= k <= |assumptions| && k <= t.level && k < |t.control| ensures AssumedAt(t, assumptions, k) {
      assert AssumedAt(s, assumptions, k);
    }
  }

  /** Every clause was given a reference before `next`. */
  ghost predicate RefsBelow(db: Database, units: seq<Ref>, next: Ref) {
    (forall r :: r in db ==> r < next) && (forall r :: r in units ==> r < next)
  }

  lemma NextRef(db: Database, units: seq<Ref>, next: Ref, e: Entry)
    requires RefsBelow(db, units, next)
    ensures next !in db && next !in units && RefsBelow(db[next := e], UnitsWith(units, e.lits, next), next + 1)
  {
  }

  // ---------------------------------------------------------------------------------------------
  // Learning from a conflict
  // ---------------------------------------------------------------------------------------------

  /** Everything but the literal taken off the queue last is settled in the watch lists. */
  ghost predicate Stopped(s: State) {
    && WatchesOk(s.db, s.watches) && 0 < s.propagated && SoundBelow(s, s.propagated - 1)
    && Begin(s, s.level) < s.propagated
  }

  lemma RunningConflictStops(f: Formula, s: State, x: Scratch, units: seq<Ref>, assumptions: seq<Lit>, q: Ref)
    requires Running(f, s, x, units, assumptions) && ConflictFound(s, q) && WatchesOk(s.db, s.watches)
    ensures SearchOk(s) && DatabaseEntailed(f, s.db) && Clean(s, x) && Stopped(s)
  {
  }

  /** Going back to where the learned clause asserts. */
  lemma RunningBackjump(f: Formula, s: State, x: Scratch, units: seq<Ref>, assumptions: seq<Lit>, c: Clause)
    requires Running(f, s, x, units, assumptions) && Stopped(s) && s.level > 0 && LearnedOk(f, s, c)
    ensures var b := BackjumpLevel(s, c);
            && b < s.level && b + 1 < |s.control| && s.control[b + 1].trailBegin <= |s.trail|
            && Running(f, BacktrackStep(s, b), CutFrames(x, b), units, assumptions)
            && WatchInvariant(BacktrackStep(s, b)) && Asserting(BacktrackStep(s, b), c) && Entails(f, c)
  {
    hide Running, Asserting, WatchInvariant, BacktrackStep;
    var b := BackjumpLevel(s, c);
    RunningParts(f, s, x, units, assumptions);
    LearnedAsserts(f, s, c);
    RunningBacktrack(f, s, x, units, assumptions, b);
    BacktrackKeepsWatches(s, b, s.propagated - 1);
  }

  lemma LearnedTables(f: Formula, s: State, c: Clause)
    requires Sized(s) && LearnedOk(f, s, c)
    ensures c != [] && (|c| > 1 ==> Var(c[1]) < |s.levels|)
  {
  }

  /** The clause can be added where it asserts. */
  ghost predicate CanLearn(s: State, c: Clause, r: Ref) {
    var b := BackjumpLevel(s, c);
    && c != [] && b < s.level && b + 1 < |s.control| && s.control[b + 1].trailBegin <= |s.trail|
    && var t := BacktrackStep(s, b);
    && (|c| >= 2 ==> c[0] < |t.watches| && c[1] < |t.watches|)
    && InBounds(WithClause(t, r, Entry(c, true)), c[0])
  }

  /** The state after a conflict has been learned from. */
  ghost function Learnt(s: State, c: Clause, r: Ref): State {
    if CanLearn(s, c, r)
    then AssignStep(WithClause(BacktrackStep(s, BackjumpLevel(s, c)), r, Entry(c, true)), c[0], Because(r))
    else s
  }

  /** No clause held is part of the new one. */
  ghost predicate AddsNew(db: Database, c: Clause) {
    forall r :: r in db ==> exists l :: l in db[r].lits && l !in c
  }

  /** What a conflict teaches was not known: where the clause asserts every clause held is true or has two literals
      open. */
  lemma LearnedIsNew(f: Formula, s: State, x: Scratch, units: seq<Ref>, assumptions: seq<Lit>, c: Clause)
    requires Running(f, s, x, units, assumptions) && Stopped(s) && s.level > 0 && LearnedOk(f, s, c)
    ensures AddsNew(s.db, c)
  {
    hide *;
    var b := BackjumpLevel(s, c);
    RunningParts(f, s, x, units, assumptions);
    RunningBackjump(f, s, x, units, assumptions, c);
    RunningBacktrack(f, s, x, units, assumptions, b);
    var t := BacktrackStep(s, b);
    BacktrackQuiet(s, b);
    RunningUnits(f, t, CutFrames(x, b), units, assumptions);
    RunningParts(f, t, CutFrames(x, b), units, assumptions);
    AssertingIsNew(t, c);
  }

  lemma RunningUnits(f: Formula, s: State, x: Scratch, units: seq<Ref>, assumptions: seq<Lit>)
    requires Running(f, s, x, units, assumptions)
    ensures UnitsTrue(s)
  {
  }

  lemma BacktrackQuiet(s: State, target: nat)
    requires SearchOk(s) && target < s.level
    ensures target + 1 < |s.control| && s.control[target + 1].trailBegin <= |s.trail|
    ensures BacktrackStep(s, target).propagated == |BacktrackStep(s, target).trail|
  {
    BacktrackTables(s, target);
  }

  lemma AssertingIsNew(t: State, c: Clause)
    requires SearchOk(t) && WatchInvariant(t) && t.propagated == |t.trail| && UnitsTrue(t) && Asserting(t, c)
    ensures AddsNew(t.db, c)
  {
    SearchParts(t);
    hide SearchOk, WatchInvariant, Value;
    forall r | r in t.db ensures exists l :: l in t.db[r].lits && l !in c {
      var d := t.db[r].lits;
      assert ClauseOk(t.n, d);
      if |d| >= 2 {
        Fixpoint(t, r);
        AssertingOpens(t, c, d);
      } else {
        assert UnitTrue(t, r);
        AssertingHoldsNone(t, c, d[0]);
        assert d[0] in d;
      }
    }
  }

  lemma AssertingHoldsNone(t: State, c: Clause, l: Lit)
    requires Asserting(t, c) && Value(t, l) == 1
    ensures l !in c
  {
  }

  lemma AssertingOpens(t: State, c: Clause, d: Clause)
    requires Asserting(t, c) && SatisfiedOrOpen(t, d) && ClauseOk(t.n, d)
    ensures exists l :: l in d && l !in c
  {
    hide Value;
    if l :| l in d && Value(t, l) == 1 {
      AssertingHoldsNone(t, c, l);
    } else {
      var i, j :| 0 <= i < j < |d| && Value(t, d[i]) == 0 && Value(t, d[j]) == 0;
      assert d[i] in d && d[j] in d && d[i] != d[j];
      assert forall m :: m in c ==> m == c[0] || Value(t, m) == -1;
    }
  }

  /** One conflict dealt with: everything holds again, and the rank has grown. */
  lemma RunningConflict(f: Formula, s: State, x: Scratch, units: seq<Ref>, assumptions: seq<Lit>, c: Clause, r: Ref)
    requires Running(f, s, x, units, assumptions) && Stopped(s) && s.level > 0 && LearnedOk(f, s, c)
    requires r !in s.db && r !in units
    ensures CanLearn(s, c, r)
    ensures Running(f, Learnt(s, c, r), CutFrames(x, BackjumpLevel(s, c)), UnitsWith(units, c, r), assumptions)
    ensures WatchInvariant(Learnt(s, c, r))
    ensures RankFrom(Learnt(s, c, r), 0, |assumptions| + s.n + 1) > RankFrom(s, 0, |assumptions| + s.n + 1)
  {
    var b := BackjumpLevel(s, c);
    RunningBackjump(f, s, x, units, assumptions, c);
    var t := BacktrackStep(s, b);
    hide BacktrackStep, Running, SearchOk, Asserting, WatchInvariant, LearnedOk, RankFrom, Stopped, BackjumpLevel,
         CutFrames;
    RunningLearn(f, t, CutFrames(x, b), units, assumptions, c, r) by { assert r !in t.db by { BacktrackIs(s, b); } }
    LearntRank(f, s, x, units, assumptions, c, r);
  }

  lemma LearntRank(f: Formula, s: State, x: Scratch, units: seq<Ref>, assumptions: seq<Lit>, c: Clause, r: Ref)
    requires Running(f, s, x, units, assumptions) && CanLearn(s, c, r)
    requires var b := BackjumpLevel(s, c);
             Running(f, Learnt(s, c, r), CutFrames(x, b), UnitsWith(units, c, r), assumptions)
    ensures RankFrom(Learnt(s, c, r), 0, |assumptions| + s.n + 1) > RankFrom(s, 0, |assumptions| + s.n + 1)
  {
    hide *;
    var b := BackjumpLevel(s, c);
    RunningParts(f, s, x, units, assumptions);
    LearntIs(s, c, r);
    var u := Learnt(s, c, r);
    RunningParts(f, u, CutFrames(x, b), UnitsWith(units, c, r), assumptions);
    RankAfterLearning(s, u, b, |assumptions| + s.n + 1);
  }

  lemma LearntIs(s: State, c: Clause, r: Ref)
    requires CanLearn(s, c, r)
    ensures var b := BackjumpLevel(s, c);
            && b < s.level && b + 1 < |s.control|
            && var u := Learnt(s, c, r);
            && u.n == s.n && u.control == s.control[..b + 1] && u.level == b
                && |u.trail| == s.control[b + 1].trailBegin + 1
  {
    var b := BackjumpLevel(s, c);
    BacktrackIs(s, b);
    AssignIs(WithClause(BacktrackStep(s, b), r, Entry(c, true)), c[0], Because(r));
  }

  // ---------------------------------------------------------------------------------------------
  // The rank after each step that leaves the propagation fixpoint
  // ---------------------------------------------------------------------------------------------

  lemma RankAfterLearning(s: State, u: State, target: nat, levels: nat)
    requires SearchOk(s) && SearchOk(u) && u.n == s.n && target < s.level && target < levels && target + 1 < |s.control|
    requires u.control == s.control[..target + 1] && u.level == target
             && |u.trail| == s.control[target + 1].trailBegin + 1
    ensures RankFrom(u, 0, levels) > RankFrom(s, 0, levels)
  {
    assert forall j: nat :: j <= target ==> Begin(u, j) == Begin(s, j);
    RankGrows(s, u, 0, target, levels);
  }

  lemma RankAfterDeciding(s: State, u: State, l: Lit, levels: nat)
    requires SearchOk(s) && SearchOk(u) && u.n == s.n && s.level + 1 < levels
    requires u.control == s.control + [Frame(|s.trail|, l)] && u.level == s.level + 1 && |u.trail| == |s.trail| + 1
    ensures RankFrom(u, 0, levels) > RankFrom(s, 0, levels)
  {
    assert forall j: nat :: j <= s.level + 1 ==> Begin(u, j) == Begin(s, j);
    RankGrows(s, u, 0, s.level + 1, levels);
  }

  // ---------------------------------------------------------------------------------------------
  // Root units
  // ---------------------------------------------------------------------------------------------

  ghost predicate AtRoot(f: Formula, s: State, x: Scratch, units: seq<Ref>) {
    Prepared(f, s, x, units) && WatchInvariant(s) && s.level == 0
  }

  /** With every unit assigned the search may start. */
  lemma RootRuns(f: Formula, s: State, x: Scratch, units: seq<Ref>, assumptions: seq<Lit>)
    requires AtRoot(f, s, x, units) && UnitsTrue(s)
    ensures Running(f, s, x, units, assumptions) && WatchInvariant(s)
  {
  }

  /** At the root the assumptions do not matter yet. */
  lemma RootAssumptions(f: Formula, s: State, x: Scratch, units: seq<Ref>, assumptions: seq<Lit>, others: seq<Lit>)
    requires Running(f, s, x, units, assumptions) && s.level == 0
    ensures Running(f, s, x, units, others) && Prepared(f, s, x, units)
  {
  }

  /** What the reference of a listed clause may be relied on for. */
  lemma UnitTables(f: Formula, s: State, x: Scratch, units: seq<Ref>, r: Ref)
    requires AtRoot(f, s, x, units) && r in units && r in s.db
    ensures |s.db[r].lits| <= 1 && (s.db[r].lits != [] ==>
                                    InBounds(s, s.db[r].lits[0]) && ValidLit(s.n, s.db[r].lits[0]))
    ensures s.db[r].lits == [] || Value(s, s.db[r].lits[0]) == -1 ==> UpRefutes(s.db) && UnitClash(s)
    ensures s.db[r].lits != [] && Value(s, s.db[r].lits[0]) == 1 ==> UnitTrue(s, r)
    ensures s.db[r].lits != [] ==> Value(s, s.db[r].lits[0]) in {-1, 0, 1}
  {
    var c := s.db[r].lits;
    assert ClauseOk(s.n, c);
    assert Clashes(s, r) <==> c == [] || Value(s, c[0]) == -1;
    if c == [] {
      RootRefutes(s, r);
    } else {
      ValidIsInBounds(s, c[0]);
      Assigned(s, c[0]);
      if Value(s, c[0]) != 0 {
        LevelOfAssigned(s, c[0]);
      }
      if Value(s, c[0]) == -1 {
        assert forall l :: l in c ==> l == c[0];
        RootRefutes(s, r);
      }
    }
  }

  /** Assigning the literal of a unit clause at the root. */
  lemma RootUnit(f: Formula, s: State, x: Scratch, units: seq<Ref>, r: Ref)
    requires AtRoot(f, s, x, units) && r in s.db && |s.db[r].lits| == 1 && Value(s, s.db[r].lits[0]) == 0
    ensures InBounds(s, s.db[r].lits[0])
    ensures var u := AssignStep(s, s.db[r].lits[0], Because(r));
            AtRoot(f, u, x, units) && Extends(s, u) && u.db == s.db && UnitTrue(u, r)
  {
    var l := s.db[r].lits[0];
    assert ClauseOk(s.n, s.db[r].lits);
    ValidIsInBounds(s, l);
    assert forall m :: m in s.db[r].lits ==> m == l;
    assert l in s.db[r].lits;
    AssignKeeps(s, l, Because(r));
    AssignKeepsSound(s, l, Because(r), s.propagated);
    AssignTables(s, l, Because(r));
    AssignIs(s, l, Because(r));
  }

  /** A clause held is empty, or a unit whose literal is false. */
  ghost predicate UnitClash(s: State) {
    exists r: Ref :: r in s.db && Clashes(s, r)
  }

  ghost predicate Clashes(s: State, r: Ref)
    requires r in s.db
  {
    s.db[r].lits == [] || (|s.db[r].lits| == 1 && Value(s, s.db[r].lits[0]) == -1)
  }

  lemma ClashStays(s: State, t: State)
    requires Extends(s, t) && t.db == s.db
    ensures UnitClash(s) ==> UnitClash(t)
  {
    if UnitClash(s) {
      var r: Ref :| r in s.db && Clashes(s, r);
      assert Clashes(t, r);
    }
  }

  lemma ClashIsNotTrue(s: State)
    requires UnitsTrue(s)
    ensures !UnitClash(s)
  {
    forall r | r in s.db ensures !Clashes(s, r) {
      assert UnitTrue(s, r);
    }
  }

  ghost predicate TrueUpTo(s: State, units: seq<Ref>, k: nat) {
    forall j :: 0 <= j < k && j < |units| ==> UnitTrue(s, units[j])
  }

  lemma TrueNothing(s: State, units: seq<Ref>)
    ensures TrueUpTo(s, units, 0)
  {
  }

  lemma TrueOneMore(s: State, u: State, units: seq<Ref>, k: nat)
    requires TrueUpTo(s, units, k) && Extends(s, u) && u.db == s.db && k < |units| && UnitTrue(u, units[k])
    ensures TrueUpTo(u, units, k + 1)
  {
    forall j | 0 <= j < k + 1 ensures UnitTrue(u, units[j]) {
      if j < k {
        assert UnitTrue(s, units[j]);
      }
    }
  }

  lemma UnitValue(s: State, l: Lit)
    requires InBounds(s, l)
    ensures l < |s.values| && Value(s, l) == s.values[l]
  {
  }

  lemma AllUnitsTrue(f: Formula, s: State, x: Scratch, units: seq<Ref>)
    requires AtRoot(f, s, x, units) && TrueUpTo(s, units, |units|)
    ensures UnitsTrue(s)
  {
    forall r | r in s.db ensures UnitTrue(s, r) {
      if |s.db[r].lits| <= 1 {
        assert r in units;
        var j :| 0 <= j < |units| && units[j] == r;
        assert UnitTrue(s, units[j]);
      }
    }
  }

  lemma SameExtends(s: State)
    ensures Extends(s, s)
  {
  }

  lemma ExtendsTransitive(s: State, t: State, u: State)
    requires Extends(s, t) && Extends(t, u)
    ensures Extends(s, u)
  {
  }

  // ---------------------------------------------------------------------------------------------
  // Backtracking within a run
  // ---------------------------------------------------------------------------------------------

  ghost function BackTo(s: State, target: nat): State {
    if target < s.level && target + 1 < |s.control|
        && s.control[target + 1].trailBegin <= |s.trail| then BacktrackStep(s, target)
    else s
  }

  /** The watch lists are sound, or sound but for the list a conflict stopped in. */
  ghost predicate SoundOrStopped(s: State, target: nat) {
    WatchInvariant(s) || (Stopped(s) && target < s.level)
  }

  lemma StillSound(s: State, target: nat)
    requires WatchInvariant(s)
    ensures SoundOrStopped(s, target)
  {
  }

  lemma RunningBackTo(f: Formula, s: State, x: Scratch, units: seq<Ref>, assumptions: seq<Lit>, target: nat)
    requires Running(f, s, x, units, assumptions) && SoundOrStopped(s, target)
    ensures var t := BackTo(s, target);
            && Running(f, t, if target < s.level then CutFrames(x, target) else x, units, assumptions)
            && WatchInvariant(t) && t.level == (if target < s.level then target else s.level)
  {
    if target < s.level {
      RunningBacktrack(f, s, x, units, assumptions, target);
      BacktrackKeepsWatches(s, target, if WatchInvariant(s) then s.propagated else s.propagated - 1);
      BacktrackTables(s, target);
    }
  }

  lemma BackNowhere(s: State, target: nat)
    ensures BackTo(s, target) == BackTo(s, if target < s.level then target else s.level)
  {
  }

  /** The decisions of the search levels are literals over the run's variables. */
  lemma RunningDecisions(f: Formula, s: State, x: Scratch, units: seq<Ref>, assumptions: seq<Lit>)
    requires Running(f, s, x, units, assumptions)
    ensures |s.control| == s.level + 1
    ensures forall k :: |assumptions| < k <= s.level ==> ValidLit(s.n, s.control[k].decision)
  {
    forall k: nat | |assumptions| < k <= s.level ensures ValidLit(s.n, s.control[k].decision) {
      assert LevelOpens(s, k);
      TrailEntry(s, Begin(s, k));
    }
  }

  /** The clauses that are reasons on the trail. */
  ghost function TrailReasons(s: State): set<Ref> {
    ReasonsUpTo(s, |s.trail|)
  }

  ghost function ReasonsUpTo(s: State, k: nat): set<Ref>
    requires k <= |s.trail|
  {
    set i | 0 <= i < k && ReasonOf(s, s.trail[i]).Because? :: ReasonOf(s, s.trail[i]).ref
  }

  lemma ReasonsMore(s: State, k: nat)
    requires k < |s.trail|
    ensures ReasonsUpTo(s, k + 1)
         == if ReasonOf(s, s.trail[k]).Because? then ReasonsUpTo(s, k) + {ReasonOf(s, s.trail[k]).ref}
             else ReasonsUpTo(s, k)
  {
  }

  lemma ReasonsKept(s: State)
    ensures forall i :: 0 <= i < |s.trail| && ReasonOf(s, s.trail[i]).Because? ==>
            ReasonOf(s, s.trail[i]).ref in TrailReasons(s)
  {
  }

  lemma TrailTables(s: State, i: nat)
    requires SearchOk(s) && i < |s.trail|
    ensures Var(s.trail[i]) < |s.reasons| && ReasonOf(s, s.trail[i]) == s.reasons[Var(s.trail[i])]
  {
    TrailEntry(s, i);
  }

  lemma ReasonsSurvive(s: State, db: Database, protected: set<Ref>)
    requires forall i :: 0 <= i < |s.trail| && ReasonOf(s, s.trail[i]).Because? ==>
             ReasonOf(s, s.trail[i]).ref in protected
    requires forall r :: r in s.db && r in protected ==> r in db && db[r] == s.db[r]
    ensures KeepsReasons(s, db)
  {
  }

  /** Deleting clauses changes no value, and leaves references and the proof log in order. */
  lemma PrunedTables(s: State, t: State, units: seq<Ref>, next: Ref, f: Formula, p: Transcript)
    requires Pruned(s, t)
    ensures AllAssigned(t) == AllAssigned(s)
    ensures RefsBelow(s.db, units, next) ==> RefsBelow(t.db, units, next)
    ensures TranscriptOk(f, p, s.db, next) ==> TranscriptOk(f, p, t.db, next)
  {
    assert forall l: Lit :: Value(t, l) == Value(s, l);
    if TranscriptOk(f, p, s.db, next) {
      FewerOk(f, p, s.db, t.db, next);
    }
  }

  // ---------------------------------------------------------------------------------------------
  // Branching candidates
  // ---------------------------------------------------------------------------------------------

  /** Every unassigned variable is a branching candidate. */
  ghost predicate Covered(n: nat, values: seq<int>, candidates: set<nat>) {
    forall v: nat :: 1 <= v <= n && 2 * v < |values| && values[2 * v] == 0 ==> v in candidates
  }

  ghost predicate Branchable(n: nat, candidates: set<nat>) {
    forall v :: v in candidates ==> 1 <= v <= n
  }

  ghost predicate IsOpen(s: State, v: nat) {
    1 <= v <= s.n && 2 * v < |s.values| && s.values[2 * v] == 0
  }

  /** An open variable no other one outranks: a higher activity, or the same and a lower index. */
  ghost predicate BestOpen(s: State, score: seq<real>, v: nat) {
    && IsOpen(s, v) && v < |score|
    && forall u: nat :: IsOpen(s, u) && u < |score| ==> score[u] < score[v] || (score[u] == score[v] && v <= u)
  }

  /** The literal is the best open variable in its saved phase. */
  ghost predicate BestDecided(s: State, score: seq<real>, phases: seq<int>, l: Lit) {
    BestOpen(s, score, Var(l)) && Var(l) < |phases| && (IsNegated(l) <==> phases[Var(l)] < 0)
  }

  /** The decisions above level `from` and up to level `kept` rank at least as high as every open variable, so they
      would be made again; the next one ranks below some open variable. */
  ghost predicate MadeAgain(s: State, score: seq<real>, from: nat, kept: nat) {
    && (forall k: nat, v: nat :: from < k <= kept && k < |s.control| && v < |score| && IsOpen(s, v) ==>
          Var(s.control[k].decision) < |score| && score[Var(s.control[k].decision)] >= score[v])
    && (from <= kept < s.level && kept + 1 < |s.control| ==>
          if exists v: nat :: IsOpen(s, v)
          then exists v: nat :: IsOpen(s, v) && Var(s.control[kept + 1].decision) < |score| && v < |score|
                                && score[Var(s.control[kept + 1].decision)] < score[v]
          else kept == from)
  }

  /** The level a restart goes back to. */
  ghost predicate KeptLevels(s: State, score: seq<real>, from: nat, kept: nat) {
    if s.level <= from then kept == s.level else from <= kept <= s.level && MadeAgain(s, score, from, kept)
  }

  /** What an inprocessing pass may leave: nothing new, the root, or the root with fewer clauses and all of the trail
      queued again. */
  ghost predicate Simplified(s: State, t: State) {
    var root := BackTo(s, 0);
    || t == s || t == root
    || (SameTrail(root, t) && t.propagated == 0 && EpochOk(root.db, TrailReasons(root), t.db))
  }

  ghost predicate RestartsTo(s: State, score: seq<real>, from: nat, t: State) {
    exists kept: nat :: KeptLevels(s, score, from, kept) && Simplified(BackTo(s, kept), t)
  }

  /** Nothing is deleted, or some redundant clauses are, none of them a reason. */
  ghost predicate Reduced(s: State, t: State) {
    || t == s
    || (Pruned(s, t) && KeepsReasons(s, t.db) && forall r :: r in s.db && !s.db[r].redundant ==> r in t.db)
  }

  lemma RestartTold(s: State, score: seq<real>, from: nat, kept: nat, t: State)
    requires KeptLevels(s, score, from, kept) && Simplified(BackTo(s, kept), t)
    ensures RestartsTo(s, score, from, t)
  {
  }

  lemma DecisionTold(s: State, score: seq<real>, phases: seq<int>, u: State, l: Lit, t: State)
    requires Reduced(s, u) && BestDecided(u, score, phases, l) && t == Decide(u, l)
    ensures DecidesIn(s, score, l, t)
  {
  }

  /** The best open variable is decided, after a reduction when one is due. */
  ghost predicate DecidesIn(s: State, score: seq<real>, l: Lit, t: State) {
    exists u: State :: Reduced(s, u) && BestOpen(u, score, Var(l)) && t == Decide(u, l)
  }

  lemma UnassignedCovered(n: nat, values: seq<int>, l: Lit, candidates: set<nat>, after: set<nat>)
    requires Covered(n, values, candidates) && l < |values| && Neg(l) < |values|
    requires Var(l) in after && candidates <= after
    ensures Covered(n, values[l := 0][Neg(l) := 0], after)
  {
  }

  lemma AssignedCovered(n: nat, values: seq<int>, l: Lit, candidates: set<nat>)
    requires Covered(n, values, candidates) && l < |values| && Neg(l) < |values|
    ensures Covered(n, values[l := 1][Neg(l) := -1], candidates)
  {
  }

  /** Every unassigned variable but one is a branching candidate. */
  ghost predicate CoveredBut(n: nat, values: seq<int>, but: nat, candidates: set<nat>) {
    forall v: nat :: 1 <= v <= n && v != but && 2 * v < |values| && values[2 * v] == 0 ==> v in candidates
  }

  lemma DecidedCovered(n: nat, values: seq<int>, l: Lit, candidates: set<nat>)
    requires CoveredBut(n, values, Var(l), candidates)
    ensures l < |values| && Neg(l) < |values| ==> Covered(n, values[l := 1][Neg(l) := -1], candidates)
  {
  }

  ghost predicate AllCandidates(n: nat, candidates: set<nat>) {
    forall v :: v in candidates <==> 1 <= v <= n
  }

  lemma AllCovered(n: nat, values: seq<int>, candidates: set<nat>)
    requires AllCandidates(n, candidates)
    ensures Covered(n, values, candidates) && Branchable(n, candidates)
  {
  }

  lemma CoveredAny(n: nat, values: seq<int>, but: nat, candidates: set<nat>)
    requires Covered(n, values, candidates)
    ensures CoveredBut(n, values, but, candidates)
  {
  }

  /** Assigning more variables keeps the rest covered. */
  lemma ExtendedCovered(s: State, t: State, candidates: set<nat>)
    requires Sized(s) && Sized(t) && Extends(s, t) && Covered(s.n, s.values, candidates)
    ensures Covered(t.n, t.values, candidates)
  {
    forall v: nat | 1 <= v <= t.n && 2 * v < |t.values| && t.values[2 * v] == 0 ensures v in candidates {
      assert Value(t, 2 * v) == 0;
      assert Value(s, 2 * v) == 0;
    }
  }

  // ---------------------------------------------------------------------------------------------
  // Simplification between restarts
  // ---------------------------------------------------------------------------------------------

  /** What an epoch does to the clauses: it deletes some, none of them a reason, and changes at most the order of the
      literals of the others; what is left means the same. */
  ghost predicate EpochOk(db: Database, reasons: set<Ref>, later: Database) {
    && (forall r :: r in later ==> r in db && multiset(later[r].lits) == multiset(db[r].lits))
    && (forall r :: r in reasons && r in db ==> r in later && later[r].lits == db[r].lits)
    && (forall f: Formula :: Represents(f, db) ==> Represents(f, later))
  }

  lemma SearchParts(s: State)
    requires SearchOk(s)
    ensures DatabaseOk(s.n, s.db)
  {
  }

  lemma SameButWatches(s: State, t: State)
    requires s == t.(db := s.db, watches := s.watches, propagated := s.propagated)
    ensures SameTrail(s, t)
  {
  }

  lemma EpochNothing(db: Database, reasons: set<Ref>)
    ensures EpochOk(db, reasons, db)
  {
  }

  lemma EpochRefs(db: Database, reasons: set<Ref>, later: Database, units: seq<Ref>, listed: seq<Ref>, next: Ref)
    requires EpochOk(db, reasons, later) && RefsBelow(db, units, next) && forall r :: r in listed ==> r in later
    ensures RefsBelow(later, listed, next)
  {
  }

  lemma EpochTables(n: nat, db: Database, reasons: set<Ref>, later: Database)
    requires EpochOk(db, reasons, later) && DatabaseOk(n, db)
    ensures DatabaseOk(n, later)
  {
    forall r | r in later ensures ClauseOk(n, later[r].lits) {
      assert ClauseOk(n, db[r].lits);
      ReorderedClauseOk(n, db[r].lits, later[r].lits);
    }
  }

  /** The state at the root after an epoch, everything watched anew and queued again: every unit clause is still
      true. */
  lemma EpochKeeps(f: Formula, s: State, x: Scratch, units: seq<Ref>, assumptions: seq<Lit>, reasons: set<Ref>,
                   t: State, listed: seq<Ref>)
    requires Running(f, s, x, units, assumptions) && s.level == 0 && EpochOk(s.db, reasons, t.db)
    requires forall i :: 0 <= i < |s.trail| && ReasonOf(s, s.trail[i]).Because? ==>
             ReasonOf(s, s.trail[i]).ref in reasons
    requires SameTrail(s, t) && t.propagated == 0 && |t.watches| == |s.watches|
    requires WatchesOk(t.db, t.watches) && UnitsListed(t.db, listed)
    ensures AtRoot(f, t, x, listed) && UnitsTrue(t)
  {
    EpochTables(s.n, s.db, reasons, t.db);
    ChangedKeepsSearch(s, t);
    SameTrailTables(s, t);
    forall r | r in t.db ensures UnitTrue(t, r) {
      assert UnitTrue(s, r);
      SameMembers(t.db[r].lits, s.db[r].lits);
      if |t.db[r].lits| == 1 {
        assert t.db[r].lits[0] in s.db[r].lits;
      }
    }
  }

  /** Every short clause attached so far is listed, and only those. */
  ghost predicate UnitsSoFar(db: Database, units: seq<Ref>, done: set<Ref>) {
    && (forall r :: r in done && r in db && |db[r].lits| <= 1 ==> r in units)
    && (forall r :: r in units ==> r in db && |db[r].lits| <= 1)
  }

  lemma UnitsOneMore(db: Database, units: seq<Ref>, done: set<Ref>, r: Ref)
    requires UnitsSoFar(db, units, done) && r in db
    ensures UnitsSoFar(db, UnitsWith(units, db[r].lits, r), done + {r})
  {
    var more := UnitsWith(units, db[r].lits, r);
    if |db[r].lits| <= 1 {
      assert more[|units|] == r;
      assert forall q :: q in more <==> q in units || q == r;
    }
  }

  /** One more clause is watched or listed. */
  lemma RebuildOne(n: nat, db: Database, w: WatchLists, units: seq<Ref>, done: set<Ref>, r: Ref)
    requires DatabaseOk(n, db) && |w| == 2 * n + 2 && Watched(db, w, done) && UnitsSoFar(db, units, done)
    requires r in db && r !in done
    ensures |db[r].lits| >= 2 ==> db[r].lits[0] < |w| && db[r].lits[1] < |w|
    ensures var u := if |db[r].lits| >= 2 then Attached(w, db[r].lits, r) else w;
            Watched(db, u, done + {r}) && |u| == |w| && UnitsSoFar(db, UnitsWith(units, db[r].lits, r), done + {r})
  {
    UnitsOneMore(db, units, done, r);
    if |db[r].lits| >= 2 {
      AttachOne(n, db, w, done, r);
    } else {
      SkipUnit(db, w, done, r);
    }
  }

  lemma RebuiltAll(db: Database, w: WatchLists, units: seq<Ref>, done: set<Ref>)
    requires Watched(db, w, done) && UnitsSoFar(db, units, done) && done == db.Keys
    ensures WatchesOk(db, w) && UnitsListed(db, units) && forall r :: r in units ==> r in db
  {
    AllWatched(db, w);
  }

  lemma RebuildNone(db: Database, w: WatchLists)
    requires forall l: nat :: l < |w| ==> w[l] == []
    ensures Watched(db, w, {}) && UnitsSoFar(db, [], {})
  {
  }

  lemma ListedBelow(db: Database, units: seq<Ref>, next: Ref)
    requires RefsBelow(db, [], next) && forall r :: r in units ==> r in db
    ensures RefsBelow(db, units, next)
  {
  }

  // ---------------------------------------------------------------------------------------------
  // Decisions and answers
  // ---------------------------------------------------------------------------------------------

  /** The state after a decision. */
  ghost function Decide(s: State, l: Lit): State {
    if InBounds(NewLevelStep(s, l), l) then AssignStep(NewLevelStep(s, l), l, NoReason) else s
  }

  /** An assumption that is not false gets a level of its own, an empty one when it is true already. */
  ghost predicate Takes(s: State, l: Lit, t: State) {
    if Value(s, l) == 1 then t == NewLevelStep(s, NO_LITERAL) else Value(s, l) == 0 && t == Decide(s, l)
  }

  /** A decision opens a level of its own. */
  lemma DecidedIs(s: State, l: Lit)
    requires SearchOk(s) && ValidLit(s.n, l)
    ensures var t := Decide(s, l); t.level == s.level + 1 == |t.control| - 1 && t.control[t.level].decision == l
  {
  }

  /** A decision keeps everything and raises the rank. */
  lemma RunningDecision(f: Formula, s: State, x: Scratch, units: seq<Ref>, assumptions: seq<Lit>, l: Lit)
    requires Running(f, s, x, units, assumptions) && WatchInvariant(s) && s.propagated == |s.trail|
    requires ValidLit(s.n, l) && Value(s, l) == 0
    requires s.level < |assumptions| ==> l == assumptions[s.level]
    ensures InBounds(NewLevelStep(s, l), l)
    ensures Running(f, Decide(s, l), x.(frames := x.frames + [NO_SEEN]), units, assumptions)
    ensures WatchInvariant(Decide(s, l)) && Extends(s, Decide(s, l)) && Decide(s, l).level == s.level + 1
    ensures RankFrom(Decide(s, l), 0, |assumptions| + s.n + 1) > RankFrom(s, 0, |assumptions| + s.n + 1)
  {
    RunningDecide(f, s, x, units, assumptions, l);
    hide AssignStep, Running, WatchInvariant, Value, RankFrom;
    DecisionRank(f, s, x, units, assumptions, l);
  }

  lemma DecisionRank(f: Formula, s: State, x: Scratch, units: seq<Ref>, assumptions: seq<Lit>, l: Lit)
    requires Running(f, s, x, units, assumptions) && Decide(s, l).n == s.n
    requires Running(f, Decide(s, l), x.(frames := x.frames + [NO_SEEN]), units, assumptions)
    requires Decide(s, l).control == s.control + [Frame(|s.trail|, l)] && Decide(s, l).level == s.level + 1
    requires |Decide(s, l).trail| == |s.trail| + 1
    ensures RankFrom(Decide(s, l), 0, |assumptions| + s.n + 1) > RankFrom(s, 0, |assumptions| + s.n + 1)
  {
    hide *;
    RunningParts(f, s, x, units, assumptions);
    RunningParts(f, Decide(s, l), x.(frames := x.frames + [NO_SEEN]), units, assumptions);
    RankAfterDeciding(s, Decide(s, l), l, |assumptions| + s.n + 1);
  }

  /** What the loop may answer when nothing is left to decide. */
  lemma RunningSat(f: Formula, s: State, x: Scratch, units: seq<Ref>, assumptions: seq<Lit>)
    requires Running(f, s, x, units, assumptions) && WatchInvariant(s) && s.propagated == |s.trail|
    requires AllAssigned(s) && s.level >= |assumptions|
             && forall i :: 0 <= i < |assumptions| ==> ValidLit(s.n, assumptions[i])
    ensures SatisfiesAll(Model(s), f) && Total(s)
    ensures HoldsAll(Model(s), assumptions)
  {
    AssignedIsTotal(s);
    AssumptionsHold(s, assumptions);
    SatisfiableIsRight(f, s);
  }

  ghost function ReasonRef(s: State, i: nat): Ref
    requires i < |s.trail|
  {
    match ReasonOf(s, s.trail[i])
    case Because(r) => r
    case NoReason => 0
  }

  /** At the root the reasons of the trail, in its order, propagate to any falsified clause. */
  lemma RootRefutes(s: State, q: Ref)
    requires SearchOk(s) && s.level == 0 && q in s.db && Falsified(s, s.db[q].lits)
    ensures UpRefutes(s.db)
  {
    var n := |s.trail|;
    var hints := seq(n, i requires 0 <= i < n => ReasonRef(s, i)) + [q];
    forall i | 0 <= i < n ensures UnitHint(s.db, Negations([]), hints, s.trail, i) {
      assert ReasonAt(s, i) && LevelAt(s, i);
      TrailEntry(s, i);
      forall m | m in s.db[hints[i]].lits && m != s.trail[i] ensures Derived(Negations([]), s.trail, i, Neg(m)) {
        FalseIsDerived(s, m, i);
      }
      forall j | 0 <= j < i ensures Var(s.trail[j]) != Var(s.trail[i]) {
        TrailEntry(s, j);
      }
    }
    forall m | m in s.db[q].lits ensures Derived(Negations([]), s.trail, n, Neg(m)) {
      Assigned(s, m);
      FalseIsDerived(s, m, n);
    }
    assert LratUnits(s.db, [], hints, s.trail) && LratStep(s.db, [], hints);
  }

  lemma FalseIsDerived(s: State, m: Lit, k: nat)
    requires Sized(s) && TrailOk(s) && Value(s, m) == -1 && Position(s, m) < k
    ensures Derived(Negations([]), s.trail, k, Neg(m))
  {
    assert Value(s, m) == ValueOnTrail(s, m);
    var j := Position(s, m);
    SameVar(s.trail[j], m);
    assert s.trail[j] == Neg(m);
  }

  /** Clauses that propagate to a conflict have no model. */
  lemma RefutedHasNoModel(f: Formula, db: Database)
    requires DatabaseEntailed(f, db) && UpRefutes(db)
    ensures !Satisfiable(f)
  {
    var hints :| LratStep(db, [], hints);
    forall a: Assignment ensures !SatisfiesAll(a, f) {
      if SatisfiesAll(a, f) {
        forall i | 0 <= i < |hints| && hints[i] in db ensures Satisfies(a, db[hints[i]].lits) {
          assert Entails(f, db[hints[i]].lits);
        }
        LratStepSound(db, [], hints, a);
      }
    }
  }

  /** A conflict at the root leaves no model, and unit propagation shows it. */
  lemma RunningUnsat(f: Formula, s: State, x: Scratch, units: seq<Ref>, assumptions: seq<Lit>, q: Ref)
    requires Running(f, s, x, units, assumptions) && ConflictFound(s, q) && s.level == 0
    ensures UpRefutes(s.db)
  {
    RootRefutes(s, q);
  }

  /** What an assumption's value may be, and where it is kept. */
  lemma AssumptionValue(s: State, l: Lit)
    requires SearchOk(s) && ValidLit(s.n, l)
    ensures InBounds(s, l) && Value(s, l) == s.values[l] && Value(s, l) in {-1, 0, 1}
  {
    ValidIsInBounds(s, l);
    Assigned(s, l);
  }

  lemma LearnedEntailed(f: Formula, s: State, c: Clause)
    requires LearnedOk(f, s, c)
    ensures Entails(f, c)
  {
  }

  lemma RunningSizes(f: Formula, s: State, x: Scratch, units: seq<Ref>, assumptions: seq<Lit>)
    requires Running(f, s, x, units, assumptions)
    ensures |s.levels| == s.n + 1
  {
  }

  /** Either literal of an unassigned variable may be decided. */
  lemma OpenVariable(s: State, v: nat, l: Lit)
    requires SearchOk(s) && 1 <= v <= s.n && Var(l) == v && 2 * v < |s.values| && s.values[2 * v] == 0
    ensures ValidLit(s.n, l) && Value(s, l) == 0
  {
    SameVar(l, MakeLit(v, false));
    Assigned(s, MakeLit(v, false));
  }

  lemma NothingOpen(s: State)
    requires forall v :: 1 <= v <= s.n ==> 2 * v < |s.values| && s.values[2 * v] != 0
    ensures AllAssigned(s)
  {
    forall v: nat | 1 <= v <= s.n ensures Value(s, MakeLit(v, false)) != 0 {
      assert MakeLit(v, false) == 2 * v;
    }
  }

  /** Literals among inconsistent ones: the larger list is inconsistent too. */
  lemma MoreInconsistent(f: Formula, core: seq<Lit>, lits: seq<Lit>)
    requires Inconsistent(f, core) && forall l :: l in core ==> l in lits
    ensures Inconsistent(f, lits)
  {
    forall a: Assignment | SatisfiesAll(a, f) ensures !HoldsAll(a, lits) {
      var i :| 0 <= i < |core| && !Holds(a, core[i]);
      assert core[i] in core;
      var j :| 0 <= j < |lits| && lits[j] == core[i];
    }
  }

  /** What an answer claims: every variable has a value and the assignment is a model of the formula in which the
      assumptions hold, or the formula and the failed core, a part of the assumptions, have no model together; with an
      empty core unit propagation alone refutes the clauses held, and any other is exactly what a false assumption
      rests on. */
  ghost predicate AnswerOk(answer: Status, f: Formula, s: State, assumptions: seq<Lit>, core: seq<Lit>) {
    && (answer == Sat ==> Total(s) && HoldsAll(Model(s), assumptions) && SatisfiesAll(Model(s), f))
    && (answer == Unsat ==>
          && Inconsistent(f, core) && (forall l :: l in core ==> l in assumptions) && Inconsistent(f, assumptions)
          && (core == [] ==> UpRefutes(s.db)))
    && CoreExact(s, assumptions, core)
  }

  /** A core that is not empty is the next assumption, a false one, and the decisions that made it false. */
  ghost predicate CoreExact(s: State, assumptions: seq<Lit>, core: seq<Lit>) {
    core == []
    || (s.level < |assumptions| && Value(s, assumptions[s.level]) == -1 && core == CoreOf(s, assumptions[s.level]))
  }

  lemma UnknownIsOk(f: Formula, s: State, assumptions: seq<Lit>)
    ensures AnswerOk(Unknown, f, s, assumptions, [])
  {
  }

  lemma UnsatIsOk(answer: Status, f: Formula, s: State, assumptions: seq<Lit>)
    requires answer != Sat && Represents(f, s.db) && UpRefutes(s.db)
    ensures AnswerOk(answer, f, s, assumptions, [])
  {
    RefutedHasNoModel(f, s.db);
    NoModelNoLiterals(f, []);
    NoModelNoLiterals(f, assumptions);
  }

  lemma CoreIsOk(answer: Status, f: Formula, s: State, assumptions: seq<Lit>, core: seq<Lit>)
    requires answer != Sat
    requires answer == Unsat ==> Inconsistent(f, core) && core != [] && forall l :: l in core ==> l in assumptions
    requires CoreExact(s, assumptions, core)
    ensures AnswerOk(answer, f, s, assumptions, core)
  {
    if answer == Unsat {
      MoreInconsistent(f, core, assumptions);
    }
  }

  lemma LuckyIsOk(f: Formula, s: State)
    requires SatisfiesAll(Model(s), f) && Total(s)
    ensures AnswerOk(Sat, f, s, [], [])
  {
  }

  lemma SatIsOk(f: Formula, s: State, x: Scratch, units: seq<Ref>, assumptions: seq<Lit>)
    requires Running(f, s, x, units, assumptions) && WatchInvariant(s) && s.propagated == |s.trail|
    requires AllAssigned(s) && s.level >= |assumptions|
             && forall i :: 0 <= i < |assumptions| ==> ValidLit(s.n, assumptions[i])
    ensures AnswerOk(Sat, f, s, assumptions, [])
  {
    RunningSat(f, s, x, units, assumptions);
  }

  /** Where the loop stands: restarts left, whether the opening walk is still to come, rank and level. */
  datatype Progression = Progression(restartsLeft: nat, walkPending: bool, rank: int, level: nat)

  /** One iteration has brought the end closer. */
  ghost predicate Closer(p: Progression, q: Progression, assumptionCount: nat) {
    || q.restartsLeft < p.restartsLeft
    || (q.restartsLeft == p.restartsLeft && p.walkPending && !q.walkPending)
    || (q.restartsLeft == p.restartsLeft && q.walkPending == p.walkPending
        && (q.rank > p.rank || (q.rank == p.rank && p.level < assumptionCount && q.level == p.level + 1)))
  }

  lemma CloserByRank(p: Progression, q: Progression, assumptionCount: nat)
    ensures q.restartsLeft == p.restartsLeft && q.walkPending == p.walkPending && q.rank > p.rank ==>
              Closer(p, q, assumptionCount)
  {
  }

  /** Propagation does not lead away from the end. */
  lemma CloserFrom(p: Progression, middle: Progression, q: Progression, assumptionCount: nat)
    requires middle == p.(rank := middle.rank) && middle.rank >= p.rank
    ensures Closer(middle, q, assumptionCount) ==> Closer(p, q, assumptionCount)
  {
  }

  /** No rank reaches this. */
  ghost function RankLimit(n: nat, assumptionCount: nat): int {
    Power(n + 1, assumptionCount + n + 1)
  }

  lemma RunningRank(f: Formula, s: State, x: Scratch, units: seq<Ref>, assumptions: seq<Lit>)
    requires Running(f, s, x, units, assumptions)
    ensures 0 <= RankFrom(s, 0, |assumptions| + s.n + 1) < RankLimit(s.n, |assumptions|)
  {
    RankBounds(s, 0, |assumptions| + s.n + 1);
  }

  /** Propagation leaves the tables around the search state as good as they were. */
  lemma ProgressTables(s: State, t: State, units: seq<Ref>, next: Ref, candidates: set<nat>, f: Formula, p: Transcript)
    requires SearchOk(s) && SearchOk(t) && Progress(s, t)
    ensures RefsBelow(s.db, units, next) ==> RefsBelow(t.db, units, next)
    ensures Covered(s.n, s.values, candidates) ==> Covered(t.n, t.values, candidates)
    ensures TranscriptOk(f, p, s.db, next) ==> TranscriptOk(f, p, t.db, next)
  {
    if TranscriptOk(f, p, s.db, next) {
      FewerOk(f, p, s.db, t.db, next);
    }
    if Covered(s.n, s.values, candidates) {
      ExtendedCovered(s, t, candidates);
    }
  }
}
