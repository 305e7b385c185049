/** What the search's answers mean: models, refutations and failed cores. */
module Answers {
  import opened Logic
  import opened SearchState
  import opened Watching
  import opened Implication
  import opened Analysis
  import opened Causes

  // ---------------------------------------------------------------------------------------------
  // Clauses without watches
  // ---------------------------------------------------------------------------------------------

  /** Every clause too short to be watched is listed, and no watched clause is. */
  ghost predicate UnitsListed(db: Database, units: seq<Ref>) {
    && (forall r :: r in db && |db[r].lits| <= 1 ==> r in units)
    && (forall r :: r in units && r in db ==> |db[r].lits| <= 1)
  }

  ghost predicate UnitTrue(s: State, r: Ref) {
    r in s.db && |s.db[r].lits| <= 1 ==>
      |s.db[r].lits| == 1 && Value(s, s.db[r].lits[0]) == 1 && Level(s, s.db[r].lits[0]) == 0
  }

  lemma UnitTrueAt(s: State, r: Ref)
    ensures UnitsTrue(s) ==> UnitTrue(s, r)
  {
  }

  /** Every unit clause is true at the root, and there is no empty clause. */
  ghost predicate UnitsTrue(s: State) {
    forall r :: r in s.db ==> UnitTrue(s, r)
  }

  lemma UnitsStayTrue(s: State, t: State)
    requires UnitsTrue(s) && Extends(s, t) && SameClauses(s.db, t.db)
    ensures UnitsTrue(t)
  {
    forall r | r in t.db ensures UnitTrue(t, r) {
      assert UnitTrue(s, r);
      SameMembers(s.db[r].lits, t.db[r].lits);
      if |t.db[r].lits| == 1 {
        assert t.db[r].lits[0] in t.db[r].lits;
      }
    }
  }

  lemma UnitsSurviveBacktrack(s: State, target: nat)
    requires SearchOk(s) && UnitsTrue(s) && target < s.level
    ensures target + 1 < |s.control| && s.control[target + 1].trailBegin <= |s.trail|
    ensures UnitsTrue(BacktrackStep(s, target))
  {
    BacktrackTables(s, target);
    var t := BacktrackStep(s, target);
    hide BacktrackStep;
    forall r | r in t.db ensures UnitTrue(t, r) {
      assert UnitTrue(s, r);
      if |s.db[r].lits| == 1 {
        LevelOfAssigned(s, s.db[r].lits[0]);
        BeginsOrdered(s, 1, target + 1);
      }
    }
  }

  // ---------------------------------------------------------------------------------------------
  // Satisfiable
  // ---------------------------------------------------------------------------------------------

  /** The assignment the value table holds. */
  ghost function Model(s: State): Assignment {
    iset v: nat | Value(s, MakeLit(v, false)) == 1
  }

  ghost predicate AllAssigned(s: State) {
    forall v: nat :: 1 <= v <= s.n ==> Value(s, MakeLit(v, false)) != 0
  }

  /** Every variable is true or false. */
  ghost predicate Total(s: State) {
    |s.values| == 2 * s.n + 2 && forall v: nat :: 1 <= v <= s.n ==> Value(s, MakeLit(v, false)) in {-1, 1}
  }

  /** The list gives each variable in turn the literal the value table makes true. */
  ghost predicate ListsModel(model: seq<Lit>, s: State) {
    |model| == s.n && forall i :: 0 <= i < |model| ==> model[i] == MakeLit(i + 1, Value(s, MakeLit(i + 1, false)) < 0)
  }

  lemma AssignedIsTotal(s: State)
    requires SearchOk(s) && AllAssigned(s)
    ensures Total(s)
  {
    forall v: nat | 1 <= v <= s.n ensures Value(s, MakeLit(v, false)) in {-1, 1} {
      assert Value(s, MakeLit(v, false)) == ValueOnTrail(s, MakeLit(v, false));
    }
  }

  lemma ModelHolds(s: State, l: Lit)
    requires Sized(s) && TrailOk(s) && ValidLit(s.n, l) && AllAssigned(s)
    ensures Holds(Model(s), l) <==> Value(s, l) == 1
    ensures Value(s, l) != 0
  {
    var p := MakeLit(Var(l), false);
    SameVar(l, p);
    Assigned(s, p);
    assert Value(s, p) != 0;
  }

  /** A full assignment at a propagation fixpoint, with every unit true, satisfies every clause held. */
  lemma FixpointIsModel(s: State, r: Ref)
    requires SearchOk(s) && WatchInvariant(s) && s.propagated == |s.trail| && AllAssigned(s) && UnitsTrue(s)
             && r in s.db
    ensures Satisfies(Model(s), s.db[r].lits)
  {
    var c := s.db[r].lits;
    assert UnitTrue(s, r);
    assert ClauseOk(s.n, c);
    if |c| >= 2 {
      Fixpoint(s, r);
      forall i | 0 <= i < |c| ensures Value(s, c[i]) != 0 {
        ModelHolds(s, c[i]);
      }
      var l :| l in c && Value(s, l) == 1;
      ModelHolds(s, l);
    } else {
      ModelHolds(s, c[0]);
      assert c[0] in c;
    }
  }

  /** The answer "satisfiable" is right: the assignment is a model of the formula. */
  lemma SatisfiableIsRight(f: Formula, s: State)
    requires SearchOk(s) && WatchInvariant(s) && s.propagated == |s.trail| && AllAssigned(s) && UnitsTrue(s)
    requires DatabaseCovers(f, s.db)
    ensures SatisfiesAll(Model(s), f)
  {
    forall r | r in s.db ensures Satisfies(Model(s), s.db[r].lits) {
      FixpointIsModel(s, r);
    }
  }

  // ---------------------------------------------------------------------------------------------
  // Unsatisfiable
  // ---------------------------------------------------------------------------------------------

  ghost predicate HoldsAll(a: Assignment, lits: seq<Lit>) {
    forall i :: 0 <= i < |lits| ==> Holds(a, lits[i])
  }

  /** No model of the formula makes all the literals true. */
  ghost predicate Inconsistent(f: Formula, lits: seq<Lit>) {
    forall a: Assignment :: SatisfiesAll(a, f) ==> !HoldsAll(a, lits)
  }

  /** Without models, any literals are inconsistent with the formula. */
  lemma NoModelNoLiterals(f: Formula, lits: seq<Lit>)
    requires !Satisfiable(f)
    ensures Inconsistent(f, lits)
  {
  }

  // ---------------------------------------------------------------------------------------------
  // Assumption levels
  // ---------------------------------------------------------------------------------------------

  /** Level `k` carries assumption `k - 1`: as its decision, or with none because the assumption was already true. */
  ghost predicate AssumedAt(s: State, assumptions: seq<Lit>, k: nat)
    requires 1 <= k <= |assumptions| && k < |s.control|
  {
    var l := assumptions[k - 1];
    && s.control[k].decision in [NO_LITERAL, l]
    && Value(s, l) == 1 && Level(s, l) <= k
  }

  ghost predicate AssumptionsOk(s: State, assumptions: seq<Lit>) {
    forall k: nat :: 1 <= k <= |assumptions| && k <= s.level && k < |s.control| ==> AssumedAt(s, assumptions, k)
  }

  lemma AssumptionsExtend(s: State, t: State, assumptions: seq<Lit>)
    requires AssumptionsOk(s, assumptions) && Extends(s, t) && t.control == s.control && t.level == s.level
    ensures AssumptionsOk(t, assumptions)
  {
    forall k: nat | 1 <= k <= |assumptions| && k <= t.level && k < |t.control| ensures AssumedAt(t, assumptions, k) {
      assert AssumedAt(s, assumptions, k);
    }
  }

  lemma AssumptionsBacktrack(s: State, target: nat, assumptions: seq<Lit>)
    requires SearchOk(s) && AssumptionsOk(s, assumptions) && target < s.level
    ensures target + 1 < |s.control| && s.control[target + 1].trailBegin <= |s.trail|
    ensures AssumptionsOk(BacktrackStep(s, target), assumptions)
  {
    BacktrackTables(s, target);
    BacktrackControl(s, target);
    var t := BacktrackStep(s, target);
    hide BacktrackStep;
    forall k: nat | 1 <= k <= |assumptions| && k <= t.level && k < |t.control| ensures AssumedAt(t, assumptions, k) {
      assert AssumedAt(s, assumptions, k);
      LevelOfAssigned(s, assumptions[k - 1]);
      BeginsOrdered(s, Level(s, assumptions[k - 1]) + 1, target + 1);
    }
  }

  /** Once every assumption has its level, all of them are true. */
  lemma AssumptionsHold(s: State, assumptions: seq<Lit>)
    requires SearchOk(s) && AssumptionsOk(s, assumptions) && s.level >= |assumptions| && AllAssigned(s)
    requires forall i :: 0 <= i < |assumptions| ==> ValidLit(s.n, assumptions[i])
    ensures HoldsAll(Model(s), assumptions)
  {
    forall i | 0 <= i < |assumptions| ensures Holds(Model(s), assumptions[i]) {
      assert AssumedAt(s, assumptions, i + 1);
      ModelHolds(s, assumptions[i]);
    }
  }

  // ---------------------------------------------------------------------------------------------
  // Failed cores
  // ---------------------------------------------------------------------------------------------

  /** What the backward walk has settled for the trail literal at `j`: it is at the root or unseen, a listed
      decision, or forced by a clause over seen variables. */
  ghost predicate Traced(s: State, seen: set<nat>, core: seq<Lit>, j: nat)
    requires j < |s.trail|
  {
    var l := s.trail[j];
    Var(l) in seen && Level(s, l) > 0 ==>
      match ReasonOf(s, l)
      case NoReason => l in core
      case Because(r) => r in s.db && forall m :: m in s.db[r].lits ==> Var(m) in seen
  }

  ghost predicate TracedFrom(s: State, seen: set<nat>, core: seq<Lit>, index: nat) {
    forall j :: index <= j < |s.trail| ==> Traced(s, seen, core, j)
  }

  /** The later trail literals stay settled when the reason of an earlier one is marked. */
  lemma TraceReason(s: State, seen: set<nat>, core: seq<Lit>, index: nat, more: set<nat>)
    requires SearchOk(s) && index < |s.trail| && TracedFrom(s, seen, core, index + 1)
    requires ReasonOf(s, s.trail[index]).Because? && ReasonOf(s, s.trail[index]).ref in s.db
    requires more == seen + set m | m in s.db[ReasonOf(s, s.trail[index]).ref].lits :: Var(m)
    ensures TracedFrom(s, more, core, index)
  {
    var c := s.db[ReasonOf(s, s.trail[index]).ref].lits;
    assert ReasonAt(s, index);
    TrailEntry(s, index);
    forall j | index <= j < |s.trail| ensures Traced(s, more, core, j) {
      if j > index {
        assert Traced(s, seen, core, j);
        TrailEntry(s, j);
        assert forall m :: m in c ==> Position(s, m) <= index;
        assert forall m: Lit :: Var(m) == Var(s.trail[j]) ==> Position(s, m) == j;
      }
    }
  }

  lemma TraceDecision(s: State, seen: set<nat>, core: seq<Lit>, index: nat)
    requires index < |s.trail| && TracedFrom(s, seen, core, index + 1) && ReasonOf(s, s.trail[index]).NoReason?
    ensures TracedFrom(s, seen, core + [s.trail[index]], index)
  {
    forall j | index <= j < |s.trail| ensures Traced(s, seen, core + [s.trail[index]], j) {
      if j > index {
        assert Traced(s, seen, core, j);
      }
    }
  }

  lemma TraceSkip(s: State, seen: set<nat>, core: seq<Lit>, index: nat)
    requires index < |s.trail| && TracedFrom(s, seen, core, index + 1)
    requires Var(s.trail[index]) !in seen || Level(s, s.trail[index]) == 0
    ensures TracedFrom(s, seen, core, index)
  {
    forall j | index <= j < |s.trail| ensures Traced(s, seen, core, j) {
      if j > index {
        assert Traced(s, seen, core, j);
      }
    }
  }

  /** A model of the formula in which the core holds agrees with every seen trail literal. */
  lemma {:induction false} CoreForces(f: Formula, s: State, a: Assignment, seen: set<nat>, core: seq<Lit>, j: nat)
    requires SearchOk(s) && DatabaseEntailed(f, s.db) && SatisfiesAll(a, f) && HoldsAll(a, core)
    requires TracedFrom(s, seen, core, 0) && j < |s.trail| && Var(s.trail[j]) in seen
    ensures Agrees(a, s, Var(s.trail[j]))
  {
    TrailEntry(s, j);
    assert Traced(s, seen, core, j) && ReasonAt(s, j);
    if Level(s, s.trail[j]) == 0 {
      RootAgrees(f, s, a, j);
    } else if ReasonOf(s, s.trail[j]).Because? {
      var c := s.db[ReasonOf(s, s.trail[j]).ref].lits;
      forall m | m in c && m != s.trail[j] ensures Agrees(a, s, Var(m)) {
        Assigned(s, m);
        CoreForces(f, s, a, seen, core, Position(s, m));
      }
      assert Entails(f, c);
      ReasonForces(a, s, j);
    } else {
      LiteralAgrees(a, s, s.trail[j]);
    }
  }

  /** The failed literal together with the listed decisions contradicts the formula. */
  lemma CoreIsInconsistent(f: Formula, s: State, seen: set<nat>, core: seq<Lit>, failed: Lit)
    requires SearchOk(s) && DatabaseEntailed(f, s.db) && TracedFrom(s, seen, core, 0)
    requires Value(s, failed) == -1 && Var(failed) in seen && failed in core
    ensures Inconsistent(f, core)
  {
    forall a: Assignment | SatisfiesAll(a, f) ensures !HoldsAll(a, core) {
      if HoldsAll(a, core) {
        Assigned(s, failed);
        CoreForces(f, s, a, seen, core, Position(s, failed));
        AgreesLiteral(a, s, failed);
      }
    }
  }

  /** A decision above the root and below the search levels is an assumption. */
  lemma DecisionIsAssumption(s: State, assumptions: seq<Lit>, index: nat)
    requires SearchOk(s) && AssumptionsOk(s, assumptions) && s.level < |assumptions| && index < |s.trail|
    requires ReasonOf(s, s.trail[index]).NoReason?
    ensures s.trail[index] in assumptions && Level(s, s.trail[index]) > 0
  {
    assert ReasonAt(s, index) && LevelAt(s, index);
    var k := Level(s, s.trail[index]);
    assert AssumedAt(s, assumptions, k);
    TrailEntry(s, index);
    assert assumptions[k - 1] in assumptions;
  }

  /** Exactly the variables of `seen` are marked, and each is listed. */
  ghost predicate FinalMarks(n: nat, flags: seq<Flags>, listed: seq<nat>, seen: set<nat>) {
    && |flags| == n + 1
    && (forall v :: 0 <= v < |flags| ==> flags[v] == if v in seen then SEEN else NO_FLAGS)
    && (forall i :: 0 <= i < |listed| ==> listed[i] < |flags|)
    && (forall v :: v in seen ==> v in listed)
  }

  lemma MarkFinal(n: nat, flags: seq<Flags>, listed: seq<nat>, seen: set<nat>, v: nat)
    requires FinalMarks(n, flags, listed, seen) && v <= n
    ensures v < |flags| && (flags[v].seen <==> v in seen)
    ensures FinalMarks(n, flags[v := flags[v].(seen := true)], listed + [v], seen + {v})
  {
    assert (listed + [v])[|listed|] == v;
  }

  /** The variables of the first `k` literals. */
  ghost function VarsOf(c: Clause, k: nat): set<nat>
    requires k <= |c|
  {
    set i | 0 <= i < k :: Var(c[i])
  }

  lemma VarsOfNone(c: Clause)
    ensures VarsOf(c, 0) == {}
  {
  }

  lemma VarsOfMore(c: Clause, k: nat)
    requires k < |c|
    ensures VarsOf(c, k + 1) == VarsOf(c, k) + {Var(c[k])}
  {
  }

  lemma VarsOfAll(c: Clause)
    ensures VarsOf(c, |c|) == set m | m in c :: Var(m)
  {
    forall v ensures v in VarsOf(c, |c|) <==> v in set m | m in c :: Var(m) {
      if v in set m | m in c :: Var(m) {
        var m :| m in c && Var(m) == v;
        var i :| 0 <= i < |c| && c[i] == m;
      }
    }
  }

  /** The state of the backward walk before trail position `index` is looked at. */
  ghost predicate Walking(s: State, flags: seq<Flags>, listed: seq<nat>, seen: set<nat>, core: seq<Lit>, failed: Lit,
                          assumptions: seq<Lit>, index: nat) {
    && FinalMarks(s.n, flags, listed, seen) && index <= |s.trail| && TracedFrom(s, seen, core, index)
    && failed in core && Var(failed) in seen && (forall l :: l in core ==> l in assumptions)
    && core == CoreFrom(s, failed, index) && VarAssigned(s, Var(failed)) && AllBehind(s, failed, seen)
  }

  /** The failed literal rests on every variable seen. */
  ghost predicate AllBehind(s: State, failed: Lit, seen: set<nat>) {
    forall v :: v in seen ==> Behind(s, {Var(failed)}, AboveRootVars(s), v)
  }

  /** A variable not seen when its turn comes is not one the failed literal rests on. */
  lemma NotReached(s: State, seen: set<nat>, core: seq<Lit>, failed: Lit, index: nat)
    requires SearchOk(s) && index < |s.trail| && TracedFrom(s, seen, core, index + 1)
    requires Var(failed) in seen && VarAssigned(s, Var(failed)) && Var(s.trail[index]) !in seen
    requires AllBehind(s, failed, seen)
    ensures !InCore(s, failed, index)
  {
    var expanded := AboveRootVars(s);
    TrailEntry(s, index);
    VarTables(s, s.trail[index]);
    if Behind(s, {Var(failed)}, expanded, Var(s.trail[index])) {
      forall u, w | u in seen && u in expanded && VarPosition(s, u) >= index + 1 && RestsOn(s, u, w)
        ensures w in seen
      {
        BehindAssigned(s, {Var(failed)}, expanded, u);
        SeenIsClosed(s, seen, core, index + 1, u, w);
      }
      BehindSoFar(s, {Var(failed)}, expanded, seen, index + 1, Var(s.trail[index]));
    }
  }

  /** The reason of a variable that has had its turn is over variables seen. */
  lemma SeenIsClosed(s: State, seen: set<nat>, core: seq<Lit>, index: nat, u: nat, w: nat)
    requires SearchOk(s) && TracedFrom(s, seen, core, index) && u in seen && VarLevel(s, u) > 0
    requires VarPosition(s, u) >= index && RestsOn(s, u, w) && VarAssigned(s, u)
    ensures w in seen
  {
    VarOnTrail(s, u);
    var j := VarPosition(s, u);
    VarTables(s, s.trail[j]);
    assert Traced(s, seen, core, j);
  }

  /** One more reason is followed. */
  lemma BehindReason(s: State, failed: Lit, seen: set<nat>, index: nat)
    requires SearchOk(s) && AllBehind(s, failed, seen) && index < |s.trail| && Var(s.trail[index]) in seen
    requires Level(s, s.trail[index]) > 0 && ReasonOf(s, s.trail[index]).Because?
    requires ReasonOf(s, s.trail[index]).ref in s.db
    ensures var c := s.db[ReasonOf(s, s.trail[index]).ref].lits; AllBehind(s, failed, seen + VarsOf(c, |c|))
  {
    var c := s.db[ReasonOf(s, s.trail[index]).ref].lits;
    var u := Var(s.trail[index]);
    TrailEntry(s, index);
    VarTables(s, s.trail[index]);
    forall v | v in VarsOf(c, |c|) ensures Behind(s, {Var(failed)}, AboveRootVars(s), v) {
      var i :| 0 <= i < |c| && Var(c[i]) == v;
      assert c[i] in c && RestsOn(s, u, v);
      BehindNext(s, {Var(failed)}, AboveRootVars(s), u, v);
    }
  }

  lemma StartWalk(s: State, x: Scratch, failed: Lit, assumptions: seq<Lit>)
    requires Sized(s) && Clean(s, x) && Value(s, failed) != 0 && TrailOk(s) && failed in assumptions
    ensures Var(failed) < |x.flags|
    ensures Walking(s, x.flags[Var(failed) := x.flags[Var(failed)].(seen := true)], [Var(failed)], {Var(failed)},
                    [failed], failed, assumptions, |s.trail|)
  {
    Assigned(s, failed);
    MarkFinal(s.n, x.flags, [], {}, Var(failed));
    assert [] + [Var(failed)] == [Var(failed)];
    AssignedVar(s, failed);
    BehindStart(s, {Var(failed)}, AboveRootVars(s), Var(failed));
  }

  lemma FinalStarts(f: Formula, s: State, x: Scratch, failed: Lit, assumptions: seq<Lit>)
    requires SearchOk(s) && Represents(f, s.db) && Clean(s, x) && s.level < |assumptions|
             && failed == assumptions[s.level]
    requires Value(s, failed) == -1
    ensures Var(failed) < |x.flags| && DatabaseEntailed(f, s.db) && |x.flags| == s.n + 1
    ensures Walking(s, x.flags[Var(failed) := x.flags[Var(failed)].(seen := true)], [Var(failed)], {Var(failed)},
                    [failed], failed, assumptions, |s.trail|)
  {
    StartWalk(s, x, failed, assumptions);
  }

  lemma WalkSize(s: State, flags: seq<Flags>, listed: seq<nat>, seen: set<nat>, core: seq<Lit>, failed: Lit,
                 assumptions: seq<Lit>, index: nat)
    requires Walking(s, flags, listed, seen, core, failed, assumptions, index)
    ensures |flags| == s.n + 1
  {
  }

  /** What is looked up for the literal at `index`. */
  lemma WalkTables(s: State, flags: seq<Flags>, listed: seq<nat>, seen: set<nat>, core: seq<Lit>, failed: Lit,
                   assumptions: seq<Lit>, index: nat)
    requires SearchOk(s) && Walking(s, flags, listed, seen, core, failed, assumptions, index + 1)
    ensures index < |s.trail| && Var(s.trail[index]) < |flags| && Var(s.trail[index]) < |s.levels| == |s.reasons|
    ensures flags[Var(s.trail[index])].seen <==> Var(s.trail[index]) in seen
    ensures s.reasons[Var(s.trail[index])].Because? ==>
              s.reasons[Var(s.trail[index])].ref in s.db && ClauseOk(s.n, s.db[s.reasons[Var(s.trail[index])].ref].lits)
  {
    TrailEntry(s, index);
    assert ReasonAt(s, index);
  }

  lemma WalkSkip(s: State, flags: seq<Flags>, listed: seq<nat>, seen: set<nat>, core: seq<Lit>, failed: Lit,
                 assumptions: seq<Lit>, index: nat)
    requires SearchOk(s)
    requires index < |s.trail| && Walking(s, flags, listed, seen, core, failed, assumptions, index + 1)
    requires Var(s.trail[index]) !in seen || Level(s, s.trail[index]) == 0
    ensures Walking(s, flags, listed, seen, core, failed, assumptions, index)
  {
    TraceSkip(s, seen, core, index);
    if Var(s.trail[index]) !in seen {
      NotReached(s, seen, core, failed, index);
    }
    hide Behind, TracedFrom, FinalMarks, AllBehind;
  }

  lemma WalkDecision(s: State, flags: seq<Flags>, listed: seq<nat>, seen: set<nat>, core: seq<Lit>, failed: Lit,
                     assumptions: seq<Lit>, index: nat)
    requires SearchOk(s) && AssumptionsOk(s, assumptions) && s.level < |assumptions|
    requires index < |s.trail| && Walking(s, flags, listed, seen, core, failed, assumptions, index + 1)
    requires ReasonOf(s, s.trail[index]).NoReason? && Var(s.trail[index]) in seen
    ensures Walking(s, flags, listed, seen, core + [s.trail[index]], failed, assumptions, index)
  {
    TraceDecision(s, seen, core, index);
    DecisionIsAssumption(s, assumptions, index);
    assert (core + [s.trail[index]])[..|core|] == core;
  }

  lemma WalkReason(s: State, flags: seq<Flags>, listed: seq<nat>, seen: set<nat>, core: seq<Lit>, failed: Lit,
                   assumptions: seq<Lit>, index: nat, later: seq<Flags>, more: seq<nat>)
    requires SearchOk(s) && index < |s.trail| && Walking(s, flags, listed, seen, core, failed, assumptions, index + 1)
    requires ReasonOf(s, s.trail[index]).Because? && ReasonOf(s, s.trail[index]).ref in s.db
    requires Var(s.trail[index]) in seen && Level(s, s.trail[index]) > 0
    requires var c := s.db[ReasonOf(s, s.trail[index]).ref].lits; FinalMarks(s.n, later, more, seen + VarsOf(c, |c|))
    ensures var c := s.db[ReasonOf(s, s.trail[index]).ref].lits;
            Walking(s, later, more, seen + VarsOf(c, |c|), core, failed, assumptions, index)
  {
    var c := s.db[ReasonOf(s, s.trail[index]).ref].lits;
    VarsOfAll(c);
    TraceReason(s, seen, core, index, seen + VarsOf(c, |c|));
    BehindReason(s, failed, seen, index);
  }

  /** The walk has reached the start of the trail: the core is one. */
  lemma WalkDone(f: Formula, s: State, flags: seq<Flags>, listed: seq<nat>, seen: set<nat>, core: seq<Lit>, failed: Lit,
                 assumptions: seq<Lit>)
    requires SearchOk(s) && DatabaseEntailed(f, s.db) && Walking(s, flags, listed, seen, core, failed, assumptions, 0)
    requires Value(s, failed) == -1
    ensures Inconsistent(f, core) && core != [] && (forall l :: l in core ==> l in assumptions)
    ensures core == CoreOf(s, failed)
    ensures forall i :: 0 <= i < |listed| ==> listed[i] < |flags|
    ensures forall v :: 0 <= v < |flags| && v !in listed ==> flags[v] == NO_FLAGS
  {
    CoreIsInconsistent(f, s, seen, core, failed);
  }
}
