/** What the trail says about the models of the formula. */
module Implication {
  import opened Logic
  import opened SearchState
  import opened Watching

  type Formula = iset<Clause>

  /** Every clause held follows from the formula. */
  ghost predicate DatabaseEntailed(f: Formula, db: Database) {
    forall r :: r in db ==> Entails(f, db[r].lits)
  }

  ghost predicate SatisfiesPermanent(a: Assignment, db: Database) {
    forall r :: r in db && !db[r].redundant ==> Satisfies(a, db[r].lits)
  }

  /** The permanent clauses alone still say all the formula says. */
  ghost predicate DatabaseCovers(f: Formula, db: Database) {
    forall a: Assignment :: SatisfiesPermanent(a, db) ==> SatisfiesAll(a, f)
  }

  /** The clauses held are equivalent to the formula. */
  ghost predicate Represents(f: Formula, db: Database) {
    DatabaseEntailed(f, db) && DatabaseCovers(f, db)
  }

  lemma SameClausesRepresent(f: Formula, db: Database, later: Database)
    requires SameClauses(db, later) && Represents(f, db)
    ensures Represents(f, later)
  {
    forall r | r in later ensures Entails(f, later[r].lits) {
      assert Entails(f, db[r].lits);
      forall a: Assignment | SatisfiesAll(a, f) ensures Satisfies(a, later[r].lits) {
        SameLiterals(a, db[r].lits, later[r].lits);
      }
    }
    forall a: Assignment | SatisfiesPermanent(a, later) ensures SatisfiesAll(a, f) {
      forall r | r in db && !db[r].redundant ensures Satisfies(a, db[r].lits) {
        SameLiterals(a, db[r].lits, later[r].lits);
      }
    }
  }

  // ---------------------------------------------------------------------------------------------
  // Agreement with the trail
  // ---------------------------------------------------------------------------------------------

  /** The assignment gives an assigned variable the value the trail gives it. */
  ghost predicate Agrees(a: Assignment, s: State, v: nat) {
    Value(s, MakeLit(v, false)) != 0 ==> (v in a <==> Value(s, MakeLit(v, false)) == 1)
  }

  ghost predicate AgreesOn(a: Assignment, s: State, vars: set<nat>) {
    forall v :: v in vars ==> Agrees(a, s, v)
  }

  lemma AgreesLiteral(a: Assignment, s: State, l: Lit)
    requires Sized(s) && TrailOk(s) && Agrees(a, s, Var(l))
    ensures Value(s, l) == 1 ==> Holds(a, l)
    ensures Value(s, l) == -1 ==> !Holds(a, l)
  {
    SameVar(l, MakeLit(Var(l), false));
    Assigned(s, MakeLit(Var(l), false));
  }

  lemma LiteralAgrees(a: Assignment, s: State, l: Lit)
    requires Sized(s) && TrailOk(s)
    requires (Value(s, l) == 1 && Holds(a, l)) || (Value(s, l) == -1 && !Holds(a, l))
    ensures Agrees(a, s, Var(l))
  {
    SameVar(l, MakeLit(Var(l), false));
    Assigned(s, MakeLit(Var(l), false));
  }

  /** If an assignment satisfies a reason clause and agrees on its other variables, it agrees on the forced one. */
  lemma ReasonForces(a: Assignment, s: State, i: nat)
    requires SearchOk(s) && i < |s.trail| && ReasonOf(s, s.trail[i]).Because?
    requires ReasonOf(s, s.trail[i]).ref in s.db && Satisfies(a, s.db[ReasonOf(s, s.trail[i]).ref].lits)
    requires forall m :: m in s.db[ReasonOf(s, s.trail[i]).ref].lits && m != s.trail[i] ==> Agrees(a, s, Var(m))
    ensures Agrees(a, s, Var(s.trail[i]))
  {
    assert ReasonAt(s, i);
    var c := s.db[ReasonOf(s, s.trail[i]).ref].lits;
    var l :| l in c && Holds(a, l);
    if l != s.trail[i] {
      AgreesLiteral(a, s, l);
    }
    TrailEntry(s, i);
    LiteralAgrees(a, s, s.trail[i]);
  }

  /** Every model of the formula agrees with the root level. */
  lemma {:induction false} RootAgrees(f: Formula, s: State, a: Assignment, i: nat)
    requires SearchOk(s) && DatabaseEntailed(f, s.db) && SatisfiesAll(a, f)
    requires i < |s.trail| && Level(s, s.trail[i]) == 0
    ensures Agrees(a, s, Var(s.trail[i]))
  {
    assert ReasonAt(s, i);
    var r := ReasonOf(s, s.trail[i]).ref;
    var c := s.db[r].lits;
    assert Entails(f, c);
    forall m | m in c && m != s.trail[i] ensures Agrees(a, s, Var(m)) {
      Assigned(s, m);
      LevelsFollowTrail(s, Position(s, m), i);
      RootAgrees(f, s, a, Position(s, m));
    }
    ReasonForces(a, s, i);
  }

  lemma RootVariableAgrees(f: Formula, s: State, a: Assignment, l: Lit)
    requires SearchOk(s) && DatabaseEntailed(f, s.db) && SatisfiesAll(a, f)
    requires Value(s, l) != 0 && Level(s, l) == 0
    ensures Agrees(a, s, Var(l))
  {
    Assigned(s, l);
    RootAgrees(f, s, a, Position(s, l));
  }

  /** A model of the formula that agrees with the decisions agrees with the whole trail. */
  lemma {:induction false} DecisionsForce(f: Formula, s: State, a: Assignment, i: nat)
    requires SearchOk(s) && DatabaseEntailed(f, s.db) && SatisfiesAll(a, f) && i < |s.trail|
    requires forall j :: 0 <= j <= i && ReasonOf(s, s.trail[j]).NoReason? ==> Holds(a, s.trail[j])
    ensures Agrees(a, s, Var(s.trail[i])) && Holds(a, s.trail[i])
  {
    assert ReasonAt(s, i);
    TrailEntry(s, i);
    if ReasonOf(s, s.trail[i]).Because? {
      var c := s.db[ReasonOf(s, s.trail[i]).ref].lits;
      assert Entails(f, c);
      forall m | m in c && m != s.trail[i] ensures Agrees(a, s, Var(m)) {
        Assigned(s, m);
        DecisionsForce(f, s, a, Position(s, m));
      }
      ReasonForces(a, s, i);
    } else {
      LiteralAgrees(a, s, s.trail[i]);
    }
    AgreesLiteral(a, s, s.trail[i]);
  }

  // ---------------------------------------------------------------------------------------------
  // Conflicts
  // ---------------------------------------------------------------------------------------------

  /** No model of the formula agrees with the trail on all of `vars`. */
  ghost predicate Refuted(f: Formula, s: State, vars: set<nat>) {
    forall a: Assignment :: SatisfiesAll(a, f) ==> !AgreesOn(a, s, vars)
  }

  /** A falsified clause refutes the trail restricted to its variables above the root. */
  lemma ConflictRefutes(f: Formula, s: State, q: Ref, vars: set<nat>)
    requires SearchOk(s) && DatabaseEntailed(f, s.db)
    requires q in s.db && Falsified(s, s.db[q].lits)
    requires forall m :: m in s.db[q].lits ==> Level(s, m) == 0 || Var(m) in vars
    ensures Refuted(f, s, vars)
  {
    forall a: Assignment | SatisfiesAll(a, f) ensures !AgreesOn(a, s, vars) {
      assert Entails(f, s.db[q].lits);
      var l :| l in s.db[q].lits && Holds(a, l);
      if Level(s, l) == 0 {
        RootVariableAgrees(f, s, a, l);
      }
      if AgreesOn(a, s, vars) {
        AgreesLiteral(a, s, l);
      }
    }
  }

  /** Resolving on a trail literal replaces its variable by the other variables of its reason. */
  lemma ResolutionRefutes(f: Formula, s: State, i: nat, vars: set<nat>, after: set<nat>)
    requires SearchOk(s) && DatabaseEntailed(f, s.db) && Refuted(f, s, vars)
    requires i < |s.trail| && ReasonOf(s, s.trail[i]).Because? && ReasonOf(s, s.trail[i]).ref in s.db
    requires vars - {Var(s.trail[i])} <= after
    requires forall m :: m in s.db[ReasonOf(s, s.trail[i]).ref].lits && m != s.trail[i] ==>
             Level(s, m) == 0 || Var(m) in after
    ensures Refuted(f, s, after)
  {
    forall a: Assignment | SatisfiesAll(a, f) ensures !AgreesOn(a, s, after) {
      assert ReasonAt(s, i);
      var c := s.db[ReasonOf(s, s.trail[i]).ref].lits;
      assert Entails(f, c);
      var v :| v in vars && !Agrees(a, s, v);
      if AgreesOn(a, s, after) {
        forall m | m in c && m != s.trail[i] ensures Agrees(a, s, Var(m)) {
          if Level(s, m) == 0 {
            RootVariableAgrees(f, s, a, m);
          }
        }
        ReasonForces(a, s, i);
      }
    }
  }

  /** Refuting the variables of a falsified clause means the clause follows. */
  lemma RefutedClause(f: Formula, s: State, vars: set<nat>, c: Clause)
    requires Sized(s) && TrailOk(s) && Refuted(f, s, vars) && Falsified(s, c)
    requires forall v :: v in vars ==> exists l :: l in c && Var(l) == v
    ensures Entails(f, c)
  {
    forall a: Assignment | SatisfiesAll(a, f) ensures Satisfies(a, c) {
      var v :| v in vars && !Agrees(a, s, v);
      var l :| l in c && Var(l) == v;
      if !Holds(a, l) {
        LiteralAgrees(a, s, l);
      }
    }
  }

  // ---------------------------------------------------------------------------------------------
  // Being forced by a set of variables
  // ---------------------------------------------------------------------------------------------

  /** Every model that agrees with the trail on `vars` agrees on `v`. */
  ghost predicate ForcedBy(f: Formula, s: State, vars: set<nat>, v: nat) {
    forall a: Assignment :: SatisfiesAll(a, f) && AgreesOn(a, s, vars) ==> Agrees(a, s, v)
  }

  lemma ForcedByMore(f: Formula, s: State, vars: set<nat>, more: set<nat>, v: nat)
    requires ForcedBy(f, s, vars, v) && vars <= more
    ensures ForcedBy(f, s, more, v)
  {
    forall a: Assignment | SatisfiesAll(a, f) && AgreesOn(a, s, more) ensures Agrees(a, s, v) {
      assert AgreesOn(a, s, vars);
    }
  }

  lemma ForcedByMember(f: Formula, s: State, vars: set<nat>, v: nat)
    requires v in vars
    ensures ForcedBy(f, s, vars, v)
  {
  }

  lemma ForcedByRoot(f: Formula, s: State, vars: set<nat>, l: Lit)
    requires SearchOk(s) && DatabaseEntailed(f, s.db) && Value(s, l) != 0 && Level(s, l) == 0
    ensures ForcedBy(f, s, vars, Var(l))
  {
    forall a: Assignment | SatisfiesAll(a, f) && AgreesOn(a, s, vars) ensures Agrees(a, s, Var(l)) {
      RootVariableAgrees(f, s, a, l);
    }
  }

  /** A variable whose reason's other variables are forced is forced. */
  lemma ForcedByReason(f: Formula, s: State, vars: set<nat>, i: nat)
    requires SearchOk(s) && DatabaseEntailed(f, s.db) && i < |s.trail|
    requires ReasonOf(s, s.trail[i]).Because? && ReasonOf(s, s.trail[i]).ref in s.db
    requires forall m :: m in s.db[ReasonOf(s, s.trail[i]).ref].lits && m != s.trail[i] ==> ForcedBy(f, s, vars, Var(m))
    ensures ForcedBy(f, s, vars, Var(s.trail[i]))
  {
    forall a: Assignment | SatisfiesAll(a, f) && AgreesOn(a, s, vars) ensures Agrees(a, s, Var(s.trail[i])) {
      assert ReasonAt(s, i);
      assert Entails(f, s.db[ReasonOf(s, s.trail[i]).ref].lits);
      ReasonForces(a, s, i);
    }
  }

  /** Dropping variables the rest force keeps a refutation. */
  lemma RefutedWithoutForced(f: Formula, s: State, vars: set<nat>, kept: set<nat>)
    requires Refuted(f, s, vars)
    requires forall v :: v in vars ==> ForcedBy(f, s, kept, v)
    ensures Refuted(f, s, kept)
  {
    forall a: Assignment | SatisfiesAll(a, f) ensures !AgreesOn(a, s, kept) {
      var v :| v in vars && !Agrees(a, s, v);
      assert ForcedBy(f, s, kept, v);
    }
  }
}
