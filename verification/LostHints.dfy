/** A derivation that loses a hint: its clause was reported deleted while it stayed in the store as a reason. */
module LostHints {
  import opened Logic
  import opened SearchState
  import opened Watching
  import opened Visiting
  import opened Implication
  import opened Analysis
  import opened ProofChain
  import opened Antecedents
  import opened Learning
  import opened Answers
  import opened Attaching
  import opened SearchLoop
  import opened ProofLog
  import opened Probing
  import opened Coordination
  import opened SolverCores
  import Subsumption
  import ForwardSubsumers

  // Five variables and, for each, the literal or its negation.
  const B: Lit := 2
  const NOT_B: Lit := 3
  const X: Lit := 4
  const NOT_X: Lit := 5
  const Y: Lit := 6
  const NOT_Y: Lit := 7
  const P: Lit := 8
  const NOT_P: Lit := 9
  const Q: Lit := 10
  const NOT_Q: Lit := 11

  // The long clause that forces B at the root, and the short one that subsumes it.
  const LONG: Ref := 2
  const SHORT: Ref := 3

  function ClauseOf(r: Ref): Clause {
    if r == 0 then [NOT_X]
    else if r == 1 then [NOT_Y]
    else if r == 2 then [B, X, Y]
    else if r == 3 then [B, X]
    else if r == 4 then [NOT_B, P, Q]
    else [NOT_B, P, NOT_Q]
  }

  /** A formula they may come from: all of them stated. */
  ghost function Stated(): Formula {
    iset r: Ref | r < 6 :: ClauseOf(r)
  }

  /** The clauses held are these, at most in another order of their literals, and whether stated or learned. */
  ghost predicate Holding(db: Database) {
    forall r :: r in db ==> r < 6 && multiset(db[r].lits) == multiset(ClauseOf(r))
  }

  lemma LiteralsOf(db: Database, r: Ref)
    requires Holding(db) && r in db
    ensures |db[r].lits| == |ClauseOf(r)| && forall l :: l in db[r].lits <==> l in ClauseOf(r)
  {
    SameMembers(db[r].lits, ClauseOf(r));
  }

  /** The root of the run: X and Y are false by their units, B is true by the long clause. */
  ghost predicate AtStart(s: State) {
    && s.n == 5 && s.level == 0 && s.trail == [NOT_X, NOT_Y, B]
    && ReasonOf(s, NOT_X) == Because(0) && ReasonOf(s, NOT_Y) == Because(1) && ReasonOf(s, B) == Because(LONG)
  }

  // ---------------------------------------------------------------------------------------------
  // The epoch
  // ---------------------------------------------------------------------------------------------

  /** Only the short clause is part of another one. */
  lemma PartOf(r: Ref, q: Ref)
    requires r < 6 && q < 6 && r != q && forall l :: l in ClauseOf(r) ==> l in ClauseOf(q)
    ensures r == SHORT && q == LONG
  {
    var lits := ClauseOf(r);
    assert lits[0] in lits && lits[|lits| - 1] in lits;
  }

  lemma OneSubsumption(c: Clause, d: Clause, r: Ref, q: Ref)
    requires r < 6 && q < 6 && r != q && multiset(c) == multiset(ClauseOf(r)) && multiset(d) == multiset(ClauseOf(q))
    ensures Subsumption.Subsumes(c, d) <==> r == SHORT && q == LONG
  {
    SameMembers(c, ClauseOf(r));
    SameMembers(d, ClauseOf(q));
    if Subsumption.Subsumes(c, d) {
      hide ClauseOf;
      forall l | l in ClauseOf(r) ensures l in ClauseOf(q) {
        assert l in c;
      }
      PartOf(r, q);
    }
  }

  /** The pass reports the long clause deleted, and no other. */
  lemma EpochDeletes(db: Database, found: seq<Subsumption.Item>, checked: set<Ref>, promotable: set<Ref>,
                     p: Subsumption.Pass)
    requires Holding(db) && db.Keys == {0, 1, 2, 3, 4, 5} && db.Keys <= promotable && SHORT !in checked
    requires Subsumption.Collected(found, db, checked) && p == Subsumption.Swept(found, promotable, |found|)
    requires Subsumption.LogTells(p)
    ensures LONG in Subsumption.DeletedIn(p.log)
            && forall r :: r in db && r != LONG ==> r !in Subsumption.DeletedIn(p.log)
  {
    Subsumption.SweptLater(found, promotable, 0, |found|);
    Subsumption.DeletedAreReplaced(found, promotable, |found|);
    forall r | r in db && r != LONG ensures r !in Subsumption.DeletedIn(p.log) {
      var i :| 0 <= i < |found| && found[i].ref == r;
      assert Subsumption.LaterItem(found[i], p.items[i]);
      if !p.items[i].active {
        assert Subsumption.ReplacedAt(p.items, i);
        var j :| 0 <= j < |found| && j != i && Subsumption.Subsumes(p.items[j].lits, p.items[i].lits);
        assert Subsumption.LaterItem(found[j], p.items[j]);
        OneSubsumption(found[j].lits, found[i].lits, found[j].ref, r);
        assert false;
      }
    }
    var i :| 0 <= i < |found| && found[i].ref == SHORT;
    var j :| 0 <= j < |found| && found[j].ref == LONG;
    assert Subsumption.LaterItem(found[i], p.items[i]) && Subsumption.LaterItem(found[j], p.items[j]);
    OneSubsumption(found[i].lits, found[j].lits, SHORT, LONG);
    NoMarkedPair(db, found, checked);
    Subsumption.NothingSubsumedIsLeft(found, promotable, i, j);
  }

  lemma NoMarkedPair(db: Database, found: seq<Subsumption.Item>, checked: set<Ref>)
    requires Holding(db) && SHORT !in checked && Subsumption.Collected(found, db, checked)
    ensures Subsumption.NoCheckedPair(found) && Subsumption.Signed(found)
    ensures forall promotable :: db.Keys <= promotable ==> Subsumption.AllPromotable(found, promotable)
  {
    forall i, j | 0 <= i < |found| && 0 <= j < |found| && i != j && found[i].checked && found[j].checked
      ensures !Subsumption.Subsumes(found[i].lits, found[j].lits)
    {
      OneSubsumption(found[i].lits, found[j].lits, found[i].ref, found[j].ref);
    }
  }

  // ---------------------------------------------------------------------------------------------
  // The conflict
  // ---------------------------------------------------------------------------------------------

  lemma StartValues(s: State, l: Lit)
    requires SearchOk(s) && AtStart(s)
    ensures Value(s, l) == if l in {NOT_X, NOT_Y, B} then 1 else if l in {X, Y, NOT_B} then -1 else 0
  {
    assert s.trail[0] == NOT_X && s.trail[1] == NOT_Y && s.trail[2] == B;
    TrailEntry(s, 0);
    TrailEntry(s, 1);
    TrailEntry(s, 2);
    if Value(s, l) != 0 {
      Assigned(s, l);
    }
  }

  /** Nothing follows at the root by unit propagation, and no clause is false. */
  lemma RootIsQuiet(s: State, t: State)
    requires SearchOk(s) && AtStart(s) && Holding(s.db) && Progress(s, t) && SearchOk(t)
    ensures AtStart(t) && Holding(t.db) && forall q :: q in t.db ==> !Falsified(t, t.db[q].lits)
  {
    HoldingStays(s.db, t.db);
    StartReasons(s, t);
    NothingFollows(t);
    assert t.trail == t.trail[..3];
    forall q | q in t.db ensures !Falsified(t, t.db[q].lits) {
      LiteralsOf(t.db, q);
      var l := if q == 0 then NOT_X else if q == 1 then NOT_Y else if q == LONG || q == SHORT then B else P;
      StartValues(t, l);
      assert l in ClauseOf(q);
    }
  }

  lemma HoldingStays(db: Database, later: Database)
    requires Holding(db) && SameClauses(db, later)
    ensures Holding(later)
  {
  }

  lemma StartReasons(s: State, t: State)
    requires SearchOk(s) && AtStart(s) && Extends(s, t) && t.level == s.level
    ensures t.n == 5 && t.level == 0 && |t.trail| >= 3 && t.trail[..3] == [NOT_X, NOT_Y, B]
    ensures ReasonOf(t, NOT_X) == Because(0) && ReasonOf(t, NOT_Y) == Because(1) && ReasonOf(t, B) == Because(LONG)
  {
    StartValues(s, NOT_X);
    StartValues(s, NOT_Y);
    StartValues(s, B);
  }

  /** At the root every literal is forced by a clause whose others were false before it. */
  lemma ForcedAt(t: State, i: nat)
    requires SearchOk(t) && t.level == 0 && i < |t.trail|
    ensures ReasonOf(t, t.trail[i]).Because? && ReasonOf(t, t.trail[i]).ref in t.db
    ensures var c := t.db[ReasonOf(t, t.trail[i]).ref].lits;
            t.trail[i] in c && forall m :: m in c && m != t.trail[i] ==> exists j :: 0 <= j < i && t.trail[j] == Neg(m)
    ensures forall j :: 0 <= j < i ==> Var(t.trail[j]) != Var(t.trail[i])
  {
    assert ReasonAt(t, i) && LevelAt(t, i);
    TrailEntry(t, i);
    var c := t.db[ReasonOf(t, t.trail[i]).ref].lits;
    forall m | m in c && m != t.trail[i] ensures exists j :: 0 <= j < i && t.trail[j] == Neg(m) {
      assert Value(t, m) == ValueOnTrail(t, m);
      SameVar(t.trail[Position(t, m)], m);
    }
    forall j | 0 <= j < i ensures Var(t.trail[j]) != Var(t.trail[i]) {
      TrailEntry(t, j);
    }
  }

  /** No clause is unit over the first three literals, but for those that are their reasons. */
  lemma NothingFollows(t: State)
    requires SearchOk(t) && Holding(t.db) && t.level == 0 && |t.trail| >= 3 && t.trail[..3] == [NOT_X, NOT_Y, B]
    ensures |t.trail| == 3
  {
    if |t.trail| > 3 {
      assert t.trail[0] == t.trail[..3][0] && t.trail[1] == t.trail[..3][1] && t.trail[2] == t.trail[..3][2];
      ForcedAt(t, 3);
      var l, r := t.trail[3], ReasonOf(t, t.trail[3]).ref;
      LiteralsOf(t.db, r);
      FalseBefore(t.trail, t.db[r].lits, l, r);
      NotUnit(r, l);
      assert false;
    }
  }

  lemma FalseBefore(trail: seq<Lit>, c: Clause, l: Lit, r: Ref)
    requires |trail| > 3 && trail[0] == NOT_X && trail[1] == NOT_Y && trail[2] == B && trail[3] == l
    requires (forall m :: m in c <==> m in ClauseOf(r)) && forall j :: 0 <= j < 3 ==> Var(trail[j]) != Var(l)
    requires forall m :: m in c && m != l ==> exists j :: 0 <= j < 3 && trail[j] == Neg(m)
    ensures Var(l) != 1 && Var(l) != 2 && Var(l) != 3
            && forall m :: m in ClauseOf(r) && m != l ==> Neg(m) in {NOT_X, NOT_Y, B}
  {
    hide ClauseOf;
    assert Var(trail[0]) == 2 && Var(trail[1]) == 3 && Var(trail[2]) == 1;
    forall m | m in ClauseOf(r) && m != l ensures Neg(m) in {NOT_X, NOT_Y, B} {
      var j :| 0 <= j < 3 && trail[j] == Neg(m);
    }
  }

  lemma NotUnit(r: Ref, l: Lit)
    requires l in ClauseOf(r) && Var(l) != 1 && Var(l) != 2 && Var(l) != 3
    ensures exists m :: m in ClauseOf(r) && m != l && Neg(m) !in {NOT_X, NOT_Y, B}
  {
    var m := if l == P then ClauseOf(r)[2] else P;
    assert m in ClauseOf(r) && m != l && Neg(m) !in {NOT_X, NOT_Y, B};
  }

  /** After the decision against P and its propagation: the root is as it was, and nothing above it is forced but by the
      last two clauses. */
  ghost predicate AtConflict(s: State, t: State) {
    && SearchOk(t) && Holding(t.db) && t.n == 5 && t.level == 1 && Extends(s, t)
    && Value(t, NOT_P) == 1 && Level(t, NOT_P) == 1 && ReasonOf(t, NOT_P) == NoReason
  }

  /** Propagation cannot end without a conflict. */
  lemma NoFixpoint(s: State, t: State)
    requires SearchOk(s) && AtStart(s) && AtConflict(s, t) && 4 in t.db && 5 in t.db
    ensures !(WatchInvariant(t) && t.propagated == |t.trail|)
  {
    if WatchInvariant(t) && t.propagated == |t.trail| {
      StartValues(s, NOT_B);
      Fixpoint(t, 4) by { LiteralsOf(t.db, 4); }
      Fixpoint(t, 5) by { LiteralsOf(t.db, 5); }
      Assigned(t, NOT_P);
      ConflictValues(s, t);
      QIsTrue(t, 4, Q);
      QIsTrue(t, 5, NOT_Q);
      BothTrue(t);
      assert false;
    }
  }

  lemma ConflictValues(s: State, t: State)
    requires SearchOk(s) && AtStart(s) && AtConflict(s, t)
    ensures Value(t, NOT_B) == -1 && Value(t, P) == -1 && Value(t, B) == 1 && Value(t, NOT_X) == 1
            && Value(t, NOT_Y) == 1
    ensures Level(t, B) == 0 && Level(t, NOT_X) == 0 && Level(t, NOT_Y) == 0
    ensures ReasonOf(t, NOT_X) == Because(0) && ReasonOf(t, NOT_Y) == Because(1) && ReasonOf(t, B) == Because(LONG)
  {
    StartValues(s, NOT_B);
    StartValues(s, B);
    StartValues(s, NOT_X);
    StartValues(s, NOT_Y);
    LevelOfAssigned(s, B);
    LevelOfAssigned(s, NOT_X);
    LevelOfAssigned(s, NOT_Y);
    Assigned(t, NOT_P);
  }

  lemma QIsTrue(t: State, r: Ref, l: Lit)
    requires (r == 4 && l == Q) || (r == 5 && l == NOT_Q)
    requires Holding(t.db) && r in t.db && SatisfiedOrOpen(t, t.db[r].lits) && Value(t, NOT_B) == -1
             && Value(t, P) == -1
    requires DatabaseOk(t.n, t.db)
    ensures Value(t, l) == 1
  {
    hide SatisfiedOrOpen, Holding, ClauseOf, Value;
    LiteralsOf(t.db, r);
    OverQ(r, l);
    assert ClauseOk(t.n, t.db[r].lits);
    OneOpen(t, t.db[r].lits, l);
  }

  lemma OneOpen(t: State, c: Clause, l: Lit)
    requires ClauseOk(t.n, c) && SatisfiedOrOpen(t, c) && forall m :: m in c ==> m == NOT_B || m == P || m == l
    requires Value(t, NOT_B) == -1 && Value(t, P) == -1
    ensures Value(t, l) == 1
  {
    hide Value;
    assert forall i :: 0 <= i < |c| ==> c[i] in c;
  }

  lemma OverQ(r: Ref, l: Lit)
    requires (r == 4 && l == Q) || (r == 5 && l == NOT_Q)
    ensures forall m :: m in ClauseOf(r) <==> m == NOT_B || m == P || m == l
  {
  }

  lemma BothTrue(t: State)
    requires SearchOk(t)
    ensures !(Value(t, Q) == 1 && Value(t, NOT_Q) == 1)
  {
    if Value(t, Q) == 1 {
      Assigned(t, Q);
    }
  }

  /** The chain names the units, the long clause and the two clauses over Q, but not the short one. */
  lemma ChainLeavesOutShort(s: State, t: State, chain: seq<Ref>)
    requires SearchOk(s) && AtStart(s) && AtConflict(s, t) && NamesReasons(t, chain)
    ensures forall r :: r in chain ==> r in {0, 1, LONG, 4, 5}
  {
    ConflictValues(s, t);
    forall r | r in chain ensures r in {0, 1, LONG, 4, 5} {
      assert Named(t, r);
      if v: nat :| VarAssigned(t, v) && VarReason(t, v) == Because(r) {
        ReasonIs(t, v, r);
      } else {
        LiteralsOf(t.db, r);
        assert r == SHORT ==> B in ClauseOf(r);
      }
    }
  }

  lemma ReasonIs(t: State, v: nat, r: Ref)
    requires SearchOk(t) && Holding(t.db) && t.n == 5 && VarAssigned(t, v) && VarReason(t, v) == Because(r)
    requires ReasonOf(t, NOT_X) == Because(0) && ReasonOf(t, NOT_Y) == Because(1) && ReasonOf(t, B) == Because(LONG)
    requires ReasonOf(t, NOT_P) == NoReason
    ensures r in {0, 1, LONG, 4, 5}
  {
    VarOnTrail(t, v);
    var i := VarPosition(t, v);
    assert ReasonAt(t, i);
    TrailEntry(t, i);
    LiteralsOf(t.db, r);
    assert t.trail[i] in ClauseOf(r) && Var(t.trail[i]) == v;
    assert v == 1 ==> VarReason(t, v) == ReasonOf(t, B);
    assert v == 2 ==> VarReason(t, v) == ReasonOf(t, NOT_X);
    assert v == 3 ==> VarReason(t, v) == ReasonOf(t, NOT_Y);
    assert v == 4 ==> VarReason(t, v) == ReasonOf(t, NOT_P);
  }

  /** A model of the six clauses in which the literal, one over Q, is false. */
  ghost function ModelAgainst(l: Lit): Assignment {
    if l == Q then iset{1, 4} else iset{1, 4, 5}
  }

  lemma ModelAgainstHolds(l: Lit, r: Ref)
    requires r < 6
    ensures Satisfies(ModelAgainst(l), ClauseOf(r))
  {
    var m := if r == 0 then NOT_X else if r == 1 then NOT_Y else if r < 4 then B else P;
    assert m in ClauseOf(r) && Holds(ModelAgainst(l), m);
  }

  /** Whatever formula the clauses stand for, it leaves Q open. */
  lemma QIsFree(f: Formula, db: Database, l: Lit)
    requires Represents(f, db) && Holding(db) && (l == Q || l == NOT_Q)
    ensures !Entails(f, [l])
  {
    var a := ModelAgainst(l);
    forall r | r in db ensures Satisfies(a, db[r].lits) {
      hide ModelAgainst, ClauseOf;
      LiteralsOf(db, r);
      ModelAgainstHolds(l, r);
      var m :| m in ClauseOf(r) && Holds(a, m);
    }
    hide Represents, Holding, ClauseOf;
    AllSatisfied(f, db, a);
    assert SatisfiesAll(a, f) && !Satisfies(a, [l]);
  }

  lemma AllSatisfied(f: Formula, db: Database, a: Assignment)
    requires Represents(f, db) && forall r :: r in db ==> Satisfies(a, db[r].lits)
    ensures SatisfiesAll(a, f)
  {
    assert SatisfiesPermanent(a, db);
  }

  /** The only clause to learn is the unit P. */
  lemma LearnedIsP(f: Formula, s: State, t: State, c: Clause)
    requires SearchOk(s) && AtStart(s) && AtConflict(s, t) && Represents(f, t.db) && LearnedOk(f, t, c)
    ensures c == [P]
  {
    ConflictValues(s, t);
    Assigned(t, NOT_P);
    assert c[0] in c && ValidLit(5, c[0]);
    if Var(c[0]) == 5 {
      QIsFree(f, t.db, c[0]);
    }
    assert |c| == 1;
    VarsHaveLevels(t, c[0]);
  }

  lemma VarsHaveLevels(t: State, l: Lit)
    requires ValidLit(5, l) && Value(t, l) == -1 && Level(t, l) == 1 && Var(l) != 5 && Value(t, NOT_P) == 1
    requires Level(t, B) == 0 && Level(t, NOT_X) == 0 && Level(t, NOT_Y) == 0
    ensures l == P
  {
    assert Var(l) == 1 ==> Level(t, l) == Level(t, B);
    assert Var(l) == 2 ==> Level(t, l) == Level(t, NOT_X);
    assert Var(l) == 3 ==> Level(t, l) == Level(t, NOT_Y);
  }

  // ---------------------------------------------------------------------------------------------
  // The step that does not check
  // ---------------------------------------------------------------------------------------------

  /** The units derived along such hints are the two root literals, and no more. */
  lemma {:induction false} UnitsAreRoots(live: Database, hints: seq<Ref>, units: seq<Lit>, k: nat)
    requires LratUnits(live, [P], hints, units) && k <= |units|
    requires forall r :: r in hints && r in live ==>
             r in {0, 1, 4, 5} && forall l :: l in live[r].lits <==> l in ClauseOf(r)
    ensures forall j :: 0 <= j < k ==> units[j] in {NOT_X, NOT_Y}
  {
    if k > 0 {
      UnitsAreRoots(live, hints, units, k - 1);
      assert UnitHint(live, Negations([P]), hints, units, k - 1) && hints[k - 1] in hints;
      var r := hints[k - 1];
      assert NOT_P in Negations([P]) by { assert P in [P]; }
      assert P in live[r].lits || r in {0, 1};
      if r in {4, 5} {
        assert NOT_B in live[r].lits && (if r == 4 then Q else NOT_Q) in live[r].lits;
        NotDerived(units, k - 1, B);
        NotDerived(units, k - 1, if r == 4 then NOT_Q else Q);
        assert false;
      }
    }
  }

  lemma NotDerived(units: seq<Lit>, k: nat, l: Lit)
    requires k <= |units| && (forall j :: 0 <= j < k ==> units[j] in {NOT_X, NOT_Y}) && l in {B, Q, NOT_Q, X, Y}
    ensures !Derived(Negations([P]), units, k, l)
  {
  }

  lemma StepFails(live: Database, hints: seq<Ref>)
    requires forall r :: r in hints && r in live ==>
             r in {0, 1, 4, 5} && forall l :: l in live[r].lits <==> l in ClauseOf(r)
    ensures !LratStep(live, [P], hints)
  {
    if LratStep(live, [P], hints) {
      var units: seq<Lit> :| LratUnits(live, [P], hints, units);
      UnitsAreRoots(live, hints, units, |units|);
      var r := hints[|units|];
      var l := if r == 0 then NOT_X else if r == 1 then NOT_Y else NOT_B;
      assert r in hints && l in ClauseOf(r);
      NotDerived(units, |units|, B);
      NotDerived(units, |units|, X);
      NotDerived(units, |units|, Y);
      assert false;
    }
  }

  // ---------------------------------------------------------------------------------------------
  // From the epoch to that step
  // ---------------------------------------------------------------------------------------------

  /** An epoch in which subsumption runs, the iteration that decides against P, and the conflict it leads to. The clause
      learned has a chain that checks over the clauses held; what the consumer is told of it does not check over the
      clauses it knows. */
  method LostHint(core: SolverCore) returns (ran: bool, ghost chain: seq<Ref>)
    requires core.Invariant([]) && core.assumptions == [] && WatchInvariant(core.Snap()) && AtStart(core.Snap())
    requires Holding(core.clauses) && core.clauses.Keys == {0, 1, 2, 3, 4, 5}
    requires core.wantChain && core.proof.ids == core.clauses.Keys && SHORT !in core.subsumer.Marked()
    modifies core, core.heap, core.subsumer
    ensures ran ==> core.learned == [P] && core.proof.log != [] && !EventOk(core.proof.log, |core.proof.log| - 1)
    ensures ran ==> LONG in core.proof.stayed && LONG in chain && LONG !in core.antecedents
  {
    hide *;
    chain := [];
    ran := SubsumeAtRoot(core);
    if ran {
      chain := LearnAgainstP(core);
    }
  }

  /** All the clauses are held, and the consumer knows all but the long one. */
  ghost predicate Told(db: Database, p: Transcript) {
    Holding(db) && db.Keys == {0, 1, 2, 3, 4, 5} && p.ids == {0, 1, 3, 4, 5} && LONG in p.stayed
  }

  /** The epoch reports the long clause deleted and keeps it. */
  method SubsumeAtRoot(core: SolverCore) returns (ran: bool)
    requires core.Invariant([]) && core.assumptions == [] && WatchInvariant(core.Snap()) && AtStart(core.Snap())
    requires Holding(core.clauses) && core.clauses.Keys == {0, 1, 2, 3, 4, 5}
    requires core.wantChain && core.proof.ids == core.clauses.Keys && SHORT !in core.subsumer.Marked()
    modifies core, core.heap, core.subsumer
    ensures ran ==> core.Invariant([]) && core.assumptions == [] && WatchInvariant(core.Snap()) && core.wantChain
    ensures ran ==> AtStart(core.Snap()) && core.propagated == |core.trail|
    ensures ran ==> Told(core.clauses, core.proof)
  {
    hide *;
    ran := EpochAtRoot(core);
    if ran {
      PropagateQuietly(core);
    }
  }

  method EpochAtRoot(core: SolverCore) returns (ran: bool)
    requires core.Invariant([]) && core.assumptions == [] && WatchInvariant(core.Snap()) && AtStart(core.Snap())
    requires Holding(core.clauses) && core.clauses.Keys == {0, 1, 2, 3, 4, 5}
    requires core.wantChain && core.proof.ids == core.clauses.Keys && SHORT !in core.subsumer.Marked()
    modifies core, core.heap, core.subsumer
    ensures ran ==> core.Invariant([]) && core.assumptions == [] && WatchInvariant(core.Snap()) && core.wantChain
    ensures ran ==> AtStart(core.Snap()) && Told(core.clauses, core.proof)
  {
    hide *;
    ghost var s, db, p, marked := core.Snap(), core.clauses, core.proof, core.subsumer.Marked();
    RunningSearch(core);
    core.RunIsStated([]);
    Counted(core);
    StartsAtRoot(s);
    ghost var found;
    ran, found := core.RunEpoch();
    if ran {
      NowIs(core.subsumer);
      EpochTells(s, db, p, found, marked, core.subsumer.Now(), core.clauses, core.proof);
      AfterEpoch(s, core.Snap());
      core.ResumeAtRoot();
    }
  }

  lemma Counted(core: SolverCore)
    requires core.Settled() && core.Invariant([])
    ensures Warranted(core.limits, core.counters) && core.Snap().level == core.level
  {
  }

  lemma NowIs(pass: ForwardSubsumers.ForwardSubsumer)
    ensures pass.Now().log == pass.log
  {
  }

  lemma StartsAtRoot(s: State)
    requires AtStart(s)
    ensures s.level == 0
  {
  }

  /** At the root there is nothing to propagate. */
  method PropagateQuietly(core: SolverCore)
    requires core.Invariant([]) && core.assumptions == [] && WatchInvariant(core.Snap()) && core.wantChain
    requires AtStart(core.Snap()) && Told(core.clauses, core.proof)
    modifies core
    ensures core.Invariant([]) && core.assumptions == [] && WatchInvariant(core.Snap()) && core.wantChain
    ensures AtStart(core.Snap()) && core.propagated == |core.trail|
    ensures Told(core.clauses, core.proof)
  {
    hide *;
    ghost var t := core.Snap();
    RunningSearch(core);
    ToldHolds(core.clauses, core.proof);
    var conflict := core.PropagateRun([]);
    RunningSearch(core);
    RootIsQuiet(t, core.Snap());
    QuietFindsNothing(core.Snap(), conflict);
    StillTold(t, core.Snap(), core.proof);
  }

  lemma ToldHolds(db: Database, p: Transcript)
    requires Told(db, p)
    ensures Holding(db)
  {
  }

  lemma RunningSearch(core: SolverCore)
    requires core.Invariant([])
    ensures SearchOk(core.Snap()) && core.Snap().db == core.clauses && core.Snap().n == core.variableCount
    ensures Represents(core.formula, core.clauses)
  {
    RunningParts(core.formula, core.Snap(), core.Scr(), core.unitRefs, []);
  }

  lemma AfterEpoch(s: State, t: State)
    requires AtStart(s) && SameTrail(s, t)
    ensures AtStart(t)
  {
  }

  lemma QuietFindsNothing(t: State, conflict: Reason)
    requires forall q :: q in t.db ==> !Falsified(t, t.db[q].lits)
    requires conflict.Because? ==> ConflictFound(t, conflict.ref)
    ensures conflict.NoReason?
  {
  }

  lemma StillTold(s: State, t: State, p: Transcript)
    requires Told(s.db, p) && Progress(s, t) && Holding(t.db)
    ensures Told(t.db, p)
  {
  }

  /** What the epoch has done to the store and told of it. */
  lemma EpochTells(s: State, db: Database, p: Transcript, found: seq<Subsumption.Item>, marked: set<Ref>,
                   pass: Subsumption.Pass, later: Database, q: Transcript)
    requires SearchOk(s) && AtStart(s) && s.db == db && Holding(db) && db.Keys == {0, 1, 2, 3, 4, 5} && SHORT !in marked
    requires Subsumption.Collected(found, db, marked) && pass == Subsumption.Swept(found, db.Keys, |found|)
    requires Subsumption.LogTells(pass) && EpochOk(db, TrailReasons(s), later) && p.ids == db.Keys
    requires forall r :: r in later <==> r in db && (r !in Subsumption.DeletedIn(pass.log) || r in TrailReasons(s))
    requires q == TellDeletions(p, Subsumption.Deletions(pass.log), later.Keys)
    ensures Told(later, q)
  {
    hide *;
    EpochDeletes(db, found, marked, db.Keys, pass);
    Subsumption.DeletionsAreIn(pass.log);
    DeletionsAre(p, Subsumption.Deletions(pass.log), later.Keys);
    LongIsReason(s);
    LaterHolds(db, TrailReasons(s), later);
    ToldThen(db, p, pass.log, later, q);
  }

  lemma LongIsReason(s: State)
    requires AtStart(s)
    ensures LONG in TrailReasons(s) && LONG == 2
  {
    assert s.trail[2] == B;
  }

  lemma LaterHolds(db: Database, reasons: set<Ref>, later: Database)
    requires Holding(db) && EpochOk(db, reasons, later)
    ensures Holding(later)
  {
  }

  lemma ToldThen(db: Database, p: Transcript, log: seq<Subsumption.Event>, later: Database, q: Transcript)
    requires Holding(later) && db.Keys == {0, 1, 2, 3, 4, 5} == p.ids && LONG in later
    requires forall r :: r in db && r != LONG ==> r in later
    requires forall r :: r in later ==> r in db
    requires LONG in Subsumption.DeletedIn(log) && forall r :: r in db && r != LONG ==> r !in Subsumption.DeletedIn(log)
    requires forall r :: r in Subsumption.Deletions(log) <==> r in Subsumption.DeletedIn(log)
    requires forall r :: r in q.ids <==> r in p.ids && r !in Subsumption.Deletions(log)
    requires forall r :: r in q.stayed <==> r in p.stayed || (r in Subsumption.Deletions(log) && r in later)
    ensures Told(later, q)
  {
    hide Holding, Subsumption.DeletedIn, Subsumption.Deletions;
    assert forall r :: r in later.Keys <==> r in db;
    assert forall r :: r in q.ids <==> r in {0, 1, 3, 4, 5};
  }

  lemma LongStayed(db: Database, p: Transcript)
    requires Told(db, p)
    ensures LONG in p.stayed
  {
  }

  method LearnAgainstP(core: SolverCore) returns (ghost chain: seq<Ref>)
    requires core.Invariant([]) && core.assumptions == [] && WatchInvariant(core.Snap()) && core.wantChain
    requires AtStart(core.Snap()) && core.propagated == |core.trail|
             && Told(core.clauses, core.proof)
    modifies core, core.heap
    ensures core.learned == [P] && core.proof.log != [] && !EventOk(core.proof.log, |core.proof.log| - 1)
    ensures LONG in core.proof.stayed && LONG in chain && LONG !in core.antecedents
  {
    hide *;
    ghost var s := core.Snap();
    RunningSearch(core);
    var conflict := DecideAgainstP(core);
    ghost var t, p, next := core.Snap(), core.proof, core.nextRef;
    RunningSearch(core);
    assert LONG in p.stayed by { LongStayed(core.clauses, p); }
    chain := core.HandleConflict(conflict);
    LearnedIsP(core.formula, s, t, core.learned);
    StepIsLost(s, t, p, chain);
    LastEvent(p, next, chain);
  }

  /** Decides against P and propagates up to the conflict. */
  method DecideAgainstP(core: SolverCore) returns (conflict: Ref)
    requires core.Invariant([]) && core.assumptions == [] && WatchInvariant(core.Snap()) && core.wantChain
    requires AtStart(core.Snap()) && core.propagated == |core.trail|
             && Told(core.clauses, core.proof)
    modifies core, core.heap
    ensures core.Invariant([]) && core.assumptions == [] && core.wantChain && core.level > 0
    ensures WatchesOk(core.clauses, core.watches) && ConflictFound(core.Snap(), conflict)
    ensures AtConflict(old(core.Snap()), core.Snap()) && Told(core.clauses, core.proof) && core.proof == old(core.proof)
  {
    hide *;
    ghost var s := core.Snap();
    RunningSearch(core);
    PIsOpen(s);
    MayDecide(core, NOT_P);
    core.DecideLit(NOT_P, []);
    ghost var u := core.Snap();
    var reason := core.PropagateRun([]);
    RunningSearch(core);
    StillToldAfter(s.db, core.Snap().db, core.proof, s, u, core.Snap());
    ConflictIsReached(s, u, core.Snap());
    NoFixpoint(s, core.Snap());
    core.SnapIs();
    conflict := reason.ref;
  }

  lemma MayDecide(core: SolverCore, l: Lit)
    requires core.Invariant([])
    ensures Running(core.formula, core.Snap(), core.Scr(), core.unitRefs, []) && Warranted(core.limits, core.counters)
    ensures core.StampsOk() && RefsBelow(core.clauses, core.unitRefs, core.nextRef)
            && |core.savedPhase| == |core.levels|
    ensures core.ProofOk() && core.heap.Valid() && |core.heap.score| > core.variableCount
    ensures Branchable(core.variableCount, core.heap.Candidates())
    ensures CoveredBut(core.variableCount, core.values, Var(l), core.heap.Candidates())
  {
    CoveredAny(core.variableCount, core.values, Var(l), core.heap.Candidates());
  }

  lemma PIsOpen(s: State)
    requires SearchOk(s) && AtStart(s)
    ensures ValidLit(s.n, NOT_P) && Value(s, NOT_P) == 0 && s.level == 0
  {
    StartValues(s, NOT_P);
  }

  lemma StillToldAfter(db: Database, later: Database, p: Transcript, s: State, u: State, t: State)
    requires Told(db, p) && s.db == db && t.db == later && u == Decide(s, NOT_P) && Progress(u, t)
    ensures Told(later, p) && Holding(later) && 4 in later && 5 in later
  {
    DecidesNoClause(s, NOT_P);
    HoldingStays(db, later);
  }

  lemma DecidesNoClause(s: State, l: Lit)
    ensures Decide(s, l).db == s.db
  {
    if InBounds(NewLevelStep(s, l), l) {
      AssignIs(NewLevelStep(s, l), l, NoReason);
    }
  }

  lemma ConflictIsReached(s: State, u: State, t: State)
    requires SearchOk(s) && AtStart(s) && u == Decide(s, NOT_P) && Progress(u, t) && SearchOk(t) && Holding(t.db)
    ensures AtConflict(s, t)
  {
    StartValues(s, NOT_P);
    ValidIsInBounds(s, NOT_P);
    DecidedTables(s, NOT_P);
    DecidedReason(s);
    hide SearchOk, Decide, AtStart;
  }

  lemma DecidedReason(s: State)
    requires SearchOk(s) && AtStart(s) && InBounds(NewLevelStep(s, NOT_P), NOT_P)
    ensures var u := Decide(s, NOT_P);
            u.n == 5 && u.level == 1 && Level(u, NOT_P) == 1 && ReasonOf(u, NOT_P) == NoReason
  {
    AssignTables(NewLevelStep(s, NOT_P), NOT_P, NoReason);
    AssignIs(NewLevelStep(s, NOT_P), NOT_P, NoReason);
  }

  /** The chain cannot do without the long clause, which the consumer no longer knows. */
  lemma StepIsLost(s: State, t: State, p: Transcript, chain: seq<Ref>)
    requires SearchOk(s) && AtStart(s) && AtConflict(s, t) && Told(t.db, p)
    requires NamesReasons(t, chain) && TightStep(t.db, [P], chain)
    ensures LONG in chain && LONG !in p.ids && LONG !in Known(chain, p.ids)
  {
    hide EveryHintCounts, LratStep, Known, ClauseOf;
    ChainLeavesOutShort(s, t, chain);
    AllKnown(chain, p.ids);
    if LONG !in chain {
      NeedsLong(t.db, chain);
    }
  }

  lemma NeedsLong(db: Database, chain: seq<Ref>)
    requires Holding(db) && forall r :: r in chain ==> r in {0, 1, 4, 5}
    ensures !LratStep(db, [P], chain)
  {
    hide LratStep, ClauseOf;
    forall r | r in db ensures forall l :: l in db[r].lits <==> l in ClauseOf(r) {
      LiteralsOf(db, r);
    }
    StepFails(db, chain);
  }

  lemma LastEvent(p: Transcript, r: Ref, chain: seq<Ref>)
    requires !LratStep(Live(p.log), [P], Known(chain, p.ids))
    ensures var q := TellDerivation(p, r, [P], chain);
            q.log != [] && !EventOk(q.log, |q.log| - 1) && q.stayed == p.stayed
  {
    LiveMore(p.log, Derivation(r, [P], Known(chain, p.ids)));
  }

  // ---------------------------------------------------------------------------------------------
  // A state such a run starts from
  // ---------------------------------------------------------------------------------------------

  /** The clauses as propagation has ordered their literals. */
  function HeldAt(r: Ref): Entry {
    Entry(if r == 4 then [P, Q, NOT_B] else if r == 5 then [P, NOT_Q, NOT_B] else ClauseOf(r), false)
  }

  function Held(): Database {
    map r: Ref | 0 <= r < 6 :: HeldAt(r)
  }

  /** The watch lists with the clauses below `k` attached. */
  function Lists(k: nat): (w: seq<seq<Watch>>)
    requires k <= 6
    ensures |w| == 12
  {
    if k <= 2 then seq(12, _ => []) else Attached(Lists(k - 1), Held()[k - 1].lits, k - 1)
  }

  ghost function RefsBefore(k: nat): set<Ref> {
    if k == 0 then {} else RefsBefore(k - 1) + {k - 1}
  }

  lemma {:induction false} RefsBeforeAre(k: nat)
    ensures forall r: Ref :: r in RefsBefore(k) <==> r < k
  {
    if k > 0 {
      RefsBeforeAre(k - 1);
    }
  }

  function Start(): State {
    State(5, Held(), Lists(6), [0, 0, 1, -1, -1, 1, -1, 1, 0, 0, 0, 0], [0, 0, 0, 0, 0, 0],
          [NoReason, Because(LONG), Because(0), Because(1), NoReason, NoReason], [0, 2, 0, 1, 0, 0],
          [NOT_X, NOT_Y, B], [Frame(0, NO_LITERAL)], 3, 0)
  }

  lemma HeldOk()
    ensures DatabaseOk(5, Held()) && Holding(Held()) && forall r: Ref :: r in Held() <==> r < 6
  {
    forall r | r in Held() ensures ClauseOk(5, HeldAt(r).lits) && multiset(HeldAt(r).lits) == multiset(ClauseOf(r)) {
      HeldClauseOk(r);
    }
    hide ClauseOf, HeldAt;
  }

  lemma HeldClauseOk(r: Ref)
    requires r < 6
    ensures ClauseOk(5, HeldAt(r).lits) && multiset(HeldAt(r).lits) == multiset(ClauseOf(r))
  {
    HeldVars(r);
    Rotated(P, Q, NOT_B);
    Rotated(P, NOT_Q, NOT_B);
    hide ClauseOk;
  }

  lemma HeldVars(r: Ref)
    requires r < 6
    ensures ClauseOk(5, HeldAt(r).lits)
  {
  }

  lemma Rotated(a: Lit, b: Lit, c: Lit)
    ensures multiset([a, b, c]) == multiset([c, a, b])
  {
  }

  lemma {:induction false} ListsWatch(k: nat)
    requires k <= 6
    ensures Watched(Held(), Lists(k), RefsBefore(k))
  {
    hide *;
    HeldOk();
    ListsStep(k);
    if k > 0 {
      ListsWatch(k - 1);
      RefsBeforeAre(k - 1);
      HeldSizes(k - 1);
      if k <= 2 {
        SkipUnit(Held(), Lists(k - 1), RefsBefore(k - 1), k - 1);
      } else {
        AttachOne(5, Held(), Lists(k - 1), RefsBefore(k - 1), k - 1);
      }
    }
  }

  lemma ListsStep(k: nat)
    requires k <= 6
    ensures k == 0 ==> Watched(Held(), Lists(k), RefsBefore(k))
    ensures k > 0 ==> RefsBefore(k) == RefsBefore(k - 1) + {k - 1} && |Lists(k - 1)| == 12
    ensures 0 < k <= 2 ==> Lists(k) == Lists(k - 1)
    ensures k > 2 ==>
              && k - 1 in Held() && |Held()[k - 1].lits| >= 2 && Held()[k - 1].lits[0] < 12
                  && Held()[k - 1].lits[1] < 12
              && Lists(k) == Attached(Lists(k - 1), Held()[k - 1].lits, k - 1)
  {
    hide Attached;
  }

  lemma HeldSizes(r: Ref)
    requires r < 6
    ensures r in Held() && (|Held()[r].lits| <= 1 <==> r < 2) && ClauseOk(5, Held()[r].lits)
    ensures r >= 2 ==> {Held()[r].lits[0], Held()[r].lits[1]} == if r < 4 then {B, X} else if r == 4 then {P, Q}
            else {P, NOT_Q}
  {
    HeldVars(r);
    hide ClauseOk;
  }

  lemma ListsAreWatches()
    ensures WatchesOk(Held(), Lists(6))
  {
    hide *;
    ListsWatch(6);
    RefsBeforeAre(6);
    HeldOk();
    assert RefsBefore(6) == Held().Keys;
    AllWatched(Held(), Lists(6));
  }

  lemma StartTables(l: Lit)
    ensures var s := Start();
            && Value(s, l) == (if l in {NOT_X, NOT_Y, B} then 1 else if l in {X, Y, NOT_B} then -1 else 0)
            && Level(s, l) == 0 && (l in {X, NOT_X} ==> Position(s, l) == 0)
                && (l in {Y, NOT_Y} ==> Position(s, l) == 1)
            && (l in {B, NOT_B} ==> Position(s, l) == 2)
    ensures Start().watches == Lists(6) && Start().db == Held() && Start().propagated == 3
  {
    hide Held, Lists;
    if l < 12 {
      assert l in {0, 1, 2, 3, 4, 5, 6, 7, 8, 9, 10, 11};
    }
  }

  lemma StartTrail()
    ensures TrailOk(Start()) && Sized(Start()) && LevelsOk(Start())
  {
    var s := Start();
    hide Held, Lists;
    forall l: Lit ensures Value(s, l) == ValueOnTrail(s, l) {
      StartTables(l);
      if l < 12 {
        assert l in {0, 1, 2, 3, 4, 5, 6, 7, 8, 9, 10, 11};
      }
    }
    assert LevelAt(s, 0) && LevelAt(s, 1) && LevelAt(s, 2);
  }

  lemma StartSearch()
    ensures SearchOk(Start())
  {
    HeldOk();
    StartTrail();
    var s := Start();
    assert NOT_X in HeldAt(0).lits && NOT_Y in HeldAt(1).lits && B in HeldAt(LONG).lits;
    forall i | 0 <= i < 3 ensures ReasonAt(s, i) {
      StartReason(i);
    }
  }

  lemma StartReason(i: nat)
    requires i < 3
    ensures ReasonAt(Start(), i)
  {
    var s := Start();
    StartTables(X);
    StartTables(Y);
    StartTables(s.trail[i]);
    hide Lists;
    var lits := HeldAt(if i == 0 then 0 else if i == 1 then 1 else LONG).lits;
    assert lits[0] in lits;
    assert forall m :: m in lits ==> m == s.trail[i] || m == X || m == Y;
  }

  /** Of the false literals only X is watched, and B is the other watch. */
  lemma {:induction false} FalseLists(k: nat)
    requires k <= 6
    ensures Lists(k)[Y] == [] && Lists(k)[NOT_B] == []
            && forall i :: 0 <= i < |Lists(k)[X]| ==> Lists(k)[X][i].blocking == B
  {
    if k > 2 {
      FalseLists(k - 1);
      FalseListed(Lists(k - 1), k - 1);
    }
  }

  lemma FalseListed(w: seq<seq<Watch>>, r: Ref)
    requires 2 <= r < 6 && |w| == 12 && w[Y] == [] && w[NOT_B] == []
    requires forall i :: 0 <= i < |w[X]| ==> w[X][i].blocking == B
    ensures var u := Attached(w, HeldAt(r).lits, r);
            |u| == 12 && u[Y] == [] && u[NOT_B] == [] && forall i :: 0 <= i < |u[X]| ==> u[X][i].blocking == B
  {
  }

  lemma StartWatches()
    ensures WatchInvariant(Start())
  {
    ListsAreWatches();
    FalseLists(6);
    StartTables(B);
    var s := Start();
    hide Held, Lists, Start, WatchesOk;
    forall l: nat, i: nat | l < |s.watches| && i < |s.watches[l]| && Position(s, l) < 3
        ensures EntrySound(s, l, s.watches[l][i]) {
      StartTables(l);
    }
  }

  lemma StartUnits()
    ensures UnitsTrue(Start()) && UnitsListed(Held(), [0, 1])
  {
    hide Lists, Value;
    var s := Start();
    assert s.db == Held();
    StartTables(NOT_X);
    StartTables(NOT_Y);
    hide Start, Held;
    assert [0, 1][0] == 0 && [0, 1][1] == 1;
    forall r | r in s.db ensures UnitTrue(s, r) {
      HeldSizes(r);
    }
    forall r | r in s.db && |s.db[r].lits| <= 1 ensures r in [0, 1] {
      HeldSizes(r);
    }
    HeldSizes(0);
    HeldSizes(1);
  }

  lemma HeldMeans()
    ensures Represents(Stated(), Held())
  {
    HeldOk();
    forall r, a: Assignment | r < 6 ensures Satisfies(a, HeldAt(r).lits) <==> Satisfies(a, ClauseOf(r)) {
      LiteralsOf(Held(), r);
      SameLiterals(a, HeldAt(r).lits, ClauseOf(r));
    }
    forall r | r in Held() ensures Entails(Stated(), Held()[r].lits) {
      assert ClauseOf(r) in Stated();
    }
    forall a: Assignment | SatisfiesPermanent(a, Held()) ensures SatisfiesAll(a, Stated()) {
      forall c | c in Stated() ensures Satisfies(a, c) {
        var r: Ref :| r < 6 && c == ClauseOf(r);
        assert r in Held() && Satisfies(a, Held()[r].lits);
      }
    }
  }

  /** The invariants of the search allow such a state. */
  lemma StartIsSound(x: Scratch)
    requires x == Scratch(seq(6, _ => NO_FLAGS), [], [], [], [NO_SEEN])
    ensures Running(Stated(), Start(), x, [0, 1], []) && WatchInvariant(Start())
    ensures AtStart(Start()) && Holding(Held()) && Start().propagated == |Start().trail|
  {
    StartSearch();
    StartWatches();
    HeldMeans();
    HeldOk();
    StartUnits();
    hide SearchOk, WatchInvariant, Represents, Held, Lists, UnitsTrue, UnitsListed;
  }
}
