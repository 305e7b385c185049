/** Failed-literal probing: what a single trial decision shows about the formula. */
module Probing {
  import opened Logic
  import opened SearchState
  import opened Watching
  import opened Implication
  import opened Visiting
  import opened Analysis
  import opened Answers
  import opened Attaching
  import opened SearchLoop
  import opened Confluence

  const PROBE_ROUNDS: nat := 3
  const PROBE_ROUND_GROWTH: nat := 4

  /** Every model of the formula in which `l` is true makes `m` true. */
  ghost predicate ImpliedBy(f: Formula, l: Lit, m: Lit) {
    forall a: Assignment :: SatisfiesAll(a, f) && Holds(a, l) ==> Holds(a, m)
  }

  /** The trial decision is the only decision. */
  ghost predicate OnTrial(s: State, l: Lit) {
    s.level == 1 && |s.control| == 2 && s.control[1].decision == l
  }

  lemma ProbeImplies(f: Formula, s: State, l: Lit, i: nat)
    requires SearchOk(s) && DatabaseEntailed(f, s.db) && OnTrial(s, l) && i < |s.trail|
    ensures ImpliedBy(f, l, s.trail[i])
  {
    forall a: Assignment | SatisfiesAll(a, f) && Holds(a, l) ensures Holds(a, s.trail[i]) {
      forall j | 0 <= j <= i && ReasonOf(s, s.trail[j]).NoReason? ensures Holds(a, s.trail[j]) {
        assert ReasonAt(s, j);
      }
      DecisionsForce(f, s, a, i);
    }
  }

  /** A conflict under the trial decision makes its negation a consequence. */
  lemma ProbeConflict(f: Formula, s: State, l: Lit, q: Ref)
    requires SearchOk(s) && DatabaseEntailed(f, s.db) && OnTrial(s, l) && q in s.db && Falsified(s, s.db[q].lits)
    ensures Entails(f, [Neg(l)])
  {
    assert Entails(f, s.db[q].lits);
    forall a: Assignment | SatisfiesAll(a, f) ensures Satisfies(a, [Neg(l)]) {
      var m :| m in s.db[q].lits && Holds(a, m);
      Assigned(s, m);
      ProbeImplies(f, s, l, Position(s, m));
      assert Holds(a, l) ==> Holds(a, Neg(m));
      assert Neg(l) in [Neg(l)];
    }
  }

  /** What both polarities of a variable imply is a consequence. */
  lemma BothImply(f: Formula, l: Lit, m: Lit)
    requires ImpliedBy(f, l, m) && ImpliedBy(f, Neg(l), m)
    ensures Entails(f, [m])
  {
    forall a: Assignment | SatisfiesAll(a, f) ensures Satisfies(a, [m]) {
      assert Holds(a, l) || Holds(a, Neg(l));
      assert m in [m];
    }
  }

  /** Two states with one trail give every literal one value. */
  lemma SameTrailSameValue(s: State, t: State, l: Lit)
    requires Sized(s) && TrailOk(s) && Sized(t) && TrailOk(t) && s.trail == t.trail
    ensures Value(t, l) == Value(s, l)
  {
    Assigned(s, l);
    Assigned(t, l);
    if Value(s, l) != 0 {
      TrailEntry(t, Position(s, l));
    }
    if Value(t, l) != 0 {
      TrailEntry(s, Position(t, l));
    }
  }

  /** The literals a trial decision has put on the trail behind itself. */
  ghost predicate Implications(f: Formula, n: nat, l: Lit, implied: seq<Lit>) {
    forall i :: 0 <= i < |implied| ==> ImpliedBy(f, l, implied[i]) && ValidLit(n, implied[i])
  }

  lemma ProbeShows(f: Formula, s: State, l: Lit, begin: nat)
    requires SearchOk(s) && DatabaseEntailed(f, s.db) && OnTrial(s, l) && begin <= |s.trail|
    ensures Implications(f, s.n, l, s.trail[begin..])
  {
    var implied := s.trail[begin..];
    forall i | 0 <= i < |implied| ensures ImpliedBy(f, l, implied[i]) && ValidLit(s.n, implied[i]) {
      ProbeImplies(f, s, l, begin + i);
      TrailEntry(s, begin + i);
    }
  }

  /** The table marks exactly the listed literals. */
  ghost predicate MarksExact(marks: seq<bool>, marked: seq<Lit>) {
    && (forall l :: 0 <= l < |marks| ==> (marks[l] <==> l in marked))
    && (forall l :: l in marked ==> l < |marks|)
  }

  lemma MarkOneMore(marks: seq<bool>, marked: seq<Lit>, l: Lit)
    requires MarksExact(marks, marked) && l < |marks|
    ensures MarksExact(marks[l := true], marked + [l])
  {
    assert (marked + [l])[|marked|] == l;
  }

  /** The clauses are those from before, some reordered, and learned units. */
  ghost predicate OnlyUnitsAdded(db: Database, later: Database) {
    && db.Keys <= later.Keys
    && forall r :: r in later ==>
         if r in db then later[r].redundant == db[r].redundant && multiset(later[r].lits) == multiset(db[r].lits)
         else later[r].redundant && |later[r].lits| == 1
  }

  lemma NothingAdded(db: Database, later: Database)
    requires SameClauses(db, later)
    ensures OnlyUnitsAdded(db, later)
  {
  }

  lemma AddedTransitive(db: Database, later: Database, latest: Database)
    requires OnlyUnitsAdded(db, later) && OnlyUnitsAdded(later, latest)
    ensures OnlyUnitsAdded(db, latest)
  {
    forall r | r in latest && r !in db && r in later ensures |latest[r].lits| == 1 {
      SameMembers(later[r].lits, latest[r].lits);
    }
  }

  lemma AddedProgress(db: Database, s: State, t: State)
    requires OnlyUnitsAdded(db, s.db) && Progress(s, t)
    ensures OnlyUnitsAdded(db, t.db)
  {
    NothingAdded(s.db, t.db);
    AddedTransitive(db, s.db, t.db);
  }

  lemma UnitAdded(db: Database, r: Ref, l: Lit)
    requires r !in db
    ensures OnlyUnitsAdded(db, db[r := Entry([l], true)])
  {
  }

  /** No literal loses its value. */
  ghost predicate KeepsValues(s: State, t: State) {
    forall l: Lit :: Value(s, l) != 0 ==> Value(t, l) == Value(s, l)
  }

  /** A unit learned at the root stays true. */
  lemma UnitKept(s: State, t: State, u: State, unit: Lit)
    requires KeepsValues(s, t) && Value(t, unit) == 1 && Progress(t, u)
    ensures KeepsValues(s, u) && Value(u, unit) == 1
  {
  }

  ghost predicate AllHaveValues(s: State, lits: seq<Lit>) {
    forall i :: 0 <= i < |lits| ==> Value(s, lits[i]) != 0
  }

  lemma NoneHaveValues(s: State, lits: seq<Lit>)
    ensures AllHaveValues(s, lits[..0]) && KeepsValues(s, s)
  {
  }

  lemma ValuesKept(s: State, t: State, u: State, lits: seq<Lit>)
    requires KeepsValues(s, t) && KeepsValues(t, u) && AllHaveValues(t, lits)
    ensures KeepsValues(s, u) && AllHaveValues(u, lits)
  {
  }

  lemma OneMoreValue(s: State, lits: seq<Lit>, i: nat)
    requires i < |lits| && AllHaveValues(s, lits[..i]) && Value(s, lits[i]) != 0
    ensures AllHaveValues(s, lits[..i + 1])
  {
  }

  /** A learned unit asserts at the root. */
  lemma RunningUnit(f: Formula, s: State, x: Scratch, units: seq<Ref>, assumptions: seq<Lit>, l: Lit, r: Ref)
    requires Running(f, s, x, units, assumptions) && WatchInvariant(s) && s.level == 0
    requires ValidLit(s.n, l) && Value(s, l) == 0 && Entails(f, [l]) && r !in s.db && r !in units
    ensures InBounds(WithClause(s, r, Entry([l], true)), l)
    ensures var u := AssignStep(WithClause(s, r, Entry([l], true)), l, Because(r));
            && Running(f, u, x, units + [r], assumptions) && WatchInvariant(u) && u.level == 0
            && u.db == s.db[r := Entry([l], true)] && KeepsValues(s, u) && Value(u, l) == 1
  {
    assert Asserting(s, [l]);
    AssignTables(WithClause(s, r, Entry([l], true)), l, Because(r));
    RunningLearn(f, s, x, units, assumptions, [l], r);
    AssignIs(WithClause(s, r, Entry([l], true)), l, Because(r));
  }

  /** Going back from a trial decision to the root leaves the trail as it was before it. */
  lemma TrialUndone(s: State, t: State, u: State)
    requires SearchOk(s) && s.level == 0 && SearchOk(t) && t.level == 1 && t.n == s.n && SearchOk(u)
    requires |s.trail| <= |t.trail| && t.trail[..|s.trail|] == s.trail && Begin(t, 1) == |s.trail|
    requires u == BackTo(t, 0)
    ensures u.trail == s.trail && u.level == 0 && u.db == t.db && u.n == s.n && u.propagated == |s.trail|
    ensures u.control == t.control[..1]
    ensures forall l: Lit :: Value(u, l) == Value(s, l)
  {
    BacktrackTables(t, 0);
    BacktrackIs(t, 0);
    forall l: Lit ensures Value(u, l) == Value(s, l) {
      SameTrailSameValue(s, u, l);
    }
  }

  /** Deciding a trial literal and propagating, then going back. */
  lemma TrialFacts(f: Formula, s: State, t: State, u: State, l: Lit, conflict: Reason)
    requires SearchOk(s) && s.level == 0 && InBounds(NewLevelStep(s, l), l) && SearchOk(t) && Progress(Decide(s, l), t)
    requires DatabaseEntailed(f, t.db) && SearchOk(u) && u == BackTo(t, 0)
    requires if conflict.Because? then ConflictFound(t, conflict.ref) else t.propagated == |t.trail|
    ensures u.trail == s.trail && u.level == 0 && |s.trail| + 1 <= |t.trail|
    ensures u.propagated == |u.trail|
    ensures forall m: Lit :: Value(u, m) == Value(s, m)
    ensures conflict.Because? ==> Entails(f, [Neg(l)])
    ensures Implications(f, s.n, l, t.trail[|s.trail| + 1..])
    ensures OnlyUnitsAdded(s.db, u.db) && SameRoot(s, u)
  {
    var d := Decide(s, l);
    AssignIs(NewLevelStep(s, l), l, NoReason);
    assert d.trail[..|s.trail|] == s.trail;
    assert t.trail[..|s.trail|] == t.trail[..|d.trail|][..|s.trail|];
    hide AssignStep;
    TrialUndone(s, t, u);
    NothingAdded(s.db, t.db);
    assert OnTrial(t, l);
    ProbeShows(f, t, l, |s.trail| + 1);
    if conflict.Because? {
      ProbeConflict(f, t, l, conflict.ref);
    }
  }

  // ---------------------------------------------------------------------------------------------
  // What a trial finds
  // ---------------------------------------------------------------------------------------------

  /** Deciding `l` at `s` and propagating leads to `t`, a conflict or a fixpoint. */
  ghost predicate Tried(s: State, l: Lit, t: State, failed: bool) {
    && SearchOk(t) && UnitsTrue(t) && t.n == s.n && SameClauses(s.db, t.db)
    && PropagatedFrom(t, s.trail + [l]) && t.control == s.control + [Frame(|s.trail|, l)]
    && if failed then HasConflict(t) else Quiet(t)
  }

  /** What the trial has put on the trail after its decision. */
  function Consequences(s: State, t: State): seq<Lit>
    requires |s.trail| < |t.trail|
  {
    t.trail[|s.trail| + 1..]
  }

  /** A failed literal: deciding it leads to a conflict. */
  ghost predicate FailedLiteral(s: State, l: Lit) {
    exists t: State :: Tried(s, l, t, true)
  }

  /** Deciding `l` makes the open literal `m` true. */
  ghost predicate LeadsTo(s: State, l: Lit, m: Lit) {
    exists t: State :: Tried(s, l, t, false) && m in Consequences(s, t)
  }

  /** The literal occurs in a binary clause. */
  ghost predicate InBinary(db: Database, l: Lit) {
    exists r: Ref :: r in db && |db[r].lits| == 2 && l in db[r].lits
  }

  /** Probing an open variable that occurs in a binary clause would find nothing: neither polarity fails, and they lead
      to no literal in common. */
  ghost predicate NothingAt(s: State, v: nat) {
    var l := MakeLit(v, false);
    Value(s, l) == 0 && (InBinary(s.db, l) || InBinary(s.db, Neg(l))) ==>
      !FailedLiteral(s, l) && !FailedLiteral(s, Neg(l)) && NothingShared(s, l)
  }

  ghost predicate NothingShared(s: State, l: Lit) {
    forall m: Lit :: !(LeadsTo(s, l, m) && LeadsTo(s, Neg(l), m))
  }

  /** Probing would find nothing at any variable. */
  ghost predicate ProbedOut(s: State) {
    forall v: nat :: 1 <= v <= s.n ==> NothingAt(s, v)
  }

  /** The same trail over the same clauses. */
  ghost predicate SameRoot(s: State, t: State) {
    t.n == s.n && t.trail == s.trail && t.control == s.control && SameClauses(s.db, t.db)
  }

  lemma RootsJoin(s: State, t: State, u: State)
    ensures SameRoot(s, t) && SameRoot(t, u) ==> SameRoot(s, u)
  {
  }

  lemma TriedElsewhere(s: State, t: State, l: Lit, u: State, failed: bool)
    requires SameRoot(s, t) || SameRoot(t, s)
    ensures Tried(s, l, u, failed) ==> Tried(t, l, u, failed)
  {
    hide SearchOk, UnitsTrue, Quiet, HasConflict;
  }

  /** A literal either fails every time it is tried or never. */
  lemma FailsEveryTime(s: State, l: Lit, t: State)
    requires Tried(s, l, t, false)
    ensures !FailedLiteral(s, l)
  {
    if FailedLiteral(s, l) {
      var u: State :| Tried(s, l, u, true);
      assert SameClauses(t.db, u.db);
      assert Siblings(t, u, s.trail + [l]);
      ConflictEveryTime(t, u, s.trail + [l]);
    }
  }

  /** A literal leads to the same literals every time it is tried. */
  lemma LeadsEveryTime(s: State, l: Lit, t: State, m: Lit)
    requires Tried(s, l, t, false) && LeadsTo(s, l, m)
    ensures m in Consequences(s, t)
  {
    var base := s.trail + [l];
    var u: State :| Tried(s, l, u, false) && m in Consequences(s, u);
    assert SameClauses(t.db, u.db);
    assert Siblings(t, u, base);
    var i :| |base| <= i < |u.trail| && u.trail[i] == m;
    Reached(t, u, base, i);
    TrailEntry(u, i);
    OnlyOnce(t, u, base, i);
  }

  lemma OnlyOnce(t: State, u: State, base: seq<Lit>, i: nat)
    requires SearchOk(t) && SearchOk(u) && PropagatedFrom(t, base) && PropagatedFrom(u, base)
    requires |base| <= i < |u.trail| && Value(t, u.trail[i]) == 1
    ensures u.trail[i] in t.trail[|base|..]
  {
    var m := u.trail[i];
    var j := Position(t, m);
    Assigned(t, m);
    TrailEntry(t, j);
    SameVar(t.trail[j], m);
    assert t.trail[j] == m;
    if j < |base| {
      assert u.trail[..|base|][j] == t.trail[..|base|][j];
      TrailEntry(u, j);
      TrailEntry(u, i);
    }
    assert t.trail[|base|..][j - |base|] == m;
  }

  lemma NothingElsewhere(s: State, t: State, v: nat)
    requires SearchOk(s) && SearchOk(t) && SameRoot(s, t) && NothingAt(s, v)
    ensures NothingAt(t, v)
  {
    hide SearchOk, FailedLiteral, Value, InBinary, SameRoot, NothingShared;
    var l := MakeLit(v, false);
    RootTables(s, t, l);
    FailsElsewhere(t, s, l);
    FailsElsewhere(t, s, Neg(l));
    SharedElsewhere(t, s, l);
  }

  lemma RootTables(s: State, t: State, l: Lit)
    requires SearchOk(s) && SearchOk(t) && SameRoot(s, t)
    ensures Value(t, l) == Value(s, l)
    ensures InBinary(s.db, l) <==> InBinary(t.db, l)
    ensures InBinary(s.db, Neg(l)) <==> InBinary(t.db, Neg(l))
  {
    SameTrailSameValue(s, t, l);
    SameBinaries(s.db, t.db, l);
    SameBinaries(s.db, t.db, Neg(l));
  }

  lemma SharedElsewhere(t: State, s: State, l: Lit)
    requires SameRoot(s, t)
    ensures NothingShared(s, l) ==> NothingShared(t, l)
  {
    hide SameRoot, LeadsTo;
    forall m: Lit ensures (LeadsTo(t, l, m) ==> LeadsTo(s, l, m)) && (LeadsTo(t, Neg(l), m) ==> LeadsTo(s, Neg(l), m)) {
      LeadsElsewhere(t, s, l, m);
      LeadsElsewhere(t, s, Neg(l), m);
    }
  }

  lemma FailsElsewhere(t: State, s: State, l: Lit)
    requires SameRoot(s, t)
    ensures FailedLiteral(t, l) ==> FailedLiteral(s, l)
  {
    if FailedLiteral(t, l) {
      var u: State :| Tried(t, l, u, true);
      TriedElsewhere(t, s, l, u, true);
    }
  }

  lemma LeadsElsewhere(t: State, s: State, l: Lit, m: Lit)
    requires SameRoot(s, t)
    ensures LeadsTo(t, l, m) ==> LeadsTo(s, l, m)
  {
    if LeadsTo(t, l, m) {
      var u: State :| Tried(t, l, u, false) && m in Consequences(t, u);
      TriedElsewhere(t, s, l, u, false);
    }
  }

  lemma SameBinaries(db: Database, later: Database, l: Lit)
    requires SameClauses(db, later)
    ensures InBinary(db, l) <==> InBinary(later, l)
  {
    forall r | r in db ensures |later[r].lits| == |db[r].lits| && (l in later[r].lits <==> l in db[r].lits) {
      SameMembers(db[r].lits, later[r].lits);
    }
  }

  /** Deciding and propagating is a trial. */
  lemma TrialIs(s: State, l: Lit, t: State, failed: bool)
    requires SearchOk(s) && s.level == 0 && InBounds(NewLevelStep(s, l), l) && SearchOk(t) && UnitsTrue(t)
    requires Progress(Decide(s, l), t) && if failed then HasConflict(t) else Quiet(t)
    ensures Tried(s, l, t, failed) && |s.trail| < |t.trail|
  {
    var d := Decide(s, l);
    AssignIs(NewLevelStep(s, l), l, NoReason);
    assert d.trail == s.trail + [l] && d.control == s.control + [Frame(|s.trail|, l)];
    hide AssignStep, Value, Level, Position, WatchInvariant, UnitsTrue, HasConflict;
    forall i | |d.trail| <= i < |t.trail| ensures ReasonOf(t, t.trail[i]).Because? {
      assert ReasonAt(t, i);
      FramesBegin(s);
    }
  }

  /** What a trial puts on the trail was open. */
  lemma ConsequencesOpen(s: State, l: Lit, t: State, m: Lit)
    requires SearchOk(s) && Tried(s, l, t, false) && m in Consequences(s, t)
    ensures Value(s, m) == 0
  {
    var i :| |s.trail| < i < |t.trail| && t.trail[i] == m;
    Assigned(s, m);
    if Value(s, m) != 0 {
      var j := Position(s, m);
      assert t.trail[..|s.trail| + 1][j] == (s.trail + [l])[j] == s.trail[j];
      TrailEntry(t, i);
      TrailEntry(t, j);
      TrailEntry(s, j);
    }
  }

  lemma TrialLengths(s: State, l: Lit, t: State, failed: bool)
    requires Tried(s, l, t, failed)
    ensures |s.trail| < |t.trail| <= s.n
  {
    TrailFits(t);
  }

  /** What is left of an effort. */
  function Spent(effort: nat, grown: nat): nat {
    if grown >= effort then 0 else effort - grown
  }

  /** More than a whole round can take. */
  function RoundCost(n: nat): nat {
    2 * n * n
  }

  lemma MoreSpent(effort: nat, n: nat, v: nat)
    requires v >= 1
    ensures 2 * n * (v - 1) + 2 * n == 2 * n * v
  {
  }

  lemma SpentOnAll(effort: nat, n: nat, v: nat)
    requires 1 <= v <= n + 1
    ensures 2 * n * (v - 1) <= RoundCost(n)
  {
    assert 2 * n * (v - 1) + 2 * n * (n + 1 - v) == 2 * n * n;
  }

  /** What probing a variable at `s` comes to at `t`: nothing when it has a value or occurs in no binary clause; the
      negation of a failed literal is true, and, with effort left over, what both polarities lead to has a value. */
  ghost predicate ProbedAt(s: State, v: nat, whole: bool, t: State) {
    var l := MakeLit(v, false);
    if Value(s, l) != 0 || !(InBinary(s.db, l) || InBinary(s.db, Neg(l))) then t == s
    else
      && (FailedLiteral(s, l) ==> Value(t, Neg(l)) == 1)
      && (whole && !FailedLiteral(s, l) && FailedLiteral(s, Neg(l)) ==> Value(t, l) == 1)
      && (whole ==> forall m: Lit :: LeadsTo(s, l, m) && LeadsTo(s, Neg(l), m) ==> Value(t, m) != 0)
  }

  lemma NotProbed(s: State, v: nat, whole: bool)
    requires var l := MakeLit(v, false); Value(s, l) != 0 || !(InBinary(s.db, l) || InBinary(s.db, Neg(l)))
    ensures ProbedAt(s, v, whole, s)
  {
  }

  lemma SameRootItself(s: State)
    ensures SameRoot(s, s)
  {
  }

  lemma KeepsFromRoot(s: State, root: State, t: State)
    requires (forall l: Lit :: Value(root, l) == Value(s, l)) && KeepsValues(root, t)
    ensures KeepsValues(s, t)
  {
  }

  lemma EachHasValue(s: State, lits: seq<Lit>)
    requires AllHaveValues(s, lits)
    ensures forall l :: l in lits ==> Value(s, l) != 0
  {
  }

  /** Only the first polarity was tried: it failed, or no effort was left. */
  lemma PositiveProbed(s: State, l: Lit, t: State, failed: bool, whole: bool, now: State)
    requires Tried(s, l, t, failed) && !IsNegated(l) && Value(s, l) == 0 && (failed || !whole)
    requires failed ==> Value(now, Neg(l)) == 1
    requires InBinary(s.db, l) || InBinary(s.db, Neg(l))
    ensures ProbedAt(s, Var(l), whole, now)
  {
    hide Tried, Value, SameRoot;
    if !failed {
      FailsEveryTime(s, l, t);
    } else {
      NoneLead(s, l, t);
    }
  }

  lemma LeadingDoesNotFail(s: State, l: Lit, m: Lit, t: State)
    requires LeadsTo(s, l, m)
    ensures !Tried(s, l, t, true)
  {
    var u: State :| Tried(s, l, u, false) && m in Consequences(s, u);
    FailsEveryTime(s, l, u);
  }

  /** Both polarities were tried, the second where the first had left the state. */
  lemma BothProbed(s: State, middle: State, l: Lit, t: State, u: State, other: bool, ok: bool, whole: bool,
                   now: State)
    requires Tried(s, l, t, false) && SameRoot(s, middle) && Tried(middle, Neg(l), u, other) && !IsNegated(l)
    requires Value(s, l) == 0 && (InBinary(s.db, l) || InBinary(s.db, Neg(l)))
    requires other ==> Value(now, l) == 1
    requires !other && ok ==>
               forall m :: m in Consequences(s, t) && m in Consequences(middle, u) ==> Value(now, m) != 0
    ensures ok ==> ProbedAt(s, Var(l), whole, now)
  {
    hide Tried, Value, SameRoot, InBinary, Consequences, FailedLiteral, LeadsTo;
    TrialLengths(s, l, t, false);
    TrialLengths(middle, Neg(l), u, other);
    TriedElsewhere(middle, s, Neg(l), u, other);
    FailsEveryTime(s, l, t);
    if other {
      NoneLead(s, Neg(l), u);
    } else {
      FailsEveryTime(s, Neg(l), u);
      SharedAre(s, middle, l, t, u);
    }
  }

  lemma NoneLead(s: State, l: Lit, t: State)
    requires Tried(s, l, t, true)
    ensures forall m: Lit :: !LeadsTo(s, l, m)
  {
    forall m: Lit ensures !LeadsTo(s, l, m) {
      if LeadsTo(s, l, m) {
        LeadingDoesNotFail(s, l, m, t);
      }
    }
  }

  lemma SharedAre(s: State, middle: State, l: Lit, t: State, u: State)
    requires Tried(s, l, t, false) && SameRoot(s, middle) && Tried(s, Neg(l), u, false)
    ensures |s.trail| < |t.trail| && |middle.trail| < |u.trail|
    ensures forall m: Lit :: LeadsTo(s, l, m) && LeadsTo(s, Neg(l), m) ==>
              m in Consequences(s, t) && m in Consequences(middle, u)
  {
    TrialLengths(s, l, t, false);
    TrialLengths(s, Neg(l), u, false);
    SameRootTrail(s, middle);
    hide Tried, SameRoot, LeadsTo;
    forall m: Lit | LeadsTo(s, l, m) && LeadsTo(s, Neg(l), m)
      ensures m in Consequences(s, t) && m in Consequences(middle, u)
    {
      LeadsEveryTime(s, l, t, m);
      LeadsEveryTime(s, Neg(l), u, m);
    }
  }

  lemma SameRootTrail(s: State, t: State)
    requires SameRoot(s, t)
    ensures s.trail == t.trail
  {
  }

  /** Probing would find nothing at the variables below `v`. */
  ghost predicate ProbedUpTo(s: State, v: nat) {
    forall u: nat :: 1 <= u < v ==> NothingAt(s, u)
  }

  lemma ProbedNone(s: State)
    ensures ProbedUpTo(s, 1)
  {
  }

  lemma ProbedAll(s: State)
    requires ProbedUpTo(s, s.n + 1)
    ensures ProbedOut(s)
  {
  }

  /** A variable probed with effort left over and without a unit has nothing left to find. */
  lemma ProbedOneMore(s: State, v: nat, t: State)
    requires SearchOk(s) && SearchOk(t) && SameRoot(s, t) && ProbedUpTo(s, v) && ProbedAt(s, v, true, t)
    ensures ProbedUpTo(t, v + 1)
  {
    hide SearchOk, SameRoot, NothingAt, ProbedAt;
    forall u: nat | 1 <= u < v + 1 ensures NothingAt(t, u) {
      if u == v {
        NothingFound(s, v, t);
      }
      NothingElsewhere(s, t, u);
    }
  }

  lemma NothingFound(s: State, v: nat, t: State)
    requires SearchOk(s) && SearchOk(t) && SameRoot(s, t) && ProbedAt(s, v, true, t)
    ensures NothingAt(s, v)
  {
    hide FailedLiteral, Value, InBinary, SameRoot, SearchOk;
    var l := MakeLit(v, false);
    RootTables(s, t, l);
    RootTables(s, t, Neg(l));
    forall m: Lit | LeadsTo(s, l, m) ensures Value(t, m) == 0 {
      var u: State :| Tried(s, l, u, false) && m in Consequences(s, u);
      ConsequencesOpen(s, l, u, m);
      RootTables(s, t, m);
    }
    if Value(s, l) == 0 {
      OppositeValue(s, l);
    }
  }

  lemma OppositeValue(s: State, l: Lit)
    requires SearchOk(s) && Value(s, l) == 0
    ensures Value(s, Neg(l)) == 0
  {
    Assigned(s, l);
  }

  /** Every binary clause is watched by both its literals, and marked as one. */
  lemma BinariesWatched(s: State, l: Lit)
    requires WatchesOk(s.db, s.watches) && l < |s.watches|
    ensures (exists i :: 0 <= i < |s.watches[l]| && s.watches[l][i].binary) <==> InBinary(s.db, l)
  {
    if i :| 0 <= i < |s.watches[l]| && s.watches[l][i].binary {
      assert EntryOk(s.db, l, s.watches[l][i]);
    }
    if InBinary(s.db, l) {
      var r: Ref :| r in s.db && |s.db[r].lits| == 2 && l in s.db[r].lits;
      assert HasEntry(s.watches, l, r);
      var i: nat :| i < |s.watches[l]| && s.watches[l][i].ref == r;
      assert EntryOk(s.db, l, s.watches[l][i]);
    }
  }

  lemma FramesBegin(s: State)
    requires SearchOk(s)
    ensures forall k :: 0 <= k < |s.control| ==> s.control[k].trailBegin <= |s.trail|
  {
    forall k: nat | k < |s.control| ensures s.control[k].trailBegin <= |s.trail| {
      BeginsOrdered(s, k, |s.control|);
    }
  }

  lemma TrialLonger(s: State, l: Lit)
    requires SearchOk(s) && ValidLit(s.n, l)
    ensures InBounds(NewLevelStep(s, l), l)
  {
    ValidIsInBounds(s, l);
  }

  lemma TrialGrows(s: State, l: Lit, t: State, conflict: Reason)
    requires InBounds(NewLevelStep(s, l), l) && Progress(Decide(s, l), t) && s.level == 0
    requires if conflict.Because? then ConflictFound(t, conflict.ref)
             && WatchesOk(t.db, t.watches) else WatchInvariant(t)
    ensures |t.trail| > |s.trail| && SoundOrStopped(t, 0)
  {
    AssignIs(NewLevelStep(s, l), l, NoReason);
  }

  /** The lifted literals follow from the formula. */
  ghost predicate AllEntailed(f: Formula, n: nat, lits: seq<Lit>) {
    forall i :: 0 <= i < |lits| ==> Entails(f, [lits[i]]) && ValidLit(n, lits[i])
  }

  lemma LiftOne(f: Formula, n: nat, l: Lit, implied: seq<Lit>, other: seq<Lit>, i: nat, lifted: seq<Lit>)
    requires Implications(f, n, l, implied) && Implications(f, n, Neg(l), other) && AllEntailed(f, n, lifted)
    requires i < |other| && other[i] in implied
    ensures AllEntailed(f, n, lifted + [other[i]])
  {
    var j :| 0 <= j < |implied| && implied[j] == other[i];
    assert ImpliedBy(f, l, implied[j]) && ImpliedBy(f, Neg(l), other[i]);
    BothImply(f, l, other[i]);
  }

  lemma ImpliedInBounds(f: Formula, n: nat, l: Lit, implied: seq<Lit>)
    requires Implications(f, n, l, implied)
    ensures forall i :: 0 <= i < |implied| ==> implied[i] < 2 * n + 2
  {
    forall i | 0 <= i < |implied| ensures implied[i] < 2 * n + 2 {
      assert ValidLit(n, implied[i]);
    }
  }

  lemma NoneEntailed(f: Formula, n: nat)
    ensures AllEntailed(f, n, [])
  {
  }

  lemma EntailedAt(f: Formula, n: nat, lits: seq<Lit>, i: nat)
    requires AllEntailed(f, n, lits) && i < |lits|
    ensures Entails(f, [lits[i]]) && ValidLit(n, lits[i])
  {
  }

  lemma NoMarks(marks: seq<bool>)
    requires forall l :: 0 <= l < |marks| ==> !marks[l]
    ensures MarksExact(marks, [])
  {
  }

  lemma RootStays(f: Formula, s: State, x: Scratch, units: seq<Ref>)
    requires AtRoot(f, s, x, units)
    ensures s.level == 0
  {
  }

  /** A run that is at the root with its watch lists sound. */
  lemma RootAgain(f: Formula, s: State, x: Scratch, units: seq<Ref>, assumptions: seq<Lit>)
    requires Running(f, s, x, units, assumptions) && WatchInvariant(s) && s.level == 0
    ensures AtRoot(f, s, x, units)
  {
  }

  // ---------------------------------------------------------------------------------------------
  // Lucky assignments
  // ---------------------------------------------------------------------------------------------

  /** The decisions have one polarity, and their variables ascend, or descend on a backward attempt. */
  ghost predicate Uniform(control: seq<Frame>, negative: bool, backward: bool) {
    && (forall k :: 1 <= k < |control| ==> IsNegated(control[k].decision) == negative)
    && (forall j, k :: 1 <= j < k < |control| ==> InOrder(Var(control[j].decision), Var(control[k].decision), backward))
  }

  predicate InOrder(u: nat, v: nat, backward: bool) {
    if backward then v < u else u < v
  }

  /** The variable whose turn comes at a step. */
  function TurnOf(n: nat, step: int, backward: bool): int {
    if backward then n + 1 - step else step
  }

  /** All decisions are on variables that had their turn before the step. */
  ghost predicate VisitedBefore(control: seq<Frame>, backward: bool, n: nat, step: nat) {
    forall k :: 1 <= k < |control| ==>
      if backward then Var(control[k].decision) > n + 1 - step else Var(control[k].decision) < step
  }

  /** All variables that had their turn before the step have a value. */
  ghost predicate AssignedBefore(s: State, backward: bool, step: nat) {
    forall v: nat :: 1 <= v <= s.n && (if backward then v > s.n + 1 - step else v < step) ==>
        Value(s, MakeLit(v, false)) != 0
  }

  lemma NothingVisited(control: seq<Frame>, negative: bool, backward: bool, n: nat)
    requires |control| == 1
    ensures Uniform(control, negative, backward) && VisitedBefore(control, backward, n, 1)
  {
  }

  lemma OneMoreDecided(control: seq<Frame>, after: seq<Frame>, v: nat, begin: nat, negative: bool, backward: bool,
                       n: nat, step: nat)
    requires |control| >= 1 && Uniform(control, negative, backward) && VisitedBefore(control, backward, n, step)
    requires after == control + [Frame(begin, MakeLit(v, negative))] && v == TurnOf(n, step, backward)
    ensures Uniform(after, negative, backward) && VisitedBefore(after, backward, n, step + 1)
  {
    assert Var(MakeLit(v, negative)) == v;
    forall k | 1 <= k < |after|
      ensures if backward then Var(after[k].decision) > n + 1 - (step + 1) else Var(after[k].decision) < step + 1
    {
      if k < |control| {
        assert after[k] == control[k];
      }
    }
  }

  lemma VisitedMore(control: seq<Frame>, backward: bool, n: nat, step: nat)
    requires VisitedBefore(control, backward, n, step)
    ensures VisitedBefore(control, backward, n, step + 1)
  {
  }

  lemma AssignedNone(s: State, backward: bool)
    ensures AssignedBefore(s, backward, 1)
  {
  }

  /** One more turn: its variable has a value, and the others keep theirs. */
  lemma AssignedMore(s: State, t: State, v: nat, backward: bool, step: nat)
    requires AssignedBefore(s, backward, step) && Extends(s, t) && v == TurnOf(s.n, step, backward)
    requires Value(t, MakeLit(v, false)) != 0
    ensures AssignedBefore(t, backward, step + 1)
  {
  }

  lemma AssignedEvery(s: State, backward: bool)
    requires AssignedBefore(s, backward, s.n + 1)
    ensures AllAssigned(s)
  {
  }

  /** A decision adds a frame and gives its variable a value. */
  lemma DecidedTables(s: State, l: Lit)
    requires SearchOk(s) && ValidLit(s.n, l) && Value(s, l) == 0 && InBounds(NewLevelStep(s, l), l)
    ensures var t := Decide(s, l);
            && t.control == s.control + [Frame(|s.trail|, l)] && t.level == s.level + 1 && Extends(s, t)
            && Value(t, l) == 1 && Value(t, Neg(l)) == -1
  {
    var t := NewLevelStep(s, l);
    assert Value(t, l) == 0 && Sized(t);
    AssignTables(t, l, NoReason);
    AssignIs(t, l, NoReason);
    hide AssignStep, SearchOk;
    assert Extends(s, t);
  }

  /** Propagation adds no frame and takes no value back. */
  lemma DecisionStays(t: State, u: State, v: nat, l: Lit)
    requires Extends(t, u) && Value(t, l) == 1 && Value(t, Neg(l)) == -1 && Var(l) == v
    ensures Value(u, MakeLit(v, false)) != 0
  {
    SameVar(l, MakeLit(v, false));
  }

  /** A trail of all the variables leaves none open. */
  lemma FullTrail(s: State)
    requires SearchOk(s) && |s.trail| == s.n
    ensures AllAssigned(s)
  {
    var on, all := TrailVars(s.trail, s.n), Variables(s.n);
    TrailVarsSize(s, s.n);
    VariablesSize(s.n);
    assert on <= all;
    SubsetSize(all - on, {});
    forall v: nat | 1 <= v <= s.n ensures Value(s, MakeLit(v, false)) != 0 {
      assert v in all && |all - on| == |all| - |on|;
      assert v in on;
      var i :| 0 <= i < s.n && Var(s.trail[i]) == v;
      TrailEntry(s, i);
      SameVar(MakeLit(v, false), s.trail[i]);
    }
  }

  /** With every variable assigned the trail is full. */
  lemma TrailIsFull(s: State)
    requires SearchOk(s) && AllAssigned(s)
    ensures |s.trail| == s.n
  {
    var on, all := TrailVars(s.trail, |s.trail|), Variables(s.n);
    TrailFits(s);
    TrailVarsSize(s, |s.trail|);
    VariablesSize(s.n);
    forall v | v in all ensures v in on {
      VarOnTrail(s, v);
    }
    SubsetSize(all, on);
  }

  // ---------------------------------------------------------------------------------------------
  // Four attempts
  // ---------------------------------------------------------------------------------------------

  const ATTEMPTS: nat := 4

  /** The trail and the level frames have grown, and clauses at most changed the order of their literals. */
  ghost predicate Onward(s: State, t: State) {
    && t.n == s.n && |s.trail| <= |t.trail| && t.trail[..|s.trail|] == s.trail
    && |s.control| <= |t.control| && t.control[..|s.control|] == s.control && SameClauses(s.db, t.db)
  }

  lemma OnwardItself(s: State)
    ensures Onward(s, s)
  {
  }

  lemma OnwardTransitive(s: State, t: State, u: State)
    requires Onward(s, t) && Onward(t, u)
    ensures Onward(s, u)
  {
    assert u.trail[..|s.trail|] == u.trail[..|t.trail|][..|s.trail|];
    assert u.control[..|s.control|] == u.control[..|t.control|][..|s.control|];
  }

  /** A decision and its propagation lead onward. */
  lemma DecidedOnward(s: State, l: Lit, t: State)
    requires SearchOk(s) && InBounds(NewLevelStep(s, l), l) && Progress(Decide(s, l), t)
    ensures Onward(s, t)
  {
    AssignIs(NewLevelStep(s, l), l, NoReason);
    var d := Decide(s, l);
    assert d.trail[..|s.trail|] == s.trail && d.control[..|s.control|] == s.control;
    assert t.trail[..|s.trail|] == t.trail[..|d.trail|][..|s.trail|];
  }

  /** Going back to the root undoes an attempt. */
  lemma AttemptUndone(s: State, t: State, u: State)
    requires Onward(s, t) && |s.control| == 1
    requires u.n == t.n && u.db == t.db && u.trail == t.trail[..|s.trail|] && u.control == t.control[..1]
    ensures SameRoot(s, u)
  {
  }

  lemma ProbedOutElsewhere(s: State, t: State)
    requires SearchOk(s) && SearchOk(t) && SameRoot(s, t) && ProbedOut(s)
    ensures ProbedOut(t)
  {
    hide SearchOk, SameRoot, NothingAt;
    SameRootBounds(s, t);
    forall v: nat | 1 <= v <= t.n ensures NothingAt(t, v) {
      NothingElsewhere(s, t, v);
    }
  }

  lemma StillProbedOut(s: State, t: State)
    ensures SearchOk(s) && SearchOk(t) && SameRoot(s, t) && ProbedOut(s) ==> ProbedOut(t)
  {
    hide SearchOk, SameRoot, ProbedOut;
    if SearchOk(s) && SearchOk(t) && SameRoot(s, t) && ProbedOut(s) {
      ProbedOutElsewhere(s, t);
    }
  }

  lemma SameRootBounds(s: State, t: State)
    requires SameRoot(s, t)
    ensures s.n == t.n
  {
  }

  /** Every other attempt decides all variables false. */
  predicate AllFalse(attempt: nat) {
    attempt % 2 == 1
  }

  /** The last two go from the highest variable down. */
  predicate FromHighest(attempt: nat) {
    attempt >= 2
  }

  /** Deciding all variables alike in order leads to this conflict. */
  ghost predicate FailedAttempt(f: Formula, n: nat, s: State, negative: bool, backward: bool) {
    && s.n == n && SearchOk(s) && Represents(f, s.db) && s.level >= 1 && Uniform(s.control, negative, backward)
    && HasConflict(s)
  }

  ghost predicate AllFailed(f: Formula, n: nat, tried: seq<State>) {
    |tried| == ATTEMPTS
    && forall k :: 0 <= k < ATTEMPTS ==> FailedAttempt(f, n, tried[k], AllFalse(k), FromHighest(k))
  }

  lemma RootEndAfterDeciding(s: State, l: Lit)
    requires InBounds(NewLevelStep(s, l), l) && |s.control| == s.level + 1
    ensures Begin(Decide(s, l), 1) == Begin(s, 1)
  {
    AssignIs(NewLevelStep(s, l), l, NoReason);
  }

  lemma RootEndAfterProgress(s: State, t: State)
    requires Progress(s, t) && 1 <= s.level && |s.control| == s.level + 1
    ensures Begin(t, 1) == Begin(s, 1)
  {
  }

  /** Going back to the root finds its literals propagated already. */
  lemma BackAtRoot(s: State, t: State)
    requires SearchOk(s) && t == BackTo(s, 0) && (s.level == 0 ==> s.propagated == |s.trail|)
    ensures |t.trail| == Begin(s, 1) == t.propagated && |t.trail| <= |s.trail| && t.trail == s.trail[..|t.trail|]
    ensures |s.control| >= 1 && t.control == s.control[..1] && t.db == s.db && t.n == s.n
  {
    if s.level > 0 {
      BacktrackTables(s, 0);
      BacktrackIs(s, 0);
      BeginsOrdered(s, 1, s.level);
    }
  }

  lemma SoundIsEnough(s: State)
    ensures WatchInvariant(s) ==> SoundOrStopped(s, 0)
  {
  }

  lemma RootEnd(f: Formula, s: State, x: Scratch, units: seq<Ref>, assumptions: seq<Lit>)
    requires Running(f, s, x, units, assumptions) && s.level == 0
    ensures Begin(s, 1) == |s.trail|
  {
  }

  /** A full attempt without conflict is a model. */
  lemma LuckyModel(f: Formula, s: State, x: Scratch, units: seq<Ref>)
    requires Running(f, s, x, units, []) && WatchInvariant(s) && s.propagated == |s.trail| == s.n
    ensures SatisfiesAll(Model(s), f) && Total(s)
  {
    FullTrail(s);
    RunningSat(f, s, x, units, []);
  }
}
