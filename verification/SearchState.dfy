/** The search state of the engine as a value, its invariants, and the steps that keep them. */
module SearchState {
  import opened Logic

  /** A clause reference. */
  type Ref = nat

  /** Why a literal is on the trail. */
  datatype Reason = NoReason | Because(ref: Ref)

  datatype Watch = Watch(blocking: Lit, ref: Ref, binary: bool)

  datatype Entry = Entry(lits: Clause, redundant: bool)

  type Database = map<Ref, Entry>

  datatype Frame = Frame(trailBegin: nat, decision: Lit)

  datatype State = State(
    n: nat,
    db: Database,
    watches: seq<seq<Watch>>,
    values: seq<int>,
    levels: seq<nat>,
    reasons: seq<Reason>,
    positions: seq<nat>,
    trail: seq<Lit>,
    control: seq<Frame>,
    propagated: nat,
    level: nat)

  // ---------------------------------------------------------------------------------------------
  // Reading the state
  // ---------------------------------------------------------------------------------------------

  predicate ValidLit(n: nat, l: Lit) {
    1 <= Var(l) <= n
  }

  ghost function Value(s: State, l: Lit): int {
    if l < |s.values| then s.values[l] else 0
  }

  ghost function Level(s: State, l: Lit): nat {
    if Var(l) < |s.levels| then s.levels[Var(l)] else 0
  }

  ghost function Position(s: State, l: Lit): nat {
    if Var(l) < |s.positions| then s.positions[Var(l)] else 0
  }

  ghost function ReasonOf(s: State, l: Lit): Reason {
    if Var(l) < |s.reasons| then s.reasons[Var(l)] else NoReason
  }

  ghost function Begin(s: State, k: nat): nat {
    if k < |s.control| then s.control[k].trailBegin else |s.trail|
  }

  // ---------------------------------------------------------------------------------------------
  // Invariants of the trail
  // ---------------------------------------------------------------------------------------------

  ghost predicate Sized(s: State) {
    && |s.values| == 2 * s.n + 2
    && |s.levels| == |s.reasons| == |s.positions| == s.n + 1
    && |s.watches| == 2 * s.n + 2
    && |s.control| == s.level + 1
  }

  ghost predicate OnTrail(s: State, l: Lit) {
    Position(s, l) < |s.trail| && Var(s.trail[Position(s, l)]) == Var(l)
  }

  ghost function ValueOnTrail(s: State, l: Lit): int {
    if OnTrail(s, l) then (if s.trail[Position(s, l)] == l then 1 else -1) else 0
  }

  /** The value table says exactly what the trail says, and each trail literal knows its place. */
  ghost predicate TrailOk(s: State) {
    && (forall i :: 0 <= i < |s.trail| ==> ValidLit(s.n, s.trail[i]) && Position(s, s.trail[i]) == i)
    && (forall l: Lit :: Value(s, l) == ValueOnTrail(s, l))
  }

  ghost predicate LevelAt(s: State, i: nat)
    requires i < |s.trail|
  {
    var k := Level(s, s.trail[i]);
    k <= s.level && Begin(s, k) <= i < Begin(s, k + 1)
  }

  /** Levels are consecutive stretches of the trail; only the last one may be unpropagated. */
  ghost predicate LevelsOk(s: State) {
    && Begin(s, 0) == 0
    && (forall a: nat, b: nat :: a <= b ==> Begin(s, a) <= Begin(s, b))
    && (forall i :: 0 <= i < |s.trail| ==> LevelAt(s, i))
    && Begin(s, s.level) <= s.propagated <= |s.trail|
  }

  ghost predicate ClauseOk(n: nat, c: Clause) {
    && (forall i :: 0 <= i < |c| ==> ValidLit(n, c[i]))
    && (forall i, j :: 0 <= i < j < |c| ==> Var(c[i]) != Var(c[j]))
  }

  ghost predicate DatabaseOk(n: nat, db: Database) {
    forall r :: r in db ==> ClauseOk(n, db[r].lits)
  }

  /** Every literal of `c` other than `l` is false and older than trail position `i`. */
  ghost predicate Forces(s: State, c: Clause, l: Lit, i: nat) {
    && l in c
    && forall m :: m in c && m != l ==> Value(s, m) == -1 && Position(s, m) < i
  }

  ghost predicate ReasonAt(s: State, i: nat)
    requires i < |s.trail|
  {
    var l := s.trail[i];
    match ReasonOf(s, l)
    case NoReason => 0 < Level(s, l) < |s.control| && s.control[Level(s, l)] == Frame(i, l)
    case Because(r) => r in s.db && Forces(s, s.db[r].lits, l, i)
  }

  ghost predicate ReasonsOk(s: State) {
    forall i :: 0 <= i < |s.trail| ==> ReasonAt(s, i)
  }

  /** What the search state always is, the watch lists aside. */
  ghost predicate SearchOk(s: State) {
    Sized(s) && TrailOk(s) && LevelsOk(s) && DatabaseOk(s.n, s.db) && ReasonsOk(s)
  }

  // ---------------------------------------------------------------------------------------------
  // Simple consequences
  // ---------------------------------------------------------------------------------------------

  lemma TrailEntry(s: State, i: nat)
    requires Sized(s) && TrailOk(s) && i < |s.trail|
    ensures ValidLit(s.n, s.trail[i]) && Position(s, s.trail[i]) == i
    ensures s.trail[i] < |s.values| && Neg(s.trail[i]) < |s.values| && 1 <= Var(s.trail[i]) < |s.levels|
    ensures Value(s, s.trail[i]) == 1 && Value(s, Neg(s.trail[i])) == -1
    ensures NO_LITERAL != s.trail[i]
  {
    assert Value(s, s.trail[i]) == ValueOnTrail(s, s.trail[i]);
    assert Value(s, Neg(s.trail[i])) == ValueOnTrail(s, Neg(s.trail[i]));
  }

  /** An assigned literal, or its negation, is the trail entry at its recorded position. */
  lemma Assigned(s: State, l: Lit)
    requires Sized(s) && TrailOk(s)
    ensures Value(s, l) == 1 || Value(s, l) == -1 || Value(s, l) == 0
    ensures Value(s, Neg(l)) == -Value(s, l)
    ensures Value(s, l) != 0 ==> Position(s, l) < |s.trail| && ValidLit(s.n, l)
    ensures Value(s, l) == 1 ==> s.trail[Position(s, l)] == l
    ensures Value(s, l) == -1 ==> s.trail[Position(s, l)] == Neg(l)
  {
    assert Value(s, l) == ValueOnTrail(s, l);
    assert Value(s, Neg(l)) == ValueOnTrail(s, Neg(l));
    if OnTrail(s, l) {
      SameVar(s.trail[Position(s, l)], l);
      assert Position(s, s.trail[Position(s, l)]) == Position(s, l);
      NegNeg(l);
    }
  }

  /** No trail entry is over the variable of an unassigned literal. */
  lemma NotOnTrail(s: State, l: Lit, i: nat)
    requires Sized(s) && TrailOk(s) && Value(s, l) == 0 && i < |s.trail|
    ensures Var(s.trail[i]) != Var(l)
  {
    assert Value(s, l) == ValueOnTrail(s, l);
    assert Position(s, s.trail[i]) == i;
    assert Var(s.trail[i]) == Var(l) ==> Position(s, l) == i;
  }

  lemma BeginsOrdered(s: State, a: nat, b: nat)
    requires LevelsOk(s)
    ensures a <= b ==> Begin(s, a) <= Begin(s, b)
  {
  }

  /** The variables of the first `k` trail entries. */
  ghost function TrailVars(trail: seq<Lit>, k: nat): set<nat>
    requires k <= |trail|
  {
    set i | 0 <= i < k :: Var(trail[i])
  }

  lemma {:induction false} TrailVarsSize(s: State, k: nat)
    requires Sized(s) && TrailOk(s) && k <= |s.trail|
    ensures |TrailVars(s.trail, k)| == k
  {
    if k > 0 {
      TrailVarsSize(s, k - 1);
      assert forall i :: 0 <= i < k ==> Position(s, s.trail[i]) == i;
      assert Var(s.trail[k - 1]) !in TrailVars(s.trail, k - 1);
      hide Sized, TrailOk;
      TrailVarsMore(s.trail, k - 1);
    }
  }

  lemma TrailVarsMore(trail: seq<Lit>, k: nat)
    requires k < |trail|
    ensures TrailVars(trail, k + 1) == TrailVars(trail, k) + {Var(trail[k])}
  {
  }

  /** The variables 1 to n. */
  ghost function Variables(n: nat): set<nat> {
    if n == 0 then {} else Variables(n - 1) + {n}
  }

  lemma {:induction false} VariablesSize(n: nat)
    ensures |Variables(n)| == n && forall v: nat :: v in Variables(n) <==> 1 <= v <= n
  {
    if n > 0 {
      VariablesSize(n - 1);
    }
  }

  lemma SubsetSize(a: set<nat>, b: set<nat>)
    requires a <= b
    ensures |a| <= |b|
  {
    assert b == a + (b - a);
  }

  /** No variable is on the trail twice. */
  lemma TrailFits(s: State)
    requires Sized(s) && TrailOk(s)
    ensures |s.trail| <= s.n
  {
    TrailVarsSize(s, |s.trail|);
    VariablesSize(s.n);
    SubsetSize(TrailVars(s.trail, |s.trail|), Variables(s.n));
  }

  /** Older trail entries have levels no higher. */
  lemma LevelsFollowTrail(s: State, i: nat, j: nat)
    requires LevelsOk(s) && i <= j < |s.trail|
    ensures Level(s, s.trail[i]) <= Level(s, s.trail[j]) <= s.level
  {
    assert LevelAt(s, i) && LevelAt(s, j);
    var a, b := Level(s, s.trail[i]), Level(s, s.trail[j]);
    BeginsOrdered(s, b + 1, a);
  }

  lemma LevelOfAssigned(s: State, l: Lit)
    requires Sized(s) && TrailOk(s) && LevelsOk(s) && Value(s, l) != 0
    ensures Level(s, l) <= s.level && Begin(s, Level(s, l)) <= Position(s, l) < Begin(s, Level(s, l) + 1)
  {
    Assigned(s, l);
    assert LevelAt(s, Position(s, l));
  }

  // ---------------------------------------------------------------------------------------------
  // Steps
  // ---------------------------------------------------------------------------------------------

  function AssignStep(s: State, l: Lit, reason: Reason): State
    requires Neg(l) < |s.values| && l < |s.values|
    requires Var(l) < |s.levels| && Var(l) < |s.reasons| && Var(l) < |s.positions|
  {
    s.(values := s.values[l := 1][Neg(l) := -1],
       levels := s.levels[Var(l) := s.level],
       reasons := s.reasons[Var(l) := reason],
       positions := s.positions[Var(l) := |s.trail|],
       trail := s.trail + [l])
  }

  lemma ValidIsInBounds(s: State, l: Lit)
    requires Sized(s) && ValidLit(s.n, l)
    ensures l < |s.values| && Neg(l) < |s.values| && l < |s.watches| && Neg(l) < |s.watches|
    ensures Var(l) < |s.levels| && Var(l) < |s.reasons| && Var(l) < |s.positions|
  {
  }

  /** The later state keeps every assignment of the earlier one, with its level, place and reason. */
  ghost predicate Extends(s: State, t: State) {
    && t.n == s.n && |s.trail| <= |t.trail| && t.trail[..|s.trail|] == s.trail
    && forall l: Lit :: Value(s, l) != 0 ==>
         && Value(t, l) == Value(s, l) && Level(t, l) == Level(s, l)
         && Position(t, l) == Position(s, l) && ReasonOf(t, l) == ReasonOf(s, l)
  }

  lemma AssignTables(s: State, l: Lit, reason: Reason)
    requires Sized(s) && ValidLit(s.n, l)
    ensures l < |s.values| && Neg(l) < |s.values| && Var(l) < |s.levels| && Var(l) < |s.reasons|
            && Var(l) < |s.positions|
    ensures var t := AssignStep(s, l, reason);
            && Sized(t)
            && Value(t, l) == 1 && Value(t, Neg(l)) == -1 && Level(t, l) == s.level && Position(t, l) == |s.trail|
            && ReasonOf(t, l) == reason
            && (forall m: Lit :: Var(m) != Var(l) ==> Value(t, m) == Value(s, m) && Level(t, m) == Level(s, m)
                                                      && Position(t, m) == Position(s, m)
                                                          && ReasonOf(t, m) == ReasonOf(s, m))
  {
    ValidIsInBounds(s, l);
  }

  lemma AssignKeepsTrail(s: State, l: Lit, reason: Reason)
    requires Sized(s) && TrailOk(s) && ValidLit(s.n, l) && Value(s, l) == 0
    ensures l < |s.values| && Neg(l) < |s.values| && Var(l) < |s.levels| && Var(l) < |s.reasons|
            && Var(l) < |s.positions|
    ensures var t := AssignStep(s, l, reason); TrailOk(t) && Extends(s, t)
  {
    AssignTables(s, l, reason);
    Assigned(s, l);
    var t := AssignStep(s, l, reason);
    hide Value, Position, Level, ReasonOf, AssignStep;
    assert t.trail == s.trail + [l] && t.n == s.n by { AssignIs(s, l, reason); }
    forall i | 0 <= i < |t.trail|
      ensures ValidLit(t.n, t.trail[i]) && Position(t, t.trail[i]) == i
    {
      if i < |s.trail| {
        NotOnTrail(s, l, i);
      }
    }
    forall m: Lit ensures Value(t, m) == ValueOnTrail(t, m) {
      assert Value(s, m) == ValueOnTrail(s, m);
      if Var(m) == Var(l) {
        SameVar(m, l);
      }
    }
    forall m: Lit | Value(s, m) != 0 ensures Var(m) != Var(l) {
      if Var(m) == Var(l) {
        SameVar(m, l);
      }
    }
  }

  lemma AssignIs(s: State, l: Lit, reason: Reason)
    requires Neg(l) < |s.values| && l < |s.values|
    requires Var(l) < |s.levels| && Var(l) < |s.reasons| && Var(l) < |s.positions|
    ensures var t := AssignStep(s, l, reason);
            t.n == s.n && t.trail == s.trail + [l] && t.db == s.db && t.watches == s.watches && t.control == s.control
            && t.level == s.level && t.propagated == s.propagated
  {
  }

  lemma AssignKeepsLevels(s: State, l: Lit, reason: Reason)
    requires Sized(s) && TrailOk(s) && LevelsOk(s) && ValidLit(s.n, l) && Value(s, l) == 0
    ensures l < |s.values| && Neg(l) < |s.values| && Var(l) < |s.levels| && Var(l) < |s.reasons|
            && Var(l) < |s.positions|
    ensures LevelsOk(AssignStep(s, l, reason))
  {
    AssignTables(s, l, reason);
    var t := AssignStep(s, l, reason);
    assert forall k: nat :: Begin(t, k) == if k < |s.control| then Begin(s, k) else |s.trail| + 1;
    forall i | 0 <= i < |t.trail| ensures LevelAt(t, i) {
      if i < |s.trail| {
        assert LevelAt(s, i);
        NotOnTrail(s, l, i);
        assert Level(t, t.trail[i]) == Level(s, s.trail[i]);
      }
    }
  }

  function NewLevelStep(s: State, decision: Lit): State {
    s.(control := s.control + [Frame(|s.trail|, decision)], level := s.level + 1)
  }

  /** A level may be opened once everything below it is propagated. */
  lemma NewLevelKeeps(s: State, decision: Lit)
    requires SearchOk(s) && s.propagated == |s.trail|
    ensures SearchOk(NewLevelStep(s, decision))
  {
    var t := NewLevelStep(s, decision);
    assert forall k: nat :: Begin(t, k) == Begin(s, k);
    assert forall l: Lit :: Value(t, l) == Value(s, l) && OnTrail(t, l) == OnTrail(s, l);
    forall i | 0 <= i < |t.trail| ensures LevelAt(t, i) && ReasonAt(t, i) {
      assert LevelAt(s, i) && ReasonAt(s, i);
    }
  }

  /** Undoes every assignment above `target`. */
  function BacktrackStep(s: State, target: nat): State
    requires target + 1 < |s.control| && s.control[target + 1].trailBegin <= |s.trail|
  {
    var begin := s.control[target + 1].trailBegin;
    s.(values := Undone(s.values, s.trail, begin, |s.trail|),
       trail := s.trail[..begin],
       propagated := if s.propagated > begin then begin else s.propagated,
       control := s.control[..target + 1],
       level := target)
  }

  /** The value table after clearing the literals of `trail[begin..end]`, last one first. */
  function Undone(values: seq<int>, trail: seq<Lit>, begin: nat, end: nat): (undone: seq<int>)
    requires begin <= end <= |trail|
    ensures |undone| == |values|
    decreases end - begin
  {
    if begin == end then values
    else
      var l := trail[begin];
      var rest := Undone(values, trail, begin + 1, end);
      var first := if l < |rest| then rest[l := 0] else rest;
      if Neg(l) < |rest| then first[Neg(l) := 0] else first
  }

  lemma UndoneNothing(values: seq<int>, trail: seq<Lit>)
    ensures Undone(values, trail, |trail|, |trail|) == values
  {
  }

  /** Clearing one more literal. */
  lemma UndoneStep(values: seq<int>, trail: seq<Lit>, i: nat)
    requires i < |trail| && trail[i] < |values| && Neg(trail[i]) < |values|
    ensures Undone(values, trail, i, |trail|)
            == Undone(values, trail, i + 1, |trail|)[trail[i] := 0][Neg(trail[i]) := 0]
  {
  }

  lemma BacktrackIs(s: State, target: nat)
    requires target + 1 < |s.control| && s.control[target + 1].trailBegin <= |s.trail|
    ensures var begin := s.control[target + 1].trailBegin;
            BacktrackStep(s, target)
            == State(s.n, s.db, s.watches, Undone(s.values, s.trail, begin, |s.trail|), s.levels, s.reasons,
                     s.positions, s.trail[..begin], s.control[..target + 1], if s.propagated > begin then begin
                     else s.propagated, target)
  {
  }

  ghost predicate TrailInBounds(trail: seq<Lit>, n: nat, slots: nat) {
    forall i :: 0 <= i < |trail| ==> 1 <= Var(trail[i]) <= n && trail[i] < slots && Neg(trail[i]) < slots
  }

  lemma SearchBounds(s: State)
    requires SearchOk(s)
    ensures TrailInBounds(s.trail, s.n, |s.values|)
  {
    forall i | 0 <= i < |s.trail|
      ensures 1 <= Var(s.trail[i]) <= s.n && s.trail[i] < |s.values| && Neg(s.trail[i]) < |s.values|
    {
      TrailEntry(s, i);
    }
  }

  lemma {:induction false} UndoneAt(values: seq<int>, trail: seq<Lit>, begin: nat, end: nat, l: Lit)
    requires begin <= end <= |trail| && l < |values|
    ensures (exists i :: begin <= i < end && Var(trail[i]) == Var(l)) ==> Undone(values, trail, begin, end)[l] == 0
    ensures (forall i :: begin <= i < end ==> Var(trail[i]) != Var(l)) ==>
            Undone(values, trail, begin, end)[l] == values[l]
    decreases end - begin
  {
    if begin < end {
      UndoneAt(values, trail, begin + 1, end, l);
      if Var(trail[begin]) == Var(l) {
        SameVar(l, trail[begin]);
      }
    }
  }

  /** A literal survives a backtrack exactly when it was assigned at or below the target level. */
  lemma BacktrackTables(s: State, target: nat)
    requires SearchOk(s) && target < s.level
    ensures target + 1 < |s.control| && s.control[target + 1].trailBegin <= |s.trail|
    ensures var t := BacktrackStep(s, target); var begin := Begin(s, target + 1);
            && Sized(t) && t.n == s.n && t.db == s.db && t.watches == s.watches && t.level == target
            && t.trail == s.trail[..begin] && t.levels == s.levels && t.positions == s.positions
                && t.reasons == s.reasons
            && (forall l: Lit :: Value(t, l) == if Position(s, l) < begin then Value(s, l) else 0)
            && (forall k: nat :: k <= target + 1 ==> Begin(t, k) == Begin(s, k))
            && (forall k: nat :: k > target ==> Begin(t, k) == begin)
            && t.propagated == if s.propagated > begin then begin else s.propagated
  {
    assert Begin(s, target + 1) <= Begin(s, s.level + 1);
    var begin := Begin(s, target + 1);
    var t := BacktrackStep(s, target);
    forall l: Lit ensures Value(t, l) == if Position(s, l) < begin then Value(s, l) else 0 {
      if l < |s.values| {
        UndoneAt(s.values, s.trail, begin, |s.trail|, l);
        assert Value(s, l) == ValueOnTrail(s, l);
        if Position(s, l) < begin {
          forall i | begin <= i < |s.trail| ensures Var(s.trail[i]) != Var(l) {
            assert Position(s, s.trail[i]) == i;
          }
        } else if OnTrail(s, l) {
          assert Var(s.trail[Position(s, l)]) == Var(l);
        } else {
          forall i | begin <= i < |s.trail| ensures Var(s.trail[i]) != Var(l) {
            assert Position(s, s.trail[i]) == i;
          }
        }
      }
    }
  }

  lemma BacktrackKeeps(s: State, target: nat)
    requires SearchOk(s) && target < s.level
    ensures target + 1 < |s.control| && s.control[target + 1].trailBegin <= |s.trail|
    ensures SearchOk(BacktrackStep(s, target))
  {
    BacktrackTables(s, target);
    var t := BacktrackStep(s, target);
    var begin := Begin(s, target + 1);
    hide BacktrackStep;
    assert TrailOk(t) by { BacktrackKeepsTrail(s, t, begin); }
    forall i | 0 <= i < |t.trail| ensures LevelAt(t, i) {
      assert LevelAt(s, i);
      assert t.trail[i] == s.trail[i];
      BeginsOrdered(s, target + 1, Level(s, s.trail[i]));
    }
    forall i | 0 <= i < |t.trail| ensures ReasonAt(t, i) {
      assert ReasonAt(s, i) && LevelAt(t, i);
      assert t.trail[i] == s.trail[i];
      assert t.control == s.control[..target + 1] by { BacktrackControl(s, target); }
    }
    assert Begin(t, t.level) <= Begin(t, t.level + 1);
    assert Begin(s, t.level) <= Begin(s, s.level);
  }

  lemma BacktrackControl(s: State, target: nat)
    requires target + 1 < |s.control| && s.control[target + 1].trailBegin <= |s.trail|
    ensures BacktrackStep(s, target).control == s.control[..target + 1]
  {
  }

  lemma BacktrackKeepsTrail(s: State, t: State, begin: nat)
    requires Sized(s) && TrailOk(s) && begin <= |s.trail|
    requires t.n == s.n && t.trail == s.trail[..begin] && t.positions == s.positions
    requires forall l: Lit :: Value(t, l) == if Position(s, l) < begin then Value(s, l) else 0
    ensures TrailOk(t)
  {
    forall i | 0 <= i < |t.trail| ensures ValidLit(t.n, t.trail[i]) && Position(t, t.trail[i]) == i {
      assert ValidLit(s.n, s.trail[i]) && Position(s, s.trail[i]) == i;
    }
    forall l: Lit ensures Value(t, l) == ValueOnTrail(t, l) {
      assert Value(s, l) == ValueOnTrail(s, l);
    }
  }

  /** Assigning keeps every invariant when the reason is sound for the literal. */
  lemma AssignKeeps(s: State, l: Lit, reason: Reason)
    requires SearchOk(s) && ValidLit(s.n, l) && Value(s, l) == 0
    requires match reason
             case NoReason => s.level > 0 && s.control[s.level] == Frame(|s.trail|, l)
             case Because(r) => r in s.db && Forces(s, s.db[r].lits, l, |s.trail|)
    ensures l < |s.values| && Neg(l) < |s.values| && Var(l) < |s.levels| && Var(l) < |s.reasons|
            && Var(l) < |s.positions|
    ensures SearchOk(AssignStep(s, l, reason)) && Extends(s, AssignStep(s, l, reason))
  {
    AssignKeepsTrail(s, l, reason);
    AssignKeepsLevels(s, l, reason);
    AssignTables(s, l, reason);
    AssignIs(s, l, reason);
    var t := AssignStep(s, l, reason);
    hide AssignStep, TrailOk, LevelsOk, Value, Position, Level, ReasonOf, Extends;
    forall i | 0 <= i < |t.trail| ensures ReasonAt(t, i) {
      if i < |s.trail| {
        assert ReasonAt(s, i);
        NotOnTrail(s, l, i);
        if ReasonOf(s, s.trail[i]).Because? {
          ForcesKept(s, t, s.db[ReasonOf(s, s.trail[i]).ref].lits, s.trail[i], i);
        }
      } else if reason.Because? {
        ForcesKept(s, t, s.db[reason.ref].lits, l, i);
      }
    }
  }

  lemma ForcesKept(s: State, t: State, c: Clause, l: Lit, i: nat)
    requires Extends(s, t) && Forces(s, c, l, i)
    ensures Forces(t, c, l, i)
  {
  }
}
