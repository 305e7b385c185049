/** What an assignment rests on: a variable rests on the variables of its reason. */
module Causes {
  import opened Logic
  import opened SearchState
  import opened Analysis

  /** The variable occurs in the clause. */
  ghost predicate Speaks(c: Clause, v: nat) {
    exists l :: l in c && Var(l) == v
  }

  /** `v` occurs in the reason of `u`. */
  ghost predicate RestsOn(s: State, u: nat, v: nat) {
    VarReason(s, u).Because? && VarReason(s, u).ref in s.db && Speaks(s.db[VarReason(s, u).ref].lits, v)
  }

  /** From each variable but the last, one that is expanded, to a variable of its reason. */
  ghost predicate IsTrace(s: State, expanded: set<nat>, path: seq<nat>) {
    path != [] && forall i :: 0 <= i < |path| - 1 ==> path[i] in expanded && RestsOn(s, path[i], path[i + 1])
  }

  ghost predicate TraceTo(s: State, starts: set<nat>, expanded: set<nat>, path: seq<nat>, v: nat) {
    IsTrace(s, expanded, path) && path[0] in starts && path[|path| - 1] == v
  }

  /** Following reasons leads from a start to the variable. */
  ghost predicate Behind(s: State, starts: set<nat>, expanded: set<nat>, v: nat) {
    exists path: seq<nat> :: TraceTo(s, starts, expanded, path, v)
  }

  lemma BehindStart(s: State, starts: set<nat>, expanded: set<nat>, v: nat)
    requires v in starts
    ensures Behind(s, starts, expanded, v)
  {
    assert TraceTo(s, starts, expanded, [v], v);
  }

  lemma BehindNext(s: State, starts: set<nat>, expanded: set<nat>, u: nat, v: nat)
    requires Behind(s, starts, expanded, u) && u in expanded && RestsOn(s, u, v)
    ensures Behind(s, starts, expanded, v)
  {
    var path: seq<nat> :| TraceTo(s, starts, expanded, path, u);
    assert TraceTo(s, starts, expanded, path + [v], v);
  }

  /** Expanding more variables leads to no fewer. */
  lemma BehindMore(s: State, starts: set<nat>, expanded: set<nat>, more: set<nat>, v: nat)
    requires Behind(s, starts, expanded, v) && expanded <= more
    ensures Behind(s, starts, more, v)
  {
    var path: seq<nat> :| TraceTo(s, starts, expanded, path, v);
    assert TraceTo(s, starts, more, path, v);
  }

  /** An assigned variable rests on itself and on variables assigned before it. */
  lemma RestsOnEarlier(s: State, u: nat, v: nat)
    requires SearchOk(s) && VarAssigned(s, u) && RestsOn(s, u, v)
    ensures VarAssigned(s, v) && (v == u || VarPosition(s, v) < VarPosition(s, u))
    ensures VarLevel(s, v) <= VarLevel(s, u)
  {
    VarOnTrail(s, u);
    var i := VarPosition(s, u);
    assert ReasonAt(s, i);
    TrailEntry(s, i);
    VarTables(s, s.trail[i]);
    var m :| m in s.db[VarReason(s, u).ref].lits && Var(m) == v;
    VarTables(s, m);
    if m != s.trail[i] {
      AssignedVar(s, m);
      VarOnTrail(s, v);
      Assigned(s, m);
      LevelsFollowTrail(s, Position(s, m), i);
    }
  }

  lemma {:induction false} TraceAssigned(s: State, expanded: set<nat>, path: seq<nat>, k: nat)
    requires SearchOk(s) && IsTrace(s, expanded, path) && VarAssigned(s, path[0]) && k < |path|
    ensures VarAssigned(s, path[k])
    ensures k > 0 ==> path[k - 1] == path[k] || VarPosition(s, path[k]) < VarPosition(s, path[k - 1])
  {
    if k > 0 {
      TraceAssigned(s, expanded, path, k - 1);
      assert RestsOn(s, path[k - 1], path[k - 1 + 1]);
      RestsOnEarlier(s, path[k - 1], path[k]);
    }
  }

  /** What is behind variables that are assigned is assigned. */
  lemma BehindAssigned(s: State, starts: set<nat>, expanded: set<nat>, v: nat)
    requires SearchOk(s) && Behind(s, starts, expanded, v) && forall u :: u in starts ==> VarAssigned(s, u)
    ensures VarAssigned(s, v)
  {
    var path: seq<nat> :| TraceTo(s, starts, expanded, path, v);
    TraceAssigned(s, expanded, path, |path| - 1);
  }

  /** Once the variables at trail positions from `index` on have been expanded, everything behind the starts at those
      positions and the next lower one has been found. */
  lemma BehindSoFar(s: State, starts: set<nat>, expanded: set<nat>, found: set<nat>, index: nat, v: nat)
    requires SearchOk(s) && starts <= found && forall u :: u in starts ==> VarAssigned(s, u)
    requires forall u, w :: u in found && u in expanded && VarPosition(s, u) >= index && RestsOn(s, u, w) ==> w in found
    requires Behind(s, starts, expanded, v) && VarPosition(s, v) + 1 >= index
    ensures v in found
  {
    var path: seq<nat> :| TraceTo(s, starts, expanded, path, v);
    TraceSoFar(s, expanded, path, found, index, |path| - 1);
  }

  lemma {:induction false} TraceSoFar(s: State, expanded: set<nat>, path: seq<nat>, found: set<nat>, index: nat, k: nat)
    requires SearchOk(s) && IsTrace(s, expanded, path) && VarAssigned(s, path[0]) && path[0] in found && k < |path|
    requires forall u, w :: u in found && u in expanded && VarPosition(s, u) >= index && RestsOn(s, u, w) ==> w in found
    requires VarPosition(s, path[k]) + 1 >= index
    ensures path[k] in found
  {
    if k > 0 {
      TraceAssigned(s, expanded, path, k);
      TraceSoFar(s, expanded, path, found, index, k - 1);
      assert RestsOn(s, path[k - 1], path[k - 1 + 1]);
    }
  }

  // ---------------------------------------------------------------------------------------------
  // The assumptions behind a failed one
  // ---------------------------------------------------------------------------------------------

  /** The variables above the root. */
  ghost function AboveRootVars(s: State): set<nat> {
    set v | 0 <= v < |s.levels| && VarLevel(s, v) > 0
  }

  /** The trail literal at `i` has no reason, lies above the root, and the failed literal rests on it. */
  ghost predicate InCore(s: State, failed: Lit, i: nat)
    requires i < |s.trail|
  {
    ReasonOf(s, s.trail[i]).NoReason? && Level(s, s.trail[i]) > 0
    && Behind(s, {Var(failed)}, AboveRootVars(s), Var(s.trail[i]))
  }

  /** The failed literal and, latest first, the decisions from position `index` on that it rests on. */
  ghost function CoreFrom(s: State, failed: Lit, index: nat): seq<Lit>
    decreases |s.trail| - index
  {
    if index >= |s.trail| then [failed]
    else CoreFrom(s, failed, index + 1) + if InCore(s, failed, index) then [s.trail[index]] else []
  }

  /** The whole failed core. */
  ghost function CoreOf(s: State, failed: Lit): seq<Lit> {
    CoreFrom(s, failed, 0)
  }

  lemma {:induction false} CoreMembers(s: State, failed: Lit, index: nat)
    ensures forall l :: l in CoreFrom(s, failed, index) <==>
              l == failed || exists i :: index <= i < |s.trail| && s.trail[i] == l && InCore(s, failed, i)
    decreases |s.trail| - index
  {
    if index < |s.trail| {
      CoreMembers(s, failed, index + 1);
    }
  }
}
