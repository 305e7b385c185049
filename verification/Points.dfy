/** The first unique implication point of a conflict, defined apart from the walk that finds it. */
module ImplicationPoints {
  import opened Logic
  import opened SearchState
  import opened Implication
  import opened Analysis
  import opened Causes

  ghost function ClauseVars(c: Clause): set<nat> {
    set l | l in c :: Var(l)
  }

  /** The variables of the current level after trail position `i`. */
  ghost function LaterVars(s: State, i: nat): set<nat> {
    set v | 0 <= v < |s.levels| && VarAssigned(s, v) && VarLevel(s, v) == s.level && VarPosition(s, v) > i
  }

  /** The conflict rests on the variable, one above the root, when the variables of the current level after trail
      position `i` are replaced by their reasons. */
  ghost predicate InSide(s: State, q: Ref, i: nat, v: nat) {
    q in s.db && VarLevel(s, v) > 0 && Behind(s, ClauseVars(s.db[q].lits), LaterVars(s, i), v)
  }

  /** Then the literal at `i` is the only one of the current level left. */
  ghost predicate IsUip(s: State, q: Ref, i: nat) {
    && i < |s.trail| && Level(s, s.trail[i]) == s.level && InSide(s, q, i, Var(s.trail[i]))
    && forall v :: InSide(s, q, i, v) && VarLevel(s, v) == s.level ==> VarPosition(s, v) >= i
  }

  /** The latest such literal. */
  ghost predicate FirstUip(s: State, q: Ref, i: nat) {
    IsUip(s, q, i) && forall j :: i < j < |s.trail| ==> !IsUip(s, q, j)
  }

  lemma FirstUipUnique(s: State, q: Ref, i: nat, j: nat)
    requires FirstUip(s, q, i) && FirstUip(s, q, j)
    ensures i == j
  {
    assert IsUip(s, q, i) && IsUip(s, q, j);
  }

  /** A met variable of the current level, resolved on already, has its reason's variables met. */
  ghost predicate ResolvedClosed(s: State, met: Met, uip: Lit) {
    forall u, w :: u in met.current && u !in met.open && u != Var(uip) && RestsOn(s, u, w) ==>
      VarLevel(s, w) == 0 || InMet(met, w)
  }

  ghost predicate StartsMet(s: State, q: Ref, met: Met)
    requires q in s.db
  {
    forall l :: l in s.db[q].lits ==> VarLevel(s, Var(l)) == 0 || InMet(met, Var(l))
  }

  ghost predicate MetInSide(s: State, q: Ref, i: nat, met: Met) {
    forall v :: InMet(met, v) ==> InSide(s, q, i, v)
  }

  ghost predicate NoneAfter(s: State, q: Ref, i: nat) {
    forall j :: i < j < |s.trail| ==> !IsUip(s, q, j)
  }

  /** What has been met before the reason of `uip`, the literal at `index`, is scanned; no later literal is a unique
      implication point. */
  ghost predicate Tracing(s: State, q: Ref, met: Met, index: nat, uip: Lit) {
    q in s.db
    && if uip == NO_LITERAL then met == Met({}, {}, {}) && index == |s.trail|
       else
         && index < |s.trail| && uip == s.trail[index] && StartsMet(s, q, met) && ResolvedClosed(s, met, uip)
         && MetInSide(s, q, index, met) && NoneAfter(s, q, index)
  }

  lemma StartTracing(s: State, q: Ref)
    requires q in s.db
    ensures Tracing(s, q, Met({}, {}, {}), |s.trail|, NO_LITERAL)
  {
  }

  lemma LaterVarsMore(s: State, i: nat, j: nat)
    requires j <= i
    ensures LaterVars(s, i) <= LaterVars(s, j)
  {
  }

  lemma MetMore(before: Met, met: Met, v: nat)
    requires MetGrows(before, met) && InMet(before, v)
    ensures InMet(met, v)
  {
  }

  /** The scan of the conflict, or of the next reason, leaves every start met. */
  lemma StartsStillMet(f: Formula, s: State, q: Ref, before: Met, met: Met, bound: nat, uip: Lit, reason: Ref)
    requires Tracing(s, q, before, bound, uip) && Resolving(f, s, before, bound, uip, reason, q)
             && MetGrows(before, met)
    requires SearchOk(s) && Scanned(s, s.db[reason].lits, |s.db[reason].lits|, uip, met)
    ensures StartsMet(s, q, met)
  {
    forall l | l in s.db[q].lits ensures VarLevel(s, Var(l)) == 0 || InMet(met, Var(l)) {
      VarTables(s, l);
      if uip == NO_LITERAL {
        var i :| 0 <= i < |s.db[q].lits| && s.db[q].lits[i] == l;
        assert ClauseOk(s.n, s.db[q].lits) && ValidLit(s.n, s.db[q].lits[i]);
      } else if InMet(before, Var(l)) {
        MetMore(before, met, Var(l));
      }
    }
  }

  lemma StillClosed(f: Formula, s: State, q: Ref, before: Met, met: Met, bound: nat, uip: Lit, reason: Ref, next: Lit)
    requires Tracing(s, q, before, bound, uip) && Resolving(f, s, before, bound, uip, reason, q)
             && MetGrows(before, met)
    requires SearchOk(s) && Scanned(s, s.db[reason].lits, |s.db[reason].lits|, uip, met)
    ensures ResolvedClosed(s, met.(open := met.open - {Var(next)}), next)
  {
    var after := met.(open := met.open - {Var(next)});
    forall u, w | u in after.current && u !in after.open && u != Var(next) && RestsOn(s, u, w)
      ensures VarLevel(s, w) == 0 || InMet(after, w)
    {
      assert u in before.current && uip != NO_LITERAL;
      if u == Var(uip) {
        VarTables(s, uip);
        var m :| m in s.db[reason].lits && Var(m) == w;
        var i :| 0 <= i < |s.db[reason].lits| && s.db[reason].lits[i] == m;
        VarTables(s, m);
      } else {
        assert VarLevel(s, w) == 0 || InMet(before, w);
      }
    }
  }

  lemma StillInSide(f: Formula, s: State, q: Ref, before: Met, met: Met, bound: nat, uip: Lit, reason: Ref, next: nat,
                    after: Met)
    requires Tracing(s, q, before, bound, uip) && Resolving(f, s, before, bound, uip, reason, q)
    requires SearchOk(s) && s.level > 0 && MetOk(s, met, bound) && MetGrows(before, met)
    requires MetFrom(before, met, s.db[reason].lits, |s.db[reason].lits|)
    requires next < bound && after == met.(open := after.open)
    ensures MetInSide(s, q, next, after)
  {
    LaterVarsMore(s, bound, next);
    VarTables(s, uip);
    forall v | InMet(after, v) ensures InSide(s, q, next, v) {
      assert VarLevel(s, v) > 0;
      if InMet(before, v) {
        StillBehind(s, q, bound, next, v);
      } else {
        var i :| 0 <= i < |s.db[reason].lits| && Var(s.db[reason].lits[i]) == v;
        assert s.db[reason].lits[i] in s.db[reason].lits;
        if uip == NO_LITERAL {
          BehindStart(s, ClauseVars(s.db[q].lits), LaterVars(s, next), v);
        } else {
          assert Var(uip) in met.current;
          FromReason(s, q, before, bound, uip, reason, next, v);
        }
      }
    }
  }

  lemma StillBehind(s: State, q: Ref, bound: nat, next: nat, v: nat)
    requires InSide(s, q, bound, v) && next <= bound
    ensures InSide(s, q, next, v)
  {
    LaterVarsMore(s, bound, next);
    BehindMore(s, ClauseVars(s.db[q].lits), LaterVars(s, bound), LaterVars(s, next), v);
  }

  lemma FromReason(s: State, q: Ref, before: Met, bound: nat, uip: Lit, reason: Ref, next: nat, v: nat)
    requires SearchOk(s) && Tracing(s, q, before, bound, uip) && uip != NO_LITERAL && Var(uip) in before.current
    requires reason in s.db && ReasonOf(s, uip) == Because(reason) && Level(s, uip) == s.level
    requires next < bound && Speaks(s.db[reason].lits, v)
    ensures Behind(s, ClauseVars(s.db[q].lits), LaterVars(s, next), v)
  {
    var starts := ClauseVars(s.db[q].lits);
    VarTables(s, uip);
    TrailEntry(s, bound);
    AssignedVar(s, uip);
    LaterVarsMore(s, bound, next);
    assert InSide(s, q, bound, Var(uip));
    BehindMore(s, starts, LaterVars(s, bound), LaterVars(s, next), Var(uip));
    BehindNext(s, starts, LaterVars(s, next), Var(uip), v);
  }

  /** Everything the conflict rests on down to position `j` has been met, or is at the root. */
  lemma SideIsMet(s: State, q: Ref, met: Met, uip: Lit, j: nat, v: nat)
    requires SearchOk(s) && s.level > 0 && q in s.db && StartsMet(s, q, met) && ResolvedClosed(s, met, uip)
    requires forall u :: u in met.current && VarPosition(s, u) > j ==> u !in met.open && u != Var(uip)
    requires forall u :: u in met.low ==> VarLevel(s, u) < s.level
    requires InSide(s, q, j, v)
    ensures InMet(met, v)
  {
    var path: seq<nat> :| TraceTo(s, ClauseVars(s.db[q].lits), LaterVars(s, j), path, v);
    TraceMet(s, q, met, uip, j, path, |path| - 1);
  }

  lemma {:induction false} TraceMet(s: State, q: Ref, met: Met, uip: Lit, j: nat, path: seq<nat>, k: nat)
    requires SearchOk(s) && q in s.db && StartsMet(s, q, met) && ResolvedClosed(s, met, uip) && s.level > 0
    requires forall u :: u in met.current && VarPosition(s, u) > j ==> u !in met.open && u != Var(uip)
    requires forall u :: u in met.low ==> VarLevel(s, u) < s.level
    requires IsTrace(s, LaterVars(s, j), path) && path[0] in ClauseVars(s.db[q].lits) && k < |path|
    ensures VarLevel(s, path[k]) == 0 || InMet(met, path[k])
  {
    if k == 0 {
      var l :| l in s.db[q].lits && Var(l) == path[0];
    } else {
      TraceMet(s, q, met, uip, j, path, k - 1);
      assert path[k - 1] in LaterVars(s, j) && RestsOn(s, path[k - 1], path[k - 1 + 1]);
    }
  }

  /** None of the literals between the next one and the one before it is a unique implication point. */
  lemma StillNone(f: Formula, s: State, q: Ref, before: Met, met: Met, bound: nat, uip: Lit, reason: Ref, next: nat,
                  after: Met)
    requires SearchOk(s) && s.level > 0
    requires Tracing(s, q, before, bound, uip) && Resolving(f, s, before, bound, uip, reason, q)
    requires MetOk(s, met, bound) && next < bound <= |s.trail| && after == met.(open := met.open - {Var(s.trail[next])})
    requires forall u :: u in met.open ==> VarPosition(s, u) <= next
    requires MetOk(s, before, bound)
    requires StartsMet(s, q, after) && ResolvedClosed(s, after, s.trail[next])
    ensures NoneAfter(s, q, next)
  {
    TrailEntry(s, next);
    VarTables(s, s.trail[next]);
    forall j | next < j < |s.trail| ensures !IsUip(s, q, j) {
      if j == bound {
        var u :| u in before.open;
        assert InMet(before, u) && InSide(s, q, bound, u) && VarPosition(s, u) < bound;
      } else if j < bound {
        BetweenIsNone(s, q, met, bound, next, after, j);
      }
    }
  }

  lemma BetweenIsNone(s: State, q: Ref, met: Met, bound: nat, next: nat, after: Met, j: nat)
    requires SearchOk(s) && s.level > 0 && q in s.db && next < j < bound <= |s.trail|
    requires MetOk(s, met, bound) && after == met.(open := met.open - {Var(s.trail[next])})
    requires forall u :: u in met.open ==> VarPosition(s, u) <= next
    requires StartsMet(s, q, after) && ResolvedClosed(s, after, s.trail[next])
    ensures !IsUip(s, q, j)
  {
    TrailEntry(s, next);
    TrailEntry(s, j);
    VarTables(s, s.trail[next]);
    VarTables(s, s.trail[j]);
    if InSide(s, q, j, Var(s.trail[j])) && Level(s, s.trail[j]) == s.level {
      SideIsMet(s, q, after, s.trail[next], j, Var(s.trail[j]));
    }
  }

  /** One more resolution. */
  lemma TracingStep(f: Formula, s: State, q: Ref, before: Met, met: Met, bound: nat, uip: Lit, reason: Ref, next: nat)
    requires SearchOk(s) && s.level > 0 && MetOk(s, before, bound)
    requires Tracing(s, q, before, bound, uip) && Resolving(f, s, before, bound, uip, reason, q)
    requires MetGrows(before, met) && MetOk(s, met, bound) && next < bound <= |s.trail|
    requires Scanned(s, s.db[reason].lits, |s.db[reason].lits|, uip, met)
    requires MetFrom(before, met, s.db[reason].lits, |s.db[reason].lits|)
    requires forall u :: u in met.open ==> VarPosition(s, u) <= next
    ensures Tracing(s, q, met.(open := met.open - {Var(s.trail[next])}), next, s.trail[next])
  {
    var after := met.(open := met.open - {Var(s.trail[next])});
    TrailEntry(s, next);
    StartsStillMet(f, s, q, before, met, bound, uip, reason);
    StillClosed(f, s, q, before, met, bound, uip, reason, s.trail[next]);
    StillInSide(f, s, q, before, met, bound, uip, reason, next, after);
    StillNone(f, s, q, before, met, bound, uip, reason, next, after);
    assert s.trail[next] != NO_LITERAL;
  }

  /** The resolution recorded: the clause has been scanned and the next literal found. */
  lemma StepTraced(f: Formula, s: State, x: Scratch, learned: Clause, q: Ref, before: Met, met: Met, bound: nat,
                   uip: Lit, reason: Ref, index: nat)
    requires SearchOk(s) && s.level > 0 && MetOk(s, before, bound)
    requires Tracing(s, q, before, bound, uip) && Resolving(f, s, before, bound, uip, reason, q)
    requires ScanFound(f, s, x, learned, before, met, bound, uip, reason, index)
    ensures index < |s.trail| && Var(s.trail[index]) in met.open
    ensures Tracing(s, q, met.(open := met.open - {Var(s.trail[index])}), index, s.trail[index])
  {
    hide Tracing, Resolving, Scanned, MetFrom, MetGrows, MetOk, Refuted;
    CollectingMet(s, x, learned, met, bound);
    TracingStep(f, s, q, before, met, bound, uip, reason, index);
  }

  /** What analysis ends with: the first unique implication point, and exactly what the conflict rests on before it. */
  ghost predicate PointFound(s: State, q: Ref, i: nat, met: Met) {
    && FirstUip(s, q, i)
    && (forall v :: v in met.low <==> InSide(s, q, i, v) && VarLevel(s, v) < s.level)
    && (forall v :: v in met.current <==> InSide(s, q, i, v) && VarLevel(s, v) == s.level)
  }

  lemma ConflictHeld(f: Formula, s: State, q: Ref)
    requires Resolving(f, s, Met({}, {}, {}), |s.trail|, NO_LITERAL, q, q)
    ensures q in s.db
  {
  }

  lemma PointIsFound(f: Formula, s: State, x: Scratch, learned: Clause, q: Ref, met: Met, index: nat)
    requires SearchOk(s) && s.level > 0 && index < |s.trail| && Tracing(s, q, met, index, s.trail[index])
    requires Collecting(s, x, learned, met, index) && UipFound(f, s, met, s.trail[index]) && met.open == {}
    ensures PointFound(s, q, Position(s, s.trail[index]), met)
  {
    hide Tracing, PointFound, Tidy, MarksAre, TailLists, Refuted;
    TrailEntry(s, index);
    TracingDone(s, q, met, index, s.trail[index]);
  }

  lemma TracingDone(s: State, q: Ref, met: Met, index: nat, uip: Lit)
    requires SearchOk(s) && s.level > 0 && Tracing(s, q, met, index, uip) && MetOk(s, met, index)
    requires uip != NO_LITERAL && met.open == {} && Var(uip) in met.current
    ensures PointFound(s, q, index, met)
  {
    TrailEntry(s, index);
    VarTables(s, uip);
    forall v | InSide(s, q, index, v) ensures InMet(met, v) {
      SideIsMet(s, q, met, uip, index, v);
    }
    forall v | InSide(s, q, index, v) && VarLevel(s, v) == s.level ensures VarPosition(s, v) >= index {
      assert v in met.current;
    }
    assert IsUip(s, q, index);
  }
}
