/** The root, removal and resolution chains, in that order, are an LRAT hint chain for the learned clause. */
module Antecedents {
  import opened Logic
  import opened SearchState
  import opened Watching
  import opened Analysis
  import opened Causes
  import opened ProofChain
  import opened Minimization

  ghost function TrailLit(s: State, v: nat): Lit {
    if VarPosition(s, v) < |s.trail| then s.trail[VarPosition(s, v)] else NO_LITERAL
  }

  lemma TrailLitFacts(s: State, v: nat)
    requires Sized(s) && TrailOk(s) && VarAssigned(s, v)
    ensures Var(TrailLit(s, v)) == v && Value(s, TrailLit(s, v)) == 1
    ensures forall m: Lit :: Var(m) == v && Value(s, m) == -1 ==> Neg(m) == TrailLit(s, v)
  {
    VarOnTrail(s, v);
    TrailEntry(s, VarPosition(s, v));
    forall m: Lit | Var(m) == v && Value(s, m) == -1 ensures Neg(m) == TrailLit(s, v) {
      SameVar(m, TrailLit(s, v));
      NegNeg(m);
      NegNeg(TrailLit(s, v));
    }
  }

  /** Hint `i` is the reason of `vars[i]`, a variable not met before; the reason's others are assumed or listed. */
  ghost predicate VarHint(s: State, assumed: set<nat>, hints: seq<Ref>, vars: seq<nat>, i: nat)
    requires i < |hints| && i < |vars|
  {
    && VarAssigned(s, vars[i]) && VarReason(s, vars[i]) == Because(hints[i]) && hints[i] in s.db
    && vars[i] !in assumed && !Listed(vars, i, vars[i])
    && forall m :: m in s.db[hints[i]].lits && Var(m) != vars[i] ==> Var(m) in assumed || Listed(vars, i, Var(m))
  }

  /** The variables of the clause, all of its literals being false. */
  ghost predicate AssumesVars(s: State, c: Clause, assumed: set<nat>) {
    && Falsified(s, c)
    && (forall l :: l in c ==> Var(l) in assumed)
    && (forall v :: v in assumed ==> exists l :: l in c && Var(l) == v)
  }

  ghost function TrailLits(s: State, vars: seq<nat>): seq<Lit> {
    seq(|vars|, i requires 0 <= i < |vars| => TrailLit(s, vars[i]))
  }

  lemma DerivedTrailLit(s: State, c: Clause, assumed: set<nat>, vars: seq<nat>, i: nat, m: Lit)
    requires Sized(s) && TrailOk(s) && AssumesVars(s, c, assumed) && Value(s, m) == -1
    requires Var(m) in assumed || Listed(vars, i, Var(m))
    ensures Derived(Negations(c), TrailLits(s, vars), i, Neg(m))
  {
    AssignedVar(s, m);
    TrailLitFacts(s, Var(m));
    if Var(m) in assumed {
      var l :| l in c && Var(l) == Var(m);
      assert Neg(l) in Negations(c);
    } else {
      var j :| 0 <= j < i && j < |vars| && vars[j] == Var(m);
      assert TrailLits(s, vars)[j] == Neg(m);
    }
  }

  lemma VarHintIsUnit(s: State, c: Clause, assumed: set<nat>, hints: seq<Ref>, vars: seq<nat>, i: nat)
    requires SearchOk(s) && AssumesVars(s, c, assumed) && i < |hints| && i < |vars|
    requires forall j :: 0 <= j <= i ==> VarHint(s, assumed, hints, vars, j)
    ensures UnitHint(s.db, Negations(c), hints, TrailLits(s, vars), i)
  {
    var units := TrailLits(s, vars);
    var v := vars[i];
    assert VarHint(s, assumed, hints, vars, i);
    TrailLitFacts(s, v);
    VarOnTrail(s, v);
    var at := VarPosition(s, v);
    VarTables(s, s.trail[at]);
    assert ReasonAt(s, at);
    forall l | l in Negations(c) ensures Var(l) != Var(units[i]) {
      var k :| k in c && l == Neg(k);
    }
    forall j | 0 <= j < i ensures Var(units[j]) != Var(units[i]) {
      assert VarHint(s, assumed, hints, vars, j);
      TrailLitFacts(s, vars[j]);
      assert vars[j] == v ==> Listed(vars, i, v);
    }
    forall m | m in s.db[hints[i]].lits && m != units[i] ensures Derived(Negations(c), units, i, Neg(m)) {
      SameAsTrail(s, at, m);
      DerivedTrailLit(s, c, assumed, vars, i, m);
    }
  }

  /** A chain of reasons ending in a falsified clause is an LRAT step. */
  lemma VarChainIsLrat(s: State, c: Clause, assumed: set<nat>, hints: seq<Ref>, vars: seq<nat>)
    requires SearchOk(s) && AssumesVars(s, c, assumed) && |hints| == |vars| + 1
    requires forall i :: 0 <= i < |vars| ==> VarHint(s, assumed, hints, vars, i)
    requires hints[|vars|] in s.db && Falsified(s, s.db[hints[|vars|]].lits)
    requires forall m :: m in s.db[hints[|vars|]].lits ==> Var(m) in assumed || Listed(vars, |vars|, Var(m))
    ensures LratStep(s.db, c, hints)
  {
    var units := TrailLits(s, vars);
    forall i | 0 <= i < |units| ensures UnitHint(s.db, Negations(c), hints, units, i) {
      VarHintIsUnit(s, c, assumed, hints, vars, i);
    }
    forall m | m in s.db[hints[|units|]].lits ensures Derived(Negations(c), units, |units|, Neg(m)) {
      DerivedTrailLit(s, c, assumed, vars, |vars|, m);
    }
    assert LratUnits(s.db, c, hints, units);
  }

  function Reversed<T>(xs: seq<T>): (r: seq<T>)
    ensures |r| == |xs|
    ensures forall i :: 0 <= i < |xs| ==> r[i] == xs[|xs| - 1 - i]
  {
    if xs == [] then [] else Reversed(xs[1..]) + [xs[0]]
  }

  lemma ReversedLast<T>(xs: seq<T>, k: nat)
    requires k < |xs|
    ensures Reversed(xs[..k + 1]) == [xs[k]] + Reversed(xs[..k])
  {
    assert xs[..k + 1][..k] == xs[..k];
  }

  /** The antecedents in the order they are emitted. */
  function EmittedChain(c: Chains): seq<Ref> {
    c.rootRefs + c.minRefs + Reversed(c.resolvedRefs)
  }

  ghost function EmittedVars(c: Chains): seq<nat> {
    c.rootVars + c.minVars + Reversed(c.resolvedVars)
  }

  lemma EmittedVarAt(c: Chains, j: nat)
    requires j < |c.rootVars| + |c.minVars| + |c.resolvedVars|
    ensures |EmittedVars(c)| == |c.rootVars| + |c.minVars| + |c.resolvedVars|
    ensures EmittedVars(c)[j]
         == if j < |c.rootVars| then c.rootVars[j]
            else if j < |c.rootVars| + |c.minVars| then c.minVars[j - |c.rootVars|]
            else c.resolvedVars[|c.resolvedVars| - 1 - (j - |c.rootVars| - |c.minVars|)]
  {
  }

  lemma EmittedRefAt(c: Chains, j: nat)
    requires j < |c.rootRefs| + |c.minRefs| + |c.resolvedRefs|
    ensures |EmittedChain(c)| == |c.rootRefs| + |c.minRefs| + |c.resolvedRefs|
    ensures EmittedChain(c)[j]
         == if j < |c.rootRefs| then c.rootRefs[j]
            else if j < |c.rootRefs| + |c.minRefs| then c.minRefs[j - |c.rootRefs|]
            else c.resolvedRefs[|c.resolvedRefs| - 1 - (j - |c.rootRefs| - |c.minRefs|)]
  {
  }

  /** Every listed part is a part of the emitted list. */
  lemma EmittedLists(c: Chains, k: nat, at: nat)
    requires at < |c.rootVars| + |c.minVars| + |c.resolvedVars|
    requires k <= |c.rootVars| + |c.minVars| + |c.resolvedVars|
    requires at < k
    ensures |EmittedVars(c)| == |c.rootVars| + |c.minVars| + |c.resolvedVars|
            && Listed(EmittedVars(c), k, EmittedVars(c)[at])
  {
  }

  /** All that analysis leaves behind about its three chains. */
  ghost predicate ChainsReady(s: State, flags: seq<Flags>, c: Chains, met: Met, kept: set<nat>, uip: Lit) {
    && MinimizeChained(s, flags, c, {}) && ListsNeeded(s, c, {})
    && ChainHead(s, c.resolvedRefs, c.resolvedVars, met, c.rootVars, uip) && met.open == {}
    && uip != NO_LITERAL && Value(s, uip) == 1 && Level(s, uip) == s.level > 0
    && (forall v :: v in kept ==> VarAssigned(s, v) && 0 < VarLevel(s, v) < s.level)
    && (forall v :: 0 <= v < |flags| && flags[v].keep ==> v in kept)
    && (forall v :: v in kept ==> v < |flags| && flags[v].keep && !flags[v].removable)
    && (forall v :: v in met.low ==> v in kept || v in c.minVars)
  }

  lemma RootHint(s: State, flags: seq<Flags>, c: Chains, met: Met, kept: set<nat>, uip: Lit, i: nat)
    requires SearchOk(s) && ChainsReady(s, flags, c, met, kept, uip) && i < |c.rootRefs|
    ensures i < |EmittedChain(c)| && i < |EmittedVars(c)|
    ensures VarHint(s, kept + {Var(uip)}, EmittedChain(c), EmittedVars(c), i)
  {
    hide ListsNeeded, MetOccurs, VarsOccur;
    var vars := EmittedVars(c);
    VarTables(s, uip);
    assert RootEntry(s, c.rootRefs, c.rootVars, i);
    forall u ensures Listed(c.rootVars, i, u) <==> Listed(vars, i, u) {
      assert forall j :: 0 <= j < i ==> vars[j] == c.rootVars[j];
    }
  }

  lemma RootsHaveLevelZero(s: State, refs: seq<Ref>, vars: seq<nat>)
    requires RootChain(s, refs, vars)
    ensures forall v :: v in vars ==> VarLevel(s, v) == 0
  {
    forall v | v in vars ensures VarLevel(s, v) == 0 {
      var i :| 0 <= i < |vars| && vars[i] == v;
      assert RootEntry(s, refs, vars, i);
    }
  }

  lemma RemovedLevels(s: State, flags: seq<Flags>, rootVars: seq<nat>, refs: seq<Ref>, vars: seq<nat>)
    requires MinimizedChain(s, flags, rootVars, refs, vars)
    ensures forall v :: v in vars ==> 0 < VarLevel(s, v) < s.level && v < |flags| && flags[v].removable
  {
    forall v | v in vars ensures 0 < VarLevel(s, v) < s.level && v < |flags| && flags[v].removable {
      var i :| 0 <= i < |vars| && vars[i] == v;
      assert MinimizedEntry(s, flags, rootVars, refs, vars, i);
    }
  }

  /** A literal of a removed variable's reason is assumed, or its variable is listed before. */
  lemma RemovedCovered(s: State, flags: seq<Flags>, c: Chains, met: Met, kept: set<nat>, uip: Lit, i: nat, m: Lit)
    requires SearchOk(s) && ChainsReady(s, flags, c, met, kept, uip) && i < |c.minRefs|
    requires c.minRefs[i] in s.db && m in s.db[c.minRefs[i]].lits && i < |c.minVars| && Var(m) != c.minVars[i]
    ensures Var(m) in kept + {Var(uip)} || Listed(EmittedVars(c), |c.rootRefs| + i, Var(m))
  {
    hide ListsNeeded, MetOccurs, VarsOccur;
    var at := |c.rootRefs| + i;
    assert MinimizedEntry(s, flags, c.rootVars, c.minRefs, c.minVars, i);
    hide EmittedVars, EmittedChain, Reversed, SearchOk, RootChained, ResolutionChain;
    if VarLevel(s, Var(m)) == 0 && Var(m) in c.rootVars {
      var j :| 0 <= j < |c.rootVars| && c.rootVars[j] == Var(m);
      EmittedVarAt(c, j);
      EmittedLists(c, at, j);
    } else if Var(m) !in kept {
      var j :| 0 <= j < i && c.minVars[j] == Var(m);
      EmittedVarAt(c, |c.rootVars| + j);
      EmittedLists(c, at, |c.rootVars| + j);
    }
  }

  lemma RemovedHint(s: State, flags: seq<Flags>, c: Chains, met: Met, kept: set<nat>, uip: Lit, i: nat)
    requires SearchOk(s) && ChainsReady(s, flags, c, met, kept, uip) && i < |c.minRefs|
    ensures |c.rootRefs| + i < |EmittedChain(c)| && |c.rootRefs| + i < |EmittedVars(c)|
    ensures VarHint(s, kept + {Var(uip)}, EmittedChain(c), EmittedVars(c), |c.rootRefs| + i)
  {
    var vars := EmittedVars(c);
    var at := |c.rootRefs| + i;
    hide ListsNeeded, MetOccurs, VarsOccur, ResolutionChain;
    VarTables(s, uip);
    assert MinimizedEntry(s, flags, c.rootVars, c.minRefs, c.minVars, i);
    RootsHaveLevelZero(s, c.rootRefs, c.rootVars);
    EmittedVarAt(c, at);
    EmittedRefAt(c, at);
    hide EmittedVars, EmittedChain, Reversed, SearchOk, RootChained;
    forall m | m in s.db[c.minRefs[i]].lits && Var(m) != vars[at]
      ensures Var(m) in kept + {Var(uip)} || Listed(vars, at, Var(m))
    {
      RemovedCovered(s, flags, c, met, kept, uip, i, m);
    }
    forall j | 0 <= j < at ensures vars[j] != vars[at] {
      EmittedVarAt(c, j);
    }
  }

  /** A met variable is assumed, or listed before the resolved variables of lower trail positions. */
  lemma ResolvedCovered(s: State, flags: seq<Flags>, c: Chains, met: Met, kept: set<nat>, uip: Lit, k: nat, m: Lit)
    requires SearchOk(s) && ChainsReady(s, flags, c, met, kept, uip) && k <= |c.resolvedVars|
    requires Var(m) in met.low || Var(m) in met.current || (VarLevel(s, Var(m)) == 0 && Var(m) in c.rootVars)
    requires Var(m) in met.current && Var(m) != Var(uip) && k < |c.resolvedVars| ==>
               VarPosition(s, Var(m)) < VarPosition(s, c.resolvedVars[|c.resolvedVars| - 1 - k])
    ensures Var(m) in kept + {Var(uip)} || Listed(EmittedVars(c), |c.rootVars| + |c.minVars| + k, Var(m))
  {
    hide ListsNeeded, MetOccurs, VarsOccur;
    var r, n := |c.rootVars|, |c.resolvedVars|;
    var at := r + |c.minVars| + k;
    hide EmittedVars, EmittedChain, Reversed, RootChained, MinimizedChain, ResolutionChain;
    if Var(m) in kept + {Var(uip)} {
    } else if VarLevel(s, Var(m)) == 0 && Var(m) in c.rootVars {
      var j :| 0 <= j < r && c.rootVars[j] == Var(m);
      EmittedVarAt(c, j);
      EmittedLists(c, at, j);
    } else if Var(m) in met.low {
      var j :| 0 <= j < |c.minVars| && c.minVars[j] == Var(m);
      EmittedVarAt(c, r + j);
      EmittedLists(c, at, r + j);
    } else {
      assert Var(m) in c.resolvedVars;
      var j :| 0 <= j < n && c.resolvedVars[j] == Var(m);
      FallingOrder(s, c.resolvedRefs, c.resolvedVars, met, c.rootVars, n - 1 - k, j);
      EmittedVarAt(c, at + n - 1 - j - k);
      EmittedLists(c, at, at + n - 1 - j - k);
    }
  }

  lemma FallingOrder(s: State, refs: seq<Ref>, vars: seq<nat>, met: Met, rootVars: seq<nat>, k: int, j: nat)
    requires ResolutionChain(s, refs, vars, met, rootVars) && -1 <= k < |vars| && j < |vars|
    requires 0 <= k ==> VarPosition(s, vars[j]) < VarPosition(s, vars[k])
    ensures k < j
  {
  }

  /** The reason of a variable resolved on: its other literals are older, and all have been met. */
  lemma ResolvedReason(s: State, refs: seq<Ref>, vars: seq<nat>, met: Met, rootVars: seq<nat>, j: nat)
    requires SearchOk(s) && ResolutionChain(s, refs, vars, met, rootVars) && j < |vars|
    ensures VarAssigned(s, vars[j]) && VarLevel(s, vars[j]) == s.level && VarReason(s, vars[j]) == Because(refs[j + 1])
    ensures refs[j + 1] in s.db && Covers(s, s.db[refs[j + 1]].lits, met, rootVars)
    ensures forall m :: m in s.db[refs[j + 1]].lits && Var(m) != vars[j] ==>
            VarPosition(s, Var(m)) < VarPosition(s, vars[j])
  {
    var v := vars[j];
    assert ResolvedAt(s, refs, vars, met.current, j);
    VarOnTrail(s, v);
    var i := VarPosition(s, v);
    VarTables(s, s.trail[i]);
    assert ReasonAt(s, i);
    forall m | m in s.db[refs[j + 1]].lits && Var(m) != v ensures VarPosition(s, Var(m)) < i {
      VarTables(s, m);
    }
  }

  lemma ResolvedHint(s: State, flags: seq<Flags>, c: Chains, met: Met, kept: set<nat>, uip: Lit, k: nat)
    requires SearchOk(s) && ChainsReady(s, flags, c, met, kept, uip) && k < |c.resolvedVars|
    ensures var at := |c.rootVars| + |c.minVars| + k;
            at < |EmittedChain(c)| && at < |EmittedVars(c)|
            && VarHint(s, kept + {Var(uip)}, EmittedChain(c), EmittedVars(c), at)
  {
    hide EmittedVars, EmittedChain, Reversed, ChainsReady, SearchOk, Covers;
    var vars := EmittedVars(c);
    var at := |c.rootVars| + |c.minVars| + k;
    var j := |c.resolvedVars| - 1 - k;
    var v := c.resolvedVars[j];
    ResolvedEntry(s, flags, c, met, kept, uip, j);
    ResolvedIsNew(s, flags, c, met, kept, uip, j);
    EmittedVarAt(c, at);
    EmittedRefAt(c, at);
    EarlierDiffer(s, flags, c, met, kept, uip, k);
    forall m | m in s.db[c.resolvedRefs[j + 1]].lits && Var(m) != v
      ensures Var(m) in kept + {Var(uip)} || Listed(vars, at, Var(m))
    {
      CoveredIsMet(s, s.db[c.resolvedRefs[j + 1]].lits, met, c.rootVars, m);
      ResolvedCovered(s, flags, c, met, kept, uip, k, m);
    }
  }

  lemma CoveredIsMet(s: State, c: Clause, met: Met, rootVars: seq<nat>, m: Lit)
    requires Covers(s, c, met, rootVars) && m in c
    ensures Var(m) in met.low || Var(m) in met.current || (VarLevel(s, Var(m)) == 0 && Var(m) in rootVars)
  {
  }

  lemma ResolvedEntry(s: State, flags: seq<Flags>, c: Chains, met: Met, kept: set<nat>, uip: Lit, j: nat)
    requires SearchOk(s) && ChainsReady(s, flags, c, met, kept, uip) && j < |c.resolvedVars|
    ensures |c.resolvedRefs| == |c.resolvedVars| + 1
    ensures VarAssigned(s, c.resolvedVars[j]) && VarReason(s, c.resolvedVars[j]) == Because(c.resolvedRefs[j + 1])
    ensures c.resolvedRefs[j + 1] in s.db && Covers(s, s.db[c.resolvedRefs[j + 1]].lits, met, c.rootVars)
    ensures forall m :: m in s.db[c.resolvedRefs[j + 1]].lits && Var(m) != c.resolvedVars[j] ==>
              VarPosition(s, Var(m)) < VarPosition(s, c.resolvedVars[j])
  {
    ResolvedReason(s, c.resolvedRefs, c.resolvedVars, met, c.rootVars, j);
  }

  /** A variable resolved on is neither kept nor the one left. */
  lemma ResolvedIsNew(s: State, flags: seq<Flags>, c: Chains, met: Met, kept: set<nat>, uip: Lit, j: nat)
    requires SearchOk(s) && ChainsReady(s, flags, c, met, kept, uip) && j < |c.resolvedVars|
    ensures c.resolvedVars[j] !in kept + {Var(uip)} && |c.rootRefs| == |c.rootVars| && |c.minRefs| == |c.minVars|
    ensures |c.resolvedRefs| == |c.resolvedVars| + 1
  {
    hide ListsNeeded, MetOccurs, VarsOccur;
    assert ResolvedAt(s, c.resolvedRefs, c.resolvedVars, met.current, j);
    VarTables(s, uip);
  }

  lemma EarlierDiffer(s: State, flags: seq<Flags>, c: Chains, met: Met, kept: set<nat>, uip: Lit, k: nat)
    requires SearchOk(s) && ChainsReady(s, flags, c, met, kept, uip) && k < |c.resolvedVars|
    ensures var at := |c.rootVars| + |c.minVars| + k;
            at < |EmittedVars(c)| && !Listed(EmittedVars(c), at, EmittedVars(c)[at])
  {
    hide ListsNeeded, MetOccurs, VarsOccur;
    var n := |c.resolvedVars|;
    var at := |c.rootVars| + |c.minVars| + k;
    EmittedVarAt(c, at);
    RootsHaveLevelZero(s, c.rootRefs, c.rootVars);
    RemovedLevels(s, flags, c.rootVars, c.minRefs, c.minVars);
    hide EmittedVars, Reversed, RootChained, MinimizedChain;
    assert ResolvedAt(s, c.resolvedRefs, c.resolvedVars, met.current, n - 1 - k);
    forall j | 0 <= j < at ensures EmittedVars(c)[j] != c.resolvedVars[n - 1 - k] {
      EmittedVarAt(c, j);
    }
  }

  /** The emitted antecedents justify the learned clause by unit propagation alone. */
  lemma EmittedChainIsLrat(s: State, flags: seq<Flags>, c: Chains, met: Met, kept: set<nat>, uip: Lit, learned: Clause)
    requires SearchOk(s) && ChainsReady(s, flags, c, met, kept, uip)
    requires AssumesVars(s, learned, kept + {Var(uip)})
    ensures LratStep(s.db, learned, EmittedChain(c))
  {
    EmittedHints(s, flags, c, met, kept, uip);
    EmittedEnd(s, flags, c, met, kept, uip);
    VarChainIsLrat(s, learned, kept + {Var(uip)}, EmittedChain(c), EmittedVars(c));
  }

  lemma EmittedLengths(s: State, flags: seq<Flags>, c: Chains, met: Met, kept: set<nat>, uip: Lit)
    requires ChainsReady(s, flags, c, met, kept, uip)
    ensures |c.rootRefs| == |c.rootVars| && |c.minRefs| == |c.minVars| && |c.resolvedRefs| == |c.resolvedVars| + 1
    ensures |EmittedVars(c)| == |c.rootVars| + |c.minVars| + |c.resolvedVars| == |EmittedChain(c)| - 1
  {
  }

  /** Every hint but the last is the reason of its variable, over variables assumed or listed before. */
  lemma EmittedHints(s: State, flags: seq<Flags>, c: Chains, met: Met, kept: set<nat>, uip: Lit)
    requires SearchOk(s) && ChainsReady(s, flags, c, met, kept, uip)
    ensures var hints, vars := EmittedChain(c), EmittedVars(c);
            |hints| == |vars| + 1 && forall i :: 0 <= i < |vars| ==> VarHint(s, kept + {Var(uip)}, hints, vars, i)
  {
    hide ChainsReady, SearchOk, VarHint, EmittedChain, EmittedVars;
    EmittedLengths(s, flags, c, met, kept, uip);
    forall i | 0 <= i < |EmittedVars(c)|
      ensures VarHint(s, kept + {Var(uip)}, EmittedChain(c), EmittedVars(c), i)
    {
      EmittedHintAt(s, flags, c, met, kept, uip, i);
    }
  }

  lemma EmittedHintAt(s: State, flags: seq<Flags>, c: Chains, met: Met, kept: set<nat>, uip: Lit, i: nat)
    requires SearchOk(s) && ChainsReady(s, flags, c, met, kept, uip) && i < |EmittedVars(c)|
    ensures i < |EmittedChain(c)| && VarHint(s, kept + {Var(uip)}, EmittedChain(c), EmittedVars(c), i)
  {
    hide ChainsReady, SearchOk, VarHint, EmittedChain, EmittedVars;
    EmittedLengths(s, flags, c, met, kept, uip);
    var r, m := |c.rootVars|, |c.minVars|;
    if i < r {
      RootHint(s, flags, c, met, kept, uip, i);
    } else if i < r + m {
      RemovedHint(s, flags, c, met, kept, uip, i - r);
    } else {
      ResolvedHint(s, flags, c, met, kept, uip, i - r - m);
    }
  }

  /** A variable that occurs in a clause listed later is needed by a later hint. */
  lemma NeededLater(s: State, c: Chains, i: nat)
    requires ListsNeeded(s, c, {}) && VarsOccur(s, c.resolvedRefs, c.resolvedVars)
    requires i < |c.rootVars| + |c.minVars| + |c.resolvedVars|
    ensures |EmittedVars(c)| == |c.rootVars| + |c.minVars| + |c.resolvedVars| == |EmittedChain(c)| - 1
    ensures exists j :: i < j < |EmittedChain(c)| && Occurs(s.db, EmittedChain(c)[j], EmittedVars(c)[i])
  {
    var r, m, n := |c.rootVars|, |c.minVars|, |c.resolvedVars|;
    EmittedVarAt(c, i);
    hide EmittedVars, EmittedChain, Reversed, Occurs;
    if i < r {
      assert NeededAt(s, c.rootRefs, c.rootVars, i, {} + Members(c.minRefs) + Members(c.resolvedRefs));
      if Wanted(s, {} + Members(c.minRefs) + Members(c.resolvedRefs), c.rootVars[i]) {
        LaterMember(s, c, i, c.rootVars[i]);
      } else {
        var j :| i < j < |c.rootRefs| && Occurs(s.db, c.rootRefs[j], c.rootVars[i]);
        EmittedRefAt(c, j);
      }
    } else if i < r + m {
      var v := c.minVars[i - r];
      assert NeededAt(s, c.minRefs, c.minVars, i - r, {} + Members(c.resolvedRefs));
      if Wanted(s, {} + Members(c.resolvedRefs), v) {
        ResolvedMember(s, c, i, n, v);
      } else {
        var j :| i - r < j < |c.minRefs| && Occurs(s.db, c.minRefs[j], v);
        EmittedRefAt(c, r + j);
      }
    } else {
      var k := n - 1 - (i - r - m);
      ResolvedMember(s, c, i, k, c.resolvedVars[k]);
    }
  }

  lemma LaterMember(s: State, c: Chains, i: nat, v: nat)
    requires i < |c.rootRefs| && |c.rootRefs| == |c.rootVars| && |c.minRefs| == |c.minVars|
    requires |c.resolvedRefs| == |c.resolvedVars| + 1
    requires Wanted(s, {} + Members(c.minRefs) + Members(c.resolvedRefs), v)
    ensures exists j :: i < j < |EmittedChain(c)| && Occurs(s.db, EmittedChain(c)[j], v)
  {
    var q :| q in {} + Members(c.minRefs) + Members(c.resolvedRefs) && Occurs(s.db, q, v);
    if q in c.minRefs {
      var k :| 0 <= k < |c.minRefs| && c.minRefs[k] == q;
      EmittedRefAt(c, |c.rootRefs| + k);
    } else {
      assert c.resolvedRefs[..|c.resolvedVars| + 1] == c.resolvedRefs && q in Members(c.resolvedRefs);
      ResolvedMember(s, c, i, |c.resolvedVars|, v);
    }
  }

  lemma ResolvedMember(s: State, c: Chains, i: nat, k: nat, v: nat)
    requires |c.rootRefs| == |c.rootVars| && |c.minRefs| == |c.minVars| && |c.resolvedRefs| == |c.resolvedVars| + 1
    requires k <= |c.resolvedVars| && i < |c.rootRefs| + |c.minRefs| + |c.resolvedVars| - k
    requires Wanted(s, Members(c.resolvedRefs[..k + 1]), v)
    ensures exists j :: i < j < |EmittedChain(c)| && Occurs(s.db, EmittedChain(c)[j], v)
  {
    var q :| q in Members(c.resolvedRefs[..k + 1]) && Occurs(s.db, q, v);
    var j :| 0 <= j <= k && c.resolvedRefs[j] == q;
    EmittedRefAt(c, |c.rootRefs| + |c.minRefs| + |c.resolvedRefs| - 1 - j);
  }

  /** None of the antecedents emitted can be left out. */
  lemma EmittedAllCount(s: State, flags: seq<Flags>, c: Chains, met: Met, kept: set<nat>, uip: Lit, learned: Clause)
    requires SearchOk(s) && ChainsReady(s, flags, c, met, kept, uip)
    requires AssumesVars(s, learned, kept + {Var(uip)})
    ensures EveryHintCounts(s.db, learned, EmittedChain(c))
  {
    var hints, vars := EmittedChain(c), EmittedVars(c);
    EmittedHints(s, flags, c, met, kept, uip);
    EmittedEnd(s, flags, c, met, kept, uip);
    forall i | 0 <= i < |vars| ensures CountsAt(s.db, learned, hints, vars, i) {
      assert VarHint(s, kept + {Var(uip)}, hints, vars, i);
      ReasonSpeaks(s, vars[i], hints[i]);
      NeededLater(s, c, i);
      NotSpokenOf(s, learned, kept + {Var(uip)}, vars[i]);
    }
    assert AllCount(s.db, learned, hints, vars);
  }

  lemma NotSpokenOf(s: State, c: Clause, assumed: set<nat>, v: nat)
    requires AssumesVars(s, c, assumed) && v !in assumed
    ensures !Speaks(c, v)
  {
  }

  lemma ReasonSpeaks(s: State, v: nat, r: Ref)
    requires SearchOk(s) && VarAssigned(s, v) && VarReason(s, v) == Because(r)
    ensures Occurs(s.db, r, v)
  {
    VarOnTrail(s, v);
    var i := VarPosition(s, v);
    VarTables(s, s.trail[i]);
    assert ReasonAt(s, i);
    assert s.trail[i] in s.db[r].lits;
  }

  /** The last hint is the conflict, over variables assumed or listed. */
  lemma EmittedEnd(s: State, flags: seq<Flags>, c: Chains, met: Met, kept: set<nat>, uip: Lit)
    requires SearchOk(s) && ChainsReady(s, flags, c, met, kept, uip)
    ensures var hints, vars := EmittedChain(c), EmittedVars(c);
            |hints| == |vars| + 1 && |vars| == |c.rootVars| + |c.minVars| + |c.resolvedVars|
            && hints[|vars|] in s.db && Falsified(s, s.db[hints[|vars|]].lits)
            && forall l :: l in s.db[hints[|vars|]].lits ==>
                 Var(l) in kept + {Var(uip)} || Listed(vars, |vars|, Var(l))
  {
    hide SearchOk, VarPosition, VarLevel, VarReason;
    var hints, vars := EmittedChain(c), EmittedVars(c);
    assert hints[|vars|] == Reversed(c.resolvedRefs)[|c.resolvedVars|] == c.resolvedRefs[0];
    assert Covers(s, s.db[c.resolvedRefs[0]].lits, met, c.rootVars);
    forall l | l in s.db[c.resolvedRefs[0]].lits
      ensures Var(l) in kept + {Var(uip)} || Listed(vars, |vars|, Var(l))
    {
      ResolvedCovered(s, flags, c, met, kept, uip, |c.resolvedVars|, l);
    }
  }

  /** The clause is the reason of an assigned variable, or wholly false. */
  ghost predicate Named(s: State, r: Ref) {
    (exists v: nat :: VarAssigned(s, v) && VarReason(s, v) == Because(r)) || (r in s.db && Falsified(s, s.db[r].lits))
  }

  /** A chain lists nothing but reasons and the conflict. */
  ghost predicate NamesReasons(s: State, chain: seq<Ref>) {
    forall r :: r in chain ==> Named(s, r)
  }

  lemma EmittedNames(s: State, flags: seq<Flags>, c: Chains, met: Met, kept: set<nat>, uip: Lit)
    requires ChainsReady(s, flags, c, met, kept, uip)
    ensures NamesReasons(s, EmittedChain(c))
  {
    hide ListsNeeded, MetOccurs, VarsOccur;
    forall r | r in c.rootRefs ensures Named(s, r) {
      var i :| 0 <= i < |c.rootRefs| && c.rootRefs[i] == r;
      assert RootEntry(s, c.rootRefs, c.rootVars, i);
    }
    forall r | r in c.minRefs ensures Named(s, r) {
      var i :| 0 <= i < |c.minRefs| && c.minRefs[i] == r;
      assert MinimizedEntry(s, flags, c.rootVars, c.minRefs, c.minVars, i);
    }
    forall r | r in c.resolvedRefs ensures Named(s, r) {
      var i :| 0 <= i < |c.resolvedRefs| && c.resolvedRefs[i] == r;
      if i > 0 {
        assert ResolvedAt(s, c.resolvedRefs, c.resolvedVars, met.current, i - 1);
      }
    }
    forall r | r in EmittedChain(c) ensures Named(s, r) {
      if r !in c.rootRefs && r !in c.minRefs {
        var back := Reversed(c.resolvedRefs);
        assert r in back;
        var i :| 0 <= i < |back| && back[i] == r;
        assert c.resolvedRefs[|c.resolvedRefs| - 1 - i] == r;
      }
    }
  }
}
