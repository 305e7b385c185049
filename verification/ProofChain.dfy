/** Antecedent chains: which clauses, in which order, justify a learned clause by unit propagation. */
module ProofChain {
  import opened Logic
  import opened SearchState
  import opened Watching
  import opened Implication
  import opened Analysis
  import opened Causes

  /** `v` is among the first `k` variables of the list. */
  ghost predicate Listed(vars: seq<nat>, k: nat, v: nat) {
    exists j :: 0 <= j < k && j < |vars| && vars[j] == v
  }

  ghost predicate Distinct(vars: seq<nat>) {
    forall i, j :: 0 <= i < j < |vars| ==> vars[i] != vars[j]
  }

  // ---------------------------------------------------------------------------------------------
  // Root literals
  // ---------------------------------------------------------------------------------------------

  /** Entry `i` is the reason of a root variable; the reason's other variables come before it. */
  ghost predicate RootEntry(s: State, refs: seq<Ref>, vars: seq<nat>, i: nat)
    requires i < |refs| == |vars|
  {
    && VarAssigned(s, vars[i]) && VarLevel(s, vars[i]) == 0
    && VarReason(s, vars[i]) == Because(refs[i]) && refs[i] in s.db
    && forall m :: m in s.db[refs[i]].lits && Var(m) != vars[i] ==> Listed(vars, i, Var(m))
  }

  ghost predicate RootChain(s: State, refs: seq<Ref>, vars: seq<nat>) {
    && |refs| == |vars| && Distinct(vars)
    && forall i :: 0 <= i < |refs| ==> RootEntry(s, refs, vars, i)
  }

  ghost predicate Stamped(stamps: seq<nat>, stamp: nat, v: nat) {
    v < |stamps| && stamps[v] == stamp
  }

  /** No stamp is later than the current one. */
  ghost predicate StampsBelow(stamps: seq<nat>, stamp: nat) {
    forall v :: 0 <= v < |stamps| ==> stamps[v] <= stamp
  }

  /** The stamped variables are the listed ones and those still being expanded. */
  ghost predicate StampsAre(stamps: seq<nat>, stamp: nat, rootVars: seq<nat>, minVars: seq<nat>, busy: set<nat>) {
    && (forall v: nat :: Stamped(stamps, stamp, v) ==> v in busy || v in rootVars || v in minVars)
    && (forall i :: 0 <= i < |rootVars| ==> Stamped(stamps, stamp, rootVars[i]))
    && (forall i :: 0 <= i < |minVars| ==> Stamped(stamps, stamp, minVars[i]))
    && (forall v :: v in busy ==> Stamped(stamps, stamp, v) && v !in rootVars && v !in minVars)
  }

  lemma UnstampedIsNew(stamps: seq<nat>, stamp: nat, rootVars: seq<nat>, minVars: seq<nat>, busy: set<nat>, v: nat)
    requires StampsAre(stamps, stamp, rootVars, minVars, busy) && !Stamped(stamps, stamp, v)
    ensures v !in busy && v !in rootVars && v !in minVars
  {
  }

  lemma StampBusy(stamps: seq<nat>, stamp: nat, rootVars: seq<nat>, minVars: seq<nat>, busy: set<nat>, v: nat)
    requires StampsAre(stamps, stamp, rootVars, minVars, busy) && v < |stamps| && v !in rootVars && v !in minVars
    ensures StampsAre(stamps[v := stamp], stamp, rootVars, minVars, busy + {v})
  {
  }

  lemma StampRoot(stamps: seq<nat>, stamp: nat, rootVars: seq<nat>, minVars: seq<nat>, busy: set<nat>, v: nat)
    requires StampsAre(stamps, stamp, rootVars, minVars, busy + {v}) && v !in busy
    ensures StampsAre(stamps, stamp, rootVars + [v], minVars, busy)
  {
    assert (rootVars + [v])[|rootVars|] == v;
    assert forall u :: u in rootVars ==> u in rootVars + [v];
    assert v in busy + {v};
  }

  lemma StampMinimized(stamps: seq<nat>, stamp: nat, rootVars: seq<nat>, minVars: seq<nat>, busy: set<nat>, v: nat)
    requires StampsAre(stamps, stamp, rootVars, minVars, busy + {v}) && v !in busy
    ensures StampsAre(stamps, stamp, rootVars, minVars + [v], busy)
  {
    assert (minVars + [v])[|minVars|] == v;
    assert forall u :: u in minVars ==> u in minVars + [v];
    assert v in busy + {v};
  }

  /** The chains under construction and the stamps that keep them free of repetition. */
  datatype Chains = Chains(stamps: seq<nat>, stamp: nat, rootRefs: seq<Ref>, rootVars: seq<nat>,
                           minRefs: seq<Ref>, minVars: seq<nat>, resolvedRefs: seq<Ref>, resolvedVars: seq<nat>)

  ghost predicate RootChained(s: State, c: Chains, busy: set<nat>) {
    && |c.stamps| == s.n + 1 && StampsBelow(c.stamps, c.stamp)
    && RootChain(s, c.rootRefs, c.rootVars)
    && StampsAre(c.stamps, c.stamp, c.rootVars, c.minVars, busy)
    && forall i :: 0 <= i < |c.minVars| ==> VarLevel(s, c.minVars[i]) > 0
  }

  lemma FreshStamp(s: State, c: Chains)
    requires |c.stamps| == s.n + 1 && forall v :: 0 <= v < |c.stamps| ==> c.stamps[v] < c.stamp
    requires c.rootRefs == [] && c.rootVars == [] && c.minRefs == [] && c.minVars == []
    requires c.resolvedRefs == [] && c.resolvedVars == []
    ensures Chaining(true, s, c, Met({}, {}, {}), NO_LITERAL)
  {
  }

  lemma ChainedStampsBelow(s: State, c: Chains, busy: set<nat>)
    requires RootChained(s, c, busy)
    ensures StampsBelow(c.stamps, c.stamp) && |c.stamps| == s.n + 1
  {
  }

  ghost predicate More(vars: seq<nat>, later: seq<nat>) {
    forall v :: v in vars ==> v in later
  }

  lemma NothingMore(met: Met, vars: seq<nat>)
    ensures MetGrows(met, met) && More(vars, vars)
  {
  }

  lemma GrowsOn(start: Met, met: Met, later: Met, vars: seq<nat>, more: seq<nat>, most: seq<nat>)
    requires MetGrows(start, met) && MetGrows(met, later) && More(vars, more) && More(more, most)
    ensures MetGrows(start, later) && More(vars, most)
  {
  }

  /** Of the first `k` literals but `skip`, those at the root are listed. */
  ghost predicate RootsListed(s: State, c: Clause, k: nat, skip: Lit, rootVars: seq<nat>) {
    forall i :: 0 <= i < k && i < |c| && c[i] != skip ==> VarLevel(s, Var(c[i])) == 0 ==> Var(c[i]) in rootVars
  }

  lemma NoRootsListed(s: State, c: Clause, skip: Lit, rootVars: seq<nat>)
    ensures RootsListed(s, c, 0, skip, rootVars)
  {
  }

  lemma RootsListedMore(s: State, c: Clause, k: nat, skip: Lit, rootVars: seq<nat>, later: seq<nat>)
    requires RootsListed(s, c, k, skip, rootVars) && More(rootVars, later) && k < |c|
    requires c[k] == skip || VarLevel(s, Var(c[k])) > 0 || Var(c[k]) in later
    ensures RootsListed(s, c, k + 1, skip, later)
  {
  }

  lemma StampedIsListed(s: State, c: Chains, busy: set<nat>, v: nat)
    requires RootChained(s, c, busy) && Stamped(c.stamps, c.stamp, v) && v !in busy && VarLevel(s, v) == 0
    ensures v in c.rootVars
  {
  }

  lemma BusyIsUnlisted(s: State, c: Chains, busy: set<nat>, v: nat)
    requires RootChained(s, c, busy) && v in busy
    ensures v !in c.rootVars && v !in c.minVars
  {
  }

  /** Starting on a variable not stamped yet. */
  lemma OpenRoot(s: State, c: Chains, busy: set<nat>, v: nat)
    requires RootChained(s, c, busy) && v < |c.stamps| && !Stamped(c.stamps, c.stamp, v)
    ensures v !in busy && RootChained(s, c.(stamps := c.stamps[v := c.stamp]), busy + {v})
  {
    UnstampedIsNew(c.stamps, c.stamp, c.rootVars, c.minVars, busy, v);
    StampBusy(c.stamps, c.stamp, c.rootVars, c.minVars, busy, v);
  }

  /** Finishing a root variable all of whose reason's other variables are listed. */
  lemma CloseRoot(s: State, c: Chains, busy: set<nat>, v: nat, r: Ref)
    requires RootChained(s, c, busy + {v}) && v !in busy && VarAssigned(s, v) && VarLevel(s, v) == 0
    requires VarReason(s, v) == Because(r) && r in s.db
    requires forall m :: m in s.db[r].lits && Var(m) != v ==> Var(m) in c.rootVars
    ensures RootChained(s, c.(rootRefs := c.rootRefs + [r], rootVars := c.rootVars + [v]), busy)
    ensures v in c.rootVars + [v] && More(c.rootVars, c.rootVars + [v])
  {
    BusyIsUnlisted(s, c, busy + {v}, v);
    ExtendRoot(s, c.rootRefs, c.rootVars, v, r);
    StampRoot(c.stamps, c.stamp, c.rootVars, c.minVars, busy, v);
    assert (c.rootVars + [v])[|c.rootVars|] == v;
  }

  /** Appending a reason whose other variables are listed extends the chain. */
  lemma ExtendRoot(s: State, refs: seq<Ref>, vars: seq<nat>, v: nat, r: Ref)
    requires RootChain(s, refs, vars) && VarAssigned(s, v) && VarLevel(s, v) == 0
    requires VarReason(s, v) == Because(r) && r in s.db && v !in vars
    requires forall m :: m in s.db[r].lits && Var(m) != v ==> Var(m) in vars
    ensures RootChain(s, refs + [r], vars + [v])
  {
    forall i | 0 <= i < |refs| + 1 ensures RootEntry(s, refs + [r], vars + [v], i) {
      if i < |refs| {
        assert RootEntry(s, refs, vars, i);
        forall m | m in s.db[refs[i]].lits && Var(m) != vars[i] ensures Listed(vars + [v], i, Var(m)) {
          var j :| 0 <= j < i && vars[j] == Var(m);
          assert (vars + [v])[j] == Var(m);
        }
      } else {
        forall m | m in s.db[r].lits && Var(m) != v ensures Listed(vars + [v], i, Var(m)) {
          var j :| 0 <= j < |vars| && vars[j] == Var(m);
          assert (vars + [v])[j] == Var(m);
        }
      }
    }
  }

  /** The other variables of a root variable's reason are root variables of earlier positions. */
  lemma RootReason(s: State, v: nat)
    requires SearchOk(s) && VarAssigned(s, v) && VarLevel(s, v) == 0
    ensures v < |s.reasons| && v < |s.levels|
    ensures VarReason(s, v).Because? && VarReason(s, v).ref in s.db
    ensures forall m :: m in s.db[VarReason(s, v).ref].lits && Var(m) != v ==>
              VarAssigned(s, Var(m)) && VarLevel(s, Var(m)) == 0 && VarPosition(s, Var(m)) < VarPosition(s, v)
  {
    VarOnTrail(s, v);
    var i := VarPosition(s, v);
    VarTables(s, s.trail[i]);
    assert ReasonAt(s, i);
    forall m | m in s.db[VarReason(s, v).ref].lits && Var(m) != v
      ensures VarAssigned(s, Var(m)) && VarLevel(s, Var(m)) == 0 && VarPosition(s, Var(m)) < VarPosition(s, v)
    {
      AssignedVar(s, m);
      VarTables(s, m);
      Assigned(s, m);
      LevelsFollowTrail(s, Position(s, m), i);
    }
  }

  // ---------------------------------------------------------------------------------------------
  // Removed literals
  // ---------------------------------------------------------------------------------------------

  /** A removable variable's reason holds only root, removable and kept variables besides it. */
  ghost predicate RemovableOk(s: State, flags: seq<Flags>) {
    && |flags| == s.n + 1
    && forall v :: 0 <= v < |flags| && flags[v].removable ==> RemovableVar(s, flags, v) && !flags[v].keep
  }

  ghost predicate RemovableVar(s: State, flags: seq<Flags>, v: nat)
    requires |flags| == s.n + 1
  {
    && VarAssigned(s, v) && 0 < VarLevel(s, v) < s.level
    && VarReason(s, v).Because? && VarReason(s, v).ref in s.db
    && forall m :: m in s.db[VarReason(s, v).ref].lits && Var(m) != v ==> Excused(s, flags, Var(m))
  }

  /** A variable that needs no expansion of its own. */
  ghost predicate Excused(s: State, flags: seq<Flags>, v: nat) {
    VarAssigned(s, v) && v < |flags| && (VarLevel(s, v) == 0 || flags[v].removable || flags[v].keep)
  }

  ghost predicate MinimizedEntry(s: State, flags: seq<Flags>, rootVars: seq<nat>, refs: seq<Ref>, vars: seq<nat>,
                                 i: nat)
    requires i < |refs| == |vars|
  {
    && vars[i] < |flags| && flags[vars[i]].removable && VarAssigned(s, vars[i]) && 0 < VarLevel(s, vars[i]) < s.level
    && VarReason(s, vars[i]) == Because(refs[i]) && refs[i] in s.db
    && forall m :: m in s.db[refs[i]].lits && Var(m) != vars[i] ==>
         || (VarLevel(s, Var(m)) == 0 && Var(m) in rootVars)
         || (Var(m) < |flags| && flags[Var(m)].keep && VarAssigned(s, Var(m)))
         || Listed(vars, i, Var(m))
  }

  ghost predicate MinimizedChain(s: State, flags: seq<Flags>, rootVars: seq<nat>, refs: seq<Ref>, vars: seq<nat>) {
    && |refs| == |vars| && Distinct(vars)
    && forall i :: 0 <= i < |refs| ==> MinimizedEntry(s, flags, rootVars, refs, vars, i)
  }

  lemma ExtendMinimized(s: State, flags: seq<Flags>, rootVars: seq<nat>, refs: seq<Ref>, vars: seq<nat>, v: nat, r: Ref)
    requires MinimizedChain(s, flags, rootVars, refs, vars) && v !in vars
    requires v < |flags| && flags[v].removable && VarAssigned(s, v) && 0 < VarLevel(s, v) < s.level
    requires VarReason(s, v) == Because(r) && r in s.db
    requires forall m :: m in s.db[r].lits && Var(m) != v ==>
               || (VarLevel(s, Var(m)) == 0 && Var(m) in rootVars)
               || (Var(m) < |flags| && flags[Var(m)].keep && VarAssigned(s, Var(m)))
               || Var(m) in vars
    ensures MinimizedChain(s, flags, rootVars, refs + [r], vars + [v])
  {
    forall i | 0 <= i < |refs| + 1 ensures MinimizedEntry(s, flags, rootVars, refs + [r], vars + [v], i) {
      if i < |refs| {
        assert MinimizedEntry(s, flags, rootVars, refs, vars, i);
        forall u | Listed(vars, i, u) ensures Listed(vars + [v], i, u) {
          var j :| 0 <= j < i && vars[j] == u;
          assert (vars + [v])[j] == u;
        }
      } else {
        forall u | u in vars ensures Listed(vars + [v], i, u) {
          var j :| 0 <= j < |vars| && vars[j] == u;
          assert (vars + [v])[j] == u;
        }
      }
    }
  }

  /** Longer root lists and more kept variables keep the chain of removed literals valid. */
  lemma MinimizedMonotone(s: State, flags: seq<Flags>, later: seq<Flags>, rootVars: seq<nat>, more: seq<nat>,
                          refs: seq<Ref>, vars: seq<nat>)
    requires MinimizedChain(s, flags, rootVars, refs, vars) && |later| == |flags|
    requires forall v :: v in rootVars ==> v in more
    requires forall v :: 0 <= v < |flags| ==>
             (flags[v].removable ==> later[v].removable) && (flags[v].keep ==> later[v].keep)
    ensures MinimizedChain(s, later, more, refs, vars)
  {
    forall i | 0 <= i < |refs| ensures MinimizedEntry(s, later, more, refs, vars, i) {
      assert MinimizedEntry(s, flags, rootVars, refs, vars, i);
    }
  }

  // ---------------------------------------------------------------------------------------------
  // What each entry is for
  // ---------------------------------------------------------------------------------------------

  /** The variable occurs in the clause. */
  ghost predicate Occurs(db: Database, r: Ref, v: nat) {
    r in db && Speaks(db[r].lits, v)
  }


  /** The variable occurs in one of the clauses. */
  ghost predicate Wanted(s: State, refs: set<Ref>, v: nat) {
    exists r :: r in refs && Occurs(s.db, r, v)
  }

  /** The variable of entry `i` occurs in the reason of a later entry, or in one of the clauses `others`. */
  ghost predicate NeededAt(s: State, refs: seq<Ref>, vars: seq<nat>, i: nat, others: set<Ref>)
    requires i < |vars|
  {
    Wanted(s, others, vars[i]) || exists j :: i < j < |refs| && Occurs(s.db, refs[j], vars[i])
  }

  /** Every variable listed occurs in the reason of a later entry, or in one of the clauses `others`. */
  ghost predicate AllNeeded(s: State, refs: seq<Ref>, vars: seq<nat>, others: set<Ref>) {
    |refs| == |vars| && forall i :: 0 <= i < |vars| ==> NeededAt(s, refs, vars, i, others)
  }

  function Members(refs: seq<Ref>): set<Ref> {
    set r | r in refs
  }

  /** Every root variable listed occurs in a clause listed later, or in one of those about to be listed. */
  ghost predicate RootsNeeded(s: State, c: Chains, about: set<Ref>) {
    AllNeeded(s, c.rootRefs, c.rootVars, about + Members(c.minRefs) + Members(c.resolvedRefs))
  }

  /** So does every variable of a dropped literal or behind one. */
  ghost predicate MinsNeeded(s: State, c: Chains, about: set<Ref>) {
    AllNeeded(s, c.minRefs, c.minVars, about + Members(c.resolvedRefs))
  }

  ghost predicate ListsNeeded(s: State, c: Chains, about: set<Ref>) {
    RootsNeeded(s, c, about) && MinsNeeded(s, c, about)
  }

  lemma WantedMore(s: State, refs: set<Ref>, more: set<Ref>, v: nat)
    requires Wanted(s, refs, v) && refs <= more
    ensures Wanted(s, more, v)
  {
  }

  lemma NeededMore(s: State, refs: seq<Ref>, vars: seq<nat>, others: set<Ref>, more: set<Ref>)
    requires AllNeeded(s, refs, vars, others) && others <= more
    ensures AllNeeded(s, refs, vars, more)
  {
    forall i | 0 <= i < |vars| ensures NeededAt(s, refs, vars, i, more) {
      assert NeededAt(s, refs, vars, i, others);
    }
  }

  lemma LiteralOccurs(s: State, r: Ref, i: nat)
    requires r in s.db && i < |s.db[r].lits|
    ensures Occurs(s.db, r, Var(s.db[r].lits[i]))
  {
    assert s.db[r].lits[i] in s.db[r].lits;
  }

  lemma OccurringIsWanted(s: State, r: Ref, v: nat, others: set<Ref>)
    requires Occurs(s.db, r, v)
    ensures Wanted(s, {r} + others, v)
  {
    assert r in {r} + others;
  }

  /** The variables of an awaited reason are wanted. */
  lemma OthersWanted(s: State, about: set<Ref>, r: Ref, l: Lit, others: set<Ref>)
    requires r in s.db && l in s.db[r].lits && r in about
    ensures Wanted(s, about + others, Var(l))
  {
    assert Occurs(s.db, r, Var(l)) && r in about + others;
  }

  /** A clause awaited takes its place at the end of the list. */
  lemma NeededListed(s: State, refs: seq<Ref>, vars: seq<nat>, others: set<Ref>, v: nat, r: Ref)
    requires AllNeeded(s, refs, vars, others + {r}) && Wanted(s, others, v)
    ensures AllNeeded(s, refs + [r], vars + [v], others)
  {
    var refs', vars' := refs + [r], vars + [v];
    forall i | 0 <= i < |vars'| ensures NeededAt(s, refs', vars', i, others) {
      if i < |vars| {
        assert NeededAt(s, refs, vars, i, others + {r}) && refs'[|refs|] == r;
        if !Wanted(s, others, vars[i]) && !Occurs(s.db, r, vars[i]) {
          var j :| i < j < |refs| && Occurs(s.db, refs[j], vars[i]);
          assert refs'[j] == refs[j];
        }
      }
    }
  }

  lemma MembersMore(refs: seq<Ref>, r: Ref)
    ensures Members(refs + [r]) == Members(refs) + {r}
  {
  }

  /** A root variable that is wanted is listed with its reason. */
  lemma RootListed(s: State, c: Chains, about: set<Ref>, v: nat, r: Ref)
    requires RootsNeeded(s, c, about + {r}) && Wanted(s, about + Members(c.resolvedRefs), v)
    ensures RootsNeeded(s, c.(rootRefs := c.rootRefs + [r], rootVars := c.rootVars + [v]), about)
  {
    var others := about + Members(c.minRefs) + Members(c.resolvedRefs);
    assert about + {r} + Members(c.minRefs) + Members(c.resolvedRefs) == others + {r};
    WantedMore(s, about + Members(c.resolvedRefs), others, v);
    NeededListed(s, c.rootRefs, c.rootVars, others, v, r);
  }

  /** So is the variable of a dropped literal, or one behind it. */
  lemma MinListed(s: State, c: Chains, about: set<Ref>, v: nat, r: Ref)
    requires ListsNeeded(s, c, about + {r}) && Wanted(s, about + Members(c.resolvedRefs), v)
    ensures ListsNeeded(s, c.(minRefs := c.minRefs + [r], minVars := c.minVars + [v]), about)
  {
    MembersMore(c.minRefs, r);
    assert about + {r} + Members(c.resolvedRefs) == about + Members(c.resolvedRefs) + {r};
    NeededListed(s, c.minRefs, c.minVars, about + Members(c.resolvedRefs), v, r);
    assert about + {r} + Members(c.minRefs) + Members(c.resolvedRefs)
        == about + Members(c.minRefs + [r]) + Members(c.resolvedRefs);
  }

  /** The clause scanned is listed among those resolved with. */
  lemma ResolvedListed(s: State, c: Chains, later: seq<nat>, r: Ref)
    requires RootsNeeded(s, c, {r})
    ensures RootsNeeded(s, c.(resolvedRefs := c.resolvedRefs + [r], resolvedVars := later), {})
  {
    MembersMore(c.resolvedRefs, r);
    assert {r} + Members(c.minRefs) + Members(c.resolvedRefs)
        == {} + Members(c.minRefs) + Members(c.resolvedRefs + [r]);
  }

  lemma RootsAwait(s: State, c: Chains, about: set<Ref>, more: set<Ref>)
    requires RootsNeeded(s, c, about) && about <= more
    ensures RootsNeeded(s, c, more)
  {
    NeededMore(s, c.rootRefs, c.rootVars, about + Members(c.minRefs) + Members(c.resolvedRefs),
               more + Members(c.minRefs) + Members(c.resolvedRefs));
  }

  lemma ListsAwait(s: State, c: Chains, about: set<Ref>, more: set<Ref>)
    requires ListsNeeded(s, c, about) && about <= more
    ensures ListsNeeded(s, c, more)
  {
    RootsAwait(s, c, about, more);
    NeededMore(s, c.minRefs, c.minVars, about + Members(c.resolvedRefs), more + Members(c.resolvedRefs));
  }

  // ---------------------------------------------------------------------------------------------
  // Resolved literals
  // ---------------------------------------------------------------------------------------------

  /** The `k`-th variable resolved on is of the current level, and its reason comes next. */
  ghost predicate ResolvedAt(s: State, refs: seq<Ref>, vars: seq<nat>, current: set<nat>, k: nat)
    requires k < |vars| && |refs| == |vars| + 1
  {
    && vars[k] in current && VarAssigned(s, vars[k]) && VarLevel(s, vars[k]) == s.level
    && VarReason(s, vars[k]) == Because(refs[k + 1])
  }

  /** `refs[0]` is the conflict; `refs[k + 1]` is the reason of `vars[k]`; variables come in falling trail order. */
  ghost predicate ResolutionChain(s: State, refs: seq<Ref>, vars: seq<nat>, met: Met, rootVars: seq<nat>) {
    && |refs| == |vars| + 1
    && (forall k :: 0 <= k < |vars| ==> ResolvedAt(s, refs, vars, met.current, k))
    && (forall k, j :: 0 <= k < j < |vars| ==> VarPosition(s, vars[j]) < VarPosition(s, vars[k]))
    && (forall k :: 0 <= k < |refs| ==> refs[k] in s.db && Covers(s, s.db[refs[k]].lits, met, rootVars))
  }

  /** Every variable met occurs in a clause resolved with. */
  ghost predicate MetOccurs(s: State, refs: seq<Ref>, met: Met) {
    forall v :: v in met.low || v in met.current ==> Wanted(s, Members(refs), v)
  }

  /** Every variable resolved on occurs in a clause resolved with before its reason. */
  ghost predicate VarsOccur(s: State, refs: seq<Ref>, vars: seq<nat>) {
    |refs| == |vars| + 1 && forall k :: 0 <= k < |vars| ==> Wanted(s, Members(refs[..k + 1]), vars[k])
  }

  lemma MetOccursMore(s: State, refs: seq<Ref>, before: Met, met: Met, after: Met, r: Ref)
    requires MetOccurs(s, refs, before) && r in s.db && MetFrom(before, met, s.db[r].lits, |s.db[r].lits|)
    requires after == met.(open := after.open)
    ensures MetOccurs(s, refs + [r], after)
  {
    MembersMore(refs, r);
    forall v | v in after.low || v in after.current ensures Wanted(s, Members(refs + [r]), v) {
      if v in before.low || v in before.current {
        WantedMore(s, Members(refs), Members(refs + [r]), v);
      } else {
        var i :| 0 <= i < |s.db[r].lits| && Var(s.db[r].lits[i]) == v;
        assert s.db[r].lits[i] in s.db[r].lits && Occurs(s.db, r, v);
      }
    }
  }

  lemma VarsOccurMore(s: State, refs: seq<Ref>, vars: seq<nat>, v: nat, r: Ref)
    requires VarsOccur(s, refs, vars) && Wanted(s, Members(refs), v)
    ensures VarsOccur(s, refs + [r], vars + [v])
  {
    var refs', vars' := refs + [r], vars + [v];
    forall k | 0 <= k < |vars'| ensures Wanted(s, Members(refs'[..k + 1]), vars'[k]) {
      if k < |vars| {
        assert refs'[..k + 1] == refs[..k + 1] && Wanted(s, Members(refs[..k + 1]), vars[k]);
      } else {
        assert refs'[..k + 1] == refs;
      }
    }
  }

  /** The chain before the next clause is scanned: all but the open variables and the next one are resolved. */
  ghost predicate ChainHead(s: State, refs: seq<Ref>, vars: seq<nat>, met: Met, rootVars: seq<nat>, uip: Lit) {
    if uip == NO_LITERAL then refs == [] && vars == [] && met == Met({}, {}, {})
    else
      && ResolutionChain(s, refs, vars, met, rootVars) && Falsified(s, s.db[refs[0]].lits)
      && (forall k :: 0 <= k < |vars| ==> VarPosition(s, vars[k]) > Position(s, uip))
      && (forall v :: v in met.current ==> v in vars || v in met.open || v == Var(uip))
      && MetOccurs(s, refs, met) && VarsOccur(s, refs, vars)
  }

  /** The chains while clauses are being resolved; nothing is asked when no proof is wanted. */
  ghost predicate Chaining(want: bool, s: State, c: Chains, met: Met, uip: Lit) {
    want ==>
      && RootChained(s, c, {}) && RootsNeeded(s, c, {}) && c.minRefs == [] && c.minVars == []
      && ChainHead(s, c.resolvedRefs, c.resolvedVars, met, c.rootVars, uip)
  }

  lemma NotChaining(s: State, c: Chains, met: Met, uip: Lit)
    ensures Chaining(false, s, c, met, uip)
  {
  }

  ghost function ResolvedOn(vars: seq<nat>, uip: Lit): seq<nat> {
    if uip == NO_LITERAL then vars else vars + [Var(uip)]
  }

  /** Scanning one more clause and taking the next literal extends the chain. */
  lemma ChainStep(f: Formula, s: State, refs: seq<Ref>, vars: seq<nat>, before: Met, met: Met, rootVars: seq<nat>,
                  more: seq<nat>, index: nat, uip: Lit, reason: Ref, conflict: Ref, next: nat)
    requires SearchOk(s) && ChainHead(s, refs, vars, before, rootVars, uip)
             && Resolving(f, s, before, index, uip, reason, conflict)
    requires MetGrows(before, met) && MetOk(s, met, index) && More(rootVars, more)
    requires Scanned(s, s.db[reason].lits, |s.db[reason].lits|, uip, met)
    requires MetFrom(before, met, s.db[reason].lits, |s.db[reason].lits|)
    requires RootsListed(s, s.db[reason].lits, |s.db[reason].lits|, uip, more)
    requires next < index && Var(s.trail[next]) in met.open
    ensures ChainHead(s, refs + [reason], ResolvedOn(vars, uip), met.(open := met.open - {Var(s.trail[next])}), more,
                      s.trail[next])
  {
    ResolutionStep(f, s, refs, vars, before, met, rootVars, more, index, uip, reason, conflict, next);
    ResolvedParts(f, s, refs, vars, before, rootVars, index, uip, reason, conflict);
    ResolvedOccur(f, s, refs, vars, before, met, rootVars, index, uip, reason, conflict, next);
    NextTables(s, next);
    hide MetOccurs, VarsOccur, MetFrom;
    hide SearchOk, ResolutionChain, Resolving, Scanned, RootsListed, MetOk, Falsified, More, Position, VarPosition,
         VarLevel, VarReason;
    StillOpen(before, met, ResolvedOn(vars, uip), Var(s.trail[next]));
  }

  /** What has been met and what is resolved on occurs in the clauses resolved with, the next one among them. */
  lemma ResolvedOccur(f: Formula, s: State, refs: seq<Ref>, vars: seq<nat>, before: Met, met: Met, rootVars: seq<nat>,
                      index: nat, uip: Lit, reason: Ref, conflict: Ref, next: nat)
    requires ChainHead(s, refs, vars, before, rootVars, uip) && Resolving(f, s, before, index, uip, reason, conflict)
    requires MetFrom(before, met, s.db[reason].lits, |s.db[reason].lits|) && next < |s.trail|
    ensures MetOccurs(s, refs + [reason], met.(open := met.open - {Var(s.trail[next])}))
    ensures VarsOccur(s, refs + [reason], ResolvedOn(vars, uip))
  {
    hide ResolutionChain, Falsified, Position, VarPosition, MetFrom, VarsOccur;
    MetOccursMore(s, refs, before, met, met.(open := met.open - {Var(s.trail[next])}), reason);
    if uip == NO_LITERAL {
      OneResolvedWith(s, reason);
    } else {
      VarsOccurMore(s, refs, vars, Var(uip), reason);
    }
  }

  lemma OneResolvedWith(s: State, r: Ref)
    ensures VarsOccur(s, [] + [r], [])
  {
  }

  lemma NextTables(s: State, next: nat)
    requires SearchOk(s) && next < |s.trail|
    ensures s.trail[next] != NO_LITERAL && Position(s, s.trail[next]) == next
  {
    TrailEntry(s, next);
    VarTables(s, s.trail[next]);
  }

  /** A met variable of the current level is resolved on, still open, or the one taken next. */
  lemma StillOpen(before: Met, met: Met, vars: seq<nat>, next: nat)
    requires MetGrows(before, met) && forall v :: v in before.current ==> v in vars || v in before.open
    ensures forall v :: v in met.current ==> v in vars || v in met.open - {next} || v == next
  {
  }

  /** What the chain so far says, without its entries. */
  lemma ResolvedParts(f: Formula, s: State, refs: seq<Ref>, vars: seq<nat>, before: Met, rootVars: seq<nat>, index: nat,
                      uip: Lit, reason: Ref, conflict: Ref)
    requires SearchOk(s) && ChainHead(s, refs, vars, before, rootVars, uip)
             && Resolving(f, s, before, index, uip, reason, conflict)
    ensures (refs + [reason])[0] in s.db && Falsified(s, s.db[(refs + [reason])[0]].lits)
    ensures forall v :: v in before.current ==> v in ResolvedOn(vars, uip) || v in before.open
    ensures forall k :: 0 <= k < |ResolvedOn(vars, uip)| ==> VarPosition(s, ResolvedOn(vars, uip)[k]) >= index
  {
    if uip != NO_LITERAL {
      UipTables(f, s, before, index, uip, reason, conflict);
      hide SearchOk, Resolving, Falsified, Covers, VarPosition, Position;
      assert (vars + [Var(uip)])[|vars|] == Var(uip);
      assert forall v :: v in vars ==> v in vars + [Var(uip)];
    }
  }

  /** The clauses resolved with and the variables resolved on, with one more of each. */
  lemma ResolutionStep(f: Formula, s: State, refs: seq<Ref>, vars: seq<nat>, before: Met, met: Met, rootVars: seq<nat>,
                       more: seq<nat>, index: nat, uip: Lit, reason: Ref, conflict: Ref, next: nat)
    requires SearchOk(s) && ChainHead(s, refs, vars, before, rootVars, uip)
             && Resolving(f, s, before, index, uip, reason, conflict)
    requires MetGrows(before, met) && MetOk(s, met, index) && More(rootVars, more) && next < |s.trail|
    requires Scanned(s, s.db[reason].lits, |s.db[reason].lits|, uip, met)
    requires RootsListed(s, s.db[reason].lits, |s.db[reason].lits|, uip, more)
    ensures ResolutionChain(s, refs + [reason], ResolvedOn(vars, uip), met.(open := met.open - {Var(s.trail[next])}),
                            more)
  {
    NextCovers(f, s, refs, vars, before, met, rootVars, more, index, uip, reason, conflict, next);
    if uip != NO_LITERAL {
      UipTables(f, s, before, index, uip, reason, conflict);
      assert Var(uip) in before.current;
      hide SearchOk, Resolving, Covers, Scanned, RootsListed, More, Position, VarPosition, VarLevel, VarReason,
           Falsified, MetOk;
      OneResolved(s, refs, vars, before.current, met.current, Var(uip), reason);
    }
  }

  /** One more variable resolved on, with its reason. */
  lemma OneResolved(s: State, refs: seq<Ref>, vars: seq<nat>, before: set<nat>, current: set<nat>, v: nat, reason: Ref)
    requires |refs| == |vars| + 1 && before <= current && v in current
    requires forall k :: 0 <= k < |vars| ==> ResolvedAt(s, refs, vars, before, k)
    requires forall k, j :: 0 <= k < j < |vars| ==> VarPosition(s, vars[j]) < VarPosition(s, vars[k])
    requires VarAssigned(s, v) && VarLevel(s, v) == s.level && VarReason(s, v) == Because(reason)
    requires forall k :: 0 <= k < |vars| ==> VarPosition(s, v) < VarPosition(s, vars[k])
    ensures var refs', vars' := refs + [reason], vars + [v];
            && (forall k :: 0 <= k < |vars'| ==> ResolvedAt(s, refs', vars', current, k))
            && (forall k, j :: 0 <= k < j < |vars'| ==> VarPosition(s, vars'[j]) < VarPosition(s, vars'[k]))
  {
    var refs', vars' := refs + [reason], vars + [v];
    forall k | 0 <= k < |vars'| ensures ResolvedAt(s, refs', vars', current, k) {
      if k < |vars| {
        assert ResolvedAt(s, refs, vars, before, k);
      }
    }
  }

  /** The literal resolved on, its place and its reason. */
  lemma UipTables(f: Formula, s: State, met: Met, index: nat, uip: Lit, reason: Ref, conflict: Ref)
    requires SearchOk(s) && Resolving(f, s, met, index, uip, reason, conflict) && uip != NO_LITERAL
    ensures VarAssigned(s, Var(uip)) && VarPosition(s, Var(uip)) == Position(s, uip) == index
            && VarReason(s, Var(uip)) == Because(reason)
  {
    TrailEntry(s, index);
    VarTables(s, uip);
    AssignedVar(s, uip);
  }

  /** Each clause resolved with so far is covered by what has been met. */
  lemma NextCovers(f: Formula, s: State, refs: seq<Ref>, vars: seq<nat>, before: Met, met: Met, rootVars: seq<nat>,
                   more: seq<nat>, index: nat, uip: Lit, reason: Ref, conflict: Ref, next: nat)
    requires SearchOk(s) && ChainHead(s, refs, vars, before, rootVars, uip)
             && Resolving(f, s, before, index, uip, reason, conflict)
    requires MetGrows(before, met) && More(rootVars, more) && next < |s.trail|
    requires Scanned(s, s.db[reason].lits, |s.db[reason].lits|, uip, met)
    requires RootsListed(s, s.db[reason].lits, |s.db[reason].lits|, uip, more)
    ensures var after, refs' := met.(open := met.open - {Var(s.trail[next])}), refs + [reason];
            forall k :: 0 <= k < |refs'| ==> refs'[k] in s.db && Covers(s, s.db[refs'[k]].lits, after, more)
  {
    var c := s.db[reason].lits;
    var after, refs' := met.(open := met.open - {Var(s.trail[next])}), refs + [reason];
    assert Covers(s, c, after, more) by { ScannedCovers(s, c, uip, before, met, after, more); }
    forall k | 0 <= k < |refs'| ensures refs'[k] in s.db && Covers(s, s.db[refs'[k]].lits, after, more) {
      if k < |refs| {
        assert Covers(s, s.db[refs[k]].lits, before, rootVars);
      }
    }
  }

  lemma ChainingStep(f: Formula, s: State, start: Chains, c: Chains, before: Met, met: Met,
                     index: nat, uip: Lit, reason: Ref, conflict: Ref, next: nat)
    requires SearchOk(s) && Chaining(true, s, start, before, uip)
             && Resolving(f, s, before, index, uip, reason, conflict)
    requires MetGrows(before, met) && MetOk(s, met, index) && More(start.rootVars, c.rootVars) && RootChained(s, c, {})
    requires c.minRefs == start.minRefs && c.minVars == start.minVars
    requires c.resolvedRefs == start.resolvedRefs && c.resolvedVars == start.resolvedVars
    requires Scanned(s, s.db[reason].lits, |s.db[reason].lits|, uip, met) && RootsNeeded(s, c, {reason})
    requires MetFrom(before, met, s.db[reason].lits, |s.db[reason].lits|)
    requires RootsListed(s, s.db[reason].lits, |s.db[reason].lits|, uip, c.rootVars)
    requires next < index && Var(s.trail[next]) in met.open
    ensures Chaining(true, s, c.(resolvedRefs := c.resolvedRefs + [reason],
                                 resolvedVars := ResolvedOn(c.resolvedVars, uip)),
                                 met.(open := met.open - {Var(s.trail[next])}), s.trail[next])
  {
    hide ChainHead, Scanned, MetFrom, RootsListed, RootsNeeded, Resolving, MetOk, SearchOk;
    ChainStep(f, s, c.resolvedRefs, c.resolvedVars, before, met, start.rootVars, c.rootVars, index, uip, reason,
              conflict, next);
    ResolvedListed(s, c, ResolvedOn(c.resolvedVars, uip), reason);
  }

  /** What scanning a clause leaves of the chains: nothing but further root variables. */
  ghost predicate ChainScan(want: bool, s: State, start: Chains, c: Chains, uip: Lit, reason: Ref) {
    && c.minRefs == start.minRefs && c.minVars == start.minVars
    && c.resolvedRefs == start.resolvedRefs && c.resolvedVars == start.resolvedVars
    && (want ==>
          && More(start.rootVars, c.rootVars) && RootChained(s, c, {}) && RootsNeeded(s, c, {reason}) && reason in s.db
          && RootsListed(s, s.db[reason].lits, |s.db[reason].lits|, uip, c.rootVars))
  }

  /** The chains after one more resolution. */
  ghost function Recorded(want: bool, c: Chains, uip: Lit, reason: Ref): Chains {
    if want then c.(resolvedRefs := c.resolvedRefs + [reason], resolvedVars := ResolvedOn(c.resolvedVars, uip)) else c
  }

  /** One resolution is done, and noting the clause resolved with extends the chain. */
  lemma StepRecorded(want: bool, f: Formula, s: State, x: Scratch, learned: Clause, start: Chains, c: Chains,
                     before: Met, met: Met, bound: nat, uip: Lit, reason: Ref, conflict: Ref, index: nat)
    requires SearchOk(s) && Chaining(want, s, start, before, uip)
             && Resolving(f, s, before, bound, uip, reason, conflict)
    requires ScanFound(f, s, x, learned, before, met, bound, uip, reason, index)
             && ChainScan(want, s, start, c, uip, reason)
    ensures index < bound && index < |s.trail| && Var(s.trail[index]) in met.open
    ensures var after := met.(open := met.open - {Var(s.trail[index])});
            && StepDone(f, s, x, learned, after, index, conflict)
            && Chaining(want, s, Recorded(want, c, uip, reason), after, s.trail[index])
  {
    FinishStep(f, s, x, learned, met, bound, index, conflict);
    if want {
      CollectingMet(s, x, learned, met, bound);
      ChainingStep(f, s, start, c, before, met, bound, uip, reason, conflict, index);
    }
  }

  lemma ScannedCovers(s: State, c: Clause, uip: Lit, before: Met, met: Met, after: Met, more: seq<nat>)
    requires MetGrows(before, met) && after == met.(open := after.open)
    requires Scanned(s, c, |c|, uip, met) && RootsListed(s, c, |c|, uip, more)
    requires uip in c ==> Var(uip) in before.current
    ensures Covers(s, c, after, more)
  {
    forall m | m in c ensures Var(m) in after.low || Var(m) in after.current
        || (VarLevel(s, Var(m)) == 0 && Var(m) in more) {
      var i :| 0 <= i < |c| && c[i] == m;
      VarTables(s, m);
    }
  }

  /** Every variable of the clause has been met or is a listed root variable. */
  ghost predicate Covers(s: State, c: Clause, met: Met, rootVars: seq<nat>) {
    forall m :: m in c ==>
      Var(m) in met.low || Var(m) in met.current || (VarLevel(s, Var(m)) == 0 && Var(m) in rootVars)
  }

  // ---------------------------------------------------------------------------------------------
  // Unit propagation along a list of hints
  // ---------------------------------------------------------------------------------------------

  /** The literal is true by assumption or by one of the first `k` units. */
  ghost predicate Derived(assumed: set<Lit>, units: seq<Lit>, k: nat, l: Lit) {
    l in assumed || exists j :: 0 <= j < k && j < |units| && units[j] == l
  }

  /** Hint `i` is unit: exactly `units[i]` is not falsified, and its variable has no value yet. */
  ghost predicate UnitHint(db: Database, assumed: set<Lit>, hints: seq<Ref>, units: seq<Lit>, i: nat)
    requires i < |hints| && i < |units|
  {
    && hints[i] in db && units[i] in db[hints[i]].lits
    && (forall l :: l in assumed ==> Var(l) != Var(units[i]))
    && (forall j :: 0 <= j < i ==> Var(units[j]) != Var(units[i]))
    && (forall m :: m in db[hints[i]].lits && m != units[i] ==> Derived(assumed, units, i, Neg(m)))
  }

  /** The hints propagate to a falsified last clause under the negation of `c`: an LRAT step for `c`. */
  ghost predicate LratStep(db: Database, c: Clause, hints: seq<Ref>) {
    |hints| > 0 && exists units: seq<Lit> :: LratUnits(db, c, hints, units)
  }

  /** Unit propagation over the clauses meets a conflict. */
  ghost predicate UpRefutes(db: Database) {
    exists hints: seq<Ref> :: LratStep(db, [], hints)
  }

  /** Hint `i` speaks of `vars[i]`, which neither the clause nor an earlier hint is for, and a later hint needs it. */
  ghost predicate CountsAt(db: Database, c: Clause, hints: seq<Ref>, vars: seq<nat>, i: nat)
    requires i < |vars| && |hints| == |vars| + 1
  {
    && Occurs(db, hints[i], vars[i]) && !Speaks(c, vars[i]) && !Listed(vars, i, vars[i])
    && exists j :: i < j < |hints| && Occurs(db, hints[j], vars[i])
  }

  /** The hints have a variable each but the last, and none can be left out. */
  ghost predicate AllCount(db: Database, c: Clause, hints: seq<Ref>, vars: seq<nat>) {
    |hints| == |vars| + 1 && hints[|vars|] in db && forall i :: 0 <= i < |vars| ==> CountsAt(db, c, hints, vars, i)
  }

  ghost predicate EveryHintCounts(db: Database, c: Clause, hints: seq<Ref>) {
    exists vars: seq<nat> :: AllCount(db, c, hints, vars)
  }

  /** A step with no hint to spare. */
  ghost predicate TightStep(db: Database, c: Clause, hints: seq<Ref>) {
    LratStep(db, c, hints) && EveryHintCounts(db, c, hints)
  }

  ghost function Negations(c: Clause): set<Lit> {
    set l | l in c :: Neg(l)
  }

  ghost predicate LratUnits(db: Database, c: Clause, hints: seq<Ref>, units: seq<Lit>) {
    && |hints| == |units| + 1
    && (forall i :: 0 <= i < |units| ==> UnitHint(db, Negations(c), hints, units, i))
    && hints[|units|] in db
    && (forall m :: m in db[hints[|units|]].lits ==> Derived(Negations(c), units, |units|, Neg(m)))
  }

  /** A checked step is a consequence of its hint clauses, whatever the search did. */
  lemma LratStepSound(db: Database, c: Clause, hints: seq<Ref>, a: Assignment)
    requires LratStep(db, c, hints)
    requires forall i :: 0 <= i < |hints| && hints[i] in db ==> Satisfies(a, db[hints[i]].lits)
    ensures Satisfies(a, c)
  {
    var units: seq<Lit> :| LratUnits(db, c, hints, units);
    var m :| m in db[hints[|units|]].lits && Holds(a, m);
    assert Derived(Negations(c), units, |units|, Neg(m));
    if !Satisfies(a, c) {
      forall l | l in Negations(c) ensures Holds(a, l) {
        var k :| k in c && l == Neg(k);
      }
      UnitsHold(db, c, hints, units, a, |units|);
    }
  }

  lemma {:induction false} UnitsHold(db: Database, c: Clause, hints: seq<Ref>, units: seq<Lit>, a: Assignment, k: nat)
    requires LratUnits(db, c, hints, units) && k <= |units|
    requires forall l :: l in Negations(c) ==> Holds(a, l)
    requires forall i :: 0 <= i < |hints| && hints[i] in db ==> Satisfies(a, db[hints[i]].lits)
    ensures forall j :: 0 <= j < k ==> Holds(a, units[j])
  {
    if k > 0 {
      UnitsHold(db, c, hints, units, a, k - 1);
      assert UnitHint(db, Negations(c), hints, units, k - 1);
      var m :| m in db[hints[k - 1]].lits && Holds(a, m);
      if m != units[k - 1] {
        assert Derived(Negations(c), units, k - 1, Neg(m));
      }
    }
  }
}
