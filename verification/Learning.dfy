/** From the collected literals to the learned clause. */
module Learning {
  import opened Logic
  import opened SearchState
  import opened Watching
  import opened Visiting
  import opened Implication
  import opened Analysis
  import opened ProofChain
  import opened Minimization
  import opened Antecedents
  import opened Removal
  import opened Causes
  import opened ImplicationPoints

  /** Only behind learned clauses up to this size are reasons bumped as well. */
  const REASON_BUMP_SIZE_LIMIT: nat := 32

  // ---------------------------------------------------------------------------------------------
  // Reordering the collected literals
  // ---------------------------------------------------------------------------------------------

  function Swapped(c: Clause, i: nat, j: nat): Clause
    requires i < |c| && j < |c|
  {
    c[i := c[j]][j := c[i]]
  }

  lemma SwapTail(s: State, c: Clause, vars: set<nat>, i: nat, j: nat)
    requires TailLists(s, c, vars) && 1 <= i < |c| && 1 <= j < |c|
    ensures TailLists(s, Swapped(c, i, j), vars)
  {
    hide Value, Level;
    var d := Swapped(c, i, j);
    assert forall k :: 1 <= k < |d| ==> d[k] == c[if k == i then j else if k == j then i else k];
    forall v | v in vars ensures exists k :: 1 <= k < |d| && Var(d[k]) == v {
      var k :| 1 <= k < |c| && Var(c[k]) == v;
      assert d[if k == i then j else if k == j then i else k] == c[k];
    }
  }

  /** The first `k` literals, the leading one aside, come in trail order. */
  ghost predicate SortedTail(s: State, c: Clause, k: nat) {
    forall i, j :: 1 <= i < j < k && j < |c| ==> Position(s, c[i]) <= Position(s, c[j])
  }

  /** Sorted but for the literal at `hole`, which is earlier than everything after it. */
  ghost predicate SortedBut(s: State, c: Clause, k: nat, hole: nat) {
    && (forall i, j :: 1 <= i < j < k && j < |c| && j != hole && i != hole ==> Position(s, c[i]) <= Position(s, c[j]))
    && (forall j :: hole < j < k && j < |c| ==> Position(s, c[hole]) <= Position(s, c[j]))
  }

  lemma TailSize(s: State, c: Clause, vars: set<nat>)
    requires TailLists(s, c, vars)
    ensures |c| >= 1 && SortedTail(s, c, 1)
  {
  }

  lemma TailTables(s: State, c: Clause, vars: set<nat>)
    requires Sized(s) && TrailOk(s) && TailLists(s, c, vars)
    ensures forall i :: 1 <= i < |c| ==> Var(c[i]) < |s.positions| && s.positions[Var(c[i])] == Position(s, c[i])
  {
    forall i | 1 <= i < |c| ensures Var(c[i]) < |s.positions| && s.positions[Var(c[i])] == Position(s, c[i]) {
      AssignedVar(s, c[i]);
    }
  }

  lemma SiftStart(s: State, c: Clause, k: nat)
    requires SortedTail(s, c, k) && 1 <= k < |c|
    ensures SortedBut(s, c, k + 1, k)
  {
  }

  lemma SiftEarlier(s: State, c: Clause, k: nat, hole: nat)
    requires SortedBut(s, c, k, hole) && 1 < hole < k <= |c| && Position(s, c[hole]) < Position(s, c[hole - 1])
    ensures SortedBut(s, Swapped(c, hole - 1, hole), k, hole - 1)
  {
  }

  lemma SiftDone(s: State, c: Clause, k: nat, hole: nat)
    requires SortedBut(s, c, k, hole) && 1 <= hole < k <= |c|
    requires hole > 1 ==> Position(s, c[hole - 1]) <= Position(s, c[hole])
    ensures SortedTail(s, c, k)
  {
    forall i, j | 1 <= i < j < k ensures Position(s, c[i]) <= Position(s, c[j]) {
      if j == hole && i < hole - 1 {
        assert Position(s, c[i]) <= Position(s, c[hole - 1]);
      }
    }
  }

  // ---------------------------------------------------------------------------------------------
  // Keeping or dropping the collected literals
  // ---------------------------------------------------------------------------------------------

  ghost predicate AboveRoot(s: State, vars: set<nat>) {
    forall v :: v in vars ==> 0 < VarLevel(s, v)
  }

  /** `index` of the collected literals have been decided; the kept ones are packed into the first `write` places. */
  ghost predicate Minimizing(s: State, flags: seq<Flags>, orig: Clause, learned: Clause, write: nat, index: nat,
                             kept: set<nat>) {
    && |learned| == |orig| && 1 <= write <= index <= |orig| && learned[0] == orig[0]
    && (forall i :: index <= i < |orig| ==> learned[i] == orig[i])
    && TailLists(s, learned[..write], kept)
    && |flags| == s.n + 1
    && (forall v :: 0 <= v < |flags| ==> (flags[v].keep <==> v in kept))
    && (forall i :: 1 <= i < index ==>
        Var(orig[i]) in kept || (Var(orig[i]) < |flags| && flags[Var(orig[i])].removable))
    && (forall v :: v in kept ==> v < |flags| && exists i :: 1 <= i < index && Var(orig[i]) == v)
  }

  lemma StartMinimizing(s: State, flags: seq<Flags>, orig: Clause)
    requires |orig| >= 1 && |flags| == s.n + 1 && forall v :: 0 <= v < |flags| ==> !flags[v].keep
    ensures Minimizing(s, flags, orig, orig, 1, 1, {})
  {
  }

  /** The variable of the next literal has not been kept before. */
  lemma NextIsNew(s: State, flags: seq<Flags>, orig: Clause, learned: Clause, write: nat, index: nat, kept: set<nat>,
                  low: set<nat>)
    requires Minimizing(s, flags, orig, learned, write, index, kept) && TailLists(s, orig, low) && index < |orig|
    requires SearchOk(s)
    ensures |learned| == |orig| && write <= index && Var(orig[index]) !in kept && learned[index] == orig[index]
    ensures Value(s, orig[index]) == -1 && VarAssigned(s, Var(orig[index])) && Var(orig[index]) < |flags|
    ensures !flags[Var(orig[index])].keep && Var(orig[index]) in low
  {
    AssignedVar(s, orig[index]);
    assert forall i :: 1 <= i < index ==> Var(orig[i]) != Var(orig[index]);
  }

  /** The literal is forced by the others: it is left out. */
  lemma DropStep(s: State, flags: seq<Flags>, orig: Clause, learned: Clause, write: nat, index: nat, kept: set<nat>)
    requires Minimizing(s, flags, orig, learned, write, index, kept) && index < |orig|
    requires Var(orig[index]) < |flags| && flags[Var(orig[index])].removable
    ensures Minimizing(s, flags, orig, learned, write, index + 1, kept)
  {
  }

  /** The literal stays: it moves to the next free place. */
  lemma KeepStep(s: State, flags: seq<Flags>, orig: Clause, learned: Clause, write: nat, index: nat, kept: set<nat>)
    requires Minimizing(s, flags, orig, learned, write, index, kept) && index < |orig|
    requires Var(orig[index]) < |flags| && Var(orig[index]) !in kept && Value(s, orig[index]) == -1
    ensures var v := Var(orig[index]);
            Minimizing(s, flags[v := flags[v].(keep := true)], orig, learned[write := orig[index]], write + 1,
                       index + 1, kept + {v})
  {
    var v := Var(orig[index]);
    var after := learned[write := orig[index]];
    var before, packed := learned[..write], after[..write + 1];
    assert forall i :: 0 <= i < write ==> packed[i] == before[i];
    assert packed[write] == orig[index];
    forall u | u in kept + {v} ensures exists i :: 1 <= i < |packed| && Var(packed[i]) == u {
      if u in kept {
        var i :| 1 <= i < |before| && Var(before[i]) == u;
        assert packed[i] == before[i];
      }
    }
    forall u | u in kept + {v} ensures u < |flags| && exists i :: 1 <= i < index + 1 && Var(orig[i]) == u {
    }
  }

  // ---------------------------------------------------------------------------------------------
  // Which literals are dropped
  // ---------------------------------------------------------------------------------------------

  /** The position of the last literal decided. */
  ghost function SiftBound(s: State, orig: Clause, index: nat): nat {
    if 1 < index <= |orig| then Position(s, orig[index - 1]) else 0
  }

  /** Of the first `index` literals the derivable ones are dropped and, unless a visit was refused for its depth, no
      others. */
  ghost predicate Sifted(s: State, frames: seq<SeenFrame>, met: Met, flags: seq<Flags>, orig: Clause, index: nat,
                         kept: set<nat>, cut: bool) {
    && FramesOk(s, frames, met) && SortedTail(s, orig, |orig|) && TailLists(s, orig, met.low)
    && Exact(s, frames, flags, kept, SiftBound(s, orig, index), cut)
    && (forall i :: 1 <= i < index && i < |orig| ==> SiftedAt(s, frames, kept, cut, Var(orig[i])))
    && (forall v :: v in kept ==> exists i :: 1 <= i < index && i < |orig| && Var(orig[i]) == v)
  }

  ghost predicate SiftedAt(s: State, frames: seq<SeenFrame>, kept: set<nat>, cut: bool, v: nat) {
    if v in kept then cut || !Derivable(s, frames, kept, v) else Derivable(s, frames, kept, v)
  }

  lemma NothingSifted(s: State, x: Scratch, learned: Clause, met: Met, bound: nat, orig: Clause)
    requires Collecting(s, x, learned, met, bound) && SortedTail(s, orig, |orig|) && TailLists(s, orig, met.low)
    ensures Sifted(s, x.frames, met, x.flags, orig, 1, {}, false)
  {
  }

  /** What is looked up for the next literal. */
  lemma NextToSift(s: State, frames: seq<SeenFrame>, met: Met, flags: seq<Flags>, orig: Clause, index: nat,
                   kept: set<nat>, cut: bool)
    requires SearchOk(s) && Sifted(s, frames, met, flags, orig, index, kept, cut) && 1 <= index < |orig|
    ensures var v := Var(orig[index]);
            && SiftBound(s, orig, index) <= VarPosition(s, v) == SiftBound(s, orig, index + 1) && v !in kept
            && Exact(s, frames, flags, kept, SiftBound(s, orig, index), cut) && v in met.low
    ensures forall u :: u in kept ==> VarPosition(s, u) <= VarPosition(s, Var(orig[index]))
  {
    VarTables(s, orig[index]);
    forall u | u in kept ensures u != Var(orig[index]) && VarPosition(s, u) <= VarPosition(s, Var(orig[index])) {
      var i :| 1 <= i < index && Var(orig[i]) == u;
      VarTables(s, orig[i]);
    }
  }

  lemma SiftedFrames(s: State, frames: seq<SeenFrame>, met: Met, flags: seq<Flags>, orig: Clause, index: nat,
                     kept: set<nat>, cut: bool)
    requires Sifted(s, frames, met, flags, orig, index, kept, cut)
    ensures FramesOk(s, frames, met)
  {
  }

  /** The only variable met at its level is the earliest one there, so nothing makes it derivable. */
  lemma AloneIsNot(s: State, frames: seq<SeenFrame>, met: Met, kept: set<nat>, v: nat)
    requires FramesOk(s, frames, met) && v in met.low && VarLevel(s, v) < |frames| && frames[VarLevel(s, v)].count < 2
    ensures !Derivable(s, frames, kept, v)
  {
    assert InMet(met, v) && FrameBounds(s, frames, v);
  }

  /** A derivable literal is left out. */
  lemma SiftDrop(s: State, frames: seq<SeenFrame>, met: Met, flags: seq<Flags>, later: seq<Flags>, orig: Clause,
                 index: nat, kept: set<nat>, cut: bool, nowCut: bool)
    requires SearchOk(s) && Sifted(s, frames, met, flags, orig, index, kept, cut) && 1 <= index < |orig|
    requires Exact(s, frames, later, kept, VarPosition(s, Var(orig[index])), nowCut) && (cut ==> nowCut)
    requires Var(orig[index]) < |later| && later[Var(orig[index])].removable
    ensures Sifted(s, frames, met, later, orig, index + 1, kept, nowCut)
  {
    hide Derivable, TailLists, FramesOk, SortedTail;
    NextToSift(s, frames, met, flags, orig, index, kept, cut);
    forall i | 1 <= i < index + 1 && i < |orig| ensures SiftedAt(s, frames, kept, nowCut, Var(orig[i])) {
      if i < index {
        assert SiftedAt(s, frames, kept, cut, Var(orig[i]));
      }
    }
  }

  /** A literal that is not derivable stays. */
  lemma SiftKeep(s: State, frames: seq<SeenFrame>, met: Met, flags: seq<Flags>, later: seq<Flags>, orig: Clause,
                 index: nat, kept: set<nat>, cut: bool, nowCut: bool)
    requires SearchOk(s) && Sifted(s, frames, met, flags, orig, index, kept, cut) && 1 <= index < |orig|
    requires Exact(s, frames, later, kept, VarPosition(s, Var(orig[index])), nowCut) && (cut ==> nowCut)
    requires Var(orig[index]) < |later|
    requires nowCut || !Derivable(s, frames, kept, Var(orig[index]))
    ensures var v := Var(orig[index]);
            Sifted(s, frames, met, later[v := later[v].(keep := true)], orig, index + 1, kept + {v}, nowCut)
  {
    var v := Var(orig[index]);
    NextToSift(s, frames, met, flags, orig, index, kept, cut);
    KeepExact(s, frames, later, kept, v, nowCut);
    forall i | 1 <= i < index + 1 && i < |orig| ensures SiftedAt(s, frames, kept + {v}, nowCut, Var(orig[i])) {
      VarTables(s, orig[i]);
      if i < index {
        assert SiftedAt(s, frames, kept, cut, Var(orig[i]));
        assert Position(s, orig[i]) <= Position(s, orig[index]) && Var(orig[i]) != v;
      }
      StillSifted(s, frames, kept, nowCut, v, Var(orig[i]));
    }
    hide Derivable, TailLists, FramesOk, SortedTail, SiftedAt, Exact;
    forall u | u in kept + {v} ensures exists i :: 1 <= i < index + 1 && i < |orig| && Var(orig[i]) == u {
      if u in kept {
        var i :| 1 <= i < index && i < |orig| && Var(orig[i]) == u;
      }
    }
  }

  lemma StillSifted(s: State, frames: seq<SeenFrame>, kept: set<nat>, cut: bool, v: nat, u: nat)
    requires VarPosition(s, u) <= VarPosition(s, v)
    requires if u == v then cut || !Derivable(s, frames, kept, v) else SiftedAt(s, frames, kept, cut, u)
    ensures SiftedAt(s, frames, kept + {v}, cut, u)
  {
    if u in kept + {v} {
      if Derivable(s, frames, kept + {v}, u) {
        DerivableBelow(s, frames, kept, v, u);
      }
    } else {
      DerivableMore(s, frames, kept, kept + {v}, u);
    }
  }

  lemma KeepExact(s: State, frames: seq<SeenFrame>, flags: seq<Flags>, kept: set<nat>, v: nat, cut: bool)
    requires Exact(s, frames, flags, kept, VarPosition(s, v), cut) && v < |flags|
    ensures Exact(s, frames, flags[v := flags[v].(keep := true)], kept + {v}, VarPosition(s, v), cut)
  {
    var later := flags[v := flags[v].(keep := true)];
    forall u | 0 <= u < |later| && later[u].removable ensures Derivable(s, frames, kept + {v}, u) {
      DerivableMore(s, frames, kept, kept + {v}, u);
    }
    forall u | 0 <= u < |later| && later[u].poison ensures cut || !Derivable(s, frames, kept + {v}, u) {
      if !cut && Derivable(s, frames, kept + {v}, u) {
        DerivableBelow(s, frames, kept, v, u);
      }
    }
  }

  /** Of the collected variables the derivable ones are dropped and, unless a visit was refused for its depth, no
      others. */
  ghost predicate MinimizedExactly(s: State, frames: seq<SeenFrame>, low: set<nat>, kept: set<nat>, cut: bool) {
    kept <= low && forall v :: v in low ==> SiftedAt(s, frames, kept, cut, v)
  }

  lemma AllSifted(s: State, frames: seq<SeenFrame>, met: Met, flags: seq<Flags>, orig: Clause, kept: set<nat>,
                  cut: bool)
    requires Sifted(s, frames, met, flags, orig, |orig|, kept, cut)
    ensures MinimizedExactly(s, frames, met.low, kept, cut)
  {
    forall v | v in met.low ensures SiftedAt(s, frames, kept, cut, v) {
      var i :| 1 <= i < |orig| && Var(orig[i]) == v;
      assert SiftedAt(s, frames, kept, cut, Var(orig[i]));
    }
    forall v | v in kept ensures v in met.low {
      var i :| 1 <= i < |orig| && Var(orig[i]) == v;
    }
  }

  /** That determines what is kept. */
  lemma {:induction false} KeptIsUnique(s: State, frames: seq<SeenFrame>, low: set<nat>, kept: set<nat>,
                                        others: set<nat>, v: nat)
    requires MinimizedExactly(s, frames, low, kept, false) && MinimizedExactly(s, frames, low, others, false)
    ensures v in kept <==> v in others
    decreases VarPosition(s, v), 1
  {
    if v in low {
      assert SiftedAt(s, frames, kept, false, v) && SiftedAt(s, frames, others, false, v);
      DerivableAgrees(s, frames, low, kept, others, v);
    }
  }

  lemma {:induction false} DerivableAgrees(s: State, frames: seq<SeenFrame>, low: set<nat>, kept: set<nat>,
                                           others: set<nat>, v: nat)
    requires MinimizedExactly(s, frames, low, kept, false) && MinimizedExactly(s, frames, low, others, false)
    ensures Derivable(s, frames, kept, v) <==> Derivable(s, frames, others, v)
    decreases VarPosition(s, v), 0
  {
    if Eligible(s, frames, v) {
      forall m | m in s.db[VarReason(s, v).ref].lits && VarPosition(s, Var(m)) < VarPosition(s, v)
        ensures Var(m) in kept <==> Var(m) in others
        ensures Derivable(s, frames, kept, Var(m)) <==> Derivable(s, frames, others, Var(m))
      {
        KeptIsUnique(s, frames, low, kept, others, Var(m));
        DerivableAgrees(s, frames, low, kept, others, Var(m));
      }
    }
  }

  // ---------------------------------------------------------------------------------------------
  // The chains while literals are being decided
  // ---------------------------------------------------------------------------------------------

  /** The variables met, and only those, are marked seen and listed. */
  ghost predicate SeenAre(x: Scratch, met: Met) {
    MetOnce(x.analyzed, met) && forall v :: 0 <= v < |x.flags| ==> (x.flags[v].seen <==> InMet(met, v))
  }

  lemma SeenKept(x: Scratch, y: Scratch, met: Met)
    requires SeenAre(x, met) && MarksGrow(x.flags, y.flags) && y.analyzed == x.analyzed
    ensures SeenAre(y, met)
  {
  }

  ghost predicate Deciding(want: bool, s: State, flags: seq<Flags>, c: Chains, met: Met, uip: Lit, orig: Clause,
                           index: nat, kept: set<nat>) {
    want ==>
      && MinimizeChained(s, flags, c, {}) && ListsNeeded(s, c, {})
      && ChainHead(s, c.resolvedRefs, c.resolvedVars, met, c.rootVars, uip)
      && forall i :: 1 <= i < index && i < |orig| ==> Var(orig[i]) in kept || Var(orig[i]) in c.minVars
  }

  lemma DecidingMore(want: bool, s: State, flags: seq<Flags>, later: seq<Flags>, c: Chains, met: Met, uip: Lit,
                     orig: Clause, index: nat, kept: set<nat>)
    requires Deciding(want, s, flags, c, met, uip, orig, index, kept) && MarksGrow(flags, later)
    ensures Deciding(want, s, later, c, met, uip, orig, index, kept)
  {
    if want {
      MinimizedMonotone(s, flags, later, c.rootVars, c.rootVars, c.minRefs, c.minVars);
    }
  }

  lemma DecidedKept(want: bool, s: State, flags: seq<Flags>, c: Chains, met: Met, uip: Lit, orig: Clause, index: nat,
                    kept: set<nat>)
    requires Deciding(want, s, flags, c, met, uip, orig, index, kept) && index < |orig| && Var(orig[index]) < |flags|
    ensures var v := Var(orig[index]);
            Deciding(want, s, flags[v := flags[v].(keep := true)], c, met, uip, orig, index + 1, kept + {v})
  {
    var v := Var(orig[index]);
    if want {
      MinimizedMonotone(s, flags, flags[v := flags[v].(keep := true)], c.rootVars, c.rootVars, c.minRefs, c.minVars);
    }
  }

  lemma ChainHeadMore(s: State, refs: seq<Ref>, vars: seq<nat>, met: Met, rootVars: seq<nat>, more: seq<nat>, uip: Lit)
    requires ChainHead(s, refs, vars, met, rootVars, uip) && More(rootVars, more)
    ensures ChainHead(s, refs, vars, met, more, uip)
  {
    if uip != NO_LITERAL {
      forall k | 0 <= k < |refs| ensures refs[k] in s.db && Covers(s, s.db[refs[k]].lits, met, more) {
        assert Covers(s, s.db[refs[k]].lits, met, rootVars);
      }
    }
  }

  lemma DecidedDropped(s: State, flags: seq<Flags>, before: Chains, c: Chains, met: Met, uip: Lit, orig: Clause,
                       index: nat, kept: set<nat>)
    requires Deciding(true, s, flags, before, met, uip, orig, index, kept) && index < |orig|
    requires MinimizeChained(s, flags, c, {}) && ListsNeeded(s, c, {}) && Var(orig[index]) in c.minVars
    requires More(before.rootVars, c.rootVars) && More(before.minVars, c.minVars)
    requires c.resolvedRefs == before.resolvedRefs && c.resolvedVars == before.resolvedVars
    ensures Deciding(true, s, flags, c, met, uip, orig, index + 1, kept)
  {
    ChainHeadMore(s, c.resolvedRefs, c.resolvedVars, met, before.rootVars, c.rootVars, uip);
  }

  lemma DecidedAll(s: State, flags: seq<Flags>, c: Chains, met: Met, uip: Lit, orig: Clause, learned: Clause,
                   write: nat, kept: set<nat>, f: Formula)
    requires Deciding(true, s, flags, c, met, uip, orig, |orig|, kept) && met.open == {}
    requires Minimizing(s, flags, orig, learned, write, |orig|, kept) && TailLists(s, orig, met.low)
    requires RemovableOk(s, flags) && MinimizedTo(f, s, learned[..write], kept, uip) && s.level > 0
    ensures ChainsReady(s, flags, c, met, kept, uip)
  {
    forall v | v in met.low ensures v in kept || v in c.minVars {
      var i :| 1 <= i < |orig| && Var(orig[i]) == v;
    }
  }

  /** How minimization starts from what the resolution collected. */
  lemma CollectedFacts(s: State, x: Scratch, learned: Clause, met: Met, bound: nat)
    requires Collecting(s, x, learned, met, bound)
    ensures Tidy(s, x) && RemovableOk(s, x.flags) && SeenAre(x, met) && AboveRoot(s, met.low)
    ensures |learned| >= 1 && TailLists(s, learned, met.low) && MetOk(s, met, bound)
    ensures |x.flags| == s.n + 1 && forall v :: 0 <= v < |x.flags| ==> !x.flags[v].keep
  {
  }

  lemma StartDeciding(want: bool, s: State, flags: seq<Flags>, c: Chains, met: Met, uip: Lit, orig: Clause)
    requires Chaining(want, s, c, met, uip)
    ensures Deciding(want, s, flags, c, met, uip, orig, 1, {})
  {
  }

  lemma SetFirst(s: State, c: Clause, vars: set<nat>, l: Lit)
    requires TailLists(s, c, vars)
    ensures TailLists(s, c[0 := l], vars)
  {
    var d := c[0 := l];
    forall v | v in vars ensures exists i :: 1 <= i < |d| && Var(d[i]) == v {
      var i :| 1 <= i < |c| && Var(c[i]) == v;
      assert d[i] == c[i];
    }
  }

  /** Everything that holds while literals are being decided. */
  ghost predicate Decided(want: bool, s: State, x: Scratch, c: Chains, met: Met, uip: Lit, orig: Clause,
                          learned: Clause, write: nat, index: nat, kept: set<nat>) {
    && Tidy(s, x) && RemovableOk(s, x.flags) && SeenAre(x, met)
    && TailLists(s, orig, met.low) && AboveRoot(s, met.low)
    && Minimizing(s, x.flags, orig, learned, write, index, kept)
    && Deciding(want, s, x.flags, c, met, uip, orig, index, kept)
  }

  lemma StartDecided(want: bool, s: State, x: Scratch, c: Chains, learned: Clause, met: Met, bound: nat, uip: Lit,
                     orig: Clause)
    requires Collecting(s, x, learned, met, bound) && Chaining(want, s, c, met, uip)
    requires TailLists(s, orig, met.low)
    ensures Decided(want, s, x, c, met, uip, orig, orig, 1, 1, {})
  {
    CollectedFacts(s, x, learned, met, bound);
    StartMinimizing(s, x.flags, orig);
    StartDeciding(want, s, x.flags, c, met, uip, orig);
  }

  /** The next literal to decide is still in its place, and its variable is neither kept nor at the root. */
  lemma NextToDecide(want: bool, s: State, x: Scratch, c: Chains, met: Met, uip: Lit, orig: Clause, learned: Clause,
                     write: nat, index: nat, kept: set<nat>)
    requires SearchOk(s) && Decided(want, s, x, c, met, uip, orig, learned, write, index, kept) && index < |orig|
    ensures Tidy(s, x) && RemovableOk(s, x.flags) && |learned| == |orig| && write <= index
    ensures learned[index] == orig[index] && VarAssigned(s, Var(orig[index])) && Var(orig[index]) < |x.flags|
    ensures Excused(s, x.flags, Var(orig[index])) ==> x.flags[Var(orig[index])].removable
  {
    NextIsNew(s, x.flags, orig, learned, write, index, kept, met.low);
  }

  /** Looking for a literal's support only adds marks. */
  lemma DecidedMarks(want: bool, s: State, x: Scratch, y: Scratch, c: Chains, met: Met, uip: Lit, orig: Clause,
                     learned: Clause, write: nat, index: nat, kept: set<nat>)
    requires Decided(want, s, x, c, met, uip, orig, learned, write, index, kept)
    requires Tidy(s, y) && RemovableOk(s, y.flags) && MarksGrow(x.flags, y.flags) && y.analyzed == x.analyzed
    ensures Decided(want, s, y, c, met, uip, orig, learned, write, index, kept)
  {
    SeenKept(x, y, met);
    DecidingMore(want, s, x.flags, y.flags, c, met, uip, orig, index, kept);
  }

  lemma DecidedChains(s: State, x: Scratch, c: Chains, met: Met, uip: Lit, orig: Clause, learned: Clause,
                      write: nat, index: nat, kept: set<nat>)
    requires Decided(true, s, x, c, met, uip, orig, learned, write, index, kept)
    ensures MinimizeChained(s, x.flags, c, {}) && RemovableOk(s, x.flags) && ListsNeeded(s, c, {})
    ensures index < |orig| ==> Wanted(s, {} + Members(c.resolvedRefs), Var(orig[index]))
  {
    assert {} + Members(c.resolvedRefs) == Members(c.resolvedRefs);
  }

  /** A forced literal is left out. */
  lemma DropDecided(want: bool, s: State, x: Scratch, before: Chains, c: Chains, met: Met, uip: Lit, orig: Clause,
                    learned: Clause, write: nat, index: nat, kept: set<nat>)
    requires Decided(want, s, x, before, met, uip, orig, learned, write, index, kept) && index < |orig|
    requires Var(orig[index]) < |x.flags| && x.flags[Var(orig[index])].removable
    requires want ==> MinimizeChained(s, x.flags, c, {}) && ListsNeeded(s, c, {}) && Var(orig[index]) in c.minVars
    requires want ==> More(before.rootVars, c.rootVars) && More(before.minVars, c.minVars)
    requires want ==> c.resolvedRefs == before.resolvedRefs && c.resolvedVars == before.resolvedVars
    ensures Decided(want, s, x, c, met, uip, orig, learned, write, index + 1, kept)
  {
    DropStep(s, x.flags, orig, learned, write, index, kept);
    if want {
      DecidedDropped(s, x.flags, before, c, met, uip, orig, index, kept);
    }
  }

  /** A literal that stays moves to the next free place and is marked. */
  lemma KeepDecided(want: bool, s: State, x: Scratch, c: Chains, met: Met, uip: Lit, orig: Clause, learned: Clause,
                    write: nat, index: nat, kept: set<nat>)
    requires SearchOk(s) && Decided(want, s, x, c, met, uip, orig, learned, write, index, kept) && index < |orig|
    requires Var(orig[index]) < |x.flags| && !x.flags[Var(orig[index])].removable
    ensures write < |learned| && var v := Var(orig[index]);
            Decided(want, s, x.(flags := x.flags[v := x.flags[v].(keep := true)]), c, met, uip, orig,
                    learned[write := orig[index]], write + 1, index + 1, kept + {v})
  {
    var v := Var(orig[index]);
    NextIsNew(s, x.flags, orig, learned, write, index, kept, met.low);
    KeepStep(s, x.flags, orig, learned, write, index, kept);
    DecidedKept(want, s, x.flags, c, met, uip, orig, index, kept);
    hide Minimizing, Deciding, TailLists;
    TidyMark(s, x, v, x.flags[v].(keep := true));
    KeepKeepsRemovable(s, x.flags, v);
  }

  /** All literals are decided: the rest is refuted, and the chains account for what was dropped. */
  lemma FinishDecided(want: bool, f: Formula, s: State, x: Scratch, c: Chains, met: Met, bound: nat, uip: Lit,
                      orig: Clause, learned: Clause, write: nat, kept: set<nat>)
    requires SearchOk(s) && DatabaseEntailed(f, s.db) && s.level > 0
    requires Decided(want, s, x, c, met, uip, orig, learned, write, |orig|, kept)
    requires MetOk(s, met, bound) && met.open == {} && UipFound(f, s, met, uip)
    ensures 1 <= write <= |learned| && MinimizedTo(f, s, learned[..write], kept, uip) && learned[0] == orig[0]
            && Tidy(s, x) && SeenAre(x, met)
    ensures want ==> ChainsReady(s, x.flags, c, met, kept, uip)
  {
    MinimizingDone(f, s, x, x.flags, orig, learned, write, kept, met, bound, uip);
    if want {
      DecidedAll(s, x.flags, c, met, uip, orig, learned, write, kept, f);
    }
  }

  lemma MinimizingBounds(want: bool, s: State, x: Scratch, c: Chains, met: Met, uip: Lit, orig: Clause, learned: Clause,
                         write: nat, index: nat, kept: set<nat>)
    requires Decided(want, s, x, c, met, uip, orig, learned, write, index, kept)
    ensures |learned| == |orig| && 1 <= write <= |learned| && learned[0] == orig[0]
  {
  }

  /** What minimization ends with: a refuted set of kept variables, those of the literals left. */
  ghost predicate MinimizedTo(f: Formula, s: State, c: Clause, kept: set<nat>, uip: Lit) {
    && TailLists(s, c, kept) && (forall v :: v in kept ==> VarAssigned(s, v) && 0 < VarLevel(s, v) < s.level)
    && uip != NO_LITERAL && Value(s, uip) == 1 && Level(s, uip) == s.level
    && Refuted(f, s, kept + {Var(uip)})
  }

  lemma MinimizingDone(f: Formula, s: State, x: Scratch, flags: seq<Flags>, orig: Clause, learned: Clause, write: nat,
                       kept: set<nat>, met: Met, bound: nat, uip: Lit)
    requires SearchOk(s) && DatabaseEntailed(f, s.db)
    requires Minimizing(s, flags, orig, learned, write, |orig|, kept) && RemovableOk(s, flags)
    requires TailLists(s, orig, met.low) && MetOk(s, met, bound) && UipFound(f, s, met, uip)
    ensures MinimizedTo(f, s, learned[..write], kept, uip)
    ensures forall v :: v in met.low ==> v in kept || (v < |flags| && flags[v].removable)
    ensures kept <= met.low
  {
    forall v | v in met.low ensures v in kept || (v < |flags| && flags[v].removable) {
      var i :| 1 <= i < |orig| && Var(orig[i]) == v;
    }
    MinimizedIsRefuted(f, s, flags, met.low, kept, Var(uip));
    forall v | v in kept ensures v in met.low {
      var i :| 1 <= i < |orig| && Var(orig[i]) == v;
    }
  }

  // ---------------------------------------------------------------------------------------------
  // The learned clause
  // ---------------------------------------------------------------------------------------------

  /** Entailed, falsified by the trail, exactly the first literal of the current level, none of the root,
      each variable once, and, when there is a second literal, none of the rest above its level. */
  ghost predicate LearnedOk(f: Formula, s: State, c: Clause) {
    && |c| >= 1 && Entails(f, c) && Falsified(s, c) && ClauseOk(s.n, c)
    && Level(s, c[0]) == s.level
    && (forall i :: 1 <= i < |c| ==> 0 < Level(s, c[i]) < s.level)
    && (forall i :: 1 <= i < |c| ==> Level(s, c[i]) <= Level(s, c[1]))
  }

  /** No literal after the first is above the level of the second. */
  ghost predicate SecondHighest(s: State, c: Clause) {
    forall i :: 1 <= i < |c| ==> Level(s, c[i]) <= Level(s, c[1])
  }

  lemma LearnedIsOk(f: Formula, s: State, c: Clause, kept: set<nat>, uip: Lit)
    requires SearchOk(s) && MinimizedTo(f, s, c, kept, uip) && c[0] == Neg(uip) && SecondHighest(s, c)
    ensures LearnedOk(f, s, c) && AssumesVars(s, c, kept + {Var(uip)})
  {
    Assigned(s, uip);
    VarTables(s, uip);
    forall l | l in c ensures Value(s, l) == -1 && Var(l) in kept + {Var(uip)} {
      var i :| 0 <= i < |c| && c[i] == l;
    }
    assert c[0] in c;
    forall v | v in kept + {Var(uip)} ensures exists l :: l in c && Var(l) == v {
      if v in kept {
        var i :| 1 <= i < |c| && Var(c[i]) == v;
        assert c[i] in c;
      }
    }
    RefutedClause(f, s, kept + {Var(uip)}, c);
    LearnedShape(s, c, kept, uip);
  }

  lemma LearnedShape(s: State, c: Clause, kept: set<nat>, uip: Lit)
    requires SearchOk(s) && TailLists(s, c, kept) && c[0] == Neg(uip) && Value(s, uip) == 1 && Level(s, uip) == s.level
    requires forall v :: v in kept ==> VarAssigned(s, v) && 0 < VarLevel(s, v) < s.level
    ensures ClauseOk(s.n, c) && Level(s, c[0]) == s.level
    ensures forall i :: 1 <= i < |c| ==> 0 < Level(s, c[i]) < s.level
  {
    Assigned(s, uip);
    VarTables(s, uip);
    forall i | 0 <= i < |c| ensures ValidLit(s.n, c[i])
        && (i >= 1 ==> 0 < Level(s, c[i]) < s.level && Var(c[i]) != Var(uip)) {
      VarTables(s, c[i]);
      if i >= 1 {
        assert Var(c[i]) in kept;
      }
    }
  }

  /** Moving the literal of highest level to the second place. */
  lemma PickSecond(f: Formula, s: State, c: Clause, kept: set<nat>, uip: Lit, best: nat)
    requires MinimizedTo(f, s, c, kept, uip) && 1 <= best < |c|
    requires forall i :: 1 <= i < |c| ==> Level(s, c[i]) <= Level(s, c[best])
    ensures MinimizedTo(f, s, Swapped(c, 1, best), kept, uip) && SecondHighest(s, Swapped(c, 1, best))
    ensures Swapped(c, 1, best)[0] == c[0]
  {
    SwapTail(s, c, kept, 1, best);
  }

  lemma MinimizedTables(f: Formula, s: State, c: Clause, kept: set<nat>, uip: Lit)
    requires SearchOk(s) && MinimizedTo(f, s, c, kept, uip)
    ensures |c| >= 1 && (|c| == 1 ==> SecondHighest(s, c))
    ensures forall i :: 1 <= i < |c| ==> Var(c[i]) < |s.levels| && s.levels[Var(c[i])] == Level(s, c[i])
  {
    forall i | 1 <= i < |c| ensures Var(c[i]) < |s.levels| && s.levels[Var(c[i])] == Level(s, c[i]) {
      AssignedVar(s, c[i]);
    }
  }

  lemma TidyBounds(s: State, x: Scratch)
    requires Tidy(s, x)
    ensures |x.flags| == s.n + 1 && |x.frames| == s.level + 1
    ensures forall i :: 0 <= i < |x.analyzed| ==> x.analyzed[i] <= s.n
  {
  }

  /** A variable marked seen and listed. */
  lemma TidySeen(s: State, x: Scratch, v: nat)
    requires Tidy(s, x) && v < |x.flags|
    ensures Tidy(s, x.(flags := x.flags[v := x.flags[v].(seen := true)], analyzed := x.analyzed + [v]))
  {
    var y := x.(flags := x.flags[v := x.flags[v].(seen := true)], analyzed := x.analyzed + [v]);
    assert y.analyzed[|x.analyzed|] == v;
    forall u | 0 <= u < |y.flags| && y.flags[u] != NO_FLAGS ensures u in y.analyzed || u in y.minimized {
      if u != v {
        assert u in x.analyzed ==> u in y.analyzed;
      }
    }
  }

  /** The reason of an assigned literal's variable is a clause of the database, or there is none. */
  lemma ReasonTables(s: State, l: Lit)
    requires SearchOk(s) && Value(s, l) != 0
    ensures Sized(s) && Var(l) < |s.reasons|
    ensures s.reasons[Var(l)].Because? ==>
              s.reasons[Var(l)].ref in s.db && ClauseOk(s.n, s.db[s.reasons[Var(l)].ref].lits)
  {
    Assigned(s, l);
    AssignedVar(s, l);
    VarTables(s, s.trail[Position(s, l)]);
    assert ReasonAt(s, Position(s, l));
  }

  // ---------------------------------------------------------------------------------------------
  // What the conflict teaches
  // ---------------------------------------------------------------------------------------------

  /** The negated first unique implication point and, of the variables of lower levels the conflict rests on, exactly
      those that are not derivable; others are kept only when a visit was refused for its depth. */
  ghost predicate LearnedFrom(s: State, q: Ref, i: nat, met: Met, frames: seq<SeenFrame>, kept: set<nat>, cut: bool,
                              c: Clause) {
    && PointFound(s, q, i, met) && FramesOk(s, frames, met) && MinimizedExactly(s, frames, met.low, kept, cut)
    && (cut ==> |MiddleVars(s)| > MINIMIZE_DEPTH_LIMIT)
    && i < |s.trail| && |c| >= 1 && c[0] == Neg(s.trail[i])
    && (forall v :: v in kept <==> exists k :: 1 <= k < |c| && Var(c[k]) == v)
  }

  ghost predicate ExactlyLearned(s: State, q: Ref, c: Clause) {
    exists i: nat, met: Met, frames: seq<SeenFrame>, kept: set<nat>, cut: bool ::
      LearnedFrom(s, q, i, met, frames, kept, cut, c)
  }

  lemma LearnedIsExact(f: Formula, s: State, q: Ref, met: Met, frames: seq<SeenFrame>, kept: set<nat>, cut: bool,
                       c: Clause, uip: Lit)
    requires SearchOk(s) && PointFound(s, q, Position(s, uip), met) && FramesOk(s, frames, met)
    requires MinimizedExactly(s, frames, met.low, kept, cut) && (cut ==> |MiddleVars(s)| > MINIMIZE_DEPTH_LIMIT)
    requires MinimizedTo(f, s, c, kept, uip) && c[0] == Neg(uip)
    ensures ExactlyLearned(s, q, c)
  {
    hide PointFound, FramesOk, MinimizedExactly, MiddleVars;
    var i := Position(s, uip);
    Assigned(s, uip);
    SameVar(s.trail[i], uip);
    assert s.trail[i] == uip;
    assert LearnedFrom(s, q, i, met, frames, kept, cut, c);
  }

  // ---------------------------------------------------------------------------------------------
  // Which variables took part
  // ---------------------------------------------------------------------------------------------

  /** The variables marked seen are listed, each once. */
  ghost predicate SeenListed(x: Scratch) {
    && (forall i, j :: 0 <= i < j < |x.analyzed| ==> x.analyzed[i] != x.analyzed[j])
    && (forall v :: 0 <= v < |x.flags| ==> (x.flags[v].seen <==> v in x.analyzed))
  }

  lemma SeenIsListed(x: Scratch, met: Met)
    requires SeenAre(x, met)
    ensures SeenListed(x) && forall v :: v in x.analyzed <==> InMet(met, v)
  {
  }

  lemma SeenOneMore(x: Scratch, v: nat)
    requires SeenListed(x) && v < |x.flags| && !x.flags[v].seen
    ensures SeenListed(x.(flags := x.flags[v := x.flags[v].(seen := true)], analyzed := x.analyzed + [v]))
  {
    assert forall i :: 0 <= i < |x.analyzed| ==> x.analyzed[i] in x.analyzed;
  }

  /** The variable, above the root, occurs in the reason of one of the first `k` literals after the leading one. */
  ghost predicate ReasonSide(s: State, c: Clause, k: nat, v: nat) {
    VarLevel(s, v) > 0 && exists i :: 1 <= i < k && i < |c| && RestsOn(s, Var(c[i]), v)
  }

  lemma SpeaksMore(c: Clause, k: nat)
    requires k < |c|
    ensures forall v :: Speaks(c[..k + 1], v) <==> Speaks(c[..k], v) || v == Var(c[k])
  {
    assert c[..k + 1] == c[..k] + [c[k]];
    forall v | v == Var(c[k]) || Speaks(c[..k], v) ensures Speaks(c[..k + 1], v) {
      if v == Var(c[k]) {
        assert c[k] in c[..k + 1];
      } else {
        var l :| l in c[..k] && Var(l) == v;
        assert l in c[..k + 1];
      }
    }
  }

  lemma NoReasonSide(s: State, c: Clause)
    ensures forall k: nat, v :: k <= 1 || c == [] ==> !ReasonSide(s, c, k, v)
  {
  }

  lemma ReasonSideMore(s: State, c: Clause, k: nat)
    requires 1 <= k < |c|
    ensures forall v :: ReasonSide(s, c, k + 1, v) <==>
              ReasonSide(s, c, k, v) || (VarLevel(s, v) > 0 && RestsOn(s, Var(c[k]), v))
  {
    forall v | ReasonSide(s, c, k, v) || (VarLevel(s, v) > 0 && RestsOn(s, Var(c[k]), v))
      ensures ReasonSide(s, c, k + 1, v)
    {
      if ReasonSide(s, c, k, v) {
        var i :| 1 <= i < k && i < |c| && RestsOn(s, Var(c[i]), v);
        assert 1 <= i < k + 1;
      } else {
        assert 1 <= k < k + 1;
      }
    }
  }

  /** Listed are the variables the conflict rests on and, behind a short learned clause, those its literals rest on. */
  ghost predicate TookPart(s: State, q: Ref, c: Clause, vars: seq<nat>) {
    && (forall i, j :: 0 <= i < j < |vars| ==> vars[i] != vars[j])
    && exists i: nat :: FirstUip(s, q, i) && forall v :: v in vars <==>
         InSide(s, q, i, v) || (|c| <= REASON_BUMP_SIZE_LIMIT && ReasonSide(s, c, |c|, v))
  }

  lemma PartTaken(s: State, q: Ref, c: Clause, i: nat, met: Met, x: Scratch)
    requires PointFound(s, q, i, met) && SeenListed(x)
    requires SearchOk(s) && ConflictFound(s, q)
    requires forall v :: v in x.analyzed <==>
               InMet(met, v) || (|c| <= REASON_BUMP_SIZE_LIMIT && ReasonSide(s, c, |c|, v))
    ensures TookPart(s, q, c, x.analyzed)
  {
    forall v ensures InMet(met, v) <==> InSide(s, q, i, v) {
      if InSide(s, q, i, v) {
        forall u | u in ClauseVars(s.db[q].lits) ensures VarAssigned(s, u) {
          var l :| l in s.db[q].lits && Var(l) == u;
          AssignedVar(s, l);
        }
        BehindAssigned(s, ClauseVars(s.db[q].lits), LaterVars(s, i), v);
        SideBelow(s, v);
      }
    }
  }

  lemma SideBelow(s: State, v: nat)
    requires SearchOk(s) && VarAssigned(s, v)
    ensures VarLevel(s, v) <= s.level
  {
    VarOnTrail(s, v);
    LevelOfAssigned(s, s.trail[VarPosition(s, v)]);
    TrailEntry(s, VarPosition(s, v));
    VarTables(s, s.trail[VarPosition(s, v)]);
  }

  /** The conflict is where resolution starts. */
  lemma ConflictStarts(f: Formula, s: State, x: Scratch, conflict: Ref)
    requires SearchOk(s) && ConflictFound(s, conflict)
    requires Clean(s, x) && x.analyzed == [] && x.minimized == [] && x.touched == []
    ensures Resolving(f, s, Met({}, {}, {}), |s.trail|, NO_LITERAL, conflict, conflict)
    ensures Collecting(s, x, [NO_LITERAL], Met({}, {}, {}), |s.trail|)
  {
    StartResolving(f, s, conflict);
    StartCollecting(s, x);
  }

  /** The last facts about the learned clause, the proof step included. */
  lemma Learned(want: bool, f: Formula, s: State, flags: seq<Flags>, c: Chains, met: Met, kept: set<nat>, uip: Lit,
                learned: Clause)
    requires SearchOk(s) && MinimizedTo(f, s, learned, kept, uip) && learned[0] == Neg(uip) && SecondHighest(s, learned)
    requires want ==> ChainsReady(s, flags, c, met, kept, uip)
    ensures LearnedOk(f, s, learned)
    ensures want ==> TightStep(s.db, learned, EmittedChain(c)) && NamesReasons(s, EmittedChain(c))
    ensures want ==> StampsBelow(c.stamps, c.stamp) && |c.stamps| == s.n + 1
    ensures forall i :: 0 <= i < |learned| ==> Value(s, learned[i]) == -1
  {
    hide NamesReasons, EmittedChain, LratStep, EveryHintCounts;
    LearnedIsOk(f, s, learned, kept, uip);
    if want {
      EmittedChainIsLrat(s, flags, c, met, kept, uip, learned);
      EmittedAllCount(s, flags, c, met, kept, uip, learned);
      EmittedNames(s, flags, c, met, kept, uip);
      ChainedStampsBelow(s, c, {});
    }
  }
}
