/** Recursive minimization: which collected literals the others already force. */
module Minimization {
  import opened Logic
  import opened SearchState
  import opened Implication
  import opened Analysis
  import opened ProofChain

  const MINIMIZE_DEPTH_LIMIT: nat := 1000

  /** A variable being expanded, the literals of its reason and how many of them have been looked at. */
  datatype MinimizeFrame = MinimizeFrame(v: nat, lits: Clause, cursor: nat)

  /** What a visit decides before expanding: the variable is covered, cannot be, or must be expanded. */
  datatype Verdict = Spared | Blocking | Expand

  /** The variable can be expanded: it has a reason and lies strictly between the root and the current level. */
  ghost predicate Expandable(s: State, flags: seq<Flags>, v: nat) {
    && VarAssigned(s, v) && v < |flags| && 0 < VarLevel(s, v) < s.level
    && VarReason(s, v).Because? && VarReason(s, v).ref in s.db
    && !flags[v].removable && !flags[v].keep
  }

  /** Every literal of the frame already looked at is covered, except the one the next frame expands. */
  ghost predicate FrameOk(s: State, flags: seq<Flags>, stack: seq<MinimizeFrame>, k: nat)
    requires k < |stack|
  {
    var frame := stack[k];
    && Expandable(s, flags, frame.v)
    && frame.lits == s.db[VarReason(s, frame.v).ref].lits && frame.cursor <= |frame.lits|
    && (k + 1 < |stack| ==> 0 < frame.cursor && Var(frame.lits[frame.cursor - 1]) == stack[k + 1].v)
    && forall j :: 0 <= j < frame.cursor ==>
         || Var(frame.lits[j]) == frame.v
         || Excused(s, flags, Var(frame.lits[j]))
         || (k + 1 < |stack| && Var(frame.lits[j]) == stack[k + 1].v)
  }

  /** Trail positions fall strictly down the stack. */
  ghost predicate Falling(s: State, stack: seq<MinimizeFrame>) {
    forall i, j :: 0 <= i < j < |stack| ==> VarPosition(s, stack[j].v) < VarPosition(s, stack[i].v)
  }

  /** Every variable expanded so far is on the stack or has its verdict. */
  ghost predicate OpenedOnce(flags: seq<Flags>, stack: seq<MinimizeFrame>, expanded: seq<nat>) {
    && Distinct(expanded)
    && (forall i :: 0 <= i < |expanded| ==>
          && expanded[i] < |flags|
          && (flags[expanded[i]].removable || flags[expanded[i]].poison
              || exists k :: 0 <= k < |stack| && stack[k].v == expanded[i]))
  }

  ghost predicate StackOk(s: State, flags: seq<Flags>, stack: seq<MinimizeFrame>) {
    && (forall k :: 0 <= k < |stack| ==> FrameOk(s, flags, stack, k))
    && Falling(s, stack)
  }

  /** The variables not expanded yet. */
  ghost function Unexpanded(n: nat, expanded: seq<nat>): set<nat> {
    set v | v in Variables(n) && v !in expanded
  }

  lemma OneFewer(n: nat, expanded: seq<nat>, v: nat)
    requires 1 <= v <= n && v !in expanded
    ensures Unexpanded(n, expanded + [v]) < Unexpanded(n, expanded)
  {
    VariablesSize(n);
    assert v in Unexpanded(n, expanded);
    assert (expanded + [v])[|expanded|] == v;
    assert v !in Unexpanded(n, expanded + [v]);
    assert forall i :: 0 <= i < |expanded| ==> (expanded + [v])[i] == expanded[i];
  }

  lemma OnceFirst(flags: seq<Flags>, v: nat, lits: Clause)
    requires v < |flags|
    ensures OpenedOnce(flags, [MinimizeFrame(v, lits, 0)], [v])
  {
    assert [MinimizeFrame(v, lits, 0)][0].v == v;
  }

  /** Advancing the top frame changes no variable on the stack. */
  lemma OnceAdvance(flags: seq<Flags>, stack: seq<MinimizeFrame>, expanded: seq<nat>, frame: MinimizeFrame)
    requires OpenedOnce(flags, stack, expanded) && stack != [] && frame.v == stack[|stack| - 1].v
    ensures OpenedOnce(flags, stack[|stack| - 1 := frame], expanded)
  {
    var after := stack[|stack| - 1 := frame];
    assert forall k :: 0 <= k < |stack| ==> after[k].v == stack[k].v;
  }

  lemma OncePop(flags: seq<Flags>, stack: seq<MinimizeFrame>, expanded: seq<nat>)
    requires OpenedOnce(flags, stack, expanded) && stack != [] && stack[|stack| - 1].v < |flags|
    ensures OpenedOnce(WithRemovable(flags, stack[|stack| - 1].v), stack[..|stack| - 1], expanded)
  {
    var after := stack[..|stack| - 1];
    assert forall k :: 0 <= k < |after| ==> after[k].v == stack[k].v;
    forall i | 0 <= i < |expanded|
      ensures expanded[i] < |flags|
        && (WithRemovable(flags, stack[|stack| - 1].v)[expanded[i]].removable
            || WithRemovable(flags, stack[|stack| - 1].v)[expanded[i]].poison
            || exists k :: 0 <= k < |after| && after[k].v == expanded[i])
    {
      if !flags[expanded[i]].removable && !flags[expanded[i]].poison {
        var k :| 0 <= k < |stack| && stack[k].v == expanded[i];
        assert k < |after| ==> after[k].v == expanded[i];
      }
    }
  }

  /** A variable with no verdict that is not on the stack has not been expanded. */
  lemma OncePush(flags: seq<Flags>, stack: seq<MinimizeFrame>, expanded: seq<nat>, frame: MinimizeFrame)
    requires OpenedOnce(flags, stack, expanded) && frame.v < |flags|
    requires !flags[frame.v].removable && !flags[frame.v].poison
    requires forall k :: 0 <= k < |stack| ==> stack[k].v != frame.v
    ensures frame.v !in expanded && OpenedOnce(flags, stack + [frame], expanded + [frame.v])
  {
    var after := stack + [frame];
    assert after[|stack|].v == frame.v;
    assert forall k :: 0 <= k < |stack| ==> after[k].v == stack[k].v;
  }

  /** The tables a verdict reads. */
  lemma JudgeFacts(s: State, x: Scratch, v: nat)
    requires SearchOk(s) && Tidy(s, x) && VarAssigned(s, v)
    ensures Sized(s) && VarLevel(s, v) <= s.level && |x.flags| == s.n + 1 && |x.frames| == s.level + 1
    ensures VarReason(s, v).Because? ==> VarReason(s, v).ref in s.db
  {
    VarOnTrail(s, v);
    var i := VarPosition(s, v);
    VarTables(s, s.trail[i]);
    assert LevelAt(s, i) && ReasonAt(s, i);
  }

  lemma TopFrame(s: State, flags: seq<Flags>, stack: seq<MinimizeFrame>)
    requires SearchOk(s) && StackOk(s, flags, stack) && stack != []
    ensures var top := stack[|stack| - 1];
            && Expandable(s, flags, top.v) && top.cursor <= |top.lits| && top.v < |flags| && 1 <= top.v <= s.n
            && top.lits == s.db[VarReason(s, top.v).ref].lits
            && forall j :: 0 <= j < |top.lits| && Var(top.lits[j]) != top.v ==> VarAssigned(s, Var(top.lits[j]))
    ensures forall k :: 0 <= k < |stack| ==> stack[k].v < |flags| && !flags[stack[k].v].removable
  {
    var top := stack[|stack| - 1];
    assert FrameOk(s, flags, stack, |stack| - 1);
    ReasonIsEarlier(s, flags, top.v);
    forall k | 0 <= k < |stack| ensures stack[k].v < |flags| && !flags[stack[k].v].removable {
      assert FrameOk(s, flags, stack, k);
    }
  }

  /** The reason literals of an expandable variable are false and earlier on the trail. */
  lemma ReasonIsEarlier(s: State, flags: seq<Flags>, v: nat)
    requires SearchOk(s) && Expandable(s, flags, v)
    ensures forall m :: m in s.db[VarReason(s, v).ref].lits && Var(m) != v ==>
              VarAssigned(s, Var(m)) && VarPosition(s, Var(m)) < VarPosition(s, v) && Var(m) < |s.levels|
  {
    VarOnTrail(s, v);
    var i := VarPosition(s, v);
    VarTables(s, s.trail[i]);
    assert ReasonAt(s, i);
    forall m | m in s.db[VarReason(s, v).ref].lits && Var(m) != v
      ensures VarAssigned(s, Var(m)) && VarPosition(s, Var(m)) < VarPosition(s, v) && Var(m) < |s.levels|
    {
      AssignedVar(s, m);
      VarTables(s, m);
    }
  }

  lemma StartStack(s: State, flags: seq<Flags>, v: nat)
    requires Expandable(s, flags, v)
    ensures StackOk(s, flags, [MinimizeFrame(v, s.db[VarReason(s, v).ref].lits, 0)])
  {
  }

  /** Looking at one more literal that is covered. */
  lemma AdvanceCovered(s: State, flags: seq<Flags>, stack: seq<MinimizeFrame>)
    requires StackOk(s, flags, stack) && stack != []
    requires var top := stack[|stack| - 1];
             top.cursor < |top.lits|
             && (Var(top.lits[top.cursor]) == top.v || Excused(s, flags, Var(top.lits[top.cursor])))
    ensures var top := stack[|stack| - 1];
            StackOk(s, flags, stack[|stack| - 1 := top.(cursor := top.cursor + 1)])
  {
    var top := stack[|stack| - 1];
    var after := stack[|stack| - 1 := top.(cursor := top.cursor + 1)];
    forall k | 0 <= k < |after| ensures FrameOk(s, flags, after, k) {
      assert FrameOk(s, flags, stack, k);
    }
  }

  /** Looking at one more literal that must be expanded. */
  lemma AdvanceExpand(s: State, flags: seq<Flags>, stack: seq<MinimizeFrame>)
    requires SearchOk(s) && StackOk(s, flags, stack) && stack != []
    requires var top := stack[|stack| - 1];
             top.cursor < |top.lits| && Var(top.lits[top.cursor]) != top.v
             && Expandable(s, flags, Var(top.lits[top.cursor]))
    ensures var top := stack[|stack| - 1];
            var u := Var(top.lits[top.cursor]);
            StackOk(s, flags, stack[|stack| - 1 := top.(cursor := top.cursor + 1)]
                              + [MinimizeFrame(u, s.db[VarReason(s, u).ref].lits, 0)])
    ensures forall k :: 0 <= k < |stack| ==> stack[k].v != Var(stack[|stack| - 1].lits[stack[|stack| - 1].cursor])
  {
    var top := stack[|stack| - 1];
    var u := Var(top.lits[top.cursor]);
    var after := stack[|stack| - 1 := top.(cursor := top.cursor + 1)]
        + [MinimizeFrame(u, s.db[VarReason(s, u).ref].lits, 0)];
    assert FrameOk(s, flags, stack, |stack| - 1);
    ReasonIsEarlier(s, flags, top.v);
    assert top.lits[top.cursor] in top.lits;
    PushedFrames(s, flags, stack, u);
    hide SearchOk, Expandable, Excused, VarReason, FrameOk;
  }

  /** Every frame is as it should be once the top one has moved on and another has been pushed. */
  lemma PushedFrames(s: State, flags: seq<Flags>, stack: seq<MinimizeFrame>, u: nat)
    requires stack != [] && (forall k :: 0 <= k < |stack| ==> FrameOk(s, flags, stack, k)) && Expandable(s, flags, u)
    requires var top := stack[|stack| - 1]; top.cursor < |top.lits| && Var(top.lits[top.cursor]) == u
    ensures var top := stack[|stack| - 1];
            var after := stack[|stack| - 1 := top.(cursor := top.cursor + 1)]
                + [MinimizeFrame(u, s.db[VarReason(s, u).ref].lits, 0)];
            forall k :: 0 <= k < |after| ==> FrameOk(s, flags, after, k)
  {
    hide Excused;
    var top := stack[|stack| - 1];
    var after := stack[|stack| - 1 := top.(cursor := top.cursor + 1)]
        + [MinimizeFrame(u, s.db[VarReason(s, u).ref].lits, 0)];
    forall k | 0 <= k < |after| ensures FrameOk(s, flags, after, k) {
      if k < |stack| {
        assert FrameOk(s, flags, stack, k);
      }
    }
  }

  ghost function WithRemovable(flags: seq<Flags>, v: nat): seq<Flags>
    requires v < |flags|
  {
    flags[v := flags[v].(removable := true)]
  }

  lemma ExcusedMore(s: State, flags: seq<Flags>, v: nat, u: nat)
    requires v < |flags| && (Excused(s, flags, u) || (u == v && VarAssigned(s, v)))
    ensures Excused(s, WithRemovable(flags, v), u)
  {
  }

  /** A variable whose reason is covered becomes removable. */
  lemma BecomesRemovable(s: State, flags: seq<Flags>, v: nat)
    requires RemovableOk(s, flags) && Expandable(s, flags, v)
    requires forall m :: m in s.db[VarReason(s, v).ref].lits && Var(m) != v ==> Excused(s, flags, Var(m))
    ensures RemovableOk(s, WithRemovable(flags, v))
  {
    var after := WithRemovable(flags, v);
    forall u | 0 <= u < |after| && after[u].removable ensures RemovableVar(s, after, u) && !after[u].keep {
      assert u != v ==> RemovableVar(s, flags, u);
      forall m | m in s.db[VarReason(s, u).ref].lits && Var(m) != u ensures Excused(s, after, Var(m)) {
        ExcusedMore(s, flags, v, Var(m));
      }
    }
  }

  /** A fully covered frame: its variable becomes removable and the frame below has one literal more covered. */
  lemma PopRemovable(s: State, flags: seq<Flags>, stack: seq<MinimizeFrame>)
    requires SearchOk(s) && RemovableOk(s, flags) && StackOk(s, flags, stack) && stack != []
    requires stack[|stack| - 1].cursor == |stack[|stack| - 1].lits|
    ensures var v := stack[|stack| - 1].v;
            v < |flags| && RemovableOk(s, WithRemovable(flags, v))
                && StackOk(s, WithRemovable(flags, v), stack[..|stack| - 1])
  {
    var top := stack[|stack| - 1];
    var v := top.v;
    assert FrameOk(s, flags, stack, |stack| - 1);
    forall m | m in top.lits && Var(m) != v ensures Excused(s, flags, Var(m)) {
      var j :| 0 <= j < |top.lits| && top.lits[j] == m;
    }
    BecomesRemovable(s, flags, v);
    var after := WithRemovable(flags, v);
    var rest := stack[..|stack| - 1];
    hide RemovableOk, SearchOk;
    forall k | 0 <= k < |rest| ensures FrameOk(s, after, rest, k) {
      assert FrameOk(s, flags, stack, k);
      assert VarPosition(s, v) < VarPosition(s, rest[k].v);
      forall j | 0 <= j < rest[k].cursor && Var(rest[k].lits[j]) != rest[k].v
        ensures Excused(s, after, Var(rest[k].lits[j])) || (k + 1 < |rest| && Var(rest[k].lits[j]) == rest[k + 1].v)
      {
        if Excused(s, flags, Var(rest[k].lits[j])) || k + 1 == |rest| {
          ExcusedMore(s, flags, v, Var(rest[k].lits[j]));
        }
      }
    }
  }

  /** Poisoning variables disturbs nothing that is removable. */
  lemma PoisonKeepsRemovable(s: State, flags: seq<Flags>, v: nat)
    requires RemovableOk(s, flags) && v < |flags|
    ensures RemovableOk(s, flags[v := flags[v].(poison := true)])
  {
    var after := flags[v := flags[v].(poison := true)];
    forall u | 0 <= u < |after| && after[u].removable ensures RemovableVar(s, after, u) && !after[u].keep {
      assert RemovableVar(s, flags, u);
      forall m | m in s.db[VarReason(s, u).ref].lits && Var(m) != u ensures Excused(s, after, Var(m)) {
        assert Excused(s, flags, Var(m));
      }
    }
  }

  lemma KeepKeepsRemovable(s: State, flags: seq<Flags>, v: nat)
    requires RemovableOk(s, flags) && v < |flags| && !flags[v].removable
    ensures RemovableOk(s, flags[v := flags[v].(keep := true)])
  {
    var after := flags[v := flags[v].(keep := true)];
    forall u | 0 <= u < |after| && after[u].removable ensures RemovableVar(s, after, u) && !after[u].keep {
      assert RemovableVar(s, flags, u);
      forall m | m in s.db[VarReason(s, u).ref].lits && Var(m) != u ensures Excused(s, after, Var(m)) {
        assert Excused(s, flags, Var(m));
      }
    }
  }

  /** Only poison and removable marks differ, and none of them is taken back. */
  ghost predicate MarksGrow(flags: seq<Flags>, later: seq<Flags>) {
    && |later| == |flags|
    && forall v :: 0 <= v < |flags| ==>
         && later[v].seen == flags[v].seen && later[v].keep == flags[v].keep
         && (flags[v].removable ==> later[v].removable) && (flags[v].poison ==> later[v].poison)
  }

  ghost predicate SameRemovable(flags: seq<Flags>, later: seq<Flags>) {
    |later| == |flags| && forall v :: 0 <= v < |flags| ==> later[v].removable == flags[v].removable
  }

  /** A new mark is tidy once its variable is listed. */
  lemma TidyMark(s: State, x: Scratch, v: nat, mark: Flags)
    requires Tidy(s, x) && v < |x.flags|
    ensures Tidy(s, x.(flags := x.flags[v := mark], minimized := x.minimized + [v]))
    ensures v in x.analyzed || v in x.minimized ==> Tidy(s, x.(flags := x.flags[v := mark]))
  {
    var y := x.(flags := x.flags[v := mark], minimized := x.minimized + [v]);
    assert y.minimized[|x.minimized|] == v;
    forall u | 0 <= u < |y.flags| && y.flags[u] != NO_FLAGS ensures u in y.analyzed || u in y.minimized {
      if u != v {
        assert u in x.minimized ==> u in y.minimized;
      }
    }
  }

  // ---------------------------------------------------------------------------------------------
  // What removability means
  // ---------------------------------------------------------------------------------------------

  /** A removable variable is forced by the kept ones, in every model of the formula. */
  lemma {:induction false} RemovableIsForced(f: Formula, s: State, flags: seq<Flags>, kept: set<nat>, v: nat)
    requires SearchOk(s) && DatabaseEntailed(f, s.db) && RemovableOk(s, flags)
    requires forall u :: 0 <= u < |flags| && flags[u].keep ==> u in kept
    requires Excused(s, flags, v)
    ensures ForcedBy(f, s, kept, v)
    decreases VarPosition(s, v)
  {
    VarOnTrail(s, v);
    var i := VarPosition(s, v);
    VarTables(s, s.trail[i]);
    VarTables(s, MakeLit(v, false));
    if VarLevel(s, v) == 0 {
      ForcedByRoot(f, s, kept, MakeLit(v, false));
    } else if flags[v].keep {
      ForcedByMember(f, s, kept, v);
    } else {
      assert RemovableVar(s, flags, v);
      assert ReasonAt(s, i);
      var c := s.db[VarReason(s, v).ref].lits;
      forall m | m in c && m != s.trail[i] ensures ForcedBy(f, s, kept, Var(m)) {
        AssignedVar(s, m);
        VarTables(s, m);
        SameAsTrail(s, i, m);
        RemovableIsForced(f, s, flags, kept, Var(m));
      }
      ForcedByReason(f, s, kept, i);
    }
  }

  /** A false literal is not over the variable of a trail literal at a later position. */
  lemma SameAsTrail(s: State, i: nat, m: Lit)
    requires Sized(s) && TrailOk(s) && i < |s.trail| && Value(s, m) == -1 && Position(s, m) < i
    ensures Var(m) != Var(s.trail[i])
  {
    TrailEntry(s, i);
  }

  /** Dropping removable literals from a refuted set keeps it refuted. */
  lemma MinimizedIsRefuted(f: Formula, s: State, flags: seq<Flags>, low: set<nat>, kept: set<nat>, uip: nat)
    requires SearchOk(s) && DatabaseEntailed(f, s.db) && RemovableOk(s, flags) && Refuted(f, s, low + {uip})
    requires forall u :: 0 <= u < |flags| && flags[u].keep ==> u in kept
    requires forall v :: v in low ==> v in kept || (v < |flags| && flags[v].removable)
    ensures Refuted(f, s, kept + {uip})
  {
    forall v | v in low + {uip} ensures ForcedBy(f, s, kept + {uip}, v) {
      if v in kept + {uip} {
        ForcedByMember(f, s, kept + {uip}, v);
      } else {
        assert RemovableVar(s, flags, v);
        RemovableIsForced(f, s, flags, kept, v);
        ForcedByMore(f, s, kept, kept + {uip}, v);
      }
    }
    RefutedWithoutForced(f, s, low + {uip}, kept + {uip});
  }

  // ---------------------------------------------------------------------------------------------
  // Termination of the walk
  // ---------------------------------------------------------------------------------------------

  /** Literals of the top frame still to be looked at. */
  ghost function Remaining(stack: seq<MinimizeFrame>): int {
    if stack == [] then 0 else |stack[|stack| - 1].lits| - stack[|stack| - 1].cursor
  }

  /** A step expands a variable for the first time, or leaves fewer frames, or fewer literals in the top one. */
  ghost predicate StepsDown(n: nat, stack: seq<MinimizeFrame>, expanded: seq<nat>, later: seq<MinimizeFrame>,
                            after: seq<nat>) {
    || Unexpanded(n, after) < Unexpanded(n, expanded)
    || (after == expanded && |later| < |stack|)
    || (after == expanded && |later| == |stack| && 0 <= Remaining(later) < Remaining(stack))
  }

  lemma ExpandableReason(s: State, flags: seq<Flags>, v: nat)
    requires Sized(s) && Expandable(s, flags, v)
    ensures 1 <= v <= s.n && v < |s.reasons| && s.reasons[v] == VarReason(s, v) && VarReason(s, v).Because?
    ensures VarReason(s, v).ref in s.db && v < |flags| && !flags[v].removable
  {
  }

  lemma OnceIsDistinct(flags: seq<Flags>, stack: seq<MinimizeFrame>, expanded: seq<nat>)
    requires OpenedOnce(flags, stack, expanded)
    ensures Distinct(expanded)
  {
  }

  // ---------------------------------------------------------------------------------------------
  // The antecedents of removed literals
  // ---------------------------------------------------------------------------------------------

  ghost predicate MinimizeChained(s: State, flags: seq<Flags>, c: Chains, busy: set<nat>) {
    RootChained(s, c, busy) && MinimizedChain(s, flags, c.rootVars, c.minRefs, c.minVars)
  }

  /** A root variable's chain has been listed in between. */
  lemma RootsGrew(s: State, flags: seq<Flags>, before: Chains, c: Chains, busy: set<nat>)
    requires MinimizeChained(s, flags, before, busy) && RootChained(s, c, busy)
    requires c.minRefs == before.minRefs && c.minVars == before.minVars && More(before.rootVars, c.rootVars)
    ensures MinimizeChained(s, flags, c, busy)
  {
    MinimizedMonotone(s, flags, flags, before.rootVars, c.rootVars, before.minRefs, before.minVars);
  }

  lemma StampedIsMinimized(s: State, flags: seq<Flags>, c: Chains, busy: set<nat>, v: nat)
    requires MinimizeChained(s, flags, c, busy) && Stamped(c.stamps, c.stamp, v) && v !in busy && VarLevel(s, v) > 0
    ensures v in c.minVars
  {
    forall i | 0 <= i < |c.rootVars| ensures VarLevel(s, c.rootVars[i]) == 0 {
      assert RootEntry(s, c.rootRefs, c.rootVars, i);
    }
  }

  lemma OpenMinimized(s: State, flags: seq<Flags>, c: Chains, busy: set<nat>, v: nat)
    requires MinimizeChained(s, flags, c, busy) && v < |c.stamps| && !Stamped(c.stamps, c.stamp, v)
    ensures v !in busy && MinimizeChained(s, flags, c.(stamps := c.stamps[v := c.stamp]), busy + {v})
  {
    OpenRoot(s, c, busy, v);
  }

  /** The reason literal needs nothing listed, or what it needs is listed. */
  ghost predicate Accounted(s: State, flags: seq<Flags>, c: Chains, u: nat) {
    || (VarLevel(s, u) == 0 && u in c.rootVars)
    || (u < |flags| && flags[u].keep && VarAssigned(s, u))
    || u in c.minVars
  }

  lemma CloseMinimized(s: State, flags: seq<Flags>, c: Chains, busy: set<nat>, v: nat, r: Ref)
    requires MinimizeChained(s, flags, c, busy + {v}) && v !in busy
    requires v < |flags| && flags[v].removable && VarAssigned(s, v) && 0 < VarLevel(s, v) < s.level
    requires VarReason(s, v) == Because(r) && r in s.db
    requires forall m :: m in s.db[r].lits && Var(m) != v ==> Accounted(s, flags, c, Var(m))
    ensures MinimizeChained(s, flags, c.(minRefs := c.minRefs + [r], minVars := c.minVars + [v]), busy)
    ensures v in c.minVars + [v] && More(c.minVars, c.minVars + [v])
  {
    BusyIsUnlisted(s, c, busy + {v}, v);
    ExtendMinimized(s, flags, c.rootVars, c.minRefs, c.minVars, v, r);
    StampMinimized(c.stamps, c.stamp, c.rootVars, c.minVars, busy, v);
    assert (c.minVars + [v])[|c.minVars|] == v;
  }

  lemma AccountedMore(s: State, flags: seq<Flags>, c: Chains, later: Chains, u: nat)
    requires Accounted(s, flags, c, u) && More(c.rootVars, later.rootVars) && More(c.minVars, later.minVars)
    ensures Accounted(s, flags, later, u)
  {
  }

  /** The tables a removable variable's expansion reads. */
  lemma RemovableFacts(s: State, flags: seq<Flags>, v: nat)
    requires SearchOk(s) && RemovableOk(s, flags) && v < |flags| && flags[v].removable
    ensures VarAssigned(s, v) && 0 < VarLevel(s, v) < s.level && !flags[v].keep
    ensures v < |s.reasons| && s.reasons[v] == VarReason(s, v) && VarReason(s, v).Because?
            && VarReason(s, v).ref in s.db
    ensures forall m :: m in s.db[VarReason(s, v).ref].lits && Var(m) != v ==>
              Excused(s, flags, Var(m)) && Var(m) < |s.levels| && VarPosition(s, Var(m)) < VarPosition(s, v)
  {
    assert RemovableVar(s, flags, v);
    VarOnTrail(s, v);
    var i := VarPosition(s, v);
    VarTables(s, s.trail[i]);
    assert ReasonAt(s, i);
    forall m | m in s.db[VarReason(s, v).ref].lits && Var(m) != v
      ensures Var(m) < |s.levels| && VarPosition(s, Var(m)) < VarPosition(s, v)
    {
      AssignedVar(s, m);
      VarTables(s, m);
    }
  }
}
