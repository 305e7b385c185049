/** Which collected literals minimization drops, defined apart from the walk that decides it. */
module Removal {
  import opened Logic
  import opened SearchState
  import opened Analysis
  import opened ProofChain
  import opened Minimization

  /** A reason to expand: strictly between the root and the current level, and later than the earliest variable met at
      its level. */
  ghost predicate Eligible(s: State, frames: seq<SeenFrame>, v: nat) {
    && VarAssigned(s, v) && 0 < VarLevel(s, v) < s.level && VarReason(s, v).Because? && VarReason(s, v).ref in s.db
    && VarLevel(s, v) < |frames| && VarPosition(s, v) > frames[VarLevel(s, v)].minTrail
  }

  /** Every other variable of the reason is at the root, kept, or derivable itself. */
  ghost predicate Derivable(s: State, frames: seq<SeenFrame>, kept: set<nat>, v: nat)
    decreases VarPosition(s, v)
  {
    && Eligible(s, frames, v)
    && forall m :: m in s.db[VarReason(s, v).ref].lits && Var(m) != v ==>
         && VarPosition(s, Var(m)) < VarPosition(s, v)
         && (VarLevel(s, Var(m)) == 0 || Var(m) in kept || Derivable(s, frames, kept, Var(m)))
  }

  /** Keeping more makes no fewer derivable. */
  lemma {:induction false} DerivableMore(s: State, frames: seq<SeenFrame>, kept: set<nat>, more: set<nat>, v: nat)
    requires Derivable(s, frames, kept, v) && kept <= more
    ensures Derivable(s, frames, more, v)
    decreases VarPosition(s, v)
  {
    forall m | m in s.db[VarReason(s, v).ref].lits && Var(m) != v
      ensures VarLevel(s, Var(m)) == 0 || Var(m) in more || Derivable(s, frames, more, Var(m))
    {
      if VarLevel(s, Var(m)) != 0 && Var(m) !in kept {
        DerivableMore(s, frames, kept, more, Var(m));
      }
    }
  }

  /** Keeping a later variable makes nothing derivable. */
  lemma {:induction false} DerivableBelow(s: State, frames: seq<SeenFrame>, kept: set<nat>, w: nat, v: nat)
    requires Derivable(s, frames, kept + {w}, v) && VarPosition(s, v) <= VarPosition(s, w)
    ensures Derivable(s, frames, kept, v)
    decreases VarPosition(s, v)
  {
    forall m | m in s.db[VarReason(s, v).ref].lits && Var(m) != v
      ensures VarLevel(s, Var(m)) == 0 || Var(m) in kept || Derivable(s, frames, kept, Var(m))
    {
      if VarLevel(s, Var(m)) != 0 && Var(m) !in kept + {w} {
        DerivableBelow(s, frames, kept, w, Var(m));
      }
    }
  }

  // ---------------------------------------------------------------------------------------------
  // What the marks say
  // ---------------------------------------------------------------------------------------------

  /** Removable variables are derivable and, unless a visit was refused for its depth, poisoned ones are not. */
  ghost predicate Exact(s: State, frames: seq<SeenFrame>, flags: seq<Flags>, kept: set<nat>, bound: nat, cut: bool) {
    && |flags| == s.n + 1
    && (forall v :: 0 <= v < |flags| ==> (flags[v].keep <==> v in kept))
    && (forall v :: 0 <= v < |flags| && flags[v].removable ==> Derivable(s, frames, kept, v))
    && (forall v :: 0 <= v < |flags| && flags[v].poison ==>
          VarPosition(s, v) <= bound && (cut || !Derivable(s, frames, kept, v)))
  }

  /** Every variable being expanded may be. */
  ghost predicate StackExact(s: State, frames: seq<SeenFrame>, stack: seq<MinimizeFrame>, bound: nat) {
    forall k :: 0 <= k < |stack| ==> Eligible(s, frames, stack[k].v) && VarPosition(s, stack[k].v) <= bound
  }

  lemma ExactWider(s: State, frames: seq<SeenFrame>, flags: seq<Flags>, kept: set<nat>, bound: nat, wider: nat,
                   cut: bool, more: bool)
    requires Exact(s, frames, flags, kept, bound, cut) && bound <= wider && (cut ==> more)
    ensures Exact(s, frames, flags, kept, wider, more)
  {
  }

  /** A variable with nothing left to look at is derivable. */
  lemma PopExact(s: State, frames: seq<SeenFrame>, flags: seq<Flags>, kept: set<nat>, bound: nat, cut: bool,
                 stack: seq<MinimizeFrame>)
    requires SearchOk(s) && Exact(s, frames, flags, kept, bound, cut) && StackOk(s, flags, stack) && stack != []
    requires StackExact(s, frames, stack, bound) && stack[|stack| - 1].cursor == |stack[|stack| - 1].lits|
    ensures var v := stack[|stack| - 1].v;
            && v < |flags| && Exact(s, frames, WithRemovable(flags, v), kept, bound, cut)
            && StackExact(s, frames, stack[..|stack| - 1], bound)
  {
    var top := stack[|stack| - 1];
    var v := top.v;
    assert FrameOk(s, flags, stack, |stack| - 1);
    ReasonIsEarlier(s, flags, v);
    forall m | m in top.lits && Var(m) != v
      ensures VarLevel(s, Var(m)) == 0 || Var(m) in kept || Derivable(s, frames, kept, Var(m))
    {
      var j :| 0 <= j < |top.lits| && top.lits[j] == m;
      assert Excused(s, flags, Var(m));
    }
    assert Derivable(s, frames, kept, v);
  }

  /** The top frame moves on. */
  lemma StackAdvances(s: State, frames: seq<SeenFrame>, stack: seq<MinimizeFrame>, next: MinimizeFrame, bound: nat)
    requires StackExact(s, frames, stack, bound) && stack != [] && next.v == stack[|stack| - 1].v
    ensures StackExact(s, frames, stack[|stack| - 1 := next], bound)
  {
  }

  /** A frame is opened for a variable of the top frame's reason. */
  lemma StackGrows(s: State, frames: seq<SeenFrame>, flags: seq<Flags>, stack: seq<MinimizeFrame>, next: MinimizeFrame,
                   v: nat, bound: nat)
    requires SearchOk(s) && StackOk(s, flags, stack) && StackExact(s, frames, stack, bound) && stack != []
    requires next.v == stack[|stack| - 1].v && Eligible(s, frames, v)
    requires var top := stack[|stack| - 1];
             top.cursor < |top.lits| && Var(top.lits[top.cursor]) == v && v != top.v
    ensures forall lits: Clause ::
            StackExact(s, frames, stack[|stack| - 1 := next] + [MinimizeFrame(v, lits, 0)], bound)
  {
    var top := stack[|stack| - 1];
    assert FrameOk(s, flags, stack, |stack| - 1);
    ReasonIsEarlier(s, flags, top.v);
    assert top.lits[top.cursor] in top.lits;
  }

  lemma StackStarts(s: State, frames: seq<SeenFrame>, v: nat, lits: Clause)
    requires Eligible(s, frames, v)
    ensures StackExact(s, frames, [MinimizeFrame(v, lits, 0)], VarPosition(s, v))
  {
  }

  lemma SearchSized(s: State)
    requires SearchOk(s)
    ensures Sized(s)
  {
  }

  /** A collected variable refused at once. */
  lemma NotAtOnce(s: State, frames: seq<SeenFrame>, flags: seq<Flags>, kept: set<nat>, bound: nat, v: nat)
    requires Exact(s, frames, flags, kept, bound, false) && v < |flags|
    ensures !Eligible(s, frames, v) || flags[v].poison ==> !Derivable(s, frames, kept, v)
  {
  }

  /** A variable refused for another cause than its depth is neither covered nor derivable. */
  lemma RefusedIsNot(s: State, frames: seq<SeenFrame>, flags: seq<Flags>, kept: set<nat>, bound: nat, v: nat)
    requires Exact(s, frames, flags, kept, bound, false) && VarAssigned(s, v) && !Excused(s, flags, v)
    requires !Eligible(s, frames, v) || (v < |flags| && flags[v].poison)
    ensures VarLevel(s, v) > 0 && v !in kept && !Derivable(s, frames, kept, v)
  {
  }

  /** Then nothing on the stack is derivable. */
  lemma {:induction false} StackIsNot(s: State, frames: seq<SeenFrame>, flags: seq<Flags>, kept: set<nat>, bound: nat,
                                      stack: seq<MinimizeFrame>, other: nat, k: nat)
    requires Exact(s, frames, flags, kept, bound, false) && StackOk(s, flags, stack) && k < |stack|
    requires var top := stack[|stack| - 1];
             top.cursor < |top.lits| && Var(top.lits[top.cursor]) == other && other != top.v
    requires VarLevel(s, other) > 0 && other !in kept && !Derivable(s, frames, kept, other)
    ensures !Derivable(s, frames, kept, stack[k].v)
    decreases |stack| - k
  {
    assert FrameOk(s, flags, stack, k);
    if k == |stack| - 1 {
      assert stack[k].lits[stack[k].cursor] in stack[k].lits;
    } else {
      StackIsNot(s, frames, flags, kept, bound, stack, other, k + 1);
      assert FrameOk(s, flags, stack, k + 1);
      var m := stack[k].lits[stack[k].cursor - 1];
      assert m in stack[k].lits && Var(m) == stack[k + 1].v;
      assert VarPosition(s, stack[k + 1].v) < VarPosition(s, stack[k].v);
    }
  }

  /** Poisoning what is on the stack keeps the marks exact. */
  lemma PoisonExact(s: State, frames: seq<SeenFrame>, flags: seq<Flags>, kept: set<nat>, bound: nat, cut: bool,
                    stack: seq<MinimizeFrame>, later: seq<Flags>)
    requires Exact(s, frames, flags, kept, bound, cut) && StackExact(s, frames, stack, bound)
    requires MarksGrow(flags, later) && SameRemovable(flags, later) && PoisonedBy(flags, later, stack)
    requires cut || forall k :: 0 <= k < |stack| ==> !Derivable(s, frames, kept, stack[k].v)
    ensures Exact(s, frames, later, kept, bound, cut)
  {
    forall v | 0 <= v < |later| && later[v].poison
      ensures VarPosition(s, v) <= bound && (cut || !Derivable(s, frames, kept, v))
    {
      if !flags[v].poison {
        var k :| 0 <= k < |stack| && stack[k].v == v;
      }
    }
  }

  /** What is poisoned anew was on the stack. */
  ghost predicate PoisonedBy(flags: seq<Flags>, later: seq<Flags>, stack: seq<MinimizeFrame>) {
    |later| == |flags| && forall v :: 0 <= v < |later| && later[v].poison && !flags[v].poison ==>
      exists k :: 0 <= k < |stack| && stack[k].v == v
  }

  // ---------------------------------------------------------------------------------------------
  // How deep a walk can be
  // ---------------------------------------------------------------------------------------------

  /** The variables strictly between the root and the current level. */
  ghost function MiddleVars(s: State): set<nat> {
    set v | 0 <= v < |s.levels| && VarAssigned(s, v) && 0 < VarLevel(s, v) < s.level
  }

  lemma {:induction false} StackVars(s: State, flags: seq<Flags>, stack: seq<MinimizeFrame>, k: nat)
    returns (vars: set<nat>)
    requires Sized(s) && StackOk(s, flags, stack) && k <= |stack|
    ensures vars <= MiddleVars(s) && |vars| == k && forall v :: v in vars ==> exists i :: 0 <= i < k && stack[i].v == v
  {
    vars := {};
    if k > 0 {
      vars := StackVars(s, flags, stack, k - 1);
      var v := stack[k - 1].v;
      assert FrameOk(s, flags, stack, k - 1);
      assert v !in vars;
      vars := vars + {v};
    }
  }

  /** A stack deeper than the limit needs more variables than that. */
  lemma DeepStack(s: State, flags: seq<Flags>, stack: seq<MinimizeFrame>)
    requires Sized(s) && StackOk(s, flags, stack)
    ensures |stack| <= |MiddleVars(s)|
  {
    var vars := StackVars(s, flags, stack, |stack|);
    SubsetSize(vars, MiddleVars(s));
  }
}
