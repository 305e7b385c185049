/** Conflict analysis: the marks on variables, the literals collected and what they refute. */
module Analysis {
  import opened Logic
  import opened SearchState
  import opened Watching
  import opened Implication

  datatype Flags = Flags(seen: bool, poison: bool, removable: bool, keep: bool)

  const NO_FLAGS := Flags(false, false, false, false)
  const SEEN := Flags(true, false, false, false)

  /** Per level: how many seen variables, and the earliest trail position among them. */
  datatype SeenFrame = SeenFrame(count: nat, minTrail: nat)

  const NO_SEEN := SeenFrame(0, 0)

  datatype Scratch = Scratch(
    flags: seq<Flags>, analyzed: seq<nat>, minimized: seq<nat>, touched: seq<nat>, frames: seq<SeenFrame>)

  /** Nothing is marked. */
  ghost predicate Clean(s: State, x: Scratch) {
    && |x.flags| == s.n + 1 && |x.frames| == s.level + 1
    && (forall v :: 0 <= v < |x.flags| ==> x.flags[v] == NO_FLAGS)
    && (forall k :: 0 <= k < |x.frames| ==> x.frames[k].count == 0)
  }

  lemma CleanEmptied(s: State, x: Scratch)
    requires Clean(s, x)
    ensures Clean(s, Scratch(x.flags, [], [], [], x.frames))
  {
  }

  /** Every mark is on a list, so that it can be taken back. */
  ghost predicate Tidy(s: State, x: Scratch) {
    && |x.flags| == s.n + 1 && |x.frames| == s.level + 1
    && (forall v :: 0 <= v < |x.flags| && x.flags[v] != NO_FLAGS ==> v in x.analyzed || v in x.minimized)
    && (forall i :: 0 <= i < |x.analyzed| ==> x.analyzed[i] < |x.flags|)
    && (forall i :: 0 <= i < |x.minimized| ==> x.minimized[i] < |x.flags|)
    && (forall k :: 0 <= k < |x.frames| && x.frames[k].count != 0 ==> k in x.touched)
    && (forall i :: 0 <= i < |x.touched| ==> x.touched[i] < |x.frames|)
  }

  // ---------------------------------------------------------------------------------------------
  // Collecting the first unique implication point
  // ---------------------------------------------------------------------------------------------

  /** The variables met so far: below the current level (`low`) or on it (`current`), and, of the latter,
      those at trail positions still to be resolved (`open`, the positions before `bound`). */
  datatype Met = Met(low: set<nat>, current: set<nat>, open: set<nat>)

  ghost predicate MetOk(s: State, met: Met, bound: nat) {
    && (forall v :: v in met.low ==> VarAssigned(s, v) && 0 < VarLevel(s, v) < s.level)
    && (forall v :: v in met.current ==> VarAssigned(s, v) && VarLevel(s, v) == s.level)
    && (forall v :: v in met.open ==> v in met.current && VarPosition(s, v) < bound)
    && (forall v :: v in met.current && VarPosition(s, v) < bound ==> v in met.open)
  }

  ghost predicate VarAssigned(s: State, v: nat) {
    1 <= v <= s.n && Value(s, MakeLit(v, false)) != 0
  }

  ghost function VarLevel(s: State, v: nat): nat {
    if v < |s.levels| then s.levels[v] else 0
  }

  ghost function VarPosition(s: State, v: nat): nat {
    if v < |s.positions| then s.positions[v] else 0
  }

  ghost function VarReason(s: State, v: nat): Reason {
    if v < |s.reasons| then s.reasons[v] else NoReason
  }

  lemma VarTables(s: State, l: Lit)
    ensures VarLevel(s, Var(l)) == Level(s, l) && VarPosition(s, Var(l)) == Position(s, l)
    ensures VarReason(s, Var(l)) == ReasonOf(s, l)
  {
  }

  lemma AssignedVar(s: State, l: Lit)
    requires Sized(s) && TrailOk(s) && Value(s, l) != 0
    ensures VarAssigned(s, Var(l)) && Var(l) < |s.levels| && VarPosition(s, Var(l)) < |s.trail|
  {
    Assigned(s, l);
    SameVar(l, MakeLit(Var(l), false));
    Assigned(s, MakeLit(Var(l), false));
  }

  /** The trail literal of an assigned variable. */
  lemma VarOnTrail(s: State, v: nat)
    requires Sized(s) && TrailOk(s) && VarAssigned(s, v)
    ensures VarPosition(s, v) < |s.trail| && Var(s.trail[VarPosition(s, v)]) == v && v < |s.levels|
  {
    Assigned(s, MakeLit(v, false));
  }

  ghost predicate MarksAre(x: Scratch, met: Met) {
    forall v :: 0 <= v < |x.flags| ==> x.flags[v] == if v in met.low || v in met.current then SEEN else NO_FLAGS
  }

  /** The literals after the first one are the negations of the trail literals of `vars`, each once. */
  ghost predicate TailLists(s: State, c: Clause, vars: set<nat>) {
    && |c| >= 1
    && (forall i :: 1 <= i < |c| ==> Value(s, c[i]) == -1 && Var(c[i]) in vars)
    && (forall i, j :: 1 <= i < j < |c| ==> Var(c[i]) != Var(c[j]))
    && (forall v :: v in vars ==> exists i :: 1 <= i < |c| && Var(c[i]) == v)
  }

  ghost predicate InMet(met: Met, v: nat) {
    v in met.low || v in met.current
  }

  /** Each level's frame knows the earliest met variable of the level, and whether there is more than one. */
  ghost predicate FramesOk(s: State, frames: seq<SeenFrame>, met: Met) {
    && |frames| == s.level + 1
    && (forall v :: InMet(met, v) ==> FrameBounds(s, frames, v))
    && (forall k :: 0 <= k < |frames| && frames[k].count > 0 ==> FrameAttained(s, frames, met, k))
  }

  ghost predicate FrameBounds(s: State, frames: seq<SeenFrame>, v: nat) {
    var k := VarLevel(s, v);
    && k < |frames| && frames[k].count >= 1 && frames[k].minTrail <= VarPosition(s, v)
    && (frames[k].count == 1 ==> frames[k].minTrail == VarPosition(s, v))
  }

  ghost predicate FrameAttained(s: State, frames: seq<SeenFrame>, met: Met, k: nat)
    requires k < |frames|
  {
    exists v :: InMet(met, v) && VarLevel(s, v) == k && VarPosition(s, v) == frames[k].minTrail
  }

  /** One more variable is met and counted at its level. */
  lemma FramesMeet(s: State, frames: seq<SeenFrame>, met: Met, v: nat, low: bool)
    requires FramesOk(s, frames, met) && VarLevel(s, v) < |frames| && !InMet(met, v)
    ensures var k := VarLevel(s, v);
            FramesOk(s, frames[k := Recount(frames[k], VarPosition(s, v))], Meet(met, v, low))
  {
    var k := VarLevel(s, v);
    var later, after := frames[k := Recount(frames[k], VarPosition(s, v))], Meet(met, v, low);
    assert forall u :: InMet(after, u) <==> InMet(met, u) || u == v;
    forall u | InMet(after, u) ensures FrameBounds(s, later, u) {
      if u != v {
        assert FrameBounds(s, frames, u);
      }
    }
    forall j | 0 <= j < |later| && later[j].count > 0 ensures FrameAttained(s, later, after, j) {
      if j == k {
        if later[k].minTrail == VarPosition(s, v) {
          assert InMet(after, v);
        } else {
          assert FrameAttained(s, frames, met, k);
          var u :| InMet(met, u) && VarLevel(s, u) == k && VarPosition(s, u) == frames[k].minTrail;
          assert InMet(after, u);
        }
      } else {
        assert FrameAttained(s, frames, met, j);
        var u :| InMet(met, u) && VarLevel(s, u) == j && VarPosition(s, u) == frames[j].minTrail;
        assert InMet(after, u);
      }
    }
  }

  /** The variables met are listed, each once, and no others. */
  ghost predicate MetOnce(analyzed: seq<nat>, met: Met) {
    && (forall i, j :: 0 <= i < j < |analyzed| ==> analyzed[i] != analyzed[j])
    && (forall v :: v in analyzed <==> InMet(met, v))
  }

  lemma MetOneMore(analyzed: seq<nat>, met: Met, v: nat, low: bool)
    requires MetOnce(analyzed, met) && !InMet(met, v)
    ensures MetOnce(analyzed + [v], Meet(met, v, low))
  {
    var after := Meet(met, v, low);
    assert forall u :: InMet(after, u) <==> InMet(met, u) || u == v;
    assert forall i :: 0 <= i < |analyzed| ==> analyzed[i] in analyzed;
  }

  ghost predicate Collecting(s: State, x: Scratch, learned: Clause, met: Met, bound: nat) {
    && Tidy(s, x) && MetOk(s, met, bound) && MarksAre(x, met) && TailLists(s, learned, met.low)
    && FramesOk(s, x.frames, met) && MetOnce(x.analyzed, met)
  }

  /** A seen variable's level frame after one more. */
  function Recount(frame: SeenFrame, position: nat): SeenFrame {
    SeenFrame(frame.count + 1, if frame.count == 0 || position < frame.minTrail then position else frame.minTrail)
  }

  /** The scratch tables after a false literal above the root has been met for the first time. */
  function MarkSeen(x: Scratch, v: nat, lvl: nat, position: nat): Scratch
    requires v < |x.flags| && lvl < |x.frames|
  {
    x.(flags := x.flags[v := x.flags[v].(seen := true)],
       analyzed := x.analyzed + [v],
       frames := x.frames[lvl := Recount(x.frames[lvl], position)],
       touched := if x.frames[lvl].count == 0 then x.touched + [lvl] else x.touched)
  }

  function Meet(met: Met, v: nat, low: bool): Met {
    if low then met.(low := met.low + {v}) else met.(current := met.current + {v}, open := met.open + {v})
  }

  lemma MarkSeenTidy(s: State, x: Scratch, v: nat, lvl: nat, position: nat)
    requires Tidy(s, x) && v < |x.flags| && lvl < |x.frames|
    ensures Tidy(s, MarkSeen(x, v, lvl, position))
  {
    var y := MarkSeen(x, v, lvl, position);
    forall u | 0 <= u < |y.flags| && y.flags[u] != NO_FLAGS ensures u in y.analyzed || u in y.minimized {
      assert y.analyzed[|x.analyzed|] == v;
      if u != v {
        assert u in x.analyzed ==> u in y.analyzed;
      }
    }
    forall k | 0 <= k < |y.frames| && y.frames[k].count != 0 ensures k in y.touched {
      if k == lvl && x.frames[k].count == 0 {
        assert y.touched[|x.touched|] == k;
      } else {
        assert k in x.touched;
      }
    }
  }

  /** Meeting a new literal keeps the collection in order. */
  lemma MeetKeeps(s: State, x: Scratch, learned: Clause, met: Met, bound: nat, l: Lit)
    requires SearchOk(s) && Collecting(s, x, learned, met, bound)
    requires Value(s, l) == -1 && Level(s, l) > 0 && (Level(s, l) == s.level ==> Position(s, l) < bound)
    requires Var(l) < |x.flags| && !x.flags[Var(l)].seen
    ensures Level(s, l) < |x.frames|
    ensures var low := Level(s, l) < s.level;
            Collecting(s, MarkSeen(x, Var(l), Level(s, l), Position(s, l)), if low then learned + [l] else learned,
                       Meet(met, Var(l), low), bound)
    ensures Var(l) !in met.low && Var(l) !in met.current && Var(l) !in met.open
  {
    var v := Var(l);
    LevelOfAssigned(s, l);
    AssignedVar(s, l);
    VarTables(s, l);
    MarkSeenTidy(s, x, v, Level(s, l), Position(s, l));
    var low := Level(s, l) < s.level;
    var c := if low then learned + [l] else learned;
    assert v !in met.low && v !in met.current && v !in met.open;
    FramesMeet(s, x.frames, met, v, low);
    MetOneMore(x.analyzed, met, v, low);
    hide Level, Position, Tidy, SearchOk, FramesOk, MetOnce;
    assert MetOk(s, Meet(met, v, low), bound);
    assert MarksAre(MarkSeen(x, v, Level(s, l), Position(s, l)), Meet(met, v, low));
    hide MetOk, MarksAre, Value;
    if low {
      TailOneMore(s, learned, met.low, l);
    }
  }

  /** A false literal over another variable joins the tail. */
  lemma TailOneMore(s: State, c: Clause, vars: set<nat>, l: Lit)
    requires TailLists(s, c, vars) && Value(s, l) == -1 && Var(l) !in vars
    ensures TailLists(s, c + [l], vars + {Var(l)})
  {
    hide Value;
    var d := c + [l];
    assert d[|c|] == l;
    forall u | u in vars + {Var(l)} ensures exists i :: 1 <= i < |d| && Var(d[i]) == u {
      if u != Var(l) {
        var i :| 1 <= i < |c| && Var(c[i]) == u;
        assert d[i] == c[i];
      }
    }
  }

  /** The table entries a false literal may be looked up in. */
  lemma MeetTables(s: State, x: Scratch, learned: Clause, met: Met, bound: nat, l: Lit)
    requires SearchOk(s) && Collecting(s, x, learned, met, bound) && Value(s, l) == -1
    ensures Var(l) < |s.levels| && Var(l) < |s.positions| && Var(l) < |x.flags|
    ensures VarAssigned(s, Var(l)) && s.levels[Var(l)] == Level(s, l) == VarLevel(s, Var(l))
    ensures s.positions[Var(l)] == Position(s, l)
    ensures Level(s, l) < |x.frames| && Level(s, l) <= s.level
    ensures x.flags[Var(l)].seen ==> Var(l) in met.low || Var(l) in met.current
  {
    AssignedVar(s, l);
    LevelOfAssigned(s, l);
  }

  /** The variables whose trail values are jointly refuted while a clause is being resolved. */
  ghost function Pending(met: Met): set<nat> {
    met.low + met.open
  }

  /** Every literal but `skip` of the first `k` is at the root or has been met. */
  ghost predicate Scanned(s: State, c: Clause, k: nat, skip: Lit, met: Met) {
    forall i :: 0 <= i < k && i < |c| && c[i] != skip ==>
      Level(s, c[i]) == 0 || Var(c[i]) in met.low || Var(c[i]) in met.current
  }

  /** Every literal but `skip` is false and older than trail position `bound`. */
  ghost predicate FalseBut(s: State, c: Clause, skip: Lit, bound: nat) {
    forall i :: 0 <= i < |c| && c[i] != skip ==> Value(s, c[i]) == -1 && Position(s, c[i]) < bound
  }

  lemma FalseButAt(s: State, c: Clause, skip: Lit, bound: nat, i: nat)
    requires FalseBut(s, c, skip, bound) && i < |c| && c[i] != skip
    ensures Value(s, c[i]) == -1 && Position(s, c[i]) < bound
  {
  }

  ghost predicate MetGrows(met: Met, later: Met) {
    && met.low <= later.low && met.current <= later.current && met.open <= later.open
    && later.current <= met.current + later.open
  }

  /** Nothing but the variable has been met for the first time. */
  ghost predicate MetOnly(met: Met, later: Met, v: nat) {
    forall u :: u in later.low || u in later.current ==> u in met.low || u in met.current || u == v
  }

  /** What has been met for the first time occurs among the first `k` literals. */
  ghost predicate MetFrom(met: Met, later: Met, c: Clause, k: nat) {
    forall u :: u in later.low || u in later.current ==>
      u in met.low || u in met.current || exists i :: 0 <= i < k && i < |c| && Var(c[i]) == u
  }

  lemma MetOnlyItself(met: Met, v: nat)
    ensures MetOnly(met, met, v)
  {
  }

  lemma MetFromMore(start: Met, met: Met, later: Met, c: Clause, k: nat)
    requires MetFrom(start, met, c, k) && k < |c| && MetOnly(met, later, Var(c[k]))
    ensures MetFrom(start, later, c, k + 1)
  {
    forall u | u in later.low || u in later.current
      ensures u in start.low || u in start.current || exists i :: 0 <= i < k + 1 && i < |c| && Var(c[i]) == u
    {
      if u == Var(c[k]) {
        assert 0 <= k < k + 1;
      } else if u !in start.low && u !in start.current {
        var i :| 0 <= i < k && i < |c| && Var(c[i]) == u;
      }
    }
  }

  lemma ScannedNothing(s: State, c: Clause, skip: Lit, met: Met)
    ensures Scanned(s, c, 0, skip, met) && MetFrom(met, met, c, 0)
  {
  }

  lemma ScannedMore(s: State, c: Clause, k: nat, skip: Lit, met: Met, later: Met)
    requires Scanned(s, c, k, skip, met) && MetGrows(met, later) && k < |c|
    requires c[k] == skip || Level(s, c[k]) == 0 || Var(c[k]) in later.low || Var(c[k]) in later.current
    ensures Scanned(s, c, k + 1, skip, later)
  {
  }

  /** Scanning the falsified clause refutes what has been met. */
  lemma ScannedConflict(f: Formula, s: State, q: Ref, met: Met)
    requires SearchOk(s) && DatabaseEntailed(f, s.db) && q in s.db && Falsified(s, s.db[q].lits)
    requires Scanned(s, s.db[q].lits, |s.db[q].lits|, NO_LITERAL, met) && MetOk(s, met, |s.trail|)
    ensures Refuted(f, s, Pending(met))
  {
    var c := s.db[q].lits;
    forall m | m in c ensures Level(s, m) == 0 || Var(m) in Pending(met) {
      var i :| 0 <= i < |c| && c[i] == m;
      assert ValidLit(s.n, c[i]);
      AssignedVar(s, m);
      VarTables(s, m);
    }
    ConflictRefutes(f, s, q, Pending(met));
  }

  /** Scanning the reason of the literal at position `i` replaces its variable in what is refuted. */
  lemma ScannedReason(f: Formula, s: State, i: nat, before: Met, met: Met)
    requires SearchOk(s) && DatabaseEntailed(f, s.db) && i < |s.trail|
    requires ReasonOf(s, s.trail[i]).Because? && ReasonOf(s, s.trail[i]).ref in s.db
    requires Refuted(f, s, Pending(before) + {Var(s.trail[i])}) && MetGrows(before, met) && MetOk(s, met, i)
    requires var c := s.db[ReasonOf(s, s.trail[i]).ref].lits; Scanned(s, c, |c|, s.trail[i], met)
    ensures Refuted(f, s, Pending(met))
  {
    var c := s.db[ReasonOf(s, s.trail[i]).ref].lits;
    assert ReasonAt(s, i);
    forall m | m in c && m != s.trail[i] ensures Level(s, m) == 0 || Var(m) in Pending(met) {
      var k :| 0 <= k < |c| && c[k] == m;
      AssignedVar(s, m);
      VarTables(s, m);
    }
    ResolutionRefutes(f, s, i, Pending(before) + {Var(s.trail[i])}, Pending(met));
  }

  // ---------------------------------------------------------------------------------------------
  // Walking the trail backwards to the next literal to resolve on
  // ---------------------------------------------------------------------------------------------

  /** The position of `v` bounds what is still open once `v` itself is taken out. */
  lemma TakeOpen(s: State, met: Met, bound: nat, v: nat)
    requires Sized(s) && TrailOk(s) && MetOk(s, met, bound) && v in met.open
    requires forall u :: u in met.open ==> VarPosition(s, u) <= VarPosition(s, v)
    ensures MetOk(s, met.(open := met.open - {v}), VarPosition(s, v))
    ensures Pending(met) == Pending(met.(open := met.open - {v})) + {v}
  {
    var after := met.(open := met.open - {v});
    forall u | u in after.open ensures VarPosition(s, u) < VarPosition(s, v) {
      VarOnTrail(s, u);
      VarOnTrail(s, v);
    }
  }

  /** A met variable that is not the last of its level's is not the level's decision. */
  lemma OpenHasReason(s: State, v: nat, u: nat)
    requires SearchOk(s) && VarAssigned(s, v) && VarAssigned(s, u) && VarLevel(s, v) == VarLevel(s, u)
    requires VarPosition(s, u) < VarPosition(s, v)
    ensures VarReason(s, v).Because? && VarReason(s, v).ref in s.db
    ensures Forces(s, s.db[VarReason(s, v).ref].lits, s.trail[VarPosition(s, v)], VarPosition(s, v))
  {
    VarOnTrail(s, v);
    VarOnTrail(s, u);
    var i := VarPosition(s, v);
    assert ReasonAt(s, i);
    assert LevelAt(s, VarPosition(s, u));
    VarTables(s, s.trail[i]);
    VarTables(s, s.trail[VarPosition(s, u)]);
    assert Begin(s, VarLevel(s, u)) <= VarPosition(s, u);
  }

  lemma SeenAndCurrent(s: State, x: Scratch, learned: Clause, met: Met, bound: nat, i: nat)
    requires SearchOk(s) && Collecting(s, x, learned, met, bound) && i < bound <= |s.trail|
    ensures Var(s.trail[i]) < |x.flags| && Var(s.trail[i]) < |s.levels|
    ensures x.flags[Var(s.trail[i])].seen && s.levels[Var(s.trail[i])] == s.level ==> Var(s.trail[i]) in met.open
    ensures forall u :: u in met.open && VarPosition(s, u) == i ==> u == Var(s.trail[i])
    ensures forall u :: u in met.open ==> u < |x.flags| && x.flags[u].seen && u < |s.levels| && s.levels[u] == s.level
  {
    TrailEntry(s, i);
    VarTables(s, s.trail[i]);
    forall u | u in met.open && VarPosition(s, u) == i ensures u == Var(s.trail[i]) {
      VarOnTrail(s, u);
    }
    forall u | u in met.open
      ensures u < |x.flags| && x.flags[u].seen && u < |s.levels| && s.levels[u] == s.level
    {
      VarOnTrail(s, u);
    }
  }

  /** Nothing has been met yet. */
  lemma StartCollecting(s: State, x: Scratch)
    requires Clean(s, x) && x.analyzed == [] && x.minimized == [] && x.touched == []
    ensures Collecting(s, x, [NO_LITERAL], Met({}, {}, {}), |s.trail|)
  {
  }

  /** Where the resolution stands before the next clause is scanned. */
  ghost predicate Resolving(f: Formula, s: State, met: Met, index: nat, uip: Lit, reason: Ref, conflict: Ref) {
    && index <= |s.trail| && reason in s.db
    && FalseBut(s, s.db[reason].lits, uip, index)
    && if uip == NO_LITERAL then
         index == |s.trail| && reason == conflict && met == Met({}, {}, {}) && Falsified(s, s.db[reason].lits)
         && exists l :: l in s.db[reason].lits && Level(s, l) == s.level
       else
         index < |s.trail| && s.trail[index] == uip && ReasonOf(s, uip) == Because(reason)
         && Refuted(f, s, Pending(met) + {Var(uip)}) && met.open != {} && Var(uip) in met.current
  }

  lemma StartResolving(f: Formula, s: State, conflict: Ref)
    requires SearchOk(s) && conflict in s.db && Falsified(s, s.db[conflict].lits)
    requires exists l :: l in s.db[conflict].lits && Level(s, l) == s.level
    ensures Resolving(f, s, Met({}, {}, {}), |s.trail|, NO_LITERAL, conflict, conflict)
  {
    var c := s.db[conflict].lits;
    forall i | 0 <= i < |c| ensures Value(s, c[i]) == -1 && Position(s, c[i]) < |s.trail| {
      assert c[i] in c;
      Assigned(s, c[i]);
    }
  }

  /** After the scan what has been met is refuted, and something of the current level is open. */
  lemma ScannedRefutes(f: Formula, s: State, before: Met, met: Met, index: nat, uip: Lit, reason: Ref, conflict: Ref)
    requires SearchOk(s) && DatabaseEntailed(f, s.db) && s.level > 0
    requires Resolving(f, s, before, index, uip, reason, conflict)
    requires MetGrows(before, met) && MetOk(s, met, index)
    requires Scanned(s, s.db[reason].lits, |s.db[reason].lits|, uip, met)
    ensures Refuted(f, s, Pending(met)) && met.open != {}
  {
    var c := s.db[reason].lits;
    if uip == NO_LITERAL {
      ScannedConflict(f, s, reason, met);
      var l :| l in c && Level(s, l) == s.level;
      var i :| 0 <= i < |c| && c[i] == l;
      assert ValidLit(s.n, c[i]);
      VarTables(s, l);
      assert Var(l) !in met.low && Position(s, l) < index;
      assert Var(l) in met.open;
    } else {
      assert ReasonAt(s, index);
      ScannedReason(f, s, index, before, met);
    }
  }

  /** Resolution goes on with the reason of the next open literal while another one is open. */
  lemma NextResolving(f: Formula, s: State, met: Met, bound: nat, index: nat, conflict: Ref)
    requires SearchOk(s) && Refuted(f, s, Pending(met)) && MetOk(s, met, bound)
    requires index < bound <= |s.trail| && Var(s.trail[index]) in met.open
    requires forall u :: u in met.open ==> VarPosition(s, u) <= index
    ensures var uip := s.trail[index];
            var after := met.(open := met.open - {Var(uip)});
            && MetOk(s, after, index) && Refuted(f, s, Pending(after) + {Var(uip)})
            && uip != NO_LITERAL && Value(s, uip) == 1 && Level(s, uip) == s.level && Var(uip) in after.current
            && (after.open != {} ==>
                  ReasonOf(s, uip).Because? && Resolving(f, s, after, index, uip, ReasonOf(s, uip).ref, conflict))
  {
    var uip := s.trail[index];
    TrailEntry(s, index);
    VarTables(s, uip);
    var after := met.(open := met.open - {Var(uip)});
    TakeOpen(s, met, bound, Var(uip));
    if after.open != {} {
      var u :| u in after.open;
      OpenHasReason(s, Var(uip), u);
      var c := s.db[ReasonOf(s, uip).ref].lits;
      forall i | 0 <= i < |c| && c[i] != uip ensures Value(s, c[i]) == -1 && Position(s, c[i]) < index {
        assert c[i] in c;
      }
    }
  }

  lemma OpenBelow(s: State, x: Scratch, learned: Clause, met: Met, bound: nat)
    requires Collecting(s, x, learned, met, bound) && met.open != {}
    ensures 0 < bound && forall u :: u in met.open ==> VarPosition(s, u) < bound
  {
    var u :| u in met.open;
    assert VarPosition(s, u) < bound;
  }

  lemma OpenElsewhere(s: State, met: Met, index: nat)
    requires forall u :: u in met.open ==> VarPosition(s, u) <= index
    requires forall u :: u in met.open ==> VarPosition(s, u) != index
    ensures forall u :: u in met.open ==> VarPosition(s, u) < index
    ensures met.open != {} ==> 0 < index
  {
    if met.open != {} {
      var u :| u in met.open;
      assert VarPosition(s, u) < index;
    }
  }

  lemma CloseOne(s: State, x: Scratch, learned: Clause, met: Met, bound: nat, after: Met, index: nat)
    requires Collecting(s, x, learned, met, bound)
    requires after == met.(open := after.open) && MetOk(s, after, index)
    ensures Collecting(s, x, learned, after, index)
  {
    assert forall v :: InMet(after, v) <==> InMet(met, v);
    forall k | 0 <= k < |x.frames| && x.frames[k].count > 0 ensures FrameAttained(s, x.frames, after, k) {
      assert FrameAttained(s, x.frames, met, k);
    }
  }

  /** One variable of the current level is left, and together with the collected ones it is refuted. */
  ghost predicate UipFound(f: Formula, s: State, met: Met, uip: Lit) {
    && uip != NO_LITERAL && Value(s, uip) == 1 && Level(s, uip) == s.level && Var(uip) in met.current
    && Refuted(f, s, met.low + {Var(uip)})
  }

  /** The resolved-on literal with all that is still pending is refuted. */
  ghost predicate UipOrMore(f: Formula, s: State, met: Met, uip: Lit) {
    && uip != NO_LITERAL && Value(s, uip) == 1 && Level(s, uip) == s.level && Var(uip) in met.current
    && Refuted(f, s, Pending(met) + {Var(uip)})
  }

  lemma NoneOpen(f: Formula, s: State, met: Met, uip: Lit)
    requires UipOrMore(f, s, met, uip) && met.open == {}
    ensures UipFound(f, s, met, uip)
  {
    assert Pending(met) == met.low;
  }

  lemma ScanRefutes(f: Formula, s: State, x: Scratch, learned: Clause, before: Met, met: Met, bound: nat, uip: Lit,
                    reason: Ref, conflict: Ref)
    requires SearchOk(s) && DatabaseEntailed(f, s.db) && s.level > 0
    requires Resolving(f, s, before, bound, uip, reason, conflict) && Collecting(s, x, learned, met, bound)
    requires MetGrows(before, met) && Scanned(s, s.db[reason].lits, |s.db[reason].lits|, uip, met)
    ensures Refuted(f, s, Pending(met)) && met.open != {} && bound <= |s.trail|
  {
    ScannedRefutes(f, s, before, met, bound, uip, reason, conflict);
  }

  lemma ResolvingClause(f: Formula, s: State, met: Met, index: nat, uip: Lit, reason: Ref, conflict: Ref)
    requires Resolving(f, s, met, index, uip, reason, conflict)
    ensures reason in s.db && FalseBut(s, s.db[reason].lits, uip, index) && index <= |s.trail|
  {
  }

  lemma CollectingMet(s: State, x: Scratch, learned: Clause, met: Met, bound: nat)
    requires Collecting(s, x, learned, met, bound)
    ensures MetOk(s, met, bound)
  {
  }

  lemma CollectingFrames(s: State, x: Scratch, learned: Clause, met: Met, bound: nat)
    requires Collecting(s, x, learned, met, bound)
    ensures FramesOk(s, x.frames, met)
  {
  }

  /** One resolution is done: the literal at `index` comes next, with its reason while others are open. */
  ghost predicate StepDone(f: Formula, s: State, x: Scratch, learned: Clause, met: Met, index: nat, conflict: Ref) {
    && index < |s.trail| && Collecting(s, x, learned, met, index) && UipOrMore(f, s, met, s.trail[index])
    && (met.open != {} ==>
          && VarReason(s, Var(s.trail[index])).Because? && Var(s.trail[index]) < |s.reasons|
          && Resolving(f, s, met, index, s.trail[index], VarReason(s, Var(s.trail[index])).ref, conflict))
  }

  lemma FinishStep(f: Formula, s: State, x: Scratch, learned: Clause, met: Met, bound: nat, index: nat, conflict: Ref)
    requires SearchOk(s) && Collecting(s, x, learned, met, bound) && Refuted(f, s, Pending(met))
    requires index < bound <= |s.trail| && Var(s.trail[index]) in met.open
    requires forall u :: u in met.open ==> VarPosition(s, u) <= index
    ensures StepDone(f, s, x, learned, met.(open := met.open - {Var(s.trail[index])}), index, conflict)
  {
    NextResolving(f, s, met, bound, index, conflict);
    CloseOne(s, x, learned, met, bound, met.(open := met.open - {Var(s.trail[index])}), index);
    VarTables(s, s.trail[index]);
    TrailEntry(s, index);
  }

  /** The clause of one resolution has been scanned, and the next literal to resolve on found. */
  ghost predicate ScanFound(f: Formula, s: State, x: Scratch, learned: Clause, before: Met, met: Met, bound: nat,
                            uip: Lit, reason: Ref, index: nat) {
    && reason in s.db && Collecting(s, x, learned, met, bound) && Refuted(f, s, Pending(met))
    && MetGrows(before, met) && Scanned(s, s.db[reason].lits, |s.db[reason].lits|, uip, met)
    && MetFrom(before, met, s.db[reason].lits, |s.db[reason].lits|)
    && index < bound <= |s.trail| && Var(s.trail[index]) in met.open
    && forall u :: u in met.open ==> VarPosition(s, u) <= index
  }

  lemma StepFacts(f: Formula, s: State, x: Scratch, learned: Clause, met: Met, index: nat, conflict: Ref)
    requires SearchOk(s) && StepDone(f, s, x, learned, met, index, conflict)
    ensures index < |s.trail| && Position(s, s.trail[index]) == index
    ensures Collecting(s, x, learned, met, index) && UipOrMore(f, s, met, s.trail[index])
    ensures |met.open| != 0 ==>
              && Var(s.trail[index]) < |s.reasons| && s.reasons[Var(s.trail[index])].Because?
              && Resolving(f, s, met, index, s.trail[index], s.reasons[Var(s.trail[index])].ref, conflict)
    ensures |met.open| == 0 ==> met.open == {}
  {
    TrailEntry(s, index);
  }
}
