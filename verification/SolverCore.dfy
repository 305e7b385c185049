/** The search engine: one object whose methods update the assignment, trail, watch lists and clauses in place. */
module SolverCores {
  import opened Logic
  import opened SearchState
  import opened Watching
  import opened Visiting
  import opened Implication
  import opened Analysis
  import opened Causes
  import opened ImplicationPoints
  import opened ProofChain
  import opened Minimization
  import opened Removal
  import opened Antecedents
  import opened Learning
  import opened Answers
  import opened Ranking
  import opened Attaching
  import opened SearchLoop
  import opened Coordination
  import opened ProofLog
  import opened Probing
  import opened Confluence
  import opened Runs
  import opened Stating
  import opened VarHeaps
  import ForwardSubsumers
  import Subsumption

  class SolverCore {
    // The branching heap and the inprocessing pass.
    const heap: VarHeap
    const subsumer: ForwardSubsumers.ForwardSubsumer

    // Clauses and watches.
    var variableCount: nat
    var clauses: Database
    var watches: seq<seq<Watch>>
    var unitRefs: seq<Ref>
    var nextRef: Ref

    // The assignment.
    var values: seq<int>
    var levels: seq<nat>
    var reasons: seq<Reason>
    var positions: seq<nat>
    var trail: seq<Lit>
    var control: seq<Frame>
    var propagated: nat
    var level: nat
    var savedPhase: seq<int>

    // Conflict analysis.
    var flags: seq<Flags>
    var analyzed: seq<nat>
    var minimized: seq<nat>
    var levelsTouched: seq<nat>
    var seenFrames: seq<SeenFrame>
    var learned: seq<Lit>

    var minimizeStack: seq<MinimizeFrame>

    // Proof antecedents, collected only for an active proof consumer, and what it has been told.
    var wantChain: bool
    var proof: Transcript
    var chainStamps: seq<nat>
    var chainStamp: nat
    var resolutionChain: seq<Ref>
    var rootChain: seq<Ref>
    var minimizeChain: seq<Ref>
    ghost var resolutionVars: seq<nat>
    ghost var rootVars: seq<nat>
    ghost var minimizeVars: seq<nat>

    /** The literals assumed for this run, one decision level each. */
    var assumptions: seq<Lit>

    // The antecedents of the latest learned clause, and the assumptions behind the latest refutation.
    var antecedents: seq<Ref>
    var failedCore: seq<Lit>

    // The values of the variables after a satisfiable answer.
    var internalModel: seq<Lit>

    // Stating the formula.
    var maxProblemVariable: nat
    var literalStamps: seq<nat>
    var literalStamp: nat
    var normalized: seq<Lit>

    // Failed-literal probing.
    var probeMarks: seq<bool>
    var marked: seq<Lit>
    var lifted: seq<Lit>
    var probeUnitCount: nat
    var rootRefuted: bool

    /** The clauses the caller stated. */
    ghost var formula: Formula

    // The limits of the run, zero for none, and what is counted against them.
    var limits: Limits
    var counters: Counters

    constructor ()
      ensures Stated() && formula == iset{} && fresh(heap) && fresh(subsumer) && heap.Valid() && LiteralStampsOk()
              && !wantChain
    {
      OkIsWellFormed(0, map[]);
      proof, limits := NOTHING_TOLD, NO_LIMITS;
      flags, analyzed, minimized, levelsTouched, seenFrames, learned := [], [], [], [], [], [];
      minimizeStack := [];
      wantChain, chainStamps, chainStamp := false, [], 0;
      resolutionChain, rootChain, minimizeChain := [], [], [];
      resolutionVars, rootVars, minimizeVars := [], [], [];
      maxProblemVariable, literalStamps, literalStamp, normalized := 0, [], 0, [];
      probeMarks, marked, lifted, probeUnitCount, rootRefuted := [], [], [], 0, false;
      unitRefs, nextRef, assumptions, antecedents, failedCore := [], 0, [], [], [];
      formula, counters, internalModel := iset{}, NOTHING_COUNTED, [];
      heap := new VarHeap();
      subsumer := new ForwardSubsumers.ForwardSubsumer(map[], {}, true);
      variableCount, clauses, watches := 0, map[], [];
      values, levels, reasons, positions := [], [], [], [];
      trail, control, propagated, level, savedPhase := [], [], 0, 0, [];
    }

    ghost function Snap(): State
      reads this`variableCount, this`clauses, this`watches, this`values, this`levels, this`reasons, this`positions
      reads this`trail, this`control, this`propagated, this`level
    {
      State(variableCount, clauses, watches, values, levels, reasons, positions, trail, control, propagated, level)
    }

    lemma SnapIs()
      ensures Snap().n == variableCount && Snap().db == clauses && Snap().watches == watches && Snap().trail == trail
      ensures Snap().level == level && Snap().control == control && Snap().propagated == propagated
      ensures Snap().values == values && Snap().levels == levels && Snap().reasons == reasons
    {
    }

    ghost function Scr(): Scratch
      reads this`flags, this`analyzed, this`minimized, this`levelsTouched, this`seenFrames
    {
      Scratch(flags, analyzed, minimized, levelsTouched, seenFrames)
    }

    /** Every unassigned variable is a branching candidate. */
    ghost predicate HeapCovers()
      reads this`variableCount, this`values, heap
    {
      && heap.Valid() && |heap.score| > variableCount
      && Covered(variableCount, values, heap.Candidates()) && Branchable(variableCount, heap.Candidates())
    }

    // -------------------------------------------------------------------------------------------
    // Stating the formula
    // -------------------------------------------------------------------------------------------

    /** Between runs: the clauses held are equivalent to what was stated. */
    ghost predicate Stated()
      reads this`clauses, this`nextRef, this`formula, this`wantChain, this`proof
    {
      WellFormed(clauses) && Represents(formula, clauses) && RefsBelow(clauses, [], nextRef) && ProofOk()
    }

    /** A proof consumer has been told where every clause held came from. */
    ghost predicate ProofOk()
      reads this`clauses, this`nextRef, this`formula, this`wantChain, this`proof
    {
      wantChain ==> TranscriptOk(formula, proof, clauses, nextRef)
    }

    /** Between runs: ready for further clauses and for the next run; a run is told to stop only by a limit. */
    ghost predicate Settled()
      reads this`clauses, this`nextRef, this`formula, this`wantChain, this`proof
      reads this`limits, this`counters, heap
    {
      Stated() && heap.Valid() && Warranted(limits, counters)
    }

    /** A proof consumer takes over the clauses held, and is told of every clause added from here on. */
    method AttachProofTracer()
      requires Stated()
      modifies this`wantChain, this`proof
      ensures Stated() && wantChain && proof == Adopted(clauses)
    {
      AdoptedOk(formula, clauses, nextRef);
      wantChain, proof := true, Adopted(clauses);
    }

    ghost predicate LiteralStampsOk()
      reads this`literalStamps, this`literalStamp
    {
      literalStamp < STAMP_MODULUS && StampsBelow(literalStamps, literalStamp)
    }

    /** A stamp no literal carries yet; the counter is 32 bits wide and wraps. */
    method NextLiteralStamp()
      requires LiteralStampsOk()
      modifies this`literalStamps, this`literalStamp
      ensures LiteralStampsOk() && literalStamp > 0
      ensures forall l :: 0 <= l < |literalStamps| ==> literalStamps[l] != literalStamp
    {
      literalStamp := (literalStamp + 1) % STAMP_MODULUS;
      if literalStamp == 0 {
        literalStamps := seq(|literalStamps|, _ => 0);
        literalStamp := 1;
      }
    }

    /** Drops repeated literals; refuses a clause with a literal and its negation. */
    method NormalizeClause(lits: Clause) returns (kept: bool)
      requires LiteralStampsOk()
      modifies this`literalStamps, this`literalStamp, this`normalized
      ensures LiteralStampsOk() && (kept <==> !Tautology(lits)) && (kept ==> Normal(normalized, lits))
    {
      hide Tautology, LiteralsStamped, Normal, StampsBelow;
      normalized := [];
      NextLiteralStamp();
      NothingStamped(literalStamps, literalStamp, lits);
      var i := 0;
      while i < |lits|
        invariant 0 <= i <= |lits| && LiteralStampsOk() && literalStamp > 0
        invariant LiteralsStamped(literalStamps, literalStamp, lits, i) && Normal(normalized, lits[..i])
      {
        var slot := lits[i];
        RoomForStamp(slot, lits, i);
        NormalizeStep(literalStamps, literalStamp, lits, i, normalized);
        if literalStamps[Neg(slot)] == literalStamp {
          return false;
        }
        if literalStamps[slot] != literalStamp {
          StampOne(literalStamps, literalStamp, slot);
          literalStamps := literalStamps[slot := literalStamp];
          normalized := normalized + [slot];
        }
        i := i + 1;
      }
      assert lits[..|lits|] == lits;
      NormalIsNoTautology(normalized, lits);
      kept := true;
    }

    /** Makes the stamp table large enough for a literal and its negation. */
    method RoomForStamp(slot: Lit, ghost lits: Clause, ghost k: nat)
      requires LiteralStampsOk() && literalStamp > 0 && k <= |lits|
               && LiteralsStamped(literalStamps, literalStamp, lits, k)
      modifies this`literalStamps
      ensures LiteralStampsOk() && LiteralsStamped(literalStamps, literalStamp, lits, k)
      ensures slot < |literalStamps| && Neg(slot) < |literalStamps|
    {
      hide LiteralsStamped;
      if slot + 1 >= |literalStamps| {
        ghost var before := literalStamps;
        literalStamps := literalStamps + seq(slot + 2 - |literalStamps|, _ => 0);
        assert literalStamps[..|before|] == before;
        StampsGrow(before, literalStamp, lits, k, literalStamps);
      }
    }

    /** States one more clause. */
    method AddProblemClause(lits: Clause)
      requires Stated() && LiteralStampsOk() && forall i :: 0 <= i < |lits| ==> 1 <= Var(lits[i])
      modifies this`clauses, this`nextRef, this`formula, this`maxProblemVariable, this`proof
      modifies this`literalStamps, this`literalStamp, this`normalized
      ensures Stated() && LiteralStampsOk() && formula == old(formula) + iset{lits}
      ensures Tautology(lits) ==> clauses == old(clauses) && proof == old(proof)
      ensures !Tautology(lits) ==>
                clauses == old(clauses)[old(nextRef) := Entry(normalized, false)] && Normal(normalized, lits)
    {
      hide Tautology, Normal, Represents, StampsBelow, WellFormed, TranscriptOk;
      maxProblemVariable := LargestVariable(lits, maxProblemVariable);
      var kept := NormalizeClause(lits);
      if kept {
        StateClause(lits);
      } else {
        StateTautology(formula, clauses, lits);
        TautologyStates(formula, lits);
        if wantChain {
          StatedAlready(formula, formula + iset{lits}, proof, clauses, nextRef);
        }
        formula := formula + iset{lits};
      }
    }

    /** Stores a normalized clause and tells the proof consumer of it. */
    method StateClause(ghost lits: Clause)
      requires Stated() && Normal(normalized, lits)
               && forall k :: 0 <= k < |lits| ==> ValidLit(maxProblemVariable, lits[k])
      modifies this`clauses, this`nextRef, this`formula, this`proof
      ensures Stated() && formula == old(formula) + iset{lits}
      ensures clauses == old(clauses)[old(nextRef) := Entry(normalized, false)]
    {
      hide Normal, Represents, DatabaseOk, TranscriptOk, WellFormed;
      NextRef(clauses, [], nextRef, Entry(normalized, false));
      NormalIsOk(maxProblemVariable, normalized, lits);
      StateOneMore(formula, clauses, nextRef, normalized, lits);
      StillWellFormed(maxProblemVariable, clauses, nextRef, normalized, false);
      RefsBelowAgain(clauses[nextRef := Entry(normalized, false)], UnitsWith([], normalized, nextRef), nextRef + 1);
      if wantChain {
        NormalStates(formula, normalized, lits);
        StatementOk(formula, formula + iset{lits}, proof, clauses, nextRef, normalized);
        proof := TellStatement(proof, nextRef, normalized);
      }
      formula := formula + iset{lits};
      clauses := clauses[nextRef := Entry(normalized, false)];
      nextRef := nextRef + 1;
    }

    // -------------------------------------------------------------------------------------------
    // Search state primitives
    // -------------------------------------------------------------------------------------------

    method Assign(lit: Lit, reason: Reason)
      requires lit < |values| && Neg(lit) < |values|
      requires Var(lit) < |levels| && Var(lit) < |reasons| && Var(lit) < |positions|
      requires |savedPhase| == |levels|
      modifies this`values, this`levels, this`reasons, this`positions, this`savedPhase, this`trail
      ensures Snap() == AssignStep(old(Snap()), lit, reason)
      ensures savedPhase == old(savedPhase)[Var(lit) := if IsNegated(lit) then -1 else 1]
      ensures |savedPhase| == |levels| == old(|levels|)
    {
      var v := Var(lit);
      values := values[lit := 1];
      values := values[Neg(lit) := -1];
      levels := levels[v := level];
      reasons := reasons[v := reason];
      positions := positions[v := |trail|];
      savedPhase := savedPhase[v := if IsNegated(lit) then -1 else 1];
      trail := trail + [lit];
    }

    method NewLevel(decision: Lit)
      modifies this`level, this`control, this`seenFrames
      ensures Snap() == NewLevelStep(old(Snap()), decision)
      ensures seenFrames == old(seenFrames) + [NO_SEEN]
    {
      level := level + 1;
      control := control + [Frame(|trail|, decision)];
      seenFrames := seenFrames + [NO_SEEN];
    }

    /** Clears one literal and makes its variable a candidate again. */
    method Unassign(lit: Lit)
      requires lit < |values| && Neg(lit) < |values| && 1 <= Var(lit) <= variableCount && HeapCovers()
      modifies this`values, heap`heap, heap`position
      ensures values == old(values)[lit := 0][Neg(lit) := 0] && HeapCovers()
    {
      hide Covered, Support;
      var v := Var(lit);
      ghost var before, candidates := values, heap.Candidates();
      values := values[lit := 0];
      values := values[Neg(lit) := 0];
      if !heap.Contains(v) {
        heap.Push(v);
      }
      UnassignedCovered(variableCount, before, lit, candidates, heap.Candidates());
    }

    /** Clears the trail literals from position `begin` on, last one first. */
    method UnassignFrom(begin: nat)
      requires begin <= |trail| && HeapCovers() && TrailInBounds(trail, variableCount, |values|)
      modifies this`values, heap`heap, heap`position
      ensures values == Undone(old(values), trail, begin, |trail|) && HeapCovers()
    {
      hide Covered, Undone, Support, Tables, OrderedAbove;
      var index := |trail|;
      UndoneNothing(values, trail);
      while index > begin
        invariant begin <= index <= |trail|
        invariant values == Undone(old(values), trail, index, |trail|)
        invariant HeapCovers()
        decreases index
      {
        index := index - 1;
        UndoneStep(old(values), trail, index);
        Unassign(trail[index]);
      }
    }

    /** Undoes every assignment above the target level and makes its variables candidates again. */
    method Backtrack(target: nat)
      requires SearchOk(Snap()) && HeapCovers() && |seenFrames| == |control|
      modifies this`values, this`trail, this`propagated, this`control, this`level, this`seenFrames, heap`heap,
               heap`position
      ensures HeapCovers()
      ensures Scr() == if target >= old(level) then old(Scr()) else CutFrames(old(Scr()), target)
      ensures target >= old(level) ==> Snap() == old(Snap())
      ensures target < old(level) ==>
                target + 1 < |old(control)| && old(control)[target + 1].trailBegin <= |old(trail)|
                && Snap() == BacktrackStep(old(Snap()), target)
    {
      hide Covered, Undone, BacktrackStep, SearchOk, Support, Tables, OrderedAbove, TrailInBounds;
      if target >= level {
        return;
      }
      BacktrackTables(Snap(), target);
      SearchBounds(Snap());
      BacktrackIs(Snap(), target);
      var begin := control[target + 1].trailBegin;
      UnassignFrom(begin);
      CutTrail(begin, target);
    }

    /** Shortens the trail, its queue and the level frames. */
    method CutTrail(begin: nat, target: nat)
      requires begin <= |trail| && target + 1 <= |control| == |seenFrames|
      modifies this`trail, this`propagated, this`control, this`level, this`seenFrames
      ensures trail == old(trail)[..begin] && propagated == (if old(propagated) > begin then begin else old(propagated))
      ensures control == old(control)[..target + 1] && seenFrames == old(seenFrames)[..target + 1] && level == target
    {
      trail := trail[..begin];
      if propagated > begin {
        propagated := begin;
      }
      control := control[..target + 1];
      seenFrames := seenFrames[..target + 1];
      level := target;
    }

    // -------------------------------------------------------------------------------------------
    // Unit propagation
    // -------------------------------------------------------------------------------------------

    /** Replaces one watch entry. */
    method WriteEntry(f: Lit, at: nat, e: Watch)
      requires f < |watches| && at < |watches[f]|
      modifies this`watches
      ensures watches == old(watches)[f := old(watches)[f][at := e]]
    {
      watches := watches[f := watches[f][at := e]];
    }

    /** Visits one entry of a long clause whose blocking literal is not true. */
    method VisitLong(f: Lit, write: nat, read: nat) returns (next: nat, conflict: Reason)
      requires Ready(Snap(), f, write, read) && read < |watches[f]| && |savedPhase| == |levels|
      requires !watches[f][read].binary
      modifies this`clauses, this`watches
      modifies this`values, this`levels, this`reasons, this`positions, this`savedPhase, this`trail
      ensures Visited(Snap(), f, next, read + 1, conflict) && Progress(old(Snap()), Snap())
      ensures |watches[f]| == old(|watches[f]|) && |savedPhase| == |levels|
    {
      hide Ready, Blocked, Progress, AssignStep, Scanning;
      ghost var s := Snap();
      ReadyEntry(s, f, write, read);
      var ref := watches[f][read].ref;
      var lits := clauses[ref].lits;
      var other := Xor(Xor(lits[0], lits[1]), f);
      OtherOf(lits, f);
      assert other in lits;
      var otherValue := values[other];
      if otherValue > 0 {
        VisitTrueOther(s, f, write, read, other);
        WriteEntry(f, write, Watch(other, ref, false));
        return write + 1, NoReason;
      }
      var candidate := FirstNotFalse(lits);
      if candidate != |lits| {
        VisitMove(s, f, write, read, other, candidate);
        var replacement := lits[candidate];
        clauses := clauses[ref := clauses[ref].(lits := lits[0 := other][1 := replacement][candidate := f])];
        watches := watches[replacement := watches[replacement] + [Watch(other, ref, false)]];
        return write, NoReason;
      }
      if otherValue < 0 {
        VisitConflict(s, f, write, read, other);
        WriteEntry(f, write, Watch(other, ref, false));
        return write + 1, Because(ref);
      }
      ForceOther(f, write, read, other, ref);
      return write + 1, NoReason;
    }

    /** Every literal of a long clause but one watch is false: puts the watched pair first and assigns. */
    method ForceOther(f: Lit, write: nat, read: nat, other: Lit, ref: Ref)
      requires Ready(Snap(), f, write, read) && read < |watches[f]| && |savedPhase| == |levels|
      requires !watches[f][read].binary && watches[f][read].ref == ref && ref in clauses
      requires WatchedPair(clauses[ref].lits, f, other) && Value(Snap(), other) == 0
      requires forall m :: m in clauses[ref].lits && m != other ==> Value(Snap(), m) == -1
      modifies this`clauses, this`watches
      modifies this`values, this`levels, this`reasons, this`positions, this`savedPhase, this`trail
      ensures Ready(Snap(), f, write + 1, read + 1) && Progress(old(Snap()), Snap())
      ensures |watches[f]| == old(|watches[f]|) && |savedPhase| == |levels|
    {
      hide Progress, AssignStep, Scanning;
      VisitUnit(Snap(), f, write, read, other, ref);
      WriteEntry(f, write, Watch(other, ref, false));
      clauses := clauses[ref := clauses[ref].(lits := clauses[ref].lits[0 := other][1 := f])];
      Assign(other, Because(ref));
    }

    /** The first unwatched literal that is not false, or the size of the clause. */
    method FirstNotFalse(lits: Clause) returns (at: nat)
      requires |lits| >= 2 && forall i :: 0 <= i < |lits| ==> lits[i] < |values|
      ensures 2 <= at <= |lits|
      ensures forall i :: 2 <= i < at ==> values[lits[i]] < 0
      ensures at < |lits| ==> values[lits[at]] >= 0
    {
      at := 2;
      while at != |lits| && values[lits[at]] < 0
        invariant 2 <= at <= |lits|
        invariant forall i :: 2 <= i < at ==> values[lits[i]] < 0
      {
        at := at + 1;
      }
    }

    /** Visits one entry of the list of a literal that has just become false. */
    method VisitEntry(f: Lit, write: nat, read: nat) returns (next: nat, conflict: Reason)
      requires Ready(Snap(), f, write, read) && read < |watches[f]| && |savedPhase| == |levels|
      modifies this`clauses, this`watches
      modifies this`values, this`levels, this`reasons, this`positions, this`savedPhase, this`trail
      ensures Visited(Snap(), f, next, read + 1, conflict) && Progress(old(Snap()), Snap())
      ensures |watches[f]| == old(|watches[f]|) && |savedPhase| == |levels|
    {
      hide Ready, Blocked, Progress, AssignStep, Scanning;
      ghost var s := Snap();
      ReadyEntry(s, f, write, read);
      var entry := watches[f][read];
      var blocking := entry.blocking;
      var blockingValue := values[blocking];
      if blockingValue > 0 {
        VisitKeep(s, f, write, read);
        WriteEntry(f, write, entry);
        return write + 1, NoReason;
      }
      if entry.binary {
        if blockingValue < 0 {
          VisitBinaryConflict(s, f, write, read);
          WriteEntry(f, write, entry);
          return write + 1, Because(entry.ref);
        }
        VisitBinaryUnit(s, f, write, read);
        WriteEntry(f, write, entry);
        Assign(blocking, Because(entry.ref));
        return write + 1, NoReason;
      }
      next, conflict := VisitLong(f, write, read);
    }

    /** Scans and compacts, in place, the watch list of the literal falsified by the last literal taken off the
        queue. */
    method ScanList(f: Lit) returns (conflict: Reason)
      requires f < |watches| && Ready(Snap(), f, 0, 0) && |savedPhase| == |levels|
      modifies this`clauses, this`watches
      modifies this`values, this`levels, this`reasons, this`positions, this`savedPhase, this`trail
      ensures Progress(old(Snap()), Snap()) && |savedPhase| == |levels|
      ensures SearchOk(Snap()) && WatchesOk(clauses, watches)
      ensures conflict.NoReason? ==> WatchInvariant(Snap())
      ensures conflict.Because? ==> ConflictFound(Snap(), conflict.ref)
    {
      hide Blocked, Progress, Scanning, SearchOk, WatchesOk, SoundBelow, Falsified, Begin;
      var write: nat, read: nat := 0, 0;
      conflict := NoReason;
      SameStateProgress(Snap(), Snap());
      var count := |watches[f]|;
      while read != count && conflict.NoReason?
        invariant write <= read <= count && f < |watches| && |watches[f]| == count && |savedPhase| == |levels|
        invariant Visited(Snap(), f, write, read, conflict) && Progress(old(Snap()), Snap())
        decreases count - read
      {
        ghost var before := Snap();
        write, conflict := VisitEntry(f, write, read);
        VisitedBounds(Snap(), f, write, read + 1, conflict);
        ProgressTransitive(old(Snap()), before, Snap());
        read := read + 1;
      }
      ghost var scanned := Snap();
      if conflict.Because? {
        BlockedDone(scanned, f, write, read, conflict.ref);
      } else {
        ReadyDone(scanned, f, write, read);
      }
      CompactTail(f, write, read);
      ProgressTransitive(old(Snap()), scanned, Snap());
    }

    /** Moves the unread entries down to the write cursor and cuts the list off behind them. */
    method CompactTail(f: Lit, write: nat, read: nat)
      requires f < |watches| && write <= read <= |watches[f]|
      modifies this`watches
      ensures watches == old(watches)[f := old(watches)[f][..write] + old(watches)[f][read..]]
    {
      ghost var list := watches[f];
      var w, r := write, read;
      while r != |watches[f]|
        invariant f < |watches| == old(|watches|) && |watches[f]| == |list|
        invariant write <= w <= r <= |list| && r - w == read - write
        invariant watches == old(watches)[f := watches[f]]
        invariant watches[f][..w] == list[..write] + list[read..r]
        invariant watches[f][r..] == list[r..]
        decreases |list| - r
      {
        MovedDown(list, watches[f], w, r);
        assert list[read..r + 1] == list[read..r] + [list[r]];
        watches := watches[f := watches[f][w := watches[f][r]]];
        w, r := w + 1, r + 1;
      }
      assert list[read..|list|] == list[read..];
      watches := watches[f := watches[f][..w]];
    }

    /** Propagates every queued literal, or stops at the first clause it falsifies. */
    method Propagate() returns (conflict: Reason)
      requires SearchOk(Snap()) && WatchInvariant(Snap()) && |savedPhase| == |levels|
      modifies this`clauses, this`watches, this`propagated
      modifies this`values, this`levels, this`reasons, this`positions, this`savedPhase, this`trail
      ensures Progress(old(Snap()), Snap()) && |savedPhase| == |levels|
      ensures SearchOk(Snap()) && WatchesOk(clauses, watches)
      ensures conflict.NoReason? ==> WatchInvariant(Snap()) && propagated == |trail|
      ensures conflict.Because? ==> ConflictFound(Snap(), conflict.ref)
      ensures old(propagated == |trail|) ==> Snap() == old(Snap()) && conflict.NoReason?
    {
      hide Progress, SearchOk, WatchesOk, SoundBelow, ConflictFound, Ready;
      conflict := NoReason;
      SameStateProgress(Snap(), Snap());
      QueueBound(Snap());
      while propagated < |trail|
        invariant SearchOk(Snap()) && WatchInvariant(Snap()) && |savedPhase| == |levels|
        invariant Progress(old(Snap()), Snap()) && conflict == NoReason
        invariant propagated <= |trail| && variableCount == old(variableCount)
        invariant old(propagated == |trail|) ==> Snap() == old(Snap())
        decreases variableCount - propagated
      {
        ghost var before := Snap();
        TakeFromQueue(before);
        var lit := trail[propagated];
        propagated := propagated + 1;
        var notLit := Neg(lit);
        conflict := ScanList(notLit);
        TakenProgress(old(Snap()), before, Snap());
        QueueBound(Snap());
        if conflict.Because? {
          break;
        }
      }
    }

    // -------------------------------------------------------------------------------------------
    // Conflict analysis
    // -------------------------------------------------------------------------------------------

    ghost function Chn(): Chains
      reads this`chainStamps, this`chainStamp, this`rootChain, this`rootVars, this`minimizeChain, this`minimizeVars
      reads this`resolutionChain, this`resolutionVars
    {
      Chains(chainStamps, chainStamp, rootChain, rootVars, minimizeChain, minimizeVars, resolutionChain, resolutionVars)
    }

    lemma ChnIs()
      ensures Chn().stamps == chainStamps && Chn().stamp == chainStamp
    {
    }

    /** Lists the reasons behind a root variable, each after the reasons it rests on. */
    method CollectRootChain(v: nat, ghost busy: set<nat>, ghost about: set<Ref>)
      requires SearchOk(Snap()) && RootChained(Snap(), Chn(), busy)
      requires RootsNeeded(Snap(), Chn(), about) && Wanted(Snap(), about + Members(resolutionChain), v)
      requires VarAssigned(Snap(), v) && VarLevel(Snap(), v) == 0
      requires forall b :: b in busy ==> VarLevel(Snap(), b) > 0 || VarPosition(Snap(), b) > VarPosition(Snap(), v)
      modifies this`chainStamps, this`rootChain, this`rootVars
      ensures RootChained(Snap(), Chn(), busy) && v in rootVars && More(old(rootVars), rootVars)
      ensures RootsNeeded(Snap(), Chn(), about)
      ensures chainStamp == old(chainStamp) && |chainStamps| == old(|chainStamps|)
      decreases VarPosition(Snap(), v), 1
    {
      hide SearchOk, RootChain, StampsAre, Wanted, AllNeeded;
      ghost var s := Snap();
      RootReason(s, v);
      if chainStamps[v] == chainStamp {
        StampedIsListed(s, Chn(), busy, v);
        return;
      }
      OpenRoot(s, Chn(), busy, v);
      chainStamps := chainStamps[v := chainStamp];
      var reason := reasons[v];
      if reason.NoReason? {
        return;
      }
      RootsAwait(s, Chn(), about, about + {reason.ref});
      CollectBehind(v, reason.ref, busy + {v}, about + {reason.ref});
      CloseRoot(s, Chn(), busy, v, reason.ref);
      RootListed(s, Chn(), about, v, reason.ref);
      rootChain := rootChain + [reason.ref];
      rootVars := rootVars + [v];
    }

    /** Lists what the other literals of a root variable's reason rest on. */
    method CollectBehind(v: nat, r: Ref, ghost busy: set<nat>, ghost about: set<Ref>)
      requires SearchOk(Snap()) && RootChained(Snap(), Chn(), busy) && RootsNeeded(Snap(), Chn(), about) && r in about
      requires VarAssigned(Snap(), v) && VarLevel(Snap(), v) == 0 && VarReason(Snap(), v) == Because(r)
      requires forall b :: b in busy ==> VarLevel(Snap(), b) > 0 || VarPosition(Snap(), b) >= VarPosition(Snap(), v)
      modifies this`chainStamps, this`rootChain, this`rootVars
      ensures RootChained(Snap(), Chn(), busy) && RootsNeeded(Snap(), Chn(), about)
      ensures r in clauses && forall m :: m in clauses[r].lits && Var(m) != v ==> Var(m) in rootVars
      ensures More(old(rootVars), rootVars)
      ensures chainStamp == old(chainStamp) && |chainStamps| == old(|chainStamps|)
      decreases VarPosition(Snap(), v), 0
    {
      hide SearchOk, RootChained, Wanted, RootsNeeded;
      ghost var s := Snap();
      RootReason(s, v);
      var lits := clauses[r].lits;
      var i := 0;
      while i < |lits|
        invariant 0 <= i <= |lits| && Snap() == s && RootChained(s, Chn(), busy) && RootsNeeded(s, Chn(), about)
        invariant forall j :: 0 <= j < i && Var(lits[j]) != v ==> Var(lits[j]) in rootVars
        invariant More(old(rootVars), rootVars)
        invariant chainStamp == old(chainStamp) && |chainStamps| == old(|chainStamps|)
      {
        if Var(lits[i]) != v {
          assert lits[i] in lits;
          OthersWanted(s, about, r, lits[i], Members(resolutionChain));
          CollectRootChain(Var(lits[i]), busy, about);
        }
        i := i + 1;
      }
    }

    /** Marks a variable as seen and counts it at its level. */
    method MarkVariable(v: nat, lvl: nat)
      requires v < |flags| && v < |positions| && lvl < |seenFrames|
      modifies this`flags, this`analyzed, this`seenFrames, this`levelsTouched
      ensures Scr() == MarkSeen(old(Scr()), v, lvl, positions[v])
    {
      flags := flags[v := flags[v].(seen := true)];
      analyzed := analyzed + [v];
      var frame := seenFrames[lvl];
      if frame.count == 0 {
        levelsTouched := levelsTouched + [lvl];
      }
      seenFrames := seenFrames[lvl := Recount(frame, positions[v])];
    }

    /** Meets a false literal above the root for the first time: a literal of the current level is counted,
        one of a lower level is collected. */
    method MeetLiteral(lit: Lit, open: nat, ghost met: Met, ghost bound: nat) returns (nowOpen: nat, ghost after: Met)
      requires SearchOk(Snap()) && Collecting(Snap(), Scr(), learned, met, bound) && open == |met.open|
      requires Value(Snap(), lit) == -1 && (Level(Snap(), lit) == level ==> Position(Snap(), lit) < bound)
      requires Level(Snap(), lit) > 0 && Var(lit) < |flags| && !flags[Var(lit)].seen
      modifies this`flags, this`analyzed, this`seenFrames, this`levelsTouched, this`learned
      ensures Collecting(Snap(), Scr(), learned, after, bound) && nowOpen == |after.open|
      ensures after == Meet(met, Var(lit), Level(Snap(), lit) < level)
      ensures MetGrows(met, after) && MetOnly(met, after, Var(lit))
      ensures Var(lit) in after.low || Var(lit) in after.current
    {
      hide SearchOk, Collecting, MarkSeen, Value, Level, Position;
      MeetTables(Snap(), Scr(), learned, met, bound, lit);
      MeetKeeps(Snap(), Scr(), learned, met, bound, lit);
      var v := Var(lit);
      var lvl := levels[v];
      after := Meet(met, v, lvl < level);
      MarkVariable(v, lvl);
      nowOpen := open;
      if lvl < level {
        learned := learned + [lit];
      } else {
        nowOpen := open + 1;
      }
    }

    /** What the tables say of a false literal. */
    lemma LookUp(lit: Lit, met: Met, bound: nat)
      requires SearchOk(Snap()) && Collecting(Snap(), Scr(), learned, met, bound) && Value(Snap(), lit) == -1
      ensures Var(lit) < |levels| && Var(lit) < |flags| && VarAssigned(Snap(), Var(lit)) && level == Snap().level
      ensures levels[Var(lit)] == Level(Snap(), lit) == VarLevel(Snap(), Var(lit))
      ensures flags[Var(lit)].seen ==> Var(lit) in met.low || Var(lit) in met.current
    {
      MeetTables(Snap(), Scr(), learned, met, bound, lit);
    }

    /** Meets one false literal, unless it is at the root or has been met. */
    method AnalyzeLiteral(lit: Lit, open: nat, ghost met: Met, ghost bound: nat, ghost from: Ref)
        returns (nowOpen: nat, ghost after: Met)
      requires SearchOk(Snap()) && Collecting(Snap(), Scr(), learned, met, bound) && open == |met.open|
      requires Value(Snap(), lit) == -1 && (Level(Snap(), lit) == level ==> Position(Snap(), lit) < bound)
      requires wantChain ==> RootChained(Snap(), Chn(), {}) && RootsNeeded(Snap(), Chn(), {from})
      requires Occurs(Snap().db, from, Var(lit))
      modifies this`flags, this`analyzed, this`seenFrames, this`levelsTouched, this`learned
      modifies this`chainStamps, this`rootChain, this`rootVars
      ensures Collecting(Snap(), Scr(), learned, after, bound) && nowOpen == |after.open|
      ensures MetGrows(met, after) && MetOnly(met, after, Var(lit))
      ensures Level(Snap(), lit) == 0 || Var(lit) in after.low || Var(lit) in after.current
      ensures wantChain ==> RootChained(Snap(), Chn(), {}) && RootsNeeded(Snap(), Chn(), {from})
      ensures More(old(rootVars), rootVars)
      ensures wantChain && VarLevel(Snap(), Var(lit)) == 0 ==> Var(lit) in rootVars
      ensures !wantChain ==> chainStamps == old(chainStamps)
    {
      hide SearchOk, Collecting, RootChained, Value, Level, Position, VarLevel, VarAssigned, VarPosition, Snap, Scr,
           Chn;
      hide MetGrows, MetOnly, Meet, More, RootsNeeded, Occurs;
      LookUp(lit, met, bound);
      NothingMore(met, rootVars);
      MetOnlyItself(met, Var(lit));
      nowOpen, after := open, met;
      var v := Var(lit);
      if levels[v] == 0 {
        if wantChain {
          OccurringIsWanted(Snap(), from, v, Members(resolutionChain));
          CollectRootChain(v, {}, {from});
        }
      } else if !flags[v].seen {
        nowOpen, after := MeetLiteral(lit, open, met, bound);
      }
    }

    /** Meets every literal of a clause but the one being resolved on. */
    method AnalyzeClause(ref: Ref, uip: Lit, open: nat, ghost met: Met, ghost bound: nat)
      returns (nowOpen: nat, ghost after: Met)
      requires SearchOk(Snap()) && Collecting(Snap(), Scr(), learned, met, bound) && open == |met.open|
      requires ref in clauses && level > 0
      requires FalseBut(Snap(), clauses[ref].lits, uip, bound)
      requires wantChain ==> RootChained(Snap(), Chn(), {}) && RootsNeeded(Snap(), Chn(), {ref})
      modifies this`flags, this`analyzed, this`seenFrames, this`levelsTouched, this`learned
      modifies this`chainStamps, this`rootChain, this`rootVars
      ensures Collecting(Snap(), Scr(), learned, after, bound) && nowOpen == |after.open|
      ensures MetGrows(met, after) && MetFrom(met, after, clauses[ref].lits, |clauses[ref].lits|)
      ensures Scanned(Snap(), clauses[ref].lits, |clauses[ref].lits|, uip, after)
      ensures wantChain ==> RootChained(Snap(), Chn(), {}) && RootsNeeded(Snap(), Chn(), {ref})
      ensures wantChain ==> RootsListed(Snap(), clauses[ref].lits, |clauses[ref].lits|, uip, rootVars)
      ensures More(old(rootVars), rootVars)
      ensures !wantChain ==> chainStamps == old(chainStamps)
    {
      hide SearchOk, Collecting, RootChained, Scanned, RootsListed, Value, Level, Position, VarLevel, FalseBut, Snap,
           Scr, Chn, RootsNeeded, MetFrom, MetOnly, MetGrows, More, Occurs;
      SnapIs();
      var lits := clauses[ref].lits;
      nowOpen, after := open, met;
      ScannedNothing(Snap(), lits, uip, met);
      NoRootsListed(Snap(), lits, uip, rootVars);
      NothingMore(met, rootVars);
      var i := 0;
      while i < |lits|
        invariant !wantChain ==> chainStamps == old(chainStamps)
        invariant 0 <= i <= |lits| && Snap() == old(Snap()) && wantChain == old(wantChain)
        invariant Collecting(Snap(), Scr(), learned, after, bound) && nowOpen == |after.open|
        invariant MetGrows(met, after) && Scanned(Snap(), lits, i, uip, after) && MetFrom(met, after, lits, i)
        invariant wantChain ==> RootChained(Snap(), Chn(), {}) && RootsNeeded(Snap(), Chn(), {ref})
        invariant wantChain ==> RootsListed(Snap(), lits, i, uip, rootVars)
        invariant More(old(rootVars), rootVars)
      {
        ghost var before, beforeVars := after, rootVars;
        NothingMore(before, beforeVars);
        if lits[i] != uip {
          FalseButAt(Snap(), lits, uip, bound, i);
          LiteralOccurs(Snap(), ref, i);
          nowOpen, after := AnalyzeLiteral(lits[i], nowOpen, after, bound, ref);
        }
        MetOnlyItself(before, Var(lits[i]));
        GrowsOn(met, before, after, old(rootVars), beforeVars, rootVars);
        MetFromMore(met, before, after, lits, i);
        ScannedMore(Snap(), lits, i, uip, before, after);
        if wantChain {
          RootsListedMore(Snap(), lits, i, uip, beforeVars, rootVars);
        }
        i := i + 1;
      }
    }

    /** Walks the trail back to the latest open variable of the current level. */
    method FindOpen(bound: nat, ghost met: Met) returns (index: nat)
      requires SearchOk(Snap()) && Collecting(Snap(), Scr(), learned, met, bound)
      requires bound <= |trail| && met.open != {}
      ensures index < bound && Var(trail[index]) in met.open
      ensures forall u :: u in met.open ==> VarPosition(Snap(), u) <= index
    {
      hide SearchOk, Collecting, VarPosition;
      OpenBelow(Snap(), Scr(), learned, met, bound);
      index := bound;
      while true
        invariant 0 < index <= bound
        invariant forall u :: u in met.open ==> VarPosition(Snap(), u) < index
        decreases index
      {
        index := index - 1;
        SeenAndCurrent(Snap(), Scr(), learned, met, bound, index);
        var candidate := trail[index];
        var v := Var(candidate);
        if flags[v].seen && levels[v] == level {
          return;
        }
        OpenElsewhere(Snap(), met, index);
      }
    }

    /** Scans the clause to resolve with and walks the trail back to the next literal to resolve on. */
    method ScanAndFind(bound: nat, uip: Lit, reason: Ref, open: nat, ghost met: Met, ghost conflict: Ref)
      returns (index: nat, nowOpen: nat, ghost scanned: Met)
      requires SearchOk(Snap()) && DatabaseEntailed(formula, clauses) && level > 0
      requires Resolving(formula, Snap(), met, bound, uip, reason, conflict)
      requires Collecting(Snap(), Scr(), learned, met, bound) && open == |met.open|
      requires Chaining(wantChain, Snap(), Chn(), met, uip)
      modifies this`flags, this`analyzed, this`seenFrames, this`levelsTouched, this`learned
      modifies this`chainStamps, this`rootChain, this`rootVars
      ensures nowOpen == |scanned.open|
      ensures ScanFound(formula, Snap(), Scr(), learned, met, scanned, bound, uip, reason, index)
      ensures ChainScan(wantChain, Snap(), old(Chn()), Chn(), uip, reason)
      ensures !wantChain ==> chainStamps == old(chainStamps)
    {
      hide SearchOk, DatabaseEntailed, Collecting, Resolving, RootChained, ChainHead, MetOk, Scanned, RootsListed,
           Refuted, FalseBut, MetGrows, MetFrom, More, VarPosition, Snap, Scr, RootsNeeded;
      SnapIs();
      ghost var s := Snap();
      ResolvingClause(formula, s, met, bound, uip, reason, conflict);
      if wantChain {
        RootsAwait(s, Chn(), {}, {reason});
      }
      nowOpen, scanned := AnalyzeClause(reason, uip, open, met, bound);
      ScanRefutes(formula, s, Scr(), learned, met, scanned, bound, uip, reason, conflict);
      index := FindOpen(bound, scanned);
    }

    /** One resolution: afterwards the literal found comes next, or is the only one of its level left. */
    method ResolveStep(bound: nat, uip: Lit, reason: Ref, open: nat, ghost met: Met, ghost conflict: Ref)
      returns (index: nat, stillOpen: nat, ghost after: Met)
      requires SearchOk(Snap()) && DatabaseEntailed(formula, clauses) && level > 0
      requires Resolving(formula, Snap(), met, bound, uip, reason, conflict)
      requires Collecting(Snap(), Scr(), learned, met, bound) && open == |met.open|
      requires Chaining(wantChain, Snap(), Chn(), met, uip) && Tracing(Snap(), conflict, met, bound, uip)
      modifies this`flags, this`analyzed, this`seenFrames, this`levelsTouched, this`learned
      modifies this`chainStamps, this`rootChain, this`rootVars, this`resolutionChain, this`resolutionVars
      ensures index < bound && stillOpen == |after.open|
      ensures Tracing(Snap(), conflict, after, index, trail[index])
      ensures StepDone(formula, Snap(), Scr(), learned, after, index, conflict)
      ensures Chaining(wantChain, Snap(), Chn(), after, trail[index])
      ensures !wantChain ==> chainStamps == old(chainStamps)
    {
      hide SearchOk, DatabaseEntailed, Collecting, Resolving, Chaining, StepDone, ScanFound, ChainScan, Tracing, MetOk;
      var nowOpen: nat;
      ghost var scanned: Met;
      CollectingMet(Snap(), Scr(), learned, met, bound);
      index, nowOpen, scanned := ScanAndFind(bound, uip, reason, open, met, conflict);
      StepRecorded(wantChain, formula, Snap(), Scr(), learned, old(Chn()), Chn(), met, scanned, bound, uip, reason,
                   conflict, index);
      StepTraced(formula, Snap(), Scr(), learned, conflict, met, scanned, bound, uip, reason, index);
      after := scanned.(open := scanned.open - {Var(trail[index])});
      stillOpen := nowOpen - 1;
      if wantChain {
        resolutionVars := ResolvedOn(resolutionVars, uip);
        resolutionChain := resolutionChain + [reason];
      }
    }

    /** Resolves backwards along the trail until one variable of the current level is left. */
    method DeriveUip(conflict: Ref) returns (uip: Lit, ghost met: Met)
      requires SearchOk(Snap()) && DatabaseEntailed(formula, clauses) && level > 0
      requires Resolving(formula, Snap(), Met({}, {}, {}), |trail|, NO_LITERAL, conflict, conflict)
      requires Collecting(Snap(), Scr(), learned, Met({}, {}, {}), |trail|)
      requires Chaining(wantChain, Snap(), Chn(), Met({}, {}, {}), NO_LITERAL)
      modifies this`flags, this`analyzed, this`seenFrames, this`levelsTouched, this`learned
      modifies this`chainStamps, this`rootChain, this`rootVars, this`resolutionChain, this`resolutionVars
      ensures Collecting(Snap(), Scr(), learned, met, Position(Snap(), uip)) && met.open == {}
      ensures UipFound(formula, Snap(), met, uip) && PointFound(Snap(), conflict, Position(Snap(), uip), met)
      ensures Chaining(wantChain, Snap(), Chn(), met, uip)
      ensures !wantChain ==> chainStamps == old(chainStamps)
    {
      hide SearchOk, DatabaseEntailed, Collecting, Resolving, Refuted, StepDone, UipOrMore, UipFound, Chaining, Tracing,
           PointFound, MetOk, Snap, Scr, Chn;
      SnapIs();
      ghost var s := Snap();
      ConflictHeld(formula, s, conflict);
      StartTracing(s, conflict);
      var open := 0;
      var index: nat := |trail|;
      uip, met := NO_LITERAL, Met({}, {}, {});
      var reason := conflict;
      while true
        invariant !wantChain ==> chainStamps == old(chainStamps)
        invariant Snap() == s && wantChain == old(wantChain) && formula == old(formula)
        invariant Collecting(s, Scr(), learned, met, index) && open == |met.open|
        invariant Resolving(formula, s, met, index, uip, reason, conflict)
        invariant Chaining(wantChain, s, Chn(), met, uip) && Tracing(s, conflict, met, index, uip)
        decreases index
      {
        index, open, met := ResolveStep(index, uip, reason, open, met, conflict);
        StepFacts(formula, s, Scr(), learned, met, index, conflict);
        uip := trail[index];
        if open == 0 {
          NoneOpen(formula, s, met, uip);
          PointIsFound(formula, s, Scr(), learned, conflict, met, index);
          break;
        }
        reason := reasons[Var(uip)].ref;
      }
    }

    // -------------------------------------------------------------------------------------------
    // Minimization
    // -------------------------------------------------------------------------------------------

    /** The checks a visit makes before it expands a variable, `depth` frames deep. */
    method JudgeVariable(v: nat, depth: nat) returns (verdict: Verdict)
      requires Sized(Snap()) && VarAssigned(Snap(), v) && VarLevel(Snap(), v) <= level
      requires VarReason(Snap(), v).Because? ==> VarReason(Snap(), v).ref in clauses
      requires |flags| == variableCount + 1 && |seenFrames| == level + 1
      ensures v < |flags| && (verdict == Spared <==> Excused(Snap(), flags, v))
      ensures verdict == Expand ==> Expandable(Snap(), flags, v) && !flags[v].poison && depth <= MINIMIZE_DEPTH_LIMIT
      ensures verdict == Expand ==> Eligible(Snap(), seenFrames, v)
      ensures verdict == Blocking ==>
                || !Eligible(Snap(), seenFrames, v) || flags[v].poison
                || (depth == 0 && seenFrames[VarLevel(Snap(), v)].count < 2) || depth > MINIMIZE_DEPTH_LIMIT
    {
      var candidateFlags := flags[v];
      var lvl := levels[v];
      if lvl == 0 || candidateFlags.removable || candidateFlags.keep {
        return Spared;
      }
      if reasons[v].NoReason? || candidateFlags.poison || lvl == level {
        return Blocking;
      }
      var frame := seenFrames[lvl];
      if depth == 0 && frame.count < 2 {
        return Blocking;
      }
      if positions[v] <= frame.minTrail {
        return Blocking;
      }
      if depth > MINIMIZE_DEPTH_LIMIT {
        return Blocking;
      }
      return Expand;
    }

    /** Takes the finished top frame off the stack and marks its variable removable. */
    method PopFrame()
      requires minimizeStack != [] && minimizeStack[|minimizeStack| - 1].v < |flags|
      modifies this`flags, this`minimized, this`minimizeStack
      ensures var v := old(minimizeStack[|minimizeStack| - 1].v);
              flags == old(WithRemovable(flags, v)) && minimized == old(minimized) + [v]
      ensures minimizeStack == old(minimizeStack[..|minimizeStack| - 1])
    {
      var v := minimizeStack[|minimizeStack| - 1].v;
      flags := flags[v := flags[v].(removable := true)];
      minimized := minimized + [v];
      minimizeStack := minimizeStack[..|minimizeStack| - 1];
    }

    /** Marks every variable on the stack as not removable, innermost first, and empties the stack. */
    method PoisonStack()
      requires Tidy(Snap(), Scr()) && RemovableOk(Snap(), flags)
      requires forall k :: 0 <= k < |minimizeStack| ==> minimizeStack[k].v < |flags|
      modifies this`flags, this`minimized, this`minimizeStack
      ensures Tidy(Snap(), Scr()) && RemovableOk(Snap(), flags) && MarksGrow(old(flags), flags) && minimizeStack == []
      ensures SameRemovable(old(flags), flags) && PoisonedBy(old(flags), flags, old(minimizeStack))
    {
      hide Tidy, RemovableOk;
      var k := |minimizeStack|;
      while k > 0
        invariant 0 <= k <= |minimizeStack| && |flags| == old(|flags|) && minimizeStack == old(minimizeStack)
        invariant Tidy(Snap(), Scr()) && RemovableOk(Snap(), flags) && MarksGrow(old(flags), flags)
        invariant SameRemovable(old(flags), flags) && PoisonedBy(old(flags), flags, minimizeStack)
        decreases k
      {
        k := k - 1;
        var v := minimizeStack[k].v;
        TidyMark(Snap(), Scr(), v, flags[v].(poison := true));
        PoisonKeepsRemovable(Snap(), flags, v);
        flags := flags[v := flags[v].(poison := true)];
        minimized := minimized + [v];
      }
      minimizeStack := [];
    }

    /** One step of the walk: pops a finished frame, passes over a literal, expands one, or finds the walk blocked. */
    method MinimizeStep(ghost expanded: seq<nat>, ghost kept: set<nat>, ghost bound: nat, ghost cut: bool)
      returns (blocked: bool, ghost after: seq<nat>, ghost nowCut: bool)
      requires SearchOk(Snap()) && Tidy(Snap(), Scr()) && RemovableOk(Snap(), flags)
      requires StackOk(Snap(), flags, minimizeStack) && minimizeStack != []
               && OpenedOnce(flags, minimizeStack, expanded)
      requires Exact(Snap(), seenFrames, flags, kept, bound, cut)
               && StackExact(Snap(), seenFrames, minimizeStack, bound)
      modifies this`flags, this`minimized, this`minimizeStack
      ensures Tidy(Snap(), Scr()) && RemovableOk(Snap(), flags) && MarksGrow(old(flags), flags)
      ensures blocked ==> after == expanded && SameRemovable(old(flags), flags)
      ensures !blocked ==> StackOk(Snap(), flags, minimizeStack) && OpenedOnce(flags, minimizeStack, after)
      ensures !blocked ==> StepsDown(variableCount, old(minimizeStack), expanded, minimizeStack, after)
      ensures !blocked && minimizeStack == [] ==>
                old(minimizeStack[0].v) < |flags| && flags[old(minimizeStack[0].v)].removable
      ensures !blocked && minimizeStack != [] ==> minimizeStack[0].v == old(minimizeStack[0].v)
      ensures old(minimizeStack[0].v) < |flags| && !old(flags[minimizeStack[0].v].removable)
      ensures Exact(Snap(), seenFrames, flags, kept, bound, nowCut)
      ensures !blocked ==> nowCut == cut && StackExact(Snap(), seenFrames, minimizeStack, bound)
      ensures blocked ==> nowCut || !Derivable(Snap(), seenFrames, kept, old(minimizeStack[0].v))
      ensures cut ==> nowCut
      ensures nowCut ==> cut || |MiddleVars(Snap())| > MINIMIZE_DEPTH_LIMIT
    {
      hide SearchOk, Tidy, RemovableOk, StackOk, OpenedOnce, Expandable, Excused, VarAssigned, VarLevel, VarReason;
      hide Exact, StackExact, Eligible, Derivable, MiddleVars;
      ghost var s := Snap();
      TopFrame(s, flags, minimizeStack);
      after, nowCut := expanded, cut;
      var depth := |minimizeStack|;
      var frame := minimizeStack[depth - 1];
      if frame.cursor == |frame.lits| {
        FinishFrame(expanded, kept, bound, cut);
        return false, after, cut;
      }
      var other := Var(frame.lits[frame.cursor]);
      var next := frame.(cursor := frame.cursor + 1);
      OnceAdvance(flags, minimizeStack, expanded, next);
      StackAdvances(s, seenFrames, minimizeStack, next, bound);
      if other == frame.v {
        AdvanceCovered(s, flags, minimizeStack);
        minimizeStack := minimizeStack[depth - 1 := next];
        return false, after, cut;
      }
      JudgeFacts(s, Scr(), other);
      var verdict := JudgeVariable(other, depth);
      match verdict
      case Spared =>
        AdvanceCovered(s, flags, minimizeStack);
        minimizeStack := minimizeStack[depth - 1 := next];
        blocked := false;
      case Blocking =>
        nowCut := BlockStack(other, kept, bound, cut);
        blocked := true;
      case Expand =>
        AdvanceExpand(s, flags, minimizeStack);
        ExpandableReason(s, flags, other);
        StackGrows(s, seenFrames, flags, minimizeStack, next, other, bound);
        after := ExpandFrame(other, next, expanded);
        blocked := false;
    }

    /** Every literal of the top frame is covered: its variable is removable. */
    method FinishFrame(ghost expanded: seq<nat>, ghost kept: set<nat>, ghost bound: nat, ghost cut: bool)
      requires SearchOk(Snap()) && Tidy(Snap(), Scr()) && RemovableOk(Snap(), flags)
      requires StackOk(Snap(), flags, minimizeStack) && minimizeStack != []
               && OpenedOnce(flags, minimizeStack, expanded)
      requires Exact(Snap(), seenFrames, flags, kept, bound, cut)
               && StackExact(Snap(), seenFrames, minimizeStack, bound)
      requires minimizeStack[|minimizeStack| - 1].cursor == |minimizeStack[|minimizeStack| - 1].lits|
      requires forall k :: 0 <= k < |minimizeStack| ==>
                 minimizeStack[k].v < |flags| && !flags[minimizeStack[k].v].removable
      modifies this`flags, this`minimized, this`minimizeStack
      ensures Tidy(Snap(), Scr()) && RemovableOk(Snap(), flags) && MarksGrow(old(flags), flags)
      ensures StackOk(Snap(), flags, minimizeStack) && OpenedOnce(flags, minimizeStack, expanded)
      ensures minimizeStack == old(minimizeStack[..|minimizeStack| - 1])
      ensures old(minimizeStack[|minimizeStack| - 1].v) < |flags|
              && flags[old(minimizeStack[|minimizeStack| - 1].v)].removable
      ensures Exact(Snap(), seenFrames, flags, kept, bound, cut)
              && StackExact(Snap(), seenFrames, minimizeStack, bound)
    {
      hide SearchOk, Tidy, RemovableOk, StackOk, OpenedOnce, Exact, StackExact;
      ghost var s := Snap();
      var frame := minimizeStack[|minimizeStack| - 1];
      PopRemovable(s, flags, minimizeStack);
      PopExact(s, seenFrames, flags, kept, bound, cut, minimizeStack);
      OncePop(flags, minimizeStack, expanded);
      TidyMark(s, Scr(), frame.v, flags[frame.v].(removable := true));
      PopFrame();
    }

    /** The next literal of the top frame cannot be covered, so nothing on the stack can. */
    method BlockStack(ghost other: nat, ghost kept: set<nat>, ghost bound: nat, ghost cut: bool)
      returns (ghost nowCut: bool)
      requires SearchOk(Snap()) && Tidy(Snap(), Scr()) && RemovableOk(Snap(), flags) && minimizeStack != []
      requires StackOk(Snap(), flags, minimizeStack) && Exact(Snap(), seenFrames, flags, kept, bound, cut)
               && StackExact(Snap(), seenFrames, minimizeStack, bound)
      requires forall k :: 0 <= k < |minimizeStack| ==> minimizeStack[k].v < |flags|
      requires var top := minimizeStack[|minimizeStack| - 1];
               top.cursor < |top.lits| && Var(top.lits[top.cursor]) == other && other != top.v
      requires VarAssigned(Snap(), other) && !Excused(Snap(), flags, other)
      requires !Eligible(Snap(), seenFrames, other) || (other < |flags| && flags[other].poison)
               || |minimizeStack| > MINIMIZE_DEPTH_LIMIT
      modifies this`flags, this`minimized, this`minimizeStack
      ensures Tidy(Snap(), Scr()) && RemovableOk(Snap(), flags) && MarksGrow(old(flags), flags)
      ensures SameRemovable(old(flags), flags) && minimizeStack == []
      ensures Exact(Snap(), seenFrames, flags, kept, bound, nowCut)
      ensures (cut ==> nowCut) && (nowCut || !Derivable(Snap(), seenFrames, kept, old(minimizeStack[0].v)))
      ensures nowCut ==> cut || |MiddleVars(Snap())| > MINIMIZE_DEPTH_LIMIT
    {
      hide SearchOk, Tidy, RemovableOk, StackOk, Exact, StackExact, Excused, Eligible, Derivable, MiddleVars,
           VarAssigned, VarLevel, PoisonedBy;
      ghost var s := Snap();
      nowCut := cut || |minimizeStack| > MINIMIZE_DEPTH_LIMIT;
      SearchSized(s);
      DeepStack(s, flags, minimizeStack);
      if !nowCut {
        RefusedIsNot(s, seenFrames, flags, kept, bound, other);
        forall k | 0 <= k < |minimizeStack| ensures !Derivable(s, seenFrames, kept, minimizeStack[k].v) {
          StackIsNot(s, seenFrames, flags, kept, bound, minimizeStack, other, k);
        }
      }
      ExactWider(s, seenFrames, flags, kept, bound, bound, cut, nowCut);
      ghost var before, stack := flags, minimizeStack;
      PoisonStack();
      PoisonExact(s, seenFrames, before, kept, bound, nowCut, stack, flags);
    }

    /** Opens a frame for one more variable. */
    method ExpandFrame(v: nat, top: MinimizeFrame, ghost expanded: seq<nat>) returns (ghost after: seq<nat>)
      requires minimizeStack != [] && OpenedOnce(flags, minimizeStack[|minimizeStack| - 1 := top], expanded)
      requires 1 <= v <= variableCount && v < |flags| && !flags[v].removable && !flags[v].poison
      requires v < |reasons| && reasons[v].Because? && reasons[v].ref in clauses
      requires top.v == minimizeStack[|minimizeStack| - 1].v
      requires forall k :: 0 <= k < |minimizeStack| ==> minimizeStack[k].v != v
      modifies this`minimizeStack
      ensures minimizeStack == old(minimizeStack)[|old(minimizeStack)| - 1 := top]
                               + [MinimizeFrame(v, clauses[reasons[v].ref].lits, 0)]
      ensures OpenedOnce(flags, minimizeStack, after)
              && Unexpanded(variableCount, after) < Unexpanded(variableCount, expanded)
    {
      hide OpenedOnce, Unexpanded;
      var frame := MinimizeFrame(v, clauses[reasons[v].ref].lits, 0);
      minimizeStack := minimizeStack[|minimizeStack| - 1 := top];
      OncePush(flags, minimizeStack, expanded, frame);
      OneFewer(variableCount, expanded, v);
      minimizeStack := minimizeStack + [frame];
      after := expanded + [v];
    }

    /** Decides whether a collected variable is forced by the root level and the kept ones, expanding reasons on an
        explicit stack. No variable is expanded twice. Unless a visit is refused for its depth, which takes more than a
        thousand variables between the root and the current level, the answer is exact. */
    method MinimizeLiteral(v: nat, ghost kept: set<nat>, ghost bound: nat, ghost cut: bool)
      returns (removable: bool, ghost expanded: seq<nat>, ghost nowCut: bool)
      requires SearchOk(Snap()) && Tidy(Snap(), Scr()) && RemovableOk(Snap(), flags)
      requires VarAssigned(Snap(), v) && bound <= VarPosition(Snap(), v)
      requires Exact(Snap(), seenFrames, flags, kept, bound, cut)
      modifies this`flags, this`minimized, this`minimizeStack
      ensures Tidy(Snap(), Scr()) && RemovableOk(Snap(), flags) && MarksGrow(old(flags), flags)
      ensures removable ==> Excused(Snap(), flags, v)
      ensures !removable ==> v < |flags| && !flags[v].removable
      ensures Distinct(expanded)
      ensures Exact(Snap(), seenFrames, flags, kept, VarPosition(Snap(), v), nowCut)
      ensures !removable && !nowCut ==>
                !Derivable(Snap(), seenFrames, kept, v)
                || (VarLevel(Snap(), v) < |seenFrames| && seenFrames[VarLevel(Snap(), v)].count < 2)
      ensures (cut ==> nowCut) && (nowCut ==> cut || |MiddleVars(Snap())| > MINIMIZE_DEPTH_LIMIT)
    {
      hide SearchOk, Tidy, RemovableOk, StackOk, OpenedOnce, Expandable, Unexpanded, Exact, StackExact, Eligible,
           Derivable, MiddleVars;
      ghost var s := Snap();
      expanded, nowCut := [], cut;
      ghost var at := VarPosition(s, v);
      ExactWider(s, seenFrames, flags, kept, bound, at, cut, cut);
      JudgeFacts(s, Scr(), v);
      var top := JudgeVariable(v, 0);
      if top != Expand {
        if top == Blocking && !cut {
          NotAtOnce(s, seenFrames, flags, kept, at, v);
        }
        return top == Spared, expanded, cut;
      }
      StartStack(s, flags, v);
      StackStarts(s, seenFrames, v, clauses[reasons[v].ref].lits);
      ExpandableReason(s, flags, v);
      var frame := MinimizeFrame(v, clauses[reasons[v].ref].lits, 0);
      OnceFirst(flags, v, frame.lits);
      minimizeStack := [frame];
      expanded := [v];
      var blocked := false;
      while !blocked && minimizeStack != []
        invariant Snap() == s && Tidy(s, Scr()) && RemovableOk(s, flags) && MarksGrow(old(flags), flags)
        invariant !blocked ==> StackOk(s, flags, minimizeStack) && OpenedOnce(flags, minimizeStack, expanded)
        invariant !blocked && minimizeStack != [] ==> minimizeStack[0].v == v
        invariant !blocked && minimizeStack == [] ==> v < |flags| && flags[v].removable
        invariant blocked ==> v < |flags| && !flags[v].removable
        invariant Distinct(expanded)
        invariant Exact(s, seenFrames, flags, kept, at, nowCut)
        invariant !blocked ==> nowCut == cut && StackExact(s, seenFrames, minimizeStack, at)
        invariant blocked ==> nowCut || !Derivable(s, seenFrames, kept, v)
        invariant nowCut ==> cut || |MiddleVars(s)| > MINIMIZE_DEPTH_LIMIT
        invariant cut ==> nowCut
        decreases !blocked, Unexpanded(variableCount, expanded), |minimizeStack|, Remaining(minimizeStack)
      {
        blocked, expanded, nowCut := MinimizeStep(expanded, kept, at, nowCut);
        if !blocked {
          OnceIsDistinct(flags, minimizeStack, expanded);
        }
      }
      removable := !blocked;
    }

    /** Lists what one literal of a removed variable's reason rests on. */
    method CollectOther(u: nat, ghost v: nat, ghost busy: set<nat>, ghost about: set<Ref>)
      requires SearchOk(Snap()) && RemovableOk(Snap(), flags) && MinimizeChained(Snap(), flags, Chn(), busy)
      requires ListsNeeded(Snap(), Chn(), about) && Wanted(Snap(), about + Members(resolutionChain), u)
      requires Excused(Snap(), flags, u) && u < |levels| && VarPosition(Snap(), u) < VarPosition(Snap(), v)
      requires forall b :: b in busy ==> VarPosition(Snap(), b) >= VarPosition(Snap(), v)
      modifies this`chainStamps, this`rootChain, this`rootVars, this`minimizeChain, this`minimizeVars
      ensures MinimizeChained(Snap(), flags, Chn(), busy) && Accounted(Snap(), flags, Chn(), u)
      ensures ListsNeeded(Snap(), Chn(), about)
      ensures More(old(rootVars), rootVars) && More(old(minimizeVars), minimizeVars)
      decreases VarPosition(Snap(), u), 2
    {
      hide SearchOk, RemovableOk, RootChained, MinimizedChain, AllNeeded, Wanted;
      if levels[u] == 0 {
        CollectRootChain(u, busy, about);
        RootsGrew(Snap(), flags, old(Chn()), Chn(), busy);
      } else if !flags[u].keep && flags[u].removable {
        CollectMinimizeChain(u, busy, about);
      }
    }

    /** Lists the reasons behind a removed variable, each after the reasons it rests on. */
    method CollectMinimizeChain(v: nat, ghost busy: set<nat>, ghost about: set<Ref>)
      requires SearchOk(Snap()) && RemovableOk(Snap(), flags) && MinimizeChained(Snap(), flags, Chn(), busy)
      requires ListsNeeded(Snap(), Chn(), about) && Wanted(Snap(), about + Members(resolutionChain), v)
      requires v < |flags| && flags[v].removable
      requires forall b :: b in busy ==> VarPosition(Snap(), b) > VarPosition(Snap(), v)
      modifies this`chainStamps, this`rootChain, this`rootVars, this`minimizeChain, this`minimizeVars
      ensures MinimizeChained(Snap(), flags, Chn(), busy) && v in minimizeVars && ListsNeeded(Snap(), Chn(), about)
      ensures More(old(rootVars), rootVars) && More(old(minimizeVars), minimizeVars)
      decreases VarPosition(Snap(), v), 1
    {
      hide SearchOk, RemovableOk, MinimizedChain, RootChain, StampsAre, Excused, Accounted, AllNeeded, Wanted;
      ghost var s := Snap();
      RemovableFacts(s, flags, v);
      if chainStamps[v] == chainStamp {
        StampedIsMinimized(s, flags, Chn(), busy, v);
        return;
      }
      OpenMinimized(s, flags, Chn(), busy, v);
      chainStamps := chainStamps[v := chainStamp];
      var reason := reasons[v].ref;
      ListsAwait(s, Chn(), about, about + {reason});
      CollectOthers(v, reason, busy + {v}, about + {reason});
      CloseMinimized(s, flags, Chn(), busy, v, reason);
      MinListed(s, Chn(), about, v, reason);
      minimizeChain := minimizeChain + [reason];
      minimizeVars := minimizeVars + [v];
    }

    /** Lists what the other literals of a removed variable's reason rest on. */
    method CollectOthers(v: nat, r: Ref, ghost busy: set<nat>, ghost about: set<Ref>)
      requires SearchOk(Snap()) && RemovableOk(Snap(), flags) && MinimizeChained(Snap(), flags, Chn(), busy)
      requires ListsNeeded(Snap(), Chn(), about) && r in about
      requires v < |flags| && flags[v].removable && VarReason(Snap(), v) == Because(r)
      requires forall b :: b in busy ==> VarPosition(Snap(), b) >= VarPosition(Snap(), v)
      modifies this`chainStamps, this`rootChain, this`rootVars, this`minimizeChain, this`minimizeVars
      ensures MinimizeChained(Snap(), flags, Chn(), busy) && ListsNeeded(Snap(), Chn(), about)
      ensures r in clauses
      ensures forall m :: m in clauses[r].lits && Var(m) != v ==> Accounted(Snap(), flags, Chn(), Var(m))
      ensures More(old(rootVars), rootVars) && More(old(minimizeVars), minimizeVars)
      decreases VarPosition(Snap(), v), 0
    {
      hide SearchOk, RemovableOk, MinimizeChained, Excused, Accounted, ListsNeeded, Wanted;
      ghost var s := Snap();
      RemovableFacts(s, flags, v);
      var lits := clauses[r].lits;
      var i := 0;
      while i < |lits|
        invariant 0 <= i <= |lits| && Snap() == s && MinimizeChained(s, flags, Chn(), busy)
        invariant ListsNeeded(s, Chn(), about)
        invariant forall j :: 0 <= j < i && Var(lits[j]) != v ==> Accounted(s, flags, Chn(), Var(lits[j]))
        invariant More(old(rootVars), rootVars) && More(old(minimizeVars), minimizeVars)
      {
        ghost var before := Chn();
        if Var(lits[i]) != v {
          assert lits[i] in lits;
          OthersWanted(s, about, r, lits[i], Members(resolutionChain));
          CollectOther(Var(lits[i]), v, busy, about);
        }
        forall j | 0 <= j < i && Var(lits[j]) != v ensures Accounted(s, flags, Chn(), Var(lits[j])) {
          AccountedMore(s, flags, before, Chn(), Var(lits[j]));
        }
        i := i + 1;
      }
    }

    /** Puts the collected literals into trail order, so that earlier ones are decided first. */
    method SortLearned(ghost vars: set<nat>)
      requires Sized(Snap()) && TrailOk(Snap()) && TailLists(Snap(), learned, vars)
      modifies this`learned
      ensures TailLists(Snap(), learned, vars) && |learned| == old(|learned|) >= 1 && learned[0] == old(learned[0])
      ensures SortedTail(Snap(), learned, |learned|)
    {
      hide TailLists, SortedTail, SortedBut, Swapped;
      ghost var s := Snap();
      var k := 1;
      TailSize(s, learned, vars);
      while k < |learned|
        invariant 1 <= k <= |learned| == old(|learned|) && learned[0] == old(learned[0])
        invariant TailLists(s, learned, vars) && SortedTail(s, learned, k)
      {
        SiftStart(s, learned, k);
        SiftInto(k, vars);
        k := k + 1;
      }
    }

    /** Moves the literal at `k` down to its place among the sorted ones before it. */
    method SiftInto(k: nat, ghost vars: set<nat>)
      requires Sized(Snap()) && TrailOk(Snap()) && TailLists(Snap(), learned, vars)
      requires 1 <= k < |learned| && SortedBut(Snap(), learned, k + 1, k)
      modifies this`learned
      ensures TailLists(Snap(), learned, vars) && |learned| == old(|learned|) && learned[0] == old(learned[0])
      ensures SortedTail(Snap(), learned, k + 1)
    {
      hide TailLists, SortedTail, SortedBut, Swapped;
      ghost var s := Snap();
      var hole := k;
      TailTables(s, learned, vars);
      while hole > 1 && positions[Var(learned[hole])] < positions[Var(learned[hole - 1])]
        invariant 1 <= hole <= k < |learned| == old(|learned|) && learned[0] == old(learned[0])
        invariant TailLists(s, learned, vars) && SortedBut(s, learned, k + 1, hole)
        invariant forall i :: 1 <= i < |learned| ==> Var(learned[i]) < |positions|
        decreases hole
      {
        SiftEarlier(s, learned, k + 1, hole);
        SwapTail(s, learned, vars, hole - 1, hole);
        SwapLearned(hole - 1, hole);
        TailTables(s, learned, vars);
        hole := hole - 1;
      }
      SiftDone(s, learned, k + 1, hole);
    }

    method SwapLearned(i: nat, j: nat)
      requires i < |learned| && j < |learned|
      modifies this`learned
      ensures learned == Swapped(old(learned), i, j) && |learned| == old(|learned|)
      ensures 0 < i && 0 < j ==> learned[0] == old(learned[0])
    {
      var left, right := learned[i], learned[j];
      learned := learned[i := right];
      learned := learned[j := left];
    }

    /** Decides one collected literal: drops it when the others force it, keeps it otherwise. */
    method DecideLiteral(index: nat, write: nat, ghost orig: Clause, ghost kept: set<nat>, ghost met: Met,
                         ghost uip: Lit, ghost cut: bool)
      returns (next: nat, ghost after: set<nat>, ghost nowCut: bool)
      requires SearchOk(Snap()) && 1 <= index < |orig|
      requires Decided(wantChain, Snap(), Scr(), Chn(), met, uip, orig, learned, write, index, kept)
      requires Sifted(Snap(), seenFrames, met, flags, orig, index, kept, cut)
      modifies this`flags, this`minimized, this`minimizeStack, this`learned
      modifies this`chainStamps, this`rootChain, this`rootVars, this`minimizeChain, this`minimizeVars
      ensures Decided(wantChain, Snap(), Scr(), Chn(), met, uip, orig, learned, next, index + 1, after)
      ensures Sifted(Snap(), seenFrames, met, flags, orig, index + 1, after, nowCut)
      ensures nowCut ==> cut || |MiddleVars(Snap())| > MINIMIZE_DEPTH_LIMIT
      ensures !wantChain ==> chainStamps == old(chainStamps)
    {
      hide SearchOk, Decided, Sifted, MiddleVars, Snap, Scr, Chn;
      var removable: bool;
      removable, nowCut := LookAtLiteral(index, write, orig, kept, met, uip, cut);
      if removable {
        DropLiteral(index, write, orig, kept, met, uip);
        return write, kept, nowCut;
      }
      after := KeepLiteral(index, write, orig, kept, met, uip);
      next := write + 1;
    }

    /** Looks whether the others force a collected literal. */
    method LookAtLiteral(index: nat, ghost write: nat, ghost orig: Clause, ghost kept: set<nat>, ghost met: Met,
                         ghost uip: Lit, ghost cut: bool)
      returns (removable: bool, ghost nowCut: bool)
      requires SearchOk(Snap()) && 1 <= index < |orig|
      requires Decided(wantChain, Snap(), Scr(), Chn(), met, uip, orig, learned, write, index, kept)
      requires Sifted(Snap(), seenFrames, met, flags, orig, index, kept, cut)
      modifies this`flags, this`minimized, this`minimizeStack
      ensures Decided(wantChain, Snap(), Scr(), Chn(), met, uip, orig, learned, write, index, kept)
      ensures |learned| == |orig| && write <= index && learned[index] == orig[index]
      ensures Var(orig[index]) < |flags| && flags[Var(orig[index])].removable == removable
      ensures if removable then Sifted(Snap(), seenFrames, met, flags, orig, index + 1, kept, nowCut)
              else var v := Var(orig[index]);
                   Sifted(Snap(), seenFrames, met, flags[v := flags[v].(keep := true)], orig, index + 1, kept + {v},
                          nowCut)
      ensures nowCut ==> cut || |MiddleVars(Snap())| > MINIMIZE_DEPTH_LIMIT
    {
      hide SearchOk, Decided, Tidy, RemovableOk, MarksGrow, Excused, Sifted, Exact, Derivable, FramesOk, MiddleVars,
           SiftBound, Chn;
      ghost var s, before := Snap(), flags;
      NextToDecide(wantChain, s, Scr(), Chn(), met, uip, orig, learned, write, index, kept);
      NextToSift(s, seenFrames, met, flags, orig, index, kept, cut);
      SiftedFrames(s, seenFrames, met, flags, orig, index, kept, cut);
      ghost var expanded: seq<nat>;
      removable, expanded, nowCut := MinimizeLiteral(Var(learned[index]), kept, SiftBound(s, orig, index), cut);
      DecidedMarks(wantChain, s, old(Scr()), Scr(), Chn(), met, uip, orig, learned, write, index, kept);
      NextToDecide(wantChain, s, Scr(), Chn(), met, uip, orig, learned, write, index, kept);
      ghost var v := Var(orig[index]);
      if removable {
        SiftDrop(s, seenFrames, met, before, flags, orig, index, kept, cut, nowCut);
      } else {
        if VarLevel(s, v) < |seenFrames| && seenFrames[VarLevel(s, v)].count < 2 {
          AloneIsNot(s, seenFrames, met, kept, v);
        }
        SiftKeep(s, seenFrames, met, before, flags, orig, index, kept, cut, nowCut);
      }
    }

    /** Leaves out a literal the others force, listing its antecedents when they are wanted. */
    method DropLiteral(index: nat, ghost write: nat, ghost orig: Clause, ghost kept: set<nat>, ghost met: Met,
                       ghost uip: Lit)
      requires SearchOk(Snap()) && index < |orig|
      requires Decided(wantChain, Snap(), Scr(), Chn(), met, uip, orig, learned, write, index, kept)
      requires |learned| == |orig| && learned[index] == orig[index]
      requires Var(orig[index]) < |flags| && flags[Var(orig[index])].removable
      modifies this`chainStamps, this`rootChain, this`rootVars, this`minimizeChain, this`minimizeVars
      ensures Decided(wantChain, Snap(), Scr(), Chn(), met, uip, orig, learned, write, index + 1, kept)
      ensures !wantChain ==> chainStamps == old(chainStamps)
    {
      hide SearchOk, Decided, MinimizeChained, RemovableOk;
      if wantChain {
        DecidedChains(Snap(), Scr(), Chn(), met, uip, orig, learned, write, index, kept);
        CollectMinimizeChain(Var(learned[index]), {}, {});
      }
      DropDecided(wantChain, Snap(), Scr(), old(Chn()), Chn(), met, uip, orig, learned, write, index, kept);
    }

    /** Moves a literal that stays to the next free place and marks it. */
    method KeepLiteral(index: nat, write: nat, ghost orig: Clause, ghost kept: set<nat>, ghost met: Met, ghost uip: Lit)
      returns (ghost after: set<nat>)
      requires SearchOk(Snap()) && index < |orig|
      requires Decided(wantChain, Snap(), Scr(), Chn(), met, uip, orig, learned, write, index, kept)
      requires |learned| == |orig| && learned[index] == orig[index]
      requires Var(orig[index]) < |flags| && !flags[Var(orig[index])].removable
      modifies this`flags, this`learned
      ensures Decided(wantChain, Snap(), Scr(), Chn(), met, uip, orig, learned, write + 1, index + 1, after)
      ensures var v := Var(orig[index]);
              after == kept + {v} && flags == old(flags)[v := old(flags)[v].(keep := true)]
    {
      hide SearchOk, Decided;
      KeepDecided(wantChain, Snap(), Scr(), Chn(), met, uip, orig, learned, write, index, kept);
      var lit := learned[index];
      var v := Var(lit);
      flags := flags[v := flags[v].(keep := true)];
      learned := learned[write := lit];
      after := kept + {v};
    }

    /** Decides every collected literal in turn. */
    method DecideAll(ghost met: Met, ghost uip: Lit) returns (write: nat, ghost kept: set<nat>, ghost cut: bool)
      requires SearchOk(Snap()) && Decided(wantChain, Snap(), Scr(), Chn(), met, uip, learned, learned, 1, 1, {})
      requires Sifted(Snap(), seenFrames, met, flags, learned, 1, {}, false)
      modifies this`flags, this`minimized, this`minimizeStack, this`learned
      modifies this`chainStamps, this`rootChain, this`rootVars, this`minimizeChain, this`minimizeVars
      ensures Decided(wantChain, Snap(), Scr(), Chn(), met, uip, old(learned), learned, write, |old(learned)|, kept)
      ensures MinimizedExactly(Snap(), seenFrames, met.low, kept, cut)
      ensures cut ==> |MiddleVars(Snap())| > MINIMIZE_DEPTH_LIMIT
      ensures !wantChain ==> chainStamps == old(chainStamps)
    {
      hide *;
      ghost var s, orig := Snap(), learned;
      var index: nat := 1;
      write, kept, cut := 1, {}, false;
      MinimizingBounds(wantChain, s, Scr(), Chn(), met, uip, orig, learned, 1, 1, {});
      while index < |learned|
        invariant !wantChain ==> chainStamps == old(chainStamps)
        invariant 1 <= index <= |orig| == |learned| && Snap() == s
        invariant Decided(wantChain, s, Scr(), Chn(), met, uip, orig, learned, write, index, kept)
        invariant Sifted(s, seenFrames, met, flags, orig, index, kept, cut)
        invariant cut ==> |MiddleVars(s)| > MINIMIZE_DEPTH_LIMIT
        decreases |orig| - index
      {
        write, kept, cut := DecideLiteral(index, write, orig, kept, met, uip, cut);
        MinimizingBounds(wantChain, s, Scr(), Chn(), met, uip, orig, learned, write, index + 1, kept);
        index := index + 1;
      }
      AllSifted(s, seenFrames, met, flags, orig, kept, cut);
    }

    /** Drops every collected literal that the root level and the literals kept force. */
    method MinimizeLearned(uip: Lit, ghost met: Met) returns (ghost kept: set<nat>, ghost cut: bool)
      requires SearchOk(Snap()) && DatabaseEntailed(formula, clauses) && level > 0
      requires Collecting(Snap(), Scr(), learned, met, Position(Snap(), uip)) && met.open == {}
      requires UipFound(formula, Snap(), met, uip) && Chaining(wantChain, Snap(), Chn(), met, uip)
      modifies this`flags, this`minimized, this`minimizeStack, this`learned
      modifies this`chainStamps, this`rootChain, this`rootVars, this`minimizeChain, this`minimizeVars
      ensures Tidy(Snap(), Scr()) && MinimizedTo(formula, Snap(), learned, kept, uip) && |learned| >= 1
              && learned[0] == Neg(uip)
      ensures wantChain ==> ChainsReady(Snap(), flags, Chn(), met, kept, uip)
      ensures MinimizedExactly(Snap(), seenFrames, met.low, kept, cut) && FramesOk(Snap(), seenFrames, met)
      ensures cut ==> |MiddleVars(Snap())| > MINIMIZE_DEPTH_LIMIT
      ensures SeenAre(Scr(), met) && (!wantChain ==> chainStamps == old(chainStamps))
    {
      hide SearchOk, DatabaseEntailed, Collecting, UipFound, Chaining, Tidy, Decided, MinimizedTo, ChainsReady, MetOk,
           Sifted, MinimizedExactly, MiddleVars, FramesOk, SeenAre;
      ghost var bound := Position(Snap(), uip);
      CollectingMet(Snap(), Scr(), learned, met, bound);
      CollectingFrames(Snap(), Scr(), learned, met, bound);
      FirstAndSorted(uip, met);
      ghost var orig := learned;
      var write: nat;
      write, kept, cut := DecideAll(met, uip);
      FinishDecided(wantChain, formula, Snap(), Scr(), Chn(), met, bound, uip, orig, learned, write, kept);
      learned := learned[..write];
    }

    /** Puts the negated implication point first and the rest in trail order. */
    method FirstAndSorted(uip: Lit, ghost met: Met)
      requires SearchOk(Snap()) && Collecting(Snap(), Scr(), learned, met, Position(Snap(), uip))
      requires Chaining(wantChain, Snap(), Chn(), met, uip)
      modifies this`learned
      ensures Decided(wantChain, Snap(), Scr(), Chn(), met, uip, learned, learned, 1, 1, {})
      ensures Sifted(Snap(), seenFrames, met, flags, learned, 1, {}, false)
      ensures |learned| >= 1 && learned[0] == Neg(uip)
    {
      hide SearchOk, Collecting, Chaining, Tidy, TailLists, Decided, MetOk, Sifted, SortedTail;
      ghost var s, bound, start := Snap(), Position(Snap(), uip), learned;
      CollectedFacts(s, Scr(), learned, met, bound);
      SetFirst(s, learned, met.low, Neg(uip));
      learned := learned[0 := Neg(uip)];
      SortTail(met.low);
      StartDecided(wantChain, s, Scr(), Chn(), start, met, bound, uip, learned);
      NothingSifted(s, Scr(), start, met, bound, learned);
    }

    /** Sorts the collected literals when there is more than one. */
    method SortTail(ghost vars: set<nat>)
      requires SearchOk(Snap()) && TailLists(Snap(), learned, vars)
      modifies this`learned
      ensures TailLists(Snap(), learned, vars) && |learned| == old(|learned|) >= 1 && learned[0] == old(learned[0])
      ensures SortedTail(Snap(), learned, |learned|)
    {
      hide TailLists;
      TailSize(Snap(), learned, vars);
      if |learned| > 2 {
        SortLearned(vars);
      }
    }

    /** Moves the literal of highest level to the second place, where it becomes the partner watch. */
    method PickSecondWatch(ghost kept: set<nat>, ghost uip: Lit)
      requires SearchOk(Snap()) && MinimizedTo(formula, Snap(), learned, kept, uip)
      modifies this`learned
      ensures MinimizedTo(formula, Snap(), learned, kept, uip) && SecondHighest(Snap(), learned)
      ensures |learned| == old(|learned|) >= 1 && learned[0] == old(learned[0])
    {
      hide SearchOk, MinimizedTo;
      ghost var s := Snap();
      MinimizedTables(formula, s, learned, kept, uip);
      if |learned| > 1 {
        var bestIndex := 1;
        var bestLevel := levels[Var(learned[1])];
        var index := 1;
        while index < |learned|
          invariant 1 <= index <= |learned| && 1 <= bestIndex < |learned| && bestLevel == Level(s, learned[bestIndex])
          invariant forall i :: 1 <= i < index ==> Level(s, learned[i]) <= bestLevel
        {
          var lvl := levels[Var(learned[index])];
          if lvl > bestLevel {
            bestLevel := lvl;
            bestIndex := index;
          }
          index := index + 1;
        }
        PickSecond(formula, s, learned, kept, uip, bestIndex);
        if bestIndex != 1 {
          SwapLearned(1, bestIndex);
        }
      }
    }

    /** Marks the variables of one reason clause that have not been seen. */
    method MarkReason(lits: Clause)
      requires Tidy(Snap(), Scr()) && Sized(Snap()) && ClauseOk(variableCount, lits) && SeenListed(Scr())
      modifies this`flags, this`analyzed
      ensures Tidy(Snap(), Scr()) && SeenListed(Scr())
      ensures forall v :: v in analyzed <==> v in old(analyzed) || (VarLevel(Snap(), v) > 0 && Speaks(lits, v))
    {
      hide Tidy, SeenListed;
      var i := 0;
      while i < |lits|
        invariant 0 <= i <= |lits| && Tidy(Snap(), Scr()) && |flags| == old(|flags|) && SeenListed(Scr())
        invariant forall v :: v in analyzed <==> v in old(analyzed) || (VarLevel(Snap(), v) > 0 && Speaks(lits[..i], v))
      {
        var v := Var(lits[i]);
        TidyBounds(Snap(), Scr());
        SpeaksMore(lits, i);
        MarkOne(v);
        i := i + 1;
      }
      assert lits[..|lits|] == lits;
    }

    /** Marks and lists a variable above the root unless it has been. */
    method MarkOne(v: nat)
      requires Tidy(Snap(), Scr()) && SeenListed(Scr()) && v < |flags| && v < |levels|
      modifies this`flags, this`analyzed
      ensures Tidy(Snap(), Scr()) && SeenListed(Scr()) && |flags| == old(|flags|)
      ensures forall u :: u in analyzed <==> u in old(analyzed) || (u == v && levels[v] > 0)
    {
      hide Tidy;
      if !flags[v].seen && levels[v] != 0 {
        TidySeen(Snap(), Scr(), v);
        SeenOneMore(Scr(), v);
        flags := flags[v := flags[v].(seen := true)];
        analyzed := analyzed + [v];
      }
    }

    /** Marks, for a short learned clause, the variables that forced its literals. */
    method MarkReasonSide()
      requires SearchOk(Snap()) && Tidy(Snap(), Scr()) && SeenListed(Scr())
      requires forall i :: 0 <= i < |learned| ==> Value(Snap(), learned[i]) == -1
      modifies this`flags, this`analyzed
      ensures Tidy(Snap(), Scr()) && SeenListed(Scr())
      ensures forall v :: v in analyzed <==>
                v in old(analyzed) || (|learned| <= REASON_BUMP_SIZE_LIMIT && ReasonSide(Snap(), learned, |learned|, v))
    {
      hide SearchOk, Tidy, SeenListed, ReasonSide, Value;
      ghost var s := Snap();
      NoReasonSide(s, learned);
      if |learned| <= REASON_BUMP_SIZE_LIMIT {
        var index := 1;
        while index < |learned|
          invariant 1 <= index && Snap() == s && Tidy(Snap(), Scr()) && SeenListed(Scr())
          invariant index <= |learned| || learned == []
          invariant forall v :: v in analyzed <==> v in old(analyzed) || ReasonSide(s, learned, index, v)
          decreases |learned| - index
        {
          ReasonTables(s, learned[index]);
          ReasonSideMore(s, learned, index);
          var reason := reasons[Var(learned[index])];
          if reason.Because? {
            MarkReason(clauses[reason.ref].lits);
          }
          index := index + 1;
        }
      }
    }

    /** Bumps every marked variable and ages the rest. */
    method BumpAnalyzed()
      requires HeapCovers() && forall i :: 0 <= i < |analyzed| ==> analyzed[i] <= variableCount
      modifies heap
      ensures HeapCovers()
      ensures heap.Acts() == Decayed(BumpedAll(old(heap.Acts()), analyzed), DECAY_FACTOR)
    {
      hide Covered, Support, Tables, OrderedAbove, Scaled, Bumped, Decayed;
      var i := 0;
      while i < |analyzed|
        invariant 0 <= i <= |analyzed| && HeapCovers()
        invariant heap.Acts() == BumpedAll(old(heap.Acts()), analyzed[..i])
      {
        assert analyzed[..i + 1] == analyzed[..i] + [analyzed[i]];
        heap.Bump(analyzed[i]);
        i := i + 1;
      }
      assert analyzed[..|analyzed|] == analyzed;
      heap.Decay();
    }

    /** Takes back every mark. */
    method ClearMarks()
      requires Tidy(Snap(), Scr())
      modifies this`flags, this`seenFrames
      ensures Clean(Snap(), Scr())
    {
      flags := ClearFlags(flags, analyzed);
      flags := ClearFlags(flags, minimized);
      seenFrames := ClearFrames(seenFrames, levelsTouched);
    }

    ghost predicate StampsOk()
      reads this`variableCount, this`chainStamps, this`chainStamp
    {
      |chainStamps| == variableCount + 1 && StampsBelow(chainStamps, chainStamp) && chainStamp < STAMP_MODULUS
    }

    /** Starts a generation of stamps no variable carries yet; the counter is 32 bits wide and wraps. */
    method FreshStamps()
      requires StampsBelow(chainStamps, chainStamp) && chainStamp < STAMP_MODULUS
      modifies this`chainStamps, this`chainStamp
      ensures chainStamp < STAMP_MODULUS
      ensures |chainStamps| == old(|chainStamps|) && forall v :: 0 <= v < |chainStamps| ==> chainStamps[v] < chainStamp
    {
      chainStamp := (chainStamp + 1) % STAMP_MODULUS;
      if chainStamp == 0 {
        chainStamps := seq(|chainStamps|, _ => 0);
        chainStamp := 1;
      }
    }

    method ClearLists()
      modifies this`learned, this`analyzed, this`minimized, this`levelsTouched
      modifies this`resolutionChain, this`resolutionVars, this`rootChain, this`rootVars, this`minimizeChain,
               this`minimizeVars
      ensures analyzed == [] && minimized == [] && levelsTouched == [] && learned == [NO_LITERAL]
      ensures Chn() == Chains(chainStamps, chainStamp, [], [], [], [], [], [])
      ensures Scr() == Scratch(flags, [], [], [], seenFrames)
    {
      learned := [NO_LITERAL];
      analyzed, minimized, levelsTouched := [], [], [];
      resolutionChain, rootChain, minimizeChain := [], [], [];
      resolutionVars, rootVars, minimizeVars := [], [], [];
    }

    lemma StartsClean()
      requires Clean(Snap(), Scr())
      ensures Clean(Snap(), Scratch(flags, [], [], [], seenFrames))
    {
      CleanEmptied(Snap(), Scr());
    }

    /** Empties the analysis lists and starts a fresh generation of stamps. */
    method StartAnalysis()
      requires Clean(Snap(), Scr()) && StampsOk()
      modifies this`learned, this`analyzed, this`minimized, this`levelsTouched, this`chainStamps, this`chainStamp
      modifies this`resolutionChain, this`resolutionVars, this`rootChain, this`rootVars, this`minimizeChain,
               this`minimizeVars
      ensures Clean(Snap(), Scr()) && Scr() == Scratch(flags, [], [], [], seenFrames) && learned == [NO_LITERAL]
      ensures Chaining(wantChain, Snap(), Chn(), Met({}, {}, {}), NO_LITERAL)
      ensures StampsOk()
    {
      hide Chaining, Clean, Snap, Scr;
      StartsClean();
      SnapIs();
      ClearLists();
      if wantChain {
        FreshStamps();
        FreshStamp(Snap(), Chn());
      } else {
        NotChaining(Snap(), Chn(), Met({}, {}, {}), NO_LITERAL);
      }
    }

    /** Bumps what took part in the conflict and takes back every mark. */
    method FinishAnalysis(ghost x: Scratch, ghost conflict: Ref, ghost i: nat, ghost met: Met)
      requires Running(formula, Snap(), x, unitRefs, assumptions) && Equipped() && Warranted(limits, counters)
      requires Tidy(Snap(), Scr()) && forall i :: 0 <= i < |learned| ==> Value(Snap(), learned[i]) == -1
      requires ConflictFound(Snap(), conflict) && PointFound(Snap(), conflict, i, met) && SeenAre(Scr(), met)
      modifies this`flags, this`analyzed, this`seenFrames, heap
      ensures Invariant(assumptions)
      ensures TookPart(Snap(), conflict, learned, analyzed)
      ensures heap.Acts() == Decayed(BumpedAll(old(heap.Acts()), analyzed), DECAY_FACTOR)
    {
      hide SearchOk, Running, Represents, Tidy, Clean, Covered, Branchable, Support, Tables, OrderedAbove, StampsOk,
           RefsBelow, Value, ProofOk, TookPart, ReasonSide, SeenAre, SeenListed, PointFound, ConflictFound, Decayed,
           BumpedAll;
      ghost var s := Snap();
      RunningParts(formula, s, x, unitRefs, assumptions);
      SeenIsListed(Scr(), met);
      MarkReasonSide();
      PartTaken(s, conflict, learned, i, met, Scr());
      TidyBounds(s, Scr());
      BumpAnalyzed();
      ClearMarks();
      RunningScratch(formula, s, x, unitRefs, assumptions, Scr());
    }

    /** The conflict is where resolution starts. */
    method BeginResolution(conflict: Ref)
      requires SearchOk(Snap()) && ConflictFound(Snap(), conflict) && Clean(Snap(), Scr()) && StampsOk()
      modifies this`learned, this`analyzed, this`minimized, this`levelsTouched, this`chainStamps, this`chainStamp
      modifies this`resolutionChain, this`resolutionVars, this`rootChain, this`rootVars, this`minimizeChain,
               this`minimizeVars
      ensures Resolving(formula, Snap(), Met({}, {}, {}), |trail|, NO_LITERAL, conflict, conflict)
      ensures Collecting(Snap(), Scr(), learned, Met({}, {}, {}), |trail|)
      ensures Chaining(wantChain, Snap(), Chn(), Met({}, {}, {}), NO_LITERAL) && StampsOk()
    {
      hide SearchOk, ConflictFound, Clean, Resolving, Collecting, Chaining, StampsBelow;
      StartAnalysis();
      ConflictStarts(formula, Snap(), Scr(), conflict);
    }

    /** Derives, minimizes and orders the clause to learn. */
    method DeriveLearned(conflict: Ref) returns (ghost i: nat, ghost met: Met)
      requires SearchOk(Snap()) && DatabaseEntailed(formula, clauses) && ConflictFound(Snap(), conflict) && level > 0
      requires Clean(Snap(), Scr()) && StampsOk()
      modifies this`flags, this`analyzed, this`minimized, this`levelsTouched, this`seenFrames, this`learned
      modifies this`minimizeStack, this`chainStamps, this`chainStamp
      modifies this`resolutionChain, this`resolutionVars, this`rootChain, this`rootVars, this`minimizeChain,
               this`minimizeVars
      ensures LearnedOk(formula, Snap(), learned) && Tidy(Snap(), Scr()) && StampsOk()
      ensures wantChain ==>
                TightStep(clauses, learned, EmittedChain(Chn())) && NamesReasons(Snap(), EmittedChain(Chn()))
      ensures forall i :: 0 <= i < |learned| ==> Value(Snap(), learned[i]) == -1
      ensures ExactlyLearned(Snap(), conflict, learned) && PointFound(Snap(), conflict, i, met) && SeenAre(Scr(), met)
    {
      hide SearchOk, DatabaseEntailed, Collecting, Resolving, Chaining, Clean, Tidy, MinimizedTo, UipFound, LearnedOk,
        ChainsReady, TightStep, LratStep, ConflictFound, SecondHighest, Falsified, StampsBelow, EmittedChain, Value,
        PointFound, SeenAre, ExactlyLearned, MinimizedExactly, FramesOk, MiddleVars, Snap, Scr, Chn;
      SnapIs();
      BeginResolution(conflict);
      var uip: Lit;
      uip, met := DeriveUip(conflict);
      i := Position(Snap(), uip);
      ghost var kept, cut := MinimizeLearned(uip, met);
      PickSecondWatch(kept, uip);
      ChnIs();
      LearnedIsExact(formula, Snap(), conflict, met, seenFrames, kept, cut, learned, uip);
      Learned(wantChain, formula, Snap(), flags, Chn(), met, kept, uip, learned);
    }

    /** Derives the clause with everything else in order. */
    method DeriveWithin(conflict: Ref) returns (ghost i: nat, ghost met: Met)
      requires SearchOk(Snap()) && DatabaseEntailed(formula, clauses) && ConflictFound(Snap(), conflict) && level > 0
      requires Clean(Snap(), Scr()) && Equipped()
      modifies this`flags, this`analyzed, this`minimized, this`levelsTouched, this`seenFrames, this`learned
      modifies this`minimizeStack, this`chainStamps, this`chainStamp
      modifies this`resolutionChain, this`resolutionVars, this`rootChain, this`rootVars, this`minimizeChain,
               this`minimizeVars
      ensures LearnedOk(formula, Snap(), learned) && Tidy(Snap(), Scr()) && Equipped()
      ensures wantChain ==>
                TightStep(clauses, learned, EmittedChain(Chn())) && NamesReasons(Snap(), EmittedChain(Chn()))
      ensures forall i :: 0 <= i < |learned| ==> Value(Snap(), learned[i]) == -1
      ensures ExactlyLearned(Snap(), conflict, learned) && PointFound(Snap(), conflict, i, met) && SeenAre(Scr(), met)
    {
      hide SearchOk, DatabaseEntailed, ConflictFound, Clean, Tidy, LearnedOk, TightStep, LratStep, EmittedChain, Value,
           HeapCovers, RefsBelow, ProofOk, StampsOk, PointFound, SeenAre, ExactlyLearned, Snap, Scr, Chn;
      assert StampsOk();
      i, met := DeriveLearned(conflict);
    }

    /** Derives the clause to learn from a conflict: entailed by the formula, false on the trail, with a single
        literal of the current level in front. No mark is left behind. */
    method AnalyzeConflict(conflict: Ref)
      requires Invariant(assumptions) && WatchesOk(clauses, watches) && ConflictFound(Snap(), conflict) && level > 0
      modifies this`flags, this`analyzed, this`minimized, this`levelsTouched, this`seenFrames, this`learned
      modifies this`minimizeStack, this`chainStamps, this`chainStamp
      modifies this`resolutionChain, this`resolutionVars, this`rootChain, this`rootVars, this`minimizeChain,
               this`minimizeVars
      modifies heap
      ensures Invariant(assumptions) && Stopped(Snap()) && LearnedOk(formula, Snap(), learned)
      ensures wantChain ==>
                TightStep(clauses, learned, EmittedChain(Chn())) && NamesReasons(Snap(), EmittedChain(Chn()))
      ensures ExactlyLearned(Snap(), conflict, learned)
      ensures TookPart(Snap(), conflict, learned, analyzed)
      ensures heap.Acts() == Decayed(BumpedAll(old(heap.Acts()), analyzed), DECAY_FACTOR)
    {
      hide SearchOk, Represents, DatabaseEntailed, Running, WatchesOk, ConflictFound, Stopped, LearnedOk, Equipped,
           TightStep, LratStep, EmittedChain, Clean, Tidy, Value, PointFound, SeenAre, ExactlyLearned, TookPart,
           Decayed, BumpedAll, Snap, Scr, Chn;
      SnapIs();
      RunningConflictStops(formula, Snap(), Scr(), unitRefs, assumptions, conflict);
      ghost var s, x := Snap(), Scr();
      ghost var i, met := DeriveWithin(conflict);
      assert Snap() == s;
      FinishAnalysis(x, conflict, i, met);
    }

    // -------------------------------------------------------------------------------------------
    // Learning
    // -------------------------------------------------------------------------------------------

    /** What the search needs of the tables that are not part of the search state proper. */
    ghost predicate Equipped()
      reads this`variableCount, this`values, this`savedPhase, this`levels, this`chainStamps, this`chainStamp
      reads this`clauses, this`unitRefs, this`nextRef, this`formula, this`wantChain, this`proof, heap
    {
      HeapCovers() && |savedPhase| == |levels| && StampsOk() && RefsBelow(clauses, unitRefs, nextRef) && ProofOk()
    }

    /** Everything that holds between the steps of a run, watch soundness aside. */
    ghost predicate Invariant(assumed: seq<Lit>)
      reads this`formula, this`unitRefs, this`limits, this`counters, this`wantChain, this`proof
      reads this`variableCount, this`clauses, this`watches, this`values, this`levels, this`reasons, this`positions
      reads this`trail, this`control, this`propagated, this`level
      reads this`flags, this`analyzed, this`minimized, this`levelsTouched, this`seenFrames
      reads this`savedPhase, this`chainStamps, this`chainStamp, this`nextRef, heap
    {
      Running(formula, Snap(), Scr(), unitRefs, assumed) && Equipped() && Warranted(limits, counters)
    }

    lemma CoversIsValid()
      requires HeapCovers()
      ensures heap.Valid()
    {
    }

    /** Watches the first two literals of a clause, or lists it when it has fewer. */
    method AttachClause(ref: Ref)
      requires ref in clauses
      requires |clauses[ref].lits| >= 2 ==> clauses[ref].lits[0] < |watches| && clauses[ref].lits[1] < |watches|
      modifies this`watches, this`unitRefs
      ensures watches == if |clauses[ref].lits| >= 2 then Attached(old(watches), clauses[ref].lits, ref)
              else old(watches)
      ensures unitRefs == UnitsWith(old(unitRefs), clauses[ref].lits, ref)
    {
      var lits := clauses[ref].lits;
      if |lits| <= 1 {
        unitRefs := unitRefs + [ref];
        return;
      }
      var isBinary := |lits| == 2;
      watches := watches[lits[0] := watches[lits[0]] + [Watch(lits[1], ref, isBinary)]];
      watches := watches[lits[1] := watches[lits[1]] + [Watch(lits[0], ref, isBinary)]];
    }

    /** Stores the learned clause, watches it, and assigns its first literal. */
    method AddLearned() returns (ref: Ref)
      requires learned != [] && |savedPhase| == |levels|
      requires |learned| >= 2 ==> learned[0] < |watches| && learned[1] < |watches|
      requires InBounds(WithClause(Snap(), nextRef, Entry(learned, true)), learned[0]) && HeapCovers()
      modifies this`clauses, this`watches, this`unitRefs, this`nextRef
      modifies this`values, this`levels, this`reasons, this`positions, this`savedPhase, this`trail
      ensures HeapCovers()
      ensures ref == old(nextRef) && nextRef == ref + 1 && |savedPhase| == |levels|
      ensures clauses == old(clauses)[ref := Entry(learned, true)]
      ensures Snap() == AssignStep(WithClause(old(Snap()), ref, Entry(learned, true)), learned[0], Because(ref))
      ensures unitRefs == UnitsWith(old(unitRefs), learned, ref)
    {
      hide Attached, HeapCovers, AssignStep;
      ref := nextRef;
      nextRef := nextRef + 1;
      clauses := clauses[ref := Entry(learned, true)];
      AttachClause(ref);
      AssignInHeap(learned[0], Because(ref));
    }

    /** Lists the antecedents of the learned clause the consumer knows: root reasons, then those behind dropped
        literals, then the clauses resolved with, last one first. */
    method EmitAntecedents()
      modifies this`antecedents
      ensures wantChain ==> antecedents == Known(EmittedChain(Chn()), proof.ids)
    {
      hide Known, Reversed;
      antecedents := [];
      if wantChain {
        AppendAntecedents(rootChain);
        AppendAntecedents(minimizeChain);
        AppendBackwards(resolutionChain);
        KnownJoin(rootChain, minimizeChain, proof.ids);
        KnownJoin(rootChain + minimizeChain, Reversed(resolutionChain), proof.ids);
      }
    }

    /** Appends the clauses of a list the consumer knows. */
    method AppendAntecedents(chain: seq<Ref>)
      modifies this`antecedents
      ensures antecedents == old(antecedents) + Known(chain, proof.ids)
    {
      var i := 0;
      while i < |chain|
        invariant 0 <= i <= |chain| && antecedents == old(antecedents) + Known(chain[..i], proof.ids)
      {
        assert chain[..i + 1] == chain[..i] + [chain[i]];
        KnownMore(chain[..i], chain[i], proof.ids);
        if chain[i] in proof.ids {
          antecedents := antecedents + [chain[i]];
        }
        i := i + 1;
      }
      assert chain[..|chain|] == chain;
    }

    /** The same from the end of the list to its beginning. */
    method AppendBackwards(chain: seq<Ref>)
      modifies this`antecedents
      ensures antecedents == old(antecedents) + Known(Reversed(chain), proof.ids)
    {
      hide Known;
      var k := |chain|;
      assert chain[..k] == chain;
      while k > 0
        invariant 0 <= k <= |chain|
        invariant antecedents + Known(Reversed(chain[..k]), proof.ids) == old(antecedents)
                  + Known(Reversed(chain), proof.ids)
        decreases k
      {
        k := k - 1;
        ReversedLast(chain, k);
        KnownJoin([chain[k]], Reversed(chain[..k]), proof.ids);
        KnownOne(chain[k], proof.ids);
        if chain[k] in proof.ids {
          antecedents := antecedents + [chain[k]];
        }
      }
      assert Known(Reversed(chain[..0]), proof.ids) == [] by { KnownNone(proof.ids); }
    }

    /** Tells the proof consumer of the learned clause and its antecedents. */
    method ReportLearned(ref: Ref)
      modifies this`antecedents, this`proof
      ensures wantChain ==> antecedents == Known(EmittedChain(Chn()), old(proof).ids)
      ensures proof == if wantChain then TellDerivation(old(proof), ref, learned, EmittedChain(Chn())) else old(proof)
    {
      hide Known;
      EmitAntecedents();
      AllKnown(EmittedChain(Chn()), proof.ids);
      if wantChain {
        var whole := |antecedents| == |rootChain| + |minimizeChain| + |resolutionChain|;
        proof := Transcript(proof.log + [Derivation(ref, learned, antecedents)], proof.ids + {ref}, proof.stayed,
                            if whole then proof.lossy else proof.lossy + {|proof.log|});
      }
    }

    /** Goes back to where the learned clause forces a literal, adds the clause, assigns that literal and reports the
        clause with its antecedents. */
    method LearnClause()
      requires Invariant(assumptions) && Stopped(Snap()) && level > 0 && LearnedOk(formula, Snap(), learned)
      requires wantChain ==> TightStep(clauses, learned, EmittedChain(Chn()))
      modifies this`clauses, this`watches, this`unitRefs, this`nextRef, this`propagated, this`control, this`level
      modifies this`values, this`levels, this`reasons, this`positions, this`savedPhase, this`trail, this`seenFrames
      modifies this`antecedents, this`proof, heap`heap, heap`position
      ensures old(CanLearn(Snap(), learned, nextRef)) && Snap() == old(Learnt(Snap(), learned, nextRef))
      ensures clauses == old(clauses)[old(nextRef) := Entry(learned, true)] && old(nextRef) !in old(clauses)
      ensures wantChain ==> antecedents == old(Known(EmittedChain(Chn()), proof.ids))
      ensures proof == if wantChain then old(TellDerivation(proof, nextRef, learned, EmittedChain(Chn())))
              else old(proof)
      ensures Invariant(assumptions) && WatchInvariant(Snap())
      ensures Rank() > old(Rank()) && variableCount == old(variableCount)
    {
      hide Running, Stopped, LearnedOk, WatchInvariant, RankFrom, HeapCovers, StampsBelow, RefsBelow, CutFrames,
           UnitsWith, BackjumpLevel, SearchOk, CanLearn, Learnt, TranscriptOk, TightStep, LratStep, EmittedChain, Snap,
               Scr, Chn;
      SnapIs();
      LearnedFits();
      LearnedEntailed(formula, Snap(), learned);
      LearnedLog();
      AddAndReport();
      SnapIs();
    }

    /** The learned clause can be added, and everything holds once it has been. */
    lemma LearnedFits()
      requires Invariant(assumptions) && Stopped(Snap()) && level > 0 && LearnedOk(formula, Snap(), learned)
      ensures SearchOk(Snap()) && CanLearn(Snap(), learned, nextRef) && (|learned| > 1 ==> Var(learned[1]) < |levels|)
      ensures |seenFrames| == |control| && Learnt(Snap(), learned, nextRef).n == variableCount
      ensures var u, x := Learnt(Snap(), learned, nextRef), CutFrames(Scr(), BackjumpLevel(Snap(), learned));
              && Running(formula, u, x, UnitsWith(unitRefs, learned, nextRef), assumptions) && WatchInvariant(u)
              && RankFrom(u, 0, |assumptions| + variableCount + 1) > Rank()
      ensures RefsBelow(clauses[nextRef := Entry(learned, true)], UnitsWith(unitRefs, learned, nextRef), nextRef + 1)
      ensures nextRef !in clauses
    {
      ghost var s := Snap();
      hide Running, Stopped, LearnedOk, WatchInvariant, RankFrom, HeapCovers, StampsBelow, CutFrames, UnitsWith,
        BackjumpLevel, SearchOk, Represents, DatabaseEntailed, Clean, CanLearn, Learnt, TranscriptOk;
      RunningParts(formula, s, Scr(), unitRefs, assumptions);
      NextRef(clauses, unitRefs, nextRef, Entry(learned, true));
      RunningConflict(formula, s, Scr(), unitRefs, assumptions, learned, nextRef);
      LearntIs(s, learned, nextRef);
      LearnedTables(formula, s, learned);
    }

    /** What the proof consumer is about to be told keeps log and store in step. */
    lemma LearnedLog()
      requires ProofOk() && (wantChain ==> TightStep(clauses, learned, EmittedChain(Chn())))
               && Entails(formula, learned)
      ensures wantChain ==>
                TranscriptOk(formula, TellDerivation(proof, nextRef, learned, EmittedChain(Chn())),
                             clauses[nextRef := Entry(learned, true)], nextRef + 1)
    {
      if wantChain {
        DerivationOk(formula, proof, clauses, nextRef, learned, EmittedChain(Chn()));
      }
    }

    method AddAndReport()
      requires SearchOk(Snap()) && HeapCovers() && |seenFrames| == |control| && |savedPhase| == |levels|
      requires CanLearn(Snap(), learned, nextRef) && (|learned| > 1 ==> Var(learned[1]) < |levels|)
      modifies this`clauses, this`watches, this`unitRefs, this`nextRef, this`propagated, this`control, this`level
      modifies this`values, this`levels, this`reasons, this`positions, this`savedPhase, this`trail, this`seenFrames
      modifies this`antecedents, this`proof, heap`heap, heap`position
      ensures HeapCovers() && |savedPhase| == |levels|
      ensures Snap() == old(Learnt(Snap(), learned, nextRef))
      ensures Scr() == old(CutFrames(Scr(), BackjumpLevel(Snap(), learned)))
      ensures clauses == old(clauses)[old(nextRef) := Entry(learned, true)]
      ensures unitRefs == UnitsWith(old(unitRefs), learned, old(nextRef)) && nextRef == old(nextRef) + 1
      ensures wantChain ==> antecedents == old(Known(EmittedChain(Chn()), proof.ids))
      ensures proof == if wantChain then old(TellDerivation(proof, nextRef, learned, EmittedChain(Chn())))
              else old(proof)
    {
      hide SearchOk, HeapCovers, CanLearn, Learnt, CutFrames, UnitsWith, BackjumpLevel, EmittedChain, Snap, Scr, Chn;
      var ref := JumpAndAdd();
      ReportLearned(ref);
    }

    method JumpAndAdd() returns (ref: Ref)
      requires SearchOk(Snap()) && HeapCovers() && |seenFrames| == |control| && |savedPhase| == |levels|
      requires CanLearn(Snap(), learned, nextRef) && (|learned| > 1 ==> Var(learned[1]) < |levels|)
      modifies this`clauses, this`watches, this`unitRefs, this`nextRef, this`propagated, this`control, this`level
      modifies this`values, this`levels, this`reasons, this`positions, this`savedPhase, this`trail, this`seenFrames,
               heap`heap, heap`position
      ensures HeapCovers() && |savedPhase| == |levels|
      ensures Snap() == old(Learnt(Snap(), learned, nextRef))
      ensures Scr() == old(CutFrames(Scr(), BackjumpLevel(Snap(), learned)))
      ensures clauses == old(clauses)[old(nextRef) := Entry(learned, true)]
      ensures unitRefs == UnitsWith(old(unitRefs), learned, old(nextRef)) && ref == old(nextRef) && nextRef == ref + 1
    {
      hide SearchOk, HeapCovers, AssignStep, BacktrackStep, WithClause, CutFrames, UnitsWith, BackjumpLevel, Snap, Scr;
      SnapIs();
      Backjump();
      SnapIs();
      ref := AddLearned();
    }

    ghost function Rank(): int
      reads this`variableCount, this`clauses, this`watches, this`values, this`levels, this`reasons, this`positions
      reads this`trail, this`control, this`propagated, this`level, this`assumptions
    {
      RankFrom(Snap(), 0, |assumptions| + variableCount + 1)
    }

    /** Goes back to the level of the learned clause's second literal. */
    method Backjump()
      requires SearchOk(Snap()) && HeapCovers() && |seenFrames| == |control| && learned != []
      requires |learned| > 1 ==> Var(learned[1]) < |levels|
      modifies this`values, this`trail, this`propagated, this`control, this`level, this`seenFrames, heap`heap,
               heap`position
      ensures HeapCovers()
      ensures var b := old(BackjumpLevel(Snap(), learned));
              && (b < old(level) ==>
                    && b + 1 < |old(control)| && old(control)[b + 1].trailBegin <= |old(trail)|
                    && Snap() == BacktrackStep(old(Snap()), b) && Scr() == CutFrames(old(Scr()), b))
    {
      hide SearchOk, BacktrackStep, HeapCovers;
      var backjumpLevel := if |learned| > 1 then levels[Var(learned[1])] else 0;
      Backtrack(backjumpLevel);
    }

    // -------------------------------------------------------------------------------------------
    // Root units
    // -------------------------------------------------------------------------------------------

    /** What holds at the root before the unit clauses are assigned. */
    ghost predicate RootInvariant()
      reads this`formula, this`unitRefs, this`wantChain, this`proof
      reads this`variableCount, this`clauses, this`watches, this`values, this`levels, this`reasons, this`positions
      reads this`trail, this`control, this`propagated, this`level
      reads this`flags, this`analyzed, this`minimized, this`levelsTouched, this`seenFrames
      reads this`savedPhase, this`chainStamps, this`chainStamp, this`nextRef, heap
    {
      AtRoot(formula, Snap(), Scr(), unitRefs) && Equipped()
    }

    /** Assigns the literal of one listed clause; fails when that clause leaves no model. */
    method AssignRootUnit(ref: Ref) returns (ok: bool)
      requires RootInvariant() && ref in unitRefs
      modifies this`values, this`levels, this`reasons, this`positions, this`savedPhase, this`trail
      ensures RootInvariant() && Extends(old(Snap()), Snap())
      ensures if ok then UnitTrue(Snap(), ref) else UpRefutes(clauses) && UnitClash(Snap())
      ensures old(UnitTrue(Snap(), ref)) ==> ok && Snap() == old(Snap())
    {
      hide AtRoot, Extends, Covered, Support, StampsBelow, RefsBelow, AssignStep, Value, TranscriptOk, UnitClash;
      ghost var s := Snap();
      SameExtends(s);
      if ref !in clauses {
        return true;
      }
      UnitTables(formula, s, Scr(), unitRefs, ref);
      var lits := clauses[ref].lits;
      if lits == [] {
        return false;
      }
      var lit := lits[0];
      UnitValue(s, lit);
      var value := values[lit];
      if value < 0 {
        return false;
      }
      if value == 0 {
        RootUnit(formula, s, Scr(), unitRefs, ref);
        AssignInHeap(lit, Because(ref));
      }
      ok := true;
    }

    /** Assigning a literal takes no other variable from the branching candidates. */
    method AssignInHeap(lit: Lit, reason: Reason)
      requires InBounds(Snap(), lit) && |savedPhase| == |levels| && HeapCovers()
      modifies this`values, this`levels, this`reasons, this`positions, this`savedPhase, this`trail
      ensures Snap() == AssignStep(old(Snap()), lit, reason) && |savedPhase| == |levels| && HeapCovers()
    {
      hide Covered, Support;
      AssignedCovered(variableCount, values, lit, heap.Candidates());
      Assign(lit, reason);
    }

    /** Assigns every unit clause at the root; fails when one is empty or false. */
    method AssignRootUnits() returns (ok: bool)
      requires RootInvariant()
      modifies this`values, this`levels, this`reasons, this`positions, this`savedPhase, this`trail
      ensures RootInvariant() && Extends(old(Snap()), Snap())
      ensures if ok then UnitsTrue(Snap()) else UpRefutes(clauses) && UnitClash(Snap())
      ensures old(UnitClash(Snap())) ==> !ok
      ensures old(UnitsTrue(Snap())) ==> ok && Snap() == old(Snap())
    {
      hide AtRoot, Extends, Equipped, UnitTrue, UnitsTrue, TrueUpTo, UpRefutes, UnitClash;
      ghost var start := Snap();
      SameExtends(start);
      TrueNothing(start, unitRefs);
      var i := 0;
      while i < |unitRefs|
        invariant 0 <= i <= |unitRefs| && RootInvariant() && Extends(start, Snap()) && clauses == old(clauses)
        invariant TrueUpTo(Snap(), unitRefs, i) && (UnitsTrue(start) ==> Snap() == start)
      {
        ghost var before := Snap();
        UnitTrueAt(start, unitRefs[i]);
        ok := AssignRootUnit(unitRefs[i]);
        ExtendsTransitive(start, before, Snap());
        if !ok {
          return;
        }
        TrueOneMore(before, Snap(), unitRefs, i);
        i := i + 1;
      }
      AllUnitsTrue(formula, Snap(), Scr(), unitRefs);
      ClashStays(start, Snap());
      ClashIsNotTrue(Snap());
      ok := true;
    }

    // -------------------------------------------------------------------------------------------
    // Failed cores
    // -------------------------------------------------------------------------------------------

    /** Marks every variable of a reason clause. */
    method MarkAll(lits: Clause, ghost seen: set<nat>)
      requires FinalMarks(variableCount, flags, analyzed, seen) && ClauseOk(variableCount, lits)
      modifies this`flags, this`analyzed
      ensures FinalMarks(variableCount, flags, analyzed, seen + VarsOf(lits, |lits|))
    {
      hide FinalMarks, VarsOf;
      assert VarsOf(lits, 0) == {} by { VarsOfNone(lits); }
      assert seen + {} == seen;
      var i := 0;
      while i < |lits|
        invariant 0 <= i <= |lits| && FinalMarks(variableCount, flags, analyzed, seen + VarsOf(lits, i))
      {
        var v := Var(lits[i]);
        VarsOfMore(lits, i);
        MarkFinal(variableCount, flags, analyzed, seen + VarsOf(lits, i), v);
        assert seen + VarsOf(lits, i) + {v} == seen + VarsOf(lits, i + 1);
        if !flags[v].seen {
          flags := flags[v := flags[v].(seen := true)];
          analyzed := analyzed + [v];
        } else {
          assert seen + VarsOf(lits, i) == seen + VarsOf(lits, i + 1);
        }
        i := i + 1;
      }
    }

    /** Looks at one trail literal on the way back from a failed assumption. */
    method WalkStep(index: nat, ghost seen: set<nat>, ghost failed: Lit) returns (ghost after: set<nat>)
      requires SearchOk(Snap()) && AssumptionsOk(Snap(), assumptions) && level < |assumptions|
      requires Walking(Snap(), flags, analyzed, seen, failedCore, failed, assumptions, index + 1)
      modifies this`flags, this`analyzed, this`failedCore
      ensures Walking(Snap(), flags, analyzed, after, failedCore, failed, assumptions, index)
    {
      hide SearchOk, AssumptionsOk, TracedFrom, FinalMarks, VarsOf, Behind, AllBehind, CoreFrom;
      ghost var s := Snap();
      WalkTables(s, flags, analyzed, seen, failedCore, failed, assumptions, index);
      var lit := trail[index];
      var v := Var(lit);
      after := seen;
      if !flags[v].seen || levels[v] == 0 {
        WalkSkip(s, flags, analyzed, seen, failedCore, failed, assumptions, index);
        return;
      }
      var reason := reasons[v];
      if reason.NoReason? {
        WalkDecision(s, flags, analyzed, seen, failedCore, failed, assumptions, index);
        failedCore := failedCore + [lit];
        return;
      }
      ghost var before, listed := flags, analyzed;
      var lits := clauses[reason.ref].lits;
      MarkAll(lits, seen);
      WalkReason(s, before, listed, seen, failedCore, failed, assumptions, index, flags, analyzed);
      after := seen + VarsOf(lits, |lits|);
    }

    /** Collects, for an assumption found false, the assumptions it contradicts. */
    method AnalyzeFinal(failed: Lit)
      requires Prepared(formula, Snap(), Scr(), unitRefs) && AssumptionsOk(Snap(), assumptions)
      requires level < |assumptions| && failed == assumptions[level] && Value(Snap(), failed) == -1
      modifies this`flags, this`analyzed, this`failedCore
      ensures Inconsistent(formula, failedCore) && failedCore != [] && forall l :: l in failedCore ==> l in assumptions
      ensures failedCore == CoreOf(Snap(), failed) && Clean(Snap(), Scr())
    {
      hide SearchOk, AssumptionsOk, Represents, UnitsListed, Walking, Value, Inconsistent, CoreOf;
      ghost var s := Snap();
      failedCore := [failed];
      FinalStarts(formula, s, Scr(), failed, assumptions);
      var failedVar := Var(failed);
      flags := flags[failedVar := flags[failedVar].(seen := true)];
      analyzed := [failedVar];
      ghost var seen := {failedVar};
      var index: nat := |trail|;
      while index > 0
        invariant Snap() == s && Walking(s, flags, analyzed, seen, failedCore, failed, assumptions, index)
        invariant |flags| == old(|flags|) && AssumptionsOk(s, assumptions) && SearchOk(s)
        decreases index
      {
        index := index - 1;
        seen := WalkStep(index, seen, failed);
        WalkSize(s, flags, analyzed, seen, failedCore, failed, assumptions, index);
      }
      WalkDone(formula, s, flags, analyzed, seen, failedCore, failed, assumptions);
      flags := ClearFlags(flags, analyzed);
      analyzed := [];
    }

    // -------------------------------------------------------------------------------------------
    // Backtracking, restarts and reduction within a run
    // -------------------------------------------------------------------------------------------

    /** Goes back to a level with everything in order. */
    method GoBack(target: nat, ghost assumed: seq<Lit>)
      requires Invariant(assumed) && SoundOrStopped(Snap(), target)
      modifies this`values, this`trail, this`propagated, this`control, this`level, this`seenFrames, heap`heap,
               heap`position
      ensures Invariant(assumed) && WatchInvariant(Snap()) && Snap() == BackTo(old(Snap()), target)
      ensures level == if target < old(level) then target else old(level)
    {
      hide Running, SearchOk, Represents, Clean, WatchInvariant, HeapCovers, StampsBelow, RefsBelow, BacktrackStep,
           CutFrames, ProofOk;
      ghost var s := Snap();
      RunningParts(formula, s, Scr(), unitRefs, assumed);
      RunningBackTo(formula, s, Scr(), unitRefs, assumed, target);
      Backtrack(target);
    }

    /** Takes assigned variables off the top of the heap. */
    method DropAssigned()
      requires HeapCovers() && |values| == 2 * variableCount + 2
      modifies heap`heap, heap`position
      ensures HeapCovers() && (heap.heap != [] ==> 1 <= heap.Top() <= variableCount && values[2 * heap.Top()] == 0)
    {
      hide Support, Tables, OrderedAbove, RanksBelow;
      while heap.heap != [] && values[2 * heap.Top()] != 0
        invariant HeapCovers()
        decreases |heap.heap|
      {
        var _ := heap.Pop();
      }
    }

    /** Restarts, keeping the longest prefix of search levels whose decisions would be made again: each of them
        ranks at least as high as the best unassigned variable. */
    method Restart()
      requires Invariant(assumptions) && WatchInvariant(Snap())
      modifies this`values, this`trail, this`propagated, this`control, this`level, this`seenFrames, heap`heap,
               heap`position
      ensures Invariant(assumptions) && WatchInvariant(Snap()) && Snap() == BackTo(old(Snap()), level)
      ensures old(level) <= |assumptions| ==> level == old(level)
      ensures old(level) > |assumptions| ==> |assumptions| <= level <= old(level)
      ensures old(level) > |assumptions| ==> MadeAgain(old(Snap()), heap.score, |assumptions|, level)
    {
      hide Running, SearchOk, Represents, Clean, WatchInvariant, HeapCovers, StampsBelow, RefsBelow, BackTo, ProofOk,
           MadeAgain;
      ghost var s := Snap();
      RunningParts(formula, s, Scr(), unitRefs, assumptions);
      var reuse := |assumptions|;
      if reuse < level {
        DropAssigned();
        reuse := ReusedLevels();
      }
      BackNowhere(s, reuse);
      StillSound(Snap(), reuse);
      GoBack(reuse, assumptions);
    }

    /** The last level to keep: the first one whose successor's decision ranks below the best candidate. */
    method ReusedLevels() returns (reuse: nat)
      requires Running(formula, Snap(), Scr(), unitRefs, assumptions) && |assumptions| < level
      requires HeapCovers() && |values| == 2 * variableCount + 2
      requires heap.heap != [] ==> 1 <= heap.Top() <= variableCount && values[2 * heap.Top()] == 0
      ensures |assumptions| <= reuse <= level && MadeAgain(Snap(), heap.score, |assumptions|, reuse)
    {
      hide Running, SearchOk, Represents, Clean, Covered, Support, Tables, OrderedAbove, RanksBelow, MadeAgain;
      RunningDecisions(formula, Snap(), Scr(), unitRefs, assumptions);
      reuse := |assumptions|;
      if heap.heap != [] {
        var nextScore := heap.score[heap.Top()];
        while reuse < level
          invariant |assumptions| <= reuse <= level
          invariant forall k :: |assumptions| < k <= reuse ==> heap.score[Var(control[k].decision)] >= nextScore
        {
          var decision := control[reuse + 1].decision;
          if decision == NO_LITERAL || heap.score[Var(decision)] < nextScore {
            break;
          }
          reuse := reuse + 1;
        }
      }
      WouldBeMadeAgain(reuse);
    }

    /** The levels kept are those before the first one whose decision ranks below the best candidate. */
    lemma WouldBeMadeAgain(reuse: nat)
      requires HeapCovers() && |values| == 2 * variableCount + 2 && |assumptions| <= reuse <= level < |control|
      requires forall k :: |assumptions| < k <= level ==> Var(control[k].decision) < |heap.score|
      requires heap.heap == [] ==> reuse == |assumptions|
      requires heap.heap != [] ==> 1 <= heap.Top() <= variableCount && values[2 * heap.Top()] == 0
      requires heap.heap != [] ==>
                 forall k :: |assumptions| < k <= reuse ==>
                     heap.score[Var(control[k].decision)] >= heap.score[heap.Top()]
      requires heap.heap != [] && reuse < level ==>
               heap.score[Var(control[reuse + 1].decision)] < heap.score[heap.Top()]
      ensures MadeAgain(Snap(), heap.score, |assumptions|, reuse)
    {
      hide Tables, OrderedAbove;
      if heap.heap == [] {
        NoCandidates();
      } else {
        assert IsOpen(Snap(), heap.Top());
      }
    }

    /** The clauses that are reasons on the trail. */
    method ProtectTrailReasons() returns (protected: set<Ref>)
      requires SearchOk(Snap())
      ensures protected == TrailReasons(Snap())
    {
      hide SearchOk;
      protected := {};
      var i := 0;
      while i < |trail|
        invariant 0 <= i <= |trail| && protected == ReasonsUpTo(Snap(), i)
      {
        TrailTables(Snap(), i);
        var reason := reasons[Var(trail[i])];
        ReasonsMore(Snap(), i);
        if reason.Because? {
          protected := protected + {reason.ref};
        }
        i := i + 1;
      }
    }

    /** The entries of live clauses, moved up in place. */
    method FlushList(l: Lit)
      requires l < |watches|
      modifies this`watches
      ensures watches == old(watches)[l := Alive(old(watches)[l], clauses.Keys)]
    {
      hide Alive;
      ghost var list := watches[l];
      var read, write: nat := 0, 0;
      assert watches[l][..0] == Alive(list[..0], clauses.Keys) by { AliveNone(list, clauses.Keys); }
      while read < |watches[l]|
        invariant l < |watches| == old(|watches|) && |watches[l]| == |list| && write <= read <= |list|
        invariant watches == old(watches)[l := watches[l]]
        invariant watches[l][..write] == Alive(list[..read], clauses.Keys) && watches[l][read..] == list[read..]
        decreases |list| - read
      {
        var entry := watches[l][read];
        MovedDown(list, watches[l], write, read);
        AliveStep(list, read, clauses.Keys);
        if entry.ref in clauses {
          watches := watches[l := watches[l][write := entry]];
          write := write + 1;
        }
        read := read + 1;
      }
      assert list[..|list|] == list;
      watches := watches[l := watches[l][..write]];
    }

    /** Drops the entries of deleted clauses from every list. */
    method FlushWatches()
      modifies this`watches
      ensures |watches| == old(|watches|)
      ensures forall l :: 0 <= l < |watches| ==> watches[l] == Alive(old(watches)[l], clauses.Keys)
    {
      var l := 0;
      while l < |watches|
        invariant 0 <= l <= |watches| == old(|watches|)
        invariant forall k :: 0 <= k < l ==> watches[k] == Alive(old(watches)[k], clauses.Keys)
        invariant forall k :: l <= k < |watches| ==> watches[k] == old(watches)[k]
      {
        FlushList(l);
        l := l + 1;
      }
    }

    /** Deletes some redundant clauses, none of them a reason, and what the watch lists say of them. */
    method Reduce()
      requires Invariant(assumptions) && WatchInvariant(Snap())
      modifies this`clauses, this`watches
      ensures Invariant(assumptions) && WatchInvariant(Snap()) && Pruned(old(Snap()), Snap()) && Rank() == old(Rank())
      ensures forall r :: r in old(clauses) && !old(clauses)[r].redundant ==> r in clauses
      ensures AllAssigned(Snap()) == old(AllAssigned(Snap())) && KeepsReasons(old(Snap()), clauses)
    {
      hide Running, SearchOk, WatchInvariant, HeapCovers, StampsOk, RankFrom, KeepsReasons, Represents, Clean, Scr,
           TranscriptOk, Pruned, AllAssigned, RefsBelow;
      ghost var s := Snap();
      RunningParts(formula, s, Scr(), unitRefs, assumptions);
      var victims: set<Ref> := *;
      var protected := ProtectTrailReasons();
      DropClauses(victims, protected);
      ReasonsSurvive(s, clauses, protected);
      RunningPrune(formula, s, Snap(), Scr(), unitRefs, assumptions);
      RankSame(s, Snap(), 0, |assumptions| + variableCount + 1);
      PrunedTables(s, Snap(), unitRefs, nextRef, formula, proof);
    }

    /** Reduces, or not. */
    method ReduceIfDue()
      requires Invariant(assumptions) && WatchInvariant(Snap())
      modifies this`clauses, this`watches
      ensures Invariant(assumptions) && WatchInvariant(Snap()) && Rank() == old(Rank())
      ensures AllAssigned(Snap()) == old(AllAssigned(Snap())) && Reduced(old(Snap()), Snap())
      ensures propagated == old(propagated) && trail == old(trail)
    {
      hide Invariant, WatchInvariant, Pruned, AllAssigned, RankFrom, KeepsReasons, Snap;
      SnapIs();
      var reduce: bool := *;
      if reduce {
        Reduce();
      }
      SnapIs();
    }

    /** Deletes the victims that are redundant and not protected, and flushes the watch lists. */
    method DropClauses(victims: set<Ref>, protected: set<Ref>)
      modifies this`clauses, this`watches
      ensures clauses == map r | r in old(clauses)
              && (r !in victims || !old(clauses)[r].redundant || r in protected) :: old(clauses)[r]
      ensures Pruned(old(Snap()), Snap())
    {
      hide Alive;
      clauses := map r | r in clauses && (r !in victims || !clauses[r].redundant || r in protected) :: clauses[r];
      FlushWatches();
    }

    // -------------------------------------------------------------------------------------------
    // Inprocessing
    // -------------------------------------------------------------------------------------------

    /** Empties the watch lists and the list of units and attaches every clause again. */
    method RebuildPropagationState()
      requires DatabaseOk(variableCount, clauses) && |watches| == 2 * variableCount + 2
      modifies this`watches, this`unitRefs
      ensures WatchesOk(clauses, watches) && |watches| == old(|watches|)
      ensures UnitsListed(clauses, unitRefs) && forall r :: r in unitRefs ==> r in clauses
    {
      hide DatabaseOk, Watched, UnitsSoFar, Attached, UnitsWith, WatchesOk, UnitsListed;
      watches := seq(|watches|, _ => []);
      unitRefs := [];
      ghost var done: set<Ref> := {};
      RebuildNone(clauses, watches);
      var todo := clauses.Keys;
      while todo != {}
        invariant todo <= clauses.Keys && done == clauses.Keys - todo && |watches| == 2 * variableCount + 2
        invariant Watched(clauses, watches, done) && UnitsSoFar(clauses, unitRefs, done)
        decreases |todo|
      {
        var ref :| ref in todo;
        RebuildOne(variableCount, clauses, watches, unitRefs, done, ref);
        AttachClause(ref);
        todo := todo - {ref};
        done := done + {ref};
      }
      RebuiltAll(clauses, watches, unitRefs, done);
    }

    /** A conflict is counted; counting it may reach a limit, and now and then ages the activities. */
    method NoteConflict()
      requires heap.Valid()
      modifies this`counters, heap
      ensures heap.Valid() && |heap.score| == old(|heap.score|) && heap.Candidates() == old(heap.Candidates())
      ensures heap.Acts() == old(heap.Acts()) || heap.Acts() == ScaledBy(0.5, old(heap.Acts()))
      ensures counters == CountConflict(limits, old(counters), counters.restartDue)
    {
      hide Support, Tables, OrderedAbove;
      var due: bool := *;
      counters := CountConflict(limits, counters, due);
      var maintain: bool := *;
      if maintain {
        heap.Rescale(0.5);
      }
    }

    /** The answer to a conflict at the root: unsatisfiable, unless counting the conflict reached a limit. */
    method RootConflict() returns (answer: Status)
      requires heap.Valid()
      modifies this`counters, heap
      ensures heap.Valid() && (old(HeapCovers()) ==> HeapCovers())
              && counters == CountConflict(limits, old(counters), counters.restartDue)
      ensures old(Settled()) ==> Settled()
      ensures answer == if counters.terminated then Unknown else Unsat
    {
      hide Support, Covered, WellFormed, Represents, RefsBelow, TranscriptOk;
      NoteConflict();
      answer := if counters.terminated then Unknown else Unsat;
    }

    /** Deletes clauses that others subsume. Reasons on the trail are reported deleted like any other clause, but
        stay. */
    method SubsumeClauses(protected: set<Ref>) returns (ghost found: seq<Subsumption.Item>)
      requires ProofOk()
      modifies this`clauses, this`proof, subsumer
      ensures ProofOk() && EpochOk(old(clauses), protected, clauses) && Snap() == old(Snap()).(db := clauses)
      ensures Subsumption.Collected(found, old(clauses), old(subsumer.Marked()))
      ensures subsumer.Now() == Subsumption.Swept(found, subsumer.promotable, |found|)
              && subsumer.promotable == old(clauses.Keys)
      ensures forall r :: r in clauses <==>
              r in old(clauses) && (r !in Subsumption.DeletedIn(subsumer.log) || r in protected)
      ensures Subsumption.LogTells(subsumer.Now())
      ensures proof == if wantChain then TellDeletions(old(proof), Subsumption.Deletions(subsumer.log), clauses.Keys)
              else old(proof)
    {
      hide TranscriptOk, EpochOk, TellDeletions;
      found := RunSubsumer(protected);
      TakeOver(protected);
      ReportDeletions(subsumer.log);
    }

    /** Runs the pass on the clauses held. */
    method RunSubsumer(protected: set<Ref>) returns (ghost found: seq<Subsumption.Item>)
      modifies subsumer
      ensures EpochOk(clauses, protected, subsumer.database)
      ensures Subsumption.Collected(found, clauses, old(subsumer.Marked()))
      ensures subsumer.Now() == Subsumption.Swept(found, subsumer.promotable, |found|)
              && subsumer.promotable == clauses.Keys
      ensures forall r :: r in subsumer.database <==>
              r in clauses && (r !in Subsumption.DeletedIn(subsumer.log) || r in protected)
      ensures Subsumption.LogTells(subsumer.Now())
    {
      hide Subsumption.Collected, Subsumption.Swept, Subsumption.Stored, Subsumption.CheckedClean, Represents;
      hide Subsumption.Flushed, Subsumption.DeletedIn, Subsumption.ErasedPass;
      subsumer.Load(clauses, protected);
      ghost var store;
      found, store := subsumer.Run();
    }

    /** Takes over the clauses the pass has left. */
    method TakeOver(ghost protected: set<Ref>)
      requires ProofOk() && EpochOk(clauses, protected, subsumer.database)
      modifies this`clauses
      ensures ProofOk() && clauses == subsumer.database && Snap() == old(Snap()).(db := clauses)
    {
      hide TranscriptOk, Represents;
      if wantChain {
        FewerOk(formula, proof, clauses, subsumer.database, nextRef);
      }
      clauses := subsumer.database;
    }

    /** Tells the proof consumer of every clause deleted. */
    method ReportDeletions(log: seq<Subsumption.Event>)
      requires ProofOk()
      modifies this`proof
      ensures ProofOk()
      ensures proof == if wantChain then TellDeletions(old(proof), Subsumption.Deletions(log), clauses.Keys)
              else old(proof)
    {
      hide TranscriptOk;
      var i := 0;
      while i < |log|
        invariant 0 <= i <= |log| && ProofOk()
        invariant proof == if wantChain then TellDeletions(old(proof), Subsumption.Deletions(log[..i]), clauses.Keys)
                  else old(proof)
      {
        assert log[..i + 1] == log[..i] + [log[i]];
        Subsumption.DeletionsMore(log[..i], log[i]);
        if wantChain && log[i].Deleted? {
          DeletionOk(formula, proof, clauses, nextRef, log[i].ref);
          DeletionsMore(old(proof), Subsumption.Deletions(log[..i]), log[i].ref, clauses.Keys);
          proof := TellDeletion(proof, log[i].ref, log[i].ref in clauses);
        }
        i := i + 1;
      }
      assert log[..|log|] == log;
    }

    /** Runs an epoch at the root and puts the search back in order. Of the two passes enabled, subsumption runs unless
        the budget leaves it out; the other one changes no clause. */
    method RunEpoch() returns (ran: bool, ghost found: seq<Subsumption.Item>)
      requires Invariant(assumptions) && level == 0
      modifies this`clauses, this`watches, this`unitRefs, this`propagated, this`proof, subsumer
      ensures RootInvariant() && UnitsTrue(Snap()) && SameTrail(old(Snap()), Snap()) && propagated == 0
      ensures EpochOk(old(clauses), TrailReasons(old(Snap())), clauses)
      ensures ran ==> Subsumption.Collected(found, old(clauses), old(subsumer.Marked()))
      ensures ran ==> subsumer.Now() == Subsumption.Swept(found, old(clauses.Keys), |found|)
      ensures ran ==> forall r :: r in clauses <==>
              r in old(clauses) && (r !in Subsumption.DeletedIn(subsumer.log) || r in TrailReasons(old(Snap())))
      ensures ran ==> Subsumption.LogTells(subsumer.Now())
      ensures ran && wantChain ==> proof == TellDeletions(old(proof), Subsumption.Deletions(subsumer.log), clauses.Keys)
      ensures !ran ==> clauses == old(clauses) && proof == old(proof)
    {
      hide Running, SearchOk, Clean, AtRoot, EpochOk, Equipped, SameTrail, TrailReasons, UnitsTrue, Snap, Scr,
           TellDeletions, HeapCovers, StampsOk, RefsBelow, ProofOk;
      SnapIs();
      ghost var s, x, units := Snap(), Scr(), unitRefs;
      RunningParts(formula, s, x, units, assumptions);
      var protected := ProtectTrailReasons();
      ran, found := *, [];
      EpochNothing(clauses, protected);
      EquippedParts();
      if ran {
        found := SubsumeClauses(protected);
      }
      Requeue(s, x, units, protected);
    }

    lemma EquippedParts()
      requires Equipped()
      ensures ProofOk() && RefsBelow(clauses, unitRefs, nextRef) && HeapCovers() && |savedPhase| == |levels|
              && StampsOk()
    {
    }

    /** Watches the clauses an epoch has left and queues the whole trail again. */
    method Requeue(ghost s: State, ghost x: Scratch, ghost units: seq<Ref>, ghost protected: set<Ref>)
      requires Running(formula, s, x, units, assumptions) && s.level == 0 && protected == TrailReasons(s)
      requires s == Snap().(db := s.db) && x == Scr() && EpochOk(s.db, protected, clauses) && ProofOk()
      requires HeapCovers() && |savedPhase| == |levels| && StampsOk() && RefsBelow(s.db, units, nextRef)
      modifies this`watches, this`unitRefs, this`propagated
      ensures RootInvariant() && UnitsTrue(Snap()) && SameTrail(s, Snap()) && propagated == 0
    {
      hide Running, SearchOk, AtRoot, EpochOk, SameTrail, TrailReasons, UnitsTrue, DatabaseOk, WatchesOk, UnitsListed,
           Represents, RefsBelow, Covered, Branchable, StampsOk, ProofOk, DatabaseEntailed, Clean;
      RunningParts(formula, s, x, units, assumptions);
      SearchParts(s);
      EpochTables(variableCount, s.db, protected, clauses);
      RebuildPropagationState();
      EpochRefs(s.db, protected, clauses, units, unitRefs, nextRef);
      propagated := 0;
      ReasonsKept(s);
      SameButWatches(s, Snap());
      EpochKeeps(formula, s, x, units, assumptions, protected, Snap(), unitRefs);
    }

    /** Restarts from the root with an inprocessing epoch, when one is due. */
    method RunInprocessIfDue()
      requires Invariant(assumptions) && WatchInvariant(Snap())
      modifies this`clauses, this`watches, this`unitRefs, this`propagated
      modifies this`values, this`trail, this`control, this`level, this`seenFrames, this`proof
      modifies this`levels, this`reasons, this`positions, this`savedPhase, heap`heap, heap`position, subsumer
      ensures Invariant(assumptions) && WatchInvariant(Snap()) && counters == old(counters)
      ensures Simplified(old(Snap()), Snap())
    {
      hide Running, WatchInvariant, Equipped, AtRoot, UnitsTrue, BackTo, SoundOrStopped, Snap, Scr, Stated, SameTrail,
        TrailReasons, EpochOk;
      StillSound(Snap(), 0);
      var due: bool := *;
      if !due {
        return;
      }
      GoBack(0, assumptions);
      SnapIs();
      var ran: bool := *;
      if !ran {
        return;
      }
      var subsumed, _ := RunEpoch();
      SnapIs();
      ResumeAtRoot();
    }

    /** Assigns the root units after an epoch. An epoch of this engine leaves none that is false, so the contradiction
        that would be counted here is never met. */
    method ResumeAtRoot()
      requires RootInvariant() && UnitsTrue(Snap()) && Warranted(limits, counters)
      modifies this`values, this`levels, this`reasons, this`positions, this`savedPhase, this`trail
      ensures Invariant(assumptions) && WatchInvariant(Snap()) && Snap() == old(Snap())
    {
      hide AtRoot, WatchInvariant, UnitsTrue, Equipped, Running, Stated, Extends, UpRefutes;
      var ok := AssignRootUnits();
      if !ok {
        assert false;
      }
      RootRuns(formula, Snap(), Scr(), unitRefs, assumptions);
    }

    /** A conflict at the root leaves no model. */
    lemma RootConflictRefutes(conflict: Ref)
      requires Invariant(assumptions) && ConflictFound(Snap(), conflict) && level == 0
      ensures UpRefutes(clauses) && Settled() && heap.Valid()
    {
      RunningUnsat(formula, Snap(), Scr(), unitRefs, assumptions, conflict);
      RunIsStated(assumptions);
    }

    /** Back at the root everything may be propagated again. */
    lemma RunIsAtRoot()
      requires Invariant(assumptions) && WatchInvariant(Snap()) && level == 0
      ensures RootInvariant() && Warranted(limits, counters)
    {
      RootAgain(formula, Snap(), Scr(), unitRefs, assumptions);
    }

    /** At the root the clauses held mean what was stated. */
    lemma RootIsStated()
      requires RootInvariant()
      ensures Stated() && heap.Valid()
    {
      OkIsWellFormed(variableCount, clauses);
    }

    /** Within a run the clauses held mean what was stated. */
    lemma RunIsStated(assumed: seq<Lit>)
      requires Invariant(assumed)
      ensures Stated() && heap.Valid() && Settled()
    {
      OkIsWellFormed(variableCount, clauses);
    }

    // -------------------------------------------------------------------------------------------
    // The search loop
    // -------------------------------------------------------------------------------------------

    /** Learns from a conflict above the root and goes on from the level it points to. */
    method HandleConflict(conflict: Ref) returns (ghost chain: seq<Ref>)
      requires Invariant(assumptions) && WatchesOk(clauses, watches) && ConflictFound(Snap(), conflict) && level > 0
      modifies this`flags, this`analyzed, this`minimized, this`levelsTouched, this`seenFrames, this`learned
      modifies this`minimizeStack, this`chainStamps, this`chainStamp
      modifies this`resolutionChain, this`resolutionVars, this`rootChain, this`rootVars, this`minimizeChain,
               this`minimizeVars
      modifies this`clauses, this`watches, this`unitRefs, this`nextRef, this`propagated, this`control, this`level
      modifies this`values, this`levels, this`reasons, this`positions, this`savedPhase, this`trail
      modifies this`antecedents, this`counters, this`proof, heap
      ensures clauses == old(clauses)[old(nextRef) := Entry(learned, true)] && Entails(formula, learned)
      ensures LearnedOk(formula, old(Snap()), learned) && ExactlyLearned(old(Snap()), conflict, learned)
      ensures AddsNew(old(clauses), learned) && old(nextRef) !in old(clauses)
      ensures CanLearn(old(Snap()), learned, old(nextRef)) && Snap() == Learnt(old(Snap()), learned, old(nextRef))
      ensures TookPart(old(Snap()), conflict, learned, analyzed)
      ensures Aged(old(heap.Acts()), analyzed, heap.Acts())
      ensures wantChain ==> TightStep(old(clauses), learned, chain) && NamesReasons(old(Snap()), chain)
      ensures wantChain ==> antecedents == Known(chain, old(proof.ids))
      ensures proof == if wantChain then TellDerivation(old(proof), old(nextRef), learned, chain) else old(proof)
      ensures wantChain ==>
                (LratStep(Live(old(proof.log)), learned, antecedents) <==>
                 forall h :: h in chain ==> h in old(proof.ids))
      ensures counters == CountConflict(limits, old(counters), counters.restartDue)
      ensures Invariant(assumptions) && WatchInvariant(Snap()) && Rank() > old(Rank())
              && variableCount == old(variableCount)
    {
      hide Invariant, WatchesOk, ConflictFound, Stopped, LearnedOk, WatchInvariant, RankFrom, TightStep, LratStep,
           EmittedChain, Entails, NamesReasons, Known, TellDerivation, Live, ExactlyLearned, TookPart, AddsNew,
               CanLearn, Learnt, Decayed, BumpedAll, Snap, Chn;
      chain := LearnFrom(conflict);
      NoteLearned();
    }

    /** Analyzes a conflict and learns the clause found. */
    method LearnFrom(conflict: Ref) returns (ghost chain: seq<Ref>)
      requires Invariant(assumptions) && WatchesOk(clauses, watches) && ConflictFound(Snap(), conflict) && level > 0
      modifies this`flags, this`analyzed, this`minimized, this`levelsTouched, this`seenFrames, this`learned
      modifies this`minimizeStack, this`chainStamps, this`chainStamp
      modifies this`resolutionChain, this`resolutionVars, this`rootChain, this`rootVars, this`minimizeChain,
               this`minimizeVars
      modifies this`clauses, this`watches, this`unitRefs, this`nextRef, this`propagated, this`control, this`level
      modifies this`values, this`levels, this`reasons, this`positions, this`savedPhase, this`trail
      modifies this`antecedents, this`proof, heap
      ensures Invariant(assumptions) && WatchInvariant(Snap()) && Rank() > old(Rank())
              && variableCount == old(variableCount)
      ensures clauses == old(clauses)[old(nextRef) := Entry(learned, true)] && Entails(formula, learned)
      ensures LearnedOk(formula, old(Snap()), learned) && ExactlyLearned(old(Snap()), conflict, learned)
      ensures AddsNew(old(clauses), learned) && old(nextRef) !in old(clauses)
      ensures CanLearn(old(Snap()), learned, old(nextRef)) && Snap() == Learnt(old(Snap()), learned, old(nextRef))
      ensures TookPart(old(Snap()), conflict, learned, analyzed)
      ensures heap.Acts() == Decayed(BumpedAll(old(heap.Acts()), analyzed), DECAY_FACTOR)
      ensures wantChain ==> TightStep(old(clauses), learned, chain) && NamesReasons(old(Snap()), chain)
      ensures wantChain ==> antecedents == Known(chain, old(proof.ids))
      ensures proof == if wantChain then TellDerivation(old(proof), old(nextRef), learned, chain) else old(proof)
      ensures wantChain ==>
                (LratStep(Live(old(proof.log)), learned, antecedents) <==>
                 forall h :: h in chain ==> h in old(proof.ids))
    {
      hide Invariant, WatchesOk, ConflictFound, Stopped, LearnedOk, WatchInvariant, RankFrom, TightStep, LratStep,
           EmittedChain, Entails, NamesReasons, Known, TellDerivation, Live, ExactlyLearned, TookPart, AddsNew,
               CanLearn, Learnt, Decayed, BumpedAll, Snap, Chn;
      chain := Teach(conflict);
      LearnClause();
    }

    /** What a conflict teaches, and the chain that proves it. */
    method Teach(conflict: Ref) returns (ghost chain: seq<Ref>)
      requires Invariant(assumptions) && WatchesOk(clauses, watches) && ConflictFound(Snap(), conflict) && level > 0
      modifies this`flags, this`analyzed, this`minimized, this`levelsTouched, this`seenFrames, this`learned
      modifies this`minimizeStack, this`chainStamps, this`chainStamp
      modifies this`resolutionChain, this`resolutionVars, this`rootChain, this`rootVars, this`minimizeChain,
               this`minimizeVars
      modifies heap
      ensures LearnedOk(formula, Snap(), learned) && ExactlyLearned(Snap(), conflict, learned)
      ensures AddsNew(clauses, learned) && Entails(formula, learned) && TookPart(Snap(), conflict, learned, analyzed)
      ensures heap.Acts() == Decayed(BumpedAll(old(heap.Acts()), analyzed), DECAY_FACTOR)
      ensures chain == EmittedChain(Chn())
      ensures wantChain ==> TightStep(clauses, learned, chain) && NamesReasons(Snap(), chain)
      ensures wantChain ==>
                (LratStep(Live(proof.log), learned, Known(chain, proof.ids)) <==>
                 forall h :: h in chain ==> h in proof.ids)
      ensures Invariant(assumptions) && Stopped(Snap())
    {
      hide Invariant, WatchesOk, ConflictFound, Stopped, LearnedOk, TightStep, LratStep, EmittedChain, Entails,
           NamesReasons, Known, Live, ExactlyLearned, TookPart, AddsNew, Decayed, BumpedAll, Snap, Chn;
      AnalyzeConflict(conflict);
      LearnedEntailed(formula, Snap(), learned);
      TaughtIsNew();
      chain := EmittedChain(Chn());
      KnownStep(chain);
    }

    /** The clause just derived was not known. */
    lemma TaughtIsNew()
      requires Invariant(assumptions) && Stopped(Snap()) && level > 0 && LearnedOk(formula, Snap(), learned)
      ensures AddsNew(clauses, learned)
    {
      LearnedIsNew(formula, Snap(), Scr(), unitRefs, assumptions, learned);
    }

    /** What the consumer is told is a proof step for it if and only if it knows every clause of the chain. */
    lemma KnownStep(chain: seq<Ref>)
      requires Invariant(assumptions) && Entails(formula, learned)
      requires wantChain ==> TightStep(clauses, learned, chain)
      ensures wantChain ==>
                (LratStep(Live(proof.log), learned, Known(chain, proof.ids)) <==>
                 forall h :: h in chain ==> h in proof.ids)
    {
      hide Running, HeapCovers, StampsOk, RefsBelow, TranscriptOk, TightStep, LratStep;
      if wantChain {
        DerivationOk(formula, proof, clauses, nextRef, learned, chain);
      }
    }

    /** Counts the conflict behind a learned clause. */
    method NoteLearned()
      requires Invariant(assumptions)
      modifies this`counters, heap
      ensures Invariant(assumptions) && counters == CountConflict(limits, old(counters), counters.restartDue)
      ensures heap.Acts() == old(heap.Acts()) || heap.Acts() == ScaledBy(0.5, old(heap.Acts()))
    {
      hide Running, Covered, Support, StampsOk, RefsBelow, TranscriptOk;
      NoteConflict();
    }

    /** Opens a level with a decision. */
    method Open(decision: Lit)
      requires InBounds(NewLevelStep(Snap(), decision), decision) && |savedPhase| == |levels|
      modifies this`level, this`control, this`seenFrames
      modifies this`values, this`levels, this`reasons, this`positions, this`savedPhase, this`trail
      ensures Snap() == Decide(old(Snap()), decision) && |savedPhase| == |levels|
      ensures Scr() == old(Scr()).(frames := old(Scr()).frames + [NO_SEEN])
      ensures values == old(values)[decision := 1][Neg(decision) := -1]
    {
      NewLevel(decision);
      Assign(decision, NoReason);
    }

    /** Decides an unassigned literal, the next assumption while there are any. */
    method DecideLit(decision: Lit, ghost assumed: seq<Lit>)
      requires Running(formula, Snap(), Scr(), unitRefs, assumed) && Warranted(limits, counters)
      requires WatchInvariant(Snap()) && propagated == |trail|
      requires ValidLit(variableCount, decision) && Value(Snap(), decision) == 0
      requires level < |assumed| ==> decision == assumed[level]
      requires StampsOk() && RefsBelow(clauses, unitRefs, nextRef) && |savedPhase| == |levels| && ProofOk()
      requires heap.Valid() && |heap.score| > variableCount && Branchable(variableCount, heap.Candidates())
      requires CoveredBut(variableCount, values, Var(decision), heap.Candidates())
      modifies this`level, this`control, this`seenFrames
      modifies this`values, this`levels, this`reasons, this`positions, this`savedPhase, this`trail
      ensures Invariant(assumed) && WatchInvariant(Snap()) && level == old(level) + 1
              && Snap() == Decide(old(Snap()), decision)
      ensures assumed == assumptions ==> Rank() > old(Rank())
    {
      hide Running, WatchInvariant, StampsBelow, RefsBelow, Covered, CoveredBut, RankFrom, AssignStep, Value, Support,
           Branchable, Tables, OrderedAbove, ProofOk;
      ghost var s := Snap();
      RunningDecision(formula, s, Scr(), unitRefs, assumed, decision);
      DecidedCovered(variableCount, values, decision, heap.Candidates());
      Open(decision);
    }

    /** Deals with the next assumption: a true one gets an empty level, an open one is decided, a false one ends the
        run with the assumptions it contradicts. */
    method TakeAssumption() returns (done: bool, answer: Status)
      requires Invariant(assumptions) && WatchInvariant(Snap()) && propagated == |trail| && level < |assumptions|
      requires forall i :: 0 <= i < |assumptions| ==> ValidLit(variableCount, assumptions[i])
      modifies this`level, this`control, this`seenFrames, this`flags, this`analyzed, this`failedCore, this`counters
      modifies this`values, this`levels, this`reasons, this`positions, this`savedPhase, this`trail, heap
      ensures !done ==> Takes(old(Snap()), assumptions[old(level)], Snap())
      ensures done <==> old(Value(Snap(), assumptions[level])) == -1
      ensures !done ==> Invariant(assumptions) && WatchInvariant(Snap()) && failedCore == old(failedCore)
      ensures !done ==> Rank() > old(Rank()) || (Rank() == old(Rank()) && level == old(level) + 1)
      ensures !done ==> counters == old(counters) && heap.Acts() == old(heap.Acts())
      ensures done ==> Settled() && answer == if counters.terminated then Unknown else Unsat
      ensures done && answer == Unsat ==>
                Inconsistent(formula, failedCore) && failedCore != []
                    && forall l :: l in failedCore ==> l in assumptions
      ensures done ==> Snap() == old(Snap()) && CoreExact(Snap(), assumptions, failedCore) && failedCore != []
      ensures done ==> counters == CountConflict(limits, old(counters), counters.restartDue)
    {
      hide Running, WatchInvariant, SearchOk, Represents, Equipped, Clean, Value, RankFrom, Inconsistent, AssumptionsOk,
           Prepared, CoreOf;
      ghost var s := Snap();
      RunningParts(formula, s, Scr(), unitRefs, assumptions);
      var assumption := assumptions[level];
      AssumptionValue(s, assumption);
      var value := values[assumption];
      if value < 0 {
        answer := AssumptionFails(assumption);
        return true, answer;
      }
      answer := Unknown;
      if value > 0 {
        PlaceAssumption();
      } else {
        AssumeNext(assumption);
      }
      done := false;
    }

    method AssumptionFails(assumption: Lit) returns (answer: Status)
      requires Invariant(assumptions) && level < |assumptions| && assumption == assumptions[level]
      requires Value(Snap(), assumption) == -1
      modifies this`flags, this`analyzed, this`failedCore, this`counters, heap
      ensures Settled() && answer == if counters.terminated then Unknown else Unsat
      ensures Inconsistent(formula, failedCore) && failedCore != [] && forall l :: l in failedCore ==> l in assumptions
      ensures failedCore == CoreOf(Snap(), assumption) && Snap() == old(Snap())
      ensures counters == CountConflict(limits, old(counters), counters.restartDue)
    {
      hide SearchOk, Represents, HeapCovers, StampsOk, RefsBelow, Clean, Value, Inconsistent, AssumptionsOk, Prepared,
           Opened, UnitsTrue, Stated, ProofOk, CoreOf;
      RunIsStated(assumptions);
      AnalyzeFinal(assumption);
      CoversIsValid();
      answer := RootConflict();
    }

    method PlaceAssumption()
      requires Invariant(assumptions) && WatchInvariant(Snap()) && propagated == |trail| && level < |assumptions|
      requires Value(Snap(), assumptions[level]) == 1
      modifies this`level, this`control, this`seenFrames
      ensures Invariant(assumptions) && WatchInvariant(Snap()) && Rank() == old(Rank()) && level == old(level) + 1
      ensures Snap() == NewLevelStep(old(Snap()), NO_LITERAL)
    {
      hide Running, WatchInvariant, HeapCovers, StampsOk, RefsBelow, Value, RankFrom, ProofOk;
      RunningPlaceholder(formula, Snap(), Scr(), unitRefs, assumptions);
      NewLevel(NO_LITERAL);
    }

    method AssumeNext(assumption: Lit)
      requires Invariant(assumptions) && WatchInvariant(Snap()) && propagated == |trail| && level < |assumptions|
      requires ValidLit(variableCount, assumption) && assumption == assumptions[level] && Value(Snap(), assumption) == 0
      modifies this`level, this`control, this`seenFrames
      modifies this`values, this`levels, this`reasons, this`positions, this`savedPhase, this`trail
      ensures Invariant(assumptions) && WatchInvariant(Snap()) && Rank() > old(Rank())
      ensures Snap() == Decide(old(Snap()), assumption)
    {
      hide Running, WatchInvariant, StampsOk, RefsBelow, Value, RankFrom, ProofOk;
      DecideLit(assumption, assumptions);
    }

    /** Takes the best unassigned variable off the heap; 0 when there is none. */
    method PickVariable() returns (v: nat)
      requires HeapCovers() && |values| == 2 * variableCount + 2
      modifies heap`heap, heap`position
      ensures heap.Valid() && |heap.score| > variableCount && Branchable(variableCount, heap.Candidates())
      ensures v == 0 ==> HeapCovers() && forall u :: 1 <= u <= variableCount ==> values[2 * u] != 0
      ensures v != 0 ==> 1 <= v <= variableCount && values[2 * v] == 0 && BestOpen(Snap(), heap.score, v)
                         && CoveredBut(variableCount, values, v, heap.Candidates())
    {
      hide Support, Tables, OrderedAbove, RanksBelow;
      v := 0;
      while heap.heap != []
        invariant HeapCovers()
        decreases |heap.heap|
      {
        ghost var candidates := heap.Candidates();
        var candidate := heap.Pop();
        if values[2 * candidate] == 0 {
          BestIsOpen(candidate, candidates);
          return candidate;
        }
      }
      NoCandidates();
    }

    /** No open variable outranks the one taken off. */
    lemma BestIsOpen(v: nat, candidates: set<nat>)
      requires |values| == 2 * variableCount + 2 && Covered(variableCount, values, candidates)
      requires 1 <= v <= variableCount && values[2 * v] == 0 && v < |heap.score|
      requires forall u :: u in candidates ==> u < |heap.score| && !RanksBelow(heap.score, v, u)
      ensures BestOpen(Snap(), heap.score, v)
    {
    }

    lemma NoCandidates()
      requires heap.Valid() && heap.heap == []
      ensures heap.Candidates() == {}
    {
    }

    /** Decides the best unassigned variable in its saved phase, unless every variable is assigned. */
    method Branch() returns (decided: bool)
      requires Invariant(assumptions) && WatchInvariant(Snap()) && propagated == |trail| && level >= |assumptions|
      modifies this`level, this`control, this`seenFrames
      modifies this`values, this`levels, this`reasons, this`positions, this`savedPhase, this`trail, heap`heap,
               heap`position
      ensures Invariant(assumptions) && WatchInvariant(Snap())
      ensures decided <==> !old(AllAssigned(Snap()))
      ensures if decided then Rank() > old(Rank()) else Snap() == old(Snap())
      ensures decided ==>
                level < |control| && BestDecided(old(Snap()), heap.score, old(savedPhase), control[level].decision)
      ensures decided ==> Snap() == Decide(old(Snap()), control[level].decision)
    {
      hide Running, WatchInvariant, StampsOk, RefsBelow, RankFrom, SearchOk, Covered, CoveredBut, Branchable, ProofOk,
           BestOpen;
      RunningParts(formula, Snap(), Scr(), unitRefs, assumptions);
      RunningSizes(formula, Snap(), Scr(), unitRefs, assumptions);
      var v := PickVariable();
      if v == 0 {
        NothingOpen(Snap());
        return false;
      }
      var decision := MakeLit(v, savedPhase[v] < 0);
      OpenVariable(Snap(), v, decision);
      DecidedIs(Snap(), decision);
      OpenVariable(Snap(), v, MakeLit(v, false));
      DecideLit(decision, assumptions);
      decided := true;
    }

    /** Propagates within a run. */
    method PropagateRun(ghost assumed: seq<Lit>) returns (conflict: Reason)
      requires Invariant(assumed) && WatchInvariant(Snap())
      modifies this`clauses, this`watches, this`propagated
      modifies this`values, this`levels, this`reasons, this`positions, this`savedPhase, this`trail
      ensures Invariant(assumed) && WatchesOk(clauses, watches)
      ensures Progress(old(Snap()), Snap()) && (assumed == assumptions ==> Rank() >= old(Rank()))
      ensures conflict.NoReason? ==> WatchInvariant(Snap()) && propagated == |trail|
      ensures conflict.Because? ==> ConflictFound(Snap(), conflict.ref)
      ensures old(propagated == |trail|) ==> Snap() == old(Snap()) && conflict.NoReason?
    {
      hide Running, SearchOk, Represents, Clean, WatchesOk, SoundBelow, ConflictFound, Progress, Covered, Branchable,
           StampsOk, RefsBelow, RankFrom, Support, TranscriptOk, Snap, Scr;
      ghost var s := Snap();
      SnapIs();
      RunningParts(formula, s, Scr(), unitRefs, assumed);
      conflict := Propagate();
      SnapIs();
      RunningProgress(formula, s, Snap(), Scr(), unitRefs, assumed);
      ProgressTables(s, Snap(), unitRefs, nextRef, heap.Candidates(), formula, proof);
    }

    ghost function Standing(restartsLeft: nat, walkPending: bool): Progression
      reads this`variableCount, this`clauses, this`watches, this`values, this`levels, this`reasons, this`positions
      reads this`trail, this`control, this`propagated, this`level, this`assumptions
    {
      Progression(restartsLeft, walkPending, Rank(), level)
    }

    /** The phases a walk, or anything else, may have left behind. */
    method SetPhases()
      modifies this`savedPhase
      ensures |savedPhase| == |old(savedPhase)|
    {
      var phases: seq<int> := *;
      if |phases| == |savedPhase| {
        savedPhase := phases;
      }
    }

    /** New phases within a run. */
    method RenewPhases()
      requires Invariant(assumptions)
      modifies this`savedPhase
      ensures Invariant(assumptions)
    {
      hide Running, HeapCovers, StampsOk, RefsBelow, ProofOk;
      SetPhases();
    }

    /** The opening walk: back to the assumptions, with new phases. */
    method OpeningWalk()
      requires Invariant(assumptions) && WatchInvariant(Snap())
      modifies this`values, this`trail, this`propagated, this`control, this`level, this`seenFrames, this`savedPhase
      modifies this`counters, heap`heap, heap`position
      ensures Invariant(assumptions) && WatchInvariant(Snap()) && counters == CountWalk(old(counters))
      ensures Snap() == BackTo(old(Snap()), |assumptions|)
    {
      hide Running, WatchInvariant, HeapCovers, StampsOk, RefsBelow, BackTo, SoundOrStopped, TranscriptOk;
      StillSound(Snap(), |assumptions|);
      GoBack(|assumptions|, assumptions);
      NoteWalk();
      RenewPhases();
    }

    /** The opening walk is counted. */
    method NoteWalk()
      requires Invariant(assumptions)
      modifies this`counters
      ensures Invariant(assumptions) && counters == CountWalk(old(counters))
    {
      hide Running, Equipped;
      counters := CountWalk(counters);
    }

    /** A restart is counted. */
    method NoteRestart()
      requires Invariant(assumptions) && counters.restartDue
      modifies this`counters
      ensures Invariant(assumptions) && counters == CountRestart(old(counters))
    {
      hide Running, Equipped;
      counters := CountRestart(counters);
    }

    /** A restart, followed by new phases and an inprocessing epoch when they are due; without a conflict since the last
        one it is only counted. */
    method RestartAndSimplify()
      requires Invariant(assumptions) && WatchInvariant(Snap()) && counters.restartDue
      modifies this`clauses, this`watches, this`unitRefs, this`propagated, this`counters
      modifies this`values, this`trail, this`control, this`level, this`seenFrames, this`proof
      modifies this`levels, this`reasons, this`positions, this`savedPhase, heap`heap, heap`position, subsumer
      ensures Invariant(assumptions) && WatchInvariant(Snap()) && counters == CountRestart(old(counters))
      ensures if old(counters.conflicts <= counters.conflictsAtRestart) then Snap() == old(Snap())
              else RestartsTo(old(Snap()), heap.score, |assumptions|, Snap())
    {
      hide Invariant, WatchInvariant, BackTo, MadeAgain, Simplified, RestartsTo, Snap, Scr;
      SnapIs();
      ghost var s := Snap();
      if counters.conflicts <= counters.conflictsAtRestart {
        NoteRestart();
        return;
      }
      Restart();
      SnapIs();
      ghost var kept := level;
      NoteRestart();
      var walk: bool := *;
      if walk {
        RenewPhases();
      }
      RunInprocessIfDue();
      RestartTold(s, heap.score, |assumptions|, kept, Snap());
    }

    /** Reduces when that is due and decides the best open variable, unless none is open. */
    method ReduceAndBranch() returns (decided: bool, ghost l: Lit)
      requires Invariant(assumptions) && WatchInvariant(Snap()) && propagated == |trail| && level >= |assumptions|
      modifies this`clauses, this`watches, this`level, this`control, this`seenFrames
      modifies this`values, this`levels, this`reasons, this`positions, this`savedPhase, this`trail, heap`heap,
               heap`position
      ensures Invariant(assumptions) && WatchInvariant(Snap())
      ensures decided <==> !old(AllAssigned(Snap()))
      ensures decided ==> Rank() > old(Rank()) && DecidesIn(old(Snap()), heap.score, l, Snap())
      ensures !decided ==> Reduced(old(Snap()), Snap()) && AllAssigned(Snap()) && propagated == |trail|
                           && level == old(level)
    {
      hide Invariant, WatchInvariant, AllAssigned, RankFrom, Reduced, DecidesIn, BestDecided, Decide, Snap, Scr;
      SnapIs();
      ghost var s := Snap();
      ReduceIfDue();
      SnapIs();
      ghost var u, phases := Snap(), savedPhase;
      decided := Branch();
      SnapIs();
      l := NO_LITERAL;
      if decided {
        l := control[level].decision;
        DecisionTold(s, heap.score, phases, u, l, Snap());
      }
    }

    /** One more decision, after a reduction when one is due, or the answer when nothing is left to decide. */
    method DecideNext() returns (done: bool, answer: Status, ghost l: Lit)
      requires Invariant(assumptions) && WatchInvariant(Snap()) && propagated == |trail| && level >= |assumptions|
      requires failedCore == []
      requires forall i :: 0 <= i < |assumptions| ==> ValidLit(variableCount, assumptions[i])
      modifies this`clauses, this`watches, this`level, this`control, this`seenFrames, this`counters
      modifies this`values, this`levels, this`reasons, this`positions, this`savedPhase, this`trail, heap`heap,
               heap`position
      ensures if old(AllAssigned(Snap()))
              then done && answer == Sat && counters == old(counters) && Reduced(old(Snap()), Snap())
              else answer == Unknown && counters == CountDecision(limits, old(counters), counters.restartDue)
                   && (done <==> counters.terminated) && DecidesIn(old(Snap()), heap.score, l, Snap())
      ensures !done ==> Invariant(assumptions) && WatchInvariant(Snap()) && Rank() > old(Rank())
      ensures done ==> AnswerOk(answer, formula, Snap(), assumptions, failedCore) && Settled()
    {
      hide Invariant, WatchInvariant, AnswerOk, AllAssigned, RankFrom, Settled, Reduced, DecidesIn, Snap, Scr;
      var decided: bool;
      decided, l := ReduceAndBranch();
      if !decided {
        AnswerSat();
        return true, Sat, l;
      }
      NoteDecision();
      UnknownIsOk(formula, Snap(), assumptions);
      RunIsStated(assumptions);
      return counters.terminated, Unknown, l;
    }

    /** A decision is counted. */
    method NoteDecision()
      requires Invariant(assumptions)
      modifies this`counters
      ensures Invariant(assumptions) && counters == CountDecision(limits, old(counters), counters.restartDue)
    {
      hide Running, Equipped;
      var due: bool := *;
      counters := CountDecision(limits, counters, due);
    }

    /** With nothing left to decide the assignment is the answer. */
    lemma AnswerSat()
      requires Invariant(assumptions) && WatchInvariant(Snap()) && propagated == |trail| && level >= |assumptions|
      requires AllAssigned(Snap()) && forall i :: 0 <= i < |assumptions| ==> ValidLit(variableCount, assumptions[i])
      ensures AnswerOk(Sat, formula, Snap(), assumptions, []) && Settled()
    {
      SatIsOk(formula, Snap(), Scr(), unitRefs, assumptions);
      RunIsStated(assumptions);
    }

    /** Where the run stands. */
    ghost function Now(): Moment
      reads this`variableCount, this`clauses, this`watches, this`values, this`levels, this`reasons, this`positions
      reads this`trail, this`control, this`propagated, this`level, this`counters, heap`score, heap`increment
    {
      Moment(Snap(), counters, heap.Acts())
    }

    /** What the run works on. */
    ghost function Job(): Task
      reads this`formula, this`assumptions, this`limits
    {
      Task(formula, assumptions, limits)
    }

    /** What the loop does once nothing is left to propagate. */
    method AtFixpoint(restartsLeft: nat, walkPending: bool)
      returns (done: bool, answer: Status, nowLeft: nat, stillPending: bool, ghost outcome: Outcome)
      requires Invariant(assumptions) && WatchInvariant(Snap()) && propagated == |trail|
      requires failedCore == []
      requires forall i :: 0 <= i < |assumptions| ==> ValidLit(variableCount, assumptions[i])
      modifies this`clauses, this`nextRef, this`watches, this`unitRefs, this`propagated, this`counters
      modifies this`values, this`trail, this`control, this`level, this`seenFrames, this`flags, this`analyzed,
               this`failedCore
      modifies this`levels, this`reasons, this`positions, this`savedPhase, this`proof, heap, subsumer
      ensures !done ==> Invariant(assumptions) && WatchInvariant(Snap()) && failedCore == []
      ensures !done ==> Closer(old(Standing(restartsLeft, walkPending)), Standing(nowLeft, stillPending), |assumptions|)
      ensures done ==> AnswerOk(answer, formula, Snap(), assumptions, failedCore) && Settled()
      ensures Result(Job(), old(Now()), outcome, Now(), done, answer) && Spends(outcome, restartsLeft, nowLeft)
    {
      hide Invariant, WatchInvariant, AnswerOk, RankFrom, Inconsistent, Settled, Snap, CoreOf, Takes, CoreExact;
      SnapIs();
      if level < |assumptions| {
        nowLeft, stillPending := restartsLeft, walkPending;
        done, answer := TakeAssumption();
        outcome := if done then Over(AssumptionFailed) else Made(Assume);
        if done {
          CoreIsOk(answer, formula, Snap(), assumptions, failedCore);
        }
      } else {
        done, answer, nowLeft, stillPending, outcome := BeyondAssumptions(restartsLeft, walkPending);
      }
    }

    /** With every assumption placed: the opening walk when it is due, a restart when one is due, or a decision. */
    method BeyondAssumptions(restartsLeft: nat, walkPending: bool)
      returns (done: bool, answer: Status, nowLeft: nat, stillPending: bool, ghost outcome: Outcome)
      requires Invariant(assumptions) && WatchInvariant(Snap()) && propagated == |trail| && level >= |assumptions|
      requires failedCore == []
      requires forall i :: 0 <= i < |assumptions| ==> ValidLit(variableCount, assumptions[i])
      modifies this`clauses, this`watches, this`unitRefs, this`propagated, this`counters
      modifies this`values, this`trail, this`control, this`level, this`seenFrames
      modifies this`levels, this`reasons, this`positions, this`savedPhase, this`proof, heap`heap, heap`position,
               subsumer
      ensures !done ==> Invariant(assumptions) && WatchInvariant(Snap())
      ensures !done ==> Closer(old(Standing(restartsLeft, walkPending)), Standing(nowLeft, stillPending), |assumptions|)
      ensures done ==> AnswerOk(answer, formula, Snap(), assumptions, failedCore) && Settled()
      ensures Result(Job(), old(Now()), outcome, Now(), done, answer) && Spends(outcome, restartsLeft, nowLeft)
    {
      hide Invariant, WatchInvariant, AnswerOk, RankFrom, Settled, Snap, BackTo, RestartsTo, Moves, Result;
      SnapIs();
      ghost var p := Now();
      var walkDue: bool := *;
      if walkPending && walkDue {
        OpeningWalk();
        WalkResult(Job(), p, Now());
        return false, Unknown, restartsLeft, false, Made(Walk);
      }
      stillPending := walkPending;
      if !counters.restartDue {
        nowLeft := restartsLeft;
        done, answer, outcome := DecideOrAnswer();
      } else if restartsLeft == 0 {
        UnknownIsOk(formula, Snap(), assumptions);
        RunIsStated(assumptions);
        NoRestartResult(Job(), p);
        done, answer, nowLeft, outcome := true, Unknown, restartsLeft, Over(NoRestartLeft);
      } else {
        RestartAndSimplify();
        RestartResult(Job(), p, Now());
        done, answer, nowLeft, outcome := false, Unknown, restartsLeft - 1, Made(Move.Restart);
      }
    }

    /** The next decision as an outcome. */
    method DecideOrAnswer() returns (done: bool, answer: Status, ghost outcome: Outcome)
      requires Invariant(assumptions) && WatchInvariant(Snap()) && propagated == |trail| && level >= |assumptions|
      requires failedCore == [] && !counters.restartDue
      requires forall i :: 0 <= i < |assumptions| ==> ValidLit(variableCount, assumptions[i])
      modifies this`clauses, this`watches, this`level, this`control, this`seenFrames, this`counters
      modifies this`values, this`levels, this`reasons, this`positions, this`savedPhase, this`trail, heap`heap,
               heap`position
      ensures Result(Job(), old(Now()), outcome, Now(), done, answer) && !outcome.NoRestart()
      ensures !done ==> Invariant(assumptions) && WatchInvariant(Snap()) && Rank() > old(Rank())
      ensures done ==> AnswerOk(answer, formula, Snap(), assumptions, failedCore) && Settled()
    {
      hide Invariant, WatchInvariant, AnswerOk, AllAssigned, RankFrom, Settled, Reduced, DecidesIn, Snap, Scr;
      SnapIs();
      ghost var l: Lit;
      done, answer, l := DecideNext();
      outcome := if answer == Sat then Over(ModelFound) else Made(Decision(l));
    }

    /** One iteration of the search loop. */
    method Step(restartsLeft: nat, walkPending: bool)
      returns (done: bool, answer: Status, nowLeft: nat, stillPending: bool, ghost outcome: Outcome)
      requires Invariant(assumptions) && WatchInvariant(Snap()) && failedCore == []
      requires forall i :: 0 <= i < |assumptions| ==> ValidLit(variableCount, assumptions[i])
      modifies this`flags, this`analyzed, this`minimized, this`levelsTouched, this`seenFrames, this`learned
      modifies this`minimizeStack, this`chainStamps, this`chainStamp
      modifies this`resolutionChain, this`resolutionVars, this`rootChain, this`rootVars, this`minimizeChain,
               this`minimizeVars
      modifies this`clauses, this`watches, this`unitRefs, this`nextRef, this`propagated, this`control, this`level
      modifies this`values, this`levels, this`reasons, this`positions, this`savedPhase, this`trail
      modifies this`antecedents, this`proof, this`counters, this`failedCore, heap, subsumer
      ensures !done ==> Invariant(assumptions) && WatchInvariant(Snap()) && failedCore == []
      ensures !done ==> Closer(old(Standing(restartsLeft, walkPending)), Standing(nowLeft, stillPending), |assumptions|)
      ensures done ==> AnswerOk(answer, formula, Snap(), assumptions, failedCore) && Settled()
      ensures Iterated(Job(), old(Now()), outcome, Now(), done, answer) && Spends(outcome, restartsLeft, nowLeft)
    {
      hide Invariant, WatchesOk, SoundBelow, AnswerOk, RankFrom, ConflictFound, Progress, Settled, Snap, Result,
           Iterated, SearchOk, Closer, Job;
      SnapIs();
      ghost var m, before := Now(), Standing(restartsLeft, walkPending);
      var conflict := PropagateRun(assumptions);
      RunSearches();
      ghost var t, middle := Snap(), Standing(restartsLeft, walkPending);
      done, answer, nowLeft, stillPending, outcome := AfterPropagation(conflict, restartsLeft, walkPending);
      CloserFrom(before, middle, Standing(nowLeft, stillPending), |assumptions|);
      IteratedIs(Job(), m, t, outcome, Now(), done, answer);
    }

    /** What an iteration does once propagation has ended. */
    method AfterPropagation(conflict: Reason, restartsLeft: nat, walkPending: bool)
      returns (done: bool, answer: Status, nowLeft: nat, stillPending: bool, ghost outcome: Outcome)
      requires Invariant(assumptions) && WatchesOk(clauses, watches) && failedCore == []
      requires if conflict.Because? then ConflictFound(Snap(), conflict.ref)
               else WatchInvariant(Snap()) && propagated == |trail|
      requires forall i :: 0 <= i < |assumptions| ==> ValidLit(variableCount, assumptions[i])
      modifies this`flags, this`analyzed, this`minimized, this`levelsTouched, this`seenFrames, this`learned
      modifies this`minimizeStack, this`chainStamps, this`chainStamp
      modifies this`resolutionChain, this`resolutionVars, this`rootChain, this`rootVars, this`minimizeChain,
               this`minimizeVars
      modifies this`clauses, this`watches, this`unitRefs, this`nextRef, this`propagated, this`control, this`level
      modifies this`values, this`levels, this`reasons, this`positions, this`savedPhase, this`trail
      modifies this`antecedents, this`proof, this`counters, this`failedCore, heap, subsumer
      ensures !done ==> Invariant(assumptions) && WatchInvariant(Snap()) && failedCore == []
      ensures !done ==> Closer(old(Standing(restartsLeft, walkPending)), Standing(nowLeft, stillPending), |assumptions|)
      ensures done ==> AnswerOk(answer, formula, Snap(), assumptions, failedCore) && Settled()
      ensures Result(Job(), old(Now()), outcome, Now(), done, answer) && Spends(outcome, restartsLeft, nowLeft)
    {
      hide Invariant, WatchesOk, WatchInvariant, AnswerOk, RankFrom, ConflictFound, Settled, Result, Closer, Job, Now,
           Snap;
      ghost var before := Standing(restartsLeft, walkPending);
      if conflict.NoReason? {
        done, answer, nowLeft, stillPending, outcome := AtFixpoint(restartsLeft, walkPending);
      } else {
        nowLeft, stillPending := restartsLeft, walkPending;
        done, answer, outcome := ConflictStep(conflict.ref);
        CloserByRank(before, Standing(nowLeft, stillPending), |assumptions|);
      }
    }

    lemma RunHasUnits()
      requires Invariant(assumptions)
      ensures UnitsTrue(Snap())
    {
    }

    lemma RunSearches()
      requires Invariant(assumptions)
      ensures SearchOk(Snap())
    {
    }

    /** A conflict: the answer at the root, a learned clause above it. */
    method ConflictStep(conflict: Ref) returns (done: bool, answer: Status, ghost outcome: Outcome)
      requires Invariant(assumptions) && WatchesOk(clauses, watches) && ConflictFound(Snap(), conflict)
               && failedCore == []
      modifies this`flags, this`analyzed, this`minimized, this`levelsTouched, this`seenFrames, this`learned
      modifies this`minimizeStack, this`chainStamps, this`chainStamp
      modifies this`resolutionChain, this`resolutionVars, this`rootChain, this`rootVars, this`minimizeChain,
               this`minimizeVars
      modifies this`clauses, this`watches, this`unitRefs, this`nextRef, this`propagated, this`control, this`level
      modifies this`values, this`levels, this`reasons, this`positions, this`savedPhase, this`trail
      modifies this`antecedents, this`proof, this`counters, heap
      ensures !done ==> Invariant(assumptions) && WatchInvariant(Snap()) && Rank() > old(Rank())
      ensures done ==> AnswerOk(answer, formula, Snap(), assumptions, failedCore) && Settled()
      ensures Result(Job(), old(Now()), outcome, Now(), done, answer) && !outcome.NoRestart()
    {
      hide Invariant, WatchesOk, WatchInvariant, AnswerOk, RankFrom, ConflictFound, Settled, Learns, Moves, Result,
           Snap;
      SnapIs();
      ghost var m := Now();
      if level == 0 {
        answer := AnswerRefuted(conflict);
        done := true;
        outcome := Over(RootRefuted(conflict));
        RootResult(Job(), m, conflict, Now(), answer);
      } else {
        ghost var move := LearnStep(conflict);
        UnknownIsOk(formula, Snap(), assumptions);
        RunIsStated(assumptions);
        done, answer, outcome := counters.terminated, Unknown, Made(move);
        LearnResult(Job(), m, move, Now());
      }
    }

    /** A conflict above the root as a move. */
    method LearnStep(conflict: Ref) returns (ghost move: Move)
      requires Invariant(assumptions) && WatchesOk(clauses, watches) && ConflictFound(Snap(), conflict) && level > 0
      modifies this`flags, this`analyzed, this`minimized, this`levelsTouched, this`seenFrames, this`learned
      modifies this`minimizeStack, this`chainStamps, this`chainStamp
      modifies this`resolutionChain, this`resolutionVars, this`rootChain, this`rootVars, this`minimizeChain,
               this`minimizeVars
      modifies this`clauses, this`watches, this`unitRefs, this`nextRef, this`propagated, this`control, this`level
      modifies this`values, this`levels, this`reasons, this`positions, this`savedPhase, this`trail
      modifies this`antecedents, this`proof, this`counters, heap
      ensures move.Learn? && Learns(Job(), old(Now()), move, Now())
      ensures Invariant(assumptions) && WatchInvariant(Snap()) && Rank() > old(Rank())
    {
      hide Invariant, WatchesOk, WatchInvariant, RankFrom, ConflictFound, Entails, TightStep, NamesReasons,
           Known, TellDerivation, Live, LratStep, LearnedOk, ExactlyLearned, TookPart, Aged, Learnt, CanLearn, AddsNew,
           Snap;
      SnapIs();
      ghost var ref := nextRef;
      ghost var _ := HandleConflict(conflict);
      move := Learn(conflict, learned, ref, analyzed);
    }

    /** A conflict at the root is counted and answered. */
    method AnswerRefuted(conflict: Ref) returns (answer: Status)
      requires Invariant(assumptions) && ConflictFound(Snap(), conflict) && level == 0 && failedCore == []
      modifies this`counters, heap
      ensures AnswerOk(answer, formula, Snap(), assumptions, failedCore) && Settled()
      ensures counters == CountConflict(limits, old(counters), counters.restartDue)
      ensures answer == if counters.terminated then Unknown else Unsat
    {
      hide Running, AnswerOk, ConflictFound, UpRefutes, Settled;
      RootConflictRefutes(conflict);
      answer := RootConflict();
      RefutedIsOk(answer);
    }

    /** The search: it ends with an answer that is right, and without one only when a limit was reached or all of the
        `restarts` were used up while another one was due. */
    method RunSearch(restarts: nat)
      returns (answer: Status, ghost start: Moment, ghost search: Search)
      requires RootInvariant() && failedCore == [] && Warranted(limits, counters)
      requires forall i :: 0 <= i < |assumptions| ==> ValidLit(variableCount, assumptions[i])
      modifies this`flags, this`analyzed, this`minimized, this`levelsTouched, this`seenFrames, this`learned
      modifies this`minimizeStack, this`chainStamps, this`chainStamp
      modifies this`resolutionChain, this`resolutionVars, this`rootChain, this`rootVars, this`minimizeChain,
               this`minimizeVars
      modifies this`clauses, this`watches, this`unitRefs, this`nextRef, this`propagated, this`control, this`level
      modifies this`values, this`levels, this`reasons, this`positions, this`savedPhase, this`trail
      modifies this`antecedents, this`proof, this`counters, this`failedCore, heap, subsumer
      ensures AnswerOk(answer, formula, Snap(), assumptions, failedCore) && Settled()
      ensures || (UnitsTrue(start.s) && Searched(Job(), start, search, Now(), answer, restarts))
              || (search == NO_SEARCH && UpRefutes(clauses)
                  && counters == CountConflict(limits, old(counters), counters.restartDue)
                  && answer == if counters.terminated then Unknown else Unsat)
      ensures Extends(old(Snap()), start.s) && start.s.level == 0 && start.counters == old(counters)
              && start.s.db == old(clauses) && start.s.n == variableCount
      ensures old(UnitsTrue(Snap())) ==> start.s == old(Snap())
      ensures old(UnitClash(Snap())) ==> search == NO_SEARCH
    {
      hide AtRoot, Running, WatchInvariant, Equipped, AnswerOk, RankFrom, Extends, UnitsTrue, UnitClash, UpRefutes,
           Settled, Stated, Searched;
      RootIsSettled();
      var ok := AssignRootUnits();
      start, search := Now(), NO_SEARCH;
      if !ok {
        RootIsSettled();
        answer := RootConflict();
        RefutedIsOk(answer);
        return;
      }
      RootRuns(formula, Snap(), Scr(), unitRefs, assumptions);
      var walkPending: bool := *;
      answer, search := Loop(restarts, walkPending);
    }

    lemma RootIsSettled()
      requires RootInvariant() && Warranted(limits, counters)
      ensures Settled() && heap.Valid() && level == 0
    {
      RootIsStated();
    }

    /** A refutation answers any assumptions. */
    lemma RefutedIsOk(answer: Status)
      requires answer != Sat && Settled() && UpRefutes(clauses)
      ensures AnswerOk(answer, formula, Snap(), assumptions, [])
    {
      UnsatIsOk(answer, formula, Snap(), assumptions);
    }

    lemma RankBound()
      requires Invariant(assumptions)
      ensures 0 <= Rank() < RankLimit(variableCount, |assumptions|)
    {
      RunningRank(formula, Snap(), Scr(), unitRefs, assumptions);
    }

    /** Iterates until the run ends; `search` is the run. Each iteration comes closer to the end. */
    method Loop(restarts: nat, opening: bool) returns (answer: Status, ghost search: Search)
      requires Invariant(assumptions) && WatchInvariant(Snap()) && failedCore == []
      requires forall i :: 0 <= i < |assumptions| ==> ValidLit(variableCount, assumptions[i])
      modifies this`flags, this`analyzed, this`minimized, this`levelsTouched, this`seenFrames, this`learned
      modifies this`minimizeStack, this`chainStamps, this`chainStamp
      modifies this`resolutionChain, this`resolutionVars, this`rootChain, this`rootVars, this`minimizeChain,
               this`minimizeVars
      modifies this`clauses, this`watches, this`unitRefs, this`nextRef, this`propagated, this`control, this`level
      modifies this`values, this`levels, this`reasons, this`positions, this`savedPhase, this`trail
      modifies this`antecedents, this`proof, this`counters, this`failedCore, heap, subsumer
      ensures AnswerOk(answer, formula, Snap(), assumptions, failedCore) && Settled()
      ensures Searched(Job(), old(Now()), search, Now(), answer, restarts)
    {
      hide Invariant, WatchInvariant, AnswerOk, RankFrom, Settled, Snap, Searched, Searching, Iterated, Job, Now;
      var restartsLeft, walkPending := restarts, opening;
      var done := false;
      answer, search := Unknown, Search([Now()], [], ToldToStop);
      StartSearching(Job(), Now(), restarts);
      while !done
        invariant Job() == old(Job())
        invariant !done ==> Invariant(assumptions) && WatchInvariant(Snap()) && failedCore == []
        invariant !done ==> Searching(Job(), old(Now()), search, Now(), restarts, restartsLeft)
        invariant done ==> AnswerOk(answer, formula, Snap(), assumptions, failedCore) && Settled()
        invariant done ==> Searched(Job(), old(Now()), search, Now(), answer, restarts)
        decreases !done, restartsLeft, walkPending, RankLimit(variableCount, |assumptions|) - Rank(),
                  if level < |assumptions| then |assumptions| - level else 0
      {
        RankBound();
        ghost var m, left, outcome := Now(), restartsLeft, Over(ToldToStop);
        done, answer, restartsLeft, walkPending, outcome := Step(restartsLeft, walkPending);
        SearchStep(Job(), old(Now()), search, m, restarts, left, restartsLeft, outcome, Now(), done, answer);
        search := Continued(search, outcome, Now());
      }
    }

    // -------------------------------------------------------------------------------------------
    // Failed-literal probing
    // -------------------------------------------------------------------------------------------

    /** At the root, with nothing left to propagate. */
    ghost predicate ProbeReady()
      reads this`formula, this`unitRefs, this`limits, this`counters, this`wantChain, this`proof
      reads this`assumptions
      reads this`variableCount, this`clauses, this`watches, this`values, this`levels, this`reasons, this`positions
      reads this`trail, this`control, this`propagated, this`level
      reads this`flags, this`analyzed, this`minimized, this`levelsTouched, this`seenFrames
      reads this`savedPhase, this`chainStamps, this`chainStamp, this`nextRef, heap
    {
      Invariant(assumptions) && WatchInvariant(Snap()) && level == 0 && propagated == |trail|
    }

    /** Tries one literal: decides it at the root, propagates and takes everything back. */
    method Trial(l: Lit) returns (failed: bool, grown: nat, implied: seq<Lit>, ghost t: State)
      requires ProbeReady() && ValidLit(variableCount, l) && Value(Snap(), l) == 0
      modifies this`clauses, this`watches, this`propagated, this`control, this`level, this`seenFrames
      modifies this`values, this`levels, this`reasons, this`positions, this`savedPhase, this`trail, heap
      ensures ProbeReady() && OnlyUnitsAdded(old(clauses), clauses)
      ensures forall m: Lit :: Value(Snap(), m) == old(Value(Snap(), m))
      ensures if failed then Entails(formula, [Neg(l)]) else Implications(formula, variableCount, l, implied)
      ensures Tried(old(Snap()), l, t, failed) && SameRoot(old(Snap()), Snap()) && |old(trail)| < |t.trail|
      ensures grown == |t.trail| - |old(trail)|
      ensures implied == if failed then [] else Consequences(old(Snap()), t)
    {
      hide Running, SearchOk, Represents, WatchInvariant, Equipped, BackTo, Decide, Progress, ConflictFound, Entails,
        Implications, OnlyUnitsAdded, Value, Tried, SameRoot;
      ghost var s := Snap();
      var before := |trail|;
      var conflict: Reason;
      conflict, t := TrialDown(l);
      grown := |trail| - before;
      implied := if conflict.NoReason? then trail[before + 1..] else [];
      failed := conflict.Because?;
      GoBack(0, []);
      RunningParts(formula, Snap(), Scr(), unitRefs, []);
      TrialFacts(formula, s, t, Snap(), l, conflict);
      RootAssumptions(formula, Snap(), Scr(), unitRefs, [], assumptions);
    }

    /** The trial decision and its propagation. */
    method TrialDown(l: Lit) returns (conflict: Reason, ghost t: State)
      requires ProbeReady() && ValidLit(variableCount, l) && Value(Snap(), l) == 0
      modifies this`clauses, this`watches, this`propagated, this`control, this`level, this`seenFrames
      modifies this`values, this`levels, this`reasons, this`positions, this`savedPhase, this`trail
      ensures t == Snap() && Invariant([]) && SoundOrStopped(Snap(), 0) && SearchOk(t)
              && DatabaseEntailed(formula, t.db)
      ensures SearchOk(old(Snap())) && InBounds(NewLevelStep(old(Snap()), l), l)
      ensures Progress(Decide(old(Snap()), l), Snap()) && |trail| > old(|trail|)
      ensures if conflict.Because? then ConflictFound(t, conflict.ref) else propagated == |trail|
      ensures Tried(old(Snap()), l, t, conflict.Because?)
    {
      hide Running, SearchOk, Represents, WatchInvariant, StampsOk, RefsBelow, Covered, CoveredBut, Branchable,
           Progress, ConflictFound, Value, SoundOrStopped, Decide, ProofOk, UnitsTrue, Tried;
      ghost var s := Snap();
      RootAssumptions(formula, s, Scr(), unitRefs, assumptions, []);
      RunningParts(formula, s, Scr(), unitRefs, []);
      CoveredAny(variableCount, values, Var(l), heap.Candidates());
      TrialLonger(s, l);
      DecideLit(l, []);
      conflict := PropagateRun([]);
      t := Snap();
      RunningParts(formula, t, Scr(), unitRefs, []);
      RunningUnits(formula, t, Scr(), unitRefs, []);
      TrialGrows(s, l, t, conflict);
      TrialIs(s, l, t, conflict.Because?);
    }

    /** Stores a unit that follows from the formula and assigns it at the root. */
    method AddUnit(unit: Lit)
      requires !wantChain && ProbeReady() && ValidLit(variableCount, unit) && Value(Snap(), unit) == 0
               && Entails(formula, [unit])
      modifies this`clauses, this`unitRefs, this`nextRef
      modifies this`values, this`levels, this`reasons, this`positions, this`savedPhase, this`trail
      ensures Invariant(assumptions) && WatchInvariant(Snap()) && level == 0 && OnlyUnitsAdded(old(clauses), clauses)
      ensures KeepsValues(old(Snap()), Snap()) && Value(Snap(), unit) == 1
    {
      hide Running, WatchInvariant, HeapCovers, StampsOk, RefsBelow, AssignStep, WithClause, Value, Entails,
        OnlyUnitsAdded, KeepsValues;
      ghost var s := Snap();
      NextRef(clauses, unitRefs, nextRef, Entry([unit], true));
      RunningUnit(formula, s, Scr(), unitRefs, assumptions, unit, nextRef);
      UnitAdded(clauses, nextRef, unit);
      StoreUnit(unit);
    }

    method StoreUnit(unit: Lit)
      requires InBounds(WithClause(Snap(), nextRef, Entry([unit], true)), unit) && |savedPhase| == |levels|
               && HeapCovers()
      modifies this`clauses, this`unitRefs, this`nextRef
      modifies this`values, this`levels, this`reasons, this`positions, this`savedPhase, this`trail
      ensures Snap() == old(AssignStep(WithClause(Snap(), nextRef, Entry([unit], true)), unit, Because(nextRef)))
      ensures unitRefs == old(unitRefs + [nextRef]) && nextRef == old(nextRef) + 1
      ensures HeapCovers() && |savedPhase| == |levels|
    {
      hide HeapCovers, AssignStep;
      var ref := nextRef;
      nextRef := nextRef + 1;
      clauses := clauses[ref := Entry([unit], true)];
      unitRefs := unitRefs + [ref];
      AssignInHeap(unit, Because(ref));
    }

    /** Learns a unit and propagates it; a conflict refutes the formula. */
    method LearnRootUnit(unit: Lit) returns (ok: bool)
      requires !wantChain && ProbeReady() && ValidLit(variableCount, unit) && Value(Snap(), unit) == 0
               && Entails(formula, [unit])
      modifies this`clauses, this`watches, this`unitRefs, this`nextRef, this`propagated, this`probeUnitCount,
               this`rootRefuted
      modifies this`values, this`levels, this`reasons, this`positions, this`savedPhase, this`trail
      ensures OnlyUnitsAdded(old(clauses), clauses) && (ok ==> ProbeReady() && rootRefuted == old(rootRefuted))
      ensures !ok ==> rootRefuted && Settled() && UpRefutes(clauses)
      ensures KeepsValues(old(Snap()), Snap()) && Value(Snap(), unit) == 1 && probeUnitCount == old(probeUnitCount) + 1
    {
      hide Invariant, WatchesOk, WatchInvariant, Progress, ConflictFound, Value, Entails, OnlyUnitsAdded, RankFrom,
           UpRefutes, Settled, KeepsValues;
      AddUnit(unit);
      ghost var s := Snap();
      probeUnitCount := probeUnitCount + 1;
      var conflict := PropagateRun(assumptions);
      AddedProgress(old(clauses), s, Snap());
      UnitKept(old(Snap()), s, Snap(), unit);
      ProgressExtends(s, Snap());
      if conflict.Because? {
        RootConflictRefutes(conflict.ref);
        rootRefuted := true;
        return false;
      }
      ok := true;
    }

    method ClearProbeMarks()
      requires MarksExact(probeMarks, marked)
      modifies this`probeMarks, this`marked
      ensures marked == [] && MarksExact(probeMarks, []) && |probeMarks| == old(|probeMarks|)
    {
      assert forall k :: 0 <= k < |marked| ==> marked[k] in marked;
      var i := 0;
      while i < |marked|
        invariant 0 <= i <= |marked| && |probeMarks| == old(|probeMarks|)
        invariant forall l :: 0 <= l < |probeMarks| && probeMarks[l] ==> l in marked[i..]
        invariant forall k :: 0 <= k < |marked| ==> marked[k] < |probeMarks|
      {
        assert marked[i..] == [marked[i]] + marked[i + 1..];
        probeMarks := probeMarks[marked[i] := false];
        i := i + 1;
      }
      marked := [];
    }

    /** Remembers what the positive probe implied. */
    method MarkImplied(implied: seq<Lit>)
      requires MarksExact(probeMarks, []) && marked == []
      requires forall i :: 0 <= i < |implied| ==> implied[i] < |probeMarks|
      modifies this`probeMarks, this`marked
      ensures marked == implied && MarksExact(probeMarks, implied) && |probeMarks| == old(|probeMarks|)
    {
      var i := 0;
      while i < |implied|
        invariant 0 <= i <= |implied| && marked == implied[..i] && MarksExact(probeMarks, marked)
        invariant |probeMarks| == old(|probeMarks|)
      {
        MarkOneMore(probeMarks, marked, implied[i]);
        probeMarks := probeMarks[implied[i] := true];
        marked := marked + [implied[i]];
        i := i + 1;
      }
    }

    /** Lifts what the negative probe implied and the positive one did too. */
    method LiftMarked(positive: Lit, other: seq<Lit>)
      requires MarksExact(probeMarks, marked) && |probeMarks| == 2 * variableCount + 2
      requires Implications(formula, variableCount, positive, marked)
      requires Implications(formula, variableCount, Neg(positive), other)
      modifies this`lifted
      ensures AllEntailed(formula, variableCount, lifted)
      ensures forall l :: l in lifted <==> l in marked && l in other
    {
      hide Implications, AllEntailed;
      ImpliedInBounds(formula, variableCount, Neg(positive), other);
      NoneEntailed(formula, variableCount);
      lifted := [];
      var i := 0;
      while i < |other|
        invariant 0 <= i <= |other| && AllEntailed(formula, variableCount, lifted)
        invariant forall l :: l in lifted <==> l in marked && l in other[..i]
      {
        if probeMarks[other[i]] {
          LiftOne(formula, variableCount, positive, marked, other, i, lifted);
          lifted := lifted + [other[i]];
        }
        i := i + 1;
      }
    }

    /** Learns every lifted literal that is still open. */
    method LearnLifted() returns (ok: bool)
      requires !wantChain && ProbeReady() && AllEntailed(formula, variableCount, lifted)
      modifies this`clauses, this`watches, this`unitRefs, this`nextRef, this`propagated, this`probeUnitCount,
               this`rootRefuted
      modifies this`values, this`levels, this`reasons, this`positions, this`savedPhase, this`trail
      ensures OnlyUnitsAdded(old(clauses), clauses) && (ok ==> ProbeReady() && rootRefuted == old(rootRefuted))
      ensures !ok ==> rootRefuted && Settled() && UpRefutes(clauses)
      ensures KeepsValues(old(Snap()), Snap()) && (ok ==> AllHaveValues(Snap(), lifted))
      ensures probeUnitCount >= old(probeUnitCount)
      ensures probeUnitCount == old(probeUnitCount) ==> ok && Snap() == old(Snap())
    {
      hide Invariant, WatchInvariant, Value, OnlyUnitsAdded, UpRefutes, Settled, SearchOk, AllEntailed, Entails,
           KeepsValues, AllHaveValues, Snap;
      NothingAdded(clauses, clauses);
      NoneHaveValues(Snap(), lifted);
      var i := 0;
      while i < |lifted|
        invariant 0 <= i <= |lifted| && ProbeReady() && OnlyUnitsAdded(old(clauses), clauses)
        invariant rootRefuted == old(rootRefuted)
        invariant KeepsValues(old(Snap()), Snap()) && AllHaveValues(Snap(), lifted[..i])
        invariant probeUnitCount >= old(probeUnitCount)
        invariant probeUnitCount == old(probeUnitCount) ==> Snap() == old(Snap())
      {
        EntailedAt(formula, variableCount, lifted, i);
        ReadyValue(lifted[i]);
        ghost var before := Snap();
        if values[lifted[i]] == 0 {
          ghost var db := clauses;
          ok := LearnRootUnit(lifted[i]);
          AddedTransitive(old(clauses), db, clauses);
          ValuesKept(old(Snap()), before, Snap(), lifted[..i]);
          if !ok {
            return;
          }
        }
        OneMoreValue(Snap(), lifted, i);
        i := i + 1;
      }
      assert lifted[..|lifted|] == lifted;
      ok := true;
    }

    lemma ReadyValue(l: Lit)
      requires ProbeReady() && ValidLit(variableCount, l)
      ensures l < |values| && Value(Snap(), l) == values[l]
    {
      AssumptionValue(Snap(), l);
    }

    /** The first polarity: what it implies is remembered for lifting against the second. */
    method ProbePositive(positive: Lit, effort: nat)
      returns (left: nat, stop: bool, ok: bool, ghost failed: bool, ghost t: State)
      requires !wantChain && ProbeReady() && ValidLit(variableCount, positive) && Value(Snap(), positive) == 0
      requires MarksExact(probeMarks, marked) && |probeMarks| == 2 * variableCount + 2
      modifies this`clauses, this`watches, this`propagated, this`control, this`level, this`seenFrames
      modifies this`values, this`levels, this`reasons, this`positions, this`savedPhase, this`trail, heap
      modifies this`unitRefs, this`nextRef, this`probeUnitCount, this`rootRefuted, this`probeMarks, this`marked
      ensures OnlyUnitsAdded(old(clauses), clauses) && MarksExact(probeMarks, marked)
              && |probeMarks| == old(|probeMarks|)
      ensures ok ==> ProbeReady() && rootRefuted == old(rootRefuted)
      ensures !ok ==> stop && rootRefuted && Settled() && UpRefutes(clauses)
      ensures !stop ==> Value(Snap(), positive) == 0 && Implications(formula, variableCount, positive, marked)
      ensures stop && ok ==> marked == []
      ensures Tried(old(Snap()), positive, t, failed) && |old(trail)| < |t.trail|
      ensures left == Spent(effort, |t.trail| - |old(trail)|) && (stop <==> failed || left == 0)
      ensures probeUnitCount == old(probeUnitCount) + if failed then 1 else 0
      ensures if failed then KeepsValues(old(Snap()), Snap()) && Value(Snap(), Neg(positive)) == 1
              else ok && SameRoot(old(Snap()), Snap())
      ensures !stop ==> marked == Consequences(old(Snap()), t)
    {
      hide Invariant, WatchInvariant, Value, OnlyUnitsAdded, UpRefutes, Settled, SearchOk, Entails, Implications,
           MarksExact, Tried, SameRoot, KeepsValues, Snap;
      ok := true;
      ClearProbeMarks();
      ghost var s := Snap();
      var conflict, grown, implied;
      conflict, grown, implied, t := Trial(positive);
      failed := conflict;
      left := Spent(effort, grown);
      if conflict {
        ReadyNegation(positive);
        ghost var before, root := clauses, Snap();
        ok := LearnRootUnit(Neg(positive));
        AddedTransitive(old(clauses), before, clauses);
        KeepsFromRoot(s, root, Snap());
        stop := true;
        return;
      }
      if left == 0 {
        stop := true;
        return;
      }
      ImpliedInBounds(formula, variableCount, positive, implied);
      MarkImplied(implied);
      stop := false;
    }

    lemma ReadyNegation(l: Lit)
      requires ProbeReady() && ValidLit(variableCount, l) && Value(Snap(), l) == 0
      ensures Value(Snap(), Neg(l)) == 0 && ValidLit(variableCount, Neg(l))
    {
      Assigned(Snap(), l);
    }

    /** The second polarity: a conflict makes the first a unit, otherwise what both imply is learned. */
    method ProbeNegative(positive: Lit, effort: nat)
      returns (left: nat, ok: bool, ghost failed: bool, ghost t: State)
      requires !wantChain && ProbeReady() && ValidLit(variableCount, positive) && Value(Snap(), positive) == 0
      requires Implications(formula, variableCount, positive, marked)
      requires MarksExact(probeMarks, marked) && |probeMarks| == 2 * variableCount + 2
      modifies this`clauses, this`watches, this`propagated, this`control, this`level, this`seenFrames
      modifies this`values, this`levels, this`reasons, this`positions, this`savedPhase, this`trail, heap
      modifies this`unitRefs, this`nextRef, this`probeUnitCount, this`rootRefuted, this`probeMarks, this`marked,
               this`lifted
      ensures OnlyUnitsAdded(old(clauses), clauses) && MarksExact(probeMarks, marked)
              && |probeMarks| == old(|probeMarks|)
      ensures ok ==> ProbeReady() && rootRefuted == old(rootRefuted)
      ensures !ok ==> rootRefuted && Settled() && UpRefutes(clauses)
      ensures Tried(old(Snap()), Neg(positive), t, failed) && |old(trail)| < |t.trail|
      ensures left == Spent(effort, |t.trail| - |old(trail)|) && probeUnitCount >= old(probeUnitCount)
      ensures KeepsValues(old(Snap()), Snap()) && (failed ==> Value(Snap(), positive) == 1)
      ensures !failed && ok ==>
                forall m :: m in old(marked) && m in Consequences(old(Snap()), t) ==> Value(Snap(), m) != 0
      ensures probeUnitCount == old(probeUnitCount) ==> ok && !failed && SameRoot(old(Snap()), Snap())
    {
      hide ProbeReady, Value, OnlyUnitsAdded, UpRefutes, Settled, Entails, Implications, MarksExact, AllEntailed,
           Tried, SameRoot, KeepsValues, AllHaveValues, Snap;
      ReadyNegation(positive);
      NegNeg(positive);
      var conflict, grown, implied;
      conflict, grown, implied, t := Trial(Neg(positive));
      failed := conflict;
      left := Spent(effort, grown);
      ghost var before, root := clauses, Snap();
      if conflict {
        ClearProbeMarks();
        ok := LearnRootUnit(positive);
      } else {
        ok := LiftBoth(positive, implied);
      }
      KeepsFromRoot(old(Snap()), root, Snap());
      AddedTransitive(old(clauses), before, clauses);
    }


    /** Learns what both polarities imply. */
    method LiftBoth(positive: Lit, implied: seq<Lit>) returns (ok: bool)
      requires !wantChain && ProbeReady() && MarksExact(probeMarks, marked) && |probeMarks| == 2 * variableCount + 2
      requires Implications(formula, variableCount, positive, marked)
      requires Implications(formula, variableCount, Neg(positive), implied)
      modifies this`clauses, this`watches, this`propagated
      modifies this`values, this`levels, this`reasons, this`positions, this`savedPhase, this`trail
      modifies this`unitRefs, this`nextRef, this`probeUnitCount, this`rootRefuted, this`probeMarks, this`marked,
               this`lifted
      ensures OnlyUnitsAdded(old(clauses), clauses) && MarksExact(probeMarks, marked)
              && |probeMarks| == old(|probeMarks|)
      ensures ok ==> ProbeReady() && rootRefuted == old(rootRefuted)
      ensures !ok ==> rootRefuted && Settled() && UpRefutes(clauses)
      ensures KeepsValues(old(Snap()), Snap()) && probeUnitCount >= old(probeUnitCount)
      ensures ok ==> forall m :: m in old(marked) && m in implied ==> Value(Snap(), m) != 0
      ensures probeUnitCount == old(probeUnitCount) ==> ok && Snap() == old(Snap())
    {
      hide ProbeReady, OnlyUnitsAdded, UpRefutes, Settled, Implications, MarksExact, AllEntailed, KeepsValues,
           AllHaveValues, Value, Snap;
      LiftMarked(positive, implied);
      ClearProbeMarks();
      ok := LearnLifted();
      if ok {
        EachHasValue(Snap(), lifted);
      }
    }

    /** Whether the literal is watched in a binary clause. */
    method HasBinary(l: Lit) returns (found: bool)
      requires l < |watches|
      ensures found <==> exists i :: 0 <= i < |watches[l]| && watches[l][i].binary
    {
      var i := 0;
      while i < |watches[l]|
        invariant 0 <= i <= |watches[l]| && forall k :: 0 <= k < i ==> !watches[l][k].binary
      {
        if watches[l][i].binary {
          return true;
        }
        i := i + 1;
      }
      found := false;
    }

    /** Probes both polarities of an open variable that occurs in a binary clause. A failed literal's negation, and
        what both polarities lead to, have values afterwards. */
    method ProbeVariable(v: nat, effort: nat) returns (left: nat, ok: bool)
      requires !wantChain && ProbeReady() && 1 <= v <= variableCount
      requires MarksExact(probeMarks, marked) && |probeMarks| == 2 * variableCount + 2
      modifies this`clauses, this`watches, this`propagated, this`control, this`level, this`seenFrames
      modifies this`values, this`levels, this`reasons, this`positions, this`savedPhase, this`trail, heap
      modifies this`unitRefs, this`nextRef, this`probeUnitCount, this`rootRefuted, this`probeMarks, this`marked,
               this`lifted
      ensures OnlyUnitsAdded(old(clauses), clauses) && MarksExact(probeMarks, marked)
              && |probeMarks| == old(|probeMarks|)
      ensures ok ==> ProbeReady() && rootRefuted == old(rootRefuted)
      ensures !ok ==> rootRefuted && Settled() && UpRefutes(clauses)
      ensures effort <= left + 2 * variableCount && probeUnitCount >= old(probeUnitCount)
      ensures ok ==> ProbedAt(old(Snap()), v, left > 0, Snap())
      ensures probeUnitCount == old(probeUnitCount) ==> ok && SameRoot(old(Snap()), Snap())
    {
      hide Invariant, WatchInvariant, Value, OnlyUnitsAdded, UpRefutes, Settled, SearchOk, Implications, MarksExact,
           ProbedAt, SameRoot, InBinary, Snap;
      SnapIs();
      NothingAdded(clauses, clauses);
      var positive := MakeLit(v, false);
      ReadyValue(positive);
      ReadyLists(positive);
      SameRootItself(Snap());
      left, ok := effort, true;
      if values[positive] != 0 {
        NotProbed(Snap(), v, left > 0);
        return;
      }
      var first := HasBinary(positive);
      var second := HasBinary(Neg(positive));
      ReadyBinaries(positive);
      if !first && !second {
        NotProbed(Snap(), v, left > 0);
        return;
      }
      left, ok := ProbeBoth(positive, effort);
    }

    /** Probes both polarities of an open literal. */
    method ProbeBoth(positive: Lit, effort: nat) returns (left: nat, ok: bool)
      requires !wantChain && ProbeReady() && ValidLit(variableCount, positive) && Value(Snap(), positive) == 0
      requires MarksExact(probeMarks, marked) && |probeMarks| == 2 * variableCount + 2 && !IsNegated(positive)
      requires InBinary(clauses, positive) || InBinary(clauses, Neg(positive))
      modifies this`clauses, this`watches, this`propagated, this`control, this`level, this`seenFrames
      modifies this`values, this`levels, this`reasons, this`positions, this`savedPhase, this`trail, heap
      modifies this`unitRefs, this`nextRef, this`probeUnitCount, this`rootRefuted, this`probeMarks, this`marked,
               this`lifted
      ensures OnlyUnitsAdded(old(clauses), clauses) && MarksExact(probeMarks, marked)
              && |probeMarks| == old(|probeMarks|)
      ensures ok ==> ProbeReady() && rootRefuted == old(rootRefuted)
      ensures !ok ==> rootRefuted && Settled() && UpRefutes(clauses)
      ensures effort <= left + 2 * variableCount && probeUnitCount >= old(probeUnitCount)
      ensures ok ==> ProbedAt(old(Snap()), Var(positive), left > 0, Snap())
      ensures probeUnitCount == old(probeUnitCount) ==> ok && SameRoot(old(Snap()), Snap())
    {
      hide Invariant, WatchInvariant, Value, OnlyUnitsAdded, UpRefutes, Settled, SearchOk, Implications, MarksExact,
           ProbedAt, SameRoot, Tried, KeepsValues, InBinary, Snap;
      SnapIs();
      ghost var s := Snap();
      ghost var failed, t;
      var stop;
      left, stop, ok, failed, t := ProbePositive(positive, effort);
      TrialLengths(s, positive, t, failed);
      if stop {
        PositiveProbed(s, positive, t, failed, left > 0, Snap());
        return;
      }
      SnapIs();
      ghost var before, middle, other, u := clauses, Snap(), false, t;
      left, ok, other, u := ProbeNegative(positive, left);
      AddedTransitive(old(clauses), before, clauses);
      TrialLengths(middle, Neg(positive), u, other);
      BothProbed(s, middle, positive, t, u, other, ok, left > 0, Snap());
      RootsJoin(s, middle, Snap());
    }

    /** The watch lists know which literals occur in binary clauses. */
    lemma ReadyBinaries(l: Lit)
      requires ProbeReady() && l < |watches| && Neg(l) < |watches|
      ensures (exists i :: 0 <= i < |watches[l]| && watches[l][i].binary) <==> InBinary(clauses, l)
      ensures (exists i :: 0 <= i < |watches[Neg(l)]| && watches[Neg(l)][i].binary) <==> InBinary(clauses, Neg(l))
    {
      BinariesWatched(Snap(), l);
      BinariesWatched(Snap(), Neg(l));
    }

    lemma ReadyLists(l: Lit)
      requires ProbeReady() && ValidLit(variableCount, l)
      ensures l < |watches| && Neg(l) < |watches|
    {
      ValidIsInBounds(Snap(), l);
    }

    lemma ReadySearches()
      requires ProbeReady()
      ensures SearchOk(Snap()) && Snap().n == variableCount
    {
    }

    /** One round over the variables, as far as the effort reaches. */
    method ProbeRound(effort: nat) returns (ok: bool)
      requires !wantChain && ProbeReady() && MarksExact(probeMarks, marked) && |probeMarks| == 2 * variableCount + 2
      modifies this`clauses, this`watches, this`propagated, this`control, this`level, this`seenFrames
      modifies this`values, this`levels, this`reasons, this`positions, this`savedPhase, this`trail, heap
      modifies this`unitRefs, this`nextRef, this`probeUnitCount, this`rootRefuted, this`probeMarks, this`marked,
               this`lifted
      ensures OnlyUnitsAdded(old(clauses), clauses) && MarksExact(probeMarks, marked)
              && |probeMarks| == old(|probeMarks|)
      ensures ok ==> ProbeReady() && rootRefuted == old(rootRefuted)
      ensures !ok ==> rootRefuted && Settled() && UpRefutes(clauses)
      ensures probeUnitCount >= old(probeUnitCount)
      ensures ok && probeUnitCount == old(probeUnitCount) && effort > RoundCost(variableCount) ==> ProbedOut(Snap())
    {
      hide ProbeReady, OnlyUnitsAdded, UpRefutes, Settled, MarksExact, SameRoot, ProbedUpTo, ProbedAt, ProbedOut, Snap;
      SnapIs();
      NothingAdded(clauses, clauses);
      ProbedNone(Snap());
      var v := 1;
      var left: nat := effort;
      while v <= variableCount && left != 0
        invariant 1 <= v <= variableCount + 1 && ProbeReady() && rootRefuted == old(rootRefuted)
        invariant OnlyUnitsAdded(old(clauses), clauses) && MarksExact(probeMarks, marked)
        invariant |probeMarks| == old(|probeMarks|) && probeUnitCount >= old(probeUnitCount)
        invariant effort <= left + 2 * variableCount * (v - 1)
        invariant probeUnitCount == old(probeUnitCount) && left > 0 ==> ProbedUpTo(Snap(), v)
      {
        ghost var before, s, count := clauses, Snap(), probeUnitCount;
        ReadySearches();
        left, ok := ProbeVariable(v, left);
        AddedTransitive(old(clauses), before, clauses);
        if !ok {
          return;
        }
        if probeUnitCount == count && ProbedUpTo(s, v) && left > 0 {
          ReadySearches();
          ProbedOneMore(s, v, Snap());
        }
        MoreSpent(effort, variableCount, v);
        v := v + 1;
      }
      ok := true;
      SnapIs();
      SpentOnAll(effort, variableCount, v);
      if v == variableCount + 1 && ProbedUpTo(Snap(), v) {
        ProbedAll(Snap());
      }
    }

    /** Probes literals at the root in rounds. The clauses it adds are units that follow from the formula, and it
        reports a refutation only when there is none left to satisfy. */
    method ProbeFailedLiterals(baseEffort: nat)
      requires level == 0 ==> RootInvariant()
      requires !rootRefuted && Warranted(limits, counters)
      modifies this`clauses, this`watches, this`propagated, this`control, this`level, this`seenFrames
      modifies this`values, this`levels, this`reasons, this`positions, this`savedPhase, this`trail, heap
      modifies this`unitRefs, this`nextRef, this`probeUnitCount, this`rootRefuted, this`probeMarks, this`marked,
               this`lifted
      ensures OnlyUnitsAdded(old(clauses), clauses)
      ensures rootRefuted ==> Settled() && UpRefutes(clauses)
      ensures !rootRefuted && old(level) == 0 ==> RootInvariant()
      ensures !rootRefuted && old(level) == 0 && variableCount > 0 && !wantChain
              && baseEffort > RoundCost(variableCount) ==>
                || UnitClash(Snap())
                || (AtRest(Snap())
                    && (probeUnitCount >= old(probeUnitCount) + PROBE_ROUNDS || ProbedOut(Snap())))
    {
      hide RootInvariant, Invariant, WatchInvariant, OnlyUnitsAdded, UpRefutes, Settled, UnitsTrue, UnitClash, Extends,
           ProbedOut, AtRest, RoundCost, Snap;
      NothingAdded(clauses, clauses);
      if variableCount == 0 || level != 0 || wantChain {
        return;
      }
      var ok := AssignRootUnits();
      if !ok {
        return;
      }
      RootIsRun();
      ok := ProbeFrom(baseEffort);
    }

    /** Root propagation and the rounds of probing. */
    method ProbeFrom(baseEffort: nat) returns (ok: bool)
      requires !wantChain && Invariant(assumptions) && WatchInvariant(Snap()) && level == 0 && !rootRefuted
      modifies this`clauses, this`watches, this`propagated, this`control, this`level, this`seenFrames
      modifies this`values, this`levels, this`reasons, this`positions, this`savedPhase, this`trail, heap
      modifies this`unitRefs, this`nextRef, this`probeUnitCount, this`rootRefuted, this`probeMarks, this`marked,
               this`lifted
      ensures OnlyUnitsAdded(old(clauses), clauses)
      ensures ok ==> RootInvariant() && !rootRefuted
      ensures !ok ==> rootRefuted && Settled() && UpRefutes(clauses)
      ensures ok && baseEffort > RoundCost(variableCount) ==>
                probeUnitCount >= old(probeUnitCount) + PROBE_ROUNDS || ProbedOut(Snap())
      ensures ok ==> AtRest(Snap())
    {
      hide RootInvariant, Invariant, WatchInvariant, OnlyUnitsAdded, UpRefutes, Settled, ConflictFound, WatchesOk,
           Progress, RankFrom, ProbedOut, RoundCost, Extends;
      ghost var s := Snap();
      var conflict := PropagateRun(assumptions);
      NothingAdded(s.db, s.db);
      AddedProgress(s.db, s, Snap());
      ProgressExtends(s, Snap());
      if conflict.Because? {
        RootConflictRefutes(conflict.ref);
        rootRefuted := true;
        return false;
      }
      s := Snap();
      ok := ProbeRounds(baseEffort);
      AddedTransitive(old(clauses), s.db, clauses);
      if ok {
        RunIsAtRoot();
        RunHasUnits();
      }
    }

    /** Rounds of probing: a unit of one round falsifies further probes in the next. */
    method ProbeRounds(baseEffort: nat) returns (ok: bool)
      requires !wantChain && ProbeReady() && !rootRefuted
      modifies this`clauses, this`watches, this`propagated, this`control, this`level, this`seenFrames
      modifies this`values, this`levels, this`reasons, this`positions, this`savedPhase, this`trail, heap
      modifies this`unitRefs, this`nextRef, this`probeUnitCount, this`rootRefuted, this`probeMarks, this`marked,
               this`lifted
      ensures OnlyUnitsAdded(old(clauses), clauses)
      ensures ok ==> ProbeReady() && !rootRefuted
      ensures !ok ==> rootRefuted && Settled() && UpRefutes(clauses)
      ensures ok && baseEffort > RoundCost(variableCount) ==>
                probeUnitCount >= old(probeUnitCount) + PROBE_ROUNDS || ProbedOut(Snap())
    {
      hide ProbeReady, OnlyUnitsAdded, UpRefutes, Settled, MarksExact, ProbedOut, Snap;
      NothingAdded(clauses, clauses);
      probeMarks, marked := seq(2 * variableCount + 2, _ => false), [];
      NoMarks(probeMarks);
      var round := 0;
      var effort: nat := baseEffort;
      while round < PROBE_ROUNDS
        invariant 0 <= round <= PROBE_ROUNDS && ProbeReady() && !rootRefuted && effort >= baseEffort
        invariant probeUnitCount >= old(probeUnitCount) + round
        invariant OnlyUnitsAdded(old(clauses), clauses) && MarksExact(probeMarks, marked)
        invariant |probeMarks| == 2 * variableCount + 2
      {
        if round != 0 {
          effort := baseEffort * PROBE_ROUND_GROWTH;
        }
        var unitsBefore := probeUnitCount;
        ghost var before := clauses;
        ok := ProbeRound(effort);
        AddedTransitive(old(clauses), before, clauses);
        if !ok {
          return;
        }
        if probeUnitCount == unitsBefore {
          break;
        }
        round := round + 1;
      }
      ok := true;
    }

    // -------------------------------------------------------------------------------------------
    // Lucky assignments
    // -------------------------------------------------------------------------------------------

    /** Decides and propagates one open variable of an attempt. */
    method LuckyStep(v: nat, negative: bool, ghost rootTrail: nat) returns (failed: bool)
      requires Invariant(assumptions) && WatchInvariant(Snap()) && propagated == |trail| && |assumptions| <= level
      requires 1 <= v <= variableCount && 2 * v < |values| && values[2 * v] == 0 && Begin(Snap(), 1) == rootTrail
      modifies this`clauses, this`watches, this`propagated, this`control, this`level, this`seenFrames
      modifies this`values, this`levels, this`reasons, this`positions, this`savedPhase, this`trail
      ensures Invariant(assumptions) && |assumptions| <= level && Begin(Snap(), 1) == rootTrail
      ensures level == old(level) + 1 && control == old(control) + [Frame(old(|trail|), MakeLit(v, negative))]
      ensures Extends(old(Snap()), Snap()) && Value(Snap(), MakeLit(v, false)) != 0 && Onward(old(Snap()), Snap())
      ensures if failed then level >= 1 && SoundOrStopped(Snap(), 0) && HasConflict(Snap())
              else WatchInvariant(Snap()) && propagated == |trail|
    {
      hide Running, SearchOk, Represents, WatchInvariant, StampsOk, RefsBelow, Covered, CoveredBut, Branchable,
           Progress, ConflictFound, Value, SoundOrStopped, Decide, RankFrom, WatchesOk, ProofOk, HasConflict, Onward;
      RunningParts(formula, Snap(), Scr(), unitRefs, assumptions);
      var decision := MakeLit(v, negative);
      OpenVariable(Snap(), v, decision);
      TrialLonger(Snap(), decision);
      RootEndAfterDeciding(Snap(), decision);
      CoveredAny(variableCount, values, v, heap.Candidates());
      ghost var s := Snap();
      DecideLit(decision, assumptions);
      ghost var t := Snap();
      DecidedTables(s, decision);
      failed := LuckyPropagate();
      DecidedOnward(s, decision, Snap());
      ExtendsTransitive(s, t, Snap());
      DecisionStays(t, Snap(), v, decision);
    }

    method LuckyPropagate() returns (failed: bool)
      requires Invariant(assumptions) && WatchInvariant(Snap()) && level >= 1
      modifies this`clauses, this`watches, this`propagated
      modifies this`values, this`levels, this`reasons, this`positions, this`savedPhase, this`trail
      ensures Invariant(assumptions) && Begin(Snap(), 1) == old(Begin(Snap(), 1))
      ensures Extends(old(Snap()), Snap()) && control == old(control) && level == old(level)
      ensures Progress(old(Snap()), Snap())
      ensures if failed then level >= 1 && SoundOrStopped(Snap(), 0) && HasConflict(Snap())
              else WatchInvariant(Snap()) && propagated == |trail|
    {
      hide Running, SearchOk, Represents, WatchInvariant, Equipped, Progress, ConflictFound, SoundOrStopped, RankFrom,
           WatchesOk, Begin;
      ghost var s := Snap();
      RunningParts(formula, s, Scr(), unitRefs, assumptions);
      var conflict := PropagateRun(assumptions);
      ProgressExtends(s, Snap());
      RootEndAfterProgress(s, Snap());
      failed := conflict.Because?;
      if failed {
        FailedStops(Snap(), conflict.ref);
      }
    }

    lemma FailedStops(s: State, q: Ref)
      requires ConflictFound(s, q) && WatchesOk(s.db, s.watches) && s.level >= 1
      ensures SoundOrStopped(s, 0) && HasConflict(s)
    {
    }

    /** One attempt: every variable still open when its turn comes gets the same polarity, in ascending or descending
        order. Without a conflict, and unless a limit stops it, every variable is assigned in the end. */
    method Attempt(negative: bool, backward: bool, countDecisions: bool, ghost rootTrail: nat)
      returns (failed: bool, stopped: bool)
      requires ProbeReady() && assumptions == [] && Begin(Snap(), 1) == rootTrail
      modifies this`clauses, this`watches, this`propagated, this`control, this`level, this`seenFrames, this`counters
      modifies this`values, this`levels, this`reasons, this`positions, this`savedPhase, this`trail
      ensures Invariant(assumptions) && Begin(Snap(), 1) == rootTrail
      ensures if failed then level >= 1 && SoundOrStopped(Snap(), 0) && HasConflict(Snap())
              else WatchInvariant(Snap()) && propagated == |trail|
      ensures Uniform(control, negative, backward)
      ensures !failed && !stopped ==> AllAssigned(Snap())
      ensures (stopped ==> counters.terminated) && OnlyDecides(old(counters), counters)
      ensures Onward(old(Snap()), Snap())
    {
      hide Invariant, WatchInvariant, SoundOrStopped, Begin, Snap, Uniform, VisitedBefore, AssignedBefore, AllAssigned,
           Extends, HasConflict, Onward;
      OnwardItself(Snap());
      var step := 1;
      failed, stopped := false, false;
      OneFrame();
      NothingVisited(control, negative, backward, variableCount);
      AssignedNone(Snap(), backward);
      while step <= variableCount && !failed
        invariant 1 <= step <= variableCount + 1 && Invariant(assumptions) && Begin(Snap(), 1) == rootTrail
        invariant if failed then level >= 1 && SoundOrStopped(Snap(), 0) && HasConflict(Snap())
                  else WatchInvariant(Snap()) && propagated == |trail|
        invariant |control| >= 1 && Uniform(control, negative, backward) && OnlyDecides(old(counters), counters)
        invariant Onward(old(Snap()), Snap())
        invariant VisitedBefore(control, backward, variableCount, step)
        invariant failed || AssignedBefore(Snap(), backward, step)
      {
        var v := if backward then variableCount + 1 - step else step;
        ghost var s := Snap();
        SnapIs();
        stopped, failed := TakeTurn(v, step, negative, backward, countDecisions, rootTrail);
        OnwardTransitive(old(Snap()), s, Snap());
        if stopped {
          return;
        }
        if !failed {
          SnapIs();
          AssignedMore(s, Snap(), v, backward, step);
        }
        step := step + 1;
      }
      if !failed {
        SnapIs();
        AssignedEvery(Snap(), backward);
      }
    }

    /** One variable's turn in an attempt. */
    method TakeTurn(v: nat, ghost step: nat, negative: bool, backward: bool, countDecisions: bool, ghost rootTrail: nat)
      returns (stopped: bool, failed: bool)
      requires Invariant(assumptions) && WatchInvariant(Snap()) && propagated == |trail| && assumptions == []
      requires 1 <= v <= variableCount && v == TurnOf(variableCount, step, backward) && Begin(Snap(), 1) == rootTrail
      requires |control| >= 1 && Uniform(control, negative, backward)
               && VisitedBefore(control, backward, variableCount, step)
      modifies this`clauses, this`watches, this`propagated, this`control, this`level, this`seenFrames, this`counters
      modifies this`values, this`levels, this`reasons, this`positions, this`savedPhase, this`trail
      ensures Invariant(assumptions) && Begin(Snap(), 1) == rootTrail
      ensures if failed then level >= 1 && SoundOrStopped(Snap(), 0) && HasConflict(Snap())
              else WatchInvariant(Snap()) && propagated == |trail|
      ensures |control| >= 1 && Uniform(control, negative, backward)
              && VisitedBefore(control, backward, variableCount, step + 1)
      ensures !stopped ==> Extends(old(Snap()), Snap()) && Value(Snap(), MakeLit(v, false)) != 0
      ensures stopped ==> !failed && counters.terminated
      ensures Onward(old(Snap()), Snap())
      ensures OnlyDecides(old(counters), counters)
    {
      hide Invariant, WatchInvariant, SoundOrStopped, Begin, Snap, Uniform, VisitedBefore, Extends, Value, HasConflict,
           Onward;
      InvariantTables(v);
      OnwardItself(Snap());
      stopped, failed := false, false;
      VisitedMore(control, backward, variableCount, step);
      if values[2 * v] != 0 {
        SameExtends(Snap());
        return;
      }
      if countDecisions {
        NoteDecision();
        if counters.terminated {
          return true, false;
        }
      }
      ghost var decided, begin := control, |trail|;
      failed := LuckyStep(v, negative, rootTrail);
      OneMoreDecided(decided, control, v, begin, negative, backward, variableCount, step);
    }

    /** At the root there is one frame. */
    lemma OneFrame()
      requires ProbeReady()
      ensures |control| == 1 && Snap().n == variableCount
    {
      RunningParts(formula, Snap(), Scr(), unitRefs, assumptions);
    }

    lemma InvariantTables(v: nat)
      requires Invariant(assumptions) && 1 <= v <= variableCount
      ensures 2 * v < |values| && Value(Snap(), MakeLit(v, false)) == values[2 * v]
    {
      RunningParts(formula, Snap(), Scr(), unitRefs, assumptions);
      assert MakeLit(v, false) == 2 * v;
    }

    /** Goes back to the root after an attempt. */
    method LeaveAttempt(rootTrail: nat)
      requires Invariant(assumptions) && SoundOrStopped(Snap(), 0) && Begin(Snap(), 1) == rootTrail
      requires level == 0 ==> propagated == |trail|
      modifies this`values, this`trail, this`propagated, this`control, this`level, this`seenFrames, heap
      ensures ProbeReady() && Begin(Snap(), 1) == rootTrail
      ensures clauses == old(clauses) && rootTrail <= old(|trail|) && trail == old(trail)[..rootTrail]
      ensures |old(control)| >= 1 && control == old(control)[..1]
    {
      hide Running, SearchOk, Represents, Equipped, WatchInvariant, SoundOrStopped, BackTo, Snap;
      SnapIs();
      ghost var s := Snap();
      RunningParts(formula, s, Scr(), unitRefs, assumptions);
      GoBack(0, assumptions);
      BackAtRoot(s, Snap());
      SnapIs();
      RunningParts(formula, Snap(), Scr(), unitRefs, assumptions);
      assert propagated == rootTrail;
      propagated := rootTrail;
    }

    /** Tries four uniform assignments. Success is a model; a conflict at the root refutes the formula. */
    method TryLuckyAssignments(countDecisions: bool) returns (lucky: bool, ghost tried: seq<State>)
      requires level == 0 ==> RootInvariant()
      requires !rootRefuted && Warranted(limits, counters)
      modifies this`clauses, this`watches, this`propagated, this`control, this`level, this`seenFrames, this`counters
      modifies this`values, this`levels, this`reasons, this`positions, this`savedPhase, this`trail, this`rootRefuted,
               heap
      ensures lucky ==> SatisfiesAll(Model(Snap()), formula) && Total(Snap()) && assumptions == [] && Settled()
      ensures rootRefuted ==> !lucky && Settled() && UpRefutes(clauses)
      ensures !lucky && !rootRefuted && old(level) == 0 ==> RootInvariant() && Warranted(limits, counters)
      ensures !lucky && !rootRefuted && assumptions == [] && variableCount > 0 && old(level) == 0 ==>
                counters.terminated || UnitClash(Snap()) || AllFailed(formula, variableCount, tried)
      ensures !lucky && !rootRefuted && old(AtRest(Snap())) ==>
                SameRoot(old(Snap()), Snap()) && UnitsTrue(Snap())
      ensures old(level) == 0 && old(UnitClash(Snap())) ==> !lucky && !rootRefuted && UnitClash(Snap())
      ensures OnlyDecides(old(counters), counters)
    {
      hide AtRoot, Running, Equipped, WatchInvariant, UpRefutes, Settled, UnitsTrue, UnitClash, Extends, ConflictFound,
           WatchesOk, Progress, RankFrom, SatisfiesAll, AllFailed;
      tried := [];
      if assumptions != [] || variableCount == 0 || level != 0 {
        return false, tried;
      }
      var ok := AssignRootUnits();
      if !ok {
        return false, tried;
      }
      RootRuns(formula, Snap(), Scr(), unitRefs, assumptions);
      RootStays(formula, Snap(), Scr(), unitRefs);
      lucky, tried := LuckyFrom(countDecisions);
    }

    method LuckyFrom(countDecisions: bool) returns (lucky: bool, ghost tried: seq<State>)
      requires Invariant(assumptions) && WatchInvariant(Snap()) && level == 0 && assumptions == []
      requires !rootRefuted
      modifies this`clauses, this`watches, this`propagated, this`control, this`level, this`seenFrames, this`counters
      modifies this`values, this`levels, this`reasons, this`positions, this`savedPhase, this`trail, this`rootRefuted,
               heap
      ensures lucky ==> SatisfiesAll(Model(Snap()), formula) && Total(Snap()) && Settled()
      ensures rootRefuted ==> !lucky && Settled() && UpRefutes(clauses)
      ensures !lucky && !rootRefuted ==> RootInvariant() && Warranted(limits, counters)
      ensures !lucky && !rootRefuted ==> counters.terminated || AllFailed(formula, variableCount, tried)
      ensures !lucky && !rootRefuted ==> UnitsTrue(Snap())
      ensures !lucky && !rootRefuted && old(propagated == |trail|) ==> SameRoot(old(Snap()), Snap())
      ensures OnlyDecides(old(counters), counters)
    {
      hide Invariant, RootInvariant, WatchInvariant, UpRefutes, Settled, ConflictFound, WatchesOk, Progress, RankFrom,
        SatisfiesAll, AllFailed, SameRoot, UnitsTrue, Snap;
      tried := [];
      SnapIs();
      var conflict := PropagateRun(assumptions);
      SnapIs();
      if conflict.Because? {
        RootConflictRefutes(conflict.ref);
        rootRefuted := true;
        return false, tried;
      }
      lucky, tried := LuckyRounds(countDecisions);
      if !lucky {
        RunIsAtRoot();
        RunHasUnits();
      }
    }

    /** The root trail ends where the first level begins. */
    lemma RootTrailEnds()
      requires ProbeReady()
      ensures Begin(Snap(), 1) == |trail|
    {
      RootEnd(formula, Snap(), Scr(), unitRefs, assumptions);
    }

    /** An attempt that assigns everything without a conflict has found a model. */
    lemma LuckyAnswer()
      requires Invariant([]) && WatchInvariant(Snap()) && propagated == |trail| == variableCount
      ensures SatisfiesAll(Model(Snap()), formula) && Total(Snap()) && Settled()
    {
      LuckyModel(formula, Snap(), Scr(), unitRefs);
      RunIsStated([]);
    }

    /** Four attempts, each until it fails: without a model all of them end in a conflict, unless a limit stops the
        run. */
    method LuckyRounds(countDecisions: bool) returns (lucky: bool, ghost tried: seq<State>)
      requires ProbeReady() && assumptions == []
      modifies this`clauses, this`watches, this`propagated, this`control, this`level, this`seenFrames, this`counters
      modifies this`values, this`levels, this`reasons, this`positions, this`savedPhase, this`trail, heap
      ensures lucky ==> SatisfiesAll(Model(Snap()), formula) && Total(Snap()) && Settled()
      ensures lucky ==> exists k: nat :: k < ATTEMPTS && Uniform(control, AllFalse(k), FromHighest(k))
      ensures !lucky ==> ProbeReady() && (counters.terminated || AllFailed(formula, variableCount, tried))
      ensures !lucky ==> SameRoot(old(Snap()), Snap())
      ensures OnlyDecides(old(counters), counters)
    {
      hide Invariant, WatchInvariant, SatisfiesAll, Settled, Begin, Uniform, FailedAttempt, SameRoot, Snap;
      ghost var root := Snap();
      SameRootItself(root);
      var rootTrail := |trail|;
      RootTrailEnds();
      tried := [];
      var strategy := 0;
      while strategy < ATTEMPTS
        invariant 0 <= strategy <= ATTEMPTS && ProbeReady() && |trail| == rootTrail && |tried| == strategy
        invariant forall k :: 0 <= k < strategy ==>
                    FailedAttempt(formula, variableCount, tried[k], AllFalse(k), FromHighest(k))
        invariant OnlyDecides(old(counters), counters) && SameRoot(root, Snap())
      {
        ghost var before, far := Snap(), Snap();
        var stopped;
        lucky, stopped, far := TryAttempt(AllFalse(strategy), FromHighest(strategy), countDecisions, rootTrail);
        if lucky {
          return lucky, tried;
        }
        RootsJoin(root, before, Snap());
        tried := tried + [far];
        if stopped {
          break;
        }
        strategy := strategy + 1;
      }
      RenewPhases();
      lucky := false;
    }

    /** One attempt: a model, or back at the root after a conflict or on reaching a limit. */
    method TryAttempt(negative: bool, backward: bool, countDecisions: bool, rootTrail: nat)
      returns (lucky: bool, stopped: bool, ghost far: State)
      requires ProbeReady() && assumptions == [] && |trail| == rootTrail
      modifies this`clauses, this`watches, this`propagated, this`control, this`level, this`seenFrames, this`counters
      modifies this`values, this`levels, this`reasons, this`positions, this`savedPhase, this`trail, heap
      ensures lucky ==> SatisfiesAll(Model(Snap()), formula) && Total(Snap()) && Settled()
      ensures lucky ==> Uniform(control, negative, backward)
      ensures !lucky ==> ProbeReady() && |trail| == rootTrail && SameRoot(old(Snap()), Snap())
      ensures !lucky && !stopped ==> FailedAttempt(formula, variableCount, far, negative, backward)
      ensures (stopped ==> counters.terminated) && OnlyDecides(old(counters), counters)
    {
      hide Invariant, WatchInvariant, SatisfiesAll, SoundOrStopped, Settled, Begin, Uniform, FailedAttempt, HasConflict,
           AllAssigned, SameRoot, Onward, Snap;
      SnapIs();
      OneFrame();
      RootTrailEnds();
      ghost var root := Snap();
      var failed;
      failed, stopped := Attempt(negative, backward, countDecisions, rootTrail);
      far := Snap();
      AttemptEnds(failed, stopped, negative, backward);
      if !failed && !stopped && |trail| == variableCount {
        LuckyAnswer();
        return true, stopped, far;
      }
      SoundIsEnough(Snap());
      SnapIs();
      LeaveAttempt(rootTrail);
      SnapIs();
      AttemptUndone(root, far, Snap());
      lucky := false;
    }

    /** An attempt that is not stopped assigns everything or ends in a conflict. */
    lemma AttemptEnds(failed: bool, stopped: bool, negative: bool, backward: bool)
      requires Invariant(assumptions) && Uniform(control, negative, backward)
      requires failed ==> level >= 1 && HasConflict(Snap())
      requires !failed && !stopped ==> AllAssigned(Snap())
      ensures !failed && !stopped ==> |trail| == variableCount
      ensures failed ==> FailedAttempt(formula, variableCount, Snap(), negative, backward)
    {
      hide SearchOk, HasConflict, Uniform, Represents, Clean, AllAssigned;
      RunningParts(formula, Snap(), Scr(), unitRefs, assumptions);
      if !failed && !stopped {
        TrailIsFull(Snap());
      }
    }

    // -------------------------------------------------------------------------------------------
    // The start of a run
    // -------------------------------------------------------------------------------------------

    /** The variables a run is over: those stated, those of the clauses held and those assumed. */
    method FindMaxVariable(assumed: seq<Lit>) returns (n: nat)
      requires WellFormed(clauses)
      ensures n >= maxProblemVariable && DatabaseOk(n, clauses) && VarsUpTo(assumed, n)
      ensures n == maxProblemVariable || Names(assumed, n) || exists r :: r in clauses && Names(clauses[r].lits, n)
    {
      hide WellFormed, DatabaseOk, VarsUpTo;
      n := maxProblemVariable;
      var todo := clauses.Keys;
      while todo != {}
        invariant todo <= clauses.Keys && n >= maxProblemVariable
        invariant forall r :: r in clauses && r !in todo ==> VarsUpTo(clauses[r].lits, n)
        invariant n == maxProblemVariable || exists r :: r in clauses && Names(clauses[r].lits, n)
        decreases |todo|
      {
        var ref :| ref in todo;
        var before := n;
        n := LargestVariable(clauses[ref].lits, n);
        forall r | r in clauses && r !in todo ensures VarsUpTo(clauses[r].lits, n) {
          VarsUpToMore(clauses[r].lits, before, n);
        }
        todo := todo - {ref};
      }
      var before := n;
      n := LargestVariable(assumed, n);
      forall r | r in clauses ensures VarsUpTo(clauses[r].lits, n) {
        VarsUpToMore(clauses[r].lits, before, n);
      }
      BoundedIsOk(clauses, n);
    }

    /** The largest variable of a clause, or the bound so far. */
    method LargestVariable(lits: Clause, bound: nat) returns (n: nat)
      ensures n >= bound && VarsUpTo(lits, n) && (n == bound || Names(lits, n))
    {
      n := bound;
      var i := 0;
      while i < |lits|
        invariant 0 <= i <= |lits| && n >= bound && (n == bound || exists k :: 0 <= k < i && Var(lits[k]) == n)
        invariant forall k :: 0 <= k < i ==> Var(lits[k]) <= n
      {
        if Var(lits[i]) > n {
          n := Var(lits[i]);
        }
        i := i + 1;
      }
    }

    /** Every variable becomes a branching candidate. */
    method FillHeap(n: nat)
      requires heap.Valid()
      modifies heap
      ensures heap.Valid() && |heap.score| > n && AllCandidates(n, heap.Candidates())
    {
      hide Support, Tables, OrderedAbove;
      heap.Resize(n);
      heap.Clear();
      var v := 1;
      while v <= n
        invariant 1 <= v <= n + 1 && heap.Valid() && |heap.score| > n
        invariant forall u :: u in heap.Candidates() <==> 1 <= u < v
      {
        heap.Push(v);
        v := v + 1;
      }
    }

    /** Sizes the assignment tables, with nothing assigned. */
    method BlankAssignment(n: nat)
      modifies this`values, this`levels, this`reasons, this`positions
      ensures values == seq(2 * n + 2, _ => 0) && |levels| == |reasons| == |positions| == n + 1
    {
      values := seq(2 * n + 2, _ => 0);
      levels := seq(n + 1, _ => 0);
      reasons := seq(n + 1, _ => NoReason);
      positions := seq(n + 1, _ => 0);
    }

    /** Empties the trail and the watch lists. */
    method BlankTrail(n: nat)
      modifies this`trail, this`control, this`propagated, this`level, this`watches
      ensures trail == [] && control == [Frame(0, NO_LITERAL)] && level == 0 && propagated == 0
      ensures |watches| == 2 * n + 2
    {
      trail, control, level, propagated := [], [Frame(0, NO_LITERAL)], 0, 0;
      watches := seq(2 * n + 2, _ => []);
    }

    /** Phases persist from one run to the next; variables new to this one start positive. */
    method ResizePhases(slots: nat)
      modifies this`savedPhase
      ensures |savedPhase| == slots && KeepsPhases(old(savedPhase), savedPhase)
    {
      savedPhase := if |savedPhase| < slots then savedPhase + seq(slots - |savedPhase|, _ => 1)
          else savedPhase[..slots];
    }

    /** Empties the assignment, the trail and the scratch tables. */
    method BlankTables(n: nat)
      modifies this`variableCount, this`values, this`levels, this`reasons, this`positions, this`trail, this`control
      modifies this`propagated, this`level, this`watches
      modifies this`flags, this`analyzed, this`minimized, this`levelsTouched, this`seenFrames, this`chainStamps,
               this`chainStamp
      ensures variableCount == n && Blank(Snap(), Scr()) && StampsOk() && |levels| == n + 1
      ensures trail == [] && propagated == 0 && values == seq(2 * n + 2, _ => 0)
    {
      hide StampsBelow;
      variableCount := n;
      BlankAssignment(n);
      BlankTrail(n);
      BlankScratch(n);
    }

    method BlankScratch(n: nat)
      modifies this`flags, this`analyzed, this`minimized, this`levelsTouched, this`seenFrames, this`chainStamps,
               this`chainStamp
      ensures Scr() == Scratch(seq(n + 1, _ => NO_FLAGS), [], [], [], [NO_SEEN])
      ensures |chainStamps| == n + 1 && StampsBelow(chainStamps, chainStamp) && chainStamp < STAMP_MODULUS
    {
      flags := seq(n + 1, _ => NO_FLAGS);
      analyzed, minimized, levelsTouched, seenFrames := [], [], [], [NO_SEEN];
      chainStamps, chainStamp := seq(n + 1, _ => 0), 0;
    }

    /** Prepares a run under assumptions: empty tables, every clause attached. */
    method InitializeRun(assumed: seq<Lit>, conflicts: nat, decisions: nat)
      requires Stated() && heap.Valid()
      modifies this`variableCount, this`values, this`levels, this`reasons, this`positions, this`trail, this`control
      modifies this`propagated, this`level, this`watches, this`savedPhase, this`assumptions, this`failedCore
      modifies this`flags, this`analyzed, this`minimized, this`levelsTouched, this`seenFrames, this`chainStamps,
               this`chainStamp
      modifies this`unitRefs, this`limits, this`counters, this`rootRefuted, heap
      ensures RootInvariant() && level == 0 && assumptions == assumed && failedCore == [] && !rootRefuted
      ensures forall i :: 0 <= i < |assumed| ==> Var(assumed[i]) <= variableCount
      ensures variableCount >= maxProblemVariable && trail == [] && propagated == 0
              && values == seq(2 * variableCount + 2, _ => 0)
      ensures AllCandidates(variableCount, heap.Candidates()) && KeepsPhases(old(savedPhase), savedPhase)
      ensures limits == Limits(conflicts, decisions) && counters == NOTHING_COUNTED
    {
      hide DatabaseOk, WellFormed, Represents, RefsBelow, AtRoot, StampsOk, Equipped, Support, Snap, Scr, TranscriptOk;
      BeginRun(assumed, conflicts, decisions);
      var n := FindMaxVariable(assumed);
      PrepareTables(n);
      OfferAll();
    }

    /** Takes the assumptions and the limits, and forgets how the last run ended. */
    method BeginRun(assumed: seq<Lit>, conflicts: nat, decisions: nat)
      modifies this`assumptions, this`failedCore, this`limits, this`counters
      modifies this`rootRefuted
      ensures assumptions == assumed && failedCore == [] && !rootRefuted
      ensures limits == Limits(conflicts, decisions) && counters == NOTHING_COUNTED
    {
      assumptions, failedCore := assumed, [];
      limits, counters := Limits(conflicts, decisions), NOTHING_COUNTED;
      rootRefuted := false;
    }

    /** Makes every variable of the run a branching candidate. */
    method OfferAll()
      requires heap.Valid() && |savedPhase| == |levels| && StampsOk() && RefsBelow(clauses, unitRefs, nextRef)
               && ProofOk()
      modifies heap
      ensures Equipped() && AllCandidates(variableCount, heap.Candidates())
    {
      hide RefsBelow, StampsOk, Covered, Branchable, AllCandidates, Support, ProofOk;
      FillHeap(variableCount);
      AllCovered(variableCount, values, heap.Candidates());
    }

    /** Empties the tables and attaches every clause. */
    method PrepareTables(n: nat)
      requires DatabaseOk(n, clauses) && Represents(formula, clauses) && RefsBelow(clauses, [], nextRef)
      modifies this`variableCount, this`values, this`levels, this`reasons, this`positions, this`trail, this`control
      modifies this`propagated, this`level, this`watches, this`savedPhase, this`unitRefs
      modifies this`flags, this`analyzed, this`minimized, this`levelsTouched, this`seenFrames, this`chainStamps,
               this`chainStamp
      ensures AtRoot(formula, Snap(), Scr(), unitRefs) && RefsBelow(clauses, unitRefs, nextRef) && level == 0
      ensures variableCount == n && |savedPhase| == |levels| && StampsOk()
      ensures trail == [] && propagated == 0 && values == seq(2 * n + 2, _ => 0)
              && KeepsPhases(old(savedPhase), savedPhase)
    {
      hide DatabaseOk, Represents, RefsBelow, AtRoot, StampsOk, Blank, Snap, Scr, ProofOk;
      BlankTables(n);
      ResizePhases(n + 1);
      AttachAll();
    }

    /** Attaches every clause to empty tables. */
    method AttachAll()
      requires Blank(Snap(), Scr()) && DatabaseOk(variableCount, clauses) && Represents(formula, clauses)
      requires RefsBelow(clauses, [], nextRef)
      modifies this`watches, this`unitRefs
      ensures AtRoot(formula, Snap(), Scr(), unitRefs) && RefsBelow(clauses, unitRefs, nextRef) && level == 0
    {
      hide DatabaseOk, Represents, RefsBelow, AtRoot, WatchesOk, UnitsListed, Blank, ProofOk;
      ghost var s := Snap();
      BlankSizes(s, Scr());
      RebuildPropagationState();
      ListedBelow(clauses, unitRefs, nextRef);
      BlankLists(s, Scr(), Snap());
      BlankIsReady(formula, Snap(), Scr(), unitRefs);
    }

    /** Solves what has been stated, under assumptions and limits (zero for none): root probing, the lucky check, then
        the search. Every answer is right. There is one unless a limit was reached or the restarts were used up.
        Further clauses and runs may follow. */
    method Solve(assumed: seq<Lit>, conflicts: nat, decisions: nat, restarts: nat, probeEffort: nat)
      returns (answer: Status, ghost start: Moment, ghost search: Search, ghost tried: seq<State>)
      requires Stated() && heap.Valid() && forall i :: 0 <= i < |assumed| ==> 1 <= Var(assumed[i])
      modifies this`variableCount, this`values, this`levels, this`reasons, this`positions, this`trail, this`control
      modifies this`propagated, this`level, this`watches, this`savedPhase, this`assumptions, this`failedCore
      modifies this`flags, this`analyzed, this`minimized, this`levelsTouched, this`seenFrames, this`chainStamps,
               this`chainStamp
      modifies this`unitRefs, this`counters, this`rootRefuted, this`clauses, this`nextRef, this`learned
      modifies this`minimizeStack, this`resolutionChain, this`resolutionVars, this`rootChain, this`rootVars
      modifies this`minimizeChain, this`minimizeVars, this`antecedents, this`proof, this`limits
      modifies this`probeUnitCount, this`probeMarks, this`marked, this`lifted, heap, subsumer
      ensures AnswerOk(answer, formula, Snap(), assumed, failedCore) && variableCount >= maxProblemVariable
      ensures Stated() && heap.Valid()
      ensures wantChain ==> (Checked(proof.log) <==> proof.lossy == {}) && (proof.lossy != {} ==> proof.stayed != {})
      ensures answer == Unsat && failedCore == [] && wantChain && proof.stayed == {} ==>
                Checked(proof.log) && UpRefutes(Live(proof.log))
      ensures answer == Unknown ==>
                || Searched(Job(), start, search, Now(), Unknown, restarts)
                || (counters.terminated && UpRefutes(clauses))
      ensures answer == Unknown ==>
                || LimitHit(conflicts, counters.conflicts) || LimitHit(decisions, counters.decisions)
                || counters.restarts == restarts
      ensures search != NO_SEARCH && assumed == [] && variableCount > 0 ==>
                start.counters.terminated || AllFailed(formula, variableCount, tried)
      ensures search != NO_SEARCH && variableCount > 0 && !wantChain && probeEffort > RoundCost(variableCount) ==>
                ProbedOut(start.s) || probeUnitCount >= old(probeUnitCount) + PROBE_ROUNDS
    {
      hide Stated, RootInvariant, Settled, Warranted, UpRefutes, OnlyUnitsAdded, AnswerOk, Checked, KeepsPhases, Live,
        AllCandidates, LimitHit, ValidLit, Searched, OnlyDecides, AllFailed, ProbedOut, AtRest, SameRoot,
        RoundCost, Job, Now, Snap, Scr;
      InitializeRun(assumed, conflicts, decisions);
      AssumedIsValid();
      NothingCounted();
      answer, start, search, tried := ProbeAndSolve(restarts, probeEffort);
      WhyUnknown(start, search, answer, restarts);
      RefutationTold(answer);
    }

    /** Probes and then decides the formula. */
    method ProbeAndSolve(restarts: nat, probeEffort: nat)
      returns (answer: Status, ghost start: Moment, ghost search: Search, ghost tried: seq<State>)
      requires RootInvariant() && level == 0 && !rootRefuted && failedCore == [] && Warranted(limits, counters)
      requires forall i :: 0 <= i < |assumptions| ==> ValidLit(variableCount, assumptions[i])
      modifies this`flags, this`analyzed, this`minimized, this`levelsTouched, this`seenFrames, this`learned
      modifies this`minimizeStack, this`chainStamps, this`chainStamp
      modifies this`resolutionChain, this`resolutionVars, this`rootChain, this`rootVars, this`minimizeChain,
               this`minimizeVars
      modifies this`clauses, this`watches, this`unitRefs, this`nextRef, this`propagated, this`control, this`level
      modifies this`values, this`levels, this`reasons, this`positions, this`savedPhase, this`trail, this`rootRefuted
      modifies this`antecedents, this`proof, this`counters, this`failedCore
      modifies this`probeUnitCount, this`probeMarks, this`marked, this`lifted, heap, subsumer
      ensures AnswerOk(answer, formula, Snap(), assumptions, failedCore) && Settled()
      ensures answer == Unknown ==>
                || Searched(Job(), start, search, Now(), Unknown, restarts)
                || (counters.terminated && UpRefutes(clauses))
      ensures OnlyDecides(old(counters), start.counters)
      ensures search != NO_SEARCH && assumptions == [] && variableCount > 0 ==>
                start.counters.terminated || AllFailed(formula, variableCount, tried)
      ensures search != NO_SEARCH && variableCount > 0 && !wantChain && probeEffort > RoundCost(variableCount) ==>
                ProbedOut(start.s) || probeUnitCount >= old(probeUnitCount) + PROBE_ROUNDS
    {
      hide RootInvariant, AnswerOk, UpRefutes, Settled, Searched, AllFailed, AtRest, SameRoot, UnitClash, SearchOk,
           OnlyUnitsAdded, OnlyDecides, Warranted, ValidLit, ProbedOut, RoundCost, Job, Now, Snap;
      ProbeFailedLiterals(probeEffort);
      ghost var probed := Snap();
      if !rootRefuted {
        RootSearches();
      }
      answer, start, search, tried := SolveFromRoot(restarts);
      StillProbedOut(probed, start.s);
    }

    /** Without an answer a limit was reached, or the restarts were used up. */
    lemma WhyUnknown(start: Moment, search: Search, answer: Status, restarts: nat)
      requires OnlyDecides(NOTHING_COUNTED, start.counters)
      requires answer == Unknown ==> Searched(Job(), start, search, Now(), Unknown, restarts) || counters.terminated
      ensures answer == Unknown ==> counters.terminated || counters.restarts == restarts
    {
      hide Searched;
      if answer == Unknown && !counters.terminated {
        UnknownMeans(Job(), start, search, Now(), restarts);
      }
    }

    lemma NothingCounted()
      requires counters == NOTHING_COUNTED
      ensures Warranted(limits, counters)
    {
    }

    lemma AssumedIsValid()
      requires forall i :: 0 <= i < |assumptions| ==> 1 <= Var(assumptions[i]) <= variableCount
      ensures forall i :: 0 <= i < |assumptions| ==> ValidLit(variableCount, assumptions[i])
    {
    }

    /** A refutation of the clauses held is told to the proof consumer. */
    lemma RefutationTold(answer: Status)
      requires Settled() && AnswerOk(answer, formula, Snap(), assumptions, failedCore)
      ensures Stated() && heap.Valid()
      ensures counters.terminated ==>
                LimitHit(limits.conflicts, counters.conflicts) || LimitHit(limits.decisions, counters.decisions)
      ensures wantChain ==> (Checked(proof.log) <==> proof.lossy == {}) && (proof.lossy != {} ==> proof.stayed != {})
      ensures answer == Unsat && failedCore == [] && wantChain && proof.stayed == {} ==>
                Checked(proof.log) && UpRefutes(Live(proof.log))
    {
      hide TranscriptOk, UpRefutes, Checked;
      if wantChain {
        ChecksExactly(formula, proof, clauses, nextRef);
      }
      if answer == Unsat && failedCore == [] && wantChain && proof.stayed == {} {
        RefutationIsTold(formula, proof, clauses, nextRef);
      }
    }

    /** Lists the value of every variable. */
    method ListModel()
      requires |values| == 2 * variableCount + 2
      modifies this`internalModel
      ensures ListsModel(internalModel, Snap())
    {
      internalModel := [];
      var index := 1;
      while index <= variableCount
        invariant 1 <= index <= variableCount + 1 && |internalModel| == index - 1
        invariant forall i :: 0 <= i < |internalModel| ==> internalModel[i] == MakeLit(i + 1, values[2 * (i + 1)] < 0)
      {
        internalModel := internalModel + [MakeLit(index, values[2 * index] < 0)];
        index := index + 1;
      }
    }

    /** Decides the formula from the root, once probing is done. */
    method SolveFromRoot(restarts: nat)
      returns (answer: Status, ghost start: Moment, ghost search: Search, ghost tried: seq<State>)
      requires if rootRefuted then Settled() && UpRefutes(clauses) else RootInvariant()
      requires failedCore == []
      requires forall i :: 0 <= i < |assumptions| ==> ValidLit(variableCount, assumptions[i])
      requires Warranted(limits, counters)
      modifies this`flags, this`analyzed, this`minimized, this`levelsTouched, this`seenFrames, this`learned
      modifies this`minimizeStack, this`chainStamps, this`chainStamp
      modifies this`resolutionChain, this`resolutionVars, this`rootChain, this`rootVars, this`minimizeChain,
               this`minimizeVars
      modifies this`clauses, this`watches, this`unitRefs, this`nextRef, this`propagated, this`control, this`level
      modifies this`values, this`levels, this`reasons, this`positions, this`savedPhase, this`trail, this`rootRefuted
      modifies this`antecedents, this`proof, this`counters, this`failedCore, heap, subsumer
      ensures AnswerOk(answer, formula, Snap(), assumptions, failedCore) && Settled()
      ensures answer == Unknown ==>
                || Searched(Job(), start, search, Now(), Unknown, restarts)
                || (counters.terminated && UpRefutes(clauses))
      ensures OnlyDecides(old(counters), start.counters)
      ensures search != NO_SEARCH && assumptions == [] && variableCount > 0 ==>
                start.counters.terminated || AllFailed(formula, variableCount, tried)
      ensures old(rootRefuted) || old(UnitClash(Snap())) ==> search == NO_SEARCH
      ensures search != NO_SEARCH && old(AtRest(Snap())) ==> SameRoot(old(Snap()), start.s) && SearchOk(start.s)
    {
      hide RootInvariant, AnswerOk, UpRefutes, Settled, Searched, AllFailed, AtRest, SameRoot, UnitsTrue, UnitClash,
           SearchOk, Extends, Job, Snap;
      start, search, tried := Now(), NO_SEARCH, [];
      ghost var s := Snap();
      var lucky := false;
      if !rootRefuted {
        lucky, tried := CheckLuck();
        if lucky {
          return Sat, start, search, tried;
        }
      }
      if rootRefuted {
        answer := AnswerNoModel();
        return;
      }
      RootSearches();
      answer, start, search := RunSearch(restarts);
    }

    /** The answer when propagation has refuted the clauses at the root. */
    method AnswerNoModel() returns (answer: Status)
      requires Settled() && UpRefutes(clauses) && failedCore == []
      modifies this`counters, heap
      ensures AnswerOk(answer, formula, Snap(), assumptions, failedCore) && Settled() && UpRefutes(clauses)
      ensures answer == if counters.terminated then Unknown else Unsat
    {
      hide AnswerOk, UpRefutes, Settled;
      SettledIsValid();
      answer := RootConflict();
      RefutedIsOk(answer);
    }

    /** With every unit true the root is where a run starts. */
    lemma RootIsRun()
      requires RootInvariant() && UnitsTrue(Snap()) && Warranted(limits, counters)
      ensures Invariant(assumptions) && WatchInvariant(Snap()) && level == 0
    {
      RootRuns(formula, Snap(), Scr(), unitRefs, assumptions);
      RootStays(formula, Snap(), Scr(), unitRefs);
    }

    lemma RootSearches()
      requires RootInvariant()
      ensures SearchOk(Snap())
    {
    }

    /** The four attempts before the search: success is an answer. */
    method CheckLuck() returns (lucky: bool, ghost tried: seq<State>)
      requires RootInvariant() && failedCore == [] && !rootRefuted && Warranted(limits, counters)
      modifies this`clauses, this`watches, this`propagated, this`control, this`level, this`seenFrames, this`counters
      modifies this`values, this`levels, this`reasons, this`positions, this`savedPhase, this`trail, this`rootRefuted,
               heap
      ensures lucky ==> AnswerOk(Sat, formula, Snap(), assumptions, failedCore) && Settled()
      ensures rootRefuted ==> !lucky && Settled() && UpRefutes(clauses)
      ensures !lucky && !rootRefuted ==> RootInvariant() && Warranted(limits, counters)
      ensures !lucky && !rootRefuted && assumptions == [] && variableCount > 0 ==>
                counters.terminated || UnitClash(Snap()) || AllFailed(formula, variableCount, tried)
      ensures old(UnitClash(Snap())) ==> !lucky && !rootRefuted && UnitClash(Snap())
      ensures !lucky && !rootRefuted && old(AtRest(Snap())) ==>
                SameRoot(old(Snap()), Snap()) && UnitsTrue(Snap())
      ensures OnlyDecides(old(counters), counters)
    {
      hide RootInvariant, AnswerOk, UpRefutes, SatisfiesAll, Settled, AllFailed, SameRoot, AtRest, UnitsTrue, UnitClash,
           Snap;
      RootIsSettled();
      lucky, tried := TryLuckyAssignments(true);
      if lucky {
        LuckyIsOk(formula, Snap());
      }
    }

    lemma SettledIsValid()
      requires Settled()
      ensures heap.Valid()
    {
    }
  }

  /** One entry moved down to the write cursor. */
  lemma MovedDown(list: seq<Watch>, now: seq<Watch>, write: nat, read: nat)
    requires |now| == |list| && write <= read < |list| && now[read..] == list[read..]
    ensures now[read] == list[read] && now[read + 1..] == list[read + 1..]
    ensures var next := now[write := now[read]];
            next[..write + 1] == now[..write] + [list[read]] && next[read + 1..] == list[read + 1..]
  {
    assert now[read] == now[read..][0] == list[read..][0];
    assert now[read + 1..] == now[read..][1..] == list[read..][1..];
  }

  lemma AliveStep(list: seq<Watch>, k: nat, refs: set<Ref>)
    requires k < |list|
    ensures Alive(list[..k + 1], refs) == Alive(list[..k], refs) + if list[k].ref in refs then [list[k]] else []
  {
    assert list[..k + 1][..k] == list[..k];
  }

  lemma AliveNone(list: seq<Watch>, refs: set<Ref>)
    ensures Alive(list[..0], refs) == []
  {
  }

  const STAMP_MODULUS: nat := 0x1_0000_0000

  method ClearFlags(flags: seq<Flags>, vars: seq<nat>) returns (cleared: seq<Flags>)
    requires forall i :: 0 <= i < |vars| ==> vars[i] < |flags|
    ensures |cleared| == |flags|
    ensures forall v :: 0 <= v < |flags| ==> cleared[v] == if v in vars then NO_FLAGS else flags[v]
  {
    cleared := flags;
    var i := 0;
    while i < |vars|
      invariant 0 <= i <= |vars| && |cleared| == |flags|
      invariant forall v :: 0 <= v < |flags| ==> cleared[v] == if v in vars[..i] then NO_FLAGS else flags[v]
    {
      cleared := cleared[vars[i] := NO_FLAGS];
      i := i + 1;
    }
  }

  method ClearFrames(frames: seq<SeenFrame>, touched: seq<nat>) returns (cleared: seq<SeenFrame>)
    requires forall i :: 0 <= i < |touched| ==> touched[i] < |frames|
    ensures |cleared| == |frames|
    ensures forall k :: 0 <= k < |frames| ==> cleared[k] == if k in touched then frames[k].(count := 0) else frames[k]
  {
    cleared := frames;
    var i := 0;
    while i < |touched|
      invariant 0 <= i <= |touched| && |cleared| == |frames|
      invariant forall k :: 0 <= k < |frames| ==>
                cleared[k] == if k in touched[..i] then frames[k].(count := 0) else frames[k]
    {
      cleared := cleared[touched[i] := cleared[touched[i]].(count := 0)];
      i := i + 1;
    }
  }
}
