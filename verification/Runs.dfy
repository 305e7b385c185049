/** A run of the search as a sequence of moments: what leads from each to the next, and how the last one ends it. */
module Runs {
  import opened Logic
  import opened SearchState
  import opened Watching
  import opened Visiting
  import opened Implication
  import opened Learning
  import opened Answers
  import opened Attaching
  import opened Confluence
  import opened SearchLoop
  import opened Coordination
  import opened VarHeaps

  /** What one iteration does once propagation is through. */
  datatype Move =
    | Learn(conflict: Ref, learned: Clause, ref: Ref, bumped: seq<nat>)
    | Assume
    | Walk
    | Restart
    | Decision(l: Lit)

  /** Where a run stands before an iteration. */
  datatype Moment = Moment(s: State, counters: Counters, acts: Activities)

  /** What the run works on: the formula, the assumptions and the limits. */
  datatype Task = Task(formula: Formula, assumptions: seq<Lit>, limits: Limits)

  /** A conflict above the root: exactly the clause it teaches is added, and its first literal asserted where it is
      the only one open. */
  ghost predicate Learns(task: Task, p: Moment, move: Move, n: Moment)
    requires move.Learn?
  {
    var q, c, r := move.conflict, move.learned, move.ref;
    && ConflictFound(p.s, q) && p.s.level > 0 && LearnedOk(task.formula, p.s, c) && ExactlyLearned(p.s, q, c)
    && AddsNew(p.s.db, c) && r !in p.s.db && CanLearn(p.s, c, r) && n.s == Learnt(p.s, c, r)
    && TookPart(p.s, q, c, move.bumped) && Aged(p.acts, move.bumped, n.acts)
    && n.counters == CountConflict(task.limits, p.counters, n.counters.restartDue)
  }

  /** The next assumption gets a level of its own, an empty one when it is true already. */
  ghost predicate Assumes(task: Task, p: Moment, n: Moment) {
    && Quiet(p.s) && p.s.level < |task.assumptions| && n.counters == p.counters && n.acts == p.acts
    && Takes(p.s, task.assumptions[p.s.level], n.s)
  }

  /** The opening walk starts from the assumptions. */
  ghost predicate Walks(task: Task, p: Moment, n: Moment) {
    && Quiet(p.s) && p.s.level >= |task.assumptions| && n.s == BackTo(p.s, |task.assumptions|)
    && n.counters == CountWalk(p.counters) && n.acts == p.acts
  }

  /** A restart that is due goes back to the levels that would be made again; without a conflict since the last one it
      is only counted. */
  ghost predicate Restarts(task: Task, p: Moment, n: Moment) {
    && Quiet(p.s) && p.s.level >= |task.assumptions| && p.counters.restartDue
    && n.counters == CountRestart(p.counters) && n.acts == p.acts
    && if p.counters.conflicts <= p.counters.conflictsAtRestart then n.s == p.s
       else RestartsTo(p.s, p.acts.score, |task.assumptions|, n.s)
  }

  /** With no restart due the best open variable is decided, after a reduction when one is due. */
  ghost predicate Decides(task: Task, p: Moment, l: Lit, n: Moment) {
    && Quiet(p.s) && p.s.level >= |task.assumptions| && !p.counters.restartDue && !AllAssigned(p.s)
    && n.counters == CountDecision(task.limits, p.counters, n.counters.restartDue) && n.acts == p.acts
    && DecidesIn(p.s, p.acts.score, l, n.s)
  }

  /** The move made once propagation is through. */
  ghost predicate Moves(task: Task, p: Moment, move: Move, n: Moment) {
    match move
    case Learn(_, _, _, _) => Learns(task, p, move, n)
    case Assume => Assumes(task, p, n)
    case Walk => Walks(task, p, n)
    case Restart => Restarts(task, p, n)
    case Decision(l) => Decides(task, p, l, n)
  }

  /** Propagation and a move. */
  ghost predicate Leads(task: Task, m: Moment, move: Move, n: Moment) {
    exists t: State :: Progress(m.s, t) && SearchOk(t) && Moves(task, m.(s := t), move, n)
  }

  /** A learned clause or a decision after which the run was told to stop. */
  predicate Stops(move: Move, n: Moment) {
    (move.Learn? || move.Decision?) && n.counters.terminated
  }

  /** Every moment leads to the next, and none but the last follows a move that stops the run. */
  ghost predicate IsRun(task: Task, run: seq<Moment>, moves: seq<Move>) {
    && |run| == |moves| + 1
    && (forall i :: 0 <= i < |moves| ==> Leads(task, run[i], moves[i], run[i + 1]))
    && (forall i :: 0 <= i < |moves| - 1 ==> !Stops(moves[i], run[i + 1]))
  }

  /** How a run ends. */
  datatype Ending = ToldToStop | ModelFound | RootRefuted(conflict: Ref) | AssumptionFailed | NoRestartLeft

  /** What the last iteration finds once propagation is through. */
  ghost predicate Finishes(task: Task, p: Moment, ending: Ending, n: Moment, answer: Status) {
    match ending
    case ToldToStop => false
    case ModelFound =>
      && Quiet(p.s) && p.s.level >= |task.assumptions| && !p.counters.restartDue && AllAssigned(p.s)
      && Reduced(p.s, n.s) && n.counters == p.counters && answer == Sat
    case RootRefuted(q) =>
      && ConflictFound(p.s, q) && p.s.level == 0 && n.s == p.s && Counted(task, p, n, answer)
    case AssumptionFailed =>
      && Quiet(p.s) && p.s.level < |task.assumptions| && Value(p.s, task.assumptions[p.s.level]) == -1 && n.s == p.s
      && Counted(task, p, n, answer)
    case NoRestartLeft =>
      && Quiet(p.s) && p.s.level >= |task.assumptions| && p.counters.restartDue && n == p && answer == Unknown
  }

  /** The conflict that ends a run is counted, and counting it may reach a limit. */
  ghost predicate Counted(task: Task, p: Moment, n: Moment, answer: Status) {
    && n.counters == CountConflict(task.limits, p.counters, n.counters.restartDue)
    && answer == if n.counters.terminated then Unknown else Unsat
  }

  ghost predicate Ends(task: Task, m: Moment, ending: Ending, n: Moment, answer: Status) {
    if ending == ToldToStop then n == m && answer == Unknown
    else exists t: State :: Progress(m.s, t) && SearchOk(t) && Finishes(task, m.(s := t), ending, n, answer)
  }

  /** What one iteration comes to: a move, or the end of the run. */
  datatype Outcome = Made(move: Move) | Over(ending: Ending) {
    predicate NoRestart() {
      match this
      case Made(move) => move.Restart?
      case Over(ending) => ending == NoRestartLeft
    }
  }

  /** The outcome once propagation is through, and whether the loop stops there. */
  ghost predicate Result(task: Task, p: Moment, outcome: Outcome, n: Moment, done: bool, answer: Status) {
    match outcome
    case Made(move) => Moves(task, p, move, n) && (done <==> Stops(move, n)) && (done ==> answer == Unknown)
    case Over(ending) => done && Finishes(task, p, ending, n, answer)
  }

  lemma LearnResult(task: Task, p: Moment, move: Move, n: Moment)
    requires move.Learn? && Learns(task, p, move, n)
    ensures Result(task, p, Made(move), n, n.counters.terminated, Unknown)
  {
    hide Learns;
  }

  lemma WalkResult(task: Task, p: Moment, n: Moment)
    requires Walks(task, p, n)
    ensures Result(task, p, Made(Walk), n, false, Unknown)
  {
    hide Walks;
  }

  lemma RestartResult(task: Task, p: Moment, n: Moment)
    requires Restarts(task, p, n)
    ensures Result(task, p, Made(Restart), n, false, Unknown)
  {
    hide Restarts;
  }

  lemma NoRestartResult(task: Task, p: Moment)
    requires Quiet(p.s) && p.s.level >= |task.assumptions| && p.counters.restartDue
    ensures Result(task, p, Over(NoRestartLeft), p, true, Unknown)
  {
    hide Quiet;
  }

  lemma RootResult(task: Task, p: Moment, q: Ref, n: Moment, answer: Status)
    requires ConflictFound(p.s, q) && p.s.level == 0 && n.s == p.s && Counted(task, p, n, answer)
    ensures Result(task, p, Over(RootRefuted(q)), n, true, answer)
  {
    hide ConflictFound;
  }

  /** A restart is taken off the budget; only with none left may the run end for want of one. */
  predicate Spends(outcome: Outcome, left: nat, nowLeft: nat) {
    match outcome
    case Made(move) => left == nowLeft + if move.Restart? then 1 else 0
    case Over(ending) => nowLeft == left && (ending == NoRestartLeft ==> left == 0)
  }

  /** Propagation and the outcome. */
  ghost predicate Iterated(task: Task, m: Moment, outcome: Outcome, n: Moment, done: bool, answer: Status) {
    exists t: State :: Progress(m.s, t) && SearchOk(t) && Result(task, m.(s := t), outcome, n, done, answer)
  }

  lemma IteratedIs(task: Task, m: Moment, t: State, outcome: Outcome, n: Moment, done: bool, answer: Status)
    requires Progress(m.s, t) && SearchOk(t) && Result(task, m.(s := t), outcome, n, done, answer)
    ensures Iterated(task, m, outcome, n, done, answer)
  {
  }

  lemma IterationMoves(task: Task, m: Moment, outcome: Outcome, n: Moment, done: bool, answer: Status)
    requires Iterated(task, m, outcome, n, done, answer)
    ensures outcome.Made? ==> Leads(task, m, outcome.move, n) && (done <==> Stops(outcome.move, n))
    ensures outcome.Made? && done ==> answer == Unknown && Ends(task, n, ToldToStop, n, answer)
    ensures outcome.Over? ==> done && outcome.ending != ToldToStop && Ends(task, m, outcome.ending, n, answer)
  {
    hide Moves, Progress, SearchOk;
    var t: State :| Progress(m.s, t) && SearchOk(t) && Result(task, m.(s := t), outcome, n, done, answer);
    assert outcome.Over? ==> Finishes(task, m.(s := t), outcome.ending, n, answer);
    hide Finishes;
  }

  /** The restarts among the moves. */
  function RestartsIn(moves: seq<Move>): nat {
    if moves == [] then 0 else RestartsIn(moves[..|moves| - 1]) + if moves[|moves| - 1].Restart? then 1 else 0
  }

  /** The moments of a search, the moves between them, and how it ended. */
  datatype Search = Search(run: seq<Moment>, moves: seq<Move>, ending: Ending)

  const NO_SEARCH := Search([], [], ToldToStop)

  /** A whole search from one moment to another with a budget of restarts, and its answer. */
  ghost predicate Searched(task: Task, start: Moment, search: Search, end: Moment, answer: Status, restarts: nat) {
    var run, moves, ending := search.run, search.moves, search.ending;
    && IsRun(task, run, moves) && run[0] == start && RestartsIn(moves) <= restarts
    && (if ending == ToldToStop then moves != [] && Stops(moves[|moves| - 1], run[|moves|])
        else (moves != [] ==> !Stops(moves[|moves| - 1], run[|moves|])))
    && (ending == NoRestartLeft ==> RestartsIn(moves) == restarts)
    && Ends(task, run[|moves|], ending, end, answer)
  }

  /** One move more. */
  lemma RunGoesOn(task: Task, run: seq<Moment>, moves: seq<Move>, move: Move, n: Moment)
    requires IsRun(task, run, moves) && (moves != [] ==> !Stops(moves[|moves| - 1], run[|moves|]))
    requires Leads(task, run[|moves|], move, n)
    ensures IsRun(task, run + [n], moves + [move])
    ensures RestartsIn(moves + [move]) == RestartsIn(moves) + if move.Restart? then 1 else 0
  {
    hide Leads;
    var longer, after := moves + [move], run + [n];
    forall i | 0 <= i < |longer| ensures Leads(task, after[i], longer[i], after[i + 1]) {
      if i < |moves| {
        assert Leads(task, run[i], moves[i], run[i + 1]);
      }
    }
    assert longer[..|longer| - 1] == moves;
  }

  /** A search that is still going on, with what is left of its restarts. */
  ghost predicate Searching(task: Task, start: Moment, search: Search, m: Moment, restarts: nat, left: nat) {
    var run, moves := search.run, search.moves;
    && IsRun(task, run, moves) && run[0] == start && run[|moves|] == m && RestartsIn(moves) + left == restarts
    && (moves != [] ==> !Stops(moves[|moves| - 1], run[|moves|]))
  }

  lemma StartSearching(task: Task, start: Moment, restarts: nat)
    ensures Searching(task, start, Search([start], [], ToldToStop), start, restarts, restarts)
  {
  }

  /** The search one iteration later. */
  function Continued(search: Search, outcome: Outcome, n: Moment): Search {
    match outcome
    case Made(move) => Search(search.run + [n], search.moves + [move], ToldToStop)
    case Over(ending) => search.(ending := ending)
  }

  /** One iteration of the search. */
  lemma SearchStep(task: Task, start: Moment, search: Search, m: Moment, restarts: nat, left: nat, nowLeft: nat,
                   outcome: Outcome, n: Moment, done: bool, answer: Status)
    requires Searching(task, start, search, m, restarts, left) && Spends(outcome, left, nowLeft)
    requires Iterated(task, m, outcome, n, done, answer)
    ensures !done ==> Searching(task, start, Continued(search, outcome, n), n, restarts, nowLeft)
    ensures done ==> Searched(task, start, Continued(search, outcome, n), n, answer, restarts)
  {
    hide Leads, Ends;
    IterationMoves(task, m, outcome, n, done, answer);
    if outcome.Made? {
      RunGoesOn(task, search.run, search.moves, outcome.move, n);
    }
  }

  // ---------------------------------------------------------------------------------------------
  // What a run keeps
  // ---------------------------------------------------------------------------------------------

  /** Whatever the move, the clauses held still mean the formula. */
  lemma LeadsRepresents(task: Task, m: Moment, move: Move, n: Moment)
    requires Leads(task, m, move, n) && Represents(task.formula, m.s.db)
    ensures Represents(task.formula, n.s.db)
  {
    hide Represents, ConflictFound, LearnedOk, ExactlyLearned, TookPart, Aged, AddsNew, Quiet, BestOpen, AllAssigned,
         KeptLevels, SearchOk, CanLearn, Learnt, BackTo, Simplified, Reduced, Decide;
    var t: State :| Progress(m.s, t) && SearchOk(t) && Moves(task, m.(s := t), move, n);
    SameClausesRepresent(task.formula, m.s.db, t.db);
    match move
    case Learn(_, c, r, _) =>
      LearnedEntailed(task.formula, t, c);
      WithRedundant(task.formula, t.db, r, c);
      LearntClauses(t, c, r);
    case Assume =>
      DecideClauses(t, task.assumptions[t.level]);
    case Walk =>
      BackToClauses(t, |task.assumptions|);
    case Restart =>
      if n.s != t {
        var kept: nat :| KeptLevels(t, m.acts.score, |task.assumptions|, kept) && Simplified(BackTo(t, kept), n.s);
        BackToClauses(t, kept);
        SimplifiedClauses(task.formula, BackTo(t, kept), n.s);
      }
    case Decision(l) =>
      var u: State :| Reduced(t, u) && BestOpen(u, m.acts.score, Var(l)) && n.s == Decide(u, l);
      ReducedClauses(task.formula, t, u);
      DecideClauses(u, l);
  }

  lemma LearntClauses(s: State, c: Clause, r: Ref)
    requires CanLearn(s, c, r)
    ensures Learnt(s, c, r).db == s.db[r := Entry(c, true)]
  {
    var b := BackjumpLevel(s, c);
    BacktrackIs(s, b);
    AssignIs(WithClause(BacktrackStep(s, b), r, Entry(c, true)), c[0], Because(r));
  }

  lemma DecideClauses(s: State, l: Lit)
    ensures Decide(s, l).db == s.db
  {
    if InBounds(NewLevelStep(s, l), l) {
      AssignIs(NewLevelStep(s, l), l, NoReason);
    }
  }

  lemma BackToClauses(s: State, target: nat)
    ensures BackTo(s, target).db == s.db
  {
  }

  lemma SimplifiedClauses(f: Formula, s: State, t: State)
    requires Simplified(s, t) && Represents(f, s.db)
    ensures Represents(f, t.db)
  {
    BackToClauses(s, 0);
  }

  lemma ReducedClauses(f: Formula, s: State, t: State)
    requires Reduced(s, t) && Represents(f, s.db)
    ensures Represents(f, t.db)
  {
    if t != s {
      PrunedRepresents(f, s.db, t.db);
    }
  }

  /** At every moment of a run the clauses held mean the formula: all of them follow from it, and it from the permanent
      ones. */
  lemma {:induction false} RunRepresents(task: Task, run: seq<Moment>, moves: seq<Move>, i: nat)
    requires IsRun(task, run, moves) && Represents(task.formula, run[0].s.db) && i < |run|
    ensures Represents(task.formula, run[i].s.db)
  {
    hide Leads, Represents;
    if i > 0 {
      RunRepresents(task, run, moves, i - 1);
      assert Leads(task, run[i - 1], moves[i - 1], run[i - 1 + 1]);
      LeadsRepresents(task, run[i - 1], moves[i - 1], run[i]);
    }
  }

  // ---------------------------------------------------------------------------------------------
  // What a run says of its counters
  // ---------------------------------------------------------------------------------------------

  function LearnsIn(moves: seq<Move>): nat {
    if moves == [] then 0 else LearnsIn(moves[..|moves| - 1]) + if moves[|moves| - 1].Learn? then 1 else 0
  }

  function DecisionsIn(moves: seq<Move>): nat {
    if moves == [] then 0 else DecisionsIn(moves[..|moves| - 1]) + if moves[|moves| - 1].Decision? then 1 else 0
  }

  /** What one move counts. */
  lemma LeadsCounts(task: Task, m: Moment, move: Move, n: Moment)
    requires Leads(task, m, move, n)
    ensures n.counters == match move
              case Learn(_, _, _, _) => CountConflict(task.limits, m.counters, n.counters.restartDue)
              case Assume => m.counters
              case Walk => CountWalk(m.counters)
              case Restart => CountRestart(m.counters)
              case Decision(_) => CountDecision(task.limits, m.counters, n.counters.restartDue)
    ensures move.Restart? ==> m.counters.restartDue
  {
    hide SearchOk, Progress, Quiet, ConflictFound, LearnedOk, ExactlyLearned, TookPart, Aged, CanLearn, Learnt, AddsNew,
         RestartsTo, DecidesIn;
  }

  /** The counters count the moves: conflicts learned from, decisions and restarts. */
  lemma {:induction false} RunCounts(task: Task, run: seq<Moment>, moves: seq<Move>)
    requires IsRun(task, run, moves)
    ensures var c, d := run[0].counters, run[|moves|].counters;
            && d.conflicts == c.conflicts + LearnsIn(moves) && d.decisions == c.decisions + DecisionsIn(moves)
            && d.restarts == c.restarts + RestartsIn(moves)
    ensures Warranted(task.limits, run[0].counters) ==> Warranted(task.limits, run[|moves|].counters)
  {
    hide Leads;
    if moves != [] {
      var last := |moves| - 1;
      assert forall i :: 0 <= i < last ==> Leads(task, run[..last + 1][i], moves[..last][i], run[..last + 1][i + 1]);
      RunCounts(task, run[..last + 1], moves[..last]);
      LeadsCounts(task, run[last], moves[last], run[last + 1]);
    }
  }

  /** A search without an answer was stopped by a limit, or has used up its restarts while another one was due. */
  lemma UnknownMeans(task: Task, start: Moment, search: Search, end: Moment, restarts: nat)
    requires Searched(task, start, search, end, Unknown, restarts)
    ensures end.counters.terminated
            || (search.ending == NoRestartLeft && end.counters.restarts == start.counters.restarts + restarts)
  {
    RunCounts(task, search.run, search.moves);
  }

  /** Under a limit on conflicts and one on decisions that many restarts are enough: the search ends with an answer or
      at a limit. */
  lemma LimitsSuffice(task: Task, start: Moment, search: Search, end: Moment, answer: Status, restarts: nat)
    requires Searched(task, start, search, end, answer, restarts) && Warranted(task.limits, start.counters)
    requires task.limits.conflicts > 0 && task.limits.decisions > 0
    requires start.counters.restarts + restarts >= task.limits.conflicts + task.limits.decisions
    ensures answer == Unknown ==> end.counters.terminated
  {
    RunCounts(task, search.run, search.moves);
  }
}
