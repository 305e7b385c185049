/** Solving what preprocessing has left of a formula, and handing out a model of the formula as it was first stated. */
module WholeSolve {
  import opened Logic
  import opened SearchState
  import opened Implication
  import opened Answers
  import opened SearchLoop
  import opened Reconstruction
  import opened SolverCores

  /** The model handed out satisfies the formula, and gives no variable two values. */
  ghost predicate HandsOutModel(model: seq<Lit>, f: Formula) {
    (forall c :: c in f ==> exists l :: l in c && l in model) && forall l :: l in model ==> Neg(l) !in model
  }

  /** What preprocessing recorded leads from the formula first stated to the one the search is given. */
  ghost predicate Leads(n: nat, chain: seq<Formula>, records: seq<Record>, buffer: seq<Lit>, f: Formula) {
    && Journal(n, chain, records, buffer) && chain[|records|] == f && FormulaOver(n, f) && FormulaOver(n, chain[0])
    && (forall c, l :: c in chain[0] && l in c ==> Var(l) !in Introduced(records, 0))
  }

  ghost function First(chain: seq<Formula>): Formula {
    if chain == [] then iset{} else chain[0]
  }

  /** The listed values are those of the value table. */
  lemma {:induction false} ListedValues(model: seq<Lit>, s: State, k: nat)
    requires ListsModel(model, s) && k <= |model|
    ensures forall v: nat :: v in Listed(model, k) <==> 1 <= v <= k
    ensures forall v: nat :: 1 <= v <= k ==> Listed(model, k)[v] == (Value(s, MakeLit(v, false)) >= 0)
  {
    if k > 0 {
      ListedValues(model, s, k - 1);
      assert Var(MakeLit(k, Value(s, MakeLit(k, false)) < 0)) == k;
    }
  }

  lemma ListedSatisfies(n: nat, model: seq<Lit>, s: State, f: Formula)
    requires ListsModel(model, s) && Total(s) && n <= s.n && FormulaOver(n, f) && SatisfiesAll(Model(s), f)
    ensures Complete(n, Listed(model, |model|)) && SatisfiesAll(AsAssignment(Listed(model, |model|)), f)
  {
    ListedValues(model, s, |model|);
    var a := AsAssignment(Listed(model, |model|));
    forall c | c in f ensures Satisfies(a, c) {
      var l :| l in c && Holds(Model(s), l);
      assert 1 <= Var(l) <= n && Value(s, MakeLit(Var(l), false)) in {-1, 1};
      assert Holds(a, l);
    }
  }

  lemma ListedHandsOut(n: nat, model: seq<Lit>, s: State, f: Formula)
    requires ListsModel(model, s) && Total(s) && n <= s.n && FormulaOver(n, f) && SatisfiesAll(Model(s), f)
    ensures HandsOutModel(model, f)
  {
    forall c | c in f ensures exists l :: l in c && l in model {
      var l :| l in c && Holds(Model(s), l);
      assert 1 <= Var(l) <= n && Value(s, MakeLit(Var(l), false)) in {-1, 1};
      assert model[Var(l) - 1] == l;
    }
    forall l | l in model ensures Neg(l) !in model {
      var i :| 0 <= i < |model| && model[i] == l;
      assert Var(l) == i + 1;
      forall j | 0 <= j < |model| ensures model[j] != Neg(l) {
        assert Var(model[j]) == j + 1;
      }
    }
  }

  /** Solves under assumptions. A "satisfiable" answer comes with a model of the formula first stated, whatever was
      eliminated, blocked or factored since. */
  method SolveStated(core: SolverCore, r: ModelReconstructor, n: nat, ghost chain: seq<Formula>, assumed: seq<Lit>,
                     conflicts: nat, decisions: nat, restarts: nat, probeEffort: nat) returns (answer: Status)
    requires forall i :: 0 <= i < |assumed| ==> 1 <= Var(assumed[i])
    requires core.Stated() && core.heap.Valid() && n <= core.maxProblemVariable
    requires Leads(n, chain, r.records, r.witnesses, core.formula) && r.internalOnly == {}
    modifies core, core.heap, core.subsumer, r
    ensures answer == Sat ==> HandsOutModel(core.internalModel, First(chain))
  {
    hide Leads;
    ghost var start, search, tried;
    answer, start, search, tried := core.Solve(assumed, conflicts, decisions, restarts, probeEffort);
    if answer == Sat {
      BuildInternalModel(core, r, n, chain);
    }
  }

  /** Lists the model and, unless nothing was recorded, replays the records on it. */
  method BuildInternalModel(core: SolverCore, r: ModelReconstructor, n: nat, ghost chain: seq<Formula>)
    requires Total(core.Snap()) && SatisfiesAll(Model(core.Snap()), core.formula) && n <= core.variableCount
    requires Leads(n, chain, r.records, r.witnesses, core.formula) && r.internalOnly == {}
    modifies core`internalModel, r
    ensures HandsOutModel(core.internalModel, First(chain))
  {
    hide Total, ListsModel, Complete, HandsOutModel, Leads, SatisfiesAll;
    ListedReaches(core.Snap());
    core.ListModel();
    ghost var s, model := core.Snap(), core.internalModel;
    if r.records == [] {
      NothingRecorded(n, chain, r.witnesses, core.formula, model, s);
    } else {
      r.initialModel := core.internalModel;
      r.ReconstructFullModel();
      assert r.internalOnly == Introduced(r.records, 0);
      ReconstructedHandsOut(n, chain, r.records, r.witnesses, core.formula, model, s, |r.values|);
      core.internalModel := r.reconstructed;
    }
  }

  lemma NothingRecorded(n: nat, chain: seq<Formula>, buffer: seq<Lit>, f: Formula, model: seq<Lit>, s: State)
    requires Leads(n, chain, [], buffer, f) && ListsModel(model, s) && Total(s) && n <= s.n && SatisfiesAll(Model(s), f)
    ensures HandsOutModel(model, First(chain))
  {
    ListedHandsOut(n, model, s, f);
  }

  /** Replaying the records on the listed model gives one of the formula first stated. */
  lemma ReconstructedHandsOut(n: nat, chain: seq<Formula>, records: seq<Record>, buffer: seq<Lit>, f: Formula,
                              model: seq<Lit>, s: State, bound: nat)
    requires Leads(n, chain, records, buffer, f) && ListsModel(model, s) && Total(s) && n <= s.n
             && SatisfiesAll(Model(s), f)
    requires bound > 0 && forall i :: 0 <= i < |model| ==> Var(model[i]) < bound
    ensures HandsOutModel(Exposed(ReplayedFrom(Listed(model, |model|), records, buffer, 0), Introduced(records, 0), 1,
                                  bound), First(chain))
  {
    ListedSatisfies(n, model, s, f);
    ReconstructionIsRight(n, chain, records, buffer, model, bound);
  }

  lemma ListedReaches(s: State)
    requires Total(s)
    ensures |s.values| == 2 * s.n + 2
  {
  }
}
