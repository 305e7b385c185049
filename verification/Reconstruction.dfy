/** Undoing simplifications on a model: the records of the extension stack and what replaying them means. */
module Reconstruction {
  import opened Logic
  import opened Implication

  /** A reversible simplification. Its witness clauses lie in one shared buffer, each closed by a zero literal. */
  datatype Record =
    | Eliminated(variable: nat, begin: nat, end: nat)
    | Blocked(blocking: Lit, begin: nat, end: nat)
    | Factored(introduced: nat, begin: nat, end: nat)

  /** The values known so far. */
  type Known = map<nat, bool>

  // ---------------------------------------------------------------------------------------------
  // The witness buffer
  // ---------------------------------------------------------------------------------------------

  /** The clauses closed by a zero in `buffer[from..upto]`, the first of which began at `begin`. */
  function Split(buffer: seq<Lit>, begin: nat, from: nat, upto: nat): seq<Clause>
    requires begin <= from <= upto <= |buffer|
    decreases upto - from
  {
    if from == upto then []
    else if buffer[from] == NO_LITERAL then [buffer[begin..from]] + Split(buffer, from + 1, from + 1, upto)
    else Split(buffer, begin, from + 1, upto)
  }

  function RangeEnd(buffer: seq<Lit>, begin: nat, end: nat): (upto: nat)
    ensures begin <= |buffer| ==> begin <= upto <= |buffer|
  {
    var upto := if end < |buffer| then end else |buffer|;
    if begin <= upto then upto else begin
  }

  /** The witness clauses of a record. */
  function Witness(buffer: seq<Lit>, begin: nat, end: nat): seq<Clause> {
    if begin <= |buffer| then Split(buffer, begin, begin, RangeEnd(buffer, begin, end)) else []
  }

  /** Clauses as they are written to the buffer. */
  function Flatten(clauses: seq<Clause>): seq<Lit> {
    if clauses == [] then [] else clauses[0] + [NO_LITERAL] + Flatten(clauses[1..])
  }

  lemma {:induction false} SplitSkips(buffer: seq<Lit>, begin: nat, from: nat, at: nat, upto: nat)
    requires begin <= from <= at <= upto <= |buffer|
    requires forall i :: from <= i < at ==> buffer[i] != NO_LITERAL
    ensures Split(buffer, begin, from, upto) == Split(buffer, begin, at, upto)
    decreases at - from
  {
    if from < at {
      SplitSkips(buffer, begin, from + 1, at, upto);
    }
  }

  /** What was written is what is read back, wherever in the buffer it stands. */
  lemma {:induction false} SplitFlatten(front: seq<Lit>, clauses: seq<Clause>, back: seq<Lit>)
    requires forall c, i :: c in clauses && 0 <= i < |c| ==> c[i] != NO_LITERAL
    ensures var buffer := front + Flatten(clauses) + back;
            Split(buffer, |front|, |front|, |front| + |Flatten(clauses)|) == clauses
    decreases |clauses|
  {
    if clauses != [] {
      var c := clauses[0];
      var buffer := front + Flatten(clauses) + back;
      var next := front + c + [NO_LITERAL];
      assert buffer == next + Flatten(clauses[1..]) + back;
      SplitFlatten(next, clauses[1..], back);
      forall i | 0 <= i < |c| ensures buffer[|front| + i] == c[i] {
      }
      SplitSkips(buffer, |front|, |front|, |front| + |c|, |front| + |Flatten(clauses)|);
      assert buffer[|front|..|front| + |c|] == c;
      assert buffer[|front| + |c|] == NO_LITERAL;
      assert clauses == [c] + clauses[1..];
    }
  }

  lemma {:induction false} SplitHasNoZero(buffer: seq<Lit>, begin: nat, from: nat, upto: nat)
    requires begin <= from <= upto <= |buffer| && forall i :: begin <= i < from ==> buffer[i] != NO_LITERAL
    ensures forall c :: c in Split(buffer, begin, from, upto) ==> NO_LITERAL !in c
    decreases upto - from
  {
    if from < upto {
      if buffer[from] == NO_LITERAL {
        SplitHasNoZero(buffer, from + 1, from + 1, upto);
      } else {
        SplitHasNoZero(buffer, begin, from + 1, upto);
      }
    }
  }

  // ---------------------------------------------------------------------------------------------
  // Replaying one record
  // ---------------------------------------------------------------------------------------------

  predicate TrueIn(m: Known, l: Lit) {
    Var(l) in m && m[Var(l)] == !IsNegated(l)
  }

  /** Some literal is true; a variable without a value makes none true. */
  predicate SatisfiedIn(m: Known, c: Clause) {
    exists i :: 0 <= i < |c| && TrueIn(m, c[i])
  }

  function MakeTrue(m: Known, l: Lit): Known {
    m[Var(l) := !IsNegated(l)]
  }

  /** The last literal over the variable among the first `k` is made true. */
  function Rescue(m: Known, v: nat, c: Clause, k: nat): Known
    requires k <= |c|
  {
    if k == 0 then m
    else if Var(c[k - 1]) == v then MakeTrue(Rescue(m, v, c, k - 1), c[k - 1])
    else Rescue(m, v, c, k - 1)
  }

  function ReplayEliminated(m: Known, v: nat, clauses: seq<Clause>, k: nat): Known
    requires k <= |clauses|
  {
    if k == 0 then m[v := false]
    else
      var before := ReplayEliminated(m, v, clauses, k - 1);
      if SatisfiedIn(before, clauses[k - 1]) then before else Rescue(before, v, clauses[k - 1], |clauses[k - 1]|)
  }

  function ReplayBlocked(m: Known, l: Lit, clauses: seq<Clause>, k: nat): Known
    requires k <= |clauses|
  {
    if k == 0 then m
    else
      var before := ReplayBlocked(m, l, clauses, k - 1);
      if SatisfiedIn(before, clauses[k - 1]) then before else MakeTrue(before, l)
  }

  function Replayed(m: Known, record: Record, buffer: seq<Lit>): Known {
    match record
    case Eliminated(v, begin, end) =>
      var w := Witness(buffer, begin, end);
      ReplayEliminated(m, v, w, |w|)
    case Blocked(l, begin, end) =>
      var w := Witness(buffer, begin, end);
      ReplayBlocked(m, l, w, |w|)
    case Factored(_, _, _) => m
  }

  /** The records from the last one down to `k`. */
  function ReplayedFrom(m: Known, records: seq<Record>, buffer: seq<Lit>, k: nat): Known
    requires k <= |records|
    decreases |records| - k
  {
    if k == |records| then m else Replayed(ReplayedFrom(m, records, buffer, k + 1), records[k], buffer)
  }

  // ---------------------------------------------------------------------------------------------
  // What makes a record reversible
  // ---------------------------------------------------------------------------------------------

  ghost function AsAssignment(m: Known): Assignment {
    iset v: nat | v in m && m[v]
  }

  /** Every variable of the problem has a value. */
  ghost predicate Complete(n: nat, m: Known) {
    forall v: nat :: 1 <= v <= n ==> v in m
  }

  ghost predicate OverVariables(n: nat, c: Clause) {
    forall l :: l in c ==> 1 <= Var(l) <= n
  }

  lemma CompleteSatisfies(n: nat, m: Known, c: Clause)
    requires Complete(n, m) && OverVariables(n, c)
    ensures SatisfiedIn(m, c) <==> Satisfies(AsAssignment(m), c)
  {
    forall l | l in c ensures TrueIn(m, l) <==> Holds(AsAssignment(m), l) {
    }
    if Satisfies(AsAssignment(m), c) {
      var l :| l in c && Holds(AsAssignment(m), l);
      var i :| 0 <= i < |c| && c[i] == l;
    }
  }

  /** Some literal other than `l` is true. */
  ghost predicate HoldsBeside(a: Assignment, c: Clause, l: Lit) {
    exists m :: m in c && m != l && Holds(a, m)
  }

  /** Every model of the formula satisfies one of the two clauses without the literal they clash on: their resolvent
      is tautological or follows from the formula. */
  ghost predicate ResolventHolds(f: Formula, c: Clause, d: Clause, l: Lit) {
    forall a: Assignment :: SatisfiesAll(a, f) ==> HoldsBeside(a, c, l) || HoldsBeside(a, d, Neg(l))
  }

  ghost predicate AmongWitnesses(c: Clause, w: seq<Clause>) {
    exists k :: 0 <= k < |w| && forall l :: l in c <==> l in w[k]
  }

  /** Variable elimination took the clauses over `v` out: the witnesses are those it occurred in positively, and the
      resolvents with those it occurred in negatively follow from what is left. */
  ghost predicate EliminationOk(f: Formula, after: Formula, v: nat, w: seq<Clause>) {
    var p := MakeLit(v, false);
    && (forall k :: 0 <= k < |w| ==> p in w[k] && Neg(p) !in w[k])
    && (forall c :: c in f && p !in c && Neg(p) !in c ==> Entails(after, c))
    && (forall c :: c in f && p in c && Neg(p) !in c ==> AmongWitnesses(c, w))
    && (forall c, k :: c in f && Neg(p) in c && p !in c && 0 <= k < |w| ==> ResolventHolds(after, w[k], c, p))
  }

  /** Blocked clauses were taken out: each resolvent on the blocking literal is tautological or follows. */
  ghost predicate BlockingOk(f: Formula, after: Formula, l: Lit, w: seq<Clause>) {
    && (forall k :: 0 <= k < |w| ==> l in w[k])
    && (forall c :: c in f ==> Entails(after, c) || AmongWitnesses(c, w))
    && (forall c, k :: c in f && Neg(l) in c && l !in c && 0 <= k < |w| ==> ResolventHolds(after, w[k], c, l))
  }

  /** Factoring only adds a definition: what is left still says all that was said before. */
  ghost predicate FactoringOk(f: Formula, after: Formula) {
    forall c :: c in f ==> Entails(after, c)
  }

  ghost predicate Reversible(f: Formula, after: Formula, record: Record, buffer: seq<Lit>) {
    match record
    case Eliminated(v, begin, end) => EliminationOk(f, after, v, Witness(buffer, begin, end))
    case Blocked(l, begin, end) => BlockingOk(f, after, l, Witness(buffer, begin, end))
    case Factored(_, _, _) => FactoringOk(f, after)
  }

  /** Everything the record speaks of is a variable of the problem. */
  ghost predicate RecordOver(n: nat, record: Record, buffer: seq<Lit>) {
    match record
    case Eliminated(v, begin, end) =>
      1 <= v <= n && forall k :: 0 <= k < |Witness(buffer, begin, end)| ==>
          OverVariables(n, Witness(buffer, begin, end)[k])
    case Blocked(l, begin, end) =>
      1 <= Var(l) <= n && forall k :: 0 <= k < |Witness(buffer, begin, end)| ==>
          OverVariables(n, Witness(buffer, begin, end)[k])
    case Factored(_, _, _) => true
  }

  ghost predicate FormulaOver(n: nat, f: Formula) {
    forall c :: c in f ==> OverVariables(n, c)
  }

  // ---------------------------------------------------------------------------------------------
  // Replaying repairs the model
  // ---------------------------------------------------------------------------------------------

  /** Rescuing a clause that holds the literal but not its negation makes the literal true. */
  lemma {:induction false} RescueMakesTrue(m: Known, v: nat, c: Clause, k: nat)
    requires k <= |c| && forall i :: 0 <= i < k && Var(c[i]) == v ==> c[i] == MakeLit(v, false)
    ensures Rescue(m, v, c, k) == if exists i :: 0 <= i < k && Var(c[i]) == v then m[v := true] else m
  {
    if k > 0 {
      RescueMakesTrue(m, v, c, k - 1);
    }
  }

  /** Either every witness is satisfied with the variable false, or the variable ends up true. */
  lemma {:induction false} EliminatedValue(m: Known, v: nat, w: seq<Clause>, k: nat)
    requires k <= |w| && forall j :: 0 <= j < |w| ==> MakeLit(v, false) in w[j] && Neg(MakeLit(v, false)) !in w[j]
    ensures var r := ReplayEliminated(m, v, w, k);
            || (r == m[v := false] && forall j :: 0 <= j < k ==> SatisfiedIn(m[v := false], w[j]))
            || (r == m[v := true] && exists j :: 0 <= j < k && !SatisfiedIn(m[v := false], w[j]))
  {
    if k > 0 {
      EliminatedValue(m, v, w, k - 1);
      var p := MakeLit(v, false);
      var before := ReplayEliminated(m, v, w, k - 1);
      var c := w[k - 1];
      var at :| 0 <= at < |c| && c[at] == p;
      forall i | 0 <= i < |c| && Var(c[i]) == v ensures c[i] == p {
        SameVar(c[i], p);
      }
      if before == m[v := true] && v in before && before[v] {
        assert TrueIn(before, c[at]);
      } else {
        RescueMakesTrue(before, v, c, |c|);
        assert m[v := false][v := true] == m[v := true];
      }
    }
  }

  lemma {:induction false} BlockedValue(m: Known, l: Lit, w: seq<Clause>, k: nat)
    requires k <= |w| && forall j :: 0 <= j < |w| ==> l in w[j]
    ensures var r := ReplayBlocked(m, l, w, k);
            || (r == m && forall j :: 0 <= j < k ==> SatisfiedIn(m, w[j]))
            || (r == MakeTrue(m, l) && exists j :: 0 <= j < k && !SatisfiedIn(m, w[j]))
  {
    if k > 0 {
      BlockedValue(m, l, w, k - 1);
      var before := ReplayBlocked(m, l, w, k - 1);
      var at :| 0 <= at < |w[k - 1]| && w[k - 1][at] == l;
      assert TrueIn(MakeTrue(m, l), w[k - 1][at]);
      assert MakeTrue(MakeTrue(m, l), l) == MakeTrue(m, l);
    }
  }

  /** Changing one variable leaves the other literals as they were. */
  lemma OthersHold(m: Known, l: Lit, value: bool, c: Clause)
    ensures forall k :: k in c && Var(k) != Var(l) ==>
              (Holds(AsAssignment(m[Var(l) := value]), k) <==> Holds(AsAssignment(m), k))
  {
  }

  lemma SameMeaning(a: Assignment, c: Clause, d: Clause)
    requires forall l :: l in c <==> l in d
    ensures Satisfies(a, c) <==> Satisfies(a, d)
  {
  }

  /** Making `l` true repairs the formula when a witness was falsified. */
  lemma FlipRepairs(n: nat, f: Formula, after: Formula, m: Known, l: Lit, w: seq<Clause>, j: nat, c: Clause)
    requires Complete(n, m) && SatisfiesAll(AsAssignment(m), after) && j < |w| && OverVariables(n, w[j]) && l in w[j]
    requires 1 <= Var(l) <= n
    requires !HoldsBeside(AsAssignment(m), w[j], l) && Neg(l) in c && l !in c && ResolventHolds(after, w[j], c, l)
    ensures Satisfies(AsAssignment(MakeTrue(m, l)), c)
  {
    var a := AsAssignment(m);
    assert HoldsBeside(a, c, Neg(l));
    var k :| k in c && k != Neg(l) && Holds(a, k);
    if Var(k) == Var(l) {
      SameVar(k, l);
    }
    OthersHold(m, l, !IsNegated(l), c);
  }

  lemma TrueLiteral(m: Known, l: Lit, c: Clause)
    requires l in c
    ensures Satisfies(AsAssignment(MakeTrue(m, l)), c)
  {
    assert Holds(AsAssignment(MakeTrue(m, l)), l);
  }

  lemma BlockedRepairs(n: nat, f: Formula, after: Formula, m: Known, l: Lit, w: seq<Clause>)
    requires BlockingOk(f, after, l, w) && Complete(n, m) && SatisfiesAll(AsAssignment(m), after) && 1 <= Var(l) <= n
    requires forall k :: 0 <= k < |w| ==> OverVariables(n, w[k])
    ensures SatisfiesAll(AsAssignment(ReplayBlocked(m, l, w, |w|)), f) && Complete(n, ReplayBlocked(m, l, w, |w|))
  {
    BlockedValue(m, l, w, |w|);
    var r := ReplayBlocked(m, l, w, |w|);
    forall c | c in f ensures Satisfies(AsAssignment(r), c) {
      if forall j :: 0 <= j < |w| ==> SatisfiedIn(m, w[j]) {
        if AmongWitnesses(c, w) {
          var k :| 0 <= k < |w| && forall x :: x in c <==> x in w[k];
          CompleteSatisfies(n, m, w[k]);
          SameMeaning(AsAssignment(m), c, w[k]);
        }
      } else {
        var j :| 0 <= j < |w| && !SatisfiedIn(m, w[j]);
        BlockedFlip(n, f, after, m, l, w, j, c);
      }
    }
  }

  lemma BlockedFlip(n: nat, f: Formula, after: Formula, m: Known, l: Lit, w: seq<Clause>, j: nat, c: Clause)
    requires BlockingOk(f, after, l, w) && Complete(n, m) && SatisfiesAll(AsAssignment(m), after) && 1 <= Var(l) <= n
    requires c in f && j < |w| && OverVariables(n, w[j]) && !SatisfiedIn(m, w[j])
    ensures Satisfies(AsAssignment(MakeTrue(m, l)), c)
  {
    CompleteSatisfies(n, m, w[j]);
    if l in c {
      TrueLiteral(m, l, c);
    } else if Neg(l) in c {
      FlipRepairs(n, f, after, m, l, w, j, c);
    } else {
      assert forall k :: 0 <= k < |w| ==> l in w[k];
      assert !AmongWitnesses(c, w);
      var k :| k in c && Holds(AsAssignment(m), k);
      if Var(k) == Var(l) {
        SameVar(k, l);
      }
      OthersHold(m, l, !IsNegated(l), c);
    }
  }

  lemma EliminationRepairs(n: nat, f: Formula, after: Formula, m: Known, v: nat, w: seq<Clause>)
    requires EliminationOk(f, after, v, w) && Complete(n, m) && SatisfiesAll(AsAssignment(m), after) && 1 <= v <= n
    requires forall k :: 0 <= k < |w| ==> OverVariables(n, w[k])
    ensures SatisfiesAll(AsAssignment(ReplayEliminated(m, v, w, |w|)), f) && Complete(n, ReplayEliminated(m, v, w, |w|))
  {
    EliminatedValue(m, v, w, |w|);
    var r := ReplayEliminated(m, v, w, |w|);
    var low := m[v := false];
    forall c | c in f ensures Satisfies(AsAssignment(r), c) {
      if forall j :: 0 <= j < |w| ==> SatisfiedIn(low, w[j]) {
        EliminatedLow(n, f, after, m, v, w, c);
      } else {
        var j :| 0 <= j < |w| && !SatisfiedIn(low, w[j]);
        EliminatedHigh(n, f, after, m, v, w, j, c);
      }
    }
  }

  /** With the variable false, the negative clauses hold; so do the witnesses, when all are satisfied. */
  lemma EliminatedLow(n: nat, f: Formula, after: Formula, m: Known, v: nat, w: seq<Clause>, c: Clause)
    requires EliminationOk(f, after, v, w) && Complete(n, m) && SatisfiesAll(AsAssignment(m), after) && 1 <= v <= n
    requires forall k :: 0 <= k < |w| ==> OverVariables(n, w[k]) && SatisfiedIn(m[v := false], w[k])
    requires c in f
    ensures Satisfies(AsAssignment(m[v := false]), c)
  {
    var p := MakeLit(v, false);
    var low := m[v := false];
    if Neg(p) in c {
      assert Holds(AsAssignment(low), Neg(p));
    } else if p in c {
      var k :| 0 <= k < |w| && forall x :: x in c <==> x in w[k];
      CompleteSatisfies(n, low, w[k]);
      SameMeaning(AsAssignment(low), c, w[k]);
    } else {
      Untouched(after, m, p, false, c);
    }
  }

  lemma Untouched(after: Formula, m: Known, p: Lit, value: bool, c: Clause)
    requires SatisfiesAll(AsAssignment(m), after) && Entails(after, c) && p !in c && Neg(p) !in c
    ensures Satisfies(AsAssignment(m[Var(p) := value]), c)
  {
    var k :| k in c && Holds(AsAssignment(m), k);
    if Var(k) == Var(p) {
      SameVar(k, p);
    }
    OthersHold(m, p, value, c);
  }

  /** With the variable true, the positive clauses hold, and a falsified witness vouches for the negative ones. */
  lemma EliminatedHigh(n: nat, f: Formula, after: Formula, m: Known, v: nat, w: seq<Clause>, j: nat, c: Clause)
    requires EliminationOk(f, after, v, w) && Complete(n, m) && SatisfiesAll(AsAssignment(m), after) && 1 <= v <= n
    requires j < |w| && OverVariables(n, w[j]) && !SatisfiedIn(m[v := false], w[j]) && c in f
    ensures Satisfies(AsAssignment(m[v := true]), c)
  {
    var p := MakeLit(v, false);
    assert m[v := true] == MakeTrue(m, p);
    if p in c {
      TrueLiteral(m, p, c);
    } else if Neg(p) in c {
      CompleteSatisfies(n, m[v := false], w[j]);
      OthersHold(m, p, false, w[j]);
      forall k | k in w[j] && k != p ensures !Holds(AsAssignment(m), k) {
        if Var(k) == v {
          SameVar(k, p);
        }
      }
      FlipRepairs(n, f, after, m, p, w, j, c);
    } else {
      Untouched(after, m, p, true, c);
    }
  }

  lemma RecordRepairs(n: nat, f: Formula, after: Formula, m: Known, record: Record, buffer: seq<Lit>)
    requires Reversible(f, after, record, buffer) && RecordOver(n, record, buffer)
    requires Complete(n, m) && SatisfiesAll(AsAssignment(m), after)
    ensures SatisfiesAll(AsAssignment(Replayed(m, record, buffer)), f) && Complete(n, Replayed(m, record, buffer))
  {
    match record
    case Eliminated(v, begin, end) => EliminationRepairs(n, f, after, m, v, Witness(buffer, begin, end));
    case Blocked(l, begin, end) => BlockedRepairs(n, f, after, m, l, Witness(buffer, begin, end));
    case Factored(_, _, _) =>
  }

  /** `chain[k]` is the formula the `k`-th record was made from; the last one is what the search was given. */
  ghost predicate Journal(n: nat, chain: seq<Formula>, records: seq<Record>, buffer: seq<Lit>) {
    && |chain| == |records| + 1
    && forall k :: 0 <= k < |records| ==>
         Reversible(chain[k], chain[k + 1], records[k], buffer) && RecordOver(n, records[k], buffer)
  }

  /** Replaying the whole stack backwards turns a model of the reduced formula into one of the original. */
  lemma {:induction false} ReplayRepairs(n: nat, chain: seq<Formula>, records: seq<Record>, buffer: seq<Lit>, m: Known,
                                         k: nat)
    requires Journal(n, chain, records, buffer) && k <= |records|
    requires Complete(n, m) && SatisfiesAll(AsAssignment(m), chain[|records|])
    ensures SatisfiesAll(AsAssignment(ReplayedFrom(m, records, buffer, k)), chain[k])
    ensures Complete(n, ReplayedFrom(m, records, buffer, k))
    decreases |records| - k
  {
    if k < |records| {
      ReplayRepairs(n, chain, records, buffer, m, k + 1);
      RecordRepairs(n, chain[k], chain[k + 1], ReplayedFrom(m, records, buffer, k + 1), records[k], buffer);
    }
  }

  // ---------------------------------------------------------------------------------------------
  // The table behind the known values
  // ---------------------------------------------------------------------------------------------

  /** The values of the variables marked present. */
  function KnownIn(values: seq<bool>, present: seq<bool>): Known
    requires |values| == |present|
  {
    map v: nat | v < |present| && present[v] :: values[v]
  }

  lemma KnownSet(values: seq<bool>, present: seq<bool>, v: nat, value: bool)
    requires |values| == |present| && v < |values|
    ensures KnownIn(values[v := value], present[v := true]) == KnownIn(values, present)[v := value]
  {
  }

  lemma KnownGrows(values: seq<bool>, present: seq<bool>, more: seq<bool>)
    requires |values| == |present| && forall i :: 0 <= i < |more| ==> !more[i]
    ensures KnownIn(values + more, present + more) == KnownIn(values, present)
  {
  }

  /** The literals of the variables from `from` on that have a value and are not hidden, in ascending order. */
  function Exposed(m: Known, hidden: set<nat>, from: nat, bound: nat): seq<Lit>
    decreases bound - from
  {
    if from >= bound then []
    else (if from in m && from !in hidden then [MakeLit(from, !m[from])] else []) + Exposed(m, hidden, from + 1, bound)
  }

  /** Exactly the variables that have a value and are not hidden are reported, with that value. */
  lemma {:induction false} ExposedIs(m: Known, hidden: set<nat>, from: nat, bound: nat)
    ensures forall l :: l in Exposed(m, hidden, from, bound) <==>
              from <= Var(l) < bound && Var(l) !in hidden && TrueIn(m, l)
    decreases bound - from
  {
    if from < bound {
      ExposedIs(m, hidden, from + 1, bound);
      forall l ensures from in m && from !in hidden ==>
          (l == MakeLit(from, !m[from]) <==> Var(l) == from && TrueIn(m, l)) {
        if from in m && Var(l) == from {
          SameVar(l, MakeLit(from, !m[from]));
        }
      }
    }
  }

  /** The model handed out satisfies every clause that speaks of no hidden variable. */
  lemma ExposedSatisfies(n: nat, m: Known, hidden: set<nat>, bound: nat, f: Formula)
    requires Complete(n, m) && SatisfiesAll(AsAssignment(m), f) && FormulaOver(n, f) && bound > n
    requires forall c, l :: c in f && l in c ==> Var(l) !in hidden
    ensures forall c :: c in f ==> exists l :: l in c && l in Exposed(m, hidden, 1, bound)
  {
    ExposedIs(m, hidden, 1, bound);
    forall c | c in f ensures exists l :: l in c && l in Exposed(m, hidden, 1, bound) {
      var l :| l in c && Holds(AsAssignment(m), l);
      assert TrueIn(m, l);
    }
  }

  /** The variables introduced by the records from `k` on. */
  function Introduced(records: seq<Record>, k: nat): set<nat>
    requires k <= |records|
    decreases |records| - k
  {
    if k == |records| then {}
    else Introduced(records, k + 1) + (if records[k].Factored? then {records[k].introduced} else {})
  }

  class ModelReconstructor {
    // The extension stack.
    var records: seq<Record>
    var witnesses: seq<Lit>

    var values: seq<bool>
    var present: seq<bool>
    var initialModel: seq<Lit>
    var reconstructed: seq<Lit>
    var internalOnly: set<nat>

    constructor (records: seq<Record>, witnesses: seq<Lit>)
      ensures this.records == records && this.witnesses == witnesses && internalOnly == {} && |values| == |present|
    {
      this.records, this.witnesses := records, witnesses;
      values, present, initialModel, reconstructed, internalOnly := [], [], [], [], {};
    }

    function Now(): Known
      requires |values| == |present|
      reads this`values, this`present
    {
      KnownIn(values, present)
    }

    /** Assigns a variable; the table grows when it is beyond its end. */
    method SetValue(v: nat, value: bool)
      requires |values| == |present|
      modifies this`values, this`present
      ensures |values| == |present| >= old(|values|) && Now() == old(Now())[v := value]
    {
      if v >= |values| {
        var more := seq(v + 1 - |values|, _ => false);
        KnownGrows(values, present, more);
        values := values + more;
        present := present + more;
      }
      KnownSet(values, present, v, value);
      values := values[v := value];
      present := present[v := true];
    }

    /** Whether a literal over a variable that has a value is true. */
    method ClauseIsSatisfied(c: Clause) returns (satisfied: bool)
      requires |values| == |present|
      ensures satisfied <==> SatisfiedIn(Now(), c)
    {
      var i := 0;
      while i < |c|
        invariant 0 <= i <= |c| && forall k :: 0 <= k < i ==> !TrueIn(Now(), c[k])
      {
        var v := Var(c[i]);
        if v < |present| && present[v] && values[v] != IsNegated(c[i]) {
          assert TrueIn(Now(), c[i]);
          return true;
        }
        i := i + 1;
      }
      satisfied := false;
    }

    /** Expands the initial model into the table; a later literal overrides an earlier one. */
    method LoadValuesFromInitialModel()
      modifies this`values, this`present
      ensures |values| == |present| >= 1 && Now() == Listed(initialModel, |initialModel|)
      ensures forall i :: 0 <= i < |initialModel| ==> Var(initialModel[i]) < |values|
    {
      var highest := 0;
      var i := 0;
      while i < |initialModel|
        invariant 0 <= i <= |initialModel| && forall k :: 0 <= k < i ==> Var(initialModel[k]) <= highest
      {
        if Var(initialModel[i]) > highest {
          highest := Var(initialModel[i]);
        }
        i := i + 1;
      }
      values := seq(highest + 1, _ => false);
      present := seq(highest + 1, _ => false);
      i := 0;
      while i < |initialModel|
        invariant 0 <= i <= |initialModel| && |values| == |present| == highest + 1
        invariant Now() == Listed(initialModel, i)
      {
        var v := Var(initialModel[i]);
        KnownSet(values, present, v, !IsNegated(initialModel[i]));
        values := values[v := !IsNegated(initialModel[i])];
        present := present[v := true];
        i := i + 1;
      }
    }

    /** Makes the eliminated variable's literal true in a clause that is not satisfied. */
    method RescueClause(v: nat, c: Clause)
      requires |values| == |present|
      modifies this`values, this`present
      ensures |values| == |present| >= old(|values|)
      ensures Now() == if SatisfiedIn(old(Now()), c) then old(Now()) else Rescue(old(Now()), v, c, |c|)
    {
      var satisfied := ClauseIsSatisfied(c);
      if satisfied {
        return;
      }
      var i := 0;
      while i < |c|
        invariant 0 <= i <= |c| && |values| == |present| >= old(|values|) && Now() == Rescue(old(Now()), v, c, i)
      {
        if Var(c[i]) == v {
          SetValue(Var(c[i]), !IsNegated(c[i]));
        }
        i := i + 1;
      }
    }

    /** Undoes a variable elimination: false first, then true if a witness clause needs it. */
    method UndoElimination(v: nat, begin: nat, end: nat)
      requires |values| == |present|
      modifies this`values, this`present
      ensures |values| == |present| >= old(|values|)
      ensures var w := Witness(witnesses, begin, end); Now() == ReplayEliminated(old(Now()), v, w, |w|)
    {
      SetValue(v, false);
      if begin > |witnesses| {
        return;
      }
      var rangeEnd := RangeEnd(witnesses, begin, end);
      ghost var w := Witness(witnesses, begin, end);
      ghost var k := 0;
      var clauseBegin, index := begin, begin;
      assert w[0..] == w;
      while index < rangeEnd
        invariant begin <= clauseBegin <= index <= rangeEnd <= |witnesses| && |values| == |present| >= old(|values|)
        invariant k <= |w| && w[k..] == Split(witnesses, clauseBegin, index, rangeEnd)
        invariant Now() == ReplayEliminated(old(Now()), v, w, k)
        decreases rangeEnd - index
      {
        if witnesses[index] == NO_LITERAL {
          NextWitness(w, k, witnesses, clauseBegin, index, rangeEnd);
          RescueClause(v, witnesses[clauseBegin..index]);
          k := k + 1;
          clauseBegin := index + 1;
        }
        index := index + 1;
      }
    }

    /** Undoes a blocked-clause elimination: the blocking literal is made true when its clause needs it. */
    method UndoBlocking(l: Lit, begin: nat, end: nat)
      requires |values| == |present|
      modifies this`values, this`present
      ensures |values| == |present| >= old(|values|)
      ensures var w := Witness(witnesses, begin, end); Now() == ReplayBlocked(old(Now()), l, w, |w|)
    {
      if begin > |witnesses| {
        return;
      }
      var rangeEnd := RangeEnd(witnesses, begin, end);
      ghost var w := Witness(witnesses, begin, end);
      ghost var k := 0;
      var clauseBegin, index := begin, begin;
      assert w[0..] == w;
      while index < rangeEnd
        invariant begin <= clauseBegin <= index <= rangeEnd <= |witnesses| && |values| == |present| >= old(|values|)
        invariant k <= |w| && w[k..] == Split(witnesses, clauseBegin, index, rangeEnd)
        invariant Now() == ReplayBlocked(old(Now()), l, w, k)
        decreases rangeEnd - index
      {
        if witnesses[index] == NO_LITERAL {
          NextWitness(w, k, witnesses, clauseBegin, index, rangeEnd);
          var satisfied := ClauseIsSatisfied(witnesses[clauseBegin..index]);
          if !satisfied {
            SetValue(Var(l), !IsNegated(l));
          }
          k := k + 1;
          clauseBegin := index + 1;
        }
        index := index + 1;
      }
    }

    method ApplyExtensionRecord(record: Record)
      requires |values| == |present|
      modifies this`values, this`present, this`internalOnly
      ensures |values| == |present| >= old(|values|) && Now() == Replayed(old(Now()), record, witnesses)
      ensures internalOnly == old(internalOnly) + (if record.Factored? then {record.introduced} else {})
    {
      match record
      case Eliminated(v, begin, end) => UndoElimination(v, begin, end);
      case Blocked(l, begin, end) => UndoBlocking(l, begin, end);
      case Factored(v, _, _) => internalOnly := internalOnly + {v};
    }

    /** Replays the stack backwards and lists what the caller may see. */
    method ReconstructFullModel()
      modifies this`values, this`present, this`internalOnly, this`reconstructed
      ensures |values| == |present| >= 1
      ensures Now() == ReplayedFrom(Listed(initialModel, |initialModel|), records, witnesses, 0)
      ensures internalOnly == old(internalOnly) + Introduced(records, 0)
      ensures reconstructed == Exposed(Now(), internalOnly, 1, |values|)
      ensures forall i :: 0 <= i < |initialModel| ==> Var(initialModel[i]) < |values|
    {
      LoadValuesFromInitialModel();
      var index := |records|;
      while index > 0
        invariant 0 <= index <= |records| && |values| == |present| >= 1
        invariant Now() == ReplayedFrom(Listed(initialModel, |initialModel|), records, witnesses, index)
        invariant internalOnly == old(internalOnly) + Introduced(records, index)
        invariant forall i :: 0 <= i < |initialModel| ==> Var(initialModel[i]) < |values|
        decreases index
      {
        index := index - 1;
        ApplyExtensionRecord(records[index]);
      }
      ListExposed();
    }

    /** Lists the values of the variables the caller knows. */
    method ListExposed()
      requires |values| == |present| >= 1
      modifies this`reconstructed
      ensures reconstructed == Exposed(Now(), internalOnly, 1, |values|)
    {
      reconstructed := [];
      var v := 1;
      while v < |values|
        invariant 1 <= v <= |values|
        invariant reconstructed + Exposed(Now(), internalOnly, v, |values|) == Exposed(Now(), internalOnly, 1, |values|)
        decreases |values| - v
      {
        if present[v] && v !in internalOnly {
          reconstructed := reconstructed + [MakeLit(v, !values[v])];
        }
        v := v + 1;
      }
    }
  }

  /** The values the first `k` literals give; later ones override earlier ones. */
  function Listed(model: seq<Lit>, k: nat): Known
    requires k <= |model|
  {
    if k == 0 then map[] else MakeTrue(Listed(model, k - 1), model[k - 1])
  }

  /** A model with a value for every variable names the last one. */
  lemma CompleteReaches(n: nat, model: seq<Lit>)
    requires Complete(n, Listed(model, |model|))
    ensures n > 0 ==> exists i :: 0 <= i < |model| && Var(model[i]) == n
  {
    ListedNames(model, |model|, n);
  }

  lemma {:induction false} ListedNames(model: seq<Lit>, k: nat, v: nat)
    requires k <= |model|
    ensures v in Listed(model, k) <==> exists i :: 0 <= i < k && Var(model[i]) == v
  {
    if k > 0 {
      ListedNames(model, k - 1, v);
    }
  }

  /** The clause closed at `index` is the next witness. */
  lemma NextWitness(w: seq<Clause>, k: nat, buffer: seq<Lit>, begin: nat, index: nat, end: nat)
    requires k <= |w| && begin <= index < end <= |buffer| && w[k..] == Split(buffer, begin, index, end)
    requires buffer[index] == NO_LITERAL
    ensures k < |w| && w[k] == buffer[begin..index] && w[k + 1..] == Split(buffer, index + 1, index + 1, end)
  {
    assert w[k..][0] == w[k];
    assert w[k..][1..] == w[k + 1..];
  }

  /** What `ReconstructFullModel` lists satisfies the formula first stated, whatever mixture of records lies between
      it and the formula the search was given, and names no introduced variable. */
  lemma ReconstructionIsRight(n: nat, chain: seq<Formula>, records: seq<Record>, buffer: seq<Lit>, model: seq<Lit>,
                              bound: nat)
    requires Journal(n, chain, records, buffer) && Complete(n, Listed(model, |model|))
    requires SatisfiesAll(AsAssignment(Listed(model, |model|)), chain[|records|])
    requires FormulaOver(n, chain[0]) && forall c, l :: c in chain[0] && l in c ==> Var(l) !in Introduced(records, 0)
    requires bound > 0 && forall i :: 0 <= i < |model| ==> Var(model[i]) < bound
    ensures var known := ReplayedFrom(Listed(model, |model|), records, buffer, 0);
            var handedOut := Exposed(known, Introduced(records, 0), 1, bound);
            && (forall c :: c in chain[0] ==> exists l :: l in c && l in handedOut)
            && (forall l :: l in handedOut ==> Var(l) !in Introduced(records, 0) && Neg(l) !in handedOut)
  {
    ReplayRepairs(n, chain, records, buffer, Listed(model, |model|), 0);
    CompleteReaches(n, model);
    var known := ReplayedFrom(Listed(model, |model|), records, buffer, 0);
    ExposedSatisfies(n, known, Introduced(records, 0), bound, chain[0]);
    ExposedIs(known, Introduced(records, 0), 1, bound);
  }
}
