/** The tables of a local-search walk: what each must say, and the steps of a flip. */
module WalkState {
  import opened Logic

  /** The literal is true under the table of polarities. */
  predicate TrueUnder(assignment: seq<bool>, l: Lit) {
    Var(l) < |assignment| && assignment[Var(l)] != IsNegated(l)
  }

  /** The true literals of a clause. */
  function TrueLits(assignment: seq<bool>, c: Clause): set<Lit> {
    set l | l in c && TrueUnder(assignment, l)
  }

  /** The clause's only true literal is over the variable. */
  predicate Critical(lits: set<Lit>, v: nat) {
    |lits| == 1 && exists l :: l in lits && Var(l) == v
  }

  /** How many of the first `k` clauses have their only true literal over `v`. */
  function Breaks(sets: seq<set<Lit>>, v: nat, k: nat): nat
    requires k <= |sets|
  {
    if k == 0 then 0 else Breaks(sets, v, k - 1) + if Critical(sets[k - 1], v) then 1 else 0
  }

  lemma {:induction false} BreaksChange(sets: seq<set<Lit>>, v: nat, k: nat, i: nat, s: set<Lit>)
    requires k <= |sets| && i < |sets|
    ensures Breaks(sets[i := s], v, k)
         == Breaks(sets, v, k) + (if i < k && Critical(s, v) then 1 else 0) - (if i < k
             && Critical(sets[i], v) then 1 else 0)
    ensures i < k && Critical(sets[i], v) ==> Breaks(sets, v, k) >= 1
  {
    if k > 0 {
      BreaksChange(sets, v, k - 1, i, s);
    }
  }

  /** The derived tables of a walk. */
  datatype Tables = Tables(
    trueCounts: seq<nat>, critical: seq<nat>, breaks: seq<nat>, unsatisfied: seq<nat>, positions: seq<int>)

  /** The counts are the numbers of true literals; where one is true, its variable is recorded. */
  ghost predicate CountsOk(sets: seq<set<Lit>>, t: Tables) {
    && |t.trueCounts| == |t.critical| == |sets|
    && (forall i :: 0 <= i < |sets| ==> t.trueCounts[i] == |sets[i]|)
    && (forall i :: 0 <= i < |sets| && |sets[i]| == 1 ==> Critical(sets[i], t.critical[i]))
  }

  ghost predicate BreaksOk(sets: seq<set<Lit>>, breaks: seq<nat>) {
    forall v :: 0 <= v < |breaks| ==> breaks[v] == Breaks(sets, v, |sets|)
  }

  /** The list holds the clauses without a true literal, each once, and the position table is its inverse. */
  ghost predicate ListOk(sets: seq<set<Lit>>, unsatisfied: seq<nat>, positions: seq<int>) {
    && |positions| == |sets|
    && (forall i :: 0 <= i < |unsatisfied| ==> unsatisfied[i] < |sets| && positions[unsatisfied[i]] == i)
    && (forall i :: 0 <= i < |sets| ==>
          if |sets[i]| == 0 then 0 <= positions[i] < |unsatisfied|
              && unsatisfied[positions[i]] == i else positions[i] == -1)
  }

  /** Every table says what recomputing it would. */
  ghost predicate Agree(sets: seq<set<Lit>>, t: Tables) {
    CountsOk(sets, t) && BreaksOk(sets, t.breaks) && ListOk(sets, t.unsatisfied, t.positions)
  }

  lemma CriticalUnique(lits: set<Lit>, v: nat, u: nat)
    requires Critical(lits, v) && Critical(lits, u)
    ensures v == u
  {
    var l :| l in lits && Var(l) == v;
    var m :| m in lits && Var(m) == u;
    Single(lits, l, m);
  }

  lemma Single(lits: set<Lit>, l: Lit, m: Lit)
    requires |lits| == 1 && l in lits && m in lits
    ensures l == m
  {
    assert |lits - {l}| == |lits| - 1;
    assert m != l ==> m in lits - {l};
  }

  // ---------------------------------------------------------------------------------------------
  // One clause loses a true literal
  // ---------------------------------------------------------------------------------------------

  /** The last true literal goes: the clause joins the unsatisfied ones, and its variable breaks one clause less. */
  lemma LoseLast(sets: seq<set<Lit>>, t: Tables, i: nat, l: Lit)
    requires Agree(sets, t) && i < |sets| && sets[i] == {l} && Var(l) < |t.breaks|
    ensures t.breaks[Var(l)] >= 1
    ensures Agree(sets[i := {}],
                  t.(trueCounts := t.trueCounts[i := 0], breaks := t.breaks[Var(l) := t.breaks[Var(l)] - 1],
                     unsatisfied := t.unsatisfied + [i], positions := t.positions[i := |t.unsatisfied|]))
  {
    assert Critical(sets[i], Var(l));
    forall v | 0 <= v < |t.breaks|
      ensures Breaks(sets[i := {}], v, |sets|) + (if v == Var(l) then 1 else 0) == t.breaks[v]
    {
      BreaksChange(sets, v, |sets|, i, {});
      if Critical(sets[i], v) {
        CriticalUnique(sets[i], v, Var(l));
      }
    }
    BreaksChange(sets, Var(l), |sets|, i, {});
    JoinList(sets, t.unsatisfied, t.positions, i);
  }

  lemma JoinList(sets: seq<set<Lit>>, unsatisfied: seq<nat>, positions: seq<int>, i: nat)
    requires ListOk(sets, unsatisfied, positions) && i < |sets| && |sets[i]| != 0
    ensures ListOk(sets[i := {}], unsatisfied + [i], positions[i := |unsatisfied|])
  {
    var list, places, after := unsatisfied + [i], positions[i := |unsatisfied|], sets[i := {}];
    forall k | 0 <= k < |list| ensures list[k] < |after| && places[list[k]] == k {
    }
  }

  /** One true literal is left: it becomes critical. */
  lemma LoseToOne(sets: seq<set<Lit>>, t: Tables, i: nat, l: Lit, m: Lit)
    requires Agree(sets, t) && i < |sets| && l in sets[i] && sets[i] - {l} == {m} && Var(m) < |t.breaks|
    ensures Agree(sets[i := {m}],
                  t.(trueCounts := t.trueCounts[i := 1], critical := t.critical[i := Var(m)],
                     breaks := t.breaks[Var(m) := t.breaks[Var(m)] + 1]))
  {
    assert sets[i] == (sets[i] - {l}) + {l};
    assert Critical({m}, Var(m));
    forall v | 0 <= v < |t.breaks|
      ensures Breaks(sets[i := {m}], v, |sets|) == t.breaks[v] + (if v == Var(m) then 1 else 0)
    {
      BreaksChange(sets, v, |sets|, i, {m});
      if Critical({m}, v) {
        CriticalUnique({m}, v, Var(m));
      }
    }
  }

  /** Two or more are left: only the count changes. */
  lemma LoseOne(sets: seq<set<Lit>>, t: Tables, i: nat, l: Lit)
    requires Agree(sets, t) && i < |sets| && l in sets[i] && |sets[i]| >= 3
    ensures |sets[i] - {l}| == |sets[i]| - 1
    ensures Agree(sets[i := sets[i] - {l}], t.(trueCounts := t.trueCounts[i := |sets[i]| - 1]))
  {
    var s := sets[i] - {l};
    assert |s| == |sets[i]| - 1;
    forall v | 0 <= v < |t.breaks| ensures Breaks(sets[i := s], v, |sets|) == t.breaks[v] {
      BreaksChange(sets, v, |sets|, i, s);
    }
  }

  // ---------------------------------------------------------------------------------------------
  // One clause gains a true literal
  // ---------------------------------------------------------------------------------------------

  /** The list without a clause: the last one takes its place. */
  function Replaced(unsatisfied: seq<nat>, at: nat): seq<nat>
    requires at < |unsatisfied|
  {
    unsatisfied[at := unsatisfied[|unsatisfied| - 1]][..|unsatisfied| - 1]
  }

  lemma LeaveList(sets: seq<set<Lit>>, unsatisfied: seq<nat>, positions: seq<int>, i: nat, s: set<Lit>)
    requires ListOk(sets, unsatisfied, positions) && i < |sets| && |sets[i]| == 0 && |s| > 0
    ensures 0 <= positions[i] < |unsatisfied| && unsatisfied[|unsatisfied| - 1] < |positions|
    ensures ListOk(sets[i := s], Replaced(unsatisfied, positions[i]),
                   positions[unsatisfied[|unsatisfied| - 1] := positions[i]][i := -1])
  {
    var at, last := positions[i], |unsatisfied| - 1;
    var moved := unsatisfied[last];
    var list, places, after := Replaced(unsatisfied, at), positions[moved := at][i := -1], sets[i := s];
    assert |sets[moved]| == 0 by {
      assert positions[moved] == last;
    }
    forall k | 0 <= k < |list| ensures list[k] < |after| && places[list[k]] == k {
      if k == at {
        assert list[k] == moved;
      } else {
        assert list[k] == unsatisfied[k];
        assert positions[unsatisfied[k]] == k;
      }
    }
    forall k | 0 <= k < |after|
      ensures if |after[k]| == 0 then 0 <= places[k] < |list| && list[places[k]] == k else places[k] == -1
    {
      if k != i && |sets[k]| == 0 {
        assert unsatisfied[positions[k]] == k;
      }
    }
  }

  /** The first true literal comes: the clause leaves the unsatisfied ones and the variable is critical. */
  lemma GainFirst(sets: seq<set<Lit>>, t: Tables, i: nat, l: Lit)
    requires Agree(sets, t) && i < |sets| && sets[i] == {} && Var(l) < |t.breaks|
    ensures 0 <= t.positions[i] < |t.unsatisfied| && t.unsatisfied[|t.unsatisfied| - 1] < |t.positions|
    ensures Agree(sets[i := {l}],
                  t.(trueCounts := t.trueCounts[i := 1], critical := t.critical[i := Var(l)],
                     breaks := t.breaks[Var(l) := t.breaks[Var(l)] + 1],
                     unsatisfied := Replaced(t.unsatisfied, t.positions[i]),
                     positions := t.positions[t.unsatisfied[|t.unsatisfied| - 1] := t.positions[i]][i := -1]))
  {
    LeaveList(sets, t.unsatisfied, t.positions, i, {l});
    assert Critical({l}, Var(l));
    forall v | 0 <= v < |t.breaks|
      ensures Breaks(sets[i := {l}], v, |sets|) == t.breaks[v] + (if v == Var(l) then 1 else 0)
    {
      BreaksChange(sets, v, |sets|, i, {l});
      if Critical({l}, v) {
        CriticalUnique({l}, v, Var(l));
      }
    }
  }

  /** The second true literal comes: the first one is critical no more. */
  lemma GainSecond(sets: seq<set<Lit>>, t: Tables, i: nat, l: Lit)
    requires Agree(sets, t) && i < |sets| && |sets[i]| == 1 && l !in sets[i] && t.critical[i] < |t.breaks|
    ensures t.breaks[t.critical[i]] >= 1
    ensures Agree(sets[i := sets[i] + {l}],
                  t.(trueCounts := t.trueCounts[i := 2],
                     breaks := t.breaks[t.critical[i] := t.breaks[t.critical[i]] - 1]))
  {
    var s, c := sets[i] + {l}, t.critical[i];
    assert |s| == 2;
    forall v | 0 <= v < |t.breaks|
      ensures Breaks(sets[i := s], v, |sets|) + (if v == c then 1 else 0) == t.breaks[v]
    {
      BreaksChange(sets, v, |sets|, i, s);
      if Critical(sets[i], v) {
        CriticalUnique(sets[i], v, c);
      }
    }
    BreaksChange(sets, c, |sets|, i, s);
  }

  lemma GainMore(sets: seq<set<Lit>>, t: Tables, i: nat, l: Lit)
    requires Agree(sets, t) && i < |sets| && |sets[i]| >= 2 && l !in sets[i]
    ensures |sets[i] + {l}| == |sets[i]| + 1
    ensures Agree(sets[i := sets[i] + {l}], t.(trueCounts := t.trueCounts[i := |sets[i]| + 1]))
  {
    var s := sets[i] + {l};
    forall v | 0 <= v < |t.breaks| ensures Breaks(sets[i := s], v, |sets|) == t.breaks[v] {
      BreaksChange(sets, v, |sets|, i, s);
    }
  }

  // ---------------------------------------------------------------------------------------------
  // Flipping
  // ---------------------------------------------------------------------------------------------

  function Flipped(assignment: seq<bool>, v: nat): seq<bool>
    requires v < |assignment|
  {
    assignment[v := !assignment[v]]
  }

  /** The literal of the variable that a flip makes false. */
  function Losing(assignment: seq<bool>, v: nat): Lit
    requires v < |assignment|
  {
    MakeLit(v, !assignment[v])
  }

  /** Each clause loses the losing literal if it has it, and gains its negation if it has that. */
  lemma FlippedLits(assignment: seq<bool>, v: nat, c: Clause)
    requires v < |assignment| && (forall i, j :: 0 <= i < j < |c| ==> Var(c[i]) != Var(c[j]))
    ensures var l := Losing(assignment, v);
            && TrueUnder(assignment, l) && !TrueUnder(assignment, Neg(l))
            && TrueLits(Flipped(assignment, v), c)
               == TrueLits(assignment, c) - {l} + (if Neg(l) in c then {Neg(l)} else {})
            && (l in c ==> l in TrueLits(assignment, c) && Neg(l) !in c)
            && (Neg(l) in c ==> Neg(l) !in TrueLits(assignment, c) && l !in c)
  {
    var l := Losing(assignment, v);
    forall m ensures m in TrueLits(Flipped(assignment, v), c) <==>
                     m in TrueLits(assignment, c) - {l} + (if Neg(l) in c then {Neg(l)} else {})
    {
      if Var(m) == v {
        SameVar(m, l);
      }
    }
    NoComplement(c, l);
  }

  lemma NoComplement(c: Clause, l: Lit)
    requires forall i, j :: 0 <= i < j < |c| ==> Var(c[i]) != Var(c[j])
    ensures l in c ==> Neg(l) !in c
    ensures Neg(l) in c ==> l !in c
  {
    forall i, j | 0 <= i < |c| && 0 <= j < |c| && c[i] == l ensures c[j] != Neg(l) {
      assert i != j ==> Var(c[i]) != Var(c[j]);
    }
  }

  // ---------------------------------------------------------------------------------------------
  // Recomputing
  // ---------------------------------------------------------------------------------------------

  /** The tables are right for the first `k` clauses. */
  ghost predicate AgreeUpTo(sets: seq<set<Lit>>, t: Tables, k: nat) {
    && k <= |sets| && |t.trueCounts| == |t.critical| == |t.positions| == |sets|
    && (forall i :: 0 <= i < k ==> t.trueCounts[i] == |sets[i]|)
    && (forall i :: 0 <= i < k && |sets[i]| == 1 ==> Critical(sets[i], t.critical[i]))
    && (forall v :: 0 <= v < |t.breaks| ==> t.breaks[v] == Breaks(sets, v, k))
    && (forall i :: 0 <= i < |t.unsatisfied| ==> t.unsatisfied[i] < k && t.positions[t.unsatisfied[i]] == i)
    && (forall i :: 0 <= i < k ==>
          if |sets[i]| == 0 then 0 <= t.positions[i] < |t.unsatisfied| && t.unsatisfied[t.positions[i]] == i
          else t.positions[i] == -1)
  }

  lemma AgreeAll(sets: seq<set<Lit>>, t: Tables)
    requires AgreeUpTo(sets, t, |sets|)
    ensures Agree(sets, t)
  {
  }

  /** One more clause counted. */
  function Counted(t: Tables, k: nat, count: nat, variable: nat): Tables
    requires k < |t.trueCounts| && k < |t.critical| && k < |t.positions| && (count == 1 ==> variable < |t.breaks|)
  {
    Tables(t.trueCounts[k := count], t.critical[k := variable],
           if count == 1 then t.breaks[variable := t.breaks[variable] + 1] else t.breaks,
           if count == 0 then t.unsatisfied + [k] else t.unsatisfied,
           t.positions[k := if count == 0 then |t.unsatisfied| else -1])
  }

  lemma CountedOk(sets: seq<set<Lit>>, t: Tables, k: nat, count: nat, variable: nat)
    requires k < |sets| && AgreeUpTo(sets, t, k) && count == |sets[k]|
    requires count == 1 ==> variable < |t.breaks| && Critical(sets[k], variable)
    ensures AgreeUpTo(sets, Counted(t, k, count, variable), k + 1)
  {
    var u := Counted(t, k, count, variable);
    forall v | 0 <= v < |u.breaks| ensures u.breaks[v] == Breaks(sets, v, k + 1) {
      if count == 1 && Critical(sets[k], v) {
        CriticalUnique(sets[k], v, variable);
      }
    }
  }

  lemma TrueLitsMore(assignment: seq<bool>, c: Clause, j: nat)
    requires j < |c| && forall a, b :: 0 <= a < b < |c| ==> c[a] != c[b]
    ensures TrueLits(assignment, c[..j + 1]) == TrueLits(assignment, c[..j])
            + (if TrueUnder(assignment, c[j]) then {c[j]} else {})
    ensures c[j] !in TrueLits(assignment, c[..j])
  {
    assert c[..j + 1] == c[..j] + [c[j]];
  }

  // ---------------------------------------------------------------------------------------------
  // What a walk finds
  // ---------------------------------------------------------------------------------------------

  /** The true literals of every clause. */
  function AllTrueLits(assignment: seq<bool>, clauses: seq<Clause>): (sets: seq<set<Lit>>)
    ensures |sets| == |clauses|
  {
    seq(|clauses|, i requires 0 <= i < |clauses| => TrueLits(assignment, clauses[i]))
  }

  predicate NoneTrue(assignment: seq<bool>, c: Clause) {
    TrueLits(assignment, c) == {}
  }

  /** How many of the first `k` clauses have no true literal. */
  function UnsatisfiedCount(assignment: seq<bool>, clauses: seq<Clause>, k: nat): nat
    requires k <= |clauses|
  {
    if k == 0 then 0
    else UnsatisfiedCount(assignment, clauses, k - 1) + if NoneTrue(assignment, clauses[k - 1]) then 1 else 0
  }

  /** The clauses among the first `k` without a true literal. */
  function UnsatisfiedSet(assignment: seq<bool>, clauses: seq<Clause>, k: nat): set<nat>
    requires k <= |clauses|
  {
    if k == 0 then {}
    else if NoneTrue(assignment, clauses[k - 1]) then UnsatisfiedSet(assignment, clauses, k - 1) + {k - 1}
    else UnsatisfiedSet(assignment, clauses, k - 1)
  }

  lemma {:induction false} UnsatisfiedSetIs(assignment: seq<bool>, clauses: seq<Clause>, k: nat, i: nat)
    requires k <= |clauses|
    ensures i in UnsatisfiedSet(assignment, clauses, k) <==> i < k && NoneTrue(assignment, clauses[i])
  {
    hide NoneTrue;
    if k > 0 {
      UnsatisfiedSetIs(assignment, clauses, k - 1, i);
    }
  }

  lemma {:induction false} UnsatisfiedSetSize(assignment: seq<bool>, clauses: seq<Clause>, k: nat)
    requires k <= |clauses|
    ensures |UnsatisfiedSet(assignment, clauses, k)| == UnsatisfiedCount(assignment, clauses, k)
  {
    hide NoneTrue;
    if k > 0 {
      UnsatisfiedSetSize(assignment, clauses, k - 1);
      UnsatisfiedSetIs(assignment, clauses, k - 1, k - 1);
    }
  }

  function Members(list: seq<nat>): set<nat> {
    set x | x in list
  }

  lemma {:induction false} DistinctList(list: seq<nat>)
    requires forall i, j :: 0 <= i < j < |list| ==> list[i] != list[j]
    ensures |Members(list)| == |list|
  {
    if list != [] {
      var front, last := list[..|list| - 1], list[|list| - 1];
      DistinctList(front);
      assert list == front + [last];
      assert Members(list) == Members(front) + {last};
    }
  }

  /** The length of the list is the number of unsatisfied clauses. */
  lemma ListLength(assignment: seq<bool>, clauses: seq<Clause>, t: Tables)
    requires Agree(AllTrueLits(assignment, clauses), t)
    ensures |t.unsatisfied| == UnsatisfiedCount(assignment, clauses, |clauses|)
  {
    var list, open := t.unsatisfied, UnsatisfiedSet(assignment, clauses, |clauses|);
    UnsatisfiedSetSize(assignment, clauses, |clauses|);
    forall i, j | 0 <= i < j < |list| ensures list[i] != list[j] {
      assert t.positions[list[i]] == i && t.positions[list[j]] == j;
    }
    DistinctList(list);
    forall x: nat ensures x in Members(list) <==> x in open {
      UnsatisfiedSetIs(assignment, clauses, |clauses|, x);
      if x in list {
        var i :| 0 <= i < |list| && list[i] == x;
        assert t.positions[x] == i;
      }
      if x in open {
        assert list[t.positions[x]] == x;
      }
    }
    assert Members(list) == open;
  }

  ghost function AsAssignment(assignment: seq<bool>): Assignment {
    iset v: nat | v < |assignment| && assignment[v]
  }

  /** With no clause left unsatisfied, the polarities are a model of all of them. */
  lemma {:induction false} NoneUnsatisfied(assignment: seq<bool>, clauses: seq<Clause>, k: nat)
    requires k <= |clauses| && UnsatisfiedCount(assignment, clauses, k) == 0
    requires forall i, l :: 0 <= i < |clauses| && l in clauses[i] ==> Var(l) < |assignment|
    ensures forall i :: 0 <= i < k ==> Satisfies(AsAssignment(assignment), clauses[i])
  {
    if k > 0 {
      NoneUnsatisfied(assignment, clauses, k - 1);
      var l :| l in TrueLits(assignment, clauses[k - 1]);
      assert Holds(AsAssignment(assignment), l);
    }
  }

  // ---------------------------------------------------------------------------------------------
  // A whole walk
  // ---------------------------------------------------------------------------------------------

  /** The flip of a variable of a clause left unsatisfied. */
  ghost predicate IsFlip(clauses: seq<Clause>, a: seq<bool>, b: seq<bool>) {
    exists v: nat :: v < |a| && b == Flipped(a, v) && Unhappy(clauses, a, v)
  }

  /** The variable occurs in a clause left unsatisfied. */
  ghost predicate Unhappy(clauses: seq<Clause>, a: seq<bool>, v: nat) {
    exists i :: 0 <= i < |clauses| && NoneTrue(a, clauses[i]) && exists l :: l in clauses[i] && Var(l) == v
  }

  /** The assignments of a walk, flip by flip; it goes on only while something is unsatisfied. */
  ghost predicate IsWalk(clauses: seq<Clause>, path: seq<seq<bool>>) {
    && path != []
    && forall k :: 0 <= k < |path| - 1 ==>
         IsFlip(clauses, path[k], path[k + 1]) && UnsatisfiedCount(path[k], clauses, |clauses|) > 0
  }

  /** The variables with a given polarity start with it. */
  predicate StartsFrom(assignment: seq<bool>, initialPhase: seq<bool>) {
    forall v :: 1 <= v < |assignment| && v < |initialPhase| ==> assignment[v] == initialPhase[v]
  }

  /** The least number of unsatisfied clauses along the walk and, when there was one, the record before it. */
  ghost predicate IsRecord(clauses: seq<Clause>, path: seq<seq<bool>>, before: int, best: int) {
    && (before >= 0 ==> best <= before)
    && (forall k :: 0 <= k < |path| ==> best <= UnsatisfiedCount(path[k], clauses, |clauses|))
    && ((before >= 0 && best == before)
        || exists k :: 0 <= k < |path| && best == UnsatisfiedCount(path[k], clauses, |clauses|))
  }

  lemma WalkStarts(clauses: seq<Clause>, a: seq<bool>, before: int)
    ensures IsWalk(clauses, [a])
    ensures var u := UnsatisfiedCount(a, clauses, |clauses|);
            IsRecord(clauses, [a], before, if before < 0 || u < before then u else before)
  {
    assert [a][0] == a;
  }

  lemma OneFlip(clauses: seq<Clause>, a: seq<bool>, b: seq<bool>, v: nat)
    requires v < |a| && b == Flipped(a, v) && Unhappy(clauses, a, v)
    ensures IsFlip(clauses, a, b)
  {
  }

  lemma WalkGoesOn(clauses: seq<Clause>, path: seq<seq<bool>>, b: seq<bool>)
    requires IsWalk(clauses, path)
    requires IsFlip(clauses, path[|path| - 1], b) && UnsatisfiedCount(path[|path| - 1], clauses, |clauses|) > 0
    ensures IsWalk(clauses, path + [b])
  {
    hide IsFlip, UnsatisfiedCount;
    var longer := path + [b];
    forall k | 0 <= k < |longer| - 1
      ensures IsFlip(clauses, longer[k], longer[k + 1]) && UnsatisfiedCount(longer[k], clauses, |clauses|) > 0
    {
      if k < |path| - 1 {
        assert longer[k] == path[k] && longer[k + 1] == path[k + 1];
      }
    }
  }

  lemma RecordGoesOn(clauses: seq<Clause>, path: seq<seq<bool>>, b: seq<bool>, before: int, best: int)
    requires IsRecord(clauses, path, before, best) && best >= 0
    ensures var u := UnsatisfiedCount(b, clauses, |clauses|);
            IsRecord(clauses, path + [b], before, if u < best then u else best)
  {
    hide UnsatisfiedCount;
    var longer := path + [b];
    assert longer[|path|] == b;
    forall k | 0 <= k < |path| ensures longer[k] == path[k] {
    }
  }

  lemma RecordAtMost(clauses: seq<Clause>, path: seq<seq<bool>>, before: int, best: int, k: nat)
    requires IsRecord(clauses, path, before, best) && k < |path|
    ensures best <= UnsatisfiedCount(path[k], clauses, |clauses|)
  {
  }

  /** The record drops to zero exactly on a walk that ends with nothing unsatisfied. */
  lemma RecordDropsToZero(clauses: seq<Clause>, path: seq<seq<bool>>, before: int, best: int)
    requires IsWalk(clauses, path) && IsRecord(clauses, path, before, best) && before != 0
    ensures best == 0 <==> UnsatisfiedCount(path[|path| - 1], clauses, |clauses|) == 0
  {
    if best == 0 {
      var k :| 0 <= k < |path| && best == UnsatisfiedCount(path[k], clauses, |clauses|);
      assert k == |path| - 1;
    }
  }

  /** A listed clause has no true literal. */
  lemma ListedIsUnsatisfied(assignment: seq<bool>, clauses: seq<Clause>, t: Tables, i: nat)
    requires Agree(AllTrueLits(assignment, clauses), t) && i in t.unsatisfied
    ensures i < |clauses| && NoneTrue(assignment, clauses[i])
  {
    var k :| 0 <= k < |t.unsatisfied| && t.unsatisfied[k] == i;
    assert AllTrueLits(assignment, clauses)[i] == {};
    forall l | l in clauses[i] ensures !TrueUnder(assignment, l) {
      assert l !in TrueLits(assignment, clauses[i]);
    }
  }
}
