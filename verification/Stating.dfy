/** Stating a formula: clauses are normalized on entry, and a run starts from empty tables. */
module Stating {
  import opened Logic
  import opened SearchState
  import opened Watching
  import opened Implication
  import opened Analysis
  import opened ProofChain
  import opened Answers
  import opened SearchLoop

  ghost predicate Tautology(c: Clause) {
    exists l :: l in c && Neg(l) in c
  }

  /** The same literals, each once, none together with its negation. */
  ghost predicate Normal(c: Clause, lits: Clause) {
    && (forall l :: l in c <==> l in lits)
    && (forall i, j :: 0 <= i < j < |c| ==> c[i] != c[j] && c[i] != Neg(c[j]))
  }

  /** The literals with the current stamp are the first `k` ones. */
  ghost predicate LiteralsStamped(stamps: seq<nat>, stamp: nat, lits: Clause, k: nat)
    requires k <= |lits|
  {
    && (forall l :: 0 <= l < |stamps| ==> (stamps[l] == stamp <==> l in lits[..k]))
    && (forall l :: l in lits[..k] ==> l < |stamps|)
  }

  /** A clause in which no literal is complemented loses only repetitions. */
  lemma NormalMeansTheSame(a: Assignment, c: Clause, lits: Clause)
    requires Normal(c, lits)
    ensures Satisfies(a, c) <==> Satisfies(a, lits)
    ensures !Tautology(lits)
  {
    forall i, j | 0 <= i < |c| && 0 <= j < |c| ensures c[i] != Neg(c[j]) {
      NegNeg(c[i]);
      NegNeg(c[j]);
    }
    forall l | l in c ensures Neg(l) !in c {
      var j :| 0 <= j < |c| && c[j] == l;
    }
  }

  lemma TautologyHolds(a: Assignment, c: Clause)
    requires Tautology(c)
    ensures Satisfies(a, c)
  {
    var l :| l in c && Neg(l) in c;
    HoldsNeg(a, l);
  }

  lemma NormalIsOk(n: nat, c: Clause, lits: Clause)
    requires Normal(c, lits) && forall i :: 0 <= i < |lits| ==> ValidLit(n, lits[i])
    ensures ClauseOk(n, c)
  {
    forall i | 0 <= i < |c| ensures ValidLit(n, c[i]) {
      assert c[i] in lits;
    }
    forall i, j | 0 <= i < j < |c| ensures Var(c[i]) != Var(c[j]) {
      if Var(c[i]) == Var(c[j]) {
        SameVar(c[i], c[j]);
      }
    }
  }

  /** One more literal of a clause being normalized. */
  lemma NormalizeStep(stamps: seq<nat>, stamp: nat, lits: Clause, k: nat, c: Clause)
    requires k < |lits| && LiteralsStamped(stamps, stamp, lits, k) && Normal(c, lits[..k])
    requires lits[k] < |stamps| && Neg(lits[k]) < |stamps|
    ensures stamps[Neg(lits[k])] == stamp ==> Tautology(lits)
    ensures stamps[lits[k]] == stamp ==> LiteralsStamped(stamps, stamp, lits, k + 1) && Normal(c, lits[..k + 1])
    ensures stamps[lits[k]] != stamp && stamps[Neg(lits[k])] != stamp ==>
              LiteralsStamped(stamps[lits[k] := stamp], stamp, lits, k + 1) && Normal(c + [lits[k]], lits[..k + 1])
  {
    assert lits[..k + 1] == lits[..k] + [lits[k]];
    if stamps[Neg(lits[k])] == stamp {
      NegNeg(lits[k]);
      assert Neg(lits[k]) in lits[..k];
    }
    if stamps[lits[k]] != stamp && stamps[Neg(lits[k])] != stamp {
      forall i | 0 <= i < |c| ensures c[i] != lits[k] && c[i] != Neg(lits[k]) {
        assert c[i] in lits[..k];
      }
    }
  }

  /** Room for one more literal and its negation. */
  lemma StampsGrow(stamps: seq<nat>, stamp: nat, lits: Clause, k: nat, more: seq<nat>)
    requires k <= |lits| && LiteralsStamped(stamps, stamp, lits, k) && |more| >= |stamps| && more[..|stamps|] == stamps
    requires stamp > 0 && forall l :: |stamps| <= l < |more| ==> more[l] == 0
    ensures LiteralsStamped(more, stamp, lits, k)
  {
    forall l | 0 <= l < |more| ensures more[l] == stamp <==> l in lits[..k] {
      if l < |stamps| {
        assert more[l] == more[..|stamps|][l];
      }
    }
  }

  /** Adding a normalized clause states one clause more. */
  lemma StateOneMore(f: Formula, db: Database, r: Ref, c: Clause, lits: Clause)
    requires Represents(f, db) && r !in db && Normal(c, lits)
    ensures Represents(f + iset{lits}, db[r := Entry(c, false)])
  {
    var g, later := f + iset{lits}, db[r := Entry(c, false)];
    forall a: Assignment ensures SatisfiesAll(a, g) <==> SatisfiesAll(a, f) && Satisfies(a, lits) {
      MoreClauses(a, f, lits);
    }
    forall a: Assignment ensures Satisfies(a, c) <==> Satisfies(a, lits) {
      NormalMeansTheSame(a, c, lits);
    }
    forall a: Assignment | SatisfiesPermanent(a, later) ensures SatisfiesAll(a, g) {
      assert Satisfies(a, later[r].lits);
      forall q | q in db && !db[q].redundant ensures Satisfies(a, db[q].lits) {
        assert later[q] == db[q];
      }
    }
  }

  lemma MoreClauses(a: Assignment, f: Formula, lits: Clause)
    ensures SatisfiesAll(a, f + iset{lits}) <==> SatisfiesAll(a, f) && Satisfies(a, lits)
  {
  }

  /** What the formula and the normalized clause say, the formula says with the clause as it was given. */
  lemma NormalStates(f: Formula, c: Clause, lits: Clause)
    requires Normal(c, lits)
    ensures forall a: Assignment :: SatisfiesAll(a, f) && Satisfies(a, c) ==> SatisfiesAll(a, f + iset{lits})
  {
    forall a: Assignment | SatisfiesAll(a, f) && Satisfies(a, c) ensures SatisfiesAll(a, f + iset{lits}) {
      NormalMeansTheSame(a, c, lits);
    }
  }

  lemma TautologyStates(f: Formula, lits: Clause)
    requires Tautology(lits)
    ensures forall a: Assignment :: SatisfiesAll(a, f) ==> SatisfiesAll(a, f + iset{lits})
  {
    forall a: Assignment | SatisfiesAll(a, f) ensures SatisfiesAll(a, f + iset{lits}) {
      TautologyHolds(a, lits);
    }
  }

  /** A tautology may be left out. */
  lemma StateTautology(f: Formula, db: Database, lits: Clause)
    requires Represents(f, db) && Tautology(lits)
    ensures Represents(f + iset{lits}, db)
  {
    forall a: Assignment ensures SatisfiesAll(a, f + iset{lits}) <==> SatisfiesAll(a, f) {
      MoreClauses(a, f, lits);
      TautologyHolds(a, lits);
    }
  }

  // ---------------------------------------------------------------------------------------------
  // The start of a run
  // ---------------------------------------------------------------------------------------------

  ghost predicate Names(lits: Clause, v: nat) {
    exists i :: 0 <= i < |lits| && Var(lits[i]) == v
  }

  /** Phases persist from one run to the next; variables that are new start positive. */
  ghost predicate KeepsPhases(before: seq<int>, after: seq<int>) {
    forall v :: 0 <= v < |after| ==> after[v] == if v < |before| then before[v] else 1
  }

  /** Every clause is over some variables, each at most once. */
  ghost predicate WellFormed(db: Database) {
    exists n: nat :: DatabaseOk(n, db)
  }

  predicate VarsUpTo(lits: Clause, n: nat) {
    forall i :: 0 <= i < |lits| ==> Var(lits[i]) <= n
  }

  lemma VarsUpToMore(lits: Clause, n: nat, m: nat)
    requires VarsUpTo(lits, n) && n <= m
    ensures VarsUpTo(lits, m)
  {
  }

  lemma BoundedIsOk(db: Database, n: nat)
    requires WellFormed(db) && forall r :: r in db ==> VarsUpTo(db[r].lits, n)
    ensures DatabaseOk(n, db)
  {
    var m: nat :| DatabaseOk(m, db);
    forall r | r in db ensures ClauseOk(n, db[r].lits) {
      assert ClauseOk(m, db[r].lits);
    }
  }

  lemma StillWellFormed(m: nat, db: Database, r: Ref, c: Clause, redundant: bool)
    requires WellFormed(db) && ClauseOk(m, c)
    ensures WellFormed(db[r := Entry(c, redundant)])
  {
    var n: nat :| DatabaseOk(n, db);
    var k := if n > m then n else m;
    var later := db[r := Entry(c, redundant)];
    forall q | q in later ensures ClauseOk(k, later[q].lits) {
      assert q != r ==> ClauseOk(n, db[q].lits);
    }
    assert DatabaseOk(k, later);
  }

  lemma OkIsWellFormed(n: nat, db: Database)
    requires DatabaseOk(n, db)
    ensures WellFormed(db)
  {
  }

  /** Nothing assigned, nothing marked, one level. */
  ghost predicate Blank(s: State, x: Scratch) {
    BlankSearch(s) && x == Scratch(seq(s.n + 1, _ => NO_FLAGS), [], [], [], [NO_SEEN])
  }

  ghost predicate BlankSearch(s: State) {
    && s.values == seq(2 * s.n + 2, _ => 0) && |s.levels| == |s.reasons| == |s.positions| == s.n + 1
    && |s.watches| == 2 * s.n + 2
    && s.trail == [] && s.control == [Frame(0, NO_LITERAL)] && s.propagated == 0 && s.level == 0
  }

  lemma BlankSizes(s: State, x: Scratch)
    requires Blank(s, x)
    ensures |s.watches| == 2 * s.n + 2 && s.level == 0
  {
  }

  lemma BlankLists(s: State, x: Scratch, t: State)
    requires Blank(s, x) && t == s.(watches := t.watches) && |t.watches| == |s.watches|
    ensures Blank(t, x)
  {
  }

  lemma BlankIsReady(f: Formula, s: State, x: Scratch, units: seq<Ref>)
    requires Blank(s, x) && DatabaseOk(s.n, s.db) && Represents(f, s.db)
    requires WatchesOk(s.db, s.watches) && UnitsListed(s.db, units)
    ensures AtRoot(f, s, x, units)
  {
    assert forall l: Lit :: Value(s, l) == 0;
    assert forall k: nat :: Begin(s, k) == 0;
  }

  lemma NothingStamped(stamps: seq<nat>, stamp: nat, lits: Clause)
    requires forall l :: 0 <= l < |stamps| ==> stamps[l] != stamp
    ensures LiteralsStamped(stamps, stamp, lits, 0) && Normal([], lits[..0])
  {
  }

  lemma StampOne(stamps: seq<nat>, stamp: nat, slot: nat)
    requires StampsBelow(stamps, stamp) && slot < |stamps|
    ensures StampsBelow(stamps[slot := stamp], stamp)
  {
  }

  lemma NormalIsNoTautology(c: Clause, lits: Clause)
    requires Normal(c, lits)
    ensures !Tautology(lits)
  {
    NormalMeansTheSame(iset{}, c, lits);
  }

  lemma RefsBelowAgain(db: Database, units: seq<Ref>, next: Ref)
    requires RefsBelow(db, units, next)
    ensures RefsBelow(db, [], next)
  {
  }
}
