/** What a proof consumer is told over a whole run, and what that log proves. */
module ProofLog {
  import opened Logic
  import opened SearchState
  import opened Implication
  import opened Causes
  import opened ProofChain

  /** Clauses taken over as they are, a clause of the problem, a clause derived by unit propagation along hints, or a
      clause deleted. */
  datatype ProofEvent =
    | Adoption(live: Database)
    | Statement(ref: Ref, lits: Clause)
    | Derivation(ref: Ref, lits: Clause, hints: seq<Ref>)
    | Deletion(ref: Ref)

  /** What has been told, and the clauses that have an identity in it. Beside that: the clauses reported deleted that
      stayed in the store, and the derivations for which a hint had lost its identity. */
  datatype Transcript = Transcript(log: seq<ProofEvent>, ids: set<Ref>, stayed: set<Ref>, lossy: set<nat>)

  const NOTHING_TOLD := Transcript([], {}, {}, {})

  function Adopted(db: Database): Transcript {
    Transcript([Adoption(db)], db.Keys, {}, {})
  }

  function TellStatement(p: Transcript, r: Ref, c: Clause): Transcript {
    p.(log := p.log + [Statement(r, c)], ids := p.ids + {r})
  }

  /** The clauses of a chain that have an identity. */
  function Known(chain: seq<Ref>, ids: set<Ref>): seq<Ref> {
    if chain == [] then []
    else Known(chain[..|chain| - 1], ids) + if chain[|chain| - 1] in ids then [chain[|chain| - 1]] else []
  }

  /** A derived clause is told with the part of its chain that is known. */
  function TellDerivation(p: Transcript, r: Ref, c: Clause, chain: seq<Ref>): Transcript {
    p.(log := p.log + [Derivation(r, c, Known(chain, p.ids))], ids := p.ids + {r},
       lossy := if forall h :: h in chain ==> h in p.ids then p.lossy else p.lossy + {|p.log|})
  }

  /** A clause is reported deleted; it may be that it stays in the store. */
  function TellDeletion(p: Transcript, r: Ref, stays: bool): Transcript {
    p.(log := p.log + [Deletion(r)], ids := p.ids - {r}, stayed := if stays then p.stayed + {r} else p.stayed)
  }

  function TellDeletions(p: Transcript, refs: seq<Ref>, store: set<Ref>): Transcript {
    if refs == [] then p
    else TellDeletion(TellDeletions(p, refs[..|refs| - 1], store), refs[|refs| - 1], refs[|refs| - 1] in store)
  }

  /** The clauses the log has introduced and not deleted, under their references. */
  function Live(log: seq<ProofEvent>): Database {
    if log == [] then map[] else
      var before := Live(log[..|log| - 1]);
      match log[|log| - 1]
      case Adoption(live) => live
      case Statement(ref, lits) => before[ref := Entry(lits, false)]
      case Derivation(ref, lits, _) => before[ref := Entry(lits, true)]
      case Deletion(ref) => before - {ref}
  }

  /** Clauses are only taken over as the log begins. A derived clause takes a new reference, and its hints propagate to
      a conflict over the clauses live before it. */
  ghost predicate EventOk(log: seq<ProofEvent>, k: nat)
    requires k < |log|
  {
    match log[k]
    case Adoption(_) => k == 0
    case Statement(ref, _) => ref !in Live(log[..k])
    case Derivation(ref, lits, hints) => ref !in Live(log[..k]) && LratStep(Live(log[..k]), lits, hints)
    case Deletion(_) => true
  }

  /** Exactly the steps in `lossy` do not check. */
  ghost predicate CheckedBut(log: seq<ProofEvent>, lossy: set<nat>) {
    (forall k :: k in lossy ==> k < |log|) && forall k :: 0 <= k < |log| ==> (EventOk(log, k) <==> k !in lossy)
  }

  ghost predicate Checked(log: seq<ProofEvent>) {
    forall k :: 0 <= k < |log| ==> EventOk(log, k)
  }

  /** The assignment satisfies every clause the log takes over or states. */
  ghost predicate SatisfiesGiven(a: Assignment, log: seq<ProofEvent>) {
    forall k :: 0 <= k < |log| ==>
      match log[k]
      case Adoption(live) => forall r :: r in live ==> Satisfies(a, live[r].lits)
      case Statement(_, lits) => Satisfies(a, lits)
      case Derivation(_, _, _) => true
      case Deletion(_) => true
  }

  /** A derived clause follows from what the log was given before it. */
  ghost predicate FollowsAt(log: seq<ProofEvent>, k: nat)
    requires k < |log|
  {
    log[k].Derivation? ==> forall a: Assignment :: SatisfiesGiven(a, log[..k]) ==> Satisfies(a, log[k].lits)
  }

  /** What the log was given means the formula, and every clause derived follows from what was given before it. */
  ghost predicate Grounded(f: Formula, log: seq<ProofEvent>) {
    && (forall a: Assignment :: SatisfiesGiven(a, log) ==> SatisfiesAll(a, f))
    && (forall k :: 0 <= k < |log| ==> FollowsAt(log, k))
  }

  /** A clause held is live in the log, at most in another order of its literals, or was reported deleted and stayed. */
  ghost predicate Introduced(p: Transcript, db: Database) {
    forall r :: r in db ==>
      if r in p.ids then r in Live(p.log) && multiset(Live(p.log)[r].lits) == multiset(db[r].lits) else r in p.stayed
  }

  /** The log and the store are in step. Unless a clause was reported deleted and stayed, every step of the log
      checks. */
  ghost predicate TranscriptOk(f: Formula, p: Transcript, db: Database, next: Ref) {
    && Live(p.log).Keys == p.ids && Introduced(p, db) && (forall r :: r in p.ids ==> r < next)
    && Grounded(f, p.log) && CheckedBut(p.log, p.lossy) && p.log != []
    && (p.lossy != {} ==> p.stayed != {})
  }

  // ---------------------------------------------------------------------------------------------
  // Telling one more thing
  // ---------------------------------------------------------------------------------------------

  lemma LiveMore(log: seq<ProofEvent>, e: ProofEvent)
    ensures (log + [e])[..|log|] == log && (log + [e])[|log|] == e
  {
  }

  lemma CheckedMore(log: seq<ProofEvent>, lossy: set<nat>, e: ProofEvent, more: set<nat>)
    requires CheckedBut(log, lossy) && more == if EventOk(log + [e], |log|) then lossy else lossy + {|log|}
    ensures CheckedBut(log + [e], more)
  {
    var longer := log + [e];
    forall k | 0 <= k < |longer| ensures EventOk(longer, k) <==> k !in more {
      if k < |log| {
        assert longer[..k] == log[..k] && longer[k] == log[k];
        assert EventOk(longer, k) <==> EventOk(log, k);
      }
    }
  }

  lemma GivenMore(a: Assignment, log: seq<ProofEvent>, e: ProofEvent)
    ensures SatisfiesGiven(a, log + [e]) <==> SatisfiesGiven(a, log) && SatisfiesGiven(a, [e])
  {
    var longer := log + [e];
    if SatisfiesGiven(a, longer) {
      forall k | 0 <= k < |log| ensures log[k] == longer[k] {
      }
      assert longer[|log|] == e;
    }
  }

  /** Telling one more thing keeps a log grounded, when it is given no less than the formula and derives what
      follows. */
  lemma GroundedMore(f: Formula, g: Formula, log: seq<ProofEvent>, e: ProofEvent)
    requires Grounded(f, log)
    requires forall a: Assignment :: SatisfiesAll(a, f) && SatisfiesGiven(a, [e]) ==> SatisfiesAll(a, g)
    requires e.Derivation? ==> Entails(f, e.lits)
    ensures Grounded(g, log + [e])
  {
    var longer := log + [e];
    LiveMore(log, e);
    forall a: Assignment | SatisfiesGiven(a, longer) ensures SatisfiesAll(a, g) {
      GivenMore(a, log, e);
    }
    forall k | 0 <= k < |longer| ensures FollowsAt(longer, k) {
      if k < |log| {
        assert FollowsAt(log, k) && longer[..k] == log[..k];
      }
    }
  }

  /** A step over some clauses is one over any others that hold its hints in some order of literals. */
  lemma StepIntroduced(live: Database, db: Database, c: Clause, hints: seq<Ref>)
    requires LratStep(db, c, hints)
    requires forall h :: h in hints && h in db ==> h in live && multiset(live[h].lits) == multiset(db[h].lits)
    ensures LratStep(live, c, hints)
  {
    forall r | r in hints && r in db ensures forall m :: m in live[r].lits <==> m in db[r].lits {
      forall m ensures m in live[r].lits <==> m in db[r].lits {
        assert m in multiset(live[r].lits) <==> m in multiset(db[r].lits);
      }
    }
    var units: seq<Lit> :| LratUnits(db, c, hints, units);
    forall i | 0 <= i < |units| ensures UnitHint(live, Negations(c), hints, units, i) {
      assert UnitHint(db, Negations(c), hints, units, i) && hints[i] in hints;
    }
    assert hints[|units|] in hints;
    assert LratUnits(live, c, hints, units);
  }

  lemma {:induction false} AllKnown(chain: seq<Ref>, ids: set<Ref>)
    ensures forall h :: h in Known(chain, ids) <==> h in chain && h in ids
    ensures (forall h :: h in chain ==> h in ids) ==> Known(chain, ids) == chain
    ensures |Known(chain, ids)| <= |chain| && (|Known(chain, ids)| == |chain| <==> forall h :: h in chain ==> h in ids)
  {
    if chain != [] {
      var before := chain[..|chain| - 1];
      AllKnown(before, ids);
      assert chain == before + [chain[|chain| - 1]];
    }
  }

  lemma KnownMore(chain: seq<Ref>, r: Ref, ids: set<Ref>)
    ensures Known(chain + [r], ids) == Known(chain, ids) + if r in ids then [r] else []
  {
    assert (chain + [r])[..|chain|] == chain;
  }

  lemma KnownNone(ids: set<Ref>)
    ensures Known([], ids) == []
  {
  }

  lemma KnownOne(r: Ref, ids: set<Ref>)
    ensures Known([r], ids) == if r in ids then [r] else []
  {
    KnownMore([], r, ids);
    assert [] + [r] == [r];
  }

  lemma {:induction false} KnownJoin(front: seq<Ref>, back: seq<Ref>, ids: set<Ref>)
    ensures Known(front + back, ids) == Known(front, ids) + Known(back, ids)
  {
    if back == [] {
      assert front + back == front;
    } else {
      var n := |back| - 1;
      KnownJoin(front, back[..n], ids);
      KnownMore(front + back[..n], back[n], ids);
      assert front + back == front + back[..n] + [back[n]];
    }
  }

  // ---------------------------------------------------------------------------------------------
  // Losing a hint
  // ---------------------------------------------------------------------------------------------

  /** `v` is the variable of one of the first `i` hints, one that is known. */
  ghost predicate Given(hints: seq<Ref>, vars: seq<nat>, ids: set<Ref>, i: nat, v: nat) {
    exists j :: 0 <= j < i && j < |vars| && j < |hints| && hints[j] in ids && vars[j] == v
  }

  /** The part of the chain that is known propagates to a conflict over the clauses live. */
  ghost predicate Survives(live: Database, c: Clause, hints: seq<Ref>, ids: set<Ref>, units: seq<Lit>) {
    LratUnits(live, c, Known(hints, ids), units)
  }

  ghost predicate SameLits(db: Database, live: Database, hints: seq<Ref>, ids: set<Ref>) {
    forall h :: h in hints && h in ids && h in db ==>
      h in live && forall m :: m in live[h].lits <==> m in db[h].lits
  }

  /** The known hints among the first `i` come first among all that are known. */
  lemma {:induction false} KnownBefore(hints: seq<Ref>, ids: set<Ref>, i: nat)
    requires i <= |hints|
    ensures |Known(hints[..i], ids)| <= |Known(hints, ids)|
    ensures Known(hints[..i], ids) == Known(hints, ids)[..|Known(hints[..i], ids)|]
  {
    assert hints == hints[..i] + hints[i..];
    KnownJoin(hints[..i], hints[i..], ids);
  }

  lemma KnownAt(hints: seq<Ref>, ids: set<Ref>, i: nat)
    requires i < |hints|
    ensures hints[i] in ids ==>
              var k := |Known(hints[..i], ids)|;
              k < |Known(hints, ids)| && Known(hints, ids)[k] == hints[i] && |Known(hints[..i + 1], ids)| == k + 1
    ensures hints[i] !in ids ==> Known(hints[..i + 1], ids) == Known(hints[..i], ids)
  {
    assert hints[..i + 1] == hints[..i] + [hints[i]];
    KnownMore(hints[..i], hints[i], ids);
    KnownBefore(hints, ids, i + 1);
  }

  /** The variables of the units found so far are those of the known hints so far. */
  ghost predicate UnitsGiven(hints: seq<Ref>, vars: seq<nat>, ids: set<Ref>, units: seq<Lit>, i: nat)
    requires i <= |hints|
  {
    forall q :: 0 <= q < |units| && q < |Known(hints[..i], ids)| ==> Given(hints, vars, ids, i, Var(units[q]))
  }

  lemma DerivedIsGiven(c: Clause, hints: seq<Ref>, vars: seq<nat>, ids: set<Ref>, units: seq<Lit>, i: nat, k: nat,
                       m: Lit)
    requires i <= |hints| && UnitsGiven(hints, vars, ids, units, i) && k <= |Known(hints[..i], ids)|
    requires Derived(Negations(c), units, k, Neg(m))
    ensures Speaks(c, Var(m)) || Given(hints, vars, ids, i, Var(m))
  {
    if Neg(m) in Negations(c) {
      var l :| l in c && Neg(m) == Neg(l);
      assert Var(l) == Var(m);
    } else {
      var q :| 0 <= q < k && q < |units| && units[q] == Neg(m);
      assert Given(hints, vars, ids, i, Var(units[q]));
    }
  }

  lemma VarsDiffer(db: Database, c: Clause, hints: seq<Ref>, vars: seq<nat>)
    requires AllCount(db, c, hints, vars)
    ensures forall j, k :: 0 <= j < k < |vars| ==> vars[j] != vars[k]
  {
    forall j, k | 0 <= j < k < |vars| ensures vars[j] != vars[k] {
      assert CountsAt(db, c, hints, vars, k);
    }
  }

  /** The variable of a hint is not one of an earlier hint. */
  lemma OwnIsNew(db: Database, c: Clause, hints: seq<Ref>, vars: seq<nat>, ids: set<Ref>, i: nat)
    requires AllCount(db, c, hints, vars) && i < |vars|
    ensures !Speaks(c, vars[i]) && !Given(hints, vars, ids, i, vars[i]) && Occurs(db, hints[i], vars[i])
    ensures hints[i] !in ids ==> forall k :: i <= k <= |vars| ==> !Given(hints, vars, ids, k, vars[i])
  {
    VarsDiffer(db, c, hints, vars);
    assert CountsAt(db, c, hints, vars, i);
  }

  /** A known hint gives its own variable, and everything else in it was given before. */
  lemma KnownGives(db: Database, live: Database, c: Clause, hints: seq<Ref>, vars: seq<nat>, ids: set<Ref>,
                   units: seq<Lit>, i: nat)
    requires AllCount(db, c, hints, vars) && Survives(live, c, hints, ids, units) && SameLits(db, live, hints, ids)
    requires i < |vars| && hints[i] in ids && UnitsGiven(hints, vars, ids, units, i)
    requires |Known(hints[..i], ids)| < |units|
    ensures Var(units[|Known(hints[..i], ids)|]) == vars[i] && hints[i] in db
    ensures forall m :: m in db[hints[i]].lits ==>
              Var(m) == vars[i] || Speaks(c, Var(m)) || Given(hints, vars, ids, i, Var(m))
  {
    var k := |Known(hints[..i], ids)|;
    KnownAt(hints, ids, i);
    OwnIsNew(db, c, hints, vars, ids, i);
    assert UnitHint(live, Negations(c), Known(hints, ids), units, k);
    forall m | m in db[hints[i]].lits && m != units[k]
      ensures Speaks(c, Var(m)) || Given(hints, vars, ids, i, Var(m))
    {
      assert m in live[hints[i]].lits;
      DerivedIsGiven(c, hints, vars, ids, units, i, k, m);
    }
    var own :| own in db[hints[i]].lits && Var(own) == vars[i];
    assert own == units[k];
  }

  lemma {:induction false} UnitsAreGiven(db: Database, live: Database, c: Clause, hints: seq<Ref>, vars: seq<nat>,
                                         ids: set<Ref>, units: seq<Lit>, i: nat)
    requires AllCount(db, c, hints, vars) && Survives(live, c, hints, ids, units) && SameLits(db, live, hints, ids)
    requires i <= |vars|
    ensures UnitsGiven(hints, vars, ids, units, i)
  {
    if i > 0 {
      UnitsAreGiven(db, live, c, hints, vars, ids, units, i - 1);
      KnownAt(hints, ids, i - 1);
      var k := |Known(hints[..i - 1], ids)|;
      if hints[i - 1] in ids && k < |units| {
        KnownGives(db, live, c, hints, vars, ids, units, i - 1);
      }
      forall q | 0 <= q < |units| && q < |Known(hints[..i], ids)| ensures Given(hints, vars, ids, i, Var(units[q])) {
        if q < k {
          assert Given(hints, vars, ids, i - 1, Var(units[q]));
        } else {
          assert hints[i - 1] in ids && vars[i - 1] == Var(units[q]);
        }
      }
    }
  }

  /** The known hint met last is the conflict, and everything in it was given. */
  lemma LastIsKnown(db: Database, live: Database, c: Clause, hints: seq<Ref>, vars: seq<nat>, ids: set<Ref>,
                    units: seq<Lit>)
    requires AllCount(db, c, hints, vars) && Survives(live, c, hints, ids, units) && SameLits(db, live, hints, ids)
    ensures hints[|vars|] in ids && |Known(hints[..|vars|], ids)| == |units|
    ensures forall m :: m in db[hints[|vars|]].lits ==> Speaks(c, Var(m)) || Given(hints, vars, ids, |vars|, Var(m))
  {
    assert hints[..|hints|] == hints;
    var e := LastKnown(hints, ids, |hints|);
    var k := |Known(hints[..e], ids)|;
    KnownAt(hints, ids, e);
    UnitsAreGiven(db, live, c, hints, vars, ids, units, e);
    OwnOccurs(db, c, hints, vars, e);
    forall m | m in db[hints[e]].lits ensures Speaks(c, Var(m)) || Given(hints, vars, ids, e, Var(m)) {
      assert m in live[hints[e]].lits;
      DerivedIsGiven(c, hints, vars, ids, units, e, k, m);
    }
    if e < |vars| {
      OwnIsNew(db, c, hints, vars, ids, e);
    }
  }

  lemma OwnOccurs(db: Database, c: Clause, hints: seq<Ref>, vars: seq<nat>, i: nat)
    requires AllCount(db, c, hints, vars) && i < |hints|
    ensures hints[i] in db
  {
    assert i < |vars| ==> CountsAt(db, c, hints, vars, i);
  }

  /** The last known hint among the first `i`. */
  lemma {:induction false} LastKnown(hints: seq<Ref>, ids: set<Ref>, i: nat) returns (e: nat)
    requires i <= |hints| && Known(hints[..i], ids) != []
    ensures e < i && hints[e] in ids && |Known(hints[..e], ids)| + 1 == |Known(hints[..i], ids)|
  {
    KnownAt(hints, ids, i - 1);
    if hints[i - 1] in ids {
      e := i - 1;
    } else {
      e := LastKnown(hints, ids, i - 1);
    }
  }

  /** When every hint counts, a chain that has lost one does not check. */
  lemma LostHintShows(db: Database, live: Database, c: Clause, hints: seq<Ref>, ids: set<Ref>)
    requires EveryHintCounts(db, c, hints) && SameLits(db, live, hints, ids)
    requires LratStep(live, c, Known(hints, ids))
    ensures forall h :: h in hints ==> h in ids
  {
    var vars: seq<nat> :| AllCount(db, c, hints, vars);
    var units: seq<Lit> :| LratUnits(live, c, Known(hints, ids), units);
    LastIsKnown(db, live, c, hints, vars, ids, units);
    AllAfterKnown(db, live, c, hints, vars, ids, units, 0);
  }

  lemma {:induction false} AllAfterKnown(db: Database, live: Database, c: Clause, hints: seq<Ref>, vars: seq<nat>,
                                         ids: set<Ref>, units: seq<Lit>, i: nat)
    requires AllCount(db, c, hints, vars) && Survives(live, c, hints, ids, units) && SameLits(db, live, hints, ids)
    requires i <= |vars|
    ensures forall j :: i <= j < |hints| ==> hints[j] in ids
    decreases |vars| - i
  {
    LastIsKnown(db, live, c, hints, vars, ids, units);
    if i < |vars| {
      AllAfterKnown(db, live, c, hints, vars, ids, units, i + 1);
      assert CountsAt(db, c, hints, vars, i);
      var j :| i < j < |hints| && Occurs(db, hints[j], vars[i]);
      var m :| m in db[hints[j]].lits && Var(m) == vars[i];
      OwnIsNew(db, c, hints, vars, ids, i);
      if j < |vars| {
        UnitsAreGiven(db, live, c, hints, vars, ids, units, j);
        KnownShort(hints, ids, j, |vars|);
        KnownGives(db, live, c, hints, vars, ids, units, j);
        VarsDiffer(db, c, hints, vars);
      }
    }
  }

  lemma KnownShort(hints: seq<Ref>, ids: set<Ref>, j: nat, n: nat)
    requires j < n <= |hints| && hints[j] in ids
    ensures |Known(hints[..j], ids)| < |Known(hints[..n], ids)|
  {
    assert hints[..n][..j] == hints[..j] && hints[..n][..j + 1] == hints[..j + 1];
    KnownAt(hints[..n], ids, j);
  }

  // ---------------------------------------------------------------------------------------------
  // The log of a run
  // ---------------------------------------------------------------------------------------------

  lemma AdoptedOk(f: Formula, db: Database, next: Ref)
    requires Represents(f, db) && forall r :: r in db ==> r < next
    ensures TranscriptOk(f, Adopted(db), db, next)
  {
    var log := [Adoption(db)];
    assert log[..0] == [];
    forall a: Assignment | SatisfiesGiven(a, log) ensures SatisfiesAll(a, f) {
      assert log[0] == Adoption(db);
      assert SatisfiesPermanent(a, db);
    }
    assert FollowsAt(log, 0) && EventOk(log, 0);
  }

  /** A clause of the problem is told as it is stored. */
  lemma StatementOk(f: Formula, g: Formula, p: Transcript, db: Database, next: Ref, c: Clause)
    requires TranscriptOk(f, p, db, next)
    requires forall a: Assignment :: SatisfiesAll(a, f) && Satisfies(a, c) ==> SatisfiesAll(a, g)
    ensures TranscriptOk(g, TellStatement(p, next, c), db[next := Entry(c, false)], next + 1)
  {
    var e := Statement(next, c);
    LiveMore(p.log, e);
    CheckedMore(p.log, p.lossy, e, p.lossy);
    forall a: Assignment | SatisfiesAll(a, f) && SatisfiesGiven(a, [e]) ensures SatisfiesAll(a, g) {
      assert [e][0] == e;
    }
    GroundedMore(f, g, p.log, e);
  }

  /** Nothing need be told of a clause that says nothing. */
  lemma StatedAlready(f: Formula, g: Formula, p: Transcript, db: Database, next: Ref)
    requires TranscriptOk(f, p, db, next) && forall a: Assignment :: SatisfiesAll(a, f) ==> SatisfiesAll(a, g)
    ensures TranscriptOk(g, p, db, next)
  {
  }

  lemma DerivationOk(f: Formula, p: Transcript, db: Database, next: Ref, c: Clause, chain: seq<Ref>)
    requires TranscriptOk(f, p, db, next) && TightStep(db, c, chain) && Entails(f, c)
    ensures TranscriptOk(f, TellDerivation(p, next, c, chain), db[next := Entry(c, true)], next + 1)
    ensures LratStep(Live(p.log), c, Known(chain, p.ids)) <==> forall h :: h in chain ==> h in p.ids
  {
    var q := TellDerivation(p, next, c, chain);
    var e := Derivation(next, c, Known(chain, p.ids));
    LiveMore(p.log, e);
    AllKnown(chain, p.ids);
    if forall h :: h in chain ==> h in p.ids {
      StepIntroduced(Live(p.log), db, c, chain);
    } else {
      LostIsHeld(db, c, chain, p);
      if LratStep(Live(p.log), c, Known(chain, p.ids)) {
        IntroducedLits(p, db, chain);
        LostHintShows(db, Live(p.log), c, chain, p.ids);
      }
    }
    CheckedMore(p.log, p.lossy, e, q.lossy);
    GroundedMore(f, f, p.log, e);
  }

  lemma IntroducedLits(p: Transcript, db: Database, chain: seq<Ref>)
    requires Introduced(p, db)
    ensures SameLits(db, Live(p.log), chain, p.ids)
  {
    forall h | h in chain && h in p.ids && h in db ensures forall m :: m in Live(p.log)[h].lits <==> m in db[h].lits {
      forall m ensures m in Live(p.log)[h].lits <==> m in db[h].lits {
        assert m in multiset(Live(p.log)[h].lits) <==> m in multiset(db[h].lits);
      }
    }
  }

  /** A hint without an identity is a clause that was reported deleted and stayed. */
  lemma LostIsHeld(db: Database, c: Clause, chain: seq<Ref>, p: Transcript)
    requires LratStep(db, c, chain) && Introduced(p, db) && exists h :: h in chain && h !in p.ids
    ensures p.stayed != {}
  {
    var h :| h in chain && h !in p.ids;
    var i :| 0 <= i < |chain| && chain[i] == h;
    var units: seq<Lit> :| LratUnits(db, c, chain, units);
    if i < |units| {
      assert UnitHint(db, Negations(c), chain, units, i);
    }
    assert h in p.stayed;
  }

  /** A clause reported deleted may have left the store, or stay. */
  lemma DeletionOk(f: Formula, p: Transcript, db: Database, next: Ref, r: Ref)
    requires TranscriptOk(f, p, db, next)
    ensures TranscriptOk(f, TellDeletion(p, r, r in db), db, next)
  {
    var e := Deletion(r);
    LiveMore(p.log, e);
    CheckedMore(p.log, p.lossy, e, p.lossy);
    GroundedMore(f, f, p.log, e);
  }

  lemma {:induction false} DeletionsOk(f: Formula, p: Transcript, db: Database, next: Ref, refs: seq<Ref>)
    requires TranscriptOk(f, p, db, next)
    ensures TranscriptOk(f, TellDeletions(p, refs, db.Keys), db, next)
  {
    if refs != [] {
      DeletionsOk(f, p, db, next, refs[..|refs| - 1]);
      DeletionOk(f, TellDeletions(p, refs[..|refs| - 1], db.Keys), db, next, refs[|refs| - 1]);
    }
  }

  lemma DeletionsMore(p: Transcript, refs: seq<Ref>, r: Ref, store: set<Ref>)
    ensures TellDeletions(p, refs + [r], store) == TellDeletion(TellDeletions(p, refs, store), r, r in store)
  {
    assert (refs + [r])[..|refs|] == refs;
  }

  /** What a list of deletions leaves. */
  lemma {:induction false} DeletionsAre(p: Transcript, refs: seq<Ref>, store: set<Ref>)
    ensures var q := TellDeletions(p, refs, store);
            && (forall r :: r in q.ids <==> r in p.ids && r !in refs) && q.lossy == p.lossy
            && (forall r :: r in q.stayed <==> r in p.stayed || (r in refs && r in store))
  {
    if refs != [] {
      DeletionsAre(p, refs[..|refs| - 1], store);
      assert refs == refs[..|refs| - 1] + [refs[|refs| - 1]];
    }
  }

  /** Deleting clauses and reordering literals without a word leaves the log in step. */
  lemma FewerOk(f: Formula, p: Transcript, db: Database, later: Database, next: Ref)
    requires TranscriptOk(f, p, db, next)
    requires forall r :: r in later ==> r in db && multiset(later[r].lits) == multiset(db[r].lits)
    ensures TranscriptOk(f, p, later, next)
  {
  }

  // ---------------------------------------------------------------------------------------------
  // What a log proves
  // ---------------------------------------------------------------------------------------------

  /** Replaying a checked log: whatever satisfies the clauses it was given satisfies every clause it has introduced. */
  lemma {:induction false} CheckedLogIsSound(a: Assignment, log: seq<ProofEvent>)
    requires Checked(log) && SatisfiesGiven(a, log)
    ensures forall r :: r in Live(log) ==> Satisfies(a, Live(log)[r].lits)
    ensures forall k :: 0 <= k < |log| && log[k].Derivation? ==> Satisfies(a, log[k].lits)
  {
    hide LratStep, Satisfies;
    if log != [] {
      var n := |log| - 1;
      CheckedBefore(a, log);
      CheckedLogIsSound(a, log[..n]);
      if log[n].Derivation? {
        LratStepSound(Live(log[..n]), log[n].lits, log[n].hints, a);
      }
      forall k | 0 <= k < n && log[k].Derivation? ensures Satisfies(a, log[k].lits) {
        assert log[..n][k] == log[k];
      }
    }
  }

  lemma CheckedBefore(a: Assignment, log: seq<ProofEvent>)
    requires log != [] && Checked(log) && SatisfiesGiven(a, log)
    ensures Checked(log[..|log| - 1]) && SatisfiesGiven(a, log[..|log| - 1]) && EventOk(log, |log| - 1)
  {
    var n := |log| - 1;
    var before := log[..n];
    forall k | 0 <= k < n ensures EventOk(before, k) && before[k] == log[k] {
      assert EventOk(log, k) && before[..k] == log[..k];
    }
  }

  /** The log of a run checks if and only if no derivation has lost a hint. */
  lemma ChecksExactly(f: Formula, p: Transcript, db: Database, next: Ref)
    requires TranscriptOk(f, p, db, next)
    ensures Checked(p.log) <==> p.lossy == {}
    ensures p.lossy != {} ==> p.stayed != {}
  {
    forall k | k in p.lossy ensures !Checked(p.log) {
      assert !EventOk(p.log, k);
    }
  }

  /** Unless a clause was reported deleted and stayed, a contradiction among the clauses held is one among the clauses
      live in the log: unit propagation over them is the refutation a consumer needs. */
  lemma RefutationIsTold(f: Formula, p: Transcript, db: Database, next: Ref)
    requires TranscriptOk(f, p, db, next) && UpRefutes(db) && p.stayed == {}
    ensures Checked(p.log) && UpRefutes(Live(p.log))
  {
    var hints :| LratStep(db, [], hints);
    StepIntroduced(Live(p.log), db, [], hints);
  }
}
