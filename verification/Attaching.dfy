/** Clauses entering and leaving the database, and the watch lists that follow them. */
module Attaching {
  import opened Logic
  import opened SearchState
  import opened Watching
  import opened Implication
  import opened Visiting
  import opened Learning
  import opened Answers

  // ---------------------------------------------------------------------------------------------
  // Watching one more clause
  // ---------------------------------------------------------------------------------------------

  /** The lists once the first two literals of `c` are watched. */
  function Attached(w: WatchLists, c: Clause, r: Ref): WatchLists
    requires |c| >= 2 && c[0] < |w| && c[1] < |w|
  {
    var first := w[c[0] := w[c[0]] + [Watch(c[1], r, |c| == 2)]];
    first[c[1] := first[c[1]] + [Watch(c[0], r, |c| == 2)]]
  }

  /** The lists while the clauses are being attached: those of `done` are watched, no others are. */
  ghost predicate Watched(db: Database, w: WatchLists, done: set<Ref>) {
    && WatchShape(db, w) && WatchUnique(w)
    && (forall l: nat, i: nat :: l < |w| && i < |w[l]| ==> w[l][i].ref in done)
    && (forall r :: r in done ==>
          r in db && (|db[r].lits| >= 2 ==> HasEntry(w, db[r].lits[0], r) && HasEntry(w, db[r].lits[1], r)))
  }

  lemma AllWatched(db: Database, w: WatchLists)
    requires Watched(db, w, db.Keys)
    ensures WatchesOk(db, w)
  {
  }

  /** A clause of at most one literal has no watch. */
  lemma SkipUnit(db: Database, w: WatchLists, done: set<Ref>, r: Ref)
    requires Watched(db, w, done) && r in db && |db[r].lits| <= 1
    ensures Watched(db, w, done + {r})
  {
  }

  lemma AttachedIs(w: WatchLists, c: Clause, r: Ref, l: nat)
    requires |c| >= 2 && c[0] < |w| && c[1] < |w| && c[0] != c[1] && l < |w|
    ensures |Attached(w, c, r)| == |w|
    ensures Attached(w, c, r)[l] == if l == c[0] then w[l] + [Watch(c[1], r, |c| == 2)]
                                    else if l == c[1] then w[l] + [Watch(c[0], r, |c| == 2)] else w[l]
  {
  }

  /** What attaching `c` does to the list of `l`. */
  ghost predicate LongerBy(before: seq<Watch>, after: seq<Watch>, c: Clause, l: nat, r: Ref)
    requires |c| >= 2
  {
    after == if l == c[0] then before + [Watch(c[1], r, |c| == 2)]
             else if l == c[1] then before + [Watch(c[0], r, |c| == 2)] else before
  }

  ghost predicate Longer(w: WatchLists, u: WatchLists, c: Clause, r: Ref) {
    && |c| >= 2 && |u| == |w| && c[0] < |w| && c[1] < |w| && c[0] != c[1]
    && forall l: nat :: l < |w| ==> LongerBy(w[l], u[l], c, l, r)
  }

  lemma AttachOne(n: nat, db: Database, w: WatchLists, done: set<Ref>, r: Ref)
    requires Watched(db, w, done) && r in db && r !in done && |db[r].lits| >= 2
    requires ClauseOk(n, db[r].lits) && |w| == 2 * n + 2
    ensures db[r].lits[0] < |w| && db[r].lits[1] < |w|
    ensures Watched(db, Attached(w, db[r].lits, r), done + {r})
  {
    var c := db[r].lits;
    assert Var(c[0]) != Var(c[1]) && c[0] in c && c[1] in c;
    var u := Attached(w, c, r);
    AttachedIs(w, c, r, c[0]);
    forall l: nat | l < |w| ensures LongerBy(w[l], u[l], c, l, r) {
      AttachedIs(w, c, r, l);
    }
    assert Longer(w, u, c, r);
    hide *;
    LongerWatched(db, w, u, done, r);
  }

  lemma LongerWatched(db: Database, w: WatchLists, u: WatchLists, done: set<Ref>, r: Ref)
    requires Watched(db, w, done) && r in db && r !in done && Longer(w, u, db[r].lits, r)
    ensures Watched(db, u, done + {r})
  {
    hide Longer;
    var all := done + {r};
    forall l: nat, i: nat | l < |u| && i < |u[l]| ensures EntryOk(db, l, u[l][i]) && u[l][i].ref in all {
      LongerEntry(db, w, u, done, r, l, i);
    }
    assert WatchShape(db, u);
    assert WatchUnique(u) by {
      forall l: nat, i: nat, j: nat | l < |u| && i < j < |u[l]| ensures u[l][i].ref != u[l][j].ref {
        LongerUnique(db, w, u, done, r, l, i, j);
      }
    }
    forall q | q in all
      ensures q in db && (|db[q].lits| >= 2 ==> HasEntry(u, db[q].lits[0], q) && HasEntry(u, db[q].lits[1], q))
    {
      LongerComplete(db, w, u, done, r, q);
    }
    hide WatchShape, WatchUnique, HasEntry;
    assert Watched(db, u, all);
  }

  lemma LongerEntry(db: Database, w: WatchLists, u: WatchLists, done: set<Ref>, r: Ref, l: nat, i: nat)
    requires Watched(db, w, done) && r in db && Longer(w, u, db[r].lits, r) && l < |u| && i < |u[l]|
    ensures EntryOk(db, l, u[l][i]) && u[l][i].ref in done + {r}
  {
    assert LongerBy(w[l], u[l], db[r].lits, l, r);
    if i < |w[l]| {
      assert EntryOk(db, l, w[l][i]) && u[l][i] == w[l][i];
    }
  }

  lemma LongerUnique(db: Database, w: WatchLists, u: WatchLists, done: set<Ref>, r: Ref, l: nat, i: nat, j: nat)
    requires Watched(db, w, done) && r in db && r !in done && Longer(w, u, db[r].lits, r) && l < |u| && i < j < |u[l]|
    ensures u[l][i].ref != u[l][j].ref
  {
    assert LongerBy(w[l], u[l], db[r].lits, l, r);
    assert u[l][i] == w[l][i] && w[l][i].ref in done;
  }

  lemma LongerComplete(db: Database, w: WatchLists, u: WatchLists, done: set<Ref>, r: Ref, q: Ref)
    requires Watched(db, w, done) && r in db && Longer(w, u, db[r].lits, r) && q in done + {r}
    ensures q in db && (|db[q].lits| >= 2 ==> HasEntry(u, db[q].lits[0], q) && HasEntry(u, db[q].lits[1], q))
  {
    var c := db[r].lits;
    if q == r {
      assert LongerBy(w[c[0]], u[c[0]], c, c[0], r) && LongerBy(w[c[1]], u[c[1]], c, c[1], r);
      assert u[c[0]][|w[c[0]]|].ref == r && u[c[1]][|w[c[1]]|].ref == r;
    } else if |db[q].lits| >= 2 {
      LongerList(w, u, c, r, db[q].lits[0], q);
      LongerList(w, u, c, r, db[q].lits[1], q);
    }
  }

  lemma LongerList(w: WatchLists, u: WatchLists, c: Clause, r: Ref, l: nat, q: Ref)
    requires HasEntry(w, l, q) && Longer(w, u, c, r)
    ensures HasEntry(u, l, q)
  {
    assert LongerBy(w[l], u[l], c, l, r);
    var i: nat :| i < |w[l]| && w[l][i].ref == q;
    assert u[l][i].ref == q;
  }

  // ---------------------------------------------------------------------------------------------
  // The search state over a changed database
  // ---------------------------------------------------------------------------------------------

  /** The reason clauses of the trail are still there. */
  ghost predicate KeepsReasons(s: State, db: Database) {
    forall i :: 0 <= i < |s.trail| && ReasonOf(s, s.trail[i]).Because? && ReasonOf(s, s.trail[i]).ref in s.db ==>
      ReasonOf(s, s.trail[i]).ref in db
          && db[ReasonOf(s, s.trail[i]).ref].lits == s.db[ReasonOf(s, s.trail[i]).ref].lits
  }

  /** The same assignment over other clauses. */
  ghost predicate SameTrail(s: State, t: State) {
    t == s.(db := t.db, watches := t.watches, propagated := t.propagated)
  }

  lemma SameTrailTables(s: State, t: State)
    requires SameTrail(s, t)
    ensures forall l: Lit ::
              Value(t, l) == Value(s, l) && Level(t, l) == Level(s, l) && Position(t, l) == Position(s, l)
              && ReasonOf(t, l) == ReasonOf(s, l) && OnTrail(t, l) == OnTrail(s, l)
    ensures forall k: nat :: Begin(t, k) == Begin(s, k)
  {
  }

  lemma ChangedKeepsSearch(s: State, t: State)
    requires SearchOk(s) && SameTrail(s, t) && |t.watches| == |s.watches| && DatabaseOk(t.n, t.db)
             && KeepsReasons(s, t.db)
    requires Begin(s, s.level) <= t.propagated <= |s.trail|
    ensures SearchOk(t)
  {
    SameTrailTables(s, t);
    hide Value, Level, Position, ReasonOf, Begin;
    assert TrailOk(t) by { hide *; SameTrailOk(s, t); }
    forall i | 0 <= i < |t.trail| ensures LevelAt(t, i) && ReasonAt(t, i) {
      assert LevelAt(s, i) && ReasonAt(s, i);
      if ReasonOf(s, s.trail[i]).Because? {
        var c := s.db[ReasonOf(s, s.trail[i]).ref].lits;
        assert Forces(t, c, t.trail[i], i);
      }
    }
    forall a: nat, b: nat | a <= b ensures Begin(t, a) <= Begin(t, b) {
      BeginsOrdered(s, a, b);
    }
  }

  lemma SameTrailOk(s: State, t: State)
    requires Sized(s) && TrailOk(s) && SameTrail(s, t)
    ensures TrailOk(t)
  {
    SameTrailTables(s, t);
    forall l: Lit ensures Value(t, l) == ValueOnTrail(t, l) {
      assert Value(s, l) == ValueOnTrail(s, l);
    }
  }

  // ---------------------------------------------------------------------------------------------
  // Learning
  // ---------------------------------------------------------------------------------------------

  /** The clause forces its first literal now; the second one, if any, is of the current level. */
  ghost predicate Asserting(s: State, c: Clause) {
    && |c| >= 1 && ClauseOk(s.n, c) && Value(s, c[0]) == 0
    && (forall i :: 1 <= i < |c| ==> Value(s, c[i]) == -1)
    && (if |c| == 1 then s.level == 0 else Level(s, c[1]) == s.level)
  }

  /** The state with one more clause, watched when it has two literals. */
  function WithClause(s: State, r: Ref, e: Entry): State
    requires |e.lits| >= 2 ==> e.lits[0] < |s.watches| && e.lits[1] < |s.watches|
  {
    s.(db := s.db[r := e], watches := if |e.lits| >= 2 then Attached(s.watches, e.lits, r) else s.watches)
  }

  lemma FirstTwo(s: State, c: Clause)
    requires Sized(s) && ClauseOk(s.n, c)
    ensures |c| >= 2 ==> c[0] < |s.watches| && c[1] < |s.watches| && c[0] != c[1]
    ensures |c| >= 1 ==> ValidLit(s.n, c[0])
    ensures |c| >= 1 ==>
              c[0] < |s.values| && Neg(c[0]) < |s.values| && Var(c[0]) < |s.levels| && Var(c[0]) < |s.reasons|
              && Var(c[0]) < |s.positions|
  {
    if |c| >= 2 {
      assert Var(c[0]) != Var(c[1]);
      ValidIsInBounds(s, c[1]);
    }
    if |c| >= 1 {
      ValidIsInBounds(s, c[0]);
    }
  }

  lemma WithClauseWatches(s: State, r: Ref, e: Entry)
    requires Sized(s) && WatchesOk(s.db, s.watches) && r !in s.db && ClauseOk(s.n, e.lits)
    ensures |e.lits| >= 2 ==> e.lits[0] < |s.watches| && e.lits[1] < |s.watches|
    ensures var t := WithClause(s, r, e); WatchesOk(t.db, t.watches) && |t.watches| == |s.watches|
  {
    FirstTwo(s, e.lits);
    var t := WithClause(s, r, e);
    forall l: nat, i: nat | l < |s.watches| && i < |s.watches[l]|
      ensures EntryOk(t.db, l, s.watches[l][i]) && s.watches[l][i].ref in s.db.Keys
    {
      assert EntryOk(s.db, l, s.watches[l][i]);
    }
    assert Watched(t.db, s.watches, s.db.Keys);
    if |e.lits| >= 2 {
      AttachOne(s.n, t.db, s.watches, s.db.Keys, r);
    } else {
      SkipUnit(t.db, s.watches, s.db.Keys, r);
    }
    assert s.db.Keys + {r} == t.db.Keys;
    AllWatched(t.db, t.watches);
  }

  lemma WithClauseSearch(s: State, r: Ref, e: Entry)
    requires SearchOk(s) && WatchesOk(s.db, s.watches) && r !in s.db && ClauseOk(s.n, e.lits)
    ensures |e.lits| >= 2 ==> e.lits[0] < |s.watches| && e.lits[1] < |s.watches|
    ensures SearchOk(WithClause(s, r, e)) && SameTrail(s, WithClause(s, r, e))
  {
    WithClauseWatches(s, r, e);
    var t := WithClause(s, r, e);
    forall i | 0 <= i < |s.trail| && ReasonOf(s, s.trail[i]).Because?
      ensures ReasonOf(s, s.trail[i]).ref in s.db
    {
      assert ReasonAt(s, i);
    }
    ChangedKeepsSearch(s, t);
  }

  /** Adding an asserting clause and assigning its first literal keeps every invariant. */
  lemma AssertKeeps(s: State, r: Ref, e: Entry)
    requires SearchOk(s) && WatchInvariant(s) && r !in s.db && Asserting(s, e.lits)
    ensures |e.lits| >= 2 ==> e.lits[0] < |s.watches| && e.lits[1] < |s.watches|
    ensures InBounds(WithClause(s, r, e), e.lits[0])
    ensures var u := AssignStep(WithClause(s, r, e), e.lits[0], Because(r));
            SearchOk(u) && WatchInvariant(u) && Extends(s, u)
  {
    var c := e.lits;
    WithClauseSearch(s, r, e);
    WithClauseWatches(s, r, e);
    FirstTwo(s, c);
    var t := WithClause(s, r, e);
    SameTrailTables(s, t);
    forall m | m in c && m != c[0] ensures Value(t, m) == -1 && Position(t, m) < |t.trail| {
      Assigned(t, m);
    }
    assert Forces(t, c, c[0], |t.trail|);
    AssignKeeps(t, c[0], Because(r));
    AssignTables(t, c[0], Because(r));
    AssignIs(t, c[0], Because(r));
    assert Extends(s, AssignStep(t, c[0], Because(r)));
    hide SearchOk, WatchesOk, Extends;
    AssertedHere(s, r, e);
  }

  /** The new clause's entries are sound once its first literal is assigned. */
  lemma AssertedHere(s: State, r: Ref, e: Entry)
    requires SearchOk(s) && SoundBelow(s, s.propagated) && Asserting(s, e.lits) && InBounds(s, e.lits[0])
    requires |e.lits| >= 2 ==> e.lits[0] < |s.watches| && e.lits[1] < |s.watches|
    ensures InBounds(WithClause(s, r, e), e.lits[0])
    ensures var u := AssignStep(WithClause(s, r, e), e.lits[0], Because(r)); SoundBelow(u, u.propagated)
  {
    var c := e.lits;
    var u := AssignStep(WithClause(s, r, e), c[0], Because(r));
    AssignKeepsSound(s, c[0], Because(r), s.propagated);
    AssignTables(s, c[0], Because(r));
    var v := AssignStep(s, c[0], Because(r));
    assert v == u.(db := s.db, watches := s.watches);
    SameTrailTables(v, u);
    FirstTwo(s, c);
    hide AssignStep, SearchOk, WatchesOk, Extends;
    AssertedSound(v, u, r, c);
  }

  /** The new entries are sound once the first literal is true at the level of the second. */
  lemma AssertedSound(v: State, u: State, r: Ref, c: Clause)
    requires SoundBelow(v, v.propagated) && SameTrail(v, u) && u.propagated == v.propagated && |c| >= 1
    requires |c| >= 2 ==> c[0] < |v.watches| && c[1] < |v.watches| && c[0] != c[1] && Level(v, c[1]) == Level(v, c[0])
    requires u.watches == if |c| >= 2 then Attached(v.watches, c, r) else v.watches
    requires Value(v, c[0]) == 1
    ensures SoundBelow(u, u.propagated)
  {
    SameTrailTables(v, u);
    hide Value, Level, Position, Attached;
    forall l: nat, i: nat | l < |u.watches| && i < |u.watches[l]| && Position(u, l) < u.propagated
      ensures EntrySound(u, l, u.watches[l][i])
    {
      if |c| >= 2 {
        AttachedIs(v.watches, c, r, l);
      }
      if i < |v.watches[l]| {
        assert u.watches[l][i] == v.watches[l][i];
        assert EntrySound(v, l, v.watches[l][i]);
      }
    }
  }

  /** The level to go back to before a clause is learned. */
  ghost function BackjumpLevel(s: State, c: Clause): nat {
    if |c| > 1 then Level(s, c[1]) else 0
  }

  /** Going back to the level of the second literal makes the learned clause force its first one. */
  lemma LearnedAsserts(f: Formula, s: State, c: Clause)
    requires SearchOk(s) && LearnedOk(f, s, c) && s.level > 0
    ensures BackjumpLevel(s, c) < s.level
    ensures BackjumpLevel(s, c) + 1 < |s.control| && s.control[BackjumpLevel(s, c) + 1].trailBegin <= |s.trail|
    ensures Asserting(BacktrackStep(s, BackjumpLevel(s, c)), c)
  {
    var b := BackjumpLevel(s, c);
    assert c[0] in c;
    LevelOfAssigned(s, c[0]);
    BacktrackTables(s, b);
    BeginsOrdered(s, b + 1, s.level);
    var t := BacktrackStep(s, b);
    hide BacktrackStep;
    forall i | 1 <= i < |c| ensures Value(t, c[i]) == -1 {
      assert c[i] in c;
      LevelOfAssigned(s, c[i]);
      BeginsOrdered(s, Level(s, c[i]) + 1, b + 1);
    }
  }

  // ---------------------------------------------------------------------------------------------
  // Deleting clauses
  // ---------------------------------------------------------------------------------------------

  /** The entries of live clauses, in order. */
  function Alive(list: seq<Watch>, live: set<Ref>): seq<Watch> {
    if list == [] then []
    else
      var last := list[|list| - 1];
      Alive(list[..|list| - 1], live) + if last.ref in live then [last] else []
  }

  ghost predicate UniqueList(list: seq<Watch>) {
    forall i: nat, j: nat :: i < j < |list| ==> list[i].ref != list[j].ref
  }

  lemma {:induction false} AliveMembers(list: seq<Watch>, live: set<Ref>)
    ensures forall e :: e in Alive(list, live) <==> e in list && e.ref in live
  {
    if list != [] {
      AliveMembers(list[..|list| - 1], live);
      assert list == list[..|list| - 1] + [list[|list| - 1]];
    }
  }

  lemma {:induction false} AliveUnique(list: seq<Watch>, live: set<Ref>)
    requires UniqueList(list)
    ensures UniqueList(Alive(list, live))
  {
    if list != [] {
      var front := list[..|list| - 1];
      AliveUnique(front, live);
      AliveMembers(front, live);
      forall i: nat | i < |Alive(front, live)| ensures Alive(front, live)[i].ref != list[|list| - 1].ref {
        assert Alive(front, live)[i] in front;
      }
    }
  }

  /** Fewer clauses, each as it was, with the entries of the others gone. */
  ghost predicate Pruned(s: State, t: State) {
    && SameTrail(s, t) && t.propagated == s.propagated && |t.watches| == |s.watches|
    && (forall r :: r in t.db ==> r in s.db && t.db[r] == s.db[r])
    && (forall l: nat :: l < |s.watches| ==> t.watches[l] == Alive(s.watches[l], t.db.Keys))
  }

  lemma PrunedEntry(s: State, t: State, l: nat, i: nat) returns (j: nat)
    requires Pruned(s, t) && l < |t.watches| && i < |t.watches[l]|
    ensures j < |s.watches[l]| && s.watches[l][j] == t.watches[l][i] && t.watches[l][i].ref in t.db
  {
    AliveMembers(s.watches[l], t.db.Keys);
    assert t.watches[l][i] in Alive(s.watches[l], t.db.Keys);
    j :| 0 <= j < |s.watches[l]| && s.watches[l][j] == t.watches[l][i];
  }

  lemma PrunedHasEntry(s: State, t: State, l: nat, r: Ref)
    requires Pruned(s, t) && HasEntry(s.watches, l, r) && r in t.db
    ensures HasEntry(t.watches, l, r)
  {
    var i: nat :| i < |s.watches[l]| && s.watches[l][i].ref == r;
    AliveMembers(s.watches[l], t.db.Keys);
    assert s.watches[l][i] in t.watches[l];
    var j :| 0 <= j < |t.watches[l]| && t.watches[l][j] == s.watches[l][i];
    assert t.watches[l][j].ref == r;
  }

  /** Deleting clauses that are no reasons keeps every invariant. */
  lemma PruneKeeps(s: State, t: State)
    requires SearchOk(s) && WatchInvariant(s) && Pruned(s, t) && KeepsReasons(s, t.db)
    ensures SearchOk(t) && WatchInvariant(t)
  {
    ChangedKeepsSearch(s, t);
    SameTrailTables(s, t);
    hide SearchOk, Value, Level, Position;
    forall l: nat, i: nat | l < |t.watches| && i < |t.watches[l]|
      ensures EntryOk(t.db, l, t.watches[l][i])
      ensures Position(t, l) < t.propagated ==> EntrySound(t, l, t.watches[l][i])
    {
      var j := PrunedEntry(s, t, l, i);
      assert EntryOk(s.db, l, s.watches[l][j]);
      assert Position(s, l) < s.propagated ==> EntrySound(s, l, s.watches[l][j]);
    }
    assert WatchUnique(t.watches) by {
      forall l: nat, i: nat, j: nat | l < |t.watches| && i < j < |t.watches[l]|
        ensures t.watches[l][i].ref != t.watches[l][j].ref
      {
        assert UniqueList(s.watches[l]);
        AliveUnique(s.watches[l], t.db.Keys);
      }
    }
    forall r | r in t.db && |t.db[r].lits| >= 2
      ensures HasEntry(t.watches, t.db[r].lits[0], r) && HasEntry(t.watches, t.db[r].lits[1], r)
    {
      PrunedHasEntry(s, t, t.db[r].lits[0], r);
      PrunedHasEntry(s, t, t.db[r].lits[1], r);
    }
  }

  lemma PrunedUnits(s: State, t: State, units: seq<Ref>)
    requires Pruned(s, t) && UnitsTrue(s) && UnitsListed(s.db, units)
    ensures UnitsTrue(t) && UnitsListed(t.db, units)
  {
    SameTrailTables(s, t);
    forall r | r in t.db ensures UnitTrue(t, r) {
      assert UnitTrue(s, r);
    }
  }

  /** Deleting redundant clauses loses nothing. */
  lemma PrunedRepresents(f: Formula, db: Database, later: Database)
    requires Represents(f, db) && (forall r :: r in later ==> r in db && later[r] == db[r])
    requires forall r :: r in db && !db[r].redundant ==> r in later
    ensures Represents(f, later)
  {
    forall a: Assignment | SatisfiesPermanent(a, later) ensures SatisfiesPermanent(a, db) {
      forall r | r in db && !db[r].redundant ensures Satisfies(a, db[r].lits) {
        assert later[r] == db[r];
      }
    }
  }

  /** A redundant clause that follows may be added. */
  lemma WithRedundant(f: Formula, db: Database, r: Ref, c: Clause)
    requires Represents(f, db) && r !in db && Entails(f, c)
    ensures Represents(f, db[r := Entry(c, true)])
  {
    var later := db[r := Entry(c, true)];
    forall a: Assignment | SatisfiesPermanent(a, later) ensures SatisfiesPermanent(a, db) {
      forall q | q in db && !db[q].redundant ensures Satisfies(a, db[q].lits) {
        assert later[q] == db[q];
      }
    }
  }
}
