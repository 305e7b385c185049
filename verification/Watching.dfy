/** Two watched literals per clause: the invariant of the watch lists and the steps of a list scan. */
module Watching {
  import opened Logic
  import opened SearchState

  type WatchLists = seq<seq<Watch>>

  /** An entry in the list of `l`: `l` is one of the first two literals, the blocking literal another one. */
  ghost predicate EntryOk(db: Database, l: Lit, e: Watch) {
    && e.ref in db
    && var c := db[e.ref].lits;
    && |c| >= 2 && (c[0] == l || c[1] == l)
    && e.blocking in c && e.blocking != l
    && (e.binary <==> |c| == 2)
  }

  ghost predicate WatchShape(db: Database, w: WatchLists) {
    forall l: nat, i: nat :: l < |w| && i < |w[l]| ==> EntryOk(db, l, w[l][i])
  }

  /** No list names a clause twice. */
  ghost predicate WatchUnique(w: WatchLists) {
    forall l: nat, i: nat, j: nat :: l < |w| && i < j < |w[l]| ==> w[l][i].ref != w[l][j].ref
  }

  ghost predicate HasEntry(w: WatchLists, l: Lit, r: Ref) {
    l < |w| && exists i: nat :: i < |w[l]| && w[l][i].ref == r
  }

  ghost predicate WatchComplete(db: Database, w: WatchLists) {
    forall r :: r in db && |db[r].lits| >= 2 ==> HasEntry(w, db[r].lits[0], r) && HasEntry(w, db[r].lits[1], r)
  }

  /** Exactly one entry per watched literal. */
  ghost predicate WatchesOk(db: Database, w: WatchLists) {
    WatchShape(db, w) && WatchUnique(w) && WatchComplete(db, w)
  }

  /** A false watch has a true blocking literal assigned no later. */
  ghost predicate EntrySound(s: State, l: Lit, e: Watch) {
    Value(s, l) == -1 ==> Value(s, e.blocking) == 1 && Level(s, e.blocking) <= Level(s, l)
  }

  /** The entries of every false literal older than trail position `limit` are sound. */
  ghost predicate SoundBelow(s: State, limit: nat) {
    forall l: nat, i: nat :: l < |s.watches| && i < |s.watches[l]| && Position(s, l) < limit ==>
      EntrySound(s, l, s.watches[l][i])
  }

  ghost predicate WatchInvariant(s: State) {
    WatchesOk(s.db, s.watches) && SoundBelow(s, s.propagated)
  }

  // ---------------------------------------------------------------------------------------------
  // The fixpoint
  // ---------------------------------------------------------------------------------------------

  ghost predicate Falsified(s: State, c: Clause) {
    forall l :: l in c ==> Value(s, l) == -1
  }

  ghost predicate SatisfiedOrOpen(s: State, c: Clause) {
    || (exists l :: l in c && Value(s, l) == 1)
    || (exists i, j :: 0 <= i < j < |c| && Value(s, c[i]) == 0 && Value(s, c[j]) == 0)
  }

  /** With nothing left to propagate, every watched clause is satisfied or has two open literals. */
  lemma Fixpoint(s: State, r: Ref)
    requires SearchOk(s) && WatchInvariant(s) && s.propagated == |s.trail|
    requires r in s.db && |s.db[r].lits| >= 2
    ensures SatisfiedOrOpen(s, s.db[r].lits)
  {
    var c := s.db[r].lits;
    assert HasEntry(s.watches, c[0], r) && HasEntry(s.watches, c[1], r);
    WatchedIsSound(s, r, c[0]);
    WatchedIsSound(s, r, c[1]);
    Assigned(s, c[0]);
    Assigned(s, c[1]);
    assert c[0] in c && c[1] in c;
  }

  lemma WatchedIsSound(s: State, r: Ref, l: Lit)
    requires SearchOk(s) && WatchInvariant(s) && s.propagated == |s.trail|
    requires r in s.db && HasEntry(s.watches, l, r)
    ensures Value(s, l) == -1 ==> exists m :: m in s.db[r].lits && Value(s, m) == 1
  {
    Assigned(s, l);
    var i: nat :| i < |s.watches[l]| && s.watches[l][i].ref == r;
    assert EntryOk(s.db, l, s.watches[l][i]);
    assert Value(s, l) == -1 ==> EntrySound(s, l, s.watches[l][i]);
  }

  // ---------------------------------------------------------------------------------------------
  // Steps that leave the lists alone
  // ---------------------------------------------------------------------------------------------

  lemma AssignKeepsSound(s: State, l: Lit, reason: Reason, limit: nat)
    requires SearchOk(s) && ValidLit(s.n, l) && Value(s, l) == 0
    requires limit <= |s.trail| && SoundBelow(s, limit)
    ensures l < |s.values| && Neg(l) < |s.values| && Var(l) < |s.levels| && Var(l) < |s.reasons|
            && Var(l) < |s.positions|
    ensures SoundBelow(AssignStep(s, l, reason), limit)
  {
    AssignTables(s, l, reason);
    AssignIs(s, l, reason);
    var t := AssignStep(s, l, reason);
    hide AssignStep, Value, Level, Position;
    forall m: nat, i: nat | m < |t.watches| && i < |t.watches[m]| && Position(t, m) < limit
      ensures EntrySound(t, m, t.watches[m][i])
    {
      assert Var(m) != Var(l) ==> EntrySound(s, m, s.watches[m][i]);
      var b := s.watches[m][i].blocking;
      if Var(b) == Var(l) {
        SameVar(b, l);
        Assigned(s, l);
      }
    }
  }

  lemma NewLevelKeepsWatches(s: State, decision: Lit)
    requires SearchOk(s) && WatchInvariant(s)
    ensures WatchInvariant(NewLevelStep(s, decision))
  {
    var t := NewLevelStep(s, decision);
    forall m: nat, i: nat | m < |t.watches| && i < |t.watches[m]| && Position(t, m) < t.propagated
      ensures EntrySound(t, m, t.watches[m][i])
    {
      assert EntrySound(s, m, s.watches[m][i]);
    }
  }

  /** After undoing a level, the entries of the literals that remain are still sound. */
  lemma BacktrackKeepsWatches(s: State, target: nat, limit: nat)
    requires SearchOk(s) && WatchesOk(s.db, s.watches) && SoundBelow(s, limit)
    requires target < s.level && Begin(s, s.level) <= limit
    ensures target + 1 < |s.control| && s.control[target + 1].trailBegin <= |s.trail|
    ensures WatchInvariant(BacktrackStep(s, target))
  {
    BacktrackTables(s, target);
    BeginsOrdered(s, target + 1, s.level);
    var t := BacktrackStep(s, target);
    hide BacktrackStep;
    forall m: nat, i: nat | m < |t.watches| && i < |t.watches[m]| && Position(t, m) < t.propagated
      ensures EntrySound(t, m, t.watches[m][i])
    {
      assert EntrySound(s, m, s.watches[m][i]);
      if Value(t, m) == -1 {
        BlockingSurvives(s, target, m, s.watches[m][i].blocking);
      }
    }
  }

  lemma BlockingSurvives(s: State, target: nat, m: Lit, b: Lit)
    requires SearchOk(s) && target < s.level
    requires Value(s, m) == -1 && Position(s, m) < Begin(s, target + 1)
    requires Value(s, b) == 1 && Level(s, b) <= Level(s, m)
    ensures Position(s, b) < Begin(s, target + 1)
  {
    LevelOfAssigned(s, m);
    LevelOfAssigned(s, b);
    BeginsOrdered(s, target + 1, Level(s, m));
    BeginsOrdered(s, Level(s, b) + 1, target + 1);
  }

  // ---------------------------------------------------------------------------------------------
  // Scanning the list of a literal that has just become false
  // ---------------------------------------------------------------------------------------------

  /** The scan of the list of `f` has settled its first `w` entries. */
  ghost predicate Scanning(s: State, f: Lit, w: nat) {
    && SearchOk(s) && WatchesOk(s.db, s.watches)
    && 0 < s.propagated && Value(s, f) == -1 && Position(s, f) == s.propagated - 1
    && SoundBelow(s, s.propagated - 1)
    && f < |s.watches| && w <= |s.watches[f]|
    && (forall i :: 0 <= i < w ==> EntrySound(s, f, s.watches[f][i]))
  }

  lemma ScanLevel(s: State, f: Lit, w: nat)
    requires Scanning(s, f, w)
    ensures Level(s, f) <= s.level && forall b: Lit :: Value(s, b) != 0 ==> Level(s, b) <= s.level
    ensures Begin(s, s.level) <= Position(s, f) ==> Level(s, f) == s.level
  {
    forall b: Lit | Value(s, b) != 0 ensures Level(s, b) <= s.level {
      LevelOfAssigned(s, b);
    }
    LevelOfAssigned(s, f);
    BeginsOrdered(s, Level(s, f) + 1, s.level);
  }

  /** A scan that reaches the end settles the literal. */
  lemma ScanDone(s: State, f: Lit)
    requires f < |s.watches| && Scanning(s, f, |s.watches[f]|)
    ensures WatchInvariant(s)
  {
    forall m: nat, i: nat | m < |s.watches| && i < |s.watches[m]| && Position(s, m) < s.propagated
      ensures EntrySound(s, m, s.watches[m][i])
    {
      if Position(s, m) < s.propagated - 1 {
      } else {
        Assigned(s, m);
        Assigned(s, f);
      }
    }
  }

  /** The database and lists with clause `r` reordered and its scanned entry rewritten. */
  function Rewritten(s: State, f: Lit, w: nat, e: Watch, r: Ref, c: Clause): State
    requires f < |s.watches| && w < |s.watches[f]| && r in s.db
  {
    s.(watches := s.watches[f := s.watches[f][w := e]], db := s.db[r := s.db[r].(lits := c)])
  }

  /** The database and lists after the watch of clause `r` has moved from `f` to `to`. */
  function Moved(s: State, f: Lit, w: nat, to: Lit, e: Watch, r: Ref, c: Clause): State
    requires f < |s.watches| && w < |s.watches[f]| && to < |s.watches| && to != f && r in s.db
  {
    var shorter := s.watches[f := s.watches[f][..w] + s.watches[f][w + 1..]];
    s.(watches := shorter[to := shorter[to] + [e]], db := s.db[r := s.db[r].(lits := c)])
  }

  /** Only the order of one clause's literals differs. */
  ghost predicate Reordered(db: Database, r: Ref, c: Clause) {
    r in db && multiset(c) == multiset(db[r].lits)
  }

  lemma SameMembers(c: Clause, d: Clause)
    requires multiset(c) == multiset(d)
    ensures |c| == |d| && forall l :: l in c <==> l in d
  {
    assert |multiset(c)| == |c| && |multiset(d)| == |d|;
    forall l ensures l in c <==> l in d {
      assert l in c <==> l in multiset(c);
      assert l in d <==> l in multiset(d);
    }
  }

  /** Distinct variables are a property of the literals, not of their order. */
  lemma ReorderedClauseOk(n: nat, c: Clause, d: Clause)
    requires ClauseOk(n, c) && multiset(c) == multiset(d)
    ensures ClauseOk(n, d)
  {
    SameMembers(c, d);
    forall i | 0 <= i < |d| ensures ValidLit(n, d[i]) {
      assert d[i] in d;
    }
    forall i, j | 0 <= i < j < |d| ensures Var(d[i]) != Var(d[j]) {
      assert d[i] in d && d[j] in d;
      Twice(d, i, j);
      DistinctOnce(n, c, d[i]);
      if d[i] != d[j] {
        DistinctVars(n, c, d[i], d[j]);
      }
    }
  }

  lemma Twice(d: Clause, i: nat, j: nat)
    requires i < j < |d|
    ensures d[i] == d[j] ==> multiset(d)[d[i]] >= 2
  {
    assert d == d[..i] + [d[i]] + d[i + 1..j] + [d[j]] + d[j + 1..];
  }

  lemma DistinctOnce(n: nat, c: Clause, l: Lit)
    requires ClauseOk(n, c) && l in c
    ensures multiset(c)[l] == 1
  {
    var i :| 0 <= i < |c| && c[i] == l;
    assert c == c[..i] + [l] + c[i + 1..];
    assert l !in c[..i] && l !in c[i + 1..];
    assert multiset(c) == multiset(c[..i]) + multiset{l} + multiset(c[i + 1..]);
  }

  lemma DistinctVars(n: nat, c: Clause, l: Lit, m: Lit)
    requires ClauseOk(n, c) && l in c && m in c && l != m
    ensures Var(l) != Var(m)
  {
    var i :| 0 <= i < |c| && c[i] == l;
    var j :| 0 <= j < |c| && c[j] == m;
    assert Var(c[i]) == Var(c[j]) ==> i == j;
  }

  lemma ReorderKeepsSearch(s: State, t: State, r: Ref, c: Clause)
    requires SearchOk(s) && Reordered(s.db, r, c)
    requires t == s.(watches := t.watches, db := s.db[r := s.db[r].(lits := c)]) && |t.watches| == |s.watches|
    ensures SearchOk(t)
  {
    var d := s.db[r].lits;
    SameMembers(c, d);
    assert DatabaseOk(t.n, t.db) by {
      ReorderedClauseOk(s.n, d, c);
    }
    assert forall k: nat :: Begin(t, k) == Begin(s, k);
    assert forall l: Lit :: Value(t, l) == Value(s, l) && Position(t, l) == Position(s, l);
    forall i | 0 <= i < |t.trail| ensures LevelAt(t, i) && ReasonAt(t, i) {
      assert LevelAt(s, i) && ReasonAt(s, i);
      var q := ReasonOf(s, s.trail[i]);
      if q.Because? {
        assert Forces(s, s.db[q.ref].lits, s.trail[i], i);
        assert forall m :: m in t.db[q.ref].lits <==> m in s.db[q.ref].lits;
        assert Forces(t, t.db[q.ref].lits, s.trail[i], i);
      }
    }
  }

  /** The same two literals are watched. */
  ghost predicate SameWatched(c: Clause, d: Clause) {
    && |c| == |d| >= 2
    && ((c[0] == d[0] && c[1] == d[1]) || (c[0] == d[1] && c[1] == d[0]))
  }

  lemma EntriesSurviveReorder(db: Database, l: Lit, e: Watch, r: Ref, c: Clause)
    requires EntryOk(db, l, e) && Reordered(db, r, c)
    requires e.ref == r ==> |c| >= 2 && (c[0] == l || c[1] == l)
    ensures EntryOk(db[r := db[r].(lits := c)], l, e)
  {
    SameMembers(c, db[r].lits);
  }

  /** Rewriting the scanned entry and swapping the clause's watched pair keeps the lists in order. */
  lemma RewriteKeepsWatches(s: State, f: Lit, w: nat, e: Watch, r: Ref, c: Clause)
    requires WatchesOk(s.db, s.watches)
    requires f < |s.watches| && w < |s.watches[f]| && s.watches[f][w].ref == r == e.ref
    requires Reordered(s.db, r, c) && SameWatched(c, s.db[r].lits)
    requires EntryOk(s.db, f, e)
    ensures var t := Rewritten(s, f, w, e, r, c); WatchesOk(t.db, t.watches)
  {
    var t := Rewritten(s, f, w, e, r, c);
    forall l: nat, i: nat | l < |t.watches| && i < |t.watches[l]| ensures EntryOk(t.db, l, t.watches[l][i]) {
      assert EntryOk(s.db, l, s.watches[l][i]);
      EntriesSurviveReorder(s.db, l, t.watches[l][i], r, c);
    }
    forall l: nat, i: nat, j: nat | l < |t.watches| && i < j < |t.watches[l]|
      ensures t.watches[l][i].ref != t.watches[l][j].ref
    {
      assert s.watches[l][i].ref != s.watches[l][j].ref;
    }
    forall q | q in t.db && |t.db[q].lits| >= 2
      ensures HasEntry(t.watches, t.db[q].lits[0], q) && HasEntry(t.watches, t.db[q].lits[1], q)
    {
      SameMembers(c, s.db[r].lits);
      RewrittenHasEntry(s, f, w, e, r, c, s.db[q].lits[0], q);
      RewrittenHasEntry(s, f, w, e, r, c, s.db[q].lits[1], q);
    }
  }

  lemma RewrittenHasEntry(s: State, f: Lit, w: nat, e: Watch, r: Ref, c: Clause, l: Lit, q: Ref)
    requires f < |s.watches| && w < |s.watches[f]| && s.watches[f][w].ref == r == e.ref && r in s.db
    requires HasEntry(s.watches, l, q)
    ensures HasEntry(Rewritten(s, f, w, e, r, c).watches, l, q)
  {
    var i: nat :| i < |s.watches[l]| && s.watches[l][i].ref == q;
    assert Rewritten(s, f, w, e, r, c).watches[l][i].ref == q;
  }

  /** The scan settles an entry by rewriting it with a true blocking literal. */
  lemma ScanRewrite(s: State, f: Lit, w: nat, e: Watch, r: Ref, c: Clause)
    requires Scanning(s, f, w) && w < |s.watches[f]| && s.watches[f][w].ref == r == e.ref
    requires Reordered(s.db, r, c) && SameWatched(c, s.db[r].lits) && EntryOk(s.db, f, e)
    ensures Scanning(Rewritten(s, f, w, e, r, c), f, w)
    ensures EntrySound(s, f, e) ==> Scanning(Rewritten(s, f, w, e, r, c), f, w + 1)
  {
    var t := Rewritten(s, f, w, e, r, c);
    RewriteKeepsWatches(s, f, w, e, r, c);
    ReorderKeepsSearch(s, t, r, c);
    hide WatchesOk, SearchOk, Reordered, SameWatched, EntryOk, SoundBelow, EntrySound;
    RewriteKeepsSound(s, f, w, e, r, c);
  }

  /** Rewriting the entry at the cursor unsettles no other. */
  lemma RewriteKeepsSound(s: State, f: Lit, w: nat, e: Watch, r: Ref, c: Clause)
    requires 0 < s.propagated && SoundBelow(s, s.propagated - 1) && Position(s, f) == s.propagated - 1
    requires f < |s.watches| && w < |s.watches[f]| && r in s.db
    requires forall i :: 0 <= i < w ==> EntrySound(s, f, s.watches[f][i])
    ensures var t := Rewritten(s, f, w, e, r, c);
            && SoundBelow(t, s.propagated - 1) && (forall i :: 0 <= i < w ==> EntrySound(t, f, t.watches[f][i]))
            && (EntrySound(s, f, e) ==> EntrySound(t, f, t.watches[f][w]))
  {
    var t := Rewritten(s, f, w, e, r, c);
    assert forall l: Lit ::
             Value(t, l) == Value(s, l) && Level(t, l) == Level(s, l) && Position(t, l) == Position(s, l);
    forall m: nat, i: nat | m < |t.watches| && i < |t.watches[m]| && Position(t, m) < s.propagated - 1
      ensures EntrySound(t, m, t.watches[m][i])
    {
      assert EntrySound(s, m, s.watches[m][i]);
    }
    forall i | 0 <= i < w ensures EntrySound(t, f, t.watches[f][i]) {
      assert EntrySound(s, f, s.watches[f][i]);
    }
    assert EntrySound(s, f, e) ==> EntrySound(t, f, t.watches[f][w]);
  }

  /** A true blocking literal settles an entry as it stands. */
  lemma ScanKeep(s: State, f: Lit, w: nat)
    requires Scanning(s, f, w) && w < |s.watches[f]| && Begin(s, s.level) <= Position(s, f)
    requires Value(s, s.watches[f][w].blocking) == 1
    ensures Scanning(s, f, w + 1)
  {
    ScanLevel(s, f, w);
  }

  /** The clause as the scan leaves it when the watch moves to position `k`. */
  function WithWatchMoved(c: Clause, other: Lit, f: Lit, k: nat): Clause
    requires 2 <= k < |c|
  {
    c[0 := other][1 := c[k]][k := f]
  }

  lemma MovedIsReordered(c: Clause, other: Lit, f: Lit, k: nat)
    requires 2 <= k < |c|
    requires (c[0] == other && c[1] == f) || (c[0] == f && c[1] == other)
    ensures multiset(WithWatchMoved(c, other, f, k)) == multiset(c)
  {
    var front := if c[0] == other then c else c[0 := c[1]][1 := c[0]];
    Exchange(c, 0, 1);
    Exchange(front, 1, k);
    assert WithWatchMoved(c, other, f, k) == front[1 := front[k]][k := front[1]];
  }

  lemma Exchange(c: Clause, i: nat, j: nat)
    requires i < j < |c|
    ensures multiset(c[i := c[j]][j := c[i]]) == multiset(c)
  {
  }

  lemma SwappedIsReordered(c: Clause, other: Lit, f: Lit)
    requires |c| >= 2
    requires (c[0] == other && c[1] == f) || (c[0] == f && c[1] == other)
    ensures multiset(c[0 := other][1 := f]) == multiset(c) && SameWatched(c[0 := other][1 := f], c)
  {
    var d := c[0 := other][1 := f];
    assert c == [c[0], c[1]] + c[2..];
    assert d == [other, f] + c[2..];
  }

  /** Moving a watch to a literal that is not false keeps the lists in order. */
  lemma MoveKeepsWatches(s: State, f: Lit, w: nat, other: Lit, k: nat, r: Ref)
    requires WatchesOk(s.db, s.watches)
    requires f < |s.watches| && w < |s.watches[f]| && s.watches[f][w].ref == r && r in s.db
    requires ClauseOk(s.n, s.db[r].lits) && 2 <= k < |s.db[r].lits|
    requires (s.db[r].lits[0] == other && s.db[r].lits[1] == f) || (s.db[r].lits[0] == f && s.db[r].lits[1] == other)
    requires s.db[r].lits[k] < |s.watches|
    ensures s.db[r].lits[k] != f
    ensures var to := s.db[r].lits[k];
            var t := Moved(s, f, w, to, Watch(other, r, false), r, WithWatchMoved(s.db[r].lits, other, f, k));
            WatchesOk(t.db, t.watches)
  {
    var d := s.db[r].lits;
    var to := d[k];
    var c := WithWatchMoved(d, other, f, k);
    var e := Watch(other, r, false);
    MovedIsReordered(d, other, f, k);
    assert Var(d[0]) != Var(d[k]) && Var(d[1]) != Var(d[k]);
    var t := Moved(s, f, w, to, e, r, c);
    forall l: nat, i: nat | l < |t.watches| && i < |t.watches[l]| ensures EntryOk(t.db, l, t.watches[l][i]) {
      MovedEntryOk(s, f, w, other, k, r, l, i);
    }
    forall l: nat, i: nat, j: nat | l < |t.watches| && i < j < |t.watches[l]|
      ensures t.watches[l][i].ref != t.watches[l][j].ref
    {
      MovedUnique(s, f, w, other, k, r, l, i, j);
    }
    forall q | q in t.db && |t.db[q].lits| >= 2
      ensures HasEntry(t.watches, t.db[q].lits[0], q) && HasEntry(t.watches, t.db[q].lits[1], q)
    {
      MovedHasEntry(s, f, w, to, e, r, c, s.db[q].lits[0], q);
      MovedHasEntry(s, f, w, to, e, r, c, s.db[q].lits[1], q);
      assert t.watches[to][|t.watches[to]| - 1].ref == r;
      assert HasEntry(t.watches, to, r);
    }
  }

  lemma MovedEntryOk(s: State, f: Lit, w: nat, other: Lit, k: nat, r: Ref, l: nat, i: nat)
    requires WatchesOk(s.db, s.watches)
    requires f < |s.watches| && w < |s.watches[f]| && s.watches[f][w].ref == r && r in s.db
    requires ClauseOk(s.n, s.db[r].lits) && 2 <= k < |s.db[r].lits| && s.db[r].lits[k] != f
    requires (s.db[r].lits[0] == other && s.db[r].lits[1] == f) || (s.db[r].lits[0] == f && s.db[r].lits[1] == other)
    requires s.db[r].lits[k] < |s.watches|
    requires var t := Moved(s, f, w, s.db[r].lits[k], Watch(other, r, false), r,
                            WithWatchMoved(s.db[r].lits, other, f, k));
             l < |t.watches| && i < |t.watches[l]|
    ensures var t := Moved(s, f, w, s.db[r].lits[k], Watch(other, r, false), r,
                           WithWatchMoved(s.db[r].lits, other, f, k));
            EntryOk(t.db, l, t.watches[l][i])
  {
    var d := s.db[r].lits;
    var to := d[k];
    var c := WithWatchMoved(d, other, f, k);
    var e := Watch(other, r, false);
    var t := Moved(s, f, w, to, e, r, c);
    MovedIsReordered(d, other, f, k);
    if l == to && i == |t.watches[l]| - 1 {
      SameMembers(c, d);
      assert c[1] == to && c[0] == other && other in d;
      assert Var(d[0]) != Var(d[k]) && Var(d[1]) != Var(d[k]);
    } else {
      var i' := if l == f && i >= w then i + 1 else i;
      assert t.watches[l][i] == s.watches[l][i'];
      assert EntryOk(s.db, l, s.watches[l][i']);
      if t.watches[l][i].ref == r {
        assert l == f ==> i' != w;
      }
      EntriesSurviveReorder(s.db, l, t.watches[l][i], r, c);
    }
  }

  lemma MovedUnique(s: State, f: Lit, w: nat, other: Lit, k: nat, r: Ref, l: nat, i: nat, j: nat)
    requires WatchesOk(s.db, s.watches)
    requires f < |s.watches| && w < |s.watches[f]| && s.watches[f][w].ref == r && r in s.db
    requires ClauseOk(s.n, s.db[r].lits) && 2 <= k < |s.db[r].lits| && s.db[r].lits[k] != f
    requires s.db[r].lits[k] < |s.watches|
    requires var t := Moved(s, f, w, s.db[r].lits[k], Watch(other, r, false), r,
                            WithWatchMoved(s.db[r].lits, other, f, k));
             l < |t.watches| && i < j < |t.watches[l]|
    ensures var t := Moved(s, f, w, s.db[r].lits[k], Watch(other, r, false), r,
                           WithWatchMoved(s.db[r].lits, other, f, k));
            t.watches[l][i].ref != t.watches[l][j].ref
  {
    var d := s.db[r].lits;
    var to := d[k];
    var t := Moved(s, f, w, to, Watch(other, r, false), r, WithWatchMoved(d, other, f, k));
    MovedEntry(s, f, w, to, Watch(other, r, false), r, WithWatchMoved(d, other, f, k), l, i);
    MovedEntry(s, f, w, to, Watch(other, r, false), r, WithWatchMoved(d, other, f, k), l, j);
    hide Moved;
    if l == to && j == |s.watches[to]| {
      assert EntryOk(s.db, to, s.watches[to][i]);
      assert Var(d[0]) != Var(d[k]) && Var(d[1]) != Var(d[k]);
    }
  }

  /** Every entry is one that was there, in the same order, or the one moved. */
  lemma MovedEntry(s: State, f: Lit, w: nat, to: Lit, e: Watch, r: Ref, c: Clause, l: Lit, i: nat)
    requires f < |s.watches| && w < |s.watches[f]| && to < |s.watches| && to != f && r in s.db
    requires l < |s.watches| && i < |Moved(s, f, w, to, e, r, c).watches[l]|
    ensures |Moved(s, f, w, to, e, r, c).watches| == |s.watches|
    ensures l == f ==> |Moved(s, f, w, to, e, r, c).watches[l]| == |s.watches[l]| - 1
    ensures l == to ==> |Moved(s, f, w, to, e, r, c).watches[l]| == |s.watches[l]| + 1
    ensures l != f && l != to ==> |Moved(s, f, w, to, e, r, c).watches[l]| == |s.watches[l]|
    ensures Moved(s, f, w, to, e, r, c).watches[l][i]
            == if l == f && i >= w then s.watches[l][i + 1]
               else if l == to && i == |s.watches[l]| then e else s.watches[l][i]
  {
  }

  lemma MovedHasEntry(s: State, f: Lit, w: nat, to: Lit, e: Watch, r: Ref, c: Clause, l: Lit, q: Ref)
    requires f < |s.watches| && w < |s.watches[f]| && to < |s.watches| && to != f && r in s.db
    requires s.watches[f][w].ref == r
    requires HasEntry(s.watches, l, q)
    ensures l != f || q != r ==> HasEntry(Moved(s, f, w, to, e, r, c).watches, l, q)
  {
    var t := Moved(s, f, w, to, e, r, c);
    var i: nat :| i < |s.watches[l]| && s.watches[l][i].ref == q;
    if l != f || q != r {
      var i': nat := if l == f && i > w then i - 1 else i;
      assert t.watches[l][i'].ref == q;
    }
  }

  /** Moving a watch takes one entry off the scan. */
  lemma ScanMove(s: State, f: Lit, w: nat, other: Lit, k: nat, r: Ref)
    requires Scanning(s, f, w) && w < |s.watches[f]| && s.watches[f][w].ref == r && r in s.db
    requires 2 <= k < |s.db[r].lits| && Value(s, s.db[r].lits[k]) != -1
    requires (s.db[r].lits[0] == other && s.db[r].lits[1] == f) || (s.db[r].lits[0] == f && s.db[r].lits[1] == other)
    ensures s.db[r].lits[k] < |s.watches| && s.db[r].lits[k] != f
    ensures Scanning(Moved(s, f, w, s.db[r].lits[k], Watch(other, r, false), r,
                           WithWatchMoved(s.db[r].lits, other, f, k)), f, w)
  {
    hide SearchOk, WatchesOk, SoundBelow, EntrySound, Moved, WithWatchMoved;
    MovedParts(s, f, w, other, k, r);
    var d := s.db[r].lits;
    MovedStaysSound(s, f, w, d[k], Watch(other, r, false), r, WithWatchMoved(d, other, f, k));
  }

  lemma MovedParts(s: State, f: Lit, w: nat, other: Lit, k: nat, r: Ref)
    requires SearchOk(s) && WatchesOk(s.db, s.watches)
    requires f < |s.watches| && w < |s.watches[f]| && s.watches[f][w].ref == r && r in s.db
    requires 2 <= k < |s.db[r].lits|
    requires (s.db[r].lits[0] == other && s.db[r].lits[1] == f) || (s.db[r].lits[0] == f && s.db[r].lits[1] == other)
    ensures s.db[r].lits[k] < |s.watches| && s.db[r].lits[k] != f
    ensures var t := Moved(s, f, w, s.db[r].lits[k], Watch(other, r, false), r,
                           WithWatchMoved(s.db[r].lits, other, f, k));
            SearchOk(t) && WatchesOk(t.db, t.watches)
  {
    var d := s.db[r].lits;
    assert ClauseOk(s.n, d);
    ValidIsInBounds(s, d[k]);
    MoveKeepsWatches(s, f, w, other, k, r);
    MovedIsReordered(d, other, f, k);
    var c := WithWatchMoved(d, other, f, k);
    ReorderKeepsSearch(s, Moved(s, f, w, d[k], Watch(other, r, false), r, c), r, c);
  }

  lemma MovedStaysSound(s: State, f: Lit, w: nat, to: Lit, e: Watch, r: Ref, c: Clause)
    requires f < |s.watches| && w < |s.watches[f]| && to < |s.watches| && to != f && r in s.db
    requires s.propagated > 0 && SoundBelow(s, s.propagated - 1) && Value(s, to) != -1
    requires forall i :: 0 <= i < w ==> EntrySound(s, f, s.watches[f][i])
    ensures var t := Moved(s, f, w, to, e, r, c);
            && t.propagated == s.propagated && |t.watches| == |s.watches| && w <= |t.watches[f]|
            && SoundBelow(t, s.propagated - 1)
            && (forall i :: 0 <= i < w ==> EntrySound(t, f, t.watches[f][i]))
            && (forall l: Lit ::
                  Value(t, l) == Value(s, l) && Level(t, l) == Level(s, l) && Position(t, l) == Position(s, l))
  {
    var t := Moved(s, f, w, to, e, r, c);
    assert forall l: Lit ::
             Value(t, l) == Value(s, l) && Level(t, l) == Level(s, l) && Position(t, l) == Position(s, l);
    hide Value, Level, Position;
    forall m: nat, i: nat | m < |t.watches| && i < |t.watches[m]| && Position(t, m) < s.propagated - 1
      ensures EntrySound(t, m, t.watches[m][i])
    {
      if m == to && i == |t.watches[m]| - 1 {
        assert Value(s, to) != -1;
      } else {
        var i' := if m == f && i >= w then i + 1 else i;
        assert t.watches[m][i] == s.watches[m][i'];
        assert EntrySound(s, m, s.watches[m][i']);
      }
    }
    forall i | 0 <= i < w ensures EntrySound(t, f, t.watches[f][i]) {
      assert EntrySound(s, f, s.watches[f][i]);
    }
  }

  /** A clause whose other literals are all false forces the remaining one; the scan settles its entry. */
  lemma ScanAssign(s: State, f: Lit, w: nat, l: Lit, r: Ref)
    requires Scanning(s, f, w) && w < |s.watches[f]| && s.watches[f][w] == Watch(l, r, s.watches[f][w].binary)
    requires Begin(s, s.level) <= Position(s, f)
    requires r in s.db && Value(s, l) == 0
    requires l in s.db[r].lits && forall m :: m in s.db[r].lits && m != l ==> Value(s, m) == -1
    ensures ValidLit(s.n, l)
    ensures l < |s.values| && Neg(l) < |s.values| && Var(l) < |s.levels| && Var(l) < |s.reasons|
            && Var(l) < |s.positions|
    ensures Scanning(AssignStep(s, l, Because(r)), f, w + 1) && Extends(s, AssignStep(s, l, Because(r)))
  {
    AssignUnit(s, l, r);
    AssignKeepsSound(s, l, Because(r), s.propagated - 1);
    ScanLevel(s, f, w);
    AssignTables(s, l, Because(r));
    AssignIs(s, l, Because(r));
    var t := AssignStep(s, l, Because(r));
    hide AssignStep, WatchesOk, SearchOk, Value, Level, Position, Extends;
    StillFalse(s, t, f);
    forall i | 0 <= i < w ensures EntrySound(t, f, t.watches[f][i]) {
      EntryStaysSound(s, t, f, s.watches[f][i]);
    }
  }

  /** A clause whose other literals are all false is a sound reason for the remaining one. */
  lemma AssignUnit(s: State, l: Lit, r: Ref)
    requires SearchOk(s) && r in s.db && Value(s, l) == 0 && l in s.db[r].lits
    requires forall m :: m in s.db[r].lits && m != l ==> Value(s, m) == -1
    ensures ValidLit(s.n, l)
    ensures l < |s.values| && Neg(l) < |s.values| && Var(l) < |s.levels| && Var(l) < |s.reasons|
            && Var(l) < |s.positions|
    ensures SearchOk(AssignStep(s, l, Because(r))) && Extends(s, AssignStep(s, l, Because(r)))
  {
    assert ClauseOk(s.n, s.db[r].lits);
    forall m | m in s.db[r].lits && m != l ensures Position(s, m) < |s.trail| {
      Assigned(s, m);
    }
    assert Forces(s, s.db[r].lits, l, |s.trail|);
    AssignKeeps(s, l, Because(r));
  }

  lemma StillFalse(s: State, t: State, f: Lit)
    requires Extends(s, t) && Value(s, f) == -1
    ensures Value(t, f) == -1 && Position(t, f) == Position(s, f)
  {
  }

  lemma EntryStaysSound(s: State, t: State, f: Lit, e: Watch)
    requires Extends(s, t) && Value(s, f) == -1 && EntrySound(s, f, e)
    ensures EntrySound(t, f, e)
  {
  }

  // ---------------------------------------------------------------------------------------------
  // In-place compaction: entries before `w` are kept, entries from `r` on are still to be read
  // ---------------------------------------------------------------------------------------------

  /** The state with the gap between the write and the read cursor closed. */
  function Compacted(s: State, f: Lit, w: nat, r: nat): State
    requires f < |s.watches| && w <= r <= |s.watches[f]|
  {
    s.(watches := s.watches[f := s.watches[f][..w] + s.watches[f][r..]])
  }

  /** Writing the entry just read at the write cursor leaves the compacted state as it is. */
  lemma CompactKeep(s: State, f: Lit, w: nat, r: nat)
    requires f < |s.watches| && w <= r < |s.watches[f]|
    ensures var t := s.(watches := s.watches[f := s.watches[f][w := s.watches[f][r]]]);
            Compacted(t, f, w + 1, r + 1) == Compacted(s, f, w, r)
  {
    var list := s.watches[f];
    var written := list[w := list[r]];
    assert written[..w + 1] + written[r + 1..] == list[..w] + list[r..];
    var t := s.(watches := s.watches[f := written]);
    assert t.watches[f := written[..w + 1] + written[r + 1..]] == s.watches[f := list[..w] + list[r..]];
  }

  lemma CompactEntry(s: State, f: Lit, w: nat, r: nat)
    requires f < |s.watches| && w <= r < |s.watches[f]|
    ensures w < |Compacted(s, f, w, r).watches[f]| && Compacted(s, f, w, r).watches[f][w] == s.watches[f][r]
  {
  }

  lemma CompactRewrite(s: State, f: Lit, w: nat, r: nat, e: Watch, q: Ref, c: Clause)
    requires f < |s.watches| && w <= r < |s.watches[f]| && q in s.db
    ensures var t := s.(watches := s.watches[f := s.watches[f][w := e]], db := s.db[q := s.db[q].(lits := c)]);
            w < |Compacted(s, f, w, r).watches[f]|
            && Compacted(t, f, w + 1, r + 1) == Rewritten(Compacted(s, f, w, r), f, w, e, q, c)
  {
    var list := s.watches[f];
    var written := list[w := e];
    assert written[..w + 1] + written[r + 1..] == (list[..w] + list[r..])[w := e];
    var t := s.(watches := s.watches[f := written], db := s.db[q := s.db[q].(lits := c)]);
    assert t.watches[f := written[..w + 1] + written[r + 1..]]
        == s.watches[f := list[..w] + list[r..]][f := (list[..w] + list[r..])[w := e]];
  }

  lemma CompactMove(s: State, f: Lit, w: nat, r: nat, to: Lit, e: Watch, q: Ref, c: Clause)
    requires f < |s.watches| && w <= r < |s.watches[f]| && q in s.db && to < |s.watches| && to != f
    ensures var t := s.(watches := s.watches[to := s.watches[to] + [e]], db := s.db[q := s.db[q].(lits := c)]);
            w < |Compacted(s, f, w, r).watches[f]|
            && Compacted(t, f, w, r + 1) == Moved(Compacted(s, f, w, r), f, w, to, e, q, c)
  {
    var list := s.watches[f];
    var view := list[..w] + list[r..];
    assert list[..w] + list[r + 1..] == view[..w] + view[w + 1..];
    var t := s.(watches := s.watches[to := s.watches[to] + [e]], db := s.db[q := s.db[q].(lits := c)]);
    assert t.watches[f := list[..w] + list[r + 1..]]
        == s.watches[f := view][f := view[..w] + view[w + 1..]][to := s.watches[to] + [e]];
  }

  /** Assigning commutes with compaction: it does not touch the lists. */
  lemma CompactAssign(s: State, f: Lit, w: nat, r: nat, l: Lit, reason: Reason)
    requires f < |s.watches| && w <= r <= |s.watches[f]|
    requires Neg(l) < |s.values| && l < |s.values|
    requires Var(l) < |s.levels| && Var(l) < |s.reasons| && Var(l) < |s.positions|
    ensures AssignStep(s, l, reason).watches == s.watches
    ensures Compacted(AssignStep(s, l, reason), f, w, r) == AssignStep(Compacted(s, f, w, r), l, reason)
  {
  }

  /** Copying the unread tail down one entry leaves the compacted state as it is. */
  lemma CompactTable(s: State, f: Lit, w: nat, r: nat)
    requires f < |s.watches| && w <= r <= |s.watches[f]|
    ensures var t := Compacted(s, f, w, r);
            && t == s.(watches := t.watches) && |t.watches| == |s.watches|
            && (forall l: Lit ::
                  Value(t, l) == Value(s, l) && Level(t, l) == Level(s, l) && Position(t, l) == Position(s, l))
            && (forall k: nat :: Begin(t, k) == Begin(s, k))
  {
  }

  // ---------------------------------------------------------------------------------------------
  // Progress: what propagation may change
  // ---------------------------------------------------------------------------------------------

  ghost predicate SameClauses(db: Database, later: Database) {
    && later.Keys == db.Keys
    && forall r :: r in db ==> later[r].redundant == db[r].redundant && multiset(later[r].lits) == multiset(db[r].lits)
  }

  /** The trail has grown, within the current level, and clauses at most changed the order of their literals. */
  ghost predicate Progress(s: State, t: State) {
    && Extends(s, t) && t.control == s.control && t.level == s.level
    && SameClauses(s.db, t.db)
  }

  lemma ProgressExtends(s: State, t: State)
    requires Progress(s, t)
    ensures Extends(s, t) && t.control == s.control && t.level == s.level
  {
  }

  lemma ProgressTransitive(s: State, t: State, u: State)
    requires Progress(s, t) && Progress(t, u)
    ensures Progress(s, u)
  {
  }
}
