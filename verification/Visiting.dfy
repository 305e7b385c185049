/** One watch entry is read while the list of a false literal is scanned and compacted in place. */
module Visiting {
  import opened Logic
  import opened SearchState
  import opened Watching

  /** The scan of the list of `f` stands between entries: `w` written, `r` read. */
  ghost predicate Ready(s: State, f: Lit, w: nat, r: nat) {
    && f < |s.watches| && w <= r <= |s.watches[f]|
    && Scanning(Compacted(s, f, w, r), f, w)
    && Begin(s, s.level) <= Position(s, f)
  }

  /** The scan has just written, as its last entry, that of a clause it found falsified. */
  ghost predicate Blocked(s: State, f: Lit, w: nat, r: nat, q: Ref) {
    && f < |s.watches| && 0 < w <= r <= |s.watches[f]|
    && Scanning(Compacted(s, f, w, r), f, w - 1)
    && Begin(s, s.level) <= Position(s, f)
    && q in s.db && Falsified(s, s.db[q].lits) && f in s.db[q].lits && |s.db[q].lits| >= 2
  }

  ghost predicate Visited(s: State, f: Lit, w: nat, r: nat, conflict: Reason) {
    match conflict
    case NoReason => Ready(s, f, w, r)
    case Because(q) => Blocked(s, f, w, r, q)
  }

  lemma VisitedBounds(s: State, f: Lit, w: nat, r: nat, conflict: Reason)
    requires Visited(s, f, w, r, conflict)
    ensures f < |s.watches| && w <= r <= |s.watches[f]|
  {
  }

  predicate WatchedPair(c: Clause, f: Lit, other: Lit) {
    |c| >= 2 && ((c[0] == f && c[1] == other) || (c[0] == other && c[1] == f))
  }

  ghost predicate InBounds(s: State, l: Lit) {
    && l < |s.values| && Neg(l) < |s.values| && l < |s.watches| && l != NO_LITERAL
    && Var(l) < |s.levels| && Var(l) < |s.reasons| && Var(l) < |s.positions|
  }

  /** What the next entry of a scan may be relied on for. */
  lemma ReadyEntry(s: State, f: Lit, w: nat, r: nat)
    requires Ready(s, f, w, r) && r < |s.watches[f]|
    ensures Sized(s) && Value(s, f) == -1 && w <= r
    ensures EntryOk(s.db, f, s.watches[f][r])
    ensures ClauseOk(s.n, s.db[s.watches[f][r].ref].lits)
    ensures forall l :: l in s.db[s.watches[f][r].ref].lits ==> InBounds(s, l)
    ensures InBounds(s, s.watches[f][r].blocking)
    ensures forall l: Lit :: Value(s, l) == 1 || Value(s, l) == -1 || Value(s, l) == 0
  {
    var t := Compacted(s, f, w, r);
    CompactTable(s, f, w, r);
    CompactEntry(s, f, w, r);
    assert EntryOk(t.db, f, t.watches[f][w]);
    var c := s.db[s.watches[f][r].ref].lits;
    assert ClauseOk(t.n, c);
    forall l | l in c ensures InBounds(s, l) {
      ValidIsInBounds(t, l);
    }
    forall l: Lit ensures Value(s, l) == 1 || Value(s, l) == -1 || Value(s, l) == 0 {
      Assigned(t, l);
    }
  }

  lemma OtherOf(c: Clause, f: Lit)
    requires |c| >= 2 && (c[0] == f || c[1] == f)
    ensures WatchedPair(c, f, Xor(Xor(c[0], c[1]), f))
  {
    OtherWatch(c[0], c[1], f);
    if c[0] != f {
      assert Xor(Xor(c[0], c[1]), f) == c[0];
    } else {
      assert Xor(Xor(c[0], c[1]), f) == c[1];
    }
  }

  lemma SameStateProgress(s: State, t: State)
    requires t == s.(watches := t.watches)
    ensures Progress(s, t)
  {
  }

  lemma VisitKeep(s: State, f: Lit, w: nat, r: nat)
    requires Ready(s, f, w, r) && r < |s.watches[f]| && Value(s, s.watches[f][r].blocking) == 1
    ensures var t := s.(watches := s.watches[f := s.watches[f][w := s.watches[f][r]]]);
            Ready(t, f, w + 1, r + 1) && Progress(s, t)
  {
    var t := s.(watches := s.watches[f := s.watches[f][w := s.watches[f][r]]]);
    CompactKeep(s, f, w, r);
    CompactEntry(s, f, w, r);
    CompactTable(s, f, w, r);
    ScanKeep(Compacted(s, f, w, r), f, w);
    SameStateProgress(s, t);
  }

  lemma VisitBinaryConflict(s: State, f: Lit, w: nat, r: nat)
    requires Ready(s, f, w, r) && r < |s.watches[f]|
    requires s.watches[f][r].binary && Value(s, s.watches[f][r].blocking) == -1
    ensures var t := s.(watches := s.watches[f := s.watches[f][w := s.watches[f][r]]]);
            Blocked(t, f, w + 1, r + 1, s.watches[f][r].ref) && Progress(s, t)
  {
    var e := s.watches[f][r];
    var t := s.(watches := s.watches[f := s.watches[f][w := e]]);
    CompactKeep(s, f, w, r);
    CompactTable(s, f, w, r);
    ReadyEntry(s, f, w, r);
    BinaryPair(s.db, f, e);
    BlockedFrom(s, t, f, w, r, e.ref);
  }

  lemma BlockedFrom(s: State, t: State, f: Lit, w: nat, r: nat, q: Ref)
    requires t == s.(watches := t.watches) && f < |t.watches| && w <= r < |t.watches[f]|
    requires Scanning(Compacted(t, f, w + 1, r + 1), f, w)
    requires Begin(s, s.level) <= Position(s, f)
    requires q in s.db && Falsified(s, s.db[q].lits) && f in s.db[q].lits && |s.db[q].lits| >= 2
    ensures Blocked(t, f, w + 1, r + 1, q) && Progress(s, t)
  {
    assert forall l: Lit :: Value(t, l) == Value(s, l) && Position(t, l) == Position(s, l);
    SameStateProgress(s, t);
  }

  lemma BinaryPair(db: Database, f: Lit, e: Watch)
    requires EntryOk(db, f, e) && e.binary
    ensures forall l :: l in db[e.ref].lits ==> l == f || l == e.blocking
  {
    var c := db[e.ref].lits;
    assert forall l :: l in c ==> l == c[0] || l == c[1];
  }

  lemma VisitBinaryUnit(s: State, f: Lit, w: nat, r: nat)
    requires Ready(s, f, w, r) && r < |s.watches[f]|
    requires s.watches[f][r].binary && Value(s, s.watches[f][r].blocking) == 0
    ensures InBounds(s, s.watches[f][r].blocking)
    ensures var e := s.watches[f][r];
            var t := s.(watches := s.watches[f := s.watches[f][w := e]]);
            var u := AssignStep(t, e.blocking, Because(e.ref));
            Ready(u, f, w + 1, r + 1) && Progress(s, u)
  {
    var e := s.watches[f][r];
    var t := s.(watches := s.watches[f := s.watches[f][w := e]]);
    BinaryUnitView(s, t, f, w, r);
    hide Scanning, Ready, Progress, AssignStep, Extends, Value, Position, Begin, Compacted;
    AssignWritten(s, t, f, w + 1, r + 1, e.blocking, e.ref);
  }

  /** What the compacted view says of a binary clause whose other literal is open. */
  lemma BinaryUnitView(s: State, t: State, f: Lit, w: nat, r: nat)
    requires Ready(s, f, w, r) && r < |s.watches[f]|
    requires s.watches[f][r].binary && Value(s, s.watches[f][r].blocking) == 0
    requires t == s.(watches := s.watches[f := s.watches[f][w := s.watches[f][r]]])
    ensures InBounds(s, s.watches[f][r].blocking) && InBounds(t, s.watches[f][r].blocking)
    ensures Value(s, f) == -1 && Begin(s, s.level) <= Position(s, f) && f < |t.watches| && r < |t.watches[f]|
    ensures UnitView(Compacted(t, f, w + 1, r + 1), f, w, s.watches[f][r].blocking, s.watches[f][r].ref)
  {
    ReadyEntry(s, f, w, r);
    BinaryPair(s.db, f, s.watches[f][r]);
    CompactTable(s, f, w, r);
    CompactEntry(s, f, w, r);
    CompactKeep(s, f, w, r);
  }

  /** The scan stands before the entry of a clause that forces `l`. */
  ghost predicate UnitView(view: State, f: Lit, w: nat, l: Lit, q: Ref) {
    && Scanning(view, f, w) && f < |view.watches| && w < |view.watches[f]|
    && view.watches[f][w] == Watch(l, q, view.watches[f][w].binary)
    && Begin(view, view.level) <= Position(view, f) && q in view.db && Value(view, l) == 0 && l in view.db[q].lits
    && forall m :: m in view.db[q].lits && m != l ==> Value(view, m) == -1
  }

  /** Assigning once the entry has been written. */
  lemma AssignWritten(s: State, t: State, f: Lit, w: nat, r: nat, l: Lit, q: Ref)
    requires t == s.(watches := t.watches) && f < |t.watches| && 0 < w <= r <= |t.watches[f]| && InBounds(t, l)
    requires Begin(s, s.level) <= Position(s, f) && Value(s, f) == -1 && UnitView(Compacted(t, f, w, r), f, w - 1, l, q)
    ensures var u := AssignStep(t, l, Because(q));
            Ready(u, f, w, r) && Progress(s, u)
  {
    ScanAssign(Compacted(t, f, w, r), f, w - 1, l, q);
    hide Scanning, Extends;
    AssignVisited(s, t, f, w, r, l, Because(q));
  }

  /** Assigning in the scanned state and in its compacted view come to the same. */
  lemma AssignVisited(s: State, t: State, f: Lit, w: nat, r: nat, l: Lit, reason: Reason)
    requires t.n == s.n && t.trail == s.trail && t.values == s.values && t.levels == s.levels && t.reasons == s.reasons
    requires t.positions == s.positions && t.control == s.control && t.level == s.level && t.propagated == s.propagated
    requires SameClauses(s.db, t.db)
    requires f < |t.watches| && w <= r <= |t.watches[f]|
    requires Begin(s, s.level) <= Position(s, f) && Value(s, f) != 0
    requires InBounds(t, l)
    requires var view := Compacted(t, f, w, r);
             Extends(view, AssignStep(view, l, reason)) && Scanning(AssignStep(view, l, reason), f, w)
    ensures var u := AssignStep(t, l, reason);
            Ready(u, f, w, r) && Progress(s, u)
  {
    var view := Compacted(t, f, w, r);
    var u := AssignStep(t, l, reason);
    CompactAssign(t, f, w, r, l, reason);
    CompactTable(t, f, w, r);
    CompactTable(u, f, w, r);
    assert u.control == s.control && u.level == s.level && SameClauses(s.db, u.db);
    assert Begin(u, u.level) == Begin(s, s.level);
    var after := AssignStep(view, l, reason);
    assert Compacted(u, f, w, r) == after;
    assert forall m: Lit :: Value(view, m) == Value(s, m) && Level(view, m) == Level(s, m)
                            && Position(view, m) == Position(s, m) && ReasonOf(view, m) == ReasonOf(s, m);
    assert forall m: Lit :: Value(u, m) == Value(after, m) && Level(u, m) == Level(after, m)
                            && Position(u, m) == Position(after, m) && ReasonOf(u, m) == ReasonOf(after, m);
    hide AssignStep, Compacted, Value, Level, Position, ReasonOf, Scanning;
    assert Extends(s, u);
  }

  /** A true other watch becomes the blocking literal. */
  lemma VisitTrueOther(s: State, f: Lit, w: nat, r: nat, other: Lit)
    requires Ready(s, f, w, r) && r < |s.watches[f]| && !s.watches[f][r].binary
    requires s.watches[f][r].ref in s.db && WatchedPair(s.db[s.watches[f][r].ref].lits, f, other)
             && Value(s, other) == 1
    ensures var t := s.(watches := s.watches[f := s.watches[f][w := Watch(other, s.watches[f][r].ref, false)]]);
            Ready(t, f, w + 1, r + 1) && Progress(s, t)
  {
    var q := s.watches[f][r].ref;
    var e := Watch(other, q, false);
    var t := s.(watches := s.watches[f := s.watches[f][w := e]]);
    RewrittenEntry(s, f, w, r, other);
    CompactRewrite(s, f, w, r, e, q, s.db[q].lits);
    CompactTable(s, f, w, r);
    CompactEntry(s, f, w, r);
    var view := Compacted(s, f, w, r);
    assert s.db[q := s.db[q].(lits := s.db[q].lits)] == s.db;
    ScanLevel(view, f, w);
    ScanRewrite(view, f, w, e, q, s.db[q].lits);
    SameStateProgress(s, t);
  }

  lemma RewrittenEntry(s: State, f: Lit, w: nat, r: nat, other: Lit)
    requires Ready(s, f, w, r) && r < |s.watches[f]| && !s.watches[f][r].binary
    requires s.watches[f][r].ref in s.db && WatchedPair(s.db[s.watches[f][r].ref].lits, f, other)
    ensures EntryOk(s.db, f, Watch(other, s.watches[f][r].ref, false))
  {
    ReadyEntry(s, f, w, r);
    var c := s.db[s.watches[f][r].ref].lits;
    assert Var(c[0]) != Var(c[1]);
    assert c[0] in c && c[1] in c;
  }

  /** The watch moves to a later literal that is not false. */
  lemma VisitMove(s: State, f: Lit, w: nat, r: nat, other: Lit, k: nat)
    requires Ready(s, f, w, r) && r < |s.watches[f]|
    requires s.watches[f][r].ref in s.db && WatchedPair(s.db[s.watches[f][r].ref].lits, f, other)
    requires 2 <= k < |s.db[s.watches[f][r].ref].lits| && Value(s, s.db[s.watches[f][r].ref].lits[k]) != -1
    ensures var q := s.watches[f][r].ref; var to := s.db[q].lits[k];
            && to < |s.watches| && to != f
            && var t := s.(watches := s.watches[to := s.watches[to] + [Watch(other, q, false)]],
                           db := s.db[q := s.db[q].(lits := WithWatchMoved(s.db[q].lits, other, f, k))]);
            && Ready(t, f, w, r + 1) && Progress(s, t) && |t.watches[f]| == |s.watches[f]|
  {
    var q := s.watches[f][r].ref;
    var d := s.db[q].lits;
    var to := d[k];
    var view := Compacted(s, f, w, r);
    CompactTable(s, f, w, r);
    CompactEntry(s, f, w, r);
    ScanMove(view, f, w, other, k, q);
    var e := Watch(other, q, false);
    var c := WithWatchMoved(d, other, f, k);
    CompactMove(s, f, w, r, to, e, q, c);
    MovedIsReordered(d, other, f, k);
    var t := s.(watches := s.watches[to := s.watches[to] + [e]], db := s.db[q := s.db[q].(lits := c)]);
    ReorderProgress(s, t, q, c);
    assert Position(t, f) == Position(s, f) && Begin(t, t.level) == Begin(s, s.level);
  }

  lemma ReorderProgress(s: State, t: State, q: Ref, c: Clause)
    requires q in s.db && multiset(c) == multiset(s.db[q].lits)
    requires t == s.(watches := t.watches, db := s.db[q := s.db[q].(lits := c)])
    ensures Progress(s, t)
  {
  }

  /** Both watches and every other literal are false. */
  lemma VisitConflict(s: State, f: Lit, w: nat, r: nat, other: Lit)
    requires Ready(s, f, w, r) && r < |s.watches[f]| && !s.watches[f][r].binary
    requires s.watches[f][r].ref in s.db && WatchedPair(s.db[s.watches[f][r].ref].lits, f, other)
    requires Falsified(s, s.db[s.watches[f][r].ref].lits)
    ensures var t := s.(watches := s.watches[f := s.watches[f][w := Watch(other, s.watches[f][r].ref, false)]]);
            Blocked(t, f, w + 1, r + 1, s.watches[f][r].ref) && Progress(s, t)
  {
    var q := s.watches[f][r].ref;
    var e := Watch(other, q, false);
    var t := s.(watches := s.watches[f := s.watches[f][w := e]]);
    RewrittenEntry(s, f, w, r, other);
    CompactRewrite(s, f, w, r, e, q, s.db[q].lits);
    CompactTable(s, f, w, r);
    CompactEntry(s, f, w, r);
    var view := Compacted(s, f, w, r);
    assert s.db[q := s.db[q].(lits := s.db[q].lits)] == s.db;
    ScanRewrite(view, f, w, e, q, s.db[q].lits);
    BlockedFrom(s, t, f, w, r, q);
  }

  /** The state in which a visit has put the pair (other, f) first and rewritten the entry. */
  function PairFirst(s: State, f: Lit, w: nat, other: Lit, q: Ref): State
    requires f < |s.watches| && w < |s.watches[f]| && q in s.db && |s.db[q].lits| >= 2
  {
    s.(watches := s.watches[f := s.watches[f][w := Watch(other, q, false)]],
       db := s.db[q := s.db[q].(lits := s.db[q].lits[0 := other][1 := f])])
  }

  lemma VisitPairFirst(s: State, f: Lit, w: nat, r: nat, other: Lit, q: Ref)
    requires Ready(s, f, w, r) && r < |s.watches[f]| && !s.watches[f][r].binary && s.watches[f][r].ref == q
    requires q in s.db && WatchedPair(s.db[q].lits, f, other)
    ensures var t := PairFirst(s, f, w, other, q);
            && t == s.(watches := t.watches, db := t.db) && SameClauses(s.db, t.db)
            && |t.watches| == |s.watches| && |t.watches[f]| == |s.watches[f]|
                && t.watches[f][w] == Watch(other, q, false)
            && Scanning(Compacted(t, f, w + 1, r + 1), f, w)
            && q in t.db && forall l :: l in t.db[q].lits <==> l in s.db[q].lits
  {
    var d := s.db[q].lits;
    var e := Watch(other, q, false);
    var c: Clause := d[0 := other][1 := f];
    SwappedIsReordered(d, other, f);
    SameMembers(c, d);
    RewrittenEntry(s, f, w, r, other);
    CompactRewrite(s, f, w, r, e, q, c);
    CompactTable(s, f, w, r);
    CompactEntry(s, f, w, r);
    assert Scanning(Compacted(s, f, w, r), f, w) && SameClauses(s.db, s.db[q := s.db[q].(lits := c)]);
    hide Value, Position, Level, Begin, Scanning, EntryOk, ClauseOk, Ready, Falsified, WatchedPair, Reordered;
    ScanRewrite(Compacted(s, f, w, r), f, w, e, q, c);
  }

  /** Every literal but the other watch is false: it is forced. */
  lemma VisitUnit(s: State, f: Lit, w: nat, r: nat, other: Lit, q: Ref)
    requires Ready(s, f, w, r) && r < |s.watches[f]| && !s.watches[f][r].binary && s.watches[f][r].ref == q
    requires q in s.db && WatchedPair(s.db[q].lits, f, other)
    requires Value(s, other) == 0
    requires forall m :: m in s.db[q].lits && m != other ==> Value(s, m) == -1
    ensures InBounds(PairFirst(s, f, w, other, q), other)
    ensures var u := AssignStep(PairFirst(s, f, w, other, q), other, Because(q));
            Ready(u, f, w + 1, r + 1) && Progress(s, u)
  {
    ReadyEntry(s, f, w, r);
    assert other in s.db[q].lits;
    VisitPairFirst(s, f, w, r, other, q);
    hide PairFirst, Compacted, Scanning;
    UnitAssign(s, PairFirst(s, f, w, other, q), f, w, r, other, q);
  }

  lemma UnitAssign(s: State, t: State, f: Lit, w: nat, r: nat, other: Lit, q: Ref)
    requires f < |t.watches| && f < |s.watches| && w <= r < |t.watches[f]| && InBounds(t, other)
    requires t == s.(watches := t.watches, db := t.db) && SameClauses(s.db, t.db)
    requires Scanning(Compacted(t, f, w + 1, r + 1), f, w) && t.watches[f][w] == Watch(other, q, false)
    requires Begin(s, s.level) <= Position(s, f) && Value(s, other) == 0
    requires q in t.db && other in t.db[q].lits
    requires forall m :: m in t.db[q].lits && m != other ==> Value(s, m) == -1
    ensures var u := AssignStep(t, other, Because(q));
            Ready(u, f, w + 1, r + 1) && Progress(s, u)
  {
    hide SearchOk, WatchesOk, SoundBelow, EntrySound, Ready, Progress, SameClauses, AssignStep, Extends;
    var next := Compacted(t, f, w + 1, r + 1);
    CompactTable(t, f, w + 1, r + 1);
    assert next.watches[f][w] == Watch(other, q, false);
    assert forall m: Lit :: Value(t, m) == Value(s, m) && Position(t, m) == Position(s, m);
    ScanAssign(next, f, w, other, q);
    AssignVisited(s, t, f, w + 1, r + 1, other, Because(q));
  }

  // ---------------------------------------------------------------------------------------------
  // The end of a scan
  // ---------------------------------------------------------------------------------------------

  lemma ReadyDone(s: State, f: Lit, w: nat, r: nat)
    requires Ready(s, f, w, r) && r == |s.watches[f]|
    ensures var t := s.(watches := s.watches[f := s.watches[f][..w] + s.watches[f][r..]]);
            SearchOk(t) && WatchInvariant(t) && Progress(s, t)
  {
    var t := s.(watches := s.watches[f := s.watches[f][..w] + s.watches[f][r..]]);
    assert t.watches[f] == s.watches[f][..w];
    assert t == Compacted(s, f, w, r);
    ScanDone(t, f);
    SameStateProgress(s, t);
  }

  /** On a conflict the unread tail is moved down; only the literal being scanned is left unsettled. */
  lemma BlockedDone(s: State, f: Lit, w: nat, r: nat, q: Ref)
    requires Blocked(s, f, w, r, q)
    ensures var t := s.(watches := s.watches[f := s.watches[f][..w] + s.watches[f][r..]]);
            SearchOk(t) && WatchesOk(t.db, t.watches) && Progress(s, t) && ConflictFound(t, q)
  {
    var t := s.(watches := s.watches[f := s.watches[f][..w] + s.watches[f][r..]]);
    assert t == Compacted(s, f, w, r);
    CompactTable(s, f, w, r);
    ScanLevel(t, f, w - 1);
    SameStateProgress(s, t);
  }

  /** Propagation stopped at clause `q`: it is wholly false, and only the literal last taken off the queue,
      which is of the current level, is unsettled in the watch lists. */
  ghost predicate ConflictFound(s: State, q: Ref) {
    && 0 < s.propagated && SoundBelow(s, s.propagated - 1) && Begin(s, s.level) < s.propagated
    && q in s.db && Falsified(s, s.db[q].lits) && |s.db[q].lits| >= 2
    && exists l :: l in s.db[q].lits && Level(s, l) == s.level
  }

  /** Taking the next literal off the queue starts the scan of the list its negation is watched in. */
  lemma TakeFromQueue(s: State)
    requires SearchOk(s) && WatchInvariant(s) && s.propagated < |s.trail|
    ensures Neg(s.trail[s.propagated]) < |s.watches| && |s.trail| <= s.n
    ensures Ready(s.(propagated := s.propagated + 1), Neg(s.trail[s.propagated]), 0, 0)
  {
    var t := s.(propagated := s.propagated + 1);
    var f := Neg(s.trail[s.propagated]);
    TrailEntry(s, s.propagated);
    TrailFits(s);
    assert Compacted(t, f, 0, 0) == t by {
      assert t.watches[f][..0] + t.watches[f][0..] == t.watches[f];
      assert t.watches[f := t.watches[f][..0] + t.watches[f][0..]] == t.watches;
    }
    QueueMoved(s, t);
  }

  lemma QueueMoved(s: State, t: State)
    requires SearchOk(s) && s.propagated < |s.trail| && t == s.(propagated := s.propagated + 1)
    ensures SearchOk(t)
    ensures SoundBelow(s, s.propagated) ==> SoundBelow(t, t.propagated - 1)
    ensures Extends(s, t) && (forall l: Lit :: Value(t, l) == Value(s, l) && Position(t, l) == Position(s, l))
    ensures forall k: nat :: Begin(t, k) == Begin(s, k)
  {
    QueueTables(s, t);
    QueueSound(s, t);
    hide SoundBelow, Extends;
    forall i | 0 <= i < |t.trail| ensures LevelAt(t, i) && ReasonAt(t, i) {
      assert LevelAt(s, i) && ReasonAt(s, i);
    }
    forall a: nat, b: nat | a <= b ensures Begin(t, a) <= Begin(t, b) {
      BeginsOrdered(s, a, b);
    }
  }

  lemma QueueTables(s: State, t: State)
    requires t == s.(propagated := s.propagated + 1)
    ensures forall l: Lit ::
              Value(t, l) == Value(s, l) && Level(t, l) == Level(s, l) && Position(t, l) == Position(s, l)
              && ReasonOf(t, l) == ReasonOf(s, l) && OnTrail(t, l) == OnTrail(s, l)
    ensures forall k: nat :: Begin(t, k) == Begin(s, k)
    ensures Extends(s, t)
  {
  }

  lemma QueueSound(s: State, t: State)
    requires t == s.(propagated := s.propagated + 1)
    ensures SoundBelow(s, s.propagated) ==> SoundBelow(t, t.propagated - 1)
  {
    if SoundBelow(s, s.propagated) {
      forall l: nat, i: nat | l < |t.watches| && i < |t.watches[l]| && Position(t, l) < s.propagated
        ensures EntrySound(t, l, t.watches[l][i])
      {
        assert EntrySound(s, l, s.watches[l][i]);
      }
    }
  }

  lemma TakenProgress(start: State, before: State, after: State)
    requires Progress(start, before) && SearchOk(before) && before.propagated < |before.trail|
    requires Progress(before.(propagated := before.propagated + 1), after)
    ensures Progress(start, after)
  {
    QueueMoved(before, before.(propagated := before.propagated + 1));
    ProgressTransitive(start, before, before.(propagated := before.propagated + 1));
    ProgressTransitive(start, before.(propagated := before.propagated + 1), after);
  }

  lemma QueueBound(s: State)
    requires SearchOk(s)
    ensures s.propagated <= |s.trail|
  {
  }
}
