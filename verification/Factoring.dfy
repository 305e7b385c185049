/** Bounded variable addition: rectangles of clauses and what replacing one by a definition preserves. */
module Factoring {
  import opened Logic
  import opened SearchState

  // ---------------------------------------------------------------------------------------------
  // Clauses by index
  // ---------------------------------------------------------------------------------------------

  /** The clause with index `id`. */
  function ClauseAt(db: Database, refs: seq<Ref>, id: nat): Clause {
    if id < |refs| && refs[id] in db then db[refs[id]].lits else []
  }

  function Literals(c: Clause): set<Lit> {
    set l | l in c
  }

  /** The clause without one literal, in order. */
  function Without(c: Clause, l: Lit): Clause {
    if c == [] then []
    else Without(c[..|c| - 1], l) + if c[|c| - 1] == l then [] else [c[|c| - 1]]
  }

  lemma {:induction false} WithoutLiterals(c: Clause, l: Lit)
    ensures Literals(Without(c, l)) == Literals(c) - {l}
  {
    if c != [] {
      var front := c[..|c| - 1];
      WithoutLiterals(front, l);
      assert c == front + [c[|c| - 1]];
      forall m ensures m in Without(c, l) <==> m in c && m != l {
        assert m in Without(front, l) <==> m in Literals(Without(front, l));
      }
    }
  }

  /** A live permanent clause. */
  predicate LiveRef(db: Database, garbage: set<Ref>, r: Ref) {
    r in db && !db[r].redundant && r !in garbage
  }

  ghost predicate SatisfiesLive(a: Assignment, db: Database, garbage: set<Ref>) {
    forall r: Ref :: LiveRef(db, garbage, r) ==> Satisfies(a, db[r].lits)
  }

  ghost function LiveRefs(db: Database, garbage: set<Ref>): set<Ref> {
    set r | r in db && LiveRef(db, garbage, r)
  }

  /** The clauses that may take part in a rectangle, and what is kept about them. */
  ghost predicate IndexOk(db: Database, garbage: set<Ref>, refs: seq<Ref>, alive: seq<bool>, sizes: seq<nat>) {
    && |alive| == |sizes| == |refs|
    && (forall i, j :: 0 <= i < j < |refs| ==> refs[i] != refs[j])
    && (forall i :: 0 <= i < |refs| ==> refs[i] in db && !db[refs[i]].redundant && |db[refs[i]].lits| >= 2)
    && (forall i :: 0 <= i < |refs| ==> (alive[i] <==> refs[i] !in garbage) && sizes[i] == |db[refs[i]].lits|)
  }

  predicate FiledUnder(occurrences: seq<seq<nat>>, l: Lit, id: nat) {
    l < |occurrences| && id in occurrences[l]
  }

  /** Each occurrence list names, in ascending order, the clauses the literal occurs in. */
  ghost predicate OccurrencesOk(db: Database, refs: seq<Ref>, occurrences: seq<seq<nat>>) {
    && (forall l: nat, i :: l < |occurrences| && 0 <= i < |occurrences[l]| ==>
          occurrences[l][i] < |refs| && l in ClauseAt(db, refs, occurrences[l][i]))
    && (forall l: nat, i, j :: l < |occurrences| && 0 <= i < j < |occurrences[l]| ==>
        occurrences[l][i] < occurrences[l][j])
    && (forall i: nat, l: Lit :: i < |refs| && l in ClauseAt(db, refs, i) ==> FiledUnder(occurrences, l, i))
  }

  /** Every clause held has distinct variables, none above `highest`. */
  ghost predicate StoreOk(db: Database, highest: nat) {
    forall r :: r in db && !db[r].redundant ==> ClauseOk(highest, db[r].lits)
  }

  /** The scratch tables cover every literal, and no literal is marked. */
  ghost predicate Clear(slots: nat, marks: seq<bool>, selectedMarks: seq<bool>, counts: seq<nat>) {
    && |marks| == |selectedMarks| == |counts| == slots
    && (forall l :: 0 <= l < |marks| ==> !marks[l])
    && (forall l :: 0 <= l < |selectedMarks| ==> !selectedMarks[l])
  }

  /** The lists once clause `id` is filed under its literals. */
  ghost predicate Filed(before: seq<seq<nat>>, after: seq<seq<nat>>, lits: Clause, id: nat) {
    && |after| >= |before| && (forall l :: l in lits ==> l < |after|)
    && forall l: nat :: l < |after| ==>
         after[l] == (if l < |before| then before[l] else []) + (if l in lits then [id] else [])
  }

  lemma FiledNothing(before: seq<seq<nat>>, id: nat)
    ensures Filed(before, before, [], id)
  {
  }

  /** One more literal is filed, in lists that may have been lengthened for it. */
  lemma FiledMore(start: seq<seq<nat>>, before: seq<seq<nat>>, longer: seq<seq<nat>>, lits: Clause, i: nat, id: nat)
    requires i < |lits| && Filed(start, before, lits[..i], id)
             && (forall j, k :: 0 <= j < k < |lits| ==> lits[j] != lits[k])
    requires |longer| >= |before| && lits[i] < |longer|
    requires forall l: nat :: l < |longer| ==> longer[l] == if l < |before| then before[l] else []
    ensures Filed(start, longer[lits[i] := longer[lits[i]] + [id]], lits[..i + 1], id)
  {
    assert lits[..i + 1] == lits[..i] + [lits[i]] && lits[i] !in lits[..i];
  }

  lemma RegisteredOk(db: Database, garbage: set<Ref>, refs: seq<Ref>, alive: seq<bool>, sizes: seq<nat>,
                     occurrences: seq<seq<nat>>, ref: Ref, after: seq<seq<nat>>)
    requires IndexOk(db, garbage, refs, alive, sizes) && OccurrencesOk(db, refs, occurrences)
    requires LiveRef(db, garbage, ref) && |db[ref].lits| >= 2 && ref !in refs
    requires Filed(occurrences, after, db[ref].lits, |refs|)
    ensures IndexOk(db, garbage, refs + [ref], alive + [true], sizes + [|db[ref].lits|])
    ensures OccurrencesOk(db, refs + [ref], after)
  {
    assert forall i :: 0 <= i < |refs| ==> refs[i] in refs;
    FiledOk(db, refs, occurrences, ref, after);
  }

  lemma FiledOk(db: Database, refs: seq<Ref>, occurrences: seq<seq<nat>>, ref: Ref, after: seq<seq<nat>>)
    requires OccurrencesOk(db, refs, occurrences) && ref in db && forall i :: 0 <= i < |refs| ==> refs[i] in db
    requires Filed(occurrences, after, db[ref].lits, |refs|)
    ensures OccurrencesOk(db, refs + [ref], after)
  {
    forall l: nat, i | l < |after| && 0 <= i < |after[l]|
      ensures after[l][i] < |refs| + 1 && l in ClauseAt(db, refs + [ref], after[l][i])
    {
      if l < |occurrences| && i < |occurrences[l]| {
        assert after[l][i] == occurrences[l][i];
        assert ClauseAt(db, refs + [ref], after[l][i]) == ClauseAt(db, refs, after[l][i]);
      } else {
        assert after[l][i] == |refs| && l in db[ref].lits;
      }
    }
    FiledAscends(db, refs, occurrences, ref, after);
    FiledAll(db, refs, occurrences, ref, after);
  }

  lemma FiledAll(db: Database, refs: seq<Ref>, occurrences: seq<seq<nat>>, ref: Ref, after: seq<seq<nat>>)
    requires OccurrencesOk(db, refs, occurrences) && ref in db && forall i :: 0 <= i < |refs| ==> refs[i] in db
    requires Filed(occurrences, after, db[ref].lits, |refs|)
    ensures forall i: nat, l: Lit :: i < |refs| + 1 && l in ClauseAt(db, refs + [ref], i) ==> FiledUnder(after, l, i)
  {
    forall i: nat, l: Lit | i < |refs| + 1 && l in ClauseAt(db, refs + [ref], i) ensures FiledUnder(after, l, i) {
      if i < |refs| {
        assert ClauseAt(db, refs + [ref], i) == ClauseAt(db, refs, i);
        assert FiledUnder(occurrences, l, i);
        var k :| 0 <= k < |occurrences[l]| && occurrences[l][k] == i;
        assert after[l][k] == i;
      } else {
        assert after[l][|after[l]| - 1] == i;
      }
    }
  }

  lemma FiledAscends(db: Database, refs: seq<Ref>, occurrences: seq<seq<nat>>, ref: Ref, after: seq<seq<nat>>)
    requires OccurrencesOk(db, refs, occurrences) && ref in db && Filed(occurrences, after, db[ref].lits, |refs|)
    ensures forall l: nat, i, j :: l < |after| && 0 <= i < j < |after[l]| ==> after[l][i] < after[l][j]
  {
    hide ClauseAt;
    forall l: nat, i, j | l < |after| && 0 <= i < j < |after[l]| ensures after[l][i] < after[l][j] {
      if l < |occurrences| && j < |occurrences[l]| {
        assert occurrences[l][i] < occurrences[l][j];
      } else {
        assert after[l][i] == occurrences[l][i];
      }
    }
  }

  /** One clause more in the store, not indexed yet. */
  lemma StoredOk(db: Database, garbage: set<Ref>, refs: seq<Ref>, alive: seq<bool>, sizes: seq<nat>,
                 occurrences: seq<seq<nat>>, ref: Ref, e: Entry)
    requires IndexOk(db, garbage, refs, alive, sizes) && OccurrencesOk(db, refs, occurrences) && ref !in db
    ensures IndexOk(db[ref := e], garbage, refs, alive, sizes) && OccurrencesOk(db[ref := e], refs, occurrences)
    ensures ref !in refs
  {
    forall i | 0 <= i < |refs| ensures ClauseAt(db[ref := e], refs, i) == ClauseAt(db, refs, i) {
    }
    forall i: nat, l: Lit | i < |refs| && l in ClauseAt(db[ref := e], refs, i) ensures FiledUnder(occurrences, l, i) {
      assert ClauseAt(db[ref := e], refs, i) == ClauseAt(db, refs, i);
      assert l in ClauseAt(db, refs, i);
    }
  }

  // ---------------------------------------------------------------------------------------------
  // Rectangles
  // ---------------------------------------------------------------------------------------------

  function Body(db: Database, refs: seq<Ref>, anchor: Lit, row: nat): set<Lit> {
    Literals(ClauseAt(db, refs, row)) - {anchor}
  }

  /** The clause of a row and column: the row's body with the column's literal in place of the anchor. */
  ghost predicate CellOk(db: Database, refs: seq<Ref>, alive: seq<bool>, anchor: Lit, row: nat, l: Lit, id: nat) {
    && id < |refs| && id < |alive| && alive[id]
    && Literals(ClauseAt(db, refs, id)) == Body(db, refs, anchor, row) + {l}
    && l !in Body(db, refs, anchor, row)
  }

  /** The position of a row and column in the matched table. */
  function Cell(row: nat, width: nat, column: nat): nat {
    row * width + column
  }

  lemma TimesOrdered(a: nat, b: nat, width: nat)
    ensures a <= b ==> a * width <= b * width
  {
  }

  lemma CellBound(row: nat, rows: nat, width: nat, column: nat)
    requires row < rows && column < width
    ensures Cell(row, width, column) < rows * width
  {
    assert (row + 1) * width <= rows * width;
  }

  ghost predicate RectangleOk(db: Database, refs: seq<Ref>, alive: seq<bool>, anchor: Lit, rows: seq<nat>,
                              selected: seq<Lit>, matched: seq<nat>) {
    && |matched| == |rows| * |selected| && |selected| >= 1 && selected[0] == anchor
    && (forall c, d :: 0 <= c < d < |selected| ==> selected[c] != selected[d])
    && (forall r, s :: 0 <= r < s < |rows| ==> rows[r] < rows[s])
    && (forall r :: 0 <= r < |rows| ==>
        rows[r] < |refs| && rows[r] < |alive| && alive[rows[r]] && anchor in ClauseAt(db, refs, rows[r]))
    && (forall r: nat, c: nat :: r < |rows| && c < |selected| && Cell(r, |selected|, c) < |matched| ==>
          CellOk(db, refs, alive, anchor, rows[r], selected[c], matched[Cell(r, |selected|, c)]))
  }

  /** The clauses of the rectangle. */
  ghost function CellRefs(refs: seq<Ref>, matched: seq<nat>): set<Ref> {
    set k | 0 <= k < |matched| && matched[k] < |refs| :: refs[matched[k]]
  }

  /** What applying the rectangle leaves: the definition of `added`, the factored bodies, and the rest as it was. */
  ghost predicate Applied(db: Database, garbage: set<Ref>, refs: seq<Ref>, anchor: Lit, rows: seq<nat>,
                          selected: seq<Lit>, matched: seq<nat>, added: nat, next: Ref, db': Database,
                          garbage': set<Ref>) {
    && (forall r :: r in db' <==> r in db || next <= r < next + |selected| + |rows|)
    && (forall r :: r in db ==> r < next && db'[r] == db[r])
    && (forall c :: 0 <= c < |selected| ==> DefinitionAt(db', next, added, selected, c))
    && (forall r :: 0 <= r < |rows| ==> BodyAt(db', db, refs, next, added, anchor, selected, rows, r))
    && garbage' == garbage + CellRefs(refs, matched) && (forall g :: g in garbage ==> g in db)
  }

  ghost predicate DefinitionAt(db': Database, next: Ref, added: nat, selected: seq<Lit>, c: nat)
    requires c < |selected|
  {
    next + c in db' && db'[next + c] == Entry([MakeLit(added, true), selected[c]], false)
  }

  ghost predicate BodyAt(db': Database, db: Database, refs: seq<Ref>, next: Ref, added: nat, anchor: Lit,
                         selected: seq<Lit>, rows: seq<nat>, r: nat)
    requires r < |rows|
  {
    && next + |selected| + r in db'
    && db'[next + |selected| + r] == Entry([MakeLit(added, false)] + Without(ClauseAt(db, refs, rows[r]), anchor),
                                           false)
  }

  // ---------------------------------------------------------------------------------------------
  // Soundness of one application
  // ---------------------------------------------------------------------------------------------

  /** A deleted clause is a resolvent of a definition and a factored body. */
  lemma CellFollows(a: Assignment, db: Database, refs: seq<Ref>, alive: seq<bool>, anchor: Lit, row: nat, l: Lit,
                    id: nat, added: nat)
    requires CellOk(db, refs, alive, anchor, row, l, id)
    requires Satisfies(a, [MakeLit(added, true), l])
    requires Satisfies(a, [MakeLit(added, false)] + Without(ClauseAt(db, refs, row), anchor))
    ensures Satisfies(a, ClauseAt(db, refs, id))
  {
    var c := ClauseAt(db, refs, id);
    WithoutLiterals(ClauseAt(db, refs, row), anchor);
    var m :| m in [MakeLit(added, false)] + Without(ClauseAt(db, refs, row), anchor) && Holds(a, m);
    if m == MakeLit(added, false) {
      var k :| k in [MakeLit(added, true), l] && Holds(a, k);
      assert k == l;
      assert l in Literals(c);
    } else {
      assert m in Literals(Without(ClauseAt(db, refs, row), anchor));
      assert m in Literals(c);
    }
  }

  lemma CellIndex(refs: seq<Ref>, matched: seq<nat>, rows: nat, width: nat, r: Ref) returns (row: nat, column: nat)
    requires r in CellRefs(refs, matched) && |matched| == rows * width && width >= 1
    ensures row < rows && column < width && Cell(row, width, column) < |matched|
    ensures matched[Cell(row, width, column)] < |refs| && refs[matched[Cell(row, width, column)]] == r
  {
    var k :| 0 <= k < |matched| && matched[k] < |refs| && refs[matched[k]] == r;
    row, column := k / width, k % width;
    assert k == row * width + column;
    TimesOrdered(rows, row, width);
  }

  /** Every model of the new clauses is a model of the old ones. */
  lemma NewImpliesOld(a: Assignment, db: Database, garbage: set<Ref>, refs: seq<Ref>, alive: seq<bool>, anchor: Lit,
                      rows: seq<nat>, selected: seq<Lit>, matched: seq<nat>, added: nat, next: Ref, db': Database,
                      garbage': set<Ref>)
    requires RectangleOk(db, refs, alive, anchor, rows, selected, matched)
    requires Applied(db, garbage, refs, anchor, rows, selected, matched, added, next, db', garbage')
    requires forall i :: 0 <= i < |refs| ==> refs[i] in db
    requires SatisfiesLive(a, db', garbage')
    ensures SatisfiesLive(a, db, garbage)
  {
    forall r: Ref | LiveRef(db, garbage, r) ensures Satisfies(a, db[r].lits) {
      if r in CellRefs(refs, matched) {
        var row, column := CellIndex(refs, matched, |rows|, |selected|, r);
        assert DefinitionAt(db', next, added, selected, column);
        assert BodyAt(db', db, refs, next, added, anchor, selected, rows, row);
        NewIsLive(db, garbage, refs, matched, next + column, garbage');
        NewIsLive(db, garbage, refs, matched, next + |selected| + row, garbage');
        assert LiveRef(db', garbage', next + column) && LiveRef(db', garbage', next + |selected| + row);
        assert CellOk(db, refs, alive, anchor, rows[row], selected[column], matched[Cell(row, |selected|, column)]);
        CellFollows(a, db, refs, alive, anchor, rows[row], selected[column], matched[Cell(row, |selected|, column)],
                    added);
      } else {
        assert LiveRef(db', garbage', r);
      }
    }
  }

  /** What has just been added is not garbage. */
  lemma NewIsLive(db: Database, garbage: set<Ref>, refs: seq<Ref>, matched: seq<nat>, r: Ref, garbage': set<Ref>)
    requires garbage' == garbage + CellRefs(refs, matched) && r !in db
    requires (forall g :: g in garbage ==> g in db) && forall i :: 0 <= i < |refs| ==> refs[i] in db
    ensures r !in garbage'
  {
  }

  /** The fresh variable means: every literal of the group holds. */
  ghost function WithGroup(a: Assignment, added: nat, selected: seq<Lit>): Assignment {
    if forall c :: 0 <= c < |selected| ==> Holds(a, selected[c]) then a + iset{added} else a - iset{added}
  }

  lemma GroupKeeps(a: Assignment, added: nat, selected: seq<Lit>, l: Lit)
    requires Var(l) != added
    ensures Holds(WithGroup(a, added, selected), l) <==> Holds(a, l)
  {
  }

  /** Every model of the old clauses extends to one of the new ones: the fresh variable is the group's conjunction. */
  lemma OldExtendsToNew(a: Assignment, db: Database, garbage: set<Ref>, refs: seq<Ref>, alive: seq<bool>,
                        sizes: seq<nat>, anchor: Lit, rows: seq<nat>, selected: seq<Lit>, matched: seq<nat>, added: nat,
                        next: Ref, db': Database, garbage': set<Ref>)
    requires RectangleOk(db, refs, alive, anchor, rows, selected, matched) && IndexOk(db, garbage, refs, alive, sizes)
    requires Applied(db, garbage, refs, anchor, rows, selected, matched, added, next, db', garbage')
    requires forall r, l :: r in db && !db[r].redundant && l in db[r].lits ==> Var(l) != added
    requires forall c :: 0 <= c < |selected| ==> Var(selected[c]) != added
    requires SatisfiesLive(a, db, garbage)
    ensures SatisfiesLive(WithGroup(a, added, selected), db', garbage')
  {
    var b := WithGroup(a, added, selected);
    forall r: Ref | LiveRef(db', garbage', r) ensures Satisfies(b, db'[r].lits) {
      if r in db {
        assert LiveRef(db, garbage, r);
        var l :| l in db[r].lits && Holds(a, l);
        GroupKeeps(a, added, selected, l);
      } else if r < next + |selected| {
        var c := r - next;
        assert DefinitionAt(db', next, added, selected, c);
        GroupKeeps(a, added, selected, selected[c]);
        DefinitionHolds(a, added, selected, c);
      } else {
        var k := r - next - |selected|;
        assert BodyAt(db', db, refs, next, added, anchor, selected, rows, k);
        FactoredHolds(a, db, garbage, refs, alive, sizes, anchor, rows, selected, matched, added, k);
      }
    }
  }

  lemma DefinitionHolds(a: Assignment, added: nat, selected: seq<Lit>, c: nat)
    requires c < |selected| && Var(selected[c]) != added
    ensures Satisfies(WithGroup(a, added, selected), [MakeLit(added, true), selected[c]])
  {
    var b := WithGroup(a, added, selected);
    GroupKeeps(a, added, selected, selected[c]);
    var d := [MakeLit(added, true), selected[c]];
    assert d[0] in d && d[1] in d;
    if added in b {
      assert Holds(a, selected[c]);
    } else {
      assert Holds(b, d[0]);
    }
  }

  lemma FactoredHolds(a: Assignment, db: Database, garbage: set<Ref>, refs: seq<Ref>, alive: seq<bool>, sizes: seq<nat>,
                      anchor: Lit, rows: seq<nat>, selected: seq<Lit>, matched: seq<nat>, added: nat, k: nat)
    requires RectangleOk(db, refs, alive, anchor, rows, selected, matched) && IndexOk(db, garbage, refs, alive, sizes)
             && k < |rows|
    requires forall r, l :: r in db && !db[r].redundant && l in db[r].lits ==> Var(l) != added
    requires SatisfiesLive(a, db, garbage)
    ensures Satisfies(WithGroup(a, added, selected),
                      [MakeLit(added, false)] + Without(ClauseAt(db, refs, rows[k]), anchor))
  {
    var b := WithGroup(a, added, selected);
    var d := [MakeLit(added, false)] + Without(ClauseAt(db, refs, rows[k]), anchor);
    assert d[0] in d;
    if added in b {
      assert Holds(b, d[0]);
    } else {
      var c :| 0 <= c < |selected| && !Holds(a, selected[c]);
      CellBound(k, |rows|, |selected|, c);
      var id := matched[Cell(k, |selected|, c)];
      assert CellOk(db, refs, alive, anchor, rows[k], selected[c], id);
      assert LiveRef(db, garbage, refs[id]);
      var m :| m in ClauseAt(db, refs, id) && Holds(a, m);
      assert m in Literals(ClauseAt(db, refs, id));
      WithoutLiterals(ClauseAt(db, refs, rows[k]), anchor);
      assert m in Literals(Without(ClauseAt(db, refs, rows[k]), anchor));
      GroupKeeps(a, added, selected, m);
    }
  }

  // ---------------------------------------------------------------------------------------------
  // The number of clauses
  // ---------------------------------------------------------------------------------------------

  /** How many clauses a rectangle of this size saves. */
  function Saving(literals: nat, bodies: nat): int {
    literals * bodies - literals - bodies
  }

  /** No two live indexed clauses have the same literals. */
  ghost predicate NoDuplicates(db: Database, refs: seq<Ref>, alive: seq<bool>) {
    forall i, j :: 0 <= i < j < |refs| && j < |alive| && alive[i] && alive[j] ==>
      Literals(ClauseAt(db, refs, i)) != Literals(ClauseAt(db, refs, j))
  }

  /** Without duplicates the cells of a rectangle are different clauses. */
  lemma CellsDiffer(db: Database, refs: seq<Ref>, alive: seq<bool>, anchor: Lit, rows: seq<nat>, selected: seq<Lit>,
                    matched: seq<nat>, r: nat, c: nat, s: nat, d: nat)
    requires RectangleOk(db, refs, alive, anchor, rows, selected, matched) && NoDuplicates(db, refs, alive)
    requires r < |rows| && s < |rows| && c < |selected| && d < |selected|
    requires Cell(r, |selected|, c) < |matched| && Cell(s, |selected|, d) < |matched|
    requires matched[Cell(r, |selected|, c)] == matched[Cell(s, |selected|, d)]
    ensures r == s && c == d
  {
    var w := |selected|;
    assert CellOk(db, refs, alive, anchor, rows[r], selected[c], matched[Cell(r, w, c)]);
    assert CellOk(db, refs, alive, anchor, rows[s], selected[d], matched[Cell(s, w, d)]);
    CellBound(r, |rows|, w, d);
    assert CellOk(db, refs, alive, anchor, rows[r], selected[d], matched[Cell(r, w, d)]);
    OneExtra(Body(db, refs, anchor, rows[r]), Body(db, refs, anchor, rows[s]), selected[c], selected[d]);
    assert c == d;
    SameBodies(db, refs, alive, anchor, rows[r], rows[s], selected[c]);
  }

  lemma OneExtra(b: set<Lit>, b': set<Lit>, x: Lit, y: Lit)
    requires b + {x} == b' + {y} && y !in b
    ensures x == y
  {
    assert y in b + {x};
  }

  lemma SameBodies(db: Database, refs: seq<Ref>, alive: seq<bool>, anchor: Lit, row: nat, row': nat, l: Lit)
    requires NoDuplicates(db, refs, alive) && row < |refs| && row' < |refs| && row < |alive| && row' < |alive|
    requires alive[row] && alive[row'] && anchor in ClauseAt(db, refs, row) && anchor in ClauseAt(db, refs, row')
    requires l !in Body(db, refs, anchor, row) && l !in Body(db, refs, anchor, row')
    requires Body(db, refs, anchor, row) + {l} == Body(db, refs, anchor, row') + {l}
    ensures row == row'
  {
    var b, b' := Body(db, refs, anchor, row), Body(db, refs, anchor, row');
    assert b == b + {l} - {l} && b' == b' + {l} - {l};
    assert Literals(ClauseAt(db, refs, row)) == b + {anchor};
    assert Literals(ClauseAt(db, refs, row')) == b' + {anchor};
  }

  /** As many references as there are different cells. */
  lemma {:induction false} CellCount(refs: seq<Ref>, matched: seq<nat>, k: nat)
    requires k <= |matched| && forall i :: 0 <= i < |matched| ==> matched[i] < |refs|
    requires forall i, j :: 0 <= i < j < |matched| ==> refs[matched[i]] != refs[matched[j]]
    ensures |CellRefs(refs, matched[..k])| == k
  {
    if k > 0 {
      CellCount(refs, matched, k - 1);
      var shorter, longer := matched[..k - 1], matched[..k];
      assert longer == shorter + [matched[k - 1]];
      OneMoreCell(refs, shorter, matched[k - 1]);
      forall r | r in CellRefs(refs, shorter) ensures r != refs[matched[k - 1]] {
        var i :| 0 <= i < |shorter| && shorter[i] < |refs| && refs[shorter[i]] == r;
        assert shorter[i] == matched[i];
      }
    }
  }

  lemma OneMoreCell(refs: seq<Ref>, matched: seq<nat>, id: nat)
    requires id < |refs|
    ensures CellRefs(refs, matched + [id]) == CellRefs(refs, matched) + {refs[id]}
  {
    var longer := matched + [id];
    forall r ensures r in CellRefs(refs, longer) <==> r in CellRefs(refs, matched) || r == refs[id] {
      if r in CellRefs(refs, matched) {
        var i :| 0 <= i < |matched| && matched[i] < |refs| && refs[matched[i]] == r;
        assert longer[i] == matched[i];
      }
      assert longer[|matched|] == id;
    }
  }

  lemma RectangleCount(db: Database, refs: seq<Ref>, alive: seq<bool>, garbage: set<Ref>, sizes: seq<nat>, anchor: Lit,
                       rows: seq<nat>, selected: seq<Lit>, matched: seq<nat>)
    requires RectangleOk(db, refs, alive, anchor, rows, selected, matched) && NoDuplicates(db, refs, alive)
    requires IndexOk(db, garbage, refs, alive, sizes)
    ensures |CellRefs(refs, matched)| == |rows| * |selected|
    ensures CellRefs(refs, matched) <= LiveRefs(db, garbage)
  {
    var w := |selected|;
    forall i | 0 <= i < |matched| ensures matched[i] < |refs| && LiveRef(db, garbage, refs[matched[i]]) {
      var r, c := CellOf(i, |rows|, w);
      assert CellOk(db, refs, alive, anchor, rows[r], selected[c], matched[Cell(r, w, c)]);
    }
    forall i, j | 0 <= i < j < |matched| ensures refs[matched[i]] != refs[matched[j]] {
      if matched[i] == matched[j] {
        var r, c := CellOf(i, |rows|, w);
        var s, d := CellOf(j, |rows|, w);
        CellsDiffer(db, refs, alive, anchor, rows, selected, matched, r, c, s, d);
      }
    }
    CellCount(refs, matched, |matched|);
    assert matched[..|matched|] == matched;
  }

  lemma CellOf(k: nat, rows: nat, width: nat) returns (row: nat, column: nat)
    requires k < rows * width && width >= 1
    ensures row < rows && column < width && Cell(row, width, column) == k
  {
    row, column := k / width, k % width;
    assert k == row * width + column;
    TimesOrdered(rows, row, width);
  }

  /** An application changes the number of live clauses by exactly the rectangle's saving. */
  lemma ClausesSaved(db: Database, garbage: set<Ref>, refs: seq<Ref>, alive: seq<bool>, sizes: seq<nat>, anchor: Lit,
                     rows: seq<nat>, selected: seq<Lit>, matched: seq<nat>, added: nat, next: Ref, db': Database,
                     garbage': set<Ref>)
    requires RectangleOk(db, refs, alive, anchor, rows, selected, matched) && NoDuplicates(db, refs, alive)
    requires IndexOk(db, garbage, refs, alive, sizes)
    requires Applied(db, garbage, refs, anchor, rows, selected, matched, added, next, db', garbage')
    ensures |LiveRefs(db', garbage')| == |LiveRefs(db, garbage)| - Saving(|selected|, |rows|)
  {
    RectangleCount(db, refs, alive, garbage, sizes, anchor, rows, selected, matched);
    var before, gone := LiveRefs(db, garbage), CellRefs(refs, matched);
    var entered := Range(next, |selected| + |rows|);
    RangeSize(next, |selected| + |rows|);
    forall r: Ref ensures r in LiveRefs(db', garbage') <==> r in before - gone || r in entered {
      LiveAfter(db, refs, anchor, rows, selected, matched, garbage, added, next, db', garbage', r);
    }
    assert forall r :: r in entered ==> r !in db;
    SwapSize(LiveRefs(db', garbage'), before, gone, entered);
  }

  lemma SwapSize(after: set<Ref>, before: set<Ref>, gone: set<Ref>, entered: set<Ref>)
    requires gone <= before && before !! entered && forall r: Ref :: r in after <==> r in before - gone || r in entered
    ensures |after| == |before| - |gone| + |entered|
  {
    assert after == (before - gone) + entered;
    assert before == (before - gone) + gone;
  }

  lemma LiveAfter(db: Database, refs: seq<Ref>, anchor: Lit, rows: seq<nat>, selected: seq<Lit>, matched: seq<nat>,
                  garbage: set<Ref>, added: nat, next: Ref, db': Database, garbage': set<Ref>, r: Ref)
    requires Applied(db, garbage, refs, anchor, rows, selected, matched, added, next, db', garbage')
    requires forall i :: 0 <= i < |refs| ==> refs[i] in db
    ensures r in LiveRefs(db', garbage') <==>
              r in LiveRefs(db, garbage) - CellRefs(refs, matched) || next <= r < next + |selected| + |rows|
  {
    if next <= r < next + |selected| + |rows| {
      NewEntry(db, refs, anchor, rows, selected, matched, garbage, added, next, db', garbage', r);
      NewIsLive(db, garbage, refs, matched, r, garbage');
    }
  }

  lemma NewEntry(db: Database, refs: seq<Ref>, anchor: Lit, rows: seq<nat>, selected: seq<Lit>, matched: seq<nat>,
                 garbage: set<Ref>, added: nat, next: Ref, db': Database, garbage': set<Ref>, r: Ref)
    requires Applied(db, garbage, refs, anchor, rows, selected, matched, added, next, db', garbage')
    requires next <= r < next + |selected| + |rows|
    ensures r in db' && !db'[r].redundant && r !in db
  {
    if r < next + |selected| {
      assert DefinitionAt(db', next, added, selected, r - next);
    } else {
      assert BodyAt(db', db, refs, next, added, anchor, selected, rows, r - next - |selected|);
    }
  }

  function Range(from: nat, count: nat): set<nat> {
    if count == 0 then {} else Range(from, count - 1) + {from + count - 1}
  }

  lemma {:induction false} RangeSize(from: nat, count: nat)
    ensures |Range(from, count)| == count && forall r: nat :: r in Range(from, count) <==> from <= r < from + count
  {
    if count > 0 {
      RangeSize(from, count - 1);
    }
  }

  // ---------------------------------------------------------------------------------------------
  // Growing a rectangle
  // ---------------------------------------------------------------------------------------------

  /** One more row with its cells. */
  lemma AddRow(db: Database, refs: seq<Ref>, alive: seq<bool>, anchor: Lit, rows: seq<nat>, selected: seq<Lit>,
               matched: seq<nat>, row: nat, cells: seq<nat>)
    requires RectangleOk(db, refs, alive, anchor, rows, selected, matched) && |cells| == |selected|
    requires row < |refs| && row < |alive| && alive[row] && anchor in ClauseAt(db, refs, row)
    requires forall r :: 0 <= r < |rows| ==> rows[r] < row
    requires forall c :: 0 <= c < |selected| ==> CellOk(db, refs, alive, anchor, row, selected[c], cells[c])
    ensures RectangleOk(db, refs, alive, anchor, rows + [row], selected, matched + cells)
  {
    var w := |selected|;
    assert |matched + cells| == (|rows| + 1) * w;
    forall r: nat, c: nat | r < |rows| + 1 && c < w && Cell(r, w, c) < |matched + cells|
      ensures CellOk(db, refs, alive, anchor, (rows + [row])[r], selected[c], (matched + cells)[Cell(r, w, c)])
    {
      if r < |rows| {
        CellBound(r, |rows|, w, c);
      } else {
        assert Cell(r, w, c) == |matched| + c;
      }
    }
  }

  /** A rectangle of one column: the anchor's own clauses. */
  lemma FirstColumn(db: Database, refs: seq<Ref>, alive: seq<bool>, anchor: Lit, rows: seq<nat>)
    requires forall r, s :: 0 <= r < s < |rows| ==> rows[r] < rows[s]
    requires forall r :: 0 <= r < |rows| ==>
               rows[r] < |refs| && rows[r] < |alive| && alive[rows[r]] && anchor in ClauseAt(db, refs, rows[r])
    ensures RectangleOk(db, refs, alive, anchor, rows, [anchor], rows)
  {
    forall r | 0 <= r < |rows| ensures CellOk(db, refs, alive, anchor, rows[r], anchor, rows[r]) {
      assert anchor in Literals(ClauseAt(db, refs, rows[r]));
    }
  }

  lemma EmptyRectangle(db: Database, refs: seq<Ref>, alive: seq<bool>, anchor: Lit, selected: seq<Lit>)
    requires |selected| >= 1 && selected[0] == anchor
             && forall c, d :: 0 <= c < d < |selected| ==> selected[c] != selected[d]
    ensures RectangleOk(db, refs, alive, anchor, [], selected, [])
  {
  }

  /** No rows yet, for a group with one more literal. */
  lemma EmptyWider(db: Database, refs: seq<Ref>, alive: seq<bool>, anchor: Lit, rows: seq<nat>, selected: seq<Lit>,
                   matched: seq<nat>, partner: Lit)
    requires RectangleOk(db, refs, alive, anchor, rows, selected, matched) && partner !in selected
    ensures RectangleOk(db, refs, alive, anchor, [], selected + [partner], [])
  {
    WiderGroup(selected, partner);
    EmptyRectangle(db, refs, alive, anchor, selected + [partner]);
  }

  /** A clause that pairs with a row: the row's body and one more literal. */
  datatype Match = Match(row: nat, lit: Lit, clause: nat)

  /** The clause of a match is the row's body with the literal, which may join the group. */
  ghost predicate MatchOk(db: Database, refs: seq<Ref>, alive: seq<bool>, anchor: Lit, rows: seq<nat>,
                          selected: seq<Lit>, m: Match) {
    && m.row < |rows| && CellOk(db, refs, alive, anchor, rows[m.row], m.lit, m.clause)
    && m.lit !in selected && Var(m.lit) != Var(anchor) && Neg(m.lit) !in Body(db, refs, anchor, rows[m.row])
  }

  function CountOf(matches: seq<Match>, l: Lit): nat {
    if matches == [] then 0
    else CountOf(matches[..|matches| - 1], l) + if matches[|matches| - 1].lit == l then 1 else 0
  }

  lemma CountMore(matches: seq<Match>, m: Match, l: Lit)
    ensures CountOf(matches + [m], l) == CountOf(matches, l) + if m.lit == l then 1 else 0
  {
    assert (matches + [m])[..|matches|] == matches;
  }

  /** How many of the first `k` literals are marked. */
  ghost function MarkedCount(marks: seq<bool>, c: Clause, k: nat): nat
    requires k <= |c|
  {
    if k == 0 then 0 else MarkedCount(marks, c, k - 1) + if c[k - 1] < |marks| && marks[c[k - 1]] then 1 else 0
  }

  /** The literals of the first `k` places that are marked are counted, and the last one that is not is known. */
  ghost predicate Marked(marks: seq<bool>, c: Clause, k: nat, marked: nat, extra: Lit)
    requires k <= |c|
  {
    && marked == MarkedCount(marks, c, k) <= k
    && (marked < k ==> extra < |marks| && !marks[extra] && exists i :: 0 <= i < k && c[i] == extra)
    && (marked == k ==> forall i :: 0 <= i < k ==> c[i] < |marks| && marks[c[i]])
    && (marked + 1 == k ==>
          && (exists i :: 0 <= i < k && c[i] == extra) && extra < |marks| && !marks[extra]
          && forall i :: 0 <= i < k && c[i] != extra ==> c[i] < |marks| && marks[c[i]])
  }

  lemma LiteralsSize(n: nat, c: Clause)
    requires ClauseOk(n, c)
    ensures |Literals(c)| == |c|
  {
    forall i, j | 0 <= i < j < |c| ensures c[i] != c[j] {
      assert Var(c[i]) != Var(c[j]);
    }
    PrefixSize(c, |c|);
    assert c[..|c|] == c;
  }

  lemma {:induction false} PrefixSize(c: Clause, k: nat)
    requires k <= |c| && forall i, j :: 0 <= i < j < |c| ==> c[i] != c[j]
    ensures |Literals(c[..k])| == k
  {
    if k > 0 {
      PrefixSize(c, k - 1);
      PrefixMore(c, k - 1);
      assert c[k - 1] !in Literals(c[..k - 1]);
    }
  }

  lemma PrefixMore(c: Clause, k: nat)
    requires k < |c|
    ensures Literals(c[..k + 1]) == Literals(c[..k]) + {c[k]}
  {
    assert c[..k + 1] == c[..k] + [c[k]];
    forall l ensures l in Literals(c[..k + 1]) <==> l in Literals(c[..k]) || l == c[k] {
    }
  }

  lemma SubsetOfSize(a: set<Lit>, b: set<Lit>)
    requires a <= b && |a| == |b|
    ensures a == b
  {
    assert |b - a| == |b| - |a|;
  }

  /** All but one literal of the other clause lie in the row's body, and the sizes agree: it is the body and that
      literal. */
  lemma RowMatches(db: Database, refs: seq<Ref>, highest: nat, marks: seq<bool>, anchor: Lit, row: nat, other: nat,
                   extra: Lit)
    requires StoreOk(db, highest) && row < |refs| && other < |refs| && refs[row] in db && refs[other] in db
    requires !db[refs[row]].redundant && !db[refs[other]].redundant
    requires |db[refs[row]].lits| == |db[refs[other]].lits| && anchor in db[refs[row]].lits
    requires forall l :: 0 <= l < |marks| ==> (marks[l] <==> l in Body(db, refs, anchor, row))
    requires var c := db[refs[other]].lits; Marked(marks, c, |c|, |c| - 1, extra)
    ensures Literals(ClauseAt(db, refs, other)) == Body(db, refs, anchor, row) + {extra}
    ensures extra !in Body(db, refs, anchor, row)
  {
    var b, c := Body(db, refs, anchor, row), db[refs[other]].lits;
    LiteralsSize(highest, db[refs[row]].lits);
    LiteralsSize(highest, c);
    assert anchor in Literals(db[refs[row]].lits);
    assert |b| == |c| - 1;
    assert Literals(c) - {extra} <= b;
    assert extra in Literals(c);
    SubsetOfSize(Literals(c) - {extra}, b);
  }

  // ---------------------------------------------------------------------------------------------
  // A whole run
  // ---------------------------------------------------------------------------------------------

  ghost predicate AgreeUpTo(a: Assignment, b: Assignment, highest: nat) {
    forall v: nat :: v <= highest ==> (v in a <==> v in b)
  }

  /** The models over the old variables are the same. */
  ghost predicate SameModels(db: Database, garbage: set<Ref>, highest: nat, db': Database, garbage': set<Ref>) {
    && (forall a: Assignment :: SatisfiesLive(a, db', garbage') ==> SatisfiesLive(a, db, garbage))
    && (forall a: Assignment :: SatisfiesLive(a, db, garbage) ==> Extendable(a, highest, db', garbage'))
  }

  ghost predicate Extendable(a: Assignment, highest: nat, db: Database, garbage: set<Ref>) {
    exists b: Assignment :: AgreeUpTo(a, b, highest) && SatisfiesLive(b, db, garbage)
  }

  lemma SameModelsReflexive(db: Database, garbage: set<Ref>, highest: nat)
    ensures SameModels(db, garbage, highest, db, garbage)
  {
    forall a: Assignment | SatisfiesLive(a, db, garbage) ensures Extendable(a, highest, db, garbage) {
      assert AgreeUpTo(a, a, highest);
    }
  }

  lemma SameModelsTransitive(db: Database, garbage: set<Ref>, highest: nat, db': Database, garbage': set<Ref>,
                             highest': nat, db'': Database, garbage'': set<Ref>)
    requires SameModels(db, garbage, highest, db', garbage') && SameModels(db', garbage', highest', db'', garbage'')
    requires highest <= highest'
    ensures SameModels(db, garbage, highest, db'', garbage'')
  {
    hide SatisfiesLive, Extendable;
    forall a: Assignment | SatisfiesLive(a, db, garbage) ensures Extendable(a, highest, db'', garbage'') {
      assert Extendable(a, highest, db', garbage');
      var b := ExtensionOf(a, highest, db', garbage');
      assert Extendable(b, highest', db'', garbage'');
      ExtendTwice(a, b, highest, highest', db'', garbage'');
    }
  }

  lemma ExtensionOf(a: Assignment, highest: nat, db: Database, garbage: set<Ref>) returns (b: Assignment)
    requires Extendable(a, highest, db, garbage)
    ensures AgreeUpTo(a, b, highest) && SatisfiesLive(b, db, garbage)
  {
    b :| AgreeUpTo(a, b, highest) && SatisfiesLive(b, db, garbage);
  }

  lemma ExtendTwice(a: Assignment, b: Assignment, highest: nat, highest': nat, db: Database, garbage: set<Ref>)
    requires AgreeUpTo(a, b, highest) && Extendable(b, highest', db, garbage) && highest <= highest'
    ensures Extendable(a, highest, db, garbage)
  {
    var c := ExtensionOf(b, highest', db, garbage);
    AgreeOn(a, b, c, highest, highest');
  }

  lemma AgreeOn(a: Assignment, b: Assignment, c: Assignment, highest: nat, highest': nat)
    requires AgreeUpTo(a, b, highest) && AgreeUpTo(b, c, highest') && highest <= highest'
    ensures AgreeUpTo(a, c, highest)
  {
  }

  /** One application keeps the models over the old variables. */
  lemma ApplicationKeepsModels(db: Database, garbage: set<Ref>, refs: seq<Ref>, alive: seq<bool>, sizes: seq<nat>,
                               anchor: Lit, rows: seq<nat>, selected: seq<Lit>, matched: seq<nat>, highest: nat,
                               next: Ref, db': Database, garbage': set<Ref>)
    requires RectangleOk(db, refs, alive, anchor, rows, selected, matched) && IndexOk(db, garbage, refs, alive, sizes)
    requires Applied(db, garbage, refs, anchor, rows, selected, matched, highest + 1, next, db', garbage')
    requires StoreOk(db, highest) && forall c :: 0 <= c < |selected| ==> Var(selected[c]) <= highest
    ensures SameModels(db, garbage, highest, db', garbage')
  {
    forall r, l | r in db && !db[r].redundant && l in db[r].lits ensures Var(l) != highest + 1 {
      var i :| 0 <= i < |db[r].lits| && db[r].lits[i] == l;
      assert ClauseOk(highest, db[r].lits);
    }
    forall a: Assignment | SatisfiesLive(a, db', garbage') ensures SatisfiesLive(a, db, garbage) {
      NewImpliesOld(a, db, garbage, refs, alive, anchor, rows, selected, matched, highest + 1, next, db', garbage');
    }
    forall a: Assignment | SatisfiesLive(a, db, garbage) ensures Extendable(a, highest, db', garbage') {
      OldExtendsToNew(a, db, garbage, refs, alive, sizes, anchor, rows, selected, matched, highest + 1, next, db',
                      garbage');
      assert AgreeUpTo(a, WithGroup(a, highest + 1, selected), highest);
    }
  }

  /** The new clauses repeat none: they all hold the fresh variable, and differ in the literal or the body. */
  lemma ApplicationKeepsDistinct(db: Database, garbage: set<Ref>, refs: seq<Ref>, alive: seq<bool>, anchor: Lit,
                                 rows: seq<nat>, selected: seq<Lit>, matched: seq<nat>, highest: nat, next: Ref,
                                 db': Database, garbage': set<Ref>, refs': seq<Ref>, alive': seq<bool>)
    requires RectangleOk(db, refs, alive, anchor, rows, selected, matched) && NoDuplicates(db, refs, alive)
    requires Applied(db, garbage, refs, anchor, rows, selected, matched, highest + 1, next, db', garbage')
    requires StoreOk(db, highest) && forall i :: 0 <= i < |refs| ==> refs[i] in db && !db[refs[i]].redundant
    requires |refs'| == |refs| + |selected| + |rows| && |alive'| == |refs'| && |alive| == |refs|
    requires forall i :: 0 <= i < |refs| ==> refs'[i] == refs[i] && (alive'[i] ==> alive[i])
    requires forall i :: |refs| <= i < |refs'| ==> refs'[i] == next + (i - |refs|)
    requires forall c :: 0 <= c < |selected| ==> Var(selected[c]) <= highest
    ensures NoDuplicates(db', refs', alive')
  {
    ClausesStay(db, garbage, refs, anchor, rows, selected, matched, highest, next, db', garbage', refs');
    forall i, j | 0 <= i < j < |refs'| && alive'[i] && alive'[j]
      ensures Literals(ClauseAt(db', refs', i)) != Literals(ClauseAt(db', refs', j))
    {
      hide ClauseAt, Literals, Applied, StoreOk, RectangleOk, AddedLiterals;
      if j >= |refs| {
        hide NoDuplicates;
        NewestDiffers(db, garbage, refs, alive, anchor, rows, selected, matched, highest, next, db', garbage', refs', i,
                      j - |refs|);
      }
    }
  }

  /** An added clause differs from each clause before it. */
  lemma NewestDiffers(db: Database, garbage: set<Ref>, refs: seq<Ref>, alive: seq<bool>, anchor: Lit, rows: seq<nat>,
                      selected: seq<Lit>, matched: seq<nat>, highest: nat, next: Ref, db': Database, garbage': set<Ref>,
                      refs': seq<Ref>, i: nat, k: nat)
    requires RectangleOk(db, refs, alive, anchor, rows, selected, matched) && NoDuplicates(db, refs, alive)
    requires Applied(db, garbage, refs, anchor, rows, selected, matched, highest + 1, next, db', garbage')
    requires StoreOk(db, highest) && forall i :: 0 <= i < |refs| ==> refs[i] in db && !db[refs[i]].redundant
    requires |refs'| == |refs| + |selected| + |rows| && |alive| == |refs|
    requires forall i :: 0 <= i < |refs| ==> ClauseAt(db', refs', i) == ClauseAt(db, refs, i)
    requires forall i :: |refs| <= i < |refs'| ==> refs'[i] == next + (i - |refs|)
    requires forall c :: 0 <= c < |selected| ==> Var(selected[c]) <= highest
    requires i < |refs| + k && k < |selected| + |rows|
    ensures Literals(ClauseAt(db', refs', i)) != Literals(ClauseAt(db', refs', |refs| + k))
  {
    hide ClauseAt, Literals, Applied, StoreOk, RectangleOk, AddedLiterals, NoDuplicates;
    NewLiterals(db, garbage, refs, alive, anchor, rows, selected, matched, highest, next, db', garbage', refs', k);
    if i < |refs| {
      OldDiffers(db, highest, refs, i, anchor, rows, selected, k);
    } else {
      NewLiterals(db, garbage, refs, alive, anchor, rows, selected, matched, highest, next, db', garbage', refs',
                  i - |refs|);
      NewDiffer(db, refs, alive, anchor, rows, selected, matched, highest, i - |refs|, k);
    }
  }

  lemma ClausesStay(db: Database, garbage: set<Ref>, refs: seq<Ref>, anchor: Lit, rows: seq<nat>, selected: seq<Lit>,
                    matched: seq<nat>, highest: nat, next: Ref, db': Database, garbage': set<Ref>, refs': seq<Ref>)
    requires Applied(db, garbage, refs, anchor, rows, selected, matched, highest + 1, next, db', garbage')
             && |refs'| >= |refs|
    requires forall i :: 0 <= i < |refs| ==> refs[i] in db && refs'[i] == refs[i]
    ensures forall i :: 0 <= i < |refs| ==> ClauseAt(db', refs', i) == ClauseAt(db, refs, i)
  {
  }

  /** A clause indexed before differs from each one added, which holds the fresh variable. */
  lemma OldDiffers(db: Database, highest: nat, refs: seq<Ref>, i: nat, anchor: Lit, rows: seq<nat>, selected: seq<Lit>,
                   k: nat)
    requires StoreOk(db, highest) && i < |refs| && refs[i] in db && !db[refs[i]].redundant && k < |selected| + |rows|
    ensures Literals(ClauseAt(db, refs, i)) != AddedLiterals(db, refs, anchor, rows, selected, highest, k)
  {
    OldLiterals(db, highest, refs, i);
    var l := MakeLit(highest + 1, k < |selected|);
    assert l in AddedLiterals(db, refs, anchor, rows, selected, highest, k) && Var(l) == highest + 1;
  }

  lemma OldLiterals(db: Database, highest: nat, refs: seq<Ref>, i: nat)
    requires StoreOk(db, highest) && i < |refs| && refs[i] in db && !db[refs[i]].redundant
    ensures forall l :: l in Literals(ClauseAt(db, refs, i)) ==> Var(l) <= highest
  {
    assert ClauseOk(highest, db[refs[i]].lits);
  }

  /** The literals of the `k`-th clause added. */
  ghost function AddedLiterals(db: Database, refs: seq<Ref>, anchor: Lit, rows: seq<nat>, selected: seq<Lit>,
                               highest: nat, k: nat)
    : set<Lit>
    requires k < |selected| + |rows|
  {
    if k < |selected| then {MakeLit(highest + 1, true), selected[k]}
    else {MakeLit(highest + 1, false)} + Body(db, refs, anchor, rows[k - |selected|])
  }

  lemma NewLiterals(db: Database, garbage: set<Ref>, refs: seq<Ref>, alive: seq<bool>, anchor: Lit, rows: seq<nat>,
                    selected: seq<Lit>, matched: seq<nat>, highest: nat, next: Ref, db': Database, garbage': set<Ref>,
                    refs': seq<Ref>, k: nat)
    requires Applied(db, garbage, refs, anchor, rows, selected, matched, highest + 1, next, db', garbage')
    requires k < |selected| + |rows| && |refs'| == |refs| + |selected| + |rows| && refs'[|refs| + k] == next + k
    ensures Literals(ClauseAt(db', refs', |refs| + k)) == AddedLiterals(db, refs, anchor, rows, selected, highest, k)
  {
    if k < |selected| {
      assert DefinitionAt(db', next, highest + 1, selected, k);
    } else {
      var r := k - |selected|;
      assert BodyAt(db', db, refs, next, highest + 1, anchor, selected, rows, r);
      WithoutLiterals(ClauseAt(db, refs, rows[r]), anchor);
      var c := ClauseAt(db', refs', |refs| + k);
      var tail := Without(ClauseAt(db, refs, rows[r]), anchor);
      assert c == [MakeLit(highest + 1, false)] + tail;
      forall l ensures l in Literals(c) <==> l == MakeLit(highest + 1, false) || l in Literals(tail) {
      }
    }
  }

  lemma NewDiffer(db: Database, refs: seq<Ref>, alive: seq<bool>, anchor: Lit, rows: seq<nat>, selected: seq<Lit>,
                  matched: seq<nat>, highest: nat, i: nat, j: nat)
    requires RectangleOk(db, refs, alive, anchor, rows, selected, matched) && NoDuplicates(db, refs, alive)
    requires StoreOk(db, highest) && (forall k :: 0 <= k < |refs| ==> refs[k] in db && !db[refs[k]].redundant)
             && |alive| == |refs|
    requires i < j < |selected| + |rows| && forall c :: 0 <= c < |selected| ==> Var(selected[c]) <= highest
    ensures AddedLiterals(db, refs, anchor, rows, selected, highest, i)
            != AddedLiterals(db, refs, anchor, rows, selected, highest, j)
  {
    var p, q := MakeLit(highest + 1, true), MakeLit(highest + 1, false);
    if j < |selected| {
      assert selected[i] in AddedLiterals(db, refs, anchor, rows, selected, highest, i);
      assert Var(selected[j]) <= highest && selected[i] != selected[j] && selected[i] != p;
    } else {
      var s := rows[j - |selected|];
      OldLiterals(db, highest, refs, s);
      assert p !in Body(db, refs, anchor, s);
      if i < |selected| {
        assert p in AddedLiterals(db, refs, anchor, rows, selected, highest, i);
        assert p !in AddedLiterals(db, refs, anchor, rows, selected, highest, j);
      } else {
        var r := rows[i - |selected|];
        OldLiterals(db, highest, refs, r);
        assert Literals(ClauseAt(db, refs, r)) == Body(db, refs, anchor, r) + {anchor};
        assert Literals(ClauseAt(db, refs, s)) == Body(db, refs, anchor, s) + {anchor};
        assert Body(db, refs, anchor, r) != Body(db, refs, anchor, s);
        assert q !in Body(db, refs, anchor, r) && q !in Body(db, refs, anchor, s);
        assert {q} + Body(db, refs, anchor, r) - {q} == Body(db, refs, anchor, r);
        assert {q} + Body(db, refs, anchor, s) - {q} == Body(db, refs, anchor, s);
      }
    }
  }

  lemma DistinctLiterals(n: nat, c: Clause)
    requires ClauseOk(n, c)
    ensures forall i, j :: 0 <= i < j < |c| ==> c[i] != c[j]
  {
    forall i, j | 0 <= i < j < |c| ensures c[i] != c[j] {
      assert Var(c[i]) != Var(c[j]);
    }
  }

  // ---------------------------------------------------------------------------------------------
  // Applying a rectangle step by step
  // ---------------------------------------------------------------------------------------------

  /** `k` clauses have been added and indexed; everything from before is as it was. */
  ghost predicate Grown(db0: Database, refs0: seq<Ref>, alive0: seq<bool>, next0: Ref, db: Database, refs: seq<Ref>,
                        alive: seq<bool>, next: Ref, k: nat) {
    && next == next0 + k && |refs| == |refs0| + k && |alive| == |alive0| + k && |alive0| == |refs0|
    && (forall r :: r in db <==> r in db0 || next0 <= r < next)
    && (forall r :: r in db0 ==> r < next0 && db[r] == db0[r])
    && (forall i :: 0 <= i < |refs0| ==> refs[i] == refs0[i] && alive[i] == alive0[i] && refs0[i] in db0)
    && (forall i :: |refs0| <= i < |refs| ==> refs[i] == next0 + (i - |refs0|))
  }

  lemma GrownNothing(db: Database, refs: seq<Ref>, alive: seq<bool>, next: Ref)
    requires |alive| == |refs| && (forall r :: r in db ==> r < next) && forall i :: 0 <= i < |refs| ==> refs[i] in db
    ensures Grown(db, refs, alive, next, db, refs, alive, next, 0)
  {
  }

  lemma GrownMore(db0: Database, refs0: seq<Ref>, alive0: seq<bool>, next0: Ref, db: Database, refs: seq<Ref>,
                  alive: seq<bool>, next: Ref, k: nat, e: Entry)
    requires Grown(db0, refs0, alive0, next0, db, refs, alive, next, k)
    ensures Grown(db0, refs0, alive0, next0, db[next := e], refs + [next], alive + [true], next + 1, k + 1)
  {
  }

  lemma GrownKeeps(db0: Database, refs0: seq<Ref>, alive0: seq<bool>, next0: Ref, db: Database, refs: seq<Ref>,
                   alive: seq<bool>, next: Ref, k: nat, id: nat)
    requires Grown(db0, refs0, alive0, next0, db, refs, alive, next, k) && id < |refs0|
    ensures ClauseAt(db, refs, id) == ClauseAt(db0, refs0, id) && refs[id] == refs0[id]
  {
  }

  /** The definitions of the first `k` literals of the group. */
  ghost predicate Definitions(db: Database, next: Ref, added: nat, selected: seq<Lit>, k: nat) {
    forall c :: 0 <= c < k && c < |selected| ==> DefinitionAt(db, next, added, selected, c)
  }

  ghost predicate Bodies(db: Database, db0: Database, refs0: seq<Ref>, next: Ref, added: nat, anchor: Lit,
                         selected: seq<Lit>, rows: seq<nat>, k: nat) {
    forall r :: 0 <= r < k && r < |rows| ==> BodyAt(db, db0, refs0, next, added, anchor, selected, rows, r)
  }

  lemma DefinitionsMore(db: Database, next: Ref, added: nat, selected: seq<Lit>, k: nat)
    requires Definitions(db, next, added, selected, k) && k < |selected|
    ensures Definitions(db[next + k := Entry([MakeLit(added, true), selected[k]], false)], next, added, selected, k + 1)
  {
    var later := db[next + k := Entry([MakeLit(added, true), selected[k]], false)];
    forall c | 0 <= c < k + 1 ensures DefinitionAt(later, next, added, selected, c) {
      if c < k {
        assert DefinitionAt(db, next, added, selected, c);
      }
    }
  }

  lemma BodiesMore(db: Database, db0: Database, refs0: seq<Ref>, next: Ref, added: nat, anchor: Lit, selected: seq<Lit>,
                   rows: seq<nat>, k: nat)
    requires Definitions(db, next, added, selected, |selected|)
    requires Bodies(db, db0, refs0, next, added, anchor, selected, rows, k) && k < |rows|
    ensures var e := Entry([MakeLit(added, false)] + Without(ClauseAt(db0, refs0, rows[k]), anchor), false);
            && Definitions(db[next + |selected| + k := e], next, added, selected, |selected|)
            && Bodies(db[next + |selected| + k := e], db0, refs0, next, added, anchor, selected, rows, k + 1)
  {
    var e := Entry([MakeLit(added, false)] + Without(ClauseAt(db0, refs0, rows[k]), anchor), false);
    var later := db[next + |selected| + k := e];
    forall c | 0 <= c < |selected| ensures DefinitionAt(later, next, added, selected, c) {
      assert DefinitionAt(db, next, added, selected, c);
    }
    forall r | 0 <= r < k + 1 ensures BodyAt(later, db0, refs0, next, added, anchor, selected, rows, r) {
      if r < k {
        assert BodyAt(db, db0, refs0, next, added, anchor, selected, rows, r);
      }
    }
  }

  lemma AppliedFrom(db0: Database, garbage: set<Ref>, refs0: seq<Ref>, alive0: seq<bool>, anchor: Lit, rows: seq<nat>,
                    selected: seq<Lit>, matched: seq<nat>, added: nat, next0: Ref, db: Database, refs: seq<Ref>,
                    alive: seq<bool>, next: Ref, garbage': set<Ref>)
    requires Grown(db0, refs0, alive0, next0, db, refs, alive, next, |selected| + |rows|)
    requires Definitions(db, next0, added, selected, |selected|)
    requires Bodies(db, db0, refs0, next0, added, anchor, selected, rows, |rows|)
    requires garbage' == garbage + CellRefs(refs0, matched) && forall g :: g in garbage ==> g in db0
    ensures Applied(db0, garbage, refs0, anchor, rows, selected, matched, added, next0, db, garbage')
  {
  }

  lemma DefinitionOk(highest: nat, l: Lit)
    requires 1 <= Var(l) <= highest
    ensures ClauseOk(highest + 1, [MakeLit(highest + 1, true), l])
  {
  }

  /** A body with the fresh variable in place of the anchor. */
  lemma BodyOk(highest: nat, c: Clause, anchor: Lit)
    requires ClauseOk(highest, c) && anchor in c && |c| >= 2
    ensures var d := [MakeLit(highest + 1, false)] + Without(c, anchor); ClauseOk(highest + 1, d) && |d| >= 2
  {
    WithoutOk(highest, c, anchor);
    WithoutLiterals(c, anchor);
    var d := [MakeLit(highest + 1, false)] + Without(c, anchor);
    var other := if c[0] == anchor then c[1] else c[0];
    assert Var(c[0]) != Var(c[1]);
    assert other in Literals(c) - {anchor};
    assert other in Without(c, anchor);
  }

  lemma {:induction false} WithoutOk(n: nat, c: Clause, l: Lit)
    requires ClauseOk(n, c)
    ensures ClauseOk(n, Without(c, l))
  {
    if c != [] {
      var front := c[..|c| - 1];
      WithoutOk(n, front, l);
      WithoutLiterals(front, l);
      forall i | 0 <= i < |Without(front, l)| ensures Var(Without(front, l)[i]) != Var(c[|c| - 1]) {
        assert Without(front, l)[i] in Literals(Without(front, l));
        var j :| 0 <= j < |front| && front[j] == Without(front, l)[i];
        assert c[j] == front[j];
      }
    }
  }

  lemma WithoutStep(c: Clause, k: nat, l: Lit)
    requires k < |c|
    ensures Without(c[..k + 1], l) == Without(c[..k], l) + if c[k] == l then [] else [c[k]]
  {
    assert c[..k + 1][..k] == c[..k];
  }

  lemma StoreMore(db: Database, highest: nat, ref: Ref, e: Entry)
    requires StoreOk(db, highest) && ClauseOk(highest, e.lits)
    ensures StoreOk(db[ref := e], highest)
  {
  }

  lemma StoreAbove(db: Database, highest: nat, higher: nat)
    requires StoreOk(db, highest) && highest <= higher
    ensures StoreOk(db, higher)
  {
    forall r | r in db && !db[r].redundant ensures ClauseOk(higher, db[r].lits) {
      assert ClauseOk(highest, db[r].lits);
    }
  }

  /** Taking one clause out of play. */
  lemma DeletedOk(db: Database, garbage: set<Ref>, refs: seq<Ref>, alive: seq<bool>, sizes: seq<nat>, id: nat)
    requires IndexOk(db, garbage, refs, alive, sizes) && id < |refs|
    ensures IndexOk(db, garbage + {refs[id]}, refs, alive[id := false], sizes)
  {
  }

  lemma CellRefsMore(refs: seq<Ref>, matched: seq<nat>, k: nat)
    requires k < |matched| && matched[k] < |refs|
    ensures CellRefs(refs, matched[..k + 1]) == CellRefs(refs, matched[..k]) + {refs[matched[k]]}
  {
    assert matched[..k + 1] == matched[..k] + [matched[k]];
    OneMoreCell(refs, matched[..k], matched[k]);
  }

  lemma IndexedRefs(db: Database, garbage: set<Ref>, refs: seq<Ref>, alive: seq<bool>, sizes: seq<nat>)
    requires IndexOk(db, garbage, refs, alive, sizes)
    ensures |alive| == |refs| && forall i :: 0 <= i < |refs| ==>
            refs[i] in db && !db[refs[i]].redundant && |db[refs[i]].lits| >= 2
  {
  }

  lemma GrownNext(db0: Database, refs0: seq<Ref>, alive0: seq<bool>, next0: Ref, db: Database, refs: seq<Ref>,
                  alive: seq<bool>, next: Ref, k: nat)
    requires Grown(db0, refs0, alive0, next0, db, refs, alive, next, k)
    ensures next == next0 + k
  {
  }

  lemma GrownSizes(db0: Database, refs0: seq<Ref>, alive0: seq<bool>, next0: Ref, db: Database, refs: seq<Ref>,
                   alive: seq<bool>, next: Ref, k: nat)
    requires Grown(db0, refs0, alive0, next0, db, refs, alive, next, k)
    ensures |refs| >= |refs0| && forall i :: 0 <= i < |refs0| ==> refs[i] in db && db[refs[i]] == db0[refs0[i]]
  {
  }

  lemma NoDefinitions(db: Database, next: Ref, added: nat, selected: seq<Lit>)
    ensures Definitions(db, next, added, selected, 0)
  {
  }

  lemma NoBodies(db: Database, db0: Database, refs0: seq<Ref>, next: Ref, added: nat, anchor: Lit, selected: seq<Lit>,
                 rows: seq<nat>)
    ensures Bodies(db, db0, refs0, next, added, anchor, selected, rows, 0)
  {
  }

  lemma OccurrencesLonger(db: Database, refs: seq<Ref>, occurrences: seq<seq<nat>>, more: seq<seq<nat>>)
    requires OccurrencesOk(db, refs, occurrences) && |more| >= |occurrences|
    requires forall l: nat :: l < |more| ==> more[l] == if l < |occurrences| then occurrences[l] else []
    ensures OccurrencesOk(db, refs, more)
  {
    forall i: nat, l: Lit | i < |refs| && l in ClauseAt(db, refs, i) ensures FiledUnder(more, l, i) {
      assert FiledUnder(occurrences, l, i);
    }
  }

  /** What one or more applications achieve: the same models over the old variables, and, when no clause was repeated,
      none repeated and at least one clause fewer for every variable introduced. */
  ghost predicate Outcome(db: Database, garbage: set<Ref>, refs: seq<Ref>, alive: seq<bool>, highest: nat,
                          db': Database, garbage': set<Ref>, refs': seq<Ref>, alive': seq<bool>, highest': nat) {
    && highest <= highest' && SameModels(db, garbage, highest, db', garbage')
    && (NoDuplicates(db, refs, alive) ==>
          && NoDuplicates(db', refs', alive')
          && |LiveRefs(db', garbage')| + (highest' - highest) <= |LiveRefs(db, garbage)|)
  }

  lemma OutcomeOfNothing(db: Database, garbage: set<Ref>, refs: seq<Ref>, alive: seq<bool>, highest: nat)
    ensures Outcome(db, garbage, refs, alive, highest, db, garbage, refs, alive, highest)
  {
    SameModelsReflexive(db, garbage, highest);
  }

  lemma OutcomeTransitive(db: Database, garbage: set<Ref>, refs: seq<Ref>, alive: seq<bool>, highest: nat,
                          db': Database, garbage': set<Ref>, refs': seq<Ref>, alive': seq<bool>, highest': nat,
                          db'': Database, garbage'': set<Ref>, refs'': seq<Ref>, alive'': seq<bool>, highest'': nat)
    requires Outcome(db, garbage, refs, alive, highest, db', garbage', refs', alive', highest')
    requires Outcome(db', garbage', refs', alive', highest', db'', garbage'', refs'', alive'', highest'')
    ensures Outcome(db, garbage, refs, alive, highest, db'', garbage'', refs'', alive'', highest'')
  {
    SameModelsTransitive(db, garbage, highest, db', garbage', highest', db'', garbage'');
  }

  lemma OutcomeOfApplication(db: Database, garbage: set<Ref>, refs: seq<Ref>, alive: seq<bool>, sizes: seq<nat>,
                             anchor: Lit, rows: seq<nat>, selected: seq<Lit>, matched: seq<nat>, highest: nat,
                             next: Ref, db': Database, garbage': set<Ref>, refs': seq<Ref>, alive': seq<bool>)
    requires RectangleOk(db, refs, alive, anchor, rows, selected, matched) && IndexOk(db, garbage, refs, alive, sizes)
    requires Applied(db, garbage, refs, anchor, rows, selected, matched, highest + 1, next, db', garbage')
    requires StoreOk(db, highest) && forall c :: 0 <= c < |selected| ==> Var(selected[c]) <= highest
    requires |refs'| == |refs| + |selected| + |rows| && |alive'| == |refs'|
    requires forall i :: 0 <= i < |refs| ==> refs'[i] == refs[i] && (alive'[i] ==> alive[i])
    requires forall i :: |refs| <= i < |refs'| ==> refs'[i] == next + (i - |refs|)
    ensures NoDuplicates(db, refs, alive) ==>
            |LiveRefs(db', garbage')| == |LiveRefs(db, garbage)| - Saving(|selected|, |rows|)
    ensures Saving(|selected|, |rows|) >= 1 ==>
              Outcome(db, garbage, refs, alive, highest, db', garbage', refs', alive', highest + 1)
  {
    hide RectangleOk, SameModels, NoDuplicates, LiveRefs, Applied, StoreOk;
    ApplicationKeepsModels(db, garbage, refs, alive, sizes, anchor, rows, selected, matched, highest, next, db',
                           garbage');
    if NoDuplicates(db, refs, alive) {
      ClausesSaved(db, garbage, refs, alive, sizes, anchor, rows, selected, matched, highest + 1, next, db', garbage');
      ApplicationKeepsDistinct(db, garbage, refs, alive, anchor, rows, selected, matched, highest, next, db', garbage',
                               refs', alive');
    }
  }

  lemma RectangleParts(db: Database, refs: seq<Ref>, alive: seq<bool>, anchor: Lit, rows: seq<nat>, selected: seq<Lit>,
                       matched: seq<nat>)
    requires RectangleOk(db, refs, alive, anchor, rows, selected, matched)
    ensures |matched| == |rows| * |selected| && forall k :: 0 <= k < |matched| ==> matched[k] < |refs|
    ensures forall r :: 0 <= r < |rows| ==> rows[r] < |refs| && anchor in ClauseAt(db, refs, rows[r])
  {
    forall k | 0 <= k < |matched| ensures matched[k] < |refs| {
      var r, c := CellOf(k, |rows|, |selected|);
      assert CellOk(db, refs, alive, anchor, rows[r], selected[c], matched[Cell(r, |selected|, c)]);
    }
  }

  lemma GrownTail(db0: Database, refs0: seq<Ref>, alive0: seq<bool>, next0: Ref, db: Database, refs: seq<Ref>,
                  alive: seq<bool>, next: Ref, k: nat)
    requires Grown(db0, refs0, alive0, next0, db, refs, alive, next, k)
    ensures |refs| == |refs0| + k == |alive| && |alive0| == |refs0|
    ensures forall i :: 0 <= i < |refs0| ==> refs[i] == refs0[i] && alive[i] == alive0[i]
    ensures forall i :: |refs0| <= i < |refs| ==> refs[i] == next0 + (i - |refs0|)
  {
  }

  // ---------------------------------------------------------------------------------------------
  // Looking for the next literal of a group
  // ---------------------------------------------------------------------------------------------

  /** The marks are those of a row's body. */
  ghost predicate BodyMarked(marks: seq<bool>, body: set<Lit>) {
    (forall l :: 0 <= l < |marks| ==> (marks[l] <==> l in body)) && forall l :: l in body ==> l < |marks|
  }

  ghost predicate GroupMarked(selectedMarks: seq<bool>, selected: seq<Lit>) {
    (forall l :: 0 <= l < |selectedMarks| ==> (selectedMarks[l] <==> l in selected))
        && forall l :: l in selected ==> l < |selectedMarks|
  }

  ghost predicate MatchesOk(db: Database, refs: seq<Ref>, alive: seq<bool>, anchor: Lit, rows: seq<nat>,
                            selected: seq<Lit>, matches: seq<Match>, slots: nat) {
    forall i :: 0 <= i < |matches| ==>
      MatchOk(db, refs, alive, anchor, rows, selected, matches[i]) && 2 <= matches[i].lit < slots
  }

  /** The counts of the touched literals are their numbers of matches; a literal is touched at its first match unless a
      count was left standing for it from before. */
  ghost predicate Tally(left: seq<nat>, counts: seq<nat>, touched: seq<Lit>, matches: seq<Match>) {
    && |counts| == |left|
    && (forall l: nat :: l < |counts| ==> counts[l] == left[l] + CountOf(matches, l))
    && (forall l :: l in touched ==> l < |counts| && left[l] == 0 && counts[l] >= 1)
    && (forall l: nat :: l < |counts| && left[l] == 0 && counts[l] >= 1 ==> l in touched)
  }

  lemma TallyStart(counts: seq<nat>)
    ensures Tally(counts, counts, [], [])
  {
  }

  lemma TallyMore(left: seq<nat>, counts: seq<nat>, touched: seq<Lit>, matches: seq<Match>, m: Match)
    requires Tally(left, counts, touched, matches) && m.lit < |counts|
    ensures Tally(left, counts[m.lit := counts[m.lit] + 1], if counts[m.lit] == 0 then touched + [m.lit] else touched,
                  matches + [m])
  {
    forall l: nat | l < |counts| ensures CountOf(matches + [m], l) == CountOf(matches, l) + if m.lit == l then 1
        else 0 {
      CountMore(matches, m, l);
    }
    var t := touched + [m.lit];
    assert t[|touched|] == m.lit;
    forall l | l in touched ensures l in t {
      var i :| 0 <= i < |touched| && touched[i] == l;
      assert t[i] == l;
    }
  }

  /** The most frequent of the touched literals, the lower one among equals. */
  ghost predicate BestOf(best: Lit, counts: seq<nat>, touched: seq<Lit>) {
    && best in touched && best < |counts|
    && forall l :: l in touched ==>
        l < |counts| && (counts[l] < counts[best] || (counts[l] == counts[best] && best <= l))
  }

  /** The literals of indexed clauses are within the tables. */
  lemma LiteralBounds(db: Database, highest: nat, slots: nat, r: Ref)
    requires StoreOk(db, highest) && 2 * highest + 2 <= slots && r in db && !db[r].redundant
    ensures ClauseOk(highest, db[r].lits)
    ensures forall l :: l in db[r].lits ==> 2 <= l && l < slots && Neg(l) < slots && 1 <= Var(l) <= highest
  {
    var c := db[r].lits;
    forall l | l in c ensures 2 <= l && l < slots && Neg(l) < slots && 1 <= Var(l) <= highest {
      var i :| 0 <= i < |c| && c[i] == l;
      assert ValidLit(highest, c[i]);
    }
  }

  /** A sequence of different numbers below a bound is no longer than the bound. */
  lemma DistinctBound(lits: seq<Lit>, bound: nat)
    requires (forall i, j :: 0 <= i < j < |lits| ==> lits[i] != lits[j]) && forall l :: l in lits ==> l < bound
    ensures |lits| <= bound
  {
    PrefixCount(lits, |lits|);
    assert lits[..|lits|] == lits;
    RangeSize(0, bound);
    SubsetSize(Literals(lits), Range(0, bound));
  }

  lemma {:induction false} PrefixCount(lits: seq<Lit>, k: nat)
    requires k <= |lits| && forall i, j :: 0 <= i < j < |lits| ==> lits[i] != lits[j]
    ensures |Literals(lits[..k])| == k
  {
    if k > 0 {
      PrefixCount(lits, k - 1);
      assert lits[..k] == lits[..k - 1] + [lits[k - 1]];
      forall l ensures l in Literals(lits[..k]) <==> l in Literals(lits[..k - 1]) || l == lits[k - 1] {
      }
      assert Literals(lits[..k]) == Literals(lits[..k - 1]) + {lits[k - 1]};
    }
  }

  /** The pairing clauses found for the rows. */
  ghost predicate PendingOk(db: Database, refs: seq<Ref>, alive: seq<bool>, anchor: Lit, rows: seq<nat>, partner: Lit,
                            pending: seq<int>) {
    && |pending| == |rows|
    && forall r :: 0 <= r < |rows| && pending[r] >= 0 ==> CellOk(db, refs, alive, anchor, rows[r], partner, pending[r])
  }

  /** The cells of one row. */
  lemma RowCells(db: Database, refs: seq<Ref>, alive: seq<bool>, anchor: Lit, rows: seq<nat>, selected: seq<Lit>,
                 matched: seq<nat>, row: nat, partner: Lit, clause: nat, cells: seq<nat>)
    requires RectangleOk(db, refs, alive, anchor, rows, selected, matched) && row < |rows|
    requires CellOk(db, refs, alive, anchor, rows[row], partner, clause)
    requires |cells| == |selected| + 1 && cells[|selected|] == clause
    requires Cell(row, |selected|, 0) + |selected| <= |matched|
    requires forall c :: 0 <= c < |selected| ==> cells[c] == matched[Cell(row, |selected|, 0) + c]
    ensures forall c :: 0 <= c < |selected| + 1 ==>
              CellOk(db, refs, alive, anchor, rows[row], (selected + [partner])[c], cells[c])
  {
    hide CellOk;
    forall c: nat | c < |selected| + 1
        ensures CellOk(db, refs, alive, anchor, rows[row], (selected + [partner])[c], cells[c]) {
      if c < |selected| {
        assert Cell(row, |selected|, c) == Cell(row, |selected|, 0) + c;
        assert CellOk(db, refs, alive, anchor, rows[row], selected[c], matched[Cell(row, |selected|, c)]);
      }
    }
  }

  /** Where the cells of a row lie. */
  lemma RowBounds(db: Database, refs: seq<Ref>, alive: seq<bool>, anchor: Lit, rows: seq<nat>, selected: seq<Lit>,
                  matched: seq<nat>, row: nat)
    requires RectangleOk(db, refs, alive, anchor, rows, selected, matched) && row < |rows|
    ensures Cell(row, |selected|, 0) + |selected| <= |matched|
    ensures row + 1 < |rows| ==> rows[row] < rows[row + 1]
  {
    TimesOrdered(row + 1, |rows|, |selected|);
  }

  /** The rows kept so far take in one more, with the partner's column. */
  lemma AddWiderRow(db: Database, refs: seq<Ref>, alive: seq<bool>, anchor: Lit, rows: seq<nat>, selected: seq<Lit>,
                    matched: seq<nat>, row: nat, partner: Lit, clause: nat, kept: seq<nat>, cellsKept: seq<nat>)
    requires RectangleOk(db, refs, alive, anchor, rows, selected, matched) && row < |rows|
    requires CellOk(db, refs, alive, anchor, rows[row], partner, clause)
    requires RectangleOk(db, refs, alive, anchor, kept, selected + [partner], cellsKept)
    requires forall r :: 0 <= r < |kept| ==> kept[r] < rows[row]
    requires Cell(row, |selected|, 0) + |selected| <= |matched|
    ensures var begin := Cell(row, |selected|, 0); var cells := matched[begin..begin + |selected|] + [clause];
            RectangleOk(db, refs, alive, anchor, kept + [rows[row]], selected + [partner], cellsKept + cells)
  {
    hide CellOk;
    var begin := Cell(row, |selected|, 0);
    var cells := matched[begin..begin + |selected|] + [clause];
    RowCells(db, refs, alive, anchor, rows, selected, matched, row, partner, clause, cells);
    AddRow(db, refs, alive, anchor, kept, selected + [partner], cellsKept, rows[row], cells);
  }

  lemma WiderGroup(selected: seq<Lit>, partner: Lit)
    requires partner !in selected && forall c, d :: 0 <= c < d < |selected| ==> selected[c] != selected[d]
    ensures forall c, d :: 0 <= c < d < |selected| + 1 ==> (selected + [partner])[c] != (selected + [partner])[d]
  {
    assert forall c :: 0 <= c < |selected| ==> selected[c] in selected;
  }

  lemma IndexedAt(db: Database, garbage: set<Ref>, refs: seq<Ref>, alive: seq<bool>, sizes: seq<nat>, id: nat)
    requires IndexOk(db, garbage, refs, alive, sizes) && id < |refs|
    ensures id < |alive| && id < |sizes| && refs[id] in db && !db[refs[id]].redundant
            && sizes[id] == |db[refs[id]].lits| >= 2
    ensures ClauseAt(db, refs, id) == db[refs[id]].lits && (alive[id] ==> LiveRef(db, garbage, refs[id]))
  {
  }

  lemma ExtraIsListed(marks: seq<bool>, c: Clause, marked: nat, extra: Lit)
    requires Marked(marks, c, |c|, marked, extra) && marked + 1 == |c|
    ensures extra in c
  {
  }

  lemma AnchorListed(db: Database, refs: seq<Ref>, anchor: Lit, row: nat)
    requires row < |refs| && refs[row] in db && anchor in ClauseAt(db, refs, row)
    ensures anchor in db[refs[row]].lits
  {
  }

  lemma NewMatch(db: Database, refs: seq<Ref>, alive: seq<bool>, anchor: Lit, rows: seq<nat>, selected: seq<Lit>,
                 m: Match)
    requires m.row < |rows| && m.clause < |refs| && m.clause < |alive| && alive[m.clause]
    requires Literals(ClauseAt(db, refs, m.clause)) == Body(db, refs, anchor, rows[m.row]) + {m.lit}
    requires m.lit !in Body(db, refs, anchor, rows[m.row]) && m.lit !in selected && Var(m.lit) != Var(anchor)
    requires Neg(m.lit) !in Body(db, refs, anchor, rows[m.row])
    ensures MatchOk(db, refs, alive, anchor, rows, selected, m)
  {
  }

  lemma AnotherLiteral(n: nat, c: Clause, anchor: Lit)
    requires ClauseOk(n, c) && |c| >= 2
    ensures exists l :: l in c && l != anchor
  {
    assert Var(c[0]) != Var(c[1]);
    assert c[0] in c && c[1] in c;
  }

  /** A literal's list holds just the clauses with the literal, in their order. */
  lemma OccurrencesOf(db: Database, refs: seq<Ref>, occurrences: seq<seq<nat>>, l: nat)
    requires OccurrencesOk(db, refs, occurrences) && l < |occurrences|
    ensures forall i :: 0 <= i < |occurrences[l]| ==>
            occurrences[l][i] < |refs| && l in ClauseAt(db, refs, occurrences[l][i])
    ensures forall i, j :: 0 <= i < j < |occurrences[l]| ==> occurrences[l][i] < occurrences[l][j]
    ensures forall i: nat :: i < |refs| && l in ClauseAt(db, refs, i) ==> i in occurrences[l]
  {
    forall i: nat | i < |refs| && l in ClauseAt(db, refs, i) ensures i in occurrences[l] {
      assert FiledUnder(occurrences, l, i);
    }
  }

  lemma OccurrenceAt(db: Database, refs: seq<Ref>, occurrences: seq<seq<nat>>, l: nat, i: nat)
    requires OccurrencesOk(db, refs, occurrences) && l < |occurrences| && i < |occurrences[l]|
    ensures occurrences[l][i] < |refs| && l in ClauseAt(db, refs, occurrences[l][i])
    ensures occurrences[l][i] !in occurrences[l][..i]
  {
  }

  lemma BodyMarksOnly(marks: seq<bool>, c: Clause, anchor: Lit)
    requires BodyMarked(marks, Literals(c) - {anchor})
    ensures forall l :: 0 <= l < |marks| && marks[l] ==> l in c
  {
    forall l: nat | l < |marks| && marks[l] ensures l in c {
      assert l in Literals(c);
    }
  }

  lemma NoMatches(db: Database, refs: seq<Ref>, alive: seq<bool>, anchor: Lit, rows: seq<nat>, selected: seq<Lit>,
                  slots: nat)
    ensures MatchesOk(db, refs, alive, anchor, rows, selected, [], slots)
  {
  }

  lemma {:induction false} CountedMatch(matches: seq<Match>, l: Lit)
    requires CountOf(matches, l) >= 1
    ensures exists i :: 0 <= i < |matches| && matches[i].lit == l
  {
    var front := matches[..|matches| - 1];
    if matches[|matches| - 1].lit != l {
      CountedMatch(front, l);
      var i :| 0 <= i < |front| && front[i].lit == l;
      assert matches[i].lit == l;
    }
  }

  lemma TouchedBounds(db: Database, refs: seq<Ref>, alive: seq<bool>, anchor: Lit, rows: seq<nat>, selected: seq<Lit>,
                      left: seq<nat>, counts: seq<nat>, touched: seq<Lit>, matches: seq<Match>)
    requires Tally(left, counts, touched, matches)
             && MatchesOk(db, refs, alive, anchor, rows, selected, matches, |counts|)
    ensures |counts| == |left| && forall l :: l in touched ==> 2 <= l < |counts| && counts[l] >= 1 && left[l] == 0
  {
    forall l | l in touched ensures 2 <= l {
      CountedMatch(matches, l);
    }
  }

  lemma GroupBound(db: Database, refs: seq<Ref>, alive: seq<bool>, anchor: Lit, rows: seq<nat>, selected: seq<Lit>,
                   matched: seq<nat>, selectedMarks: seq<bool>)
    requires RectangleOk(db, refs, alive, anchor, rows, selected, matched) && GroupMarked(selectedMarks, selected)
    ensures 1 <= |selected| <= |selectedMarks| && selected[0] == anchor
  {
    DistinctBound(selected, |selectedMarks|);
  }

  /** The literal found may join the group. */
  lemma PartnerFits(db: Database, refs: seq<Ref>, alive: seq<bool>, anchor: Lit, rows: seq<nat>, selected: seq<Lit>,
                    left: seq<nat>, counts: seq<nat>, touched: seq<Lit>, matches: seq<Match>, best: Lit, highest: nat)
    requires Tally(left, counts, touched, matches)
             && MatchesOk(db, refs, alive, anchor, rows, selected, matches, |counts|)
    requires BestOf(best, counts, touched) && StoreOk(db, highest)
    requires forall i :: 0 <= i < |refs| ==> refs[i] in db && !db[refs[i]].redundant
    ensures best !in selected && best < |counts| && 1 <= Var(best) <= highest
  {
    CountedMatch(matches, best);
    var i :| 0 <= i < |matches| && matches[i].lit == best;
    var m := matches[i];
    assert MatchOk(db, refs, alive, anchor, rows, selected, m);
    assert best in Literals(ClauseAt(db, refs, m.clause));
    LiteralBounds(db, highest, 2 * highest + 2, refs[m.clause]);
  }

  // ---------------------------------------------------------------------------------------------
  // Building the index, and the clauses a run leaves
  // ---------------------------------------------------------------------------------------------

  lemma EmptyIndex(db: Database, garbage: set<Ref>, occurrences: seq<seq<nat>>)
    requires forall l: nat :: l < |occurrences| ==> occurrences[l] == []
    ensures IndexOk(db, garbage, [], [], []) && OccurrencesOk(db, [], occurrences)
  {
  }

  function PermanentRefs(db: Database): set<Ref> {
    set r | r in db && !db[r].redundant
  }

  ghost predicate VariablesBelow(db: Database, done: set<Ref>, highest: nat) {
    forall r, l :: r in done && r in db && l in db[r].lits ==> Var(l) <= highest
  }

  lemma StoreBelow(db: Database, bound: nat, highest: nat)
    requires StoreOk(db, bound) && VariablesBelow(db, PermanentRefs(db), highest)
    ensures StoreOk(db, highest)
  {
    forall r | r in db && !db[r].redundant ensures ClauseOk(highest, db[r].lits) {
      var c := db[r].lits;
      assert ClauseOk(bound, c);
      forall i | 0 <= i < |c| ensures ValidLit(highest, c[i]) {
        assert c[i] in c;
      }
    }
  }

  /** No live clause is repeated anywhere in the store. */
  ghost predicate StoreDistinct(db: Database) {
    forall r, s :: r in db && s in db && r != s && !db[r].redundant && !db[s].redundant ==>
      Literals(db[r].lits) != Literals(db[s].lits)
  }

  lemma IndexDistinct(db: Database, garbage: set<Ref>, refs: seq<Ref>, alive: seq<bool>, sizes: seq<nat>)
    requires StoreDistinct(db) && IndexOk(db, garbage, refs, alive, sizes)
    ensures NoDuplicates(db, refs, alive)
  {
  }

  /** The store without its garbage. */
  function Flushed(db: Database, garbage: set<Ref>): Database {
    map r | r in db && r !in garbage :: db[r]
  }

  lemma FlushedIs(db: Database, garbage: set<Ref>)
    ensures LiveRefs(Flushed(db, garbage), {}) == LiveRefs(db, garbage)
    ensures forall a: Assignment :: SatisfiesLive(a, Flushed(db, garbage), {}) <==> SatisfiesLive(a, db, garbage)
  {
    var f := Flushed(db, garbage);
    forall r: Ref ensures LiveRef(f, {}, r) <==> LiveRef(db, garbage, r) {
    }
    forall r: Ref | LiveRef(db, garbage, r) ensures f[r] == db[r] {
    }
    forall a: Assignment ensures SatisfiesLive(a, f, {}) <==> SatisfiesLive(a, db, garbage) {
      if SatisfiesLive(a, f, {}) {
        forall r: Ref | LiveRef(db, garbage, r) ensures Satisfies(a, db[r].lits) {
          assert LiveRef(f, {}, r);
        }
      }
      if SatisfiesLive(a, db, garbage) {
        forall r: Ref | LiveRef(f, {}, r) ensures Satisfies(a, f[r].lits) {
          assert LiveRef(db, garbage, r);
        }
      }
    }
  }

  lemma FlushedKeepsModels(db: Database, garbage: set<Ref>, highest: nat, db': Database, garbage': set<Ref>)
    requires SameModels(db, garbage, highest, db', garbage')
    ensures SameModels(db, garbage, highest, Flushed(db', garbage'), {})
  {
    FlushedIs(db', garbage');
    var f := Flushed(db', garbage');
    forall a: Assignment | SatisfiesLive(a, db, garbage) ensures Extendable(a, highest, f, {}) {
      assert Extendable(a, highest, db', garbage');
      var b := ExtensionOf(a, highest, db', garbage');
      assert SatisfiesLive(b, f, {});
    }
  }

  /** What a run achieves, the index aside. */
  ghost predicate RunOutcome(db: Database, highest: nat, db': Database, highest': nat) {
    && highest <= highest' && SameModels(db, {}, highest, db', {})
    && (StoreDistinct(db) ==> |LiveRefs(db', {})| + (highest' - highest) <= |LiveRefs(db, {})|)
  }

  lemma RunDone(db: Database, refs: seq<Ref>, alive: seq<bool>, sizes: seq<nat>, highest: nat,
                db': Database, garbage': set<Ref>, refs': seq<Ref>, alive': seq<bool>, highest': nat)
    requires IndexOk(db, {}, refs, alive, sizes)
    requires Outcome(db, {}, refs, alive, highest, db', garbage', refs', alive', highest')
    ensures RunOutcome(db, highest, Flushed(db', garbage'), highest')
  {
    FlushedKeepsModels(db, {}, highest, db', garbage');
    FlushedIs(db', garbage');
    if StoreDistinct(db) {
      IndexDistinct(db, {}, refs, alive, sizes);
    }
  }

  lemma RunNothing(db: Database, highest: nat)
    ensures RunOutcome(db, highest, db, highest)
  {
    SameModelsReflexive(db, {}, highest);
  }
}
