/** Which literal pairs with most rows of a rectangle, and when the search for it finds that literal. */
module Pairing {
  import opened Logic
  import opened SearchState
  import opened Factoring

  // ---------------------------------------------------------------------------------------------
  // Every pair is recorded, once
  // ---------------------------------------------------------------------------------------------

  /** No match is recorded twice, and all are of earlier rows or of the clauses of this row done already. */
  ghost predicate Once(matches: seq<Match>, row: nat, done: set<nat>) {
    && (forall i, j :: 0 <= i < j < |matches| ==> matches[i] != matches[j])
    && (forall m :: m in matches ==> m.row < row || (m.row == row && m.clause in done))
  }

  /** Every clause that pairs with an earlier row, or is done and pairs with this one, is recorded. */
  ghost predicate Recorded(db: Database, refs: seq<Ref>, alive: seq<bool>, anchor: Lit, rows: seq<nat>,
                           selected: seq<Lit>, matches: seq<Match>, row: nat, done: set<nat>) {
    forall m: Match ::
      MatchOk(db, refs, alive, anchor, rows, selected, m) && (m.row < row || (m.row == row && m.clause in done)) ==>
        m in matches
  }

  /** The matches are the pairs there are, each once. */
  ghost predicate AllPairs(db: Database, refs: seq<Ref>, alive: seq<bool>, anchor: Lit, rows: seq<nat>,
                           selected: seq<Lit>, matches: seq<Match>) {
    && (forall i, j :: 0 <= i < j < |matches| ==> matches[i] != matches[j])
    && (forall m: Match :: m in matches <==> MatchOk(db, refs, alive, anchor, rows, selected, m))
  }

  /** The clause pairs with the row. */
  ghost predicate PairsAt(db: Database, refs: seq<Ref>, alive: seq<bool>, anchor: Lit, rows: seq<nat>,
                          selected: seq<Lit>, row: nat, other: nat) {
    exists l: Lit :: MatchOk(db, refs, alive, anchor, rows, selected, Match(row, l, other))
  }

  lemma NothingRecorded(db: Database, refs: seq<Ref>, alive: seq<bool>, anchor: Lit, rows: seq<nat>, selected: seq<Lit>)
    ensures Once([], 0, {}) && Recorded(db, refs, alive, anchor, rows, selected, [], 0, {})
  {
  }

  /** A clause that does not pair with the row leaves nothing to record. */
  lemma NoneToRecord(db: Database, refs: seq<Ref>, alive: seq<bool>, anchor: Lit, rows: seq<nat>, selected: seq<Lit>,
                     matches: seq<Match>, row: nat, done: set<nat>, other: nat)
    requires Once(matches, row, done) && Recorded(db, refs, alive, anchor, rows, selected, matches, row, done)
    requires !PairsAt(db, refs, alive, anchor, rows, selected, row, other)
    ensures Once(matches, row, done + {other})
    ensures Recorded(db, refs, alive, anchor, rows, selected, matches, row, done + {other})
  {
    forall m: Match | MatchOk(db, refs, alive, anchor, rows, selected, m)
        && (m.row < row || (m.row == row && m.clause in done + {other}))
      ensures m in matches
    {
      assert m == Match(m.row, m.lit, m.clause);
    }
  }

  /** The one literal a clause pairs with the row by has been recorded. */
  lemma OneToRecord(db: Database, refs: seq<Ref>, alive: seq<bool>, anchor: Lit, rows: seq<nat>, selected: seq<Lit>,
                    matches: seq<Match>, row: nat, done: set<nat>, other: nat, extra: Lit)
    requires Once(matches, row, done) && Recorded(db, refs, alive, anchor, rows, selected, matches, row, done)
    requires other !in done && MatchOk(db, refs, alive, anchor, rows, selected, Match(row, extra, other))
    ensures Once(matches + [Match(row, extra, other)], row, done + {other})
    ensures Recorded(db, refs, alive, anchor, rows, selected, matches + [Match(row, extra, other)], row, done + {other})
  {
    var more := matches + [Match(row, extra, other)];
    assert more[|matches|] == Match(row, extra, other);
    forall i, j | 0 <= i < j < |more| ensures more[i] != more[j] {
      assert more[i] in matches;
    }
    forall m: Match | MatchOk(db, refs, alive, anchor, rows, selected, m)
        && (m.row < row || (m.row == row && m.clause in done + {other}))
      ensures m in more
    {
      if m.row == row && m.clause == other {
        SameExtra(db, refs, alive, anchor, rows, selected, row, other, m.lit, extra);
        assert m == more[|matches|];
      } else {
        assert m in matches;
        assert forall k :: 0 <= k < |matches| ==> more[k] == matches[k];
      }
    }
  }

  lemma SameExtra(db: Database, refs: seq<Ref>, alive: seq<bool>, anchor: Lit, rows: seq<nat>, selected: seq<Lit>,
                  row: nat, other: nat, l: Lit, m: Lit)
    requires MatchOk(db, refs, alive, anchor, rows, selected, Match(row, l, other))
    requires MatchOk(db, refs, alive, anchor, rows, selected, Match(row, m, other))
    ensures l == m
  {
    var body := Body(db, refs, anchor, rows[row]);
    assert body + {l} == body + {m};
    assert l in body + {l};
  }

  /** A row whose pivot list has been gone through is done: every clause that holds the body holds the pivot. */
  lemma RowRecorded(db: Database, refs: seq<Ref>, alive: seq<bool>, anchor: Lit, rows: seq<nat>, selected: seq<Lit>,
                    occurrences: seq<seq<nat>>, matches: seq<Match>, row: nat, pivot: Lit, done: set<nat>)
    requires Once(matches, row, done) && Recorded(db, refs, alive, anchor, rows, selected, matches, row, done)
    requires OccurrencesOk(db, refs, occurrences) && row < |rows| && pivot in Body(db, refs, anchor, rows[row])
    requires pivot < |occurrences| && forall id :: id in occurrences[pivot] ==> id in done
    ensures Once(matches, row + 1, {}) && Recorded(db, refs, alive, anchor, rows, selected, matches, row + 1, {})
  {
    forall m: Match | MatchOk(db, refs, alive, anchor, rows, selected, m) && m.row < row + 1 ensures m in matches {
      if m.row == row {
        assert pivot in Literals(ClauseAt(db, refs, m.clause));
      }
    }
  }

  /** A row cut short by the effort still leaves no match recorded twice. */
  lemma RowLeft(matches: seq<Match>, row: nat, done: set<nat>)
    requires Once(matches, row, done)
    ensures Once(matches, row + 1, {})
  {
  }

  lemma RowsRecorded(db: Database, refs: seq<Ref>, alive: seq<bool>, anchor: Lit, rows: seq<nat>, selected: seq<Lit>,
                     matches: seq<Match>, slots: nat)
    requires MatchesOk(db, refs, alive, anchor, rows, selected, matches, slots) && Once(matches, |rows|, {})
    requires Recorded(db, refs, alive, anchor, rows, selected, matches, |rows|, {})
    ensures AllPairs(db, refs, alive, anchor, rows, selected, matches)
  {
    forall m | m in matches ensures MatchOk(db, refs, alive, anchor, rows, selected, m) {
      var i :| 0 <= i < |matches| && matches[i] == m;
    }
  }

  // ---------------------------------------------------------------------------------------------
  // What the comparison of a clause with a row finds
  // ---------------------------------------------------------------------------------------------

  lemma {:induction false} OneUnmarked(marks: seq<bool>, c: Clause, k: nat, l: Lit)
    requires k <= |c| && (forall i, j :: 0 <= i < j < |c| ==> c[i] != c[j])
    requires forall i :: 0 <= i < k ==> c[i] < |marks| && (marks[c[i]] <==> c[i] != l)
    ensures MarkedCount(marks, c, k) == if l in c[..k] then k - 1 else k
  {
    if k > 0 {
      OneUnmarked(marks, c, k - 1, l);
      assert c[..k] == c[..k - 1] + [c[k - 1]];
      assert l in c[..k - 1] ==> c[k - 1] != l;
    }
  }

  /** What is true of a clause that pairs with a row by a literal. */
  lemma PairIsSeen(db: Database, refs: seq<Ref>, alive: seq<bool>, highest: nat, anchor: Lit, rows: seq<nat>,
                   selected: seq<Lit>, row: nat, other: nat, l: Lit)
    requires MatchOk(db, refs, alive, anchor, rows, selected, Match(row, l, other)) && StoreOk(db, highest)
    requires rows[row] < |refs| && refs[rows[row]] in db && !db[refs[rows[row]]].redundant
             && anchor in ClauseAt(db, refs, rows[row])
    requires refs[other] in db && !db[refs[other]].redundant
    ensures other != rows[row] && alive[other] && |db[refs[other]].lits| == |db[refs[rows[row]]].lits|
    ensures Literals(db[refs[other]].lits) == Body(db, refs, anchor, rows[row]) + {l}
            && l !in Body(db, refs, anchor, rows[row])
  {
    var body, c, d := Body(db, refs, anchor, rows[row]), db[refs[other]].lits, db[refs[rows[row]]].lits;
    LiteralsSize(highest, c);
    LiteralsSize(highest, d);
    assert anchor in Literals(d) && Literals(d) == body + {anchor};
    assert Literals(c) == body + {l};
    hide StoreOk, NoDuplicates, Literals;
    assert l != anchor && anchor !in Literals(c);
  }

  /** The comparison finds that literal. */
  lemma ExtraIsFound(highest: nat, marks: seq<bool>, c: Clause, body: set<Lit>, l: Lit, marked: nat, extra: Lit)
    requires ClauseOk(highest, c) && Literals(c) == body + {l} && l !in body
    requires BodyMarked(marks, body) && (forall m :: m in c ==> m < |marks|) && Marked(marks, c, |c|, marked, extra)
    ensures marked + 1 == |c| && extra == l
  {
    forall i, j | 0 <= i < j < |c| ensures c[i] != c[j] {
      assert Var(c[i]) != Var(c[j]);
    }
    hide ClauseOk;
    forall i | 0 <= i < |c| ensures c[i] < |marks| && (marks[c[i]] <==> c[i] != l) {
      assert c[i] in c && c[i] in Literals(c);
    }
    OneUnmarked(marks, c, |c|, l);
    assert l in body + {l};
    assert c[..|c|] == c && l in Literals(c);
  }

  /** A clause that pairs with the row is another live clause of the same size. */
  lemma PairShape(db: Database, refs: seq<Ref>, alive: seq<bool>, highest: nat, marks: seq<bool>, anchor: Lit,
                  rows: seq<nat>, selected: seq<Lit>, row: nat, other: nat)
    requires StoreOk(db, highest) && row < |rows| && other < |refs| && other < |alive|
    requires rows[row] < |refs| && refs[rows[row]] in db && !db[refs[rows[row]]].redundant
             && anchor in ClauseAt(db, refs, rows[row])
    requires refs[other] in db && !db[refs[other]].redundant
    ensures PairsAt(db, refs, alive, anchor, rows, selected, row, other) ==>
              other != rows[row] && alive[other] && |db[refs[other]].lits| == |db[refs[rows[row]]].lits|
  {
    if PairsAt(db, refs, alive, anchor, rows, selected, row, other) {
      var l: Lit :| MatchOk(db, refs, alive, anchor, rows, selected, Match(row, l, other));
      PairIsSeen(db, refs, alive, highest, anchor, rows, selected, row, other, l);
    }
  }

  /** The comparison with such a clause leaves one literal, and nothing stands against it. */
  lemma PairFound(db: Database, refs: seq<Ref>, alive: seq<bool>, highest: nat, marks: seq<bool>, anchor: Lit,
                  rows: seq<nat>, selected: seq<Lit>, row: nat, other: nat, marked: nat, extra: Lit)
    requires StoreOk(db, highest) && row < |rows| && other < |refs| && other < |alive|
    requires rows[row] < |refs| && refs[rows[row]] in db && !db[refs[rows[row]]].redundant
             && anchor in ClauseAt(db, refs, rows[row])
    requires refs[other] in db && !db[refs[other]].redundant
    requires BodyMarked(marks, Body(db, refs, anchor, rows[row]))
             && forall m :: m in db[refs[other]].lits ==> 2 <= m < |marks|
    requires Marked(marks, db[refs[other]].lits, |db[refs[other]].lits|, marked, extra)
    ensures PairsAt(db, refs, alive, anchor, rows, selected, row, other) ==>
              && marked + 1 == |db[refs[other]].lits| && extra != NO_LITERAL && extra != anchor
                  && Var(extra) != Var(anchor)
              && extra !in selected && Neg(extra) !in Body(db, refs, anchor, rows[row])
  {
    if PairsAt(db, refs, alive, anchor, rows, selected, row, other) {
      var l: Lit :| MatchOk(db, refs, alive, anchor, rows, selected, Match(row, l, other));
      PairIsSeen(db, refs, alive, highest, anchor, rows, selected, row, other, l);
      assert ClauseOk(highest, db[refs[other]].lits);
      ExtraIsFound(highest, marks, db[refs[other]].lits, Body(db, refs, anchor, rows[row]), l, marked, extra);
      assert l in Literals(db[refs[other]].lits);
    }
  }

  /** A pair found may be recorded. */
  lemma MatchFits(db: Database, refs: seq<Ref>, alive: seq<bool>, highest: nat, anchor: Lit, rows: seq<nat>,
                  selected: seq<Lit>, matches: seq<Match>, m: Match, slots: nat)
    requires MatchesOk(db, refs, alive, anchor, rows, selected, matches, slots) && 2 * highest + 2 <= slots
    requires MatchOk(db, refs, alive, anchor, rows, selected, m) && StoreOk(db, highest)
    requires forall i :: 0 <= i < |refs| ==> refs[i] in db && !db[refs[i]].redundant
    ensures MatchesOk(db, refs, alive, anchor, rows, selected, matches + [m], slots) && m.lit < slots
  {
    assert m.lit in Literals(ClauseAt(db, refs, m.clause));
    LiteralBounds(db, highest, slots, refs[m.clause]);
  }

  // ---------------------------------------------------------------------------------------------
  // The best partner
  // ---------------------------------------------------------------------------------------------

  /** The literal with the most matches, two at least; the lower one among equals. */
  ghost predicate Top(top: Lit, matches: seq<Match>, slots: nat) {
    && NO_LITERAL != top < slots && CountOf(matches, top) >= 2
    && forall l: nat :: l < slots ==>
         CountOf(matches, l) < CountOf(matches, top) || (CountOf(matches, l) == CountOf(matches, top) && top <= l)
  }

  /** What the search returns is the best literal exactly when no count was left standing for that one, and it returns
      nothing exactly when one was for every literal with two matches. */
  lemma BestIsTop(left: seq<nat>, counts: seq<nat>, touched: seq<Lit>, matches: seq<Match>, best: Lit)
    requires Tally(left, counts, touched, matches) && forall l :: l in touched ==> l != NO_LITERAL
    requires if best == NO_LITERAL then forall l :: l in touched ==>
             counts[l] == 1 else BestOf(best, counts, touched) && counts[best] >= 2
    ensures forall top: Lit :: Top(top, matches, |counts|) ==> (best == top <==> left[top] == 0)
    ensures best == NO_LITERAL <==> forall l: nat :: l < |counts| && CountOf(matches, l) >= 2 ==> left[l] != 0
  {
    forall top: Lit | Top(top, matches, |counts|) ensures best == top <==> left[top] == 0 {
      if left[top] == 0 {
        assert top in touched;
      }
    }
    if best != NO_LITERAL {
      assert best in touched && left[best] == 0 && CountOf(matches, best) == counts[best];
    }
  }

  /** No literal without a standing count would make the rectangle save more. */
  ghost predicate Stuck(left: seq<nat>, matches: seq<Match>, width: nat, bodies: nat) {
    forall l: nat :: l < |left| && left[l] == 0 && CountOf(matches, l) >= 2 ==>
      Saving(width + 1, CountOf(matches, l)) <= Saving(width, bodies)
  }

  /** Some literal without a standing count has two matches. */
  ghost predicate Findable(left: seq<nat>, matches: seq<Match>) {
    exists l: nat :: l < |left| && left[l] == 0 && CountOf(matches, l) >= 2
  }

  // ---------------------------------------------------------------------------------------------
  // Effort
  // ---------------------------------------------------------------------------------------------

  function RowsCost(rows: nat, clauses: nat): nat {
    rows * clauses
  }

  /** A search looks at each indexed clause at most once per row. */
  function SearchCost(clauses: nat): nat {
    RowsCost(clauses, clauses)
  }

  /** An anchor takes at most one search per literal. */
  function LiteralCost(slots: nat, clauses: nat): nat {
    slots * SearchCost(clauses)
  }

  function CandidatesCost(candidates: nat, slots: nat, clauses: nat): nat {
    candidates * LiteralCost(slots, clauses)
  }

  /** A round takes every literal as its anchor at most once. */
  function RoundCost(slots: nat, clauses: nat): nat {
    CandidatesCost(slots, slots, clauses)
  }

  lemma OneMoreCandidate(candidates: nat, slots: nat, clauses: nat)
    ensures CandidatesCost(candidates, slots, clauses) + LiteralCost(slots, clauses)
            == CandidatesCost(candidates + 1, slots, clauses)
    ensures CandidatesCost(0, slots, clauses) == 0
  {
    hide LiteralCost;
  }

  lemma FewerCandidates(fewer: nat, candidates: nat, slots: nat, clauses: nat)
    requires fewer <= candidates
    ensures CandidatesCost(fewer, slots, clauses) <= CandidatesCost(candidates, slots, clauses)
  {
    hide LiteralCost;
    assert (candidates - fewer) * LiteralCost(slots, clauses) >= 0;
  }

  lemma RoundBound(candidates: nat, slots: nat, clauses: nat)
    requires candidates <= slots
    ensures CandidatesCost(candidates, slots, clauses) <= RoundCost(slots, clauses)
  {
    FewerCandidates(candidates, slots, slots, clauses);
  }

  lemma {:induction false} AscendingBound(list: seq<nat>, bound: nat)
    requires forall i, j :: 0 <= i < j < |list| ==> list[i] < list[j]
    requires forall i :: 0 <= i < |list| ==> list[i] < bound
    ensures |list| <= bound
  {
    if list != [] {
      AscendingBound(list[..|list| - 1], list[|list| - 1]);
    }
  }

  lemma OccurrenceCount(db: Database, refs: seq<Ref>, occurrences: seq<seq<nat>>, l: Lit)
    requires OccurrencesOk(db, refs, occurrences) && l < |occurrences|
    ensures |occurrences[l]| <= |refs|
  {
    AscendingBound(occurrences[l], |refs|);
  }

  lemma RowCount(db: Database, refs: seq<Ref>, alive: seq<bool>, anchor: Lit, rows: seq<nat>, selected: seq<Lit>,
                 matched: seq<nat>)
    requires RectangleOk(db, refs, alive, anchor, rows, selected, matched)
    ensures RowsCost(|rows|, |refs|) <= SearchCost(|refs|)
    ensures forall r :: 0 <= r < |rows| ==>
              rows[r] < |refs| && rows[r] < |alive| && alive[rows[r]] && anchor in ClauseAt(db, refs, rows[r])
  {
    AscendingBound(rows, |refs|);
    assert (|refs| - |rows|) * |refs| >= 0;
  }

  lemma FewerRows(row: nat, rows: nat, clauses: nat)
    requires row <= rows
    ensures RowsCost(row, clauses) <= RowsCost(rows, clauses)
  {
    assert (rows - row) * clauses >= 0;
  }

  lemma OneMoreRow(row: nat, clauses: nat)
    ensures RowsCost(row, clauses) + clauses == RowsCost(row + 1, clauses) && RowsCost(0, clauses) == 0
  {
  }

  /** The searches made for one anchor. */
  lemma SearchesBound(made: nat, slots: nat, clauses: nat)
    requires made <= slots
    ensures made * SearchCost(clauses) <= LiteralCost(slots, clauses)
  {
    assert (slots - made) * SearchCost(clauses) >= 0;
  }

  lemma OneMoreSearch(made: nat, clauses: nat)
    ensures made * SearchCost(clauses) + SearchCost(clauses) == (made + 1) * SearchCost(clauses)
  {
  }

  /** The rows of an anchor and the matches of the first search over them. */
  datatype Opening = Opening(rows: seq<nat>, matches: seq<Match>)

  /** The live clauses of the anchor, in ascending order. */
  ghost predicate AnchorRows(db: Database, refs: seq<Ref>, alive: seq<bool>, anchor: Lit, rows: seq<nat>) {
    && (forall r, s :: 0 <= r < s < |rows| ==> rows[r] < rows[s])
    && (forall r :: 0 <= r < |rows| ==>
          rows[r] < |refs| && rows[r] < |alive| && alive[rows[r]] && anchor in ClauseAt(db, refs, rows[r]))
    && (forall id: nat :: id < |refs| && id < |alive| && alive[id] && anchor in ClauseAt(db, refs, id) ==> id in rows)
  }

  /** What was found for one anchor: its rows and first matches, the rectangle it ended with, the matches of the last
      search and the counts standing before that, and the counts before and after. */
  datatype Visit = Visit(
    opening: Opening, rows: seq<nat>, selected: seq<Lit>, matches: seq<Match>, left: seq<nat>, before: seq<nat>,
    after: seq<nat>, touched: seq<Lit>)

  /** Nothing is to be gained at the anchor: of its rectangles the one grown greedily saves no clause, and no literal
      but one with a standing count would make it grow. */
  ghost predicate Visited(db: Database, refs: seq<Ref>, alive: seq<bool>, anchor: Lit, v: Visit) {
    && AnchorRows(db, refs, alive, anchor, v.opening.rows)
    && (|v.opening.rows| >= 2 ==>
          && AllPairs(db, refs, alive, anchor, v.opening.rows, [anchor], v.opening.matches)
          && AllPairs(db, refs, alive, anchor, v.rows, v.selected, v.matches)
          && Stuck(v.left, v.matches, |v.selected|, |v.rows|)
          && (|v.selected| < 2 || Saving(|v.selected|, |v.rows|) < 1)
          && (!Findable(v.before, v.opening.matches) ==> Tally(v.before, v.after, v.touched, v.opening.matches)))
  }

  /** Each candidate was visited, in order, each where the one before it left the counts. */
  ghost predicate AllVisited(db: Database, refs: seq<Ref>, alive: seq<bool>, candidates: seq<Lit>, visits: seq<Visit>,
                             before: seq<nat>, after: seq<nat>) {
    && |visits| == |candidates|
    && (forall i :: 0 <= i < |visits| ==> Visited(db, refs, alive, candidates[i], visits[i]))
    && Chained(visits, before, after)
  }

  ghost predicate Chained(visits: seq<Visit>, before: seq<nat>, after: seq<nat>) {
    if visits == [] then after == before
    else
      && visits[0].before == before && visits[|visits| - 1].after == after
      && forall i :: 0 <= i < |visits| - 1 ==> visits[i].after == visits[i + 1].before
  }

  lemma NoneVisited(db: Database, refs: seq<Ref>, alive: seq<bool>, candidates: seq<Lit>, counts: seq<nat>)
    ensures AllVisited(db, refs, alive, candidates[..0], [], counts, counts)
  {
  }

  lemma OneMoreVisited(db: Database, refs: seq<Ref>, alive: seq<bool>, candidates: seq<Lit>, visits: seq<Visit>,
                       before: seq<nat>, v: Visit)
    requires |visits| < |candidates| && Visited(db, refs, alive, candidates[|visits|], v)
    requires AllVisited(db, refs, alive, candidates[..|visits|], visits, before, v.before)
    ensures AllVisited(db, refs, alive, candidates[..|visits| + 1], visits + [v], before, v.after)
  {
    hide Visited;
    var more := visits + [v];
    forall i | 0 <= i < |more| ensures Visited(db, refs, alive, candidates[..|visits| + 1][i], more[i]) {
      if i < |visits| {
        assert Visited(db, refs, alive, candidates[..|visits|][i], visits[i]);
      }
    }
  }

  /** The literals two live clauses share are all candidates. */
  ghost predicate Candidates(db: Database, refs: seq<Ref>, alive: seq<bool>, candidates: seq<Lit>) {
    forall l: Lit, i: nat, j: nat :: i < j < |refs| && Shares(db, refs, alive, i, j, l) ==> l in candidates
  }

  /** Two live clauses both contain the literal. */
  ghost predicate Shares(db: Database, refs: seq<Ref>, alive: seq<bool>, i: nat, j: nat, l: Lit) {
    && i < |alive| && j < |alive| && alive[i] && alive[j]
    && l in ClauseAt(db, refs, i) && l in ClauseAt(db, refs, j)
  }

  /** A last round: whatever literal two live clauses share was tried as an anchor, and nothing is to be gained. */
  ghost predicate NothingGained(db: Database, refs: seq<Ref>, alive: seq<bool>, before: seq<nat>) {
    exists candidates: seq<Lit>, visits: seq<Visit>, after: seq<nat> ::
      Candidates(db, refs, alive, candidates) && AllVisited(db, refs, alive, candidates, visits, before, after)
  }

  lemma GainedNothing(db: Database, refs: seq<Ref>, alive: seq<bool>, candidates: seq<Lit>, visits: seq<Visit>,
                      before: seq<nat>, after: seq<nat>)
    requires Candidates(db, refs, alive, candidates) && AllVisited(db, refs, alive, candidates, visits, before, after)
    ensures NothingGained(db, refs, alive, before)
  {
  }

  /** When the best literal found would not make it save more, none would. */
  lemma BestDecides(left: seq<nat>, counts: seq<nat>, touched: seq<Lit>, matches: seq<Match>, best: Lit, width: nat,
                    bodies: nat)
    requires Tally(left, counts, touched, matches) && BestOf(best, counts, touched)
    requires Saving(width + 1, counts[best]) <= Saving(width, bodies)
    ensures Stuck(left, matches, width, bodies)
  {
    forall l: nat | l < |left| && left[l] == 0 && CountOf(matches, l) >= 2
      ensures Saving(width + 1, CountOf(matches, l)) <= Saving(width, bodies)
    {
      assert l in touched && CountOf(matches, l) == counts[l] <= counts[best];
      SavingGrows(width + 1, CountOf(matches, l), counts[best]);
    }
  }

  lemma BestIsCounted(left: seq<nat>, counts: seq<nat>, touched: seq<Lit>, matches: seq<Match>, best: Lit)
    requires Tally(left, counts, touched, matches) && BestOf(best, counts, touched)
    ensures best < |counts| && counts[best] == CountOf(matches, best)
  {
  }

  lemma SavingGrows(width: nat, few: nat, many: nat)
    requires few <= many && width >= 1
    ensures Saving(width, few) <= Saving(width, many)
  {
    assert Saving(width, many) - Saving(width, few) == (width - 1) * (many - few);
  }

  ghost predicate HasMatch(matches: seq<Match>, row: nat, l: Lit) {
    exists m :: m in matches && m.row == row && m.lit == l
  }

  lemma NoMatch(l: Lit)
    ensures forall r: nat :: !HasMatch([], r, l)
  {
  }

  lemma MatchMore(matches: seq<Match>, m: Match, l: Lit)
    ensures forall r: nat :: HasMatch(matches + [m], r, l) <==> HasMatch(matches, r, l) || (m.row == r && m.lit == l)
  {
    forall r: nat ensures HasMatch(matches + [m], r, l) <==> HasMatch(matches, r, l) || (m.row == r && m.lit == l) {
      assert forall e :: e in matches + [m] <==> e in matches || e == m;
    }
  }

  /** The rows among the first `k` that a literal pairs with, in their order. */
  ghost function PairedWith(rows: seq<nat>, matches: seq<Match>, l: Lit, k: nat): seq<nat>
    requires k <= |rows|
  {
    if k == 0 then []
    else PairedWith(rows, matches, l, k - 1) + if HasMatch(matches, k - 1, l) then [rows[k - 1]] else []
  }

  /** Some clause pairs with the row by the literal. */
  ghost predicate PairsBy(db: Database, refs: seq<Ref>, alive: seq<bool>, anchor: Lit, rows: seq<nat>,
                          selected: seq<Lit>, row: nat, l: Lit) {
    exists other: nat :: MatchOk(db, refs, alive, anchor, rows, selected, Match(row, l, other))
  }

  /** The rows a literal pairs with. */
  ghost function PairedRows(db: Database, refs: seq<Ref>, alive: seq<bool>, anchor: Lit, rows: seq<nat>,
                            selected: seq<Lit>, l: Lit)
    : set<nat>
  {
    set row: nat | row < |rows| && PairsBy(db, refs, alive, anchor, rows, selected, row, l)
  }

  ghost function MatchedRows(matches: seq<Match>, l: Lit): set<nat> {
    set i | 0 <= i < |matches| && matches[i].lit == l :: matches[i].row
  }

  lemma {:induction false} CountIsSize(matches: seq<Match>, l: Lit)
    requires forall i, j :: 0 <= i < j < |matches| && matches[i].lit == matches[j].lit == l ==>
             matches[i].row != matches[j].row
    ensures CountOf(matches, l) == |MatchedRows(matches, l)|
  {
    if matches != [] {
      var n := |matches| - 1;
      CountIsSize(matches[..n], l);
      MatchedMore(matches, l);
      assert matches[n].lit == l ==> matches[n].row !in MatchedRows(matches[..n], l);
    }
  }

  lemma MatchedMore(matches: seq<Match>, l: Lit)
    requires matches != []
    ensures var n := |matches| - 1;
            MatchedRows(matches, l) == MatchedRows(matches[..n], l) + if matches[n].lit == l then {matches[n].row}
                else {}
  {
    var n := |matches| - 1;
    forall r ensures r in MatchedRows(matches, l) <==>
        r in MatchedRows(matches[..n], l) || (matches[n].lit == l && r == matches[n].row) {
      if r in MatchedRows(matches, l) {
        var i :| 0 <= i < |matches| && matches[i].lit == l && matches[i].row == r;
        assert i < n ==> matches[..n][i] == matches[i];
      }
      if r in MatchedRows(matches[..n], l) {
        var i :| 0 <= i < n && matches[..n][i].lit == l && matches[..n][i].row == r;
        assert matches[i] == matches[..n][i];
      }
    }
  }

  lemma SameClause(db: Database, refs: seq<Ref>, alive: seq<bool>, anchor: Lit, rows: seq<nat>, selected: seq<Lit>,
                   m: Match, k: Match)
    requires MatchOk(db, refs, alive, anchor, rows, selected, m) && MatchOk(db, refs, alive, anchor, rows, selected, k)
    requires NoDuplicates(db, refs, alive) && |alive| == |refs| && m.row == k.row && m.lit == k.lit
    ensures m == k
  {
    assert Literals(ClauseAt(db, refs, m.clause)) == Literals(ClauseAt(db, refs, k.clause));
  }

  /** On an index without duplicates the count of a literal is the number of rows it pairs with. */
  lemma CountIsRows(db: Database, refs: seq<Ref>, alive: seq<bool>, anchor: Lit, rows: seq<nat>, selected: seq<Lit>,
                    matches: seq<Match>, l: Lit)
    requires AllPairs(db, refs, alive, anchor, rows, selected, matches) && NoDuplicates(db, refs, alive)
             && |alive| == |refs|
    ensures CountOf(matches, l) == |PairedRows(db, refs, alive, anchor, rows, selected, l)|
  {
    forall i, j | 0 <= i < j < |matches| && matches[i].lit == matches[j].lit == l
        ensures matches[i].row != matches[j].row {
      assert matches[i] in matches && matches[j] in matches;
      if matches[i].row == matches[j].row {
        SameClause(db, refs, alive, anchor, rows, selected, matches[i], matches[j]);
      }
    }
    CountIsSize(matches, l);
    var paired := PairedRows(db, refs, alive, anchor, rows, selected, l);
    forall r ensures r in MatchedRows(matches, l) <==> r in paired {
      if r in MatchedRows(matches, l) {
        var i :| 0 <= i < |matches| && matches[i].lit == l && matches[i].row == r;
        assert matches[i] in matches && matches[i] == Match(r, l, matches[i].clause);
      }
      if r in paired {
        var other: nat :| MatchOk(db, refs, alive, anchor, rows, selected, Match(r, l, other));
        var m := Match(r, l, other);
        assert m in matches;
        var i :| 0 <= i < |matches| && matches[i] == m;
      }
    }
    assert MatchedRows(matches, l) == paired;
  }
}
