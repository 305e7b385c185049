/** A rectangle worth factoring that the search for a partner misses, because a count was left standing. */
module MissedPartners {
  import opened Logic
  import opened SearchState
  import opened Factoring
  import opened Pairing
  import opened Factorizers

  const A: Lit := 2
  const B: Lit := 4
  const P: Lit := 6

  /** Ten clauses of two literals: A with c, d, g and h, and both B and P with c, e and f. */
  function Lead(id: nat): Lit {
    if id < 4 then A else if id < 7 then B else P
  }

  function Follow(id: nat): Lit {
    if id == 0 || id == 4 || id == 7 then 8
    else if id == 1 then 10
    else if id == 2 then 16
    else if id == 3 then 18
    else if id == 5 || id == 8 then 12
    else 14
  }

  function Store(): Database {
    map r: Ref | 0 <= r < 10 :: Entry([Lead(r), Follow(r)], false)
  }

  function Refs(): (s: seq<Ref>)
    ensures |s| == 10 && forall i :: 0 <= i < 10 ==> s[i] == i
  {
    seq(10, i => i)
  }

  function Alive(): (s: seq<bool>)
    ensures |s| == 10 && forall i :: 0 <= i < 10 ==> s[i]
  {
    seq(10, _ => true)
  }

  lemma ClauseIs(id: nat)
    requires id < 10
    ensures ClauseAt(Store(), Refs(), id) == [Lead(id), Follow(id)]
    ensures Literals(ClauseAt(Store(), Refs(), id)) == {Lead(id), Follow(id)}
    ensures forall l :: l in ClauseAt(Store(), Refs(), id) <==> l == Lead(id) || l == Follow(id)
  {
  }

  /** A clause pairs with a row when it has the row's second literal, by its own first one. */
  lemma PairsAre(anchor: Lit, rows: seq<nat>, m: Match)
    requires anchor == A || anchor == B
    requires m.row < |rows| && rows[m.row] < 10 && Lead(rows[m.row]) == anchor
    ensures MatchOk(Store(), Refs(), Alive(), anchor, rows, [anchor], m)
       <==> m.clause < 10 && Follow(m.clause) == Follow(rows[m.row]) && m.lit == Lead(m.clause) != anchor
  {
    var row := rows[m.row];
    ClauseIs(row);
    assert Body(Store(), Refs(), anchor, row) == {Follow(row)};
    if m.clause < 10 {
      ClauseIs(m.clause);
      assert Follow(row) in {Follow(row)} + {m.lit};
      assert m.lit in {Follow(row)} + {m.lit};
      assert Lead(m.clause) in {Lead(m.clause), Follow(m.clause)};
    }
  }

  lemma NoTwoAlike()
    ensures NoDuplicates(Store(), Refs(), Alive())
  {
    forall i, j | 0 <= i < j < 10 ensures Literals(ClauseAt(Store(), Refs(), i))
        != Literals(ClauseAt(Store(), Refs(), j)) {
      ClauseIs(i);
      ClauseIs(j);
      assert Lead(i) in {Lead(i), Follow(i)} && Follow(i) in {Lead(i), Follow(i)};
    }
  }

  /** The rows are the clauses that start with the anchor, in some order, none twice. */
  ghost predicate RowsOf(anchor: Lit, rows: seq<nat>) {
    && (forall r, s :: 0 <= r < s < |rows| ==> rows[r] != rows[s])
    && (forall r :: 0 <= r < |rows| ==> rows[r] < 10 && Lead(rows[r]) == anchor)
    && (forall id: nat :: id < 10 && Lead(id) == anchor ==> id in rows)
  }

  lemma FirstPair(rows: seq<nat>, m: Match)
    requires RowsOf(A, rows) && MatchOk(Store(), Refs(), Alive(), A, rows, [A], m)
    ensures rows[m.row] == 0
  {
    hide MatchOk;
    assert m.row < |rows| by { RowInRange(A, rows, m); }
    PairsAre(A, rows, m);
  }

  lemma SecondPair(rows: seq<nat>, m: Match)
    requires RowsOf(B, rows) && MatchOk(Store(), Refs(), Alive(), B, rows, [B], m)
    ensures m.lit == P || rows[m.row] == 4
  {
    hide MatchOk;
    assert m.row < |rows| by { RowInRange(B, rows, m); }
    PairsAre(B, rows, m);
  }

  lemma RowInRange(anchor: Lit, rows: seq<nat>, m: Match)
    requires MatchOk(Store(), Refs(), Alive(), anchor, rows, [anchor], m)
    ensures m.row < |rows|
  {
  }

  lemma RowOf(anchor: Lit, rows: seq<nat>, id: nat) returns (r: nat)
    requires RowsOf(anchor, rows) && id < 10 && Lead(id) == anchor
    ensures r < |rows| && rows[r] == id
  {
    assert id in rows;
    r :| 0 <= r < |rows| && rows[r] == id;
  }

  /** In the first search no literal pairs with two rows; B and P pair with one. */
  lemma FirstCounts(rows: seq<nat>, matches: seq<Match>, l: Lit)
    requires RowsOf(A, rows) && AllPairs(Store(), Refs(), Alive(), A, rows, [A], matches)
    ensures CountOf(matches, l) <= 1 && (l == B || l == P ==> CountOf(matches, l) == 1)
  {
    NoTwoAlike();
    CountIsRows(Store(), Refs(), Alive(), A, rows, [A], matches, l);
    var r0 := RowOf(A, rows, 0);
    var paired := PairedRows(Store(), Refs(), Alive(), A, rows, [A], l);
    forall r | r in paired ensures r == r0 {
      hide MatchOk, AllPairs, NoDuplicates, Store, Refs, Alive, Lead, Follow;
      var other: nat :| MatchOk(Store(), Refs(), Alive(), A, rows, [A], Match(r, l, other));
      FirstPair(rows, Match(r, l, other));
    }
    SetSizes(paired, r0);
    if l == B || l == P {
      hide MatchOk, AllPairs, NoDuplicates, Store, Refs, Alive;
      PairsAre(A, rows, Match(r0, l, if l == B then 4 else 7));
      assert PairsBy(Store(), Refs(), Alive(), A, rows, [A], r0, l);
    }
  }

  lemma SetSizes(s: set<nat>, r: nat)
    requires forall x :: x in s ==> x == r
    ensures |s| <= 1 && (r in s ==> |s| == 1)
  {
    assert s == {} || s == {r};
  }

  /** In the second search P pairs with all three rows, and no other literal with more than one. */
  lemma SecondCounts(rows: seq<nat>, matches: seq<Match>, l: Lit)
    requires RowsOf(B, rows) && AllPairs(Store(), Refs(), Alive(), B, rows, [B], matches)
    ensures if l == P then CountOf(matches, l) >= 3 else CountOf(matches, l) <= 1
  {
    NoTwoAlike();
    CountIsRows(Store(), Refs(), Alive(), B, rows, [B], matches, l);
    var r4 := RowOf(B, rows, 4);
    var paired := PairedRows(Store(), Refs(), Alive(), B, rows, [B], l);
    if l == P {
      ThreeRows(rows);
    } else {
      forall r | r in paired ensures r == r4 {
        hide MatchOk, AllPairs, NoDuplicates, Store, Refs, Alive, Lead, Follow;
        var other: nat :| MatchOk(Store(), Refs(), Alive(), B, rows, [B], Match(r, l, other));
        SecondPair(rows, Match(r, l, other));
      }
      SetSizes(paired, r4);
    }
  }

  lemma PairsWithP(rows: seq<nat>, id: nat) returns (r: nat)
    requires RowsOf(B, rows) && 4 <= id < 7
    ensures r in PairedRows(Store(), Refs(), Alive(), B, rows, [B], P) && r < |rows| && rows[r] == id
  {
    r := RowOf(B, rows, id);
    hide MatchOk, Store, Refs, Alive;
    PairsAre(B, rows, Match(r, P, id + 3));
    assert PairsBy(Store(), Refs(), Alive(), B, rows, [B], r, P);
  }

  lemma ThreeOf(a: nat, b: nat, c: nat)
    requires a != b && a != c && b != c
    ensures |{a, b, c}| == 3
  {
    assert {a, b, c} == {a} + {b} + {c};
  }

  lemma ThreeRows(rows: seq<nat>)
    requires RowsOf(B, rows)
    ensures |PairedRows(Store(), Refs(), Alive(), B, rows, [B], P)| >= 3
  {
    var r4 := PairsWithP(rows, 4);
    var r5 := PairsWithP(rows, 5);
    var r6 := PairsWithP(rows, 6);
    hide *;
    ThreeOf(r4, r5, r6);
    SubsetSize({r4, r5, r6}, PairedRows(Store(), Refs(), Alive(), B, rows, [B], P));
  }

  lemma AnchorIn(id: nat, anchor: Lit)
    requires id < 10 && (anchor == A || anchor == B)
    ensures anchor in ClauseAt(Store(), Refs(), id) <==> Lead(id) == anchor
  {
    ClauseIs(id);
  }

  /** The rows are those the search starts from. */
  lemma RowsAre(anchor: Lit, rows: seq<nat>)
    requires anchor == A || anchor == B
    requires forall r, s :: 0 <= r < s < |rows| ==> rows[r] < rows[s]
    requires forall r :: 0 <= r < |rows| ==> rows[r] < 10 && anchor in ClauseAt(Store(), Refs(), rows[r])
    requires forall id: nat :: id < 10 && anchor in ClauseAt(Store(), Refs(), id) ==> id in rows
    ensures RowsOf(anchor, rows) && |rows| >= 2
  {
    hide ClauseAt, Store, Refs, Follow;
    forall id: nat | id < 10 ensures anchor in ClauseAt(Store(), Refs(), id) <==> Lead(id) == anchor {
      AnchorIn(id, anchor);
    }
    var first := if anchor == A then 0 else 4;
    assert first in rows && first + 1 in rows;
  }

  /** What the first search leaves: the counts of B and P stand at one, and there are no others. */
  ghost predicate Standing(counts: seq<nat>) {
    |counts| > 18 && counts[B] == 1 && counts[P] == 1
  }

  lemma FirstSearch(rows: seq<nat>, matches: seq<Match>, left: seq<nat>, counts: seq<nat>, touched: seq<Lit>)
    requires RowsOf(A, rows) && AllPairs(Store(), Refs(), Alive(), A, rows, [A], matches)
    requires Tally(left, counts, touched, matches) && |counts| > 18 && forall l :: 0 <= l < |left| ==> left[l] == 0
    ensures Standing(counts)
  {
    FirstCounts(rows, matches, B);
    FirstCounts(rows, matches, P);
  }

  lemma SecondSearch(rows: seq<nat>, matches: seq<Match>, slots: nat)
    requires RowsOf(B, rows) && AllPairs(Store(), Refs(), Alive(), B, rows, [B], matches) && slots > 18
    ensures Top(P, matches, slots) && CountOf(matches, P) >= 3
    ensures forall l: Lit :: l != P ==> CountOf(matches, l) <= 1
  {
    hide AllPairs, RowsOf;
    forall l: Lit ensures if l == P then CountOf(matches, l) >= 3 else CountOf(matches, l) <= 1 {
      SecondCounts(rows, matches, l);
    }
  }

  /** The pass tries A, finds no partner and leaves the counts of B and P at one; then it tries B and finds no partner
      either, though P pairs with all three rows and the rectangle would save a clause. */
  method MissedPartner(f: Factorizer) returns (first: bool, second: bool, ghost opening: Opening)
    requires f.Indexed() && f.Quiet() && f.database == Store() && f.refs == Refs() && f.alive == Alive()
    requires |f.occurrences| > 18 && |f.counts| == |f.occurrences|
             && forall l :: 0 <= l < |f.counts| ==> f.counts[l] == 0
    modifies f
    ensures f.effort != 0 ==> !first && !second && f.database == Store()
    ensures f.effort != 0 ==> AllPairs(Store(), Refs(), Alive(), B, opening.rows, [B], opening.matches)
    ensures f.effort != 0 ==>
              |f.counts| > 18 && Top(P, opening.matches, |f.counts|) && Saving(2, CountOf(opening.matches, P)) >= 1
  {
    hide Top, AllPairs, RowsOf, Store, Refs, Alive, Tally, ClauseAt, IndexOk, OccurrencesOk, StoreOk, Findable,
         AnchorRows, Outcome, Stuck, RectangleOk;
    ghost var left := f.counts;
    ghost var stood;
    first, stood, opening := f.FactorLiteral(A);
    AnchorRowsAre(A, opening.rows);
    if f.effort != 0 {
      NothingFor(A, left, opening);
      FirstSearch(opening.rows, opening.matches, left, f.counts, f.touched);
    }
    if first {
      second := false;
      return;
    }
    left := f.counts;
    second, stood, opening := f.FactorLiteral(B);
    AnchorRowsAre(B, opening.rows);
    if f.effort != 0 {
      NothingFor(B, left, opening);
      SecondSearch(opening.rows, opening.matches, |f.counts|);
    }
  }

  lemma AnchorRowsAre(anchor: Lit, rows: seq<nat>)
    requires AnchorRows(Store(), Refs(), Alive(), anchor, rows) && (anchor == A || anchor == B)
    ensures RowsOf(anchor, rows) && |rows| >= 2
  {
    hide ClauseAt, Store, RowsOf;
    RowsAre(anchor, rows);
  }

  /** Neither search finds a literal: A has none with two matches, and the only one of B has a standing count. */
  lemma NothingFor(anchor: Lit, left: seq<nat>, opening: Opening)
    requires anchor == A || (anchor == B && Standing(left))
    requires RowsOf(anchor, opening.rows)
             && AllPairs(Store(), Refs(), Alive(), anchor, opening.rows, [anchor], opening.matches)
    ensures !Findable(left, opening.matches)
  {
    hide AllPairs, RowsOf, CountOf;
    forall l: nat | l < |left| && left[l] == 0 ensures CountOf(opening.matches, l) < 2 {
      if anchor == A {
        FirstCounts(opening.rows, opening.matches, l);
      } else {
        SecondCounts(opening.rows, opening.matches, l);
      }
    }
  }
}
