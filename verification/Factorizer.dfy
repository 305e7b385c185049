/** The factoring pass: grows rectangles of clauses literal by literal and replaces those that save clauses. */
module Factorizers {
  import opened Logic
  import opened SearchState
  import opened Factoring
  import opened Pairing

  const MAXIMUM_ROUNDS: nat := 2
  const MINIMUM_EFFORT: nat := 0x1_0000
  const NO_CLAUSE: int := -1

  /** A literal with more occurrences comes first; the lower one among equals. */
  predicate Before(leftCount: nat, left: Lit, rightCount: nat, right: Lit) {
    leftCount > rightCount || (leftCount == rightCount && left < right)
  }

  function AliveCount(list: seq<nat>, alive: seq<bool>): nat {
    if list == [] then 0
    else AliveCount(list[..|list| - 1], alive)
         + if list[|list| - 1] < |alive| && alive[list[|list| - 1]] then 1 else 0
  }

  lemma NoCandidates(occurrences: seq<seq<nat>>, alive: seq<bool>)
    ensures CandidatesOk([], [], occurrences, alive)
  {
  }

  class Factorizer {
    var database: Database
    var garbage: set<Ref>
    var nextRef: Ref
    // What is journalled for model reconstruction: each fresh variable with its group.
    var journal: seq<(nat, seq<Lit>)>

    var maximumClauseSize: nat
    var effortPerClause: nat
    var effort: nat
    var highestVariable: nat
    var problemVariableCount: nat

    var refs: seq<Ref>
    var alive: seq<bool>
    var sizes: seq<nat>
    var occurrences: seq<seq<nat>>
    var marks: seq<bool>
    var selectedMarks: seq<bool>
    var counts: seq<nat>
    var touched: seq<Lit>
    var matches: seq<Match>
    var candidates: seq<Lit>
    var candidateCounts: seq<nat>
    var rows: seq<nat>
    var matched: seq<nat>
    var pending: seq<int>
    var selected: seq<Lit>

    var introducedCount: nat
    var addedCount: nat
    var removedCount: nat

    constructor (database: Database, nextRef: Ref, problemVariableCount: nat, maximumClauseSize: nat,
                 effortPerClause: nat)
      ensures this.database == database && garbage == {} && this.nextRef == nextRef && introducedCount == 0
      ensures this.problemVariableCount == problemVariableCount && this.maximumClauseSize == maximumClauseSize
      ensures this.effortPerClause == effortPerClause
    {
      this.database, garbage, this.nextRef, journal := database, {}, nextRef, [];
      this.maximumClauseSize, this.effortPerClause, effort := maximumClauseSize, effortPerClause, 0;
      highestVariable, this.problemVariableCount := 0, problemVariableCount;
      refs, alive, sizes, occurrences, marks, selectedMarks, counts := [], [], [], [], [], [], [];
      touched, matches, candidates, candidateCounts, rows, matched, pending, selected := [], [], [], [], [], [], [], [];
      introducedCount, addedCount, removedCount := 0, 0, 0;
    }

    // -------------------------------------------------------------------------------------------
    // The index
    // -------------------------------------------------------------------------------------------

    ghost predicate Listed()
      reads this`database, this`garbage, this`nextRef, this`refs, this`alive, this`sizes, this`occurrences
    {
      && IndexOk(database, garbage, refs, alive, sizes) && OccurrencesOk(database, refs, occurrences)
      && (forall r :: r in database ==> r < nextRef) && (forall g :: g in garbage ==> g in database)
    }

    ghost predicate Indexed()
      reads this`database, this`garbage, this`nextRef, this`refs, this`alive, this`sizes, this`occurrences,
            this`highestVariable
    {
      Listed() && StoreOk(database, highestVariable) && 2 * highestVariable + 2 <= |occurrences|
    }

    ghost predicate Quiet()
      reads this`occurrences, this`marks, this`selectedMarks, this`counts
    {
      Clear(|occurrences|, marks, selectedMarks, counts)
    }

    method EnsureLiteralCapacity(raw: Lit)
      requires Quiet()
      modifies this`occurrences, this`marks, this`selectedMarks, this`counts
      ensures Quiet() && |occurrences| == if old(|occurrences|) < raw + 2 then raw + 2 else old(|occurrences|)
      ensures forall l: nat :: l < |occurrences| ==>
                occurrences[l] == if l < old(|occurrences|) then old(occurrences)[l] else []
      ensures old(NothingCounted(counts)) ==> NothingCounted(counts)
    {
      var needed := raw + 2;
      if |occurrences| < needed {
        var missing := needed - |occurrences|;
        occurrences := occurrences + seq(missing, _ => []);
        marks := marks + seq(missing, _ => false);
        selectedMarks := selectedMarks + seq(missing, _ => false);
        counts := counts + seq(missing, _ => 0);
      }
    }

    /** Files the clause under each of its literals. */
    method FileOccurrences(id: nat, lits: Clause)
      requires Quiet() && forall i, j :: 0 <= i < j < |lits| ==> lits[i] != lits[j]
      modifies this`occurrences, this`marks, this`selectedMarks, this`counts
      ensures Quiet() && Filed(old(occurrences), occurrences, lits, id)
      ensures old(NothingCounted(counts)) ==> NothingCounted(counts)
    {
      hide Clear, Filed;
      assert Filed(occurrences, occurrences, lits[..0], id) by { FiledNothing(occurrences, id); }
      var i := 0;
      while i < |lits|
        invariant 0 <= i <= |lits| && Quiet() && Filed(old(occurrences), occurrences, lits[..i], id)
        invariant old(NothingCounted(counts)) ==> NothingCounted(counts)
      {
        ghost var before := occurrences;
        EnsureLiteralCapacity(lits[i]);
        FiledMore(old(occurrences), before, occurrences, lits, i, id);
        occurrences := occurrences[lits[i] := occurrences[lits[i]] + [id]];
        i := i + 1;
      }
      assert lits[..|lits|] == lits;
    }

    /** Indexes a live clause. */
    method RegisterClause(ref: Ref, ghost bound: nat)
      requires Listed() && Quiet() && LiveRef(database, garbage, ref) && |database[ref].lits| >= 2 && ref !in refs
      requires ClauseOk(bound, database[ref].lits)
      modifies this`refs, this`alive, this`sizes, this`occurrences, this`marks, this`selectedMarks, this`counts
      ensures Listed() && Quiet() && refs == old(refs) + [ref] && alive == old(alive) + [true]
      ensures |occurrences| >= old(|occurrences|) && forall l :: l in database[ref].lits ==> l < |occurrences|
      ensures old(NothingCounted(counts)) ==> NothingCounted(counts)
    {
      hide Clear, IndexOk, OccurrencesOk;
      var lits := database[ref].lits;
      ghost var before := occurrences;
      FileOccurrences(|refs|, lits) by { DistinctLiterals(bound, lits); }
      RegisteredOk(database, garbage, refs, alive, sizes, before, ref, occurrences);
      refs := refs + [ref];
      alive := alive + [true];
      sizes := sizes + [|lits|];
    }

    /** Stores a clause and indexes it. */
    method AddClause(lits: Clause)
      requires Listed() && Quiet() && |lits| >= 2 && ClauseOk(highestVariable, lits)
      modifies this`database, this`nextRef, this`addedCount
      modifies this`refs, this`alive, this`sizes, this`occurrences, this`marks, this`selectedMarks, this`counts
      ensures Listed() && Quiet() && |occurrences| >= old(|occurrences|)
      ensures nextRef == old(nextRef) + 1 && database == old(database)[old(nextRef) := Entry(lits, false)]
      ensures refs == old(refs) + [old(nextRef)] && alive == old(alive) + [true]
    {
      hide Clear, IndexOk, OccurrencesOk;
      StoredOk(database, garbage, refs, alive, sizes, occurrences, nextRef, Entry(lits, false));
      var ref := nextRef;
      nextRef := nextRef + 1;
      database := database[ref := Entry(lits, false)];
      RegisterClause(ref, highestVariable);
      addedCount := addedCount + 1;
    }

    // -------------------------------------------------------------------------------------------
    // Applying a rectangle
    // -------------------------------------------------------------------------------------------

    /** The clause without the anchor, behind the fresh literal. */
    method FactoredBody(positive: Lit, lits: Clause, anchor: Lit) returns (body: Clause)
      ensures body == [positive] + Without(lits, anchor)
    {
      body := [positive];
      var i := 0;
      while i < |lits|
        invariant 0 <= i <= |lits| && body == [positive] + Without(lits[..i], anchor)
      {
        WithoutStep(lits, i, anchor);
        if lits[i] != anchor {
          body := body + [lits[i]];
        }
        i := i + 1;
      }
      assert lits[..|lits|] == lits;
    }

    /** What holds while the clauses of an application are being added. */
    ghost predicate Adding(db0: Database, refs0: seq<Ref>, alive0: seq<bool>, next0: Ref, k: nat)
      reads this`database, this`garbage, this`nextRef, this`refs, this`alive, this`sizes, this`occurrences,
            this`highestVariable
    {
      Listed() && StoreOk(database, highestVariable)
          && Grown(db0, refs0, alive0, next0, database, refs, alive, nextRef, k)
    }

    method AddOne(lits: Clause, ghost db0: Database, ghost refs0: seq<Ref>, ghost alive0: seq<bool>, ghost next0: Ref,
                  ghost k: nat)
      requires Adding(db0, refs0, alive0, next0, k) && Quiet() && |lits| >= 2 && ClauseOk(highestVariable, lits)
      modifies this`database, this`nextRef, this`addedCount
      modifies this`refs, this`alive, this`sizes, this`occurrences, this`marks, this`selectedMarks, this`counts
      ensures Adding(db0, refs0, alive0, next0, k + 1) && Quiet() && |occurrences| >= old(|occurrences|)
      ensures database == old(database)[next0 + k := Entry(lits, false)]
    {
      hide Clear, Listed, Grown, StoreOk, ClauseOk;
      GrownMore(db0, refs0, alive0, next0, database, refs, alive, nextRef, k, Entry(lits, false));
      StoreMore(database, highestVariable, nextRef, Entry(lits, false));
      assert nextRef == next0 + k by { GrownNext(db0, refs0, alive0, next0, database, refs, alive, nextRef, k); }
      AddClause(lits);
    }

    /** Adds the definition of the fresh variable: it implies each literal of the group. */
    method AddDefinitions(introduced: nat)
      requires Listed() && Quiet() && StoreOk(database, highestVariable) && introduced == highestVariable >= 1
      requires forall c :: 0 <= c < |selected| ==> 1 <= Var(selected[c]) < highestVariable
      modifies this`database, this`nextRef, this`addedCount
      modifies this`refs, this`alive, this`sizes, this`occurrences, this`marks, this`selectedMarks, this`counts
      ensures Adding(old(database), old(refs), old(alive), old(nextRef), |selected|) && Quiet()
      ensures Definitions(database, old(nextRef), introduced, selected, |selected|)
              && |occurrences| >= old(|occurrences|)
    {
      hide Clear, StoreOk, Grown, IndexOk, OccurrencesOk, Definitions;
      ghost var db0, refs0, alive0, next0 := database, refs, alive, nextRef;
      IndexedRefs(database, garbage, refs, alive, sizes);
      GrownNothing(database, refs, alive, nextRef);
      NoDefinitions(database, next0, introduced, selected);
      var c := 0;
      while c < |selected|
        invariant 0 <= c <= |selected| && Quiet() && |occurrences| >= old(|occurrences|)
        invariant Adding(db0, refs0, alive0, next0, c) && Definitions(database, next0, introduced, selected, c)
      {
        DefinitionOk(introduced - 1, selected[c]);
        DefinitionsMore(database, next0, introduced, selected, c);
        AddOne([MakeLit(introduced, true), selected[c]], db0, refs0, alive0, next0, c);
        c := c + 1;
      }
    }

    /** Adds each row's body, guarded by the fresh variable. */
    method AddBodies(introduced: nat, anchor: Lit, ghost db0: Database, ghost refs0: seq<Ref>, ghost alive0: seq<bool>,
                     ghost next0: Ref)
      requires Adding(db0, refs0, alive0, next0, |selected|) && Quiet() && introduced == highestVariable >= 1
      requires Definitions(database, next0, introduced, selected, |selected|) && StoreOk(db0, highestVariable - 1)
      requires forall r :: 0 <= r < |rows| ==> rows[r] < |refs0| && anchor in ClauseAt(db0, refs0, rows[r])
      requires forall i :: 0 <= i < |refs0| ==> refs0[i] in db0 && !db0[refs0[i]].redundant && |db0[refs0[i]].lits| >= 2
      modifies this`database, this`nextRef, this`addedCount
      modifies this`refs, this`alive, this`sizes, this`occurrences, this`marks, this`selectedMarks, this`counts
      ensures Adding(db0, refs0, alive0, next0, |selected| + |rows|) && Quiet() && |occurrences| >= old(|occurrences|)
      ensures Definitions(database, next0, introduced, selected, |selected|)
      ensures Bodies(database, db0, refs0, next0, introduced, anchor, selected, rows, |rows|)
    {
      hide Clear, Grown, Listed, Definitions, Bodies, ClauseOk;
      NoBodies(database, db0, refs0, next0, introduced, anchor, selected, rows);
      var row := 0;
      while row < |rows|
        invariant 0 <= row <= |rows| && Quiet() && |occurrences| >= old(|occurrences|)
        invariant Adding(db0, refs0, alive0, next0, |selected| + row)
        invariant Definitions(database, next0, introduced, selected, |selected|)
        invariant Bodies(database, db0, refs0, next0, introduced, anchor, selected, rows, row)
      {
        GrownKeeps(db0, refs0, alive0, next0, database, refs, alive, nextRef, |selected| + row, rows[row]);
        GrownSizes(db0, refs0, alive0, next0, database, refs, alive, nextRef, |selected| + row);
        var lits := database[refs[rows[row]]].lits;
        var body := FactoredBody(MakeLit(introduced, false), lits, anchor);
        BodyOk(introduced - 1, lits, anchor);
        BodiesMore(database, db0, refs0, next0, introduced, anchor, selected, rows, row);
        AddOne(body, db0, refs0, alive0, next0, |selected| + row);
        row := row + 1;
      }
    }

    /** Takes a clause out of play, unless it is already. */
    method DeleteClause(id: nat)
      requires Listed() && id < |refs|
      modifies this`alive, this`garbage, this`removedCount
      ensures Listed() && garbage == old(garbage) + {refs[id]} && |alive| == old(|alive|)
      ensures forall i :: 0 <= i < |alive| ==> (alive[i] ==> old(alive)[i])
      ensures old(refs[id] in garbage) ==> removedCount == old(removedCount)
      ensures old(refs[id] !in garbage) ==> removedCount == old(removedCount) + 1
    {
      hide OccurrencesOk;
      if !alive[id] {
        assert garbage == garbage + {refs[id]};
        return;
      }
      DeletedOk(database, garbage, refs, alive, sizes, id);
      alive := alive[id := false];
      garbage := garbage + {refs[id]};
      removedCount := removedCount + 1;
    }

    /** Deletes the rectangle, cell by cell. */
    method DeleteCells(ghost refs0: seq<Ref>)
      requires Listed() && |refs0| <= |refs| && (forall i :: 0 <= i < |refs0| ==> refs[i] == refs0[i])
      requires |matched| == |rows| * |selected| && forall k :: 0 <= k < |matched| ==> matched[k] < |refs0|
      modifies this`alive, this`garbage, this`removedCount
      ensures Listed() && garbage == old(garbage) + CellRefs(refs0, matched) && |alive| == old(|alive|)
      ensures forall i :: 0 <= i < |alive| ==> (alive[i] ==> old(alive)[i])
    {
      hide Listed;
      var width := |selected|;
      var row := 0;
      assert CellRefs(refs0, matched[..0]) == {};
      while row < |rows|
        invariant 0 <= row <= |rows| && Listed() && |alive| == old(|alive|) && Cell(row, width, 0) <= |matched|
        invariant garbage == old(garbage) + CellRefs(refs0, matched[..Cell(row, width, 0)])
        invariant forall i :: 0 <= i < |alive| ==> (alive[i] ==> old(alive)[i])
      {
        TimesOrdered(row + 1, |rows|, width);
        DeleteRow(row, refs0, old(garbage));
        row := row + 1;
      }
      assert matched[..|matched|] == matched;
    }

    method DeleteRow(row: nat, ghost refs0: seq<Ref>, ghost before: set<Ref>)
      requires Listed() && |refs0| <= |refs| && (forall i :: 0 <= i < |refs0| ==> refs[i] == refs0[i])
      requires row < |rows| && Cell(row, |selected|, 0) + |selected| <= |matched|
      requires forall k :: 0 <= k < |matched| ==> matched[k] < |refs0|
      requires garbage == before + CellRefs(refs0, matched[..Cell(row, |selected|, 0)])
      modifies this`alive, this`garbage, this`removedCount
      ensures Listed() && garbage == before + CellRefs(refs0, matched[..Cell(row, |selected|, 0) + |selected|])
      ensures |alive| == old(|alive|) && forall i :: 0 <= i < |alive| ==> (alive[i] ==> old(alive)[i])
    {
      hide Listed;
      var width := |selected|;
      var column := 0;
      while column < width
        invariant 0 <= column <= width && Listed() && |alive| == old(|alive|)
        invariant garbage == before + CellRefs(refs0, matched[..Cell(row, width, 0) + column])
        invariant forall i :: 0 <= i < |alive| ==> (alive[i] ==> old(alive)[i])
      {
        assert Cell(row, width, column) == Cell(row, width, 0) + column;
        CellRefsMore(refs0, matched, Cell(row, width, column));
        DeleteClause(matched[Cell(row, width, column)]);
        column := column + 1;
      }
    }

    /** Gives the next variable number out and makes room for its literals. */
    method IntroduceVariable() returns (introduced: nat)
      requires Indexed() && Quiet()
      modifies this`highestVariable, this`occurrences, this`marks, this`selectedMarks, this`counts, this`journal,
               this`introducedCount
      ensures Indexed() && Quiet() && introduced == highestVariable == old(highestVariable) + 1
      ensures journal == old(journal) + [(introduced, selected)] && introducedCount == old(introducedCount) + 1
      ensures |occurrences| >= old(|occurrences|)
    {
      hide Clear, IndexOk, StoreOk;
      StoreAbove(database, highestVariable, highestVariable + 1);
      highestVariable := highestVariable + 1;
      introduced := highestVariable;
      ghost var before := occurrences;
      EnsureLiteralCapacity(MakeLit(introduced, true));
      OccurrencesLonger(database, refs, before, occurrences);
      journal := journal + [(introduced, selected)];
      introducedCount := introducedCount + 1;
    }

    /** Replaces a rectangle by the definition of a fresh variable and the factored bodies. */
    method Apply(anchor: Lit)
      requires Indexed() && Quiet() && RectangleOk(database, refs, alive, anchor, rows, selected, matched)
      requires forall c :: 0 <= c < |selected| ==> 1 <= Var(selected[c]) <= highestVariable
      modifies this`highestVariable, this`journal, this`introducedCount, this`garbage, this`removedCount
      modifies this`database, this`nextRef, this`addedCount
      modifies this`refs, this`alive, this`sizes, this`occurrences, this`marks, this`selectedMarks, this`counts
      ensures Indexed() && Quiet() && highestVariable == old(highestVariable) + 1 && |occurrences| >= old(|occurrences|)
      ensures journal == old(journal) + [(highestVariable, selected)]
      ensures Applied(old(database), old(garbage), old(refs), anchor, rows, selected, matched, highestVariable,
                      old(nextRef), database, garbage)
      ensures old(NoDuplicates(database, refs, alive)) ==>
                |LiveRefs(database, garbage)| == old(|LiveRefs(database, garbage)|) - Saving(|selected|, |rows|)
      ensures Saving(|selected|, |rows|) >= 1 ==>
                Outcome(old(database), old(garbage), old(refs), old(alive), old(highestVariable),
                        database, garbage, refs, alive, highestVariable)
    {
      hide Clear, IndexOk, OccurrencesOk, StoreOk, RectangleOk, Grown, Definitions, Bodies, Applied, NoDuplicates,
           LiveRefs, Outcome;
      ghost var db0, garbage0, refs0, alive0, sizes0, next0 := database, garbage, refs, alive, sizes, nextRef;
      IndexedRefs(database, garbage, refs, alive, sizes);
      RectangleParts(database, refs, alive, anchor, rows, selected, matched);
      var introduced := IntroduceVariable();
      AddAll(introduced, anchor, db0, refs0, alive0, next0);
      ghost var alive1 := alive;
      GrownTail(db0, refs0, alive0, next0, database, refs, alive, nextRef, |selected| + |rows|);
      DeleteCells(refs0);
      AppliedFrom(db0, garbage0, refs0, alive0, anchor, rows, selected, matched, introduced, next0, database, refs,
                  alive1, nextRef, garbage);
      OutcomeOfApplication(db0, garbage0, refs0, alive0, sizes0, anchor, rows, selected, matched, introduced - 1, next0,
                           database, garbage, refs, alive);
    }

    /** Adds the definition and the bodies. */
    method AddAll(introduced: nat, anchor: Lit, ghost db0: Database, ghost refs0: seq<Ref>, ghost alive0: seq<bool>,
                  ghost next0: Ref)
      requires Listed() && StoreOk(database, highestVariable) && Quiet() && introduced == highestVariable >= 1
      requires db0 == database && refs0 == refs && alive0 == alive && next0 == nextRef
               && StoreOk(db0, highestVariable - 1)
      requires forall c :: 0 <= c < |selected| ==> 1 <= Var(selected[c]) < highestVariable
      requires forall r :: 0 <= r < |rows| ==> rows[r] < |refs0| && anchor in ClauseAt(db0, refs0, rows[r])
      modifies this`database, this`nextRef, this`addedCount
      modifies this`refs, this`alive, this`sizes, this`occurrences, this`marks, this`selectedMarks, this`counts
      ensures Adding(db0, refs0, alive0, next0, |selected| + |rows|) && Quiet() && |occurrences| >= old(|occurrences|)
      ensures Definitions(database, next0, introduced, selected, |selected|)
      ensures Bodies(database, db0, refs0, next0, introduced, anchor, selected, rows, |rows|)
    {
      hide Clear, StoreOk, Grown, Definitions, Bodies, IndexOk, OccurrencesOk;
      IndexedRefs(database, garbage, refs, alive, sizes);
      AddDefinitions(introduced);
      AddBodies(introduced, anchor, db0, refs0, alive0, next0);
    }

    // -------------------------------------------------------------------------------------------
    // Growing a rectangle
    // -------------------------------------------------------------------------------------------

    /** Marks a row's body and finds its literal with the fewest occurrences. */
    method MarkBody(lits: Clause, anchor: Lit) returns (pivot: Lit)
      requires (forall l :: 0 <= l < |marks| ==> !marks[l]) && |marks| == |occurrences|
               && forall l :: l in lits ==> l < |marks|
      modifies this`marks
      ensures |marks| == old(|marks|) && BodyMarked(marks, Literals(lits) - {anchor})
      ensures (exists l :: l in lits && l != anchor) ==> pivot in lits && pivot != anchor
      ensures forall l :: l in lits && l != anchor ==> pivot < |occurrences| && |occurrences[pivot]| <= |occurrences[l]|
    {
      pivot := NO_LITERAL;
      var pivotOccurrences := -1;
      var i := 0;
      while i < |lits|
        invariant 0 <= i <= |lits| && |marks| == old(|marks|)
        invariant forall l :: 0 <= l < |marks| ==> (marks[l] <==> l in lits[..i] && l != anchor)
        invariant pivotOccurrences >= 0 ==>
                    pivot in lits[..i] && pivot != anchor && pivot < |occurrences|
                        && |occurrences[pivot]| == pivotOccurrences
        invariant pivotOccurrences < 0 ==> forall l :: l in lits[..i] ==> l == anchor
        invariant forall l :: l in lits[..i] && l != anchor ==>
                  l < |occurrences| && pivotOccurrences <= |occurrences[l]|
      {
        assert lits[..i + 1] == lits[..i] + [lits[i]];
        var lit := lits[i];
        assert lit in lits;
        if lit != anchor {
          marks := marks[lit := true];
          if pivotOccurrences < 0 || |occurrences[lit]| < pivotOccurrences {
            pivotOccurrences := |occurrences[lit]|;
            pivot := lit;
          }
        }
        i := i + 1;
      }
      assert lits[..|lits|] == lits;
    }

    /** Takes the marks of a row's literals back. */
    method UnmarkBody(lits: Clause)
      requires (forall l :: l in lits ==> l < |marks|) && forall l :: 0 <= l < |marks| && marks[l] ==> l in lits
      modifies this`marks
      ensures |marks| == old(|marks|) && forall l :: 0 <= l < |marks| ==> !marks[l]
    {
      var i := 0;
      while i < |lits|
        invariant 0 <= i <= |lits| && |marks| == old(|marks|)
        invariant forall l :: 0 <= l < |marks| && marks[l] ==> l in lits[i..]
      {
        assert lits[i..] == [lits[i]] + lits[i + 1..];
        assert lits[i] in lits;
        marks := marks[lits[i] := false];
        i := i + 1;
      }
    }

    /** Counts the marked literals of a clause and remembers the last one that is not. */
    method CountMarked(lits: Clause) returns (marked: nat, extra: Lit)
      requires forall l :: l in lits ==> l < |marks|
      ensures Marked(marks, lits, |lits|, marked, extra)
    {
      marked, extra := 0, NO_LITERAL;
      var i := 0;
      while i < |lits|
        invariant 0 <= i <= |lits| && Marked(marks, lits, i, marked, extra)
      {
        assert lits[i] in lits;
        if marks[lits[i]] {
          marked := marked + 1;
        } else {
          extra := lits[i];
        }
        i := i + 1;
      }
    }

    /** What holds while the rows are matched against the other clauses. */
    ghost predicate Matching(anchor: Lit, left: seq<nat>)
      reads this`database, this`garbage, this`nextRef, this`refs, this`alive, this`sizes, this`occurrences,
            this`highestVariable
      reads this`rows, this`selected, this`selectedMarks, this`counts, this`touched, this`matches
    {
      && Indexed() && MatchesOk(database, refs, alive, anchor, rows, selected, matches, |occurrences|)
      && Tally(left, counts, touched, matches) && |counts| == |occurrences| == |selectedMarks|
      && GroupMarked(selectedMarks, selected)
      && (forall r :: 0 <= r < |rows| ==>
          rows[r] < |refs| && rows[r] < |alive| && alive[rows[r]] && anchor in ClauseAt(database, refs, rows[r]))
    }

    /** The clause is compared with the row and, when it pairs with it, the literal it pairs by is recorded. */
    method TryMatch(row: nat, other: nat, anchor: Lit, ghost left: seq<nat>, ghost done: set<nat>)
      requires Matching(anchor, left) && row < |rows| && other < |refs| && |marks| == |occurrences|
      requires BodyMarked(marks, Body(database, refs, anchor, rows[row]))
      requires Noted(anchor, row, done) && other !in done
      modifies this`counts, this`touched, this`matches
      ensures Matching(anchor, left) && Noted(anchor, row, done + {other})
    {
      hide IndexOk, OccurrencesOk, StoreOk, Tally, ClauseAt, Body, CellOk, Marked, MatchOk, Once, Recorded, PairsAt,
           MatchesOk;
      var pairs, extra := Compare(row, other, anchor, left);
      if !pairs {
        NoneToRecord(database, refs, alive, anchor, rows, selected, matches, row, done, other);
        return;
      }
      var m := Match(row, extra, other);
      OneToRecord(database, refs, alive, anchor, rows, selected, matches, row, done, other, extra);
      MatchFits(database, refs, alive, highestVariable, anchor, rows, selected, matches, m, |occurrences|) by {
        IndexedRefs(database, garbage, refs, alive, sizes);
      }
      TallyMore(left, counts, touched, matches, m);
      if counts[extra] == 0 {
        touched := touched + [extra];
      }
      counts := counts[extra := counts[extra] + 1];
      matches := matches + [m];
    }

    /** Every pair looked at so far is recorded, once. */
    ghost predicate Noted(anchor: Lit, row: nat, done: set<nat>)
      reads this`database, this`refs, this`alive, this`rows, this`selected, this`matches
    {
      Once(matches, row, done) && Recorded(database, refs, alive, anchor, rows, selected, matches, row, done)
    }

    /** Whether a clause pairs with a row whose body is marked, and by which literal. */
    method Compare(row: nat, other: nat, anchor: Lit, ghost left: seq<nat>) returns (pairs: bool, extra: Lit)
      requires Matching(anchor, left) && row < |rows| && other < |refs| && |marks| == |occurrences|
      requires BodyMarked(marks, Body(database, refs, anchor, rows[row]))
      ensures if pairs then MatchOk(database, refs, alive, anchor, rows, selected, Match(row, extra, other))
              else !PairsAt(database, refs, alive, anchor, rows, selected, row, other)
    {
      hide IndexOk, OccurrencesOk, StoreOk, Tally, ClauseAt, Body, CellOk, Marked, MatchesOk;
      var clause := rows[row];
      IndexedAt(database, garbage, refs, alive, sizes, other);
      IndexedAt(database, garbage, refs, alive, sizes, clause);
      LiteralBounds(database, highestVariable, |occurrences|, refs[other]);
      var lits := database[refs[other]].lits;
      extra := NO_LITERAL;
      PairShape(database, refs, alive, highestVariable, marks, anchor, rows, selected, row, other);
      if other == clause || !alive[other] || sizes[other] != sizes[clause] {
        return false, extra;
      }
      var marked;
      marked, extra := CountMarked(lits);
      PairFound(database, refs, alive, highestVariable, marks, anchor, rows, selected, row, other, marked, extra);
      if marked + 1 != sizes[clause] || extra == NO_LITERAL {
        return false, extra;
      }
      ExtraIsListed(marks, lits, marked, extra);
      if extra == anchor || Var(extra) == Var(anchor) || selectedMarks[extra] || marks[Neg(extra)] {
        return false, extra;
      }
      RowMatches(database, refs, highestVariable, marks, anchor, clause, other, extra) by {
        AnchorListed(database, refs, anchor, clause);
      }
      NewMatch(database, refs, alive, anchor, rows, selected, Match(row, extra, other));
      pairs := true;
    }

    /** Matches one row against the clauses its rarest literal occurs in, as far as the effort reaches. */
    method ScanRow(row: nat, anchor: Lit, ghost left: seq<nat>)
      requires Matching(anchor, left) && row < |rows| && |marks| == |occurrences|
               && forall l :: 0 <= l < |marks| ==> !marks[l]
      requires Noted(anchor, row, {})
      modifies this`marks, this`counts, this`touched, this`matches, this`effort
      ensures Matching(anchor, left) && |marks| == |occurrences| && forall l :: 0 <= l < |marks| ==> !marks[l]
      ensures Once(matches, row + 1, {}) && (effort != 0 ==> Noted(anchor, row + 1, {}))
      ensures effort <= old(effort) <= effort + |refs|
    {
      hide IndexOk, OccurrencesOk, StoreOk, Tally, MatchesOk, GroupMarked, BodyMarked, Once, Recorded;
      var clause := rows[row];
      IndexedAt(database, garbage, refs, alive, sizes, clause);
      var lits := database[refs[clause]].lits;
      LiteralBounds(database, highestVariable, |occurrences|, refs[clause]);
      var pivot := MarkBody(lits, anchor);
      AnotherLiteral(highestVariable, lits, anchor);
      ScanList(row, pivot, anchor, left);
      BodyMarksOnly(marks, lits, anchor);
      UnmarkBody(lits);
    }

    /** Goes through the clauses of one literal of the row's body. */
    method ScanList(row: nat, pivot: Lit, anchor: Lit, ghost left: seq<nat>)
      requires Matching(anchor, left) && row < |rows| && |marks| == |occurrences| && pivot < |occurrences|
      requires BodyMarked(marks, Body(database, refs, anchor, rows[row]))
               && pivot in Body(database, refs, anchor, rows[row])
      requires Noted(anchor, row, {})
      modifies this`counts, this`touched, this`matches, this`effort
      ensures Matching(anchor, left) && Once(matches, row + 1, {}) && (effort != 0 ==> Noted(anchor, row + 1, {}))
      ensures effort <= old(effort) <= effort + |refs|
    {
      hide IndexOk, OccurrencesOk, StoreOk, Tally, MatchesOk, GroupMarked, BodyMarked, Once, Recorded, Body;
      OccurrenceCount(database, refs, occurrences, pivot);
      ghost var done: set<nat> := {};
      var i := 0;
      while i < |occurrences[pivot]| && effort != 0
        invariant 0 <= i <= |occurrences[pivot]| && Matching(anchor, left) && Noted(anchor, row, done)
                  && old(effort) == effort + i
        invariant forall id :: id in done <==> id in occurrences[pivot][..i]
      {
        effort := effort - 1;
        OccurrenceAt(database, refs, occurrences, pivot, i);
        assert occurrences[pivot][..i + 1] == occurrences[pivot][..i] + [occurrences[pivot][i]];
        TryMatch(row, occurrences[pivot][i], anchor, left, done);
        done := done + {occurrences[pivot][i]};
        i := i + 1;
      }
      RowLeft(matches, row, done);
      if effort != 0 {
        assert occurrences[pivot][..i] == occurrences[pivot];
        RowRecorded(database, refs, alive, anchor, rows, selected, occurrences, matches, row, pivot, done);
      }
    }

    /** The literal most of the rows pair with, when at least two do. While effort is left the matches are all the pairs
        there are. A literal whose count was left standing by an earlier search is never found: the best literal is
        returned exactly when it is not one of those. Without a result the counts of the touched literals stay at
        one. */
    method BestPartner(anchor: Lit) returns (best: Lit)
      requires Growing(anchor)
      modifies this`marks, this`counts, this`touched, this`matches, this`effort
      ensures Growing(anchor) && Matching(anchor, old(counts)) && |counts| == old(|counts|)
      ensures effort <= old(effort) <= effort + SearchCost(|refs|)
      ensures effort != 0 ==> AllPairs(database, refs, alive, anchor, rows, selected, matches)
      ensures forall top: Lit :: Top(top, matches, |counts|) ==> (best == top <==> old(counts)[top] == 0)
      ensures best == NO_LITERAL <==> forall l: nat :: l < |counts| && CountOf(matches, l) >= 2 ==> old(counts)[l] != 0
      ensures best != NO_LITERAL ==> BestOf(best, counts, touched) && counts[best] >= 2 && old(counts)[best] == 0
      ensures best == NO_LITERAL ==> forall l :: l in touched ==> l < |counts| && counts[l] == 1
    {
      hide IndexOk, OccurrencesOk, StoreOk, Tally, MatchesOk, GroupMarked, CellOk, MatchOk, Once, Recorded, Top,
           AllPairs, RectangleOk;
      ghost var left := counts;
      FindMatches(anchor);
      TouchedBounds(database, refs, alive, anchor, rows, selected, left, counts, touched, matches);
      best := PickBest();
      BestIsTop(left, counts, touched, matches, best);
    }

    /** Records the pairs of every row, as far as the effort reaches. */
    method FindMatches(anchor: Lit)
      requires Growing(anchor)
      modifies this`marks, this`counts, this`touched, this`matches, this`effort
      ensures Growing(anchor) && Matching(anchor, old(counts)) && |counts| == old(|counts|)
      ensures effort <= old(effort) <= effort + SearchCost(|refs|)
      ensures effort != 0 ==> AllPairs(database, refs, alive, anchor, rows, selected, matches)
    {
      hide IndexOk, OccurrencesOk, StoreOk, Tally, MatchesOk, GroupMarked, CellOk, MatchOk, Once, Recorded, AllPairs,
           RowsCost, SearchCost, RectangleOk;
      NoMatches(database, refs, alive, anchor, rows, selected, |occurrences|);
      NothingRecorded(database, refs, alive, anchor, rows, selected);
      RowCount(database, refs, alive, anchor, rows, selected, matched);
      OneMoreRow(0, |refs|);
      ghost var left := counts;
      matches, touched := [], [];
      TallyStart(counts);
      var row := 0;
      while row < |rows| && effort != 0
        invariant 0 <= row <= |rows| && Matching(anchor, left) && |marks| == |occurrences|
        invariant forall l :: 0 <= l < |marks| ==> !marks[l]
        invariant Once(matches, row, {}) && (effort != 0 ==> Noted(anchor, row, {}))
        invariant effort <= old(effort) <= effort + RowsCost(row, |refs|)
      {
        OneMoreRow(row, |refs|);
        ScanRow(row, anchor, left);
        row := row + 1;
      }
      FewerRows(row, |rows|, |refs|);
      if effort != 0 {
        RowsRecorded(database, refs, alive, anchor, rows, selected, matches, |occurrences|);
      }
    }

    /** The most frequent touched literal, when it was counted twice. */
    method PickBest() returns (best: Lit)
      requires forall l :: l in touched ==> 2 <= l < |counts| && counts[l] >= 1
      ensures best != NO_LITERAL ==> BestOf(best, counts, touched) && counts[best] >= 2
      ensures best == NO_LITERAL ==> forall l :: l in touched ==> counts[l] == 1
    {
      best := NO_LITERAL;
      var bestCount := 0;
      var i := 0;
      while i < |touched|
        invariant 0 <= i <= |touched|
        invariant if i == 0 then best == NO_LITERAL && bestCount == 0
                  else BestOf(best, counts, touched[..i]) && bestCount == counts[best] && best >= 2
      {
        var lit := touched[i];
        assert lit in touched;
        assert touched[..i + 1] == touched[..i] + [lit];
        var count := counts[lit];
        if count > bestCount || (count == bestCount && lit < best) {
          best := lit;
          bestCount := count;
        }
        i := i + 1;
      }
      assert touched[..|touched|] == touched;
      if bestCount < 2 {
        best := NO_LITERAL;
      }
    }

    /** Takes the counts of the touched literals back. */
    method ClearCounts()
      requires forall l :: l in touched ==> l < |counts|
      modifies this`counts, this`touched
      ensures |counts| == old(|counts|) && touched == []
      ensures forall l: nat :: l < |counts| ==> counts[l] == if l in old(touched) then 0 else old(counts)[l]
    {
      var i := 0;
      while i < |touched|
        invariant 0 <= i <= |touched| && |counts| == old(|counts|) && touched == old(touched)
        invariant forall l: nat :: l < |counts| ==> counts[l] == if l in touched[..i] then 0 else old(counts)[l]
      {
        assert touched[i] in touched;
        assert touched[..i + 1] == touched[..i] + [touched[i]];
        counts := counts[touched[i] := 0];
        i := i + 1;
      }
      assert touched[..|touched|] == touched;
      touched := [];
    }

    /** What holds between two extensions of the group. */
    ghost predicate Growing(anchor: Lit)
      reads this`database, this`garbage, this`nextRef, this`refs, this`alive, this`sizes, this`occurrences,
            this`highestVariable
      reads this`rows, this`selected, this`selectedMarks, this`counts, this`marks, this`matched
    {
      && Indexed() && RectangleOk(database, refs, alive, anchor, rows, selected, matched)
      && GroupMarked(selectedMarks, selected) && |marks| == |selectedMarks| == |counts| == |occurrences|
      && (forall l :: 0 <= l < |marks| ==> !marks[l])
      && (forall l :: l in selected ==> 1 <= Var(l) <= highestVariable)
    }

    /** For each row the first clause found to pair it with the partner. */
    method FillPending(partner: Lit, ghost anchor: Lit)
      requires MatchesOk(database, refs, alive, anchor, rows, selected, matches, |occurrences|)
      modifies this`pending
      ensures PendingOk(database, refs, alive, anchor, rows, partner, pending)
      ensures forall r: nat :: r < |rows| ==> (pending[r] >= 0 <==> HasMatch(matches, r, partner))
    {
      hide CellOk, HasMatch;
      pending := seq(|rows|, _ => NO_CLAUSE);
      NoMatch(partner);
      var i := 0;
      while i < |matches|
        invariant 0 <= i <= |matches| && PendingOk(database, refs, alive, anchor, rows, partner, pending)
        invariant forall r: nat :: r < |rows| ==>
                  pending[r] >= NO_CLAUSE && (pending[r] >= 0 <==> HasMatch(matches[..i], r, partner))
      {
        var entry := matches[i];
        assert MatchOk(database, refs, alive, anchor, rows, selected, entry);
        assert matches[..i + 1] == matches[..i] + [entry];
        MatchMore(matches[..i], entry, partner);
        if entry.lit == partner && pending[entry.row] == NO_CLAUSE {
          pending := pending[entry.row := entry.clause];
        }
        i := i + 1;
      }
      assert matches[..|matches|] == matches;
    }

    /** Drops the rows the partner does not pair with and adds its column to the others. */
    method KeepPairedRows(partner: Lit, anchor: Lit)
      requires RectangleOk(database, refs, alive, anchor, rows, selected, matched) && partner !in selected
      requires PendingOk(database, refs, alive, anchor, rows, partner, pending)
      requires forall r: nat :: r < |rows| ==> (pending[r] >= 0 <==> HasMatch(matches, r, partner))
      modifies this`rows, this`matched
      ensures RectangleOk(database, refs, alive, anchor, rows, selected + [partner], matched)
      ensures rows == PairedWith(old(rows), matches, partner, |old(rows)|)
    {
      hide CellOk, HasMatch, RectangleOk;
      var width := |selected|;
      var rowsScratch: seq<nat>, matchedScratch: seq<nat> := [], [];
      EmptyWider(database, refs, alive, anchor, rows, selected, matched, partner);
      var row := 0;
      while row < |rows|
        invariant 0 <= row <= |rows| && rows == old(rows) && matched == old(matched)
        invariant RectangleOk(database, refs, alive, anchor, rowsScratch, selected + [partner], matchedScratch)
        invariant row < |rows| ==> forall r :: 0 <= r < |rowsScratch| ==> rowsScratch[r] < rows[row]
        invariant rowsScratch == PairedWith(rows, matches, partner, row)
      {
        RowBounds(database, refs, alive, anchor, rows, selected, matched, row);
        if pending[row] >= 0 {
          var begin := Cell(row, width, 0);
          var cells := matched[begin..begin + width] + [pending[row]];
          AddWiderRow(database, refs, alive, anchor, rows, selected, matched, row, partner, pending[row], rowsScratch,
                      matchedScratch);
          rowsScratch := rowsScratch + [rows[row]];
          matchedScratch := matchedScratch + cells;
        }
        row := row + 1;
      }
      rows := rowsScratch;
      matched := matchedScratch;
    }

    /** Adds a literal to the group and keeps just the rows it pairs with. */
    method AdoptPartner(partner: Lit, anchor: Lit)
      requires Growing(anchor) && MatchesOk(database, refs, alive, anchor, rows, selected, matches, |occurrences|)
      requires partner !in selected && partner < |occurrences| && 1 <= Var(partner) <= highestVariable
      modifies this`pending, this`rows, this`matched, this`selected, this`selectedMarks
      ensures Growing(anchor) && selected == old(selected) + [partner]
      ensures rows == PairedWith(old(rows), matches, partner, |old(rows)|)
    {
      hide IndexOk, OccurrencesOk, StoreOk, RectangleOk, PendingOk, MatchesOk;
      FillPending(partner, anchor);
      KeepPairedRows(partner, anchor);
      selected := selected + [partner];
      selectedMarks := selectedMarks[partner := true];
    }

    /** The live clauses of the anchor, a rectangle of one column. */
    method FirstRows(anchor: Lit)
      requires Indexed() && Quiet() && anchor < |occurrences|
      modifies this`rows
      ensures AnchorRows(database, refs, alive, anchor, rows)
    {
      hide IndexOk, StoreOk, Clear, ClauseAt, OccurrencesOk;
      rows := [];
      OccurrencesOf(database, refs, occurrences, anchor);
      IndexedRefs(database, garbage, refs, alive, sizes);
      var i := 0;
      while i < |occurrences[anchor]|
        invariant 0 <= i <= |occurrences[anchor]|
        invariant forall r, s :: 0 <= r < s < |rows| ==> rows[r] < rows[s]
        invariant i < |occurrences[anchor]| ==> forall r :: 0 <= r < |rows| ==> rows[r] < occurrences[anchor][i]
        invariant forall r :: 0 <= r < |rows| ==>
                    rows[r] < |refs| && rows[r] < |alive| && alive[rows[r]]
                        && anchor in ClauseAt(database, refs, rows[r])
        invariant forall j :: 0 <= j < i && alive[occurrences[anchor][j]] ==> occurrences[anchor][j] in rows
      {
        var id := occurrences[anchor][i];
        if alive[id] {
          ghost var before := rows;
          rows := rows + [id];
          assert rows[|before|] == id && forall r :: 0 <= r < |before| ==> rows[r] == before[r];
        }
        i := i + 1;
      }
    }

    /** Extends the group while the rectangle's saving grows. When it stops with effort left, no literal but one with a
        standing count (`left`) would make it grow. `first` are the matches of the first search: the group grows only
        when they find a literal, and when they find none their counts are left standing. */
    method GrowGroup(anchor: Lit) returns (ghost left: seq<nat>, ghost first: seq<Match>)
      requires Growing(anchor)
      modifies this`pending, this`rows, this`matched, this`selected, this`selectedMarks
      modifies this`marks, this`counts, this`touched, this`matches, this`effort
      ensures Growing(anchor) && |left| == |counts| && effort <= old(effort)
      ensures old(effort) <= effort + (|selected| - old(|selected|) + 1) * SearchCost(|refs|)
      ensures |selected| <= |occurrences|
      ensures effort != 0 ==> AllPairs(database, refs, alive, anchor, rows, selected, matches)
      ensures effort != 0 ==> Stuck(left, matches, |selected|, |rows|)
      ensures effort != 0 ==> AllPairs(database, refs, alive, anchor, old(rows), old(selected), first)
      ensures |selected| >= old(|selected|) && (|selected| > old(|selected|) ==> Findable(old(counts), first))
      ensures effort != 0 && !Findable(old(counts), first) ==> Tally(old(counts), counts, touched, first)
    {
      hide IndexOk, OccurrencesOk, StoreOk, RectangleOk, AllPairs, Stuck, GroupMarked, Findable, Tally, SearchCost;
      GroupBound(database, refs, alive, anchor, rows, selected, matched, selectedMarks);
      left, first := counts, [];
      var begun := false;
      while effort != 0
        invariant Growing(anchor) && |left| == |counts| && |selected| <= |occurrences| && effort <= old(effort)
        invariant |selected| >= old(|selected|)
        invariant old(effort) <= effort + (|selected| - old(|selected|)) * SearchCost(|refs|)
        invariant !begun ==> rows == old(rows) && selected == old(selected) && counts == old(counts)
        invariant begun ==> |selected| > old(|selected|) && Findable(old(counts), first)
        invariant begun && effort != 0 ==> AllPairs(database, refs, alive, anchor, old(rows), old(selected), first)
        decreases |occurrences| - |selected|
      {
        var grew;
        OneMoreSearch(|selected| - old(|selected|), |refs|);
        grew, left := ExtendGroup(anchor);
        if !begun {
          first := matches;
        }
        if !grew {
          break;
        }
        begun := true;
      }
    }

    /** Adds the literal the most rows pair with, when the rectangle saves more with it. */
    method ExtendGroup(anchor: Lit) returns (grew: bool, ghost left: seq<nat>)
      requires Growing(anchor)
      modifies this`pending, this`rows, this`matched, this`selected, this`selectedMarks
      modifies this`marks, this`counts, this`touched, this`matches, this`effort
      ensures Growing(anchor) && left == old(counts) && |left| == |counts| && |selected| <= |occurrences|
      ensures effort <= old(effort) <= effort + SearchCost(|refs|)
      ensures effort != 0 ==> AllPairs(database, refs, alive, anchor, old(rows), old(selected), matches)
      ensures grew ==> |selected| == old(|selected|) + 1 && Findable(left, matches)
      ensures !grew && !Findable(left, matches) ==> Tally(left, counts, touched, matches)
      ensures grew ==> Saving(|selected|, CountOf(matches, selected[|selected| - 1])) > old(Saving(|selected|, |rows|))
      ensures !grew ==> rows == old(rows) && selected == old(selected)
      ensures !grew && effort != 0 ==> Stuck(left, matches, |selected|, |rows|)
    {
      hide IndexOk, OccurrencesOk, StoreOk, RectangleOk, MatchesOk, Tally, BestOf, Top, AllPairs, GroupMarked,
           PairedWith, AnchorRows;
      GroupBound(database, refs, alive, anchor, rows, selected, matched, selectedMarks);
      left := counts;
      var best := BestPartner(anchor);
      if best == NO_LITERAL {
        return false, left;
      }
      var width := |selected|;
      BestIsCounted(left, counts, touched, matches, best);
      var matchedRows := counts[best];
      TouchedBounds(database, refs, alive, anchor, rows, selected, left, counts, touched, matches);
      if Saving(width + 1, matchedRows) <= Saving(width, |rows|) {
        BestDecides(left, counts, touched, matches, best, width, |rows|);
        ClearCounts();
        return false, left;
      }
      Widen(best, anchor, left);
      grew := true;
    }

    /** Clears the counts and adopts the partner found. */
    method Widen(best: Lit, anchor: Lit, ghost left: seq<nat>)
      requires Growing(anchor) && Matching(anchor, left) && BestOf(best, counts, touched) && counts[best] >= 2
      requires forall l :: l in touched ==> l < |counts|
      modifies this`pending, this`rows, this`matched, this`selected, this`selectedMarks, this`counts, this`touched
      ensures Growing(anchor) && |counts| == old(|counts|)
      ensures selected == old(selected) + [best] && |selected| <= |occurrences|
    {
      hide IndexOk, OccurrencesOk, StoreOk, RectangleOk, MatchesOk, Tally, BestOf, GroupMarked, PairedWith;
      IndexedRefs(database, garbage, refs, alive, sizes);
      PartnerFits(database, refs, alive, anchor, rows, selected, left, counts, touched, matches, best, highestVariable);
      ClearCounts();
      AdoptPartner(best, anchor);
      GroupBound(database, refs, alive, anchor, rows, selected, matched, selectedMarks);
    }

    /** Takes the marks of the group back. */
    method ClearGroupMarks()
      requires GroupMarked(selectedMarks, selected)
      modifies this`selectedMarks
      ensures |selectedMarks| == old(|selectedMarks|) && forall l :: 0 <= l < |selectedMarks| ==> !selectedMarks[l]
    {
      var i := 0;
      while i < |selected|
        invariant 0 <= i <= |selected| && |selectedMarks| == old(|selectedMarks|)
        invariant forall l :: 0 <= l < |selectedMarks| && selectedMarks[l] ==> l in selected[i..]
      {
        assert selected[i..] == [selected[i]] + selected[i + 1..];
        assert selected[i] in selected;
        selectedMarks := selectedMarks[selected[i] := false];
        i := i + 1;
      }
    }

    /** Starts a group with the anchor alone. */
    method StartGroup(anchor: Lit)
      requires Indexed() && Quiet() && anchor < |occurrences| && |rows| >= 2
               && AnchorRows(database, refs, alive, anchor, rows)
      modifies this`selected, this`selectedMarks, this`matched
      ensures Growing(anchor) && selected == [anchor]
    {
      hide IndexOk, OccurrencesOk, StoreOk, RectangleOk;
      FirstColumn(database, refs, alive, anchor, rows);
      IndexedAt(database, garbage, refs, alive, sizes, rows[0]);
      LiteralBounds(database, highestVariable, |occurrences|, refs[rows[0]]);
      selected := [anchor];
      selectedMarks := selectedMarks[anchor := true];
      matched := rows;
    }

    /** Grows the best rectangle anchored at a literal and applies it when it saves at least one clause. `opening` is
        what the first search went over: nothing changes unless it finds a literal without a standing count. */
    method FactorLiteral(anchor: Lit) returns (progress: bool, ghost left: seq<nat>, ghost opening: Opening)
      requires Indexed() && Quiet() && anchor < |occurrences|
      modifies this`pending, this`rows, this`matched, this`selected, this`touched, this`matches, this`effort
      modifies this`highestVariable, this`journal, this`introducedCount, this`garbage, this`removedCount
      modifies this`database, this`nextRef, this`addedCount
      modifies this`refs, this`alive, this`sizes, this`occurrences, this`marks, this`selectedMarks, this`counts
      ensures Indexed() && Quiet() && |occurrences| >= old(|occurrences|)
      ensures effort <= old(effort) <= effort + old(LiteralCost(|occurrences|, |refs|))
      ensures Outcome(old(database), old(garbage), old(refs), old(alive), old(highestVariable),
                      database, garbage, refs, alive, highestVariable)
      ensures highestVariable == old(highestVariable) + (if progress then 1 else 0)
      ensures progress <==> |opening.rows| >= 2 && |selected| >= 2 && Saving(|selected|, |rows|) >= 1
      ensures effort != 0 && |opening.rows| >= 2 ==>
                AllPairs(old(database), old(refs), old(alive), anchor, rows, selected, matches)
                    && Stuck(left, matches, |selected|, |rows|)
      ensures !progress ==> database == old(database) && refs == old(refs) && alive == old(alive)
                            && garbage == old(garbage) && |occurrences| == old(|occurrences|)
      ensures AnchorRows(old(database), old(refs), old(alive), anchor, opening.rows)
      ensures progress ==> Findable(old(counts), opening.matches)
      ensures effort != 0 && |opening.rows| >= 2 ==>
                AllPairs(old(database), old(refs), old(alive), anchor, opening.rows, [anchor], opening.matches)
      ensures effort != 0 && |opening.rows| >= 2 && !Findable(old(counts), opening.matches) ==>
                Tally(old(counts), counts, touched, opening.matches)
    {
      hide Listed, StoreOk, Clear, RectangleOk, Outcome, Applied, NoDuplicates, LiveRefs, AllPairs, Stuck, Findable,
           Tally, AnchorRows;
      OutcomeOfNothing(database, garbage, refs, alive, highestVariable);
      progress, left, opening := GrowRectangle(anchor);
      if progress {
        GroupVariables(selected, highestVariable);
        Apply(anchor);
      }
    }

    /** Grows the best rectangle anchored at a literal; tells whether it saves at least one clause. */
    method GrowRectangle(anchor: Lit) returns (worthwhile: bool, ghost left: seq<nat>, ghost opening: Opening)
      requires Indexed() && Quiet() && anchor < |occurrences|
      modifies this`pending, this`rows, this`matched, this`selected, this`touched, this`matches, this`effort
      modifies this`marks, this`selectedMarks, this`counts
      ensures Indexed() && Quiet() && effort <= old(effort) <= effort + LiteralCost(|occurrences|, |refs|)
      ensures worthwhile ==> RectangleOk(database, refs, alive, anchor, rows, selected, matched)
      ensures worthwhile ==> |selected| >= 2 && Saving(|selected|, |rows|) >= 1
      ensures worthwhile ==> forall l :: l in selected ==> 1 <= Var(l) <= highestVariable
      ensures worthwhile <==> |opening.rows| >= 2 && |selected| >= 2 && Saving(|selected|, |rows|) >= 1
      ensures effort != 0 && |opening.rows| >= 2 ==>
                AllPairs(database, refs, alive, anchor, rows, selected, matches)
                    && Stuck(left, matches, |selected|, |rows|)
      ensures AnchorRows(database, refs, alive, anchor, opening.rows)
      ensures effort != 0 && |opening.rows| >= 2 ==>
              AllPairs(database, refs, alive, anchor, opening.rows, [anchor], opening.matches)
      ensures worthwhile ==> Findable(old(counts), opening.matches)
      ensures effort != 0 && |opening.rows| >= 2 && !Findable(old(counts), opening.matches) ==>
                Tally(old(counts), counts, touched, opening.matches)
    {
      hide IndexOk, OccurrencesOk, StoreOk, RectangleOk, AllPairs, Stuck, Findable, Tally, AnchorRows, SearchCost,
           LiteralCost;
      FirstRows(anchor);
      opening := Opening(rows, []);
      if |rows| < 2 {
        return false, counts, opening;
      }
      ghost var first;
      left, first := GrowFromAnchor(anchor);
      opening := Opening(opening.rows, first);
      worthwhile := |selected| >= 2 && Saving(|selected|, |rows|) >= 1;
    }

    /** Grows the rectangle that starts with the anchor's clauses. */
    method GrowFromAnchor(anchor: Lit) returns (ghost left: seq<nat>, ghost first: seq<Match>)
      requires Indexed() && Quiet() && anchor < |occurrences| && |rows| >= 2
               && AnchorRows(database, refs, alive, anchor, rows)
      modifies this`pending, this`rows, this`matched, this`selected, this`touched, this`matches, this`effort
      modifies this`marks, this`selectedMarks, this`counts
      ensures Indexed() && Quiet() && effort <= old(effort) <= effort + LiteralCost(|occurrences|, |refs|)
      ensures RectangleOk(database, refs, alive, anchor, rows, selected, matched)
      ensures forall l :: l in selected ==> 1 <= Var(l) <= highestVariable
      ensures effort != 0 ==>
                AllPairs(database, refs, alive, anchor, rows, selected, matches)
                    && Stuck(left, matches, |selected|, |rows|)
      ensures effort != 0 ==> AllPairs(database, refs, alive, anchor, old(rows), [anchor], first)
      ensures |selected| >= 2 ==> Findable(old(counts), first)
      ensures effort != 0 && !Findable(old(counts), first) ==> Tally(old(counts), counts, touched, first)
    {
      hide IndexOk, OccurrencesOk, StoreOk, RectangleOk, AllPairs, Stuck, Findable, Tally, AnchorRows, SearchCost,
           LiteralCost;
      StartGroup(anchor);
      left, first := GrowGroup(anchor);
      SearchesBound(|selected|, |occurrences|, |refs|);
      ClearGroupMarks();
    }

    // -------------------------------------------------------------------------------------------
    // A run
    // -------------------------------------------------------------------------------------------

    method AliveOccurrences(l: Lit) returns (count: nat)
      requires l < |occurrences| && |alive| == |refs| && OccurrencesOk(database, refs, occurrences)
      ensures count == AliveCount(occurrences[l], alive)
    {
      count := 0;
      var i := 0;
      while i < |occurrences[l]|
        invariant 0 <= i <= |occurrences[l]| && count == AliveCount(occurrences[l][..i], alive)
      {
        assert occurrences[l][..i + 1][..i] == occurrences[l][..i];
        if alive[occurrences[l][i]] {
          count := count + 1;
        }
        i := i + 1;
      }
      assert occurrences[l][..|occurrences[l]|] == occurrences[l];
    }

    /** Lists every literal with at least two live occurrences, most frequent first. */
    method CollectCandidates()
      requires |alive| == |refs| && OccurrencesOk(database, refs, occurrences)
      modifies this`candidates, this`candidateCounts
      ensures CandidatesOk(candidates, candidateCounts, occurrences, alive)
      ensures forall l: nat :: 2 <= l < |occurrences| && AliveCount(occurrences[l], alive) >= 2 ==> l in candidates
    {
      hide OccurrencesOk, CandidatesOk;
      candidates, candidateCounts := [], [];
      NoCandidates(occurrences, alive);
      var raw := 2;
      while raw < |occurrences|
        invariant 2 <= raw && CandidatesOk(candidates, candidateCounts, occurrences, alive)
        invariant forall l :: l in candidates ==> l < raw
        invariant forall l: nat :: 2 <= l < raw && l < |occurrences| && AliveCount(occurrences[l], alive) >= 2 ==>
                  l in candidates
        decreases |occurrences| - raw
      {
        var count := AliveOccurrences(raw);
        if count >= 2 {
          InsertCandidate(raw, count);
        }
        raw := raw + 1;
      }
    }

    /** Puts a candidate in its place. */
    method InsertCandidate(l: Lit, count: nat)
      requires CandidatesOk(candidates, candidateCounts, occurrences, alive) && l < |occurrences|
      requires count == AliveCount(occurrences[l], alive) >= 2 && 2 <= l && l !in candidates
      modifies this`candidates, this`candidateCounts
      ensures CandidatesOk(candidates, candidateCounts, occurrences, alive)
      ensures forall m :: m in candidates <==> m == l || m in old(candidates)
    {
      var at := 0;
      while at < |candidates| && Before(candidateCounts[at], candidates[at], count, l)
        invariant 0 <= at <= |candidates|
        invariant forall i :: 0 <= i < at ==> Before(candidateCounts[i], candidates[i], count, l)
      {
        at := at + 1;
      }
      InsertedOk(candidates, candidateCounts, occurrences, alive, l, count, at);
      candidates := candidates[..at] + [l] + candidates[at..];
      candidateCounts := candidateCounts[..at] + [count] + candidateCounts[at..];
    }

    /** One round over the candidates. */
    method FactorRound() returns (progress: bool, ghost visits: seq<Visit>)
      requires Indexed() && Quiet() && forall l :: l in candidates ==> l < |occurrences|
      modifies this`pending, this`rows, this`matched, this`selected, this`touched, this`matches, this`effort
      modifies this`highestVariable, this`journal, this`introducedCount, this`garbage, this`removedCount
      modifies this`database, this`nextRef, this`addedCount
      modifies this`refs, this`alive, this`sizes, this`occurrences, this`marks, this`selectedMarks, this`counts
      ensures Indexed() && Quiet()
      ensures Outcome(old(database), old(garbage), old(refs), old(alive), old(highestVariable),
                      database, garbage, refs, alive, highestVariable)
      ensures (progress <==> highestVariable > old(highestVariable)) && highestVariable >= old(highestVariable)
      ensures |occurrences| >= old(|occurrences|)
      ensures !progress ==> database == old(database) && refs == old(refs) && alive == old(alive)
                            && garbage == old(garbage) && |occurrences| == old(|occurrences|)
      ensures !progress ==> old(effort) <= effort + CandidatesCost(|candidates|, |occurrences|, |refs|)
      ensures !progress && effort != 0 ==>
                AllVisited(database, refs, alive, candidates, visits, old(counts), counts)
    {
      hide Listed, StoreOk, Clear, Outcome, LiteralCost, CandidatesCost, AllVisited;
      OutcomeOfNothing(database, garbage, refs, alive, highestVariable);
      NoneVisited(database, refs, alive, candidates, counts);
      OneMoreCandidate(0, |occurrences|, |refs|);
      progress, visits := false, [];
      var i := 0;
      while i < |candidates| && effort != 0
        invariant 0 <= i <= |candidates| && Indexed() && Quiet() && |occurrences| >= old(|occurrences|)
        invariant Outcome(old(database), old(garbage), old(refs), old(alive), old(highestVariable),
                          database, garbage, refs, alive, highestVariable)
        invariant (progress <==> highestVariable > old(highestVariable)) && highestVariable >= old(highestVariable)
        invariant !progress ==> database == old(database) && refs == old(refs) && alive == old(alive)
                                && garbage == old(garbage) && |occurrences| == old(|occurrences|)
        invariant !progress ==> old(effort) <= effort + CandidatesCost(i, |occurrences|, |refs|)
        invariant |visits| == i
        invariant !progress && effort != 0 ==>
                    AllVisited(database, refs, alive, candidates[..i], visits, old(counts), counts)
      {
        ghost var db, g, rs, al, h := database, garbage, refs, alive, highestVariable;
        ghost var before := counts;
        assert candidates[i] in candidates;
        OneMoreCandidate(i, |occurrences|, |refs|);
        ghost var v;
        var changed;
        changed, v := TryCandidate(candidates[i]);
        OutcomeTransitive(old(database), old(garbage), old(refs), old(alive), old(highestVariable),
                          db, g, rs, al, h, database, garbage, refs, alive, highestVariable);
        if !progress && !changed && effort != 0 {
          OneMoreVisited(database, refs, alive, candidates, visits, old(counts), v);
        }
        visits := visits + [v];
        progress := progress || changed;
        i := i + 1;
      }
      FewerCandidates(i, |candidates|, |occurrences|, |refs|);
      assert candidates[..|candidates|] == candidates;
    }

    /** A candidate's turn in a round. */
    method TryCandidate(anchor: Lit) returns (changed: bool, ghost v: Visit)
      requires Indexed() && Quiet() && anchor < |occurrences|
      modifies this`pending, this`rows, this`matched, this`selected, this`touched, this`matches, this`effort
      modifies this`highestVariable, this`journal, this`introducedCount, this`garbage, this`removedCount
      modifies this`database, this`nextRef, this`addedCount
      modifies this`refs, this`alive, this`sizes, this`occurrences, this`marks, this`selectedMarks, this`counts
      ensures Indexed() && Quiet() && |occurrences| >= old(|occurrences|)
      ensures effort <= old(effort) <= effort + old(LiteralCost(|occurrences|, |refs|))
      ensures Outcome(old(database), old(garbage), old(refs), old(alive), old(highestVariable),
                      database, garbage, refs, alive, highestVariable)
      ensures highestVariable == old(highestVariable) + (if changed then 1 else 0)
      ensures !changed ==> database == old(database) && refs == old(refs) && alive == old(alive)
                           && garbage == old(garbage) && |occurrences| == old(|occurrences|)
      ensures v.before == old(counts) && v.after == counts
      ensures !changed && effort != 0 ==> Visited(database, refs, alive, anchor, v)
    {
      hide Listed, StoreOk, Clear, Outcome, LiteralCost, AnchorRows, AllPairs, Stuck, Findable, Tally;
      ghost var left, opening;
      changed, left, opening := FactorLiteral(anchor);
      v := Visit(opening, rows, selected, matches, left, old(counts), counts, touched);
    }

    /** Forgets the index; the tables keep their size. */
    method ReleaseIndex()
      requires |marks| == |selectedMarks| == |counts| == |occurrences| && (forall l :: 0 <= l < |marks| ==> !marks[l])
      requires forall l :: 0 <= l < |selectedMarks| ==> !selectedMarks[l]
      modifies this`refs, this`alive, this`sizes, this`occurrences, this`candidates, this`candidateCounts
      ensures refs == [] && alive == [] && sizes == [] && candidates == [] && |occurrences| == old(|occurrences|)
      ensures Quiet() && forall l: nat :: l < |occurrences| ==> occurrences[l] == []
    {
      refs, alive, sizes := [], [], [];
      occurrences := seq(|occurrences|, _ => []);
      candidates, candidateCounts := [], [];
    }

    /** The highest variable of the live permanent clauses. */
    method HighestVariable() returns (highest: nat)
      requires garbage == {}
      ensures VariablesBelow(database, PermanentRefs(database), highest)
    {
      highest := 0;
      ghost var done: set<Ref> := {};
      var todo := PermanentRefs(database);
      ghost var all := todo;
      while todo != {}
        invariant todo <= all && done == all - todo && VariablesBelow(database, done, highest)
        decreases |todo|
      {
        var ref :| ref in todo;
        var lits := database[ref].lits;
        var i := 0;
        ghost var before := highest;
        while i < |lits|
          invariant 0 <= i <= |lits| && highest >= before && forall k :: 0 <= k < i ==> Var(lits[k]) <= highest
        {
          if Var(lits[i]) > highest {
            highest := Var(lits[i]);
          }
          i := i + 1;
        }
        todo := todo - {ref};
        done := done + {ref};
      }
      assert done == all;
    }

    /** A live permanent clause of a size the pass works on. */
    predicate Usable(r: Ref)
      reads this`database, this`garbage, this`maximumClauseSize
    {
      LiveRef(database, garbage, r) && 2 <= |database[r].lits| <= maximumClauseSize
    }

    /** Indexes the live permanent clauses of usable size. */
    method RegisterAll(ghost bound: nat)
      requires Listed() && Quiet() && StoreOk(database, bound) && refs == []
      modifies this`refs, this`alive, this`sizes, this`occurrences, this`marks, this`selectedMarks, this`counts
      ensures Listed() && Quiet() && forall r :: r in refs <==> Usable(r)
      ensures old(NothingCounted(counts)) ==> NothingCounted(counts)
    {
      hide IndexOk, OccurrencesOk, Clear;
      var todo := PermanentRefs(database);
      while todo != {}
        invariant Listed() && Quiet() && (forall i :: 0 <= i < |refs| ==> refs[i] !in todo)
        invariant forall r :: r in todo ==> r in database && !database[r].redundant
        invariant forall r :: r in refs <==> Usable(r) && r !in todo
        invariant old(NothingCounted(counts)) ==> NothingCounted(counts)
        decreases |todo|
      {
        var ref :| ref in todo;
        var size := |database[ref].lits|;
        if ref !in garbage && 2 <= size <= maximumClauseSize {
          RegisterClause(ref, bound);
        }
        todo := todo - {ref};
      }
    }

    /** Indexes just the clauses a pass may use, each once; fails when there are too few. */
    method BuildIndex(ghost bound: nat) returns (enough: bool)
      requires StoreOk(database, bound) && (forall r :: r in database ==> r < nextRef) && garbage == {}
      requires |marks| == |selectedMarks| == |counts| == |occurrences| && (forall l :: 0 <= l < |marks| ==> !marks[l])
      requires forall l :: 0 <= l < |selectedMarks| ==> !selectedMarks[l]
      modifies this`candidates, this`candidateCounts, this`effort, this`highestVariable
      modifies this`refs, this`alive, this`sizes, this`occurrences, this`marks, this`selectedMarks, this`counts
      ensures Indexed() && Quiet() && highestVariable >= problemVariableCount
      ensures (forall r :: r in refs <==> Usable(r)) && (enough <==> |refs| >= 3)
      ensures effort == |refs| * effortPerClause + MINIMUM_EFFORT && NothingCounted(counts)
    {
      hide IndexOk, OccurrencesOk, StoreOk, VariablesBelow;
      ReleaseIndex();
      EmptyIndex(database, garbage, occurrences);
      var highest := HighestVariable();
      counts := seq(|counts|, _ => 0);
      RegisterAll(bound);
      StoreBelow(database, bound, highest);
      SetHighest(highest);
      effort := |refs| * effortPerClause + MINIMUM_EFFORT;
      enough := |refs| >= 3;
    }

    /** Numbers fresh variables above everything stated. */
    method SetHighest(highest: nat)
      requires Listed() && Quiet() && StoreOk(database, highest)
      modifies this`highestVariable, this`occurrences, this`marks, this`selectedMarks, this`counts
      ensures Indexed() && Quiet() && highestVariable >= problemVariableCount
      ensures old(NothingCounted(counts)) ==> NothingCounted(counts)
    {
      hide IndexOk, StoreOk, Clear;
      highestVariable := if highest > problemVariableCount then highest else problemVariableCount;
      StoreAbove(database, highest, highestVariable);
      ghost var before := occurrences;
      EnsureLiteralCapacity(MakeLit(highestVariable, true));
      OccurrencesLonger(database, refs, before, occurrences);
    }

    /** A full pass: the models over the old variables stay the same, and when no clause was repeated every variable
        introduced has made the clauses at least one fewer. */
    method Run(hasProofConsumer: bool, ghost bound: nat)
      returns (ghost highest: nat, ghost index: seq<Ref>, ghost counted: seq<nat>)
      requires StoreOk(database, bound) && (forall r :: r in database ==> r < nextRef) && garbage == {}
      requires |marks| == |selectedMarks| == |counts| == |occurrences| && (forall l :: 0 <= l < |marks| ==> !marks[l])
      requires forall l :: 0 <= l < |selectedMarks| ==> !selectedMarks[l]
      modifies this`candidates, this`candidateCounts
      modifies this`pending, this`rows, this`matched, this`selected, this`touched, this`matches, this`effort
      modifies this`highestVariable, this`journal, this`introducedCount, this`garbage, this`removedCount
      modifies this`database, this`nextRef, this`addedCount
      modifies this`refs, this`alive, this`sizes, this`occurrences, this`marks, this`selectedMarks, this`counts
      ensures garbage == {} && (hasProofConsumer ==> database == old(database))
      ensures !hasProofConsumer ==> highest >= problemVariableCount && StoreOk(old(database), highest)
      ensures !hasProofConsumer ==> RunOutcome(old(database), highest, database, highestVariable)
      ensures !hasProofConsumer ==> forall r :: r in index <==> old(Usable(r))
      ensures !hasProofConsumer && |index| >= 3 && highestVariable == highest
              && |index| * effortPerClause + MINIMUM_EFFORT > RoundCost(|occurrences|, |index|) ==>
                && database == old(database) && NothingCounted(counted)
                && NothingGained(database, index, seq(|index|, _ => true), counted)
    {
      hide IndexOk, OccurrencesOk, StoreOk, Clear, Outcome, RunOutcome, NothingGained, RoundCost;
      highest, index, counted := 0, [], [];
      if hasProofConsumer {
        return;
      }
      var enough := BuildIndex(bound);
      highest, index := highestVariable, refs;
      FreshIndex(database, refs, alive, sizes);
      if !enough {
        RunNothing(database, highest);
        return;
      }
      ghost var refs0, alive0, sizes0 := refs, alive, sizes;
      counted := Rounds();
      RunDone(old(database), refs0, alive0, sizes0, highest, database, garbage, refs, alive, highestVariable);
      NothingFlushed(database);
      FlushGarbage();
    }

    /** Removes the deleted clauses from the store and forgets the index. */
    method FlushGarbage()
      requires Quiet()
      modifies this`database, this`garbage, this`refs, this`alive, this`sizes, this`occurrences
      modifies this`candidates, this`candidateCounts
      ensures database == Flushed(old(database), old(garbage)) && garbage == {} && Quiet()
      ensures |occurrences| == old(|occurrences|)
    {
      database := Flushed(database, garbage);
      garbage := {};
      ReleaseIndex();
    }

    /** Rounds of factoring, as long as there is progress and effort left. */
    method Rounds() returns (ghost before: seq<nat>)
      requires Indexed() && Quiet()
      modifies this`candidates, this`candidateCounts
      modifies this`pending, this`rows, this`matched, this`selected, this`touched, this`matches, this`effort
      modifies this`highestVariable, this`journal, this`introducedCount, this`garbage, this`removedCount
      modifies this`database, this`nextRef, this`addedCount
      modifies this`refs, this`alive, this`sizes, this`occurrences, this`marks, this`selectedMarks, this`counts
      ensures Indexed() && Quiet()
      ensures Outcome(old(database), old(garbage), old(refs), old(alive), old(highestVariable),
                      database, garbage, refs, alive, highestVariable)
      ensures highestVariable >= old(highestVariable)
      ensures highestVariable == old(highestVariable) ==>
                before == old(counts) && database == old(database) && refs == old(refs) && alive == old(alive)
                && garbage == old(garbage) && |occurrences| == old(|occurrences|)
      ensures highestVariable == old(highestVariable) && old(effort) > RoundCost(|occurrences|, |refs|) ==> effort != 0
      ensures effort != 0 ==>
                highestVariable >= old(highestVariable) + MAXIMUM_ROUNDS || NothingGained(database, refs, alive, before)
    {
      hide IndexOk, OccurrencesOk, StoreOk, Clear, Outcome, CandidatesOk, NothingGained, AllVisited, Candidates,
           CandidatesCost, RoundCost;
      OutcomeOfNothing(database, garbage, refs, alive, highestVariable);
      before := counts;
      var round := 0;
      var stopped := false;
      while round < MAXIMUM_ROUNDS && effort != 0 && !stopped
        invariant 0 <= round <= MAXIMUM_ROUNDS && Indexed() && Quiet()
        invariant Outcome(old(database), old(garbage), old(refs), old(alive), old(highestVariable),
                          database, garbage, refs, alive, highestVariable)
        invariant highestVariable >= old(highestVariable) + round
        invariant round == 0 ==> highestVariable == old(highestVariable) && before == old(counts)
        invariant round == 0 ==> database == old(database) && refs == old(refs) && alive == old(alive)
        invariant round == 0 ==> garbage == old(garbage) && |occurrences| == old(|occurrences|)
        invariant !stopped && round == 0 ==> effort == old(effort) && counts == old(counts)
        invariant stopped && round == 0 && old(effort) > RoundCost(|occurrences|, |refs|) ==> effort != 0
        invariant stopped && effort != 0 ==> NothingGained(database, refs, alive, before)
        decreases !stopped, MAXIMUM_ROUNDS - round
      {
        ghost var db, g, rs, al, h := database, garbage, refs, alive, highestVariable;
        IndexedRefs(database, garbage, refs, alive, sizes);
        before := counts;
        ListCandidates();
        ghost var visits;
        var progress;
        progress, visits := FactorRound();
        OutcomeTransitive(old(database), old(garbage), old(refs), old(alive), old(highestVariable),
                          db, g, rs, al, h, database, garbage, refs, alive, highestVariable);
        if progress {
          round := round + 1;
        } else {
          RoundBound(|candidates|, |occurrences|, |refs|);
          if effort != 0 {
            GainedNothing(database, refs, alive, candidates, visits, before, counts);
          }
          stopped := true;
        }
      }
    }

    /** Lists the candidates of a round. */
    method ListCandidates()
      requires Indexed() && Quiet()
      modifies this`candidates, this`candidateCounts
      ensures (forall l :: l in candidates ==> l < |occurrences|) && |candidates| <= |occurrences|
      ensures Candidates(database, refs, alive, candidates)
    {
      hide IndexOk, OccurrencesOk, StoreOk, Clear, CandidatesOk, Candidates;
      IndexedRefs(database, garbage, refs, alive, sizes);
      CollectCandidates();
      CandidateBounds(candidates, candidateCounts, occurrences, alive);
      AllShared(database, refs, alive, sizes, garbage, occurrences, highestVariable, candidates);
    }
  }

  /** No literal has a standing count. */
  predicate NothingCounted(counts: seq<nat>) {
    forall l :: 0 <= l < |counts| ==> counts[l] == 0
  }

  /** Nothing has been deleted yet. */
  lemma FreshIndex(db: Database, refs: seq<Ref>, alive: seq<bool>, sizes: seq<nat>)
    requires IndexOk(db, {}, refs, alive, sizes)
    ensures alive == seq(|refs|, _ => true)
  {
  }

  lemma NothingFlushed(db: Database)
    ensures Flushed(db, {}) == db
  {
  }

  /** Live counts, in falling order, without repetition. */
  ghost predicate CandidatesOk(candidates: seq<Lit>, counts: seq<nat>, occurrences: seq<seq<nat>>, alive: seq<bool>) {
    && |counts| == |candidates|
    && (forall i :: 0 <= i < |candidates| ==>
          2 <= candidates[i] < |occurrences| && counts[i] == AliveCount(occurrences[candidates[i]], alive)
              && counts[i] >= 2)
    && (forall i, j :: 0 <= i < j < |candidates| ==> Before(counts[i], candidates[i], counts[j], candidates[j]))
  }

  lemma CandidateBounds(candidates: seq<Lit>, counts: seq<nat>, occurrences: seq<seq<nat>>, alive: seq<bool>)
    requires CandidatesOk(candidates, counts, occurrences, alive)
    ensures (forall l :: l in candidates ==> l < |occurrences|) && |candidates| <= |occurrences|
  {
    forall i, j | 0 <= i < j < |candidates| ensures candidates[i] != candidates[j] {
      assert Before(counts[i], candidates[i], counts[j], candidates[j]);
    }
    DistinctBound(candidates, |occurrences|);
  }

  /** Two live clauses on a list count. */
  lemma {:induction false} TwoAlive(list: seq<nat>, alive: seq<bool>, i: nat, j: nat)
    requires i < j < |list| && list[i] < |alive| && list[j] < |alive| && alive[list[i]] && alive[list[j]]
    ensures AliveCount(list, alive) >= 2
  {
    if j < |list| - 1 {
      TwoAlive(list[..|list| - 1], alive, i, j);
    } else {
      OneAlive(list[..|list| - 1], alive, i);
    }
  }

  lemma {:induction false} OneAlive(list: seq<nat>, alive: seq<bool>, i: nat)
    requires i < |list| && list[i] < |alive| && alive[list[i]]
    ensures AliveCount(list, alive) >= 1
  {
    if i < |list| - 1 {
      OneAlive(list[..|list| - 1], alive, i);
    }
  }

  /** A literal two live clauses share has two live occurrences. */
  lemma AllShared(db: Database, refs: seq<Ref>, alive: seq<bool>, sizes: seq<nat>, garbage: set<Ref>,
                  occurrences: seq<seq<nat>>, highest: nat, candidates: seq<Lit>)
    requires IndexOk(db, garbage, refs, alive, sizes) && OccurrencesOk(db, refs, occurrences) && StoreOk(db, highest)
    requires 2 * highest + 2 <= |occurrences|
    requires forall l: nat :: 2 <= l < |occurrences| && AliveCount(occurrences[l], alive) >= 2 ==> l in candidates
    ensures Candidates(db, refs, alive, candidates)
  {
    hide OccurrencesOk;
    forall l: Lit, i: nat, j: nat | i < j < |refs| && Shares(db, refs, alive, i, j, l)
      ensures l in candidates
    {
      LiteralBounds(db, highest, |occurrences|, refs[i]);
      OccurrencesOf(db, refs, occurrences, l);
      var a :| 0 <= a < |occurrences[l]| && occurrences[l][a] == i;
      var b :| 0 <= b < |occurrences[l]| && occurrences[l][b] == j;
      TwoAlive(occurrences[l], alive, if a < b then a else b, if a < b then b else a);
    }
  }

  lemma InsertedOk(candidates: seq<Lit>, counts: seq<nat>, occurrences: seq<seq<nat>>, alive: seq<bool>, l: Lit,
                   count: nat, at: nat)
    requires CandidatesOk(candidates, counts, occurrences, alive) && at <= |candidates| && l !in candidates
    requires 2 <= l < |occurrences| && count == AliveCount(occurrences[l], alive) >= 2
    requires forall i :: 0 <= i < at ==> Before(counts[i], candidates[i], count, l)
    requires at < |candidates| ==> !Before(counts[at], candidates[at], count, l)
    ensures CandidatesOk(candidates[..at] + [l] + candidates[at..], counts[..at] + [count] + counts[at..], occurrences,
                         alive)
  {
    hide AliveCount;
    forall i | at <= i < |candidates| ensures Before(count, l, counts[i], candidates[i]) {
      assert candidates[at] in candidates;
      assert i > at ==> Before(counts[at], candidates[at], counts[i], candidates[i]);
    }
  }

  lemma GroupVariables(selected: seq<Lit>, highest: nat)
    requires forall l :: l in selected ==> 1 <= Var(l) <= highest
    ensures forall c :: 0 <= c < |selected| ==> 1 <= Var(selected[c]) <= highest
  {
  }
}
