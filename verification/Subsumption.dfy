/** Subsumption between clauses: what one pass does, what it may skip, and what it preserves. */
module Subsumption {
  import opened Logic
  import opened SearchState
  import opened Implication
  import opened CountingIndex

  /** A clause of the pass, with the fingerprint of its literals. */
  datatype Item = Item(ref: Ref, lits: Clause, signature: set<nat>, active: bool, redundant: bool, checked: bool)

  datatype Event = Deleted(ref: Ref) | Promoted(ref: Ref)

  /** The clauses and what has been done to them, in order. */
  datatype Pass = Pass(items: seq<Item>, log: seq<Event>)

  /** Every literal of the non-empty left clause is in the right one. */
  predicate Subsumes(left: Clause, right: Clause) {
    left != [] && |left| <= |right| && forall i :: 0 <= i < |left| ==> left[i] in right
  }

  /** One of 64 bits per literal. */
  function SignatureOf(c: Clause): set<nat> {
    set l | l in c :: l % 64
  }

  /** The signature filter never hides a subsumption. */
  lemma SignatureNeverHides(left: Clause, right: Clause)
    requires forall i :: 0 <= i < |left| ==> left[i] in right
    ensures SignatureOf(left) <= SignatureOf(right)
  {
    forall b | b in SignatureOf(left) ensures b in SignatureOf(right) {
      var l :| l in left && l % 64 == b;
      var i :| 0 <= i < |left| && left[i] == l;
    }
  }

  // ---------------------------------------------------------------------------------------------
  // Candidates
  // ---------------------------------------------------------------------------------------------

  function RowsOf(items: seq<Item>): seq<seq<nat>> {
    seq(|items|, i requires 0 <= i < |items| => items[i].lits)
  }

  /** The first literal among the first `k` whose occurrence list is shortest. */
  function Rarest(rows: seq<seq<nat>>, c: Clause, k: nat): Lit
    requires 0 < k <= |c|
  {
    if k == 1 then c[0]
    else
      var best := Rarest(rows, c, k - 1);
      if |Occurrences(rows, c[k - 1])| < |Occurrences(rows, best)| then c[k - 1] else best
  }

  function Candidates(rows: seq<seq<nat>>, c: Clause): seq<nat>
    requires c != []
  {
    Occurrences(rows, Rarest(rows, c, |c|))
  }

  lemma {:induction false} RarestIsMember(rows: seq<seq<nat>>, c: Clause, k: nat)
    requires 0 < k <= |c|
    ensures Rarest(rows, c, k) in c
    ensures forall i :: 0 <= i < k ==> |Occurrences(rows, Rarest(rows, c, k))| <= |Occurrences(rows, c[i])|
  {
    if k > 1 {
      RarestIsMember(rows, c, k - 1);
    }
  }

  /** The rarest list never hides a clause that holds every literal. */
  lemma RarestNeverHides(items: seq<Item>, left: nat, right: nat)
    requires left < |items| && right < |items| && Subsumes(items[left].lits, items[right].lits)
    ensures right in Candidates(RowsOf(items), items[left].lits)
  {
    var rows, c := RowsOf(items), items[left].lits;
    RarestIsMember(rows, c, |c|);
    var l := Rarest(rows, c, |c|);
    var i :| 0 <= i < |c| && c[i] == l;
    OccurrencesAre(rows, l);
    assert rows[right] == items[right].lits;
  }

  lemma CandidatesInRange(items: seq<Item>, c: Clause)
    requires c != []
    ensures forall j :: j in Candidates(RowsOf(items), c) ==> j < |items|
  {
    OccurrencesAre(RowsOf(items), Rarest(RowsOf(items), c, |c|));
  }

  // ---------------------------------------------------------------------------------------------
  // One pass
  // ---------------------------------------------------------------------------------------------

  /** The candidate, smaller or an earlier clause of the same size, subsumes the left clause. */
  predicate ForwardTest(items: seq<Item>, left: nat, c: nat)
    requires left < |items|
  {
    && c < |items| && c != left && items[c].active && !(items[left].checked && items[c].checked)
    && (|items[c].lits| < |items[left].lits| || (c < left && |items[c].lits| == |items[left].lits|))
    && items[c].signature <= items[left].signature && Subsumes(items[c].lits, items[left].lits)
  }

  predicate BackwardTest(items: seq<Item>, left: nat, c: nat)
    requires left < |items|
  {
    && c < |items| && c != left && items[c].active && !(items[left].checked && items[c].checked)
    && |items[left].lits| <= |items[c].lits|
    && items[left].signature <= items[c].signature && Subsumes(items[left].lits, items[c].lits)
  }

  /** Deletes the subsumed clause; a learned clause that takes the place of an original one is made permanent first,
      and when that fails nothing happens. */
  function Subsume(p: Pass, promotable: set<Ref>, subsumed: nat, keeper: nat): Pass
    requires subsumed < |p.items| && keeper < |p.items| && subsumed != keeper
  {
    var gone := p.items[subsumed];
    var kept := p.items[keeper];
    if !gone.redundant && kept.redundant then
      if kept.ref !in promotable then p
      else Pass(p.items[keeper := kept.(redundant := false)][subsumed := gone.(active := false)],
                p.log + [Promoted(kept.ref), Deleted(gone.ref)])
    else Pass(p.items[subsumed := gone.(active := false)], p.log + [Deleted(gone.ref)])
  }

  /** The first candidate from place `k` on that subsumes the left clause, or the end of the list. */
  function FirstForward(items: seq<Item>, left: nat, cands: seq<nat>, k: nat): (at: nat)
    requires left < |items| && k <= |cands|
    ensures k <= at <= |cands| && (at < |cands| ==> ForwardTest(items, left, cands[at]))
    decreases |cands| - k
  {
    if k == |cands| || ForwardTest(items, left, cands[k]) then k else FirstForward(items, left, cands, k + 1)
  }

  /** Deletes one candidate if the left clause subsumes it. */
  function BackwardOne(p: Pass, promotable: set<Ref>, left: nat, c: nat): (q: Pass)
    requires left < |p.items|
    ensures |q.items| == |p.items|
  {
    if BackwardTest(p.items, left, c) then Subsume(p, promotable, c, left) else p
  }

  /** Deletes every candidate among the first `k` the left clause subsumes. */
  function Backward(p: Pass, promotable: set<Ref>, left: nat, cands: seq<nat>, k: nat): (q: Pass)
    requires left < |p.items| && k <= |cands|
    ensures |q.items| == |p.items|
  {
    if k == 0 then p else BackwardOne(Backward(p, promotable, left, cands, k - 1), promotable, left, cands[k - 1])
  }

  /** What is done when the turn of `left` comes. */
  function Process(p: Pass, promotable: set<Ref>, left: nat): (q: Pass)
    requires left < |p.items|
    ensures |q.items| == |p.items|
  {
    var c := p.items[left].lits;
    if !p.items[left].active || c == [] then p
    else
      var cands := Candidates(RowsOf(p.items), c);
      var at := FirstForward(p.items, left, cands, 0);
      if at < |cands| then Subsume(p, promotable, left, cands[at]) else Backward(p, promotable, left, cands, |cands|)
  }

  /** The pass after the first `k` clauses have had their turn. */
  function Swept(items: seq<Item>, promotable: set<Ref>, k: nat): (q: Pass)
    requires k <= |items|
    ensures |q.items| == |items|
  {
    if k == 0 then Pass(items, []) else Process(Swept(items, promotable, k - 1), promotable, k - 1)
  }

  // ---------------------------------------------------------------------------------------------
  // What never changes
  // ---------------------------------------------------------------------------------------------

  /** Literals, references and marks stay; clauses are only deactivated or made permanent. */
  ghost predicate Later(items: seq<Item>, after: seq<Item>) {
    && |after| == |items|
    && forall i :: 0 <= i < |items| ==> LaterItem(items[i], after[i])
  }

  ghost predicate LaterItem(x: Item, y: Item) {
    && y == x.(active := y.active, redundant := y.redundant)
    && (y.active ==> x.active) && (y.redundant ==> x.redundant)
  }

  lemma LaterTransitive(a: seq<Item>, b: seq<Item>, c: seq<Item>)
    requires Later(a, b) && Later(b, c)
    ensures Later(a, c)
  {
    forall i | 0 <= i < |a| ensures LaterItem(a[i], c[i]) {
      assert LaterItem(a[i], b[i]) && LaterItem(b[i], c[i]);
    }
  }

  lemma SubsumeLater(p: Pass, promotable: set<Ref>, subsumed: nat, keeper: nat)
    requires subsumed < |p.items| && keeper < |p.items| && subsumed != keeper
    ensures Later(p.items, Subsume(p, promotable, subsumed, keeper).items)
  {
  }

  lemma {:induction false} BackwardLater(p: Pass, promotable: set<Ref>, left: nat, cands: seq<nat>, k: nat)
    requires left < |p.items| && k <= |cands|
    ensures Later(p.items, Backward(p, promotable, left, cands, k).items)
    ensures Backward(p, promotable, left, cands, k).items[left].active == p.items[left].active
  {
    if k > 0 {
      BackwardLater(p, promotable, left, cands, k - 1);
      var before := Backward(p, promotable, left, cands, k - 1);
      if BackwardTest(before.items, left, cands[k - 1]) {
        SubsumeLater(before, promotable, cands[k - 1], left);
        LaterTransitive(p.items, before.items, Subsume(before, promotable, cands[k - 1], left).items);
      }
    }
  }

  lemma ProcessLater(p: Pass, promotable: set<Ref>, left: nat)
    requires left < |p.items|
    ensures Later(p.items, Process(p, promotable, left).items)
  {
    var c := p.items[left].lits;
    if p.items[left].active && c != [] {
      var cands := Candidates(RowsOf(p.items), c);
      var at := FirstForward(p.items, left, cands, 0);
      if at < |cands| {
        SubsumeLater(p, promotable, left, cands[at]);
      } else {
        BackwardLater(p, promotable, left, cands, |cands|);
      }
    }
  }

  lemma {:induction false} SweptLater(items: seq<Item>, promotable: set<Ref>, j: nat, k: nat)
    requires j <= k <= |items|
    ensures Later(Swept(items, promotable, j).items, Swept(items, promotable, k).items)
    decreases k
  {
    if j < k {
      SweptLater(items, promotable, j, k - 1);
      ProcessLater(Swept(items, promotable, k - 1), promotable, k - 1);
      LaterTransitive(Swept(items, promotable, j).items, Swept(items, promotable, k - 1).items,
                      Swept(items, promotable, k).items);
    }
  }

  lemma LaterRows(items: seq<Item>, after: seq<Item>)
    requires Later(items, after)
    ensures RowsOf(after) == RowsOf(items)
  {
    forall i | 0 <= i < |items| ensures RowsOf(after)[i] == RowsOf(items)[i] {
      assert LaterItem(items[i], after[i]);
    }
  }

  // ---------------------------------------------------------------------------------------------
  // Skipping pairs checked before
  // ---------------------------------------------------------------------------------------------

  /** No two clauses checked before subsume one another. */
  ghost predicate NoCheckedPair(items: seq<Item>) {
    forall i, j :: 0 <= i < |items| && 0 <= j < |items| && i != j && items[i].checked && items[j].checked ==>
      !Subsumes(items[i].lits, items[j].lits)
  }

  /** The same clauses, none of them checked before: what a full pass works on. */
  function Erased(items: seq<Item>): (e: seq<Item>)
    ensures |e| == |items| && forall i :: 0 <= i < |items| ==> e[i] == items[i].(checked := false)
  {
    seq(|items|, i requires 0 <= i < |items| => items[i].(checked := false))
  }

  function ErasedPass(p: Pass): Pass {
    Pass(Erased(p.items), p.log)
  }

  lemma ErasedRows(items: seq<Item>)
    ensures RowsOf(Erased(items)) == RowsOf(items)
  {
  }

  lemma LaterNoCheckedPair(items: seq<Item>, after: seq<Item>)
    requires NoCheckedPair(items) && Later(items, after)
    ensures NoCheckedPair(after)
  {
    forall i, j | 0 <= i < |after| && 0 <= j < |after| && i != j && after[i].checked && after[j].checked
      ensures !Subsumes(after[i].lits, after[j].lits)
    {
      assert LaterItem(items[i], after[i]) && LaterItem(items[j], after[j]);
    }
  }

  lemma ErasedTests(items: seq<Item>, left: nat, c: nat)
    requires NoCheckedPair(items) && left < |items|
    ensures ForwardTest(Erased(items), left, c) == ForwardTest(items, left, c)
    ensures BackwardTest(Erased(items), left, c) == BackwardTest(items, left, c)
  {
  }

  lemma ErasedSubsume(p: Pass, promotable: set<Ref>, subsumed: nat, keeper: nat)
    requires subsumed < |p.items| && keeper < |p.items| && subsumed != keeper
    ensures Subsume(ErasedPass(p), promotable, subsumed, keeper) == ErasedPass(Subsume(p, promotable, subsumed, keeper))
  {
    var a, b := Subsume(ErasedPass(p), promotable, subsumed, keeper),
        ErasedPass(Subsume(p, promotable, subsumed, keeper));
    assert a.items == b.items;
  }

  lemma {:induction false} ErasedForward(items: seq<Item>, left: nat, cands: seq<nat>, k: nat)
    requires NoCheckedPair(items) && left < |items| && k <= |cands|
    ensures FirstForward(Erased(items), left, cands, k) == FirstForward(items, left, cands, k)
    decreases |cands| - k
  {
    if k < |cands| {
      ErasedTests(items, left, cands[k]);
      ErasedForward(items, left, cands, k + 1);
    }
  }

  lemma ErasedOne(p: Pass, promotable: set<Ref>, left: nat, c: nat)
    requires NoCheckedPair(p.items) && left < |p.items|
    ensures BackwardOne(ErasedPass(p), promotable, left, c) == ErasedPass(BackwardOne(p, promotable, left, c))
  {
    ErasedTests(p.items, left, c);
    if BackwardTest(p.items, left, c) {
      ErasedSubsume(p, promotable, c, left);
    }
  }

  lemma {:induction false} ErasedBackward(p: Pass, promotable: set<Ref>, left: nat, cands: seq<nat>, k: nat)
    requires NoCheckedPair(p.items) && left < |p.items| && k <= |cands|
    ensures Backward(ErasedPass(p), promotable, left, cands, k) == ErasedPass(Backward(p, promotable, left, cands, k))
  {
    hide NoCheckedPair, Later, BackwardOne, ErasedPass;
    if k > 0 {
      ErasedBackward(p, promotable, left, cands, k - 1);
      BackwardKeepsPairs(p, promotable, left, cands, k - 1);
      ErasedOne(Backward(p, promotable, left, cands, k - 1), promotable, left, cands[k - 1]);
    }
  }

  lemma BackwardKeepsPairs(p: Pass, promotable: set<Ref>, left: nat, cands: seq<nat>, k: nat)
    requires NoCheckedPair(p.items) && left < |p.items| && k <= |cands|
    ensures NoCheckedPair(Backward(p, promotable, left, cands, k).items)
  {
    BackwardLater(p, promotable, left, cands, k);
    LaterNoCheckedPair(p.items, Backward(p, promotable, left, cands, k).items);
  }

  lemma ErasedProcess(p: Pass, promotable: set<Ref>, left: nat)
    requires NoCheckedPair(p.items) && left < |p.items|
    ensures Process(ErasedPass(p), promotable, left) == ErasedPass(Process(p, promotable, left))
  {
    ErasedRows(p.items);
    var c := p.items[left].lits;
    if p.items[left].active && c != [] {
      var cands := Candidates(RowsOf(p.items), c);
      ErasedForward(p.items, left, cands, 0);
      var at := FirstForward(p.items, left, cands, 0);
      if at < |cands| {
        ErasedSubsume(p, promotable, left, cands[at]);
      } else {
        ErasedBackward(p, promotable, left, cands, |cands|);
      }
    }
  }

  /** Skipping the pairs checked before changes nothing: the same clauses are deleted and promoted in the same order. */
  lemma {:induction false} IncrementalIsFull(items: seq<Item>, promotable: set<Ref>, k: nat)
    requires NoCheckedPair(items) && k <= |items|
    ensures Swept(Erased(items), promotable, k) == ErasedPass(Swept(items, promotable, k))
    ensures Swept(Erased(items), promotable, k).log == Swept(items, promotable, k).log
  {
    hide Process, Later, NoCheckedPair, Erased;
    if k > 0 {
      IncrementalIsFull(items, promotable, k - 1);
      SweptKeepsPairs(items, promotable, k - 1);
      ErasedProcess(Swept(items, promotable, k - 1), promotable, k - 1);
    }
  }

  lemma {:induction false} MarkedForward(items: seq<Item>, left: nat, cands: seq<nat>, k: nat)
    requires left < |items| && k <= |cands| && forall i :: 0 <= i < |items| ==> items[i].checked
    ensures FirstForward(items, left, cands, k) == |cands|
    decreases |cands| - k
  {
    if k < |cands| {
      MarkedForward(items, left, cands, k + 1);
    }
  }

  lemma {:induction false} MarkedBackward(p: Pass, promotable: set<Ref>, left: nat, cands: seq<nat>, k: nat)
    requires left < |p.items| && k <= |cands| && forall i :: 0 <= i < |p.items| ==> p.items[i].checked
    ensures Backward(p, promotable, left, cands, k) == p
  {
    if k > 0 {
      MarkedBackward(p, promotable, left, cands, k - 1);
    }
  }

  /** A pass over clauses all of which are marked does nothing, whether or not they subsume one another. */
  lemma {:induction false} MarkedPassIsIdle(items: seq<Item>, promotable: set<Ref>, k: nat)
    requires k <= |items| && forall i :: 0 <= i < |items| ==> items[i].checked
    ensures Swept(items, promotable, k) == Pass(items, [])
  {
    if k > 0 {
      MarkedPassIsIdle(items, promotable, k - 1);
      if items[k - 1].active && items[k - 1].lits != [] {
        var cands := Candidates(RowsOf(items), items[k - 1].lits);
        MarkedForward(items, k - 1, cands, 0);
        MarkedBackward(Pass(items, []), promotable, k - 1, cands, |cands|);
      }
    }
  }

  lemma SweptKeepsPairs(items: seq<Item>, promotable: set<Ref>, k: nat)
    requires NoCheckedPair(items) && k <= |items|
    ensures NoCheckedPair(Swept(items, promotable, k).items)
  {
    SweptLater(items, promotable, 0, k);
    LaterNoCheckedPair(items, Swept(items, promotable, k).items);
  }

  // ---------------------------------------------------------------------------------------------
  // The permanent formula survives
  // ---------------------------------------------------------------------------------------------

  /** A surviving permanent clause all of whose literals are in `c`. */
  ghost predicate Witnessed(items: seq<Item>, c: Clause) {
    exists j :: 0 <= j < |items| && items[j].active && !items[j].redundant && forall l :: l in items[j].lits ==> l in c
  }

  lemma SubsumeKeepsWitness(p: Pass, promotable: set<Ref>, subsumed: nat, keeper: nat, c: Clause)
    requires subsumed < |p.items| && keeper < |p.items| && subsumed != keeper && p.items[keeper].active
    requires Subsumes(p.items[keeper].lits, p.items[subsumed].lits) && Witnessed(p.items, c)
    ensures Witnessed(Subsume(p, promotable, subsumed, keeper).items, c)
  {
    var after := Subsume(p, promotable, subsumed, keeper).items;
    var j :| 0 <= j < |p.items| && p.items[j].active && !p.items[j].redundant
        && forall l :: l in p.items[j].lits ==> l in c;
    if j == subsumed && !after[j].active {
      assert after[keeper].active && !after[keeper].redundant;
      forall l | l in after[keeper].lits ensures l in c {
        var i :| 0 <= i < |p.items[keeper].lits| && p.items[keeper].lits[i] == l;
      }
    } else {
      assert after[j].active && !after[j].redundant && after[j].lits == p.items[j].lits;
    }
  }

  lemma {:induction false} BackwardKeepsWitness(p: Pass, promotable: set<Ref>, left: nat, cands: seq<nat>, k: nat,
                                                c: Clause)
    requires left < |p.items| && k <= |cands| && p.items[left].active && Witnessed(p.items, c)
    ensures Witnessed(Backward(p, promotable, left, cands, k).items, c)
  {
    if k > 0 {
      BackwardKeepsWitness(p, promotable, left, cands, k - 1, c);
      BackwardLater(p, promotable, left, cands, k - 1);
      var before := Backward(p, promotable, left, cands, k - 1);
      if BackwardTest(before.items, left, cands[k - 1]) {
        SubsumeKeepsWitness(before, promotable, cands[k - 1], left, c);
      }
    }
  }

  /** Every permanent clause keeps a surviving permanent clause that is part of it. */
  lemma {:induction false} PermanentSurvives(items: seq<Item>, promotable: set<Ref>, k: nat, c: Clause)
    requires k <= |items| && Witnessed(items, c)
    ensures Witnessed(Swept(items, promotable, k).items, c)
  {
    if k > 0 {
      PermanentSurvives(items, promotable, k - 1, c);
      var p := Swept(items, promotable, k - 1);
      var d := p.items[k - 1].lits;
      if p.items[k - 1].active && d != [] {
        var cands := Candidates(RowsOf(p.items), d);
        var at := FirstForward(p.items, k - 1, cands, 0);
        if at < |cands| {
          SubsumeKeepsWitness(p, promotable, k - 1, cands[at], c);
        } else {
          BackwardKeepsWitness(p, promotable, k - 1, cands, |cands|, c);
        }
      }
    }
  }

  // ---------------------------------------------------------------------------------------------
  // Nothing subsumed is left
  // ---------------------------------------------------------------------------------------------

  ghost predicate AllPromotable(items: seq<Item>, promotable: set<Ref>) {
    forall i :: 0 <= i < |items| ==> items[i].ref in promotable
  }

  ghost predicate Signed(items: seq<Item>) {
    forall i :: 0 <= i < |items| ==> items[i].signature == SignatureOf(items[i].lits)
  }

  /** After the left clause has had its turn, no other active clause holds all its literals. */
  lemma {:induction false} BackwardClears(p: Pass, promotable: set<Ref>, left: nat, cands: seq<nat>, k: nat, right: nat)
    requires left < |p.items| && k <= |cands| && right < |p.items| && right != left && right in cands[..k]
    requires AllPromotable(p.items, promotable) && Signed(p.items) && NoCheckedPair(p.items) && p.items[left].active
    requires Subsumes(p.items[left].lits, p.items[right].lits)
    ensures !Backward(p, promotable, left, cands, k).items[right].active
  {
    var before := Backward(p, promotable, left, cands, k - 1);
    BackwardLater(p, promotable, left, cands, k - 1);
    assert LaterItem(p.items[right], before.items[right]) && LaterItem(p.items[left], before.items[left]);
    assert cands[..k] == cands[..k - 1] + [cands[k - 1]];
    if right in cands[..k - 1] {
      BackwardClears(p, promotable, left, cands, k - 1, right);
      var q := Backward(p, promotable, left, cands, k);
      if BackwardTest(before.items, left, cands[k - 1]) {
        SubsumeLater(before, promotable, cands[k - 1], left);
        assert LaterItem(before.items[right], q.items[right]);
      }
    } else {
      SignatureNeverHides(p.items[left].lits, p.items[right].lits);
      assert before.items[right].active ==> BackwardTest(before.items, left, right);
    }
  }

  lemma ProcessClears(p: Pass, promotable: set<Ref>, left: nat, right: nat)
    requires left < |p.items| && right < |p.items| && right != left
    requires AllPromotable(p.items, promotable) && Signed(p.items) && NoCheckedPair(p.items)
    requires Subsumes(p.items[left].lits, p.items[right].lits)
    ensures !Process(p, promotable, left).items[right].active || !Process(p, promotable, left).items[left].active
  {
    var c := p.items[left].lits;
    if p.items[left].active {
      var cands := Candidates(RowsOf(p.items), c);
      var at := FirstForward(p.items, left, cands, 0);
      if at == |cands| {
        RarestNeverHides(p.items, left, right);
        assert cands[..|cands|] == cands;
        BackwardClears(p, promotable, left, cands, |cands|, right);
      }
    }
  }

  lemma LaterSigned(items: seq<Item>, after: seq<Item>, promotable: set<Ref>)
    requires Later(items, after) && Signed(items) && AllPromotable(items, promotable)
    ensures Signed(after) && AllPromotable(after, promotable)
  {
    forall i | 0 <= i < |after| ensures after[i].signature == SignatureOf(after[i].lits) && after[i].ref in promotable {
      assert LaterItem(items[i], after[i]);
    }
  }

  /** When promotion never fails, no surviving clause contains another. */
  lemma NothingSubsumedIsLeft(items: seq<Item>, promotable: set<Ref>, left: nat, right: nat)
    requires AllPromotable(items, promotable) && Signed(items) && NoCheckedPair(items)
    requires left < |items| && right < |items| && left != right && Subsumes(items[left].lits, items[right].lits)
    ensures var after := Swept(items, promotable, |items|).items; !after[left].active || !after[right].active
  {
    var p := Swept(items, promotable, left);
    SweptLater(items, promotable, 0, left);
    LaterSigned(items, p.items, promotable);
    LaterNoCheckedPair(items, p.items);
    assert LaterItem(items[left], p.items[left]) && LaterItem(items[right], p.items[right]);
    ProcessClears(p, promotable, left, right);
    var q := Swept(items, promotable, left + 1);
    SweptLater(items, promotable, left + 1, |items|);
    var after := Swept(items, promotable, |items|).items;
    assert LaterItem(q.items[left], after[left]) && LaterItem(q.items[right], after[right]);
  }

  lemma SameSubsumption(left: Clause, left': Clause, right: Clause, right': Clause)
    requires multiset(left) == multiset(left') && multiset(right) == multiset(right') && Subsumes(left, right)
    ensures Subsumes(left', right')
  {
    assert |multiset(left)| == |left| && |multiset(left')| == |left'| && |multiset(right)| == |right|
           && |multiset(right')| == |right'|;
    forall i | 0 <= i < |left'| ensures left'[i] in right' {
      assert left'[i] in multiset(left');
      assert left'[i] in left;
      assert left'[i] in right;
      assert left'[i] in multiset(right);
    }
  }

  // ---------------------------------------------------------------------------------------------
  // The store behind a pass
  // ---------------------------------------------------------------------------------------------

  /** The clauses of the store, each once, as a pass begins. */
  ghost predicate Collected(items: seq<Item>, db: Database, checked: set<Ref>) {
    && (forall i :: 0 <= i < |items| ==>
          items[i].ref in db
          && items[i] == Item(items[i].ref, db[items[i].ref].lits, SignatureOf(db[items[i].ref].lits), true,
                              db[items[i].ref].redundant, items[i].ref in checked))
    && (forall i, j :: 0 <= i < j < |items| ==> items[i].ref != items[j].ref)
    && (forall r :: r in db ==> exists i :: 0 <= i < |items| && items[i].ref == r)
  }

  /** The store says what the pass says: deleted clauses are garbage, promoted ones permanent. */
  ghost predicate Stored(items: seq<Item>, db: Database, garbage: set<Ref>) {
    && (forall i :: 0 <= i < |items| ==>
          && items[i].ref in db && db[items[i].ref] == Entry(items[i].lits, items[i].redundant)
          && (items[i].active <==> items[i].ref !in garbage))
    && (forall i, j :: 0 <= i < j < |items| ==> items[i].ref != items[j].ref)
    && (forall r :: r in db ==> exists i :: 0 <= i < |items| && items[i].ref == r)
  }

  lemma CollectedIsStored(items: seq<Item>, db: Database, checked: set<Ref>)
    requires Collected(items, db, checked)
    ensures Stored(items, db, {}) && Signed(items)
  {
  }

  lemma PromotedStored(items: seq<Item>, db: Database, garbage: set<Ref>, i: nat)
    requires Stored(items, db, garbage) && i < |items|
    ensures Stored(items[i := items[i].(redundant := false)], db[items[i].ref := Entry(items[i].lits, false)], garbage)
  {
    var after := items[i := items[i].(redundant := false)];
    forall r | r in db ensures exists j :: 0 <= j < |after| && after[j].ref == r {
      var j :| 0 <= j < |items| && items[j].ref == r;
      assert after[j].ref == r;
    }
  }

  lemma DeletedStored(items: seq<Item>, db: Database, garbage: set<Ref>, i: nat)
    requires Stored(items, db, garbage) && i < |items|
    ensures Stored(items[i := items[i].(active := false)], db, garbage + {items[i].ref})
  {
    var after := items[i := items[i].(active := false)];
    forall r | r in db ensures exists j :: 0 <= j < |after| && after[j].ref == r {
      var j :| 0 <= j < |items| && items[j].ref == r;
      assert after[j].ref == r;
    }
  }

  /** What is left once the garbage has been flushed: a clause that is a reason stays, garbage or not. */
  function Flushed(db: Database, garbage: set<Ref>, reasons: set<Ref>): Database {
    map r | r in db && (r !in garbage || r in reasons) :: db[r]
  }

  /** The clauses a log reports deleted. */
  function DeletedIn(log: seq<Event>): set<Ref> {
    set e | e in log && e.Deleted? :: e.ref
  }

  /** The clauses still active after a pass are those its log does not report deleted. */
  ghost predicate LogTells(p: Pass) {
    forall i :: 0 <= i < |p.items| ==> (p.items[i].active <==> p.items[i].ref !in DeletedIn(p.log))
  }

  lemma StoredTells(p: Pass, store: Database)
    requires Stored(p.items, store, DeletedIn(p.log))
    ensures LogTells(p)
  {
  }

  /** The same in the order they were deleted. */
  function Deletions(log: seq<Event>): seq<Ref> {
    if log == [] then []
    else
      Deletions(log[..|log| - 1]) + match log[|log| - 1] case Deleted(r) => [r] case Promoted(_) => []
  }

  lemma DeletionsMore(log: seq<Event>, e: Event)
    ensures Deletions(log + [e]) == if e.Deleted? then Deletions(log) + [e.ref] else Deletions(log)
  {
    assert (log + [e])[..|log|] == log;
  }

  lemma {:induction false} DeletionsAreIn(log: seq<Event>)
    ensures forall r :: r in Deletions(log) <==> r in DeletedIn(log)
  {
    if log != [] {
      DeletionsAreIn(log[..|log| - 1]);
      DeletedMore(log[..|log| - 1], log[|log| - 1]);
      assert log == log[..|log| - 1] + [log[|log| - 1]];
    }
  }

  lemma DeletedMore(log: seq<Event>, e: Event)
    ensures DeletedIn(log + [e]) == DeletedIn(log) + if e.Deleted? then {e.ref} else {}
  {
    assert forall x :: x in log + [e] <==> x in log || x == e;
  }

  // ---------------------------------------------------------------------------------------------
  // From one pass to the next
  // ---------------------------------------------------------------------------------------------

  /** No two clauses that carry the mark subsume one another. */
  ghost predicate CheckedClean(db: Database, checked: set<Ref>) {
    forall r, s :: r in db && s in db && r != s && r in checked && s in checked ==> !Subsumes(db[r].lits, db[s].lits)
  }

  /** Between two passes a clause that carries the mark keeps its literals, at most in another order. */
  ghost predicate Evolved(db: Database, later: Database, checked: set<Ref>) {
    forall r :: r in later && r in checked ==> r in db && multiset(later[r].lits) == multiset(db[r].lits)
  }

  lemma CleanMeansNoPair(items: seq<Item>, db: Database, checked: set<Ref>)
    requires Collected(items, db, checked) && CheckedClean(db, checked)
    ensures NoCheckedPair(items)
  {
    forall i, j | 0 <= i < |items| && 0 <= j < |items| && i != j && items[i].checked && items[j].checked
      ensures !Subsumes(items[i].lits, items[j].lits)
    {
      assert items[i].ref != items[j].ref;
    }
  }

  /** Every clause deleted so far is subsumed by one that is not. */
  ghost predicate Replaced(items: seq<Item>) {
    forall i :: 0 <= i < |items| && !items[i].active ==> ReplacedAt(items, i)
  }

  ghost predicate ReplacedAt(items: seq<Item>, i: nat)
    requires i < |items|
  {
    exists j :: 0 <= j < |items| && j != i && items[j].active && Subsumes(items[j].lits, items[i].lits)
  }

  lemma SubsumesTransitive(a: Clause, b: Clause, c: Clause)
    requires Subsumes(a, b) && Subsumes(b, c)
    ensures Subsumes(a, c)
  {
    forall i | 0 <= i < |a| ensures a[i] in c {
      var j :| 0 <= j < |b| && b[j] == a[i];
    }
  }

  lemma SubsumeKeepsReplaced(p: Pass, promotable: set<Ref>, subsumed: nat, keeper: nat)
    requires subsumed < |p.items| && keeper < |p.items| && subsumed != keeper && p.items[keeper].active
    requires Subsumes(p.items[keeper].lits, p.items[subsumed].lits) && Replaced(p.items)
    ensures Replaced(Subsume(p, promotable, subsumed, keeper).items)
  {
    var after := Subsume(p, promotable, subsumed, keeper).items;
    forall i | 0 <= i < |after| && !after[i].active ensures ReplacedAt(after, i) {
      if i == subsumed {
        assert after[keeper].active && after[keeper].lits == p.items[keeper].lits && after[i].lits == p.items[i].lits;
      } else {
        assert ReplacedAt(p.items, i);
        var j :| 0 <= j < |p.items| && j != i && p.items[j].active && Subsumes(p.items[j].lits, p.items[i].lits);
        if j == subsumed {
          SubsumesTransitive(p.items[keeper].lits, p.items[j].lits, p.items[i].lits);
          assert after[keeper].active && after[keeper].lits == p.items[keeper].lits;
        } else {
          assert after[j].active == p.items[j].active && after[j].lits == p.items[j].lits;
        }
      }
    }
  }

  lemma {:induction false} BackwardKeepsReplaced(p: Pass, promotable: set<Ref>, left: nat, cands: seq<nat>, k: nat)
    requires left < |p.items| && k <= |cands| && p.items[left].active && Replaced(p.items)
    ensures Replaced(Backward(p, promotable, left, cands, k).items)
  {
    if k > 0 {
      BackwardKeepsReplaced(p, promotable, left, cands, k - 1);
      BackwardLater(p, promotable, left, cands, k - 1);
      var before := Backward(p, promotable, left, cands, k - 1);
      if BackwardTest(before.items, left, cands[k - 1]) {
        SubsumeKeepsReplaced(before, promotable, cands[k - 1], left);
      }
    }
  }

  /** A pass deletes a clause only when another one that stays subsumes it. */
  lemma {:induction false} DeletedAreReplaced(items: seq<Item>, promotable: set<Ref>, k: nat)
    requires k <= |items| && forall i :: 0 <= i < |items| ==> items[i].active
    ensures Replaced(Swept(items, promotable, k).items)
  {
    hide Replaced, Subsumes;
    if k == 0 {
      AllActiveReplaced(items);
    } else {
      DeletedAreReplaced(items, promotable, k - 1);
      ProcessKeepsReplaced(Swept(items, promotable, k - 1), promotable, k - 1);
    }
  }

  lemma AllActiveReplaced(items: seq<Item>)
    requires forall i :: 0 <= i < |items| ==> items[i].active
    ensures Replaced(items)
  {
  }

  lemma ProcessKeepsReplaced(p: Pass, promotable: set<Ref>, left: nat)
    requires left < |p.items| && Replaced(p.items)
    ensures Replaced(Process(p, promotable, left).items)
  {
    hide Replaced;
    var d := p.items[left].lits;
    if p.items[left].active && d != [] {
      var cands := Candidates(RowsOf(p.items), d);
      var at := FirstForward(p.items, left, cands, 0);
      if at < |cands| {
        SubsumeKeepsReplaced(p, promotable, left, cands[at]);
      } else {
        BackwardKeepsReplaced(p, promotable, left, cands, |cands|);
      }
    }
  }

  /** The clauses a pass leaves standing. */
  function Standing(items: seq<Item>): set<Ref> {
    set i | 0 <= i < |items| && items[i].active :: items[i].ref
  }

  lemma StandingMore(items: seq<Item>, k: nat)
    requires k < |items|
    ensures Standing(items[..k + 1]) == Standing(items[..k]) + if items[k].active then {items[k].ref} else {}
  {
    var before, after := items[..k], items[..k + 1];
    forall r | r in Standing(after) ensures r in Standing(before) || (items[k].active && r == items[k].ref) {
      var i :| 0 <= i < |after| && after[i].active && after[i].ref == r;
      if i < k {
        assert before[i] == after[i];
      }
    }
    forall r | r in Standing(before) ensures r in Standing(after) {
      var i :| 0 <= i < |before| && before[i].active && before[i].ref == r;
      assert after[i] == before[i];
    }
    assert after[k] == items[k];
  }

  /** Of the clauses a pass leaves standing none subsumes another, when no promotion can fail. */
  lemma StandingIsClean(items: seq<Item>, promotable: set<Ref>, store: Database, deleted: set<Ref>, r: Ref, s: Ref)
    requires AllPromotable(items, promotable) && Signed(items) && NoCheckedPair(items)
    requires Stored(Swept(items, promotable, |items|).items, store, deleted)
    requires r in store && s in store && r != s && r !in deleted && s !in deleted
    ensures !Subsumes(store[r].lits, store[s].lits)
  {
    var after := Swept(items, promotable, |items|).items;
    SweptLater(items, promotable, 0, |items|);
    var i :| 0 <= i < |after| && after[i].ref == r;
    var j :| 0 <= j < |after| && after[j].ref == s;
    assert LaterItem(items[i], after[i]) && LaterItem(items[j], after[j]);
    if Subsumes(items[i].lits, items[j].lits) {
      NothingSubsumedIsLeft(items, promotable, i, j);
    }
  }

  /** A reason that was deleted and stays is subsumed by a clause that stands. */
  lemma DeletedIsSubsumed(items: seq<Item>, promotable: set<Ref>, store: Database, deleted: set<Ref>, s: Ref)
      returns (r: Ref)
    requires forall i :: 0 <= i < |items| ==> items[i].active
    requires Stored(Swept(items, promotable, |items|).items, store, deleted) && s in store && s in deleted
    ensures r in store && r !in deleted && r in Standing(Swept(items, promotable, |items|).items)
    ensures Subsumes(store[r].lits, store[s].lits)
  {
    var after := Swept(items, promotable, |items|).items;
    DeletedAreReplaced(items, promotable, |items|);
    var i :| 0 <= i < |after| && after[i].ref == s;
    assert ReplacedAt(after, i);
    var j :| 0 <= j < |after| && j != i && after[j].active && Subsumes(after[j].lits, after[i].lits);
    r := after[j].ref;
  }

  /** After a pass in which no promotion can fail, with the marks it sets: no two marked clauses subsume one another if
      and only if no clause that was marked before and is a reason was deleted. */
  lemma CleanAfter(items: seq<Item>, promotable: set<Ref>, store: Database, deleted: set<Ref>, reasons: set<Ref>,
                   marked: set<Ref>)
    requires AllPromotable(items, promotable) && Signed(items) && NoCheckedPair(items)
    requires forall i :: 0 <= i < |items| ==> items[i].active
    requires Stored(Swept(items, promotable, |items|).items, store, deleted)
    ensures var later := Flushed(store, deleted, reasons);
            var marks := marked + Standing(Swept(items, promotable, |items|).items);
            CheckedClean(later, marks) <==> forall r :: r in deleted && r in later ==> r !in marked
  {
    hide Subsumes, Swept, NoCheckedPair, Signed, AllPromotable, Later;
    var after := Swept(items, promotable, |items|).items;
    var later := Flushed(store, deleted, reasons);
    var marks := marked + Standing(after);
    if forall r :: r in deleted && r in later ==> r !in marked {
      forall r, s | r in later && s in later && r != s && r in marks && s in marks
          ensures !Subsumes(later[r].lits, later[s].lits) {
        StandingIsLive(after, store, deleted, r);
        StandingIsLive(after, store, deleted, s);
        StandingIsClean(items, promotable, store, deleted, r, s);
      }
    }
    if CheckedClean(later, marks) {
      forall s | s in deleted && s in later ensures s !in marked {
        var r := DeletedIsSubsumed(items, promotable, store, deleted, s);
        assert r in later && s in later && r in marks && r != s;
      }
    }
  }

  lemma StandingIsLive(after: seq<Item>, store: Database, deleted: set<Ref>, r: Ref)
    requires Stored(after, store, deleted) && r in Standing(after)
    ensures r !in deleted
  {
  }

  /** What happens to the store between two passes makes no new pair of marked clauses. */
  lemma CleanStays(db: Database, later: Database, checked: set<Ref>)
    requires CheckedClean(db, checked) && Evolved(db, later, checked)
    ensures CheckedClean(later, checked)
  {
    forall r, s | r in later && s in later && r != s && r in checked && s in checked
        ensures !Subsumes(later[r].lits, later[s].lits) {
      if Subsumes(later[r].lits, later[s].lits) {
        SameSubsumption(later[r].lits, db[r].lits, later[s].lits, db[s].lits);
      }
    }
  }

  /** A pass adds no clause, changes no literal and takes away no reason. */
  lemma PassOnlyDeletes(items: seq<Item>, promotable: set<Ref>, db: Database, checked: set<Ref>, db': Database,
                        garbage: set<Ref>, reasons: set<Ref>)
    requires Collected(items, db, checked) && Stored(Swept(items, promotable, |items|).items, db', garbage)
    ensures var later := Flushed(db', garbage, reasons);
            && (forall r :: r in later ==> r in db && later[r].lits == db[r].lits)
            && (forall r :: r in later <==> r in db && (r !in garbage || r in reasons))
  {
    var after := Swept(items, promotable, |items|).items;
    SweptLater(items, promotable, 0, |items|);
    var later := Flushed(db', garbage, reasons);
    forall r | r in later ensures r in db && later[r].lits == db[r].lits {
      var i :| 0 <= i < |after| && after[i].ref == r;
      assert LaterItem(items[i], after[i]);
    }
    forall r | r in db && (r !in garbage || r in reasons) ensures r in later {
      var i :| 0 <= i < |items| && items[i].ref == r;
      assert LaterItem(items[i], after[i]);
    }
  }

  /** A pass leaves clauses equivalent to those it found. */
  lemma PassKeepsFormula(f: Formula, items: seq<Item>, promotable: set<Ref>, db: Database, checked: set<Ref>,
                         db': Database, garbage: set<Ref>, reasons: set<Ref>)
    requires Collected(items, db, checked) && Represents(f, db)
    requires Stored(Swept(items, promotable, |items|).items, db', garbage)
    ensures Represents(f, Flushed(db', garbage, reasons))
  {
    var after := Swept(items, promotable, |items|).items;
    SweptLater(items, promotable, 0, |items|);
    var left := Flushed(db', garbage, reasons);
    forall r | r in left ensures Entails(f, left[r].lits) {
      var i :| 0 <= i < |after| && after[i].ref == r;
      assert LaterItem(items[i], after[i]);
      assert left[r].lits == db[items[i].ref].lits;
    }
    forall a: Assignment | SatisfiesPermanent(a, left) ensures SatisfiesPermanent(a, db) {
      forall r | r in db && !db[r].redundant ensures Satisfies(a, db[r].lits) {
        var i :| 0 <= i < |items| && items[i].ref == r;
        assert Witnessed(items, items[i].lits);
        PermanentSurvives(items, promotable, |items|, items[i].lits);
        WitnessSatisfies(a, after, db', garbage, reasons, items[i].lits);
      }
    }
  }

  lemma WitnessSatisfies(a: Assignment, after: seq<Item>, db': Database, garbage: set<Ref>, reasons: set<Ref>,
                         c: Clause)
    requires Stored(after, db', garbage) && Witnessed(after, c) && SatisfiesPermanent(a, Flushed(db', garbage, reasons))
    ensures Satisfies(a, c)
  {
    var j :| 0 <= j < |after| && after[j].active && !after[j].redundant && forall l :: l in after[j].lits ==> l in c;
    var q := after[j].ref;
    assert q in Flushed(db', garbage, reasons) && !Flushed(db', garbage, reasons)[q].redundant;
    var l :| l in after[j].lits && Holds(a, l);
  }

  // ---------------------------------------------------------------------------------------------
  // Self-subsuming resolution
  // ---------------------------------------------------------------------------------------------

  /** The candidate holds the pivot, and its other literals are in the target. */
  predicate ResolvesToStrengthen(candidate: Clause, pivot: Lit, target: Clause) {
    pivot in candidate && forall i :: 0 <= i < |candidate| ==> candidate[i] == pivot || candidate[i] in target
  }

  /** Dropping the negated pivot from the target loses no model of the two clauses. */
  lemma StrengtheningIsSound(a: Assignment, candidate: Clause, pivot: Lit, target: Clause, shorter: Clause)
    requires ResolvesToStrengthen(candidate, pivot, target) && Satisfies(a, candidate) && Satisfies(a, target)
    requires forall l :: l in target && l != Neg(pivot) ==> l in shorter
    requires Neg(pivot) !in candidate
    ensures Satisfies(a, shorter)
  {
    var l :| l in target && Holds(a, l);
    if l == Neg(pivot) {
      var m :| m in candidate && Holds(a, m);
      HoldsNeg(a, pivot);
      var i :| 0 <= i < |candidate| && candidate[i] == m;
      assert m in target && m in shorter;
    }
  }
}
