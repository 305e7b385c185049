/** The branching heap: variable indices ordered by activity, ties to the lower index. */
module VarHeaps {

  const NPOS: int := -1

  /** Activities are mathematical reals here; the bound and factor are the program's. */
  const RESCALE_LIMIT: real := 1e150

  /** How much older conflicts count for less. */
  const DECAY_FACTOR: real := 0.95

  function Parent(i: nat): nat
    requires i > 0
  {
    (i - 1) / 2
  }

  /** Strictly lower rank: lower activity, or equal activity and a higher index. */
  predicate RanksBelow(score: seq<real>, left: nat, right: nat)
    requires left < |score| && right < |score|
  {
    score[left] < score[right] || (score[left] == score[right] && left > right)
  }

  /** The position table is the exact inverse of the heap array. */
  ghost predicate Tables(slots: nat, heap: seq<nat>, position: seq<int>) {
    && |position| == slots
    && (forall i :: 0 <= i < |heap| ==> heap[i] < slots && position[heap[i]] == i)
    && (forall v :: 0 <= v < slots ==> position[v] == NPOS || (0 <= position[v] < |heap| && heap[position[v]] == v))
  }

  /** The variables a position table places in the heap. */
  ghost function Support(position: seq<int>): set<nat> {
    set v: nat | v < |position| && position[v] != NPOS
  }

  lemma SupportUpdate(position: seq<int>, v: nat, at: int)
    requires v < |position|
    ensures Support(position[v := at]) == if at == NPOS then Support(position) - {v} else Support(position) + {v}
    ensures v in Support(position) <==> position[v] != NPOS
  {
  }

  ghost predicate InRange(slots: nat, heap: seq<nat>) {
    forall i :: 0 <= i < |heap| ==> heap[i] < slots
  }

  /** No entry outranks its parent, the entry at `hole` excepted. */
  ghost predicate OrderedAbove(score: seq<real>, heap: seq<nat>, hole: int)
    requires InRange(|score|, heap)
  {
    forall i :: 0 < i < |heap| && i != hole ==> !RanksBelow(score, heap[Parent(i)], heap[i])
  }

  /** No entry outranks its parent, the children of `hole` excepted. */
  ghost predicate OrderedBelow(score: seq<real>, heap: seq<nat>, hole: int)
    requires InRange(|score|, heap)
  {
    forall i :: 0 < i < |heap| && Parent(i) != hole ==> !RanksBelow(score, heap[Parent(i)], heap[i])
  }

  /** The children of `hole` do not outrank its parent. */
  ghost predicate Bridged(score: seq<real>, heap: seq<nat>, hole: nat)
    requires InRange(|score|, heap)
  {
    0 < hole < |heap| ==>
      forall i :: 0 < i < |heap| && Parent(i) == hole ==> !RanksBelow(score, heap[Parent(hole)], heap[i])
  }

  ghost predicate Ordered(score: seq<real>, heap: seq<nat>)
    requires InRange(|score|, heap)
  {
    OrderedAbove(score, heap, -1)
  }

  /** The first entry of an ordered heap outranks every other one. */
  lemma {:induction false} FirstIsHighest(score: seq<real>, heap: seq<nat>, i: nat)
    requires InRange(|score|, heap) && Ordered(score, heap)
    requires i < |heap|
    ensures !RanksBelow(score, heap[0], heap[i])
  {
    if i > 0 {
      FirstIsHighest(score, heap, Parent(i));
      assert !RanksBelow(score, heap[Parent(i)], heap[i]);
    }
  }

  ghost predicate Scaled(score: seq<real>, k: real, scaled: seq<real>) {
    && |scaled| == |score|
    && forall v :: 0 <= v < |score| ==> scaled[v] == k * score[v]
  }

  /** Multiplying every activity by one positive factor changes no comparison. */
  lemma ScalingKeepsRank(score: seq<real>, k: real, scaled: seq<real>, left: nat, right: nat)
    requires k > 0.0 && Scaled(score, k, scaled)
    requires left < |score| && right < |score|
    ensures RanksBelow(scaled, left, right) <==> RanksBelow(score, left, right)
  {
    assert scaled[left] == k * score[left] && scaled[right] == k * score[right];
    if score[left] < score[right] {
      assert k * (score[right] - score[left]) > 0.0;
    } else if score[left] > score[right] {
      assert k * (score[left] - score[right]) > 0.0;
    }
  }

  lemma ScalingKeepsOrder(score: seq<real>, k: real, scaled: seq<real>, heap: seq<nat>, hole: int)
    requires k > 0.0 && Scaled(score, k, scaled) && InRange(|score|, heap)
    ensures OrderedAbove(scaled, heap, hole) <==> OrderedAbove(score, heap, hole)
    ensures forall p: nat :: Bridged(scaled, heap, p) <==> Bridged(score, heap, p)
  {
    forall left: nat, right: nat | left < |score| && right < |score|
      ensures RanksBelow(scaled, left, right) <==> RanksBelow(score, left, right)
    {
      ScalingKeepsRank(score, k, scaled, left, right);
    }
  }

  lemma RatioOf(k: real, x: real)
    requires x > 0.0
    ensures (k * x) / x == k
  {
  }

  /** The activities of all variables and the increment of the next bump. */
  datatype Activities = Activities(score: seq<real>, increment: real)

  function ScaledBy(k: real, a: Activities): Activities {
    Activities(seq(|a.score|, v requires 0 <= v < |a.score| => k * a.score[v]), k * a.increment)
  }

  /** One activity raised by the increment; an overflow scales everything. */
  function Bumped(a: Activities, v: nat): Activities {
    if v >= |a.score| then a else
    var raised := a.(score := a.score[v := a.score[v] + a.increment]);
    if raised.score[v] > RESCALE_LIMIT then ScaledBy(1.0 / RESCALE_LIMIT, raised) else raised
  }

  function BumpedAll(a: Activities, vars: seq<nat>): Activities {
    if vars == [] then a else Bumped(BumpedAll(a, vars[..|vars| - 1]), vars[|vars| - 1])
  }

  /** What one conflict does to the activities: some are bumped, all age, and now and then everything is halved. */
  ghost predicate Aged(a: Activities, vars: seq<nat>, b: Activities) {
    var aged := Decayed(BumpedAll(a, vars), DECAY_FACTOR);
    b == aged || b == ScaledBy(0.5, aged)
  }

  /** The increment grown; an overflow scales everything. */
  function Decayed(a: Activities, factor: real): Activities
    requires factor > 0.0
  {
    var grown := a.(increment := a.increment / factor);
    if grown.increment > RESCALE_LIMIT then ScaledBy(1.0 / RESCALE_LIMIT, grown) else grown
  }

  /** An activity in units of the increment, which no scaling changes. */
  ghost function Weight(a: Activities, v: nat): real
    requires v < |a.score| && a.increment > 0.0
  {
    a.score[v] / a.increment
  }

  lemma ScaledWeight(k: real, a: Activities, v: nat)
    requires v < |a.score| && a.increment > 0.0 && k > 0.0
    ensures ScaledBy(k, a).increment > 0.0 && Weight(ScaledBy(k, a), v) == Weight(a, v)
  {
    Ratio(k, a.score[v], a.increment);
  }

  lemma Ratio(k: real, x: real, y: real)
    requires y > 0.0 && k > 0.0
    ensures k * y > 0.0 && (k * x) / (k * y) == x / y
  {
    var r := x / y;
    assert k * x == r * (k * y);
  }

  lemma OneMoreUnit(x: real, y: real)
    requires y > 0.0
    ensures (x + y) / y == x / y + 1.0
  {
    var r := x / y;
    assert (r + 1.0) * y == r * y + y == x + y;
    Quotient(x + y, y, r + 1.0);
  }

  lemma Quotient(z: real, y: real, q: real)
    requires y > 0.0 && z == q * y
    ensures z / y == q
  {
    RatioOf(q, y);
  }

  /** A bump raises one weight by one and leaves every other as it is. */
  lemma BumpedWeight(a: Activities, v: nat, u: nat)
    requires v < |a.score| && u < |a.score| && a.increment > 0.0
    ensures Bumped(a, v).increment > 0.0 && |Bumped(a, v).score| == |a.score|
    ensures Weight(Bumped(a, v), u) == Weight(a, u) + if u == v then 1.0 else 0.0
  {
    var raised := a.(score := a.score[v := a.score[v] + a.increment]);
    OneMoreUnit(a.score[v], a.increment);
    ScaledWeight(1.0 / RESCALE_LIMIT, raised, u);
  }

  /** Bumping a list of variables raises exactly their weights, each by one. */
  lemma {:induction false} BumpedAllWeights(a: Activities, vars: seq<nat>, u: nat)
    requires a.increment > 0.0 && u < |a.score| && forall i :: 0 <= i < |vars| ==> vars[i] < |a.score|
    requires forall i, j :: 0 <= i < j < |vars| ==> vars[i] != vars[j]
    ensures BumpedAll(a, vars).increment > 0.0 && |BumpedAll(a, vars).score| == |a.score|
    ensures Weight(BumpedAll(a, vars), u) == Weight(a, u) + if u in vars then 1.0 else 0.0
  {
    if vars != [] {
      var rest, last := vars[..|vars| - 1], vars[|vars| - 1];
      BumpedAllWeights(a, rest, u);
      BumpedWeight(BumpedAll(a, rest), last, u);
      assert vars == rest + [last];
    }
  }

  /** Aging multiplies every weight by the factor. */
  lemma DecayedWeight(a: Activities, factor: real, u: nat)
    requires u < |a.score| && a.increment > 0.0 && factor > 0.0
    ensures Decayed(a, factor).increment > 0.0 && |Decayed(a, factor).score| == |a.score|
    ensures Weight(Decayed(a, factor), u) == factor * Weight(a, u)
  {
    var grown := a.(increment := a.increment / factor);
    assert Weight(grown, u) == factor * Weight(a, u) by {
      var w := Weight(a, u);
      assert a.score[u] == w * a.increment == (factor * w) * (a.increment / factor);
    }
    ScaledWeight(1.0 / RESCALE_LIMIT, grown, u);
  }

  /** A conflict's bumps and the aging after them. */
  lemma AgedWeights(a: Activities, vars: seq<nat>, factor: real, u: nat)
    requires a.increment > 0.0 && u < |a.score| && factor > 0.0 && forall i :: 0 <= i < |vars| ==> vars[i] < |a.score|
    requires forall i, j :: 0 <= i < j < |vars| ==> vars[i] != vars[j]
    ensures var b := Decayed(BumpedAll(a, vars), factor);
            && b.increment > 0.0 && |b.score| == |a.score|
            && Weight(b, u) == factor * (Weight(a, u) + if u in vars then 1.0 else 0.0)
  {
    BumpedAllWeights(a, vars, u);
    DecayedWeight(BumpedAll(a, vars), factor, u);
  }

  lemma TopIsHighest(score: seq<real>, heap: seq<nat>, position: seq<int>)
    requires Tables(|score|, heap, position) && Ordered(score, heap) && heap != []
    ensures heap[0] < |score| && heap[0] in Support(position)
    ensures forall u :: u in Support(position) ==> u < |score| && !RanksBelow(score, heap[0], u)
  {
    forall u | u in Support(position) ensures u < |score| && !RanksBelow(score, heap[0], u) {
      FirstIsHighest(score, heap, position[u]);
    }
  }

  class VarHeap {
    var score: seq<real>
    var heap: seq<nat>
    var position: seq<int>
    var increment: real
    var rescaleCount: nat

    ghost predicate Valid()
      reads this
    {
      && Tables(|score|, heap, position)
      && Ordered(score, heap)
      && increment > 0.0
    }

    constructor ()
      ensures Valid() && heap == [] && score == []
    {
      score, heap, position := [], [], [];
      increment, rescaleCount := 1.0, 0;
    }

    predicate Contains(v: nat)
      reads this
      ensures Contains(v) <==> v in Candidates()
    {
      v < |position| && position[v] != NPOS
    }

    /** The variables that may be branched on. */
    ghost function Candidates(): set<nat>
      reads this
    {
      Support(position)
    }

    /** The candidate no other candidate outranks. */
    function Top(): (v: nat)
      requires Valid() && heap != []
      reads this
      ensures v in Candidates() && v < |score|
      ensures forall u :: u in Candidates() ==> u < |score| && !RanksBelow(score, v, u)
    {
      TopIsHighest(score, heap, position);
      heap[0]
    }

    /** Grows the tables; new variables start outside the heap with activity zero. */
    method Resize(bound: nat)
      requires Valid()
      modifies this`score, this`position
      ensures Valid()
      ensures |score| == if old(|score|) < bound + 1 then bound + 1 else old(|score|)
      ensures forall v :: 0 <= v < |score| ==> score[v] == if v < old(|score|) then old(score)[v] else 0.0
      ensures Candidates() == old(Candidates())
    {
      var slots := bound + 1;
      if |score| < slots {
        var extra := slots - |score|;
        score := score + seq(extra, _ => 0.0);
        position := position + seq(extra, _ => NPOS);
      }
    }

    method Clear()
      requires Valid()
      modifies this`heap, this`position
      ensures Valid() && heap == []
      ensures |position| == old(|position|)
      ensures Candidates() == {}
    {
      var i := 0;
      while i < |heap|
        invariant 0 <= i <= |heap| && heap == old(heap) && |position| == old(|position|)
        invariant forall k :: i <= k < |heap| ==> position[heap[k]] == k
        invariant forall v :: 0 <= v < |position| ==>
                    position[v] == NPOS || (i <= position[v] < |heap| && heap[position[v]] == v)
      {
        position := position[heap[i] := NPOS];
        i := i + 1;
      }
      heap := [];
    }

    /** Writes one entry into both tables. */
    method Place(at: nat, v: nat)
      requires at < |heap| && v < |position|
      modifies this`heap, this`position
      ensures heap == old(heap)[at := v]
      ensures position == old(position)[v := at]
      ensures Support(position) == old(Support(position)) + {v}
      ensures v in old(Support(position)) <==> old(position)[v] != NPOS
    {
      SupportUpdate(position, v, at);
      heap := heap[at := v];
      position := position[v := at];
    }

    method SiftUp(start: nat)
      requires start < |heap|
      requires Tables(|score|, heap, position) && OrderedAbove(score, heap, start) && Bridged(score, heap, start)
      modifies this`heap, this`position
      ensures Tables(|score|, heap, position) && Ordered(score, heap)
      ensures |heap| == old(|heap|)
      ensures Candidates() == old(Candidates())
    {
      hide OrderedAbove, Bridged, Tables;
      var p := start;
      TableEntry(|score|, heap, position, p);
      var index := heap[p];
      assert heap[p := index] == heap && position[index := p] == position;
      while p != 0
        invariant p < |heap| == old(|heap|) && index < |score| == |position|
        invariant InRange(|score|, heap[p := index]) && Tables(|score|, heap[p := index], position[index := p])
        invariant OrderedAbove(score, heap[p := index], p) && Bridged(score, heap[p := index], p)
        invariant Support(position) == old(Support(position))
        invariant position[index] != NPOS
        decreases p
      {
        var parentPosition: nat := (p - 1) / 2;
        ghost var before: seq<nat> := heap[p := index];
        ghost var beforePosition := position[index := p];
        assert before[parentPosition] == heap[parentPosition];
        TableEntry(|score|, before, beforePosition, parentPosition);
        var parent := heap[parentPosition];
        if !RanksBelow(score, parent, index) {
          ClosedAtHole(score, before, p);
          break;
        }
        Place(p, parent);
        SwapTables(|score|, before, beforePosition, p, parentPosition);
        SwapUp(score, before, p);
        assert heap[parentPosition := index] == Swap(before, p, parentPosition);
        assert position[index := parentPosition] == SwapPositions(beforePosition, before, p, parentPosition);
        p := parentPosition;
      }
      if p == 0 {
        ClosedAtHole(score, heap[p := index], 0);
      }
      Place(p, index);
    }

    method SiftDown()
      requires heap != []
      requires Tables(|score|, heap, position) && OrderedBelow(score, heap, 0)
      modifies this`heap, this`position
      ensures Tables(|score|, heap, position) && Ordered(score, heap)
      ensures |heap| == old(|heap|)
      ensures Candidates() == old(Candidates())
    {
      hide OrderedAbove, OrderedBelow, Tables, Bridged, HighestChild, Swap, SwapPositions, RanksBelow;
      var p := 0;
      TableEntry(|score|, heap, position, p);
      var index := heap[p];
      var count := |heap|;
      assert heap[p := index] == heap && position[index := p] == position;
      RootIsBridged(score, heap);
      while true
        invariant p < |heap| == count == old(|heap|) && index < |score| == |position|
        invariant InRange(|score|, heap[p := index]) && Tables(|score|, heap[p := index], position[index := p])
        invariant OrderedBelow(score, heap[p := index], p) && Bridged(score, heap[p := index], p)
        invariant Support(position) == old(Support(position))
        invariant position[index] != NPOS
        decreases count - p
      {
        ghost var before: seq<nat> := heap[p := index];
        ghost var beforePosition := position[index := p];
        var childPosition: nat := 2 * p + 1;
        if childPosition >= count {
          NoChild(score, before, p);
          break;
        }
        assert before[childPosition] == heap[childPosition];
        TableEntry(|score|, before, beforePosition, childPosition);
        var child := heap[childPosition];
        var rightPosition := childPosition + 1;
        if rightPosition < count {
          assert before[rightPosition] == heap[rightPosition];
          TableEntry(|score|, before, beforePosition, rightPosition);
          if RanksBelow(score, child, heap[rightPosition]) {
            childPosition := rightPosition;
            child := heap[rightPosition];
          }
        }
        HigherChild(score, before, p, childPosition);
        if !RanksBelow(score, index, child) {
          ClosedBelowHole(score, before, p, childPosition);
          break;
        }
        Place(p, child);
        SwapTables(|score|, before, beforePosition, p, childPosition);
        SwapDown(score, before, p, childPosition);
        PlacedIsSwapped(before, beforePosition, p, childPosition);
        assert heap[childPosition := index] == Swap(before, p, childPosition);
        assert position[index := childPosition] == SwapPositions(beforePosition, before, p, childPosition);
        p := childPosition;
      }
      Place(p, index);
    }

    /** Inserts a variable that is not a candidate. */
    method Push(v: nat)
      requires Valid() && v < |score| && !Contains(v)
      modifies this`heap, this`position
      ensures Valid()
      ensures |heap| == old(|heap|) + 1
      ensures Candidates() == old(Candidates()) + {v} && |position| == old(|position|)
    {
      var at := |heap|;
      heap := heap + [v];
      position := position[v := at];
      assert Bridged(score, heap, at);
      SiftUp(at);
    }

    /** Removes and returns the candidate no other candidate outranks. */
    method Pop() returns (best: nat)
      requires Valid() && heap != []
      modifies this`heap, this`position
      ensures Valid()
      ensures |heap| == old(|heap|) - 1 && best < |score| && best == old(heap[0])
      ensures best in old(Candidates()) && Candidates() == old(Candidates()) - {best}
      ensures forall u :: u in old(Candidates()) ==> u < |score| && !RanksBelow(score, best, u)
    {
      forall i | 0 <= i < |heap|
        ensures !RanksBelow(score, heap[0], heap[i])
      {
        FirstIsHighest(score, heap, i);
      }
      best := heap[0];
      var last := heap[|heap| - 1];
      heap := heap[..|heap| - 1];
      position := position[best := NPOS];
      if heap != [] {
        heap := heap[0 := last];
        position := position[last := 0];
        assert OrderedBelow(score, heap, 0);
        SiftDown();
      }
    }

    function Acts(): Activities
      reads this`score, this`increment
    {
      Activities(score, increment)
    }

    /** Adds the increment to one activity. An overflow scales every activity and the increment alike. */
    method Bump(v: nat)
      requires Valid() && v < |score|
      modifies this
      ensures Valid()
      ensures |heap| == old(|heap|) && |score| == old(|score|)
      ensures Candidates() == old(Candidates())
      ensures old(score[v] + increment) <= RESCALE_LIMIT ==> increment == old(increment)
      ensures old(score[v] + increment) > RESCALE_LIMIT ==> increment == (1.0 / RESCALE_LIMIT) * old(increment)
      ensures Scaled(old(score[v := score[v] + increment]), increment / old(increment), score)
      ensures Acts() == Bumped(old(Acts()), v)
    {
      hide Tables, OrderedAbove, Bridged;
      var bumped := score[v] + increment;
      RaisedScore(|score|, score, heap, position, v, bumped);
      score := score[v := bumped];
      ghost var plain := score;
      if bumped > RESCALE_LIMIT {
        RescaleBy(1.0 / RESCALE_LIMIT);
        ScalingKeepsOrder(plain, 1.0 / RESCALE_LIMIT, score, heap, position[v]);
        RatioOf(1.0 / RESCALE_LIMIT, old(increment));
      } else {
        RatioOf(1.0, increment);
      }
      if position[v] != NPOS {
        SiftUp(position[v]);
      }
    }

    /** Ages every activity by growing the increment. */
    method Decay()
      requires Valid()
      modifies this`score, this`increment, this`rescaleCount
      ensures Valid() && |score| == old(|score|)
      ensures old(increment / DECAY_FACTOR) <= RESCALE_LIMIT ==>
              increment == old(increment / DECAY_FACTOR) && score == old(score)
      ensures old(increment / DECAY_FACTOR) > RESCALE_LIMIT ==>
                increment == (1.0 / RESCALE_LIMIT) * old(increment / DECAY_FACTOR)
                && Scaled(old(score), 1.0 / RESCALE_LIMIT, score)
      ensures Acts() == Decayed(old(Acts()), DECAY_FACTOR)
    {
      increment := increment / DECAY_FACTOR;
      ghost var before := score;
      if increment > RESCALE_LIMIT {
        RescaleBy(1.0 / RESCALE_LIMIT);
        ScalingKeepsOrder(before, 1.0 / RESCALE_LIMIT, score, heap, -1);
      }
    }

    method RescaleBy(factor: real)
      requires factor > 0.0 && increment > 0.0
      modifies this`score, this`increment, this`rescaleCount
      ensures Scaled(old(score), factor, score)
      ensures increment == factor * old(increment) && increment > 0.0
      ensures rescaleCount == old(rescaleCount) + 1
    {
      var v := 0;
      while v < |score|
        invariant 0 <= v <= |score| == old(|score|) && increment == old(increment) && rescaleCount == old(rescaleCount)
        invariant forall u :: 0 <= u < v ==> score[u] == factor * old(score)[u]
        invariant forall u :: v <= u < |score| ==> score[u] == old(score)[u]
      {
        score := score[v := score[v] * factor];
        v := v + 1;
      }
      increment := increment * factor;
      rescaleCount := rescaleCount + 1;
    }

    /** Scales every activity of a heap in order. */
    method Rescale(factor: real)
      requires Valid() && factor > 0.0
      modifies this`score, this`increment, this`rescaleCount
      ensures Valid() && |score| == old(|score|) && Scaled(old(score), factor, score)
      ensures Acts() == ScaledBy(factor, old(Acts()))
    {
      RescaleBy(factor);
      ScalingKeepsOrder(old(score), factor, score, heap, -1);
      assert forall v :: 0 <= v < |score| ==> score[v] == ScaledBy(factor, old(Acts())).score[v];
    }
  }

  ghost predicate HighestChild(score: seq<real>, heap: seq<nat>, p: nat, c: nat)
    requires InRange(|score|, heap) && c < |heap| && p < |heap|
  {
    && c > 0 && Parent(c) == p
    && forall i :: 0 < i < |heap| && Parent(i) == p ==> !RanksBelow(score, heap[c], heap[i])
  }

  ghost function Swap(heap: seq<nat>, p: nat, q: nat): seq<nat>
    requires p < |heap| && q < |heap|
  {
    heap[p := heap[q]][q := heap[p]]
  }

  ghost function SwapPositions(position: seq<int>, heap: seq<nat>, p: nat, q: nat): seq<int>
    requires p < |heap| && q < |heap| && heap[p] < |position| && heap[q] < |position|
  {
    position[heap[q] := p][heap[p] := q]
  }

  /** Writing the child over the hole and the hole's entry over the child is the swap. */
  lemma PlacedIsSwapped(heap: seq<nat>, position: seq<int>, p: nat, q: nat)
    requires p < |heap| && q < |heap| && heap[p] < |position| && heap[q] < |position|
    ensures Swap(heap, p, q) == heap[p := heap[q]][q := heap[p]]
    ensures SwapPositions(position, heap, p, q) == position[heap[q] := p][heap[p] := q]
  {
  }

  lemma TableEntry(slots: nat, heap: seq<nat>, position: seq<int>, i: nat)
    requires Tables(slots, heap, position) && i < |heap|
    ensures |position| == slots && heap[i] < slots && position[heap[i]] == i && InRange(slots, heap)
  {
  }

  lemma SwapTables(slots: nat, heap: seq<nat>, position: seq<int>, p: nat, q: nat)
    requires Tables(slots, heap, position) && p < |heap| && q < |heap| && p != q
    ensures heap[p] < slots && heap[q] < slots && |position| == slots
    ensures Tables(slots, Swap(heap, p, q), SwapPositions(position, heap, p, q))
  {
  }

  lemma SwapIs(heap: seq<nat>, p: nat, q: nat)
    requires p < |heap| && q < |heap| && p != q
    ensures |Swap(heap, p, q)| == |heap| && Swap(heap, p, q)[p] == heap[q] && Swap(heap, p, q)[q] == heap[p]
    ensures forall i :: 0 <= i < |heap| && i != p && i != q ==> Swap(heap, p, q)[i] == heap[i]
  {
  }

  /** Moving a parent into the hole below it repairs that edge and moves the hole up. */
  lemma SwapUp(score: seq<real>, heap: seq<nat>, p: nat)
    requires InRange(|score|, heap) && 0 < p < |heap|
    requires OrderedAbove(score, heap, p) && Bridged(score, heap, p)
    requires RanksBelow(score, heap[Parent(p)], heap[p])
    ensures InRange(|score|, Swap(heap, p, Parent(p)))
    ensures OrderedAbove(score, Swap(heap, p, Parent(p)), Parent(p))
    ensures Bridged(score, Swap(heap, p, Parent(p)), Parent(p))
  {
    var q := Parent(p);
    var h := Swap(heap, p, q);
    hide Swap;
    assert |h| == |heap| && h[p] == heap[q] && h[q] == heap[p]
           && forall i :: 0 <= i < |heap| && i != p && i != q ==> h[i] == heap[i]
      by { SwapIs(heap, p, q); }
    forall i | 0 <= i < |h| ensures h[i] < |score| {
    }
    forall i | 0 < i < |h| && i != q ensures !RanksBelow(score, h[Parent(i)], h[i]) {
      if i != p && Parent(i) == q {
        assert !RanksBelow(score, heap[q], heap[i]);
      }
    }
  }

  lemma ClosedAtHole(score: seq<real>, heap: seq<nat>, p: nat)
    requires InRange(|score|, heap) && p < |heap| && OrderedAbove(score, heap, p)
    requires p > 0 ==> !RanksBelow(score, heap[Parent(p)], heap[p])
    ensures Ordered(score, heap)
  {
  }

  lemma RootIsBridged(score: seq<real>, heap: seq<nat>)
    requires InRange(|score|, heap)
    ensures Bridged(score, heap, 0)
  {
  }

  lemma NoChild(score: seq<real>, heap: seq<nat>, p: nat)
    requires InRange(|score|, heap) && p < |heap| <= 2 * p + 1 && OrderedBelow(score, heap, p)
    ensures Ordered(score, heap)
  {
  }

  lemma HigherChild(score: seq<real>, heap: seq<nat>, p: nat, c: nat)
    requires InRange(|score|, heap) && 0 < c < |heap| && (c == 2 * p + 1 || c == 2 * p + 2)
    requires c == 2 * p + 1 && c + 1 < |heap| ==> !RanksBelow(score, heap[c], heap[c + 1])
    requires c == 2 * p + 2 ==> RanksBelow(score, heap[c - 1], heap[c])
    ensures HighestChild(score, heap, p, c)
  {
    forall i | 0 < i < |heap| && Parent(i) == p
      ensures !RanksBelow(score, heap[c], heap[i])
    {
      assert i == 2 * p + 1 || i == 2 * p + 2;
    }
  }

  lemma ClosedBelowHole(score: seq<real>, heap: seq<nat>, p: nat, c: nat)
    requires InRange(|score|, heap) && c < |heap| && p < |heap|
    requires OrderedBelow(score, heap, p)
    requires !RanksBelow(score, heap[p], heap[c])
    requires HighestChild(score, heap, p, c)
    ensures Ordered(score, heap)
  {
  }

  /** Moving the higher child into the hole above it repairs those edges and moves the hole down. */
  lemma SwapDown(score: seq<real>, heap: seq<nat>, p: nat, c: nat)
    requires InRange(|score|, heap) && c < |heap| && p < |heap|
    requires OrderedBelow(score, heap, p) && Bridged(score, heap, p)
    requires RanksBelow(score, heap[p], heap[c])
    requires HighestChild(score, heap, p, c)
    ensures InRange(|score|, Swap(heap, p, c))
    ensures OrderedBelow(score, Swap(heap, p, c), c) && Bridged(score, Swap(heap, p, c), c)
  {
  }

  /** Raising one activity disturbs the order at that variable's own entry only. */
  lemma RaisedScore(slots: nat, score: seq<real>, heap: seq<nat>, position: seq<int>, v: nat, bumped: real)
    requires |score| == slots && Tables(slots, heap, position) && Ordered(score, heap)
    requires v < slots && bumped > score[v]
    ensures InRange(slots, heap) && |position| == slots && (position[v] == NPOS || 0 <= position[v] < |heap|)
    ensures OrderedAbove(score[v := bumped], heap, position[v])
    ensures position[v] != NPOS ==> Bridged(score[v := bumped], heap, position[v])
  {
  }
}
