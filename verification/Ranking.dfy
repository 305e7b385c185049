/** Why the search between two restarts ends: the numbers of assignments per level grow lexicographically. */
module Ranking {
  import opened SearchState
  import opened Watching

  function Power(b: nat, e: nat): (p: nat)
    ensures b > 0 ==> p > 0
  {
    if e == 0 then 1 else Times(b, Power(b, e - 1))
  }

  function Times(a: nat, b: nat): (p: nat)
    ensures a > 0 && b > 0 ==> p > 0
  {
    a * b
  }

  /** How many literals were assigned at level `k`. */
  ghost function CountAt(s: State, k: nat): int {
    Begin(s, k + 1) - Begin(s, k)
  }

  /** The counts of levels `k` up to `levels` read as the digits of one number, the lowest level leading. */
  ghost function RankFrom(s: State, k: nat, levels: nat): int
    decreases levels - k
  {
    if k >= levels then 0 else CountAt(s, k) * Power(s.n + 1, levels - k - 1) + RankFrom(s, k + 1, levels)
  }

  lemma {:induction false} RankBounds(s: State, k: nat, levels: nat)
    requires SearchOk(s) && k <= levels
    ensures 0 <= RankFrom(s, k, levels) < Power(s.n + 1, levels - k)
    decreases levels - k
  {
    if k < levels {
      RankBounds(s, k + 1, levels);
      CountBounds(s, k);
      hide SearchOk, CountAt;
      var p := Power(s.n + 1, levels - k - 1);
      var c := CountAt(s, k);
      MulOrdered(0, c, p);
      MulOrdered(c, s.n, p);
      Distribute(s.n, p);
    }
  }

  /** No level assigns more literals than there are variables. */
  lemma CountBounds(s: State, k: nat)
    requires SearchOk(s)
    ensures 0 <= CountAt(s, k) <= s.n
  {
    TrailFits(s);
    BeginsOrdered(s, 0, k);
    BeginsOrdered(s, k, k + 1);
    BeginsOrdered(s, k + 1, |s.control| + k + 1);
  }

  lemma Distribute(a: int, p: int)
    ensures a * p + p == (a + 1) * p
  {
  }

  lemma MulOrdered(a: int, b: int, p: int)
    requires a <= b && 0 <= p
    ensures a * p <= b * p
  {
  }

  lemma LeadingDecides(a: int, b: int, p: int)
    requires a < b && 0 <= p
    ensures a * p + p <= b * p
  {
    MulOrdered(a + 1, b, p);
    Distribute(a, p);
  }

  /** The same levels up to `b`, and more assigned at level `b`: the rank is higher, whatever became of later levels. */
  lemma {:induction false} RankGrows(s: State, t: State, k: nat, b: nat, levels: nat)
    requires SearchOk(s) && SearchOk(t) && t.n == s.n && k <= b < levels
    requires forall j: nat :: j <= b ==> Begin(t, j) == Begin(s, j)
    requires Begin(t, b + 1) > Begin(s, b + 1)
    ensures RankFrom(t, k, levels) > RankFrom(s, k, levels)
    decreases b - k
  {
    hide SearchOk;
    var p := Power(s.n + 1, levels - k - 1);
    if k < b {
      RankGrows(s, t, k + 1, b, levels);
    } else {
      RankBounds(s, k + 1, levels);
      RankBounds(t, k + 1, levels);
      LeadingDecides(CountAt(s, k), CountAt(t, k), p);
    }
  }

  lemma {:induction false} RankSame(s: State, t: State, k: nat, levels: nat)
    requires t.n == s.n && forall j: nat :: Begin(t, j) == Begin(s, j)
    ensures RankFrom(t, k, levels) == RankFrom(s, k, levels)
    decreases levels - k
  {
    if k < levels {
      RankSame(s, t, k + 1, levels);
    }
  }

  /** Propagating assigns at the current level only. */
  lemma RankAfterProgress(s: State, t: State, levels: nat)
    requires SearchOk(s) && SearchOk(t) && Progress(s, t) && s.level < levels
    ensures RankFrom(t, 0, levels) >= RankFrom(s, 0, levels)
  {
    assert forall j: nat :: j <= s.level ==> Begin(t, j) == Begin(s, j);
    if |t.trail| > |s.trail| {
      RankGrows(s, t, 0, s.level, levels);
    } else {
      assert forall j: nat :: Begin(t, j) == Begin(s, j);
      RankSame(s, t, 0, levels);
    }
  }

  /** The level has at least its decision, which is its first literal. */
  ghost predicate LevelOpens(s: State, k: nat) {
    && k < |s.control| && Begin(s, k) < Begin(s, k + 1) && Begin(s, k) < |s.trail|
    && s.trail[Begin(s, k)] == s.control[k].decision
  }

  /** Every level above the assumption levels has its decision on the trail. */
  ghost predicate Opened(s: State, assumptionCount: nat) {
    forall k: nat :: assumptionCount < k <= s.level ==> LevelOpens(s, k)
  }

  lemma {:induction false} LevelsBelow(s: State, assumptionCount: nat, k: nat)
    requires SearchOk(s) && Opened(s, assumptionCount) && k <= s.level
    ensures k <= assumptionCount + Begin(s, k + 1)
  {
    if k > assumptionCount {
      LevelsBelow(s, assumptionCount, k - 1);
      assert LevelOpens(s, k);
    }
  }

  /** There are never more levels than assumptions and variables. */
  lemma LevelsBounded(s: State, assumptionCount: nat)
    requires SearchOk(s) && Opened(s, assumptionCount)
    ensures s.level <= assumptionCount + s.n
  {
    LevelsBelow(s, assumptionCount, s.level);
    TrailFits(s);
  }
}
