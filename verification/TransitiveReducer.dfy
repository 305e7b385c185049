/** Removal of binary clauses that the other binary clauses already imply. */
module TransitiveReducers {
  import opened Logic
  import opened SearchState
  import opened CountingIndex
  import opened ImplicationGraph

  const EFFORT_PER_EDGE: nat := 2
  const MINIMUM_EFFORT: nat := 0x1_0000
  const GENERATIONS: nat := 0x1_0000_0000

  class TransitiveReducer {
    var database: Database
    var garbage: set<Ref>
    var binaries: seq<Binary>
    var slots: nat
    var start: seq<nat>
    var entries: seq<nat>
    var removed: seq<bool>
    var effort: nat
    var visitStamp: seq<nat>
    var visitGeneration: nat
    var frontier: seq<Lit>
    var removedEdgeCount: nat

    constructor (database: Database)
      ensures this.database == database && garbage == {} && removedEdgeCount == 0
    {
      this.database, garbage, binaries, slots, start, entries, removed := database, {}, [], 0, [], [], [];
      effort, visitStamp, visitGeneration, frontier, removedEdgeCount := 0, [], 0, [], 0;
    }

    /** The graph is built from the binary clauses. */
    ghost predicate Built()
      reads this`binaries, this`slots, this`start, this`entries, this`removed, this`visitStamp, this`visitGeneration
    {
      && IndexOf(Sources(binaries), slots, start, entries) && |removed| == |binaries| && |visitStamp| == slots
      && (forall k :: 0 <= k < |binaries| ==> EndsBelow(binaries[k], slots))
      && visitGeneration < GENERATIONS && (forall l :: 0 <= l < |visitStamp| ==> visitStamp[l] <= visitGeneration)
    }

    // -------------------------------------------------------------------------------------------
    // The graph
    // -------------------------------------------------------------------------------------------

    /** Lists the binary clauses of the store. */
    method CollectBinaries() returns (highest: Lit)
      requires PairsDiffer(database)
      modifies this`binaries
      ensures Listed(binaries, database, garbage)
      ensures forall k :: 0 <= k < |binaries| ==> EndsBelow(binaries[k], highest + 1)
    {
      hide ListedFrom, Listed, PairsDiffer;
      binaries := [];
      highest := 0;
      var todo := BinaryRefs(database, garbage);
      ghost var all, done := todo, {};
      ListNothing(database);
      while todo != {}
        invariant todo <= all && done == all - todo
        invariant forall k :: 0 <= k < |binaries| ==> EndsBelow(binaries[k], highest + 1)
        invariant ListedFrom(binaries, database, done)
        decreases |todo|
      {
        var ref :| ref in todo;
        var lits := database[ref].lits;
        ListOne(binaries, database, done, ref);
        highest := Include(highest, ref, lits);
        todo := todo - {ref};
        done := done + {ref};
      }
      ListedAll(binaries, database, garbage, done);
    }

    /** Adds one clause and widens the range of literals to it. */
    method Include(highest: Lit, ref: Ref, lits: Clause) returns (wider: Lit)
      requires |lits| == 2 && lits[0] != lits[1]
      requires forall k :: 0 <= k < |binaries| ==> EndsBelow(binaries[k], highest + 1)
      modifies this`binaries
      ensures binaries == old(binaries) + [Binary(ref, lits[0], lits[1])]
      ensures forall k :: 0 <= k < |binaries| ==> EndsBelow(binaries[k], wider + 1)
    {
      wider := Max(Max(highest, Max(lits[0], Neg(lits[0]))), Max(lits[1], Neg(lits[1])));
      binaries := binaries + [Binary(ref, lits[0], lits[1])];
    }

    /** Files every clause under the negations of its two literals. */
    method BuildGraph()
      requires PairsDiffer(database)
      modifies this`binaries, this`slots, this`start, this`entries, this`removed, this`visitStamp, this`visitGeneration
      ensures Listed(binaries, database, garbage) && Built() && forall k :: 0 <= k < |removed| ==> !removed[k]
      ensures |entries| == 2 * |binaries|
    {
      hide Listed;
      var highest := CollectBinaries();
      slots := if binaries == [] then 0 else highest + 1;
      SourcesBelow(binaries, slots);
      start, entries := BuildIndex(Sources(binaries), slots);
      TwoEach(binaries, |binaries|);
      visitStamp, visitGeneration := seq(slots, _ => 0), 0;
      removed := seq(|binaries|, _ => false);
    }

    /** The clauses with an edge out of a literal. */
    method SuccessorsOf(l: Lit) returns (list: seq<nat>)
      requires Built() && l < slots
      ensures list == Occurrences(Sources(binaries), l)
    {
      assert ListIs(Sources(binaries), start, entries, l);
      list := entries[start[l]..start[l + 1]];
    }

    // -------------------------------------------------------------------------------------------
    // Breadth-first search
    // -------------------------------------------------------------------------------------------

    /** Starts a generation no literal has been visited in; the counter is 32 bits wide and wraps. */
    method NextGeneration()
      requires Built()
      modifies this`visitStamp, this`visitGeneration
      ensures Built() && forall l :: 0 <= l < |visitStamp| ==> visitStamp[l] < visitGeneration
    {
      hide IndexOf;
      visitGeneration := (visitGeneration + 1) % GENERATIONS;
      if visitGeneration == 0 {
        visitStamp := seq(|visitStamp|, _ => 0);
        visitGeneration := 1;
      }
    }

    /** The queue holds each visited literal once. */
    ghost predicate Queued(source: Lit, excluded: nat)
      reads this`binaries, this`removed, this`frontier, this`visitStamp, this`visitGeneration, this`slots
    {
      && frontier != [] && frontier[0] == source && |visitStamp| == slots
      && (forall i :: 0 <= i < |frontier| ==> frontier[i] < slots && visitStamp[frontier[i]] == visitGeneration)
      && (forall l :: 0 <= l < |visitStamp| && visitStamp[l] == visitGeneration ==> l in frontier)
      && (forall i, j :: 0 <= i < j < |frontier| ==> frontier[i] != frontier[j])
      && (forall i :: 0 <= i < |frontier| ==>
          frontier[i] == source || Reach(binaries, removed, excluded, source, frontier[i]))
    }

    /** Queues a literal met for the first time. */
    method Enqueue(next: Lit, source: Lit, excluded: nat)
      requires Built() && Queued(source, excluded) && next < slots && visitStamp[next] != visitGeneration
      requires Reach(binaries, removed, excluded, source, next)
      modifies this`frontier, this`visitStamp
      ensures Built() && Queued(source, excluded) && frontier == old(frontier) + [next]
    {
      hide IndexOf, Reach;
      ghost var before := frontier;
      visitStamp := visitStamp[next := visitGeneration];
      frontier := frontier + [next];
      assert frontier[|before|] == next;
      assert forall l :: l in before ==> l in frontier;
    }

    lemma QueuedTables(source: Lit, excluded: nat)
      requires Queued(source, excluded)
      ensures forall l :: l in frontier ==> l == source || Reach(binaries, removed, excluded, source, l)
      ensures |visitStamp| == slots && forall l :: 0 <= l < slots && visitStamp[l] == visitGeneration ==> l in frontier
    {
    }

    /** Follows one edge. */
    method Visit(current: Lit, k: nat, source: Lit, target: Lit, excluded: nat) returns (hit: bool)
      requires Built() && Queued(source, excluded) && k < |binaries| && current in frontier
      requires current == Neg(binaries[k].first) || current == Neg(binaries[k].second)
      modifies this`frontier, this`visitStamp
      ensures Built() && Queued(source, excluded) && |frontier| >= old(|frontier|)
              && frontier[..old(|frontier|)] == old(frontier)
      ensures hit ==> Reach(binaries, removed, excluded, source, target)
      ensures !hit && Usable(removed, excluded, k) ==>
                OtherEnd(binaries[k], current) in frontier && OtherEnd(binaries[k], current) != target
    {
      hide IndexOf, Reach, Queued;
      hit := false;
      QueuedTables(source, excluded);
      if k == excluded || removed[k] {
        return;
      }
      var next := OtherEnd(binaries[k], current);
      assert Says(binaries[k], current, next);
      assert Edge(binaries, removed, excluded, current, next);
      ReachNext(binaries, removed, excluded, source, current, next);
      if next == target {
        return true;
      }
      assert EndsBelow(binaries[k], slots);
      if visitStamp[next] != visitGeneration {
        Enqueue(next, source, excluded);
      }
    }

    /** Follows every edge out of one literal. */
    method VisitAll(current: Lit, source: Lit, target: Lit, excluded: nat) returns (hit: bool)
      requires Built() && Queued(source, excluded) && current in frontier && current < slots
      modifies this`frontier, this`visitStamp
      ensures Built() && Queued(source, excluded) && |frontier| >= old(|frontier|)
              && frontier[..old(|frontier|)] == old(frontier)
      ensures hit ==> Reach(binaries, removed, excluded, source, target)
      ensures !hit ==> Settled(binaries, removed, excluded, Members(frontier), target, current)
    {
      hide IndexOf, Reach, Queued;
      var list := SuccessorsOf(current);
      OccurrencesAre(Sources(binaries), current);
      var i := 0;
      while i < |list|
        invariant 0 <= i <= |list| && Built() && Queued(source, excluded)
        invariant |frontier| >= old(|frontier|) && frontier[..old(|frontier|)] == old(frontier)
        invariant forall j :: 0 <= j < i && Usable(removed, excluded, list[j]) ==>
                    OtherEnd(binaries[list[j]], current) in frontier && OtherEnd(binaries[list[j]], current) != target
      {
        assert list[i] in list;
        ghost var before := frontier;
        StillQueued(old(frontier), frontier, current);
        hit := Visit(current, list[i], source, target, excluded);
        PrefixOfPrefix(old(frontier), before, frontier);
        if hit {
          return;
        }
        i := i + 1;
      }
      hit := false;
      SettledFrom(binaries, removed, excluded, frontier, target, current, list);
    }

    /** Starts a search from one literal. */
    method StartSearch(source: Lit, excluded: nat)
      requires Built() && source < slots
      modifies this`visitStamp, this`visitGeneration, this`frontier
      ensures Built() && Queued(source, excluded) && frontier == [source]
    {
      hide IndexOf, Reach;
      NextGeneration();
      frontier := [source];
      visitStamp := visitStamp[source := visitGeneration];
    }

    /** The queue never outgrows the literals. */
    lemma QueuedBound(source: Lit, excluded: nat)
      requires Built() && Queued(source, excluded)
      ensures |frontier| <= slots && frontier != [] && frontier[0] == source
      ensures forall i :: 0 <= i < |frontier| ==> frontier[i] < slots
    {
      QueueBound(frontier, slots);
    }

    /** What following the edges out of these literals costs. */
    ghost function Cost(lits: seq<Lit>): nat
      reads this`binaries
    {
      ListSum(Sources(binaries), lits)
    }

    lemma CostNone()
      ensures Cost(frontier[..0]) == 0
    {
    }

    lemma CostMore(k: nat)
      requires k < |frontier|
      ensures Cost(frontier[..k + 1]) == Cost(frontier[..k]) + |Occurrences(Sources(binaries), frontier[k])|
    {
      assert frontier[..k + 1] == frontier[..k] + [frontier[k]];
      ListSumMore(Sources(binaries), frontier[..k], frontier[k]);
    }

    /** Following the edges out of every queued literal costs no more than there are edges. */
    lemma CostBound(source: Lit, excluded: nat, k: nat)
      requires Built() && Queued(source, excluded) && k <= |frontier|
      ensures Cost(frontier[..k]) <= |entries|
    {
      QueuedBound(source, excluded);
      ListSumBound(Sources(binaries), slots, start, entries, frontier[..k], slots);
    }

    /** Looks for a chain of other clauses from the source to the target, as far as the effort reaches. While effort is
        left the answer is exact. The effort is what following the edges of the queued literals costs, each once; it
        runs out only when it is no more than the number of edges. */
    method HasAlternativePath(source: Lit, target: Lit, excluded: nat) returns (found: bool)
      requires Built() && source < slots
      modifies this`effort, this`visitStamp, this`visitGeneration, this`frontier
      ensures Built() && effort <= old(effort)
      ensures old(effort) > |entries| ==> effort > 0 && effort >= old(effort) - |entries|
      ensures found ==> Reach(binaries, removed, excluded, source, target)
      ensures !found && effort != 0 ==> !Reach(binaries, removed, excluded, source, target)
    {
      hide IndexOf, Reach, Settled, Queued, Members, Occurrences, Sources, ListSum, EndsBelow;
      if |visitStamp| == 0 || effort == 0 {
        return false;
      }
      StartSearch(source, excluded);
      QueuedBound(source, excluded);
      var index := 0;
      CostNone();
      while index < |frontier|
        invariant Built() && Queued(source, excluded)
        invariant 0 <= index <= |frontier| <= slots && frontier != [] && frontier[0] == source
        invariant effort == old(effort) - Cost(frontier[..index]) && effort > 0
        invariant forall i :: 0 <= i < |frontier| ==> frontier[i] < slots
        invariant forall i :: 0 <= i < index ==>
                  Settled(binaries, removed, excluded, Members(frontier), target, frontier[i])
        decreases slots - index
      {
        var current := frontier[index];
        assert current in frontier;
        var successors := SuccessorsOf(current);
        CostMore(index);
        CostBound(source, excluded, index + 1);
        if effort <= |successors| {
          effort := 0;
          return false;
        }
        effort := effort - |successors|;
        ghost var before := frontier;
        found := VisitAll(current, source, target, excluded);
        if found {
          return;
        }
        QueuedBound(source, excluded);
        assert frontier[..index + 1] == before[..index + 1];
        SettledPrefix(binaries, removed, excluded, before, frontier, target, index);
        index := index + 1;
      }
      found := false;
      CostBound(source, excluded, index);
      AllSettled(binaries, removed, excluded, frontier, source, target);
    }

    // -------------------------------------------------------------------------------------------
    // Pruning
    // -------------------------------------------------------------------------------------------

    /** The clauses taken out so far were implied by those still there. */
    ghost predicate Pruning()
      reads this`database, this`garbage, this`binaries, this`slots, this`start, this`entries, this`removed,
            this`visitStamp
      reads this`visitGeneration
    {
      Built() && Consistent(binaries, database, garbage, removed) && NothingLost(binaries, removed)
    }

    /** Removes one clause when the others that are left imply it. */
    method PruneOne(k: nat)
      requires Pruning() && k < |binaries| && !removed[k]
      modifies this`effort, this`visitStamp, this`visitGeneration, this`frontier, this`removed, this`garbage,
               this`removedEdgeCount
      ensures Pruning() && |removed| == old(|removed|)
      ensures removed == old(removed) || (removed == old(removed[k := true]))
      ensures removed[k] ==> Redundant(binaries, old(removed), k)
      ensures effort != 0 ==> (removed[k] <==> Redundant(binaries, old(removed), k))
      ensures effort <= old(effort)
      ensures old(effort) > 2 * |entries| ==> effort > 0 && effort >= old(effort) - 2 * |entries|
      ensures removedEdgeCount == old(removedEdgeCount) + if removed[k] then 1 else 0
    {
      hide IndexOf, Consistent, NothingLost, Reach;
      var clause := binaries[k];
      assert EndsBelow(clause, slots);
      RedundantBothWays(binaries, removed, k);
      var first := HasAlternativePath(Neg(clause.first), clause.second, k);
      if !first {
        return;
      }
      var second := HasAlternativePath(Neg(clause.second), clause.first, k);
      if second {
        RemovalLosesNothing(binaries, removed, k);
        ConsistentAfter(binaries, database, garbage, removed, k);
        garbage := garbage + {clause.ref};
        removed := removed[k := true];
        removedEdgeCount := removedEdgeCount + 1;
      }
    }

    /** A full pass. The binary clauses left imply those removed, and everything else stays. No binary clause that the
        effort reached and that is left is implied by the rest of them; the effort reaches all of them when there are no
        more than 128. */
    method PruneBinaryEdges() returns (ghost before: seq<Binary>)
      requires garbage == {} && PairsDiffer(database)
      modifies this`binaries, this`slots, this`start, this`entries, this`removed, this`visitStamp, this`visitGeneration
      modifies this`effort, this`frontier, this`garbage, this`removedEdgeCount, this`database
      ensures Listed(before, old(database), {}) && |removed| == |before| && NothingLost(before, removed)
      ensures forall k :: 0 <= k < |before| ==> (before[k].ref in database <==> !removed[k])
      ensures forall a: Assignment :: SatisfiesStore(a, database) <==> SatisfiesStore(a, old(database))
      ensures forall r :: r in database ==> r in old(database) && database[r] == old(database)[r]
      ensures forall r :: r in old(database) && r !in database ==> |old(database)[r].lits| == 2
      ensures forall k :: 0 <= k < |before| && !removed[k] && (effort != 0 || EffortReaches(|before|, k + 1)) ==>
                !Redundant(before, removed, k)
      ensures |before| <= 128 ==> forall k :: 0 <= k < |before| && !removed[k] ==> !Redundant(before, removed, k)
      ensures EffortReaches(|before|, |before|) ==> effort != 0
      ensures removedEdgeCount == old(removedEdgeCount) + RemovedCount(removed)
    {
      hide IndexOf, Listed, Reach, EffortReaches, NothingLost, Consistent, SatisfiesStore;
      BuildGraph();
      before := binaries;
      effort := EFFORT_PER_EDGE * |entries| + MINIMUM_EFFORT;
      StartConsistent(binaries, database, removed);
      PruneAll();
      if |before| <= 128 {
        SmallEnough(|before|);
      }
      FlushedMeans(binaries, database, garbage, removed);
      RemovedAreGone(binaries, database, garbage, removed);
      database := map r | r in database && r !in garbage :: database[r];
      garbage := {};
    }

    /** Tries every binary clause in turn. */
    method PruneAll()
      requires Pruning() && (forall k :: 0 <= k < |removed| ==> !removed[k]) && |entries| == 2 * |binaries|
      requires effort == EFFORT_PER_EDGE * |entries| + MINIMUM_EFFORT
      modifies this`effort, this`visitStamp, this`visitGeneration, this`frontier, this`removed, this`garbage,
               this`removedEdgeCount
      ensures Pruning() && |removed| == |binaries|
      ensures forall k :: 0 <= k < |binaries| && !removed[k] && (effort != 0 || EffortReaches(|binaries|, k + 1)) ==>
                !Redundant(binaries, removed, k)
      ensures EffortReaches(|binaries|, |binaries|) ==> effort != 0
      ensures removedEdgeCount == old(removedEdgeCount) + RemovedCount(removed)
    {
      hide IndexOf, Consistent, NothingLost, Redundant;
      NoneRemoved(removed);
      ghost var n := |binaries|;
      var k := 0;
      while k < |binaries|
        invariant 0 <= k <= |binaries| == n && Pruning() && forall j :: k <= j < |binaries| ==> !removed[j]
        invariant forall j :: 0 <= j < k && !removed[j] && (effort != 0 || EffortReaches(n, j + 1)) ==>
                    !Redundant(binaries, removed, j)
        invariant EffortReaches(n, k) ==> effort > 0 && effort >= old(effort) - 4 * k * n
        invariant removedEdgeCount == old(removedEdgeCount) + RemovedCount(removed)
      {
        if effort == 0 {
          forall j | k <= j <= n ensures !EffortReaches(n, j) {
            if EffortReaches(n, j) {
              ReachesFewer(n, k, j);
            }
          }
          break;
        }
        ghost var before := removed;
        EffortFor(n, k);
        PruneOne(k);
        OneMoreRemoved(before, k);
        forall j | 0 <= j <= k && !removed[j] && (effort != 0 || EffortReaches(n, j + 1))
          ensures !Redundant(binaries, removed, j)
        {
          RedundantMonotone(binaries, before, removed, j);
        }
        k := k + 1;
      }
    }
  }

  lemma EffortFor(n: nat, k: nat)
    requires k < n
    ensures 4 * (k + 1) * n == 4 * k * n + 4 * n
    ensures EffortReaches(n, k + 1) ==> EffortReaches(n, k)
  {
  }

  // ---------------------------------------------------------------------------------------------
  // The graph of the store
  // ---------------------------------------------------------------------------------------------

  function Max(a: nat, b: nat): (m: nat)
    ensures m >= a && m >= b && (m == a || m == b)
  {
    if a >= b then a else b
  }

  predicate EndsBelow(b: Binary, slots: nat) {
    b.first < slots && Neg(b.first) < slots && b.second < slots && Neg(b.second) < slots && b.first != b.second
  }

  function Sources(bs: seq<Binary>): seq<seq<nat>> {
    seq(|bs|, k requires 0 <= k < |bs| => [Neg(bs[k].first), Neg(bs[k].second)])
  }

  /** Where the edge of the clause leads from one of its negated literals. */
  function OtherEnd(b: Binary, from: Lit): Lit {
    if from == Neg(b.first) then b.second else b.first
  }

  function Members(list: seq<Lit>): set<Lit> {
    set l | l in list
  }

  lemma {:induction false} TwoEach(bs: seq<Binary>, k: nat)
    requires k <= |bs|
    ensures Passed(Sources(bs), k) == 2 * k
  {
    if k > 0 {
      TwoEach(bs, k - 1);
    }
  }

  /** How many clauses have been removed. */
  function RemovedCount(removed: seq<bool>): nat {
    if removed == [] then 0
    else RemovedCount(removed[..|removed| - 1]) + if removed[|removed| - 1] then 1 else 0
  }

  lemma {:induction false} NoneRemoved(removed: seq<bool>)
    requires forall k :: 0 <= k < |removed| ==> !removed[k]
    ensures RemovedCount(removed) == 0
  {
    if removed != [] {
      NoneRemoved(removed[..|removed| - 1]);
    }
  }

  lemma {:induction false} OneMoreRemoved(removed: seq<bool>, k: nat)
    requires k < |removed| && !removed[k]
    ensures RemovedCount(removed[k := true]) == RemovedCount(removed) + 1
  {
    var n := |removed| - 1;
    var later := removed[k := true];
    if k < n {
      assert later[..n] == removed[..n][k := true];
      OneMoreRemoved(removed[..n], k);
    } else {
      assert later[..n] == removed[..n];
    }
  }

  /** The effort is certain to last for the first `k` of `n` binary clauses: two searches each, along two edges a
      clause. */
  predicate EffortReaches(n: nat, k: nat) {
    4 * k * n < 4 * n + MINIMUM_EFFORT
  }

  lemma SmallEnough(n: nat)
    requires n <= 128
    ensures EffortReaches(n, n)
  {
    assert n * n <= 128 * n;
  }

  lemma ReachesFewer(n: nat, k: nat, more: nat)
    requires EffortReaches(n, more) && k <= more
    ensures EffortReaches(n, k)
  {
    assert k * n <= more * n;
  }

  lemma SourcesBelow(bs: seq<Binary>, slots: nat)
    requires forall k :: 0 <= k < |bs| ==> EndsBelow(bs[k], slots)
    ensures RowsBelow(Sources(bs), slots)
  {
  }

  /** The binary clauses of the store, each once. */
  ghost predicate ListedFrom(bs: seq<Binary>, db: Database, done: set<Ref>) {
    && (forall k :: 0 <= k < |bs| ==>
        bs[k].ref in done && bs[k].ref in db && db[bs[k].ref].lits == [bs[k].first, bs[k].second])
    && (forall k, j :: 0 <= k < j < |bs| ==> bs[k].ref != bs[j].ref)
    && (forall r :: r in done ==> exists k :: 0 <= k < |bs| && bs[k].ref == r)
  }

  ghost predicate Listed(bs: seq<Binary>, db: Database, garbage: set<Ref>) {
    && (forall k :: 0 <= k < |bs| ==>
        bs[k].ref in db && bs[k].ref !in garbage && db[bs[k].ref].lits == [bs[k].first, bs[k].second])
    && (forall k, j :: 0 <= k < j < |bs| ==> bs[k].ref != bs[j].ref)
    && (forall r :: r in db && r !in garbage && |db[r].lits| == 2 ==> exists k :: 0 <= k < |bs| && bs[k].ref == r)
  }

  /** No binary clause repeats its literal. */
  ghost predicate PairsDiffer(db: Database) {
    forall r :: r in db && |db[r].lits| == 2 ==> db[r].lits[0] != db[r].lits[1]
  }

  function BinaryRefs(db: Database, garbage: set<Ref>): set<Ref> {
    set r | r in db && |db[r].lits| == 2 && r !in garbage
  }

  lemma ListNothing(db: Database)
    ensures ListedFrom([], db, {})
  {
  }

  lemma ListOne(bs: seq<Binary>, db: Database, done: set<Ref>, r: Ref)
    requires ListedFrom(bs, db, done) && r in db && r !in done && |db[r].lits| == 2 && PairsDiffer(db)
    ensures db[r].lits[0] != db[r].lits[1]
    ensures ListedFrom(bs + [Binary(r, db[r].lits[0], db[r].lits[1])], db, done + {r})
  {
    var more := bs + [Binary(r, db[r].lits[0], db[r].lits[1])];
    assert db[r].lits == [db[r].lits[0], db[r].lits[1]];
    forall q | q in done + {r} ensures exists k :: 0 <= k < |more| && more[k].ref == q {
      if q == r {
        assert more[|bs|].ref == q;
      } else {
        var k :| 0 <= k < |bs| && bs[k].ref == q;
        assert more[k].ref == q;
      }
    }
  }

  lemma ListedAll(bs: seq<Binary>, db: Database, garbage: set<Ref>, done: set<Ref>)
    requires ListedFrom(bs, db, done) && done == BinaryRefs(db, garbage)
    ensures Listed(bs, db, garbage)
  {
    forall r | r in db && r !in garbage && |db[r].lits| == 2 ensures exists k :: 0 <= k < |bs| && bs[k].ref == r {
      assert r in BinaryRefs(db, garbage);
    }
  }

  lemma ReachNext(bs: seq<Binary>, removed: seq<bool>, excluded: nat, source: Lit, current: Lit, next: Lit)
    requires current == source || Reach(bs, removed, excluded, source, current)
    requires Edge(bs, removed, excluded, current, next)
    ensures Reach(bs, removed, excluded, source, next)
  {
    if current == source {
      ReachStep(bs, removed, excluded, current, next);
    } else {
      ReachMore(bs, removed, excluded, source, current, next);
    }
  }

  lemma StillQueued(before: seq<Lit>, after: seq<Lit>, l: Lit)
    requires |after| >= |before| && after[..|before|] == before && l in before
    ensures l in after
  {
    assert l in after[..|before|];
  }

  lemma PrefixOfPrefix(a: seq<Lit>, b: seq<Lit>, c: seq<Lit>)
    requires |a| <= |b| <= |c| && b[..|a|] == a && c[..|b|] == b
    ensures c[..|a|] == a
  {
    assert c[..|b|][..|a|] == c[..|a|];
  }

  lemma SettledFrom(bs: seq<Binary>, removed: seq<bool>, excluded: nat, frontier: seq<Lit>, target: Lit, u: Lit,
                    list: seq<nat>)
    requires forall k :: k in list <==> 0 <= k < |bs| && u in Sources(bs)[k]
    requires forall k :: 0 <= k < |bs| ==> bs[k].first != bs[k].second
    requires forall j :: 0 <= j < |list| && list[j] < |bs| && Usable(removed, excluded, list[j]) ==>
               OtherEnd(bs[list[j]], u) in frontier && OtherEnd(bs[list[j]], u) != target
    ensures Settled(bs, removed, excluded, Members(frontier), target, u)
  {
    forall v | Edge(bs, removed, excluded, u, v) ensures v in Members(frontier) && v != target {
      var k :| 0 <= k < |bs| && Usable(removed, excluded, k) && Says(bs[k], u, v);
      assert u in Sources(bs)[k];
      var j :| 0 <= j < |list| && list[j] == k;
      NegNeg(bs[k].first);
      NegNeg(bs[k].second);
      assert OtherEnd(bs[k], u) == v;
    }
  }

  lemma SettledMore(bs: seq<Binary>, removed: seq<bool>, excluded: nat, before: seq<Lit>, after: seq<Lit>, target: Lit,
                    u: Lit)
    requires Settled(bs, removed, excluded, Members(before), target, u)
    requires |after| >= |before| && after[..|before|] == before
    ensures Settled(bs, removed, excluded, Members(after), target, u)
  {
    forall l | l in before ensures l in after {
      StillQueued(before, after, l);
    }
  }

  lemma SettledPrefix(bs: seq<Binary>, removed: seq<bool>, excluded: nat, before: seq<Lit>, after: seq<Lit>,
                      target: Lit, k: nat)
    requires |after| >= |before| >= k && after[..|before|] == before
    requires forall i :: 0 <= i < k ==> Settled(bs, removed, excluded, Members(before), target, before[i])
    ensures forall i :: 0 <= i < k ==> Settled(bs, removed, excluded, Members(after), target, after[i])
  {
    hide Settled;
    forall i | 0 <= i < k ensures Settled(bs, removed, excluded, Members(after), target, after[i]) {
      assert after[i] == after[..|before|][i] == before[i];
      SettledMore(bs, removed, excluded, before, after, target, before[i]);
    }
  }

  lemma AllSettled(bs: seq<Binary>, removed: seq<bool>, excluded: nat, frontier: seq<Lit>, source: Lit, target: Lit)
    requires frontier != [] && frontier[0] == source
    requires forall i :: 0 <= i < |frontier| ==> Settled(bs, removed, excluded, Members(frontier), target, frontier[i])
    ensures !Reach(bs, removed, excluded, source, target)
  {
    forall u | u in Members(frontier) ensures Settled(bs, removed, excluded, Members(frontier), target, u) {
      var i :| 0 <= i < |frontier| && frontier[i] == u;
    }
    NoReach(bs, removed, excluded, Members(frontier), source, target);
  }

  /** A queue without repetition is no longer than the number of literals. */
  lemma QueueBound(frontier: seq<Lit>, slots: nat)
    requires (forall i, j :: 0 <= i < j < |frontier| ==> frontier[i] != frontier[j])
    requires forall i :: 0 <= i < |frontier| ==> frontier[i] < slots
    ensures |frontier| <= slots
  {
    MembersSize(frontier);
    BelowSize(slots);
    assert Members(frontier) <= Below(slots);
    SubsetSize(Members(frontier), Below(slots));
  }

  function Below(n: nat): set<nat> {
    if n == 0 then {} else Below(n - 1) + {n - 1}
  }

  lemma {:induction false} BelowSize(n: nat)
    ensures |Below(n)| == n && forall x: nat :: x in Below(n) <==> x < n
  {
    if n > 0 {
      BelowSize(n - 1);
    }
  }

  lemma {:induction false} MembersSize(list: seq<Lit>)
    requires forall i, j :: 0 <= i < j < |list| ==> list[i] != list[j]
    ensures |Members(list)| == |list|
  {
    if list != [] {
      var front, last := list[..|list| - 1], list[|list| - 1];
      MembersSize(front);
      assert list == front + [last];
      assert Members(list) == Members(front) + {last};
    }
  }

  // ---------------------------------------------------------------------------------------------
  // Clauses the others imply
  // ---------------------------------------------------------------------------------------------

  /** The other clauses still there lead from the negation of one literal to the other one. */
  ghost predicate Redundant(bs: seq<Binary>, removed: seq<bool>, k: nat)
    requires k < |bs|
  {
    Reach(bs, removed, k, Neg(bs[k].first), bs[k].second)
  }

  /** The two searches for one clause have the same answer. */
  lemma RedundantBothWays(bs: seq<Binary>, removed: seq<bool>, k: nat)
    requires k < |bs|
    ensures Redundant(bs, removed, k) <==> Reach(bs, removed, k, Neg(bs[k].second), bs[k].first)
  {
    NegNeg(bs[k].first);
    NegNeg(bs[k].second);
    if Redundant(bs, removed, k) {
      ReachMirror(bs, removed, k, Neg(bs[k].first), bs[k].second);
    }
    if Reach(bs, removed, k, Neg(bs[k].second), bs[k].first) {
      ReachMirror(bs, removed, k, Neg(bs[k].second), bs[k].first);
    }
  }

  lemma RedundantMonotone(bs: seq<Binary>, removed: seq<bool>, later: seq<bool>, j: nat)
    requires j < |bs| && |later| == |removed| && forall k :: 0 <= k < |removed| && removed[k] ==> later[k]
    ensures Redundant(bs, later, j) ==> Redundant(bs, removed, j)
  {
    if Redundant(bs, later, j) {
      ReachMonotone(bs, removed, later, j, Neg(bs[j].first), bs[j].second);
    }
  }

  /** The garbage is the removed clauses. */
  ghost predicate Consistent(bs: seq<Binary>, db: Database, garbage: set<Ref>, removed: seq<bool>) {
    && |removed| == |bs|
    && (forall k :: 0 <= k < |bs| ==> bs[k].ref in db && db[bs[k].ref].lits == [bs[k].first, bs[k].second])
    && (forall k :: 0 <= k < |bs| ==> (removed[k] <==> bs[k].ref in garbage))
    && (forall k, j :: 0 <= k < j < |bs| ==> bs[k].ref != bs[j].ref)
    && (forall g :: g in garbage ==> exists k :: 0 <= k < |bs| && bs[k].ref == g)
  }

  lemma StartConsistent(bs: seq<Binary>, db: Database, removed: seq<bool>)
    requires Listed(bs, db, {}) && |removed| == |bs| && forall k :: 0 <= k < |removed| ==> !removed[k]
    ensures Consistent(bs, db, {}, removed) && NothingLost(bs, removed)
  {
    forall a: Assignment | SatisfiesRest(a, bs, removed, |bs|)
        ensures forall k :: 0 <= k < |bs| ==> SatisfiesPair(a, bs[k]) {
      forall k | 0 <= k < |bs| ensures SatisfiesPair(a, bs[k]) {
        assert Usable(removed, |bs|, k);
      }
    }
  }

  lemma ConsistentAfter(bs: seq<Binary>, db: Database, garbage: set<Ref>, removed: seq<bool>, k: nat)
    requires Consistent(bs, db, garbage, removed) && k < |bs|
    ensures Consistent(bs, db, garbage + {bs[k].ref}, removed[k := true])
  {
  }

  lemma RemovedAreGone(bs: seq<Binary>, db: Database, garbage: set<Ref>, removed: seq<bool>)
    requires Consistent(bs, db, garbage, removed)
    ensures forall k :: 0 <= k < |bs| ==> bs[k].ref in db && (bs[k].ref in garbage <==> removed[k])
  {
  }

  ghost predicate SatisfiesStore(a: Assignment, db: Database) {
    forall r :: r in db ==> Satisfies(a, db[r].lits)
  }

  lemma PairIsClause(a: Assignment, b: Binary)
    ensures SatisfiesPair(a, b) <==> Satisfies(a, [b.first, b.second])
  {
    var c := [b.first, b.second];
    assert c[0] in c && c[1] in c;
    assert forall l :: l in c ==> l == c[0] || l == c[1];
  }

  /** The store without the removed clauses has the models it had with them. */
  lemma FlushedMeans(bs: seq<Binary>, db: Database, garbage: set<Ref>, removed: seq<bool>)
    requires Consistent(bs, db, garbage, removed) && NothingLost(bs, removed)
    ensures var after := map r | r in db && r !in garbage :: db[r];
            && (forall a: Assignment :: SatisfiesStore(a, after) <==> SatisfiesStore(a, db))
            && (forall r :: r in db && r !in after ==> |db[r].lits| == 2)
  {
    var after := map r | r in db && r !in garbage :: db[r];
    forall a: Assignment | SatisfiesStore(a, after) ensures SatisfiesStore(a, db) {
      forall k | 0 <= k < |bs| && Usable(removed, |bs|, k) ensures SatisfiesPair(a, bs[k]) {
        assert bs[k].ref in after;
        PairIsClause(a, bs[k]);
      }
      assert SatisfiesRest(a, bs, removed, |bs|);
      forall r | r in db ensures Satisfies(a, db[r].lits) {
        if r in garbage {
          var k :| 0 <= k < |bs| && bs[k].ref == r;
          PairIsClause(a, bs[k]);
        } else {
          assert r in after;
        }
      }
    }
    forall a: Assignment | SatisfiesStore(a, db) ensures SatisfiesStore(a, after) {
      forall r | r in after ensures Satisfies(a, after[r].lits) {
        assert after[r] == db[r];
      }
    }
  }
}
