/** The graph of binary clauses: paths in it, and what removing an edge with a detour preserves. */
module ImplicationGraph {
  import opened Logic
  import opened SearchState

  datatype Binary = Binary(ref: Ref, first: Lit, second: Lit)

  /** The clause says: if `u` holds, so does `v`. */
  predicate Says(b: Binary, u: Lit, v: Lit) {
    (u == Neg(b.first) && v == b.second) || (u == Neg(b.second) && v == b.first)
  }

  /** Clause `k` is still there and may be used. */
  predicate Usable(removed: seq<bool>, excluded: nat, k: nat) {
    k != excluded && k < |removed| && !removed[k]
  }

  /** Some usable clause leads from `u` to `v`. */
  ghost predicate Edge(bs: seq<Binary>, removed: seq<bool>, excluded: nat, u: Lit, v: Lit) {
    exists k :: 0 <= k < |bs| && Usable(removed, excluded, k) && Says(bs[k], u, v)
  }

  ghost predicate IsPath(bs: seq<Binary>, removed: seq<bool>, excluded: nat, path: seq<Lit>) {
    |path| >= 2 && forall i :: 0 <= i < |path| - 1 ==> Edge(bs, removed, excluded, path[i], path[i + 1])
  }

  ghost predicate PathBetween(bs: seq<Binary>, removed: seq<bool>, excluded: nat, path: seq<Lit>, u: Lit, v: Lit) {
    IsPath(bs, removed, excluded, path) && path[0] == u && path[|path| - 1] == v
  }

  /** A chain of usable clauses leads from `u` to `v`. */
  ghost predicate Reach(bs: seq<Binary>, removed: seq<bool>, excluded: nat, u: Lit, v: Lit) {
    exists path: seq<Lit> :: PathBetween(bs, removed, excluded, path, u, v)
  }

  lemma ReachStep(bs: seq<Binary>, removed: seq<bool>, excluded: nat, u: Lit, v: Lit)
    requires Edge(bs, removed, excluded, u, v)
    ensures Reach(bs, removed, excluded, u, v)
  {
    assert PathBetween(bs, removed, excluded, [u, v], u, v);
  }

  lemma ReachMore(bs: seq<Binary>, removed: seq<bool>, excluded: nat, u: Lit, v: Lit, w: Lit)
    requires Reach(bs, removed, excluded, u, v) && Edge(bs, removed, excluded, v, w)
    ensures Reach(bs, removed, excluded, u, w)
  {
    var path: seq<Lit> :| PathBetween(bs, removed, excluded, path, u, v);
    assert PathBetween(bs, removed, excluded, path + [w], u, w);
  }

  /** The graph is its own mirror image: negating and reversing an edge gives an edge. */
  lemma EdgeMirror(bs: seq<Binary>, removed: seq<bool>, excluded: nat, u: Lit, v: Lit)
    requires Edge(bs, removed, excluded, u, v)
    ensures Edge(bs, removed, excluded, Neg(v), Neg(u))
  {
    var k :| 0 <= k < |bs| && Usable(removed, excluded, k) && Says(bs[k], u, v);
    NegNeg(bs[k].first);
    NegNeg(bs[k].second);
    assert Says(bs[k], Neg(v), Neg(u));
  }

  /** The negations of a path's literals, last one first. */
  function Mirror(path: seq<Lit>): (m: seq<Lit>)
    ensures |m| == |path| && forall i :: 0 <= i < |path| ==> m[i] == Neg(path[|path| - 1 - i])
  {
    seq(|path|, i requires 0 <= i < |path| => Neg(path[|path| - 1 - i]))
  }

  /** One detour exists exactly when the other does. */
  lemma ReachMirror(bs: seq<Binary>, removed: seq<bool>, excluded: nat, u: Lit, v: Lit)
    requires Reach(bs, removed, excluded, u, v)
    ensures Reach(bs, removed, excluded, Neg(v), Neg(u))
  {
    var path: seq<Lit> :| PathBetween(bs, removed, excluded, path, u, v);
    var m := Mirror(path);
    forall i | 0 <= i < |m| - 1 ensures Edge(bs, removed, excluded, m[i], m[i + 1]) {
      var j := |path| - 2 - i;
      assert Edge(bs, removed, excluded, path[j], path[j + 1]);
      EdgeMirror(bs, removed, excluded, path[j], path[j + 1]);
    }
    assert PathBetween(bs, removed, excluded, m, Neg(v), Neg(u));
  }

  /** Fewer clauses give no new paths. */
  lemma ReachMonotone(bs: seq<Binary>, removed: seq<bool>, later: seq<bool>, excluded: nat, u: Lit, v: Lit)
    requires Reach(bs, later, excluded, u, v) && |later| == |removed|
    requires forall k :: 0 <= k < |removed| && removed[k] ==> later[k]
    ensures Reach(bs, removed, excluded, u, v)
  {
    var path: seq<Lit> :| PathBetween(bs, later, excluded, path, u, v);
    forall i | 0 <= i < |path| - 1 ensures Edge(bs, removed, excluded, path[i], path[i + 1]) {
      assert Edge(bs, later, excluded, path[i], path[i + 1]);
      var k :| 0 <= k < |bs| && Usable(later, excluded, k) && Says(bs[k], path[i], path[i + 1]);
      assert Usable(removed, excluded, k);
    }
    assert PathBetween(bs, removed, excluded, path, u, v);
  }

  // ---------------------------------------------------------------------------------------------
  // Breadth-first search
  // ---------------------------------------------------------------------------------------------

  /** Every usable edge out of `u` leads into the set and not to the target. */
  ghost predicate Settled(bs: seq<Binary>, removed: seq<bool>, excluded: nat, found: set<Lit>, target: Lit, u: Lit) {
    forall v :: Edge(bs, removed, excluded, u, v) ==> v in found && v != target
  }

  /** A set closed under the edges does not reach a target no edge of it leads to. */
  lemma {:induction false} ClosedMisses(bs: seq<Binary>, removed: seq<bool>, excluded: nat, found: set<Lit>,
                                        target: Lit, path: seq<Lit>, k: nat)
    requires forall u :: u in found ==> Settled(bs, removed, excluded, found, target, u)
    requires IsPath(bs, removed, excluded, path) && path[0] in found && k < |path|
    ensures path[k] in found && (k > 0 ==> path[k] != target)
  {
    if k > 0 {
      ClosedMisses(bs, removed, excluded, found, target, path, k - 1);
      assert Edge(bs, removed, excluded, path[k - 1], path[k - 1 + 1]);
      assert Settled(bs, removed, excluded, found, target, path[k - 1]);
    }
  }

  lemma NoReach(bs: seq<Binary>, removed: seq<bool>, excluded: nat, found: set<Lit>, source: Lit, target: Lit)
    requires source in found && forall u :: u in found ==> Settled(bs, removed, excluded, found, target, u)
    ensures !Reach(bs, removed, excluded, source, target)
  {
    forall path: seq<Lit> ensures !PathBetween(bs, removed, excluded, path, source, target) {
      if IsPath(bs, removed, excluded, path) && path[0] == source {
        ClosedMisses(bs, removed, excluded, found, target, path, |path| - 1);
      }
    }
  }

  // ---------------------------------------------------------------------------------------------
  // What the clauses mean
  // ---------------------------------------------------------------------------------------------

  ghost predicate SatisfiesPair(a: Assignment, b: Binary) {
    Holds(a, b.first) || Holds(a, b.second)
  }

  /** All clauses still there, except one, are satisfied. */
  ghost predicate SatisfiesRest(a: Assignment, bs: seq<Binary>, removed: seq<bool>, excluded: nat) {
    forall k :: 0 <= k < |bs| && Usable(removed, excluded, k) ==> SatisfiesPair(a, bs[k])
  }

  lemma EdgeHolds(a: Assignment, bs: seq<Binary>, removed: seq<bool>, excluded: nat, u: Lit, v: Lit)
    requires SatisfiesRest(a, bs, removed, excluded) && Edge(bs, removed, excluded, u, v) && Holds(a, u)
    ensures Holds(a, v)
  {
    var k :| 0 <= k < |bs| && Usable(removed, excluded, k) && Says(bs[k], u, v);
    assert SatisfiesPair(a, bs[k]);
    HoldsNeg(a, bs[k].first);
    HoldsNeg(a, bs[k].second);
  }

  lemma {:induction false} PathHolds(a: Assignment, bs: seq<Binary>, removed: seq<bool>, excluded: nat, path: seq<Lit>,
                                     k: nat)
    requires SatisfiesRest(a, bs, removed, excluded) && IsPath(bs, removed, excluded, path) && Holds(a, path[0])
             && k < |path|
    ensures Holds(a, path[k])
  {
    if k > 0 {
      PathHolds(a, bs, removed, excluded, path, k - 1);
      assert Edge(bs, removed, excluded, path[k - 1], path[k - 1 + 1]);
      EdgeHolds(a, bs, removed, excluded, path[k - 1], path[k]);
    }
  }

  /** A clause with a detour follows from the others that are still there. */
  lemma DetourImplies(a: Assignment, bs: seq<Binary>, removed: seq<bool>, k: nat)
    requires k < |bs| && SatisfiesRest(a, bs, removed, k) && Reach(bs, removed, k, Neg(bs[k].first), bs[k].second)
    ensures SatisfiesPair(a, bs[k])
  {
    HoldsNeg(a, bs[k].first);
    var path: seq<Lit> :| PathBetween(bs, removed, k, path, Neg(bs[k].first), bs[k].second);
    if Holds(a, Neg(bs[k].first)) {
      PathHolds(a, bs, removed, k, path, |path| - 1);
    }
  }

  /** Satisfying what is there means satisfying everything that was. */
  ghost predicate NothingLost(bs: seq<Binary>, removed: seq<bool>) {
    forall a: Assignment :: SatisfiesRest(a, bs, removed, |bs|) ==>
        forall k :: 0 <= k < |bs| ==> SatisfiesPair(a, bs[k])
  }

  lemma RemovalLosesNothing(bs: seq<Binary>, removed: seq<bool>, k: nat)
    requires |removed| == |bs| && k < |bs| && NothingLost(bs, removed)
    requires Reach(bs, removed, k, Neg(bs[k].first), bs[k].second)
    ensures NothingLost(bs, removed[k := true])
  {
    var later := removed[k := true];
    forall a: Assignment | SatisfiesRest(a, bs, later, |bs|)
        ensures forall j :: 0 <= j < |bs| ==> SatisfiesPair(a, bs[j]) {
      forall j | 0 <= j < |bs| && Usable(removed, k, j) ensures SatisfiesPair(a, bs[j]) {
        assert Usable(later, |bs|, j);
      }
      DetourImplies(a, bs, removed, k);
      forall j | 0 <= j < |bs| && Usable(removed, |bs|, j) ensures SatisfiesPair(a, bs[j]) {
        assert j != k ==> Usable(removed, k, j);
      }
      assert SatisfiesRest(a, bs, removed, |bs|);
    }
  }
}
