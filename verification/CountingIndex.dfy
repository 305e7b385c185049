/** Occurrence lists as two flat arrays, built by counting, prefix sums and a filling pass. */
module CountingIndex {

  /** The rows that hold `slot`, once per occurrence, among the first `k` rows and the first `i` places of row `k`. */
  function OccursUpTo(rows: seq<seq<nat>>, slot: nat, k: nat, i: nat): seq<nat>
    requires k <= |rows| && (if k < |rows| then i <= |rows[k]| else i == 0)
    decreases k, i
  {
    if i > 0 then OccursUpTo(rows, slot, k, i - 1) + (if rows[k][i - 1] == slot then [k] else [])
    else if k > 0 then OccursUpTo(rows, slot, k - 1, |rows[k - 1]|)
    else []
  }

  function Occurrences(rows: seq<seq<nat>>, slot: nat): seq<nat> {
    OccursUpTo(rows, slot, |rows|, 0)
  }

  lemma {:induction false} OccursExactly(rows: seq<seq<nat>>, slot: nat, k: nat, i: nat)
    requires k <= |rows| && (if k < |rows| then i <= |rows[k]| else i == 0)
    ensures forall r :: r in OccursUpTo(rows, slot, k, i) <==>
              (0 <= r < k && slot in rows[r]) || (r == k < |rows| && slot in rows[k][..i])
    decreases k, i
  {
    if i > 0 {
      OccursExactly(rows, slot, k, i - 1);
      assert rows[k][..i] == rows[k][..i - 1] + [rows[k][i - 1]];
    } else if k > 0 {
      OccursExactly(rows, slot, k - 1, |rows[k - 1]|);
      assert rows[k - 1][..|rows[k - 1]|] == rows[k - 1];
    }
  }

  /** A row is listed exactly when it holds the slot. */
  lemma OccurrencesAre(rows: seq<seq<nat>>, slot: nat)
    ensures forall r :: r in Occurrences(rows, slot) <==> 0 <= r < |rows| && slot in rows[r]
  {
    OccursExactly(rows, slot, |rows|, 0);
  }

  /** A row without repetition is listed once. */
  lemma {:induction false} OccursStrictly(rows: seq<seq<nat>>, slot: nat, k: nat, i: nat)
    requires k <= |rows| && (if k < |rows| then i <= |rows[k]| else i == 0)
    requires forall r, a, b :: 0 <= r < |rows| && 0 <= a < b < |rows[r]| ==> rows[r][a] != rows[r][b]
    ensures forall a, b :: 0 <= a < b < |OccursUpTo(rows, slot, k, i)| ==>
              OccursUpTo(rows, slot, k, i)[a] < OccursUpTo(rows, slot, k, i)[b]
    decreases k, i
  {
    if i > 0 {
      OccursStrictly(rows, slot, k, i - 1);
      OccursExactly(rows, slot, k, i - 1);
      var before := OccursUpTo(rows, slot, k, i - 1);
      forall a | 0 <= a < |before| && rows[k][i - 1] == slot ensures before[a] < k {
        assert before[a] in before;
        assert slot !in rows[k][..i - 1];
      }
    } else if k > 0 {
      OccursStrictly(rows, slot, k - 1, |rows[k - 1]|);
    }
  }

  function Sum(counts: seq<nat>, k: nat): nat
    requires k <= |counts|
  {
    if k == 0 then 0 else Sum(counts, k - 1) + counts[k - 1]
  }

  lemma {:induction false} SumBump(counts: seq<nat>, k: nat, at: nat)
    requires k <= |counts| && at < |counts|
    ensures Sum(counts[at := counts[at] + 1], k) == Sum(counts, k) + (if at < k then 1 else 0)
  {
    if k > 0 {
      SumBump(counts, k - 1, at);
    }
  }

  lemma {:induction false} SumZero(counts: seq<nat>, k: nat)
    requires k <= |counts| && forall i :: 0 <= i < |counts| ==> counts[i] == 0
    ensures Sum(counts, k) == 0
  {
    if k > 0 {
      SumZero(counts, k - 1);
    }
  }

  lemma {:induction false} SumOrdered(counts: seq<nat>, a: nat, b: nat)
    requires a <= b <= |counts|
    ensures Sum(counts, a) <= Sum(counts, b)
    decreases b
  {
    if a < b {
      SumOrdered(counts, a, b - 1);
    }
  }

  /** Where in the rows a pass stands. */
  ghost predicate At(rows: seq<seq<nat>>, k: nat, i: nat) {
    k <= |rows| && (if k < |rows| then i <= |rows[k]| else i == 0)
  }

  ghost predicate RowsBelow(rows: seq<seq<nat>>, slots: nat) {
    forall k, i :: 0 <= k < |rows| && 0 <= i < |rows[k]| ==> rows[k][i] < slots
  }

  /** How many places the pass has left behind. */
  function Passed(rows: seq<seq<nat>>, k: nat): nat
    requires k <= |rows|
  {
    if k == 0 then 0 else Passed(rows, k - 1) + |rows[k - 1]|
  }

  ghost predicate Counted(rows: seq<seq<nat>>, counts: seq<nat>, k: nat, i: nat)
    requires At(rows, k, i)
  {
    forall s: nat :: s < |counts| ==> counts[s] == |OccursUpTo(rows, s, k, i)|
  }

  lemma CountedNothing(rows: seq<seq<nat>>, counts: seq<nat>)
    requires forall s :: 0 <= s < |counts| ==> counts[s] == 0
    ensures Counted(rows, counts, 0, 0) && Passed(rows, 0) == 0
  {
  }

  lemma CountedMore(rows: seq<seq<nat>>, counts: seq<nat>, k: nat, i: nat)
    requires k < |rows| && i < |rows[k]| && rows[k][i] < |counts| && Counted(rows, counts, k, i)
    ensures Counted(rows, counts[rows[k][i] := counts[rows[k][i]] + 1], k, i + 1)
  {
  }

  lemma CountedRow(rows: seq<seq<nat>>, counts: seq<nat>, k: nat)
    requires k < |rows| && Counted(rows, counts, k, |rows[k]|)
    ensures Counted(rows, counts, k + 1, 0) && Passed(rows, k + 1) == Passed(rows, k) + |rows[k]|
  {
    assert forall s: nat :: s < |counts| ==> OccursUpTo(rows, s, k + 1, 0) == OccursUpTo(rows, s, k, |rows[k]|);
  }

  /** How often each slot occurs. */
  method CountSlots(rows: seq<seq<nat>>, slots: nat) returns (counts: seq<nat>)
    requires RowsBelow(rows, slots)
    ensures |counts| == slots && Counted(rows, counts, |rows|, 0)
    ensures Sum(counts, slots) == Passed(rows, |rows|)
  {
    hide Counted, Sum, Passed, OccursUpTo;
    counts := seq(slots, _ => 0);
    SumZero(counts, slots);
    CountedNothing(rows, counts);
    var k := 0;
    while k < |rows|
      invariant 0 <= k <= |rows| && |counts| == slots && Counted(rows, counts, k, 0)
      invariant Sum(counts, slots) == Passed(rows, k)
    {
      var i := 0;
      while i < |rows[k]|
        invariant 0 <= i <= |rows[k]| && |counts| == slots && Counted(rows, counts, k, i)
        invariant Sum(counts, slots) == Passed(rows, k) + i
      {
        SumBump(counts, slots, rows[k][i]);
        CountedMore(rows, counts, k, i);
        counts := counts[rows[k][i] := counts[rows[k][i]] + 1];
        i := i + 1;
      }
      CountedRow(rows, counts, k);
      k := k + 1;
    }
  }

  /** Each slot's list begins where the lists of the slots before it end. */
  method PrefixSums(counts: seq<nat>) returns (start: seq<nat>)
    ensures |start| == |counts| + 1 && forall s :: 0 <= s <= |counts| ==> start[s] == Sum(counts, s)
  {
    start := [0];
    var s := 0;
    while s < |counts|
      invariant 0 <= s <= |counts| && |start| == s + 1
      invariant forall t :: 0 <= t <= s ==> start[t] == Sum(counts, t)
    {
      start := start + [start[s] + counts[s]];
      s := s + 1;
    }
  }

  /** The lists are filled as far as the pass has come. */
  ghost predicate Filled(rows: seq<seq<nat>>, counts: seq<nat>, fill: seq<nat>, entries: seq<nat>, k: nat, i: nat)
    requires At(rows, k, i)
  {
    && |fill| == |counts| && |entries| == Sum(counts, |counts|)
    && forall s: nat :: s < |counts| ==> SlotFilled(rows, counts, fill, entries, k, i, s)
  }

  ghost predicate SlotFilled(rows: seq<seq<nat>>, counts: seq<nat>, fill: seq<nat>, entries: seq<nat>, k: nat, i: nat,
                             s: nat)
    requires At(rows, k, i) && s < |counts| == |fill|
  {
    && Sum(counts, s) <= fill[s] <= |entries| && fill[s] == Sum(counts, s) + |OccursUpTo(rows, s, k, i)|
    && entries[Sum(counts, s)..fill[s]] == OccursUpTo(rows, s, k, i)
  }

  lemma {:induction false} OccursGrows(rows: seq<seq<nat>>, s: nat, k: nat, i: nat, k': nat, i': nat)
    requires At(rows, k, i) && At(rows, k', i') && (k < k' || (k == k' && i <= i'))
    ensures |OccursUpTo(rows, s, k, i)| <= |OccursUpTo(rows, s, k', i')|
    decreases k', i'
  {
    if k < k' || i < i' {
      if i' > 0 {
        OccursGrows(rows, s, k, i, k', i' - 1);
      } else {
        OccursGrows(rows, s, k, i, k' - 1, |rows[k' - 1]|);
      }
    }
  }

  /** Writing the next occurrence of one slot disturbs no other list. */
  lemma FillStep(rows: seq<seq<nat>>, counts: seq<nat>, fill: seq<nat>, entries: seq<nat>, k: nat, i: nat)
    requires k < |rows| && i < |rows[k]| && RowsBelow(rows, |counts|) && Counted(rows, counts, |rows|, 0)
    requires Filled(rows, counts, fill, entries, k, i)
    ensures var slot := rows[k][i];
            && slot < |fill| && fill[slot] < |entries|
            && Filled(rows, counts, fill[slot := fill[slot] + 1], entries[fill[slot] := k], k, i + 1)
  {
    var slot := rows[k][i];
    assert SlotFilled(rows, counts, fill, entries, k, i, slot);
    OccursGrows(rows, slot, k, i + 1, |rows|, 0);
    SumOrdered(counts, slot + 1, |counts|);
    var fill', entries', next := fill[slot := fill[slot] + 1], entries[fill[slot] := k], i + 1;
    forall s: nat | s < |counts| ensures SlotFilled(rows, counts, fill', entries', k, next, s) {
      assert SlotFilled(rows, counts, fill, entries, k, i, s);
      OccursGrows(rows, s, k, i, |rows|, 0);
      if s < slot {
        SumOrdered(counts, s + 1, slot);
      } else if slot < s {
        SumOrdered(counts, slot + 1, s);
      }
      if s != slot {
        assert entries'[Sum(counts, s)..fill'[s]] == entries[Sum(counts, s)..fill[s]];
      } else {
        assert entries'[Sum(counts, s)..fill'[s]] == entries[Sum(counts, s)..fill[s]] + [k];
      }
    }
  }

  lemma FillStart(rows: seq<seq<nat>>, counts: seq<nat>, fill: seq<nat>, entries: seq<nat>)
    requires |fill| == |counts| && |entries| == Sum(counts, |counts|)
    requires forall s: nat :: s < |counts| ==> fill[s] == Sum(counts, s)
    ensures Filled(rows, counts, fill, entries, 0, 0)
  {
    forall s: nat | s < |counts| ensures SlotFilled(rows, counts, fill, entries, 0, 0, s) {
      SumOrdered(counts, s, |counts|);
    }
  }

  lemma NextRow(rows: seq<seq<nat>>, counts: seq<nat>, fill: seq<nat>, entries: seq<nat>, k: nat)
    requires k < |rows| && Filled(rows, counts, fill, entries, k, |rows[k]|)
    ensures Filled(rows, counts, fill, entries, k + 1, 0)
  {
    var next := k + 1;
    forall s: nat | s < |counts| ensures SlotFilled(rows, counts, fill, entries, next, 0, s) {
      assert SlotFilled(rows, counts, fill, entries, k, |rows[k]|, s);
      assert OccursUpTo(rows, s, k + 1, 0) == OccursUpTo(rows, s, k, |rows[k]|);
    }
  }

  ghost predicate ListIs(rows: seq<seq<nat>>, start: seq<nat>, entries: seq<nat>, s: nat) {
    && s + 1 < |start| && start[s] <= start[s + 1] <= |entries|
    && entries[start[s]..start[s + 1]] == Occurrences(rows, s)
  }

  /** Fills the lists row by row. */
  method FillEntries(rows: seq<seq<nat>>, counts: seq<nat>, start: seq<nat>) returns (entries: seq<nat>)
    requires RowsBelow(rows, |counts|) && Counted(rows, counts, |rows|, 0)
    requires |start| == |counts| + 1 && forall s :: 0 <= s <= |counts| ==> start[s] == Sum(counts, s)
    ensures |entries| == start[|counts|]
    ensures forall s: nat :: s < |counts| ==> ListIs(rows, start, entries, s)
  {
    entries := seq(start[|counts|], _ => 0);
    var fill := start[..|counts|];
    FillStart(rows, counts, fill, entries);
    var k := 0;
    while k < |rows|
      invariant 0 <= k <= |rows| && Filled(rows, counts, fill, entries, k, 0)
    {
      var i := 0;
      while i < |rows[k]|
        invariant 0 <= i <= |rows[k]| && Filled(rows, counts, fill, entries, k, i)
      {
        FillStep(rows, counts, fill, entries, k, i);
        var slot := rows[k][i];
        entries := entries[fill[slot] := k];
        fill := fill[slot := fill[slot] + 1];
        i := i + 1;
      }
      NextRow(rows, counts, fill, entries, k);
      k := k + 1;
    }
    forall s: nat | s < |counts| ensures ListIs(rows, start, entries, s) {
      assert SlotFilled(rows, counts, fill, entries, |rows|, 0, s);
    }
  }

  /** The lists of all slots: list `s` is `entries[start[s]..start[s + 1]]`. */
  ghost predicate IndexOf(rows: seq<seq<nat>>, slots: nat, start: seq<nat>, entries: seq<nat>) {
    && |start| == slots + 1 && start[0] == 0 && start[slots] == |entries|
    && forall s: nat :: s < slots ==> ListIs(rows, start, entries, s)
  }

  /** How many entries the lists of the slots named hold. */
  ghost function ListSum(rows: seq<seq<nat>>, slots: seq<nat>): nat {
    if slots == [] then 0
    else ListSum(rows, slots[..|slots| - 1]) + |Occurrences(rows, slots[|slots| - 1])|
  }

  lemma ListSumMore(rows: seq<seq<nat>>, slots: seq<nat>, s: nat)
    ensures ListSum(rows, slots + [s]) == ListSum(rows, slots) + |Occurrences(rows, s)|
  {
    assert (slots + [s])[..|slots|] == slots;
  }

  /** The lists of different slots lie apart, so together they hold no more than there is. */
  lemma {:induction false} ListSumBound(rows: seq<seq<nat>>, n: nat, start: seq<nat>, entries: seq<nat>,
                                        slots: seq<nat>, k: nat)
    requires IndexOf(rows, n, start, entries) && k <= n
    requires forall i :: 0 <= i < |slots| ==> slots[i] < k
    requires forall i, j :: 0 <= i < j < |slots| ==> slots[i] != slots[j]
    ensures ListSum(rows, slots) <= start[k]
    decreases k
  {
    hide Occurrences, OccursUpTo;
    if k > 0 {
      assert ListIs(rows, start, entries, k - 1);
      if k - 1 in slots {
        var i :| 0 <= i < |slots| && slots[i] == k - 1;
        Without(slots, i, k);
        ListSumBound(rows, n, start, entries, slots[..i] + slots[i + 1..], k - 1);
        ListSumWithout(rows, slots, i);
      } else {
        ListSumBound(rows, n, start, entries, slots, k - 1);
      }
    } else {
      assert slots == [];
    }
  }

  lemma Without(slots: seq<nat>, i: nat, k: nat)
    requires i < |slots| && slots[i] == k - 1 && forall j :: 0 <= j < |slots| ==> slots[j] < k
    requires forall a, b :: 0 <= a < b < |slots| ==> slots[a] != slots[b]
    ensures var rest := slots[..i] + slots[i + 1..];
            && (forall j :: 0 <= j < |rest| ==> rest[j] < k - 1)
            && (forall a, b :: 0 <= a < b < |rest| ==> rest[a] != rest[b])
  {
    var rest := slots[..i] + slots[i + 1..];
    assert forall j :: 0 <= j < |rest| ==> rest[j] == slots[if j < i then j else j + 1];
  }

  lemma {:induction false} ListSumWithout(rows: seq<seq<nat>>, slots: seq<nat>, i: nat)
    requires i < |slots|
    ensures ListSum(rows, slots) == ListSum(rows, slots[..i] + slots[i + 1..]) + |Occurrences(rows, slots[i])|
  {
    hide Occurrences;
    var n := |slots| - 1;
    if i == n {
      assert slots[..i] + slots[i + 1..] == slots[..n];
    } else {
      var front := slots[..n];
      ListSumWithout(rows, front, i);
      assert slots[..i] + slots[i + 1..] == (front[..i] + front[i + 1..]) + [slots[n]];
      ListSumMore(rows, front[..i] + front[i + 1..], slots[n]);
    }
  }

  method BuildIndex(rows: seq<seq<nat>>, slots: nat) returns (start: seq<nat>, entries: seq<nat>)
    requires RowsBelow(rows, slots)
    ensures IndexOf(rows, slots, start, entries) && |entries| == Passed(rows, |rows|)
  {
    var counts := CountSlots(rows, slots);
    start := PrefixSums(counts);
    entries := FillEntries(rows, counts, start);
  }
}
