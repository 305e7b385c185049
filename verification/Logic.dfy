/** Literals, clauses, assignments and entailment: the vocabulary every other module is stated in. */
module Logic {

  /** A literal in the packed encoding: twice the variable index, plus one when negated.
      The packed value 0 names no variable and is used as "no literal". */
  type Lit = nat

  type Clause = seq<Lit>

  /** A total assignment, given by the variables that are true. */
  type Assignment = iset<nat>

  const NO_LITERAL: Lit := 0

  function Var(l: Lit): (v: nat)
    ensures 2 * v <= l <= 2 * v + 1
  {
    l / 2
  }

  predicate IsNegated(l: Lit) {
    l % 2 == 1
  }

  function MakeLit(v: nat, negated: bool): (l: Lit)
    ensures Var(l) == v && IsNegated(l) == negated
  {
    2 * v + (if negated then 1 else 0)
  }

  function Neg(l: Lit): (r: Lit)
    ensures Var(r) == Var(l) && r != l && IsNegated(r) != IsNegated(l)
  {
    if IsNegated(l) then l - 1 else l + 1
  }

  lemma NegNeg(l: Lit)
    ensures Neg(Neg(l)) == l
  {
  }

  /** Two literals over one variable are equal or complementary. */
  lemma SameVar(l: Lit, m: Lit)
    requires Var(l) == Var(m)
    ensures l == m || l == Neg(m)
  {
  }

  /** Exclusive or of two packed values, bit by bit. */
  function Xor(a: nat, b: nat): nat
    decreases a + b
  {
    if a == 0 then b
    else if b == 0 then a
    else 2 * Xor(a / 2, b / 2) + (if a % 2 == b % 2 then 0 else 1)
  }

  lemma {:induction false} XorSelf(a: nat)
    ensures Xor(a, a) == 0
    decreases a
  {
    if a != 0 {
      XorSelf(a / 2);
    }
  }

  lemma {:induction false} XorSymmetric(a: nat, b: nat)
    ensures Xor(a, b) == Xor(b, a)
    decreases a + b
  {
    if a != 0 && b != 0 {
      XorSymmetric(a / 2, b / 2);
    }
  }

  lemma {:induction false} XorStep(a: nat, b: nat)
    ensures Xor(a, b) == 2 * Xor(a / 2, b / 2) + (if a % 2 == b % 2 then 0 else 1)
  {
  }

  lemma {:induction false} XorCancels(a: nat, b: nat)
    ensures Xor(Xor(a, b), b) == a
    decreases a + b
  {
    if a == 0 {
      XorSelf(b);
    } else if b != 0 {
      XorCancels(a / 2, b / 2);
      XorStep(a, b);
      XorStep(Xor(a, b), b);
    }
  }

  /** Negation flips the lowest bit. */
  lemma NegIsXor(l: Lit)
    ensures Neg(l) == Xor(l, 1)
  {
    XorStep(l, 1);
    assert Xor(l / 2, 0) == l / 2;
  }

  /** The two watched literals of a clause and one of them determine the other. */
  lemma OtherWatch(first: Lit, second: Lit, known: Lit)
    requires known == first || known == second
    ensures Xor(Xor(first, second), known) == (if known == first then second else first)
  {
    if known == second {
      XorCancels(first, second);
    } else {
      XorSymmetric(first, second);
      XorCancels(second, first);
    }
  }

  ghost predicate Holds(a: Assignment, l: Lit) {
    (Var(l) in a) == !IsNegated(l)
  }

  ghost predicate Satisfies(a: Assignment, c: Clause) {
    exists l :: l in c && Holds(a, l)
  }

  ghost predicate SatisfiesAll(a: Assignment, f: iset<Clause>) {
    forall c :: c in f ==> Satisfies(a, c)
  }

  ghost predicate Entails(f: iset<Clause>, c: Clause) {
    forall a: Assignment :: SatisfiesAll(a, f) ==> Satisfies(a, c)
  }

  ghost predicate Satisfiable(f: iset<Clause>) {
    exists a: Assignment :: SatisfiesAll(a, f)
  }

  lemma HoldsNeg(a: Assignment, l: Lit)
    ensures Holds(a, Neg(l)) <==> !Holds(a, l)
  {
  }

  /** Reordering a clause changes no assignment's verdict on it. */
  lemma SameLiterals(a: Assignment, c: Clause, d: Clause)
    requires multiset(c) == multiset(d)
    ensures Satisfies(a, c) <==> Satisfies(a, d)
  {
    forall l ensures l in c <==> l in d {
      assert l in c <==> l in multiset(c);
      assert l in d <==> l in multiset(d);
    }
  }
}
