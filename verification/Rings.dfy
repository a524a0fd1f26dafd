/** Commutative rings, with powers and finite sums of their elements. */
module Rings {

  datatype Ring<!T> = Ring(zero: T, one: T, add: (T, T) -> T, neg: T -> T, mul: (T, T) -> T)

  function Add<T>(ring: Ring<T>, a: T, b: T): T {
    ring.add(a, b)
  }

  function Neg<T>(ring: Ring<T>, a: T): T {
    ring.neg(a)
  }

  function Mul<T>(ring: Ring<T>, a: T, b: T): T {
    ring.mul(a, b)
  }

  /** A commutative ring. */
  ghost predicate Laws<T(!new)>(ring: Ring<T>) {
    forall a, b, c :: LawsFor(ring, a, b, c)
  }

  ghost predicate LawsFor<T(!new)>(ring: Ring<T>, a: T, b: T, c: T) {
    && Add(ring, Add(ring, a, b), c) == Add(ring, a, Add(ring, b, c))
    && Add(ring, a, b) == Add(ring, b, a)
    && Add(ring, a, ring.zero) == a
    && Add(ring, a, Neg(ring, a)) == ring.zero
    && Mul(ring, Mul(ring, a, b), c) == Mul(ring, a, Mul(ring, b, c))
    && Mul(ring, a, b) == Mul(ring, b, a)
    && Mul(ring, a, ring.one) == a
    && Mul(ring, Add(ring, a, b), c) == Add(ring, Mul(ring, a, c), Mul(ring, b, c))
  }

  lemma AddAssoc<T(!new)>(ring: Ring<T>, a: T, b: T, c: T)
    requires Laws(ring)
    ensures Add(ring, Add(ring, a, b), c) == Add(ring, a, Add(ring, b, c))
  {
    assert LawsFor(ring, a, b, c);
  }

  lemma AddComm<T(!new)>(ring: Ring<T>, a: T, b: T)
    requires Laws(ring)
    ensures Add(ring, a, b) == Add(ring, b, a)
  {
    assert LawsFor(ring, a, b, a);
  }

  lemma AddZero<T(!new)>(ring: Ring<T>, a: T)
    requires Laws(ring)
    ensures Add(ring, a, ring.zero) == a && Add(ring, ring.zero, a) == a
  {
    assert LawsFor(ring, a, ring.zero, a);
  }

  lemma MulComm<T(!new)>(ring: Ring<T>, a: T, b: T)
    requires Laws(ring)
    ensures Mul(ring, a, b) == Mul(ring, b, a)
  {
    assert LawsFor(ring, a, b, a);
  }

  lemma MulAssoc<T(!new)>(ring: Ring<T>, a: T, b: T, c: T)
    requires Laws(ring)
    ensures Mul(ring, Mul(ring, a, b), c) == Mul(ring, a, Mul(ring, b, c))
  {
    assert LawsFor(ring, a, b, c);
  }

  lemma Distributes<T(!new)>(ring: Ring<T>, a: T, b: T, c: T)
    requires Laws(ring)
    ensures Mul(ring, Add(ring, a, b), c) == Add(ring, Mul(ring, a, c), Mul(ring, b, c))
  {
    assert LawsFor(ring, a, b, c);
  }

  /** Adding the negative of an element takes it away again. */
  lemma Cancels<T(!new)>(ring: Ring<T>, a: T)
    requires Laws(ring)
    ensures Add(ring, a, Neg(ring, a)) == ring.zero
  {
    assert LawsFor(ring, a, a, a);
  }

  /** An element that adds nothing to some element is zero. */
  lemma ZeroIsUnique<T(!new)>(ring: Ring<T>, a: T, x: T)
    requires Laws(ring) && Add(ring, a, x) == a
    ensures x == ring.zero
  {
    hide Laws;
    var n := Neg(ring, a);
    AddComm(ring, n, a);
    Cancels(ring, a);
    AddAssoc(ring, n, a, x);
    AddZero(ring, x);
  }

  lemma MulZero<T(!new)>(ring: Ring<T>, a: T)
    requires Laws(ring)
    ensures Mul(ring, ring.zero, a) == ring.zero
  {
    hide Laws;
    AddZero(ring, ring.zero);
    Distributes(ring, ring.zero, ring.zero, a);
    ZeroIsUnique(ring, Mul(ring, ring.zero, a), Mul(ring, ring.zero, a));
  }

  lemma MulOne<T(!new)>(ring: Ring<T>, a: T)
    requires Laws(ring)
    ensures Mul(ring, a, ring.one) == a && Mul(ring, ring.one, a) == a && Mul(ring, ring.zero, a) == ring.zero
  {
    hide Laws;
    UnitLaw(ring, a);
    MulComm(ring, a, ring.one);
    MulZero(ring, a);
  }

  lemma UnitLaw<T(!new)>(ring: Ring<T>, a: T)
    requires Laws(ring)
    ensures Mul(ring, a, ring.one) == a
  {
    assert LawsFor(ring, a, a, a);
  }

  /** A ring without zero divisors. */
  ghost predicate Domain<T(!new)>(ring: Ring<T>) {
    Laws(ring) && forall a, b :: NoDivisorsOf(ring, a, b)
  }

  ghost predicate NoDivisorsOf<T(!new)>(ring: Ring<T>, a: T, b: T) {
    Mul(ring, a, b) == ring.zero ==> a == ring.zero || b == ring.zero
  }

  lemma CancelLeft<T(!new)>(ring: Ring<T>, a: T, x: T, y: T)
    requires Laws(ring) && Add(ring, a, x) == Add(ring, a, y)
    ensures x == y
  {
    hide Laws;
    var n := Neg(ring, a);
    AddComm(ring, n, a);
    Cancels(ring, a);
    AddAssoc(ring, n, a, x);
    AddAssoc(ring, n, a, y);
    AddZero(ring, x);
    AddZero(ring, y);
  }

  lemma DomainLaws<T(!new)>(ring: Ring<T>)
    requires Domain(ring)
    ensures Laws(ring)
  {
    hide Laws;
  }

  lemma NoDivisors<T(!new)>(ring: Ring<T>, a: T, b: T)
    requires Domain(ring) && Mul(ring, a, b) == ring.zero
    ensures a == ring.zero || b == ring.zero
  {
    hide Laws, Mul;
    assert NoDivisorsOf(ring, a, b);
  }

  /** Only zero is kept by a factor other than one. */
  lemma FixedIsZero<T(!new)>(ring: Ring<T>, r: T, s: T)
    requires Domain(ring) && r != ring.one && Mul(ring, r, s) == s
    ensures s == ring.zero
  {
    hide Laws, Domain, Add, Mul, Neg;
    DomainLaws(ring);
    var n := Neg(ring, ring.one);
    var d := Add(ring, r, n);
    Distributes(ring, r, n, s);
    Distributes(ring, ring.one, n, s);
    Cancels(ring, ring.one);
    MulOne(ring, s);
    NoDivisors(ring, d, s);
    if d == ring.zero {
      AddAssoc(ring, r, n, ring.one);
      AddComm(ring, n, ring.one);
      AddZero(ring, r);
      AddZero(ring, ring.one);
    }
  }

  function Pow<T>(ring: Ring<T>, w: T, n: nat): T {
    if n == 0 then ring.one else Mul(ring, Pow(ring, w, n - 1), w)
  }

  lemma {:induction false} PowSum<T(!new)>(ring: Ring<T>, w: T, a: nat, b: nat)
    requires Laws(ring)
    ensures Pow(ring, w, a + b) == Mul(ring, Pow(ring, w, a), Pow(ring, w, b))
  {
    hide Laws, Mul;
    if b == 0 {
      MulOne(ring, Pow(ring, w, a));
    } else {
      PowSum(ring, w, a, b - 1);
      MulAssoc(ring, Pow(ring, w, a), Pow(ring, w, b - 1), w);
      assert a + b - 1 == a + (b - 1);
    }
  }

  lemma {:induction false} PowProduct<T(!new)>(ring: Ring<T>, w: T, a: nat, b: nat)
    requires Laws(ring)
    ensures Pow(ring, Pow(ring, w, a), b) == Pow(ring, w, a * b)
  {
    hide Laws, Mul;
    if b > 0 {
      PowProduct(ring, w, a, b - 1);
      PowSum(ring, w, a * (b - 1), a);
      assert a * (b - 1) + a == a * b;
    }
  }

  lemma {:induction false} PowOne<T(!new)>(ring: Ring<T>, n: nat)
    requires Laws(ring)
    ensures Pow(ring, ring.one, n) == ring.one
  {
    hide Laws, Mul;
    if n > 0 {
      PowOne(ring, n - 1);
      MulOne(ring, ring.one);
    }
  }

  /** Exponents of a root of unity count modulo its order. */
  lemma PowPeriod<T(!new)>(ring: Ring<T>, w: T, n: nat, k: nat, j: nat)
    requires Laws(ring)
    requires Pow(ring, w, n) == ring.one
    ensures Pow(ring, w, k + n * j) == Pow(ring, w, k)
  {
    hide Laws, Mul;
    PowProduct(ring, w, n, j);
    PowOne(ring, j);
    PowSum(ring, w, k, n * j);
    MulOne(ring, Pow(ring, w, k));
  }

  lemma PowMod<T(!new)>(ring: Ring<T>, w: T, n: nat, k: nat)
    requires Laws(ring)
    requires n > 0 && Pow(ring, w, n) == ring.one
    ensures Pow(ring, w, k % n) == Pow(ring, w, k)
  {
    hide Laws, Mul, Pow;
    var q, r := k / n, k % n;
    assert k == n * q + r;
    PowPeriod(ring, w, n, r, q);
  }

  function Sum<T>(ring: Ring<T>, f: nat -> T, n: nat): T {
    if n == 0 then ring.zero else Add(ring, Sum(ring, f, n - 1), f(n - 1))
  }

  lemma {:induction false} SumSame<T(!new)>(ring: Ring<T>, f: nat -> T, g: nat -> T, n: nat)
    requires forall i: nat :: i < n ==> f(i) == g(i)
    ensures Sum(ring, f, n) == Sum(ring, g, n)
  {
    if n > 0 {
      SumSame(ring, f, g, n - 1);
    }
  }

  function Scaled<T>(ring: Ring<T>, f: nat -> T, c: T): nat -> T {
    (i: nat) => Mul(ring, f(i), c)
  }

  lemma {:induction false} SumScale<T(!new)>(ring: Ring<T>, f: nat -> T, c: T, n: nat)
    requires Laws(ring)
    ensures Sum(ring, Scaled(ring, f, c), n) == Mul(ring, Sum(ring, f, n), c)
  {
    hide Laws, Add, Mul;
    if n == 0 {
      MulOne(ring, c);
    } else {
      SumScale(ring, f, c, n - 1);
      Distributes(ring, Sum(ring, f, n - 1), f(n - 1), c);
    }
  }

  function Plus<T>(ring: Ring<T>, f: nat -> T, g: nat -> T): nat -> T {
    (i: nat) => Add(ring, f(i), g(i))
  }

  lemma AddSwap<T(!new)>(ring: Ring<T>, a: T, b: T, x: T, y: T)
    requires Laws(ring)
    ensures Add(ring, Add(ring, a, x), Add(ring, b, y)) == Add(ring, Add(ring, a, b), Add(ring, x, y))
  {
    hide Laws;
    AddAssoc(ring, a, x, Add(ring, b, y));
    AddAssoc(ring, x, b, y);
    AddComm(ring, x, b);
    AddAssoc(ring, b, x, y);
    AddAssoc(ring, a, b, Add(ring, x, y));
  }

  lemma {:induction false} SumPlus<T(!new)>(ring: Ring<T>, f: nat -> T, g: nat -> T, n: nat)
    requires Laws(ring)
    ensures Sum(ring, Plus(ring, f, g), n) == Add(ring, Sum(ring, f, n), Sum(ring, g, n))
  {
    hide Laws, Add;
    if n == 0 {
      AddZero(ring, ring.zero);
    } else {
      SumPlus(ring, f, g, n - 1);
      AddSwap(ring, Sum(ring, f, n - 1), Sum(ring, g, n - 1), f(n - 1), g(n - 1));
    }
  }

  function Shifted<T>(f: nat -> T, m: nat): nat -> T {
    (i: nat) => f(m + i)
  }

  lemma {:induction false} SumAppend<T(!new)>(ring: Ring<T>, f: nat -> T, m: nat, n: nat)
    requires Laws(ring)
    ensures Sum(ring, f, m + n) == Add(ring, Sum(ring, f, m), Sum(ring, Shifted(f, m), n))
  {
    hide Laws, Add;
    if n == 0 {
      AddZero(ring, Sum(ring, f, m));
    } else {
      SumAppend(ring, f, m, n - 1);
      AddAssoc(ring, Sum(ring, f, m), Sum(ring, Shifted(f, m), n - 1), f(m + n - 1));
      assert m + n - 1 == m + (n - 1);
    }
  }

  /** The terms whose index leaves the remainder q modulo p. */
  function Column<T>(g: nat -> T, p: nat, q: nat): nat -> T {
    (j: nat) => g(q + p * j)
  }

  function ColumnSums<T>(ring: Ring<T>, g: nat -> T, p: nat, m: nat): nat -> T {
    (q: nat) => Sum(ring, Column(g, p, q), m)
  }

  /** A sum over p * m terms may be taken column by column. */
  lemma {:induction false} SumByColumns<T(!new)>(ring: Ring<T>, g: nat -> T, p: nat, m: nat)
    requires Laws(ring)
    ensures Sum(ring, ColumnSums(ring, g, p, m), p) == Sum(ring, g, p * m)
  {
    hide Laws, Add;
    if m == 0 {
      SumZero(ring, ColumnSums(ring, g, p, 0), p);
    } else {
      var last := Shifted(g, p * (m - 1));
      SumByColumns(ring, g, p, m - 1);
      SumAppend(ring, g, p * (m - 1), p);
      SumPlus(ring, ColumnSums(ring, g, p, m - 1), last, p);
      assert p * (m - 1) + p == p * m;
      forall q: nat
        ensures ColumnSums(ring, g, p, m)(q) == Plus(ring, ColumnSums(ring, g, p, m - 1), last)(q)
      {
        assert q + p * (m - 1) == p * (m - 1) + q;
      }
      SumSame(ring, ColumnSums(ring, g, p, m), Plus(ring, ColumnSums(ring, g, p, m - 1), last), p);
    }
  }

  lemma {:induction false} SumZero<T(!new)>(ring: Ring<T>, f: nat -> T, n: nat)
    requires Laws(ring)
    requires forall i: nat :: i < n ==> f(i) == ring.zero
    ensures Sum(ring, f, n) == ring.zero
  {
    hide Laws, Add;
    if n > 0 {
      SumZero(ring, f, n - 1);
      AddZero(ring, ring.zero);
    }
  }

  lemma {:induction false} PowOfProduct<T(!new)>(ring: Ring<T>, a: T, b: T, n: nat)
    requires Laws(ring)
    ensures Pow(ring, Mul(ring, a, b), n) == Mul(ring, Pow(ring, a, n), Pow(ring, b, n))
  {
    hide Laws, Mul;
    if n == 0 {
      MulOne(ring, ring.one);
    } else {
      PowOfProduct(ring, a, b, n - 1);
      MulSwap(ring, Pow(ring, a, n - 1), Pow(ring, b, n - 1), a, b);
    }
  }

  lemma MulSwap<T(!new)>(ring: Ring<T>, a: T, b: T, c: T, d: T)
    requires Laws(ring)
    ensures Mul(ring, Mul(ring, a, b), Mul(ring, c, d)) == Mul(ring, Mul(ring, a, c), Mul(ring, b, d))
  {
    hide Laws, Mul;
    MulAssoc(ring, a, b, Mul(ring, c, d));
    MulAssoc(ring, b, c, d);
    MulComm(ring, b, c);
    MulAssoc(ring, c, b, d);
    MulAssoc(ring, a, c, Mul(ring, b, d));
  }

  lemma PowZero<T>(ring: Ring<T>, w: T)
    ensures Pow(ring, w, 0) == ring.one
  {
  }
}
