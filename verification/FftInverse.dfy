/** In a ring without zero divisors the transform with the inverse root undoes the transform, up to the
    factor nfft. */
module FftInverse {
  import opened Rings
  import opened DftTheory
  import opened Fft

  /** Terms with two indices, summed over the first index. */
  function RowSums<T>(ring: Ring<T>, g: (nat, nat) -> T, n: nat): nat -> T {
    (k: nat) => Sum(ring, RowOf(g, k), n)
  }

  function RowOf<T>(g: (nat, nat) -> T, k: nat): nat -> T {
    (j: nat) => g(j, k)
  }

  function Flipped<T>(g: (nat, nat) -> T): (nat, nat) -> T {
    (j: nat, k: nat) => g(k, j)
  }

  lemma {:induction false} SumsSwap<T(!new)>(ring: Ring<T>, g: (nat, nat) -> T, n: nat, m: nat)
    requires Laws(ring)
    ensures Sum(ring, RowSums(ring, g, n), m) == Sum(ring, RowSums(ring, Flipped(g), m), n)
  {
    hide Laws, Add;
    if m == 0 {
      SumZero(ring, RowSums(ring, Flipped(g), 0), n);
    } else {
      SumsSwap(ring, g, n, m - 1);
      SumPlus(ring, RowSums(ring, Flipped(g), m - 1), RowOf(g, m - 1), n);
      SumSame(ring, RowSums(ring, Flipped(g), m), Plus(ring, RowSums(ring, Flipped(g), m - 1), RowOf(g, m - 1)), n);
    }
  }

  function Powers<T>(ring: Ring<T>, r: T): nat -> T {
    (k: nat) => Pow(ring, r, k)
  }

  /** The sum of n ones. */
  function Count<T>(ring: Ring<T>, n: nat): T {
    if n == 0 then ring.zero else Add(ring, Count(ring, n - 1), ring.one)
  }

  /** A sum of powers, times the base, telescopes. */
  lemma {:induction false} Telescopes<T(!new)>(ring: Ring<T>, r: T, n: nat)
    requires Laws(ring)
    ensures Add(ring, ring.one, Mul(ring, Sum(ring, Powers(ring, r), n), r))
         == Add(ring, Sum(ring, Powers(ring, r), n), Pow(ring, r, n))
  {
    hide Laws, Mul, Add;
    if n == 0 {
      MulOne(ring, r);
      AddZero(ring, ring.one);
    } else {
      var s, p := Sum(ring, Powers(ring, r), n - 1), Pow(ring, r, n - 1);
      Telescopes(ring, r, n - 1);
      Distributes(ring, s, p, r);
      AddAssoc(ring, ring.one, Mul(ring, s, r), Mul(ring, p, r));
    }
  }

  /** The powers of a root of unity other than 1 cancel out. */
  lemma PowersCancel<T(!new)>(ring: Ring<T>, r: T, n: nat)
    requires Domain(ring) && Pow(ring, r, n) == ring.one && r != ring.one
    ensures Sum(ring, Powers(ring, r), n) == ring.zero
  {
    hide Laws, Domain, Mul, Sum, Pow;
    DomainLaws(ring);
    var s := Sum(ring, Powers(ring, r), n);
    Telescopes(ring, r, n);
    AddComm(ring, s, ring.one);
    CancelLeft(ring, ring.one, Mul(ring, s, r), s);
    MulComm(ring, s, r);
    FixedIsZero(ring, r, s);
  }

  lemma {:induction false} PowersOfOne<T(!new)>(ring: Ring<T>, n: nat)
    requires Laws(ring)
    ensures Sum(ring, Powers(ring, ring.one), n) == Count(ring, n)
  {
    hide Laws, Pow;
    if n > 0 {
      PowersOfOne(ring, n - 1);
      PowOne(ring, n - 1);
    }
  }

  /** w is a root of unity of order exactly n. */
  ghost predicate Primitive<T(!new)>(ring: Ring<T>, w: T, n: nat) {
    n > 0 && Pow(ring, w, n) == ring.one && forall j :: 0 < j < n ==> Pow(ring, w, j) != ring.one
  }

  /** The ratio of the powers of index j and l. */
  function Ratio<T>(ring: Ring<T>, w: T, wi: T, j: nat, l: nat): T {
    Mul(ring, Pow(ring, w, j), Pow(ring, wi, l))
  }

  lemma InversePower<T(!new)>(ring: Ring<T>, w: T, wi: T, d: nat)
    requires Laws(ring)
    requires Mul(ring, w, wi) == ring.one
    ensures Mul(ring, Pow(ring, w, d), Pow(ring, wi, d)) == ring.one
  {
    hide Laws, Mul, Pow;
    PowOfProduct(ring, w, wi, d);
    PowOne(ring, d);
  }

  lemma RatioAbove<T(!new)>(ring: Ring<T>, w: T, wi: T, j: nat, l: nat)
    requires Laws(ring)
    requires Mul(ring, w, wi) == ring.one && l <= j
    ensures Ratio(ring, w, wi, j, l) == Pow(ring, w, j - l)
  {
    hide Laws, Mul, Pow;
    PowSum(ring, w, j - l, l);
    MulAssoc(ring, Pow(ring, w, j - l), Pow(ring, w, l), Pow(ring, wi, l));
    InversePower(ring, w, wi, l);
    MulOne(ring, Pow(ring, w, j - l));
  }

  lemma RatioBelow<T(!new)>(ring: Ring<T>, w: T, wi: T, j: nat, l: nat)
    requires Laws(ring)
    requires Mul(ring, w, wi) == ring.one && j <= l
    ensures Ratio(ring, w, wi, j, l) == Pow(ring, wi, l - j)
  {
    hide Laws, Mul, Pow;
    MulComm(ring, w, wi);
    RatioAbove(ring, wi, w, l, j);
    MulComm(ring, Pow(ring, w, j), Pow(ring, wi, l));
  }

  lemma InverseOrder<T(!new)>(ring: Ring<T>, w: T, wi: T, n: nat, d: nat)
    requires Laws(ring)
    requires Mul(ring, w, wi) == ring.one && Primitive(ring, w, n) && 0 < d < n
    ensures Pow(ring, wi, d) != ring.one
  {
    hide Laws, Mul, Pow;
    InversePower(ring, w, wi, d);
    MulOne(ring, Pow(ring, w, d));
  }

  lemma RatioIsOne<T(!new)>(ring: Ring<T>, w: T, wi: T, n: nat, j: nat, l: nat)
    requires Laws(ring)
    requires Mul(ring, w, wi) == ring.one && Primitive(ring, w, n) && j < n && l < n
    ensures Ratio(ring, w, wi, j, l) == ring.one <==> j == l
    ensures Pow(ring, Ratio(ring, w, wi, j, l), n) == ring.one
  {
    hide Laws, Mul, Pow;
    InversePower(ring, w, wi, n);
    MulOne(ring, Pow(ring, wi, n));
    if j > l {
      RatioAbove(ring, w, wi, j, l);
      PowOfPow(ring, w, j - l, n);
    } else {
      RatioBelow(ring, w, wi, j, l);
      PowOfPow(ring, wi, l - j, n);
      if j < l {
        InverseOrder(ring, w, wi, n, l - j);
      } else {
        PowZero(ring, wi);
      }
    }
  }

  lemma PowOfPow<T(!new)>(ring: Ring<T>, w: T, d: nat, n: nat)
    requires Laws(ring)
    requires Pow(ring, w, n) == ring.one
    ensures Pow(ring, Pow(ring, w, d), n) == ring.one
  {
    hide Laws, Mul, Pow;
    PowProduct(ring, w, d, n);
    PowProduct(ring, w, n, d);
    PowOne(ring, d);
    assert d * n == n * d;
  }

  /** The transform as a function of its output index. */
  function Outputs<T>(ring: Ring<T>, x: nat -> T, w: T, n: nat): nat -> T {
    (k: nat) => Dft(ring, x, w, n, k)
  }

  /** The term of input j and middle index k in output l of the two transforms. */
  function DoubleTerm<T>(ring: Ring<T>, x: nat -> T, w: T, wi: T, l: nat): (nat, nat) -> T {
    (j: nat, k: nat) => Mul(ring, Mul(ring, x(j), Pow(ring, w, Prod(j, k))), Pow(ring, wi, Prod(k, l)))
  }

  lemma OuterTerm<T(!new)>(ring: Ring<T>, x: nat -> T, w: T, wi: T, n: nat, l: nat, k: nat)
    requires Laws(ring)
    ensures DftTerm(ring, Outputs(ring, x, w, n), wi, l)(k) == RowSums(ring, DoubleTerm(ring, x, w, wi, l), n)(k)
  {
    hide Laws, Mul, Pow, Prod;
    var f, c := DftTerm(ring, x, w, k), Pow(ring, wi, Prod(k, l));
    SumScale(ring, f, c, n);
    SumSame(ring, Scaled(ring, f, c), RowOf(DoubleTerm(ring, x, w, wi, l), k), n);
  }

  lemma InnerTerm<T(!new)>(ring: Ring<T>, x: nat -> T, w: T, wi: T, l: nat, j: nat, k: nat)
    requires Laws(ring)
    ensures DoubleTerm(ring, x, w, wi, l)(j, k) == Scaled(ring, Powers(ring, Ratio(ring, w, wi, j, l)), x(j))(k)
  {
    hide Laws, Mul, Pow;
    assert Prod(k, l) == Prod(l, k);
    PowTwice(ring, w, j, k);
    PowTwice(ring, wi, l, k);
    PowOfProduct(ring, Pow(ring, w, j), Pow(ring, wi, l), k);
    MulAssoc(ring, x(j), Pow(ring, w, Prod(j, k)), Pow(ring, wi, Prod(l, k)));
    MulComm(ring, x(j), Pow(ring, Ratio(ring, w, wi, j, l), k));
  }

  lemma InnerSum<T(!new)>(ring: Ring<T>, x: nat -> T, w: T, wi: T, n: nat, l: nat, j: nat)
    requires Domain(ring)
    requires Mul(ring, w, wi) == ring.one && Primitive(ring, w, n) && j < n && l < n
    ensures RowSums(ring, Flipped(DoubleTerm(ring, x, w, wi, l)), n)(j) ==
      if j == l then Mul(ring, Count(ring, n), x(l)) else ring.zero
  {
    hide Laws, Domain, Mul, Pow, Count, Ratio;
    DomainLaws(ring);
    var r := Ratio(ring, w, wi, j, l);
    forall k: nat
      ensures DoubleTerm(ring, x, w, wi, l)(j, k) == Scaled(ring, Powers(ring, r), x(j))(k)
    {
      InnerTerm(ring, x, w, wi, l, j, k);
    }
    SumSame(ring, RowOf(Flipped(DoubleTerm(ring, x, w, wi, l)), j), Scaled(ring, Powers(ring, r), x(j)), n);
    SumScale(ring, Powers(ring, r), x(j), n);
    RatioIsOne(ring, w, wi, n, j, l);
    if j == l {
      PowersOfOne(ring, n);
    } else {
      PowersCancel(ring, r, n);
      MulOne(ring, x(j));
    }
  }

  lemma {:induction false} SumOnly<T(!new)>(ring: Ring<T>, f: nat -> T, l: nat, n: nat)
    requires Laws(ring)
    requires forall j: nat :: j < n && j != l ==> f(j) == ring.zero
    ensures Sum(ring, f, n) == if l < n then f(l) else ring.zero
  {
    hide Laws, Add;
    if n > 0 {
      SumOnly(ring, f, l, n - 1);
      AddZero(ring, f(n - 1));
      AddZero(ring, Sum(ring, f, n - 1));
    }
  }

  /** The transform of the transform, with the inverse root, is the input times its length. */
  lemma DftInverse<T(!new)>(ring: Ring<T>, x: nat -> T, w: T, wi: T, n: nat, l: nat)
    requires Domain(ring)
    requires Mul(ring, w, wi) == ring.one && Primitive(ring, w, n) && l < n
    ensures Dft(ring, Outputs(ring, x, w, n), wi, n, l) == Mul(ring, Count(ring, n), x(l))
  {
    hide Laws, Domain, Mul, Pow, Count, RowSums, DoubleTerm, DftTerm, Outputs, Primitive;
    DomainLaws(ring);
    var g := DoubleTerm(ring, x, w, wi, l);
    forall k: nat | k < n
      ensures DftTerm(ring, Outputs(ring, x, w, n), wi, l)(k) == RowSums(ring, g, n)(k)
    {
      OuterTerm(ring, x, w, wi, n, l, k);
    }
    SumSame(ring, DftTerm(ring, Outputs(ring, x, w, n), wi, l), RowSums(ring, g, n), n);
    SumsSwap(ring, g, n, n);
    var f := RowSums(ring, Flipped(g), n);
    forall j: nat | j < n
      ensures f(j) == if j == l then Mul(ring, Count(ring, n), x(l)) else ring.zero
    {
      InnerSum(ring, x, w, wi, n, l, j);
    }
    SumOnly(ring, f, l, n);
  }

  /** A block that holds the forward transform of x, transformed with the inverse root, holds nfft times x. */
  lemma InverseUndoes<T(!new)>(ring: Ring<T>, x: nat -> T, mid: seq<T>, out: seq<T>, w: T, wi: T, n: nat, l: nat)
    requires Domain(ring)
    requires Mul(ring, w, wi) == ring.one && Primitive(ring, w, n) && l < n
    requires Transformed(ring, mid, 0, x, w, n) && Transformed(ring, out, 0, Strided(ring, mid, 0, 1), wi, n)
    ensures l < |out| && out[l] == Mul(ring, Count(ring, n), x(l))
  {
    hide Laws, Domain, Mul, Pow, Count, Dft, Primitive;
    DomainLaws(ring);
    assert HoldsAt(ring, out, 0, Strided(ring, mid, 0, 1), wi, n, l);
    forall k: nat | k < n
      ensures Strided(ring, mid, 0, 1)(k) == Outputs(ring, x, w, n)(k)
    {
      assert HoldsAt(ring, mid, 0, x, w, n, k);
    }
    DftSame(ring, Strided(ring, mid, 0, 1), Outputs(ring, x, w, n), wi, n, l);
    DftInverse(ring, x, w, wi, n, l);
  }
}
