/** The discrete Fourier transform, and how transforms of the p decimated inputs combine
    into the transform of the whole. */
module DftTheory {
  import opened Rings

  /** A product of exponents. */
  function Prod(a: nat, b: nat): nat {
    a * b
  }

  /** The term of input j in output k. */
  function DftTerm<T>(ring: Ring<T>, x: nat -> T, v: T, k: nat): nat -> T {
    (j: nat) => Mul(ring, x(j), Pow(ring, v, Prod(j, k)))
  }

  /** Output k of the transform of length n with root v. */
  function Dft<T>(ring: Ring<T>, x: nat -> T, v: T, n: nat, k: nat): T {
    Sum(ring, DftTerm(ring, x, v, k), n)
  }

  datatype State<T> = State(nfft: nat, inverse: bool, twiddles: seq<T>)

  /** The twiddles are the powers of an nfft-th root of unity. */
  ghost predicate Twiddles<T(!new)>(ring: Ring<T>, st: State<T>, w: T) {
    && 0 < st.nfft == |st.twiddles| && Pow(ring, w, st.nfft) == ring.one
    && forall i :: 0 <= i < st.nfft ==> st.twiddles[i] == Pow(ring, w, i)
  }

  /** Output "step" of a butterfly on the first n of the values y, as the generic butterfly sums it. */
  function Combine<T>(ring: Ring<T>, y: seq<T>, st: State<T>, step: nat, n: nat): T
    requires n <= |y| && 0 < st.nfft == |st.twiddles|
  {
    if n == 0 then ring.zero
    else Add(ring, Combine(ring, y, st, step, n - 1), Mul(ring, y[n - 1], st.twiddles[Prod(step, n - 1) % st.nfft]))
  }

  lemma TwiddlesFit<T(!new)>(ring: Ring<T>, st: State<T>, w: T)
    requires Twiddles(ring, st, w)
    ensures 0 < st.nfft == |st.twiddles|
  {
  }

  lemma TwiddleAt<T(!new)>(ring: Ring<T>, st: State<T>, w: T, e: nat)
    requires Laws(ring)
    requires Twiddles(ring, st, w)
    ensures st.twiddles[e % st.nfft] == Pow(ring, w, e)
  {
    hide Laws, Mul, Pow;
    PowMod(ring, w, st.nfft, e);
  }

  /** (q + p j)(u + r m) = p (j u) + (u + r m) q + (p m)(j r) */
  lemma ExponentSplit(p: nat, m: nat, u: nat, q: nat, j: nat, r: nat, k: nat)
    requires k == u + Prod(r, m)
    ensures Prod(q + Prod(p, j), k) == Prod(p, Prod(j, u)) + Prod(k, q) + Prod(Prod(p, m), Prod(j, r))
  {
    assert (q + p * j) * k == q * k + (p * j) * k;
    assert (p * j) * k == (p * j) * u + (p * j) * (r * m);
    assert (p * j) * (r * m) == (p * m) * (j * r);
    assert (p * j) * u == p * (j * u);
  }

  /** One term of a decimated transform, twiddled, is the term of the whole transform. */
  lemma TermOfWhole<T(!new)>(ring: Ring<T>, a: T, v: T, p: nat, m: nat, u: nat, q: nat, j: nat, r: nat, k: nat)
    requires Laws(ring)
    requires Pow(ring, v, Prod(p, m)) == ring.one && k == u + Prod(r, m)
    ensures Mul(ring, Mul(ring, a, Pow(ring, Pow(ring, v, p), Prod(j, u))), Pow(ring, v, Prod(k, q))) ==
      Mul(ring, a, Pow(ring, v, Prod(q + Prod(p, j), k)))
  {
    hide Laws, Mul, Pow, Prod;
    var e1, e2 := Prod(p, Prod(j, u)), Prod(k, q);
    PowTwice(ring, v, p, Prod(j, u));
    MulAssoc(ring, a, Pow(ring, v, e1), Pow(ring, v, e2));
    PowSum(ring, v, e1, e2);
    RootPeriod(ring, v, Prod(p, m), e1 + e2, Prod(j, r));
    ExponentSplit(p, m, u, q, j, r, k);
  }

  lemma PowTwice<T(!new)>(ring: Ring<T>, w: T, a: nat, b: nat)
    requires Laws(ring)
    ensures Pow(ring, w, Prod(a, b)) == Pow(ring, Pow(ring, w, a), b)
  {
    PowProduct(ring, w, a, b);
  }

  lemma RootPeriod<T(!new)>(ring: Ring<T>, w: T, n: nat, k: nat, j: nat)
    requires Laws(ring)
    requires Pow(ring, w, n) == ring.one
    ensures Pow(ring, w, k + Prod(n, j)) == Pow(ring, w, k)
  {
    PowPeriod(ring, w, n, k, j);
  }

  /** The inputs whose index leaves the remainder q modulo p. */
  function Decimate<T>(x: nat -> T, p: nat, q: nat): nat -> T {
    (j: nat) => x(q + Prod(p, j))
  }

  /** A decimated transform, twiddled, sums the terms of one column of the whole transform. */
  lemma ColumnOfWhole<T(!new)>(ring: Ring<T>, x: nat -> T, v: T, p: nat, m: nat, u: nat, r: nat, q: nat, k: nat)
    requires Laws(ring)
    requires Pow(ring, v, Prod(p, m)) == ring.one && k == u + Prod(r, m)
    ensures Mul(ring, Dft(ring, Decimate(x, p, q), Pow(ring, v, p), m, u), Pow(ring, v, Prod(k, q))) ==
      Sum(ring, Column(DftTerm(ring, x, v, k), p, q), m)
  {
    hide Laws, Mul, Pow;
    var f, c := DftTerm(ring, Decimate(x, p, q), Pow(ring, v, p), u), Pow(ring, v, Prod(k, q));
    var g := Column(DftTerm(ring, x, v, k), p, q);
    SumScale(ring, f, c, m);
    forall j: nat | j < m
      ensures Scaled(ring, f, c)(j) == g(j)
    {
      TermOfWhole(ring, x(q + Prod(p, j)), v, p, m, u, q, j, r, k);
    }
    SumSame(ring, Scaled(ring, f, c), g, m);
  }

  /** The values a butterfly combines are the transforms of the decimated inputs. */
  ghost predicate Decimated<T(!new)>(ring: Ring<T>, y: seq<T>, x: nat -> T, v: T, p: nat, m: nat, u: nat) {
    |y| == p && forall q :: 0 <= q < p ==> y[q] == Dft(ring, Decimate(x, p, q), Pow(ring, v, p), m, u)
  }

  lemma CombineTerm<T(!new)>(ring: Ring<T>, y: T, st: State<T>, w: T, step: nat, x: nat -> T, p: nat, m: nat, u: nat,
      r: nat, q: nat,
      k: nat, v: T)
    requires Laws(ring)
    requires Twiddles(ring, st, w) && Pow(ring, v, Prod(p, m)) == ring.one && k == u + Prod(r, m)
    requires Pow(ring, w, step) == Pow(ring, v, k)
    requires y == Dft(ring, Decimate(x, p, q), Pow(ring, v, p), m, u)
    ensures 0 < st.nfft == |st.twiddles|
    ensures Mul(ring, y, st.twiddles[Prod(step, q) % st.nfft]) == ColumnSums(ring, DftTerm(ring, x, v, k), p, m)(q)
  {
    hide Laws, Mul, Add, Pow, Dft, Sum, Prod;
    TwiddleAt(ring, st, w, Prod(step, q));
    PowTwice(ring, w, step, q);
    PowTwice(ring, v, k, q);
    ColumnOfWhole(ring, x, v, p, m, u, r, q, k);
  }

  lemma {:induction false} CombineColumns<T(!new)>(ring: Ring<T>, y: seq<T>, st: State<T>, w: T, step: nat,
      x: nat -> T, p: nat, m: nat,
      u: nat, r: nat, n: nat, k: nat, v: T)
    requires Laws(ring)
    requires Twiddles(ring, st, w) && Pow(ring, v, Prod(p, m)) == ring.one && k == u + Prod(r, m)
    requires Pow(ring, w, step) == Pow(ring, v, k)
    requires Decimated(ring, y, x, v, p, m, u) && n <= p
    ensures 0 < st.nfft == |st.twiddles|
    ensures Combine(ring, y, st, step, n) == Sum(ring, ColumnSums(ring, DftTerm(ring, x, v, k), p, m), n)
  {
    hide Laws, Mul, Add, Pow, Dft, Twiddles, Prod;
    TwiddlesFit(ring, st, w);
    if n > 0 {
      CombineColumns(ring, y, st, w, step, x, p, m, u, r, n - 1, k, v);
      CombineTerm(ring, y[n - 1], st, w, step, x, p, m, u, r, n - 1, k, v);
    }
  }

  /** The butterfly of decimated transforms is the transform of the whole input. */
  lemma CombineIsDft<T(!new)>(ring: Ring<T>, y: seq<T>, st: State<T>, w: T, fstride: nat, x: nat -> T, p: nat, m: nat,
      u: nat, r: nat,
      k: nat)
    requires Laws(ring)
    requires Twiddles(ring, st, w) && Prod(fstride, Prod(p, m)) == st.nfft && k == u + Prod(r, m)
    requires Decimated(ring, y, x, Pow(ring, w, fstride), p, m, u)
    ensures 0 < st.nfft == |st.twiddles|
    ensures Combine(ring, y, st, Prod(fstride, k), p) == Dft(ring, x, Pow(ring, w, fstride), Prod(p, m), k)
  {
    var v := Pow(ring, w, fstride);
    PowTwice(ring, w, fstride, Prod(p, m));
    PowTwice(ring, w, fstride, k);
    SumByColumns(ring, DftTerm(ring, x, v, k), p, m);
    hide Laws, Mul, Add, Pow, Sum, Combine;
    CombineColumns(ring, y, st, w, Prod(fstride, k), x, p, m, u, r, p, k, v);
  }
}
