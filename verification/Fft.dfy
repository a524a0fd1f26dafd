/** The recursive mixed-radix transform of kiss_fft: it leaves the discrete Fourier transform of
    its strided input in the output block, for every list of factors. */
module Fft {
  import opened Bits
  import opened Rings
  import opened DftTheory
  import opened Butterflies

  /** The factor list p0, m0, p1, m1, ... of a transform of length n: each p times its m is the length
      of the stage, and the next stage has length m. */
  predicate Factors(factors: seq<nat>, n: nat) {
    && |factors| >= 2 && 0 < factors[0] && 0 < factors[1] && Prod(factors[0], factors[1]) == n
    && (factors[1] > 1 ==> Factors(factors[2..], factors[1]))
  }

  /** The input as the transform reads it. */
  function Strided<T>(ring: Ring<T>, f: seq<T>, fi: nat, stride: nat): nat -> T {
    (j: nat) => if fi + Prod(j, stride) < |f| then f[fi + Prod(j, stride)] else ring.zero
  }

  /** The input is long enough. */
  predicate Readable(cells: nat, fi: nat, stride: nat, n: nat) {
    n > 0 && fi + Prod(n - 1, stride) < cells
  }

  /** The block of n cells at base holds the transform of x. */
  ghost predicate Transformed<T(!new)>(ring: Ring<T>, t: seq<T>, base: nat, x: nat -> T, v: T, n: nat) {
    && base + n <= |t|
    && forall k: nat :: k < n ==> HoldsAt(ring, t, base, x, v, n, k)
  }

  ghost predicate HoldsAt<T(!new)>(ring: Ring<T>, t: seq<T>, base: nat, x: nat -> T, v: T, n: nat, k: nat) {
    base + k < |t| && t[base + k] == Dft(ring, x, v, n, k)
  }

  /** The cells outside the block are kept. */
  ghost predicate OnlyBlock<T>(s: seq<T>, t: seq<T>, base: nat, n: nat) {
    |s| == |t| && forall i :: 0 <= i < |s| && (i < base || base + n <= i) ==> t[i] == s[i]
  }

  lemma DecimateStrided<T(!new)>(ring: Ring<T>, f: seq<T>, fi: nat, stride: nat, p: nat, q: nat, j: nat)
    ensures Decimate(Strided(ring, f, fi, stride), p, q)(j) ==
      Strided(ring, f, fi + Prod(q, stride), Prod(stride, p))(j)
  {
    assert (q + p * j) * stride == q * stride + j * (stride * p);
  }

  lemma DftSame<T(!new)>(ring: Ring<T>, x: nat -> T, y: nat -> T, v: T, n: nat, k: nat)
    requires forall j: nat :: j < n ==> x(j) == y(j)
    ensures Dft(ring, x, v, n, k) == Dft(ring, y, v, n, k)
  {
    hide Laws, Mul, Pow;
    SumSame(ring, DftTerm(ring, x, v, k), DftTerm(ring, y, v, k), n);
  }

  lemma DftOfOne<T(!new)>(ring: Ring<T>, x: nat -> T, v: T)
    requires Laws(ring)
    ensures Dft(ring, x, v, 1, 0) == x(0)
  {
    hide Laws, Mul, Add;
    var t := DftTerm(ring, x, v, 0);
    assert Sum(ring, t, 0) == ring.zero && Prod(0, 0) == 0;
    assert Sum(ring, t, 1) == Add(ring, Sum(ring, t, 0), t(0));
    assert Pow(ring, v, 0) == ring.one;
    MulOne(ring, x(0));
    AddZero(ring, x(0));
  }

  /** Row q of the block holds the transform of the inputs whose index leaves q modulo p. */
  ghost predicate RowDone<T(!new)>(ring: Ring<T>, t: seq<T>, base: nat, f: seq<T>, fi: nat, stride: nat, v: T, p: nat,
      m: nat, q: nat) {
    Transformed(ring, t, base + Prod(q, m), Strided(ring, f, fi + Prod(q, stride), Prod(stride, p)), Pow(ring, v, p), m)
  }

  /** The rows done give the butterfly the decimated transforms. */
  lemma RowsDecimated<T(!new)>(ring: Ring<T>, t: seq<T>, base: nat, f: seq<T>, fi: nat, stride: nat, v: T, p: nat,
      m: nat, u: nat)
    requires Laws(ring)
    requires u < m && base + Prod(p, m) <= |t|
    requires RowsDone(ring, t, base, f, fi, stride, v, p, m, p)
    ensures Decimated(ring, ColumnAt(t, base, p, m, u), Strided(ring, f, fi, stride), v, p, m, u)
  {
    hide Laws, Dft, Pow, Strided, Decimate, Prod;
    forall q: nat | q < p
      ensures ColumnAt(t, base, p, m, u)[q] ==
        Dft(ring, Decimate(Strided(ring, f, fi, stride), p, q), Pow(ring, v, p), m, u)
    {
      AtInBlock(base, p, m, q, u);
      assert RowDone(ring, t, base, f, fi, stride, v, p, m, q);
      var row, w := Strided(ring, f, fi + Prod(q, stride), Prod(stride, p)), Pow(ring, v, p);
      assert HoldsAt(ring, t, base + Prod(q, m), row, w, m, u);
      forall j: nat
        ensures Decimate(Strided(ring, f, fi, stride), p, q)(j) ==
          Strided(ring, f, fi + Prod(q, stride), Prod(stride, p))(j)
      {
        DecimateStrided(ring, f, fi, stride, p, q, j);
      }
      DftSame(ring, Decimate(Strided(ring, f, fi, stride), p, q), row, w, m, u);
    }
  }

  /** The butterfly over all columns turns the rows into the transform of the whole block. */
  lemma SweptIsDft<T(!new)>(ring: Ring<T>, s: seq<T>, t: seq<T>, base: nat, f: seq<T>, fi: nat, stride: nat,
      st: State<T>, w: T,
      fstride: nat, p: nat, m: nat)
    requires Laws(ring)
    requires Twiddles(ring, st, w) && Prod(fstride, Prod(p, m)) == st.nfft && 0 < m
    requires Swept(ring, s, t, base, p, m, m, fstride, st)
    requires RowsDone(ring, s, base, f, fi, stride, Pow(ring, w, fstride), p, m, p)
    ensures Transformed(ring, t, base, Strided(ring, f, fi, stride), Pow(ring, w, fstride), Prod(p, m))
  {
    hide Laws, Dft, Pow, Strided, Combine, ColumnAt, RowDone, Twiddles;
    forall k: nat | k < Prod(p, m)
      ensures HoldsAt(ring, t, base, Strided(ring, f, fi, stride), Pow(ring, w, fstride), Prod(p, m), k)
    {
      var u, r := k % m, k / m;
      RowOf(k, p, m);
      assert Combined(ring, s, t, base, p, m, r, u, fstride, st);
      RowsDecimated(ring, s, base, f, fi, stride, Pow(ring, w, fstride), p, m, u);
      CombineIsDft(ring, ColumnAt(s, base, p, m, u), st, w, fstride, Strided(ring, f, fi, stride), p, m, u, r, k);
    }
  }

  lemma RowOf(k: nat, p: nat, m: nat)
    requires 0 < m && k < Prod(p, m)
    ensures k % m < m && k / m < p && k == k % m + Prod(k / m, m)
  {
    if k / m >= p {
      ProdGrows(p, k / m, m);
      assert false;
    }
  }

  lemma ProdGrows(a: nat, b: nat, m: nat)
    requires a <= b
    ensures Prod(a, m) <= Prod(b, m)
  {
    var d: nat := b - a;
    assert d * m >= 0;
    assert b * m == a * m + d * m;
  }

  lemma BlockBounds(base: nat, p: nat, m: nat, q: nat)
    requires q < p
    ensures base + Prod(q, m) + m <= base + Prod(p, m)
    ensures Prod(q + 1, m) == Prod(q, m) + m
  {
    var d: nat := p - q - 1;
    assert d * m >= 0;
    assert p * m == q * m + m + d * m;
  }

  lemma ReadableRow(cells: nat, fi: nat, stride: nat, p: nat, m: nat, q: nat)
    requires Readable(cells, fi, stride, Prod(p, m)) && q < p && 0 < m
    ensures Readable(cells, fi + Prod(q, stride), Prod(stride, p), m)
  {
    var d: nat := p - q - 1;
    assert d * stride >= 0;
    assert (p * m - 1) * stride == q * stride + (m - 1) * (stride * p) + d * stride;
  }

  /** Later rows leave a finished row alone. */
  lemma RowKept<T(!new)>(ring: Ring<T>, s: seq<T>, t: seq<T>, base: nat, f: seq<T>, fi: nat, stride: nat, v: T,
      p: nat, m: nat,
      q: nat, last: nat)
    requires RowDone(ring, s, base, f, fi, stride, v, p, m, q) && q < last && OnlyBlock(s, t, base + Prod(last, m), m)
    ensures RowDone(ring, t, base, f, fi, stride, v, p, m, q)
  {
    hide Laws, Dft, Pow, Strided, Prod;
    BlockBounds(base, last, m, q);
    var start, x, root := base + Prod(q, m), Strided(ring, f, fi + Prod(q, stride), Prod(stride, p)), Pow(ring, v, p);
    forall k: nat | k < m
      ensures HoldsAt(ring, t, start, x, root, m, k)
    {
      assert HoldsAt(ring, s, start, x, root, m, k);
    }
  }

  /** A row of one cell is done when its cell holds its input. */
  lemma CopiedRow<T(!new)>(ring: Ring<T>, t: seq<T>, base: nat, f: seq<T>, fi: nat, stride: nat, v: T, p: nat, q: nat)
    requires Laws(ring)
    requires base + q < |t| && fi + Prod(q, stride) < |f| && t[base + q] == f[fi + Prod(q, stride)]
    ensures RowDone(ring, t, base, f, fi, stride, v, p, 1, q)
  {
    hide Laws, Dft, Pow;
    DftOfOne(ring, Strided(ring, f, fi + Prod(q, stride), Prod(stride, p)), Pow(ring, v, p));
    assert Prod(q, 1) == q;
    assert Prod(0, Prod(stride, p)) == 0;
    assert HoldsAt(ring, t, base + q, Strided(ring, f, fi + Prod(q, stride), Prod(stride, p)), Pow(ring, v, p), 1, 0);
  }

  /** The first n rows of the block are done. */
  ghost predicate RowsDone<T(!new)>(ring: Ring<T>, t: seq<T>, base: nat, f: seq<T>, fi: nat, stride: nat, v: T, p: nat,
      m: nat, n: nat) {
    forall q: nat :: q < n ==> RowDone(ring, t, base, f, fi, stride, v, p, m, q)
  }

  lemma RowIs<T(!new)>(ring: Ring<T>, t: seq<T>, base: nat, f: seq<T>, fi: nat, stride: nat, v: T, p: nat, m: nat,
      q: nat)
    requires var row := Strided(ring, f, fi + Prod(q, stride), Prod(stride, p));
      Transformed(ring, t, base + Prod(q, m), row, Pow(ring, v, p), m)
    ensures RowDone(ring, t, base, f, fi, stride, v, p, m, q)
  {
  }

  /** One more row: the rows before it are left alone, and so is everything outside the block. */
  lemma OneMoreRow<T(!new)>(ring: Ring<T>, before: seq<T>, s: seq<T>, t: seq<T>, base: nat, f: seq<T>, fi: nat,
      stride: nat, v: T, p: nat, m: nat, q: nat)
    requires RowsDone(ring, s, base, f, fi, stride, v, p, m, q) && RowDone(ring, t, base, f, fi, stride, v, p, m, q)
    requires OnlyBlock(before, s, base, Prod(p, m)) && OnlyBlock(s, t, base + Prod(q, m), m) && q < p
    ensures RowsDone(ring, t, base, f, fi, stride, v, p, m, q + 1) && OnlyBlock(before, t, base, Prod(p, m))
  {
    hide RowDone, Prod;
    forall r: nat | r < q
      ensures RowDone(ring, t, base, f, fi, stride, v, p, m, r)
    {
      RowKept(ring, s, t, base, f, fi, stride, v, p, m, r, q);
    }
    BlockBounds(base, p, m, q);
  }

  lemma Regroup(fstride: nat, inStride: nat, p: nat, m: nat)
    ensures Prod(Prod(fstride, p), m) == Prod(fstride, Prod(p, m))
    ensures Prod(Prod(fstride, p), inStride) == Prod(Prod(fstride, inStride), p)
  {
    assert fstride * p * m == fstride * (p * m);
    assert fstride * p * inStride == fstride * inStride * p;
  }

  /** The sizes that one call may rely on. */
  predicate Callable(cells: nat, base: nat, inputs: nat, fi: nat, fstride: nat, inStride: nat, factors: seq<nat>,
      nfft: nat, n: nat) {
    && Factors(factors, n) && Prod(fstride, n) == nfft
    && base + n <= cells && Readable(inputs, fi, Prod(fstride, inStride), n)
  }

  /** kf_work with the generic butterfly at every stage: in any commutative ring with a root w whose power
      nfft is 1, for any list of factors, the output block becomes the transform of the strided input. */
  method GenericWork<T(!new)>(ring: Ring<T>, fout: array<T>, base: nat, f: array<T>, fi: nat, fstride: nat,
      inStride: nat,
      factors: seq<nat>, st: State<T>, ghost w: T, ghost n: nat)
    requires Laws(ring) && Twiddles(ring, st, w)
    requires fout != f && Callable(fout.Length, base, f.Length, fi, fstride, inStride, factors, st.nfft, n)
    modifies fout
    ensures var x := Strided(ring, f[..], fi, Prod(fstride, inStride));
            Transformed(ring, fout[..], base, x, Pow(ring, w, fstride), n)
    ensures OnlyBlock(old(fout[..]), fout[..], base, n)
    decreases |factors|
  {
    hide Laws, Twiddles, Pow, Dft, RowDone;
    var p, m := factors[0], factors[1];
    GenericRows(ring, fout, base, f, fi, fstride, inStride, factors, st, w, n);
    ghost var s := fout[..];
    FirstTwiddle(ring, st, w);
    Generic(ring, fout, base, fstride, st, m, p);
    SweptIsDft(ring, s, fout[..], base, f[..], fi, Prod(fstride, inStride), st, w, fstride, p, m);
  }

  lemma FirstTwiddle<T(!new)>(ring: Ring<T>, st: State<T>, w: T)
    requires Twiddles(ring, st, w)
    ensures 0 < st.nfft == |st.twiddles| && st.twiddles[0] == ring.one
  {
  }

  /** The first half of a call: the p rows, copied when they have one cell and transformed by
      recursive calls else. */
  method GenericRows<T(!new)>(ring: Ring<T>, fout: array<T>, base: nat, f: array<T>, fi: nat, fstride: nat,
      inStride: nat,
      factors: seq<nat>, st: State<T>, ghost w: T, ghost n: nat)
    requires Laws(ring) && Twiddles(ring, st, w)
    requires fout != f && Callable(fout.Length, base, f.Length, fi, fstride, inStride, factors, st.nfft, n)
    modifies fout
    ensures RowsDone(ring, fout[..], base, f[..], fi, Prod(fstride, inStride), Pow(ring, w, fstride), factors[0],
      factors[1], factors[0])
    ensures OnlyBlock(old(fout[..]), fout[..], base, n)
    decreases |factors|, 0
  {
    hide Laws, Twiddles, Pow, RowDone, RowsDone, Dft;
    var p, m := factors[0], factors[1];
    ghost var stride, v := Prod(fstride, inStride), Pow(ring, w, fstride);
    ghost var before := fout[..];
    NoRows(ring, before, base, f[..], fi, stride, v, p, m);
    var i := fi;
    for q := 0 to p
      invariant i == fi + Prod(q, stride)
      invariant RowsDone(ring, fout[..], base, f[..], fi, stride, v, p, m, q)
      invariant OnlyBlock(before, fout[..], base, n)
    {
      ghost var t := fout[..];
      BlockBounds(base, p, m, q);
      ReadableRow(f.Length, fi, stride, p, m, q);
      if m == 1 {
        fout[base + q] := f[i];
        CopiedRow(ring, fout[..], base, f[..], fi, stride, v, p, q);
      } else {
        Regroup(fstride, inStride, p, m);
        PowTwice(ring, w, fstride, p);
        GenericWork(ring, fout, base + q * m, f, i, fstride * p, inStride, factors[2..], st, w, m);
        RowIs(ring, fout[..], base, f[..], fi, stride, v, p, m, q);
      }
      OneMoreRow(ring, before, t, fout[..], base, f[..], fi, stride, v, p, m, q);
      NextRow(q, stride);
      i := i + fstride * inStride;
    }
  }

  lemma NoRows<T(!new)>(ring: Ring<T>, t: seq<T>, base: nat, f: seq<T>, fi: nat, stride: nat, v: T, p: nat, m: nat)
    ensures RowsDone(ring, t, base, f, fi, stride, v, p, m, 0)
  {
  }
}
