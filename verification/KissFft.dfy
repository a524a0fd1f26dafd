/** kiss_fft on complex numbers: the recursive transform with its special butterflies, and the calls
    of the library. */
module KissFft {
  import opened Complex
  import Rings
  import opened DftTheory
  import opened Butterflies
  import opened RadixTheory
  import opened Fft
  import FftFactor
  import FftInverse
  import RadixButterflies

  /** What one call may rely on. */
  ghost predicate CallableHere(cells: nat, base: nat, inputs: nat, fi: nat, fstride: nat, inStride: nat,
      factors: seq<nat>, st: State<Cpx>, w: Cpx, n: nat) {
    Principal(st, w) && Callable(cells, base, inputs, fi, fstride, inStride, factors, st.nfft, n)
  }

  /** kf_work: with whichever butterfly the radices select, the output block becomes the transform of the
      strided input. */
  method KfWork(fout: array<Cpx>, base: nat, f: array<Cpx>, fi: nat, fstride: nat, inStride: nat, factors: seq<nat>,
      st: State<Cpx>, ghost w: Cpx, ghost n: nat)
    requires fout != f && CallableHere(fout.Length, base, f.Length, fi, fstride, inStride, factors, st, w, n)
    modifies fout
    ensures Transformed(CPX, fout[..], base, Strided(CPX, f[..], fi, Prod(fstride, inStride)), Pow(w, fstride), n)
    ensures OnlyBlock(old(fout[..]), fout[..], base, n)
    decreases |factors|
  {
    hide Twiddles, Dft, RowDone;
    var p, m := factors[0], factors[1];
    Rows(fout, base, f, fi, fstride, inStride, factors, st, w, n);
    ghost var s := fout[..];
    Butterfly(fout, base, fstride, st, m, p, w);
    CpxLaws();
    SweptIsDft(CPX, s, fout[..], base, f[..], fi, Prod(fstride, inStride), st, w, fstride, p, m);
  }

  /** The first half of a call: the p rows, copied when they have one cell and transformed by
      recursive calls else. */
  method Rows(fout: array<Cpx>, base: nat, f: array<Cpx>, fi: nat, fstride: nat, inStride: nat, factors: seq<nat>,
      st: State<Cpx>, ghost w: Cpx, ghost n: nat)
    requires fout != f && CallableHere(fout.Length, base, f.Length, fi, fstride, inStride, factors, st, w, n)
    modifies fout
    ensures RowsDone(CPX, fout[..], base, f[..], fi, Prod(fstride, inStride), Pow(w, fstride), factors[0], factors[1],
      factors[0])
    ensures OnlyBlock(old(fout[..]), fout[..], base, n)
    decreases |factors|, 0
  {
    CpxLaws();
    hide Pow, RowDone, RowsDone, Dft, Principal;
    var p, m := factors[0], factors[1];
    ghost var stride, v := Prod(fstride, inStride), Pow(w, fstride);
    ghost var before := fout[..];
    NoRows(CPX, before, base, f[..], fi, stride, v, p, m);
    var i := fi;
    for q := 0 to p
      invariant i == fi + Prod(q, stride)
      invariant RowsDone(CPX, fout[..], base, f[..], fi, stride, v, p, m, q)
      invariant OnlyBlock(before, fout[..], base, n)
    {
      ghost var t := fout[..];
      BlockBounds(base, p, m, q);
      ReadableRow(f.Length, fi, stride, p, m, q);
      if m == 1 {
        fout[base + q] := f[i];
        CopiedRow(CPX, fout[..], base, f[..], fi, stride, v, p, q);
      } else {
        Regroup(fstride, inStride, p, m);
        PowNested(w, fstride, p);
        PowIs(v, p);
        KfWork(fout, base + q * m, f, i, fstride * p, inStride, factors[2..], st, w, m);
        RowIs(CPX, fout[..], base, f[..], fi, stride, v, p, m, q);
      }
      OneMoreRow(CPX, before, t, fout[..], base, f[..], fi, stride, v, p, m, q);
      NextRow(q, stride);
      i := i + fstride * inStride;
    }
  }

  /** The second half of a call: the butterfly of the radix. */
  method Butterfly(fout: array<Cpx>, base: nat, fstride: nat, st: State<Cpx>, m: nat, p: nat, ghost w: Cpx)
    requires 0 < p && 0 < m && base + Prod(p, m) <= fout.Length
    requires Principal(st, w) && Prod(fstride, Prod(p, m)) == st.nfft
    modifies fout
    ensures Swept(CPX, old(fout[..]), fout[..], base, p, m, m, fstride, st)
  {
    hide Pow;
    match p {
      case 2 => RadixButterflies.Radix2(fout, base, fstride, st, m, w);
      case 3 => RadixButterflies.Radix3(fout, base, fstride, st, m, w);
      case 4 => RadixButterflies.Radix4(fout, base, fstride, st, m, w);
      case 5 => RadixButterflies.Radix5(fout, base, fstride, st, m, w);
      case _ =>
        CpxLaws();
        FirstTwiddle(CPX, st, w);
        Generic(CPX, fout, base, fstride, st, m, p);
    }
  }

  /** What a call relies on: the twiddles of a principal root and a factor list of nfft. */
  ghost predicate Configured(st: State<Cpx>, factors: seq<nat>, w: Cpx) {
    Principal(st, w) && Factors(factors, st.nfft)
  }

  /** kiss_fft_stride. A transform in place goes through a temporary buffer. */
  method KissFftStride(st: State<Cpx>, factors: seq<nat>, fin: array<Cpx>, fout: array<Cpx>, inStride: nat,
      ghost w: Cpx)
    requires Configured(st, factors, w) && st.nfft <= fout.Length && Readable(fin.Length, 0, inStride, st.nfft)
    modifies fout
    ensures Transformed(CPX, fout[..], 0, Strided(CPX, old(fin[..]), 0, inStride), w, st.nfft)
    ensures OnlyBlock(old(fout[..]), fout[..], 0, st.nfft)
  {
    hide Pow, Dft, Strided, Principal;
    UnitStride(st.nfft, inStride, w);
    ghost var x := Strided(CPX, fin[..], 0, inStride);
    if fin == fout {
      var tmpbuf := new Cpx[st.nfft](_ => ZERO);
      KfWork(tmpbuf, 0, fin, 0, 1, inStride, factors, st, w, st.nfft);
      ghost var t := tmpbuf[..];
      assert Transformed(CPX, t, 0, x, w, st.nfft);
      for i := 0 to st.nfft
        modifies fout
        invariant forall k :: 0 <= k < i ==> fout[k] == t[k]
        invariant forall k :: i <= k < fout.Length ==> fout[k] == old(fout[..])[k]
      {
        fout[i] := tmpbuf[i];
      }
      Copied(t, fout[..], x, w, st.nfft);
    } else {
      KfWork(fout, 0, fin, 0, 1, inStride, factors, st, w, st.nfft);
    }
  }

  lemma Copied(s: seq<Cpx>, t: seq<Cpx>, x: nat -> Cpx, v: Cpx, n: nat)
    requires Transformed(CPX, s, 0, x, v, n) && n <= |t| && forall k :: 0 <= k < n ==> t[k] == s[k]
    ensures Transformed(CPX, t, 0, x, v, n)
  {
    hide Dft;
    forall k: nat | k < n
      ensures HoldsAt(CPX, t, 0, x, v, n, k)
    {
      assert HoldsAt(CPX, s, 0, x, v, n, k);
    }
  }

  lemma UnitStride(n: nat, inStride: nat, w: Cpx)
    ensures Prod(1, n) == n && Prod(1, inStride) == inStride && Pow(w, 1) == w
  {
    PowIs(w, 1);
    MulOne(w);
    hide Mul;
  }

  /** kiss_fft with a configuration from kiss_fft_alloc: the twiddles of the length and direction,
      and the factors of kf_factor. */
  method KissFft(st: State<Cpx>, fin: array<Cpx>, fout: array<Cpx>, ghost w: Cpx)
    requires Principal(st, w) && st.nfft <= fout.Length && st.nfft <= fin.Length
    modifies fout
    ensures Transformed(CPX, fout[..], 0, Strided(CPX, old(fin[..]), 0, 1), w, st.nfft)
    ensures OnlyBlock(old(fout[..]), fout[..], 0, st.nfft)
  {
    FirstTwiddle(CPX, st, w);
    var factors := FftFactor.KfFactor(st.nfft);
    FftFactor.ChainFactors(st.nfft);
    KissFftStride(st, factors, fin, fout, 1, w);
  }

  /** A forward call and an inverse call, one after the other, give the input times its length. */
  method ThereAndBack(st: State<Cpx>, inverse: State<Cpx>, fin: array<Cpx>, mid: array<Cpx>, fout: array<Cpx>,
      ghost w: Cpx, ghost wi: Cpx)
    requires Principal(st, w) && Principal(inverse, wi) && Mul(w, wi) == ONE && st.nfft == inverse.nfft
    requires st.nfft <= fin.Length && st.nfft <= mid.Length && st.nfft <= fout.Length && fin != mid
    modifies mid, fout
    ensures forall l :: 0 <= l < st.nfft ==> fout[l] == Mul(Cpx(st.nfft as real, 0.0), old(fin[l]))
  {
    hide Principal, Transformed, OnlyBlock, Mul;
    ghost var x := fin[..];
    KissFft(st, fin, mid, w);
    ghost var y := mid[..];
    KissFft(inverse, mid, fout, wi);
    PrincipalIsPrimitive(st, w);
    forall l | 0 <= l < st.nfft
      ensures fout[l] == Mul(Cpx(st.nfft as real, 0.0), x[l])
    {
      UndoneAt(st.nfft, x, y, fout[..], w, wi, l);
    }
  }

  lemma UndoneAt(n: nat, x: seq<Cpx>, mid: seq<Cpx>, out: seq<Cpx>, w: Cpx, wi: Cpx, l: nat)
    requires FftInverse.Primitive(CPX, w, n) && Mul(w, wi) == ONE && l < n <= |x|
    requires Transformed(CPX, mid, 0, Strided(CPX, x, 0, 1), w, n)
    requires Transformed(CPX, out, 0, Strided(CPX, mid, 0, 1), wi, n)
    ensures l < |out| && out[l] == Mul(Cpx(n as real, 0.0), x[l])
  {
    hide Transformed, Mul, Rings.Mul, Rings.Domain, FftInverse.Primitive, FftInverse.Count, Strided;
    CpxDomain();
    RingIs(w, wi);
    CountIs(n);
    FftInverse.InverseUndoes(CPX, Strided(CPX, x, 0, 1), mid, out, w, wi, n, l);
    RingIs(Cpx(n as real, 0.0), x[l]);
    StridedAt(x, l);
  }

  lemma StridedAt(x: seq<Cpx>, l: nat)
    requires l < |x|
    ensures Strided(CPX, x, 0, 1)(l) == x[l]
  {
    assert Prod(l, 1) == l;
  }

  lemma PrincipalIsPrimitive(st: State<Cpx>, w: Cpx)
    requires Principal(st, w)
    ensures FftInverse.Primitive(CPX, w, st.nfft)
  {
    hide Mul;
    forall j | 0 < j < st.nfft
      ensures Rings.Pow(CPX, w, j) != ONE
    {
      assert Pow(w, j) != ONE;
    }
  }

  /** n ones make n. */
  lemma {:induction false} CountIs(n: nat)
    ensures FftInverse.Count(CPX, n) == Cpx(n as real, 0.0)
  {
    if n > 0 {
      CountIs(n - 1);
    }
  }

  /** For length 4 the quarter turns are the principal roots of the two directions. */
  lemma QuarterTurnsArePrincipal(inverse: bool)
    ensures var w := if inverse then IMAG else MINUS_IMAG;
      Principal(State(4, inverse, [ONE, w, MINUS_ONE, Conj(w)]), w)
  {
    var w := if inverse then IMAG else MINUS_IMAG;
    hide Pow;
    QuarterRoot(w);
    var st := State(4, inverse, [ONE, w, MINUS_ONE, Conj(w)]);
    assert Pow(w, 0) == st.twiddles[0] && Pow(w, 1) == st.twiddles[1];
    assert Pow(w, 2) == st.twiddles[2] && Pow(w, 3) == st.twiddles[3];
    forall j | 0 <= j < 4
      ensures st.twiddles[j] == Pow(w, j) && (j > 0 ==> Pow(w, j) != ONE)
    {
      assert j == 0 || j == 1 || j == 2 || j == 3;
    }
    PowersMatch(st, w);
  }

  /** For length 3, given the square root of 3. */
  lemma ThirdRootIsPrincipal(inverse: bool, root3: real)
    requires root3 * root3 == 3.0
    ensures var w := Cpx(-0.5, if inverse then root3 * 0.5 else -root3 * 0.5);
      Principal(State(3, inverse, [ONE, w, Conj(w)]), w)
  {
    var w := Cpx(-0.5, if inverse then root3 * 0.5 else -root3 * 0.5);
    var st := State(3, inverse, [ONE, w, Conj(w)]);
    assert w.i * w.i == 0.75;
    assert Mul(w, w) == Conj(w) && Mul(Conj(w), w) == ONE;
    hide Mul, Pow;
    LowPowers(w);
    forall j | 0 <= j < 3
      ensures st.twiddles[j] == Pow(w, j) && (j > 0 ==> Pow(w, j) != ONE)
    {
      assert j == 0 || j == 1 || j == 2;
    }
    PowersMatch(st, w);
  }

  lemma PowersMatch(st: State<Cpx>, w: Cpx)
    requires 0 < st.nfft == |st.twiddles| && Pow(w, st.nfft) == ONE
    requires forall j :: 0 <= j < st.nfft ==> st.twiddles[j] == Pow(w, j)
    ensures Twiddles(CPX, st, w)
  {
    forall j | 0 <= j < st.nfft
      ensures st.twiddles[j] == Rings.Pow(CPX, w, j)
    {
      assert st.twiddles[j] == Pow(w, j);
    }
  }

  /** For length 5, given the cosine c and sine s of a fifth of a turn. */
  lemma FifthRootIsPrincipal(inverse: bool, c: real, s: real)
    requires 4.0 * (c * c) + 2.0 * c == 1.0 && c * c + s * s == 1.0
    ensures var w := Cpx(c, if inverse then s else -s); var w2 := Cpx(-0.5 - c, 2.0 * SMul(w.r, w.i));
      Principal(State(5, inverse, [ONE, w, w2, Conj(w2), Conj(w)]), w)
  {
    var w := Cpx(c, if inverse then s else -s);
    var w2 := Cpx(-0.5 - c, 2.0 * SMul(w.r, w.i));
    FifthPowersOf(w, w2);
    FifthTwiddles(inverse, w, w2);
  }

  lemma FifthTwiddles(inverse: bool, w: Cpx, w2: Cpx)
    requires Mul(w, w) == w2 && Mul(w2, w) == Conj(w2) && Mul(Conj(w2), w) == Conj(w) && Mul(Conj(w), w) == ONE
    requires w.r != 1.0 && w2.r != 1.0
    ensures Principal(State(5, inverse, [ONE, w, w2, Conj(w2), Conj(w)]), w)
  {
    var st := State(5, inverse, [ONE, w, w2, Conj(w2), Conj(w)]);
    hide Mul, Pow;
    LowPowers(w);
    forall j | 0 <= j < 5
      ensures st.twiddles[j] == Pow(w, j) && (j > 0 ==> Pow(w, j) != ONE)
    {
      assert j == 0 || j == 1 || j == 2 || j == 3 || j == 4;
    }
    PowersMatch(st, w);
  }

  /** The products of a cosine and a sine with squares that are known. */
  lemma FifthProducts(c: real, s: real)
    requires 4.0 * (c * c) + 2.0 * c == 1.0 && c * c + s * s == 1.0
    ensures (2.0 * (c * s)) * s == 2.0 * c - 0.5 * c + c * c
    ensures (2.0 * (c * s)) * c == 0.5 * s - c * s
    ensures c != 1.0 && c != -1.5
  {
    MultiplyOut(c, c * c);
    MultiplyOut(s, c * c);
    Reorder(c, s);
    MultiplyOut(c, s * s);
    assert c * (c * c + s * s) == c;
  }

  lemma MultiplyOut(x: real, q: real)
    ensures x * (4.0 * q) == 4.0 * (x * q)
  {
  }

  lemma Reorder(c: real, s: real)
    requires 4.0 * (c * c) + 2.0 * c == 1.0
    ensures 4.0 * (c * (c * c)) == c - 2.0 * (c * c) && 4.0 * (s * (c * c)) == s - 2.0 * (c * s)
    ensures (2.0 * (c * s)) * s == 2.0 * (c * (s * s)) && (2.0 * (c * s)) * c == 2.0 * (s * (c * c))
    ensures c * (c * c + s * s) == c * (c * c) + c * (s * s)
  {
    assert c * (4.0 * (c * c)) == c * (1.0 - 2.0 * c);
    assert s * (4.0 * (c * c)) == s * (1.0 - 2.0 * c);
  }

  lemma FifthPowersOf(w: Cpx, w2: Cpx)
    requires 4.0 * (w.r * w.r) + 2.0 * w.r == 1.0 && w.r * w.r + w.i * w.i == 1.0
    requires w2 == Cpx(-0.5 - w.r, 2.0 * SMul(w.r, w.i))
    ensures Mul(w, w) == w2 && Mul(w2, w) == Conj(w2) && Mul(Conj(w2), w) == Conj(w) && Mul(Conj(w), w) == ONE
    ensures w.r != 1.0 && w2.r != 1.0
  {
    var c, s := w.r, w.i;
    FifthProducts(c, s);
    ShiftTimes(c, c);
    ShiftTimes(c, s);
  }

  lemma ShiftTimes(c: real, x: real)
    ensures (-0.5 - c) * x == -0.5 * x - c * x
  {
  }
}
