/** What the special butterflies compute: the twiddled values of a column, combined by the
    powers of one root of unity of small order. */
module RadixTheory {
  import opened Complex
  import Rings
  import opened DftTheory

  /** The root is exp(-2 pi i / nfft), or its conjugate for the inverse transform: it has
      exactly the order nfft and turns in the right direction. */
  ghost predicate Principal(st: State<Cpx>, w: Cpx) {
    && Twiddles(CPX, st, w)
    && (forall j :: 0 < j < st.nfft ==> Pow(w, j) != ONE)
    && (st.nfft % 4 == 0 ==> Pow(w, st.nfft / 4) == if st.inverse then IMAG else MINUS_IMAG)
  }

  lemma PowNested(w: Cpx, a: nat, b: nat)
    ensures Pow(w, Prod(a, b)) == Pow(Pow(w, a), b)
  {
    PowProduct(w, a, b);
  }

  /** The twiddle at exponent e, reduced by the length. */
  lemma TwiddleIs(st: State<Cpx>, w: Cpx, e: nat)
    requires Twiddles(CPX, st, w)
    ensures 0 < st.nfft == |st.twiddles| && st.twiddles[e % st.nfft] == Pow(w, e)
  {
    CpxLaws();
    TwiddleAt(CPX, st, w, e);
  }

  lemma InTable(st: State<Cpx>, w: Cpx, e: nat)
    requires Twiddles(CPX, st, w)
    ensures e < st.nfft ==> e < |st.twiddles| && st.twiddles[e] == Pow(w, e)
  {
    PowIs(w, e);
  }

  /** Value q of a column, times its twiddle. */
  function Twiddled(y: seq<Cpx>, v: Cpx): (s: seq<Cpx>)
    ensures |s| == |y|
  {
    seq(|y|, q requires 0 <= q < |y| => Mul(y[q], Pow(v, q)))
  }

  /** Output r of the transform of the first n values of s with root z. */
  function Small(s: seq<Cpx>, z: Cpx, r: nat, n: nat): Cpx
    requires n <= |s|
  {
    if n == 0 then ZERO else Add(Small(s, z, r, n - 1), Mul(s[n - 1], Pow(z, Prod(r, n - 1))))
  }

  /** The sum of the generic butterfly is a small transform of the twiddled values. */
  lemma {:induction false} CombineIsSmall(y: seq<Cpx>, st: State<Cpx>, w: Cpx, step: nat, v: Cpx, z: Cpx, r: nat,
      n: nat)
    requires Twiddles(CPX, st, w) && n <= |y| && Pow(w, step) == Mul(v, Pow(z, r))
    ensures 0 < st.nfft == |st.twiddles|
    ensures Combine(CPX, y, st, step, n) == Small(Twiddled(y, v), z, r, n)
  {
    TwiddlesFit(CPX, st, w);
    CombineWrittenOut(y, st, step, n);
    hide Mul, Add, Pow, Prod, Twiddles, Combine;
    if n > 0 {
      var q := n - 1;
      CombineIsSmall(y, st, w, step, v, z, r, q);
      TwiddleIs(st, w, Prod(step, q));
      PowNested(w, step, q);
      PowOfProduct(v, Pow(z, r), q);
      PowNested(z, r, q);
      MulAssoc(y[q], Pow(v, q), Pow(z, Prod(r, q)));
    }
  }

  lemma CombineWrittenOut(y: seq<Cpx>, st: State<Cpx>, step: nat, n: nat)
    requires n <= |y| && 0 < st.nfft == |st.twiddles|
    ensures Combine(CPX, y, st, step, n) ==
      if n == 0 then ZERO
      else Add(Combine(CPX, y, st, step, n - 1), Mul(y[n - 1], st.twiddles[Prod(step, n - 1) % st.nfft]))
  {
    hide Add, Mul;
  }

  lemma PowOfProduct(a: Cpx, b: Cpx, n: nat)
    ensures Pow(Mul(a, b), n) == Mul(Pow(a, n), Pow(b, n))
  {
    hide Mul;
    CpxLaws();
    RingIs(a, b);
    Rings.PowOfProduct(CPX, a, b, n);
    RingIs(Pow(a, n), Pow(b, n));
  }

  /** The step of row r in column u, as a twiddle of the column times a power of the root. */
  lemma StepRoot(w: Cpx, fstride: nat, m: nat, u: nat, r: nat)
    ensures Pow(w, Prod(fstride, u + Prod(r, m))) == Mul(Pow(w, Prod(fstride, u)), Pow(Pow(w, Prod(fstride, m)), r))
  {
    hide Mul, Pow, Prod;
    PowNested(w, Prod(fstride, m), r);
    PowSum(w, Prod(fstride, u), Prod(Prod(fstride, m), r));
    StepExponent(fstride, m, u, r);
  }

  lemma StepExponent(fstride: nat, m: nat, u: nat, r: nat)
    ensures Prod(fstride, u + Prod(r, m)) == Prod(fstride, u) + Prod(Prod(fstride, m), r)
  {
    assert fstride * (u + r * m) == fstride * u + fstride * (r * m);
    assert fstride * (r * m) == fstride * m * r;
  }

  /** The root of a butterfly of radix p is a p-th root of unity other than 1. */
  lemma RadixRoot(st: State<Cpx>, w: Cpx, fstride: nat, p: nat, m: nat)
    requires Principal(st, w) && Prod(fstride, Prod(p, m)) == st.nfft && p > 1
    ensures Pow(Pow(w, Prod(fstride, m)), p) == ONE && Pow(w, Prod(fstride, m)) != ONE
  {
    hide Mul, Pow;
    PowIs(w, st.nfft);
    PowNested(w, Prod(fstride, m), p);
    RootExponent(fstride, p, m);
  }

  lemma RootExponent(fstride: nat, p: nat, m: nat)
    requires Prod(fstride, Prod(p, m)) > 0 && p > 1
    ensures Prod(Prod(fstride, m), p) == Prod(fstride, Prod(p, m))
    ensures 0 < Prod(fstride, m) < Prod(fstride, Prod(p, m))
  {
    var e := fstride * m;
    assert e * p == fstride * (p * m);
    var d: nat := p - 2;
    assert e * d >= 0;
    assert e * p == e + e + e * d;
    PositiveFactor(e, p);
  }

  lemma PositiveFactor(e: nat, p: nat)
    requires e * p > 0
    ensures e > 0
  {
  }

  /** Powers of an n-th root of unity, by the remainder of the exponent. */
  lemma RootPower(z: Cpx, n: nat, e: nat, r: nat, j: nat)
    requires Pow(z, n) == ONE && e == r + n * j
    ensures Pow(z, e) == Pow(z, r)
  {
    PowPeriod(z, n, r, j);
  }

  lemma LowPowers(z: Cpx)
    ensures Pow(z, 0) == ONE && Pow(z, 1) == z && Pow(z, 2) == Mul(z, z)
    ensures Pow(z, 3) == Mul(Mul(z, z), z) && Pow(z, 4) == Mul(Mul(Mul(z, z), z), z)
    ensures Pow(z, 5) == Mul(Pow(z, 4), z)
  {
    hide Mul;
    MulOne(z);
    assert Pow(z, 1) == Mul(Pow(z, 0), z);
    assert Pow(z, 2) == Mul(Pow(z, 1), z);
    assert Pow(z, 3) == Mul(Pow(z, 2), z);
  }

  lemma NoZeroDivisors(x: real, y: real)
    requires x * y == 0.0
    ensures x == 0.0 || y == 0.0
  {
  }

  lemma SquarePositive(x: real)
    requires x != 0.0
    ensures x * x > 0.0
  {
  }

  /** A square root of 1 other than 1 is -1. */
  lemma SecondRoot(z: Cpx)
    requires Mul(z, z) == ONE && z != ONE
    ensures z == MINUS_ONE
  {
    SquareParts(z);
    hide Mul;
    RealSecondRoot(z.r, z.i);
  }

  lemma SquareParts(z: Cpx)
    ensures Mul(z, z) == Cpx(z.r * z.r - z.i * z.i, z.r * z.i + z.i * z.r)
  {
  }

  lemma RealSecondRoot(a: real, b: real)
    requires a * a - b * b == 1.0 && a * b + b * a == 0.0
    ensures b == 0.0 && (a == 1.0 || a == -1.0)
  {
    assert a * b == 0.0;
    NoZeroDivisors(a, b);
    assert b * b >= 0.0;
    assert (a - 1.0) * (a + 1.0) == a * a - 1.0;
    if b == 0.0 {
      NoZeroDivisors(a - 1.0, a + 1.0);
    }
  }

  /** A third root of 1 other than 1 is -1/2 plus or minus i sqrt(3)/2: its square is its conjugate. */
  lemma ThirdRoot(z: Cpx)
    requires Pow(z, 3) == ONE && z != ONE
    ensures z.r == -0.5 && Pow(z, 2) == Conj(z)
  {
    hide Mul, Pow;
    ThirdRootFactor(z, Mul(z, z));
    SquareParts(z);
    ImaginaryPart(z.r, z.i);
    LowPowers(z);
  }

  lemma ThirdRootFactor(z: Cpx, s: Cpx)
    requires Pow(z, 3) == ONE && z != ONE && s == Mul(z, z)
    ensures Add(s, Add(z, ONE)) == ZERO
  {
    hide Mul;
    LowPowers(z);
    Cube(z, s);
    SubSelf(ONE);
    UnitFactor(z, Add(s, Add(z, ONE)));
  }

  lemma SubSelf(a: Cpx)
    ensures Sub(a, a) == ZERO
  {
  }

  /** (z - 1)(z^2 + z + 1) = z^3 - 1. */
  lemma Cube(z: Cpx, s: Cpx)
    requires s == Mul(z, z)
    ensures Mul(Sub(z, ONE), Add(s, Add(z, ONE))) == Sub(Mul(s, z), ONE)
  {
    DifferenceTimes(z, Add(s, Add(z, ONE)));
    SumTimes(z, s);
    MulComm(s, z);
  }

  lemma DifferenceTimes(z: Cpx, f: Cpx)
    ensures Mul(Sub(z, ONE), f) == Sub(Mul(z, f), f)
  {
  }

  lemma SumTimes(z: Cpx, s: Cpx)
    ensures Mul(z, Add(s, Add(z, ONE))) == Add(Mul(z, s), Add(Mul(z, z), z))
  {
    hide Mul, Add;
    LeftDistributes(z, s, Add(z, ONE));
    LeftDistributes(z, z, ONE);
    MulOne(z);
  }

  lemma LeftDistributes(a: Cpx, b: Cpx, c: Cpx)
    ensures Mul(a, Add(b, c)) == Add(Mul(a, b), Mul(a, c))
  {
  }

  /** The complex numbers have no zero divisors. */
  lemma ZeroProduct(a: Cpx, f: Cpx)
    requires a != ZERO && Mul(a, f) == ZERO
    ensures f == ZERO
  {
    var c, d, x, y := a.r, a.i, f.r, f.i;
    assert c * x - d * y == 0.0 && c * y + d * x == 0.0;
    Rotate(c, d, x, y);
    if c != 0.0 {
      SquarePositive(c);
      assert d * d >= 0.0;
    } else {
      SquarePositive(d);
    }
    NoZeroDivisors(c * c + d * d, x);
    NoZeroDivisors(c * c + d * d, y);
  }

  lemma CpxDomain()
    ensures Rings.Domain(CPX)
  {
    hide Mul, Rings.Laws;
    CpxLaws();
    forall a: Cpx, b: Cpx | Rings.Mul(CPX, a, b) == ZERO && a != ZERO
      ensures b == ZERO
    {
      RingIs(a, b);
      ZeroProduct(a, b);
    }
  }

  lemma UnitFactor(z: Cpx, f: Cpx)
    requires z != ONE && Mul(Sub(z, ONE), f) == ZERO
    ensures f == ZERO
  {
    hide Mul;
    ZeroProduct(Sub(z, ONE), f);
  }

  lemma Rotate(c: real, d: real, x: real, y: real)
    requires c * x - d * y == 0.0 && c * y + d * x == 0.0
    ensures (c * c + d * d) * x == 0.0 && (c * c + d * d) * y == 0.0
  {
    assert (c * c + d * d) * x == c * (c * x - d * y) + d * (c * y + d * x);
    assert (c * c + d * d) * y == c * (c * y + d * x) - d * (c * x - d * y);
  }

  lemma ImaginaryPart(a: real, b: real)
    requires a * a - b * b + (a + 1.0) == 0.0 && a * b + b * a + b == 0.0
    ensures a == -0.5 && a * a - b * b == a && a * b + b * a == -b
  {
    ShiftedSquare(a);
    SquareOfZero(b);
    TwiceProduct(a, b);
    NoZeroDivisors(b, 2.0 * a + 1.0);
  }

  /** The square of a + 1/2, written out, is not negative. */
  lemma ShiftedSquare(a: real)
    ensures a * a + a + 0.25 >= 0.0
  {
    var h := a + 0.5;
    HalfSquare(a, h);
    SquareNotNegative(h);
  }

  lemma HalfSquare(a: real, h: real)
    requires h == a + 0.5
    ensures h * h == a * a + a + 0.25
  {
    assert h * h == a * h + 0.5 * h;
    assert a * h == a * a + 0.5 * a;
  }

  lemma SquareNotNegative(x: real)
    ensures x * x >= 0.0
  {
  }

  lemma SquareOfZero(b: real)
    ensures b == 0.0 ==> b * b == 0.0
  {
  }

  lemma TwiceProduct(a: real, b: real)
    ensures b * (2.0 * a + 1.0) == a * b + b * a + b
  {
  }

  /** The squared modulus. */
  function Norm(a: Cpx): (n: real)
    ensures n >= 0.0
  {
    assert a.r * a.r >= 0.0 && a.i * a.i >= 0.0;
    a.r * a.r + a.i * a.i
  }

  lemma NormProduct(a: Cpx, b: Cpx)
    ensures Norm(Mul(a, b)) == Norm(a) * Norm(b)
  {
    var p, q, x, y := a.r, a.i, b.r, b.i;
    assert (p * x - q * y) * (p * x - q * y) == (p * p) * (x * x) - 2.0 * ((p * x) * (q * y)) + (q * q) * (y * y);
    assert (p * y + q * x) * (p * y + q * x) == (p * p) * (y * y) + 2.0 * ((p * x) * (q * y)) + (q * q) * (x * x);
  }

  lemma UnitInverse(a: Cpx, b: Cpx)
    requires Mul(a, b) == ONE && Norm(b) == 1.0
    ensures a == Conj(b)
  {
    assert Mul(b, Conj(b)) == ONE;
    MulAssoc(a, b, Conj(b));
    MulOne(a);
    MulOne(Conj(b));
  }

  lemma FifthPower(t: real)
    requires t >= 0.0 && t * t * t * t * t == 1.0
    ensures t == 1.0
  {
    var s := t * t;
    assert s >= 0.0 && s * t >= 0.0 && s * s >= 0.0;
    var f := s * s + s * t + s + t + 1.0;
    assert (t - 1.0) * f == s * s * t - 1.0;
    assert s * s * t == t * t * t * t * t;
    NoZeroDivisors(t - 1.0, f);
  }

  lemma ModulusOne(z: Cpx)
    requires Pow(z, 5) == ONE
    ensures Norm(z) == 1.0 && Norm(Pow(z, 2)) == 1.0
  {
    LowPowers(z);
    var z2, z3, z4, t := Mul(z, z), Pow(z, 3), Pow(z, 4), Norm(z);
    hide Mul, Pow;
    NormProduct(z, z);
    NormProduct(z2, z);
    NormProduct(z3, z);
    NormProduct(z4, z);
    hide Norm;
    assert Norm(Pow(z, 5)) == t * t * t * t * t;
    FifthPower(t);
  }

  /** A fifth root of 1 has modulus 1, so its conjugate is its inverse. */
  lemma FifthRoot(z: Cpx)
    requires Pow(z, 5) == ONE
    ensures Pow(z, 4) == Conj(z) && Pow(z, 3) == Conj(Pow(z, 2))
  {
    hide Mul, Conj;
    ModulusOne(z);
    LowPowers(z);
    PowSum(z, 3, 2);
    UnitInverse(Pow(z, 4), z);
    UnitInverse(Pow(z, 3), Pow(z, 2));
  }

  /** A small transform written out, up to five values. */
  lemma SmallSums(s: seq<Cpx>, z: Cpx, r: nat)
    requires s != []
    ensures Small(s, z, r, 1) == s[0]
    ensures |s| >= 2 ==> Small(s, z, r, 2) == Add(s[0], Mul(s[1], Pow(z, r)))
    ensures |s| >= 3 ==> Small(s, z, r, 3) == Add(Add(s[0], Mul(s[1], Pow(z, r))), Mul(s[2], Pow(z, 2 * r)))
    ensures |s| >= 4 ==> Small(s, z, r, 4) == Add(Small(s, z, r, 3), Mul(s[3], Pow(z, 3 * r)))
    ensures |s| >= 5 ==> Small(s, z, r, 5) == Add(Small(s, z, r, 4), Mul(s[4], Pow(z, 4 * r)))
  {
    hide Mul, Add, Pow;
    assert Small(s, z, r, 0) == ZERO;
    PowZero(z);
    MulOne(s[0]);
    AddZero(s[0]);
  }

  lemma PowZero(z: Cpx)
    ensures Pow(z, 0) == ONE
  {
  }

  /** The outputs of the butterflies as the code computes them from the twiddled values. */
  function Outs2(s: seq<Cpx>): (o: seq<Cpx>)
    requires |s| == 2
    ensures |o| == 2
  {
    [Add(s[0], s[1]), Sub(s[0], s[1])]
  }

  function Outs3(s: seq<Cpx>, epi3: Cpx): (o: seq<Cpx>)
    requires |s| == 3
    ensures |o| == 3
  {
    var sum, diff := Add(s[1], s[2]), Sub(s[1], s[2]);
    var mid, rot := Cpx(s[0].r - sum.r * 0.5, s[0].i - sum.i * 0.5), Cpx(SMul(diff.r, epi3.i), SMul(diff.i, epi3.i));
    [Add(s[0], sum), Cpx(mid.r - rot.i, mid.i + rot.r), Cpx(mid.r + rot.i, mid.i - rot.r)]
  }

  function Outs4(s: seq<Cpx>, inverse: bool): (o: seq<Cpx>)
    requires |s| == 4
    ensures |o| == 4
  {
    var s5, f0, s3, s4 := Sub(s[0], s[2]), Add(s[0], s[2]), Add(s[1], s[3]), Sub(s[1], s[3]);
    var left, right := Cpx(s5.r - s4.i, s5.i + s4.r), Cpx(s5.r + s4.i, s5.i - s4.r);
    [Add(f0, s3), if inverse then left else right, Sub(f0, s3), if inverse then right else left]
  }

  function Outs5(s: seq<Cpx>, ya: Cpx, yb: Cpx): (o: seq<Cpx>)
    requires |s| == 5
    ensures |o| == 5
  {
    var s7, s8 := Add(s[1], s[4]), Add(s[2], s[3]);
    [Cpx(s[0].r + (s7.r + s8.r), s[0].i + (s7.i + s8.i)),
     Sub(Even5(s, ya, yb), Odd5(s, ya, yb)), Add(Even5(s, yb, ya), Cross5(s, ya, yb)),
     Sub(Even5(s, yb, ya), Cross5(s, ya, yb)), Add(Even5(s, ya, yb), Odd5(s, ya, yb))]
  }

  lemma Radix2(s: seq<Cpx>, z: Cpx)
    requires |s| == 2 && Pow(z, 2) == ONE && z != ONE
    ensures forall r :: 0 <= r < 2 ==> Outs2(s)[r] == Small(s, z, r, 2)
  {
    hide Mul, Add, Sub, Pow;
    LowPowers(z);
    SecondRoot(z);
    SmallSums(s, z, 0);
    SmallSums(s, z, 1);
    MulOne(s[1]);
    MulMinusOne(s[0], s[1]);
  }

  lemma MulMinusOne(a: Cpx, b: Cpx)
    ensures Add(a, Mul(b, MINUS_ONE)) == Sub(a, b)
  {
  }

  lemma Radix3Sums(s: seq<Cpx>, z: Cpx)
    requires |s| == 3 && Pow(z, 3) == ONE && z != ONE
    ensures Small(s, z, 0, 3) == Add(Add(s[0], s[1]), s[2])
    ensures Small(s, z, 1, 3) == Add(Add(s[0], Mul(s[1], z)), Mul(s[2], Conj(z)))
    ensures Small(s, z, 2, 3) == Add(Add(s[0], Mul(s[1], Conj(z))), Mul(s[2], z))
    ensures z.r == -0.5
  {
    hide Mul, Add, Pow;
    ThirdRoot(z);
    LowPowers(z);
    RootPower(z, 3, 4, 1, 1);
    SmallSums(s, z, 0);
    SmallSums(s, z, 1);
    SmallSums(s, z, 2);
    MulOne(s[1]);
    MulOne(s[2]);
  }

  lemma Radix3(s: seq<Cpx>, z: Cpx)
    requires |s| == 3 && Pow(z, 3) == ONE && z != ONE
    ensures forall r :: 0 <= r < 3 ==> Outs3(s, z)[r] == Small(s, z, r, 3)
  {
    hide Mul, Pow, Small;
    Radix3Sums(s, z);
    Spread(s[1].r, s[2].r, s[1].r + s[2].r, s[1].r - s[2].r, z.i);
    Spread(s[1].i, s[2].i, s[1].i + s[2].i, s[1].i - s[2].i, z.i);
    ConjProducts(s[1], s[2], z);
  }

  lemma Spread(a: real, b: real, p: real, n: real, c: real)
    requires p == a + b && n == a - b
    ensures p * c == a * c + b * c && n * c == a * c - b * c
  {
  }

  lemma QuarterRoot(z: Cpx)
    requires z == IMAG || z == MINUS_IMAG
    ensures Pow(z, 0) == ONE && Pow(z, 1) == z && Pow(z, 2) == MINUS_ONE && Pow(z, 3) == Conj(z)
    ensures Pow(z, 4) == ONE && Pow(z, 6) == MINUS_ONE && Pow(z, 9) == z
  {
    hide Mul, Pow;
    LowPowers(z);
    QuarterProducts(z);
    RootPower(z, 4, 6, 2, 1);
    RootPower(z, 4, 9, 1, 2);
  }

  lemma QuarterProducts(z: Cpx)
    requires z == IMAG || z == MINUS_IMAG
    ensures Mul(z, z) == MINUS_ONE && Mul(MINUS_ONE, z) == Conj(z) && Mul(Conj(z), z) == ONE
  {
    hide Mul;
    TimesImag(z);
    TimesImag(MINUS_ONE);
    TimesImag(Conj(z));
  }

  lemma TimesImag(a: Cpx)
    ensures Mul(a, IMAG) == Cpx(-a.i, a.r) && Mul(a, MINUS_IMAG) == Cpx(a.i, -a.r)
  {
  }

  lemma TimesMinusOne(a: Cpx)
    ensures Mul(a, MINUS_ONE) == Cpx(-a.r, -a.i)
  {
  }

  lemma Radix4Sums(s: seq<Cpx>, z: Cpx)
    requires |s| == 4 && (z == IMAG || z == MINUS_IMAG)
    ensures Small(s, z, 0, 4) == Add(Add(Add(s[0], s[1]), s[2]), s[3])
    ensures Small(s, z, 1, 4) == Add(Add(Add(s[0], Mul(s[1], z)), Mul(s[2], MINUS_ONE)), Mul(s[3], Conj(z)))
    ensures Small(s, z, 2, 4) == Add(Add(Add(s[0], Mul(s[1], MINUS_ONE)), s[2]), Mul(s[3], MINUS_ONE))
    ensures Small(s, z, 3, 4) == Add(Add(Add(s[0], Mul(s[1], Conj(z))), Mul(s[2], MINUS_ONE)), Mul(s[3], z))
  {
    hide Mul, Add, Pow, Conj;
    QuarterRoot(z);
    SmallSums(s, z, 0);
    SmallSums(s, z, 1);
    SmallSums(s, z, 2);
    SmallSums(s, z, 3);
    MulOne(s[1]);
    MulOne(s[2]);
    MulOne(s[3]);
  }

  /** The root of radix 4 is i for the inverse transform and -i else. */
  lemma Radix4(s: seq<Cpx>, z: Cpx, inverse: bool)
    requires |s| == 4 && z == if inverse then IMAG else MINUS_IMAG
    ensures forall r :: 0 <= r < 4 ==> Outs4(s, inverse)[r] == Small(s, z, r, 4)
  {
    hide Mul, Pow, Small;
    Radix4Sums(s, z);
    TimesImag(s[1]);
    TimesImag(s[3]);
    TimesMinusOne(s[1]);
    TimesMinusOne(s[2]);
    TimesMinusOne(s[3]);
  }

  /** Powers of a fifth root beyond the fourth. */
  lemma FifthPowers(z: Cpx)
    requires Pow(z, 5) == ONE
    ensures Pow(z, 6) == z && Pow(z, 8) == Pow(z, 3) && Pow(z, 9) == Pow(z, 4) && Pow(z, 12) == Pow(z, 2)
    ensures Pow(z, 16) == z
  {
    LowPowers(z);
    hide Mul, Pow;
    RootPower(z, 5, 6, 1, 1);
    RootPower(z, 5, 8, 3, 1);
    RootPower(z, 5, 9, 4, 1);
    RootPower(z, 5, 12, 2, 2);
    RootPower(z, 5, 16, 1, 3);
  }

  /** Five values, each but the first times a factor, summed up. */
  function Dot5(s: seq<Cpx>, a: Cpx, b: Cpx, c: Cpx, d: Cpx): Cpx
    requires |s| == 5
  {
    Add(Add(Add(Add(s[0], Mul(s[1], a)), Mul(s[2], b)), Mul(s[3], c)), Mul(s[4], d))
  }

  lemma Radix5Sums(s: seq<Cpx>, z: Cpx)
    requires |s| == 5 && Pow(z, 5) == ONE
    ensures var y := Pow(z, 2);
            && Small(s, z, 0, 5) == Dot5(s, ONE, ONE, ONE, ONE)
            && Small(s, z, 1, 5) == Dot5(s, z, y, Conj(y), Conj(z))
            && Small(s, z, 2, 5) == Dot5(s, y, Conj(z), z, Conj(y))
            && Small(s, z, 3, 5) == Dot5(s, Conj(y), z, Conj(z), y)
            && Small(s, z, 4, 5) == Dot5(s, Conj(z), Conj(y), y, z)
  {
    LowPowers(z);
    FifthRoot(z);
    FifthPowers(z);
    hide Mul, Add, Pow, Conj;
    SmallSums(s, z, 0);
    SmallSums(s, z, 1);
    SmallSums(s, z, 2);
    SmallSums(s, z, 3);
    SmallSums(s, z, 4);
    PowZero(z);
    MulOne(s[1]);
    MulOne(s[2]);
  }

  /** Two values and the conjugate factors: the sum of the real parts and the difference of the imaginary parts. */
  lemma PairedTerms(a: Cpx, b: Cpx, y: Cpx)
    ensures var p, n := Add(a, b), Sub(a, b);
            Add(Mul(a, y), Mul(b, Conj(y))) == Cpx(p.r * y.r - n.i * y.i, p.i * y.r + n.r * y.i)
  {
    hide Mul;
    var p, n := Add(a, b), Sub(a, b);
    Spread(a.r, b.r, p.r, n.r, y.r);
    Spread(a.i, b.i, p.i, n.i, y.r);
    Spread(a.r, b.r, p.r, n.r, y.i);
    Spread(a.i, b.i, p.i, n.i, y.i);
    ConjProducts(a, b, y);
  }

  lemma PairedConjugates(a: Cpx, b: Cpx, y: Cpx)
    ensures var p, n := Add(a, b), Sub(a, b);
            Add(Mul(a, Conj(y)), Mul(b, y)) == Cpx(p.r * y.r + n.i * y.i, p.i * y.r - n.r * y.i)
  {
    hide Mul;
    var p, n := Add(a, b), Sub(a, b);
    Spread(a.r, b.r, p.r, n.r, y.r);
    Spread(a.i, b.i, p.i, n.i, y.r);
    Spread(a.r, b.r, p.r, n.r, y.i);
    Spread(a.i, b.i, p.i, n.i, y.i);
    ConjProducts(a, b, y);
  }

  lemma Dot5Pairs(s: seq<Cpx>, a: Cpx, b: Cpx, c: Cpx, d: Cpx)
    requires |s| == 5
    ensures Dot5(s, a, b, c, d) == Add(Add(s[0], Add(Mul(s[1], a), Mul(s[4], d))), Add(Mul(s[2], b), Mul(s[3], c)))
  {
    hide Mul;
  }

  /** The outputs of radix 5 as the code computes them: the parts shared by a pair of outputs. */
  function Even5(s: seq<Cpx>, y: Cpx, x: Cpx): Cpx
    requires |s| == 5
  {
    var s7, s8 := Add(s[1], s[4]), Add(s[2], s[3]);
    Cpx(s[0].r + SMul(s7.r, y.r) + SMul(s8.r, x.r), s[0].i + SMul(s7.i, y.r) + SMul(s8.i, x.r))
  }

  function Odd5(s: seq<Cpx>, y: Cpx, x: Cpx): Cpx
    requires |s| == 5
  {
    var s10, s9 := Sub(s[1], s[4]), Sub(s[2], s[3]);
    Cpx(SMul(s10.i, y.i) + SMul(s9.i, x.i), -SMul(s10.r, y.i) - SMul(s9.r, x.i))
  }

  lemma Radix5Minus(s: seq<Cpx>, y: Cpx, x: Cpx)
    requires |s| == 5
    ensures Dot5(s, y, x, Conj(x), Conj(y)) == Sub(Even5(s, y, x), Odd5(s, y, x))
  {
    hide Mul, Dot5;
    PairedTerms(s[1], s[4], y);
    PairedTerms(s[2], s[3], x);
    Dot5Pairs(s, y, x, Conj(x), Conj(y));
  }

  lemma Radix5Plus(s: seq<Cpx>, y: Cpx, x: Cpx)
    requires |s| == 5
    ensures Dot5(s, Conj(y), Conj(x), x, y) == Add(Even5(s, y, x), Odd5(s, y, x))
  {
    hide Mul, Dot5;
    PairedConjugates(s[1], s[4], y);
    PairedConjugates(s[2], s[3], x);
    Dot5Pairs(s, Conj(y), Conj(x), x, y);
  }

  lemma DotOnes(s: seq<Cpx>)
    requires |s| == 5
    ensures Dot5(s, ONE, ONE, ONE, ONE) == Add(s[0], Add(Add(s[1], s[4]), Add(s[2], s[3])))
  {
    hide Mul;
    MulOne(s[1]);
    MulOne(s[2]);
    MulOne(s[3]);
    MulOne(s[4]);
  }

  /** The outputs 2 and 3 pair the first root with the second and third value. */
  function Cross5(s: seq<Cpx>, y: Cpx, x: Cpx): Cpx
    requires |s| == 5
  {
    var s10, s9 := Sub(s[1], s[4]), Sub(s[2], s[3]);
    Cpx(-SMul(s10.i, x.i) + SMul(s9.i, y.i), SMul(s10.r, x.i) - SMul(s9.r, y.i))
  }

  /** The outputs 2 and 3 pair the first root with the second and third value. */
  lemma CrossPlus(s: seq<Cpx>, y: Cpx, x: Cpx)
    requires |s| == 5
    ensures Dot5(s, x, Conj(y), y, Conj(x)) == Add(Even5(s, x, y), Cross5(s, y, x))
  {
    hide Mul, Dot5;
    PairedTerms(s[1], s[4], x);
    PairedConjugates(s[2], s[3], y);
    Dot5Pairs(s, x, Conj(y), y, Conj(x));
  }

  lemma CrossMinus(s: seq<Cpx>, y: Cpx, x: Cpx)
    requires |s| == 5
    ensures Dot5(s, Conj(x), y, Conj(y), x) == Sub(Even5(s, x, y), Cross5(s, y, x))
  {
    hide Mul, Dot5;
    PairedConjugates(s[1], s[4], x);
    PairedTerms(s[2], s[3], y);
    Dot5Pairs(s, Conj(x), y, Conj(y), x);
  }

  lemma Radix5(s: seq<Cpx>, z: Cpx)
    requires |s| == 5 && Pow(z, 5) == ONE
    ensures forall r :: 0 <= r < 5 ==> Outs5(s, z, Pow(z, 2))[r] == Small(s, z, r, 5)
  {
    hide Mul, Pow, Small, Conj, Sub, Dot5, Even5, Odd5, Cross5;
    var y := Pow(z, 2);
    Radix5Sums(s, z);
    DotOnes(s);
    Radix5Minus(s, z, y);
    Radix5Plus(s, z, y);
    CrossPlus(s, z, y);
    CrossMinus(s, z, y);
  }

  lemma ConjProduct(a: Cpx, y: Cpx)
    ensures Mul(a, y) == Cpx(a.r * y.r - a.i * y.i, a.r * y.i + a.i * y.r)
    ensures Mul(a, Conj(y)) == Cpx(a.r * y.r + a.i * y.i, a.i * y.r - a.r * y.i)
  {
  }

  lemma ConjProducts(a: Cpx, b: Cpx, y: Cpx)
    ensures Mul(a, y) == Cpx(a.r * y.r - a.i * y.i, a.r * y.i + a.i * y.r)
    ensures Mul(b, y) == Cpx(b.r * y.r - b.i * y.i, b.r * y.i + b.i * y.r)
    ensures Mul(a, Conj(y)) == Cpx(a.r * y.r + a.i * y.i, a.i * y.r - a.r * y.i)
    ensures Mul(b, Conj(y)) == Cpx(b.r * y.r + b.i * y.i, b.i * y.r - b.r * y.i)
  {
    hide Mul, Conj;
    ConjProduct(a, y);
    ConjProduct(b, y);
  }
}
