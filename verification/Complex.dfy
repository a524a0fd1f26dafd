/** Exact complex numbers, and their ring. */
module Complex {
  import Rings

  datatype Cpx = Cpx(r: real, i: real)

  const ZERO := Cpx(0.0, 0.0)
  const ONE := Cpx(1.0, 0.0)
  const MINUS_ONE := Cpx(-1.0, 0.0)
  const IMAG := Cpx(0.0, 1.0)
  const MINUS_IMAG := Cpx(0.0, -1.0)

  function Add(a: Cpx, b: Cpx): Cpx {
    Cpx(a.r + b.r, a.i + b.i)
  }

  function Sub(a: Cpx, b: Cpx): Cpx {
    Cpx(a.r - b.r, a.i - b.i)
  }

  function Mul(a: Cpx, b: Cpx): Cpx {
    Cpx(a.r * b.r - a.i * b.i, a.r * b.i + a.i * b.r)
  }

  /** A product of two scalars. */
  function SMul(a: real, b: real): real {
    a * b
  }

  function Conj(a: Cpx): Cpx {
    Cpx(a.r, -a.i)
  }

  lemma AddAssoc(a: Cpx, b: Cpx, c: Cpx)
    ensures Add(Add(a, b), c) == Add(a, Add(b, c))
  {
  }

  lemma AddZero(a: Cpx)
    ensures Add(a, ZERO) == a && Add(ZERO, a) == a
  {
  }

  lemma MulComm(a: Cpx, b: Cpx)
    ensures Mul(a, b) == Mul(b, a)
  {
  }

  lemma MulOne(a: Cpx)
    ensures Mul(a, ONE) == a && Mul(ONE, a) == a && Mul(ZERO, a) == ZERO
  {
  }

  lemma MulAssoc(a: Cpx, b: Cpx, c: Cpx)
    ensures Mul(Mul(a, b), c) == Mul(a, Mul(b, c))
  {
    Distribute4(a, b, c);
  }

  lemma Distribute4(a: Cpx, b: Cpx, c: Cpx)
    ensures (a.r * b.r - a.i * b.i) * c.r == a.r * (b.r * c.r) - a.i * (b.i * c.r)
    ensures (a.r * b.i + a.i * b.r) * c.i == a.r * (b.i * c.i) + a.i * (b.r * c.i)
    ensures (a.r * b.r - a.i * b.i) * c.i == a.r * (b.r * c.i) - a.i * (b.i * c.i)
    ensures (a.r * b.i + a.i * b.r) * c.r == a.r * (b.i * c.r) + a.i * (b.r * c.r)
  {
  }

  lemma Distributes(a: Cpx, b: Cpx, c: Cpx)
    ensures Mul(Add(a, b), c) == Add(Mul(a, c), Mul(b, c))
  {
  }

  function Neg(a: Cpx): Cpx {
    Cpx(-a.r, -a.i)
  }

  const CPX := Rings.Ring(ZERO, ONE, (a: Cpx, b: Cpx) => Add(a, b), (a: Cpx) => Neg(a), (a: Cpx, b: Cpx) => Mul(a, b))

  /** The ring computes with complex numbers. */
  lemma RingIs(a: Cpx, b: Cpx)
    ensures Rings.Add(CPX, a, b) == Add(a, b) && Rings.Neg(CPX, a) == Neg(a) && Rings.Mul(CPX, a, b) == Mul(a, b)
  {
  }

  lemma LawsAt(a: Cpx, b: Cpx, c: Cpx)
    ensures Rings.LawsFor(CPX, a, b, c)
  {
    hide Add, Mul, Neg;
    AddAssoc(a, b, c);
    MulAssoc(a, b, c);
    Distributes(a, b, c);
    MulComm(a, b);
    UnitLaws(a, b);
  }

  lemma UnitLaws(a: Cpx, b: Cpx)
    ensures Rings.Add(CPX, a, b) == Rings.Add(CPX, b, a) && Rings.Add(CPX, a, ZERO) == a
    ensures Rings.Add(CPX, a, Rings.Neg(CPX, a)) == ZERO && Rings.Mul(CPX, a, ONE) == a
  {
    MulOne(a);
    hide Mul;
  }

  /** The complex numbers are a commutative ring. */
  lemma CpxLaws()
    ensures Rings.Laws(CPX)
  {
    hide Rings.LawsFor;
    forall a: Cpx, b: Cpx, c: Cpx
      ensures Rings.LawsFor(CPX, a, b, c)
    {
      LawsAt(a, b, c);
    }
  }

  function Pow(w: Cpx, n: nat): Cpx {
    Rings.Pow(CPX, w, n)
  }

  lemma PowIs(w: Cpx, n: nat)
    ensures Pow(w, n) == Rings.Pow(CPX, w, n)
    ensures Pow(w, 0) == ONE && (n > 0 ==> Pow(w, n) == Mul(Pow(w, n - 1), w))
  {
    hide Mul;
  }

  lemma PowSum(w: Cpx, a: nat, b: nat)
    ensures Pow(w, a + b) == Mul(Pow(w, a), Pow(w, b))
  {
    hide Mul;
    CpxLaws();
    Rings.PowSum(CPX, w, a, b);
    RingIs(Pow(w, a), Pow(w, b));
  }

  lemma PowProduct(w: Cpx, a: nat, b: nat)
    ensures Pow(Pow(w, a), b) == Pow(w, a * b)
  {
    CpxLaws();
    Rings.PowProduct(CPX, w, a, b);
  }

  /** Exponents of a root of unity count modulo its order. */
  lemma PowPeriod(w: Cpx, n: nat, k: nat, j: nat)
    requires Pow(w, n) == ONE
    ensures Pow(w, k + n * j) == Pow(w, k)
  {
    CpxLaws();
    Rings.PowPeriod(CPX, w, n, k, j);
  }
}
