/** The residues modulo 31: a finite ring in which the transform with the generic butterfly runs at
    length 15, with radices 3 and 5. */
module Residues {
  import opened Bits
  import opened Rings
  import opened DftTheory
  import Fft
  import FftFactor

  const MODULUS := 31

  type Residue = x: int | 0 <= x < MODULUS

  function Sum31(a: Residue, b: Residue): Residue {
    (a + b) % MODULUS
  }

  function Negative31(a: Residue): Residue {
    (MODULUS - a) % MODULUS
  }

  function Product31(a: Residue, b: Residue): Residue {
    (a * b) % MODULUS
  }

  const RESIDUES: Ring<Residue> := Ring(0, 1, Sum31, Negative31, Product31)

  lemma ReduceFactor(a: nat, b: nat)
    ensures ((a % MODULUS) * b) % MODULUS == (a * b) % MODULUS
  {
    var q, r := a / MODULUS, a % MODULUS;
    assert a == MODULUS * q + r;
    assert a * b == MODULUS * (q * b) + r * b;
    Shift(r * b, q * b);
  }

  lemma Shift(x: nat, k: nat)
    ensures (MODULUS * k + x) % MODULUS == x % MODULUS
  {
    DivMod(MODULUS * k + x, MODULUS, k + x / MODULUS, x % MODULUS);
  }

  lemma ReduceTerm(a: nat, b: nat)
    ensures (a % MODULUS + b) % MODULUS == (a + b) % MODULUS
  {
    Shift(a % MODULUS + b, a / MODULUS);
  }

  lemma AddLaw(a: Residue, b: Residue, c: Residue)
    ensures Sum31(Sum31(a, b), c) == Sum31(a, Sum31(b, c))
  {
    ReduceTerm(a + b, c);
    ReduceTerm(b + c, a);
  }

  lemma MulLaw(a: Residue, b: Residue, c: Residue)
    ensures Product31(Product31(a, b), c) == Product31(a, Product31(b, c))
  {
    ReduceFactor(a * b, c);
    ReduceFactor(b * c, a);
    Regroup(a, b, c);
    Commute(a, Product31(b, c));
  }

  lemma Regroup(a: int, b: int, c: int)
    ensures (a * b) * c == (b * c) * a
  {
  }

  lemma Commute(a: int, b: int)
    ensures a * b == b * a
  {
  }

  lemma SumLaw(a: Residue, b: Residue, c: Residue)
    ensures Product31(Sum31(a, b), c) == Sum31(Product31(a, c), Product31(b, c))
  {
    ReduceFactor(a + b, c);
    ReduceTerm(a * c, Product31(b, c));
    ReduceTerm(b * c, a * c);
    Distribute(a, b, c);
  }

  lemma Distribute(a: int, b: int, c: int)
    ensures (a + b) * c == a * c + b * c
  {
  }

  lemma LawsAt(a: Residue, b: Residue, c: Residue)
    ensures LawsFor(RESIDUES, a, b, c)
  {
    hide Sum31, Product31;
    AddLaw(a, b, c);
    MulLaw(a, b, c);
    SumLaw(a, b, c);
    UnitLaws(a, b);
  }

  lemma UnitLaws(a: Residue, b: Residue)
    ensures Add(RESIDUES, a, b) == Add(RESIDUES, b, a) && Mul(RESIDUES, a, b) == Mul(RESIDUES, b, a)
    ensures Add(RESIDUES, a, 0) == a && Add(RESIDUES, a, Neg(RESIDUES, a)) == 0 && Mul(RESIDUES, a, 1) == a
  {
    assert a * b == b * a;
  }

  lemma ResiduesAreRing()
    ensures Laws(RESIDUES)
  {
    hide LawsFor;
    forall a: Residue, b: Residue, c: Residue
      ensures LawsFor(RESIDUES, a, b, c)
    {
      LawsAt(a, b, c);
    }
  }

  const POWERS_OF_NINE: seq<Residue> := [1, 9, 19, 16, 20, 25, 8, 10, 28, 4, 5, 14, 2, 18, 7]

  lemma {:induction false} PowersOfNine(n: nat)
    requires n <= 15
    ensures Pow(RESIDUES, 9, n) == if n < 15 then POWERS_OF_NINE[n] else 1
  {
    if n > 0 {
      PowersOfNine(n - 1);
      NextPower(n);
    }
  }

  lemma NextPower(n: nat)
    requires 0 < n <= 15
    ensures Mul(RESIDUES, POWERS_OF_NINE[n - 1], 9) == if n < 15 then POWERS_OF_NINE[n] else 1
  {
  }

  lemma NineIsRoot()
    ensures Twiddles(RESIDUES, State(15, false, POWERS_OF_NINE), 9)
  {
    PowersOfNine(15);
    forall i | 0 <= i < 15
      ensures POWERS_OF_NINE[i] == Pow(RESIDUES, 9, i)
    {
      PowersOfNine(i);
    }
    hide Pow;
  }

  lemma RadixFifteen()
    ensures FftFactor.Radix(15) == 3
  {
    assert FftFactor.LeastFrom(15, 2) == FftFactor.LeastFrom(15, 3) == 3;
  }

  lemma RadixFive()
    ensures FftFactor.Radix(5) == 5
  {
    assert FftFactor.LeastFrom(5, 2) == FftFactor.LeastFrom(5, 3);
    assert FftFactor.LeastFrom(5, 4) == FftFactor.LeastFrom(5, 5) == 5;
  }

  lemma FactorsOfFifteen()
    ensures FftFactor.Chain(15) == [3, 5, 5, 1] && Fft.Factors(FftFactor.Chain(15), 15)
  {
    hide *;
    FftFactor.ChainFactors(15);
    RadixFifteen();
    RadixFive();
    FftFactor.ChainStarts(15);
    FftFactor.ChainStarts(5);
    assert [3, 5] + [5, 1] == [3, 5, 5, 1];
  }

  /** 9 is a root of order 15, and the factors of 15 are 3 and 5: all that the transform asks for. */
  lemma LengthFifteen()
    ensures Laws(RESIDUES) && Twiddles(RESIDUES, State(15, false, POWERS_OF_NINE), 9)
    ensures FftFactor.Chain(15) == [3, 5, 5, 1] && Fft.Factors(FftFactor.Chain(15), 15)
  {
    hide *;
    ResiduesAreRing();
    NineIsRoot();
    FactorsOfFifteen();
  }
}
