/** Bitwise operations of the C++ code on unsigned words, on natural numbers.
    The lemmas say when masking, or-ing and shifting are plain arithmetic. */
module Bits {

  function Pow2(n: nat): (p: nat)
    ensures p > 0
  {
    if n == 0 then 1 else 2 * Pow2(n - 1)
  }

  /** The operator & of C++. */
  function And(a: nat, b: nat): nat {
    if a == 0 || b == 0 then 0
    else (if a % 2 == 1 && b % 2 == 1 then 1 else 0) + 2 * And(a / 2, b / 2)
  }

  /** The operator | of C++. */
  function Or(a: nat, b: nat): nat {
    if a == 0 then b
    else if b == 0 then a
    else (if a % 2 == 1 || b % 2 == 1 then 1 else 0) + 2 * Or(a / 2, b / 2)
  }

  /** Left shift of a word of the given width: the bits shifted out are lost. */
  function Shl(a: nat, n: nat, width: nat): nat {
    (a * Pow2(n)) % Pow2(width)
  }

  /** Right shift. */
  function Shr(a: nat, n: nat): nat {
    if n == 0 then a else Shr(a / 2, n - 1)
  }

  lemma {:induction false} Pow2Sum(a: nat, b: nat)
    ensures Pow2(a + b) == Pow2(a) * Pow2(b)
  {
    if a > 0 {
      Pow2Sum(a - 1, b);
    }
  }

  lemma {:induction false} Pow2Mono(a: nat, b: nat)
    requires a <= b
    ensures Pow2(a) <= Pow2(b)
  {
    if a < b {
      Pow2Mono(a, b - 1);
    }
  }

  lemma Halves(x: nat, m: nat)
    requires m > 0
    ensures x % (2 * m) == x % 2 + 2 * ((x / 2) % m)
    ensures x / (2 * m) == (x / 2) / m
  {
    var q, r := (x / 2) / m, (x / 2) % m;
    assert x == 2 * (q * m + r) + x % 2;
    assert x == (2 * m) * q + (2 * r + x % 2);
    DivMod(x, 2 * m, q, 2 * r + x % 2);
  }

  lemma DivMod(x: int, d: int, q: int, r: int)
    requires 0 <= r < d && x == d * q + r
    ensures x / d == q && x % d == r
  {
    assert d * (q - x / d) == x % d - r;
    if q != x / d {
      Multiple(d, q - x / d);
    }
  }

  lemma Multiple(d: int, j: int)
    requires d > 0 && j != 0
    ensures d * j >= d || d * j <= -d
  {
    var t: nat := if j < 0 then -1 - j else j - 1;
    assert d * t >= 0;
    assert d * j == if j < 0 then -(d * t) - d else d * t + d;
  }

  lemma AndStep(a: nat, b: nat)
    ensures And(a, b) == (if a % 2 == 1 && b % 2 == 1 then 1 else 0) + 2 * And(a / 2, b / 2)
  {
  }

  /** Shifting right by n divides by 2^n. */
  lemma {:induction false} ShrDivides(a: nat, n: nat)
    ensures Shr(a, n) == a / Pow2(n)
  {
    if n > 0 {
      ShrDivides(a / 2, n - 1);
      Halves(a, Pow2(n - 1));
    }
  }

  /** Masking with 2^n - 1 is the remainder by 2^n. */
  lemma {:induction false} AndMask(x: nat, n: nat)
    ensures And(x, Pow2(n) - 1) == x % Pow2(n)
  {
    if n > 0 {
      var m := Pow2(n - 1);
      AndMask(x / 2, n - 1);
      AndStep(x, 2 * m - 1);
      assert (2 * m - 1) / 2 == m - 1 && (2 * m - 1) % 2 == 1;
      Halves(x, m);
    }
  }

  /** Or-ing two words that share no bit adds them. */
  lemma {:induction false} OrDisjoint(d: nat, c: nat, n: nat)
    requires d < Pow2(n)
    ensures Or(d, c * Pow2(n)) == d + c * Pow2(n)
  {
    if n > 0 && d > 0 && c > 0 {
      var m := Pow2(n - 1);
      assert c * Pow2(n) == 2 * (c * m);
      assert (2 * (c * m)) / 2 == c * m;
      OrDisjoint(d / 2, c, n - 1);
    }
  }

  /** The test "x & (x - 1) == 0" of a positive word holds exactly for powers of two. */
  lemma {:induction false} PowerOfTwoTest(x: nat)
    requires x > 0
    ensures And(x, x - 1) == 0 <==> exists n: nat :: x == Pow2(n)
  {
    if x == 1 {
      assert x == Pow2(0);
    } else if x % 2 == 1 {
      assert And(x, x - 1) == 2 * And(x / 2, x / 2);
      AndSelf(x / 2);
      forall n: nat
        ensures x != Pow2(n)
      {
        if n > 0 {
          assert Pow2(n) == 2 * Pow2(n - 1);
        }
      }
    } else {
      var h := x / 2;
      AndStep(x, x - 1);
      assert (x - 1) / 2 == h - 1;
      PowerOfTwoTest(h);
      if n: nat :| x == Pow2(n) {
        HalfPower(x, n);
      }
      if n: nat :| h == Pow2(n) {
        DoublePower(n);
      }
    }
  }

  lemma HalfPower(x: nat, n: nat)
    requires x == Pow2(n) && x > 1
    ensures exists j: nat :: x / 2 == Pow2(j)
  {
    assert x / 2 == Pow2(n - 1);
  }

  lemma DoublePower(n: nat)
    ensures exists j: nat :: 2 * Pow2(n) == Pow2(j)
  {
    assert 2 * Pow2(n) == Pow2(n + 1);
  }

  lemma {:induction false} AndSelf(x: nat)
    ensures And(x, x) == x
  {
    if x > 0 {
      AndSelf(x / 2);
    }
  }

  /** Bit i of x. */
  predicate Bit(x: nat, i: nat) {
    (x / Pow2(i)) % 2 == 1
  }

  /** Masking with a power of two tests one bit. */
  lemma {:induction false} BitTest(x: nat, i: nat)
    ensures And(x, Pow2(i)) != 0 <==> (x / Pow2(i)) % 2 == 1
  {
    if i == 0 {
      AndStep(x, 1);
      assert And(x / 2, 0) == 0;
    } else {
      var m := Pow2(i - 1);
      AndStep(x, 2 * m);
      assert (2 * m) / 2 == m && (2 * m) % 2 == 0;
      BitTest(x / 2, i - 1);
      Halves(x, m);
    }
  }

  lemma HalfBit(x: nat, i: nat)
    ensures Bit(x, 0) <==> x % 2 == 1
    ensures i > 0 ==> (Bit(x, i) <==> Bit(x / 2, i - 1))
  {
    if i > 0 {
      Halves(x, Pow2(i - 1));
    }
  }

  /** The operators & and | work bit by bit. */
  lemma {:induction false} AndBits(a: nat, b: nat, i: nat)
    ensures Bit(And(a, b), i) <==> Bit(a, i) && Bit(b, i)
  {
    AndStep(a, b);
    HalfBit(And(a, b), i);
    HalfBit(a, i);
    HalfBit(b, i);
    hide Bit, And;
    if i > 0 {
      AndBits(a / 2, b / 2, i - 1);
    }
  }

  lemma OrStep(a: nat, b: nat)
    ensures Or(a, b) == (if a % 2 == 1 || b % 2 == 1 then 1 else 0) + 2 * Or(a / 2, b / 2)
  {
  }

  lemma {:induction false} OrBits(a: nat, b: nat, i: nat)
    ensures Bit(Or(a, b), i) <==> Bit(a, i) || Bit(b, i)
  {
    OrStep(a, b);
    HalfBit(Or(a, b), i);
    HalfBit(a, i);
    HalfBit(b, i);
    hide Bit, Or;
    if i > 0 {
      OrBits(a / 2, b / 2, i - 1);
    }
  }
}
