/** The two factorisers of kiss_fft, and the factor list both produce. */
module FftFactor {
  import opened Bits
  import opened DftTheory
  import Fft

  /** d divides n properly or is n. */
  predicate Divides(d: nat, n: nat) {
    d > 0 && n % d == 0
  }

  predicate Prime(n: nat) {
    n > 1 && forall d :: 1 < d < n ==> !Divides(d, n)
  }

  /** The least divisor of n that is at least d. */
  function LeastFrom(n: nat, d: nat): (r: nat)
    requires 1 <= d <= n
    ensures d <= r <= n && Divides(r, n)
    ensures forall e :: d <= e < r ==> !Divides(e, n)
    decreases n - d
  {
    if Divides(d, n) then d else LeastFrom(n, d + 1)
  }

  /** The radix of the first stage of a transform of length n: 4 when 4 divides n, else the least
      prime factor. */
  function Radix(n: nat): (p: nat)
    requires n > 0
    ensures 0 < p <= n && Divides(p, n)
  {
    if n % 4 == 0 then 4 else if n == 1 then 1 else LeastFrom(n, 2)
  }

  lemma RadixShrinks(n: nat)
    requires n > 1
    ensures 0 < n / Radix(n) < n && Prod(Radix(n), n / Radix(n)) == n && n / Radix(n) <= n / 2
  {
    var p := Radix(n);
    assert p >= 2;
    var m := n / p;
    assert n == p * m;
    QuotientHalf(n, p, m);
  }

  lemma QuotientHalf(n: nat, p: nat, m: nat)
    requires n == p * m && p >= 2 && n > 0
    ensures 0 < m && 2 * m <= n
  {
    var d: nat := p - 2;
    assert d * m >= 0;
    assert p * m == 2 * m + d * m;
  }

  /** The factor list of a transform of length n. */
  function Chain(n: nat): seq<nat>
    requires n > 0
    decreases n
  {
    if n == 1 then [1, 1]
    else
      RadixShrinks(n);
      [Radix(n), n / Radix(n)] + if n / Radix(n) > 1 then Chain(n / Radix(n)) else []
  }

  /** The list is one that the transform accepts: the stages multiply up to n. */
  lemma {:induction false} ChainFactors(n: nat)
    requires n > 0
    ensures Fft.Factors(Chain(n), n)
  {
    if n > 1 {
      RadixShrinks(n);
      var m := n / Radix(n);
      if m > 1 {
        ChainFactors(m);
        assert Chain(n)[2..] == Chain(m);
      }
    }
  }

  /** What is left of the length before a stage. */
  function RestAt(n: nat, i: nat): nat
    requires n > 1 && 2 * i < |Chain(n)|
  {
    if i == 0 then n else Chain(n)[2 * i - 1]
  }

  /** Every radix is 4 when 4 divides the rest of the length, else the least prime factor of the rest. */
  lemma {:induction false} ChainRadices(n: nat, i: nat)
    requires n > 1 && 2 * i < |Chain(n)|
    ensures 2 * i + 1 < |Chain(n)|
    ensures var p, rest := Chain(n)[2 * i], RestAt(n, i);
      && rest > 1 && p * Chain(n)[2 * i + 1] == rest && (p == 4 <==> rest % 4 == 0)
      && (p != 4 ==> Prime(p) && forall d :: 1 < d < p ==> !Divides(d, rest))
    decreases n
  {
    RadixShrinks(n);
    var m := n / Radix(n);
    if i == 0 {
      RadixPrime(n);
      RadixLeast(n);
    } else {
      ChainRadices(m, i - 1);
      ChainBehind(n, m, i);
    }
  }

  lemma ChainBehind(n: nat, m: nat, i: nat)
    requires n > 1 && 0 < i && 2 * i < |Chain(n)| && m == n / Radix(n)
    ensures m > 1 && 2 * (i - 1) < |Chain(m)| == |Chain(n)| - 2 && Chain(n)[2 * i] == Chain(m)[2 * (i - 1)]
    ensures 2 * i - 1 < |Chain(m)| ==> Chain(n)[2 * i + 1] == Chain(m)[2 * i - 1]
    ensures RestAt(n, i) == RestAt(m, i - 1)
  {
    ChainStarts(n);
    var p := Radix(n);
    hide Chain, Radix;
    assert Chain(n) == [p, m] + Chain(m);
  }

  lemma RadixLeast(n: nat)
    requires n > 1
    ensures Radix(n) == 4 <==> n % 4 == 0
    ensures Radix(n) != 4 ==> forall d :: 1 < d < Radix(n) ==> !Divides(d, n)
  {
  }

  lemma RadixPrime(n: nat)
    requires n > 1
    ensures Radix(n) == 4 || Prime(Radix(n))
  {
    var p := Radix(n);
    if p != 4 {
      forall d | 1 < d < p
        ensures !Divides(d, p)
      {
        if Divides(d, p) {
          DividesThrough(d, p, n);
          assert false;
        }
      }
    }
  }

  lemma DividesThrough(d: nat, p: nat, n: nat)
    requires Divides(d, p) && Divides(p, n)
    ensures Divides(d, n)
  {
    var a, b := p / d, n / p;
    assert n == (b * a) * d;
    DivMod(n, d, b * a, 0);
  }

  /** A transform shorter than 2^(k+1) has at most k stages. */
  lemma {:induction false} ChainShort(n: nat, k: nat)
    requires 0 < n < Pow2(k + 1) && k > 0
    ensures |Chain(n)| <= 2 * k
  {
    if n > 1 {
      RadixShrinks(n);
      var m := n / Radix(n);
      if m > 1 {
        assert Pow2(k + 1) == 2 * Pow2(k);
        assert k > 1 by {
          assert Pow2(2) == 2 * Pow2(1) == 4;
        }
        ChainShort(m, k - 1);
      }
    }
  }

  /** The fixed factor array has room for 32 pairs; no length below 2^31 needs more than 30. */
  lemma ChainFitsArray(n: nat)
    requires 0 < n < Pow2(31)
    ensures |Chain(n)| <= 60
  {
    ChainShort(n, 30);
  }

  function FloorSqrt(n: nat): (r: nat)
    ensures r * r <= n < (r + 1) * (r + 1)
  {
    if n == 0 then 0
    else
      var r := FloorSqrt(n - 1);
      if (r + 1) * (r + 1) <= n then r + 1 else r
  }

  /** No radix before p is left in n. */
  ghost predicate Sieved(n: nat, p: nat) {
    || p == 4
    || (p == 2 && n % 4 != 0)
    || (p >= 3 && p % 2 == 1 && n % 2 == 1 && forall d :: 2 <= d < p ==> !Divides(d, n))
  }

  function NextRadix(p: nat): nat {
    if p == 4 then 2 else if p == 2 then 3 else p + 2
  }

  lemma SievedNext(n: nat, p: nat)
    requires Sieved(n, p) && n > 0 && n % p != 0
    ensures Sieved(n, NextRadix(p)) && NextRadix(p) != 4
  {
    if p == 2 {
      assert n % 2 == 1;
    } else if p != 4 {
      SievedByTwo(n, p);
    }
  }

  lemma SievedByTwo(n: nat, p: nat)
    requires p >= 3 && p % 2 == 1 && n % 2 == 1 && !Divides(p, n) && forall d :: 2 <= d < p ==> !Divides(d, n)
    ensures forall d :: 2 <= d < p + 2 ==> !Divides(d, n)
  {
    EvenDivisor(p + 1, n);
    hide Divides;
  }

  lemma EvenDivisor(d: nat, n: nat)
    requires d % 2 == 0 && n % 2 == 1
    ensures !Divides(d, n)
  {
    if Divides(d, n) {
      DividesThrough(2, d, n);
      assert false;
    }
  }

  /** A sieved radix that divides n is the radix of the stage. */
  lemma SievedRadix(n: nat, p: nat)
    requires n > 0 && Sieved(n, p) && Divides(p, n)
    ensures Radix(n) == p
  {
    if p != 4 {
      assert n > 1;
      NotFour(n, p);
      var r := Radix(n);
      assert r <= p;
    }
  }

  lemma NotFour(n: nat, p: nat)
    requires Sieved(n, p) && p != 4
    ensures n % 4 != 0
  {
  }

  /** When the square of p exceeds n, the rest has no proper factor. */
  lemma NoMoreFactors(n: nat, p: nat)
    requires n > 0 && Sieved(n, p) && p != 4 && p * p > n
    ensures Radix(n) == n
  {
    if Radix(n) < n {
      ProperFactor(n, p);
    }
  }

  lemma ProperFactor(n: nat, p: nat)
    requires n > 0 && Sieved(n, p) && p != 4 && Radix(n) < n
    ensures p * p <= n
  {
    NotFour(n, p);
    var r := Radix(n);
    var m := n / r;
    assert n == r * m;
    RadixShrinks(n);
    assert m > 1;
    DivMod(n, m, r, 0);
    assert Divides(m, n);
    assert r == LeastFrom(n, 2);
    assert r <= m;
    Squares(p, p, r, m);
  }

  lemma Squares(a: nat, b: nat, c: nat, d: nat)
    requires a <= c && b <= d
    ensures a * b <= c * d
  {
    var e: nat, g: nat := c - a, d - b;
    assert e * d >= 0 && a * g >= 0;
    assert c * d == a * d + e * d;
    assert a * d == a * b + a * g;
  }

  lemma QuotientDivides(n: nat, p: nat)
    requires n > 0 && Divides(p, n)
    ensures n / p > 0 && Divides(n / p, n)
  {
    var m := n / p;
    assert n == p * m;
    DivMod(n, m, p, 0);
  }

  lemma QuotientSieved(d: nat, p: nat, n: nat)
    requires n > 0 && Divides(p, n) && !Divides(d, n)
    ensures !Divides(d, n / p)
  {
    if Divides(d, n / p) {
      QuotientDivides(n, p);
      DividesThrough(d, n / p, n);
      assert false;
    }
  }

  /** The rest after a stage is sieved as well. */
  lemma SievedRest(n: nat, p: nat)
    requires n > 0 && Sieved(n, p) && Divides(p, n)
    ensures Sieved(n / p, p)
  {
    if p == 2 {
      HalfOfTwice(n);
    } else if p != 4 {
      forall d | 2 <= d < p
        ensures !Divides(d, n / p)
      {
        QuotientSieved(d, p, n);
      }
      assert !Divides(2, n / p);
    }
  }

  lemma HalfOfTwice(n: nat)
    requires n % 4 != 0 && n % 2 == 0
    ensures (n / 2) % 4 != 0
  {
    var h := n / 2;
    if h % 4 == 0 {
      DivMod(n, 4, 2 * (h / 4), 0);
      assert false;
    }
  }

  /** The measure of the search for the next radix. */
  ghost function Search(n: nat, p: nat): int {
    if p == n then 0 else if p == 4 then n + 2 else if p == 2 then n + 1 else n - p
  }

  lemma SievedBelow(n: nat, p: nat)
    requires n > 1 && Sieved(n, p) && p != 4
    ensures p <= n
  {
    assert Divides(n, n);
  }

  lemma SearchShrinks(n: nat, p: nat, next: nat)
    requires p > 0 && n > 0 && n % p != 0 && Sieved(n, p) && (n > 1 || p == 4)
    requires next == n || (n > 1 && next == NextRadix(p) && Sieved(n, next))
    ensures 0 <= Search(n, next) < Search(n, p)
  {
    if p != 4 {
      SievedBelow(n, p);
    }
    if next != n {
      SievedBelow(n, next);
    }
  }

  /** The loop state of both factorisers: what is emitted, followed by the list of the rest, is the whole list. */
  ghost predicate Factoring(facbuf: seq<nat>, n: nat, p: nat, total: nat) {
    && 0 < n <= total && p > 0 && (n > 1 || total == 1)
    && facbuf + Chain(n) == Chain(total) && (n == 1 ==> p == 4) && Sieved(n, p)
  }

  lemma ChainStarts(n: nat)
    requires n > 0
    ensures n / Radix(n) > 1 ==> Chain(n) == [Radix(n), n / Radix(n)] + Chain(n / Radix(n))
    ensures n / Radix(n) <= 1 ==> Chain(n) == [Radix(n), n / Radix(n)]
    ensures n / Radix(n) <= n
  {
    if n > 1 {
      RadixShrinks(n);
    }
  }

  lemma StageEmitted(facbuf: seq<nat>, n: nat, p: nat, total: nat)
    requires 0 < n <= total && facbuf + Chain(n) == Chain(total) && p == Radix(n)
    ensures n / p <= 1 ==> facbuf + [p, n / p] == Chain(total)
    ensures n / p > 1 ==> facbuf + [p, n / p] + Chain(n / p) == Chain(total) && n / p <= total
  {
    ChainStarts(n);
    var m := n / p;
    hide *;
    if m > 1 {
      Regroup(facbuf, [p, m], Chain(m));
    }
  }

  lemma Regroup(a: seq<nat>, b: seq<nat>, c: seq<nat>)
    ensures a + (b + c) == a + b + c
  {
  }

  /** What the search for the next radix of n may meet on its way. */
  ghost predicate Searching(n: nat, p: nat, total: nat) {
    && 0 < n <= total && p > 0 && (n == 1 ==> p == 4 || p == n)
    && ((p == n && Radix(n) == n) || Sieved(n, p))
  }

  /** One step of the search, with either test for giving up: the bound on the square of the new
      radix may be the rest or anything above it. */
  lemma SearchStep(n: nat, p: nat, total: nat, giveUp: bool, next: nat)
    requires Searching(n, p, total) && n % p != 0
    requires giveUp ==> NextRadix(p) * NextRadix(p) > n
    requires n == 1 ==> giveUp
    requires next == if giveUp then n else NextRadix(p)
    ensures Searching(n, next, total) && 0 <= Search(n, next) < Search(n, p)
  {
    SievedNext(n, p);
    if giveUp {
      NoMoreFactors(n, NextRadix(p));
    }
    SearchShrinks(n, p, next);
  }

  lemma SearchEnds(n: nat, p: nat, total: nat)
    requires Searching(n, p, total) && n % p == 0
    ensures p == Radix(n) && (n / p > 1 ==> Sieved(n / p, p))
  {
    if Sieved(n, p) && n % p == 0 {
      SievedRadix(n, p);
      SievedRest(n, p);
    }
  }

  lemma RootBound(n: nat, total: nat, p: nat)
    requires 0 < n <= total
    ensures p > FloorSqrt(total) ==> p * p > n
    ensures n == 1 && total == 1 ==> FloorSqrt(total) == 1
  {
    var r := FloorSqrt(total);
    if p > r {
      Squares(r + 1, r + 1, p, p);
    }
  }

  /** kf_factor: gives up when the next radix exceeds the square root of the whole length. */
  method KfFactor(total: nat) returns (facbuf: seq<nat>)
    requires total > 0
    ensures facbuf == Chain(total)
  {
    var n, p := total, 4;
    var floorSqrt := FloorSqrt(total);
    facbuf := [];
    while true
      invariant Factoring(facbuf, n, p, total)
      decreases n
    {
      while n % p != 0
        invariant Searching(n, p, total)
        decreases Search(n, p)
      {
        ghost var before := p;
        p := NextRadix(p);
        RootBound(n, total, p);
        ghost var giveUp := p > floorSqrt;
        if p > floorSqrt {
          p := n;
        }
        SearchStep(n, before, total, giveUp, p);
      }
      SearchEnds(n, p, total);
      StageEmitted(facbuf, n, p, total);
      facbuf := facbuf + [p, n / p];
      if n > 1 {
        RadixShrinks(n);
      }
      n := n / p;
      if n <= 1 {
        break;
      }
    }
  }

  /** prepare: gives up when the square of the next radix exceeds the rest. */
  method Prepare(nfft: nat) returns (stageRadix: seq<nat>, stageRemainder: seq<nat>)
    requires nfft > 0
    ensures |stageRadix| == |stageRemainder| && Interleaved(stageRadix, stageRemainder) == Chain(nfft)
  {
    var n, p := nfft, 4;
    stageRadix, stageRemainder := [], [];
    while true
      invariant |stageRadix| == |stageRemainder| && Factoring(Interleaved(stageRadix, stageRemainder), n, p, nfft)
      decreases n
    {
      while n % p != 0
        invariant Searching(n, p, nfft)
        decreases Search(n, p)
      {
        ghost var before := p;
        p := NextRadix(p);
        ghost var giveUp := p * p > n;
        if p * p > n {
          p := n;
        }
        SearchStep(n, before, nfft, giveUp, p);
      }
      SearchEnds(n, p, nfft);
      StageEmitted(Interleaved(stageRadix, stageRemainder), n, p, nfft);
      if n > 1 {
        RadixShrinks(n);
      }
      InterleavedOneMore(stageRadix, stageRemainder, p, n / p);
      n := n / p;
      stageRadix, stageRemainder := stageRadix + [p], stageRemainder + [n];
      if n <= 1 {
        break;
      }
    }
  }

  /** The two lists of prepare as the one list of kf_factor. */
  function Interleaved(ps: seq<nat>, ms: seq<nat>): seq<nat>
    requires |ps| == |ms|
  {
    if ps == [] then [] else [ps[0], ms[0]] + Interleaved(ps[1..], ms[1..])
  }

  lemma {:induction false} InterleavedOneMore(ps: seq<nat>, ms: seq<nat>, p: nat, m: nat)
    requires |ps| == |ms|
    ensures Interleaved(ps + [p], ms + [m]) == Interleaved(ps, ms) + [p, m]
  {
    if ps != [] {
      InterleavedOneMore(ps[1..], ms[1..], p, m);
      assert (ps + [p])[1..] == ps[1..] + [p] && (ms + [m])[1..] == ms[1..] + [m];
    }
  }
}
