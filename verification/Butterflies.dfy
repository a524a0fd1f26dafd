/** The in-place butterflies of kiss_fft. The output block of p * m cells is read as p rows
    of m cells; a butterfly works on one column at a time. */
module Butterflies {
  import opened Bits
  import opened Rings
  import opened DftTheory

  /** The cell in row q and column u of the block that starts at base. */
  function At(base: nat, m: nat, q: nat, u: nat): nat {
    base + (u + Prod(q, m))
  }

  /** Cells outside column u of the block. */
  predicate OffColumn(i: int, base: nat, p: nat, m: nat, u: nat)
    requires m > 0
  {
    i < base || i >= base + Prod(p, m) || (i - base) % m != u
  }

  lemma AtInBlock(base: nat, p: nat, m: nat, q: nat, u: nat)
    requires q < p && u < m
    ensures base <= At(base, m, q, u) < base + Prod(p, m)
    ensures (At(base, m, q, u) - base) % m == u
  {
    var d: nat := p - q - 1;
    assert d * m >= 0;
    assert p * m == q * m + m + d * m;
    DivMod(u + q * m, m, q, u);
  }

  /** The values in column u. */
  function ColumnAt<T>(s: seq<T>, base: nat, p: nat, m: nat, u: nat): (y: seq<T>)
    requires u < m && base + Prod(p, m) <= |s|
    ensures |y| == p
  {
    seq(p, q requires 0 <= q < p => (AtInBlock(base, p, m, q, u); s[At(base, m, q, u)]))
  }

  /** The first u columns of the block hold the combined values of s, the rest is s. */
  ghost predicate Swept<T(!new)>(ring: Ring<T>, s: seq<T>, t: seq<T>, base: nat, p: nat, m: nat, u: nat, fstride: nat,
      st: State<T>) {
    && 0 < m && base + Prod(p, m) <= |s| == |t| && u <= m && 0 < st.nfft == |st.twiddles|
    && (forall i :: 0 <= i < |s| && (i < base || base + Prod(p, m) <= i) ==> t[i] == s[i])
    && (forall q, v :: 0 <= q < p && u <= v < m ==> Unchanged(s, t, At(base, m, q, v)))
    && (forall q, v :: 0 <= q < p && 0 <= v < u ==> Combined(ring, s, t, base, p, m, q, v, fstride, st))
  }

  ghost predicate Unchanged<T(!new)>(s: seq<T>, t: seq<T>, i: nat) {
    i < |s| == |t| && t[i] == s[i]
  }

  /** Row q of column u holds what the generic butterfly makes of column u of s. */
  ghost predicate Combined<T(!new)>(ring: Ring<T>, s: seq<T>, t: seq<T>, base: nat, p: nat, m: nat, q: nat, u: nat,
      fstride: nat, st: State<T>)
    requires 0 < st.nfft == |st.twiddles|
  {
    && u < m && q < p && base + Prod(p, m) <= |s| && At(base, m, q, u) < |t|
    && t[At(base, m, q, u)] == Combine(ring, ColumnAt(s, base, p, m, u), st, Prod(fstride, u + Prod(q, m)), p)
  }

  /** Column u of t is written, the other cells are kept. */
  ghost predicate ColumnWritten<T(!new)>(ring: Ring<T>, s: seq<T>, t: seq<T>, base: nat, p: nat, m: nat, u: nat,
      fstride: nat, st: State<T>)
    requires 0 < st.nfft == |st.twiddles|
  {
    && |s| == |t| && u < m
    && (forall q :: 0 <= q < p ==> Combined(ring, s, t, base, p, m, q, u, fstride, st))
    && (forall i :: 0 <= i < |s| && OffColumn(i, base, p, m, u) ==> t[i] == s[i])
  }

  lemma SweptStart<T(!new)>(ring: Ring<T>, s: seq<T>, base: nat, p: nat, m: nat, fstride: nat, st: State<T>)
    requires 0 < m && base + Prod(p, m) <= |s| && 0 < st.nfft == |st.twiddles|
    ensures Swept(ring, s, s, base, p, m, 0, fstride, st)
  {
    forall q, v | 0 <= q < p && 0 <= v < m
      ensures Unchanged(s, s, At(base, m, q, v))
    {
      AtInBlock(base, p, m, q, v);
    }
  }

  /** Writing column u after the first u columns sweeps one column more. */
  lemma SweptNext<T(!new)>(ring: Ring<T>, s: seq<T>, t: seq<T>, t': seq<T>, base: nat, p: nat, m: nat, u: nat,
      fstride: nat, st: State<T>)
    requires u < m && Swept(ring, s, t, base, p, m, u, fstride, st)
    requires ColumnWritten(ring, t, t', base, p, m, u, fstride, st)
    ensures Swept(ring, s, t', base, p, m, u + 1, fstride, st)
  {
    hide Laws, Combine;
    assert ColumnAt(t, base, p, m, u) == ColumnAt(s, base, p, m, u) by {
      forall q | 0 <= q < p
        ensures ColumnAt(t, base, p, m, u)[q] == ColumnAt(s, base, p, m, u)[q]
      {
        assert Unchanged(s, t, At(base, m, q, u));
      }
    }
    forall q, v | 0 <= q < p && u + 1 <= v < m
      ensures Unchanged(s, t', At(base, m, q, v))
    {
      AtInBlock(base, p, m, q, v);
      assert Unchanged(s, t, At(base, m, q, v));
    }
    forall q, v | 0 <= q < p && 0 <= v < u + 1
      ensures Combined(ring, s, t', base, p, m, q, v, fstride, st)
    {
      if v < u {
        AtInBlock(base, p, m, q, v);
        assert Combined(ring, s, t, base, p, m, q, v, fstride, st);
      } else {
        assert Combined(ring, t, t', base, p, m, q, u, fstride, st);
      }
    }
  }

  method Generic<T(!new)>(ring: Ring<T>, fout: array<T>, base: nat, fstride: nat, st: State<T>, m: nat, p: nat)
    requires Laws(ring)
    requires 0 < p && 0 < m && base + Prod(p, m) <= fout.Length && 0 < st.nfft == |st.twiddles|
    requires Prod(fstride, Prod(p, m)) == st.nfft && st.twiddles[0] == ring.one
    modifies fout
    ensures Swept(ring, old(fout[..]), fout[..], base, p, m, m, fstride, st)
  {
    ghost var s := fout[..];
    SweptStart(ring, s, base, p, m, fstride, st);
    for u := 0 to m
      invariant Swept(ring, s, fout[..], base, p, m, u, fstride, st)
    {
      ghost var t := fout[..];
      GenericColumn(ring, fout, base, fstride, st, m, p, u);
      SweptNext(ring, s, t, fout[..], base, p, m, u, fstride, st);
    }
  }

  lemma StepFits(fstride: nat, p: nat, m: nat, q: nat, u: nat, nfft: nat)
    requires Prod(fstride, Prod(p, m)) == nfft > 0 && q < p && u < m
    ensures Prod(fstride, u + Prod(q, m)) < nfft
  {
    AtInBlock(0, p, m, q, u);
    StrictlyMonotone(fstride, u + q * m, p * m);
  }

  lemma StrictlyMonotone(a: nat, b: nat, c: nat)
    requires b < c && a * c > 0
    ensures a * b < a * c
  {
    var d: nat := c - b - 1;
    assert a * d >= 0;
    assert a * c == a * b + a + a * d;
    assert a > 0;
  }

  lemma NextTwiddle(twidx: nat, step: nat, q: nat, nfft: nat)
    requires step < nfft && twidx == Prod(step, q) % nfft
    ensures Prod(step, q + 1) % nfft == if twidx + step >= nfft then twidx + step - nfft else twidx + step
  {
    var n := (step * q) / nfft;
    assert step * q == nfft * n + twidx;
    if twidx + step >= nfft {
      DivMod(step * (q + 1), nfft, n + 1, twidx + step - nfft);
    } else {
      DivMod(step * (q + 1), nfft, n, twidx + step);
    }
  }

  /** Sums the twiddled values into one cell; the running twiddle index is reduced by one
      conditional subtraction. */
  method SumInto<T(!new)>(ring: Ring<T>, fout: array<T>, i: nat, scratch: array<T>, step: nat, st: State<T>)
    requires Laws(ring)
    requires fout != scratch && i < fout.Length && 0 < scratch.Length
    requires 0 < st.nfft == |st.twiddles| && step < st.nfft && st.twiddles[0] == ring.one
    modifies fout
    ensures fout[..] == old(fout[..])[i := Combine(ring, scratch[..], st, step, scratch.Length)]
  {
    hide Laws, Mul, Add;
    var p := scratch.Length;
    fout[i] := scratch[0];
    ghost var y := scratch[..];
    FirstTerm(ring, y, st, step);
    var twidx := 0;
    for q := 1 to p
      invariant twidx == Prod(step, q - 1) % st.nfft && scratch[..] == y
      invariant fout[..] == old(fout[..])[i := Combine(ring, y, st, step, q)]
    {
      NextTwiddle(twidx, step, q - 1, st.nfft);
      twidx := twidx + step;
      if twidx >= st.nfft {
        twidx := twidx - st.nfft;
      }
      fout[i] := Add(ring, fout[i], Mul(ring, scratch[q], st.twiddles[twidx]));
    }
  }

  lemma FirstTerm<T(!new)>(ring: Ring<T>, y: seq<T>, st: State<T>, step: nat)
    requires Laws(ring)
    requires y != [] && 0 < st.nfft == |st.twiddles| && st.twiddles[0] == ring.one
    ensures Combine(ring, y, st, step, 1) == y[0]
  {
    hide Laws, Mul, Add;
    assert Prod(step, 0) == 0;
    assert Combine(ring, y, st, step, 0) == ring.zero;
    MulOne(ring, y[0]);
    AddZero(ring, y[0]);
  }

  /** The first n rows of column u are written. */
  ghost predicate RowsWritten<T(!new)>(ring: Ring<T>, s: seq<T>, t: seq<T>, base: nat, p: nat, m: nat, u: nat, n: nat,
      fstride: nat,
      st: State<T>)
    requires 0 < st.nfft == |st.twiddles|
  {
    && |s| == |t| && u < m && n <= p
    && (forall q :: 0 <= q < n ==> Combined(ring, s, t, base, p, m, q, u, fstride, st))
    && (forall i :: 0 <= i < |s| && OffColumn(i, base, p, m, u) ==> t[i] == s[i])
  }

  lemma RowWritten<T(!new)>(ring: Ring<T>, s: seq<T>, t: seq<T>, t': seq<T>, base: nat, p: nat, m: nat, u: nat,
      n: nat, fstride: nat,
      st: State<T>)
    requires 0 < st.nfft == |st.twiddles| && base + Prod(p, m) <= |s|
    requires RowsWritten(ring, s, t, base, p, m, u, n, fstride, st) && n < p && At(base, m, n, u) < |t|
    requires var outcome := Combine(ring, ColumnAt(s, base, p, m, u), st, Prod(fstride, u + Prod(n, m)), p);
      t' == t[At(base, m, n, u) := outcome]
    ensures RowsWritten(ring, s, t', base, p, m, u, n + 1, fstride, st)
  {
    hide Laws, Combine, ColumnAt, At;
    AtInBlock(base, p, m, n, u);
    RowsDistinct(base, m, n, u);
    forall q | 0 <= q < n + 1
      ensures Combined(ring, s, t', base, p, m, q, u, fstride, st)
    {
      assert q < n ==> Combined(ring, s, t, base, p, m, q, u, fstride, st);
    }
  }

  /** Row by row writes of column u. */
  function Put<T>(t: seq<T>, base: nat, p: nat, m: nat, u: nat, outs: seq<T>, n: nat): (r: seq<T>)
    requires n <= |outs| <= p && u < m && base + Prod(p, m) <= |t|
    ensures |r| == |t|
  {
    if n == 0 then t
    else (AtInBlock(base, p, m, n - 1, u); Put(t, base, p, m, u, outs, n - 1)[At(base, m, n - 1, u) := outs[n - 1]])
  }

  lemma {:induction false} PutWrites<T(!new)>(ring: Ring<T>, t: seq<T>, base: nat, p: nat, m: nat, u: nat,
      outs: seq<T>, n: nat,
      fstride: nat, st: State<T>)
    requires n <= |outs| == p && u < m && base + Prod(p, m) <= |t| && 0 < st.nfft == |st.twiddles|
    requires forall q :: 0 <= q < p ==>
      outs[q] == Combine(ring, ColumnAt(t, base, p, m, u), st, Prod(fstride, u + Prod(q, m)), p)
    ensures RowsWritten(ring, t, Put(t, base, p, m, u, outs, n), base, p, m, u, n, fstride, st)
  {
    hide Laws, Combine, Combined, ColumnAt, OffColumn;
    if n > 0 {
      PutWrites(ring, t, base, p, m, u, outs, n - 1, fstride, st);
      AtInBlock(base, p, m, n - 1, u);
      var before, after := Put(t, base, p, m, u, outs, n - 1), Put(t, base, p, m, u, outs, n);
      RowWritten(ring, t, before, after, base, p, m, u, n - 1, fstride, st);
    }
  }

  /** Copies column u of the block into the scratch array. */
  method Gather<T(!new)>(ring: Ring<T>, fout: array<T>, base: nat, m: nat, p: nat, u: nat) returns (scratch: array<T>)
    requires 0 < p && u < m && base + Prod(p, m) <= fout.Length
    ensures fresh(scratch) && scratch[..] == ColumnAt(fout[..], base, p, m, u)
  {
    ghost var y := ColumnAt(fout[..], base, p, m, u);
    scratch := new T[p](_ => ring.zero);
    var k := u;
    for q1 := 0 to p
      modifies scratch
      invariant k == u + Prod(q1, m) && forall q :: 0 <= q < q1 ==> scratch[q] == y[q]
    {
      AtInBlock(base, p, m, q1, u);
      scratch[q1] := fout[base + k];
      NextRow(q1, m);
      k := k + m;
    }
  }

  method GenericColumn<T(!new)>(ring: Ring<T>, fout: array<T>, base: nat, fstride: nat, st: State<T>, m: nat, p: nat,
      u: nat)
    requires Laws(ring)
    requires 0 < p && u < m && base + Prod(p, m) <= fout.Length && 0 < st.nfft == |st.twiddles|
    requires Prod(fstride, Prod(p, m)) == st.nfft && st.twiddles[0] == ring.one
    modifies fout
    ensures ColumnWritten(ring, old(fout[..]), fout[..], base, p, m, u, fstride, st)
  {
    hide Laws, Combine, Combined, ColumnAt, OffColumn;
    var scratch := Gather(ring, fout, base, m, p, u);
    ghost var s := fout[..];
    var k := u;
    for q1 := 0 to p
      modifies fout
      invariant k == u + Prod(q1, m) && scratch[..] == ColumnAt(s, base, p, m, u)
      invariant RowsWritten(ring, s, fout[..], base, p, m, u, q1, fstride, st)
    {
      AtInBlock(base, p, m, q1, u);
      StepFits(fstride, p, m, q1, u, st.nfft);
      ghost var t := fout[..];
      SumInto(ring, fout, base + k, scratch, Prod(fstride, k), st);
      RowWritten(ring, s, t, fout[..], base, p, m, u, q1, fstride, st);
      NextRow(q1, m);
      k := k + m;
    }
  }

  lemma NextRow(q: nat, m: nat)
    ensures Prod(q, m) + m == Prod(q + 1, m) && Prod(0, m) == 0
  {
  }

  lemma RowsDistinct(base: nat, m: nat, q1: nat, u: nat)
    requires u < m
    ensures forall q: nat :: q < q1 ==> At(base, m, q, u) < At(base, m, q1, u)
  {
    forall q: nat | q < q1
      ensures At(base, m, q, u) < At(base, m, q1, u)
    {
      var d: nat := q1 - q - 1;
      assert d * m >= 0;
      assert q1 * m == q * m + m + d * m;
    }
  }
}
