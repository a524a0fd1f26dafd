/** The butterflies of radix 2, 3, 4 and 5: each leaves what the generic butterfly leaves. */
module RadixButterflies {
  import opened Complex
  import opened DftTheory
  import opened RadixTheory
  import opened Butterflies

  /** A block of p * m cells that a butterfly of radix p can work on. */
  ghost predicate Fits(cells: nat, base: nat, fstride: nat, st: State<Cpx>, w: Cpx, p: nat, m: nat) {
    && 0 < m && p > 1 && base + Prod(p, m) <= cells
    && Principal(st, w) && Prod(fstride, Prod(p, m)) == st.nfft
  }

  /** The twiddled values of column u. */
  function Values(t: seq<Cpx>, base: nat, fstride: nat, w: Cpx, p: nat, m: nat, u: nat): (s: seq<Cpx>)
    requires u < m && base + Prod(p, m) <= |t|
    ensures |s| == p
  {
    Twiddled(ColumnAt(t, base, p, m, u), Pow(w, Prod(fstride, u)))
  }

  /** The twiddle of value q of column u is at q * fstride * u in the table. */
  lemma ValueAt(t: seq<Cpx>, base: nat, fstride: nat, st: State<Cpx>, w: Cpx, p: nat, m: nat, u: nat, q: nat)
    requires Fits(|t|, base, fstride, st, w, p, m) && u < m && q < p
    ensures At(base, m, q, u) < |t| && Prod(q, Prod(fstride, u)) < |st.twiddles|
    ensures Values(t, base, fstride, w, p, m, u)[q] == Mul(t[At(base, m, q, u)], st.twiddles[Prod(q, Prod(fstride, u))])
    ensures Values(t, base, fstride, w, p, m, u)[0] == t[At(base, m, 0, u)]
  {
    hide Mul, Pow, Twiddles;
    AtInBlock(base, p, m, q, u);
    AtInBlock(base, p, m, 0, u);
    TwiddlesFit(CPX, st, w);
    InTable(st, w, Prod(q, Prod(fstride, u)));
    PowNested(w, Prod(fstride, u), q);
    PowZero(Pow(w, Prod(fstride, u)));
    MulOne(t[At(base, m, 0, u)]);
    ColumnFits(fstride, p, m, u, q);
  }

  lemma ColumnFits(fstride: nat, p: nat, m: nat, u: nat, q: nat)
    requires Prod(fstride, Prod(p, m)) > 0 && u < m && q < p
    ensures Prod(q, Prod(fstride, u)) == Prod(Prod(fstride, u), q) < Prod(fstride, Prod(p, m))
  {
    var a, b, c, d: nat := fstride * u, p - q, m - u, fstride * m;
    assert fstride * (p * m) == d * p;
    assert d == a + fstride * c;
    assert d * p == d * q + d * b;
    assert d * q == a * q + fstride * c * q;
    assert fstride * c * q >= 0;
    PositiveFactor(d, p);
    assert d * (b - 1) >= 0;
    assert d * b == d + d * (b - 1);
  }

  /** A column whose cells hold the small transform of its values is written as by the generic butterfly. */
  lemma SmallWrites(t: seq<Cpx>, t': seq<Cpx>, base: nat, fstride: nat, st: State<Cpx>, w: Cpx, p: nat, m: nat, u: nat,
      outs: seq<Cpx>)
    requires Fits(|t|, base, fstride, st, w, p, m) && u < m && |outs| == p
    requires forall r :: 0 <= r < p ==>
      outs[r] == Small(Values(t, base, fstride, w, p, m, u), Pow(w, Prod(fstride, m)), r, p)
    requires t' == Put(t, base, p, m, u, outs, p)
    ensures ColumnWritten(CPX, t, t', base, p, m, u, fstride, st)
  {
    hide Mul, Pow, Small, Combine, ColumnAt, Prod;
    var y := ColumnAt(t, base, p, m, u);
    forall r | 0 <= r < p
      ensures outs[r] == Combine(CPX, y, st, Prod(fstride, u + Prod(r, m)), p)
    {
      StepRoot(w, fstride, m, u, r);
      CombineIsSmall(y, st, w, Prod(fstride, u + Prod(r, m)), Pow(w, Prod(fstride, u)), Pow(w, Prod(fstride, m)), r, p);
    }
    PutWrites(CPX, t, base, p, m, u, outs, p, fstride, st);
  }

  method Radix2(fout: array<Cpx>, base: nat, fstride: nat, st: State<Cpx>, m: nat, ghost w: Cpx)
    requires Fits(fout.Length, base, fstride, st, w, 2, m)
    modifies fout
    ensures Swept(CPX, old(fout[..]), fout[..], base, 2, m, m, fstride, st)
  {
    ghost var s := fout[..];
    SweptStart(CPX, s, base, 2, m, fstride, st);
    for u := 0 to m
      invariant Swept(CPX, s, fout[..], base, 2, m, u, fstride, st)
    {
      ghost var t := fout[..];
      Column2(fout, base, fstride, st, m, u, w);
      SweptNext(CPX, s, t, fout[..], base, 2, m, u, fstride, st);
    }
  }

  method Column2(fout: array<Cpx>, base: nat, fstride: nat, st: State<Cpx>, m: nat, u: nat, ghost w: Cpx)
    requires Fits(fout.Length, base, fstride, st, w, 2, m) && u < m
    modifies fout
    ensures ColumnWritten(CPX, old(fout[..]), fout[..], base, 2, m, u, fstride, st)
  {
    hide Mul, Add, Sub, Pow, Small, Principal, ColumnWritten;
    ghost var old_t := fout[..];
    ghost var s := Values(old_t, base, fstride, w, 2, m, u);
    ValueAt(old_t, base, fstride, st, w, 2, m, u, 1);
    var i0, i1, a := base + u, base + m + u, fstride * u;
    var t := Mul(fout[i1], st.twiddles[a]);
    fout[i1] := Sub(fout[i0], t);
    fout[i0] := Add(fout[i0], t);
    RadixRoot(st, w, fstride, 2, m);
    RadixTheory.Radix2(s, Pow(w, Prod(fstride, m)));
    ghost var outs := Outs2(s);
    assert fout[..] == old_t[i0 := outs[0]][i1 := outs[1]];
    Put5(old_t, base, 2, m, u, outs);
    SmallWrites(old_t, fout[..], base, fstride, st, w, 2, m, u, outs);
  }

  /** Writing a column of up to five rows, written out. */
  lemma Put5(t: seq<Cpx>, base: nat, p: nat, m: nat, u: nat, outs: seq<Cpx>)
    requires u < m && base + Prod(p, m) <= |t| && 2 <= |outs| == p <= 5
    ensures base + m + u < |t| && (p >= 3 ==> base + 2 * m + u < |t|)
    ensures (p >= 4 ==> base + 3 * m + u < |t|) && (p == 5 ==> base + 4 * m + u < |t|)
    ensures var t2 := t[base + u := outs[0]][base + m + u := outs[1]];
            && (p == 2 ==> Put(t, base, p, m, u, outs, p) == t2)
            && (p == 3 ==> Put(t, base, p, m, u, outs, p) == t2[base + 2 * m + u := outs[2]])
            && (p == 4 ==>
              Put(t, base, p, m, u, outs, p) == t2[base + 2 * m + u := outs[2]][base + 3 * m + u := outs[3]])
            && (p == 5 ==>
              Put(t, base, p, m, u, outs, p) ==
                t2[base + 2 * m + u := outs[2]][base + 3 * m + u := outs[3]][base + 4 * m + u := outs[4]])
  {
    assert Put(t, base, p, m, u, outs, 0) == t;
    assert Put(t, base, p, m, u, outs, 1) == t[base + u := outs[0]];
    assert Put(t, base, p, m, u, outs, 2) == t[base + u := outs[0]][base + m + u := outs[1]];
    if p >= 3 {
      assert Put(t, base, p, m, u, outs, 3) == Put(t, base, p, m, u, outs, 2)[base + 2 * m + u := outs[2]];
    }
    if p >= 4 {
      assert Put(t, base, p, m, u, outs, 4) == Put(t, base, p, m, u, outs, 3)[base + 3 * m + u := outs[3]];
    }
  }

  /** The root of a butterfly, and its square, are read from the table. */
  lemma RootAt(st: State<Cpx>, w: Cpx, fstride: nat, p: nat, m: nat)
    requires Principal(st, w) && Prod(fstride, Prod(p, m)) == st.nfft && p > 2
    ensures var e := Prod(fstride, m); e < |st.twiddles| && st.twiddles[e] == Pow(w, e)
    ensures var e := Prod(Prod(fstride, 2), m); e < |st.twiddles| && st.twiddles[e] == Pow(Pow(w, Prod(fstride, m)), 2)
  {
    hide Mul, Pow, Twiddles;
    TwiddlesFit(CPX, st, w);
    InTable(st, w, Prod(fstride, m));
    InTable(st, w, Prod(Prod(fstride, 2), m));
    RootExponent(fstride, p, m);
    PowNested(w, Prod(fstride, m), 2);
    TwiceBelow(fstride * m, p);
    assert fstride * 2 * m == fstride * m + fstride * m;
  }

  lemma TwiceBelow(e: nat, p: nat)
    requires 0 < e && p > 2
    ensures Prod(e, 2) == e + e < Prod(e, p)
  {
    var d: nat := p - 3;
    assert e * d >= 0 && e * p == e + e + e + e * d;
  }

  method Radix3(fout: array<Cpx>, base: nat, fstride: nat, st: State<Cpx>, m: nat, ghost w: Cpx)
    requires Fits(fout.Length, base, fstride, st, w, 3, m)
    modifies fout
    ensures Swept(CPX, old(fout[..]), fout[..], base, 3, m, m, fstride, st)
  {
    ghost var s := fout[..];
    SweptStart(CPX, s, base, 3, m, fstride, st);
    for u := 0 to m
      invariant Swept(CPX, s, fout[..], base, 3, m, u, fstride, st)
    {
      ghost var t := fout[..];
      Column3(fout, base, fstride, st, m, u, w);
      SweptNext(CPX, s, t, fout[..], base, 3, m, u, fstride, st);
    }
  }

  method Column3(fout: array<Cpx>, base: nat, fstride: nat, st: State<Cpx>, m: nat, u: nat, ghost w: Cpx)
    requires Fits(fout.Length, base, fstride, st, w, 3, m) && u < m
    modifies fout
    ensures ColumnWritten(CPX, old(fout[..]), fout[..], base, 3, m, u, fstride, st)
  {
    hide Mul, Pow, Small, Principal, ColumnWritten, Values, Put, Outs3;
    ghost var t := fout[..];
    ghost var s, z := Values(t, base, fstride, w, 3, m, u), Pow(w, Prod(fstride, m));
    ValueAt(t, base, fstride, st, w, 3, m, u, 1);
    ValueAt(t, base, fstride, st, w, 3, m, u, 2);
    RootAt(st, w, fstride, 3, m);
    RadixRoot(st, w, fstride, 3, m);
    RadixTheory.Radix3(s, z);
    ghost var outs := Outs3(s, z);
    Put5(t, base, 3, m, u, outs);
    var i0, i1, i2 := base + u, base + m + u, base + 2 * m + u;
    var a := fstride * u;
    var tw1, tw2 := st.twiddles[a], st.twiddles[2 * a];
    assert s == [t[i0], Mul(t[i1], tw1), Mul(t[i2], tw2)];
    Turn3(fout, i0, i1, i2, tw1, tw2, st.twiddles[fstride * m]);
    SmallWrites(t, fout[..], base, fstride, st, w, 3, m, u, outs);
  }

  /** The arithmetic of radix 3 on one column, in place. */
  method Turn3(fout: array<Cpx>, i0: nat, i1: nat, i2: nat, tw1: Cpx, tw2: Cpx, epi3: Cpx)
    requires i0 < i1 < i2 < fout.Length
    modifies fout
    ensures var o := Outs3(old([fout[i0], Mul(fout[i1], tw1), Mul(fout[i2], tw2)]), epi3);
            fout[..] == old(fout[..])[i0 := o[0]][i1 := o[1]][i2 := o[2]]
  {
    hide Mul, Add, Sub, SMul;
    var scratch1 := Mul(fout[i1], tw1);
    var scratch2 := Mul(fout[i2], tw2);
    var scratch3 := Add(scratch1, scratch2);
    var scratch0 := Sub(scratch1, scratch2);
    fout[i1] := Cpx(fout[i0].r - scratch3.r * 0.5, fout[i0].i - scratch3.i * 0.5);
    scratch0 := Cpx(SMul(scratch0.r, epi3.i), SMul(scratch0.i, epi3.i));
    fout[i0] := Add(fout[i0], scratch3);
    fout[i2] := Cpx(fout[i1].r + scratch0.i, fout[i1].i - scratch0.r);
    fout[i1] := Cpx(fout[i1].r - scratch0.i, fout[i1].i + scratch0.r);
  }

  /** The root of radix 4 is a quarter turn in the direction of the transform. */
  lemma QuarterTurn(st: State<Cpx>, w: Cpx, fstride: nat, m: nat)
    requires Principal(st, w) && Prod(fstride, Prod(4, m)) == st.nfft
    ensures Pow(w, Prod(fstride, m)) == if st.inverse then IMAG else MINUS_IMAG
  {
    hide Mul, Pow, Twiddles;
    assert st.nfft == 4 * (fstride * m);
  }

  method Radix4(fout: array<Cpx>, base: nat, fstride: nat, st: State<Cpx>, m: nat, ghost w: Cpx)
    requires Fits(fout.Length, base, fstride, st, w, 4, m)
    modifies fout
    ensures Swept(CPX, old(fout[..]), fout[..], base, 4, m, m, fstride, st)
  {
    ghost var s := fout[..];
    SweptStart(CPX, s, base, 4, m, fstride, st);
    for u := 0 to m
      invariant Swept(CPX, s, fout[..], base, 4, m, u, fstride, st)
    {
      ghost var t := fout[..];
      Column4(fout, base, fstride, st, m, u, w);
      SweptNext(CPX, s, t, fout[..], base, 4, m, u, fstride, st);
    }
  }

  method Column4(fout: array<Cpx>, base: nat, fstride: nat, st: State<Cpx>, m: nat, u: nat, ghost w: Cpx)
    requires Fits(fout.Length, base, fstride, st, w, 4, m) && u < m
    modifies fout
    ensures ColumnWritten(CPX, old(fout[..]), fout[..], base, 4, m, u, fstride, st)
  {
    hide Mul, Pow, Small, Principal, ColumnWritten, Values, Put, Outs4;
    ghost var t := fout[..];
    ghost var s, z := Values(t, base, fstride, w, 4, m, u), Pow(w, Prod(fstride, m));
    ValueAt(t, base, fstride, st, w, 4, m, u, 1);
    ValueAt(t, base, fstride, st, w, 4, m, u, 2);
    ValueAt(t, base, fstride, st, w, 4, m, u, 3);
    QuarterTurn(st, w, fstride, m);
    RadixTheory.Radix4(s, z, st.inverse);
    ghost var outs := Outs4(s, st.inverse);
    Put5(t, base, 4, m, u, outs);
    var i0, i1, i2, i3 := base + u, base + m + u, base + 2 * m + u, base + 3 * m + u;
    var a := fstride * u;
    var tw1, tw2, tw3 := st.twiddles[a], st.twiddles[2 * a], st.twiddles[3 * a];
    assert s == [t[i0], Mul(t[i1], tw1), Mul(t[i2], tw2), Mul(t[i3], tw3)];
    Turn4(fout, i0, i1, i2, i3, tw1, tw2, tw3, st.inverse);
    SmallWrites(t, fout[..], base, fstride, st, w, 4, m, u, outs);
  }

  /** The arithmetic of radix 4 on one column, in place. */
  method Turn4(fout: array<Cpx>, i0: nat, i1: nat, i2: nat, i3: nat, tw1: Cpx, tw2: Cpx, tw3: Cpx, inverse: bool)
    requires i0 < i1 < i2 < i3 < fout.Length
    modifies fout
    ensures var o := Outs4(old([fout[i0], Mul(fout[i1], tw1), Mul(fout[i2], tw2), Mul(fout[i3], tw3)]), inverse);
            fout[..] == old(fout[..])[i0 := o[0]][i1 := o[1]][i2 := o[2]][i3 := o[3]]
  {
    hide Mul, Add, Sub;
    var scratch0 := Mul(fout[i1], tw1);
    var scratch1 := Mul(fout[i2], tw2);
    var scratch2 := Mul(fout[i3], tw3);
    var scratch5 := Sub(fout[i0], scratch1);
    fout[i0] := Add(fout[i0], scratch1);
    var scratch3 := Add(scratch0, scratch2);
    var scratch4 := Sub(scratch0, scratch2);
    fout[i2] := Sub(fout[i0], scratch3);
    fout[i0] := Add(fout[i0], scratch3);
    if inverse {
      fout[i1] := Cpx(scratch5.r - scratch4.i, scratch5.i + scratch4.r);
      fout[i3] := Cpx(scratch5.r + scratch4.i, scratch5.i - scratch4.r);
    } else {
      fout[i1] := Cpx(scratch5.r + scratch4.i, scratch5.i - scratch4.r);
      fout[i3] := Cpx(scratch5.r - scratch4.i, scratch5.i + scratch4.r);
    }
  }

  method Radix5(fout: array<Cpx>, base: nat, fstride: nat, st: State<Cpx>, m: nat, ghost w: Cpx)
    requires Fits(fout.Length, base, fstride, st, w, 5, m)
    modifies fout
    ensures Swept(CPX, old(fout[..]), fout[..], base, 5, m, m, fstride, st)
  {
    ghost var s := fout[..];
    SweptStart(CPX, s, base, 5, m, fstride, st);
    for u := 0 to m
      invariant Swept(CPX, s, fout[..], base, 5, m, u, fstride, st)
    {
      ghost var t := fout[..];
      Column5(fout, base, fstride, st, m, u, w);
      SweptNext(CPX, s, t, fout[..], base, 5, m, u, fstride, st);
    }
  }

  method Column5(fout: array<Cpx>, base: nat, fstride: nat, st: State<Cpx>, m: nat, u: nat, ghost w: Cpx)
    requires Fits(fout.Length, base, fstride, st, w, 5, m) && u < m
    modifies fout
    ensures ColumnWritten(CPX, old(fout[..]), fout[..], base, 5, m, u, fstride, st)
  {
    hide Mul, Pow, Small, Principal, ColumnWritten, Values, Put, Outs5;
    ghost var t := fout[..];
    ghost var s, z := Values(t, base, fstride, w, 5, m, u), Pow(w, Prod(fstride, m));
    ValueAt(t, base, fstride, st, w, 5, m, u, 1);
    ValueAt(t, base, fstride, st, w, 5, m, u, 2);
    ValueAt(t, base, fstride, st, w, 5, m, u, 3);
    ValueAt(t, base, fstride, st, w, 5, m, u, 4);
    RootAt(st, w, fstride, 5, m);
    RadixRoot(st, w, fstride, 5, m);
    RadixTheory.Radix5(s, z);
    ghost var outs := Outs5(s, z, Pow(z, 2));
    Put5(t, base, 5, m, u, outs);
    var i0, i1, i2, i3, i4 := base + u, base + m + u, base + 2 * m + u, base + 3 * m + u, base + 4 * m + u;
    var a := fstride * u;
    var tw1, tw2, tw3, tw4 := st.twiddles[a], st.twiddles[2 * a], st.twiddles[3 * a], st.twiddles[4 * a];
    assert s == [t[i0], Mul(t[i1], tw1), Mul(t[i2], tw2), Mul(t[i3], tw3), Mul(t[i4], tw4)];
    Turn5(fout, i0, i1, i2, i3, i4, tw1, tw2, tw3, tw4, st.twiddles[fstride * m], st.twiddles[fstride * 2 * m]);
    SmallWrites(t, fout[..], base, fstride, st, w, 5, m, u, outs);
  }

  /** The arithmetic of radix 5 on one column, in place. */
  method Turn5(fout: array<Cpx>, i0: nat, i1: nat, i2: nat, i3: nat, i4: nat, tw1: Cpx, tw2: Cpx, tw3: Cpx, tw4: Cpx,
      ya: Cpx, yb: Cpx)
    requires i0 < i1 < i2 < i3 < i4 < fout.Length
    modifies fout
    ensures var s := old([fout[i0], Mul(fout[i1], tw1), Mul(fout[i2], tw2), Mul(fout[i3], tw3), Mul(fout[i4], tw4)]);
            var o := Outs5(s, ya, yb);
            fout[..] == old(fout[..])[i0 := o[0]][i1 := o[1]][i2 := o[2]][i3 := o[3]][i4 := o[4]]
  {
    hide Mul, Add, Sub, SMul;
    var s0 := fout[i0];
    var s1, s2, s3, s4 := Mul(fout[i1], tw1), Mul(fout[i2], tw2), Mul(fout[i3], tw3), Mul(fout[i4], tw4);
    var s7, s10, s8, s9 := Add(s1, s4), Sub(s1, s4), Add(s2, s3), Sub(s2, s3);
    fout[i0] := Cpx(fout[i0].r + (s7.r + s8.r), fout[i0].i + (s7.i + s8.i));
    var s5 := Cpx(s0.r + SMul(s7.r, ya.r) + SMul(s8.r, yb.r), s0.i + SMul(s7.i, ya.r) + SMul(s8.i, yb.r));
    var s6 := Cpx(SMul(s10.i, ya.i) + SMul(s9.i, yb.i), -SMul(s10.r, ya.i) - SMul(s9.r, yb.i));
    fout[i1] := Sub(s5, s6);
    fout[i4] := Add(s5, s6);
    var s11 := Cpx(s0.r + SMul(s7.r, yb.r) + SMul(s8.r, ya.r), s0.i + SMul(s7.i, yb.r) + SMul(s8.i, ya.r));
    var s12 := Cpx(-SMul(s10.i, yb.i) + SMul(s9.i, ya.i), SMul(s10.r, yb.i) - SMul(s9.r, ya.i));
    fout[i2] := Add(s11, s12);
    fout[i3] := Sub(s11, s12);
  }
}
