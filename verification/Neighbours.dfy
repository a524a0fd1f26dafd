/** Points, squared distances and what a k-nearest-neighbour answer is.
    Coordinates and distances are exact reals; Inf is the padding distance. */
module Neighbours {

  type Point = seq<real>

  datatype Dist = Fin(d: real) | Inf
  {
    predicate Less(o: Dist) {
      Fin? && (o.Inf? || d < o.d)
    }

    predicate AtMost(o: Dist) {
      !o.Less(this)
    }

    /** This distance stretched by a factor. */
    function Times(c: real): Dist {
      if Fin? then Fin(d * c) else Inf
    }
  }

  /** An answer slot: the index of a point and its squared distance to the query. */
  datatype Entry = Entry(index: int, value: Dist)

  /** The filler of a slot for which no point was found. */
  const PAD := Entry(0, Inf)

  datatype BucketEntry = BucketEntry(pt: Point, index: int)

  /** One query: the point, the number of dimensions compared, the squared radius,
      and the threshold below which a match is the query point itself. */
  datatype Query = Query(pt: Point, dim: nat, maxRadius2: Dist, allowSelfMatch: bool, selfEps: real)
  {
    predicate Accepts(d: real) {
      Fin(d).AtMost(maxRadius2) && (allowSelfMatch || d > selfEps)
    }
  }

  function Sq(x: real): (r: real)
    ensures r >= 0.0
  {
    x * x
  }

  /** Squared Euclidean distance over the first n coordinates. */
  function SqDist(p: Point, q: Point, n: nat): (r: real)
    requires n <= |p| && n <= |q|
    ensures r >= 0.0
  {
    if n == 0 then 0.0 else SqDist(p, q, n - 1) + Sq(q[n - 1] - p[n - 1])
  }

  function SumSq(off: seq<real>): (r: real)
    ensures r >= 0.0
  {
    if off == [] then 0.0 else SumSq(off[..|off| - 1]) + Sq(off[|off| - 1])
  }

  lemma {:induction false} SumSqUpdate(off: seq<real>, i: nat, x: real)
    requires i < |off|
    ensures SumSq(off[i := x]) == SumSq(off) - Sq(off[i]) + Sq(x)
  {
    var n := |off| - 1;
    if i == n {
      assert off[i := x][..n] == off[..n];
    } else {
      assert off[i := x][..n] == off[..n][i := x];
      SumSqUpdate(off[..n], i, x);
    }
  }

  lemma {:induction false} SumSqZero(off: seq<real>)
    requires forall i :: 0 <= i < |off| ==> off[i] == 0.0
    ensures SumSq(off) == 0.0
  {
    if off != [] {
      SumSqZero(off[..|off| - 1]);
    }
  }

  /** The point p lies, in every coordinate, at least off away from the query q. */
  ghost predicate Beyond(off: seq<real>, p: Point, q: Point) {
    |off| <= |p| && |off| <= |q| && forall i :: 0 <= i < |off| ==> Sq(off[i]) <= Sq(q[i] - p[i])
  }

  /** The sum of the squared offsets bounds the distance from below. */
  lemma {:induction false} SumSqBounds(off: seq<real>, p: Point, q: Point)
    requires Beyond(off, p, q)
    ensures SumSq(off) <= SqDist(p, q, |off|)
  {
    if off != [] {
      SumSqBounds(off[..|off| - 1], p, q);
    }
  }

  /** A point on the far side of a cut is at least as far from the query as the cut is. */
  lemma SqMono(a: real, b: real)
    requires 0.0 <= a <= b || b <= a <= 0.0
    ensures Sq(a) <= Sq(b)
  {
    assert (b - a) * (b + a) >= 0.0;
    assert (b - a) * (b + a) == b * b - a * a;
  }

  /** What one point contributes to the answer of a query. */
  function Candidate(q: Query, b: BucketEntry): multiset<Entry>
    requires q.dim <= |q.pt| && q.dim <= |b.pt|
  {
    var d := SqDist(b.pt, q.pt, q.dim);
    if q.Accepts(d) then multiset{Entry(b.index, Fin(d))} else multiset{}
  }

  ghost predicate AllWide(bs: seq<BucketEntry>, dim: nat) {
    forall b :: b in bs ==> dim <= |b.pt|
  }

  /** All points a query accepts, as answer slots. */
  function Candidates(q: Query, bs: seq<BucketEntry>): (r: multiset<Entry>)
    requires q.dim <= |q.pt| && AllWide(bs, q.dim)
    ensures forall e :: e in r ==> e.value.Fin? && e.value.d >= 0.0
  {
    if bs == [] then multiset{}
    else
      var n := |bs| - 1;
      assert bs[n] in bs;
      Candidates(q, bs[..n]) + Candidate(q, bs[n])
  }

  lemma CandidatesNone(q: Query, offered: multiset<Entry>)
    requires q.dim <= |q.pt|
    ensures offered + Candidates(q, []) == offered
  {
  }

  lemma CandidatesNext(q: Query, bs: seq<BucketEntry>, i: nat, offered: multiset<Entry>)
    requires q.dim <= |q.pt| && AllWide(bs, q.dim) && i < |bs|
    ensures bs[i] in bs && AllWide(bs[..i], q.dim) && AllWide(bs[..i + 1], q.dim)
    ensures offered + Candidates(q, bs[..i + 1]) == offered + Candidates(q, bs[..i]) + Candidate(q, bs[i])
    ensures offered + Candidates(q, bs[..i]) + multiset{} == offered + Candidates(q, bs[..i])
  {
    assert bs[..i + 1][..i] == bs[..i];
  }

  lemma {:induction false} CandidatesConcat(q: Query, a: seq<BucketEntry>, b: seq<BucketEntry>)
    requires q.dim <= |q.pt| && AllWide(a, q.dim) && AllWide(b, q.dim)
    ensures AllWide(a + b, q.dim)
    ensures Candidates(q, a + b) == Candidates(q, a) + Candidates(q, b)
  {
    if b == [] {
      assert a + b == a;
    } else {
      var n := |b| - 1;
      assert (a + b)[..|a + b| - 1] == a + b[..n];
      CandidatesConcat(q, a, b[..n]);
    }
  }

  /** The answer does not depend on the order in which the points are stored. */
  lemma {:induction false} CandidatesPermute(q: Query, a: seq<BucketEntry>, b: seq<BucketEntry>)
    requires q.dim <= |q.pt| && AllWide(a, q.dim) && AllWide(b, q.dim)
    requires multiset(a) == multiset(b)
    ensures Candidates(q, a) == Candidates(q, b)
  {
    if a == [] {
      assert |b| == |multiset(b)| == 0;
    } else {
      var n := |a| - 1;
      var x := a[n];
      assert x in multiset(b);
      var i :| 0 <= i < |b| && b[i] == x;
      RemoveLast(a, b, i);
      CandidatesPermute(q, a[..n], b[..i] + b[i + 1..]);
      CandidatesMiddle(q, b, i);
    }
  }

  lemma RemoveLast(a: seq<BucketEntry>, b: seq<BucketEntry>, i: nat)
    requires a != [] && i < |b| && b[i] == a[|a| - 1] && multiset(a) == multiset(b)
    ensures multiset(a[..|a| - 1]) == multiset(b[..i] + b[i + 1..])
  {
    var x, rest := multiset{b[i]}, multiset(b[..i] + b[i + 1..]);
    assert b == b[..i] + ([b[i]] + b[i + 1..]);
    assert multiset(b) == multiset(b[..i]) + (x + multiset(b[i + 1..])) == rest + x;
    assert a == a[..|a| - 1] + [b[i]];
    assert multiset(a) == multiset(a[..|a| - 1]) + x;
    assert multiset(a[..|a| - 1]) == multiset(a) - x;
  }

  lemma CandidatesMiddle(q: Query, b: seq<BucketEntry>, i: nat)
    requires q.dim <= |q.pt| && AllWide(b, q.dim) && i < |b|
    ensures b[i] in b && AllWide(b[..i] + b[i + 1..], q.dim)
    ensures Candidates(q, b) == Candidates(q, b[..i] + b[i + 1..]) + Candidate(q, b[i])
  {
    var b0, x, b1 := b[..i], b[i..i + 1], b[i + 1..];
    assert b == b0 + (x + b1);
    CandidatesConcat(q, b0, b1);
    CandidatesConcat(q, b0, x + b1);
    CandidatesConcat(q, x, b1);
    assert x[..0] == [] && x[0] == b[i];
  }

  /** A candidate is a point of the cloud with its true distance. */
  lemma {:induction false} CandidateIsPoint(q: Query, bs: seq<BucketEntry>, e: Entry)
    requires q.dim <= |q.pt| && AllWide(bs, q.dim)
    ensures e in Candidates(q, bs) <==>
            exists i :: 0 <= i < |bs| && e in Candidate(q, bs[i])
  {
    hide Candidate;
    if bs != [] {
      var n := |bs| - 1;
      CandidateIsPoint(q, bs[..n], e);
      if i :| 0 <= i < |bs| && e in Candidate(q, bs[i]) {
        assert i < n ==> bs[..n][i] == bs[i];
      }
      if i :| 0 <= i < n && e in Candidate(q, bs[..n][i]) {
        assert bs[i] == bs[..n][i];
      }
    }
  }

  ghost predicate Sorted(s: seq<Entry>) {
    forall i, j :: 0 <= i < j < |s| ==> s[i].value.AtMost(s[j].value)
  }

  /** The slots held are the k best of the entries offered: no slot is worse than an
      entry left out, and a slot is empty only when nothing is left out. */
  ghost predicate KBest(held: multiset<Entry>, k: nat, offered: multiset<Entry>) {
    && |held| == k
    && (forall e :: e in held && e.value.Inf? ==> e == PAD)
    && held[PAD := 0] <= offered
    && (forall h, e :: h in held && e in offered - held ==> h.value.AtMost(e.value))
  }

  ghost predicate AllFinite(m: multiset<Entry>) {
    forall e :: e in m ==> e.value.Fin? && e.value.d >= 0.0
  }

  ghost predicate IsWorst(w: Entry, held: multiset<Entry>) {
    w in held && forall h :: h in held ==> h.value.AtMost(w.value)
  }

  lemma KBestEmpty(held: multiset<Entry>, k: nat)
    requires held == multiset{}[PAD := k]
    ensures KBest(held, k, multiset{})
  {
  }

  /** Replacing the worst slot by a better entry keeps the k best. */
  lemma KBestReplace(held: multiset<Entry>, k: nat, offered: multiset<Entry>, w: Entry, e: Entry)
    requires KBest(held, k, offered) && IsWorst(w, held) && e.value.Less(w.value)
    ensures KBest(held - multiset{w} + multiset{e}, k, offered + multiset{e})
  {
    var held', offered' := held - multiset{w} + multiset{e}, offered + multiset{e};
    assert held'[PAD := 0] <= offered';
    forall h, x | h in held' && x in offered' - held'
      ensures h.value.AtMost(x.value)
    {
      assert h in held || h == e;
      assert x == w || x in offered - held;
    }
  }

  /** An entry no better than the worst slot may be dropped. */
  lemma KBestSkip(held: multiset<Entry>, k: nat, offered: multiset<Entry>, w: Entry, skipped: multiset<Entry>)
    requires KBest(held, k, offered) && IsWorst(w, held)
    requires forall e :: e in skipped ==> w.value.AtMost(e.value)
    ensures KBest(held, k, offered + skipped)
  {
    forall h, x | h in held && x in offered + skipped - held
      ensures h.value.AtMost(x.value)
    {
      assert x in offered - held || x in skipped;
    }
  }

  lemma SubsetSize(a: multiset<Entry>, b: multiset<Entry>)
    requires a <= b
    ensures |a| <= |b|
  {
    assert b == a + (b - a);
  }

  /** Order statistic: among any i + 1 offered entries one is no better than slot i. */
  lemma OrderStat(s: seq<Entry>, offered: multiset<Entry>, some: multiset<Entry>, i: nat) returns (a: Entry)
    requires Sorted(s) && KBest(multiset(s), |s|, offered)
    requires i < |s| && some <= offered && |some| > i
    ensures a in some && s[i].value.AtMost(a.value)
  {
    if forall a :: a in some ==> a.value.Less(s[i].value) {
      var lo, hi := s[..i], s[i..];
      assert s == lo + hi;
      forall a | a in some
        ensures some[a] <= multiset(lo)[a]
      {
        assert s[i] in multiset(s);
        assert a !in offered - multiset(s);
        forall j | 0 <= j < |hi|
          ensures hi[j] != a
        {
          assert j > 0 ==> s[i].value.AtMost(s[i + j].value);
        }
        assert a !in multiset(hi);
        assert multiset(s)[a] == multiset(lo)[a];
      }
      assert some <= multiset(lo);
      SubsetSize(some, multiset(lo));
    }
    a :| a in some && s[i].value.AtMost(a.value);
  }

  lemma PrefixOffered(t: seq<Entry>, offered: multiset<Entry>, i: nat)
    requires Sorted(t) && KBest(multiset(t), |t|, offered)
    requires i < |t| && t[i].value.Fin?
    ensures multiset(t[..i + 1]) <= offered && |multiset(t[..i + 1])| == i + 1
  {
    PrefixFinite(t, i);
    assert t == t[..i + 1] + t[i + 1..];
    FinitePart(multiset(t[..i + 1]), multiset(t[i + 1..]), offered);
  }

  lemma PrefixFinite(t: seq<Entry>, i: nat)
    requires Sorted(t) && i < |t| && t[i].value.Fin?
    ensures PAD !in multiset(t[..i + 1])
  {
    assert forall j :: 0 <= j < i ==> t[j].value.AtMost(t[i].value);
  }

  lemma FinitePart(a: multiset<Entry>, b: multiset<Entry>, offered: multiset<Entry>)
    requires (a + b)[PAD := 0] <= offered && PAD !in a
    ensures a <= offered
  {
    forall x | x in a
      ensures a[x] <= offered[x]
    {
      assert a[x] <= (a + b)[PAD := 0][x];
    }
  }

  /** Two sorted answers to the same question list the same distances. */
  lemma KBestUnique(s: seq<Entry>, t: seq<Entry>, offered: multiset<Entry>)
    requires Sorted(s) && Sorted(t) && |s| == |t|
    requires KBest(multiset(s), |s|, offered) && KBest(multiset(t), |t|, offered)
    ensures forall i :: 0 <= i < |s| ==> s[i].value == t[i].value
  {
    forall i | 0 <= i < |s|
      ensures s[i].value == t[i].value
    {
      SlotAtMost(s, t, offered, offered, i);
      SlotAtMost(t, s, offered, offered, i);
    }
  }

  /** Seeing more entries never makes a slot worse. */
  lemma SlotAtMost(s: seq<Entry>, t: seq<Entry>, all: multiset<Entry>, seen: multiset<Entry>, i: nat)
    requires Sorted(s) && Sorted(t) && |s| == |t| && i < |s|
    requires KBest(multiset(s), |s|, all) && KBest(multiset(t), |t|, seen) && seen <= all
    ensures s[i].value.AtMost(t[i].value)
  {
    if t[i].value.Fin? {
      PrefixOffered(t, seen, i);
      var a := OrderStat(s, all, multiset(t[..i + 1]), i);
      hide KBest;
      assert a in t[..i + 1];
      var j :| 0 <= j < i + 1 && t[j] == a;
      assert j < i ==> t[j].value.AtMost(t[i].value);
    }
  }

  /** Skipping entries that are, stretched by c, no better than the worst slot
      leaves every slot within the factor c of the exact answer. */
  lemma SlotWithin(s: seq<Entry>, t: seq<Entry>, seen: multiset<Entry>, skipped: multiset<Entry>, c: real, i: nat)
    requires Sorted(s) && Sorted(t) && |s| == |t| && i < |s| && c >= 1.0
    requires KBest(multiset(s), |s|, seen) && KBest(multiset(t), |t|, seen + skipped)
    requires AllFinite(seen + skipped)
    requires forall e :: e in skipped ==> s[|s| - 1].value.AtMost(e.value.Times(c))
    ensures t[i].value.AtMost(s[i].value) && s[i].value.AtMost(t[i].value.Times(c))
  {
    SlotAtMost(t, s, seen + skipped, seen, i);
    if t[i].value.Fin? && t[i].value.Times(c).Less(s[i].value) {
      PrefixOffered(t, seen + skipped, i);
      ClosestAreSeen(s, t[..i + 1], seen, skipped, c, i);
      var a := OrderStat(s, seen, multiset(t[..i + 1]), i);
    }
  }

  lemma CloseIsSeen(s: seq<Entry>, t: seq<Entry>, seen: multiset<Entry>, skipped: multiset<Entry>, c: real, i: nat,
      j: nat)
    requires Sorted(s) && Sorted(t) && i < |s| && |t| == i + 1 && j < |t| && c >= 1.0
    requires multiset(t) <= seen + skipped && AllFinite(seen + skipped)
    requires forall e :: e in skipped ==> s[|s| - 1].value.AtMost(e.value.Times(c))
    requires t[i].value.Fin? && t[i].value.Times(c).Less(s[i].value)
    ensures t[j] !in skipped && t[j].value.Less(s[i].value)
  {
    assert t[j] in multiset(t) && t[j] in seen + skipped;
    CloserIsSeen(s, skipped, c, i, t[j].value, t[i].value.d);
  }

  lemma ClosestAreSeen(s: seq<Entry>, t: seq<Entry>, seen: multiset<Entry>, skipped: multiset<Entry>, c: real, i: nat)
    requires Sorted(s) && Sorted(t) && i < |s| && |t| == i + 1 && c >= 1.0
    requires multiset(t) <= seen + skipped && AllFinite(seen + skipped)
    requires forall e :: e in skipped ==> s[|s| - 1].value.AtMost(e.value.Times(c))
    requires t[i].value.Fin? && t[i].value.Times(c).Less(s[i].value)
    ensures multiset(t) <= seen && forall a :: a in multiset(t) ==> a.value.Less(s[i].value)
  {
    forall a | a in multiset(t)
      ensures multiset(t)[a] <= seen[a] && a.value.Less(s[i].value)
    {
      var j :| 0 <= j < |t| && t[j] == a;
      CloseIsSeen(s, t, seen, skipped, c, i, j);
      hide Sorted, AllFinite;
      assert multiset(t)[a] <= (seen + skipped)[a] == seen[a] + skipped[a];
    }
  }

  lemma CloserIsSeen(s: seq<Entry>, skipped: multiset<Entry>, c: real, i: nat, v: Dist, far: real)
    requires Sorted(s) && i < |s| && c >= 1.0
    requires forall e :: e in skipped ==> s[|s| - 1].value.AtMost(e.value.Times(c))
    requires v.Fin? && 0.0 <= v.d <= far && Fin(far * c).Less(s[i].value)
    ensures v.Less(s[i].value) && forall e :: e in skipped ==> e.value != v
  {
    Stretch(v.d, far, c);
    assert i < |s| - 1 ==> s[i].value.AtMost(s[|s| - 1].value);
    assert v.Times(c).Less(s[|s| - 1].value);
  }

  lemma Stretch(a: real, b: real, c: real)
    requires 0.0 <= a <= b && c >= 1.0
    ensures a <= a * c <= b * c
  {
    assert a * (c - 1.0) >= 0.0;
    assert (b - a) * c >= 0.0;
  }
}
