/** Clouds that the constructor of the kd-tree accepts although their trees have more nodes than a node word can
    count: points on an axis whose distances double, of which every cut splits off a single one. */
module KdLimits {
  import opened Bits
  import opened Wrappers
  import opened Neighbours
  import opened NodeWord
  import opened KdPartition
  import opened KdLayout
  import opened KdShape
  import opened KdTree

  /** The points 2^i on the first axis. */
  function Doubling(n: nat, dim: nat): (cloud: seq<Point>)
    requires dim > 0
    ensures |cloud| == n && forall i :: 0 <= i < n ==> |cloud[i]| == dim && cloud[i][0] == Pow2(i) as real
    ensures forall i, d :: 0 <= i < n && 1 <= d < dim ==> cloud[i][d] == 0.0
  {
    seq(n, i requires 0 <= i => [Pow2(i) as real] + seq(dim - 1, _ => 0.0))
  }

  ghost predicate FirstPoints(s: seq<int>, m: nat) {
    multiset(s) == multiset(AllIndices(m))
  }

  lemma FirstPointsAre(s: seq<int>, m: nat)
    requires FirstPoints(s, m)
    ensures |s| == m
    ensures forall x :: x in s <==> 0 <= x < m
    ensures forall i, j :: 0 <= i < j < m ==> s[i] != s[j]
  {
    var a := AllIndices(m);
    assert |s| == |multiset(s)| == |multiset(a)| == m;
    forall x
      ensures x in s <==> 0 <= x < m
    {
      assert x in s <==> x in multiset(s);
      assert x in a <==> x in multiset(a);
      if 0 <= x < m {
        assert a[x] == x;
      }
    }
    forall i, j | 0 <= i < j < m
      ensures s[i] != s[j]
    {
      if s[i] == s[j] {
        Twice(s, i, j);
        Once(m, s[i]);
        assert false;
      }
    }
  }

  lemma Twice(s: seq<int>, i: nat, j: nat)
    requires i < j < |s| && s[i] == s[j]
    ensures multiset(s)[s[i]] >= 2
  {
    assert s == s[..j] + s[j..];
    assert s[..j][i] == s[i] && s[j..][0] == s[i];
    assert multiset(s) == multiset(s[..j]) + multiset(s[j..]);
    assert s[i] in multiset(s[..j]) && s[i] in multiset(s[j..]);
  }

  lemma {:induction false} Once(m: nat, x: int)
    ensures multiset(AllIndices(m))[x] == if 0 <= x < m then 1 else 0
  {
    if m > 0 {
      Once(m - 1, x);
      assert AllIndices(m) == AllIndices(m - 1) + [m - 1];
    }
  }

  /** The largest of m points is alone on the right of the cut. */
  lemma CutOfTheRest(s: seq<int>, n: nat, dim: nat, m: nat, high: real, cut: real, k: nat)
    requires dim > 0 && 3 <= m <= n && FirstPoints(s, m) && Pow2(m - 1) as real <= high <= Pow2(m - 1) as real + 1.0
    requires CutAt(s, Doubling(n, dim), 0, (1.0 + high) / 2.0, cut, k)
    ensures k == m - 1 && cut == (1.0 + high) / 2.0
  {
    FirstPointsAre(s, m);
    hide FirstPoints;
    assert Pow2(m - 1) == 2 * Pow2(m - 2) && Pow2(m - 2) >= 2;
    assert 0 in s && m - 1 in s;
    var low :| 0 <= low < |s| && s[low] == 0;
    var top :| 0 <= top < |s| && s[top] == m - 1;
    assert cut == (1.0 + high) / 2.0;
    hide Pow2;
    forall j | 0 <= j < |s|
      ensures s[j] != m - 1 ==> j < k
    {
      assert s[j] in s;
      if s[j] != m - 1 {
        Pow2Mono(s[j], m - 2);
      }
    }
    assert s[m - 1] != m - 1 || s[m - 2] != m - 1;
  }

  /** The box of the first m points: long in the first dimension, flat in the others. */
  ghost predicate OnAxis(minValues: seq<real>, maxValues: seq<real>, dim: nat, m: nat) {
    && |minValues| == |maxValues| == dim > 0 && m > 0 && minValues[0] == 1.0
    && Pow2(m - 1) as real <= maxValues[0] <= Pow2(m - 1) as real + 1.0
    && forall d :: 1 <= d < dim ==> maxValues[d] - minValues[d] <= 3.0
  }

  lemma FirstIsLongest(minValues: seq<real>, maxValues: seq<real>, dim: nat, m: nat, d: nat)
    requires OnAxis(minValues, maxValues, dim, m) && m >= 3 && LongestSide(minValues, maxValues, d)
    ensures d == 0
  {
    assert Pow2(m - 1) == 4 * Pow2(m - 3);
    assert maxValues[0] - minValues[0] >= 3.0;
  }

  /** What is left of the cut are the other points. */
  lemma RestOfPoints(s: seq<int>, n: nat, dim: nat, m: nat, cut: real)
    requires dim > 0 && 3 <= m <= n && FirstPoints(s, m) && |s| == m && Pow2(m - 2) as real < cut
    requires SplitAt(s, Doubling(n, dim), 0, cut, m - 1)
    ensures FirstPoints(s[..m - 1], m - 1)
  {
    FirstPointsAre(s, m);
    var x := s[m - 1];
    assert s[m - 1..] == [x] && x in s[m - 1..] && x in s;
    if x < m - 1 {
      Pow2Mono(x, m - 2);
      assert false;
    }
    assert s == s[..m - 1] + [x];
    assert AllIndices(m) == AllIndices(m - 1) + [m - 1];
    assert multiset(s[..m - 1]) == multiset(s) - multiset{x};
  }

  /** The tree over the first m points has 2 m - 3 nodes. */
  lemma {:induction false} DoublingNodes(t: Tree, s: seq<int>, n: nat, dim: nat, m: nat, minValues: seq<real>,
      maxValues: seq<real>)
    requires dim > 0 && 2 <= m <= n && FirstPoints(s, m) && OnAxis(minValues, maxValues, dim, m)
    requires Follows(t, s, Doubling(n, dim), 2, minValues, maxValues)
    ensures t.Nodes() == 2 * m - 3
    decreases m
  {
    hide FirstPoints, CutAt, LongestSide, OnAxis;
    FirstPointsAre(s, m);
    if m > 2 {
      var cut := t.cut;
      FirstIsLongest(minValues, maxValues, dim, m, t.cutDim);
      AxisOf(minValues, maxValues, dim, m);
      CutOfTheRest(s, n, dim, m, maxValues[0], cut, t.left.Count());
      CutSplits(s, Doubling(n, dim), 0, (1.0 + maxValues[0]) / 2.0, cut, m - 1);
      LeftBox(minValues, maxValues, dim, m, cut);
      RestOfPoints(s, n, dim, m, cut);
      DoublingNodes(t.left, s[..m - 1], n, dim, m - 1, minValues, maxValues[0 := cut]);
      assert |s[m - 1..]| == 1;
    }
  }

  lemma AxisOf(minValues: seq<real>, maxValues: seq<real>, dim: nat, m: nat)
    requires OnAxis(minValues, maxValues, dim, m)
    ensures |minValues| == |maxValues| == dim > 0 && minValues[0] == 1.0
    ensures m > 0 && Pow2(m - 1) as real <= maxValues[0] <= Pow2(m - 1) as real + 1.0
  {
  }

  lemma LeftBox(minValues: seq<real>, maxValues: seq<real>, dim: nat, m: nat, cut: real)
    requires m >= 3 && OnAxis(minValues, maxValues, dim, m) && cut == (1.0 + maxValues[0]) / 2.0
    ensures Pow2(m - 2) as real < cut && OnAxis(minValues, maxValues[0 := cut], dim, m - 1)
  {
    assert Pow2(m - 1) == 2 * Pow2(m - 2);
  }

  /** Such a cloud of n points is accepted as long as n is below 2^(32 - bits), bits being those of the dimension,
      but its tree of 2 n - 3 nodes can be read back only as long as that is at most 2^(32 - bits). */
  method CreateDoubling(n: nat, dim: nat, least: real, most: real) returns (r: Result<KdTree, BuildError>)
    requires n >= 3 && 0 < dim < Pow2(31) && least >= 1.0 && most <= Pow2(n - 1) as real && (dim > 1 ==> most <= 3.0)
    ensures forall bits: nat :: LeastBits(dim, bits) ==> bits <= 31 && (r.Ok? <==> n < Pow2(32 - bits))
    ensures r.Ok? ==> r.value.Built() && r.value.cloud == Doubling(n, dim) && |r.value.nodes| == 2 * n - 3
    ensures r.Ok? ==> forall bits: nat :: LeastBits(dim, bits) ==>
      bits <= 31 && (r.value.Valid() <==> 2 * n - 3 <= Pow2(32 - bits))
  {
    hide Pow2, LeastBits, Bounded, KdTree.Built, KdTree.Valid;
    r := KdTree.Create(Doubling(n, dim), dim, dim, 2, least, most);
    OnlyError(r);
    forall bits: nat | LeastBits(dim, bits)
      ensures bits <= 31 && (r.Ok? <==> n < Pow2(32 - bits))
    {
      assert LeastBits(Dim(dim, dim), bits) && |Doubling(n, dim)| == n;
      assert n / (2 / 2) == n;
    }
    if r.Ok? {
      BitsOfDim(dim, r.value.dimBitCount);
      DoublingTree(r.value, n, least, most);
    }
  }

  lemma OnlyError(r: Result<KdTree, BuildError>)
    requires r != Err(NoDimension) && r != Err(NoPoints) && r != Err(NoRows) && r != Err(BucketTooSmall)
    ensures r.Ok? || r == Err(TooManyNodes)
  {
    if r.Err? {
      assert r == Err(r.error);
      match r.error
      case NoDimension =>
      case NoPoints =>
      case NoRows =>
      case BucketTooSmall =>
      case TooManyNodes =>
    }
  }

  lemma DoublingTree(k: KdTree, n: nat, least: real, most: real)
    requires n >= 3 && least >= 1.0 && most <= Pow2(n - 1) as real && (k.dim > 1 ==> most <= 3.0)
    requires k.Built() && k.cloud == Doubling(n, k.dim) && k.bucketSize == 2
    requires Bounded(k.cloud, k.dim, least, most, k.minBound, k.maxBound) && n < Pow2(32 - k.dimBitCount)
    ensures |k.nodes| == 2 * n - 3 && (k.Valid() <==> 2 * n - 3 <= Pow2(32 - k.dimBitCount))
  {
    hide Follows, Readable, Encodes, Ordered, LeavesWithin, OnAxis;
    BoxOnAxis(k.cloud, n, k.dim, least, most, k.minBound, k.maxBound);
    DoublingNodes(k.tree, k.order, n, k.dim, n, k.minBound, k.maxBound);
    LeavesInBuckets(k.tree, k.order, k.cloud, 2, k.minBound, k.maxBound);
    k.ValidIff();
    FewInLeaves(k.tree, Pow2(32 - k.dimBitCount));
    assert k.tree.Split?;
  }

  lemma BoxOnAxis(cloud: seq<Point>, n: nat, dim: nat, least: real, most: real, minBound: seq<real>,
      maxBound: seq<real>)
    requires n >= 3 && least >= 1.0 && most <= Pow2(n - 1) as real && (dim > 1 ==> most <= 3.0)
    requires dim > 0 && cloud == Doubling(n, dim) && Bounded(cloud, dim, least, most, minBound, maxBound)
    ensures OnAxis(minBound, maxBound, dim, n)
  {
    hide Pow2, BoundedIn;
    BoundsOfDoubling(cloud, n, dim, least, most, minBound[0], maxBound[0]);
    forall d | 1 <= d < dim
      ensures maxBound[d] - minBound[d] <= 3.0
    {
      FlatBounds(cloud, n, dim, d, least, most, minBound[d], maxBound[d]);
    }
  }

  lemma BoundsOfDoubling(cloud: seq<Point>, n: nat, dim: nat, least: real, most: real, low: real, high: real)
    requires n >= 3 && least >= 1.0 && most <= Pow2(n - 1) as real && dim > 0 && cloud == Doubling(n, dim)
    requires BoundedIn(cloud, 0, n, least, most, low, high)
    ensures low == 1.0 && high == Pow2(n - 1) as real
  {
    assert cloud[0][0] == 1.0 && cloud[n - 1][0] == Pow2(n - 1) as real;
    forall i | 0 <= i < n
      ensures 1.0 <= cloud[i][0] <= Pow2(n - 1) as real
    {
      Pow2Mono(i, n - 1);
    }
    hide Pow2;
  }

  lemma FlatBounds(cloud: seq<Point>, n: nat, dim: nat, d: nat, least: real, most: real, low: real, high: real)
    requires n >= 3 && least >= 1.0 && most <= 3.0 && 1 <= d < dim && cloud == Doubling(n, dim)
    requires BoundedIn(cloud, d, n, least, most, low, high)
    ensures high - low <= 3.0
  {
    assert cloud[0][d] == 0.0;
  }

  lemma {:induction false} FewInLeaves(t: Tree, limit: nat)
    requires LeavesWithin(t, 3) && limit >= 3
    ensures LeavesWithin(t, limit)
  {
    if t.Split? {
      FewInLeaves(t.left, limit);
      FewInLeaves(t.right, limit);
    }
  }

  /** In 2^c dimensions the clouds from 2^(30 - c) + 2 points on are accepted and cannot be searched: with c = 24
      from 66 points on, whose coordinates below 2^127 are single-precision numbers. */
  method CreateUnsearchable(c: nat, n: nat, least: real, most: real) returns (r: Result<KdTree, BuildError>)
    requires c <= 28 && least >= 1.0 && most <= 3.0 && Pow2(30 - c) + 2 <= n < Pow2(31 - c)
    ensures r.Ok? && r.value.cloud == Doubling(n, Pow2(c)) && !r.value.Valid()
  {
    BitsOfPower(c);
    assert Pow2(31 - c) == 2 * Pow2(30 - c) && Pow2(2) == 4;
    Pow2Mono(2, n - 1);
    hide Pow2, LeastBits;
    r := CreateDoubling(n, Pow2(c), least, most);
  }

  lemma BitsOfPower(c: nat)
    requires c <= 30
    ensures LeastBits(Pow2(c), c + 1) && Pow2(c) < Pow2(31)
  {
    Pow2Mono(c + 1, 31);
    assert Pow2(c + 1) == 2 * Pow2(c);
    hide Pow2;
  }
}
