/** The kd-tree of libnabo: points in leaves, implicit bounds, nodes in one flat vector. */
module KdTree {
  import opened Bits
  import opened Wrappers
  import opened Neighbours
  import opened NodeWord
  import opened KdPartition
  import opened KdLayout
  import opened KdShape
  import opened IndexHeap
  import opened KnnSpec
  import opened KnnMeaning

  datatype BuildError = NoDimension | NoPoints | NoRows | BucketTooSmall | TooManyNodes

  /** The number of dimensions searched. */
  function Dim(wanted: int, rows: nat): nat
    requires wanted > 0
  {
    if wanted < rows then wanted else rows
  }

  function AllIndices(n: nat): seq<int> {
    seq(n, i => i)
  }

  /** The bounds of the cloud in each dimension, if not one of the values that the search for them starts from. */
  ghost predicate Bounded(cloud: seq<Point>, dim: nat, least: real, most: real, minBound: seq<real>,
      maxBound: seq<real>)
    requires ValidCloud(cloud, dim)
  {
    && |minBound| == |maxBound| == dim
    && forall d :: 0 <= d < dim ==> BoundedIn(cloud, d, |cloud|, least, most, minBound[d], maxBound[d])
  }

  /** The same for one dimension and the first n points. */
  ghost predicate BoundedIn(cloud: seq<Point>, d: nat, n: nat, least: real, most: real, low: real, high: real) {
    && n <= |cloud| && (forall i :: 0 <= i < n ==> d < |cloud[i]| && low <= cloud[i][d] <= high)
    && low <= least && most <= high
    && (low == least || exists i :: 0 <= i < n && cloud[i][d] == low)
    && (high == most || exists i :: 0 <= i < n && cloud[i][d] == high)
  }

  lemma BoundedNext(cloud: seq<Point>, d: nat, n: nat, least: real, most: real, low: real, high: real)
    requires BoundedIn(cloud, d, n, least, most, low, high) && n < |cloud| && d < |cloud[n]|
    ensures var x := cloud[n][d];
      BoundedIn(cloud, d, n + 1, least, most, if low < x then low else x, if high > x then high else x)
  {
    var x := cloud[n][d];
    assert cloud[n][d] == x;
  }

  lemma DimFits(dim: nat)
    requires dim < Pow2(31)
    ensures dim < Pow2(64)
  {
    Pow2Mono(31, 64);
  }

  lemma BitsOfDim(dim: nat, bits: nat)
    requires dim < Pow2(31) && LeastBits(dim, bits)
    ensures dim < Pow2(bits) && bits <= 31 && forall b: nat :: LeastBits(dim, b) ==> b == bits
  {
    BitCountFits(dim, bits, 31);
    forall b: nat | LeastBits(dim, b)
      ensures b == bits
    {
      BitCountFits(dim, b, bits);
      BitCountFits(dim, bits, b);
    }
  }

  lemma AllIndicesOf(cloud: seq<Point>)
    ensures IndicesOf(AllIndices(|cloud|), cloud) && EntriesOf(AllIndices(|cloud|), cloud) == AllEntries(cloud)
  {
  }

  lemma PtsCounted(p: seq<int>, q: seq<int>, n: nat)
    requires BuiltPts(p, q, 0, n) && |p| == n
    ensures |q| == n && multiset(q) == multiset(p)
  {
    assert p[0..n] == p && q[0..n] == q;
  }

  /** What building over all points leaves behind. */
  lemma WholeBuilt(cloud: seq<Point>, dim: nat, bits: nat, p: seq<int>, q: seq<int>, t: Tree, nodes: seq<Node>,
      buckets: seq<BucketEntry>)
    requires p == AllIndices(|cloud|) && BuiltPts(p, q, 0, |cloud|)
    requires BuiltNodes(t, [], nodes, bits, dim) && BuiltBuckets(t, [], buckets, q, cloud, dim)
    ensures Encodes(t, nodes, 0, bits, dim) && Ordered(t, buckets, dim) && |nodes| == t.Nodes() <= 2 * |cloud| - 1
    ensures t.Start() == 0 && t.Count() == |buckets| && multiset(buckets) == multiset(AllEntries(cloud))
    ensures multiset(q) == multiset(p)
  {
    hide Encodes, Ordered;
    PtsCounted(p, q, |cloud|);
    AllIndicesOf(cloud);
    EntriesPermute(p, q, cloud);
    assert buckets == EntriesOf(q, cloud);
  }

  /** What a partition of a range leaves behind. */
  lemma Partitioned(b: Bounds, p: seq<int>, q: seq<int>, first: nat, mid: nat, last: nat, cloud: seq<Point>, d: nat,
      middle: real, cut: real)
    requires first <= mid && first + 2 < last <= |p| == |q| && IndicesOf(p[first..last], cloud)
    requires q[..first] == p[..first] && q[last..] == p[last..]
    requires multiset(q[first..last]) == multiset(p[first..last])
    requires Chosen(b, p[first..last], q[first..last], cloud, d, middle, cut, mid - first)
    ensures first < mid < last && BuiltPts(p, q, first, last)
    ensures CutAt(q[first..last], cloud, d, middle, cut, mid - first)
    ensures IndicesOf(q[first..mid], cloud) && IndicesOf(q[mid..last], cloud)
  {
    hide Chosen;
    ChosenIsCut(b, p[first..last], q[first..last], cloud, d, middle, cut, mid - first);
    hide CutAt;
    IndicesPermute(p[first..last], q[first..last], cloud);
    CutInside(q[first..last], cloud, d, middle, cut, mid - first);
    SplitHalves(q, first, mid, last);
  }

  lemma CutInside(s: seq<int>, cloud: seq<Point>, d: nat, middle: real, cut: real, n: nat)
    requires CutAt(s, cloud, d, middle, cut, n)
    ensures 0 < n < |s|
  {
  }

  /** Two subtrees on both sides of a cut, built one after the other. */
  lemma JoinSides(l: Tree, r: Tree, d: nat, cut: real, p: seq<int>, p1: seq<int>, p2: seq<int>, p3: seq<int>,
      first: nat, mid: nat, last: nat, b: seq<BucketEntry>, b2: seq<BucketEntry>, b3: seq<BucketEntry>,
      cloud: seq<Point>, dim: nat, bucketSize: nat, minValues: seq<real>, maxValues: seq<real>)
    requires |minValues| == |maxValues| == dim && d < dim && first < mid < last && first + bucketSize < last
    requires |p| == |p1| == |p2| == |p3| >= last
    requires BuiltPts(p, p1, first, last) && BuiltPts(p1, p2, first, mid) && BuiltPts(p2, p3, mid, last)
    requires LongestSide(minValues, maxValues, d)
    requires CutAt(p1[first..last], cloud, d, (minValues[d] + maxValues[d]) / 2.0, cut, mid - first)
    requires BuiltBuckets(l, b, b2, p2[first..mid], cloud, dim) && BuiltBuckets(r, b2, b3, p3[mid..last], cloud, dim)
    requires Follows(l, p2[first..mid], cloud, bucketSize, minValues, maxValues[d := cut])
    requires Follows(r, p3[mid..last], cloud, bucketSize, minValues[d := cut], maxValues)
    ensures BuiltPts(p, p3, first, last)
    ensures BuiltBuckets(Split(d, cut, l, r), b, b3, p3[first..last], cloud, dim)
    ensures Follows(Split(d, cut, l, r), p3[first..last], cloud, bucketSize, minValues, maxValues)
  {
    hide *;
    JoinPts(p, p1, p2, p3, first, mid, last);
    PartCounted(l, b, b2, p2[first..mid], cloud, dim);
    JoinFollows(l, r, d, cut, p1[first..last], p2[first..mid], p3[mid..last], cloud, bucketSize, minValues, maxValues);
    CutSplits(p1[first..last], cloud, d, (minValues[d] + maxValues[d]) / 2.0, cut, mid - first);
    JoinBuckets(l, r, d, cut, b, b2, b3, p1[first..last], p2[first..mid], p3[mid..last], cloud, dim);
  }

  class KdTree {
    const cloud: seq<Point>
    const dim: nat
    const bucketSize: nat
    const dimBitCount: nat
    var nodes: seq<Node>
    var buckets: seq<BucketEntry>

    /** The bounds of the cloud, as far as the tree was built from them. */
    var minBound: seq<real>
    var maxBound: seq<real>

    /** The tree stored from node 0 on, and the points in the order of its leaves. */
    ghost var tree: Tree
    ghost var order: seq<int>

    ghost predicate Params() {
      && 0 < dim && bucketSize >= 2 && ValidCloud(cloud, dim)
      && dimBitCount <= 31 && dim < Pow2(dimBitCount)
    }

    /** The node vector stores an ordered tree over all buckets, cut in the middle of the longest side again and
        again, and the buckets hold every point of the cloud exactly once. */
    ghost predicate Built()
      reads this
    {
      && Params()
      && Encodes(tree, nodes, 0, dimBitCount, dim) && Ordered(tree, buckets, dim)
      && |nodes| == tree.Nodes() <= 2 * |cloud| - 1
      && tree.Start() == 0 && tree.Count() == |buckets|
      && multiset(buckets) == multiset(AllEntries(cloud))
      && multiset(order) == multiset(AllIndices(|cloud|))
      && Follows(tree, order, cloud, bucketSize, minBound, maxBound)
    }

    /** A built tree that the search can read back. */
    ghost predicate Valid()
      reads this
    {
      Built() && Readable(tree, 0, dimBitCount)
    }

    /** Positions and bucket sizes must fit the upper part of a node word. The constructor does not see to it. */
    lemma ValidIff()
      requires Built()
      ensures Valid() <==> AllDecoded(tree, nodes, 0, dimBitCount, dim)
      ensures Valid() <==>
        LeavesWithin(tree, Pow2(32 - dimBitCount)) && (tree.Split? ==> |nodes| <= Pow2(32 - dimBitCount))
      ensures |cloud| < Pow2(32 - dimBitCount) && (tree.Leaf? || 2 * |cloud| - 1 <= Pow2(32 - dimBitCount)) ==> Valid()
    {
      DecodeTree(tree, nodes, 0, dimBitCount, dim, buckets);
      ReadableIff(tree, 0, dimBitCount);
      assert |buckets| == |multiset(buckets)| == |multiset(AllEntries(cloud))| == |cloud|;
      if |cloud| < Pow2(32 - dimBitCount) {
        LeavesCounted(tree, Pow2(32 - dimBitCount));
      }
    }

    constructor (cloud: seq<Point>, dim: nat, bucketSize: nat, dimBitCount: nat)
      ensures this.cloud == cloud && this.dim == dim && this.bucketSize == bucketSize && this.dimBitCount == dimBitCount
      ensures nodes == [] && buckets == []
    {
      this.cloud, this.dim, this.bucketSize, this.dimBitCount := cloud, dim, bucketSize, dimBitCount;
      nodes, buckets, minBound, maxBound, tree, order := [], [], [], [], Leaf(0, 0), [];
    }

    /** A search structure for a cloud whose columns have the given number of rows, or the error thrown.
        The bounds start from the given values, which need not bound anything. */
    static method Create(cloud: seq<Point>, rows: nat, wantedDim: int, bucketSize: nat, least: real, most: real)
      returns (r: Result<KdTree, BuildError>)
      requires forall i :: 0 <= i < |cloud| ==> |cloud[i]| == rows
      requires 0 < wantedDim ==> Dim(wantedDim, rows) < Pow2(31)
      ensures r == Err(NoDimension) <==> wantedDim <= 0
      ensures r == Err(NoPoints) <==> wantedDim > 0 && |cloud| == 0
      ensures r == Err(NoRows) <==> wantedDim > 0 && |cloud| > 0 && rows == 0
      ensures r == Err(BucketTooSmall) <==> wantedDim > 0 && |cloud| > 0 && rows > 0 && bucketSize < 2
      ensures r.Ok? ==> fresh(r.value) && r.value.Built() && r.value.cloud == cloud
      ensures r.Ok? ==> r.value.dim == Dim(wantedDim, rows)
      ensures r.Ok? ==> r.value.dim <= wantedDim && r.value.dim <= rows && r.value.dim in {wantedDim, rows}
      ensures r.Ok? ==> r.value.bucketSize == bucketSize && LeastBits(r.value.dim, r.value.dimBitCount)
      ensures r.Ok? && |cloud| > bucketSize ==>
        Bounded(cloud, r.value.dim, least, most, r.value.minBound, r.value.maxBound)
      ensures wantedDim > 0 ==> forall b: nat :: LeastBits(Dim(wantedDim, rows), b) ==>
        (b <= 31 && (r == Err(TooManyNodes) <==>
          && |cloud| > bucketSize >= 2 && rows > 0
          && |cloud| / (bucketSize / 2) > Pow2(32 - b) - 1))
    {
      hide Pow2, LeastBits;
      if wantedDim <= 0 {
        return Err(NoDimension);
      }
      var dim := Dim(wantedDim, rows);
      DimFits(dim);
      var bits := GetStorageBitCount(dim);
      BitsOfDim(dim, bits);
      if |cloud| == 0 {
        return Err(NoPoints);
      } else if rows == 0 {
        return Err(NoRows);
      } else if bucketSize < 2 {
        return Err(BucketTooSmall);
      }
      var t := new KdTree(cloud, dim, bucketSize, bits);
      if |cloud| <= bucketSize {
        t.BuildSingleBucket();
        return Ok(t);
      }
      var maxNodeCount := Pow2(32 - bits) - 1;
      var estimatedNodeCount := |cloud| / (bucketSize / 2);
      if estimatedNodeCount > maxNodeCount {
        return Err(TooManyNodes);
      }
      t.BuildAll(least, most);
      return Ok(t);
    }

    /** The single leaf of a cloud that fits one bucket. */
    method BuildSingleBucket()
      requires Params() && nodes == [] && buckets == [] && 0 < |cloud| <= bucketSize
      modifies this
      ensures Built()
    {
      for i := 0 to |cloud|
        invariant nodes == [] && buckets == AllEntries(cloud)[..i]
      {
        buckets := buckets + [BucketEntry(cloud[i], i)];
      }
      assert AllEntries(cloud)[..|cloud|] == AllEntries(cloud);
      nodes := [Node(CreateDimChildBucketSize(dimBitCount, dim, |cloud|), Bucket(0))];
      tree, order := Leaf(0, |cloud|), AllIndices(|cloud|);
    }

    /** Builds the tree over all points. */
    method BuildAll(least: real, most: real)
      requires Params() && nodes == [] && buckets == [] && 0 < |cloud|
      modifies this
      ensures Built() && Bounded(cloud, dim, least, most, minBound, maxBound)
    {
      hide Follows, Encodes, Ordered, BoundedIn, BuiltPts, BuiltNodes, BuiltBuckets, IndicesOf;
      var pts := CollectPoints(least, most);
      AllIndicesOf(cloud);
      assert pts[..][0..|cloud|] == pts[..];
      ghost var p := pts[..];
      var pos, t := BuildNodes(pts, 0, |cloud|, minBound, maxBound);
      assert pts[..][0..|cloud|] == pts[..] by { PtsCounted(p, pts[..], |cloud|); }
      WholeBuilt(cloud, dim, dimBitCount, p, pts[..], t, nodes, buckets);
      tree, order := t, pts[..];
    }

    /** Collects the indices and the bounds of all points. */
    method CollectPoints(least: real, most: real) returns (pts: array<int>)
      requires Params()
      modifies this`minBound, this`maxBound
      ensures fresh(pts) && pts[..] == AllIndices(|cloud|) && Bounded(cloud, dim, least, most, minBound, maxBound)
    {
      pts := new int[|cloud|];
      minBound, maxBound := seq(dim, _ => least), seq(dim, _ => most);
      for i := 0 to |cloud|
        modifies pts, this`minBound, this`maxBound
        invariant forall j :: 0 <= j < i ==> pts[j] == j
        invariant |minBound| == |maxBound| == dim
        invariant forall d :: 0 <= d < dim ==> BoundedIn(cloud, d, i, least, most, minBound[d], maxBound[d])
      {
        pts[i] := i;
        ExtendBounds(i, least, most);
      }
      hide BoundedIn;
    }

    method ExtendBounds(i: nat, least: real, most: real)
      requires Params() && i < |cloud| && |minBound| == |maxBound| == dim
      requires forall d :: 0 <= d < dim ==> BoundedIn(cloud, d, i, least, most, minBound[d], maxBound[d])
      modifies this`minBound, this`maxBound
      ensures |minBound| == |maxBound| == dim
      ensures forall d :: 0 <= d < dim ==> BoundedIn(cloud, d, i + 1, least, most, minBound[d], maxBound[d])
    {
      hide BoundedIn;
      var low, high := minBound, maxBound;
      minBound := seq(dim, d requires 0 <= d < dim => if low[d] < cloud[i][d] then low[d] else cloud[i][d]);
      maxBound := seq(dim, d requires 0 <= d < dim => if high[d] > cloud[i][d] then high[d] else cloud[i][d]);
      forall d | 0 <= d < dim
        ensures BoundedIn(cloud, d, i + 1, least, most, minBound[d], maxBound[d])
      {
        BoundedNext(cloud, d, i, least, most, low[d], high[d]);
      }
    }

    /** Builds the subtree of the points with indices pts[first..last] and returns its position. */
    method BuildNodes(pts: array<int>, first: nat, last: nat, minValues: seq<real>, maxValues: seq<real>)
      returns (pos: nat, ghost t: Tree)
      requires Params() && first < last <= pts.Length && IndicesOf(pts[..][first..last], cloud)
      requires |minValues| == |maxValues| == dim
      modifies this`nodes, this`buckets, pts
      ensures pos == |old(nodes)| && BuiltNodes(t, old(nodes), nodes, dimBitCount, dim)
      ensures BuiltPts(old(pts[..]), pts[..], first, last)
      ensures BuiltBuckets(t, old(buckets), buckets, pts[..][first..last], cloud, dim)
      ensures Follows(t, pts[..][first..last], cloud, bucketSize, minValues, maxValues)
      decreases last - first
    {
      hide BuiltNodes, BuiltBuckets, BuiltPts, SplitAt, IndicesOf, CreateDimChildBucketSize, Pow2, Follows, CutAt,
          LongestSide;
      pos := |nodes|;
      if last - first <= bucketSize {
        t := BuildLeaf(pts, first, last, minValues, maxValues);
        return;
      }
      ghost var p, n, b := pts[..], nodes, buckets;
      var cutDim, cutVal, mid := Partition(pts, first, last, minValues, maxValues);
      nodes := nodes + [Node(0, Cut(cutVal))];
      ghost var p1, n1 := pts[..], nodes;
      ghost var l, r;
      var leftChild, rightChild;
      leftChild, l := BuildNodes(pts, first, mid, minValues, maxValues[cutDim := cutVal]);
      ghost var p2, n2, b2 := pts[..], nodes, buckets;
      RestUntouched(p1, p2, first, mid, last);
      rightChild, r := BuildNodes(pts, mid, last, minValues[cutDim := cutVal], maxValues);
      ghost var p3 := pts[..];
      NodesAdded(l, n1, n2, dimBitCount, dim);
      NodesAdded(r, n2, nodes, dimBitCount, dim);
      JoinSides(l, r, cutDim, cutVal, p, p1, p2, p3, first, mid, last, b, b2, buckets, cloud, dim, bucketSize,
          minValues, maxValues);
      JoinNodes(l, r, cutDim, cutVal, n, n1, n2, nodes, dimBitCount, dim);
      nodes := nodes[pos := Node(CreateDimChildBucketSize(dimBitCount, cutDim, rightChild), Cut(cutVal))];
      t := Split(cutDim, cutVal, l, r);
    }

    /** The longest side of the box. */
    method CutDimension(minValues: seq<real>, maxValues: seq<real>) returns (cutDim: nat)
      requires |minValues| == |maxValues| == dim > 0
      ensures LongestSide(minValues, maxValues, cutDim)
    {
      var widths := seq(dim, i requires 0 <= i < dim => maxValues[i] - minValues[i]);
      cutDim := ArgMax(widths);
      LongestIsArgMax(widths, minValues, maxValues, cutDim);
    }

    /** Cuts the longest side of the box in the middle, as far as the points allow. */
    method Partition(pts: array<int>, first: nat, last: nat, minValues: seq<real>, maxValues: seq<real>)
      returns (cutDim: nat, cutVal: real, mid: nat)
      requires Params() && first + bucketSize < last <= pts.Length && IndicesOf(pts[..][first..last], cloud)
      requires |minValues| == |maxValues| == dim
      modifies pts
      ensures cutDim < dim && first < mid < last && BuiltPts(old(pts[..]), pts[..], first, last)
      ensures LongestSide(minValues, maxValues, cutDim)
      ensures CutAt(pts[..][first..last], cloud, cutDim, (minValues[cutDim] + maxValues[cutDim]) / 2.0, cutVal,
                    mid - first)
      ensures IndicesOf(pts[..][first..mid], cloud) && IndicesOf(pts[..][mid..last], cloud)
    {
      hide Chosen, CutAt, LongestSide, SplitAt, BuiltPts, IndicesOf, InCloud, Pow2;
      cutDim := CutDimension(minValues, maxValues);
      SideInBox(minValues, maxValues, cutDim);
      var idealCutVal := (maxValues[cutDim] + minValues[cutDim]) / 2.0;
      ghost var p := pts[..];
      assert pts[first..last] == p[first..last] && pts[..first] == p[..first] && pts[last..] == p[last..];
      IndicesHaveCoords(p[first..last], cloud, dim, cutDim);
      var leftCount;
      ghost var b;
      cutVal, leftCount, b := SplitPoints(pts, cloud, cutDim, idealCutVal, first, last);
      mid := first + leftCount;
      ghost var q := pts[..];
      assert pts[first..last] == q[first..last] && pts[..first] == q[..first] && pts[last..] == q[last..];
      Partitioned(b, p, q, first, mid, last, cloud, cutDim, idealCutVal, cutVal);
    }

    method BuildLeaf(pts: array<int>, first: nat, last: nat, ghost minValues: seq<real>, ghost maxValues: seq<real>)
      returns (ghost t: Tree)
      requires Params() && first < last <= pts.Length && IndicesOf(pts[..][first..last], cloud)
      requires last - first <= bucketSize
      modifies this`nodes, this`buckets
      ensures BuiltNodes(t, old(nodes), nodes, dimBitCount, dim)
      ensures BuiltPts(pts[..], pts[..], first, last)
      ensures BuiltBuckets(t, old(buckets), buckets, pts[..][first..last], cloud, dim)
      ensures Follows(t, pts[..][first..last], cloud, bucketSize, minValues, maxValues)
    {
      var initBucketsSize := |buckets|;
      ghost var es := EntriesOf(pts[..][first..last], cloud);
      for i := first to last
        invariant nodes == old(nodes) && buckets == old(buckets) + es[..i - first]
      {
        assert pts[i] == pts[..][first..last][i - first];
        buckets := buckets + [BucketEntry(cloud[pts[i]], pts[i])];
      }
      assert es[..last - first] == es;
      nodes := nodes + [Node(CreateDimChildBucketSize(dimBitCount, dim, last - first), Bucket(initBucketsSize))];
      t := Leaf(initBucketsSize, last - first);
    }

    ghost predicate CanSearch(q: Query, n: nat, t: Tree, off: seq<real>)
      reads this
    {
      && Params() && Readable(t, n, dimBitCount) && q.dim == dim == |off| && dim <= |q.pt| && AllWide(buckets, dim)
      && Encodes(t, nodes, n, dimBitCount, dim) && Ordered(t, buckets, dim)
      && AllBeyond(off, Below(t, buckets), q.pt)
    }

    method Dist2(query: Point, p: Point) returns (dist: real)
      requires dim <= |query| && dim <= |p|
      ensures dist == SqDist(p, query, dim)
    {
      dist := 0.0;
      for i := 0 to dim
        invariant dist == SqDist(p, query, i)
      {
        var diff := query[i] - p[i];
        dist := dist + diff * diff;
      }
    }

    /** The search starts at the root with no offsets. */
    lemma RootSearchable(q: Query, off: seq<real>)
      requires Valid() && q.dim == dim == |off| && dim <= |q.pt| && forall i :: 0 <= i < dim ==> off[i] == 0.0
      ensures CanSearch(q, 0, tree, off) && SumSq(off) == 0.0
      ensures Below(tree, buckets) == buckets && AllWide(AllEntries(cloud), dim)
      ensures Candidates(q, buckets) == Candidates(q, AllEntries(cloud))
    {
      hide Encodes, Ordered, Pow2, Candidates;
      AllEntriesWide(cloud, dim);
      PermutedWide(AllEntries(cloud), buckets, dim);
      CandidatesPermute(q, buckets, AllEntries(cloud));
      WholeTree(tree, buckets, dim);
      ZeroBeyond(off, buckets, q.pt);
    }

    /** Both sides of a split can be searched, the far one with the offset of the cut. */
    lemma SidesSearchable(q: Query, n: nat, t: Tree, off: seq<real>, newOff: real)
      requires CanSearch(q, n, t, off) && t.Split? && newOff == q.pt[t.cutDim] - t.cut
      ensures t.cutDim < |off| == dim == q.dim <= |q.pt| && t.Start() + t.Count() <= |buckets|
      ensures t.left.Start() + t.left.Count() <= |buckets| && t.right.Start() + t.right.Count() <= |buckets|
      ensures CanSearch(q, n + 1, t.left, off) && CanSearch(q, n + 1 + t.left.Nodes(), t.right, off)
      ensures newOff > 0.0 ==> CanSearch(q, n + 1, t.left, off[t.cutDim := newOff])
      ensures newOff <= 0.0 ==> CanSearch(q, n + 1 + t.left.Nodes(), t.right, off[t.cutDim := newOff])
      ensures n < |nodes| && GetDim(dimBitCount, nodes[n].dimChildBucketSize) == t.cutDim
      ensures AllWide(Below(t, buckets), dim) && AllWide(Below(t.left, buckets), dim)
      ensures AllWide(Below(t.right, buckets), dim)
      ensures Candidates(q, Below(t, buckets)) ==
        Candidates(q, Below(t.left, buckets)) + Candidates(q, Below(t.right, buckets))
    {
      hide Candidates, Beyond, CreateDimChildBucketSize, GetDim, Pow2;
      TreeParts(t, nodes, n, dimBitCount, dim, buckets);
      DecodeNode(t, nodes, n, dimBitCount, dim, buckets);
      BeyondChildren(off, t, buckets, dim, q.pt);
      CandidatesBelow(q, t, buckets, dim);
    }

    /** Points below a side are all as far away as its box. */
    lemma SideIsFar(q: Query, n: nat, t: Tree, off: seq<real>)
      requires CanSearch(q, n, t, off)
      ensures t.Start() + t.Count() <= |buckets| && q.dim == dim <= |q.pt| && AllWide(Below(t, buckets), dim)
      ensures forall i :: 0 <= i < |Below(t, buckets)| ==>
                AllWide([Below(t, buckets)[i]], q.dim) && SumSq(off) <= SqDist(Below(t, buckets)[i].pt, q.pt, q.dim)
    {
      FarPoints(off, t, buckets, q);
    }

    /** Offers the first size points of a bucket that the query accepts. */
    method SearchBucket(q: Query, start: nat, size: nat, heap: Heap, ghost bs: seq<BucketEntry>,
        ghost offered: multiset<Entry>)
      requires q.dim == dim <= |q.pt| && start + size <= |buckets| && bs == buckets[start..start + size]
      requires AllWide(bs, dim)
      requires heap.Valid() && KBest(heap.Held(), heap.data.Length, offered)
      modifies heap, heap.data
      ensures heap.Valid() && heap.HeadValue().AtMost(old(heap.HeadValue()))
      ensures KBest(heap.Held(), heap.data.Length, offered + Candidates(q, bs))
    {
      hide KBest, Candidates, SqDist, Heap.Valid, Heap.Held, Heap.HeadValue;
      CandidatesNone(q, offered);
      assert bs[..0] == [];
      for i := 0 to size
        invariant heap.Valid() && heap.HeadValue().AtMost(old(heap.HeadValue()))
        invariant AllWide(bs[..i], dim) && KBest(heap.Held(), heap.data.Length, offered + Candidates(q, bs[..i]))
      {
        var b := buckets[start + i];
        assert b == bs[i];
        var dist := Dist2(q.pt, b.pt);
        CandidatesNext(q, bs, i, offered);
        if Fin(dist).AtMost(q.maxRadius2) && (q.allowSelfMatch || dist > q.selfEps) {
          heap.Offer(b.index, dist, offered + Candidates(q, bs[..i]));
        }
      }
      assert bs[..size] == bs;
    }

    /** The recursive search below node n; rd is the squared distance of the query to its box. */
    method RecurseKnn(q: Query, n: nat, rd: real, heap: Heap, off: array<real>, maxError2: real, ghost t: Tree,
        ghost offered: multiset<Entry>)
      returns (ghost skipped: multiset<Entry>)
      requires CanSearch(q, n, t, off[..]) && rd == SumSq(off[..]) && maxError2 >= 0.0
      requires heap.Valid() && KBest(heap.Held(), heap.data.Length, offered)
      modifies heap, heap.data, off
      ensures heap.Valid() && off[..] == old(off[..])
      ensures heap.HeadValue().AtMost(old(heap.HeadValue())) && AllWide(Below(t, buckets), dim)
      ensures Searched(heap.Held(), heap.HeadValue(), heap.data.Length, offered,
                       Candidates(q, Below(t, buckets)), skipped, maxError2)
      decreases t, 1
    {
      hide KBest, Candidates, Searched, SqDist, SumSq, Beyond, Heap.Valid, Heap.Held, Heap.HeadValue,
          CreateDimChildBucketSize, GetDim, GetChildBucketSize;
      var node := nodes[n];
      DecodeNode(t, nodes, n, dimBitCount, dim, buckets);
      var cd := GetDim(dimBitCount, node.dimChildBucketSize);
      if cd == dim {
        var size := GetChildBucketSize(dimBitCount, node.dimChildBucketSize);
        SearchBucket(q, node.payload.bucketIndex, size, heap, Below(t, buckets), offered);
        skipped := multiset{};
        SearchedNone(heap.Held(), heap.HeadValue(), heap.data.Length, offered, Candidates(q, Below(t, buckets)),
            maxError2);
      } else {
        var rightChild := GetChildBucketSize(dimBitCount, node.dimChildBucketSize);
        var newOff := q.pt[cd] - node.payload.cutVal;
        if newOff > 0.0 {
          skipped := VisitSides(q, n, rightChild, n + 1, rd, newOff, heap, off, maxError2, t, t.right, t.left, offered);
        } else {
          skipped := VisitSides(q, n, n + 1, rightChild, rd, newOff, heap, off, maxError2, t, t.left, t.right, offered);
        }
      }
    }

    /** Searches the near side of a cut, and the far side if its box may hold a closer point. */
    method VisitSides(q: Query, n: nat, near: nat, far: nat, rd: real, newOff: real, heap: Heap, off: array<real>,
        maxError2: real, ghost t: Tree, ghost nearT: Tree, ghost farT: Tree, ghost offered: multiset<Entry>)
      returns (ghost skipped: multiset<Entry>)
      requires CanSearch(q, n, t, off[..]) && rd == SumSq(off[..]) && maxError2 >= 0.0
      requires t.Split? && newOff == q.pt[t.cutDim] - t.cut
      requires if newOff > 0.0 then nearT == t.right && farT == t.left && near == n + 1 + t.left.Nodes() && far == n + 1
               else nearT == t.left && farT == t.right && near == n + 1 && far == n + 1 + t.left.Nodes()
      requires heap.Valid() && KBest(heap.Held(), heap.data.Length, offered)
      modifies heap, heap.data, off
      ensures heap.Valid() && off[..] == old(off[..])
      ensures heap.HeadValue().AtMost(old(heap.HeadValue())) && AllWide(Below(t, buckets), dim)
      ensures Searched(heap.Held(), heap.HeadValue(), heap.data.Length, offered,
                       Candidates(q, Below(t, buckets)), skipped, maxError2)
      decreases t, 0
    {
      hide KBest, Candidates, Searched, SqDist, SumSq, Sq, CanSearch, Heap.Valid, Heap.Held, Heap.HeadValue, AllWide,
          Below, GetDim;
      ghost var o := off[..];
      SidesSearchable(q, n, t, o, newOff);
      var cd := GetDim(dimBitCount, nodes[n].dimChildBucketSize);
      ghost var s1 := RecurseKnn(q, near, rd, heap, off, maxError2, nearT, offered);
      ghost var held1, head1 := heap.Held(), heap.HeadValue();
      ghost var c1, c2 := Candidates(q, Below(nearT, buckets)), Candidates(q, Below(farT, buckets));
      SearchedKeeps(held1, head1, heap.data.Length, offered, c1, s1, maxError2);
      var oldOff := off[cd];
      SumSqUpdate(o, cd, newOff);
      ghost var s2 := VisitFar(q, far, cd, newOff, rd - Sq(oldOff) + Sq(newOff), heap, off, maxError2, farT,
          offered + (c1 - s1));
      SearchedBoth(held1, head1, heap.Held(), heap.HeadValue(), heap.data.Length, offered, c1, s1, c2, s2, maxError2);
      assert c1 + c2 == Candidates(q, Below(t, buckets));
      skipped := s1 + s2;
    }

    /** Searches the far side of a cut, with the offset of the cut, unless its box is too far away. */
    method VisitFar(q: Query, far: nat, cd: nat, newOff: real, farRd: real, heap: Heap, off: array<real>,
        maxError2: real, ghost farT: Tree, ghost offered: multiset<Entry>)
      returns (ghost skipped: multiset<Entry>)
      requires cd < off.Length && CanSearch(q, far, farT, off[..][cd := newOff])
      requires farRd == SumSq(off[..][cd := newOff]) && maxError2 >= 0.0
      requires heap.Valid() && KBest(heap.Held(), heap.data.Length, offered)
      modifies heap, heap.data, off
      ensures heap.Valid() && off[..] == old(off[..])
      ensures heap.HeadValue().AtMost(old(heap.HeadValue())) && AllWide(Below(farT, buckets), dim)
      ensures Searched(heap.Held(), heap.HeadValue(), heap.data.Length, offered,
                       Candidates(q, Below(farT, buckets)), skipped, maxError2)
      decreases farT, 2
    {
      hide KBest, Candidates, Searched, SqDist, SumSq, CanSearch, Heap.Valid, Heap.Held, Heap.HeadValue, AllWide, Below;
      ghost var o := off[..];
      SideIsFar(q, far, farT, o[cd := newOff]);
      if Fin(farRd).AtMost(q.maxRadius2) && Fin(farRd * maxError2).Less(heap.HeadValue()) {
        var oldOff := off[cd];
        off[cd] := newOff;
        assert off[..] == o[cd := newOff];
        skipped := RecurseKnn(q, far, farRd, heap, off, maxError2, farT, offered);
        off[cd] := oldOff;
        assert off[..] == o;
      } else {
        skipped := SearchedByPruning(heap.Held(), heap.HeadValue(), heap.data.Length, offered, q,
                                     Below(farT, buckets), farRd, maxError2);
      }
    }

    /** The k slots found for one query: within the error factor, and in order when sorted. */
    method OnePointKnn(q: Query, k: nat, heap: Heap, off: array<real>, maxError2: real, sortResults: bool)
      returns (r: seq<Entry>)
      requires Valid() && q.dim == dim == off.Length && dim <= |q.pt| && maxError2 >= 0.0
      requires heap.Usable() && heap.data.Length == k
      modifies heap, heap.data, off
      ensures heap.Usable() && AllWide(AllEntries(cloud), dim)
      ensures Approximates(r, k, Candidates(q, AllEntries(cloud)), maxError2)
      ensures sortResults || heap.kind.LinearHeap? ==> Sorted(r)
    {
      hide KBest, Candidates, Searched, Approximates, Sorted, Heap.Valid, Heap.Held, Heap.HeadValue, AllWide,
          CanSearch, Valid;
      for i := 0 to off.Length
        modifies off
        invariant forall j :: 0 <= j < i ==> off[j] == 0.0
      {
        off[i] := 0.0;
      }
      RootSearchable(q, off[..]);
      heap.Reset();
      KBestEmpty(heap.Held(), k);
      ghost var skipped := RecurseKnn(q, 0, 0.0, heap, off, maxError2, tree, multiset{});
      ghost var held, head := heap.Held(), heap.HeadValue();
      r := heap.Results(sortResults);
      Approximated(r, k, held, head, Candidates(q, AllEntries(cloud)), skipped, maxError2);
    }

    /** Searches for all queries of a request with the given kind of heap: either the error of the request, or the
        nearest points of the cloud, up to the factor (1 + epsilon)^2 on squared distances. */
    method Knn(q: Request, kind: Kind) returns (r: Result<seq<seq<Entry>>, KnnError>)
      requires Valid() && q.WellShaped()
      ensures r.Err? <==> q.CheckSizesKnn(|cloud|, dim).Some?
      ensures r.Err? ==> Some(r.error) == q.CheckSizesKnn(|cloud|, dim)
      ensures r.Ok? ==> Answers(r.value, q, AllEntries(cloud), dim, Sq(1.0 + q.epsilon))
      ensures r.Ok? && (q.SortResults() || kind.LinearHeap?) ==> AllSorted(r.value)
      ensures RequestError(if r.Ok? then None else Some(r.error), q, |cloud|, dim)
      ensures r.Ok? ==>
        ValidCloud(cloud, dim) && AnswersRequest(r.value, q, cloud, dim, (1.0 + q.epsilon) * (1.0 + q.epsilon))
    {
      hide Valid, Approximates, Candidates, Sorted, Heap.Valid, AllEntries, And, NearestPoints, RequestError,
          AnswersRequest;
      AllEntriesWideHere();
      ErrorMeans(q, |cloud|, dim);
      var error := q.CheckSizesKnn(|cloud|, dim);
      if error.Some? {
        return Err(error.value);
      }
      var heap := new Heap(kind, q.k);
      var off := new real[dim](_ => 0.0);
      var cols := [];
      for c := 0 to |q.queries|
        invariant heap.Usable() && heap.data.Length == q.k && heap.kind == kind && fresh(heap) && fresh(heap.data)
        invariant |cols| == c
        invariant forall i :: 0 <= i < c ==>
          Approximates(cols[i], q.k, Candidates(q.At(i, dim), AllEntries(cloud)), Sq(1.0 + q.epsilon))
        invariant q.SortResults() || kind.LinearHeap? ==> forall i :: 0 <= i < c ==> Sorted(cols[i])
      {
        var col := OnePointKnn(q.At(c, dim), q.k, heap, off, Sq(1.0 + q.epsilon), q.SortResults());
        cols := cols + [col];
      }
      RequestMeans(cols, q, cloud, dim, Sq(1.0 + q.epsilon));
      r := Ok(cols);
    }

    lemma AllEntriesWideHere()
      requires Valid()
      ensures ValidCloud(cloud, dim) && AllWide(AllEntries(cloud), dim)
    {
      AllEntriesWide(cloud, dim);
    }
  }
}
