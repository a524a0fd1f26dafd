/** The packed words of kd-tree nodes. */
module NodeWord {
  import opened Bits

  ghost predicate LeastBits(v: nat, b: nat) {
    v < Pow2(b) && (b > 0 ==> Pow2(b - 1) <= v)
  }

  /** Number of bits needed to store v: the least b with v < 2^b. */
  method GetStorageBitCount(v: nat) returns (b: nat)
    requires v < Pow2(64)
    ensures LeastBits(v, b)
  {
    var w := v;
    for i := 0 to 64
      invariant w == v / Pow2(i) && (i > 0 ==> Pow2(i - 1) <= v)
    {
      if w == 0 {
        QuotientZero(v, Pow2(i));
        return i;
      }
      QuotientPositive(v, Pow2(i));
      NextQuotient(v, Pow2(i));
      w := w / 2;
    }
    return 64;
  }

  lemma BitCountFits(v: nat, b: nat, n: nat)
    requires v < Pow2(n) && LeastBits(v, b)
    ensures b <= n
  {
    if b > n {
      Pow2Mono(n, b - 1);
    }
  }

  lemma QuotientZero(v: nat, d: nat)
    requires d > 0 && v / d == 0
    ensures v < d
  {
  }

  lemma QuotientPositive(v: nat, d: nat)
    requires d > 0 && v / d != 0
    ensures d <= v
  {
  }

  lemma NextQuotient(v: nat, d: nat)
    requires d > 0
    ensures v / d / 2 == v / (2 * d)
  {
    var q := v / d;
    assert v == d * q + v % d && q == 2 * (q / 2) + q % 2;
    assert d * q == (2 * d) * (q / 2) + d * (q % 2);
    DivMod(v, 2 * d, q / 2, d * (q % 2) + v % d);
  }

  /** The 32-bit word of a node: dimension in the low bits, child index or bucket size above. */
  function CreateDimChildBucketSize(bits: nat, dim: nat, childIndex: nat): nat {
    Or(dim, Shl(childIndex, bits, 32))
  }

  function GetDim(bits: nat, word: nat): nat {
    And(word, Pow2(bits) - 1)
  }

  function GetChildBucketSize(bits: nat, word: nat): nat {
    Shr(word, bits)
  }

  /** The dimension is in the low bits and comes back; of the other field the low bits that fit the upper part of
      the word. */
  lemma WordRoundTrip(bits: nat, dim: nat, childIndex: nat)
    requires bits <= 32 && dim < Pow2(bits)
    ensures var word := CreateDimChildBucketSize(bits, dim, childIndex);
            GetDim(bits, word) == dim && GetChildBucketSize(bits, word) == childIndex % Pow2(32 - bits)
    ensures childIndex % Pow2(32 - bits) == childIndex <==> childIndex < Pow2(32 - bits)
    ensures CreateDimChildBucketSize(bits, dim, childIndex) == dim + childIndex % Pow2(32 - bits) * Pow2(bits)
  {
    var q, p := Pow2(32 - bits), Pow2(bits);
    var a, r := childIndex / q, childIndex % q;
    FieldFits(q, p, r);
    Pow2Sum(32 - bits, bits);
    ShiftedField(childIndex, q, p);
    DivMod(childIndex * p, q * p, a, r * p);
    if childIndex < q {
      DivMod(childIndex, q, 0, childIndex);
    }
    WordFields(bits, dim, r);
  }

  lemma ShiftedField(c: nat, q: nat, p: nat)
    requires q > 0
    ensures c * p == (q * p) * (c / q) + (c % q) * p
  {
    var a, r := c / q, c % q;
    assert c == q * a + r;
    assert (q * a + r) * p == (q * a) * p + r * p;
    assert (q * a) * p == (q * p) * a;
  }

  lemma WordFields(bits: nat, dim: nat, childIndex: nat)
    requires dim < Pow2(bits)
    ensures var word := Or(dim, childIndex * Pow2(bits));
            && GetDim(bits, word) == dim && GetChildBucketSize(bits, word) == childIndex
            && word == dim + childIndex * Pow2(bits)
  {
    var p := Pow2(bits);
    OrDisjoint(dim, childIndex, bits);
    DivMod(dim + childIndex * p, p, childIndex, dim);
    AndMask(dim + childIndex * p, bits);
    ShrDivides(dim + childIndex * p, bits);
  }

  lemma FieldFits(high: nat, low: nat, c: nat)
    requires c < high
    ensures c * low <= high * low && (low > 0 ==> c * low < high * low)
  {
    var t: nat := high - c - 1;
    assert t * low >= 0;
    assert high * low == (c + 1 + t) * low == c * low + low + t * low;
  }
}

/** The flat node vector of the kd-tree, and what building a subtree adds to it. */
module KdLayout {
  import opened Bits
  import opened Neighbours
  import opened NodeWord
  import opened KdPartition

  /** The union in a node: the cut of a split node or the first bucket entry of a leaf. */
  datatype Payload = Cut(cutVal: real) | Bucket(bucketIndex: nat)

  datatype Node = Node(dimChildBucketSize: nat, payload: Payload)

  /** The tree that a flat node vector stands for. */
  datatype Tree =
    | Leaf(start: nat, size: nat)
    | Split(cutDim: nat, cut: real, left: Tree, right: Tree)
  {
    function Nodes(): (n: nat)
      ensures n > 0
    {
      if Leaf? then 1 else 1 + left.Nodes() + right.Nodes()
    }

    /** The first bucket entry below this tree. */
    function Start(): nat {
      if Leaf? then start else left.Start()
    }

    /** The number of bucket entries below this tree. */
    function Count(): nat {
      if Leaf? then size else left.Count() + right.Count()
    }
  }

  /** The points below a tree. */
  function Below(t: Tree, buckets: seq<BucketEntry>): seq<BucketEntry>
    requires t.Start() + t.Count() <= |buckets|
  {
    buckets[t.Start()..t.Start() + t.Count()]
  }

  ghost predicate LeftOf(s: seq<BucketEntry>, d: nat, cut: real) {
    forall i :: 0 <= i < |s| ==> d < |s[i].pt| && s[i].pt[d] <= cut
  }

  ghost predicate RightOf(s: seq<BucketEntry>, d: nat, cut: real) {
    forall i :: 0 <= i < |s| ==> d < |s[i].pt| && cut <= s[i].pt[d]
  }

  /** Every split separates the points below it. */
  ghost predicate Ordered(t: Tree, buckets: seq<BucketEntry>, dim: nat) {
    && t.Start() + t.Count() <= |buckets|
    && (t.Split? ==>
          && t.cutDim < dim
          && t.right.Start() == t.left.Start() + t.left.Count()
          && Ordered(t.left, buckets, dim) && Ordered(t.right, buckets, dim)
          && LeftOf(Below(t.left, buckets), t.cutDim, t.cut)
          && RightOf(Below(t.right, buckets), t.cutDim, t.cut))
  }

  /** The node vector stores the tree from pos on: left child next, right child after the left tree. */
  ghost predicate Encodes(t: Tree, nodes: seq<Node>, pos: nat, bits: nat, dim: nat) {
    && pos + t.Nodes() <= |nodes|
    && match t
       case Leaf(start, size) =>
         nodes[pos] == Node(CreateDimChildBucketSize(bits, dim, size), Bucket(start))
       case Split(cutDim, cut, left, right) =>
         && nodes[pos] == Node(CreateDimChildBucketSize(bits, cutDim, pos + 1 + left.Nodes()), Cut(cut))
         && Encodes(left, nodes, pos + 1, bits, dim)
         && Encodes(right, nodes, pos + 1 + left.Nodes(), bits, dim)
  }

  lemma {:induction false} EncodesFrame(t: Tree, a: seq<Node>, b: seq<Node>, pos: nat, bits: nat, dim: nat)
    requires Encodes(t, a, pos, bits, dim) && pos + t.Nodes() <= |b|
    requires forall i :: pos <= i < pos + t.Nodes() ==> a[i] == b[i]
    ensures Encodes(t, b, pos, bits, dim)
  {
    if t.Split? {
      EncodesFrame(t.left, a, b, pos + 1, bits, dim);
      EncodesFrame(t.right, a, b, pos + 1 + t.left.Nodes(), bits, dim);
    }
  }

  lemma {:induction false} OrderedFrame(t: Tree, a: seq<BucketEntry>, b: seq<BucketEntry>, dim: nat)
    requires Ordered(t, a, dim)
    ensures Ordered(t, a + b, dim) && Below(t, a + b) == Below(t, a)
  {
    if t.Split? {
      OrderedFrame(t.left, a, b, dim);
      OrderedFrame(t.right, a, b, dim);
    }
  }

  lemma BelowSplit(t: Tree, buckets: seq<BucketEntry>, dim: nat)
    requires t.Split? && Ordered(t, buckets, dim)
    ensures Below(t, buckets) == Below(t.left, buckets) + Below(t.right, buckets)
  {
  }

  ghost predicate ValidCloud(cloud: seq<Point>, dim: nat) {
    forall i :: 0 <= i < |cloud| ==> dim <= |cloud[i]|
  }

  ghost predicate IndicesOf(s: seq<int>, cloud: seq<Point>) {
    forall i :: 0 <= i < |s| ==> 0 <= s[i] < |cloud|
  }

  lemma IndicesPermute(s: seq<int>, t: seq<int>, cloud: seq<Point>)
    requires IndicesOf(s, cloud) && multiset(s) == multiset(t)
    ensures IndicesOf(t, cloud)
  {
    forall i | 0 <= i < |t|
      ensures 0 <= t[i] < |cloud|
    {
      assert t[i] in multiset(t) && t[i] in multiset(s);
    }
  }

  lemma IndicesHaveCoords(s: seq<int>, cloud: seq<Point>, dim: nat, d: nat)
    requires IndicesOf(s, cloud) && ValidCloud(cloud, dim) && d < dim
    ensures InCloud(s, cloud, d)
  {
  }

  /** The bucket entries of the points with the given indices. */
  function EntriesOf(s: seq<int>, cloud: seq<Point>): (r: seq<BucketEntry>)
    requires IndicesOf(s, cloud)
    ensures |r| == |s| && forall i :: 0 <= i < |s| ==> r[i] == BucketEntry(cloud[s[i]], s[i])
  {
    seq(|s|, i requires 0 <= i < |s| => BucketEntry(cloud[s[i]], s[i]))
  }

  /** Entries of a permutation of the indices are a permutation of the entries. */
  lemma {:induction false} EntriesPermute(a: seq<int>, b: seq<int>, cloud: seq<Point>)
    requires IndicesOf(a, cloud) && IndicesOf(b, cloud) && multiset(a) == multiset(b)
    ensures multiset(EntriesOf(a, cloud)) == multiset(EntriesOf(b, cloud))
  {
    if a == [] {
      assert |b| == |multiset(b)| == 0;
    } else {
      assert a[0] in multiset(b);
      var i :| 0 <= i < |b| && b[i] == a[0];
      var x, b' := BucketEntry(cloud[a[0]], a[0]), b[..i] + b[i + 1..];
      RemoveFirst(a, b, i);
      EntriesPermute(a[1..], b', cloud);
      var ea, eb := EntriesOf(a, cloud), EntriesOf(b, cloud);
      assert ea == [x] + EntriesOf(a[1..], cloud);
      InsertAt(eb, EntriesOf(b', cloud), i, x);
    }
  }

  lemma InsertAt(s: seq<BucketEntry>, t: seq<BucketEntry>, i: nat, x: BucketEntry)
    requires i < |s| == |t| + 1 && s[i] == x && t == s[..i] + s[i + 1..]
    ensures multiset(s) == multiset{x} + multiset(t)
  {
    assert s == s[..i] + ([x] + s[i + 1..]);
  }

  lemma RemoveFirst(a: seq<int>, b: seq<int>, i: nat)
    requires a != [] && i < |b| && b[i] == a[0] && multiset(a) == multiset(b)
    ensures multiset(a[1..]) == multiset(b[..i] + b[i + 1..])
  {
    var x, rest := multiset{b[i]}, multiset(b[..i] + b[i + 1..]);
    assert b == b[..i] + ([b[i]] + b[i + 1..]);
    assert multiset(b) == multiset(b[..i]) + (x + multiset(b[i + 1..])) == rest + x;
    assert a == [a[0]] + a[1..];
    assert multiset(a[1..]) == multiset(a) - x;
  }

  /** Recursing left and then right leaves a range that is the two halves side by side. */
  lemma TwoHalves(p1: seq<int>, p2: seq<int>, p3: seq<int>, first: nat, mid: nat, last: nat)
    requires first <= mid <= last <= |p1| == |p2| == |p3|
    requires p2[..first] == p1[..first] && p2[mid..] == p1[mid..]
    requires p3[..mid] == p2[..mid] && p3[last..] == p2[last..]
    ensures p3[..first] == p1[..first] && p3[last..] == p1[last..]
    ensures p2[mid..last] == p1[mid..last] && p3[first..last] == p2[first..mid] + p3[mid..last]
  {
    assert p3[..first] == p3[..mid][..first] && p2[..first] == p2[..mid][..first];
    assert p2[last..] == p2[mid..][last - mid..] && p1[last..] == p1[mid..][last - mid..];
    assert p2[mid..last] == p2[mid..][..last - mid] && p1[mid..last] == p1[mid..][..last - mid];
    assert p3[first..mid] == p3[..mid][first..] && p2[first..mid] == p2[..mid][first..];
  }

  lemma SplitHalves(p: seq<int>, first: nat, mid: nat, last: nat)
    requires first <= mid <= last <= |p|
    ensures p[first..last][..mid - first] == p[first..mid] && p[first..last][mid - first..] == p[mid..last]
    ensures p[first..last] == p[first..mid] + p[mid..last]
  {
  }

  /** The entries of points on one side of a cut are on that side. */
  lemma SideOfCut(s: seq<int>, t: seq<int>, cloud: seq<Point>, d: nat, cut: real)
    requires multiset(s) == multiset(t) && InCloud(s, cloud, d) && IndicesOf(t, cloud)
    ensures AllBelow(s, cloud, d, cut) ==> LeftOf(EntriesOf(t, cloud), d, cut)
    ensures AllAbove(s, cloud, d, cut) ==> RightOf(EntriesOf(t, cloud), d, cut)
  {
    forall i | 0 <= i < |t|
      ensures t[i] in s
    {
      assert t[i] in multiset(t) && t[i] in multiset(s);
    }
  }

  lemma BelowAt(t: Tree, a: seq<BucketEntry>, b: seq<BucketEntry>, c: seq<BucketEntry>)
    requires t.Start() == |a| && t.Count() == |b|
    ensures Below(t, a + b + c) == b
  {
  }

  /** Two subtrees over consecutive bucket entries on either side of a cut make a tree. */
  lemma JoinOrdered(l: Tree, r: Tree, cutDim: nat, cut: real, b0: seq<BucketEntry>, bl: seq<BucketEntry>,
      br: seq<BucketEntry>, dim: nat)
    requires cutDim < dim && Ordered(l, b0 + bl, dim) && Ordered(r, b0 + bl + br, dim)
    requires l.Start() == |b0| && l.Count() == |bl| && r.Start() == |b0| + |bl| && r.Count() == |br|
    requires LeftOf(bl, cutDim, cut) && RightOf(br, cutDim, cut)
    ensures Ordered(Split(cutDim, cut, l, r), b0 + (bl + br), dim)
  {
    hide LeftOf, RightOf, Ordered;
    assert b0 + bl + br == b0 + (bl + br);
    OrderedFrame(l, b0 + bl, br, dim);
    BelowAt(l, b0, bl, br);
    BelowAt(r, b0 + bl, br, []);
    assert b0 + bl + br + [] == b0 + bl + br;
    MakeOrdered(Split(cutDim, cut, l, r), b0 + bl + br, dim);
  }

  lemma MakeOrdered(t: Tree, buckets: seq<BucketEntry>, dim: nat)
    requires t.Split? && t.cutDim < dim && t.right.Start() == t.left.Start() + t.left.Count()
    requires t.Start() + t.Count() <= |buckets| && Ordered(t.left, buckets, dim) && Ordered(t.right, buckets, dim)
    requires LeftOf(Below(t.left, buckets), t.cutDim, t.cut) && RightOf(Below(t.right, buckets), t.cutDim, t.cut)
    ensures Ordered(t, buckets, dim)
  {
  }

  /** The build points are permuted in place. */
  ghost predicate BuiltPts(p: seq<int>, q: seq<int>, first: nat, last: nat) {
    && first < last <= |p| == |q|
    && q[..first] == p[..first] && q[last..] == p[last..]
    && multiset(q[first..last]) == multiset(p[first..last])
  }

  /** The entries of the points s, in that order, are appended to the buckets. */
  ghost predicate BuiltBuckets(t: Tree, b: seq<BucketEntry>, c: seq<BucketEntry>, s: seq<int>, cloud: seq<Point>,
      dim: nat) {
    && IndicesOf(s, cloud) && c == b + EntriesOf(s, cloud)
    && t.Start() == |b| && t.Count() == |s| && Ordered(t, c, dim)
  }

  /** The nodes of a tree are appended to the nodes. */
  ghost predicate BuiltNodes(t: Tree, n: seq<Node>, m: seq<Node>, bits: nat, dim: nat) {
    && |m| == |n| + t.Nodes() && t.Nodes() <= 2 * t.Count() - 1
    && (forall i :: 0 <= i < |n| ==> m[i] == n[i])
    && Encodes(t, m, |n|, bits, dim)
  }

  lemma JoinPts(p: seq<int>, p1: seq<int>, p2: seq<int>, p3: seq<int>, first: nat, mid: nat, last: nat)
    requires first < mid < last && BuiltPts(p, p1, first, last) && BuiltPts(p1, p2, first, mid)
    requires BuiltPts(p2, p3, mid, last)
    ensures BuiltPts(p, p3, first, last) && p3[first..last] == p2[first..mid] + p3[mid..last]
    ensures p1[mid..last] == p2[mid..last]
    ensures multiset(p2[first..mid]) == multiset(p1[first..last][..mid - first])
    ensures multiset(p3[mid..last]) == multiset(p1[first..last][mid - first..])
  {
    SplitHalves(p1, first, mid, last);
    TwoHalves(p1, p2, p3, first, mid, last);
  }

  lemma RestUntouched(p: seq<int>, q: seq<int>, first: nat, mid: nat, last: nat)
    requires BuiltPts(p, q, first, mid) && mid <= last <= |p|
    ensures |q| == |p| && q[mid..last] == p[mid..last]
  {
    assert q[mid..last] == q[mid..][..last - mid] && p[mid..last] == p[mid..][..last - mid];
  }

  lemma NodesAdded(t: Tree, n: seq<Node>, m: seq<Node>, bits: nat, dim: nat)
    requires BuiltNodes(t, n, m, bits, dim)
    ensures |n| < |m|
  {
  }

  lemma JoinBuckets(l: Tree, r: Tree, cutDim: nat, cut: real, b1: seq<BucketEntry>, b2: seq<BucketEntry>,
      b3: seq<BucketEntry>, p: seq<int>, s: seq<int>, t: seq<int>, cloud: seq<Point>, dim: nat)
    requires cutDim < dim && |s| <= |p| && SplitAt(p, cloud, cutDim, cut, |s|)
    requires multiset(s) == multiset(p[..|s|]) && multiset(t) == multiset(p[|s|..])
    requires BuiltBuckets(l, b1, b2, s, cloud, dim) && BuiltBuckets(r, b2, b3, t, cloud, dim)
    ensures BuiltBuckets(Split(cutDim, cut, l, r), b1, b3, s + t, cloud, dim)
  {
    hide Ordered, LeftOf, RightOf, AllBelow, AllAbove, InCloud;
    SideOfCut(p[..|s|], s, cloud, cutDim, cut);
    SideOfCut(p[|s|..], t, cloud, cutDim, cut);
    var el, er := EntriesOf(s, cloud), EntriesOf(t, cloud);
    JoinOrdered(l, r, cutDim, cut, b1, el, er, dim);
    IndicesConcat(s, t, cloud);
    assert b3 == b1 + (el + er);
  }

  /** Patching the placeholder of a split node after both subtrees are stored completes the tree. */
  lemma JoinNodes(l: Tree, r: Tree, cutDim: nat, cut: real, n: seq<Node>, n1: seq<Node>, n2: seq<Node>, n3: seq<Node>,
      bits: nat, dim: nat)
    requires n1 == n + [Node(0, Cut(cut))] && BuiltNodes(l, n1, n2, bits, dim) && BuiltNodes(r, n2, n3, bits, dim)
    ensures var split := Node(CreateDimChildBucketSize(bits, cutDim, |n2|), Cut(cut));
            BuiltNodes(Split(cutDim, cut, l, r), n, n3[|n| := split], bits, dim)
  {
    var m := n3[|n| := Node(CreateDimChildBucketSize(bits, cutDim, |n2|), Cut(cut))];
    EncodesFrame(l, n2, m, |n1|, bits, dim);
    EncodesFrame(r, n3, m, |n2|, bits, dim);
  }

  lemma IndicesConcat(s: seq<int>, t: seq<int>, cloud: seq<Point>)
    requires IndicesOf(s, cloud) && IndicesOf(t, cloud)
    ensures IndicesOf(s + t, cloud) && EntriesOf(s + t, cloud) == EntriesOf(s, cloud) + EntriesOf(t, cloud)
  {
  }

  /** The child index or bucket size of the node at pos fits its part of the node word. */
  predicate FieldOk(t: Tree, pos: nat, bits: nat)
    requires bits <= 32
  {
    (if t.Leaf? then t.size else pos + 1 + t.left.Nodes()) < Pow2(32 - bits)
  }

  predicate Readable(t: Tree, pos: nat, bits: nat)
    requires bits <= 32
  {
    && FieldOk(t, pos, bits)
    && (t.Split? ==> Readable(t.left, pos + 1, bits) && Readable(t.right, pos + 1 + t.left.Nodes(), bits))
  }

  /** What the search reads at pos is the root of the tree: a leaf is told from a split by a dimension that is
      no cut dimension. */
  ghost predicate Decoded(t: Tree, nodes: seq<Node>, pos: nat, bits: nat, dim: nat)
    requires pos < |nodes|
  {
    var word := nodes[pos].dimChildBucketSize;
    if t.Leaf? then (
      && GetDim(bits, word) == dim && GetChildBucketSize(bits, word) == t.size
      && nodes[pos].payload == Bucket(t.start)
    ) else (
      && GetDim(bits, word) == t.cutDim < dim && GetChildBucketSize(bits, word) == pos + 1 + t.left.Nodes()
      && nodes[pos].payload == Cut(t.cut)
    )
  }

  /** The search reads back from a node word what the builder packed into it, exactly if it fits. */
  lemma DecodeNode(t: Tree, nodes: seq<Node>, pos: nat, bits: nat, dim: nat, buckets: seq<BucketEntry>)
    requires Encodes(t, nodes, pos, bits, dim) && Ordered(t, buckets, dim) && bits <= 31 && dim < Pow2(bits)
    ensures Decoded(t, nodes, pos, bits, dim) <==> FieldOk(t, pos, bits)
  {
    if t.Leaf? {
      WordRoundTrip(bits, dim, t.size);
    } else {
      WordRoundTrip(bits, t.cutDim, pos + 1 + t.left.Nodes());
    }
  }

  ghost predicate AllDecoded(t: Tree, nodes: seq<Node>, pos: nat, bits: nat, dim: nat)
    requires pos + t.Nodes() <= |nodes|
  {
    && Decoded(t, nodes, pos, bits, dim)
    && (t.Split? ==>
          && AllDecoded(t.left, nodes, pos + 1, bits, dim)
          && AllDecoded(t.right, nodes, pos + 1 + t.left.Nodes(), bits, dim))
  }

  /** The whole tree is read back exactly if every field fits. */
  lemma {:induction false} DecodeTree(t: Tree, nodes: seq<Node>, pos: nat, bits: nat, dim: nat,
      buckets: seq<BucketEntry>)
    requires Encodes(t, nodes, pos, bits, dim) && Ordered(t, buckets, dim) && bits <= 31 && dim < Pow2(bits)
    ensures AllDecoded(t, nodes, pos, bits, dim) <==> Readable(t, pos, bits)
  {
    hide Decoded, FieldOk;
    DecodeNode(t, nodes, pos, bits, dim, buckets);
    if t.Split? {
      TreeParts(t, nodes, pos, bits, dim, buckets);
      DecodeTree(t.left, nodes, pos + 1, bits, dim, buckets);
      DecodeTree(t.right, nodes, pos + 1 + t.left.Nodes(), bits, dim, buckets);
    }
  }

  predicate LeavesWithin(t: Tree, limit: nat) {
    if t.Leaf? then t.size < limit else LeavesWithin(t.left, limit) && LeavesWithin(t.right, limit)
  }

  /** Every field fits exactly if the leaves fit and, in a tree with a split, the nodes can be counted. */
  lemma {:induction false} ReadableIff(t: Tree, pos: nat, bits: nat)
    requires bits <= 32
    ensures Readable(t, pos, bits) <==>
      LeavesWithin(t, Pow2(32 - bits)) && (t.Split? ==> pos + t.Nodes() <= Pow2(32 - bits))
  {
    if t.Split? {
      ReadableIff(t.left, pos + 1, bits);
      ReadableIff(t.right, pos + 1 + t.left.Nodes(), bits);
    }
  }

  lemma {:induction false} LeavesCounted(t: Tree, limit: nat)
    requires t.Count() < limit
    ensures LeavesWithin(t, limit)
  {
    if t.Split? {
      LeavesCounted(t.left, limit);
      LeavesCounted(t.right, limit);
    }
  }

  lemma TreeParts(t: Tree, nodes: seq<Node>, pos: nat, bits: nat, dim: nat, buckets: seq<BucketEntry>)
    requires t.Split? && Encodes(t, nodes, pos, bits, dim) && Ordered(t, buckets, dim)
    ensures t.Start() + t.Count() <= |buckets| && t.cutDim < dim
    ensures t.left.Start() + t.left.Count() <= |buckets| && t.right.Start() + t.right.Count() <= |buckets|
    ensures Encodes(t.left, nodes, pos + 1, bits, dim) && Encodes(t.right, nodes, pos + 1 + t.left.Nodes(), bits, dim)
    ensures Ordered(t.left, buckets, dim) && Ordered(t.right, buckets, dim)
  {
  }

  /** The points are all at least off away from the query, coordinate by coordinate. */
  ghost predicate AllBeyond(off: seq<real>, s: seq<BucketEntry>, q: Point) {
    forall i :: 0 <= i < |s| ==> Beyond(off, s[i].pt, q)
  }

  lemma BeyondParts(off: seq<real>, s: seq<BucketEntry>, t: seq<BucketEntry>, q: Point)
    requires AllBeyond(off, s + t, q)
    ensures AllBeyond(off, s, q) && AllBeyond(off, t, q)
  {
    hide Beyond;
    assert forall i :: 0 <= i < |s| ==> s[i] == (s + t)[i];
    assert forall i :: 0 <= i < |t| ==> t[i] == (s + t)[|s| + i];
  }

  /** Going down, the offsets stay a bound on the near side; on the far side the offset in the
      cut dimension becomes the distance to the cut. */
  lemma BeyondChildren(off: seq<real>, t: Tree, buckets: seq<BucketEntry>, dim: nat, q: Point)
    requires t.Split? && Ordered(t, buckets, dim) && |off| == dim <= |q| && AllBeyond(off, Below(t, buckets), q)
    ensures AllBeyond(off, Below(t.left, buckets), q) && AllBeyond(off, Below(t.right, buckets), q)
    ensures var newOff := q[t.cutDim] - t.cut;
            AllBeyond(off[t.cutDim := newOff], Below(if newOff > 0.0 then t.left else t.right, buckets), q)
  {
    hide Beyond, AllBeyond, Below;
    BelowSplit(t, buckets, dim);
    var l, r := Below(t.left, buckets), Below(t.right, buckets);
    BeyondParts(off, l, r, q);
    var newOff := q[t.cutDim] - t.cut;
    if newOff > 0.0 {
      BeyondCut(off, l, t.cutDim, t.cut, q);
    } else {
      BeyondCut(off, r, t.cutDim, t.cut, q);
    }
  }

  lemma BeyondCut(off: seq<real>, far: seq<BucketEntry>, d: nat, cut: real, q: Point)
    requires d < |off| <= |q| && AllBeyond(off, far, q)
    requires if q[d] > cut then LeftOf(far, d, cut) else RightOf(far, d, cut)
    ensures AllBeyond(off[d := q[d] - cut], far, q)
  {
    forall i | 0 <= i < |far|
      ensures Beyond(off[d := q[d] - cut], far[i].pt, q)
    {
      SqMono(q[d] - cut, q[d] - far[i].pt[d]);
      assert Beyond(off, far[i].pt, q);
    }
  }

  /** Every point below the far side is at least as far away as its box. */
  lemma FarPoints(off: seq<real>, t: Tree, buckets: seq<BucketEntry>, q: Query)
    requires t.Start() + t.Count() <= |buckets| && |off| == q.dim <= |q.pt| && AllBeyond(off, Below(t, buckets), q.pt)
    ensures forall i :: 0 <= i < |Below(t, buckets)| ==>
              AllWide([Below(t, buckets)[i]], q.dim) && SumSq(off) <= SqDist(Below(t, buckets)[i].pt, q.pt, q.dim)
  {
    forall i | 0 <= i < |Below(t, buckets)|
      ensures AllWide([Below(t, buckets)[i]], q.dim) && SumSq(off) <= SqDist(Below(t, buckets)[i].pt, q.pt, q.dim)
    {
      SumSqBounds(off, Below(t, buckets)[i].pt, q.pt);
    }
  }

  lemma CandidatesBelow(q: Query, t: Tree, buckets: seq<BucketEntry>, dim: nat)
    requires t.Split? && Ordered(t, buckets, dim) && q.dim == dim <= |q.pt| && AllWide(buckets, dim)
    ensures AllWide(Below(t, buckets), dim) && AllWide(Below(t.left, buckets), dim)
    ensures AllWide(Below(t.right, buckets), dim)
    ensures Candidates(q, Below(t, buckets)) ==
      Candidates(q, Below(t.left, buckets)) + Candidates(q, Below(t.right, buckets))
  {
    BelowSplit(t, buckets, dim);
    CandidatesConcat(q, Below(t.left, buckets), Below(t.right, buckets));
  }

  /** The entries of all points of a cloud, in order. */
  function AllEntries(cloud: seq<Point>): (r: seq<BucketEntry>)
    ensures |r| == |cloud| && forall i :: 0 <= i < |r| ==> r[i] == BucketEntry(cloud[i], i)
  {
    seq(|cloud|, i requires 0 <= i < |cloud| => BucketEntry(cloud[i], i))
  }

  lemma AllEntriesWide(cloud: seq<Point>, dim: nat)
    requires ValidCloud(cloud, dim)
    ensures AllWide(AllEntries(cloud), dim)
  {
  }

  /** No offset has been made at the root. */
  lemma ZeroBeyond(off: seq<real>, s: seq<BucketEntry>, q: Point)
    requires |off| <= |q| && AllWide(s, |off|) && forall i :: 0 <= i < |off| ==> off[i] == 0.0
    ensures AllBeyond(off, s, q) && SumSq(off) == 0.0
  {
    SumSqZero(off);
    forall i | 0 <= i < |s| ensures Beyond(off, s[i].pt, q) {
      assert s[i] in s;
    }
  }

  lemma PermutedWide(a: seq<BucketEntry>, b: seq<BucketEntry>, dim: nat)
    requires AllWide(a, dim) && multiset(a) == multiset(b)
    ensures AllWide(b, dim)
  {
    forall x | x in b ensures x in a {
      assert x in multiset(b) && x in multiset(a);
    }
  }

  lemma WholeTree(t: Tree, buckets: seq<BucketEntry>, dim: nat)
    requires Ordered(t, buckets, dim) && t.Start() == 0 && t.Count() == |buckets|
    ensures Below(t, buckets) == buckets
  {
  }
}
