/** The shape of the kd-tree: where the builder cuts, told by the coordinates of the points and the sides of the
    boxes. */
module KdShape {
  import opened Neighbours
  import opened KdPartition
  import opened KdLayout

  /** d is the first of the longest sides of the box, or 0 if no side has a length. */
  ghost predicate LongestSide(minValues: seq<real>, maxValues: seq<real>, d: nat) {
    && |minValues| == |maxValues| && d < |minValues|
    && if exists i :: 0 <= i < |minValues| && maxValues[i] > minValues[i]
       then forall i :: 0 <= i < |minValues| ==>
         && maxValues[i] - minValues[i] <= maxValues[d] - minValues[d]
         && (i < d ==> maxValues[i] - minValues[i] < maxValues[d] - minValues[d])
       else d == 0
  }

  lemma LongestIsArgMax(v: seq<real>, minValues: seq<real>, maxValues: seq<real>, d: nat)
    requires |minValues| == |maxValues| == |v| > 0 && IsArgMax(v, d)
    requires forall i :: 0 <= i < |v| ==> v[i] == maxValues[i] - minValues[i]
    ensures LongestSide(minValues, maxValues, d)
  {
    if i :| 0 <= i < |minValues| && maxValues[i] > minValues[i] {
      assert v[i] > 0.0;
    }
  }

  /** The points of s have a coordinate d. */
  ghost predicate HaveCoords(s: seq<int>, cloud: seq<Point>, d: nat) {
    forall i :: 0 <= i < |s| ==> 0 <= s[i] < |cloud| && d < |cloud[s[i]]|
  }

  /** Extreme cuts split off a single point; otherwise the cut is the middle, and as near to one half of the points
      as those on the cut allow go left. */
  ghost predicate CutAt(s: seq<int>, cloud: seq<Point>, d: nat, middle: real, cut: real, n: nat) {
    && 0 < n < |s| && HaveCoords(s, cloud, d)
    && (forall i :: 0 <= i < n ==> cloud[s[i]][d] <= cut)
    && (forall i :: n <= i < |s| ==> cut <= cloud[s[i]][d])
    && (AllRightOf(s, cloud, d, middle) ==> n == 1 && IsLeastOf(s, cloud, d, cut))
    && (AllLeftOf(s, cloud, d, middle) ==> n == |s| - 1 && IsMostOf(s, cloud, d, cut))
    && (!AllRightOf(s, cloud, d, middle) && !AllLeftOf(s, cloud, d, middle) ==>
      && cut == middle
      && (n > |s| / 2 ==> forall i :: 0 <= i < n ==> cloud[s[i]][d] < cut)
      && (n < |s| / 2 ==> forall i :: n <= i < |s| ==> cut < cloud[s[i]][d]))
  }

  ghost predicate AllRightOf(s: seq<int>, cloud: seq<Point>, d: nat, x: real)
    requires HaveCoords(s, cloud, d)
  {
    forall i :: 0 <= i < |s| ==> x < cloud[s[i]][d]
  }

  ghost predicate AllLeftOf(s: seq<int>, cloud: seq<Point>, d: nat, x: real)
    requires HaveCoords(s, cloud, d)
  {
    forall i :: 0 <= i < |s| ==> cloud[s[i]][d] < x
  }

  ghost predicate IsLeast(s: seq<int>, cloud: seq<Point>, d: nat, x: real, i: nat)
    requires HaveCoords(s, cloud, d) && i < |s|
  {
    cloud[s[i]][d] == x && forall j :: 0 <= j < |s| ==> x <= cloud[s[j]][d]
  }

  ghost predicate IsMost(s: seq<int>, cloud: seq<Point>, d: nat, x: real, i: nat)
    requires HaveCoords(s, cloud, d) && i < |s|
  {
    cloud[s[i]][d] == x && forall j :: 0 <= j < |s| ==> cloud[s[j]][d] <= x
  }

  ghost predicate IsLeastOf(s: seq<int>, cloud: seq<Point>, d: nat, x: real)
    requires HaveCoords(s, cloud, d)
  {
    exists i :: 0 <= i < |s| && IsLeast(s, cloud, d, x, i)
  }

  ghost predicate IsMostOf(s: seq<int>, cloud: seq<Point>, d: nat, x: real)
    requires HaveCoords(s, cloud, d)
  {
    exists i :: 0 <= i < |s| && IsMost(s, cloud, d, x, i)
  }

  /** The tree over the points s, in the order of its leaves: every cut halves the longest side of its box, as far as
      the points allow, the two parts of the box go to the two sides, and a bucket ends the cutting. */
  ghost predicate Follows(t: Tree, s: seq<int>, cloud: seq<Point>, bucketSize: nat, minValues: seq<real>,
      maxValues: seq<real>) {
    if |s| <= bucketSize then t.Leaf? && t.size == |s|
    else (
      && t.Split? && LongestSide(minValues, maxValues, t.cutDim) && t.left.Count() <= |s|
      && CutAt(s, cloud, t.cutDim, (minValues[t.cutDim] + maxValues[t.cutDim]) / 2.0, t.cut, t.left.Count())
      && Follows(t.left, s[..t.left.Count()], cloud, bucketSize, minValues, maxValues[t.cutDim := t.cut])
      && Follows(t.right, s[t.left.Count()..], cloud, bucketSize, minValues[t.cutDim := t.cut], maxValues)
    )
  }

  /** What the chosen count means: s holds the points before the partition, t after it. */
  lemma ChosenIsCut(b: Bounds, s: seq<int>, t: seq<int>, cloud: seq<Point>, d: nat, middle: real, cut: real, n: nat)
    requires |t| > 2 && Chosen(b, s, t, cloud, d, middle, cut, n) && multiset(s) == multiset(t)
    ensures CutAt(t, cloud, d, middle, cut, n)
  {
    SameMembers(s, t);
    var x :| x in s && cloud[x][d] == b.least;
    var y :| y in s && cloud[y][d] == b.most;
    LeftCountFits(s, t, cloud, d, middle, b.least, b.most, b.br1, b.br2, x, y);
    var i :| 0 <= i < |t| && t[i] == x;
    var j :| 0 <= j < |t| && t[j] == y;
    forall k | 0 <= k < |t|
      ensures b.least <= cloud[t[k]][d] <= b.most
    {
      assert t[k] in t && t[k] in s;
    }
    if middle < b.least {
      assert IsLeast(t, cloud, d, cut, i);
    }
    if middle > b.most {
      assert IsMost(t, cloud, d, cut, j);
    }
  }

  lemma SameMembers(s: seq<int>, t: seq<int>)
    requires multiset(s) == multiset(t)
    ensures |s| == |t| && forall x :: x in s <==> x in t
  {
    assert |s| == |multiset(s)| == |multiset(t)| == |t|;
    forall x
      ensures x in s <==> x in t
    {
      assert x in s <==> x in multiset(s);
      assert x in t <==> x in multiset(t);
    }
  }

  /** Where a point of t is in s. */
  lemma PlaceOf(s: seq<int>, t: seq<int>, i: nat) returns (j: nat)
    requires multiset(s) == multiset(t) && i < |t|
    ensures j < |s| && s[j] == t[i]
  {
    SameMembers(s, t);
    assert t[i] in t;
    j :| 0 <= j < |s| && s[j] == t[i];
  }

  /** Where a point of l + r is in p, on the same side. */
  lemma SidePlace(p: seq<int>, l: seq<int>, r: seq<int>, i: nat) returns (j: nat)
    requires |l| <= |p| && multiset(l) == multiset(p[..|l|]) && multiset(r) == multiset(p[|l|..]) && i < |l + r|
    ensures j < |p| && p[j] == (l + r)[i] && (j < |l| <==> i < |l|)
  {
    var n := |l|;
    SameMembers(p[..n], l);
    if i < n {
      j := PlaceOf(p[..n], l, i);
    } else {
      j := PlaceOf(p[n..], r, i - n);
      j := n + j;
    }
  }

  lemma PlaceBack(p: seq<int>, l: seq<int>, r: seq<int>, j: nat) returns (i: nat)
    requires |l| <= |p| && multiset(l) == multiset(p[..|l|]) && multiset(r) == multiset(p[|l|..]) && j < |p|
    ensures |p| == |l + r| && i < |p| && (l + r)[i] == p[j]
  {
    var n := |l|;
    SameMembers(r, p[n..]);
    if j < n {
      i := PlaceOf(l, p[..n], j);
    } else {
      i := PlaceOf(r, p[n..], j - n);
      i := n + i;
    }
  }

  /** Permuting both sides of a cut keeps it. */
  lemma SidesPermute(p: seq<int>, l: seq<int>, r: seq<int>, cloud: seq<Point>, d: nat, middle: real, cut: real)
    requires |l| <= |p| && CutAt(p, cloud, d, middle, cut, |l|)
    requires multiset(l) == multiset(p[..|l|]) && multiset(r) == multiset(p[|l|..])
    ensures CutAt(l + r, cloud, d, middle, cut, |l|)
  {
    var s, n := l + r, |l|;
    forall i | 0 <= i < |s|
      ensures 0 <= s[i] < |cloud| && d < |cloud[s[i]]|
      ensures if i < n then cloud[s[i]][d] <= cut else cut <= cloud[s[i]][d]
      ensures AllRightOf(p, cloud, d, middle) ==> middle < cloud[s[i]][d]
      ensures AllLeftOf(p, cloud, d, middle) ==> cloud[s[i]][d] < middle
      ensures IsLeastOf(p, cloud, d, cut) ==> cut <= cloud[s[i]][d]
      ensures IsMostOf(p, cloud, d, cut) ==> cloud[s[i]][d] <= cut
      ensures i < n && (forall j :: 0 <= j < n ==> cloud[p[j]][d] < cut) ==> cloud[s[i]][d] < cut
      ensures i >= n && (forall j :: n <= j < |p| ==> cut < cloud[p[j]][d]) ==> cut < cloud[s[i]][d]
    {
      var j := SidePlace(p, l, r, i);
    }
    forall j | 0 <= j < |p|
      ensures |s| == |p| && exists i :: 0 <= i < |s| && s[i] == p[j]
    {
      var i := PlaceBack(p, l, r, j);
    }
    assert HaveCoords(s, cloud, d) && |s| == |p|;
    SameExtremes(p, s, cloud, d, middle, cut);
  }

  lemma SameExtremes(p: seq<int>, s: seq<int>, cloud: seq<Point>, d: nat, middle: real, cut: real)
    requires HaveCoords(p, cloud, d) && HaveCoords(s, cloud, d)
    requires forall j :: 0 <= j < |p| ==> exists i :: 0 <= i < |s| && s[i] == p[j]
    requires AllRightOf(p, cloud, d, middle) ==> AllRightOf(s, cloud, d, middle)
    requires AllLeftOf(p, cloud, d, middle) ==> AllLeftOf(s, cloud, d, middle)
    requires IsLeastOf(p, cloud, d, cut) ==> forall i :: 0 <= i < |s| ==> cut <= cloud[s[i]][d]
    requires IsMostOf(p, cloud, d, cut) ==> forall i :: 0 <= i < |s| ==> cloud[s[i]][d] <= cut
    ensures AllRightOf(p, cloud, d, middle) <==> AllRightOf(s, cloud, d, middle)
    ensures AllLeftOf(p, cloud, d, middle) <==> AllLeftOf(s, cloud, d, middle)
    ensures IsLeastOf(p, cloud, d, cut) ==> IsLeastOf(s, cloud, d, cut)
    ensures IsMostOf(p, cloud, d, cut) ==> IsMostOf(s, cloud, d, cut)
  {
    if IsLeastOf(p, cloud, d, cut) {
      var j :| 0 <= j < |p| && IsLeast(p, cloud, d, cut, j);
      var i :| 0 <= i < |s| && s[i] == p[j];
      assert IsLeast(s, cloud, d, cut, i);
    }
    if IsMostOf(p, cloud, d, cut) {
      var j :| 0 <= j < |p| && IsMost(p, cloud, d, cut, j);
      var i :| 0 <= i < |s| && s[i] == p[j];
      assert IsMost(s, cloud, d, cut, i);
    }
  }

  /** Two subtrees on either side of a cut in the middle. */
  lemma JoinFollows(l: Tree, r: Tree, d: nat, cut: real, p: seq<int>, s: seq<int>, t: seq<int>, cloud: seq<Point>,
      bucketSize: nat, minValues: seq<real>, maxValues: seq<real>)
    requires LongestSide(minValues, maxValues, d) && l.Count() == |s| && |p| == |s| + |t| > bucketSize
    requires CutAt(p, cloud, d, (minValues[d] + maxValues[d]) / 2.0, cut, |s|)
    requires multiset(s) == multiset(p[..|s|]) && multiset(t) == multiset(p[|s|..])
    requires Follows(l, s, cloud, bucketSize, minValues, maxValues[d := cut])
    requires Follows(r, t, cloud, bucketSize, minValues[d := cut], maxValues)
    ensures Follows(Split(d, cut, l, r), s + t, cloud, bucketSize, minValues, maxValues)
  {
    hide CutAt, LongestSide, Follows;
    SideInBox(minValues, maxValues, d);
    SidesPermute(p, s, t, cloud, d, (minValues[d] + maxValues[d]) / 2.0, cut);
    assert (s + t)[..|s|] == s && (s + t)[|s|..] == t;
    FollowsSplit(Split(d, cut, l, r), s + t, cloud, bucketSize, minValues, maxValues);
  }

  lemma FollowsSplit(t: Tree, s: seq<int>, cloud: seq<Point>, bucketSize: nat, minValues: seq<real>,
      maxValues: seq<real>)
    requires |s| > bucketSize && t.Split? && LongestSide(minValues, maxValues, t.cutDim) && t.left.Count() <= |s|
    requires CutAt(s, cloud, t.cutDim, (minValues[t.cutDim] + maxValues[t.cutDim]) / 2.0, t.cut, t.left.Count())
    requires Follows(t.left, s[..t.left.Count()], cloud, bucketSize, minValues, maxValues[t.cutDim := t.cut])
    requires Follows(t.right, s[t.left.Count()..], cloud, bucketSize, minValues[t.cutDim := t.cut], maxValues)
    ensures Follows(t, s, cloud, bucketSize, minValues, maxValues)
  {
    hide CutAt, LongestSide;
  }

  /** Every leaf holds at most as many points as a bucket. */
  lemma {:induction false} LeavesInBuckets(t: Tree, s: seq<int>, cloud: seq<Point>, bucketSize: nat,
      minValues: seq<real>, maxValues: seq<real>)
    requires Follows(t, s, cloud, bucketSize, minValues, maxValues)
    ensures LeavesWithin(t, bucketSize + 1)
  {
    hide CutAt, LongestSide;
    if |s| > bucketSize {
      SideInBox(minValues, maxValues, t.cutDim);
      LeavesInBuckets(t.left, s[..t.left.Count()], cloud, bucketSize, minValues, maxValues[t.cutDim := t.cut]);
      LeavesInBuckets(t.right, s[t.left.Count()..], cloud, bucketSize, minValues[t.cutDim := t.cut], maxValues);
    }
  }

  lemma SideInBox(minValues: seq<real>, maxValues: seq<real>, d: nat)
    requires LongestSide(minValues, maxValues, d)
    ensures d < |minValues| == |maxValues|
  {
  }

  lemma CutSplits(s: seq<int>, cloud: seq<Point>, d: nat, middle: real, cut: real, n: nat)
    requires CutAt(s, cloud, d, middle, cut, n)
    ensures SplitAt(s, cloud, d, cut, n)
  {
    forall x | x in s[..n]
      ensures 0 <= x < |cloud| && d < |cloud[x]| && cloud[x][d] <= cut
    {
      var i :| 0 <= i < n && s[..n][i] == x;
      assert s[i] == x;
    }
    forall x | x in s[n..]
      ensures 0 <= x < |cloud| && d < |cloud[x]| && cut <= cloud[x][d]
    {
      var i :| 0 <= i < |s| - n && s[n..][i] == x;
      assert s[n + i] == x;
    }
  }

  lemma PartCounted(t: Tree, b: seq<BucketEntry>, c: seq<BucketEntry>, s: seq<int>, cloud: seq<Point>, dim: nat)
    requires BuiltBuckets(t, b, c, s, cloud, dim)
    ensures t.Count() == |s|
  {
  }
}
