/** Partitioning of point indices around a cut, in place. */
module KdPartition {
  import opened Neighbours

  /** Indices of points of the cloud that have a coordinate d. */
  ghost predicate InCloud(s: seq<int>, cloud: seq<Point>, d: nat) {
    forall x :: x in s ==> 0 <= x < |cloud| && d < |cloud[x]|
  }

  ghost predicate AllBelow(s: seq<int>, cloud: seq<Point>, d: nat, cut: real)
    requires InCloud(s, cloud, d)
  {
    forall x :: x in s ==> cloud[x][d] <= cut
  }

  ghost predicate AllAbove(s: seq<int>, cloud: seq<Point>, d: nat, cut: real)
    requires InCloud(s, cloud, d)
  {
    forall x :: x in s ==> cut <= cloud[x][d]
  }

  /** Exchanges two cells of the range [lo, hi). */
  method Swap(a: array<int>, i: nat, j: nat, ghost lo: nat, ghost hi: nat)
    requires lo <= i < hi <= a.Length && lo <= j < hi
    modifies a
    ensures a[..] == old(a[..])[i := old(a[j])][j := old(a[i])]
    ensures multiset(a[lo..hi]) == old(multiset(a[lo..hi]))
  {
    a[i], a[j] := a[j], a[i];
    assert a[lo..hi] == old(a[lo..hi])[i - lo := old(a[j])][j - lo := old(a[i])];
  }

  ghost predicate CoordsExist(a: seq<int>, cloud: seq<Point>, d: nat, lo: nat, hi: nat) {
    lo <= hi <= |a| && forall j :: lo <= j < hi ==> 0 <= a[j] < |cloud| && d < |cloud[a[j]]|
  }

  lemma InCloudCoords(a: seq<int>, cloud: seq<Point>, d: nat, lo: nat, hi: nat)
    requires lo <= hi <= |a| && InCloud(a[lo..hi], cloud, d)
    ensures CoordsExist(a, cloud, d, lo, hi)
  {
    forall j | lo <= j < hi
      ensures a[j] in a[lo..hi]
    {
      assert a[lo..hi][j - lo] == a[j];
    }
  }

  predicate GoesLeft(c: real, cut: real, tiesLeft: bool) {
    c < cut || (tiesLeft && c == cut)
  }

  /** One partition pass over [lo, hi): first the points whose coordinate is below the cut
      (or not above it, when ties go left), then the others. */
  method PartitionPass(a: array<int>, cloud: seq<Point>, d: nat, cut: real, lo: nat, hi: nat, tiesLeft: bool)
    returns (mid: nat)
    requires lo <= hi <= a.Length && CoordsExist(a[..], cloud, d, lo, hi)
    modifies a
    ensures Passed(a[..], cloud, d, cut, tiesLeft, lo, mid, hi) && multiset(a[lo..hi]) == old(multiset(a[lo..hi]))
    ensures a[..lo] == old(a[..lo]) && a[hi..] == old(a[hi..])
  {
    var l, r := lo, hi - 1;
    while true
      invariant lo <= l <= hi && lo - 1 <= r < hi && l <= r + 2
      invariant multiset(a[lo..hi]) == old(multiset(a[lo..hi]))
      invariant a[..lo] == old(a[..lo]) && a[hi..] == old(a[hi..])
      invariant CoordsExist(a[..], cloud, d, lo, hi)
      invariant forall j :: lo <= j < l ==> GoesLeft(cloud[a[j]][d], cut, tiesLeft)
      invariant forall j :: r < j < hi ==> !GoesLeft(cloud[a[j]][d], cut, tiesLeft)
      decreases r - l + 2
    {
      while l < hi && GoesLeft(cloud[a[l]][d], cut, tiesLeft)
        invariant lo <= l <= hi
        invariant forall j :: lo <= j < l ==> GoesLeft(cloud[a[j]][d], cut, tiesLeft)
      {
        l := l + 1;
      }
      while r >= lo && !GoesLeft(cloud[a[r]][d], cut, tiesLeft)
        invariant lo - 1 <= r < hi
        invariant forall j :: r < j < hi ==> !GoesLeft(cloud[a[j]][d], cut, tiesLeft)
      {
        r := r - 1;
      }
      if l > r {
        break;
      }
      Swap(a, l, r, lo, hi);
      l, r := l + 1, r - 1;
    }
    mid := l;
  }

  /** m is the first index of the largest positive value, 0 if there is none. */
  ghost predicate IsArgMax(v: seq<real>, m: nat) {
    && (v != [] ==> m < |v|)
    && if exists i :: 0 <= i < |v| && v[i] > 0.0
       then forall i :: 0 <= i < |v| ==> v[i] <= v[m] && (i < m ==> v[i] < v[m])
       else m == 0
  }

  method ArgMax(v: seq<real>) returns (m: nat)
    ensures IsArgMax(v, m)
  {
    var maxVal := 0.0;
    m := 0;
    for i := 0 to |v|
      invariant v != [] ==> m < |v|
      invariant maxVal == 0.0 ==> m == 0
      invariant maxVal > 0.0 ==> m < i && maxVal == v[m] && forall j :: 0 <= j < m ==> v[j] < maxVal
      invariant maxVal >= 0.0 && forall j :: 0 <= j < i ==> v[j] <= maxVal
    {
      if v[i] > maxVal {
        maxVal, m := v[i], i;
      }
    }
  }

  /** The least and greatest coordinate of the points in a nonempty range. */
  method GetBounds(a: array<int>, cloud: seq<Point>, d: nat, lo: nat, hi: nat) returns (least: real, most: real)
    requires lo < hi <= a.Length && InCloud(a[lo..hi], cloud, d)
    ensures AllAbove(a[lo..hi], cloud, d, least) && AllBelow(a[lo..hi], cloud, d, most)
    ensures exists x :: x in a[lo..hi] && cloud[x][d] == least
    ensures exists x :: x in a[lo..hi] && cloud[x][d] == most
  {
    ghost var s := a[lo..hi];
    assert a[lo] == s[0] && s[0] in s;
    least, most := cloud[a[lo]][d], cloud[a[lo]][d];
    ghost var x, y := s[0], s[0];
    for i := lo to hi
      invariant forall j :: 0 <= j < i - lo ==> s[j] in s && least <= cloud[s[j]][d] <= most
      invariant x in s && cloud[x][d] == least && y in s && cloud[y][d] == most
    {
      assert a[i] == s[i - lo] && s[i - lo] in s;
      var val := cloud[a[i]][d];
      if val < least {
        least, x := val, a[i];
      }
      if val > most {
        most, y := val, a[i];
      }
    }
  }

  /** The points of s in three runs around the cut: below, on and above it. */
  ghost predicate ThreeWay(s: seq<int>, cloud: seq<Point>, d: nat, cut: real, br1: nat, br2: nat) {
    && br1 <= br2 <= |s|
    && (forall j :: 0 <= j < |s| ==> 0 <= s[j] < |cloud| && d < |cloud[s[j]]|)
    && (forall j :: 0 <= j < br1 ==> cloud[s[j]][d] < cut)
    && (forall j :: br1 <= j < br2 ==> cloud[s[j]][d] == cut)
    && (forall j :: br2 <= j < |s| ==> cloud[s[j]][d] > cut)
  }

  /** What one pass over the cells [lo, hi) of a leaves behind. */
  ghost predicate Passed(a: seq<int>, cloud: seq<Point>, d: nat, cut: real, tiesLeft: bool, lo: nat, mid: nat,
      hi: nat) {
    && lo <= mid <= hi <= |a|
    && CoordsExist(a, cloud, d, lo, hi)
    && (forall j :: lo <= j < mid ==> GoesLeft(cloud[a[j]][d], cut, tiesLeft))
    && (forall j :: mid <= j < hi ==> !GoesLeft(cloud[a[j]][d], cut, tiesLeft))
  }

  lemma TwoPasses(s: seq<int>, t: seq<int>, cloud: seq<Point>, d: nat, cut: real, lo: nat, m1: nat, m2: nat, hi: nat)
    requires |s| == |t| && Passed(s, cloud, d, cut, false, lo, m1, hi) && Passed(t, cloud, d, cut, true, m1, m2, hi)
    requires s[..m1] == t[..m1] && multiset(s[m1..hi]) == multiset(t[m1..hi])
    ensures ThreeWay(t[lo..hi], cloud, d, cut, m1 - lo, m2 - lo)
    ensures s[..lo] == t[..lo] && multiset(s[lo..hi]) == multiset(t[lo..hi])
  {
    KeepsFront(s, t, lo, m1, hi);
    forall j | m1 <= j < hi
      ensures !GoesLeft(cloud[t[j]][d], cut, false)
    {
      assert t[j] == t[m1..hi][j - m1] && t[j] in multiset(t[m1..hi]) && t[j] in multiset(s[m1..hi]);
      var i :| 0 <= i < hi - m1 && s[m1..hi][i] == t[j];
      assert s[m1 + i] == t[j];
    }
  }

  /** The two partition passes. */
  method PartitionAround(a: array<int>, cloud: seq<Point>, d: nat, cut: real, lo: nat, hi: nat)
    returns (br1: nat, br2: nat)
    requires lo <= hi <= a.Length && InCloud(a[lo..hi], cloud, d)
    modifies a
    ensures ThreeWay(a[lo..hi], cloud, d, cut, br1, br2)
    ensures multiset(a[lo..hi]) == old(multiset(a[lo..hi]))
    ensures a[..lo] == old(a[..lo]) && a[hi..] == old(a[hi..])
  {
    InCloudCoords(a[..], cloud, d, lo, hi);
    var m1 := PartitionPass(a, cloud, d, cut, lo, hi, false);
    ghost var s := a[..];
    var m2 := PartitionPass(a, cloud, d, cut, m1, hi, true);
    br1, br2 := m1 - lo, m2 - lo;
    TwoPasses(s, a[..], cloud, d, cut, lo, m1, m2, hi);
  }

  lemma KeepsFront(s: seq<int>, t: seq<int>, lo: nat, mid: nat, hi: nat)
    requires lo <= mid <= hi <= |s| == |t| && s[..mid] == t[..mid] && multiset(s[mid..hi]) == multiset(t[mid..hi])
    ensures s[lo..mid] == t[lo..mid] && s[..lo] == t[..lo] && multiset(s[lo..hi]) == multiset(t[lo..hi])
    ensures forall j :: lo <= j < mid ==> s[j] == t[j]
  {
    assert s[lo..mid] == s[..mid][lo..] && s[..lo] == s[..mid][..lo] && t[..lo] == t[..mid][..lo];
    assert s[lo..hi] == s[lo..mid] + s[mid..hi] && t[lo..hi] == t[lo..mid] + t[mid..hi];
    forall j | lo <= j < mid ensures s[j] == t[j] { assert s[..mid][j] == t[..mid][j]; }
  }

  /** Where the runs end, relative to any point on either side of the cut. */
  lemma RunsNonempty(s: seq<int>, cloud: seq<Point>, d: nat, cut: real, br1: nat, br2: nat, x: int)
    requires ThreeWay(s, cloud, d, cut, br1, br2) && x in s
    ensures 0 <= x < |cloud| && d < |cloud[x]|
    ensures cloud[x][d] <= cut ==> br2 > 0
    ensures cut <= cloud[x][d] ==> br1 < |s|
    ensures cloud[x][d] == cut ==> br1 < br2
  {
    var j :| 0 <= j < |s| && s[j] == x;
  }

  /** A cut on the bound of the points leaves no run beyond it. */
  lemma EdgeRuns(s: seq<int>, t: seq<int>, cloud: seq<Point>, d: nat, cut: real, br1: nat, br2: nat)
    requires InCloud(s, cloud, d) && multiset(s) == multiset(t) && ThreeWay(t, cloud, d, cut, br1, br2)
    ensures AllAbove(s, cloud, d, cut) ==> br1 == 0
    ensures AllBelow(s, cloud, d, cut) ==> br2 == |t|
  {
    if br1 > 0 {
      assert t[0] in multiset(t) && t[0] in multiset(s);
    }
    if br2 < |t| {
      assert t[br2] in multiset(t) && t[br2] in multiset(s);
    }
  }

  ghost predicate SplitAt(s: seq<int>, cloud: seq<Point>, d: nat, cut: real, n: nat) {
    && n <= |s|
    && InCloud(s[..n], cloud, d) && AllBelow(s[..n], cloud, d, cut)
    && InCloud(s[n..], cloud, d) && AllAbove(s[n..], cloud, d, cut)
  }

  lemma CutOnEitherSide(s: seq<int>, cloud: seq<Point>, d: nat, cut: real, br1: nat, br2: nat, n: nat)
    requires ThreeWay(s, cloud, d, cut, br1, br2) && br1 <= n <= br2
    ensures SplitAt(s, cloud, d, cut, n)
  {
  }

  /** The ideal cut moved between the bounds of the points. */
  function ClampCut(idealCut: real, least: real, most: real): real {
    if idealCut < least then least else if idealCut > most then most else idealCut
  }

  /** How many points go left of the cut. */
  function LeftCount(count: int, br1: nat, br2: nat, idealCut: real, least: real, most: real): int {
    if idealCut < least then 1
    else if idealCut > most then count - 1
    else if br1 > count / 2 then br1
    else if br2 < count / 2 then br2
    else count / 2
  }

  /** Both sides of the split get a point, and the split lies on the run of points on the cut. */
  lemma LeftCountFits(s: seq<int>, t: seq<int>, cloud: seq<Point>, d: nat, idealCut: real, least: real, most: real,
      br1: nat, br2: nat, x: int, y: int)
    requires |s| > 2 && multiset(s) == multiset(t) && InCloud(s, cloud, d)
    requires AllAbove(s, cloud, d, least) && AllBelow(s, cloud, d, most)
    requires x in s && cloud[x][d] == least && y in s && cloud[y][d] == most
    requires ThreeWay(t, cloud, d, ClampCut(idealCut, least, most), br1, br2)
    ensures 0 < LeftCount(|s|, br1, br2, idealCut, least, most) < |s|
    ensures br1 <= LeftCount(|s|, br1, br2, idealCut, least, most) <= br2
  {
    var cut := ClampCut(idealCut, least, most);
    assert |t| == |multiset(t)| == |s|;
    assert x in multiset(s) && y in multiset(s) && x in multiset(t) && y in multiset(t);
    RunsNonempty(t, cloud, d, cut, br1, br2, x);
    RunsNonempty(t, cloud, d, cut, br1, br2, y);
    EdgeRuns(s, t, cloud, d, cut, br1, br2);
  }

  /** The bounds of a range of points, and where its runs end. */
  datatype Bounds = Bounds(least: real, most: real, br1: nat, br2: nat)

  /** The bounds are attained. */
  ghost predicate Bounding(b: Bounds, s: seq<int>, cloud: seq<Point>, d: nat) {
    && InCloud(s, cloud, d) && AllAbove(s, cloud, d, b.least) && AllBelow(s, cloud, d, b.most)
    && (exists x :: x in s && cloud[x][d] == b.least) && (exists x :: x in s && cloud[x][d] == b.most)
  }

  /** The cut is the ideal one moved between the bounds of the points s, and the number of points going
      left is chosen by where the runs of the partitioned points t end. */
  ghost predicate Chosen(b: Bounds, s: seq<int>, t: seq<int>, cloud: seq<Point>, d: nat, idealCut: real, cut: real,
      leftCount: nat) {
    && Bounding(b, s, cloud, d) && cut == ClampCut(idealCut, b.least, b.most)
    && ThreeWay(t, cloud, d, cut, b.br1, b.br2)
    && leftCount == LeftCount(|s|, b.br1, b.br2, idealCut, b.least, b.most)
  }

  /** Partitions [lo, hi) around a cut between the bounds of its points and returns how many
      of them go left: at least one point on either side, none on the wrong side. */
  method SplitPoints(a: array<int>, cloud: seq<Point>, d: nat, idealCut: real, lo: nat, hi: nat)
    returns (cut: real, leftCount: nat, ghost b: Bounds)
    requires lo + 2 < hi <= a.Length && InCloud(a[lo..hi], cloud, d)
    modifies a
    ensures 0 < leftCount < hi - lo && multiset(a[lo..hi]) == old(multiset(a[lo..hi]))
    ensures a[..lo] == old(a[..lo]) && a[hi..] == old(a[hi..])
    ensures SplitAt(a[lo..hi], cloud, d, cut, leftCount)
    ensures Chosen(b, old(a[lo..hi]), a[lo..hi], cloud, d, idealCut, cut, leftCount)
  {
    ghost var s := a[lo..hi];
    var least, most := GetBounds(a, cloud, d, lo, hi);
    ghost var x :| x in s && cloud[x][d] == least;
    ghost var y :| y in s && cloud[y][d] == most;
    cut := ClampCut(idealCut, least, most);
    var br1, br2 := PartitionAround(a, cloud, d, cut, lo, hi);
    ghost var t := a[lo..hi];
    LeftCountFits(s, t, cloud, d, idealCut, least, most, br1, br2, x, y);
    leftCount := LeftCount(hi - lo, br1, br2, idealCut, least, most);
    CutOnEitherSide(t, cloud, d, cut, br1, br2, leftCount);
    b := Bounds(least, most, br1, br2);
  }
}
