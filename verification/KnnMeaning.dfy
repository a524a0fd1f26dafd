/** What the answer of a k-nearest-neighbour search says about the points of the cloud, in plain terms: coordinates,
    radii and option bits. */
module KnnMeaning {
  import opened Bits
  import opened Wrappers
  import opened Neighbours
  import opened KdLayout
  import opened KnnSpec

  /** The running totals of the squared differences of the coordinates. */
  ghost predicate Totals(total: seq<real>, p: Point, q: Point, n: nat)
    requires n <= |p| && n <= |q|
  {
    && |total| == n + 1 && total[0] == 0.0
    && forall i :: 0 <= i < n ==> total[i + 1] == total[i] + (q[i] - p[i]) * (q[i] - p[i])
  }

  /** d is the squared distance of p and q over the first n coordinates. */
  ghost predicate SquaredDistance(d: real, p: Point, q: Point, n: nat)
    requires n <= |p| && n <= |q|
  {
    exists total :: Totals(total, p, q, n) && total[n] == d
  }

  lemma {:induction false} TotalIs(total: seq<real>, p: Point, q: Point, n: nat)
    requires n <= |p| && n <= |q| && Totals(total, p, q, n)
    ensures total[n] == SqDist(p, q, n)
  {
    if n > 0 {
      TotalIs(total[..n], p, q, n - 1);
    }
  }

  lemma {:induction false} TotalExists(p: Point, q: Point, n: nat) returns (total: seq<real>)
    requires n <= |p| && n <= |q|
    ensures Totals(total, p, q, n)
  {
    if n == 0 {
      total := [0.0];
    } else {
      total := TotalExists(p, q, n - 1);
      total := total + [total[n - 1] + (q[n - 1] - p[n - 1]) * (q[n - 1] - p[n - 1])];
    }
  }

  lemma DistanceIs(d: real, p: Point, q: Point, n: nat)
    requires n <= |p| && n <= |q|
    ensures SquaredDistance(d, p, q, n) <==> d == SqDist(p, q, n)
  {
    var total := TotalExists(p, q, n);
    TotalIs(total, p, q, n);
    hide SqDist;
    if other :| Totals(other, p, q, n) && other[n] == d {
      TotalIs(other, p, q, n);
    }
  }

  lemma {:induction false} NoDistance(q: Point, n: nat)
    requires n <= |q|
    ensures SqDist(q, q, n) == 0.0
  {
    if n > 0 {
      NoDistance(q, n - 1);
    }
  }

  /** Changing one coordinate changes the squared distance by its own squares. */
  lemma {:induction false} OneCoordinate(p: Point, q: Point, n: nat, i: nat, x: real)
    requires n <= |p| && n <= |q| && i < |p|
    ensures SqDist(p[i := x], q, n) ==
      if i < n then SqDist(p, q, n) - (q[i] - p[i]) * (q[i] - p[i]) + (q[i] - x) * (q[i] - x) else SqDist(p, q, n)
  {
    if n > 0 {
      OneCoordinate(p, q, n - 1, i, x);
    }
  }

  predicate WithinRadius(d: real, maxRadius: Dist) {
    maxRadius.Inf? || d <= maxRadius.d * maxRadius.d
  }

  /** The point may be listed: it is within the radius and not a forbidden match of the query itself. */
  predicate Listable(d: real, maxRadius: Dist, self: bool, selfEps: real) {
    WithinRadius(d, maxRadius) && (self || d > selfEps)
  }

  /** The k slots of an answer: filled ones name different listable points at their squared distances, and no
      listable point left out is nearer than any slot, even when its squared distance is stretched. A slot is
      empty only when no listable point is left out. */
  ghost predicate NearestPoints(r: seq<Entry>, cloud: seq<Point>, query: Point, dim: nat, k: nat, maxRadius: Dist,
      self: bool, selfEps: real, stretch: real)
    requires dim <= |query| && ValidCloud(cloud, dim)
  {
    && |r| == k && SlotsFilled(r, cloud, query, dim, maxRadius, self, selfEps)
    && (forall i, j :: 0 <= i < j < k && r[i].value.Fin? && r[j].value.Fin? ==> r[i].index != r[j].index)
    && forall p, d, i :: 0 <= p < |cloud| && SquaredDistance(d, cloud[p], query, dim) && 0 <= i < k ==>
      Listable(d, maxRadius, self, selfEps) && LeftOut(r, p) ==>
      r[i].value.Fin? && (r[i].value.d <= d || r[i].value.d <= d * stretch)
  }

  ghost predicate SlotsFilled(r: seq<Entry>, cloud: seq<Point>, query: Point, dim: nat, maxRadius: Dist, self: bool,
      selfEps: real)
    requires dim <= |query| && ValidCloud(cloud, dim)
  {
    forall i :: 0 <= i < |r| ==>
      if r[i].value.Fin? then (
        && 0 <= r[i].index < |cloud| && SquaredDistance(r[i].value.d, cloud[r[i].index], query, dim)
        && Listable(r[i].value.d, maxRadius, self, selfEps)
      ) else r[i].index == 0
  }

  predicate LeftOut(r: seq<Entry>, p: nat) {
    forall i :: 0 <= i < |r| && r[i].value.Fin? ==> r[i].index != p
  }

  lemma ListableIs(q: Query, d: real, maxRadius: Dist)
    requires q.maxRadius2 == if maxRadius.Fin? then Fin(maxRadius.d * maxRadius.d) else Inf
    ensures q.Accepts(d) <==> Listable(d, maxRadius, q.allowSelfMatch, q.selfEps)
  {
  }

  /** Every point of a cloud contributes one entry at most, under its own index. */
  lemma {:induction false} OnceEach(q: Query, cloud: seq<Point>, n: nat, e: Entry)
    requires q.dim <= |q.pt| && ValidCloud(cloud, q.dim) && n <= |cloud|
    ensures AllWide(AllEntries(cloud)[..n], q.dim)
    ensures Candidates(q, AllEntries(cloud)[..n])[e] ==
      if 0 <= e.index < n && e.value == Fin(SqDist(cloud[e.index], q.pt, q.dim)) && q.Accepts(e.value.d) then 1 else 0
  {
    hide SqDist, Candidates, Candidate;
    if n == 0 {
      NoCandidates(q);
    } else {
      OnceEach(q, cloud, n - 1, e);
      var bs := AllEntries(cloud)[..n];
      assert bs[..n - 1] == AllEntries(cloud)[..n - 1] && bs[n - 1] == BucketEntry(cloud[n - 1], n - 1);
      OneMoreCandidate(q, bs, e);
    }
  }

  lemma NoCandidates(q: Query)
    requires q.dim <= |q.pt|
    ensures Candidates(q, []) == multiset{}
  {
  }

  /** How often a query that accepts a point lists this entry for it. */
  function Times(e: Entry, b: BucketEntry, q: Query): nat
    requires q.dim <= |q.pt| && q.dim <= |b.pt|
  {
    if e.index == b.index && e.value == Fin(SqDist(b.pt, q.pt, q.dim)) && q.Accepts(e.value.d) then 1 else 0
  }

  lemma OneMoreCandidate(q: Query, bs: seq<BucketEntry>, e: Entry)
    requires q.dim <= |q.pt| && AllWide(bs, q.dim) && bs != []
    ensures AllWide(bs[..|bs| - 1], q.dim) && q.dim <= |bs[|bs| - 1].pt|
    ensures var b := bs[|bs| - 1];
      Candidates(q, bs)[e] == Candidates(q, bs[..|bs| - 1])[e] + Times(e, b, q)
  {
    hide SqDist;
    var n := |bs| - 1;
    assert bs[n] in bs;
  }

  /** The entries of the cloud that the query accepts. */
  lemma CandidateOf(q: Query, cloud: seq<Point>, e: Entry)
    requires q.dim <= |q.pt| && ValidCloud(cloud, q.dim)
    ensures AllWide(AllEntries(cloud), q.dim)
    ensures Candidates(q, AllEntries(cloud))[e] ==
      if 0 <= e.index < |cloud| && e.value == Fin(SqDist(cloud[e.index], q.pt, q.dim)) && q.Accepts(e.value.d)
      then 1 else 0
  {
    OnceEach(q, cloud, |cloud|, e);
    assert AllEntries(cloud)[..|cloud|] == AllEntries(cloud);
  }

  ghost predicate ForQuery(q: Query, cloud: seq<Point>, maxRadius: Dist) {
    && q.dim <= |q.pt| && ValidCloud(cloud, q.dim)
    && q.maxRadius2 == if maxRadius.Fin? then Fin(maxRadius.d * maxRadius.d) else Inf
  }

  lemma SlotMeans(r: seq<Entry>, k: nat, q: Query, cloud: seq<Point>, maxRadius: Dist, stretch: real, i: nat)
    requires ForQuery(q, cloud, maxRadius) && AllWide(AllEntries(cloud), q.dim) && i < |r|
    requires Approximates(r, k, Candidates(q, AllEntries(cloud)), stretch)
    ensures if r[i].value.Fin? then (
        && 0 <= r[i].index < |cloud| && SquaredDistance(r[i].value.d, cloud[r[i].index], q.pt, q.dim)
        && Listable(r[i].value.d, maxRadius, q.allowSelfMatch, q.selfEps) && r[i] in Candidates(q, AllEntries(cloud))
      ) else r[i].index == 0
  {
    hide SqDist, Candidates;
    var candidates := Candidates(q, AllEntries(cloud));
    var skipped :| ApproximatesBut(multiset(r), k, candidates, stretch, skipped);
    assert r[i] in multiset(r);
    if r[i].value.Fin? {
      assert r[i] in multiset(r)[PAD := 0] && r[i] in candidates;
      CandidateOf(q, cloud, r[i]);
      DistanceIs(r[i].value.d, cloud[r[i].index], q.pt, q.dim);
      ListableIs(q, r[i].value.d, maxRadius);
    }
  }

  lemma SlotsDiffer(r: seq<Entry>, k: nat, q: Query, cloud: seq<Point>, maxRadius: Dist, stretch: real, i: nat, j: nat)
    requires ForQuery(q, cloud, maxRadius) && AllWide(AllEntries(cloud), q.dim) && i < j < |r|
    requires Approximates(r, k, Candidates(q, AllEntries(cloud)), stretch) && r[i].value.Fin? && r[j].value.Fin?
    ensures r[i].index != r[j].index
  {
    hide SqDist, Candidates;
    var candidates := Candidates(q, AllEntries(cloud));
    var skipped :| ApproximatesBut(multiset(r), k, candidates, stretch, skipped);
    if r[i].index == r[j].index {
      assert r[i] in multiset(r)[PAD := 0] && r[j] in multiset(r)[PAD := 0];
      CandidateOf(q, cloud, r[i]);
      CandidateOf(q, cloud, r[j]);
      assert r[i] == r[j];
      TwoSlots(r, i, j);
      assert false;
    }
  }

  lemma TwoSlots(r: seq<Entry>, i: nat, j: nat)
    requires i < j < |r| && r[i] == r[j]
    ensures multiset(r)[r[i]] >= 2
  {
    assert r == r[..j] + r[j..];
    assert multiset(r) == multiset(r[..j]) + multiset(r[j..]);
    assert r[..j][i] == r[i] && r[j..][0] == r[i];
    assert r[i] in multiset(r[..j]) && r[i] in multiset(r[j..]);
  }

  lemma OthersAreFar(r: seq<Entry>, k: nat, q: Query, cloud: seq<Point>, maxRadius: Dist, stretch: real, p: nat,
      d: real, i: nat)
    requires ForQuery(q, cloud, maxRadius) && AllWide(AllEntries(cloud), q.dim) && i < |r| && p < |cloud|
    requires Approximates(r, k, Candidates(q, AllEntries(cloud)), stretch)
    requires SquaredDistance(d, cloud[p], q.pt, q.dim) && Listable(d, maxRadius, q.allowSelfMatch, q.selfEps)
    requires LeftOut(r, p)
    ensures r[i].value.Fin? && (r[i].value.d <= d || r[i].value.d <= d * stretch)
  {
    hide SqDist, Candidates, ApproximatesBut, SquaredDistance, Listable;
    var candidates := Candidates(q, AllEntries(cloud));
    var skipped :| ApproximatesBut(multiset(r), k, candidates, stretch, skipped);
    var e := Entry(p, Fin(d));
    assert e !in r && r[i] in multiset(r);
    DistanceIs(d, cloud[p], q.pt, q.dim);
    ListableIs(q, d, maxRadius);
    CandidateOf(q, cloud, e);
    NotHeld(multiset(r), k, candidates, stretch, skipped, r[i], e);
  }

  /** A candidate that is not held is no better than any slot, or stretched no better. */
  lemma NotHeld(held: multiset<Entry>, k: nat, candidates: multiset<Entry>, stretch: real, skipped: multiset<Entry>,
      h: Entry, e: Entry)
    requires ApproximatesBut(held, k, candidates, stretch, skipped) && h in held && e in candidates && e !in held
    ensures h.value.AtMost(e.value) || h.value.AtMost(e.value.Times(stretch))
  {
    assert e in skipped || e in (candidates - skipped) - held;
  }

  /** An answer that approximates the accepted entries of a cloud lists the nearest points. */
  lemma AnswerMeans(r: seq<Entry>, k: nat, q: Query, cloud: seq<Point>, maxRadius: Dist, stretch: real)
    requires ForQuery(q, cloud, maxRadius) && AllWide(AllEntries(cloud), q.dim)
    requires Approximates(r, k, Candidates(q, AllEntries(cloud)), stretch)
    ensures NearestPoints(r, cloud, q.pt, q.dim, k, maxRadius, q.allowSelfMatch, q.selfEps, stretch)
  {
    hide SqDist, Candidates, SquaredDistance, Listable, LeftOut;
    assert |r| == k by {
      hide ApproximatesBut;
    }
    hide Approximates;
    forall i | 0 <= i < k
      ensures if r[i].value.Fin? then (
          && 0 <= r[i].index < |cloud| && SquaredDistance(r[i].value.d, cloud[r[i].index], q.pt, q.dim)
          && Listable(r[i].value.d, maxRadius, q.allowSelfMatch, q.selfEps)
        ) else r[i].index == 0
    {
      SlotMeans(r, k, q, cloud, maxRadius, stretch, i);
    }
    forall i, j | 0 <= i < j < k && r[i].value.Fin? && r[j].value.Fin?
      ensures r[i].index != r[j].index
    {
      SlotsDiffer(r, k, q, cloud, maxRadius, stretch, i, j);
    }
    forall p, d, i | 0 <= p < |cloud| && SquaredDistance(d, cloud[p], q.pt, q.dim) && 0 <= i < k
      ensures Listable(d, maxRadius, q.allowSelfMatch, q.selfEps) && LeftOut(r, p) ==>
        r[i].value.Fin? && (r[i].value.d <= d || r[i].value.d <= d * stretch)
    {
      if Listable(d, maxRadius, q.allowSelfMatch, q.selfEps) && LeftOut(r, p) {
        OthersAreFar(r, k, q, cloud, maxRadius, stretch, p, d, i);
      }
    }
  }

  /** What a request asks for: bit 0 of the flags allows the query itself to be listed, bit 1 sorts. */
  ghost predicate AnswersRequest(r: seq<seq<Entry>>, q: Request, cloud: seq<Point>, dim: nat, stretch: real) {
    && ValidCloud(cloud, dim) && |r| == |q.queries| == |q.maxRadii| && q.WellShaped() && dim <= q.rows
    && forall c :: 0 <= c < |r| ==>
      && NearestPoints(r[c], cloud, q.queries[c], dim, q.k, q.maxRadii[c], q.flags % 2 == 1, q.selfEps, stretch)
      && (q.flags / 2 % 2 == 1 ==> Ascending(r[c]))
  }

  /** The distances do not decrease, empty slots last. */
  ghost predicate Ascending(r: seq<Entry>) {
    forall i, j :: 0 <= i < j < |r| && r[j].value.Fin? ==> r[i].value.Fin? && r[i].value.d <= r[j].value.d
  }

  lemma SortedAscending(r: seq<Entry>)
    requires Sorted(r)
    ensures Ascending(r)
  {
  }

  lemma FlagsAre(q: Request)
    ensures q.AllowSelfMatch() <==> q.flags % 2 == 1
    ensures q.SortResults() <==> q.flags / 2 % 2 == 1
  {
    assert Pow2(0) == 1 && Pow2(1) == 2;
    BitTest(q.flags, 0);
    BitTest(q.flags, 1);
  }

  lemma RequestMeans(r: seq<seq<Entry>>, q: Request, cloud: seq<Point>, dim: nat, stretch: real)
    requires ValidCloud(cloud, dim) && Answers(r, q, AllEntries(cloud), dim, stretch)
    requires q.SortResults() ==> AllSorted(r)
    ensures AnswersRequest(r, q, cloud, dim, stretch)
  {
    FlagsAre(q);
    hide Approximates, Candidates, NearestPoints, Sorted, Ascending, And;
    forall c | 0 <= c < |r|
      ensures NearestPoints(r[c], cloud, q.queries[c], dim, q.k, q.maxRadii[c], q.flags % 2 == 1, q.selfEps, stretch)
      ensures q.flags / 2 % 2 == 1 ==> Ascending(r[c])
    {
      AnswerMeans(r[c], q.k, q.At(c, dim), cloud, q.maxRadii[c], stretch);
      if q.flags / 2 % 2 == 1 {
        SortedAscending(r[c]);
      }
    }
  }

  /** Which error a request gets, in the order of the tests; the fewest points that are enough depend on bit 0. */
  ghost predicate RequestError(e: Option<KnnError>, q: Request, cols: nat, dim: nat) {
    if q.k > (if q.flags % 2 == 1 then cols else cols - 1) then e == Some(TooManyRequested)
    else if q.rows < dim then e == Some(TooFewRows)
    else if |q.maxRadii| != |q.queries| then e == Some(RadiiMismatch)
    else if q.flags > 3 then e == Some(BadFlags)
    else e == None
  }

  lemma ErrorMeans(q: Request, cols: nat, dim: nat)
    ensures RequestError(q.CheckSizesKnn(cols, dim), q, cols, dim)
  {
    FlagsAre(q);
    hide And;
  }
}
