/** What a (possibly approximate) k-nearest-neighbour search promises, and how an exact
    and an approximate answer to one query relate. */
module KnnSpec {
  import opened Neighbours
  import opened Bits
  import opened Wrappers

  /** An answer that may leave out candidates that are, stretched by the error factor,
      no closer than its worst slot. */
  ghost predicate Approximates(r: seq<Entry>, k: nat, candidates: multiset<Entry>, maxError2: real) {
    |r| == k && exists skipped :: ApproximatesBut(multiset(r), k, candidates, maxError2, skipped)
  }

  ghost predicate ApproximatesBut(held: multiset<Entry>, k: nat, candidates: multiset<Entry>, maxError2: real,
      skipped: multiset<Entry>) {
    && skipped <= candidates && KBest(held, k, candidates - skipped)
    && forall h, e :: h in held && e in skipped ==> h.value.AtMost(e.value.Times(maxError2))
  }

  /** With no error allowed the answer is exact. */
  lemma ExactWithoutError(r: seq<Entry>, k: nat, candidates: multiset<Entry>)
    requires Approximates(r, k, candidates, 1.0) && k > 0 && AllFinite(candidates)
    ensures KBest(multiset(r), k, candidates)
  {
    var skipped :| ApproximatesBut(multiset(r), k, candidates, 1.0, skipped);
    var held, seen := multiset(r), candidates - skipped;
    assert seen + skipped == candidates;
    forall h, e | h in held && e in candidates - held
      ensures h.value.AtMost(e.value)
    {
      if e in skipped {
        assert e in candidates;
        assert e.value.Times(1.0) == e.value;
      }
      assert e in seen - held || e in skipped;
    }
  }

  /** Every slot of a sorted approximate answer is within the error factor of the exact one. */
  lemma WithinFactor(r: seq<Entry>, exact: seq<Entry>, k: nat, candidates: multiset<Entry>, c: real)
    requires Approximates(r, k, candidates, c) && Sorted(r) && c >= 1.0 && k > 0 && AllFinite(candidates)
    requires |exact| == k && KBest(multiset(exact), k, candidates) && Sorted(exact)
    ensures forall i :: 0 <= i < k ==> exact[i].value.AtMost(r[i].value) && r[i].value.AtMost(exact[i].value.Times(c))
  {
    var skipped :| ApproximatesBut(multiset(r), k, candidates, c, skipped);
    assert (candidates - skipped) + skipped == candidates;
    assert r[k - 1] in multiset(r);
    forall i | 0 <= i < k
      ensures exact[i].value.AtMost(r[i].value) && r[i].value.AtMost(exact[i].value.Times(c))
    {
      SlotWithin(r, exact, candidates - skipped, skipped, c, i);
    }
  }

  /** A filled slot holds a point of the cloud at its true distance, accepted by the query. */
  lemma SlotIsPoint(r: seq<Entry>, k: nat, q: Query, bs: seq<BucketEntry>, c: real, i: nat)
    requires q.dim <= |q.pt| && AllWide(bs, q.dim)
    requires Approximates(r, k, Candidates(q, bs), c) && i < k && r[i].value.Fin?
    ensures q.Accepts(r[i].value.d)
    ensures exists b :: b in bs && b.index == r[i].index && r[i].value.d == SqDist(b.pt, q.pt, q.dim)
  {
    var skipped :| ApproximatesBut(multiset(r), k, Candidates(q, bs), c, skipped);
    assert r[i] in multiset(r) && r[i] in multiset(r)[PAD := 0];
    CandidateIsPoint(q, bs, r[i]);
    var j :| 0 <= j < |bs| && r[i] in Candidate(q, bs[j]);
    assert bs[j] in bs;
  }

  /** Slots stay empty only when every candidate is in the answer. */
  lemma EmptySlotMeansAll(r: seq<Entry>, k: nat, candidates: multiset<Entry>, c: real, i: nat)
    requires Approximates(r, k, candidates, c) && i < k && r[i].value.Inf? && AllFinite(candidates)
    ensures multiset(r)[PAD := 0] == candidates
  {
    var skipped :| ApproximatesBut(multiset(r), k, candidates, c, skipped);
    assert r[i] in multiset(r);
    assert forall e :: e in skipped ==> e in candidates;
    assert forall e :: e !in skipped;
    forall e ensures multiset(r)[PAD := 0][e] == candidates[e] {
      assert PAD !in candidates;
      assert skipped[e] == 0;
      assert (candidates - skipped - multiset(r))[e] == 0;
    }
  }

  /** Points all at least rd away (squared) contribute only candidates that far. */
  lemma {:induction false} FarCandidates(q: Query, bs: seq<BucketEntry>, rd: real)
    requires q.dim <= |q.pt| && AllWide(bs, q.dim)
    requires forall i :: 0 <= i < |bs| ==> AllWide([bs[i]], q.dim) && rd <= SqDist(bs[i].pt, q.pt, q.dim)
    ensures forall e :: e in Candidates(q, bs) ==> Fin(rd).AtMost(e.value)
    ensures !Fin(rd).AtMost(q.maxRadius2) ==> Candidates(q, bs) == multiset{}
  {
    if bs != [] {
      FarCandidates(q, bs[..|bs| - 1], rd);
    }
  }

  /** What searching some points does: their candidates are offered, except those skipped, which
      are, stretched by the error factor, no closer than the head. */
  ghost predicate Searched(held: multiset<Entry>, head: Dist, k: nat, offered: multiset<Entry>,
                           candidates: multiset<Entry>, skipped: multiset<Entry>, maxError2: real) {
    && skipped <= candidates && KBest(held, k, offered + (candidates - skipped))
    && forall e :: e in skipped ==> head.AtMost(e.value.Times(maxError2))
  }

  lemma SearchedNone(held: multiset<Entry>, head: Dist, k: nat, offered: multiset<Entry>, candidates: multiset<Entry>,
      maxError2: real)
    requires KBest(held, k, offered + candidates)
    ensures Searched(held, head, k, offered, candidates, multiset{}, maxError2)
  {
    assert candidates - multiset{} == candidates;
  }

  lemma SearchedKeeps(held: multiset<Entry>, head: Dist, k: nat, offered: multiset<Entry>,
                      candidates: multiset<Entry>, skipped: multiset<Entry>, maxError2: real)
    requires Searched(held, head, k, offered, candidates, skipped, maxError2)
    ensures KBest(held, k, offered + (candidates - skipped))
  {
  }

  /** Searching two groups of points one after the other searches both. */
  lemma SearchedBoth(held1: multiset<Entry>, head1: Dist, held: multiset<Entry>, head: Dist, k: nat,
      offered: multiset<Entry>, c1: multiset<Entry>, s1: multiset<Entry>, c2: multiset<Entry>, s2: multiset<Entry>,
      maxError2: real)
    requires Searched(held1, head1, k, offered, c1, s1, maxError2)
    requires Searched(held, head, k, offered + (c1 - s1), c2, s2, maxError2) && head.AtMost(head1)
    ensures Searched(held, head, k, offered, c1 + c2, s1 + s2, maxError2)
  {
    assert offered + (c1 - s1) + (c2 - s2) == offered + ((c1 + c2) - (s1 + s2));
  }

  /** Points beyond the radius, or no closer than the head even when their distance is stretched,
      need not be visited. */
  lemma SearchedByPruning(held: multiset<Entry>, head: Dist, k: nat, offered: multiset<Entry>,
                          q: Query, bs: seq<BucketEntry>, rd: real, maxError2: real) returns (skipped: multiset<Entry>)
    requires q.dim <= |q.pt| && AllWide(bs, q.dim) && maxError2 >= 0.0 && KBest(held, k, offered)
    requires forall i :: 0 <= i < |bs| ==> AllWide([bs[i]], q.dim) && rd <= SqDist(bs[i].pt, q.pt, q.dim)
    requires !(Fin(rd).AtMost(q.maxRadius2) && Fin(rd * maxError2).Less(head))
    ensures Searched(held, head, k, offered, Candidates(q, bs), skipped, maxError2)
  {
    hide KBest, SqDist, Candidates;
    skipped := Candidates(q, bs);
    FarCandidates(q, bs, rd);
    forall e | e in skipped
      ensures head.AtMost(e.value.Times(maxError2))
    {
      StretchMono(rd, e.value.d, maxError2);
    }
    assert skipped - skipped == multiset{};
    assert offered + multiset{} == offered;
  }

  lemma StretchMono(a: real, b: real, c: real)
    requires a <= b && c >= 0.0
    ensures a * c <= b * c
  {
    assert (b - a) * c >= 0.0;
  }

  /** The slots copied out of a heap after a search of all points are an approximate answer. */
  lemma Approximated(r: seq<Entry>, k: nat, held: multiset<Entry>, head: Dist, candidates: multiset<Entry>,
      skipped: multiset<Entry>, maxError2: real)
    requires |r| == k && multiset(r) == held && (forall h :: h in held ==> h.value.AtMost(head))
    requires Searched(held, head, k, multiset{}, candidates, skipped, maxError2)
    ensures Approximates(r, k, candidates, maxError2)
  {
    assert multiset{} + (candidates - skipped) == candidates - skipped;
    assert ApproximatesBut(multiset(r), k, candidates, maxError2, skipped);
  }

  const ALLOW_SELF_MATCH := 1
  const SORT_RESULTS := 2

  datatype KnnError = TooManyRequested | TooFewRows | RadiiMismatch | BadFlags

  /** The arguments of one call that searches for several queries, one radius each. */
  datatype Request = Request(
    queries: seq<Point>, rows: nat, maxRadii: seq<Dist>, k: nat, epsilon: real, flags: nat, selfEps: real)
  {
    predicate AllowSelfMatch() {
      And(flags, ALLOW_SELF_MATCH) != 0
    }

    predicate SortResults() {
      And(flags, SORT_RESULTS) != 0
    }

    /** The error thrown for these arguments, if any. */
    function CheckSizesKnn(cols: nat, dim: nat): Option<KnnError> {
      if AllowSelfMatch() && k > cols then Some(TooManyRequested)
      else if !AllowSelfMatch() && k > cols - 1 then Some(TooManyRequested)
      else if rows < dim then Some(TooFewRows)
      else if |maxRadii| != |queries| then Some(RadiiMismatch)
      else if flags > ALLOW_SELF_MATCH + SORT_RESULTS then Some(BadFlags)
      else None
    }

    ghost predicate WellShaped() {
      k > 0 && forall c :: 0 <= c < |queries| ==> |queries[c]| == rows
    }

    /** The query of column c. */
    function At(c: nat, dim: nat): (q: Query)
      requires c < |queries| && c < |maxRadii|
    {
      var r := maxRadii[c];
      Query(queries[c], dim, if r.Fin? then Fin(r.d * r.d) else Inf, AllowSelfMatch(), selfEps)
    }
  }

  /** Every column of an answer approximates the k nearest neighbours of its query. */
  ghost predicate Answers(r: seq<seq<Entry>>, q: Request, bs: seq<BucketEntry>, dim: nat, maxError2: real) {
    && AllWide(bs, dim) && dim <= q.rows && q.WellShaped()
    && |r| == |q.queries| == |q.maxRadii|
    && forall c :: 0 <= c < |r| ==> Approximates(r[c], q.k, Candidates(q.At(c, dim), bs), maxError2)
  }

  ghost predicate AllSorted(r: seq<seq<Entry>>) {
    forall c :: 0 <= c < |r| ==> Sorted(r[c])
  }

  /** Both answers list the same k distances for every query. */
  ghost predicate SameDistances(r: seq<seq<Entry>>, s: seq<seq<Entry>>, k: nat) {
    && |r| == |s|
    && forall c :: 0 <= c < |r| ==> |r[c]| == |s[c]| == k && forall i :: 0 <= i < k ==> r[c][i].value == s[c][i].value
  }

  /** Every distance of r is at least that of the exact answer s, and at most c2 times that. */
  ghost predicate DistancesWithin(r: seq<seq<Entry>>, s: seq<seq<Entry>>, k: nat, c2: real) {
    && |r| == |s|
    && forall c :: 0 <= c < |r| ==> |r[c]| == |s[c]| == k && ColumnWithin(r[c], s[c], c2)
  }

  ghost predicate ColumnWithin(r: seq<Entry>, s: seq<Entry>, c2: real)
    requires |r| == |s|
  {
    forall i :: 0 <= i < |r| ==> s[i].value.AtMost(r[i].value) && r[i].value.AtMost(s[i].value.Times(c2))
  }

  /** Two sorted answers without error list the same distances for every query. */
  lemma ExactAnswersAgree(r: seq<seq<Entry>>, s: seq<seq<Entry>>, q: Request, bs: seq<BucketEntry>, dim: nat)
    requires Answers(r, q, bs, dim, 1.0) && Answers(s, q, bs, dim, 1.0) && AllSorted(r) && AllSorted(s)
    ensures SameDistances(r, s, q.k)
  {
    forall c | 0 <= c < |r|
      ensures |r[c]| == |s[c]| == q.k && forall i :: 0 <= i < q.k ==> r[c][i].value == s[c][i].value
    {
      var m := Candidates(q.At(c, dim), bs);
      ExactWithoutError(r[c], q.k, m);
      ExactWithoutError(s[c], q.k, m);
      KBestUnique(r[c], s[c], m);
    }
  }

  /** A sorted answer with error is, slot by slot, within its factor of a sorted exact one. */
  lemma AnswerWithin(r: seq<seq<Entry>>, s: seq<seq<Entry>>, q: Request, bs: seq<BucketEntry>, dim: nat, c2: real)
    requires Answers(r, q, bs, dim, c2) && Answers(s, q, bs, dim, 1.0) && AllSorted(r) && AllSorted(s) && c2 >= 1.0
    ensures DistancesWithin(r, s, q.k, c2)
  {
    forall c | 0 <= c < |r|
      ensures |r[c]| == |s[c]| == q.k && ColumnWithin(r[c], s[c], c2)
    {
      var m := Candidates(q.At(c, dim), bs);
      ExactWithoutError(s[c], q.k, m);
      WithinFactor(r[c], s[c], q.k, m, c2);
    }
  }
}
