/** The linear search that the kd-tree speeds up, and the program that compares the two. */
module BruteForce {
  import opened Wrappers
  import opened Neighbours
  import opened IndexHeap
  import opened KnnSpec
  import opened KnnMeaning
  import opened KdLayout
  import KdTree

  class BruteForceSearch {
    const cloud: seq<Point>
    const dim: nat

    constructor (cloud: seq<Point>, dim: nat)
      requires ValidCloud(cloud, dim)
      ensures this.cloud == cloud && this.dim == dim
    {
      this.cloud, this.dim := cloud, dim;
    }

    /** Searches for all queries of a request; the error bound of the request is not used. */
    method Knn(q: Request) returns (r: Result<seq<seq<Entry>>, KnnError>)
      requires ValidCloud(cloud, dim) && q.WellShaped()
      ensures r.Err? <==> q.CheckSizesKnn(|cloud|, dim).Some?
      ensures r.Err? ==> Some(r.error) == q.CheckSizesKnn(|cloud|, dim)
      ensures r.Ok? ==> Answers(r.value, q, AllEntries(cloud), dim, 1.0)
      ensures r.Ok? && q.SortResults() ==> AllSorted(r.value)
      ensures RequestError(if r.Ok? then None else Some(r.error), q, |cloud|, dim)
      ensures r.Ok? ==> AnswersRequest(r.value, q, cloud, dim, 1.0)
    {
      hide Approximates, Candidates, Sorted, Heap.Valid, Heap.Held, Heap.HeadValue, KBest, SqDist, NearestPoints,
          RequestError, AnswersRequest, ValidCloud, AllEntries;
      AllEntriesWide(cloud, dim);
      ErrorMeans(q, |cloud|, dim);
      var error := q.CheckSizesKnn(|cloud|, dim);
      if error.Some? {
        return Err(error.value);
      }
      var heap := new Heap(TreeHeap, q.k);
      var cols := [];
      for c := 0 to |q.queries|
        invariant heap.Usable() && heap.data.Length == q.k && fresh(heap) && fresh(heap.data)
        invariant |cols| == c
        invariant forall i :: 0 <= i < c ==>
          Approximates(cols[i], q.k, Candidates(q.At(i, dim), AllEntries(cloud)), 1.0)
        invariant q.SortResults() ==> forall i :: 0 <= i < c ==> Sorted(cols[i])
      {
        var col := OnePoint(q.At(c, dim), q.k, heap, q.SortResults());
        cols := cols + [col];
      }
      RequestMeans(cols, q, cloud, dim, 1.0);
      r := Ok(cols);
    }

    /** Offers every point of the cloud to the heap. */
    method OnePoint(q: Query, k: nat, heap: Heap, sortResults: bool) returns (r: seq<Entry>)
      requires ValidCloud(cloud, dim) && q.dim == dim <= |q.pt|
      requires heap.Usable() && heap.data.Length == k
      modifies heap, heap.data
      ensures heap.Usable() && AllWide(AllEntries(cloud), dim)
      ensures Approximates(r, k, Candidates(q, AllEntries(cloud)), 1.0)
      ensures sortResults ==> Sorted(r)
    {
      hide KBest, Candidates, SqDist, Heap.Valid, Heap.Held, Heap.HeadValue, Approximates, Sorted, Searched;
      AllEntriesWide(cloud, dim);
      ghost var bs := AllEntries(cloud);
      heap.Reset();
      KBestEmpty(heap.Held(), k);
      CandidatesNone(q, multiset{});
      assert bs[..0] == [];
      for i := 0 to |cloud|
        invariant heap.Valid() && AllWide(bs[..i], dim)
        invariant KBest(heap.Held(), k, multiset{} + Candidates(q, bs[..i]))
      {
        var dist := SqDist(cloud[i], q.pt, dim);
        CandidatesNext(q, bs, i, multiset{});
        if Fin(dist).AtMost(q.maxRadius2) && (q.allowSelfMatch || dist > q.selfEps) {
          heap.Offer(i, dist, multiset{} + Candidates(q, bs[..i]));
        }
      }
      assert bs[..|cloud|] == bs;
      ghost var held, head := heap.Held(), heap.HeadValue();
      SearchedNone(held, head, k, multiset{}, Candidates(q, bs), 1.0);
      r := heap.Results(sortResults);
      Approximated(r, k, held, head, Candidates(q, bs), multiset{}, 1.0);
    }
  }

  /** Runs one request on the kd-tree and on the linear search. Without error both list the same
      distances; with error epsilon the kd-tree is within the factor (1 + epsilon)^2. */
  method Validate(tree: KdTree.KdTree, brute: BruteForceSearch, q: Request, kind: Kind)
    returns (r: Result<seq<seq<Entry>>, KnnError>, s: Result<seq<seq<Entry>>, KnnError>)
    requires tree.Valid() && brute.cloud == tree.cloud && brute.dim == tree.dim
    requires q.WellShaped() && q.SortResults() && q.epsilon >= 0.0
    ensures r.Err? || s.Err? ==> r == s
    ensures r.Ok? && s.Ok? ==> |r.value| == |q.queries| && DistancesWithin(r.value, s.value, q.k, Sq(1.0 + q.epsilon))
    ensures r.Ok? && s.Ok? && q.epsilon == 0.0 ==> SameDistances(r.value, s.value, q.k)
  {
    hide Answers, AllSorted, DistancesWithin, SameDistances, Sq;
    r := tree.Knn(q, kind);
    s := brute.Knn(q);
    if r.Ok? {
      ErrorFactor(q.epsilon);
      AnswerWithin(r.value, s.value, q, AllEntries(tree.cloud), tree.dim, Sq(1.0 + q.epsilon));
      AnswerHasAll(r.value, q, AllEntries(tree.cloud), tree.dim, Sq(1.0 + q.epsilon));
      if q.epsilon == 0.0 {
        ExactAnswersAgree(r.value, s.value, q, AllEntries(tree.cloud), tree.dim);
      }
    }
  }

  lemma AnswerHasAll(r: seq<seq<Entry>>, q: Request, bs: seq<BucketEntry>, dim: nat, c2: real)
    requires Answers(r, q, bs, dim, c2)
    ensures |r| == |q.queries|
  {
  }

  lemma ErrorFactor(e: real)
    requires e >= 0.0
    ensures Sq(1.0 + e) >= 1.0 && Sq(1.0) == 1.0
  {
    assert Sq(1.0 + e) == 1.0 + 2.0 * e + e * e;
    assert e * e >= 0.0;
  }
}
