/** The two heaps that collect answers: IndexHeapSTL over the standard heap
    algorithms, and IndexHeapBruteForceVector, a sorted vector. */
module StdHeap {
  import opened Neighbours

  function Parent(i: nat): (p: nat)
    requires i > 0
    ensures p < i
  {
    (i - 1) / 2
  }

  /** Max-heap order on the first n cells. */
  ghost predicate IsHeap(s: seq<Entry>, n: nat) {
    n <= |s| && forall j :: 1 <= j < n ==> s[j].value.AtMost(s[Parent(j)].value)
  }

  lemma {:induction false} FrontIsWorst(s: seq<Entry>, n: nat, i: nat)
    requires IsHeap(s, n) && i < n
    ensures s[i].value.AtMost(s[0].value)
  {
    if i > 0 {
      FrontIsWorst(s, n, Parent(i));
    }
  }

  lemma HeapFrame(s: seq<Entry>, t: seq<Entry>, n: nat)
    requires IsHeap(s, n) && |s| == |t| && forall i :: 0 <= i < n ==> s[i] == t[i]
    ensures IsHeap(t, n)
  {
  }

  lemma FrontIsWorstOf(s: seq<Entry>, n: nat)
    requires IsHeap(s, n) && 0 < n
    ensures IsWorst(s[0], multiset(s[..n]))
  {
    assert s[..n][0] == s[0];
    forall h | h in multiset(s[..n])
      ensures h.value.AtMost(s[0].value)
    {
      var i :| 0 <= i < n && s[..n][i] == h;
      FrontIsWorst(s, n, i);
    }
  }

  method Swap(a: array<Entry>, i: nat, j: nat, ghost n: nat)
    requires i < n <= a.Length && j < n
    modifies a
    ensures a[..] == old(a[..])[i := old(a[j])][j := old(a[i])]
    ensures multiset(a[..n]) == old(multiset(a[..n]))
  {
    a[i], a[j] := a[j], a[i];
    assert a[..n] == old(a[..n])[i := old(a[j])][j := old(a[i])];
  }

  /** Heap order everywhere except between i and its parent. */
  ghost predicate HeapButUp(s: seq<Entry>, n: nat, i: nat) {
    && i < n <= |s|
    && (forall j :: 1 <= j < n && j != i ==> s[j].value.AtMost(s[Parent(j)].value))
    && (forall j :: 1 <= j < n && Parent(j) == i && i > 0 ==> s[j].value.AtMost(s[Parent(i)].value))
  }

  /** std::push_heap: the last of n cells joins the heap of the others. */
  method PushHeap(a: array<Entry>, n: nat)
    requires 0 < n <= a.Length && IsHeap(a[..], n - 1)
    modifies a
    ensures IsHeap(a[..], n)
    ensures multiset(a[..n]) == old(multiset(a[..n])) && a[n..] == old(a[n..])
  {
    var i: nat := n - 1;
    while i > 0 && a[Parent(i)].value.Less(a[i].value)
      invariant HeapButUp(a[..], n, i)
      invariant multiset(a[..n]) == old(multiset(a[..n])) && a[n..] == old(a[n..])
    {
      Swap(a, i, Parent(i), n);
      i := Parent(i);
    }
  }

  /** Heap order everywhere except between i and its children. */
  ghost predicate HeapButDown(s: seq<Entry>, n: nat, i: nat) {
    && n <= |s|
    && (forall j :: 1 <= j < n && Parent(j) != i ==> s[j].value.AtMost(s[Parent(j)].value))
    && (forall j :: 1 <= j < n && Parent(j) == i && 0 < i < n ==> s[j].value.AtMost(s[Parent(i)].value))
  }

  ghost predicate IsLargerChild(s: seq<Entry>, n: nat, i: nat, c: nat) {
    && 1 <= c < n <= |s| && Parent(c) == i
    && forall j :: 1 <= j < n && Parent(j) == i ==> s[j].value.AtMost(s[c].value)
  }

  lemma DownStep(s: seq<Entry>, n: nat, i: nat, c: nat)
    requires HeapButDown(s, n, i) && IsLargerChild(s, n, i, c) && s[i].value.Less(s[c].value)
    ensures HeapButDown(s[i := s[c]][c := s[i]], n, c)
  {
    var t := s[i := s[c]][c := s[i]];
    forall j | 1 <= j < n && Parent(j) != c
      ensures t[j].value.AtMost(t[Parent(j)].value)
    {
      assert s[j].value.AtMost(s[c].value) || Parent(j) != i;
    }
  }

  method LargerChild(a: array<Entry>, n: nat, i: nat) returns (c: nat)
    requires 2 * i + 1 < n <= a.Length
    ensures IsLargerChild(a[..], n, i, c)
  {
    c := 2 * i + 1;
    if c + 1 < n && a[c].value.Less(a[c + 1].value) {
      c := c + 1;
    }
  }

  /** Sinks the root of n cells to where it restores heap order. */
  method SiftDown(a: array<Entry>, n: nat)
    requires n <= a.Length && HeapButDown(a[..], n, 0)
    modifies a
    ensures IsHeap(a[..], n)
    ensures multiset(a[..n]) == old(multiset(a[..n])) && a[n..] == old(a[n..])
  {
    var i: nat := 0;
    while 2 * i + 1 < n
      invariant HeapButDown(a[..], n, i)
      invariant multiset(a[..n]) == old(multiset(a[..n])) && a[n..] == old(a[n..])
      decreases n - i
    {
      var c := LargerChild(a, n, i);
      if !a[i].value.Less(a[c].value) {
        return;
      }
      DownStep(a[..], n, i, c);
      Swap(a, i, c, n);
      i := c;
    }
  }

  /** std::pop_heap: the front moves to the last of n cells, the others form a heap. */
  method PopHeap(a: array<Entry>, n: nat)
    requires 0 < n <= a.Length && IsHeap(a[..], n)
    modifies a
    ensures IsHeap(a[..], n - 1) && a[n - 1] == old(a[0])
    ensures multiset(a[..n]) == old(multiset(a[..n])) && a[n..] == old(a[n..])
  {
    Swap(a, 0, n - 1, n);
    ghost var s := a[..];
    SiftDown(a, n - 1);
    assert a[n - 1] == a[n - 1..][0];
    assert a[n..] == a[n - 1..][1..];
    assert a[..n] == a[..n - 1] + [a[n - 1]] && s[..n] == s[..n - 1] + [s[n - 1]];
  }

  /** std::sort_heap: ascending order. */
  method SortHeap(a: array<Entry>, n: nat)
    requires n <= a.Length && IsHeap(a[..], n)
    modifies a
    ensures Sorted(a[..n])
    ensures multiset(a[..n]) == old(multiset(a[..n])) && a[n..] == old(a[n..])
  {
    var m: nat := n;
    while m > 0
      invariant m <= n && IsHeap(a[..], m) && Sorted(a[m..n])
      invariant forall i, j :: 0 <= i < m <= j < n ==> a[i].value.AtMost(a[j].value)
      invariant multiset(a[..n]) == old(multiset(a[..n])) && a[n..] == old(a[n..])
    {
      ghost var s := a[..];
      PopHeap(a, m);
      SortStep(s, a[..], m, n);
      m := m - 1;
    }
  }

  lemma SortStep(s: seq<Entry>, t: seq<Entry>, m: nat, n: nat)
    requires 0 < m <= n <= |s| == |t| && IsHeap(s, m) && Sorted(s[m..n])
    requires forall i, j :: 0 <= i < m <= j < n ==> s[i].value.AtMost(s[j].value)
    requires multiset(t[..m]) == multiset(s[..m]) && t[m..] == s[m..] && t[m - 1] == s[0]
    ensures Sorted(t[m - 1..n]) && multiset(t[..n]) == multiset(s[..n])
    ensures forall i, j :: 0 <= i < m - 1 <= j < n ==> t[i].value.AtMost(t[j].value)
  {
    SamePrefix(s, t, m, n);
    forall i | 0 <= i < m
      ensures t[i].value.AtMost(s[0].value) && exists k :: 0 <= k < m && t[i] == s[k]
    {
      assert t[..m][i] in multiset(s[..m]);
      var k :| 0 <= k < m && s[..m][k] == t[i];
      FrontIsWorst(s, m, k);
    }
    hide IsHeap;
    assert t[m - 1..n] == [s[0]] + s[m..n];
  }

  lemma SamePrefix(s: seq<Entry>, t: seq<Entry>, m: nat, n: nat)
    requires m <= n <= |s| == |t| && multiset(t[..m]) == multiset(s[..m]) && t[m..] == s[m..]
    ensures multiset(t[..n]) == multiset(s[..n]) && forall j :: m <= j < n ==> t[j] == s[j]
  {
    assert t[..n] == t[..m] + t[m..][..n - m] && s[..n] == s[..m] + s[m..][..n - m];
    forall j | m <= j < n
      ensures t[j] == s[j]
    {
      assert t[m..][j - m] == s[m..][j - m];
    }
  }
}

module IndexHeap {
  import opened Neighbours
  import StdHeap

  /** The heap a search is instantiated with: IndexHeapSTL or IndexHeapBruteForceVector. */
  datatype Kind = TreeHeap | LinearHeap

  /** n empty slots. */
  function Pads(n: nat): multiset<Entry> {
    multiset{}[PAD := n]
  }

  class Heap {
    const kind: Kind
    /** Storage for k slots, of which the first size are in use. */
    const data: array<Entry>
    var size: nat

    ghost predicate Valid()
      reads this, data
    {
      && 0 < data.Length
      && size <= data.Length && EmptyIsPad(data[..size])
      && match kind
         case TreeHeap =>
           0 < size && StdHeap.IsHeap(data[..], size) && (size < data.Length ==> PAD in multiset(data[..size]))
         case LinearHeap => size == data.Length && Sorted(data[..])
    }

    /** All that a reset needs: sorting breaks the heap order. */
    ghost predicate Usable()
      reads this
    {
      0 < data.Length && size <= data.Length && (kind.LinearHeap? ==> size == data.Length)
    }

    /** The k slots of the answer, filled up with empty ones. */
    ghost function Held(): multiset<Entry>
      reads this, data
      requires Valid()
    {
      multiset(data[..size]) + Pads(data.Length - size)
    }

    /** The position of the largest value. */
    function Head(): (i: nat)
      reads this, data
      requires Valid()
      ensures i < size <= data.Length
    {
      if kind.TreeHeap? then 0 else size - 1
    }

    function HeadValue(): Dist
      reads this, data
      requires Valid()
    {
      data[Head()].value
    }

    constructor (kind: Kind, k: nat)
      requires k > 0
      ensures Valid() && Usable() && fresh(data) && data.Length == k && this.kind == kind
      ensures Held() == Pads(k)
    {
      this.kind := kind;
      data := new Entry[k](_ => PAD);
      size := if kind.TreeHeap? then 1 else k;
      new;
      PadsOnly(data[..size]);
    }

    method Reset()
      requires Usable()
      modifies this, data
      ensures Valid() && Held() == Pads(data.Length)
    {
      if kind.TreeHeap? {
        size := 1;
        data[0] := PAD;
      } else {
        for i := 0 to data.Length
          invariant size == data.Length && forall j :: 0 <= j < i ==> data[j] == PAD
        {
          data[i] := PAD;
        }
      }
      PadsOnly(data[..size]);
    }

    static lemma {:induction false} PadsOnly(s: seq<Entry>)
      requires forall i :: 0 <= i < |s| ==> s[i] == PAD
      ensures multiset(s) == Pads(|s|)
    {
      if s != [] {
        var n := |s| - 1;
        PadsOnly(s[..n]);
        assert s == s[..n] + [s[n]];
      }
    }

    /** The head is a worst slot: no slot is empty, or the head is empty. */
    lemma HeadIsWorst()
      requires Valid()
      ensures IsWorst(data[Head()], Held())
    {
      if kind.TreeHeap? {
        StdHeap.FrontIsWorstOf(data[..], size);
      } else {
        forall h | h in multiset(data[..])
          ensures h.value.AtMost(data[size - 1].value)
        {
          var i :| 0 <= i < |data[..]| && data[..][i] == h;
        }
        assert data[..size] == data[..];
        assert data[..][size - 1] in multiset(data[..]);
      }
    }

    /** Puts an entry closer than the head into the heap, in place of a worst slot. */
    method ReplaceHead(index: int, value: real)
      requires Valid() && Fin(value).Less(HeadValue())
      modifies this, data
      ensures Valid() && Held() == old(Held()) - multiset{old(data[Head()])} + multiset{Entry(index, Fin(value))}
      ensures HeadValue().AtMost(old(HeadValue()))
    {
      HeadIsWorst();
      if kind.TreeHeap? {
        ReplaceHeadTree(Entry(index, Fin(value)));
      } else {
        ReplaceHeadLinear(Entry(index, Fin(value)));
      }
      HeadIsWorst();
    }

    /** Offers one candidate: it is kept if it is closer than the head. */
    method Offer(index: int, value: real, ghost offered: multiset<Entry>)
      requires Valid() && KBest(Held(), data.Length, offered)
      modifies this, data
      ensures Valid() && KBest(Held(), data.Length, offered + multiset{Entry(index, Fin(value))})
      ensures HeadValue().AtMost(old(HeadValue()))
    {
      HeadIsWorst();
      ghost var e := Entry(index, Fin(value));
      if Fin(value).Less(HeadValue()) {
        KBestReplace(Held(), data.Length, offered, data[Head()], e);
        ReplaceHead(index, value);
      } else {
        KBestSkip(Held(), data.Length, offered, data[Head()], multiset{e});
      }
    }

    static lemma PadsStep(m: multiset<Entry>, n: nat, e: Entry)
      requires n > 0
      ensures m + multiset{e} + Pads(n - 1) == m + Pads(n) - multiset{PAD} + multiset{e}
    {
      assert Pads(n) == Pads(n - 1) + multiset{PAD};
    }

    static lemma ReplaceLast(s: seq<Entry>, t: seq<Entry>, e: Entry)
      requires s != [] && |t| == |s| && t[..|s| - 1] == s[..|s| - 1] && t[|s| - 1] == e
      ensures multiset(t) == multiset(s) - multiset{s[|s| - 1]} + multiset{e}
    {
      assert s == s[..|s| - 1] + [s[|s| - 1]] && t == s[..|s| - 1] + [e];
    }

    static ghost predicate EmptyIsPad(s: seq<Entry>) {
      forall i :: 0 <= i < |s| && s[i].value.Inf? ==> s[i] == PAD
    }

    static lemma EmptyIsPadKept(s: seq<Entry>, t: seq<Entry>, e: Entry)
      requires EmptyIsPad(s) && e.value.Fin?
      requires forall x :: x in multiset(t) ==> x == e || x in multiset(s)
      ensures EmptyIsPad(t)
    {
      forall i | 0 <= i < |t| && t[i].value.Inf?
        ensures t[i] == PAD
      {
        assert t[i] in multiset(t) && t[i] in multiset(s);
      }
    }

    method ReplaceHeadTree(e: Entry)
      requires Valid() && kind.TreeHeap? && e.value.Fin? && e.value.Less(HeadValue())
      modifies this, data
      ensures Valid() && Held() == old(Held()) - multiset{old(data[0])} + multiset{e}
    {
      if size == data.Length {
        ReplaceFront(e);
      } else {
        Append(e);
      }
    }

    lemma HeldFull()
      requires Valid() && size == data.Length
      ensures Held() == multiset(data[..])
    {
      assert data[..size] == data[..];
    }

    method ReplaceFront(e: Entry)
      requires Valid() && kind.TreeHeap? && e.value.Fin? && size == data.Length
      modifies data
      ensures Valid() && Held() == old(Held()) - multiset{old(data[0])} + multiset{e}
    {
      hide StdHeap.IsHeap, Sorted, EmptyIsPad;
      HeldFull();
      ghost var s := data[..];
      PopAndPut(data, e);
      ghost var t := data[..];
      StdHeap.PushHeap(data, size);
      assert s[..size] == s && t[..size] == t && data[..size] == data[..];
      EmptyIsPadKept(s, data[..], e);
      HeldFull();
    }

    /** Takes the front out of a full heap and puts e at the end. */
    static method PopAndPut(a: array<Entry>, e: Entry)
      requires 0 < a.Length && StdHeap.IsHeap(a[..], a.Length)
      modifies a
      ensures StdHeap.IsHeap(a[..], a.Length - 1)
      ensures multiset(a[..]) == old(multiset(a[..]) - multiset{a[0]}) + multiset{e}
    {
      hide StdHeap.IsHeap;
      var n := a.Length;
      ghost var s := a[..];
      StdHeap.PopHeap(a, n);
      ghost var t := a[..];
      assert s[..n] == s && t[..n] == t;
      a[n - 1] := e;
      StdHeap.HeapFrame(t, a[..], n - 1);
      ReplaceLast(t, a[..], e);
    }

    method Append(e: Entry)
      requires Valid() && kind.TreeHeap? && e.value.Fin? && size < data.Length
      modifies this, data
      ensures Valid() && Held() == old(Held()) - multiset{old(data[0])} + multiset{e}
    {
      ghost var s := data[..size];
      StdHeap.FrontIsWorstOf(data[..], size);
      assert data[0] == PAD;
      data[size] := e;
      size := size + 1;
      assert data[..size] == s + [e];
      StdHeap.PushHeap(data, size);
      EmptyIsPadKept(s, data[..size], e);
      PadsStep(multiset(s), data.Length - |s|, e);
    }

    /** t is s with e put in at i, the cells from i on moved up by one and the last one lost. */
    static ghost predicate ShiftedIn(s: seq<Entry>, t: seq<Entry>, i: nat, e: Entry) {
      && i < |s| == |t| && t[i] == e
      && (forall j :: 0 <= j < i ==> t[j] == s[j])
      && (forall j :: i < j < |s| ==> t[j] == s[j - 1])
      && (i > 0 ==> s[i - 1].value.AtMost(e.value))
      && (i < |s| - 1 ==> e.value.Less(s[i].value))
    }

    static lemma WithoutLast(s: seq<Entry>)
      requires s != []
      ensures multiset(s) - multiset{s[|s| - 1]} == multiset(s[..|s| - 1])
      ensures forall x :: x in multiset(s[..|s| - 1]) ==> x in multiset(s)
    {
      assert s == s[..|s| - 1] + [s[|s| - 1]];
    }

    static lemma {:induction false} ShiftedInKeeps(s: seq<Entry>, t: seq<Entry>, i: nat, e: Entry)
      requires ShiftedIn(s, t, i, e)
      ensures multiset(t) == multiset(s[..|s| - 1]) + multiset{e}
    {
      var n := |s| - 1;
      assert t == t[..n] + [t[n]];
      if i == n {
        assert t[..n] == s[..n];
      } else {
        ShiftedInKeeps(s[..n], t[..n], i, e);
        assert s[..n] == s[..n][..n - 1] + [s[n - 1]];
      }
    }

    static lemma ShiftedInSorted(s: seq<Entry>, t: seq<Entry>, i: nat, e: Entry)
      requires ShiftedIn(s, t, i, e) && Sorted(s)
      ensures Sorted(t)
    {
      forall j, k | 0 <= j < k < |t|
        ensures t[j].value.AtMost(t[k].value)
      {
        assert j < i ==> s[j].value.AtMost(s[i - 1].value) || j == i - 1;
        assert k > i + 1 ==> s[i].value.AtMost(s[k - 1].value);
      }
    }

    static lemma ShiftedInResult(s: seq<Entry>, t: seq<Entry>, i: nat, e: Entry)
      requires ShiftedIn(s, t, i, e) && Sorted(s) && EmptyIsPad(s) && e.value.Fin?
      ensures multiset(t) == multiset(s) - multiset{s[|s| - 1]} + multiset{e} && Sorted(t) && EmptyIsPad(t)
    {
      ShiftedInKeeps(s, t, i, e);
      WithoutLast(s);
      ShiftedInSorted(s, t, i, e);
      hide ShiftedIn, Sorted;
      EmptyIsPadKept(s, t, e);
    }

    /** Shifts larger entries up by one cell and puts e into the gap. */
    method ShiftIn(e: Entry) returns (ghost i: nat)
      requires data.Length > 0
      modifies data
      ensures ShiftedIn(old(data[..]), data[..], i, e)
    {
      var j: nat := data.Length - 1;
      while j > 0 && e.value.Less(data[j - 1].value)
        invariant 0 <= j < data.Length
        invariant forall n :: 0 <= n < j ==> data[n] == old(data[n])
        invariant forall n :: j < n < data.Length ==> data[n] == old(data[n - 1])
        invariant j < data.Length - 1 ==> e.value.Less(old(data[j]).value)
      {
        data[j] := data[j - 1];
        j := j - 1;
      }
      data[j] := e;
      i := j;
    }

    method ReplaceHeadLinear(e: Entry)
      requires Valid() && kind.LinearHeap? && e.value.Fin?
      modifies data
      ensures Valid() && Held() == old(Held()) - multiset{old(data[size - 1])} + multiset{e}
    {
      hide EmptyIsPad, Sorted, ShiftedIn, Held;
      HeldFull();
      ghost var s := data[..];
      ghost var i := ShiftIn(e);
      ghost var t := data[..];
      assert s[..size] == s && t[..size] == t;
      ShiftedInResult(s, t, i, e);
      HeldFull();
    }

    /** Orders the slots from the smallest to the largest distance. */
    method Sort()
      requires Valid()
      modifies data
      ensures Sorted(data[..size]) && multiset(data[..size]) == old(multiset(data[..size]))
      ensures EmptyIsPad(data[..size])
    {
      assert kind.LinearHeap? ==> data[..size] == data[..];
      if kind.TreeHeap? {
        ghost var s := data[..size];
        StdHeap.SortHeap(data, size);
        EmptyIsPadKept(s, data[..size], Entry(0, Fin(0.0)));
      }
    }

    /** Copies the k slots out, filled up with empty ones. */
    method GetData() returns (r: seq<Entry>)
      requires size <= data.Length
      ensures |r| == data.Length && multiset(r) == multiset(data[..size]) + Pads(data.Length - size)
      ensures Sorted(data[..size]) ==> Sorted(r)
    {
      r := [];
      for i := 0 to size
        invariant r == data[..i]
      {
        r := r + [data[i]];
      }
      ghost var s := r;
      for i := size to data.Length
        invariant |r| == i && r[..size] == s && multiset(r) == multiset(s) + Pads(i - size)
        invariant forall j :: size <= j < i ==> r[j] == PAD
      {
        r := r + [PAD];
      }
      assert forall j :: 0 <= j < size ==> r[j] == r[..size][j] == s[j];
    }

    /** The end of a query: sorts the slots if asked to and copies them out. */
    method Results(sortResults: bool) returns (r: seq<Entry>)
      requires Valid()
      modifies data
      ensures Usable() && |r| == data.Length && multiset(r) == old(Held())
      ensures forall h :: h in multiset(r) ==> h.value.AtMost(old(HeadValue()))
      ensures sortResults || kind.LinearHeap? ==> Sorted(r)
    {
      HeadIsWorst();
      assert kind.LinearHeap? ==> data[..size] == data[..];
      if sortResults {
        Sort();
      }
      r := GetData();
    }
  }
}
