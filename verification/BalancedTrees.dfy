/** The balanced kd-trees of libnabo's experiments: a tree in an array with the children of slot p at
    2p + 1 and 2p + 2, with the points in all nodes or in the leaves only. The number of points fixes the
    shape; the sorting or selecting of the standard library and the choice of the cut dimension are parameters. */
module BalancedTrees {
  import opened Bits

  datatype Slot = Empty | Inner(index: nat, cutDim: nat) | Cut(cutDim: nat, cutVal: real) | Leaf(index: nat) | Invalid

  function ChildLeft(pos: nat): nat {
    2 * pos + 1
  }

  function ChildRight(pos: nat): nat {
    2 * pos + 2
  }

  function BitLength(n: nat): (b: nat)
    ensures n < Pow2(b) && (b > 0 ==> Pow2(b - 1) <= n) && (b == 0 <==> n == 0)
  {
    if n == 0 then 0 else 1 + BitLength(n / 2)
  }

  lemma {:induction false} BitLengthMonotone(a: nat, b: nat)
    requires a <= b
    ensures BitLength(a) <= BitLength(b)
  {
    if a > 0 {
      BitLengthMonotone(a / 2, b / 2);
    }
  }

  lemma TopBit(x: nat, m: nat)
    requires m > 0 && x < 2 * m
    ensures (x / m) % 2 == 1 <==> x >= m
  {
    if x >= m {
      DivMod(x, m, 1, x - m);
    } else {
      DivMod(x, m, 0, x);
    }
  }

  lemma BitStep(x: nat, i: nat)
    requires x < Pow2(i + 1)
    ensures if And(x, Pow2(i)) == 0 then x < Pow2(i) else x >= Pow2(i)
  {
    hide And;
    BitTest(x, i);
    TopBit(x, Pow2(i));
  }

  lemma OneMoreOne(count: nat, j: nat)
    requires count == Pow2(j) - 1
    ensures Or(count, Pow2(j)) == Pow2(j + 1) - 1
  {
    OrDisjoint(count, 1, j);
    assert 1 * Pow2(j) == Pow2(j);
  }

  /** The loops that both getTreeSize functions share: one bit for every bit of elCount. */
  method OnesUpTo(elCount: nat) returns (count: nat)
    requires elCount < Pow2(31)
    ensures count == Pow2(BitLength(elCount)) - 1
  {
    hide And, Or, BitLength;
    Pow2Mono(31, 32);
    var i := 31;
    while i >= 0 && And(elCount, Pow2(i)) == 0
      invariant -1 <= i <= 31 && elCount < Pow2(i + 1)
    {
      BitStep(elCount, i);
      i := i - 1;
    }
    if i >= 0 {
      BitStep(elCount, i);
    }
    LengthIs(elCount, i + 1);
    assert Pow2(0) == 1;
    hide Pow2;
    count := 0;
    for j := 0 to i + 1
      invariant count == Pow2(j) - 1
    {
      OneMoreOne(count, j);
      count := Or(count, Pow2(j));
    }
  }

  lemma LengthIs(n: nat, b: nat)
    requires n < Pow2(b) && (b > 0 ==> Pow2(b - 1) <= n)
    ensures BitLength(n) == b
  {
    var c := BitLength(n);
    if c < b {
      Pow2Mono(c, b - 1);
      assert false;
    } else if b < c {
      Pow2Mono(b, c - 1);
      assert false;
    }
  }

  method GetTreeSizeInNodes(elCount: nat) returns (count: nat)
    requires elCount < Pow2(31)
    ensures count == Pow2(BitLength(elCount)) - 1
  {
    count := OnesUpTo(elCount);
  }

  method GetTreeSizeInLeaves(elCount: nat) returns (count: nat)
    requires 0 < elCount < Pow2(31)
    ensures count == Pow2(BitLength(elCount - 1) + 1) - 1
  {
    hide And, Or, BitLength;
    count := OnesUpTo(elCount - 1);
    OrOne(2 * count);
    count := Or(2 * count, 1);
  }

  lemma OrOne(a: nat)
    requires a % 2 == 0
    ensures Or(a, 1) == a + 1
  {
    if a > 0 {
      assert Or(a / 2, 0) == a / 2;
    }
  }

  /** p is pos or one of its descendants. */
  predicate Under(pos: nat, p: nat)
    decreases p
  {
    p == pos || (p > pos && p > 0 && Under(pos, (p - 1) / 2))
  }

  lemma {:induction false} UnderChild(pos: nat, p: nat)
    ensures Under(ChildLeft(pos), p) ==> Under(pos, p) && p > pos
    ensures Under(ChildRight(pos), p) ==> Under(pos, p) && p > pos
    ensures !(Under(ChildLeft(pos), p) && Under(ChildRight(pos), p))
    decreases p
  {
    if p > 0 {
      UnderChild(pos, (p - 1) / 2);
    }
    if p == ChildLeft(pos) || p == ChildRight(pos) {
      assert (p - 1) / 2 == pos;
    }
  }

  lemma UnderChildren(pos: nat)
    ensures forall p: nat :: Under(ChildLeft(pos), p) ==> Under(pos, p) && p > pos && !Under(ChildRight(pos), p)
    ensures forall p: nat :: Under(ChildRight(pos), p) ==> Under(pos, p) && p > pos && !Under(ChildLeft(pos), p)
    ensures Under(pos, ChildLeft(pos)) && Under(pos, ChildRight(pos))
  {
    forall p: nat
      ensures Under(ChildLeft(pos), p) ==> Under(pos, p) && p > pos && !Under(ChildRight(pos), p)
      ensures Under(ChildRight(pos), p) ==> Under(pos, p) && p > pos && !Under(ChildLeft(pos), p)
    {
      UnderChild(pos, p);
    }
    UnderChild(pos, ChildLeft(pos));
    UnderChild(pos, ChildRight(pos));
  }

  function Own(s: Slot): multiset<nat> {
    if s.Inner? || s.Leaf? then multiset{s.index} else multiset{}
  }

  /** The points stored in the subtree at pos. */
  function PointsAt(nodes: seq<Slot>, pos: nat): multiset<nat>
    decreases |nodes| - pos
  {
    if pos >= |nodes| then multiset{}
    else Own(nodes[pos]) + PointsAt(nodes, ChildLeft(pos)) + PointsAt(nodes, ChildRight(pos))
  }

  /** A point's coordinate in a dimension. */
  type Coords = (nat, nat) -> real

  ghost predicate AtMost(points: multiset<nat>, coord: Coords, d: nat, val: real) {
    forall x :: x in points ==> coord(x, d) <= val
  }

  ghost predicate AtLeast(points: multiset<nat>, coord: Coords, d: nat, val: real) {
    forall x :: x in points ==> val <= coord(x, d)
  }

  /** Where a slot cuts: at its point, or at its value. */
  function CutValue(s: Slot, coord: Coords): real {
    match s
    case Inner(index, cutDim) => coord(index, cutDim)
    case Cut(_, cutVal) => cutVal
    case _ => 0.0
  }

  /** A slot with children has as many points on the left as on the right, or one more; a cut is at a point of
      its right side. No other slot has points below it. */
  ghost predicate Separates(s: Slot, coord: Coords, left: multiset<nat>, right: multiset<nat>) {
    if s.Inner? || s.Cut? then
      && AtMost(left, coord, s.cutDim, CutValue(s, coord)) && AtLeast(right, coord, s.cutDim, CutValue(s, coord))
      && |right| <= |left| <= |right| + 1
      && (s.Cut? ==> exists x :: x in right && coord(x, s.cutDim) == s.cutVal)
    else left == right == multiset{}
  }

  /** Below pos every slot with children halves its points: those up to its cut are on the left, the others on
      the right. */
  ghost predicate InOrder(nodes: seq<Slot>, pos: nat, coord: Coords)
    decreases |nodes| - pos
  {
    pos < |nodes| ==>
      && Separates(nodes[pos], coord, PointsAt(nodes, ChildLeft(pos)), PointsAt(nodes, ChildRight(pos)))
      && InOrder(nodes, ChildLeft(pos), coord) && InOrder(nodes, ChildRight(pos), coord)
  }

  lemma {:induction false} OrderFrame(a: seq<Slot>, b: seq<Slot>, pos: nat, coord: Coords)
    requires |a| == |b| && (forall p: nat :: p < |a| && Under(pos, p) ==> a[p] == b[p]) && InOrder(a, pos, coord)
    ensures InOrder(b, pos, coord)
    decreases |a| - pos
  {
    if pos < |a| {
      UnderChildren(pos);
      PointsFrame(a, b, ChildLeft(pos));
      PointsFrame(a, b, ChildRight(pos));
      hide Separates;
      OrderFrame(a, b, ChildLeft(pos), coord);
      OrderFrame(a, b, ChildRight(pos), coord);
    }
  }

  lemma {:induction false} NothingInOrder(a: seq<Slot>, pos: nat, coord: Coords)
    requires forall p: nat :: p < |a| && Under(pos, p) ==> a[p] == Empty
    ensures InOrder(a, pos, coord)
    decreases |a| - pos
  {
    if pos < |a| {
      UnderChildren(pos);
      assert Under(pos, pos);
      NoPoints(a, ChildLeft(pos));
      NoPoints(a, ChildRight(pos));
      NothingInOrder(a, ChildLeft(pos), coord);
      NothingInOrder(a, ChildRight(pos), coord);
    }
  }

  lemma {:induction false} PointsFrame(a: seq<Slot>, b: seq<Slot>, pos: nat)
    requires |a| == |b| && forall p: nat :: p < |a| && Under(pos, p) ==> a[p] == b[p]
    ensures PointsAt(a, pos) == PointsAt(b, pos)
    decreases |a| - pos
  {
    if pos < |a| {
      UnderChildren(pos);
      PointsFrame(a, b, ChildLeft(pos));
      PointsFrame(a, b, ChildRight(pos));
    }
  }

  lemma {:induction false} NoPoints(a: seq<Slot>, pos: nat)
    requires forall p: nat :: p < |a| && Under(pos, p) ==> a[p] == Empty
    ensures PointsAt(a, pos) == multiset{}
    decreases |a| - pos
  {
    if pos < |a| {
      UnderChildren(pos);
      NoPoints(a, ChildLeft(pos));
      NoPoints(a, ChildRight(pos));
    }
  }

  ghost predicate EmptyUnder(nodes: seq<Slot>, pos: nat) {
    forall p: nat :: p < |nodes| && Under(pos, p) ==> nodes[p] == Empty
  }

  /** Only slots of the subtree at pos differ. */
  ghost predicate OnlyUnder(a: seq<Slot>, b: seq<Slot>, pos: nat) {
    |a| == |b| && forall p: nat :: p < |a| && !Under(pos, p) ==> b[p] == a[p]
  }

  /** A tree of that many levels at pos fits into the array. */
  predicate Room(slots: nat, pos: nat, levels: nat) {
    levels > 0 && (pos + 2) * Pow2(levels - 1) <= slots + 1
  }

  lemma RoomBelow(slots: nat, pos: nat, levels: nat, below: nat)
    requires Room(slots, pos, levels)
    ensures pos < slots
    ensures 0 < below < levels ==> Room(slots, ChildLeft(pos), below) && Room(slots, ChildRight(pos), below)
  {
    var m := Pow2(levels - 1);
    assert (pos + 2) * m >= pos + 2 by {
      Grows(pos + 2, m);
    }
    if 0 < below < levels {
      Pow2Mono(below - 1, levels - 2);
      var k, l := Pow2(below - 1), Pow2(levels - 2);
      assert m == 2 * l;
      Scaled(2 * pos + 4, k, l);
      assert (2 * pos + 4) * l == (pos + 2) * m;
      assert (2 * pos + 3) * k + k == (2 * pos + 4) * k;
    }
  }

  lemma Grows(a: nat, m: nat)
    requires m > 0
    ensures a * m >= a
  {
    var d: nat := m - 1;
    assert a * d >= 0 && a * m == a + a * d;
  }

  lemma Scaled(a: nat, k: nat, l: nat)
    requires k <= l
    ensures a * k <= a * l
  {
    var d: nat := l - k;
    assert a * d >= 0 && a * l == a * k + a * d;
  }

  /** A slot is written once: it must be empty before. */
  method Put(nodes: array<Slot>, pos: nat, s: Slot)
    requires pos < nodes.Length && nodes[pos] == Empty && s != Empty
    modifies nodes
    ensures nodes[..] == old(nodes[..])[pos := s]
  {
    nodes[pos] := s;
  }

  /** std::sort by the coordinate in a dimension. */
  ghost predicate Sorts(sort: (seq<nat>, nat) -> seq<nat>, coord: Coords) {
    forall s: seq<nat>, d: nat ::
      multiset(sort(s, d)) == multiset(s) && |sort(s, d)| == |s| && Ascending(sort(s, d), coord, d)
  }

  ghost predicate Ascending(s: seq<nat>, coord: Coords, d: nat) {
    forall i, j :: 0 <= i <= j < |s| ==> coord(s[i], d) <= coord(s[j], d)
  }

  /** std::nth_element by the coordinate in a dimension. */
  ghost predicate Selects(select: (seq<nat>, nat, nat) -> seq<nat>, coord: Coords) {
    forall s: seq<nat>, k: nat, d: nat :: k < |s| ==>
      multiset(select(s, k, d)) == multiset(s) && |select(s, k, d)| == |s| && Around(select(s, k, d), coord, d, k)
  }

  ghost predicate Around(s: seq<nat>, coord: Coords, d: nat, k: nat) {
    k < |s| && forall i :: 0 <= i < |s| ==>
      if i < k then coord(s[i], d) <= coord(s[k], d) else coord(s[k], d) <= coord(s[i], d)
  }

  lemma AscendingAround(s: seq<nat>, coord: Coords, d: nat, k: nat)
    requires Ascending(s, coord, d) && k < |s|
    ensures Around(s, coord, d, k)
  {
  }

  /** Both sides of an element are on their side of its coordinate. */
  lemma AroundSides(s: seq<nat>, coord: Coords, d: nat, k: nat)
    requires Around(s, coord, d, k)
    ensures AtMost(multiset(s[..k]), coord, d, coord(s[k], d))
    ensures AtLeast(multiset(s[k..]), coord, d, coord(s[k], d))
    ensures AtLeast(multiset(s[k + 1..]), coord, d, coord(s[k], d))
  {
  }

  /** A node and two subtrees, built one after the other. */
  lemma Assembled(a: seq<Slot>, b: seq<Slot>, c: seq<Slot>, d: seq<Slot>, pos: nat, s: Slot, left: multiset<nat>,
      right: multiset<nat>, coord: Coords)
    requires pos < |a| && EmptyUnder(a, pos) && b == a[pos := s]
    requires OnlyUnder(b, c, ChildLeft(pos)) && OnlyUnder(c, d, ChildRight(pos))
    requires PointsAt(c, ChildLeft(pos)) == left && PointsAt(d, ChildRight(pos)) == right
    requires InOrder(c, ChildLeft(pos), coord) && InOrder(d, ChildRight(pos), coord) && Separates(s, coord, left, right)
    ensures OnlyUnder(a, d, pos) && PointsAt(d, pos) == Own(s) + left + right && InOrder(d, pos, coord)
  {
    hide Separates;
    UnderChildren(pos);
    assert d[pos] == s;
    PointsFrame(c, d, ChildLeft(pos));
    OrderFrame(c, d, ChildLeft(pos), coord);
    assert PointsAt(d, pos) == Own(d[pos]) + PointsAt(d, ChildLeft(pos)) + PointsAt(d, ChildRight(pos));
  }

  lemma AfterPut(a: seq<Slot>, b: seq<Slot>, c: seq<Slot>, pos: nat, s: Slot)
    requires pos < |a| && EmptyUnder(a, pos) && b == a[pos := s]
    ensures EmptyUnder(b, ChildLeft(pos)) && EmptyUnder(b, ChildRight(pos))
    ensures OnlyUnder(b, c, ChildLeft(pos)) ==> EmptyUnder(c, ChildRight(pos))
  {
    UnderChildren(pos);
  }

  /** A slot without children. */
  lemma Single(a: seq<Slot>, b: seq<Slot>, pos: nat, s: Slot, coord: Coords)
    requires pos < |a| && EmptyUnder(a, pos) && b == a[pos := s]
    requires !s.Inner? && !s.Cut?
    ensures OnlyUnder(a, b, pos) && PointsAt(b, pos) == Own(s) && InOrder(b, pos, coord)
  {
    UnderChildren(pos);
    NothingInOrder(b, ChildLeft(pos), coord);
    NothingInOrder(b, ChildRight(pos), coord);
    NoPoints(b, ChildLeft(pos));
    NoPoints(b, ChildRight(pos));
  }

  lemma SplitPoints(points: seq<nat>, k: nat)
    requires k < |points|
    ensures multiset{points[k]} + multiset(points[..k]) + multiset(points[k + 1..]) == multiset(points)
    ensures multiset(points[..k]) + multiset(points[k..]) == multiset(points)
  {
    assert points == points[..k] + points[k..];
    assert points[k..] == [points[k]] + points[k + 1..];
  }

  lemma BitLengthHalf(n: nat)
    requires n > 0
    ensures BitLength(n / 2) == BitLength(n) - 1 && BitLength(1) == 1
  {
  }

  lemma PositiveLength(n: nat)
    requires n > 0
    ensures BitLength(n) > 0
  {
  }

  lemma EmptyHere(nodes: seq<Slot>, pos: nat)
    requires EmptyUnder(nodes, pos) && pos < |nodes|
    ensures nodes[pos] == Empty
  {
    assert Under(pos, pos);
  }

  /** Writes a slot without children. */
  method PutLast(nodes: array<Slot>, pos: nat, s: Slot, coord: Coords)
    requires pos < nodes.Length && (s.Leaf? || s.Invalid?) && EmptyUnder(nodes[..], pos)
    modifies nodes
    ensures OnlyUnder(old(nodes[..]), nodes[..], pos) && PointsAt(nodes[..], pos) == Own(s)
    ensures InOrder(nodes[..], pos, coord)
  {
    hide EmptyUnder, OnlyUnder, InOrder, PointsAt;
    ghost var a := nodes[..];
    EmptyHere(a, pos);
    Put(nodes, pos, s);
    Single(a, nodes[..], pos, s, coord);
  }

  /** A node above one leaf: the other child is marked as none. */
  method BuildPair(nodes: array<Slot>, first: nat, second: nat, pos: nat, cutDim: nat, coord: Coords)
    requires EmptyUnder(nodes[..], pos) && Room(nodes.Length, pos, 2) && coord(first, cutDim) <= coord(second, cutDim)
    modifies nodes
    ensures PointsAt(nodes[..], pos) == multiset{second} + multiset{first} && OnlyUnder(old(nodes[..]), nodes[..], pos)
    ensures InOrder(nodes[..], pos, coord)
  {
    RoomBelow(nodes.Length, pos, 2, 1);
    RoomBelow(nodes.Length, ChildLeft(pos), 1, 0);
    RoomBelow(nodes.Length, ChildRight(pos), 1, 0);
    hide EmptyUnder, OnlyUnder, InOrder, PointsAt, Room;
    ghost var a := nodes[..];
    var s := Inner(second, cutDim);
    EmptyHere(a, pos);
    Put(nodes, pos, s);
    ghost var b := nodes[..];
    AfterPut(a, b, b, pos, s);
    PutLast(nodes, ChildLeft(pos), Leaf(first), coord);
    ghost var c := nodes[..];
    AfterPut(a, b, c, pos, s);
    PutLast(nodes, ChildRight(pos), Invalid, coord);
    Assembled(a, b, c, nodes[..], pos, s, multiset{first}, multiset{}, coord);
  }

  lemma TwoPoints(s: seq<nat>)
    requires |s| == 2
    ensures multiset(s) == multiset{s[1]} + multiset{s[0]}
  {
    assert s == [s[0], s[1]];
  }

  /** The tree with the points in its nodes. */
  method BuildInNodes(nodes: array<Slot>, points: seq<nat>, pos: nat, sort: (seq<nat>, nat) -> seq<nat>,
      cut: seq<nat> -> nat, coord: Coords)
    requires points != [] && Sorts(sort, coord) && EmptyUnder(nodes[..], pos)
    requires Room(nodes.Length, pos, BitLength(|points|))
    modifies nodes
    ensures PointsAt(nodes[..], pos) == multiset(points) && OnlyUnder(old(nodes[..]), nodes[..], pos)
    ensures InOrder(nodes[..], pos, coord)
    decreases |points|
  {
    hide EmptyUnder, OnlyUnder, InOrder, PointsAt, Room, BitLength, Pow2, Sorts, AtMost, AtLeast;
    var count := |points|;
    ghost var a := nodes[..];
    BitLengthHalf(count);
    BitLengthHalf(2);
    RoomBelow(nodes.Length, pos, BitLength(count), 0);
    if count == 1 {
      PutLast(nodes, pos, Leaf(points[0]), coord);
      assert points == [points[0]];
      return;
    }
    var cutDim := cut(points);
    var sorted := sort(points, cutDim);
    var recurseCount := count - 1;
    var rightCount := recurseCount / 2;
    var leftCount := recurseCount - rightCount;
    SortedSides(sort, coord, points, cutDim, leftCount);
    if count > 2 {
      var s := Inner(sorted[leftCount], cutDim);
      EmptyHere(a, pos);
      Put(nodes, pos, s);
      ghost var b := nodes[..];
      assert leftCount == count / 2 && 0 < rightCount <= leftCount;
      PositiveLength(leftCount);
      PositiveLength(rightCount);
      PartRoom(nodes.Length, pos, count, leftCount, 0);
      PartRoom(nodes.Length, pos, count, rightCount, 0);
      AfterPut(a, b, b, pos, s);
      BuildInNodes(nodes, sorted[..leftCount], ChildLeft(pos), sort, cut, coord);
      ghost var c := nodes[..];
      AfterPut(a, b, c, pos, s);
      BuildInNodes(nodes, sorted[leftCount + 1..], ChildRight(pos), sort, cut, coord);
      Assembled(a, b, c, nodes[..], pos, s, multiset(sorted[..leftCount]), multiset(sorted[leftCount + 1..]), coord);
      SplitPoints(sorted, leftCount);
    } else {
      TwoPoints(sorted);
      BuildPair(nodes, sorted[0], sorted[1], pos, cutDim, coord);
    }
  }

  lemma SortedSides(sort: (seq<nat>, nat) -> seq<nat>, coord: Coords, points: seq<nat>, d: nat, k: nat)
    requires Sorts(sort, coord) && k < |points|
    ensures var s := sort(points, d);
      && multiset(s) == multiset(points) && |s| == |points|
      && AtMost(multiset(s[..k]), coord, d, coord(s[k], d)) && AtLeast(multiset(s[k + 1..]), coord, d, coord(s[k], d))
      && (|s| == 2 ==> coord(s[0], d) <= coord(s[1], d))
  {
    AscendingAround(sort(points, d), coord, d, k);
    AroundSides(sort(points, d), coord, d, k);
  }

  /** A part of at most half the size has room below. */
  lemma PartRoom(slots: nat, pos: nat, n: nat, k: nat, more: nat)
    requires n > 0 && k <= n / 2 && BitLength(k) + more > 0 && Room(slots, pos, BitLength(n) + more)
    ensures Room(slots, ChildLeft(pos), BitLength(k) + more) && Room(slots, ChildRight(pos), BitLength(k) + more)
  {
    hide Room;
    BitLengthHalf(n);
    BitLengthMonotone(k, n / 2);
    hide BitLength;
    RoomBelow(slots, pos, BitLength(n) + more, BitLength(k) + more);
  }

  lemma RootRoom(slots: nat, levels: nat)
    requires levels > 0 && slots == Pow2(levels) - 1
    ensures Room(slots, 0, levels)
  {
  }

  /** The tree with the points in its leaves. */
  method BuildInLeaves(nodes: array<Slot>, points: seq<nat>, pos: nat, select: (seq<nat>, nat, nat) -> seq<nat>,
      cut: seq<nat> -> nat, coord: Coords)
    requires points != [] && Selects(select, coord) && EmptyUnder(nodes[..], pos)
    requires Room(nodes.Length, pos, BitLength(|points| - 1) + 1)
    modifies nodes
    ensures PointsAt(nodes[..], pos) == multiset(points) && OnlyUnder(old(nodes[..]), nodes[..], pos)
    ensures InOrder(nodes[..], pos, coord)
    decreases |points|
  {
    hide EmptyUnder, OnlyUnder, InOrder, PointsAt, Room, BitLength, Pow2, Selects, Separates;
    var count := |points|;
    ghost var a := nodes[..];
    RoomBelow(nodes.Length, pos, BitLength(count - 1) + 1, 0);
    if count == 1 {
      PutLast(nodes, pos, Leaf(points[0]), coord);
      assert points == [points[0]];
      return;
    }
    var cutDim := cut(points);
    var rightCount := count / 2;
    var leftCount := count - rightCount;
    var placed := select(points, leftCount, cutDim);
    SelectedSides(select, coord, points, cutDim, leftCount);
    var s := Cut(cutDim, coord(placed[leftCount], cutDim));
    EmptyHere(a, pos);
    Put(nodes, pos, s);
    ghost var b := nodes[..];
    PartRoom(nodes.Length, pos, count - 1, leftCount - 1, 1);
    PartRoom(nodes.Length, pos, count - 1, rightCount - 1, 1);
    AfterPut(a, b, b, pos, s);
    BuildInLeaves(nodes, placed[..leftCount], ChildLeft(pos), select, cut, coord);
    ghost var c := nodes[..];
    AfterPut(a, b, c, pos, s);
    BuildInLeaves(nodes, placed[leftCount..], ChildRight(pos), select, cut, coord);
    Assembled(a, b, c, nodes[..], pos, s, multiset(placed[..leftCount]), multiset(placed[leftCount..]), coord);
    SplitPoints(placed, leftCount);
  }

  lemma SelectedSides(select: (seq<nat>, nat, nat) -> seq<nat>, coord: Coords, points: seq<nat>, d: nat, k: nat)
    requires Selects(select, coord) && k < |points| && |points| - k <= k <= |points| - k + 1
    ensures var s := select(points, k, d);
      && multiset(s) == multiset(points) && |s| == |points|
      && Separates(Cut(d, coord(s[k], d)), coord, multiset(s[..k]), multiset(s[k..]))
  {
    var s := select(points, k, d);
    AroundSides(s, coord, d, k);
    assert s[k..][0] == s[k];
    assert s[k] in multiset(s[k..]);
  }

  /** The constructors: an array of the computed size holds every point exactly once, in search order. */
  method CreateInNodes(points: seq<nat>, sort: (seq<nat>, nat) -> seq<nat>, cut: seq<nat> -> nat, coord: Coords)
    returns (nodes: array<Slot>)
    requires 0 < |points| < Pow2(31) && Sorts(sort, coord)
    ensures nodes.Length == Pow2(BitLength(|points|)) - 1 && PointsAt(nodes[..], 0) == multiset(points)
    ensures InOrder(nodes[..], 0, coord)
  {
    hide BitLength, Pow2, PointsAt, Room, Under, InOrder, Ascending;
    BitLengthMonotone(1, |points|);
    BitLengthHalf(1);
    var size := GetTreeSizeInNodes(|points|);
    nodes := new Slot[size](_ => Empty);
    RootRoom(nodes.Length, BitLength(|points|));
    BuildInNodes(nodes, points, 0, sort, cut, coord);
  }

  method CreateInLeaves(points: seq<nat>, select: (seq<nat>, nat, nat) -> seq<nat>, cut: seq<nat> -> nat, coord: Coords)
    returns (nodes: array<Slot>)
    requires 0 < |points| < Pow2(31) && Selects(select, coord)
    ensures nodes.Length == Pow2(BitLength(|points| - 1) + 1) - 1 && PointsAt(nodes[..], 0) == multiset(points)
    ensures InOrder(nodes[..], 0, coord)
  {
    hide BitLength, Pow2, PointsAt, Room, Under, InOrder, Around;
    var size := GetTreeSizeInLeaves(|points|);
    nodes := new Slot[size](_ => Empty);
    RootRoom(nodes.Length, BitLength(|points| - 1) + 1);
    BuildInLeaves(nodes, points, 0, select, cut, coord);
  }
}
