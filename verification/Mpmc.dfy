/** The bounded queue for many producers and many consumers, as a state machine whose steps are
    the atomic operations of its threads. */
module Mpmc {
  import opened Bits
  import opened Wrappers

  datatype Cell<T> = Cell(sequence: nat, data: T)

  /** Where a thread is in enqueue or dequeue: each case but the last two is named after the
      operation that comes next. */
  datatype Thread<T> =
    | Idle
    | EnqPos(item: T)
    | EnqSeq(item: T, pos: nat)
    | EnqSwap(item: T, pos: nat)
    | EnqData(item: T, pos: nat)
    | EnqPublish(pos: nat)
    | DeqPos
    | DeqSeq(pos: nat)
    | DeqSwap(pos: nat)
    | DeqData(pos: nat)
    | DeqRelease(pos: nat, item: T)
    | EnqReturned(ok: bool)
    | DeqReturned(result: Option<T>)

  /** What the proofs remember of a run. A ticket is a value of enqueue_pos_ that a producer claimed;
      for every ticket the item and its producer, for every ticket claimed by a consumer that
      consumer, and the items read so far. For every cell the ticket it serves, and whether the
      item of that ticket is published. */
  datatype History<T> = History(
    items: seq<T>, writer: seq<nat>, reader: seq<nat>, turn: seq<nat>, full: seq<bool>, out: map<nat, T>)

  datatype State<T> = State(
    cells: seq<Cell<T>>, enqueuePos: nat, dequeuePos: nat, threads: seq<Thread<T>>, h: History<T>)

  /** One atomic step: a call, or the next operation of a thread. A compare-exchange may fail even
      when the values agree; moving an item out of a cell leaves some other value there. */
  datatype Action<T> =
    | Enqueue(tid: nat, item: T)
    | Dequeue(tid: nat)
    | Step(tid: nat, swaps: bool, left: T)

  /** The sizes the constructor accepts. */
  predicate Accepted(bufferSize: nat) {
    bufferSize >= 2 && And(bufferSize, bufferSize - 1) == 0
  }

  /** The cell of a ticket: pos & buffer_mask_. */
  function Slot(pos: nat, size: nat): nat
    requires size > 0
  {
    And(pos, size - 1)
  }

  /** A size is accepted exactly when it is a power of two and at least 2. */
  lemma AcceptedSizes(size: nat)
    ensures Accepted(size) <==> exists n: nat :: n > 0 && size == Pow2(n)
  {
    if size >= 2 {
      PowerOfTwoTest(size);
      if n: nat :| size == Pow2(n) {
        assert n > 0;
      }
    }
    if n: nat :| n > 0 && size == Pow2(n) {
      Pow2Mono(1, n);
      PowerOfTwoTest(size);
    }
  }

  lemma SlotIsRemainder(pos: nat, size: nat)
    requires Accepted(size)
    ensures Slot(pos, size) == pos % size
  {
    AcceptedSizes(size);
    var n: nat :| n > 0 && size == Pow2(n);
    AndMask(pos, n);
  }

  lemma SlotInRange(pos: nat, size: nat)
    requires Accepted(size)
    ensures Slot(pos, size) < size
    ensures pos < size ==> Slot(pos, size) == pos
  {
    SlotIsRemainder(pos, size);
    if pos < size {
      DivMod(pos, size, 0, pos);
    }
  }

  lemma SlotAfterRound(pos: nat, size: nat)
    requires Accepted(size)
    ensures Slot(pos + size, size) == Slot(pos, size)
  {
    SlotIsRemainder(pos, size);
    SlotIsRemainder(pos + size, size);
    hide Slot, Accepted;
    RemainderAfterRound(pos, size);
  }

  lemma RemainderAfterRound(pos: nat, size: nat)
    requires size > 0
    ensures (pos + size) % size == pos % size
  {
    DivMod(pos + size, size, pos / size + 1, pos % size);
  }

  /** Different tickets of one cell are at least a round apart. */
  lemma SlotsApart(a: nat, b: nat, size: nat)
    requires Accepted(size) && Slot(a, size) == Slot(b, size) && a < b
    ensures a + size <= b
  {
    SlotIsRemainder(a, size);
    SlotIsRemainder(b, size);
    hide Slot, Accepted;
    SameRemainder(a, b, size);
  }

  lemma SameRemainder(a: nat, b: nat, size: nat)
    requires size > 0 && a % size == b % size && a < b
    ensures a + size <= b
  {
    var qa, qb := a / size, b / size;
    assert a == size * qa + a % size && b == size * qb + b % size;
    assert b - a == size * (qb - qa);
    assert qb != qa;
    Multiple(size, qb - qa);
  }

  /** The constructor: an error unless the size is a power of two. */
  method Create<T>(bufferSize: nat, threads: nat, blank: T) returns (r: Result<State<T>, string>)
    ensures r.Ok? <==> exists n: nat :: n > 0 && bufferSize == Pow2(n)
    ensures r.Ok? ==> Initial(r.value) && |r.value.cells| == bufferSize && |r.value.threads| == threads
  {
    AcceptedSizes(bufferSize);
    if !(bufferSize >= 2 && And(bufferSize, bufferSize - 1) == 0) {
      return Err("async logger queue size must be power of two");
    }
    var cells: seq<Cell<T>> := [];
    for i := 0 to bufferSize
      invariant |cells| == i && forall j :: 0 <= j < i ==> cells[j].sequence == j
    {
      cells := cells + [Cell(i, blank)];
    }
    var h := History([], [], [], seq(bufferSize, i => i), seq(bufferSize, _ => false), map[]);
    r := Ok(State(cells, 0, 0, seq(threads, _ => Idle), h));
  }

  ghost predicate Initial<T>(s: State<T>) {
    && Accepted(|s.cells|) && s.enqueuePos == s.dequeuePos == 0
    && (forall i :: 0 <= i < |s.cells| ==> s.cells[i].sequence == i)
    && (forall t :: 0 <= t < |s.threads| ==> s.threads[t] == Idle)
    && s.h == History([], [], [], seq(|s.cells|, i => i), seq(|s.cells|, _ => false), map[])
  }

  predicate Resting<T>(t: Thread<T>) {
    t.Idle? || t.EnqReturned? || t.DeqReturned?
  }

  predicate Sized<T>(s: State<T>) {
    Accepted(|s.cells|) && |s.h.turn| == |s.h.full| == |s.cells|
  }

  predicate Enabled<T>(s: State<T>, a: Action<T>) {
    && a.tid < |s.threads| && (a.Step? <==> !Resting(s.threads[a.tid]))
  }

  function Goto<T>(s: State<T>, tid: nat, t: Thread<T>): State<T>
    requires tid < |s.threads|
  {
    s.(threads := s.threads[tid := t])
  }

  /** The step, as the code of the thread takes it. */
  function Apply<T>(s: State<T>, a: Action<T>): (s': State<T>)
    requires Sized(s) && Enabled(s, a)
    ensures Sized(s') && |s'.cells| == |s.cells| && |s'.threads| == |s.threads|
  {
    match a
    case Enqueue(tid, item) => Goto(s, tid, EnqPos(item))
    case Dequeue(tid) => Goto(s, tid, DeqPos)
    case Step(tid, swaps, left) =>
      var size := |s.cells|;
      match s.threads[tid]
      case EnqPos(item) => Goto(s, tid, EnqSeq(item, s.enqueuePos))
      case EnqSeq(item, pos) =>
        SlotInRange(pos, size);
        Goto(s, tid, AfterEnqSeq(item, pos, s.cells[Slot(pos, size)].sequence))
      case EnqSwap(item, pos) =>
        if swaps && s.enqueuePos == pos then ClaimToWrite(s, tid, item, pos)
        else Goto(s, tid, EnqSeq(item, s.enqueuePos))
      case EnqData(item, pos) => SlotInRange(pos, size); WriteData(s, tid, item, pos)
      case EnqPublish(pos) => SlotInRange(pos, size); Publish(s, tid, pos)
      case DeqPos => Goto(s, tid, DeqSeq(s.dequeuePos))
      case DeqSeq(pos) => SlotInRange(pos, size); Goto(s, tid, AfterDeqSeq(pos, s.cells[Slot(pos, size)].sequence))
      case DeqSwap(pos) =>
        if swaps && s.dequeuePos == pos then ClaimToRead(s, tid, pos)
        else Goto(s, tid, DeqSeq(s.dequeuePos))
      case DeqData(pos) => SlotInRange(pos, size); ReadData(s, tid, pos, left)
      case DeqRelease(pos, item) => SlotInRange(pos, size); Release(s, tid, pos, item)
      case _ => s
  }

  /** The three-way test of enqueue on the sequence it loaded. */
  function AfterEnqSeq<T>(item: T, pos: nat, sequence: nat): Thread<T> {
    var dif := sequence - pos;
    if dif == 0 then EnqSwap(item, pos)
    else if dif < 0 then EnqReturned(false)
    else EnqPos(item)
  }

  function AfterDeqSeq<T>(pos: nat, sequence: nat): Thread<T> {
    var dif := sequence - (pos + 1);
    if dif == 0 then DeqSwap(pos)
    else if dif < 0 then DeqReturned(None)
    else DeqPos
  }

  function ClaimToWrite<T>(s: State<T>, tid: nat, item: T, pos: nat): State<T>
    requires tid < |s.threads|
  {
    Goto(s, tid, EnqData(item, pos)).(
      enqueuePos := pos + 1,
      h := s.h.(items := s.h.items + [item], writer := s.h.writer + [tid]))
  }

  function WriteData<T>(s: State<T>, tid: nat, item: T, pos: nat): State<T>
    requires tid < |s.threads| && 0 < |s.cells| && Slot(pos, |s.cells|) < |s.cells|
  {
    var i := Slot(pos, |s.cells|);
    Goto(s, tid, EnqPublish(pos)).(cells := s.cells[i := s.cells[i].(data := item)])
  }

  function Publish<T>(s: State<T>, tid: nat, pos: nat): State<T>
    requires tid < |s.threads| && 0 < |s.cells| && Slot(pos, |s.cells|) < |s.cells| == |s.h.full|
  {
    var i := Slot(pos, |s.cells|);
    Goto(s, tid, EnqReturned(true)).(
      cells := s.cells[i := s.cells[i].(sequence := pos + 1)],
      h := s.h.(full := s.h.full[i := true]))
  }

  function ClaimToRead<T>(s: State<T>, tid: nat, pos: nat): State<T>
    requires tid < |s.threads|
  {
    Goto(s, tid, DeqData(pos)).(dequeuePos := pos + 1, h := s.h.(reader := s.h.reader + [tid]))
  }

  function ReadData<T>(s: State<T>, tid: nat, pos: nat, left: T): State<T>
    requires tid < |s.threads| && 0 < |s.cells| && Slot(pos, |s.cells|) < |s.cells|
  {
    var i := Slot(pos, |s.cells|);
    Goto(s, tid, DeqRelease(pos, s.cells[i].data)).(
      cells := s.cells[i := s.cells[i].(data := left)],
      h := s.h.(out := s.h.out[pos := s.cells[i].data]))
  }

  function Release<T>(s: State<T>, tid: nat, pos: nat, item: T): State<T>
    requires tid < |s.threads| && 0 < |s.cells| && Slot(pos, |s.cells|) < |s.cells| == |s.h.full| == |s.h.turn|
  {
    var i, next := Slot(pos, |s.cells|), pos + (|s.cells| - 1) + 1;
    Goto(s, tid, DeqReturned(Some(item))).(
      cells := s.cells[i := s.cells[i].(sequence := next)],
      h := s.h.(turn := s.h.turn[i := next], full := s.h.full[i := false]))
  }

  ghost predicate Inv<T>(s: State<T>) {
    && Shape(s)
    && (forall i :: 0 <= i < |s.cells| ==> CellOk(s, i))
    && (forall t :: 0 <= t < s.enqueuePos ==> TicketOk(s, t))
    && (forall tid :: 0 <= tid < |s.threads| ==> ThreadOk(s, tid))
  }

  ghost predicate Shape<T>(s: State<T>) {
    && Sized(s)
    && s.dequeuePos == |s.h.reader| <= s.enqueuePos == |s.h.items| == |s.h.writer|
    && (forall t: nat :: Slot(t, |s.cells|) < |s.cells|)
    && forall t :: t in s.h.out ==> t < s.dequeuePos
  }

  /** A cell waits for its ticket with the sequence t, and holds its item with t + 1. It came to
      its ticket when the ticket a round before was dequeued. */
  ghost predicate CellOk<T>(s: State<T>, i: nat)
    requires Shape(s)
  {
    && i < |s.cells|
    && var t := s.h.turn[i];
    && s.cells[i].sequence == (if s.h.full[i] then t + 1 else t)
    && Slot(t, |s.cells|) == i && (t >= |s.cells| ==> t - |s.cells| < s.dequeuePos)
    && (if s.h.full[i] then t < s.enqueuePos else s.dequeuePos <= t)
  }

  ghost predicate Writing<T>(t: Thread<T>, pos: nat, item: T) {
    || t == EnqData(item, pos)
    || t == EnqPublish(pos)
  }

  ghost predicate Reading<T>(t: Thread<T>, pos: nat) {
    || t == DeqData(pos)
    || (t.DeqRelease? && t.pos == pos)
  }

  /** A ticket is being written by the thread that claimed it, or published, or being read by the
      thread that claimed it from there, or released and read. */
  ghost predicate TicketOk<T>(s: State<T>, t: nat)
    requires Shape(s) && t < s.enqueuePos
  {
    var i := Slot(t, |s.cells|);
    && s.h.turn[i] >= t && s.h.writer[t] < |s.threads|
    && (s.h.turn[i] == t && !s.h.full[i] ==> Writing(s.threads[s.h.writer[t]], t, s.h.items[t]))
    && (s.h.turn[i] == t && s.h.full[i] && t !in s.h.out ==> s.cells[i].data == s.h.items[t])
    && (s.h.turn[i] == t && t < s.dequeuePos ==>
      s.h.full[i] && s.h.reader[t] < |s.threads| && Reading(s.threads[s.h.reader[t]], t)
      && (t in s.h.out ==> s.threads[s.h.reader[t]].DeqRelease?))
    && (s.h.turn[i] > t ==> t < s.dequeuePos && t in s.h.out)
    && (t in s.h.out ==> t < s.dequeuePos && s.h.out[t] == s.h.items[t])
  }

  ghost predicate WritesTicket<T>(s: State<T>, tid: nat, pos: nat)
    requires Shape(s)
  {
    && pos < s.enqueuePos && s.h.writer[pos] == tid && pos !in s.h.out
    && s.h.turn[Slot(pos, |s.cells|)] == pos && !s.h.full[Slot(pos, |s.cells|)]
  }

  ghost predicate ReadsTicket<T>(s: State<T>, tid: nat, pos: nat)
    requires Shape(s)
  {
    && pos < s.dequeuePos && s.h.reader[pos] == tid
    && s.h.turn[Slot(pos, |s.cells|)] == pos && s.h.full[Slot(pos, |s.cells|)]
  }

  ghost predicate ThreadOk<T>(s: State<T>, tid: nat)
    requires Shape(s)
  {
    tid < |s.threads| &&
    match s.threads[tid]
    case EnqSeq(item, pos) => pos <= s.enqueuePos
    case EnqSwap(item, pos) =>
      && pos <= s.enqueuePos
      && (pos == s.enqueuePos ==> s.h.turn[Slot(pos, |s.cells|)] == pos && !s.h.full[Slot(pos, |s.cells|)])
    case EnqData(item, pos) => WritesTicket(s, tid, pos) && item == s.h.items[pos]
    case EnqPublish(pos) => WritesTicket(s, tid, pos) && s.cells[Slot(pos, |s.cells|)].data == s.h.items[pos]
    case DeqSeq(pos) => pos <= s.dequeuePos
    case DeqSwap(pos) =>
      && pos <= s.dequeuePos
      && (pos == s.dequeuePos ==> s.h.turn[Slot(pos, |s.cells|)] == pos && s.h.full[Slot(pos, |s.cells|)])
    case DeqData(pos) => ReadsTicket(s, tid, pos) && pos !in s.h.out
    case DeqRelease(pos, item) => ReadsTicket(s, tid, pos) && pos in s.h.out && item == s.h.out[pos]
    case _ => true
  }

  lemma InitialInv<T>(s: State<T>)
    requires Initial(s)
    ensures Inv(s)
  {
    var size := |s.cells|;
    forall t: nat
      ensures Slot(t, size) < size
    {
      SlotInRange(t, size);
    }
    forall i | 0 <= i < size
      ensures CellOk(s, i)
    {
      SlotInRange(i, size);
    }
  }

  /** A step that only moves one thread keeps the invariant when the thread's new place is justified. */
  lemma GotoInv<T>(s: State<T>, tid: nat, t: Thread<T>)
    requires Inv(s) && tid < |s.threads| && ThreadOk(Goto(s, tid, t), tid)
    requires !Owner(s.threads[tid])
    ensures Inv(Goto(s, tid, t))
  {
    hide Accepted, Slot;
    var s' := Goto(s, tid, t);
    forall i | 0 <= i < |s.cells|
      ensures CellOk(s', i)
    {
      assert CellOk(s, i);
    }
    forall k | 0 <= k < s.enqueuePos
      ensures TicketOk(s', k)
    {
      assert TicketOk(s, k);
    }
    forall j | 0 <= j < |s.threads|
      ensures ThreadOk(s', j)
    {
      assert ThreadOk(s, j);
    }
  }

  predicate Owner<T>(t: Thread<T>) {
    t.EnqData? || t.EnqPublish? || t.DeqData? || t.DeqRelease?
  }

  lemma EnqSeqInv<T>(s: State<T>, tid: nat, item: T, pos: nat)
    requires Inv(s) && tid < |s.threads| && s.threads[tid] == EnqSeq(item, pos)
    ensures Inv(Goto(s, tid, AfterEnqSeq(item, pos, s.cells[Slot(pos, |s.cells|)].sequence)))
  {
    assert |s.cells| > 0;
    hide Accepted, Slot;
    var i := Slot(pos, |s.cells|);
    assert ThreadOk(s, tid) && CellOk(s, i);
    if s.cells[i].sequence == pos && pos == s.enqueuePos {
      FreeForNext(s, pos);
    }
    GotoInv(s, tid, AfterEnqSeq(item, pos, s.cells[i].sequence));
  }

  /** The sequence pos in its cell means that the cell waits for ticket pos. */
  lemma FreeForNext<T>(s: State<T>, pos: nat)
    requires Inv(s) && s.cells[Slot(pos, |s.cells|)].sequence == pos
    ensures s.h.turn[Slot(pos, |s.cells|)] == pos && !s.h.full[Slot(pos, |s.cells|)]
  {
    hide Slot;
    var i := Slot(pos, |s.cells|);
    assert CellOk(s, i);
    if s.h.full[i] {
      SlotsApart(s.h.turn[i], pos, |s.cells|);
      assert false;
    }
  }

  lemma FullForNext<T>(s: State<T>, pos: nat)
    requires Inv(s) && s.cells[Slot(pos, |s.cells|)].sequence == pos + 1
    ensures s.h.turn[Slot(pos, |s.cells|)] == pos && s.h.full[Slot(pos, |s.cells|)]
  {
    hide Slot;
    var i := Slot(pos, |s.cells|);
    assert CellOk(s, i);
    if !s.h.full[i] {
      SlotsApart(pos, s.h.turn[i], |s.cells|);
      assert false;
    }
  }

  lemma DeqSeqInv<T>(s: State<T>, tid: nat, pos: nat)
    requires Inv(s) && tid < |s.threads| && s.threads[tid] == DeqSeq(pos)
    ensures Inv(Goto(s, tid, AfterDeqSeq(pos, s.cells[Slot(pos, |s.cells|)].sequence)))
  {
    assert |s.cells| > 0;
    hide Accepted, Slot;
    var i := Slot(pos, |s.cells|);
    assert ThreadOk(s, tid) && CellOk(s, i);
    if s.cells[i].sequence == pos + 1 {
      FullForNext(s, pos);
    }
    GotoInv(s, tid, AfterDeqSeq(pos, s.cells[i].sequence));
  }

  lemma ClaimToWriteInv<T>(s: State<T>, tid: nat, item: T, pos: nat)
    requires Inv(s) && tid < |s.threads| && s.threads[tid] == EnqSwap(item, pos) && s.enqueuePos == pos
    ensures Inv(ClaimToWrite(s, tid, item, pos))
  {
    hide Accepted, Slot;
    var s' := ClaimToWrite(s, tid, item, pos);
    assert ThreadOk(s, tid);
    forall i | 0 <= i < |s.cells|
      ensures CellOk(s', i)
    {
      assert CellOk(s, i);
    }
    forall k | 0 <= k < s'.enqueuePos
      ensures TicketOk(s', k)
    {
      if k < pos {
        assert TicketOk(s, k);
      }
    }
    forall j | 0 <= j < |s.threads|
      ensures ThreadOk(s', j)
    {
      assert ThreadOk(s, j);
    }
  }

  lemma WriteDataInv<T>(s: State<T>, tid: nat, item: T, pos: nat)
    requires Inv(s) && tid < |s.threads| && s.threads[tid] == EnqData(item, pos)
    ensures Inv(WriteData(s, tid, item, pos))
  {
    hide Accepted, Slot;
    var s' := WriteData(s, tid, item, pos);
    assert ThreadOk(s, tid);
    forall i | 0 <= i < |s.cells|
      ensures CellOk(s', i)
    {
      assert CellOk(s, i);
    }
    forall k | 0 <= k < s'.enqueuePos
      ensures TicketOk(s', k)
    {
      assert TicketOk(s, k);
    }
    forall j | 0 <= j < |s.threads|
      ensures ThreadOk(s', j)
    {
      assert ThreadOk(s, j);
    }
  }

  lemma PublishInv<T>(s: State<T>, tid: nat, pos: nat)
    requires Inv(s) && tid < |s.threads| && s.threads[tid] == EnqPublish(pos)
    ensures Inv(Publish(s, tid, pos))
  {
    hide Accepted, Slot;
    var s' := Publish(s, tid, pos);
    assert ThreadOk(s, tid);
    forall i | 0 <= i < |s.cells|
      ensures CellOk(s', i)
    {
      assert CellOk(s, i);
    }
    forall k | 0 <= k < s'.enqueuePos
      ensures TicketOk(s', k)
    {
      assert TicketOk(s, k);
    }
    forall j | 0 <= j < |s.threads|
      ensures ThreadOk(s', j)
    {
      assert ThreadOk(s, j);
    }
  }

  lemma ClaimToReadInv<T>(s: State<T>, tid: nat, pos: nat)
    requires Inv(s) && tid < |s.threads| && s.threads[tid] == DeqSwap(pos) && s.dequeuePos == pos
    ensures Inv(ClaimToRead(s, tid, pos))
  {
    hide Accepted, Slot;
    var s' := ClaimToRead(s, tid, pos);
    assert ThreadOk(s, tid);
    assert CellOk(s, Slot(pos, |s.cells|));
    forall i | 0 <= i < |s.cells|
      ensures CellOk(s', i)
    {
      assert CellOk(s, i);
    }
    forall k | 0 <= k < s'.enqueuePos
      ensures TicketOk(s', k)
    {
      assert TicketOk(s, k);
    }
    forall j | 0 <= j < |s.threads|
      ensures ThreadOk(s', j)
    {
      assert ThreadOk(s, j);
    }
  }

  lemma ReadDataInv<T>(s: State<T>, tid: nat, pos: nat, left: T)
    requires Inv(s) && tid < |s.threads| && s.threads[tid] == DeqData(pos)
    ensures Inv(ReadData(s, tid, pos, left))
  {
    hide Accepted, Slot;
    var s' := ReadData(s, tid, pos, left);
    assert ThreadOk(s, tid);
    assert TicketOk(s, pos);
    forall i | 0 <= i < |s.cells|
      ensures CellOk(s', i)
    {
      assert CellOk(s, i);
    }
    forall k | 0 <= k < s'.enqueuePos
      ensures TicketOk(s', k)
    {
      assert TicketOk(s, k);
    }
    forall j | 0 <= j < |s.threads|
      ensures ThreadOk(s', j)
    {
      assert ThreadOk(s, j);
    }
  }

  lemma TurnReached<T>(s: State<T>, t: nat)
    requires Inv(s) && t < s.enqueuePos
    ensures s.h.turn[Slot(t, |s.cells|)] >= t
  {
    assert TicketOk(s, t);
  }

  lemma ReleaseInv<T>(s: State<T>, tid: nat, pos: nat, item: T)
    requires Inv(s) && tid < |s.threads| && s.threads[tid] == DeqRelease(pos, item)
    ensures Inv(Release(s, tid, pos, item))
  {
    hide Accepted, Slot;
    var s' := Release(s, tid, pos, item);
    var size := |s.cells|;
    assert ThreadOk(s, tid);
    SlotAfterRound(pos, size);
    if s.enqueuePos > pos + size {
      TurnReached(s, pos + size);
      assert false;
    }
    forall i | 0 <= i < size
      ensures CellOk(s', i)
    {
      assert CellOk(s, i);
    }
    forall k | 0 <= k < s'.enqueuePos
      ensures TicketOk(s', k)
    {
      assert TicketOk(s, k);
    }
    forall j | 0 <= j < |s.threads|
      ensures ThreadOk(s', j)
    {
      assert ThreadOk(s, j);
    }
  }

  /** Every step keeps the invariant. */
  lemma StepInv<T>(s: State<T>, a: Action<T>)
    requires Inv(s) && Enabled(s, a)
    ensures Inv(Apply(s, a))
  {
    hide Inv, Slot, Accepted, Goto, AfterEnqSeq, AfterDeqSeq, ClaimToWrite, WriteData, Publish, ClaimToRead,
        ReadData, Release;
    match a
    case Enqueue(tid, item) => MoveInv(s, tid, EnqPos(item));
    case Dequeue(tid) => MoveInv(s, tid, DeqPos);
    case Step(tid, swaps, left) =>
      match s.threads[tid]
      case EnqPos(item) => MoveInv(s, tid, EnqSeq(item, s.enqueuePos));
      case EnqSeq(item, pos) => EnqSeqInv(s, tid, item, pos);
      case EnqSwap(item, pos) =>
        if swaps && s.enqueuePos == pos {
          ClaimToWriteInv(s, tid, item, pos);
        } else {
          MoveInv(s, tid, EnqSeq(item, s.enqueuePos));
        }
      case EnqData(item, pos) => WriteDataInv(s, tid, item, pos);
      case EnqPublish(pos) => PublishInv(s, tid, pos);
      case DeqPos => MoveInv(s, tid, DeqSeq(s.dequeuePos));
      case DeqSeq(pos) => DeqSeqInv(s, tid, pos);
      case DeqSwap(pos) =>
        if swaps && s.dequeuePos == pos {
          ClaimToReadInv(s, tid, pos);
        } else {
          MoveInv(s, tid, DeqSeq(s.dequeuePos));
        }
      case DeqData(pos) => ReadDataInv(s, tid, pos, left);
      case DeqRelease(pos, item) => ReleaseInv(s, tid, pos, item);
      case _ =>
  }

  lemma MoveInv<T>(s: State<T>, tid: nat, t: Thread<T>)
    requires Inv(s) && tid < |s.threads| && !Owner(s.threads[tid])
    requires t.EnqPos? || t.DeqPos? || (t.EnqSeq? && t.pos == s.enqueuePos) || (t.DeqSeq? && t.pos == s.dequeuePos)
    ensures Inv(Goto(s, tid, t))
  {
    GotoInv(s, tid, t);
  }
}
