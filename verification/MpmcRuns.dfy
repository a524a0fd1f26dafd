/** What holds in every run of the bounded queue. */
module MpmcRuns {
  import opened Bits
  import opened Wrappers
  import opened Mpmc

  predicate Executable<T>(s: State<T>, actions: seq<Action<T>>)
    requires Sized(s)
    decreases |actions|
  {
    actions == [] || (Enabled(s, actions[0]) && Executable(Apply(s, actions[0]), actions[1..]))
  }

  function Final<T>(s: State<T>, actions: seq<Action<T>>): (f: State<T>)
    requires Sized(s) && Executable(s, actions)
    ensures Sized(f)
    decreases |actions|
  {
    if actions == [] then s else Final(Apply(s, actions[0]), actions[1..])
  }

  /** The items of the successful compare-exchanges on enqueue_pos_, in the order of the run. */
  function Claimed<T>(s: State<T>, actions: seq<Action<T>>): seq<T>
    requires Sized(s) && Executable(s, actions)
    decreases |actions|
  {
    if actions == [] then []
    else ClaimOf(s, actions[0]) + Claimed(Apply(s, actions[0]), actions[1..])
  }

  function ClaimOf<T>(s: State<T>, a: Action<T>): seq<T>
    requires Sized(s) && Enabled(s, a)
  {
    if a.Step? && a.swaps && s.threads[a.tid].EnqSwap? && s.threads[a.tid].pos == s.enqueuePos
    then [s.threads[a.tid].item] else []
  }

  /** What a consumer has moved out of a cell. */
  datatype Delivery<T> = Delivery(ticket: nat, tid: nat, item: T)

  /** The items moved out of cells by consumers, in the order of the run. */
  function Delivered<T>(s: State<T>, actions: seq<Action<T>>): seq<Delivery<T>>
    requires Sized(s) && Executable(s, actions)
    decreases |actions|
  {
    if actions == [] then []
    else DeliveryOf(s, actions[0]) + Delivered(Apply(s, actions[0]), actions[1..])
  }

  function DeliveryOf<T>(s: State<T>, a: Action<T>): seq<Delivery<T>>
    requires Sized(s) && Enabled(s, a)
  {
    if a.Step? && s.threads[a.tid].DeqData?
    then
      var pos := s.threads[a.tid].pos;
      SlotInRange(pos, |s.cells|);
      [Delivery(pos, a.tid, s.cells[Slot(pos, |s.cells|)].data)]
    else []
  }

  lemma {:induction false} RunInv<T>(s: State<T>, actions: seq<Action<T>>)
    requires Inv(s) && Executable(s, actions)
    ensures Inv(Final(s, actions))
    decreases |actions|
  {
    hide Inv, Apply;
    ItemsCounted(s);
    if actions != [] {
      StepInv(s, actions[0]);
      RunInv(Apply(s, actions[0]), actions[1..]);
    }
  }

  /** A step appends the claimed item, if any, and keeps or adds to the delivered ones. */
  lemma StepHistory<T>(s: State<T>, a: Action<T>)
    requires Inv(s) && Enabled(s, a)
    ensures Apply(s, a).h.items == s.h.items + ClaimOf(s, a)
    ensures forall t :: t in s.h.out ==> t in Apply(s, a).h.out
    ensures forall d :: d in DeliveryOf(s, a) ==>
      d.ticket !in s.h.out && d.ticket in Apply(s, a).h.out && d.ticket < s.enqueuePos && d.item == s.h.items[d.ticket]
  {
    hide Slot, And;
    assert ThreadOk(s, a.tid);
    if a.Step? && s.threads[a.tid].DeqData? {
      assert TicketOk(s, s.threads[a.tid].pos);
    }
  }

  /** The tickets are the claims in their order, every delivery hands out the item of its ticket, and
      no ticket is delivered twice. */
  lemma {:induction false} DeliveredFrom<T>(s: State<T>, actions: seq<Action<T>>)
    requires Inv(s) && Executable(s, actions)
    ensures Final(s, actions).h.items == s.h.items + Claimed(s, actions)
    ensures forall i :: 0 <= i < |Delivered(s, actions)| ==> var d := Delivered(s, actions)[i];
      d.ticket !in s.h.out && d.ticket < |Final(s, actions).h.items| && d.item == Final(s, actions).h.items[d.ticket]
    ensures forall i, j :: 0 <= i < j < |Delivered(s, actions)| ==>
      Delivered(s, actions)[i].ticket != Delivered(s, actions)[j].ticket
    decreases |actions|
  {
    hide Inv, Apply, ClaimOf, DeliveryOf;
    ItemsCounted(s);
    if actions != [] {
      var a, s' := actions[0], Apply(s, actions[0]);
      StepInv(s, a);
      StepHistory(s, a);
      DeliveredFrom(s', actions[1..]);
      OneDelivery(s, a);
      assert s'.h.items + Claimed(s', actions[1..]) == s.h.items + (ClaimOf(s, a) + Claimed(s', actions[1..]));
    }
  }

  lemma ItemsCounted<T>(s: State<T>)
    requires Inv(s)
    ensures Sized(s) && |s.h.items| == s.enqueuePos && s.dequeuePos <= s.enqueuePos
  {
  }

  lemma OneDelivery<T>(s: State<T>, a: Action<T>)
    requires Sized(s) && Enabled(s, a)
    ensures |DeliveryOf(s, a)| <= 1
  {
  }

  /** In every run of a new queue: an item enqueued is delivered at most once, with the ticket order
      being the order of the claims. */
  lemma DeliveredOnce<T>(s: State<T>, actions: seq<Action<T>>)
    requires Initial(s) && Executable(s, actions)
    ensures forall i :: 0 <= i < |Delivered(s, actions)| ==> var d := Delivered(s, actions)[i];
      d.ticket < |Claimed(s, actions)| && d.item == Claimed(s, actions)[d.ticket]
    ensures forall i, j :: 0 <= i < j < |Delivered(s, actions)| ==>
      Delivered(s, actions)[i].ticket != Delivered(s, actions)[j].ticket
  {
    hide Inv, Apply, ClaimOf, DeliveryOf;
    InitialInv(s);
    DeliveredFrom(s, actions);
    assert s.h.items + Claimed(s, actions) == Claimed(s, actions);
  }

  datatype Claim = Claim(ticket: nat, tid: nat)

  /** The successful compare-exchanges on dequeue_pos_, in the order of the run. */
  function Consumed<T>(s: State<T>, actions: seq<Action<T>>): seq<Claim>
    requires Sized(s) && Executable(s, actions)
    decreases |actions|
  {
    if actions == [] then []
    else ConsumedBy(s, actions[0]) + Consumed(Apply(s, actions[0]), actions[1..])
  }

  function ConsumedBy<T>(s: State<T>, a: Action<T>): seq<Claim>
    requires Sized(s) && Enabled(s, a)
  {
    if a.Step? && a.swaps && s.threads[a.tid].DeqSwap? && s.threads[a.tid].pos == s.dequeuePos
    then [Claim(s.dequeuePos, a.tid)] else []
  }

  function Tids(claims: seq<Claim>): seq<nat> {
    seq(|claims|, i requires 0 <= i < |claims| => claims[i].tid)
  }

  lemma StepConsumes<T>(s: State<T>, a: Action<T>)
    requires Sized(s) && Enabled(s, a)
    ensures Apply(s, a).dequeuePos == s.dequeuePos + |ConsumedBy(s, a)|
    ensures Apply(s, a).h.reader == s.h.reader + Tids(ConsumedBy(s, a))
    ensures ConsumedBy(s, a) == [] || ConsumedBy(s, a) == [Claim(s.dequeuePos, a.tid)]
  {
    hide Slot, Accepted;
  }

  /** In every run the consumers claim the tickets in order, without leaving one out. */
  lemma {:induction false} TicketOrder<T>(s: State<T>, actions: seq<Action<T>>)
    requires Sized(s) && Executable(s, actions)
    ensures var claims, f := Consumed(s, actions), Final(s, actions);
      && f.dequeuePos == s.dequeuePos + |claims| && f.h.reader == s.h.reader + Tids(claims)
      && forall i :: 0 <= i < |claims| ==> claims[i].ticket == s.dequeuePos + i
    decreases |actions|
  {
    hide Apply, ConsumedBy, Enabled, Accepted;
    if actions != [] {
      var s' := Apply(s, actions[0]);
      StepConsumes(s, actions[0]);
      TicketOrder(s', actions[1..]);
      TidsJoined(ConsumedBy(s, actions[0]), Consumed(s', actions[1..]));
    }
  }

  lemma TidsJoined(a: seq<Claim>, b: seq<Claim>)
    ensures Tids(a + b) == Tids(a) + Tids(b)
  {
  }

  lemma StepDelivers<T>(s: State<T>, a: Action<T>)
    requires Inv(s) && Enabled(s, a)
    ensures forall t :: t in Apply(s, a).h.out <==> t in s.h.out || exists d :: d in DeliveryOf(s, a) && d.ticket == t
    ensures forall d :: d in DeliveryOf(s, a) ==> ReadBy(d, s.h.reader)
  {
    hide Slot, And;
    assert ThreadOk(s, a.tid);
    if a.Step? && s.threads[a.tid].DeqData? {
      var d := DeliveryOf(s, a)[0];
      assert d in DeliveryOf(s, a) && d.ticket == s.threads[a.tid].pos;
    }
  }

  ghost predicate HasTicket<T>(deliveries: seq<Delivery<T>>, t: nat) {
    exists i :: 0 <= i < |deliveries| && deliveries[i].ticket == t
  }

  lemma {:induction false} ReadFrom<T>(s: State<T>, actions: seq<Action<T>>)
    requires Inv(s) && Executable(s, actions)
    ensures var f, deliveries := Final(s, actions), Delivered(s, actions);
      && (forall t: nat :: t in f.h.out <==> t in s.h.out || HasTicket(deliveries, t))
      && s.h.reader <= f.h.reader && forall d :: d in deliveries ==> ReadBy(d, f.h.reader)
    decreases |actions|
  {
    hide Inv, Apply, DeliveryOf, ConsumedBy, Tids;
    ItemsCounted(s);
    if actions != [] {
      var a, s' := actions[0], Apply(s, actions[0]);
      StepInv(s, a);
      StepDelivers(s, a);
      StepConsumes(s, a);
      ReadFrom(s', actions[1..]);
      OneDelivery(s, a);
      var f, first, rest := Final(s', actions[1..]), DeliveryOf(s, a), Delivered(s', actions[1..]);
      TicketsJoined(first, rest);
      FirstReader(s.h.reader, s'.h.reader, f.h.reader, first);
      forall d | d in first + rest
        ensures ReadBy(d, f.h.reader)
      {
      }
    }
  }

  predicate ReadBy<T>(d: Delivery<T>, readers: seq<nat>) {
    d.ticket < |readers| && readers[d.ticket] == d.tid
  }

  lemma FirstReader<T>(first: seq<nat>, next: seq<nat>, last: seq<nat>, deliveries: seq<Delivery<T>>)
    requires first <= next <= last && forall d :: d in deliveries ==> ReadBy(d, first)
    ensures first <= last && forall d :: d in deliveries ==> ReadBy(d, last)
  {
    assert next[..|first|] == first && last[..|next|] == next;
  }

  lemma TicketsJoined<T>(a: seq<Delivery<T>>, b: seq<Delivery<T>>)
    ensures forall t: nat :: HasTicket(a + b, t) <==> HasTicket(a, t) || HasTicket(b, t)
    ensures forall t: nat :: HasTicket(a, t) <==> exists d :: d in a && d.ticket == t
  {
    forall t: nat
      ensures HasTicket(a + b, t) <==> HasTicket(a, t) || HasTicket(b, t)
    {
      if i :| 0 <= i < |a| && a[i].ticket == t {
        assert (a + b)[i].ticket == t;
      }
      if i :| 0 <= i < |b| && b[i].ticket == t {
        assert (a + b)[|a| + i].ticket == t;
      }
    }
  }

  /** First in, first out, in every run of a new queue: there are at most as many claims of consumers as of
      producers, the i-th is for the i-th item enqueued, and the thread that made it either has moved just
      that item out or is about to. */
  lemma FirstInFirstOut<T>(s: State<T>, actions: seq<Action<T>>)
    requires Initial(s) && Executable(s, actions)
    ensures var items, claims, deliveries, f :=
        Claimed(s, actions), Consumed(s, actions), Delivered(s, actions), Final(s, actions);
      && |claims| <= |items|
      && (forall i :: 0 <= i < |claims| ==> claims[i].ticket == i)
      && (forall d :: d in deliveries ==>
        d.ticket < |claims| && d == Delivery(d.ticket, claims[d.ticket].tid, items[d.ticket]))
      && forall i :: 0 <= i < |claims| ==>
        HasTicket(deliveries, i) || (claims[i].tid < |f.threads| && f.threads[claims[i].tid] == DeqData(i))
  {
    hide Inv, Apply, ClaimOf, DeliveryOf, ConsumedBy, HasTicket;
    InitialInv(s);
    RunInv(s, actions);
    DeliveredOnce(s, actions);
    DeliveredFrom(s, actions);
    TicketOrder(s, actions);
    ReadFrom(s, actions);
    var f, claims := Final(s, actions), Consumed(s, actions);
    ItemsCounted(f);
    assert f.h.reader == Tids(claims);
    forall d | d in Delivered(s, actions)
      ensures d.ticket < |claims| && d == Delivery(d.ticket, claims[d.ticket].tid, Claimed(s, actions)[d.ticket])
    {
      assert ReadBy(d, f.h.reader);
    }
    forall i | 0 <= i < |claims|
      ensures HasTicket(Delivered(s, actions), i) ||
        (claims[i].tid < |f.threads| && f.threads[claims[i].tid] == DeqData(i))
    {
      UnreadTicket(f, i);
    }
  }

  /** A ticket that a consumer has claimed and not read is being read by that consumer. */
  lemma UnreadTicket<T>(f: State<T>, t: nat)
    requires Inv(f) && t < f.dequeuePos
    ensures t < |f.h.reader|
    ensures t in f.h.out || (f.h.reader[t] < |f.threads| && f.threads[f.h.reader[t]] == DeqData(t))
    ensures f.dequeuePos <= f.enqueuePos
  {
    hide Slot, And;
    assert TicketOk(f, t);
    if t !in f.h.out {
      assert ThreadOk(f, f.h.reader[t]);
    }
  }

  function Position<T>(t: Thread<T>): nat
    requires Owner(t)
  {
    t.pos
  }

  /** At any time of any run, two threads that use a cell (to write its data, to publish, to read or
      to release) use different cells. */
  lemma SingleOwner<T>(s: State<T>, actions: seq<Action<T>>, a: nat, b: nat)
    requires Initial(s) && Executable(s, actions)
    requires a < |Final(s, actions).threads| && b < |Final(s, actions).threads| && a != b
    requires Owner(Final(s, actions).threads[a]) && Owner(Final(s, actions).threads[b])
    ensures Slot(Position(Final(s, actions).threads[a]), |Final(s, actions).cells|)
         != Slot(Position(Final(s, actions).threads[b]), |Final(s, actions).cells|)
  {
    hide Inv, Apply, Slot, And;
    InitialInv(s);
    RunInv(s, actions);
    OwnersApart(Final(s, actions), a, b);
  }

  lemma OwnersApart<T>(f: State<T>, a: nat, b: nat)
    requires Inv(f) && a < |f.threads| && b < |f.threads| && a != b
    requires Owner(f.threads[a]) && Owner(f.threads[b])
    ensures Slot(Position(f.threads[a]), |f.cells|) != Slot(Position(f.threads[b]), |f.cells|)
  {
    hide Slot, And;
    assert ThreadOk(f, a) && ThreadOk(f, b);
  }

  /** The life of a ticket. */
  datatype Phase = Unclaimed | BeingWritten | Published | BeingRead | Released

  function PhaseOf<T>(s: State<T>, t: nat): Phase
    requires Sized(s)
  {
    SlotInRange(t, |s.cells|);
    var i := Slot(t, |s.cells|);
    if t >= s.enqueuePos then Unclaimed
    else if s.h.turn[i] > t then Released
    else if !s.h.full[i] then BeingWritten
    else if t >= s.dequeuePos then Published
    else BeingRead
  }

  function Rank(p: Phase): nat {
    match p
    case Unclaimed => 0
    case BeingWritten => 1
    case Published => 2
    case BeingRead => 3
    case Released => 4
  }

  /** A step takes a ticket at most to its next phase, never back. */
  lemma PhaseAdvances<T>(s: State<T>, a: Action<T>, t: nat)
    requires Inv(s) && Enabled(s, a)
    ensures Rank(PhaseOf(s, t)) <= Rank(PhaseOf(Apply(s, a), t)) <= Rank(PhaseOf(s, t)) + 1
  {
    hide Slot, And;
    var i := Slot(t, |s.cells|);
    assert ThreadOk(s, a.tid) && CellOk(s, i);
    if t < s.enqueuePos {
      assert TicketOk(s, t);
    }
    match s.threads[a.tid]
    case EnqPublish(pos) =>
      assert TicketOk(s, pos);
    case DeqRelease(pos, item) =>
      assert TicketOk(s, pos);
    case _ =>
  }

  /** A ticket is being written, or read, exactly when one thread does so, which then is the only one. */
  lemma PhaseHasOwner<T>(s: State<T>, t: nat, tid: nat)
    requires Inv(s) && tid < |s.threads|
    ensures PhaseOf(s, t) == BeingWritten ==>
      ((s.threads[tid].EnqData? || s.threads[tid].EnqPublish?) && s.threads[tid].pos == t <==> tid == s.h.writer[t])
    ensures PhaseOf(s, t) == BeingRead ==>
      ((s.threads[tid].DeqData? || s.threads[tid].DeqRelease?) && s.threads[tid].pos == t <==> tid == s.h.reader[t])
    ensures Owner(s.threads[tid]) && s.threads[tid].pos == t ==> PhaseOf(s, t) in {BeingWritten, BeingRead}
  {
    hide Slot, And;
    assert ThreadOk(s, tid);
    if t < s.enqueuePos {
      assert TicketOk(s, t);
    }
  }

  /** The item of a published ticket stays in its cell until the consumer of the ticket moves it out. */
  lemma PublishedKept<T>(s: State<T>, a: Action<T>, t: nat)
    requires Inv(s) && Enabled(s, a) && PhaseOf(s, t) in {Published, BeingRead} && t !in s.h.out
    ensures s.cells[Slot(t, |s.cells|)].data == s.h.items[t]
    ensures var f := Apply(s, a);
      if s.threads[a.tid] == DeqData(t) then f.threads[a.tid] == DeqRelease(t, s.h.items[t])
      else f.cells[Slot(t, |s.cells|)] == s.cells[Slot(t, |s.cells|)] && t !in f.h.out
  {
    hide Slot, And;
    assert ThreadOk(s, a.tid) && TicketOk(s, t);
  }

  /** Unreleased tickets lie within one round: a released cell is the only way to a new ticket. */
  lemma WithinOneRound<T>(s: State<T>, t: nat)
    requires Inv(s) && t < s.enqueuePos && PhaseOf(s, t) != Released
    ensures s.enqueuePos <= t + |s.cells|
  {
    hide Slot, And;
    if s.enqueuePos > t + |s.cells| {
      SlotAfterRound(t, |s.cells|);
      TurnReached(s, t + |s.cells|);
      assert false;
    }
  }

  /** enqueue gives up only when, at its load of the sequence, its position is the current one and the
      ticket one round before is not yet released. */
  lemma EnqueueFails<T>(s: State<T>, tid: nat, swaps: bool, left: T)
    requires Inv(s) && tid < |s.threads| && s.threads[tid].EnqSeq?
    requires Apply(s, Step(tid, swaps, left)).threads[tid] == EnqReturned(false)
    ensures s.threads[tid].pos == s.enqueuePos >= |s.cells|
    ensures PhaseOf(s, s.enqueuePos - |s.cells|) in {Published, BeingRead, BeingWritten}
  {
    hide Slot, And;
    var pos, size := s.threads[tid].pos, |s.cells|;
    var i := Slot(pos, size);
    assert ThreadOk(s, tid) && CellOk(s, i);
    if pos < s.enqueuePos {
      TurnReached(s, pos);
      assert false;
    }
    var t := s.h.turn[i];
    SlotsApart(t, pos, size);
    if pos > t + size {
      SlotAfterRound(t, size);
      TurnReached(s, pos - size) by { SlotAfterRound(pos - size, size); }
    }
    SlotAfterRound(pos - size, size);
    TurnReached(s, pos - size);
  }

  /** dequeue gives up only when the next ticket is not published. */
  lemma DequeueFails<T>(s: State<T>, tid: nat, swaps: bool, left: T)
    requires Inv(s) && tid < |s.threads| && s.threads[tid].DeqSeq?
    requires Apply(s, Step(tid, swaps, left)).threads[tid] == DeqReturned(None)
    ensures s.threads[tid].pos == s.dequeuePos && PhaseOf(s, s.dequeuePos) in {Unclaimed, BeingWritten}
  {
    hide Slot, And;
    var pos := s.threads[tid].pos;
    var i := Slot(pos, |s.cells|);
    assert ThreadOk(s, tid) && CellOk(s, i);
    if pos < s.enqueuePos {
      assert TicketOk(s, pos);
    }
  }

  ghost predicate Quiet<T>(s: State<T>) {
    forall tid :: 0 <= tid < |s.threads| ==> Resting(s.threads[tid])
  }

  /** Between calls the queue is the sequence of items from dequeue_pos_ on, at most size long. */
  lemma QuietPhases<T>(s: State<T>, t: nat)
    requires Inv(s) && Quiet(s)
    ensures PhaseOf(s, t) == if t < s.dequeuePos then Released else if t < s.enqueuePos then Published else Unclaimed
    ensures s.enqueuePos - s.dequeuePos <= |s.cells|
  {
    hide Slot, And;
    if t < s.enqueuePos {
      assert TicketOk(s, t);
    }
    if s.dequeuePos < s.enqueuePos {
      assert TicketOk(s, s.dequeuePos);
      WithinOneRound(s, s.dequeuePos);
    }
  }

  /** A lone dequeue returns None exactly on the empty queue. */
  lemma QuietDequeue<T>(s: State<T>)
    requires Inv(s) && Quiet(s)
    ensures AfterDeqSeq<T>(s.dequeuePos, s.cells[Slot(s.dequeuePos, |s.cells|)].sequence) ==
      if s.dequeuePos == s.enqueuePos then DeqReturned(None) else DeqSwap(s.dequeuePos)
  {
    hide Slot, And;
    var i := Slot(s.dequeuePos, |s.cells|);
    QuietPhases(s, s.dequeuePos);
    assert CellOk(s, i);
    if s.dequeuePos < s.enqueuePos {
      assert TicketOk(s, s.dequeuePos);
    } else if s.h.full[i] {
      assert TicketOk(s, s.h.turn[i]);
    } else if s.h.turn[i] > s.dequeuePos {
      SlotsApart(s.dequeuePos, s.h.turn[i], |s.cells|);
    }
  }

  /** A lone enqueue is refused exactly on the full queue. */
  lemma QuietEnqueue<T>(s: State<T>, item: T)
    requires Inv(s) && Quiet(s)
    ensures AfterEnqSeq(item, s.enqueuePos, s.cells[Slot(s.enqueuePos, |s.cells|)].sequence) ==
      if s.enqueuePos - s.dequeuePos == |s.cells| then EnqReturned(false) else EnqSwap(item, s.enqueuePos)
  {
    hide Slot, And;
    var pos, size := s.enqueuePos, |s.cells|;
    var i := Slot(pos, size);
    assert CellOk(s, i);
    QuietPhases(s, pos);
    if pos >= size {
      SlotAfterRound(pos - size, size);
      assert TicketOk(s, pos - size);
      QuietPhases(s, pos - size);
    }
    var t := s.h.turn[i];
    if t < pos {
      SlotsApart(t, pos, size);
      assert pos >= size;
      assert t >= pos - size;
    } else if t > pos {
      SlotsApart(pos, t, size);
    }
  }

  /** approx_size: the loads of the two positions, clamped. */
  function ApproxSize(firstPos: nat, lastPos: nat, maxSize: nat): nat {
    if lastPos <= firstPos then 0
    else if lastPos - firstPos < maxSize then lastPos - firstPos
    else maxSize
  }

  /** Between calls approx_size is exact. */
  lemma QuietSize<T>(s: State<T>)
    requires Inv(s) && Quiet(s)
    ensures ApproxSize(s.dequeuePos, s.enqueuePos, |s.cells|) == s.enqueuePos - s.dequeuePos
  {
    QuietPhases(s, 0);
  }
}
