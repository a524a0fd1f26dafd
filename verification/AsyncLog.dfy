/** The asynchronous logger: producers push messages into the bounded queue, and one worker thread
    hands them to the sinks until it has seen the terminate message and an empty queue. Thread 0 is
    the worker, the last thread is the destructor, the others are producers. */
module AsyncLog {
  import opened Wrappers
  import opened Mpmc
  import MpmcRuns

  datatype Message = Log(level: nat, text: string) | Flush | Terminate

  /** What the worker does: it takes a message from the queue, which for a log message means that every
      sink is asked to filter and write it, and it flushes the sinks. */
  datatype Event = Took(m: Message) | Flushed

  datatype Policy = BlockRetry | DiscardLogMsg

  datatype Helper = Helper(
    q: State<Message>, policy: Policy, program: seq<seq<Message>>, todo: seq<seq<Message>>,
    flushRequested: bool, terminateRequested: bool, active: bool, trace: seq<Event>)

  /** A producer calls push_msg with its next message; the worker calls dequeue; a thread inside the
      queue takes its next atomic step. intervalElapsed says whether the worker finds the time for a
      periodic flush come. */
  datatype Move =
    | Push(tid: nat)
    | Poll
    | Advance(tid: nat, swaps: bool, left: Message, intervalElapsed: bool)

  predicate Finished(s: Helper, j: nat) {
    j < |s.todo| && j < |s.q.threads| && s.todo[j] == [] && Resting(s.q.threads[j])
  }

  predicate ProducersFinished(s: Helper) {
    forall j :: 1 <= j < |s.q.threads| - 1 ==> Finished(s, j)
  }

  predicate CanMove(s: Helper, a: Move) {
    && |s.todo| == |s.q.threads| >= 2
    && match a
       case Push(tid) =>
         && 1 <= tid < |s.todo| && Resting(s.q.threads[tid]) && s.todo[tid] != []
         && (tid == |s.todo| - 1 ==> ProducersFinished(s))
       case Poll => s.active && Resting(s.q.threads[0])
       case Advance(tid, _, _, _) => tid < |s.todo| && !Resting(s.q.threads[tid])
  }

  function Next(s: Helper, a: Move): (s': Helper)
    requires Sized(s.q) && CanMove(s, a)
    ensures Sized(s'.q)
  {
    match a
    case Push(tid) => s.(q := Apply(s.q, Enqueue(tid, s.todo[tid][0])))
    case Poll => s.(q := Apply(s.q, Dequeue(0)))
    case Advance(tid, swaps, left, intervalElapsed) =>
      var s' := s.(q := Apply(s.q, Step(tid, swaps, left)));
      if tid == 0 then WorkerReturns(s', intervalElapsed) else PushReturns(s', tid)
  }

  /** push_msg: a refused message is dropped or tried again. */
  function PushReturns(s: Helper, tid: nat): Helper
    requires tid < |s.todo| && tid < |s.q.threads|
  {
    var t := s.q.threads[tid];
    if t.EnqReturned? && (t.ok || s.policy.DiscardLogMsg?) && s.todo[tid] != []
    then s.(todo := s.todo[tid := s.todo[tid][1..]])
    else s
  }

  /** process_next_msg, once dequeue has returned. */
  function WorkerReturns(s: Helper, intervalElapsed: bool): Helper
    requires 0 < |s.q.threads|
  {
    match s.q.threads[0]
    case DeqReturned(Some(Flush)) => Take(s, Flush).(flushRequested := true)
    case DeqReturned(Some(Terminate)) => Take(s, Terminate).(flushRequested := true, terminateRequested := true)
    case DeqReturned(Some(m)) => Take(s, m)
    case DeqReturned(None) => HandleFlushInterval(s, intervalElapsed).(active := !s.terminateRequested)
    case _ => s
  }

  function Take(s: Helper, m: Message): Helper {
    s.(trace := s.trace + [Took(m)])
  }

  function HandleFlushInterval(s: Helper, intervalElapsed: bool): Helper {
    if s.flushRequested || intervalElapsed then s.(trace := s.trace + [Flushed], flushRequested := false) else s
  }

  /** A new logger: every producer is about to run its program, the destructor has the terminate message. */
  ghost predicate Started(s: Helper) {
    && Initial(s.q) && |s.program| == |s.q.threads| >= 2 && s.todo == s.program
    && s.program[0] == [] && s.program[|s.program| - 1] == [Terminate]
    && (forall j :: 1 <= j < |s.program| - 1 ==> Terminate !in s.program[j])
    && !s.flushRequested && !s.terminateRequested && s.active && s.trace == []
  }

  /** The messages the worker took. */
  function Taken(trace: seq<Event>): seq<Message> {
    if trace == [] then []
    else Taken(trace[..|trace| - 1]) + (if trace[|trace| - 1].Took? then [trace[|trace| - 1].m] else [])
  }

  /** A flush request was taken after the last flush. */
  predicate Pending(trace: seq<Event>) {
    trace != [] && match trace[|trace| - 1]
      case Flushed => false
      case Took(m) => !m.Log? || Pending(trace[..|trace| - 1])
  }

  /** The items among the first n that thread tid enqueued. */
  function ByWriter(items: seq<Message>, writer: seq<nat>, tid: nat, n: nat): seq<Message>
    requires n <= |items| && n <= |writer|
  {
    if n == 0 then []
    else ByWriter(items, writer, tid, n - 1) + (if writer[n - 1] == tid then [items[n - 1]] else [])
  }

  predicate WorkerThread(t: Thread<Message>) {
    t.Idle? || t.DeqPos? || t.DeqSeq? || t.DeqSwap? || t.DeqData? || t.DeqRelease? || t.DeqReturned?
  }

  predicate ProducerThread(t: Thread<Message>) {
    t.Idle? || t.EnqPos? || t.EnqSeq? || t.EnqSwap? || t.EnqData? || t.EnqPublish? || t.EnqReturned?
  }

  predicate Takes(t: Thread<Message>) {
    t.DeqData? || t.DeqRelease?
  }

  predicate Writes(t: Thread<Message>) {
    t.EnqData? || t.EnqPublish?
  }

  /** The number of messages the worker has handled. */
  function Handled(s: Helper): int
    requires 0 < |s.q.threads|
  {
    if Takes(s.q.threads[0]) then s.q.dequeuePos - 1 else s.q.dequeuePos
  }

  ghost predicate Roles(s: Helper) {
    && Inv(s.q) && |s.todo| == |s.program| == |s.q.threads| >= 2 && s.todo[0] == []
    && WorkerThread(s.q.threads[0])
    && (Takes(s.q.threads[0]) ==> s.q.threads[0].pos + 1 == s.q.dequeuePos)
    && forall j :: 1 <= j < |s.q.threads| ==> ProducerOk(s, j)
  }

  /** A thread inside enqueue carries the head of its list; under block_retry its enqueued items followed by
      the rest of its list are its program. */
  ghost predicate ProducerOk(s: Helper, j: nat)
    requires Inv(s.q)
  {
    && j < |s.q.threads| && j < |s.todo| && j < |s.program| && ProducerThread(s.q.threads[j])
    && (s.q.threads[j].EnqPos? || s.q.threads[j].EnqSeq? || s.q.threads[j].EnqSwap? ==>
      s.todo[j] != [] && s.q.threads[j].item == s.todo[j][0])
    && (Writes(s.q.threads[j]) ==>
      s.todo[j] != [] && s.q.threads[j].pos < |s.q.h.items| && s.q.h.items[s.q.threads[j].pos] == s.todo[j][0])
    && (s.policy.BlockRetry? ==>
      ByWriter(s.q.h.items, s.q.h.writer, j, s.q.enqueuePos) + Rest(s, j) == s.program[j])
  }

  function Rest(s: Helper, j: nat): seq<Message>
    requires j < |s.todo| && j < |s.q.threads|
  {
    if Writes(s.q.threads[j]) && s.todo[j] != [] then s.todo[j][1..] else s.todo[j]
  }

  /** Once the destructor has started, the producers are finished, and the terminate message is the last item. */
  ghost predicate Terminates(s: Helper)
    requires |s.todo| == |s.q.threads| >= 2
  {
    var d := |s.todo| - 1;
    && (s.todo[d] == [] || s.todo[d] == [Terminate])
    && (forall j :: 1 <= j < d ==> Terminate !in s.todo[j])
    && (s.q.threads[d] != Idle ==> ProducersFinished(s))
    && forall k :: 0 <= k < |s.q.h.items| && s.q.h.items[k] == Terminate ==>
      k == |s.q.h.items| - 1 && s.q.threads[d] != Idle && (Writes(s.q.threads[d]) || s.todo[d] == [])
  }

  ghost predicate WorkerOk(s: Helper)
    requires 0 < |s.q.threads|
  {
    var n := Handled(s);
    && 0 <= n <= |s.q.h.items| && Taken(s.trace) == s.q.h.items[..n] && s.flushRequested == Pending(s.trace)
    && (s.terminateRequested <==> exists k :: 0 <= k < n && s.q.h.items[k] == Terminate)
    && (s.active && s.terminateRequested ==> s.flushRequested)
    && (!s.active ==>
      && s.terminateRequested && Resting(s.q.threads[0])
      && s.trace != [] && s.trace[|s.trace| - 1] == Flushed)
  }

  ghost predicate LogInv(s: Helper) {
    Roles(s) && Terminates(s) && WorkerOk(s)
  }

  lemma {:induction false} ByWriterPrefix(items: seq<Message>, writer: seq<nat>, x: Message, y: nat, tid: nat, n: nat)
    requires n <= |items| && n <= |writer|
    ensures ByWriter(items + [x], writer + [y], tid, n) == ByWriter(items, writer, tid, n)
  {
    if n > 0 {
      ByWriterPrefix(items, writer, x, y, tid, n - 1);
    }
  }

  lemma StartedInv(s: Helper)
    requires Started(s)
    ensures LogInv(s)
  {
    InitialInv(s.q);
  }

  /** What a step inside enqueue does to the queue. */
  lemma ProducerStep(q: State<Message>, tid: nat, swaps: bool, left: Message) returns (t: Thread<Message>, claims: bool)
    requires Inv(q) && tid < |q.threads| && ProducerThread(q.threads[tid]) && !Resting(q.threads[tid])
    ensures claims ==> q.threads[tid].EnqSwap?
    ensures var q' := Apply(q, Step(tid, swaps, left));
      && Inv(q') && q'.threads == q.threads[tid := t] && q'.dequeuePos == q.dequeuePos && q'.h.out == q.h.out
      && q'.h.items == (if claims then q.h.items + [q.threads[tid].item] else q.h.items)
      && q'.h.writer == (if claims then q.h.writer + [tid] else q.h.writer)
      && (claims ==> t.EnqData? && t.item == q.threads[tid].item && t.pos == q.enqueuePos)
    ensures ProducerThread(t) && t != Idle && (t.EnqData? ==> claims)
    ensures t.EnqPos? || t.EnqSeq? || t.EnqSwap? ==>
      (q.threads[tid].EnqPos? || q.threads[tid].EnqSeq? || q.threads[tid].EnqSwap?) && t.item == q.threads[tid].item
    ensures t.EnqPublish? ==> q.threads[tid].EnqData? && t.pos == q.threads[tid].pos
    ensures t.EnqReturned? ==> if t.ok then q.threads[tid].EnqPublish? else q.threads[tid].EnqSeq?
  {
    hide Slot, Accepted, Inv;
    StepInv(q, Step(tid, swaps, left));
    InvSized(q);
    var q' := Apply(q, Step(tid, swaps, left));
    t := q'.threads[tid];
    claims := t.EnqData?;
  }

  lemma InvSized(q: State<Message>)
    requires Inv(q)
    ensures Shape(q)
  {
  }

  /** What a step inside dequeue does to the queue. */
  lemma WorkerStep(q: State<Message>, swaps: bool, left: Message) returns (t: Thread<Message>)
    requires Inv(q) && 0 < |q.threads| && WorkerThread(q.threads[0]) && !Resting(q.threads[0])
    ensures var q' := Apply(q, Step(0, swaps, left));
      && Inv(q') && q'.threads == q.threads[0 := t] && q'.h.items == q.h.items && q'.h.writer == q.h.writer
      && q'.enqueuePos == q.enqueuePos
      && q'.dequeuePos == (if t.DeqData? then q.dequeuePos + 1 else q.dequeuePos)
      && (t.DeqData? ==> t.pos == q.dequeuePos)
    ensures WorkerThread(t) && t != Idle && (t.DeqData? ==> q.threads[0].DeqSwap?)
    ensures t.DeqRelease? ==> q.threads[0] == DeqData(t.pos)
    ensures Takes(q.threads[0]) ==> t.DeqRelease? || t.DeqReturned?
    ensures t.DeqReturned? ==>
      if t.result == None then q.threads[0].DeqSeq?
      else q.threads[0].DeqRelease? && q.threads[0].pos < |q.h.items| && t.result.value == q.h.items[q.threads[0].pos]
  {
    hide Slot, Accepted;
    StepInv(q, Step(0, swaps, left));
    assert ThreadOk(q, 0);
    if q.threads[0].DeqRelease? {
      assert TicketOk(q, q.threads[0].pos);
    }
    var q' := Apply(q, Step(0, swaps, left));
    t := q'.threads[0];
  }

  lemma PushKeeps(s: Helper, tid: nat)
    requires LogInv(s) && CanMove(s, Push(tid))
    ensures LogInv(Next(s, Push(tid)))
  {
    hide Slot, Accepted, Inv, ByWriter, Taken, Pending;
    InvSized(s.q);
    StepInv(s.q, Enqueue(tid, s.todo[tid][0]));
    var s' := Next(s, Push(tid));
    assert ProducerOk(s, tid);
    forall j | 1 <= j < |s.q.threads|
      ensures ProducerOk(s', j)
    {
      assert ProducerOk(s, j);
    }
    assert Roles(s');
    assert !Finished(s, tid);
    forall j | 1 <= j < |s.todo| - 1
      ensures Finished(s, j) ==> Finished(s', j)
    {
    }
    assert Terminates(s');
    assert WorkerOk(s');
  }

  lemma PollKeeps(s: Helper)
    requires LogInv(s) && CanMove(s, Poll)
    ensures LogInv(Next(s, Poll))
  {
    hide Slot, Accepted, Inv, ByWriter, Taken, Pending;
    InvSized(s.q);
    StepInv(s.q, Dequeue(0));
    var s' := Next(s, Poll);
    forall j | 1 <= j < |s.q.threads|
      ensures ProducerOk(s', j)
    {
      assert ProducerOk(s, j);
    }
    assert Roles(s');
    forall j | 1 <= j < |s.todo| - 1
      ensures Finished(s, j) ==> Finished(s', j)
    {
    }
    assert Terminates(s');
    assert WorkerOk(s');
  }

  /** A producer's step, as far as the invariant looks at it. */
  ghost predicate ProducerMoved(s: Helper, s': Helper, tid: nat, t: Thread<Message>, claims: bool) {
    && Inv(s.q) && Inv(s'.q) && 0 < tid < |s.q.threads| == |s.todo| && s.todo[tid] != []
    && ProducerThread(s.q.threads[tid]) && !Resting(s.q.threads[tid]) && ProducerThread(t) && t != Idle
    && s'.q.threads == s.q.threads[tid := t] && s'.q.dequeuePos == s.q.dequeuePos
    && (claims ==>
      && s.q.threads[tid].EnqSwap? && t.EnqData?
      && t.item == s.q.threads[tid].item && t.pos == s.q.enqueuePos)
    && s'.q.h.items == (if claims then s.q.h.items + [s.q.threads[tid].item] else s.q.h.items)
    && s'.q.h.writer == (if claims then s.q.h.writer + [tid] else s.q.h.writer)
    && (t.EnqData? ==> claims)
    && (t.EnqPos? || t.EnqSeq? || t.EnqSwap? ==>
      && (s.q.threads[tid].EnqPos? || s.q.threads[tid].EnqSeq? || s.q.threads[tid].EnqSwap?)
      && t.item == s.q.threads[tid].item)
    && (t.EnqPublish? ==> s.q.threads[tid].EnqData? && t.pos == s.q.threads[tid].pos)
    && (t.EnqReturned? ==> if t.ok then s.q.threads[tid].EnqPublish? else s.q.threads[tid].EnqSeq?)
    && s' == s.(
      q := s'.q,
      todo := if t.EnqReturned? && (t.ok || s.policy.DiscardLogMsg?) then s.todo[tid := s.todo[tid][1..]] else s.todo)
  }

  lemma ProducerMoves(s: Helper, tid: nat, swaps: bool, left: Message, elapsed: bool)
    returns (t: Thread<Message>, claims: bool)
    requires LogInv(s) && CanMove(s, Advance(tid, swaps, left, elapsed)) && tid > 0
    ensures ProducerMoved(s, Next(s, Advance(tid, swaps, left, elapsed)), tid, t, claims)
  {
    hide Slot, Accepted, Inv, ByWriter, Taken, Pending, Apply;
    InvSized(s.q);
    assert ProducerOk(s, tid);
    t, claims := ProducerStep(s.q, tid, swaps, left);
    OwnerPosition(s.q, tid);
  }

  /** The position of a thread that writes is a ticket. */
  lemma OwnerPosition(q: State<Message>, tid: nat)
    requires Inv(q) && tid < |q.threads|
    ensures Writes(q.threads[tid]) ==> q.dequeuePos <= q.threads[tid].pos < |q.h.items|
    ensures Writes(q.threads[tid]) ==> q.h.writer[q.threads[tid].pos] == tid
  {
    hide Slot, Accepted;
    assert ThreadOk(q, tid);
    if Writes(q.threads[tid]) {
      assert TicketOk(q, q.threads[tid].pos);
    }
  }

  lemma ByWriterNext(items: seq<Message>, writer: seq<nat>, x: Message, y: nat, tid: nat)
    requires |items| == |writer|
    ensures ByWriter(items + [x], writer + [y], tid, |items| + 1) ==
      ByWriter(items, writer, tid, |items|) + if y == tid then [x] else []
  {
    ByWriterPrefix(items, writer, x, y, tid, |items|);
  }

  lemma ProducerProgram(s: Helper, s': Helper, tid: nat, t: Thread<Message>, claims: bool, j: nat)
    requires LogInv(s) && ProducerMoved(s, s', tid, t, claims) && 1 <= j < |s.q.threads| && s.policy.BlockRetry?
    ensures Shape(s'.q)
    ensures ByWriter(s'.q.h.items, s'.q.h.writer, j, s'.q.enqueuePos) + Rest(s', j) == s.program[j]
  {
    hide Inv, Terminates, WorkerOk, ByWriter;
    InvSized(s.q);
    InvSized(s'.q);
    assert ProducerOk(s, j) && ProducerOk(s, tid);
    if claims {
      ByWriterNext(s.q.h.items, s.q.h.writer, s.q.threads[tid].item, tid, j);
      Carried(ByWriter(s.q.h.items, s.q.h.writer, j, s.q.enqueuePos), Rest(s, j), s.program[j]);
    }
  }

  /** Moving the head of the rest to the end of the done part. */
  lemma Carried(done: seq<Message>, rest: seq<Message>, whole: seq<Message>)
    requires done + rest == whole
    ensures rest != [] ==> (done + [rest[0]]) + rest[1..] == whole
    ensures (done + []) + rest == whole
  {
    assert done + [] == done;
    if rest != [] {
      assert rest == [rest[0]] + rest[1..];
    }
  }

  lemma ProducerRoles(s: Helper, s': Helper, tid: nat, t: Thread<Message>, claims: bool)
    requires LogInv(s) && ProducerMoved(s, s', tid, t, claims)
    ensures Roles(s')
  {
    hide Inv, Terminates, WorkerOk, ByWriter, Rest;
    InvSized(s.q);
    InvSized(s'.q);
    forall j | 1 <= j < |s.q.threads|
      ensures ProducerOk(s', j)
    {
      assert ProducerOk(s, j);
      if s.policy.BlockRetry? {
        ProducerProgram(s, s', tid, t, claims, j);
      }
    }
  }

  lemma ProducerTerminates(s: Helper, s': Helper, tid: nat, t: Thread<Message>, claims: bool)
    requires LogInv(s) && ProducerMoved(s, s', tid, t, claims)
    ensures Terminates(s')
  {
    hide Inv, ByWriter, WorkerOk;
    InvSized(s.q);
    assert ProducerOk(s, tid);
    assert !Finished(s, tid);
    forall j | 1 <= j < |s.todo| - 1
      ensures Finished(s, j) ==> Finished(s', j)
    {
    }
  }

  lemma ProducerWorker(s: Helper, s': Helper, tid: nat, t: Thread<Message>, claims: bool)
    requires LogInv(s) && ProducerMoved(s, s', tid, t, claims)
    ensures WorkerOk(s')
  {
    hide Inv, ByWriter, Terminates, Taken, Pending;
    InvSized(s.q);
    var n := Handled(s);
    assert s'.q.h.items[..n] == s.q.h.items[..n];
    forall k | 0 <= k < n
      ensures s'.q.h.items[k] == s.q.h.items[k]
    {
    }
  }

  lemma ProducerKeeps(s: Helper, tid: nat, swaps: bool, left: Message, elapsed: bool)
    requires LogInv(s) && CanMove(s, Advance(tid, swaps, left, elapsed)) && tid > 0
    ensures LogInv(Next(s, Advance(tid, swaps, left, elapsed)))
  {
    hide Inv, Roles, Terminates, WorkerOk, ProducerMoved, Next;
    InLogInv(s);
    var t, claims := ProducerMoves(s, tid, swaps, left, elapsed);
    var s' := Next(s, Advance(tid, swaps, left, elapsed));
    ProducerRoles(s, s', tid, t, claims);
    ProducerTerminates(s, s', tid, t, claims);
    ProducerWorker(s, s', tid, t, claims);
  }

  lemma InLogInv(s: Helper)
    requires LogInv(s)
    ensures Inv(s.q) && Shape(s.q)
  {
  }

  /** A worker's step, as far as the invariant looks at it. */
  ghost predicate WorkerMoved(s: Helper, s': Helper, t: Thread<Message>, elapsed: bool) {
    && Inv(s.q) && Inv(s'.q) && 0 < |s.q.threads| && WorkerThread(s.q.threads[0]) && !Resting(s.q.threads[0])
    && s'.q.threads == s.q.threads[0 := t] && s'.q.h.items == s.q.h.items && s'.q.h.writer == s.q.h.writer
    && s'.q.enqueuePos == s.q.enqueuePos
    && s'.q.dequeuePos == (if t.DeqData? then s.q.dequeuePos + 1 else s.q.dequeuePos)
    && (t.DeqData? ==> t.pos == s.q.dequeuePos && s.q.threads[0].DeqSwap?)
    && WorkerThread(t) && t != Idle && (t.DeqRelease? ==> s.q.threads[0] == DeqData(t.pos))
    && (Takes(s.q.threads[0]) ==> t.DeqRelease? || t.DeqReturned?)
    && (t.DeqReturned? ==>
      if t.result == None then s.q.threads[0].DeqSeq?
      else (
        && s.q.threads[0].DeqRelease? && s.q.threads[0].pos < |s.q.h.items|
        && t.result.value == s.q.h.items[s.q.threads[0].pos]
      ))
    && s' == WorkerReturns(s.(q := s'.q), elapsed)
  }

  lemma WorkerMoves(s: Helper, swaps: bool, left: Message, elapsed: bool) returns (t: Thread<Message>)
    requires LogInv(s) && CanMove(s, Advance(0, swaps, left, elapsed))
    ensures WorkerMoved(s, Next(s, Advance(0, swaps, left, elapsed)), t, elapsed)
  {
    hide Slot, Accepted, Inv, ByWriter, Taken, Pending, Apply, Terminates, WorkerOk;
    InvSized(s.q);
    t := WorkerStep(s.q, swaps, left);
  }

  lemma WorkerRoles(s: Helper, s': Helper, t: Thread<Message>, elapsed: bool)
    requires LogInv(s) && WorkerMoved(s, s', t, elapsed)
    ensures Roles(s')
  {
    hide Inv, WorkerOk, ByWriter, Terminates;
    InvSized(s.q);
    InvSized(s'.q);
    WorkerFrame(s, s', t, elapsed);
    hide WorkerReturns;
    forall j | 1 <= j < |s.q.threads|
      ensures ProducerOk(s', j)
    {
      assert ProducerOk(s, j);
    }
  }

  lemma WorkerFrame(s: Helper, s': Helper, t: Thread<Message>, elapsed: bool)
    requires WorkerMoved(s, s', t, elapsed)
    ensures s'.todo == s.todo && s'.program == s.program && s'.policy == s.policy
  {
    hide Inv;
  }

  lemma WorkerTerminates(s: Helper, s': Helper, t: Thread<Message>, elapsed: bool)
    requires LogInv(s) && WorkerMoved(s, s', t, elapsed)
    ensures |s'.todo| == |s'.q.threads| >= 2 && Terminates(s')
  {
    hide Inv, WorkerOk, ByWriter;
    InvSized(s.q);
    WorkerFrame(s, s', t, elapsed);
    hide WorkerReturns;
    forall j | 1 <= j < |s.todo| - 1
      ensures Finished(s, j) ==> Finished(s', j)
    {
    }
  }

  lemma OneMoreEvent(trace: seq<Event>, e: Event)
    ensures Taken(trace + [e]) == Taken(trace) + (if e.Took? then [e.m] else [])
    ensures Pending(trace + [e]) == (e.Took? && (!e.m.Log? || Pending(trace)))
  {
    assert (trace + [e])[..|trace|] == trace;
  }

  lemma WorkerTakes(s: Helper, s': Helper, t: Thread<Message>, elapsed: bool)
    requires LogInv(s) && WorkerMoved(s, s', t, elapsed)
    ensures WorkerOk(s')
  {
    hide Inv, ByWriter, Terminates, Taken, Pending;
    InvSized(s.q);
    InvSized(s'.q);
    if t.DeqReturned? && t.result != None {
      TakesMessage(s, s', t, elapsed);
    } else if t.DeqReturned? {
      FindsEmpty(s, s', t, elapsed);
    }
  }

  lemma TakesMessage(s: Helper, s': Helper, t: Thread<Message>, elapsed: bool)
    requires LogInv(s) && WorkerMoved(s, s', t, elapsed) && t.DeqReturned? && t.result != None
    ensures WorkerOk(s')
  {
    hide Inv, ByWriter, Terminates, Taken, Pending, ProducerOk;
    InvSized(s.q);
    var n, items := Handled(s), s.q.h.items;
    assert Handled(s') == n + 1 && t.result.value == items[n];
    assert items[..n + 1] == items[..n] + [items[n]];
    OneMoreEvent(s.trace, Took(items[n]));
    assert s'.trace == s.trace + [Took(items[n])];
  }

  lemma FindsEmpty(s: Helper, s': Helper, t: Thread<Message>, elapsed: bool)
    requires LogInv(s) && WorkerMoved(s, s', t, elapsed) && t == DeqReturned(None)
    ensures WorkerOk(s')
  {
    hide Inv, ByWriter, Terminates, Taken, Pending, ProducerOk;
    InvSized(s.q);
    OneMoreEvent(s.trace, Flushed);
    assert Taken(s.trace) + [] == Taken(s.trace);
    assert s'.trace == s.trace || s'.trace == s.trace + [Flushed];
  }

  lemma NextConstants(s: Helper, a: Move)
    requires Sized(s.q) && CanMove(s, a)
    ensures Next(s, a).program == s.program && Next(s, a).policy == s.policy
  {
    hide Apply, Accepted;
  }

  /** Every move keeps the invariant. */
  lemma MoveKeeps(s: Helper, a: Move)
    requires LogInv(s) && CanMove(s, a)
    ensures Sized(s.q) && LogInv(Next(s, a)) && Next(s, a).program == s.program && Next(s, a).policy == s.policy
  {
    InLogInv(s);
    NextConstants(s, a);
    hide Inv, Roles, Terminates, WorkerOk, WorkerMoved, Next;
    match a
    case Push(tid) => PushKeeps(s, tid);
    case Poll => PollKeeps(s);
    case Advance(tid, swaps, left, elapsed) =>
      if tid > 0 {
        ProducerKeeps(s, tid, swaps, left, elapsed);
      } else {
        var t := WorkerMoves(s, swaps, left, elapsed);
        var s' := Next(s, a);
        WorkerRoles(s, s', t, elapsed);
        WorkerTerminates(s, s', t, elapsed);
        WorkerTakes(s, s', t, elapsed);
      }
  }

  predicate CanRun(s: Helper, moves: seq<Move>)
    requires Sized(s.q)
    decreases |moves|
  {
    moves == [] || (CanMove(s, moves[0]) && CanRun(Next(s, moves[0]), moves[1..]))
  }

  function Run(s: Helper, moves: seq<Move>): (f: Helper)
    requires Sized(s.q) && CanRun(s, moves)
    ensures Sized(f.q)
    decreases |moves|
  {
    if moves == [] then s else Run(Next(s, moves[0]), moves[1..])
  }

  lemma {:induction false} RunKeeps(s: Helper, moves: seq<Move>)
    requires LogInv(s) && Sized(s.q) && CanRun(s, moves)
    ensures LogInv(Run(s, moves)) && Run(s, moves).program == s.program && Run(s, moves).policy == s.policy
    decreases |moves|
  {
    hide LogInv, Apply, Next, CanMove;
    if moves != [] {
      MoveKeeps(s, moves[0]);
      RunKeeps(Next(s, moves[0]), moves[1..]);
    }
  }

  /** When the worker has left its loop: the queue is empty and stays so, the worker took every item in
      queue order, and its last act was a flush of the sinks. Under block_retry every producer's items
      are its whole program, in order. */
  lemma WorkerExit(s: Helper, moves: seq<Move>)
    requires Started(s) && CanRun(s, moves) && !Run(s, moves).active
    ensures var f := Run(s, moves); Shape(f.q) && Taken(f.trace) == f.q.h.items && f.q.dequeuePos == f.q.enqueuePos
    ensures var f := Run(s, moves); f.trace != [] && f.trace[|f.trace| - 1] == Flushed
    ensures var f := Run(s, moves); forall j :: 1 <= j < |f.q.threads| ==> Finished(f, j)
    ensures var f := Run(s, moves); |s.program| == |f.q.threads|
    ensures var f := Run(s, moves); s.policy.BlockRetry? ==>
      forall j :: 1 <= j < |s.program| ==> ByWriter(f.q.h.items, f.q.h.writer, j, f.q.enqueuePos) == s.program[j]
  {
    hide Apply, Inv, Next, Taken, Pending, ByWriter, CanRun, Run;
    StartedInv(s);
    RunKeeps(s, moves);
    var f := Run(s, moves);
    InLogInv(f);
    var items, d := f.q.h.items, |f.todo| - 1;
    var k :| 0 <= k < Handled(f) && items[k] == Terminate;
    assert k == |items| - 1 && items[..Handled(f)] == items;
    OwnerPosition(f.q, d);
    assert ProducerOk(f, d);
    forall j | 1 <= j < |f.q.threads|
      ensures Finished(f, j)
    {
    }
    if s.policy.BlockRetry? {
      forall j | 1 <= j < |f.q.threads|
        ensures ByWriter(items, f.q.h.writer, j, f.q.enqueuePos) == f.program[j]
      {
        assert ProducerOk(f, j) && Finished(f, j);
        var own := ByWriter(items, f.q.h.writer, j, f.q.enqueuePos);
        assert own + [] == own;
      }
    }
  }

  /** The destructor has given its terminate message up without enqueuing it. */
  ghost predicate TerminateLost(s: Helper)
    requires |s.todo| == |s.q.threads| >= 2
  {
    && Finished(s, |s.todo| - 1)
    && forall k :: 0 <= k < |s.q.h.items| ==> s.q.h.items[k] != Terminate
  }

  /** Under discard_log_msg a terminate message refused by the full queue is lost. */
  lemma RefusedTerminateIsLost(s: Helper, swaps: bool, left: Message, elapsed: bool)
    requires LogInv(s) && s.policy.DiscardLogMsg? && CanMove(s, Advance(|s.todo| - 1, swaps, left, elapsed))
    requires Apply(s.q, Step(|s.todo| - 1, swaps, left)).threads[|s.todo| - 1] == EnqReturned(false)
    ensures Sized(s.q) && |Next(s, Advance(|s.todo| - 1, swaps, left, elapsed)).todo| == |s.q.threads|
    ensures TerminateLost(Next(s, Advance(|s.todo| - 1, swaps, left, elapsed)))
  {
    hide Inv, ByWriter, Taken, Pending, Apply;
    var d := |s.todo| - 1;
    InvSized(s.q);
    assert ProducerOk(s, d);
    var t, claims := ProducerMoves(s, d, swaps, left, elapsed);
  }

  lemma LostStays(s: Helper, a: Move)
    requires LogInv(s) && TerminateLost(s) && CanMove(s, a)
    ensures Sized(s.q) && LogInv(Next(s, a)) && TerminateLost(Next(s, a))
  {
    hide Inv, ByWriter, Taken, Pending, Apply;
    InvSized(s.q);
    MoveKeeps(s, a);
    match a
    case Push(tid) => PushQueue(s, tid);
    case Poll => PollQueue(s);
    case Advance(tid, swaps, left, elapsed) =>
      if tid > 0 {
        assert ProducerOk(s, tid);
        var t, claims := ProducerMoves(s, tid, swaps, left, elapsed);
      } else {
        var t := WorkerMoves(s, swaps, left, elapsed);
      }
  }

  lemma PushQueue(s: Helper, tid: nat)
    requires Sized(s.q) && CanMove(s, Push(tid))
    ensures Next(s, Push(tid)).q.h == s.q.h && Next(s, Push(tid)).todo == s.todo
    ensures forall j :: 0 <= j < |s.todo| && j != tid ==> Next(s, Push(tid)).q.threads[j] == s.q.threads[j]
  {
  }

  lemma PollQueue(s: Helper)
    requires Sized(s.q) && CanMove(s, Poll)
    ensures Next(s, Poll).q.h == s.q.h && Next(s, Poll).todo == s.todo
    ensures forall j :: 0 < j < |s.todo| ==> Next(s, Poll).q.threads[j] == s.q.threads[j]
  {
  }

  /** Then the worker never leaves its loop, and the join of the destructor never returns. */
  lemma {:induction false} LostForever(s: Helper, moves: seq<Move>)
    requires LogInv(s) && TerminateLost(s) && Sized(s.q) && CanRun(s, moves)
    ensures Run(s, moves).active
    decreases |moves|
  {
    hide Inv, Apply, Next, Roles, Terminates;
    if moves != [] {
      LostStays(s, moves[0]);
      LostForever(Next(s, moves[0]), moves[1..]);
    }
  }

  /** Under block_retry the terminate message is never lost. */
  lemma RetryKeepsTerminate(s: Helper, moves: seq<Move>)
    requires Started(s) && CanRun(s, moves) && s.policy.BlockRetry?
    ensures |Run(s, moves).todo| == |Run(s, moves).q.threads| >= 2 && !TerminateLost(Run(s, moves))
  {
    hide Inv, Apply, Next, Run, CanRun, Taken, Pending;
    StartedInv(s);
    RunKeeps(s, moves);
    var f := Run(s, moves);
    var d := |f.todo| - 1;
    InLogInv(f);
    if TerminateLost(f) {
      assert ProducerOk(f, d);
      assert ByWriter(f.q.h.items, f.q.h.writer, d, f.q.enqueuePos) == [Terminate];
      WriterItems(f.q.h.items, f.q.h.writer, d, f.q.enqueuePos);
      assert false;
    }
  }

  lemma {:induction false} WriterItems(items: seq<Message>, writer: seq<nat>, tid: nat, n: nat)
    requires n <= |items| && n <= |writer|
    requires forall k :: 0 <= k < n ==> items[k] != Terminate
    ensures Terminate !in ByWriter(items, writer, tid, n)
  {
    if n > 0 {
      WriterItems(items, writer, tid, n - 1);
    }
  }

  lemma {:induction false} OneMove(s: Helper, a: Move, rest: seq<Move>)
    requires Sized(s.q) && CanMove(s, a) && CanRun(Next(s, a), rest)
    ensures CanRun(s, [a] + rest) && Run(s, [a] + rest) == Run(Next(s, a), rest)
  {
    assert ([a] + rest)[1..] == rest;
  }
}
