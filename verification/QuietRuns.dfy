/** Runs of the asynchronous logger in which one call after the other goes through the queue: what a lone push and a
    lone take do. */
module QuietRuns {
  import opened Wrappers
  import opened Mpmc
  import opened AsyncLog
  import MpmcRuns

  lemma {:induction false} RunsJoin(s: Helper, first: seq<Move>, second: seq<Move>)
    requires Sized(s.q) && CanRun(s, first) && CanRun(Run(s, first), second)
    ensures CanRun(s, first + second) && Run(s, first + second) == Run(Run(s, first), second)
    decreases |first|
  {
    hide Next, CanMove, Sized;
    if first == [] {
      assert first + second == second;
    } else {
      RunsJoin(Next(s, first[0]), first[1..], second);
      assert first + second == [first[0]] + (first[1..] + second);
      OneMove(s, first[0], first[1..] + second);
    }
  }

  /** No thread is inside a call of the queue. */
  ghost predicate Ready(s: Helper) {
    LogInv(s) && |s.todo| == |s.q.threads| >= 2 && MpmcRuns.Quiet(s.q)
  }

  predicate Room(s: Helper) {
    s.q.enqueuePos - s.q.dequeuePos < |s.q.cells|
  }

  /** u comes from s when thread tid is in the middle, or at the end, of pushing its next message. */
  ghost predicate Midway(s: Helper, u: Helper, tid: nat)
    requires |s.todo| == |s.q.threads|
  {
    && Sized(u.q) && tid < |s.todo| && s.todo[tid] != [] && u == s.(q := u.q, todo := u.todo)
    && |u.q.threads| == |s.q.threads| && u.q.threads == s.q.threads[tid := u.q.threads[tid]]
    && |u.q.cells| == |s.q.cells| && u.q.dequeuePos == s.q.dequeuePos
    && match u.q.threads[tid]
       case EnqPos(x) => Untouched(s, u) && x == s.todo[tid][0]
       case EnqSeq(x, pos) => Untouched(s, u) && x == s.todo[tid][0] && pos == s.q.enqueuePos
       case EnqSwap(x, pos) => Untouched(s, u) && x == s.todo[tid][0] && pos == s.q.enqueuePos && Room(s)
       case EnqData(_, _) => u.todo == s.todo && Enqueued(s, u, tid) && Room(s)
       case EnqPublish(_) => u.todo == s.todo && Enqueued(s, u, tid) && Room(s)
       case EnqReturned(ok) =>
         && u.todo == (if ok || s.policy.DiscardLogMsg? then s.todo[tid := s.todo[tid][1..]] else s.todo)
         && ok == Room(s)
         && if ok then Enqueued(s, u, tid) else u.q.h == s.q.h && u.q.enqueuePos == s.q.enqueuePos
       case _ => false
  }

  predicate Untouched(s: Helper, u: Helper) {
    u.todo == s.todo && u.q.cells == s.q.cells && u.q.h == s.q.h && u.q.enqueuePos == s.q.enqueuePos
  }

  predicate Enqueued(s: Helper, u: Helper, tid: nat)
    requires tid < |s.todo| && s.todo[tid] != []
  {
    && u.q.enqueuePos == s.q.enqueuePos + 1
    && u.q.h.items == s.q.h.items + [s.todo[tid][0]] && u.q.h.writer == s.q.h.writer + [tid]
  }

  function StepsLeft(t: Thread<Message>): nat {
    match t
    case EnqPos(_) => 5
    case EnqSeq(_, _) => 4
    case EnqSwap(_, _) => 3
    case EnqData(_, _) => 2
    case EnqPublish(_) => 1
    case _ => 0
  }

  function Onward(tid: nat): Move {
    Advance(tid, true, Flush, false)
  }

  /** The loads of enqueue_pos_ and of the sequence. */
  lemma MidwayLoad(s: Helper, u: Helper, tid: nat)
    requires Ready(s) && Midway(s, u, tid) && tid > 0 && (u.q.threads[tid].EnqPos? || u.q.threads[tid].EnqSeq?)
    ensures CanMove(u, Onward(tid)) && Midway(s, Next(u, Onward(tid)), tid)
    ensures StepsLeft(Next(u, Onward(tid)).q.threads[tid]) < StepsLeft(u.q.threads[tid])
  {
    InLogInv(s);
    hide LogInv, Inv, Slot, Accepted;
    MpmcRuns.QuietEnqueue(s.q, s.todo[tid][0]);
    MpmcRuns.QuietPhases(s.q, 0);
  }

  /** The exchange and the two stores. */
  lemma MidwayStore(s: Helper, u: Helper, tid: nat)
    requires Ready(s) && Midway(s, u, tid) && tid > 0
    requires u.q.threads[tid].EnqSwap? || u.q.threads[tid].EnqData? || u.q.threads[tid].EnqPublish?
    ensures CanMove(u, Onward(tid)) && Midway(s, Next(u, Onward(tid)), tid)
    ensures StepsLeft(Next(u, Onward(tid)).q.threads[tid]) < StepsLeft(u.q.threads[tid])
  {
    hide LogInv, Inv, Slot, Accepted;
  }

  lemma MidwayStep(s: Helper, u: Helper, tid: nat)
    requires Ready(s) && Midway(s, u, tid) && tid > 0 && !u.q.threads[tid].EnqReturned?
    ensures CanMove(u, Onward(tid)) && Midway(s, Next(u, Onward(tid)), tid)
    ensures StepsLeft(Next(u, Onward(tid)).q.threads[tid]) < StepsLeft(u.q.threads[tid])
  {
    hide CanMove, Next, StepsLeft, LogInv;
    if u.q.threads[tid].EnqPos? || u.q.threads[tid].EnqSeq? {
      MidwayLoad(s, u, tid);
    } else {
      MidwayStore(s, u, tid);
    }
  }

  lemma FinishPush(s: Helper, u: Helper, tid: nat) returns (moves: seq<Move>)
    requires Ready(s) && Midway(s, u, tid) && tid > 0
    ensures CanRun(u, moves) && Midway(s, Run(u, moves), tid) && Run(u, moves).q.threads[tid].EnqReturned?
    decreases StepsLeft(u.q.threads[tid])
  {
    hide LogInv, Next, CanMove, Sized;
    if u.q.threads[tid].EnqReturned? {
      moves := [];
    } else {
      MidwayStep(s, u, tid);
      var rest := FinishPush(s, Next(u, Onward(tid)), tid);
      OneMove(u, Onward(tid), rest);
      moves := [Onward(tid)] + rest;
    }
  }

  lemma PushOne(s: Helper, tid: nat) returns (moves: seq<Move>)
    requires Ready(s) && Sized(s.q) && CanMove(s, Push(tid))
    ensures CanRun(s, moves) && Midway(s, Run(s, moves), tid) && Run(s, moves).q.threads[tid].EnqReturned?
    ensures Ready(Run(s, moves))
  {
    hide LogInv, Accepted;
    var rest := FinishPush(s, Next(s, Push(tid)), tid);
    hide Next, CanMove;
    OneMove(s, Push(tid), rest);
    moves := [Push(tid)] + rest;
    RunKeeps(s, moves);
  }

  /** u comes from s when the worker is in the middle, or at the end, of taking the next message. */
  ghost predicate Midtake(s: Helper, u: Helper)
    requires |s.q.threads| > 0
  {
    && Sized(u.q) && s.q.dequeuePos < |s.q.h.items|
    && |u.q.threads| == |s.q.threads| && u.q.threads == s.q.threads[0 := u.q.threads[0]]
    && |u.q.cells| == |s.q.cells| && u.q.enqueuePos == s.q.enqueuePos
    && u.q.h.items == s.q.h.items && u.q.h.writer == s.q.h.writer
    && u.todo == s.todo && u.program == s.program && u.policy == s.policy && u.active == s.active
    && match u.q.threads[0]
       case DeqPos => Untaken(s, u)
       case DeqSeq(pos) => Untaken(s, u) && pos == s.q.dequeuePos
       case DeqSwap(pos) => Untaken(s, u) && pos == s.q.dequeuePos
       case DeqData(pos) => pos == s.q.dequeuePos && u == s.(q := u.q) && u.q.dequeuePos == s.q.dequeuePos + 1
       case DeqRelease(pos, _) => pos == s.q.dequeuePos && u == s.(q := u.q) && u.q.dequeuePos == s.q.dequeuePos + 1
       case DeqReturned(r) => r.Some? && u.q.dequeuePos == s.q.dequeuePos + 1 && u.trace == s.trace + [Took(r.value)]
       case _ => false
  }

  predicate Untaken(s: Helper, u: Helper) {
    u == s.(q := u.q) && u.q.cells == s.q.cells && u.q.dequeuePos == s.q.dequeuePos
  }

  function TakeStepsLeft(t: Thread<Message>): nat {
    match t
    case DeqPos => 5
    case DeqSeq(_) => 4
    case DeqSwap(_) => 3
    case DeqData(_) => 2
    case DeqRelease(_, _) => 1
    case _ => 0
  }

  /** The loads of dequeue_pos_ and of the sequence. */
  lemma MidtakeLoad(s: Helper, u: Helper)
    requires Ready(s) && Midtake(s, u) && (u.q.threads[0].DeqPos? || u.q.threads[0].DeqSeq?)
    ensures |u.todo| == |u.q.threads| >= 2 && CanMove(u, Onward(0)) && Midtake(s, Next(u, Onward(0)))
    ensures TakeStepsLeft(Next(u, Onward(0)).q.threads[0]) == TakeStepsLeft(u.q.threads[0]) - 1
  {
    InLogInv(s);
    hide LogInv, Inv, Slot, Accepted;
    MpmcRuns.QuietDequeue(s.q);
  }

  /** The exchange, the move out of the cell, and the store. */
  lemma MidtakeStore(s: Helper, u: Helper)
    requires Ready(s) && Midtake(s, u)
    requires u.q.threads[0].DeqSwap? || u.q.threads[0].DeqData? || u.q.threads[0].DeqRelease?
    ensures |u.todo| == |u.q.threads| >= 2 && CanMove(u, Onward(0)) && Midtake(s, Next(u, Onward(0)))
    ensures TakeStepsLeft(Next(u, Onward(0)).q.threads[0]) == TakeStepsLeft(u.q.threads[0]) - 1
  {
    hide LogInv, Inv, Slot, Accepted;
  }

  lemma MidtakeStep(s: Helper, u: Helper)
    requires Ready(s) && Midtake(s, u) && !u.q.threads[0].DeqReturned?
    ensures |u.todo| == |u.q.threads| >= 2 && CanMove(u, Onward(0)) && Midtake(s, Next(u, Onward(0)))
    ensures TakeStepsLeft(Next(u, Onward(0)).q.threads[0]) == TakeStepsLeft(u.q.threads[0]) - 1
  {
    hide CanMove, Next, TakeStepsLeft, LogInv;
    if u.q.threads[0].DeqPos? || u.q.threads[0].DeqSeq? {
      MidtakeLoad(s, u);
    } else {
      MidtakeStore(s, u);
    }
  }

  /** The worker goes on until that many steps are left. */
  lemma {:induction false} FinishTake(s: Helper, u: Helper, left: nat) returns (moves: seq<Move>)
    requires Ready(s) && Midtake(s, u) && left <= TakeStepsLeft(u.q.threads[0])
    ensures CanRun(u, moves) && Midtake(s, Run(u, moves)) && TakeStepsLeft(Run(u, moves).q.threads[0]) == left
    decreases TakeStepsLeft(u.q.threads[0])
  {
    hide LogInv, Next, CanMove, Sized;
    if TakeStepsLeft(u.q.threads[0]) == left {
      moves := [];
    } else {
      MidtakeStep(s, u);
      var rest := FinishTake(s, Next(u, Onward(0)), left);
      OneMove(u, Onward(0), rest);
      moves := [Onward(0)] + rest;
    }
  }

  /** The worker takes the next message, or stops with that many steps left. */
  lemma TakeOne(s: Helper, left: nat) returns (moves: seq<Move>)
    requires Ready(s) && Sized(s.q) && s.active && s.q.dequeuePos < |s.q.h.items| && left <= 5
    ensures CanRun(s, moves) && Midtake(s, Run(s, moves)) && TakeStepsLeft(Run(s, moves).q.threads[0]) == left
    ensures LogInv(Run(s, moves))
  {
    hide LogInv, Accepted;
    ReadyPoll(s);
    var rest := FinishTake(s, Next(s, Poll), left);
    hide Next, CanMove;
    OneMove(s, Poll, rest);
    moves := [Poll] + rest;
    RunKeeps(s, moves);
  }

  lemma ReadyPoll(s: Helper)
    requires Ready(s) && Sized(s.q) && s.active && s.q.dequeuePos < |s.q.h.items|
    ensures CanMove(s, Poll) && Midtake(s, Next(s, Poll)) && Next(s, Poll).q.threads[0] == DeqPos
  {
    WorkerNotFirst(s);
    hide LogInv;
  }

  lemma WorkerNotFirst(s: Helper)
    requires Ready(s)
    ensures Resting(s.q.threads[0])
  {
  }
}
