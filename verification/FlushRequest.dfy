/** What a producer that calls flush(true) of the asynchronous logger has got when the call returns. */
module FlushRequest {
  import opened Wrappers
  import opened Mpmc
  import opened AsyncLog
  import opened QuietRuns
  import opened FlushWait
  import LostTerminate
  import MpmcRuns

  /** The last ticket that thread j claimed, or -1. */
  function LastTicket(writer: seq<nat>, j: nat): (k: int)
    ensures -1 <= k < |writer| && (k >= 0 ==> writer[k] == j) && forall i :: k < i < |writer| ==> writer[i] != j
  {
    if writer == [] then -1
    else if writer[|writer| - 1] == j then |writer| - 1
    else LastTicket(writer[..|writer| - 1], j)
  }

  /** The message of the last push_msg of thread j that has returned. */
  function LastPushed(s: Helper, j: nat): Message
    requires j < |s.todo| && j < |s.program| && |s.todo[j]| < |s.program[j]|
  {
    s.program[j][|s.program[j]| - |s.todo[j]| - 1]
  }

  /** A thread works off its program, and the last ticket of a thread belongs to the message that it writes or
      has just enqueued. */
  ghost predicate LastOk(s: Helper, j: nat)
    requires j < |s.todo| == |s.program| == |s.q.threads| && |s.q.h.items| == |s.q.h.writer|
  {
    var k := LastTicket(s.q.h.writer, j);
    && |s.todo[j]| <= |s.program[j]| && s.todo[j] == s.program[j][|s.program[j]| - |s.todo[j]|..]
    && (Writes(s.q.threads[j]) ==> k == s.q.threads[j].pos)
    && (s.q.threads[j] == EnqReturned(true) ==>
      |s.todo[j]| < |s.program[j]| && k >= 0 && s.q.h.items[k] == LastPushed(s, j))
  }

  ghost predicate Sizes(s: Helper) {
    |s.todo| == |s.program| == |s.q.threads| >= 2 && |s.q.h.items| == |s.q.h.writer|
  }

  ghost predicate AllLast(s: Helper) {
    LogInv(s) && Sizes(s) && forall j :: 1 <= j < |s.todo| ==> LastOk(s, j)
  }

  lemma AllSizes(s: Helper)
    requires LogInv(s)
    ensures Sizes(s) && Sized(s.q)
  {
    InLogInv(s);
  }

  lemma StartLast(s: Helper)
    requires Started(s)
    ensures AllLast(s)
  {
    StartedInv(s);
    AllSizes(s);
    hide LogInv;
  }

  lemma SameLast(s: Helper, s': Helper, j: nat)
    requires Sizes(s) && j < |s.todo| && LastOk(s, j) && s'.todo == s.todo && s'.program == s.program
    requires |s'.q.threads| == |s.q.threads| && s'.q.h.items == s.q.h.items && s'.q.h.writer == s.q.h.writer
    requires s'.q.threads[j] == s.q.threads[j] ||
      (!Writes(s'.q.threads[j]) && !s'.q.threads[j].EnqReturned?)
    ensures Sizes(s') && LastOk(s', j)
  {
    hide LastTicket;
  }

  lemma StillLast(s: Helper, a: Move, j: nat)
    requires AllLast(s) && CanMove(s, a) && !a.Advance? && 1 <= j < |s.todo|
    ensures Sized(s.q) && Sizes(Next(s, a)) && |Next(s, a).todo| == |s.todo| && LastOk(Next(s, a), j)
  {
    hide LogInv, LastOk, Next, CanMove;
    AllSizes(s);
    LostTerminate.StillQueue(s, a);
    SameLast(s, Next(s, a), j);
  }

  lemma WorkerLast(s: Helper, a: Move, j: nat)
    requires AllLast(s) && CanMove(s, a) && a.Advance? && a.tid == 0 && 1 <= j < |s.todo|
    ensures Sized(s.q) && Sizes(Next(s, a)) && |Next(s, a).todo| == |s.todo| && LastOk(Next(s, a), j)
  {
    hide LogInv, LastOk, Next, CanMove, WorkerMoved;
    AllSizes(s);
    var t := WorkerMoves(s, a.swaps, a.left, a.intervalElapsed);
    WorkerFrame(s, Next(s, a), t, a.intervalElapsed);
    WorkerOnly(s, Next(s, a), t, a.intervalElapsed);
    SameLast(s, Next(s, a), j);
  }

  lemma WorkerOnly(s: Helper, s': Helper, t: Thread<Message>, elapsed: bool)
    requires WorkerMoved(s, s', t, elapsed)
    ensures s'.q.threads == s.q.threads[0 := t] && s'.q.h.items == s.q.h.items && s'.q.h.writer == s.q.h.writer
  {
    hide Inv, WorkerReturns;
  }

  lemma NextTicket(writer: seq<nat>, y: nat, j: nat)
    ensures LastTicket(writer + [y], j) == if y == j then |writer| else LastTicket(writer, j)
  {
    assert (writer + [y])[..|writer|] == writer;
  }

  lemma ProducerLast(s: Helper, a: Move, j: nat)
    requires AllLast(s) && CanMove(s, a) && a.Advance? && a.tid > 0 && 1 <= j < |s.todo|
    ensures Sized(s.q) && Sizes(Next(s, a)) && |Next(s, a).todo| == |s.todo| && LastOk(Next(s, a), j)
  {
    AllSizes(s);
    hide LogInv, LastOk, Next, CanMove, ProducerMoved;
    var t, claims := ProducerMoves(s, a.tid, a.swaps, a.left, a.intervalElapsed);
    ProducerMovedLast(s, Next(s, a), a.tid, t, claims, j);
  }

  lemma ProducerMovedLast(s: Helper, s': Helper, tid: nat, t: Thread<Message>, claims: bool, j: nat)
    requires AllLast(s) && ProducerMoved(s, s', tid, t, claims) && 1 <= j < |s.todo|
    ensures Sizes(s') && |s'.todo| == |s.todo| && LastOk(s', j)
  {
    hide LogInv, Inv, LastTicket;
    NextTicket(s.q.h.writer, tid, j);
    assert LastOk(s, j);
    if j == tid {
      WrittenHead(s, tid);
      OwnLast(s, s', tid, t, claims);
    }
  }

  lemma OwnLast(s: Helper, s': Helper, tid: nat, t: Thread<Message>, claims: bool)
    requires Sizes(s) && 1 <= tid < |s.todo| && LastOk(s, tid) && ProducerMoved(s, s', tid, t, claims)
    requires |s.q.h.items| == s.q.enqueuePos && LastTicket(s.q.h.writer + [tid], tid) == |s.q.h.writer|
    requires Writes(s.q.threads[tid]) ==>
      && s.todo[tid] != [] && s.q.threads[tid].pos < |s.q.h.items|
      && s.q.h.items[s.q.threads[tid].pos] == s.todo[tid][0]
    ensures Sizes(s') && LastOk(s', tid)
  {
    hide Inv, LastTicket;
    if claims {
      assert Sizes(s') && s'.todo == s.todo;
    } else if t.EnqReturned? {
      assert Sizes(s') && s'.q.h.writer == s.q.h.writer;
    }
  }

  /** A thread that writes has enqueued the head of its list. */
  lemma WrittenHead(s: Helper, tid: nat)
    requires LogInv(s) && 1 <= tid < |s.q.threads|
    ensures Writes(s.q.threads[tid]) ==>
      && tid < |s.todo| && s.todo[tid] != [] && s.q.threads[tid].pos < |s.q.h.items|
      && s.q.h.items[s.q.threads[tid].pos] == s.todo[tid][0]
    ensures |s.q.h.items| == s.q.enqueuePos
  {
    InLogInv(s);
    hide Inv;
    assert ProducerOk(s, tid);
  }

  lemma MoveLast(s: Helper, a: Move)
    requires AllLast(s) && CanMove(s, a)
    ensures Sized(s.q) && AllLast(Next(s, a))
  {
    hide LogInv, LastOk, Next, CanMove;
    AllSizes(s);
    MoveKeeps(s, a);
    AllSizes(Next(s, a));
    forall j | 1 <= j < |Next(s, a).todo|
      ensures LastOk(Next(s, a), j)
    {
      MoveLastOf(s, a, j);
    }
  }

  lemma MoveLastOf(s: Helper, a: Move, j: nat)
    requires AllLast(s) && CanMove(s, a) && Sized(s.q) && 1 <= j < |Next(s, a).todo|
    ensures Sizes(Next(s, a)) && LastOk(Next(s, a), j)
  {
    SameCount(s, a);
    hide *;
    if !a.Advance? {
      StillLast(s, a, j);
    } else if a.tid == 0 {
      WorkerLast(s, a, j);
    } else {
      ProducerLast(s, a, j);
    }
  }

  lemma SameCount(s: Helper, a: Move)
    requires Sized(s.q) && CanMove(s, a)
    ensures |Next(s, a).todo| == |s.todo|
  {
    hide Apply;
  }

  lemma {:induction false} RunLast(s: Helper, moves: seq<Move>)
    requires AllLast(s) && Sized(s.q) && CanRun(s, moves)
    ensures AllLast(Run(s, moves))
    decreases |moves|
  {
    hide AllLast, Next, CanMove;
    if moves != [] {
      MoveLast(s, moves[0]);
      RunLast(Next(s, moves[0]), moves[1..]);
    }
  }

  /** The last push_msg of producer j has returned, its message was a flush request, and approx_size() is 0: a
      call of flush(true) returns. A push refused under block_retry has not returned. */
  predicate FlushReturns(s: Helper, j: nat) {
    && 1 <= j < |s.todo| == |s.program| == |s.q.threads|
    && s.q.threads[j].EnqReturned? && (s.q.threads[j].ok || s.policy.DiscardLogMsg?)
    && |s.todo[j]| < |s.program[j]| && LastPushed(s, j) == Flush
    && MpmcRuns.ApproxSize(s.q.dequeuePos, s.q.enqueuePos, |s.q.cells|) == 0
  }

  /** The request of that call is enqueued and taken, and the sinks were flushed after it. */
  ghost predicate Processed(s: Helper, j: nat)
    requires j < |s.q.threads| && s.q.threads[j].EnqReturned?
  {
    && s.q.threads[j].ok
    && var k := LastTicket(s.q.h.writer, j);
    k >= 0 && Followed(s.trace, k)
  }

  /** The number of messages taken since the last flush of the sinks. */
  function Unflushed(trace: seq<Event>): nat {
    if trace == [] || trace[|trace| - 1].Flushed? then 0 else 1 + Unflushed(trace[..|trace| - 1])
  }

  lemma {:induction false} FollowedCount(trace: seq<Event>, k: nat)
    ensures Followed(trace, k) <==> k < |Taken(trace)| - Unflushed(trace)
  {
    if trace != [] {
      var p, e := trace[..|trace| - 1], trace[|trace| - 1];
      assert trace == p + [e];
      FollowedCount(p, k);
      OneMoreEvent(p, e);
      FollowedOneMore(p, e, k);
      hide Taken, Followed;
      UnflushedLess(p);
    }
  }

  lemma {:induction false} UnflushedLess(trace: seq<Event>)
    ensures Unflushed(trace) <= |Taken(trace)|
  {
    if trace != [] {
      UnflushedLess(trace[..|trace| - 1]);
    }
  }

  /** The worker is in the middle of dequeuing ticket k. */
  predicate BeingTaken(s: Helper, k: int)
    requires |s.q.threads| > 0
  {
    Takes(s.q.threads[0]) && s.q.threads[0].pos == k
  }

  /** The worker has taken ticket k, and has not flushed the sinks since. */
  predicate AwaitsFlush(s: Helper, k: int) {
    s.flushRequested && |Taken(s.trace)| - Unflushed(s.trace) <= k < |Taken(s.trace)|
  }

  /** The last request among the items. */
  predicate LastRequest(items: seq<Message>, k: int) {
    0 <= k < |items| && Requests(items[k]) && forall i :: k < i < |items| ==> !Requests(items[i])
  }

  lemma FoundReturned(s: Helper, moves: seq<Move>, j: nat)
    requires Started(s) && CanRun(s, moves) && FlushReturns(Run(s, moves), j)
    ensures var f := Run(s, moves); LogInv(f) && Sizes(f) && LastOk(f, j)
    ensures Run(s, moves).program == s.program && Run(s, moves).policy == s.policy
  {
    hide LogInv, Run, CanRun, LastOk;
    StartLast(s);
    AllSizes(s);
    RunLast(s, moves);
    RunKeeps(s, moves);
  }

  /** Where the items and the worker are when approx_size() is 0. */
  lemma AllClaimed(f: Helper)
    requires LogInv(f) && MpmcRuns.ApproxSize(f.q.dequeuePos, f.q.enqueuePos, |f.q.cells|) == 0
    ensures |f.q.threads| > 0 && Shape(f.q)
    ensures |Taken(f.trace)| == |f.q.h.items| - if Takes(f.q.threads[0]) then 1 else 0
    ensures Takes(f.q.threads[0]) ==> f.q.threads[0].pos == |Taken(f.trace)|
    ensures forall i :: 0 <= i < |Taken(f.trace)| ==> Taken(f.trace)[i] == f.q.h.items[i]
    ensures f.flushRequested == Pending(f.trace)
  {
    InLogInv(f);
    hide Inv, Taken, Pending, ByWriter;
  }

  /** What flush(true) of a producer has achieved when it returns. Its request is processed unless it was refused
      by the full queue, which happens only under discard_log_msg, or the worker is in the middle of dequeuing it,
      or has not flushed the sinks since. */
  lemma FlushProcessedIff(s: Helper, moves: seq<Move>, j: nat)
    requires Started(s) && CanRun(s, moves) && FlushReturns(Run(s, moves), j)
    ensures var f := Run(s, moves); var k := LastTicket(f.q.h.writer, j);
      && |f.q.threads| > 0 && (f.q.threads[j].ok ==> 0 <= k < |f.q.h.items| && f.q.h.items[k] == Flush)
      && (Processed(f, j) <==> f.q.threads[j].ok && !BeingTaken(f, k) && !AwaitsFlush(f, k))
      && (s.policy.BlockRetry? ==> f.q.threads[j].ok)
    ensures var f := Run(s, moves); var k := LastTicket(f.q.h.writer, j);
      LastRequest(f.q.h.items, k) ==>
        (Processed(f, j) <==> f.q.threads[j].ok && !BeingTaken(f, k) && !f.flushRequested)
  {
    hide LogInv, Run, CanRun, LastTicket, Followed, Taken, Unflushed, Pending;
    FoundReturned(s, moves, j);
    var f := Run(s, moves);
    AllClaimed(f);
    var k := LastTicket(f.q.h.writer, j);
    if k >= 0 {
      FollowedCount(f.trace, k);
      PendingMeans(f.trace);
      if k < |Taken(f.trace)| && Requests(f.q.h.items[k]) && !Followed(f.trace, k) {
        assert OpenRequest(f.trace, k);
      }
      if LastRequest(f.q.h.items, k) && Pending(f.trace) {
        var i :| 0 <= i < |Taken(f.trace)| && OpenRequest(f.trace, i);
        FollowedCount(f.trace, i);
      }
    }
  }
}
