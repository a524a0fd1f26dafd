/** Whether flush(true) of the asynchronous logger can return before its request is processed. */
module FlushRuns {
  import opened Wrappers
  import opened Mpmc
  import opened AsyncLog
  import opened QuietRuns
  import opened FlushRequest
  import FlushWait
  import MpmcRuns

  /** At the end of the run flush(true) of producer j returns, and its request is not processed. */
  ghost predicate FlushFails(s: Helper, moves: seq<Move>, j: nat) {
    && Sized(s.q) && CanRun(s, moves)
    && var f := Run(s, moves);
    FlushReturns(f, j) && !Processed(f, j)
  }

  predicate HasFlush(s: Helper, j: nat) {
    1 <= j < |s.program| - 1 && Flush in s.program[j]
  }

  /** Only producers that have a flush request in their program call flush. */
  lemma OnlyWithFlush(s: Helper, moves: seq<Move>, j: nat)
    requires Started(s) && FlushFails(s, moves, j)
    ensures HasFlush(s, j)
  {
    hide Run, CanRun;
    FoundReturned(s, moves, j);
    var f := Run(s, moves);
    assert LastPushed(f, j) in s.program[j];
  }

  /** Producer j has pushed the first i messages of its program, the worker has taken them, and nobody else has
      done anything. */
  ghost predicate Serving(s: Helper, f: Helper, j: nat, i: nat) {
    && Ready(f) && Sized(f.q) && f.active && f.program == s.program && |f.todo| == |f.program|
    && f.q.dequeuePos == f.q.enqueuePos && 1 <= j < |s.program| - 1 && i <= |s.program[j]|
    && f.todo[j] == s.program[j][i..]
  }

  lemma StartServing(s: Helper, j: nat)
    requires Started(s) && 1 <= j < |s.program| - 1
    ensures Sized(s.q) && CanRun(s, []) && Serving(s, Run(s, []), j, 0)
  {
    StartedInv(s);
    AllSizes(s);
    hide LogInv, Sized;
  }

  lemma CanPush(s: Helper, f: Helper, j: nat, i: nat)
    requires Serving(s, f, j, i) && i < |s.program[j]|
    ensures CanMove(f, Push(j)) && Room(f) && f.todo[j][0] == s.program[j][i] && f.todo[j][1..] == s.program[j][i + 1..]
  {
    hide LogInv;
  }

  /** After the push the worker has one message to take. */
  lemma Pushed(s: Helper, f: Helper, u: Helper, j: nat, i: nat)
    requires Serving(s, f, j, i) && i < |s.program[j]| && Ready(u) && Midway(f, u, j) && u.q.threads[j].EnqReturned?
    ensures Sized(u.q) && u.active && u.q.dequeuePos < |u.q.h.items| && u.q.enqueuePos == u.q.dequeuePos + 1
    ensures u.q.threads[j] == EnqReturned(true) && u.todo[j] == s.program[j][i + 1..] && u.program == s.program
    ensures |u.todo| == |u.program| == |u.q.threads|
    ensures LastTicket(u.q.h.writer, j) == u.q.dequeuePos
  {
    CanPush(s, f, j, i);
    InLogInv(f);
    InLogInv(u);
    hide LogInv, LastTicket, Inv;
    NextTicket(f.q.h.writer, j, j);
  }

  lemma Served(s: Helper, u: Helper, v: Helper, j: nat, i: nat)
    requires Ready(u) && Midtake(u, v) && TakeStepsLeft(v.q.threads[0]) == 0 && LogInv(v) && u.active
    requires u.program == s.program && 1 <= j < |s.program| - 1 && i <= |s.program[j]| && |u.todo| == |u.program|
    requires u.todo[j] == s.program[j][i..] && u.q.enqueuePos == u.q.dequeuePos + 1
    ensures Serving(s, v, j, i)
  {
    hide LogInv;
  }

  lemma ServeOne(s: Helper, f: Helper, j: nat, i: nat) returns (moves: seq<Move>)
    requires Serving(s, f, j, i) && i < |s.program[j]|
    ensures CanRun(f, moves) && Serving(s, Run(f, moves), j, i + 1)
  {
    hide Run, CanRun, Ready, Midway, Midtake, LastTicket;
    CanPush(s, f, j, i);
    var first := PushOne(f, j);
    var u := Run(f, first);
    Pushed(s, f, u, j, i);
    var second := TakeOne(u, 0);
    Served(s, u, Run(u, second), j, i + 1);
    RunsJoin(f, first, second);
    moves := first + second;
  }

  lemma {:induction false} ServeMany(s: Helper, j: nat, i: nat) returns (moves: seq<Move>)
    requires Started(s) && Sized(s.q) && 1 <= j < |s.program| - 1 && i <= |s.program[j]|
    ensures CanRun(s, moves) && Serving(s, Run(s, moves), j, i)
  {
    hide *;
    moves := [];
    StartServing(s, j);
    if i > 0 {
      var first := ServeMany(s, j, i - 1);
      var second := ServeOne(s, Run(s, first), j, i - 1);
      RunsJoin(s, first, second);
      moves := first + second;
    }
  }

  /** While the worker claims the request, flush(true) may return. */
  lemma Claimed(s: Helper, u: Helper, v: Helper, j: nat, i: nat)
    requires Ready(u) && Midtake(u, v) && TakeStepsLeft(v.q.threads[0]) == 2 && u.program == s.program
    requires 1 <= j < |s.program| - 1 && i < |s.program[j]| && s.program[j][i] == Flush
    requires |u.todo| == |u.program| && u.todo[j] == s.program[j][i + 1..] && u.q.threads[j] == EnqReturned(true)
    requires u.q.enqueuePos == u.q.dequeuePos + 1 && LastTicket(u.q.h.writer, j) == u.q.dequeuePos
    ensures FlushReturns(v, j) && !Processed(v, j)
  {
    hide LastTicket, FlushWait.Followed;
    TakenUpTo(u);
    FlushWait.NotFollowedYet(u.trace, u.q.dequeuePos);
  }

  lemma TakenUpTo(u: Helper)
    requires Ready(u)
    ensures |Taken(u.trace)| == u.q.dequeuePos
  {
    InLogInv(u);
    hide Inv, Taken, Pending, ByWriter, Roles, Terminates;
  }

  /** Some run in which the flush request is claimed, and not even taken, when flush(true) returns. */
  lemma FlushTooEarly(s: Helper, j: nat, i: nat) returns (moves: seq<Move>)
    requires Started(s) && 1 <= j < |s.program| - 1 && i < |s.program[j]| && s.program[j][i] == Flush
    ensures FlushFails(s, moves, j)
  {
    StartServing(s, j);
    hide Started, Run, CanRun, Ready, Midway, Midtake, LastTicket, Processed, FlushReturns, Sized;
    var before := ServeMany(s, j, i);
    var f := Run(s, before);
    CanPush(s, f, j, i);
    var first := PushOne(f, j);
    var u := Run(f, first);
    Pushed(s, f, u, j, i);
    var second := TakeOne(u, 2);
    Claimed(s, u, Run(u, second), j, i);
    RunsJoin(f, first, second);
    RunsJoin(s, before, first + second);
    moves := before + (first + second);
  }

  /** Some run has flush(true) return before its request is processed exactly if some producer calls flush: no
      use of it is safe, under any policy, number of cells and programs. */
  lemma FlushFailsIff(s: Helper)
    requires Started(s)
    ensures (exists moves, j: nat :: FlushFails(s, moves, j)) <==> exists j: nat :: HasFlush(s, j)
  {
    hide FlushFails;
    forall moves, j: nat | FlushFails(s, moves, j)
      ensures HasFlush(s, j)
    {
      OnlyWithFlush(s, moves, j);
    }
    if j: nat :| HasFlush(s, j) {
      var i :| 0 <= i < |s.program[j]| && s.program[j][i] == Flush;
      var moves := FlushTooEarly(s, j, i);
    }
  }
}
