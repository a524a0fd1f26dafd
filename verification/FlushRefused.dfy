/** When the request of flush(true) can be refused by the full queue, so that the call returns for nothing. */
module FlushRefused {
  import opened Wrappers
  import opened Mpmc
  import opened AsyncLog
  import opened QuietRuns
  import opened FlushRequest
  import opened LostTerminate
  import MpmcRuns

  /** At the end of the run flush(true) of producer j returns, and its request was refused. */
  ghost predicate FlushIsRefused(s: Helper, moves: seq<Move>, j: nat) {
    && Sized(s.q) && CanRun(s, moves)
    && var f := Run(s, moves);
    FlushReturns(f, j) && f.q.threads[j] == EnqReturned(false)
  }

  /** The i messages before the request at index i of the program of j and all messages of the other producers
      fill the queue. */
  predicate FillsBefore(s: Helper, j: nat, i: nat) {
    && 1 <= j < |s.program| - 1 && i < |s.program[j]| && s.program[j][i] == Flush
    && Total(s.program, |s.program| - 1) - |s.program[j]| + i >= |s.q.cells|
  }

  /** Whatever thread j has had refused, enough messages to fill the queue came before it. */
  ghost predicate RefusedOk(s: Helper, j: nat) {
    && j < |s.todo| == |s.q.threads| == |s.program|
    && (s.policy.DiscardLogMsg? && s.q.threads[j] == EnqReturned(false) ==>
      |s.q.cells| + |s.todo[j]| + 1 <= Total(s.program, |s.program| - 1))
  }

  lemma {:induction false} RestTotalAtLeast(s: Helper, j: nat, n: nat)
    requires 1 <= j < n <= |s.todo| == |s.q.threads|
    ensures |Rest(s, j)| <= RestTotal(s, n)
  {
    if j < n - 1 {
      RestTotalAtLeast(s, j, n - 1);
    }
  }

  /** While producer j is not finished, all items are from the programs, without what j has left. */
  lemma ItemsBounded(s: Helper, j: nat)
    requires Bounded(s) && 1 <= j < |s.todo| - 1 && s.todo[j] != [] && s.q.threads[j].EnqSeq?
    ensures |s.q.h.items| + |s.todo[j]| <= Total(s.program, |s.program| - 1)
  {
    BoundedParts(s);
    hide LogInv, RestTotal, Total, TerminateIn;
    ProducerItem(s, j);
    RestTotalAtLeast(s, j, |s.todo| - 1);
  }

  lemma SameRefused(s: Helper, s': Helper, j: nat)
    requires RefusedOk(s, j) && |s'.q.threads| == |s.q.threads| && |s'.q.cells| == |s.q.cells|
    requires s'.todo == s.todo && s'.program == s.program && s'.policy == s.policy
    requires s'.q.threads[j] == s.q.threads[j] || !s'.q.threads[j].EnqReturned?
    ensures RefusedOk(s', j)
  {
  }

  lemma StillRefused(s: Helper, a: Move, j: nat)
    requires Bounded(s) && RefusedOk(s, j) && CanMove(s, a) && !a.Advance? && j > 0
    ensures Sized(s.q) && RefusedOk(Next(s, a), j)
  {
    hide Bounded, LogInv, RefusedOk, Next, CanMove;
    BoundedParts(s);
    StillQueue(s, a);
    SameIndex(s, j);
    SameRefused(s, Next(s, a), j);
  }

  lemma SameIndex(s: Helper, j: nat)
    requires RefusedOk(s, j)
    ensures j < |s.todo| == |s.q.threads| == |s.program|
  {
  }

  lemma WorkerRefused(s: Helper, a: Move, j: nat)
    requires Bounded(s) && RefusedOk(s, j) && CanMove(s, a) && a.Advance? && a.tid == 0 && j > 0
    ensures Sized(s.q) && RefusedOk(Next(s, a), j)
  {
    hide Bounded, LogInv, RefusedOk, Next, CanMove, WorkerMoved;
    BoundedParts(s);
    SameIndex(s, j);
    CellsKept(s, a);
    var t := WorkerMoves(s, a.swaps, a.left, a.intervalElapsed);
    WorkerFrame(s, Next(s, a), t, a.intervalElapsed);
    WorkerOnly(s, Next(s, a), t, a.intervalElapsed);
    SameRefused(s, Next(s, a), j);
  }

  lemma ProducerRefused(s: Helper, a: Move, j: nat)
    requires Bounded(s) && RefusedOk(s, j) && CanMove(s, a) && a.Advance? && a.tid > 0 && 1 <= j < |s.todo| - 1
    ensures Sized(s.q) && RefusedOk(Next(s, a), j)
  {
    hide Bounded, LogInv, RefusedOk, Next, CanMove, ProducerMoved;
    BoundedParts(s);
    CellsKept(s, a);
    var t, claims := ProducerMoves(s, a.tid, a.swaps, a.left, a.intervalElapsed);
    RestOthers(s, Next(s, a), a.tid, t, claims);
    RefusedWhenFull(s, a, t);
    MovedRefused(s, Next(s, a), a.tid, t, claims, j);
  }

  lemma MovedRefused(s: Helper, s': Helper, tid: nat, t: Thread<Message>, claims: bool, j: nat)
    requires Bounded(s) && RefusedOk(s, j) && ProducerMoved(s, s', tid, t, claims) && 1 <= j < |s.todo| - 1
    requires |s'.q.cells| == |s.q.cells|
    requires t == EnqReturned(false) && s.q.threads[tid].EnqSeq? ==> |s.q.h.items| >= |s.q.cells|
    ensures RefusedOk(s', j)
  {
    hide Bounded, Inv, Total;
    if tid == j && t == EnqReturned(false) {
      ItemsBounded(s, j);
    }
  }

  lemma MoveRefused(s: Helper, a: Move, j: nat)
    requires Bounded(s) && RefusedOk(s, j) && CanMove(s, a) && 1 <= j < |s.todo| - 1
    ensures Sized(s.q) && RefusedOk(Next(s, a), j) && |Next(s, a).todo| == |s.todo|
  {
    BoundedSized(s);
    SameCount(s, a);
    hide *;
    if !a.Advance? {
      StillRefused(s, a, j);
    } else if a.tid == 0 {
      WorkerRefused(s, a, j);
    } else {
      ProducerRefused(s, a, j);
    }
  }

  lemma BoundedSized(s: Helper)
    requires Bounded(s)
    ensures Sized(s.q)
  {
    BoundedParts(s);
  }

  lemma {:induction false} RunRefused(s: Helper, moves: seq<Move>, j: nat)
    requires Bounded(s) && RefusedOk(s, j) && Sized(s.q) && CanRun(s, moves) && 1 <= j < |s.todo| - 1
    ensures RefusedOk(Run(s, moves), j)
    decreases |moves|
  {
    hide Bounded, RefusedOk, Next, CanMove;
    if moves != [] {
      MoveBounded(s, moves[0]);
      MoveRefused(s, moves[0], j);
      RunRefused(Next(s, moves[0]), moves[1..], j);
    }
  }

  lemma RefusedOnlyWhenFull(s: Helper, moves: seq<Move>, j: nat) returns (i: nat)
    requires Started(s) && FlushIsRefused(s, moves, j)
    ensures s.policy.DiscardLogMsg? && FillsBefore(s, j, i)
  {
    hide Run, CanRun, Total, Bounded, LogInv, LastOk;
    StartBounded(s);
    FoundReturned(s, moves, j);
    RunBounded(s, moves);
    var f := Run(s, moves);
    i := |f.program[j]| - |f.todo[j]| - 1;
    assert j < |s.program| - 1;
    RunRefused(s, moves, j);
  }

  /** The worker empties the queue. */
  ghost predicate Draining(f: Helper, u: Helper) {
    && Ready(u) && Sized(u.q) && u.active && u.todo == f.todo && u.program == f.program && u.policy == f.policy
    && |u.q.threads| == |f.q.threads| && (forall j :: 1 <= j < |u.q.threads| ==> u.q.threads[j] == f.q.threads[j])
  }

  lemma {:induction false} Drain(f: Helper, u: Helper) returns (moves: seq<Move>)
    requires Draining(f, u)
    ensures CanRun(u, moves) && Draining(f, Run(u, moves))
    ensures Run(u, moves).q.dequeuePos == Run(u, moves).q.enqueuePos
    decreases u.q.enqueuePos - u.q.dequeuePos
  {
    ReadyShape(u);
    hide Ready, Sized, Midtake;
    moves := [];
    if u.q.dequeuePos < u.q.enqueuePos {
      var first := TakeOne(u, 0);
      DrainedOne(f, u, Run(u, first));
      hide Draining;
      var rest := Drain(f, Run(u, first));
      RunsJoin(u, first, rest);
      moves := first + rest;
    }
  }

  lemma ReadyShape(u: Helper)
    requires Ready(u)
    ensures u.q.dequeuePos <= u.q.enqueuePos == |u.q.h.items| && |u.q.threads| > 0
  {
    InLogInv(u);
    hide LogInv;
  }

  lemma DrainedOne(f: Helper, u: Helper, v: Helper)
    requires Draining(f, u) && Midtake(u, v) && TakeStepsLeft(v.q.threads[0]) == 0 && LogInv(v)
    ensures Draining(f, v) && v.q.dequeuePos == u.q.dequeuePos + 1 && v.q.enqueuePos == u.q.enqueuePos
  {
    hide LogInv;
  }

  /** How many messages each thread pushes before the request. */
  function Before(s: Helper, j: nat, i: nat): seq<nat>
    requires j < |s.todo|
  {
    Lengths(s.todo)[j := i]
  }

  lemma {:induction false} SumBefore(counts: seq<nat>, j: nat, i: nat, n: nat)
    requires n <= |counts| && 1 <= j < |counts|
    ensures Sum(counts[j := i], n) == Sum(counts, n) + if j < n then i - counts[j] else 0
  {
    if n > 1 {
      SumBefore(counts, j, i, n - 1);
    }
  }

  lemma BeforeFits(s: Helper, j: nat, i: nat)
    requires Started(s) && FillsBefore(s, j, i)
    ensures Sized(s.q) && |s.todo| >= 2 && j < |s.todo| && CountsFit(s, Before(s, j, i))
    ensures Sum(Before(s, j, i), |s.todo| - 1) >= |s.q.cells|
  {
    AllCounts(s);
    SumBefore(Lengths(s.todo), j, i, |s.todo| - 1);
    hide Sum, Total;
  }

  lemma FilledUp(s: Helper, f: Helper, j: nat, i: nat)
    requires Started(s) && FillsBefore(s, j, i) && |s.todo| >= 2 && Emptied(s, f, Before(s, j, i), |s.todo| - 1)
    requires Sum(Before(s, j, i), |s.todo| - 1) >= |s.q.cells|
    ensures Ready(f) && Sized(f.q) && CanMove(f, Push(j)) && !Room(f) && f.active && f.policy.DiscardLogMsg?
    ensures f.program == s.program && f.todo[j] == s.program[j][i..] && |f.todo| == |s.program|
  {
    InLogInv(f);
    hide LogInv, Sum, Total;
  }

  lemma RefusedDraining(s: Helper, f: Helper, u: Helper, j: nat, i: nat)
    requires FillsBefore(s, j, i) && Ready(f) && !Room(f) && f.active && f.policy.DiscardLogMsg? && j < |f.todo|
    requires Midway(f, u, j) && u.q.threads[j].EnqReturned? && Ready(u)
    requires f.program == s.program && f.todo[j] == s.program[j][i..] && |f.todo| == |s.program|
    ensures Draining(u, u) && u.q.threads[j] == EnqReturned(false) && u.todo[j] == s.program[j][i + 1..]
    ensures u.program == s.program && u.policy.DiscardLogMsg? && |u.todo| == |s.program| == |u.q.threads|
  {
    hide LogInv, Total;
  }

  lemma ReturnsRefused(s: Helper, u: Helper, v: Helper, j: nat, i: nat)
    requires FillsBefore(s, j, i) && Draining(u, v) && v.q.dequeuePos == v.q.enqueuePos
    requires u.program == s.program && u.policy.DiscardLogMsg? && |u.todo| == |s.program| == |u.q.threads|
    requires u.q.threads[j] == EnqReturned(false) && u.todo[j] == s.program[j][i + 1..]
    ensures FlushReturns(v, j) && v.q.threads[j] == EnqReturned(false)
  {
    hide LogInv, Total;
  }

  /** The other producers push all their messages, j pushes those before its request, the request is refused,
      and then the worker takes everything. */
  lemma RefusedWhenFilled(s: Helper, j: nat, i: nat) returns (moves: seq<Move>)
    requires Started(s) && s.policy.DiscardLogMsg? && FillsBefore(s, j, i)
    ensures FlushIsRefused(s, moves, j)
  {
    hide *;
    BeforeFits(s, j, i);
    var first := EmptyAll(s, Before(s, j, i), |s.todo| - 1);
    var f := Run(s, first);
    var rest := RefusedThenDrained(s, f, j, i);
    JoinRefused(s, first, rest, j);
    moves := first + rest;
  }

  lemma RefusedThenDrained(s: Helper, f: Helper, j: nat, i: nat) returns (moves: seq<Move>)
    requires Started(s) && FillsBefore(s, j, i) && |s.todo| >= 2 && Emptied(s, f, Before(s, j, i), |s.todo| - 1)
    requires Sum(Before(s, j, i), |s.todo| - 1) >= |s.q.cells|
    ensures FlushIsRefused(f, moves, j)
  {
    FilledUp(s, f, j, i);
    hide Started, FillsBefore, Sum, Emptied, Before, Ready, Midway, Run, CanRun, CanMove, FlushReturns, Draining, Sized;
    var second := PushOne(f, j);
    var u := Run(f, second);
    RefusedDraining(s, f, u, j, i);
    var third := Drain(u, u);
    ReturnsRefused(s, u, Run(u, third), j, i);
    RunsJoin(f, second, third);
    moves := second + third;
  }

  lemma JoinRefused(s: Helper, first: seq<Move>, rest: seq<Move>, j: nat)
    requires Sized(s.q) && CanRun(s, first) && FlushIsRefused(Run(s, first), rest, j)
    ensures FlushIsRefused(s, first + rest, j)
  {
    hide Sized, CanRun, Run, FlushReturns;
    RunsJoin(s, first, rest);
  }

  /** Some run has a flush request refused, and flush(true) return all the same, exactly if messages may be
      discarded and enough messages to fill the queue can come before some request. */
  lemma FlushRefusedIff(s: Helper)
    requires Started(s)
    ensures (exists moves, j: nat :: FlushIsRefused(s, moves, j)) <==>
      s.policy.DiscardLogMsg? && exists j: nat, i: nat :: FillsBefore(s, j, i)
  {
    hide FlushIsRefused, FillsBefore;
    forall moves, j: nat | FlushIsRefused(s, moves, j)
      ensures s.policy.DiscardLogMsg? && exists i: nat :: FillsBefore(s, j, i)
    {
      var i := RefusedOnlyWhenFull(s, moves, j);
    }
    if s.policy.DiscardLogMsg? {
      if j: nat, i: nat :| FillsBefore(s, j, i) {
        var moves := RefusedWhenFilled(s, j, i);
      }
    }
  }
}
