/** When the destructor of the asynchronous logger can wait forever: exactly if messages may be discarded
    and the producers have enough of them to fill the queue. */
module LostTerminate {
  import opened Mpmc
  import opened AsyncLog
  import opened QuietRuns
  import MpmcRuns

  /** The number of messages in the lists of the producers 1 to n - 1. */
  function Total(lists: seq<seq<Message>>, n: nat): nat
    requires n <= |lists|
  {
    if n <= 1 then 0 else Total(lists, n - 1) + |lists[n - 1]|
  }

  /** The number of messages that the producers 1 to n - 1 have not enqueued yet. */
  function RestTotal(s: Helper, n: nat): nat
    requires n <= |s.todo| == |s.q.threads|
  {
    if n <= 1 then 0 else RestTotal(s, n - 1) + |Rest(s, n - 1)|
  }

  ghost predicate TerminateIn(s: Helper) {
    s.q.h.items != [] && s.q.h.items[|s.q.h.items| - 1] == Terminate
  }

  /** The items come out of the programs, and the destructor gives up only on a full queue. */
  ghost predicate Bounded(s: Helper) {
    && LogInv(s) && |s.todo| == |s.q.threads| == |s.program| >= 2
    && var d := |s.todo| - 1;
    && |s.q.h.items| - (if TerminateIn(s) then 1 else 0) + RestTotal(s, d) <= Total(s.program, d)
    && (s.todo[d] == [] ==> TerminateIn(s) || (s.policy.DiscardLogMsg? && |s.q.h.items| >= |s.q.cells|))
  }

  lemma {:induction false} RestTotalChange(s: Helper, s': Helper, tid: nat, n: nat)
    requires n <= |s.todo| == |s.q.threads| == |s'.todo| == |s'.q.threads| && 1 <= tid < |s.todo|
    requires forall j :: 1 <= j < n && j != tid ==> Rest(s', j) == Rest(s, j)
    ensures RestTotal(s', n) == RestTotal(s, n) + if tid < n then |Rest(s', tid)| - |Rest(s, tid)| else 0
  {
    if n > 1 {
      RestTotalChange(s, s', tid, n - 1);
    }
  }

  lemma {:induction false} RestTotalStart(s: Helper, n: nat)
    requires n <= |s.todo| == |s.q.threads| && s.program == s.todo
    requires forall j :: 0 <= j < n ==> s.q.threads[j] == Idle
    ensures RestTotal(s, n) == Total(s.program, n)
  {
    if n > 1 {
      RestTotalStart(s, n - 1);
    }
  }

  lemma StartBounded(s: Helper)
    requires Started(s)
    ensures Bounded(s)
  {
    StartedInv(s);
    RestTotalStart(s, |s.todo| - 1);
  }

  lemma SameBounded(s: Helper, s': Helper)
    requires Bounded(s) && LogInv(s') && s'.q.h.items == s.q.h.items && s'.todo == s.todo && s'.program == s.program
    requires s'.policy == s.policy && |s'.q.cells| == |s.q.cells| && |s'.q.threads| == |s.q.threads|
    requires RestTotal(s', |s.todo| - 1) == RestTotal(s, |s.todo| - 1)
    ensures Bounded(s')
  {
    hide LogInv, RestTotal, Total;
  }

  lemma StillMoves(s: Helper, a: Move)
    requires Bounded(s) && CanMove(s, a) && !a.Advance?
    ensures Sized(s.q) && Bounded(Next(s, a))
  {
    hide *;
    BoundedParts(s);
    MoveKeeps(s, a);
    StillQueue(s, a);
    StillRest(s, a, |s.todo| - 1);
    SameBounded(s, Next(s, a));
  }

  lemma BoundedParts(s: Helper)
    requires Bounded(s)
    ensures LogInv(s) && Sized(s.q) && |s.todo| == |s.q.threads| == |s.program| >= 2
  {
    InLogInv(s);
    hide LogInv, RestTotal, Total;
  }

  lemma {:induction false} StillRest(s: Helper, a: Move, n: nat)
    requires Sized(s.q) && CanMove(s, a) && !a.Advance? && n <= |s.todo|
    ensures n <= |Next(s, a).todo| == |Next(s, a).q.threads| && RestTotal(Next(s, a), n) == RestTotal(s, n)
  {
    StillQueue(s, a);
    hide Next, Apply, CanMove;
    if n > 1 {
      StillRest(s, a, n - 1);
    }
  }

  lemma StillQueue(s: Helper, a: Move)
    requires Sized(s.q) && CanMove(s, a) && !a.Advance?
    ensures var s', tid := Next(s, a), if a.Push? then a.tid else 0;
      && s' == s.(q := s'.q) && s'.q.h == s.q.h && |s'.q.cells| == |s.q.cells| && |s'.q.threads| == |s.q.threads|
      && !Writes(s'.q.threads[tid]) && !Writes(s.q.threads[tid]) && !s'.q.threads[tid].EnqReturned?
      && forall j :: 0 <= j < |s.q.threads| && j != tid ==> s'.q.threads[j] == s.q.threads[j]
  {
  }

  lemma WorkerMovesBounded(s: Helper, a: Move)
    requires Bounded(s) && CanMove(s, a) && a.Advance? && a.tid == 0
    ensures Sized(s.q) && Bounded(Next(s, a))
  {
    hide Inv, Apply, ByWriter, Bounded, LogInv, Next, WorkerReturns, RestTotal;
    BoundedParts(s);
    MoveKeeps(s, a);
    var t := WorkerMoves(s, a.swaps, a.left, a.intervalElapsed);
    var s' := Next(s, a);
    WorkerFrame(s, s', t, a.intervalElapsed);
    CellsKept(s, a);
    RestTotalChange(s, s', 1, |s.todo| - 1);
    SameBounded(s, s');
  }

  lemma CellsKept(s: Helper, a: Move)
    requires Sized(s.q) && CanMove(s, a)
    ensures |Next(s, a).q.cells| == |s.q.cells|
  {
    hide Accepted;
  }

  lemma ProducerMovesBounded(s: Helper, a: Move)
    requires Bounded(s) && CanMove(s, a) && a.Advance? && a.tid > 0
    ensures Sized(s.q) && Bounded(Next(s, a))
  {
    BoundedParts(s);
    hide Inv, LogInv, Bounded, Apply, Next, CanMove, ProducerMoved, Terminates, Roles, WorkerOk;
    MoveKeeps(s, a);
    var t, claims := ProducerMoves(s, a.tid, a.swaps, a.left, a.intervalElapsed);
    CellsKept(s, a);
    RestOthers(s, Next(s, a), a.tid, t, claims);
    RefusedWhenFull(s, a, t);
    ProducerMovedBounded(s, Next(s, a), a.tid, t, claims);
  }

  lemma ProducerMovedBounded(s: Helper, s': Helper, tid: nat, t: Thread<Message>, claims: bool)
    requires Bounded(s) && LogInv(s') && ProducerMoved(s, s', tid, t, claims) && |s'.q.cells| == |s.q.cells|
    requires t == EnqReturned(false) && s.q.threads[tid].EnqSeq? ==> |s.q.h.items| >= |s.q.cells|
    ensures Bounded(s')
  {
    hide LogInv, Bounded, ProducerMoved, RestTotal;
    BoundedParts(s);
    RestOthers(s, s', tid, t, claims);
    RestTotalChange(s, s', tid, |s.todo| - 1);
    if tid < |s.todo| - 1 {
      ProducerStays(s, s', tid, t, claims);
    } else {
      DestructorStays(s, s', tid, t, claims);
    }
  }

  lemma RestOthers(s: Helper, s': Helper, tid: nat, t: Thread<Message>, claims: bool)
    requires ProducerMoved(s, s', tid, t, claims)
    ensures |s.todo| == |s.q.threads| == |s'.todo| == |s'.q.threads| && 1 <= tid < |s.todo|
    ensures forall j :: 1 <= j < |s.todo| && j != tid ==> Rest(s', j) == Rest(s, j)
    ensures ProducerThread(s.q.threads[tid]) && s'.q.threads == s.q.threads[tid := t]
    ensures s'.program == s.program && s'.policy == s.policy
  {
    hide Inv;
  }

  lemma RefusedWhenFull(s: Helper, a: Move, t: Thread<Message>)
    requires LogInv(s) && CanMove(s, a) && a.Advance? && a.tid > 0 && Sized(s.q)
    requires Next(s, a).q.threads == s.q.threads[a.tid := t] && ProducerThread(s.q.threads[a.tid])
    ensures t == EnqReturned(false) && s.q.threads[a.tid].EnqSeq? ==> |s.q.h.items| >= |s.q.cells|
  {
    hide Inv, ByWriter, Taken, Pending, WorkerOk, Terminates, Apply;
    InvSized(s.q);
    if t == EnqReturned(false) && s.q.threads[a.tid].EnqSeq? {
      MpmcRuns.EnqueueFails(s.q, a.tid, a.swaps, a.left);
    }
  }

  lemma ProducerStays(s: Helper, s': Helper, tid: nat, t: Thread<Message>, claims: bool)
    requires Bounded(s) && LogInv(s') && ProducerMoved(s, s', tid, t, claims) && |s'.q.cells| == |s.q.cells|
    requires tid < |s.todo| - 1 && |s'.todo| == |s'.q.threads|
    requires RestTotal(s', |s.todo| - 1) == RestTotal(s, |s.todo| - 1) + |Rest(s', tid)| - |Rest(s, tid)|
    ensures Bounded(s')
  {
    hide Inv, LogInv, RestTotal, Total, Terminates;
    InParts(s);
    ProducerItem(s, tid);
    hide Roles;
    RestShrinks(s, s', tid, t, claims);
  }

  /** A thread that has something to push is not finished, so the destructor has not started, and what the
      thread pushes is no terminate message. */
  lemma ProducerItem(s: Helper, tid: nat)
    requires LogInv(s) && 1 <= tid < |s.todo| - 1 && |s.todo| == |s.q.threads| && s.todo[tid] != []
    ensures !TerminateIn(s) && s.todo[tid][0] != Terminate
    ensures s.q.threads[tid].EnqSwap? ==> s.q.threads[tid].item == s.todo[tid][0]
    ensures |s.q.h.items| == s.q.enqueuePos
  {
    hide Inv, ByWriter, WorkerOk;
    InvSized(s.q);
    assert ProducerOk(s, tid);
    assert !Finished(s, tid);
  }

  lemma RestShrinks(s: Helper, s': Helper, tid: nat, t: Thread<Message>, claims: bool)
    requires ProducerMoved(s, s', tid, t, claims) && |s'.todo| == |s'.q.threads|
    ensures |Rest(s', tid)| <= |Rest(s, tid)| - if claims then 1 else 0
  {
    hide Inv;
  }

  lemma DestructorStays(s: Helper, s': Helper, tid: nat, t: Thread<Message>, claims: bool)
    requires Bounded(s) && LogInv(s') && ProducerMoved(s, s', tid, t, claims) && |s'.q.cells| == |s.q.cells|
    requires tid == |s.todo| - 1 && |s'.todo| == |s'.q.threads| && RestTotal(s', tid) == RestTotal(s, tid)
    requires t == EnqReturned(false) && s.q.threads[tid].EnqSeq? ==> |s.q.h.items| >= |s.q.cells|
    ensures Bounded(s')
  {
    hide Inv, LogInv, RestTotal, Total, Terminates;
    InParts(s);
    DestructorItem(s, tid);
    hide Roles;
  }

  lemma DestructorItem(s: Helper, tid: nat)
    requires LogInv(s) && tid == |s.todo| - 1 >= 1 && |s.todo| == |s.q.threads| && s.todo[tid] != []
    ensures s.todo[tid] == [Terminate]
    ensures s.q.threads[tid].EnqSwap? ==> s.q.threads[tid].item == Terminate && !TerminateIn(s)
    ensures Writes(s.q.threads[tid]) ==> TerminateIn(s)
  {
    hide Inv, ByWriter, WorkerOk;
    InvSized(s.q);
    assert ProducerOk(s, tid);
  }

  lemma InParts(s: Helper)
    requires LogInv(s)
    ensures Roles(s) && Terminates(s) && Shape(s.q)
  {
    hide Inv, Terminates, ByWriter;
    InvSized(s.q);
  }

  lemma MoveBounded(s: Helper, a: Move)
    requires Bounded(s) && CanMove(s, a)
    ensures Sized(s.q) && Bounded(Next(s, a))
  {
    hide *;
    if !a.Advance? {
      StillMoves(s, a);
    } else if a.tid == 0 {
      WorkerMovesBounded(s, a);
    } else {
      ProducerMovesBounded(s, a);
    }
  }

  lemma {:induction false} RunBounded(s: Helper, moves: seq<Move>)
    requires Bounded(s) && Sized(s.q) && CanRun(s, moves)
    ensures var f := Run(s, moves);
      Bounded(f) && |f.q.cells| == |s.q.cells| && f.program == s.program && f.policy == s.policy
    decreases |moves|
  {
    hide Bounded, Next, CanMove;
    if moves != [] {
      NextConstants(s, moves[0]);
      CellsKept(s, moves[0]);
      MoveBounded(s, moves[0]);
      RunBounded(Next(s, moves[0]), moves[1..]);
    }
  }

  /** The run ends with the terminate message lost. */
  ghost predicate Loses(s: Helper, moves: seq<Move>) {
    && Sized(s.q) && CanRun(s, moves)
    && var f := Run(s, moves);
    && |f.todo| == |f.q.threads| >= 2 && TerminateLost(f)
  }

  lemma LosesOnlyWhenFull(s: Helper, moves: seq<Move>)
    requires Started(s) && Loses(s, moves)
    ensures s.policy.DiscardLogMsg? && Total(s.program, |s.program| - 1) >= |s.q.cells|
  {
    hide LogInv, Run, CanRun, RestTotal, Total;
    StartBounded(s);
    RunBounded(s, moves);
    var f := Run(s, moves);
    assert Finished(f, |f.todo| - 1);
    assert !TerminateIn(f);
  }

  /** Between calls of a queue from which nothing was taken, under discard_log_msg. */
  ghost predicate Filling(s: Helper) {
    Ready(s) && s.policy.DiscardLogMsg? && s.q.dequeuePos == 0
  }

  function Least(a: nat, b: nat): nat {
    if a <= b then a else b
  }

  function Sum(counts: seq<nat>, n: nat): nat
    requires n <= |counts|
  {
    if n <= 1 then 0 else Sum(counts, n - 1) + counts[n - 1]
  }

  function Lengths(lists: seq<seq<Message>>): seq<nat> {
    seq(|lists|, j requires 0 <= j < |lists| => |lists[j]|)
  }

  lemma {:induction false} SumIsTotal(lists: seq<seq<Message>>, n: nat)
    requires n <= |lists|
    ensures Sum(Lengths(lists), n) == Total(lists, n)
  {
    if n > 1 {
      SumIsTotal(lists, n - 1);
    }
  }

  ghost predicate CountsFit(s: Helper, counts: seq<nat>) {
    |counts| == |s.todo| && forall j :: 0 <= j < |counts| ==> counts[j] <= |s.todo[j]|
  }

  /** The producers 1 to n - 1 have pushed that many messages each and the others have done nothing; the messages
      are in the queue, as many as fit. */
  ghost predicate Emptied(s: Helper, f: Helper, counts: seq<nat>, n: nat) {
    && Filling(f) && |f.todo| == |s.todo| && |f.q.threads| == |s.q.threads| && |f.q.cells| == |s.q.cells|
    && CountsFit(s, counts) && n <= |s.todo| && f.active == s.active && f.program == s.program
    && (forall j :: 1 <= j < n ==> f.todo[j] == s.todo[j][counts[j]..])
    && (forall j :: n <= j < |s.todo| ==> f.todo[j] == s.todo[j] && f.q.threads[j] == s.q.threads[j])
    && f.q.enqueuePos == Least(|s.q.cells|, Sum(counts, n))
  }

  /** Thread n pushes its messages, k having gone already. */
  ghost predicate Emptying(s: Helper, f: Helper, counts: seq<nat>, n: nat, k: nat) {
    && Filling(f) && |f.todo| == |s.todo| && |f.q.threads| == |s.q.threads| && |f.q.cells| == |s.q.cells|
    && CountsFit(s, counts) && 1 <= n < |s.todo| && k <= counts[n] && f.active == s.active && f.program == s.program
    && (forall j :: 1 <= j < n ==> f.todo[j] == s.todo[j][counts[j]..])
    && f.todo[n] == s.todo[n][k..]
    && (forall j :: n < j < |s.todo| ==> f.todo[j] == s.todo[j] && f.q.threads[j] == s.q.threads[j])
    && f.q.enqueuePos == Least(|s.q.cells|, Sum(counts, n) + k)
  }

  lemma {:induction false} EmptyOne(s: Helper, f: Helper, counts: seq<nat>, n: nat, k: nat) returns (moves: seq<Move>)
    requires Emptying(s, f, counts, n, k) && n < |s.todo| - 1 && Sized(f.q)
    ensures CanRun(f, moves) && Emptying(s, Run(f, moves), counts, n, counts[n])
    decreases counts[n] - k
  {
    hide Sized, Ready, Sum, Next;
    moves := [];
    if k < counts[n] {
      NextPush(s, f, counts, n, k);
      var first := PushOne(f, n);
      OneLess(s, f, Run(f, first), counts, n, k);
      hide Emptying;
      var rest := EmptyOne(s, Run(f, first), counts, n, k + 1);
      RunsJoin(f, first, rest);
      moves := first + rest;
    }
  }

  lemma NextPush(s: Helper, f: Helper, counts: seq<nat>, n: nat, k: nat)
    requires Emptying(s, f, counts, n, k) && n < |s.todo| - 1 && k < counts[n]
    ensures CanMove(f, Push(n))
  {
  }

  lemma OneLess(s: Helper, f: Helper, u: Helper, counts: seq<nat>, n: nat, k: nat)
    requires Emptying(s, f, counts, n, k) && k < counts[n]
    requires Ready(u) && Midway(f, u, n) && u.q.threads[n].EnqReturned?
    ensures Emptying(s, u, counts, n, k + 1)
  {
    InLogInv(f);
    hide LogInv, Sum, Sized;
    MpmcRuns.QuietPhases(f.q, 0);
  }

  lemma {:induction false} EmptyAll(s: Helper, counts: seq<nat>, n: nat) returns (moves: seq<Move>)
    requires Started(s) && s.policy.DiscardLogMsg? && 1 <= n < |s.todo| && Sized(s.q) && CountsFit(s, counts)
    ensures CanRun(s, moves) && Emptied(s, Run(s, moves), counts, n)
  {
    hide *;
    moves := [];
    StartEmptied(s, counts);
    if n > 1 {
      var first := EmptyAll(s, counts, n - 1);
      var f := Run(s, first);
      EmptiedNext(s, f, counts, n - 1);
      var rest := EmptyOne(s, f, counts, n - 1, 0);
      EmptiedAfter(s, Run(f, rest), counts, n - 1);
      RunsJoin(s, first, rest);
      moves := first + rest;
    }
  }

  lemma EmptiedNext(s: Helper, f: Helper, counts: seq<nat>, n: nat)
    requires Emptied(s, f, counts, n) && 1 <= n < |s.todo|
    ensures Emptying(s, f, counts, n, 0) && Sized(f.q)
  {
    InLogInv(f);
    hide LogInv, Sum;
  }

  lemma EmptiedAfter(s: Helper, f: Helper, counts: seq<nat>, n: nat)
    requires CountsFit(s, counts) && 1 <= n < |s.todo| && Emptying(s, f, counts, n, counts[n])
    ensures Emptied(s, f, counts, n + 1)
  {
    hide Ready;
  }

  lemma StartEmptied(s: Helper, counts: seq<nat>)
    requires Started(s) && s.policy.DiscardLogMsg? && CountsFit(s, counts)
    ensures Sized(s.q) && CanRun(s, []) && |s.todo| >= 2 && Emptied(s, Run(s, []), counts, 1)
  {
    StartedInv(s);
    hide Inv;
  }

  /** With enough messages, some run loses the terminate message: the producers push one after the other,
      then the destructor, while the worker waits. */
  lemma LosesWhenFull(s: Helper) returns (moves: seq<Move>)
    requires Started(s) && s.policy.DiscardLogMsg? && Total(s.program, |s.program| - 1) >= |s.q.cells|
    ensures Loses(s, moves)
  {
    hide *;
    AllCounts(s);
    var first := EmptyAll(s, Lengths(s.todo), |s.todo| - 1);
    var rest := DestructorLoses(s, Run(s, first));
    JoinLoses(s, first, rest);
    moves := first + rest;
  }

  lemma DestructorLoses(s: Helper, f: Helper) returns (moves: seq<Move>)
    requires Started(s) && Emptied(s, f, Lengths(s.todo), |s.todo| - 1)
    requires Sum(Lengths(s.todo), |s.todo| - 1) >= |s.q.cells|
    ensures Loses(f, moves)
  {
    hide Started, Sum, Emptied, Run, CanRun, CanMove, Lengths, Midway, Inv, LogInv, TerminateLost;
    DestructorPushes(s, f, Lengths(s.todo));
    moves := PushOne(f, |f.todo| - 1);
    DestructorRefused(f, Run(f, moves));
  }

  lemma JoinLoses(s: Helper, first: seq<Move>, rest: seq<Move>)
    requires Sized(s.q) && CanRun(s, first) && Loses(Run(s, first), rest)
    ensures Loses(s, first + rest)
  {
    hide Sized, CanRun, Run, TerminateLost;
    RunsJoin(s, first, rest);
  }

  lemma AllCounts(s: Helper)
    requires Started(s)
    ensures Sized(s.q) && |s.todo| >= 2 && s.todo == s.program && CountsFit(s, Lengths(s.todo))
    ensures Sum(Lengths(s.todo), |s.todo| - 1) == Total(s.program, |s.program| - 1)
  {
    SumIsTotal(s.todo, |s.todo| - 1);
    hide Accepted;
  }

  lemma DestructorPushes(s: Helper, f: Helper, counts: seq<nat>)
    requires Started(s) && counts == Lengths(s.todo) && Emptied(s, f, counts, |s.todo| - 1)
    requires Sum(counts, |s.todo| - 1) >= |s.q.cells|
    ensures |f.todo| == |f.q.threads| == |s.todo| >= 2 && Filling(f)
    ensures Sized(f.q) && CanMove(f, Push(|s.todo| - 1)) && f.q.threads[|s.todo| - 1] == Idle && !Room(f)
    ensures f.todo[|s.todo| - 1] == [Terminate]
  {
    InLogInv(f);
    hide LogInv, Sum;
  }

  lemma DestructorRefused(f: Helper, u: Helper)
    requires Filling(f) && !Room(f) && Midway(f, u, |f.todo| - 1) && f.q.threads[|f.todo| - 1] == Idle
    requires f.todo[|f.todo| - 1] == [Terminate] && u.q.threads[|f.todo| - 1].EnqReturned?
    ensures |u.todo| == |u.q.threads| >= 2 && TerminateLost(u)
  {
    hide Inv, Roles, WorkerOk;
    assert Terminates(f);
  }

  /** The destructor can lose its terminate message, and then waits for ever, exactly when messages may be
      discarded and the producers have enough of them to fill the queue. */
  lemma TerminateLostIff(s: Helper)
    requires Started(s)
    ensures (exists moves :: Loses(s, moves)) <==>
      s.policy.DiscardLogMsg? && Total(s.program, |s.program| - 1) >= |s.q.cells|
  {
    hide Loses, Total;
    forall moves | Loses(s, moves)
      ensures s.policy.DiscardLogMsg? && Total(s.program, |s.program| - 1) >= |s.q.cells|
    {
      LosesOnlyWhenFull(s, moves);
    }
    if s.policy.DiscardLogMsg? && Total(s.program, |s.program| - 1) >= |s.q.cells| {
      var moves := LosesWhenFull(s);
    }
  }

  /** From then on the worker never leaves its loop, whatever the threads do. */
  lemma LostWaitsForEver(s: Helper, moves: seq<Move>, more: seq<Move>)
    requires Started(s) && Loses(s, moves) && CanRun(Run(s, moves), more)
    ensures Run(Run(s, moves), more).active
  {
    hide Run, CanRun, LogInv, TerminateLost;
    StartedInv(s);
    RunKeeps(s, moves);
    LostForever(Run(s, moves), more);
  }
}
