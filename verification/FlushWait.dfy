/** What has become of the enqueued flush requests of the asynchronous logger when approx_size() is 0. */
module FlushWait {
  import opened Wrappers
  import opened Mpmc
  import opened AsyncLog
  import MpmcRuns

  /** A flush or terminate message, which asks for a flush of the sinks. */
  predicate Requests(m: Message) {
    !m.Log?
  }

  /** A flush of the sinks comes after message k was taken. */
  ghost predicate Followed(trace: seq<Event>, k: nat) {
    exists j :: 0 <= j < |trace| && FlushesAfter(trace, j, k)
  }

  predicate FlushesAfter(trace: seq<Event>, j: nat, k: nat)
    requires j < |trace|
  {
    trace[j] == Flushed && |Taken(trace[..j])| > k
  }

  lemma {:induction false} TakenGrows(trace: seq<Event>, j: nat)
    requires j <= |trace|
    ensures |Taken(trace[..j])| <= |Taken(trace)|
    decreases |trace|
  {
    if j == |trace| {
      assert trace[..j] == trace;
    } else {
      var p := trace[..|trace| - 1];
      TakenGrows(p, j);
      assert p[..j] == trace[..j];
    }
  }

  lemma NotFollowedYet(trace: seq<Event>, k: nat)
    requires k >= |Taken(trace)|
    ensures !Followed(trace, k)
  {
    hide Taken;
    forall j | 0 <= j < |trace|
      ensures !FlushesAfter(trace, j, k)
    {
      TakenGrows(trace, j);
    }
  }

  lemma FollowedOneMore(trace: seq<Event>, e: Event, k: nat)
    ensures Followed(trace + [e], k) <==> Followed(trace, k) || (e.Flushed? && |Taken(trace)| > k)
  {
    hide Taken;
    var t := trace + [e];
    assert t[..|trace|] == trace;
    forall j | 0 <= j < |trace|
      ensures FlushesAfter(t, j, k) <==> FlushesAfter(trace, j, k)
    {
      assert t[..j] == trace[..j];
    }
    if e.Flushed? && |Taken(trace)| > k {
      assert FlushesAfter(t, |trace|, k);
    }
  }

  /** Some request was taken and no flush came after it. */
  ghost predicate Unanswered(trace: seq<Event>) {
    exists k :: 0 <= k < |Taken(trace)| && OpenRequest(trace, k)
  }

  ghost predicate OpenRequest(trace: seq<Event>, k: nat)
    requires k < |Taken(trace)|
  {
    Requests(Taken(trace)[k]) && !Followed(trace, k)
  }

  /** The flag _flush_requested says whether a request is unanswered. */
  lemma {:induction false} PendingMeans(trace: seq<Event>)
    ensures Pending(trace) <==> Unanswered(trace)
  {
    if trace != [] {
      var p, e := trace[..|trace| - 1], trace[|trace| - 1];
      assert trace == p + [e];
      PendingMeans(p);
      OneMoreEvent(p, e);
      hide Taken, Pending;
      forall k | 0 <= k < |Taken(p)|
        ensures OpenRequest(trace, k) <==> OpenRequest(p, k) && !e.Flushed?
      {
        FollowedOneMore(p, e, k);
      }
      if e.Took? {
        NotFollowedYet(p, |Taken(p)|);
        FollowedOneMore(p, e, |Taken(p)|);
        assert OpenRequest(trace, |Taken(p)|) <==> Requests(e.m);
      }
    }
  }

  /** Whenever approx_size() is 0 in a run of the logger, every item but at most the last is taken, and that
      one exactly when the worker is not in the middle of its dequeue. */
  lemma WaitedForClaim(s: Helper, moves: seq<Move>)
    requires Started(s) && CanRun(s, moves)
    requires var f := Run(s, moves); MpmcRuns.ApproxSize(f.q.dequeuePos, f.q.enqueuePos, |f.q.cells|) == 0
    ensures var f := Run(s, moves); |f.q.threads| > 0
    ensures var f := Run(s, moves); Taken(f.trace) == f.q.h.items <==> !Takes(f.q.threads[0])
    ensures var f := Run(s, moves); Takes(f.q.threads[0]) ==>
      f.q.h.items != [] && Taken(f.trace) == f.q.h.items[..|f.q.h.items| - 1]
  {
    hide Inv, Apply, Next, Run, CanRun, Taken, Pending;
    StartedInv(s);
    RunKeeps(s, moves);
    var f := Run(s, moves);
    InLogInv(f);
    var items := f.q.h.items;
    assert items[..|items|] == items;
    if Takes(f.q.threads[0]) {
      assert |items[..|items| - 1]| < |items|;
    }
  }

  /** Every enqueued flush request is taken and followed by a flush of the sinks. */
  ghost predicate AllAnswered(items: seq<Message>, trace: seq<Event>) {
    forall k :: 0 <= k < |items| ==> Answered(items, trace, k)
  }

  ghost predicate Answered(items: seq<Message>, trace: seq<Event>, k: nat)
    requires k < |items|
  {
    Requests(items[k]) ==> Followed(trace, k)
  }

  lemma AnsweredWhen(items: seq<Message>, trace: seq<Event>, outstanding: bool)
    requires outstanding ==> items != []
    requires Taken(trace) == if outstanding then items[..|items| - 1] else items
    ensures AllAnswered(items, trace) <==> !Pending(trace) && !(outstanding && Requests(items[|items| - 1]))
  {
    PendingMeans(trace);
    hide Taken, Pending, Followed;
    var n := |Taken(trace)|;
    NotFollowedYet(trace, n);
    forall k | 0 <= k < n
      ensures Answered(items, trace, k) <==> !OpenRequest(trace, k)
    {
    }
    if outstanding {
      assert Answered(items, trace, n) <==> !Requests(items[n]);
    }
  }

  /** Whenever approx_size() is 0, all enqueued requests are answered exactly if no flush is pending and the worker
      is not in the middle of dequeuing a request. */
  lemma EnqueuedAnswered(s: Helper, moves: seq<Move>)
    requires Started(s) && CanRun(s, moves)
    requires var f := Run(s, moves); MpmcRuns.ApproxSize(f.q.dequeuePos, f.q.enqueuePos, |f.q.cells|) == 0
    ensures var f := Run(s, moves); |f.q.threads| > 0 && (Takes(f.q.threads[0]) ==> f.q.h.items != [])
    ensures var f := Run(s, moves);
      AllAnswered(f.q.h.items, f.trace) <==>
      !f.flushRequested && !(Takes(f.q.threads[0]) && Requests(f.q.h.items[|f.q.h.items| - 1]))
  {
    var f := Run(s, moves);
    hide Inv, CanRun, Run, Taken, Pending, AllAnswered;
    FlagMeansPending(s, moves);
    WaitedForClaim(s, moves);
    AnsweredWhen(f.q.h.items, f.trace, Takes(f.q.threads[0]));
  }

  lemma FlagMeansPending(s: Helper, moves: seq<Move>)
    requires Started(s) && CanRun(s, moves)
    ensures Run(s, moves).flushRequested == Pending(Run(s, moves).trace)
  {
    hide Inv, Apply, Next, Run, CanRun, Taken, Pending;
    StartedInv(s);
    RunKeeps(s, moves);
  }

  /** The state of a run in which its worker is inside dequeue, and what that step of the worker leads to. */
  ghost predicate WorkerTurn(s: Helper, moves: seq<Move>, a: Move, f: Helper, g: Helper) {
    && Started(s) && CanRun(s, moves) && f == Run(s, moves)
    && a.Advance? && a.tid == 0 && Sized(f.q) && CanMove(f, a) && g == Next(f, a) && |g.q.threads| > 0
  }

  /** An empty queue makes the worker flush if some request is without a flush or the time for a periodic one has
      come, and makes it stop if it took the terminate message; a message keeps it active without a flush. */
  lemma WorkerAnswers(s: Helper, moves: seq<Move>, a: Move, f: Helper, g: Helper)
    requires WorkerTurn(s, moves, a, f, g)
    ensures g.q.threads[0] == DeqReturned(None) ==>
      && g.trace == f.trace + (if Unanswered(f.trace) || a.intervalElapsed then [Flushed] else [])
      && (g.active <==> Terminate !in Taken(f.trace))
    ensures g.q.threads[0].DeqReturned? && g.q.threads[0].result.Some? ==>
      g.active && g.trace == f.trace + [Took(g.q.threads[0].result.value)]
    ensures !g.q.threads[0].DeqReturned? ==> g.active && g.trace == f.trace
  {
    TurnReached(s, moves, a, f, g);
    PendingMeans(f.trace);
    hide *;
    Returned(f.(q := g.q), g, a.intervalElapsed);
  }

  /** The end of process_next_msg. */
  lemma Returned(t: Helper, g: Helper, elapsed: bool)
    requires |t.q.threads| > 0 && t.active && g == WorkerReturns(t, elapsed)
    ensures g.q == t.q
    ensures t.q.threads[0] == DeqReturned(None) ==>
      && g.trace == t.trace + (if t.flushRequested || elapsed then [Flushed] else [])
      && g.active == !t.terminateRequested
    ensures t.q.threads[0].DeqReturned? && t.q.threads[0].result.Some? ==>
      g.active && g.trace == t.trace + [Took(t.q.threads[0].result.value)]
    ensures !t.q.threads[0].DeqReturned? ==> g.active && g.trace == t.trace
  {
  }

  lemma TurnReturns(a: Move, f: Helper, g: Helper)
    requires a.Advance? && a.tid == 0 && Sized(f.q) && CanMove(f, a) && g == Next(f, a) && |g.q.threads| > 0
    ensures g == WorkerReturns(f.(q := g.q), a.intervalElapsed)
  {
    var t := f.(q := Apply(f.q, Step(0, a.swaps, a.left)));
    hide Apply, Sized;
    assert g == WorkerReturns(t, a.intervalElapsed);
    hide CanMove, Next;
    assert g.q == t.q;
  }

  lemma TurnReached(s: Helper, moves: seq<Move>, a: Move, f: Helper, g: Helper)
    requires WorkerTurn(s, moves, a, f, g)
    ensures f.active && f.flushRequested == Pending(f.trace)
    ensures f.terminateRequested <==> Terminate in Taken(f.trace)
    ensures g == WorkerReturns(f.(q := g.q), a.intervalElapsed)
  {
    TurnReturns(a, f, g);
    hide Inv, Apply, Next, WorkerReturns, Run, CanRun, Taken, Pending, Roles, Terminates;
    StartedInv(s);
    RunKeeps(s, moves);
    TerminateTaken(f);
  }

  lemma TerminateTaken(s: Helper)
    requires LogInv(s)
    ensures s.terminateRequested <==> Terminate in Taken(s.trace)
  {
    hide Inv, Taken, Pending, Terminates;
    var n := Handled(s);
    assert forall k :: 0 <= k < n ==> s.q.h.items[..n][k] == s.q.h.items[k];
  }
}
