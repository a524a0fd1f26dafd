/** The queue between the reading and the analysing thread, as a state machine: each critical section is
    one step that can be taken when its waiting condition holds, and the loop tests outside the lock are
    steps of their own. */
module AsyncDataQueue {

  const WORD := 0x1_0000_0000_0000_0000

  /** An unsigned machine word. */
  type Word = n: nat | n < WORD

  /** Where a thread is in a call: testing the loop condition of addDataPoints, waiting in one of the
      critical sections, or testing the loop condition of popDataPoints. */
  datatype Thread<T> =
    | Idle
    | AddTest(points: seq<T>, done: nat)
    | AddWait(points: seq<T>, done: nat)
    | AddOneWait(point: T)
    | PopWait(wanted: nat, got: seq<T>)
    | PopTest(wanted: nat, got: seq<T>)
    | NextWait(count: nat)

  datatype State<T> = State(dataQueue: seq<T>, streamEnded: bool, queueMaxSize: Word, threads: seq<Thread<T>>)

  datatype Action<T> =
    | AddDataPoints(tid: nat, points: seq<T>)
    | AddDataPoint(tid: nat, point: T)
    | PopDataPoints(tid: nat, wanted: nat)
    | NextDataPoints(tid: nat, count: nat)
    | Step(tid: nat)
    | NotifyStreamEnd
    | RestartStreaming
    | DiscardRestOfStream
    | SetQueueMaxSize(maxSize: Word)

  predicate QueueNotFull<T>(s: State<T>) {
    |s.dataQueue| < s.queueMaxSize || s.streamEnded
  }

  /** The waiting condition of a critical section. */
  predicate Ready<T>(s: State<T>, t: Thread<T>) {
    match t
    case Idle => false
    case AddTest(_, _) => true
    case AddWait(_, _) => QueueNotFull(s)
    case AddOneWait(_) => QueueNotFull(s)
    case PopWait(_, _) => |s.dataQueue| > 0 || s.streamEnded
    case PopTest(_, _) => true
    case NextWait(count) => |s.dataQueue| >= count || s.streamEnded
  }

  /** Every thread has done or got at most what its call asked for. */
  predicate Fits<T>(t: Thread<T>) {
    match t
    case AddTest(points, done) => done <= |points|
    case AddWait(points, done) => done < |points|
    case PopWait(wanted, got) => |got| <= wanted
    case PopTest(wanted, got) => |got| <= wanted
    case _ => true
  }

  predicate Valid<T>(s: State<T>) {
    forall tid :: 0 <= tid < |s.threads| ==> Fits(s.threads[tid])
  }

  predicate Enabled<T>(s: State<T>, a: Action<T>) {
    match a
    case Step(tid) => tid < |s.threads| && Ready(s, s.threads[tid])
    case AddDataPoints(tid, _) => tid < |s.threads| && s.threads[tid].Idle?
    case AddDataPoint(tid, _) => tid < |s.threads| && s.threads[tid].Idle?
    case PopDataPoints(tid, _) => tid < |s.threads| && s.threads[tid].Idle?
    case NextDataPoints(tid, _) => tid < |s.threads| && s.threads[tid].Idle?
    case _ => true
  }

  function Min(a: nat, b: nat): nat {
    if a < b then a else b
  }

  /** queue_max_size - data_queue.size(), as unsigned arithmetic computes it. */
  function PushableElements(maxSize: Word, size: nat): Word {
    (maxSize + WORD - size % WORD) % WORD
  }

  function Goto<T>(s: State<T>, tid: nat, t: Thread<T>): State<T>
    requires tid < |s.threads|
  {
    s.(threads := s.threads[tid := t])
  }

  function Pushes<T>(s: State<T>, t: Thread<T>): seq<T>
    requires Fits(t)
  {
    match t
    case AddWait(points, done) =>
      var k := Min(|points| - done, PushableElements(s.queueMaxSize, |s.dataQueue|));
      points[done..done + k]
    case AddOneWait(point) => [point]
    case _ => []
  }

  /** How many points a critical section takes off the front of the queue. */
  function Takes<T>(s: State<T>, t: Thread<T>): (n: nat)
    requires Fits(t)
    ensures n <= |s.dataQueue|
  {
    match t
    case PopWait(wanted, got) => Min(wanted - |got|, |s.dataQueue|)
    case NextWait(count) => Min(count, |s.dataQueue|)
    case _ => 0
  }

  function Moves<T>(s: State<T>, t: Thread<T>): Thread<T>
    requires Fits(t)
  {
    match t
    case AddTest(points, done) => if done < |points| && !s.streamEnded then AddWait(points, done) else Idle
    case AddWait(points, done) => AddTest(points, done + |Pushes(s, t)|)
    case PopWait(wanted, got) => PopTest(wanted, got + s.dataQueue[..Takes(s, t)])
    case PopTest(wanted, got) => if |got| < wanted && !s.streamEnded then PopWait(wanted, got) else Idle
    case _ => Idle
  }

  function Apply<T>(s: State<T>, a: Action<T>): (s': State<T>)
    requires Valid(s) && Enabled(s, a)
    ensures Valid(s')
  {
    match a
    case AddDataPoints(tid, points) => Goto(s, tid, AddTest(points, 0))
    case AddDataPoint(tid, point) => Goto(s, tid, AddOneWait(point))
    case PopDataPoints(tid, wanted) => Goto(s, tid, PopWait(wanted, []))
    case NextDataPoints(tid, count) => Goto(s, tid, NextWait(count))
    case Step(tid) =>
      var t := s.threads[tid];
      Goto(s, tid, Moves(s, t)).(dataQueue := s.dataQueue[Takes(s, t)..] + Pushes(s, t))
    case NotifyStreamEnd => s.(streamEnded := true)
    case RestartStreaming => s.(streamEnded := false)
    case DiscardRestOfStream => s.(dataQueue := [], streamEnded := true)
    case SetQueueMaxSize(maxSize) => s.(queueMaxSize := maxSize)
  }

  predicate Executable<T>(s: State<T>, actions: seq<Action<T>>)
    requires Valid(s)
    decreases |actions|
  {
    actions == [] || (Enabled(s, actions[0]) && Executable(Apply(s, actions[0]), actions[1..]))
  }

  function Final<T>(s: State<T>, actions: seq<Action<T>>): (f: State<T>)
    requires Valid(s) && Executable(s, actions)
    ensures Valid(f)
    decreases |actions|
  {
    if actions == [] then s else Final(Apply(s, actions[0]), actions[1..])
  }

  /** What one step appends to the queue and takes off its front. */
  function PushedBy<T>(s: State<T>, a: Action<T>): seq<T>
    requires Valid(s) && Enabled(s, a)
  {
    if a.Step? then Pushes(s, s.threads[a.tid]) else []
  }

  function RemovedBy<T>(s: State<T>, a: Action<T>): seq<T>
    requires Valid(s) && Enabled(s, a)
  {
    if a.Step? then s.dataQueue[..Takes(s, s.threads[a.tid])]
    else if a.DiscardRestOfStream? then s.dataQueue
    else []
  }

  /** The chunk that one step hands to its popDataPoints. */
  function PoppedBy<T>(s: State<T>, a: Action<T>): seq<T>
    requires Valid(s) && Enabled(s, a)
  {
    if a.Step? && s.threads[a.tid].PopWait? then RemovedBy(s, a) else []
  }

  function Pushed<T>(s: State<T>, actions: seq<Action<T>>): seq<T>
    requires Valid(s) && Executable(s, actions)
    decreases |actions|
  {
    if actions == [] then [] else PushedBy(s, actions[0]) + Pushed(Apply(s, actions[0]), actions[1..])
  }

  function Removed<T>(s: State<T>, actions: seq<Action<T>>): seq<T>
    requires Valid(s) && Executable(s, actions)
    decreases |actions|
  {
    if actions == [] then [] else RemovedBy(s, actions[0]) + Removed(Apply(s, actions[0]), actions[1..])
  }

  function Popped<T>(s: State<T>, actions: seq<Action<T>>): seq<T>
    requires Valid(s) && Executable(s, actions)
    decreases |actions|
  {
    if actions == [] then [] else PoppedBy(s, actions[0]) + Popped(Apply(s, actions[0]), actions[1..])
  }

  /** A step removes from the front and appends to the back. */
  lemma StepConserves<T>(s: State<T>, a: Action<T>)
    requires Valid(s) && Enabled(s, a)
    ensures s.dataQueue + PushedBy(s, a) == RemovedBy(s, a) + Apply(s, a).dataQueue
  {
    if a.Step? {
      var k := Takes(s, s.threads[a.tid]);
      assert s.dataQueue == s.dataQueue[..k] + s.dataQueue[k..];
    }
  }

  /** In every run: what was in the queue and what was pushed, in order, is what was removed followed by
      what is left. */
  lemma {:induction false} Conserved<T>(s: State<T>, actions: seq<Action<T>>)
    requires Valid(s) && Executable(s, actions)
    ensures s.dataQueue + Pushed(s, actions) == Removed(s, actions) + Final(s, actions).dataQueue
    decreases |actions|
  {
    hide Apply, PushedBy, RemovedBy, Enabled;
    if actions == [] {
      assert s.dataQueue + [] == [] + s.dataQueue;
    } else {
      var a, rest := actions[0], actions[1..];
      var s' := Apply(s, a);
      StepConserves(s, a);
      Conserved(s', rest);
      Regroup(s.dataQueue, PushedBy(s, a), Pushed(s', rest), RemovedBy(s, a), s'.dataQueue, Removed(s', rest),
          Final(s', rest).dataQueue);
    }
  }

  lemma Regroup<T>(q: seq<T>, p: seq<T>, ps: seq<T>, r: seq<T>, q': seq<T>, rs: seq<T>, f: seq<T>)
    requires q + p == r + q' && q' + ps == rs + f
    ensures q + (p + ps) == (r + rs) + f
  {
    assert q + (p + ps) == (q + p) + ps;
    assert (r + q') + ps == r + (q' + ps);
    assert r + (rs + f) == (r + rs) + f;
  }

  predicate OnlyPops<T>(actions: seq<Action<T>>) {
    forall i :: 0 <= i < |actions| ==> !actions[i].DiscardRestOfStream? && !actions[i].NextDataPoints?
  }

  predicate NoNext<T>(s: State<T>) {
    forall tid :: 0 <= tid < |s.threads| ==> !s.threads[tid].NextWait?
  }

  /** When nothing is discarded or skipped, all that is removed is popped. */
  lemma {:induction false} RemovedIsPopped<T>(s: State<T>, actions: seq<Action<T>>)
    requires Valid(s) && Executable(s, actions) && OnlyPops(actions) && NoNext(s)
    ensures Removed(s, actions) == Popped(s, actions)
    decreases |actions|
  {
    if actions != [] {
      var a, s' := actions[0], Apply(s, actions[0]);
      NoNextStep(s, a);
      assert forall i :: 0 <= i < |actions[1..]| ==> actions[1..][i] == actions[i + 1];
      hide Apply;
      RemovedIsPopped(s', actions[1..]);
    }
  }

  lemma NoNextStep<T>(s: State<T>, a: Action<T>)
    requires Valid(s) && Enabled(s, a) && NoNext(s) && !a.NextDataPoints? && !a.DiscardRestOfStream?
    ensures NoNext(Apply(s, a)) && RemovedBy(s, a) == PoppedBy(s, a)
  {
    hide PushableElements, Pushes, Ready;
    assert s.dataQueue[..0] == [];
  }

  /** First in, first out: in every run from an empty queue that discards and skips nothing, the popped
      chunks followed by the queue are the pushed chunks. */
  lemma FirstInFirstOut<T>(s: State<T>, actions: seq<Action<T>>)
    requires Valid(s) && Executable(s, actions) && OnlyPops(actions) && NoNext(s) && s.dataQueue == []
    ensures Pushed(s, actions) == Popped(s, actions) + Final(s, actions).dataQueue
  {
    hide Pushed, Popped, Removed, Final, Executable, NoNext, OnlyPops;
    Conserved(s, actions);
    RemovedIsPopped(s, actions);
    assert [] + Pushed(s, actions) == Pushed(s, actions);
  }

  lemma PushableIs(maxSize: Word, size: Word)
    ensures PushableElements(maxSize, size) == if size <= maxSize then maxSize - size else maxSize - size + WORD
  {
  }

  /** What takes the queue beyond its maximum: lowering the maximum below the size, and adding a single
      point to a full queue, which is possible only after the end of the stream. */
  predicate Overfills<T>(s: State<T>, a: Action<T>)
    requires Enabled(s, a)
  {
    match a
    case SetQueueMaxSize(maxSize) => maxSize < |s.dataQueue|
    case Step(tid) => s.threads[tid].AddOneWait? && |s.dataQueue| == s.queueMaxSize
    case _ => false
  }

  lemma BoundKept<T>(s: State<T>, a: Action<T>)
    requires Valid(s) && Enabled(s, a) && |s.dataQueue| <= s.queueMaxSize
    ensures |Apply(s, a).dataQueue| <= Apply(s, a).queueMaxSize <==> !Overfills(s, a)
    ensures Overfills(s, a) && a.Step? ==> s.streamEnded
  {
    PushableIs(s.queueMaxSize, |s.dataQueue|);
  }

  /** No step of the run overfills the queue. */
  predicate Tame<T>(s: State<T>, actions: seq<Action<T>>)
    requires Valid(s) && Executable(s, actions)
    decreases |actions|
  {
    actions != [] ==>
      !Overfills(s, actions[0]) && Tame(Apply(s, actions[0]), actions[1..])
  }

  lemma {:induction false} SizeBounded<T>(s: State<T>, actions: seq<Action<T>>)
    requires Valid(s) && Executable(s, actions) && Tame(s, actions) && |s.dataQueue| <= s.queueMaxSize
    ensures |Final(s, actions).dataQueue| <= Final(s, actions).queueMaxSize
    decreases |actions|
  {
    if actions != [] {
      BoundKept(s, actions[0]);
      hide Apply, Overfills;
      SizeBounded(Apply(s, actions[0]), actions[1..]);
    }
  }

  /** After the end of the stream a queue above its maximum has no limit left: the difference wraps round,
      and all points of the call are inserted. */
  lemma OverfullTakesAll<T>(s: State<T>, tid: nat)
    requires Valid(s) && tid < |s.threads| && s.threads[tid].AddWait?
    requires |s.dataQueue| > s.queueMaxSize && s.streamEnded
    requires |s.threads[tid].points| + |s.dataQueue| < 0x1_0000_0000_0000_0000
    ensures Apply(s, Step(tid)).dataQueue == s.dataQueue + s.threads[tid].points[s.threads[tid].done..]
  {
    PushableIs(s.queueMaxSize, |s.dataQueue|);
  }

  /** A critical section of addDataPoints pushes the next points of its call, as many as are recorded as
      done, and at least one as long as the stream has not ended. */
  lemma AddMovesOn<T>(s: State<T>, tid: nat)
    requires Valid(s) && Enabled(s, Step(tid)) && s.threads[tid].AddWait?
    ensures var t, pushed := s.threads[tid], PushedBy(s, Step(tid));
      && t.done + |pushed| <= |t.points| && pushed == t.points[t.done..t.done + |pushed|]
      && Apply(s, Step(tid)).threads[tid] == AddTest(t.points, t.done + |pushed|)
      && (!s.streamEnded ==> pushed != [])
  {
    assert Fits(s.threads[tid]);
    if !s.streamEnded {
      PushableIs(s.queueMaxSize, |s.dataQueue|);
    }
  }
}
