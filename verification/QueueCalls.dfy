/** What the calls of the queue between reader and analyser return, over whole runs. */
module QueueCalls {
  import opened AsyncDataQueue

  /** What a thread's present call has done: the action that made the call, the points that each of its critical
      sections has taken or added, whether each of them, and whether each of its loop tests, found the stream ended,
      the queue as the last section found it, and what each step of others since then, or since the queue was
      cleared, has pushed. */
  datatype Call<T> = Call(
    asked: Action<T>, chunks: seq<seq<T>>, late: seq<bool>, tests: seq<bool>, before: seq<T>, pushes: seq<seq<T>>)

  /** A finished call: the result of a pop, what the call did, whether its last step found the stream ended, the
      queue it left, and the number of actions of the run before that step. */
  datatype Return<T> = Return(result: seq<T>, call: Call<T>, ended: bool, left: seq<T>, at: nat)

  datatype Book<T> = Book(calls: seq<Call<T>>, finished: seq<Return<T>>, steps: nat)

  function NewCall<T>(a: Action<T>): Call<T> {
    Call(a, [], [], [], [], [])
  }

  function EmptyBook<T>(s: State<T>): Book<T> {
    Book(seq(|s.threads|, _ => NewCall(NotifyStreamEnd)), [], 0)
  }

  function Joined<T>(chunks: seq<seq<T>>): seq<T> {
    if chunks == [] then [] else Joined(chunks[..|chunks| - 1]) + chunks[|chunks| - 1]
  }

  /** The book entry of thread j after one action. */
  function Noted<T>(s: State<T>, a: Action<T>, j: nat, c: Call<T>): Call<T>
    requires Valid(s) && Enabled(s, a) && j < |s.threads|
  {
    match a
    case PopDataPoints(tid, _) => if tid == j then NewCall(a) else c
    case AddDataPoints(tid, _) => if tid == j then NewCall(a) else c
    case AddDataPoint(tid, _) => if tid == j then NewCall(a) else c
    case NextDataPoints(tid, _) => if tid == j then NewCall(a) else c
    case DiscardRestOfStream => c.(pushes := [])
    case Step(tid) => if tid == j then OwnStep(s, a, c) else c.(pushes := c.pushes + [PushedBy(s, a)])
    case _ => c
  }

  /** The entry of the thread that takes the step. */
  function OwnStep<T>(s: State<T>, a: Action<T>, c: Call<T>): Call<T>
    requires Valid(s) && Enabled(s, a) && a.Step?
  {
    match s.threads[a.tid]
    case PopWait(_, _) => Section(s, c, PoppedBy(s, a)).(before := s.dataQueue, pushes := [])
    case NextWait(_) => Section(s, c, RemovedBy(s, a)).(before := s.dataQueue, pushes := [])
    case AddWait(_, _) => Section(s, c, PushedBy(s, a))
    case AddOneWait(_) => Section(s, c, PushedBy(s, a))
    case AddTest(_, _) => c.(tests := c.tests + [s.streamEnded])
    case PopTest(_, _) => c.(tests := c.tests + [s.streamEnded])
    case Idle => c
  }

  /** One more critical section of the call. */
  function Section<T>(s: State<T>, c: Call<T>, chunk: seq<T>): Call<T> {
    c.(chunks := c.chunks + [chunk], late := c.late + [s.streamEnded])
  }

  /** The call that this action ends. */
  function Ended<T>(s: State<T>, a: Action<T>, b: Book<T>): seq<Return<T>>
    requires Valid(s) && Enabled(s, a) && |b.calls| == |s.threads|
  {
    if a.Step? && Apply(s, a).threads[a.tid].Idle? then
      var t := s.threads[a.tid];
      var result := if t.PopTest? then t.got else [];
      [Return(result, Noted(s, a, a.tid, b.calls[a.tid]), s.streamEnded, Apply(s, a).dataQueue, b.steps)]
    else []
  }

  function Kept<T>(s: State<T>, a: Action<T>, b: Book<T>): (b': Book<T>)
    requires Valid(s) && Enabled(s, a) && |b.calls| == |s.threads|
    ensures |b'.calls| == |Apply(s, a).threads|
  {
    Book(seq(|b.calls|, j requires 0 <= j < |b.calls| => Noted(s, a, j, b.calls[j])), b.finished + Ended(s, a, b),
         b.steps + 1)
  }

  function Booked<T>(s: State<T>, actions: seq<Action<T>>, b: Book<T>): (f: Book<T>)
    requires Valid(s) && Executable(s, actions) && |b.calls| == |s.threads|
    decreases |actions|
  {
    if actions == [] then b else Booked(Apply(s, actions[0]), actions[1..], Kept(s, actions[0], b))
  }

  /** The calls that a run from s ends, in order. */
  function Returns<T>(s: State<T>, actions: seq<Action<T>>): seq<Return<T>>
    requires Valid(s) && Executable(s, actions)
  {
    Booked(s, actions, EmptyBook(s)).finished
  }

  /** What the book says of a thread in a call. */
  ghost predicate CallOk<T>(t: Thread<T>, c: Call<T>) {
    match t
    case PopWait(wanted, got) =>
      c.asked.PopDataPoints? && c.asked.wanted == wanted && Joined(c.chunks) == got && |c.late| == |c.chunks| &&
      GoesOn(c, |c.chunks|)
    case PopTest(wanted, got) =>
      c.asked.PopDataPoints? && c.asked.wanted == wanted && Joined(c.chunks) == got && SectionOk(c, |got| < wanted)
    case AddWait(points, done) => AddOk(points, done, c) && GoesOn(c, |c.chunks| + 1)
    case AddTest(points, done) => AddOk(points, done, c) && GoesOn(c, |c.chunks|)
    case AddOneWait(point) => c.asked.AddDataPoint? && c.asked.point == point && c.chunks == []
    case NextWait(count) => c.asked.NextDataPoints? && c.asked.count == count && c.chunks == []
    case Idle => true
  }

  ghost predicate AddOk<T>(points: seq<T>, done: nat, c: Call<T>) {
    && c.asked.AddDataPoints? && c.asked.points == points
    && done <= |points| && Joined(c.chunks) == points[..done] && MovesOn(c)
  }

  /** The last critical section of a pop found a point or the end of the stream, and took all there was if
      that is not enough. */
  ghost predicate SectionOk<T>(c: Call<T>, short: bool) {
    && |c.late| == |c.chunks| > 0 && (c.before != [] || c.late[|c.late| - 1])
    && (short ==> c.chunks[|c.chunks| - 1] == c.before) && GoesOn(c, |c.chunks| - 1)
  }

  /** The call has made n loop tests, and none of them found the stream ended. */
  predicate GoesOn<T>(c: Call<T>, n: int) {
    |c.tests| == n && forall i :: 0 <= i < n ==> !c.tests[i]
  }

  /** The call has made n loop tests, and none of them but perhaps the last found the stream ended. */
  predicate Tested<T>(r: Return<T>, n: nat) {
    && |r.call.tests| == n > 0 && r.call.tests[n - 1] == r.ended
    && forall i :: 0 <= i < n - 1 ==> !r.call.tests[i]
  }

  /** Every critical section of an add has pushed a point, as long as the stream had not ended. */
  predicate MovesOn<T>(c: Call<T>) {
    |c.late| == |c.chunks| && forall i :: 0 <= i < |c.chunks| ==> |c.chunks[i]| > 0 || c.late[i]
  }

  /** What a finished call has done for its caller. A pop hands out its chunks in order; it is short only if
      its last test found the stream ended, and then its last critical section emptied the queue; it hands
      out nothing only if that section found the queue empty and the stream ended. An add of several points has
      pushed a prefix of its points, a point in every critical section before the end of the stream; the prefix is
      short only if the stream had ended. Both test the stream after every critical section, an add before its first
      as well, and no section follows a test that found the stream ended. An add of one point has pushed it. A
      removal has taken as many points as asked, or all there were after the end of the stream. */
  ghost predicate ReturnOk<T>(r: Return<T>) {
    match r.call.asked
    case PopDataPoints(_, wanted) =>
      && r.result == Joined(r.call.chunks) && |r.result| <= wanted && |r.call.late| == |r.call.chunks| > 0
      && Tested(r, |r.call.chunks|)
      && (|r.result| < wanted ==> r.ended && r.call.chunks[|r.call.chunks| - 1] == r.call.before)
      && (r.result == [] && wanted > 0 ==> r.call.before == [] && r.call.late[|r.call.late| - 1])
    case AddDataPoints(_, points) =>
      && Joined(r.call.chunks) <= points && MovesOn(r.call) && Tested(r, |r.call.chunks| + 1)
      && (|Joined(r.call.chunks)| < |points| ==> r.ended)
    case AddDataPoint(_, point) => r.call.chunks == [[point]]
    case NextDataPoints(_, count) =>
      && |r.call.chunks| == 1 && |r.call.chunks[0]| <= count
      && (|r.call.chunks[0]| < count ==> r.ended && r.left == [])
    case _ => false
  }

  lemma JoinedMore<T>(chunks: seq<seq<T>>, c: seq<T>)
    ensures Joined(chunks + [c]) == Joined(chunks) + c
  {
    assert (chunks + [c])[..|chunks|] == chunks;
  }

  ghost predicate BookOk<T>(s: State<T>, b: Book<T>) {
    && |b.calls| == |s.threads|
    && (forall j :: 0 <= j < |s.threads| ==> CallOk(s.threads[j], b.calls[j]))
    && forall k :: 0 <= k < |b.finished| ==> ReturnOk(b.finished[k])
  }

  lemma SectionNoted<T>(s: State<T>, a: Action<T>, c: Call<T>)
    requires Valid(s) && Enabled(s, a) && a.Step? && CallOk(s.threads[a.tid], c)
    ensures a.tid < |Apply(s, a).threads| && CallOk(Apply(s, a).threads[a.tid], Noted(s, a, a.tid, c))
  {
    hide PushableElements, Ready, Pushes, Takes;
    assert Fits(s.threads[a.tid]) && Ready(s, s.threads[a.tid]);
    match s.threads[a.tid]
    case PopWait(wanted, got) => PopNoted(s, a.tid, c);
    case AddWait(points, done) => AddNoted(s, a.tid, c);
    case _ =>
  }

  lemma PopNoted<T>(s: State<T>, tid: nat, c: Call<T>)
    requires Valid(s) && Enabled(s, Step(tid)) && s.threads[tid].PopWait? && CallOk(s.threads[tid], c)
    ensures CallOk(Apply(s, Step(tid)).threads[tid], Noted(s, Step(tid), tid, c))
  {
    hide Joined, PushableElements, Pushes;
    JoinedMore(c.chunks, PoppedBy(s, Step(tid)));
    var k := Takes(s, s.threads[tid]);
    assert k == |s.dataQueue| ==> s.dataQueue[..k] == s.dataQueue;
  }

  lemma AddNoted<T>(s: State<T>, tid: nat, c: Call<T>)
    requires Valid(s) && Enabled(s, Step(tid)) && s.threads[tid].AddWait? && CallOk(s.threads[tid], c)
    ensures CallOk(Apply(s, Step(tid)).threads[tid], Noted(s, Step(tid), tid, c))
  {
    AddMovesOn(s, tid);
    hide PushableElements, Pushes, Apply;
    var chunk, points, done := PushedBy(s, Step(tid)), s.threads[tid].points, s.threads[tid].done;
    JoinedMore(c.chunks, chunk);
    hide Joined;
    assert points[..done] + points[done..done + |chunk|] == points[..done + |chunk|];
  }

  lemma OthersNoted<T>(s: State<T>, a: Action<T>, j: nat, c: Call<T>)
    requires Valid(s) && Enabled(s, a) && j < |s.threads| && CallOk(s.threads[j], c) && !(a.Step? && a.tid == j)
    ensures j < |Apply(s, a).threads| && CallOk(Apply(s, a).threads[j], Noted(s, a, j, c))
  {
    hide PushableElements, Ready, Pushes;
  }

  lemma EndedOk<T>(s: State<T>, a: Action<T>, b: Book<T>)
    requires Valid(s) && Enabled(s, a) && BookOk(s, b)
    ensures forall k :: 0 <= k < |Ended(s, a, b)| ==> ReturnOk(Ended(s, a, b)[k])
  {
    hide PushableElements, Joined;
    if a.Step? {
      var t, c := s.threads[a.tid], b.calls[a.tid];
      assert Fits(t) && CallOk(t, c);
      if t.AddOneWait? || t.NextWait? {
        OneSection(s, a, b);
      } else {
        hide Pushes, Takes;
        if t.PopTest? {
          LastJoined(c.chunks);
        }
      }
    }
  }

  lemma OneSection<T>(s: State<T>, a: Action<T>, b: Book<T>)
    requires Valid(s) && Enabled(s, a) && a.Step? && |b.calls| == |s.threads|
    requires s.threads[a.tid].AddOneWait? || s.threads[a.tid].NextWait?
    requires CallOk(s.threads[a.tid], b.calls[a.tid])
    ensures |Ended(s, a, b)| == 1 && ReturnOk(Ended(s, a, b)[0])
  {
    hide PushableElements, Joined;
    if s.threads[a.tid].AddOneWait? {
      AddOneSection(s, a.tid, b.calls[a.tid]);
    } else {
      NextSection(s, a.tid, b.calls[a.tid]);
    }
    hide Noted;
  }

  lemma AddOneSection<T>(s: State<T>, tid: nat, c: Call<T>)
    requires Valid(s) && Enabled(s, Step(tid)) && s.threads[tid].AddOneWait? && CallOk(s.threads[tid], c)
    ensures var c' := Noted(s, Step(tid), tid, c); c'.asked == c.asked && c'.chunks == [[s.threads[tid].point]]
  {
    hide PushableElements, Ready;
    assert [] + [PushedBy(s, Step(tid))] == [PushedBy(s, Step(tid))];
  }

  lemma NextSection<T>(s: State<T>, tid: nat, c: Call<T>)
    requires Valid(s) && Enabled(s, Step(tid)) && s.threads[tid].NextWait? && CallOk(s.threads[tid], c)
    ensures var c' := Noted(s, Step(tid), tid, c); var count := s.threads[tid].count;
      && c'.asked == c.asked && |c'.chunks| == 1 && |c'.chunks[0]| <= count
      && (|c'.chunks[0]| < count ==> s.streamEnded && Apply(s, Step(tid)).dataQueue == [])
  {
    hide PushableElements;
    var chunk := RemovedBy(s, Step(tid));
    assert [] + [chunk] == [chunk];
  }

  lemma LastJoined<T>(chunks: seq<seq<T>>)
    ensures chunks != [] && Joined(chunks) == [] ==> chunks[|chunks| - 1] == []
  {
  }

  lemma CallKept<T>(s: State<T>, a: Action<T>, j: nat, c: Call<T>)
    requires Valid(s) && Enabled(s, a) && j < |s.threads| && CallOk(s.threads[j], c)
    ensures j < |Apply(s, a).threads| && CallOk(Apply(s, a).threads[j], Noted(s, a, j, c))
  {
    hide *;
    if a.Step? && a.tid == j {
      SectionNoted(s, a, c);
    } else {
      OthersNoted(s, a, j, c);
    }
  }

  lemma BookKept<T>(s: State<T>, a: Action<T>, b: Book<T>)
    requires Valid(s) && Enabled(s, a) && BookOk(s, b)
    ensures BookOk(Apply(s, a), Kept(s, a, b))
  {
    hide CallOk, ReturnOk, Apply, Noted, Ended, Enabled, Valid;
    EndedOk(s, a, b);
    var s', b' := Apply(s, a), Kept(s, a, b);
    forall j | 0 <= j < |s'.threads|
      ensures CallOk(s'.threads[j], b'.calls[j])
    {
      CallKept(s, a, j, b.calls[j]);
    }
  }

  lemma {:induction false} BookedOk<T>(s: State<T>, actions: seq<Action<T>>, b: Book<T>)
    requires Valid(s) && Executable(s, actions) && BookOk(s, b)
    ensures BookOk(Final(s, actions), Booked(s, actions, b))
    decreases |actions|
  {
    hide Apply, BookOk, Kept, Enabled;
    assert |b.calls| == |s.threads| by {
      SameThreads(s, b);
    }
    if actions != [] {
      BookKept(s, actions[0], b);
      BookedOk(Apply(s, actions[0]), actions[1..], Kept(s, actions[0], b));
    }
  }

  lemma SameThreads<T>(s: State<T>, b: Book<T>)
    requires BookOk(s, b)
    ensures |b.calls| == |s.threads|
  {
  }

  predicate AllIdle<T>(s: State<T>) {
    forall tid :: 0 <= tid < |s.threads| ==> s.threads[tid].Idle?
  }

  /** Only thread c takes points. */
  predicate OnlyTaker<T>(actions: seq<Action<T>>, c: nat) {
    forall i :: 0 <= i < |actions| ==> (actions[i].PopDataPoints? || actions[i].NextDataPoints? ==> actions[i].tid == c)
  }

  predicate TakesPoints<T>(t: Thread<T>) {
    t.PopWait? || t.PopTest? || t.NextWait?
  }

  predicate Short<T>(t: Thread<T>) {
    t.PopTest? && |t.got| < t.wanted
  }

  /** While a lone consumer that got too little tests the end of the stream, the queue is what was pushed
      since its last critical section. */
  ghost predicate Alone<T>(s: State<T>, b: Book<T>, c: nat) {
    && |b.calls| == |s.threads|
    && (forall j :: 0 <= j < |s.threads| && j != c ==> !TakesPoints(s.threads[j]))
    && (c < |s.threads| && Short(s.threads[c]) ==> s.dataQueue == Joined(b.calls[c].pushes))
    && forall k :: 0 <= k < |b.finished| ==> LeftOk(b.finished[k])
  }

  /** A short pop leaves what was pushed since its last critical section, so it leaves points in the queue
      exactly if some such push was not empty. */
  ghost predicate LeftOk<T>(r: Return<T>) {
    r.call.asked.PopDataPoints? && |r.result| < r.call.asked.wanted ==>
      && r.left == Joined(r.call.pushes)
      && (r.left != [] <==> exists i :: 0 <= i < |r.call.pushes| && r.call.pushes[i] != [])
  }

  lemma {:induction false} JoinedEmpty<T>(chunks: seq<seq<T>>)
    ensures Joined(chunks) != [] <==> exists i :: 0 <= i < |chunks| && chunks[i] != []
  {
    if chunks != [] {
      var n := |chunks| - 1;
      JoinedEmpty(chunks[..n]);
      assert forall i :: 0 <= i < n ==> chunks[..n][i] == chunks[i];
    }
  }

  lemma AloneQueue<T>(s: State<T>, a: Action<T>, b: Book<T>, c: nat)
    requires Valid(s) && Enabled(s, a) && Alone(s, b, c) && c < |s.threads| && Short(Apply(s, a).threads[c])
    ensures Apply(s, a).dataQueue == Joined(Noted(s, a, c, b.calls[c]).pushes)
  {
    hide PushableElements, Joined, Ready;
    if a == Step(c) {
      OwnSection(s, c);
      assert Joined<T>([]) == [] by {
        JoinedEmpty<T>([]);
      }
    } else if a.Step? {
      JoinedMore(b.calls[c].pushes, PushedBy(s, a));
      assert Takes(s, s.threads[a.tid]) == 0 by {
        hide Pushes, LeftOk;
      }
    } else if a.DiscardRestOfStream? {
      JoinedEmpty<T>([]);
    }
  }

  /** A critical section that leaves its call short has emptied the queue. */
  lemma OwnSection<T>(s: State<T>, c: nat)
    requires Valid(s) && Enabled(s, Step(c)) && Short(Apply(s, Step(c)).threads[c])
    ensures s.threads[c].PopWait? && Apply(s, Step(c)).dataQueue == []
  {
    hide PushableElements, Ready;
  }

  lemma AloneOthers<T>(s: State<T>, a: Action<T>, c: nat, j: nat)
    requires Valid(s) && Enabled(s, a) && OnlyTaker([a], c)
    requires j < |s.threads| && j != c && !TakesPoints(s.threads[j])
    ensures |Apply(s, a).threads| == |s.threads| && !TakesPoints(Apply(s, a).threads[j])
  {
    hide PushableElements, Pushes, Takes;
    assert [a][0] == a;
  }

  lemma AloneEnded<T>(s: State<T>, a: Action<T>, b: Book<T>, c: nat)
    requires Valid(s) && Enabled(s, a) && Alone(s, b, c) && BookOk(s, b)
    ensures forall k :: 0 <= k < |Ended(s, a, b)| ==> LeftOk(Ended(s, a, b)[k])
  {
    hide PushableElements, Pushes, Takes, Joined, ReturnOk;
    if a.Step? {
      assert CallOk(s.threads[a.tid], b.calls[a.tid]);
      if s.threads[a.tid].PopTest? {
        JoinedEmpty(b.calls[a.tid].pushes);
        TestKeepsQueue(s, a.tid);
      }
    }
  }

  lemma TestKeepsQueue<T>(s: State<T>, tid: nat)
    requires Valid(s) && Enabled(s, Step(tid)) && s.threads[tid].PopTest?
    ensures Apply(s, Step(tid)).dataQueue == s.dataQueue
  {
    assert s.dataQueue[0..] + [] == s.dataQueue;
  }

  lemma AloneKept<T>(s: State<T>, a: Action<T>, b: Book<T>, c: nat)
    requires Valid(s) && Enabled(s, a) && Alone(s, b, c) && BookOk(s, b) && OnlyTaker([a], c)
    ensures Alone(Apply(s, a), Kept(s, a, b), c)
  {
    AloneEnded(s, a, b, c);
    var s', b' := Apply(s, a), Kept(s, a, b);
    if c < |s'.threads| && Short(s'.threads[c]) {
      AloneQueue(s, a, b, c);
    }
    hide LeftOk, Apply, Noted, Ended, TakesPoints, Short, Joined, BookOk;
    forall j | 0 <= j < |s'.threads| && j != c
      ensures !TakesPoints(s'.threads[j])
    {
      AloneOthers(s, a, c, j);
    }
  }

  lemma {:induction false} AloneBooked<T>(s: State<T>, actions: seq<Action<T>>, b: Book<T>, c: nat)
    requires Valid(s) && Executable(s, actions) && Alone(s, b, c) && BookOk(s, b) && OnlyTaker(actions, c)
    ensures Alone(Final(s, actions), Booked(s, actions, b), c)
    decreases |actions|
  {
    hide Apply, Kept, Enabled, LeftOk, BookOk;
    if actions != [] {
      AloneKept(s, actions[0], b, c);
      BookKept(s, actions[0], b);
      hide Alone;
      AloneBooked(Apply(s, actions[0]), actions[1..], Kept(s, actions[0], b), c);
    }
  }

  /** When one thread takes the points: a short pop leaves points in the queue exactly if one was pushed
      between its last critical section and its last test of the end of the stream. */
  lemma ShortLeavesPointsIff<T>(s: State<T>, actions: seq<Action<T>>, c: nat, k: nat)
    requires Valid(s) && AllIdle(s) && Executable(s, actions) && OnlyTaker(actions, c) && k < |Returns(s, actions)|
    ensures LeftOk(Returns(s, actions)[k])
  {
    hide Executable, Final, Booked, OnlyTaker;
    AloneBooked(s, actions, EmptyBook(s), c);
  }

  /** A run of a consumer that wants two points, gets one, and returns short after the second point and the
      end of the stream have come: the stages of the queue, the next action, and the consumer's call. */
  function Stage<T>(k: nat, p: T, q: T): State<T> {
    match k
    case 0 => Queue([p], false, Idle, Idle)
    case 1 => Queue([p], false, PopWait(2, []), Idle)
    case 2 => Queue([], false, PopTest(2, [p]), Idle)
    case 3 => Queue([], false, PopTest(2, [p]), AddOneWait(q))
    case 4 => Queue([q], false, PopTest(2, [p]), Idle)
    case 5 => Queue([q], true, PopTest(2, [p]), Idle)
    case _ => Queue([q], true, Idle, Idle)
  }

  function Queue<T>(q: seq<T>, ended: bool, consumer: Thread<T>, producer: Thread<T>): State<T> {
    State(q, ended, 4096, [consumer, producer])
  }

  function StageAction<T>(k: nat, q: T): Action<T> {
    match k
    case 0 => PopDataPoints(0, 2)
    case 1 => Step(0)
    case 2 => AddDataPoint(1, q)
    case 3 => Step(1)
    case 4 => NotifyStreamEnd
    case _ => Step(0)
  }

  function StageCall<T>(k: nat, p: T, q: T): Call<T> {
    if k == 0 then NewCall(NotifyStreamEnd)
    else if k == 1 then NewCall(PopDataPoints(0, 2))
    else Call(PopDataPoints(0, 2), [[p]], [false], [], [p], if k <= 3 then [] else [[q]])
  }

  lemma StageStep<T>(k: nat, p: T, q: T)
    requires k < 6
    ensures Valid(Stage(k, p, q)) && Enabled(Stage(k, p, q), StageAction(k, q))
    ensures Apply(Stage(k, p, q), StageAction(k, q)) == Stage(k + 1, p, q)
  {
    hide PushableElements;
    var s, a := Stage(k, p, q), StageAction(k, q);
    assert k == 0 || k == 1 || k == 2 || k == 3 || k == 4 || k == 5;
    if a.Step? {
      var n := Takes(s, s.threads[a.tid]);
      assert n == if k == 1 then 1 else 0;
      assert k == 1 ==> s.dataQueue[..1] == [p] && [] + [p] == [p];
      assert s.dataQueue[0..] == s.dataQueue && s.dataQueue + [] == s.dataQueue;
    }
    assert Apply(s, a).threads == Stage(k + 1, p, q).threads;
    assert Apply(s, a).dataQueue == Stage(k + 1, p, q).dataQueue;
  }

  lemma StageNoted<T>(k: nat, p: T, q: T)
    requires k < 5 && Valid(Stage(k, p, q)) && Enabled(Stage(k, p, q), StageAction(k, q))
    ensures Noted(Stage(k, p, q), StageAction(k, q), 0, StageCall(k, p, q)) == StageCall(k + 1, p, q)
  {
    hide PushableElements;
    var s, a := Stage(k, p, q), StageAction(k, q);
    assert k == 0 || k == 1 || k == 2 || k == 3 || k == 4;
    if k == 1 {
      assert Takes(s, s.threads[0]) == 1;
      assert PoppedBy(s, a) == [p] && [] + [[p]] == [[p]];
    }
  }

  function ShortReturn<T>(p: T, q: T): Return<T> {
    Return([p], StageCall(5, p, q).(tests := [true]), true, [q], 5)
  }

  lemma StageEnded<T>(p: T, q: T, b: Book<T>)
    requires Valid(Stage(5, p, q)) && Enabled(Stage(5, p, q), StageAction(5, q))
    requires |b.calls| == 2 && b.calls[0] == StageCall(5, p, q) && b.steps == 5
    ensures Ended(Stage(5, p, q), StageAction(5, q), b) == [ShortReturn(p, q)]
  {
    StageStep(5, p, q);
    assert [] + [true] == [true];
    hide PushableElements, Apply;
  }

  lemma {:induction false} StagesRun<T>(k: nat, p: T, q: T, b: Book<T>) returns (actions: seq<Action<T>>)
    requires k <= 6 && |b.calls| == 2 && b.steps == k && (k < 6 ==> b.calls[0] == StageCall(k, p, q))
    requires k == 6 ==> b.finished != [] && b.finished[|b.finished| - 1] == ShortReturn(p, q)
    ensures Valid(Stage(k, p, q)) && |Stage(k, p, q).threads| == 2
    ensures Executable(Stage(k, p, q), actions) && OnlyTaker(actions, 0)
    ensures var finished := Booked(Stage(k, p, q), actions, b).finished;
      finished != [] && finished[|finished| - 1] == ShortReturn(p, q)
    decreases 6 - k
  {
    hide Apply, Enabled, Ended, Noted, StageCall, ShortReturn;
    actions := [];
    if k < 6 {
      var s, a := Stage(k, p, q), StageAction(k, q);
      StageStep(k, p, q);
      if k < 5 {
        StageNoted(k, p, q);
      } else {
        StageEnded(p, q, b);
      }
      hide Stage, StageAction;
      var rest := StagesRun(k + 1, p, q, Kept(s, a, b));
      actions := [a] + rest;
      assert actions[1..] == rest;
    }
  }

  /** A lone consumer that wants two points and has got one can return short although the second point is in
      the queue: it came before the end of the stream, but after the last critical section. */
  lemma PointsLeftBehind<T>(p: T, q: T) returns (s: State<T>, actions: seq<Action<T>>)
    ensures Valid(s) && AllIdle(s) && Executable(s, actions) && OnlyTaker(actions, 0)
    ensures var finished := Returns(s, actions);
      && finished != [] && var r := finished[|finished| - 1];
      r.call.asked == PopDataPoints(0, 2) && r.result == [p] && r.left == [q]
  {
    s := Stage(0, p, q);
    actions := StagesRun(0, p, q, EmptyBook(s));
    hide Booked, Executable;
  }

  /** No restart of the stream from action i on, as far as the first n actions. */
  predicate NoRestart<T>(actions: seq<Action<T>>, i: nat, n: nat)
    requires n <= |actions|
  {
    forall k :: i <= k < n ==> !actions[k].RestartStreaming?
  }

  /** Action i ends the stream, and none of the first n actions restarts it. */
  predicate EndsAt<T>(actions: seq<Action<T>>, i: nat, n: nat)
    requires i < n <= |actions|
  {
    (actions[i].NotifyStreamEnd? || actions[i].DiscardRestOfStream?) && NoRestart(actions, i, n)
  }

  /** Some of the first n actions has ended the stream, or it was over before, and no restart has come since. */
  ghost predicate StreamOver<T>(before: bool, actions: seq<Action<T>>, n: nat)
    requires n <= |actions|
  {
    || (exists i :: 0 <= i < n && EndsAt(actions, i, n))
    || (before && NoRestart(actions, 0, n))
  }

  lemma EndStep<T>(s: State<T>, a: Action<T>)
    requires Valid(s) && Enabled(s, a)
    ensures Apply(s, a).streamEnded ==
      if a.NotifyStreamEnd? || a.DiscardRestOfStream? then true
      else if a.RestartStreaming? then false
      else s.streamEnded
  {
    hide PushableElements, Pushes, Takes;
  }

  lemma OverStep<T>(before: bool, actions: seq<Action<T>>, n: nat)
    requires n < |actions|
    ensures StreamOver(before, actions, n + 1) <==>
      || actions[n].NotifyStreamEnd? || actions[n].DiscardRestOfStream?
      || (!actions[n].RestartStreaming? && StreamOver(before, actions, n))
  {
    var a := actions[n];
    forall i | 0 <= i < n
      ensures EndsAt(actions, i, n + 1) <==> EndsAt(actions, i, n) && !a.RestartStreaming?
    {
    }
    assert NoRestart(actions, 0, n + 1) <==> NoRestart(actions, 0, n) && !a.RestartStreaming?;
    assert EndsAt(actions, n, n + 1) <==> a.NotifyStreamEnd? || a.DiscardRestOfStream?;
    hide EndsAt, NoRestart;
    if i :| 0 <= i < n && EndsAt(actions, i, n) {
      assert !a.RestartStreaming? ==> EndsAt(actions, i, n + 1);
    }
    var m := n + 1;
    if i :| 0 <= i < m && EndsAt(actions, i, m) {
      assert i < n ==> EndsAt(actions, i, n);
    }
  }

  /** The state after the first n actions. */
  lemma {:induction false} PrefixRuns<T>(s: State<T>, actions: seq<Action<T>>, n: nat)
    requires Valid(s) && Executable(s, actions) && n <= |actions|
    ensures Executable(s, actions[..n])
    ensures n < |actions| ==>
      && Enabled(Final(s, actions[..n]), actions[n]) && Executable(s, actions[..n + 1])
      && Final(s, actions[..n + 1]) == Apply(Final(s, actions[..n]), actions[n])
    decreases n
  {
    hide Apply, Enabled;
    if n > 0 {
      PrefixRuns(Apply(s, actions[0]), actions[1..], n - 1);
      assert actions[1..][..n - 1] == actions[..n][1..];
    }
    if 0 < n < |actions| {
      assert actions[1..][..n] == actions[..n + 1][1..];
    }
    if n == 0 < |actions| {
      assert actions[..1][1..] == [];
    }
  }

  /** In every run the stream is over exactly if an action has ended it, or it was over at first, and none has
      restarted it since. */
  lemma {:induction false} StreamEndedIff<T>(s: State<T>, actions: seq<Action<T>>, n: nat)
    requires Valid(s) && Executable(s, actions) && n <= |actions|
    ensures Executable(s, actions[..n])
    ensures Final(s, actions[..n]).streamEnded <==> StreamOver(s.streamEnded, actions, n)
  {
    hide Apply, Enabled, StreamOver;
    PrefixRuns(s, actions, n);
    if n > 0 {
      StreamEndedIff(s, actions, n - 1);
      PrefixRuns(s, actions, n - 1);
      EndStep(Final(s, actions[..n - 1]), actions[n - 1]);
      OverStep(s.streamEnded, actions, n - 1);
    } else {
      NothingOver(s.streamEnded, actions);
    }
  }

  lemma NothingOver<T>(before: bool, actions: seq<Action<T>>)
    ensures StreamOver(before, actions, 0) <==> before
  {
  }

  /** When a call has ended, and whether the stream was over then. */
  ghost predicate TimeOk<T>(s: State<T>, actions: seq<Action<T>>, r: Return<T>, from: nat)
    requires Valid(s) && Executable(s, actions)
  {
    && from <= r.at < from + |actions| && actions[r.at - from].Step?
    && Executable(s, actions[..r.at - from]) && r.ended == Final(s, actions[..r.at - from]).streamEnded
  }

  lemma TimeLater<T>(s: State<T>, actions: seq<Action<T>>, r: Return<T>, from: nat)
    requires Valid(s) && Executable(s, actions) && actions != []
    requires TimeOk(Apply(s, actions[0]), actions[1..], r, from + 1)
    ensures TimeOk(s, actions, r, from)
  {
    var n := r.at - from;
    PrefixRuns(s, actions, n);
    assert actions[..n][1..] == actions[1..][..n - 1];
    hide Apply, Enabled;
  }

  lemma TimeNow<T>(s: State<T>, actions: seq<Action<T>>, b: Book<T>)
    requires Valid(s) && Executable(s, actions) && actions != [] && |b.calls| == |s.threads|
    ensures forall r :: r in Ended(s, actions[0], b) ==> TimeOk(s, actions, r, b.steps)
  {
    hide Apply, Noted;
    assert actions[..0] == [];
  }

  lemma {:induction false} BookedTimes<T>(s: State<T>, actions: seq<Action<T>>, b: Book<T>)
    requires Valid(s) && Executable(s, actions) && |b.calls| == |s.threads|
    ensures b.finished <= Booked(s, actions, b).finished
    ensures forall k :: |b.finished| <= k < |Booked(s, actions, b).finished| ==>
      TimeOk(s, actions, Booked(s, actions, b).finished[k], b.steps)
    decreases |actions|
  {
    hide Apply, Enabled, TimeOk, Ended;
    if actions != [] {
      var a, b' := actions[0], Kept(s, actions[0], b);
      TimeNow(s, actions, b);
      BookedTimes(Apply(s, a), actions[1..], b');
      var finished := Booked(s, actions, b).finished;
      forall k | |b.finished| <= k < |finished|
        ensures TimeOk(s, actions, finished[k], b.steps)
      {
        if k < |b'.finished| {
          assert finished[k] == b'.finished[k] == Ended(s, a, b)[k - |b.finished|];
        } else {
          TimeLater(s, actions, finished[k], b.steps);
        }
      }
    }
  }

  /** Every call that ends in a run has kept its promise; what it says of the end of the stream is what the actions
      before have made of it. */
  lemma CallsKeepPromise<T>(s: State<T>, actions: seq<Action<T>>, k: nat)
    requires Valid(s) && AllIdle(s) && Executable(s, actions) && k < |Returns(s, actions)|
    ensures var r := Returns(s, actions)[k];
      ReturnOk(r) && r.at < |actions| && (r.ended <==> StreamOver(s.streamEnded, actions, r.at))
  {
    BookedOk(s, actions, EmptyBook(s));
    BookedTimes(s, actions, EmptyBook(s));
    var r := Returns(s, actions)[k];
    assert TimeOk(s, actions, r, 0);
    StreamEndedIff(s, actions, r.at);
    hide Executable, Final, Booked, StreamOver;
  }

  /** Discarding empties the queue. */
  lemma DiscardEmpties<T>(s: State<T>, actions: seq<Action<T>>, i: nat)
    requires Valid(s) && Executable(s, actions) && i < |actions| && actions[i].DiscardRestOfStream?
    ensures Executable(s, actions[..i + 1]) && Final(s, actions[..i + 1]).dataQueue == []
  {
    PrefixRuns(s, actions, i);
  }

  /** The maximum is the one set last. */
  lemma {:induction false} MaximumIsLastSet<T>(s: State<T>, actions: seq<Action<T>>, n: nat)
    requires Valid(s) && Executable(s, actions) && n <= |actions|
    ensures Executable(s, actions[..n])
    ensures (forall k :: 0 <= k < n ==> !actions[k].SetQueueMaxSize?) ==>
      Final(s, actions[..n]).queueMaxSize == s.queueMaxSize
    ensures forall i :: 0 <= i < n && actions[i].SetQueueMaxSize? ==>
      (forall k :: i < k < n ==> !actions[k].SetQueueMaxSize?) ==>
      Final(s, actions[..n]).queueMaxSize == actions[i].maxSize
  {
    hide Apply, Enabled;
    PrefixRuns(s, actions, n);
    if n > 0 {
      MaximumIsLastSet(s, actions, n - 1);
      PrefixRuns(s, actions, n - 1);
      MaximumStep(Final(s, actions[..n - 1]), actions[n - 1]);
    }
  }

  lemma MaximumStep<T>(s: State<T>, a: Action<T>)
    requires Valid(s) && Enabled(s, a)
    ensures Apply(s, a).queueMaxSize == if a.SetQueueMaxSize? then a.maxSize else s.queueMaxSize
  {
    hide PushableElements, Pushes, Takes;
  }

  /** Which thread waits: one that adds to a full queue, one that pops from an empty one, one that removes more points
      than there are, and none after the end of the stream. */
  lemma WaitsIff<T>(s: State<T>, tid: nat)
    requires Valid(s) && tid < |s.threads| && !s.threads[tid].Idle?
    ensures !Enabled(s, Step(tid)) <==> !s.streamEnded && match s.threads[tid]
      case AddWait(_, _) => |s.dataQueue| >= s.queueMaxSize
      case AddOneWait(_) => |s.dataQueue| >= s.queueMaxSize
      case PopWait(_, _) => s.dataQueue == []
      case NextWait(count) => |s.dataQueue| < count
      case _ => false
  {
  }

  /** An adding and a popping thread never wait at the same time, unless nothing may be in the queue. */
  lemma NoMutualWait<T>(s: State<T>, adder: nat, popper: nat)
    requires Valid(s) && adder < |s.threads| && popper < |s.threads| && s.queueMaxSize > 0
    requires s.threads[adder].AddWait? || s.threads[adder].AddOneWait?
    requires s.threads[popper].PopWait?
    ensures Enabled(s, Step(adder)) || Enabled(s, Step(popper))
  {
    WaitsIff(s, adder);
    WaitsIff(s, popper);
  }
}
