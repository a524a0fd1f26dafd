/** Workers on a data stream, and the distributor that buffers a moving part of the stream for them. */
module DataStream {

  /** What a worker asks for: where its next read starts, how many points it wants, and how many points
      before that read it may still come back to. */
  datatype ReadInfo = ReadInfo(keep: nat, read: nat, next: int)

  /** One call of workOnDataPoints. */
  datatype Call<T> = Call(id: int, data: seq<T>)

  /** A worker, as what it answers after each possible sequence of calls. The other two fields measure
      how far it got: progress grows with every call, and within the points before e it is at most limit(e). */
  datatype Worker<!T> = Worker(behave: seq<Call<T>> -> ReadInfo, progress: seq<Call<T>> -> int, limit: int -> int)

  /** The calls a worker gets: the first one without data, then each as it asked. */
  ghost predicate Asked<T(!new)>(w: Worker<T>, h: seq<Call<T>>) {
    h != [] && h[0].data == [] && forall i :: 0 < i < |h| ==> AskedAt(w, h, i)
  }

  ghost predicate AskedAt<T(!new)>(w: Worker<T>, h: seq<Call<T>>, i: nat)
    requires i < |h|
  {
    h[i].id == w.behave(h[..i]).next && |h[i].data| == w.behave(h[..i]).read
  }

  /** The read contract between one answer and the next: something is read, not before the points kept,
      not past the points just given, and the points kept do not move back. */
  predicate Contract(a: ReadInfo, b: ReadInfo) {
    && b.read > 0 && a.next - a.keep <= b.next <= a.next + a.read
    && a.next - a.keep <= b.next - b.keep
  }

  /** The answer to the last call of h meets the contract. */
  ghost predicate Meets<T(!new)>(w: Worker<T>, h: seq<Call<T>>)
    requires h != []
  {
    && var r := w.behave(h);
    && (if |h| == 1 then r.read > 0 && h[0].id <= r.next - r.keep
        else Contract(w.behave(h[..|h| - 1]), r) && w.progress(h[..|h| - 1]) < w.progress(h))
    && forall e: int :: r.next + r.read <= e ==> w.progress(h) <= w.limit(e)
  }

  ghost predicate Honest<T(!new)>(w: Worker<T>) {
    forall h: seq<Call<T>> :: Asked(w, h) ==> Meets(w, h)
  }

  /** One more call, as the worker asked for it, is answered within the contract. */
  lemma NextCall<T(!new)>(w: Worker<T>, h: seq<Call<T>>, c: Call<T>)
    requires Honest(w) && Asked(w, h) && c.id == w.behave(h).next && |c.data| == w.behave(h).read
    ensures Asked(w, h + [c]) && Contract(w.behave(h), w.behave(h + [c])) && w.progress(h) < w.progress(h + [c])
    ensures forall e: int :: w.behave(h + [c]).next + w.behave(h + [c]).read <= e ==> w.progress(h + [c]) <= w.limit(e)
  {
    var g := h + [c];
    assert g[..|h|] == h;
    forall i | 0 < i < |g|
      ensures AskedAt(w, g, i)
    {
      if i < |h| {
        assert g[..i] == h[..i] && AskedAt(w, h, i);
      }
    }
    assert Meets(w, g);
  }

  /** The points of a stream from a position on. */
  ghost predicate PartOf<T(!new)>(s: seq<T>, stream: int -> T, start: int) {
    forall k :: 0 <= k < |s| ==> s[k] == stream(start + k)
  }

  /** Every call got its part of the stream. */
  ghost predicate FromStream<T(!new)>(h: seq<Call<T>>, stream: int -> T) {
    forall i :: 0 <= i < |h| ==> PartOf(h[i].data, stream, h[i].id)
  }

  /** The stream as the distributor reads it from its queue: the points come in order, and as many as asked
      for, as long as the stream has not ended. */
  class Source<T(!new)> {
    const stream: int -> T
    var taken: int
    var ended: bool

    constructor (stream: int -> T)
      ensures this.stream == stream && taken == 0 && !ended
    {
      this.stream := stream;
      taken, ended := 0, false;
    }

    method NotifyStreamEnd()
      modifies this`ended
      ensures ended
    {
      ended := true;
    }

    /** When the stream has ended, the call gets the found points, if that is less than it wants. */
    method PopDataPoints(n: nat, found: nat) returns (points: seq<T>)
      modifies this`taken
      ensures |points| == (if ended && found < n then found else n)
      ensures PartOf(points, stream, old(taken)) && taken == old(taken) + |points|
    {
      points := [];
      var start, count := taken, if ended && found < n then found else n;
      for i := 0 to count
        invariant |points| == i && PartOf(points, stream, start)
      {
        points := points + [stream(start + i)];
      }
      taken := taken + count;
    }
  }

  class DataStreamDistributor<T(!new)> {
    var workers: seq<Worker<T>>
    var readInfos: seq<ReadInfo>
    var globalBufferPos: int
    var dataQueue: seq<T>
    /** The state of each worker: the calls it got. */
    var calls: seq<seq<Call<T>>>

    function BufferEnd(): int
      reads this
    {
      globalBufferPos + |dataQueue|
    }

    /** The buffer is the part of the stream from its position on. Every worker is honest, was called
        with just the parts of the stream it asked for, and whatever it may still ask for is not freed. */
    ghost predicate Valid(queue: Source<T>)
      reads this, queue
    {
      && |workers| == |readInfos| == |calls|
      && PartOf(dataQueue, queue.stream, globalBufferPos) && queue.taken == BufferEnd()
      && forall i :: 0 <= i < |workers| ==> Served(workers[i], calls[i], readInfos[i], queue.stream, globalBufferPos)
    }

    ghost static predicate Served(w: Worker<T>, h: seq<Call<T>>, r: ReadInfo, stream: int -> T, pos: int) {
      && Honest(w) && Asked(w, h) && FromStream(h, stream) && r == w.behave(h)
      && r.read > 0 && pos <= r.next - r.keep
      && forall e: int :: r.next + r.read <= e ==> w.progress(h) <= w.limit(e)
    }

    /** Some worker needs points beyond the buffer. */
    ghost predicate Hungry()
      reads this
    {
      exists i :: 0 <= i < |readInfos| && Wants(readInfos[i]) > BufferEnd()
    }

    /** Only the entry of one worker has changed. */
    ghost predicate OnlyWorker(infos: seq<ReadInfo>, history: seq<seq<Call<T>>>, index: nat)
      reads this
    {
      && |readInfos| == |infos| && |calls| == |history|
      && (forall i :: 0 <= i < |infos| && i != index ==> readInfos[i] == infos[i])
      && forall i :: 0 <= i < |history| && i != index ==> calls[i] == history[i]
    }

    constructor ()
      ensures workers == [] && readInfos == [] && calls == [] && globalBufferPos == 0 && dataQueue == []
    {
      workers, readInfos, calls, globalBufferPos, dataQueue := [], [], [], 0, [];
    }

    /** A new worker is called without data, at the start of the buffer. */
    method AddWorker(worker: Worker<T>, queue: Source<T>)
      requires Valid(queue) && Honest(worker) && (Hungry() || dataQueue == [])
      modifies this
      ensures Valid(queue) && Hungry() && workers == old(workers) + [worker]
      ensures calls == old(calls) + [[Call(globalBufferPos, [])]]
      ensures globalBufferPos == old(globalBufferPos) && dataQueue == old(dataQueue)
    {
      var first := Call(globalBufferPos, []);
      assert Asked(worker, [first]);
      assert Meets(worker, [first]);
      workers := workers + [worker];
      readInfos := readInfos + [worker.behave([first])];
      calls := calls + [[first]];
      if old(Hungry()) {
        ghost var i :| 0 <= i < |old(readInfos)| && Wants(old(readInfos)[i]) > old(BufferEnd());
        assert Wants(readInfos[i]) > BufferEnd();
      } else {
        assert Wants(readInfos[|readInfos| - 1]) > BufferEnd();
      }
    }

    /** Some request ends at or after the end of the buffer. */
    ghost predicate Reaching()
      reads this
    {
      exists i :: 0 <= i < |readInfos| && Wants(readInfos[i]) >= BufferEnd()
    }

    /** The largest end of a request. */
    ghost predicate IsTarget(e: int)
      reads this
    {
      && (exists i :: 0 <= i < |readInfos| && Wants(readInfos[i]) == e)
      && forall i :: 0 <= i < |readInfos| ==> Wants(readInfos[i]) <= e
    }

    /** The largest end of a request, less the end of the buffer. Below zero the unsigned result wraps round. */
    method DataPointsNeededForNextRun() returns (needed: int)
      requires |readInfos| > 0
      ensures IsTarget(BufferEnd() + needed)
    {
      var m := 0;
      for i := 1 to |readInfos|
        invariant m < i && forall j :: 0 <= j < i ==> Wants(readInfos[j]) <= Wants(readInfos[m])
      {
        if Wants(readInfos[m]) < Wants(readInfos[i]) {
          m := i;
        }
      }
      needed := Wants(readInfos[m]) - |dataQueue| - globalBufferPos;
    }

    /** Where the buffer ends after a read: with the largest request, or earlier when the stream has ended. */
    ghost predicate ReadUpTo(end: int, ended: bool, found: nat)
      reads this
    {
      exists e :: IsTarget(e) && BufferEnd() == if ended && end + found < e then end + found else e
    }

    /** Fails when every request ends before the end of the buffer, because of the unsigned need. */
    method ReadBufferForNextRun(queue: Source<T>, found: nat) returns (ok: bool)
      requires Valid(queue) && |workers| > 0
      modifies this`dataQueue, queue`taken
      ensures Valid(queue) && queue.taken >= old(queue.taken)
      ensures ok <==> old(Reaching())
      ensures ok ==> ReadUpTo(old(BufferEnd()), queue.ended, found)
    {
      var needed := DataPointsNeededForNextRun();
      ghost var target := BufferEnd() + needed;
      if needed < 0 {
        return false;
      }
      ok := true;
      if needed <= 0 {
        return;
      }
      var points := queue.PopDataPoints(needed, found);
      Appended(dataQueue, points, queue.stream, globalBufferPos);
      dataQueue := dataQueue + points;
      assert IsTarget(target);
    }

    static lemma Appended(s: seq<T>, t: seq<T>, stream: int -> T, start: int)
      requires PartOf(s, stream, start) && PartOf(t, stream, start + |s|)
      ensures PartOf(s + t, stream, start)
    {
      forall k | 0 <= k < |s + t|
        ensures (s + t)[k] == stream(start + k)
      {
        if k >= |s| {
          assert t[k - |s|] == stream(start + |s| + (k - |s|));
        }
      }
    }

    /** The position of a worker's next read in the buffer. */
    method GetIndexInLocalBufferForRead(index: nat) returns (i: int)
      requires index < |readInfos|
      ensures readInfos[index].next >= globalBufferPos ==> i == readInfos[index].next - globalBufferPos
      ensures readInfos[index].next < globalBufferPos ==> i == 0
    {
      if readInfos[index].next < globalBufferPos {
        return 0;
      }
      return readInfos[index].next - globalBufferPos;
    }

    /** Calls a worker with the points it asked for. */
    method ExecuteWorkerOnce(index: nat, localBufferIndex: int, queue: Source<T>) returns (newIndex: int)
      requires Valid(queue) && index < |workers| && localBufferIndex == readInfos[index].next - globalBufferPos
      requires Wants(readInfos[index]) <= BufferEnd()
      modifies this`readInfos, this`calls
      ensures Valid(queue) && OnlyWorker(old(readInfos), old(calls), index)
      ensures newIndex == readInfos[index].next - globalBufferPos && readInfos[index].next <= BufferEnd()
      ensures |calls[index]| == |old(calls[index])| + 1 && calls[index][..|calls[index]| - 1] == old(calls[index])
      ensures workers[index].progress(old(calls)[index]) < workers[index].progress(calls[index])
    {
      var r := readInfos[index];
      var begin: nat := localBufferIndex;
      var actualEnd: nat := if r.read < |dataQueue| - begin then r.read else |dataQueue| - begin;
      var data := dataQueue[begin..begin + actualEnd];
      var c := Call(globalBufferPos + begin, data);
      var h := calls[index];
      assert Served(workers[index], h, r, queue.stream, globalBufferPos);
      NextCall(workers[index], h, c);
      CallFromStream(h, c, queue.stream, dataQueue, globalBufferPos, begin);
      calls := calls[index := h + [c]];
      readInfos := readInfos[index := workers[index].behave(calls[index])];
      assert Served(workers[index], h + [c], readInfos[index], queue.stream, globalBufferPos);
      newIndex := GetIndexInLocalBufferForRead(index);
    }

    /** Calls a worker as long as the buffer holds what it asks for. When its next read starts behind the buffer,
        the unsigned difference of the loop test wraps round, and the worker would be called with places outside
        the buffer: then ok is false. */
    method ExecuteWorkerWhileDataInBuffer(index: nat, queue: Source<T>) returns (readStuff: bool, ok: bool)
      requires Valid(queue) && index < |workers|
      modifies this`readInfos, this`calls
      ensures Valid(queue) && OnlyWorker(old(readInfos), old(calls), index)
      ensures ok <==> old(readInfos[index].next) <= BufferEnd()
      ensures ok ==> readInfos[index].next <= BufferEnd() < Wants(readInfos[index])
      ensures ok ==> old(calls)[index] <= calls[index]
      ensures ok ==> (readStuff <==> old(Wants(readInfos[index]) <= BufferEnd()))
      ensures ok ==> (readStuff <==> |calls[index]| > |old(calls)[index]|)
    {
      readStuff, ok := false, true;
      assert Served(workers[index], calls[index], readInfos[index], queue.stream, globalBufferPos);
      var localBufferIndex := GetIndexInLocalBufferForRead(index);
      if localBufferIndex > |dataQueue| {
        return false, false;
      }
      ghost var limit := workers[index].limit(BufferEnd());
      while |dataQueue| - localBufferIndex >= readInfos[index].read
        invariant Valid(queue) && OnlyWorker(old(readInfos), old(calls), index)
        invariant localBufferIndex == readInfos[index].next - globalBufferPos && readInfos[index].next <= BufferEnd()
        invariant old(calls)[index] <= calls[index]
        invariant if readStuff then |calls[index]| > |old(calls)[index]| && old(Wants(readInfos[index]) <= BufferEnd())
                  else calls == old(calls) && readInfos == old(readInfos)
        decreases limit - workers[index].progress(calls[index])
      {
        assert Served(workers[index], calls[index], readInfos[index], queue.stream, globalBufferPos);
        localBufferIndex := ExecuteWorkerOnce(index, localBufferIndex, queue);
        readStuff := true;
        assert Served(workers[index], calls[index], readInfos[index], queue.stream, globalBufferPos);
      }
    }

    /** Drops the points before all that a worker may still ask for, and no other. */
    method FreeUnusedBuffer(queue: Source<T>)
      requires Valid(queue) && |workers| > 0 && forall i :: 0 <= i < |readInfos| ==> readInfos[i].next <= BufferEnd()
      modifies this`dataQueue, this`globalBufferPos
      ensures Valid(queue) && BufferEnd() == old(BufferEnd()) && globalBufferPos >= old(globalBufferPos)
      ensures exists i :: 0 <= i < |readInfos| && globalBufferPos == Earliest(readInfos[i])
    {
      var m := 0;
      for i := 1 to |readInfos|
        invariant m < i && forall j :: 0 <= j < i ==> Earliest(readInfos[m]) <= Earliest(readInfos[j])
      {
        if Earliest(readInfos[i]) < Earliest(readInfos[m]) {
          m := i;
        }
      }
      var earliestPosNeeded := readInfos[m].next - readInfos[m].keep;
      assert Served(workers[m], calls[m], readInfos[m], queue.stream, globalBufferPos);
      if earliestPosNeeded <= globalBufferPos {
        return;
      }
      var elementsErased := earliestPosNeeded - globalBufferPos;
      Dropped(dataQueue, queue.stream, globalBufferPos, elementsErased);
      dataQueue := dataQueue[elementsErased..];
      globalBufferPos := earliestPosNeeded;
      forall i | 0 <= i < |workers|
        ensures Served(workers[i], calls[i], readInfos[i], queue.stream, globalBufferPos)
      {
        assert Served(workers[i], calls[i], readInfos[i], queue.stream, old(globalBufferPos));
        assert Earliest(readInfos[m]) <= Earliest(readInfos[i]);
      }
    }

    static lemma Dropped(s: seq<T>, stream: int -> T, start: int, n: nat)
      requires PartOf(s, stream, start) && n <= |s|
      ensures PartOf(s[n..], stream, start + n)
    {
      forall k | 0 <= k < |s[n..]|
        ensures s[n..][k] == stream(start + n + k)
      {
        assert s[n + k] == stream(start + (n + k));
      }
    }

    /** A worker has run as far as the buffer goes: it was called exactly if the buffer held its first request. */
    ghost predicate RanOut(i: nat, info: ReadInfo, history: seq<Call<T>>)
      reads this
    {
      && i < |readInfos| && i < |calls| && readInfos[i].next <= BufferEnd() < Wants(readInfos[i])
      && history <= calls[i] && (|calls[i]| > |history| <==> Wants(info) <= BufferEnd())
    }

    /** Runs every worker as far as the buffer goes, or fails at the first that wants to start behind it. */
    method RunWorkers(queue: Source<T>) returns (oneWorkerWasExecuted: bool, ok: bool)
      requires Valid(queue)
      modifies this`readInfos, this`calls
      ensures Valid(queue) && |calls| == |old(calls)|
      ensures ok <==> forall i :: 0 <= i < |workers| ==> old(readInfos)[i].next <= BufferEnd()
      ensures ok ==> forall i :: 0 <= i < |workers| ==> RanOut(i, old(readInfos)[i], old(calls)[i])
      ensures ok ==>
        (oneWorkerWasExecuted <==> exists i :: 0 <= i < |workers| && Wants(old(readInfos)[i]) <= BufferEnd())
    {
      hide Served;
      ghost var infos, before := readInfos, calls;
      oneWorkerWasExecuted, ok := false, true;
      for j := 0 to |workers|
        modifies this`readInfos, this`calls
        invariant Valid(queue) && |calls| == |before| && |readInfos| == |infos|
        invariant ok && forall i :: 0 <= i < j ==> infos[i].next <= BufferEnd()
        invariant forall i :: j <= i < |workers| ==> readInfos[i] == infos[i] && calls[i] == before[i]
        invariant forall i :: 0 <= i < j ==> RanOut(i, infos[i], before[i])
        invariant oneWorkerWasExecuted <==> exists i :: 0 <= i < j && Wants(infos[i]) <= BufferEnd()
      {
        var executed;
        executed, ok := RunWorker(j, queue);
        if !ok {
          return;
        }
        if executed {
          oneWorkerWasExecuted := true;
        }
      }
    }

    /** Repeats the call for one worker until it does nothing. */
    method RunWorker(index: nat, queue: Source<T>) returns (oneWorkerWasExecuted: bool, ok: bool)
      requires Valid(queue) && index < |workers|
      modifies this`readInfos, this`calls
      ensures Valid(queue) && OnlyWorker(old(readInfos), old(calls), index)
      ensures ok <==> old(readInfos)[index].next <= BufferEnd()
      ensures ok ==> RanOut(index, old(readInfos)[index], old(calls)[index])
      ensures ok ==> (oneWorkerWasExecuted <==> Wants(old(readInfos)[index]) <= BufferEnd())
    {
      hide Served;
      oneWorkerWasExecuted := false;
      var executed;
      executed, ok := ExecuteWorkerWhileDataInBuffer(index, queue);
      if !ok {
        return;
      }
      while executed
        invariant Valid(queue) && OnlyWorker(old(readInfos), old(calls), index) && ok
        invariant RanOut(index, old(readInfos)[index], old(calls)[index])
        invariant executed || oneWorkerWasExecuted <==> Wants(old(readInfos)[index]) <= BufferEnd()
        decreases executed
      {
        oneWorkerWasExecuted := true;
        executed, ok := ExecuteWorkerWhileDataInBuffer(index, queue);
      }
    }

    /** Reads as much as every worker needs for one run, or what is left of an ended stream, and runs the workers
        as far as the buffer goes: while the stream goes on, every worker is called. When some request reaches
        the end of the buffer, as always after AddWorker and after a round, it fails exactly when the stream has
        ended and some worker wants to start behind what is left. */
    method LoopWorkersOnce(queue: Source<T>, found: nat) returns (oneWorkerWasExecuted: bool, ok: bool)
      requires Valid(queue) && |workers| > 0
      modifies this`readInfos, this`calls, this`dataQueue, this`globalBufferPos, queue`taken
      ensures Valid(queue) && |calls| == |old(calls)| == |old(readInfos)|
      ensures ok <==>
        && old(Reaching())
        && (queue.ended ==> forall i :: 0 <= i < |workers| ==> old(readInfos)[i].next <= old(BufferEnd()) + found)
      ensures ok ==> Hungry() && forall i :: 0 <= i < |workers| ==> RanOut(i, old(readInfos)[i], old(calls)[i])
      ensures ok ==>
        (oneWorkerWasExecuted <==> exists i :: 0 <= i < |workers| && Wants(old(readInfos)[i]) <= BufferEnd())
      ensures old(Reaching()) && !queue.ended ==>
        forall i :: 0 <= i < |workers| ==> Wants(old(readInfos)[i]) <= BufferEnd()
      ensures old(Reaching()) ==> exists i :: 0 <= i < |old(readInfos)| && var e := Wants(old(readInfos)[i]);
        BufferEnd() == if queue.ended && old(BufferEnd()) + found < e then old(BufferEnd()) + found else e
      ensures ok ==> exists i :: 0 <= i < |readInfos| && globalBufferPos == Earliest(readInfos[i])
    {
      hide Served, PartOf;
      oneWorkerWasExecuted := false;
      ok := ReadBufferForNextRun(queue, found);
      if !ok {
        return;
      }
      ghost var target :| IsTarget(target) &&
        BufferEnd() == if queue.ended && old(BufferEnd()) + found < target then old(BufferEnd()) + found else target;
      oneWorkerWasExecuted, ok := RunWorkers(queue);
      if !ok {
        return;
      }
      assert RanOut(0, old(readInfos)[0], old(calls)[0]);
      FreeUnusedBuffer(queue);
    }

    static lemma CallFromStream(h: seq<Call<T>>, c: Call<T>, stream: int -> T, buffer: seq<T>, pos: int, begin: nat)
      requires FromStream(h, stream) && PartOf(buffer, stream, pos) && c.id == pos + begin
      requires begin + |c.data| <= |buffer| && c.data == buffer[begin..begin + |c.data|]
      ensures FromStream(h + [c], stream)
    {
      forall k | 0 <= k < |c.data|
        ensures c.data[k] == stream(c.id + k)
      {
        assert buffer[begin + k] == stream(pos + (begin + k));
      }
      forall i | 0 <= i < |h + [c]|
        ensures PartOf((h + [c])[i].data, stream, (h + [c])[i].id)
      {
        if i < |h| {
          assert PartOf(h[i].data, stream, h[i].id);
        }
      }
    }
  }

  /** Where a request ends, and the earliest point that must stay for the next ones. */
  function Wants(r: ReadInfo): int {
    r.next + r.read
  }

  function Earliest(r: ReadInfo): int {
    r.next - r.keep
  }
}
