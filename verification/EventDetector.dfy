/** The event detector as a worker on the data stream: it compares chunks of the stream with the last
    ones, and after a detection asks for the points around it. */
module EventDetector {
  import opened DataStream

  /** The parts of the stream's meta data that the detector uses. */
  datatype Meta = Meta(sampleRate: nat, frequency: nat, storedBefore: nat, storedOf: nat)

  function PointsPerPeriod(m: Meta): nat
    requires m.frequency > 0
  {
    m.sampleRate / m.frequency
  }

  /** A period of the mains frequency has p whole points. */
  predicate IsPeriod(m: Meta, p: int) {
    p * m.frequency <= m.sampleRate < (p + 1) * m.frequency
  }

  lemma PeriodIs(m: Meta)
    requires m.frequency > 0
    ensures IsPeriod(m, PointsPerPeriod(m))
    ensures PointsPerPeriod(m) > 0 <==> m.sampleRate >= m.frequency
  {
    var p, f := m.sampleRate / m.frequency, m.frequency;
    assert m.sampleRate == f * p + m.sampleRate % f;
    assert p * f == f * p && (p + 1) * f == f * p + f;
    if p == 0 {
      assert f * p == 0;
    } else {
      assert f * p >= f by { AtLeastOnce(f, p); }
    }
  }

  /** There is one such number. */
  lemma OnePeriod(m: Meta)
    requires m.frequency > 0
    ensures forall p :: IsPeriod(m, p) ==> p == PointsPerPeriod(m)
  {
    forall p | IsPeriod(m, p)
      ensures p == PointsPerPeriod(m)
    {
      PeriodIs(m);
      SamePeriod(m, p, PointsPerPeriod(m));
    }
  }

  lemma SamePeriod(m: Meta, p: int, q: int)
    requires m.frequency > 0 && IsPeriod(m, p) && IsPeriod(m, q)
    ensures p == q
  {
    if p > q {
      TimesMono(q + 1, p, m.frequency);
    } else if q > p {
      TimesMono(p + 1, q, m.frequency);
    }
  }

  lemma TimesMono(a: int, b: int, f: nat)
    requires a <= b
    ensures a * f <= b * f
  {
    assert (b - a) * f >= 0;
    assert (b - a) * f == b * f - a * f;
  }

  lemma AtLeastOnce(f: nat, p: nat)
    requires p > 0
    ensures f * p >= f
  {
    assert f * p == f + f * (p - 1);
    assert f * (p - 1) >= 0;
  }

  const NUMBER_OF_RMS := 4

  /** The fields of the detector; of previous_rms only the length. */
  datatype State = State(detectedAnEvent: bool, requestedDataPointId: int, previousRms: nat)

  datatype Event<T> = Event(start: int, data: seq<T>)

  /** What one call does: the new state, the answer, the event emitted if any, whether this call detected
      one, and whether an assertion failed or createEvent threw. */
  datatype Outcome<T> = Outcome(state: State, info: ReadInfo, events: seq<Event<T>>, detected: bool, failed: bool)

  /** The settings: the stream's meta data, compare_after, and the decision of the detector, which may
      depend on all calls so far. */
  datatype Config<!T> = Config(meta: Meta, compareAfter: nat, decide: seq<Call<T>> -> bool)

  function Max(a: nat, b: nat): nat {
    if a < b then b else a
  }

  function MinDataPointsNeeded(m: Meta, compareAfter: nat): nat
    requires m.frequency > 0
  {
    Max(NUMBER_OF_RMS * PointsPerPeriod(m), compareAfter) + PointsPerPeriod(m)
  }

  /** detectEvent on n points: its result, the new length of previous_rms, and whether an assertion fails. */
  datatype Detection = Detection(detected: bool, previousRms: nat, failed: bool)

  function DetectEvent(m: Meta, compareAfter: nat, previousRms: nat, n: nat, decision: bool): Detection
    requires m.frequency > 0
  {
    var failed := n < PointsPerPeriod(m) || n < compareAfter;
    if previousRms + 1 < NUMBER_OF_RMS then
      Detection(false, previousRms + 1 + NUMBER_OF_RMS, failed || n <= PointsPerPeriod(m) * NUMBER_OF_RMS)
    else if decision then Detection(true, 0, failed)
    else Detection(false, if previousRms + 1 > NUMBER_OF_RMS then previousRms else previousRms + 1, failed)
  }

  /** One call of workOnDataPoints. */
  function Work<T>(m: Meta, compareAfter: nat, s: State, call: Call<T>, decision: bool): Outcome<T>
    requires m.frequency > 0
  {
    var before, of, id, n := m.storedBefore, m.storedOf, call.id, MinDataPointsNeeded(m, compareAfter);
    var d := DetectEvent(m, compareAfter, s.previousRms, |call.data|, decision);
    if |call.data| == 0 then
      Outcome(s.(requestedDataPointId := id + before), ReadInfo(before, n, id + before), [], false, false)
    else if s.detectedAnEvent && s.requestedDataPointId == id then
      var next := id + before + of;
      if |call.data| < before + of then Outcome(s.(detectedAnEvent := false), ReadInfo(0, 0, 0), [], false, true)
      else
        Outcome(State(false, next, s.previousRms), ReadInfo(before, n, next), [Event(id, call.data)], false, false)
    else if d.detected then
      var start := id - before + PointsPerPeriod(m);
      Outcome(State(true, start, d.previousRms), ReadInfo(0, before + of, start), [], true, d.failed)
    else
      Outcome(State(s.detectedAnEvent, id + n, d.previousRms), ReadInfo(before, n, id + n), [], false, d.failed)
  }

  /** The state of a detector after the calls h, and what the last of them did. */
  function After<T>(c: Config<T>, h: seq<Call<T>>): Outcome<T>
    requires c.meta.frequency > 0
  {
    if h == [] then Outcome(State(false, 0, 0), ReadInfo(0, 0, 0), [], false, false)
    else Work(c.meta, c.compareAfter, After(c, h[..|h| - 1]).state, h[|h| - 1], c.decide(h))
  }

  /** The events emitted in the calls h, in order. */
  function Emitted<T>(c: Config<T>, h: seq<Call<T>>): seq<Event<T>>
    requires c.meta.frequency > 0
  {
    if h == [] then [] else Emitted(c, h[..|h| - 1]) + After(c, h).events
  }

  /** The answer asks for the event around a detection in the chunk at id: all points stored, from one period
      behind the chunk less the points stored before it. */
  predicate WantsEvent(m: Meta, id: int, info: ReadInfo) {
    info.keep == 0 && info.read == m.storedBefore + m.storedOf && IsPeriod(m, info.next - id + m.storedBefore)
  }

  /** The answer asks for the next points to search: the larger of four periods and compare_after, and a period. */
  ghost predicate WantsWindow<T>(c: Config<T>, info: ReadInfo) {
    && info.keep == c.meta.storedBefore
    && exists p: nat :: IsPeriod(c.meta, p) && info.read == p + if 4 * p < c.compareAfter then c.compareAfter else 4 * p
  }

  /** An event with too few points is not emitted. */
  lemma FailsWhenShort<T>(m: Meta, compareAfter: nat, s: State, call: Call<T>, decision: bool)
    requires m.frequency > 0
    ensures var o := Work(m, compareAfter, s, call, decision);
      && (o.failed ==> o.events == [])
      && (call.data != [] && s.detectedAnEvent && s.requestedDataPointId == call.id ==>
        (o.failed <==> |call.data| < m.storedBefore + m.storedOf))
  {
  }

  class EventDetector<T(!new)> {
    const config: Config<T>
    var detectedAnEvent: bool
    var requestedDataPointId: int
    var previousRms: nat
    ghost var calls: seq<Call<T>>

    function Fields(): State
      reads this
    {
      State(detectedAnEvent, requestedDataPointId, previousRms)
    }

    /** The fields are what the calls so far have made of them. */
    ghost predicate Valid()
      reads this
    {
      config.meta.frequency > 0 && Fields() == After(config, calls).state
    }

    constructor (config: Config<T>)
      requires config.meta.frequency > 0
      ensures this.config == config && Valid() && calls == []
    {
      this.config, detectedAnEvent, requestedDataPointId, previousRms := config, false, 0, 0;
      calls := [];
    }

    /** decision says whether the chunk exceeds the median of the previous ones by the threshold; ok is false
        when an assertion fails or createEvent throws. Called as it asked to be, the detector answers within
        the read contract, nothing fails, and the call after a detection emits the full event around it. */
    method WorkOnDataPoints(data: seq<T>, dataPointId: int, decision: bool)
      returns (info: ReadInfo, ok: bool, events: seq<Event<T>>)
      requires Valid() && decision == config.decide(calls + [Call(dataPointId, data)])
      modifies this
      ensures Valid() && calls == old(calls) + [Call(dataPointId, data)]
      ensures info == After(config, calls).info && ok == !After(config, calls).failed
      ensures Emitted(config, calls) == Emitted(config, old(calls)) + events
      ensures data != [] && old(detectedAnEvent) && old(requestedDataPointId) == dataPointId ==>
        (ok <==> |data| >= config.meta.storedBefore + config.meta.storedOf)
      ensures !ok ==> events == []
      ensures AsItAsked() ==> ok && Meets(AsWorker(config), calls)
      ensures AsItAsked() ==> events == if old(detectedAnEvent) then [Event(dataPointId, data)] else []
      ensures AsItAsked() && old(detectedAnEvent) ==>
        && |data| == config.meta.storedBefore + config.meta.storedOf && |calls| > 2
        && IsPeriod(config.meta, dataPointId - calls[|calls| - 2].id + config.meta.storedBefore)
      ensures AsItAsked() ==>
        (detectedAnEvent <==> !old(detectedAnEvent) && old(previousRms) == 5 && decision)
      ensures AsItAsked() && detectedAnEvent ==> WantsEvent(config.meta, dataPointId, info)
      ensures AsItAsked() && !detectedAnEvent ==> WantsWindow(config, info)
      ensures AsItAsked() && !detectedAnEvent ==>
        info.next - dataPointId ==
          if |calls| == 1 then config.meta.storedBefore
          else if old(detectedAnEvent) then config.meta.storedBefore + config.meta.storedOf
          else info.read
    {
      hide After, Work, Emitted, Meets, Asked, AsWorker, Sensible, IsPeriod, WantsWindow, WantsEvent;
      ghost var was, call := calls, Call(dataPointId, data);
      info, ok, events := Answer(data, dataPointId, decision);
      FailsWhenShort(config.meta, config.compareAfter, old(Fields()), call, decision);
      calls := calls + [call];
      AfterOneMore(config, was, call);
      if AsItAsked() {
        ServedCall(config, was, call);
        ServedAnswer(config, was, call);
      }
    }

    /** The calls so far are calls that the distributor makes to a detector that stores something of an event. */
    ghost predicate AsItAsked()
      reads this
    {
      Sensible(config) && Asked(AsWorker(config), calls)
    }

    method Answer(data: seq<T>, dataPointId: int, decision: bool)
      returns (info: ReadInfo, ok: bool, events: seq<Event<T>>)
      requires config.meta.frequency > 0
      modifies this`detectedAnEvent, this`requestedDataPointId, this`previousRms
      ensures var o := Work(config.meta, config.compareAfter, old(Fields()), Call(dataPointId, data), decision);
              Fields() == o.state && info == o.info && events == o.events && ok == !o.failed
    {
      var meta := config.meta;
      var needed, before := MinDataPointsNeeded(meta, config.compareAfter), meta.storedBefore;
      ok, events := true, [];
      if |data| == 0 {
        requestedDataPointId := dataPointId + before;
        return ReadInfo(before, needed, requestedDataPointId), ok, events;
      }
      if detectedAnEvent && requestedDataPointId == dataPointId {
        detectedAnEvent := false;
        if |data| < before + meta.storedOf {
          return ReadInfo(0, 0, 0), false, [];
        }
        events := [Event(dataPointId, data)];
        requestedDataPointId := dataPointId + before + meta.storedOf;
        return ReadInfo(before, needed, requestedDataPointId), ok, events;
      }
      var detected;
      detected, ok := Detect(|data|, decision);
      if detected {
        detectedAnEvent := true;
        requestedDataPointId := dataPointId - before + PointsPerPeriod(meta);
        return ReadInfo(0, before + meta.storedOf, requestedDataPointId), ok, events;
      }
      requestedDataPointId := dataPointId + needed;
      info := ReadInfo(before, needed, requestedDataPointId);
    }

    method Detect(n: nat, decision: bool) returns (detected: bool, ok: bool)
      requires config.meta.frequency > 0
      modifies this`previousRms
      ensures DetectEvent(config.meta, config.compareAfter, old(previousRms), n, decision) ==
        Detection(detected, previousRms, !ok)
      ensures forall p :: IsPeriod(config.meta, p) ==>
        (ok <==> n >= p && n >= config.compareAfter && (old(previousRms) < 3 ==> n > 4 * p))
    {
      OnePeriod(config.meta);
      var meta := config.meta;
      ok := n >= PointsPerPeriod(meta) && n >= config.compareAfter;
      previousRms := previousRms + 1;
      if previousRms > NUMBER_OF_RMS {
        previousRms := previousRms - 1;
      } else if previousRms < NUMBER_OF_RMS {
        ok := ok && n > PointsPerPeriod(meta) * NUMBER_OF_RMS;
        for i := 0 to NUMBER_OF_RMS
          invariant previousRms == old(previousRms) + 1 + i
        {
          previousRms := previousRms + 1;
        }
        return false, ok;
      }
      if decision {
        previousRms := 0;
        return true, ok;
      }
      detected := false;
    }
  }

  /** How far a detector got, counted from its first call: a window further counts three, and between a
      detection, the read of its event and the first window after it there is one step each. */
  function Progress<T>(c: Config<T>, h: seq<Call<T>>): int
    requires c.meta.frequency > 0
  {
    if h == [] then 0
    else
      var o := After(c, h);
      if o.state.detectedAnEvent then 3 * (o.info.next + c.meta.storedBefore - PointsPerPeriod(c.meta)) + 1
      else 3 * o.info.next + if o.state.previousRms == 0 then 2 else 0
  }

  /** The detector as a worker of the distributor. */
  function AsWorker<T>(c: Config<T>): Worker<T>
    requires c.meta.frequency > 0
  {
    Worker((h: seq<Call<T>>) => After(c, h).info, (h: seq<Call<T>>) => Progress(c, h), (e: int) => 3 * e + 2)
  }

  /** Between calls the detector searches for an event or fetches the one it has found. */
  ghost predicate Consistent<T>(c: Config<T>, o: Outcome<T>, start: int)
    requires c.meta.frequency > 0
  {
    && !o.failed && start <= o.info.next - o.info.keep
    && var total, needed := c.meta.storedBefore + c.meta.storedOf, MinDataPointsNeeded(c.meta, c.compareAfter);
    if o.state.detectedAnEvent then (
      && o.state.previousRms == 0 && o.info == ReadInfo(0, total, o.state.requestedDataPointId)
      && start + PointsPerPeriod(c.meta) <= o.info.next
    ) else (
      o.state.previousRms in {0, 5} && o.info == ReadInfo(c.meta.storedBefore, needed, o.state.requestedDataPointId)
    )
  }

  /** A detector that stores something of an event and looks at something. */
  predicate Sensible<T>(c: Config<T>) {
    && c.meta.frequency > 0 && c.meta.storedBefore + c.meta.storedOf > 0
    && MinDataPointsNeeded(c.meta, c.compareAfter) > 0
  }

  lemma FirstCall<T(!new)>(c: Config<T>, h: seq<Call<T>>)
    requires Sensible(c) && |h| == 1 && h[0].data == []
    ensures Consistent(c, After(c, h), h[0].id) && !After(c, h).state.detectedAnEvent && After(c, h).events == []
    ensures After(c, h).info.next == h[0].id + c.meta.storedBefore
  {
    assert h[..0] == [];
    assert After(c, h[..0]).state == State(false, 0, 0);
  }

  lemma OneStep<T(!new)>(c: Config<T>, o: Outcome<T>, call: Call<T>, decision: bool, start: int)
    requires Sensible(c) && Consistent(c, o, start) && call.id == o.info.next && |call.data| == o.info.read
    ensures var o' := Work(c.meta, c.compareAfter, o.state, call, decision);
      && Consistent(c, o', start) && Contract(o.info, o'.info)
      && (o'.events == if o.state.detectedAnEvent then [Event(call.id, call.data)] else [])
      && (o.state.detectedAnEvent ==>
        !o'.state.detectedAnEvent && o'.info.next == call.id + c.meta.storedBefore + c.meta.storedOf)
      && (o'.detected <==> o'.state.detectedAnEvent)
      && (o'.detected ==> o'.info.next == call.id - c.meta.storedBefore + PointsPerPeriod(c.meta))
      && (!o'.detected && !o.state.detectedAnEvent ==>
        o'.info.next == call.id + MinDataPointsNeeded(c.meta, c.compareAfter) && o'.state.previousRms == 5)
  {
  }

  /** In every sequence of calls as it asked for, nothing fails and previous_rms has 0 or 5 entries. */
  lemma {:induction false} AlwaysConsistent<T(!new)>(c: Config<T>, h: seq<Call<T>>)
    requires Sensible(c) && Asked(AsWorker(c), h)
    ensures Consistent(c, After(c, h), h[0].id)
  {
    if |h| == 1 {
      FirstCall(c, h);
    } else {
      var g := h[..|h| - 1];
      AskedPrefix(c, h);
      AlwaysConsistent(c, g);
      OneStep(c, After(c, g), h[|h| - 1], c.decide(h), h[0].id);
    }
  }

  lemma AskedPrefix<T(!new)>(c: Config<T>, h: seq<Call<T>>)
    requires c.meta.frequency > 0 && Asked(AsWorker(c), h) && |h| > 1
    ensures Asked(AsWorker(c), h[..|h| - 1])
    ensures var o := After(c, h[..|h| - 1]); h[|h| - 1].id == o.info.next && |h[|h| - 1].data| == o.info.read
  {
    var w, g := AsWorker(c), h[..|h| - 1];
    assert AskedAt(w, h, |h| - 1);
    forall i | 0 < i < |g|
      ensures AskedAt(w, g, i)
    {
      assert AskedAt(w, h, i) && g[..i] == h[..i];
    }
  }

  /** With something to store and something to look at, the detector meets the read contract, whatever it
      decides, and gets through any finite part of the stream in finitely many calls. */
  lemma DetectorIsHonest<T(!new)>(c: Config<T>)
    requires Sensible(c)
    ensures Honest(AsWorker(c))
  {
    var w := AsWorker(c);
    forall h: seq<Call<T>> | Asked(w, h)
      ensures Meets(w, h)
    {
      AlwaysConsistent(c, h);
      if |h| == 1 {
        FirstCall(c, h);
      } else {
        var g := h[..|h| - 1];
        AskedPrefix(c, h);
        AlwaysConsistent(c, g);
        OneStep(c, After(c, g), h[|h| - 1], c.decide(h), h[0].id);
      }
    }
  }

  /** A detection at call k is followed, when there is a next call, by its event: the points around the
      detection, in full length. */
  lemma DetectionIsEmitted<T(!new)>(c: Config<T>, h: seq<Call<T>>)
    requires Sensible(c) && Asked(AsWorker(c), h) && |h| > 1
    ensures var g, last := h[..|h| - 1], h[|h| - 1];
      if After(c, g).detected
      then After(c, h).events == [Event(last.id, last.data)] && |last.data| == c.meta.storedBefore + c.meta.storedOf
        && IsPeriod(c.meta, last.id - g[|g| - 1].id + c.meta.storedBefore)
      else After(c, h).events == []
  {
    PeriodIs(c.meta);
    hide IsPeriod;
    var g := h[..|h| - 1];
    AskedPrefix(c, h);
    AlwaysConsistent(c, g);
    OneStep(c, After(c, g), h[|h| - 1], c.decide(h), h[0].id);
    DetectedIsFetching(c, g);
  }

  lemma DetectedIsFetching<T(!new)>(c: Config<T>, h: seq<Call<T>>)
    requires Sensible(c) && Asked(AsWorker(c), h)
    ensures After(c, h).detected <==> After(c, h).state.detectedAnEvent
    ensures After(c, h).detected ==>
      |h| > 1 && After(c, h).info.next == h[|h| - 1].id - c.meta.storedBefore + PointsPerPeriod(c.meta)
  {
    if |h| == 1 {
      FirstCall(c, h);
    } else {
      var g := h[..|h| - 1];
      AskedPrefix(c, h);
      AlwaysConsistent(c, g);
      OneStep(c, After(c, g), h[|h| - 1], c.decide(h), h[0].id);
    }
  }

  lemma AfterOneMore<T>(c: Config<T>, g: seq<Call<T>>, call: Call<T>)
    requires c.meta.frequency > 0
    ensures After(c, g + [call]) ==
      Work(c.meta, c.compareAfter, After(c, g).state, call, c.decide(g + [call]))
    ensures Emitted(c, g + [call]) == Emitted(c, g) + After(c, g + [call]).events
  {
    assert (g + [call])[..|g|] == g;
  }

  /** How many points a search window has. */
  lemma WindowIs<T(!new)>(c: Config<T>, info: ReadInfo)
    requires c.meta.frequency > 0 && info.keep == c.meta.storedBefore
    requires info.read == MinDataPointsNeeded(c.meta, c.compareAfter)
    ensures WantsWindow(c, info)
  {
    PeriodIs(c.meta);
    hide IsPeriod;
    var p: nat := PointsPerPeriod(c.meta);
    assert IsPeriod(c.meta, p);
  }

  lemma NothingToSee(m: Meta, compareAfter: nat)
    requires m.frequency > 0
    ensures MinDataPointsNeeded(m, compareAfter) > 0 <==> m.sampleRate >= m.frequency || compareAfter > 0
  {
    PeriodIs(m);
    hide IsPeriod;
  }

  /** A call as the detector asked for it. */
  lemma ServedCall<T(!new)>(c: Config<T>, g: seq<Call<T>>, call: Call<T>)
    requires Sensible(c) && Asked(AsWorker(c), g + [call])
    ensures var s, o := After(c, g).state, After(c, g + [call]);
      && !o.failed && Meets(AsWorker(c), g + [call])
      && o.events == (if s.detectedAnEvent then [Event(call.id, call.data)] else [])
      && (s.detectedAnEvent ==>
        && |call.data| == c.meta.storedBefore + c.meta.storedOf && |g| > 1
        && IsPeriod(c.meta, call.id - g[|g| - 1].id + c.meta.storedBefore))
      && (o.state.detectedAnEvent <==> !s.detectedAnEvent && s.previousRms == 5 && c.decide(g + [call]))
  {
    hide IsPeriod, WantsWindow, Asked, AsWorker, Work, After;
    var h := g + [call];
    assert h[..|g|] == g;
    MeetsAsked(c, h);
    AlwaysConsistent(c, h);
    DetectedIsFetching(c, h);
    if g == [] {
      FirstIsEmpty(c, h);
      FirstCall(c, h);
      AtFirst(c, h);
    } else {
      DetectionIsEmitted(c, h);
      AskedPrefix(c, h);
      AlwaysConsistent(c, g);
      DetectedIsFetching(c, g);
      AfterOneMore(c, g, call);
      Detects(c, After(c, g), call, c.decide(h), h[0].id);
      assert h[0] == g[0];
    }
  }

  lemma MeetsAsked<T(!new)>(c: Config<T>, h: seq<Call<T>>)
    requires Sensible(c) && Asked(AsWorker(c), h)
    ensures Meets(AsWorker(c), h)
  {
    DetectorIsHonest(c);
  }

  lemma AtFirst<T>(c: Config<T>, h: seq<Call<T>>)
    requires c.meta.frequency > 0 && |h| == 1 && h[0].data == []
    ensures After(c, []).state == State(false, 0, 0) && !After(c, h).failed && After(c, h).events == []
    ensures h[..0] == []
  {
  }

  lemma Detects<T(!new)>(c: Config<T>, o: Outcome<T>, call: Call<T>, decision: bool, start: int)
    requires Sensible(c) && Consistent(c, o, start) && call.id == o.info.next && |call.data| == o.info.read
    ensures var o' := Work(c.meta, c.compareAfter, o.state, call, decision);
      o'.state.detectedAnEvent <==> !o.state.detectedAnEvent && o.state.previousRms == 5 && decision
  {
  }

  /** What the detector then asks for. */
  lemma ServedAnswer<T(!new)>(c: Config<T>, g: seq<Call<T>>, call: Call<T>)
    requires Sensible(c) && Asked(AsWorker(c), g + [call])
    ensures var s, o := After(c, g).state, After(c, g + [call]);
      && (o.state.detectedAnEvent ==> WantsEvent(c.meta, call.id, o.info))
      && (!o.state.detectedAnEvent ==>
        WantsWindow(c, o.info) && o.info.next - call.id ==
          if g == [] then c.meta.storedBefore
          else if s.detectedAnEvent then c.meta.storedBefore + c.meta.storedOf
          else o.info.read)
  {
    hide IsPeriod, WantsWindow, Asked, AsWorker, After;
    var h := g + [call];
    assert h[..|g|] == g;
    AlwaysConsistent(c, h);
    PeriodIs(c.meta);
    if !After(c, h).state.detectedAnEvent {
      WindowIs(c, After(c, h).info);
    }
    if g == [] {
      assert h[0].data == [] by { FirstIsEmpty(c, h); }
      FirstCall(c, h);
    } else {
      AskedPrefix(c, h);
      AlwaysConsistent(c, g);
      AfterOneMore(c, g, call);
      OneStep(c, After(c, g), call, c.decide(h), h[0].id);
      assert h[0] == g[0];
    }
  }

  lemma FirstIsEmpty<T(!new)>(c: Config<T>, h: seq<Call<T>>)
    requires c.meta.frequency > 0 && Asked(AsWorker(c), h)
    ensures h != [] && h[0].data == []
  {
  }

  /** The first point after the event part of an event. */
  function PostEnd<T>(c: Config<T>, e: Event<T>): int {
    e.start + c.meta.storedBefore + c.meta.storedOf
  }

  /** Where the detector goes on searching, as far as the events are concerned. */
  function Frontier<T>(c: Config<T>, h: seq<Call<T>>): int
    requires c.meta.frequency > 0
  {
    var o := After(c, h);
    if o.state.detectedAnEvent then o.info.next + c.meta.storedBefore else o.info.next
  }

  /** The parts of the emitted events that follow the detection are disjoint and in stream order, and
      every event has its full length. */
  lemma {:induction false} EventsApart<T(!new)>(c: Config<T>, h: seq<Call<T>>)
    requires Sensible(c) && Asked(AsWorker(c), h)
    ensures forall i :: 0 <= i < |Emitted(c, h)| ==>
      |Emitted(c, h)[i].data| == c.meta.storedBefore + c.meta.storedOf && PostEnd(c, Emitted(c, h)[i]) <= Frontier(c, h)
    ensures forall i, j :: 0 <= i < j < |Emitted(c, h)| ==>
      PostEnd(c, Emitted(c, h)[i]) <= Emitted(c, h)[j].start + c.meta.storedBefore
  {
    if |h| == 1 {
      FirstCall(c, h);
      assert Emitted(c, h[..0]) == [];
      assert Emitted(c, h) == [];
    } else {
      var g := h[..|h| - 1];
      AskedPrefix(c, h);
      AlwaysConsistent(c, g);
      EventsApart(c, g);
      OneStep(c, After(c, g), h[|h| - 1], c.decide(h), h[0].id);
      DetectedIsFetching(c, g);
      assert Emitted(c, h) == Emitted(c, g) + After(c, h).events;
    }
  }

  /** The detector meets the contract for every decision exactly when it stores something of an event
      and looks at something. */
  lemma HonestIff<T(!new)>(meta: Meta, compareAfter: nat, blank: T)
    requires meta.frequency > 0
    ensures (forall decide: seq<Call<T>> -> bool :: Honest(AsWorker(Config(meta, compareAfter, decide))))
      <==> meta.storedBefore + meta.storedOf > 0 && (meta.sampleRate >= meta.frequency || compareAfter > 0)
  {
    NothingToSee(meta, compareAfter);
    if meta.storedBefore + meta.storedOf > 0 && MinDataPointsNeeded(meta, compareAfter) > 0 {
      forall decide: seq<Call<T>> -> bool
        ensures Honest(AsWorker(Config(meta, compareAfter, decide)))
      {
        DetectorIsHonest(Config(meta, compareAfter, decide));
      }
    } else {
      var c := Config(meta, compareAfter, (h: seq<Call<T>>) => true);
      var h := Dishonest(c, blank);
      assert !Meets(AsWorker(c), h);
    }
  }

  /** A window of n points. */
  function Blank<T>(n: nat, blank: T): (s: seq<T>)
    ensures |s| == n
  {
    seq(n, _ => blank)
  }

  /** Without points to look at, or to store, some sequence of calls ends in a request for no points. */
  lemma Dishonest<T(!new)>(c: Config<T>, blank: T) returns (h: seq<Call<T>>)
    requires c.meta.frequency > 0 && forall g: seq<Call<T>> :: c.decide(g)
    requires c.meta.storedBefore + c.meta.storedOf == 0 || MinDataPointsNeeded(c.meta, c.compareAfter) == 0
    ensures Asked(AsWorker(c), h) && After(c, h).info.read == 0
  {
    var w, n := AsWorker(c), MinDataPointsNeeded(c.meta, c.compareAfter);
    var c0: Call<T> := Call(0, []);
    h := [c0];
    assert h[..0] == [];
    if n > 0 {
      var c1 := Call(After(c, h).info.next, Blank(n, blank));
      assert [c0, c1][..1] == [c0];
      assert AskedAt(w, [c0, c1], 1);
      var c2 := Call(After(c, [c0, c1]).info.next, Blank(n, blank));
      h := [c0, c1, c2];
      assert h[..2] == [c0, c1] && h[..1] == [c0];
      assert AskedAt(w, h, 1) && AskedAt(w, h, 2);
    }
  }

  /** What becomes of a detection when nothing is to be stored: the empty read is taken for a first call,
      the detection is dropped, and the next window, in which nothing was detected, is emitted as its event. */
  lemma EmptyEventMisplaced<T(!new)>(c: Config<T>, h: seq<Call<T>>)
    requires c.meta.frequency > 0 && c.meta.storedBefore + c.meta.storedOf == 0
    requires MinDataPointsNeeded(c.meta, c.compareAfter) > 0
    requires Asked(AsWorker(c), h) && |h| > 2 && After(c, h[..|h| - 2]).detected
    ensures var dropped, last := After(c, h[..|h| - 1]), h[|h| - 1];
      && dropped.events == [] && !dropped.detected
      && last.data != [] && After(c, h).events == [Event(last.id, last.data)]
  {
    hide Asked, AsWorker, Work, After, MinDataPointsNeeded;
    var g, f := h[..|h| - 1], h[..|h| - 2];
    AskedPrefix(c, h);
    AskedPrefix(c, g);
    assert g[..|g| - 1] == f && f != [] && g[|g| - 1] == h[|h| - 2];
    LastStep(c, f);
    LastStep(c, g);
    LastStep(c, h);
    FoundNothing(c, After(c, f[..|f| - 1]).state, f[|f| - 1], c.decide(f));
    DropsThenEmits(c, After(c, f).state, g[|g| - 1], h[|h| - 1], c.decide(g), c.decide(h));
  }

  lemma LastStep<T>(c: Config<T>, h: seq<Call<T>>)
    requires c.meta.frequency > 0 && h != []
    ensures After(c, h) == Work(c.meta, c.compareAfter, After(c, h[..|h| - 1]).state, h[|h| - 1], c.decide(h))
  {
  }

  lemma FoundNothing<T>(c: Config<T>, s: State, call: Call<T>, decision: bool)
    requires c.meta.frequency > 0 && c.meta.storedBefore + c.meta.storedOf == 0
    ensures var o := Work(c.meta, c.compareAfter, s, call, decision);
      o.detected ==> o.state.detectedAnEvent && o.info.read == 0
  {
  }

  lemma DropsThenEmits<T>(c: Config<T>, s: State, empty: Call<T>, window: Call<T>, first: bool, second: bool)
    requires c.meta.frequency > 0 && c.meta.storedBefore + c.meta.storedOf == 0
    requires s.detectedAnEvent && empty.data == []
    ensures var o := Work(c.meta, c.compareAfter, s, empty, first);
      && o.events == [] && !o.detected && o.info.read == MinDataPointsNeeded(c.meta, c.compareAfter)
      && (window.id == o.info.next && window.data != [] ==>
        Work(c.meta, c.compareAfter, o.state, window, second).events == [Event(window.id, window.data)])
  {
    hide MinDataPointsNeeded;
  }

  /** If the call before the last detected something, the last call has emitted the event around the
      detection, in full length; otherwise it has emitted nothing. */
  ghost predicate Followed<T>(c: Config<T>, h: seq<Call<T>>)
    requires c.meta.frequency > 0 && |h| > 1
  {
    var g, last := h[..|h| - 1], h[|h| - 1];
    if After(c, g).detected
    then (
      && After(c, h).events == [Event(last.id, last.data)] && |last.data| == c.meta.storedBefore + c.meta.storedOf
      && IsPeriod(c.meta, last.id - g[|g| - 1].id + c.meta.storedBefore)
    ) else After(c, h).events == []
  }

  ghost predicate AlwaysFollowed<T(!new)>(c: Config<T>)
    requires c.meta.frequency > 0
  {
    forall h: seq<Call<T>> :: Asked(AsWorker(c), h) && |h| > 1 ==> Followed(c, h)
  }

  /** A detector that looks at nothing gets no data and emits nothing. */
  lemma {:induction false} Blind<T(!new)>(c: Config<T>, h: seq<Call<T>>)
    requires c.meta.frequency > 0 && MinDataPointsNeeded(c.meta, c.compareAfter) == 0 && Asked(AsWorker(c), h)
    ensures var o := After(c, h); o.info.read == 0 && !o.detected && o.events == []
  {
    if |h| == 1 {
      assert h[..0] == [];
    } else {
      AskedPrefix(c, h);
      Blind(c, h[..|h| - 1]);
    }
  }

  /** Every detection, and nothing else, is followed by its event, for every decision, exactly when something
      of an event is stored or the detector looks at nothing. */
  lemma FollowedIff<T(!new)>(meta: Meta, compareAfter: nat, blank: T)
    requires meta.frequency > 0
    ensures (forall decide: seq<Call<T>> -> bool :: AlwaysFollowed(Config(meta, compareAfter, decide)))
      <==> meta.storedBefore + meta.storedOf > 0 || (meta.sampleRate < meta.frequency && compareAfter == 0)
  {
    NothingToSee(meta, compareAfter);
    if meta.storedBefore + meta.storedOf > 0 || MinDataPointsNeeded(meta, compareAfter) == 0 {
      forall decide: seq<Call<T>> -> bool
        ensures AlwaysFollowed(Config(meta, compareAfter, decide))
      {
        FollowedAlways(Config(meta, compareAfter, decide));
      }
    } else {
      var c := Config(meta, compareAfter, (h: seq<Call<T>>) => true);
      var h := NotFollowed(c, blank);
      assert !AlwaysFollowed(c);
    }
  }

  lemma FollowedAlways<T(!new)>(c: Config<T>)
    requires c.meta.frequency > 0
    requires c.meta.storedBefore + c.meta.storedOf > 0 || MinDataPointsNeeded(c.meta, c.compareAfter) == 0
    ensures AlwaysFollowed(c)
  {
    forall h: seq<Call<T>> | Asked(AsWorker(c), h) && |h| > 1
      ensures Followed(c, h)
    {
      if MinDataPointsNeeded(c.meta, c.compareAfter) > 0 {
        DetectionIsEmitted(c, h);
      } else {
        AskedPrefix(c, h);
        Blind(c, h);
        Blind(c, h[..|h| - 1]);
      }
    }
  }

  lemma NotFollowed<T(!new)>(c: Config<T>, blank: T) returns (h: seq<Call<T>>)
    requires c.meta.frequency > 0 && forall g: seq<Call<T>> :: c.decide(g)
    requires c.meta.storedBefore + c.meta.storedOf == 0 && MinDataPointsNeeded(c.meta, c.compareAfter) > 0
    ensures Asked(AsWorker(c), h) && |h| > 1 && !Followed(c, h)
  {
    var g := Dishonest(c, blank);
    var call: Call<T> := Call(After(c, g).info.next, []);
    h := g + [call];
    assert h[..|g|] == g;
    forall i | 0 < i < |h|
      ensures AskedAt(AsWorker(c), h, i)
    {
      if i < |g| {
        assert h[..i] == g[..i] && AskedAt(AsWorker(c), g, i);
      }
    }
  }

  lemma FirstServed<T(!new)>(c: Config<T>, stream: int -> T, start: int, h: seq<Call<T>>)
    requires c.meta.frequency > 0 && h == [Call(start, [])]
    ensures [] + h == h && Asked(AsWorker(c), h) && FromStream(h, stream) && Emitted(c, []) == []
  {
  }

  lemma PartOfStream<T(!new)>(data: seq<T>, stream: int -> T, start: int)
    requires forall k :: 0 <= k < |data| ==> data[k] == stream(start + k)
    ensures PartOf(data, stream, start)
  {
  }

  lemma NextServed<T(!new)>(c: Config<T>, h: seq<Call<T>>, stream: int -> T, call: Call<T>)
    requires Sensible(c) && Asked(AsWorker(c), h) && FromStream(h, stream)
    requires call.id == After(c, h).info.next && |call.data| == After(c, h).info.read
    requires PartOf(call.data, stream, call.id)
    ensures Asked(AsWorker(c), h + [call]) && FromStream(h + [call], stream)
  {
    DetectorIsHonest(c);
    NextCall(AsWorker(c), h, call);
  }

  /** A detector served alone, call by call as it asks for the stream: nothing fails, and the emitted events
      are full parts of the stream whose parts after the detections are disjoint. */
  method Serve<T(!new)>(d: EventDetector<T>, stream: int -> T, start: int, count: nat)
    returns (events: seq<Event<T>>, ok: bool)
    requires d.Valid() && d.calls == [] && Sensible(d.config)
    modifies d
    ensures ok && d.Valid() && |d.calls| == count + 1 && d.calls[0] == Call(start, []) && d.AsItAsked()
    ensures events == Emitted(d.config, d.calls)
    ensures forall j :: 0 <= j < |events| ==>
      && |events[j].data| == d.config.meta.storedBefore + d.config.meta.storedOf
      && PartOf(events[j].data, stream, events[j].start)
    ensures forall i, j :: 0 <= i < j < |events| ==>
      PostEnd(d.config, events[i]) <= events[j].start + d.config.meta.storedBefore
  {
    hide After, Asked, AsWorker, FromStream, PartOf, Meets;
    var h := [Call(start, [])];
    FirstServed(d.config, stream, start, h);
    var info;
    info, ok, events := d.WorkOnDataPoints([], start, d.config.decide(h));
    for i := 0 to count
      invariant d.Valid() && d.calls == h && |h| == i + 1 && h[0] == Call(start, []) && d.AsItAsked() && ok
      invariant info == After(d.config, h).info && events == Emitted(d.config, h) && FromStream(h, stream)
    {
      var data := seq(info.read, k => stream(info.next + k));
      var call := Call(info.next, data);
      PartOfStream(data, stream, info.next);
      NextServed(d.config, h, stream, call);
      var more;
      info, ok, more := d.WorkOnDataPoints(data, call.id, d.config.decide(h + [call]));
      events := events + more;
      h := h + [call];
    }
    EventsApart(d.config, h);
    EventsFromStream(d.config, h, stream);
  }

  /** A detector that a distributor serves: every event it has emitted is the full part of the stream
      around its detection, and the parts after the detections are disjoint. */
  lemma EventsOfDistributor<T(!new)>(d: DataStreamDistributor<T>, queue: Source<T>, i: nat, c: Config<T>)
    requires d.Valid(queue) && i < |d.workers| && Sensible(c) && d.workers[i] == AsWorker(c)
    ensures forall j :: 0 <= j < |Emitted(c, d.calls[i])| ==> var e := Emitted(c, d.calls[i])[j];
      |e.data| == c.meta.storedBefore + c.meta.storedOf && PartOf(e.data, queue.stream, e.start)
    ensures forall j, k :: 0 <= j < k < |Emitted(c, d.calls[i])| ==>
      PostEnd(c, Emitted(c, d.calls[i])[j]) <= Emitted(c, d.calls[i])[k].start + c.meta.storedBefore
  {
    var h := d.calls[i];
    assert d.Served(d.workers[i], h, d.readInfos[i], queue.stream, d.globalBufferPos);
    EventsApart(c, h);
    EventsFromStream(c, h, queue.stream);
  }

  lemma {:induction false} EventsFromStream<T(!new)>(c: Config<T>, h: seq<Call<T>>, stream: int -> T)
    requires c.meta.frequency > 0 && FromStream(h, stream)
    ensures forall j :: 0 <= j < |Emitted(c, h)| ==> PartOf(Emitted(c, h)[j].data, stream, Emitted(c, h)[j].start)
  {
    hide PartOf;
    if h != [] {
      var g, last := h[..|h| - 1], h[|h| - 1];
      assert FromStream(g, stream) && PartOf(last.data, stream, last.id);
      EventsFromStream(c, g, stream);
      EmittedByLast(c, h);
    }
  }

  lemma EmittedByLast<T(!new)>(c: Config<T>, h: seq<Call<T>>)
    requires c.meta.frequency > 0 && h != []
    ensures After(c, h).events == [] || After(c, h).events == [Event(h[|h| - 1].id, h[|h| - 1].data)]
  {
  }
}

/** The metric provider: a worker that reads the stream second by second. */
module MetricProvider {
  import opened DataStream

  function NextPeriod(sampleRate: nat, dataPointId: int): ReadInfo {
    ReadInfo(0, sampleRate, dataPointId + sampleRate)
  }

  function Last<T>(h: seq<Call<T>>): int {
    if h == [] then 0 else h[|h| - 1].id
  }

  function AsWorker<T>(sampleRate: nat): Worker<T> {
    Worker((h: seq<Call<T>>) => NextPeriod(sampleRate, Last(h)), (h: seq<Call<T>>) => Last(h), (e: int) => e)
  }

  /** It gets the stream second by second, from the second after its first call on. */
  lemma SecondBySecond<T(!new)>(sampleRate: nat, h: seq<Call<T>>, i: nat)
    requires Asked(AsWorker(sampleRate), h) && 0 < i < |h|
    ensures h[i].id == h[i - 1].id + sampleRate && |h[i].data| == sampleRate
    ensures AsWorker(sampleRate).behave(h).keep == 0
  {
    assert AskedAt(AsWorker(sampleRate), h, i);
    assert h[..i][i - 1] == h[i - 1];
  }

  /** It meets the read contract exactly when the sample rate is positive. */
  lemma ProviderIsHonest<T(!new)>(sampleRate: nat)
    ensures Honest(AsWorker<T>(sampleRate)) <==> sampleRate > 0
  {
    var w := AsWorker<T>(sampleRate);
    if sampleRate > 0 {
      forall h: seq<Call<T>> | Asked(w, h)
        ensures Meets(w, h)
      {
        if |h| > 1 {
          assert AskedAt(w, h, |h| - 1);
        }
      }
    } else {
      var h: seq<Call<T>> := [Call(0, [])];
      assert Asked(w, h) && !Meets(w, h);
    }
  }
}
