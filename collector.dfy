/**
 * The collector daemon (collector.py): every cycle it reads the sensor, scales
 * each known data-point, renders the values as Prometheus text-exposition
 * lines and posts them to VictoriaMetrics' import endpoint, then sleeps.
 *
 * The sensor, the clock and the HTTP store are inputs: a `StatusCall` is what
 * the driver's `status()` did, `timestampMs` is `int(time.time() * 1000)`, a
 * `PostReply` is what the POST did, and `renderFloat` is Python's `str` of a
 * float (its exact digits are not modelled).
 */
module Collector {
  import opened Common
  import opened Text

  /** Seconds slept after every collection cycle. */
  const Interval: nat := 300

  /** The label set carried by every exposition line. */
  const SensorLabel: string := "{sensor=\"seafront_8in1\"}"

  /** One catalog entry: data-point id, VictoriaMetrics metric name, scale factor. */
  datatype DataPoint = DataPoint(id: string, metric: string, scale: Scale)

  /** The data-point catalog, in its iteration order. */
  const DpsMap: seq<DataPoint> := [
    DataPoint("8", "aquarium_temperature_celsius", FloatScale(0.1)),
    DataPoint("106", "aquarium_ph", FloatScale(0.01)),
    DataPoint("111", "aquarium_tds_ppm", IntScale(1)),
    DataPoint("116", "aquarium_ec_uscm", IntScale(1)),
    DataPoint("121", "aquarium_salinity_ppm", IntScale(1)),
    DataPoint("126", "aquarium_specific_gravity", FloatScale(0.001)),
    DataPoint("131", "aquarium_orp_mv", IntScale(1))
  ]

  /** What the POST to the import endpoint did: it raised, or the store answered a status. */
  datatype PostReply = PostRaised | Answered(status: int)

  /** A metric name that an exposition reader can delimit: no `{`, space or newline. */
  predicate PlainName(s: string) {
    forall k :: 0 <= k < |s| ==> s[k] != '{' && s[k] != ' ' && s[k] != '\n'
  }

  /** Distinct ids and plain metric names. */
  predicate WellFormed(catalog: seq<DataPoint>) {
    && (forall i, j :: 0 <= i < j < |catalog| ==> catalog[i].id != catalog[j].id)
    && (forall k :: 0 <= k < |catalog| ==> PlainName(catalog[k].metric))
  }

  lemma DpsMapWellFormed()
    ensures WellFormed(DpsMap)
  {
    IdsDistinct();
    FirstMetricsPlain();
    LastMetricsPlain();
  }

  /** The catalog's ids are distinct. */
  lemma IdsDistinct()
    ensures forall i, j :: 0 <= i < j < |DpsMap| ==> DpsMap[i].id != DpsMap[j].id
  {
  }

  /** The first four metric names are lower-case words joined by underscores. */
  lemma FirstMetricsPlain()
    ensures forall k :: 0 <= k < 4 ==> PlainName(DpsMap[k].metric)
  {
    forall k | 0 <= k < 4 ensures PlainName(DpsMap[k].metric) {
      var m := DpsMap[k].metric;
      assert forall i :: 0 <= i < |m| ==> 'a' <= m[i] <= 'z' || m[i] == '_';
    }
  }

  /** So are the last three. */
  lemma LastMetricsPlain()
    ensures forall k :: 4 <= k < |DpsMap| ==> PlainName(DpsMap[k].metric)
  {
    forall k | 4 <= k < |DpsMap| ensures PlainName(DpsMap[k].metric) {
      var m := DpsMap[k].metric;
      assert forall i :: 0 <= i < |m| ==> 'a' <= m[i] <= 'z' || m[i] == '_';
    }
  }

  /**
   * `get_sensor_reading`: None when the call raised or the status holds an
   * "Error" key; otherwise the "dps" mapping, or `{}` when it is absent.
   */
  function GetSensorReading(call: StatusCall): (r: Option<map<string, int>>)
    ensures r.None? <==> call.Raised? || call.status.error.Some?
    ensures r.Some? ==> r.value == (if call.status.dps.Some? then call.status.dps.value else map[])
  {
    match call
    case Raised(_) => None
    case Returned(status) =>
      if status.error.Some? then None
      else if status.dps.Some? then Some(status.dps.value)
      else Some(map[])
  }

  /** The f-string rendering of a scaled value: `str` of an int or of a float. */
  function Render(v: Number, renderFloat: real -> string): string {
    match v
    case Int(i) => IntToString(i)
    case Float(r) => renderFloat(r)
  }

  /** One exposition line: `metric{sensor="seafront_8in1"} value timestamp_ms`. */
  function Line(p: DataPoint, raw: int, timestampMs: int, renderFloat: real -> string): (line: string)
    ensures p.metric + SensorLabel + " " <= line
    ensures |IntToString(timestampMs)| < |line|
    ensures line[|line| - |IntToString(timestampMs)| - 1..] == " " + IntToString(timestampMs)
  {
    p.metric + SensorLabel + " " + Render(ScaleRaw(raw, p.scale), renderFloat) + " "
      + IntToString(timestampMs)
  }

  /** The catalog entries whose id is a key of `dps`, in catalog order. */
  function Present(catalog: seq<DataPoint>, dps: map<string, int>): (r: seq<DataPoint>)
    ensures |r| <= |catalog|
    ensures forall k :: 0 <= k < |r| ==> r[k] in catalog && r[k].id in dps
  {
    if catalog == [] then []
    else
      var last := catalog[|catalog| - 1];
      Present(catalog[..|catalog| - 1], dps) + (if last.id in dps then [last] else [])
  }

  /** No entry of the catalog has its id among the keys of `dps`. */
  predicate NoKnownId(catalog: seq<DataPoint>, dps: map<string, int>) {
    forall p :: p in catalog ==> p.id !in dps
  }

  /** The lines the write loop appends, one per catalog entry present in `dps`. */
  function Lines(catalog: seq<DataPoint>, dps: map<string, int>, timestampMs: int,
                 renderFloat: real -> string): (ls: seq<string>)
    ensures |ls| <= |catalog|
    ensures ls == [] <==> NoKnownId(catalog, dps)
  {
    if catalog == [] then []
    else
      var init := catalog[..|catalog| - 1];
      var last := catalog[|catalog| - 1];
      assert catalog == init + [last];
      Lines(init, dps, timestampMs, renderFloat)
        + (if last.id in dps then [Line(last, dps[last.id], timestampMs, renderFloat)] else [])
  }

  /** The body posted by `write_to_victoria`, or None when there is no line to post. */
  function Payload(dps: map<string, int>, timestampMs: int, renderFloat: real -> string): (body: Option<string>)
    ensures body.None? <==> NoKnownId(DpsMap, dps)
  {
    var lines := Lines(DpsMap, dps, timestampMs, renderFloat);
    if lines == [] then None else Some(Join(lines, '\n'))
  }

  /**
   * `write_to_victoria`: builds the lines by walking the catalog, posts their
   * newline join only when there is at least one, and reports success exactly
   * when the store answered 204.
   */
  method WriteToVictoria(dps: map<string, int>, timestampMs: int, renderFloat: real -> string,
                         reply: PostReply)
    returns (ok: bool, posted: Option<string>)
    ensures posted == Payload(dps, timestampMs, renderFloat)
    ensures posted.None? <==> NoKnownId(DpsMap, dps)
    ensures ok <==> posted.Some? && reply == Answered(204)
  {
    var lines: seq<string> := [];
    var i := 0;
    while i < |DpsMap|
      invariant 0 <= i <= |DpsMap|
      invariant lines == Lines(DpsMap[..i], dps, timestampMs, renderFloat)
    {
      var p := DpsMap[i];
      assert DpsMap[..i + 1][..i] == DpsMap[..i];
      if p.id in dps {
        lines := lines + [Line(p, dps[p.id], timestampMs, renderFloat)];
      }
      i := i + 1;
    }
    assert DpsMap[..|DpsMap|] == DpsMap;
    if lines == [] {
      return false, None;
    }
    var payload := Join(lines, '\n');
    posted := Some(payload);
    ok := reply == Answered(204);
  }

  // ---------------------------------------------------------------------------
  // Which ids produce lines, and in which order

  /** Line k is the line of the k-th present catalog entry. */
  lemma {:induction false} LinesFollowPresent(catalog: seq<DataPoint>, dps: map<string, int>,
                                              timestampMs: int, renderFloat: real -> string)
    ensures |Lines(catalog, dps, timestampMs, renderFloat)| == |Present(catalog, dps)|
    ensures forall k :: 0 <= k < |Present(catalog, dps)| ==>
              Lines(catalog, dps, timestampMs, renderFloat)[k]
                == Line(Present(catalog, dps)[k], dps[Present(catalog, dps)[k].id], timestampMs, renderFloat)
  {
    if catalog != [] {
      LinesFollowPresent(catalog[..|catalog| - 1], dps, timestampMs, renderFloat);
    }
  }

  /** An entry is present exactly when it is in the catalog and its id is a key of `dps`. */
  lemma {:induction false} PresentMembers(catalog: seq<DataPoint>, dps: map<string, int>, p: DataPoint)
    ensures p in Present(catalog, dps) <==> p in catalog && p.id in dps
  {
    if catalog != [] {
      var init := catalog[..|catalog| - 1];
      PresentMembers(init, dps, p);
      assert catalog == init + [catalog[|catalog| - 1]];
    }
  }

  /**
   * Catalog order is kept: the present entry at catalog position k is at
   * position "number of present entries before k" of the present entries.
   */
  lemma {:induction false} PresentPosition(catalog: seq<DataPoint>, dps: map<string, int>, k: nat)
    requires k < |catalog| && catalog[k].id in dps
    ensures |Present(catalog[..k], dps)| < |Present(catalog, dps)|
    ensures Present(catalog, dps)[|Present(catalog[..k], dps)|] == catalog[k]
  {
    var init := catalog[..|catalog| - 1];
    if k < |catalog| - 1 {
      assert init[..k] == catalog[..k];
      PresentPosition(init, dps, k);
    } else {
      assert init == catalog[..k];
    }
  }

  /** The set of catalog ids. */
  function Ids(catalog: seq<DataPoint>): (r: set<string>)
    ensures forall i :: 0 <= i < |catalog| ==> catalog[i].id in r
    ensures forall x :: x in r ==> exists i :: 0 <= i < |catalog| && catalog[i].id == x
  {
    if catalog == [] then {} else Ids(catalog[..|catalog| - 1]) + {catalog[|catalog| - 1].id}
  }

  /** With distinct ids, the number of lines is the number of catalog ids that are keys of `dps`. */
  lemma {:induction false} PresentCount(catalog: seq<DataPoint>, dps: map<string, int>)
    requires forall i, j :: 0 <= i < j < |catalog| ==> catalog[i].id != catalog[j].id
    ensures |Present(catalog, dps)| == |Ids(catalog) * dps.Keys|
  {
    if catalog != [] {
      var init := catalog[..|catalog| - 1];
      var last := catalog[|catalog| - 1];
      PresentCount(init, dps);
      var before := Ids(init);
      AddOneCount(before, last.id, dps.Keys);
    }
  }

  lemma AddOneCount(a: set<string>, x: string, keys: set<string>)
    requires x !in a
    ensures |(a + {x}) * keys| == |a * keys| + (if x in keys then 1 else 0)
  {
    if x in keys {
      assert (a + {x}) * keys == a * keys + {x};
    } else {
      assert (a + {x}) * keys == a * keys;
    }
  }

  /**
   * Ids outside the catalog never matter: two readings that agree on the
   * catalog ids give the same lines.
   */
  lemma {:induction false} LinesIgnoreUnknownIds(catalog: seq<DataPoint>, d1: map<string, int>,
                                                 d2: map<string, int>, timestampMs: int,
                                                 renderFloat: real -> string)
    requires forall p :: p in catalog ==> (p.id in d1 <==> p.id in d2)
    requires forall p :: p in catalog && p.id in d1 ==> d1[p.id] == d2[p.id]
    ensures Lines(catalog, d1, timestampMs, renderFloat) == Lines(catalog, d2, timestampMs, renderFloat)
  {
    if catalog != [] {
      var init := catalog[..|catalog| - 1];
      assert forall p :: p in init ==> p in catalog;
      LinesIgnoreUnknownIds(init, d1, d2, timestampMs, renderFloat);
    }
  }

  // ---------------------------------------------------------------------------
  // What the store reads back from the payload

  lemma PlainNameExcludes(s: string)
    requires PlainName(s)
    ensures '{' !in s && ' ' !in s && '\n' !in s
  {
  }

  lemma StampExcludes(t: int)
    ensures ' ' !in IntToString(t) && '\n' !in IntToString(t)
  {
  }

  lemma LabelExcludes()
    ensures '\n' !in SensorLabel && SensorLabel[0] == '{'
  {
    assert forall k :: 0 <= k < |SensorLabel| ==> SensorLabel[k] != '\n';
  }

  /** A reader recovers the metric name before the `{` and the timestamp after the last space. */
  lemma LineFields(p: DataPoint, raw: int, timestampMs: int, renderFloat: real -> string)
    requires PlainName(p.metric)
    requires forall r :: '\n' !in renderFloat(r)
    ensures '\n' !in Line(p, raw, timestampMs, renderFloat)
    ensures Before(Line(p, raw, timestampMs, renderFloat), '{') == p.metric
    ensures ParseInt(AfterLast(Line(p, raw, timestampMs, renderFloat), ' ')) == Some(timestampMs)
  {
    var value := Render(ScaleRaw(raw, p.scale), renderFloat);
    var stamp := IntToString(timestampMs);
    StampExcludes(timestampMs);
    PlainNameExcludes(p.metric);
    LabelExcludes();
    assert '\n' !in value by {
      match ScaleRaw(raw, p.scale)
      case Int(i) => StampExcludes(i);
      case Float(r) => assert '\n' !in renderFloat(r);
    }
    var head := p.metric + SensorLabel + " " + value;
    var tail := SensorLabel + " " + value + " " + stamp;
    var line := Line(p, raw, timestampMs, renderFloat);
    assert line == p.metric + tail;
    assert line == head + [' '] + stamp;
    assert '\n' !in head;
    BeforeConcat(p.metric, '{', tail);
    AfterLastConcat(head, ' ', stamp);
    IntToStringRoundTrip(timestampMs);
  }

  /**
   * The payload splits back into its lines: one per catalog id present in
   * `dps`, in catalog order, with (lines - 1) newlines and no trailing one; line
   * k names the k-th present metric and every line carries the same timestamp.
   */
  lemma PayloadReadsBack(dps: map<string, int>, timestampMs: int, renderFloat: real -> string)
    requires forall r :: '\n' !in renderFloat(r)
    requires Payload(dps, timestampMs, renderFloat).Some?
    ensures var payload := Payload(dps, timestampMs, renderFloat).value;
            var lines := Split(payload, '\n');
            && |lines| == |Present(DpsMap, dps)| == Occurrences(payload, '\n') + 1
            && |payload| > 0 && payload[|payload| - 1] != '\n'
            && (forall k :: 0 <= k < |lines| ==>
                  && Before(lines[k], '{') == Present(DpsMap, dps)[k].metric
                  && ParseInt(AfterLast(lines[k], ' ')) == Some(timestampMs))
  {
    var lines := Lines(DpsMap, dps, timestampMs, renderFloat);
    var present := Present(DpsMap, dps);
    DpsMapWellFormed();
    LinesFollowPresent(DpsMap, dps, timestampMs, renderFloat);
    forall k | 0 <= k < |lines|
      ensures '\n' !in lines[k]
      ensures Before(lines[k], '{') == present[k].metric
      ensures ParseInt(AfterLast(lines[k], ' ')) == Some(timestampMs)
    {
      var i :| 0 <= i < |DpsMap| && DpsMap[i] == present[k];
      LineFields(present[k], dps[present[k].id], timestampMs, renderFloat);
    }
    SplitJoin(lines, '\n');
    JoinSeparators(lines, '\n');
    var last := lines[|lines| - 1];
    assert last[|last| - 1] != '\n';
  }

  // ---------------------------------------------------------------------------
  // One cycle and the collection loop

  /** What one cycle of the loop did. */
  datatype CycleOutcome =
    | Skipped                                  // no reading, or an empty one
    | NothingToWrite                           // a reading with no catalog id: no POST
    | Posted(payload: string, stored: bool)    // POSTed; stored iff the store answered 204
    | Crashed(message: string)                 // an exception escaped the cycle

  /** The outcome of `collect_once` for a sensor call, clock value and store reply. */
  function CycleResult(call: StatusCall, timestampMs: int, renderFloat: real -> string,
                       reply: PostReply): (o: CycleOutcome)
    ensures !o.Crashed?
    ensures o.Skipped? <==> GetSensorReading(call).None? || GetSensorReading(call).value == map[]
    ensures o.NothingToWrite? <==>
              && GetSensorReading(call).Some? && GetSensorReading(call).value != map[]
              && NoKnownId(DpsMap, GetSensorReading(call).value)
    ensures o.Posted? ==>
              && GetSensorReading(call).Some?
              && Payload(GetSensorReading(call).value, timestampMs, renderFloat) == Some(o.payload)
              && (o.stored <==> reply == Answered(204))
  {
    var reading := GetSensorReading(call);
    if reading.None? || reading.value == map[] then Skipped
    else
      match Payload(reading.value, timestampMs, renderFloat)
      case None => NothingToWrite
      case Some(body) => Posted(body, reply == Answered(204))
  }

  /**
   * `collect_once`: a write is attempted only for a non-empty reading; the
   * POST happens only when some catalog id is present.
   */
  method CollectOnce(call: StatusCall, timestampMs: int, renderFloat: real -> string, reply: PostReply)
    returns (outcome: CycleOutcome)
    ensures outcome == CycleResult(call, timestampMs, renderFloat, reply)
    ensures outcome.Posted? ==> call.Returned? && call.status.error.None? && call.status.dps.Some?
    ensures outcome.Posted? ==> (outcome.stored <==> reply == Answered(204))
  {
    var dps := GetSensorReading(call);
    if dps.None? || dps.value == map[] {
      return Skipped;
    }
    var ok, posted := WriteToVictoria(dps.value, timestampMs, renderFloat, reply);
    if posted.None? {
      return NothingToWrite;
    }
    outcome := Posted(posted.value, ok);
  }

  /** What happens in one iteration of the loop, and how long `collect_once` took. */
  datatype CycleInput =
    | Runs(call: StatusCall, timestampMs: int, reply: PostReply)
    | Raises(message: string)    // an exception escaped `collect_once`
  datatype Cycle = Cycle(input: CycleInput, duration: nat)

  function Outcome(input: CycleInput, renderFloat: real -> string): CycleOutcome {
    match input
    case Raises(m) => Crashed(m)
    case Runs(call, ts, reply) => CycleResult(call, ts, renderFloat, reply)
  }

  /** The outcomes of some cycles, in order. */
  function Outcomes(cycles: seq<Cycle>, renderFloat: real -> string): seq<CycleOutcome> {
    if cycles == [] then []
    else Outcomes(cycles[..|cycles| - 1], renderFloat) + [Outcome(cycles[|cycles| - 1].input, renderFloat)]
  }

  /** Outcome k is the outcome of cycle k: no cycle affects another's outcome. */
  lemma {:induction false} OutcomesPointwise(cycles: seq<Cycle>, renderFloat: real -> string)
    ensures |Outcomes(cycles, renderFloat)| == |cycles|
    ensures forall k :: 0 <= k < |cycles| ==> Outcomes(cycles, renderFloat)[k] == Outcome(cycles[k].input, renderFloat)
  {
    if cycles != [] {
      OutcomesPointwise(cycles[..|cycles| - 1], renderFloat);
    }
  }

  /** Total time spent inside `collect_once` over some cycles. */
  function Busy(cycles: seq<Cycle>): nat {
    if cycles == [] then 0 else Busy(cycles[..|cycles| - 1]) + cycles[|cycles| - 1].duration
  }

  /** Time from the start of the first cycle to the start of cycle k: k cycles and k sleeps. */
  function Offset(cycles: seq<Cycle>, k: nat): nat
    requires k <= |cycles|
  {
    if k == 0 then 0 else Offset(cycles, k - 1) + cycles[k - 1].duration + Interval
  }

  /** That offset is the busy time of the first k cycles plus one sleep per cycle. */
  lemma {:induction false} OffsetIsBusyPlusSleeps(cycles: seq<Cycle>, k: nat)
    requires k <= |cycles|
    ensures Offset(cycles, k) == k * Interval + Busy(cycles[..k])
  {
    if k > 0 {
      OffsetIsBusyPlusSleeps(cycles, k - 1);
      assert cycles[..k][..k - 1] == cycles[..k - 1];
      assert k * Interval == (k - 1) * Interval + Interval;
    }
  }

  /**
   * `main` over a finite prefix of its endless loop: every cycle runs, an
   * exception in one cycle is recorded and the next cycle runs anyway, and each
   * cycle starts `Interval` seconds after the previous one ENDED.
   */
  method RunCollector(cycles: seq<Cycle>, start: int, renderFloat: real -> string)
    returns (outcomes: seq<CycleOutcome>, starts: seq<int>, clock: int)
    ensures |outcomes| == |cycles| && |starts| == |cycles|
    ensures forall k :: 0 <= k < |cycles| ==> outcomes[k] == Outcome(cycles[k].input, renderFloat)
    ensures forall k :: 0 <= k < |cycles| ==> starts[k] == start + k * Interval + Busy(cycles[..k])
    ensures forall k :: 0 <= k < |cycles| - 1 ==>
              starts[k + 1] == starts[k] + cycles[k].duration + Interval
    ensures clock == start + |cycles| * Interval + Busy(cycles)
  {
    outcomes, starts, clock := [], [], start;
    var i := 0;
    while i < |cycles|
      invariant 0 <= i <= |cycles|
      invariant |outcomes| == i && |starts| == i
      invariant outcomes == Outcomes(cycles[..i], renderFloat)
      invariant forall k {:trigger starts[k]} :: 0 <= k < i ==> starts[k] == start + Offset(cycles, k)
      invariant clock == start + Offset(cycles, i)
    {
      starts := starts + [clock];
      var outcome := RunCycle(cycles[i].input, renderFloat);
      assert cycles[..i + 1][..i] == cycles[..i];
      outcomes := outcomes + [outcome];
      clock := clock + cycles[i].duration + Interval;
      i := i + 1;
    }
    assert cycles[..|cycles|] == cycles;
    OutcomesPointwise(cycles, renderFloat);
    OffsetIsBusyPlusSleeps(cycles, |cycles|);
    StartsFollowEnds(cycles, start, starts);
  }

  /** Start times taken at the offsets are each an interval after the previous cycle ended. */
  lemma StartsFollowEnds(cycles: seq<Cycle>, start: int, starts: seq<int>)
    requires |starts| == |cycles|
    requires forall k {:trigger starts[k]} :: 0 <= k < |cycles| ==> starts[k] == start + Offset(cycles, k)
    ensures forall k :: 0 <= k < |cycles| ==> starts[k] == start + k * Interval + Busy(cycles[..k])
    ensures forall k :: 0 <= k < |cycles| - 1 ==>
              starts[k + 1] == starts[k] + cycles[k].duration + Interval
  {
    forall k | 0 <= k < |cycles|
      ensures starts[k] == start + k * Interval + Busy(cycles[..k])
    {
      OffsetIsBusyPlusSleeps(cycles, k);
    }
  }

  /** The guarded body of `main`'s loop: `collect_once`, or the exception it raised, logged. */
  method RunCycle(input: CycleInput, renderFloat: real -> string) returns (outcome: CycleOutcome)
    ensures outcome == Outcome(input, renderFloat)
    ensures input.Raises? <==> outcome.Crashed?
  {
    match input {
      case Raises(m) =>
        outcome := Crashed(m);
      case Runs(call, ts, reply) =>
        outcome := CollectOnce(call, ts, renderFloat, reply);
    }
  }

}
