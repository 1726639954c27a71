/**
 * The Flask web service (app.py), without Flask: the current reading taken
 * straight from the sensor, the history query planner over VictoriaMetrics,
 * the history endpoint that merges one query per metric, the bulk export that
 * assembles a table of 30 days at a 5-minute step, and the export's column
 * widths.
 *
 * VictoriaMetrics is a function `store` from the request sent to the reply
 * received; the sensor call is a `StatusCall`; `datetime` formatting and
 * `str(float)` are the functions `timeText`, `stampText` and `floatText`.
 */
module App {
  import opened Common

  /** One catalog entry: data-point id, column name, display title, unit, scale. */
  datatype Column = Column(id: string, column: string, title: string, unit: string, scale: Scale)

  /** The data-point catalog, in its iteration order. */
  const DpsMap: seq<Column> := [
    Column("8", "temperature", "Temperature", "°C", FloatScale(0.1)),
    Column("106", "ph", "pH", "", FloatScale(0.01)),
    Column("111", "tds", "TDS", "ppm", IntScale(1)),
    Column("116", "ec", "EC (Conductivity)", "µS/cm", IntScale(1)),
    Column("121", "salinity", "Salinity", "ppm", IntScale(1)),
    Column("126", "sg", "Specific Gravity", "", FloatScale(0.001)),
    Column("131", "orp", "ORP", "mV", IntScale(1))
  ]

  /** A column name and the VictoriaMetrics metric stored under it. */
  datatype Metric = Metric(column: string, name: string)

  /** The metric catalog, in its iteration order. */
  const VmMetrics: seq<Metric> := [
    Metric("temperature", "aquarium_temperature_celsius"),
    Metric("ph", "aquarium_ph"),
    Metric("tds", "aquarium_tds_ppm"),
    Metric("ec", "aquarium_ec_uscm"),
    Metric("salinity", "aquarium_salinity_ppm"),
    Metric("sg", "aquarium_specific_gravity"),
    Metric("orp", "aquarium_orp_mv")
  ]

  predicate DistinctColumns(cat: seq<Column>) {
    forall i, j :: 0 <= i < j < |cat| ==> cat[i].column != cat[j].column
  }

  predicate DistinctMetricColumns(ms: seq<Metric>) {
    forall i, j :: 0 <= i < j < |ms| ==> ms[i].column != ms[j].column
  }

  lemma CatalogsDistinct()
    ensures DistinctColumns(DpsMap) && DistinctMetricColumns(VmMetrics)
  {
  }

  // ---------------------------------------------------------------------------
  // The current reading

  /** The status's "dps" mapping, `{}` when it is absent. */
  function DpsOf(status: DeviceStatus): map<string, int> {
    if status.dps.Some? then status.dps.value else map[]
  }

  /**
   * `get_sensor_reading`: exactly one of (reading, error) is present. The
   * error is the "Error" entry or the exception's message; the reading maps the
   * column of every catalog id present in "dps" to raw * scale, and has no
   * other key.
   */
  method GetSensorReading(call: StatusCall)
    returns (reading: Option<map<string, Number>>, error: Option<string>)
    ensures reading.Some? <==> error.None?
    ensures call.Raised? ==> error == Some(call.message)
    ensures call.Returned? ==> error == call.status.error
    ensures reading.Some? ==>
              reading.value.Keys == set c | c in DpsMap && c.id in DpsOf(call.status) :: c.column
    ensures reading.Some? ==>
              forall c :: c in DpsMap && c.id in DpsOf(call.status) ==>
                reading.value[c.column] == ScaleRaw(DpsOf(call.status)[c.id], c.scale)
  {
    match call {
      case Raised(message) =>
        return None, Some(message);
      case Returned(status) =>
        if status.error.Some? {
          return None, status.error;
        }
        CatalogsDistinct();
        var r := ReadColumns(DpsMap, DpsOf(status));
        return Some(r), None;
    }
  }

  /**
   * The loop of `get_sensor_reading` over a catalog with distinct columns:
   * every catalog id present in `dps` puts raw * scale under its column.
   */
  method ReadColumns(cat: seq<Column>, dps: map<string, int>) returns (r: map<string, Number>)
    requires DistinctColumns(cat)
    ensures r.Keys == set c | c in cat && c.id in dps :: c.column
    ensures forall c :: c in cat && c.id in dps ==> r[c.column] == ScaleRaw(dps[c.id], c.scale)
  {
    r := map[];
    for i := 0 to |cat|
      invariant r.Keys == set c | c in cat[..i] && c.id in dps :: c.column
      invariant forall k :: 0 <= k < i && cat[k].id in dps ==>
                  r[cat[k].column] == ScaleRaw(dps[cat[k].id], cat[k].scale)
    {
      var c := cat[i];
      assert cat[..i + 1] == cat[..i] + [c];
      if c.id in dps {
        r := r[c.column := ScaleRaw(dps[c.id], c.scale)];
      }
    }
    assert cat[..|cat|] == cat;
  }

  /** The body of `/api/current`: the error text, or the reading (null when absent). */
  datatype CurrentBody = ErrorBody(message: string) | ReadingBody(reading: Option<map<string, Number>>)

  /**
   * `/api/current`: 500 with the error exactly when the error text is
   * non-empty (Python's `if error:`); otherwise 200 with the reading, which is
   * null only when the device failed with an empty message.
   */
  method ApiCurrent(call: StatusCall) returns (code: int, body: CurrentBody)
    ensures code == 500 || code == 200
    ensures code == 500 <==> ((call.Raised? && call.message != "")
                           || (call.Returned? && call.status.error.Some? && call.status.error.value != ""))
    ensures code == 500 ==> body.ErrorBody? && body.message != ""
    ensures code == 200 ==> body.ReadingBody?
    ensures code == 200 && body.reading.None? ==>
              (call.Raised? && call.message == "") || (call.Returned? && call.status.error == Some(""))
  {
    var reading, error := GetSensorReading(call);
    if error.Some? && error.value != "" {
      return 500, ErrorBody(error.value);
    }
    return 200, ReadingBody(reading);
  }

  // ---------------------------------------------------------------------------
  // The query planner

  /** The step `query_victoria` asks for, given the look-back in hours. */
  function StepFor(hours: int): (step: string)
    ensures StepMinutes(step) >= 1
    ensures hours <= 24 ==> StepMinutes(step) <= 5
    ensures hours > 168 ==> step == "1h"
  {
    if hours <= 6 then "1m"
    else if hours <= 24 then "5m"
    else if hours <= 168 then "15m"
    else "1h"
  }

  /** A step's length in minutes. */
  function StepMinutes(step: string): nat {
    if step == "1m" then 1
    else if step == "5m" then 5
    else if step == "15m" then 15
    else if step == "1h" then 60
    else 0
  }

  /** A longer look-back never gets a finer step. */
  lemma StepNeverFinerForLongerWindows(h1: int, h2: int)
    requires h1 <= h2
    ensures 1 <= StepMinutes(StepFor(h1)) <= StepMinutes(StepFor(h2))
  {
  }

  /** Up to a week of look-back, a query spans at most 672 steps. */
  lemma StepPointBound(hours: int)
    requires 0 < hours <= 168
    ensures hours * 60 <= 672 * StepMinutes(StepFor(hours))
  {
  }

  /** One `[timestamp, value]` pair of a series; `value` is None when `float()` rejects its text. */
  datatype Sample = Sample(ts: int, value: Option<real>)

  /** A request to VictoriaMetrics: an instant query, or a range query with `start=-{hours}h`. */
  datatype Request = Instant(query: string) | Range(query: string, hours: int, step: string)

  /**
   * What came back: the request raised, the body was not JSON, or a JSON
   * object with its status ("success" or not) and its list of result series.
   */
  datatype Reply = NetworkError | BadBody | Json(success: bool, result: seq<seq<Sample>>)

  /** Two aligned lists: formatted timestamps and values. */
  datatype Series = Series(timestamps: seq<string>, values: seq<real>)

  /** The first result series of a successful reply with a non-empty result. */
  function FirstSeries(r: Reply): Option<seq<Sample>> {
    if r.Json? && r.success && r.result != [] then Some(r.result[0]) else None
  }

  predicate Parses(samples: seq<Sample>) {
    forall k :: 0 <= k < |samples| ==> samples[k].value.Some?
  }

  /**
   * `query_victoria`: the step comes from the look-back; the two lists are
   * read from the first series only, element by element; any failure (no
   * reply, no JSON, status not "success", empty result, an unparsable value)
   * gives two empty lists.
   */
  function QueryVictoria(metric: string, hours: int, store: Request -> Reply,
                         timeText: int -> string): (s: Series)
    ensures |s.timestamps| == |s.values|
    ensures var first := FirstSeries(store(Range(metric, hours, StepFor(hours))));
            if first.Some? && Parses(first.value) then
              && |s.values| == |first.value|
              && (forall k :: 0 <= k < |s.values| ==>
                    s.timestamps[k] == timeText(first.value[k].ts) && s.values[k] == first.value[k].value.value)
            else s == Series([], [])
  {
    var first := FirstSeries(store(Range(metric, hours, StepFor(hours))));
    if first.Some? && Parses(first.value) then
      var samples := first.value;
      Series(seq(|samples|, k requires 0 <= k < |samples| => timeText(samples[k].ts)), Values(samples))
    else Series([], [])
  }

  /** Only the first series matters: replies that agree on it give the same lists. */
  lemma QueryUsesFirstSeriesOnly(metric: string, hours: int, s1: Request -> Reply,
                                 s2: Request -> Reply, timeText: int -> string)
    requires FirstSeries(s1(Range(metric, hours, StepFor(hours))))
          == FirstSeries(s2(Range(metric, hours, StepFor(hours))))
    ensures QueryVictoria(metric, hours, s1, timeText) == QueryVictoria(metric, hours, s2, timeText)
  {
  }

  // ---------------------------------------------------------------------------
  // /api/history

  /** `request.args.get("hours", 24, type=int)`: 24 when absent or not an integer. */
  function HoursArg(arg: Option<int>): (hours: int)
    ensures arg.None? ==> hours == 24
    ensures arg.Some? ==> hours == arg.value
  {
    if arg.Some? then arg.value else 24
  }

  /** The first non-empty list of a sequence of lists, `[]` when there is none. */
  function FirstNonEmpty<T>(lists: seq<seq<T>>): seq<T> {
    if lists == [] then []
    else
      var before := FirstNonEmpty(lists[..|lists| - 1]);
      if before != [] then before else lists[|lists| - 1]
  }

  /**
   * `FirstNonEmpty` is the earliest non-empty list: empty when all are, and
   * list j when j is the first non-empty one (later lists never replace it).
   */
  lemma {:induction false} FirstNonEmptyIsEarliest<T>(lists: seq<seq<T>>)
    ensures (forall k :: 0 <= k < |lists| ==> lists[k] == []) ==> FirstNonEmpty(lists) == []
    ensures forall j :: 0 <= j < |lists| && lists[j] != [] && (forall i :: 0 <= i < j ==> lists[i] == [])
              ==> FirstNonEmpty(lists) == lists[j]
  {
    if lists != [] {
      var init := lists[..|lists| - 1];
      FirstNonEmptyIsEarliest(init);
      forall j | 0 <= j < |lists| && lists[j] != [] && (forall i :: 0 <= i < j ==> lists[i] == [])
        ensures FirstNonEmpty(lists) == lists[j]
      {
        if j < |init| {
          assert init[j] == lists[j];
        } else {
          assert forall k :: 0 <= k < |init| ==> init[k] == [];
        }
      }
    }
  }

  /** Extending the lists by one keeps an earlier non-empty list, else takes the new one. */
  lemma FirstNonEmptyStep<T>(lists: seq<seq<T>>, i: nat)
    requires i < |lists|
    ensures FirstNonEmpty(lists[..i + 1]) ==
            (if FirstNonEmpty(lists[..i]) != [] then FirstNonEmpty(lists[..i]) else lists[i])
  {
    assert lists[..i + 1][..i] == lists[..i];
  }

  /** The history response: the shared timestamps and one value list per column. */
  datatype History = History(timestamps: seq<string>, columns: map<string, seq<real>>)

  /** One `query_victoria` per metric, in the order given. */
  function HistoryQueries(ms: seq<Metric>, hours: int, store: Request -> Reply,
                          timeText: int -> string): (qs: seq<Series>)
    ensures |qs| == |ms|
  {
    seq(|ms|, k requires 0 <= k < |ms| => QueryVictoria(ms[k].name, hours, store, timeText))
  }

  function TimestampLists(qs: seq<Series>): (ts: seq<seq<string>>)
    ensures |ts| == |qs|
  {
    seq(|qs|, k requires 0 <= k < |qs| => qs[k].timestamps)
  }

  /** The column names of a metric list. */
  function ColumnsOf(ms: seq<Metric>): set<string> {
    set m | m in ms :: m.column
  }

  /**
   * The loop of `api_history` over a metric list with distinct columns: every
   * column holds its own metric's values (possibly empty); the timestamps are
   * those of the first metric, in list order, whose query returned any.
   */
  method AssembleHistory(ms: seq<Metric>, hours: int, store: Request -> Reply, timeText: int -> string)
    returns (h: History)
    requires DistinctMetricColumns(ms)
    ensures h.columns.Keys == ColumnsOf(ms)
    ensures forall k :: 0 <= k < |ms| ==> h.columns[ms[k].column] == HistoryQueries(ms, hours, store, timeText)[k].values
    ensures h.timestamps == FirstNonEmpty(TimestampLists(HistoryQueries(ms, hours, store, timeText)))
  {
    ghost var queries := HistoryQueries(ms, hours, store, timeText);
    ghost var stamps := TimestampLists(queries);
    // the dictionary literal: every column starts as an empty list
    h := History([], map c | c in ColumnsOf(ms) :: []);
    for i := 0 to |ms|
      invariant h.columns.Keys == ColumnsOf(ms)
      invariant forall k :: 0 <= k < i ==> h.columns[ms[k].column] == queries[k].values
      invariant h.timestamps == FirstNonEmpty(stamps[..i])
    {
      var m := ms[i];
      var data := QueryVictoria(m.name, hours, store, timeText);
      assert data == queries[i] && data.timestamps == stamps[i];
      assert m.column in ColumnsOf(ms);
      assert forall k :: 0 <= k < i ==> ms[k].column != m.column;
      FirstNonEmptyStep(stamps, i);
      if data.timestamps != [] && h.timestamps == [] {
        h := h.(timestamps := data.timestamps);
      }
      h := h.(columns := h.columns[m.column := data.values]);
    }
    assert stamps[..|ms|] == stamps;
  }

  /** `/api/history`: the loop over the catalog, with `hours` defaulting to 24. */
  method ApiHistory(hoursArg: Option<int>, store: Request -> Reply, timeText: int -> string)
    returns (h: History)
    ensures h.columns.Keys == ColumnsOf(VmMetrics)
    ensures forall k :: 0 <= k < |VmMetrics| ==>
              h.columns[VmMetrics[k].column] == HistoryQueries(VmMetrics, HoursArg(hoursArg), store, timeText)[k].values
    ensures h.timestamps == FirstNonEmpty(TimestampLists(HistoryQueries(VmMetrics, HoursArg(hoursArg), store, timeText)))
  {
    CatalogsDistinct();
    h := AssembleHistory(VmMetrics, HoursArg(hoursArg), store, timeText);
  }

  // ---------------------------------------------------------------------------
  // Bulk export

  /** The export queries 30 days of every metric at a 5-minute step. */
  const ExportHours: int := 30 * 24
  const ExportStep: string := "5m"
  /** The instant query sent first; its answer is not used. */
  const ProbeMetric: string := "aquarium_temperature_celsius"

  /** The exported table: the timestamp column and the metric columns, in catalog order. */
  datatype Export = EmptyFrame | Frame(timestamps: seq<int>, columns: seq<(string, seq<real>)>)

  function ExportReply(store: Request -> Reply, m: Metric): Reply {
    store(Range(m.name, ExportHours, ExportStep))
  }

  /** The reply gets a column (`status == "success"` and a non-empty result). */
  predicate Succeeds(r: Reply) {
    r.Json? && r.success && r.result != []
  }

  /** Handling the reply raises inside the export's `try`. */
  predicate RaisesInExport(r: Reply) {
    r.NetworkError? || r.BadBody? || (Succeeds(r) && !Parses(r.result[0]))
  }

  function Values(samples: seq<Sample>): (vs: seq<real>)
    requires Parses(samples)
    ensures |vs| == |samples|
    ensures forall k :: 0 <= k < |samples| ==> vs[k] == samples[k].value.value
  {
    seq(|samples|, k requires 0 <= k < |samples| => samples[k].value.value)
  }

  function Stamps(samples: seq<Sample>): (ts: seq<int>)
    ensures |ts| == |samples|
  {
    seq(|samples|, k requires 0 <= k < |samples| => samples[k].ts)
  }

  /** The columns `all_data` collects: one per successful metric, in catalog order. */
  function SuccessfulColumns(ms: seq<Metric>, store: Request -> Reply): (cols: seq<(string, seq<real>)>)
    requires forall m :: m in ms ==> !RaisesInExport(ExportReply(store, m))
    ensures |cols| <= |ms|
  {
    if ms == [] then []
    else
      var last := ms[|ms| - 1];
      assert last in ms;
      var r := ExportReply(store, last);
      assert !RaisesInExport(r);
      SuccessfulColumns(ms[..|ms| - 1], store)
        + (if Succeeds(r) then [(last.column, Values(r.result[0]))] else [])
  }

  /** The `timestamps` variable: set once, by the first successful metric. */
  function FirstStamps(ms: seq<Metric>, store: Request -> Reply): (stamps: Option<seq<int>>)
    ensures stamps.None? <==> forall k :: 0 <= k < |ms| ==> !Succeeds(ExportReply(store, ms[k]))
  {
    if ms == [] then None
    else
      var before := FirstStamps(ms[..|ms| - 1], store);
      var r := ExportReply(store, ms[|ms| - 1]);
      if before.None? && Succeeds(r) then Some(Stamps(r.result[0])) else before
  }

  /**
   * `get_all_readings_from_vm`, as a value: empty when the probe or any
   * metric query raises, when no timestamps were set (or the first successful
   * series was empty), or when a column's length differs from the timestamps'
   * (the DataFrame constructor raises then).
   */
  function ExportOf(store: Request -> Reply): (e: Export)
    ensures store(Instant(ProbeMetric)).NetworkError? ==> e.EmptyFrame?
    ensures (forall m :: m in VmMetrics ==> !Succeeds(ExportReply(store, m))) ==> e.EmptyFrame?
    ensures e.Frame? ==> e.timestamps != [] && forall k :: 0 <= k < |e.columns| ==> |e.columns[k].1| == |e.timestamps|
  {
    if store(Instant(ProbeMetric)).NetworkError? then EmptyFrame
    else if exists m :: m in VmMetrics && RaisesInExport(ExportReply(store, m)) then EmptyFrame
    else
      var stamps := FirstStamps(VmMetrics, store);
      var columns := SuccessfulColumns(VmMetrics, store);
      if stamps.None? || stamps.value == [] then EmptyFrame
      else if exists k :: 0 <= k < |columns| && |columns[k].1| != |stamps.value| then EmptyFrame
      else Frame(stamps.value, columns)
  }

  /** The loop of `get_all_readings_from_vm`, updating `all_data` and `timestamps`. */
  method GetAllReadingsFromVm(store: Request -> Reply) returns (e: Export)
    ensures e == ExportOf(store)
    ensures e.Frame? ==> e.timestamps != [] && forall k :: 0 <= k < |e.columns| ==>
              |e.columns[k].1| == |e.timestamps|
  {
    if store(Instant(ProbeMetric)).NetworkError? {
      return EmptyFrame;
    }
    var allData: seq<(string, seq<real>)> := [];
    var timestamps: Option<seq<int>> := None;
    for i := 0 to |VmMetrics|
      invariant forall m :: m in VmMetrics[..i] ==> !RaisesInExport(ExportReply(store, m))
      invariant allData == SuccessfulColumns(VmMetrics[..i], store)
      invariant timestamps == FirstStamps(VmMetrics[..i], store)
    {
      var m := VmMetrics[i];
      var data := ExportReply(store, m);
      if RaisesInExport(data) {
        assert m in VmMetrics;
        return EmptyFrame;
      }
      assert VmMetrics[..i + 1] == VmMetrics[..i] + [m];
      assert VmMetrics[..i + 1][..i] == VmMetrics[..i];
      if Succeeds(data) {
        var values := data.result[0];
        if timestamps.None? {
          timestamps := Some(Stamps(values));
        }
        allData := allData + [(m.column, Values(values))];
      }
    }
    assert VmMetrics[..|VmMetrics|] == VmMetrics;
    if timestamps.None? || timestamps.value == [] {
      return EmptyFrame;
    }
    if exists k :: 0 <= k < |allData| && |allData[k].1| != |timestamps.value| {
      return EmptyFrame;
    }
    return Frame(timestamps.value, allData);
  }

  /** The values of the named column, if the table has one. */
  function ColumnOf(columns: seq<(string, seq<real>)>, name: string): Option<seq<real>> {
    if columns == [] then None
    else if columns[|columns| - 1].0 == name then Some(columns[|columns| - 1].1)
    else ColumnOf(columns[..|columns| - 1], name)
  }

  /**
   * A metric gets a column exactly when its query succeeded with a non-empty
   * result, and that column holds the values of its first series.
   */
  lemma {:induction false} SuccessfulColumnsHoldSuccesses(ms: seq<Metric>, store: Request -> Reply, m: Metric)
    requires forall x :: x in ms ==> !RaisesInExport(ExportReply(store, x))
    requires DistinctMetricColumns(ms)
    requires m in ms
    ensures ColumnOf(SuccessfulColumns(ms, store), m.column)
              == if Succeeds(ExportReply(store, m)) then Some(Values(ExportReply(store, m).result[0])) else None
  {
    var init := ms[..|ms| - 1];
    var last := ms[|ms| - 1];
    assert forall x :: x in init ==> x in ms;
    if m == last {
      forall x | x in init ensures x.column != m.column {
        var i :| 0 <= i < |init| && init[i] == x;
        assert ms[i] == x;
      }
      NoColumnForOthers(init, store, m.column);
      var cols := SuccessfulColumns(init, store);
      if Succeeds(ExportReply(store, m)) {
        var full := cols + [(m.column, Values(ExportReply(store, m).result[0]))];
        assert full[|full| - 1].0 == m.column;
      } else {
        assert SuccessfulColumns(ms, store) == cols;
      }
    } else {
      var i :| 0 <= i < |ms| && ms[i] == m;
      assert i < |init| && init[i] == m;
      assert m.column != last.column;
      SuccessfulColumnsHoldSuccesses(init, store, m);
      var cols := SuccessfulColumns(init, store);
      if Succeeds(ExportReply(store, last)) {
        var full := cols + [(last.column, Values(ExportReply(store, last).result[0]))];
        assert SuccessfulColumns(ms, store) == full;
        assert full[..|full| - 1] == cols;
        assert ColumnOf(full, m.column) == ColumnOf(cols, m.column);
      } else {
        assert SuccessfulColumns(ms, store) == cols;
      }
    }
  }

  lemma {:induction false} NoColumnForOthers(ms: seq<Metric>, store: Request -> Reply, name: string)
    requires forall x :: x in ms ==> !RaisesInExport(ExportReply(store, x))
    requires forall x :: x in ms ==> x.column != name
    ensures ColumnOf(SuccessfulColumns(ms, store), name) == None
  {
    if ms != [] {
      var init := ms[..|ms| - 1];
      var last := ms[|ms| - 1];
      assert forall x :: x in init ==> x in ms;
      assert last in ms;
      NoColumnForOthers(init, store, name);
      var cols := SuccessfulColumns(init, store);
      if Succeeds(ExportReply(store, last)) {
        var full := cols + [(last.column, Values(ExportReply(store, last).result[0]))];
        assert SuccessfulColumns(ms, store) == full;
        assert full[..|full| - 1] == cols;
        assert ColumnOf(full, name) == ColumnOf(cols, name);
      } else {
        assert SuccessfulColumns(ms, store) == cols;
      }
    }
  }

  /** The timestamps come from the first successful metric, in catalog order, and no later one. */
  lemma {:induction false} FirstStampsIsEarliest(ms: seq<Metric>, store: Request -> Reply)
    ensures (forall k :: 0 <= k < |ms| ==> !Succeeds(ExportReply(store, ms[k]))) ==> FirstStamps(ms, store) == None
    ensures forall j :: 0 <= j < |ms| && Succeeds(ExportReply(store, ms[j]))
                        && (forall i :: 0 <= i < j ==> !Succeeds(ExportReply(store, ms[i])))
              ==> FirstStamps(ms, store) == Some(Stamps(ExportReply(store, ms[j]).result[0]))
  {
    if ms != [] {
      var init := ms[..|ms| - 1];
      FirstStampsIsEarliest(init, store);
      forall j | 0 <= j < |ms| && Succeeds(ExportReply(store, ms[j]))
                 && (forall i :: 0 <= i < j ==> !Succeeds(ExportReply(store, ms[i])))
        ensures FirstStamps(ms, store) == Some(Stamps(ExportReply(store, ms[j]).result[0]))
      {
        if j < |init| {
          assert init[j] == ms[j];
        } else {
          assert forall k :: 0 <= k < |init| ==> init[k] == ms[k];
        }
      }
    }
  }

  /**
   * The export reads nothing but the probe's failure and the 720-hour,
   * 5-minute range query of each catalog metric.
   */
  lemma ExportReadsOnlyItsQueries(s1: Request -> Reply, s2: Request -> Reply)
    requires s1(Instant(ProbeMetric)).NetworkError? == s2(Instant(ProbeMetric)).NetworkError?
    requires forall m :: m in VmMetrics ==> ExportReply(s1, m) == ExportReply(s2, m)
    ensures ExportOf(s1) == ExportOf(s2)
  {
    if forall m :: m in VmMetrics ==> !RaisesInExport(ExportReply(s1, m)) {
      SameQueriesSameColumns(VmMetrics, s1, s2);
    }
  }

  lemma {:induction false} SameQueriesSameColumns(ms: seq<Metric>, s1: Request -> Reply, s2: Request -> Reply)
    requires forall m :: m in ms ==> ExportReply(s1, m) == ExportReply(s2, m)
    requires forall m :: m in ms ==> !RaisesInExport(ExportReply(s1, m))
    ensures SuccessfulColumns(ms, s1) == SuccessfulColumns(ms, s2)
    ensures FirstStamps(ms, s1) == FirstStamps(ms, s2)
  {
    if ms != [] {
      var init := ms[..|ms| - 1];
      assert forall x :: x in init ==> x in ms;
      SameQueriesSameColumns(init, s1, s2);
    }
  }

  // ---------------------------------------------------------------------------
  // /export/excel

  /** The spreadsheet header of each DataFrame column. */
  function Header(name: string): (h: string)
    ensures |h| >= |name|
  {
    if name == "timestamp" then "Timestamp"
    else if name == "temperature" then "Temperature (°C)"
    else if name == "ph" then "pH"
    else if name == "tds" then "TDS (ppm)"
    else if name == "ec" then "EC (µS/cm)"
    else if name == "salinity" then "Salinity (ppm)"
    else if name == "sg" then "Specific Gravity"
    else if name == "orp" then "ORP (mV)"
    else name
  }

  /** The headers of the catalog columns, in catalog order. */
  const CatalogHeaders: seq<string> := [
    "Temperature (°C)", "pH", "TDS (ppm)", "EC (µS/cm)", "Salinity (ppm)", "Specific Gravity", "ORP (mV)"
  ]

  /** The timestamp column and every catalog column are renamed. */
  lemma CatalogColumnsRenamed()
    ensures Header("timestamp") != "timestamp"
    ensures forall k :: 0 <= k < |VmMetrics| ==> Header(VmMetrics[k].column) != VmMetrics[k].column
  {
    CatalogHeadersAre();
    assert Header("timestamp")[0] != "timestamp"[0];
    assert CatalogHeaders[1][1] != VmMetrics[1].column[1];
  }

  /** No catalog column gets the timestamp's header. */
  lemma TimestampHeaderUnique()
    ensures forall k :: 0 <= k < |VmMetrics| ==> Header(VmMetrics[k].column) != Header("timestamp")
  {
    CatalogHeadersAre();
    assert Header("timestamp") == "Timestamp";
    assert forall k :: 0 <= k < |CatalogHeaders| ==> CatalogHeaders[k] != "Timestamp";
  }

  /** Renaming keeps the catalog columns' headers distinct. */
  lemma HeadersDistinct()
    ensures forall i, j :: 0 <= i < j < |VmMetrics| ==> Header(VmMetrics[i].column) != Header(VmMetrics[j].column)
  {
    CatalogHeadersAre();
    var hs := CatalogHeaders;
    assert |hs[0]| == 16 && |hs[1]| == 2 && |hs[2]| == 9 && |hs[3]| == 10;
    assert |hs[4]| == 14 && |hs[5]| == 16 && |hs[6]| == 8;
    assert hs[0][0] != hs[5][0];
  }

  lemma CatalogHeadersAre()
    ensures forall k :: 0 <= k < |VmMetrics| ==> Header(VmMetrics[k].column) == CatalogHeaders[k]
  {
    assert Header("temperature") == CatalogHeaders[0];
    assert Header("ph") == CatalogHeaders[1];
    assert Header("tds") == CatalogHeaders[2];
    assert Header("ec") == CatalogHeaders[3];
    assert Header("salinity") == CatalogHeaders[4];
    assert Header("sg") == CatalogHeaders[5];
    assert Header("orp") == CatalogHeaders[6];
  }

  /** Any other column keeps its name. */
  lemma HeaderKeepsOtherNames(name: string)
    requires name != "timestamp"
    requires forall k :: 0 <= k < |VmMetrics| ==> VmMetrics[k].column != name
    ensures Header(name) == name
  {
    assert name != VmMetrics[0].column && name != VmMetrics[1].column && name != VmMetrics[2].column;
    assert name != VmMetrics[3].column && name != VmMetrics[4].column;
    assert name != VmMetrics[5].column && name != VmMetrics[6].column;
  }

  /** The longest text's length (`.map(len).max()`). */
  function MaxLen(cells: seq<string>): (n: nat)
    ensures forall k :: 0 <= k < |cells| ==> |cells[k]| <= n
    ensures cells == [] ==> n == 0
    ensures cells != [] ==> exists k :: 0 <= k < |cells| && |cells[k]| == n
  {
    if cells == [] then 0
    else
      var rest := MaxLen(cells[..|cells| - 1]);
      var last := |cells[|cells| - 1]|;
      if last >= rest then last else rest
  }

  /** `min(max(longest cell, header length) + 2, 25)`. */
  function ColumnWidth(header: string, cells: seq<string>): (w: int)
    ensures 2 <= w <= 25
  {
    var longest := if MaxLen(cells) >= |header| then MaxLen(cells) else |header|;
    if longest + 2 <= 25 then longest + 2 else 25
  }

  /**
   * A column is exactly as wide as its header and its longest cell plus two
   * characters of padding, but never wider than 25: the width fits them all
   * unless it is 25, and no smaller width does.
   */
  lemma ColumnWidthIsTightestFit(header: string, cells: seq<string>, w: int)
    requires w < ColumnWidth(header, cells)
    ensures ColumnWidth(header, cells) <= 25
    ensures w < |header| + 2 || exists k :: 0 <= k < |cells| && w < |cells[k]| + 2
    ensures ColumnWidth(header, cells) < 25 ==>
              |header| + 2 <= ColumnWidth(header, cells)
              && forall k :: 0 <= k < |cells| ==> |cells[k]| + 2 <= ColumnWidth(header, cells)
  {
  }

  /** The spreadsheet columns: headers and cell texts, the timestamp column first. */
  function SheetColumns(timestamps: seq<int>, columns: seq<(string, seq<real>)>,
                        stampText: int -> string, floatText: real -> string)
    : (sheet: seq<(string, seq<string>)>)
    ensures |sheet| == |columns| + 1
    ensures sheet[0].0 == "Timestamp" && |sheet[0].1| == |timestamps|
    ensures forall j :: 0 <= j < |columns| ==>
              sheet[j + 1].0 == Header(columns[j].0) && |sheet[j + 1].1| == |columns[j].1|
  {
    [("Timestamp", seq(|timestamps|, k requires 0 <= k < |timestamps| => stampText(timestamps[k])))]
    + seq(|columns|, j requires 0 <= j < |columns| =>
        (Header(columns[j].0),
         seq(|columns[j].1|, k requires 0 <= k < |columns[j].1| => floatText(columns[j].1[k]))))
  }

  /** What `/export/excel` answers: 404, or a workbook with its column letters and widths. */
  datatype ExcelReply = NotFound | Workbook(headers: seq<string>, letters: seq<char>, widths: seq<int>)

  /**
   * The width loop of `/export/excel`: column i gets letter `chr(65 + i)`, its
   * header, and the width rule applied to its header and cell texts.
   */
  method LayOut(sheet: seq<(string, seq<string>)>)
    returns (headers: seq<string>, letters: seq<char>, widths: seq<int>)
    requires 65 + |sheet| <= 0xD800
    ensures |headers| == |letters| == |widths| == |sheet|
    ensures forall i :: 0 <= i < |sheet| ==>
              && headers[i] == sheet[i].0
              && letters[i] as int == 65 + i
              && widths[i] == ColumnWidth(sheet[i].0, sheet[i].1)
              && widths[i] <= 25
  {
    headers, letters, widths := [], [], [];
    for i := 0 to |sheet|
      invariant |headers| == |letters| == |widths| == i
      invariant forall j :: 0 <= j < i ==>
                  && headers[j] == sheet[j].0
                  && letters[j] as int == 65 + j
                  && widths[j] == ColumnWidth(sheet[j].0, sheet[j].1)
                  && widths[j] <= 25
    {
      headers := headers + [sheet[i].0];
      letters := letters + [(65 + i) as char];
      widths := widths + [ColumnWidth(sheet[i].0, sheet[i].1)];
    }
  }

  /**
   * `/export/excel`: 404 for an empty export; otherwise column i (letter
   * `chr(65 + i)`) gets the width rule applied to its header and cell texts.
   */
  method ExportExcel(store: Request -> Reply, stampText: int -> string, floatText: real -> string)
    returns (reply: ExcelReply)
    ensures reply.NotFound? <==> ExportOf(store).EmptyFrame?
    ensures reply.Workbook? ==>
              var sheet := SheetColumns(ExportOf(store).timestamps, ExportOf(store).columns, stampText, floatText);
              && |reply.headers| == |reply.letters| == |reply.widths| == |sheet|
              && forall i :: 0 <= i < |sheet| ==>
                   && reply.headers[i] == sheet[i].0
                   && reply.letters[i] as int == 65 + i
                   && reply.widths[i] == ColumnWidth(sheet[i].0, sheet[i].1)
                   && reply.widths[i] <= 25
  {
    var e := GetAllReadingsFromVm(store);
    if e.EmptyFrame? {
      return NotFound;
    }
    var sheet := SheetColumns(e.timestamps, e.columns, stampText, floatText);
    assert |sheet| <= |VmMetrics| + 1;
    var headers, letters, widths := LayOut(sheet);
    return Workbook(headers, letters, widths);
  }
}
