# Aquarium monitor: a Dafny model of its decision logic

The aquarium monitor reads an 8-in-1 water-quality sensor through the Tuya
local protocol. It stores the readings in VictoriaMetrics and shows them on a
small Flask dashboard. A setup wizard finds the sensor in the Tuya cloud
listing and fixes the local protocol version.

This project models the parts of the three programs that make decisions. It
proves what those decisions guarantee.

- **The collector** (`collector.dfy`, module `Collector`) covers:
  - the data-point catalog;
  - how a device status becomes a reading;
  - how `write_to_victoria` builds Prometheus exposition lines in catalog order and joins them with newlines;
  - that no POST is made when there are no lines;
  - that success means exactly HTTP 204;
  - what `collect_once` does with each kind of reading;
  - the endless collection loop, over any finite number of cycles.
- **The dashboard** (`app.dfy`, module `App`) covers:
  - the column catalog and the VictoriaMetrics name table;
  - the live reading and the status code of `/api/current`;
  - the step table and the first-series rule of `query_victoria`;
  - the column assembly of `/api/history`;
  - the column and timestamp rules of the bulk export, including every way it ends up empty;
  - the 404 answer of `/export/excel` and its column-width rule.
- **The setup wizard** (`setup_tuya.dfy`, module `SetupTuya`) covers:
  - the default rule of its prompts;
  - the candidate filter over the cloud listing and the fall-back to the whole listing;
  - the automatic pick of a single candidate;
  - the menu choice;
  - the manual-entry path;
  - the ordered protocol-version fall-back (3.5, then 3.4, 3.3, 3.1) with its asymmetric acceptance rules;
  - the `version or 3.5` rule for the saved setting.
- **Shared definitions:**
  - `common.dfy` (module `Common`): Python's int-versus-float scaling and the device status.
  - `text.dfy` (module `Text`): the Python string operations the programs rely on (`str(int)`, `join`, `split`, `strip`, ASCII `lower`, `in`), with their round-trip lemmas.
  - `catalogs.dfy` (module `Catalogs`): proves that the collector's catalog and the dashboard's two catalogs agree entry by entry.

**How the environment is modelled.** The outside world becomes parameters:
- The device becomes a `StatusCall`, either an exception or a status with optional "Error" and "dps" keys. The wizard's device is a function from protocol version to `StatusCall`.
- VictoriaMetrics is a function from request to reply for reads, and a `PostReply` for the write.
- The clock becomes timestamp arguments.
- Float formatting becomes a `renderFloat`/`floatText` function.
- What the user types becomes string or integer arguments.

**Scheduling.** The collector loop follows the code. The code sleeps `INTERVAL` seconds after each cycle ends, so each start is 300 s after the previous cycle's end, not after its start.

## Model

| member | source | states |
|---|---|---|
| `Common.ScaleRaw` | collector.py:80 | `raw * scale` is `raw` times the factor; it stays an integer exactly when the scale is the integer 1 |
| `Collector.DpsMapWellFormed` | collector.py:45-53 | the seven data points have distinct ids and metric names free of `{`, space and newline |
| `Collector.GetSensorReading` | collector.py:56-70 | no reading when the call raises or the status has "Error"; otherwise the "dps" mapping, `{}` when absent |
| `Collector.Line` | collector.py:82 | a line starts with the metric name, the sensor label and a space, and ends with a space and the millisecond timestamp |
| `Collector.Lines` | collector.py:78-82 | at most one line per catalog entry; no line exactly when no catalog id is a key of the reading |
| `Collector.Payload` | collector.py:84-88 | no body exactly when no catalog id is a key of the reading |
| `Collector.WriteToVictoria` | collector.py:73-100 | the POSTed body is the newline join of one line per catalog id present in the reading, in catalog order; nothing is POSTed exactly when no catalog id is present; the result is true exactly when a body was POSTed and the store answered 204 |
| `Collector.LinesFollowPresent` | collector.py:78-82 | line k is the exposition line of the k-th catalog entry whose id the reading has, with that id's raw value |
| `Collector.PresentMembers` | collector.py:79 | an entry produces a line if and only if it is in the catalog and its id is a key of the reading |
| `Collector.PresentPosition` | collector.py:78-79 | a present entry's line comes after the lines of every earlier present entry |
| `Collector.Ids` | collector.py:45-53 | the id set of a catalog holds exactly the ids of its entries |
| `Collector.PresentCount` | collector.py:78-82 | with distinct ids, the number of lines is the number of catalog ids among the reading's keys |
| `Collector.AddOneCount` | collector.py:78-79 | adding one new id raises the count of known ids among the keys by one exactly when the id is a key |
| `Collector.LinesIgnoreUnknownIds` | collector.py:78-80 | keys of the reading outside the catalog never change the lines |
| `Collector.PlainNameExcludes` | collector.py:82 | a plain metric name contains no `{`, space or newline |
| `Collector.StampExcludes` | collector.py:82 | a rendered timestamp contains no space or newline |
| `Collector.LabelExcludes` | collector.py:82 | the label has no newline and starts with `{` |
| `Collector.LineFields` | collector.py:82 | a line holds no newline; the text before `{` is the metric name; the last space-separated field parses back to the timestamp |
| `Collector.PayloadReadsBack` | collector.py:82-88 | splitting the body on newlines gives back one line per present entry (newline count plus one), the body does not end in a newline, and each line yields its metric name and the timestamp |
| `Collector.CycleResult` | collector.py:103-107 | a cycle never raises on its own; it is skipped exactly when there is no reading or an empty one, writes nothing exactly when a non-empty reading has no catalog id, and otherwise POSTs that reading's body and is stored exactly when the answer was 204 |
| `Collector.CollectOnce` | collector.py:103-113 | a cycle POSTs only when the sensor call returned a status without "Error" and with "dps" (and, by its specification, a non-empty reading with a catalog id); a POSTed cycle is stored exactly when the answer was 204 |
| `Collector.RunCollector` | collector.py:116-127 | every cycle runs even after an exception in an earlier one; cycle k starts at start + 300·k plus the time spent in earlier cycles, i.e. 300 s after the previous cycle ended |
| `Collector.RunCycle` | collector.py:120-123 | one guarded iteration: the outcome is that of `collect_once`, and it is a crash exactly when `collect_once` raised |
| `Collector.OutcomesPointwise` | collector.py:119-125 | the loop's k-th outcome is that of cycle k alone: no cycle affects another's outcome |
| `Collector.OffsetIsBusyPlusSleeps` | collector.py:119-125 | cycle k starts after the first k cycles' run time plus k sleeps of 300 s |
| `Collector.StartsFollowEnds` | collector.py:119-125 | start times taken at those offsets are start + 300·k + earlier run time, each 300 s after the previous cycle's end |
| `App.CatalogsDistinct` | app.py:41-60 | the column names of both dashboard catalogs are distinct |
| `App.GetSensorReading` | app.py:63-81 | exactly one of reading and error is present; the error is the "Error" value or the exception text; the reading's keys are exactly the columns of the catalog ids in "dps", each mapped to raw × scale |
| `App.ReadColumns` | app.py:74-77 | over a catalog with distinct columns, the reading's keys are exactly the columns of the ids present in "dps", each holding raw × scale |
| `App.ApiCurrent` | app.py:177-183 | 500 with the error text exactly when the error text is non-empty; otherwise 200 with the reading, which is null only when the error text was empty |
| `App.StepNeverFinerForLongerWindows` | app.py:88-95 | a longer look-back never gets a finer step |
| `App.StepPointBound` | app.py:88-95 | up to seven days, the chosen step keeps a query at most 672 steps long (hours·60 ≤ 672 · step minutes) |
| `App.StepFor` | app.py:88-95 | the step is at least one minute, at most five minutes for a day or less, and one hour beyond seven days (order and density: `App.StepNeverFinerForLongerWindows`, `App.StepPointBound`) |
| `App.QueryVictoria` | app.py:84-119 | both lists have one entry per sample of the first series only, in order; every failure (no reply, no JSON, status not "success", empty result, unparsable value) gives two empty lists |
| `App.QueryUsesFirstSeriesOnly` | app.py:109-111 | replies with the same first series give the same lists |
| `App.FirstNonEmptyIsEarliest` | app.py:205-206 | the history timestamps are empty when every series is empty, and otherwise are those of the earliest non-empty one; later ones never replace them |
| `App.FirstNonEmptyStep` | app.py:205-206 | one loop step keeps already-set timestamps and otherwise takes the new series' timestamps |
| `App.HistoryQueries` | app.py:203-204 | one query per metric, in table order |
| `App.TimestampLists` | app.py:205 | one timestamp list per query |
| `App.AssembleHistory` | app.py:191-207 | every column key is present, each holding its own metric's values (possibly empty); no other key; the timestamps are the earliest non-empty timestamp list |
| `App.ApiHistory` | app.py:186-209 | the history response over the seven metrics with `hours` defaulting to 24 |
| `App.HoursArg` | app.py:189 | `hours` is the given integer, 24 when absent |
| `App.Values` | app.py:158 | one value per sample |
| `App.Stamps` | app.py:157 | one timestamp per sample |
| `App.FirstStamps` | app.py:154-157 | no timestamps exactly when no metric's query succeeded with a result (which one is taken: `App.FirstStampsIsEarliest`) |
| `App.SuccessfulColumns` | app.py:141-158 | at most one column per metric |
| `App.GetAllReadingsFromVm` | app.py:122-167 | the export is empty when the probe or any metric query raises, when no series succeeded or the first successful one is empty, or when the columns' lengths disagree; otherwise its timestamps are non-empty and every column has exactly as many values |
| `App.ExportOf` | app.py:124-167 | the export is empty when the probe query fails or when no metric succeeded; a non-empty export has timestamps and every column as long as them |
| `App.SuccessfulColumnsHoldSuccesses` | app.py:154-158 | a metric gets a column exactly when its query succeeded with a non-empty result, and the column holds the values of its first series |
| `App.NoColumnForOthers` | app.py:141-158 | no column appears under a name outside the metric table |
| `App.FirstStampsIsEarliest` | app.py:156-157 | the export timestamps come from the first successful metric in table order, and are unset when none succeeded |
| `App.ExportReadsOnlyItsQueries` | app.py:126-158 | the export depends only on whether the probe query failed and on the seven 30-day range replies |
| `App.SameQueriesSameColumns` | app.py:141-157 | equal replies give equal columns and equal timestamps |
| `App.MaxLen` | app.py:239 | the longest cell length bounds every cell and is reached by one of them (0 for no cells) |
| `App.ColumnWidth` | app.py:239-240 | the width lies between 2 and 25 (tightest fit: `App.ColumnWidthIsTightestFit`) |
| `App.ColumnWidthIsTightestFit` | app.py:239-240 | the width never exceeds 25; below 25 it fits the header and every cell plus two, and no smaller width does |
| `App.SheetColumns` | app.py:220-234 | the sheet has the "Timestamp" column with one cell per timestamp, then each exported column under its renamed header with one cell per value |
| `App.Header` | app.py:221-230 | a header is never shorter than its column name |
| `App.CatalogColumnsRenamed` | app.py:221-230 | the timestamp and each of the seven catalog columns get a new header |
| `App.HeaderKeepsOtherNames` | app.py:221-230 | any other column name is kept as it is |
| `App.TimestampHeaderUnique` | app.py:221-230 | no catalog column's header equals the timestamp's header |
| `App.HeadersDistinct` | app.py:221-230 | the seven catalog columns get seven distinct headers |
| `App.ExportExcel` | app.py:212-240 | 404 exactly when the export is empty; otherwise each sheet column i gets letter `chr(65 + i)`, its renamed header and width min(max(longest cell, header length) + 2, 25) |
| `App.LayOut` | app.py:236-240 | sheet column i gets letter `chr(65 + i)`, its header, and the width rule applied to its header and cell texts, never above 25 |
| `SetupTuya.GetInput` | setup-tuya.py:25-29 | the answer is the stripped input; a present, non-empty default replaces an empty answer, so the result is never empty then |
| `SetupTuya.GetInputKeepsCleanAnswer` | setup-tuya.py:27-28 | an answer without surrounding whitespace is returned as typed, whatever the default |
| `SetupTuya.GetInputDefaultOnlyWhenBlank` | setup-tuya.py:26-29 | the result differs from the stripped input only when that is empty and the default is non-empty; an empty default is never used |
| `SetupTuya.IsCandidateIff` | setup-tuya.py:152-161 | a device passes exactly when its category ("" when absent) is dgnbj or wsdcg, or "water", "aqua" or "ph" starts at some position of its lower-cased name ("Unknown" when absent) |
| `SetupTuya.Candidates` | setup-tuya.py:150-162 | the candidate list is no longer than the listing, holds only listed devices that pass the test, and is empty exactly when no device passes (order: `SetupTuya.CandidatesPosition`) |
| `SetupTuya.CandidatesComplete` | setup-tuya.py:161-162 | every listed device that passes the test is in the candidate list |
| `SetupTuya.CandidatesPosition` | setup-tuya.py:150-162 | listing order and repeats are kept: a passing device at listing position k sits at candidate position "number of passing devices before k" |
| `SetupTuya.CandidatesFromPositions` | setup-tuya.py:150-162 | every candidate position is filled that way by some passing device of the listing, so the candidates are exactly the passing devices in listing order |
| `SetupTuya.PoolMembers` | setup-tuya.py:164-165 | with no candidate the offered devices are the whole listing; otherwise they are exactly the candidates |
| `SetupTuya.CandidatePool` | setup-tuya.py:150-165 | the filter loop with its fall-back yields that pool |
| `SetupTuya.SelectAsWritten` | setup-tuya.py:171-172 | as written, an answer selects a device exactly when it lies in -n+1..n, so 0 and small negatives are accepted |
| `SetupTuya.ZeroChoiceSelectsLast` | setup-tuya.py:171-172 | answer 0 selects the last device; answer c in 1-n..0 selects device n+c |
| `SetupTuya.Select` | setup-tuya.py:169-172 | a menu answer c in 1..n selects device c of the whole listing; any other answer is an error |
| `SetupTuya.SelectAgreesOnMenu` | setup-tuya.py:171-172 | the corrected selection agrees with the code on every menu number and every answer at or below -n, and differs exactly on 1-n..0 |
| `SetupTuya.Chosen` | setup-tuya.py:167-172 | a chosen device is listed; with other than one device offered, the choice is the corrected menu selection on the whole listing, none for a non-integer answer |
| `SetupTuya.FindById` | setup-tuya.py:197-198 | a found device is listed and has the typed id; nothing is found exactly when no listed device has it |
| `SetupTuya.FindByIdIsFirst` | setup-tuya.py:197-204 | the first listed device with the id is returned; later duplicates never are |
| `SetupTuya.FromSelected` | setup-tuya.py:174-179 | the result carries the selected device's id, key and name, and an empty address when it has none |
| `SetupTuya.FromManual` | setup-tuya.py:196-208 | the typed id is kept with a name; with no second listing or no device with the id the result is (id, null key, "Aquarium Sensor", ""), otherwise the key is that of the first device with the id |
| `SetupTuya.ManualEntry` | setup-tuya.py:187-208 | the typed id is stripped and kept; key, name (default "Aquarium Sensor") and address come from the first device of the second listing with that id, else the key is null |
| `SetupTuya.FetchDeviceInfo` | setup-tuya.py:107-208 | the result is that of `FetchResult`: nothing without the library or with an empty listing; the single offered device when the pool has one; otherwise the menu pick, counted on the whole listing; otherwise manual entry of the stripped typed id (the menu uses the corrected selection) |
| `SetupTuya.FetchNothingIff` | setup-tuya.py:110-145 | no device information exactly when the library is missing or the listing is empty |
| `SetupTuya.OneCandidateIsTaken` | setup-tuya.py:167-168 | a single offered device is taken without regard to the typed answer |
| `SetupTuya.ChoiceIndexesWholeListing` | setup-tuya.py:169-172 | otherwise menu number c takes device c of the whole listing, not of the candidates |
| `SetupTuya.FailureLeadsToManualEntry` | setup-tuya.py:181-208 | with several devices offered, a non-integer answer or a number above n or at or below -n (where the code's `devices[choice]` raises `ValueError` or `IndexError`), and also a listing that raises, leads to manual entry of the stripped typed id |
| `SetupTuya.WrappedChoiceLeadsToManualEntry` | setup-tuya.py:171-172 | the corrected rule for answers c in 1-n..0: as written they select device n+c, while the model sends them to manual entry like any other answer off the menu |
| `SetupTuya.ManualKeyFromFirstMatch` | setup-tuya.py:196-204 | on manual entry the key comes from the first device of the second listing with the typed id |
| `SetupTuya.PhoneIsCandidate` | setup-tuya.py:161 | the name test is a substring test: a device named "Phone" passes through "ph" |
| `SetupTuya.UnnamedNeedsCategory` | setup-tuya.py:152-161 | a device without a name ("Unknown") is a candidate exactly when its category is dgnbj or wsdcg |
| `SetupTuya.ContainsNeedsEveryLetter` | setup-tuya.py:161 | a name missing one letter of a word does not contain the word |
| `SetupTuya.TestConnection` | setup-tuya.py:236-263 | the result is that of `Connect`: 3.5 unless its status has "Error"; then 3.4, 3.3, 3.1 in turn, the first whose status has "dps"; an exception gives (None, {}); all rejected gives (None, last status) |
| `SetupTuya.FirstAcceptedWins` | setup-tuya.py:248-254 | among the fall-backs, the first version whose status has "dps", after only rejections, is returned with its status |
| `SetupTuya.RaiseEndsSearch` | setup-tuya.py:248-263 | an exception before any acceptance gives no version and an empty status |
| `SetupTuya.AllRejectedKeepsLastStatus` | setup-tuya.py:248-256 | when every fall-back status lacks "dps", no version is returned with the last status |
| `SetupTuya.TryFallbacks` | setup-tuya.py:248-256 | a returned fall-back version is one of those tried, its status has "dps" and is that version's answer |
| `SetupTuya.Connect` | setup-tuya.py:240-263 | an exception at 3.5 gives (None, {}); a returned version is one of 3.5, 3.4, 3.3, 3.1 together with its own status (the full case analysis: `SetupTuya.ConnectOutcome`) |
| `SetupTuya.ConnectOutcome` | setup-tuya.py:240-263 | 3.5 is accepted on any status without "Error", with or without "dps"; an exception at 3.5 gives (None, {}); a returned version is one of 3.5, 3.4, 3.3, 3.1 with its own status; a fall-back is returned only after 3.5 reported an error and every higher fall-back lacked "dps", and only with "dps" |
| `SetupTuya.LaterVersionsNotTried` | setup-tuya.py:248-254 | once a version is accepted, the device's answers to the versions after it do not matter |
| `SetupTuya.SavedVersion` | setup-tuya.py:333 | `version or 3.5`: 3.5 when no version was detected, the detected version otherwise |
| `SetupTuya.SavedVersionIsKnown` | setup-tuya.py:333 | the saved protocol version is always one of the four, and 3.5 when no version was detected |
| `SetupTuya.RunSetup` | setup-tuya.py:272-337 | nothing is saved exactly when the user answers "n" or no device information was found; otherwise the id and key are the fetched ones, the address is the fetched one or else the stripped typed one, and the version is the detected one or 3.5 |
| `Catalogs.CatalogsAgree` | app.py:41-60 | the dashboard catalogs match the collector's entry by entry: same data-point id, same scale, same column, same series name |
| `Catalogs.EveryQueriedSeriesIsWritten` | collector.py:45-53 | every series the dashboard queries is written by the collector, from the data point the dashboard shows under that column |
| `Text.NatToStringRoundTrip` | collector.py:82 | the decimal digits of a natural number read back to it |
| `Text.IntToStringRoundTrip` | collector.py:76 | `str` of the millisecond timestamp parses back to the timestamp |
| `Text.SplitJoin` | collector.py:88 | splitting the newline join of lines without newlines gives the lines back |
| `Text.JoinSeparators` | collector.py:88 | the join of n parts holds n-1 separators and ends with the last part |
| `Text.StripRemovesOnlyOuterSpace` | setup-tuya.py:27 | `strip` removes whitespace from both ends only, and its result neither starts nor ends with whitespace |
| `Text.Lower` | setup-tuya.py:161 | lower-casing keeps the length and maps each character |
| `Text.ContainsIffOccurs` | setup-tuya.py:161 | `sub in s` holds exactly when `sub` starts at some position of `s` |

## Left out

- Real I/O is not modelled: the Tuya device, the Tuya cloud, HTTP to VictoriaMetrics, Flask routing and JSON encoding, the Excel byte stream, logging, `time.sleep`, and the clock. They become parameters, or they are only printed.
- Float formatting (`str(float)`, `:.2f`, `float(v[1])` on text) is not modelled. Floats are exact reals, and their text is an injected function. This means binary floating-point rounding (`26 * 0.1`) is not modelled.
- Configuration loading and saving, with the hard-coded credential fall-back, is not modelled. `Settings` holds only the device part of the saved file. The cloud credentials pass through unchanged.
- The wizard's printed instructions, its `input()` prompts, `setup_tuya_cloud`, `scan_network` and the temporary tinytuya config file are not modelled. They are presentation or are never used in a decision.
- The menu answer is modelled as the integer `int()` produced, or its absence when `int()` raised.
- `main`'s printing of the current readings after the connection test is not modelled.
- `collect_once`'s log line (`name.split('_')[1]`, `:.2f`) and the dashboard's `index` page are not modelled. They are output only.
- Text.Lower: Unicode case folding is not modelled, only ASCII letters. `str.lower` on other scripts is not covered.
- Text.StripRemovesOnlyOuterSpace: the whitespace set is a fixed list of code points, matching `str.isspace` for the characters it lists.
- Device statuses are modelled with integer data-point values and a string "Error" value. Non-numeric "dps" values, whose Python exceptions end a cycle or a request, are not modelled.
- Reply bodies outside the modelled shapes are not modelled. That includes a `getdevices` answer that is a dict, and a sample shorter than two fields. Parse failures are modelled as a `BadBody` reply or an unparsable sample value.
- Collector.RunCollector: the endless `while True` loop is modelled over a finite sequence of cycles. Each cycle has a measured duration, which is the clock between its start and the sleep.
- App.ExportExcel: the header rename is used for the headers and widths. Cell texts come from the injected formatters. Excel's own rendering is not modelled.
- App.ColumnWidth: states only the bounds 2..25 on its own. The fit to header and cells is stated by `App.ColumnWidthIsTightestFit`.
- App.SuccessfulColumns: states only a length bound on its own. Its content is stated by `App.SuccessfulColumnsHoldSuccesses` and `App.NoColumnForOthers`.
- SetupTuya.WrappedChoiceLeadsToManualEntry: states the corrected rule; as written, answers c in 1-n..0 select device n+c (see Findings).
- SetupTuya.FetchDeviceInfo: uses the corrected menu selection. Choices 0 and -n+1..-1, which the code maps to devices counted from the end, take the error path like any other number off the menu. See Findings.

## Findings

| source | as written | input that shows it | evidently intended | confidence | as-written member | corrected member |
|---|---|---|---|---|---|---|
| setup-tuya.py:171-172 | `devices[int(input("> ")) - 1]` | answer `0` with at least one device listed: index -1 silently selects the last device (answers down to 1-n also count from the end) | the menu numbers devices 1..n, so only 1..n should select; other answers should fail like an out-of-range index | medium; not executed | `SetupTuya.ZeroChoiceSelectsLast` | `SetupTuya.Select` |
