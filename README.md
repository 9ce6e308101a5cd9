# sumo-web3d backend, modelled in Dafny

sumo-web3d shows a SUMO traffic simulation in a browser. The Python server can
drive a live SUMO process. It can also replay a recorded run from a floating
car data (FCD) file. It streams snapshots to the client as deltas: the
entities created, updated and removed since the last snapshot. The repository
holds two copies of the server. `backend/server/server.py` is the current one.
`sumo_web3d/server/server.py` is the older one. This project models the
sequential logic of both, plus two small converters for lane distribution
files.

Modules:

- `Deltas` models the snapshot delta protocol, `diff` and `diff_dicts`. `deltas.py` is not part of this model. Its behaviour is taken from the assertions in its test file; the cases those assertions leave open are decided by the model and listed under "Left out". The module also proves that applying a delta to the previous snapshot rebuilds the new one.
- `XmlUtils` models `get_only_key`.
- `Text` holds the string operations the server relies on:
  - `str.lower`, `str.replace` and `to_kebab_case`;
  - `str.split`, `str.strip` and `re.split(r'[ ,]+', …)`;
  - `os.path.join`.
- `Scenarios` models the scenario catalogue:
  - `expand_path`, `Scenario.from_config_json` and `Scenario.is_live`;
  - `load_scenarios_file`, as a class whose `scenarios` map is updated in place;
  - `get_default_scenario_name` and `parse_config_file`.
- `Replay` models recorded-run replay:
  - the `parse_fcd` event fold and the `parse_lane_distr` line grouper, as imperative loops proved against pure folds;
  - `parse_color` and both versions of `read_fcd_vehicle`;
  - the record map and per-class counts that `read_next_step` builds.
- `Server` models the websocket control handler of both server versions as a transition function over the server globals, and `cleanup_sumo_simulation`. A `ServerState` class holds the globals. Its methods update them in place and are proved against that transition function; they cover `read_next_step` and `post_state`. Calls to SUMO, TraCI and the socket are recorded in an effects log.
- `Http` models the `send_as_http_response` and `serialize_as_json_string` decorators.
- `Distributions` models the lane-major to step-major converter in `distribution-parser/distributions-parser.py`.
- `LaneIndices` models the dict inversion in `distribution-parser/indices-parser.py`. A Python dict is a sequence of items in insertion order.

Foreign code appears as function parameters:

- `parseFloat` for `float`;
- `parse` for `ast.literal_eval`;
- `expand` for `os.path.expanduser(os.path.expandvars(…))`;
- `dumps` for `json.dumps`;
- `show` for `str`;
- `startSecs`, `endSimSecs` and `endUpdateSecs` for the three readings of `time.time()` in `read_next_step`.

XML parsing is replaced by its output: a sequence of end events for `parse_fcd`, and an already parsed record for the configuration files.

## Model

| member | source | states |
|---|---|---|
| Deltas.Diff | backend/server/deltas_test.py:7-9 | the result holds exactly the keys of the new record whose value changed (NaN values excluded), each carrying the new value |
| Deltas.DiffDicts | backend/server/deltas_test.py:32-80 | creations are exactly the ids only in the new map, with their full records; removals are exactly the ids only in the old map; updates are ids in both, each carrying a non-empty field diff |
| Deltas.UpdatesExactlyChangedEntities | backend/server/deltas_test.py:33-65 | an id present in both maps is in `updates` iff some field of it changed |
| Deltas.DiffDictsIdentical | backend/server/deltas_test.py:9 | the delta of a snapshot against itself is empty |
| Deltas.DiffOverwrite | backend/server/deltas_test.py:36-41 | overlaying the diff on the old record equals overlaying the new record's non-NaN fields |
| Deltas.ReconcileEntry | backend/server/deltas_test.py:32-80 | after the client applies the delta, each id of the new snapshot holds the old record overlaid with the new non-NaN fields |
| Deltas.ReconcileDiffDicts | backend/server/deltas_test.py:32-80 | applying the delta to the old snapshot gives exactly the settled new snapshot |
| Deltas.KnownComplete | backend/server/deltas_test.py:82-103 | without NaN values and without dropped fields, the overlay is the new record itself |
| Deltas.ReconcileRebuildsSnapshot | backend/server/deltas_test.py:32-103 | without NaN values and dropped fields, applying the delta to the old snapshot rebuilds the new snapshot exactly |
| Deltas.DiffReportsChangedField | backend/server/deltas_test.py:8 | the test's record pair diffs to `{x: 1}` |
| Deltas.DiffDictsCreatesAndRemoves | backend/server/deltas_test.py:67-80 | the test's maps give creation `obj1` and removal `obj2` |
| Deltas.DiffDictsIgnoresNaN | backend/server/deltas_test.py:82-103 | the test's NaN fields are not reported; only `angle` is |
| XmlUtils.GetOnlyKey | backend/server/xml_utils_test.py:7-11 | succeeds iff given a dict with exactly one key, and then returns that key's value |
| XmlUtils.GetOnlyKeyCases | backend/server/xml_utils_test.py:8-11 | the four asserted cases: single key, nested value returned unchanged, two keys fail, None fails |
| XmlUtils.GetOnlyKeySingleton | backend/server/xml_utils_test.py:8-9 | any one-entry dict yields its value, whatever the value's type |
| Text.LowerChar | backend/server/server.py:163 | a lowered character is never an uppercase ASCII letter |
| Text.LowerAt | backend/server/server.py:163 | lowering keeps the length and maps each character independently |
| Text.ReplaceCharAt | backend/server/server.py:163 | replacing a character keeps the length and changes exactly the matching positions |
| Text.KebabCaseAt | backend/server/server.py:162-163 | each character of the kebab name is the kebab form of the character at the same position |
| Text.KebabCaseLength | backend/server/server.py:162-163 | the kebab name has the length of the name |
| Text.KebabCaseIsClean | sumo_web3d/server/server.py:202-203 | a kebab name contains no space, no underscore and no uppercase ASCII letter |
| Text.KebabCaseIdempotent | sumo_web3d/server/server.py:202-203 | applying the conversion twice equals applying it once |
| Text.Split | backend/server/server.py:292 | `str.split` with a separator always returns at least one part |
| Text.SplitJoin | backend/server/server.py:292 | joining the parts with the separator gives back the string |
| Text.SplitPartsFree | backend/server/server.py:292 | no part contains the separator |
| Text.StripSlice | backend/server/server.py:292 | the stripped string is a slice of the input; everything cut off is whitespace, and the result neither starts nor ends with whitespace |
| Text.SplitRuns | backend/server/server.py:449 | splitting on runs of spaces and commas returns at least one piece |
| Text.SplitRunsJoin | backend/server/server.py:449 | the input is the pieces with one non-empty run of spaces and commas put back between each two; with SplitRunsPieces this fixes every cut at a maximal run |
| Text.SplitRunsConcat | backend/server/server.py:449 | the pieces, concatenated, are the input with every space and comma removed |
| Text.SplitRunsPieces | backend/server/server.py:449 | no piece contains a space or comma, and only the first and last piece can be empty |
| Text.PathJoin | backend/server/server.py:83 | joining with an absolute path gives that path; otherwise the result starts with the directory; it always ends with the joined name |
| Text.StartsWithSplit | backend/server/server.py:280-282 | `re.match` of a literal pattern succeeds iff the line is the pattern followed by the rest of the line |
| Text.ReplaceFirstAt | backend/server/server.py:283 | with `i` the first occurrence of the pattern, `replace(', ', '', 1)` gives the text before `i`, the replacement, then the text after the occurrence |
| Text.ReplaceFirstNone | backend/server/server.py:283 | a line without the pattern is left unchanged by `replace(', ', '', 1)` |
| Text.ReplaceAllPieces | backend/server/server.py:287 | `str.replace`, as used for the `], [` and `[[` group headers: the text is its pieces joined by the pattern and the result the same pieces joined by the replacement, where no occurrence starts inside a piece, so the pieces are the ones a left to right scan finds |
| Scenarios.ExpandPath | backend/server/server.py:80-83 | gives a path iff the file name is truthy, and the path is the scenarios directory joined with the expanded name |
| Scenarios.IsLive | backend/server/server.py:158-159 | `is_live` holds when the scenario has no recording; a live scenario is never replayed, while the converse fails for `fcd_file: ""` (see Findings) |
| Scenarios.FromConfigJson | backend/server/server.py:96-156 | the scenario's name is the kebab name, its display name the raw name, its default flag the entry's; a truthy `fcd_file` or `lane_distr_file` becomes the scenarios directory joined with the expanded name, and a falsy one (absent or `''`) is kept as given |
| Scenarios.EmptyRecordingNeitherLiveNorReplayed | backend/server/server.py:106-108 | an entry with `fcd_file: ""` yields a scenario that is neither live nor replayed (see Findings) |
| Scenarios.CorrectedLiveExcludesReplay | backend/server/server.py:158-159 | under the corrected liveness test, a scenario is live iff it does not replay a recording |
| Scenarios.SetOfSize | backend/server/server.py:496 | the set of names is no larger than the list, and is as large iff the names are distinct |
| Scenarios.HasDuplicateNames | backend/server/server.py:496 | the flag is true iff two entries share a kebab name |
| Scenarios.LegacyDuplicatesFlag | sumo_web3d/server/server.py:560-561 | the older flag named `duplicates` is true iff the names are all distinct |
| Scenarios.KebabNames | backend/server/server.py:494 | one kebab name per entry, in order |
| Scenarios.FreshEntries | backend/server/server.py:502-503 | keeps exactly the entries whose kebab name is not already loaded |
| Scenarios.InsertAllKeys | backend/server/server.py:504-506 | inserting entries adds exactly their kebab names as keys |
| Scenarios.InsertAllKeeps | backend/server/server.py:504-506 | a loaded scenario whose name is not inserted keeps its value |
| Scenarios.InsertAllWellKeyed | backend/server/server.py:504-506 | every key stays equal to its scenario's name |
| Scenarios.FreshNames | backend/server/server.py:502-503 | the names of the fresh entries are the new names minus the loaded ones |
| Scenarios.MergeOnlyAdds | backend/server/server.py:502-507 | the merge adds exactly the new names, never replaces a loaded scenario, and keeps every key equal to its scenario's name |
| Scenarios.ScenarioTable.InsertEach | backend/server/server.py:504-506 | the table after the loop is the old table with the entries inserted in order |
| Scenarios.ScenarioTable.LoadScenariosFile | backend/server/server.py:487-507 | no file leaves the table unchanged; it fails iff two entries share a kebab name, leaving the table unchanged; otherwise only the fresh entries are inserted |
| Scenarios.GetDefaultScenarioName | backend/server/server.py:522-529 | succeeds iff exactly one scenario is default, returning its key; more than one raises the multiple-defaults error; none is the no-default error |
| Scenarios.JoinPiecesAt | backend/server/server.py:450-451 | the k-th path is the config directory joined with the k-th piece |
| Scenarios.OneTagPaths | backend/server/server.py:448-451 | one tag gives one path per piece of its value, each the directory joined with a piece free of spaces and commas |
| Scenarios.JoinEach | backend/server/server.py:450-451 | the loop's paths are the pieces joined to the directory, in order |
| Scenarios.ParseConfigFile | sumo_web3d/server/server.py:498-522 | the net file is joined to the directory; additional files are None iff no tag is given (a single tag is a one-element list); otherwise every tag's pieces are joined in order; the settings file is set iff `gui_only` has `gui-settings-file` |
| Replay.ParseFcd | backend/server/server.py:250-267 | the buffer loop yields exactly the groups of the fold over the events, and raises exactly when the fold does |
| Replay.FirstTimestepEnd | backend/server/server.py:264 | the index of the first closing `timestep` event, or the length when there is none |
| Replay.ParseFcdSegments | backend/server/server.py:258-267 | on well-timed events, each group holds the `time` of its closing `timestep` and exactly the vehicles closed since the previous one, in order; vehicles after the last close stay buffered and are never yielded |
| Replay.ParseFcdFails | backend/server/server.py:266 | the parser raises iff some closing `timestep` lacks a `time` attribute |
| Replay.Number | backend/server/server.py:300-303 | reading a number succeeds iff the attribute is present and parses, and names the failing attribute otherwise |
| Replay.ParseColor | backend/server/server.py:290-293 | adds a `color` entry iff the vehicle has a `color` attribute, and no other key |
| Replay.ColorComponents | backend/server/server.py:292 | the colour components are the comma-separated parts, stripped: none contains a comma, and none starts or ends with whitespace |
| Replay.ReadFcdVehicle | backend/server/server.py:296-311 | fails on the first missing or unparsable attribute, in the order type, `x`, `y`, `speed`, `angle`, naming it in the error; on success gives exactly the record fields: z 0, length 4.5, width 1.8, signals 0, the renamed type, vClass defaulted to passenger, and the colour when given |
| Replay.VehicleTypeRenaming | backend/server/server.py:297-298 | only `DEFAULT_VEHTYPE` is renamed, to `car`; every other type is kept |
| Replay.LegacyReadFcdVehicle | sumo_web3d/server/server.py:310-322 | the older reader fails on the first missing or unparsable attribute, in the order `x`, `y`, `speed`, `angle`; on success it gives exactly the fixed fields, the parsed `x`, `y` and `speed`, the `angle` text, type `passenger2a` and vClass `passenger` |
| Replay.LegacyIgnoresTypeAndClass | sumo_web3d/server/server.py:310-322 | vehicles that differ only in type, class or colour read the same |
| Replay.RecordsFrom | backend/server/server.py:324 | the id-keyed map has exactly the vehicles' ids as new keys; it is built iff every vehicle has an id and reads |
| Replay.RecordsLastWins | backend/server/server.py:324 | for a repeated id the last vehicle with that id wins |
| Replay.RecordsClassed | backend/server/server.py:324-325 | every record in the map carries a `vClass` |
| Replay.RecordsKeep | backend/server/server.py:324 | entries whose id is not read again are untouched |
| Replay.ClassCounts | backend/server/server.py:325 | every counted class has a count of at least one |
| Replay.TotalCountsOn | backend/server/server.py:325 | the counts over a set of classes add up to the number of ids in those classes |
| Replay.ClassCountsTotal | sumo_web3d/server/server.py:335-336 | the per-class counts sum to the number of distinct ids in the timestep |
| Replay.ClassCountsAt | backend/server/server.py:325 | each vehicle's class is counted, with the number of vehicles of that class |
| Replay.LegacyCountsAllPassengers | sumo_web3d/server/server.py:335-336 | with the older reader, all vehicles are counted under `passenger` |
| Replay.ParseLaneDistr | backend/server/server.py:270-287 | the line loop yields exactly the groups of the fold over the lines, and raises exactly when the fold does (including on an empty file) |
| Replay.ParseLaneDistrHeaders | backend/server/server.py:274-287 | one group per separator line before the first `]]` line; the group in progress at the end is never yielded |
| Replay.ParseLaneDistrGroups | backend/server/server.py:274-287 | reading stops at the first `]]` line or rejected row; group `g` is headed by the first line or by separator `g-1` and holds the parsed rows of the data lines between that separator and the next; the parser raises exactly when it stopped at a rejected row |
| Replay.ParseLaneDistrFails | backend/server/server.py:279-283 | the parser raises iff some data line before the first `]]` line holds a row the literal parser rejects |
| Replay.LaneHeadersFrom | backend/server/server.py:278-287 | each separator line closes the current group and opens one headed by the line without `], [` |
| Server.Cleanup | backend/server/server.py:379-387 | without a task nothing changes; with one the run task is cancelled, the cached vehicles and lights are emptied, and SUMO is stopped only when live; status and delay are untouched |
| Server.CancelEndsRun | backend/server/server.py:379-387 | with a task, `cancel` and an ERROR frame set off and first cancel the run task, then stop SUMO when live |
| Server.ActionOutcomes | backend/server/server.py:403-424 | start and resume set running (start launches SUMO only when live), pause sets paused, cancel sets off and cleans up, changeDelay changes only the delay, any other action or message raises; each accepted action sends the state |
| Server.ErrorFrameStops | backend/server/server.py:427-429 | an ERROR frame sets off and cleans up |
| Server.RunKeepsValidStatus | backend/server/server.py:400-429 | a connection only ever sets the status to off, running or paused |
| Server.ReplayNeverCallsSumo | backend/server/server.py:395-417 | on a recorded scenario no message starts or stops SUMO |
| Server.RunSnapshotsOnlyEmptied | backend/server/server.py:379-387 | the cached vehicles and lights after a connection are either unchanged or empty |
| Server.CancelTwiceStopsTwice | backend/server/server.py:379-387 | start, cancel, cancel on a live scenario starts SUMO once and stops it twice (see Findings) |
| Server.StepClearingBalanced | backend/server/server.py:379-387 | with the task forgotten after cleanup, one step keeps SUMO stops within SUMO starts |
| Server.ClearingNeverOverStops | backend/server/server.py:379-387 | with the task forgotten after cleanup, SUMO is never stopped more often than started |
| Server.LegacyCleanup | sumo_web3d/server/server.py:378-385 | with a task the older cleanup cancels the task, empties the caches and always closes TraCI; without one nothing changes |
| Server.LegacyStartStartsSumo | sumo_web3d/server/server.py:397-401 | the older `start` always starts SUMO, then launches the run and sends the state |
| Server.LegacyCloseKeepsStatus | sumo_web3d/server/server.py:416-419 | on ConnectionClosed the older handler cleans up, keeps the status and stops reading |
| Server.LegacyRunKeepsValidStatus | sumo_web3d/server/server.py:392-419 | the older handler only sets the three statuses |
| Server.PostReplyNamesRequested | backend/server/server.py:182-186 | the reply names the scenario that was requested |
| Server.ServerState.constructor | backend/server/server.py:40-49 | the globals start off, with delay 30, empty caches and no scenario |
| Server.ServerState.CleanupSumoSimulation | backend/server/server.py:379-387 | the globals after the call are the cleanup of the globals before it |
| Server.ServerState.HandleFrame | backend/server/server.py:400-429 | one frame updates the globals as the transition function says, or raises and leaves them unchanged |
| Server.ServerState.ServeConnection | backend/server/server.py:390-431 | with no scenario chosen the handler raises before reading a frame and changes nothing; otherwise the globals after a connection are those of the run over its messages, with `live` read from the current scenario |
| Server.ServerState.LegacyServeConnection | sumo_web3d/server/server.py:388-419 | the older handler's loop updates the globals as its run function says |
| Server.ServerState.ReadNextStep | backend/server/server.py:314-342 | on success the snapshot carries the delta from the cached vehicles, the per-class counts and the two clock differences, and the cache becomes the new record map; on failure nothing changes |
| Server.ServerState.PostState | sumo_web3d/server/server.py:214-226 | an unknown scenario returns None and changes nothing; a known one sets scenario, delay and status and echoes them |
| Http.SendAsHttpResponse | sumo_web3d/server/server.py:81-93 | a non-empty string gives 200 with that text; a falsy value gives 404 "Not found"; any other truthy value raises |
| Http.SerializeAsJsonString | sumo_web3d/server/server.py:97-105 | a falsy value gives None; a truthy one gives its JSON text |
| Http.StackedDecorators | backend/server/server.py:53-77 | stacked as on the JSON routes, the decorators never raise when the serialiser produces text: a truthy result is a 200 with its JSON, a falsy one a 404 |
| Distributions.Row | distribution-parser/distributions-parser.py:23-29 | line `lane` of a block renders `data[lane][step]` |
| Distributions.Serialize | distribution-parser/distributions-parser.py:13-30 | fails iff the input or its first lane is empty, or some lane is shorter than the first; on success writes exactly the step blocks; on failure writes the blocks before the first missing cell and the cells before it in its block |
| Distributions.BlocksPrefix | distribution-parser/distributions-parser.py:21-30 | the output for fewer steps is a prefix of the output for more |
| Distributions.BlocksAt | distribution-parser/distributions-parser.py:24-30 | line `step*(lanes+1)+lane` renders `data[lane][step]`, and line `step*(lanes+1)+lanes` is `-` |
| Distributions.LastLineIsSeparator | distribution-parser/distributions-parser.py:21-30 | the output has `steps*(lanes+1)` lines and ends with `-` |
| LaneIndices.Put | distribution-parser/indices-parser.py:9 | storing a key adds it to the keys; for an existing key every item keeps its place and every other item is unchanged; a new key is appended |
| LaneIndices.PutDistinctKeys | distribution-parser/indices-parser.py:9 | storing keeps the keys of a dict distinct |
| LaneIndices.Invert | distribution-parser/indices-parser.py:9 | the keys of the inverted dict are exactly the values of the input |
| LaneIndices.InvertDistinctKeys | distribution-parser/indices-parser.py:9 | the inverted dict holds every lane id once |
| LaneIndices.InvertKeyOrder | distribution-parser/indices-parser.py:9-10 | the lane ids of the inverted dict, as printed, come in the order of their first occurrence among the values; a later duplicate changes only the index stored |
| LaneIndices.LookupPut | distribution-parser/indices-parser.py:9 | after storing, the stored key maps to the new value and every other key is unchanged |
| LaneIndices.InvertLastWins | distribution-parser/indices-parser.py:9 | a lane id maps to the last index that holds it |
| LaneIndices.InvertMissing | distribution-parser/indices-parser.py:9 | an id that is no value has no entry |
| LaneIndices.InvertInjective | distribution-parser/indices-parser.py:9 | without shared ids, the inverted dict lists the swapped items in the original order |
| LaneIndices.InvertInjectiveLookup | distribution-parser/indices-parser.py:9 | without shared ids, every id maps back to its index |
| LaneIndices.InvertTwice | distribution-parser/indices-parser.py:9 | inverting a dict without shared ids twice gives back the dict, order included |

## Left out

- File and network I/O, aiohttp, websockets and async scheduling are left out. This covers the route tables, `setup_http_server`, `main`, `make_xml_endpoint`, `make_additional_endpoint`, `state_http_response`, `get_state_websocket_message` and the pacing loop of `run_simulation`. They are I/O and scheduling only. `run_simulation` (backend/server/server.py:348, 356) picks the recorded feed when `fcd_file` is truthy; that test is `Scenarios.ReplaysRecording`. `Scenarios.IsLive` is only the `live` flag the websocket handler reads at backend/server/server.py:395, and the two differ on `fcd_file: ""`.
- `backend/server/sumo.py`, `simulate_next_step` and the TraCI helpers of the older server are left out. They wrap the external simulator. Starting and stopping SUMO and closing TraCI appear only as entries in the effects log.
- Floating point is left out. `float(...)` is the parameter `parseFloat`. The `float(timestep) * 1000` time string is replaced by the parsed time value. `round_vehicles` is not modelled.
- Server.ServerState.ReadNextStep: `simulate_secs` and `snapshot_secs` are differences of clock readings passed in as parameters, computed exactly on reals rather than in floating point. The time string is the parsed time, as above.
- Deltas.Diff: the test file does not decide three cases, which the model settles as follows. A field present only in the new record is reported. A field dropped from the new record is never reported, so a client keeps its stale value. A NaN for a field the old record lacks is not reported.
- Deltas.DiffDicts: `removals` is a set, so the order of the list the source returns is not modelled. The three cases of Deltas.Diff carry over to `updates`.
- Foreign parsers are parameters or abstracted inputs: `xmltodict`, `ET.iterparse`, `json` and `ast.literal_eval`. The fields of `Scenario` that need them (config file, network, additional, settings, water, lanemap) are not modelled.
- Scenarios.FromConfigJson: does not model the `KeyError` for a missing `name` or `config_file`, because the entry type always carries a name and the config file is not modelled.
- Server.ServerState.PostState: does not model the `KeyError` for a body missing `scenario`, `delay_length_ms` or `simulation_status`, because the body type carries all three. It accepts any status string, so after it the status need not be off, running or paused. The transition lemmas assume a valid status for that reason.
- Scenarios.ParseConfigFile: does not model the `KeyError` for a configuration without `input` or `net-file`, because the config type always carries a net file.
- Scenarios.GetDefaultScenarioName: with no default scenario the source indexes `dict.keys()`, which raises `TypeError` on Python 3. The model returns the `NoDefault` error instead of a key.
- Server.Step: a second `start` launches a second run task while the first keeps running. The model tracks only whether some task exists.
- Replay.ParseFcd: generators are lazy, so a missing `time` raises only when the consumer reaches that group. The model reports the failure together with the groups yielded before it.
- Replay.ParseLaneDistr: the generator is lazy and `run_simulation` takes one group per step with `next`. The model gives every group yielded, plus a flag for the `literal_eval` failure that ends the reading, instead of the groups one by one.
- Replay.ReadFcdVehicle: the source renames the type inside its input dict. The model leaves the input unchanged and gives the renamed type in the result.
- Text.LowerChar: lowers ASCII letters only. Unicode case mapping is not modelled.
- Text.PathJoin: models POSIX `os.path.join` only for whether the second path is absolute. Separator normalisation beyond adding one `/` is not modelled.
- Distributions.Serialize: the output file is modelled as its sequence of lines. Removing an existing output file and `len(data[0][0])` on a cell that has no length are not modelled.
- `backend/server/test.py` duplicates `parse_fcd` and is not part of this model. `backend/server/constants.py` holds configuration data only. The TypeScript client is not part of this model.
- Where the two server versions share code unchanged, one member models both: `to_kebab_case`, `parse_fcd`, `parse_config_file`, `post_state`, and the decorators in the current copy.

## Findings

| source | as written | input that shows it | evidently intended | confidence | as-written member | corrected member |
|---|---|---|---|---|---|---|
| backend/server/server.py:158-159 | `is_live` tests `fcd_file is None`, while `from_config_json` and `run_simulation` (line 349) test truthiness | a scenario entry with `"fcd_file": ""`: not live, so SUMO is never started, and no recording is replayed either, so `simulate_next_step` runs with no SUMO | a scenario is live exactly when it does not replay a recording | medium, not executed | Scenarios.EmptyRecordingNeitherLiveNorReplayed | Scenarios.CorrectedLiveExcludesReplay |
| backend/server/server.py:379-387 | `simulation_task = None` rebinds only the local name, so the handler's `task` survives the cleanup | messages start, cancel, cancel on a live scenario: SUMO is started once and `stop_sumo` runs twice | a cleaned-up task is forgotten, so SUMO is never stopped more often than started | medium, not executed | Server.CancelTwiceStopsTwice | Server.ClearingNeverOverStops |
