/** The scenario catalogue: scenario records, the table that maps kebab-case
    names to them, how entries of `scenarios.json` are merged into it, how the
    default scenario is chosen, and how a `.sumocfg` configuration names its
    network, additional and settings files. */
module Scenarios {
  import opened Wrappers
  import opened Text

  /* ---------------------------------------------------------------------- */
  /* Scenario records                                                       */
  /* ---------------------------------------------------------------------- */

  /** One entry of `scenarios.json`. An absent `is_default` reads as false;
      an absent `fcd_file` or `lane_distr_file` is `None`. */
  datatype ScenarioEntry = ScenarioEntry(
    name: string,
    isDefault: bool,
    fcdFile: Option<string>,
    laneDistrFile: Option<string>)

  /** The parts of a `Scenario` object that the server logic reads. */
  datatype Scenario = Scenario(
    displayName: string,
    name: string,
    isDefault: bool,
    fcdFile: Option<string>,
    laneDistrFile: Option<string>)

  /** Python truthiness of an optional string: `None` and `''` are false. */
  predicate Given(s: Option<string>)
  {
    s.Some? && s.value != ""
  }

  /** `expand_path(filename)`: nothing for a missing or empty name, otherwise
      the expanded name joined to the scenarios directory. `expand` stands for
      `os.path.expanduser(os.path.expandvars(...))`, which reads the
      environment. */
  function ExpandPath(filename: Option<string>, scenariosDir: string, expand: string -> string): (r: Option<string>)
    ensures r.Some? <==> Given(filename)
    ensures r.Some? ==> r.value == PathJoin(scenariosDir, expand(filename.value))
  {
    if !Given(filename) then None else Some(PathJoin(scenariosDir, expand(filename.value)))
  }

  /** What `Scenario.from_config_json` keeps of an entry: the kebab-case name
      and, when the entry names one, the expanded recording and lane
      distribution files. An `fcd_file` of `''` is kept as it is. */
  function FromConfigJson(e: ScenarioEntry, scenariosDir: string, expand: string -> string): (s: Scenario)
    ensures s.name == KebabCase(e.name) && s.displayName == e.name && s.isDefault == e.isDefault
    ensures s.fcdFile.None? <==> e.fcdFile.None?
    ensures Given(e.fcdFile) ==> s.fcdFile == Some(PathJoin(scenariosDir, expand(e.fcdFile.value)))
    ensures !Given(e.fcdFile) ==> s.fcdFile == e.fcdFile
    ensures Given(e.laneDistrFile) ==> s.laneDistrFile == Some(PathJoin(scenariosDir, expand(e.laneDistrFile.value)))
    ensures !Given(e.laneDistrFile) ==> s.laneDistrFile == e.laneDistrFile
  {
    Scenario(
      e.name,
      KebabCase(e.name),
      e.isDefault,
      if Given(e.fcdFile) then ExpandPath(e.fcdFile, scenariosDir, expand) else e.fcdFile,
      if Given(e.laneDistrFile) then ExpandPath(e.laneDistrFile, scenariosDir, expand) else e.laneDistrFile)
  }

  /** `Scenario.is_live`: there is no recording, so SUMO has to run. A live
      scenario never replays a recording, but the converse fails on `""`. */
  predicate IsLive(s: Scenario): (live: bool)
    ensures live ==> !ReplaysRecording(s)
  {
    s.fcdFile.None?
  }

  /** The test `run_simulation` uses to pick the recorded feed over SUMO. */
  predicate ReplaysRecording(s: Scenario)
  {
    Given(s.fcdFile)
  }

  /** `is_live` with the truthiness test the replay loop uses. */
  predicate IsLiveCorrected(s: Scenario)
  {
    !Given(s.fcdFile)
  }

  /** An entry with `"fcd_file": ""` gives a scenario that is not live, so
      `start` does not launch SUMO, and that is not replayed either, so the
      loop asks the SUMO connection that was never opened for its next step. */
  lemma EmptyRecordingNeitherLiveNorReplayed(scenariosDir: string, expand: string -> string)
    ensures var s := FromConfigJson(ScenarioEntry("Demo", false, Some(""), None), scenariosDir, expand);
            !IsLive(s) && !ReplaysRecording(s)
  {
  }

  /** With the corrected test every scenario is either started live or
      replayed from its recording, never both and never neither. */
  lemma CorrectedLiveExcludesReplay(e: ScenarioEntry, scenariosDir: string, expand: string -> string)
    ensures var s := FromConfigJson(e, scenariosDir, expand);
            IsLiveCorrected(s) != ReplaysRecording(s)
    ensures var s := FromConfigJson(e, scenariosDir, expand);
            ReplaysRecording(s) ==> !IsLive(s)
  {
  }

  /* ---------------------------------------------------------------------- */
  /* Duplicate detection                                                    */
  /* ---------------------------------------------------------------------- */

  predicate Distinct(names: seq<string>)
  {
    forall i, j | 0 <= i < j < |names| :: names[i] != names[j]
  }

  function SetOf(names: seq<string>): set<string>
  {
    set n | n in names
  }

  lemma {:induction false} SetOfSize(names: seq<string>)
    ensures |SetOf(names)| <= |names|
    ensures |SetOf(names)| == |names| <==> Distinct(names)
  {
    if names != [] {
      var rest := names[1..];
      SetOfSize(rest);
      assert SetOf(names) == {names[0]} + SetOf(rest);
      if names[0] in rest {
        assert SetOf(names) == SetOf(rest);
        var j :| 0 <= j < |rest| && rest[j] == names[0];
        assert names[0] == names[j + 1];
      } else {
        assert |SetOf(names)| == 1 + |SetOf(rest)|;
        if Distinct(rest) {
          forall i, j | 0 <= i < j < |names| ensures names[i] != names[j] {
            if i > 0 { assert names[i] == rest[i - 1] && names[j] == rest[j - 1]; }
            else { assert names[j] == rest[j - 1]; }
          }
        }
      }
      if Distinct(names) {
        forall i, j | 0 <= i < j < |rest| ensures rest[i] != rest[j] {
          assert rest[i] == names[i + 1] && rest[j] == names[j + 1];
        }
      }
    }
  }

  /** The check of `load_scenarios_file`: `len(names) != len(set(names))`
      holds exactly when two names coincide. */
  function HasDuplicateNames(names: seq<string>): (duplicates: bool)
    ensures duplicates <==> !Distinct(names)
  {
    SetOfSize(names);
    |names| != |SetOf(names)|
  }

  /** The older copy's flag: it is named `duplicates` but is computed as
      `len(names) == len(set(names))`, so it holds exactly when the names are
      all different, and the error is raised when it is false. */
  function LegacyDuplicatesFlag(names: seq<string>): (duplicates: bool)
    ensures duplicates <==> Distinct(names)
  {
    SetOfSize(names);
    |names| == |SetOf(names)|
  }

  /* ---------------------------------------------------------------------- */
  /* The catalogue                                                          */
  /* ---------------------------------------------------------------------- */

  function KebabNames(entries: seq<ScenarioEntry>): (names: seq<string>)
    ensures |names| == |entries|
    ensures forall i | 0 <= i < |entries| :: names[i] == KebabCase(entries[i].name)
  {
    if entries == [] then [] else [KebabCase(entries[0].name)] + KebabNames(entries[1..])
  }

  /** `set([s.name for s in prev_scenarios.values()])` */
  function NamesOf(table: map<string, Scenario>): set<string>
  {
    set k | k in table :: table[k].name
  }

  /** Every scenario is stored under its own name, as the catalogue keeps it. */
  predicate WellKeyed(table: map<string, Scenario>)
  {
    forall k | k in table :: table[k].name == k
  }

  /** `[s for s in new_scenarios if to_kebab_case(s['name']) not in prev_names]` */
  function FreshEntries(entries: seq<ScenarioEntry>, prevNames: set<string>): (r: seq<ScenarioEntry>)
    ensures forall e | e in r :: e in entries && KebabCase(e.name) !in prevNames
    ensures forall e | e in entries && KebabCase(e.name) !in prevNames :: e in r
  {
    if entries == [] then []
    else
      (if KebabCase(entries[0].name) in prevNames then [] else [entries[0]])
      + FreshEntries(entries[1..], prevNames)
  }

  /** The table after `next_scenarios.update({s.name: s})` for each entry in turn. */
  function InsertAll(table: map<string, Scenario>, entries: seq<ScenarioEntry>, scenariosDir: string, expand: string -> string): map<string, Scenario>
  {
    if entries == [] then table
    else
      var last := entries[|entries| - 1];
      InsertAll(table, entries[..|entries| - 1], scenariosDir, expand)[KebabCase(last.name) := FromConfigJson(last, scenariosDir, expand)]
  }

  /** The kebab-case names of some entries. */
  function NameSet(entries: seq<ScenarioEntry>): set<string>
  {
    set e | e in entries :: KebabCase(e.name)
  }

  /** Inserting entries adds exactly their names to the table's keys. */
  lemma {:induction false} InsertAllKeys(table: map<string, Scenario>, entries: seq<ScenarioEntry>, scenariosDir: string, expand: string -> string)
    ensures InsertAll(table, entries, scenariosDir, expand).Keys == table.Keys + NameSet(entries)
  {
    if entries != [] {
      var init := entries[..|entries| - 1];
      InsertAllKeys(table, init, scenariosDir, expand);
      assert entries == init + [entries[|entries| - 1]];
      assert NameSet(entries) == NameSet(init) + {KebabCase(entries[|entries| - 1].name)};
    }
  }

  /** A key that no inserted entry names keeps its scenario. */
  lemma {:induction false} InsertAllKeeps(table: map<string, Scenario>, entries: seq<ScenarioEntry>, scenariosDir: string, expand: string -> string, k: string)
    requires k in table && k !in NameSet(entries)
    ensures k in InsertAll(table, entries, scenariosDir, expand)
    ensures InsertAll(table, entries, scenariosDir, expand)[k] == table[k]
  {
    if entries != [] {
      var init := entries[..|entries| - 1];
      assert NameSet(init) <= NameSet(entries) by {
        forall e | e in init ensures e in entries { }
      }
      assert entries[|entries| - 1] in entries;
      InsertAllKeeps(table, init, scenariosDir, expand, k);
    }
  }

  /** Inserting entries keeps every scenario under its own name. */
  lemma {:induction false} InsertAllWellKeyed(table: map<string, Scenario>, entries: seq<ScenarioEntry>, scenariosDir: string, expand: string -> string)
    requires WellKeyed(table)
    ensures WellKeyed(InsertAll(table, entries, scenariosDir, expand))
  {
    if entries != [] {
      InsertAllWellKeyed(table, entries[..|entries| - 1], scenariosDir, expand);
    }
  }

  /** The names of the fresh entries are the names not yet in use. */
  lemma FreshNames(entries: seq<ScenarioEntry>, prevNames: set<string>)
    ensures NameSet(FreshEntries(entries, prevNames)) == NameSet(entries) - prevNames
  {
    var r := FreshEntries(entries, prevNames);
    forall n | n in NameSet(entries) - prevNames ensures n in NameSet(r) {
      var e :| e in entries && KebabCase(e.name) == n;
      assert e in r;
    }
  }

  /** Merging fresh entries into a well-keyed table never replaces a scenario
      that was there, adds a scenario under every name of the file, and keeps
      the table well keyed. */
  lemma MergeOnlyAdds(table: map<string, Scenario>, entries: seq<ScenarioEntry>, scenariosDir: string, expand: string -> string)
    requires WellKeyed(table)
    ensures var merged := InsertAll(table, FreshEntries(entries, NamesOf(table)), scenariosDir, expand);
      && merged.Keys == table.Keys + NameSet(entries)
      && (forall k | k in table :: merged[k] == table[k])
      && WellKeyed(merged)
  {
    var newEntries := FreshEntries(entries, NamesOf(table));
    assert NamesOf(table) == table.Keys by {
      forall k | k in table ensures k in NamesOf(table) { assert table[k].name == k; }
    }
    FreshNames(entries, NamesOf(table));
    InsertAllKeys(table, newEntries, scenariosDir, expand);
    InsertAllWellKeyed(table, newEntries, scenariosDir, expand);
    forall k | k in table
      ensures InsertAll(table, newEntries, scenariosDir, expand)[k] == table[k]
    {
      InsertAllKeeps(table, newEntries, scenariosDir, expand, k);
    }
  }

  /** Why a scenarios file is refused. */
  datatype LoadError = DuplicateKebabName

  /** The table of scenarios, keyed by kebab-case name (`scenarios`). The
      caller's dict is updated in place, which is why it is an object. */
  class ScenarioTable {
    var scenarios: map<string, Scenario>

    constructor (initial: map<string, Scenario>)
      ensures scenarios == initial
    {
      scenarios := initial;
    }

    /** The loop of `load_scenarios_file`: each scenario is stored under its
        name, in the order of the file. */
    method InsertEach(updates: seq<ScenarioEntry>, scenariosDir: string, expand: string -> string)
      modifies this
      ensures scenarios == InsertAll(old(scenarios), updates, scenariosDir, expand)
    {
      var i := 0;
      while i < |updates|
        invariant 0 <= i <= |updates|
        invariant scenarios == InsertAll(old(scenarios), updates[..i], scenariosDir, expand)
      {
        var scenario := FromConfigJson(updates[i], scenariosDir, expand);
        assert updates[..i + 1][..i] == updates[..i];
        scenarios := scenarios[scenario.name := scenario];
        i := i + 1;
      }
      assert updates[..i] == updates;
    }

    /** `load_scenarios_file(prev_scenarios, scenarios_file)`; `file` is `None`
        when no file is given and otherwise holds the parsed entries. */
    method LoadScenariosFile(file: Option<seq<ScenarioEntry>>, scenariosDir: string, expand: string -> string)
      returns (r: Result<(), LoadError>)
      modifies this
      ensures file.None? ==> r.Success? && scenarios == old(scenarios)
      ensures r.Failure? <==> file.Some? && !Distinct(KebabNames(file.value))
      ensures r.Failure? ==> scenarios == old(scenarios)
      ensures file.Some? && r.Success? ==>
        scenarios == InsertAll(old(scenarios), FreshEntries(file.value, NamesOf(old(scenarios))), scenariosDir, expand)
    {
      if file.None? {
        return Success(());
      }
      var entries := file.value;
      var names := KebabNames(entries);
      if HasDuplicateNames(names) {
        return Failure(DuplicateKebabName);
      }
      var prevNames := NamesOf(scenarios);
      var updates := FreshEntries(entries, prevNames);
      InsertEach(updates, scenariosDir, expand);
      return Success(());
    }
  }

  /* ---------------------------------------------------------------------- */
  /* The default scenario                                                   */
  /* ---------------------------------------------------------------------- */

  datatype DefaultError =
    | MultipleDefaults(names: set<string>)  // the ValueError
    | NoDefault                            // `scenarios.keys()[0]` is a TypeError on Python 3

  function Defaults(table: map<string, Scenario>): set<string>
  {
    set k | k in table && table[k].isDefault
  }

  /** `get_default_scenario_name(scenarios)`: the key of the one scenario
      marked default; an error when several are, and an error when none is. */
  function GetDefaultScenarioName(table: map<string, Scenario>): (r: Result<string, DefaultError>)
    ensures r.Success? <==> |Defaults(table)| == 1
    ensures r.Success? ==> r.value in table && table[r.value].isDefault
    ensures r.Success? ==> forall k | k in table && table[k].isDefault :: k == r.value
    ensures r == Failure(NoDefault) <==> Defaults(table) == {}
  {
    var defaults := Defaults(table);
    if |defaults| > 1 then Failure(MultipleDefaults(defaults))
    else if |defaults| == 0 then Failure(NoDefault)
    else
      var k :| k in defaults;
      assert defaults == {k} by {
        assert |defaults - {k}| == 0;
      }
      assert forall j | j in table && table[j].isDefault :: j in defaults;
      Success(k)
  }

  /* ---------------------------------------------------------------------- */
  /* The .sumocfg configuration                                             */
  /* ---------------------------------------------------------------------- */

  /** An element parsed by `xmltodict` whose `value` attribute is read. */
  datatype Setting = Setting(value: string)

  /** `additional-files` parses to nothing, to one dict (a single tag) or to a
      list of dicts (several tags). */
  datatype AdditionalFiles = NoAdditional | OneAdditional(setting: Setting) | ManyAdditional(settings: seq<Setting>)

  datatype SumoConfig = SumoConfig(
    netFile: Setting,
    additional: AdditionalFiles,
    guiOnly: Option<map<string, Setting>>)

  /** The additional files as a list, as the code normalises them, or
      `None` when the entry is falsy. */
  function AdditionalList(a: AdditionalFiles): Option<seq<Setting>>
  {
    match a
    case NoAdditional => None
    case OneAdditional(s) => Some([s])
    case ManyAdditional(ss) => if ss == [] then None else Some(ss)
  }

  /** Each piece of `value` split on runs of spaces and commas, joined to `dir`. */
  function JoinPieces(dir: string, pieces: seq<string>): (paths: seq<string>)
    ensures |paths| == |pieces|
  {
    if pieces == [] then [] else JoinPieces(dir, pieces[..|pieces| - 1]) + [PathJoin(dir, pieces[|pieces| - 1])]
  }

  lemma {:induction false} JoinPiecesAt(dir: string, pieces: seq<string>, k: nat)
    requires k < |pieces|
    ensures JoinPieces(dir, pieces)[k] == PathJoin(dir, pieces[k])
  {
    if k < |pieces| - 1 {
      JoinPiecesAt(dir, pieces[..|pieces| - 1], k);
    }
  }

  /** The additional file paths of a list of `additional-files` tags, tag by tag. */
  function AdditionalPaths(dir: string, settings: seq<Setting>): seq<string>
  {
    if settings == [] then []
    else AdditionalPaths(dir, settings[..|settings| - 1]) + JoinPieces(dir, SplitRuns(settings[|settings| - 1].value))
  }

  /** A single tag whose value lists files separated by spaces or commas gives
      one path per listed name, in order, each joined to the configuration's
      directory; no listed name holds a space or a comma. */
  lemma OneTagPaths(dir: string, value: string)
    ensures var paths := AdditionalPaths(dir, [Setting(value)]);
      && |paths| == |SplitRuns(value)|
      && (forall k | 0 <= k < |paths| :: paths[k] == PathJoin(dir, SplitRuns(value)[k]) && SepFree(SplitRuns(value)[k]))
  {
    assert [Setting(value)][..0] == [];
    SplitRunsPieces(value);
    forall k | 0 <= k < |SplitRuns(value)| ensures JoinPieces(dir, SplitRuns(value))[k] == PathJoin(dir, SplitRuns(value)[k]) {
      JoinPiecesAt(dir, SplitRuns(value), k);
    }
  }

  /** The inner loop of `parse_config_file`: every listed name of one tag,
      joined to the configuration's directory, in order. */
  method JoinEach(dir: string, values: seq<string>) returns (paths: seq<string>)
    ensures paths == JoinPieces(dir, values)
  {
    paths := [];
    var j := 0;
    while j < |values|
      invariant 0 <= j <= |values|
      invariant paths == JoinPieces(dir, values[..j])
    {
      assert values[..j + 1][..j] == values[..j];
      paths := paths + [PathJoin(dir, values[j])];
      j := j + 1;
    }
    assert values[..j] == values;
  }

  /** `parse_config_file(config_dir, config)`: the network file, the additional
      files (or `None` when there are none) and the GUI settings file (only
      when `gui_only` names one), each joined to `configDir`. */
  method ParseConfigFile(configDir: string, config: SumoConfig)
    returns (netFile: string, additionalFiles: Option<seq<string>>, settingsFile: Option<string>)
    ensures netFile == PathJoin(configDir, config.netFile.value)
    ensures additionalFiles.None? <==> AdditionalList(config.additional).None?
    ensures additionalFiles.Some? ==> additionalFiles.value == AdditionalPaths(configDir, AdditionalList(config.additional).value)
    ensures settingsFile.Some? <==> config.guiOnly.Some? && "gui-settings-file" in config.guiOnly.value
    ensures settingsFile.Some? ==> settingsFile.value == PathJoin(configDir, config.guiOnly.value["gui-settings-file"].value)
  {
    netFile := PathJoin(configDir, config.netFile.value);
    var additionals := AdditionalList(config.additional);
    if additionals.Some? {
      var tags := additionals.value;
      var files: seq<string> := [];
      var i := 0;
      while i < |tags|
        invariant 0 <= i <= |tags|
        invariant files == AdditionalPaths(configDir, tags[..i])
      {
        var values := SplitRuns(tags[i].value);
        var joined := JoinEach(configDir, values);
        files := files + joined;
        assert tags[..i + 1][..i] == tags[..i];
        i := i + 1;
      }
      assert tags[..i] == tags;
      additionalFiles := Some(files);
    } else {
      additionalFiles := None;
    }
    settingsFile := None;
    if config.guiOnly.Some? && "gui-settings-file" in config.guiOnly.value {
      settingsFile := Some(PathJoin(configDir, config.guiOnly.value["gui-settings-file"].value));
    }
  }
}
