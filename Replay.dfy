/** Replaying a recorded run: grouping the floating car data (FCD) event
    stream into timesteps, turning one recorded vehicle into the record the
    client expects, keying the records of a timestep by vehicle id, counting
    them per vehicle class, and grouping the lines of a lane distribution
    file. The XML and literal parsers are foreign; their results are inputs. */
module Replay {
  import opened Wrappers
  import opened Text
  import opened Deltas

  /* ---------------------------------------------------------------------- */
  /* The FCD event stream                                                   */
  /* ---------------------------------------------------------------------- */

  /** The attributes of an XML element. */
  type Attrs = map<string, string>

  datatype EventKind = Start | End

  /** One `(event, elem)` pair of `ET.iterparse`. */
  datatype FcdEvent = FcdEvent(kind: EventKind, tag: string, attrib: Attrs)

  predicate IsVehicleEnd(e: FcdEvent) { e.tag == "vehicle" && e.kind == End }

  predicate IsTimestepEnd(e: FcdEvent) { e.tag == "timestep" && e.kind == End }

  /** One yielded item: the timestep's `time` and its vehicles' attributes. */
  datatype Group = Group(time: string, vehicles: seq<Attrs>)

  /** The generator's state: the vehicle buffer, the groups yielded so far, and
      whether it has raised (a closing `timestep` without `time`). */
  datatype FcdScan = FcdScan(buffer: seq<Attrs>, groups: seq<Group>, failed: bool)

  function FcdStep(s: FcdScan, e: FcdEvent): FcdScan
  {
    if IsVehicleEnd(e) then s.(buffer := s.buffer + [e.attrib])
    else if IsTimestepEnd(e) then
      if "time" in e.attrib then FcdScan([], s.groups + [Group(e.attrib["time"], s.buffer)], false)
      else s.(failed := true)
    else s
  }

  /** The events folded into the state, stopping at the first failure. */
  function FcdScanFrom(s: FcdScan, events: seq<FcdEvent>): FcdScan
    decreases |events|
  {
    if events == [] || s.failed then s else FcdScanFrom(FcdStep(s, events[0]), events[1..])
  }

  const FcdStart := FcdScan([], [], false)

  /** `parse_fcd`: the groups it yields, in order, and whether it then raised. */
  method ParseFcd(events: seq<FcdEvent>) returns (groups: seq<Group>, failed: bool)
    ensures groups == FcdScanFrom(FcdStart, events).groups
    ensures failed == FcdScanFrom(FcdStart, events).failed
  {
    var timestep: seq<Attrs> := [];
    groups := [];
    failed := false;
    var i := 0;
    while i < |events|
      invariant 0 <= i <= |events|
      invariant FcdScanFrom(FcdScan(timestep, groups, false), events[i..]) == FcdScanFrom(FcdStart, events)
    {
      var e := events[i];
      assert events[i..][1..] == events[i + 1..];
      if IsVehicleEnd(e) {
        timestep := timestep + [e.attrib];
      } else if IsTimestepEnd(e) {
        if "time" !in e.attrib {
          failed := true;
          return;
        }
        groups := groups + [Group(e.attrib["time"], timestep)];
        timestep := [];
      }
      i := i + 1;
    }
  }

  /** The attributes of the closed `vehicle` elements, in order. */
  function Vehicles(events: seq<FcdEvent>): seq<Attrs>
  {
    if events == [] then []
    else (if IsVehicleEnd(events[0]) then [events[0].attrib] else []) + Vehicles(events[1..])
  }

  /** The position of the first closing `timestep`, or the length. */
  function FirstTimestepEnd(events: seq<FcdEvent>): (k: nat)
    ensures k <= |events|
    ensures k < |events| ==> IsTimestepEnd(events[k])
    ensures forall j | 0 <= j < k :: !IsTimestepEnd(events[j])
  {
    if events == [] then 0
    else if IsTimestepEnd(events[0]) then 0
    else 1 + FirstTimestepEnd(events[1..])
  }

  /** Every closing `timestep` carries a `time`. */
  predicate WellTimed(events: seq<FcdEvent>)
  {
    forall i | 0 <= i < |events| && IsTimestepEnd(events[i]) :: "time" in events[i].attrib
  }

  datatype Segmented = Segmented(groups: seq<Group>, pending: seq<Attrs>)

  /** The stream cut at each closing `timestep`: the first group is the
      vehicles closed before the first closing `timestep`, labelled with its
      time, and the rest is the same over what follows; the vehicles closed
      after the last one are left pending. */
  function Segments(events: seq<FcdEvent>): Segmented
    requires WellTimed(events)
    decreases |events|
  {
    var k := FirstTimestepEnd(events);
    if k == |events| then Segmented([], Vehicles(events))
    else
      WellTimedDrop(events, k + 1);
      var rest := Segments(events[k + 1..]);
      Segmented([Group(events[k].attrib["time"], Vehicles(events[..k]))] + rest.groups, rest.pending)
  }

  /** The scan state after `events`, started with buffer `b` and groups `g`,
      in terms of the segments of `events`. */
  function Shifted(b: seq<Attrs>, g: seq<Group>, seg: Segmented): FcdScan
  {
    if seg.groups == [] then FcdScan(b + seg.pending, g, false)
    else FcdScan(seg.pending, g + [Group(seg.groups[0].time, b + seg.groups[0].vehicles)] + seg.groups[1..], false)
  }

  lemma WellTimedDrop(events: seq<FcdEvent>, n: nat)
    requires n <= |events| && WellTimed(events)
    ensures WellTimed(events[n..])
  {
    forall i | 0 <= i < |events| - n && IsTimestepEnd(events[n + i])
      ensures "time" in events[n..][i].attrib
    {
      assert events[n..][i] == events[n + i];
    }
  }

  lemma WellTimedTail(events: seq<FcdEvent>)
    requires events != [] && WellTimed(events)
    ensures WellTimed(events[1..])
  {
    forall i | 0 <= i < |events[1..]| && IsTimestepEnd(events[1..][i])
      ensures "time" in events[1..][i].attrib
    {
      assert events[1..][i] == events[i + 1];
    }
  }

  /** Removing a first event that closes no timestep moves the first cut one
      place down, and the vehicles before it lose at most that event. */
  lemma SegmentsTail(events: seq<FcdEvent>)
    requires events != [] && WellTimed(events) && !IsTimestepEnd(events[0])
    ensures WellTimed(events[1..])
    ensures var x := if IsVehicleEnd(events[0]) then [events[0].attrib] else [];
      var s, t := Segments(events), Segments(events[1..]);
      && (t.groups == [] ==> s.groups == [] && s.pending == x + t.pending)
      && (t.groups != [] ==>
            s.pending == t.pending
            && s.groups == [Group(t.groups[0].time, x + t.groups[0].vehicles)] + t.groups[1..])
  {
    WellTimedTail(events);
    var tail := events[1..];
    var k := FirstTimestepEnd(events);
    assert k == 1 + FirstTimestepEnd(tail);
    if k < |events| {
      assert events[..k][1..] == tail[..k - 1];
      assert tail[k - 1 + 1..] == events[k + 1..];
      assert events[k] == tail[k - 1];
    }
  }

  /** The step of `ScanMatchesSegments` for a first event that closes a
      timestep, given the claim for the rest of the stream. */
  lemma {:induction false} ScanTimestepStep(b: seq<Attrs>, g: seq<Group>, events: seq<FcdEvent>)
    requires events != [] && WellTimed(events) && IsTimestepEnd(events[0])
    requires WellTimed(events[1..])
    requires FcdScanFrom(FcdScan([], g + [Group(events[0].attrib["time"], b)], false), events[1..])
          == Shifted([], g + [Group(events[0].attrib["time"], b)], Segments(events[1..]))
    ensures FcdScanFrom(FcdScan(b, g, false), events) == Shifted(b, g, Segments(events))
  {
    var e := events[0];
    var tail := events[1..];
    assert "time" in e.attrib;
    assert FirstTimestepEnd(events) == 0;
    assert events[..0] == [];
    var t := Segments(tail);
    var g' := g + [Group(e.attrib["time"], b)];
    assert Segments(events) == Segmented([Group(e.attrib["time"], [])] + t.groups, t.pending);
    if t.groups == [] {
      assert [] + t.pending == t.pending;
      assert b + [] == b;
      assert ([Group(e.attrib["time"], [])] + t.groups)[1..] == [];
      assert g' + [] == g';
    } else {
      assert [] + t.groups[0].vehicles == t.groups[0].vehicles;
      assert b + [] == b;
      assert ([Group(e.attrib["time"], [])] + t.groups)[1..] == t.groups;
      assert Group(t.groups[0].time, [] + t.groups[0].vehicles) == t.groups[0];
      assert [t.groups[0]] + t.groups[1..] == t.groups;
      assert g' + [t.groups[0]] + t.groups[1..] == g' + t.groups;
    }
  }

  /** Moving the vehicles `x` from the start buffer into the first segment
      leaves the shifted state unchanged. */
  lemma ShiftedMove(b: seq<Attrs>, x: seq<Attrs>, g: seq<Group>, s: Segmented, t: Segmented)
    requires t.groups == [] ==> s.groups == [] && s.pending == x + t.pending
    requires t.groups != [] ==>
      s.pending == t.pending && s.groups == [Group(t.groups[0].time, x + t.groups[0].vehicles)] + t.groups[1..]
    ensures Shifted(b + x, g, t) == Shifted(b, g, s)
  {
    if t.groups == [] {
      assert b + x + t.pending == b + (x + t.pending);
    } else {
      assert b + x + t.groups[0].vehicles == b + (x + t.groups[0].vehicles);
    }
  }

  /** The step of `ScanMatchesSegments` for a first event that closes no
      timestep, given the claim for the rest of the stream. */
  lemma {:induction false} ScanOtherStep(b: seq<Attrs>, g: seq<Group>, events: seq<FcdEvent>)
    requires events != [] && WellTimed(events) && !IsTimestepEnd(events[0])
    requires WellTimed(events[1..])
    requires var x := if IsVehicleEnd(events[0]) then [events[0].attrib] else [];
      FcdScanFrom(FcdScan(b + x, g, false), events[1..]) == Shifted(b + x, g, Segments(events[1..]))
    ensures FcdScanFrom(FcdScan(b, g, false), events) == Shifted(b, g, Segments(events))
  {
    var e := events[0];
    var x := if IsVehicleEnd(e) then [e.attrib] else [];
    assert FcdStep(FcdScan(b, g, false), e) == FcdScan(b + x, g, false);
    assert FcdScanFrom(FcdScan(b, g, false), events) == FcdScanFrom(FcdScan(b + x, g, false), events[1..]);
    SegmentsTail(events);
    ShiftedMove(b, x, g, Segments(events), Segments(events[1..]));
  }

  /** The buffered scan and the cut-up stream agree, from any starting buffer. */
  lemma {:induction false} ScanMatchesSegments(b: seq<Attrs>, g: seq<Group>, events: seq<FcdEvent>)
    requires WellTimed(events)
    ensures FcdScanFrom(FcdScan(b, g, false), events) == Shifted(b, g, Segments(events))
    decreases |events|
  {
    if events == [] {
      assert b + [] == b;
    } else {
      var e := events[0];
      WellTimedTail(events);
      if IsTimestepEnd(e) {
        ScanMatchesSegments([], g + [Group(e.attrib["time"], b)], events[1..]);
        ScanTimestepStep(b, g, events);
      } else {
        var x := if IsVehicleEnd(e) then [e.attrib] else [];
        ScanMatchesSegments(b + x, g, events[1..]);
        ScanOtherStep(b, g, events);
      }
    }
  }

  /** On a stream whose closing `timestep`s all carry a `time`, `parse_fcd`
      yields one group per closing `timestep`, holding exactly the vehicles
      closed since the previous one, in order; the vehicles closed after the
      last one are never yielded. */
  lemma ParseFcdSegments(events: seq<FcdEvent>)
    requires WellTimed(events)
    ensures FcdScanFrom(FcdStart, events) == FcdScan(Segments(events).pending, Segments(events).groups, false)
  {
    ScanMatchesSegments([], [], events);
    var s := Segments(events);
    if s.groups == [] {
      assert [] + s.pending == s.pending;
    } else {
      assert [] + s.groups[0].vehicles == s.groups[0].vehicles;
      assert [] + [s.groups[0]] + s.groups[1..] == s.groups;
    }
  }

  /** `parse_fcd` raises exactly when some closing `timestep` has no `time`. */
  lemma {:induction false} ParseFcdFails(s: FcdScan, events: seq<FcdEvent>)
    requires !s.failed
    ensures FcdScanFrom(s, events).failed <==> !WellTimed(events)
    decreases |events|
  {
    if events != [] {
      var e := events[0];
      if IsTimestepEnd(e) && "time" !in e.attrib {
        assert !WellTimed(events);
      } else {
        ParseFcdFails(FcdStep(s, e), events[1..]);
        if WellTimed(events) {
          WellTimedTail(events);
        } else {
          var i :| 0 <= i < |events| && IsTimestepEnd(events[i]) && "time" !in events[i].attrib;
          assert events[1..][i - 1] == events[i];
        }
      }
    }
  }

  /* ---------------------------------------------------------------------- */
  /* One recorded vehicle                                                   */
  /* ---------------------------------------------------------------------- */

  /** What `float(...)` can produce: a number or NaN. */
  type Float = v: Value | v.Num? || v.NaN? witness NaN

  /** The exceptions of `read_fcd_vehicle`: a `KeyError` or a `ValueError`. */
  datatype FcdError = MissingAttribute(name: string) | NotANumber(name: string)

  /** `float(vehicle[key])`; `parseFloat` stands for Python's `float` on text. */
  function Number(vehicle: Attrs, key: string, parseFloat: string -> Option<Float>): (r: Result<Value, FcdError>)
    ensures r.Success? <==> key in vehicle && parseFloat(vehicle[key]).Some?
    ensures r.Success? ==> r.value == parseFloat(vehicle[key]).value
    ensures r.Failure? ==> r.error == (if key in vehicle then NotANumber(key) else MissingAttribute(key))
  {
    if key !in vehicle then Failure(MissingAttribute(key))
    else match parseFloat(vehicle[key])
      case None => Failure(NotANumber(key))
      case Some(v) => Success(v)
  }

  /** `parse_color(vehicle)`: the comma-separated colour components, each
      stripped of surrounding whitespace, when the vehicle has a colour. */
  function ParseColor(vehicle: Attrs): (r: Record)
    ensures "color" in r <==> "color" in vehicle
    ensures r.Keys <= {"color"}
  {
    if "color" in vehicle then
      var parts := Split(vehicle["color"], ',');
      map["color" := TextList(seq(|parts|, i requires 0 <= i < |parts| => Strip(parts[i])))]
    else map[]
  }

  /** Each colour component is a whole comma-separated part of the attribute,
      holds no comma and does not start or end with whitespace. */
  lemma ColorComponents(vehicle: Attrs)
    requires "color" in vehicle
    ensures var items := ParseColor(vehicle)["color"].items;
      && |items| == |Split(vehicle["color"], ',')|
      && forall i | 0 <= i < |items| ::
           && items[i] == Strip(Split(vehicle["color"], ',')[i])
           && ',' !in items[i]
           && (items[i] != [] ==> !IsSpace(items[i][0]) && !IsSpace(items[i][|items[i]| - 1]))
  {
    var parts := Split(vehicle["color"], ',');
    var items := ParseColor(vehicle)["color"].items;
    SplitPartsFree(vehicle["color"], ',');
    forall i | 0 <= i < |items|
      ensures ',' !in items[i]
      ensures items[i] != [] ==> !IsSpace(items[i][0]) && !IsSpace(items[i][|items[i]| - 1])
    {
      var a, b := StripSlice(parts[i]);
    }
  }

  /** The fields every recorded vehicle gets besides an optional colour. */
  const FcdFields: set<string> := {"x", "y", "z", "speed", "angle", "type", "vClass", "length", "width", "signals"}

  /** `DEFAULT_VEHTYPE` is renamed to `car`; every other type is kept. */
  function VehicleType(t: string): string
  {
    if t == "DEFAULT_VEHTYPE" then "car" else t
  }

  /** `read_fcd_vehicle(vehicle)`: the record of one recorded vehicle, or the
      exception its evaluation raises first (the type, then `x`, `y`,
      `speed` and `angle`, in that order). */
  function ReadFcdVehicle(vehicle: Attrs, parseFloat: string -> Option<Float>): (r: Result<Record, FcdError>)
    ensures "type" !in vehicle ==> r == Failure(MissingAttribute("type"))
    ensures "type" in vehicle && Number(vehicle, "x", parseFloat).Failure? ==>
      r == Failure(Number(vehicle, "x", parseFloat).error)
    ensures ("type" in vehicle && Number(vehicle, "x", parseFloat).Success?
      && Number(vehicle, "y", parseFloat).Failure?) ==>
      r == Failure(Number(vehicle, "y", parseFloat).error)
    ensures ("type" in vehicle && Number(vehicle, "x", parseFloat).Success?
      && Number(vehicle, "y", parseFloat).Success? && Number(vehicle, "speed", parseFloat).Failure?) ==>
      r == Failure(Number(vehicle, "speed", parseFloat).error)
    ensures ("type" in vehicle && Number(vehicle, "x", parseFloat).Success?
      && Number(vehicle, "y", parseFloat).Success? && Number(vehicle, "speed", parseFloat).Success?
      && "angle" !in vehicle) ==>
      r == Failure(MissingAttribute("angle"))
    ensures r.Success? <==>
      && "type" in vehicle && "angle" in vehicle
      && Number(vehicle, "x", parseFloat).Success?
      && Number(vehicle, "y", parseFloat).Success?
      && Number(vehicle, "speed", parseFloat).Success?
    ensures r.Success? ==>
      && r.value.Keys == FcdFields + (if "color" in vehicle then {"color"} else {})
      && r.value["x"] == parseFloat(vehicle["x"]).value
      && r.value["y"] == parseFloat(vehicle["y"]).value
      && r.value["speed"] == parseFloat(vehicle["speed"]).value
      && r.value["z"] == Num(0.0)
      && r.value["angle"] == Text(vehicle["angle"])
      && r.value["type"] == Text(VehicleType(vehicle["type"]))
      && r.value["vClass"] == Text(if "vClass" in vehicle then vehicle["vClass"] else "passenger")
      && r.value["length"] == Num(4.5) && r.value["width"] == Num(1.8) && r.value["signals"] == Num(0.0)
      && ("color" in vehicle ==> r.value["color"] == ParseColor(vehicle)["color"])
  {
    if "type" !in vehicle then Failure(MissingAttribute("type"))
    else
      var x := Number(vehicle, "x", parseFloat);
      if x.Failure? then Failure(x.error) else
      var y := Number(vehicle, "y", parseFloat);
      if y.Failure? then Failure(y.error) else
      var speed := Number(vehicle, "speed", parseFloat);
      if speed.Failure? then Failure(speed.error) else
      if "angle" !in vehicle then Failure(MissingAttribute("angle")) else
      Success(map[
        "x" := x.value,
        "y" := y.value,
        "z" := Num(0.0),
        "speed" := speed.value,
        "angle" := Text(vehicle["angle"]),
        "type" := Text(VehicleType(vehicle["type"])),
        "vClass" := Text(if "vClass" in vehicle then vehicle["vClass"] else "passenger"),
        "length" := Num(4.5),
        "width" := Num(1.8),
        "signals" := Num(0.0)] + ParseColor(vehicle))
  }

  /** A recorded type becomes `car` exactly when it is `DEFAULT_VEHTYPE` or
      already `car`. */
  lemma VehicleTypeRenaming(t: string)
    ensures VehicleType(t) == "car" <==> t == "DEFAULT_VEHTYPE" || t == "car"
    ensures t != "DEFAULT_VEHTYPE" ==> VehicleType(t) == t
  {
  }

  /** The older `read_fcd_vehicle`: the type and class of the recording are
      ignored and no colour is read. It raises for the first of `x`, `y`,
      `speed` and `angle` that is missing or, for the first three, not a
      number. */
  function LegacyReadFcdVehicle(vehicle: Attrs, parseFloat: string -> Option<Float>): (r: Result<Record, FcdError>)
    ensures Number(vehicle, "x", parseFloat).Failure? ==>
      r == Failure(Number(vehicle, "x", parseFloat).error)
    ensures Number(vehicle, "x", parseFloat).Success? && Number(vehicle, "y", parseFloat).Failure? ==>
      r == Failure(Number(vehicle, "y", parseFloat).error)
    ensures (Number(vehicle, "x", parseFloat).Success? && Number(vehicle, "y", parseFloat).Success?
      && Number(vehicle, "speed", parseFloat).Failure?) ==>
      r == Failure(Number(vehicle, "speed", parseFloat).error)
    ensures (Number(vehicle, "x", parseFloat).Success? && Number(vehicle, "y", parseFloat).Success?
      && Number(vehicle, "speed", parseFloat).Success? && "angle" !in vehicle) ==>
      r == Failure(MissingAttribute("angle"))
    ensures r.Success? <==>
      && "angle" in vehicle
      && Number(vehicle, "x", parseFloat).Success?
      && Number(vehicle, "y", parseFloat).Success?
      && Number(vehicle, "speed", parseFloat).Success?
    ensures r.Success? ==>
      && r.value.Keys == FcdFields
      && r.value["x"] == parseFloat(vehicle["x"]).value
      && r.value["y"] == parseFloat(vehicle["y"]).value
      && r.value["speed"] == parseFloat(vehicle["speed"]).value
      && r.value["angle"] == Text(vehicle["angle"])
      && r.value["type"] == Text("passenger2a") && r.value["vClass"] == Text("passenger")
      && r.value["z"] == Num(0.0) && r.value["length"] == Num(4.5)
      && r.value["width"] == Num(1.8) && r.value["signals"] == Num(0.0)
  {
    var x := Number(vehicle, "x", parseFloat);
    if x.Failure? then Failure(x.error) else
    var y := Number(vehicle, "y", parseFloat);
    if y.Failure? then Failure(y.error) else
    var speed := Number(vehicle, "speed", parseFloat);
    if speed.Failure? then Failure(speed.error) else
    if "angle" !in vehicle then Failure(MissingAttribute("angle")) else
    Success(map[
      "x" := x.value,
      "y" := y.value,
      "z" := Num(0.0),
      "speed" := speed.value,
      "angle" := Text(vehicle["angle"]),
      "type" := Text("passenger2a"),
      "length" := Num(4.5),
      "width" := Num(1.8),
      "signals" := Num(0.0),
      "vClass" := Text("passenger")])
  }

  /** Two recorded vehicles that differ only in their type, class and colour
      give the same record to the older reader. */
  lemma LegacyIgnoresTypeAndClass(v: Attrs, w: Attrs, parseFloat: string -> Option<Float>)
    requires forall k | k in v && k !in {"type", "vClass", "color"} :: k in w && w[k] == v[k]
    requires forall k | k in w && k !in {"type", "vClass", "color"} :: k in v
    ensures LegacyReadFcdVehicle(v, parseFloat) == LegacyReadFcdVehicle(w, parseFloat)
  {
    assert Number(v, "x", parseFloat) == Number(w, "x", parseFloat);
    assert Number(v, "y", parseFloat) == Number(w, "y", parseFloat);
    assert Number(v, "speed", parseFloat) == Number(w, "speed", parseFloat);
  }

  /* ---------------------------------------------------------------------- */
  /* A timestep's records                                                   */
  /* ---------------------------------------------------------------------- */

  function ReadVehicle(vehicle: Attrs, parseFloat: string -> Option<Float>, legacy: bool): Result<Record, FcdError>
  {
    if legacy then LegacyReadFcdVehicle(vehicle, parseFloat) else ReadFcdVehicle(vehicle, parseFloat)
  }

  function Ids(vehicles: seq<Attrs>): set<string>
  {
    set v | v in vehicles && "id" in v :: v["id"]
  }

  /** `{vehicle['id']: read_fcd_vehicle(vehicle) for vehicle in vehicles}`
      continued from `acc`: each key is read before its value, and a later
      vehicle with the same id overwrites an earlier one. */
  function RecordsFrom(acc: Snapshot, vehicles: seq<Attrs>, parseFloat: string -> Option<Float>, legacy: bool): (r: Result<Snapshot, FcdError>)
    ensures r.Success? ==> r.value.Keys == acc.Keys + Ids(vehicles)
    ensures r.Success? <==> forall v | v in vehicles :: "id" in v && ReadVehicle(v, parseFloat, legacy).Success?
    decreases |vehicles|
  {
    if vehicles == [] then Success(acc)
    else
      var v := vehicles[0];
      if "id" !in v then Failure(MissingAttribute("id"))
      else match ReadVehicle(v, parseFloat, legacy)
        case Failure(e) => Failure(e)
        case Success(record) =>
          IdsCons(vehicles);
          RecordsFrom(acc[v["id"] := record], vehicles[1..], parseFloat, legacy)
  }

  lemma IdsCons(vehicles: seq<Attrs>)
    requires vehicles != [] && "id" in vehicles[0]
    ensures Ids(vehicles) == {vehicles[0]["id"]} + Ids(vehicles[1..])
    ensures forall w :: w in vehicles <==> w == vehicles[0] || w in vehicles[1..]
  {
    assert vehicles == [vehicles[0]] + vehicles[1..];
  }

  /** The records of one timestep, keyed by vehicle id. */
  function RecordsById(vehicles: seq<Attrs>, parseFloat: string -> Option<Float>, legacy: bool): Result<Snapshot, FcdError>
  {
    RecordsFrom(map[], vehicles, parseFloat, legacy)
  }

  /** The record under an id is the one read from the last vehicle with that id. */
  lemma {:induction false} RecordsLastWins(acc: Snapshot, vehicles: seq<Attrs>, parseFloat: string -> Option<Float>, legacy: bool, i: nat)
    requires RecordsFrom(acc, vehicles, parseFloat, legacy).Success?
    requires i < |vehicles|
    requires "id" in vehicles[i] && vehicles[i]["id"] !in Ids(vehicles[i + 1..])
    ensures "id" in vehicles[i] && ReadVehicle(vehicles[i], parseFloat, legacy).Success?
    ensures RecordsFrom(acc, vehicles, parseFloat, legacy).value[vehicles[i]["id"]] == ReadVehicle(vehicles[i], parseFloat, legacy).value
    decreases |vehicles|
  {
    var v := vehicles[0];
    assert v in vehicles && vehicles[i] in vehicles;
    var acc' := acc[v["id"] := ReadVehicle(v, parseFloat, legacy).value];
    if i == 0 {
      assert vehicles[1..] == vehicles[i + 1..];
      RecordsKeep(acc', vehicles[1..], parseFloat, legacy, v["id"]);
    } else {
      assert vehicles[1..][i - 1 + 1..] == vehicles[i + 1..];
      assert vehicles[1..][i - 1] == vehicles[i];
      RecordsLastWins(acc', vehicles[1..], parseFloat, legacy, i - 1);
    }
  }

  /** Every record read carries a vehicle class. */
  lemma {:induction false} RecordsClassed(acc: Snapshot, vehicles: seq<Attrs>, parseFloat: string -> Option<Float>, legacy: bool)
    requires Classed(acc)
    requires RecordsFrom(acc, vehicles, parseFloat, legacy).Success?
    ensures Classed(RecordsFrom(acc, vehicles, parseFloat, legacy).value)
    decreases |vehicles|
  {
    if vehicles != [] {
      var v := vehicles[0];
      var record := ReadVehicle(v, parseFloat, legacy).value;
      assert "vClass" in record;
      RecordsClassed(acc[v["id"] := record], vehicles[1..], parseFloat, legacy);
    }
  }

  /** An id that no later vehicle carries keeps the record it had. */
  lemma {:induction false} RecordsKeep(acc: Snapshot, vehicles: seq<Attrs>, parseFloat: string -> Option<Float>, legacy: bool, id: string)
    requires RecordsFrom(acc, vehicles, parseFloat, legacy).Success?
    requires id in acc && id !in Ids(vehicles)
    ensures RecordsFrom(acc, vehicles, parseFloat, legacy).value[id] == acc[id]
    decreases |vehicles|
  {
    if vehicles != [] {
      var v := vehicles[0];
      assert v in vehicles;
      assert Ids(vehicles[1..]) <= Ids(vehicles) by {
        assert forall w | w in vehicles[1..] :: w in vehicles;
      }
      RecordsKeep(acc[v["id"] := ReadVehicle(v, parseFloat, legacy).value], vehicles[1..], parseFloat, legacy, id);
    }
  }

  /* ---------------------------------------------------------------------- */
  /* Counting per vehicle class                                             */
  /* ---------------------------------------------------------------------- */

  predicate Classed(m: Snapshot)
  {
    forall id | id in m :: "vClass" in m[id]
  }

  function IdsOfClass(m: Snapshot, c: Value): set<string>
    requires Classed(m)
  {
    set id | id in m && m[id]["vClass"] == c
  }

  function IdsIn(m: Snapshot, classes: set<Value>): set<string>
    requires Classed(m)
  {
    set id | id in m && m[id]["vClass"] in classes
  }

  function Classes(m: Snapshot): set<Value>
    requires Classed(m)
  {
    set id | id in m :: m[id]["vClass"]
  }

  function CountsOn(m: Snapshot, classes: set<Value>): map<Value, nat>
    requires Classed(m)
  {
    map c | c in classes :: |IdsOfClass(m, c)|
  }

  /** `Counter(v['vClass'] for v in vehicles.values())`. */
  function ClassCounts(m: Snapshot): (counts: map<Value, nat>)
    requires Classed(m)
    ensures forall c | c in counts :: counts[c] >= 1
  {
    var counts := CountsOn(m, Classes(m));
    assert forall c | c in counts :: counts[c] >= 1 by {
      forall c | c in counts ensures |IdsOfClass(m, c)| >= 1 {
        var id :| id in m && m[id]["vClass"] == c;
        assert id in IdsOfClass(m, c);
      }
    }
    counts
  }

  /** The sum of the counts of a counter. */
  ghost function Total(counts: map<Value, nat>): nat
    decreases |counts|
  {
    if counts == map[] then 0
    else
      var c :| c in counts;
      counts[c] + Total(counts - {c})
  }

  lemma {:induction false} TotalCountsOn(m: Snapshot, classes: set<Value>)
    requires Classed(m)
    ensures Total(CountsOn(m, classes)) == |IdsIn(m, classes)|
    decreases |classes|
  {
    var counts := CountsOn(m, classes);
    if classes == {} {
      assert counts == map[];
      assert IdsIn(m, classes) == {};
    } else {
      assert counts != map[] by {
        var c :| c in classes;
        assert c in counts;
      }
      var c :| c in counts && Total(counts) == counts[c] + Total(counts - {c});
      assert counts - {c} == CountsOn(m, classes - {c});
      TotalCountsOn(m, classes - {c});
      assert IdsIn(m, classes) == IdsOfClass(m, c) + IdsIn(m, classes - {c});
      assert IdsOfClass(m, c) * IdsIn(m, classes - {c}) == {};
    }
  }

  /** Every vehicle of the timestep is counted once: the per-class counts add
      up to the number of distinct ids. */
  lemma ClassCountsTotal(m: Snapshot)
    requires Classed(m)
    ensures Total(ClassCounts(m)) == |m|
  {
    TotalCountsOn(m, Classes(m));
    assert IdsIn(m, Classes(m)) == m.Keys;
  }

  /** A vehicle's class is counted, and a class is counted as many times as
      there are vehicles of that class. */
  lemma ClassCountsAt(m: Snapshot, id: string)
    requires Classed(m) && id in m
    ensures m[id]["vClass"] in ClassCounts(m)
    ensures ClassCounts(m)[m[id]["vClass"]] == |IdsOfClass(m, m[id]["vClass"])|
  {
  }

  /** With the older reader every vehicle is a `passenger`, so there is one
      count, equal to the number of vehicles, or none at all. */
  lemma LegacyCountsAllPassengers(m: Snapshot)
    requires forall id | id in m :: "vClass" in m[id] && m[id]["vClass"] == Text("passenger")
    ensures ClassCounts(m) == if m == map[] then map[] else map[Text("passenger") := |m|]
  {
    if m != map[] {
      var id :| id in m;
      assert Classes(m) == {Text("passenger")};
      assert IdsOfClass(m, Text("passenger")) == m.Keys;
    } else {
      assert Classes(m) == {};
    }
  }

  /* ---------------------------------------------------------------------- */
  /* The lane distribution file                                             */
  /* ---------------------------------------------------------------------- */

  /** A group of `parse_lane_distr`: its header line, then the parsed rows. */
  datatype LaneGroup<T> = LaneGroup(header: string, rows: seq<T>)

  datatype LaneScan<T> = LaneScan(current: LaneGroup<T>, groups: seq<LaneGroup<T>>, stopped: bool, failed: bool)

  /** One line after the first; `parse` stands for `ast.literal_eval`, with
      `None` for a line it rejects. */
  function LaneStep<T>(s: LaneScan<T>, line: string, parse: string -> Option<T>): LaneScan<T>
  {
    if StartsWith(line, "]]") then s.(stopped := true)
    else if !StartsWith(line, "], [") then
      match parse(ReplaceFirst(line, ", ", ""))
      case None => s.(failed := true)
      case Some(row) => s.(current := s.current.(rows := s.current.rows + [row]))
    else s.(groups := s.groups + [s.current], current := LaneGroup(ReplaceAll(line, "], [", ""), []))
  }

  function LaneScanFrom<T>(s: LaneScan<T>, lines: seq<string>, parse: string -> Option<T>): LaneScan<T>
    decreases |lines|
  {
    if lines == [] || s.stopped || s.failed then s
    else LaneScanFrom(LaneStep(s, lines[0], parse), lines[1..], parse)
  }

  /** The state after the first line: a group headed by that line without `[[`. */
  function LaneStart<T>(first: string): LaneScan<T>
  {
    LaneScan(LaneGroup(ReplaceAll(first, "[[", ""), []), [], false, false)
  }

  /** `parse_lane_distr(lines)`: the groups it yields and whether it raised
      (an empty file, or a row the literal parser rejects). */
  method ParseLaneDistr<T>(lines: seq<string>, parse: string -> Option<T>) returns (groups: seq<LaneGroup<T>>, failed: bool)
    ensures lines == [] ==> groups == [] && failed
    ensures lines != [] ==> groups == LaneScanFrom(LaneStart(lines[0]), lines[1..], parse).groups
    ensures lines != [] ==> failed == LaneScanFrom(LaneStart(lines[0]), lines[1..], parse).failed
  {
    if lines == [] {
      return [], true;
    }
    var data := LaneGroup(ReplaceAll(lines[0], "[[", ""), []);
    groups := [];
    failed := false;
    var rest := lines[1..];
    var i := 0;
    while i < |rest|
      invariant 0 <= i <= |rest|
      invariant LaneScanFrom(LaneScan(data, groups, false, false), rest[i..], parse)
             == LaneScanFrom(LaneStart(lines[0]), rest, parse)
    {
      var line := rest[i];
      assert rest[i..][1..] == rest[i + 1..];
      if StartsWith(line, "]]") {
        break;
      } else if !StartsWith(line, "], [") {
        var row := parse(ReplaceFirst(line, ", ", ""));
        if row.None? {
          failed := true;
          return;
        }
        data := data.(rows := data.rows + [row.value]);
      } else {
        groups := groups + [data];
        data := LaneGroup(ReplaceAll(line, "], [", ""), []);
      }
      i := i + 1;
    }
  }

  /** The headers of some groups, in order. */
  function Headers<T>(groups: seq<LaneGroup<T>>): seq<string>
  {
    if groups == [] then [] else Headers(groups[..|groups| - 1]) + [groups[|groups| - 1].header]
  }

  /** The headers the separator lines start, up to the first line that ends
      the data. */
  function SeparatorHeaders(lines: seq<string>): seq<string>
  {
    if lines == [] || StartsWith(lines[0], "]]") then []
    else
      var here := if StartsWith(lines[0], "], [") then [ReplaceAll(lines[0], "], [", "")] else [];
      here + SeparatorHeaders(lines[1..])
  }

  lemma {:induction false} LaneHeadersFrom<T>(s: LaneScan<T>, lines: seq<string>, parse: string -> Option<T>)
    requires !s.stopped && !s.failed
    requires !LaneScanFrom(s, lines, parse).failed
    ensures var r := LaneScanFrom(s, lines, parse);
      Headers(r.groups) + [r.current.header] == Headers(s.groups) + [s.current.header] + SeparatorHeaders(lines)
    decreases |lines|
  {
    if lines != [] {
      var line := lines[0];
      var s' := LaneStep(s, line, parse);
      if StartsWith(line, "]]") {
      } else {
        LaneHeadersFrom(s', lines[1..], parse);
        if StartsWith(line, "], [") {
          assert (s.groups + [s.current])[..|s.groups|] == s.groups;
          assert Headers(s'.groups) == Headers(s.groups) + [s.current.header];
        }
      }
    }
  }

  /** Unless it raises, `parse_lane_distr` yields one group for the first line
      and one for each separator line before the end marker, except the group
      in progress when the data ends, which is never yielded. */
  lemma ParseLaneDistrHeaders<T>(lines: seq<string>, parse: string -> Option<T>)
    requires lines != []
    requires !LaneScanFrom(LaneStart(lines[0]), lines[1..], parse).failed
    ensures var r := LaneScanFrom(LaneStart<T>(lines[0]), lines[1..], parse);
      Headers(r.groups) + [r.current.header] == [ReplaceAll(lines[0], "[[", "")] + SeparatorHeaders(lines[1..])
    ensures |LaneScanFrom(LaneStart<T>(lines[0]), lines[1..], parse).groups| == |SeparatorHeaders(lines[1..])|
  {
    LaneHeadersFrom(LaneStart<T>(lines[0]), lines[1..], parse);
    var r := LaneScanFrom(LaneStart<T>(lines[0]), lines[1..], parse);
    HeadersLength(r.groups);
  }

  lemma {:induction false} HeadersLength<T>(groups: seq<LaneGroup<T>>)
    ensures |Headers(groups)| == |groups|
  {
    if groups != [] {
      HeadersLength(groups[..|groups| - 1]);
    }
  }

  /* ---------------------------------------------------------------------- */
  /* The lane distribution groups, position by position                     */
  /* ---------------------------------------------------------------------- */

  predicate IsSeparator(line: string) { StartsWith(line, "], [") }

  predicate EndsData(line: string) { StartsWith(line, "]]") }

  /** The row a data line holds: the line without its first `, `, parsed. */
  function RowOf<T>(line: string, parse: string -> Option<T>): Option<T>
  {
    parse(ReplaceFirst(line, ", ", ""))
  }

  /** A line `parse_lane_distr` reads on past: a separator, or a data line
      whose row parses. */
  predicate Readable<T>(line: string, parse: string -> Option<T>)
  {
    !EndsData(line) && (IsSeparator(line) || RowOf(line, parse).Some?)
  }

  /** The index of the first line the reader does not read on past: the end
      marker or a row the parser rejects; `|lines|` when there is none. */
  function FirstUnreadable<T>(lines: seq<string>, parse: string -> Option<T>): (k: nat)
    ensures k <= |lines|
    ensures forall i | 0 <= i < k :: Readable(lines[i], parse)
    ensures k < |lines| ==> !Readable(lines[k], parse)
  {
    if lines == [] || !Readable(lines[0], parse) then 0
    else 1 + FirstUnreadable(lines[1..], parse)
  }

  /** The positions of the separator lines, in increasing order. */
  function SeparatorsIn(body: seq<string>): (p: seq<nat>)
    ensures forall g | 0 <= g < |p| :: p[g] < |body| && IsSeparator(body[p[g]])
    ensures forall g | 0 < g < |p| :: p[g - 1] < p[g]
  {
    if body == [] then []
    else
      var init := body[..|body| - 1];
      assert forall i | 0 <= i < |init| :: init[i] == body[i];
      SeparatorsIn(init) + (if IsSeparator(body[|body| - 1]) then [|body| - 1] else [])
  }

  /** The rows of the data lines of `seg`, in order. A line whose row does
      not parse contributes nothing; the lines the reader gets past all
      parse, so none of them is dropped. */
  function Rows<T>(seg: seq<string>, parse: string -> Option<T>): seq<T>
  {
    if seg == [] then []
    else
      var line := seg[|seg| - 1];
      var init := Rows(seg[..|seg| - 1], parse);
      if IsSeparator(line) then init
      else match RowOf(line, parse)
        case Some(row) => init + [row]
        case None => init
  }

  /** Group `g` of the readable lines `body` after the first line `first`:
      group 0 is headed by the first line, group `g > 0` by separator `g - 1`,
      and each holds the rows of the lines up to the next separator. */
  function LaneGroupAt<T>(first: string, body: seq<string>, parse: string -> Option<T>, g: nat): LaneGroup<T>
    requires g <= |SeparatorsIn(body)|
  {
    LaneGroup(GroupHeader(first, body, g), Rows(body[GroupStart(body, g)..GroupEnd(body, g)], parse))
  }

  /** The header of group `g`: the first line for group 0, separator `g - 1`
      after it. */
  function GroupHeader(first: string, body: seq<string>, g: nat): string
    requires g <= |SeparatorsIn(body)|
  {
    if g == 0 then ReplaceAll(first, "[[", "") else ReplaceAll(body[SeparatorsIn(body)[g - 1]], "], [", "")
  }

  /** The first line of group `g`: the line after separator `g - 1`. */
  function GroupStart(body: seq<string>, g: nat): (lo: nat)
    requires g <= |SeparatorsIn(body)|
    ensures lo <= GroupEnd(body, g) <= |body|
  {
    if g == 0 then 0 else SeparatorsIn(body)[g - 1] + 1
  }

  /** The line after the last line of group `g`: separator `g`, or the end. */
  function GroupEnd(body: seq<string>, g: nat): (hi: nat)
    requires g <= |SeparatorsIn(body)|
    ensures hi <= |body|
  {
    var p := SeparatorsIn(body);
    if g < |p| then p[g] else |body|
  }

  /** The scan over `body` holds exactly the groups of `body` so far. */
  ghost predicate Matches<T>(t: LaneScan<T>, first: string, body: seq<string>, parse: string -> Option<T>)
  {
    && !t.stopped && !t.failed
    && |t.groups| == |SeparatorsIn(body)|
    && (forall g | 0 <= g < |t.groups| :: t.groups[g] == LaneGroupAt(first, body, parse, g))
    && t.current == LaneGroupAt(first, body, parse, |t.groups|)
  }

  lemma {:induction false} LaneScanAppend<T>(s: LaneScan<T>, a: seq<string>, b: seq<string>, parse: string -> Option<T>)
    ensures LaneScanFrom(s, a + b, parse) == LaneScanFrom(LaneScanFrom(s, a, parse), b, parse)
    decreases |a|
  {
    if a == [] {
      assert a + b == b;
    } else if !s.stopped && !s.failed {
      assert (a + b)[0] == a[0] && (a + b)[1..] == a[1..] + b;
      LaneScanAppend(LaneStep(s, a[0], parse), a[1..], b, parse);
    }
  }

  lemma SeparatorsSnoc(body: seq<string>, x: string)
    ensures SeparatorsIn(body + [x]) == SeparatorsIn(body) + (if IsSeparator(x) then [|body|] else [])
  {
    assert (body + [x])[..|body|] == body;
  }

  /** `longer` continues `body`, and its separators continue those of `body`. */
  predicate Continues(body: seq<string>, longer: seq<string>)
  {
    && |body| <= |longer| && longer[..|body|] == body
    && |SeparatorsIn(body)| <= |SeparatorsIn(longer)|
    && SeparatorsIn(longer)[..|SeparatorsIn(body)|] == SeparatorsIn(body)
  }

  lemma ContinuesSnoc(body: seq<string>, x: string)
    ensures Continues(body, body + [x])
    ensures SeparatorsIn(body + [x]) == SeparatorsIn(body) + (if IsSeparator(x) then [|body|] else [])
  {
    SeparatorsSnoc(body, x);
    assert (body + [x])[..|body|] == body;
  }

  /** A group of `body` starts at the same line and has the same header in a
      file that continues `body`. */
  lemma HeadSame(first: string, body: seq<string>, longer: seq<string>, g: nat)
    requires Continues(body, longer) && g <= |SeparatorsIn(body)|
    ensures GroupHeader(first, longer, g) == GroupHeader(first, body, g)
    ensures GroupStart(longer, g) == GroupStart(body, g)
  {
    if g > 0 {
      var p := SeparatorsIn(body);
      assert SeparatorsIn(longer)[g - 1] == p[g - 1];
      assert longer[p[g - 1]] == body[p[g - 1]];
    }
  }

  lemma PrefixSlice<X>(s: seq<X>, longer: seq<X>, lo: nat, hi: nat)
    requires lo <= hi <= |s| <= |longer| && longer[..|s|] == s
    ensures longer[lo..hi] == s[lo..hi]
  {
    assert forall i | lo <= i < hi :: longer[i] == longer[..|s|][i];
  }

  /** A group that ends at the same line in a file that continues `body` is
      the same group there. */
  lemma GroupSame<T>(first: string, body: seq<string>, longer: seq<string>, parse: string -> Option<T>, g: nat)
    requires Continues(body, longer) && g <= |SeparatorsIn(body)|
    requires GroupEnd(longer, g) == GroupEnd(body, g)
    ensures LaneGroupAt(first, longer, parse, g) == LaneGroupAt(first, body, parse, g)
  {
    HeadSame(first, body, longer, g);
    PrefixSlice(body, longer, GroupStart(body, g), GroupEnd(body, g));
  }

  /** Adding a line leaves the groups before the last one as they were. */
  lemma GroupSnoc<T>(first: string, body: seq<string>, x: string, parse: string -> Option<T>, g: nat)
    requires g < |SeparatorsIn(body)|
    ensures LaneGroupAt(first, body + [x], parse, g) == LaneGroupAt(first, body, parse, g)
  {
    ContinuesSnoc(body, x);
    assert SeparatorsIn(body + [x])[g] == SeparatorsIn(body)[g];
    GroupSame(first, body, body + [x], parse, g);
  }

  lemma RowsSnoc<T>(seg: seq<string>, x: string, parse: string -> Option<T>)
    requires RowOf(x, parse).Some? && !IsSeparator(x)
    ensures Rows(seg + [x], parse) == Rows(seg, parse) + [RowOf(x, parse).value]
  {
    assert (seg + [x])[..|seg|] == seg;
  }

  lemma SliceSnoc<X>(s: seq<X>, x: X, lo: nat)
    requires lo <= |s|
    ensures (s + [x])[lo..|s| + 1] == s[lo..|s|] + [x]
  {
  }

  /** Adding a data line appends its row to the group in progress. */
  lemma LastGroupRow<T>(first: string, body: seq<string>, x: string, parse: string -> Option<T>)
    requires RowOf(x, parse).Some? && !IsSeparator(x)
    ensures |SeparatorsIn(body + [x])| == |SeparatorsIn(body)|
    ensures var n := |SeparatorsIn(body)|;
      LaneGroupAt(first, body + [x], parse, n)
        == LaneGroupAt(first, body, parse, n).(rows := LaneGroupAt(first, body, parse, n).rows + [RowOf(x, parse).value])
  {
    var n := |SeparatorsIn(body)|;
    ContinuesSnoc(body, x);
    HeadSame(first, body, body + [x], n);
    var lo := GroupStart(body, n);
    SliceSnoc(body, x, lo);
    RowsSnoc(body[lo..|body|], x, parse);
  }

  /** Adding a separator closes the group in progress and opens an empty one
      headed by the separator. */
  lemma LastGroupSeparator<T>(first: string, body: seq<string>, x: string, parse: string -> Option<T>)
    requires IsSeparator(x)
    ensures |SeparatorsIn(body + [x])| == |SeparatorsIn(body)| + 1
    ensures var n := |SeparatorsIn(body)|;
      && LaneGroupAt(first, body + [x], parse, n) == LaneGroupAt(first, body, parse, n)
      && LaneGroupAt(first, body + [x], parse, n + 1) == LaneGroup(ReplaceAll(x, "], [", ""), [])
  {
    var n := |SeparatorsIn(body)|;
    ContinuesSnoc(body, x);
    assert SeparatorsIn(body + [x])[n] == |body|;
    GroupSame(first, body, body + [x], parse, n);
    OpenedGroup(first, body, x, parse);
  }

  lemma OpenedGroup<T>(first: string, body: seq<string>, x: string, parse: string -> Option<T>)
    requires SeparatorsIn(body + [x]) == SeparatorsIn(body) + [|body|]
    ensures var n := |SeparatorsIn(body)|;
      LaneGroupAt(first, body + [x], parse, n + 1) == LaneGroup(ReplaceAll(x, "], [", ""), [])
  {
    var n := |SeparatorsIn(body)|;
    assert SeparatorsIn(body + [x])[n] == |body|;
    assert (body + [x])[|body|] == x;
    assert (body + [x])[|body| + 1..|body| + 1] == [];
  }

  lemma MatchesSnoc<T>(t: LaneScan<T>, first: string, body: seq<string>, x: string, parse: string -> Option<T>)
    requires Readable(x, parse) && Matches(t, first, body, parse)
    ensures Matches(LaneStep(t, x, parse), first, body + [x], parse)
  {
    if IsSeparator(x) {
      MatchesSnocSeparator(t, first, body, x, parse);
    } else {
      MatchesSnocRow(t, first, body, x, parse);
    }
  }

  lemma MatchesSnocSeparator<T>(t: LaneScan<T>, first: string, body: seq<string>, x: string, parse: string -> Option<T>)
    requires !EndsData(x) && IsSeparator(x) && Matches(t, first, body, parse)
    ensures Matches(LaneStep(t, x, parse), first, body + [x], parse)
  {
    var t' := LaneStep(t, x, parse);
    assert t' == t.(groups := t.groups + [t.current], current := LaneGroup(ReplaceAll(x, "], [", ""), []));
    LastGroupSeparator(first, body, x, parse);
    forall g | 0 <= g < |t'.groups|
      ensures t'.groups[g] == LaneGroupAt(first, body + [x], parse, g)
    {
      if g < |t.groups| {
        GroupSnoc(first, body, x, parse, g);
        assert t'.groups[g] == t.groups[g];
      }
    }
  }

  lemma MatchesSnocRow<T>(t: LaneScan<T>, first: string, body: seq<string>, x: string, parse: string -> Option<T>)
    requires !EndsData(x) && !IsSeparator(x) && RowOf(x, parse).Some? && Matches(t, first, body, parse)
    ensures Matches(LaneStep(t, x, parse), first, body + [x], parse)
  {
    var t' := LaneStep(t, x, parse);
    assert t' == t.(current := t.current.(rows := t.current.rows + [RowOf(x, parse).value]));
    LastGroupRow(first, body, x, parse);
    forall g | 0 <= g < |t'.groups|
      ensures t'.groups[g] == LaneGroupAt(first, body + [x], parse, g)
    {
      GroupSnoc(first, body, x, parse, g);
    }
  }

  /** Over readable lines, the scan holds the groups of those lines. */
  lemma {:induction false} LaneScanMatches<T>(first: string, body: seq<string>, parse: string -> Option<T>)
    requires forall i | 0 <= i < |body| :: Readable(body[i], parse)
    ensures Matches(LaneScanFrom(LaneStart<T>(first), body, parse), first, body, parse)
    decreases |body|
  {
    if body != [] {
      var init := body[..|body| - 1];
      var x := body[|body| - 1];
      assert forall i | 0 <= i < |init| :: init[i] == body[i];
      LaneScanMatches(first, init, parse);
      var t := LaneScanFrom(LaneStart<T>(first), init, parse);
      ScanSnoc(LaneStart<T>(first), init, x, parse);
      MatchesSnoc(t, first, init, x, parse);
      assert body == init + [x];
    }
  }

  /** Reading one more line after `lines` takes one more step, unless the
      scan has already ended. */
  lemma ScanSnoc<T>(s: LaneScan<T>, lines: seq<string>, x: string, parse: string -> Option<T>)
    ensures var t := LaneScanFrom(s, lines, parse);
      LaneScanFrom(s, lines + [x], parse) == if t.stopped || t.failed then t else LaneStep(t, x, parse)
  {
    LaneScanAppend(s, lines, [x], parse);
    var t := LaneScanFrom(s, lines, parse);
    assert LaneScanFrom(LaneStep(t, x, parse), [], parse) == LaneStep(t, x, parse);
  }

  /** `parse_lane_distr` position by position: it reads up to the first end
      marker or rejected row. Group `g` it yields is headed by the first line
      (`g == 0`) or by separator `g - 1`, and holds the rows of the data lines
      between that separator and the next; the group in progress at the stop
      is never yielded. It raises exactly when it stopped at a rejected row. */
  lemma ParseLaneDistrGroups<T>(lines: seq<string>, parse: string -> Option<T>)
    requires lines != []
    ensures var rest := lines[1..];
      var k := FirstUnreadable(rest, parse);
      var r := LaneScanFrom(LaneStart<T>(lines[0]), rest, parse);
      && |r.groups| == |SeparatorsIn(rest[..k])|
      && (forall g | 0 <= g < |r.groups| :: r.groups[g] == LaneGroupAt(lines[0], rest[..k], parse, g))
      && (r.failed <==> k < |rest| && !EndsData(rest[k]))
  {
    var rest := lines[1..];
    var k := FirstUnreadable(rest, parse);
    var body := rest[..k];
    assert forall i | 0 <= i < |body| :: body[i] == rest[i];
    LaneScanMatches<T>(lines[0], body, parse);
    LaneScanAppend(LaneStart<T>(lines[0]), body, rest[k..], parse);
    assert rest == body + rest[k..];
    var t := LaneScanFrom(LaneStart<T>(lines[0]), body, parse);
    ScanToFirstUnreadable(t, rest, k, parse);
    if k < |rest| {
      StopStep(t, rest[k], parse);
    }
  }

  /** The scan reads the readable prefix, then takes at most one more step. */
  lemma ScanToFirstUnreadable<T>(t: LaneScan<T>, rest: seq<string>, k: nat, parse: string -> Option<T>)
    requires k <= |rest|
    requires k < |rest| ==> !Readable(rest[k], parse)
    requires !t.stopped && !t.failed
    ensures LaneScanFrom(t, rest[k..], parse) == if k < |rest| then LaneStep(t, rest[k], parse) else t
  {
    if k < |rest| {
      var u := LaneStep(t, rest[k], parse);
      StopStep(t, rest[k], parse);
      assert rest[k..][0] == rest[k] && rest[k..][1..] == rest[k + 1..];
      assert u.stopped || u.failed;
    }
  }

  /** The step at an unreadable line ends the scan without yielding a group:
      it stops at the end marker and fails at a rejected row. */
  lemma StopStep<T>(t: LaneScan<T>, line: string, parse: string -> Option<T>)
    requires !Readable(line, parse) && !t.stopped && !t.failed
    ensures LaneStep(t, line, parse).groups == t.groups
    ensures LaneStep(t, line, parse).stopped || LaneStep(t, line, parse).failed
    ensures LaneStep(t, line, parse).failed <==> !EndsData(line)
  {
  }

  /** `parse_lane_distr` raises exactly when, before any end marker, some
      data line holds a row the literal parser rejects. */
  lemma ParseLaneDistrFails<T>(lines: seq<string>, parse: string -> Option<T>)
    requires lines != []
    ensures var rest := lines[1..];
      LaneScanFrom(LaneStart<T>(lines[0]), rest, parse).failed <==>
        exists i | 0 <= i < |rest| ::
          && !EndsData(rest[i]) && !IsSeparator(rest[i]) && RowOf(rest[i], parse).None?
          && (forall j | 0 <= j < i :: !EndsData(rest[j]))
  {
    var rest := lines[1..];
    var k := FirstUnreadable(rest, parse);
    ParseLaneDistrGroups(lines, parse);
    if k < |rest| && !EndsData(rest[k]) {
      assert !IsSeparator(rest[k]) && RowOf(rest[k], parse).None?;
    }
    forall i | 0 <= i < |rest| && !EndsData(rest[i]) && !IsSeparator(rest[i]) && RowOf(rest[i], parse).None?
        && (forall j | 0 <= j < i :: !EndsData(rest[j]))
      ensures k < |rest| && !EndsData(rest[k])
    {
      assert !Readable(rest[i], parse);
    }
  }
}
