/**
  The coordinator as a whole: the two user actions, the start-up load and the
  delivered callbacks, applied one at a time, and the invariant they keep.
*/
module Session {
  import opened Options
  import opened Uuids
  import opened Beacons
  import opened Tracked
  import opened Manager
  import opened Callbacks

  /** Everything that can happen to the coordinator. */
  datatype Action =
    | Add(uuid: Uuid)                              // the settings screen submits a parsed UUID
    | Load                                         // `setup()` loads the stored list
    | Toggle                                       // the search / pause button
    | Deliver(event: Event, rangingAvailable: bool) // a callback from the location service

  function Step(m: Manager, a: Action): (r: Outcome)
    ensures r.Crash? ==> a.Deliver? && ParseUuid(a.event.region).None?
  {
    match a
    case Add(u) => Next(AddBeacon(m, u))
    case Load => Next(LoadBeacons(m))
    case Toggle => Next(ToggleMonitoring(m))
    case Deliver(e, ranging) => Handle(m, e, ranging)
  }

  /** Apply the actions in order, stopping at a crash. */
  function Run(m: Manager, actions: seq<Action>): Outcome
    decreases |actions|
  {
    if actions == [] then Next(m)
    else match Step(m, actions[0])
      case Crash(region) => Crash(region)
      case Next(m') => Run(m', actions[1..])
  }

  /** Every action keeps the tracked UUIDs pairwise distinct. */
  lemma StepKeepsUnique(m: Manager, a: Action)
    requires Unique(m.beacons)
    ensures Step(m, a).Next? ==> Unique(Step(m, a).m.beacons)
  {
    ToggleKeepsUuids(m);
  }

  /** From any starting store, no sequence of actions ever tracks a UUID twice. */
  lemma {:induction false} RunKeepsUnique(m: Manager, actions: seq<Action>)
    requires Unique(m.beacons)
    ensures Run(m, actions).Next? ==> Unique(Run(m, actions).m.beacons)
    decreases |actions|
  {
    if actions != [] {
      StepKeepsUnique(m, actions[0]);
      var s := Step(m, actions[0]);
      if s.Next? {
        RunKeepsUnique(s.m, actions[1..]);
      }
    }
  }

  /** Every manager the application can reach from start-up has unique UUIDs. */
  lemma ReachableUnique(saved: Option<seq<string>>, actions: seq<Action>)
    ensures Run(Init(saved), actions).Next? ==> Unique(Run(Init(saved), actions).m.beacons)
  {
    RunKeepsUnique(Init(saved), actions);
  }

  /** Scenario, first step: adding `u` to an empty manager tracks it and stores its string. */
  lemma ScenarioAdd(u: Uuid)
    ensures AddBeacon(Init(None), u) == Manager([NewBeacon(u)], false, Some([UuidString(u)]), [])
  {
    var m0 := Init(None);
    assert !Tracks(m0.beacons, u) by {
      assert UuidsOf(m0.beacons) == [];
    }
    var m1 := AddBeacon(m0, u);
    assert m1.beacons == [NewBeacon(u)] by {
      assert m0.beacons + [NewBeacon(u)] == [NewBeacon(u)];
    }
    IdentifiersOfOne(NewBeacon(u));
    assert m1.saved == Some([UuidString(u)]);
    assert !m1.isMonitoring && m1.requests == [];
  }


  /** Scenario, second step: starting monitoring asks to monitor the one region. */
  lemma ScenarioStart(u: Uuid, saved: Option<seq<string>>)
    ensures ToggleMonitoring(Manager([NewBeacon(u)], false, saved, []))
      == Manager([NewBeacon(u)], true, saved, [StartMonitoring(UuidString(u))])
  {
  }

  /** Scenario, third step: entering the region starts ranging and marks the record "entered". */
  lemma ScenarioEnter(u: Uuid, saved: Option<seq<string>>)
    ensures OnEnterRegion(Manager([NewBeacon(u)], true, saved, [StartMonitoring(UuidString(u))]), UuidString(u), true)
      == Next(Manager([Beacon(u, NoReading, Entered, White)], true, saved,
                      [StartMonitoring(UuidString(u)), StartRanging(u)]))
  {
    var m := Manager([NewBeacon(u)], true, saved, [StartMonitoring(UuidString(u))]);
    EnterRegionOfUuid(m, u, true);
  }

  /** Scenario, fourth step: a "near" reading with RSSI -60 is shown and highlights the record. */
  lemma ScenarioRange(u: Uuid, saved: Option<seq<string>>, log: seq<Request>)
    ensures OnRangeBeacons(Manager([Beacon(u, NoReading, Entered, White)], true, saved, log),
                           [Observation(u, ProximityNear, -60)])
      == Manager([Beacon(u, Reading(Near, -60), Entered, Red)], true, saved, log)
  {
    var m := Manager([Beacon(u, NoReading, Entered, White)], true, saved, log);
    var ob := Observation(u, ProximityNear, -60);
    UpdateBeaconOfUuid(m, ob);
    assert OnRangeBeacons(m, [ob]) == OnRangeBeacons(UpdateBeacon(m, ob), []);
  }

  /** Scenario, last step: stopping monitoring stops the region and resets the record. */
  lemma ScenarioStop(b: Beacon, saved: Option<seq<string>>, log: seq<Request>)
    ensures ToggleMonitoring(Manager([b], true, saved, log))
      == Manager([NewBeacon(b.uuid)], false, saved, log + [StopMonitoring(UuidString(b.uuid)), StopRanging(b.uuid)])
  {
    var r := ToggleMonitoring(Manager([b], true, saved, log));
    assert r.requests == log + [StopMonitoring(UuidString(b.uuid)), StopRanging(b.uuid)];
  }

  /**
    The end-to-end scenario: add one UUID to an empty manager, start
    monitoring, enter its region, receive a "near" reading with RSSI -60, stop
    monitoring.
  */
  lemma Scenario(u: Uuid)
    ensures var m1 := AddBeacon(Init(None), u);
      && m1.beacons == [NewBeacon(u)] && m1.saved == Some([UuidString(u)])
    ensures var m2 := ToggleMonitoring(AddBeacon(Init(None), u));
      && m2.isMonitoring && m2.requests == [StartMonitoring(UuidString(u))]
    ensures var o3 := OnEnterRegion(ToggleMonitoring(AddBeacon(Init(None), u)), UuidString(u), true);
      && o3.Next? && o3.m.beacons[0].stateInformation == Entered
      && o3.m.requests == [StartMonitoring(UuidString(u)), StartRanging(u)]
    ensures var o3 := OnEnterRegion(ToggleMonitoring(AddBeacon(Init(None), u)), UuidString(u), true);
      var m4 := OnRangeBeacons(o3.m, [Observation(u, ProximityNear, -60)]);
      && m4.beacons == [Beacon(u, Reading(Near, -60), Entered, Red)]
      && var m5 := ToggleMonitoring(m4);
      && !m5.isMonitoring && m5.beacons == [NewBeacon(u)]
      && m5.requests == [StartMonitoring(UuidString(u)), StartRanging(u), StopMonitoring(UuidString(u)), StopRanging(u)]
  {
    var saved := Some([UuidString(u)]);
    var log := [StartMonitoring(UuidString(u)), StartRanging(u)];
    ScenarioAdd(u);
    ScenarioStart(u, saved);
    ScenarioEnter(u, saved);
    ScenarioRange(u, saved, log);
    ScenarioStop(Beacon(u, Reading(Near, -60), Entered, Red), saved, log);
    assert log + [StopMonitoring(UuidString(u)), StopRanging(u)]
      == [StartMonitoring(UuidString(u)), StartRanging(u), StopMonitoring(UuidString(u)), StopRanging(u)];
  }

}
