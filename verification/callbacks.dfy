/**
  The `CLLocationManagerDelegate` callbacks of `BeaconManager`, each a pure
  transition on the manager. Whether ranging is available
  (`CLLocationManager.isRangingAvailable()`) is a parameter. The region
  handlers force-unwrap `UUID(uuidString: region.identifier)`; an identifier
  that is not a UUID crashes the process, which is an explicit outcome here.
*/
module Callbacks {
  import opened Options
  import opened Uuids
  import opened Beacons
  import opened Tracked
  import opened Manager

  /** `CLRegionState`. */
  datatype RegionState = StateUnknown | Inside | Outside

  /** One delivered callback; regions are given by their identifier. */
  datatype Event =
    | DidStartMonitoring(region: string)
    | DidDetermineState(state: RegionState, region: string)
    | DidEnterRegion(region: string)
    | DidExitRegion(region: string)
    | DidRangeBeacons(observed: seq<Observation>, region: string)

  /** The state after a callback, or a crash on the force-unwrap of a region identifier. */
  datatype Outcome = Next(m: Manager) | Crash(region: string)

  /** Callbacks never touch the store or the flag, and never add, drop or reorder records. */
  predicate Keeps(m: Manager, r: Manager) {
    && r.saved == m.saved
    && r.isMonitoring == m.isMonitoring
    && UuidsOf(r.beacons) == UuidsOf(m.beacons)
  }

  /** The requests of `r` are those of `m` followed by `added`. */
  predicate Logged(m: Manager, r: Manager, added: seq<Request>) {
    r.requests == m.requests + added
  }

  /** Edit the first record the key matches, as `beacons.first(where:)?.field = ...` does. */
  function EditRecord(m: Manager, k: Key, e: Edit): (r: Manager)
    ensures Keeps(m, r) && Logged(m, r, [])
  {
    EditFirstKeepsUuids(m.beacons, k, e);
    assert m.requests + [] == m.requests;
    m.(beacons := EditFirst(m.beacons, k, e))
  }

  /** Issue one request. */
  function Issue(m: Manager, q: Request): (r: Manager)
    ensures Keeps(m, r) && Logged(m, r, [q]) && r.beacons == m.beacons
  {
    m.(requests := m.requests + [q])
  }

  /** `didStartMonitoringFor`: ask for the region's current state; no record changes. */
  function OnStartMonitoring(m: Manager, region: string): (r: Manager)
    ensures Keeps(m, r) && r.beacons == m.beacons
    ensures Logged(m, r, [RequestState(region)])
  {
    Issue(m, RequestState(region))
  }

  /**
    `didDetermineState`: inside, with ranging available, start ranging and mark
    the record "in the region"; inside without ranging, nothing changes. Any
    other state (outside, and also unknown) stops ranging and clears the
    highlight.
  */
  function OnDetermineState(m: Manager, state: RegionState, region: string, rangingAvailable: bool): (r: Outcome)
    ensures r.Crash? <==> (state != Inside || rangingAvailable) && ParseUuid(region).None?
    ensures state == Inside && !rangingAvailable ==> r == Next(m)
    ensures r.Next? ==> Keeps(m, r.m)
    ensures r.Next? && state == Inside && rangingAvailable ==>
      Logged(m, r.m, [StartRanging(ParseUuid(region).value)])
      && r.m.beacons == EditFirst(m.beacons, ByIdentifier(region), MarkRegion(InRegion))
    ensures r.Next? && state != Inside ==>
      Logged(m, r.m, [StopRanging(ParseUuid(region).value)])
      && r.m.beacons == EditFirst(m.beacons, ByIdentifier(region), Unhighlight)
  {
    if state == Inside then
      if rangingAvailable then
        match ParseUuid(region)
        case None => Crash(region)
        case Some(u) => Next(EditRecord(Issue(m, StartRanging(u)), ByIdentifier(region), MarkRegion(InRegion)))
      else Next(m)
    else
      match ParseUuid(region)
      case None => Crash(region)
      case Some(u) => Next(EditRecord(Issue(m, StopRanging(u)), ByIdentifier(region), Unhighlight))
  }

  /**
    `didEnterRegion`: start ranging when available, then mark the record
    "entered" whether or not ranging was available.
  */
  function OnEnterRegion(m: Manager, region: string, rangingAvailable: bool): (r: Outcome)
    ensures r.Crash? <==> rangingAvailable && ParseUuid(region).None?
    ensures r.Next? ==> Keeps(m, r.m)
    ensures r.Next? ==> r.m.beacons == EditFirst(m.beacons, ByIdentifier(region), MarkRegion(Entered))
    ensures r.Next? && rangingAvailable ==> Logged(m, r.m, [StartRanging(ParseUuid(region).value)])
    ensures !rangingAvailable ==> r.Next? && Logged(m, r.m, [])
  {
    if rangingAvailable then
      match ParseUuid(region)
      case None => Crash(region)
      case Some(u) => Next(EditRecord(Issue(m, StartRanging(u)), ByIdentifier(region), MarkRegion(Entered)))
    else Next(EditRecord(m, ByIdentifier(region), MarkRegion(Entered)))
  }

  /** `didExitRegion`: stop ranging, clear the highlight and mark the record "left". */
  function OnExitRegion(m: Manager, region: string): (r: Outcome)
    ensures r.Crash? <==> ParseUuid(region).None?
    ensures r.Next? ==> Keeps(m, r.m)
    ensures r.Next? ==>
      Logged(m, r.m, [StopRanging(ParseUuid(region).value)])
      && r.m.beacons == EditFirst(m.beacons, ByIdentifier(region), Exit)
  {
    match ParseUuid(region)
    case None => Crash(region)
    case Some(u) => Next(EditRecord(Issue(m, StopRanging(u)), ByIdentifier(region), Exit))
  }

  /** `updateBeacon(with:)`: the first record with the observed UUID takes the reading. */
  function UpdateBeacon(m: Manager, ob: Observation): (r: Manager)
    ensures Keeps(m, r) && Logged(m, r, [])
    ensures r.beacons == EditFirst(m.beacons, ByUuid(ob.uuid), Observe(ob))
  {
    EditRecord(m, ByUuid(ob.uuid), Observe(ob))
  }

  /** `didRangeBeacons`: every observation in turn updates the record with its UUID. */
  function OnRangeBeacons(m: Manager, observed: seq<Observation>): (r: Manager)
    ensures Keeps(m, r) && Logged(m, r, [])
    decreases |observed|
  {
    if observed == [] then
      assert m.requests + [] == m.requests;
      m
    else OnRangeBeacons(UpdateBeacon(m, observed[0]), observed[1..])
  }

  /** Dispatch a callback to its handler. */
  function Handle(m: Manager, e: Event, rangingAvailable: bool): (r: Outcome)
    ensures r.Crash? ==> ParseUuid(e.region).None?
    ensures r.Next? ==> Keeps(m, r.m) && |m.requests| <= |r.m.requests| <= |m.requests| + 1
    ensures r.Next? ==> r.m.requests[..|m.requests|] == m.requests
  {
    match e
    case DidStartMonitoring(region) => Next(OnStartMonitoring(m, region))
    case DidDetermineState(state, region) => OnDetermineState(m, state, region, rangingAvailable)
    case DidEnterRegion(region) => OnEnterRegion(m, region, rangingAvailable)
    case DidExitRegion(region) => OnExitRegion(m, region)
    case DidRangeBeacons(observed, _) => Next(OnRangeBeacons(m, observed))
  }

  // ---------------------------------------------------------------------------
  // Regions named after a UUID
  // ---------------------------------------------------------------------------

  /** A region named after `u` edits exactly the record with UUID `u`, when the list is duplicate-free. */
  lemma EditRegionOfUuid(bs: seq<Beacon>, u: Uuid, e: Edit)
    requires Unique(bs)
    ensures forall i :: 0 <= i < |bs| ==>
      EditFirst(bs, ByIdentifier(UuidString(u)), e)[i] == (if bs[i].uuid == u then Apply(bs[i], e) else bs[i])
  {
    EditFirstOfUnique(bs, ByIdentifier(UuidString(u)), e);
    forall i | 0 <= i < |bs| ensures Matches(bs[i], ByIdentifier(UuidString(u))) <==> bs[i].uuid == u {
      IdentifierKeyIsUuidKey(bs[i], u);
    }
  }

  /** The regions this program creates are named after a UUID, so no callback about them crashes. */
  lemma NoCrashOnUuidRegions(m: Manager, e: Event, rangingAvailable: bool, u: Uuid)
    requires e.region == UuidString(u)
    ensures Handle(m, e, rangingAvailable).Next?
  {
    ParseUuidString(u);
  }

  /** Exiting the region of `u`: stop ranging `u`; that record turns white and reads "left"; no other record changes. */
  lemma ExitRegionOfUuid(m: Manager, u: Uuid)
    requires Unique(m.beacons)
    ensures var r := OnExitRegion(m, UuidString(u));
      && r.Next? && Keeps(m, r.m) && Logged(m, r.m, [StopRanging(u)])
      && forall i :: 0 <= i < |m.beacons| ==> var b := m.beacons[i];
        r.m.beacons[i] == (if b.uuid == u then b.(background := White, stateInformation := Left) else b)
  {
    ParseUuidString(u);
    EditRegionOfUuid(m.beacons, u, Exit);
  }

  /** Entering the region of `u` marks that record "entered", with or without ranging. */
  lemma EnterRegionOfUuid(m: Manager, u: Uuid, rangingAvailable: bool)
    requires Unique(m.beacons)
    ensures var r := OnEnterRegion(m, UuidString(u), rangingAvailable);
      && r.Next? && Keeps(m, r.m)
      && Logged(m, r.m, if rangingAvailable then [StartRanging(u)] else [])
      && forall i :: 0 <= i < |m.beacons| ==> var b := m.beacons[i];
        r.m.beacons[i] == (if b.uuid == u then b.(stateInformation := Entered) else b)
  {
    ParseUuidString(u);
    EditRegionOfUuid(m.beacons, u, MarkRegion(Entered));
  }

  /** Inside the region of `u` with ranging available: range `u` and mark that record "in the region". */
  lemma DetermineInsideOfUuid(m: Manager, u: Uuid)
    requires Unique(m.beacons)
    ensures var r := OnDetermineState(m, Inside, UuidString(u), true);
      && r.Next? && Keeps(m, r.m) && Logged(m, r.m, [StartRanging(u)])
      && forall i :: 0 <= i < |m.beacons| ==> var b := m.beacons[i];
        r.m.beacons[i] == (if b.uuid == u then b.(stateInformation := InRegion) else b)
  {
    ParseUuidString(u);
    EditRegionOfUuid(m.beacons, u, MarkRegion(InRegion));
  }

  /** Any state but inside for the region of `u`: stop ranging `u` and clear that record's highlight. */
  lemma DetermineNotInsideOfUuid(m: Manager, state: RegionState, u: Uuid, rangingAvailable: bool)
    requires Unique(m.beacons) && state != Inside
    ensures var r := OnDetermineState(m, state, UuidString(u), rangingAvailable);
      && r.Next? && Keeps(m, r.m) && Logged(m, r.m, [StopRanging(u)])
      && forall i :: 0 <= i < |m.beacons| ==> var b := m.beacons[i];
        r.m.beacons[i] == (if b.uuid == u then b.(background := White) else b)
  {
    ParseUuidString(u);
    EditRegionOfUuid(m.beacons, u, Unhighlight);
  }

  // ---------------------------------------------------------------------------
  // Ranging
  // ---------------------------------------------------------------------------

  /** A reading of a tracked UUID changes that record only: it shows the reading and turns red. */
  lemma UpdateBeaconOfUuid(m: Manager, ob: Observation)
    requires Unique(m.beacons)
    ensures forall i :: 0 <= i < |m.beacons| ==> var b := m.beacons[i];
      UpdateBeacon(m, ob).beacons[i] ==
        (if b.uuid == ob.uuid
         then b.(information := Reading(Label(ob.proximity), ob.rssi), background := Red)
         else b)
  {
    EditFirstOfUnique(m.beacons, ByUuid(ob.uuid), Observe(ob));
  }

  /** The last observation of `u` in a ranging batch, if any (reference definition, read from the back). */
  function LastFor(observed: seq<Observation>, u: Uuid): (r: Option<Observation>)
    ensures r.Some? ==> r.value in observed && r.value.uuid == u
    ensures r.Some? ==> exists i :: 0 <= i < |observed| && observed[i] == r.value &&
                          forall j :: i < j < |observed| ==> observed[j].uuid != u
    ensures r.None? <==> forall ob :: ob in observed ==> ob.uuid != u
    decreases |observed|
  {
    if observed == [] then None
    else
      var init, ob := observed[..|observed| - 1], observed[|observed| - 1];
      assert observed == init + [ob];
      if ob.uuid == u then Some(ob)
      else
        var r := LastFor(init, u);
        assert forall j :: 0 <= j < |init| ==> observed[j] == init[j];
        r
  }

  lemma {:induction false} OnRangeBeaconsSnoc(m: Manager, observed: seq<Observation>, ob: Observation)
    ensures OnRangeBeacons(m, observed + [ob]) == UpdateBeacon(OnRangeBeacons(m, observed), ob)
    decreases |observed|
  {
    if observed == [] {
      assert OnRangeBeacons(m, [ob]) == OnRangeBeacons(UpdateBeacon(m, ob), []);
    } else {
      assert (observed + [ob])[0] == observed[0];
      assert (observed + [ob])[1..] == observed[1..] + [ob];
      OnRangeBeaconsSnoc(UpdateBeacon(m, observed[0]), observed[1..], ob);
    }
  }

  /**
    The effect of a ranging batch on a duplicate-free list: each record shows
    the last reading of its UUID in the batch, and records whose UUID was not
    observed are unchanged.
  */
  lemma {:induction false} RangeBeaconsEffect(m: Manager, observed: seq<Observation>)
    requires Unique(m.beacons)
    ensures forall i :: 0 <= i < |m.beacons| ==>
      OnRangeBeacons(m, observed).beacons[i] ==
        match LastFor(observed, m.beacons[i].uuid)
        case None => m.beacons[i]
        case Some(ob) => Update(m.beacons[i], ob)
    decreases |observed|
  {
    if observed != [] {
      var init, ob := observed[..|observed| - 1], observed[|observed| - 1];
      assert observed == init + [ob];
      var mid := OnRangeBeacons(m, init);
      RangeBeaconsEffect(m, init);
      OnRangeBeaconsSnoc(m, init, ob);
      UpdateBeaconOfUuid(mid, ob);
      forall i | 0 <= i < |m.beacons|
        ensures OnRangeBeacons(m, observed).beacons[i] ==
          match LastFor(observed, m.beacons[i].uuid)
          case None => m.beacons[i]
          case Some(o) => Update(m.beacons[i], o)
      {
        assert mid.beacons[i].uuid == m.beacons[i].uuid;
        if ob.uuid == m.beacons[i].uuid {
          match LastFor(init, m.beacons[i].uuid)
          case None =>
          case Some(o) => UpdateOverwrites(m.beacons[i], o, ob);
        }
      }
    }
  }

  /** A batch that observes no tracked UUID changes nothing. */
  lemma {:induction false} RangeUntracked(m: Manager, observed: seq<Observation>)
    requires forall ob :: ob in observed ==> !Tracks(m.beacons, ob.uuid)
    ensures OnRangeBeacons(m, observed) == m
    decreases |observed|
  {
    if observed != [] {
      var ob := observed[0];
      forall i | 0 <= i < |m.beacons| ensures !Matches(m.beacons[i], ByUuid(ob.uuid)) {
        assert UuidsOf(m.beacons)[i] == m.beacons[i].uuid;
      }
      EditFirstWithoutMatch(m.beacons, ByUuid(ob.uuid), Observe(ob));
      assert UpdateBeacon(m, ob) == m;
      assert forall o :: o in observed[1..] ==> o in observed;
      RangeUntracked(m, observed[1..]);
    }
  }

}
