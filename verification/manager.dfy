/**
  `BeaconManager`: the tracked list, the monitoring flag, the persisted
  identifier list (the `savedBeacons` key of `UserDefaults`) and the requests
  made of the location service, with the user-facing operations on them.
*/
module Manager {
  import opened Options
  import opened Uuids
  import opened Beacons
  import opened Tracked

  /** A call made on `CLLocationManager`; regions are named by their identifier. */
  datatype Request =
    | StartMonitoring(region: string)
    | StopMonitoring(region: string)
    | RequestState(region: string)
    | StartRanging(uuid: Uuid)
    | StopRanging(uuid: Uuid)

  /**
    The coordinator's state. `saved` is what `UserDefaults` holds under
    `savedBeacons` when read as `[String]` (None when nothing of that shape is
    stored); `requests` is the append-only log of calls on the location service.
  */
  datatype Manager = Manager(beacons: seq<Beacon>, isMonitoring: bool, saved: Option<seq<string>>, requests: seq<Request>)

  /** A freshly constructed manager over whatever the store already holds. */
  function Init(saved: Option<seq<string>>): (m: Manager)
    ensures m.beacons == [] && !m.isMonitoring && m.requests == [] && m.saved == saved
  {
    Manager([], false, saved, [])
  }

  /** The region identifier of every tracked beacon, in order: what `saveBeacons` writes. */
  function Identifiers(bs: seq<Beacon>): (ids: seq<string>)
    ensures |ids| == |bs|
    ensures forall i :: 0 <= i < |bs| ==> ids[i] == UuidString(bs[i].uuid)
  {
    seq(|bs|, i requires 0 <= i < |bs| => UuidString(bs[i].uuid))
  }

  /** A one-beacon list is stored as the one string. */
  lemma IdentifiersOfOne(b: Beacon)
    ensures Identifiers([b]) == [UuidString(b.uuid)]
  {
  }

  /** `saveBeacons`: the store is overwritten with the identifier list; nothing else changes. */
  function SaveBeacons(m: Manager): (r: Manager)
    ensures r.saved.Some? && |r.saved.value| == |m.beacons|
    ensures forall i :: 0 <= i < |m.beacons| ==> ParseUuid(r.saved.value[i]) == Some(m.beacons[i].uuid)
    ensures r.beacons == m.beacons && r.isMonitoring == m.isMonitoring && r.requests == m.requests
  {
    forall i | 0 <= i < |m.beacons| ensures ParseUuid(UuidString(m.beacons[i].uuid)) == Some(m.beacons[i].uuid) {
      ParseUuidString(m.beacons[i].uuid);
    }
    m.(saved := Some(Identifiers(m.beacons)))
  }

  /**
    `addBeacon(with:)`: a UUID not yet tracked gets a fresh record at the end
    of the list and the store is rewritten; a UUID already tracked leaves the
    whole manager, store included, exactly as it was.
  */
  function AddBeacon(m: Manager, u: Uuid): (r: Manager)
    ensures Tracks(m.beacons, u) ==> r == m
    ensures !Tracks(m.beacons, u) ==>
      && r.beacons == m.beacons + [NewBeacon(u)]
      && r.saved == Some(Identifiers(r.beacons))
      && r.isMonitoring == m.isMonitoring
      && r.requests == m.requests
    ensures Tracks(r.beacons, u)
    ensures Unique(m.beacons) ==> Unique(r.beacons)
  {
    if Tracks(m.beacons, u) then m
    else
      var bs := m.beacons + [NewBeacon(u)];
      assert UuidsOf(bs)[|m.beacons|] == u;
      SaveBeacons(m.(beacons := bs))
  }

  /** `compactMap { UUID(uuidString: $0) }`: the UUIDs of the valid strings, in order; invalid strings are skipped. */
  function ParseAll(ids: seq<string>): (us: seq<Uuid>)
    ensures |us| <= |ids|
  {
    if ids == [] then []
    else
      var rest := ParseAll(ids[1..]);
      match ParseUuid(ids[0])
      case Some(u) => [u] + rest
      case None => rest
  }

  /** A UUID is read from the store exactly when some stored string parses to it. */
  lemma {:induction false} ParseAllMembers(ids: seq<string>, u: Uuid)
    ensures u in ParseAll(ids) <==> exists s :: s in ids && ParseUuid(s) == Some(u)
    decreases |ids|
  {
    if ids != [] {
      ParseAllMembers(ids[1..], u);
      assert forall s :: s in ids <==> s == ids[0] || s in ids[1..];
    }
  }

  lemma ParseAllValidHead(ids: seq<string>, u: Uuid)
    requires ids != [] && ParseUuid(ids[0]) == Some(u)
    ensures ParseAll(ids) == [u] + ParseAll(ids[1..])
  {
  }

  lemma IdentifiersTail(bs: seq<Beacon>)
    requires bs != []
    ensures Identifiers(bs)[1..] == Identifiers(bs[1..])
  {
  }

  /** Every identifier this program writes is read back as the UUID it came from. */
  lemma {:induction false} ParseAllIdentifiers(bs: seq<Beacon>)
    ensures ParseAll(Identifiers(bs)) == UuidsOf(bs)
    decreases |bs|
  {
    if bs != [] {
      var ids := Identifiers(bs);
      assert ParseUuid(ids[0]) == Some(bs[0].uuid) by {
        ParseUuidString(bs[0].uuid);
      }
      ParseAllValidHead(ids, bs[0].uuid);
      IdentifiersTail(bs);
      ParseAllIdentifiers(bs[1..]);
      assert UuidsOf(bs) == [bs[0].uuid] + UuidsOf(bs[1..]);
    }
  }

  /**
    `loadBeacons`: records are appended for the stored UUIDs that are not yet
    tracked, in stored order, each checked against the list as it grows; the
    records already present keep their positions. The store itself is not
    written.
  */
  function LoadBeacons(m: Manager): (r: Manager)
    ensures r.saved == m.saved && r.isMonitoring == m.isMonitoring && r.requests == m.requests
    ensures |m.beacons| <= |r.beacons| && r.beacons[..|m.beacons|] == m.beacons
    ensures forall i :: |m.beacons| <= i < |r.beacons| ==> Pristine(r.beacons[i])
    ensures forall u :: Tracks(r.beacons, u) <==>
      Tracks(m.beacons, u) || (m.saved.Some? && exists s :: s in m.saved.value && ParseUuid(s) == Some(u))
    ensures Unique(m.beacons) ==> Unique(r.beacons)
    ensures m.saved.None? || m.saved.value == [] ==> r == m
  {
    match m.saved
    case None => m
    case Some(ids) =>
      var us := ParseAll(ids);
      var bs := AppendMissing(m.beacons, us);
      AppendMissingIsNewInOrder(m.beacons, us);
      assert bs[..|m.beacons|] == m.beacons;
      forall u ensures Tracks(bs, u) <==> Tracks(m.beacons, u) || exists s :: s in ids && ParseUuid(s) == Some(u) {
        AppendMissingTracks(m.beacons, us, u);
        ParseAllMembers(ids, u);
      }
      if Unique(m.beacons) then
        AppendMissingKeepsUnique(m.beacons, us);
        m.(beacons := bs)
      else
        m.(beacons := bs)
  }

  /** The order of a load: the old list, then the new stored UUIDs in stored order, first occurrence only. */
  lemma LoadBeaconsOrder(m: Manager)
    requires m.saved.Some?
    ensures LoadBeacons(m).beacons == m.beacons + Fresh(NewInOrder(UuidsOf(m.beacons), ParseAll(m.saved.value)))
  {
    AppendMissingIsNewInOrder(m.beacons, ParseAll(m.saved.value));
  }

  /** Loading twice from the same store gives what loading once gives. */
  lemma LoadBeaconsIdempotent(m: Manager)
    ensures LoadBeacons(LoadBeacons(m)) == LoadBeacons(m)
  {
    if m.saved.Some? {
      AppendMissingIdempotent(m.beacons, ParseAll(m.saved.value));
    }
  }

  /**
    Persistence round trip: what `saveBeacons` writes, a new manager loads back
    as the same UUIDs in the same order, every record in its initial state.
  */
  lemma SaveThenLoad(m: Manager)
    requires Unique(m.beacons)
    ensures LoadBeacons(Init(SaveBeacons(m).saved)).beacons == Fresh(UuidsOf(m.beacons))
  {
    ParseAllIdentifiers(m.beacons);
    AppendMissingToEmpty(UuidsOf(m.beacons));
  }

  /** After a first-time add, the store lists exactly the tracked UUIDs, in order, one string per beacon. */
  lemma AddBeaconPersists(m: Manager, u: Uuid)
    requires Unique(m.beacons) && !Tracks(m.beacons, u)
    ensures var r := AddBeacon(m, u);
      && ParseAll(r.saved.value) == UuidsOf(r.beacons)
      && forall i, j :: 0 <= i < j < |r.beacons| ==> r.saved.value[i] != r.saved.value[j]
  {
    var r := AddBeacon(m, u);
    ParseAllIdentifiers(r.beacons);
    forall i, j | 0 <= i < j < |r.beacons| ensures r.saved.value[i] != r.saved.value[j] {
      UuidStringInjective(r.beacons[i].uuid, r.beacons[j].uuid);
    }
  }

  /** Adding a UUID twice leaves one record for it: the second add changes nothing. */
  lemma AddBeaconTwice(m: Manager, u: Uuid)
    ensures AddBeacon(AddBeacon(m, u), u) == AddBeacon(m, u)
  {
  }

  // ---------------------------------------------------------------------------
  // toggleMonitoring
  // ---------------------------------------------------------------------------

  /** The requests of the `toggleMonitoring` loop when monitoring was off: start monitoring each region. */
  function StartRequests(bs: seq<Beacon>): (rs: seq<Request>)
    ensures |rs| == |bs|
    ensures forall i :: 0 <= i < |bs| ==> rs[i] == StartMonitoring(UuidString(bs[i].uuid))
  {
    if bs == [] then []
    else
      var rest := StartRequests(bs[1..]);
      assert forall i :: 1 <= i < |bs| ==> bs[i] == bs[1..][i - 1];
      [StartMonitoring(UuidString(bs[0].uuid))] + rest
  }

  /** The requests of the `toggleMonitoring` loop when monitoring was on: stop monitoring, then stop ranging, per beacon. */
  function StopRequests(bs: seq<Beacon>): (rs: seq<Request>)
    ensures |rs| == 2 * |bs|
    ensures forall i :: 0 <= i < |bs| ==> StopsAt(rs, 2 * i, bs[i])
  {
    if bs == [] then []
    else
      var rest := StopRequests(bs[1..]);
      var rs := [StopMonitoring(UuidString(bs[0].uuid)), StopRanging(bs[0].uuid)] + rest;
      StopRequestsShift(bs, rest, rs);
      rs
  }

  /** Positions `k` and `k + 1` stop monitoring and stop ranging beacon `b`. */
  predicate StopsAt(rs: seq<Request>, k: int, b: Beacon)
    requires 0 <= k && k + 1 < |rs|
  {
    rs[k] == StopMonitoring(UuidString(b.uuid)) && rs[k + 1] == StopRanging(b.uuid)
  }

  lemma StopRequestsShift(bs: seq<Beacon>, rest: seq<Request>, rs: seq<Request>)
    requires bs != [] && |rest| == 2 * (|bs| - 1)
    requires forall i :: 0 <= i < |bs| - 1 ==> StopsAt(rest, 2 * i, bs[1..][i])
    requires rs == [StopMonitoring(UuidString(bs[0].uuid)), StopRanging(bs[0].uuid)] + rest
    ensures forall i :: 0 <= i < |bs| ==> StopsAt(rs, 2 * i, bs[i])
  {
    forall i | 0 <= i < |bs| ensures StopsAt(rs, 2 * i, bs[i]) {
      if i > 0 {
        assert StopsAt(rest, 2 * (i - 1), bs[1..][i - 1]);
        assert rs[2 * i] == rest[2 * (i - 1)] && rs[2 * i + 1] == rest[2 * (i - 1) + 1];
      }
    }
  }

  /** The record resets of the `toggleMonitoring` loop when monitoring was on. */
  function ResetAll(bs: seq<Beacon>): (r: seq<Beacon>)
    ensures |r| == |bs|
    ensures forall i :: 0 <= i < |bs| ==> r[i] == NewBeacon(bs[i].uuid)
  {
    seq(|bs|, i requires 0 <= i < |bs| => Reset(bs[i]))
  }

  /**
    `toggleMonitoring`: the flag always flips. Stopping issues a stop-monitoring
    and a stop-ranging request per beacon, in list order, and puts every record
    back in its initial state; starting issues one start-monitoring request per
    beacon and changes no record. The store is not touched.
  */
  function ToggleMonitoring(m: Manager): (r: Manager)
    ensures r.isMonitoring == !m.isMonitoring && r.saved == m.saved
    ensures |r.beacons| == |m.beacons| && |m.requests| <= |r.requests| && r.requests[..|m.requests|] == m.requests
    ensures m.isMonitoring ==>
      && |r.requests| == |m.requests| + 2 * |m.beacons|
      && forall i :: 0 <= i < |m.beacons| ==>
        && r.beacons[i] == NewBeacon(m.beacons[i].uuid)
        && r.requests[|m.requests| + 2 * i] == StopMonitoring(UuidString(m.beacons[i].uuid))
        && r.requests[|m.requests| + 2 * i + 1] == StopRanging(m.beacons[i].uuid)
    ensures !m.isMonitoring ==>
      && r.beacons == m.beacons
      && |r.requests| == |m.requests| + |m.beacons|
      && forall i :: 0 <= i < |m.beacons| ==>
        r.requests[|m.requests| + i] == StartMonitoring(UuidString(m.beacons[i].uuid))
  {
    if m.isMonitoring then
      var log := StopRequests(m.beacons);
      assert (m.requests + log)[..|m.requests|] == m.requests;
      m.(beacons := ResetAll(m.beacons), requests := m.requests + log, isMonitoring := false)
    else
      var log := StartRequests(m.beacons);
      assert (m.requests + log)[..|m.requests|] == m.requests;
      m.(requests := m.requests + log, isMonitoring := true)
  }

  /** Toggling never changes which UUIDs are tracked, so it keeps them unique. */
  lemma ToggleKeepsUuids(m: Manager)
    ensures UuidsOf(ToggleMonitoring(m).beacons) == UuidsOf(m.beacons)
  {
  }

  /** Starting and then stopping monitoring returns every record to its initial state. */
  lemma ToggleTwiceResets(m: Manager)
    requires !m.isMonitoring
    ensures var r := ToggleMonitoring(ToggleMonitoring(m));
      && !r.isMonitoring
      && r.beacons == Fresh(UuidsOf(m.beacons))
      && |r.requests| == |m.requests| + 3 * |m.beacons|
  {
  }

}
