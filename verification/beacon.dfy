/**
  The `Beacon` record: one tracked UUID and the three display fields the list
  row shows. The display strings and colours are replaced by tags that carry
  the same information.
*/
module Beacons {
  import opened Uuids

  /** Raw values of CoreLocation's `CLProximity`; any other raw value is possible in principle. */
  const ProximityUnknown: int := 0
  const ProximityImmediate: int := 1
  const ProximityNear: int := 2
  const ProximityFar: int := 3

  /** The proximity word shown in a reading: "very near", "near", "far" or "unknown". */
  datatype ProximityLabel = VeryNear | Near | Far | Unknown

  /** `information`: the initial placeholder, or the proximity word and RSSI of the last reading. */
  datatype Information = NoReading | Reading(word: ProximityLabel, rssi: int)

  /** `stateInformation`: the initial question "in the region?", then in-region, entered or left. */
  datatype RegionText = NotDetermined | InRegion | Entered | Left

  /** `backgroundColor`: white, or red while highlighted by a reading. */
  datatype Color = White | Red

  datatype Beacon = Beacon(uuid: Uuid, information: Information, stateInformation: RegionText, background: Color)

  /** One element of a ranging callback: the identity, proximity and RSSI of a `CLBeacon`. */
  datatype Observation = Observation(uuid: Uuid, proximity: int, rssi: int)

  /** All three display fields hold their initial values. */
  predicate Pristine(b: Beacon) {
    b.information == NoReading && b.stateInformation == NotDetermined && b.background == White
  }

  /** `Beacon(uuid:)`. */
  function NewBeacon(u: Uuid): (b: Beacon)
    ensures b.uuid == u && Pristine(b)
  {
    Beacon(u, NoReading, NotDetermined, White)
  }

  /** The proximity `switch` of `Beacon.update`: three named categories, everything else unknown. */
  function Label(proximity: int): (l: ProximityLabel)
    ensures proximity == ProximityImmediate <==> l == VeryNear
    ensures proximity == ProximityNear <==> l == Near
    ensures proximity == ProximityFar <==> l == Far
    ensures l == Unknown <==> proximity !in {ProximityImmediate, ProximityNear, ProximityFar}
  {
    if proximity == ProximityImmediate then VeryNear
    else if proximity == ProximityNear then Near
    else if proximity == ProximityFar then Far
    else Unknown
  }

  /** `Beacon.update(with:)`: record the reading and highlight the row; identity and region text stay. */
  function Update(b: Beacon, ob: Observation): (r: Beacon)
    ensures r.uuid == b.uuid && r.stateInformation == b.stateInformation
    ensures r.background == Red && r.information.Reading?
    ensures r.information.word == Label(ob.proximity) && r.information.rssi == ob.rssi
  {
    b.(information := Reading(Label(ob.proximity), ob.rssi), background := Red)
  }

  /** The per-beacon reset of `toggleMonitoring` when monitoring stops. */
  function Reset(b: Beacon): (r: Beacon)
    ensures r == NewBeacon(b.uuid)
  {
    b.(background := White, information := NoReading, stateInformation := NotDetermined)
  }

  /** A reading overwrites the previous one: only the latest observation is visible. */
  lemma UpdateOverwrites(b: Beacon, ob1: Observation, ob2: Observation)
    ensures Update(Update(b, ob1), ob2) == Update(b, ob2)
  {
  }

  /** A reset forgets every reading, whatever the beacon went through. */
  lemma ResetForgetsUpdate(b: Beacon, ob: Observation)
    ensures Reset(Update(b, ob)) == Reset(b) == NewBeacon(b.uuid)
  {
  }

}
