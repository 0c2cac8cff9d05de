# iBeacon tracker: the `BeaconManager` state machine in Dafny

This project models the coordinator of a small iOS app. The user registers
iBeacon UUIDs, switches monitoring on and off, and sees each beacon's proximity,
RSSI and region status in a list. The coordinator is `BeaconManager` and its
`Beacon` record (`ibeaconprogram/BeaconManager.swift`). It owns:

- an ordered list of tracked beacons that never holds the same UUID twice
  (`addBeacon`, `loadBeacons`);
- the persisted identifier list (`saveBeacons`, the `savedBeacons` key of
  `UserDefaults`);
- the monitoring flag and its two-state toggle (`toggleMonitoring`);
- the `CLLocationManagerDelegate` callbacks. A region callback edits at most
  the first record whose `uuidString` equals the region identifier; the
  monitoring-started callback edits no record and only asks for the region's
  state; a ranging batch edits, per observation, the first record with that
  UUID, so one batch can update several records.

The model is functional. The manager is an immutable datatype, and every
operation and callback is a pure transition. Calls on `CLLocationManager` are
appended to a request log. The app's display strings and colours become
enumeration tags.

Modules, following the program's structure:

| file | module | what it holds |
|---|---|---|
| `options.dfy` | `Options` | `Option`, for Swift optionals |
| `uuid.dfy` | `Uuids` | `UUID` as 16 bytes, `uuidString`, `UUID(uuidString:)`, and the round trip between them |
| `beacon.dfy` | `Beacons` | the `Beacon` record, `Beacon.init`, `Beacon.update`, and the proximity mapping |
| `tracked.dfy` | `Tracked` | the tracked list: uniqueness, `first(where:)` edits, and the append-if-missing loop of `loadBeacons` |
| `manager.dfy` | `Manager` | the manager state, `addBeacon`, `saveBeacons`, `loadBeacons`, `toggleMonitoring` |
| `callbacks.dfy` | `Callbacks` | the delegate callbacks and `updateBeacon` |
| `session.dfy` | `Session` | all actions as one step function, the invariant over any run, and the end-to-end scenario |

Design points that the proofs depend on:

- **Matching by string.** The region callbacks find their record by
  comparing `uuid.uuidString` with the region identifier. `UuidString` is
  defined concretely as upper-case 8-4-4-4-12 hexadecimal. Its injectivity is
  proved (`Uuids.UuidStringInjective`) from a left inverse, not assumed. So
  "the record whose string equals the identifier of the region named after
  `u`" is exactly "the record with UUID `u`".
- **Force-unwraps.** The region callbacks force-unwrap
  `UUID(uuidString: region.identifier)`. This is modelled by `ParseUuid`. A
  failed unwrap is an explicit `Crash` outcome. For every region this program
  creates, the identifier is some `UuidString(u)`, and
  `Callbacks.NoCrashOnUuidRegions` shows such callbacks never crash.
- **Edits in place.** `Beacon` is a class, so `beacons.first(where:)?.field = v`
  edits the record inside the list. `Tracked.EditFirst` models this edit of
  the first matching position.

Details of the code that the model keeps exactly as written:

- `didDetermineState` takes its "outside" branch for every state other than
  `.inside`, including `.unknown`.
- When the state is inside but ranging is unavailable, the region text is not
  updated.
- Entering a region sets its own text ("entered"). This is distinct from the
  "in the region" text set by a determined inside state. Exiting sets "left".
- Turning monitoring off also clears the last reading (`information`), not
  only the region text and the highlight.
- `loadBeacons` does not write the store back.

## Model

| member | source | states |
|---|---|---|
| `Uuids.UuidString` | ibeaconprogram/BeaconManager.swift:83 | a region identifier is 36 characters, with hyphens at positions 8, 13, 18 and 23 |
| `Uuids.ParseUuidString` | ibeaconprogram/BeaconManager.swift:106 | parsing the `uuidString` of `u` gives back `u`, so the force-unwrap of a region this program created cannot fail |
| `Uuids.UuidStringInjective` | ibeaconprogram/BeaconManager.swift:107 | two UUIDs have equal strings if and only if they are equal, so matching on `uuidString` is matching on the UUID |
| `Beacons.NewBeacon` | ibeaconprogram/BeaconManager.swift:164-172 | a new record carries the given UUID, with all three display fields at their initial values |
| `Beacons.Label` | ibeaconprogram/BeaconManager.swift:176-185 | immediate, near and far each map to their own word, and every other proximity value maps to "unknown" |
| `Beacons.Update` | ibeaconprogram/BeaconManager.swift:174-188 | a reading shows the proximity word and RSSI of the observation and turns the row red; UUID and region text are untouched |
| `Beacons.Reset` | ibeaconprogram/BeaconManager.swift:87-89 | the stop-monitoring reset returns a record to exactly the state of a newly constructed one |
| `Beacons.UpdateOverwrites` | ibeaconprogram/BeaconManager.swift:186-187 | a second reading completely replaces the first |
| `Beacons.ResetForgetsUpdate` | ibeaconprogram/BeaconManager.swift:87-89 | a reset forgets any reading |
| `Tracked.IdentifierKeyIsUuidKey` | ibeaconprogram/BeaconManager.swift:107 | a record matches the region named after `u` if and only if its UUID is `u` |
| `Tracked.EditFirst` | ibeaconprogram/BeaconManager.swift:107 | `first(where:)?.field = v` changes only the first matching position, and leaves the list unchanged when nothing matches |
| `Tracked.EditFirstKeepsUuids` | ibeaconprogram/BeaconManager.swift:129-130 | editing a record never changes which UUIDs are tracked, or their positions |
| `Tracked.EditFirstOfUnique` | ibeaconprogram/BeaconManager.swift:39 | in a duplicate-free list, exactly the records matching the key are edited |
| `Tracked.EditFirstWithoutMatch` | ibeaconprogram/BeaconManager.swift:136 | when no record matches, the list is unchanged |
| `Tracked.Admit` | ibeaconprogram/BeaconManager.swift:51-53 | one round of the load loop: a tracked UUID leaves the list exactly as it was; otherwise one fresh record for it is appended at the end; either way the old list is a prefix and the UUID is tracked afterwards |
| `Tracked.AppendMissing` | ibeaconprogram/BeaconManager.swift:50-54 | the load loop keeps the old list as a prefix, and every UUID of the input is tracked afterwards |
| `Tracked.AppendMissingIsNewInOrder` | ibeaconprogram/BeaconManager.swift:50-54 | the load loop equals the old list followed by fresh records for the UUIDs that are neither tracked nor repeated earlier, in input order |
| `Tracked.AppendMissingKeepsUnique` | ibeaconprogram/BeaconManager.swift:51 | the load loop keeps the list duplicate-free, even when the input repeats a UUID |
| `Tracked.AppendMissingTracks` | ibeaconprogram/BeaconManager.swift:50-54 | after the loop, a UUID is tracked if and only if it was tracked before or occurs in the input |
| `Tracked.AppendMissingIdempotent` | ibeaconprogram/BeaconManager.swift:47-56 | running the loop a second time on the same input appends nothing |
| `Tracked.AppendMissingToEmpty` | ibeaconprogram/BeaconManager.swift:49-54 | loading a duplicate-free list into an empty list reproduces it in order |
| `Manager.Init` | ibeaconprogram/BeaconManager.swift:21-22 | a new manager tracks nothing, is not monitoring, and has issued no request |
| `Manager.Identifiers` | ibeaconprogram/BeaconManager.swift:156 | the stored list has one entry per beacon, and entry `i` is the `uuidString` of beacon `i` |
| `Manager.SaveBeacons` | ibeaconprogram/BeaconManager.swift:155-158 | saving writes one string per beacon, and each string parses back to that beacon's UUID; nothing else changes |
| `Manager.AddBeacon` | ibeaconprogram/BeaconManager.swift:27-36 | a new UUID is appended as a fresh record and the store is rewritten to mirror the list; a UUID already tracked leaves everything unchanged, store included; uniqueness is kept |
| `Manager.AddBeaconPersists` | ibeaconprogram/BeaconManager.swift:31 | after a first-time add, the store reads back as exactly the tracked UUIDs in order, with no string repeated |
| `Manager.AddBeaconTwice` | ibeaconprogram/BeaconManager.swift:28 | adding the same UUID twice has the effect of adding it once |
| `Manager.ParseAll` | ibeaconprogram/BeaconManager.swift:49 | `compactMap` yields at most one UUID per stored string |
| `Manager.ParseAllValidHead` | ibeaconprogram/BeaconManager.swift:49 | a valid first string contributes its UUID at the front |
| `Manager.ParseAllMembers` | ibeaconprogram/BeaconManager.swift:49 | a UUID is read from the store if and only if some stored string parses to it; invalid strings are skipped |
| `Manager.ParseAllIdentifiers` | ibeaconprogram/BeaconManager.swift:156 | every string this program stores parses back, so the stored list reads back as the tracked UUIDs in order |
| `Manager.LoadBeacons` | ibeaconprogram/BeaconManager.swift:47-56 | existing records keep their positions; appended records are fresh; a UUID is tracked afterwards if and only if it was tracked before or is stored; uniqueness is kept; an empty or missing store changes nothing |
| `Manager.LoadBeaconsOrder` | ibeaconprogram/BeaconManager.swift:50-54 | new records follow the old ones in stored order, first occurrence only |
| `Manager.LoadBeaconsIdempotent` | ibeaconprogram/BeaconManager.swift:47-56 | loading twice from the same store equals loading once |
| `Manager.SaveThenLoad` | ibeaconprogram/BeaconManager.swift:155-158 | what `saveBeacons` writes, a new manager loads back as the same UUIDs in the same order, with fresh records |
| `Manager.StartRequests` | ibeaconprogram/BeaconManager.swift:90-91 | starting issues one request per beacon: position `i` starts monitoring the region named after beacon `i` |
| `Manager.StopRequests` | ibeaconprogram/BeaconManager.swift:84-86 | stopping issues two requests per beacon: position `2i` stops monitoring beacon `i`'s region, and position `2i+1` stops ranging its UUID |
| `Manager.ResetAll` | ibeaconprogram/BeaconManager.swift:87-89 | every record returns to the state of a newly constructed record with the same UUID, in the same position |
| `Manager.ToggleMonitoring` | ibeaconprogram/BeaconManager.swift:81-96 | the flag always flips and the log only grows. Stopping gives every record its initial fields and logs two stop requests per beacon, in list order. Starting logs one start request per beacon and changes no record |
| `Manager.ToggleKeepsUuids` | ibeaconprogram/BeaconManager.swift:82-93 | toggling keeps the tracked UUIDs and their order |
| `Manager.ToggleTwiceResets` | ibeaconprogram/BeaconManager.swift:84-94 | start then stop returns to not monitoring, with every record fresh and three requests per beacon |
| `Callbacks.EditRecord` | ibeaconprogram/BeaconManager.swift:107 | editing a record keeps the store, the flag and the UUID list, and issues no request |
| `Callbacks.Issue` | ibeaconprogram/BeaconManager.swift:99 | issuing a request appends exactly that request and changes no record |
| `Callbacks.OnStartMonitoring` | ibeaconprogram/BeaconManager.swift:98-101 | a started region gets exactly one state request, and no record changes |
| `Callbacks.OnDetermineState` | ibeaconprogram/BeaconManager.swift:103-115 | crash if and only if the identifier is not a UUID and the handler needs it. Inside without ranging changes nothing. Inside with ranging starts ranging and marks "in the region". Any other state stops ranging and clears the highlight |
| `Callbacks.OnEnterRegion` | ibeaconprogram/BeaconManager.swift:117-125 | crash only when ranging is available and the identifier is not a UUID; the record is marked "entered" either way; ranging is requested only when available |
| `Callbacks.OnExitRegion` | ibeaconprogram/BeaconManager.swift:127-131 | crash if and only if the identifier is not a UUID; otherwise ranging stops and the record turns white and reads "left" |
| `Callbacks.UpdateBeacon` | ibeaconprogram/BeaconManager.swift:38-43 | the first record with the observed UUID takes the reading; the store, the flag, the UUID list and the log are kept |
| `Callbacks.OnRangeBeacons` | ibeaconprogram/BeaconManager.swift:133-140 | a ranging batch issues no request and keeps the store, the flag and the UUID list |
| `Callbacks.Handle` | ibeaconprogram/BeaconManager.swift:98-140 | a callback crashes only on an identifier that is not a UUID; otherwise it keeps the store, the flag and the UUIDs, and appends at most one request |
| `Callbacks.EditRegionOfUuid` | ibeaconprogram/BeaconManager.swift:124 | in a duplicate-free list, a region named after `u` edits exactly the record with UUID `u` |
| `Callbacks.NoCrashOnUuidRegions` | ibeaconprogram/BeaconManager.swift:128 | no callback about a region named after a UUID crashes |
| `Callbacks.ExitRegionOfUuid` | ibeaconprogram/BeaconManager.swift:127-131 | exiting the region of `u` logs a stop-ranging request for `u`; that record turns white and reads "left"; every other record is unchanged |
| `Callbacks.EnterRegionOfUuid` | ibeaconprogram/BeaconManager.swift:117-125 | entering the region of `u` marks only that record "entered", and logs start-ranging for `u` exactly when ranging is available |
| `Callbacks.DetermineInsideOfUuid` | ibeaconprogram/BeaconManager.swift:104-107 | inside the region of `u` with ranging, start ranging `u` and mark only that record "in the region" |
| `Callbacks.DetermineNotInsideOfUuid` | ibeaconprogram/BeaconManager.swift:111-114 | for any state but inside, stop ranging `u` and clear only that record's highlight |
| `Callbacks.UpdateBeaconOfUuid` | ibeaconprogram/BeaconManager.swift:39-40 | a reading for `u` changes only the record with UUID `u`, which shows the reading's word and RSSI and turns red |
| `Callbacks.LastFor` | ibeaconprogram/BeaconManager.swift:134 | the observation of `u` that no later observation of `u` follows, that is, the last one; None if and only if `u` is not observed |
| `Callbacks.OnRangeBeaconsSnoc` | ibeaconprogram/BeaconManager.swift:134-139 | one more observation at the end of a batch is applied after the rest |
| `Callbacks.RangeBeaconsEffect` | ibeaconprogram/BeaconManager.swift:133-140 | after a batch, each record shows the last reading of its UUID, and records whose UUID was not observed are unchanged |
| `Callbacks.RangeUntracked` | ibeaconprogram/BeaconManager.swift:136 | a batch that observes no tracked UUID changes nothing |
| `Session.Step` | ibeaconprogram/ContentView.swift:32-41 | of the actions (add, load, toggle, callback), only a callback can crash, and only on an identifier that is not a UUID |
| `Session.StepKeepsUnique` | ibeaconprogram/BeaconManager.swift:28 | every action keeps the tracked UUIDs pairwise distinct |
| `Session.RunKeepsUnique` | ibeaconprogram/BeaconManager.swift:51 | any sequence of actions keeps the tracked UUIDs pairwise distinct |
| `Session.ReachableUnique` | ibeaconprogram/BeaconManager.swift:21 | whatever the store holds at start-up, no reachable manager tracks a UUID twice |
| `Session.ScenarioAdd` | ibeaconprogram/BeaconManager.swift:27-31 | adding `u` to an empty manager yields exactly one fresh record and stores exactly its string |
| `Session.ScenarioStart` | ibeaconprogram/BeaconManager.swift:90-94 | starting with one beacon issues exactly one start-monitoring request and changes no record |
| `Session.ScenarioEnter` | ibeaconprogram/BeaconManager.swift:117-125 | entering that beacon's region logs start-ranging and marks the record "entered", nothing else |
| `Session.ScenarioRange` | ibeaconprogram/BeaconManager.swift:133-140 | a "near" reading with RSSI -60 shows on the record and turns it red, nothing else |
| `Session.ScenarioStop` | ibeaconprogram/BeaconManager.swift:84-94 | stopping with one beacon logs its two stop requests and leaves a fresh record with monitoring off |
| `Session.Scenario` | ibeaconprogram/BeaconManager.swift:27-140 | add, start, enter, a "near" reading with RSSI -60, then stop: each step's record state and request log, ending with a fresh record and monitoring off |

## Left out

- CoreLocation itself is not modelled. Region and constraint objects are named by their identifier or UUID. The authorization request and the `isMonitoringAvailable` query in `setup()` are left out. `isRangingAvailable()` is a parameter of the callbacks.
- `UserDefaults` I/O is reduced to the `saved` field. A value that is missing, or is not a `[String]`, is `None`.
- `Uuids.ParseUuid` accepts the string form of section 3 of RFC 4122, with hexadecimal digits of either case. Foundation's own parser is not part of this model, and it may accept other spellings.
- The `accuracy` reading and its `%.2f` formatting are left out, because they are floating point. An observation keeps only its proximity and RSSI.
- The exact display strings and colours are left out. They are replaced by the tags `NoReading`/`Reading`, `NotDetermined`/`InRegion`/`Entered`/`Left` and `White`/`Red`.
- The error callbacks at lines 142-152 are left out, because they only print.
- All `print` logging is left out, including the "already exists" message of a duplicate add.
- Combine and SwiftUI plumbing is left out: `@Published`, `objectWillChange`, and the unused `subscribeToChanges`.
- The views in `ContentView.swift` and `SettingsView.swift` are left out as drawing code. Their calls into the coordinator are modelled as `Session.Action` values:
  - `Session.Load` is the `setup()` call that `ContentView` makes each time it appears (`ContentView.swift:39-41`). `setup()` runs `loadBeacons` first.
  - `Session.Add` is the settings screen's submit (`SettingsView.swift:21-25`). That screen parses the typed text with `UUID(uuidString:)`, silently ignores text that does not parse, and calls `addBeacon` only with a parsed UUID. So `Add` carries an already parsed `Uuid`.
  - `Session.Toggle` is the search / pause button (`ContentView.swift:32-34`).
- A crash is modelled as a terminal `Crash` outcome. Nothing after a crash is modelled.
