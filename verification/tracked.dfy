/**
  The ordered list of tracked beacons (`BeaconManager.beacons`) and the two
  ways it is touched: appending records for UUIDs not yet present, and editing
  the first record that matches a key in place.
*/
module Tracked {
  import opened Uuids
  import opened Beacons

  /** The UUIDs of the list, in order. */
  function UuidsOf(bs: seq<Beacon>): (us: seq<Uuid>)
    ensures |us| == |bs|
    ensures forall i :: 0 <= i < |bs| ==> us[i] == bs[i].uuid
  {
    seq(|bs|, i requires 0 <= i < |bs| => bs[i].uuid)
  }

  /** `beacons.contains(where: { $0.uuid == u })`. */
  predicate Tracks(bs: seq<Beacon>, u: Uuid) {
    u in UuidsOf(bs)
  }

  /** No value occurs twice in a sequence of UUIDs. */
  predicate Distinct(us: seq<Uuid>) {
    forall i, j :: 0 <= i < j < |us| ==> us[i] != us[j]
  }

  /** No UUID is tracked twice: the key invariant of the list. */
  predicate Unique(bs: seq<Beacon>) {
    Distinct(UuidsOf(bs))
  }

  lemma UuidsOfAppend(a: seq<Beacon>, b: seq<Beacon>)
    ensures UuidsOf(a + b) == UuidsOf(a) + UuidsOf(b)
  {
  }

  // ---------------------------------------------------------------------------
  // Editing the record that a callback refers to
  // ---------------------------------------------------------------------------

  /**
    How a callback names a record: ranging callbacks compare `uuid` values,
    region callbacks compare `uuid.uuidString` with the region identifier.
  */
  datatype Key = ByUuid(uuid: Uuid) | ByIdentifier(identifier: string)

  predicate Matches(b: Beacon, k: Key) {
    match k
    case ByUuid(u) => b.uuid == u
    case ByIdentifier(s) => UuidString(b.uuid) == s
  }

  /** A region named after a UUID matches exactly the records with that UUID. */
  lemma IdentifierKeyIsUuidKey(b: Beacon, u: Uuid)
    ensures Matches(b, ByIdentifier(UuidString(u))) <==> Matches(b, ByUuid(u))
  {
    UuidStringInjective(b.uuid, u);
  }

  /** The field changes a callback makes to the record it finds. */
  datatype Edit =
    | Observe(ob: Observation)      // `beacon.update(with:)`
    | MarkRegion(text: RegionText)  // `stateInformation = ...`
    | Unhighlight                   // `backgroundColor = .white`
    | Exit                          // white background and "left the region"

  function Apply(b: Beacon, e: Edit): (r: Beacon)
    ensures r.uuid == b.uuid
  {
    match e
    case Observe(ob) => Update(b, ob)
    case MarkRegion(t) => b.(stateInformation := t)
    case Unhighlight => b.(background := White)
    case Exit => b.(background := White, stateInformation := Left)
  }

  /** Position `i` holds the first record that matches `k`. */
  predicate FirstMatchAt(bs: seq<Beacon>, k: Key, i: int) {
    0 <= i < |bs| && Matches(bs[i], k) && forall j :: 0 <= j < i ==> !Matches(bs[j], k)
  }

  /**
    `beacons.first(where: k)?.<edit>`: `Beacon` is a class, so the edit lands on
    the record inside the list; every other position is left as it was, and
    nothing happens when no record matches.
  */
  function EditFirst(bs: seq<Beacon>, k: Key, e: Edit): (r: seq<Beacon>)
    ensures |r| == |bs|
    ensures forall i :: 0 <= i < |bs| ==> r[i] == (if FirstMatchAt(bs, k, i) then Apply(bs[i], e) else bs[i])
  {
    if bs == [] then []
    else if Matches(bs[0], k) then
      var r := [Apply(bs[0], e)] + bs[1..];
      assert forall i :: 0 < i < |bs| ==> !FirstMatchAt(bs, k, i);
      r
    else
      var rest := EditFirst(bs[1..], k, e);
      FirstMatchShift(bs, k);
      [bs[0]] + rest
  }

  /** Past a non-matching head, the first match of the tail is the first match of the list. */
  lemma FirstMatchShift(bs: seq<Beacon>, k: Key)
    requires bs != [] && !Matches(bs[0], k)
    ensures forall i :: 0 < i < |bs| ==> (FirstMatchAt(bs, k, i) <==> FirstMatchAt(bs[1..], k, i - 1))
  {
    forall i | 0 < i < |bs| ensures FirstMatchAt(bs, k, i) <==> FirstMatchAt(bs[1..], k, i - 1) {
      assert forall j :: 0 < j < i ==> bs[j] == bs[1..][j - 1];
    }
  }

  /** Editing never changes which UUIDs are tracked, or where. */
  lemma EditFirstKeepsUuids(bs: seq<Beacon>, k: Key, e: Edit)
    ensures UuidsOf(EditFirst(bs, k, e)) == UuidsOf(bs)
  {
  }

  /** With unique UUIDs, "the first match" is "the match": exactly the matching records change. */
  lemma EditFirstOfUnique(bs: seq<Beacon>, k: Key, e: Edit)
    requires Unique(bs)
    ensures forall i :: 0 <= i < |bs| ==>
      EditFirst(bs, k, e)[i] == (if Matches(bs[i], k) then Apply(bs[i], e) else bs[i])
  {
    forall i, j | 0 <= j < i < |bs| && Matches(bs[i], k)
      ensures !Matches(bs[j], k)
    {
      if k.ByIdentifier? {
        UuidStringInjective(bs[i].uuid, bs[j].uuid);
      }
    }
  }

  /** Nothing changes when no record matches. */
  lemma EditFirstWithoutMatch(bs: seq<Beacon>, k: Key, e: Edit)
    requires forall i :: 0 <= i < |bs| ==> !Matches(bs[i], k)
    ensures EditFirst(bs, k, e) == bs
  {
  }

  // ---------------------------------------------------------------------------
  // Appending records for new UUIDs
  // ---------------------------------------------------------------------------

  /** One round of the `loadBeacons` loop: append a fresh record unless the UUID is already tracked. */
  function Admit(bs: seq<Beacon>, u: Uuid): (r: seq<Beacon>)
    ensures Tracks(r, u)
    ensures |bs| <= |r| && r[..|bs|] == bs
    ensures Tracks(bs, u) ==> r == bs
    ensures !Tracks(bs, u) ==> r == bs + [NewBeacon(u)]
  {
    if Tracks(bs, u) then bs
    else
      assert UuidsOf(bs + [NewBeacon(u)])[|bs|] == u;
      bs + [NewBeacon(u)]
  }

  /** The `loadBeacons` loop: admit the UUIDs one after the other, each checked against the grown list. */
  function AppendMissing(bs: seq<Beacon>, us: seq<Uuid>): (r: seq<Beacon>)
    ensures |bs| <= |r| && r[..|bs|] == bs
    ensures forall u :: u in us ==> Tracks(r, u)
    decreases |us|
  {
    if us == [] then bs
    else
      var next := Admit(bs, us[0]);
      var r := AppendMissing(next, us[1..]);
      assert r[..|bs|] == r[..|next|][..|bs|];
      forall u | u in us ensures Tracks(r, u) {
        if u == us[0] {
          assert u in UuidsOf(next);
          assert UuidsOf(next)[..] == UuidsOf(r)[..|next|];
          var i :| 0 <= i < |next| && UuidsOf(next)[i] == u;
          assert UuidsOf(r)[i] == u;
        } else {
          assert u in us[1..];
        }
      }
      r
  }

  /** Fresh records for the given UUIDs, in order. */
  function Fresh(us: seq<Uuid>): (bs: seq<Beacon>)
    ensures |bs| == |us|
    ensures forall i :: 0 <= i < |us| ==> bs[i] == NewBeacon(us[i])
    ensures UuidsOf(bs) == us
  {
    seq(|us|, i requires 0 <= i < |us| => NewBeacon(us[i]))
  }

  /**
    Reference definition, read from the back: the UUIDs of `us` that are not in
    `seen` and not repeats of an earlier element, in the order of `us`.
  */
  function NewInOrder(seen: seq<Uuid>, us: seq<Uuid>): (r: seq<Uuid>)
    ensures forall x :: x in r <==> x in us && x !in seen
    ensures Distinct(r)
    decreases |us|
  {
    if us == [] then []
    else
      var init, u := us[..|us| - 1], us[|us| - 1];
      assert us == init + [u];
      NewInOrder(seen, init) + (if u in seen || u in init then [] else [u])
  }

  lemma NewInOrderSnoc(seen: seq<Uuid>, init: seq<Uuid>, u: Uuid)
    ensures NewInOrder(seen, init + [u]) == NewInOrder(seen, init) + (if u in seen || u in init then [] else [u])
  {
    var us := init + [u];
    assert us[..|us| - 1] == init;
  }

  lemma {:induction false} AppendMissingSnoc(bs: seq<Beacon>, us: seq<Uuid>, u: Uuid)
    ensures AppendMissing(bs, us + [u]) == Admit(AppendMissing(bs, us), u)
    decreases |us|
  {
    if us == [] {
      assert AppendMissing(bs, [u]) == AppendMissing(Admit(bs, u), []);
    } else {
      assert (us + [u])[0] == us[0];
      assert (us + [u])[1..] == us[1..] + [u];
      AppendMissingSnoc(Admit(bs, us[0]), us[1..], u);
    }
  }

  /**
    What loading does, stated without the loop: the existing records stay where
    they are, followed by one fresh record for each UUID that was neither
    tracked nor seen earlier in `us`, in the order of `us`.
  */
  lemma {:induction false} AppendMissingIsNewInOrder(bs: seq<Beacon>, us: seq<Uuid>)
    ensures AppendMissing(bs, us) == bs + Fresh(NewInOrder(UuidsOf(bs), us))
    decreases |us|
  {
    if us == [] {
      assert bs + Fresh([]) == bs;
    } else {
      var init, u := us[..|us| - 1], us[|us| - 1];
      assert us == init + [u];
      var n := NewInOrder(UuidsOf(bs), init);
      AppendMissingSnoc(bs, init, u);
      AppendMissingIsNewInOrder(bs, init);
      NewInOrderSnoc(UuidsOf(bs), init, u);
      AdmitAfterFresh(bs, n, init, u);
    }
  }

  /** One more round of the loop, on a list already of the closed form. */
  lemma AdmitAfterFresh(bs: seq<Beacon>, n: seq<Uuid>, init: seq<Uuid>, u: Uuid)
    requires u in n <==> u in init && u !in UuidsOf(bs)
    ensures Admit(bs + Fresh(n), u)
      == bs + Fresh(n + (if u in UuidsOf(bs) || u in init then [] else [u]))
  {
    TracksAfterFresh(bs, n, u);
    if u in UuidsOf(bs) || u in init {
      assert Admit(bs + Fresh(n), u) == bs + Fresh(n);
      assert n + [] == n;
    } else {
      assert Admit(bs + Fresh(n), u) == bs + Fresh(n) + [NewBeacon(u)];
      FreshSnoc(n, u);
      assert bs + Fresh(n) + [NewBeacon(u)] == bs + (Fresh(n) + [NewBeacon(u)]);
    }
  }

  lemma TracksAfterFresh(bs: seq<Beacon>, n: seq<Uuid>, u: Uuid)
    ensures Tracks(bs + Fresh(n), u) <==> u in UuidsOf(bs) || u in n
  {
    UuidsOfAppend(bs, Fresh(n));
  }

  lemma FreshSnoc(n: seq<Uuid>, u: Uuid)
    ensures Fresh(n + [u]) == Fresh(n) + [NewBeacon(u)]
  {
  }

  /** Loading keeps the list duplicate-free, even when `us` itself repeats a UUID. */
  lemma AppendMissingKeepsUnique(bs: seq<Beacon>, us: seq<Uuid>)
    requires Unique(bs)
    ensures Unique(AppendMissing(bs, us))
  {
    var n := NewInOrder(UuidsOf(bs), us);
    AppendMissingIsNewInOrder(bs, us);
    var r := bs + Fresh(n);
    forall i, j | 0 <= i < j < |r|
      ensures r[i].uuid != r[j].uuid
    {
      if j >= |bs| && i < |bs| {
        assert r[j].uuid == n[j - |bs|];
        assert r[i].uuid in UuidsOf(bs);
      } else if i >= |bs| {
        assert r[i].uuid == n[i - |bs|] && r[j].uuid == n[j - |bs|];
      }
    }
  }

  /** After loading, a UUID is tracked exactly when it was tracked before or occurs in `us`. */
  lemma AppendMissingTracks(bs: seq<Beacon>, us: seq<Uuid>, u: Uuid)
    ensures Tracks(AppendMissing(bs, us), u) <==> Tracks(bs, u) || u in us
  {
    AppendMissingIsNewInOrder(bs, us);
    UuidsOfAppend(bs, Fresh(NewInOrder(UuidsOf(bs), us)));
  }

  /** Loading the same UUIDs a second time appends nothing. */
  lemma AppendMissingIdempotent(bs: seq<Beacon>, us: seq<Uuid>)
    ensures AppendMissing(AppendMissing(bs, us), us) == AppendMissing(bs, us)
  {
    var r := AppendMissing(bs, us);
    forall u | u in us ensures u in UuidsOf(r) {
      AppendMissingTracks(bs, us, u);
    }
    NewInOrderOfSeen(UuidsOf(r), us);
    AppendMissingIsNewInOrder(r, us);
    assert r + Fresh([]) == r;
  }

  /** Loading a duplicate-free list into an empty one reproduces it exactly. */
  lemma AppendMissingToEmpty(us: seq<Uuid>)
    requires Distinct(us)
    ensures AppendMissing([], us) == Fresh(us)
  {
    AppendMissingIsNewInOrder([], us);
    NewInOrderOfDistinct(us);
    assert [] + Fresh(us) == Fresh(us);
  }

  lemma {:induction false} NewInOrderOfSeen(seen: seq<Uuid>, us: seq<Uuid>)
    requires forall u :: u in us ==> u in seen
    ensures NewInOrder(seen, us) == []
    decreases |us|
  {
    if us != [] {
      var init, u := us[..|us| - 1], us[|us| - 1];
      assert us == init + [u];
      NewInOrderOfSeen(seen, init);
    }
  }

  lemma {:induction false} NewInOrderOfDistinct(us: seq<Uuid>)
    requires Distinct(us)
    ensures NewInOrder([], us) == us
    decreases |us|
  {
    if us != [] {
      var init, u := us[..|us| - 1], us[|us| - 1];
      assert us == init + [u];
      NewInOrderOfDistinct(init);
      assert u !in init by {
        forall i | 0 <= i < |init| ensures init[i] != u {
          assert us[i] == init[i];
        }
      }
    }
  }

}
