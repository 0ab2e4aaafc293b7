/** The three endpoints of the backend that keep the geo index in step with the
    index path `users_private/{uid}.currentGeoIndexPath`: `updateUserLocation`,
    `userSignOut` and `updatePrivacySettings`.

    Each endpoint is a method on the database object, proved to commit exactly the
    writes of a plan function; the lemmas about the plan functions carry the
    single-bucket invariant. The geohash encoder (`encodeGeohash`) and the distance
    (`calculateDistance`) are parameters. */
module LocationIndex {
  import opened Common
  import opened Strings
  import opened Store
  import Geohash

  /** `encodeGeohash(lat, lng, precision)`. */
  type Encoder = (real, real, nat) -> string

  /** `calculateDistance(lat1, lng1, lat2, lng2)` in kilometres. */
  type Distance = (real, real, real, real) -> real

  const NotAuthenticated := "User must be authenticated"
  const InvalidLocationData := "Invalid location data. Required: latitude, longitude"
  const InvalidCoordinates := "Invalid coordinates. Latitude must be between -90 and 90, longitude between -180 and 180"
  const ProfileNotFound := "User profile not found"
  const NoUserData := "No user data to update"
  const SignedOutMessage := "User signed out successfully"
  const ZonesNotArray := "Privacy zones must be an array"
  const InvalidZoneFormat := "Invalid privacy zone format"
  const ZoneCenterIncomplete := "Privacy zone center must have latitude and longitude"
  const PrivateNotFound := "User private data not found"

  /** The length of the prefix that names a geo-index bucket. */
  const IndexPrecision: nat := 5

  // ---------------------------------------------------------------------------
  // The single-bucket invariant

  predicate GhostOn(d: PrivateDoc) {
    d.privacySettings.Some? && d.privacySettings.value.ghostMode == Some(true)
  }

  /** `path` is `geo_index/<p>/<uid>` and `p` is the one bucket holding an entry. */
  predicate PointsAt(path: string, uid: Uid, buckets: set<string>) {
    ParsePath(path).Some? && path == BuildPath(ParsePath(path).value, uid) && buckets == {ParsePath(path).value}
  }

  /** For a user with a private document: a set index path names exactly the one bucket
      holding the user's entry, an unset one means there is no entry, and in ghost
      mode the index path is unset. */
  predicate TrackedView(v: View, uid: Uid) {
    v.private.Some? ==>
      var path := v.private.value.currentGeoIndexPath;
      (GhostOn(v.private.value) ==> !TruthyStr(path)) &&
      if TruthyStr(path) then PointsAt(path.value, uid, v.buckets) else v.buckets == {}
  }

  predicate Tracked(s: DbState, uid: Uid) {
    TrackedView(ViewOf(s, uid), uid)
  }

  ghost predicate SingleBucket(s: DbState) {
    forall u :: Tracked(s, u)
  }

  /** A batch of writes for `uid` that keeps `uid` tracked keeps the whole index
      consistent. */
  lemma SingleBucketFrame(s: DbState, ops: seq<Op>, uid: Uid)
    requires SingleBucket(s) && OnlyFor(ops, uid) && ApplyBatch(s, ops).Some?
    requires TrackedView(ViewFold(ViewOf(s, uid), ops, uid), uid)
    ensures SingleBucket(ApplyBatch(s, ops).value)
  {
    var s1 := ApplyBatch(s, ops).value;
    forall u
      ensures Tracked(s1, u)
    {
      ViewBatch(s, ops, u);
      if u != uid {
        ViewFoldOther(ViewOf(s, u), ops, uid, u);
        assert Tracked(s, u);
      }
    }
  }

  // ---------------------------------------------------------------------------
  // updateUserLocation

  datatype LocationRequest = LocationRequest(
    latitude: Num,
    longitude: Num,
    accuracy: Num,
    altitude: Num,
    heading: Num,
    speed: Num,
    batteryLevel: Num,
    locationMethod: string,
    movementState: string)

  datatype LocationResponse = LocationResponse(userId: Uid, geohash: string, inPrivacyZone: bool, ghostMode: bool)

  /** A zone counts when it has a centre and a numeric radius, and the point is within
      the radius. A centre coordinate that is undefined gives a NaN distance, never
      within any radius; other non-numbers are not represented (see `Num`). */
  predicate ZoneContains(zone: Zone, lat: real, lng: real, dist: Distance) {
    zone.center.Some? && zone.radiusMeters.Some? &&
    zone.center.value.latitude.Some? && zone.center.value.longitude.Some? &&
    dist(lat, lng, zone.center.value.latitude.value, zone.center.value.longitude.value) * 1000.0
      <= zone.radiusMeters.value
  }

  /** The first zone, in array order, containing the point. */
  function FirstZone(zones: seq<Zone>, lat: real, lng: real, dist: Distance): Option<Zone>
    decreases |zones|
  {
    if zones == [] then None
    else if ZoneContains(zones[0], lat, lng, dist) then Some(zones[0])
    else FirstZone(zones[1..], lat, lng, dist)
  }

  lemma {:induction false} FirstZoneSpec(zones: seq<Zone>, lat: real, lng: real, dist: Distance)
    ensures FirstZone(zones, lat, lng, dist).None? <==>
              forall k | 0 <= k < |zones| :: !ZoneContains(zones[k], lat, lng, dist)
    ensures FirstZone(zones, lat, lng, dist).Some? ==>
              exists k | 0 <= k < |zones| ::
                zones[k] == FirstZone(zones, lat, lng, dist).value && ZoneContains(zones[k], lat, lng, dist) &&
                forall j | 0 <= j < k :: !ZoneContains(zones[j], lat, lng, dist)
    decreases |zones|
  {
    if zones != [] && !ZoneContains(zones[0], lat, lng, dist) {
      FirstZoneSpec(zones[1..], lat, lng, dist);
      var r := FirstZone(zones[1..], lat, lng, dist);
      if r.Some? {
        var k :| 0 <= k < |zones[1..]| && zones[1..][k] == r.value && ZoneContains(zones[1..][k], lat, lng, dist) &&
                 forall j | 0 <= j < k :: !ZoneContains(zones[1..][j], lat, lng, dist);
        assert zones[k + 1] == zones[1..][k];
        forall j | 0 <= j < k + 1
          ensures !ZoneContains(zones[j], lat, lng, dist)
        {
          if j > 0 {
            assert zones[j] == zones[1..][j - 1];
          }
        }
      } else {
        forall k | 0 <= k < |zones|
          ensures !ZoneContains(zones[k], lat, lng, dist)
        {
          if k > 0 {
            assert zones[k] == zones[1..][k - 1];
          }
        }
      }
    }
  }

  /** The source's loop over the zones, stopping at the first that contains the point. */
  method FindPrivacyZone(zones: seq<Zone>, latitude: real, longitude: real, dist: Distance)
    returns (inPrivacyZone: bool, privacyZoneId: Option<string>)
    ensures inPrivacyZone == FirstZone(zones, latitude, longitude, dist).Some?
    ensures privacyZoneId == if inPrivacyZone then FirstZone(zones, latitude, longitude, dist).value.zoneId else None
  {
    inPrivacyZone, privacyZoneId := false, None;
    for i := 0 to |zones|
      invariant !inPrivacyZone && privacyZoneId == None
      invariant FirstZone(zones[i..], latitude, longitude, dist) == FirstZone(zones, latitude, longitude, dist)
    {
      var zone := zones[i];
      assert zones[i..][1..] == zones[i + 1..];
      if zone.center.Some? && zone.radiusMeters.Some? {
        var c := zone.center.value;
        if c.latitude.Some? && c.longitude.Some? &&
           dist(latitude, longitude, c.latitude.value, c.longitude.value) * 1000.0 <= zone.radiusMeters.value {
          inPrivacyZone := true;
          privacyZoneId := zone.zoneId;
          break;
        }
      }
    }
  }

  /** The zones of a private document, `[]` when `privacySettings.privacyZones` is not an array. */
  function ZonesOf(d: PrivateDoc): seq<Zone> {
    if d.privacySettings.Some? && d.privacySettings.value.privacyZones.Some?
    then d.privacySettings.value.privacyZones.value
    else []
  }

  function NewLocationDoc(uid: Uid, req: LocationRequest, lat: real, lng: real, geohash: string,
                          inPrivacyZone: bool, privacyZoneId: Option<string>, now: Time): LocationDoc
  {
    LocationDoc(
      uid,
      Position(lat, lng, OrNum(req.accuracy, Some(0.0)).GetOr(0.0), OrNull(req.altitude), OrNull(req.heading), OrNull(req.speed), now),
      geohash,
      OrStr(req.movementState, "stationary"),
      OrNull(req.batteryLevel),
      OrStr(req.locationMethod, "gps"),
      now, now, inPrivacyZone, privacyZoneId)
  }

  function NewEntry(uid: Uid, geohash: string, profile: PublicProfile, now: Time): IndexEntry {
    IndexEntry(uid, geohash, now, OrStr(profile.displayName, ""), OrStr(profile.photoURL, ""),
               OrStr(profile.moodTemperature, "neutral"))
  }

  /** The delete of the previous entry: only with a private document whose index path is
      set, differs from the new path and parses to a different prefix. */
  function StaleEntry(s: DbState, uid: Uid, prefix: string): seq<Op> {
    if uid in s.usersPrivate then
      var current := s.usersPrivate[uid].currentGeoIndexPath;
      if TruthyStr(current) && current.value != BuildPath(prefix, uid) &&
         ParsePath(current.value).Some? && ParsePath(current.value).value != prefix
      then [DeleteEntry(ParsePath(current.value).value, uid)]
      else []
    else []
  }

  /** What `updateUserLocation` does: the checks in source order, then one batch
      setting the location document, the index path (when there is a private document),
      and outside ghost mode the entry under the first five characters of the
      9-character geohash, after deleting a stale one. */
  function LocationPlan(s: DbState, auth: Option<string>, req: LocationRequest,
                        geohashOf: Encoder, dist: Distance, now: Time): Result<Plan<LocationResponse>>
  {
    if !TruthyStr(auth) then Err(NotAuthenticated)
    else if req.latitude.None? || req.longitude.None? then Err(InvalidLocationData)
    else
      var uid, lat, lng := auth.value, req.latitude.value, req.longitude.value;
      if lat < -90.0 || lat > 90.0 || lng < -180.0 || lng > 180.0 then Err(InvalidCoordinates)
      else if uid !in s.usersPublic then Err(ProfileNotFound)
      else
        var geohash := geohashOf(lat, lng, 9);
        var hasPrivate := uid in s.usersPrivate;
        var ghostMode := hasPrivate && GhostOn(s.usersPrivate[uid]);
        var zone := if hasPrivate then FirstZone(ZonesOf(s.usersPrivate[uid]), lat, lng, dist) else None;
        var zoneId := if zone.Some? then zone.value.zoneId else None;
        var prefix := Prefix(geohash, IndexPrecision);
        var loc := NewLocationDoc(uid, req, lat, lng, geohash, zone.Some?, zoneId, now);
        var setPath := if hasPrivate then [UpdatePrivate(uid, SetPath(if ghostMode then None else Some(BuildPath(prefix, uid))))] else [];
        var index := if ghostMode then [] else StaleEntry(s, uid, prefix) + [SetEntry(prefix, uid, NewEntry(uid, geohash, s.usersPublic[uid], now))];
        Ok(Plan([SetLocation(uid, loc)] + setPath + index, LocationResponse(uid, geohash, zone.Some?, ghostMode)))
  }

  /** `updateUserLocation`. */
  method UpdateUserLocation(db: Firestore, auth: Option<string>, req: LocationRequest,
                            geohashOf: Encoder, dist: Distance, now: Time)
    returns (resp: Result<LocationResponse>)
    modifies db
    ensures (db.State(), resp) == Run(old(db.State()), LocationPlan(old(db.State()), auth, req, geohashOf, dist, now))
  {
    if !TruthyStr(auth) {
      return Err(NotAuthenticated);
    }
    var userId := auth.value;
    if req.latitude.None? || req.longitude.None? {
      return Err(InvalidLocationData);
    }
    var latitude, longitude := req.latitude.value, req.longitude.value;
    if latitude < -90.0 || latitude > 90.0 || longitude < -180.0 || longitude > 180.0 {
      return Err(InvalidCoordinates);
    }
    var geohash := geohashOf(latitude, longitude, 9);
    if userId !in db.usersPublic {
      return Err(ProfileNotFound);
    }
    var userData := db.usersPublic[userId];
    var hasPrivate := userId in db.usersPrivate;
    ghost var zone := if hasPrivate then FirstZone(ZonesOf(db.usersPrivate[userId]), latitude, longitude, dist) else None;
    var inPrivacyZone, privacyZoneId, ghostMode := false, None, false;
    if hasPrivate {
      var privateData := db.usersPrivate[userId];
      if GhostOn(privateData) {
        ghostMode := true;
      }
      if privateData.privacySettings.Some? && privateData.privacySettings.value.privacyZones.Some? {
        inPrivacyZone, privacyZoneId := FindPrivacyZone(privateData.privacySettings.value.privacyZones.value, latitude, longitude, dist);
      }
    }
    assert inPrivacyZone == zone.Some? && privacyZoneId == if zone.Some? then zone.value.zoneId else None;
    var locationDoc := NewLocationDoc(userId, req, latitude, longitude, geohash, inPrivacyZone, privacyZoneId, now);
    assert ghostMode == (hasPrivate && GhostOn(db.usersPrivate[userId]));
    ghost var prefix := Prefix(geohash, IndexPrecision);
    ghost var setPath := if hasPrivate then [UpdatePrivate(userId, SetPath(if ghostMode then None else Some(BuildPath(prefix, userId))))] else [];
    ghost var index := if ghostMode then [] else StaleEntry(db.State(), userId, prefix) + [SetEntry(prefix, userId, NewEntry(userId, geohash, userData, now))];
    var batch := [SetLocation(userId, locationDoc)];
    if hasPrivate {
      batch := batch + [UpdatePrivate(userId, SetPath(if ghostMode then None else Some(BuildPath(Prefix(geohash, 5), userId))))];
    }
    if !ghostMode {
      var geohashPrefix := Prefix(geohash, IndexPrecision);
      var stale: seq<Op> := [];
      if hasPrivate {
        var currentGeoIndexPath := db.usersPrivate[userId].currentGeoIndexPath;
        if TruthyStr(currentGeoIndexPath) && currentGeoIndexPath.value != BuildPath(geohashPrefix, userId) {
          var pathParts := Split(currentGeoIndexPath.value);
          if |pathParts| == 3 && pathParts[0] == "geo_index" {
            var oldGeohashPrefix := pathParts[1];
            if oldGeohashPrefix != geohashPrefix {
              stale := [DeleteEntry(oldGeohashPrefix, userId)];
            }
          }
        }
      }
      assert stale == StaleEntry(db.State(), userId, geohashPrefix);
      batch := batch + (stale + [SetEntry(geohashPrefix, userId, NewEntry(userId, geohash, userData, now))]);
    }
    assert batch == [SetLocation(userId, locationDoc)] + setPath + index;
    assert LocationPlan(db.State(), auth, req, geohashOf, dist, now) ==
      Ok(Plan(batch, LocationResponse(userId, geohash, inPrivacyZone, ghostMode)));
    var ok := db.Commit(batch);
    resp := if ok then Ok(LocationResponse(userId, geohash, inPrivacyZone, ghostMode)) else Err(CommitError);
  }

  // ---------------------------------------------------------------------------
  // Properties of updateUserLocation

  /** The request is rejected, with nothing written, exactly when the caller is not
      signed in, a coordinate is not a number or off the globe, or the public profile
      is missing. */
  lemma LocationRejections(s: DbState, auth: Option<string>, req: LocationRequest,
                           geohashOf: Encoder, dist: Distance, now: Time)
    ensures LocationPlan(s, auth, req, geohashOf, dist, now).Err? <==>
              !(TruthyStr(auth) && req.latitude.Some? && req.longitude.Some? &&
                Geohash.InRange(req.latitude.value, req.longitude.value) && auth.value in s.usersPublic)
    ensures LocationPlan(s, auth, req, geohashOf, dist, now).Err? ==>
              Run(s, LocationPlan(s, auth, req, geohashOf, dist, now)).0 == s
  {
  }

  /** An accepted request's batch names only the caller's documents and commits. */
  lemma LocationCommits(s: DbState, auth: Option<string>, req: LocationRequest,
                        geohashOf: Encoder, dist: Distance, now: Time)
    requires LocationPlan(s, auth, req, geohashOf, dist, now).Ok?
    ensures OnlyFor(LocationPlan(s, auth, req, geohashOf, dist, now).value.ops, auth.value)
    ensures ApplyBatch(s, LocationPlan(s, auth, req, geohashOf, dist, now).value.ops).Some?
    ensures Run(s, LocationPlan(s, auth, req, geohashOf, dist, now)).1
         == Ok(LocationPlan(s, auth, req, geohashOf, dist, now).value.response)
  {
    var ops := LocationPlan(s, auth, req, geohashOf, dist, now).value.ops;
    var uid := auth.value;
    forall k | 0 <= k < |ops|
      ensures ops[k].uid == uid
      ensures ops[k].UpdatePrivate? ==> ops[k].uid in s.usersPrivate
      ensures !ops[k].TouchLocation?
    {
    }
    BatchCommits(s, ops);
  }

  /** Ghost mode and indexing: in ghost mode the batch writes no geo-index entry and
      clears the index path; otherwise its last write sets the entry under the first five
      characters of the geohash and the index path (when there is a private document)
      becomes that entry's path. Being inside a privacy zone changes neither. */
  lemma LocationIndexing(s: DbState, auth: Option<string>, req: LocationRequest,
                         geohashOf: Encoder, dist: Distance, now: Time)
    requires LocationPlan(s, auth, req, geohashOf, dist, now).Ok?
    ensures var p := LocationPlan(s, auth, req, geohashOf, dist, now).value;
            var uid := auth.value;
            var prefix := Prefix(p.response.geohash, IndexPrecision);
            && p.response.geohash == geohashOf(req.latitude.value, req.longitude.value, 9)
            && p.ops[0].SetLocation?
            && (p.response.ghostMode <==> uid in s.usersPrivate && GhostOn(s.usersPrivate[uid]))
            && (p.response.ghostMode ==>
                  (forall k | 0 <= k < |p.ops| :: !p.ops[k].SetEntry? && !p.ops[k].DeleteEntry?) &&
                  UpdatePrivate(uid, SetPath(None)) in p.ops)
            && (!p.response.ghostMode ==>
                  p.ops[|p.ops| - 1] == SetEntry(prefix, uid, NewEntry(uid, p.response.geohash, s.usersPublic[uid], now)) &&
                  (uid in s.usersPrivate ==> UpdatePrivate(uid, SetPath(Some(BuildPath(prefix, uid)))) in p.ops))
  {
  }

  /** The only delete in the batch is of the stale entry: with a private document
      whose index path is set, is not the new path and parses to another prefix. */
  lemma LocationDeletes(s: DbState, auth: Option<string>, req: LocationRequest,
                        geohashOf: Encoder, dist: Distance, now: Time, q: string)
    requires LocationPlan(s, auth, req, geohashOf, dist, now).Ok?
    ensures var p := LocationPlan(s, auth, req, geohashOf, dist, now).value;
            var uid := auth.value;
            var prefix := Prefix(p.response.geohash, IndexPrecision);
            DeleteEntry(q, uid) in p.ops <==>
              && !p.response.ghostMode
              && uid in s.usersPrivate
              && TruthyStr(s.usersPrivate[uid].currentGeoIndexPath)
              && s.usersPrivate[uid].currentGeoIndexPath.value != BuildPath(prefix, uid)
              && ParsePath(s.usersPrivate[uid].currentGeoIndexPath.value) == Some(q)
              && q != prefix
  {
  }

  /** Writing the previous entry's delete (if any) and the new entry leaves exactly
      the bucket `prefix`. */
  lemma MoveEntry(v: View, s: DbState, uid: Uid, prefix: string, e: IndexEntry)
    requires uid in s.usersPrivate && v.private.Some?
    requires NoSlash(uid) && NoSlash(prefix)
    requires TrackedView(ViewOf(s, uid), uid) && v.buckets == Buckets(s, uid)
    ensures ViewFold(v, StaleEntry(s, uid, prefix) + [SetEntry(prefix, uid, e)], uid) == v.(buckets := {prefix})
  {
    var stale := StaleEntry(s, uid, prefix);
    ViewFoldAppend(v, stale, [SetEntry(prefix, uid, e)], uid);
    var current := s.usersPrivate[uid].currentGeoIndexPath;
    if TruthyStr(current) {
      var q := ParsePath(current.value).value;
      ParseSound(current.value);
      if current.value == BuildPath(prefix, uid) {
        BuildInjective(q, uid, prefix, uid);
      }
      assert ViewFold(v, stale, uid).buckets == {} || ViewFold(v, stale, uid).buckets == {prefix};
    } else {
      assert ViewFold(v, stale, uid) == v;
    }
  }

  /** `updateUserLocation` keeps the single-bucket invariant, provided the user id and
      the bucket prefix contain no '/' (true of Firebase user ids, and of every prefix
      the encoder in the Geohash module produces: see `EncodedPrefixNoSlash`). */
  lemma LocationKeepsSingleBucket(s: DbState, auth: Option<string>, req: LocationRequest,
                                  geohashOf: Encoder, dist: Distance, now: Time)
    requires SingleBucket(s)
    requires TruthyStr(auth) ==> NoSlash(auth.value)
    requires req.latitude.Some? && req.longitude.Some? ==>
               NoSlash(Prefix(geohashOf(req.latitude.value, req.longitude.value, 9), IndexPrecision))
    ensures SingleBucket(Run(s, LocationPlan(s, auth, req, geohashOf, dist, now)).0)
  {
    var plan := LocationPlan(s, auth, req, geohashOf, dist, now);
    if plan.Ok? {
      LocationCommits(s, auth, req, geohashOf, dist, now);
      var uid := auth.value;
      var geohash := plan.value.response.geohash;
      var prefix := Prefix(geohash, IndexPrecision);
      var ops := plan.value.ops;
      var v0 := ViewOf(s, uid);
      assert Tracked(s, uid);
      if uid in s.usersPrivate {
        var d := s.usersPrivate[uid];
        var ghostMode := GhostOn(d);
        var path := if ghostMode then None else Some(BuildPath(prefix, uid));
        var setPath := [UpdatePrivate(uid, SetPath(path))];
        var index := if ghostMode then [] else StaleEntry(s, uid, prefix) + [SetEntry(prefix, uid, NewEntry(uid, geohash, s.usersPublic[uid], now))];
        assert ops == [SetLocation(uid, ops[0].loc)] + setPath + index;
        ViewFoldAppend(v0, [SetLocation(uid, ops[0].loc)] + setPath, index, uid);
        ViewFoldAppend(v0, [SetLocation(uid, ops[0].loc)], setPath, uid);
        var v2 := ViewFold(v0, [SetLocation(uid, ops[0].loc)] + setPath, uid);
        assert v2 == View(Some(d.(currentGeoIndexPath := path)), v0.buckets);
        if !ghostMode {
          MoveEntry(v2, s, uid, prefix, NewEntry(uid, geohash, s.usersPublic[uid], now));
          ParseBuild(prefix, uid);
          assert ViewFold(v0, ops, uid) == v2.(buckets := {prefix});
        } else {
          assert ViewFold(v0, ops, uid) == v2;
        }
      } else {
        assert ViewFold(v0, ops, uid).private.None? by {
          ViewFoldNoPrivate(v0, ops, uid);
        }
      }
      SingleBucketFrame(s, ops, uid);
    }
  }

  /** Without a private document (and no `SetPrivate` write) the view stays without one. */
  lemma {:induction false} ViewFoldNoPrivate(v: View, ops: seq<Op>, u: Uid)
    requires v.private.None?
    requires forall k | 0 <= k < |ops| :: !ops[k].SetPrivate?
    ensures ViewFold(v, ops, u).private.None?
    decreases |ops|
  {
    if ops != [] {
      assert forall k | 0 <= k < |ops[1..]| :: ops[1..][k] == ops[k + 1];
      ViewFoldNoPrivate(ViewStep(v, ops[0], u), ops[1..], u);
    }
  }

  /** Every bucket prefix of a hash from the Geohash encoder is free of '/'. */
  lemma EncodedPrefixNoSlash(lat: real, lng: real)
    ensures NoSlash(Prefix(Geohash.Encode(lat, lng, 9), IndexPrecision))
  {
    Geohash.EncodeShape(lat, lng, 9);
    var h := Geohash.Encode(lat, lng, 9);
    var r := Prefix(h, IndexPrecision);
    forall k | 0 <= k < |r|
      ensures r[k] != '/'
    {
      assert r[k] == h[k];
      assert h[k] in Geohash.Base32;
    }
  }

  // ---------------------------------------------------------------------------
  // userSignOut

  /** What `userSignOut` does: with a private document, one batch marking the user
      offline and clearing the index path, deleting the entry the index path names (when it
      parses) and touching the location document (when there is one). */
  function SignOutPlan(s: DbState, auth: Option<string>, now: Time): Result<Plan<string>> {
    if !TruthyStr(auth) then Err(NotAuthenticated)
    else
      var uid := auth.value;
      if uid !in s.usersPrivate then Ok(Plan([], NoUserData))
      else
        var path := s.usersPrivate[uid].currentGeoIndexPath;
        var remove := if TruthyStr(path) && ParsePath(path.value).Some? then [DeleteEntry(ParsePath(path.value).value, uid)] else [];
        var touch := if uid in s.locations then [TouchLocation(uid, now)] else [];
        Ok(Plan([UpdatePrivate(uid, SignedOut(now))] + remove + touch, SignedOutMessage))
  }

  /** `userSignOut`. */
  method UserSignOut(db: Firestore, auth: Option<string>, now: Time) returns (resp: Result<string>)
    modifies db
    ensures (db.State(), resp) == Run(old(db.State()), SignOutPlan(old(db.State()), auth, now))
  {
    if !TruthyStr(auth) {
      return Err(NotAuthenticated);
    }
    var userId := auth.value;
    if userId !in db.usersPrivate {
      return Ok(NoUserData);
    }
    var currentGeoIndexPath := db.usersPrivate[userId].currentGeoIndexPath;
    var batch := [UpdatePrivate(userId, SignedOut(now))];
    if TruthyStr(currentGeoIndexPath) {
      var pathParts := Split(currentGeoIndexPath.value);
      if |pathParts| == 3 && pathParts[0] == "geo_index" {
        batch := batch + [DeleteEntry(pathParts[1], userId)];
      }
    }
    ghost var remove := if TruthyStr(currentGeoIndexPath) && ParsePath(currentGeoIndexPath.value).Some?
                        then [DeleteEntry(ParsePath(currentGeoIndexPath.value).value, userId)] else [];
    assert batch == [UpdatePrivate(userId, SignedOut(now))] + remove;
    if userId in db.locations {
      batch := batch + [TouchLocation(userId, now)];
    }
    ghost var touch := if userId in db.locations then [TouchLocation(userId, now)] else [];
    assert batch == [UpdatePrivate(userId, SignedOut(now))] + remove + touch;
    assert SignOutPlan(db.State(), auth, now) == Ok(Plan(batch, SignedOutMessage));
    var ok := db.Commit(batch);
    resp := if ok then Ok(SignedOutMessage) else Err(CommitError);
  }

  /** Sign-out fails only for a caller who is not signed in; otherwise its batch
      names only the caller's documents and commits. */
  lemma SignOutCommits(s: DbState, auth: Option<string>, now: Time)
    ensures SignOutPlan(s, auth, now).Err? <==> !TruthyStr(auth)
    ensures SignOutPlan(s, auth, now).Ok? ==>
              OnlyFor(SignOutPlan(s, auth, now).value.ops, auth.value) &&
              ApplyBatch(s, SignOutPlan(s, auth, now).value.ops).Some?
  {
    var plan := SignOutPlan(s, auth, now);
    if plan.Ok? {
      var ops := plan.value.ops;
      forall k | 0 <= k < |ops|
        ensures ops[k].uid == auth.value
        ensures ops[k].UpdatePrivate? ==> ops[k].uid in s.usersPrivate
        ensures ops[k].TouchLocation? ==> ops[k].uid in s.locations
      {
      }
      BatchCommits(s, ops);
    }
  }

  /** Under the single-bucket invariant, a signed-out user with a private document is
      offline, has no index path and no entry in any bucket, and the invariant holds. */
  lemma SignOutKeepsSingleBucket(s: DbState, auth: Option<string>, now: Time)
    requires SingleBucket(s)
    ensures var s1 := Run(s, SignOutPlan(s, auth, now)).0;
            && SingleBucket(s1)
            && (TruthyStr(auth) && auth.value in s.usersPrivate ==>
                  Buckets(s1, auth.value) == {} &&
                  auth.value in s1.usersPrivate &&
                  s1.usersPrivate[auth.value].currentGeoIndexPath == None &&
                  !s1.usersPrivate[auth.value].isOnline)
  {
    var plan := SignOutPlan(s, auth, now);
    if plan.Ok? {
      SignOutCommits(s, auth, now);
      var uid := auth.value;
      var ops := plan.value.ops;
      var v0 := ViewOf(s, uid);
      if uid in s.usersPrivate {
        assert Tracked(s, uid);
        var d := s.usersPrivate[uid];
        var path := d.currentGeoIndexPath;
        var remove := if TruthyStr(path) && ParsePath(path.value).Some? then [DeleteEntry(ParsePath(path.value).value, uid)] else [];
        var touch := if uid in s.locations then [TouchLocation(uid, now)] else [];
        assert ops == [UpdatePrivate(uid, SignedOut(now))] + remove + touch;
        ViewFoldAppend(v0, [UpdatePrivate(uid, SignedOut(now))] + remove, touch, uid);
        ViewFoldAppend(v0, [UpdatePrivate(uid, SignedOut(now))], remove, uid);
        assert ViewFold(v0, ops, uid) == View(Some(PatchPrivate(d, SignedOut(now))), {});
        ViewBatch(s, ops, uid);
      } else {
        ViewFoldNoPrivate(v0, ops, uid);
      }
      SingleBucketFrame(s, ops, uid);
    }
  }

  /** Signing out twice: the second sign-out deletes no entry and leaves the index as
      the first left it. */
  lemma SignOutTwice(s: DbState, auth: Option<string>, now: Time, later: Time)
    ensures var s1 := Run(s, SignOutPlan(s, auth, now)).0;
            Run(s1, SignOutPlan(s1, auth, later)).0.geoIndex == s1.geoIndex
  {
    var s1 := Run(s, SignOutPlan(s, auth, now)).0;
    var plan := SignOutPlan(s1, auth, later);
    if plan.Ok? && auth.value in s1.usersPrivate {
      SignOutCommits(s, auth, now);
      if auth.value in s.usersPrivate && ApplyBatch(s, SignOutPlan(s, auth, now).value.ops).Some? {
        SignedOutPathCleared(s, auth, now);
      }
      OnlyPrivateAndLocation(s1, plan.value.ops);
    }
  }

  /** After a signed-in user with a private document signs out, the index path is unset. */
  lemma SignedOutPathCleared(s: DbState, auth: Option<string>, now: Time)
    requires TruthyStr(auth) && auth.value in s.usersPrivate
    ensures var s1 := Run(s, SignOutPlan(s, auth, now)).0;
            auth.value in s1.usersPrivate && s1.usersPrivate[auth.value].currentGeoIndexPath == None
  {
    SignOutCommits(s, auth, now);
    var uid := auth.value;
    var ops := SignOutPlan(s, auth, now).value.ops;
    ViewBatch(s, ops, uid);
    var d := s.usersPrivate[uid];
    var path := d.currentGeoIndexPath;
    var remove := if TruthyStr(path) && ParsePath(path.value).Some? then [DeleteEntry(ParsePath(path.value).value, uid)] else [];
    var touch := if uid in s.locations then [TouchLocation(uid, now)] else [];
    var v0 := ViewOf(s, uid);
    assert ops == [UpdatePrivate(uid, SignedOut(now))] + remove + touch;
    ViewFoldAppend(v0, [UpdatePrivate(uid, SignedOut(now))] + remove, touch, uid);
    ViewFoldAppend(v0, [UpdatePrivate(uid, SignedOut(now))], remove, uid);
    assert ViewFold(v0, ops, uid).private == Some(PatchPrivate(d, SignedOut(now)));
  }

  /** A batch of private-document updates and location touches leaves the index alone. */
  lemma {:induction false} OnlyPrivateAndLocation(s: DbState, ops: seq<Op>)
    requires forall k | 0 <= k < |ops| :: ops[k].UpdatePrivate? || ops[k].TouchLocation?
    ensures ApplyBatch(s, ops).Some? ==> ApplyBatch(s, ops).value.geoIndex == s.geoIndex
    decreases |ops|
  {
    if ops != [] && ApplyOp(s, ops[0]).Some? {
      assert forall k | 0 <= k < |ops[1..]| :: ops[1..][k] == ops[k + 1];
      OnlyPrivateAndLocation(ApplyOp(s, ops[0]).value, ops[1..]);
    }
  }

  // ---------------------------------------------------------------------------
  // updatePrivacySettings

  /** `request.data.privacyZones`: falsy, a truthy value that is not an array, or an array. */
  datatype ZonesArg = NoZones | NotAnArray | ZoneList(zones: seq<Zone>)

  /** `ghostMode` is `None` unless it is a boolean. */
  datatype PrivacyRequest = PrivacyRequest(ghostMode: Option<bool>, privacyZones: ZonesArg)

  /** The per-zone checks, in order: id, name, centre and a numeric radius; then a
      non-zero latitude and longitude of the centre. */
  function ZoneProblem(z: Zone): Option<string> {
    if !TruthyStr(z.zoneId) || !TruthyStr(z.name) || z.center.None? || z.radiusMeters.None? then Some(InvalidZoneFormat)
    else if !TruthyNum(z.center.value.latitude) || !TruthyNum(z.center.value.longitude) then Some(ZoneCenterIncomplete)
    else None
  }

  /** The complaint about the first zone, in array order, that fails a check. */
  function ZonesProblem(zones: seq<Zone>): Option<string>
    decreases |zones|
  {
    if zones == [] then None
    else if ZoneProblem(zones[0]).Some? then ZoneProblem(zones[0])
    else ZonesProblem(zones[1..])
  }

  lemma {:induction false} ZonesProblemSpec(zones: seq<Zone>)
    ensures ZonesProblem(zones).None? <==> forall k | 0 <= k < |zones| :: ZoneProblem(zones[k]).None?
    ensures ZonesProblem(zones).Some? ==>
              exists k | 0 <= k < |zones| ::
                ZonesProblem(zones) == ZoneProblem(zones[k]) &&
                forall j | 0 <= j < k :: ZoneProblem(zones[j]).None?
    decreases |zones|
  {
    if zones != [] && ZoneProblem(zones[0]).None? {
      ZonesProblemSpec(zones[1..]);
      if ZonesProblem(zones[1..]).Some? {
        var k :| 0 <= k < |zones[1..]| && ZonesProblem(zones[1..]) == ZoneProblem(zones[1..][k]) &&
                 forall j | 0 <= j < k :: ZoneProblem(zones[1..][j]).None?;
        assert zones[k + 1] == zones[1..][k];
        forall j | 0 <= j < k + 1
          ensures ZoneProblem(zones[j]).None?
        {
          if j > 0 {
            assert zones[j] == zones[1..][j - 1];
          }
        }
      } else {
        forall k | 0 <= k < |zones|
          ensures ZoneProblem(zones[k]).None?
        {
          if k > 0 {
            assert zones[k] == zones[1..][k - 1];
          }
        }
      }
    }
  }

  /** Zones stored by `updatePrivacySettings` are all usable by `updateUserLocation`:
      the point is reported in a zone exactly when it lies within the radius of some
      zone's centre, and the zone reported is the first such one, whose id is set. */
  lemma ValidatedZonesUsable(zones: seq<Zone>, lat: real, lng: real, dist: Distance)
    requires ZonesProblem(zones).None?
    ensures FirstZone(zones, lat, lng, dist).Some? <==>
              exists k | 0 <= k < |zones| && ZoneProblem(zones[k]).None? ::
                dist(lat, lng, zones[k].center.value.latitude.value, zones[k].center.value.longitude.value) * 1000.0
                  <= zones[k].radiusMeters.value
    ensures FirstZone(zones, lat, lng, dist).Some? ==>
              exists k | 0 <= k < |zones| ::
                && zones[k] == FirstZone(zones, lat, lng, dist).value
                && TruthyStr(zones[k].zoneId)
                && forall j | 0 <= j < k && ZoneProblem(zones[j]).None? ::
                     dist(lat, lng, zones[j].center.value.latitude.value, zones[j].center.value.longitude.value) * 1000.0
                       > zones[j].radiusMeters.value
  {
    ZonesProblemSpec(zones);
    FirstZoneSpec(zones, lat, lng, dist);
  }

  /** The source's `for (const zone of privacyZones)` loop, throwing at the first bad zone. */
  method ValidateZones(zones: seq<Zone>) returns (problem: Option<string>)
    ensures problem == ZonesProblem(zones)
  {
    for i := 0 to |zones|
      invariant ZonesProblem(zones[i..]) == ZonesProblem(zones)
    {
      var zone := zones[i];
      assert zones[i..][1..] == zones[i + 1..];
      if !TruthyStr(zone.zoneId) || !TruthyStr(zone.name) || zone.center.None? || zone.radiusMeters.None? {
        return Some(InvalidZoneFormat);
      }
      if !TruthyNum(zone.center.value.latitude) || !TruthyNum(zone.center.value.longitude) {
        return Some(ZoneCenterIncomplete);
      }
    }
    assert zones[|zones|..] == [];
    return None;
  }

  /** The updated settings: a boolean `ghostMode` replaces the stored one, an array of
      zones replaces the stored zones, which otherwise default to `[]`. */
  function MergeSettings(current: Option<PrivacySettings>, req: PrivacyRequest): PrivacySettings {
    var cur := current.GetOr(PrivacySettings(None, None));
    PrivacySettings(
      if req.ghostMode.Some? then req.ghostMode else cur.ghostMode,
      Some(if req.privacyZones.ZoneList? then req.privacyZones.zones else cur.privacyZones.GetOr([])))
  }

  /** Sending the same settings again changes nothing; sending neither field keeps the
      stored ghost mode and zones (an absent zone list becoming `[]`). */
  lemma MergeIdempotent(current: Option<PrivacySettings>, req: PrivacyRequest)
    ensures MergeSettings(Some(MergeSettings(current, req)), req) == MergeSettings(current, req)
    ensures req.ghostMode.None? && !req.privacyZones.ZoneList? && current.Some? ==>
              MergeSettings(current, req) == current.value.(privacyZones := Some(current.value.privacyZones.GetOr([])))
  {
  }

  /** The writes of `updatePrivacySettings`: the new settings, and when they turn ghost
      mode on and the index path parses, the delete of the entry it names and the clearing
      of the index path. */
  function PrivacyClear(d: PrivateDoc, updated: PrivacySettings, uid: Uid): seq<Op> {
    var path := d.currentGeoIndexPath;
    if updated.ghostMode == Some(true) && TruthyStr(path) && ParsePath(path.value).Some?
    then [DeleteEntry(ParsePath(path.value).value, uid), UpdatePrivate(uid, SetPath(None))]
    else []
  }

  /** What `updatePrivacySettings` does: the checks in source order, then the writes. */
  function PrivacyPlan(s: DbState, auth: Option<string>, req: PrivacyRequest): Result<Plan<PrivacySettings>> {
    if !TruthyStr(auth) then Err(NotAuthenticated)
    else if req.privacyZones.NotAnArray? then Err(ZonesNotArray)
    else if req.privacyZones.ZoneList? && ZonesProblem(req.privacyZones.zones).Some? then Err(ZonesProblem(req.privacyZones.zones).value)
    else
      var uid := auth.value;
      if uid !in s.usersPrivate then Err(PrivateNotFound)
      else
        var d := s.usersPrivate[uid];
        var updated := MergeSettings(d.privacySettings, req);
        Ok(Plan([UpdatePrivate(uid, SetSettings(updated))] + PrivacyClear(d, updated, uid), updated))
  }

  /** `updatePrivacySettings`. Its three writes are separate calls, not one batch; each
      succeeds because the private document exists and nothing here removes it. */
  method UpdatePrivacySettings(db: Firestore, auth: Option<string>, req: PrivacyRequest)
    returns (resp: Result<PrivacySettings>)
    modifies db
    ensures (db.State(), resp) == Run(old(db.State()), PrivacyPlan(old(db.State()), auth, req))
  {
    if !TruthyStr(auth) {
      return Err(NotAuthenticated);
    }
    var userId := auth.value;
    if req.privacyZones.NotAnArray? {
      return Err(ZonesNotArray);
    }
    if req.privacyZones.ZoneList? {
      var problem := ValidateZones(req.privacyZones.zones);
      if problem.Some? {
        return Err(problem.value);
      }
    }
    if userId !in db.usersPrivate {
      return Err(PrivateNotFound);
    }
    ghost var s0 := db.State();
    var userPrivateData := db.usersPrivate[userId];
    var currentSettings := userPrivateData.privacySettings.GetOr(PrivacySettings(None, None));
    var updatedSettings := PrivacySettings(
      if req.ghostMode.Some? then req.ghostMode else currentSettings.ghostMode,
      Some(if req.privacyZones.ZoneList? then req.privacyZones.zones else currentSettings.privacyZones.GetOr([])));
    assert updatedSettings == MergeSettings(userPrivateData.privacySettings, req);
    var first := [UpdatePrivate(userId, SetSettings(updatedSettings))];
    var ok := db.Commit(first);
    assert ok;
    ghost var s1 := db.State();
    ghost var clear := PrivacyClear(userPrivateData, updatedSettings, userId);
    if updatedSettings.ghostMode == Some(true) {
      var currentGeoIndexPath := userPrivateData.currentGeoIndexPath;
      if TruthyStr(currentGeoIndexPath) {
        var pathParts := Split(currentGeoIndexPath.value);
        if |pathParts| == 3 && pathParts[0] == "geo_index" {
          var deleted := db.Commit([DeleteEntry(pathParts[1], userId)]);
          assert deleted;
          ghost var s2 := db.State();
          var cleared := db.Commit([UpdatePrivate(userId, SetPath(None))]);
          assert cleared;
          assert clear == [DeleteEntry(pathParts[1], userId)] + [UpdatePrivate(userId, SetPath(None))];
          ApplyBatchAppend(s1, [DeleteEntry(pathParts[1], userId)], [UpdatePrivate(userId, SetPath(None))]);
        }
      }
    }
    assert ApplyBatch(s1, clear) == Some(db.State());
    ApplyBatchAppend(s0, first, clear);
    resp := Ok(updatedSettings);
  }

  lemma PrivacyRejections(s: DbState, auth: Option<string>, req: PrivacyRequest)
    ensures PrivacyPlan(s, auth, req).Err? <==>
              !TruthyStr(auth) || req.privacyZones.NotAnArray? ||
              (req.privacyZones.ZoneList? && exists k | 0 <= k < |req.privacyZones.zones| :: ZoneProblem(req.privacyZones.zones[k]).Some?) ||
              auth.value !in s.usersPrivate
    ensures PrivacyPlan(s, auth, req).Err? ==> Run(s, PrivacyPlan(s, auth, req)).0 == s
  {
    if req.privacyZones.ZoneList? {
      ZonesProblemSpec(req.privacyZones.zones);
    }
  }

  /** Accepted settings are written and returned. */
  lemma PrivacyCommits(s: DbState, auth: Option<string>, req: PrivacyRequest)
    requires PrivacyPlan(s, auth, req).Ok?
    ensures var p := PrivacyPlan(s, auth, req).value;
            var uid := auth.value;
            && OnlyFor(p.ops, uid)
            && ApplyBatch(s, p.ops).Some?
            && Run(s, PrivacyPlan(s, auth, req)).1 == Ok(p.response)
  {
    var uid := auth.value;
    var p := PrivacyPlan(s, auth, req).value;
    forall k | 0 <= k < |p.ops|
      ensures p.ops[k].uid == uid
      ensures p.ops[k].UpdatePrivate? ==> p.ops[k].uid in s.usersPrivate
      ensures !p.ops[k].TouchLocation?
    {
    }
    BatchCommits(s, p.ops);
  }

  /** `updatePrivacySettings` keeps the single-bucket invariant; turning ghost mode on
      takes the user out of every bucket and clears the index path, and otherwise the
      index is untouched. */
  lemma PrivacyKeepsSingleBucket(s: DbState, auth: Option<string>, req: PrivacyRequest)
    requires SingleBucket(s)
    ensures var s1 := Run(s, PrivacyPlan(s, auth, req)).0;
            && SingleBucket(s1)
            && (PrivacyPlan(s, auth, req).Ok? ==>
                  auth.value in s1.usersPrivate &&
                  s1.usersPrivate[auth.value].privacySettings == Some(PrivacyPlan(s, auth, req).value.response))
            && (PrivacyPlan(s, auth, req).Ok? && PrivacyPlan(s, auth, req).value.response.ghostMode == Some(true) ==>
                  Buckets(s1, auth.value) == {} && !TruthyStr(s1.usersPrivate[auth.value].currentGeoIndexPath))
            && (PrivacyPlan(s, auth, req).Ok? && PrivacyPlan(s, auth, req).value.response.ghostMode != Some(true) ==>
                  s1.geoIndex == s.geoIndex)
  {
    var plan := PrivacyPlan(s, auth, req);
    if plan.Ok? {
      PrivacyCommits(s, auth, req);
      var uid := auth.value;
      var ops := plan.value.ops;
      var d := s.usersPrivate[uid];
      var updated := plan.value.response;
      var clear := PrivacyClear(d, updated, uid);
      var v0 := ViewOf(s, uid);
      assert Tracked(s, uid);
      ViewFoldAppend(v0, [UpdatePrivate(uid, SetSettings(updated))], clear, uid);
      var v1 := View(Some(d.(privacySettings := Some(updated))), v0.buckets);
      assert ViewFold(v0, [UpdatePrivate(uid, SetSettings(updated))], uid) == v1;
      if clear != [] {
        var q := ParsePath(d.currentGeoIndexPath.value).value;
        assert v0.buckets == {q};
        assert clear == [DeleteEntry(q, uid), UpdatePrivate(uid, SetPath(None))];
        assert clear[1..] == [UpdatePrivate(uid, SetPath(None))];
        assert ViewStep(v1, clear[0], uid) == v1.(buckets := {});
        var v2 := View(Some(d.(privacySettings := Some(updated), currentGeoIndexPath := None)), {});
        assert ViewStep(v1.(buckets := {}), clear[1], uid) == v2;
        assert ViewFold(v1.(buckets := {}), clear[1..], uid) == ViewFold(v2, [], uid);
        assert ViewFold(v1, clear, uid) == View(Some(d.(privacySettings := Some(updated), currentGeoIndexPath := None)), {});
      } else {
        assert ViewFold(v1, clear, uid) == v1;
      }
      ViewBatch(s, ops, uid);
      SingleBucketFrame(s, ops, uid);
      if updated.ghostMode != Some(true) {
        OnlyPrivateAndLocation(s, ops);
      }
    }
  }
}
