/** `queryNearbyUsers`: the users indexed in the caller's precision-5 cell and its
    neighbours, minus the caller and those who blocked the caller, joined with their
    location documents, kept within the radius, nearest first, at most `limit`.

    The endpoint only reads. Its pipeline of array operations is a chain of functions
    the method is proved to answer as. The geohash encoder, the neighbour function, the
    distance and the rounding of `toFixed(2)` are parameters; `QueryCellsSpec` plugs in
    the Geohash module's encoder and neighbours. */
module NearbyQuery {
  import opened Common
  import opened Strings
  import opened Store
  import opened Sorting
  import Geohash
  import LocationIndex

  const InvalidQuery := "Invalid query parameters. Required: latitude, longitude, radiusKm"
  const InvalidRadius := "Radius must be between 0 and 50 kilometers"

  /** The precision of the cells queried, the one the index is written at. */
  const QueryPrecision: nat := 5

  /** `limit` when the request leaves it undefined. */
  const DefaultLimit: int := 50

  /** `parseFloat(x.toFixed(2))`. */
  type Rounding = real -> real

  /** `getGeohashNeighbors(geohash)`. */
  type NeighborsOf = string -> seq<string>

  /** `limit` in `request.data`: undefined, `null`, or a number. */
  datatype LimitArg = Missing | Null | Given(n: real)

  /** The integer `slice(0, limit)` cuts at: the default 50 replaces only an undefined
      limit; `null` converts to 0; a number is truncated toward zero. */
  function LimitOf(l: LimitArg): (k: int)
    ensures l.Missing? ==> k == DefaultLimit
    ensures l.Null? ==> k == 0
    ensures l.Given? && l.n >= 0.0 ==> 0 <= k && k as real <= l.n < k as real + 1.0
    ensures l.Given? && l.n < 0.0 ==> k <= 0 && k as real - 1.0 < l.n <= k as real
  {
    match l
    case Missing => DefaultLimit
    case Null => 0
    case Given(n) => if n >= 0.0 then n.Floor else -((-n).Floor)
  }

  /** `request.data`. */
  datatype QueryRequest = QueryRequest(latitude: Num, longitude: Num, radiusKm: Num, limit: LimitArg)

  /** One row of the answer: the index entry's profile fields and the location's. */
  datatype NearbyUser = NearbyUser(
    userId: Uid,
    displayName: string,
    profileImageUrl: string,
    moodTemperature: string,
    latitude: real,
    longitude: real,
    accuracy: real,
    lastUpdated: Time,
    distance: real,
    movementState: string)

  datatype QueryResponse = QueryResponse(users: seq<NearbyUser>, count: nat)

  // ---------------------------------------------------------------------------
  // Reading the buckets

  function EntriesOf(b: map<Uid, IndexEntry>, keys: seq<Uid>): seq<IndexEntry>
    requires forall i | 0 <= i < |keys| :: keys[i] in b
  {
    if keys == [] then [] else [b[keys[0]]] + EntriesOf(b, keys[1..])
  }

  /** `geo_index/{prefix}/users` listed in document-id order. */
  function Listing(s: DbState, prefix: string): seq<IndexEntry> {
    var b := Bucket(s, prefix);
    EntriesOf(b, SortedKeys(b.Keys))
  }

  /** The listings of the buckets, in the order of `prefixes`, flattened. */
  function Candidates(s: DbState, prefixes: seq<string>): seq<IndexEntry> {
    if prefixes == [] then [] else Listing(s, prefixes[0]) + Candidates(s, prefixes[1..])
  }

  lemma {:induction false} EntriesOfSpec(b: map<Uid, IndexEntry>, keys: seq<Uid>)
    requires forall i | 0 <= i < |keys| :: keys[i] in b
    ensures forall e :: e in EntriesOf(b, keys) <==> exists i | 0 <= i < |keys| :: b[keys[i]] == e
  {
    if keys != [] {
      EntriesOfSpec(b, keys[1..]);
      forall e
        ensures e in EntriesOf(b, keys) <==> exists i | 0 <= i < |keys| :: b[keys[i]] == e
      {
        if e in EntriesOf(b, keys[1..]) {
          var i :| 0 <= i < |keys[1..]| && b[keys[1..][i]] == e;
          assert keys[i + 1] == keys[1..][i];
        }
        if exists i | 0 <= i < |keys| :: b[keys[i]] == e {
          var i :| 0 <= i < |keys| && b[keys[i]] == e;
          if i > 0 {
            assert keys[1..][i - 1] == keys[i];
          }
        }
      }
    }
  }

  /** A bucket's listing holds exactly the bucket's entries. */
  lemma ListingSpec(s: DbState, prefix: string)
    ensures forall e :: e in Listing(s, prefix) <==> e in Bucket(s, prefix).Values
  {
    var b := Bucket(s, prefix);
    var keys := SortedKeys(b.Keys);
    EntriesOfSpec(b, keys);
    forall e
      ensures e in Listing(s, prefix) <==> e in b.Values
    {
      if e in b.Values {
        var k :| k in b && b[k] == e;
        assert k in keys;
        var i :| 0 <= i < |keys| && keys[i] == k;
      }
    }
  }

  /** The candidates are the entries of the queried buckets. */
  lemma {:induction false} CandidatesSpec(s: DbState, prefixes: seq<string>)
    ensures forall e :: e in Candidates(s, prefixes) <==>
              exists i | 0 <= i < |prefixes| :: e in Bucket(s, prefixes[i]).Values
  {
    if prefixes != [] {
      CandidatesSpec(s, prefixes[1..]);
      ListingSpec(s, prefixes[0]);
      forall e
        ensures e in Candidates(s, prefixes) <==>
                exists i | 0 <= i < |prefixes| :: e in Bucket(s, prefixes[i]).Values
      {
        if e in Candidates(s, prefixes[1..]) {
          var i :| 0 <= i < |prefixes[1..]| && e in Bucket(s, prefixes[1..][i]).Values;
          assert prefixes[i + 1] == prefixes[1..][i];
        }
        if exists i | 0 <= i < |prefixes| :: e in Bucket(s, prefixes[i]).Values {
          var i :| 0 <= i < |prefixes| && e in Bucket(s, prefixes[i]).Values;
          if i > 0 {
            assert prefixes[1..][i - 1] == prefixes[i];
          }
        }
      }
    }
  }

  // ---------------------------------------------------------------------------
  // Filtering, joining, ordering

  /** `filter(user => user.userId !== userId && !blockedByUsers.includes(user.userId))`. */
  function Visible(es: seq<IndexEntry>, uid: Uid, blocked: seq<Uid>): (r: seq<IndexEntry>)
    ensures |r| <= |es|
    ensures forall e :: e in r <==> e in es && e.userId != uid && e.userId !in blocked
  {
    if es == [] then []
    else (if es[0].userId != uid && es[0].userId !in blocked then [es[0]] else []) + Visible(es[1..], uid, blocked)
  }

  /** The user has a location document within `radius` of the centre. */
  predicate Within(s: DbState, e: IndexEntry, lat: real, lng: real, radius: real, dist: LocationIndex.Distance) {
    e.userId in s.locations &&
    var loc := s.locations[e.userId].location;
    dist(lat, lng, loc.latitude, loc.longitude) <= radius
  }

  /** The row for an entry whose user has a location document. */
  function Describe(s: DbState, e: IndexEntry, lat: real, lng: real, dist: LocationIndex.Distance, round: Rounding): NearbyUser
    requires e.userId in s.locations
  {
    var doc := s.locations[e.userId];
    NearbyUser(e.userId, e.displayName, e.profileImageUrl, e.moodTemperature,
               doc.location.latitude, doc.location.longitude, doc.location.accuracy, doc.lastUpdated,
               round(dist(lat, lng, doc.location.latitude, doc.location.longitude)), doc.movementState)
  }

  /** The location join followed by `filter(user => user !== null)`. */
  function Located(s: DbState, es: seq<IndexEntry>, lat: real, lng: real, radius: real,
                   dist: LocationIndex.Distance, round: Rounding): seq<NearbyUser>
  {
    if es == [] then []
    else (if Within(s, es[0], lat, lng, radius, dist) then [Describe(s, es[0], lat, lng, dist, round)] else [])
         + Located(s, es[1..], lat, lng, radius, dist, round)
  }

  /** The rows are exactly those of the entries within the radius, one per entry at most. */
  lemma {:induction false} LocatedSpec(s: DbState, es: seq<IndexEntry>, lat: real, lng: real, radius: real,
                                       dist: LocationIndex.Distance, round: Rounding)
    ensures |Located(s, es, lat, lng, radius, dist, round)| <= |es|
    ensures forall r :: r in Located(s, es, lat, lng, radius, dist, round) <==>
              exists e | e in es :: Within(s, e, lat, lng, radius, dist) && r == Describe(s, e, lat, lng, dist, round)
  {
    if es != [] {
      LocatedSpec(s, es[1..], lat, lng, radius, dist, round);
      assert es == [es[0]] + es[1..];
    }
  }

  function DistanceKey(u: NearbyUser): real {
    u.distance
  }

  /** `slice(0, limit)`: a negative limit counts from the end. */
  function Slice<T>(xs: seq<T>, limit: int): (r: seq<T>)
    ensures |r| <= |xs| && r == xs[..|r|]
    ensures limit >= 0 ==> |r| == if limit <= |xs| then limit else |xs|
    ensures limit < 0 ==> |r| == if |xs| + limit > 0 then |xs| + limit else 0
  {
    if limit >= 0 then (if limit <= |xs| then xs[..limit] else xs)
    else if |xs| + limit > 0 then xs[..|xs| + limit] else []
  }

  // ---------------------------------------------------------------------------
  // The endpoint

  /** `connections.blockedBy` of the caller, `[]` without a private document. */
  function BlockedBy(s: DbState, uid: Uid): seq<Uid> {
    if uid in s.usersPrivate && s.usersPrivate[uid].blockedBy.Some? then s.usersPrivate[uid].blockedBy.value else []
  }

  /** The centre cell and its neighbours, at the index precision. */
  function QueryCells(geohashOf: LocationIndex.Encoder, neighborsOf: NeighborsOf, lat: real, lng: real): seq<string> {
    var centre := geohashOf(lat, lng, QueryPrecision);
    [centre] + neighborsOf(centre)
  }

  /** The rows within the radius, before ordering and truncation. */
  function Found(s: DbState, uid: Uid, lat: real, lng: real, radius: real, geohashOf: LocationIndex.Encoder,
                 neighborsOf: NeighborsOf, dist: LocationIndex.Distance, round: Rounding): seq<NearbyUser>
  {
    Located(s, Visible(Candidates(s, QueryCells(geohashOf, neighborsOf, lat, lng)), uid, BlockedBy(s, uid)), lat, lng, radius, dist, round)
  }

  predicate ValidQuery(auth: Option<string>, req: QueryRequest) {
    TruthyStr(auth) && req.latitude.Some? && req.longitude.Some? && req.radiusKm.Some? &&
    Geohash.InRange(req.latitude.value, req.longitude.value) &&
    0.0 < req.radiusKm.value <= 50.0
  }

  /** What `queryNearbyUsers` answers. */
  function QueryNearby(s: DbState, auth: Option<string>, req: QueryRequest, geohashOf: LocationIndex.Encoder,
                       neighborsOf: NeighborsOf, dist: LocationIndex.Distance, round: Rounding): Result<QueryResponse>
  {
    if !TruthyStr(auth) then Err(LocationIndex.NotAuthenticated)
    else if req.latitude.None? || req.longitude.None? || req.radiusKm.None? then Err(InvalidQuery)
    else
      var lat, lng, radius := req.latitude.value, req.longitude.value, req.radiusKm.value;
      if lat < -90.0 || lat > 90.0 || lng < -180.0 || lng > 180.0 then Err(LocationIndex.InvalidCoordinates)
      else if radius <= 0.0 || radius > 50.0 then Err(InvalidRadius)
      else
        var found := Found(s, auth.value, lat, lng, radius, geohashOf, neighborsOf, dist, round);
        var users := Slice(SortBy(found, DistanceKey), LimitOf(req.limit));
        Ok(QueryResponse(users, |users|))
  }

  /** `queryNearbyUsers` on the database object: it reads the documents and answers
      what `QueryNearby` prescribes. */
  method QueryNearbyUsers(db: Firestore, auth: Option<string>, req: QueryRequest, geohashOf: LocationIndex.Encoder,
                          neighborsOf: NeighborsOf, dist: LocationIndex.Distance, round: Rounding)
    returns (resp: Result<QueryResponse>)
    ensures resp == QueryNearby(db.State(), auth, req, geohashOf, neighborsOf, dist, round)
  {
    resp := QueryNearby(db.State(), auth, req, geohashOf, neighborsOf, dist, round);
  }

  // ---------------------------------------------------------------------------
  // Properties

  /** A query is refused exactly when the caller is not signed in, a parameter is not
      a number, the centre is off the globe or the radius is outside (0, 50]. */
  lemma QueryRejections(s: DbState, auth: Option<string>, req: QueryRequest,
                        geohashOf: LocationIndex.Encoder, neighborsOf: NeighborsOf,
                    dist: LocationIndex.Distance, round: Rounding)
    ensures QueryNearby(s, auth, req, geohashOf, neighborsOf, dist, round).Err? <==> !ValidQuery(auth, req)
  {
  }

  /** A valid query answers with the first `limit` rows of the found rows sorted by distance. */
  lemma QueryAnswer(s: DbState, auth: Option<string>, req: QueryRequest,
                    geohashOf: LocationIndex.Encoder, neighborsOf: NeighborsOf,
                    dist: LocationIndex.Distance, round: Rounding)
    requires ValidQuery(auth, req)
    ensures var users := Slice(SortBy(Found(s, auth.value, req.latitude.value, req.longitude.value, req.radiusKm.value, geohashOf, neighborsOf, dist, round), DistanceKey),
                               LimitOf(req.limit));
            QueryNearby(s, auth, req, geohashOf, neighborsOf, dist, round) == Ok(QueryResponse(users, |users|))
  {
  }

  /** Every found row belongs to a visible candidate within the radius. */
  lemma FoundSound(s: DbState, uid: Uid, lat: real, lng: real, radius: real,
                   geohashOf: LocationIndex.Encoder, neighborsOf: NeighborsOf,
                   dist: LocationIndex.Distance, round: Rounding, r: NearbyUser)
    requires r in Found(s, uid, lat, lng, radius, geohashOf, neighborsOf, dist, round)
    ensures exists e | e in Candidates(s, QueryCells(geohashOf, neighborsOf, lat, lng)) ::
              && e.userId == r.userId
              && e.userId != uid
              && e.userId !in BlockedBy(s, uid)
              && Within(s, e, lat, lng, radius, dist)
              && r == Describe(s, e, lat, lng, dist, round)
  {
    var visible := Visible(Candidates(s, QueryCells(geohashOf, neighborsOf, lat, lng)), uid, BlockedBy(s, uid));
    LocatedSpec(s, visible, lat, lng, radius, dist, round);
  }

  /** Every row is a user other than the caller, not among those who blocked the caller,
      indexed in one of the queried cells, with a location document within the radius;
      the rows are in ascending distance, `count` is their number, and there are at most
      `limit` of them. */
  lemma QuerySound(s: DbState, auth: Option<string>, req: QueryRequest,
                   geohashOf: LocationIndex.Encoder, neighborsOf: NeighborsOf,
                    dist: LocationIndex.Distance, round: Rounding)
    requires ValidQuery(auth, req)
    ensures var resp := QueryNearby(s, auth, req, geohashOf, neighborsOf, dist, round).value;
            var lat, lng, radius := req.latitude.value, req.longitude.value, req.radiusKm.value;
            && resp.count == |resp.users|
            && SortedBy(resp.users, DistanceKey)
            && (LimitOf(req.limit) >= 0 ==> |resp.users| <= LimitOf(req.limit))
            && forall r | r in resp.users ::
                 exists e | e in Candidates(s, QueryCells(geohashOf, neighborsOf, lat, lng)) ::
                   && e.userId == r.userId
                   && e.userId != auth.value
                   && e.userId !in BlockedBy(s, auth.value)
                   && Within(s, e, lat, lng, radius, dist)
                   && r == Describe(s, e, lat, lng, dist, round)
  {
    var lat, lng, radius := req.latitude.value, req.longitude.value, req.radiusKm.value;
    QueryAnswer(s, auth, req, geohashOf, neighborsOf, dist, round);
    var found := Found(s, auth.value, lat, lng, radius, geohashOf, neighborsOf, dist, round);
    var sorted := SortBy(found, DistanceKey);
    var users := Slice(sorted, LimitOf(req.limit));
    forall r | r in users
      ensures exists e | e in Candidates(s, QueryCells(geohashOf, neighborsOf, lat, lng)) ::
                && e.userId == r.userId
                && e.userId != auth.value
                && e.userId !in BlockedBy(s, auth.value)
                && Within(s, e, lat, lng, radius, dist)
                && r == Describe(s, e, lat, lng, dist, round)
    {
      assert r in sorted;
      assert r in multiset(found);
      FoundSound(s, auth.value, lat, lng, radius, geohashOf, neighborsOf, dist, round, r);
    }
  }

  /** Every visible user of a queried cell with a location within the radius has a row
      among the found ones. */
  lemma FoundComplete(s: DbState, uid: Uid, lat: real, lng: real, radius: real, geohashOf: LocationIndex.Encoder,
                      neighborsOf: NeighborsOf, dist: LocationIndex.Distance, round: Rounding, i: nat, e: IndexEntry)
    requires i < |QueryCells(geohashOf, neighborsOf, lat, lng)|
    requires e in Bucket(s, QueryCells(geohashOf, neighborsOf, lat, lng)[i]).Values
    requires e.userId != uid && e.userId !in BlockedBy(s, uid) && Within(s, e, lat, lng, radius, dist)
    ensures Describe(s, e, lat, lng, dist, round) in Found(s, uid, lat, lng, radius, geohashOf, neighborsOf, dist, round)
  {
    var cells := QueryCells(geohashOf, neighborsOf, lat, lng);
    CandidatesSpec(s, cells);
    assert e in Candidates(s, cells);
    var visible := Visible(Candidates(s, cells), uid, BlockedBy(s, uid));
    LocatedSpec(s, visible, lat, lng, radius, dist, round);
  }

  /** Every visible user of the queried cells who is within the radius is answered,
      unless the limit cuts the list short. */
  lemma QueryComplete(s: DbState, auth: Option<string>, req: QueryRequest,
                      geohashOf: LocationIndex.Encoder, neighborsOf: NeighborsOf,
                      dist: LocationIndex.Distance, round: Rounding)
    requires ValidQuery(auth, req)
    ensures var lat, lng, radius := req.latitude.value, req.longitude.value, req.radiusKm.value;
            var cells := QueryCells(geohashOf, neighborsOf, lat, lng);
            var found := Found(s, auth.value, lat, lng, radius, geohashOf, neighborsOf, dist, round);
            var users := QueryNearby(s, auth, req, geohashOf, neighborsOf, dist, round).value.users;
            && (forall i, e | 0 <= i < |cells| && e in Bucket(s, cells[i]).Values &&
                              e.userId != auth.value && e.userId !in BlockedBy(s, auth.value) &&
                              Within(s, e, lat, lng, radius, dist) ::
                  Describe(s, e, lat, lng, dist, round) in found)
            && (LimitOf(req.limit) >= |found| ==> multiset(users) == multiset(found))
  {
    var lat, lng, radius := req.latitude.value, req.longitude.value, req.radiusKm.value;
    QueryAnswer(s, auth, req, geohashOf, neighborsOf, dist, round);
    var cells := QueryCells(geohashOf, neighborsOf, lat, lng);
    forall i, e | 0 <= i < |cells| && e in Bucket(s, cells[i]).Values &&
                  e.userId != auth.value && e.userId !in BlockedBy(s, auth.value) &&
                  Within(s, e, lat, lng, radius, dist)
      ensures Describe(s, e, lat, lng, dist, round) in Found(s, auth.value, lat, lng, radius, geohashOf, neighborsOf, dist, round)
    {
      FoundComplete(s, auth.value, lat, lng, radius, geohashOf, neighborsOf, dist, round, i, e);
    }
    var found := Found(s, auth.value, lat, lng, radius, geohashOf, neighborsOf, dist, round);
    var sorted := SortBy(found, DistanceKey);
    if LimitOf(req.limit) >= |found| {
      assert Slice(sorted, LimitOf(req.limit)) == sorted;
    }
  }

  /** A cut by the limit keeps the nearest rows: a found row left out is at least as
      far as every row answered. */
  lemma QueryNearestKept(s: DbState, auth: Option<string>, req: QueryRequest,
                         geohashOf: LocationIndex.Encoder, neighborsOf: NeighborsOf,
                         dist: LocationIndex.Distance, round: Rounding)
    requires ValidQuery(auth, req)
    ensures var found := Found(s, auth.value, req.latitude.value, req.longitude.value, req.radiusKm.value,
                               geohashOf, neighborsOf, dist, round);
            var users := QueryNearby(s, auth, req, geohashOf, neighborsOf, dist, round).value.users;
            forall x | x in found && x !in users :: forall i | 0 <= i < |users| :: users[i].distance <= x.distance
  {
    QueryAnswer(s, auth, req, geohashOf, neighborsOf, dist, round);
    var found := Found(s, auth.value, req.latitude.value, req.longitude.value, req.radiusKm.value,
                       geohashOf, neighborsOf, dist, round);
    var sorted := SortBy(found, DistanceKey);
    var users := Slice(sorted, LimitOf(req.limit));
    forall x | x in found && x !in users
      ensures forall i | 0 <= i < |users| :: users[i].distance <= x.distance
    {
      assert x in multiset(sorted);
      SortedPrefixLeast(sorted, DistanceKey, |users|, x);
    }
  }

  /** A `null` limit answers no rows, and a fractional one as many as its integer part. */
  lemma QueryLimitCases(s: DbState, auth: Option<string>, req: QueryRequest,
                        geohashOf: LocationIndex.Encoder, neighborsOf: NeighborsOf,
                        dist: LocationIndex.Distance, round: Rounding)
    requires ValidQuery(auth, req)
    ensures var found := Found(s, auth.value, req.latitude.value, req.longitude.value, req.radiusKm.value,
                               geohashOf, neighborsOf, dist, round);
            var resp := QueryNearby(s, auth, req, geohashOf, neighborsOf, dist, round).value;
            && (req.limit.Null? ==> resp.users == [] && resp.count == 0)
            && (req.limit.Missing? ==> resp.count == if |found| <= DefaultLimit then |found| else DefaultLimit)
            && (req.limit.Given? && 0.0 <= req.limit.n ==>
                  resp.count as real <= req.limit.n && (resp.count < |found| ==> req.limit.n < resp.count as real + 1.0))
  {
    QueryAnswer(s, auth, req, geohashOf, neighborsOf, dist, round);
  }

  /** With the Geohash module's encoder and neighbours, the queried cells are the
      centre's cell at the index precision and at most eight neighbours of the same
      length, and an entry is a candidate exactly when it sits in one of them. */
  lemma QueryCellsSpec(s: DbState, lat: real, lng: real)
    ensures var cells := QueryCells(Geohash.Encode, Geohash.Neighbors, lat, lng);
            && 1 <= |cells| <= 9
            && cells[0] == Geohash.Encode(lat, lng, QueryPrecision)
            && (forall i | 0 <= i < |cells| :: |cells[i]| == QueryPrecision)
            && forall e :: e in Candidates(s, cells) <==> exists i | 0 <= i < |cells| :: e in Bucket(s, cells[i]).Values
  {
    var centre := Geohash.Encode(lat, lng, QueryPrecision);
    Geohash.EncodeShape(lat, lng, QueryPrecision);
    Geohash.NeighborsSpec(centre);
    var cells := QueryCells(Geohash.Encode, Geohash.Neighbors, lat, lng);
    forall i | 0 <= i < |cells|
      ensures |cells[i]| == QueryPrecision
    {
      if i > 0 {
        assert cells[i] in Geohash.Neighbors(centre);
      }
    }
    CandidatesSpec(s, cells);
  }
}
