/** `getNearbyUsers`, the realtime-feed endpoint: resolve the caller and the query
    arguments, collect the distinct ids of the location records the range queries
    returned, fetch their profiles in `in` queries of at most ten ids, join and sort
    newest first.

    The range queries (geofire's bounds over the realtime database) and the profile
    queries are foreign: their results are inputs, `snapshots` and `fetch`. */
module NearbyFeed {
  import opened Common
  import opened Sorting

  const NoUserId := "User ID must be provided when not authenticated."
  const NoCoordinates := "The function must be called with latitude and longitude."
  const ErrorPrefix := "Error getting nearby users: "

  /** The most ids Firestore accepts in one `in` query. */
  const BatchSize: nat := 10

  // ---------------------------------------------------------------------------
  // Arguments

  /** `data.data`, the nested copy of the arguments some clients send. */
  datatype FeedData = FeedData(userId: Option<string>, latitude: Num, longitude: Num, radiusKm: Num)

  /** `context.auth?.uid` and `data`. */
  datatype FeedRequest = FeedRequest(
    authUid: Option<string>,
    userId: Option<string>,
    latitude: Num,
    longitude: Num,
    radiusKm: Num,
    nested: Option<FeedData>)

  datatype FeedArgs = FeedArgs(userId: string, latitude: real, longitude: real, radiusKm: real)

  /** `a || b` on possibly missing strings. */
  function OrId(a: Option<string>, b: Option<string>): Option<string> {
    if TruthyStr(a) then a else b
  }

  /** `data.data && data.data.<field>`: missing when there is no nested object. */
  function NestedId(req: FeedRequest): Option<string> {
    if req.nested.Some? then req.nested.value.userId else None
  }

  function NestedNum(req: FeedRequest, field: FeedData -> Num): Num {
    if req.nested.Some? then field(req.nested.value) else None
  }

  function LatitudeOf(d: FeedData): Num { d.latitude }
  function LongitudeOf(d: FeedData): Num { d.longitude }
  function RadiusOf(d: FeedData): Num { d.radiusKm }

  /** `Math.min(Math.max(radiusKm, 0.1), 50.0)`. */
  function ClampRadius(r: real): (c: real)
    ensures 0.1 <= c <= 50.0
    ensures 0.1 <= r <= 50.0 ==> c == r
    ensures r < 0.1 ==> c == 0.1
    ensures r > 50.0 ==> c == 50.0
  {
    Min(Max(r, 0.1), 50.0)
  }

  /** The caller from the auth context, else `data.userId`, else `data.data.userId`;
      a falsy latitude or longitude (0 included) is refused; the radius defaults to 5
      when missing or 0, and is clamped to [0.1, 50]. */
  function ResolveArgs(req: FeedRequest): Result<FeedArgs> {
    var uid := OrId(OrId(req.authUid, req.userId), NestedId(req));
    var latitude := OrNum(req.latitude, NestedNum(req, LatitudeOf));
    var longitude := OrNum(req.longitude, NestedNum(req, LongitudeOf));
    var radiusKm := OrNum(OrNum(req.radiusKm, NestedNum(req, RadiusOf)), Some(5.0));
    if !TruthyStr(uid) then Err(NoUserId)
    else if !TruthyNum(latitude) || !TruthyNum(longitude) then Err(NoCoordinates)
    else Ok(FeedArgs(uid.value, latitude.value, longitude.value, ClampRadius(radiusKm.value)))
  }

  /** The prefix length the source derives from the radius (it is logged, not used). */
  function PrefixPrecision(validRadius: real): (p: nat)
    ensures p == 5 || p == 6
  {
    if validRadius <= 1.0 then 6 else 5
  }

  /** The resolved arguments: the first truthy id of the auth context, `data` and
      `data.data`; each coordinate from `data`, else from `data.data`; the radius from
      `data`, else `data.data`, else 5, clamped. */
  lemma ResolveArgsSpec(req: FeedRequest)
    ensures ResolveArgs(req).Ok? ==>
              var a := ResolveArgs(req).value;
              && a.userId != ""
              && (TruthyStr(req.authUid) ==> a.userId == req.authUid.value)
              && (!TruthyStr(req.authUid) && TruthyStr(req.userId) ==> a.userId == req.userId.value)
              && (!TruthyStr(req.authUid) && !TruthyStr(req.userId) ==>
                    req.nested.Some? && a.userId == req.nested.value.userId.value)
              && a.latitude != 0.0 && a.longitude != 0.0
              && (TruthyNum(req.latitude) ==> a.latitude == req.latitude.value)
              && (!TruthyNum(req.latitude) ==> req.nested.Some? && a.latitude == req.nested.value.latitude.value)
              && (TruthyNum(req.longitude) ==> a.longitude == req.longitude.value)
              && (!TruthyNum(req.longitude) ==> req.nested.Some? && a.longitude == req.nested.value.longitude.value)
              && (TruthyNum(req.radiusKm) ==> a.radiusKm == ClampRadius(req.radiusKm.value))
              && (!TruthyNum(req.radiusKm) && TruthyNum(NestedNum(req, RadiusOf)) ==>
                    a.radiusKm == ClampRadius(req.nested.value.radiusKm.value))
              && (!TruthyNum(req.radiusKm) && !TruthyNum(NestedNum(req, RadiusOf)) ==> a.radiusKm == 5.0)
    ensures TruthyStr(req.authUid) && TruthyNum(req.latitude) && TruthyNum(req.longitude) ==> ResolveArgs(req).Ok?
  {
  }

  /** A call is refused for want of an id exactly when none of the three places holds
      one, and otherwise for want of coordinates exactly when a coordinate is falsy at
      both levels; no other refusal occurs. */
  lemma ResolveArgsErrors(req: FeedRequest)
    ensures ResolveArgs(req) == Err(NoUserId) <==>
              !TruthyStr(req.authUid) && !TruthyStr(req.userId) && !TruthyStr(NestedId(req))
    ensures ResolveArgs(req) == Err(NoCoordinates) <==>
              && (TruthyStr(req.authUid) || TruthyStr(req.userId) || TruthyStr(NestedId(req)))
              && ((!TruthyNum(req.latitude) && !TruthyNum(NestedNum(req, LatitudeOf))) ||
                  (!TruthyNum(req.longitude) && !TruthyNum(NestedNum(req, LongitudeOf))))
    ensures ResolveArgs(req).Err? ==> ResolveArgs(req) == Err(NoUserId) || ResolveArgs(req) == Err(NoCoordinates)
  {
    assert |NoUserId| != |NoCoordinates|;
  }

  // ---------------------------------------------------------------------------
  // Collecting candidate ids

  /** A realtime-database location record: `lat`, `lng` and `timestamp`. */
  datatype RtLocation = RtLocation(lat: Num, lng: Num, timestamp: Num)

  /** One child of a query snapshot: its key (the user id) and its value, if any. */
  datatype Child = Child(key: string, value: Option<RtLocation>)

  /** The result of collection: the ids in order, and `nearbyUserLocations`. */
  datatype Collected = Collected(ids: seq<string>, seen: map<string, real>)

  /** The child is kept: not the caller, with a truthy `lat` and `lng`. */
  predicate Accepted(c: Child, uid: string) {
    c.key != uid && c.value.Some? && TruthyNum(c.value.value.lat) && TruthyNum(c.value.value.lng)
  }

  /** `locationData.timestamp || Date.now() / 1000`. */
  function LastUpdated(c: Child, nowSeconds: real): real
    requires c.value.Some?
  {
    OrNum(c.value.value.timestamp, Some(nowSeconds)).GetOr(nowSeconds)
  }

  /** The body of the inner `forEach`: skip the caller, records without coordinates and
      ids already seen; otherwise push the id and record its time. */
  function Visit(acc: Collected, c: Child, uid: string, nowSeconds: real): Collected {
    if !Accepted(c, uid) || c.key in acc.seen then acc
    else Collected(acc.ids + [c.key], acc.seen[c.key := LastUpdated(c, nowSeconds)])
  }

  /** The children visited in order, from no ids. */
  function CollectAll(cs: seq<Child>, uid: string, nowSeconds: real): Collected
    decreases |cs|
  {
    if cs == [] then Collected([], map[])
    else Visit(CollectAll(cs[..|cs| - 1], uid, nowSeconds), cs[|cs| - 1], uid, nowSeconds)
  }

  /** The snapshots' children in order. */
  function Flatten<T>(xss: seq<seq<T>>): seq<T>
    decreases |xss|
  {
    if xss == [] then [] else Flatten(xss[..|xss| - 1]) + xss[|xss| - 1]
  }

  /** The nested `forEach` loops over the snapshots. */
  method Collect(snapshots: seq<seq<Child>>, userId: string, nowSeconds: real)
    returns (nearbyUserIds: seq<string>, nearbyUserLocations: map<string, real>)
    ensures Collected(nearbyUserIds, nearbyUserLocations) == CollectAll(Flatten(snapshots), userId, nowSeconds)
  {
    nearbyUserIds, nearbyUserLocations := [], map[];
    for i := 0 to |snapshots|
      invariant Collected(nearbyUserIds, nearbyUserLocations) == CollectAll(Flatten(snapshots[..i]), userId, nowSeconds)
    {
      var snapshot := snapshots[i];
      assert snapshots[..i + 1][..i] == snapshots[..i];
      assert Flatten(snapshots[..i]) + snapshot[..0] == Flatten(snapshots[..i]);
      for j := 0 to |snapshot|
        invariant Collected(nearbyUserIds, nearbyUserLocations)
               == CollectAll(Flatten(snapshots[..i]) + snapshot[..j], userId, nowSeconds)
      {
        var child := snapshot[j];
        ghost var before := Flatten(snapshots[..i]) + snapshot[..j];
        assert (before + [child])[..|before|] == before;
        assert Flatten(snapshots[..i]) + snapshot[..j + 1] == before + [child];
        if child.key == userId {
          continue;
        }
        if child.value.None? || !TruthyNum(child.value.value.lat) || !TruthyNum(child.value.value.lng) {
          continue;
        }
        if child.key !in nearbyUserLocations {
          nearbyUserIds := nearbyUserIds + [child.key];
          nearbyUserLocations := nearbyUserLocations[child.key := LastUpdated(child, nowSeconds)];
        }
      }
      assert snapshot[..|snapshot|] == snapshot;
    }
    assert snapshots[..|snapshots|] == snapshots;
  }

  predicate NoDuplicates(ids: seq<string>) {
    forall i, j | 0 <= i < j < |ids| :: ids[i] != ids[j]
  }

  /** The collected ids are distinct, are the keys of `seen`, and are exactly the keys of
      the accepted children; each one's time is that of its first accepted child. */
  lemma {:induction false} CollectSpec(cs: seq<Child>, uid: string, nowSeconds: real)
    ensures var r := CollectAll(cs, uid, nowSeconds);
            && NoDuplicates(r.ids)
            && (forall x :: x in r.ids <==> x in r.seen)
            && (forall x :: x in r.ids <==> exists k | 0 <= k < |cs| :: cs[k].key == x && Accepted(cs[k], uid))
            && forall x | x in r.seen ::
                 exists k | 0 <= k < |cs| ::
                   && cs[k].key == x && Accepted(cs[k], uid)
                   && r.seen[x] == LastUpdated(cs[k], nowSeconds)
                   && forall k' | 0 <= k' < k :: !(cs[k'].key == x && Accepted(cs[k'], uid))
    decreases |cs|
  {
    if cs != [] {
      var init, c := cs[..|cs| - 1], cs[|cs| - 1];
      CollectSpec(init, uid, nowSeconds);
      var r0 := CollectAll(init, uid, nowSeconds);
      var r := CollectAll(cs, uid, nowSeconds);
      assert forall k | 0 <= k < |init| :: init[k] == cs[k];
      forall x | x in r.seen
        ensures exists k | 0 <= k < |cs| ::
                  && cs[k].key == x && Accepted(cs[k], uid)
                  && r.seen[x] == LastUpdated(cs[k], nowSeconds)
                  && forall k' | 0 <= k' < k :: !(cs[k'].key == x && Accepted(cs[k'], uid))
      {
        if x in r0.seen {
          assert r.seen[x] == r0.seen[x];
        } else {
          assert x == c.key && Accepted(c, uid);
          assert forall k' | 0 <= k' < |cs| - 1 :: !(cs[k'].key == x && Accepted(cs[k'], uid));
        }
      }
    }
  }

  /** First-seen order: the ids collected from any prefix of the children are a prefix
      of the ids collected from all of them. */
  lemma {:induction false} CollectPrefix(cs: seq<Child>, m: nat, uid: string, nowSeconds: real)
    requires m <= |cs|
    ensures CollectAll(cs[..m], uid, nowSeconds).ids <= CollectAll(cs, uid, nowSeconds).ids
    decreases |cs|
  {
    if m < |cs| {
      var init := cs[..|cs| - 1];
      assert init[..m] == cs[..m];
      CollectPrefix(init, m, uid, nowSeconds);
    } else {
      assert cs[..m] == cs;
    }
  }

  // ---------------------------------------------------------------------------
  // Batching

  /** `nearbyUserIds.slice(i, i + 10)` for i = 0, 10, 20, ... */
  function Chunks(ids: seq<string>): seq<seq<string>>
    decreases |ids|
  {
    if ids == [] then []
    else if |ids| <= BatchSize then [ids]
    else [ids[..BatchSize]] + Chunks(ids[BatchSize..])
  }

  /** The source's `for (let i = 0; i < n; i += batchSize)` loop. */
  method SplitIntoBatches(nearbyUserIds: seq<string>) returns (batches: seq<seq<string>>)
    ensures batches == Chunks(nearbyUserIds)
  {
    batches := [];
    var i := 0;
    while i < |nearbyUserIds|
      invariant 0 <= i <= |nearbyUserIds| + BatchSize
      invariant i <= |nearbyUserIds| ==> batches + Chunks(nearbyUserIds[i..]) == Chunks(nearbyUserIds)
      invariant i > |nearbyUserIds| ==> batches == Chunks(nearbyUserIds)
      decreases |nearbyUserIds| - i
    {
      var end := if i + BatchSize <= |nearbyUserIds| then i + BatchSize else |nearbyUserIds|;
      var batch := nearbyUserIds[i..end];
      ghost var rest := nearbyUserIds[i..];
      assert Chunks(rest) == [batch] + Chunks(nearbyUserIds[end..]) by {
        if |rest| > BatchSize {
          assert rest[..BatchSize] == batch && rest[BatchSize..] == nearbyUserIds[end..];
        } else {
          assert rest == batch && nearbyUserIds[end..] == [];
        }
      }
      batches := batches + [batch];
      i := i + BatchSize;
      if i > |nearbyUserIds| {
        assert Chunks(nearbyUserIds[end..]) == [];
      }
    }
    if i == |nearbyUserIds| {
      assert Chunks(nearbyUserIds[i..]) == [];
    }
  }

  function Concat(xss: seq<seq<string>>): seq<string>
    decreases |xss|
  {
    if xss == [] then [] else xss[0] + Concat(xss[1..])
  }

  /** The batches, concatenated in order, are the ids; each holds one to ten ids; there
      are ceil(n / 10) of them. */
  lemma {:induction false} ChunksSpec(ids: seq<string>)
    ensures Concat(Chunks(ids)) == ids
    ensures forall i | 0 <= i < |Chunks(ids)| :: 1 <= |Chunks(ids)[i]| <= BatchSize
    ensures |Chunks(ids)| == (|ids| + BatchSize - 1) / BatchSize
    decreases |ids|
  {
    if |ids| > BatchSize {
      ChunksSpec(ids[BatchSize..]);
      var rest := Chunks(ids[BatchSize..]);
      assert Chunks(ids) == [ids[..BatchSize]] + rest;
      assert Chunks(ids)[1..] == rest;
      assert ids == ids[..BatchSize] + ids[BatchSize..];
      forall i | 0 <= i < |Chunks(ids)|
        ensures 1 <= |Chunks(ids)[i]| <= BatchSize
      {
        if i > 0 {
          assert Chunks(ids)[i] == rest[i - 1];
        }
      }
    } else if ids != [] {
      assert Chunks(ids) == [ids];
      assert Concat([ids]) == ids + Concat([]);
    }
  }

  // ---------------------------------------------------------------------------
  // Profiles

  /** A `users/{id}` document; a missing field is "". */
  datatype ProfileDoc = ProfileDoc(id: string, displayName: string, photoURL: string,
                                   profileImageUrl: string, moodTemperature: string)

  /** `getDocs(query(users, where(documentId(), 'in', batch)))`. */
  type ProfileQuery = seq<string> -> seq<ProfileDoc>

  datatype FeedUser = FeedUser(id: string, userId: string, displayName: string, profileImageUrl: string,
                               moodTemperature: string, lastUpdated: real)

  /** The entry for a profile of a collected id, with the source's defaults. */
  function Profile(d: ProfileDoc, lastUpdated: real): FeedUser {
    FeedUser(d.id, d.id, OrStr(d.displayName, "Unknown User"), OrStr(d.photoURL, OrStr(d.profileImageUrl, "")),
             OrStr(d.moodTemperature, "Neutral"), lastUpdated)
  }

  /** The body of the inner `forEach` over profile documents. */
  function JoinStep(users: seq<FeedUser>, d: ProfileDoc, seen: map<string, real>): seq<FeedUser> {
    if d.id in seen then users + [Profile(d, seen[d.id])] else users
  }

  function JoinAll(docs: seq<ProfileDoc>, seen: map<string, real>): seq<FeedUser>
    decreases |docs|
  {
    if docs == [] then [] else JoinStep(JoinAll(docs[..|docs| - 1], seen), docs[|docs| - 1], seen)
  }

  /** The nested `forEach` loops over the profile snapshots. */
  method Join(userProfileSnapshots: seq<seq<ProfileDoc>>, nearbyUserLocations: map<string, real>)
    returns (nearbyUsers: seq<FeedUser>)
    ensures nearbyUsers == JoinAll(Flatten(userProfileSnapshots), nearbyUserLocations)
  {
    nearbyUsers := [];
    for i := 0 to |userProfileSnapshots|
      invariant nearbyUsers == JoinAll(Flatten(userProfileSnapshots[..i]), nearbyUserLocations)
    {
      var querySnapshot := userProfileSnapshots[i];
      assert userProfileSnapshots[..i + 1][..i] == userProfileSnapshots[..i];
      assert Flatten(userProfileSnapshots[..i]) + querySnapshot[..0] == Flatten(userProfileSnapshots[..i]);
      for j := 0 to |querySnapshot|
        invariant nearbyUsers == JoinAll(Flatten(userProfileSnapshots[..i]) + querySnapshot[..j], nearbyUserLocations)
      {
        var doc := querySnapshot[j];
        ghost var before := Flatten(userProfileSnapshots[..i]) + querySnapshot[..j];
        assert (before + [doc])[..|before|] == before;
        assert Flatten(userProfileSnapshots[..i]) + querySnapshot[..j + 1] == before + [doc];
        if doc.id in nearbyUserLocations {
          nearbyUsers := nearbyUsers + [Profile(doc, nearbyUserLocations[doc.id])];
        }
      }
      assert querySnapshot[..|querySnapshot|] == querySnapshot;
    }
    assert userProfileSnapshots[..|userProfileSnapshots|] == userProfileSnapshots;
  }

  /** Only profiles of collected ids are joined, each with its collected time. */
  lemma {:induction false} JoinSpec(docs: seq<ProfileDoc>, seen: map<string, real>)
    ensures |JoinAll(docs, seen)| <= |docs|
    ensures forall u | u in JoinAll(docs, seen) ::
              u.userId in seen && u.lastUpdated == seen[u.userId] && u.id == u.userId &&
              exists d | d in docs :: d.id == u.userId && u == Profile(d, seen[d.id])
    ensures forall d | d in docs && d.id in seen :: Profile(d, seen[d.id]) in JoinAll(docs, seen)
    decreases |docs|
  {
    if docs != [] {
      var init := docs[..|docs| - 1];
      JoinSpec(init, seen);
      assert docs == init + [docs[|docs| - 1]];
    }
  }

  /** `(a, b) => b.lastUpdated - a.lastUpdated`: ascending in this key is newest first. */
  function Recency(u: FeedUser): real {
    -u.lastUpdated
  }

  // ---------------------------------------------------------------------------
  // The endpoint

  /** The response, and the `in` queries issued. */
  datatype FeedOutcome = FeedOutcome(response: Result<seq<FeedUser>>, queries: seq<seq<string>>)

  function Queried(fetch: ProfileQuery, batches: seq<seq<string>>): seq<seq<ProfileDoc>>
    decreases |batches|
  {
    if batches == [] then [] else Queried(fetch, batches[..|batches| - 1]) + [fetch(batches[|batches| - 1])]
  }

  /** What `getNearbyUsers` does; every failure becomes an `internal` error whose
      message carries the original one. */
  function Feed(req: FeedRequest, snapshots: seq<seq<Child>>, fetch: ProfileQuery, nowSeconds: real): FeedOutcome {
    match ResolveArgs(req)
    case Err(e) => FeedOutcome(Err(ErrorPrefix + e), [])
    case Ok(args) =>
      var collected := CollectAll(Flatten(snapshots), args.userId, nowSeconds);
      if collected.ids == [] then FeedOutcome(Ok([]), [])
      else
        var batches := Chunks(collected.ids);
        var joined := JoinAll(Flatten(Queried(fetch, batches)), collected.seen);
        FeedOutcome(Ok(SortBy(joined, Recency)), batches)
  }

  /** `getNearbyUsers`. */
  method GetNearbyUsers(req: FeedRequest, snapshots: seq<seq<Child>>, fetch: ProfileQuery, nowSeconds: real)
    returns (response: Result<seq<FeedUser>>, queries: seq<seq<string>>)
    ensures FeedOutcome(response, queries) == Feed(req, snapshots, fetch, nowSeconds)
  {
    var args := ResolveArgs(req);
    if args.Err? {
      return Err(ErrorPrefix + args.error), [];
    }
    var userId := args.value.userId;
    var nearbyUserIds, nearbyUserLocations := Collect(snapshots, userId, nowSeconds);
    if |nearbyUserIds| == 0 {
      return Ok([]), [];
    }
    var batches := SplitIntoBatches(nearbyUserIds);
    var userProfileSnapshots: seq<seq<ProfileDoc>> := [];
    for i := 0 to |batches|
      invariant userProfileSnapshots == Queried(fetch, batches[..i])
    {
      assert batches[..i + 1][..i] == batches[..i];
      userProfileSnapshots := userProfileSnapshots + [fetch(batches[i])];
    }
    assert batches[..|batches|] == batches;
    var nearbyUsers := Join(userProfileSnapshots, nearbyUserLocations);
    return Ok(SortBy(nearbyUsers, Recency)), batches;
  }

  // ---------------------------------------------------------------------------
  // Properties

  /** Argument failures are wrapped in the internal error and issue no profile query;
      without candidates the answer is empty and no profile query is issued. */
  lemma FeedShortCuts(req: FeedRequest, snapshots: seq<seq<Child>>, fetch: ProfileQuery, nowSeconds: real)
    ensures var out := Feed(req, snapshots, fetch, nowSeconds);
            && (out.response.Err? <==> ResolveArgs(req).Err?)
            && (out.response.Err? ==> out.queries == [] && out.response.error == ErrorPrefix + ResolveArgs(req).error)
            && (ResolveArgs(req).Ok? &&
                CollectAll(Flatten(snapshots), ResolveArgs(req).value.userId, nowSeconds).ids == [] ==>
                  out == FeedOutcome(Ok([]), []))
  {
  }

  /** The profile queries are the collected ids in batches of one to ten, in order. */
  lemma FeedQueries(req: FeedRequest, snapshots: seq<seq<Child>>, fetch: ProfileQuery, nowSeconds: real)
    requires ResolveArgs(req).Ok?
    ensures var out := Feed(req, snapshots, fetch, nowSeconds);
            && Concat(out.queries) == CollectAll(Flatten(snapshots), ResolveArgs(req).value.userId, nowSeconds).ids
            && forall b | b in out.queries :: 1 <= |b| <= BatchSize
  {
    var collected := CollectAll(Flatten(snapshots), ResolveArgs(req).value.userId, nowSeconds);
    ChunksSpec(collected.ids);
    if collected.ids == [] {
      assert Concat([]) == [];
    } else {
      var batches := Chunks(collected.ids);
      forall b | b in batches
        ensures 1 <= |b| <= BatchSize
      {
        var i :| 0 <= i < |batches| && batches[i] == b;
      }
    }
  }

  /** The answer is newest first, and every answered user is another user that was
      collected, with its first-seen time. */
  lemma FeedRows(req: FeedRequest, snapshots: seq<seq<Child>>, fetch: ProfileQuery, nowSeconds: real)
    requires ResolveArgs(req).Ok?
    ensures var out := Feed(req, snapshots, fetch, nowSeconds);
            var uid := ResolveArgs(req).value.userId;
            var collected := CollectAll(Flatten(snapshots), uid, nowSeconds);
            && out.response.Ok?
            && (forall i, j | 0 <= i < j < |out.response.value| ::
                  out.response.value[i].lastUpdated >= out.response.value[j].lastUpdated)
            && forall u | u in out.response.value ::
                 && u.userId in collected.ids && u.userId != uid
                 && u.userId in collected.seen && u.lastUpdated == collected.seen[u.userId]
  {
    var uid := ResolveArgs(req).value.userId;
    var cs := Flatten(snapshots);
    var collected := CollectAll(cs, uid, nowSeconds);
    if collected.ids != [] {
      CollectSpec(cs, uid, nowSeconds);
      var docs := Flatten(Queried(fetch, Chunks(collected.ids)));
      var joined := JoinAll(docs, collected.seen);
      JoinSpec(docs, collected.seen);
      var sorted := SortBy(joined, Recency);
      assert SortedBy(sorted, Recency);
      forall u | u in sorted
        ensures u.userId in collected.ids && u.userId != uid && u.lastUpdated == collected.seen[u.userId]
      {
        assert u in multiset(joined);
        var k :| 0 <= k < |cs| && cs[k].key == u.userId && Accepted(cs[k], uid);
      }
    }
  }
}
