/** The Firestore collections the backend reads and writes, the write operations a
    batch can hold, and the database object whose `Commit` applies a batch atomically.

    Collections: `users/{uid}`, `users_public/{uid}`, `users_private/{uid}`,
    `locations/{uid}` and `geo_index/{prefix}/users/{uid}`. A document is a record
    whose missing optional fields are `None` (numbers, objects) or "" (strings). */
module Store {
  import opened Common
  import opened Strings

  type Uid = string

  /** A server timestamp (`FieldValue.serverTimestamp()`), supplied by the caller. */
  type Time = int

  datatype ZoneCenter = ZoneCenter(latitude: Num, longitude: Num)

  /** A privacy zone as stored or as sent by a client; any field may be missing. */
  datatype Zone = Zone(zoneId: Option<string>, name: Option<string>, center: Option<ZoneCenter>, radiusMeters: Num)

  /** `privacySettings`: `ghostMode` is `None` when it is not a boolean (or missing),
      `privacyZones` is `None` when it is missing or not an array. */
  datatype PrivacySettings = PrivacySettings(ghostMode: Option<bool>, privacyZones: Option<seq<Zone>>)

  datatype UserDoc = UserDoc(userId: Uid, displayName: string, email: string, photoURL: string, createdAt: Time)

  datatype PublicProfile = PublicProfile(displayName: string, photoURL: string, moodTemperature: string, createdAt: Time)

  /** `users_private/{uid}`: the index path `currentGeoIndexPath` names the user's geo-index
      entry; `blockedBy` is `connections.blockedBy` when that is an array. */
  datatype PrivateDoc = PrivateDoc(
    email: string,
    notifications: bool,
    darkMode: bool,
    privacySettings: Option<PrivacySettings>,
    currentGeoIndexPath: Option<string>,
    isOnline: bool,
    lastActive: Time,
    createdAt: Time,
    blockedBy: Option<seq<Uid>>)

  datatype Position = Position(latitude: real, longitude: real, accuracy: real, altitude: Num, heading: Num, speed: Num, timestamp: Time)

  datatype LocationDoc = LocationDoc(
    userId: Uid,
    location: Position,
    geohash: string,
    movementState: string,
    batteryLevel: Num,
    locationMethod: string,
    lastUpdated: Time,
    lastActive: Time,
    inPrivacyZone: bool,
    privacyZoneId: Option<string>)

  /** `geo_index/{prefix}/users/{uid}`, with the profile fields copied for queries. */
  datatype IndexEntry = IndexEntry(
    userId: Uid,
    geohash: string,
    lastUpdated: Time,
    displayName: string,
    profileImageUrl: string,
    moodTemperature: string)

  datatype DbState = DbState(
    users: map<Uid, UserDoc>,
    usersPublic: map<Uid, PublicProfile>,
    usersPrivate: map<Uid, PrivateDoc>,
    locations: map<Uid, LocationDoc>,
    geoIndex: map<string, map<Uid, IndexEntry>>)

  /** The fields an `update` of a private document writes. */
  datatype PrivatePatch =
    | SetPath(path: Option<string>)
    | SignedOut(at: Time)
    | WentOffline(at: Time)
    | SetSettings(settings: PrivacySettings)

  /** One write of a batch. `set` creates or replaces a document, `update` changes
      fields of an existing one, `delete` removes one if present. */
  datatype Op =
    | SetUser(uid: Uid, user: UserDoc)
    | SetPublic(uid: Uid, profile: PublicProfile)
    | SetPrivate(uid: Uid, doc: PrivateDoc)
    | UpdatePrivate(uid: Uid, patch: PrivatePatch)
    | SetLocation(uid: Uid, loc: LocationDoc)
    | TouchLocation(uid: Uid, at: Time)
    | SetEntry(prefix: string, uid: Uid, entry: IndexEntry)
    | DeleteEntry(prefix: string, uid: Uid)

  function PatchPrivate(d: PrivateDoc, p: PrivatePatch): PrivateDoc {
    match p
    case SetPath(path) => d.(currentGeoIndexPath := path)
    case SignedOut(at) => d.(isOnline := false, currentGeoIndexPath := None, lastActive := at)
    case WentOffline(at) => d.(isOnline := false, lastActive := at)
    case SetSettings(settings) => d.(privacySettings := Some(settings))
  }

  /** The documents of bucket `prefix` (none when the bucket was never written). */
  function Bucket(s: DbState, prefix: string): map<Uid, IndexEntry> {
    if prefix in s.geoIndex then s.geoIndex[prefix] else map[]
  }

  /** The buckets that hold an entry for `uid`. */
  function Buckets(s: DbState, uid: Uid): set<string> {
    set p | p in s.geoIndex && uid in s.geoIndex[p]
  }

  /** One write; an `update` of a missing document fails. */
  function ApplyOp(s: DbState, op: Op): (r: Option<DbState>)
    ensures r.None? <==> (op.UpdatePrivate? && op.uid !in s.usersPrivate) || (op.TouchLocation? && op.uid !in s.locations)
  {
    match op
    case SetUser(uid, user) => Some(s.(users := s.users[uid := user]))
    case SetPublic(uid, profile) => Some(s.(usersPublic := s.usersPublic[uid := profile]))
    case SetPrivate(uid, doc) => Some(s.(usersPrivate := s.usersPrivate[uid := doc]))
    case UpdatePrivate(uid, patch) =>
      if uid in s.usersPrivate
      then Some(s.(usersPrivate := s.usersPrivate[uid := PatchPrivate(s.usersPrivate[uid], patch)]))
      else None
    case SetLocation(uid, loc) => Some(s.(locations := s.locations[uid := loc]))
    case TouchLocation(uid, at) =>
      if uid in s.locations
      then Some(s.(locations := s.locations[uid := s.locations[uid].(lastActive := at)]))
      else None
    case SetEntry(prefix, uid, entry) => Some(s.(geoIndex := s.geoIndex[prefix := Bucket(s, prefix)[uid := entry]]))
    case DeleteEntry(prefix, uid) =>
      if prefix in s.geoIndex
      then Some(s.(geoIndex := s.geoIndex[prefix := s.geoIndex[prefix] - {uid}]))
      else Some(s)
  }

  /** A batch: the writes in order, all or nothing. */
  function ApplyBatch(s: DbState, ops: seq<Op>): Option<DbState>
    decreases |ops|
  {
    if ops == [] then Some(s)
    else match ApplyOp(s, ops[0])
      case None => None
      case Some(s1) => ApplyBatch(s1, ops[1..])
  }

  /** The error text of a failed commit; the database's own message is not modelled. */
  const CommitError := "Batch commit failed"

  /** An endpoint's writes and its success response. */
  datatype Plan<R> = Plan(ops: seq<Op>, response: R)

  /** The state and the response after an endpoint performs `plan`: a rejected request
      writes nothing, an accepted one commits its writes or fails as a whole. */
  function Run<R>(s: DbState, plan: Result<Plan<R>>): (DbState, Result<R>) {
    match plan
    case Err(e) => (s, Err(e))
    case Ok(p) =>
      match ApplyBatch(s, p.ops)
      case None => (s, Err(CommitError))
      case Some(s1) => (s1, Ok(p.response))
  }

  /** Writes performed one after another compose like one batch. */
  lemma {:induction false} ApplyBatchAppend(s: DbState, a: seq<Op>, b: seq<Op>)
    requires ApplyBatch(s, a).Some?
    ensures ApplyBatch(s, a + b) == ApplyBatch(ApplyBatch(s, a).value, b)
    decreases |a|
  {
    if a != [] {
      assert (a + b)[0] == a[0] && (a + b)[1..] == a[1..] + b;
      var s1 := ApplyOp(s, a[0]).value;
      assert ApplyBatch(s, a) == ApplyBatch(s1, a[1..]);
      assert ApplyBatch(s, a + b) == ApplyBatch(s1, a[1..] + b);
      ApplyBatchAppend(s1, a[1..], b);
    } else {
      assert a + b == b;
    }
  }

  // ---------------------------------------------------------------------------
  // Effect of the writes on one user's index entries

  lemma SetEntryBuckets(s: DbState, prefix: string, uid: Uid, e: IndexEntry, u: Uid)
    ensures Buckets(ApplyOp(s, SetEntry(prefix, uid, e)).value, u)
         == if u == uid then Buckets(s, u) + {prefix} else Buckets(s, u)
  {
    var s1 := ApplyOp(s, SetEntry(prefix, uid, e)).value;
    forall p
      ensures p in Buckets(s1, u) <==> p in (if u == uid then Buckets(s, u) + {prefix} else Buckets(s, u))
    {
    }
  }

  lemma DeleteEntryBuckets(s: DbState, prefix: string, uid: Uid, u: Uid)
    ensures Buckets(ApplyOp(s, DeleteEntry(prefix, uid)).value, u)
         == if u == uid then Buckets(s, u) - {prefix} else Buckets(s, u)
  {
    var s1 := ApplyOp(s, DeleteEntry(prefix, uid)).value;
    forall p
      ensures p in Buckets(s1, u) <==> p in (if u == uid then Buckets(s, u) - {prefix} else Buckets(s, u))
    {
    }
  }

  /** Every write names a document of user `uid`. */
  predicate OnlyFor(ops: seq<Op>, uid: Uid) {
    forall k | 0 <= k < |ops| :: ops[k].uid == uid
  }

  /** A batch whose updates all name documents that exist commits: no write removes
      a private or location document, so they still exist when their update runs. */
  lemma {:induction false} BatchCommits(s: DbState, ops: seq<Op>)
    requires forall k | 0 <= k < |ops| :: ops[k].UpdatePrivate? ==> ops[k].uid in s.usersPrivate
    requires forall k | 0 <= k < |ops| :: ops[k].TouchLocation? ==> ops[k].uid in s.locations
    ensures ApplyBatch(s, ops).Some?
    decreases |ops|
  {
    if ops != [] {
      var s1 := ApplyOp(s, ops[0]).value;
      assert s.usersPrivate.Keys <= s1.usersPrivate.Keys && s.locations.Keys <= s1.locations.Keys;
      forall k | 0 <= k < |ops[1..]|
        ensures ops[1..][k].UpdatePrivate? ==> ops[1..][k].uid in s1.usersPrivate
        ensures ops[1..][k].TouchLocation? ==> ops[1..][k].uid in s1.locations
      {
        assert ops[1..][k] == ops[k + 1];
      }
      BatchCommits(s1, ops[1..]);
    }
  }

  // ---------------------------------------------------------------------------
  // One user's view of the database: the private document and the buckets holding
  // an entry for the user

  datatype View = View(private: Option<PrivateDoc>, buckets: set<string>)

  function ViewOf(s: DbState, u: Uid): View {
    View(if u in s.usersPrivate then Some(s.usersPrivate[u]) else None, Buckets(s, u))
  }

  /** What a successful write does to the view of user `u`. */
  function ViewStep(v: View, op: Op, u: Uid): View {
    if op.uid != u then v
    else match op
      case SetPrivate(_, d) => v.(private := Some(d))
      case UpdatePrivate(_, p) => if v.private.Some? then v.(private := Some(PatchPrivate(v.private.value, p))) else v
      case SetEntry(prefix, _, _) => v.(buckets := v.buckets + {prefix})
      case DeleteEntry(prefix, _) => v.(buckets := v.buckets - {prefix})
      case _ => v
  }

  function ViewFold(v: View, ops: seq<Op>, u: Uid): View
    decreases |ops|
  {
    if ops == [] then v else ViewFold(ViewStep(v, ops[0], u), ops[1..], u)
  }

  lemma {:induction false} ViewFoldAppend(v: View, a: seq<Op>, b: seq<Op>, u: Uid)
    ensures ViewFold(v, a + b, u) == ViewFold(ViewFold(v, a, u), b, u)
    decreases |a|
  {
    if a == [] {
      assert a + b == b;
    } else {
      assert (a + b)[0] == a[0] && (a + b)[1..] == a[1..] + b;
      ViewFoldAppend(ViewStep(v, a[0], u), a[1..], b, u);
    }
  }

  /** A committed batch changes each user's view as the writes naming that user say. */
  lemma {:induction false} ViewBatch(s: DbState, ops: seq<Op>, u: Uid)
    requires ApplyBatch(s, ops).Some?
    ensures ViewOf(ApplyBatch(s, ops).value, u) == ViewFold(ViewOf(s, u), ops, u)
    decreases |ops|
  {
    if ops != [] {
      var s1 := ApplyOp(s, ops[0]).value;
      match ops[0] {
        case SetEntry(p, uid, e) => SetEntryBuckets(s, p, uid, e, u);
        case DeleteEntry(p, uid) => DeleteEntryBuckets(s, p, uid, u);
        case _ => assert Buckets(s1, u) == Buckets(s, u);
      }
      assert ViewOf(s1, u) == ViewStep(ViewOf(s, u), ops[0], u);
      ViewBatch(s1, ops[1..], u);
    }
  }

  /** Writes for one user leave every other user's view alone. */
  lemma {:induction false} ViewFoldOther(v: View, ops: seq<Op>, uid: Uid, u: Uid)
    requires OnlyFor(ops, uid) && u != uid
    ensures ViewFold(v, ops, u) == v
    decreases |ops|
  {
    if ops != [] {
      assert ops[0].uid == uid;
      assert OnlyFor(ops[1..], uid) by {
        forall k | 0 <= k < |ops[1..]| ensures ops[1..][k].uid == uid {
          assert ops[1..][k] == ops[k + 1];
        }
      }
      ViewFoldOther(v, ops[1..], uid, u);
    }
  }

  // ---------------------------------------------------------------------------
  // The database object

  class Firestore {
    var users: map<Uid, UserDoc>
    var usersPublic: map<Uid, PublicProfile>
    var usersPrivate: map<Uid, PrivateDoc>
    var locations: map<Uid, LocationDoc>
    var geoIndex: map<string, map<Uid, IndexEntry>>

    function State(): DbState
      reads this
    {
      DbState(users, usersPublic, usersPrivate, locations, geoIndex)
    }

    constructor(s: DbState)
      ensures State() == s
    {
      users, usersPublic, usersPrivate := s.users, s.usersPublic, s.usersPrivate;
      locations, geoIndex := s.locations, s.geoIndex;
    }

    /** `batch.commit()`: every write takes effect, or none does and `ok` is false. */
    method Commit(batch: seq<Op>) returns (ok: bool)
      modifies this
      ensures ok == ApplyBatch(old(State()), batch).Some?
      ensures State() == ApplyBatch(old(State()), batch).GetOr(old(State()))
    {
      var pending := ApplyBatch(State(), batch);
      ok := pending.Some?;
      if ok {
        var s := pending.value;
        users, usersPublic, usersPrivate := s.users, s.usersPublic, s.usersPrivate;
        locations, geoIndex := s.locations, s.geoIndex;
      }
    }
  }
}
