# Heylo location backend, modelled in Dafny

Heylo is a "who is near me" app. Its serverless backend (Cloud Functions over Firestore) does five things:

- It keeps each user's last position in `locations/{uid}`.
- It files every visible user under a five-character geohash bucket: `geo_index/{prefix}/users/{uid}`.
- It records where that entry lives in a per-user index path: `users_private/{uid}.currentGeoIndexPath = "geo_index/<prefix>/<uid>"`.
- It answers nearby-user queries by scanning the caller's bucket and the eight around it.
- It validates sign-up and sign-in requests.

The model covers the geohash codec, the four index endpoints, the realtime-feed endpoint and the five account endpoints of `auth.js`. The project is nine modules:

| file | module | models |
|---|---|---|
| `common.dfy` | `Common` | `Option`/`Result`, and JavaScript truthiness and `\|\|` on possibly missing numbers and strings |
| `strings.dfy` | `Strings` | `split('/')`/join, the `geo_index/<prefix>/<uid>` index path (build and parse), `substring(0, n)`, and document-id order |
| `sorting.dfy` | `Sorting` | `Array.prototype.sort` with a numeric comparator, as a stable insertion sort |
| `geohash.dfy` | `Geohash` | `utils/firegeo.js`: encode, decode, neighbours, precision table |
| `store.dfy` | `Store` | the documents; a batch as a list of writes applied all or nothing; the database object whose `Commit` applies a batch |
| `location_index.dfy` | `LocationIndex` | `updateUserLocation`, `userSignOut` and `updatePrivacySettings` from `index.js`, and the single-bucket invariant |
| `nearby_query.dfy` | `NearbyQuery` | `queryNearbyUsers` from `index.js` |
| `nearby_feed.dfy` | `NearbyFeed` | `getNearbyUsers.js` |
| `auth.dfy` | `Auth` | `secureSignUp`, `secureSignIn`, `resendEmailVerification`, `checkEmailVerification` and `secureSignOut` from `auth.js` |

Each endpoint that writes is a method on the `Store.Firestore` object. Its postcondition says the database and the response are what a pure plan function prescribes: a list of writes plus a response, run through `Store.Run`. The lemmas about the plan functions carry the properties.

The central one is the single-bucket invariant, `LocationIndex.SingleBucket`. For every user with a private document:

- a set index path names the one bucket that holds the user's entry;
- an unset index path means no bucket does;
- ghost mode implies the index path is unset.

Sign-up establishes the invariant for a new user. `updateUserLocation`, `userSignOut` and `updatePrivacySettings` each preserve it.

Foreign inputs are parameters:

- the geohash function used by `index.js`;
- the haversine distance;
- `toFixed(2)` rounding;
- server timestamps and `Date.now()`;
- the realtime-database range queries;
- the profile queries;
- the authentication provider;
- the rate limiter;
- the image upload.

Where the geohash is a parameter, `NearbyQuery.QueryCellsSpec` and `LocationIndex.EncodedPrefixNoSlash` connect it to the concrete encoder.

## Model

| member | source | states |
|---|---|---|
| Geohash.EncodeGeohash | HeyloFunctions/functions/utils/firegeo.js:20-61 | the while loop's result is the stream of the first `precision` characters of the pure bisection encoding; its length is `precision`, or 0 when `precision` is not positive |
| Geohash.Bisect | HeyloFunctions/functions/utils/firegeo.js:31-47 | one bisection: the bit is `x >= mid`, and the new bounds are the upper half when it is set and the lower half otherwise |
| Geohash.EncodeStep | HeyloFunctions/functions/utils/firegeo.js:30-58 | one loop iteration keeps the loop state. That state is: `isEven` is the parity of the bit count; both bounds are the intervals after that many alternate bisections; `ch` packs the bits of the current character. At the fifth bit the character appended is `Base32[ch]`, with `ch < 32` |
| Geohash.EncodeBit | HeyloFunctions/functions/utils/firegeo.js:31-48 | an even-numbered bit bisects longitude and an odd one latitude; the parity flips; the bit goes into `ch` at position `4 - bit`, most significant first |
| Geohash.PackStep | HeyloFunctions/functions/utils/firegeo.js:34-48 | packing a bit adds `2^(4-bit)` exactly when the bit is set, and the parity alternates |
| Geohash.StepCounts | HeyloFunctions/functions/utils/firegeo.js:31-48 | after `t` bits, longitude has been bisected ceil(t/2) times and latitude floor(t/2) times |
| Geohash.Parity | HeyloFunctions/functions/utils/firegeo.js:49 | bit `t` refines longitude exactly when `t` is even |
| Geohash.EncodeKeepsPoint | HeyloFunctions/functions/utils/firegeo.js:21-48 | for an in-range point, every step keeps `lngMin <= lng <= lngMax` and `latMin <= lat <= latMax` |
| Geohash.EncodeShape | HeyloFunctions/functions/utils/firegeo.js:20-61 | the encoding has exactly `p` characters, all from the base-32 alphabet |
| Geohash.EncodeAt | HeyloFunctions/functions/utils/firegeo.js:54-57 | character `k` of the encoding is the alphabet letter of the `k`th packed 5-bit value |
| Geohash.EncodePrefix | HeyloFunctions/functions/utils/firegeo.js:20-61 | a shorter encoding of the same point is a prefix of a longer one; this is why the 5-character bucket of a 9-character hash is the 5-character hash |
| Geohash.Base32Distinct | HeyloFunctions/functions/utils/firegeo.js:10 | the alphabet has 32 distinct characters |
| Geohash.Base32Index | HeyloFunctions/functions/utils/firegeo.js:181 | `indexOf` of the character for value `v` is `v` |
| Geohash.IndexOfSpec | HeyloFunctions/functions/utils/firegeo.js:181 | `indexOf` is -1 exactly for an absent character; otherwise it is the first position holding it |
| Geohash.UnknownCharIsZ | HeyloFunctions/functions/utils/firegeo.js:181-197 | a character outside the alphabet gives -1, whose five tested bits are all set: it decodes like `z` |
| Geohash.MinusOneBits | HeyloFunctions/functions/utils/firegeo.js:184-193 | `-1 & (1 << j)` is non-zero for every `j`, as is `31 & (1 << j)` for `j < 5` |
| Geohash.DecodeGeohash | HeyloFunctions/functions/utils/firegeo.js:172-215 | the nested loop returns the centre and half-widths of the cell after all `5n` bisections, read most significant bit first, alternating from longitude |
| Geohash.DecodeErrors | HeyloFunctions/functions/utils/firegeo.js:179-207 | after `n` characters, `longitudeError = 180 / 2^ceil(5n/2)` and `latitudeError = 90 / 2^floor(5n/2)` |
| Geohash.DecCharsWidth | HeyloFunctions/functions/utils/firegeo.js:179-202 | after `i` characters the bounds are `360 / 2^ceil(5i/2)` and `180 / 2^floor(5i/2)` wide, and the parity is that of `5i` |
| Geohash.DecBitsWidth | HeyloFunctions/functions/utils/firegeo.js:183-201 | each bit halves exactly one interval, in the same parity order as the encoder |
| Geohash.DecodeEncodeWithin | HeyloFunctions/functions/utils/firegeo.js:172-215 | round trip, part 1: for in-range inputs the decoded centre is within `latitudeError` of `lat` and `longitudeError` of `lng` |
| Geohash.EncodeDecodeEncode | HeyloFunctions/functions/utils/firegeo.js:140-161 | round trip, part 2: re-encoding the decoded centre at the same length reproduces the hash |
| Geohash.CentreFollowsPoint | HeyloFunctions/functions/utils/firegeo.js:204-205 | the centre of a cell takes the same first `k` bisection decisions as any point that produced the cell |
| Geohash.NarrowWidth | HeyloFunctions/functions/utils/firegeo.js:188-196 | `n` bisections divide the width by `2^n` |
| Geohash.NarrowNested | HeyloFunctions/functions/utils/firegeo.js:188-196 | later intervals are nested in earlier ones |
| Geohash.GetGeohashNeighbors | HeyloFunctions/functions/utils/firegeo.js:135-165 | the loop returns the encodings at the cell's length of those of the eight offset centres that lie on the globe, in compass order |
| Geohash.EncodeCandidates | HeyloFunctions/functions/utils/firegeo.js:157-162 | the for loop keeps, in order, the encodings of the in-range coordinates |
| Geohash.NeighborCoords | HeyloFunctions/functions/utils/firegeo.js:143-155 | there are eight candidate centres |
| Geohash.EncodeInRangeSpec | HeyloFunctions/functions/utils/firegeo.js:158-162 | at most one result per coordinate, each of the requested length; a hash is a result iff some in-range coordinate encodes to it |
| Geohash.NeighborsSpec | HeyloFunctions/functions/utils/firegeo.js:135-165 | at most 8 neighbours, each as long as the input; a hash is a neighbour iff it encodes an in-range offset centre |
| Geohash.NeighborsExcludeSelf | HeyloFunctions/functions/utils/firegeo.js:143-161 | a cell is never its own neighbour |
| Geohash.PrecisionMapShape | HeyloFunctions/functions/utils/firegeo.js:107-117 | nine rows with precisions 1..9 and strictly decreasing widths |
| Geohash.GetPrecisionForRadius | HeyloFunctions/functions/utils/firegeo.js:105-127 | the early-return loop returns the pure table lookup |
| Geohash.PrecisionFromSpec | HeyloFunctions/functions/utils/firegeo.js:120-126 | the scan from row `i` returns a precision in 1..9; every row scanned before the answer has a width at least the radius; the answer's row has a smaller width unless it is the default 9 |
| Geohash.PrecisionSpec | HeyloFunctions/functions/utils/firegeo.js:105-127 | the precision is the first row whose width is below the radius, else 9 |
| Geohash.PrecisionMonotone | HeyloFunctions/functions/utils/firegeo.js:105-127 | a larger radius never gets a finer precision |
| Geohash.PrecisionExtremes | HeyloFunctions/functions/utils/firegeo.js:108-126 | a radius over 5000 km gives 1; one of at most 5 m gives 9 |
| Strings.Split | HeyloFunctions/functions/index.js:277 | `split('/')` yields at least one part |
| Strings.JoinSplit | HeyloFunctions/functions/index.js:277 | joining the parts with `/` gives back the string, and no part contains `/` |
| Strings.SplitJoin | HeyloFunctions/functions/index.js:486 | splitting slash-free parts joined with `/` gives back the parts |
| Strings.SplitCons | HeyloFunctions/functions/index.js:581 | splitting `a/rest` with a slash-free `a` gives `a` followed by the parts of `rest` |
| Strings.SplitPlain | HeyloFunctions/functions/index.js:486 | a slash-free string splits into itself |
| Strings.BuildIsJoin | HeyloFunctions/functions/index.js:260 | the index path is the three parts `geo_index`, prefix and uid joined with `/` |
| Strings.ParseBuild | HeyloFunctions/functions/index.js:275-283 | parsing an index path written by `updateUserLocation` gives back its prefix |
| Strings.ParseSound | HeyloFunctions/functions/index.js:486-488 | a path that parses (three parts, the first `geo_index`) is exactly `geo_index/<prefix>/<third part>` |
| Strings.BuildInjective | HeyloFunctions/functions/index.js:260 | distinct slash-free (prefix, uid) pairs give distinct index paths |
| Strings.Prefix | HeyloFunctions/functions/index.js:268 | `substring(0, n)` has `min(n, length)` characters and is a prefix |
| Strings.LexAsymmetric | HeyloFunctions/functions/index.js:376-379 | document-id order never puts two ids before each other |
| Strings.LexTotal | HeyloFunctions/functions/index.js:376-379 | any two distinct document ids are ordered |
| Strings.LexTransitive | HeyloFunctions/functions/index.js:376-379 | document-id order is transitive |
| Strings.LexOrder | HeyloFunctions/functions/index.js:376-379 | document-id order is a strict total order |
| Strings.LeastExists | HeyloFunctions/functions/index.js:376-379 | a non-empty set of document ids has a least one |
| Strings.Least | HeyloFunctions/functions/index.js:376-379 | the chosen id is the least of the set |
| Strings.SortedKeys | HeyloFunctions/functions/index.js:376-381 | a bucket is listed as its document ids, each exactly once, in strictly ascending order |
| Sorting.Insert | HeyloFunctions/functions/index.js:433 | insertion adds exactly the one element |
| Sorting.SortBy | HeyloFunctions/functions/index.js:433 | the sorted list is a permutation of the input, in ascending key order |
| Sorting.InsertSorted | HeyloFunctions/functions/index.js:433 | inserting into a sorted list keeps it sorted |
| Sorting.SortedPrefixLeast | HeyloFunctions/functions/index.js:432-434 | truncating a sorted list keeps the least keys: nothing dropped is smaller than anything kept |
| Store.ApplyOp | HeyloFunctions/functions/index.js:306 | a write fails exactly when it updates a missing private or location document; every set or delete succeeds |
| Store.ApplyBatchAppend | HeyloFunctions/functions/index.js:572-594 | writes performed one after another compose like one batch |
| Store.SetEntryBuckets | HeyloFunctions/functions/index.js:290-302 | setting an entry adds its bucket to the user's buckets and no other user's |
| Store.DeleteEntryBuckets | HeyloFunctions/functions/index.js:282-283 | deleting an entry removes its bucket from the user's buckets and no other user's |
| Store.BatchCommits | HeyloFunctions/functions/index.js:509 | a batch whose updates name existing documents commits |
| Store.ViewFoldAppend | HeyloFunctions/functions/index.js:250-306 | the effect of writes on one user's view composes over concatenated batches |
| Store.ViewBatch | HeyloFunctions/functions/index.js:306 | a committed batch changes each user's private document and set of buckets exactly as the writes naming that user say |
| Store.ViewFoldOther | HeyloFunctions/functions/index.js:250-303 | writes for one user leave every other user's view alone |
| Store.Firestore.Commit | HeyloFunctions/functions/index.js:306 | `batch.commit()` applies every write, or none and reports failure |
| LocationIndex.SingleBucketFrame | HeyloFunctions/functions/index.js:257-303 | a committed batch that names one user and keeps that user tracked keeps the whole index consistent |
| LocationIndex.FirstZoneSpec | HeyloFunctions/functions/index.js:210-223 | no zone is reported iff none contains the point; otherwise the reported zone is the first that does |
| LocationIndex.FindPrivacyZone | HeyloFunctions/functions/index.js:207-224 | the loop with `break` sets `inPrivacyZone` iff some zone contains the point, and `privacyZoneId` to the first such zone's id |
| LocationIndex.UpdateUserLocation | HeyloFunctions/functions/index.js:162-322 | the database and the response are those of running the location plan |
| LocationIndex.LocationRejections | HeyloFunctions/functions/index.js:165-188 | the update fails iff the caller is anonymous, a coordinate is missing or out of range, or there is no public profile; a failure writes nothing |
| LocationIndex.LocationCommits | HeyloFunctions/functions/index.js:250-314 | an accepted update writes only the caller's documents, always commits, and answers with the response |
| LocationIndex.LocationIndexing | HeyloFunctions/functions/index.js:182-303 | the geohash has 9 characters; the location is written first; ghost mode is the private doc's `ghostMode === true`. In ghost mode there is no index write and the index path is nulled. Otherwise the last write is the new entry under the 5-character prefix, and the index path is set when a private doc exists |
| LocationIndex.LocationDeletes | HeyloFunctions/functions/index.js:271-287 | an entry under bucket `q` is deleted iff not ghost, an index path exists, differs from the new one, and parses to `q`, and `q` is not the new prefix |
| LocationIndex.MoveEntry | HeyloFunctions/functions/index.js:271-302 | for a tracked user, deleting the stale entry and setting the new one leaves exactly the new bucket |
| LocationIndex.LocationKeepsSingleBucket | HeyloFunctions/functions/index.js:257-303 | `updateUserLocation` preserves the single-bucket invariant |
| LocationIndex.EncodedPrefixNoSlash | HeyloFunctions/functions/index.js:182 | the 5-character prefix of the real encoder's hash contains no `/`, as that invariant requires |
| LocationIndex.ViewFoldNoPrivate | HeyloFunctions/functions/index.js:257-262 | a user without a private doc still has none after writes that do not create one |
| LocationIndex.UserSignOut | HeyloFunctions/functions/index.js:453-522 | the database and the response are those of running the sign-out plan |
| LocationIndex.SignOutCommits | HeyloFunctions/functions/index.js:456-509 | sign-out fails only for an anonymous caller; otherwise it writes only the caller's documents and commits |
| LocationIndex.SignOutKeepsSingleBucket | HeyloFunctions/functions/index.js:477-496 | sign-out preserves the invariant; the signed-out user is offline, has no index path and no entry |
| LocationIndex.SignOutTwice | HeyloFunctions/functions/index.js:462-509 | a second sign-out deletes nothing from the index |
| LocationIndex.SignedOutPathCleared | HeyloFunctions/functions/index.js:478-482 | after sign-out the index path is null |
| LocationIndex.OnlyPrivateAndLocation | HeyloFunctions/functions/index.js:477-506 | updates of private and location documents leave the index alone |
| LocationIndex.ZonesProblemSpec | HeyloFunctions/functions/index.js:542-552 | the zone list is accepted iff every zone is; otherwise the error is that of the first bad zone |
| LocationIndex.ValidateZones | HeyloFunctions/functions/index.js:542-552 | the loop reports the first bad zone's error, or none |
| LocationIndex.ValidatedZonesUsable | HeyloFunctions/functions/index.js:209-221 | for zones that passed `updatePrivacySettings`' checks, the location check reports a zone exactly when the point is within some zone's radius in metres, and reports the first such zone, whose `zoneId` is set |
| LocationIndex.MergeIdempotent | HeyloFunctions/functions/index.js:563-569 | merging the same request twice changes nothing more; a request with neither field leaves the settings, with `privacyZones` defaulted to `[]` |
| LocationIndex.UpdatePrivacySettings | HeyloFunctions/functions/index.js:527-610 | the database and the response are those of the privacy plan, written as three sequential writes |
| LocationIndex.PrivacyRejections | HeyloFunctions/functions/index.js:530-560 | the update fails iff the caller is anonymous, `privacyZones` is present but not an array, some zone is invalid, or there is no private doc; a failure writes nothing |
| LocationIndex.PrivacyCommits | HeyloFunctions/functions/index.js:572-602 | an accepted update writes only the caller's documents, commits, and answers with the merged settings |
| LocationIndex.PrivacyKeepsSingleBucket | HeyloFunctions/functions/index.js:577-597 | the invariant is preserved; the stored settings are the merged ones; turning ghost mode on removes the entry and the index path; otherwise the index is unchanged |
| NearbyQuery.EntriesOfSpec | HeyloFunctions/functions/index.js:381 | reading a bucket's documents in a given key order yields exactly their entries |
| NearbyQuery.ListingSpec | HeyloFunctions/functions/index.js:376-381 | a bucket's listing holds exactly its entries |
| NearbyQuery.CandidatesSpec | HeyloFunctions/functions/index.js:375-387 | an entry is a candidate iff it is in the bucket of some queried cell |
| NearbyQuery.Visible | HeyloFunctions/functions/index.js:390-392 | exactly the candidates that are neither the caller nor among those who blocked the caller |
| NearbyQuery.LocatedSpec | HeyloFunctions/functions/index.js:395-429 | a row is produced iff some candidate has a location doc within the radius, and the row describes it |
| NearbyQuery.LimitOf | HeyloFunctions/functions/index.js:336 | the default 50 replaces only an undefined `limit`; `null` counts as 0; a number is truncated toward zero |
| NearbyQuery.Slice | HeyloFunctions/functions/index.js:434 | `slice(0, limit)` is a prefix; it has `min(limit, n)` elements for a non-negative limit, and `n + limit` (at least 0) for a negative one |
| NearbyQuery.QueryNearbyUsers | HeyloFunctions/functions/index.js:328-448 | reading the database, the endpoint answers what `QueryNearby` prescribes; the lemmas below state its properties |
| NearbyQuery.QueryRejections | HeyloFunctions/functions/index.js:331-349 | the query fails iff the caller is anonymous, a coordinate or the radius is missing, a coordinate is out of range, or the radius is outside (0, 50] |
| NearbyQuery.QueryAnswer | HeyloFunctions/functions/index.js:432-440 | a valid query answers the found rows, sorted by distance and sliced to the limit, with their count |
| NearbyQuery.FoundSound | HeyloFunctions/functions/index.js:390-429 | every found row comes from a candidate that is not the caller, not a blocker, has a location within the radius, and the row describes it |
| NearbyQuery.QuerySound | HeyloFunctions/functions/index.js:365-440 | the count is the length; the rows are sorted by distance; there are at most `limit` of them; each comes from a visible candidate within the radius |
| NearbyQuery.FoundComplete | HeyloFunctions/functions/index.js:375-429 | every visible entry within the radius in a queried bucket is found |
| NearbyQuery.QueryComplete | HeyloFunctions/functions/index.js:375-434 | every visible entry within the radius in a queried bucket is found; when the limit covers them all, the answer is exactly the found rows |
| NearbyQuery.QueryNearestKept | HeyloFunctions/functions/index.js:432-434 | truncation keeps the nearest: no dropped row is nearer than a kept one |
| NearbyQuery.QueryLimitCases | HeyloFunctions/functions/index.js:336-434 | a `null` limit answers no rows; an undefined one at most 50 (all found rows when fewer); a non-negative number at most its value, and exactly its integer part when rows were cut |
| NearbyQuery.QueryCellsSpec | HeyloFunctions/functions/index.js:365-372 | with the real encoder the query scans 1 to 9 cells of 5 characters; the first is the centre's cell |
| NearbyFeed.ClampRadius | HeyloFunctions/functions/getNearbyUsers.js:65 | the effective radius is in [0.1, 50]: kept when inside, 0.1 below, 50 above |
| NearbyFeed.PrefixPrecision | HeyloFunctions/functions/getNearbyUsers.js:78 | the derived precision is 5 or 6 |
| NearbyFeed.ResolveArgsSpec | HeyloFunctions/functions/getNearbyUsers.js:38-65 | the user id is the first truthy one of the auth context, `data.userId` and `data.data.userId` (in practice the last: see "## Left out"); each coordinate is `data`'s when truthy, else `data.data`'s, and never 0; the radius is `ClampRadius` of `data.radiusKm`, else of `data.data.radiusKm`, else 5; a signed-in call with both coordinates succeeds |
| NearbyFeed.ResolveArgsErrors | HeyloFunctions/functions/getNearbyUsers.js:38-62 | the id error occurs exactly when no id is truthy in any of the three places; otherwise the coordinates error occurs exactly when a coordinate is falsy in both `data` and `data.data`; there is no other error |
| NearbyFeed.Collect | HeyloFunctions/functions/getNearbyUsers.js:108-136 | the nested loops compute the left fold of the visit rule over all children in order |
| NearbyFeed.CollectSpec | HeyloFunctions/functions/getNearbyUsers.js:112-136 | the ids are distinct and are exactly the keys of a child that is not the caller and has truthy `lat` and `lng`; each id's time is that of its first such child |
| NearbyFeed.CollectPrefix | HeyloFunctions/functions/getNearbyUsers.js:129-131 | first-seen order: the ids collected from a prefix of the children are a prefix of all collected ids |
| NearbyFeed.SplitIntoBatches | HeyloFunctions/functions/getNearbyUsers.js:155-164 | the `i += 10` loop returns the successive slices |
| NearbyFeed.ChunksSpec | HeyloFunctions/functions/getNearbyUsers.js:150-164 | the batches concatenate to the ids; each holds 1 to 10; there are ceil(n/10) |
| NearbyFeed.Join | HeyloFunctions/functions/getNearbyUsers.js:170-191 | the nested loops compute the join of the profile documents in order |
| NearbyFeed.JoinSpec | HeyloFunctions/functions/getNearbyUsers.js:173-191 | only profiles of collected ids appear, with the defaults and the collected time, and every such profile appears |
| NearbyFeed.GetNearbyUsers | HeyloFunctions/functions/getNearbyUsers.js:38-210 | the response and the profile queries issued are the feed function's |
| NearbyFeed.FeedShortCuts | HeyloFunctions/functions/getNearbyUsers.js:42-62 | an argument failure is the `internal` error `"Error getting nearby users: " + message` and issues no query; no candidates gives an empty success with no query |
| NearbyFeed.FeedQueries | HeyloFunctions/functions/getNearbyUsers.js:150-164 | the profile queries are the collected ids, in order, in batches of 1 to 10 |
| NearbyFeed.FeedRows | HeyloFunctions/functions/getNearbyUsers.js:170-201 | the answer is newest first; every user in it is another user who was collected, with the first-seen time |
| Auth.EmailPatternIsShape | HeyloFunctions/functions/auth.js:69-72 | a string the regex accepts has the described shape |
| Auth.EmailShapeIsPattern | HeyloFunctions/functions/auth.js:69-72 | a string of the described shape is accepted by the regex |
| Auth.EmailPatternIff | HeyloFunctions/functions/auth.js:69-72 | `^[^\s@]+@[^\s@]+\.[^\s@]+$` accepts exactly the strings with no white space, exactly one `@`, a non-empty local part, and a `.` in the domain that is neither its first nor its last character |
| Auth.SecondAt | HeyloFunctions/functions/auth.js:69 | two positions holding `@` mean at least two `@` |
| Auth.SecureSignUp | HeyloFunctions/functions/auth.js:50-211 | the database and the response are those of the sign-up plan |
| Auth.SignUpValidationOrder | HeyloFunctions/functions/auth.js:63-77 | the missing-fields error iff a field is falsy; then the format error iff the email has the wrong shape; then the length error iff the password is under 8 characters; 8 passes |
| Auth.SignUpRejectsBeforeProvider | HeyloFunctions/functions/auth.js:63-87 | a request failing a check gets that error whatever the provider would have answered: no account is requested |
| Auth.SignUpCommits | HeyloFunctions/functions/auth.js:87-203 | an accepted sign-up writes only the new user's documents and commits. The private doc has ghost mode off, no zones, online, and no index path. Locations and the index are unchanged, and the link is `CLIENT_SEND_VERIFICATION` |
| Auth.SignUpKeepsSingleBucket | HeyloFunctions/functions/auth.js:153-171 | the new private document is the base case of the invariant: a new user without entries keeps the index consistent |
| Auth.SignInEarlyExits | HeyloFunctions/functions/auth.js:229-273 | the limiter is consulted before the fields; missing fields come next; an unknown email gets "Invalid email or password"; otherwise the answer is the account and its `users` doc |
| Auth.SignInIgnoresPassword | HeyloFunctions/functions/auth.js:239-256 | the password is never verified: any non-empty password gets the same answer |
| Auth.ResendEarlyExits | HeyloFunctions/functions/auth.js:289-335 | anonymous, then rate-limited, are refused; a verified account gets "Email is already verified" and no link; any other gets `CLIENT_SEND_VERIFICATION` |
| Auth.CheckEmailVerificationSpec | HeyloFunctions/functions/auth.js:348-377 | an anonymous caller is refused; otherwise the answer is the provider account's `emailVerified`, or the provider's error, and nothing is written |
| Auth.SecureSignOut | HeyloFunctions/functions/auth.js:384-411 | the new state and response equal running the one-write plan that updates the caller's private doc |
| Auth.SecureSignOutEffect | HeyloFunctions/functions/auth.js:384-411 | anonymous is refused; without a private doc the `update` fails and nothing changes; otherwise exactly `isOnline` becomes false and `lastActive` the time, and the answer is "User signed out successfully" |
| Auth.SecureSignOutKeepsSingleBucket | HeyloFunctions/functions/auth.js:395-398 | the invariant is kept, the index is untouched, and the user keeps the index path, unlike `userSignOut` |

## Left out

- The haversine distance, `toRadians` and `toFixed(2)` rounding are parameters (`dist`, `round`). The filter needs only that the distance is a function of the two points. NaN and infinities are not modelled.
- Coordinates are `real`, not IEEE doubles. Midpoints are exact, so the geohash results hold for exact arithmetic.
- Server timestamps and `Date.now()` are parameters.
- Firestore's I/O is not modelled: latency, concurrency between endpoints, retries and the rejection of `undefined` field values.
- `updatePrivacySettings` is not atomic in the source. The model performs its writes as three sequential commits. Each commit's success is proved, so no failure between them is modelled.
- The realtime-database range queries of `getNearbyUsers` are inputs: geofire's `geohashForLocation` and `geohashQueryBounds`. So are the `in` queries that fetch profiles.
- The rate limiter, the authentication provider (`createUser`, `getUserByEmail`, `getUser`, `updateUser`), storage upload and base64 handling are inputs or not modelled.
- `heyloApiStatus`, the rate-limiter reset endpoints, `getUserProfile` and `onUserCreated` are not modelled.
- `getNearbyUsers` is declared with the first-generation `(data, context)` signature but registered with the second-generation `onCall`. So `data` is the whole request and `context` is not an auth context: `getNearbyUsers.js:32` reads `context.auth` of an undefined value, or `context.auth?.uid` is always missing, depending on the library version. The model keeps the auth id as an input, so `ResolveArgs` is sound either way. In practice the id a working client sends is `data.data.userId`.
- NearbyFeed.PrefixPrecision: the precision `getNearbyUsers` derives from the radius is only logged. The prefix it cuts is unused.
- NearbyFeed.Collect: `nearbyUserLocations` is a plain object. A user id equal to an `Object.prototype` property name (e.g. `constructor`) would read as already seen; a map does not model that.
- Strings are sequences of code points, not UTF-16 code units. `length` and `substring` agree for the ASCII ids and hashes the backend handles. Password length is counted in code points.
- Document-id order is lexicographic by character code. Firestore's order for ids with non-ASCII characters may differ.
- In `index.js` the geohash is a parameter. The single-bucket lemma requires the 5-character prefix to be slash-free, and `LocationIndex.EncodedPrefixNoSlash` discharges that for the real encoder.
- NearbyQuery.QueryNearbyUsers: the stability of `sort` among equal distances is implemented, not stated as a lemma.
- NearbyQuery.LimitOf: a `limit` that is not a number or `null` (a string, an object, `Infinity`, `NaN`) is not representable; `slice` would convert it.
- Non-object zone elements, which would make `zone.zoneId` throw, are not modelled.
- Non-string user ids, emails and passwords are not modelled: the source types them only by truthiness.
- LocationIndex.ZoneProblem: a zone centre whose latitude or longitude is a truthy non-number (a numeric string, say) is accepted by the source's truthiness check and coerced to a number by `toRadians`, so the zone works. A `null` coordinate is coerced to 0. `Num` cannot represent either, so the model rejects such a request with the centre error. `LocationIndex.ZoneContains` treats such a stored centre as missing, which is right only for `undefined`.
- Geohash.DecodeErrors: the errors are stated through `Halved(x, n)`, which is proved equal to `x / 2^n`.
- The single-bucket invariant is stated for users with a private document. `updateUserLocation` for a user with none writes an entry but no index path, which no index path can track.
