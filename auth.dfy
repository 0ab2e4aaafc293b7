/** The account endpoints: `secureSignUp` (input checks in a fixed order, then the
    provider account, then one batch creating the three user documents),
    `secureSignIn` and `resendEmailVerification` (their early exits).

    The authentication provider, the rate limiter and the image upload are foreign:
    their answers are parameters. Every failure is returned as an error value. */
module Auth {
  import opened Common
  import opened Strings
  import opened Store
  import opened LocationIndex

  const MissingSignUpFields := "Missing required fields: email, password, displayName"
  const InvalidEmailFormat := "Invalid email format"
  const WeakPassword := "Password must be at least 8 characters long"
  const TooManySignIns := "Too many sign-in attempts. Please try again later."
  const MissingSignInFields := "Missing required fields: email, password"
  const InvalidCredentials := "Invalid email or password"
  const MustBeAuthenticated := "User must be authenticated"
  const TooManyVerifications := "Too many email verification requests. Please try again later."
  const AlreadyVerified := "Email is already verified"
  const ClientSendsVerification := "CLIENT_SEND_VERIFICATION"

  const MinPasswordLength: nat := 8

  // ---------------------------------------------------------------------------
  // The email pattern `^[^\s@]+@[^\s@]+\.[^\s@]+$`

  /** A character of the JavaScript class `\s`: the white space and line terminators
      of ECMAScript. */
  predicate IsSpace(c: char) {
    var n := c as int;
    n == 0x09 || n == 0x0a || n == 0x0b || n == 0x0c || n == 0x0d || n == 0x20 ||
    n == 0xa0 || n == 0x1680 || (0x2000 <= n <= 0x200a) || n == 0x2028 || n == 0x2029 ||
    n == 0x202f || n == 0x205f || n == 0x3000 || n == 0xfeff
  }

  /** Every character is in `[^\s@]`. */
  predicate Plain(t: string) {
    forall k | 0 <= k < |t| :: !IsSpace(t[k]) && t[k] != '@'
  }

  /** The pattern as written: three non-empty runs of `[^\s@]` separated by `@` and `.`. */
  predicate EmailPattern(s: string) {
    exists i, j | 0 < i && i + 1 < j && j + 1 < |s| ::
      s[i] == '@' && s[j] == '.' && Plain(s[..i]) && Plain(s[i + 1..j]) && Plain(s[j + 1..])
  }

  /** The same language described by its shape: no white space, exactly one `@`, a
      non-empty local part, and a `.` in the domain that is neither its first nor its
      last character. */
  predicate EmailShape(s: string) {
    && (forall k | 0 <= k < |s| :: !IsSpace(s[k]))
    && multiset(s)['@'] == 1
    && exists i | 0 < i < |s| && s[i] == '@' :: exists j | i + 1 < j < |s| - 1 :: s[j] == '.'
  }

  lemma PlainHasNoAt(t: string)
    requires Plain(t)
    ensures multiset(t)['@'] == 0
  {
  }

  /** Two positions holding `@` make two `@` in `s`. */
  lemma SecondAt(s: string, i: nat, k: nat)
    requires i < |s| && k < |s| && i != k && s[i] == '@'
    ensures s[k] == '@' ==> multiset(s)['@'] >= 2
  {
    if s[k] == '@' {
      var lo, hi := if i < k then i else k, if i < k then k else i;
      assert s == s[..hi] + [s[hi]] + s[hi + 1..];
      assert s[..hi][lo] == '@';
      assert multiset(s) == multiset(s[..hi]) + multiset{s[hi]} + multiset(s[hi + 1..]);
    }
  }

  /** `s` cut at the `@` at `i` and the `.` at `j`. */
  lemma Parts(s: string, i: nat, j: nat)
    requires i < j < |s|
    ensures s == s[..i] + [s[i]] + s[i + 1..j] + [s[j]] + s[j + 1..]
    ensures multiset(s) == multiset(s[..i]) + multiset{s[i]} + multiset(s[i + 1..j]) + multiset{s[j]} + multiset(s[j + 1..])
  {
    assert s == s[..i] + [s[i]] + s[i + 1..j] + [s[j]] + s[j + 1..];
  }

  lemma {:induction false} PatternNoSpace(s: string, i: nat, j: nat)
    requires 0 < i && i + 1 < j && j + 1 < |s| && s[i] == '@' && s[j] == '.'
    requires Plain(s[..i]) && Plain(s[i + 1..j]) && Plain(s[j + 1..])
    ensures forall k | 0 <= k < |s| :: !IsSpace(s[k])
  {
    forall k | 0 <= k < |s|
      ensures !IsSpace(s[k])
    {
      if k < i {
        assert s[k] == s[..i][k];
      } else if i < k < j {
        assert s[k] == s[i + 1..j][k - i - 1];
      } else if j < k {
        assert s[k] == s[j + 1..][k - j - 1];
      }
    }
  }

  lemma {:induction false} EmailPatternIsShape(s: string)
    requires EmailPattern(s)
    ensures EmailShape(s)
  {
    var i, j :| 0 < i && i + 1 < j && j + 1 < |s| &&
                s[i] == '@' && s[j] == '.' && Plain(s[..i]) && Plain(s[i + 1..j]) && Plain(s[j + 1..]);
    PatternNoSpace(s, i, j);
    Parts(s, i, j);
    PlainHasNoAt(s[..i]);
    PlainHasNoAt(s[i + 1..j]);
    PlainHasNoAt(s[j + 1..]);
  }

  lemma {:induction false} EmailShapeIsPattern(s: string)
    requires EmailShape(s)
    ensures EmailPattern(s)
  {
    var i :| 0 < i < |s| && s[i] == '@' && exists j | i + 1 < j < |s| - 1 :: s[j] == '.';
    var j :| i + 1 < j < |s| - 1 && s[j] == '.';
    forall k | 0 <= k < |s| && k != i
      ensures s[k] != '@'
    {
      SecondAt(s, i, k);
    }
    assert Plain(s[..i]) by {
      forall k | 0 <= k < i ensures s[..i][k] == s[k] { }
    }
    assert Plain(s[i + 1..j]) by {
      forall k | i + 1 <= k < j ensures s[i + 1..j][k - i - 1] == s[k] { }
    }
    assert Plain(s[j + 1..]) by {
      forall k | j + 1 <= k < |s| ensures s[j + 1..][k - j - 1] == s[k] { }
    }
  }

  /** The regular expression accepts exactly the strings of the described shape. */
  lemma EmailPatternIff(s: string)
    ensures EmailPattern(s) <==> EmailShape(s)
  {
    if EmailPattern(s) {
      EmailPatternIsShape(s);
    }
    if EmailShape(s) {
      EmailShapeIsPattern(s);
    }
  }

  // ---------------------------------------------------------------------------
  // secureSignUp

  datatype SignUpRequest = SignUpRequest(email: Option<string>, password: Option<string>,
                                         displayName: Option<string>, profileImageBase64: Option<string>)

  datatype SignUpResponse = SignUpResponse(userId: Uid, displayName: string, email: string,
                                           photoURL: Option<string>, emailVerificationLink: string)

  /** The first failed input check, in the source's order. */
  function SignUpProblem(req: SignUpRequest): Option<string> {
    if !TruthyStr(req.email) || !TruthyStr(req.password) || !TruthyStr(req.displayName) then Some(MissingSignUpFields)
    else if !EmailPattern(req.email.value) then Some(InvalidEmailFormat)
    else if |req.password.value| < MinPasswordLength then Some(WeakPassword)
    else None
  }

  /** A fresh user's private document: visible, online, no index path. */
  function NewPrivateDoc(email: string, now: Time): PrivateDoc {
    PrivateDoc(email, true, true, Some(PrivacySettings(Some(false), Some([]))), None, true, now, now, None)
  }

  /** The `users`, `users_public` and `users_private` documents, in one batch. */
  function SignUpOps(uid: Uid, displayName: string, email: string, photoURL: Option<string>, now: Time): seq<Op> {
    var photo := photoURL.GetOr("");
    [SetUser(uid, UserDoc(uid, displayName, email, photo, now)),
     SetPublic(uid, PublicProfile(displayName, photo, "", now)),
     SetPrivate(uid, NewPrivateDoc(email, now))]
  }

  /** What `secureSignUp` does, given the provider's answer to `createUser` and the
      public URL of the uploaded image (`None` when the upload failed). */
  function SignUpPlan(req: SignUpRequest, created: Result<Uid>, uploaded: Option<string>, now: Time)
    : Result<Plan<SignUpResponse>>
  {
    match SignUpProblem(req)
    case Some(problem) => Err(problem)
    case None =>
      match created
      case Err(e) => Err(e)
      case Ok(uid) =>
        var photoURL := if TruthyStr(req.profileImageBase64) then uploaded else None;
        var email, displayName := req.email.value, req.displayName.value;
        Ok(Plan(SignUpOps(uid, displayName, email, photoURL, now),
                SignUpResponse(uid, displayName, email, photoURL, ClientSendsVerification)))
  }

  /** `secureSignUp`. */
  method SecureSignUp(db: Firestore, req: SignUpRequest, created: Result<Uid>, uploaded: Option<string>, now: Time)
    returns (resp: Result<SignUpResponse>)
    modifies db
    ensures (db.State(), resp) == Run(old(db.State()), SignUpPlan(req, created, uploaded, now))
  {
    var email, password, displayName := req.email, req.password, req.displayName;
    if !TruthyStr(email) || !TruthyStr(password) || !TruthyStr(displayName) {
      return Err(MissingSignUpFields);
    }
    if !EmailPattern(email.value) {
      return Err(InvalidEmailFormat);
    }
    if |password.value| < MinPasswordLength {
      return Err(WeakPassword);
    }
    if created.Err? {
      return Err(created.error);
    }
    var userId := created.value;
    var photoURL: Option<string> := None;
    if TruthyStr(req.profileImageBase64) {
      photoURL := uploaded;
    }
    var batch := SignUpOps(userId, displayName.value, email.value, photoURL, now);
    var ok := db.Commit(batch);
    if !ok {
      return Err(CommitError);
    }
    resp := Ok(SignUpResponse(userId, displayName.value, email.value, photoURL, ClientSendsVerification));
  }

  /** The checks run in order and only the first failure is reported; a password of
      exactly eight characters passes. */
  lemma SignUpValidationOrder(req: SignUpRequest)
    ensures var present := TruthyStr(req.email) && TruthyStr(req.password) && TruthyStr(req.displayName);
            && (SignUpProblem(req) == Some(MissingSignUpFields) <==> !present)
            && (SignUpProblem(req) == Some(InvalidEmailFormat) <==> present && !EmailShape(req.email.value))
            && (SignUpProblem(req) == Some(WeakPassword) <==>
                  present && EmailShape(req.email.value) && |req.password.value| < 8)
            && (SignUpProblem(req).None? <==>
                  present && EmailShape(req.email.value) && |req.password.value| >= 8)
  {
    if TruthyStr(req.email) {
      EmailPatternIff(req.email.value);
    }
    assert |MissingSignUpFields| == 53 && |InvalidEmailFormat| == 20 && |WeakPassword| == 43;
  }

  /** A request failing an input check is answered with that failure whatever the
      provider would have answered: no account is asked for. */
  lemma SignUpRejectsBeforeProvider(req: SignUpRequest, c1: Result<Uid>, c2: Result<Uid>,
                                    uploaded: Option<string>, now: Time)
    requires SignUpProblem(req).Some?
    ensures SignUpPlan(req, c1, uploaded, now) == SignUpPlan(req, c2, uploaded, now) == Err(SignUpProblem(req).value)
  {
  }

  /** An accepted sign-up commits, writes only the new user's documents, and leaves a
      private document that is visible, online and without an index path. */
  lemma SignUpCommits(s: DbState, req: SignUpRequest, created: Result<Uid>, uploaded: Option<string>, now: Time)
    ensures SignUpPlan(req, created, uploaded, now).Ok? <==> SignUpProblem(req).None? && created.Ok?
    ensures SignUpPlan(req, created, uploaded, now).Ok? ==>
              var uid := created.value;
              var (s1, resp) := Run(s, SignUpPlan(req, created, uploaded, now));
              && OnlyFor(SignUpPlan(req, created, uploaded, now).value.ops, uid)
              && resp.Ok? && resp.value.userId == uid && resp.value.emailVerificationLink == ClientSendsVerification
              && uid in s1.usersPrivate && s1.usersPrivate[uid] == NewPrivateDoc(req.email.value, now)
              && uid in s1.users && s1.users[uid].userId == uid && s1.users[uid].email == req.email.value
              && uid in s1.usersPublic && s1.usersPublic[uid].displayName == req.displayName.value
              && s1.locations == s.locations && s1.geoIndex == s.geoIndex
  {
    var plan := SignUpPlan(req, created, uploaded, now);
    if plan.Ok? {
      var ops := plan.value.ops;
      BatchCommits(s, ops);
      var uid := created.value;
      var s1 := ApplyOp(s, ops[0]).value;
      var s2 := ApplyOp(s1, ops[1]).value;
      var s3 := ApplyOp(s2, ops[2]).value;
      assert ops[1..][1..][1..] == [];
      assert ApplyBatch(s2, ops[1..][1..]) == Some(s3);
      assert ApplyBatch(s1, ops[1..]) == Some(s3);
      assert ApplyBatch(s, ops) == Some(s3);
    }
  }

  /** The new private document is the base case of the single-bucket invariant: a user
      without geo-index entries is tracked after sign-up, and so is everyone else. */
  lemma SignUpKeepsSingleBucket(s: DbState, req: SignUpRequest, created: Result<Uid>, uploaded: Option<string>, now: Time)
    requires SingleBucket(s)
    requires created.Ok? ==> Buckets(s, created.value) == {}
    ensures SingleBucket(Run(s, SignUpPlan(req, created, uploaded, now)).0)
  {
    var plan := SignUpPlan(req, created, uploaded, now);
    if plan.Ok? {
      var uid := created.value;
      var ops := plan.value.ops;
      SignUpCommits(s, req, created, uploaded, now);
      var v0 := ViewOf(s, uid);
      var v := View(Some(NewPrivateDoc(req.email.value, now)), {});
      assert ops[1..][1..][1..] == [];
      assert ViewFold(v, ops[1..][1..][1..], uid) == v;
      assert ViewFold(v0, ops[1..][1..], uid) == v;
      assert ViewFold(v0, ops, uid) == v;
      SingleBucketFrame(s, ops, uid);
    }
  }

  // ---------------------------------------------------------------------------
  // secureSignIn

  /** A provider account, as `getUserByEmail` and `getUser` return it. */
  datatype AuthUser = AuthUser(uid: Uid, displayName: Option<string>, email: string,
                               photoURL: Option<string>, emailVerified: bool)

  datatype SignInRequest = SignInRequest(email: Option<string>, password: Option<string>, ip: Option<string>)

  datatype SignInResponse = SignInResponse(userId: Uid, displayName: Option<string>, email: string,
                                           photoURL: Option<string>, emailVerified: bool, userData: Option<UserDoc>)

  /** The rate limiter's verdict for a key: a client address or a user id. */
  type Limiter = string -> bool

  /** `getUserByEmail`: `None` when the provider knows no such account. */
  type UserLookup = string -> Option<AuthUser>

  /** The client address the limiter is keyed on, `'unknown'` when there is none. */
  function ClientKey(req: SignInRequest): string {
    OrStr(req.ip.GetOr(""), "unknown")
  }

  /** `secureSignIn`: the limiter, then the fields, then the account lookup, then the
      `users` document. */
  function SecureSignIn(s: DbState, req: SignInRequest, allowed: Limiter, lookup: UserLookup): Result<SignInResponse> {
    if !allowed(ClientKey(req)) then Err(TooManySignIns)
    else if !TruthyStr(req.email) || !TruthyStr(req.password) then Err(MissingSignInFields)
    else match lookup(req.email.value)
      case None => Err(InvalidCredentials)
      case Some(user) =>
        Ok(SignInResponse(user.uid, user.displayName, user.email, user.photoURL, user.emailVerified,
                          if user.uid in s.users then Some(s.users[user.uid]) else None))
  }

  /** A limited client is refused before anything else is looked at; missing fields are
      reported next; an unknown email gets the generic credentials error; otherwise
      the answer is the account found and its `users` document. */
  lemma SignInEarlyExits(s: DbState, req: SignInRequest, allowed: Limiter, lookup: UserLookup)
    ensures !allowed(ClientKey(req)) ==> SecureSignIn(s, req, allowed, lookup) == Err(TooManySignIns)
    ensures allowed(ClientKey(req)) && (!TruthyStr(req.email) || !TruthyStr(req.password)) ==>
              SecureSignIn(s, req, allowed, lookup) == Err(MissingSignInFields)
    ensures allowed(ClientKey(req)) && TruthyStr(req.email) && TruthyStr(req.password) && lookup(req.email.value).None? ==>
              SecureSignIn(s, req, allowed, lookup) == Err(InvalidCredentials)
    ensures SecureSignIn(s, req, allowed, lookup).Ok? <==>
              allowed(ClientKey(req)) && TruthyStr(req.email) && TruthyStr(req.password) && lookup(req.email.value).Some?
    ensures SecureSignIn(s, req, allowed, lookup).Ok? ==>
              var r := SecureSignIn(s, req, allowed, lookup).value;
              var user := lookup(req.email.value).value;
              && r.userId == user.uid && r.emailVerified == user.emailVerified
              && (r.userData.Some? <==> user.uid in s.users)
              && (r.userData.Some? ==> r.userData.value == s.users[user.uid])
  {
  }

  /** The password is never checked: any non-empty password gets the same answer. */
  lemma SignInIgnoresPassword(s: DbState, req: SignInRequest, other: string, allowed: Limiter, lookup: UserLookup)
    requires TruthyStr(req.password) && other != ""
    ensures SecureSignIn(s, req.(password := Some(other)), allowed, lookup) == SecureSignIn(s, req, allowed, lookup)
  {
    assert ClientKey(req.(password := Some(other))) == ClientKey(req);
  }

  // ---------------------------------------------------------------------------
  // resendEmailVerification

  datatype ResendResponse =
    | AlreadyDone(message: string)
    | LinkIssued(emailVerificationLink: string)

  /** `getUser`: the account, or the provider's error message. */
  type UserFetch = Uid -> Result<AuthUser>

  /** `resendEmailVerification`: caller, limiter keyed on the user id, account, then
      the verified flag. */
  function ResendEmailVerification(auth: Option<string>, allowed: Limiter, getUser: UserFetch): Result<ResendResponse> {
    if !TruthyStr(auth) then Err(MustBeAuthenticated)
    else if !allowed(auth.value) then Err(TooManyVerifications)
    else match getUser(auth.value)
      case Err(e) => Err(e)
      case Ok(user) =>
        if user.emailVerified then Ok(AlreadyDone(AlreadyVerified)) else Ok(LinkIssued(ClientSendsVerification))
  }

  /** An anonymous caller and a limited user are refused, in that order; a verified
      account gets the already-verified message and no link; any other account gets
      the client-side verification marker. */
  lemma ResendEarlyExits(auth: Option<string>, allowed: Limiter, getUser: UserFetch)
    ensures !TruthyStr(auth) ==> ResendEmailVerification(auth, allowed, getUser) == Err(MustBeAuthenticated)
    ensures TruthyStr(auth) && !allowed(auth.value) ==>
              ResendEmailVerification(auth, allowed, getUser) == Err(TooManyVerifications)
    ensures TruthyStr(auth) && allowed(auth.value) && getUser(auth.value).Ok? ==>
              var r := ResendEmailVerification(auth, allowed, getUser);
              && r.Ok?
              && (r.value.AlreadyDone? <==> getUser(auth.value).value.emailVerified)
              && (r.value.AlreadyDone? ==> r.value.message == AlreadyVerified)
              && (r.value.LinkIssued? ==> r.value.emailVerificationLink == ClientSendsVerification)
    ensures ResendEmailVerification(auth, allowed, getUser).Ok? <==>
              TruthyStr(auth) && allowed(auth.value) && getUser(auth.value).Ok?
  {
  }

  // ---------------------------------------------------------------------------
  // checkEmailVerification

  /** `checkEmailVerification`: the caller, then the provider's account and its
      verified flag. */
  function CheckEmailVerification(auth: Option<string>, getUser: UserFetch): Result<bool> {
    if !TruthyStr(auth) then Err(MustBeAuthenticated)
    else match getUser(auth.value)
      case Err(e) => Err(e)
      case Ok(user) => Ok(user.emailVerified)
  }

  /** An anonymous caller is refused; otherwise the answer is the signed-in account's
      verified flag, or the provider's error. Nothing is written. */
  lemma CheckEmailVerificationSpec(auth: Option<string>, getUser: UserFetch)
    ensures !TruthyStr(auth) ==> CheckEmailVerification(auth, getUser) == Err(MustBeAuthenticated)
    ensures CheckEmailVerification(auth, getUser).Ok? <==> TruthyStr(auth) && getUser(auth.value).Ok?
    ensures CheckEmailVerification(auth, getUser).Ok? ==>
              CheckEmailVerification(auth, getUser).value == getUser(auth.value).value.emailVerified
    ensures TruthyStr(auth) && getUser(auth.value).Err? ==>
              CheckEmailVerification(auth, getUser) == Err(getUser(auth.value).error)
  {
  }

  // ---------------------------------------------------------------------------
  // secureSignOut

  const SignedOutSuccessfully := "User signed out successfully"

  /** `secureSignOut`: one `update` of the caller's private document, marking it offline.
      Unlike `userSignOut` it leaves the index path and the index entry alone. */
  function SecureSignOutPlan(auth: Option<string>, now: Time): Result<Plan<string>> {
    if !TruthyStr(auth) then Err(MustBeAuthenticated)
    else Ok(Plan([UpdatePrivate(auth.value, WentOffline(now))], SignedOutSuccessfully))
  }

  method SecureSignOut(db: Firestore, auth: Option<string>, now: Time) returns (resp: Result<string>)
    modifies db
    ensures (db.State(), resp) == Run(old(db.State()), SecureSignOutPlan(auth, now))
  {
    if !TruthyStr(auth) {
      return Err(MustBeAuthenticated);
    }
    var ok := db.Commit([UpdatePrivate(auth.value, WentOffline(now))]);
    resp := if ok then Ok(SignedOutSuccessfully) else Err(CommitError);
  }

  /** A signed-in caller with a private document is marked offline and nothing else
      changes; without a private document the update fails and nothing is written; an
      anonymous caller is refused. */
  lemma SecureSignOutEffect(s: DbState, auth: Option<string>, now: Time)
    ensures var (s1, r) := Run(s, SecureSignOutPlan(auth, now));
            && (!TruthyStr(auth) ==> r == Err(MustBeAuthenticated) && s1 == s)
            && (TruthyStr(auth) && auth.value !in s.usersPrivate ==> r == Err(CommitError) && s1 == s)
            && (TruthyStr(auth) && auth.value in s.usersPrivate ==>
                  && r == Ok(SignedOutSuccessfully)
                  && s1 == s.(usersPrivate := s.usersPrivate[auth.value :=
                                s.usersPrivate[auth.value].(isOnline := false, lastActive := now)]))
  {
    if TruthyStr(auth) {
      var ops := [UpdatePrivate(auth.value, WentOffline(now))];
      assert ops[1..] == [];
      if auth.value in s.usersPrivate {
        var s1 := ApplyOp(s, ops[0]).value;
        assert ApplyBatch(s, ops) == ApplyBatch(s1, []) == Some(s1);
      }
    }
  }

  /** `secureSignOut` keeps the single-bucket invariant, and a signed-out user keeps
      their index path and their entry. */
  lemma SecureSignOutKeepsSingleBucket(s: DbState, auth: Option<string>, now: Time)
    requires SingleBucket(s)
    ensures var s1 := Run(s, SecureSignOutPlan(auth, now)).0;
            && SingleBucket(s1)
            && s1.geoIndex == s.geoIndex
            && (TruthyStr(auth) && auth.value in s.usersPrivate ==>
                  && auth.value in s1.usersPrivate
                  && !s1.usersPrivate[auth.value].isOnline
                  && s1.usersPrivate[auth.value].currentGeoIndexPath == s.usersPrivate[auth.value].currentGeoIndexPath)
  {
    var plan := SecureSignOutPlan(auth, now);
    if plan.Ok? && auth.value in s.usersPrivate {
      var uid := auth.value;
      var ops := plan.value.ops;
      var v0 := ViewOf(s, uid);
      assert ViewFold(v0, ops, uid) == v0.(private := Some(PatchPrivate(s.usersPrivate[uid], WentOffline(now))));
      assert Tracked(s, uid);
      SingleBucketFrame(s, ops, uid);
    }
  }
}
