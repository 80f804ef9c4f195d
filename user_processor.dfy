/** The credential and activation logic of src/processors/user.processor.js:
    token issuance, the login pipeline, refresh-token rotation, the OTP
    upsert and check, account activation, account creation and profile
    update.

    The persistence layer is the two collections of the model modules, the
    bucket service is `BucketService` (its answers are parameters), and the
    collaborators the source calls but does not define are parameters:
    `sign` is `jwt.sign` with the configured secret, `verify` is
    `utils.verifyJWTToken` (signature and expiry), `compare` is
    `bcrypt.compare` and `hash` is `bcrypt.hash`.  `now` is the wall-clock
    time in whole seconds. */
module UserProcessor {
  import opened Wrappers
  import opened Errors
  import opened JsString
  import opened UserModel
  import opened TokenModel

  // ---------------------------------------------------------------------
  // Token payloads and expiry

  /** `config.jwt`: the access-token lifetime in minutes and the
      refresh-token lifetime in days. */
  datatype Config = Config(accessExpirationMinutes: int, refreshExpirationDays: int)

  /** The JWT payload `{ sub, iat, exp, role, type }`; a `None` role is a
      claim the token does not carry. */
  datatype Payload = Payload(sub: AccountId, iat: int, exp: int, role: Option<string>, tokenType: TokenType)

  /** `moment().add(accessExpirationMinutes, 'minutes')`, in seconds. */
  function AccessExpiry(cfg: Config, now: int): int {
    now + cfg.accessExpirationMinutes * 60
  }

  /** `moment().add(refreshExpirationDays, 'days')`, in seconds. */
  function RefreshExpiry(cfg: Config, now: int): int {
    now + cfg.refreshExpirationDays * 86400
  }

  /** `generateToken(userId, role, expires, type)`: signs the payload
      issued now. */
  function GenerateToken(sign: Payload -> string, sub: AccountId, role: Option<string>,
                         expires: int, t: TokenType, now: int): string {
    sign(Payload(sub, now, expires, role, t))
  }

  /** `verify(token, at)` is `utils.verifyJWTToken` at time `at`: it
      decodes a signed payload to exactly that payload until its expiry, and
      rejects it from the second `exp` on, as `jwt.verify` does. */
  ghost predicate SignerSound(sign: Payload -> string, verify: (string, int) -> Option<Payload>) {
    forall p, at :: verify(sign(p), at) == (if at < p.exp then Some(p) else None)
  }

  /** A token from `generateToken` verifies, up to the second before its
      expiry, to the payload it was built from: the subject, issue time
      `now`, the expiry, the role and the type. */
  lemma GenerateTokenDecodes(sign: Payload -> string, verify: (string, int) -> Option<Payload>, sub: AccountId,
                             role: Option<string>, expires: int, t: TokenType, now: int, at: int)
    requires SignerSound(sign, verify)
    ensures at < expires ==> verify(GenerateToken(sign, sub, role, expires, t, now), at) == Some(Payload(sub, now, expires, role, t))
    ensures at >= expires ==> verify(GenerateToken(sign, sub, role, expires, t, now), at).None?
  {
    assert GenerateToken(sign, sub, role, expires, t, now) == sign(Payload(sub, now, expires, role, t));
  }

  /** With non-negative lifetimes a token does not expire before it is
      issued, a token issued later does not expire sooner, and a refresh
      token outlives the access token issued with it when its lifetime in
      days covers the access lifetime in minutes. */
  lemma ExpiryOrder(cfg: Config, now: int, later: int)
    requires cfg.accessExpirationMinutes >= 0 && cfg.refreshExpirationDays >= 0
    ensures now <= AccessExpiry(cfg, now) && now <= RefreshExpiry(cfg, now)
    ensures now <= later ==> AccessExpiry(cfg, now) <= AccessExpiry(cfg, later)
    ensures now <= later ==> RefreshExpiry(cfg, now) <= RefreshExpiry(cfg, later)
    ensures cfg.accessExpirationMinutes <= cfg.refreshExpirationDays * 1440 ==>
              AccessExpiry(cfg, now) <= RefreshExpiry(cfg, now)
  {
  }

  // ---------------------------------------------------------------------
  // generateAndSaveAuthToken

  /** What `generateAndSaveAuthToken` is given: a plain copy of an account,
      or (from `getAccessToken`) the bare account id held by a token record,
      together with the role the tokens are to carry. */
  datatype Subject = Document(obj: UserObject) | Reference(id: AccountId, role: Option<string>)

  function SubjectId(u: Subject): AccountId {
    if u.Document? then u.obj.doc.id else u.id
  }

  function SubjectRole(u: Subject): Option<string> {
    if u.Document? then Some(u.obj.doc.role) else u.role
  }

  /** The user part of the reply: the object after `delete user.match` and
      `delete user.password`; a bare id contributes no account fields. */
  function PublicView(u: Subject): (v: Option<Account>)
    ensures v.Some? <==> u.Document?
    ensures v.Some? ==> v.value == u.obj.doc.(password := None)
  {
    if u.Document? then Some(u.obj.doc.(password := None)) else None
  }

  datatype Credential = Credential(token: string, expires: int)

  /** `{ ...user, access: { token, expires }, refresh: { token, expires } }`. */
  datatype AuthResult = AuthResult(user: Option<Account>, access: Credential, refresh: Credential)

  /** The reply `generateAndSaveAuthToken` builds for `u` at time `now`. */
  function Issue(u: Subject, cfg: Config, sign: Payload -> string, now: int): AuthResult {
    var accessExpires := AccessExpiry(cfg, now);
    var refreshExpires := RefreshExpiry(cfg, now);
    AuthResult(PublicView(u),
               Credential(GenerateToken(sign, SubjectId(u), SubjectRole(u), accessExpires, Access, now), accessExpires),
               Credential(GenerateToken(sign, SubjectId(u), SubjectRole(u), refreshExpires, Refresh, now), refreshExpires))
  }

  /** The refresh-token record `generateAndSaveAuthToken` stores for `u`. */
  function SavedRecord(u: Subject, cfg: Config, sign: Payload -> string, now: int): TokenRecord {
    TokenRecord(Issue(u, cfg, sign, now).refresh.token, SubjectId(u), Refresh, RefreshExpiry(cfg, now), false)
  }

  /** The outcome of `generateAndSaveAuthToken(u)` on a token collection
      going from `before` to `after`: the record is stored and the reply
      returned, unless the schema refuses the record (an empty token). */
  ghost predicate IssuedAndSaved(after: seq<TokenRecord>, before: seq<TokenRecord>, r: Result<AuthResult, Error>,
                                 u: Subject, cfg: Config, sign: Payload -> string, now: int) {
    var a := Issue(u, cfg, sign, now);
    if |a.refresh.token| > 0 then r == Success(a) && after == before + [SavedRecord(u, cfg, sign, now)]
    else r == Failure(TokenValidationFailed) && after == before
  }

  /** Decoding the issued tokens at time `at` gives back their payloads
      (subject, issue time `now`, role, type, and expiry `now` plus the
      configured minutes for access or days for refresh) until that expiry,
      and nothing from then on.  The reply hides the password hash and
      reports the same refresh token and expiry as the stored record. */
  lemma IssuedTokensDecode(u: Subject, cfg: Config, sign: Payload -> string, verify: (string, int) -> Option<Payload>,
                           now: int, at: int)
    requires SignerSound(sign, verify)
    ensures var a := Issue(u, cfg, sign, now);
      && verify(a.access.token, at) == (if at < now + cfg.accessExpirationMinutes * 60
           then Some(Payload(SubjectId(u), now, now + cfg.accessExpirationMinutes * 60, SubjectRole(u), Access)) else None)
      && verify(a.refresh.token, at) == (if at < now + cfg.refreshExpirationDays * 86400
           then Some(Payload(SubjectId(u), now, now + cfg.refreshExpirationDays * 86400, SubjectRole(u), Refresh)) else None)
      && a.access.expires - now == cfg.accessExpirationMinutes * 60
      && a.refresh.expires - now == cfg.refreshExpirationDays * 86400
      && (a.user.Some? ==> a.user.value.password.None?)
      && SavedRecord(u, cfg, sign, now).token == a.refresh.token
      && SavedRecord(u, cfg, sign, now).expires == a.refresh.expires
      && SavedRecord(u, cfg, sign, now).user == SubjectId(u)
      && SavedRecord(u, cfg, sign, now).tokenType == Refresh
      && !SavedRecord(u, cfg, sign, now).blacklisted
  {
    var a := Issue(u, cfg, sign, now);
    assert a.access.token == sign(Payload(SubjectId(u), now, AccessExpiry(cfg, now), SubjectRole(u), Access));
    assert a.refresh.token == sign(Payload(SubjectId(u), now, RefreshExpiry(cfg, now), SubjectRole(u), Refresh));
  }

  /** `generateAndSaveAuthToken(user)`: strips `match` and `password`,
      signs an access and a refresh token, stores exactly one refresh
      record, and replies with the stored token. */
  method GenerateAndSaveAuthToken(tokens: Tokens, u: Subject, cfg: Config, sign: Payload -> string, now: int)
    returns (r: Result<AuthResult, Error>)
    requires tokens.Valid()
    modifies tokens
    ensures tokens.Valid()
    ensures IssuedAndSaved(tokens.records, old(tokens.records), r, u, cfg, sign, now)
  {
    var view := PublicView(u);
    var accessTokenExpires := AccessExpiry(cfg, now);
    var accessToken := GenerateToken(sign, SubjectId(u), SubjectRole(u), accessTokenExpires, Access, now);
    var refreshTokenExpires := RefreshExpiry(cfg, now);
    var refreshToken := GenerateToken(sign, SubjectId(u), SubjectRole(u), refreshTokenExpires, Refresh, now);
    var saved := tokens.CreateToken(TokenDraft(Some(refreshToken), Some(SubjectId(u)), Some(TypeName(Refresh)),
                                               Some(refreshTokenExpires), Some(false)));
    if saved.Failure? {
      r := Failure(saved.error);
      return;
    }
    r := Success(AuthResult(view, Credential(accessToken, accessTokenExpires),
                            Credential(saved.value.token, refreshTokenExpires)));
  }

  // ---------------------------------------------------------------------
  // authenticate

  /** The checks of `authenticate` in their order: the email lookup, the
      password comparison, verified, not blocked, and the bucket. The
      `if (!user)` test after the lookup never fires, because the lookup
      itself rejects when no account holds the email, and the
      `!userWithPassword.match` test never fires, because isPasswordMatch
      rejects a mismatch. */
  function LoginChecks(found: Result<Account, Error>, password: string, compare: (string, string) -> bool,
                       bucketExists: bool): (r: Result<UserObject, Error>)
    ensures r.Success? <==> && found.Success? && PasswordMatches(found.value, password, compare)
                            && found.value.isVerified && !found.value.isBlocked && bucketExists
    ensures r.Success? ==> r.value == UserObject(found.value, Some(true))
    ensures found.Failure? ==> r == Failure(found.error)
    ensures found.Success? ==> r != Failure(InvalidEmail) && r != Failure(InvalidPassword)
    ensures found.Success? && !PasswordMatches(found.value, password, compare) ==>
              r == Failure(PasswordCompareFailed) || r == Failure(PasswordMismatch)
    ensures found.Success? && r == Failure(Blocked) ==>
              PasswordMatches(found.value, password, compare) && found.value.isVerified
    ensures found.Success? && r == Failure(NotVerified) ==> PasswordMatches(found.value, password, compare)
    ensures found.Success? && r == Failure(BucketMissing) ==>
              PasswordMatches(found.value, password, compare) && found.value.isVerified && !found.value.isBlocked
  {
    match found
    case Failure(e) => Failure(e)
    case Success(user) =>
      var withPassword := IsPasswordMatch(user, password, compare);
      if withPassword.Failure? then Failure(withPassword.error)
      else if withPassword.value.matched != Some(true) then Failure(InvalidPassword)
      else if !withPassword.value.doc.isVerified then Failure(NotVerified)
      else if withPassword.value.doc.isBlocked then Failure(Blocked)
      else if !bucketExists then Failure(BucketMissing)
      else Success(withPassword.value)
  }

  /** `authenticate(email, password, fcmToken)`. A failing check changes
      nothing; after every check has passed, `fcmToken` is written and the
      token pair is issued. The reply is built from the document as it was
      before the `fcmToken` update (findByIdAndUpdate resolves with the old
      document). */
  method Authenticate(users: Users, tokens: Tokens, email: string, password: string, fcmToken: string,
                      compare: (string, string) -> bool, bucketExists: bool,
                      cfg: Config, sign: Payload -> string, now: int)
    returns (r: Result<AuthResult, Error>)
    requires users.Valid() && tokens.Valid()
    modifies users, tokens
    ensures users.Valid() && tokens.Valid() && users.nextId == old(users.nextId)
    ensures var checked := LoginChecks(AccountWithEmail(old(users.docs), email), password, compare, bucketExists);
      checked.Failure? ==> && r == Failure(checked.error)
                           && users.docs == old(users.docs) && tokens.records == old(tokens.records)
    ensures var checked := LoginChecks(AccountWithEmail(old(users.docs), email), password, compare, bucketExists);
      checked.Success? ==>
        var a := checked.value.doc;
        && users.docs == old(users.docs)[a.id := a.(fcmToken := Some(fcmToken))]
        && IssuedAndSaved(tokens.records, old(tokens.records), r, Document(ToObject(a)), cfg, sign, now)
  {
    var found := users.GetUserByEmail(email);
    var checked := LoginChecks(found, password, compare, bucketExists);
    if checked.Failure? {
      r := Failure(checked.error);
      return;
    }
    var user := checked.value.doc;
    assert user.id in users.docs && users.docs[user.id] == user && user.email.Some?;
    var patch := EmptyPatch.(fcmToken := Some(fcmToken));
    assert !HoldsEmail(users.docs, user.email, Some(user.id));
    var updated := users.UpdateProfile(user.id, patch);
    assert updated == Success(Some(user));
    r := GenerateAndSaveAuthToken(tokens, Document(ToObject(updated.value.value)), cfg, sign, now);
  }

  // ---------------------------------------------------------------------
  // getAccessToken

  /** The filter of `getAccessToken`: the token itself, type refresh, the
      decoded subject, not blacklisted. */
  function RefreshQuery(refreshToken: string, sub: AccountId): TokenQuery {
    TokenQuery(refreshToken, Refresh, sub, false)
  }

  /** What `getAccessToken` passes on, AS WRITTEN: `oldToken.user`, the
      bare account id of the record, which has no `role`. */
  function RefreshSubjectAsWritten(old_: TokenRecord): (u: Subject)
    ensures SubjectId(u) == old_.user && SubjectRole(u).None?
  {
    Reference(old_.user, None)
  }

  /** What `getAccessToken` passes on in this model: the record's account
      id with the role the verified refresh token carries. */
  function RefreshSubject(old_: TokenRecord, decoded: Payload): (u: Subject)
    ensures SubjectId(u) == old_.user && SubjectRole(u) == decoded.role
  {
    Reference(old_.user, decoded.role)
  }

  /** As written, a refreshed pair never carries the role of the token it
      replaces: whenever one of its tokens verifies, its role is absent. */
  lemma RefreshAsWrittenDropsRole(old_: TokenRecord, decoded: Payload, cfg: Config,
                                  sign: Payload -> string, verify: (string, int) -> Option<Payload>, now: int, at: int)
    requires SignerSound(sign, verify) && decoded.role.Some?
    ensures var a := Issue(RefreshSubjectAsWritten(old_), cfg, sign, now);
      && (verify(a.access.token, at).Some? ==> verify(a.access.token, at).value.role != decoded.role)
      && (verify(a.refresh.token, at).Some? ==> verify(a.refresh.token, at).value.role != decoded.role)
  {
    IssuedTokensDecode(RefreshSubjectAsWritten(old_), cfg, sign, verify, now, at);
  }

  /** A rotated pair is bound to the same account and role as the refresh
      token it replaces, and both its tokens verify until their expiry. */
  lemma RotationKeepsIdentity(old_: TokenRecord, decoded: Payload, refreshToken: string, cfg: Config,
                              sign: Payload -> string, verify: (string, int) -> Option<Payload>, now: int, at: int)
    requires SignerSound(sign, verify)
    requires Matches(old_, RefreshQuery(refreshToken, decoded.sub))
    ensures var a := Issue(RefreshSubject(old_, decoded), cfg, sign, now);
      && (verify(a.access.token, at).Some? <==> at < a.access.expires)
      && (verify(a.refresh.token, at).Some? <==> at < a.refresh.expires)
      && (verify(a.access.token, at).Some? ==>
            verify(a.access.token, at).value.sub == decoded.sub && verify(a.access.token, at).value.role == decoded.role)
      && (verify(a.refresh.token, at).Some? ==>
            verify(a.refresh.token, at).value.sub == decoded.sub && verify(a.refresh.token, at).value.role == decoded.role)
  {
    IssuedTokensDecode(RefreshSubject(old_, decoded), cfg, sign, verify, now, at);
  }

  /** Rotation: the consumed record leaves the count of records matching the
      query, and the new record adds to it only if it matches it too. */
  lemma RotationConsumes(before: seq<TokenRecord>, i: nat, saved: TokenRecord, q: TokenQuery)
    requires i < |before| && Matches(before[i], q)
    ensures CountMatches(RemoveAt(before, i) + [saved], q)
            == CountMatches(before, q) - 1 + (if Matches(saved, q) then 1 else 0)
  {
    CountRemoveAt(before, i, q);
    CountAppend(RemoveAt(before, i), [saved], q);
    assert [saved][1..] == [];
  }

  /** After rotating the only record for a refresh token into one with a
      different token, no record matches the old one. */
  lemma SecondUseFails(before: seq<TokenRecord>, i: nat, saved: TokenRecord, q: TokenQuery)
    requires i < |before| && Matches(before[i], q) && CountMatches(before, q) == 1
    requires saved.token != q.token
    ensures FirstMatch(RemoveAt(before, i) + [saved], q).None?
  {
    RotationConsumes(before, i, saved, q);
    CountZero(RemoveAt(before, i) + [saved], q);
  }

  /** A signer is deterministic, so a refresh token can only be reissued
      identically when the new payload equals the old one; issued at any
      other second, the rotated token differs from the consumed one. */
  lemma FreshTokenDiffers(old_: TokenRecord, decoded: Payload, refreshToken: string, cfg: Config,
                          sign: Payload -> string, verify: (string, int) -> Option<Payload>, now: int)
    requires SignerSound(sign, verify) && verify(refreshToken, now) == Some(decoded) && decoded.iat != now
    ensures Issue(RefreshSubject(old_, decoded), cfg, sign, now).refresh.token != refreshToken
  {
    IssuedTokensDecode(RefreshSubject(old_, decoded), cfg, sign, verify, now, now);
  }

  /** The first input `FreshTokenDiffers` and `RefreshTwice` exclude, for
      the rotation `GetAccessToken` performs (with the corrected subject):
      `jwt.sign` renders a payload deterministically and `iat` has whole
      seconds, so rotating a token in the second it was issued (for its own
      subject and role, and with the configured lifetime) stores that very
      token again, and the next presentation finds it. */
  lemma SameSecondRotationReplays(before: seq<TokenRecord>, i: nat, refreshToken: string, decoded: Payload,
                                  cfg: Config, sign: Payload -> string, now: int)
    requires i < |before| && Matches(before[i], RefreshQuery(refreshToken, decoded.sub))
    requires refreshToken == GenerateToken(sign, decoded.sub, decoded.role, RefreshExpiry(cfg, now), Refresh, now)
    ensures var saved := SavedRecord(RefreshSubject(before[i], decoded), cfg, sign, now);
      && saved.token == refreshToken
      && FirstMatch(RemoveAt(before, i) + [saved], RefreshQuery(refreshToken, decoded.sub)).Some?
  {
    var q := RefreshQuery(refreshToken, decoded.sub);
    var saved := SavedRecord(RefreshSubject(before[i], decoded), cfg, sign, now);
    assert Matches(saved, q);
    CountZero(before, q);
    RotationConsumes(before, i, saved, q);
    CountZero(RemoveAt(before, i) + [saved], q);
  }

  /** The same-second rotation AS WRITTEN, which drops the role: it stores
      the consumed token again exactly when that token carried no role.  A
      token from a login carries the account's role, so as written a
      same-second rotation of it stores a different token. */
  lemma SameSecondRotationAsWritten(before: seq<TokenRecord>, i: nat, refreshToken: string, decoded: Payload,
                                    cfg: Config, sign: Payload -> string, verify: (string, int) -> Option<Payload>,
                                    now: int)
    requires SignerSound(sign, verify)
    requires i < |before| && Matches(before[i], RefreshQuery(refreshToken, decoded.sub))
    requires refreshToken == GenerateToken(sign, decoded.sub, decoded.role, RefreshExpiry(cfg, now), Refresh, now)
    ensures SavedRecord(RefreshSubjectAsWritten(before[i]), cfg, sign, now).token == refreshToken
            <==> decoded.role.None?
  {
    var exp := RefreshExpiry(cfg, now);
    var saved := SavedRecord(RefreshSubjectAsWritten(before[i]), cfg, sign, now);
    if decoded.role.None? {
      assert RefreshSubjectAsWritten(before[i]) == RefreshSubject(before[i], decoded);
      SameSecondRotationReplays(before, i, refreshToken, decoded, cfg, sign, now);
    } else if saved.token == refreshToken {
      GenerateTokenDecodes(sign, verify, decoded.sub, decoded.role, exp, Refresh, now, exp - 1);
      GenerateTokenDecodes(sign, verify, before[i].user, None, exp, Refresh, now, exp - 1);
      assert false;
    }
  }

  /** Likewise, two records holding the same token (two logins of one
      account in the same second) survive a rotation by one of them. */
  lemma DuplicateRecordReplays(before: seq<TokenRecord>, i: nat, saved: TokenRecord, q: TokenQuery)
    requires i < |before| && Matches(before[i], q) && CountMatches(before, q) >= 2
    ensures FirstMatch(RemoveAt(before, i) + [saved], q).Some?
  {
    RotationConsumes(before, i, saved, q);
    CountZero(RemoveAt(before, i) + [saved], q);
  }

  /** `getAccessToken(refreshToken)`: verify the token, find the matching
      record, remove it, then issue and store a new pair. */
  method GetAccessToken(tokens: Tokens, refreshToken: string, verify: (string, int) -> Option<Payload>,
                        cfg: Config, sign: Payload -> string, now: int)
    returns (r: Result<AuthResult, Error>)
    requires tokens.Valid()
    modifies tokens
    ensures tokens.Valid()
    ensures verify(refreshToken, now).None? ==> r == Failure(RefreshVerifyFailed) && tokens.records == old(tokens.records)
    ensures verify(refreshToken, now).Some? ==>
      var decoded := verify(refreshToken, now).value;
      var found := FirstMatch(old(tokens.records), RefreshQuery(refreshToken, decoded.sub));
      if found.None? then r == Failure(NotValidRefreshToken) && tokens.records == old(tokens.records)
      else IssuedAndSaved(tokens.records, RemoveAt(old(tokens.records), found.value), r,
                          RefreshSubject(old(tokens.records)[found.value], decoded), cfg, sign, now)
  {
    var decoded := verify(refreshToken, now);
    if decoded.None? {
      r := Failure(RefreshVerifyFailed);
      return;
    }
    var found := tokens.FindToken(RefreshQuery(refreshToken, decoded.value.sub));
    if found.None? {
      r := Failure(NotValidRefreshToken);
      return;
    }
    var oldToken := tokens.records[found.value];
    tokens.Remove(found.value);
    r := GenerateAndSaveAuthToken(tokens, RefreshSubject(oldToken, decoded.value), cfg, sign, now);
  }

  /** A refresh token is single-use: once it has been rotated at `now`,
      presenting it again at any `later` time fails, whether or not the
      rotation managed to store its replacement.  Before the token's expiry
      the second use finds no record ('Not a valid refresh token'); from its
      expiry on, the verifier already refuses it. */
  method RefreshTwice(tokens: Tokens, refreshToken: string, verify: (string, int) -> Option<Payload>,
                      cfg: Config, sign: Payload -> string, now: int, later: int)
    returns (first: Result<AuthResult, Error>, second: Result<AuthResult, Error>)
    requires tokens.Valid() && SignerSound(sign, verify) && now <= later
    requires verify(refreshToken, now).Some? && refreshToken == sign(verify(refreshToken, now).value)
    requires verify(refreshToken, now).value.iat != now
    requires CountMatches(tokens.records, RefreshQuery(refreshToken, verify(refreshToken, now).value.sub)) == 1
    modifies tokens
    ensures first.Success? || first == Failure(TokenValidationFailed)
    ensures later < verify(refreshToken, now).value.exp ==> second == Failure(NotValidRefreshToken)
    ensures later >= verify(refreshToken, now).value.exp ==> second == Failure(RefreshVerifyFailed)
  {
    ghost var before := tokens.records;
    ghost var decoded := verify(refreshToken, now).value;
    ghost var q := RefreshQuery(refreshToken, decoded.sub);
    CountZero(before, q);
    ghost var i := FirstMatch(before, q).value;
    first := GetAccessToken(tokens, refreshToken, verify, cfg, sign, now);
    ghost var u := RefreshSubject(before[i], decoded);
    FreshTokenDiffers(before[i], decoded, refreshToken, cfg, sign, verify, now);
    if |Issue(u, cfg, sign, now).refresh.token| > 0 {
      SecondUseFails(before, i, SavedRecord(u, cfg, sign, now), q);
    } else {
      CountRemoveAt(before, i, q);
      CountZero(RemoveAt(before, i), q);
    }
    assert verify(refreshToken, later) == (if later < decoded.exp then Some(decoded) else None) by {
      assert verify(sign(decoded), later) == (if later < decoded.exp then Some(decoded) else None);
    }
    second := GetAccessToken(tokens, refreshToken, verify, cfg, sign, later);
  }

  // ---------------------------------------------------------------------
  // verifyEmail, createUser, updateProfile

  /** `verifyEmail(email, excludeUserId)`: rejects when another account
      holds the email. */
  method VerifyEmail(users: Users, email: Option<string>, excl: Option<AccountId>) returns (r: Result<(), Error>)
    requires users.Valid()
    ensures r.Failure? <==> HoldsEmail(users.docs, EmailValue(email), excl)
    ensures r.Failure? ==> r.error == EmailTaken
  {
    var user := users.IsEmailTaken(email, excl);
    if user.Some? {
      r := Failure(EmailTaken);
    } else {
      r := Success(());
    }
  }

  /** `createUser(body)`: the email must be free, then the mobile number,
      then the schema must accept the body; only then is exactly one
      account added. */
  method CreateUser(users: Users, body: Patch, hash: string -> string) returns (r: Result<Account, Error>)
    requires users.Valid()
    modifies users
    ensures users.Valid()
    ensures HoldsEmail(old(users.docs), EmailValue(body.email), None) ==>
              r == Failure(EmailTaken) && users.docs == old(users.docs) && users.nextId == old(users.nextId)
    ensures !HoldsEmail(old(users.docs), EmailValue(body.email), None) && HoldsMobile(old(users.docs), body.mobile) ==>
              r == Failure(MobileTaken) && users.docs == old(users.docs) && users.nextId == old(users.nextId)
    ensures !HoldsEmail(old(users.docs), EmailValue(body.email), None) && !HoldsMobile(old(users.docs), body.mobile) ==>
      var made := NewAccount(old(users.nextId), body, hash);
      if made.Failure? then r == made && users.docs == old(users.docs) && users.nextId == old(users.nextId)
      else && r == made && made.value.id !in old(users.docs)
           && users.docs == old(users.docs)[made.value.id := made.value]
           && |users.docs| == |old(users.docs)| + 1
    ensures MobilesUnique(old(users.docs)) ==> MobilesUnique(users.docs)
  {
    var free := VerifyEmail(users, body.email, None);
    if free.Failure? {
      r := Failure(free.error);
      return;
    }
    var userSearched := users.FindByMobile(body.mobile);
    if userSearched.Some? {
      r := Failure(MobileTaken);
      return;
    }
    ghost var before := users.docs;
    ghost var made := NewAccount(users.nextId, body, hash);
    assert made.Success? ==> made.value.email == EmailValue(body.email) && !HoldsEmail(before, made.value.email, None);
    r := users.Create(body, hash);
    if made.Success? && MobilesUnique(before) {
      InsertKeepsMobilesUnique(before, made.value);
    }
  }

  /** The processor's `updateProfile(email, id, param)`: the email must not
      be held by another account, then the `$set`, then the account is read
      back. */
  method UpdateProfile(users: Users, email: Option<string>, id: AccountId, p: Patch)
    returns (r: Result<Option<Account>, Error>)
    requires users.Valid()
    modifies users
    ensures users.Valid() && users.nextId == old(users.nextId)
    ensures HoldsEmail(old(users.docs), EmailValue(email), Some(id)) ==>
              r == Failure(EmailTaken) && users.docs == old(users.docs)
    ensures !HoldsEmail(old(users.docs), EmailValue(email), Some(id)) ==>
      if id !in old(users.docs) then r == Success(None) && users.docs == old(users.docs)
      else
        var updated := ApplyPatch(old(users.docs)[id], ApplySetters(p));
        if updated.email.Some? && HoldsEmail(old(users.docs), updated.email, Some(id))
        then r == Failure(DuplicateEmail) && users.docs == old(users.docs)
        else r == Success(Some(updated)) && users.docs == old(users.docs)[id := updated]
  {
    var free := VerifyEmail(users, email, Some(id));
    if free.Failure? {
      r := Failure(free.error);
      return;
    }
    var res := users.UpdateProfile(id, p);
    if res.Failure? {
      r := Failure(res.error);
      return;
    }
    r := Success(users.GetUserById(id));
  }

  // ---------------------------------------------------------------------
  // OTP

  /** `generateOTP()`: `Math.floor(Math.random() * 899999 + 100000)`, with
      `draw` the integer part of `Math.random() * 899999`. */
  function GenerateOtp(draw: int): (otp: int)
    requires 0 <= draw < 899999
    ensures 100000 <= otp <= 999998
    ensures |Decimal(otp)| == 6
  {
    DecimalLength(draw + 100000, 5);
    draw + 100000
  }

  /** Every code in [100000, 999998] can be drawn; 999999 cannot. */
  lemma GenerateOtpRange(otp: int)
    ensures (exists draw :: 0 <= draw < 899999 && GenerateOtp(draw) == otp) <==> 100000 <= otp <= 999998
  {
    if 100000 <= otp <= 999998 {
      assert GenerateOtp(otp - 100000) == otp;
    }
  }

  /** `user.otp === parseInt(otp, 10)`. */
  predicate OtpMatches(stored: Option<int>, code: string) {
    stored.Some? && ParseInt(code) == Some(stored.value)
  }

  /** The decimal text of a stored code passes the check, and the decimal
      text of any other number does not. */
  lemma OtpCheckExact(stored: nat, submitted: nat)
    ensures OtpMatches(Some(stored), Decimal(submitted)) <==> stored == submitted
  {
    ParseDecimal(submitted);
  }

  /** `{ mobile, otp }`, the reply to an OTP request. */
  datatype OtpIssued = OtpIssued(mobile: string, otp: int)

  /** `verifyUserAndGenerateOTP(mobile)`: an upsert keyed by mobile number.
      An existing account has its code overwritten in place; otherwise
      exactly one minimal account holding the code is created. */
  method VerifyUserAndGenerateOtp(users: Users, mobile: string, draw: int) returns (r: OtpIssued)
    requires users.Valid() && 0 <= draw < 899999
    modifies users
    ensures users.Valid()
    ensures r == OtpIssued(mobile, GenerateOtp(draw))
    ensures HoldsMobile(old(users.docs), Some(mobile)) ==>
      && |users.docs| == |old(users.docs)| && users.nextId == old(users.nextId)
      && exists k :: k in old(users.docs) && old(users.docs)[k].mobile == Some(mobile)
                     && users.docs == old(users.docs)[k := old(users.docs)[k].(otp := Some(r.otp))]
    ensures !HoldsMobile(old(users.docs), Some(mobile)) ==>
      && old(users.nextId) !in old(users.docs)
      && users.docs == old(users.docs)[old(users.nextId) := MinimalAccount(old(users.nextId), mobile, r.otp)]
      && |users.docs| == |old(users.docs)| + 1
    ensures MobilesUnique(old(users.docs)) ==> MobilesUnique(users.docs)
  {
    var newOtp := GenerateOtp(draw);
    var user := users.FindByMobile(Some(mobile));
    ghost var before := users.docs;
    if user.Some? {
      users.SetOtp(mobile, newOtp);
      assert users.docs.Keys == before.Keys;
      if MobilesUnique(before) {
        var k :| k in before && before[k].mobile == Some(mobile)
                 && users.docs == before[k := before[k].(otp := Some(newOtp))];
        ReplaceKeepsMobilesUnique(before, k, before[k].(otp := Some(newOtp)));
      }
    } else {
      var created := users.CreateWithOtp(mobile, newOtp);
      if MobilesUnique(before) {
        InsertKeepsMobilesUnique(before, created);
      }
    }
    r := OtpIssued(mobile, newOtp);
  }

  /** `verifyMobile(mobile)`: resolves with the number when an account
      holds it, and rejects 'mobile does not exists' otherwise. */
  method VerifyMobile(users: Users, mobile: string) returns (r: Result<string, Error>)
    requires users.Valid()
    ensures r.Success? <==> HoldsMobile(users.docs, Some(mobile))
    ensures r.Success? ==> r.value == mobile
    ensures r.Failure? ==> r.error == MobileDoesNotExist
  {
    var user := users.FindByMobile(Some(mobile));
    if user.None? {
      r := Failure(MobileDoesNotExist);
      return;
    }
    r := Success(mobile);
  }

  /** `verifyOtp(mobile, otp)`: resolves with the account holding the number
      when its stored code equals the submitted one. */
  method VerifyOtp(users: Users, mobile: string, code: string) returns (r: Result<Account, Error>)
    requires users.Valid()
    ensures r == Failure(NoAccountForMobile) <==> !HoldsMobile(users.docs, Some(mobile))
    ensures r.Success? ==> && r.value.id in users.docs && users.docs[r.value.id] == r.value
                           && r.value.mobile == Some(mobile) && OtpMatches(r.value.otp, code)
    ensures r.Failure? && HoldsMobile(users.docs, Some(mobile)) ==> r.error == InvalidOtp
    ensures MobilesUnique(users.docs) ==>
      (r.Success? <==> exists k :: k in users.docs && users.docs[k].mobile == Some(mobile) && OtpMatches(users.docs[k].otp, code))
    ensures r.Success? && MobilesUnique(users.docs) ==>
      forall k :: k in users.docs && users.docs[k].mobile == Some(mobile) ==> users.docs[k] == r.value
    ensures r.Failure? && MobilesUnique(users.docs) ==>
      forall k :: k in users.docs && users.docs[k].mobile == Some(mobile) ==> !OtpMatches(users.docs[k].otp, code)
  {
    var user := users.FindByMobile(Some(mobile));
    if user.None? {
      r := Failure(NoAccountForMobile);
      return;
    }
    if OtpMatches(user.value.otp, code) {
      r := Success(user.value);
    } else {
      r := Failure(InvalidOtp);
    }
  }

  // ---------------------------------------------------------------------
  // Activation

  /** The bucket service behind `createUserBucket`; `requests` records the
      bucket creations asked for, in order. */
  class BucketService {
    var requests: seq<AccountId>

    constructor ()
      ensures requests == []
    {
      requests := [];
    }

    /** `createUserBucket(bucketName)`; `succeeds` is the service's answer. */
    method CreateBucket(bucketName: AccountId, succeeds: bool) returns (ok: bool)
      modifies this
      ensures requests == old(requests) + [bucketName] && ok == succeeds
    {
      requests := requests + [bucketName];
      ok := succeeds;
    }
  }

  /** `isNewRegistration(user)` AS WRITTEN. For a verified account the
      promise resolves with the account, but with no `return` after
      `resolve` the update and the bucket request still run. For an
      unverified account the last step calls the processor's
      `updateProfile(email, id, param)` with the account id as `email` and
      `{ isVerified: true }` as `id`; casting that object to an account id
      fails, so the promise rejects even when the bucket was created. */
  method IsNewRegistrationAsWritten(users: Users, buckets: BucketService, user: Account, bucketCreated: bool)
    returns (r: Result<Account, Error>)
    requires users.Valid()
    modifies users, buckets
    ensures users.Valid() && users.nextId == old(users.nextId)
    ensures users.docs == MarkVerified(old(users.docs), user.id)
    ensures buckets.requests == old(buckets.requests) + [user.id]
    ensures user.isVerified ==> r == Success(user)
    ensures !user.isVerified ==> r == Failure(if bucketCreated then ArgumentCast else BucketCreationFailed)
  {
    var settled: Option<Result<Account, Error>> := None;
    if user.isVerified {
      settled := Some(Success(user));
    }
    MarkVerifiedByPatch(users.docs, user.id);
    var _ := users.UpdateProfile(user.id, VerifiedPatch);
    var created := buckets.CreateBucket(user.id, bucketCreated);
    if !created {
      if settled.None? { settled := Some(Failure(BucketCreationFailed)); }
    } else {
      if settled.None? { settled := Some(Failure(ArgumentCast)); }
    }
    r := settled.value;
  }

  /** The `$set` of `{ isVerified: true }` is MarkVerified, and it cannot
      collide with the email index. */
  lemma MarkVerifiedByPatch(docs: map<AccountId, Account>, id: AccountId)
    requires EmailsUnique(docs)
    ensures id in docs ==> ApplyPatch(docs[id], ApplySetters(VerifiedPatch)) == docs[id].(isVerified := true)
    ensures id in docs && docs[id].email.Some? ==> !HoldsEmail(docs, docs[id].email, Some(id))
    ensures id in docs ==> MarkVerified(docs, id) == docs[id := ApplyPatch(docs[id], ApplySetters(VerifiedPatch))]
  {
  }

  /** `isNewRegistration(user)` with the early return the source omits: an
      account already verified resolves unchanged and nothing else happens;
      otherwise the account is marked verified and its bucket requested. */
  method IsNewRegistration(users: Users, buckets: BucketService, user: Account, bucketCreated: bool)
    returns (r: Result<Account, Error>)
    requires users.Valid()
    modifies users, buckets
    ensures users.Valid() && users.nextId == old(users.nextId)
    ensures user.isVerified ==> && r == Success(user) && users.docs == old(users.docs)
                                && buckets.requests == old(buckets.requests)
    ensures !user.isVerified ==> && users.docs == MarkVerified(old(users.docs), user.id)
                                 && buckets.requests == old(buckets.requests) + [user.id]
                                 && r == (if bucketCreated then Success(user) else Failure(BucketCreationFailed))
  {
    if user.isVerified {
      r := Success(user);
      return;
    }
    MarkVerifiedByPatch(users.docs, user.id);
    var _ := users.UpdateProfile(user.id, VerifiedPatch);
    var created := buckets.CreateBucket(user.id, bucketCreated);
    if !created {
      r := Failure(BucketCreationFailed);
      return;
    }
    // the second `{ isVerified: true }` update finds the flag already set
    if user.id in users.docs {
      ApplyPatchIdempotent(old(users.docs)[user.id], ApplySetters(VerifiedPatch));
      MarkVerifiedByPatch(users.docs, user.id);
    }
    var _ := users.UpdateProfile(user.id, VerifiedPatch);
    r := Success(user);
  }

  /** The reply of `verifyOTPAndUser`: a token pair, or an error object. */
  datatype Reply = Issued(auth: AuthResult) | ErrorBody(error: Error)

  /** The final `.catch` of `verifyOTPAndUser` AS WRITTEN: it returns the
      wrapped error instead of throwing it, so the promise always resolves. */
  function SettleAsWritten(r: Result<AuthResult, Error>): (s: Result<Reply, Error>)
    ensures s.Success?
    ensures r.Failure? ==> s.value == ErrorBody(OtpVerificationFailed(r.error))
    ensures r.Success? ==> s.value == Issued(r.value)
  {
    match r
    case Success(a) => Success(Issued(a))
    case Failure(e) => Success(ErrorBody(OtpVerificationFailed(e)))
  }

  /** The final `.catch` of `verifyOTPAndUser` rethrowing the wrapped error:
      the promise rejects exactly when a step failed. */
  function Settle(r: Result<AuthResult, Error>): (s: Result<AuthResult, Error>)
    ensures s.Success? <==> r.Success?
    ensures r.Success? ==> s == r
    ensures r.Failure? ==> s.error == OtpVerificationFailed(r.error)
  {
    match r
    case Success(a) => Success(a)
    case Failure(e) => Failure(OtpVerificationFailed(e))
  }

  /** A failed OTP login is a resolved reply as written, a rejection once
      the error is rethrown. */
  lemma SettleDiscrepancy(e: Error)
    ensures SettleAsWritten(Failure(e)).Success? && Settle(Failure(e)).Failure?
  {
  }

  /** What `verifyOTPAndUser` does for the account `a` holding the mobile
      number, with the collections going from the `...0` to the `...1`
      states: a wrong code fails and changes nothing; a right one activates
      `a` (a bucket is requested only if it was unverified), then fails if
      that bucket could not be created, and otherwise issues and saves the
      token pair for `a`. */
  ghost predicate OtpLoginOutcome(a: Account, code: string, bucketCreated: bool, cfg: Config, sign: Payload -> string,
                                  now: int, r: Result<AuthResult, Error>,
                                  docs0: map<AccountId, Account>, docs1: map<AccountId, Account>,
                                  req0: seq<AccountId>, req1: seq<AccountId>,
                                  tok0: seq<TokenRecord>, tok1: seq<TokenRecord>) {
    if !OtpMatches(a.otp, code) then
      r == Failure(OtpVerificationFailed(InvalidOtp)) && docs1 == docs0 && req1 == req0 && tok1 == tok0
    else
      && docs1 == MarkVerified(docs0, a.id)
      && req1 == req0 + (if a.isVerified then [] else [a.id])
      && if !a.isVerified && !bucketCreated then
           r == Failure(OtpVerificationFailed(BucketCreationFailed)) && tok1 == tok0
         else
           var issued := Issue(Document(ToObject(a)), cfg, sign, now);
           if |issued.refresh.token| > 0 then r == Success(issued) && tok1 == tok0 + [SavedRecord(Document(ToObject(a)), cfg, sign, now)]
           else r == Failure(OtpVerificationFailed(TokenValidationFailed)) && tok1 == tok0
  }

  /** An OTP login succeeds exactly when the code matches, the account is
      verified already or its bucket is created, and the refresh token is
      storable; a failure never touches the token collection, and a success
      leaves the account verified. */
  lemma OtpLoginSuccess(a: Account, code: string, bucketCreated: bool, cfg: Config, sign: Payload -> string,
                        now: int, r: Result<AuthResult, Error>,
                        docs0: map<AccountId, Account>, docs1: map<AccountId, Account>,
                        req0: seq<AccountId>, req1: seq<AccountId>,
                        tok0: seq<TokenRecord>, tok1: seq<TokenRecord>)
    requires OtpLoginOutcome(a, code, bucketCreated, cfg, sign, now, r, docs0, docs1, req0, req1, tok0, tok1)
    requires a.id in docs0
    ensures r.Success? <==> && OtpMatches(a.otp, code) && (a.isVerified || bucketCreated)
                            && |Issue(Document(ToObject(a)), cfg, sign, now).refresh.token| > 0
    ensures r.Failure? ==> tok1 == tok0 && r.error.OtpVerificationFailed?
    ensures r.Success? ==> docs1[a.id].isVerified && |tok1| == |tok0| + 1
    ensures |req1| <= |req0| + 1
  {
  }

  /** `verifyOTPAndUser(mobile, otp)`: check the code, activate the account
      if it is new, then issue a token pair for it.  It composes the
      corrected members: `IsNewRegistration` (early return, working update)
      and `Settle` (the error is rethrown). */
  method VerifyOtpAndUser(users: Users, tokens: Tokens, buckets: BucketService, mobile: string, code: string,
                          bucketCreated: bool, cfg: Config, sign: Payload -> string, now: int)
    returns (r: Result<AuthResult, Error>)
    requires users.Valid() && tokens.Valid()
    modifies users, tokens, buckets
    ensures users.Valid() && tokens.Valid() && users.nextId == old(users.nextId)
    ensures !HoldsMobile(old(users.docs), Some(mobile)) ==>
      && r == Failure(OtpVerificationFailed(NoAccountForMobile))
      && users.docs == old(users.docs) && tokens.records == old(tokens.records)
      && buckets.requests == old(buckets.requests)
    ensures r.Failure? ==> r.error.OtpVerificationFailed? && tokens.records == old(tokens.records)
    ensures MobilesUnique(old(users.docs)) ==>
      forall k :: k in old(users.docs) && old(users.docs)[k].mobile == Some(mobile) ==>
        OtpLoginOutcome(old(users.docs)[k], code, bucketCreated, cfg, sign, now, r,
                        old(users.docs), users.docs, old(buckets.requests), buckets.requests,
                        old(tokens.records), tokens.records)
    ensures r.Success? ==> exists k :: && k in old(users.docs) && old(users.docs)[k].mobile == Some(mobile)
                                       && OtpMatches(old(users.docs)[k].otp, code)
                                       && k in users.docs && users.docs[k].isVerified
  {
    ghost var docs0, req0, tok0 := users.docs, buckets.requests, tokens.records;
    var checked := VerifyOtp(users, mobile, code);
    if checked.Failure? {
      r := Settle(Failure(checked.error));
      if MobilesUnique(docs0) {
        forall k | k in docs0 && docs0[k].mobile == Some(mobile)
          ensures OtpLoginOutcome(docs0[k], code, bucketCreated, cfg, sign, now, r,
                                  docs0, users.docs, req0, buckets.requests, tok0, tokens.records)
        {
          assert !OtpMatches(docs0[k].otp, code) && checked.error == InvalidOtp;
        }
      }
      return;
    }
    ghost var a := checked.value;
    assert a in docs0.Values && OtpMatches(a.otp, code);
    assert a.isVerified ==> MarkVerified(docs0, a.id) == docs0;
    var registered := IsNewRegistration(users, buckets, checked.value, bucketCreated);
    if registered.Failure? {
      r := Settle(Failure(registered.error));
      assert r == Failure(OtpVerificationFailed(BucketCreationFailed)) && !a.isVerified;
      assert OtpLoginOutcome(a, code, bucketCreated, cfg, sign, now, r,
                             docs0, users.docs, req0, buckets.requests, tok0, tokens.records);
      HolderIsUnique(docs0, mobile, a);
      return;
    }
    var issued := GenerateAndSaveAuthToken(tokens, Document(ToObject(registered.value)), cfg, sign, now);
    r := Settle(issued);
    assert a.id in docs0 && a.id in users.docs && users.docs[a.id].isVerified;
    assert OtpLoginOutcome(a, code, bucketCreated, cfg, sign, now, r,
                           docs0, users.docs, req0, buckets.requests, tok0, tokens.records);
    HolderIsUnique(docs0, mobile, a);
  }

  /** Under unique mobile numbers, every account holding `mobile` is `a`. */
  lemma HolderIsUnique(docs: map<AccountId, Account>, mobile: string, a: Account)
    requires a.id in docs && docs[a.id] == a && a.mobile == Some(mobile)
    ensures MobilesUnique(docs) ==> forall k :: k in docs && docs[k].mobile == Some(mobile) ==> docs[k] == a
  {
  }
}
