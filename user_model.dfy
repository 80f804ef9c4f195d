/** The account record of src/models/user.model.js: its fields, the schema's
    setters, defaults and validators, the conditional password hash of the
    pre-save hook, the password comparison, and the account collection with
    the statics and store operations the processor calls. */
module UserModel {
  import opened Wrappers
  import opened Errors
  import opened JsString

  /** An account's `_id`. */
  type AccountId = nat

  const UserRole: string := "user"
  const AdminRole: string := "admin"

  /** The schema's role enum. */
  predicate IsRole(s: string) {
    s == UserRole || s == AdminRole
  }

  /** A stored account. `None` is a field the document does not hold.
      `password` holds the hash written by the pre-save hook. */
  datatype Account = Account(
    id: AccountId,
    firstName: Option<string>,
    lastName: Option<string>,
    email: Option<string>,
    mobile: Option<string>,
    password: Option<string>,
    role: string,
    profile: Option<string>,
    isBlocked: bool,
    isVerified: bool,
    otp: Option<int>,
    fcmToken: Option<string>)

  /** The fields of a `$set` update or of a new account's body; `None` is a
      field the object does not mention. */
  datatype Patch = Patch(
    firstName: Option<string>,
    lastName: Option<string>,
    email: Option<string>,
    mobile: Option<string>,
    password: Option<string>,
    role: Option<string>,
    profile: Option<string>,
    isBlocked: Option<bool>,
    isVerified: Option<bool>,
    otp: Option<int>,
    fcmToken: Option<string>)

  const EmptyPatch: Patch := Patch(None, None, None, None, None, None, None, None, None, None, None)

  /** A plain copy of a document (`toObject()`), with the `match` flag (here `matched`) that
      isPasswordMatch adds. */
  datatype UserObject = UserObject(doc: Account, matched: Option<bool>)

  function ToObject(a: Account): UserObject {
    UserObject(a, None)
  }

  // ---------------------------------------------------------------------
  // Setters

  /** The email path's setters: `trim`, then `lowercase`. */
  function NormalizeEmail(e: string): (r: string)
    ensures IsTrimmed(r)
    ensures forall i :: 0 <= i < |r| ==> !IsUpper(r[i])
    ensures |r| == |Trim(e)|
    ensures forall i :: 0 <= i < |r| ==> r[i] == ToLowerChar(Trim(e)[i])
  {
    ToLowerKeepsTrimmed(Trim(e));
    ToLower(Trim(e))
  }

  /** A normalized email is its own normal form. */
  lemma NormalizeEmailIdempotent(e: string)
    ensures NormalizeEmail(NormalizeEmail(e)) == NormalizeEmail(e)
  {
    var n := NormalizeEmail(e);
    TrimFixedPoint(n);
    assert forall i :: 0 <= i < |n| ==> ToLowerChar(n[i]) == n[i];
  }

  function TrimOpt(o: Option<string>): (r: Option<string>)
    ensures r.Some? <==> o.Some?
    ensures r.Some? ==> r.value == Trim(o.value)
  {
    if o.Some? then Some(Trim(o.value)) else None
  }

  /** The value a query or a write ends up holding for the email path once
      the setters have run. */
  function EmailValue(o: Option<string>): (r: Option<string>)
    ensures r.Some? <==> o.Some?
    ensures r.Some? ==> r.value == NormalizeEmail(o.value)
  {
    if o.Some? then Some(NormalizeEmail(o.value)) else None
  }

  /** The schema's setters applied to an incoming object: `trim` on
      firstName, lastName, password and profile, `trim` and `lowercase` on
      email; the other paths have no setter. */
  function ApplySetters(p: Patch): (q: Patch)
    ensures q.email == EmailValue(p.email)
    ensures q.firstName == TrimOpt(p.firstName) && q.lastName == TrimOpt(p.lastName)
    ensures q.password == TrimOpt(p.password) && q.profile == TrimOpt(p.profile)
    ensures q.(email := p.email, firstName := p.firstName, lastName := p.lastName,
               password := p.password, profile := p.profile) == p
  {
    p.(firstName := TrimOpt(p.firstName), lastName := TrimOpt(p.lastName),
       email := EmailValue(p.email), password := TrimOpt(p.password),
       profile := TrimOpt(p.profile))
  }

  /** Values that went through the setters come out of them unchanged. */
  lemma ApplySettersIdempotent(p: Patch)
    ensures ApplySetters(ApplySetters(p)) == ApplySetters(p)
  {
    if p.email.Some? { NormalizeEmailIdempotent(p.email.value); }
    if p.firstName.Some? { TrimIdempotent(p.firstName.value); }
    if p.lastName.Some? { TrimIdempotent(p.lastName.value); }
    if p.password.Some? { TrimIdempotent(p.password.value); }
    if p.profile.Some? { TrimIdempotent(p.profile.value); }
  }

  // ---------------------------------------------------------------------
  // `$set`

  function Pick<T>(update: Option<T>, current: T): T {
    if update.Some? then update.value else current
  }

  function PickOpt<T>(update: Option<T>, current: Option<T>): Option<T> {
    if update.Some? then update else current
  }

  /** `{ $set: p }` on one document. */
  function ApplyPatch(a: Account, p: Patch): (r: Account)
    ensures r.id == a.id
    ensures p.firstName.Some? ==> r.firstName == p.firstName
    ensures p.firstName.None? ==> r.firstName == a.firstName
    ensures p.lastName.Some? ==> r.lastName == p.lastName
    ensures p.lastName.None? ==> r.lastName == a.lastName
    ensures p.email.Some? ==> r.email == p.email
    ensures p.email.None? ==> r.email == a.email
    ensures p.mobile.Some? ==> r.mobile == p.mobile
    ensures p.mobile.None? ==> r.mobile == a.mobile
    ensures p.password.Some? ==> r.password == p.password
    ensures p.password.None? ==> r.password == a.password
    ensures p.role.Some? ==> r.role == p.role.value
    ensures p.role.None? ==> r.role == a.role
    ensures p.profile.Some? ==> r.profile == p.profile
    ensures p.profile.None? ==> r.profile == a.profile
    ensures p.isBlocked.Some? ==> r.isBlocked == p.isBlocked.value
    ensures p.isBlocked.None? ==> r.isBlocked == a.isBlocked
    ensures p.isVerified.Some? ==> r.isVerified == p.isVerified.value
    ensures p.isVerified.None? ==> r.isVerified == a.isVerified
    ensures p.otp.Some? ==> r.otp == p.otp
    ensures p.otp.None? ==> r.otp == a.otp
    ensures p.fcmToken.Some? ==> r.fcmToken == p.fcmToken
    ensures p.fcmToken.None? ==> r.fcmToken == a.fcmToken
    ensures p == EmptyPatch ==> r == a
  {
    a.(firstName := PickOpt(p.firstName, a.firstName),
       lastName := PickOpt(p.lastName, a.lastName),
       email := PickOpt(p.email, a.email),
       mobile := PickOpt(p.mobile, a.mobile),
       password := PickOpt(p.password, a.password),
       role := Pick(p.role, a.role),
       profile := PickOpt(p.profile, a.profile),
       isBlocked := Pick(p.isBlocked, a.isBlocked),
       isVerified := Pick(p.isVerified, a.isVerified),
       otp := PickOpt(p.otp, a.otp),
       fcmToken := PickOpt(p.fcmToken, a.fcmToken))
  }

  /** Two `$set`s in a row: the later one wins on the fields it names. */
  function Then(p: Patch, q: Patch): Patch {
    Patch(PickOpt(q.firstName, p.firstName), PickOpt(q.lastName, p.lastName),
          PickOpt(q.email, p.email), PickOpt(q.mobile, p.mobile),
          PickOpt(q.password, p.password), PickOpt(q.role, p.role),
          PickOpt(q.profile, p.profile), PickOpt(q.isBlocked, p.isBlocked),
          PickOpt(q.isVerified, p.isVerified), PickOpt(q.otp, p.otp),
          PickOpt(q.fcmToken, p.fcmToken))
  }

  /** Applying the same `$set` again changes nothing. */
  lemma ApplyPatchIdempotent(a: Account, p: Patch)
    ensures ApplyPatch(ApplyPatch(a, p), p) == ApplyPatch(a, p)
  {
  }

  /** `$set p` then `$set q` is the single `$set` of their merge. */
  lemma ApplyPatchThen(a: Account, p: Patch, q: Patch)
    ensures ApplyPatch(ApplyPatch(a, p), q) == ApplyPatch(a, Then(p, q))
  {
  }

  /** A field the update does not mention keeps its stored value, and a field
      it mentions takes the update's value whatever was stored before. */
  lemma ApplyPatchFrame(a: Account, b: Account, p: Patch)
    requires a.id == b.id
    ensures ApplyPatch(a, p) == ApplyPatch(b, p) <==>
      (p.firstName.Some? || a.firstName == b.firstName) &&
      (p.lastName.Some? || a.lastName == b.lastName) &&
      (p.email.Some? || a.email == b.email) &&
      (p.mobile.Some? || a.mobile == b.mobile) &&
      (p.password.Some? || a.password == b.password) &&
      (p.role.Some? || a.role == b.role) &&
      (p.profile.Some? || a.profile == b.profile) &&
      (p.isBlocked.Some? || a.isBlocked == b.isBlocked) &&
      (p.isVerified.Some? || a.isVerified == b.isVerified) &&
      (p.otp.Some? || a.otp == b.otp) &&
      (p.fcmToken.Some? || a.fcmToken == b.fcmToken)
  {
    var x, y := ApplyPatch(a, p), ApplyPatch(b, p);
    if x == y {
      assert x.firstName == y.firstName && x.lastName == y.lastName && x.email == y.email;
      assert x.mobile == y.mobile && x.password == y.password && x.role == y.role;
      assert x.profile == y.profile && x.isBlocked == y.isBlocked && x.isVerified == y.isVerified;
      assert x.otp == y.otp && x.fcmToken == y.fcmToken;
    }
  }

  // ---------------------------------------------------------------------
  // Validators and defaults

  predicate IsAsciiLetter(c: char) {
    ('a' <= c <= 'z') || ('A' <= c <= 'Z')
  }

  /** `s.match(cls)` for a one-character class: the index of the first
      character of `s` in the class, if any. */
  function FirstIn(s: string, cls: char -> bool): (r: Option<nat>)
    ensures r.Some? ==> r.value < |s| && cls(s[r.value])
    ensures r.Some? ==> forall j :: 0 <= j < r.value ==> !cls(s[j])
    ensures r.None? ==> forall j :: 0 <= j < |s| ==> !cls(s[j])
  {
    if s == [] then None
    else if cls(s[0]) then Some(0)
    else
      var rest := FirstIn(s[1..], cls);
      if rest.Some? then Some(rest.value + 1) else None
  }

  const MinPasswordLength: nat := 8

  /** The password path's `minlength: 8` and its validator
      (`value.match(/\d/)` and `value.match(/[a-zA-Z]/)`), checked on the
      value left by the `trim` setter. */
  predicate PasswordAccepted(p: string) {
    Utf16Length(p) >= MinPasswordLength && FirstIn(p, IsDigit).Some? && FirstIn(p, IsAsciiLetter).Some?
  }

  /** The password policy: at least eight UTF-16 code units (the `length`
      `minlength` measures), among them an ASCII digit and an ASCII letter. */
  lemma PasswordPolicy(p: string)
    ensures PasswordAccepted(p) <==>
      Utf16Length(p) >= 8 && (exists i :: 0 <= i < |p| && IsDigit(p[i])) &&
      (exists i :: 0 <= i < |p| && IsAsciiLetter(p[i]))
  {
    var d, l := FirstIn(p, IsDigit), FirstIn(p, IsAsciiLetter);
    if d.Some? { assert IsDigit(p[d.value]); }
    if l.Some? { assert IsAsciiLetter(p[l.value]); }
  }

  /** Characters outside the Basic Multilingual Plane count twice: five
      characters, three of them emoji, meet the minimum length. */
  lemma AstralPasswordAccepted()
    ensures PasswordAccepted("a1\U{1F600}\U{1F600}\U{1F600}")
    ensures |"a1\U{1F600}\U{1F600}\U{1F600}"| == 5
  {
    var p := "a1\U{1F600}\U{1F600}\U{1F600}";
    assert IsDigit(p[1]) && IsAsciiLetter(p[0]);
    assert p[1..][1..][1..][1..][1..] == [];
  }

  /** A String path marked `required` rejects a missing or empty value. */
  predicate Present(o: Option<string>) {
    o.Some? && |o.value| > 0
  }

  /** What the schema accepts as a new account, after the setters. */
  predicate BodyAccepted(b: Patch) {
    && Present(b.firstName) && Present(b.lastName) && Present(b.email) && Present(b.password)
    && PasswordAccepted(b.password.value)
    && (b.role.None? || IsRole(b.role.value))
  }

  /** `required` is checked on the value the `trim` setters leave, so a
      required path holding only white space is refused like a missing one,
      and an accepted body gives every required path. */
  lemma RequiredAfterTrim(b: Patch)
    ensures BodyAccepted(ApplySetters(b)) ==>
              b.firstName.Some? && b.lastName.Some? && b.email.Some? && b.password.Some?
    ensures b.firstName.Some? && Trim(b.firstName.value) == [] ==> !BodyAccepted(ApplySetters(b))
    ensures b.lastName.Some? && Trim(b.lastName.value) == [] ==> !BodyAccepted(ApplySetters(b))
    ensures b.email.Some? && Trim(b.email.value) == [] ==> !BodyAccepted(ApplySetters(b))
    ensures b.password.Some? && Trim(b.password.value) == [] ==> !BodyAccepted(ApplySetters(b))
  {
  }

  /** The pre-save hook: the password is replaced by its bcrypt hash only
      when it was modified; nothing else changes. */
  function PreSave(doc: Account, passwordModified: bool, hash: string -> string): (r: Account)
    ensures r == doc.(password := r.password)
    ensures passwordModified && doc.password.Some? ==> r.password == Some(hash(doc.password.value))
    ensures !passwordModified ==> r == doc
  {
    if passwordModified && doc.password.Some? then doc.(password := Some(hash(doc.password.value))) else doc
  }

  /** Saving a stored account again without touching its password leaves
      the stored hash as it was, however often it is saved. */
  lemma ResaveKeepsHash(doc: Account, hash: string -> string, saves: nat)
    ensures Resave(PreSave(doc, true, hash), hash, saves) == PreSave(doc, true, hash)
  {
    if saves > 0 {
      ResaveKeepsHash(doc, hash, saves - 1);
    }
  }

  function Resave(doc: Account, hash: string -> string, saves: nat): Account {
    if saves == 0 then doc else PreSave(Resave(doc, hash, saves - 1), false, hash)
  }

  /** The document created from a new account's body with id `id`: the
      setters, then validation, then the defaults (`role` user, `isBlocked`
      false, `isVerified` absent hence false), then the pre-save hash. */
  function NewAccount(id: AccountId, body: Patch, hash: string -> string): (r: Result<Account, Error>)
    ensures r.Success? <==> BodyAccepted(ApplySetters(body))
    ensures r.Failure? ==> r.error == UserValidationFailed
    ensures r.Success? ==> && r.value.id == id
                           && r.value.email == Some(NormalizeEmail(body.email.value))
                           && r.value.mobile == body.mobile
                           && r.value.password == Some(hash(Trim(body.password.value)))
                           && IsRole(r.value.role)
                           && r.value.role == body.role.GetOr(UserRole)
                           && r.value.isBlocked == body.isBlocked.GetOr(false)
                           && r.value.isVerified == body.isVerified.GetOr(false)
    ensures r.Success? ==> && r.value.firstName == TrimOpt(body.firstName)
                           && r.value.lastName == TrimOpt(body.lastName)
                           && r.value.profile == TrimOpt(body.profile)
                           && r.value.otp == body.otp
                           && r.value.fcmToken == body.fcmToken
  {
    var b := ApplySetters(body);
    if !BodyAccepted(b) then Failure(UserValidationFailed)
    else
      var doc := Account(id, b.firstName, b.lastName, b.email, b.mobile, b.password,
                         b.role.GetOr(UserRole), b.profile, b.isBlocked.GetOr(false),
                         b.isVerified.GetOr(false), b.otp, b.fcmToken);
      Success(PreSave(doc, true, hash))
  }

  /** The minimal account the OTP request creates for an unknown mobile. */
  function MinimalAccount(id: AccountId, mobile: string, otp: int): (a: Account)
    ensures a.id == id && a.mobile == Some(mobile) && a.otp == Some(otp)
    ensures a.role == UserRole && !a.isBlocked && !a.isVerified
    ensures a.email.None? && a.password.None?
  {
    Account(id, None, None, None, Some(mobile), None, UserRole, None, false, false, Some(otp), None)
  }

  // ---------------------------------------------------------------------
  // isPasswordMatch

  /** bcrypt's comparison of a plain password with the stored hash succeeds. */
  predicate PasswordMatches(a: Account, password: string, compare: (string, string) -> bool) {
    a.password.Some? && compare(password, a.password.value)
  }

  /** `isPasswordMatch`: bcrypt's comparison of `password` with the stored
      hash. It rejects with bcrypt's error when there is no hash, rejects
      when the comparison fails, and otherwise resolves with the account
      object plus `match: true`. */
  function IsPasswordMatch(a: Account, password: string, compare: (string, string) -> bool): (r: Result<UserObject, Error>)
    ensures r.Success? <==> PasswordMatches(a, password, compare)
    ensures r.Success? ==> r.value == UserObject(a, Some(true))
    ensures r.Failure? ==> r.error == (if a.password.None? then PasswordCompareFailed else PasswordMismatch)
  {
    if a.password.None? then Failure(PasswordCompareFailed)
    else if !compare(password, a.password.value) then Failure(PasswordMismatch)
    else Success(UserObject(a, Some(true)))
  }

  // ---------------------------------------------------------------------
  // The account collection

  /** The unique index on email: no two accounts hold the same email. */
  ghost predicate EmailsUnique(docs: map<AccountId, Account>) {
    forall j, k :: j in docs && k in docs && j != k && docs[j].email.Some? ==> docs[j].email != docs[k].email
  }

  /** Every stored email went through the email setters. */
  ghost predicate EmailsNormalized(docs: map<AccountId, Account>) {
    forall k :: k in docs && docs[k].email.Some? ==> NormalizeEmail(docs[k].email.value) == docs[k].email.value
  }

  /** No two accounts share a mobile number. Account creation and the OTP
      request keep it; `updateProfile` does not check it. */
  ghost predicate MobilesUnique(docs: map<AccountId, Account>) {
    forall j, k :: j in docs && k in docs && j != k && docs[j].mobile.Some? ==> docs[j].mobile != docs[k].mobile
  }

  /** Some account other than `excl` holds `email` (the filter
      `{ email, _id: { $ne: excl } }`; a missing value matches accounts
      without the field, as `null` does in a query). */
  predicate HoldsEmail(docs: map<AccountId, Account>, email: Option<string>, excl: Option<AccountId>) {
    exists k :: k in docs && docs[k].email == email && Some(k) != excl
  }

  /** Some account holds `mobile` (the filter `{ mobile }`). */
  predicate HoldsMobile(docs: map<AccountId, Account>, mobile: Option<string>) {
    exists k :: k in docs && docs[k].mobile == mobile
  }

  /** What getUserByEmail resolves with: the account holding the email, or
      the error 'User does not exists'. */
  ghost function AccountWithEmail(docs: map<AccountId, Account>, email: string): Result<Account, Error> {
    var q := Some(NormalizeEmail(email));
    if exists k :: k in docs && docs[k].email == q then
      var k :| k in docs && docs[k].email == q;
      Success(docs[k])
    else Failure(UserDoesNotExist)
  }

  /** The collection's invariant: every account is filed under its own id,
      below the next id to hand out, and the email index holds. */
  ghost predicate Consistent(docs: map<AccountId, Account>, nextId: AccountId) {
    && (forall k :: k in docs ==> docs[k].id == k && k < nextId)
    && EmailsUnique(docs)
    && EmailsNormalized(docs)
  }

  /** Adding an account under a fresh id keeps the invariant, provided its
      email is normalized and held by no one. */
  lemma InsertKeepsConsistent(docs: map<AccountId, Account>, nextId: AccountId, a: Account)
    requires Consistent(docs, nextId)
    requires a.id == nextId
    requires a.email.Some? ==> !HoldsEmail(docs, a.email, None) && NormalizeEmail(a.email.value) == a.email.value
    ensures nextId !in docs
    ensures Consistent(docs[nextId := a], nextId + 1)
  {
    var d := docs[nextId := a];
    forall j, k | j in d && k in d && j != k && d[j].email.Some?
      ensures d[j].email != d[k].email
    {
      if j == nextId {
        assert docs[k].email != a.email;
      } else if k == nextId {
        assert docs[j].email != a.email;
      }
    }
    assert EmailsUnique(d);
    assert EmailsNormalized(d) by {
      forall k | k in d && d[k].email.Some?
        ensures NormalizeEmail(d[k].email.value) == d[k].email.value
      {
        if k != nextId { assert d[k] == docs[k]; }
      }
    }
    assert forall k :: k in d ==> d[k].id == k && k < nextId + 1;
  }

  /** Replacing a stored account keeps the invariant, provided its email is
      normalized and held by no other account. */
  lemma ReplaceKeepsConsistent(docs: map<AccountId, Account>, nextId: AccountId, u: Account)
    requires Consistent(docs, nextId) && u.id in docs
    requires u.email.Some? ==> !HoldsEmail(docs, u.email, Some(u.id)) && NormalizeEmail(u.email.value) == u.email.value
    ensures Consistent(docs[u.id := u], nextId)
  {
    var d := docs[u.id := u];
    forall j, k | j in d && k in d && j != k && d[j].email.Some?
      ensures d[j].email != d[k].email
    {
      if j == u.id {
        assert docs[k].email != u.email;
      } else if k == u.id {
        assert docs[j].email != u.email;
      }
    }
    assert EmailsUnique(d);
    assert EmailsNormalized(d) by {
      forall k | k in d && d[k].email.Some?
        ensures NormalizeEmail(d[k].email.value) == d[k].email.value
      {
        if k != u.id { assert d[k] == docs[k]; }
      }
    }
    assert forall k :: k in d ==> d[k].id == k && k < nextId;
  }

  /** Adding an account whose mobile number no one holds keeps mobile
      numbers unique. */
  lemma InsertKeepsMobilesUnique(docs: map<AccountId, Account>, a: Account)
    requires MobilesUnique(docs) && a.id !in docs
    requires a.mobile.Some? ==> !HoldsMobile(docs, a.mobile)
    ensures MobilesUnique(docs[a.id := a])
  {
    var d := docs[a.id := a];
    forall j, k | j in d && k in d && j != k && d[j].mobile.Some?
      ensures d[j].mobile != d[k].mobile
    {
      if j == a.id {
        assert docs[k].mobile != a.mobile;
      } else if k == a.id {
        assert docs[j].mobile != a.mobile;
      }
    }
  }

  /** Replacing an account by one with the same mobile number keeps mobile
      numbers unique. */
  lemma ReplaceKeepsMobilesUnique(docs: map<AccountId, Account>, k: AccountId, a: Account)
    requires MobilesUnique(docs) && k in docs && a.mobile == docs[k].mobile
    ensures MobilesUnique(docs[k := a])
  {
    var d := docs[k := a];
    forall i, j | i in d && j in d && i != j && d[i].mobile.Some?
      ensures d[i].mobile != d[j].mobile
    {
      assert d[i].mobile == docs[i].mobile && d[j].mobile == docs[j].mobile;
    }
  }

  /** Marks the account `id` verified, if it is stored. */
  function MarkVerified(docs: map<AccountId, Account>, id: AccountId): (r: map<AccountId, Account>)
    ensures r.Keys == docs.Keys
    ensures id in docs ==> r[id] == docs[id].(isVerified := true)
    ensures forall k :: k in docs && k != id ==> r[k] == docs[k]
  {
    if id in docs then docs[id := docs[id].(isVerified := true)] else docs
  }

  /** The `$set` that marks an account verified. */
  const VerifiedPatch: Patch := EmptyPatch.(isVerified := Some(true))

  /** The account collection. */
  class Users {
    var docs: map<AccountId, Account>
    var nextId: AccountId

    ghost predicate Valid()
      reads this
    {
      Consistent(docs, nextId)
    }

    constructor ()
      ensures Valid() && docs == map[] && nextId == 0
    {
      docs := map[];
      nextId := 0;
    }

    /** `isEmailTaken(email, excludeUserId)`: some account other than the
        excluded one holding the email, or none. */
    method IsEmailTaken(email: Option<string>, excl: Option<AccountId>) returns (r: Option<Account>)
      requires Valid()
      ensures r.Some? <==> HoldsEmail(docs, EmailValue(email), excl)
      ensures r.Some? ==> && r.value.id in docs && docs[r.value.id] == r.value
                          && r.value.email == EmailValue(email) && Some(r.value.id) != excl
    {
      var q := EmailValue(email);
      if k :| k in docs && docs[k].email == q && Some(k) != excl {
        r := Some(docs[k]);
      } else {
        r := None;
      }
    }

    /** `getUserByEmail`: the account holding the email, or the error
        'User does not exists'. */
    method GetUserByEmail(email: string) returns (r: Result<Account, Error>)
      requires Valid()
      ensures r == AccountWithEmail(docs, email)
      ensures r.Failure? <==> !HoldsEmail(docs, Some(NormalizeEmail(email)), None)
      ensures r.Failure? ==> r.error == UserDoesNotExist
      ensures r.Success? ==> && r.value.id in docs && docs[r.value.id] == r.value
                             && r.value.email == Some(NormalizeEmail(email))
    {
      var q := Some(NormalizeEmail(email));
      if k :| k in docs && docs[k].email == q {
        r := Success(docs[k]);
        ghost var k' :| k' in docs && docs[k'].email == q && AccountWithEmail(docs, email) == Success(docs[k']);
        assert k' == k;
      } else {
        r := Failure(UserDoesNotExist);
      }
    }

    /** The lookup by mobile number behind `verifyMobile` and
        `getUserByMobile`: some account holding the number, or none. */
    method FindByMobile(mobile: Option<string>) returns (r: Option<Account>)
      requires Valid()
      ensures r.Some? <==> HoldsMobile(docs, mobile)
      ensures r.Some? ==> && r.value.id in docs && docs[r.value.id] == r.value
                          && r.value.mobile == mobile
      ensures r.Some? && mobile.Some? && MobilesUnique(docs) ==>
                forall k :: k in docs && docs[k].mobile == mobile ==> docs[k] == r.value
    {
      if k :| k in docs && docs[k].mobile == mobile {
        r := Some(docs[k]);
      } else {
        r := None;
      }
    }

    /** `getUserById`. */
    function GetUserById(id: AccountId): (r: Option<Account>)
      reads this
      ensures r.Some? <==> id in docs
      ensures r.Some? ==> r.value == docs[id]
    {
      if id in docs then Some(docs[id]) else None
    }

    /** The static `updateProfile(id, params)`, i.e. `findByIdAndUpdate(id,
        { $set: params })`: the setters run on the update, the unique index
        on email refuses a duplicate, no validator or pre-save hook runs, and
        the promise resolves with the document as it was BEFORE the update
        (or with null when no account has the id). */
    method UpdateProfile(id: AccountId, p: Patch) returns (r: Result<Option<Account>, Error>)
      requires Valid()
      modifies this
      ensures Valid() && nextId == old(nextId)
      ensures id !in old(docs) ==> r == Success(None) && docs == old(docs)
      ensures id in old(docs) ==>
        var updated := ApplyPatch(old(docs)[id], ApplySetters(p));
        if updated.email.Some? && HoldsEmail(old(docs), updated.email, Some(id))
        then r == Failure(DuplicateEmail) && docs == old(docs)
        else r == Success(Some(old(docs)[id])) && docs == old(docs)[id := updated]
    {
      if id !in docs {
        r := Success(None);
        return;
      }
      var before := docs[id];
      var q := ApplySetters(p);
      var updated := ApplyPatch(before, q);
      if updated.email.Some? && HoldsEmail(docs, updated.email, Some(id)) {
        r := Failure(DuplicateEmail);
        return;
      }
      if q.email.Some? {
        NormalizeEmailIdempotent(p.email.value);
      }
      ReplaceKeepsConsistent(docs, nextId, updated);
      docs := docs[id := updated];
      r := Success(Some(before));
    }

    /** Creating an account from a body (`UserModel.createUser`, which is
        not part of this model): the schema's setters, validators and
        defaults, the pre-save hash, and the unique index on email. */
    method Create(body: Patch, hash: string -> string) returns (r: Result<Account, Error>)
      requires Valid()
      modifies this
      ensures Valid()
      ensures var made := NewAccount(old(nextId), body, hash);
        if made.Failure? then r == made && docs == old(docs) && nextId == old(nextId)
        else if HoldsEmail(old(docs), made.value.email, None)
        then r == Failure(DuplicateEmail) && docs == old(docs) && nextId == old(nextId)
        else && r == made && old(nextId) !in old(docs)
             && docs == old(docs)[old(nextId) := made.value]
             && nextId == old(nextId) + 1
    {
      var made := NewAccount(nextId, body, hash);
      if made.Failure? {
        r := made;
        return;
      }
      if HoldsEmail(docs, made.value.email, None) {
        r := Failure(DuplicateEmail);
        return;
      }
      NormalizeEmailIdempotent(body.email.value);
      InsertKeepsConsistent(docs, nextId, made.value);
      docs := docs[nextId := made.value];
      nextId := nextId + 1;
      r := made;
    }

    /** Creating the minimal account of an OTP request for an unknown
        mobile (`createuserAndSendOTP`, whose store effect is modelled; the
        SMS it sends is not). */
    method CreateWithOtp(mobile: string, otp: int) returns (a: Account)
      requires Valid()
      modifies this
      ensures Valid()
      ensures a == MinimalAccount(old(nextId), mobile, otp)
      ensures a.id !in old(docs) && docs == old(docs)[a.id := a] && nextId == old(nextId) + 1
    {
      a := MinimalAccount(nextId, mobile, otp);
      InsertKeepsConsistent(docs, nextId, a);
      docs := docs[nextId := a];
      nextId := nextId + 1;
    }

    /** `setOTP(mobile, otp)`: overwrites the code of the account holding
        the mobile number, if any. */
    method SetOtp(mobile: string, otp: int)
      requires Valid()
      modifies this
      ensures Valid() && nextId == old(nextId) && docs.Keys == old(docs).Keys
      ensures HoldsMobile(old(docs), Some(mobile)) ==>
        exists k :: k in old(docs) && old(docs)[k].mobile == Some(mobile)
                    && docs == old(docs)[k := old(docs)[k].(otp := Some(otp))]
      ensures !HoldsMobile(old(docs), Some(mobile)) ==> docs == old(docs)
    {
      if k :| k in docs && docs[k].mobile == Some(mobile) {
        docs := docs[k := docs[k].(otp := Some(otp))];
      }
    }
  }
}
