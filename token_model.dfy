/** The token record of src/models/token.model.js: its shape, the `type`
    enum, the `blacklisted` default, schema validation on create, and the
    token collection with `createToken`, `findToken` and `remove`. */
module TokenModel {
  import opened Wrappers
  import opened Errors
  import opened UserModel

  /** `tokenTypes`. */
  datatype TokenType = Access | Refresh | ResetPassword | VerifyEmail

  function TypeName(t: TokenType): string {
    match t
    case Access => "access"
    case Refresh => "refresh"
    case ResetPassword => "resetPassword"
    case VerifyEmail => "verifyEmail"
  }

  /** The token type a string names, if any. */
  function ParseType(s: string): (r: Option<TokenType>)
    ensures r.Some? ==> TypeName(r.value) == s
  {
    if s == "access" then Some(Access)
    else if s == "refresh" then Some(Refresh)
    else if s == "resetPassword" then Some(ResetPassword)
    else if s == "verifyEmail" then Some(VerifyEmail)
    else None
  }

  /** Every type's name parses back to the type. */
  lemma ParseTypeName(t: TokenType)
    ensures ParseType(TypeName(t)) == Some(t)
  {
  }

  /** The schema's enum for `type`: access tokens are not in it. */
  predicate Storable(t: TokenType) {
    t != Access
  }

  /** A stored token record. */
  datatype TokenRecord = TokenRecord(
    token: string,
    user: AccountId,
    tokenType: TokenType,
    expires: int,
    blacklisted: bool)

  /** The object given to `createToken`; `None` is a field it does not
      hold. */
  datatype TokenDraft = TokenDraft(
    token: Option<string>,
    user: Option<AccountId>,
    tokenType: Option<string>,
    expires: Option<int>,
    blacklisted: Option<bool>)

  /** Schema validation of a new record: `token` (a non-empty string),
      `user`, `type` and `expires` are required, `type` must be in the enum,
      and `blacklisted` defaults to false. */
  function ValidateToken(d: TokenDraft): (r: Result<TokenRecord, Error>)
    ensures r.Success? <==> && d.token.Some? && |d.token.value| > 0 && d.user.Some?
                            && d.tokenType.Some? && d.tokenType.value in {"refresh", "resetPassword", "verifyEmail"}
                            && d.expires.Some?
    ensures r.Failure? ==> r.error == TokenValidationFailed
    ensures r.Success? ==> && Storable(r.value.tokenType)
                           && r.value == TokenRecord(d.token.value, d.user.value, r.value.tokenType,
                                                     d.expires.value, d.blacklisted.GetOr(false))
                           && TypeName(r.value.tokenType) == d.tokenType.value
  {
    if d.token.None? || |d.token.value| == 0 || d.user.None? || d.tokenType.None? || d.expires.None? then
      Failure(TokenValidationFailed)
    else
      var t := ParseType(d.tokenType.value);
      if t.None? || !Storable(t.value) then Failure(TokenValidationFailed)
      else Success(TokenRecord(d.token.value, d.user.value, t.value, d.expires.value, d.blacklisted.GetOr(false)))
  }

  /** The filter of `findToken`: all four fields must agree. */
  datatype TokenQuery = TokenQuery(token: string, tokenType: TokenType, user: AccountId, blacklisted: bool)

  predicate Matches(r: TokenRecord, q: TokenQuery) {
    r.token == q.token && r.tokenType == q.tokenType && r.user == q.user && r.blacklisted == q.blacklisted
  }

  /** The position of the first record matching `q`, in the collection's
      natural order (what `findOne` returns). */
  function FirstMatch(s: seq<TokenRecord>, q: TokenQuery): (r: Option<nat>)
    ensures r.Some? ==> r.value < |s| && Matches(s[r.value], q)
    ensures r.Some? ==> forall j :: 0 <= j < r.value ==> !Matches(s[j], q)
    ensures r.None? <==> forall j :: 0 <= j < |s| ==> !Matches(s[j], q)
  {
    if s == [] then None
    else if Matches(s[0], q) then Some(0)
    else
      var rest := FirstMatch(s[1..], q);
      assert forall j :: 1 <= j < |s| ==> s[j] == s[1..][j - 1];
      if rest.Some? then Some(rest.value + 1) else None
  }

  /** How many records match `q`. */
  function CountMatches(s: seq<TokenRecord>, q: TokenQuery): nat {
    if s == [] then 0 else (if Matches(s[0], q) then 1 else 0) + CountMatches(s[1..], q)
  }

  /** No record matches exactly when none is counted. */
  lemma {:induction false} CountZero(s: seq<TokenRecord>, q: TokenQuery)
    ensures CountMatches(s, q) == 0 <==> FirstMatch(s, q).None?
  {
    if s != [] {
      CountZero(s[1..], q);
    }
  }

  lemma {:induction false} CountAppend(s: seq<TokenRecord>, t: seq<TokenRecord>, q: TokenQuery)
    ensures CountMatches(s + t, q) == CountMatches(s, q) + CountMatches(t, q)
  {
    if s == [] {
      assert s + t == t;
    } else {
      assert (s + t)[1..] == s[1..] + t;
      CountAppend(s[1..], t, q);
    }
  }

  /** The collection without its `i`th record. */
  function RemoveAt(s: seq<TokenRecord>, i: nat): (r: seq<TokenRecord>)
    requires i < |s|
    ensures |r| == |s| - 1
    ensures forall j :: 0 <= j < i ==> r[j] == s[j]
    ensures forall j :: i <= j < |r| ==> r[j] == s[j + 1]
  {
    s[..i] + s[i + 1..]
  }

  /** Removing a record takes exactly its own contribution off every count. */
  lemma CountRemoveAt(s: seq<TokenRecord>, i: nat, q: TokenQuery)
    requires i < |s|
    ensures CountMatches(RemoveAt(s, i), q) == CountMatches(s, q) - (if Matches(s[i], q) then 1 else 0)
  {
    assert s == s[..i] + ([s[i]] + s[i + 1..]);
    CountAppend(s[..i], [s[i]] + s[i + 1..], q);
    CountAppend([s[i]], s[i + 1..], q);
    CountAppend(s[..i], s[i + 1..], q);
  }

  /** Every stored record has a type in the schema's enum. */
  ghost predicate AllStorable(s: seq<TokenRecord>) {
    forall i :: 0 <= i < |s| ==> Storable(s[i].tokenType)
  }

  /** The token collection, in natural order. */
  class Tokens {
    var records: seq<TokenRecord>

    ghost predicate Valid()
      reads this
    {
      AllStorable(records)
    }

    constructor ()
      ensures Valid() && records == []
    {
      records := [];
    }

    /** `createToken(tokenConfig)`: validates the draft and, when it is
        accepted, stores exactly the resulting record. */
    method CreateToken(d: TokenDraft) returns (r: Result<TokenRecord, Error>)
      requires Valid()
      modifies this
      ensures Valid()
      ensures r == ValidateToken(d)
      ensures r.Success? ==> records == old(records) + [r.value]
      ensures r.Failure? ==> records == old(records)
    {
      r := ValidateToken(d);
      if r.Success? {
        records := records + [r.value];
      }
    }

    /** `findToken(filter)`: the position of the first matching record. */
    function FindToken(q: TokenQuery): (r: Option<nat>)
      reads this
      ensures r.Some? ==> r.value < |records| && Matches(records[r.value], q)
      ensures r.None? <==> CountMatches(records, q) == 0
    {
      CountZero(records, q);
      FirstMatch(records, q)
    }

    /** `oldToken.remove()`: deletes the record at position `i`. */
    method Remove(i: nat)
      requires Valid() && i < |records|
      modifies this
      ensures Valid()
      ensures records == RemoveAt(old(records), i)
    {
      records := RemoveAt(records, i);
    }
  }
}
