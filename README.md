# Credential and activation core of object-identity

A Dafny model of the identity service's credential and activation logic.
It covers:

- password login;
- signed access and refresh tokens, and single-use refresh rotation;
- the OTP challenge keyed by mobile number;
- the activation step that marks an account verified and provisions its storage bucket;
- account creation and profile update;
- the schema rules these rely on, from the user and token models.

The model has six files:

| file | module | models |
|---|---|---|
| `wrappers.dfy` | `Wrappers` | `Option` and `Result` |
| `errors.dfy` | `Errors` | one constructor per failure the code raises |
| `js_string.dfy` | `JsString` | the JavaScript string builtins the code relies on: `trim`, ASCII `toLowerCase`, `parseInt(s, 10)`, decimal rendering |
| `user_model.dfy` | `UserModel` | the user schema: setters, validators, defaults, pre-save hash, `$set`, `isPasswordMatch`; class `Users` is the user collection |
| `token_model.dfy` | `TokenModel` | the token schema and `createToken`; class `Tokens` is the token collection |
| `user_processor.dfy` | `UserProcessor` | the processor: issuance, login, refresh, OTP, activation, creation, profile update |

Both collections are classes whose methods change their fields.

- `Users.docs` maps account id to account. `Users.nextId` is the id the next insert receives.
- `Tokens.records` is a sequence in natural order, so `findOne` is the first matching record.
- `BucketService.requests` logs the bucket creations asked for.

The invariant `Users.Valid()` holds through every operation. It says:

- ids are filed under their own key;
- emails are stored normalized;
- no two accounts share an email.

`Tokens.Valid()` says access tokens are never stored.

Collaborators the code calls but does not define are parameters:

- `sign` for `jwt.sign` with the configured secret;
- `verify` for `utils.verifyJWTToken`, given the time of the check;
- `compare` for `bcrypt.compare`;
- `hash` for `bcrypt.hash`;
- boolean answers from the bucket service;
- `now` in whole seconds;
- the integer part `draw` of `Math.random() * 899999`.

`SignerSound(sign, verify)` states what the model assumes of the verifier: it decodes a signed payload to exactly that payload before the payload's `exp`, and rejects it from `exp` on. The lemmas about token contents assume it. Strings that `sign` did not produce are not constrained.

Store operations that the code uses but that the model files do not define are modelled by what their names say:

- `verifyMobile` becomes `Users.FindByMobile`;
- `getUserByMobile` also becomes `Users.FindByMobile`;
- `setOTP` becomes `Users.SetOtp`;
- `createuserAndSendOTP` becomes `Users.CreateWithOtp`;
- `UserModel.createUser` becomes `Users.Create`;
- `findToken` becomes `Tokens.FindToken`;
- `remove` becomes `Tokens.Remove`.

Assumptions made where the code relies on behaviour outside these files:

- **The schema holds more fields than it lists.** It declares no `mobile`, `otp`, `isVerified` or `fcmToken`, yet the processor stores and reads all four. The model treats them as schema fields, so `$set` writes them.
- **Setters run on queries too.** Mongoose applies a path's setters to query values, so an email filter is trimmed and lowercased before it is compared.
- **`findByIdAndUpdate` returns the old document.** It resolves with the document as it was before the update. It runs neither validators nor the pre-save hook.
- **The imports resolve.** The processor imports `{ UserModel }` and `{ TokenModel, tokenTypes }`, but the model files export `{ model, types }`. Taken literally, both names would be undefined. The model reads them as the exported `model` and `types`.

Behaviour one might expect of an identity service that this code does not have, and the model therefore does not have either:

- a six-digit OTP range reaching 999999 (`generateOTP` gives at most 999998);
- an OTP expiry time;
- a flag recording that the bucket was created;
- clearing the stored OTP once it has been used.

The members named `...AsWritten` model the code exactly as written where it has a bug (see "## Findings"). The composed flows `GetAccessToken` and `VerifyOtpAndUser` use the corrected members instead, as their rows say.

## Model

| member | source | states |
|---|---|---|
| JsString.Trim | src/models/user.model.js:27 | the `trim` setter yields a contiguous slice of its input that has no white space at either end, and every character dropped before or after it is white space |
| JsString.TrimFixedPoint | src/models/user.model.js:27 | trimming leaves a string unchanged exactly when it has no leading or trailing whitespace |
| JsString.TrimIdempotent | src/models/user.model.js:27 | trimming twice is trimming once |
| JsString.ToLower | src/models/user.model.js:28 | the `lowercase` setter keeps the length and lowers each character, leaving no upper-case letter |
| JsString.ToLowerIdempotent | src/models/user.model.js:28 | lowercasing twice is lowercasing once |
| JsString.ToLowerKeepsTrimmed | src/models/user.model.js:27-28 | lowercasing a trimmed string leaves it trimmed |
| JsString.Decimal | src/processors/user.processor.js:265 | the decimal text of a number is a non-empty digit string with no leading zero |
| JsString.ParseInt | src/processors/user.processor.js:265 | `parseInt(s, 10)` is NaN exactly when no digit follows the leading whitespace and optional sign |
| JsString.ParseDecimal | src/processors/user.processor.js:265 | parsing the decimal text of a number gives that number back |
| JsString.DecimalLength | src/processors/user.processor.js:233-236 | a number in [10^k, 10^(k+1)) has k+1 decimal digits |
| JsString.Utf16Length | src/models/user.model.js:45 | the `length` that `minlength` measures counts UTF-16 code units: at least one per character and at most two |
| JsString.Utf16LengthOfBmp | src/models/user.model.js:45 | on text inside the Basic Multilingual Plane, `length` is the number of characters |
| UserModel.NormalizeEmail | src/models/user.model.js:23-28 | a stored email is the trimmed input with each character lowered: the same length as the trimmed input, trimmed, and with no upper-case letter |
| UserModel.NormalizeEmailIdempotent | src/models/user.model.js:23-28 | normalizing an email that is already normalized changes nothing |
| UserModel.EmailValue | src/models/user.model.js:78-80 | an email value in a filter or a `$set` is present exactly when given, and is then normalized |
| UserModel.ApplySetters | src/models/user.model.js:13-59 | the setters trim firstName, lastName, password and profile, normalize the email, and leave every other field as given |
| UserModel.ApplySettersIdempotent | src/models/user.model.js:13-59 | running the setters again on their output changes nothing |
| UserModel.ApplyPatch | src/models/user.model.js:112-114 | `$set` keeps the id, overwrites each given field, keeps each absent one, and the empty update is the identity |
| UserModel.ApplyPatchIdempotent | src/models/user.model.js:112-114 | applying the same `$set` twice is applying it once |
| UserModel.ApplyPatchThen | src/models/user.model.js:112-114 | two successive `$set`s equal one `$set` of their merge, later fields winning |
| UserModel.ApplyPatchFrame | src/models/user.model.js:112-114 | two accounts with the same id give the same result under a `$set` exactly when they agree on every field it does not give |
| UserModel.FirstIn | src/models/user.model.js:47 | a character-class search finds the first index in that class, or reports that none is |
| UserModel.PasswordPolicy | src/models/user.model.js:41-51 | a password is accepted (`PasswordAccepted`) exactly when it has at least 8 UTF-16 code units, including an ASCII digit and an ASCII letter |
| UserModel.AstralPasswordAccepted | src/models/user.model.js:41-51 | a five-character password with three emoji meets the 8-unit minimum, because each emoji counts twice |
| UserModel.RequiredAfterTrim | src/models/user.model.js:13-45 | an accepted body (`BodyAccepted`) gives every required path, and a required path holding only white space is refused, because `required` is checked after `trim` |
| UserModel.PreSave | src/models/user.model.js:98-104 | the pre-save hook changes only the password, and replaces it by its hash only when it was modified |
| UserModel.ResaveKeepsHash | src/models/user.model.js:98-104 | any number of later saves that do not modify the password keep the stored hash |
| UserModel.NewAccount | src/models/user.model.js:11-70 | creation succeeds exactly when the set values pass validation. Otherwise it fails with a validation error. On success: the email is normalized, the password is the hash of the trimmed input, role defaults to user and is a valid role, and isBlocked and isVerified default to false. firstName, lastName and profile are stored trimmed, and otp and fcmToken as given |
| UserModel.MinimalAccount | src/processors/user.processor.js:245 | the account created by an OTP request holds only the mobile number and the code: no email, no password, role user, unverified and unblocked |
| UserModel.IsPasswordMatch | src/models/user.model.js:87-96 | it resolves with the account and `match: true` exactly when the hash comparison succeeds. It rejects with the comparison error when there is no hash, and with 'Not a valid email and password' otherwise |
| UserModel.InsertKeepsConsistent | src/models/user.model.js:23-28 | inserting a normalized account whose email no other account holds keeps emails unique and normalized |
| UserModel.ReplaceKeepsConsistent | src/models/user.model.js:23-28 | replacing an account by one whose email no other account holds keeps emails unique and normalized |
| UserModel.InsertKeepsMobilesUnique | src/processors/user.processor.js:66-74 | inserting an account whose mobile no account holds keeps mobile numbers unique |
| UserModel.ReplaceKeepsMobilesUnique | src/processors/user.processor.js:243 | rewriting an account without changing its mobile keeps mobile numbers unique |
| UserModel.MarkVerified | src/processors/user.processor.js:277 | marking an account verified changes that account's isVerified flag and nothing else in the collection |
| UserModel.Users.constructor | src/models/user.model.js:131 | a new collection is empty and valid |
| UserModel.Users.IsEmailTaken | src/models/user.model.js:78-80 | it finds an account exactly when one other than the excluded id holds the normalized email, and the one found does |
| UserModel.Users.GetUserByEmail | src/models/user.model.js:122-126 | it resolves with the unique account holding the normalized email, or rejects 'User does not exists' exactly when there is none |
| UserModel.Users.FindByMobile | src/processors/user.processor.js:240 | it finds an account exactly when one holds the mobile number; with unique mobiles it finds that account |
| UserModel.Users.GetUserById | src/processors/user.processor.js:89 | it finds the account filed under the id, if any |
| UserModel.Users.UpdateProfile | src/models/user.model.js:112-114 | an unknown id gives null and no change. An email held by another account fails with a duplicate-key error and no change. Otherwise the stored account becomes its `$set` update and the reply is the account before the update |
| UserModel.Users.Create | src/processors/user.processor.js:74 | creation fails on validation or a duplicate email, with no change. Otherwise exactly one account is added under a fresh id |
| UserModel.Users.CreateWithOtp | src/processors/user.processor.js:245 | exactly one minimal account carrying the code is added under a fresh id |
| UserModel.Users.SetOtp | src/processors/user.processor.js:243 | the code of an account holding the mobile number is overwritten; no account is added or removed, and with no such account nothing changes |
| TokenModel.ParseType | src/models/token.model.js:3-8 | a type name parses to the type whose name it is |
| TokenModel.ParseTypeName | src/models/token.model.js:3-8 | every type's name parses back to that type |
| TokenModel.ValidateToken | src/models/token.model.js:12-34 | a record is accepted exactly when token, user, type and expires are all given, the token is non-empty, and the type is refresh, resetPassword or verifyEmail. An accepted record has exactly the given values, with blacklisted false when not given |
| TokenModel.FirstMatch | src/processors/user.processor.js:191-193 | a token query finds the first matching record, or reports that none matches |
| TokenModel.CountZero | src/processors/user.processor.js:191-193 | a query finds nothing exactly when no record matches it |
| TokenModel.CountAppend | src/models/token.model.js:48-50 | the records matching a query in two concatenated sequences are those of each |
| TokenModel.CountRemoveAt | src/processors/user.processor.js:196 | removing a record removes one match exactly when that record matched |
| TokenModel.Tokens.constructor | src/models/token.model.js:55 | a new collection is empty and valid |
| TokenModel.Tokens.CreateToken | src/models/token.model.js:48-50 | the result is the schema's verdict on the record; an accepted record is appended and nothing else changes |
| TokenModel.Tokens.FindToken | src/processors/user.processor.js:191-193 | it finds the first record matching the query |
| TokenModel.Tokens.Remove | src/processors/user.processor.js:196 | exactly the record at the given position is removed |
| UserProcessor.PublicView | src/processors/user.processor.js:97-101 | the user part of the reply is the account without its password hash, and is absent when only an id was given |
| UserProcessor.GenerateTokenDecodes | src/processors/user.processor.js:35-46 | a token from `generateToken` verifies to `{ sub, iat: now, exp, role, type }` before `exp`, and is rejected from `exp` on |
| UserProcessor.ExpiryOrder | src/processors/user.processor.js:104-110 | with non-negative lifetimes, `AccessExpiry` and `RefreshExpiry` are not before the issue time and are monotone in it. The refresh expiry is not before the access expiry when the days cover the minutes |
| UserProcessor.IssuedTokensDecode | src/processors/user.processor.js:35-46 | before their expiry, both issued tokens decode to subject, issue time now, role and type; from their expiry on they are rejected. Access expiry is now plus minutes times 60; refresh expiry is now plus days times 86400. The reply holds no password, and its refresh token and expiry are those of the stored record, which is a non-blacklisted refresh record for the subject |
| UserProcessor.GenerateAndSaveAuthToken | src/processors/user.processor.js:96-134 | exactly one refresh record is appended and the reply carries it, or the schema refuses an empty token and nothing changes |
| UserProcessor.LoginChecks | src/processors/user.processor.js:159-175 | login succeeds exactly when the email is known, the password matches, and the account is verified, not blocked and has its bucket. A wrong password fails before the verified and blocked checks. 'Invalid email' and 'Invalid password' are never raised once the account is found |
| UserProcessor.Authenticate | src/processors/user.processor.js:159-177 | a failing check changes nothing in either collection. A passing login writes only the fcmToken and appends exactly one refresh record, issuing the pair for the account as it was before the update |
| UserProcessor.RefreshSubjectAsWritten | src/processors/user.processor.js:198-200 | a refresh issues for the record's bare account id, with no role |
| UserProcessor.RefreshSubject | src/processors/user.processor.js:198-200 | a refresh issues for the record's account with the role of the presented token |
| UserProcessor.RefreshAsWrittenDropsRole | src/processors/user.processor.js:198-200 | as written, whenever a token from a refresh verifies, it lacks the role of the refresh token it replaced |
| UserProcessor.RotationKeepsIdentity | src/processors/user.processor.js:191-200 | with the corrected subject, a rotated pair verifies until its expiry, to the same account id and role as the refresh token it replaces |
| UserProcessor.RotationConsumes | src/processors/user.processor.js:194-197 | rotation takes the consumed record out of the query's matches, and the new record counts only if it matches too |
| UserProcessor.SecondUseFails | src/processors/user.processor.js:187-201 | once the only matching record is rotated into a different token, nothing matches the old one |
| UserProcessor.FreshTokenDiffers | src/processors/user.processor.js:35-46 | a refresh token whose payload was issued at a different second from now differs from the one the rotation issues now |
| UserProcessor.SameSecondRotationReplays | src/processors/user.processor.js:187-201 | with the corrected subject that `GetAccessToken` uses, a rotation in the second the presented token was issued, with the same subject, role and lifetime, stores that very token again, so the next presentation finds a matching record |
| UserProcessor.SameSecondRotationAsWritten | src/processors/user.processor.js:187-201 | as written, with the role dropped, a same-second rotation stores the consumed token again exactly when that token carried no role |
| UserProcessor.DuplicateRecordReplays | src/processors/user.processor.js:187-201 | when two records hold the presented token, one still matches after a rotation removes the other |
| UserProcessor.GetAccessToken | src/processors/user.processor.js:187-201 | a token that fails verification at the current time gives the verification error and changes nothing. So does one that no record matches on token, type refresh, subject and not blacklisted, with 'Not a valid refresh token'. Otherwise the first such record is removed, then the new pair is issued and saved. The new pair is issued through the corrected `RefreshSubject`, keeping the role, not through `RefreshSubjectAsWritten` |
| UserProcessor.RefreshTwice | src/processors/user.processor.js:187-201 | presenting the same signed refresh token again at any later time fails. Before its expiry the failure is 'Not a valid refresh token'; from its expiry on it is the verifier's failure. This holds under two guards: the token was not issued in the second of the first presentation, and exactly one record holds it. `SameSecondRotationReplays` and `DuplicateRecordReplays` show a second use succeeding without them |
| UserProcessor.VerifyEmail | src/processors/user.processor.js:18-25 | it rejects, with 'Account with same Email already exists', exactly when an account other than the excluded one holds the email |
| UserProcessor.CreateUser | src/processors/user.processor.js:63-82 | a taken email, then a taken mobile, then a validation failure each fail with no change. Otherwise exactly one account is added. Mobile numbers stay unique |
| UserProcessor.UpdateProfile | src/processors/user.processor.js:212-214 | an email held by another account fails with no change. Otherwise the account's `$set` update is stored and the updated account read back |
| UserProcessor.GenerateOtp | src/processors/user.processor.js:236 | every code lies in [100000, 999998] and has six decimal digits |
| UserProcessor.GenerateOtpRange | src/processors/user.processor.js:236 | the codes that can be drawn are exactly those in [100000, 999998] |
| UserProcessor.OtpCheckExact | src/processors/user.processor.js:265 | the decimal text of a number passes the check against a stored code exactly when it is that code |
| UserProcessor.VerifyUserAndGenerateOtp | src/processors/user.processor.js:238-251 | the reply is the mobile and the drawn code. For a known mobile only that account's code is overwritten and the count is unchanged. Otherwise exactly one minimal account with the code is added. Mobile numbers stay unique |
| UserProcessor.VerifyMobile | src/processors/user.processor.js:253-260 | it resolves with the number exactly when an account holds it, and rejects 'mobile does not exists' otherwise |
| UserProcessor.VerifyOtp | src/processors/user.processor.js:262-271 | it fails for an unknown number, and for a wrong code with `InvalidOtp`: the Error built from an object literal, whose message is therefore '[object Object]' and which carries no statusCode. It resolves with a stored account holding the number whose code equals the submitted one. With unique mobiles it succeeds exactly when the one account holding the number has a matching code, and it resolves with that account |
| UserProcessor.BucketService.constructor | src/processors/user.processor.js:53 | a new service has been asked for no bucket |
| UserProcessor.BucketService.CreateBucket | src/processors/user.processor.js:53 | each call is logged, and its answer is the service's |
| UserProcessor.IsNewRegistrationAsWritten | src/processors/user.processor.js:273-285 | as written, every account is marked verified and gets a bucket request. A verified account resolves unchanged. An unverified one rejects even when its bucket is created |
| UserProcessor.MarkVerifiedByPatch | src/processors/user.processor.js:277 | the `{ isVerified: true }` update is marking the account verified and cannot collide on email |
| UserProcessor.IsNewRegistration | src/processors/user.processor.js:273-285 | a verified account resolves unchanged with no effect. An unverified one is marked verified and exactly one bucket is requested for it; it resolves when the bucket is created and fails otherwise |
| UserProcessor.SettleAsWritten | src/processors/user.processor.js:296 | as written, the flow always resolves, with the error object in place of tokens when a step failed |
| UserProcessor.Settle | src/processors/user.processor.js:296 | the flow resolves exactly when every step succeeded, and otherwise rejects with the wrapped error |
| UserProcessor.SettleDiscrepancy | src/processors/user.processor.js:296 | a failed step resolves as written and rejects once rethrown |
| UserProcessor.OtpLoginSuccess | src/processors/user.processor.js:293-296 | under `OtpLoginOutcome`, the OTP login succeeds exactly when three things hold: the code matches, the account is already verified or its bucket is created, and the refresh token is storable. A failure leaves the token collection unchanged; a success leaves the account verified and adds exactly one record |
| UserProcessor.VerifyOtpAndUser | src/processors/user.processor.js:293-296 | composes the corrected `IsNewRegistration` and `Settle`, as `OtpLoginOutcome` describes. An unknown mobile fails with no change. Every failure is the wrapped error with the token collection unchanged. With unique mobiles, for the account holding the number: a wrong code fails with `InvalidOtp` (the Error built from an object literal, whose message is '[object Object]') and changes nothing. A right code marks the account verified and requests a bucket only if the account was unverified; the flow then fails if that bucket was not created, and otherwise issues and saves exactly one token pair |

## Left out

- Cryptography: JWT signing and verification and bcrypt are the parameters `sign`, `verify`, `compare` and `hash`. No property of them is assumed except `SignerSound`, where a lemma names it.
- Outbound HTTP: the bucket-exists and create-bucket calls become the booleans their answers give. The SMS sent by `createuserAndSendOTP` is not modelled.
- Time and randomness: `moment()` is `now` in whole seconds, and every clock read in one request is taken to be the same second (the source reads the clock separately for each expiry and each `iat`, at src/processors/user.processor.js:39, 104 and 110, so a token's `exp - iat` could fall one second short of the configured lifetime), and the model adds days as 86400 seconds, which ignores daylight-saving days. `Math.random()` is the integer `draw`.
- The email format validator (its regular expression) is not part of this model, so `NewAccount` accepts any non-empty normalized email.
- Lowercasing and whitespace follow ASCII case mapping and the ECMAScript whitespace set. Unicode case mapping beyond ASCII is left out.
- Concurrency: every operation runs to completion on its own. Interleavings of promises across requests, and the atomicity of `remove` against a concurrent refresh, are not modelled.
- `UserModel.Users.CreateWithOtp`: the model treats the unique email index as covering only accounts that hold an email. The index as declared (`unique: true`, not sparse) also refuses a second account with no email. So as written, a second minimal OTP account would be rejected with a duplicate-key error, and the model does not promise that rejection. By the same reading of the schema, `required: true` on firstName, lastName, email and password (src/models/user.model.js:15, 20, 25, 43) would refuse even the first minimal OTP account if it were saved through this schema's validation. The model adds that account without validating it, and does not promise that refusal either.
- `UserProcessor.RefreshTwice`: single use is proved for a second presentation at any time from the first one on, but only under two guards: the refresh token was not issued in the second it is first presented, and exactly one record holds it. It is also proved only for a token the server signed (`SignerSound` says nothing of other strings). Outside the guards a second use can succeed. Two same-second logins give identical tokens in two records; `DuplicateRecordReplays` shows this, and it holds as written. A same-second rotation re-signs the identical token. `SameSecondRotationReplays` shows this for the corrected rotation that `GetAccessToken` uses. As written, `SameSecondRotationAsWritten` shows it only for a token with no role: a login token carries the role, and the as-written rotation drops it. No corrected definition is modelled, because one would need a token id that the code has no counterpart for.
- `UserProcessor.SignerSound`: verification failures other than a forged or expired token are not modelled. Examples are a malformed string, a wrong algorithm and a `nbf` claim.
- `UserModel.Users.UpdateProfile`: its contract does not model role enum checking on updates, because `findByIdAndUpdate` runs no validators by default. A role is therefore stored as any string.
- `UserProcessor.IsNewRegistration`: `delete user.isVerified` at src/processors/user.processor.js:281 removes a field from the in-memory reply only. It is not modelled, so the reply carries the flag as read.
- `UserProcessor.Authenticate`: the 'Invalid email' and 'Invalid password' branches (src/processors/user.processor.js:161, 166) cannot be reached, and the model states that rather than modelling them.
- Login compares the password exactly as given, while the stored hash was made from the trimmed password. A password with surrounding spaces therefore compares against a different string; the model keeps this.
- `isEmailTaken` with no email matches the accounts that have no email, which follows MongoDB's null matching. An excluded id given as `[id]` is cast to that id.
- `getUserById`, `id2object`, `search` and `createUserBucket` are thin store or HTTP calls; the first and last are modelled as `Users.GetUserById` and `BucketService.CreateBucket`, and the others are not part of this model. `subscribeUser`, which the controller calls, is neither defined nor exported by the processor, so it has no counterpart here.
- Timestamps (`createdAt` and `updatedAt`) and the `index` option on the token are not modelled.
- Logging is left out.

## Findings

| source | as written | input that shows it | evidently intended | confidence | as-written member | corrected member |
|---|---|---|---|---|---|---|
| src/processors/user.processor.js:274-277 | no `return` after `resolve(user)`, so a verified account is updated and sent a bucket request all the same | any account whose isVerified is true | a verified account resolves with no effect | not executed | UserProcessor.IsNewRegistrationAsWritten | UserProcessor.IsNewRegistration |
| src/processors/user.processor.js:279 | calls the processor's `updateProfile(email, id, param)` with the account id as the email and `{ isVerified: true }` as the id, whose cast fails | an unverified account whose bucket is created | the model's `updateProfile(user._id, { isVerified: true })`, after which the flow resolves | not executed | UserProcessor.IsNewRegistrationAsWritten | UserProcessor.IsNewRegistration |
| src/processors/user.processor.js:296 | the `.catch` returns the error object, so the flow resolves even when a step failed | a mobile number no account holds | the wrapped error is thrown, so the flow rejects | not executed | UserProcessor.SettleAsWritten | UserProcessor.Settle |
| src/processors/user.processor.js:198-200 | passes `oldToken.user`, a bare account id, so the new tokens carry no role | a refresh token whose payload has role admin | the new pair is bound to the same account and role | not executed | UserProcessor.RefreshSubjectAsWritten | UserProcessor.RefreshSubject |
