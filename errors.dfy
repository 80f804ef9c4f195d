/** The failures the credential and activation core can produce, one
    constructor per distinct rejection in the source.  The comment on each
    gives the error kind the source attaches and its message. */
module Errors {

  datatype Error =
    // Parameter: 'Account with same Email already exists'
    | EmailTaken
    // ParameterError: 'Account with same mobile number already exists'
    | MobileTaken
    // plain Error thrown by getUserByEmail: 'User does not exists'
    | UserDoesNotExist
    // ParameterError 'Invalid email' (the login pipeline cannot reach it)
    | InvalidEmail
    // the error bcrypt.compare reports, e.g. when no password hash is stored
    | PasswordCompareFailed
    // 'Not a valid email and password', rejected by isPasswordMatch
    | PasswordMismatch
    // ParameterError 'Invalid password' (the login pipeline cannot reach it)
    | InvalidPassword
    // ParameterError: 'Your account is not verified, ...'
    | NotVerified
    // ParameterError: 'Your account is blocked, ...'
    | Blocked
    // System: 'Bucket does not exists for the user'
    | BucketMissing
    // UnAuthorized: 'Failed to verify refresh token'
    | RefreshVerifyFailed
    // UnAuthorized: 'Not a valid refresh token'
    | NotValidRefreshToken
    // Error: 'mobile does not exists'
    | MobileDoesNotExist
    // Error built from { message: 'Invalid OTP!!', statusCode: 400 }
    | InvalidOtp
    // TypeError: the OTP check reads `otp` of a null account
    | NoAccountForMobile
    // schema validation of a new account (required field, minlength, validate, enum)
    | UserValidationFailed
    // schema validation of a new token record (required field or enum)
    | TokenValidationFailed
    // the unique index on email refused a write (duplicate key)
    | DuplicateEmail
    // the bucket service refused to create the bucket
    | BucketCreationFailed
    // CastError: a value that is not an account id was used as one
    | ArgumentCast
    // System: 'error while verifying user otp', wrapping the original failure
    | OtpVerificationFailed(cause: Error)
}
