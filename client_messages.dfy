/**
 * What the sign-in, registration, password and profile pages have in common: the
 * translated texts they show as errors, what an error line holds, the reply of the
 * email-exists check, and what a call into the auth client resolves to.
 */
module ClientMessages {
  import opened Wrappers

  /** The translation keys the pages show. */
  datatype TextKey =
    | ErrPasswordMismatch      // errors.passwordMismatch
    | ErrPasswordTooShort      // errors.passwordTooShort
    | NeedsUppercase           // passwordRequirements.hasUppercase
    | NeedsLowercase           // passwordRequirements.hasLowercase
    | NeedsNumber              // passwordRequirements.hasNumber
    | UserExists               // errors.userExists
    | InvalidCredentials       // errors.invalidCredentials
    | UnknownError             // errors.unknownError
    | NetworkError             // errors.networkError
    | EmailNotVerified         // errors.emailNotVerified
    | UserNotFound             // errors.userNotFound
    | ResetLinkFailed          // errors.resetLinkFailed
    | EmailInvalid             // errors.emailInvalid
    | PasswordRequired         // profile.passwordRequired
    | ProfilePasswordMismatch  // profile.passwordMismatch
    | CurrentPasswordWrong     // profile.currentPasswordWrong
    | UpdateFailed             // profile.updateFailed
    | SetPasswordFailed        // profile.setPasswordFailed
    | SetPasswordFirst         // profile.setPasswordFirst
    | UnlinkFailed             // profile.unlinkFailed

  /** An error line: empty, a translated text, or a message the server sent. */
  datatype Shown = Nothing | Translated(key: TextKey) | ServerMessage(text: string)

  /** The outcome of `fetch('/api/user/exists?email=...')`: it threw (network or JSON
      error), answered with a non-ok status, or answered ok with the `exists` field of its body. */
  datatype ExistsResponse = ExistsFailed | ExistsNotOk | ExistsOk(found: Option<bool>)

  /** `data.exists === false`: only an ok answer that says no blocks the page's request. */
  predicate ExistsBlocks(r: ExistsResponse) {
    r == ExistsOk(Some(false))
  }

  /** What a call into the auth client resolves to: no error, an error whose message may
      be missing, or a thrown exception. */
  datatype ClientResult = Succeeded | ClientError(message: Option<string>) | Threw

  /** The outcome of a `fetch` to one of the application's own routes: it threw (or its
      JSON could not be read), or it answered with `res.ok` and the body's `error` field. */
  datatype RouteResponse = FetchFailed | Responded(ok: bool, error: Option<string>)
}
