/**
 * The page a password-reset link opens: it reads the token from the link, checks the
 * new password, and hands both to the auth client.
 */
module ResetPasswordPage {
  import opened Wrappers
  import opened Strings
  import opened ClientMessages
  import RegisterPage

  /** The checks `handleSubmit` makes, in order, before resetting; `None` lets the
      request through. Only the length has a lower bound; the letter classes are not checked. */
  function SubmitCheck(password: string, confirm: string, token: Option<string>): (r: Option<TextKey>)
    ensures r.None? <==> password == confirm && |password| >= 8 && !Falsy(token)
    ensures r == Some(ErrPasswordMismatch) <==> password != confirm
    ensures r == Some(ErrPasswordTooShort) <==> password == confirm && |password| < 8
    ensures r == Some(UnknownError) <==> password == confirm && |password| >= 8 && Falsy(token)
  {
    if password != confirm then Some(ErrPasswordMismatch)
    else if |password| < 8 then Some(ErrPasswordTooShort)
    else if Falsy(token) then Some(UnknownError)
    else None
  }

  /** The text shown for a reset error, read from `error.message || ""`. */
  function ResetErrorKey(message: Option<string>): (key: TextKey)
    ensures var m := message.GetOr("");
      && (key == UnknownError <==> Contains(m, "token") || Contains(m, "expired"))
      && (key != UnknownError <==> key == ResetLinkFailed)
  {
    var m := message.GetOr("");
    if Contains(m, "token") || Contains(m, "expired") then UnknownError else ResetLinkFailed
  }

  /** The page shows only the failure card, without the form, when it holds no token
      and an error is set. */
  predicate ShowsFailureCard(token: Option<string>, error: Shown) {
    Falsy(token) && error != Nothing
  }

  /** A reset call: `resetPassword({ newPassword, token })`. */
  datatype Reset = Reset(newPassword: string, token: string)

  /** The state of the reset form. */
  class ResetForm {
    var password: string
    var confirmPassword: string
    var error: Shown
    var loading: bool
    var token: Option<string>
    /** The reset calls made, oldest first. */
    var resets: seq<Reset>
    /** Where the page navigated to, if anywhere. */
    var navigatedTo: Option<string>

    constructor ()
      ensures password == "" && confirmPassword == "" && error == Nothing && !loading
      ensures token.None? && resets == [] && navigatedTo.None?
    {
      password, confirmPassword, error, loading := "", "", Nothing, false;
      token, resets, navigatedTo := None, [], None;
    }

    /** The effect that reads `token` from the query string. */
    method ReadToken(tokenParam: Option<string>)
      modifies this
      ensures Falsy(tokenParam) ==> error == Translated(UnknownError) && token == old(token)
      ensures !Falsy(tokenParam) ==> token == tokenParam && error == old(error)
      ensures password == old(password) && confirmPassword == old(confirmPassword)
      ensures loading == old(loading) && resets == old(resets) && navigatedTo == old(navigatedTo)
      ensures Falsy(tokenParam) && Falsy(old(token)) ==> ShowsFailureCard(token, error)
    {
      if Falsy(tokenParam) {
        error := Translated(UnknownError);
      } else {
        token := tokenParam;
      }
    }

    /** `handleSubmit`; `result` is what the reset call resolves to. */
    method HandleSubmit(result: ClientResult)
      modifies this
      ensures password == old(password) && confirmPassword == old(confirmPassword) && token == old(token)
      ensures SubmitCheck(password, confirmPassword, token).Some? ==>
        && error == Translated(SubmitCheck(password, confirmPassword, token).value)
        && resets == old(resets) && loading == old(loading) && navigatedTo == old(navigatedTo)
      ensures SubmitCheck(password, confirmPassword, token).None? ==>
        && resets == old(resets) + [Reset(password, token.value)]
        && !loading
        && (navigatedTo == if result == Succeeded then Some("/login") else old(navigatedTo))
        && error == match result
             case Succeeded => Nothing
             case ClientError(message) => Translated(ResetErrorKey(message))
             case Threw => Translated(NetworkError)
      ensures Falsy(token) ==> ShowsFailureCard(token, error)
    {
      error := Nothing;
      var refused := SubmitCheck(password, confirmPassword, token);
      if refused.Some? {
        error := Translated(refused.value);
        return;
      }
      loading := true;
      resets := resets + [Reset(password, token.value)];
      match result {
        case Succeeded =>
          navigatedTo := Some("/login");
        case ClientError(message) =>
          error := Translated(ResetErrorKey(message));
        case Threw =>
          error := Translated(NetworkError);
      }
      loading := false;
    }
  }

  // ------------------------------------------------------------------ lemmas

  /** The reset page is laxer than the registration page: with a token, it lets through
      an eight-letter lower-case password that registration refuses. */
  lemma ResetLaxerThanRegister(token: string)
    requires token != ""
    ensures SubmitCheck("abcdefgh", "abcdefgh", Some(token)).None?
    ensures RegisterPage.SubmitCheck("abcdefgh", "abcdefgh") == Some(NeedsUppercase)
  {
    var p := "abcdefgh";
    forall i | 0 <= i < |p| ensures !IsUpper(p[i]) { }
  }

  /** Whatever the password, a submit without a token never reaches the auth client. */
  lemma NoTokenNoRequest(password: string, confirm: string, token: Option<string>)
    requires Falsy(token)
    ensures SubmitCheck(password, confirm, token).Some?
  {
  }

  /** A message about an expired or bad token shows the unknown error; a missing message
      shows the reset-link failure. */
  lemma ResetErrorExamples()
    ensures ResetErrorKey(Some("Invalid token")) == UnknownError
    ensures ResetErrorKey(None) == ResetLinkFailed
  {
    ContainsWithin("Invalid ", "token", "");
    assert "Invalid " + "token" + "" == "Invalid token";
  }
}
