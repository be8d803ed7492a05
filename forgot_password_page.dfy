/**
 * The forgot-password page: it asks the email-exists route first and then asks the auth
 * client to send a reset link that opens the reset page.
 */
module ForgotPasswordPage {
  import opened Wrappers
  import opened Strings
  import opened ClientMessages
  import LoginPage

  /** Where the reset link leads: `redirectTo`. */
  const ResetRedirect := "/reset-password"

  /** The text shown for an error from the reset request, read from `error.message || ""`. */
  function RequestErrorKey(message: Option<string>): (key: TextKey)
    ensures var m := message.GetOr("");
      && (key == UserNotFound <==> Contains(m, "not found"))
      && (key == EmailInvalid <==> !Contains(m, "not found") && Contains(m, "Invalid"))
      && (key == ResetLinkFailed <==> !Contains(m, "not found") && !Contains(m, "Invalid"))
  {
    var m := message.GetOr("");
    ContainsSuffix(m, "User not found", 5);
    assert "User not found"[5..] == "not found";
    if Contains(m, "not found") || Contains(m, "User not found") then UserNotFound
    else if Contains(m, "Invalid") then EmailInvalid
    else ResetLinkFailed
  }

  /** A reset-link request: `requestPasswordReset({ email, redirectTo })`. */
  datatype ResetRequest = ResetRequest(email: string, redirectTo: string)

  /** The state of the forgot-password form. */
  class ForgotForm {
    var email: string
    var error: Shown
    var success: bool
    var loading: bool
    /** The addresses sent to the email-exists route, oldest first. */
    var existsQueries: seq<string>
    /** The reset-link requests made, oldest first. */
    var requests: seq<ResetRequest>

    constructor ()
      ensures email == "" && error == Nothing && !success && !loading
      ensures existsQueries == [] && requests == []
    {
      email, error, success, loading := "", Nothing, false, false;
      existsQueries, requests := [], [];
    }

    /** `handleSubmit`; `check` is the email-exists route's reply and `result` what the
        reset request resolves to. */
    method HandleSubmit(check: ExistsResponse, result: ClientResult)
      modifies this
      ensures email == old(email) && !loading
      ensures existsQueries == old(existsQueries) + [email]
      ensures check == ExistsFailed ==>
        error == Translated(NetworkError) && requests == old(requests) && success == old(success)
      ensures ExistsBlocks(check) ==>
        error == Translated(UserNotFound) && requests == old(requests) && success == old(success)
      ensures check != ExistsFailed && !ExistsBlocks(check) ==>
        && requests == old(requests) + [ResetRequest(email, ResetRedirect)]
        && success == (old(success) || result == Succeeded)
        && error == match result
             case Succeeded => Nothing
             case ClientError(message) => Translated(RequestErrorKey(message))
             case Threw => Translated(NetworkError)
    {
      error := Nothing;
      loading := true;
      existsQueries := existsQueries + [email];
      if check == ExistsFailed {
        error := Translated(NetworkError);
        loading := false;
        return;
      }
      if ExistsBlocks(check) {
        error := Translated(UserNotFound);
        loading := false;
        return;
      }
      requests := requests + [ResetRequest(email, ResetRedirect)];
      match result {
        case Succeeded =>
          success := true;
        case ClientError(message) =>
          error := Translated(RequestErrorKey(message));
        case Threw =>
          error := Translated(NetworkError);
      }
      loading := false;
    }
  }

  // ------------------------------------------------------------------ lemmas

  /** Unlike the sign-in page, this page does not lower-case: an upper-case "USER NOT
      FOUND" is a failed link here and an unknown user there. */
  lemma CaseSensitiveUnlikeLogin()
    ensures RequestErrorKey(Some("USER NOT FOUND")) == ResetLinkFailed
    ensures LoginPage.ClassifyLoginError("USER NOT FOUND") == UserNotFound
  {
    UpperCaseLetters("USER NOT FOUND");
    NotContainsByChar("USER NOT FOUND", "not found", 0);
    NotContainsByChar("USER NOT FOUND", "Invalid", 1);
    LowerCaseLetters(ToLower("USER NOT FOUND"));
    NotContainsByChar(ToLower("USER NOT FOUND"), "not verified", 4);
    ContainsWithin("user ", "not found", "");
  }

  lemma UpperCaseLetters(s: string)
    requires s == "USER NOT FOUND"
    ensures 'n' !in s && 'I' !in s
  {
  }

  lemma LowerCaseLetters(lower: string)
    requires lower == ToLower("USER NOT FOUND")
    ensures lower == "user " + "not found" + ""
    ensures 'v' !in lower
  {
    assert lower == "user not found";
  }
}
