/**
 * The sign-in page: how it classifies the auth client's error messages, and its submit
 * handler, which first asks the email-exists route and only then signs in.
 */
module LoginPage {
  import opened Wrappers
  import opened Strings
  import opened ClientMessages
  import Accounts

  /** `getErrorMessage`'s tests, made on the lower-cased message, in order. */
  function ClassifyLoginError(message: string): (key: TextKey)
    ensures var lower := ToLower(message);
      var notVerified := Contains(lower, "not verified");
      var noUser := Contains(lower, "not found") || Contains(lower, "no user")
                    || Contains(lower, "no account") || Contains(lower, "does not exist");
      var badCredentials := Contains(lower, "invalid") || Contains(lower, "credentials")
                            || Contains(lower, "password");
      && (key == EmailNotVerified <==> notVerified)
      && (key == UserNotFound <==> !notVerified && noUser)
      && (key == InvalidCredentials <==> !notVerified && !noUser && badCredentials)
      && (key == UnknownError <==> !notVerified && !noUser && !badCredentials)
  {
    var lower := ToLower(message);
    ContainsSuffix(lower, "email not verified", 6);
    assert "email not verified"[6..] == "not verified";
    if Contains(lower, "email not verified") || Contains(lower, "not verified") then EmailNotVerified
    else if Contains(lower, "not found") || Contains(lower, "no user")
         || Contains(lower, "no account") || Contains(lower, "does not exist") then UserNotFound
    else if Contains(lower, "invalid") || Contains(lower, "credentials") || Contains(lower, "password") then
      InvalidCredentials
    else UnknownError
  }

  /** `result.error.message || "Login failed"`: the message handed to the classifier. */
  function LoginMessage(message: Option<string>): (m: string)
    ensures m != ""
    ensures !Falsy(message) ==> m == message.value
  {
    if Falsy(message) then "Login failed" else message.value
  }

  /** How the page sees the email-exists route's reply: a missing address is a 400
      (not ok), an answer is an ok body carrying `exists`. */
  function ExistsSeen(reply: Accounts.ExistsReply): (r: ExistsResponse)
    ensures r != ExistsFailed
    ensures reply.ExistsAnswer? <==> r.ExistsOk?
    ensures r.ExistsOk? ==> r.found == Some(reply.found)
  {
    match reply
    case MissingEmailParam => ExistsNotOk
    case ExistsAnswer(found) => ExistsOk(Some(found))
  }

  /** A sign-in call: `signIn.email({ email, password })`. */
  datatype SignIn = SignIn(email: string, password: string)

  /** The state of the sign-in form. */
  class LoginForm {
    var email: string
    var password: string
    var error: Shown
    var loading: bool
    var showResendVerification: bool
    var verificationSent: bool
    /** The addresses sent to the email-exists route, oldest first. */
    var existsQueries: seq<string>
    /** The sign-in calls made, oldest first. */
    var signIns: seq<SignIn>
    /** Where the page navigated to, if anywhere. */
    var navigatedTo: Option<string>

    constructor ()
      ensures email == "" && password == "" && error == Nothing && !loading
      ensures !showResendVerification && !verificationSent
      ensures existsQueries == [] && signIns == [] && navigatedTo.None?
    {
      email, password, error, loading := "", "", Nothing, false;
      showResendVerification, verificationSent := false, false;
      existsQueries, signIns, navigatedTo := [], [], None;
    }

    /** `getErrorMessage`: classify, and offer to resend the verification email when the
        message says the address is not verified. */
    method GetErrorMessage(message: string) returns (key: TextKey)
      modifies this
      ensures key == ClassifyLoginError(message)
      ensures showResendVerification == (old(showResendVerification) || key == EmailNotVerified)
      ensures email == old(email) && password == old(password) && error == old(error)
      ensures loading == old(loading) && verificationSent == old(verificationSent)
      ensures existsQueries == old(existsQueries) && signIns == old(signIns) && navigatedTo == old(navigatedTo)
    {
      key := ClassifyLoginError(message);
      if key == EmailNotVerified {
        showResendVerification := true;
      }
    }

    /** `handleSubmit`; `check` is the email-exists route's reply and `result` what the
        sign-in call resolves to. */
    method HandleSubmit(check: ExistsResponse, result: ClientResult)
      modifies this
      ensures email == old(email) && password == old(password)
      ensures !loading && !verificationSent
      ensures existsQueries == old(existsQueries) + [email]
      ensures check == ExistsFailed ==>
        error == Translated(NetworkError) && signIns == old(signIns)
        && !showResendVerification && navigatedTo == old(navigatedTo)
      ensures ExistsBlocks(check) ==>
        error == Translated(UserNotFound) && signIns == old(signIns)
        && !showResendVerification && navigatedTo == old(navigatedTo)
      ensures check != ExistsFailed && !ExistsBlocks(check) ==>
        && signIns == old(signIns) + [SignIn(email, password)]
        && (navigatedTo == if result == Succeeded then Some("/dashboard") else old(navigatedTo))
        && error == (match result
             case Succeeded => Nothing
             case ClientError(message) => Translated(ClassifyLoginError(LoginMessage(message)))
             case Threw => Translated(NetworkError))
        && (showResendVerification <==> result.ClientError?
                                         && ClassifyLoginError(LoginMessage(result.message)) == EmailNotVerified)
    {
      error := Nothing;
      showResendVerification := false;
      verificationSent := false;
      loading := true;
      existsQueries := existsQueries + [email];
      if check == ExistsFailed {
        error := Translated(NetworkError);
        loading := false;
        return;
      }
      if ExistsBlocks(check) {
        error := Translated(UserNotFound);
        loading := false;
        return;
      }
      signIns := signIns + [SignIn(email, password)];
      match result {
        case Succeeded =>
          navigatedTo := Some("/dashboard");
        case ClientError(message) =>
          var key := GetErrorMessage(LoginMessage(message));
          error := Translated(key);
        case Threw =>
          error := Translated(NetworkError);
      }
      loading := false;
    }
  }

  // ------------------------------------------------------------------ lemmas

  /** The page stops before signing in exactly when the address is non-empty and no
      stored user has its trimmed, lower-cased form. */
  lemma BlocksIffNoSuchUser(users: map<string, Accounts.UserRow>, email: string)
    ensures ExistsBlocks(ExistsSeen(Accounts.EmailExists(users, Some(email)))) <==>
            email != "" && !exists id :: id in users && users[id].email == Accounts.NormalizeEmail(email)
  {
  }

  /** The classification ignores the case of the ASCII letters. */
  lemma ClassifyIgnoresCase(message: string)
    ensures ClassifyLoginError(ToUpper(message)) == ClassifyLoginError(message)
    ensures ClassifyLoginError(ToLower(message)) == ClassifyLoginError(message)
  {
    LowerOfUpper(message);
    ToLowerIdempotent(message);
  }

  /** An error without a message is shown as the unknown error. */
  lemma MissingMessageIsUnknown()
    ensures ClassifyLoginError(LoginMessage(None)) == UnknownError
  {
    var lower := ToLower("Login failed");
    LoginFailedLetters(lower);
    NotContainsByChar(lower, "not verified", 4);
    NotContainsByChar(lower, "not found", 6);
    NotContainsByChar(lower, "no user", 3);
    NotContainsByChar(lower, "no account", 4);
    NotContainsByChar(lower, "does not exist", 10);
    NotContainsByChar(lower, "invalid", 2);
    NotContainsByChar(lower, "credentials", 0);
    NotContainsByChar(lower, "password", 0);
  }

  lemma LoginFailedLetters(lower: string)
    requires lower == ToLower("Login failed")
    ensures 'v' !in lower && 'u' !in lower && 'c' !in lower && 'x' !in lower && 'p' !in lower
  {
    assert lower == "login failed";
  }

  /** The user-not-found test comes before the credential test: a message that says
      "not found" and not "not verified" reports the missing user, even when it also
      names the password or the credentials. */
  lemma NotFoundBeatsPassword(pre: string, post: string)
    requires !Contains(ToLower(pre + "not found" + post), "not verified")
    ensures ClassifyLoginError(pre + "not found" + post) == UserNotFound
  {
    var m := pre + "not found" + post;
    assert ToLower(m) == ToLower(pre) + ToLower("not found") + ToLower(post);
    assert ToLower("not found") == "not found";
    ContainsWithin(ToLower(pre), "not found", ToLower(post));
  }

  /** The not-verified test comes first: a message that also names the password is
      still reported as an unverified address. */
  lemma NotVerifiedBeatsCredentials(pre: string, post: string)
    ensures ClassifyLoginError(pre + "not verified" + post) == EmailNotVerified
  {
    var m := pre + "not verified" + post;
    assert ToLower(m) == ToLower(pre) + ToLower("not verified") + ToLower(post);
    assert ToLower("not verified") == "not verified";
    ContainsWithin(ToLower(pre), "not verified", ToLower(post));
  }
}
