/**
 * The registration page: the checks it makes before calling the auth client's sign-up,
 * the text it shows for a sign-up error, and the form state its submit handler leaves.
 */
module RegisterPage {
  import opened Wrappers
  import opened Strings
  import opened ClientMessages
  import opened PasswordIndicators

  /** The checks `handleSubmit` makes, in order, before signing up; `None` lets the
      request through. There is no upper bound on the length here. */
  function SubmitCheck(password: string, confirm: string): (r: Option<TextKey>)
    ensures r.None? <==> password == confirm && |password| >= 8 && HasUpper(password) && HasLower(password) && HasDigit(password)
    ensures r == Some(ErrPasswordMismatch) <==> password != confirm
    ensures r == Some(ErrPasswordTooShort) <==> password == confirm && |password| < 8
    ensures r == Some(NeedsUppercase) <==> password == confirm && |password| >= 8 && !HasUpper(password)
    ensures r == Some(NeedsLowercase) <==> password == confirm && |password| >= 8 && HasUpper(password) && !HasLower(password)
    ensures r == Some(NeedsNumber) <==>
      password == confirm && |password| >= 8 && HasUpper(password) && HasLower(password) && !HasDigit(password)
  {
    if password != confirm then Some(ErrPasswordMismatch)
    else if |password| < 8 then Some(ErrPasswordTooShort)
    else if !HasUpper(password) then Some(NeedsUppercase)
    else if !HasLower(password) then Some(NeedsLowercase)
    else if !HasDigit(password) then Some(NeedsNumber)
    else None
  }

  /** The text shown for a sign-up error, read from `error.message || ""`. */
  function SignUpErrorKey(message: Option<string>): (key: TextKey)
    ensures var m := message.GetOr("");
      && (key == UserExists <==> Contains(m, "already exists"))
      && (key == InvalidCredentials <==> !Contains(m, "already exists") && Contains(m, "Invalid"))
      && (key == UnknownError <==> !Contains(m, "already exists") && !Contains(m, "Invalid"))
  {
    var m := message.GetOr("");
    ContainsSuffix(m, "User already exists", 5);
    assert "User already exists"[5..] == "already exists";
    if Contains(m, "already exists") || Contains(m, "User already exists") then UserExists
    else if Contains(m, "Invalid") then InvalidCredentials
    else UnknownError
  }

  /** A sign-up call: `signUp.email({ email, password, name })`. */
  datatype SignUp = SignUp(email: string, password: string, name: string)

  /** The state of the registration form. */
  class RegisterForm {
    var name: string
    var email: string
    var password: string
    var confirmPassword: string
    var error: Shown
    var loading: bool
    var registrationSuccess: bool
    /** The sign-up calls made, oldest first. */
    var signUps: seq<SignUp>

    constructor ()
      ensures name == "" && email == "" && password == "" && confirmPassword == ""
      ensures error == Nothing && !loading && !registrationSuccess && signUps == []
    {
      name, email, password, confirmPassword := "", "", "", "";
      error, loading, registrationSuccess, signUps := Nothing, false, false, [];
    }

    /** `handleSubmit`; `result` is what the sign-up call resolves to. */
    method HandleSubmit(result: ClientResult)
      modifies this
      ensures name == old(name) && email == old(email)
      ensures password == old(password) && confirmPassword == old(confirmPassword)
      ensures SubmitCheck(password, confirmPassword).Some? ==>
        && error == Translated(SubmitCheck(password, confirmPassword).value)
        && signUps == old(signUps) && loading == old(loading) && registrationSuccess == old(registrationSuccess)
      ensures SubmitCheck(password, confirmPassword).None? ==>
        && signUps == old(signUps) + [SignUp(email, password, name)]
        && !loading
        && registrationSuccess == (old(registrationSuccess) || result == Succeeded)
        && error == match result
             case Succeeded => Nothing
             case ClientError(message) => Translated(SignUpErrorKey(message))
             case Threw => Translated(NetworkError)
    {
      error := Nothing;
      var refused := SubmitCheck(password, confirmPassword);
      if refused.Some? {
        error := Translated(refused.value);
        return;
      }
      loading := true;
      signUps := signUps + [SignUp(email, password, name)];
      match result {
        case Succeeded =>
          registrationSuccess := true;
        case ClientError(message) =>
          error := Translated(SignUpErrorKey(message));
        case Threw =>
          error := Translated(NetworkError);
      }
      loading := false;
    }
  }

  // ------------------------------------------------------------------ lemmas

  /** Up to 20 characters, the submit checks and the live indicators agree. */
  lemma SubmitAgreesWithIndicators(password: string, confirm: string)
    requires |password| <= 20
    ensures SubmitCheck(password, confirm).None? <==> IsPasswordValid(Validation(password, confirm))
  {
  }

  /** Above 20 characters they part: the submit handler lets a 21-character password
      through while the length indicator stays off. */
  lemma SubmitHasNoUpperBound()
    ensures var p := "Abcdefghij1234567890x";
      SubmitCheck(p, p).None? && !Validation(p, p).minLength
  {
    var p := "Abcdefghij1234567890x";
    assert IsUpper(p[0]) && IsLower(p[1]) && IsDigit(p[10]);
  }

  /** The mapping is case-sensitive: an upper-case "already exists" is not recognised. */
  lemma SignUpErrorCaseSensitive()
    ensures SignUpErrorKey(Some("USER ALREADY EXISTS")) == UnknownError
  {
    NotContainsByChar("USER ALREADY EXISTS", "already exists", 0);
    NotContainsByChar("USER ALREADY EXISTS", "Invalid", 1);
  }
}
