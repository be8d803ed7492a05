/**
 * The live password indicators shared by the registration page and the profile page's
 * password card, and the validity test built from them.
 */
module PasswordIndicators {
  import opened Wrappers
  import opened Strings
  import Accounts

  /** The five indicators shown under a new password. */
  datatype PasswordValidation = PasswordValidation(
    minLength: bool, hasUppercase: bool, hasLowercase: bool, hasNumber: bool, passwordsMatch: bool)

  /** `passwordValidation` for a password and its confirmation. */
  function Validation(password: string, confirm: string): (v: PasswordValidation)
    ensures v.minLength && v.hasUppercase && v.hasLowercase && v.hasNumber <==> Accounts.StrongPassword(password)
    ensures v.passwordsMatch <==> confirm != "" && password == confirm
  {
    PasswordValidation(
      8 <= |password| <= 20,
      HasUpper(password),
      HasLower(password),
      HasDigit(password),
      password == confirm && |confirm| > 0)
  }

  /** `isPasswordValid`: every indicator is on. */
  predicate IsPasswordValid(v: PasswordValidation) {
    v.minLength && v.hasUppercase && v.hasLowercase && v.hasNumber && v.passwordsMatch
  }

  // ------------------------------------------------------------------ lemmas

  /** The indicators accept exactly a non-empty confirmation of a password the server's
      strength rule accepts. */
  lemma ValidIff(password: string, confirm: string)
    ensures IsPasswordValid(Validation(password, confirm)) <==>
            password == confirm && confirm != "" && Accounts.StrongPassword(password)
  {
  }

  /** A pair the indicators accept passes every check of the set-password handler. */
  lemma ValidPassesServer(password: string, confirm: string)
    requires IsPasswordValid(Validation(password, confirm))
    ensures Accounts.SetPasswordCheck(Some(password), Some(confirm)).None?
  {
    Accounts.SetPasswordAdmitsIff(password, confirm);
  }

  /** Conversely, a pair the set-password handler admits lights every indicator. */
  lemma ServerAdmittedIsValid(password: string, confirm: string)
    requires Accounts.SetPasswordCheck(Some(password), Some(confirm)).None?
    ensures IsPasswordValid(Validation(password, confirm))
  {
    Accounts.SetPasswordAdmitsIff(password, confirm);
  }
}
