/**
 * The profile page's own logic: the avatar it displays, when its password buttons are
 * enabled, and its three account handlers (unlink Google, set a first password, change
 * the password), which check the form before calling the server and then set the
 * page's state from the reply.
 *
 * The browser's `confirm` dialog, the server's reply and `encodeURIComponent` are
 * parameters; the requests the page sends are recorded in `requests`.
 */
module ProfilePage {
  import opened Wrappers
  import opened Strings
  import opened ClientMessages
  import opened PasswordIndicators
  import Api
  import Accounts
  import Utils

  /** A request the page sends to the server. */
  datatype ProfileRequest =
    | UnlinkGoogleRequest
    | SetPasswordRequest(password: string, confirmPassword: string)
    | ChangePasswordRequest(currentPassword: string, newPassword: string)

  /** `currentAvatar`: the upload preview, else the user's avatar URL, else nothing. */
  function CurrentAvatar(preview: Option<string>, user: Option<Utils.AvatarUser>, encode: string -> string): (avatar: Option<string>)
    ensures !Falsy(preview) ==> avatar == preview
    ensures Falsy(preview) && user.Some? ==> avatar == Some(Utils.GetUserAvatarUrl(user.value, encode))
    ensures avatar.None? <==> Falsy(preview) && user.None?
    ensures avatar.Some? ==> avatar.value != ""
  {
    if !Falsy(preview) then preview
    else if user.Some? then Some(Utils.GetUserAvatarUrl(user.value, encode))
    else None
  }

  /** The change button is disabled while saving, while a field is empty, or while the
      new password fails an indicator. */
  predicate ChangeDisabled(saving: bool, current: string, next: string, confirm: string): (disabled: bool)
    ensures !disabled <==> !saving && current != "" && next == confirm && Accounts.StrongPassword(next)
  {
    saving || current == "" || next == "" || confirm == "" || !IsPasswordValid(Validation(next, confirm))
  }

  /** The set button is disabled while saving, while a field is empty, or while the
      password fails an indicator. */
  predicate SetDisabled(saving: bool, next: string, confirm: string): (disabled: bool)
    ensures !disabled <==> !saving && next == confirm && Accounts.StrongPassword(next)
  {
    saving || next == "" || confirm == "" || !IsPasswordValid(Validation(next, confirm))
  }

  /** `data.error?.includes("incorrect")`: the text shown for a failed change. */
  function ChangeErrorKey(error: Option<string>): (key: TextKey)
    ensures key == CurrentPasswordWrong <==> error.Some? && Contains(error.value, "incorrect")
    ensures key != CurrentPasswordWrong ==> key == UpdateFailed
  {
    if error.Some? && Contains(error.value, "incorrect") then CurrentPasswordWrong else UpdateFailed
  }

  /** `data.error || fallback`: the server's message when it sent a non-empty one. */
  function ServerOr(error: Option<string>, fallback: TextKey): (shown: Shown)
    ensures shown.ServerMessage? <==> !Falsy(error)
    ensures shown.ServerMessage? ==> shown.text == error.value
    ensures !shown.ServerMessage? ==> shown == Translated(fallback)
  {
    if Falsy(error) then Translated(fallback) else ServerMessage(error.value)
  }

  /** The state of the profile page's account card. */
  class ProfileCard {
    var currentPassword: string
    var newPassword: string
    var confirmNewPassword: string
    var passwordError: Shown
    var passwordSuccess: bool
    var savingPassword: bool
    var unlinkingGoogle: bool
    /** The text of the last `alert`, if one was shown. */
    var alertShown: Option<Shown>
    /** A page reload was asked for. */
    var reloadRequested: bool
    /** The requests sent to the server, oldest first. */
    var requests: seq<ProfileRequest>

    constructor ()
      ensures currentPassword == "" && newPassword == "" && confirmNewPassword == ""
      ensures passwordError == Nothing && !passwordSuccess && !savingPassword && !unlinkingGoogle
      ensures alertShown.None? && !reloadRequested && requests == []
    {
      currentPassword, newPassword, confirmNewPassword := "", "", "";
      passwordError, passwordSuccess, savingPassword, unlinkingGoogle := Nothing, false, false, false;
      alertShown, reloadRequested, requests := None, false, [];
    }

    /** `handleUnlinkGoogle`. `hasPassword` is `profileData?.accounts?.hasPassword`;
        `confirmed` the answer to the confirmation dialog; `response` the server's reply. */
    method HandleUnlinkGoogle(hasPassword: Option<bool>, confirmed: bool, response: RouteResponse)
      modifies this
      ensures currentPassword == old(currentPassword) && newPassword == old(newPassword)
      ensures confirmNewPassword == old(confirmNewPassword)
      ensures passwordError == old(passwordError) && passwordSuccess == old(passwordSuccess)
      ensures savingPassword == old(savingPassword)
      ensures hasPassword != Some(true) ==>
        alertShown == Some(Translated(SetPasswordFirst)) && requests == old(requests)
        && reloadRequested == old(reloadRequested) && unlinkingGoogle == old(unlinkingGoogle)
      ensures hasPassword == Some(true) && !confirmed ==>
        alertShown == old(alertShown) && requests == old(requests)
        && reloadRequested == old(reloadRequested) && unlinkingGoogle == old(unlinkingGoogle)
      ensures hasPassword == Some(true) && confirmed ==>
        && requests == old(requests) + [UnlinkGoogleRequest]
        && !unlinkingGoogle
        && reloadRequested == (old(reloadRequested) || (response.Responded? && response.ok))
        && alertShown == match response
             case FetchFailed => Some(Translated(UnlinkFailed))
             case Responded(ok, error) => if ok then old(alertShown) else Some(ServerOr(error, UnlinkFailed))
    {
      if hasPassword != Some(true) {
        alertShown := Some(Translated(SetPasswordFirst));
        return;
      }
      if !confirmed {
        return;
      }
      unlinkingGoogle := true;
      requests := requests + [UnlinkGoogleRequest];
      match response {
        case FetchFailed =>
          alertShown := Some(Translated(UnlinkFailed));
        case Responded(ok, error) =>
          if ok {
            reloadRequested := true;
          } else {
            alertShown := Some(ServerOr(error, UnlinkFailed));
          }
      }
      unlinkingGoogle := false;
    }

    /** `handleSetPassword`: both fields must be filled and equal before the request is sent. */
    method HandleSetPassword(response: RouteResponse)
      modifies this
      ensures currentPassword == old(currentPassword) && unlinkingGoogle == old(unlinkingGoogle)
      ensures alertShown == old(alertShown)
      ensures old(newPassword) == "" || old(confirmNewPassword) == "" ==>
        passwordError == Translated(PasswordRequired) && !passwordSuccess && requests == old(requests)
        && newPassword == old(newPassword) && confirmNewPassword == old(confirmNewPassword)
        && reloadRequested == old(reloadRequested) && savingPassword == old(savingPassword)
      ensures old(newPassword) != "" && old(confirmNewPassword) != "" && old(newPassword) != old(confirmNewPassword) ==>
        passwordError == Translated(ErrPasswordMismatch) && !passwordSuccess && requests == old(requests)
        && newPassword == old(newPassword) && confirmNewPassword == old(confirmNewPassword)
        && reloadRequested == old(reloadRequested) && savingPassword == old(savingPassword)
      ensures old(newPassword) != "" && old(newPassword) == old(confirmNewPassword) ==>
        && requests == old(requests) + [SetPasswordRequest(old(newPassword), old(confirmNewPassword))]
        && !savingPassword
        && (passwordSuccess <==> response.Responded? && response.ok)
        && (passwordSuccess ==> passwordError == Nothing && newPassword == "" && confirmNewPassword == "" && reloadRequested)
        && (!passwordSuccess ==>
              && newPassword == old(newPassword) && confirmNewPassword == old(confirmNewPassword)
              && reloadRequested == old(reloadRequested)
              && passwordError == (if response.FetchFailed? then Translated(SetPasswordFailed)
                                   else ServerOr(response.error, SetPasswordFailed)))
    {
      passwordError := Nothing;
      passwordSuccess := false;
      if newPassword == "" || confirmNewPassword == "" {
        passwordError := Translated(PasswordRequired);
        return;
      }
      if newPassword != confirmNewPassword {
        passwordError := Translated(ErrPasswordMismatch);
        return;
      }
      savingPassword := true;
      requests := requests + [SetPasswordRequest(newPassword, confirmNewPassword)];
      match response {
        case FetchFailed =>
          passwordError := Translated(SetPasswordFailed);
        case Responded(ok, error) =>
          if ok {
            passwordSuccess := true;
            newPassword := "";
            confirmNewPassword := "";
            reloadRequested := true;
          } else {
            passwordError := ServerOr(error, SetPasswordFailed);
          }
      }
      savingPassword := false;
    }

    /** `handleChangePassword`: only the confirmation is checked before the request is sent. */
    method HandleChangePassword(response: RouteResponse)
      modifies this
      ensures unlinkingGoogle == old(unlinkingGoogle) && alertShown == old(alertShown)
      ensures reloadRequested == old(reloadRequested)
      ensures old(newPassword) != old(confirmNewPassword) ==>
        passwordError == Translated(ProfilePasswordMismatch) && requests == old(requests)
        && passwordSuccess == old(passwordSuccess) && savingPassword == old(savingPassword)
        && currentPassword == old(currentPassword) && newPassword == old(newPassword)
        && confirmNewPassword == old(confirmNewPassword)
      ensures old(newPassword) == old(confirmNewPassword) ==>
        && requests == old(requests) + [ChangePasswordRequest(old(currentPassword), old(newPassword))]
        && !savingPassword
        && (passwordSuccess <==> response.Responded? && response.ok)
        && (passwordSuccess ==> passwordError == Nothing && currentPassword == "" && newPassword == ""
                                && confirmNewPassword == "")
        && (!passwordSuccess ==>
              && currentPassword == old(currentPassword) && newPassword == old(newPassword)
              && confirmNewPassword == old(confirmNewPassword)
              && passwordError == (if response.FetchFailed? then Translated(UpdateFailed)
                                   else Translated(ChangeErrorKey(response.error))))
    {
      if newPassword != confirmNewPassword {
        passwordError := Translated(ProfilePasswordMismatch);
        return;
      }
      savingPassword := true;
      passwordError := Nothing;
      passwordSuccess := false;
      requests := requests + [ChangePasswordRequest(currentPassword, newPassword)];
      match response {
        case FetchFailed =>
          passwordError := Translated(UpdateFailed);
        case Responded(ok, error) =>
          if ok {
            passwordSuccess := true;
            currentPassword := "";
            newPassword := "";
            confirmNewPassword := "";
          } else {
            passwordError := Translated(ChangeErrorKey(error));
          }
      }
      savingPassword := false;
    }
  }

  // ------------------------------------------------------------------ lemmas

  /** With the change button enabled, the request passes the change-password handler's
      field checks, and also the stricter set-password ladder. */
  lemma ChangeEnabledPassesServer(current: string, next: string, confirm: string)
    requires !ChangeDisabled(false, current, next, confirm)
    ensures Accounts.ChangePasswordCheck(Some(current), Some(next)).None?
    ensures Accounts.SetPasswordCheck(Some(next), Some(confirm)).None?
  {
    ValidPassesServer(next, confirm);
  }

  /** With the set button enabled, the request passes every check of the set-password ladder. */
  lemma SetEnabledPassesServer(next: string, confirm: string)
    requires !SetDisabled(false, next, confirm)
    ensures Accounts.SetPasswordCheck(Some(next), Some(confirm)).None?
  {
    ValidPassesServer(next, confirm);
  }

  /** The page shows "current password wrong" exactly when the change-password handler
      refused the current password; every other failure shows "update failed". */
  lemma ChangeErrorMatchesServer(s: Api.Status)
    requires Accounts.ChangePasswordFailure(s)
    ensures ChangeErrorKey(Some(Accounts.ChangePasswordMessage(s))) == CurrentPasswordWrong
            <==> s == Api.BadRequest(Api.IncorrectPassword)
  {
    IncorrectMessageMentionsIncorrect();
    ShortMessagesLackIncorrect();
    // In the two longer messages no 'i' is followed by 'n'.
    var oauth, failed := "Password change not available for OAuth users", "Failed to change password";
    forall i | 0 <= i < |oauth| - 1 ensures !(oauth[i] == 'i' && oauth[i + 1] == 'n') { }
    NotContainsByPair(oauth, "incorrect");
    forall i | 0 <= i < |failed| - 1 ensures !(failed[i] == 'i' && failed[i + 1] == 'n') { }
    NotContainsByPair(failed, "incorrect");
  }

  lemma IncorrectMessageMentionsIncorrect()
    ensures Contains("Current password is incorrect", "incorrect")
  {
    ContainsWithin("Current password is ", "incorrect", "");
    assert "Current password is " + "incorrect" + "" == "Current password is incorrect";
  }

  lemma ShortMessagesLackIncorrect()
    ensures !Contains("Method not allowed", "incorrect")
    ensures !Contains("Unauthorized", "incorrect")
    ensures !Contains("Missing required fields", "incorrect")
    ensures !Contains("Password must be 8-20 characters", "incorrect")
  {
    LacksLetter("Method not allowed", 'i');
    NotContainsByChar("Method not allowed", "incorrect", 0);
    LacksLetter("Unauthorized", 'c');
    NotContainsByChar("Unauthorized", "incorrect", 2);
    LacksLetter("Missing required fields", 'c');
    NotContainsByChar("Missing required fields", "incorrect", 2);
    LacksLetter("Password must be 8-20 characters", 'i');
    NotContainsByChar("Password must be 8-20 characters", "incorrect", 0);
  }

  lemma LacksLetter(s: string, c: char)
    requires forall i | 0 <= i < |s| :: s[i] != c
    ensures c !in s
  {
  }

  /** The page's unlink check is stricter than the server's: a user whose flags show a
      password passes the server guard too. */
  lemma ClientUnlinkStricter(rows: seq<Accounts.AccountRow>, u: string)
    requires Accounts.Flags(Accounts.AccountsOf(rows, u)).hasPassword
    ensures Accounts.UnlinkAllowed(Accounts.AccountsOf(rows, u))
  {
    Accounts.HasPasswordPassesUnlinkGuard(Accounts.AccountsOf(rows, u));
  }

  /** The converse fails: a user with two google rows and no password passes the server
      guard, while the page refuses to send the request. */
  lemma ServerLaxerThanClient(u: string)
    ensures var rows := [Accounts.AccountRow("a1", u, Accounts.GoogleProvider), Accounts.AccountRow("a2", u, Accounts.GoogleProvider)];
      Accounts.UnlinkAllowed(Accounts.AccountsOf(rows, u)) && !Accounts.Flags(Accounts.AccountsOf(rows, u)).hasPassword
  {
    var rows := [Accounts.AccountRow("a1", u, Accounts.GoogleProvider), Accounts.AccountRow("a2", u, Accounts.GoogleProvider)];
    Accounts.TwoGoogleRowsUnlink(u);
    Accounts.FlagsIff(rows, u);
    assert !Accounts.Owns(rows, u, Accounts.CredentialProvider);
  }
}
