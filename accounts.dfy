/**
 * The user, session and account tables and the route handlers under /api/user
 * that guard and change them: unlink-google, set-password, password (change),
 * profile (read and update), delete, resend-verification and exists.
 *
 * The tables are in memory. The auth library is an oracle: what `getSession`
 * resolves the request to is a parameter, as are the outcomes of its
 * `setPassword`, `changePassword`, `signOut` and mail sending; the calls the
 * handlers make into it are recorded in `calls`. A failing database statement
 * is a parameter too.
 */
module Accounts {
  import opened Wrappers
  import opened Strings
  import opened Api
  import opened Rows

  const CredentialProvider: string := "credential"
  const GoogleProvider: string := "google"
  const GithubProvider: string := "github"

  /** A row of the user table; the table is keyed by the user's id. */
  datatype UserRow = UserRow(name: string, email: string, image: Option<string>, emailVerified: bool, updatedAt: int)

  /** A row of the account table: one sign-in method of a user. */
  datatype AccountRow = AccountRow(id: string, userId: string, providerId: string)

  /** A row of the session table. */
  datatype SessionRow = SessionRow(id: string, userId: string)

  /** A call made into the auth library. */
  datatype LibraryCall =
    | SetPassword(userId: string, newPassword: string)
    | ChangePassword(userId: string, currentPassword: string, newPassword: string)
    | SignOut(userId: string)

  // ------------------------------------------------------------------ queries

  /** `select ... from account where userId = u` */
  function AccountsOf(rows: seq<AccountRow>, u: string): seq<AccountRow> {
    Filter(rows, (r: AccountRow) => r.userId == u)
  }

  /** `rows.some(a => a.providerId === p)` */
  predicate SomeProvider(rows: seq<AccountRow>, p: string)
    decreases |rows|
  {
    |rows| > 0 && (rows[0].providerId == p || SomeProvider(rows[1..], p))
  }

  /** Reference reading: the table holds a row of user `u` with provider `p`. */
  ghost predicate Owns(rows: seq<AccountRow>, u: string, p: string) {
    exists r :: r in rows && r.userId == u && r.providerId == p
  }

  /** `delete from account where userId = u and providerId = p` */
  function DeleteProvider(rows: seq<AccountRow>, u: string, p: string): seq<AccountRow> {
    Filter(rows, (r: AccountRow) => !(r.userId == u && r.providerId == p))
  }

  /** `delete from account where userId = u` */
  function DeleteAccountsOf(rows: seq<AccountRow>, u: string): seq<AccountRow> {
    Filter(rows, (r: AccountRow) => r.userId != u)
  }

  /** `delete from session where userId = u` */
  function DeleteSessionsOf(rows: seq<SessionRow>, u: string): seq<SessionRow> {
    Filter(rows, (r: SessionRow) => r.userId != u)
  }

  // ------------------------------------------------------------ pure guards

  /** The unlink guard of api.user.unlink-google.tsx: refused when the user has no
      credential row and at most one account row. It counts rows; it does not look
      for a google row, nor for a method that survives the delete. */
  predicate UnlinkAllowed(mine: seq<AccountRow>) {
    !(!SomeProvider(mine, CredentialProvider) && |mine| <= 1)
  }

  /** The rule the set-password handler enforces, stated on its own. */
  predicate StrongPassword(p: string) {
    8 <= |p| <= 20 && HasUpper(p) && HasLower(p) && HasDigit(p)
  }

  /** The set-password validation ladder; the first failing check decides. */
  function SetPasswordCheck(password: Option<string>, confirm: Option<string>): (r: Option<Reason>)
    ensures r.None? <==> !Falsy(password) && !Falsy(confirm) && password.value == confirm.value && StrongPassword(password.value)
    ensures r == Some(MissingPassword) <==> Falsy(password) || Falsy(confirm)
    ensures r == Some(PasswordMismatch) <==> !Falsy(password) && !Falsy(confirm) && password.value != confirm.value
    ensures r == Some(PasswordLength) ==> password.value == confirm.value && !(8 <= |password.value| <= 20)
    ensures r == Some(NoUppercase) ==> password.value == confirm.value && 8 <= |password.value| <= 20 && !HasUpper(password.value)
    ensures r == Some(NoLowercase) ==> password.value == confirm.value && 8 <= |password.value| <= 20 && HasUpper(password.value) && !HasLower(password.value)
    ensures r == Some(NoDigit) ==> password.value == confirm.value && StrongLetters(password.value) && !HasDigit(password.value)
  {
    if Falsy(password) || Falsy(confirm) then Some(MissingPassword)
    else if password.value != confirm.value then Some(PasswordMismatch)
    else if |password.value| < 8 || |password.value| > 20 then Some(PasswordLength)
    else if !HasUpper(password.value) then Some(NoUppercase)
    else if !HasLower(password.value) then Some(NoLowercase)
    else if !HasDigit(password.value) then Some(NoDigit)
    else None
  }

  predicate StrongLetters(p: string) { 8 <= |p| <= 20 && HasUpper(p) && HasLower(p) }

  /** The change-password validation: both fields present, the new one 8..20 long. */
  function ChangePasswordCheck(current: Option<string>, next: Option<string>): (r: Option<Reason>)
    ensures r.None? <==> !Falsy(current) && !Falsy(next) && 8 <= |next.value| <= 20
    ensures r == Some(MissingFields) <==> Falsy(current) || Falsy(next)
  {
    if Falsy(current) || Falsy(next) then Some(MissingFields)
    else if |next.value| < 8 || |next.value| > 20 then Some(PasswordLength)
    else None
  }

  /** The catch block of the change-password handler, given the thrown error's message
      (an empty message for a thrown value that is not an Error). */
  function ChangeErrorStatus(message: string): (s: Status)
    ensures s == BadRequest(IncorrectPassword) <==> Contains(message, "password") || Contains(message, "incorrect")
    ensures s != BadRequest(IncorrectPassword) <==> s == ServerError
  {
    if Contains(message, "password") || Contains(message, "incorrect") then BadRequest(IncorrectPassword) else ServerError
  }

  /** The statuses the change-password handler answers with besides success. */
  predicate ChangePasswordFailure(s: Status) {
    s in {MethodNotAllowed, Unauthorized, BadRequest(MissingFields), BadRequest(PasswordLength),
          BadRequest(OAuthOnly), BadRequest(IncorrectPassword), ServerError}
  }

  /** The `error` text of the change-password handler's reply, for each failure status. */
  function ChangePasswordMessage(s: Status): string
    requires ChangePasswordFailure(s)
  {
    match s
    case MethodNotAllowed => "Method not allowed"
    case Unauthorized => "Unauthorized"
    case BadRequest(MissingFields) => "Missing required fields"
    case BadRequest(PasswordLength) => "Password must be 8-20 characters"
    case BadRequest(OAuthOnly) => "Password change not available for OAuth users"
    case BadRequest(IncorrectPassword) => "Current password is incorrect"
    case ServerError => "Failed to change password"
  }

  /** What the auth library's `changePassword` answers with. */
  datatype ChangeReply = Changed | NoResult | Threw(message: string)

  /** The provider flags of the profile loader. */
  datatype AccountFlags = AccountFlags(hasPassword: bool, google: bool, github: bool)

  function Flags(mine: seq<AccountRow>): AccountFlags {
    AccountFlags(SomeProvider(mine, CredentialProvider), SomeProvider(mine, GoogleProvider), SomeProvider(mine, GithubProvider))
  }

  /** What the profile loader returns for the session's user. */
  datatype Profile = Profile(id: string, user: UserRow, accounts: AccountFlags)

  /** The image field of a profile update: absent, JSON null, or a string. */
  datatype ImageField = ImageAbsent | ImageNull | ImageUrl(url: string)

  datatype ProfileBody = ProfileBody(name: JsonField, image: ImageField)

  /** Line 100: a supplied name must be a string that is not blank after trimming. */
  predicate NameAcceptable(name: JsonField) {
    name.Absent? || (name.JsonString? && Trim(name.text) != "")
  }

  /** The user row after a profile update: `updateData` applied field by field. */
  function UpdatedUser(row: UserRow, body: ProfileBody, now: int): (r: UserRow)
    requires NameAcceptable(body.name)
  {
    var name := if body.name.JsonString? then Trim(body.name.text) else row.name;
    var image := match body.image
      case ImageAbsent => row.image
      case ImageNull => None
      case ImageUrl(url) => Some(url);
    row.(name := name, image := image, updatedAt := now)
  }

  /** The database statement that fails during an account deletion, if any. */
  datatype DeleteFault = NoFault | SessionsFail | AccountsFail | UserFail | SignOutFail

  /** The position (1..4) of the failing statement; 5 when none fails. */
  function FailStep(f: DeleteFault): nat {
    match f
    case SessionsFail => 1
    case AccountsFail => 2
    case UserFail => 3
    case SignOutFail => 4
    case NoFault => 5
  }

  /** Statement `k` of the deletion ran to completion. */
  predicate Completes(f: DeleteFault, k: nat) { k < FailStep(f) }

  /** The outcome of resend-verification: the status and the address the library was asked to mail. */
  datatype ResendOutcome = ResendOutcome(status: Status, mailTo: Option<string>)

  /** POST /api/user/resend-verification; `sendOk` is whether the library's send succeeds. */
  function ResendVerification(verb: Method, session: Option<SessionUser>, sendOk: bool): (r: ResendOutcome)
    ensures verb != Post ==> r == ResendOutcome(MethodNotAllowed, None)
    ensures verb == Post && session.None? ==> r == ResendOutcome(Unauthorized, None)
    ensures verb == Post && session.Some? && session.value.emailVerified ==> r == ResendOutcome(BadRequest(AlreadyVerified), None)
    ensures r.mailTo.Some? <==> verb == Post && session.Some? && !session.value.emailVerified
    ensures r.mailTo.Some? ==> r.mailTo.value == session.value.email && (r.status == Ok <==> sendOk) && (r.status != Ok ==> r.status == ServerError)
  {
    if verb != Post then ResendOutcome(MethodNotAllowed, None)
    else if session.None? then ResendOutcome(Unauthorized, None)
    else if session.value.emailVerified then ResendOutcome(BadRequest(AlreadyVerified), None)
    else ResendOutcome(if sendOk then Ok else ServerError, Some(session.value.email))
  }

  /** The reply of GET /api/user/exists. */
  datatype ExistsReply = MissingEmailParam | ExistsAnswer(found: bool)

  /** `email.trim().toLowerCase()` */
  function NormalizeEmail(q: string): string {
    ToLower(Trim(q))
  }

  /** The stored email addresses. */
  function Emails(users: map<string, UserRow>): set<string> {
    set id | id in users :: users[id].email
  }

  /** GET /api/user/exists?email=...: a lookup of the normalised query against the stored emails. */
  function EmailExists(users: map<string, UserRow>, email: Option<string>): (r: ExistsReply)
    ensures r.MissingEmailParam? <==> Falsy(email)
    ensures r.ExistsAnswer? ==> (r.found <==> exists id :: id in users && users[id].email == NormalizeEmail(email.value))
  {
    if Falsy(email) then MissingEmailParam else ExistsAnswer(NormalizeEmail(email.value) in Emails(users))
  }

  // ------------------------------------------------------------------ store

  class AccountStore {
    var users: map<string, UserRow>
    var accounts: seq<AccountRow>
    var sessions: seq<SessionRow>
    /** The calls made into the auth library, oldest first. */
    var calls: seq<LibraryCall>

    constructor (users0: map<string, UserRow>, accounts0: seq<AccountRow>, sessions0: seq<SessionRow>)
      ensures users == users0 && accounts == accounts0 && sessions == sessions0 && calls == []
    {
      users, accounts, sessions, calls := users0, accounts0, sessions0, [];
    }

    /** POST /api/user/unlink-google. `dbFault`: a database statement throws. */
    method UnlinkGoogle(session: Option<SessionUser>, dbFault: bool) returns (status: Status)
      modifies this
      ensures users == old(users) && sessions == old(sessions) && calls == old(calls)
      ensures session.None? ==> status == Unauthorized
      ensures session.Some? && dbFault ==> status == ServerError
      ensures session.Some? && !dbFault ==>
        if UnlinkAllowed(AccountsOf(old(accounts), session.value.id)) then status == Ok
        else status == BadRequest(SetPasswordFirst)
      ensures accounts == if status == Ok then DeleteProvider(old(accounts), session.value.id, GoogleProvider) else old(accounts)
    {
      if session.None? {
        return Unauthorized;
      }
      if dbFault {
        return ServerError;
      }
      var userAccounts := AccountsOf(accounts, session.value.id);
      if !UnlinkAllowed(userAccounts) {
        return BadRequest(SetPasswordFirst);
      }
      accounts := DeleteProvider(accounts, session.value.id, GoogleProvider);
      return Ok;
    }

    /** POST /api/user/set-password. `dbFault`: the account lookup throws; `libraryOk`:
        the library's `setPassword` succeeds, adding the credential row `newAccountId`. */
    method SetInitialPassword(session: Option<SessionUser>, body: Parsed<SetPasswordBody>, dbFault: bool,
                              libraryOk: bool, newAccountId: string) returns (status: Status)
      modifies this
      ensures users == old(users) && sessions == old(sessions)
      ensures session.None? ==> status == Unauthorized
      ensures session.Some? && body.Unparsable? ==> status == ServerError
      ensures session.Some? && body.Parsed? && SetPasswordCheck(body.body.password, body.body.confirmPassword).Some? ==>
        status == BadRequest(SetPasswordCheck(body.body.password, body.body.confirmPassword).value)
      ensures session.Some? && body.Parsed? && SetPasswordCheck(body.body.password, body.body.confirmPassword).None? ==>
        status == (if dbFault then ServerError
                   else if SomeProvider(AccountsOf(old(accounts), session.value.id), CredentialProvider) then BadRequest(AlreadyHasPassword)
                   else if libraryOk then Ok
                   else ServerError)
      ensures calls == if LibraryReached(session, body, dbFault, old(accounts))
                       then old(calls) + [SetPassword(session.value.id, body.body.password.value)] else old(calls)
      ensures accounts == if status == Ok then old(accounts) + [AccountRow(newAccountId, session.value.id, CredentialProvider)]
                          else old(accounts)
    {
      if session.None? {
        return Unauthorized;
      }
      if body.Unparsable? {
        return ServerError;
      }
      var password, confirmPassword := body.body.password, body.body.confirmPassword;
      var problem := SetPasswordCheck(password, confirmPassword);
      if problem.Some? {
        return BadRequest(problem.value);
      }
      if dbFault {
        return ServerError;
      }
      var userAccounts := AccountsOf(accounts, session.value.id);
      if SomeProvider(userAccounts, CredentialProvider) {
        return BadRequest(AlreadyHasPassword);
      }
      calls := calls + [SetPassword(session.value.id, password.value)];
      if !libraryOk {
        return ServerError;
      }
      accounts := accounts + [AccountRow(newAccountId, session.value.id, CredentialProvider)];
      return Ok;
    }

    /** PUT /api/user/password. `lookupFault`: the credential lookup throws with this message;
        `reply`: what the library's `changePassword` does. */
    method ChangeUserPassword(verb: Method, session: Option<SessionUser>, body: Parsed<ChangePasswordBody>,
                              lookupFault: Option<string>, reply: ChangeReply) returns (status: Status)
      modifies this
      ensures users == old(users) && accounts == old(accounts) && sessions == old(sessions)
      ensures verb != Put ==> status == MethodNotAllowed
      ensures verb == Put && session.None? ==> status == Unauthorized
      ensures verb == Put && session.Some? && body.Unparsable? ==> status == ChangeErrorStatus(body.message)
      ensures verb == Put && session.Some? && body.Parsed? && ChangePasswordCheck(body.body.currentPassword, body.body.newPassword).Some? ==>
        status == BadRequest(ChangePasswordCheck(body.body.currentPassword, body.body.newPassword).value)
      ensures ChangeReached(verb, session, body) ==>
        status == (if lookupFault.Some? then ChangeErrorStatus(lookupFault.value)
                   else if !SomeProvider(AccountsOf(old(accounts), session.value.id), CredentialProvider) then BadRequest(OAuthOnly)
                   else match reply
                     case Changed => Ok
                     case NoResult => BadRequest(IncorrectPassword)
                     case Threw(m) => ChangeErrorStatus(m))
      ensures calls == if ChangeReached(verb, session, body) && lookupFault.None?
                          && SomeProvider(AccountsOf(old(accounts), session.value.id), CredentialProvider)
                       then old(calls) + [ChangePassword(session.value.id, body.body.currentPassword.value, body.body.newPassword.value)]
                       else old(calls)
    {
      if verb != Put {
        return MethodNotAllowed;
      }
      if session.None? {
        return Unauthorized;
      }
      if body.Unparsable? {
        return ChangeErrorStatus(body.message);
      }
      var currentPassword, newPassword := body.body.currentPassword, body.body.newPassword;
      var problem := ChangePasswordCheck(currentPassword, newPassword);
      if problem.Some? {
        return BadRequest(problem.value);
      }
      if lookupFault.Some? {
        return ChangeErrorStatus(lookupFault.value);
      }
      var credentialAccount := Filter(AccountsOf(accounts, session.value.id), (r: AccountRow) => r.providerId == CredentialProvider);
      SomeProviderIffFilter(AccountsOf(accounts, session.value.id), CredentialProvider);
      if |credentialAccount| == 0 {
        return BadRequest(OAuthOnly);
      }
      calls := calls + [ChangePassword(session.value.id, currentPassword.value, newPassword.value)];
      match reply
      case Changed => status := Ok;
      case NoResult => status := BadRequest(IncorrectPassword);
      case Threw(m) => status := ChangeErrorStatus(m);
    }

    /** GET /api/user/profile */
    method GetProfile(session: Option<SessionUser>) returns (status: Status, profile: Option<Profile>)
      ensures session.None? ==> status == Unauthorized && profile.None?
      ensures session.Some? && session.value.id !in users ==> status == NotFound && profile.None?
      ensures session.Some? && session.value.id in users ==>
        status == Ok && profile == Some(Profile(session.value.id, users[session.value.id], Flags(AccountsOf(accounts, session.value.id))))
    {
      if session.None? {
        return Unauthorized, None;
      }
      var id := session.value.id;
      if id !in users {
        return NotFound, None;
      }
      var userAccounts := AccountsOf(accounts, id);
      return Ok, Some(Profile(id, users[id], Flags(userAccounts)));
    }

    /** PUT /api/user/profile. `now` is `new Date()`; `dbFault`: the update throws. */
    method UpdateProfile(verb: Method, session: Option<SessionUser>, body: Parsed<ProfileBody>, now: int, dbFault: bool)
      returns (status: Status)
      modifies this
      ensures accounts == old(accounts) && sessions == old(sessions) && calls == old(calls)
      ensures verb != Put ==> status == MethodNotAllowed
      ensures verb == Put && session.None? ==> status == Unauthorized
      ensures verb == Put && session.Some? && body.Unparsable? ==> status == ServerError
      ensures verb == Put && session.Some? && body.Parsed? ==>
        status == (if !NameAcceptable(body.body.name) then BadRequest(InvalidName) else if dbFault then ServerError else Ok)
      ensures users == if status == Ok && session.value.id in old(users)
                       then old(users)[session.value.id := UpdatedUser(old(users)[session.value.id], body.body, now)]
                       else old(users)
    {
      if verb != Put {
        return MethodNotAllowed;
      }
      if session.None? {
        return Unauthorized;
      }
      if body.Unparsable? {
        return ServerError;
      }
      if !NameAcceptable(body.body.name) {
        return BadRequest(InvalidName);
      }
      if dbFault {
        return ServerError;
      }
      var id := session.value.id;
      if id in users {
        users := users[id := UpdatedUser(users[id], body.body, now)];
      }
      return Ok;
    }

    /** DELETE /api/user/delete: three separate deletes, children first, then sign-out;
        `fault` names the statement that throws. */
    method DeleteAccount(verb: Method, session: Option<SessionUser>, fault: DeleteFault) returns (status: Status)
      modifies this
      ensures verb != Delete || session.None? ==>
        users == old(users) && accounts == old(accounts) && sessions == old(sessions) && calls == old(calls)
      ensures verb != Delete ==> status == MethodNotAllowed
      ensures verb == Delete && session.None? ==> status == Unauthorized
      ensures verb == Delete && session.Some? ==>
        && status == (if fault == NoFault then Ok else ServerError)
        && sessions == (if Completes(fault, 1) then DeleteSessionsOf(old(sessions), session.value.id) else old(sessions))
        && accounts == (if Completes(fault, 2) then DeleteAccountsOf(old(accounts), session.value.id) else old(accounts))
        && users == (if Completes(fault, 3) then old(users) - {session.value.id} else old(users))
        && calls == (if Completes(fault, 3) then old(calls) + [SignOut(session.value.id)] else old(calls))
    {
      if verb != Delete {
        return MethodNotAllowed;
      }
      if session.None? {
        return Unauthorized;
      }
      var userId := session.value.id;
      if fault == SessionsFail {
        return ServerError;
      }
      sessions := DeleteSessionsOf(sessions, userId);
      if fault == AccountsFail {
        return ServerError;
      }
      accounts := DeleteAccountsOf(accounts, userId);
      if fault == UserFail {
        return ServerError;
      }
      users := users - {userId};
      calls := calls + [SignOut(userId)];
      if fault == SignOutFail {
        return ServerError;
      }
      return Ok;
    }
  }

  datatype SetPasswordBody = SetPasswordBody(password: Option<string>, confirmPassword: Option<string>)
  datatype ChangePasswordBody = ChangePasswordBody(currentPassword: Option<string>, newPassword: Option<string>)

  /** The set-password handler gets as far as calling the library. */
  predicate LibraryReached(session: Option<SessionUser>, body: Parsed<SetPasswordBody>, dbFault: bool, rows: seq<AccountRow>) {
    && session.Some? && body.Parsed?
    && SetPasswordCheck(body.body.password, body.body.confirmPassword).None?
    && !dbFault
    && !SomeProvider(AccountsOf(rows, session.value.id), CredentialProvider)
  }

  /** The change-password handler gets past its validation to the credential lookup. */
  predicate ChangeReached(verb: Method, session: Option<SessionUser>, body: Parsed<ChangePasswordBody>) {
    verb == Put && session.Some? && body.Parsed?
    && ChangePasswordCheck(body.body.currentPassword, body.body.newPassword).None?
  }

  // ------------------------------------------------------------------ lemmas

  lemma {:induction false} SomeProviderIff(s: seq<AccountRow>, p: string)
    ensures SomeProvider(s, p) <==> exists r :: r in s && r.providerId == p
    decreases |s|
  {
    if s != [] {
      SomeProviderIff(s[1..], p);
      assert s == [s[0]] + s[1..];
    }
  }

  lemma SomeProviderIffFilter(s: seq<AccountRow>, p: string)
    ensures SomeProvider(s, p) <==> |Filter(s, (r: AccountRow) => r.providerId == p)| > 0
  {
    var f := Filter(s, (r: AccountRow) => r.providerId == p);
    SomeProviderIff(s, p);
    if SomeProvider(s, p) {
      var r :| r in s && r.providerId == p;
      FilterMembership(s, (r: AccountRow) => r.providerId == p, r);
    }
    if |f| > 0 {
      FilterMembership(s, (r: AccountRow) => r.providerId == p, f[0]);
    }
  }

  /** `.some` over the user's rows agrees with the reference reading. */
  lemma OwnsIff(rows: seq<AccountRow>, u: string, p: string)
    ensures SomeProvider(AccountsOf(rows, u), p) <==> Owns(rows, u, p)
  {
    SomeProviderIff(AccountsOf(rows, u), p);
    forall r ensures r in AccountsOf(rows, u) <==> r in rows && r.userId == u {
      AccountsOfMembership(rows, u, r);
    }
  }

  lemma AccountsOfMembership(rows: seq<AccountRow>, u: string, r: AccountRow)
    ensures r in AccountsOf(rows, u) <==> r in rows && r.userId == u
  {
    FilterMembership(rows, (r: AccountRow) => r.userId == u, r);
  }

  /** Unlink is refused exactly when the user has no credential row and at most one row. */
  lemma UnlinkRefusedIff(rows: seq<AccountRow>, u: string)
    ensures !UnlinkAllowed(AccountsOf(rows, u)) <==> !Owns(rows, u, CredentialProvider) && |AccountsOf(rows, u)| <= 1
  {
    OwnsIff(rows, u, CredentialProvider);
  }

  /** The unlink delete removes exactly the user's google rows. */
  lemma DeleteProviderMembership(rows: seq<AccountRow>, u: string, p: string, r: AccountRow)
    ensures r in DeleteProvider(rows, u, p) <==> r in rows && !(r.userId == u && r.providerId == p)
  {
    FilterMembership(rows, (r: AccountRow) => !(r.userId == u && r.providerId == p), r);
  }

  /** After the unlink delete the user owns no google row. */
  lemma NoGoogleAfterUnlink(rows: seq<AccountRow>, u: string)
    ensures !Owns(DeleteProvider(rows, u, GoogleProvider), u, GoogleProvider)
  {
    forall r | r in DeleteProvider(rows, u, GoogleProvider)
      ensures !(r.userId == u && r.providerId == GoogleProvider)
    {
      DeleteProviderMembership(rows, u, GoogleProvider, r);
    }
  }

  /** The rows of every other user are the same, in the same order, after the unlink delete. */
  lemma UnlinkKeepsOtherUsers(rows: seq<AccountRow>, u: string, v: string)
    requires v != u
    ensures AccountsOf(DeleteProvider(rows, u, GoogleProvider), v) == AccountsOf(rows, v)
  {
    FilterThenStricter(rows, (r: AccountRow) => !(r.userId == u && r.providerId == GoogleProvider), (r: AccountRow) => r.userId == v);
  }

  /** A user with a credential row passes the guard and keeps that row. */
  lemma CredentialSurvivesUnlink(rows: seq<AccountRow>, u: string)
    requires Owns(rows, u, CredentialProvider)
    ensures UnlinkAllowed(AccountsOf(rows, u))
    ensures Owns(DeleteProvider(rows, u, GoogleProvider), u, CredentialProvider)
  {
    OwnsIff(rows, u, CredentialProvider);
    var r :| r in rows && r.userId == u && r.providerId == CredentialProvider;
    DeleteProviderMembership(rows, u, GoogleProvider, r);
  }

  /** The guard never asks for a google row: a user without one passes (given a credential
      or two rows) and the delete removes nothing. */
  lemma UnlinkWithoutGoogleDeletesNothing(rows: seq<AccountRow>, u: string)
    requires !Owns(rows, u, GoogleProvider)
    ensures DeleteProvider(rows, u, GoogleProvider) == rows
  {
    forall i | 0 <= i < |rows|
      ensures !(rows[i].userId == u && rows[i].providerId == GoogleProvider)
    {
      assert rows[i] in rows;
    }
    FilterKeepsAll(rows, (r: AccountRow) => !(r.userId == u && r.providerId == GoogleProvider));
  }

  /** A user whose only row is a credential row gets success from unlink, and nothing is deleted. */
  lemma CredentialOnlyUnlinkIsNoOp(u: string, id: string)
    ensures UnlinkAllowed(AccountsOf([AccountRow(id, u, CredentialProvider)], u))
    ensures DeleteProvider([AccountRow(id, u, CredentialProvider)], u, GoogleProvider) == [AccountRow(id, u, CredentialProvider)]
  {
    var rows := [AccountRow(id, u, CredentialProvider)];
    assert rows[0] in rows;
    CredentialSurvivesUnlink(rows, u);
    UnlinkWithoutGoogleDeletesNothing(rows, u);
  }

  /** Two or more rows, all google and none a credential: the guard passes and the user
      is left with no account row at all. */
  lemma AllGoogleUnlinkLeavesNothing(rows: seq<AccountRow>, u: string)
    requires |AccountsOf(rows, u)| >= 2
    requires forall r :: r in rows && r.userId == u ==> r.providerId == GoogleProvider
    ensures UnlinkAllowed(AccountsOf(rows, u))
    ensures AccountsOf(DeleteProvider(rows, u, GoogleProvider), u) == []
  {
    var after := AccountsOf(DeleteProvider(rows, u, GoogleProvider), u);
    if after != [] {
      AccountsOfMembership(DeleteProvider(rows, u, GoogleProvider), u, after[0]);
      DeleteProviderMembership(rows, u, GoogleProvider, after[0]);
      assert false;
    }
  }

  /** The unlink handler's outcome on the two-google-rows table: success, and no row left. */
  lemma TwoGoogleRowsUnlink(u: string)
    ensures UnlinkAllowed(AccountsOf([AccountRow("a1", u, GoogleProvider), AccountRow("a2", u, GoogleProvider)], u))
    ensures AccountsOf(DeleteProvider([AccountRow("a1", u, GoogleProvider), AccountRow("a2", u, GoogleProvider)], u, GoogleProvider), u) == []
  {
    var rows := [AccountRow("a1", u, GoogleProvider), AccountRow("a2", u, GoogleProvider)];
    FilterKeepsAll(rows, (r: AccountRow) => r.userId == u);
    AllGoogleUnlinkLeavesNothing(rows, u);
  }

  /** The set-password ladder admits exactly the matching strong passwords. */
  lemma SetPasswordAdmitsIff(password: string, confirm: string)
    ensures SetPasswordCheck(Some(password), Some(confirm)).None? <==> password == confirm && StrongPassword(password)
  {
  }

  /** Change-password enforces only the length: a password without upper-case letters or
      digits is accepted there and refused by set-password. */
  lemma ChangeAcceptsWeakPassword()
    ensures ChangePasswordCheck(Some("old"), Some("abcdefgh")).None?
    ensures SetPasswordCheck(Some("abcdefgh"), Some("abcdefgh")) == Some(NoUppercase)
  {
    assert !HasUpper("abcdefgh");
  }

  /** The profile flags say exactly which providers the user has a row for. */
  lemma FlagsIff(rows: seq<AccountRow>, u: string)
    ensures Flags(AccountsOf(rows, u)).hasPassword <==> Owns(rows, u, CredentialProvider)
    ensures Flags(AccountsOf(rows, u)).google <==> Owns(rows, u, GoogleProvider)
    ensures Flags(AccountsOf(rows, u)).github <==> Owns(rows, u, GithubProvider)
  {
    OwnsIff(rows, u, CredentialProvider);
    OwnsIff(rows, u, GoogleProvider);
    OwnsIff(rows, u, GithubProvider);
  }

  /** A profile showing hasPassword is one the unlink guard lets through. */
  lemma HasPasswordPassesUnlinkGuard(mine: seq<AccountRow>)
    requires Flags(mine).hasPassword
    ensures UnlinkAllowed(mine)
  {
  }

  /** A name is refused exactly when it is supplied and is not a string or is all white space. */
  lemma NameAcceptableIff(name: JsonField)
    ensures !NameAcceptable(name) <==> !name.Absent? && (!name.JsonString? || AllWhitespace(name.text))
  {
    if name.JsonString? {
      TrimEmptyIff(name.text);
    }
  }

  /** A profile update stores a supplied name trimmed and a supplied image verbatim, keeps
      what the body omits, and always sets updatedAt. */
  lemma UpdatedUserFields(row: UserRow, body: ProfileBody, now: int)
    requires NameAcceptable(body.name)
    ensures UpdatedUser(row, body, now).updatedAt == now
    ensures UpdatedUser(row, body, now).email == row.email && UpdatedUser(row, body, now).emailVerified == row.emailVerified
    ensures body.name.Absent? ==> UpdatedUser(row, body, now).name == row.name
    ensures body.name.JsonString? ==> UpdatedUser(row, body, now).name == Trim(body.name.text) != ""
    ensures body.image.ImageAbsent? ==> UpdatedUser(row, body, now).image == row.image
    ensures body.image.ImageUrl? ==> UpdatedUser(row, body, now).image == Some(body.image.url)
    ensures body.image.ImageNull? ==> UpdatedUser(row, body, now).image == None
  {
  }

  lemma TrimIdempotent(s: string)
    ensures Trim(Trim(s)) == Trim(s)
  {
    var t := Trim(s);
    if t != [] {
      assert TrimStart(t) == t;
      assert TrimEnd(t) == t;
    }
  }

  /** Repeating a profile update changes nothing more. */
  lemma UpdateProfileIdempotent(row: UserRow, body: ProfileBody, now: int)
    requires NameAcceptable(body.name)
    ensures NameAcceptable(body.name) && UpdatedUser(UpdatedUser(row, body, now), body, now) == UpdatedUser(row, body, now)
  {
    if body.name.JsonString? {
      TrimIdempotent(body.name.text);
    }
  }

  /** After the deletion cascade no session or account row of the user remains, and the
      rows of every other user are unchanged. */
  lemma DeleteCascadeClears(accounts: seq<AccountRow>, sessions: seq<SessionRow>, u: string, v: string)
    requires v != u
    ensures AccountsOf(DeleteAccountsOf(accounts, u), u) == []
    ensures forall r :: r in DeleteSessionsOf(sessions, u) ==> r.userId != u
    ensures AccountsOf(DeleteAccountsOf(accounts, u), v) == AccountsOf(accounts, v)
    ensures Filter(DeleteSessionsOf(sessions, u), (r: SessionRow) => r.userId == v)
         == Filter(sessions, (r: SessionRow) => r.userId == v)
  {
    var after := AccountsOf(DeleteAccountsOf(accounts, u), u);
    if after != [] {
      AccountsOfMembership(DeleteAccountsOf(accounts, u), u, after[0]);
      FilterMembership(accounts, (r: AccountRow) => r.userId != u, after[0]);
      assert false;
    }
    forall r | r in DeleteSessionsOf(sessions, u) ensures r.userId != u {
      FilterMembership(sessions, (r: SessionRow) => r.userId != u, r);
    }
    FilterThenStricter(accounts, (r: AccountRow) => r.userId != u, (r: AccountRow) => r.userId == v);
    FilterThenStricter(sessions, (r: SessionRow) => r.userId != u, (r: SessionRow) => r.userId == v);
  }

  /** The normalised query is the trimmed, lower-cased text either way round. */
  lemma NormalizeEmailTrimsLowered(q: string)
    ensures NormalizeEmail(q) == Trim(ToLower(q))
  {
    TrimLowerCommute(q);
  }

  /** Queries that differ only in letter case get the same answer. */
  lemma ExistsIgnoresCase(users: map<string, UserRow>, q1: string, q2: string)
    requires ToLower(q1) == ToLower(q2)
    ensures EmailExists(users, Some(q1)) == EmailExists(users, Some(q2))
  {
    NormalizeEmailTrimsLowered(q1);
    NormalizeEmailTrimsLowered(q2);
  }

  /** Queries that differ only in surrounding white space get the same answer. */
  lemma ExistsIgnoresSurroundingSpace(users: map<string, UserRow>, w1: string, q: string, w2: string)
    requires AllWhitespace(w1) && AllWhitespace(w2) && q != ""
    ensures EmailExists(users, Some(w1 + q + w2)) == EmailExists(users, Some(q))
  {
    TrimSurrounding(w1, q, w2);
  }

  /** Stored emails are not normalised: one holding an upper-case letter is never found. */
  lemma UppercaseEmailNeverMatches(users: map<string, UserRow>, id: string, q: string)
    requires id in users && HasUpper(users[id].email)
    ensures NormalizeEmail(q) != users[id].email
  {
  }
}
