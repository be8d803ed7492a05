# Base SaaS starter: the account, blog and language logic in Dafny

This project models the application's own decision logic, without the
libraries and services around it:

- **User routes.** These are the `/api/user/*` handlers:
  - unlink Google
  - set an initial password
  - change the password
  - read and update the profile
  - delete the account
  - resend the verification email
  - look up whether an email address exists

  They work over in-memory `user`, `account` and `session` tables in the
  `Accounts.AccountStore` class. Each one checks its guards in order, answers
  with a status, and changes only the tables the handler writes.
- **Blog routes.** `/api/blog` is a post table (`BlogApi.BlogStore`) with
  create, update and delete guarded by ownership. The listing is sorted
  newest first.
- **Avatar upload.** `/api/user/avatar-upload` checks the size and the MIME
  type, builds the storage key and the proxy URL, and writes to a key→object
  bucket (`AvatarUpload.AvatarBucket`).
- **Language resolution.** This covers:
  - the email language (`resolveLanguage`, `getEmailCopy`)
  - the browser language
  - the translation-bundle fallback
  - the request language that the auth server reads from a cookie or a header
- **Auth-server helpers.** The list of trusted origins and the link in a
  verification email.
- **Client pages.** The checks each page makes before calling the server, and
  how it turns the server's error messages into translated texts. The pages
  are profile, register, sign-in, reset password and forgot password. Each
  page's state is a class whose handlers update it step by step, as the React
  state setters do.
- **Small helpers.** The generated avatar URL, the navbar initials and
  language labels, the sidebar's label lookup and active test, and the page
  title and copyright line.

The auth library is an oracle. The session it resolves, and the outcome of its
`setPassword`, `changePassword`, `signOut` and mail sending, are parameters.
The calls a handler makes into it are recorded, so "the library was not called"
can be stated.

Other things are parameters too:
- database failures
- the clock
- `crypto.randomUUID`
- the server's reply to a page's `fetch`
- the answer to a `confirm` dialog

`encodeURIComponent` and `decodeURIComponent` are function-typed parameters
with no definition. `trim`, `toLowerCase` and `toUpperCase` act on ASCII
letters and white space.

Each source file is one module. `Strings`, `Rows`, `Wrappers`, `Api`,
`ClientMessages` and `PasswordIndicators` hold what several modules share.

## Model

| member | source | states |
|---|---|---|
| Accounts.AccountStore.UnlinkGoogle | app/routes/api.user.unlink-google.tsx:10-63 | 401 without a session, 500 on a database fault, 400 when the row-count guard refuses, otherwise 200. The account table loses exactly the caller's google rows on 200 and is unchanged otherwise; users, sessions and library calls are untouched |
| Accounts.UnlinkRefusedIff | app/routes/api.user.unlink-google.tsx:32-43 | unlink is refused exactly when the user has no credential row and at most one account row |
| Accounts.NoGoogleAfterUnlink | app/routes/api.user.unlink-google.tsx:45-50 | after the delete the user owns no google row |
| Accounts.UnlinkKeepsOtherUsers | app/routes/api.user.unlink-google.tsx:45-50 | every other user's rows are the same and in the same order after the delete |
| Accounts.CredentialSurvivesUnlink | app/routes/api.user.unlink-google.tsx:32-50 | a user with a credential row passes the guard and keeps that row |
| Accounts.UnlinkWithoutGoogleDeletesNothing | app/routes/api.user.unlink-google.tsx:35-54 | a user with no google row loses nothing: the guard never asks for one |
| Accounts.CredentialOnlyUnlinkIsNoOp | app/routes/api.user.unlink-google.tsx:35-54 | a user whose only row is a credential passes the guard, and nothing is deleted |
| Accounts.AllGoogleUnlinkLeavesNothing | app/routes/api.user.unlink-google.tsx:35-50 | two or more rows, all google: the guard passes and the user is left with no account row |
| Accounts.TwoGoogleRowsUnlink | app/routes/api.user.unlink-google.tsx:35-50 | concrete instance: two google rows pass the guard and both are removed |
| Accounts.SetPasswordCheck | app/routes/api.user.set-password.tsx:31-72 | the first failing check decides, in this order: missing field, mismatch, length outside 8..20, no A-Z, no a-z, no 0-9. It passes exactly for a matching strong password |
| Accounts.SetPasswordAdmitsIff | app/routes/api.user.set-password.tsx:38-72 | the ladder admits exactly the pairs that are equal and strong |
| Accounts.AccountStore.SetInitialPassword | app/routes/api.user.set-password.tsx:10-108 | 401 before the body is read. A validation failure returns 400 without reading accounts or calling the library. An existing credential returns 400 without calling the library. Otherwise the library is called with the submitted password, and a credential row is added only on success. A thrown error returns 500 |
| Accounts.ChangePasswordCheck | app/routes/api.user.password.tsx:40-46 | both fields present, and the new password 8..20 long; no character-class rule |
| Accounts.ChangeAcceptsWeakPassword | app/routes/api.user.password.tsx:44-46 | a lower-case-only password passes change-password yet is refused by set-password |
| Accounts.ChangeErrorStatus | app/routes/api.user.password.tsx:82-92 | a thrown message naming "password" or "incorrect" gives 400; anything else gives 500 |
| Accounts.AccountStore.ChangeUserPassword | app/routes/api.user.password.tsx:14-92 | 405 for a method other than PUT, checked before the session; then 401; then the field checks. No credential row gives 400 without calling the library. A falsy library result gives 400 "incorrect", and thrown errors are classified. No table changes |
| Accounts.AccountStore.GetProfile | app/routes/api.user.profile.tsx:14-75 | 401 without a session, 404 without a user row, else the row with its provider flags |
| Accounts.FlagsIff | app/routes/api.user.profile.tsx:52-54 | hasPassword, google and github are each true exactly when the user has a row with that provider |
| Accounts.NameAcceptableIff | app/routes/api.user.profile.tsx:100-102 | a name is refused exactly when it is supplied and is either not a string or all white space |
| Accounts.UpdatedUserFields | app/routes/api.user.profile.tsx:105-121 | a supplied name is stored trimmed, a supplied image verbatim and a supplied null image as none, omitted fields are kept, and updatedAt is always set |
| Accounts.UpdateProfileIdempotent | app/routes/api.user.profile.tsx:105-121 | applying the same update twice equals applying it once |
| Accounts.AccountStore.UpdateProfile | app/routes/api.user.profile.tsx:77-127 | 405 for a method other than PUT, 401 without a session, 400 for a bad name. On 200 only the session user's row changes, to the updated row. No other table changes |
| Accounts.AccountStore.DeleteAccount | app/routes/api.user.delete.tsx:14-47 | 405 and 401 delete nothing. Sessions, then accounts, then the user row go in separate steps, then sign-out. A failure at any step keeps the earlier deletes and returns 500 |
| Accounts.DeleteCascadeClears | app/routes/api.user.delete.tsx:36-38 | after the cascade no session or account row of the user remains, and every other user's sessions and accounts are unchanged, in order |
| Accounts.ResendVerification | app/routes/api.user.resend-verification.tsx:11-47 | 405 before the session is read; 401; 400 for an already verified user with no mail sent. Otherwise the mail goes to the session user's own address, and a send failure gives 500 |
| Accounts.EmailExists | app/routes/api.user.exists.tsx:9-26 | a missing or empty parameter gives 400. Otherwise the answer is true exactly when a stored email equals the trimmed, lower-cased query |
| Accounts.NormalizeEmailTrimsLowered | app/routes/api.user.exists.tsx:23 | trimming then lower-casing is lower-casing then trimming |
| Accounts.ExistsIgnoresCase | app/routes/api.user.exists.tsx:23 | queries that differ only in letter case get the same answer |
| Accounts.ExistsIgnoresSurroundingSpace | app/routes/api.user.exists.tsx:23 | queries that differ only in surrounding white space get the same answer |
| Accounts.UppercaseEmailNeverMatches | app/routes/api.user.exists.tsx:20-26 | a stored email holding an upper-case letter is never found |
| Accounts.HasPasswordPassesUnlinkGuard | app/routes/api.user.unlink-google.tsx:32-35 | a profile showing hasPassword passes the unlink guard |
| BlogApi.ValidatePost | app/routes/api.blog.tsx:12-15 | the first schema issue: a title that is not a string, empty, or over 100 characters, then content that is not a string or empty. It passes exactly when both are well formed |
| BlogApi.Find | app/routes/api.blog.tsx:33-35 | a returned row is in the table and has the id; no row means no row has that id |
| BlogApi.FindIff | app/routes/api.blog.tsx:33-35 | a row with the id exists exactly when Find returns one |
| BlogApi.FindUnique | app/routes/api.blog.tsx:33-35 | under the primary key the found row is the only one with that id |
| BlogApi.CheckTarget | app/routes/api.blog.tsx:82-93 | the checks run in the order missing id (400), unknown id (404), another author (403), and pass only for the author's existing post |
| BlogApi.BlogStore.Loader | app/routes/api.blog.tsx:27-44 | with an id, the post or 404; without one, every post newest first |
| BlogApi.BlogStore.Action | app/routes/api.blog.tsx:47-139 | 401 without a session and 405 for other methods, both leaving the table unchanged. POST appends one row authored by the caller (201). PUT and DELETE run the ownership ladder before PUT validates the content. PUT rewrites only title, content and updatedAt of that post. DELETE removes exactly that post. Any refusal leaves the table unchanged; the primary key is kept |
| BlogApi.FindAfterReplace | app/routes/api.blog.tsx:104-111 | after an update the post carries the new title and content and keeps its author and creation time |
| BlogApi.ReplaceKeepsOthers | app/routes/api.blog.tsx:104-111 | an update leaves every other post as it was |
| BlogApi.FindAfterCreate | app/routes/api.blog.tsx:68-74 | after a create the new id finds the new row |
| BlogApi.FindAfterDelete | app/routes/api.blog.tsx:134-136 | after a delete the id finds nothing and every other post is still found |
| BlogApi.OnlyAuthorMayChange | app/routes/api.blog.tsx:91-93 | another user's update or delete is refused with 403 |
| BlogApi.SortNewestFirst | app/routes/api.blog.tsx:42 | the listing is a permutation of the table (same multiset) and is newest first |
| BlogApi.ReplacePost | app/routes/api.blog.tsx:104-111 | same length; rows with another id are unchanged; rows with the id get the new title, content and updatedAt and keep id, author and creation time |
| BlogApi.RemovePost | app/routes/api.blog.tsx:134 | a row remains exactly when it was in the table and has another id |
| AvatarUpload.UploadCheck | app/routes/api.user.avatar-upload.tsx:26-36 | missing or non-file entry, then size over 2 MiB, then a type outside the allow-list; size is checked before type |
| AvatarUpload.SizeLimitInclusive | app/routes/api.user.avatar-upload.tsx:30-32 | exactly 2 MiB passes; one byte more does not |
| AvatarUpload.Extension | app/routes/api.user.avatar-upload.tsx:38 | the extension is never empty and never holds a '/' |
| AvatarUpload.AvatarKey | app/routes/api.user.avatar-upload.tsx:39 | with no '/' in the user id or the uuid, the key is exactly two path segments: the user id, then a file name starting with the time, '-', the uuid and '.' |
| AvatarUpload.ImageExtension | app/routes/api.user.avatar-upload.tsx:38 | for `image/<sub>` the extension is `<sub>` |
| AvatarUpload.AllowedTypeExtensions | app/routes/api.user.avatar-upload.tsx:8-38 | every accepted type has its own subtype as extension, so jpeg uploads get ".jpeg" and the "jpg" fallback never applies |
| AvatarUpload.ExtensionFallback | app/routes/api.user.avatar-upload.tsx:38 | a type with no slash falls back to "jpg" |
| AvatarUpload.KeyBelongsToUser | app/routes/api.user.avatar-upload.tsx:39 | a key starts with `<userId>/` |
| AvatarUpload.KeysDifferByUuid | app/routes/api.user.avatar-upload.tsx:39 | two uploads of one user in the same millisecond with different UUIDs get different keys |
| AvatarUpload.KeysDifferByUser | app/routes/api.user.avatar-upload.tsx:39 | users whose ids have no slash never share a key |
| AvatarUpload.AvatarUrl | app/routes/api.user.avatar-upload.tsx:47 | the URL is the proxy route followed by the encoded key |
| AvatarUpload.AvatarBucket.Upload | app/routes/api.user.avatar-upload.tsx:10-53 | 405, then 401, then the upload checks. On success the object is stored under the returned key, and the URL is the key's proxy URL. A storage failure gives 500 with the bucket unchanged |
| EmailI18n.ResolveLower | app/lib/email-i18n.ts:52-58 | the if-chain as one iff per language: traditional Chinese exactly when the lower-cased tag starts with "zh-tw" or contains "hant"; simplified Chinese exactly for the other "zh" tags; Japanese, French, Korean and Spanish exactly for their two-letter prefixes when "hant" is absent; English exactly when none of these applies |
| EmailI18n.ResolveLanguage | app/lib/email-i18n.ts:49-59 | English for a missing or empty tag; otherwise the if-chain (ResolveLower) applied to the lower-cased tag |
| EmailI18n.ResolveIgnoresCase | app/lib/email-i18n.ts:51 | a tag and its lower-cased and upper-cased forms resolve alike |
| EmailI18n.ResolveChineseVariants | app/lib/email-i18n.ts:52-53 | "zh-Hant-HK" gives traditional Chinese, "zh-HK" simplified, "ZH-TW" traditional |
| EmailI18n.ResolveFixedPoint | app/lib/email-i18n.ts:49-59 | each language's own code resolves to that language |
| EmailI18n.ResolveIdempotent | app/lib/email-i18n.ts:49-59 | resolving the code of a resolved language gives that language again |
| EmailI18n.TableComplete | app/lib/email-i18n.ts:61-462 | the table has an entry for each of the seven languages and each of welcome, verify and reset |
| EmailI18n.GetEmailCopy | app/lib/email-i18n.ts:471-475 | the copy is the table entry for the resolved language and the requested kind |
| I18nTypes.AllLanguagesListed | app/lib/i18n/types.ts:4 | the seven languages are listed, each once |
| I18nTypes.CodeInjective | app/lib/i18n/types.ts:4 | distinct languages have distinct codes |
| I18nTypes.LanguageNamesComplete | app/lib/i18n/types.ts:217-225 | every language has a display name, and no two share one |
| I18nTypes.BrowserLanguage | app/lib/i18n/types.ts:228-239 | no navigator gives English; for a tag, Japanese, French, Korean and Spanish exactly when it starts with "ja", "fr", "ko" or "es", and English exactly when it starts with none of those nor "zh"; any non-English result's two-letter code prefixes the tag |
| I18nTypes.BrowserLanguageOfCode | app/lib/i18n/types.ts:228-239 | a browser reporting one of the application's codes gets that language |
| I18nTypes.BrowserChineseVariants | app/lib/i18n/types.ts:232-233 | for every tag: traditional Chinese exactly for the "zh-TW" and "zh-Hant" prefixes, simplified Chinese exactly for the other "zh" tags; so "zh-HK" gives simplified and "zh-Hant-HK" traditional |
| I18nTypes.BrowserLanguageCaseSensitive | app/lib/i18n/types.ts:232-238 | prefixes are compared case-sensitively: any tag starting with an upper-case letter, "ZH-CN" and "ZH-TW" among them, gives English |
| I18nIndex.GetTranslation | app/lib/i18n/index.ts:28-30 | the language's own bundle when the table has one, else English; never missing |
| I18nIndex.TranslationFallback | app/lib/i18n/index.ts:18-29 | English, simplified and traditional Chinese and Japanese get their own bundle; French, Korean and Spanish get English |
| I18nIndex.BundlesDistinct | app/lib/i18n/index.ts:18-23 | distinct bundled languages never share a bundle |
| AuthServer.BuildTrustedOrigins | app/lib/auth.server.ts:133-145 | the two local origins first; the configured URL is appended exactly when it is non-empty and does not contain "localhost" |
| AuthServer.CookieLanguage | app/lib/auth.server.ts:154 | the captured value is non-empty and contains no ';' |
| AuthServer.CookieLanguageLeftmost | app/lib/auth.server.ts:154 | the cookie matches exactly when the pattern occurs with a non-empty value. The value is what follows the leftmost match, up to the next ';' |
| AuthServer.GetRequestLanguage | app/lib/auth.server.ts:150-160 | nothing without a request; when the cookie is missing, empty or does not match, the Accept-Language header if non-empty, else nothing; nothing is returned only without a request or with a falsy header |
| AuthServer.CookieBeatsHeader | app/lib/auth.server.ts:152-156 | a matching cookie wins over the header, whatever the header says |
| AuthServer.EmptyCookieValueFallsThrough | app/lib/auth.server.ts:154-158 | "app-language=;" does not match, so the header decides |
| AuthServer.LeadingCookieEntry | app/lib/auth.server.ts:154 | a cookie starting with the entry yields the value up to the first ';' |
| AuthServer.VerificationUrl | app/lib/auth.server.ts:54-58 | the link starts with the configured base, or the local front end |
| AuthServer.VerificationQueryReadsBack | app/lib/auth.server.ts:58 | the query splits back into the encoded token and the encoded callback URL, when the encoding leaves no '&' |
| AuthServer.VerificationUrlDefaults | app/lib/auth.server.ts:55-57 | token "", callback "/dashboard" and base "http://localhost:5173" when nothing is given |
| Utils.Seed | app/lib/utils.ts:27 | the seed is never empty and is the name, else the email, else "user" |
| Utils.SeedOrder | app/lib/utils.ts:27 | a non-empty name wins; an empty name with a non-empty email gives the email |
| Utils.GetUserAvatarUrl | app/lib/utils.ts:16-29 | an image that is not blank is returned unchanged; otherwise the generated-avatar prefix plus the encoded seed. The result is never empty |
| Utils.BlankImageFallsBack | app/lib/utils.ts:22-28 | an all-white-space image counts as none |
| Utils.PaddedImageKept | app/lib/utils.ts:22-24 | an image with content is returned with its surrounding white space, not trimmed |
| Navbar.GetInitials | app/components/navbar.tsx:45-52 | at most two characters, with no lower-case letter |
| Navbar.InitialsOfEmptyName | app/components/navbar.tsx:45-52 | the empty name has no initials |
| Navbar.LeadingSpaceIgnored | app/components/navbar.tsx:47-49 | a leading space gives the initials of the name without it |
| Navbar.TrailingSpaceIgnored | app/components/navbar.tsx:47-49 | a trailing space gives the initials of the name without it |
| Navbar.DoubledSpaceIgnored | app/components/navbar.tsx:47-49 | a doubled space after the first word gives the initials of a single space |
| Navbar.EmptyPieceIgnored | app/components/navbar.tsx:47-49 | an empty piece inserted anywhere among the pieces adds nothing to the joined initials |
| Navbar.TwoWordInitials | app/components/navbar.tsx:46-51 | two words give their first letters, upper-cased, in order |
| Navbar.InitialsExample | app/components/navbar.tsx:46-51 | "ada lovelace" gives "AL" |
| Navbar.AtMostTwoInitials | app/components/navbar.tsx:51 | a third word adds nothing |
| Navbar.LanguageMenuComplete | app/components/navbar.tsx:26-34 | the menu lists each language exactly once, and each has a short label |
| Navbar.LangShortDistinct | app/components/navbar.tsx:26-34 | no two languages share a short label |
| AppSidebar.GetLabel | app/components/app-sidebar.tsx:62-69 | the loop's result is the label specified by walking the key's segments, with the key as fallback |
| AppSidebar.WalkAppend | app/components/app-sidebar.tsx:65-67 | walking a path is walking its first part and then the rest |
| AppSidebar.MissingSegmentGivesKey | app/components/app-sidebar.tsx:65-68 | a missing segment makes the label the key |
| AppSidebar.PathThroughTextGivesKey | app/components/app-sidebar.tsx:65-68 | a path that continues past a text reaches nothing, and the label is the key |
| AppSidebar.TwoSegmentLabel | app/components/app-sidebar.tsx:68 | a two-segment key finds the text under its group; an empty text gives the key |
| AppSidebar.NotActiveBelow | app/components/app-sidebar.tsx:104 | an item is not active on a longer path under it |
| AppConfig.GetPageTitle | config/app.ts:114-116 | the title followed by " \| Base SaaS" |
| AppConfig.PageTitleInjective | config/app.ts:114-116 | distinct titles stay distinct, and the title can be recovered |
| AppConfig.GetCopyrightText | config/app.ts:121-123 | "© 2025 Base SaaS. All rights reserved." |
| PasswordIndicators.Validation | app/routes/dashboard.profile.tsx:96-102 | the four strength indicators are all on exactly when the server's strength rule accepts the password; the match indicator is on exactly for a non-empty equal confirmation |
| PasswordIndicators.ValidIff | app/routes/dashboard.profile.tsx:96-110 | the five indicators all hold exactly for a non-empty, matching confirmation of a strong 8..20 password |
| PasswordIndicators.ValidPassesServer | app/routes/dashboard.profile.tsx:96-110 | a pair the indicators accept passes every check of the set-password handler |
| PasswordIndicators.ServerAdmittedIsValid | app/routes/api.user.set-password.tsx:31-72 | a pair the set-password ladder admits lights every indicator |
| ProfilePage.CurrentAvatar | app/routes/dashboard.profile.tsx:114-122 | the preview if set, else the user's avatar URL, else nothing; never an empty URL |
| ProfilePage.ChangeDisabled | app/routes/dashboard.profile.tsx:694 | the change button is enabled exactly when nothing is saving, the current password is non-empty and the new password is a strong one confirmed exactly |
| ProfilePage.SetDisabled | app/routes/dashboard.profile.tsx:772 | the set button is enabled exactly when nothing is saving and the password is a strong one confirmed exactly |
| ProfilePage.ChangeEnabledPassesServer | app/routes/dashboard.profile.tsx:694 | an enabled change button means the request passes the change-password field checks, and the stricter set-password ladder too |
| ProfilePage.SetEnabledPassesServer | app/routes/dashboard.profile.tsx:772 | an enabled set button means the request passes the whole set-password ladder |
| ProfilePage.ChangeErrorKey | app/routes/dashboard.profile.tsx:389-393 | "incorrect" in the error gives currentPasswordWrong; anything else gives updateFailed |
| ProfilePage.ChangeErrorMatchesServer | app/routes/api.user.password.tsx:16-91 | over every failure reply of the change-password handler, the page shows currentPasswordWrong exactly for the 400 "incorrect" reply |
| ProfilePage.ServerOr | app/routes/dashboard.profile.tsx:171 | the server's message when it is non-empty, else the translated fallback |
| ProfilePage.ProfileCard.HandleUnlinkGoogle | app/routes/dashboard.profile.tsx:146-179 | no known password: an alert and no request. Declined confirmation: nothing. Otherwise one request, then a reload on success, the server's message or unlinkFailed on a refusal, and unlinkFailed on a network failure |
| ProfilePage.ProfileCard.HandleSetPassword | app/routes/dashboard.profile.tsx:182-227 | an empty field, then a mismatch, stops before the request. Otherwise one request: success clears the fields and asks for a reload; failure shows the server's message or setPasswordFailed |
| ProfilePage.ProfileCard.HandleChangePassword | app/routes/dashboard.profile.tsx:364-400 | only the confirmation is checked before the request. Success clears the three fields; failure shows the incorrect-password classification or updateFailed |
| ProfilePage.ClientUnlinkStricter | app/routes/dashboard.profile.tsx:146-153 | a user the page lets unlink also passes the server guard |
| ProfilePage.ServerLaxerThanClient | app/routes/api.user.unlink-google.tsx:35 | two google rows and no password: the server would unlink, but the page refuses |
| RegisterPage.SubmitCheck | app/routes/auth.register.tsx:54-79 | the checks run in the order mismatch, length < 8, no A-Z, no a-z, no 0-9; each refusal is named exactly |
| RegisterPage.SubmitAgreesWithIndicators | app/routes/auth.register.tsx:40-79 | up to 20 characters, the submit checks pass exactly when every indicator is on |
| RegisterPage.SubmitHasNoUpperBound | app/routes/auth.register.tsx:41-60 | a 21-character password is submitted although the length indicator is off |
| RegisterPage.SignUpErrorKey | app/routes/auth.register.tsx:92-99 | "already exists" gives userExists, else "Invalid" gives invalidCredentials, else unknownError; the message is read as `message \|\| ""` |
| RegisterPage.SignUpErrorCaseSensitive | app/routes/auth.register.tsx:92-99 | "USER ALREADY EXISTS" is not recognised and gives unknownError |
| RegisterPage.RegisterForm.HandleSubmit | app/routes/auth.register.tsx:49-111 | a failing check sets its text, and nothing is signed up. Otherwise one sign-up with email, password and name; no error sets registrationSuccess; an error is mapped; a throw gives networkError; loading ends false |
| LoginPage.ClassifyLoginError | app/routes/auth.login.tsx:40-58 | over the lower-cased message: "not verified", then the four no-user phrases, then "invalid"/"credentials"/"password", else unknown |
| LoginPage.ClassifyIgnoresCase | app/routes/auth.login.tsx:41 | a message and its upper- and lower-cased forms are classified alike |
| LoginPage.NotFoundBeatsPassword | app/routes/auth.login.tsx:46-57 | any message containing "not found" and not "not verified" gives userNotFound, whatever it says about the password |
| LoginPage.NotVerifiedBeatsCredentials | app/routes/auth.login.tsx:42-45 | any message containing "not verified" gives emailNotVerified |
| LoginPage.MissingMessageIsUnknown | app/routes/auth.login.tsx:85 | an error without a message is read as "Login failed", which gives unknownError |
| LoginPage.LoginMessage | app/routes/auth.login.tsx:85 | the message if non-empty, else "Login failed" |
| LoginPage.ExistsSeen | app/routes/auth.login.tsx:70-73 | the route's 400 is a non-ok reply; an answer is an ok reply carrying its `exists` |
| LoginPage.BlocksIffNoSuchUser | app/routes/auth.login.tsx:70-76 | the page stops before signing in exactly when the address is non-empty and no stored email equals its normalised form |
| LoginPage.LoginForm.GetErrorMessage | app/routes/auth.login.tsx:40-58 | returns the classification and raises the resend flag only for emailNotVerified |
| LoginPage.LoginForm.HandleSubmit | app/routes/auth.login.tsx:61-95 | resets the flags and queries the exists route. A throw gives networkError without a sign-in. `exists === false` gives userNotFound without a sign-in. Otherwise one sign-in: success navigates to /dashboard, and an error is classified, with only emailNotVerified raising the resend flag |
| ResetPasswordPage.SubmitCheck | app/routes/auth.reset-password.tsx:51-64 | the checks run in the order mismatch, length < 8, missing token; there is no upper bound and no character-class rule |
| ResetPasswordPage.NoTokenNoRequest | app/routes/auth.reset-password.tsx:61-64 | without a token the request is never sent |
| ResetPasswordPage.ResetLaxerThanRegister | app/routes/auth.reset-password.tsx:51-64 | "abcdefgh" passes here but is refused by the registration checks |
| ResetPasswordPage.ResetErrorKey | app/routes/auth.reset-password.tsx:76-82 | "token" or "expired" gives unknownError, anything else resetLinkFailed |
| ResetPasswordPage.ResetErrorExamples | app/routes/auth.reset-password.tsx:76-82 | "Invalid token" gives unknownError; a missing message gives resetLinkFailed |
| ResetPasswordPage.ResetForm.ReadToken | app/routes/auth.reset-password.tsx:37-45 | a missing parameter sets unknownError and leaves the token unset, which shows the failure card; otherwise the token is stored |
| ResetPasswordPage.ResetForm.HandleSubmit | app/routes/auth.reset-password.tsx:47-96 | a failing check sets its text and resets nothing. Otherwise one reset call: success navigates to /login and an error is mapped. Without a token the failure card stays |
| ForgotPasswordPage.RequestErrorKey | app/routes/auth.forgot-password.tsx:56-65 | case-sensitive: "not found" gives userNotFound, else "Invalid" gives emailInvalid, else resetLinkFailed |
| ForgotPasswordPage.CaseSensitiveUnlikeLogin | app/routes/auth.forgot-password.tsx:58-65 | "USER NOT FOUND" gives resetLinkFailed here but userNotFound on the sign-in page |
| ForgotPasswordPage.ForgotForm.HandleSubmit | app/routes/auth.forgot-password.tsx:34-75 | the exists query first: a throw gives networkError and `exists === false` gives userNotFound, neither sending a request. Otherwise one reset-link request to "/reset-password": no error sets success, and an error is mapped |

## Left out

- Rendering, React hooks and context, and toasts are not modelled. Only the state the handlers set is kept.
- The profile page's timers (the 1.5 s reload and the 3 s success reset) are not modelled. A reload is a flag, and the success flag stays set.
- Concurrency is not modelled. Handlers run one at a time. The source uses no transactions, so two concurrent requests could interleave; the model cannot show that.
- The auth library's internals are oracles: session resolution, hashing, password verification, OAuth linking, and sign-up, sign-in and reset behaviour.
- Email delivery and the email texts are left out. Only the table's shape is kept: which language and kind each entry belongs to.
- Image compression before upload uses canvas and floating point, so it is not modelled.
- Unicode behaviour of `trim`, `toLowerCase` and `toUpperCase` is not modelled: only ASCII letters change case, and white space is the ECMAScript WhiteSpace and LineTerminator set that `trim` removes.
- AuthServer.GetRequestLanguage: `decodeURIComponent` can throw on a malformed escape. The model treats decoding as a total function.
- AuthServer.VerificationUrl: `new URL(url)` can throw on a malformed library URL. The model takes the token and callback already read from it.
- EmailI18n.GetEmailCopy: the source's fallback to the English table is not modelled, because every language has an entry.
- AppSidebar.GetLabel: indexing into a string yields nothing in the model. In the source, `"abc"[k]` for a numeric segment would yield a character.
- The blog's cascade on user deletion is not modelled. The post table is a separate store, so deleting an account does not remove that user's posts.
- BlogApi.BlogStore.Loader: the order of posts created at the same instant is left unspecified by the database. The model keeps table order.
- Accounts.AccountStore.ChangeUserPassword: the body's fields are optional strings in the model. The source reads untyped JSON, so a non-string `newPassword` such as the number 123456 has no `.length`, passes the 8..20 check, and reaches the credential lookup and the library call. ChangePasswordCheck always enforces 8..20, so the model does not capture that path.
- Accounts.AccountStore.SetInitialPassword: non-string `password` and `confirmPassword` values are not modelled. For those the source's length test reads `undefined` and refuses nothing, while the model treats both fields as strings.
- Accounts.AccountStore.UpdateProfile: a supplied `image` that is neither null nor a string is stored as given by the source. The model's image field is absent, null or a string only.
- Accounts.AccountStore.UnlinkGoogle: the session lookup runs inside the `try` in the unlink and set-password handlers, so a lookup that throws gives 500 there. The model's session is a given optional value and its lookup never fails, so that 500 does not arise.
- Accounts.SetPasswordCheck: lengths are counted in code points (`|s|`). JavaScript's `.length` counts UTF-16 code units, so a password of 19 letters and digits plus an emoji is 20 long in the model and 21 in the source, and the model admits what the handler refuses.
- Accounts.ChangePasswordCheck: the 8..20 bound counts code points, not UTF-16 code units, as for SetPasswordCheck.
- PasswordIndicators.Validation: the length indicator counts code points, not UTF-16 code units. The same holds for RegisterPage.SubmitCheck and ResetPasswordPage.SubmitCheck.
- BlogApi.ValidatePost: zod's `min` and `max` on the title and content count UTF-16 code units. The model counts code points, so a title of 100 characters outside the Basic Multilingual Plane passes here and fails in the source.
- The remaining pages are not modelled: the Google link action, the avatar-upload client and the verify-email countdown. These are UI flows around calls already modelled.
