/**
 * The repository's own logic inside the auth library's configuration: the list of
 * trusted origins, the language a verification email is written in (read from the
 * request's cookie or Accept-Language header), and the front-end link the
 * verification email carries.
 *
 * `decodeURIComponent` and `encodeURIComponent` are parameters (uninterpreted).
 */
module AuthServer {
  import opened Wrappers
  import opened Strings

  const DevOrigin: string := "http://localhost:5173"
  const PreviewOrigin: string := "http://localhost:8788"
  const DefaultBase: string := "http://localhost:5173"
  const DefaultCallback: string := "/dashboard"
  const LanguageCookie: string := "app-language="

  /** `buildTrustedOrigins(env)`: the two local origins, then the deployment URL when it
      is set and is not itself a local one. */
  method BuildTrustedOrigins(betterAuthUrl: Option<string>) returns (origins: seq<string>)
    ensures 2 <= |origins| <= 3
    ensures origins[0] == DevOrigin && origins[1] == PreviewOrigin
    ensures |origins| == 3 <==> !Falsy(betterAuthUrl) && !Contains(betterAuthUrl.value, "localhost")
    ensures |origins| == 3 ==> origins[2] == betterAuthUrl.value
  {
    origins := [DevOrigin, PreviewOrigin];
    if !Falsy(betterAuthUrl) && !Contains(betterAuthUrl.value, "localhost") {
      origins := origins + [betterAuthUrl.value];
    }
  }

  /** The headers `getRequestLanguage` reads. */
  datatype RequestHeaders = RequestHeaders(cookie: Option<string>, acceptLanguage: Option<string>)

  /** The cookie name matches at `i` and is followed by a character that is not ';'. */
  predicate CookieMatchesAt(cookie: string, i: int) {
    OccursAt(cookie, LanguageCookie, i) && i + |LanguageCookie| < |cookie| && cookie[i + |LanguageCookie|] != ';'
  }

  /** `cookie.match(/app-language=([^;]+)/)`: the captured value at the leftmost position
      where the pattern matches, if there is one. */
  function CookieLanguage(cookie: string): (value: Option<string>)
    ensures value.Some? ==> value.value != "" && ';' !in value.value
    decreases |cookie|
  {
    if CookieMatchesAt(cookie, 0) then Some(TakeUntil(cookie[|LanguageCookie|..], ';'))
    else if cookie == [] then None
    else CookieLanguage(cookie[1..])
  }

  /** `getRequestLanguage(request)`: the decoded language cookie when it matches, else a
      non-empty Accept-Language header, else nothing. */
  function GetRequestLanguage(request: Option<RequestHeaders>, decode: string -> string): (lang: Option<string>)
    ensures request.None? ==> lang.None?
    ensures lang.None? ==> request.None? || Falsy(request.value.acceptLanguage)
    ensures request.Some? && (Falsy(request.value.cookie) || CookieLanguage(request.value.cookie.value).None?) ==>
      lang == (if Falsy(request.value.acceptLanguage) then None else request.value.acceptLanguage)
  {
    if request.None? then None
    else
      var cookie := request.value.cookie;
      if !Falsy(cookie) && CookieLanguage(cookie.value).Some? then Some(decode(CookieLanguage(cookie.value).value))
      else if !Falsy(request.value.acceptLanguage) then request.value.acceptLanguage
      else None
  }

  /** The link of a verification email: the front-end page on the configured base URL,
      with the library's token and callback URL (each `|| default`) encoded as query values. */
  function VerificationUrl(token: Option<string>, callbackUrl: Option<string>, betterAuthUrl: Option<string>,
                           encode: string -> string): (url: string)
    ensures StartsWith(url, if Falsy(betterAuthUrl) then DefaultBase else betterAuthUrl.value)
  {
    var t := if Falsy(token) then "" else token.value;
    var callback := if Falsy(callbackUrl) then DefaultCallback else callbackUrl.value;
    var base := if Falsy(betterAuthUrl) then DefaultBase else betterAuthUrl.value;
    base + "/verify-email?token=" + encode(t) + "&callbackURL=" + encode(callback)
  }

  // ------------------------------------------------------------------ lemmas

  /** The cookie match is the leftmost one: it exists exactly when the pattern matches
      somewhere, and then the value is what follows the leftmost match up to the next ';'. */
  lemma {:induction false} CookieLanguageLeftmost(cookie: string)
    ensures CookieLanguage(cookie).None? <==> forall i :: 0 <= i < |cookie| ==> !CookieMatchesAt(cookie, i)
    ensures CookieLanguage(cookie).Some? ==>
      exists i :: 0 <= i < |cookie| && CookieMatchesAt(cookie, i)
        && (forall j :: 0 <= j < i ==> !CookieMatchesAt(cookie, j))
        && CookieLanguage(cookie).value == TakeUntil(cookie[i + |LanguageCookie|..], ';')
    decreases |cookie|
  {
    if CookieMatchesAt(cookie, 0) {
    } else if cookie != [] {
      var tail := cookie[1..];
      CookieLanguageLeftmost(tail);
      if CookieLanguage(tail).Some? {
        var i :| 0 <= i < |tail| && CookieMatchesAt(tail, i)
          && (forall j :: 0 <= j < i ==> !CookieMatchesAt(tail, j))
          && CookieLanguage(tail).value == TakeUntil(tail[i + |LanguageCookie|..], ';');
        LeftmostShifted(cookie, i);
      } else {
        NoMatchShifted(cookie);
      }
    }
  }

  /** The leftmost match in the tail is the leftmost match in a cookie that does not match at 0. */
  lemma LeftmostShifted(cookie: string, i: nat)
    requires cookie != [] && !CookieMatchesAt(cookie, 0) && i < |cookie| - 1
    requires CookieMatchesAt(cookie[1..], i) && forall j :: 0 <= j < i ==> !CookieMatchesAt(cookie[1..], j)
    ensures CookieMatchesAt(cookie, i + 1) && forall j :: 0 <= j < i + 1 ==> !CookieMatchesAt(cookie, j)
    ensures cookie[1..][i + |LanguageCookie|..] == cookie[i + 1 + |LanguageCookie|..]
  {
    ShiftMatch(cookie, i);
    forall j | 0 <= j < i + 1 ensures !CookieMatchesAt(cookie, j) {
      if j > 0 {
        ShiftMatch(cookie, j - 1);
      }
    }
  }

  /** No match in the tail and none at 0: no match anywhere. */
  lemma NoMatchShifted(cookie: string)
    requires cookie != [] && !CookieMatchesAt(cookie, 0)
    requires forall i :: 0 <= i < |cookie[1..]| ==> !CookieMatchesAt(cookie[1..], i)
    ensures forall i :: 0 <= i < |cookie| ==> !CookieMatchesAt(cookie, i)
  {
    forall i | 0 <= i < |cookie| ensures !CookieMatchesAt(cookie, i) {
      if i > 0 {
        ShiftMatch(cookie, i - 1);
      }
    }
  }

  /** A match in the tail of the cookie is a match one position further in the cookie. */
  lemma ShiftMatch(cookie: string, i: nat)
    requires cookie != [] && i < |cookie| - 1
    ensures CookieMatchesAt(cookie[1..], i) <==> CookieMatchesAt(cookie, i + 1)
  {
    var n := |LanguageCookie|;
    if i + n <= |cookie| - 1 {
      assert cookie[1..][i..i + n] == cookie[i + 1..i + 1 + n];
    }
    if i + n < |cookie| - 1 {
      assert cookie[1..][i + n] == cookie[i + 1 + n];
    }
  }

  /** A cookie whose language entry is empty does not match, so the header decides. */
  lemma EmptyCookieValueFallsThrough(acceptLanguage: Option<string>, decode: string -> string)
    ensures CookieLanguage("app-language=;").None?
    ensures GetRequestLanguage(Some(RequestHeaders(Some("app-language=;"), acceptLanguage)), decode) ==
            (if Falsy(acceptLanguage) then None else acceptLanguage)
  {
    EmptyCookieValueNoMatch();
  }

  lemma EmptyCookieValueNoMatch()
    ensures CookieLanguage("app-language=;").None?
  {
    var c := "app-language=;";
    forall i | 0 <= i < |c| ensures !CookieMatchesAt(c, i) {
      if i == 0 {
        assert c[13] == ';';
      } else {
        assert |c| <= i + |LanguageCookie|;
      }
    }
    CookieLanguageLeftmost(c);
  }

  /** A matching cookie wins over the header, whatever the header says. */
  lemma CookieBeatsHeader(cookie: string, h1: Option<string>, h2: Option<string>, decode: string -> string)
    requires CookieLanguage(cookie).Some?
    ensures GetRequestLanguage(Some(RequestHeaders(Some(cookie), h1)), decode) ==
            GetRequestLanguage(Some(RequestHeaders(Some(cookie), h2)), decode)
    ensures GetRequestLanguage(Some(RequestHeaders(Some(cookie), h1)), decode) == Some(decode(CookieLanguage(cookie).value))
  {
  }

  /** A cookie that starts with the entry yields the value up to the first ';'. */
  lemma LeadingCookieEntry(value: string, rest: string)
    requires value != "" && ';' !in value
    ensures CookieLanguage(LanguageCookie + value + ";" + rest) == Some(value)
  {
    var c := LanguageCookie + value + ";" + rest;
    var n := |LanguageCookie|;
    assert c[..n] == LanguageCookie;
    assert c[n] == value[0];
    assert c[n..] == value + ";" + rest;
    TakeUntilStopsAt(value, rest);
  }

  lemma {:induction false} TakeUntilStopsAt(value: string, rest: string)
    requires ';' !in value
    ensures TakeUntil(value + ";" + rest, ';') == value
    decreases |value|
  {
    if value != [] {
      assert (value + ";" + rest)[1..] == value[1..] + ";" + rest;
      TakeUntilStopsAt(value[1..], rest);
    }
  }

  /** The query of a verification link splits back into its two parameters, the encoded
      token and the encoded callback URL, provided the encoding leaves no '&' in them. */
  lemma VerificationQueryReadsBack(token: Option<string>, callbackUrl: Option<string>, betterAuthUrl: Option<string>,
                                   encode: string -> string)
    requires '&' !in encode(if Falsy(token) then "" else token.value)
    requires '&' !in encode(if Falsy(callbackUrl) then DefaultCallback else callbackUrl.value)
    ensures VerificationUrl(token, callbackUrl, betterAuthUrl, encode) ==
      (if Falsy(betterAuthUrl) then DefaultBase else betterAuthUrl.value) + "/verify-email?"
      + Join(["token=" + encode(if Falsy(token) then "" else token.value),
              "callbackURL=" + encode(if Falsy(callbackUrl) then DefaultCallback else callbackUrl.value)], '&')
    ensures Split(Join(["token=" + encode(if Falsy(token) then "" else token.value),
                        "callbackURL=" + encode(if Falsy(callbackUrl) then DefaultCallback else callbackUrl.value)], '&'), '&')
         == ["token=" + encode(if Falsy(token) then "" else token.value),
             "callbackURL=" + encode(if Falsy(callbackUrl) then DefaultCallback else callbackUrl.value)]
  {
    var t := encode(if Falsy(token) then "" else token.value);
    var cb := encode(if Falsy(callbackUrl) then DefaultCallback else callbackUrl.value);
    var base := if Falsy(betterAuthUrl) then DefaultBase else betterAuthUrl.value;
    QueryParts(base, t, cb);
    assert VerificationUrl(token, callbackUrl, betterAuthUrl, encode)
        == base + "/verify-email?token=" + t + "&callbackURL=" + cb;
  }

  lemma QueryParts(base: string, t: string, cb: string)
    requires '&' !in t && '&' !in cb
    ensures base + "/verify-email?token=" + t + "&callbackURL=" + cb
         == base + "/verify-email?" + Join(["token=" + t, "callbackURL=" + cb], '&')
    ensures Split(Join(["token=" + t, "callbackURL=" + cb], '&'), '&') == ["token=" + t, "callbackURL=" + cb]
  {
    var first, second := "token=" + t, "callbackURL=" + cb;
    assert '&' !in "token=" && '&' !in "callbackURL=";
    assert Join([first, second], '&') == first + ['&'] + second by {
      assert [first, second][1..] == [second];
    }
    assert first + ['&'] + second == "token=" + t + "&callbackURL=" + cb;
    assert "/verify-email?token=" == "/verify-email?" + "token=";
    SplitAtFirst(first, second, '&');
    SplitWithoutSeparator(second, '&');
  }

  /** With no token, no callback and no configured base, the link falls back to the local
      front end, an empty token and the dashboard. */
  lemma VerificationUrlDefaults(encode: string -> string)
    ensures VerificationUrl(None, Some(""), Some(""), encode) ==
            "http://localhost:5173/verify-email?token=" + encode("") + "&callbackURL=" + encode("/dashboard")
  {
  }
}
