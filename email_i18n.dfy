/**
 * The language of a transactional email and the table of email texts: a requested
 * language tag (from the app-language cookie or the Accept-Language header) is
 * mapped onto one of the seven interface languages, and the welcome, verification
 * and reset texts are looked up for it.
 */
module EmailI18n {
  import opened Wrappers
  import opened Strings
  import opened I18nTypes

  /** The three kinds of email. */
  datatype EmailType = Welcome | Verify | Reset

  /** An entry of the email table: the texts of one kind of email in one language.
      The texts themselves are not modelled; an entry is identified by its place in the table. */
  datatype EmailCopy = EmailCopy(language: Language, kind: EmailType)

  const AllEmailTypes: seq<EmailType> := [Welcome, Verify, Reset]

  /** The email table: every language has a welcome, a verification and a reset entry. */
  const EmailTranslations: map<Language, map<EmailType, EmailCopy>> :=
    map l | l in AllLanguages :: map t | t in AllEmailTypes :: EmailCopy(l, t)

  /** The if-chain over the lower-cased tag: the traditional-Chinese test comes before
      the plain "zh" prefix, then ja, fr, ko and es; anything else is English. */
  function ResolveLower(lower: string): (l: Language)
    ensures l == ZhTW <==> StartsWith(lower, "zh-tw") || Contains(lower, "hant")
    ensures l == ZhCN <==> StartsWith(lower, "zh") && !StartsWith(lower, "zh-tw") && !Contains(lower, "hant")
    ensures l == Ja <==> StartsWith(lower, "ja") && !Contains(lower, "hant")
    ensures l == Fr <==> StartsWith(lower, "fr") && !Contains(lower, "hant")
    ensures l == Ko <==> StartsWith(lower, "ko") && !Contains(lower, "hant")
    ensures l == Es <==> StartsWith(lower, "es") && !Contains(lower, "hant")
    ensures l == En <==> !Contains(lower, "hant") && !StartsWith(lower, "zh") && !StartsWith(lower, "ja")
                         && !StartsWith(lower, "fr") && !StartsWith(lower, "ko") && !StartsWith(lower, "es")
    ensures l != En && l != ZhTW ==> StartsWith(lower, Code(l)[..2])
  {
    PrefixOfPrefix(lower, "zh-tw", 2);
    if StartsWith(lower, "zh-tw") || Contains(lower, "hant") then ZhTW
    else if StartsWith(lower, "zh") then ZhCN
    else if StartsWith(lower, "ja") then Ja
    else if StartsWith(lower, "fr") then Fr
    else if StartsWith(lower, "ko") then Ko
    else if StartsWith(lower, "es") then Es
    else En
  }

  /** `resolveLanguage(lang)`: English for a missing or empty tag, otherwise the
      if-chain applied to the lower-cased tag. */
  function ResolveLanguage(lang: Option<string>): (l: Language)
    ensures Falsy(lang) ==> l == En
    ensures !Falsy(lang) ==> l == ResolveLower(ToLower(lang.value))
  {
    if Falsy(lang) then En else ResolveLower(ToLower(lang.value))
  }

  /** `getEmailCopy(lang, type)`: the entry of the resolved language. The source's
      `|| EMAIL_TRANSLATIONS.en` fallback is left out: the table has every language
      (TableComplete), so it never applies. */
  function GetEmailCopy(lang: Option<string>, kind: EmailType): (c: EmailCopy)
    ensures c.language == ResolveLanguage(lang) && c.kind == kind
  {
    var normalized := ResolveLanguage(lang);
    TableComplete(normalized, kind);
    EmailTranslations[normalized][kind]
  }

  // ------------------------------------------------------------------ lemmas

  /** The table has an entry for each of the seven languages and each kind, and the entry
      at a place is the copy for that place. */
  lemma TableComplete(l: Language, t: EmailType)
    ensures l in EmailTranslations && t in EmailTranslations[l]
    ensures EmailTranslations[l][t] == EmailCopy(l, t)
  {
    AllLanguagesListed(l);
    assert t in AllEmailTypes by {
      match t
      case Welcome => assert AllEmailTypes[0] == t;
      case Verify => assert AllEmailTypes[1] == t;
      case Reset => assert AllEmailTypes[2] == t;
    }
  }

  /** Letter case does not matter: a tag and its lower-cased or upper-cased forms resolve alike. */
  lemma ResolveIgnoresCase(s: string)
    ensures ResolveLanguage(Some(ToLower(s))) == ResolveLanguage(Some(s))
    ensures ResolveLanguage(Some(ToUpper(s))) == ResolveLanguage(Some(s))
  {
    ToLowerIdempotent(s);
    LowerOfUpper(s);
  }

  /** Each language's own code resolves to that language. */
  lemma ResolveFixedPoint(l: Language)
    ensures ResolveLanguage(Some(Code(l))) == l
  {
    var lower := ToLower(Code(l));
    match l
    case En =>
      assert lower == "en";
      NotContainsByChar(lower, "hant", 0);
      MismatchAt(lower, "zh-tw", 0); MismatchAt(lower, "zh", 0); MismatchAt(lower, "ja", 0);
      MismatchAt(lower, "fr", 0); MismatchAt(lower, "ko", 0); MismatchAt(lower, "es", 1);
    case ZhCN =>
      assert lower == "zh-cn";
      NotContainsByChar(lower, "hant", 1);
      MismatchAt(lower, "zh-tw", 3);
    case ZhTW =>
      assert lower == "zh-tw";
    case Ja =>
      assert lower == "ja";
      NotContainsByChar(lower, "hant", 0);
      MismatchAt(lower, "zh-tw", 0); MismatchAt(lower, "zh", 0);
    case Fr =>
      assert lower == "fr";
      NotContainsByChar(lower, "hant", 0);
      MismatchAt(lower, "zh-tw", 0); MismatchAt(lower, "zh", 0); MismatchAt(lower, "ja", 0);
    case Ko =>
      assert lower == "ko";
      NotContainsByChar(lower, "hant", 0);
      MismatchAt(lower, "zh-tw", 0); MismatchAt(lower, "zh", 0); MismatchAt(lower, "ja", 0);
      MismatchAt(lower, "fr", 0);
    case Es =>
      assert lower == "es";
      NotContainsByChar(lower, "hant", 0);
      MismatchAt(lower, "zh-tw", 0); MismatchAt(lower, "zh", 0); MismatchAt(lower, "ja", 0);
      MismatchAt(lower, "fr", 0); MismatchAt(lower, "ko", 0);
  }

  /** Resolving twice gives what resolving once gives. */
  lemma ResolveIdempotent(lang: Option<string>)
    ensures ResolveLanguage(Some(Code(ResolveLanguage(lang)))) == ResolveLanguage(lang)
  {
    ResolveFixedPoint(ResolveLanguage(lang));
  }

  /** "hant" anywhere wins over the "zh" prefix: a Hong Kong tag naming the traditional
      script gets traditional Chinese, a plain Hong Kong tag gets simplified Chinese. */
  lemma ResolveChineseVariants()
    ensures ResolveLanguage(Some("zh-Hant-HK")) == ZhTW
    ensures ResolveLanguage(Some("zh-HK")) == ZhCN
    ensures ResolveLanguage(Some("ZH-TW")) == ZhTW
  {
    ResolveHantHongKong();
    ResolvePlainHongKong();
    assert ToLower("ZH-TW") == "zh-tw";
  }

  lemma ResolveHantHongKong()
    ensures ResolveLanguage(Some("zh-Hant-HK")) == ZhTW
  {
    var lower := ToLower("zh-Hant-HK");
    assert lower == "zh-" + "hant" + "-hk";
    ContainsWithin("zh-", "hant", "-hk");
  }

  lemma ResolvePlainHongKong()
    ensures ResolveLanguage(Some("zh-HK")) == ZhCN
  {
    var lower := ToLower("zh-HK");
    assert lower == "zh-hk";
    NotContainsByChar(lower, "hant", 1);
    MismatchAt(lower, "zh-tw", 3);
  }
}
