/** The interface languages, their display names and the browser-language guess. */
module I18nTypes {
  import opened Wrappers
  import opened Strings

  datatype Language = En | ZhCN | ZhTW | Ja | Fr | Ko | Es

  /** The language's code as the application writes it. */
  function Code(l: Language): string {
    match l
    case En => "en"
    case ZhCN => "zh-CN"
    case ZhTW => "zh-TW"
    case Ja => "ja"
    case Fr => "fr"
    case Ko => "ko"
    case Es => "es"
  }

  const AllLanguages: seq<Language> := [En, ZhCN, ZhTW, Ja, Fr, Ko, Es]

  /** Each language's name in that language. */
  const LanguageNames: map<Language, string> := map[
    En := "English",
    ZhCN := "简体中文",
    ZhTW := "繁體中文",
    Ja := "日本語",
    Fr := "Français",
    Ko := "한국어",
    Es := "Español"
  ]

  /** The language guessed from `navigator.language`; `None` when there is no navigator.
      The prefixes are compared with letter case as given. */
  function BrowserLanguage(navigatorLanguage: Option<string>): (l: Language)
    ensures navigatorLanguage.None? ==> l == En
    ensures l != En ==> navigatorLanguage.Some? && StartsWith(navigatorLanguage.value, Code(l)[..2])
    ensures navigatorLanguage.Some? ==>
      var b := navigatorLanguage.value;
      && (l == Ja <==> StartsWith(b, "ja"))
      && (l == Fr <==> StartsWith(b, "fr"))
      && (l == Ko <==> StartsWith(b, "ko"))
      && (l == Es <==> StartsWith(b, "es"))
      && (l == En <==> !StartsWith(b, "zh") && !StartsWith(b, "ja") && !StartsWith(b, "fr")
                       && !StartsWith(b, "ko") && !StartsWith(b, "es"))
  {
    if navigatorLanguage.None? then En
    else
      var b := navigatorLanguage.value;
      PrefixOfPrefix(b, "zh-TW", 2);
      PrefixOfPrefix(b, "zh-Hant", 2);
      assert "zh-TW"[..2] == "zh-Hant"[..2] == "zh";
      if StartsWith(b, "zh-TW") || StartsWith(b, "zh-Hant") then ZhTW
      else if StartsWith(b, "zh") then ZhCN
      else if StartsWith(b, "ja") then Ja
      else if StartsWith(b, "fr") then Fr
      else if StartsWith(b, "ko") then Ko
      else if StartsWith(b, "es") then Es
      else En
  }

  // ------------------------------------------------------------------ lemmas

  /** The list of languages names each language exactly once. */
  lemma AllLanguagesListed(l: Language)
    ensures l in AllLanguages
    ensures forall i, j :: 0 <= i < j < |AllLanguages| ==> AllLanguages[i] != AllLanguages[j]
  {
    match l
    case En => assert AllLanguages[0] == l;
    case ZhCN => assert AllLanguages[1] == l;
    case ZhTW => assert AllLanguages[2] == l;
    case Ja => assert AllLanguages[3] == l;
    case Fr => assert AllLanguages[4] == l;
    case Ko => assert AllLanguages[5] == l;
    case Es => assert AllLanguages[6] == l;
  }

  /** Every language has exactly one code, and every code one language. */
  lemma CodeInjective(a: Language, b: Language)
    ensures Code(a) == Code(b) ==> a == b
  {
  }

  /** Every language has a display name, and no two share one. */
  lemma LanguageNamesComplete(a: Language, b: Language)
    ensures a in LanguageNames && b in LanguageNames
    ensures a != b ==> LanguageNames[a] != LanguageNames[b]
  {
  }

  /** A browser that reports one of the application's own codes gets that language. */
  lemma BrowserLanguageOfCode(l: Language)
    ensures BrowserLanguage(Some(Code(l))) == l
  {
    match l
    case En =>
      MismatchAt("en", "zh", 0); MismatchAt("en", "ja", 0); MismatchAt("en", "fr", 0);
      MismatchAt("en", "ko", 0); MismatchAt("en", "es", 1);
    case ZhCN =>
      MismatchAt("zh-CN", "zh-TW", 3); MismatchAt("zh-CN", "zh-Hant", 3);
    case ZhTW =>
    case Ja => MismatchAt("ja", "zh-TW", 0); MismatchAt("ja", "zh-Hant", 0); MismatchAt("ja", "zh", 0);
    case Fr =>
      MismatchAt("fr", "zh-TW", 0); MismatchAt("fr", "zh-Hant", 0); MismatchAt("fr", "zh", 0);
      MismatchAt("fr", "ja", 0);
    case Ko =>
      MismatchAt("ko", "zh-TW", 0); MismatchAt("ko", "zh-Hant", 0); MismatchAt("ko", "zh", 0);
      MismatchAt("ko", "ja", 0); MismatchAt("ko", "fr", 0);
    case Es =>
      MismatchAt("es", "zh-TW", 0); MismatchAt("es", "zh-Hant", 0); MismatchAt("es", "zh", 0);
      MismatchAt("es", "ja", 0); MismatchAt("es", "fr", 0); MismatchAt("es", "ko", 0);
  }

  /** Traditional Chinese exactly for the "zh-TW" and "zh-Hant" prefixes, which are tested
      before "zh"; every other "zh" tag, Hong Kong's included, gets simplified Chinese. */
  lemma BrowserChineseVariants(b: string)
    ensures BrowserLanguage(Some(b)) == ZhTW <==> StartsWith(b, "zh-TW") || StartsWith(b, "zh-Hant")
    ensures BrowserLanguage(Some(b)) == ZhCN <==>
              StartsWith(b, "zh") && !StartsWith(b, "zh-TW") && !StartsWith(b, "zh-Hant")
    ensures BrowserLanguage(Some("zh-HK")) == ZhCN && BrowserLanguage(Some("zh-Hant-HK")) == ZhTW
  {
    PrefixOfPrefix(b, "zh-TW", 2);
    PrefixOfPrefix(b, "zh-Hant", 2);
    MismatchAt("zh-HK", "zh-TW", 3);
    MismatchAt("zh-HK", "zh-Hant", 3);
  }

  /** The comparison is case-sensitive: a tag that starts with an upper-case letter, such
      as "ZH-CN" or "ZH-TW", falls through to English. */
  lemma BrowserLanguageCaseSensitive(b: string)
    requires b != [] && IsUpper(b[0])
    ensures BrowserLanguage(Some(b)) == En
    ensures BrowserLanguage(Some("ZH-CN")) == En && BrowserLanguage(Some("ZH-TW")) == En
  {
    LowerPrefixMisses(b);
    LowerPrefixMisses("ZH-CN");
    LowerPrefixMisses("ZH-TW");
  }

  /** Every prefix the guess tests starts with a lower-case letter. */
  lemma LowerPrefixMisses(b: string)
    requires b != [] && IsUpper(b[0])
    ensures !StartsWith(b, "zh-TW") && !StartsWith(b, "zh-Hant") && !StartsWith(b, "zh")
    ensures !StartsWith(b, "ja") && !StartsWith(b, "fr") && !StartsWith(b, "ko") && !StartsWith(b, "es")
  {
    MismatchAt(b, "zh-TW", 0); MismatchAt(b, "zh-Hant", 0); MismatchAt(b, "zh", 0);
    MismatchAt(b, "ja", 0); MismatchAt(b, "fr", 0); MismatchAt(b, "ko", 0); MismatchAt(b, "es", 0);
  }
}
