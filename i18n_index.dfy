/** The table of interface translations and the lookup with its English fallback.
    Only four languages have a translation bundle; the others fall back to English. */
module I18nIndex {
  import opened I18nTypes

  /** Which translation bundle a lookup yields; the bundles' texts are not modelled. */
  datatype Bundle = EnBundle | ZhCNBundle | ZhTWBundle | JaBundle

  const Translations: map<Language, Bundle> := map[En := EnBundle, ZhCN := ZhCNBundle, ZhTW := ZhTWBundle, Ja := JaBundle]

  /** The language's bundle, or the English one when the table has none. */
  function GetTranslation(l: Language): (b: Bundle)
    ensures l in Translations ==> b == Translations[l]
    ensures l !in Translations ==> b == Translations[En]
  {
    if l in Translations then Translations[l] else Translations[En]
  }

  /** The bundled languages get their own bundle; French, Korean and Spanish get English. */
  lemma TranslationFallback(l: Language)
    ensures GetTranslation(l) == EnBundle <==> l in {En, Fr, Ko, Es}
    ensures l in {ZhCN, ZhTW, Ja} ==> GetTranslation(l) != EnBundle
  {
  }

  /** Distinct bundled languages never share a bundle. */
  lemma BundlesDistinct(a: Language, b: Language)
    requires a in Translations && b in Translations && a != b
    ensures GetTranslation(a) != GetTranslation(b)
  {
  }
}
