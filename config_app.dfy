/** The application's configuration record and the two helpers derived from it. */
module AppConfig {
  import opened Strings

  const Name: string := "Base SaaS"
  const ShortName: string := "BaseSaaS"
  const CopyrightYear: string := "2025"
  const TitleSuffix: string := " | Base SaaS"
  const SenderName: string := "Base SaaS"

  /** Hours a verification link stays valid. */
  const VerificationExpiryHours: nat := 24
  /** Hours a password-reset link stays valid. */
  const ResetPasswordExpiryHours: nat := 1

  const EmailVerificationEnabled: bool := false
  const GoogleLoginEnabled: bool := true
  const GithubLoginEnabled: bool := true
  const LanguageSwitcherEnabled: bool := true
  const ThemeSwitcherEnabled: bool := true

  /** The full page title: the page's title followed by the suffix. */
  function GetPageTitle(title: string): (r: string)
    ensures StartsWith(r, title) && r[|title|..] == TitleSuffix
  {
    title + TitleSuffix
  }

  /** The copyright line shown in footers and emails. */
  function GetCopyrightText(): (r: string)
    ensures Contains(r, CopyrightYear) && Contains(r, Name)
  {
    ContainsWithin("© ", CopyrightYear, " " + Name + ". All rights reserved.");
    assert "© " + CopyrightYear + " " + Name + ". All rights reserved." == "© " + CopyrightYear + (" " + Name + ". All rights reserved.");
    ContainsWithin("© " + CopyrightYear + " ", Name, ". All rights reserved.");
    "© " + CopyrightYear + " " + Name + ". All rights reserved."
  }

  /** Distinct page titles stay distinct once the suffix is added, and the title is recoverable. */
  lemma PageTitleInjective(a: string, b: string)
    ensures GetPageTitle(a) == GetPageTitle(b) ==> a == b
  {
    if GetPageTitle(a) == GetPageTitle(b) {
      assert |a| == |b|;
      assert a == GetPageTitle(a)[..|a|];
      assert b == GetPageTitle(b)[..|b|];
    }
  }
}
