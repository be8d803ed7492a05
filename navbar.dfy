/**
 * The navigation bar's pure helpers: the user's initials shown in place of an avatar,
 * and the short label of each interface language in the language menu.
 */
module Navbar {
  import opened Strings
  import opened I18nTypes

  /** `n[0]` for one piece of the name; for an empty piece `undefined`, which `join` writes as nothing. */
  function Initial(word: string): (r: string)
    ensures |r| <= 1 && (r == [] <==> word == [])
  {
    if word == [] then [] else [word[0]]
  }

  /** `.map((n) => n[0]).join("")` */
  function Initials(words: seq<string>): (r: string)
    ensures |r| <= |words|
  {
    if words == [] then [] else Initial(words[0]) + Initials(words[1..])
  }

  /** `getInitials(name)`: the first letters of the space-separated pieces, upper-cased,
      at most two of them. */
  function GetInitials(name: string): (r: string)
    ensures |r| <= 2
    ensures forall i :: 0 <= i < |r| ==> !IsLower(r[i])
  {
    var joined := ToUpper(Initials(Split(name, ' ')));
    if |joined| <= 2 then joined else joined[..2]
  }

  /** The short label of each language in the navigation bar. */
  const LangShort: map<Language, string> := map[
    En := "EN",
    ZhCN := "简",
    ZhTW := "繁",
    Ja := "JA",
    Fr := "FR",
    Ko := "한",
    Es := "ES"
  ]

  /** The order of the language menu. */
  const LanguageMenu: seq<Language> := [En, Fr, Es, ZhCN, ZhTW, Ja, Ko]

  // ------------------------------------------------------------------ lemmas

  /** The empty name has no initials. */
  lemma InitialsOfEmptyName()
    ensures GetInitials("") == ""
  {
    assert Split("", ' ') == [""];
  }

  /** An empty piece contributes nothing, wherever it sits among the pieces. */
  lemma {:induction false} EmptyPieceIgnored(words: seq<string>, k: nat)
    requires k <= |words|
    ensures Initials(words[..k] + [""] + words[k..]) == Initials(words)
    decreases k
  {
    if k == 0 {
      assert words[..0] + [""] + words[0..] == [""] + words;
      assert ([""] + words)[1..] == words;
    } else {
      EmptyPieceIgnored(words[1..], k - 1);
      var longer := words[..k] + [""] + words[k..];
      assert longer[0] == words[0];
      assert longer[1..] == words[1..][..k - 1] + [""] + words[1..][k - 1..];
    }
  }

  /** A leading space adds an empty first piece, which contributes nothing. */
  lemma LeadingSpaceIgnored(name: string)
    ensures GetInitials(" " + name) == GetInitials(name)
  {
    SplitLeadingSeparator(name, ' ');
    EmptyPieceIgnored(Split(name, ' '), 0);
    assert Split(name, ' ')[..0] + [""] + Split(name, ' ')[0..] == [""] + Split(name, ' ');
  }

  /** A trailing space adds an empty last piece, which contributes nothing. */
  lemma TrailingSpaceIgnored(name: string)
    ensures GetInitials(name + " ") == GetInitials(name)
  {
    assert name + " " == name + [' '];
    SplitTrailingSeparator(name, ' ');
    LastPieceEmpty(Split(name, ' '));
    SamePiecesSameInitials(name + " ", name);
  }

  /** A doubled space after the first word adds an empty second piece, which contributes
      nothing: "ada  lovelace" has the initials of "ada lovelace". */
  lemma DoubledSpaceIgnored(first: string, rest: string)
    requires ' ' !in first
    ensures GetInitials(first + "  " + rest) == GetInitials(first + " " + rest)
  {
    var words := [first] + Split(rest, ' ');
    assert Initials(Split(first + "  " + rest, ' ')) == Initials(words) by {
      assert first + "  " + rest == first + [' '] + ([' '] + rest);
      SplitAtFirst(first, [' '] + rest, ' ');
      SplitLeadingSeparator(rest, ' ');
      EmptyPieceIgnored(words, 1);
      assert words[..1] + [""] + words[1..] == [first] + ([""] + Split(rest, ' '));
    }
    assert Split(first + " " + rest, ' ') == words by {
      assert first + " " + rest == first + [' '] + rest;
      SplitAtFirst(first, rest, ' ');
    }
    SamePiecesSameInitials(first + "  " + rest, first + " " + rest);
  }

  /** An empty last piece contributes nothing. */
  lemma LastPieceEmpty(words: seq<string>)
    ensures Initials(words + [""]) == Initials(words)
  {
    EmptyPieceIgnored(words, |words|);
    assert words[..|words|] + [""] + words[|words|..] == words + [""];
  }

  /** Names whose pieces have the same initials have the same result. */
  lemma SamePiecesSameInitials(a: string, b: string)
    requires Initials(Split(a, ' ')) == Initials(Split(b, ' '))
    ensures GetInitials(a) == GetInitials(b)
  {
  }

  /** Two words give their first letters, upper-cased, in order. */
  lemma TwoWordInitials(first: string, second: string)
    requires first != "" && second != "" && ' ' !in first && ' ' !in second
    ensures GetInitials(first + " " + second) == [UpperChar(first[0]), UpperChar(second[0])]
  {
    assert first + " " + second == first + [' '] + second;
    SplitAtFirst(first, second, ' ');
    SplitWithoutSeparator(second, ' ');
    assert Split(first + " " + second, ' ') == [first, second];
    assert [first, second][1..] == [second];
    assert Initials([first, second]) == [first[0], second[0]];
  }

  /** The worked example: "ada lovelace" gives "AL". */
  lemma InitialsExample()
    ensures GetInitials("ada lovelace") == "AL"
  {
    TwoWordInitials("ada", "lovelace");
    assert "ada" + " " + "lovelace" == "ada lovelace";
  }

  /** Only the first two pieces count: a third word adds nothing. */
  lemma AtMostTwoInitials(a: string, b: string, c: string)
    requires a != "" && b != "" && c != "" && ' ' !in a && ' ' !in b && ' ' !in c
    ensures GetInitials(a + " " + b + " " + c) == GetInitials(a + " " + b)
  {
    ThreeWordSplit(a, b, c);
    ThreeWordInitials(a, b, c);
    var joined := ToUpper([a[0], b[0], c[0]]);
    assert joined[..2] == [UpperChar(a[0]), UpperChar(b[0])];
    TwoWordInitials(a, b);
  }

  lemma ThreeWordSplit(a: string, b: string, c: string)
    requires ' ' !in a && ' ' !in b && ' ' !in c
    ensures Split(a + " " + b + " " + c, ' ') == [a, b, c]
  {
    assert a + " " + b + " " + c == a + [' '] + (b + [' '] + c);
    SplitAtFirst(a, b + [' '] + c, ' ');
    SplitAtFirst(b, c, ' ');
    SplitWithoutSeparator(c, ' ');
  }

  lemma ThreeWordInitials(a: string, b: string, c: string)
    requires a != "" && b != "" && c != ""
    ensures Initials([a, b, c]) == [a[0], b[0], c[0]]
  {
    assert [a, b, c][1..] == [b, c] && [b, c][1..] == [c];
    assert Initials([c]) == [c[0]];
    assert Initials([b, c]) == [b[0], c[0]];
  }

  /** The menu lists each language exactly once, and each has a short label. */
  lemma LanguageMenuComplete(l: Language)
    ensures l in LangShort && l in LanguageMenu
    ensures forall i, j :: 0 <= i < j < |LanguageMenu| ==> LanguageMenu[i] != LanguageMenu[j]
  {
    match l
    case En => assert LanguageMenu[0] == l;
    case Fr => assert LanguageMenu[1] == l;
    case Es => assert LanguageMenu[2] == l;
    case ZhCN => assert LanguageMenu[3] == l;
    case ZhTW => assert LanguageMenu[4] == l;
    case Ja => assert LanguageMenu[5] == l;
    case Ko => assert LanguageMenu[6] == l;
  }

  /** No two languages share a short label. */
  lemma LangShortDistinct(a: Language, b: Language)
    requires a != b
    ensures a in LangShort && b in LangShort && LangShort[a] != LangShort[b]
  {
  }
}
