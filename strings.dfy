/**
 * The JavaScript string primitives the application relies on, over `seq<char>`:
 * the ASCII classes behind `/[A-Z]/`, `/[a-z]/` and `/[0-9]/`, ASCII case mapping,
 * `trim`, `startsWith`, `includes`, `split` on one character, and the decimal
 * rendering of a non-negative number inside a template literal.
 */
module Strings {
  import opened Wrappers

  /** `!x` for an optional string: absent (`null` or `undefined`) or empty. */
  predicate Falsy(x: Option<string>) { x.None? || x.value == "" }

  predicate IsUpper(c: char) { 'A' <= c <= 'Z' }
  predicate IsLower(c: char) { 'a' <= c <= 'z' }
  predicate IsDigit(c: char) { '0' <= c <= '9' }

  /** `/[A-Z]/.test(s)` */
  predicate HasUpper(s: string) { exists i :: 0 <= i < |s| && IsUpper(s[i]) }
  /** `/[a-z]/.test(s)` */
  predicate HasLower(s: string) { exists i :: 0 <= i < |s| && IsLower(s[i]) }
  /** `/[0-9]/.test(s)` */
  predicate HasDigit(s: string) { exists i :: 0 <= i < |s| && IsDigit(s[i]) }

  /** The characters `String.prototype.trim` removes: ECMAScript white space and line terminators. */
  predicate IsWhitespace(c: char) {
    || c == '\t' || c == '\n' || c == '\U{000B}' || c == '\U{000C}' || c == '\r' || c == ' '
    || c == '\U{00A0}' || c == '\U{1680}' || '\U{2000}' <= c <= '\U{200A}'
    || c == '\U{2028}' || c == '\U{2029}' || c == '\U{202F}' || c == '\U{205F}'
    || c == '\U{3000}' || c == '\U{FEFF}'
  }

  predicate AllWhitespace(s: string) { forall i :: 0 <= i < |s| ==> IsWhitespace(s[i]) }

  function LowerChar(c: char): (d: char)
    ensures !IsUpper(d)
    ensures !IsUpper(c) ==> d == c
    ensures IsWhitespace(d) == IsWhitespace(c)
  {
    if IsUpper(c) then (c as int + 32) as char else c
  }

  function UpperChar(c: char): (d: char)
    ensures !IsLower(d)
    ensures !IsLower(c) ==> d == c
  {
    if IsLower(c) then (c as int - 32) as char else c
  }

  /** `s.toLowerCase()` on the ASCII letters; every other character is kept. */
  function ToLower(s: string): (r: string)
    ensures |r| == |s|
    ensures forall i :: 0 <= i < |r| ==> !IsUpper(r[i])
  {
    seq(|s|, i requires 0 <= i < |s| => LowerChar(s[i]))
  }

  /** `s.toUpperCase()` on the ASCII letters; every other character is kept. */
  function ToUpper(s: string): (r: string)
    ensures |r| == |s|
    ensures forall i :: 0 <= i < |r| ==> !IsLower(r[i])
  {
    seq(|s|, i requires 0 <= i < |s| => UpperChar(s[i]))
  }

  /** Leading white space removed: a suffix of `s` whose dropped prefix is all white space. */
  function TrimStart(s: string): (r: string)
    ensures |r| <= |s| && r == s[|s| - |r|..]
    ensures r == [] || !IsWhitespace(r[0])
    ensures AllWhitespace(s[..|s| - |r|])
  {
    if s != [] && IsWhitespace(s[0]) then
      var r := TrimStart(s[1..]);
      DropWhitespaceHead(s, r);
      r
    else s
  }

  lemma DropWhitespaceHead(s: string, r: string)
    requires s != [] && IsWhitespace(s[0]) && |r| <= |s| - 1
    requires r == s[1..][|s| - 1 - |r|..] && AllWhitespace(s[1..][..|s| - 1 - |r|])
    ensures r == s[|s| - |r|..] && AllWhitespace(s[..|s| - |r|])
  {
    var k := |s| - |r|;
    forall i | 0 <= i < k ensures IsWhitespace(s[..k][i]) {
      if i > 0 {
        assert s[..k][i] == s[1..][..k - 1][i - 1];
      }
    }
  }

  /** Trailing white space removed: a prefix of `s` whose dropped suffix is all white space. */
  function TrimEnd(s: string): (r: string)
    ensures |r| <= |s| && r == s[..|r|]
    ensures r == [] || !IsWhitespace(r[|r| - 1])
    ensures AllWhitespace(s[|r|..])
  {
    if s != [] && IsWhitespace(s[|s| - 1]) then TrimEnd(s[..|s| - 1]) else s
  }

  /** `s.trim()` */
  function Trim(s: string): string {
    TrimEnd(TrimStart(s))
  }

  /** `s.startsWith(p)` */
  predicate StartsWith(s: string, p: string) {
    |p| <= |s| && s[..|p|] == p
  }

  /** `sub` occurs in `s` at position `i`. */
  predicate OccursAt(s: string, sub: string, i: int) {
    0 <= i && i + |sub| <= |s| && s[i..i + |sub|] == sub
  }

  /** `s.includes(sub)`: `sub` occurs somewhere in `s`. */
  predicate Contains(s: string, sub: string) {
    exists i | 0 <= i <= |s| - |sub| :: OccursAt(s, sub, i)
  }

  /** The longest prefix of `s` without `c` (what `[^c]+` consumes). */
  function TakeUntil(s: string, c: char): (r: string)
    ensures |r| <= |s| && r == s[..|r|]
    ensures c !in r
    ensures |r| == |s| || s[|r|] == c
  {
    if s == [] || s[0] == c then [] else [s[0]] + TakeUntil(s[1..], c)
  }

  /** `s.split(sep)` for a one-character separator; `"".split(sep)` is `[""]`. */
  function Split(s: string, sep: char): (parts: seq<string>)
    ensures |parts| >= 1
    decreases |s|
  {
    if s == [] then [""]
    else
      var rest := Split(s[1..], sep);
      if s[0] == sep then [""] + rest else [[s[0]] + rest[0]] + rest[1..]
  }

  /** `parts.join(sep)` for a one-character separator. */
  function Join(parts: seq<string>, sep: char): string
    decreases |parts|
  {
    if |parts| == 0 then ""
    else if |parts| == 1 then parts[0]
    else parts[0] + [sep] + Join(parts[1..], sep)
  }

  function DigitChar(d: nat): (c: char)
    requires d < 10
    ensures IsDigit(c)
  {
    ('0' as int + d) as char
  }

  /** `${n}` for a non-negative integer: its decimal digits, without leading zeros. */
  function NatToString(n: nat): (s: string)
    ensures |s| >= 1
    ensures forall i :: 0 <= i < |s| ==> IsDigit(s[i])
    ensures |s| > 1 ==> s[0] != '0'
    decreases n
  {
    if n < 10 then [DigitChar(n)] else NatToString(n / 10) + [DigitChar(n % 10)]
  }

  // ---------------------------------------------------------------- lemmas

  /** A text containing `sub` still contains it with anything around it. */
  lemma ContainsWithin(pre: string, sub: string, post: string)
    ensures Contains(pre + sub + post, sub)
  {
    var s := pre + sub + post;
    assert s[|pre|..|pre| + |sub|] == sub;
    assert OccursAt(s, sub, |pre|);
  }

  /** A text containing `long` contains every suffix of `long`. */
  lemma ContainsSuffix(m: string, long: string, k: nat)
    requires k <= |long|
    ensures Contains(m, long) ==> Contains(m, long[k..])
  {
    if Contains(m, long) {
      var i :| 0 <= i <= |m| - |long| && OccursAt(m, long, i);
      assert m[i + k..i + |long|] == m[i..i + |long|][k..];
      assert OccursAt(m, long[k..], i + k);
    }
  }

  /** A text in which some character of `sub` never appears does not contain `sub`. */
  lemma NotContainsByChar(s: string, sub: string, k: nat)
    requires k < |sub| && sub[k] !in s
    ensures !Contains(s, sub)
  {
    forall i | 0 <= i <= |s| - |sub| ensures !OccursAt(s, sub, i) {
      assert s[i..i + |sub|][k] == s[i + k];
    }
  }

  /** A text in which the first two characters of `sub` never appear side by side does not contain `sub`. */
  lemma NotContainsByPair(s: string, sub: string)
    requires |sub| >= 2
    requires forall i :: 0 <= i < |s| - 1 ==> !(s[i] == sub[0] && s[i + 1] == sub[1])
    ensures !Contains(s, sub)
  {
    forall i | 0 <= i <= |s| - |sub| ensures !OccursAt(s, sub, i) {
      assert s[i..i + |sub|][0] == s[i] && s[i..i + |sub|][1] == s[i + 1];
    }
  }

  /** Lower-casing does not change what counts as white space, so it commutes with trimming. */
  lemma TrimLowerCommute(s: string)
    ensures Trim(ToLower(s)) == ToLower(Trim(s))
  {
    TrimStartLower(s);
    TrimEndLower(TrimStart(s));
  }

  lemma {:induction false} TrimStartLower(s: string)
    ensures TrimStart(ToLower(s)) == ToLower(TrimStart(s))
    decreases |s|
  {
    if s != [] && IsWhitespace(s[0]) {
      assert ToLower(s)[1..] == ToLower(s[1..]);
      TrimStartLower(s[1..]);
    }
  }

  lemma {:induction false} TrimEndLower(s: string)
    ensures TrimEnd(ToLower(s)) == ToLower(TrimEnd(s))
    decreases |s|
  {
    if s != [] && IsWhitespace(s[|s| - 1]) {
      assert ToLower(s)[..|s| - 1] == ToLower(s[..|s| - 1]);
      TrimEndLower(s[..|s| - 1]);
    }
  }

  lemma {:induction false} TrimStartAfterWhitespace(w: string, x: string)
    requires AllWhitespace(w)
    ensures TrimStart(w + x) == TrimStart(x)
    decreases |w|
  {
    if w != [] {
      var wx := w + x;
      assert IsWhitespace(w[0]);
      assert wx[0] == w[0];
      assert TrimStart(wx) == TrimStart(wx[1..]);
      assert wx[1..] == w[1..] + x;
      TrimStartAfterWhitespace(w[1..], x);
    } else {
      assert w + x == x;
    }
  }

  lemma {:induction false} TrimEndBeforeWhitespace(x: string, w: string)
    requires AllWhitespace(w)
    ensures TrimEnd(x + w) == TrimEnd(x)
    decreases |w|
  {
    if w != [] {
      assert (x + w)[..|x + w| - 1] == x + w[..|w| - 1];
      TrimEndBeforeWhitespace(x, w[..|w| - 1]);
    } else {
      assert x + w == x;
    }
  }

  lemma {:induction false} TrimStartAppend(s: string, y: string)
    ensures TrimStart(s) != [] ==> TrimStart(s + y) == TrimStart(s) + y
    ensures TrimStart(s) == [] ==> TrimStart(s + y) == TrimStart(y)
    decreases |s|
  {
    if s == [] {
      assert s + y == y;
    } else if IsWhitespace(s[0]) {
      assert (s + y)[1..] == s[1..] + y;
      TrimStartAppend(s[1..], y);
    }
  }

  /** Surrounding white space does not change the trimmed text. */
  lemma TrimSurrounding(w1: string, s: string, w2: string)
    requires AllWhitespace(w1) && AllWhitespace(w2)
    ensures Trim(w1 + s + w2) == Trim(s)
  {
    assert w1 + s + w2 == w1 + (s + w2);
    TrimStartAfterWhitespace(w1, s + w2);
    TrimStartAppend(s, w2);
    if TrimStart(s) != [] {
      TrimEndBeforeWhitespace(TrimStart(s), w2);
    } else {
      assert TrimStart(w2) == [] by {
        if w2 != [] {
          TrimStartAfterWhitespace(w2, []);
          assert w2 + [] == w2;
        }
      }
    }
  }

  /** A text trims to the empty string exactly when it is all white space. */
  lemma TrimEmptyIff(s: string)
    ensures Trim(s) == [] <==> AllWhitespace(s)
  {
    if AllWhitespace(s) {
      WhitespaceTrimsEmpty(s);
    }
    if Trim(s) == [] {
      TrimmedEmptyIsWhitespace(s);
    }
  }

  lemma WhitespaceTrimsEmpty(s: string)
    requires AllWhitespace(s)
    ensures TrimStart(s) == []
  {
    TrimStartAfterWhitespace(s, []);
    assert s + [] == s;
  }

  lemma TrimmedEmptyIsWhitespace(s: string)
    requires Trim(s) == []
    ensures AllWhitespace(s)
  {
    var t := TrimStart(s);
    assert t[0..] == t;
    assert AllWhitespace(t);
    assert s[..|s| - |t|] == s;
  }

  /** No piece of a split contains the separator. */
  lemma {:induction false} SplitPartsAvoidSeparator(s: string, sep: char)
    ensures forall k :: 0 <= k < |Split(s, sep)| ==> sep !in Split(s, sep)[k]
    decreases |s|
  {
    if s != [] {
      SplitPartsAvoidSeparator(s[1..], sep);
    }
  }

  /** A text starting with the separator splits into an empty piece followed by the rest. */
  lemma SplitLeadingSeparator(s: string, sep: char)
    ensures Split([sep] + s, sep) == [""] + Split(s, sep)
  {
    assert ([sep] + s)[1..] == s;
  }

  /** A trailing separator adds one empty piece at the end. */
  lemma {:induction false} SplitTrailingSeparator(s: string, sep: char)
    ensures Split(s + [sep], sep) == Split(s, sep) + [""]
    decreases |s|
  {
    if s == [] {
      SplitLeadingSeparator([], sep);
      assert [] + [sep] == [sep] + [];
    } else {
      SplitTrailingSeparator(s[1..], sep);
      assert (s + [sep])[1..] == s[1..] + [sep];
    }
  }

  /** A text without the separator is one piece. */
  lemma {:induction false} SplitWithoutSeparator(s: string, sep: char)
    requires sep !in s
    ensures Split(s, sep) == [s]
    decreases |s|
  {
    if s != [] {
      SplitWithoutSeparator(s[1..], sep);
      assert [s[0]] + s[1..] == s;
    }
  }

  /** The piece before the first separator comes first, then the pieces of what follows it. */
  lemma {:induction false} SplitAtFirst(a: string, b: string, sep: char)
    requires sep !in a
    ensures Split(a + [sep] + b, sep) == [a] + Split(b, sep)
    decreases |a|
  {
    if a == [] {
      SplitLeadingSeparator(b, sep);
      assert a + [sep] + b == [sep] + b;
    } else {
      SplitAtFirst(a[1..], b, sep);
      var s := a + [sep] + b;
      assert s[0] == a[0] && s[1..] == a[1..] + [sep] + b;
      assert [a[0]] + a[1..] == a;
    }
  }

  /** A text starting with `p` starts with every prefix of `p`. */
  lemma PrefixOfPrefix(s: string, p: string, k: nat)
    requires k <= |p|
    ensures StartsWith(s, p) ==> StartsWith(s, p[..k])
  {
    if StartsWith(s, p) {
      assert s[..k] == s[..|p|][..k];
    }
  }

  /** `s` does not start with `p` when they differ at position `i` of `p`, or `p` is longer. */
  lemma MismatchAt(s: string, p: string, i: nat)
    requires i < |p| && (|p| > |s| || (i < |s| && s[i] != p[i]))
    ensures !StartsWith(s, p)
  {
    if |p| <= |s| {
      assert s[..|p|][i] == s[i];
    }
  }

  /** Lower-casing twice is lower-casing once. */
  lemma ToLowerIdempotent(s: string)
    ensures ToLower(ToLower(s)) == ToLower(s)
  {
  }

  /** Upper-casing first loses nothing that lower-casing keeps. */
  lemma LowerOfUpper(s: string)
    ensures ToLower(ToUpper(s)) == ToLower(s)
  {
    forall i | 0 <= i < |s| ensures LowerChar(UpperChar(s[i])) == LowerChar(s[i]) {
    }
  }
}
