/**
 * `getUserAvatarUrl`: the user's own image when there is one, otherwise a generated
 * Dicebear avatar seeded by the user's name or email. `encodeURIComponent` is a
 * parameter (uninterpreted).
 */
module Utils {
  import opened Wrappers
  import opened Strings

  const DicebearPrefix: string := "https://api.dicebear.com/7.x/avataaars/svg?seed="
  const DefaultSeed: string := "user"

  /** The fields of a user the avatar helper reads. */
  datatype AvatarUser = AvatarUser(name: string, email: string, image: Option<string>)

  /** `user.image && user.image.trim() !== ''` */
  predicate HasOwnImage(image: Option<string>) {
    image.Some? && image.value != "" && Trim(image.value) != ""
  }

  /** `user.name || user.email || 'user'`: never empty. */
  function Seed(name: string, email: string): (seed: string)
    ensures seed != ""
    ensures seed == name || seed == email || seed == DefaultSeed
  {
    if name != "" then name else if email != "" then email else DefaultSeed
  }

  /** `getUserAvatarUrl(user)`: the own image unchanged (not trimmed), else the generated avatar. */
  function GetUserAvatarUrl(user: AvatarUser, encode: string -> string): (url: string)
    ensures HasOwnImage(user.image) ==> url == user.image.value
    ensures !HasOwnImage(user.image) ==> StartsWith(url, DicebearPrefix) && url[|DicebearPrefix|..] == encode(Seed(user.name, user.email))
    ensures url != ""
  {
    if HasOwnImage(user.image) then user.image.value
    else DicebearPrefix + encode(Seed(user.name, user.email))
  }

  // ------------------------------------------------------------------ lemmas

  /** An image made only of white space counts as no image: the generated avatar is used. */
  lemma BlankImageFallsBack(user: AvatarUser, encode: string -> string)
    requires user.image.None? || AllWhitespace(user.image.value)
    ensures GetUserAvatarUrl(user, encode) == DicebearPrefix + encode(Seed(user.name, user.email))
  {
    if user.image.Some? {
      TrimEmptyIff(user.image.value);
    }
  }

  /** An image with something besides white space is returned as given, surrounding white space included. */
  lemma PaddedImageKept(name: string, email: string, w1: string, image: string, w2: string, encode: string -> string)
    requires AllWhitespace(w1) && AllWhitespace(w2) && !AllWhitespace(image)
    ensures GetUserAvatarUrl(AvatarUser(name, email, Some(w1 + image + w2)), encode) == w1 + image + w2
  {
    TrimSurrounding(w1, image, w2);
    TrimEmptyIff(image);
  }

  /** The seed prefers the name, then the email. */
  lemma SeedOrder(name: string, email: string)
    ensures name != "" ==> Seed(name, email) == name
    ensures name == "" && email != "" ==> Seed(name, email) == email
    ensures name == "" && email == "" ==> Seed(name, email) == DefaultSeed
  {
  }
}
