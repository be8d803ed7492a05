/**
 * POST /api/user/avatar-upload: the signed-in user's image is checked (present, at most
 * 2 MiB, one of four image types) and written to the object bucket under a key that
 * starts with the user's id; the reply carries the key and the proxy URL that serves it.
 *
 * `Date.now()`, `crypto.randomUUID()`, `encodeURIComponent` and whether the bucket's
 * `put` succeeds are parameters.
 */
module AvatarUpload {
  import opened Wrappers
  import opened Strings
  import opened Api

  const MaxSizeBytes: nat := 2 * 1024 * 1024
  const AllowedTypes: seq<string> := ["image/jpeg", "image/png", "image/webp", "image/avif"]
  const AvatarRoute: string := "/api/user/avatar/"

  /** The `file` entry of the multipart form. */
  datatype FormFile =
    | NoFile                              // no entry, or an empty one
    | NotAFile                            // a plain text entry
    | File(size: nat, mimeType: string)

  /** The checks on the form entry, in the handler's order. */
  function UploadCheck(file: FormFile): (r: Option<Reason>)
    ensures r.None? <==> file.File? && file.size <= MaxSizeBytes && file.mimeType in AllowedTypes
    ensures r == Some(FileRequired) <==> !file.File?
    ensures r == Some(FileTooLarge) <==> file.File? && file.size > MaxSizeBytes
    ensures r == Some(UnsupportedType) <==> file.File? && file.size <= MaxSizeBytes && file.mimeType !in AllowedTypes
  {
    if !file.File? then Some(FileRequired)
    else if file.size > MaxSizeBytes then Some(FileTooLarge)
    else if file.mimeType !in AllowedTypes then Some(UnsupportedType)
    else None
  }

  /** `type.split("/")[1] || "jpg"` */
  function Extension(mimeType: string): (ext: string)
    ensures ext != "" && '/' !in ext
  {
    var parts := Split(mimeType, '/');
    SplitPartsAvoidSeparator(mimeType, '/');
    if |parts| > 1 && parts[1] != "" then parts[1] else "jpg"
  }

  /** `${userId}/${now}-${uuid}.${ext}` */
  function AvatarKey(userId: string, now: nat, uuid: string, mimeType: string): (key: string)
    ensures '/' !in userId && '/' !in uuid ==>
      var parts := Split(key, '/');
      |parts| == 2 && parts[0] == userId && StartsWith(parts[1], NatToString(now) + "-" + uuid + ".")
  {
    var name := NatToString(now) + "-" + uuid + "." + Extension(mimeType);
    KeySegments(userId, NatToString(now), uuid, Extension(mimeType));
    userId + "/" + name
  }

  /** With no slash in the user id or the uuid, the key's only slash is the one after the id. */
  lemma KeySegments(userId: string, digits: string, uuid: string, ext: string)
    requires forall i :: 0 <= i < |digits| ==> IsDigit(digits[i])
    requires '/' !in ext
    ensures '/' !in userId && '/' !in uuid ==>
      var parts := Split(userId + "/" + (digits + "-" + uuid + "." + ext), '/');
      |parts| == 2 && parts[0] == userId && StartsWith(parts[1], digits + "-" + uuid + ".")
  {
    var name := digits + "-" + uuid + "." + ext;
    if '/' !in userId && '/' !in uuid {
      FileNameHasNoSlash(digits, uuid, ext);
      SplitAtFirst(userId, name, '/');
      SplitWithoutSeparator(name, '/');
      assert userId + "/" + name == userId + ['/'] + name;
      assert name[..|digits + "-" + uuid + "."|] == digits + "-" + uuid + ".";
    }
  }

  lemma FileNameHasNoSlash(digits: string, uuid: string, ext: string)
    requires forall i :: 0 <= i < |digits| ==> IsDigit(digits[i])
    requires '/' !in uuid && '/' !in ext
    ensures '/' !in digits + "-" + uuid + "." + ext
  {
  }

  /** The proxy URL of a stored key. */
  function AvatarUrl(key: string, encode: string -> string): (url: string)
    ensures StartsWith(url, AvatarRoute) && url[|AvatarRoute|..] == encode(key)
  {
    AvatarRoute + encode(key)
  }

  /** An object in the bucket: its size and the content type recorded with it. */
  datatype StoredObject = StoredObject(size: nat, contentType: string)

  /** The success reply. */
  datatype UploadReply = UploadReply(key: string, url: string)

  class AvatarBucket {
    var objects: map<string, StoredObject>

    constructor (objects0: map<string, StoredObject>)
      ensures objects == objects0
    {
      objects := objects0;
    }

    method Upload(verb: Method, session: Option<SessionUser>, file: FormFile, now: nat, uuid: string,
                  putOk: bool, encode: string -> string) returns (status: Status, reply: Option<UploadReply>)
      modifies this
      ensures verb != Post ==> status == MethodNotAllowed
      ensures verb == Post && session.None? ==> status == Unauthorized
      ensures verb == Post && session.Some? && UploadCheck(file).Some? ==> status == BadRequest(UploadCheck(file).value)
      ensures verb == Post && session.Some? && UploadCheck(file).None? ==> status == (if putOk then Ok else ServerError)
      ensures reply.Some? <==> status == Ok
      ensures status == Ok ==>
        && reply.value.key == AvatarKey(session.value.id, now, uuid, file.mimeType)
        && reply.value.url == AvatarUrl(reply.value.key, encode)
      ensures objects == if status == Ok then old(objects)[reply.value.key := StoredObject(file.size, file.mimeType)]
                         else old(objects)
    {
      if verb != Post {
        return MethodNotAllowed, None;
      }
      if session.None? {
        return Unauthorized, None;
      }
      var problem := UploadCheck(file);
      if problem.Some? {
        return BadRequest(problem.value), None;
      }
      var key := AvatarKey(session.value.id, now, uuid, file.mimeType);
      if !putOk {
        return ServerError, None;
      }
      objects := objects[key := StoredObject(file.size, file.mimeType)];
      return Ok, Some(UploadReply(key, AvatarUrl(key, encode)));
    }
  }

  // ------------------------------------------------------------------ lemmas

  /** For `image/<sub>` the extension is `<sub>`. */
  lemma ImageExtension(sub: string)
    requires sub != "" && '/' !in sub
    ensures Extension("image/" + sub) == sub
  {
    SplitAtFirst("image", sub, '/');
    SplitWithoutSeparator(sub, '/');
    assert "image/" + sub == "image" + ['/'] + sub;
  }

  /** Every accepted type gets its own subtype as extension, so the fallback never applies to a stored key. */
  lemma AllowedTypeExtensions(t: string)
    requires t in AllowedTypes
    ensures StartsWith(t, "image/") && Extension(t) == t[6..]
  {
    var sub := t[6..];
    assert t == "image/" + sub;
    ImageExtension(sub);
  }

  /** A type without a slash falls back to "jpg". */
  lemma ExtensionFallback(mimeType: string)
    requires '/' !in mimeType
    ensures Extension(mimeType) == "jpg"
  {
    SplitWithoutSeparator(mimeType, '/');
  }

  /** A key starts with `<userId>/`; when the id has no slash it is the key's first path segment. */
  lemma KeyBelongsToUser(userId: string, now: nat, uuid: string, mimeType: string)
    ensures StartsWith(AvatarKey(userId, now, uuid, mimeType), userId + "/")
    ensures '/' !in userId ==> Split(AvatarKey(userId, now, uuid, mimeType), '/')[0] == userId
  {
    var rest := NatToString(now) + "-" + uuid + "." + Extension(mimeType);
    assert AvatarKey(userId, now, uuid, mimeType) == userId + ['/'] + rest;
    if '/' !in userId {
      SplitAtFirst(userId, rest, '/');
    }
  }

  /** Two uploads of one user in the same millisecond with different UUIDs get different keys. */
  lemma KeysDifferByUuid(userId: string, now: nat, uuid1: string, uuid2: string, mimeType: string)
    requires uuid1 != uuid2
    ensures AvatarKey(userId, now, uuid1, mimeType) != AvatarKey(userId, now, uuid2, mimeType)
  {
    var pre := userId + "/" + NatToString(now) + "-";
    var post := "." + Extension(mimeType);
    assert AvatarKey(userId, now, uuid1, mimeType) == pre + uuid1 + post;
    assert AvatarKey(userId, now, uuid2, mimeType) == pre + uuid2 + post;
    if |uuid1| == |uuid2| {
      var k1, k2 := pre + uuid1 + post, pre + uuid2 + post;
      assert k1[|pre|..|pre| + |uuid1|] == uuid1;
      assert k2[|pre|..|pre| + |uuid2|] == uuid2;
    }
  }

  /** Users whose ids contain no slash never share a key. */
  lemma KeysDifferByUser(u1: string, u2: string, now1: nat, now2: nat, id1: string, id2: string, m1: string, m2: string)
    requires u1 != u2 && '/' !in u1 && '/' !in u2
    ensures AvatarKey(u1, now1, id1, m1) != AvatarKey(u2, now2, id2, m2)
  {
    KeyBelongsToUser(u1, now1, id1, m1);
    KeyBelongsToUser(u2, now2, id2, m2);
  }

  /** The size limit is inclusive: exactly 2 MiB passes, one byte more does not. */
  lemma SizeLimitInclusive()
    ensures UploadCheck(File(2097152, "image/png")).None?
    ensures UploadCheck(File(2097153, "image/png")) == Some(FileTooLarge)
  {
  }
}
