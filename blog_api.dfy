/**
 * /api/blog: the post table and the handlers that read it (the loader: one post by id,
 * or all posts newest first) and change it (the action: create, update and delete, each
 * only for a signed-in user, and update and delete only by the post's author).
 *
 * The table is a sequence of rows in insertion order. The id the table's default
 * generates (`nanoid()`), the clock (`new Date()`), the session and the parsed body are
 * parameters.
 */
module BlogApi {
  import opened Wrappers
  import opened Strings
  import opened Api
  import opened Rows

  const MaxTitleLength: nat := 100

  /** A row of the post table. */
  datatype BlogPost = BlogPost(id: string, title: string, content: string, authorId: string, createdAt: int, updatedAt: int)

  /** The JSON body of a POST, PUT or DELETE request; POST ignores `id`, DELETE reads only `id`. */
  datatype PostBody = PostBody(id: Option<string>, title: JsonField, content: JsonField)

  /** The first issue of the post schema: a title of 1..100 characters, then a non-empty content. */
  function ValidatePost(title: JsonField, content: JsonField): (r: Option<PostIssue>)
    ensures r.None? <==> title.JsonString? && 1 <= |title.text| <= MaxTitleLength && content.JsonString? && content.text != ""
    ensures r == Some(TitleNotString) <==> !title.JsonString?
    ensures r == Some(TitleRequired) <==> title.JsonString? && title.text == ""
    ensures r == Some(TitleTooLong) <==> title.JsonString? && |title.text| > MaxTitleLength
    ensures r == Some(ContentNotString) <==> title.JsonString? && 1 <= |title.text| <= MaxTitleLength && !content.JsonString?
    ensures r == Some(ContentRequired) <==> title.JsonString? && 1 <= |title.text| <= MaxTitleLength && content == JsonString("")
  {
    if !title.JsonString? then Some(TitleNotString)
    else if |title.text| < 1 then Some(TitleRequired)
    else if |title.text| > MaxTitleLength then Some(TitleTooLong)
    else if !content.JsonString? then Some(ContentNotString)
    else if content.text == "" then Some(ContentRequired)
    else None
  }

  /** `select ... where id = ?`: the row with this id. */
  function Find(posts: seq<BlogPost>, id: string): (r: Option<BlogPost>)
    ensures r.Some? ==> r.value in posts && r.value.id == id
    ensures r.None? ==> forall p :: p in posts ==> p.id != id
  {
    if posts == [] then None
    else if posts[0].id == id then Some(posts[0])
    else Find(posts[1..], id)
  }

  /** The primary key: no two rows share an id. */
  predicate UniqueIds(posts: seq<BlogPost>) {
    forall i, j :: 0 <= i < j < |posts| ==> posts[i].id != posts[j].id
  }

  /** The ownership ladder of PUT and DELETE: an id is required, the post must exist
      and it must be the user's own. */
  function CheckTarget(posts: seq<BlogPost>, id: Option<string>, userId: string): (r: Option<Status>)
    ensures r.None? <==> !Falsy(id) && Find(posts, id.value).Some? && Find(posts, id.value).value.authorId == userId
    ensures r == Some(BadRequest(PostIdRequired)) <==> Falsy(id)
    ensures r == Some(NotFound) <==> !Falsy(id) && Find(posts, id.value).None?
    ensures r == Some(Forbidden) <==> !Falsy(id) && Find(posts, id.value).Some? && Find(posts, id.value).value.authorId != userId
  {
    if Falsy(id) then Some(BadRequest(PostIdRequired))
    else
      var existing := Find(posts, id.value);
      if existing.None? then Some(NotFound)
      else if existing.value.authorId != userId then Some(Forbidden)
      else None
  }

  /** `update post set title, content, updatedAt where id = ?` */
  function ReplacePost(posts: seq<BlogPost>, id: string, title: string, content: string, now: int): (r: seq<BlogPost>)
    ensures |r| == |posts|
    ensures forall i :: 0 <= i < |r| ==> posts[i].id != id ==> r[i] == posts[i]
    ensures forall i :: 0 <= i < |r| ==> posts[i].id == id ==>
      r[i].title == title && r[i].content == content && r[i].updatedAt == now
      && r[i].id == id && r[i].authorId == posts[i].authorId && r[i].createdAt == posts[i].createdAt
  {
    seq(|posts|, i requires 0 <= i < |posts| =>
      if posts[i].id == id then posts[i].(title := title, content := content, updatedAt := now) else posts[i])
  }

  /** `delete from post where id = ?` */
  function RemovePost(posts: seq<BlogPost>, id: string): (r: seq<BlogPost>)
    ensures forall p :: p in r <==> p in posts && p.id != id
  {
    var keep := (p: BlogPost) => p.id != id;
    forall p ensures p in Filter(posts, keep) <==> p in posts && keep(p) {
      FilterMembership(posts, keep, p);
    }
    Filter(posts, keep)
  }

  /** Newest first by creation time. */
  predicate NewestFirst(s: seq<BlogPost>) {
    forall i, j :: 0 <= i < j < |s| ==> s[i].createdAt >= s[j].createdAt
  }

  /** Places `p` before the first row that is not newer than it. */
  function InsertNewest(p: BlogPost, s: seq<BlogPost>): seq<BlogPost> {
    if s == [] || p.createdAt >= s[0].createdAt then [p] + s
    else [s[0]] + InsertNewest(p, s[1..])
  }

  /** `orderBy(desc(post.createdAt))`; rows created at the same time keep table order.
      The listing holds every row once and is newest first. */
  function SortNewestFirst(s: seq<BlogPost>): (r: seq<BlogPost>)
    ensures NewestFirst(r)
    ensures multiset(r) == multiset(s)
    decreases |s|
  {
    if s == [] then []
    else
      var rest := SortNewestFirst(s[1..]);
      InsertHead(s, rest);
      InsertNewest(s[0], rest)
  }

  /** Inserting the head into a sorted listing of the tail gives a sorted listing of the whole. */
  lemma InsertHead(s: seq<BlogPost>, rest: seq<BlogPost>)
    requires s != [] && NewestFirst(rest) && multiset(rest) == multiset(s[1..])
    ensures NewestFirst(InsertNewest(s[0], rest)) && multiset(InsertNewest(s[0], rest)) == multiset(s)
  {
    InsertNewestSorted(s[0], rest);
    InsertNewestMultiset(s[0], rest);
    assert s == [s[0]] + s[1..];
  }

  /** What the loader answers with. */
  datatype LoaderReply = OnePost(post: BlogPost) | PostList(posts: seq<BlogPost>) | NoPost

  /** What a successful action answers with: the written row, or the deleted id. */
  datatype ActionReply = WrittenPost(post: BlogPost) | DeletedId(id: string) | NoReply

  class BlogStore {
    var posts: seq<BlogPost>

    predicate Valid()
      reads this
    {
      UniqueIds(posts)
    }

    constructor ()
      ensures posts == [] && Valid()
    {
      posts := [];
    }

    /** GET /api/blog?id=... */
    method Loader(id: Option<string>) returns (status: Status, reply: LoaderReply)
      ensures Falsy(id) ==> status == Ok && reply == PostList(SortNewestFirst(posts))
      ensures !Falsy(id) && Find(posts, id.value).None? ==> status == NotFound && reply == NoPost
      ensures !Falsy(id) && Find(posts, id.value).Some? ==> status == Ok && reply == OnePost(Find(posts, id.value).value)
    {
      if !Falsy(id) {
        var result := Find(posts, id.value);
        if result.None? {
          return NotFound, NoPost;
        }
        return Ok, OnePost(result.value);
      }
      return Ok, PostList(SortNewestFirst(posts));
    }

    /** POST, PUT and DELETE /api/blog. `newId` is the id the insert generates; `now` the clock. */
    method Action(verb: Method, session: Option<SessionUser>, body: Parsed<PostBody>, newId: string, now: int)
      returns (status: Status, reply: ActionReply)
      requires Valid()
      modifies this
      ensures Valid()
      ensures session.None? ==> status == Unauthorized
      ensures session.Some? && verb !in {Post, Put, Delete} ==> status == MethodNotAllowed
      ensures session.Some? && verb in {Post, Put, Delete} && body.Unparsable? ==> status == ServerError
      ensures session.Some? && verb == Post && body.Parsed? ==>
        status == (if ValidatePost(body.body.title, body.body.content).Some?
                   then BadRequest(InvalidPost(ValidatePost(body.body.title, body.body.content).value))
                   else if Find(old(posts), newId).Some? then ServerError
                   else Created)
      ensures session.Some? && verb in {Put, Delete} && body.Parsed? && CheckTarget(old(posts), body.body.id, session.value.id).Some? ==>
        status == CheckTarget(old(posts), body.body.id, session.value.id).value
      ensures session.Some? && verb == Put && body.Parsed? && CheckTarget(old(posts), body.body.id, session.value.id).None? ==>
        status == (if ValidatePost(body.body.title, body.body.content).Some?
                   then BadRequest(InvalidPost(ValidatePost(body.body.title, body.body.content).value))
                   else Ok)
      ensures session.Some? && verb == Delete && body.Parsed? && CheckTarget(old(posts), body.body.id, session.value.id).None? ==>
        status == Ok
      ensures status == Created ==>
        && posts == old(posts) + [BlogPost(newId, body.body.title.text, body.body.content.text, session.value.id, now, now)]
        && reply == WrittenPost(BlogPost(newId, body.body.title.text, body.body.content.text, session.value.id, now, now))
      ensures status == Ok && verb == Put ==>
        && posts == ReplacePost(old(posts), body.body.id.value, body.body.title.text, body.body.content.text, now)
        && reply == WrittenPost(Find(old(posts), body.body.id.value).value.(title := body.body.title.text, content := body.body.content.text, updatedAt := now))
      ensures status == Ok && verb == Delete ==>
        posts == RemovePost(old(posts), body.body.id.value) && reply == DeletedId(body.body.id.value)
      ensures !(status == Created || status == Ok) ==> posts == old(posts) && reply == NoReply
    {
      if session.None? {
        return Unauthorized, NoReply;
      }
      var userId := session.value.id;
      if verb !in {Post, Put, Delete} {
        return MethodNotAllowed, NoReply;
      }
      if body.Unparsable? {
        return ServerError, NoReply;
      }
      var b := body.body;
      if verb == Post {
        var issue := ValidatePost(b.title, b.content);
        if issue.Some? {
          return BadRequest(InvalidPost(issue.value)), NoReply;
        }
        if Find(posts, newId).Some? {
          return ServerError, NoReply;
        }
        var row := BlogPost(newId, b.title.text, b.content.text, userId, now, now);
        AppendKeepsUnique(posts, row);
        posts := posts + [row];
        return Created, WrittenPost(row);
      }
      var problem := CheckTarget(posts, b.id, userId);
      if problem.Some? {
        return problem.value, NoReply;
      }
      var id := b.id.value;
      if verb == Put {
        var issue := ValidatePost(b.title, b.content);
        if issue.Some? {
          return BadRequest(InvalidPost(issue.value)), NoReply;
        }
        ReplaceKeepsIds(posts, id, b.title.text, b.content.text, now);
        posts := ReplacePost(posts, id, b.title.text, b.content.text, now);
        var updated := Find(posts, id);
        FindAfterReplace(old(posts), id, b.title.text, b.content.text, now);
        return Ok, WrittenPost(updated.value);
      }
      RemoveKeepsUnique(posts, id);
      posts := RemovePost(posts, id);
      return Ok, DeletedId(id);
    }
  }

  // ------------------------------------------------------------------ lemmas

  /** Find sees exactly the rows of the table: a row with the id exists iff Find returns one. */
  lemma FindIff(posts: seq<BlogPost>, id: string)
    ensures Find(posts, id).Some? <==> exists p :: p in posts && p.id == id
  {
  }

  /** Under the primary key the row Find returns is the only one with that id. */
  lemma {:induction false} FindUnique(posts: seq<BlogPost>, p: BlogPost)
    requires UniqueIds(posts) && p in posts
    ensures Find(posts, p.id) == Some(p)
    decreases |posts|
  {
    if posts[0] != p {
      var k :| 0 <= k < |posts| && posts[k] == p;
      assert k != 0;
      assert posts[0].id != p.id;
      assert posts[1..][k - 1] == p;
      assert UniqueIds(posts[1..]) by {
        forall i, j | 0 <= i < j < |posts[1..]| ensures posts[1..][i].id != posts[1..][j].id {
          assert posts[1..][i] == posts[i + 1] && posts[1..][j] == posts[j + 1];
        }
      }
      FindUnique(posts[1..], p);
    }
  }

  lemma AppendKeepsUnique(posts: seq<BlogPost>, row: BlogPost)
    requires UniqueIds(posts) && Find(posts, row.id).None?
    ensures UniqueIds(posts + [row])
  {
    var s := posts + [row];
    forall i, j | 0 <= i < j < |s| ensures s[i].id != s[j].id {
      if j == |posts| {
        assert s[i] in posts;
      }
    }
  }

  lemma ReplaceKeepsIds(posts: seq<BlogPost>, id: string, title: string, content: string, now: int)
    requires UniqueIds(posts)
    ensures UniqueIds(ReplacePost(posts, id, title, content, now))
  {
  }

  lemma RemoveKeepsUnique(posts: seq<BlogPost>, id: string)
    requires UniqueIds(posts)
    ensures UniqueIds(RemovePost(posts, id))
  {
    FilterKeepsOrder(posts, (p: BlogPost) => p.id != id);
  }

  /** A filtered sequence is a subsequence: each pair of its rows comes from a pair of rows in the same order. */
  lemma {:induction false} FilterKeepsOrder(posts: seq<BlogPost>, keep: BlogPost -> bool)
    requires UniqueIds(posts)
    ensures UniqueIds(Filter(posts, keep))
    decreases |posts|
  {
    if posts != [] {
      var rest := Filter(posts[1..], keep);
      assert UniqueIds(posts[1..]) by {
        forall i, j | 0 <= i < j < |posts[1..]| ensures posts[1..][i].id != posts[1..][j].id {
          assert posts[1..][i] == posts[i + 1] && posts[1..][j] == posts[j + 1];
        }
      }
      FilterKeepsOrder(posts[1..], keep);
      if keep(posts[0]) {
        var s := [posts[0]] + rest;
        forall i, j | 0 <= i < j < |s| ensures s[i].id != s[j].id {
          if i == 0 {
            FilterMembership(posts[1..], keep, s[j]);
            var k :| 0 <= k < |posts[1..]| && posts[1..][k] == s[j];
            assert posts[k + 1] == s[j];
          }
        }
      }
    }
  }

  /** After an update the row with that id carries the new title and content, and keeps its
      author and creation time. */
  lemma FindAfterReplace(posts: seq<BlogPost>, id: string, title: string, content: string, now: int)
    requires UniqueIds(posts) && Find(posts, id).Some?
    ensures Find(ReplacePost(posts, id, title, content, now), id) ==
            Some(Find(posts, id).value.(title := title, content := content, updatedAt := now))
  {
    var before := Find(posts, id).value;
    var r := ReplacePost(posts, id, title, content, now);
    var k :| 0 <= k < |posts| && posts[k] == before;
    assert r[k] == before.(title := title, content := content, updatedAt := now);
    assert UniqueIds(r);
    FindUnique(r, r[k]);
  }

  /** An update leaves every row with another id as it was. */
  lemma ReplaceKeepsOthers(posts: seq<BlogPost>, id: string, title: string, content: string, now: int, other: string)
    requires other != id
    ensures Find(ReplacePost(posts, id, title, content, now), other) == Find(posts, other)
  {
    var r := ReplacePost(posts, id, title, content, now);
    if posts != [] {
      assert r[1..] == ReplacePost(posts[1..], id, title, content, now);
      ReplaceKeepsOthers(posts[1..], id, title, content, now, other);
    }
  }

  /** After a create the new id finds the new row. */
  lemma FindAfterCreate(posts: seq<BlogPost>, row: BlogPost)
    requires Find(posts, row.id).None?
    ensures Find(posts + [row], row.id) == Some(row)
  {
    if posts != [] {
      assert (posts + [row])[1..] == posts[1..] + [row];
      FindAfterCreate(posts[1..], row);
    }
  }

  /** After a delete the id finds nothing and every other row is still found. */
  lemma FindAfterDelete(posts: seq<BlogPost>, id: string, other: string)
    requires other != id
    ensures Find(RemovePost(posts, id), id).None?
    ensures Find(RemovePost(posts, id), other) == Find(posts, other)
  {
    forall p | p in RemovePost(posts, id) ensures p.id != id {
      FilterMembership(posts, (p: BlogPost) => p.id != id, p);
    }
    FindThroughFilter(posts, id, other);
  }

  lemma {:induction false} FindThroughFilter(posts: seq<BlogPost>, id: string, other: string)
    requires other != id
    ensures Find(RemovePost(posts, id), other) == Find(posts, other)
    decreases |posts|
  {
    if posts != [] {
      FindThroughFilter(posts[1..], id, other);
      var rest := RemovePost(posts[1..], id);
      if posts[0].id != id {
        assert RemovePost(posts, id) == [posts[0]] + rest;
        assert ([posts[0]] + rest)[1..] == rest;
      } else {
        assert RemovePost(posts, id) == rest;
      }
    }
  }

  /** A rejected ownership check leaves the table alone: another user can neither update nor delete a post. */
  lemma OnlyAuthorMayChange(posts: seq<BlogPost>, id: string, userId: string)
    requires id != "" && Find(posts, id).Some? && Find(posts, id).value.authorId != userId
    ensures CheckTarget(posts, Some(id), userId) == Some(Forbidden)
  {
  }

  lemma {:induction false} InsertNewestMultiset(p: BlogPost, s: seq<BlogPost>)
    ensures multiset(InsertNewest(p, s)) == multiset{p} + multiset(s)
    decreases |s|
  {
    if s != [] && p.createdAt < s[0].createdAt {
      InsertNewestMultiset(p, s[1..]);
      assert s == [s[0]] + s[1..];
    }
  }

  /** Every row placed after the head of a newest-first listing is no newer than that head. */
  lemma TailNoNewer(s: seq<BlogPost>, x: BlogPost)
    requires NewestFirst(s) && s != [] && x in s[1..]
    ensures x.createdAt <= s[0].createdAt
  {
    var k :| 0 <= k < |s[1..]| && s[1..][k] == x;
    assert s[k + 1] == x;
  }

  lemma {:induction false} InsertNewestSorted(p: BlogPost, s: seq<BlogPost>)
    requires NewestFirst(s)
    ensures NewestFirst(InsertNewest(p, s))
    decreases |s|
  {
    if s != [] && p.createdAt < s[0].createdAt {
      NewestFirstTail(s);
      InsertNewestSorted(p, s[1..]);
      InsertedNoNewerThanHead(p, s);
      ConsNewestFirst(s[0], InsertNewest(p, s[1..]));
    }
  }

  lemma NewestFirstTail(s: seq<BlogPost>)
    requires NewestFirst(s) && s != []
    ensures NewestFirst(s[1..])
  {
    forall i, j | 0 <= i < j < |s[1..]| ensures s[1..][i].createdAt >= s[1..][j].createdAt {
      assert s[1..][i] == s[i + 1] && s[1..][j] == s[j + 1];
    }
  }

  /** Inserting a row older than the head into the tail keeps every row no newer than the head. */
  lemma InsertedNoNewerThanHead(p: BlogPost, s: seq<BlogPost>)
    requires NewestFirst(s) && s != [] && p.createdAt < s[0].createdAt
    ensures forall j | 0 <= j < |InsertNewest(p, s[1..])| :: InsertNewest(p, s[1..])[j].createdAt <= s[0].createdAt
  {
    var r := InsertNewest(p, s[1..]);
    InsertNewestMultiset(p, s[1..]);
    forall j | 0 <= j < |r| ensures r[j].createdAt <= s[0].createdAt {
      var x := r[j];
      assert x in multiset(r);
      if x != p {
        assert x in multiset(s[1..]);
        TailNoNewer(s, x);
      }
    }
  }

  lemma ConsNewestFirst(h: BlogPost, r: seq<BlogPost>)
    requires NewestFirst(r)
    requires forall j | 0 <= j < |r| :: r[j].createdAt <= h.createdAt
    ensures NewestFirst([h] + r)
  {
    var t := [h] + r;
    forall i, j | 0 <= i < j < |t| ensures t[i].createdAt >= t[j].createdAt {
      assert t[j] == r[j - 1];
      if i > 0 {
        assert t[i] == r[i - 1];
      }
    }
  }
}
