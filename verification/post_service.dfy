/** `PostService` of app/services/post_service.py over the in-memory store:
    creating, reading, patching and deleting posts, and the four paginated
    listings, each a filter over the posts in store order, the window of the
    requested page and a total over the whole filtered set. */
module PostService {
  import opened Wrappers
  import opened Documents
  import Pagination
  import TitleSearch
  import TagQuery
  import PostModel
  import Sequences

  /** The request body of a new post. */
  datatype PostCreate = PostCreate(
    title: string, content: string, categoryId: Option<CategoryId>,
    tags: seq<string>, published: bool)

  /** A partial update: `None` marks a field the request did not set. */
  datatype PostUpdate = PostUpdate(
    title: Option<string>, content: Option<string>, categoryId: Option<CategoryId>,
    tags: Option<seq<string>>, published: Option<bool>)

  /** The category a request links to: only a non-empty id naming a stored
      category; any other id is ignored without an error. */
  function ResolveCategory(categories: map<CategoryId, Category>, id: Option<CategoryId>): (r: Option<CategoryId>)
    ensures r.Some? <==> id.Some? && id.value != "" && id.value in categories
    ensures r.Some? ==> r == id
  {
    if id.Some? && id.value != "" && id.value in categories then id else None
  }

  /** `create_post`: building the document enforces the title and content
      bounds of the post model and fails, reporting each bound broken, with
      the store untouched. Otherwise the new post is appended to the store
      with the requester as author, the creation clock reading as both
      timestamps and a category only when the requested one resolves. */
  function CreatePost(s: Store, data: PostCreate, authorId: UserId, authorName: string,
                      newId: PostId, now: nat): (r: Result<(Store, Post), seq<PostModel.FieldError>>)
    requires !Present(s.posts, newId)
    ensures r.Success? <==> PostModel.TitleInBounds(data.title) && PostModel.ContentInBounds(data.content)
    ensures r.Failure? ==>
      && (PostModel.TitleLength in r.error <==> !PostModel.TitleInBounds(data.title))
      && (PostModel.ContentLength in r.error <==> !PostModel.ContentInBounds(data.content))
    ensures r.Success? ==> var (s', p) := r.value;
      && s' == s.(posts := s.posts + [p])
      && p.id == newId && p.title == data.title && p.content == data.content
      && p.tags == data.tags && p.published == data.published
      && p.authorId == authorId && p.authorName == authorName
      && p.createdAt == now && p.updatedAt == now
      && p.category == ResolveCategory(s.categories, data.categoryId)
    ensures r.Success? && Valid(s) ==> Valid(r.value.0)
  {
    var errors := (if PostModel.TitleInBounds(data.title) then [] else [PostModel.TitleLength])
      + (if PostModel.ContentInBounds(data.content) then [] else [PostModel.ContentLength]);
    if errors != [] then Failure(errors)
    else
      var p := Post(newId, data.title, data.content, authorId, authorName,
                    ResolveCategory(s.categories, data.categoryId), data.tags, data.published, now, now);
      var s' := s.(posts := s.posts + [p]);
      assert Valid(s) ==> UniqueIds(s'.posts) by {
        forall i | 0 <= i < |s.posts| ensures s.posts[i].id != newId {
          if s.posts[i].id == newId { assert Present(s.posts, newId); }
        }
      }
      Success((s', p))
  }

  /** `get_post`: the stored post with that id, if any. */
  function GetPost(s: Store, id: PostId): (r: Option<Post>)
    ensures r.None? <==> !Present(s.posts, id)
    ensures r.Some? ==> r.value in s.posts && r.value.id == id
  {
    match Find(s.posts, id)
    case None => None
    case Some(i) => Some(s.posts[i])
  }

  /** The patched post: set fields overwrite, unset fields stay, the
      category changes only to a resolving id, and `updated_at` is the clock
      reading. Identity, authorship and creation time never change. */
  function ApplyPatch(p: Post, u: PostUpdate, categories: map<CategoryId, Category>, now: nat): (q: Post)
    ensures q.id == p.id && q.authorId == p.authorId && q.authorName == p.authorName
    ensures q.createdAt == p.createdAt && q.updatedAt == now
    ensures u.title.Some? ==> q.title == u.title.value
    ensures u.title.None? ==> q.title == p.title
    ensures u.content.Some? ==> q.content == u.content.value
    ensures u.content.None? ==> q.content == p.content
    ensures u.tags.Some? ==> q.tags == u.tags.value
    ensures u.tags.None? ==> q.tags == p.tags
    ensures u.published.Some? ==> q.published == u.published.value
    ensures u.published.None? ==> q.published == p.published
    ensures ResolveCategory(categories, u.categoryId).Some? ==> q.category == u.categoryId
    ensures ResolveCategory(categories, u.categoryId).None? ==> q.category == p.category
  {
    var linked := ResolveCategory(categories, u.categoryId);
    p.(title := u.title.GetOr(p.title),
       content := u.content.GetOr(p.content),
       tags := u.tags.GetOr(p.tags),
       published := u.published.GetOr(p.published),
       category := if linked.Some? then linked else p.category,
       updatedAt := now)
  }

  /** Sending the same patch twice at the same clock reading is the same as
      sending it once. */
  lemma PatchIdempotent(p: Post, u: PostUpdate, categories: map<CategoryId, Category>, now: nat)
    ensures ApplyPatch(ApplyPatch(p, u, categories, now), u, categories, now) == ApplyPatch(p, u, categories, now)
  {
  }

  /** A patch that sets nothing only refreshes `updated_at`. */
  lemma EmptyPatchOnlyTouches(p: Post, categories: map<CategoryId, Category>, now: nat)
    ensures ApplyPatch(p, PostUpdate(None, None, None, None, None), categories, now) == p.(updatedAt := now)
  {
  }

  /** `update_post`: `None` and an unchanged store when no post has the id;
      otherwise the patched post replaces it in place and nothing else in
      the store changes. */
  function UpdatePost(s: Store, id: PostId, u: PostUpdate, now: nat): (r: (Store, Option<Post>))
    ensures r.1.None? <==> !Present(s.posts, id)
    ensures r.1.None? ==> r.0 == s
    ensures r.1.Some? ==> var i := Find(s.posts, id).value;
      && r.1.value == ApplyPatch(s.posts[i], u, s.categories, now)
      && r.0 == s.(posts := s.posts[i := r.1.value])
    ensures Valid(s) ==> Valid(r.0)
  {
    match Find(s.posts, id)
    case None => (s, None)
    case Some(i) =>
      var q := ApplyPatch(s.posts[i], u, s.categories, now);
      var s' := s.(posts := s.posts[i := q]);
      assert LinksResolve(s) ==> LinkResolves(s.posts[i], s.categories);
      (s', Some(q))
  }

  /** `delete_post`: `false` and an unchanged store when no post has the id;
      otherwise `true`, and that post alone leaves the store, the others
      keeping their order. Standalone comments are not touched. */
  function DeletePost(s: Store, id: PostId): (r: (Store, bool))
    ensures !r.1 <==> !Present(s.posts, id)
    ensures !r.1 ==> r.0 == s
    ensures r.1 ==> var i := Find(s.posts, id).value;
      && r.0 == s.(posts := s.posts[..i] + s.posts[i + 1..])
      && |r.0.posts| == |s.posts| - 1
    ensures r.1 && UniqueIds(s.posts) ==> !Present(r.0.posts, id)
    ensures Valid(s) ==> Valid(r.0)
  {
    match Find(s.posts, id)
    case None => (s, false)
    case Some(i) =>
      RemoveAt(s, i);
      (s.(posts := s.posts[..i] + s.posts[i + 1..]), true)
  }

  /** Removing the post at `i` keeps ids unique, removes its id, and keeps
      every other link resolving. */
  lemma RemoveAt(s: Store, i: nat)
    requires i < |s.posts|
    ensures var rest := s.posts[..i] + s.posts[i + 1..];
      && |rest| == |s.posts| - 1
      && (UniqueIds(s.posts) ==> UniqueIds(rest) && !Present(rest, s.posts[i].id))
      && (LinksResolve(s) ==> LinksResolve(s.(posts := rest)))
  {
    var rest := s.posts[..i] + s.posts[i + 1..];
    assert forall j :: 0 <= j < |rest| ==> rest[j] == if j < i then s.posts[j] else s.posts[j + 1];
    if UniqueIds(s.posts) && Present(rest, s.posts[i].id) {
      var j :| 0 <= j < |rest| && rest[j].id == s.posts[i].id;
      assert false;
    }
  }

  /** The four listing filters; every listing shows published posts only. */
  datatype Query =
    | AllPublished
    | TitleLike(text: string)
    | InCategory(categoryId: CategoryId)
    | Tagged(tag: string)

  /** Whether a listing's filter selects a post: it must be published; a
      search needs a stretch of the title spelling the query up to case,
      the category listing a link to that category, and the tag listing
      acceptance by the intended `$in` filter on `tags`. */
  function Selects(q: Query, p: Post): (b: bool)
    ensures b ==> p.published
    ensures q.AllPublished? ==> (b <==> p.published)
    ensures q.TitleLike? ==> (b <==> p.published && exists i :: TitleSearch.MatchesAt(p.title, q.text, i))
    ensures q.InCategory? ==> (b <==> p.published && p.category == Some(q.categoryId))
    ensures q.Tagged? ==>
      (b <==> p.published && TagQuery.EvalIn(TagQuery.TagsDoc(p.tags), TagQuery.Intended(q.tag)) == Success(true))
  {
    p.published &&
    match q
    case AllPublished => true
    case TitleLike(text) => TitleSearch.Matches(p.title, text)
    case InCategory(c) => p.category == Some(c)
    case Tagged(t) =>
      assert TagQuery.EvalIn(TagQuery.TagsDoc(p.tags), TagQuery.Intended(t)) == Success(t in p.tags);
      t in p.tags
  }

  /** The posts a query selects, in store order. */
  function Matching(posts: seq<Post>, q: Query): (r: seq<Post>)
    ensures forall i :: 0 <= i < |r| ==> Selects(q, r[i]) && r[i] in posts
    ensures |r| <= |posts|
  {
    if posts == [] then []
    else
      var rest := Matching(posts[1..], q);
      assert forall i :: 0 <= i < |rest| ==> rest[i] in posts[1..];
      (if Selects(q, posts[0]) then [posts[0]] else []) + rest
  }

  /** Each selected post keeps its multiplicity and every other post is
      dropped, so a listing neither loses nor invents posts. */
  lemma {:induction false} MatchingCounts(posts: seq<Post>, q: Query, p: Post)
    ensures multiset(Matching(posts, q))[p] == if Selects(q, p) then multiset(posts)[p] else 0
  {
    if posts != [] {
      assert posts == [posts[0]] + posts[1..];
      MatchingCounts(posts[1..], q, p);
    }
  }

  /** One step of the filter. */
  lemma MatchingUnfold(posts: seq<Post>, q: Query)
    requires posts != []
    ensures Matching(posts, q) == (if Selects(q, posts[0]) then [posts[0]] else []) + Matching(posts[1..], q)
  {
  }

  /** Filtering distributes over concatenation, so a post appended to the
      store can only extend the end of a listing. */
  lemma {:induction false} MatchingAppend(a: seq<Post>, b: seq<Post>, q: Query)
    ensures Matching(a + b, q) == Matching(a, q) + Matching(b, q)
  {
    if a == [] {
      assert a + b == b;
    } else {
      var head := if Selects(q, a[0]) then [a[0]] else [];
      var ta, mb := Matching(a[1..], q), Matching(b, q);
      assert (a + b)[0] == a[0] && (a + b)[1..] == a[1..] + b;
      MatchingUnfold(a + b, q);
      MatchingUnfold(a, q);
      MatchingAppend(a[1..], b, q);
      assert Matching(a + b, q) == head + (ta + mb);
      assert Matching(a, q) == head + ta;
      Sequences.Assoc(head, ta, mb);
    }
  }

  /** The posts `find(filter).skip(skip).limit(size)` returns for a page. */
  function Selected(posts: seq<Post>, q: Query, page: int, size: int): (r: seq<Post>)
    requires page >= 1 && size >= 1
    ensures |r| <= size
    ensures var skip, n := Pagination.Skip(page, size), |Matching(posts, q)|;
      |r| == if skip >= n then 0 else if size <= n - skip then size else n - skip
    ensures forall i :: 0 <= i < |r| ==> Selects(q, r[i]) && r[i] in posts
    ensures forall i :: 0 <= i < |r| ==>
      Pagination.Skip(page, size) + i < |Matching(posts, q)| &&
      r[i] == Matching(posts, q)[Pagination.Skip(page, size) + i]
  {
    Pagination.Window(Matching(posts, q), Pagination.Skip(page, size), size)
  }

  /** A response is the page `page` of `matching`: the total counts every
      match, the page count is the ceiling of total over size, and each item
      shows the corresponding post of the window. */
  predicate PageOf(r: Pagination.PaginatedResponse<PostResponse>, matching: seq<Post>, page: int, size: int)
    requires page >= 1 && size >= 1
  {
    var w := Pagination.Window(matching, Pagination.Skip(page, size), size);
    && r.total == |matching| && r.page == page && r.pageSize == size
    && r.totalPages == Pagination.TotalPages(|matching|, size)
    && |r.items| == |w| && |r.items| <= size && |r.items| <= r.total
    && (page > r.totalPages ==> r.items == [])
    && forall i :: 0 <= i < |r.items| ==> Shows(r.items[i], w[i])
  }

  /** The response of a listing whose items are shown with their own linked
      category's name. */
  function ListLinked(s: Store, q: Query, page: int, size: int): (r: Pagination.PaginatedResponse<PostResponse>)
    requires page >= 1 && size >= 1 && LinksResolve(s)
    ensures PageOf(r, Matching(s.posts, q), page, size)
    ensures forall i :: 0 <= i < |r.items| ==>
      r.items[i].categoryName == LinkedName(Selected(s.posts, q, page, size)[i], s.categories)
  {
    var matching := Matching(s.posts, q);
    var w := Selected(s.posts, q, page, size);
    assert forall i :: 0 <= i < |w| ==> w[i] in matching;
    var items := seq(|w|, i requires 0 <= i < |w| => Respond(w[i], LinkedName(w[i], s.categories)));
    assert page > Pagination.TotalPages(|matching|, size) ==> w == [] by {
      if page > Pagination.TotalPages(|matching|, size) {
        Pagination.PastLastPageSkipsAll(|matching|, page, size);
      }
    }
    Pagination.Create(items, |matching|, Pagination.PaginationParams(page, size))
  }

  /** `get_posts`: a page of the published posts. */
  function GetPosts(s: Store, page: int, size: int): (r: Pagination.PaginatedResponse<PostResponse>)
    requires page >= 1 && size >= 1 && LinksResolve(s)
    ensures PageOf(r, Matching(s.posts, AllPublished), page, size)
    ensures forall i :: 0 <= i < |r.items| ==> r.items[i].published
  {
    ListLinked(s, AllPublished, page, size)
  }

  /** `search_posts`: a page of the published posts whose title matches the
      query regardless of letter case; the total counts by the same test. */
  function SearchPosts(s: Store, query: string, page: int, size: int): (r: Pagination.PaginatedResponse<PostResponse>)
    requires page >= 1 && size >= 1 && LinksResolve(s)
    ensures PageOf(r, Matching(s.posts, TitleLike(query)), page, size)
    ensures forall i :: 0 <= i < |r.items| ==>
      r.items[i].published && TitleSearch.Matches(r.items[i].title, query)
  {
    ListLinked(s, TitleLike(query), page, size)
  }

  /** `get_posts_by_tag`: a page of the published posts carrying the tag. */
  function GetPostsByTag(s: Store, tag: string, page: int, size: int): (r: Pagination.PaginatedResponse<PostResponse>)
    requires page >= 1 && size >= 1 && LinksResolve(s)
    ensures PageOf(r, Matching(s.posts, Tagged(tag)), page, size)
    ensures forall i :: 0 <= i < |r.items| ==> r.items[i].published && tag in r.items[i].tags
  {
    ListLinked(s, Tagged(tag), page, size)
  }

  /** `get_posts_by_category`: `None` for an unknown category; otherwise a
      page of its published posts, every item shown with that category's
      name. */
  function GetPostsByCategory(s: Store, categoryId: CategoryId, page: int, size: int): (r: Option<Pagination.PaginatedResponse<PostResponse>>)
    requires page >= 1 && size >= 1
    ensures r.None? <==> categoryId !in s.categories
    ensures r.Some? ==> PageOf(r.value, Matching(s.posts, InCategory(categoryId)), page, size)
    ensures r.Some? ==> forall i :: 0 <= i < |r.value.items| ==>
      r.value.items[i].published && r.value.items[i].categoryName == Some(s.categories[categoryId].name)
    ensures r.Some? ==> forall i :: 0 <= i < |r.value.items| ==>
      Selected(s.posts, InCategory(categoryId), page, size)[i].category == Some(categoryId)
  {
    if categoryId !in s.categories then None
    else
      var name := s.categories[categoryId].name;
      var matching := Matching(s.posts, InCategory(categoryId));
      var w := Selected(s.posts, InCategory(categoryId), page, size);
      assert forall i :: 0 <= i < |w| ==> w[i] in matching;
      var items := seq(|w|, i requires 0 <= i < |w| => Respond(w[i], Some(name)));
      assert page > Pagination.TotalPages(|matching|, size) ==> w == [] by {
        if page > Pagination.TotalPages(|matching|, size) {
          Pagination.PastLastPageSkipsAll(|matching|, page, size);
        }
      }
      Some(Pagination.Create(items, |matching|, Pagination.PaginationParams(page, size)))
  }

  /** No match is lost between pages: the `j`-th matching post is shown at
      position `j % size` of page `j / size + 1`, a page within the page
      count. */
  lemma EveryMatchIsListed(r: Pagination.PaginatedResponse<PostResponse>, matching: seq<Post>, size: int, j: nat)
    requires size >= 1 && j < |matching|
    requires PageOf(r, matching, j / size + 1, size)
    ensures j / size + 1 <= r.totalPages
    ensures j % size < |r.items| && Shows(r.items[j % size], matching[j])
  {
    Pagination.WindowCovers(matching, size, j);
  }

  /** The total and page count of a listing do not depend on the page asked
      for. */
  lemma TotalIgnoresPage(s: Store, q: Query, p1: int, p2: int, size: int)
    requires p1 >= 1 && p2 >= 1 && size >= 1 && LinksResolve(s)
    ensures ListLinked(s, q, p1, size).total == ListLinked(s, q, p2, size).total
    ensures ListLinked(s, q, p1, size).totalPages == ListLinked(s, q, p2, size).totalPages
  {
  }
}
