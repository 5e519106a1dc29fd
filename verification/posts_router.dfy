/** The endpoints of app/routers/posts.py, reduced to what they decide
    before and after calling the service: query-parameter bounds, the
    not-found check that precedes the ownership check, and the post-exists
    check on comment creation. The authenticated user is given by id and
    name; how it is authenticated is not part of this model. */
module PostsRouter {
  import opened Wrappers
  import opened Documents
  import Pagination
  import PostService
  import PostModel
  import Sequences

  /** The HTTP errors the endpoints raise: 404, 403, the 422 that query
      validation produces, and the 500 of an error the handler lets escape. */
  datatype ApiError = NotFound | Forbidden | Unprocessable | InternalError

  /** The store after a request, with its result. */
  datatype Outcome<T> = Outcome(store: Store, result: Result<T, ApiError>)

  type Page = Pagination.PaginatedResponse<PostResponse>

  /** `GET /posts`. */
  function ListPosts(s: Store, page: int, size: int): (r: Result<Page, ApiError>)
    requires LinksResolve(s)
    ensures r.Failure? <==> !Pagination.InBounds(page, size)
    ensures r.Failure? ==> r.error == Unprocessable
    ensures r.Success? ==> r.value == PostService.GetPosts(s, page, size) && |r.value.items| <= Pagination.MaxPageSize
  {
    if !Pagination.InBounds(page, size) then Failure(Unprocessable)
    else Success(PostService.GetPosts(s, page, size))
  }

  /** `GET /posts/search/`: the query must be non-empty. */
  function SearchPosts(s: Store, q: string, page: int, size: int): (r: Result<Page, ApiError>)
    requires LinksResolve(s)
    ensures r.Failure? <==> |q| < 1 || !Pagination.InBounds(page, size)
    ensures r.Failure? ==> r.error == Unprocessable
    ensures r.Success? ==> r.value == PostService.SearchPosts(s, q, page, size) && |r.value.items| <= Pagination.MaxPageSize
  {
    if |q| < 1 || !Pagination.InBounds(page, size) then Failure(Unprocessable)
    else Success(PostService.SearchPosts(s, q, page, size))
  }

  /** `GET /posts/category/{id}`: bounds are checked before the category is
      looked up; an unknown category is a 404. */
  function PostsByCategory(s: Store, categoryId: CategoryId, page: int, size: int): (r: Result<Page, ApiError>)
    ensures r == Failure(Unprocessable) <==> !Pagination.InBounds(page, size)
    ensures r == Failure(NotFound) <==> Pagination.InBounds(page, size) && categoryId !in s.categories
    ensures r.Success? <==> Pagination.InBounds(page, size) && categoryId in s.categories
    ensures r.Success? ==>
      && Pagination.InBounds(page, size)
      && PostService.GetPostsByCategory(s, categoryId, page, size) == Some(r.value)
  {
    if !Pagination.InBounds(page, size) then Failure(Unprocessable)
    else
      match PostService.GetPostsByCategory(s, categoryId, page, size)
      case None => Failure(NotFound)
      case Some(p) => Success(p)
  }

  /** `GET /posts/tag/{tag}`. */
  function PostsByTag(s: Store, tag: string, page: int, size: int): (r: Result<Page, ApiError>)
    requires LinksResolve(s)
    ensures r.Failure? <==> !Pagination.InBounds(page, size)
    ensures r.Failure? ==> r.error == Unprocessable
    ensures r.Success? ==> r.value == PostService.GetPostsByTag(s, tag, page, size) && |r.value.items| <= Pagination.MaxPageSize
  {
    if !Pagination.InBounds(page, size) then Failure(Unprocessable)
    else Success(PostService.GetPostsByTag(s, tag, page, size))
  }

  /** `GET /posts/{id}`: a read that returns no new store, so no counter of
      the post can change; a missing post is a 404. */
  function GetPost(s: Store, id: PostId): (r: Result<PostResponse, ApiError>)
    requires LinksResolve(s)
    ensures r.Failure? <==> !Present(s.posts, id)
    ensures r.Failure? ==> r.error == NotFound
    ensures r.Success? ==> var p := s.posts[Find(s.posts, id).value];
      r.value.id == id && Shows(r.value, p) && r.value.categoryName == LinkedName(p, s.categories)
  {
    match PostService.GetPost(s, id)
    case None => Failure(NotFound)
    case Some(p) => Success(Respond(p, LinkedName(p, s.categories)))
  }

  /** `POST /posts`: a title or content outside the post model's bounds
      makes building the document raise, an unhandled error (500) that
      leaves the store as it was; otherwise the store grows by one post
      authored by the requester. */
  function CreatePost(s: Store, data: PostService.PostCreate, userId: UserId, username: string,
                      newId: PostId, now: nat): (r: Outcome<PostResponse>)
    requires Valid(s) && !Present(s.posts, newId)
    ensures Valid(r.store)
    ensures r.result.Failure? <==>
      !PostModel.TitleInBounds(data.title) || !PostModel.ContentInBounds(data.content)
    ensures r.result.Failure? ==> r.result.error == InternalError && r.store == s
    ensures r.result.Success? ==>
      && |r.store.posts| == |s.posts| + 1 && r.store.posts[..|s.posts|] == s.posts
      && var p := r.store.posts[|s.posts|];
      && p.id == newId && p.authorId == userId && p.authorName == username
      && Shows(r.result.value, p)
      && r.result.value.categoryName == LinkedName(p, r.store.categories)
    ensures r.result.Success? ==>
      r.store == PostService.CreatePost(s, data, userId, username, newId, now).value.0
  {
    match PostService.CreatePost(s, data, userId, username, newId, now)
    case Failure(_) => Outcome(s, Failure(InternalError))
    case Success((s', p)) =>
      assert s'.posts[|s.posts|] == p;
      Outcome(s', Success(Respond(p, LinkedName(p, s'.categories))))
  }

  /** `PUT /posts/{id}`: 404 for a missing post whoever asks, then 403 for a
      requester who is not the author; on either error the store is
      unchanged. */
  function UpdatePost(s: Store, id: PostId, u: PostService.PostUpdate, userId: UserId, now: nat): (r: Outcome<PostResponse>)
    requires Valid(s)
    ensures r.result == Failure(NotFound) <==> !Present(s.posts, id)
    ensures r.result == Failure(Forbidden) <==>
      Present(s.posts, id) && s.posts[Find(s.posts, id).value].authorId != userId
    ensures r.result.Failure? ==> r.store == s
    ensures r.result.Success? ==> var i := Find(s.posts, id).value;
      && s.posts[i].authorId == userId
      && r.store == s.(posts := s.posts[i := PostService.ApplyPatch(s.posts[i], u, s.categories, now)])
      && Shows(r.result.value, r.store.posts[i])
    ensures r.result.Success? <==> Present(s.posts, id) && s.posts[Find(s.posts, id).value].authorId == userId
    ensures Valid(r.store)
  {
    match Find(s.posts, id)
    case None => Outcome(s, Failure(NotFound))
    case Some(i) =>
      if s.posts[i].authorId != userId then Outcome(s, Failure(Forbidden))
      else
        var (s', q) := PostService.UpdatePost(s, id, u, now);
        assert s'.posts[i] == q.value;
        assert LinkResolves(s'.posts[i], s'.categories);
        Outcome(s', Success(Respond(q.value, LinkedName(q.value, s'.categories))))
  }

  /** `DELETE /posts/{id}`: the same 404-then-403 order, so only the author
      can remove a post; on either error the store is unchanged. */
  function DeletePost(s: Store, id: PostId, userId: UserId): (r: Outcome<()>)
    requires Valid(s)
    ensures r.result == Failure(NotFound) <==> !Present(s.posts, id)
    ensures r.result == Failure(Forbidden) <==>
      Present(s.posts, id) && s.posts[Find(s.posts, id).value].authorId != userId
    ensures r.result.Failure? ==> r.store == s
    ensures r.result.Success? ==> var i := Find(s.posts, id).value;
      && s.posts[i].authorId == userId
      && r.store == s.(posts := s.posts[..i] + s.posts[i + 1..])
      && !Present(r.store.posts, id)
    ensures r.result.Success? <==> Present(s.posts, id) && s.posts[Find(s.posts, id).value].authorId == userId
    ensures Valid(r.store)
  {
    match Find(s.posts, id)
    case None => Outcome(s, Failure(NotFound))
    case Some(i) =>
      if s.posts[i].authorId != userId then Outcome(s, Failure(Forbidden))
      else Outcome(PostService.DeletePost(s, id).0, Success(()))
  }

  /** The request body of a new comment. */
  datatype CommentCreate = CommentCreate(author: string, content: string)

  datatype CommentResponse = CommentResponse(id: string, author: string, content: string, createdAt: nat)

  /** `POST /posts/{id}/comments`: 404 for a missing post; otherwise one
      standalone comment is appended and the posts are left as they were. */
  function CreateComment(s: Store, postId: PostId, data: CommentCreate, newId: string, now: nat): (r: Outcome<CommentResponse>)
    ensures r.result.Failure? <==> !Present(s.posts, postId)
    ensures r.result.Failure? ==> r.result.error == NotFound && r.store == s
    ensures r.result.Success? ==>
      && r.store.posts == s.posts && r.store.categories == s.categories
      && r.store.comments == s.comments + [Comment(newId, postId, data.author, data.content, now)]
      && r.result.value == CommentResponse(newId, data.author, data.content, now)
    ensures Valid(s) ==> Valid(r.store)
  {
    match PostService.GetPost(s, postId)
    case None => Outcome(s, Failure(NotFound))
    case Some(_) =>
      var c := Comment(newId, postId, data.author, data.content, now);
      Outcome(s.(comments := s.comments + [c]), Success(CommentResponse(c.id, c.author, c.content, c.createdAt)))
  }

  /** `GET /posts/{id}/comments`: the comments on that post, in store order;
      a post with none, or no such post, gives the empty list. */
  function PostComments(s: Store, postId: PostId): (r: seq<CommentResponse>)
    ensures |r| == |CommentsOn(s.comments, postId)|
    ensures forall i :: 0 <= i < |r| ==> var c := CommentsOn(s.comments, postId)[i];
      r[i] == CommentResponse(c.id, c.author, c.content, c.createdAt)
  {
    var cs := CommentsOn(s.comments, postId);
    seq(|cs|, i requires 0 <= i < |cs| => CommentResponse(cs[i].id, cs[i].author, cs[i].content, cs[i].createdAt))
  }

  /** The comments whose `post_id` is `postId`, in store order: each such
      comment as often as it is stored, and no other. */
  function CommentsOn(comments: seq<Comment>, postId: PostId): (r: seq<Comment>)
    ensures forall i :: 0 <= i < |r| ==> r[i].postId == postId && r[i] in comments
    ensures forall c :: c in comments && c.postId == postId ==> c in r
  {
    if comments == [] then []
    else
      var rest := CommentsOn(comments[1..], postId);
      assert forall c :: c in comments ==> c == comments[0] || c in comments[1..];
      (if comments[0].postId == postId then [comments[0]] else []) + rest
  }

  /** Every comment on the post keeps its multiplicity; all others are
      dropped. */
  lemma {:induction false} CommentsOnCounts(comments: seq<Comment>, postId: PostId, c: Comment)
    ensures multiset(CommentsOn(comments, postId))[c] ==
      if c.postId == postId then multiset(comments)[c] else 0
  {
    if comments != [] {
      assert comments == [comments[0]] + comments[1..];
      CommentsOnCounts(comments[1..], postId, c);
    }
  }

  /** One step of the selection. */
  lemma CommentsOnUnfold(comments: seq<Comment>, postId: PostId)
    requires comments != []
    ensures CommentsOn(comments, postId) ==
      (if comments[0].postId == postId then [comments[0]] else []) + CommentsOn(comments[1..], postId)
  {
  }

  /** Selection distributes over concatenation, so the comments keep their
      store order and a new comment can only extend the end of the list. */
  lemma {:induction false} CommentsOnAppend(a: seq<Comment>, b: seq<Comment>, postId: PostId)
    ensures CommentsOn(a + b, postId) == CommentsOn(a, postId) + CommentsOn(b, postId)
  {
    if a == [] {
      assert a + b == b;
    } else {
      var head := if a[0].postId == postId then [a[0]] else [];
      var ta, cb := CommentsOn(a[1..], postId), CommentsOn(b, postId);
      assert (a + b)[0] == a[0] && (a + b)[1..] == a[1..] + b;
      CommentsOnUnfold(a + b, postId);
      CommentsOnUnfold(a, postId);
      CommentsOnAppend(a[1..], b, postId);
      assert CommentsOn(a + b, postId) == head + (ta + cb);
      assert CommentsOn(a, postId) == head + ta;
      Sequences.Assoc(head, ta, cb);
    }
  }
}
