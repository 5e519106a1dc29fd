/** The post document of app/models/post.py: an embedded author, category
    and comment list, a status and a statistics sub-record whose counters
    the model's methods maintain. Timestamps are readings of an abstract
    clock and generated identifiers are supplied by the caller. */
module PostModel {
  import opened Wrappers

  datatype PostStatus = Draft | Published | Archived

  /** The string value each status is stored as. */
  function StatusValue(s: PostStatus): string {
    match s
    case Draft => "draft"
    case Published => "published"
    case Archived => "archived"
  }

  /** Reading a stored status back: only the three enum values are accepted. */
  function ParseStatus(v: string): (r: Option<PostStatus>)
    ensures r.Some? ==> StatusValue(r.value) == v
    ensures forall s :: v == StatusValue(s) ==> r == Some(s)
  {
    if v == "draft" then Some(Draft)
    else if v == "published" then Some(Published)
    else if v == "archived" then Some(Archived)
    else None
  }

  const DefaultStatus := Published
  const ApprovedStatus := "approved"
  const MinTitleLength := 3
  const MaxTitleLength := 200
  const MinContentLength := 100

  datatype AuthorEmbedded = AuthorEmbedded(userId: string, username: string, avatarUrl: Option<string>)

  datatype CategoryEmbedded = CategoryEmbedded(categoryId: string, name: string)

  datatype CommentEmbedded = CommentEmbedded(
    commentId: string, author: AuthorEmbedded, text: string,
    createdAt: nat, status: string, likes: int)

  datatype PostStatistics = PostStatistics(views: int, likes: int, commentsCount: int)

  datatype Post = Post(
    title: string, slug: string, content: string, excerpt: string,
    author: AuthorEmbedded, category: CategoryEmbedded,
    tags: seq<string>, featuredImage: Option<string>,
    status: PostStatus, comments: seq<CommentEmbedded>, statistics: PostStatistics,
    createdAt: nat, updatedAt: nat, publishedAt: Option<nat>)

  /** The statistics a new post starts with. */
  function FreshStatistics(): (r: PostStatistics)
    ensures r.views == 0 && r.likes == 0 && r.commentsCount == 0
  {
    PostStatistics(0, 0, 0)
  }

  /** A new embedded comment: `comment_id` and `created_at` come from their
      default factories (supplied here), status and likes from their defaults. */
  function NewComment(commentId: string, author: AuthorEmbedded, text: string, now: nat): (c: CommentEmbedded)
    ensures c.author == author && c.text == text
    ensures c.status == ApprovedStatus && c.likes == 0
  {
    CommentEmbedded(commentId, author, text, now, ApprovedStatus, 0)
  }

  datatype FieldError = TitleLength | ContentLength

  predicate TitleInBounds(title: string) {
    MinTitleLength <= |title| <= MaxTitleLength
  }

  predicate ContentInBounds(content: string) {
    |content| >= MinContentLength
  }

  /** Constructing a post from its required fields: every field bound that
      fails is reported; otherwise the optional fields take their defaults. */
  function NewPost(
    title: string, slug: string, content: string, excerpt: string,
    author: AuthorEmbedded, category: CategoryEmbedded, now: nat): (r: Result<Post, seq<FieldError>>)
    ensures r.Success? <==> TitleInBounds(title) && ContentInBounds(content)
    ensures r.Failure? ==>
      (TitleLength in r.error <==> !TitleInBounds(title)) &&
      (ContentLength in r.error <==> !ContentInBounds(content))
    ensures r.Success? ==>
      var p := r.value;
      && p.title == title && p.slug == slug && p.content == content && p.excerpt == excerpt
      && p.author == author && p.category == category
      && p.tags == [] && p.featuredImage == None
      && p.status == Published && p.comments == [] && p.statistics == FreshStatistics()
      && p.createdAt == now && p.updatedAt == now && p.publishedAt == None
      && Consistent(p)
  {
    var errors := (if TitleInBounds(title) then [] else [TitleLength])
      + (if ContentInBounds(content) then [] else [ContentLength]);
    if errors != [] then Failure(errors)
    else Success(Post(title, slug, content, excerpt, author, category, [], None,
                      DefaultStatus, [], FreshStatistics(), now, now, None))
  }

  /** The counter invariant: `comments_count` is the number of embedded
      comments and no counter is negative. */
  predicate Consistent(p: Post) {
    && p.statistics.commentsCount == |p.comments|
    && p.statistics.views >= 0
    && p.statistics.likes >= 0
  }

  /** `add_comment`: appends one approved comment with no likes and counts it. */
  function AddComment(p: Post, author: AuthorEmbedded, text: string, commentId: string, now: nat): (q: Post)
    ensures |q.comments| == |p.comments| + 1
    ensures q.comments[..|p.comments|] == p.comments
    ensures var c := q.comments[|p.comments|];
      c.author == author && c.text == text && c.status == ApprovedStatus && c.likes == 0
    ensures q.statistics.commentsCount == p.statistics.commentsCount + 1
    ensures q.statistics.views == p.statistics.views && q.statistics.likes == p.statistics.likes
    ensures q.(comments := p.comments, statistics := p.statistics) == p
    ensures Consistent(p) ==> Consistent(q)
  {
    var c := NewComment(commentId, author, text, now);
    p.(comments := p.comments + [c],
       statistics := p.statistics.(commentsCount := p.statistics.commentsCount + 1))
  }

  /** `increment_views`: one more view, nothing else changes. */
  function IncrementViews(p: Post): (q: Post)
    ensures q.statistics.views == p.statistics.views + 1
    ensures q.statistics.likes == p.statistics.likes
    ensures q.statistics.commentsCount == p.statistics.commentsCount
    ensures q.(statistics := p.statistics) == p
    ensures Consistent(p) ==> Consistent(q)
  {
    p.(statistics := p.statistics.(views := p.statistics.views + 1))
  }

  /** `increment_likes`: one more like, nothing else changes. */
  function IncrementLikes(p: Post): (q: Post)
    ensures q.statistics.likes == p.statistics.likes + 1
    ensures q.statistics.views == p.statistics.views
    ensures q.statistics.commentsCount == p.statistics.commentsCount
    ensures q.(statistics := p.statistics) == p
    ensures Consistent(p) ==> Consistent(q)
  {
    p.(statistics := p.statistics.(likes := p.statistics.likes + 1))
  }

  /** One call of a counter-changing method. */
  datatype Event =
    | Commented(author: AuthorEmbedded, text: string, commentId: string, at: nat)
    | Viewed
    | Liked

  function Apply(p: Post, e: Event): Post {
    match e
    case Commented(a, t, id, at) => AddComment(p, a, t, id, at)
    case Viewed => IncrementViews(p)
    case Liked => IncrementLikes(p)
  }

  function Replay(p: Post, es: seq<Event>): Post
    decreases |es|
  {
    if es == [] then p else Replay(Apply(p, es[0]), es[1..])
  }

  function CountViews(es: seq<Event>): nat {
    if es == [] then 0 else (if es[0].Viewed? then 1 else 0) + CountViews(es[1..])
  }

  function CountLikes(es: seq<Event>): nat {
    if es == [] then 0 else (if es[0].Liked? then 1 else 0) + CountLikes(es[1..])
  }

  function CountComments(es: seq<Event>): nat {
    if es == [] then 0 else (if es[0].Commented? then 1 else 0) + CountComments(es[1..])
  }

  /** Over any sequence of counter-changing calls the invariant holds, each
      counter has grown by exactly the number of calls that bump it, and the
      earlier comments are kept in order. A fresh post therefore never has a
      negative counter and always counts exactly its comments. */
  lemma {:induction false} ReplayKeepsCounters(p: Post, es: seq<Event>)
    requires Consistent(p)
    ensures var q := Replay(p, es);
      && Consistent(q)
      && q.statistics.views == p.statistics.views + CountViews(es)
      && q.statistics.likes == p.statistics.likes + CountLikes(es)
      && |q.comments| == |p.comments| + CountComments(es)
      && q.comments[..|p.comments|] == p.comments
    decreases |es|
  {
    if es != [] {
      var p' := Apply(p, es[0]);
      ReplayKeepsCounters(p', es[1..]);
      var q := Replay(p', es[1..]);
      assert q.comments[..|p.comments|] == q.comments[..|p'.comments|][..|p.comments|];
    }
  }
}
