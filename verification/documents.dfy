/** The post, category and comment documents as the service, the routers
    and the statistics endpoints read them (a flat author id and name, a
    published flag, an optional category link and a standalone comment
    collection), the in-memory store holding them, and the response shape
    a post is returned in. */
module Documents {
  import opened Wrappers

  type PostId = string
  type CategoryId = string
  type UserId = string

  datatype Post = Post(
    id: PostId, title: string, content: string,
    authorId: UserId, authorName: string,
    category: Option<CategoryId>, tags: seq<string>, published: bool,
    createdAt: nat, updatedAt: nat)

  datatype Category = Category(name: string, description: string)

  datatype Comment = Comment(id: string, postId: PostId, author: string, content: string, createdAt: nat)

  /** The collections, in store order. */
  datatype Store = Store(posts: seq<Post>, categories: map<CategoryId, Category>, comments: seq<Comment>)

  predicate UniqueIds(posts: seq<Post>) {
    forall i, j :: 0 <= i < j < |posts| ==> posts[i].id != posts[j].id
  }

  predicate LinkResolves(p: Post, categories: map<CategoryId, Category>) {
    p.category.None? || p.category.value in categories
  }

  predicate LinksResolve(s: Store) {
    forall i :: 0 <= i < |s.posts| ==> LinkResolves(s.posts[i], s.categories)
  }

  /** What the storage layer guarantees of every state: `_id` is unique and
      every category link points at a stored category. */
  predicate Valid(s: Store) {
    UniqueIds(s.posts) && LinksResolve(s)
  }

  predicate Present(posts: seq<Post>, id: PostId) {
    exists i :: 0 <= i < |posts| && posts[i].id == id
  }

  /** Index of the first post with the given id. */
  function Find(posts: seq<Post>, id: PostId): (r: Option<nat>)
    ensures r.None? <==> !Present(posts, id)
    ensures r.Some? ==> r.value < |posts| && posts[r.value].id == id
    ensures r.Some? ==> forall j :: 0 <= j < r.value ==> posts[j].id != id
  {
    if posts == [] then None
    else if posts[0].id == id then Some(0)
    else
      var rest := Find(posts[1..], id);
      assert Present(posts, id) ==> Present(posts[1..], id) by {
        if Present(posts, id) {
          var i :| 0 <= i < |posts| && posts[i].id == id;
          assert posts[1..][i - 1].id == id;
        }
      }
      if rest.None? then None
      else
        assert posts[rest.value + 1] == posts[1..][rest.value];
        Some(rest.value + 1)
  }

  /** With unique ids, the post found is the only one with that id. */
  lemma FindUnique(posts: seq<Post>, id: PostId, j: nat)
    requires UniqueIds(posts) && j < |posts| && posts[j].id == id
    ensures Find(posts, id) == Some(j)
  {
  }

  datatype PostResponse = PostResponse(
    id: PostId, title: string, content: string,
    authorId: UserId, authorName: string, categoryName: Option<string>,
    tags: seq<string>, published: bool, createdAt: nat, updatedAt: nat)

  /** The name of the category a post links to, fetched from the store. */
  function LinkedName(p: Post, categories: map<CategoryId, Category>): (r: Option<string>)
    requires LinkResolves(p, categories)
    ensures r.Some? <==> p.category.Some?
    ensures r.Some? ==> r.value == categories[p.category.value].name
  {
    match p.category
    case None => None
    case Some(c) => Some(categories[c].name)
  }

  /** The response for a post, shown with the given category name. */
  function Respond(p: Post, categoryName: Option<string>): (r: PostResponse)
    ensures Shows(r, p) && r.categoryName == categoryName
  {
    PostResponse(p.id, p.title, p.content, p.authorId, p.authorName, categoryName,
                 p.tags, p.published, p.createdAt, p.updatedAt)
  }

  /** A response shows a post when every field but the category name is
      copied from it. */
  predicate Shows(r: PostResponse, p: Post) {
    && r.id == p.id && r.title == p.title && r.content == p.content
    && r.authorId == p.authorId && r.authorName == p.authorName
    && r.tags == p.tags && r.published == p.published
    && r.createdAt == p.createdAt && r.updatedAt == p.updatedAt
  }
}
