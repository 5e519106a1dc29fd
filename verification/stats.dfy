/** The rollups of app/routers/stats.py over every stored post and comment
    (`find_all`, published or not): posts per author name, posts per
    category name, comment totals with the most-commented posts, and tag
    occurrences. Each row is a `Counter.Entry(key, count)`. */
module Stats {
  import opened Documents
  import opened Counter

  const TopCommentedPosts := 10
  const TopTags := 20

  /** The author name of every post, in store order. */
  function AuthorNames(posts: seq<Post>): (r: seq<string>)
    ensures |r| == |posts|
    ensures forall i :: 0 <= i < |posts| ==> r[i] == posts[i].authorName
  {
    if posts == [] then [] else [posts[0].authorName] + AuthorNames(posts[1..])
  }

  /** Number of posts written under `name`. */
  function PostsBy(posts: seq<Post>, name: string): nat {
    if posts == [] then 0
    else (if posts[0].authorName == name then 1 else 0) + PostsBy(posts[1..], name)
  }

  lemma {:induction false} AuthorNamesCount(posts: seq<Post>, name: string)
    ensures multiset(AuthorNames(posts))[name] == PostsBy(posts, name)
  {
    if posts != [] {
      AuthorNamesCount(posts[1..], name);
      assert AuthorNames(posts) == [posts[0].authorName] + AuthorNames(posts[1..]);
    }
  }

  lemma AuthorNamesCounts(posts: seq<Post>)
    ensures forall name :: PostsBy(posts, name) == multiset(AuthorNames(posts))[name]
  {
    forall name ensures PostsBy(posts, name) == multiset(AuthorNames(posts))[name] {
      AuthorNamesCount(posts, name);
    }
  }

  /** `get_top_authors(limit)`: at most `limit` authors (none for
      `limit <= 0`), each with its number of posts, most prolific first and
      ties in order of each author's first post; an author left out has no
      more posts than any author listed. */
  function TopAuthors(s: Store, limit: int): (r: seq<Entry<string>>)
    ensures limit <= 0 ==> r == []
    ensures limit >= 0 ==> |r| <= limit
    ensures DistinctKeys(r)
    ensures forall i :: 0 <= i < |r| ==> r[i].count == PostsBy(s.posts, r[i].key) && r[i].count >= 1
    ensures CountThenRank(r, FirstSeen(AuthorNames(s.posts)))
    ensures limit >= 0 ==> forall name :: PostsBy(s.posts, name) >= 1 && !HasKey(r, name) ==>
      |r| == limit && forall i :: 0 <= i < |r| ==> Outranks(r[i], name, PostsBy(s.posts, name), AuthorNames(s.posts))
    ensures Total(r) <= |s.posts|
    ensures limit >= |set a | a in AuthorNames(s.posts)| ==> Total(r) == |s.posts|
  {
    var names := AuthorNames(s.posts);
    AuthorNamesCounts(s.posts);
    MostCommonCountedBy(names, limit, name => PostsBy(s.posts, name));
    MostCommon(names, limit)
  }

  /** The name of every linked category, one per post that has a link, in
      store order; posts without a category contribute nothing. */
  function CategoryNames(posts: seq<Post>, categories: map<CategoryId, Category>): (r: seq<string>)
    requires forall i :: 0 <= i < |posts| ==> LinkResolves(posts[i], categories)
    ensures |r| == Linked(posts)
    ensures forall name :: multiset(r)[name] == PostsInCategoryNamed(posts, categories, name)
  {
    if posts == [] then []
    else
      assert LinkResolves(posts[0], categories);
      var rest := CategoryNames(posts[1..], categories);
      var head := match posts[0].category
        case None => []
        case Some(c) => [categories[c].name];
      assert multiset(head + rest) == multiset(head) + multiset(rest);
      head + rest
  }

  /** Collecting category names distributes over concatenation: the names
      of earlier posts come first, so a name's first use is its first
      linked post. */
  lemma {:induction false} CategoryNamesAppend(a: seq<Post>, b: seq<Post>, categories: map<CategoryId, Category>)
    requires forall i :: 0 <= i < |a| ==> LinkResolves(a[i], categories)
    requires forall i :: 0 <= i < |b| ==> LinkResolves(b[i], categories)
    ensures forall i :: 0 <= i < |a + b| ==> LinkResolves((a + b)[i], categories)
    ensures CategoryNames(a + b, categories) == CategoryNames(a, categories) + CategoryNames(b, categories)
  {
    if a == [] {
      assert a + b == b;
    } else {
      assert (a + b)[1..] == a[1..] + b;
      CategoryNamesAppend(a[1..], b, categories);
    }
  }

  /** A single post contributes its linked category's name, or nothing. */
  lemma CategoryNamesOne(p: Post, categories: map<CategoryId, Category>)
    requires LinkResolves(p, categories)
    ensures CategoryNames([p], categories) == if p.category.Some? then [categories[p.category.value].name] else []
  {
    assert [p][1..] == [];
  }

  /** Number of posts with a category link. */
  function Linked(posts: seq<Post>): nat {
    if posts == [] then 0 else (if posts[0].category.Some? then 1 else 0) + Linked(posts[1..])
  }

  /** Number of posts whose linked category is named `name`. */
  function PostsInCategoryNamed(posts: seq<Post>, categories: map<CategoryId, Category>, name: string): nat
    requires forall i :: 0 <= i < |posts| ==> LinkResolves(posts[i], categories)
  {
    if posts == [] then 0
    else
      assert LinkResolves(posts[0], categories);
      (if posts[0].category.Some? && categories[posts[0].category.value].name == name then 1 else 0)
      + PostsInCategoryNamed(posts[1..], categories, name)
  }

  /** `get_popular_categories`: every category name that some post links
      to, with its number of posts, most used first and ties in order of
      first use; the counts add up to the posts that have a category. */
  function PopularCategories(s: Store): (r: seq<Entry<string>>)
    requires LinksResolve(s)
    ensures DistinctKeys(r)
    ensures forall i :: 0 <= i < |r| ==>
      r[i].count == PostsInCategoryNamed(s.posts, s.categories, r[i].key) && r[i].count >= 1
    ensures forall name :: PostsInCategoryNamed(s.posts, s.categories, name) >= 1 ==> HasKey(r, name)
    ensures CountThenRank(r, FirstSeen(CategoryNames(s.posts, s.categories)))
    ensures Total(r) == Linked(s.posts)
  {
    var names := CategoryNames(s.posts, s.categories);
    RankedCountedBy(names, name => PostsInCategoryNamed(s.posts, s.categories, name));
    Ranked(names)
  }

  /** The `post_id` of every comment, in store order. */
  function CommentPostIds(comments: seq<Comment>): (r: seq<PostId>)
    ensures |r| == |comments|
    ensures forall i :: 0 <= i < |comments| ==> r[i] == comments[i].postId
  {
    if comments == [] then [] else [comments[0].postId] + CommentPostIds(comments[1..])
  }

  /** Number of comments on post `id`. */
  function CommentsOnPost(comments: seq<Comment>, id: PostId): nat {
    if comments == [] then 0
    else (if comments[0].postId == id then 1 else 0) + CommentsOnPost(comments[1..], id)
  }

  lemma {:induction false} CommentPostIdsCount(comments: seq<Comment>, id: PostId)
    ensures multiset(CommentPostIds(comments))[id] == CommentsOnPost(comments, id)
  {
    if comments != [] {
      CommentPostIdsCount(comments[1..], id);
      assert CommentPostIds(comments) == [comments[0].postId] + CommentPostIds(comments[1..]);
    }
  }

  lemma CommentPostIdsCounts(comments: seq<Comment>)
    ensures forall id :: CommentsOnPost(comments, id) == multiset(CommentPostIds(comments))[id]
  {
    forall id ensures CommentsOnPost(comments, id) == multiset(CommentPostIds(comments))[id] {
      CommentPostIdsCount(comments, id);
    }
  }

  /** `len(comments) / len(posts) if posts else 0`, as an exact quotient. */
  function Average(comments: nat, posts: nat): (r: real)
    ensures posts == 0 ==> r == 0.0
    ensures posts > 0 ==> r * posts as real == comments as real
  {
    if posts > 0 then (comments as real) / (posts as real) else 0.0
  }

  datatype CommentsStats = CommentsStats(
    totalComments: nat, totalPosts: nat, averageCommentsPerPost: real,
    postsWithMostComments: seq<Entry<PostId>>)

  /** `posts_with_most_comments`: the ten most commented post ids with
      their comment counts, most commented first and ties in order of first
      comment; a post left out has no more comments than any post listed. */
  function MostCommented(comments: seq<Comment>): (r: seq<Entry<PostId>>)
    ensures |r| <= TopCommentedPosts
    ensures DistinctKeys(r)
    ensures forall i :: 0 <= i < |r| ==> r[i].count == CommentsOnPost(comments, r[i].key) && r[i].count >= 1
    ensures CountThenRank(r, FirstSeen(CommentPostIds(comments)))
    ensures forall id :: CommentsOnPost(comments, id) >= 1 && !HasKey(r, id) ==>
      |r| == TopCommentedPosts && forall i :: 0 <= i < |r| ==> Outranks(r[i], id, CommentsOnPost(comments, id), CommentPostIds(comments))
  {
    var ids := CommentPostIds(comments);
    CommentPostIdsCounts(comments);
    MostCommonCountedBy(ids, TopCommentedPosts, id => CommentsOnPost(comments, id));
    MostCommon(ids, TopCommentedPosts)
  }

  /** `get_comments_stats`: totals over all comments and all posts, the
      average guarded against an empty post collection, and the most
      commented posts. */
  function CommentsStatsOf(s: Store): (r: CommentsStats)
    ensures r.totalComments == |s.comments| && r.totalPosts == |s.posts|
    ensures r.averageCommentsPerPost == Average(r.totalComments, r.totalPosts)
    ensures r.postsWithMostComments == MostCommented(s.comments)
  {
    CommentsStats(|s.comments|, |s.posts|, Average(|s.comments|, |s.posts|), MostCommented(s.comments))
  }

  /** Every tag of every post, in store order, repeats included. */
  function AllTags(posts: seq<Post>): (r: seq<string>)
    ensures forall t :: t in r <==> exists i :: 0 <= i < |posts| && t in posts[i].tags
  {
    if posts == [] then []
    else
      var rest := AllTags(posts[1..]);
      assert forall t :: t in posts[0].tags + rest <==> exists i :: 0 <= i < |posts| && t in posts[i].tags by {
        forall t ensures t in posts[0].tags + rest <==> exists i :: 0 <= i < |posts| && t in posts[i].tags {
          if t in rest {
            var i :| 0 <= i < |posts[1..]| && t in posts[1..][i].tags;
            assert t in posts[i + 1].tags;
          }
          if exists i :: 0 <= i < |posts| && t in posts[i].tags {
            var i :| 0 <= i < |posts| && t in posts[i].tags;
            if i > 0 { assert t in posts[1..][i - 1].tags; }
          }
        }
      }
      posts[0].tags + rest
  }

  /** Collecting tags distributes over concatenation: the tags of earlier
      posts come first, so a tag's first use is the first post carrying it. */
  lemma {:induction false} AllTagsAppend(a: seq<Post>, b: seq<Post>)
    ensures AllTags(a + b) == AllTags(a) + AllTags(b)
  {
    if a == [] {
      assert a + b == b;
    } else {
      assert (a + b)[1..] == a[1..] + b;
      AllTagsAppend(a[1..], b);
      assert AllTags(a + b) == a[0].tags + (AllTags(a[1..]) + AllTags(b));
    }
  }

  /** A single post contributes its own tag list, in its order. */
  lemma AllTagsOne(p: Post)
    ensures AllTags([p]) == p.tags
  {
    assert [p][1..] == [];
  }

  /** Occurrences of `tag` summed over the posts: a tag listed twice on one
      post counts twice. */
  function TagOccurrences(posts: seq<Post>, tag: string): nat {
    if posts == [] then 0 else multiset(posts[0].tags)[tag] + TagOccurrences(posts[1..], tag)
  }

  lemma {:induction false} AllTagsCount(posts: seq<Post>, tag: string)
    ensures multiset(AllTags(posts))[tag] == TagOccurrences(posts, tag)
  {
    if posts != [] {
      AllTagsCount(posts[1..], tag);
      assert multiset(AllTags(posts)) == multiset(posts[0].tags) + multiset(AllTags(posts[1..]));
    }
  }

  lemma AllTagsCounts(posts: seq<Post>)
    ensures forall tag :: TagOccurrences(posts, tag) == multiset(AllTags(posts))[tag]
  {
    forall tag ensures TagOccurrences(posts, tag) == multiset(AllTags(posts))[tag] {
      AllTagsCount(posts, tag);
    }
  }

  /** `get_tags_distribution`: the twenty most frequent tags with their
      occurrence counts, most frequent first and ties in order of first use;
      a tag left out occurs no more often than any tag listed. */
  function TagsDistribution(s: Store): (r: seq<Entry<string>>)
    ensures |r| <= TopTags
    ensures DistinctKeys(r)
    ensures forall i :: 0 <= i < |r| ==> r[i].count == TagOccurrences(s.posts, r[i].key) && r[i].count >= 1
    ensures CountThenRank(r, FirstSeen(AllTags(s.posts)))
    ensures forall tag :: TagOccurrences(s.posts, tag) >= 1 && !HasKey(r, tag) ==>
      |r| == TopTags && forall i :: 0 <= i < |r| ==> Outranks(r[i], tag, TagOccurrences(s.posts, tag), AllTags(s.posts))
  {
    var tags := AllTags(s.posts);
    AllTagsCounts(s.posts);
    MostCommonCountedBy(tags, TopTags, tag => TagOccurrences(s.posts, tag));
    MostCommon(tags, TopTags)
  }

  /** The rollups read every post whatever its published flag: flipping
      every flag changes none of them. */
  lemma {:induction false} RollupsIgnorePublished(posts: seq<Post>, flag: bool, categories: map<CategoryId, Category>)
    ensures AuthorNames(SetPublished(posts, flag)) == AuthorNames(posts)
    ensures AllTags(SetPublished(posts, flag)) == AllTags(posts)
    ensures Linked(SetPublished(posts, flag)) == Linked(posts)
    ensures (forall i :: 0 <= i < |posts| ==> LinkResolves(posts[i], categories)) ==>
      CategoryNames(SetPublished(posts, flag), categories) == CategoryNames(posts, categories)
  {
    if posts != [] {
      RollupsIgnorePublished(posts[1..], flag, categories);
      assert SetPublished(posts, flag)[1..] == SetPublished(posts[1..], flag);
    }
  }

  function SetPublished(posts: seq<Post>, flag: bool): (r: seq<Post>)
    ensures |r| == |posts|
    ensures forall i :: 0 <= i < |posts| ==> r[i] == posts[i].(published := flag)
  {
    seq(|posts|, i requires 0 <= i < |posts| => posts[i].(published := flag))
  }
}
