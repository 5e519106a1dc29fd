# Blog backend core, modelled in Dafny

This project models the core of a FastAPI/Beanie blog backend. It covers:

- the pagination arithmetic of its listings (`PaginationParams`, `PaginatedResponse`);
- the post service: create, get, partial update, delete, and four paginated listings (published posts, title search, by category, by tag);
- the post endpoints that wrap the service. These add query-parameter bounds, a not-found check before the ownership check, and standalone comments;
- the post document's counters (`add_comment`, `increment_views`, `increment_likes`);
- the four statistics rollups: top authors, popular categories, comment statistics, tag distribution.

The database is an immutable `Documents.Store`. It holds:

- the posts, in store order;
- the categories, as a map from id to category;
- the standalone comments, in store order.

Every operation is a pure function from a store to a store and a result. Each mutating operation is proved to preserve the store invariant `Documents.Valid`: post ids are unique, and every category link points at a stored category.

Python's `collections.Counter` is modelled in `Counter`, including `most_common`:

- keys are kept in first-occurrence order;
- the result is a stable sort by count, descending;
- `n <= 0` gives the empty list.

Modules, one per file:

| file | module | models |
|---|---|---|
| wrappers.dfy | `Wrappers` | `Option`, `Result` |
| sequences.dfy | `Sequences` | sequence facts the listing proofs share |
| pagination.dfy | `Pagination` | app/schemas/pagination.py |
| counter.dfy | `Counter` | `collections.Counter`, `most_common`, stable `sorted(..., reverse=True)` |
| title_search.dfy | `TitleSearch` | the case-insensitive title filter of `search_posts` |
| post_model.dfy | `PostModel` | app/models/post.py |
| documents.dfy | `Documents` | the post/category/comment documents as the service and routers read them, the store, `PostResponse` |
| post_service.dfy | `PostService` | app/services/post_service.py |
| posts_router.dfy | `PostsRouter` | app/routers/posts.py |
| stats.dfy | `Stats` | app/routers/stats.py |
| tag_query.dfy | `TagQuery` | the MongoDB `$in` filter of `get_posts_by_tag` |

Where the code and the documented intent differ, the model follows the code. The exception is the two bugs under "## Findings": each is modelled as written by a separate member, and the listings use the corrected form. The model follows the code in these places:

- `GET /posts/{id}` does not increment the view counter. It is a read and returns no new store.
- The statistics rollups read every post (`find_all`), published or not (`Stats.RollupsIgnorePublished`).
- Top authors are grouped by `author_name`, not by author id.
- An unknown or empty `category_id` on create and update is silently ignored. It is not an error.
- Search matches the title only.
- Listings are returned in store order. No sort is applied.
- Deleting a post leaves its standalone comments in place.

The service and routers read posts as flat documents: an author id and name, a `published` flag, an optional category link, and comments in a separate collection. app/models/post.py instead declares embedded author, category and comment records, a status and statistics. The two shapes are kept apart: `Documents.Post` is what the service, routers and statistics use, and `PostModel.Post` is the declared document with its counter methods.

## Model

| member | source | states |
|---|---|---|
| Pagination.MakeParams | app/schemas/pagination.py:11-12 | parameters are accepted exactly when `page >= 1` and `1 <= page_size <= 100`, and then carry the given values |
| Pagination.DefaultParams | app/schemas/pagination.py:11-12 | the defaults (page 1, size 10) are themselves accepted parameters and skip nothing |
| Pagination.Skip | app/schemas/pagination.py:14-16 | the skip is non-negative, zero exactly on page 1, and skip plus one page is `page * page_size` (the end of the page) |
| Pagination.Limit | app/schemas/pagination.py:14-20 | the limit is positive and page `p + 1` starts exactly where page `p` plus its limit ends, so pages neither overlap nor leave gaps |
| Pagination.TotalPages | app/schemas/pagination.py:32 | the page count is the ceiling of `total / page_size`: its pages hold every item, one page fewer would not, and it is zero exactly for an empty result |
| Pagination.TotalPagesIsCeiling | app/schemas/pagination.py:32 | no smaller page count than the computed one can hold all items |
| Pagination.PastLastPageSkipsAll | app/services/post_service.py:35-36 | a page past the last one skips the whole result set |
| Pagination.Window | app/services/post_service.py:36 | for a positive limit, `.skip(k).limit(n)` yields at most `n` items, exactly `min(n, len - k)` of them when `k` is in range, and they are the items at `k, k+1, ...` |
| Pagination.WindowCovers | app/services/post_service.py:35-37 | every item of a result set is on page `j / size + 1` at position `j % size`, and that page is within the page count |
| Pagination.Create | app/schemas/pagination.py:30-39 | the response carries the items, total, page and page size unchanged and a page count that is the ceiling of total over page size |
| Pagination.ValidateKeywords | app/schemas/pagination.py:23-28 | building the response model succeeds exactly when all five required fields are given, and otherwise fails naming the missing ones |
| Pagination.ServiceKeywordsRejected | app/services/post_service.py:61-67 | the keywords the service's listings pass (`size`, `pages`) leave `page_size` and `total_pages` missing, so validation fails |
| Pagination.CreateKeywordsAccepted | app/schemas/pagination.py:33-39 | the keywords `create` passes satisfy validation |
| Counter.Bump | app/routers/stats.py:29 | counting one more occurrence raises that key's count by one in place, or appends it with count 1 when new; the total grows by one |
| Counter.Tally | app/routers/stats.py:13 | the counter has one entry per distinct element, its count is the element's multiplicity, keys are in first-occurrence order, and the counts sum to the input length |
| Counter.TallySize | app/routers/stats.py:13 | the counter has exactly as many entries as there are distinct elements |
| Counter.SortByCount | app/routers/stats.py:33-35 | sorting is a permutation of the entries and keeps their total |
| Counter.SortOrdered | app/routers/stats.py:33-35 | the sort is by count descending and stable: equal counts keep their earlier order |
| Counter.Ranked | app/routers/stats.py:33-35 | the ranked counter lists every distinct element once with its multiplicity, by count descending, ties by first occurrence |
| Counter.MostCommon | app/routers/stats.py:17 | `most_common(n)` is empty for `n <= 0`, otherwise it holds `min(n, distinct)` entries with true counts in count-then-first-occurrence order, and every element left out is outranked by each listed one: it occurs less often, or as often and is first seen later, as the stable `heapq.nlargest` behind `most_common` keeps the earliest of tied elements |
| TitleSearch.FoldChar | app/services/post_service.py:108 | the `"i"` option folds a character to one that is the same up to ASCII letter case and never upper-case |
| TitleSearch.FoldCharSame | app/services/post_service.py:108 | two characters fold alike exactly when they are one character up to case: equal, or an upper-case letter and its lower-case partner |
| TitleSearch.Fold | app/services/post_service.py:108 | folding keeps the length and folds each character in place |
| TitleSearch.FoldSame | app/services/post_service.py:108 | two strings fold alike exactly when they have equal length and agree at every position up to letter case |
| TitleSearch.MatchesAtFolded | app/services/post_service.py:108 | the title spells the query up to case from index `i` exactly when the folded query occurs in the folded title at `i` |
| TitleSearch.Contains | app/services/post_service.py:108 | the scan answers true exactly when the query occurs at some index of the text |
| TitleSearch.MatchIgnoresCase | app/services/post_service.py:108 | a title containing the query matches it, and also matches any query of the same length that agrees with it position by position up to letter case |
| TitleSearch.Matches | app/services/post_service.py:108 | a title matches exactly when, from some index on, each of its characters is the query's character at the same offset up to ASCII letter case |
| TitleSearch.EmptyQueryMatches | app/services/post_service.py:108 | the empty query matches every title |
| PostModel.ParseStatus | app/models/post.py:9-12 | a stored status string is read back to the status it encodes, and only the three enum values are accepted |
| PostModel.FreshStatistics | app/models/post.py:35-38 | new statistics start with all counters at zero |
| PostModel.NewComment | app/models/post.py:26-32 | a new comment keeps author and text, is approved and has no likes |
| PostModel.NewPost | app/models/post.py:41-59 | a post is constructed exactly when the title is 3 to 200 characters and the content at least 100, each failing bound is reported, and otherwise the defaults apply and the counters are consistent |
| PostModel.AddComment | app/models/post.py:71-74 | one approved comment with no likes is appended, the earlier comments are kept, `comments_count` grows by one, nothing else changes, and consistency is preserved |
| PostModel.IncrementViews | app/models/post.py:76-77 | views grow by one, nothing else changes, and consistency is preserved |
| PostModel.IncrementLikes | app/models/post.py:79-80 | likes grow by one, nothing else changes, and consistency is preserved |
| PostModel.ReplayKeepsCounters | app/models/post.py:35-80 | after any sequence of counter calls, `comments_count` equals the number of comments, each counter has grown by the number of calls that bump it, and the earlier comments are kept |
| Documents.Find | app/services/post_service.py:70-71 | lookup by id fails exactly when no post has the id, and otherwise returns the first such post |
| Documents.FindUnique | app/services/post_service.py:70-71 | with unique ids, lookup returns the one post with that id |
| Documents.LinkedName | app/services/post_service.py:41-44 | a response has a category name exactly when the post links a category, and it is that category's stored name |
| Documents.Respond | app/routers/posts.py:65-76 | a response copies every field of its post, with the given category name |
| PostService.ResolveCategory | app/services/post_service.py:23-26 | a post gets a category link exactly when the request names a non-empty id of a stored category |
| PostService.CreatePost | app/services/post_service.py:15-29 | creation fails exactly when the title is outside 3 to 200 characters or the content is shorter than 100 (app/models/post.py:42, 44), reporting each bound broken; otherwise the new post is appended with the request's fields, the requester as author, one clock reading for both timestamps and the resolved category, and the store invariant is preserved |
| PostService.GetPost | app/services/post_service.py:70-71 | the result is absent exactly when no post has the id, and otherwise is a stored post with that id |
| PostService.ApplyPatch | app/services/post_service.py:79-90 | each set field overwrites, each unset field stays, the category changes only to a resolving id, `updated_at` is the clock reading, and id, author and creation time never change |
| PostService.PatchIdempotent | app/services/post_service.py:79-90 | applying the same patch twice at the same time equals applying it once |
| PostService.EmptyPatchOnlyTouches | app/services/post_service.py:79-90 | a patch that sets nothing changes only `updated_at` |
| PostService.UpdatePost | app/services/post_service.py:74-92 | the update fails exactly when the id is missing, and then the store is unchanged; otherwise only that post is replaced, by its patched version, and the invariant is preserved |
| PostService.DeletePost | app/services/post_service.py:95-100 | the delete returns false exactly when the id is missing, and then the store is unchanged; otherwise that post alone is removed, the rest keep their order, and the id is gone |
| PostService.Selects | app/services/post_service.py:36 | a listing selects only published posts: a search those whose title matches the query up to case (line 108), the category listing those linked to the category (157-158), the tag listing those the intended `$in` filter on `tags` accepts (198) |
| PostService.Matching | app/services/post_service.py:36-37 | a listing's filter returns only published posts that pass it, all drawn from the store |
| PostService.MatchingCounts | app/services/post_service.py:36-37 | the filter keeps every selected post with its multiplicity and drops all others |
| PostService.MatchingAppend | app/services/post_service.py:36 | filtering distributes over concatenation, so a new post can only extend the end of a listing |
| PostService.Selected | app/services/post_service.py:36 | `find(filter).skip(skip).limit(size)` returns at most `size` selected posts, exactly `min(size, matches - skip)` of them (none when `skip` is past the last match), the matches from index `skip` on in store order |
| PostService.ListLinked | app/services/post_service.py:35-67 | a listing returns the requested window of the matches, each shown with its linked category's name, and the total counts all matches |
| PostService.GetPosts | app/services/post_service.py:32-67 | `get_posts` returns a page of the published posts, with total and page count over all of them |
| PostService.SearchPosts | app/services/post_service.py:103-146 | `search_posts` returns a page of the published posts whose title matches the query ignoring case, with the total counted by the same test |
| PostService.GetPostsByTag | app/services/post_service.py:195-234 | `get_posts_by_tag` returns a page of the published posts carrying the tag |
| PostService.GetPostsByCategory | app/services/post_service.py:149-192 | `get_posts_by_category` is absent exactly for an unknown category; otherwise it pages that category's published posts, each shown with the category's name |
| PostService.EveryMatchIsListed | app/services/post_service.py:35-37 | the `j`-th match appears on page `j / size + 1`, within the page count, so paging loses no post |
| PostService.TotalIgnoresPage | app/services/post_service.py:37 | a listing's total and page count do not depend on the page asked for |
| PostsRouter.ListPosts | app/routers/posts.py:21-23 | the listing is rejected with 422 exactly when page or size is out of bounds, and otherwise returns at most 100 items |
| PostsRouter.SearchPosts | app/routers/posts.py:26-32 | the search is rejected with 422 exactly for an empty query or out-of-bounds paging |
| PostsRouter.PostsByCategory | app/routers/posts.py:35-44 | out-of-bounds paging gives 422 before the category is looked up; an unknown category gives 404; in-bounds paging for a known category always succeeds with the service's page |
| PostsRouter.PostsByTag | app/routers/posts.py:47-51 | the tag listing is rejected with 422 exactly when paging is out of bounds |
| PostsRouter.GetPost | app/routers/posts.py:54-76 | reading a post gives 404 exactly when it is missing, and otherwise shows it with its category name; the store is not changed |
| PostsRouter.CreatePost | app/routers/posts.py:79-99 | a title or content outside the post model's bounds gives an unhandled error (500) and leaves the store unchanged; otherwise the store becomes exactly the service's store with the requester's post appended; the invariant holds either way |
| PostsRouter.UpdatePost | app/routers/posts.py:102-131 | a missing post gives 404 whoever asks; otherwise a requester who is not the author gets 403; on error the store is unchanged; the request succeeds exactly when the post exists and the requester is its author, and then only that post is patched |
| PostsRouter.DeletePost | app/routers/posts.py:134-144 | a missing post gives 404, then a non-author gets 403, and neither changes the store; the request succeeds exactly when the post exists and the requester is its author, and then that post is removed |
| PostsRouter.CreateComment | app/routers/posts.py:158-176 | commenting gives 404 exactly when the post is missing; otherwise exactly one comment is appended and the posts are untouched; the store invariant is preserved |
| PostsRouter.PostComments | app/routers/posts.py:147-155 | the response has one entry per selected comment, in the selection's order, showing its id, author, content and creation time |
| PostsRouter.CommentsOn | app/routers/posts.py:149 | every comment listed belongs to the post and is stored, and none of the post's comments is missed |
| PostsRouter.CommentsOnCounts | app/routers/posts.py:149 | each comment on the post is listed as often as it is stored, and no other comment is listed |
| PostsRouter.CommentsOnAppend | app/routers/posts.py:149 | selection distributes over concatenation, so the comments keep their store order and a new one can only extend the end |
| Stats.AuthorNames | app/routers/stats.py:13 | the author name of every post is taken, in store order |
| Stats.AuthorNamesCount | app/routers/stats.py:13 | a name's multiplicity among the author names is its number of posts |
| Stats.TopAuthors | app/routers/stats.py:10-18 | the result holds at most `limit` authors (none for `limit <= 0`) with their post counts, most prolific first, ties by first post; any author left out is outranked by every listed one: fewer posts, or as many and a later first post |
| Stats.CategoryNames | app/routers/stats.py:26-29 | one category name is collected per linked post, and a name's multiplicity is its number of posts |
| Stats.CategoryNamesAppend | app/routers/stats.py:26-29 | names are collected in post order: those of earlier posts come before those of later ones, so a name's first use is its first linked post, as dict insertion order has it |
| Stats.CategoryNamesOne | app/routers/stats.py:27-29 | one post contributes its linked category's name, or nothing when it has no category |
| Stats.PopularCategories | app/routers/stats.py:21-36 | every used category name is listed once with its post count, most used first, ties by first use, and the counts sum to the linked posts |
| Stats.CommentPostIds | app/routers/stats.py:44 | the post id of every comment is taken, in store order |
| Stats.CommentPostIdsCount | app/routers/stats.py:44 | a post id's multiplicity among the comments' post ids is its number of comments |
| Stats.MostCommented | app/routers/stats.py:44-53 | the result holds the at most ten most commented posts with their true counts, most commented first, ties by first comment; any post left out is outranked by every listed one: fewer comments, or as many and a later first comment |
| Stats.Average | app/routers/stats.py:49 | the average is zero with no posts, and otherwise times the post count gives the comment count |
| Stats.CommentsStatsOf | app/routers/stats.py:39-54 | the totals count all comments and all posts, the average is taken over them, and the top list is `MostCommented` |
| Stats.AllTags | app/routers/stats.py:62-63 | a tag occurs in the collected tags exactly when some post carries it |
| Stats.AllTagsAppend | app/routers/stats.py:62-63 | tags are collected in post order: those of earlier posts come first, so a tag's first use is the first post carrying it, as the counter's insertion order has it |
| Stats.AllTagsOne | app/routers/stats.py:63 | one post contributes its own tag list, repeats and order kept |
| Stats.AllTagsCount | app/routers/stats.py:60-63 | a tag's multiplicity across all posts' tags counts repeats within one post |
| Stats.TagsDistribution | app/routers/stats.py:57-65 | the result holds the at most twenty most frequent tags with their true counts, most frequent first, ties by first use; any tag left out is outranked by every listed one: fewer occurrences, or as many and a later first use |
| Stats.RollupsIgnorePublished | app/routers/stats.py:12-13 | the rollups' inputs do not depend on the published flag: flipping every flag changes none of the author names, tags, linked-post count or category names |
| TagQuery.TagsDoc | app/services/post_service.py:198 | a post presents its tag list under the `tags` field |
| TagQuery.EvalIn | app/services/post_service.py:198 | an `$in` filter is rejected exactly when its operand is not an array, and otherwise matches exactly when the field holds a value among the operand's |
| TagQuery.AsWritten | app/services/post_service.py:198 | the filter as written puts the tag in the field position, and every document rejects it |
| TagQuery.Intended | app/services/post_service.py:198 | the intended filter tests the `tags` field and accepts a post exactly when the tag is among its tags |
| TagQuery.AsWrittenRejected | app/services/post_service.py:198 | the filter as written, with the tag as field and the field name as operand, is rejected for every tag and post |
| TagQuery.IntendedSelectsTagged | app/services/post_service.py:198 | the intended filter accepts a post exactly when the tag is among its tags |

## Left out

- Persistence is not modelled: MongoDB, Beanie, connection set-up, and the declared indexes (including the unique `slug` index). The store is an immutable value.
- Authentication and users are not modelled. The requester's id and name are parameters.
- `main.py`, configuration, the categories router and the seed script are outside the core.
- Concurrency and `async` are not modelled. Each request is one atomic step.
- Clocks and `ObjectId` generation are caller-supplied parameters. A new post id is required to be fresh, which is what the storage layer guarantees.
- PostService.CreatePost: `created_at` and `updated_at` come from one clock reading; the source's two default factories may read the clock twice.
- PostModel.NewPost: `created_at` and `updated_at` come from one clock reading, as in `PostService.CreatePost`.
- PostService.CreatePost: only the title and content bounds of the declared post model are applied. The declared model also requires `slug`, `excerpt`, `author` and `category`, which the service does not pass, so as written every creation fails validation.
- PostService.GetPost: a post id that is not a well-formed `ObjectId` makes `Post.get` raise in the source; the model answers `None`, as for any unknown id.
- PostService.UpdatePost: a malformed post id raises in `Post.get` in the source; the model answers `None`.
- PostService.DeletePost: a malformed post id raises in `Post.get` in the source; the model answers `false`.
- PostsRouter.GetPost: a malformed post id raises in the source (500); the model answers 404.
- PostsRouter.UpdatePost: a malformed post id raises in the source (500); the model answers 404.
- PostsRouter.DeletePost: a malformed post id raises in the source (500); the model answers 404.
- PostsRouter.CreateComment: a malformed post id raises in the source (500); the model answers 404.
- PostService.ListLinked: builds its response with the corrected `PaginatedResponse.create`; as written, every listing raises a validation error (first finding).
- PostService.GetPosts: as written, raises when building its response (post_service.py:61-67); the model returns the corrected response.
- PostService.SearchPosts: as written, raises when building its response (post_service.py:140-146); the model returns the corrected response.
- PostService.GetPostsByCategory: as written, raises when building its response (post_service.py:186-192); the model returns the corrected response.
- PostService.GetPostsByTag: as written, the query is rejected by the server (post_service.py:198, 204) and the response would also fail to build (228-234); the model uses the intended filter and the corrected response.
- Pagination.Window: the skip is an unbounded integer. A page far enough out (for example page 92233720368547760 of size 100) gives a skip of 2^63 or more, which the MongoDB driver cannot encode as a 64-bit integer, so the source fails with a 500; the model returns an empty page with the correct total.
- Pagination.Window: a limit of 0, which MongoDB reads as "no limit", is not modelled; every caller passes a positive page size.
- PostService.ResolveCategory: a non-empty id that is not a well-formed `ObjectId` makes `Category.get` raise in the source; the model treats it like any unknown id (ignored).
- PostsRouter.PostsByCategory: a category id that is not a well-formed `ObjectId` raises during lookup in the source; the model treats it like any unknown id (404).
- PostService.ApplyPatch: an explicit `null` in a patch is treated as an unset field; the source assigns `None` to that field.
- Documents.Valid: a dangling category link (a category deleted while posts still point at it) is excluded by the invariant, so the fetch of a missing category is not modelled.
- TagQuery.EvalIn: only array-valued fields and the `$in` operator are modelled, not the rest of the query language.
- TitleSearch.Matches: the query is treated as a literal string, not a regular expression; case folding is ASCII only.
- Stats.TopAuthors: the query parameter's default of 10 (stats.py:11) is not modelled; the caller always passes `limit`.
- Stats.Average: the average is an exact rational (`real`), not a floating-point division.
- PostModel.NewPost: the `slug` is supplied; the source has no slug generator. Pydantic validation runs only at construction, so later assignments are not re-validated (the source does not enable `validate_assignment`).
- The routers import a `Comment` document that app/models/post.py does not define, and the service reads `published`, `author_id`, `author_name` and a category link that `Post` does not declare. The model uses the shape the service and routers read (`Documents`) and does not model the resulting import and attribute errors.
- Error bodies and messages (the `detail` strings, the 422 validation report) are not modelled; only which error is raised.

## Findings

| source | as written | input that shows it | evidently intended | confidence | as-written member | corrected member |
|---|---|---|---|---|---|---|
| app/services/post_service.py:61-67 (also 140-146, 186-192, 228-234) | the listings build `PaginatedResponse` with the keywords `size=` and `pages=`, but the model requires `page_size` and `total_pages` and ignores unknown keywords | any listing request, e.g. `GET /posts?page=1&size=10` on an empty store | pass `page_size=` and `total_pages=`, as `PaginatedResponse.create` does | high; not executed | Pagination.ServiceKeywordsRejected | Pagination.Create |
| app/services/post_service.py:198 (also 204) | `In(tag, Post.tags)` passes the tag as the field and the field name as the value list, giving `{tag: {"$in": "tags"}}`, whose `$in` operand is not an array | any tag request, e.g. `GET /posts/tag/python` | `In(Post.tags, [tag])`, selecting the posts whose tags include the tag | medium; not executed | TagQuery.AsWritten | TagQuery.Intended |
