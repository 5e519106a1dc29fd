/** The tag filter of `get_posts_by_tag` as a MongoDB `$in` query. The
    operator builds `{field: {"$in": operand}}` from its two arguments; the
    server rejects an operand that is not an array, and otherwise an
    array-valued field matches when one of its elements is among the
    operand's values. */
module TagQuery {
  import opened Wrappers

  /** What `$in` is compared against: a single string or an array. */
  datatype Operand = Str(text: string) | Arr(values: seq<string>)

  /** `{field: {"$in": operand}}`. */
  datatype InFilter = InFilter(field: string, operand: Operand)

  datatype QueryError = InNeedsArray

  /** A document's array-valued fields by name. */
  type Doc = map<string, seq<string>>

  const TagsField := "tags"

  /** The document a post presents to the filter: its tag list. */
  function TagsDoc(tags: seq<string>): (d: Doc)
    ensures TagsField in d && d[TagsField] == tags
  {
    map[TagsField := tags]
  }

  /** Evaluating the filter against one document: rejected for a non-array
      operand; otherwise true exactly when the field is present and holds a
      value among the operand's. */
  function EvalIn(d: Doc, f: InFilter): (r: Result<bool, QueryError>)
    ensures r.Failure? <==> f.operand.Str?
    ensures r.Success? ==>
      (r.value <==> f.field in d && exists i :: 0 <= i < |d[f.field]| && d[f.field][i] in f.operand.values)
  {
    match f.operand
    case Str(_) => Failure(InNeedsArray)
    case Arr(vs) => Success(f.field in d && exists i :: 0 <= i < |d[f.field]| && d[f.field][i] in vs)
  }

  /** `In(tag, Post.tags)`: the tag takes the place of the field and the
      field's name the place of the values, so every document rejects it. */
  function AsWritten(tag: string): (f: InFilter)
    ensures f.field == tag
    ensures forall d :: EvalIn(d, f) == Failure(InNeedsArray)
  {
    InFilter(tag, Str(TagsField))
  }

  /** The filter evidently meant, `In(Post.tags, [tag])`: it tests the
      `tags` field and accepts a post exactly when the tag is one of its
      tags. */
  function Intended(tag: string): (f: InFilter)
    ensures f.field == TagsField
    ensures forall tags :: EvalIn(TagsDoc(tags), f) == Success(tag in tags)
  {
    var f := InFilter(TagsField, Arr([tag]));
    assert forall tags :: EvalIn(TagsDoc(tags), f) == Success(tag in tags) by {
      forall tags ensures EvalIn(TagsDoc(tags), f) == Success(tag in tags) {
        if tag in tags {
          var i :| 0 <= i < |tags| && tags[i] == tag;
          assert tags[i] in [tag];
        }
      }
    }
    f
  }

  /** As written, the server rejects the query for every tag and every
      post, so the tag listing never returns. */
  lemma AsWrittenRejected(tag: string, tags: seq<string>)
    ensures EvalIn(TagsDoc(tags), AsWritten(tag)) == Failure(InNeedsArray)
  {
  }

  /** The intended filter selects a post exactly when the tag is one of its
      tags: the test the listing model uses. */
  lemma IntendedSelectsTagged(tag: string, tags: seq<string>)
    ensures EvalIn(TagsDoc(tags), Intended(tag)) == Success(tag in tags)
  {
  }
}
