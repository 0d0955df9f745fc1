/**
 * The community comment handler (PUT /api/v1/community/:id): find the post,
 * fail without writing when it is missing, otherwise set its `comments`
 * field to the old array followed by the new comment and answer with the
 * post as it was before the write.
 */
module Community {
  import opened Common

  /** A JSON value, as a document field or a request body holds it. */
  datatype Json =
    | JNull
    | JBool(b: bool)
    | JNum(n: int)
    | JStr(s: string)
    | JArr(items: seq<Json>)
    | JObj(fields: map<string, Json>)

  /** A stored post: its fields by name. */
  type Post = map<string, Json>

  /** The key of a post in the collection (the parsed `_id`). */
  type PostId = string

  const CommentsField: string := "comments"

  /** The response body of the handler. */
  datatype Reply = Reply(success: bool, message: string, data: Option<Post>)

  const PostMissing: Reply := Reply(false, "This post is invalid.", None)

  /** The comments a post already has: its `comments` field when that is an
      array, and none when the field is absent or holds anything else. */
  function PriorComments(post: Post): seq<Json>
  {
    if CommentsField in post && post[CommentsField].JArr? then post[CommentsField].items else []
  }

  /** The post after the `$set` of the extended comment array. */
  function WithComment(post: Post, comment: Json): (r: Post)
    ensures CommentsField in r && r[CommentsField].JArr?
    ensures var cs := r[CommentsField].items;
      && |cs| == |PriorComments(post)| + 1
      && cs[..|cs| - 1] == PriorComments(post)
      && cs[|cs| - 1] == comment
    ensures forall f :: f != CommentsField ==> (f in r <==> f in post)
    ensures forall f :: f != CommentsField && f in post ==> r[f] == post[f]
  {
    var cs := PriorComments(post) + [comment];
    assert cs[..|cs| - 1] == PriorComments(post);
    post[CommentsField := JArr(cs)]
  }

  /** The `community` collection, keyed by post id. */
  class PostCollection {
    var posts: map<PostId, Post>

    constructor (initial: map<PostId, Post>)
      ensures posts == initial
    {
      posts := initial;
    }

    /** Appends `comment` to the post `id`; a missing post is reported and nothing is written. */
    method AddComment(id: PostId, comment: Json) returns (reply: Reply)
      modifies this
      ensures id !in old(posts) ==> reply == PostMissing && posts == old(posts)
      ensures id in old(posts) ==>
        && reply == Reply(true, "Community post updated successfully.", Some(old(posts)[id]))
        && posts == old(posts)[id := WithComment(old(posts)[id], comment)]
    {
      if id !in posts {
        return PostMissing;
      }
      var post := posts[id];

      var comments: seq<Json>;
      if CommentsField in post && post[CommentsField].JArr? {
        comments := post[CommentsField].items + [comment];
      } else {
        comments := [comment];
      }

      // `updateOne({_id}, {$set: {comments}})` on a post known to exist
      posts := posts[id := post[CommentsField := JArr(comments)]];
      reply := Reply(true, "Community post updated successfully.", Some(post));
    }
  }

  /** A post without a comment array gets exactly the new comment. */
  lemma FirstComment(post: Post, comment: Json)
    requires CommentsField !in post || !post[CommentsField].JArr?
    ensures WithComment(post, comment)[CommentsField] == JArr([comment])
  {
  }

  /** After an append, the comments the post has are the earlier ones followed by the new one. */
  lemma CommentsAfterAppend(post: Post, comment: Json)
    ensures PriorComments(WithComment(post, comment)) == PriorComments(post) + [comment]
  {
  }

  /** Two appends keep both comments, in the order they were added, after the earlier ones. */
  lemma TwoComments(post: Post, c1: Json, c2: Json)
    ensures PriorComments(WithComment(WithComment(post, c1), c2)) == PriorComments(post) + [c1, c2]
  {
    CommentsAfterAppend(post, c1);
    CommentsAfterAppend(WithComment(post, c1), c2);
  }
}
