/** The imperative half of the post assembler in server.js: `buildPost`, which
    appends a row's children to a post object in place, and the grouping
    loop of `getPosts`, which pushes one post object per new id into `posts`
    and records its position in the `postsIndex` dictionary. The rows are
    given; the SQL query that produces them is not part of this model. */
module Server {
  import opened JsValues
  import opened Posts
  import opened Grouping

  /** A post object on the heap. `getSparsePost` creates it; `buildPost`
      mutates its `postlets` and `citations` arrays. `data` holds the
      object's current fields. */
  class PostObject {
    var data: Post

    constructor (p: Post)
      ensures data == p
    {
      data := p;
    }
  }

  /** server.js `buildPost`: pushes a postlet when the row has a postlet id
      and a citation when it has a citation id, changes nothing else, and
      returns the object it was given. */
  method BuildPost(existingPost: PostObject, row: Row, now: string) returns (r: PostObject)
    modifies existingPost
    ensures r == existingPost
    ensures r.data == AddChildren(old(existingPost.data), row, now)
  {
    if IntTruthy(row.postletId) {
      existingPost.data := existingPost.data.(postlets := existingPost.data.postlets + NewPostlets(row, now));
    }
    if IntTruthy(row.citeId) {
      existingPost.data := existingPost.data.(citations := existingPost.data.citations + NewCitations(row));
    }
    r := existingPost;
  }

  /** One turn of the `getPosts` loop (server.js lines 77-87) on the post
      objects: a row with an unseen `post_id` pushes a fresh sparse post
      and records its position in `postsIndex`; then the post at that
      position gets the row's children, in place. `done` is the value of
      the posts so far, `done'` their value afterwards. */
  method TakeRow(rows: seq<Row>, i: nat, posts: seq<PostObject>, postsIndex: map<Option<int>, nat>,
                 now: string, show: real -> string, ghost done: seq<Post>)
    returns (posts': seq<PostObject>, postsIndex': map<Option<int>, nat>, ghost done': seq<Post>)
    requires i < |rows|
    requires done == Assemble(rows, i, now, show).posts && postsIndex == Assemble(rows, i, now, show).index
    requires |posts| == |done|
    requires forall a, b :: 0 <= a < b < |posts| ==> posts[a] != posts[b]
    requires forall a :: 0 <= a < |posts| ==> posts[a].data == done[a]
    modifies set a | 0 <= a < |posts| :: posts[a]
    ensures done' == Assemble(rows, i + 1, now, show).posts
    ensures postsIndex' == Assemble(rows, i + 1, now, show).index
    ensures |posts'| == |done'|
    ensures forall a, b :: 0 <= a < b < |posts'| ==> posts'[a] != posts'[b]
    ensures forall a :: 0 <= a < |posts'| ==> posts'[a].data == done'[a]
    ensures forall a :: 0 <= a < |posts'| ==> (a < |posts| && posts'[a] == posts[a]) || fresh(posts'[a])
  {
    var row := rows[i];
    assert Assemble(rows, i + 1, now, show) == Step(Grouped(done, postsIndex), row, now, show);
    posts', postsIndex', done' := posts, postsIndex, done;
    var postKey: nat;
    ghost var shell: Post;
    if row.postId !in postsIndex {
      postKey := |posts|;
      postsIndex' := postsIndex[row.postId := postKey];
      var p := new PostObject(GetSparsePost(row, now, show));
      posts' := posts + [p];
      shell := p.data;
      done' := done + [AddChildren(shell, row, now)];
    } else {
      postKey := postsIndex[row.postId];
      shell := done[postKey];
      done' := done[postKey := AddChildren(shell, row, now)];
    }
    assert posts'[postKey].data == shell;
    label Merge:
    var merged := BuildPost(posts'[postKey], row, now);
    posts' := posts'[postKey := merged];
    forall a | 0 <= a < |posts'|
      ensures posts'[a].data == done'[a]
    {
      if a != postKey {
        assert posts'[a] != posts'[postKey];
        assert posts'[a].data == old@Merge(posts'[a].data);
      }
    }
  }

  /** The grouping loop of server.js `getPosts`, over the rows the query
      returned. It returns one fresh, distinct post object per distinct
      `post_id`, in order of first appearance, each holding the post that
      `Denormalize` describes. */
  method GetPosts(rows: seq<Row>, now: string, show: real -> string) returns (posts: seq<PostObject>)
    ensures |posts| == |Keys(rows)|
    ensures forall i, j :: 0 <= i < j < |posts| ==> posts[i] != posts[j]
    ensures forall i :: 0 <= i < |posts| ==> fresh(posts[i])
    ensures forall i :: 0 <= i < |posts| ==> posts[i].data == Denormalize(rows, now, show)[i]
  {
    posts := [];
    var postsIndex: map<Option<int>, nat> := map[];
    ghost var done: seq<Post> := [];
    var i := 0;
    while i < |rows|
      invariant 0 <= i <= |rows|
      invariant done == Assemble(rows, i, now, show).posts
      invariant postsIndex == Assemble(rows, i, now, show).index
      invariant |posts| == |done|
      invariant forall a, b :: 0 <= a < b < |posts| ==> posts[a] != posts[b]
      invariant forall a :: 0 <= a < |posts| ==> fresh(posts[a])
      invariant forall a :: 0 <= a < |posts| ==> posts[a].data == done[a]
    {
      posts, postsIndex, done := TakeRow(rows, i, posts, postsIndex, now, show, done);
      i := i + 1;
    }
    AssembleIsDenormalize(rows, i, now, show);
    assert rows[..i] == rows;
  }
}
