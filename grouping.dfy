/** What the grouping loop of server.js `getPosts` computes, stated on the
    whole row sequence at once: the distinct post ids in order of first
    appearance, the row each post's scalar fields come from, and the
    children each post collects. Every definition peels the LAST row, in
    step with the loop that consumes rows one at a time; the lemmas then
    describe the same values from the front and by position. */
module Grouping {
  import opened JsValues
  import opened Posts

  /** The distinct `post_id` values of the rows, in the order in which they
      first appear: the keys of `postsIndex`, in the order their posts are
      pushed. */
  function Keys(rows: seq<Row>): (ks: seq<Option<int>>)
    ensures |ks| <= |rows|
  {
    if rows == [] then []
    else
      var n := |rows| - 1;
      var ks := Keys(rows[..n]);
      if rows[n].postId in ks then ks else ks + [rows[n].postId]
  }

  /** The index of the first row that carries key `k`. */
  function FirstIndex(rows: seq<Row>, k: Option<int>): (j: nat)
    requires k in Keys(rows)
    ensures j < |rows| && rows[j].postId == k
    ensures forall i :: 0 <= i < j ==> rows[i].postId != k
  {
    var n := |rows| - 1;
    if k in Keys(rows[..n]) then FirstIndex(rows[..n], k)
    else KeysAreRowKeys(rows[..n], k); n
  }

  /** The children the rows with key `k` contribute, in row order; `child`
      gives what one row contributes. */
  function ChildrenOf<C>(rows: seq<Row>, k: Option<int>, child: Row -> seq<C>): seq<C> {
    if rows == [] then []
    else
      var n := |rows| - 1;
      ChildrenOf(rows[..n], k, child) + (if rows[n].postId == k then child(rows[n]) else [])
  }

  function PostletsOf(rows: seq<Row>, k: Option<int>, now: string): seq<Postlet> {
    ChildrenOf(rows, k, r => NewPostlets(r, now))
  }

  function CitationsOf(rows: seq<Row>, k: Option<int>): seq<Citation> {
    ChildrenOf(rows, k, NewCitations)
  }

  /** The post for key `k`: its shell from the first row with that key, and
      every child the rows with that key carry. */
  function Expected(rows: seq<Row>, k: Option<int>, now: string, show: real -> string): Post
    requires k in Keys(rows)
  {
    GetSparsePost(rows[FirstIndex(rows, k)], now, show).(
      postlets := PostletsOf(rows, k, now),
      citations := CitationsOf(rows, k))
  }

  /** The posts `getPosts` returns for the rows, in output order. */
  function Denormalize(rows: seq<Row>, now: string, show: real -> string): seq<Post> {
    var ks := Keys(rows);
    seq(|ks|, i requires 0 <= i < |ks| => Expected(rows, ks[i], now, show))
  }

  // ---------------------------------------------------------------------
  // The output posts: one per distinct post id, in first-appearance order

  /** A key is grouped exactly when some row carries it. */
  lemma {:induction false} KeysAreRowKeys(rows: seq<Row>, k: Option<int>)
    ensures k in Keys(rows) <==> exists j :: 0 <= j < |rows| && rows[j].postId == k
  {
    if rows != [] {
      var n := |rows| - 1;
      KeysAreRowKeys(rows[..n], k);
      if k in Keys(rows[..n]) {
        var j :| 0 <= j < n && rows[..n][j].postId == k;
        assert rows[j].postId == k;
      } else if exists j :: 0 <= j < |rows| && rows[j].postId == k {
        var j :| 0 <= j < |rows| && rows[j].postId == k;
        assert j == n;
      }
    }
  }

  /** No post id is grouped twice. */
  lemma {:induction false} KeysDistinct(rows: seq<Row>)
    ensures forall i, j :: 0 <= i < j < |Keys(rows)| ==> Keys(rows)[i] != Keys(rows)[j]
  {
    if rows != [] {
      KeysDistinct(rows[..|rows| - 1]);
    }
  }

  /** Posts are ordered by the first appearance of their ids in the rows,
      not by the ids themselves. */
  lemma {:induction false} KeysInFirstAppearanceOrder(rows: seq<Row>, i: nat, j: nat)
    requires i < j < |Keys(rows)|
    ensures FirstIndex(rows, Keys(rows)[i]) < FirstIndex(rows, Keys(rows)[j])
  {
    var n := |rows| - 1;
    var init := rows[..n];
    var ks := Keys(init);
    if rows[n].postId in ks {
      KeysInFirstAppearanceOrder(init, i, j);
    } else if j < |ks| {
      KeysInFirstAppearanceOrder(init, i, j);
    } else {
      assert Keys(rows)[i] == ks[i];
    }
  }

  /** The ids grouped from a prefix of the rows are a prefix of the ids
      grouped from all of them: a later row never reorders or removes a post. */
  lemma {:induction false} KeysPrefix(rows: seq<Row>, m: nat)
    requires m <= |rows|
    ensures Keys(rows[..m]) <= Keys(rows)
  {
    if m < |rows| {
      var n := |rows| - 1;
      assert rows[..n][..m] == rows[..m];
      KeysPrefix(rows[..n], m);
    } else {
      assert rows[..m] == rows;
    }
  }

  /** Rows after the first sighting of an id do not change which row that
      id's shell comes from. */
  lemma FirstIndexPrefix(rows: seq<Row>, m: nat, k: Option<int>)
    requires m <= |rows| && k in Keys(rows[..m])
    ensures k in Keys(rows) && FirstIndex(rows, k) == FirstIndex(rows[..m], k)
  {
    KeysAreRowKeys(rows[..m], k);
    var w :| 0 <= w < m && rows[..m][w].postId == k;
    assert rows[w].postId == k;
    KeysAreRowKeys(rows, k);
    var j0 := FirstIndex(rows[..m], k);
    var j1 := FirstIndex(rows, k);
    assert rows[j0] == rows[..m][j0];
  }

  // ---------------------------------------------------------------------
  // The children of each post

  /** The children of a concatenation of row batches are the children of
      the first batch followed by those of the second. */
  lemma {:induction false} ChildrenConcat<C>(a: seq<Row>, b: seq<Row>, k: Option<int>, child: Row -> seq<C>)
    ensures ChildrenOf(a + b, k, child) == ChildrenOf(a, k, child) + ChildrenOf(b, k, child)
  {
    if b == [] {
      assert a + b == a;
    } else {
      var n := |b| - 1;
      assert (a + b)[..|a + b| - 1] == a + b[..n];
      ChildrenConcat(a, b[..n], k, child);
    }
  }

  /** Row `j` puts its own children, and no other row's, at its own place in
      the children of its post: a group's children list exactly the rows
      with that id, in row order, each as often as it occurs. */
  lemma ChildrenAt<C>(rows: seq<Row>, j: nat, k: Option<int>, child: Row -> seq<C>)
    requires j < |rows|
    ensures ChildrenOf(rows, k, child) ==
      ChildrenOf(rows[..j], k, child)
      + (if rows[j].postId == k then child(rows[j]) else [])
      + ChildrenOf(rows[j + 1..], k, child)
  {
    assert rows == rows[..j] + [rows[j]] + rows[j + 1..];
    ChildrenConcat(rows[..j] + [rows[j]], rows[j + 1..], k, child);
    ChildrenConcat(rows[..j], [rows[j]], k, child);
    assert ([] + [rows[j]])[..0] == [];
  }

  /** A post has a child exactly when some row with its id carries one: an
      outer-join NULL never makes a phantom child, and no child is dropped. */
  lemma {:induction false} ChildrenExist<C>(rows: seq<Row>, k: Option<int>, child: Row -> seq<C>)
    ensures ChildrenOf(rows, k, child) != [] <==>
      exists j :: 0 <= j < |rows| && rows[j].postId == k && child(rows[j]) != []
  {
    if rows != [] {
      var n := |rows| - 1;
      ChildrenExist(rows[..n], k, child);
      if ChildrenOf(rows[..n], k, child) != [] {
        var j :| 0 <= j < n && rows[..n][j].postId == k && child(rows[..n][j]) != [];
        assert rows[j] == rows[..n][j];
      } else if exists j :: 0 <= j < |rows| && rows[j].postId == k && child(rows[j]) != [] {
        var j :| 0 <= j < |rows| && rows[j].postId == k && child(rows[j]) != [];
      }
    }
  }

  /** The children collected from a prefix of the rows are a prefix of
      those collected from all rows: children are only ever appended. */
  lemma ChildrenPrefix<C>(rows: seq<Row>, m: nat, k: Option<int>, child: Row -> seq<C>)
    requires m <= |rows|
    ensures ChildrenOf(rows[..m], k, child) <= ChildrenOf(rows, k, child)
  {
    assert rows == rows[..m] + rows[m..];
    ChildrenConcat(rows[..m], rows[m..], k, child);
  }

  // ---------------------------------------------------------------------
  // The posts as a whole

  /** Feeding more rows only adds posts at the end and children at the end
      of existing posts; the scalar fields of a post are those of the first
      row carrying its id and never change afterwards. */
  lemma DenormalizeExtends(rows: seq<Row>, m: nat, now: string, show: real -> string, i: nat)
    requires m <= |rows| && i < |Denormalize(rows[..m], now, show)|
    ensures i < |Denormalize(rows, now, show)|
    ensures
      var before, after := Denormalize(rows[..m], now, show)[i], Denormalize(rows, now, show)[i];
      && after.(postlets := [], citations := []) == before.(postlets := [], citations := [])
      && before.postlets <= after.postlets
      && before.citations <= after.citations
  {
    KeysPrefix(rows, m);
    var k := Keys(rows[..m])[i];
    assert Keys(rows)[i] == k;
    FirstIndexPrefix(rows, m, k);
    assert rows[..m][FirstIndex(rows[..m], k)] == rows[FirstIndex(rows, k)];
    ChildrenPrefix(rows, m, k, r => NewPostlets(r, now));
    ChildrenPrefix(rows, m, k, NewCitations);
  }

  /** One more row carrying an id already seen: that post keeps its shell
      and gains the row's children; the other posts are unchanged. This is
      the step of the `getPosts` loop for a known id. */
  lemma ExpectedStepKnown(rows: seq<Row>, r: Row, k: Option<int>, now: string, show: real -> string)
    requires k in Keys(rows)
    ensures k in Keys(rows + [r])
    ensures r.postId == k ==> Expected(rows + [r], k, now, show) == AddChildren(Expected(rows, k, now, show), r, now)
    ensures r.postId != k ==> Expected(rows + [r], k, now, show) == Expected(rows, k, now, show)
  {
    var all := rows + [r];
    assert all[..|rows|] == rows;
    FirstIndexPrefix(all, |rows|, k);
    assert all[FirstIndex(all, k)] == rows[FirstIndex(rows, k)];
    assert PostletsOf(all, k, now) == PostletsOf(rows, k, now) + (if r.postId == k then NewPostlets(r, now) else []);
    assert CitationsOf(all, k) == CitationsOf(rows, k) + (if r.postId == k then NewCitations(r) else []);
  }

  /** One more row carrying a new id: its post is the row's shell holding
      only the row's own children. This is the step of the `getPosts` loop
      for a first sighting. */
  lemma ExpectedStepNew(rows: seq<Row>, r: Row, now: string, show: real -> string)
    requires r.postId !in Keys(rows)
    ensures r.postId in Keys(rows + [r])
    ensures Expected(rows + [r], r.postId, now, show) ==
      GetSparsePost(r, now, show).(postlets := NewPostlets(r, now), citations := NewCitations(r))
  {
    var all := rows + [r];
    assert all[..|rows|] == rows;
    KeysAreRowKeys(rows, r.postId);
    ChildrenExist(rows, r.postId, x => NewPostlets(x, now));
    ChildrenExist(rows, r.postId, NewCitations);
    assert PostletsOf(rows, r.postId, now) == [];
    assert CitationsOf(rows, r.postId) == [];
    assert PostletsOf(all, r.postId, now) == NewPostlets(r, now);
    assert CitationsOf(all, r.postId) == NewCitations(r);
    assert FirstIndex(all, r.postId) == |rows|;
  }

  /** The whole output after one more row with an id already seen at
      position `key`: the same posts, with only that one gaining the row's
      children. */
  lemma DenormalizeStepKnown(rows: seq<Row>, r: Row, key: nat, now: string, show: real -> string)
    requires key < |Keys(rows)| && Keys(rows)[key] == r.postId
    ensures Keys(rows + [r]) == Keys(rows)
    ensures Denormalize(rows + [r], now, show) ==
      Denormalize(rows, now, show)[key := AddChildren(Denormalize(rows, now, show)[key], r, now)]
  {
    var ks := Keys(rows);
    var all := rows + [r];
    assert all[..|rows|] == rows;
    assert Keys(all) == ks;
    KeysDistinct(rows);
    var d, d' := Denormalize(rows, now, show), Denormalize(all, now, show);
    forall a | 0 <= a < |ks|
      ensures d'[a] == d[key := AddChildren(d[key], r, now)][a]
    {
      ExpectedStepKnown(rows, r, ks[a], now, show);
    }
  }

  /** The whole output after one more row with a new id: the same posts,
      followed by that row's shell holding that row's children. */
  lemma DenormalizeStepNew(rows: seq<Row>, r: Row, now: string, show: real -> string)
    requires r.postId !in Keys(rows)
    ensures Keys(rows + [r]) == Keys(rows) + [r.postId]
    ensures Denormalize(rows + [r], now, show) ==
      Denormalize(rows, now, show) + [AddChildren(GetSparsePost(r, now, show), r, now)]
  {
    var ks := Keys(rows);
    var all := rows + [r];
    assert all[..|rows|] == rows;
    assert Keys(all) == ks + [r.postId];
    var d, d' := Denormalize(rows, now, show), Denormalize(all, now, show);
    forall a | 0 <= a < |ks| + 1
      ensures d'[a] == (d + [AddChildren(GetSparsePost(r, now, show), r, now)])[a]
    {
      if a < |ks| {
        ExpectedStepKnown(rows, r, ks[a], now, show);
      } else {
        ExpectedStepNew(rows, r, now, show);
      }
    }
  }

  // ---------------------------------------------------------------------
  // The loop's own state, one row at a time

  /** The state of the `getPosts` loop: the posts pushed so far and the
      `postsIndex` dictionary from post id to position in `posts`. */
  datatype Grouped = Grouped(posts: seq<Post>, index: map<Option<int>, nat>)

  /** Every position `postsIndex` records is a position in `posts`. */
  predicate WellIndexed(g: Grouped) {
    forall k :: k in g.index ==> g.index[k] < |g.posts|
  }

  /** One turn of the `getPosts` loop: a new id pushes a sparse post and
      records its position; every row, the first included, then appends
      its children to the post at its id's position. */
  function Step(g: Grouped, row: Row, now: string, show: real -> string): (g': Grouped)
    requires WellIndexed(g)
    ensures WellIndexed(g')
    ensures row.postId in g'.index && g.index.Keys <= g'.index.Keys
  {
    if row.postId !in g.index then
      Grouped(g.posts + [AddChildren(GetSparsePost(row, now, show), row, now)], g.index[row.postId := |g.posts|])
    else
      var key := g.index[row.postId];
      Grouped(g.posts[key := AddChildren(g.posts[key], row, now)], g.index)
  }

  /** The state of the `getPosts` loop after it has consumed the first `i`
      rows. */
  function Assemble(rows: seq<Row>, i: nat, now: string, show: real -> string): (g: Grouped)
    requires i <= |rows|
    ensures WellIndexed(g)
  {
    if i == 0 then Grouped([], map[])
    else Step(Assemble(rows, i - 1, now, show), rows[i - 1], now, show)
  }

  /** The loop computes the declarative grouping: after `i` rows its posts
      are `Denormalize` of those rows, and `postsIndex` maps exactly their
      distinct ids to the positions of their posts. */
  lemma {:induction false} AssembleIsDenormalize(rows: seq<Row>, i: nat, now: string, show: real -> string)
    requires i <= |rows|
    ensures Assemble(rows, i, now, show).posts == Denormalize(rows[..i], now, show)
    ensures forall k :: k in Assemble(rows, i, now, show).index <==> k in Keys(rows[..i])
    ensures forall k :: k in Assemble(rows, i, now, show).index ==>
      Keys(rows[..i])[Assemble(rows, i, now, show).index[k]] == k
  {
    if i > 0 {
      var init, row := rows[..i - 1], rows[i - 1];
      assert rows[..i] == init + [row];
      AssembleIsDenormalize(rows, i - 1, now, show);
      var g := Assemble(rows, i - 1, now, show);
      if row.postId !in g.index {
        DenormalizeStepNew(init, row, now, show);
      } else {
        DenormalizeStepKnown(init, row, g.index[row.postId], now, show);
      }
    }
  }
}
