/** The flat join rows that the post query returns, the nested post objects
    rebuilt from them, and the two pure steps of that rebuilding: the post
    shell made from one row (`getSparsePost` in server.js) and the at most one
    postlet and at most one citation that a row contributes (the two `push`
    calls of `buildPost`). */
module Posts {
  import opened JsValues

  /** One row of `post LEFT JOIN postlet LEFT JOIN citation`, with one value
      per column name as the assembler reads it (`row.post_id`, `row.title`,
      ...). The postlet's own columns share the names `date_added`, `lat`,
      `lng` and `post` with the post's; the assembler reads the same value
      for both. */
  datatype Row = Row(
    postId: Option<int>,          // post_id
    title: Option<string>,
    subtitle: Option<string>,
    postType: Option<string>,     // type
    dateAdded: Option<string>,    // date_added
    dateUpdated: Option<string>,  // date_updated
    lat: Option<real>,
    lng: Option<real>,
    post: Option<string>,         // the body text
    author: Option<string>,
    postletId: Option<int>,       // postlet_id, NULL when the outer join found no postlet
    citeId: Option<int>,          // cite_id, NULL when the outer join found no citation
    citation: Option<string>)     // the citation text

  /** A travel-log sub-entry of a post. */
  datatype Postlet = Postlet(id: int, dateAdded: string, lat: Option<real>, lng: Option<real>, post: string)

  /** A reference attached to a post; its text is copied from the row as is, NULL included. */
  datatype Citation = Citation(id: int, citation: Option<string>)

  /** The post object the assembler produces. */
  datatype Post = Post(
    id: int,
    title: string,
    subtitle: string,
    postType: string,
    dateAdded: string,
    dateUpdated: string,
    lat: Option<real>,
    lng: Option<real>,
    latlng: Option<string>,
    post: string,
    author: string,
    postlets: seq<Postlet>,
    citations: seq<Citation>)

  /** The shell of a post built from one row (server.js `getSparsePost`).
      `now` stands for the current time the source formats when a date is
      missing; `show` for JavaScript's conversion of a number to a string,
      used when `lat + ', ' + lng` is built. What each field defaults to is
      stated by `SparsePostDefaults` and `SparsePostCoordinates`. */
  function GetSparsePost(row: Row, now: string, show: real -> string): (p: Post)
    // the object starts with no children, whatever the row holds
    ensures p.postlets == [] && p.citations == []
  {
    Post(
      id := IntOr(row.postId, 0),
      title := TextOr(row.title, ""),
      subtitle := TextOr(row.subtitle, ""),
      postType := TextOr(row.postType, "essay"),
      dateAdded := TextOr(row.dateAdded, now),
      dateUpdated := TextOr(row.dateUpdated, now),
      lat := RealOrNull(row.lat),
      lng := RealOrNull(row.lng),
      latlng := if RealTruthy(row.lat) && RealTruthy(row.lng)
                then Some(show(row.lat.value) + ", " + show(row.lng.value))
                else None,
      post := TextOr(row.post, ""),
      author := TextOr(row.author, ""),
      postlets := [],
      citations := [])
  }

  /** The scalar fields of a sparse post. `|| 0` and `|| ''` only replace
      NULL, since a 0 id or an empty string is falsy but already equal to
      its default; an empty or missing type is an essay, and an empty or
      missing date is the current time. */
  lemma SparsePostDefaults(row: Row, now: string, show: real -> string)
    ensures var p := GetSparsePost(row, now, show);
      && p.id == (if row.postId.Some? then row.postId.value else 0)
      && p.title == (if row.title.Some? then row.title.value else "")
      && p.subtitle == (if row.subtitle.Some? then row.subtitle.value else "")
      && p.post == (if row.post.Some? then row.post.value else "")
      && p.author == (if row.author.Some? then row.author.value else "")
      && p.postType == (if TextTruthy(row.postType) then row.postType.value else "essay")
      && p.dateAdded == (if TextTruthy(row.dateAdded) then row.dateAdded.value else now)
      && p.dateUpdated == (if TextTruthy(row.dateUpdated) then row.dateUpdated.value else now)
  {
  }

  /** The coordinates of a sparse post: each of `lat` and `lng` is kept
      when it is a non-zero number, independently of the other, so a post
      can have one without the other; only the combined `latlng` string is
      both-or-neither. */
  lemma SparsePostCoordinates(row: Row, now: string, show: real -> string)
    ensures var p := GetSparsePost(row, now, show);
      && (p.lat.Some? <==> RealTruthy(row.lat)) && (p.lat.Some? ==> p.lat == row.lat)
      && (p.lng.Some? <==> RealTruthy(row.lng)) && (p.lng.Some? ==> p.lng == row.lng)
      && (p.latlng.Some? <==> p.lat.Some? && p.lng.Some?)
      && (p.latlng.Some? ==> p.latlng.value == show(row.lat.value) + ", " + show(row.lng.value))
  {
  }

  /** The postlets one row adds to its post in `buildPost`: one when the row
      carries a postlet id, none otherwise (an outer-join NULL or 0). */
  function NewPostlets(row: Row, now: string): (ps: seq<Postlet>)
    ensures |ps| == (if IntTruthy(row.postletId) then 1 else 0)
    ensures forall q <- ps :: q.id == row.postletId.value && q.id != 0
  {
    if IntTruthy(row.postletId) then
      [Postlet(row.postletId.value, TextOr(row.dateAdded, now), RealOrNull(row.lat), RealOrNull(row.lng), TextOr(row.post, ""))]
    else
      []
  }

  /** The fields of the postlet a row adds. They are read from the same
      `date_added`, `lat`, `lng` and `post` values as the post's own, with
      the same defaults: the current time, null, null and ''. */
  lemma NewPostletFields(row: Row, now: string)
    requires IntTruthy(row.postletId)
    ensures var q := NewPostlets(row, now)[0];
      && q.dateAdded == (if TextTruthy(row.dateAdded) then row.dateAdded.value else now)
      && (q.lat.Some? <==> RealTruthy(row.lat)) && (q.lat.Some? ==> q.lat == row.lat)
      && (q.lng.Some? <==> RealTruthy(row.lng)) && (q.lng.Some? ==> q.lng == row.lng)
      && q.post == (if row.post.Some? then row.post.value else "")
  {
  }

  /** The citations one row adds to its post in `buildPost`: one when the row
      carries a citation id, none otherwise. */
  function NewCitations(row: Row): (cs: seq<Citation>)
    ensures |cs| == (if IntTruthy(row.citeId) then 1 else 0)
    ensures forall c <- cs :: c.id == row.citeId.value && c.id != 0 && c.citation == row.citation
  {
    if IntTruthy(row.citeId) then [Citation(row.citeId.value, row.citation)] else []
  }

  /** The post once one row's children are appended to it, as `buildPost`
      leaves it. */
  function AddChildren(p: Post, row: Row, now: string): Post {
    p.(postlets := p.postlets + NewPostlets(row, now), citations := p.citations + NewCitations(row))
  }
}
