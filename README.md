# Post denormaliser of the travel-log server

The server reads its posts with one query: `post LEFT JOIN postlet LEFT JOIN
citation`. The result is a flat list of rows, and each row repeats the
post's columns next to at most one postlet and at most one citation. The
denormaliser in `server.js` folds these rows back into nested post objects.

- `getSparsePost` builds the shell of a post from one row. Each scalar
  column is defaulted by JavaScript's `||`.
- `buildPost` pushes the row's postlet and citation, when present, onto an
  existing post object, in place.
- The loop in `getPosts` makes one pass over the rows. The `postsIndex`
  dictionary maps a post id to the post's position in `posts`. A new id
  pushes a sparse post, and every row merges its children into the post at
  its id's position.

The model has four modules:

- `JsValues` (`js_values.dfy`): SQL NULL as `None`, and JavaScript
  truthiness per column type. An integer is falsy when 0, a string when
  empty, a number when 0.
- `Posts` (`posts.dfy`): the row, post, postlet and citation values. It
  holds `GetSparsePost` and the children one row adds (`NewPostlets`,
  `NewCitations`, `AddChildren`).
- `Grouping` (`grouping.dfy`): what the loop computes, stated on the whole
  row list.
  - `Denormalize` is defined from `Keys`, `FirstIndex` and `ChildrenOf`.
    `Keys` lists the distinct ids in order of first appearance. `FirstIndex`
    gives the row a post's fields come from. `ChildrenOf` gives the rows'
    children per id.
  - `Assemble` replays the loop's state one row at a time.
  - `AssembleIsDenormalize` proves that the two agree.
- `Server` (`server.dfy`): the imperative code.
  - `PostObject` is the mutable post object on the heap.
  - `BuildPost` mutates a `PostObject` in place.
  - `TakeRow` is one turn of the loop.
  - `GetPosts` runs the loop over a sequence of `PostObject`s and a
    `map` from id to position. It is proved to return fresh, distinct
    objects holding exactly `Denormalize(rows)`.

The current time (`moment().format(...)`) is a parameter `now`.
JavaScript's conversion of a number to a string, used for `latlng`, is a
parameter `show`. The rows are a parameter, not the result of a query.

Four things the code does that a reader may not expect:

- `lat` and `lng` are defaulted independently (server.js:35-36). A post can
  have one without the other. Only `latlng` is both-or-neither.
- A row whose post id has not been seen before always starts a new post
  (server.js:79-82). It is never treated as an error.
- Children are not deduplicated. Every qualifying row adds one child
  (server.js:46-61).
- The dictionary key is the raw `post_id`. JavaScript turns it into the
  property name `"null"` for NULL and `"0"` for 0. So a NULL id and a 0 id
  form two separate posts, and both have `id` 0.

## Model

| member | source | states |
|---|---|---|
| Posts.GetSparsePost | server.js:27-43 | a sparse post always starts with no postlets and no citations, whatever the row holds |
| Posts.SparsePostDefaults | server.js:29-39 | NULL `post_id`, `title`, `subtitle`, `post` and `author` become 0 or ''; otherwise the value is copied. An empty or NULL `type` becomes 'essay'. An empty or NULL date becomes the current time |
| Posts.SparsePostCoordinates | server.js:35-37 | `lat` (and separately `lng`) is kept exactly when it is a non-zero number, else null; `latlng` is non-null iff both are kept, and is then `lat + ', ' + lng` |
| Posts.NewPostlets | server.js:46-54 | a row adds exactly one postlet when its `postlet_id` is truthy and none otherwise; that postlet carries the row's non-zero `postlet_id` |
| Posts.NewPostletFields | server.js:47-53 | the added postlet's date defaults to the current time, its `lat`/`lng` are kept only when non-zero, and its text defaults to '' |
| Posts.NewCitations | server.js:56-61 | a row adds exactly one citation when its `cite_id` is truthy and none otherwise; it carries the row's `cite_id` and the citation text unchanged, NULL included |
| Grouping.Keys | server.js:79-82 | the grouped ids are never more than the rows |
| Grouping.FirstIndex | server.js:79-82 | the row a post's shell comes from carries its id, and no earlier row does |
| Grouping.KeysAreRowKeys | server.js:76-82 | an id is grouped iff some row carries it |
| Grouping.KeysDistinct | server.js:79-81 | no id gets two posts |
| Grouping.KeysInFirstAppearanceOrder | server.js:80-82 | posts are ordered by the first appearance of their ids in the rows |
| Grouping.KeysPrefix | server.js:76-82 | later rows never reorder or remove a post; they only add posts at the end |
| Grouping.FirstIndexPrefix | server.js:79-85 | later rows never change which row a post's shell comes from |
| Grouping.ChildrenConcat | server.js:76-88 | the children of two batches of rows are those of the first batch followed by those of the second |
| Grouping.ChildrenAt | server.js:76-88 | each row puts its own children, and only those, at its own place in its post's children: row order, no deduplication |
| Grouping.ChildrenExist | server.js:76-88 | a post has a child iff some row with its id contributes one; no phantom children from outer-join NULLs, none dropped |
| Grouping.ChildrenPrefix | server.js:87 | children are only ever appended |
| Grouping.DenormalizeExtends | server.js:76-88 | more rows leave every existing post's scalar fields unchanged and only extend its children |
| Grouping.ExpectedStepKnown | server.js:83-87 | a row with an already-seen id leaves that post's shell alone and appends the row's children; other posts are unchanged |
| Grouping.ExpectedStepNew | server.js:79-82 | a row with a new id yields that row's shell holding only that row's children |
| Grouping.DenormalizeStepKnown | server.js:83-87 | after a row with an id seen at position `key`, the output is the same list with only the post at `key` gaining the row's children |
| Grouping.DenormalizeStepNew | server.js:79-82 | after a row with a new id, the output is the old list followed by that row's shell with its children, and the id is appended to the keys |
| Grouping.Step | server.js:77-87 | one loop turn keeps every index entry a valid position, records the row's id and forgets no id |
| Grouping.Assemble | server.js:76-89 | the loop state after any number of rows has every index entry pointing into `posts` |
| Grouping.AssembleIsDenormalize | server.js:76-89 | after `i` rows the pushed posts are `Denormalize` of those rows; `postsIndex` holds exactly their distinct ids, and `postsIndex[id]` is the position of that id's post |
| Server.PostObject.constructor | server.js:28-42 | a new post object holds the given post |
| Server.BuildPost | server.js:45-64 | the object's scalar fields are unchanged; its postlets and citations are the old ones followed by the row's new ones; it returns the same object |
| Server.TakeRow | server.js:77-87 | turn `i` of the loop on the heap objects takes the state `Assemble` gives after `i` rows to the one after `i + 1`; the objects stay distinct; the reused ones are the old ones, and any new one is fresh |
| Server.GetPosts | server.js:66-90 | returns one fresh, distinct post object per distinct `post_id`, in order of first appearance, each holding exactly the post `Denormalize` gives (shell from the first row, all children in row order) |

## Left out

- The SQL query and its execution (server.js:70-75) are outside the model, and the rows are a parameter. How `SELECT *` resolves column names that the joined tables share is left to the database library. The model reads each such name once for both the post and the postlet.
- `getPost` (server.js:92-106) is not modelled. It reads `row` before any assignment, and its query is missing a keyword before the ordering clause, so it has no behaviour to model.
- The commented-out asynchronous `buildPost` (server.js:119-192) is dead code.
- `postKey` (server.js:80, 84) is assigned without a declaration, so the code writes it as a global variable. The model keeps it as a local of `TakeRow` and drops the write to the global, which nothing reads.
- `moment().format(...)` (server.js:33-34, 49) becomes the parameter `now`. The model therefore uses one timestamp for every default, while the code may read the clock again on each call.
- The conversion of numbers to strings in `lat + ', ' + lng` (server.js:37) becomes the parameter `show`. NaN and negative zero, which JavaScript treats as falsy, have no counterpart among the model's real numbers.
- Columns are modelled by their declared type: integer, text or real. A column holding a value of another type, which SQLite allows, has a JavaScript truthiness that the model does not capture.
- The Express routes, middleware, configuration and `listen` (server.js:1-25, 195-216) are framework glue. `public/projects/cat-model/fetch-data.php` is not part of this model.
