# Blog list aggregation helpers

This project models the aggregation module of a small blog-post service:
three stateless functions over a sequence of blog records, found in
`utils/list_helper.js`.

- `dummy` is a scaffold that always returns 1.
- `totalLikes` sums the `likes` of the records with `reduce`, seeded with 0.
- `favoriteBlog` returns `null` on an empty sequence. Otherwise it runs an
  unseeded `reduce`: the first record is the starting accumulator, and a
  record replaces the accumulator only when it has strictly more likes.
  So among tied maxima the earliest record wins.

A blog is the datatype `ListHelper.Blog` with `title`, `author`, `url` and an
integer `likes`. Only `likes` is used; the other fields are carried along.
`null` is `Wrappers.Option.None`. Both reductions are written as left folds
with an accumulator (`SumFrom`, `KeepMaxFrom`), which is what
`Array.prototype.reduce` does. Lemmas tie each fold to a separate reference
definition: `SumLikes` (a sum taken element by element) for `totalLikes`, and
`MaxLikes` with `FirstMaxIndex` (a search for the first record with the
largest `likes`) for `favoriteBlog`.

All definitions are in `list_helper.dfy`.

## Model

| member | source | states |
|---|---|---|
| `ListHelper.Dummy` | utils/list_helper.js:1-3 | returns 1 for every input sequence, the empty one included |
| `ListHelper.TotalLikes` | utils/list_helper.js:10 | the total of the empty sequence is 0, because the fold is seeded with 0 |
| `ListHelper.SumFromIsSeedPlusSum` | utils/list_helper.js:6-10 | folding the sum reducer from any seed gives the seed plus the sum of all `likes` |
| `ListHelper.TotalLikesIsSum` | utils/list_helper.js:5-11 | `totalLikes` equals the element-by-element sum of the `likes` fields |
| `ListHelper.SumFromAppend` | utils/list_helper.js:6-10 | folding over `a + b` is folding over `b` from the partial result of `a`: the records are visited in order |
| `ListHelper.TotalLikesAppend` | utils/list_helper.js:6-10 | `totalLikes(a + b) == totalLikes(a) + totalLikes(b)` |
| `ListHelper.SumLikesBounds` | utils/list_helper.js:5-11 | when all `likes` are non-negative, the sum is non-negative and at least the `likes` of every record |
| `ListHelper.TotalLikesBounds` | utils/list_helper.js:5-11 | when all `likes` are non-negative, `totalLikes` is non-negative and no record's `likes` exceeds it |
| `ListHelper.KeepMaxFrom` | utils/list_helper.js:15-19 | the max-by-likes fold ends on its seed or on a record of the sequence, with `likes` at least the seed's and at least every record's |
| `ListHelper.FavoriteBlog` | utils/list_helper.js:13-20 | absent exactly when the input is empty; otherwise an element of the input whose `likes` is at least every element's; for one record, exactly that record |
| `ListHelper.MaxLikes` | utils/list_helper.js:13-20 | reference maximum: at least every record's `likes` and attained by some record |
| `ListHelper.FirstMaxIndex` | utils/list_helper.js:16-18 | reference index: the first index whose record has the maximum `likes` |
| `ListHelper.KeepMaxFromIsFirstMax` | utils/list_helper.js:15-19 | the fold from `acc` over `rest` ends on the first maximum of `[acc] + rest`, because ties keep the accumulator |
| `ListHelper.FavoriteBlogFirstMax` | utils/list_helper.js:15-19 | tie-breaking: if index `k` is the first to attain the maximum `likes`, `favoriteBlog` returns the record at `k` |
| `ListHelper.FavoriteBlogIsFirstMaxIndex` | utils/list_helper.js:13-20 | on a non-empty input `favoriteBlog` returns the record at the reference first-maximum index, and its `likes` is the reference maximum |

## Left out

- JavaScript number semantics for `likes` (floating point, `NaN`, a missing field that turns the sum into `NaN`): `likes` is a mathematical integer here, and every record has one.
- The application wiring in `app.js` (Express setup, CORS, JSON parsing, middleware registration, the MongoDB connection): framework and I/O plumbing with no logic to state.
- The integration tests in `tests/blog_api.test.js`: they reset a live MongoDB collection and send HTTP requests.
- The blog REST resource (router, model, validation, error handler): that code is not part of this model.
