/** Option stands for a value that may be absent; `None` plays the part of
    JavaScript's `null`. */
module Wrappers {
  datatype Option<+T> = None | Some(value: T)
}

/** The aggregation helpers over an in-memory sequence of blog records:
    `dummy`, `totalLikes` and `favoriteBlog`. Each of the two reductions is
    modelled as the left fold that `Array.prototype.reduce` performs, and is
    related by lemmas to an independent reference definition. */
module ListHelper {
  import opened Wrappers

  /** A blog record. Only `likes` takes part in the aggregation; the other
      fields are carried along unchanged. */
  datatype Blog = Blog(title: string, author: string, url: string, likes: int)

  // ---------------------------------------------------------------------
  // dummy
  // ---------------------------------------------------------------------

  /** The scaffold aggregate: 1 for every input, the empty one included. */
  function Dummy(blogs: seq<Blog>): (r: int)
    ensures r == 1
  {
    1
  }

  // ---------------------------------------------------------------------
  // totalLikes
  // ---------------------------------------------------------------------

  /** The reducer `(sum, blog) => sum + blog.likes`. */
  function AddLikes(sum: int, blog: Blog): int
  {
    sum + blog.likes
  }

  /** `blogs.reduce(AddLikes, acc)`: a left fold seeded with `acc`. */
  function SumFrom(acc: int, blogs: seq<Blog>): int
    decreases |blogs|
  {
    if blogs == [] then acc else SumFrom(AddLikes(acc, blogs[0]), blogs[1..])
  }

  /** `totalLikes`: the fold seeded with 0. */
  function TotalLikes(blogs: seq<Blog>): (r: int)
    ensures blogs == [] ==> r == 0
  {
    SumFrom(0, blogs)
  }

  /** Reference definition: the sum of the `likes` fields, element by element. */
  function SumLikes(blogs: seq<Blog>): int
  {
    if blogs == [] then 0 else blogs[0].likes + SumLikes(blogs[1..])
  }

  /** The left fold adds the whole sum to its seed. */
  lemma {:induction false} SumFromIsSeedPlusSum(acc: int, blogs: seq<Blog>)
    ensures SumFrom(acc, blogs) == acc + SumLikes(blogs)
    decreases |blogs|
  {
    if blogs != [] {
      SumFromIsSeedPlusSum(acc + blogs[0].likes, blogs[1..]);
    }
  }

  /** `totalLikes` is the sum of the `likes` of all the records. */
  lemma TotalLikesIsSum(blogs: seq<Blog>)
    ensures TotalLikes(blogs) == SumLikes(blogs)
  {
    SumFromIsSeedPlusSum(0, blogs);
  }

  /** Folding over a concatenation folds the second part from the partial
      result of the first: the reduction visits the records in order. */
  lemma {:induction false} SumFromAppend(acc: int, a: seq<Blog>, b: seq<Blog>)
    ensures SumFrom(acc, a + b) == SumFrom(SumFrom(acc, a), b)
    decreases |a|
  {
    if a == [] {
      assert a + b == b;
    } else {
      assert (a + b)[0] == a[0];
      assert (a + b)[1..] == a[1..] + b;
      SumFromAppend(acc + a[0].likes, a[1..], b);
    }
  }

  /** `totalLikes` is additive over concatenation. */
  lemma TotalLikesAppend(a: seq<Blog>, b: seq<Blog>)
    ensures TotalLikes(a + b) == TotalLikes(a) + TotalLikes(b)
  {
    SumFromAppend(0, a, b);
    SumFromIsSeedPlusSum(SumFrom(0, a), b);
    SumFromIsSeedPlusSum(0, b);
  }

  /** With non-negative `likes`, as every stored record has, the total is
      non-negative and no single record exceeds it. */
  lemma {:induction false} SumLikesBounds(blogs: seq<Blog>)
    requires forall i :: 0 <= i < |blogs| ==> blogs[i].likes >= 0
    ensures SumLikes(blogs) >= 0
    ensures forall i :: 0 <= i < |blogs| ==> blogs[i].likes <= SumLikes(blogs)
  {
    if blogs != [] {
      SumLikesBounds(blogs[1..]);
      forall i | 0 <= i < |blogs| ensures blogs[i].likes <= SumLikes(blogs) {
        if i > 0 {
          assert blogs[1..][i - 1] == blogs[i];
        }
      }
    }
  }

  lemma TotalLikesBounds(blogs: seq<Blog>)
    requires forall i :: 0 <= i < |blogs| ==> blogs[i].likes >= 0
    ensures TotalLikes(blogs) >= 0
    ensures forall i :: 0 <= i < |blogs| ==> blogs[i].likes <= TotalLikes(blogs)
  {
    TotalLikesIsSum(blogs);
    SumLikesBounds(blogs);
  }

  // ---------------------------------------------------------------------
  // favoriteBlog
  // ---------------------------------------------------------------------

  /** The reducer `(maxBlog, curBlog) => curBlog.likes > maxBlog.likes ?
      curBlog : maxBlog`; the strict comparison keeps the earlier record on
      a tie. */
  function KeepMax(maxBlog: Blog, curBlog: Blog): Blog
  {
    if curBlog.likes > maxBlog.likes then curBlog else maxBlog
  }

  /** The left fold of KeepMax over `rest`, starting from `acc`. */
  function KeepMaxFrom(acc: Blog, rest: seq<Blog>): (r: Blog)
    ensures r == acc || r in rest
    ensures acc.likes <= r.likes
    ensures forall i :: 0 <= i < |rest| ==> rest[i].likes <= r.likes
    decreases |rest|
  {
    if rest == [] then acc else KeepMaxFrom(KeepMax(acc, rest[0]), rest[1..])
  }

  /** `favoriteBlog`: `None` on the empty sequence; otherwise the unseeded
      reduce, which takes the first record as its initial accumulator and
      folds over the others. */
  function FavoriteBlog(blogs: seq<Blog>): (r: Option<Blog>)
    ensures r.None? <==> blogs == []
    ensures r.Some? ==> r.value in blogs
    ensures r.Some? ==> forall i :: 0 <= i < |blogs| ==> blogs[i].likes <= r.value.likes
    ensures |blogs| == 1 ==> r == Some(blogs[0])
  {
    if |blogs| > 0 then Some(KeepMaxFrom(blogs[0], blogs[1..])) else None
  }

  /** Index `k` holds the first record whose `likes` is the maximum. */
  predicate IsFirstMax(blogs: seq<Blog>, k: int)
  {
    && 0 <= k < |blogs|
    && (forall j :: 0 <= j < |blogs| ==> blogs[j].likes <= blogs[k].likes)
    && (forall j :: 0 <= j < k ==> blogs[j].likes < blogs[k].likes)
  }

  /** Reference definition: the largest `likes` value of a non-empty sequence. */
  function MaxLikes(blogs: seq<Blog>): (m: int)
    requires blogs != []
    ensures forall i :: 0 <= i < |blogs| ==> blogs[i].likes <= m
    ensures exists i :: 0 <= i < |blogs| && blogs[i].likes == m
    decreases |blogs|
  {
    if |blogs| == 1 then blogs[0].likes
    else
      var m := MaxLikes(blogs[1..]);
      if blogs[0].likes >= m then blogs[0].likes
      else
        ghost var i :| 0 <= i < |blogs[1..]| && blogs[1..][i].likes == m;
        assert blogs[i + 1].likes == m;
        m
  }

  /** Reference definition: the first index whose `likes` equals MaxLikes,
      found by a search from the front. */
  function FirstMaxIndex(blogs: seq<Blog>): (k: nat)
    requires blogs != []
    ensures IsFirstMax(blogs, k)
    decreases |blogs|
  {
    if blogs[0].likes == MaxLikes(blogs) then 0
    else
      var k' := FirstMaxIndex(blogs[1..]);
      assert MaxLikes(blogs) == MaxLikes(blogs[1..]);
      assert blogs[1..][k'].likes == MaxLikes(blogs[1..]);
      assert forall j :: 1 <= j < |blogs| ==> blogs[j] == blogs[1..][j - 1];
      k' + 1
  }

  /** The fold from `acc` over `rest` ends on the first maximum of
      `[acc] + rest`. */
  lemma {:induction false} KeepMaxFromIsFirstMax(acc: Blog, rest: seq<Blog>, k: int)
    requires IsFirstMax([acc] + rest, k)
    ensures KeepMaxFrom(acc, rest) == ([acc] + rest)[k]
    decreases |rest|
  {
    var s := [acc] + rest;
    if rest == [] {
      assert k == 0;
    } else {
      var c := rest[0];
      assert s[0] == acc && s[1] == c;
      if c.likes > acc.likes {
        assert k != 0;
        assert [c] + rest[1..] == rest;
        assert forall j :: 0 <= j < |rest| ==> rest[j] == s[j + 1];
        assert IsFirstMax(rest, k - 1);
        KeepMaxFromIsFirstMax(c, rest[1..], k - 1);
      } else {
        var t := [acc] + rest[1..];
        assert forall j :: 1 <= j < |t| ==> t[j] == s[j + 1];
        if k == 0 {
          assert IsFirstMax(t, 0);
          KeepMaxFromIsFirstMax(acc, rest[1..], 0);
        } else {
          assert k != 1;
          assert t[0] == s[0] && t[k - 1] == s[k];
          assert IsFirstMax(t, k - 1);
          KeepMaxFromIsFirstMax(acc, rest[1..], k - 1);
        }
      }
    }
  }

  /** Tie-breaking: whenever `k` is the first index attaining the maximum,
      `favoriteBlog` returns the record at `k`. */
  lemma FavoriteBlogFirstMax(blogs: seq<Blog>, k: int)
    requires IsFirstMax(blogs, k)
    ensures FavoriteBlog(blogs) == Some(blogs[k])
  {
    assert [blogs[0]] + blogs[1..] == blogs;
    KeepMaxFromIsFirstMax(blogs[0], blogs[1..], k);
  }

  /** `favoriteBlog` of a non-empty sequence is the record at the reference
      first-maximum index, and its `likes` is the reference maximum. */
  lemma FavoriteBlogIsFirstMaxIndex(blogs: seq<Blog>)
    requires blogs != []
    ensures FavoriteBlog(blogs) == Some(blogs[FirstMaxIndex(blogs)])
    ensures FavoriteBlog(blogs).value.likes == MaxLikes(blogs)
  {
    FavoriteBlogFirstMax(blogs, FirstMaxIndex(blogs));
  }
}
