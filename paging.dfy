/** The page arithmetic the controllers compute by hand for the video list,
    the suggestions and the watch history. */
module Paging {
  import opened Common
  import opened Seqs

  /** `Number(q) || d`: a missing, non-numeric or zero parameter falls back
      to `d`. */
  function ParamOr(q: Option<nat>, d: Pos): (r: Pos)
    ensures q.Some? && q.value != 0 ==> r == q.value
    ensures q.None? || q.value == 0 ==> r == d
  {
    if q.Some? && q.value != 0 then q.value else d
  }

  /** A destructuring default such as `page = 1`: it applies when the
      parameter is absent. */
  function OrDefault(q: Option<Pos>, d: Pos): (r: Pos)
    ensures q.Some? ==> r == q.value
    ensures q.None? ==> r == d
  {
    if q.Some? then q.value else d
  }

  /** `(page - 1) * limit`: the rows before the page. */
  function Skip(page: Pos, limit: Pos): nat {
    (page - 1) * limit
  }

  /** `Math.ceil(n / d)`: the number of pages of size `d` that hold `n` rows. */
  function CeilDiv(n: nat, d: Pos): (r: nat)
    ensures r * d >= n
    ensures r > 0 ==> (r - 1) * d < n
  {
    if n == 0 then 0
    else
      var q := (n - 1) / d;
      assert n - 1 == q * d + (n - 1) % d;
      assert (q + 1) * d == q * d + d;
      q + 1
  }

  datatype PageMeta = PageMeta(
    totalDocs: nat,
    limit: Pos,
    page: Pos,
    totalPages: nat,
    pagingCounter: nat,
    hasPrevPage: bool,
    hasNextPage: bool,
    prevPage: Option<nat>,
    nextPage: Option<nat>)

  /** The metadata the controllers attach to a page. `hasNextPage` is
      computed as `page * limit < total`; it says that a later page exists. */
  function Meta(total: nat, page: Pos, limit: Pos): (m: PageMeta)
    ensures m.totalDocs == total && m.page == page && m.limit == limit
    ensures m.totalPages == CeilDiv(total, limit)
    ensures m.pagingCounter == Skip(page, limit) + 1
    ensures m.hasPrevPage <==> page > 1
    ensures m.hasNextPage <==> page < m.totalPages
    ensures m.prevPage.None? <==> !m.hasPrevPage
    ensures m.nextPage.None? <==> !m.hasNextPage
    ensures m.prevPage.Some? ==> m.prevPage.value == page - 1
    ensures m.nextPage.Some? ==> m.nextPage.value == page + 1
  {
    var hasNext := page * limit < total;
    NextPageIffBeforeLast(total, page, limit);
    PageMeta(total, limit, page, CeilDiv(total, limit), (page - 1) * limit + 1,
             page > 1, hasNext,
             if page > 1 then Some(page - 1) else None,
             if hasNext then Some(page + 1) else None)
  }

  /** The metadata `mongoose-aggregate-paginate-v2` attaches to a page. It is
      `Meta` except that the page count is `Math.ceil(count / limit) || 1`,
      so an empty listing still reports one page. */
  function PluginMeta(total: nat, page: Pos, limit: Pos): (m: PageMeta)
    ensures total > 0 ==> m == Meta(total, page, limit)
    ensures total == 0 ==> m.totalPages == 1
    ensures m.totalDocs == total && m.page == page && m.limit == limit
    ensures m.pagingCounter == Skip(page, limit) + 1
    ensures m.hasPrevPage <==> page > 1
    ensures m.hasNextPage <==> page < m.totalPages
    ensures m.prevPage.None? <==> !m.hasPrevPage
    ensures m.nextPage.None? <==> !m.hasNextPage
  {
    var m := Meta(total, page, limit);
    if total == 0 then m.(totalPages := 1) else m
  }

  /** `page * limit < total` holds exactly when `page` is not the last page. */
  lemma NextPageIffBeforeLast(total: nat, page: Pos, limit: Pos)
    ensures page * limit < total <==> page < CeilDiv(total, limit)
  {
    var t := CeilDiv(total, limit);
    if page * limit < total {
      if page >= t {
        MulMono(t, page, limit);
      }
    } else if page < t {
      MulMono(page, t - 1, limit);
    }
  }

  /** From page 2 on, the skip is at least one whole page. */
  lemma LaterSkip(page: Pos, limit: Pos)
    requires page >= 2
    ensures Skip(page, limit) >= limit
  {
    MulMono(1, page - 1, limit);
  }

  lemma MulMono(a: nat, b: nat, c: nat)
    requires a <= b
    ensures a * c <= b * c
  {
  }

  lemma MulSucc(a: nat, b: nat)
    ensures (a + 1) * b == a * b + b
  {
  }

  /** Pages `first` to `first + count - 1` of `s`, concatenated. */
  function PagesFrom<T>(s: seq<T>, limit: Pos, first: Pos, count: nat): seq<T>
    decreases count
  {
    if count == 0 then []
    else Slice(s, Skip(first, limit), limit) + PagesFrom(s, limit, first + 1, count - 1)
  }

  /** Walking the pages 1 to `totalPages` returns every row once, in order. */
  lemma PagesCover<T>(s: seq<T>, limit: Pos)
    ensures PagesFrom(s, limit, 1, CeilDiv(|s|, limit)) == s
  {
    PagesFromRest(s, limit, 1, CeilDiv(|s|, limit));
  }

  lemma {:induction false} PagesFromRest<T>(s: seq<T>, limit: Pos, first: Pos, count: nat)
    requires (first - 1 + count) * limit >= |s|
    ensures PagesFrom(s, limit, first, count) == s[Min(Skip(first, limit), |s|)..]
    decreases count
  {
    if count > 0 {
      SkipNext(first, limit);
      var n := first - 1 + count;
      assert first + 1 - 1 + (count - 1) == n;
      PagesFromRest(s, limit, first + 1, count - 1);
      SliceSplit(s, Skip(first, limit), limit);
    }
  }

  /** The next page starts one page further on. */
  lemma SkipNext(page: Pos, limit: Pos)
    ensures Skip(page + 1, limit) == Skip(page, limit) + limit
  {
    MulSucc(page - 1, limit);
  }

  /** A window followed by everything after it is everything from its start. */
  lemma SliceSplit<T>(s: seq<T>, skip: nat, limit: nat)
    ensures Slice(s, skip, limit) + s[Min(skip + limit, |s|)..] == s[Min(skip, |s|)..]
  {
    var lo, hi := Min(skip, |s|), Min(skip + limit, |s|);
    assert Slice(s, skip, limit) == s[lo..hi];
    assert s[lo..hi] + s[hi..] == s[lo..];
  }
}
