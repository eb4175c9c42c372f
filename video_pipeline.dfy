/** The video aggregations of the listing endpoints as data: the stages a
    controller pushes, how each stage transforms the rows, the count pipeline
    cut at the first `$match`, and the page a controller returns. */
module VideoPipeline {
  import opened Common
  import opened Entities
  import opened Seqs
  import opened Ordering
  import opened Paging

  /** A document flowing through a video aggregation: the video under its key,
      and the owner card once `$lookup` has joined it (absent before the
      lookup, or when the owner is gone). */
  datatype Row = Row(id: Id, video: Video, owner: Option<OwnerCard>)

  /** The video fields a `sortBy` parameter can name. `Unstored` stands for
      any other name: a field the model does not keep, or no field at all. */
  datatype SortField =
    | ById | ByOwner | ByTitle | ByDescription | ByDuration | ByViews
    | ByCreatedAt | ByUpdatedAt | Unstored

  function ParseSortField(name: string): SortField {
    if name == "_id" then ById
    else if name == "owner" then ByOwner
    else if name == "title" then ByTitle
    else if name == "description" then ByDescription
    else if name == "duration" then ByDuration
    else if name == "views" then ByViews
    else if name == "createdAt" then ByCreatedAt
    else if name == "updatedAt" then ByUpdatedAt
    else Unstored
  }

  /** The value a `$sort` compares: a missing field sorts before numbers,
      numbers before strings. */
  datatype SortKey = Missing | Num(n: int) | Text(s: string)

  predicate KeyLe(a: SortKey, b: SortKey) {
    if a.Missing? then true
    else if b.Missing? then false
    else if a.Num? && b.Num? then a.n <= b.n
    else if a.Num? then true
    else if b.Num? then false
    else StrLe(a.s, b.s)
  }

  function KeyOf(f: SortField, r: Row): SortKey {
    match f
    case ById => Num(r.id)
    case ByOwner => Num(r.video.owner)
    case ByTitle => Text(r.video.title)
    case ByDescription => Text(r.video.description)
    case ByDuration => Num(r.video.duration)
    case ByViews => Num(r.video.views)
    case ByCreatedAt => Num(r.video.createdAt)
    case ByUpdatedAt => Num(r.video.updatedAt)
    case Unstored => Missing
  }

  /** A `$sort` specification: one field in either direction, or
      `{views: -1, createdAt: -1}`. */
  datatype Order = ByField(field: SortField, descending: bool) | PopularFirst

  /** `a` may come before `b` under `order`. */
  predicate RowLe(order: Order, a: Row, b: Row) {
    match order
    case ByField(f, desc) => if desc then KeyLe(KeyOf(f, b), KeyOf(f, a)) else KeyLe(KeyOf(f, a), KeyOf(f, b))
    case PopularFirst =>
      a.video.views > b.video.views
      || (a.video.views == b.video.views && a.video.createdAt >= b.video.createdAt)
  }

  lemma KeyLeTotal(a: SortKey, b: SortKey)
    ensures KeyLe(a, b) || KeyLe(b, a)
  {
    if a.Text? && b.Text? {
      StrLeTotal(a.s, b.s);
    }
  }

  lemma KeyLeTransitive(a: SortKey, b: SortKey, c: SortKey)
    requires KeyLe(a, b) && KeyLe(b, c)
    ensures KeyLe(a, c)
  {
    if a.Text? && b.Text? && c.Text? {
      StrLeTransitive(a.s, b.s, c.s);
    }
  }

  /** Every sort order of a listing is a total preorder, so the sorted stage
      is sorted. */
  lemma RowLeIsTotalPreorder(order: Order)
    ensures TotalPreorder((a: Row, b: Row) => RowLe(order, a, b))
  {
    if order.ByField? {
      var f := order.field;
      forall a: Row, b: Row
        ensures RowLe(order, a, b) || RowLe(order, b, a)
      {
        KeyLeTotal(KeyOf(f, a), KeyOf(f, b));
      }
      forall a: Row, b: Row, c: Row | RowLe(order, a, b) && RowLe(order, b, c)
        ensures RowLe(order, a, c)
      {
        if order.descending {
          KeyLeTransitive(KeyOf(f, c), KeyOf(f, b), KeyOf(f, a));
        } else {
          KeyLeTransitive(KeyOf(f, a), KeyOf(f, b), KeyOf(f, c));
        }
      }
    }
  }

  /** The comparator of `order`, as a `$sort` stage applies it. */
  function Le(order: Order): (Row, Row) -> bool {
    (a: Row, b: Row) => RowLe(order, a, b)
  }

  /** The stages the listing endpoints push. `TextSearch` stands for Atlas
      `$search`, whose hits are given; it is always the first stage. */
  datatype Stage =
    | TextSearch(hits: seq<Id>)
    | MatchPublic
    | MatchOwner(owner: Id)
    | MatchSuggestion(target: Id, owner: Id)
    | SortStage(order: Order)
    | LookupOwner
    | Unwind
    | SkipStage(n: nat)
    | LimitStage(n: nat)

  /** The stage's first key is `$match`. */
  predicate IsMatch(st: Stage) {
    st.MatchPublic? || st.MatchOwner? || st.MatchSuggestion?
  }

  /** `{isPublic: true, isNSFW: false}`. */
  predicate Visible(v: Video) {
    v.isPublic && !v.isNSFW
  }

  /** `$unwind` of the owner keeps the rows whose lookup found the owner. */
  predicate HasOwner(r: Row) {
    r.owner.Some?
  }

  /** The row of a video as the collection stores it. */
  ghost predicate Stored(videos: map<Id, Video>, r: Row) {
    r.id in videos && r.video == videos[r.id]
  }

  /** The owner card, when present, is the one `$lookup` joins for the video. */
  ghost predicate Joined(users: map<Id, User>, r: Row) {
    r.owner.Some? ==> r.video.owner in users && r.owner.value == CardOf(r.video.owner, users[r.video.owner])
  }

  function RowsOf(videos: map<Id, Video>, ks: seq<Id>): (r: seq<Row>)
    requires forall i :: 0 <= i < |ks| ==> ks[i] in videos
    ensures |r| == |ks|
    ensures forall i :: 0 <= i < |ks| ==> r[i] == Row(ks[i], videos[ks[i]], None)
  {
    if ks == [] then [] else [Row(ks[0], videos[ks[0]], None)] + RowsOf(videos, ks[1..])
  }

  /** The collection in scan order: the input of a pipeline. */
  function AllRows(videos: map<Id, Video>): (r: seq<Row>)
    ensures |r| == |videos|
    ensures forall i :: 0 <= i < |r| ==> Stored(videos, r[i]) && r[i].owner.None?
  {
    RowsOf(videos, KeysAsc(videos.Keys))
  }

  /** Every stored video is a row of the collection scan. */
  lemma AllRowsHas(videos: map<Id, Video>, k: Id)
    requires k in videos
    ensures Row(k, videos[k], None) in AllRows(videos)
  {
    var ks := KeysAsc(videos.Keys);
    var i :| 0 <= i < |ks| && ks[i] == k;
    assert AllRows(videos)[i] == Row(k, videos[k], None);
  }

  /** `$search`: the hits that are stored videos, in the order of the hits. */
  function HitRows(videos: map<Id, Video>, hits: seq<Id>): (r: seq<Row>)
    ensures forall i :: 0 <= i < |r| ==> Stored(videos, r[i]) && r[i].owner.None? && r[i].id in hits
    ensures forall h :: h in hits && h in videos ==> Row(h, videos[h], None) in r
  {
    if hits == [] then []
    else
      var rest := HitRows(videos, hits[1..]);
      assert forall h :: h in hits ==> h == hits[0] || h in hits[1..];
      if hits[0] in videos then
        var r := [Row(hits[0], videos[hits[0]], None)] + rest;
        assert forall i :: 1 <= i < |r| ==> r[i] == rest[i - 1];
        assert forall x :: x in rest ==> x in r;
        r
      else
        rest
  }

  /** `$lookup` of the owner with the projection `{fullname, username,
      avatar: "$avatar.url"}`. */
  function JoinOwners(users: map<Id, User>, rows: seq<Row>): (r: seq<Row>)
    ensures |r| == |rows|
    ensures forall i :: 0 <= i < |r| ==> r[i].id == rows[i].id && r[i].video == rows[i].video
    ensures forall i :: 0 <= i < |r| ==> Joined(users, r[i])
    ensures forall i :: 0 <= i < |r| ==> (r[i].owner.Some? <==> rows[i].video.owner in users)
  {
    if rows == [] then []
    else
      var o := rows[0].video.owner;
      var card := if o in users then Some(CardOf(o, users[o])) else None;
      [rows[0].(owner := card)] + JoinOwners(users, rows[1..])
  }

  /** One stage on the rows that reach it. Only `$search` produces rows; a
      `$match` keeps rows that satisfy it, `$sort` and `$lookup` keep the
      number of rows, and `$limit n` leaves at most `n`. */
  function Apply(videos: map<Id, Video>, users: map<Id, User>, rows: seq<Row>, st: Stage): (r: seq<Row>)
    ensures !st.TextSearch? ==> |r| <= |rows|
    ensures st.SortStage? || st.LookupOwner? ==> |r| == |rows|
    ensures st.LimitStage? ==> |r| <= st.n
    ensures IsMatch(st) || st.Unwind? ==> forall i :: 0 <= i < |r| ==> r[i] in rows
    ensures st.MatchPublic? ==> forall i :: 0 <= i < |r| ==> Visible(r[i].video)
    ensures st.MatchOwner? ==> forall i :: 0 <= i < |r| ==> r[i].video.owner == st.owner
    ensures st.MatchSuggestion? ==> forall i :: 0 <= i < |r| ==>
      r[i].id != st.target && r[i].video.owner == st.owner && Visible(r[i].video)
    ensures st.Unwind? ==> forall i :: 0 <= i < |r| ==> r[i].owner.Some?
  {
    match st
    case TextSearch(hits) => HitRows(videos, hits)
    case MatchPublic => Filter(rows, (r: Row) => Visible(r.video))
    case MatchOwner(o) => Filter(rows, (r: Row) => r.video.owner == o)
    case MatchSuggestion(t, o) => Filter(rows, (r: Row) => r.id != t && r.video.owner == o && Visible(r.video))
    case SortStage(order) => SortBy(rows, Le(order))
    case LookupOwner => JoinOwners(users, rows)
    case Unwind => Filter(rows, HasOwner)
    case SkipStage(n) => rows[Min(n, |rows|)..]
    case LimitStage(n) => rows[..Min(n, |rows|)]
  }

  /** The aggregation's output for `stages` applied in order to `rows`.
      Without `$search` no stage adds rows, and a pipeline ending in
      `$limit n` returns at most `n`. */
  function Run(videos: map<Id, Video>, users: map<Id, User>, rows: seq<Row>, stages: seq<Stage>): (r: seq<Row>)
    ensures (forall i :: 0 <= i < |stages| ==> !stages[i].TextSearch?) ==> |r| <= |rows|
    ensures stages != [] && stages[|stages| - 1].LimitStage? ==> |r| <= stages[|stages| - 1].n
    decreases |stages|
  {
    if stages == [] then rows else Run(videos, users, Apply(videos, users, rows, stages[0]), stages[1..])
  }

  lemma {:induction false} RunAppend(videos: map<Id, Video>, users: map<Id, User>, rows: seq<Row>, a: seq<Stage>, b: seq<Stage>)
    ensures Run(videos, users, rows, a + b) == Run(videos, users, Run(videos, users, rows, a), b)
    decreases |a|
  {
    if a == [] {
      assert a + b == b;
    } else {
      assert (a + b)[1..] == a[1..] + b;
      RunAppend(videos, users, Apply(videos, users, rows, a[0]), a[1..], b);
    }
  }

  /** The position of the first `$match` stage, or -1: `findIndex`. */
  function FirstMatch(stages: seq<Stage>): (i: int)
    ensures -1 <= i < |stages|
    ensures i >= 0 ==> IsMatch(stages[i])
    ensures forall j :: 0 <= j < |stages| && (i == -1 || j < i) ==> !IsMatch(stages[j])
  {
    if stages == [] then -1
    else if IsMatch(stages[0]) then 0
    else
      var k := FirstMatch(stages[1..]);
      assert forall j :: 1 <= j < |stages| ==> stages[j] == stages[1..][j - 1];
      if k == -1 then -1 else k + 1
  }

  /** `pipeline().slice(0, findIndex($match) + 1)`: the stages through the
      first `$match`, none at all when there is no `$match`. */
  function CountPrefix(stages: seq<Stage>): (c: seq<Stage>)
    ensures |c| <= |stages| && c == stages[..|c|]
    ensures c == [] <==> forall j :: 0 <= j < |stages| ==> !IsMatch(stages[j])
    ensures c != [] ==> IsMatch(c[|c| - 1]) && forall j :: 0 <= j < |c| - 1 ==> !IsMatch(c[j])
  {
    stages[..FirstMatch(stages) + 1]
  }

  /** The first `$match` of `a + b` lies in `a` when `a` has one. */
  lemma CountPrefixAppend(a: seq<Stage>, b: seq<Stage>)
    requires exists j :: 0 <= j < |a| && IsMatch(a[j])
    ensures CountPrefix(a + b) == CountPrefix(a)
  {
    var i, k := FirstMatch(a + b), FirstMatch(a);
    assert forall j :: 0 <= j < |a| ==> (a + b)[j] == a[j];
    assert i == k;
  }

  /** The stages both listings end with: sort, join the owner, drop videos
      without one, then `$skip` and `$limit`. */
  function Tail(order: Order, skip: nat, limit: nat): seq<Stage> {
    [SortStage(order)] + ([LookupOwner] + ([Unwind] + ([SkipStage(skip)] + [LimitStage(limit)])))
  }

  /** What a listing shows before paging. */
  function Listing(users: map<Id, User>, rows: seq<Row>, order: Order): seq<Row> {
    Filter(JoinOwners(users, SortBy(rows, Le(order))), HasOwner)
  }

  lemma RunCons(videos: map<Id, Video>, users: map<Id, User>, rows: seq<Row>, st: Stage, rest: seq<Stage>)
    ensures Run(videos, users, rows, [st] + rest) == Run(videos, users, Apply(videos, users, rows, st), rest)
  {
    assert ([st] + rest)[1..] == rest;
  }

  /** The last two stages of the tail: `$skip` then `$limit`. */
  lemma RunSkipLimit(videos: map<Id, Video>, users: map<Id, User>, rows: seq<Row>, skip: nat, limit: nat)
    ensures Run(videos, users, rows, [SkipStage(skip)] + [LimitStage(limit)]) == Slice(rows, skip, limit)
  {
    var after := rows[Min(skip, |rows|)..];
    RunCons(videos, users, after, LimitStage(limit), []);
    RunCons(videos, users, rows, SkipStage(skip), [LimitStage(limit)]);
  }

  lemma TailRuns(videos: map<Id, Video>, users: map<Id, User>, rows: seq<Row>, order: Order, skip: nat, limit: nat)
    ensures Run(videos, users, rows, Tail(order, skip, limit)) == Slice(Listing(users, rows, order), skip, limit)
  {
    var r1 := SortBy(rows, Le(order));
    var r2 := JoinOwners(users, r1);
    var t3 := [SkipStage(skip)] + [LimitStage(limit)];
    RunSort(videos, users, rows, order, [LookupOwner] + ([Unwind] + t3));
    RunLookup(videos, users, r1, [Unwind] + t3);
    RunUnwind(videos, users, r2, t3);
    RunSkipLimit(videos, users, Filter(r2, HasOwner), skip, limit);
  }

  lemma RunSort(videos: map<Id, Video>, users: map<Id, User>, rows: seq<Row>, order: Order, rest: seq<Stage>)
    ensures Run(videos, users, rows, [SortStage(order)] + rest) == Run(videos, users, SortBy(rows, Le(order)), rest)
  {
    RunCons(videos, users, rows, SortStage(order), rest);
  }

  lemma RunLookup(videos: map<Id, Video>, users: map<Id, User>, rows: seq<Row>, rest: seq<Stage>)
    ensures Run(videos, users, rows, [LookupOwner] + rest) == Run(videos, users, JoinOwners(users, rows), rest)
  {
    RunCons(videos, users, rows, LookupOwner, rest);
  }

  lemma RunUnwind(videos: map<Id, Video>, users: map<Id, User>, rows: seq<Row>, rest: seq<Stage>)
    ensures Run(videos, users, rows, [Unwind] + rest) == Run(videos, users, Filter(rows, HasOwner), rest)
  {
    RunCons(videos, users, rows, Unwind, rest);
  }

  /** A listing is sorted by its order, with no row missing its owner. */
  lemma ListingSorted(users: map<Id, User>, rows: seq<Row>, order: Order)
    ensures SortedBy(Listing(users, rows, order), Le(order))
    ensures forall i :: 0 <= i < |Listing(users, rows, order)| ==> Listing(users, rows, order)[i].owner.Some?
  {
    RowLeIsTotalPreorder(order);
    var sorted := SortBy(rows, Le(order));
    SortBySorted(rows, Le(order));
    var joined := JoinOwners(users, sorted);
    JoinOwnersSorted(users, sorted, order);
    FilterIsSubsequence(joined, HasOwner);
    SubsequenceSortedBy(Listing(users, rows, order), joined, Le(order));
  }

  /** The sort orders ignore the owner card, so joining it keeps the order. */
  lemma JoinOwnersSorted(users: map<Id, User>, rows: seq<Row>, order: Order)
    requires SortedBy(rows, Le(order))
    ensures SortedBy(JoinOwners(users, rows), Le(order))
  {
    var joined := JoinOwners(users, rows);
    forall i, j | 0 <= i < j < |joined|
      ensures RowLe(order, joined[i], joined[j])
    {
      RowLeIgnoresOwner(order, rows[i], rows[j], joined[i], joined[j]);
    }
  }

  /** Rows with the same id and video compare alike, whatever their cards. */
  lemma RowLeIgnoresOwner(order: Order, a: Row, b: Row, a': Row, b': Row)
    requires a.id == a'.id && a.video == a'.video
    requires b.id == b'.id && b.video == b'.video
    ensures RowLe(order, a, b) == RowLe(order, a', b')
  {
    if order.ByField? {
      assert KeyOf(order.field, a) == KeyOf(order.field, a');
      assert KeyOf(order.field, b) == KeyOf(order.field, b');
    }
  }

  /** A listing holds rows of the input, each with the owner card `$lookup`
      joins for it. */
  lemma ListingRows(users: map<Id, User>, rows: seq<Row>, order: Order, i: nat)
    requires i < |Listing(users, rows, order)|
    ensures var r := Listing(users, rows, order)[i];
      exists j :: 0 <= j < |rows| && rows[j].id == r.id && rows[j].video == r.video
    ensures Joined(users, Listing(users, rows, order)[i])
  {
    var sorted := SortBy(rows, Le(order));
    var joined := JoinOwners(users, sorted);
    var r := Listing(users, rows, order)[i];
    var k :| 0 <= k < |joined| && joined[k] == r;
    assert sorted[k] in multiset(rows);
    var j :| 0 <= j < |rows| && rows[j] == sorted[k];
  }

  /** A page of a listing and its metadata. */
  datatype VideoPage = VideoPage(docs: seq<Row>, meta: PageMeta)

  /** The page a listing controller returns for `filters` followed by the
      tail: `totalDocs` counts the output of the stages through the first
      `$match`, and the docs come from the whole pipeline with `.skip()` and
      `.limit()` applied to it once more. */
  function PageOf(videos: map<Id, Video>, users: map<Id, User>, filters: seq<Stage>, order: Order,
                  page: Pos, limit: Pos): (p: VideoPage)
    ensures |p.docs| <= limit
  {
    var stages := filters + Tail(order, Skip(page, limit), limit);
    var total := |Run(videos, users, AllRows(videos), CountPrefix(stages))|;
    var docs := Slice(Run(videos, users, AllRows(videos), stages), Skip(page, limit), limit);
    VideoPage(docs, Meta(total, page, limit))
  }

  /** The rows the filter stages keep, listed in the listing's order. */
  function Listed(videos: map<Id, Video>, users: map<Id, User>, filters: seq<Stage>, order: Order): seq<Row> {
    Listing(users, Run(videos, users, AllRows(videos), filters), order)
  }

  /** The docs are the page window of the listing, windowed a second time. */
  lemma PageDocs(videos: map<Id, Video>, users: map<Id, User>, filters: seq<Stage>, order: Order, page: Pos, limit: Pos)
    ensures var l := Listed(videos, users, filters, order);
      PageOf(videos, users, filters, order, page, limit).docs
      == Slice(Slice(l, Skip(page, limit), limit), Skip(page, limit), limit)
  {
    var rows := AllRows(videos);
    RunAppend(videos, users, rows, filters, Tail(order, Skip(page, limit), limit));
    TailRuns(videos, users, Run(videos, users, rows, filters), order, Skip(page, limit), limit);
  }

  /** Page 1 holds the first `limit` rows of the listing. */
  lemma FirstPageDocs(videos: map<Id, Video>, users: map<Id, User>, filters: seq<Stage>, order: Order, limit: Pos)
    ensures var l := Listed(videos, users, filters, order);
      PageOf(videos, users, filters, order, 1, limit).docs == l[..Min(limit, |l|)]
  {
    PageDocs(videos, users, filters, order, 1, limit);
  }

  /** Every later page is empty: the second window starts past the end of
      the first, which holds at most `limit` rows. */
  lemma LaterPagesEmpty(videos: map<Id, Video>, users: map<Id, User>, filters: seq<Stage>, order: Order,
                        page: Pos, limit: Pos)
    requires page >= 2
    ensures PageOf(videos, users, filters, order, page, limit).docs == []
  {
    PageDocs(videos, users, filters, order, page, limit);
    LaterSkip(page, limit);
    SliceTwiceEmpty(Listed(videos, users, filters, order), Skip(page, limit), limit);
  }

  /** When the first `$match` closes `base`, `totalDocs` counts the rows
      `base` keeps, whatever filters follow it. */
  lemma PageTotal(videos: map<Id, Video>, users: map<Id, User>, base: seq<Stage>, more: seq<Stage>,
                  order: Order, page: Pos, limit: Pos)
    requires base != [] && IsMatch(base[|base| - 1])
    requires forall j :: 0 <= j < |base| - 1 ==> !IsMatch(base[j])
    ensures PageOf(videos, users, base + more, order, page, limit).meta.totalDocs
            == |Run(videos, users, AllRows(videos), base)|
  {
    var tail := Tail(order, Skip(page, limit), limit);
    assert base + more + tail == base + (more + tail);
    CountPrefixAppend(base, more + tail);
    CountPrefixWhole(base);
  }

  /** `PageTotal` with nothing after `filters`. */
  lemma PageTotalAll(videos: map<Id, Video>, users: map<Id, User>, filters: seq<Stage>,
                     order: Order, page: Pos, limit: Pos)
    requires filters != [] && IsMatch(filters[|filters| - 1])
    requires forall j :: 0 <= j < |filters| - 1 ==> !IsMatch(filters[j])
    ensures PageOf(videos, users, filters, order, page, limit).meta.totalDocs
            == |Run(videos, users, AllRows(videos), filters)|
  {
    assert filters + [] == filters;
    PageTotal(videos, users, filters, [], order, page, limit);
  }

  /** A stage list whose only `$match` is its last stage is its own count
      prefix. */
  lemma CountPrefixWhole(base: seq<Stage>)
    requires base != [] && IsMatch(base[|base| - 1])
    requires forall j :: 0 <= j < |base| - 1 ==> !IsMatch(base[j])
    ensures CountPrefix(base) == base
  {
    var c := CountPrefix(base);
    assert c != [] by {
      assert IsMatch(base[|base| - 1]);
    }
    assert c[|c| - 1] == base[|c| - 1];
  }

  /** The page with the window applied once. */
  function SinglePageOf(videos: map<Id, Video>, users: map<Id, User>, filters: seq<Stage>, order: Order,
                        page: Pos, limit: Pos): (p: VideoPage)
    ensures |p.docs| <= limit
  {
    var stages := filters + Tail(order, Skip(page, limit), limit);
    var total := |Run(videos, users, AllRows(videos), CountPrefix(stages))|;
    RunAppend(videos, users, AllRows(videos), filters, Tail(order, Skip(page, limit), limit));
    TailRuns(videos, users, Run(videos, users, AllRows(videos), filters), order, Skip(page, limit), limit);
    VideoPage(Run(videos, users, AllRows(videos), stages), Meta(total, page, limit))
  }

  /** With a single window, walking the pages 1 to `ceil(n / limit)` of the
      `n` listed rows returns the whole listing once, in order. */
  lemma SinglePagesCover(videos: map<Id, Video>, users: map<Id, User>, filters: seq<Stage>, order: Order,
                         page: Pos, limit: Pos)
    ensures var l := Listed(videos, users, filters, order);
      && SinglePageOf(videos, users, filters, order, page, limit).docs == Slice(l, Skip(page, limit), limit)
      && PagesFrom(l, limit, 1, CeilDiv(|l|, limit)) == l
  {
    var rows := AllRows(videos);
    RunAppend(videos, users, rows, filters, Tail(order, Skip(page, limit), limit));
    TailRuns(videos, users, Run(videos, users, rows, filters), order, Skip(page, limit), limit);
    PagesCover(Listed(videos, users, filters, order), limit);
  }

  /** Filter stages keep only stored rows without an owner card; the first
      is `$search` or a `$match`, the others are `$match` stages. */
  ghost predicate FilterStages(stages: seq<Stage>) {
    forall i :: 0 <= i < |stages| ==> IsMatch(stages[i]) || (i == 0 && stages[i].TextSearch?)
  }

  /** Each filter stage keeps exactly the rows it matches. */
  function Matches(st: Stage, r: Row): bool {
    match st
    case TextSearch(hits) => r.id in hits
    case MatchPublic => Visible(r.video)
    case MatchOwner(o) => r.video.owner == o
    case MatchSuggestion(t, o) => r.id != t && r.video.owner == o && Visible(r.video)
    case _ => true
  }

  /** After filter stages every row is a stored video that each stage
      matches. */
  lemma {:induction false} FiltersSound(videos: map<Id, Video>, users: map<Id, User>, rows: seq<Row>, stages: seq<Stage>)
    requires FilterStages(stages)
    requires forall i :: 0 <= i < |rows| ==> Stored(videos, rows[i]) && rows[i].owner.None?
    ensures var out := Run(videos, users, rows, stages);
      forall i :: 0 <= i < |out| ==>
        Stored(videos, out[i]) && out[i].owner.None? && forall j :: 0 <= j < |stages| ==> Matches(stages[j], out[i])
    decreases |stages|
  {
    if stages != [] {
      var st := stages[0];
      var next := Apply(videos, users, rows, st);
      FilterStagesTail(stages);
      FilterStageSound(videos, users, rows, st);
      FiltersSound(videos, users, next, stages[1..]);
      var out := Run(videos, users, rows, stages);
      assert out == Run(videos, users, next, stages[1..]);
      forall i, j | 0 <= i < |out| && 0 <= j < |stages|
        ensures Matches(stages[j], out[i])
      {
        if j > 0 {
          assert stages[j] == stages[1..][j - 1];
        } else {
          MatchesKept(videos, users, next, stages[1..], st, i);
        }
      }
    }
  }

  lemma FilterStagesTail(stages: seq<Stage>)
    requires FilterStages(stages) && stages != []
    ensures FilterStages(stages[1..]) && forall j :: 0 <= j < |stages[1..]| ==> IsMatch(stages[1..][j])
  {
    forall i | 0 <= i < |stages[1..]|
      ensures IsMatch(stages[1..][i])
    {
      assert stages[1..][i] == stages[i + 1];
    }
  }

  /** One filter stage keeps stored rows without an owner card, each of
      which it matches. */
  lemma FilterStageSound(videos: map<Id, Video>, users: map<Id, User>, rows: seq<Row>, st: Stage)
    requires IsMatch(st) || st.TextSearch?
    requires forall i :: 0 <= i < |rows| ==> Stored(videos, rows[i]) && rows[i].owner.None?
    ensures var next := Apply(videos, users, rows, st);
      forall i :: 0 <= i < |next| ==> Stored(videos, next[i]) && next[i].owner.None? && Matches(st, next[i])
  {
  }

  /** A `$match` stage later in the pipeline does not change rows, only drops
      them, so what an earlier stage matched is still matched. */
  lemma {:induction false} MatchesKept(videos: map<Id, Video>, users: map<Id, User>, rows: seq<Row>, stages: seq<Stage>,
                                       st: Stage, i: nat)
    requires forall j :: 0 <= j < |stages| ==> IsMatch(stages[j])
    requires forall k :: 0 <= k < |rows| ==> Matches(st, rows[k])
    requires i < |Run(videos, users, rows, stages)|
    ensures Matches(st, Run(videos, users, rows, stages)[i])
    decreases |stages|
  {
    if stages != [] {
      var next := Apply(videos, users, rows, stages[0]);
      assert forall k :: 0 <= k < |next| ==> next[k] in rows;
      forall k | 0 <= k < |next|
        ensures Matches(st, next[k])
      {
        var m :| 0 <= m < |rows| && rows[m] == next[k];
      }
      assert forall j :: 0 <= j < |stages[1..]| ==> stages[1..][j] == stages[j + 1];
      MatchesKept(videos, users, next, stages[1..], st, i);
    }
  }

  /** A row whose video every filter stage matches survives the filters. */
  lemma {:induction false} FiltersComplete(videos: map<Id, Video>, users: map<Id, User>, rows: seq<Row>,
                                           stages: seq<Stage>, r: Row)
    requires FilterStages(stages)
    requires Stored(videos, r) && r.owner.None?
    requires r in rows || (stages != [] && stages[0].TextSearch?)
    requires forall j :: 0 <= j < |stages| ==> Matches(stages[j], r)
    ensures r in Run(videos, users, rows, stages)
    decreases |stages|
  {
    if stages != [] {
      var st := stages[0];
      var next := Apply(videos, users, rows, st);
      assert r in next;
      FilterStagesTail(stages);
      assert forall j :: 0 <= j < |stages[1..]| ==> stages[1..][j] == stages[j + 1];
      FiltersComplete(videos, users, next, stages[1..], r);
    }
  }
  /** The filters keep exactly the stored videos that every stage matches. */
  lemma FiltersExact(videos: map<Id, Video>, users: map<Id, User>, stages: seq<Stage>, r: Row)
    requires FilterStages(stages)
    ensures r in Run(videos, users, AllRows(videos), stages) <==>
      Stored(videos, r) && r.owner.None? && forall j :: 0 <= j < |stages| ==> Matches(stages[j], r)
  {
    if r in Run(videos, users, AllRows(videos), stages) {
      FilteredRowMatches(videos, users, stages, r);
    }
    if Stored(videos, r) && r.owner.None? && forall j :: 0 <= j < |stages| ==> Matches(stages[j], r) {
      MatchingRowFiltered(videos, users, stages, r);
    }
  }

  lemma FilteredRowMatches(videos: map<Id, Video>, users: map<Id, User>, stages: seq<Stage>, r: Row)
    requires FilterStages(stages)
    requires r in Run(videos, users, AllRows(videos), stages)
    ensures Stored(videos, r) && r.owner.None? && forall j :: 0 <= j < |stages| ==> Matches(stages[j], r)
  {
    var out := Run(videos, users, AllRows(videos), stages);
    FiltersSound(videos, users, AllRows(videos), stages);
    var i :| 0 <= i < |out| && out[i] == r;
  }

  lemma MatchingRowFiltered(videos: map<Id, Video>, users: map<Id, User>, stages: seq<Stage>, r: Row)
    requires FilterStages(stages)
    requires Stored(videos, r) && r.owner.None? && forall j :: 0 <= j < |stages| ==> Matches(stages[j], r)
    ensures r in Run(videos, users, AllRows(videos), stages)
  {
    assert r == Row(r.id, videos[r.id], None);
    AllRowsHas(videos, r.id);
    FiltersComplete(videos, users, AllRows(videos), stages, r);
  }

  /** A stored video that every filter stage matches. */
  ghost predicate MatchedBy(videos: map<Id, Video>, filters: seq<Stage>, r: Row) {
    Stored(videos, r) && forall j :: 0 <= j < |filters| ==> Matches(filters[j], r)
  }

  ghost predicate AllMatchedBy(videos: map<Id, Video>, filters: seq<Stage>, rows: seq<Row>) {
    forall m :: 0 <= m < |rows| ==> MatchedBy(videos, filters, rows[m])
  }

  /** A listing of rows that a set of filters matched holds only such rows,
      now with their owner cards. */
  lemma ListingShown(videos: map<Id, Video>, users: map<Id, User>, rows: seq<Row>, order: Order,
                     filters: seq<Stage>, k: nat)
    requires AllMatchedBy(videos, filters, rows)
    requires k < |Listing(users, rows, order)|
    ensures var d := Listing(users, rows, order)[k];
      MatchedBy(videos, filters, d) && d.owner.Some? && Joined(users, d)
  {
    var d := Listing(users, rows, order)[k];
    ListingRows(users, rows, order, k);
    ListingSorted(users, rows, order);
    var m :| 0 <= m < |rows| && rows[m].id == d.id && rows[m].video == d.video;
    assert MatchedBy(videos, filters, rows[m]);
    forall j | 0 <= j < |filters|
      ensures Matches(filters[j], d)
    {
      assert Matches(filters[j], rows[m]);
    }
  }

  lemma FilteredRowsMatch(videos: map<Id, Video>, users: map<Id, User>, filters: seq<Stage>)
    requires FilterStages(filters)
    ensures AllMatchedBy(videos, filters, Run(videos, users, AllRows(videos), filters))
  {
    RowsMatch(videos, users, AllRows(videos), filters);
  }

  lemma RowsMatch(videos: map<Id, Video>, users: map<Id, User>, rows: seq<Row>, filters: seq<Stage>)
    requires FilterStages(filters)
    requires forall i :: 0 <= i < |rows| ==> Stored(videos, rows[i]) && rows[i].owner.None?
    ensures AllMatchedBy(videos, filters, Run(videos, users, rows, filters))
  {
    FiltersSound(videos, users, rows, filters);
  }

  /** Every video a page shows is a stored video that every filter stage
      matches, and carries its owner card. */
  lemma PageDocShown(videos: map<Id, Video>, users: map<Id, User>, filters: seq<Stage>, order: Order,
                     page: Pos, limit: Pos, i: nat)
    requires FilterStages(filters)
    requires i < |PageOf(videos, users, filters, order, page, limit).docs|
    ensures var d := PageOf(videos, users, filters, order, page, limit).docs[i];
      MatchedBy(videos, filters, d) && d.owner.Some? && Joined(users, d)
  {
    PageDocs(videos, users, filters, order, page, limit);
    FilteredRowsMatch(videos, users, filters);
    WindowShown(videos, users, filters, Run(videos, users, AllRows(videos), filters), order, Skip(page, limit), limit,
                PageOf(videos, users, filters, order, page, limit).docs, i);
  }

  lemma WindowShown(videos: map<Id, Video>, users: map<Id, User>, filters: seq<Stage>, rows: seq<Row>, order: Order,
                    skip: nat, limit: nat, docs: seq<Row>, i: nat)
    requires AllMatchedBy(videos, filters, rows)
    requires docs == Slice(Slice(Listing(users, rows, order), skip, limit), skip, limit)
    requires i < |docs|
    ensures MatchedBy(videos, filters, docs[i]) && docs[i].owner.Some? && Joined(users, docs[i])
  {
    SliceTwiceIndex(Listing(users, rows, order), skip, limit, i);
    ListingShown(videos, users, rows, order, filters, skip + skip + i);
  }

  lemma SliceTwiceIndex(l: seq<Row>, skip: nat, limit: nat, i: nat)
    requires i < |Slice(Slice(l, skip, limit), skip, limit)|
    ensures skip + skip + i < |l|
    ensures Slice(Slice(l, skip, limit), skip, limit)[i] == l[skip + skip + i]
  {
    assert Slice(Slice(l, skip, limit), skip, limit)[i] == Slice(l, skip, limit)[skip + i];
  }
}
