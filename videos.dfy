/** The video controllers: the public listing and the suggestions built on
    the aggregation stages, the single-video access rule, the like summary,
    the view counter with its watch-history upsert, and the playlist
    membership edits. */
module Videos {
  import opened Common
  import opened Entities
  import opened Seqs
  import opened Ordering
  import opened Strings
  import opened Paging
  import opened Db
  import opened Reactions
  import Search
  import opened VideoPipeline

  // ---------------------------------------------------------------------------
  // getAllVideos

  /** The query parameters of the video list. `userId` is absent when it is
      missing or empty. */
  datatype ListQuery = ListQuery(
    page: Option<Pos>,
    limit: Option<Pos>,
    query: Option<string>,
    sortBy: Option<string>,
    sortType: Option<string>,
    userId: Option<Ref>)

  /** `query && query.trim().length`: a text search is requested. */
  predicate Searching(q: ListQuery) {
    q.query.Some? && !IsBlank(q.query.value)
  }

  /** The `$sort` stage: `sortBy` in the direction `sortType` names ("des"
      for descending; the default "asc" otherwise) when both are non-empty,
      otherwise newest first. */
  function ListOrder(q: ListQuery): (o: Order)
    ensures q.sortBy.Some? && q.sortBy.value != "" && q.sortType != Some("") ==>
      o == ByField(ParseSortField(q.sortBy.value), q.sortType == Some("des"))
    ensures !(q.sortBy.Some? && q.sortBy.value != "" && q.sortType != Some("")) ==> o == ByField(ByCreatedAt, true)
  {
    var sortType := if q.sortType.Some? then q.sortType.value else "asc";
    if q.sortBy.Some? && q.sortBy.value != "" && sortType != "" then
      ByField(ParseSortField(q.sortBy.value), sortType == "des")
    else ByField(ByCreatedAt, true)
  }

  /** The owner an `userId` parameter restricts the list to. */
  function OwnerFilter(q: ListQuery): (o: Option<Id>)
    ensures o.Some? <==> q.userId.Some? && q.userId.value.Key?
    ensures o.Some? ==> q.userId == Some(Key(o.value))
  {
    if q.userId.Some? && q.userId.value.Key? then Some(q.userId.value.id) else None
  }

  /** The stages before the sort: the text search when requested, the
      visibility `$match`, and the owner `$match` when `owner` is given. */
  function ListFilters(q: ListQuery, hits: seq<Id>, owner: Option<Id>): (st: seq<Stage>)
    ensures MatchPublic in st
    ensures owner.Some? ==> st[|st| - 1] == MatchOwner(owner.value)
    // The count pipeline stops at the visibility `$match`: it never sees the
    // owner filter.
    ensures CountPrefix(st) == if Searching(q) then [TextSearch(hits), MatchPublic] else [MatchPublic]
  {
    (if Searching(q) then [TextSearch(hits)] else [])
    + [MatchPublic]
    + (if owner.Some? then [MatchOwner(owner.value)] else [])
  }

  /** The reply of `getAllVideos` once the search term is recorded. */
  function VideoList(videos: map<Id, Video>, users: map<Id, User>, q: ListQuery, hits: seq<Id>): (r: Result<VideoPage>)
    ensures r.Err? <==> q.userId == Some(BadRef)
    ensures r.Err? ==> r.error == Thrown(InvalidObjectIdMsg)
    ensures r.Ok? ==> |r.value.docs| <= OrDefault(q.limit, 10)
  {
    if q.userId == Some(BadRef) then Err(Thrown(InvalidObjectIdMsg))
    else Ok(PageOf(videos, users, ListFilters(q, hits, OwnerFilter(q)), ListOrder(q),
                   OrDefault(q.page, 1), OrDefault(q.limit, 10)))
  }

  /** `getAllVideos`: a non-blank query is first recorded in the search
      tally; then the page is computed. `hits` are the Atlas search results
      for the query. */
  method GetAllVideos(db: Store, q: ListQuery, hits: seq<Id>, now: Time) returns (r: Result<VideoPage>)
    modifies db`searches
    ensures db.searches == if Searching(q) then Search.AfterSearch(old(db.searches), q.query.value, now) else old(db.searches)
    ensures r == VideoList(db.videos, db.users, q, hits)
  {
    if Searching(q) {
      Search.UpdateSearchDb(db, q.query.value, now);
    }
    r := VideoList(db.videos, db.users, q, hits);
  }

  lemma ListFiltersAreFilters(q: ListQuery, hits: seq<Id>, owner: Option<Id>)
    ensures FilterStages(ListFilters(q, hits, owner))
  {
  }

  /** What the list filters demand of a row. */
  lemma ListFiltersMatch(q: ListQuery, hits: seq<Id>, owner: Option<Id>, r: Row)
    ensures var f := ListFilters(q, hits, owner);
      (forall j :: 0 <= j < |f| ==> Matches(f[j], r)) <==>
      Visible(r.video) && (Searching(q) ==> r.id in hits) && (owner.Some? ==> r.video.owner == owner.value)
  {
    var f := ListFilters(q, hits, owner);
    var s: seq<Stage> := if Searching(q) then [TextSearch(hits)] else [];
    var o: seq<Stage> := if owner.Some? then [MatchOwner(owner.value)] else [];
    assert f == s + [MatchPublic] + o;
    assert f[|s|] == MatchPublic;
    if Searching(q) {
      assert f[0] == TextSearch(hits);
    }
    if owner.Some? {
      assert f[|f| - 1] == MatchOwner(owner.value);
    }
    if Visible(r.video) && (Searching(q) ==> r.id in hits) && (owner.Some? ==> r.video.owner == owner.value) {
      forall j | 0 <= j < |f|
        ensures Matches(f[j], r)
      {
        if j < |s| {
          assert f[j] == TextSearch(hits);
        } else if j > |s| {
          assert f[j] == MatchOwner(owner.value);
        }
      }
    }
  }

  /** The rows the list filters keep are exactly the stored visible videos,
      among the search hits when searching, of the owner when one is given. */
  lemma ListCandidates(videos: map<Id, Video>, users: map<Id, User>, q: ListQuery, hits: seq<Id>,
                       owner: Option<Id>, r: Row)
    ensures r in Run(videos, users, AllRows(videos), ListFilters(q, hits, owner)) <==>
      Stored(videos, r) && r.owner.None? && Visible(r.video)
      && (Searching(q) ==> r.id in hits) && (owner.Some? ==> r.video.owner == owner.value)
  {
    ListFiltersAreFilters(q, hits, owner);
    FiltersExact(videos, users, ListFilters(q, hits, owner), r);
    ListFiltersMatch(q, hits, owner, r);
  }

  /** `totalDocs` counts the stages through the first `$match`, the
      visibility match: the owner restriction is not counted. */
  lemma ListCount(videos: map<Id, Video>, users: map<Id, User>, q: ListQuery, hits: seq<Id>)
    requires VideoList(videos, users, q, hits).Ok?
    ensures VideoList(videos, users, q, hits).value.meta.totalDocs
            == |Run(videos, users, AllRows(videos), ListFilters(q, hits, None))|
  {
    var base := ListFilters(q, hits, None);
    var ownerPart := if OwnerFilter(q).Some? then [MatchOwner(OwnerFilter(q).value)] else [];
    assert ListFilters(q, hits, OwnerFilter(q)) == base + ownerPart;
    PageTotal(videos, users, base, ownerPart, ListOrder(q), OrDefault(q.page, 1), OrDefault(q.limit, 10));
  }

  /** The count is the same with and without an owner restriction. */
  lemma CountIgnoresOwner(videos: map<Id, Video>, users: map<Id, User>, q: ListQuery, hits: seq<Id>, owner: Id)
    ensures VideoList(videos, users, q.(userId := Some(Key(owner))), hits).value.meta.totalDocs
            == VideoList(videos, users, q.(userId := None), hits).value.meta.totalDocs
  {
    ListCount(videos, users, q.(userId := Some(Key(owner))), hits);
    ListCount(videos, users, q.(userId := None), hits);
    assert ListFilters(q.(userId := Some(Key(owner))), hits, None) == ListFilters(q.(userId := None), hits, None);
  }

  /** Every listed video is a stored, public, non-NSFW video with its owner
      card, owned by the requested owner and among the search hits when
      those apply. */
  lemma ListDocsShown(videos: map<Id, Video>, users: map<Id, User>, q: ListQuery, hits: seq<Id>, i: nat)
    requires VideoList(videos, users, q, hits).Ok?
    requires i < |VideoList(videos, users, q, hits).value.docs|
    ensures var d := VideoList(videos, users, q, hits).value.docs[i];
      && Stored(videos, d) && Visible(d.video) && d.owner.Some? && Joined(users, d)
      && (OwnerFilter(q).Some? ==> d.video.owner == OwnerFilter(q).value)
      && (Searching(q) ==> d.id in hits)
  {
    ListFiltersAreFilters(q, hits, OwnerFilter(q));
    PageDocShown(videos, users, ListFilters(q, hits, OwnerFilter(q)), ListOrder(q),
                 OrDefault(q.page, 1), OrDefault(q.limit, 10), i);
    ListFiltersMatch(q, hits, OwnerFilter(q), VideoList(videos, users, q, hits).value.docs[i]);
  }

  /** The listed videos follow the requested order. */
  lemma ListSorted(videos: map<Id, Video>, users: map<Id, User>, q: ListQuery, hits: seq<Id>)
    requires VideoList(videos, users, q, hits).Ok?
    ensures SortedBy(VideoList(videos, users, q, hits).value.docs, Le(ListOrder(q)))
  {
    var f, order := ListFilters(q, hits, OwnerFilter(q)), ListOrder(q);
    var page, limit := OrDefault(q.page, 1), OrDefault(q.limit, 10);
    PageDocs(videos, users, f, order, page, limit);
    var l := Listed(videos, users, f, order);
    ListingSorted(users, Run(videos, users, AllRows(videos), f), order);
    SliceSorted(l, Skip(page, limit), limit, order);
    SliceSorted(Slice(l, Skip(page, limit), limit), Skip(page, limit), limit, order);
  }

  lemma SliceSorted(s: seq<Row>, skip: nat, limit: nat, order: Order)
    requires SortedBy(s, Le(order))
    ensures SortedBy(Slice(s, skip, limit), Le(order))
  {
    var r := Slice(s, skip, limit);
    forall i, j | 0 <= i < j < |r|
      ensures RowLe(order, r[i], r[j])
    {
      assert r[i] == s[skip + i] && r[j] == s[skip + j];
    }
  }

  /** Page 1 (the default) holds the first `limit` listed videos. */
  lemma ListFirstPage(videos: map<Id, Video>, users: map<Id, User>, q: ListQuery, hits: seq<Id>)
    requires q.userId != Some(BadRef)
    requires q.page.None? || q.page == Some(1)
    ensures var l := Listed(videos, users, ListFilters(q, hits, OwnerFilter(q)), ListOrder(q));
      VideoList(videos, users, q, hits).value.docs == l[..Min(OrDefault(q.limit, 10), |l|)]
  {
    FirstPageDocs(videos, users, ListFilters(q, hits, OwnerFilter(q)), ListOrder(q), OrDefault(q.limit, 10));
  }

  /** Any page after the first comes back empty. */
  lemma ListLaterPagesEmpty(videos: map<Id, Video>, users: map<Id, User>, q: ListQuery, hits: seq<Id>)
    requires q.userId != Some(BadRef)
    requires q.page.Some? && q.page.value >= 2
    ensures VideoList(videos, users, q, hits).value.docs == []
  {
    LaterPagesEmpty(videos, users, ListFilters(q, hits, OwnerFilter(q)), ListOrder(q), q.page.value, OrDefault(q.limit, 10));
  }

  // ---------------------------------------------------------------------------
  // getSuggestions

  const InvalidVideoMsg := "Invalid Video!"

  /** The stages before the sort: the search on the target's title and
      description, then the `$match` that excludes the target and keeps the
      owner's public, non-NSFW videos. */
  function SuggestionFilters(target: Id, owner: Id, hits: seq<Id>): (st: seq<Stage>)
    ensures CountPrefix(st) == st
    ensures forall i :: 0 <= i < |st| - 1 ==> !IsMatch(st[i])
  {
    var st := [TextSearch(hits), MatchSuggestion(target, owner)];
    assert !IsMatch(st[0]) && IsMatch(st[1]);
    assert |CountPrefix(st)| == 2;
    st
  }

  /** `getSuggestions`: other public, non-NSFW videos of the same owner that
      the search on the target's title and description found, most viewed
      and then newest first. */
  function Suggestions(videos: map<Id, Video>, users: map<Id, User>, ref: Ref,
                       page: Option<Pos>, limit: Option<Pos>, hits: seq<Id>): (r: Result<VideoPage>)
    ensures ref.BadRef? ==> r == Err(BadRequest(InvalidVideoMsg))
    ensures ref.Key? && ref.id !in videos ==> r == Err(NotFound("Video not found"))
    ensures r.Ok? <==> ref.Key? && ref.id in videos
    ensures r.Ok? ==> |r.value.docs| <= OrDefault(limit, 10)
  {
    if ref.BadRef? then Err(BadRequest(InvalidVideoMsg))
    else if ref.id !in videos then Err(NotFound("Video not found"))
    else Ok(PageOf(videos, users, SuggestionFilters(ref.id, videos[ref.id].owner, hits), PopularFirst,
                   OrDefault(page, 1), OrDefault(limit, 10)))
  }

  /** The suggestion filters keep exactly the hits that are other stored
      public, non-NSFW videos of the owner. */
  lemma SuggestionCandidates(videos: map<Id, Video>, users: map<Id, User>, target: Id, owner: Id,
                             hits: seq<Id>, r: Row)
    ensures r in Run(videos, users, AllRows(videos), SuggestionFilters(target, owner, hits)) <==>
      Stored(videos, r) && r.owner.None? && r.id in hits && r.id != target
      && r.video.owner == owner && Visible(r.video)
  {
    FiltersExact(videos, users, SuggestionFilters(target, owner, hits), r);
    SuggestionFiltersMatch(target, owner, hits, r);
  }

  lemma SuggestionFiltersMatch(target: Id, owner: Id, hits: seq<Id>, r: Row)
    ensures var f := SuggestionFilters(target, owner, hits);
      (forall j :: 0 <= j < |f| ==> Matches(f[j], r)) <==>
      r.id in hits && r.id != target && r.video.owner == owner && Visible(r.video)
  {
    var f := SuggestionFilters(target, owner, hits);
    assert (forall j :: 0 <= j < |f| ==> Matches(f[j], r)) <==> Matches(f[0], r) && Matches(f[1], r);
  }

  /** The suggestion count is the number of such videos: their `$match` is
      the first one, so the count pipeline keeps every filter. */
  lemma SuggestionCount(videos: map<Id, Video>, users: map<Id, User>, ref: Ref,
                        page: Option<Pos>, limit: Option<Pos>, hits: seq<Id>)
    requires Suggestions(videos, users, ref, page, limit, hits).Ok?
    ensures Suggestions(videos, users, ref, page, limit, hits).value.meta.totalDocs
            == |Run(videos, users, AllRows(videos), SuggestionFilters(ref.id, videos[ref.id].owner, hits))|
  {
    SuggestionsPage(videos, users, ref, page, limit, hits);
    SuggestionMatchLast(ref.id, videos[ref.id].owner, hits);
    PageTotalAll(videos, users, SuggestionFilters(ref.id, videos[ref.id].owner, hits), PopularFirst,
                 OrDefault(page, 1), OrDefault(limit, 10));
  }

  lemma SuggestionsPage(videos: map<Id, Video>, users: map<Id, User>, ref: Ref,
                        page: Option<Pos>, limit: Option<Pos>, hits: seq<Id>)
    requires Suggestions(videos, users, ref, page, limit, hits).Ok?
    ensures ref.Key? && ref.id in videos
    ensures Suggestions(videos, users, ref, page, limit, hits).value
            == PageOf(videos, users, SuggestionFilters(ref.id, videos[ref.id].owner, hits), PopularFirst,
                      OrDefault(page, 1), OrDefault(limit, 10))
  {
  }

  /** The suggestion `$match` is the last filter and the first `$match`. */
  lemma SuggestionMatchLast(target: Id, owner: Id, hits: seq<Id>)
    ensures var f := SuggestionFilters(target, owner, hits);
      f != [] && IsMatch(f[|f| - 1]) && forall j :: 0 <= j < |f| - 1 ==> !IsMatch(f[j])
  {
  }

  /** Every suggestion is another public, non-NSFW video of the target's
      owner that the search found, with its owner card. */
  lemma SuggestionsShown(videos: map<Id, Video>, users: map<Id, User>, ref: Ref,
                         page: Option<Pos>, limit: Option<Pos>, hits: seq<Id>, i: nat)
    requires Suggestions(videos, users, ref, page, limit, hits).Ok?
    requires i < |Suggestions(videos, users, ref, page, limit, hits).value.docs|
    ensures var d := Suggestions(videos, users, ref, page, limit, hits).value.docs[i];
      && Stored(videos, d) && Visible(d.video) && d.owner.Some? && Joined(users, d)
      && d.id != ref.id && d.video.owner == videos[ref.id].owner && d.id in hits
  {
    SuggestionsPage(videos, users, ref, page, limit, hits);
    SuggestionDocShown(videos, users, ref.id, videos[ref.id].owner, hits, OrDefault(page, 1), OrDefault(limit, 10), i);
  }

  lemma SuggestionDocShown(videos: map<Id, Video>, users: map<Id, User>, target: Id, owner: Id, hits: seq<Id>,
                           page: Pos, limit: Pos, i: nat)
    requires i < |PageOf(videos, users, SuggestionFilters(target, owner, hits), PopularFirst, page, limit).docs|
    ensures var d := PageOf(videos, users, SuggestionFilters(target, owner, hits), PopularFirst, page, limit).docs[i];
      && Stored(videos, d) && Visible(d.video) && d.owner.Some? && Joined(users, d)
      && d.id != target && d.video.owner == owner && d.id in hits
  {
    var f := SuggestionFilters(target, owner, hits);
    PageDocShown(videos, users, f, PopularFirst, page, limit, i);
    SuggestionMatched(videos, target, owner, hits, PageOf(videos, users, f, PopularFirst, page, limit).docs[i]);
  }

  /** What the suggestion filters' matching says of one video. */
  lemma SuggestionMatched(videos: map<Id, Video>, target: Id, owner: Id, hits: seq<Id>, d: Row)
    requires MatchedBy(videos, SuggestionFilters(target, owner, hits), d)
    ensures Stored(videos, d) && Visible(d.video) && d.id != target && d.video.owner == owner && d.id in hits
  {
    var f := SuggestionFilters(target, owner, hits);
    assert Matches(f[0], d) && Matches(f[1], d);
  }

  /** Suggestions come most viewed first, then newest first. */
  lemma SuggestionsSorted(videos: map<Id, Video>, users: map<Id, User>, ref: Ref,
                          page: Option<Pos>, limit: Option<Pos>, hits: seq<Id>)
    requires Suggestions(videos, users, ref, page, limit, hits).Ok?
    ensures SortedBy(Suggestions(videos, users, ref, page, limit, hits).value.docs, Le(PopularFirst))
  {
    var f := SuggestionFilters(ref.id, videos[ref.id].owner, hits);
    var p, lim := OrDefault(page, 1), OrDefault(limit, 10);
    PageDocs(videos, users, f, PopularFirst, p, lim);
    var l := Listed(videos, users, f, PopularFirst);
    ListingSorted(users, Run(videos, users, AllRows(videos), f), PopularFirst);
    SliceSorted(l, Skip(p, lim), lim, PopularFirst);
    SliceSorted(Slice(l, Skip(p, lim), lim), Skip(p, lim), lim, PopularFirst);
  }

  /** Any page of suggestions after the first comes back empty. */
  lemma SuggestionLaterPagesEmpty(videos: map<Id, Video>, users: map<Id, User>, ref: Ref,
                                  page: Pos, limit: Option<Pos>, hits: seq<Id>)
    requires ref.Key? && ref.id in videos
    requires page >= 2
    ensures Suggestions(videos, users, ref, Some(page), limit, hits).value.docs == []
  {
    LaterPagesEmpty(videos, users, SuggestionFilters(ref.id, videos[ref.id].owner, hits), PopularFirst,
                    page, OrDefault(limit, 10));
  }

  // ---------------------------------------------------------------------------
  // getVideo

  const PrivateVideoMsg := "You are not allowed to view this video"

  /** `getVideo`: a non-NSFW video with its owner card; a private one only
      for its owner. `viewer` is absent for an anonymous request. */
  function GetVideo(videos: map<Id, Video>, users: map<Id, User>, ref: Ref, viewer: Option<Id>): (r: Result<Row>)
    ensures ref.BadRef? ==> r == Err(BadRequest(InvalidVideoMsg))
    ensures ref.Key? && (ref.id !in videos || videos[ref.id].isNSFW || videos[ref.id].owner !in users) ==>
      r == Err(NotFound("Video not found!"))
    ensures r.Ok? <==>
      ref.Key? && ref.id in videos && !videos[ref.id].isNSFW && videos[ref.id].owner in users
      && (videos[ref.id].isPublic || viewer == Some(videos[ref.id].owner))
    ensures r.Err? && r.error.Unauthorized? ==> r.error.msg == PrivateVideoMsg && !videos[ref.id].isPublic
    ensures r.Ok? ==> Stored(videos, r.value) && r.value.owner.Some? && Joined(users, r.value)
  {
    if ref.BadRef? then Err(BadRequest(InvalidVideoMsg))
    else if ref.id !in videos || videos[ref.id].isNSFW || videos[ref.id].owner !in users then
      Err(NotFound("Video not found!"))
    else
      var v := videos[ref.id];
      if !v.isPublic && viewer != Some(v.owner) then Err(Unauthorized(PrivateVideoMsg))
      else Ok(Row(ref.id, v, Some(CardOf(v.owner, users[v.owner]))))
  }

  /** A video the list shows opens for anybody, as the same row. */
  lemma ListedVideoOpens(videos: map<Id, Video>, users: map<Id, User>, q: ListQuery, hits: seq<Id>, i: nat,
                         viewer: Option<Id>)
    requires VideoList(videos, users, q, hits).Ok?
    requires i < |VideoList(videos, users, q, hits).value.docs|
    ensures var d := VideoList(videos, users, q, hits).value.docs[i];
      GetVideo(videos, users, Key(d.id), viewer) == Ok(d)
  {
    ListDocsShown(videos, users, q, hits, i);
  }

  // ---------------------------------------------------------------------------
  // getVideoLikeData

  /** The projection `getVideoLikeData` returns. */
  datatype LikeData = LikeData(isNSFW: bool, isLiked: bool, isDisliked: bool, likeCount: nat)

  /** The keys of the Like records of kind `t` on video `id`. */
  function LikesOfKind(likes: map<Id, Reaction>, id: Id, t: LikeType): set<Id> {
    set k | k in likes && likes[k].target == OnVideo(id) && likes[k].likeType == t
  }

  /** `viewer` has a record of kind `t` on video `id`. */
  predicate HasReaction(likes: map<Id, Reaction>, viewer: Id, id: Id, t: LikeType) {
    exists k :: k in LikesOfKind(likes, id, t) && likes[k].likedBy == viewer
  }

  /** `getVideoLikeData`: for a public, non-NSFW video the number of likes
      and whether the viewer likes or dislikes it; nothing (`docs[0]` of an
      empty page) for any other id. */
  function VideoLikeData(videos: map<Id, Video>, likes: map<Id, Reaction>, ref: Ref, viewer: Id): (r: Result<Option<LikeData>>)
    ensures r.Err? <==> ref.BadRef?
    ensures r.Err? ==> r.error == BadRequest("VideoId is Invalid!")
    ensures r.Ok? ==> (r.value.Some? <==> ref.id in videos && Visible(videos[ref.id]))
    ensures r.Ok? && r.value.Some? ==> !r.value.value.isNSFW
    ensures r.Ok? && r.value.Some? && r.value.value.isLiked ==> r.value.value.likeCount >= 1
  {
    if ref.BadRef? then Err(BadRequest("VideoId is Invalid!"))
    else if ref.id !in videos || !Visible(videos[ref.id]) then Ok(None)
    else
      var id := ref.id;
      var liked := HasReaction(likes, viewer, id, Like);
      assert liked ==> |LikesOfKind(likes, id, Like)| >= 1 by {
        if liked {
          var k :| k in LikesOfKind(likes, id, Like) && likes[k].likedBy == viewer;
        }
      }
      Ok(Some(LikeData(false, liked, HasReaction(likes, viewer, id, Dislike), |LikesOfKind(likes, id, Like)|)))
  }

  /** Under the one-record invariant the flags are the viewer's current
      reaction, so at most one of them holds. */
  lemma LikeFlagsAreReaction(videos: map<Id, Video>, likes: map<Id, Reaction>, id: Id, viewer: Id)
    requires OnePerActorTarget(likes)
    requires id in videos && Visible(videos[id])
    ensures var d := VideoLikeData(videos, likes, Key(id), viewer).value.value;
      && (d.isLiked <==> ReactionOf(likes, viewer, OnVideo(id)) == Some(Like))
      && (d.isDisliked <==> ReactionOf(likes, viewer, OnVideo(id)) == Some(Dislike))
      && !(d.isLiked && d.isDisliked)
  {
    var f := FindReaction(likes, viewer, OnVideo(id));
    if f.Some? {
      assert f.value in LikesOfKind(likes, id, likes[f.value].likeType);
      forall k | k in likes && IsRecordOf(likes[k], viewer, OnVideo(id))
        ensures k == f.value
      {
      }
    }
  }

  /** A first "like" from a viewer raises the like count by exactly one. */
  lemma FirstLikeCounts(videos: map<Id, Video>, likes: map<Id, Reaction>, id: Id, viewer: Id, now: Time)
    requires id in videos && Visible(videos[id])
    requires FindReaction(likes, viewer, OnVideo(id)).None?
    ensures var after := Toggle(likes, videos.Keys, VideoKind, Key(id), viewer, Some("like"), now).likes;
      VideoLikeData(videos, after, Key(id), viewer).value.value.likeCount
      == VideoLikeData(videos, likes, Key(id), viewer).value.value.likeCount + 1
  {
    var k := FreshKey(likes.Keys);
    FirstLikeStored(likes, videos.Keys, id, viewer, now);
    LikesOfKindAdd(likes, k, Reaction(OnVideo(id), Like, viewer, now), id);
  }

  /** A first "like" stores one new record under a fresh key. */
  lemma FirstLikeStored(likes: map<Id, Reaction>, targets: set<Id>, id: Id, viewer: Id, now: Time)
    requires id in targets
    requires FindReaction(likes, viewer, OnVideo(id)).None?
    ensures Toggle(likes, targets, VideoKind, Key(id), viewer, Some("like"), now).likes
            == likes[FreshKey(likes.Keys) := Reaction(OnVideo(id), Like, viewer, now)]
  {
  }

  /** Adding a Like record on `id` under a new key adds that key to the
      video's likes. */
  lemma LikesOfKindAdd(likes: map<Id, Reaction>, k: Id, rec: Reaction, id: Id)
    requires k !in likes
    requires rec.target == OnVideo(id) && rec.likeType == Like
    ensures LikesOfKind(likes[k := rec], id, Like) == LikesOfKind(likes, id, Like) + {k}
    ensures |LikesOfKind(likes[k := rec], id, Like)| == |LikesOfKind(likes, id, Like)| + 1
  {
    assert LikesOfKind(likes[k := rec], id, Like) == LikesOfKind(likes, id, Like) + {k};
  }

  // ---------------------------------------------------------------------------
  // incremenetVideoView

  /** The watch history after watching `vid` at `now`: the first entry for
      the video gets the new time, or a new entry is appended. */
  function RecordView(h: seq<WatchEntry>, vid: Id, now: Time): (r: seq<WatchEntry>)
    ensures |r| == |h| || |r| == |h| + 1
  {
    if h == [] then [WatchEntry(vid, now)]
    else if h[0].videoId == vid then [h[0].(watchedAt := now)] + h[1..]
    else [h[0]] + RecordView(h[1..], vid, now)
  }

  /** The video ids of a history, in order. */
  function Ids(h: seq<WatchEntry>): (r: seq<Id>)
    ensures |r| == |h|
    ensures forall i :: 0 <= i < |h| ==> r[i] == h[i].videoId
  {
    if h == [] then [] else [h[0].videoId] + Ids(h[1..])
  }

  /** A view keeps the ids and their order, adding `vid` at the end only when
      it was not there: the history gains no duplicate. */
  lemma {:induction false} RecordViewIds(h: seq<WatchEntry>, vid: Id, now: Time)
    ensures Ids(RecordView(h, vid, now)) == if vid in Ids(h) then Ids(h) else Ids(h) + [vid]
  {
    if h != [] {
      RecordViewIds(h[1..], vid, now);
      assert Ids(h) == [h[0].videoId] + Ids(h[1..]);
      var r := RecordView(h, vid, now);
      if h[0].videoId == vid {
        assert Ids(r) == [vid] + Ids(h[1..]);
      } else {
        assert Ids(r) == [h[0].videoId] + Ids(RecordView(h[1..], vid, now));
        assert vid in Ids(h) <==> vid in Ids(h[1..]);
      }
    }
  }

  lemma RecordViewNoDup(h: seq<WatchEntry>, vid: Id, now: Time)
    requires NoDup(Ids(h))
    ensures NoDup(Ids(RecordView(h, vid, now)))
    ensures |RecordView(h, vid, now)| == if vid in Ids(h) then |h| else |h| + 1
  {
    RecordViewIds(h, vid, now);
  }

  /** The entry for `vid` now carries `now`, and every other entry is as it
      was. */
  lemma {:induction false} RecordViewTimes(h: seq<WatchEntry>, vid: Id, now: Time, i: nat)
    requires i <= |h|
    requires forall j :: 0 <= j < i ==> h[j].videoId != vid
    requires i < |h| ==> h[i].videoId == vid
    ensures i < |h| ==> RecordView(h, vid, now) == h[i := WatchEntry(vid, now)]
    ensures i == |h| ==> RecordView(h, vid, now) == h + [WatchEntry(vid, now)]
  {
    if h != [] && i > 0 {
      RecordViewTimes(h[1..], vid, now, i - 1);
      if i < |h| {
        assert h[i := WatchEntry(vid, now)] == [h[0]] + h[1..][i - 1 := WatchEntry(vid, now)];
      } else {
        assert h + [WatchEntry(vid, now)] == [h[0]] + (h[1..] + [WatchEntry(vid, now)]);
      }
    }
  }

  datatype ViewChange = ViewChange(reply: Result<string>, videos: map<Id, Video>, users: map<Id, User>)

  /** One view: the checks in the source's order, then `views + 1` and the
      history upsert. The `$inc` update goes through the schema's timestamps,
      so the video's `updatedAt` becomes `now`. */
  function View(videos: map<Id, Video>, users: map<Id, User>, ref: Ref, viewer: Id, now: Time): (c: ViewChange)
    ensures c.reply.Err? ==> c.videos == videos && c.users == users
    ensures ref.BadRef? ==> c.reply == Err(BadRequest("VideoId is Invalid!"))
    ensures ref.Key? && ref.id !in videos ==> c.reply == Err(NotFound("Video not found!"))
    ensures ref.Key? && ref.id in videos && viewer !in users ==> c.reply == Err(BadRequest("User not found!"))
    ensures c.reply.Ok? <==> ref.Key? && ref.id in videos && viewer in users
    ensures c.reply.Ok? ==>
      && c.videos.Keys == videos.Keys
      && c.videos[ref.id].views == videos[ref.id].views + 1
      && c.videos[ref.id] == videos[ref.id].(views := c.videos[ref.id].views, updatedAt := now)
      && (forall k :: k in videos && k != ref.id ==> c.videos[k] == videos[k])
      && c.users.Keys == users.Keys
      && c.users[viewer] == users[viewer].(watchHistory := RecordView(users[viewer].watchHistory, ref.id, now))
      && (forall u :: u in users && u != viewer ==> c.users[u] == users[u])
  {
    if ref.BadRef? then ViewChange(Err(BadRequest("VideoId is Invalid!")), videos, users)
    else if ref.id !in videos then ViewChange(Err(NotFound("Video not found!")), videos, users)
    else if viewer !in users then ViewChange(Err(BadRequest("User not found!")), videos, users)
    else
      var v := videos[ref.id];
      var u := users[viewer];
      ViewChange(Ok("Video view incremented successfully"),
                 videos[ref.id := v.(views := v.views + 1, updatedAt := now)],
                 users[viewer := u.(watchHistory := RecordView(u.watchHistory, ref.id, now))])
  }

  /** `incremenetVideoView`: `$inc` the views, then find the history entry
      and update its time or push a new one, and save. */
  method IncrementVideoView(db: Store, ref: Ref, viewer: Id, now: Time) returns (reply: Result<string>)
    modifies db`videos, db`users
    ensures ViewChange(reply, db.videos, db.users) == View(old(db.videos), old(db.users), ref, viewer, now)
  {
    if ref.BadRef? {
      return Err(BadRequest("VideoId is Invalid!"));
    }
    if ref.id !in db.videos {
      return Err(NotFound("Video not found!"));
    }
    if viewer !in db.users {
      return Err(BadRequest("User not found!"));
    }
    var v := db.videos[ref.id];
    db.videos := db.videos[ref.id := v.(views := v.views + 1, updatedAt := now)];
    var u := db.users[viewer];
    var h := u.watchHistory;
    var i := 0;
    while i < |h| && h[i].videoId != ref.id
      invariant 0 <= i <= |h|
      invariant forall j :: 0 <= j < i ==> h[j].videoId != ref.id
    {
      i := i + 1;
    }
    RecordViewTimes(h, ref.id, now, i);
    if i < |h| {
      h := h[i := h[i].(watchedAt := now)];
    } else {
      h := h + [WatchEntry(ref.id, now)];
    }
    db.users := db.users[viewer := u.(watchHistory := h)];
    reply := Ok("Video view incremented successfully");
  }

  // ---------------------------------------------------------------------------
  // updateVideoPlaylists

  /** `$addToSet`: append `v` unless it is already there. */
  function AddToSet(s: seq<Id>, v: Id): (r: seq<Id>)
    ensures v in r
    ensures forall x :: x in r <==> x in s || x == v
    ensures NoDup(s) ==> NoDup(r)
    ensures v in s ==> r == s
    ensures v !in s ==> r == s + [v]
  {
    if v in s then s else s + [v]
  }

  /** `$pull`: remove every occurrence of `v`. */
  function Pull(s: seq<Id>, v: Id): (r: seq<Id>)
    ensures forall x :: x in r <==> x in s && x != v
    ensures |r| <= |s|
  {
    if s == [] then []
    else if s[0] == v then Pull(s[1..], v)
    else [s[0]] + Pull(s[1..], v)
  }

  /** Pulling keeps the other entries in their order and with their
      multiplicities. */
  lemma {:induction false} PullKeepsOthers(s: seq<Id>, v: Id)
    ensures Subsequence(Pull(s, v), s)
    ensures forall x :: x != v ==> multiset(Pull(s, v))[x] == multiset(s)[x]
    ensures multiset(Pull(s, v))[v] == 0
  {
    if s != [] {
      PullKeepsOthers(s[1..], v);
      assert s == [s[0]] + s[1..];
      if s[0] != v {
        assert Pull(s, v)[1..] == Pull(s[1..], v);
      } else {
        SubsequenceOfEmptyOrTail(Pull(s, v), s);
      }
    }
  }

  datatype PlaylistChange = PlaylistChange(reply: Result<string>, playlists: map<Id, Playlist>)

  /** `findByIdAndUpdate(id, {$addToSet: {videos: vid}})`; the schema's
      timestamps refresh `updatedAt`. A missing playlist is left alone. */
  function AddOne(pls: map<Id, Playlist>, k: Id, vid: Id, now: Time): (r: map<Id, Playlist>)
    ensures r.Keys == pls.Keys
    ensures k !in pls ==> r == pls
    ensures k in pls ==>
      && (forall x :: x in r[k].videos <==> x in pls[k].videos || x == vid)
      && (NoDup(pls[k].videos) ==> NoDup(r[k].videos))
      && r[k] == pls[k].(videos := r[k].videos, updatedAt := now)
    ensures forall j :: j in pls && j != k ==> r[j] == pls[j]
  {
    if k in pls then pls[k := pls[k].(videos := AddToSet(pls[k].videos, vid), updatedAt := now)] else pls
  }

  /** `findByIdAndUpdate(id, {$pull: {videos: vid}})`. */
  function PullOne(pls: map<Id, Playlist>, k: Id, vid: Id, now: Time): (r: map<Id, Playlist>)
    ensures r.Keys == pls.Keys
    ensures k !in pls ==> r == pls
    ensures k in pls ==>
      && (forall x :: x in r[k].videos <==> x in pls[k].videos && x != vid)
      && Subsequence(r[k].videos, pls[k].videos)
      && r[k] == pls[k].(videos := r[k].videos, updatedAt := now)
    ensures forall j :: j in pls && j != k ==> r[j] == pls[j]
  {
    if k in pls then
      PullKeepsOthers(pls[k].videos, vid);
      pls[k := pls[k].(videos := Pull(pls[k].videos, vid), updatedAt := now)]
    else pls
  }

  function AddEach(pls: map<Id, Playlist>, ks: seq<Id>, vid: Id, now: Time): (r: map<Id, Playlist>)
    ensures r.Keys == pls.Keys
    decreases |ks|
  {
    if ks == [] then pls else AddOne(AddEach(pls, ks[..|ks| - 1], vid, now), ks[|ks| - 1], vid, now)
  }

  function PullEach(pls: map<Id, Playlist>, ks: seq<Id>, vid: Id, now: Time): (r: map<Id, Playlist>)
    ensures r.Keys == pls.Keys
    decreases |ks|
  {
    if ks == [] then pls else PullOne(PullEach(pls, ks[..|ks| - 1], vid, now), ks[|ks| - 1], vid, now)
  }

  /** The TypeError that calling `every` on a missing body array throws. */
  const NoArrayMsg := "Cannot read properties of undefined (reading 'every')"

  /** Both body arrays are present and hold ObjectIds only. */
  predicate ArraysValid(adds: Option<seq<Ref>>, removes: Option<seq<Ref>>) {
    adds.Some? && AllKeys(adds.value) && removes.Some? && AllKeys(removes.value)
  }

  /** The result of the `||` test on the two arrays: `every` on a missing
      array throws, and a malformed id among the additions decides the test
      before the removals are looked at. */
  function ArraysCheck(adds: Option<seq<Ref>>, removes: Option<seq<Ref>>): (r: Option<Error>)
    ensures r.None? <==> ArraysValid(adds, removes)
    ensures adds.None? ==> r == Some(Thrown(NoArrayMsg))
    ensures adds.Some? && !AllKeys(adds.value) ==> r == Some(BadRequest("Invalid Playlist!"))
    ensures adds.Some? && AllKeys(adds.value) && removes.None? ==> r == Some(Thrown(NoArrayMsg))
    ensures r.Some? && removes.Some? && !AllKeys(removes.value) && adds.Some? ==> r == Some(BadRequest("Invalid Playlist!"))
  {
    if adds.None? then Some(Thrown(NoArrayMsg))
    else if !AllKeys(adds.value) then Some(BadRequest("Invalid Playlist!"))
    else if removes.None? then Some(Thrown(NoArrayMsg))
    else if !AllKeys(removes.value) then Some(BadRequest("Invalid Playlist!"))
    else None
  }

  /** `updateVideoPlaylists` as written: the id checks, then every add and
      every pull. The per-playlist ownership check cannot stop them, so the
      viewer plays no part in the outcome. A body array is `None` when the
      request leaves it out. */
  function PlaylistEdit(pls: map<Id, Playlist>, videoRef: Ref, adds: Option<seq<Ref>>, removes: Option<seq<Ref>>,
                        now: Time): (c: PlaylistChange)
    ensures c.reply.Err? ==> c.playlists == pls
    ensures videoRef.BadRef? ==> c.reply == Err(BadRequest(InvalidVideoMsg))
    ensures videoRef.Key? && ArraysCheck(adds, removes).Some? ==> c.reply == Err(ArraysCheck(adds, removes).value)
    ensures c.reply.Ok? <==> videoRef.Key? && ArraysValid(adds, removes)
    ensures c.reply.Ok? ==> c.reply.value == "Playlists Updated" && c.playlists.Keys == pls.Keys
  {
    if videoRef.BadRef? then PlaylistChange(Err(BadRequest(InvalidVideoMsg)), pls)
    else if ArraysCheck(adds, removes).Some? then PlaylistChange(Err(ArraysCheck(adds, removes).value), pls)
    else PlaylistChange(Ok("Playlists Updated"),
                        PullEach(AddEach(pls, KeysOf(adds.value), videoRef.id, now), KeysOf(removes.value), videoRef.id, now))
  }

  /** Adding reaches every listed playlist and no other; it changes no other
      video's multiplicity. */
  lemma {:induction false} AddEachEffect(pls: map<Id, Playlist>, ks: seq<Id>, vid: Id, now: Time, k: Id)
    requires k in pls
    ensures k in ks ==> vid in AddEach(pls, ks, vid, now)[k].videos
    ensures NoDup(pls[k].videos) ==> NoDup(AddEach(pls, ks, vid, now)[k].videos)
    ensures forall x :: x != vid ==> multiset(AddEach(pls, ks, vid, now)[k].videos)[x] == multiset(pls[k].videos)[x]
    ensures k !in ks ==> AddEach(pls, ks, vid, now)[k] == pls[k]
    decreases |ks|
  {
    if ks != [] {
      var init := ks[..|ks| - 1];
      AddEachEffect(pls, init, vid, now, k);
      assert k in ks <==> k in init || k == ks[|ks| - 1];
      AddOneEffect(AddEach(pls, init, vid, now), ks[|ks| - 1], vid, now, k);
    }
  }

  /** One `$addToSet` on playlist `j`, seen from playlist `k`. */
  lemma AddOneEffect(pls: map<Id, Playlist>, j: Id, vid: Id, now: Time, k: Id)
    requires k in pls
    ensures var after := AddOne(pls, j, vid, now)[k].videos;
      && (k == j ==> vid in after)
      && (NoDup(pls[k].videos) ==> NoDup(after))
      && (forall x :: x != vid ==> multiset(after)[x] == multiset(pls[k].videos)[x])
    ensures k != j ==> AddOne(pls, j, vid, now)[k] == pls[k]
  {
    var s := pls[k].videos;
    if k == j && vid !in s {
      assert multiset(s + [vid]) == multiset(s) + multiset{vid};
    }
  }

  /** Pulling removes `vid` from every listed playlist and touches no other;
      it changes no other video's multiplicity. */
  lemma {:induction false} PullEachEffect(pls: map<Id, Playlist>, ks: seq<Id>, vid: Id, now: Time, k: Id)
    requires k in pls
    ensures k in ks ==> vid !in PullEach(pls, ks, vid, now)[k].videos
    ensures k !in ks ==> PullEach(pls, ks, vid, now)[k] == pls[k]
    ensures forall x :: x != vid ==> multiset(PullEach(pls, ks, vid, now)[k].videos)[x] == multiset(pls[k].videos)[x]
    decreases |ks|
  {
    if ks != [] {
      var init := ks[..|ks| - 1];
      PullEachEffect(pls, init, vid, now, k);
      assert k in ks <==> k in init || k == ks[|ks| - 1];
      if k == ks[|ks| - 1] {
        PullKeepsOthers(PullEach(pls, init, vid, now)[k].videos, vid);
      }
    }
  }

  /** After the edit, every playlist named in the removals lacks the video;
      every one named only in the additions has it, once at most when it had
      no duplicates; the other playlists are unchanged. */
  lemma PlaylistEditEffect(pls: map<Id, Playlist>, vid: Id, adds: seq<Ref>, removes: seq<Ref>, now: Time, k: Id)
    requires AllKeys(adds) && AllKeys(removes)
    requires k in pls
    ensures var after := PlaylistEdit(pls, Key(vid), Some(adds), Some(removes), now).playlists;
      && (k in KeysOf(removes) ==> vid !in after[k].videos)
      && (k in KeysOf(adds) && k !in KeysOf(removes) ==> vid in after[k].videos)
      && (k !in KeysOf(removes) && NoDup(pls[k].videos) ==> NoDup(after[k].videos))
      && (k !in KeysOf(adds) && k !in KeysOf(removes) ==> after[k] == pls[k])
      && (forall x :: x != vid ==> multiset(after[k].videos)[x] == multiset(pls[k].videos)[x])
  {
    var mid := AddEach(pls, KeysOf(adds), vid, now);
    AddEachEffect(pls, KeysOf(adds), vid, now, k);
    PullEachEffect(mid, KeysOf(removes), vid, now, k);
  }

  /** The outcome does not depend on who asks: a playlist owned by user 7
      gains the video whoever sends the request. */
  lemma EditIgnoresOwnership()
    ensures var pls := map[1 := Playlist("mix", None, "public", [], 7, 0, 0)];
      var c := PlaylistEdit(pls, Key(5), Some([Key(1)]), Some([]), 9);
      c.reply.Ok? && c.playlists[1].videos == [5] && c.playlists[1].owner == 7
  {
    var pls := map[1 := Playlist("mix", None, "public", [], 7, 0, 0)];
    assert [Key(1)][..0] == [];
    assert KeysOf([Key(1)]) == [1];
    assert KeysOf([Key(1)])[..0] == [];
  }

  /** Every listed id names an existing playlist of the viewer. */
  predicate OwnsAll(pls: map<Id, Playlist>, ks: seq<Id>, viewer: Id) {
    forall i :: 0 <= i < |ks| ==> ks[i] in pls && pls[ks[i]].owner == viewer
  }

  const NotYourPlaylistMsg := "You are not allowed to update this playlist"

  /** The edit with the ownership check in force: any listed playlist that is
      missing or not the viewer's refuses the whole request. */
  function OwnerCheckedEdit(pls: map<Id, Playlist>, videoRef: Ref, adds: Option<seq<Ref>>, removes: Option<seq<Ref>>,
                            viewer: Id, now: Time): (c: PlaylistChange)
    ensures c.reply.Err? ==> c.playlists == pls
    ensures c.reply.Ok? ==> c == PlaylistEdit(pls, videoRef, adds, removes, now)
    ensures c.reply.Ok? <==> videoRef.Key? && ArraysValid(adds, removes)
                              && OwnsAll(pls, KeysOf(adds.value) + KeysOf(removes.value), viewer)
  {
    var c := PlaylistEdit(pls, videoRef, adds, removes, now);
    if c.reply.Err? then c
    else if !OwnsAll(pls, KeysOf(adds.value) + KeysOf(removes.value), viewer) then
      PlaylistChange(Err(Unauthorized(NotYourPlaylistMsg)), pls)
    else c
  }

  /** With the check in force, only the viewer's own playlists change. */
  lemma OwnerCheckedChangesOnlyOwn(pls: map<Id, Playlist>, videoRef: Ref, adds: Option<seq<Ref>>, removes: Option<seq<Ref>>,
                                   viewer: Id, now: Time, k: Id)
    requires k in pls
    requires OwnerCheckedEdit(pls, videoRef, adds, removes, viewer, now).playlists[k] != pls[k]
    ensures pls[k].owner == viewer
  {
    var c := OwnerCheckedEdit(pls, videoRef, adds, removes, viewer, now);
    var ks := KeysOf(adds.value) + KeysOf(removes.value);
    PlaylistEditEffect(pls, videoRef.id, adds.value, removes.value, now, k);
    assert k in ks;
    var i :| 0 <= i < |ks| && ks[i] == k;
  }

  /** `updateVideoPlaylists`: the id checks, then one `$addToSet` per add id
      and one `$pull` per remove id, run one after another. */
  method UpdateVideoPlaylists(db: Store, videoRef: Ref, adds: Option<seq<Ref>>, removes: Option<seq<Ref>>, now: Time)
    returns (reply: Result<string>)
    modifies db`playlists
    ensures PlaylistChange(reply, db.playlists) == PlaylistEdit(old(db.playlists), videoRef, adds, removes, now)
  {
    if videoRef.BadRef? {
      return Err(BadRequest(InvalidVideoMsg));
    }
    if adds.None? {
      return Err(Thrown(NoArrayMsg));
    }
    if !AllKeys(adds.value) {
      return Err(BadRequest("Invalid Playlist!"));
    }
    if removes.None? {
      return Err(Thrown(NoArrayMsg));
    }
    if !AllKeys(removes.value) {
      return Err(BadRequest("Invalid Playlist!"));
    }
    var vid := videoRef.id;
    var addIds, removeIds := KeysOf(adds.value), KeysOf(removes.value);
    var start := db.playlists;
    for i := 0 to |addIds|
      invariant db.playlists == AddEach(start, addIds[..i], vid, now)
    {
      assert addIds[..i + 1][..i] == addIds[..i];
      db.playlists := AddOne(db.playlists, addIds[i], vid, now);
    }
    assert addIds[..|addIds|] == addIds;
    var added := db.playlists;
    for i := 0 to |removeIds|
      invariant db.playlists == PullEach(added, removeIds[..i], vid, now)
    {
      assert removeIds[..i + 1][..i] == removeIds[..i];
      db.playlists := PullOne(db.playlists, removeIds[i], vid, now);
    }
    assert removeIds[..|removeIds|] == removeIds;
    reply := Ok("Playlists Updated");
  }
}
