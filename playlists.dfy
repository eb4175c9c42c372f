/** The playlist controllers: creation and update with their body checks,
    the owner's listing with its visibility rule and nested videos, the
    single-playlist read, the options a video can be added to, and
    deletion. */
module Playlists {
  import opened Common
  import opened Entities
  import opened Seqs
  import opened Ordering
  import opened Strings
  import opened Paging
  import opened Db

  const TitleMsg := "Playlist title cannot be empty"
  const VisibilityMsg := "Playlist visibility can be either public or private"
  const InvalidVideoIdMsg := "Invalid Video ID"
  const InvalidPlaylistIdMsg := "Invalid Playlist ID"
  const InvalidUserIdMsg := "Invalid User ID"
  const QueryVisibilityMsg := "Playlist query visibility can be either public, private or all"
  const NotFoundMsg := "Playlist not found"
  const NotFoundDataMsg := "Playlist not found!"
  const CannotUpdateMsg := "You cannot update this playlist"
  const CannotDeleteMsg := "You cannot delete this playlist"

  /** The schema's `enum` validator rejecting a `visibility` on create (the
      library's own text is not modelled). */
  const EnumRejectedMsg := "Playlist validation failed: visibility"

  /** The schema's `enum: ["public", "private"]`. */
  predicate IsVisibility(v: string) {
    v == "public" || v == "private"
  }

  /** Every stored playlist has a visibility the schema allows. */
  predicate ValidVisibility(pls: map<Id, Playlist>) {
    forall k :: k in pls ==> IsVisibility(pls[k].visibility)
  }

  // ---------------------------------------------------------------------------
  // Request bodies

  /** The body of a create or update request; absent fields are `None`. */
  datatype Body = Body(
    title: Option<string>,
    description: Option<string>,
    visibility: Option<string>,
    videos: Option<seq<Ref>>)

  /** The controller's body checks, in order: a non-blank title, a
      visibility of "public" or "private" when a non-empty one is given, and
      parseable video ids. The `forEach` callback's `next(...)` does not stop
      the handler, but the write that follows fails to cast the bad id, so
      the request ends with that error and nothing is written. */
  function CheckBody(b: Body): (r: Option<Error>)
    ensures r.None? <==>
      && b.title.Some? && !IsBlank(b.title.value)
      && (b.visibility.Some? && b.visibility.value != "" ==> IsVisibility(b.visibility.value))
      && (b.videos.Some? ==> AllKeys(b.videos.value))
    ensures b.title.None? || IsBlank(b.title.value) ==> r == Some(BadRequest(TitleMsg))
    ensures r.Some? && r.value != BadRequest(TitleMsg) ==> b.title.Some? && !IsBlank(b.title.value)
  {
    if b.title.None? || IsBlank(b.title.value) then Some(BadRequest(TitleMsg))
    else if b.visibility.Some? && b.visibility.value != "" && !IsVisibility(b.visibility.value) then
      Some(BadRequest(VisibilityMsg))
    else if b.videos.Some? && !AllKeys(b.videos.value) then Some(BadRequest(InvalidVideoIdMsg))
    else None
  }

  // ---------------------------------------------------------------------------
  // createPlaylist

  /** The reply (the new key when one is created) and the collection after. */
  datatype Change<T> = Change(reply: Result<T>, playlists: map<Id, Playlist>)

  /** The document `Playlist.create` stores: the schema's defaults fill in a
      missing visibility ("private") and a missing video list. */
  function NewPlaylist(b: Body, owner: Id, now: Time): (p: Playlist)
    requires CheckBody(b).None?
    ensures p.title == b.title.value && p.description == b.description && p.owner == owner
    ensures p.visibility == if b.visibility.Some? then b.visibility.value else "private"
    ensures b.videos.Some? ==>
      |p.videos| == |b.videos.value| && forall i :: 0 <= i < |p.videos| ==> Key(p.videos[i]) == b.videos.value[i]
    ensures b.videos.None? ==> p.videos == []
    ensures p.createdAt == now && p.updatedAt == now
  {
    Playlist(b.title.value, b.description,
             if b.visibility.Some? then b.visibility.value else "private",
             if b.videos.Some? then KeysOf(b.videos.value) else [],
             owner, now, now)
  }

  /** `createPlaylist`: the body checks, then the insertion under a fresh
      key; an empty visibility passes the controller but not the schema. */
  function Create(pls: map<Id, Playlist>, b: Body, viewer: Id, now: Time): (c: Change<Id>)
    ensures c.reply.Err? ==> c.playlists == pls
    ensures CheckBody(b).Some? ==> c.reply == Err(CheckBody(b).value)
    ensures CheckBody(b).None? && b.visibility == Some("") ==> c.reply == Err(Thrown(EnumRejectedMsg))
    ensures c.reply.Ok? <==> CheckBody(b).None? && b.visibility != Some("")
    ensures c.reply.Ok? ==> c.reply.value !in pls && c.playlists == pls[c.reply.value := NewPlaylist(b, viewer, now)]
  {
    match CheckBody(b)
    case Some(e) => Change(Err(e), pls)
    case None =>
      if b.visibility == Some("") then Change(Err(Thrown(EnumRejectedMsg)), pls)
      else
        var k := FreshKey(pls.Keys);
        Change(Ok(k), pls[k := NewPlaylist(b, viewer, now)])
  }

  /** A stored playlist always has a visibility the schema allows. */
  lemma CreateKeepsVisibility(pls: map<Id, Playlist>, b: Body, viewer: Id, now: Time)
    requires ValidVisibility(pls)
    ensures ValidVisibility(Create(pls, b, viewer, now).playlists)
  {
  }

  method CreatePlaylist(db: Store, b: Body, viewer: Id, now: Time) returns (reply: Result<Id>)
    modifies db`playlists
    ensures Change(reply, db.playlists) == Create(old(db.playlists), b, viewer, now)
  {
    var e := CheckBody(b);
    if e.Some? {
      return Err(e.value);
    }
    if b.visibility == Some("") {
      return Err(Thrown(EnumRejectedMsg));
    }
    var k := FreshKey(db.playlists.Keys);
    db.playlists := db.playlists[k := NewPlaylist(b, viewer, now)];
    reply := Ok(k);
  }

  // ---------------------------------------------------------------------------
  // Nested videos

  /** A video of a playlist as the nested `$lookup` returns it. */
  datatype NestedVideo = NestedVideo(id: Id, video: Video, owner: OwnerCard)

  /** The nested `$lookup` keeps a video listed in `ids` that is public, not
      NSFW, and whose owner `$unwind` finds. */
  predicate Shown(videos: map<Id, Video>, users: map<Id, User>, ids: seq<Id>, k: Id) {
    k in videos && k in ids && videos[k].isPublic && !videos[k].isNSFW && videos[k].owner in users
  }

  function NestedOf(videos: map<Id, Video>, users: map<Id, User>, k: Id): NestedVideo
    requires k in videos && videos[k].owner in users
  {
    NestedVideo(k, videos[k], CardOf(videos[k].owner, users[videos[k].owner]))
  }

  /** `$sort: {sortIndex: 1}` with `sortIndex` the video's first position in
      the playlist's own array. */
  function IndexLe(ids: seq<Id>): (NestedVideo, NestedVideo) -> bool {
    (a: NestedVideo, b: NestedVideo) => IndexOf(ids, a.id) <= IndexOf(ids, b.id)
  }

  lemma IndexLeIsTotalPreorder(ids: seq<Id>)
    ensures TotalPreorder(IndexLe(ids))
  {
  }

  /** Every key names a video whose owner is a user. */
  predicate Joinable(videos: map<Id, Video>, users: map<Id, User>, ks: seq<Id>) {
    forall i :: 0 <= i < |ks| ==> ks[i] in videos && videos[ks[i]].owner in users
  }

  /** The keys the nested `$lookup` selects, in scan order. */
  function NestedKeys(videos: map<Id, Video>, users: map<Id, User>, ids: seq<Id>): (ks: seq<Id>)
    ensures forall k :: k in ks <==> Shown(videos, users, ids, k)
    ensures NoDup(ks)
    ensures Joinable(videos, users, ks)
  {
    Lookup(videos.Keys, (k: Id) => Shown(videos, users, ids, k))
  }

  function NestedRows(videos: map<Id, Video>, users: map<Id, User>, ks: seq<Id>): (r: seq<NestedVideo>)
    requires Joinable(videos, users, ks)
    ensures |r| == |ks|
    ensures forall i :: 0 <= i < |r| ==> r[i] == NestedOf(videos, users, ks[i])
  {
    if ks == [] then [] else [NestedOf(videos, users, ks[0])] + NestedRows(videos, users, ks[1..])
  }

  /** The `videos` of a playlist in a reply: the shown videos, in the order
      of the playlist's array, with the temporary `sortIndex` dropped. */
  function Nested(videos: map<Id, Video>, users: map<Id, User>, ids: seq<Id>): (r: seq<NestedVideo>)
    ensures forall i :: 0 <= i < |r| ==> Shown(videos, users, ids, r[i].id)
  {
    var ks := NestedKeys(videos, users, ids);
    var rows := NestedRows(videos, users, ks);
    var r := SortBy(rows, IndexLe(ids));
    assert forall i :: 0 <= i < |r| ==> Shown(videos, users, ids, r[i].id) by {
      forall i | 0 <= i < |r|
        ensures Shown(videos, users, ids, r[i].id)
      {
        SortByMember(rows, IndexLe(ids), r[i]);
        NestedRowsMember(videos, users, ks, r[i]);
      }
    }
    r
  }

  lemma NestedRowsMember(videos: map<Id, Video>, users: map<Id, User>, ks: seq<Id>, x: NestedVideo)
    requires Joinable(videos, users, ks)
    requires x in NestedRows(videos, users, ks)
    ensures x.id in ks && x.id in videos && videos[x.id].owner in users
    ensures x == NestedOf(videos, users, x.id)
  {
    var r := NestedRows(videos, users, ks);
    var i :| 0 <= i < |r| && r[i] == x;
    assert r[i] == NestedOf(videos, users, ks[i]);
  }

  lemma NestedRowsHas(videos: map<Id, Video>, users: map<Id, User>, ks: seq<Id>, k: Id)
    requires Joinable(videos, users, ks)
    requires k in ks
    ensures k in videos && videos[k].owner in users
    ensures NestedOf(videos, users, k) in NestedRows(videos, users, ks)
  {
    var i :| 0 <= i < |ks| && ks[i] == k;
    assert NestedRows(videos, users, ks)[i] == NestedOf(videos, users, k);
  }

  /** Rows built from distinct keys are distinct. */
  lemma NestedRowsNoDup(videos: map<Id, Video>, users: map<Id, User>, ks: seq<Id>)
    requires Joinable(videos, users, ks)
    requires NoDup(ks)
    ensures NoDup(NestedRows(videos, users, ks))
  {
    var rows := NestedRows(videos, users, ks);
    forall i, j | 0 <= i < j < |rows|
      ensures rows[i] != rows[j]
    {
      assert rows[i].id == ks[i] && rows[j].id == ks[j];
    }
  }

  /** A nested video is one the lookup shows, with its owner card. */
  lemma NestedSound(videos: map<Id, Video>, users: map<Id, User>, ids: seq<Id>, x: NestedVideo)
    requires x in Nested(videos, users, ids)
    ensures Shown(videos, users, ids, x.id) && x == NestedOf(videos, users, x.id)
  {
    var ks := NestedKeys(videos, users, ids);
    SortByMember(NestedRows(videos, users, ks), IndexLe(ids), x);
    NestedRowsMember(videos, users, ks, x);
  }

  /** Every shown video is among the nested ones. */
  lemma NestedComplete(videos: map<Id, Video>, users: map<Id, User>, ids: seq<Id>, k: Id)
    requires Shown(videos, users, ids, k)
    ensures NestedOf(videos, users, k) in Nested(videos, users, ids)
  {
    var ks := NestedKeys(videos, users, ids);
    NestedRowsHas(videos, users, ks, k);
    SortByMember(NestedRows(videos, users, ks), IndexLe(ids), NestedOf(videos, users, k));
  }

  /** The nested videos are exactly the shown ones, each with its owner
      card. */
  lemma NestedExact(videos: map<Id, Video>, users: map<Id, User>, ids: seq<Id>, k: Id)
    ensures var r := Nested(videos, users, ids);
      && (forall i :: 0 <= i < |r| ==> Shown(videos, users, ids, r[i].id) && r[i] == NestedOf(videos, users, r[i].id))
      && (Shown(videos, users, ids, k) ==> NestedOf(videos, users, k) in r)
  {
    var r := Nested(videos, users, ids);
    forall i | 0 <= i < |r|
      ensures Shown(videos, users, ids, r[i].id) && r[i] == NestedOf(videos, users, r[i].id)
    {
      NestedSound(videos, users, ids, r[i]);
    }
    if Shown(videos, users, ids, k) {
      NestedComplete(videos, users, ids, k);
    }
  }

  /** The nested videos are sorted by first position and repeat no video. */
  lemma NestedSortedNoDup(videos: map<Id, Video>, users: map<Id, User>, ids: seq<Id>)
    ensures SortedBy(Nested(videos, users, ids), IndexLe(ids))
    ensures NoDup(Nested(videos, users, ids))
  {
    var ks := NestedKeys(videos, users, ids);
    var rows := NestedRows(videos, users, ks);
    IndexLeIsTotalPreorder(ids);
    SortBySorted(rows, IndexLe(ids));
    NestedRowsNoDup(videos, users, ks);
    NoDupPermutation(rows, SortBy(rows, IndexLe(ids)));
  }

  /** Two different shown videos sit at different first positions. */
  lemma IndexOfDistinct(ids: seq<Id>, a: Id, b: Id)
    requires a in ids && b in ids && a != b
    ensures IndexOf(ids, a) != IndexOf(ids, b)
  {
  }

  /** The nested videos follow the playlist's own order strictly: each one
      appears once, at the place of its first occurrence in the array. */
  lemma NestedOrder(videos: map<Id, Video>, users: map<Id, User>, ids: seq<Id>)
    ensures var r := Nested(videos, users, ids);
      forall i, j :: 0 <= i < j < |r| ==> IndexOf(ids, r[i].id) < IndexOf(ids, r[j].id)
  {
    var r := Nested(videos, users, ids);
    NestedSortedNoDup(videos, users, ids);
    forall i, j | 0 <= i < j < |r|
      ensures IndexOf(ids, r[i].id) < IndexOf(ids, r[j].id)
    {
      assert IndexLe(ids)(r[i], r[j]);
      assert r[i] in r && r[j] in r;
      NestedSound(videos, users, ids, r[i]);
      NestedSound(videos, users, ids, r[j]);
      assert r[i].id != r[j].id;
      IndexOfDistinct(ids, r[i].id, r[j].id);
    }
  }

  // ---------------------------------------------------------------------------
  // Playlist replies

  /** A playlist in a reply: its fields, with `videos` replaced by the
      nested videos. */
  datatype PlaylistView = PlaylistView(
    id: Id,
    title: string,
    description: Option<string>,
    visibility: string,
    videos: seq<NestedVideo>,
    owner: Id,
    createdAt: Time,
    updatedAt: Time)

  /** The reply for playlist `k`: its stored fields whatever its visibility,
      and only the shown videos in place of its `videos`. */
  function ViewOf(videos: map<Id, Video>, users: map<Id, User>, k: Id, p: Playlist): (v: PlaylistView)
    ensures v.id == k && v.title == p.title && v.description == p.description && v.visibility == p.visibility
    ensures v.owner == p.owner && v.createdAt == p.createdAt && v.updatedAt == p.updatedAt
    ensures forall i :: 0 <= i < |v.videos| ==> Shown(videos, users, p.videos, v.videos[i].id)
  {
    PlaylistView(k, p.title, p.description, p.visibility, Nested(videos, users, p.videos),
                 p.owner, p.createdAt, p.updatedAt)
  }

  /** A reply row is the view of the stored playlist under its id. */
  ghost predicate IsViewIn(pls: map<Id, Playlist>, videos: map<Id, Video>, users: map<Id, User>, v: PlaylistView) {
    v.id in pls && v == ViewOf(videos, users, v.id, pls[v.id])
  }

  // ---------------------------------------------------------------------------
  // getPlaylistData

  /** `getPlaylistData`: the playlist by id, whatever its visibility and
      whoever asks. */
  function PlaylistData(pls: map<Id, Playlist>, videos: map<Id, Video>, users: map<Id, User>, ref: Ref): (r: Result<PlaylistView>)
    ensures ref.BadRef? ==> r == Err(BadRequest(InvalidPlaylistIdMsg))
    ensures ref.Key? && ref.id !in pls ==> r == Err(NotFound(NotFoundDataMsg))
    ensures r.Ok? <==> ref.Key? && ref.id in pls
    ensures r.Ok? ==> r.value.id == ref.id && IsViewIn(pls, videos, users, r.value)
    ensures r.Ok? ==> r.value.visibility == pls[ref.id].visibility && r.value.owner == pls[ref.id].owner
  {
    if ref.BadRef? then Err(BadRequest(InvalidPlaylistIdMsg))
    else if ref.id !in pls then Err(NotFound(NotFoundDataMsg))
    else Ok(ViewOf(videos, users, ref.id, pls[ref.id]))
  }

  // ---------------------------------------------------------------------------
  // getPlaylists

  datatype PlaylistQuery = PlaylistQuery(
    userId: Option<Ref>,
    visibility: Option<string>,
    page: Option<Pos>,
    limit: Option<Pos>)

  datatype PlaylistPage = PlaylistPage(docs: seq<PlaylistView>, meta: PageMeta)

  /** The visibility the extra `$match` asks for, if any: the owner may
      narrow the list to one visibility; anybody else sees public ones
      only. */
  function Wanted(viewer: Id, owner: Id, visibility: Option<string>): (w: Option<string>)
    ensures viewer != owner ==> w == Some("public")
    ensures viewer == owner ==> (w.Some? <==> visibility.Some? && visibility.value != "" && visibility.value != "all")
    ensures w.Some? && viewer == owner ==> w == visibility
  {
    if viewer == owner then
      if visibility.Some? && visibility.value != "" && visibility.value != "all" then visibility else None
    else Some("public")
  }

  /** A playlist document with its key, as the pipeline's stages pass it on
      before the reply is shaped. */
  datatype Entry = Entry(id: Id, playlist: Playlist)

  /** The entry is the stored playlist under its key. */
  predicate StoredEntry(pls: map<Id, Playlist>, e: Entry) {
    e.id in pls && pls[e.id] == e.playlist
  }

  /** `$sort: {updatedAt: -1}`. */
  predicate NewestFirst(a: Entry, b: Entry) {
    a.playlist.updatedAt >= b.playlist.updatedAt
  }

  /** Every key names a stored playlist. */
  predicate KeysIn(pls: map<Id, Playlist>, ks: seq<Id>) {
    forall i :: 0 <= i < |ks| ==> ks[i] in pls
  }

  /** The keys `$match: {owner}` selects, in scan order. */
  function OwnedKeys(pls: map<Id, Playlist>, owner: Id): (ks: seq<Id>)
    ensures forall k :: k in ks <==> k in pls && pls[k].owner == owner
    ensures KeysIn(pls, ks)
  {
    Lookup(pls.Keys, (k: Id) => k in pls && pls[k].owner == owner)
  }

  function EntryRows(pls: map<Id, Playlist>, ks: seq<Id>): (r: seq<Entry>)
    requires KeysIn(pls, ks)
    ensures |r| == |ks|
    ensures forall i :: 0 <= i < |r| ==> r[i] == Entry(ks[i], pls[ks[i]])
  {
    if ks == [] then [] else [Entry(ks[0], pls[ks[0]])] + EntryRows(pls, ks[1..])
  }

  lemma EntryRowsMember(pls: map<Id, Playlist>, ks: seq<Id>, e: Entry)
    requires KeysIn(pls, ks)
    requires e in EntryRows(pls, ks)
    ensures e.id in ks && StoredEntry(pls, e)
  {
    var r := EntryRows(pls, ks);
    var i :| 0 <= i < |r| && r[i] == e;
  }

  lemma EntryRowsHas(pls: map<Id, Playlist>, ks: seq<Id>, k: Id)
    requires KeysIn(pls, ks)
    requires k in ks
    ensures k in pls && Entry(k, pls[k]) in EntryRows(pls, ks)
  {
    var i :| 0 <= i < |ks| && ks[i] == k;
    assert EntryRows(pls, ks)[i] == Entry(k, pls[k]);
  }

  /** The extra `$match: {visibility}` when one is wanted. */
  function Keep(w: Option<string>, es: seq<Entry>): (r: seq<Entry>)
    ensures w.None? ==> r == es
    ensures Subsequence(r, es)
    ensures forall e :: e in r <==> e in es && (w.Some? ==> e.playlist.visibility == w.value)
  {
    if w.None? then
      SubsequenceRefl(es);
      es
    else
      var p := (e: Entry) => e.playlist.visibility == w.value;
      FilterIsSubsequence(es, p);
      Filter(es, p)
  }

  /** What `getPlaylists` lists before paging: the owner's playlists, newest
      update first, filtered by visibility. The nested videos do not take
      part in the sort or the filter, so they are attached to the page only
      (`Views`). */
  function OwnerPlaylists(pls: map<Id, Playlist>, owner: Id, w: Option<string>): (l: seq<Entry>)
    ensures forall i :: 0 <= i < |l| ==> l[i].playlist.owner == owner && (w.Some? ==> l[i].playlist.visibility == w.value)
  {
    var rows := EntryRows(pls, OwnedKeys(pls, owner));
    var l := Keep(w, SortBy(rows, NewestFirst));
    assert forall i :: 0 <= i < |l| ==> l[i].playlist.owner == owner by {
      forall i | 0 <= i < |l|
        ensures l[i].playlist.owner == owner
      {
        assert l[i] in l;
        SortByMember(rows, NewestFirst, l[i]);
        EntryRowsMember(pls, OwnedKeys(pls, owner), l[i]);
      }
    }
    l
  }

  /** The reply rows for the entries of a page, with their nested videos. */
  function Views(videos: map<Id, Video>, users: map<Id, User>, es: seq<Entry>): (r: seq<PlaylistView>)
    ensures |r| == |es|
    ensures forall i :: 0 <= i < |r| ==> r[i] == ViewOf(videos, users, es[i].id, es[i].playlist)
  {
    seq(|es|, i requires 0 <= i < |es| => ViewOf(videos, users, es[i].id, es[i].playlist))
  }

  /** `getPlaylists`: the query checks, then one page of the listing with
      the paginate plugin's metadata. */
  function GetPlaylists(pls: map<Id, Playlist>, videos: map<Id, Video>, users: map<Id, User>,
                        viewer: Id, q: PlaylistQuery): (r: Result<PlaylistPage>)
    ensures q.userId.None? || q.userId == Some(BadRef) ==> r == Err(BadRequest(InvalidUserIdMsg))
    ensures r.Err? && r.error != BadRequest(InvalidUserIdMsg) ==> r.error == BadRequest(QueryVisibilityMsg)
    ensures r.Ok? <==>
      && q.userId.Some? && q.userId.value.Key?
      && (q.visibility.Some? && q.visibility.value != "" ==>
            IsVisibility(q.visibility.value) || q.visibility.value == "all")
    ensures r.Ok? ==> |r.value.docs| <= OrDefault(q.limit, 10)
  {
    if q.userId.None? || q.userId.value.BadRef? then Err(BadRequest(InvalidUserIdMsg))
    else if q.visibility.Some? && q.visibility.value != "" && !IsVisibility(q.visibility.value)
            && q.visibility.value != "all" then
      Err(BadRequest(QueryVisibilityMsg))
    else
      var owner := q.userId.value.id;
      var l := OwnerPlaylists(pls, owner, Wanted(viewer, owner, q.visibility));
      var page, limit := OrDefault(q.page, 1), OrDefault(q.limit, 10);
      Ok(PlaylistPage(Views(videos, users, Slice(l, Skip(page, limit), limit)), PluginMeta(|l|, page, limit)))
  }

  /** A listed entry is one of the owner's playlists that the visibility
      rule lets through. */
  lemma OwnerPlaylistsSound(pls: map<Id, Playlist>, owner: Id, w: Option<string>, e: Entry)
    requires e in OwnerPlaylists(pls, owner, w)
    ensures StoredEntry(pls, e) && e.playlist.owner == owner && (w.Some? ==> e.playlist.visibility == w.value)
  {
    OwnerPlaylistsFromRows(pls, owner, w, e);
    EntryRowsMember(pls, OwnedKeys(pls, owner), e);
  }

  lemma OwnerPlaylistsFromRows(pls: map<Id, Playlist>, owner: Id, w: Option<string>, e: Entry)
    requires e in OwnerPlaylists(pls, owner, w)
    ensures e in EntryRows(pls, OwnedKeys(pls, owner)) && (w.Some? ==> e.playlist.visibility == w.value)
  {
    SortByMember(EntryRows(pls, OwnedKeys(pls, owner)), NewestFirst, e);
  }

  /** The listing holds exactly the owner's playlists that the visibility
      rule lets through. */
  lemma OwnerPlaylistsExact(pls: map<Id, Playlist>, owner: Id, w: Option<string>, k: Id)
    ensures var l := OwnerPlaylists(pls, owner, w);
      && (forall i :: 0 <= i < |l| ==> StoredEntry(pls, l[i]) && l[i].playlist.owner == owner
                                       && (w.Some? ==> l[i].playlist.visibility == w.value))
      && (k in pls && pls[k].owner == owner && (w.Some? ==> pls[k].visibility == w.value) ==>
            Entry(k, pls[k]) in l)
  {
    var l := OwnerPlaylists(pls, owner, w);
    forall i | 0 <= i < |l|
      ensures StoredEntry(pls, l[i]) && l[i].playlist.owner == owner && (w.Some? ==> l[i].playlist.visibility == w.value)
    {
      OwnerPlaylistsSound(pls, owner, w, l[i]);
    }
    if k in pls && pls[k].owner == owner && (w.Some? ==> pls[k].visibility == w.value) {
      OwnerPlaylistsComplete(pls, owner, w, k);
    }
  }

  /** Each of the owner's playlists that the rule lets through is listed. */
  lemma OwnerPlaylistsComplete(pls: map<Id, Playlist>, owner: Id, w: Option<string>, k: Id)
    requires k in pls && pls[k].owner == owner && (w.Some? ==> pls[k].visibility == w.value)
    ensures Entry(k, pls[k]) in OwnerPlaylists(pls, owner, w)
  {
    OwnedEntryRow(pls, owner, k);
    OwnerPlaylistsKeeps(pls, owner, w, Entry(k, pls[k]));
  }

  lemma OwnedEntryRow(pls: map<Id, Playlist>, owner: Id, k: Id)
    requires k in pls && pls[k].owner == owner
    ensures Entry(k, pls[k]) in EntryRows(pls, OwnedKeys(pls, owner))
  {
    EntryRowsHas(pls, OwnedKeys(pls, owner), k);
  }

  lemma OwnerPlaylistsKeeps(pls: map<Id, Playlist>, owner: Id, w: Option<string>, e: Entry)
    requires e in EntryRows(pls, OwnedKeys(pls, owner)) && (w.Some? ==> e.playlist.visibility == w.value)
    ensures e in OwnerPlaylists(pls, owner, w)
  {
    KeptAfterSort(w, EntryRows(pls, OwnedKeys(pls, owner)), e);
  }

  /** Sorting and then filtering keeps an entry the filter lets through. */
  lemma KeptAfterSort(w: Option<string>, es: seq<Entry>, e: Entry)
    requires e in es && (w.Some? ==> e.playlist.visibility == w.value)
    ensures e in Keep(w, SortBy(es, NewestFirst))
  {
    SortByMember(es, NewestFirst, e);
  }

  /** The listing is newest update first. */
  lemma OwnerPlaylistsSorted(pls: map<Id, Playlist>, owner: Id, w: Option<string>)
    ensures SortedBy(OwnerPlaylists(pls, owner, w), NewestFirst)
  {
    var rows := EntryRows(pls, OwnedKeys(pls, owner));
    var sorted := SortBy(rows, NewestFirst);
    assert TotalPreorder(NewestFirst);
    SortBySorted(rows, NewestFirst);
    SubsequenceSortedBy(Keep(w, sorted), sorted, NewestFirst);
  }

  /** Somebody else's listing holds only public playlists; the owner's is
      narrowed to the visibility asked for. */
  lemma GetPlaylistsVisibility(pls: map<Id, Playlist>, videos: map<Id, Video>, users: map<Id, User>,
                               viewer: Id, q: PlaylistQuery, i: nat)
    requires GetPlaylists(pls, videos, users, viewer, q).Ok?
    requires i < |GetPlaylists(pls, videos, users, viewer, q).value.docs|
    ensures var d := GetPlaylists(pls, videos, users, viewer, q).value.docs[i];
      && IsViewIn(pls, videos, users, d)
      && d.owner == q.userId.value.id
      && (viewer != q.userId.value.id ==> d.visibility == "public")
      && (viewer == q.userId.value.id && q.visibility.Some? && q.visibility.value in {"public", "private"} ==>
            d.visibility == q.visibility.value)
  {
    var owner := q.userId.value.id;
    var w := Wanted(viewer, owner, q.visibility);
    var l := OwnerPlaylists(pls, owner, w);
    var page, limit := OrDefault(q.page, 1), OrDefault(q.limit, 10);
    var es := Slice(l, Skip(page, limit), limit);
    GetPlaylistsDocs(pls, videos, users, viewer, q);
    SliceMember(l, Skip(page, limit), limit, i);
    OwnerPlaylistsSound(pls, owner, w, es[i]);
    ViewsStored(pls, videos, users, es, i);
  }

  /** The docs are the views of the listing's window. */
  lemma GetPlaylistsDocs(pls: map<Id, Playlist>, videos: map<Id, Video>, users: map<Id, User>,
                         viewer: Id, q: PlaylistQuery)
    requires GetPlaylists(pls, videos, users, viewer, q).Ok?
    ensures var owner := q.userId.value.id;
      var l := OwnerPlaylists(pls, owner, Wanted(viewer, owner, q.visibility));
      var page, limit := OrDefault(q.page, 1), OrDefault(q.limit, 10);
      GetPlaylists(pls, videos, users, viewer, q).value.docs == Views(videos, users, Slice(l, Skip(page, limit), limit))
  {
  }

  /** The reply row of a stored entry is the view of that playlist. */
  lemma ViewsStored(pls: map<Id, Playlist>, videos: map<Id, Video>, users: map<Id, User>, es: seq<Entry>, i: nat)
    requires i < |es| && StoredEntry(pls, es[i])
    ensures var d := Views(videos, users, es)[i];
      IsViewIn(pls, videos, users, d) && d.owner == es[i].playlist.owner && d.visibility == es[i].playlist.visibility
  {
  }

  /** Each page is newest update first. */
  lemma GetPlaylistsSorted(pls: map<Id, Playlist>, videos: map<Id, Video>, users: map<Id, User>,
                           viewer: Id, q: PlaylistQuery)
    requires GetPlaylists(pls, videos, users, viewer, q).Ok?
    ensures var docs := GetPlaylists(pls, videos, users, viewer, q).value.docs;
      forall i, j :: 0 <= i < j < |docs| ==> docs[i].updatedAt >= docs[j].updatedAt
  {
    var owner := q.userId.value.id;
    var w := Wanted(viewer, owner, q.visibility);
    var l := OwnerPlaylists(pls, owner, w);
    var page, limit := OrDefault(q.page, 1), OrDefault(q.limit, 10);
    var es := Slice(l, Skip(page, limit), limit);
    OwnerPlaylistsSorted(pls, owner, w);
    SliceSortedBy(l, NewestFirst, Skip(page, limit), limit);
    var docs := GetPlaylists(pls, videos, users, viewer, q).value.docs;
    assert docs == Views(videos, users, es);
    forall i, j | 0 <= i < j < |docs|
      ensures docs[i].updatedAt >= docs[j].updatedAt
    {
      assert NewestFirst(es[i], es[j]);
    }
  }

  /** Every playlist of the owner the rule lets through is on some page:
      the pages 1 to `totalPages` together are the listing, and an empty
      listing reports one (empty) page. */
  lemma GetPlaylistsPagesCover(pls: map<Id, Playlist>, videos: map<Id, Video>, users: map<Id, User>,
                               viewer: Id, owner: Id, visibility: Option<string>, limit: Pos)
    ensures var l := OwnerPlaylists(pls, owner, Wanted(viewer, owner, visibility));
      var q := PlaylistQuery(Some(Key(owner)), visibility, Some(1), Some(limit));
      GetPlaylists(pls, videos, users, viewer, q).Ok? ==>
        var t := GetPlaylists(pls, videos, users, viewer, q).value.meta.totalPages;
        && t == (if |l| == 0 then 1 else CeilDiv(|l|, limit))
        && PagesFrom(l, limit, 1, t) == l
  {
    var l := OwnerPlaylists(pls, owner, Wanted(viewer, owner, visibility));
    var q := PlaylistQuery(Some(Key(owner)), visibility, Some(1), Some(limit));
    if GetPlaylists(pls, videos, users, viewer, q).Ok? {
      assert GetPlaylists(pls, videos, users, viewer, q).value.meta == PluginMeta(|l|, 1, limit);
      if |l| == 0 {
        assert PagesFrom(l, limit, 2, 0) == [];
      } else {
        PagesCover(l, limit);
      }
    }
  }

  /** A listed playlist reads the same through `getPlaylistData`. */
  lemma ListedIsData(pls: map<Id, Playlist>, videos: map<Id, Video>, users: map<Id, User>,
                     viewer: Id, q: PlaylistQuery, i: nat)
    requires GetPlaylists(pls, videos, users, viewer, q).Ok?
    requires i < |GetPlaylists(pls, videos, users, viewer, q).value.docs|
    ensures var d := GetPlaylists(pls, videos, users, viewer, q).value.docs[i];
      PlaylistData(pls, videos, users, Key(d.id)) == Ok(d)
  {
    GetPlaylistsVisibility(pls, videos, users, viewer, q, i);
  }

  // ---------------------------------------------------------------------------
  // getPlaylistOptions

  /** A playlist offered for a video, with `isPresent` telling whether the
      video is already in it. */
  datatype PlaylistOption = PlaylistOption(id: Id, playlist: Playlist, isPresent: bool)

  /** `$sort: {title: 1}`. */
  predicate TitleFirst(a: PlaylistOption, b: PlaylistOption) {
    StrLe(a.playlist.title, b.playlist.title)
  }

  function OptionRows(pls: map<Id, Playlist>, ks: seq<Id>, vid: Id): (r: seq<PlaylistOption>)
    requires KeysIn(pls, ks)
    ensures |r| == |ks|
    ensures forall i :: 0 <= i < |r| ==> r[i] == PlaylistOption(ks[i], pls[ks[i]], vid in pls[ks[i]].videos)
  {
    if ks == [] then [] else [PlaylistOption(ks[0], pls[ks[0]], vid in pls[ks[0]].videos)] + OptionRows(pls, ks[1..], vid)
  }

  /** The viewer's playlists with `isPresent`, by title. */
  function AllOptions(pls: map<Id, Playlist>, viewer: Id, vid: Id): seq<PlaylistOption> {
    var ks := OwnedKeys(pls, viewer);
    SortBy(OptionRows(pls, ks, vid), TitleFirst)
  }

  /** `getPlaylistOptions`: the first page (ten, the paginate plugin's
      default) of the viewer's playlists by title. A malformed video id
      makes `new ObjectId` throw. */
  function PlaylistOptions(pls: map<Id, Playlist>, viewer: Id, videoRef: Ref): (r: Result<seq<PlaylistOption>>)
    ensures r.Err? <==> videoRef.BadRef?
    ensures r.Err? ==> r.error == Thrown(InvalidObjectIdMsg)
    ensures r.Ok? ==> |r.value| <= 10
  {
    if videoRef.BadRef? then Err(Thrown(InvalidObjectIdMsg))
    else Ok(Slice(AllOptions(pls, viewer, videoRef.id), 0, 10))
  }

  lemma OptionRowsMember(pls: map<Id, Playlist>, ks: seq<Id>, vid: Id, o: PlaylistOption)
    requires KeysIn(pls, ks)
    requires o in OptionRows(pls, ks, vid)
    ensures o.id in ks && o == PlaylistOption(o.id, pls[o.id], vid in pls[o.id].videos)
  {
    var r := OptionRows(pls, ks, vid);
    var i :| 0 <= i < |r| && r[i] == o;
  }

  lemma OptionRowsHas(pls: map<Id, Playlist>, ks: seq<Id>, vid: Id, k: Id)
    requires KeysIn(pls, ks)
    requires k in ks
    ensures k in pls && PlaylistOption(k, pls[k], vid in pls[k].videos) in OptionRows(pls, ks, vid)
  {
    var i :| 0 <= i < |ks| && ks[i] == k;
    assert OptionRows(pls, ks, vid)[i] == PlaylistOption(k, pls[k], vid in pls[k].videos);
  }

  /** Every option of the viewer's is one of the viewer's playlists with
      `isPresent` set, and every such playlist is an option. */
  lemma AllOptionsExact(pls: map<Id, Playlist>, viewer: Id, vid: Id, o: PlaylistOption)
    ensures o in AllOptions(pls, viewer, vid) <==>
      o.id in pls && o.playlist == pls[o.id] && o.playlist.owner == viewer
      && o.isPresent == (vid in pls[o.id].videos)
  {
    var ks := OwnedKeys(pls, viewer);
    var rows := OptionRows(pls, ks, vid);
    SortByMember(rows, TitleFirst, o);
    if o in rows {
      OptionRowsMember(pls, ks, vid, o);
    }
    if o.id in pls && o.playlist == pls[o.id] && o.playlist.owner == viewer && o.isPresent == (vid in pls[o.id].videos) {
      OptionRowsHas(pls, ks, vid, o.id);
    }
  }

  lemma AllOptionsSorted(pls: map<Id, Playlist>, viewer: Id, vid: Id)
    ensures SortedBy(AllOptions(pls, viewer, vid), TitleFirst)
  {
    TitleFirstIsTotalPreorder();
    SortBySorted(OptionRows(pls, OwnedKeys(pls, viewer), vid), TitleFirst);
  }

  lemma TitleFirstIsTotalPreorder()
    ensures TotalPreorder(TitleFirst)
  {
    forall a: PlaylistOption, b: PlaylistOption
      ensures TitleFirst(a, b) || TitleFirst(b, a)
    {
      StrLeTotal(a.playlist.title, b.playlist.title);
    }
    forall a: PlaylistOption, b: PlaylistOption, c: PlaylistOption | TitleFirst(a, b) && TitleFirst(b, c)
      ensures TitleFirst(a, c)
    {
      StrLeTransitive(a.playlist.title, b.playlist.title, c.playlist.title);
    }
  }

  /** Each option is one of the viewer's playlists, and `isPresent` holds
      exactly when the video is in it. */
  lemma OptionsSound(pls: map<Id, Playlist>, viewer: Id, vid: Id, i: nat)
    requires i < |PlaylistOptions(pls, viewer, Key(vid)).value|
    ensures var o := PlaylistOptions(pls, viewer, Key(vid)).value[i];
      && o.id in pls && o.playlist == pls[o.id] && o.playlist.owner == viewer
      && (o.isPresent <==> vid in pls[o.id].videos)
  {
    var all := AllOptions(pls, viewer, vid);
    var o := PlaylistOptions(pls, viewer, Key(vid)).value[i];
    assert o == all[i];
    AllOptionsExact(pls, viewer, vid, o);
  }

  /** The options come by title, and a playlist of the viewer that is left
      out sorts at or after every option shown. */
  lemma OptionsAreFirstByTitle(pls: map<Id, Playlist>, viewer: Id, vid: Id, k: Id)
    requires k in pls && pls[k].owner == viewer
    ensures var r := PlaylistOptions(pls, viewer, Key(vid)).value;
      && SortedBy(r, TitleFirst)
      && (PlaylistOption(k, pls[k], vid in pls[k].videos) !in r ==>
            forall i :: 0 <= i < |r| ==> StrLe(r[i].playlist.title, pls[k].title))
  {
    var all := AllOptions(pls, viewer, vid);
    OptionsWindow(pls, viewer, vid);
    AllOptionsSorted(pls, viewer, vid);
    SliceSortedBy(all, TitleFirst, 0, 10);
    var o := PlaylistOption(k, pls[k], vid in pls[k].videos);
    if o !in Slice(all, 0, 10) {
      AllOptionsExact(pls, viewer, vid, o);
      LeftOutSortsAfter(all, TitleFirst, 10, o);
    }
  }

  lemma OptionsWindow(pls: map<Id, Playlist>, viewer: Id, vid: Id)
    ensures PlaylistOptions(pls, viewer, Key(vid)).value == Slice(AllOptions(pls, viewer, vid), 0, 10)
  {
  }

  // ---------------------------------------------------------------------------
  // updatePlaylist

  /** The document after `findByIdAndUpdate`: the title, and each other
      field the body gives (Mongoose drops the undefined ones), with the
      schema's timestamp. Update validators do not run. */
  function Updated(p: Playlist, b: Body, now: Time): (q: Playlist)
    requires b.title.Some? && (b.videos.Some? ==> AllKeys(b.videos.value))
    ensures q.title == b.title.value && q.owner == p.owner && q.createdAt == p.createdAt && q.updatedAt == now
    ensures q.description == if b.description.Some? then b.description else p.description
    ensures q.visibility == if b.visibility.Some? then b.visibility.value else p.visibility
    ensures b.videos.None? ==> q.videos == p.videos
    ensures b.videos.Some? ==>
      |q.videos| == |b.videos.value| && forall i :: 0 <= i < |q.videos| ==> Key(q.videos[i]) == b.videos.value[i]
  {
    p.(title := b.title.value,
       description := if b.description.Some? then b.description else p.description,
       visibility := if b.visibility.Some? then b.visibility.value else p.visibility,
       videos := if b.videos.Some? then KeysOf(b.videos.value) else p.videos,
       updatedAt := now)
  }

  /** The lookup and ownership checks shared by update and delete; they run
      before the body is looked at. */
  function Guard(pls: map<Id, Playlist>, ref: Ref, viewer: Id, denied: string): (e: Option<Error>)
    ensures e.None? <==> ref.Key? && ref.id in pls && pls[ref.id].owner == viewer
    ensures ref.BadRef? ==> e == Some(BadRequest(InvalidPlaylistIdMsg))
    ensures ref.Key? && ref.id !in pls ==> e == Some(NotFound(NotFoundMsg))
    ensures ref.Key? && ref.id in pls && pls[ref.id].owner != viewer ==> e == Some(Unauthorized(denied))
  {
    if ref.BadRef? then Some(BadRequest(InvalidPlaylistIdMsg))
    else if ref.id !in pls then Some(NotFound(NotFoundMsg))
    else if pls[ref.id].owner != viewer then Some(Unauthorized(denied))
    else None
  }

  /** `updatePlaylist`: the guard, the body checks, the write, and the
      updated playlist read back with its nested videos. */
  function Update(pls: map<Id, Playlist>, videos: map<Id, Video>, users: map<Id, User>,
                  ref: Ref, b: Body, viewer: Id, now: Time): (c: Change<PlaylistView>)
    ensures c.reply.Err? ==> c.playlists == pls
    ensures Guard(pls, ref, viewer, CannotUpdateMsg).Some? ==> c.reply == Err(Guard(pls, ref, viewer, CannotUpdateMsg).value)
    ensures Guard(pls, ref, viewer, CannotUpdateMsg).None? && CheckBody(b).Some? ==> c.reply == Err(CheckBody(b).value)
    ensures c.reply.Ok? <==> Guard(pls, ref, viewer, CannotUpdateMsg).None? && CheckBody(b).None?
    ensures c.reply.Ok? ==>
      && c.playlists == pls[ref.id := Updated(pls[ref.id], b, now)]
      && c.reply.value == ViewOf(videos, users, ref.id, c.playlists[ref.id])
  {
    match Guard(pls, ref, viewer, CannotUpdateMsg)
    case Some(e) => Change(Err(e), pls)
    case None =>
      match CheckBody(b)
      case Some(e) => Change(Err(e), pls)
      case None =>
        var after := pls[ref.id := Updated(pls[ref.id], b, now)];
        Change(Ok(ViewOf(videos, users, ref.id, after[ref.id])), after)
  }

  /** An update touches only the one playlist, which keeps its owner. */
  lemma UpdateFrame(pls: map<Id, Playlist>, videos: map<Id, Video>, users: map<Id, User>,
                    ref: Ref, b: Body, viewer: Id, now: Time, k: Id)
    requires k in pls
    ensures var after := Update(pls, videos, users, ref, b, viewer, now).playlists;
      && after.Keys == pls.Keys
      && (after[k] != pls[k] ==> ref == Key(k) && pls[k].owner == viewer && after[k].owner == viewer)
  {
  }

  /** After an update the playlist reads back as the reply. */
  lemma UpdateThenRead(pls: map<Id, Playlist>, videos: map<Id, Video>, users: map<Id, User>,
                       ref: Ref, b: Body, viewer: Id, now: Time)
    requires Update(pls, videos, users, ref, b, viewer, now).reply.Ok?
    ensures var c := Update(pls, videos, users, ref, b, viewer, now);
      PlaylistData(c.playlists, videos, users, ref) == c.reply
  {
  }

  /** An empty visibility passes the check and is stored by the update,
      leaving a playlist whose visibility the schema does not allow. */
  lemma UpdateStoresEmptyVisibility()
    ensures var pls := map[1 := Playlist("mix", None, "public", [], 7, 0, 0)];
      var c := Update(pls, map[], map[], Key(1), Body(Some("mix"), None, Some(""), None), 7, 5);
      && ValidVisibility(pls)
      && c.reply.Ok? && c.playlists[1].visibility == ""
      && !ValidVisibility(c.playlists)
  {
    var pls := map[1 := Playlist("mix", None, "public", [], 7, 0, 0)];
    var b := Body(Some("mix"), None, Some(""), None);
    EmptyVisibilityPasses(b);
    assert Guard(pls, Key(1), 7, CannotUpdateMsg).None?;
    UpdateStoresGivenVisibility(pls, map[], map[], Key(1), b, 7, 5);
  }

  /** The body of the example passes the controller's checks. */
  lemma EmptyVisibilityPasses(b: Body)
    requires b == Body(Some("mix"), None, Some(""), None)
    ensures CheckBody(b).None?
  {
    assert !IsJsSpace("mix"[0]);
    assert !IsBlank("mix");
  }

  /** A successful update stores the visibility the body gives, unchecked
      against the schema. */
  lemma UpdateStoresGivenVisibility(pls: map<Id, Playlist>, videos: map<Id, Video>, users: map<Id, User>,
                                    ref: Ref, b: Body, viewer: Id, now: Time)
    requires Guard(pls, ref, viewer, CannotUpdateMsg).None? && CheckBody(b).None? && b.visibility.Some?
    ensures var c := Update(pls, videos, users, ref, b, viewer, now);
      c.reply.Ok? && ref.id in c.playlists && c.playlists[ref.id].visibility == b.visibility.value
  {
  }

  /** The update with the intended check: any visibility given must be
      "public" or "private". */
  function CheckedUpdate(pls: map<Id, Playlist>, videos: map<Id, Video>, users: map<Id, User>,
                         ref: Ref, b: Body, viewer: Id, now: Time): (c: Change<PlaylistView>)
    ensures c.reply.Err? ==> c.playlists == pls
    ensures (b.visibility.Some? && !IsVisibility(b.visibility.value) && Guard(pls, ref, viewer, CannotUpdateMsg).None?
             && b.title.Some? && !IsBlank(b.title.value)) ==> c.reply == Err(BadRequest(VisibilityMsg))
    ensures c.reply.Ok? ==> c == Update(pls, videos, users, ref, b, viewer, now)
    ensures ValidVisibility(pls) ==> ValidVisibility(c.playlists)
  {
    var c := Update(pls, videos, users, ref, b, viewer, now);
    if Guard(pls, ref, viewer, CannotUpdateMsg).None? && b.title.Some? && !IsBlank(b.title.value)
       && b.visibility.Some? && !IsVisibility(b.visibility.value) then
      Change(Err(BadRequest(VisibilityMsg)), pls)
    else c
  }

  method UpdatePlaylist(db: Store, ref: Ref, b: Body, viewer: Id, now: Time) returns (reply: Result<PlaylistView>)
    modifies db`playlists
    ensures Change(reply, db.playlists) == Update(old(db.playlists), db.videos, db.users, ref, b, viewer, now)
  {
    var e := Guard(db.playlists, ref, viewer, CannotUpdateMsg);
    if e.Some? {
      return Err(e.value);
    }
    e := CheckBody(b);
    if e.Some? {
      return Err(e.value);
    }
    db.playlists := db.playlists[ref.id := Updated(db.playlists[ref.id], b, now)];
    reply := Ok(ViewOf(db.videos, db.users, ref.id, db.playlists[ref.id]));
  }

  // ---------------------------------------------------------------------------
  // deletePlaylist

  /** `deletePlaylist`: the guard, then the removal. */
  function Delete(pls: map<Id, Playlist>, ref: Ref, viewer: Id): (c: Change<string>)
    ensures c.reply.Err? ==> c.playlists == pls
    ensures Guard(pls, ref, viewer, CannotDeleteMsg).Some? ==> c.reply == Err(Guard(pls, ref, viewer, CannotDeleteMsg).value)
    ensures c.reply.Ok? <==> ref.Key? && ref.id in pls && pls[ref.id].owner == viewer
    ensures c.reply.Ok? ==>
      c.reply.value == "Playlist deleted successfully" && ref.id !in c.playlists && c.playlists == pls - {ref.id}
  {
    match Guard(pls, ref, viewer, CannotDeleteMsg)
    case Some(e) => Change(Err(e), pls)
    case None => Change(Ok("Playlist deleted successfully"), pls - {ref.id})
  }

  /** Deleting keeps every other playlist, and the deleted one no longer
      reads back. */
  lemma DeleteFrame(pls: map<Id, Playlist>, videos: map<Id, Video>, users: map<Id, User>, ref: Ref, viewer: Id, k: Id)
    requires k in pls && ref != Key(k)
    ensures k in Delete(pls, ref, viewer).playlists && Delete(pls, ref, viewer).playlists[k] == pls[k]
    ensures Delete(pls, ref, viewer).reply.Ok? ==> PlaylistData(Delete(pls, ref, viewer).playlists, videos, users, ref).Err?
  {
  }

  method DeletePlaylist(db: Store, ref: Ref, viewer: Id) returns (reply: Result<string>)
    modifies db`playlists
    ensures Change(reply, db.playlists) == Delete(old(db.playlists), ref, viewer)
  {
    var e := Guard(db.playlists, ref, viewer, CannotDeleteMsg);
    if e.Some? {
      return Err(e.value);
    }
    db.playlists := db.playlists - {ref.id};
    reply := Ok("Playlist deleted successfully");
  }
}
