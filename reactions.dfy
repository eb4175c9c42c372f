/** The like/dislike toggle shared by videos, comments and tweets, and the
    list of a user's liked videos. */
module Reactions {
  import opened Common
  import opened Entities
  import opened Seqs
  import opened Ordering
  import opened Paging
  import opened Db

  /** The collection a toggle request targets. */
  datatype TargetKind = VideoKind | CommentKind | TweetKind

  /** The accepted values of the `likeType` query parameter. */
  datatype Request = LikeReq | DislikeReq | DeleteReq

  function TargetOf(kind: TargetKind, id: Id): (t: Target)
    ensures t.id == id
  {
    match kind
    case VideoKind => OnVideo(id)
    case CommentKind => OnComment(id)
    case TweetKind => OnTweet(id)
  }

  function Noun(kind: TargetKind): string {
    match kind
    case VideoKind => "Video"
    case CommentKind => "Comment"
    case TweetKind => "Tweet"
  }

  const InvalidLikeTypeMsg := "Invalid likeType! It should be either 'like', 'dislike' or 'delete'"
  const NotMadeMsg := "You can't delete a like that you haven't made!"

  function InvalidIdMsg(kind: TargetKind): string {
    match kind
    case VideoKind => "VideoId is Invalid!"
    case CommentKind => "Comment is Invalid!"
    case TweetKind => "Tweet is Invalid!"
  }

  /** `["like", "dislike", "delete"].includes(likeType)`; an absent parameter
      is not included. */
  function ParseLikeType(raw: Option<string>): (r: Option<Request>)
    ensures r == Some(LikeReq) <==> raw == Some("like")
    ensures r == Some(DislikeReq) <==> raw == Some("dislike")
    ensures r == Some(DeleteReq) <==> raw == Some("delete")
  {
    if raw == Some("like") then Some(LikeReq)
    else if raw == Some("dislike") then Some(DislikeReq)
    else if raw == Some("delete") then Some(DeleteReq)
    else None
  }

  /** The 400 reply when there is no record and the target is gone. */
  function GoneMsg(kind: TargetKind): string {
    Noun(kind) + " does not exists anymore!"
  }

  /** The reply to a "delete", naming the kind of the removed record. */
  function RemovedMsg(kind: TargetKind, former: LikeType): string {
    Noun(kind) + " removed from your " + (if former == Like then "Like" else "Dislike") + " List"
  }

  /** The reply to a "like" or "dislike" that updated or created a record. */
  function DoneMsg(kind: TargetKind, t: LikeType): string {
    Noun(kind) + " " + (if t == Like then "Liked" else "Disliked") + " Successfully"
  }

  /** The record kind a like or dislike request asks for. */
  function KindOf(req: Request): LikeType {
    if req == DislikeReq then Dislike else Like
  }

  /** The reaction a request leaves behind: none after "delete". */
  function Desired(req: Request): Option<LikeType> {
    if req == DeleteReq then None else Some(KindOf(req))
  }

  predicate IsRecordOf(r: Reaction, actor: Id, target: Target) {
    r.target == target && r.likedBy == actor
  }

  /** The invariant of the Like collection: at most one record per actor and
      target. */
  ghost predicate OnePerActorTarget(likes: map<Id, Reaction>) {
    forall j, k :: j in likes && k in likes && j != k ==>
      !IsRecordOf(likes[j], likes[k].likedBy, likes[k].target)
  }

  /** `Like.findOne({<target>: id, likedBy: actor})`: the first matching record
      in scan order, or none. */
  function FindReaction(likes: map<Id, Reaction>, actor: Id, target: Target): (r: Option<Id>)
    ensures r.Some? ==> r.value in likes && IsRecordOf(likes[r.value], actor, target)
    ensures r.Some? ==> forall k :: k in likes && IsRecordOf(likes[k], actor, target) ==> r.value <= k
    ensures r.None? ==> forall k :: k in likes ==> !IsRecordOf(likes[k], actor, target)
  {
    var ks := set k | k in likes && IsRecordOf(likes[k], actor, target);
    assert forall k :: k in likes && IsRecordOf(likes[k], actor, target) ==> k in ks;
    if ks == {} then None else Some(MinKey(ks))
  }

  /** The reaction `actor` currently has on `target`. */
  function ReactionOf(likes: map<Id, Reaction>, actor: Id, target: Target): (r: Option<LikeType>)
    ensures r.None? <==> forall k :: k in likes ==> !IsRecordOf(likes[k], actor, target)
    ensures OnePerActorTarget(likes) ==>
      forall k :: k in likes && IsRecordOf(likes[k], actor, target) ==> r == Some(likes[k].likeType)
  {
    var f := FindReaction(likes, actor, target);
    if f.Some? then Some(likes[f.value].likeType) else None
  }

  /** The reply and the Like collection after one toggle request. */
  datatype Outcome = Outcome(reply: Result<string>, likes: map<Id, Reaction>)

  /** One toggle request. `targets` are the keys of the collection `kind`
      names. The steps run in the source's order: the `likeType` check, the id
      check, the lookup of an existing record (deleted or updated in place
      when found), the target existence check, the rejection of "delete", and
      the creation of a new record. */
  function Toggle(likes: map<Id, Reaction>, targets: set<Id>, kind: TargetKind, ref: Ref,
                  actor: Id, rawType: Option<string>, now: Time): (o: Outcome)
    ensures ParseLikeType(rawType).None? ==> o == Outcome(Err(BadRequest(InvalidLikeTypeMsg)), likes)
    ensures o.reply.Err? ==> o.likes == likes
    ensures OnePerActorTarget(likes) ==> OnePerActorTarget(o.likes)
    ensures o.reply.Ok? ==> ref.Key? && ParseLikeType(rawType).Some?
    ensures ref.Key? && ParseLikeType(rawType).Some? ==>
      (o.reply.Ok? <==>
        (FindReaction(likes, actor, TargetOf(kind, ref.id)).Some? ||
         (ref.id in targets && ParseLikeType(rawType) != Some(DeleteReq))))
    ensures ParseLikeType(rawType).Some? && ref.BadRef? ==> o == Outcome(Err(BadRequest(InvalidIdMsg(kind))), likes)
    // A request with no record: the target check comes first, even for "delete".
    ensures ParseLikeType(rawType).Some? && ref.Key? && FindReaction(likes, actor, TargetOf(kind, ref.id)).None? ==>
      && (ref.id !in targets ==> o.reply == Err(BadRequest(GoneMsg(kind))))
      && (ref.id in targets && ParseLikeType(rawType) == Some(DeleteReq) ==> o.reply == Err(BadRequest(NotMadeMsg)))
      && (ref.id in targets && ParseLikeType(rawType) != Some(DeleteReq) ==>
            var req := ParseLikeType(rawType).value;
            var k := FreshKey(likes.Keys);
            && o.reply == Ok(DoneMsg(kind, KindOf(req)))
            && k !in likes
            && o.likes == likes[k := Reaction(TargetOf(kind, ref.id), KindOf(req), actor, now)])
    // A request with a record: "delete" removes exactly it and names its kind;
    // otherwise only its likeType changes, so its createdAt is kept.
    ensures ParseLikeType(rawType).Some? && ref.Key? && FindReaction(likes, actor, TargetOf(kind, ref.id)).Some? ==>
      var req := ParseLikeType(rawType).value;
      var k := FindReaction(likes, actor, TargetOf(kind, ref.id)).value;
      && (req == DeleteReq ==> o.reply == Ok(RemovedMsg(kind, likes[k].likeType)) && o.likes == likes - {k})
      && (req != DeleteReq ==>
            && o.reply == Ok(DoneMsg(kind, KindOf(req)))
            && o.likes.Keys == likes.Keys
            && o.likes[k] == likes[k].(likeType := KindOf(req))
            && forall j :: j in likes && j != k ==> o.likes[j] == likes[j])
  {
    var req := ParseLikeType(rawType);
    if req.None? then Outcome(Err(BadRequest(InvalidLikeTypeMsg)), likes)
    else if ref.BadRef? then Outcome(Err(BadRequest(InvalidIdMsg(kind))), likes)
    else
      var target := TargetOf(kind, ref.id);
      var found := FindReaction(likes, actor, target);
      if found.Some? then
        var k := found.value;
        if req.value == DeleteReq then
          Outcome(Ok(RemovedMsg(kind, likes[k].likeType)), likes - {k})
        else
          UpdatePreservesUnique(likes, k, KindOf(req.value));
          Outcome(Ok(DoneMsg(kind, KindOf(req.value))), likes[k := likes[k].(likeType := KindOf(req.value))])
      else if ref.id !in targets then
        Outcome(Err(BadRequest(GoneMsg(kind))), likes)
      else if req.value == DeleteReq then
        Outcome(Err(BadRequest(NotMadeMsg)), likes)
      else
        var k := FreshKey(likes.Keys);
        Outcome(Ok(DoneMsg(kind, KindOf(req.value))),
                likes[k := Reaction(target, KindOf(req.value), actor, now)])
  }

  lemma UpdatePreservesUnique(likes: map<Id, Reaction>, k: Id, t: LikeType)
    requires k in likes
    ensures OnePerActorTarget(likes) ==> OnePerActorTarget(likes[k := likes[k].(likeType := t)])
  {
    var m := likes[k := likes[k].(likeType := t)];
    if OnePerActorTarget(likes) {
      forall i, j | i in m && j in m && i != j
        ensures !IsRecordOf(m[i], m[j].likedBy, m[j].target)
      {
        assert IsRecordOf(m[i], m[j].likedBy, m[j].target) ==> IsRecordOf(likes[i], likes[j].likedBy, likes[j].target);
      }
    }
  }

  /** The target keys of the collection `kind` names. */
  function TargetKeys(db: Store, kind: TargetKind): set<Id>
    reads db
  {
    match kind
    case VideoKind => db.videos.Keys
    case CommentKind => db.comments.Keys
    case TweetKind => db.tweets
  }

  /** `toggleVideoLike`, `toggleCommentLike` and `toggleTweetLike`: find the
      actor's record for the target, then delete, update or create one. */
  method ToggleReaction(db: Store, kind: TargetKind, ref: Ref, actor: Id, rawType: Option<string>, now: Time)
    returns (reply: Result<string>)
    modifies db`likes
    ensures Outcome(reply, db.likes) == Toggle(old(db.likes), TargetKeys(db, kind), kind, ref, actor, rawType, now)
  {
    var req := ParseLikeType(rawType);
    if req.None? {
      return Err(BadRequest(InvalidLikeTypeMsg));
    }
    if ref.BadRef? {
      return Err(BadRequest(InvalidIdMsg(kind)));
    }
    var target := TargetOf(kind, ref.id);
    var found := FindReaction(db.likes, actor, target);
    if found.Some? {
      var k := found.value;
      if req.value == DeleteReq {
        var former := db.likes[k].likeType;
        db.likes := db.likes - {k};
        return Ok(RemovedMsg(kind, former));
      }
      db.likes := db.likes[k := db.likes[k].(likeType := KindOf(req.value))];
      return Ok(DoneMsg(kind, KindOf(req.value)));
    }
    if ref.id !in TargetKeys(db, kind) {
      return Err(BadRequest(GoneMsg(kind)));
    }
    if req.value == DeleteReq {
      return Err(BadRequest(NotMadeMsg));
    }
    var k := FreshKey(db.likes.Keys);
    db.likes := db.likes[k := Reaction(target, KindOf(req.value), actor, now)];
    reply := Ok(DoneMsg(kind, KindOf(req.value)));
  }

  /** A valid request whose record exists, or whose target exists, or which
      is a "delete", leaves the actor with the reaction the request names. */
  lemma {:induction false} ToggleReachesDesired(likes: map<Id, Reaction>, targets: set<Id>, kind: TargetKind,
                                                id: Id, actor: Id, rawType: Option<string>, now: Time)
    requires OnePerActorTarget(likes)
    requires ParseLikeType(rawType).Some?
    requires FindReaction(likes, actor, TargetOf(kind, id)).Some? || id in targets
             || ParseLikeType(rawType) == Some(DeleteReq)
    ensures ReactionOf(Toggle(likes, targets, kind, Key(id), actor, rawType, now).likes, actor, TargetOf(kind, id))
            == Desired(ParseLikeType(rawType).value)
  {
    var target := TargetOf(kind, id);
    var req := ParseLikeType(rawType).value;
    var o := Toggle(likes, targets, kind, Key(id), actor, rawType, now);
    var found := FindReaction(likes, actor, target);
    if found.Some? {
      var k := found.value;
      if req == DeleteReq {
        assert o.likes == likes - {k};
        forall j | j in o.likes
          ensures !IsRecordOf(o.likes[j], actor, target)
        {
          assert j != k && j in likes;
        }
      } else {
        assert o.likes == likes[k := likes[k].(likeType := KindOf(req))];
        var f := FindReaction(o.likes, actor, target);
        assert IsRecordOf(o.likes[k], actor, target);
        assert f.Some?;
      }
    } else if req != DeleteReq {
      var k := FreshKey(likes.Keys);
      assert o.likes == likes[k := Reaction(target, KindOf(req), actor, now)];
      var f := FindReaction(o.likes, actor, target);
      assert IsRecordOf(o.likes[k], actor, target);
      assert f.Some?;
    } else {
      assert o.likes == likes;
    }
  }

  /** A toggle changes no other actor's or target's reaction. */
  lemma {:induction false} ToggleFrames(likes: map<Id, Reaction>, targets: set<Id>, kind: TargetKind,
                                        ref: Ref, actor: Id, rawType: Option<string>, now: Time,
                                        other: Id, otherTarget: Target)
    requires ref.Key? ==> (other, otherTarget) != (actor, TargetOf(kind, ref.id))
    ensures ReactionOf(Toggle(likes, targets, kind, ref, actor, rawType, now).likes, other, otherTarget)
            == ReactionOf(likes, other, otherTarget)
  {
    var o := Toggle(likes, targets, kind, ref, actor, rawType, now);
    if o.likes != likes {
      var target := TargetOf(kind, ref.id);
      var req := ParseLikeType(rawType).value;
      var found := FindReaction(likes, actor, target);
      if found.Some? {
        var k := found.value;
        if req == DeleteReq {
          assert o.likes == likes - {k};
          OtherRecordsSame(likes, o.likes, other, otherTarget);
        } else {
          assert o.likes == likes[k := likes[k].(likeType := KindOf(req))];
          OtherRecordsSame(likes, o.likes, other, otherTarget);
        }
      } else {
        var k := FreshKey(likes.Keys);
        assert o.likes == likes[k := Reaction(target, KindOf(req), actor, now)];
        OtherRecordsSame(likes, o.likes, other, otherTarget);
      }
    }
  }

  /** Two collections holding the same records of `other` on `t` give `other`
      the same reaction on `t`. */
  lemma OtherRecordsSame(a: map<Id, Reaction>, b: map<Id, Reaction>, other: Id, t: Target)
    requires forall k :: k in a && IsRecordOf(a[k], other, t) ==> k in b && b[k] == a[k]
    requires forall k :: k in b && IsRecordOf(b[k], other, t) ==> k in a && a[k] == b[k]
    ensures ReactionOf(a, other, t) == ReactionOf(b, other, t)
  {
    var fa, fb := FindReaction(a, other, t), FindReaction(b, other, t);
    if fa.Some? && fb.Some? {
      assert fa.value <= fb.value && fb.value <= fa.value;
    }
  }

  /** Repeating a "like" or "dislike" request changes nothing more. A repeated
      "delete" changes nothing more under the one-record invariant. */
  lemma {:induction false} ToggleIdempotent(likes: map<Id, Reaction>, targets: set<Id>, kind: TargetKind,
                                            ref: Ref, actor: Id, rawType: Option<string>, now: Time, later: Time)
    requires ParseLikeType(rawType) == Some(DeleteReq) ==> OnePerActorTarget(likes)
    ensures var once := Toggle(likes, targets, kind, ref, actor, rawType, now).likes;
            Toggle(once, targets, kind, ref, actor, rawType, later).likes == once
  {
    var o := Toggle(likes, targets, kind, ref, actor, rawType, now);
    if o.reply.Ok? {
      var target := TargetOf(kind, ref.id);
      var req := ParseLikeType(rawType).value;
      var found := FindReaction(likes, actor, target);
      if req == DeleteReq {
        assert ReactionOf(o.likes, actor, target) == None by {
          ToggleReachesDesired(likes, targets, kind, ref.id, actor, rawType, now);
        }
      } else if found.Some? {
        var k := found.value;
        var m := o.likes;
        assert m == likes[k := likes[k].(likeType := KindOf(req))];
        var f := FindReaction(m, actor, target);
        assert IsRecordOf(m[k], actor, target);
        assert f.Some? && f.value <= k;
        assert IsRecordOf(likes[f.value], actor, target);
        assert f.value == k;
        assert m[k := m[k].(likeType := KindOf(req))] == m;
      } else {
        var k := FreshKey(likes.Keys);
        var m := o.likes;
        assert m == likes[k := Reaction(target, KindOf(req), actor, now)];
        var f := FindReaction(m, actor, target);
        assert IsRecordOf(m[k], actor, target);
        assert f.Some?;
        assert m[k := m[k].(likeType := KindOf(req))] == m;
      }
    }
  }

  /** A sequence of `likeType` values sent by one actor for one target. */
  function Replay(likes: map<Id, Reaction>, targets: set<Id>, kind: TargetKind, id: Id, actor: Id,
                  raws: seq<Option<string>>, now: Time): (r: map<Id, Reaction>)
    ensures OnePerActorTarget(likes) ==> OnePerActorTarget(r)
    decreases |raws|
  {
    if raws == [] then likes
    else Replay(Toggle(likes, targets, kind, Key(id), actor, raws[0], now).likes,
                targets, kind, id, actor, raws[1..], now)
  }

  /** The index of the last valid `likeType`, or -1. */
  function LastValid(raws: seq<Option<string>>): (i: int)
    ensures -1 <= i < |raws|
    ensures i >= 0 ==> ParseLikeType(raws[i]).Some?
    ensures forall j :: i < j < |raws| ==> ParseLikeType(raws[j]).None?
  {
    if raws == [] then -1
    else if ParseLikeType(raws[|raws| - 1]).Some? then |raws| - 1
    else LastValid(raws[..|raws| - 1])
  }

  /** While the target exists, however the requests interleave, the actor ends
      with the reaction named by the last valid request. */
  lemma {:induction false} ReplayEndsWithLastValid(likes: map<Id, Reaction>, targets: set<Id>, kind: TargetKind,
                                                   id: Id, actor: Id, raws: seq<Option<string>>, now: Time)
    requires OnePerActorTarget(likes)
    requires id in targets
    requires LastValid(raws) >= 0
    ensures ReactionOf(Replay(likes, targets, kind, id, actor, raws, now), actor, TargetOf(kind, id))
            == Desired(ParseLikeType(raws[LastValid(raws)]).value)
    decreases |raws|
  {
    var i := LastValid(raws);
    var next := Toggle(likes, targets, kind, Key(id), actor, raws[0], now).likes;
    if i == 0 {
      ToggleReachesDesired(likes, targets, kind, id, actor, raws[0], now);
      ReplayInvalidKeeps(next, targets, kind, id, actor, raws[1..], now);
    } else {
      assert LastValid(raws[1..]) == i - 1 by {
        LastValidOfTail(raws);
      }
      ReplayEndsWithLastValid(next, targets, kind, id, actor, raws[1..], now);
      assert raws[1..][i - 1] == raws[i];
    }
  }

  lemma {:induction false} LastValidOfTail(raws: seq<Option<string>>)
    requires LastValid(raws) >= 1
    ensures LastValid(raws[1..]) == LastValid(raws) - 1
    decreases |raws|
  {
    var n := |raws|;
    if !ParseLikeType(raws[n - 1]).Some? {
      assert raws[..n - 1][1..] == raws[1..][..n - 2];
      LastValidOfTail(raws[..n - 1]);
    }
  }

  /** Requests with an invalid `likeType` change nothing. */
  lemma {:induction false} ReplayInvalidKeeps(likes: map<Id, Reaction>, targets: set<Id>, kind: TargetKind,
                                              id: Id, actor: Id, raws: seq<Option<string>>, now: Time)
    requires forall j :: 0 <= j < |raws| ==> ParseLikeType(raws[j]).None?
    ensures Replay(likes, targets, kind, id, actor, raws, now) == likes
    decreases |raws|
  {
    if raws != [] {
      assert ParseLikeType(raws[0]).None?;
      ReplayInvalidKeeps(likes, targets, kind, id, actor, raws[1..], now);
    }
  }

  /** A row of the liked-videos list: the Like record with its video and the
      video's owner joined in. */
  datatype LikedVideo = LikedVideo(likeId: Id, like: Reaction, videoId: Id, video: Video, owner: OwnerCard)

  /** A Like record survives both `$unwind` stages: its video exists and so
      does the video's owner. */
  predicate JoinableIn(videos: map<Id, Video>, users: map<Id, User>, r: Reaction) {
    r.target.OnVideo? && r.target.id in videos && videos[r.target.id].owner in users
  }

  /** Record `k` is one of the viewer's likes of a video that can be joined. */
  predicate IsLikedVideo(db: Store, viewer: Id, k: Id)
    reads db
  {
    k in db.likes && db.likes[k].likedBy == viewer && db.likes[k].likeType == Like
    && JoinableIn(db.videos, db.users, db.likes[k])
  }

  function Row(db: Store, k: Id): (v: LikedVideo)
    reads db
    requires k in db.likes && JoinableIn(db.videos, db.users, db.likes[k])
  {
    var r := db.likes[k];
    var vid := r.target.id;
    var owner := db.videos[vid].owner;
    LikedVideo(k, r, vid, db.videos[vid], CardOf(owner, db.users[owner]))
  }

  predicate NewerFirst(a: LikedVideo, b: LikedVideo) {
    a.like.createdAt >= b.like.createdAt
  }

  /** The viewer's records in scan order, keeping those `IsLikedVideo` holds for. */
  function MyLikeKeys(db: Store, viewer: Id): (mine: seq<Id>)
    reads db
    ensures NoDup(mine)
    ensures forall i :: 0 <= i < |mine| ==> IsLikedVideo(db, viewer, mine[i])
    ensures forall k :: IsLikedVideo(db, viewer, k) ==> k in mine
  {
    var likes, videos, users := db.likes, db.videos, db.users;
    Lookup(likes.Keys, k => k in likes && likes[k].likedBy == viewer && likes[k].likeType == Like
                            && JoinableIn(videos, users, likes[k]))
  }

  /** `getLikedVideos`: the viewer's "like" records, newest first, each with
      its video and owner; records whose video or owner is gone are dropped. */
  function LikedVideos(db: Store, viewer: Id): (rows: seq<LikedVideo>)
    reads db
    ensures forall i :: 0 <= i < |rows| ==>
      IsLikedVideo(db, viewer, rows[i].likeId) && rows[i] == Row(db, rows[i].likeId)
    ensures forall k :: IsLikedVideo(db, viewer, k) ==> exists i :: 0 <= i < |rows| && rows[i].likeId == k
    ensures forall i, j :: 0 <= i < j < |rows| ==> rows[i].like.createdAt >= rows[j].like.createdAt
    ensures forall i, j :: 0 <= i < j < |rows| ==> rows[i].likeId != rows[j].likeId
  {
    var mine := MyLikeKeys(db, viewer);
    var joined := Rows(db, mine);
    LikedSortInfo(db, mine, joined);
    LikedRowsSound(db, viewer, mine, joined, SortBy(joined, NewerFirst));
    SortBy(joined, NewerFirst)
  }

  /** The `$lookup` of each record's video and owner. */
  function Rows(db: Store, ks: seq<Id>): (r: seq<LikedVideo>)
    reads db
    requires forall i :: 0 <= i < |ks| ==> ks[i] in db.likes && JoinableIn(db.videos, db.users, db.likes[ks[i]])
    ensures |r| == |ks|
    ensures forall i :: 0 <= i < |ks| ==> r[i] == Row(db, ks[i])
  {
    if ks == [] then [] else [Row(db, ks[0])] + Rows(db, ks[1..])
  }

  lemma LikedSortInfo(db: Store, mine: seq<Id>, joined: seq<LikedVideo>)
    requires NoDup(mine)
    requires forall i :: 0 <= i < |mine| ==> mine[i] in db.likes && JoinableIn(db.videos, db.users, db.likes[mine[i]])
    requires |joined| == |mine| && forall i :: 0 <= i < |mine| ==> joined[i] == Row(db, mine[i])
    ensures var s := SortBy(joined, NewerFirst);
      && SortedBy(s, NewerFirst)
      && (forall i, j :: 0 <= i < j < |s| ==> s[i].likeId != s[j].likeId)
  {
    SortBySorted(joined, NewerFirst);
    assert forall i, j :: 0 <= i < j < |joined| ==> joined[i].likeId != joined[j].likeId by {
      forall i, j | 0 <= i < j < |joined|
        ensures joined[i].likeId != joined[j].likeId
      {
        assert joined[i].likeId == mine[i] && joined[j].likeId == mine[j];
      }
    }
    DistinctIdsPermutation(joined, SortBy(joined, NewerFirst));
  }

  /** Reordering keeps the record keys distinct. */
  lemma DistinctIdsPermutation(a: seq<LikedVideo>, b: seq<LikedVideo>)
    requires multiset(a) == multiset(b)
    requires forall i, j :: 0 <= i < j < |a| ==> a[i].likeId != a[j].likeId
    ensures forall i, j :: 0 <= i < j < |b| ==> b[i].likeId != b[j].likeId
  {
    assert NoDup(a) by {
      forall i, j | 0 <= i < j < |a|
        ensures a[i] != a[j]
      {
        assert a[i].likeId != a[j].likeId;
      }
    }
    NoDupPermutation(a, b);
    forall i, j | 0 <= i < j < |b|
      ensures b[i].likeId != b[j].likeId
    {
      assert b[i] in multiset(a) && b[j] in multiset(a);
      var x :| 0 <= x < |a| && a[x] == b[i];
      var y :| 0 <= y < |a| && a[y] == b[j];
      assert b[i] != b[j];
    }
  }

  lemma {:induction false} LikedRowsSound(db: Store, viewer: Id, mine: seq<Id>, joined: seq<LikedVideo>, s: seq<LikedVideo>)
    requires forall i :: 0 <= i < |mine| ==> IsLikedVideo(db, viewer, mine[i])
    requires forall i :: 0 <= i < |mine| ==> mine[i] in db.likes && JoinableIn(db.videos, db.users, db.likes[mine[i]])
    requires forall k :: IsLikedVideo(db, viewer, k) ==> k in mine
    requires |joined| == |mine| && forall i :: 0 <= i < |mine| ==> joined[i] == Row(db, mine[i])
    requires multiset(s) == multiset(joined)
    ensures forall i :: 0 <= i < |s| ==> IsLikedVideo(db, viewer, s[i].likeId) && s[i] == Row(db, s[i].likeId)
    ensures forall k :: IsLikedVideo(db, viewer, k) ==> exists i :: 0 <= i < |s| && s[i].likeId == k
  {
    forall i | 0 <= i < |s|
      ensures IsLikedVideo(db, viewer, s[i].likeId) && s[i] == Row(db, s[i].likeId)
    {
      assert s[i] in multiset(joined);
      var a :| 0 <= a < |joined| && joined[a] == s[i];
    }
    forall k | IsLikedVideo(db, viewer, k)
      ensures exists i :: 0 <= i < |s| && s[i].likeId == k
    {
      var a :| 0 <= a < |mine| && mine[a] == k;
      assert joined[a] in multiset(s);
      var i :| 0 <= i < |s| && s[i] == joined[a];
    }
  }

  datatype LikedPage = LikedPage(docs: seq<LikedVideo>, meta: PageMeta)

  /** The page the paginate plugin cuts from the liked-videos list (10 per
      page by default), with its metadata over the whole list. */
  function LikedVideosPage(db: Store, viewer: Id, page: Option<Pos>, limit: Option<Pos>): (r: LikedPage)
    reads db
    ensures var p, l := OrDefault(page, 1), OrDefault(limit, 10);
      && r.meta == PluginMeta(|LikedVideos(db, viewer)|, p, l)
      && |r.docs| <= l
      && r.docs == Slice(LikedVideos(db, viewer), Skip(p, l), l)
  {
    var p, l := OrDefault(page, 1), OrDefault(limit, 10);
    var rows := LikedVideos(db, viewer);
    LikedPage(Slice(rows, Skip(p, l), l), PluginMeta(|rows|, p, l))
  }

  /** Every row of a page is one of the viewer's joinable likes, and the
      page is newest first. */
  lemma LikedPageRows(db: Store, viewer: Id, page: Option<Pos>, limit: Option<Pos>, i: nat, j: nat)
    requires i < j < |LikedVideosPage(db, viewer, page, limit).docs|
    ensures var docs := LikedVideosPage(db, viewer, page, limit).docs;
      && IsLikedVideo(db, viewer, docs[i].likeId) && docs[i] == Row(db, docs[i].likeId)
      && docs[i].like.createdAt >= docs[j].like.createdAt
      && docs[i].likeId != docs[j].likeId
  {
    var skip := Skip(OrDefault(page, 1), OrDefault(limit, 10));
    LikedWindowRows(db, viewer, skip, OrDefault(limit, 10), i, j);
  }

  lemma LikedWindowRows(db: Store, viewer: Id, skip: nat, limit: nat, i: nat, j: nat)
    requires i < j < |Slice(LikedVideos(db, viewer), skip, limit)|
    ensures var docs := Slice(LikedVideos(db, viewer), skip, limit);
      && IsLikedVideo(db, viewer, docs[i].likeId) && docs[i] == Row(db, docs[i].likeId)
      && docs[i].like.createdAt >= docs[j].like.createdAt
      && docs[i].likeId != docs[j].likeId
  {
    var rows := LikedVideos(db, viewer);
    var docs := Slice(rows, skip, limit);
    assert docs[i] == rows[skip + i] && docs[j] == rows[skip + j];
    LikedRowsAt(db, viewer, skip + i, skip + j);
  }

  lemma LikedRowsAt(db: Store, viewer: Id, a: nat, b: nat)
    requires a < b < |LikedVideos(db, viewer)|
    ensures var rows := LikedVideos(db, viewer);
      && IsLikedVideo(db, viewer, rows[a].likeId) && rows[a] == Row(db, rows[a].likeId)
      && rows[a].like.createdAt >= rows[b].like.createdAt
      && rows[a].likeId != rows[b].likeId
  {
  }
}
