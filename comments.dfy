/** The comment controllers: adding a comment or a reply to a video, editing
    and deleting one's own comment, and the paged listing of a video's
    top-level comments with their replies and reaction counts. */
module Comments {
  import opened Common
  import opened Entities
  import opened Seqs
  import opened Ordering
  import opened Paging
  import opened Db

  const VideoNotFoundMsg := "Video Not Found!!"
  const ListVideoNotFoundMsg := "Video Not Found"
  const ParentNotFoundMsg := "Parent Comment Not Found!!"
  const EditNotFoundMsg := "Comment not found!"
  const DeleteNotFoundMsg := "Comment Not Found!"
  const NotAuthorisedMsg := "You are not authorised to access this content"
  const AddedMsg := "Comment added successfully"
  const UpdatedMsg := "Comment updated successfully."
  const DeletedMsg := "Comment deleted successfully"
  const NoMessagesMsg := "Invalid query parameter"

  /** The schema's `required` validator rejecting a missing or empty
      content when the document is written. */
  const ContentRequiredMsg := "Comment validation failed: content: Content is required to add Comment"

  /** The exception `findById` throws for a malformed id (the library's own
      text is abbreviated). */
  const CastFailedMsg := "Cast to ObjectId failed"

  // ---------------------------------------------------------------------------
  // Request checks

  /** The verdict of the request validator on `{content}`. Its rules are not
      part of this model; only the messages it reports are. */
  datatype Verdict = Valid | Invalid(messages: seq<string>)

  /** The reply to a rejected body: the messages joined by ", ", or a fixed
      text when there are none. */
  function VerdictError(msgs: seq<string>): Error {
    BadRequest(if |msgs| > 0 then Join(msgs, ", ") else NoMessagesMsg)
  }

  /** Mongoose's `required` on a string: present and not empty. */
  predicate Present(content: Option<string>) {
    content.Some? && content.value != ""
  }

  /** Every reply names a stored comment as its parent. */
  predicate ParentsStored(comments: map<Id, Comment>) {
    forall k :: k in comments && comments[k].parentComment.Some? ==> comments[k].parentComment.value in comments
  }

  // ---------------------------------------------------------------------------
  // addVideoComment

  /** The reply and the Comment collection after a request. */
  datatype Change = Change(reply: Result<string>, comments: map<Id, Comment>)

  /** The stored parent of a request: none for a falsy `parentCommentId`
      (absent, null or ""), the key otherwise. */
  function ParentOf(parent: Option<Ref>): Option<Id>
    requires parent.Some? ==> parent.value.Key?
  {
    if parent.Some? then Some(parent.value.id) else None
  }

  /** `addVideoComment`: the body check, the video lookup, the parent lookup
      when a parent is given, then `Comment.create` under a fresh key with
      both timestamps set to `now`. `create` returns the document or throws,
      so the "Comment Add Failed!" replies cannot occur. */
  function Add(comments: map<Id, Comment>, videos: map<Id, Video>, verdict: Verdict, videoRef: Ref,
               content: Option<string>, parent: Option<Ref>, viewer: Id, now: Time): (c: Change)
    ensures c.reply.Err? ==> c.comments == comments
    ensures verdict.Invalid? ==> c.reply == Err(VerdictError(verdict.messages))
    ensures verdict.Valid? && videoRef.BadRef? ==> c.reply == Err(Thrown(CastFailedMsg))
    ensures verdict.Valid? && videoRef.Key? && videoRef.id !in videos ==> c.reply == Err(NotFound(VideoNotFoundMsg))
    ensures (verdict.Valid? && videoRef.Key? && videoRef.id in videos && parent.Some? && parent.value.Key?
             && parent.value.id !in comments) ==> c.reply == Err(NotFound(ParentNotFoundMsg))
    ensures c.reply.Ok? <==>
      && verdict.Valid? && videoRef.Key? && videoRef.id in videos
      && (parent.Some? ==> parent.value.Key? && parent.value.id in comments)
      && Present(content)
    ensures c.reply.Ok? ==>
      && c.reply.value == AddedMsg
      && var k := FreshKey(comments.Keys);
         && k !in comments
         && c.comments == comments[k := Comment(content.value, videoRef.id, ParentOf(parent), viewer, now, now)]
  {
    if verdict.Invalid? then Change(Err(VerdictError(verdict.messages)), comments)
    else if videoRef.BadRef? then Change(Err(Thrown(CastFailedMsg)), comments)
    else if videoRef.id !in videos then Change(Err(NotFound(VideoNotFoundMsg)), comments)
    else if parent.Some? && parent.value.BadRef? then Change(Err(Thrown(CastFailedMsg)), comments)
    else if parent.Some? && parent.value.id !in comments then Change(Err(NotFound(ParentNotFoundMsg)), comments)
    else if !Present(content) then Change(Err(Thrown(ContentRequiredMsg)), comments)
    else
      var k := FreshKey(comments.Keys);
      Change(Ok(AddedMsg), comments[k := Comment(content.value, videoRef.id, ParentOf(parent), viewer, now, now)])
  }

  /** Adding keeps every reply's parent stored, since the parent is looked
      up first. */
  lemma AddKeepsParentsStored(comments: map<Id, Comment>, videos: map<Id, Video>, verdict: Verdict, videoRef: Ref,
                              content: Option<string>, parent: Option<Ref>, viewer: Id, now: Time)
    requires ParentsStored(comments)
    ensures ParentsStored(Add(comments, videos, verdict, videoRef, content, parent, viewer, now).comments)
  {
  }

  /** The existing comments are untouched by an add. */
  lemma AddFrame(comments: map<Id, Comment>, videos: map<Id, Video>, verdict: Verdict, videoRef: Ref,
                 content: Option<string>, parent: Option<Ref>, viewer: Id, now: Time, k: Id)
    requires k in comments
    ensures var after := Add(comments, videos, verdict, videoRef, content, parent, viewer, now).comments;
      k in after && after[k] == comments[k]
  {
  }

  method AddVideoComment(db: Store, verdict: Verdict, videoRef: Ref, content: Option<string>,
                         parent: Option<Ref>, viewer: Id, now: Time) returns (reply: Result<string>)
    modifies db`comments
    ensures Change(reply, db.comments) == Add(old(db.comments), db.videos, verdict, videoRef, content, parent, viewer, now)
  {
    if verdict.Invalid? {
      return Err(VerdictError(verdict.messages));
    }
    if videoRef.BadRef? {
      return Err(Thrown(CastFailedMsg));
    }
    if videoRef.id !in db.videos {
      return Err(NotFound(VideoNotFoundMsg));
    }
    if parent.Some? {
      if parent.value.BadRef? {
        return Err(Thrown(CastFailedMsg));
      }
      if parent.value.id !in db.comments {
        return Err(NotFound(ParentNotFoundMsg));
      }
    }
    if !Present(content) {
      return Err(Thrown(ContentRequiredMsg));
    }
    var k := FreshKey(db.comments.Keys);
    db.comments := db.comments[k := Comment(content.value, videoRef.id, ParentOf(parent), viewer, now, now)];
    reply := Ok(AddedMsg);
  }

  // ---------------------------------------------------------------------------
  // updateComment

  /** The lookup and ownership checks shared by update and delete. */
  function Guard(comments: map<Id, Comment>, ref: Ref, viewer: Id, missing: string): (e: Option<Error>)
    ensures e.None? <==> ref.Key? && ref.id in comments && comments[ref.id].owner == viewer
    ensures ref.BadRef? ==> e == Some(Thrown(CastFailedMsg))
    ensures ref.Key? && ref.id !in comments ==> e == Some(NotFound(missing))
    ensures ref.Key? && ref.id in comments && comments[ref.id].owner != viewer ==> e == Some(Unauthorized(NotAuthorisedMsg))
  {
    if ref.BadRef? then Some(Thrown(CastFailedMsg))
    else if ref.id !in comments then Some(NotFound(missing))
    else if comments[ref.id].owner != viewer then Some(Unauthorized(NotAuthorisedMsg))
    else None
  }

  /** The document after `comment.content = content; comment.save()`. The
      timestamps plugin refreshes `updatedAt` only when the assignment
      modified the document. */
  function Edited(c: Comment, content: string, now: Time): (d: Comment)
    ensures d.content == content
    ensures d.video == c.video && d.parentComment == c.parentComment && d.owner == c.owner && d.createdAt == c.createdAt
    ensures d.updatedAt == (if content == c.content then c.updatedAt else now)
    ensures content == c.content ==> d == c
  {
    c.(content := content, updatedAt := if content == c.content then c.updatedAt else now)
  }

  /** `updateComment`: the body check, the lookup and ownership checks, then
      the save, whose `required` validator rejects a missing or empty
      content. */
  function Edit(comments: map<Id, Comment>, verdict: Verdict, ref: Ref, content: Option<string>,
                viewer: Id, now: Time): (c: Change)
    ensures c.reply.Err? ==> c.comments == comments
    ensures verdict.Invalid? ==> c.reply == Err(VerdictError(verdict.messages))
    ensures verdict.Valid? && Guard(comments, ref, viewer, EditNotFoundMsg).Some? ==>
      c.reply == Err(Guard(comments, ref, viewer, EditNotFoundMsg).value)
    ensures c.reply.Ok? <==>
      verdict.Valid? && ref.Key? && ref.id in comments && comments[ref.id].owner == viewer && Present(content)
    ensures c.reply.Ok? ==>
      c.reply.value == UpdatedMsg && c.comments == comments[ref.id := Edited(comments[ref.id], content.value, now)]
  {
    if verdict.Invalid? then Change(Err(VerdictError(verdict.messages)), comments)
    else
      match Guard(comments, ref, viewer, EditNotFoundMsg)
      case Some(e) => Change(Err(e), comments)
      case None =>
        if !Present(content) then Change(Err(Thrown(ContentRequiredMsg)), comments)
        else Change(Ok(UpdatedMsg), comments[ref.id := Edited(comments[ref.id], content.value, now)])
  }

  /** An edit changes only the content and the update time of the one
      comment, which stays the viewer's. */
  lemma EditFrame(comments: map<Id, Comment>, verdict: Verdict, ref: Ref, content: Option<string>,
                  viewer: Id, now: Time, k: Id)
    requires k in comments
    ensures var after := Edit(comments, verdict, ref, content, viewer, now).comments;
      && after.Keys == comments.Keys
      && after[k].video == comments[k].video && after[k].parentComment == comments[k].parentComment
      && after[k].owner == comments[k].owner && after[k].createdAt == comments[k].createdAt
      && (after[k] != comments[k] ==> ref == Key(k) && comments[k].owner == viewer && after[k].content == content.value)
  {
  }

  /** Repeating an edit, at any later time, changes nothing more. */
  lemma EditIdempotent(comments: map<Id, Comment>, verdict: Verdict, ref: Ref, content: Option<string>,
                       viewer: Id, now: Time, later: Time)
    requires Edit(comments, verdict, ref, content, viewer, now).reply.Ok?
    ensures var once := Edit(comments, verdict, ref, content, viewer, now).comments;
      var twice := Edit(once, verdict, ref, content, viewer, later);
      twice.reply.Ok? && twice.comments == once
  {
    var once := Edit(comments, verdict, ref, content, viewer, now).comments;
    assert once[ref.id] == Edited(comments[ref.id], content.value, now);
    assert Edited(once[ref.id], content.value, later) == once[ref.id];
  }

  method UpdateComment(db: Store, verdict: Verdict, ref: Ref, content: Option<string>, viewer: Id, now: Time)
    returns (reply: Result<string>)
    modifies db`comments
    ensures Change(reply, db.comments) == Edit(old(db.comments), verdict, ref, content, viewer, now)
  {
    if verdict.Invalid? {
      return Err(VerdictError(verdict.messages));
    }
    var e := Guard(db.comments, ref, viewer, EditNotFoundMsg);
    if e.Some? {
      return Err(e.value);
    }
    if !Present(content) {
      return Err(Thrown(ContentRequiredMsg));
    }
    db.comments := db.comments[ref.id := Edited(db.comments[ref.id], content.value, now)];
    reply := Ok(UpdatedMsg);
  }

  // ---------------------------------------------------------------------------
  // deleteComment

  /** The reply and both collections after a delete request. */
  datatype Removal = Removal(reply: Result<string>, comments: map<Id, Comment>, likes: map<Id, Reaction>)

  /** `Like.deleteMany({likedBy: actor, comment: k})` removes exactly these. */
  predicate OwnReaction(r: Reaction, actor: Id, k: Id) {
    r.likedBy == actor && r.target == OnComment(k)
  }

  function WithoutOwn(likes: map<Id, Reaction>, actor: Id, k: Id): (m: map<Id, Reaction>)
    ensures forall j :: j in m <==> j in likes && !OwnReaction(likes[j], actor, k)
    ensures forall j :: j in m ==> m[j] == likes[j]
  {
    map j | j in likes && !OwnReaction(likes[j], actor, k) :: likes[j]
  }

  /** `deleteComment`: the lookup and ownership checks, then the removal of
      the comment and of the deleter's own reactions to it. */
  function Delete(comments: map<Id, Comment>, likes: map<Id, Reaction>, ref: Ref, viewer: Id): (c: Removal)
    ensures c.reply.Err? ==> c.comments == comments && c.likes == likes
    ensures Guard(comments, ref, viewer, DeleteNotFoundMsg).Some? ==>
      c.reply == Err(Guard(comments, ref, viewer, DeleteNotFoundMsg).value)
    ensures c.reply.Ok? <==> ref.Key? && ref.id in comments && comments[ref.id].owner == viewer
    ensures c.reply.Ok? ==>
      && c.reply.value == DeletedMsg
      && c.comments == comments - {ref.id}
      && c.likes == WithoutOwn(likes, viewer, ref.id)
  {
    match Guard(comments, ref, viewer, DeleteNotFoundMsg)
    case Some(e) => Removal(Err(e), comments, likes)
    case None => Removal(Ok(DeletedMsg), comments - {ref.id}, WithoutOwn(likes, viewer, ref.id))
  }

  /** A delete keeps every other comment, the replies of the deleted one
      included, and every reaction except the deleter's own on it. */
  lemma DeleteFrame(comments: map<Id, Comment>, likes: map<Id, Reaction>, ref: Ref, viewer: Id, k: Id, j: Id)
    ensures var c := Delete(comments, likes, ref, viewer);
      && (k in comments && ref != Key(k) ==> k in c.comments && c.comments[k] == comments[k])
      && (j in likes && !(ref.Key? && OwnReaction(likes[j], viewer, ref.id)) ==> j in c.likes && c.likes[j] == likes[j])
      && (j in c.likes ==> j in likes && c.likes[j] == likes[j])
  {
  }

  /** After a delete the deleter has no reaction left on the comment, while
      a reply to it stays stored and still names it as its parent. */
  lemma DeleteLeavesReplies(comments: map<Id, Comment>, likes: map<Id, Reaction>, ref: Ref, viewer: Id, j: Id)
    requires Delete(comments, likes, ref, viewer).reply.Ok?
    requires j in comments && comments[j].parentComment == Some(ref.id) && j != ref.id
    ensures var c := Delete(comments, likes, ref, viewer);
      && ref.id !in c.comments
      && j in c.comments && c.comments[j].parentComment == Some(ref.id)
      && !ParentsStored(c.comments)
      && forall i :: i in c.likes ==> !OwnReaction(c.likes[i], viewer, ref.id)
  {
  }

  method DeleteComment(db: Store, ref: Ref, viewer: Id) returns (reply: Result<string>)
    modifies db`comments, db`likes
    ensures Removal(reply, db.comments, db.likes) == Delete(old(db.comments), old(db.likes), ref, viewer)
  {
    var e := Guard(db.comments, ref, viewer, DeleteNotFoundMsg);
    if e.Some? {
      return Err(e.value);
    }
    db.comments := db.comments - {ref.id};
    db.likes := WithoutOwn(db.likes, viewer, ref.id);
    reply := Ok(DeletedMsg);
  }

  // ---------------------------------------------------------------------------
  // getAllVideoComments: one comment as the listing shows it

  /** The owner projection `{fullname, username, avatar: "$owner.avatar.url"}`. */
  datatype Author = Author(fullname: string, username: string, avatar: string)

  /** A comment with its reaction fields added, as projected. */
  datatype Shown = Shown(
    id: Id,
    owner: Option<Author>,
    content: string,
    createdAt: Time,
    updatedAt: Time,
    totalLikesCount: nat,
    isLiked: bool,
    isDisliked: bool)

  /** A top-level comment with its replies. */
  datatype Thread = Thread(comment: Shown, replies: seq<Shown>)

  datatype CommentPage = CommentPage(docs: seq<Thread>, meta: PageMeta)

  /** `$first` of the owner `$lookup`: absent when the user is gone (no
      `$unwind` drops the comment). */
  function AuthorOf(users: map<Id, User>, owner: Id): (a: Option<Author>)
    ensures a.Some? <==> owner in users
  {
    if owner in users then Some(Author(users[owner].fullname, users[owner].username, users[owner].avatar.url))
    else None
  }

  /** A Like record on comment `k` of kind `t`. */
  predicate IsReactionOn(r: Reaction, k: Id, t: LikeType) {
    r.target == OnComment(k) && r.likeType == t
  }

  /** Every key names a stored Like record. */
  predicate LikeKeysIn(likes: map<Id, Reaction>, ks: seq<Id>) {
    forall i :: 0 <= i < |ks| ==> ks[i] in likes
  }

  /** The `allLikes` (or `allDislikes`) `$lookup`: the records on comment `k`
      of kind `t`, in scan order. */
  function ReactionKeys(likes: map<Id, Reaction>, k: Id, t: LikeType): (ks: seq<Id>)
    ensures forall j :: j in ks <==> j in likes && IsReactionOn(likes[j], k, t)
    ensures NoDup(ks)
    ensures LikeKeysIn(likes, ks)
  {
    Lookup(likes.Keys, (j: Id) => j in likes && IsReactionOn(likes[j], k, t))
  }

  /** `"$allLikes.likedBy"`. */
  function Likers(likes: map<Id, Reaction>, ks: seq<Id>): (r: seq<Id>)
    requires LikeKeysIn(likes, ks)
    ensures |r| == |ks|
    ensures forall i :: 0 <= i < |ks| ==> r[i] == likes[ks[i]].likedBy
  {
    seq(|ks|, i requires 0 <= i < |ks| => likes[ks[i]].likedBy)
  }

  /** The fields both `$addFields` stages compute for comment `k`:
      `totalLikesCount` is the number of like records on the comment, and
      `isLiked`/`isDisliked` say whether the viewer has a like/dislike
      record on it; the rest is the stored comment and its author. */
  function ShownOf(comments: map<Id, Comment>, users: map<Id, User>, likes: map<Id, Reaction>,
                   viewer: Id, k: Id): (s: Shown)
    requires k in comments
    ensures s.id == k && s.content == comments[k].content
    ensures s.createdAt == comments[k].createdAt && s.updatedAt == comments[k].updatedAt
    ensures s.owner == AuthorOf(users, comments[k].owner)
    ensures s.totalLikesCount == |ReactionSet(likes, k, Like)|
    ensures s.isLiked <==> HasReacted(likes, viewer, k, Like)
    ensures s.isDisliked <==> HasReacted(likes, viewer, k, Dislike)
  {
    var c := comments[k];
    var liked := ReactionKeys(likes, k, Like);
    var disliked := ReactionKeys(likes, k, Dislike);
    ListingCard(liked, ReactionSet(likes, k, Like));
    LikersHas(likes, viewer, k, Like);
    LikersHas(likes, viewer, k, Dislike);
    Shown(k, AuthorOf(users, c.owner), c.content, c.createdAt, c.updatedAt,
          |liked|, viewer in Likers(likes, liked), viewer in Likers(likes, disliked))
  }

  /** The records of kind `t` on comment `k`. */
  function ReactionSet(likes: map<Id, Reaction>, k: Id, t: LikeType): set<Id> {
    set j | j in likes && IsReactionOn(likes[j], k, t)
  }

  /** `viewer` has a record of kind `t` on comment `k`. */
  ghost predicate HasReacted(likes: map<Id, Reaction>, viewer: Id, k: Id, t: LikeType) {
    exists j :: j in likes && IsReactionOn(likes[j], k, t) && likes[j].likedBy == viewer
  }

  /** The viewer is among the likers of kind `t` exactly when they have such
      a record. */
  lemma LikersHas(likes: map<Id, Reaction>, viewer: Id, k: Id, t: LikeType)
    ensures viewer in Likers(likes, ReactionKeys(likes, k, t)) <==> HasReacted(likes, viewer, k, t)
  {
    var ks := ReactionKeys(likes, k, t);
    var r := Likers(likes, ks);
    if viewer in r {
      var i :| 0 <= i < |r| && r[i] == viewer;
      assert ks[i] in ks;
    }
    if HasReacted(likes, viewer, k, t) {
      var j :| j in likes && IsReactionOn(likes[j], k, t) && likes[j].likedBy == viewer;
      var i :| 0 <= i < |ks| && ks[i] == j;
      assert r[i] == viewer;
    }
  }

  // ---------------------------------------------------------------------------
  // getAllVideoComments: replies

  /** The replies `$lookup`: the comments whose parent is `k`, of any video,
      in scan order. */
  function ReplyKeys(comments: map<Id, Comment>, k: Id): (ks: seq<Id>)
    ensures forall j :: j in ks <==> j in comments && comments[j].parentComment == Some(k)
    ensures NoDup(ks)
    ensures KeysIn(comments, ks)
  {
    Lookup(comments.Keys, (j: Id) => j in comments && comments[j].parentComment == Some(k))
  }

  /** Every key names a stored comment. */
  predicate KeysIn(comments: map<Id, Comment>, ks: seq<Id>) {
    forall i :: 0 <= i < |ks| ==> ks[i] in comments
  }

  function ShownAll(comments: map<Id, Comment>, users: map<Id, User>, likes: map<Id, Reaction>,
                    viewer: Id, ks: seq<Id>): (r: seq<Shown>)
    requires KeysIn(comments, ks)
    ensures |r| == |ks|
    ensures forall i :: 0 <= i < |ks| ==> r[i] == ShownOf(comments, users, likes, viewer, ks[i])
  {
    seq(|ks|, i requires 0 <= i < |ks| => ShownOf(comments, users, likes, viewer, ks[i]))
  }

  /** A top-level comment with its direct replies, one level deep. */
  function ThreadOf(comments: map<Id, Comment>, users: map<Id, User>, likes: map<Id, Reaction>,
                    viewer: Id, k: Id): (t: Thread)
    requires k in comments
    ensures t.comment.id == k
    ensures forall i :: 0 <= i < |t.replies| ==>
      t.replies[i].id in comments && comments[t.replies[i].id].parentComment == Some(k)
  {
    Thread(ShownOf(comments, users, likes, viewer, k), ShownAll(comments, users, likes, viewer, ReplyKeys(comments, k)))
  }

  /** The replies of a comment are exactly the comments whose parent it is,
      each shown with its own reaction fields, in ascending key order. */
  lemma RepliesExact(comments: map<Id, Comment>, users: map<Id, User>, likes: map<Id, Reaction>,
                     viewer: Id, k: Id, j: Id)
    requires k in comments
    ensures var rs := ThreadOf(comments, users, likes, viewer, k).replies;
      && (forall i :: 0 <= i < |rs| ==>
            rs[i].id in comments && comments[rs[i].id].parentComment == Some(k)
            && rs[i] == ShownOf(comments, users, likes, viewer, rs[i].id))
      && (j in comments && comments[j].parentComment == Some(k) ==> ShownOf(comments, users, likes, viewer, j) in rs)
      && (forall a, b :: 0 <= a < b < |rs| ==> rs[a].id < rs[b].id)
  {
    var rs := ThreadOf(comments, users, likes, viewer, k).replies;
    forall i | 0 <= i < |rs|
      ensures rs[i].id in comments && comments[rs[i].id].parentComment == Some(k)
      ensures rs[i] == ShownOf(comments, users, likes, viewer, rs[i].id)
    {
      ReplyAt(comments, users, likes, viewer, k, i);
    }
    if j in comments && comments[j].parentComment == Some(k) {
      ReplyListed(comments, users, likes, viewer, k, j);
    }
    forall a, b | 0 <= a < b < |rs|
      ensures rs[a].id < rs[b].id
    {
      ReplyAt(comments, users, likes, viewer, k, a);
      ReplyAt(comments, users, likes, viewer, k, b);
      ReplyKeysAscending(comments, k);
    }
  }

  /** The `i`th reply is the `i`th key the replies `$lookup` selects. */
  lemma ReplyAt(comments: map<Id, Comment>, users: map<Id, User>, likes: map<Id, Reaction>,
                viewer: Id, k: Id, i: nat)
    requires k in comments
    requires i < |ThreadOf(comments, users, likes, viewer, k).replies|
    ensures var ks := ReplyKeys(comments, k);
      var x := ThreadOf(comments, users, likes, viewer, k).replies[i];
      && i < |ks| && x.id == ks[i]
      && x.id in comments && comments[x.id].parentComment == Some(k)
      && x == ShownOf(comments, users, likes, viewer, x.id)
  {
    var ks := ReplyKeys(comments, k);
    assert ks[i] in ks;
  }

  lemma ReplyListed(comments: map<Id, Comment>, users: map<Id, User>, likes: map<Id, Reaction>,
                    viewer: Id, k: Id, j: Id)
    requires k in comments
    requires j in comments && comments[j].parentComment == Some(k)
    ensures ShownOf(comments, users, likes, viewer, j) in ThreadOf(comments, users, likes, viewer, k).replies
  {
    var ks := ReplyKeys(comments, k);
    var rs := ThreadOf(comments, users, likes, viewer, k).replies;
    var i :| 0 <= i < |ks| && ks[i] == j;
    assert rs[i] == ShownOf(comments, users, likes, viewer, j);
  }

  /** The scan visits keys in ascending order. */
  lemma ReplyKeysAscending(comments: map<Id, Comment>, k: Id)
    ensures var ks := ReplyKeys(comments, k);
      forall a, b :: 0 <= a < b < |ks| ==> ks[a] < ks[b]
  {
    var p := (j: Id) => j in comments && comments[j].parentComment == Some(k);
    var all := KeysAsc(comments.Keys);
    FilterIsSubsequence(all, p);
    SubsequenceAscending(Filter(all, p), all);
  }

  // ---------------------------------------------------------------------------
  // getAllVideoComments: the top level

  /** A comment of the listing before its fields are added. The lookups
      and `$addFields` stages only add fields, so they commute with the
      `$sort` and the second `$match`; they are applied to the page only. */
  datatype Entry = Entry(id: Id, comment: Comment)

  /** `$sort: {createdAt: -1}`. */
  predicate NewerFirst(a: Entry, b: Entry) {
    a.comment.createdAt >= b.comment.createdAt
  }

  /** `$match: {parentComment: null}`. */
  predicate IsTop(e: Entry) {
    e.comment.parentComment.None?
  }

  /** The keys `$match: {video}` selects, in scan order. */
  function VideoKeys(comments: map<Id, Comment>, vid: Id): (ks: seq<Id>)
    ensures forall k :: k in ks <==> k in comments && comments[k].video == vid
    ensures NoDup(ks)
    ensures KeysIn(comments, ks)
  {
    Lookup(comments.Keys, (k: Id) => k in comments && comments[k].video == vid)
  }

  function EntryRows(comments: map<Id, Comment>, ks: seq<Id>): (r: seq<Entry>)
    requires KeysIn(comments, ks)
    ensures |r| == |ks|
    ensures forall i :: 0 <= i < |ks| ==> r[i] == Entry(ks[i], comments[ks[i]])
  {
    seq(|ks|, i requires 0 <= i < |ks| => Entry(ks[i], comments[ks[i]]))
  }

  /** The comments the pipeline passes to the paginate plugin: the video's
      comments, newest first, without the replies. */
  function TopLevel(comments: map<Id, Comment>, vid: Id): (top: seq<Entry>)
    ensures forall i :: 0 <= i < |top| ==> top[i].comment.parentComment.None?
  {
    Filter(SortBy(EntryRows(comments, VideoKeys(comments, vid)), NewerFirst), IsTop)
  }

  /** The entry is the stored comment under its key. */
  predicate StoredEntry(comments: map<Id, Comment>, e: Entry) {
    e.id in comments && comments[e.id] == e.comment
  }

  lemma EntryRowsMember(comments: map<Id, Comment>, ks: seq<Id>, e: Entry)
    requires KeysIn(comments, ks)
    requires e in EntryRows(comments, ks)
    ensures e.id in ks && StoredEntry(comments, e)
  {
    var r := EntryRows(comments, ks);
    var i :| 0 <= i < |r| && r[i] == e;
  }

  /** A listed entry is a top-level comment of the video. */
  lemma TopLevelSound(comments: map<Id, Comment>, vid: Id, e: Entry)
    requires e in TopLevel(comments, vid)
    ensures StoredEntry(comments, e) && e.comment.video == vid && e.comment.parentComment.None?
  {
    var rows := EntryRows(comments, VideoKeys(comments, vid));
    FromRows(rows, e);
    EntryRowsMember(comments, VideoKeys(comments, vid), e);
  }

  lemma FromRows(rows: seq<Entry>, e: Entry)
    requires e in Filter(SortBy(rows, NewerFirst), IsTop)
    ensures e in rows && IsTop(e)
  {
    SortByMember(rows, NewerFirst, e);
  }

  /** Every top-level comment of the video is listed. */
  lemma TopLevelComplete(comments: map<Id, Comment>, vid: Id, k: Id)
    requires k in comments && comments[k].video == vid && comments[k].parentComment.None?
    ensures Entry(k, comments[k]) in TopLevel(comments, vid)
  {
    VideoEntry(comments, vid, k);
    KeptTop(EntryRows(comments, VideoKeys(comments, vid)), Entry(k, comments[k]));
  }

  lemma VideoEntry(comments: map<Id, Comment>, vid: Id, k: Id)
    requires k in comments && comments[k].video == vid
    ensures Entry(k, comments[k]) in EntryRows(comments, VideoKeys(comments, vid))
  {
    var ks := VideoKeys(comments, vid);
    var i :| 0 <= i < |ks| && ks[i] == k;
    assert EntryRows(comments, ks)[i] == Entry(k, comments[k]);
  }

  /** Sorting and then dropping the replies keeps a top-level entry. */
  lemma KeptTop(rows: seq<Entry>, e: Entry)
    requires e in rows && IsTop(e)
    ensures e in Filter(SortBy(rows, NewerFirst), IsTop)
  {
    SortByMember(rows, NewerFirst, e);
  }

  lemma NewerFirstIsTotalPreorder()
    ensures TotalPreorder(NewerFirst)
  {
  }

  /** The top level is newest first and lists each comment once. */
  lemma TopLevelSortedNoDup(comments: map<Id, Comment>, vid: Id)
    ensures SortedBy(TopLevel(comments, vid), NewerFirst)
    ensures NoDup(TopLevel(comments, vid))
  {
    var rows := EntryRows(comments, VideoKeys(comments, vid));
    var sorted := SortBy(rows, NewerFirst);
    NewerFirstIsTotalPreorder();
    SortBySorted(rows, NewerFirst);
    FilterIsSubsequence(sorted, IsTop);
    SubsequenceSortedBy(Filter(sorted, IsTop), sorted, NewerFirst);
    EntryRowsNoDup(comments, VideoKeys(comments, vid));
    NoDupPermutation(rows, sorted);
    FilterNoDup(sorted, IsTop);
  }

  lemma EntryRowsNoDup(comments: map<Id, Comment>, ks: seq<Id>)
    requires KeysIn(comments, ks) && NoDup(ks)
    ensures NoDup(EntryRows(comments, ks))
  {
    var r := EntryRows(comments, ks);
    forall i, j | 0 <= i < j < |r|
      ensures r[i] != r[j]
    {
      assert r[i].id == ks[i] && r[j].id == ks[j];
    }
  }

  /** The keys of the top level: one per top-level comment of the video. */
  function TopKeys(top: seq<Entry>): (ks: seq<Id>)
    ensures |ks| == |top|
    ensures forall i :: 0 <= i < |top| ==> ks[i] == top[i].id
  {
    seq(|top|, i requires 0 <= i < |top| => top[i].id)
  }

  /** The top-level comments of a video. */
  function TopSet(comments: map<Id, Comment>, vid: Id): set<Id> {
    set k | k in comments && comments[k].video == vid && comments[k].parentComment.None?
  }

  /** `totalDocs` counts the video's top-level comments. */
  lemma TopLevelCount(comments: map<Id, Comment>, vid: Id)
    ensures |TopLevel(comments, vid)| == |TopSet(comments, vid)|
  {
    var top := TopLevel(comments, vid);
    var ks := TopKeys(top);
    TopLevelSortedNoDup(comments, vid);
    forall i, j | 0 <= i < j < |ks|
      ensures ks[i] != ks[j]
    {
      TopLevelSound(comments, vid, top[i]);
      TopLevelSound(comments, vid, top[j]);
    }
    forall k
      ensures k in ks <==> k in TopSet(comments, vid)
    {
      TopKeysMember(comments, vid, k);
    }
    ListingCard(ks, TopSet(comments, vid));
  }

  lemma TopKeysMember(comments: map<Id, Comment>, vid: Id, k: Id)
    ensures k in TopKeys(TopLevel(comments, vid)) <==> k in TopSet(comments, vid)
  {
    var top := TopLevel(comments, vid);
    var ks := TopKeys(top);
    if k in ks {
      var i :| 0 <= i < |ks| && ks[i] == k;
      TopLevelSound(comments, vid, top[i]);
    }
    if k in TopSet(comments, vid) {
      TopLevelComplete(comments, vid, k);
      var i :| 0 <= i < |top| && top[i] == Entry(k, comments[k]);
      assert ks[i] == k;
    }
  }

  // ---------------------------------------------------------------------------
  // getAllVideoComments

  function Threads(comments: map<Id, Comment>, users: map<Id, User>, likes: map<Id, Reaction>,
                   viewer: Id, es: seq<Entry>): (r: seq<Thread>)
    requires forall i :: 0 <= i < |es| ==> es[i].id in comments
    ensures |r| == |es|
    ensures forall i :: 0 <= i < |es| ==> r[i] == ThreadOf(comments, users, likes, viewer, es[i].id)
  {
    seq(|es|, i requires 0 <= i < |es| => ThreadOf(comments, users, likes, viewer, es[i].id))
  }

  lemma TopLevelStored(comments: map<Id, Comment>, vid: Id)
    ensures var top := TopLevel(comments, vid);
      forall i :: 0 <= i < |top| ==> top[i].id in comments
  {
    var top := TopLevel(comments, vid);
    forall i | 0 <= i < |top|
      ensures top[i].id in comments
    {
      TopLevelSound(comments, vid, top[i]);
    }
  }

  /** A window of the top level holds stored comments only. */
  lemma WindowStored(comments: map<Id, Comment>, vid: Id, skip: nat, limit: nat)
    ensures var window := Slice(TopLevel(comments, vid), skip, limit);
      forall i :: 0 <= i < |window| ==> window[i].id in comments
  {
    var top := TopLevel(comments, vid);
    var window := Slice(top, skip, limit);
    forall i | 0 <= i < |window|
      ensures window[i].id in comments
    {
      SliceMember(top, skip, limit, i);
      TopLevelSound(comments, vid, window[i]);
    }
  }

  /** The `i`th thread of a page is the comment after the earlier pages'. */
  lemma PageDocsAt(comments: map<Id, Comment>, users: map<Id, User>, likes: map<Id, Reaction>,
                   viewer: Id, vid: Id, skip: nat, limit: nat, i: nat)
    requires i < |PageDocs(comments, users, likes, viewer, vid, skip, limit)|
    ensures var top := TopLevel(comments, vid);
      && skip + i < |top| && StoredEntry(comments, top[skip + i])
      && top[skip + i].comment.video == vid && IsTop(top[skip + i])
      && PageDocs(comments, users, likes, viewer, vid, skip, limit)[i]
         == ThreadOf(comments, users, likes, viewer, top[skip + i].id)
  {
    var top := TopLevel(comments, vid);
    var window := Slice(top, skip, limit);
    assert window[i] == top[skip + i];
    TopLevelSound(comments, vid, top[skip + i]);
  }

  /** One page of the top level, threads attached. */
  function PageDocs(comments: map<Id, Comment>, users: map<Id, User>, likes: map<Id, Reaction>,
                    viewer: Id, vid: Id, skip: nat, limit: nat): seq<Thread>
  {
    var window := Slice(TopLevel(comments, vid), skip, limit);
    WindowStored(comments, vid, skip, limit);
    Threads(comments, users, likes, viewer, window)
  }

  /** `getAllVideoComments`: the video lookup, then the page the paginate
      plugin cuts from the pipeline's output (15 per page by default), with
      its metadata over the whole output. */
  function ListComments(comments: map<Id, Comment>, videos: map<Id, Video>, users: map<Id, User>,
                        likes: map<Id, Reaction>, viewer: Id, videoRef: Ref,
                        page: Option<Pos>, limit: Option<Pos>): (r: Result<CommentPage>)
    ensures videoRef.BadRef? ==> r == Err(Thrown(CastFailedMsg))
    ensures videoRef.Key? && videoRef.id !in videos ==> r == Err(NotFound(ListVideoNotFoundMsg))
    ensures r.Ok? <==> videoRef.Key? && videoRef.id in videos
    ensures r.Ok? ==> |r.value.docs| <= OrDefault(limit, 15)
    ensures r.Ok? ==> r.value.docs == PageDocs(comments, users, likes, viewer, videoRef.id,
                                               Skip(OrDefault(page, 1), OrDefault(limit, 15)), OrDefault(limit, 15))
    ensures r.Ok? ==> r.value.meta == PluginMeta(|TopLevel(comments, videoRef.id)|, OrDefault(page, 1), OrDefault(limit, 15))
  {
    if videoRef.BadRef? then Err(Thrown(CastFailedMsg))
    else if videoRef.id !in videos then Err(NotFound(ListVideoNotFoundMsg))
    else
      var p, l := OrDefault(page, 1), OrDefault(limit, 15);
      Ok(CommentPage(PageDocs(comments, users, likes, viewer, videoRef.id, Skip(p, l), l),
                     PluginMeta(|TopLevel(comments, videoRef.id)|, p, l)))
  }

  /** Each thread of a page is a top-level comment of the video, shown with
      its replies. */
  lemma ListedThread(comments: map<Id, Comment>, videos: map<Id, Video>, users: map<Id, User>,
                     likes: map<Id, Reaction>, viewer: Id, videoRef: Ref,
                     page: Option<Pos>, limit: Option<Pos>, i: nat)
    requires ListComments(comments, videos, users, likes, viewer, videoRef, page, limit).Ok?
    requires i < |ListComments(comments, videos, users, likes, viewer, videoRef, page, limit).value.docs|
    ensures var t := ListComments(comments, videos, users, likes, viewer, videoRef, page, limit).value.docs[i];
      && t.comment.id in comments
      && comments[t.comment.id].video == videoRef.id
      && comments[t.comment.id].parentComment.None?
      && t == ThreadOf(comments, users, likes, viewer, t.comment.id)
  {
    var skip, l := Skip(OrDefault(page, 1), OrDefault(limit, 15)), OrDefault(limit, 15);
    PageDocsAt(comments, users, likes, viewer, videoRef.id, skip, l, i);
  }

  /** The threads of a page are newest first. */
  lemma ListSorted(comments: map<Id, Comment>, videos: map<Id, Video>, users: map<Id, User>,
                   likes: map<Id, Reaction>, viewer: Id, videoRef: Ref,
                   page: Option<Pos>, limit: Option<Pos>, i: nat, j: nat)
    requires ListComments(comments, videos, users, likes, viewer, videoRef, page, limit).Ok?
    requires i < j < |ListComments(comments, videos, users, likes, viewer, videoRef, page, limit).value.docs|
    ensures var docs := ListComments(comments, videos, users, likes, viewer, videoRef, page, limit).value.docs;
      docs[i].comment.createdAt >= docs[j].comment.createdAt
  {
    var skip, l := Skip(OrDefault(page, 1), OrDefault(limit, 15)), OrDefault(limit, 15);
    PageDocsAt(comments, users, likes, viewer, videoRef.id, skip, l, i);
    PageDocsAt(comments, users, likes, viewer, videoRef.id, skip, l, j);
    TopLevelSortedNoDup(comments, videoRef.id);
    var top := TopLevel(comments, videoRef.id);
    assert NewerFirst(top[skip + i], top[skip + j]);
  }

  /** The whole listing, page after page, is the top level in order, and
      `totalDocs` is the number of the video's top-level comments. */
  lemma ListTotal(comments: map<Id, Comment>, videos: map<Id, Video>, users: map<Id, User>,
                  likes: map<Id, Reaction>, viewer: Id, videoRef: Ref, page: Option<Pos>, limit: Option<Pos>)
    requires ListComments(comments, videos, users, likes, viewer, videoRef, page, limit).Ok?
    ensures ListComments(comments, videos, users, likes, viewer, videoRef, page, limit).value.meta.totalDocs
            == |TopSet(comments, videoRef.id)|
  {
    TopLevelCount(comments, videoRef.id);
  }

  /** Replies go one level deep: a reply to a reply is neither a thread of
      the listing nor among the replies of one. */
  lemma NestedReplyHidden(comments: map<Id, Comment>, videos: map<Id, Video>, users: map<Id, User>,
                          likes: map<Id, Reaction>, viewer: Id, videoRef: Ref,
                          page: Option<Pos>, limit: Option<Pos>, j: Id)
    requires ListComments(comments, videos, users, likes, viewer, videoRef, page, limit).Ok?
    requires j in comments && comments[j].parentComment.Some?
    requires comments[j].parentComment.value in comments
    requires comments[comments[j].parentComment.value].parentComment.Some?
    ensures var docs := ListComments(comments, videos, users, likes, viewer, videoRef, page, limit).value.docs;
      forall i :: 0 <= i < |docs| ==>
        docs[i].comment.id != j && forall x :: x in docs[i].replies ==> x.id != j
  {
    var docs := ListComments(comments, videos, users, likes, viewer, videoRef, page, limit).value.docs;
    forall i | 0 <= i < |docs|
      ensures docs[i].comment.id != j && forall x :: x in docs[i].replies ==> x.id != j
    {
      ListedThread(comments, videos, users, likes, viewer, videoRef, page, limit, i);
      var k := docs[i].comment.id;
      forall x | x in docs[i].replies
        ensures x.id != j
      {
        RepliesExact(comments, users, likes, viewer, k, j);
      }
    }
  }

  /** A comment added without a parent is listed at the top level of its
      video; one added with a parent is among that parent's replies. */
  lemma AddedIsListed(comments: map<Id, Comment>, videos: map<Id, Video>, users: map<Id, User>,
                      likes: map<Id, Reaction>, verdict: Verdict, videoRef: Ref,
                      content: Option<string>, parent: Option<Ref>, viewer: Id, now: Time)
    requires Add(comments, videos, verdict, videoRef, content, parent, viewer, now).reply.Ok?
    ensures var after := Add(comments, videos, verdict, videoRef, content, parent, viewer, now).comments;
      var k := FreshKey(comments.Keys);
      && k in after
      && (parent.None? ==> Entry(k, after[k]) in TopLevel(after, videoRef.id))
      && (parent.Some? ==>
            parent.value.id in after
            && ShownOf(after, users, likes, viewer, k) in ThreadOf(after, users, likes, viewer, parent.value.id).replies)
  {
    var after := Add(comments, videos, verdict, videoRef, content, parent, viewer, now).comments;
    var k := FreshKey(comments.Keys);
    if parent.None? {
      TopLevelComplete(after, videoRef.id, k);
    } else {
      RepliesExact(after, users, likes, viewer, parent.value.id, k);
    }
  }
}
