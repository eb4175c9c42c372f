/** The user controllers: the channel profile, the watch-history page, the
    password-reset token, the refresh-token session and the upload terms flag. */
module Users {
  import opened Common
  import opened Entities
  import opened Seqs
  import opened Strings
  import opened Ordering
  import opened Paging
  import opened PasswordRules
  import opened Db

  /** A reply and the user collection it leaves behind. */
  datatype UsersChange = UsersChange(reply: Result<string>, users: map<Id, User>)

  // ---------------------------------------------------------------------------
  // Channel profile

  datatype ChannelProfile = ChannelProfile(
    id: Id,
    fullname: string,
    username: string,
    avatar: Image,
    coverImage: Image,
    email: string,
    subscriberCount: nat,
    subscribedToCount: nat,
    isSubscribed: bool)

  /** The profile of user `id`: its two subscription lookups counted, and
      whether `viewer` is among the channel's subscribers. */
  function Profile(users: map<Id, User>, subs: map<Id, Subscription>, id: Id, viewer: Id): (c: ChannelProfile)
    requires id in users
    ensures c.id == id && c.fullname == users[id].fullname && c.username == users[id].username
    ensures c.avatar == users[id].avatar && c.coverImage == users[id].coverImage && c.email == users[id].email
    ensures c.subscriberCount == |SubscriptionsTo(subs, id)|
    ensures c.subscribedToCount == |SubscriptionsBy(subs, id)|
    ensures c.isSubscribed <==> exists k :: k in subs && subs[k] == Subscription(viewer, id)
    ensures c.isSubscribed ==> c.subscriberCount >= 1
  {
    var u := users[id];
    var subscribers := SubscribersOf(subs, id);
    var subscribedTo := SubscribedToBy(subs, id);
    SubscriberCount(subs, id);
    SubscribedToCount(subs, id);
    var isSubscribed := exists i :: 0 <= i < |subscribers| && subs[subscribers[i]].subscriber == viewer;
    assert isSubscribed <==> exists k :: k in subs && subs[k] == Subscription(viewer, id) by {
      if exists k :: k in subs && subs[k] == Subscription(viewer, id) {
        var k :| k in subs && subs[k] == Subscription(viewer, id);
        assert k in subscribers;
        var i :| 0 <= i < |subscribers| && subscribers[i] == k;
      }
    }
    ChannelProfile(id, u.fullname, u.username, u.avatar, u.coverImage, u.email,
                   |subscribers|, |subscribedTo|, isSubscribed)
  }

  /** The `subscribers` lookup: subscriptions whose channel is `id`. */
  function SubscribersOf(subs: map<Id, Subscription>, id: Id): (r: seq<Id>)
    ensures forall k :: k in r <==> k in subs && subs[k].channel == id
    ensures NoDup(r)
  {
    Lookup(subs.Keys, k => k in subs && subs[k].channel == id)
  }

  /** The `subscribedTo` lookup: subscriptions whose subscriber is `id`. */
  function SubscribedToBy(subs: map<Id, Subscription>, id: Id): (r: seq<Id>)
    ensures forall k :: k in r <==> k in subs && subs[k].subscriber == id
    ensures NoDup(r)
  {
    Lookup(subs.Keys, k => k in subs && subs[k].subscriber == id)
  }

  /** The subscriptions to channel `id`. */
  ghost function SubscriptionsTo(subs: map<Id, Subscription>, id: Id): set<Id> {
    set k | k in subs && subs[k].channel == id
  }

  /** The subscriptions user `id` holds. */
  ghost function SubscriptionsBy(subs: map<Id, Subscription>, id: Id): set<Id> {
    set k | k in subs && subs[k].subscriber == id
  }

  /** `$size: "$subscribers"` counts the channel's subscriptions. */
  lemma SubscriberCount(subs: map<Id, Subscription>, id: Id)
    ensures |SubscribersOf(subs, id)| == |SubscriptionsTo(subs, id)|
  {
    ListingCard(SubscribersOf(subs, id), SubscriptionsTo(subs, id));
  }

  /** `$size: "$subscribedTo"` counts the user's own subscriptions. */
  lemma SubscribedToCount(subs: map<Id, Subscription>, id: Id)
    ensures |SubscribedToBy(subs, id)| == |SubscriptionsBy(subs, id)|
  {
    ListingCard(SubscribedToBy(subs, id), SubscriptionsBy(subs, id));
  }

  /** `getUserChannelProfile`: the profile of the first user whose username is
      the lower-cased parameter. */
  function ChannelProfileOf(db: Store, username: string, viewer: Id): (r: Result<ChannelProfile>)
    reads db
    ensures IsBlank(username) ==> r == Err(BadRequest("Username is required!"))
    ensures !IsBlank(username) && (forall k :: k in db.users ==> db.users[k].username != ToLower(username))
            ==> r == Err(NotFound("Channel does not exists"))
    ensures !IsBlank(username) && (exists k :: k in db.users && db.users[k].username == ToLower(username))
            ==> r.Ok?
    ensures r.Ok? ==> && r.value.id in db.users
                      && db.users[r.value.id].username == ToLower(username)
                      && (forall k :: k in db.users && db.users[k].username == ToLower(username) ==> r.value.id <= k)
                      && r == Ok(Profile(db.users, db.subscriptions, r.value.id, viewer))
  {
    if IsBlank(username) then Err(BadRequest("Username is required!"))
    else
      var users, name := db.users, ToLower(username);
      var found := FindFirst(users.Keys, k => k in users && users[k].username == name);
      if found.None? then Err(NotFound("Channel does not exists"))
      else Ok(Profile(users, db.subscriptions, found.value, viewer))
  }

  // ---------------------------------------------------------------------------
  // Watch history

  /** A history entry's video as the page lists it, with its owner's card
      (absent when the owner's document is gone). */
  datatype HistoryDoc = HistoryDoc(id: Id, video: Video, owner: Option<OwnerCard>)

  /** A pipeline row before the final projection keeps `watchedAt`. */
  datatype HistoryRow = HistoryRow(watchedAt: Time, doc: HistoryDoc)

  datatype HistoryPage = HistoryPage(docs: seq<HistoryDoc>, meta: PageMeta)

  /** The watch history of `viewer`; none when the user is absent. */
  function HistoryOf(users: map<Id, User>, viewer: Id): seq<WatchEntry> {
    if viewer in users then users[viewer].watchHistory else []
  }

  /** The entry survives the video lookup, whose sub-pipeline keeps only
      videos with `isNSFW: false`; `isPublic` is not consulted. */
  predicate Shown(videos: map<Id, Video>, e: WatchEntry) {
    e.videoId in videos && !videos[e.videoId].isNSFW
  }

  function OwnerOf(users: map<Id, User>, owner: Id): Option<OwnerCard> {
    if owner in users then Some(CardOf(owner, users[owner])) else None
  }

  function RowOf(videos: map<Id, Video>, users: map<Id, User>, e: WatchEntry): HistoryRow
    requires Shown(videos, e)
  {
    var v := videos[e.videoId];
    HistoryRow(e.watchedAt, HistoryDoc(e.videoId, v, OwnerOf(users, v.owner)))
  }

  predicate LaterFirst(a: WatchEntry, b: WatchEntry) {
    a.watchedAt >= b.watchedAt
  }

  lemma LaterFirstIsTotalPreorder()
    ensures TotalPreorder(LaterFirst)
  {
  }

  /** The video lookup and `$match: {video: {$ne: null}}`: entries whose video
      is missing or NSFW are dropped, the others joined, in their order. */
  function JoinHistory(videos: map<Id, Video>, users: map<Id, User>, es: seq<WatchEntry>): (rows: seq<HistoryRow>)
    ensures |rows| <= |es|
  {
    if es == [] then []
    else if Shown(videos, es[0]) then [RowOf(videos, users, es[0])] + JoinHistory(videos, users, es[1..])
    else JoinHistory(videos, users, es[1..])
  }

  /** `r` is the row of a shown entry of `es`. */
  ghost predicate JoinedFrom(videos: map<Id, Video>, users: map<Id, User>, es: seq<WatchEntry>, r: HistoryRow) {
    exists j :: 0 <= j < |es| && Shown(videos, es[j]) && r == RowOf(videos, users, es[j])
  }

  /** Every joined row comes from a shown entry. */
  lemma {:induction false} JoinHistorySound(videos: map<Id, Video>, users: map<Id, User>, es: seq<WatchEntry>)
    ensures forall i :: 0 <= i < |JoinHistory(videos, users, es)| ==>
              JoinedFrom(videos, users, es, JoinHistory(videos, users, es)[i])
  {
    if es != [] {
      var rest := JoinHistory(videos, users, es[1..]);
      JoinHistorySound(videos, users, es[1..]);
      forall i | 0 <= i < |rest|
        ensures JoinedFrom(videos, users, es, rest[i])
      {
        assert JoinedFrom(videos, users, es[1..], rest[i]);
        var t :| 0 <= t < |es[1..]| && Shown(videos, es[1..][t]) && rest[i] == RowOf(videos, users, es[1..][t]);
        assert es[t + 1] == es[1..][t];
      }
      if Shown(videos, es[0]) {
        var rows := JoinHistory(videos, users, es);
        assert rows == [RowOf(videos, users, es[0])] + rest;
        forall i | 0 < i < |rows|
          ensures JoinedFrom(videos, users, es, rows[i])
        {
          assert rows[i] == rest[i - 1];
        }
        assert rows[0] == RowOf(videos, users, es[0]);
      }
    }
  }

  /** Every shown entry is joined. */
  lemma {:induction false} JoinHistoryComplete(videos: map<Id, Video>, users: map<Id, User>, es: seq<WatchEntry>)
    ensures forall j :: 0 <= j < |es| && Shown(videos, es[j]) ==> RowOf(videos, users, es[j]) in JoinHistory(videos, users, es)
  {
    if es != [] {
      JoinHistoryComplete(videos, users, es[1..]);
      forall j | 0 < j < |es| && Shown(videos, es[j])
        ensures RowOf(videos, users, es[j]) in JoinHistory(videos, users, es)
      {
        assert es[1..][j - 1] == es[j];
      }
    }
  }

  /** Joining keeps the `watchedAt` order of the entries. */
  lemma {:induction false} JoinHistorySorted(videos: map<Id, Video>, users: map<Id, User>, es: seq<WatchEntry>)
    requires SortedBy(es, LaterFirst)
    ensures forall i, j :: 0 <= i < j < |JoinHistory(videos, users, es)| ==>
              JoinHistory(videos, users, es)[i].watchedAt >= JoinHistory(videos, users, es)[j].watchedAt
  {
    if es != [] {
      var t := es[1..];
      assert SortedBy(t, LaterFirst) by {
        forall i, j | 0 <= i < j < |t|
          ensures LaterFirst(t[i], t[j])
        {
          assert t[i] == es[i + 1] && t[j] == es[j + 1];
        }
      }
      JoinHistorySorted(videos, users, t);
      if Shown(videos, es[0]) {
        var rest := JoinHistory(videos, users, t);
        var rows := JoinHistory(videos, users, es);
        JoinHistorySound(videos, users, t);
        forall i, j | 0 <= i < j < |rows|
          ensures rows[i].watchedAt >= rows[j].watchedAt
        {
          assert rows[j] == rest[j - 1];
          if i == 0 {
            assert JoinedFrom(videos, users, t, rest[j - 1]);
            var w :| 0 <= w < |t| && Shown(videos, t[w]) && rest[j - 1] == RowOf(videos, users, t[w]);
            assert t[w] == es[w + 1];
            assert LaterFirst(es[0], es[w + 1]);
          } else {
            assert rows[i] == rest[i - 1];
          }
        }
      }
    }
  }

  /** `r` is the row of a shown entry at a position `skip` to
      `skip + limit - 1` of the history `h`. */
  ghost predicate InWindow(videos: map<Id, Video>, users: map<Id, User>, h: seq<WatchEntry>,
                           skip: nat, limit: nat, r: HistoryRow) {
    exists j :: skip <= j < skip + limit && j < |h| && Shown(videos, h[j]) && r == RowOf(videos, users, h[j])
  }

  /** The window `$slice: ["$watchHistory", skip, limit]`, sorted by
      `watchedAt` descending and joined. */
  function HistoryRows(db: Store, viewer: Id, page: Pos, limit: Pos): (rows: seq<HistoryRow>)
    reads db
    ensures |rows| <= limit
    ensures forall i :: 0 <= i < |rows| ==>
              InWindow(db.videos, db.users, HistoryOf(db.users, viewer), Skip(page, limit), limit, rows[i])
    ensures var h, skip := HistoryOf(db.users, viewer), Skip(page, limit);
            forall j :: skip <= j < skip + limit && j < |h| && Shown(db.videos, h[j]) ==>
              RowOf(db.videos, db.users, h[j]) in rows
    ensures forall i, j :: 0 <= i < j < |rows| ==> rows[i].watchedAt >= rows[j].watchedAt
  {
    var h, skip := HistoryOf(db.users, viewer), Skip(page, limit);
    var window := Slice(h, skip, limit);
    var sorted := SortBy(window, LaterFirst);
    LaterFirstIsTotalPreorder();
    SortBySorted(window, LaterFirst);
    var rows := JoinHistory(db.videos, db.users, sorted);
    JoinHistorySorted(db.videos, db.users, sorted);
    HistoryRowsWindow(db.videos, db.users, h, skip, limit, window, sorted, rows);
    rows
  }

  lemma HistoryRowsWindow(videos: map<Id, Video>, users: map<Id, User>, h: seq<WatchEntry>,
                          skip: nat, limit: Pos, window: seq<WatchEntry>, sorted: seq<WatchEntry>,
                          rows: seq<HistoryRow>)
    requires window == Slice(h, skip, limit)
    requires multiset(sorted) == multiset(window)
    requires rows == JoinHistory(videos, users, sorted)
    ensures forall i :: 0 <= i < |rows| ==> InWindow(videos, users, h, skip, limit, rows[i])
    ensures forall j :: skip <= j < skip + limit && j < |h| && Shown(videos, h[j]) ==>
              RowOf(videos, users, h[j]) in rows
  {
    JoinHistorySound(videos, users, sorted);
    JoinHistoryComplete(videos, users, sorted);
    forall i | 0 <= i < |rows|
      ensures InWindow(videos, users, h, skip, limit, rows[i])
    {
      assert JoinedFrom(videos, users, sorted, rows[i]);
      var t :| 0 <= t < |sorted| && Shown(videos, sorted[t]) && rows[i] == RowOf(videos, users, sorted[t]);
      assert sorted[t] in multiset(window);
      var w :| 0 <= w < |window| && window[w] == sorted[t];
      assert h[skip + w] == sorted[t];
    }
    forall j | skip <= j < skip + limit && j < |h| && Shown(videos, h[j])
      ensures RowOf(videos, users, h[j]) in rows
    {
      assert window[j - skip] == h[j];
      assert h[j] in multiset(sorted);
      var t :| 0 <= t < |sorted| && sorted[t] == h[j];
    }
  }

  function Docs(rows: seq<HistoryRow>): (docs: seq<HistoryDoc>)
    ensures |docs| == |rows|
    ensures forall i :: 0 <= i < |rows| ==> docs[i] == rows[i].doc
  {
    seq(|rows|, i requires 0 <= i < |rows| => rows[i].doc)
  }

  /** `getWatchHistory`: the page of the viewer's history, with totals taken
      from the whole history. */
  function WatchHistoryPage(db: Store, viewer: Id, qPage: Option<nat>, qLimit: Option<nat>): (r: HistoryPage)
    reads db
    ensures var page, limit := ParamOr(qPage, 1), ParamOr(qLimit, 10);
            && r.meta == Meta(|HistoryOf(db.users, viewer)|, page, limit)
            && r.docs == Docs(HistoryRows(db, viewer, page, limit))
            && |r.docs| <= limit
    ensures viewer !in db.users ==> r.meta.totalDocs == 0 && r.docs == []
  {
    var page, limit := ParamOr(qPage, 1), ParamOr(qLimit, 10);
    var total := |HistoryOf(db.users, viewer)|;
    HistoryPage(Docs(HistoryRows(db, viewer, page, limit)), Meta(total, page, limit))
  }

  // ---------------------------------------------------------------------------
  // Password reset

  const InvalidResetMsg := "Reset password token is either invalid or has been expired"

  /** The user holds the reset token whose SHA-256 digest is `digest`, and
      it has not yet expired. */
  predicate HoldsResetToken(u: User, digest: string, now: Time): (b: bool)
    ensures b ==> u.resetPswdToken.Some? && u.resetPswdExpire.Some?
    ensures u.resetPswdExpire.Some? && u.resetPswdExpire.value <= now ==> !b
    ensures b ==> u.resetPswdToken.value == digest
  {
    u.resetPswdToken == Some(digest) && u.resetPswdExpire.Some? && u.resetPswdExpire.value > now
  }

  /** `User.findOne({resetPswdToken, resetPswdExpire: {$gt: now}})`. */
  function ResetHolder(users: map<Id, User>, digest: string, now: Time): (r: Option<Id>)
    ensures r.Some? ==> r.value in users && HoldsResetToken(users[r.value], digest, now)
    ensures r.Some? ==> forall k :: k in users && HoldsResetToken(users[k], digest, now) ==> r.value <= k
    ensures r.None? <==> forall k :: k in users ==> !HoldsResetToken(users[k], digest, now)
  {
    FindFirst(users.Keys, k => k in users && HoldsResetToken(users[k], digest, now))
  }

  /** `user` with the password replaced and both reset fields cleared. */
  function WithNewPassword(u: User, hashed: string): (v: User)
    ensures v.password == hashed && v.resetPswdToken.None? && v.resetPswdExpire.None?
    ensures v.(password := u.password, resetPswdToken := u.resetPswdToken, resetPswdExpire := u.resetPswdExpire) == u
  {
    u.(password := hashed, resetPswdToken := None, resetPswdExpire := None)
  }

  /** `resetPassword`. `digest` is the SHA-256 of `token` and `hashed` the
      bcrypt hash the save hook stores for `password`. */
  function Reset(users: map<Id, User>, token: string, password: Option<string>,
                 digest: string, hashed: string, now: Time): (c: UsersChange)
    ensures var errs := ValidateReset(token, password);
            errs != [] ==> c == UsersChange(Err(BadRequest(Join(errs, ", "))), users)
    ensures ValidateReset(token, password) == [] && ResetHolder(users, digest, now).None?
            ==> c == UsersChange(Err(BadRequest(InvalidResetMsg)), users)
    ensures c.reply.Ok? <==> ValidateReset(token, password) == []
                             && exists k :: k in users && HoldsResetToken(users[k], digest, now)
    ensures c.reply.Ok? ==> && c.reply.value == "Password updated!"
                            && var k := ResetHolder(users, digest, now).value;
                               c.users == users[k := WithNewPassword(users[k], hashed)]
    ensures c.reply.Err? ==> c.users == users
  {
    var errs := ValidateReset(token, password);
    if errs != [] then UsersChange(Err(BadRequest(Join(errs, ", "))), users)
    else
      match ResetHolder(users, digest, now)
      case None => UsersChange(Err(BadRequest(InvalidResetMsg)), users)
      case Some(k) => UsersChange(Ok("Password updated!"), users[k := WithNewPassword(users[k], hashed)])
  }

  method ResetPassword(db: Store, token: string, password: Option<string>,
                       digest: string, hashed: string, now: Time) returns (reply: Result<string>)
    modifies db`users
    ensures UsersChange(reply, db.users) == Reset(old(db.users), token, password, digest, hashed, now)
  {
    var errs := ValidateReset(token, password);
    if errs != [] {
      return Err(BadRequest(Join(errs, ", ")));
    }
    var holder := ResetHolder(db.users, digest, now);
    if holder.None? {
      return Err(BadRequest(InvalidResetMsg));
    }
    var u := db.users[holder.value];
    u := u.(password := hashed);
    u := u.(resetPswdToken := None, resetPswdExpire := None);
    db.users := db.users[holder.value := u];
    reply := Ok("Password updated!");
  }

  /** No two users hold the reset token with digest `digest`. */
  ghost predicate UniqueDigest(users: map<Id, User>, digest: string) {
    forall a, b ::
      (a in users && b in users && users[a].resetPswdToken == Some(digest)
       && users[b].resetPswdToken == Some(digest)) ==> a == b
  }

  /** A reset token works once: replaying the same link fails, whenever
      no other user holds the same digest. */
  lemma {:induction false} ResetIsSingleUse(users: map<Id, User>, token: string, password: Option<string>,
                                            digest: string, hashed: string, now: Time,
                                            password2: Option<string>, hashed2: string, later: Time)
    requires UniqueDigest(users, digest)
    requires Reset(users, token, password, digest, hashed, now).reply.Ok?
    ensures Reset(Reset(users, token, password, digest, hashed, now).users,
                  token, password2, digest, hashed2, later).reply.Err?
  {
    var k := ResetHolder(users, digest, now).value;
    var after := Reset(users, token, password, digest, hashed, now).users;
    forall j | j in after
      ensures !HoldsResetToken(after[j], digest, later)
    {
      if j != k {
        assert after[j] == users[j];
      }
    }
  }

  // ---------------------------------------------------------------------------
  // Forgotten password

  const ForgotFailedMsg := "Failed to generate Password Reset Link. Please try after some time."

  /** The value Mongoose queries `email` and `username` with: both paths
      declare `lowercase` and `trim`, and their setters run on the filter
      values before the query is sent. */
  function QueryName(identifier: string): (q: string)
    ensures |q| <= |identifier|
    ensures forall i :: 0 <= i < |q| ==> !('A' <= q[i] <= 'Z')
    ensures q != [] ==> !IsJsSpace(q[0]) && !IsJsSpace(q[|q| - 1])
    ensures q == [] <==> AllSpace(identifier)
  {
    var lower := ToLower(identifier);
    assert AllSpace(lower) <==> AllSpace(identifier) by {
      forall i | 0 <= i < |identifier|
        ensures IsJsSpace(lower[i]) <==> IsJsSpace(identifier[i])
      {
        assert lower[i] == ToLowerChar(identifier[i]);
      }
    }
    var q := Trim(lower);
    assert forall i :: 0 <= i < |q| ==> q[i] == lower[Leading(lower) + i];
    q
  }

  /** A stored name, already lower-case and trimmed, queries as itself. */
  lemma QueryNameIdempotent(identifier: string)
    ensures QueryName(QueryName(identifier)) == QueryName(identifier)
  {
    var q := QueryName(identifier);
    assert ToLower(q) == q;
    if q != [] {
      assert Leading(q) == 0;
      assert Trailing(q) == 0;
    }
  }

  /** `User.findOne({$or: [{email: identifier}, {username: identifier}]})`,
      matched against the lower-cased, trimmed identifier. */
  function AccountFor(users: map<Id, User>, identifier: string): (r: Option<Id>)
    ensures var q := QueryName(identifier);
      r.Some? ==> r.value in users && (users[r.value].email == q || users[r.value].username == q)
    ensures var q := QueryName(identifier);
      r.Some? ==> forall k :: k in users && (users[k].email == q || users[k].username == q) ==> r.value <= k
    ensures var q := QueryName(identifier);
      r.None? <==> forall k :: k in users ==> users[k].email != q && users[k].username != q
  {
    var q := QueryName(identifier);
    FindFirst(users.Keys, k => k in users && (users[k].email == q || users[k].username == q))
  }

  /** `forgotPassword`. `digest` and `expire` are what
      `generatePasswordResetToken` stores; `emailSent` says whether the
      mail went out. */
  function Forgot(users: map<Id, User>, identifier: Option<string>, digest: string, expire: Time,
                  emailSent: bool): (c: UsersChange)
    ensures identifier.None? || identifier.value == "" ==>
              c == UsersChange(Err(BadRequest("Identifier is required!")), users)
    ensures identifier.Some? && identifier.value != "" && AccountFor(users, identifier.value).None? ==>
              c == UsersChange(Err(NotFound("Account not exists!")), users)
    ensures c.reply.Ok? <==> emailSent && identifier.Some? && identifier.value != ""
                             && AccountFor(users, identifier.value).Some?
    ensures c.reply.Ok? ==> && c.reply.value == "Password Reset Link sent to your email"
                            && var k := AccountFor(users, identifier.value).value;
                               c.users == users[k := users[k].(resetPswdToken := Some(digest), resetPswdExpire := Some(expire))]
    ensures identifier.Some? && identifier.value != "" && AccountFor(users, identifier.value).Some? && !emailSent ==>
              c.reply == Err(InternalError(ForgotFailedMsg))
    ensures c.reply == Err(InternalError(ForgotFailedMsg)) ==>
              var k := AccountFor(users, identifier.value).value;
              c.users == users[k := users[k].(resetPswdToken := None, resetPswdExpire := None)]
    ensures c.reply.Err? && c.reply != Err(InternalError(ForgotFailedMsg)) ==> c.users == users
  {
    if identifier.None? || identifier.value == "" then
      UsersChange(Err(BadRequest("Identifier is required!")), users)
    else
      match AccountFor(users, identifier.value)
      case None => UsersChange(Err(NotFound("Account not exists!")), users)
      case Some(k) =>
        var issued := users[k].(resetPswdToken := Some(digest), resetPswdExpire := Some(expire));
        if emailSent then UsersChange(Ok("Password Reset Link sent to your email"), users[k := issued])
        else UsersChange(Err(InternalError(ForgotFailedMsg)),
                         users[k := issued.(resetPswdToken := None, resetPswdExpire := None)])
  }

  method ForgotPassword(db: Store, identifier: Option<string>, digest: string, expire: Time,
                        emailSent: bool) returns (reply: Result<string>)
    modifies db`users
    ensures UsersChange(reply, db.users) == Forgot(old(db.users), identifier, digest, expire, emailSent)
  {
    if identifier.None? || identifier.value == "" {
      return Err(BadRequest("Identifier is required!"));
    }
    var found := AccountFor(db.users, identifier.value);
    if found.None? {
      return Err(NotFound("Account not exists!"));
    }
    var k := found.value;
    var u := db.users[k];
    u := u.(resetPswdToken := Some(digest), resetPswdExpire := Some(expire));
    db.users := db.users[k := u];
    if emailSent {
      reply := Ok("Password Reset Link sent to your email");
    } else {
      u := u.(resetPswdToken := None, resetPswdExpire := None);
      db.users := db.users[k := u];
      reply := Err(InternalError(ForgotFailedMsg));
    }
  }

  /** The link that `forgotPassword` mails resets the account's password
      before it expires, when no other user holds the same digest. */
  lemma {:induction false} ForgotThenReset(users: map<Id, User>, identifier: string, token: string, digest: string,
                                           expire: Time, password: string, hashed: string, now: Time)
    requires Forgot(users, Some(identifier), digest, expire, true).reply.Ok?
    requires forall k :: k in users ==> users[k].resetPswdToken != Some(digest)
    requires now < expire
    requires ValidateReset(token, Some(password)) == []
    ensures var k := AccountFor(users, identifier).value;
            var issued := Forgot(users, Some(identifier), digest, expire, true).users;
            var c := Reset(issued, token, Some(password), digest, hashed, now);
            c.reply.Ok? && c.users[k].password == hashed && c.users[k].resetPswdToken.None?
  {
    var k := AccountFor(users, identifier).value;
    var issued := Forgot(users, Some(identifier), digest, expire, true).users;
    assert HoldsResetToken(issued[k], digest, now);
    forall j | j in issued && j != k
      ensures !HoldsResetToken(issued[j], digest, now)
    {
      assert issued[j] == users[j];
    }
  }

  /** When the mail fails, the account holds no reset token afterwards. */
  lemma FailedMailIssuesNoToken(users: map<Id, User>, identifier: string, digest: string, expire: Time)
    requires Forgot(users, Some(identifier), digest, expire, false).reply.Err?
    requires AccountFor(users, identifier).Some? && identifier != ""
    ensures var k := AccountFor(users, identifier).value;
            Forgot(users, Some(identifier), digest, expire, false).users[k].resetPswdToken.None?
  {
  }

  // ---------------------------------------------------------------------------
  // Session

  const UnauthorizedMsg := "Unauthorized request"
  const StaleRefreshMsg := "Refresh token is expired or used"

  /** What `jwt.verify` makes of a refresh token: the `_id` of its payload,
      or the message of the error it throws ("jwt expired", "jwt malformed",
      "invalid signature", ...). */
  datatype Verdict = Verified(id: Id) | Rejected(message: string)

  /** `logoutUser`: `$set: {refreshToken: ""}` on the viewer, if present. */
  function LoggedOut(users: map<Id, User>, viewer: Id): (r: map<Id, User>)
    ensures r.Keys == users.Keys
    ensures viewer in users ==> r[viewer] == users[viewer].(refreshToken := "")
    ensures forall k :: k in users && k != viewer ==> r[k] == users[k]
  {
    if viewer in users then users[viewer := users[viewer].(refreshToken := "")] else users
  }

  method LogoutUser(db: Store, viewer: Id)
    modifies db`users
    ensures db.users == LoggedOut(old(db.users), viewer)
  {
    if viewer in db.users {
      var u := db.users[viewer];
      db.users := db.users[viewer := u.(refreshToken := "")];
    }
  }

  /** The checks of `refreshSession` up to the new tokens: the user the
      incoming token belongs to. `decoded` is the id `jwt.verify` takes from
      the token, or the error it throws when it rejects it; that error
      reaches the error handler with its own message. */
  function RefreshCheck(users: map<Id, User>, incoming: Option<string>, decoded: Verdict): (r: Result<Id>)
    ensures incoming.None? || incoming.value == "" ==> r == Err(Unauthorized(UnauthorizedMsg))
    ensures r.Ok? <==> && incoming.Some? && incoming.value != "" && decoded.Verified?
                       && decoded.id in users && users[decoded.id].refreshToken == incoming.value
    ensures r.Ok? ==> r.value == decoded.id
    ensures incoming.Some? && incoming.value != "" && decoded.Rejected? ==> r == Err(Thrown(decoded.message))
    ensures r.Err? && incoming.Some? && incoming.value != "" && decoded.Verified? ==> r == Err(Unauthorized(StaleRefreshMsg))
  {
    if incoming.None? || incoming.value == "" then Err(Unauthorized(UnauthorizedMsg))
    else match decoded
      case Rejected(message) => Err(Thrown(message))
      case Verified(id) =>
        if id !in users then Err(Unauthorized(StaleRefreshMsg))
        else if incoming.value != users[id].refreshToken then Err(Unauthorized(StaleRefreshMsg))
        else Ok(id)
  }

  /** `refreshSession`: on success the user's refresh token is replaced by
      the freshly signed `newRefresh`. */
  method RefreshSession(db: Store, incoming: Option<string>, decoded: Verdict, newRefresh: string)
    returns (reply: Result<string>)
    modifies db`users
    ensures var check := RefreshCheck(old(db.users), incoming, decoded);
            && (check.Err? ==> reply == Err(check.error) && db.users == old(db.users))
            && (check.Ok? ==> var k := check.value;
                  reply == Ok("Welcome back " + old(db.users)[k].fullname + "!")
                  && db.users == old(db.users)[k := old(db.users)[k].(refreshToken := newRefresh)])
  {
    var check := RefreshCheck(db.users, incoming, decoded);
    if check.Err? {
      return Err(check.error);
    }
    var u := db.users[check.value];
    db.users := db.users[check.value := u.(refreshToken := newRefresh)];
    reply := Ok("Welcome back " + u.fullname + "!");
  }

  /** After logout no refresh token is accepted for the user. */
  lemma LogoutRevokesRefresh(users: map<Id, User>, viewer: Id, incoming: Option<string>, decoded: Verdict)
    ensures RefreshCheck(LoggedOut(users, viewer), incoming, decoded) != Ok(viewer)
  {
  }

  /** A refresh rotates the token: the one just used is refused afterwards. */
  lemma RefreshRotates(users: map<Id, User>, incoming: string, k: Id, newRefresh: string)
    requires RefreshCheck(users, Some(incoming), Verified(k)) == Ok(k)
    requires newRefresh != incoming
    ensures RefreshCheck(users[k := users[k].(refreshToken := newRefresh)], Some(incoming), Verified(k)).Err?
  {
  }

  // ---------------------------------------------------------------------------
  // Upload terms

  /** `toggleUploadTCAccepted`: `$set` of the negated flag on the viewer. */
  function TermsToggled(users: map<Id, User>, viewer: Id): (r: map<Id, User>)
    ensures r.Keys == users.Keys
    ensures viewer in users ==> r[viewer].uploadTCAccepted == !users[viewer].uploadTCAccepted
    ensures viewer in users ==> r[viewer].(uploadTCAccepted := users[viewer].uploadTCAccepted) == users[viewer]
    ensures forall k :: k in users && k != viewer ==> r[k] == users[k]
  {
    if viewer in users then users[viewer := users[viewer].(uploadTCAccepted := !users[viewer].uploadTCAccepted)]
    else users
  }

  method ToggleUploadTC(db: Store, viewer: Id)
    modifies db`users
    ensures db.users == TermsToggled(old(db.users), viewer)
  {
    if viewer in db.users {
      var u := db.users[viewer];
      db.users := db.users[viewer := u.(uploadTCAccepted := !u.uploadTCAccepted)];
    }
  }

  /** Toggling twice restores the flag. */
  lemma {:induction false} ToggleTwiceRestores(users: map<Id, User>, viewer: Id)
    ensures TermsToggled(TermsToggled(users, viewer), viewer) == users
  {
    var r := TermsToggled(TermsToggled(users, viewer), viewer);
    assert forall k :: k in users ==> r[k] == users[k];
  }
}
