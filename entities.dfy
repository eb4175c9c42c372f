/** The documents of the MongoDB collections the controllers read and write.
    A document's `_id` is not a field: it is the key under which the store
    holds the document. */
module Entities {
  import opened Common

  /** An uploaded image: its Cloudinary id and its URL. */
  datatype Image = Image(publicId: string, url: string)

  /** One entry of a user's watch history. */
  datatype WatchEntry = WatchEntry(videoId: Id, watchedAt: Time)

  datatype User = User(
    username: string,
    email: string,
    fullname: string,
    avatar: Image,
    coverImage: Image,
    watchHistory: seq<WatchEntry>,
    password: string,
    refreshToken: string,
    uploadTCAccepted: bool,
    resetPswdToken: Option<string>,
    resetPswdExpire: Option<Time>)

  datatype Video = Video(
    owner: Id,
    title: string,
    description: string,
    duration: int,
    views: nat,
    isPublic: bool,
    isNSFW: bool,
    createdAt: Time,
    updatedAt: Time)

  datatype Comment = Comment(
    content: string,
    video: Id,
    parentComment: Option<Id>,
    owner: Id,
    createdAt: Time,
    updatedAt: Time)

  /** The one reference a Like record sets: `video`, `comment` or `tweet`. */
  datatype Target = OnVideo(id: Id) | OnComment(id: Id) | OnTweet(id: Id)

  /** The values of a Like record's `likeType`. */
  datatype LikeType = Like | Dislike

  /** A Like record: the reaction of `likedBy` to `target`. */
  datatype Reaction = Reaction(target: Target, likeType: LikeType, likedBy: Id, createdAt: Time)

  /** A playlist; `visibility` is the stored text, "public" or "private" when
      written through schema validation. */
  datatype Playlist = Playlist(
    title: string,
    description: Option<string>,
    visibility: string,
    videos: seq<Id>,
    owner: Id,
    createdAt: Time,
    updatedAt: Time)

  datatype Subscription = Subscription(subscriber: Id, channel: Id)

  /** A search term and the number of times it was searched. */
  datatype SearchEntry = SearchEntry(searchText: string, count: nat, createdAt: Time, updatedAt: Time)

  /** The owner projection `{fullname, username, avatar: "$avatar.url"}`
      joined into video listings. */
  datatype OwnerCard = OwnerCard(id: Id, fullname: string, username: string, avatar: string)

  function CardOf(id: Id, u: User): OwnerCard {
    OwnerCard(id, u.fullname, u.username, u.avatar.url)
  }
}
