/** The database: one collection per model, each a map from document key to
    document. The search tally is kept in insertion order, the order in which
    an unsorted `find()` returns it. */
module Db {
  import opened Common
  import opened Entities

  class Store {
    var users: map<Id, User>
    var videos: map<Id, Video>
    var comments: map<Id, Comment>
    var likes: map<Id, Reaction>
    var playlists: map<Id, Playlist>
    var subscriptions: map<Id, Subscription>
    /** The keys of the Tweet collection; its documents are not modelled. */
    var tweets: set<Id>
    var searches: seq<SearchEntry>

    constructor ()
      ensures users == map[] && videos == map[] && comments == map[] && likes == map[]
      ensures playlists == map[] && subscriptions == map[] && tweets == {} && searches == []
    {
      users := map[];
      videos := map[];
      comments := map[];
      likes := map[];
      playlists := map[];
      subscriptions := map[];
      tweets := {};
      searches := [];
    }
  }
}
