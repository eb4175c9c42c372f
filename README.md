# videoshare-server controllers in Dafny

This project models the request handlers of the videoshare-server controllers. Each handler is a rule over an in-memory copy of its MongoDB collections.

The store (`Db.Store`, in `store.dfy`) is a class with one field per collection: users, videos, comments, likes, playlists and subscriptions. Each field is a map from document key to document. The tweet collection is only the set of its keys. The search tally is a sequence kept in insertion order, the order an unsorted `find()` returns it in.

Each handler that writes is modelled twice:

- a pure function from the collections and the request to the reply and the new collections;
- a `method` on the store that `modifies` only the collections the handler writes, and whose `ensures` ties the new state to that function.

Read-only endpoints are functions over the maps. Properties that relate several calls are lemmas about the pure functions:

- idempotence;
- one-record-per-user-and-target uniqueness;
- the 10000-entry cap;
- single-use reset tokens;
- that pages cover a listing exactly once.

Modelling conventions:

- **Ids and errors.** Document ids are natural numbers. A request argument that is not a well-formed ObjectId is the `BadRef` variant of `Common.Ref`. It produces the error the handler or Mongoose produces for it: a 400, or the `CastError` that `findById` throws. A created document gets `Common.FreshKey`, a key larger than every key in use.
- **Scans and pipelines.** A collection scan lists its documents in ascending key order, which is how ObjectIds created over time sort. Aggregation pipelines are datatypes of stages (`VideoPipeline.Stage`) with a function for what each stage does. `$sort` is a stable sort (`Ordering.SortBy`), proved to return a sorted permutation of its input under every order the handlers use.
- **Paging.** The hand-rolled page metadata of the watch history and the video listings is `Paging.Meta`. The pages that `mongoose-aggregate-paginate-v2` builds (liked videos, playlists, comments) use `Paging.PluginMeta`, which follows that library's documented rule `totalPages = Math.ceil(totalDocs / limit) || 1`; the library's own source is not part of this model. Defaults follow the source: the destructuring defaults `page = 1, limit = 10`, or `limit = 15` for comments. The watch history falls back through `Number(q) || d`.
- **Outside inputs.** Clocks, password and token hashes, JWT payloads, mail delivery and Atlas Search hits are never computed. They arrive as parameters: a time `now`, a hash value, a flag saying whether the mail went out, a sequence of hit ids.
- **Watch history.** It is a list of `{videoId, watchedAt}` entries, as the controllers read and write it. `src/models/User.model.ts` declares it as a list of ObjectIds instead, and the model follows the controllers.
- **User fields.** `src/models/User.model.ts` declares neither `resetPswdToken`, `resetPswdExpire` nor `uploadTCAccepted`, nor the method `generatePasswordResetToken`, yet the controllers read and write them (src/controllers/user.controllers.ts:313, 347, 391 and 926). The model's `User` record has these fields. It keeps no `createdAt`/`updatedAt`, since no modelled handler reads a user's timestamps.

## Model

| member | source | states |
|---|---|---|
| Common.FreshKey | src/controllers/like.controllers.ts:87-91 | a created document gets an id no stored document has, larger than every one in use |
| Seqs.KeysAsc | src/controllers/video.controller.ts:118 | a collection scan lists every key once, in ascending order |
| Seqs.Slice | src/controllers/user.controllers.ts:845 | `$slice: [list, skip, limit]` holds the at most `limit` elements from position `skip`, and none past the end |
| Ordering.SortBy | src/controllers/video.controller.ts:69-82 | a `$sort` stage keeps exactly its input, as a multiset |
| Ordering.SortBySorted | src/controllers/video.controller.ts:69-82 | under a total preorder, the `$sort` output is sorted |
| Ordering.SortByMember | src/controllers/video.controller.ts:69-82 | sorting neither adds nor drops an element |
| Ordering.StrLeIsTotalPreorder | src/controllers/playlist.controller.ts:339-343 | byte-wise string order, as a `$sort` by title uses it, is a total preorder |
| Search.Tallied | src/controllers/search.controller.ts:32-41 | a search adds at most one entry to the tally |
| Search.Normalize | src/controllers/search.controller.ts:29-41 | the stored key is the trimmed, lower-cased text: never longer than it, empty exactly when the text is blank, with no upper-case ASCII letter and no leading or trailing white space |
| Search.NormalizeIdempotent | src/controllers/search.controller.ts:33-41 | normalising a stored key gives the key back, so a repeated search finds its own entry |
| Search.AfterSearch | src/controllers/search.controller.ts:25-57 | a blank text leaves the tally unchanged; otherwise the tally grows by at most one entry |
| Search.Capped | src/controllers/search.controller.ts:44-53 | the cap only removes entries: the result is no longer than the tally, each of its entries was in the tally, and a tally of at most 10000 entries is left as it is |
| Paging.ParamOr | src/controllers/user.controllers.ts:826-827 | `Number(q) \|\| d`: a given non-zero value is used; a missing or zero one falls back to the default |
| Paging.OrDefault | src/controllers/playlist.controller.ts:75-76 | a destructuring default applies exactly when the parameter is absent |
| Paging.CeilDiv | src/controllers/user.controllers.ts:901 | `Math.ceil(n / d)`: the fewest pages of size d that hold n rows |
| Paging.Meta | src/controllers/user.controllers.ts:896-907 | the page metadata: totals, `totalPages` by ceiling division, `pagingCounter = skip + 1`, previous and next pages present exactly when they exist |
| Paging.PluginMeta | src/controllers/playlist.controller.ts:191-194 | the metadata `aggregatePaginate` returns: for a non-empty listing it is the hand-rolled metadata; for an empty one `totalPages` is 1 (`Math.ceil(0 / limit) \|\| 1`), so there is no next page; totals, page, limit and `pagingCounter = skip + 1` are as requested, and previous and next pages are present exactly when they exist |
| Paging.NextPageIffBeforeLast | src/controllers/user.controllers.ts:904 | `page * limit < total` holds exactly when the page is before the last one |
| Paging.LaterSkip | src/controllers/user.controllers.ts:828 | from page 2 on, the skip is at least one whole page |
| Paging.PagesCover | src/controllers/user.controllers.ts:896-907 | walking pages 1 to `totalPages` gives every row once, in order |
| Paging.PagesFromRest | src/controllers/user.controllers.ts:828 | pages from `first` on, enough of them, are everything after page `first - 1` |
| Paging.SkipNext | src/controllers/user.controllers.ts:828 | the next page starts one page further on |
| Strings.Trim | src/controllers/search.controller.ts:29-33 | `trim()` gives the text between the leading and the trailing white space, which starts and ends with a non-space and is empty exactly for all-space text |
| Strings.Leading | src/controllers/search.controller.ts:29 | the leading white space is the longest white-space prefix |
| Strings.Trailing | src/controllers/search.controller.ts:29 | the trailing white space is the longest white-space suffix |
| Strings.TrimIdempotent | src/controllers/search.controller.ts:33 | trimming twice is trimming once |
| Strings.ToLower | src/controllers/search.controller.ts:33 | `toLowerCase()` keeps the length, lowers each ASCII letter and leaves no upper-case one |
| Strings.ToLowerIdempotent | src/controllers/user.controllers.ts:743 | lower-casing twice is lower-casing once |
| PasswordRules.FirstTerminator | src/schema/user/resetPasswordValidator.ts:8 | the first line terminator of the password, or its length when there is none |
| PasswordRules.ValidateReset | src/schema/user/resetPasswordValidator.ts:3-12 | no messages exactly for a non-empty token and a password the pattern accepts; the token message appears exactly for an empty token; the strength message appears exactly for a given password the pattern rejects; at most two messages |
| PasswordRules.SingleLineStrength | src/schema/user/resetPasswordValidator.ts:8 | a single-line password is accepted exactly when it has at least 8 UTF-16 code units with a digit, a lower-case and an upper-case letter; any other character is allowed |
| PasswordRules.AcceptedAstralExample | src/schema/user/resetPasswordValidator.ts:8 | the length counts UTF-16 code units, as `.` without the `u` flag does: "Ab1" and three emoji (six characters, nine units) are accepted |
| PasswordRules.StrongLineExtends | src/schema/user/resetPasswordValidator.ts:8 | a line the pattern matches still matches with characters added at its end |
| PasswordRules.StrongExtends | src/schema/user/resetPasswordValidator.ts:8 | an accepted password stays accepted with characters added at its end: no upper length bound |
| Search.TallyCounts | src/controllers/search.controller.ts:32-42 | a search adds exactly one to the count of its normalised text and leaves every other text's count unchanged |
| Search.TallyUnique | src/models/Search.ts:10-14 | the tally keeps the unique index on `searchText`; every entry afterwards is either the searched text or an entry that was there before |
| Search.TalliedAt | src/controllers/search.controller.ts:32-42 | when the text is found at position i, only that entry changes (count + 1, updatedAt = now); when it is absent, one entry with count 1 (the schema default) is appended |
| Search.UniqueSplit | src/models/Search.ts:10-14 | a collection with unique texts is a head whose text no later entry has, followed by a unique tail |
| Search.UniqueCons | src/models/Search.ts:10-14 | putting an entry whose text the rest lacks in front of a unique collection keeps it unique |
| Search.RankLeIsTotalPreorder | src/controllers/search.controller.ts:46 | the `{count: -1, updatedAt: -1}` ranking is a total preorder, so sorting by it is well defined |
| Search.Ranked | src/controllers/search.controller.ts:45-46 | the ranking is a permutation of the collection, sorted by count descending and then updatedAt descending |
| Search.Doomed | src/controllers/search.controller.ts:45-47 | `.skip(10000)` of the ranking holds every entry beyond the first 10000 and no other |
| Search.Without | src/controllers/search.controller.ts:49-53 | after the deletions, an entry remains exactly when it was stored and was not listed for deletion |
| Search.WithoutStep | src/controllers/search.controller.ts:50-52 | one more `deleteOne` removes one more listed entry from what is left |
| Search.WithoutNoDup | src/controllers/search.controller.ts:49-53 | the deletions create no duplicate entries |
| Search.WithoutUnique | src/models/Search.ts:10-14 | the deletions keep the search texts unique |
| Search.UniqueTextsNoDup | src/models/Search.ts:10-14 | unique texts imply no entry is stored twice |
| Search.CappedKeepsTop | src/controllers/search.controller.ts:44-53 | every entry ranked among the first 10000 survives the clean-up |
| Search.CappedWithinTop | src/controllers/search.controller.ts:44-53 | every entry that survives the clean-up was ranked among the first 10000 |
| Search.CappedBound | src/controllers/search.controller.ts:44 | after the clean-up at most 10000 entries remain and their texts are still unique |
| Search.AfterSearchInvariant | src/controllers/search.controller.ts:25-57 | an update keeps the texts unique and, unless the text was blank (a no-op), leaves at most 10000 entries |
| Search.UpdateSearchDb | src/controllers/search.controller.ts:25-57 | the store after the method is the blank check, the tally and the clean-up applied to the old store |
| Search.Tally | src/controllers/search.controller.ts:32-42 | the loop finds the first entry with the key and bumps it, or appends a new entry; the result is the tally of the old store |
| Search.DeleteOverflow | src/controllers/search.controller.ts:45-53 | deleting the listed entries one by one leaves exactly the capped collection |
| Search.WithoutNext | src/controllers/search.controller.ts:50-52 | deleting the k-th listed entry extends the deleted prefix by one |
| Search.WithoutNone | src/controllers/search.controller.ts:49 | when nothing is listed, nothing is deleted |
| Search.TopSearches | src/controllers/search.controller.ts:9-11 | the listing is the first `limit` entries in natural order; a missing or zero limit lists every entry |
| Search.TopSearchesUnranked | src/controllers/search.controller.ts:11 | a concrete store where the top-1 listing omits the more-searched entry |
| Search.RankedTopSearches | src/controllers/search.controller.ts:7-23 | the intended listing has the same length rule, is sorted by the ranking and holds stored entries only |
| Search.RankedTopIsTop | src/controllers/search.controller.ts:7-23 | every entry left out of the ranked listing ranks at or below every listed entry |
| Reactions.TargetOf | src/models/Like.model.ts:1-40 | the Like record of a toggle references exactly the id the request named, in the field its route names |
| Reactions.ParseLikeType | src/controllers/like.controllers.ts:19-26 | a request is recognised exactly when `likeType` is "like", "dislike" or "delete"; an absent value is rejected |
| Reactions.FindReaction | src/controllers/like.controllers.ts:34-37 | `findOne` gives the first record of the actor on the target in scan order, and none exactly when no such record exists |
| Reactions.Toggle | src/controllers/like.controllers.ts:12-102 | an invalid likeType gives 400 and no change, before the id check; a malformed id then gives its 400; with no record, a missing target gives "does not exists anymore!" even for "delete", then "delete" gives the not-made 400, and like/dislike creates exactly one record stamped now; with a record, "delete" removes exactly it and the reply names its former kind, and like/dislike changes only its kind, keeping its createdAt; every error leaves the collection unchanged; the one-record-per-actor-and-target invariant is kept |
| Reactions.ReactionOf | src/controllers/like.controllers.ts:34-37 | `findOne` finds nothing exactly when the actor has no record on the target; while each actor has at most one record per target, any record found gives its kind |
| Reactions.UpdatePreservesUnique | src/controllers/like.controllers.ts:52-65 | changing the likeType of an existing record keeps one record per actor and target |
| Reactions.ToggleReaction | src/controllers/like.controllers.ts:12-290 | the three toggle handlers return the reply and leave the collection that `Toggle` gives for the target's collection |
| Reactions.ToggleReachesDesired | src/controllers/like.controllers.ts:39-91 | a valid request whose record or target exists, or a "delete", leaves the actor with the reaction the request names (none after "delete") |
| Reactions.ToggleFrames | src/controllers/like.controllers.ts:12-102 | a toggle changes no other actor's reaction and no reaction on another target |
| Reactions.OtherRecordsSame | src/controllers/like.controllers.ts:34-37 | the reaction found for an actor and target depends only on that actor's records on that target |
| Reactions.ToggleIdempotent | src/controllers/like.controllers.ts:39-91 | repeating the same request changes nothing more |
| Reactions.Replay | src/controllers/like.controllers.ts:12-102 | any sequence of toggles by one actor on one target keeps one record per actor and target |
| Reactions.LastValid | src/controllers/like.controllers.ts:19-26 | the index of the last recognised likeType: every later one is unrecognised |
| Reactions.ReplayEndsWithLastValid | src/controllers/like.controllers.ts:39-91 | after any sequence of requests on an existing target, the actor holds the reaction the last valid request named |
| Reactions.LastValidOfTail | src/controllers/like.controllers.ts:19-26 | dropping the first request shifts the last valid index by one |
| Reactions.ReplayInvalidKeeps | src/controllers/like.controllers.ts:19-26 | requests with unrecognised likeTypes change nothing |
| Reactions.MyLikeKeys | src/controllers/like.controllers.ts:302-341 | the viewer's "like" records on videos whose video and owner both exist, each once, and all of them |
| Reactions.LikedVideos | src/controllers/like.controllers.ts:292-363 | every row is one of the viewer's joinable "like" records joined with its video and owner; every such record appears; newest first; no record twice |
| Reactions.Rows | src/controllers/like.controllers.ts:308-341 | the lookups turn each record key into its joined row, one for one |
| Reactions.LikedSortInfo | src/controllers/like.controllers.ts:342-346 | sorting the joined rows by `createdAt: -1` gives a newest-first list that still has distinct records |
| Reactions.DistinctIdsPermutation | src/controllers/like.controllers.ts:342-346 | reordering the rows keeps their record keys distinct |
| Reactions.LikedRowsSound | src/controllers/like.controllers.ts:302-346 | after sorting, every row is still a joinable like of the viewer and every joinable like is still present |
| Reactions.LikedVideosPage | src/controllers/like.controllers.ts:296-363 | the page (defaults: page 1, limit 10) holds at most `limit` rows, cut from the liked list after `(page - 1) * limit` rows, with the plugin's metadata (`Paging.PluginMeta`) over the whole list |
| Reactions.LikedPageRows | src/controllers/like.controllers.ts:296-363 | the rows of a page are the viewer's joinable likes with their video and owner, newest first, with no record twice |
| VideoPipeline.KeyLeTotal | src/controllers/video.controller.ts:69-82 | any two sort values compare one way or the other |
| VideoPipeline.Apply | src/controllers/video.controller.ts:33-115 | one stage: only the text search can add rows; `$sort` and `$lookup` keep the number of rows; `$limit n` leaves at most n; `$match` and `$unwind` return input rows only, and every row a `$match` returns meets its condition; after `$unwind` every row has its owner |
| VideoPipeline.Run | src/controllers/video.controller.ts:33-135 | a pipeline without a text search never returns more rows than it is given, and one that ends in `$limit n` returns at most n |
| VideoPipeline.KeyLeTransitive | src/controllers/video.controller.ts:69-82 | comparing sort values is transitive |
| VideoPipeline.RowLeIsTotalPreorder | src/controllers/video.controller.ts:69-82 | every sort order of a listing is a total preorder, so the sort stage yields a sorted list |
| VideoPipeline.RowsOf | src/controllers/video.controller.ts:118 | each key becomes its stored video, one for one |
| VideoPipeline.AllRows | src/controllers/video.controller.ts:118 | the collection scan gives every stored video once, without an owner card |
| VideoPipeline.AllRowsHas | src/controllers/video.controller.ts:118 | every stored video is a row of the scan |
| VideoPipeline.HitRows | src/controllers/video.controller.ts:36-50 | `$search` gives the hits that are stored videos, and every such hit |
| VideoPipeline.JoinOwners | src/controllers/video.controller.ts:85-102 | the owner lookup keeps each row's video, and finds a card exactly when the owner is still a user |
| VideoPipeline.RunAppend | src/controllers/video.controller.ts:33-115 | running stages a then b is running a, then b on its output |
| VideoPipeline.FirstMatch | src/controllers/video.controller.ts:124-126 | `findIndex` gives the first `$match` stage, or -1 when there is none |
| VideoPipeline.CountPrefix | src/controllers/video.controller.ts:120-127 | the count pipeline is the prefix of stages through the first `$match`, and empty when there is no `$match` |
| VideoPipeline.CountPrefixAppend | src/controllers/video.controller.ts:120-127 | when a holds a `$match`, appending stages to a does not change the count prefix |
| VideoPipeline.RunCons | src/controllers/video.controller.ts:33-115 | a pipeline runs its first stage, then the rest |
| VideoPipeline.RunSkipLimit | src/controllers/video.controller.ts:112-115 | `$skip` then `$limit` cut the window of `limit` rows after `skip` |
| VideoPipeline.TailRuns | src/controllers/video.controller.ts:69-115 | sorting, the owner join, `$unwind`, `$skip` and `$limit` give the window of the listing |
| VideoPipeline.RunSort | src/controllers/video.controller.ts:69-82 | a `$sort` stage sorts its input |
| VideoPipeline.RunLookup | src/controllers/video.controller.ts:85-102 | a lookup stage joins the owner cards |
| VideoPipeline.RunUnwind | src/controllers/video.controller.ts:104-108 | `$unwind` of the owner drops rows without an owner |
| VideoPipeline.ListingSorted | src/controllers/video.controller.ts:69-108 | a listing is sorted by its order and every row carries an owner card |
| VideoPipeline.JoinOwnersSorted | src/controllers/video.controller.ts:85-102 | the join keeps the order, since the sort orders ignore the owner card |
| VideoPipeline.RowLeIgnoresOwner | src/controllers/video.controller.ts:69-82 | rows with the same id and video compare alike whatever their cards |
| VideoPipeline.ListingRows | src/controllers/video.controller.ts:69-108 | every row of a listing comes from the input and carries the card the lookup joins |
| VideoPipeline.PageOf | src/controllers/video.controller.ts:112-148 | a page holds at most `limit` rows |
| VideoPipeline.PageDocs | src/controllers/video.controller.ts:112-135 | the docs are the page window of the listing, windowed a second time by `.skip().limit()` |
| VideoPipeline.FirstPageDocs | src/controllers/video.controller.ts:112-135 | page 1 holds the first `limit` rows of the listing |
| VideoPipeline.LaterPagesEmpty | src/controllers/video.controller.ts:112-135 | every page after the first is empty: the second window starts past the end of the first |
| VideoPipeline.PageTotal | src/controllers/video.controller.ts:120-131 | when the first `$match` closes the base stages, `totalDocs` counts the rows the base keeps, whatever filters follow |
| VideoPipeline.PageTotalAll | src/controllers/video.controller.ts:253-264 | when the only `$match` is the last filter, `totalDocs` counts every filtered row |
| VideoPipeline.CountPrefixWhole | src/controllers/video.controller.ts:253-261 | stages whose only `$match` is the last one are their own count prefix |
| VideoPipeline.SinglePageOf | src/controllers/video.controller.ts:112-115 | the page with the window applied once holds at most `limit` rows |
| VideoPipeline.SinglePagesCover | src/controllers/video.controller.ts:112-115 | with a single window, each page is the window after `(page - 1) * limit` rows, and pages 1 to `totalPages` give the whole listing once, in order |
| VideoPipeline.FiltersSound | src/controllers/video.controller.ts:33-67 | after the filter stages every row is a stored video that each stage matches |
| VideoPipeline.FilterStagesTail | src/controllers/video.controller.ts:33-67 | after the first filter stage, the rest are `$match` stages |
| VideoPipeline.FilterStageSound | src/controllers/video.controller.ts:33-67 | one filter stage keeps stored rows that it matches |
| VideoPipeline.MatchesKept | src/controllers/video.controller.ts:56-67 | later `$match` stages only drop rows, so an earlier match still holds |
| VideoPipeline.FiltersComplete | src/controllers/video.controller.ts:33-67 | a stored video that every filter matches survives the filters |
| VideoPipeline.FiltersExact | src/controllers/video.controller.ts:33-67 | the filters keep exactly the stored videos that every stage matches |
| VideoPipeline.FilteredRowMatches | src/controllers/video.controller.ts:33-67 | a row that survives the filters is a stored video each stage matches |
| VideoPipeline.MatchingRowFiltered | src/controllers/video.controller.ts:33-67 | a stored video each stage matches survives the filters |
| VideoPipeline.ListingShown | src/controllers/video.controller.ts:69-108 | a listing of matched rows holds only matched rows, now with their owner cards |
| VideoPipeline.FilteredRowsMatch | src/controllers/video.controller.ts:33-67 | every row of the filtered scan is matched by the filters |
| VideoPipeline.RowsMatch | src/controllers/video.controller.ts:33-67 | filtering stored rows gives only matched rows |
| VideoPipeline.PageDocShown | src/controllers/video.controller.ts:33-135 | every video on a page is a stored video each filter matches, with its owner card |
| VideoPipeline.WindowShown | src/controllers/video.controller.ts:112-135 | every row of the double window is a matched row with its owner card |
| VideoPipeline.SliceTwiceIndex | src/controllers/video.controller.ts:112-135 | the i-th row of the double window is row `2 * skip + i` of the listing |
| Videos.VideoList | src/controllers/video.controller.ts:22-156 | a malformed `userId` makes `new ObjectId` throw, and that is the only error; otherwise a page (defaults: page 1, limit 10) holds at most `limit` videos |
| Videos.ListOrder | src/controllers/video.controller.ts:69-82 | with a non-empty `sortBy` and a non-empty `sortType` the sort is on that field, descending exactly for "des"; otherwise newest creation first |
| Videos.OwnerFilter | src/controllers/video.controller.ts:60-67 | an owner filter is added exactly for a well-formed `userId` |
| Videos.ListFilters | src/controllers/video.controller.ts:35-67 | the stages hold the public-and-safe `$match`; the owner `$match` comes last when an owner is given; the count pipeline keeps only the text search (when searching) and the visibility `$match`, never the owner filter |
| Videos.SuggestionFilters | src/controllers/video.controller.ts:177-220 | the count pipeline (lines 253-260) is the whole filter prefix: the text search and the one `$match` |
| Videos.GetAllVideos | src/controllers/video.controller.ts:22-156 | a requested text search records its term through `updateSearchDb` and no other request changes the store; the reply is `VideoList` |
| Videos.ListFiltersAreFilters | src/controllers/video.controller.ts:33-67 | the stages before the sort only filter rows |
| Videos.ListFiltersMatch | src/controllers/video.controller.ts:35-67 | a row passes the list filters exactly when it is public and not NSFW, among the search hits when searching, and of the owner when one is given |
| Videos.ListCandidates | src/controllers/video.controller.ts:33-67 | the filtered rows are exactly the stored visible videos, among the hits when searching, of the owner when given |
| Videos.ListCount | src/controllers/video.controller.ts:120-131 | `totalDocs` counts the stages up to the first `$match`, the visibility match: the owner restriction is not counted |
| Videos.CountIgnoresOwner | src/controllers/video.controller.ts:120-131 | the count is the same with and without an owner restriction |
| Videos.ListDocsShown | src/controllers/video.controller.ts:22-156 | every listed video is stored, public, not NSFW and joined with its owner's card; of the owner when one is given; among the hits when searching |
| Videos.ListSorted | src/controllers/video.controller.ts:69-82 | the listed videos follow the requested order: the `sortBy` field in the `sortType` direction when both are given, otherwise newest first |
| Videos.SliceSorted | src/controllers/video.controller.ts:112-135 | a window of a sorted list is sorted |
| Videos.ListFirstPage | src/controllers/video.controller.ts:112-135 | page 1 holds the first `limit` listed videos |
| Videos.ListLaterPagesEmpty | src/controllers/video.controller.ts:112-135 | because the skip is applied twice, any page after the first comes back empty |
| Videos.Suggestions | src/controllers/video.controller.ts:158-293 | a malformed id gives 400; a missing video gives 404; success exactly for a stored video; at most `limit` suggestions per page |
| Videos.SuggestionCandidates | src/controllers/video.controller.ts:177-220 | the suggestion filters keep exactly the search hits that are other stored public, non-NSFW videos of the same owner |
| Videos.SuggestionFiltersMatch | src/controllers/video.controller.ts:214-221 | a row passes exactly when it is a hit, not the target, of the owner, and public and not NSFW |
| Videos.SuggestionCount | src/controllers/video.controller.ts:253-264 | the count pipeline keeps every filter, so `totalDocs` is the number of candidates |
| Videos.SuggestionsPage | src/controllers/video.controller.ts:158-293 | a successful reply is the page of the suggestion pipeline, most viewed first |
| Videos.SuggestionMatchLast | src/controllers/video.controller.ts:214-221 | the suggestion `$match` is the last filter and the only `$match` among them |
| Videos.SuggestionsShown | src/controllers/video.controller.ts:158-293 | every suggestion is another public, non-NSFW video of the target's owner that the search found, joined with its owner's card |
| Videos.SuggestionDocShown | src/controllers/video.controller.ts:214-250 | a document of a suggestion page meets the suggestion filters and is joined |
| Videos.SuggestionMatched | src/controllers/video.controller.ts:214-221 | what passing the filters says of one video |
| Videos.SuggestionsSorted | src/controllers/video.controller.ts:223 | suggestions come most viewed first, then newest first |
| Videos.SuggestionLaterPagesEmpty | src/controllers/video.controller.ts:249-268 | because the skip is applied twice, any page of suggestions after the first comes back empty |
| Videos.GetVideo | src/controllers/video.controller.ts:387-457 | a malformed id gives 400; a missing or NSFW video, or one whose owner is gone, gives 404; a private video gives 401 to anybody but its owner; success exactly otherwise, with the stored video and its owner card |
| Videos.ListedVideoOpens | src/controllers/video.controller.ts:387-457 | a video the list shows opens for anybody, as the same row |
| Videos.VideoLikeData | src/controllers/video.controller.ts:646-764 | a malformed id gives 400 and is the only error; the data is present exactly for a stored public, non-NSFW video; a video the viewer likes has at least one like |
| Videos.LikeFlagsAreReaction | src/controllers/video.controller.ts:670-730 | with one record per actor and target, `isLiked` and `isDisliked` are the viewer's current reaction and never both hold |
| Videos.FirstLikeCounts | src/controllers/like.controllers.ts:87-91 | a viewer's first "like" raises the video's like count by exactly one |
| Videos.FirstLikeStored | src/controllers/like.controllers.ts:87-91 | a viewer's first "like" stores one new record under a fresh key |
| Videos.LikesOfKindAdd | src/controllers/video.controller.ts:670-690 | a new "like" record under a new key adds exactly that key to the video's likes |
| Videos.RecordView | src/controllers/video.controller.ts:791-802 | a view updates the first entry for the video or appends one: the history grows by at most one |
| Videos.Ids | src/controllers/video.controller.ts:791-793 | the video ids of a history, position by position |
| Videos.RecordViewIds | src/controllers/video.controller.ts:791-802 | a view keeps the ids in their order and adds the video at the end only when it was not there |
| Videos.RecordViewNoDup | src/controllers/video.controller.ts:791-802 | a view adds no duplicate, and adds an entry exactly when the video was new |
| Videos.RecordViewTimes | src/controllers/video.controller.ts:795-801 | the first entry for the video gets the new time, or one new entry is appended; every other entry is as it was |
| Videos.View | src/controllers/video.controller.ts:766-812 | a malformed id gives 400; a missing video gives 404; a missing user gives 400; success exactly otherwise; then the video's views grow by one, its `updatedAt` becomes the time of the view, and only the viewer's history changes; errors change nothing |
| Videos.IncrementVideoView | src/controllers/video.controller.ts:766-812 | the handler's reply and new collections are those `View` gives for the old collections |
| Videos.AddToSet | src/controllers/video.controller.ts:851-853 | `$addToSet` appends the video unless it is already there, and keeps the array free of duplicates |
| Videos.Pull | src/controllers/video.controller.ts:857-859 | `$pull` removes every occurrence of the video and nothing else |
| Videos.PullKeepsOthers | src/controllers/video.controller.ts:857-859 | pulling keeps the other entries in order with their multiplicities |
| Videos.AddEach | src/controllers/video.controller.ts:850-854 | the additions keep the set of playlists |
| Videos.PullEach | src/controllers/video.controller.ts:856-860 | the removals keep the set of playlists |
| Videos.ArraysCheck | src/controllers/video.controller.ts:827-835 | a missing add list throws; a malformed id among the additions gives 400 before the removals are read; then a missing remove list throws and a malformed removal gives 400; no error exactly when both lists are present and well-formed |
| Videos.PlaylistEdit | src/controllers/video.controller.ts:814-866 | a malformed video id gives 400; then the list errors of `ArraysCheck`; success exactly when both lists are present and well-formed, whoever asks; the set of playlists is kept |
| Videos.AddEachEffect | src/controllers/video.controller.ts:850-854 | every listed playlist gains the video without duplicates; other videos' counts and unlisted playlists are unchanged |
| Videos.AddOneEffect | src/controllers/video.controller.ts:851-853 | one `$addToSet` changes only its own playlist, which then holds the video |
| Videos.PullEachEffect | src/controllers/video.controller.ts:856-860 | every listed playlist loses the video; others are unchanged; other videos' counts are kept |
| Videos.PlaylistEditEffect | src/controllers/video.controller.ts:850-860 | after the edit, a playlist from the remove list lacks the video; one only in the add list holds it without duplicates; others are unchanged |
| Videos.AddOne | src/controllers/video.controller.ts:850-854 | `$addToSet` on one playlist: the video is in it afterwards, nothing else joins, no video appears twice if none did before, only `videos` and `updatedAt` change, a missing playlist and every other playlist are unchanged |
| Videos.PullOne | src/controllers/video.controller.ts:856-860 | `$pull` on one playlist: exactly the video leaves it, the rest keep their order, only `videos` and `updatedAt` change, a missing playlist and every other playlist are unchanged |
| Videos.EditIgnoresOwnership | src/controllers/video.controller.ts:836-860 | a concrete request that adds a video to a playlist owned by another user succeeds and changes that playlist |
| Videos.OwnerCheckedEdit | src/controllers/video.controller.ts:836-848 | the intended edit succeeds exactly when every listed playlist exists and is the viewer's, and then agrees with `PlaylistEdit`; otherwise nothing changes |
| Videos.OwnerCheckedChangesOnlyOwn | src/controllers/video.controller.ts:836-848 | with the check in force, only the viewer's own playlists change |
| Videos.UpdateVideoPlaylists | src/controllers/video.controller.ts:814-866 | the handler's reply and new collection are those `PlaylistEdit` gives for the old collection |
| Users.Profile | src/controllers/user.controllers.ts:745-807 | the profile shows the user's own fields; `subscriberCount` and `subscribedToCount` are the numbers of subscriptions to and by the user; `isSubscribed` holds exactly when the viewer subscribes to the user, and then the count is at least 1 |
| Users.HoldsResetToken | src/controllers/user.controllers.ts:390-393 | a user matches the reset query only with a stored token equal to the digest and an expiry strictly after now; an expiry at or before now never matches |
| Users.SubscribersOf | src/controllers/user.controllers.ts:748-756 | the `subscribers` lookup lists exactly the subscriptions whose channel is the user, each once |
| Users.SubscribedToBy | src/controllers/user.controllers.ts:758-766 | the `subscribedTo` lookup lists exactly the subscriptions the user holds, each once |
| Users.SubscriberCount | src/controllers/user.controllers.ts:770-772 | `$size: "$subscribers"` is the number of subscriptions to the channel |
| Users.SubscribedToCount | src/controllers/user.controllers.ts:775-777 | `$size: "$subscribedTo"` is the number of subscriptions the user holds |
| Users.ChannelProfileOf | src/controllers/user.controllers.ts:730-822 | a blank username gives 400; no user with the lower-cased name gives 404; otherwise success with the profile of the first such user |
| Users.LaterFirstIsTotalPreorder | src/controllers/user.controllers.ts:854 | `{watchedAt: -1}` is a total preorder |
| Users.JoinHistory | src/controllers/user.controllers.ts:855-886 | the lookup and `$match: {video: {$ne: null}}` keep at most the entries they were given |
| Users.JoinHistorySound | src/controllers/user.controllers.ts:855-886 | every joined row comes from a history entry whose video exists and is not NSFW |
| Users.JoinHistoryComplete | src/controllers/user.controllers.ts:855-886 | every entry whose video exists and is not NSFW is joined |
| Users.JoinHistorySorted | src/controllers/user.controllers.ts:854-886 | joining keeps the `watchedAt` order |
| Users.HistoryRows | src/controllers/user.controllers.ts:842-887 | at most `limit` rows, all from positions `skip` to `skip + limit - 1` of the history, every shown entry in that window present, latest watched first |
| Users.HistoryRowsWindow | src/controllers/user.controllers.ts:845-886 | the `$slice` window, reordered and joined, keeps exactly the window's shown entries |
| Users.Docs | src/controllers/user.controllers.ts:897 | `docs` is each row's video, one for one |
| Users.WatchHistoryPage | src/controllers/user.controllers.ts:824-919 | `Number(q) \|\| d` defaults (page 1, limit 10); the docs are the joined window; metadata over the whole history; a user who is gone has an empty page and zero total |
| Users.ResetHolder | src/controllers/user.controllers.ts:390-393 | `findOne` gives the first user holding the digest before its expiry, and none exactly when no user does |
| Users.WithNewPassword | src/controllers/user.controllers.ts:404-409 | the saved user has the new hash and no reset token or expiry, and is otherwise unchanged |
| Users.Reset | src/controllers/user.controllers.ts:363-415 | a failing validation gives 400 with the messages joined by ", "; no holder gives 400; success exactly when both pass, and then only the holder's password and reset fields change; errors change nothing |
| Users.ResetPassword | src/controllers/user.controllers.ts:363-415 | the handler's reply and new collection are those `Reset` gives for the old collection |
| Users.ResetIsSingleUse | src/controllers/user.controllers.ts:404-407 | replaying a reset link that worked fails, when no other user holds the same digest |
| Users.QueryName | src/models/User.model.ts:36-51 | the value the `lowercase` and `trim` setters of `email` and `username` turn a query value into: no longer than it, with no upper-case ASCII letter and no leading or trailing white space, empty exactly when it is all white space |
| Users.QueryNameIdempotent | src/models/User.model.ts:36-51 | a value the setters already produced (as every stored email and username is) is queried unchanged |
| Users.AccountFor | src/controllers/user.controllers.ts:302-304 | `findOne({$or: [...]})` gives the first user whose email or username is the lower-cased, trimmed identifier (`QueryName`), and none exactly when there is no such user |
| Users.Forgot | src/controllers/user.controllers.ts:292-361 | a missing or empty identifier gives 400; an account that the lower-cased, trimmed identifier does not find gives 404; success exactly when the mail goes out, and then the account holds the new digest and expiry; a found account whose mail fails gives 500 "Failed to generate Password Reset Link…" and is left with no token; other errors change nothing |
| Users.ForgotPassword | src/controllers/user.controllers.ts:292-361 | the handler's reply and new collection are those `Forgot` gives for the old collection |
| Users.ForgotThenReset | src/controllers/user.controllers.ts:292-415 | a link that was mailed resets the account's password before it expires |
| Users.FailedMailIssuesNoToken | src/controllers/user.controllers.ts:345-358 | when the mail fails, the account ends with no reset token |
| Users.LoggedOut | src/controllers/user.controllers.ts:707-727 | logout clears the viewer's refresh token and changes no other field and no other user |
| Users.LogoutUser | src/controllers/user.controllers.ts:707-727 | the method leaves the collection that `LoggedOut` gives |
| Users.RefreshCheck | src/controllers/user.controllers.ts:649-684 | a missing token gives 401; a token `jwt.verify` rejects throws that library error with its own message ("jwt expired", "jwt malformed", …); success exactly when the decoded user exists and stores the same token; otherwise 401 "expired or used" |
| Users.RefreshSession | src/controllers/user.controllers.ts:649-703 | every error is `RefreshCheck`'s, including the rejecting library's own message, and changes nothing; on success the user's stored refresh token becomes the newly signed one (lines 60-70) and the reply welcomes them by name |
| Users.LogoutRevokesRefresh | src/controllers/user.controllers.ts:707-727 | after logout no refresh token is accepted for the user |
| Users.RefreshRotates | src/controllers/user.controllers.ts:60-70 | once a refresh stores a new token, the token just used is refused |
| Users.TermsToggled | src/controllers/user.controllers.ts:921-941 | the viewer's `uploadTCAccepted` is negated and nothing else changes |
| Users.ToggleUploadTC | src/controllers/user.controllers.ts:921-941 | the method leaves the collection that `TermsToggled` gives |
| Users.ToggleTwiceRestores | src/controllers/user.controllers.ts:921-941 | toggling twice restores the collection |
| Playlists.CheckBody | src/controllers/playlist.controller.ts:21-47 | the body passes exactly with a non-blank title, a visibility that is "public" or "private" when a non-empty one is given, and parseable video ids; a missing or blank title is the first error |
| Playlists.Nested | src/controllers/playlist.controller.ts:104-164 | every nested video is a stored, public and safe video of the playlist, shown with its owner's card |
| Playlists.ViewOf | src/controllers/playlist.controller.ts:217-299 | a shown playlist keeps its stored id, title, description, visibility, owner and timestamps, and every nested video is shown as `Nested` states |
| Playlists.OwnerPlaylists | src/controllers/playlist.controller.ts:166-187 | every listed playlist belongs to the requested owner and has the wanted visibility when one applies |
| Playlists.NewPlaylist | src/models/Playlist.model.ts:25-43 | the created document keeps the given title, description, owner and videos; the schema defaults fill in "private" and an empty video list; both timestamps are now |
| Playlists.Create | src/controllers/playlist.controller.ts:16-62 | a failing body check gives its error; an empty visibility passes the controller but the schema's enum rejects it; success exactly otherwise, storing the new playlist under a fresh key and nothing else; errors change nothing |
| Playlists.CreateKeepsVisibility | src/models/Playlist.model.ts:25-29 | creating keeps every stored visibility "public" or "private" |
| Playlists.CreatePlaylist | src/controllers/playlist.controller.ts:16-62 | the handler's reply and new collection are those `Create` gives for the old collection |
| Playlists.IndexLeIsTotalPreorder | src/controllers/playlist.controller.ts:111-160 | ordering by first position in the playlist's array is a total preorder |
| Playlists.NestedKeys | src/controllers/playlist.controller.ts:105-160 | the nested lookup selects exactly the videos the playlist lists that are public, not NSFW and whose owner exists, each once |
| Playlists.NestedRows | src/controllers/playlist.controller.ts:128-150 | each selected video gets its owner card, one for one |
| Playlists.NestedRowsMember | src/controllers/playlist.controller.ts:128-150 | every nested row is a selected stored video with its owner's card |
| Playlists.NestedRowsHas | src/controllers/playlist.controller.ts:128-150 | every selected video has a nested row |
| Playlists.NestedRowsNoDup | src/controllers/playlist.controller.ts:105-160 | distinct selected videos give distinct rows |
| Playlists.NestedSound | src/controllers/playlist.controller.ts:105-160 | every nested video is one the lookup shows, with its owner card |
| Playlists.NestedComplete | src/controllers/playlist.controller.ts:105-160 | every shown video is among the nested videos |
| Playlists.NestedExact | src/controllers/playlist.controller.ts:105-160 | the nested videos are exactly the shown ones, each with its owner card |
| Playlists.NestedSortedNoDup | src/controllers/playlist.controller.ts:152-160 | the nested videos are sorted by first position in the array and repeat no video |
| Playlists.IndexOfDistinct | src/controllers/playlist.controller.ts:121-125 | two different videos of the array have different first positions |
| Playlists.NestedOrder | src/controllers/playlist.controller.ts:121-160 | the nested videos strictly follow the order of first occurrence in the playlist's array |
| Playlists.PlaylistData | src/controllers/playlist.controller.ts:207-311 | a malformed id gives 400; a missing playlist gives 404; success exactly for a stored playlist, whatever its visibility and whoever asks; the reply is that playlist with its nested videos |
| Playlists.Wanted | src/controllers/playlist.controller.ts:166-187 | somebody else's listing is narrowed to "public"; the owner's is narrowed exactly when a visibility other than "" or "all" is asked for, and then to that one |
| Playlists.OwnedKeys | src/controllers/playlist.controller.ts:98-102 | `$match: {owner}` selects exactly the owner's playlists |
| Playlists.EntryRows | src/controllers/playlist.controller.ts:98-102 | each selected key becomes its stored playlist, one for one |
| Playlists.EntryRowsMember | src/controllers/playlist.controller.ts:98-102 | every selected row is a stored playlist under its key |
| Playlists.EntryRowsHas | src/controllers/playlist.controller.ts:98-102 | every selected key has a row |
| Playlists.Keep | src/controllers/playlist.controller.ts:173-187 | the visibility `$match` keeps, in order, exactly the rows of the wanted visibility, and everything when none is wanted |
| Playlists.Views | src/controllers/playlist.controller.ts:104-165 | each entry of a page becomes its reply row with nested videos, one for one |
| Playlists.GetPlaylists | src/controllers/playlist.controller.ts:70-206 | a missing or malformed userId gives 400; then an unknown visibility gives 400; success exactly otherwise; a page (defaults: page 1, limit 10) holds at most `limit` playlists |
| Playlists.OwnerPlaylistsSound | src/controllers/playlist.controller.ts:98-187 | every listed entry is a stored playlist of the owner that the visibility rule lets through |
| Playlists.OwnerPlaylistsFromRows | src/controllers/playlist.controller.ts:166-187 | a listed entry is an owned row of the wanted visibility |
| Playlists.OwnerPlaylistsExact | src/controllers/playlist.controller.ts:98-187 | the listing holds exactly the owner's playlists that the visibility rule lets through |
| Playlists.OwnerPlaylistsComplete | src/controllers/playlist.controller.ts:98-187 | every playlist of the owner that the rule lets through is listed |
| Playlists.OwnedEntryRow | src/controllers/playlist.controller.ts:98-102 | every playlist of the owner is among the owned rows |
| Playlists.OwnerPlaylistsKeeps | src/controllers/playlist.controller.ts:166-187 | an owned row of the wanted visibility survives the sort and the filter |
| Playlists.KeptAfterSort | src/controllers/playlist.controller.ts:166-187 | sorting then filtering keeps every row the filter lets through |
| Playlists.OwnerPlaylistsSorted | src/controllers/playlist.controller.ts:166-170 | the listing is newest update first |
| Playlists.GetPlaylistsVisibility | src/controllers/playlist.controller.ts:173-187 | every playlist of a page is a stored playlist of the requested user; somebody else sees only public ones; the owner asking for "public" or "private" sees only that visibility |
| Playlists.GetPlaylistsDocs | src/controllers/playlist.controller.ts:191-194 | the page is the views of the listing's window after `(page - 1) * limit` entries |
| Playlists.ViewsStored | src/controllers/playlist.controller.ts:104-165 | the reply row of a stored entry is the view of that playlist with its owner and visibility |
| Playlists.GetPlaylistsSorted | src/controllers/playlist.controller.ts:166-170 | each page is newest update first |
| Playlists.GetPlaylistsPagesCover | src/controllers/playlist.controller.ts:191-194 | `totalPages` is the ceiling of listing length over limit, or 1 for an empty listing, and pages 1 to `totalPages` together are the whole listing in order |
| Playlists.ListedIsData | src/controllers/playlist.controller.ts:207-311 | a playlist on any page reads back the same through `getPlaylistData` |
| Playlists.OptionRows | src/controllers/playlist.controller.ts:318-336 | each of the viewer's playlists becomes an option whose `isPresent` says whether the video is in it |
| Playlists.PlaylistOptions | src/controllers/playlist.controller.ts:314-360 | a malformed video id makes `new ObjectId` throw, and that is the only error; otherwise at most 10 options (the plugin's default page) |
| Playlists.OptionRowsMember | src/controllers/playlist.controller.ts:318-336 | every option row is one of the selected playlists with `isPresent` set |
| Playlists.OptionRowsHas | src/controllers/playlist.controller.ts:318-336 | every selected playlist has an option row |
| Playlists.AllOptionsExact | src/controllers/playlist.controller.ts:318-344 | the options are exactly the viewer's playlists, with `isPresent` true exactly when the video is in them |
| Playlists.AllOptionsSorted | src/controllers/playlist.controller.ts:339-343 | the options are sorted by title |
| Playlists.TitleFirstIsTotalPreorder | src/controllers/playlist.controller.ts:339-343 | ordering by title is a total preorder |
| Playlists.OptionsSound | src/controllers/playlist.controller.ts:314-360 | each returned option is one of the viewer's playlists, with `isPresent` exactly when the video is in it |
| Playlists.OptionsAreFirstByTitle | src/controllers/playlist.controller.ts:339-350 | the options come by title, and a playlist of the viewer left out sorts at or after every option shown |
| Playlists.OptionsWindow | src/controllers/playlist.controller.ts:346-348 | the reply is the first 10 options by title |
| Playlists.Updated | src/controllers/playlist.controller.ts:418-427 | the write sets the title and keeps owner and createdAt; description, visibility and videos are replaced only when given; updatedAt is now |
| Playlists.Guard | src/controllers/playlist.controller.ts:368-388 | a malformed id gives 400; a missing playlist gives 404; another owner gives 401; the check passes exactly for a stored playlist of the viewer |
| Playlists.Update | src/controllers/playlist.controller.ts:362-523 | a failing guard gives its error; then a failing body check gives its error; success exactly otherwise; the playlist is replaced by its updated version and the reply is its view; errors change nothing |
| Playlists.UpdateFrame | src/controllers/playlist.controller.ts:418-427 | an update keeps the set of keys; only the requested playlist of the viewer can change, and it keeps its owner |
| Playlists.UpdateThenRead | src/controllers/playlist.controller.ts:429-510 | after a successful update, `getPlaylistData` on the playlist gives back exactly the reply |
| Playlists.UpdateStoresEmptyVisibility | src/controllers/playlist.controller.ts:399-427 | a concrete update with visibility "" succeeds and stores a visibility the schema does not allow |
| Playlists.EmptyVisibilityPasses | src/controllers/playlist.controller.ts:391-416 | the body of that example passes the controller's checks |
| Playlists.UpdateStoresGivenVisibility | src/controllers/playlist.controller.ts:399-427 | a successful update stores the visibility the body gives, unchecked against the schema |
| Playlists.CheckedUpdate | src/models/Playlist.model.ts:25-29 | the intended update rejects any given visibility other than "public" or "private" with 400, agrees with `Update` when it succeeds, and keeps every stored visibility valid |
| Playlists.UpdatePlaylist | src/controllers/playlist.controller.ts:362-523 | the handler's reply and new collection are those `Update` gives for the old collection |
| Playlists.Delete | src/controllers/playlist.controller.ts:525-557 | a failing guard gives its error and changes nothing; success exactly for a stored playlist of the viewer, which is then removed |
| Playlists.DeleteFrame | src/controllers/playlist.controller.ts:551 | a delete keeps every other playlist, and after a successful delete the playlist no longer reads back |
| Playlists.DeletePlaylist | src/controllers/playlist.controller.ts:525-557 | the handler's reply and new collection are those `Delete` gives for the old collection |
| Comments.Add | src/controllers/comment.controllers.ts:12-93 | in order: a rejected body gives 400 with the joined messages; a malformed video id throws; a missing video gives 404; a missing parent gives 404; a missing or empty content fails the `required` validator; success exactly when all checks pass; on success the new comment is stored under a fresh key with the video, parent, owner and both timestamps, and nothing else changes; every error leaves the collection unchanged |
| Comments.AddKeepsParentsStored | src/controllers/comment.controllers.ts:43-56 | since the parent is looked up before the insert, an add keeps every reply's parent stored |
| Comments.AddFrame | src/controllers/comment.controllers.ts:51-78 | an add leaves every existing comment as it was |
| Comments.AddVideoComment | src/controllers/comment.controllers.ts:12-93 | the handler's reply and the new collection are those `Add` gives for the old collection |
| Comments.Guard | src/controllers/comment.controllers.ts:117-134 | the lookup and ownership check: a malformed id throws, a missing comment gives 404, another owner gives 401, and the check passes exactly for a stored comment the viewer owns |
| Comments.Edited | src/models/Comment.model.ts:37-39 | the saved comment has the new content and keeps its video, parent, owner and createdAt; updatedAt moves to now only when the content changed, and an unchanged content leaves the document as it was |
| Comments.Edit | src/controllers/comment.controllers.ts:95-143 | a rejected body gives 400; a failing guard gives its error; success exactly for a valid body on a stored comment of the viewer with a non-empty content; on success only that comment is replaced by its edited version; errors change nothing |
| Comments.EditFrame | src/controllers/comment.controllers.ts:136-137 | an edit keeps the set of keys and every comment's video, parent, owner and createdAt; only the requested comment of the viewer can change, and then to the new content |
| Comments.EditIdempotent | src/controllers/comment.controllers.ts:95-143 | repeating a successful edit at any later time succeeds and changes nothing |
| Comments.UpdateComment | src/controllers/comment.controllers.ts:95-143 | the handler's reply and the new collection are those `Edit` gives for the old collection |
| Comments.WithoutOwn | src/controllers/comment.controllers.ts:170-172 | `Like.deleteMany` keeps a record exactly when it is not the deleter's reaction on the comment, and changes no record it keeps |
| Comments.Delete | src/controllers/comment.controllers.ts:145-178 | a failing guard gives its error and changes nothing; success exactly for a stored comment of the viewer; then that comment is removed and so are the deleter's own reactions on it |
| Comments.DeleteFrame | src/controllers/comment.controllers.ts:168-172 | a delete keeps every other comment and every reaction except the deleter's own on the deleted comment, and adds no reaction |
| Comments.DeleteLeavesReplies | src/controllers/comment.controllers.ts:168-172 | a delete does not cascade: replies to the deleted comment stay stored and still name it, so afterwards a reply names a parent that is gone; the deleter's reactions on it are gone |
| Comments.DeleteComment | src/controllers/comment.controllers.ts:145-178 | the handler's reply and both new collections are those `Delete` gives for the old ones |
| Comments.AuthorOf | src/controllers/comment.controllers.ts:303-310 | the owner lookup finds an author exactly when the owner is still a stored user |
| Comments.ReactionKeys | src/controllers/comment.controllers.ts:313-344 | the likes (or dislikes) lookup lists exactly the records of that kind on the comment, each once |
| Comments.Likers | src/controllers/comment.controllers.ts:347-381 | `"$allLikes.likedBy"` gives, for each listed record, its author |
| Comments.ShownOf | src/controllers/comment.controllers.ts:347-412 | a shown comment has its stored content, timestamps and author; `totalLikesCount` is the number of "like" records on it; `isLiked` and `isDisliked` hold exactly when the viewer has such a record |
| Comments.TopLevel | src/controllers/comment.controllers.ts:384-395 | every listed comment is a top-level one (no `parentComment`) |
| Comments.ThreadOf | src/controllers/comment.controllers.ts:201-208 | a thread is headed by the requested comment, and each of its replies is a stored comment whose `parentComment` is that comment |
| Comments.LikersHas | src/controllers/comment.controllers.ts:347-381 | the viewer is among the likers of a kind exactly when they hold a record of that kind on the comment |
| Comments.ReplyKeys | src/controllers/comment.controllers.ts:202-300 | the replies lookup selects exactly the comments whose parent is this one, of any video, each once |
| Comments.ShownAll | src/controllers/comment.controllers.ts:202-300 | each selected reply gets its own reaction fields, one for one |
| Comments.RepliesExact | src/controllers/comment.controllers.ts:202-300 | the replies of a thread are exactly the comments whose parent it is, each shown with its own fields, in ascending key order |
| Comments.ReplyAt | src/controllers/comment.controllers.ts:202-300 | the i-th reply of a thread is the i-th key the lookup selects, a stored comment whose parent is the thread |
| Comments.ReplyListed | src/controllers/comment.controllers.ts:202-300 | every comment whose parent is the thread is among its replies |
| Comments.ReplyKeysAscending | src/controllers/comment.controllers.ts:202-300 | the lookup visits replies in ascending key order |
| Comments.VideoKeys | src/controllers/comment.controllers.ts:195-198 | `$match: {video}` selects exactly the comments of the video, each once |
| Comments.EntryRows | src/controllers/comment.controllers.ts:195-198 | each selected key becomes its stored comment, one for one |
| Comments.EntryRowsMember | src/controllers/comment.controllers.ts:195-198 | every selected row is a stored comment under its key |
| Comments.TopLevelSound | src/controllers/comment.controllers.ts:384-395 | every comment on the top level is a stored top-level comment of the video |
| Comments.FromRows | src/controllers/comment.controllers.ts:384-395 | sorting and `$match: {parentComment: null}` keep only rows that were there and are top-level |
| Comments.TopLevelComplete | src/controllers/comment.controllers.ts:195-395 | every top-level comment of the video is on the top level |
| Comments.VideoEntry | src/controllers/comment.controllers.ts:195-198 | every comment of the video is among the selected rows |
| Comments.KeptTop | src/controllers/comment.controllers.ts:384-395 | sorting and dropping replies keep every top-level row |
| Comments.NewerFirstIsTotalPreorder | src/controllers/comment.controllers.ts:384-388 | `{createdAt: -1}` is a total preorder |
| Comments.TopLevelSortedNoDup | src/controllers/comment.controllers.ts:384-395 | the top level is newest first and lists no comment twice |
| Comments.EntryRowsNoDup | src/controllers/comment.controllers.ts:195-198 | distinct keys give distinct rows |
| Comments.TopKeys | src/controllers/comment.controllers.ts:384-395 | the keys of the top level, position by position |
| Comments.TopLevelCount | src/controllers/comment.controllers.ts:384-418 | the top level has exactly as many entries as the video has top-level comments |
| Comments.TopKeysMember | src/controllers/comment.controllers.ts:384-395 | a key is on the top level exactly when it is a top-level comment of the video |
| Comments.Threads | src/controllers/comment.controllers.ts:398-412 | each top-level entry becomes its thread, one for one |
| Comments.TopLevelStored | src/controllers/comment.controllers.ts:384-395 | every entry of the top level is stored |
| Comments.WindowStored | src/controllers/comment.controllers.ts:415-418 | every entry of a page window of the top level is stored |
| Comments.PageDocsAt | src/controllers/comment.controllers.ts:415-418 | the i-th thread of a page is the top-level comment `skip + i` of the video, with its replies |
| Comments.ListComments | src/controllers/comment.controllers.ts:180-430 | a malformed video id throws; a missing video gives 404; success exactly when the video exists; a page (defaults: page 1, limit 15) has at most `limit` threads, cut after `(page - 1) * limit` top-level comments, with the plugin's metadata (`Paging.PluginMeta`) over the whole top level |
| Comments.ListedThread | src/controllers/comment.controllers.ts:180-430 | each thread of a page is a stored top-level comment of the requested video, shown with its replies |
| Comments.ListSorted | src/controllers/comment.controllers.ts:384-388 | the threads of a page are newest first |
| Comments.ListTotal | src/controllers/comment.controllers.ts:415-418 | `totalDocs` is the number of top-level comments of the video |
| Comments.NestedReplyHidden | src/controllers/comment.controllers.ts:202-395 | replies go one level deep: a reply to a reply is neither a thread nor among any thread's replies |
| Comments.AddedIsListed | src/controllers/comment.controllers.ts:51-78 | a comment added without a parent appears on its video's top level; one added with a parent appears among that parent's replies |

## Left out

- Cloudinary uploads and deletions, Multer storage and the nodemailer/ejs email templates: these are I/O against outside services. Mail delivery is a success flag passed to `Users.Forgot`.
- bcrypt password hashing, SHA-256 of the reset token and JWT signing/verification: each hash is passed in as a value, and so is the verdict of `jwt.verify` (`Users.Verdict`: the decoded id, or the message of the error it throws).
- The ranking of Atlas `$search` (fuzzy matching, scores and highlights): the search stage takes its hits as a given sequence of ids.
- The internals of `mongoose-aggregate-paginate-v2`: the model states the pipeline each handler feeds it and the `docs` and metadata of the requested page.
- The request validator of the comment body: `src/schema/comment` is not part of this model. Its verdict is a parameter, and only the messages it reports are modelled.
- The "Comment Add Failed!" replies of `addVideoComment`: `Comment.create` returns the document or throws, so those branches cannot be reached.
- The documents of the Tweet collection: the tweet toggle needs only whether a tweet key exists.
- Concurrency: the `Promise.all` in `getWatchHistory`, the unawaited `async forEach` in `updateVideoPlaylists`, the unawaited `deleteOne` calls in the search cap, and the check-then-act race in the toggles. Every handler runs as one sequential step.
- JavaScript query-string coercion: `page` and `limit` are positive integers (`Paging.Pos`), and `Math.ceil` is integer ceiling division. The string concatenation that `page + 1` performs on a query string is not modelled. The `limit` of `getTopSearches` is an `Option<nat>`: a missing one (`+undefined` is NaN, which `limit()` ignores) and 0 both list everything, while a negative or non-numeric `limit` cannot be expressed.
- The `g` and `m` regex flags of the reset-password validator on multi-line input: `PasswordRules.SingleLineStrength` states the rule for passwords without a line terminator.
- The order among documents that a `$sort` ranks equal: the model's sort is stable over the ascending-key scan, while MongoDB leaves that order unspecified.
- Registration, login, profile and avatar updates, video upload, tweet and subscription toggles, `getSearchSuggestion`, routes, cookie options and HTTP response shaping: these are outside the modelled controllers' core.
- Videos.RecordViewNoDup: request ids are taken to be canonically spelled, so the text comparison `entry.videoId.toString() === videoId` (src/controllers/video.controller.ts:792) is key equality. In the source, a valid but differently spelled id (upper-case hex) misses the existing entry and appends a duplicate history entry.
- Playlists.Wanted: the owner test `req.user?._id?.toString() === userId.toString()` (src/controllers/playlist.controller.ts:173) is taken as key equality, for the same reason. In the source, the owner asking with a differently spelled id sees only public playlists.
- `toLowerCase` is modelled on ASCII letters only (`Strings.ToLower`); Unicode case mapping is not.
- Reactions.LikedPageRows: states, for each pair of shown rows, that it is a liked video of the viewer, in non-increasing like time and with distinct likes. It does not restate the whole page as a comprehension.

## Findings

| source | as written | input that shows it | evidently intended | confidence | as-written member | corrected member |
|---|---|---|---|---|---|---|
| src/controllers/video.controller.ts:112-135 | the list pipeline ends in `$skip`/`$limit`, and the handler applies `.skip().limit()` to it again | any listing with more than `limit` videos, requested at `page = 2`: the second skip starts past the at most `limit` rows left | page `p` shows the `limit` videos after the first `(p - 1) * limit` | not executed | VideoPipeline.LaterPagesEmpty | VideoPipeline.SinglePagesCover |
| src/controllers/video.controller.ts:249-268 | the suggestion pipeline ends in `$skip`/`$limit`, and the handler applies `.skip().limit()` to it again | more than `limit` suggestions, requested at `page = 2` | page `p` shows the `limit` suggestions after the first `(p - 1) * limit` | not executed | Videos.SuggestionLaterPagesEmpty | VideoPipeline.SinglePagesCover |
| src/controllers/search.controller.ts:11 | "top searches" is `find().limit(limit)`, with no sort | the tally `[("a", count 1), ("b", count 5)]` with `limit = 1` lists only "a" | the `limit` best entries by count, then by recency, the ranking the cap uses (line 46) | not executed | Search.TopSearchesUnranked | Search.RankedTopIsTop |
| src/controllers/video.controller.ts:836-848 | the ownership check runs inside an `async forEach`, and its `next(error)` does not stop the handler | a viewer who lists another user's playlist: the video is added to it and the reply is 200 | a playlist the viewer does not own is rejected and nothing changes | not executed | Videos.EditIgnoresOwnership | Videos.OwnerCheckedChangesOnlyOwn |
| src/controllers/playlist.controller.ts:399-427 | the visibility check is skipped for a falsy value, and `findByIdAndUpdate` writes `visibility: ""` without running the enum validator | an update by the owner with `visibility = ""` | a visibility other than "public" or "private" is never stored | not executed | Playlists.UpdateStoresEmptyVisibility | Playlists.CheckedUpdate |
