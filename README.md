# SoundHub back end: listing, aggregate, feed and toggle services

This project models the service layer of the SoundHub music-sharing back end in
Dafny. It covers the track listing assembler with its two ranking modes, the
per-user aggregates, the following feed, and the like and subscription toggles.
It also covers user profiles and lists, comments, and the track controller that
turns query strings into service arguments.

The model works on a **snapshot** of the store: users, tracks, likes,
subscriptions and comments, each a sequence of rows in storage order. The
read-only services are functions of a snapshot. The services that write
(like/unlike, subscribe/unsubscribe, comment add/update/delete, user
update/delete) are methods of classes that hold the table they change. Each
method keeps the table's uniqueness invariant in `Valid()`.

A storage failure anywhere inside a service's `try` block is the
`storageFails` parameter. The service then answers `Failure(InternalServerError)`
and changes nothing. Every such service writes at most once, as its last
storage call, so a failure can never leave a partial write.

Modules:

- `Common`: the response envelope and JavaScript truthiness of optional ids and
  strings. Also the case-insensitive substring match, storage-order filtering
  and skip/take paging.
- `Ranking`: the comparator and a stable sort. The sort's result is a
  descending permutation of its input. When ranks are distinct, that
  arrangement is the only one.
- `Store`: the rows, the schema's unique keys, and every count the services
  derive from the rows.
- `Table`: the idempotent insert (create unless a row exists) and the delete
  (`deleteMany`) used by the toggles.
- `TrackService`, `LikeService`, `SubscriptionService`, `UserService`,
  `CommentService`: one module per service file.
- `TrackController`: one module for the controller file.
- `Scenarios`: three worked listings, stated over any snapshot of the given
  shape: a feed, a tie broken by recency, and a tag filter.

The ranking rule:

- `likes` sorts all matching tracks by like count and then by creation time,
  both descending, and only then takes the page.
- `new` sorts by creation time, descending, and pages in storage.
- Both are the same `Ranked` sequence paged by `Page`. Consecutive pages
  therefore tile one global ranking (`TrackService.ConsecutivePages`).

Where the specification and the code differ, the model follows the code:

- The specification treats creation times as unique and says ties need no
  tie-break. The code leaves ties to the database. The model breaks ties by
  storage order (a stable sort). `TrackService.ListingIgnoresStorageOrder`
  shows that this choice is invisible when creation times are distinct.
- The specification calls self-subscription a successful no-op. The code
  answers 400 Bad Request before it touches storage, and
  `SubscriptionService.SubscriptionTable.Subscribe` does the same.
- The specification says `likesCount` is a track's like count. In user lists
  (`findAll`, subscriber and subscription cards) the code counts likes the user
  GAVE. In `findById` it counts likes the user's tracks RECEIVED. The model
  keeps both.
- `findAll` takes the page before it sorts, so `sortBy` orders only the users
  on the current page (`UserService.SortingKeepsThePage`).
- The controller routes tracks-by-user through `getAllTracks` with an artist
  filter, not through `getTracksByUserId`. A path id of 0 is falsy there and
  lists every track (`TrackController.ZeroPathIdListsEverything`).

## Model

| member | source | states |
|---|---|---|
| Common.Page | src/api/track/trackService.ts:76 | `slice(offset, offset + limit)`: empty when offset is past the end, else min(limit, remaining) elements, element k being the input's element offset+k |
| Common.PagesConcatenate | src/api/track/trackService.ts:110-112 | a page of size a followed by the page at offset+a of size b is the page of size a+b: skip/take paging tiles the sequence |
| Common.Filter | src/api/track/trackService.ts:37-38 | `findMany({ where })` keeps exactly the rows satisfying the condition, each with its multiplicity, and no more rows than the table has |
| Common.FilterAppend | src/api/comment/commentService.ts:9-11 | filtering a table with one row appended filters that row last |
| Ranking.InsertPermutes | src/api/track/trackService.ts:71-75 | one insertion step of the sort adds exactly one occurrence of the element and drops nothing |
| Ranking.InsertKeepsDescending | src/api/track/trackService.ts:71-75 | inserting into a sequence descending under the comparator keeps it descending |
| Ranking.Sort | src/api/track/trackService.ts:70-75 | the sorted sequence is a permutation of the input (same multiset) and no element is outranked by a later one |
| Ranking.SortKeepsDescending | src/api/track/trackService.ts:70-75 | an input already in comparator order comes back unchanged |
| Ranking.FilterInsert | src/api/track/trackService.ts:71-75 | inserting into a descending sequence places the element after every element of its own rank, leaving each rank's order otherwise unchanged |
| Ranking.SortIsStable | src/api/user/userService.ts:57-65 | the sort is stable: for every rank, the elements of that rank come out in their input order |
| Ranking.SortAppendLast | src/api/comment/commentService.ts:30 | an element outranking nothing before it is sorted to the end, after the others in their sorted order |
| Ranking.DescendingIsUnique | src/api/track/trackService.ts:72-74 | two descending arrangements of the same elements with distinct ranks are equal: the order is fully determined |
| Store.UserById | src/api/user/userService.ts:84-86 | `findUnique` by id: a found row is in the table with that id; none found means no row has the id |
| Store.LikesOfTrackCountsLikers | src/api/track/trackService.ts:58-60 | with one like row per (user, track), a track's `_count.likes` is the number of distinct users who liked it |
| Store.LikesOfTrackConcat | src/api/track/trackService.ts:58-60 | like counts add up over concatenated like tables |
| Store.LikesReceivedIsSumOverTracks | src/api/user/userService.ts:107-109 | with unique track ids, likes joined through `track.artistId` equal the sum of the like counts of the artist's tracks |
| Store.LikesGivenCountsLikedTracks | src/api/user/userService.ts:46-48 | with one like row per (user, track), the likes a user gave are the number of distinct tracks the user likes |
| Table.Inserted | src/api/like/likeService.ts:9-13 | create unless present: the row is there afterwards, no other row's multiplicity changes, the row is added at most once, and a duplicate-free table stays duplicate-free |
| Table.Deleted | src/api/like/likeService.ts:26 | `deleteMany`: the row is gone, every other row keeps its multiplicity, and no duplicates appear |
| Table.InsertIdempotent | src/api/like/likeService.ts:9-13 | inserting twice is inserting once |
| Table.DeleteIdempotent | src/api/like/likeService.ts:26 | deleting twice is deleting once |
| Table.DeleteAbsent | src/api/like/likeService.ts:26 | deleting an absent row changes nothing (not an error) |
| Table.DeleteUndoesInsert | src/api/like/likeService.ts:9-26 | deleting a row that was just inserted into a table without it restores the table |
| Table.InsertAfterDelete | src/api/like/likeService.ts:9-26 | re-inserting after a delete appends the row once |
| TrackService.Personalise | src/api/track/trackService.ts:115-125 | the items are the tracks in order; each `likesCount` is the track's like rows; `isLiked` holds iff a nonzero viewer is given and has a like row on the track |
| TrackService.TracksOfPersonalised | src/api/track/trackService.ts:115-125 | personalising keeps the tracks and their order |
| TrackService.RankedFacts | src/api/track/trackService.ts:35-113 | the ranked sequence is a permutation of the matching tracks, holds exactly the stored tracks satisfying the filter, is descending under the mode's rank, and has no duplicates when track ids are unique |
| TrackService.SameIdSameTrack | src/api/track/trackService.ts:37-38 | with unique track ids, two stored tracks with the same id are the same row |
| TrackService.PageMembers | src/api/track/trackService.ts:70-76 | every track on a page is stored and satisfies the filter |
| TrackService.PageInOrder | src/api/track/trackService.ts:70-76 | a personalised page is in the mode's order: likes then recency, or recency |
| TrackService.PageIdsUnique | src/api/track/trackService.ts:70-76 | with unique track ids, no track appears twice on a page |
| TrackService.ListingFacts | src/api/track/trackService.ts:35-125 | the listing facts below, for the page of the ranking |
| TrackService.ListTracks | src/api/track/trackService.ts:35-125 | at most `limit` items, none when offset is past the matches; each item is a stored track satisfying the filter with its true like count and viewer flag; items follow the ranking policy; ids are unique |
| TrackService.FullListingIsOnePage | src/api/track/trackService.ts:138-183 | the unpaged listing is the first page with a limit covering the store |
| TrackService.PersonaliseConcat | src/api/track/trackService.ts:115-125 | personalising distributes over concatenation |
| TrackService.ConsecutivePages | src/api/track/trackService.ts:70-76 | page (offset, a) followed by page (offset+a, b) is page (offset, a+b): pages tile one global ranking |
| TrackService.RanksDistinctWhenCreatedAtDistinct | src/api/track/trackService.ts:72-74 | distinct creation times make the ranks distinct in both modes |
| TrackService.ListingIgnoresStorageOrder | src/api/track/trackService.ts:35-113 | with distinct creation times, reordering the stored tracks does not change any listing |
| TrackService.RankedIgnoresStorageOrder | src/api/track/trackService.ts:35-113 | with distinct creation times, any reordering of the stored tracks yields the same ranking |
| TrackService.AllTracksShows | src/api/track/trackService.ts:7-136 | when storage works, `getAllTracks` succeeds and lists exactly the requested page of the ranking for its filter |
| TrackService.ArtistRankedMember | src/api/track/trackService.ts:140-172 | a track is in the artist's ranking iff it is stored with that artist id |
| TrackService.PersonaliseShows | src/api/track/trackService.ts:115-125 | a track gets an item iff it was listed |
| TrackService.ListingTracks | src/api/track/trackService.ts:35-125 | the listing's tracks are exactly the page of the ranking |
| TrackService.RankedIs | src/api/track/trackService.ts:35-113 | any descending arrangement of the matches with distinct ranks is the ranking |
| TrackService.ListingWhere | src/api/track/trackService.ts:19-33 | the built condition holds iff each truthy argument's clause holds: title contains, artist name contains (ignoring case), tag is a member, artist id equals |
| TrackService.GetAllTracks | src/api/track/trackService.ts:7-136 | 500 iff storage fails; otherwise at most `limit` items in ranking order, each a stored track matching the query, with its like count and the viewer's flag |
| TrackService.ArtistMatchesCounted | src/api/track/trackService.ts:141 | the tracks matching `{ artistId }` are as many as the artist's track count |
| TrackService.GetTracksByUserId | src/api/track/trackService.ts:138-196 | 500 iff storage fails; otherwise every track of the artist and no other, newest first, with like counts and the viewer's flag |
| TrackService.ArtistTracksListed | src/api/track/trackService.ts:140-172 | the artist's ranked tracks are exactly the stored tracks with that artist id |
| TrackService.LikedTrackIds | src/api/track/trackService.ts:210-214 | the ids collected are exactly the tracks the user has a like row on |
| TrackService.GetLikedTracks | src/api/track/trackService.ts:198-332 | 500 iff storage fails; an empty page when the user liked nothing; otherwise exactly the page (at `offset`, at most `limit`) of the ranking of the liked tracks matching the query, each with its like count and the viewer's flag |
| LikeService.LikeTable.LikeTrack | src/api/like/likeService.ts:7-23 | 500 and no change iff storage fails; otherwise the pair is liked afterwards, inserted once (an existing like is a successful no-op); other rows untouched; the table stays duplicate-free |
| LikeService.LikeTable.UnlikeTrack | src/api/like/likeService.ts:24-37 | 500 and no change iff storage fails; otherwise the pair is not liked afterwards, and other rows are untouched |
| LikeService.LikesOfTrackAppend | src/api/like/likeService.ts:13 | a created like row adds one to its track's count only |
| LikeService.LikesOfTrackDeleted | src/api/like/likeService.ts:26 | deleting a pair's rows removes their number from that track's count only |
| LikeService.LikeCountsOnce | src/api/like/likeService.ts:9-14 | a like raises the track's like count by one exactly when the pair was not liked, and changes no other track's count |
| LikeService.UnlikeCountsOnce | src/api/like/likeService.ts:26 | with one row per pair, an unlike lowers the track's count by one exactly when the pair was liked, and changes no other count |
| LikeService.LikeCountsOnceForLiker | src/api/like/likeService.ts:9-14 | a like raises the liker's count of likes given by one exactly when the pair was not liked, and changes no other user's count |
| LikeService.UnlikeCountsOnceForLiker | src/api/like/likeService.ts:26 | with one row per pair, an unlike lowers the liker's count of likes given by one exactly when the pair was liked, and changes no other user's count |
| LikeService.LikesGivenDeleted | src/api/like/likeService.ts:26 | deleting a pair's rows removes their number from that user's count of likes given only |
| LikeService.LikeShowsAsLiked | src/api/like/likeService.ts:9-27 | after a like the track shows as liked for that user; after an unlike it does not |
| LikeService.TogglesAreIdempotent | src/api/like/likeService.ts:9-27 | like twice = like once; unlike twice = unlike once; unlike after a fresh like restores the table |
| SubscriptionService.SubscriptionTable.Subscribe | src/api/subscription/subscriptionService.ts:7-37 | self-subscription is 400 with no change; otherwise 500 and no change iff storage fails, else the edge is present afterwards and inserted once; no self-edge and no duplicate ever enters |
| SubscriptionService.SubscriptionTable.Unsubscribe | src/api/subscription/subscriptionService.ts:39-53 | 500 and no change iff storage fails; otherwise the edge is gone and other edges are untouched |
| SubscriptionService.SubscribersCountAppend | src/api/subscription/subscriptionService.ts:25-28 | a created edge adds one to its target's subscriber count only |
| SubscriptionService.SubscribeCountsOnce | src/api/subscription/subscriptionService.ts:16-28 | subscribing raises the target's subscriber count by one exactly when the edge was absent |
| SubscriptionService.SubscribeIdempotent | src/api/subscription/subscriptionService.ts:16-44 | subscribing twice is subscribing once; unsubscribing a fresh subscription restores the table |
| SubscriptionService.CardOf | src/api/subscription/subscriptionService.ts:74-86 | a listed user's card carries the likes the user gave and the user's subscriber count |
| SubscriptionService.GetSubscribers | src/api/subscription/subscriptionService.ts:55-100 | 500 iff storage fails; otherwise exactly the skip/take page (at `offset`, at most `limit`) of the edges pointing at the profile in storage order, each shown as its subscriber's card with that user's counts |
| SubscriptionService.GetSubscriptions | src/api/subscription/subscriptionService.ts:102-151 | 500 iff storage fails; otherwise exactly the skip/take page (at `offset`, at most `limit`) of the edges leaving the profile in storage order, each shown as its followee's card with that user's counts |
| SubscriptionService.EdgesToCounted | src/api/subscription/subscriptionService.ts:57-59 | the edges into a user are as many as the user's subscriber count |
| SubscriptionService.EdgesFromCounted | src/api/subscription/subscriptionService.ts:108-110 | the edges out of a user are as many as the user's subscription count |
| SubscriptionService.ListsAgreeWithCounts | src/api/subscription/subscriptionService.ts:55-138 | listed in full, the subscriber and subscription lists are as long as the profile's subscriber and subscription counts |
| SubscriptionService.ListPagesTile | src/api/subscription/subscriptionService.ts:57-73 | page (offset, a) followed by page (offset+a, b) of either list is page (offset, a+b): the pages tile one list |
| SubscriptionService.ListsAreComplete | src/api/subscription/subscriptionService.ts:57-73 | listed in full, the subscriber list has a card for every user with an edge to the profile, and the subscription list one for every user the profile has an edge to |
| SubscriptionService.FollowedIds | src/api/subscription/subscriptionService.ts:161-165 | the followed ids are exactly the targets of the user's edges |
| SubscriptionService.GetFeed | src/api/subscription/subscriptionService.ts:153-211 | 500 iff storage fails; empty success when the user follows nobody; otherwise at most `limit` items, newest first, each a stored track of a followed artist, with the viewer's flag and like count |
| SubscriptionService.FeedShows | src/api/subscription/subscriptionService.ts:153-211 | when storage works and the user follows someone, the feed succeeds and lists exactly the requested page of the followed artists' tracks, newest first |
| SubscriptionService.FollowsNobody | src/api/subscription/subscriptionService.ts:166-168 | the user follows nobody iff the followed-id list is empty |
| SubscriptionService.FeedContentsIgnoreViewer | src/api/subscription/subscriptionService.ts:161-202 | the feed's tracks do not depend on the viewer; with no viewer nothing is liked |
| SubscriptionService.FeedIsComplete | src/api/subscription/subscriptionService.ts:170-190 | every stored track of a followed artist is in the feed listed in full |
| UserService.FindById | src/api/user/userService.ts:79-154 | fails exactly when storage fails (500) or no user has the id (404); otherwise the user's row with likes received, subscriber, subscription and track counts, and `isSubscribed` iff a nonzero viewer other than the user has an edge to the user |
| UserService.ProfileOf | src/api/user/userService.ts:107-142 | the profile carries the user, the likes the user's tracks received, the subscriber, subscription and track counts, and `isSubscribed` iff a nonzero viewer other than the user has an edge to the user |
| UserService.ProfileLikesAreReceived | src/api/user/userService.ts:107-109 | a like the user gives to a track that is not theirs leaves their profile's like count unchanged |
| UserService.IsSubscribedMatchesSubscriberList | src/api/user/userService.ts:125-133 | with no self-edges, `isSubscribed` holds iff the viewer's card is on the profile's full subscriber list |
| UserService.StatsOf | src/api/user/userService.ts:42-55 | a listed user carries the user's subscriber count and the likes the user gave |
| UserService.PageStats | src/api/user/userService.ts:20-55 | exactly the skip/take page (at `offset`, at most `limit`) of the name-matching users in storage order, each with its subscriber count and likes given |
| UserService.StatsPagesTile | src/api/user/userService.ts:24-35 | page (offset, a) followed by page (offset+a, b) of the user list is page (offset, a+b) |
| UserService.SortStats | src/api/user/userService.ts:56-65 | sorting a page by a count gives a permutation of the page, non-increasing in that count, with users of equal count in their page order |
| UserService.FindAll | src/api/user/userService.ts:12-76 | 500 iff storage fails; the result is a permutation of the storage-order page; unsorted keeps that page as it is; each sort mode orders the page by its count, descending, and users with equal counts keep their page order |
| UserService.SortingKeepsThePage | src/api/user/userService.ts:24-65 | the users returned do not depend on `sortBy`, only their order does |
| UserService.Patched | src/api/user/userService.ts:184-186 | a patch sets each given field (to a value or to null) and keeps the rest, id and email included |
| UserService.PatchIdempotent | src/api/user/userService.ts:184-186 | an empty patch changes nothing; applying a patch twice is applying it once |
| UserService.UserTable.UpdateUser | src/api/user/userService.ts:157-215 | 500 iff storage fails; 404 and no change for an unknown id; otherwise only the row with that id is patched and ids stay unique |
| UserService.UserTable.DeleteUser | src/api/user/userService.ts:218-250 | 500 iff storage fails; 404 and no change for an unknown id; otherwise exactly that row is removed and the table shrinks by one |
| UserService.OneUserRemoved | src/api/user/userService.ts:234-236 | with unique ids, deleting an existing id removes exactly one row |
| UserService.RestKeepsOtherIds | src/api/user/userService.ts:234-236 | with unique ids, the rows after the deleted one all survive the filter |
| CommentService.CommentById | src/api/comment/commentService.ts:44-46 | a found comment is stored with that id; none found means no comment has the id |
| CommentService.GetComments | src/api/comment/commentService.ts:22-41 | 500 iff storage fails; otherwise exactly the track's comments (as a multiset), oldest first |
| CommentService.NewCommentListedLast | src/api/comment/commentService.ts:25-31 | a comment no older than any stored one is listed last, after the earlier list unchanged |
| CommentService.Guard | src/api/comment/commentService.ts:44-60 | 404 iff the id is unknown; 403 iff the comment belongs to someone else; passes iff the caller wrote it |
| CommentService.GuardAdmitsOnlyTheAuthor | src/api/comment/commentService.ts:54-60 | with unique comment ids, the guard admits the caller iff the caller wrote a comment with that id |
| CommentService.CommentTable.AddComment | src/api/comment/commentService.ts:7-21 | 500 and no change iff storage fails; otherwise the new comment gets the next id, which no stored comment has, and is appended |
| CommentService.CommentTable.DeleteComment | src/api/comment/commentService.ts:42-71 | 500 on storage failure; the guard's 404/403 with no change; for the author exactly that comment is removed |
| CommentService.CommentTable.UpdateComment | src/api/comment/commentService.ts:72-104 | 500 on storage failure; the guard's 404/403 with no change; for the author only that comment's text changes |
| CommentService.CommentIdsUniqueOfSub | src/api/comment/commentService.ts:61 | removing comments keeps comment ids unique |
| TrackController.ViewerOf | src/api/track/trackController.ts:9-12 | the viewer id is present exactly when the request carries an authenticated user with an id |
| TrackController.SortModeOf | src/api/track/trackController.ts:14 | the mode is `likes` exactly when the query says "likes"; anything else is `new` |
| TrackController.NumberOr | src/api/track/trackController.ts:15-16 | a present numeric query value is used; a missing or empty one falls back to the default (15 or 0) |
| TrackController.TextOf | src/api/track/trackController.ts:17-19 | a non-empty query string is passed on; a missing or empty one is undefined |
| TrackController.AllTracks | src/api/track/trackController.ts:6-31 | 500 iff storage fails; otherwise at most the requested (or default) number of items, in the requested order, each a stored track matching the query |
| TrackController.TracksByUser | src/api/track/trackController.ts:33-56 | as AllTracks, and for a nonzero path id every item is by that artist |
| TrackController.LikedTracks | src/api/track/trackController.ts:58-82 | 500 iff storage fails; otherwise at most the requested number of items, in order, each a stored track the path user liked |
| TrackController.AllTracksPage | src/api/track/trackController.ts:6-31 | GET /tracks lists the page of the ranking at the query's offset and limit (0 and 15 when absent), for its sort mode and non-empty filters |
| TrackController.TracksByUserPage | src/api/track/trackController.ts:33-56 | GET /tracks/:id lists that page with the path id as the artist filter |
| TrackController.LikedTracksPage | src/api/track/trackController.ts:58-82 | GET /tracks/liked/:id lists nothing when the path user liked nothing, otherwise the page of the ranking of the path user's liked tracks at the query's offset and limit |
| TrackController.DefaultsAreExplicitValues | src/api/track/trackController.ts:15-19 | missing paging and empty filters give the same listing as limit 15, offset 0 and no filters |
| TrackController.ZeroPathIdListsEverything | src/api/track/trackController.ts:38-54 | a path id of 0 is falsy, so tracks-by-user lists all tracks |
| TrackController.AnonymousSeesNothingLiked | src/api/track/trackController.ts:9-12 | without an authenticated id no listed item is liked |
| TrackController.LikedTracksIgnoreCallerForContents | src/api/track/trackController.ts:60-79 | the liked list's tracks and counts depend on the path user, not on the caller |
| Scenarios.FollowsTwo | src/api/subscription/subscriptionService.ts:161-165 | a user following b and c has followed ids [b, c] |
| Scenarios.FeedRanked | src/api/subscription/subscriptionService.ts:170-188 | b's tracks t1 and t2 and c's t3, with t1 < t3 < t2 in time, rank as [t2, t3, t1] in the feed |
| Scenarios.FeedNewestFirst | src/api/subscription/subscriptionService.ts:153-202 | that feed with limit 2 and offset 0 lists [t2, t3] |
| Scenarios.TieRanked | src/api/track/trackService.ts:70-75 | t1 and t2 tied on likes, t2 newer, t3 fewer likes: the ranking is [t2, t1, t3] |
| Scenarios.LikesTieBrokenByRecency | src/api/track/trackService.ts:7-136 | that listing by likes with limit 2 and offset 0 is [t2, t1] |
| Scenarios.OnlyTaggedMatches | src/api/track/trackService.ts:28-30 | when only t2 has the tag, the tag filter matches [t2] |
| Scenarios.TagFilterListsOnlyTagged | src/api/track/trackService.ts:7-136 | that tag listing is exactly [t2] in either sort mode |

## Left out

- Response messages and logging are not modelled; only the status and the data are.
- Track and user rows carry only the columns the services read. A track's description, file URL and cover, and a user's role, password and timestamps are not modelled: the services only pass them through or leave them out of their selects.
- Prisma `include`/`select` payloads are not modelled: the artist summary and comments attached to tracks, the comment author summary, and the profile columns of user cards (name, avatar, timestamps, role). Cards and user-list entries carry the id and the counts.
- UserService.FindAll: entries carry the id and the two counts, not the user row's other columns.
- SubscriptionService.GetSubscribers and SubscriptionService.GetSubscriptions: cards carry the id and the two counts, not the user summary.
- Case-insensitive matching folds ASCII letters only. The database's Unicode case folding is not modelled.
- JavaScript `Number(...)` coercion is not modelled: NaN, negative and fractional limits and offsets, and non-numeric path ids. Numbers are naturals.
- Date parsing in the comparator is not modelled: `createdAt` is an integer timestamp.
- Database order of rows with equal `createdAt` is not modelled; ties keep storage order (see `TrackService.ListingIgnoresStorageOrder`).
- Authentication (JWT parsing, the middlewares) is not modelled: the caller is either anonymous or carries an optional numeric id.
- Concurrency and `Promise.all` are not modelled: requests are sequential and each reads one snapshot.
- Transactions are not modelled; a failing call changes nothing, as in the code, where each writing service's one write is its last storage call.
- Cascading deletes of a deleted user's tracks, likes, subscriptions and comments are not modelled (they are defined by the database schema).
- `updatedAt` and the auto-increment counter's behaviour on a failed insert are not modelled; a comment's `createdAt` is the `now` parameter (the clock).
- The uniqueness of (subscriberId, subscribedToId) is not declared by a visible schema; it is kept as a class invariant that `Subscribe` preserves.
- Routers, OpenAPI documents, the subscription, user, like and comment controllers, and file upload (S3) are not modelled.
- The commented-out `getUserTracks` in the user service is not modelled.
- `TrackService.GetTracksByUserId` is modelled, but no controller calls it: the tracks-by-user route goes through `getAllTracks`.
