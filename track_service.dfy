/** Track listings: the conjunctive filter, the two ranking modes, skip/take
    paging and the per-viewer personalisation of every item (trackService.ts).
    The listing is filter -> rank -> page -> personalise; in `new` mode the
    store ranks and pages, in `likes` mode every match is materialised with its
    like count, sorted in memory and sliced; both are the same function here. */
module TrackService {
  import opened Common
  import opened Ranking
  import opened Store

  /** `sortBy: "likes" | "new"`. */
  datatype SortMode = New | Likes

  /** A listed track with `isLiked` and `likesCount` attached. */
  datatype TrackItem = TrackItem(track: Track, isLiked: bool, likesCount: nat)

  /** The Prisma `where` object the track queries are built from; `None` is an absent key. */
  datatype Where = Where(
    idIn: Option<seq<nat>>,
    artistIdIn: Option<seq<nat>>,
    title: Option<string>,
    artistName: Option<string>,
    tag: Option<string>,
    artistId: Option<nat>)

  /** What the store does with a `where` object: every present key constrains the row. */
  predicate Satisfies(users: seq<User>, w: Where, t: Track) {
    && (w.idIn.Some? ==> t.id in w.idIn.value)
    && (w.artistIdIn.Some? ==> t.artistId in w.artistIdIn.value)
    && (w.title.Some? ==> ContainsInsensitive(t.title, w.title.value))
    && (w.artistName.Some? ==> ArtistNameContains(users, t.artistId, w.artistName.value))
    && (w.tag.Some? ==> w.tag.value in t.tags)
    && (w.artistId.Some? ==> t.artistId == w.artistId.value)
  }

  function Matcher(users: seq<User>, w: Where): Track -> bool {
    (t: Track) => Satisfies(users, w, t)
  }

  /** `findMany({ where })` without ordering: the matching rows in storage order. */
  function Matching(db: Snapshot, w: Where): seq<Track> {
    Filter(db.tracks, Matcher(db.users, w))
  }

  /** The sort key of each mode: `createdAt` for `new`; like count, then `createdAt`, for `likes`. */
  function RankOf(likes: seq<Like>, mode: SortMode): Track -> Rank {
    match mode
    case New => (t: Track) => Rank(t.createdAt, 0)
    case Likes => (t: Track) => Rank(LikesOfTrack(likes, t.id), t.createdAt)
  }

  /** Every match, in the order of the mode. */
  function Ranked(db: Snapshot, mode: SortMode, w: Where): seq<Track> {
    Sort(RankOf(db.likes, mode), Matching(db, w))
  }

  /** The `tracks.map(...)` step: attach `isLiked` for the viewer and `likesCount`. */
  function Personalise(db: Snapshot, viewer: Option<nat>, tracks: seq<Track>): (r: seq<TrackItem>)
    ensures |r| == |tracks|
    ensures forall k :: 0 <= k < |r| ==> r[k].track == tracks[k]
    ensures forall k :: 0 <= k < |r| ==> r[k].likesCount == LikesOfTrack(db.likes, tracks[k].id)
    ensures forall k :: 0 <= k < |r| ==> r[k].isLiked == LikedBy(db.likes, viewer, tracks[k].id)
  {
    seq(|tracks|, k requires 0 <= k < |tracks| =>
      TrackItem(tracks[k], LikedBy(db.likes, viewer, tracks[k].id), LikesOfTrack(db.likes, tracks[k].id)))
  }

  /** The tracks a listing shows, without the per-viewer fields. */
  function TracksOf(items: seq<TrackItem>): (r: seq<Track>)
    ensures |r| == |items| && forall k :: 0 <= k < |r| ==> r[k] == items[k].track
  {
    seq(|items|, k requires 0 <= k < |items| => items[k].track)
  }

  /** Personalising changes no track and no position. */
  lemma TracksOfPersonalised(db: Snapshot, viewer: Option<nat>, tracks: seq<Track>)
    ensures TracksOf(Personalise(db, viewer, tracks)) == tracks
  {
  }

  // ---------------------------------------------------------------------------
  // The orders, stated on the items a caller receives
  // ---------------------------------------------------------------------------

  /** `new`: no item is newer than an item before it. */
  predicate RecencyOrder(items: seq<TrackItem>) {
    forall i, j :: 0 <= i < j < |items| ==> items[i].track.createdAt >= items[j].track.createdAt
  }

  /** `likes`: more likes first; on equal likes, the newer first. */
  predicate EngagementOrder(items: seq<TrackItem>) {
    forall i, j :: 0 <= i < j < |items| ==>
      items[i].likesCount > items[j].likesCount
      || (items[i].likesCount == items[j].likesCount && items[i].track.createdAt >= items[j].track.createdAt)
  }

  predicate InOrder(mode: SortMode, items: seq<TrackItem>) {
    match mode
    case New => RecencyOrder(items)
    case Likes => EngagementOrder(items)
  }

  /** `x` may stand before `y` in the order of the mode. */
  predicate RanksBefore(mode: SortMode, x: TrackItem, y: TrackItem) {
    match mode
    case New => x.track.createdAt >= y.track.createdAt
    case Likes => x.likesCount > y.likesCount || (x.likesCount == y.likesCount && x.track.createdAt >= y.track.createdAt)
  }

  predicate ItemIdsUnique(items: seq<TrackItem>) {
    forall i, j :: 0 <= i < j < |items| ==> items[i].track.id != items[j].track.id
  }

  // ---------------------------------------------------------------------------
  // The listing
  // ---------------------------------------------------------------------------

  lemma RankedFacts(db: Snapshot, mode: SortMode, w: Where)
    ensures multiset(Ranked(db, mode, w)) == multiset(Matching(db, w))
    ensures forall t :: t in Ranked(db, mode, w) <==> t in db.tracks && Satisfies(db.users, w, t)
    ensures Descending(RankOf(db.likes, mode), Ranked(db, mode, w))
    ensures TrackIdsUnique(db.tracks) ==> NoDuplicates(Ranked(db, mode, w))
  {
    var m, r := Matching(db, w), Ranked(db, mode, w);
    forall t ensures t in r <==> t in db.tracks && Satisfies(db.users, w, t) {
      assert t in r <==> t in multiset(r);
      assert t in m <==> t in multiset(m);
    }
    if TrackIdsUnique(db.tracks) {
      assert NoDuplicates(db.tracks);
      NoDuplicatesOfSub(db.tracks, m);
      NoDuplicatesOfSub(m, r);
    }
  }

  lemma SameIdSameTrack(tracks: seq<Track>, a: Track, b: Track)
    requires TrackIdsUnique(tracks)
    requires a in tracks && b in tracks && a.id == b.id
    ensures a == b
  {
    var i :| 0 <= i < |tracks| && tracks[i] == a;
    var j :| 0 <= j < |tracks| && tracks[j] == b;
    assert !(i < j) && !(j < i);
  }

  /** Every element of a page of the ranked matches is a match. */
  lemma PageMembers(db: Snapshot, mode: SortMode, w: Where, limit: nat, offset: nat)
    ensures forall t :: t in Page(Ranked(db, mode, w), offset, limit) ==> t in db.tracks && Satisfies(db.users, w, t)
  {
    RankedFacts(db, mode, w);
    var ranked := Ranked(db, mode, w);
    var page := Page(ranked, offset, limit);
    forall t | t in page ensures t in ranked {
      var k :| 0 <= k < |page| && page[k] == t;
    }
  }

  /** A personalised page of the ranked matches is in the order of the mode. */
  lemma PageInOrder(db: Snapshot, viewer: Option<nat>, mode: SortMode, w: Where, limit: nat, offset: nat)
    ensures InOrder(mode, Personalise(db, viewer, Page(Ranked(db, mode, w), offset, limit)))
  {
    RankedFacts(db, mode, w);
    var ranked := Ranked(db, mode, w);
    var key := RankOf(db.likes, mode);
    var r := Personalise(db, viewer, Page(ranked, offset, limit));
    forall i, j | 0 <= i < j < |r| ensures RanksBefore(mode, r[i], r[j]) {
      assert !Ahead(key(ranked[offset + j]), key(ranked[offset + i]));
    }
  }

  /** With unique track ids in the store, no track is listed twice on a page. */
  lemma PageIdsUnique(db: Snapshot, viewer: Option<nat>, mode: SortMode, w: Where, limit: nat, offset: nat)
    requires TrackIdsUnique(db.tracks)
    ensures ItemIdsUnique(Personalise(db, viewer, Page(Ranked(db, mode, w), offset, limit)))
  {
    RankedFacts(db, mode, w);
    PageMembers(db, mode, w, limit, offset);
    var ranked := Ranked(db, mode, w);
    var page := Page(ranked, offset, limit);
    PageIsSubMultiset(ranked, offset, limit);
    NoDuplicatesOfSub(ranked, page);
    var r := Personalise(db, viewer, page);
    forall i, j | 0 <= i < j < |r| ensures r[i].track.id != r[j].track.id {
      if r[i].track.id == r[j].track.id {
        SameIdSameTrack(db.tracks, page[i], page[j]);
      }
    }
  }

  /** What a personalised page of the ranked matches is. */
  lemma ListingFacts(db: Snapshot, viewer: Option<nat>, mode: SortMode, w: Where, limit: nat, offset: nat,
                     r: seq<TrackItem>)
    requires r == Personalise(db, viewer, Page(Ranked(db, mode, w), offset, limit))
    ensures |r| <= limit
    ensures offset >= |Matching(db, w)| ==> r == []
    ensures forall k :: 0 <= k < |r| ==> r[k].track in db.tracks && Satisfies(db.users, w, r[k].track)
    ensures InOrder(mode, r)
    ensures TrackIdsUnique(db.tracks) ==> ItemIdsUnique(r)
  {
    var page := Page(Ranked(db, mode, w), offset, limit);
    PageMembers(db, mode, w, limit, offset);
    PageInOrder(db, viewer, mode, w, limit, offset);
    forall k | 0 <= k < |r| ensures r[k].track in db.tracks && Satisfies(db.users, w, r[k].track) {
      assert r[k].track == page[k];
    }
    if TrackIdsUnique(db.tracks) {
      PageIdsUnique(db, viewer, mode, w, limit, offset);
    }
  }

  /** One page of the listing: skip `offset` ranked matches, keep at most `limit`, personalise. */
  function ListTracks(db: Snapshot, viewer: Option<nat>, mode: SortMode, w: Where, limit: nat, offset: nat)
    : (r: seq<TrackItem>)
    ensures |r| <= limit
    ensures offset >= |Matching(db, w)| ==> r == []
    ensures forall k :: 0 <= k < |r| ==> r[k].track in db.tracks && Satisfies(db.users, w, r[k].track)
    ensures forall k :: 0 <= k < |r| ==> r[k].likesCount == LikesOfTrack(db.likes, r[k].track.id)
    ensures forall k :: 0 <= k < |r| ==> r[k].isLiked == LikedBy(db.likes, viewer, r[k].track.id)
    ensures InOrder(mode, r)
    ensures TrackIdsUnique(db.tracks) ==> ItemIdsUnique(r)
  {
    var r := Personalise(db, viewer, Page(Ranked(db, mode, w), offset, limit));
    ListingFacts(db, viewer, mode, w, limit, offset, r);
    r
  }

  /** Without paging, a listing is the first page of a limit that covers the whole store. */
  lemma FullListingIsOnePage(db: Snapshot, viewer: Option<nat>, mode: SortMode, w: Where)
    ensures Personalise(db, viewer, Ranked(db, mode, w)) == ListTracks(db, viewer, mode, w, |db.tracks|, 0)
  {
    RankedFacts(db, mode, w);
    PageAll(Ranked(db, mode, w), |db.tracks|);
  }

  lemma PersonaliseConcat(db: Snapshot, viewer: Option<nat>, a: seq<Track>, b: seq<Track>)
    ensures Personalise(db, viewer, a + b) == Personalise(db, viewer, a) + Personalise(db, viewer, b)
  {
    var l, r := Personalise(db, viewer, a + b), Personalise(db, viewer, a) + Personalise(db, viewer, b);
    forall k | 0 <= k < |l| ensures l[k] == r[k] {
      if k >= |a| {
        assert r[k] == Personalise(db, viewer, b)[k - |a|];
      }
    }
  }

  /** Paging walks one global ranking: the page at `offset` of size `a`, followed by
      the page right after it of size `b`, is the page at `offset` of size `a + b`. */
  lemma ConsecutivePages(db: Snapshot, viewer: Option<nat>, mode: SortMode, w: Where, offset: nat, a: nat, b: nat)
    ensures ListTracks(db, viewer, mode, w, a, offset) + ListTracks(db, viewer, mode, w, b, offset + a)
         == ListTracks(db, viewer, mode, w, a + b, offset)
  {
    var ranked := Ranked(db, mode, w);
    PagesConcatenate(ranked, offset, a, b);
    PersonaliseConcat(db, viewer, Page(ranked, offset, a), Page(ranked, offset + a, b));
  }

  /** No two tracks of the store share a creation time. */
  predicate CreatedAtDistinct(tracks: seq<Track>) {
    forall i, j :: 0 <= i < j < |tracks| ==> tracks[i].createdAt != tracks[j].createdAt
  }

  lemma RanksDistinctWhenCreatedAtDistinct(db: Snapshot, mode: SortMode, w: Where)
    requires CreatedAtDistinct(db.tracks)
    ensures RanksDistinct(RankOf(db.likes, mode), Ranked(db, mode, w))
  {
    var r := Ranked(db, mode, w);
    assert multiset(r) <= multiset(db.tracks) by {
      RankedFacts(db, mode, w);
    }
    CreatedAtDistinctOfSub(db.tracks, r);
    var key := RankOf(db.likes, mode);
    forall i, j | 0 <= i < j < |r| ensures key(r[i]) != key(r[j]) {
      assert r[i].createdAt != r[j].createdAt;
    }
  }

  /** Any sub-multiset of a store with distinct creation times has distinct creation times. */
  lemma CreatedAtDistinctOfSub(s: seq<Track>, r: seq<Track>)
    requires CreatedAtDistinct(s)
    requires multiset(r) <= multiset(s)
    ensures CreatedAtDistinct(r)
  {
    assert NoDuplicates(s);
    NoDuplicatesOfSub(s, r);
    forall i, j | 0 <= i < j < |r| ensures r[i].createdAt != r[j].createdAt {
      assert r[i] in multiset(r) && r[j] in multiset(r);
      var p :| 0 <= p < |s| && s[p] == r[i];
      var q :| 0 <= q < |s| && s[q] == r[j];
      assert p != q;
    }
  }

  /** When no two tracks share a creation time, a listing does not depend on the order
      in which the store happens to hold its tracks: the ranking fixes every position. */
  lemma ListingIgnoresStorageOrder(db: Snapshot, tracks: seq<Track>, viewer: Option<nat>, mode: SortMode,
                                   w: Where, limit: nat, offset: nat)
    requires multiset(tracks) == multiset(db.tracks)
    requires CreatedAtDistinct(db.tracks)
    ensures ListTracks(db.(tracks := tracks), viewer, mode, w, limit, offset) == ListTracks(db, viewer, mode, w, limit, offset)
  {
    var db2 := db.(tracks := tracks);
    var page := Page(Ranked(db, mode, w), offset, limit);
    assert Page(Ranked(db2, mode, w), offset, limit) == page by {
      RankedIgnoresStorageOrder(db, tracks, mode, w);
    }
    PersonaliseReadsLikes(db, db2, viewer, page);
  }

  /** The ranking of a store with distinct creation times is the same for every order
      in which the store holds its tracks. */
  lemma RankedIgnoresStorageOrder(db: Snapshot, tracks: seq<Track>, mode: SortMode, w: Where)
    requires multiset(tracks) == multiset(db.tracks)
    requires CreatedAtDistinct(db.tracks)
    ensures Ranked(db.(tracks := tracks), mode, w) == Ranked(db, mode, w)
  {
    var db2 := db.(tracks := tracks);
    var key, p := RankOf(db.likes, mode), Matcher(db.users, w);
    var m, m2 := Filter(db.tracks, p), Filter(tracks, p);
    assert multiset(m2) == multiset(m) by {
      forall x ensures multiset(m2)[x] == multiset(m)[x] {
      }
    }
    var r, r2 := Sort(key, m), Sort(key, m2);
    assert Ranked(db, mode, w) == r && Ranked(db2, mode, w) == r2;
    RanksDistinctWhenCreatedAtDistinct(db, mode, w);
    DescendingIsUnique(key, r, r2);
  }

  /** Personalising reads only the like table of the store. */
  lemma PersonaliseReadsLikes(db: Snapshot, db2: Snapshot, viewer: Option<nat>, tracks: seq<Track>)
    requires db.likes == db2.likes
    ensures Personalise(db, viewer, tracks) == Personalise(db2, viewer, tracks)
  {
    var a, b := Personalise(db, viewer, tracks), Personalise(db2, viewer, tracks);
    forall k | 0 <= k < |a| ensures a[k] == b[k] {
    }
  }

  /** The tracks of a listing are the page of the ranked matches. */
  lemma ListingTracks(db: Snapshot, viewer: Option<nat>, mode: SortMode, w: Where, limit: nat, offset: nat)
    ensures TracksOf(ListTracks(db, viewer, mode, w, limit, offset)) == Page(Ranked(db, mode, w), offset, limit)
  {
    TracksOfPersonalised(db, viewer, Page(Ranked(db, mode, w), offset, limit));
  }

  /** A descending arrangement of the matches with distinct ranks is the ranking. */
  lemma RankedIs(db: Snapshot, mode: SortMode, w: Where, expected: seq<Track>)
    requires multiset(expected) == multiset(Matching(db, w))
    requires Descending(RankOf(db.likes, mode), expected) && RanksDistinct(RankOf(db.likes, mode), expected)
    ensures Ranked(db, mode, w) == expected
  {
    RankedFacts(db, mode, w);
    DescendingIsUnique(RankOf(db.likes, mode), expected, Ranked(db, mode, w));
  }

  // ---------------------------------------------------------------------------
  // getAllTracks
  // ---------------------------------------------------------------------------

  /** The filter a caller asks for, one conjunct per supplied argument; a falsy
      argument (undefined, "" or 0) imposes nothing. */
  predicate MatchesQuery(users: seq<User>, title: Option<string>, artist: Option<string>,
                         tag: Option<string>, artistId: Option<nat>, t: Track) {
    && (TextGiven(title) ==> ContainsInsensitive(t.title, title.value))
    && (TextGiven(artist) ==> ArtistNameContains(users, t.artistId, artist.value))
    && (TextGiven(tag) ==> tag.value in t.tags)
    && (IdGiven(artistId) ==> t.artistId == artistId.value)
  }

  /** The `where` object getAllTracks builds, one key per truthy argument. */
  function ListingWhere(title: Option<string>, artist: Option<string>, tag: Option<string>, artistId: Option<nat>)
    : (w: Where)
    ensures forall users, t :: Satisfies(users, w, t) <==> MatchesQuery(users, title, artist, tag, artistId, t)
  {
    Where(
      None,
      None,
      if TextGiven(title) then title else None,
      if TextGiven(artist) then artist else None,
      if TextGiven(tag) then tag else None,
      if IdGiven(artistId) then artistId else None)
  }

  /** getAllTracks(userId, sortBy, limit, offset, title, artist, tag, artistId). */
  function GetAllTracks(db: Snapshot, userId: Option<nat>, sortBy: SortMode, limit: nat, offset: nat,
                        title: Option<string>, artist: Option<string>, tag: Option<string>,
                        artistId: Option<nat>, storageFails: bool): (r: Response<seq<TrackItem>>)
    ensures r.Failure? <==> storageFails
    ensures r.Failure? ==> r.status == InternalServerError
    ensures r.Success? ==> |r.data| <= limit && InOrder(sortBy, r.data)
    ensures r.Success? ==> forall item :: item in r.data ==>
      item.track in db.tracks && MatchesQuery(db.users, title, artist, tag, artistId, item.track)
    ensures r.Success? ==> forall item :: item in r.data ==>
      item.likesCount == LikesOfTrack(db.likes, item.track.id)
      && item.isLiked == LikedBy(db.likes, userId, item.track.id)
  {
    if storageFails then Failure(InternalServerError)
    else Success(ListTracks(db, userId, sortBy, ListingWhere(title, artist, tag, artistId), limit, offset))
  }

  /** When storage answers, getAllTracks shows the page of the ranking of the built filter. */
  lemma AllTracksShows(db: Snapshot, userId: Option<nat>, sortBy: SortMode, limit: nat, offset: nat,
                       title: Option<string>, artist: Option<string>, tag: Option<string>, artistId: Option<nat>)
    ensures GetAllTracks(db, userId, sortBy, limit, offset, title, artist, tag, artistId, false).Success?
    ensures TracksOf(GetAllTracks(db, userId, sortBy, limit, offset, title, artist, tag, artistId, false).data)
         == Page(Ranked(db, sortBy, ListingWhere(title, artist, tag, artistId)), offset, limit)
  {
    ListingTracks(db, userId, sortBy, ListingWhere(title, artist, tag, artistId), limit, offset);
  }

  // ---------------------------------------------------------------------------
  // getTracksByUserId
  // ---------------------------------------------------------------------------

  /** `where: { artistId }` taken as given: no truthiness test on this path. */
  function ArtistWhere(artistId: nat): Where {
    Where(None, None, None, None, None, Some(artistId))
  }

  lemma {:induction false} ArtistMatchesCounted(users: seq<User>, tracks: seq<Track>, artistId: nat)
    ensures |Filter(tracks, Matcher(users, ArtistWhere(artistId)))| == TracksCount(tracks, artistId)
  {
    if tracks != [] {
      ArtistMatchesCounted(users, tracks[1..], artistId);
    }
  }

  /** getTracksByUserId(artistId, currentUserId): all of the artist's tracks, newest first, unpaged. */
  function GetTracksByUserId(db: Snapshot, artistId: nat, currentUserId: Option<nat>, storageFails: bool)
    : (r: Response<seq<TrackItem>>)
    ensures r.Failure? <==> storageFails
    ensures r.Failure? ==> r.status == InternalServerError
    ensures r.Success? ==> RecencyOrder(r.data) && |r.data| == TracksCount(db.tracks, artistId)
    ensures r.Success? ==> forall t :: t in db.tracks && t.artistId == artistId <==>
      exists k :: 0 <= k < |r.data| && r.data[k].track == t
    ensures r.Success? ==> forall item :: item in r.data ==>
      item.likesCount == LikesOfTrack(db.likes, item.track.id)
      && item.isLiked == LikedBy(db.likes, currentUserId, item.track.id)
  {
    if storageFails then Failure(InternalServerError)
    else
      var w := ArtistWhere(artistId);
      FullListingIsOnePage(db, currentUserId, New, w);
      ArtistTracksListed(db, currentUserId, artistId);
      Success(Personalise(db, currentUserId, Ranked(db, New, w)))
  }

  /** The unpaged listing of an artist holds each of the artist's tracks, once per row. */
  lemma ArtistTracksListed(db: Snapshot, viewer: Option<nat>, artistId: nat)
    ensures |Ranked(db, New, ArtistWhere(artistId))| == TracksCount(db.tracks, artistId)
    ensures forall t :: t in db.tracks && t.artistId == artistId <==>
      exists k :: 0 <= k < |Personalise(db, viewer, Ranked(db, New, ArtistWhere(artistId)))|
        && Personalise(db, viewer, Ranked(db, New, ArtistWhere(artistId)))[k].track == t
  {
    var ranked := Ranked(db, New, ArtistWhere(artistId));
    assert |ranked| == TracksCount(db.tracks, artistId) by {
      ArtistMatchesCounted(db.users, db.tracks, artistId);
    }
    var r := Personalise(db, viewer, ranked);
    forall t ensures t in db.tracks && t.artistId == artistId <==> exists k :: 0 <= k < |r| && r[k].track == t {
      ArtistRankedMember(db, artistId, t);
      PersonaliseShows(db, viewer, ranked, t);
    }
  }

  /** Personalising keeps every track: a track has an item exactly when it was listed. */
  lemma PersonaliseShows(db: Snapshot, viewer: Option<nat>, tracks: seq<Track>, t: Track)
    ensures t in tracks <==> exists k :: 0 <= k < |Personalise(db, viewer, tracks)| && Personalise(db, viewer, tracks)[k].track == t
  {
    var r := Personalise(db, viewer, tracks);
    if t in tracks {
      var k :| 0 <= k < |tracks| && tracks[k] == t;
      assert r[k].track == t;
    }
    if exists k :: 0 <= k < |r| && r[k].track == t {
      var k :| 0 <= k < |r| && r[k].track == t;
      assert tracks[k] == t;
    }
  }

  /** A track is in the artist's ranked listing exactly when it is stored with that artist id. */
  lemma ArtistRankedMember(db: Snapshot, artistId: nat, t: Track)
    ensures t in Ranked(db, New, ArtistWhere(artistId)) <==> t in db.tracks && t.artistId == artistId
  {
    var w := ArtistWhere(artistId);
    RankedFacts(db, New, w);
    assert Satisfies(db.users, w, t) <==> t.artistId == artistId;
  }

  // ---------------------------------------------------------------------------
  // getLikedTracks
  // ---------------------------------------------------------------------------

  /** `like.findMany({ where: { userId } }).map(l => l.trackId)`. */
  function LikedTrackIds(likes: seq<Like>, userId: nat): (r: seq<nat>)
    ensures forall id :: id in r <==> Like(userId, id) in likes
  {
    if likes == [] then []
    else
      assert likes == [likes[0]] + likes[1..];
      (if likes[0].userId == userId then [likes[0].trackId] else []) + LikedTrackIds(likes[1..], userId)
  }

  /** The `where` object getLikedTracks builds: the liked ids, then one key per truthy argument. */
  function LikedWhere(ids: seq<nat>, title: Option<string>, artist: Option<string>, tag: Option<string>): Where {
    Where(
      Some(ids),
      None,
      if TextGiven(title) then title else None,
      if TextGiven(artist) then artist else None,
      if TextGiven(tag) then tag else None,
      None)
  }

  /** getLikedTracks(userId, sortBy, limit, offset, title, artist, tag, currentUserId): the
      subject's liked tracks, filtered, ranked and paged as getAllTracks does, personalised
      for the viewer `currentUserId`, who need not be the subject. */
  function GetLikedTracks(db: Snapshot, userId: nat, sortBy: SortMode, limit: nat, offset: nat,
                          title: Option<string>, artist: Option<string>, tag: Option<string>,
                          currentUserId: Option<nat>, storageFails: bool): (r: Response<seq<TrackItem>>)
    ensures r.Failure? <==> storageFails
    ensures r.Failure? ==> r.status == InternalServerError
    ensures r.Success? && LikedTrackIds(db.likes, userId) == [] ==> r.data == []
    ensures r.Success? && LikedTrackIds(db.likes, userId) != [] ==>
      TracksOf(r.data) == Page(Ranked(db, sortBy, LikedWhere(LikedTrackIds(db.likes, userId), title, artist, tag)), offset, limit)
    ensures r.Success? ==> |r.data| <= limit && InOrder(sortBy, r.data)
    ensures r.Success? ==> forall item :: item in r.data ==>
      item.track in db.tracks && Like(userId, item.track.id) in db.likes
      && MatchesQuery(db.users, title, artist, tag, None, item.track)
    ensures r.Success? ==> forall item :: item in r.data ==>
      item.likesCount == LikesOfTrack(db.likes, item.track.id)
      && item.isLiked == LikedBy(db.likes, currentUserId, item.track.id)
  {
    if storageFails then Failure(InternalServerError)
    else
      var ids := LikedTrackIds(db.likes, userId);
      if |ids| == 0 then Success([])
      else
        ListingTracks(db, currentUserId, sortBy, LikedWhere(ids, title, artist, tag), limit, offset);
        Success(ListTracks(db, currentUserId, sortBy, LikedWhere(ids, title, artist, tag), limit, offset))
  }
}
