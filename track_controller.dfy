/** Query normalisation of the track endpoints (trackController.ts): how the
    authenticated caller, the query string and the path id become the arguments
    of the listing services. Query values are JavaScript strings tested for
    truthiness: an absent or empty value is falsy, any other text (even "0") is
    truthy. Numeric values are taken as already converted by `Number`. */
module TrackController {
  import opened Common
  import opened Store
  import opened TrackService

  /** What `req.user` holds: nothing, a decoded token that is not an object, or an
      object payload with or without an `id` field. */
  datatype Caller = NoCaller | OpaqueCaller | TokenCaller(id: Option<nat>)

  /** A numeric query value: absent, empty, or a numeric string. */
  datatype NumberParam = Missing | Blank | Numeric(value: nat)

  /** The query string of the three listing endpoints. */
  datatype TrackQuery = TrackQuery(
    sortBy: Option<string>,
    limit: NumberParam,
    offset: NumberParam,
    title: Option<string>,
    artist: Option<string>,
    tag: Option<string>)

  /** `req.user && typeof req.user === "object" && "id" in req.user`. */
  function ViewerOf(caller: Caller): (v: Option<nat>)
    ensures v.Some? <==> caller.TokenCaller? && caller.id.Some?
    ensures v.Some? ==> v.value == caller.id.value
  {
    match caller
    case TokenCaller(id) => id
    case _ => None
  }

  /** `req.query.sortBy === "likes" ? "likes" : "new"`. */
  function SortModeOf(sortBy: Option<string>): (m: SortMode)
    ensures m == Likes <==> sortBy == Some("likes")
  {
    if sortBy == Some("likes") then Likes else New
  }

  /** `req.query.x ? Number(req.query.x) : fallback`. */
  function NumberOr(p: NumberParam, fallback: nat): (n: nat)
    ensures p.Numeric? ==> n == p.value
    ensures !p.Numeric? ==> n == fallback
  {
    if p.Numeric? then p.value else fallback
  }

  const DefaultLimit: nat := 15
  const DefaultOffset: nat := 0

  /** `req.query.x ? String(req.query.x) : undefined`. */
  function TextOf(q: Option<string>): (r: Option<string>)
    ensures TextGiven(q) ==> r == q
    ensures !TextGiven(q) ==> r.None?
  {
    if TextGiven(q) then q else None
  }

  /** GET /tracks: getAllTracks with the caller as viewer and no artist filter. */
  function AllTracks(db: Snapshot, caller: Caller, q: TrackQuery, storageFails: bool): (r: Response<seq<TrackItem>>)
    ensures r.Failure? <==> storageFails
    ensures r.Success? ==> |r.data| <= NumberOr(q.limit, DefaultLimit) && InOrder(SortModeOf(q.sortBy), r.data)
    ensures r.Success? ==> forall item :: item in r.data ==>
      item.track in db.tracks && MatchesQuery(db.users, q.title, q.artist, q.tag, None, item.track)
    ensures r.Success? ==> forall item :: item in r.data ==>
      item.isLiked == LikedBy(db.likes, ViewerOf(caller), item.track.id)
  {
    GetAllTracks(db, ViewerOf(caller), SortModeOf(q.sortBy), NumberOr(q.limit, DefaultLimit),
                 NumberOr(q.offset, DefaultOffset), TextOf(q.title), TextOf(q.artist), TextOf(q.tag), None, storageFails)
  }

  /** GET /tracks/:id: the same listing, with the path id as the artist filter. */
  function TracksByUser(db: Snapshot, caller: Caller, pathId: nat, q: TrackQuery, storageFails: bool)
    : (r: Response<seq<TrackItem>>)
    ensures r.Failure? <==> storageFails
    ensures r.Success? ==> |r.data| <= NumberOr(q.limit, DefaultLimit) && InOrder(SortModeOf(q.sortBy), r.data)
    ensures r.Success? ==> forall item :: item in r.data ==>
      item.track in db.tracks && MatchesQuery(db.users, q.title, q.artist, q.tag, Some(pathId), item.track)
    ensures r.Success? && pathId != 0 ==> forall item :: item in r.data ==> item.track.artistId == pathId
    ensures r.Success? ==> forall item :: item in r.data ==>
      item.isLiked == LikedBy(db.likes, ViewerOf(caller), item.track.id)
  {
    GetAllTracks(db, ViewerOf(caller), SortModeOf(q.sortBy), NumberOr(q.limit, DefaultLimit),
                 NumberOr(q.offset, DefaultOffset), TextOf(q.title), TextOf(q.artist), TextOf(q.tag), Some(pathId),
                 storageFails)
  }

  /** GET /tracks/liked/:id: the path id is the subject whose likes are listed; the
      caller is only the viewer the items are personalised for. */
  function LikedTracks(db: Snapshot, caller: Caller, pathId: nat, q: TrackQuery, storageFails: bool)
    : (r: Response<seq<TrackItem>>)
    ensures r.Failure? <==> storageFails
    ensures r.Success? ==> |r.data| <= NumberOr(q.limit, DefaultLimit) && InOrder(SortModeOf(q.sortBy), r.data)
    ensures r.Success? ==> forall item :: item in r.data ==>
      Like(pathId, item.track.id) in db.likes && MatchesQuery(db.users, q.title, q.artist, q.tag, None, item.track)
    ensures r.Success? ==> forall item :: item in r.data ==>
      item.isLiked == LikedBy(db.likes, ViewerOf(caller), item.track.id)
  {
    GetLikedTracks(db, pathId, SortModeOf(q.sortBy), NumberOr(q.limit, DefaultLimit),
                   NumberOr(q.offset, DefaultOffset), TextOf(q.title), TextOf(q.artist), TextOf(q.tag),
                   ViewerOf(caller), storageFails)
  }

  // ---------------------------------------------------------------------------
  // What the normalisation means for a caller
  // ---------------------------------------------------------------------------

  /** GET /tracks lists the page of the ranking at the query's offset and limit (15 and 0
      when absent), for the query's sort mode and non-empty text filters. */
  lemma AllTracksPage(db: Snapshot, caller: Caller, q: TrackQuery)
    ensures AllTracks(db, caller, q, false).Success?
    ensures TracksOf(AllTracks(db, caller, q, false).data)
         == Page(Ranked(db, SortModeOf(q.sortBy), ListingWhere(TextOf(q.title), TextOf(q.artist), TextOf(q.tag), None)),
                 NumberOr(q.offset, DefaultOffset), NumberOr(q.limit, DefaultLimit))
  {
    AllTracksShows(db, ViewerOf(caller), SortModeOf(q.sortBy), NumberOr(q.limit, DefaultLimit),
                   NumberOr(q.offset, DefaultOffset), TextOf(q.title), TextOf(q.artist), TextOf(q.tag), None);
  }

  /** GET /tracks/:id lists the same page, with the path id as the artist filter. */
  lemma TracksByUserPage(db: Snapshot, caller: Caller, pathId: nat, q: TrackQuery)
    ensures TracksByUser(db, caller, pathId, q, false).Success?
    ensures TracksOf(TracksByUser(db, caller, pathId, q, false).data)
         == Page(Ranked(db, SortModeOf(q.sortBy), ListingWhere(TextOf(q.title), TextOf(q.artist), TextOf(q.tag), Some(pathId))),
                 NumberOr(q.offset, DefaultOffset), NumberOr(q.limit, DefaultLimit))
  {
    AllTracksShows(db, ViewerOf(caller), SortModeOf(q.sortBy), NumberOr(q.limit, DefaultLimit),
                   NumberOr(q.offset, DefaultOffset), TextOf(q.title), TextOf(q.artist), TextOf(q.tag), Some(pathId));
  }

  /** GET /tracks/liked/:id lists nothing when the path user liked nothing, and otherwise the
      page of the ranking of the path user's liked tracks at the query's offset and limit. */
  lemma LikedTracksPage(db: Snapshot, caller: Caller, pathId: nat, q: TrackQuery)
    ensures LikedTracks(db, caller, pathId, q, false).Success?
    ensures LikedTrackIds(db.likes, pathId) == [] ==> LikedTracks(db, caller, pathId, q, false).data == []
    ensures LikedTrackIds(db.likes, pathId) != [] ==>
      TracksOf(LikedTracks(db, caller, pathId, q, false).data) == Page(Ranked(db, SortModeOf(q.sortBy), LikedWhere(LikedTrackIds(db.likes, pathId), TextOf(q.title), TextOf(q.artist), TextOf(q.tag))),
        NumberOr(q.offset, DefaultOffset), NumberOr(q.limit, DefaultLimit))
  {
  }

  /** An absent or empty `limit`/`offset` is the same request as `limit=15`/`offset=0`,
      and an empty text filter is the same request as none. */
  lemma DefaultsAreExplicitValues(db: Snapshot, caller: Caller, q: TrackQuery, storageFails: bool)
    requires !q.limit.Numeric? && !q.offset.Numeric?
    requires q.title == Some("") && q.artist == Some("") && q.tag == Some("")
    ensures AllTracks(db, caller, q, storageFails)
         == AllTracks(db, caller, q.(limit := Numeric(15), offset := Numeric(0), title := None, artist := None, tag := None),
                      storageFails)
  {
  }

  /** `/tracks/0` is `/tracks`: a zero path id is falsy and filters nothing. */
  lemma ZeroPathIdListsEverything(db: Snapshot, caller: Caller, q: TrackQuery, storageFails: bool)
    ensures TracksByUser(db, caller, 0, q, storageFails) == AllTracks(db, caller, q, storageFails)
  {
    assert ListingWhere(TextOf(q.title), TextOf(q.artist), TextOf(q.tag), Some(0))
        == ListingWhere(TextOf(q.title), TextOf(q.artist), TextOf(q.tag), None);
  }

  /** A caller without an id (no token, a non-object token, or a payload without `id`)
      sees nothing as liked, on every endpoint. */
  lemma AnonymousSeesNothingLiked(db: Snapshot, caller: Caller, pathId: nat, q: TrackQuery)
    requires !(caller.TokenCaller? && caller.id.Some?)
    ensures forall item :: item in AllTracks(db, caller, q, false).data ==> !item.isLiked
    ensures forall item :: item in TracksByUser(db, caller, pathId, q, false).data ==> !item.isLiked
    ensures forall item :: item in LikedTracks(db, caller, pathId, q, false).data ==> !item.isLiked
  {
  }

  /** The liked-tracks listing depends on the caller only through `isLiked`: two callers
      see the same tracks, in the same order, with the same like counts. */
  lemma LikedTracksIgnoreCallerForContents(db: Snapshot, caller1: Caller, caller2: Caller, pathId: nat, q: TrackQuery)
    ensures |LikedTracks(db, caller1, pathId, q, false).data| == |LikedTracks(db, caller2, pathId, q, false).data|
    ensures forall k :: 0 <= k < |LikedTracks(db, caller1, pathId, q, false).data| ==>
      LikedTracks(db, caller1, pathId, q, false).data[k].track == LikedTracks(db, caller2, pathId, q, false).data[k].track
      && LikedTracks(db, caller1, pathId, q, false).data[k].likesCount
         == LikedTracks(db, caller2, pathId, q, false).data[k].likesCount
  {
  }
}
