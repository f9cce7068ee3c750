/** The storage snapshot the services read, and the aggregate calculator: every
    count and flag the services derive from it. Tables are sequences of rows in
    storage order; `createdAt` is a timestamp. Nothing here is persisted: every
    aggregate is recomputed from the rows on each request. */
module Store {
  import opened Common

  datatype User = User(id: nat, name: Option<string>, email: string, avatar: Option<string>, bio: Option<string>)

  datatype Track = Track(id: nat, title: string, tags: seq<string>, artistId: nat, createdAt: int)

  /** A like row; the schema makes (userId, trackId) unique. */
  datatype Like = Like(userId: nat, trackId: nat)

  /** A directed edge: `subscriberId` follows `subscribedToId`. */
  datatype Subscription = Subscription(subscriberId: nat, subscribedToId: nat)

  datatype Comment = Comment(id: nat, userId: nat, trackId: nat, text: string, createdAt: int)

  datatype Snapshot = Snapshot(
    users: seq<User>,
    tracks: seq<Track>,
    likes: seq<Like>,
    subscriptions: seq<Subscription>,
    comments: seq<Comment>)

  // ---------------------------------------------------------------------------
  // Unique constraints of the schema
  // ---------------------------------------------------------------------------

  predicate TrackIdsUnique(tracks: seq<Track>) {
    forall i, j :: 0 <= i < j < |tracks| ==> tracks[i].id != tracks[j].id
  }

  predicate UserIdsUnique(users: seq<User>) {
    forall i, j :: 0 <= i < j < |users| ==> users[i].id != users[j].id
  }

  predicate CommentIdsUnique(comments: seq<Comment>) {
    forall i, j :: 0 <= i < j < |comments| ==> comments[i].id != comments[j].id
  }

  // ---------------------------------------------------------------------------
  // Lookups
  // ---------------------------------------------------------------------------

  /** `findUnique({ where: { id } })` on the user table. */
  function UserById(users: seq<User>, id: nat): (r: Option<User>)
    ensures r.Some? ==> r.value in users && r.value.id == id
    ensures r.None? ==> forall u :: u in users ==> u.id != id
  {
    if users == [] then None
    else if users[0].id == id then Some(users[0])
    else UserById(users[1..], id)
  }

  /** The artist of a track exists and has a (non-null) name containing `needle`, ignoring case. */
  predicate ArtistNameContains(users: seq<User>, artistId: nat, needle: string) {
    var artist := UserById(users, artistId);
    artist.Some? && artist.value.name.Some? && ContainsInsensitive(artist.value.name.value, needle)
  }

  // ---------------------------------------------------------------------------
  // Aggregates
  // ---------------------------------------------------------------------------

  /** A track's `_count.likes`: the like rows of that track. */
  function LikesOfTrack(likes: seq<Like>, trackId: nat): nat {
    if likes == [] then 0
    else (if likes[0].trackId == trackId then 1 else 0) + LikesOfTrack(likes[1..], trackId)
  }

  /** `like.count({ where: { userId } })`: likes the user has given. */
  function LikesGiven(likes: seq<Like>, userId: nat): nat {
    if likes == [] then 0
    else (if likes[0].userId == userId then 1 else 0) + LikesGiven(likes[1..], userId)
  }

  /** The storage join `like.track`: the liked track exists and belongs to `artistId`. */
  predicate TrackOfArtist(tracks: seq<Track>, trackId: nat, artistId: nat) {
    exists t :: t in tracks && t.id == trackId && t.artistId == artistId
  }

  /** `like.count({ where: { track: { artistId } } })`: likes received on the artist's tracks. */
  function LikesReceived(likes: seq<Like>, tracks: seq<Track>, artistId: nat): nat {
    if likes == [] then 0
    else
      (if TrackOfArtist(tracks, likes[0].trackId, artistId) then 1 else 0)
      + LikesReceived(likes[1..], tracks, artistId)
  }

  /** Edges pointing at the user. */
  function SubscribersCount(subscriptions: seq<Subscription>, userId: nat): nat {
    if subscriptions == [] then 0
    else
      (if subscriptions[0].subscribedToId == userId then 1 else 0)
      + SubscribersCount(subscriptions[1..], userId)
  }

  /** Edges leaving the user. */
  function SubscriptionsCount(subscriptions: seq<Subscription>, userId: nat): nat {
    if subscriptions == [] then 0
    else
      (if subscriptions[0].subscriberId == userId then 1 else 0)
      + SubscriptionsCount(subscriptions[1..], userId)
  }

  /** Tracks whose artist is the user. */
  function TracksCount(tracks: seq<Track>, userId: nat): nat {
    if tracks == [] then 0
    else (if tracks[0].artistId == userId then 1 else 0) + TracksCount(tracks[1..], userId)
  }

  /** `isLiked`: a viewer is given (and is not 0) and has a like row on the track. */
  predicate LikedBy(likes: seq<Like>, viewer: Option<nat>, trackId: nat) {
    IdGiven(viewer) && Like(viewer.value, trackId) in likes
  }

  // ---------------------------------------------------------------------------
  // What the aggregates mean
  // ---------------------------------------------------------------------------

  /** The users who liked a track. */
  ghost function Likers(likes: seq<Like>, trackId: nat): set<nat> {
    set l | l in likes && l.trackId == trackId :: l.userId
  }

  /** With at most one like row per (user, track), a track's like count is the number
      of distinct users who like it. */
  lemma {:induction false} LikesOfTrackCountsLikers(likes: seq<Like>, trackId: nat)
    requires NoDuplicates(likes)
    ensures LikesOfTrack(likes, trackId) == |Likers(likes, trackId)|
  {
    if likes == [] {
      assert Likers(likes, trackId) == {};
    } else {
      var l, rest := likes[0], likes[1..];
      assert likes == [l] + rest;
      assert NoDuplicates(rest) by {
        forall i, j | 0 <= i < j < |rest| ensures rest[i] != rest[j] {
          assert rest[i] == likes[i + 1] && rest[j] == likes[j + 1];
        }
      }
      LikesOfTrackCountsLikers(rest, trackId);
      if l.trackId == trackId {
        assert Likers(likes, trackId) == Likers(rest, trackId) + {l.userId};
        assert l.userId !in Likers(rest, trackId);
      } else {
        assert Likers(likes, trackId) == Likers(rest, trackId);
      }
    }
  }

  /** The tracks a user has liked. */
  ghost function TracksLikedBy(likes: seq<Like>, userId: nat): set<nat> {
    set l | l in likes && l.userId == userId :: l.trackId
  }

  /** With at most one like row per (user, track), the likes a user gave are the number
      of distinct tracks the user likes. */
  lemma {:induction false} LikesGivenCountsLikedTracks(likes: seq<Like>, userId: nat)
    requires NoDuplicates(likes)
    ensures LikesGiven(likes, userId) == |TracksLikedBy(likes, userId)|
  {
    if likes == [] {
      assert TracksLikedBy(likes, userId) == {};
    } else {
      var l, rest := likes[0], likes[1..];
      assert likes == [l] + rest;
      assert NoDuplicates(rest) by {
        forall i, j | 0 <= i < j < |rest| ensures rest[i] != rest[j] {
          assert rest[i] == likes[i + 1] && rest[j] == likes[j + 1];
        }
      }
      LikesGivenCountsLikedTracks(rest, userId);
      if l.userId == userId {
        assert TracksLikedBy(likes, userId) == TracksLikedBy(rest, userId) + {l.trackId};
        assert l.trackId !in TracksLikedBy(rest, userId);
      } else {
        assert TracksLikedBy(likes, userId) == TracksLikedBy(rest, userId);
      }
    }
  }

  /** Like counts add up over concatenated like tables. */
  lemma {:induction false} LikesOfTrackConcat(a: seq<Like>, b: seq<Like>, trackId: nat)
    ensures LikesOfTrack(a + b, trackId) == LikesOfTrack(a, trackId) + LikesOfTrack(b, trackId)
  {
    if a == [] {
      assert a + b == b;
    } else {
      assert (a + b)[0] == a[0] && (a + b)[1..] == a[1..] + b;
      LikesOfTrackConcat(a[1..], b, trackId);
    }
  }

  /** Reference definition of an artist's received likes: the like counts of the
      artist's tracks, summed track by track. */
  function LikesOnTracksOf(likes: seq<Like>, tracks: seq<Track>, artistId: nat): nat {
    if tracks == [] then 0
    else
      (if tracks[0].artistId == artistId then LikesOfTrack(likes, tracks[0].id) else 0)
      + LikesOnTracksOf(likes, tracks[1..], artistId)
  }

  /** How many of the artist's tracks carry the given id. */
  function TracksWithId(tracks: seq<Track>, trackId: nat, artistId: nat): nat {
    if tracks == [] then 0
    else
      (if tracks[0].id == trackId && tracks[0].artistId == artistId then 1 else 0)
      + TracksWithId(tracks[1..], trackId, artistId)
  }

  lemma {:induction false} TracksWithIdIsJoin(tracks: seq<Track>, trackId: nat, artistId: nat)
    requires TrackIdsUnique(tracks)
    ensures TracksWithId(tracks, trackId, artistId) == if TrackOfArtist(tracks, trackId, artistId) then 1 else 0
  {
    if tracks != [] {
      var rest := tracks[1..];
      assert TrackIdsUnique(rest) by {
        forall i, j | 0 <= i < j < |rest| ensures rest[i].id != rest[j].id {
          assert rest[i] == tracks[i + 1] && rest[j] == tracks[j + 1];
        }
      }
      TracksWithIdIsJoin(rest, trackId, artistId);
      if tracks[0].id == trackId {
        assert !TrackOfArtist(rest, trackId, artistId);
      }
      assert TrackOfArtist(tracks, trackId, artistId) <==>
        (tracks[0].id == trackId && tracks[0].artistId == artistId) || TrackOfArtist(rest, trackId, artistId) by {
        assert tracks == [tracks[0]] + rest;
      }
    }
  }

  lemma {:induction false} LikesOnTracksOfEmpty(tracks: seq<Track>, artistId: nat)
    ensures LikesOnTracksOf([], tracks, artistId) == 0
  {
    if tracks != [] {
      LikesOnTracksOfEmpty(tracks[1..], artistId);
    }
  }

  /** Prepending one like row adds it to the sum once per artist track it belongs to. */
  lemma {:induction false} LikesOnTracksOfCons(l: Like, likes: seq<Like>, tracks: seq<Track>, artistId: nat)
    ensures LikesOnTracksOf([l] + likes, tracks, artistId)
         == LikesOnTracksOf(likes, tracks, artistId) + TracksWithId(tracks, l.trackId, artistId)
  {
    if tracks != [] {
      assert ([l] + likes)[1..] == likes;
      LikesOnTracksOfCons(l, likes, tracks[1..], artistId);
    }
  }

  /** An artist's received likes (one storage join over the like table) equal the sum
      of the like counts of the artist's tracks. */
  lemma {:induction false} LikesReceivedIsSumOverTracks(likes: seq<Like>, tracks: seq<Track>, artistId: nat)
    requires TrackIdsUnique(tracks)
    ensures LikesReceived(likes, tracks, artistId) == LikesOnTracksOf(likes, tracks, artistId)
  {
    if likes == [] {
      LikesOnTracksOfEmpty(tracks, artistId);
    } else {
      LikesReceivedIsSumOverTracks(likes[1..], tracks, artistId);
      assert likes == [likes[0]] + likes[1..];
      LikesOnTracksOfCons(likes[0], likes[1..], tracks, artistId);
      TracksWithIdIsJoin(tracks, likes[0].trackId, artistId);
    }
  }
}
