/** Worked examples of the listing rules on three-track snapshots: the feed of a
    user who follows two artists, the tie-break of the `likes` mode, and a tag
    filter. Each is stated for every snapshot of the described shape. */
module Scenarios {
  import opened Common
  import opened Ranking
  import opened Store
  import opened TrackService
  import opened SubscriptionService

  /** Three elements with strictly decreasing ranks are descending, with distinct ranks. */
  lemma ThreeInOrder<T>(key: T -> Rank, a: T, b: T, c: T)
    requires Ahead(key(a), key(b)) && Ahead(key(b), key(c))
    ensures Descending(key, [a, b, c]) && RanksDistinct(key, [a, b, c])
  {
  }

  lemma Reordered<T>(a: T, b: T, c: T)
    ensures multiset([b, c, a]) == multiset([a, b, c]) && multiset([b, a, c]) == multiset([a, b, c])
  {
    RotateThree(a, b, c);
    SwapFront(a, b, c);
  }

  lemma RotateThree<T>(a: T, b: T, c: T)
    ensures multiset([b, c, a]) == multiset([a, b, c])
  {
    assert [b, c, a] == [b, c] + [a];
    assert [a, b, c] == [a] + [b, c];
  }

  lemma SwapFront<T>(a: T, b: T, c: T)
    ensures multiset([b, a, c]) == multiset([a, b, c])
  {
    assert [b, a, c] == [b, a] + [c];
    assert [a, b, c] == [a, b] + [c];
    assert multiset([b, a]) == multiset([a, b]) by {
      assert [b, a] == [b] + [a];
      assert [a, b] == [a] + [b];
    }
  }

  lemma FirstTwoOfThree<T>(a: T, b: T, c: T)
    ensures Page([a, b, c], 0, 2) == [a, b]
  {
    assert [a, b, c][0..2] == [a, b];
  }

  /** When exactly one row satisfies the condition, filtering yields that row alone. */
  lemma FilterSingle<T(!new)>(s: seq<T>, p: T -> bool, y: T)
    requires p(y) && multiset(s)[y] == 1
    requires forall x :: x in s && p(x) ==> x == y
    ensures Filter(s, p) == [y]
  {
    var r := Filter(s, p);
    assert multiset(r) == multiset{y} by {
      forall x ensures multiset(r)[x] == multiset{y}[x] {
        if multiset(r)[x] > 0 {
          assert x in r;
        }
      }
    }
    assert |r| == |multiset(r)| == 1;
    assert r[0] in multiset(r);
  }

  /** A snapshot whose every track satisfies the filter matches all of its tracks. */
  lemma AllMatch(db: Snapshot, w: Where, t1: Track, t2: Track, t3: Track)
    requires db.tracks == [t1, t2, t3]
    requires Satisfies(db.users, w, t1) && Satisfies(db.users, w, t2) && Satisfies(db.users, w, t3)
    ensures Matching(db, w) == db.tracks
  {
    forall t | t in db.tracks ensures Matcher(db.users, w)(t) {
      assert t == t1 || t == t2 || t == t3;
    }
    FilterKeepsAll(db.tracks, Matcher(db.users, w));
  }

  // ---------------------------------------------------------------------------
  // The feed: A follows B and C; B posted t1 and later t2, C posted t3 in between
  // ---------------------------------------------------------------------------

  lemma FollowsTwo(subscriptions: seq<Subscription>, a: nat, b: nat, c: nat)
    requires subscriptions == [Subscription(a, b), Subscription(a, c)]
    ensures FollowedIds(subscriptions, a) == [b, c]
  {
    var rest := subscriptions[1..];
    assert rest == [Subscription(a, c)] && rest[1..] == [];
    assert FollowedIds(rest[1..], a) == [];
    assert FollowedIds(rest, a) == [c] + FollowedIds(rest[1..], a);
    assert FollowedIds(subscriptions, a) == [b] + FollowedIds(rest, a);
  }

  lemma FeedRanked(db: Snapshot, b: nat, c: nat, t1: Track, t2: Track, t3: Track)
    requires db.tracks == [t1, t2, t3]
    requires t1.artistId == b && t2.artistId == b && t3.artistId == c
    requires t1.createdAt < t3.createdAt < t2.createdAt
    ensures Ranked(db, New, FeedWhere([b, c])) == [t2, t3, t1]
  {
    AllMatch(db, FeedWhere([b, c]), t1, t2, t3);
    ThreeInOrder(RankOf(db.likes, New), t2, t3, t1);
    Reordered(t1, t2, t3);
    RankedIs(db, New, FeedWhere([b, c]), [t2, t3, t1]);
  }

  /** The first feed page of two items is B's newer track, then C's track. */
  lemma FeedNewestFirst(db: Snapshot, a: nat, b: nat, c: nat, t1: Track, t2: Track, t3: Track)
    requires db.subscriptions == [Subscription(a, b), Subscription(a, c)]
    requires db.tracks == [t1, t2, t3]
    requires t1.artistId == b && t2.artistId == b && t3.artistId == c
    requires t1.createdAt < t3.createdAt < t2.createdAt
    ensures GetFeed(db, a, 2, 0, None, false).Success?
    ensures TracksOf(GetFeed(db, a, 2, 0, None, false).data) == [t2, t3]
  {
    FollowsTwo(db.subscriptions, a, b, c);
    FeedShows(db, a, 2, 0, None);
    FeedRanked(db, b, c, t1, t2, t3);
    FirstTwoOfThree(t2, t3, t1);
  }

  // ---------------------------------------------------------------------------
  // `likes` mode: t1 and t2 tie on likes, t2 is newer; t3 has fewer likes
  // ---------------------------------------------------------------------------

  lemma TieRanked(db: Snapshot, t1: Track, t2: Track, t3: Track)
    requires db.tracks == [t1, t2, t3]
    requires LikesOfTrack(db.likes, t1.id) == LikesOfTrack(db.likes, t2.id) > LikesOfTrack(db.likes, t3.id)
    requires t1.createdAt < t2.createdAt
    ensures Ranked(db, Likes, ListingWhere(None, None, None, None)) == [t2, t1, t3]
  {
    var w := ListingWhere(None, None, None, None);
    AllMatch(db, w, t1, t2, t3);
    ThreeInOrder(RankOf(db.likes, Likes), t2, t1, t3);
    Reordered(t1, t2, t3);
    RankedIs(db, Likes, w, [t2, t1, t3]);
  }

  /** With limit 2, the two most-liked tracks come first, the newer of the tie ahead. */
  lemma LikesTieBrokenByRecency(db: Snapshot, t1: Track, t2: Track, t3: Track)
    requires db.tracks == [t1, t2, t3]
    requires LikesOfTrack(db.likes, t1.id) == LikesOfTrack(db.likes, t2.id) > LikesOfTrack(db.likes, t3.id)
    requires t1.createdAt < t2.createdAt
    ensures GetAllTracks(db, None, Likes, 2, 0, None, None, None, None, false).Success?
    ensures TracksOf(GetAllTracks(db, None, Likes, 2, 0, None, None, None, None, false).data) == [t2, t1]
  {
    TieRanked(db, t1, t2, t3);
    AllTracksShows(db, None, Likes, 2, 0, None, None, None, None);
    FirstTwoOfThree(t2, t1, t3);
  }

  // ---------------------------------------------------------------------------
  // Tag filter: only t2 carries the tag
  // ---------------------------------------------------------------------------

  lemma OnlyTaggedMatches(db: Snapshot, tag: string, t1: Track, t2: Track, t3: Track)
    requires db.tracks == [t1, t2, t3] && tag != ""
    requires tag !in t1.tags && tag in t2.tags && tag !in t3.tags
    ensures Matching(db, ListingWhere(None, None, Some(tag), None)) == [t2]
  {
    var p := Matcher(db.users, ListingWhere(None, None, Some(tag), None));
    assert !p(t1) && p(t2) && !p(t3);
    assert multiset(db.tracks)[t2] == 1;
    FilterSingle(db.tracks, p, t2);
  }

  /** Filtering by a tag only t2 carries lists exactly t2, in either mode. */
  lemma TagFilterListsOnlyTagged(db: Snapshot, mode: SortMode, tag: string, t1: Track, t2: Track, t3: Track)
    requires db.tracks == [t1, t2, t3] && tag != ""
    requires tag !in t1.tags && tag in t2.tags && tag !in t3.tags
    ensures GetAllTracks(db, None, mode, 15, 0, None, None, Some(tag), None, false).Success?
    ensures TracksOf(GetAllTracks(db, None, mode, 15, 0, None, None, Some(tag), None, false).data) == [t2]
  {
    var w := ListingWhere(None, None, Some(tag), None);
    OnlyTaggedMatches(db, tag, t1, t2, t3);
    RankedIs(db, mode, w, [t2]);
    AllTracksShows(db, None, mode, 15, 0, None, None, Some(tag), None);
    assert Page([t2], 0, 15) == [t2];
  }
}
