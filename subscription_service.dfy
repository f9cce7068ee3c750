/** The subscription graph and the follow feed (subscriptionService.ts). The
    edge table is mutated by `subscribe` (guarded against self-subscription,
    idempotent) and `unsubscribe` (deletes every edge of the ordered pair); the
    subscriber and subscription lists and the feed are reads of a snapshot. */
module SubscriptionService {
  import opened Common
  import opened Store
  import opened Table
  import opened TrackService

  /** No user follows themself: `subscribe` refuses such an edge before touching storage. */
  predicate NoSelfEdges(subscriptions: seq<Subscription>) {
    forall e :: e in subscriptions ==> e.subscriberId != e.subscribedToId
  }

  class SubscriptionTable {
    var subscriptions: seq<Subscription>

    ghost predicate Valid()
      reads this
    {
      NoDuplicates(subscriptions) && NoSelfEdges(subscriptions)
    }

    constructor(subscriptions0: seq<Subscription>)
      requires NoDuplicates(subscriptions0) && NoSelfEdges(subscriptions0)
      ensures Valid() && subscriptions == subscriptions0
    {
      subscriptions := subscriptions0;
    }

    /** subscribe(subscriberId, subscribedToId). */
    method Subscribe(subscriberId: nat, subscribedToId: nat, storageFails: bool) returns (r: Response<()>)
      requires Valid()
      modifies this
      ensures Valid()
      ensures subscriberId == subscribedToId ==> r == Failure(BadRequest) && subscriptions == old(subscriptions)
      ensures subscriberId != subscribedToId && storageFails ==>
        r == Failure(InternalServerError) && subscriptions == old(subscriptions)
      ensures subscriberId != subscribedToId && !storageFails ==>
        r.Success? && subscriptions == Inserted(old(subscriptions), Subscription(subscriberId, subscribedToId))
      ensures forall e :: e != Subscription(subscriberId, subscribedToId) ==>
        multiset(subscriptions)[e] == multiset(old(subscriptions))[e]
    {
      if subscriberId == subscribedToId {
        return Failure(BadRequest);
      }
      if storageFails {
        return Failure(InternalServerError);
      }
      var edge := Subscription(subscriberId, subscribedToId);
      if edge in subscriptions {
        return Success(());
      }
      subscriptions := subscriptions + [edge];
      r := Success(());
    }

    /** unsubscribe(subscriberId, subscribedToId): `deleteMany` on the ordered pair. */
    method Unsubscribe(subscriberId: nat, subscribedToId: nat, storageFails: bool) returns (r: Response<()>)
      requires Valid()
      modifies this
      ensures Valid()
      ensures r.Failure? <==> storageFails
      ensures r.Failure? ==> r.status == InternalServerError && subscriptions == old(subscriptions)
      ensures r.Success? ==> subscriptions == Deleted(old(subscriptions), Subscription(subscriberId, subscribedToId))
      ensures r.Success? ==> Subscription(subscriberId, subscribedToId) !in subscriptions
      ensures forall e :: e != Subscription(subscriberId, subscribedToId) ==>
        multiset(subscriptions)[e] == multiset(old(subscriptions))[e]
    {
      if storageFails {
        return Failure(InternalServerError);
      }
      subscriptions := Deleted(subscriptions, Subscription(subscriberId, subscribedToId));
      r := Success(());
    }
  }

  lemma {:induction false} SubscribersCountAppend(subscriptions: seq<Subscription>, e: Subscription, userId: nat)
    ensures SubscribersCount(subscriptions + [e], userId)
         == SubscribersCount(subscriptions, userId) + (if e.subscribedToId == userId then 1 else 0)
  {
    if subscriptions == [] {
      assert subscriptions + [e] == [e] && [e][1..] == [];
    } else {
      assert (subscriptions + [e])[0] == subscriptions[0];
      assert (subscriptions + [e])[1..] == subscriptions[1..] + [e];
      SubscribersCountAppend(subscriptions[1..], e, userId);
    }
  }

  /** A subscription raises the followee's subscriber count by one exactly when the
      edge is new. */
  lemma SubscribeCountsOnce(subscriptions: seq<Subscription>, subscriberId: nat, subscribedToId: nat)
    ensures SubscribersCount(Inserted(subscriptions, Subscription(subscriberId, subscribedToId)), subscribedToId)
         == SubscribersCount(subscriptions, subscribedToId)
            + (if Subscription(subscriberId, subscribedToId) in subscriptions then 0 else 1)
  {
    var e := Subscription(subscriberId, subscribedToId);
    if e !in subscriptions {
      SubscribersCountAppend(subscriptions, e, subscribedToId);
    }
  }

  /** Subscribing twice is subscribing once; unsubscribing a fresh subscription restores the table. */
  lemma SubscribeIdempotent(subscriptions: seq<Subscription>, subscriberId: nat, subscribedToId: nat)
    ensures Inserted(Inserted(subscriptions, Subscription(subscriberId, subscribedToId)), Subscription(subscriberId, subscribedToId))
         == Inserted(subscriptions, Subscription(subscriberId, subscribedToId))
    ensures Subscription(subscriberId, subscribedToId) !in subscriptions ==>
      Deleted(Inserted(subscriptions, Subscription(subscriberId, subscribedToId)), Subscription(subscriberId, subscribedToId))
      == subscriptions
  {
    var e := Subscription(subscriberId, subscribedToId);
    if e !in subscriptions {
      DeleteUndoesInsert(subscriptions, e);
    }
  }

  // ---------------------------------------------------------------------------
  // Subscriber and subscription lists
  // ---------------------------------------------------------------------------

  /** A listed user with the two counts the lists attach: likes the user GAVE, and
      edges pointing at the user. */
  datatype UserCard = UserCard(id: nat, likesCount: nat, subscribersCount: nat)

  function CardOf(db: Snapshot, id: nat): (c: UserCard)
    ensures c.id == id
    ensures c.likesCount == LikesGiven(db.likes, id)
    ensures c.subscribersCount == SubscribersCount(db.subscriptions, id)
  {
    UserCard(id, LikesGiven(db.likes, id), SubscribersCount(db.subscriptions, id))
  }

  function EdgeTo(userId: nat): Subscription -> bool {
    (e: Subscription) => e.subscribedToId == userId
  }

  function EdgeFrom(userId: nat): Subscription -> bool {
    (e: Subscription) => e.subscriberId == userId
  }

  /** Each edge shown as its subscriber's card, in order. */
  function SubscriberCards(db: Snapshot, edges: seq<Subscription>): (r: seq<UserCard>)
    ensures |r| == |edges| && forall k :: 0 <= k < |r| ==> r[k] == CardOf(db, edges[k].subscriberId)
  {
    seq(|edges|, k requires 0 <= k < |edges| => CardOf(db, edges[k].subscriberId))
  }

  /** Each edge shown as its followee's card, in order. */
  function FolloweeCards(db: Snapshot, edges: seq<Subscription>): (r: seq<UserCard>)
    ensures |r| == |edges| && forall k :: 0 <= k < |r| ==> r[k] == CardOf(db, edges[k].subscribedToId)
  {
    seq(|edges|, k requires 0 <= k < |edges| => CardOf(db, edges[k].subscribedToId))
  }

  lemma CardsConcat(db: Snapshot, a: seq<Subscription>, b: seq<Subscription>)
    ensures SubscriberCards(db, a + b) == SubscriberCards(db, a) + SubscriberCards(db, b)
    ensures FolloweeCards(db, a + b) == FolloweeCards(db, a) + FolloweeCards(db, b)
  {
    var s, f := SubscriberCards(db, a) + SubscriberCards(db, b), FolloweeCards(db, a) + FolloweeCards(db, b);
    forall k | 0 <= k < |a + b| ensures SubscriberCards(db, a + b)[k] == s[k] && FolloweeCards(db, a + b)[k] == f[k] {
      if k >= |a| {
        assert (a + b)[k] == b[k - |a|];
      }
    }
  }

  /** getSubscribers(userId, limit, offset): a page of the edges pointing at the user,
      in storage order, each shown as its subscriber's card. */
  function GetSubscribers(db: Snapshot, userId: nat, limit: nat, offset: nat, storageFails: bool)
    : (r: Response<seq<UserCard>>)
    ensures r.Failure? <==> storageFails
    ensures r.Failure? ==> r.status == InternalServerError
    ensures r.Success? ==> |r.data| <= limit
    ensures r.Success? ==> forall c :: c in r.data ==>
      Subscription(c.id, userId) in db.subscriptions && c == CardOf(db, c.id)
    ensures r.Success? ==> r.data == SubscriberCards(db, Page(Filter(db.subscriptions, EdgeTo(userId)), offset, limit))
  {
    if storageFails then Failure(InternalServerError)
    else
      var edges := Filter(db.subscriptions, EdgeTo(userId));
      var page := Page(edges, offset, limit);
      var cards := SubscriberCards(db, page);
      assert forall c :: c in cards ==> Subscription(c.id, userId) in db.subscriptions by {
        forall c | c in cards ensures Subscription(c.id, userId) in db.subscriptions {
          var k :| 0 <= k < |cards| && cards[k] == c;
          assert page[k] == edges[offset + k] && edges[offset + k] in edges;
        }
      }
      Success(cards)
  }

  /** getSubscriptions(userId, limit, offset): a page of the edges leaving the user,
      in storage order, each shown as its followee's card. */
  function GetSubscriptions(db: Snapshot, userId: nat, limit: nat, offset: nat, storageFails: bool)
    : (r: Response<seq<UserCard>>)
    ensures r.Failure? <==> storageFails
    ensures r.Failure? ==> r.status == InternalServerError
    ensures r.Success? ==> |r.data| <= limit
    ensures r.Success? ==> forall c :: c in r.data ==>
      Subscription(userId, c.id) in db.subscriptions && c == CardOf(db, c.id)
    ensures r.Success? ==> r.data == FolloweeCards(db, Page(Filter(db.subscriptions, EdgeFrom(userId)), offset, limit))
  {
    if storageFails then Failure(InternalServerError)
    else
      var edges := Filter(db.subscriptions, EdgeFrom(userId));
      var page := Page(edges, offset, limit);
      var cards := FolloweeCards(db, page);
      assert forall c :: c in cards ==> Subscription(userId, c.id) in db.subscriptions by {
        forall c | c in cards ensures Subscription(userId, c.id) in db.subscriptions {
          var k :| 0 <= k < |cards| && cards[k] == c;
          assert page[k] == edges[offset + k] && edges[offset + k] in edges;
        }
      }
      Success(cards)
  }

  lemma {:induction false} EdgesToCounted(subscriptions: seq<Subscription>, userId: nat)
    ensures |Filter(subscriptions, EdgeTo(userId))| == SubscribersCount(subscriptions, userId)
  {
    if subscriptions != [] {
      EdgesToCounted(subscriptions[1..], userId);
    }
  }

  lemma {:induction false} EdgesFromCounted(subscriptions: seq<Subscription>, userId: nat)
    ensures |Filter(subscriptions, EdgeFrom(userId))| == SubscriptionsCount(subscriptions, userId)
  {
    if subscriptions != [] {
      EdgesFromCounted(subscriptions[1..], userId);
    }
  }

  /** Paged from the start with a limit that covers the table, the lists are as long as
      the subscriber and subscription counts a profile shows. */
  lemma ListsAgreeWithCounts(db: Snapshot, userId: nat)
    ensures |GetSubscribers(db, userId, |db.subscriptions|, 0, false).data|
         == SubscribersCount(db.subscriptions, userId)
    ensures |GetSubscriptions(db, userId, |db.subscriptions|, 0, false).data|
         == SubscriptionsCount(db.subscriptions, userId)
  {
    EdgesToCounted(db.subscriptions, userId);
    EdgesFromCounted(db.subscriptions, userId);
  }

  /** Two consecutive pages of either list are one page of the combined size: skip/take
      paging tiles the storage-order list of edges. */
  lemma ListPagesTile(db: Snapshot, userId: nat, offset: nat, a: nat, b: nat)
    ensures GetSubscribers(db, userId, a, offset, false).data + GetSubscribers(db, userId, b, offset + a, false).data
         == GetSubscribers(db, userId, a + b, offset, false).data
    ensures GetSubscriptions(db, userId, a, offset, false).data + GetSubscriptions(db, userId, b, offset + a, false).data
         == GetSubscriptions(db, userId, a + b, offset, false).data
  {
    var to, from := Filter(db.subscriptions, EdgeTo(userId)), Filter(db.subscriptions, EdgeFrom(userId));
    PagesConcatenate(to, offset, a, b);
    CardsConcat(db, Page(to, offset, a), Page(to, offset + a, b));
    PagesConcatenate(from, offset, a, b);
    CardsConcat(db, Page(from, offset, a), Page(from, offset + a, b));
  }

  /** Every edge of a sequence has its card in the mapped sequence. */
  lemma CardsShow(db: Snapshot, edges: seq<Subscription>, e: Subscription)
    requires e in edges
    ensures CardOf(db, e.subscriberId) in SubscriberCards(db, edges)
    ensures CardOf(db, e.subscribedToId) in FolloweeCards(db, edges)
  {
    var k :| 0 <= k < |edges| && edges[k] == e;
    assert SubscriberCards(db, edges)[k] == CardOf(db, e.subscriberId);
    assert FolloweeCards(db, edges)[k] == CardOf(db, e.subscribedToId);
  }

  /** Listed from the start with a limit covering the table, the lists are complete: every
      subscriber, and every user subscribed to, has a card. */
  lemma ListsAreComplete(db: Snapshot, userId: nat, other: nat)
    ensures Subscription(other, userId) in db.subscriptions ==>
      CardOf(db, other) in GetSubscribers(db, userId, |db.subscriptions|, 0, false).data
    ensures Subscription(userId, other) in db.subscriptions ==>
      CardOf(db, other) in GetSubscriptions(db, userId, |db.subscriptions|, 0, false).data
  {
    var to, from := Filter(db.subscriptions, EdgeTo(userId)), Filter(db.subscriptions, EdgeFrom(userId));
    PageAll(to, |db.subscriptions|);
    PageAll(from, |db.subscriptions|);
    if Subscription(other, userId) in db.subscriptions {
      CardsShow(db, to, Subscription(other, userId));
    }
    if Subscription(userId, other) in db.subscriptions {
      CardsShow(db, from, Subscription(userId, other));
    }
  }

  // ---------------------------------------------------------------------------
  // The feed
  // ---------------------------------------------------------------------------

  /** `subscription.findMany({ where: { subscriberId: userId } }).map(s => s.subscribedToId)`. */
  function FollowedIds(subscriptions: seq<Subscription>, userId: nat): (r: seq<nat>)
    ensures forall id :: id in r <==> Subscription(userId, id) in subscriptions
  {
    if subscriptions == [] then []
    else
      assert subscriptions == [subscriptions[0]] + subscriptions[1..];
      (if subscriptions[0].subscriberId == userId then [subscriptions[0].subscribedToId] else [])
      + FollowedIds(subscriptions[1..], userId)
  }

  /** `where: { artistId: { in: artistIds } }`. */
  function FeedWhere(ids: seq<nat>): Where {
    Where(None, Some(ids), None, None, None, None)
  }

  /** getFeed(userId, limit, offset, currentUserId): tracks of followed artists, newest
      first, skip/take, personalised for `currentUserId`. */
  function GetFeed(db: Snapshot, userId: nat, limit: nat, offset: nat, currentUserId: Option<nat>,
                   storageFails: bool): (r: Response<seq<TrackItem>>)
    ensures r.Failure? <==> storageFails
    ensures r.Failure? ==> r.status == InternalServerError
    ensures r.Success? && SubscriptionsCount(db.subscriptions, userId) == 0 ==> r.data == []
    ensures r.Success? ==> |r.data| <= limit && RecencyOrder(r.data)
    ensures r.Success? ==> forall item :: item in r.data ==>
      item.track in db.tracks && Subscription(userId, item.track.artistId) in db.subscriptions
    ensures r.Success? ==> forall item :: item in r.data ==>
      item.likesCount == LikesOfTrack(db.likes, item.track.id)
      && item.isLiked == LikedBy(db.likes, currentUserId, item.track.id)
  {
    if storageFails then Failure(InternalServerError)
    else
      var ids := FollowedIds(db.subscriptions, userId);
      if |ids| == 0 then Success([])
      else
        FollowsNobody(db.subscriptions, userId);
        Success(ListTracks(db, currentUserId, New, FeedWhere(ids), limit, offset))
  }

  /** When storage answers and the user follows someone, the feed is the `new` listing
      of the followed artists' tracks. */
  lemma FeedShows(db: Snapshot, userId: nat, limit: nat, offset: nat, currentUserId: Option<nat>)
    requires FollowedIds(db.subscriptions, userId) != []
    ensures GetFeed(db, userId, limit, offset, currentUserId, false).Success?
    ensures TracksOf(GetFeed(db, userId, limit, offset, currentUserId, false).data)
         == Page(Ranked(db, New, FeedWhere(FollowedIds(db.subscriptions, userId))), offset, limit)
  {
    ListingTracks(db, currentUserId, New, FeedWhere(FollowedIds(db.subscriptions, userId)), limit, offset);
  }

  /** A user whose subscription count is zero has no followed ids, and conversely. */
  lemma FollowsNobody(subscriptions: seq<Subscription>, userId: nat)
    ensures SubscriptionsCount(subscriptions, userId) == 0 <==> |FollowedIds(subscriptions, userId)| == 0
  {
    EdgesFromCounted(subscriptions, userId);
    var ids := FollowedIds(subscriptions, userId);
    var from := Filter(subscriptions, EdgeFrom(userId));
    if |from| > 0 {
      assert from[0] in from;
      assert ids != [] by {
        assert from[0].subscribedToId in ids;
      }
    }
    if ids != [] {
      assert ids[0] in ids;
      assert Subscription(userId, ids[0]) in from;
    }
  }

  /** Which tracks the feed shows depends on the subject alone: two viewers see the
      same tracks, in the same order, and an anonymous viewer sees none as liked. */
  lemma FeedContentsIgnoreViewer(db: Snapshot, userId: nat, limit: nat, offset: nat,
                                 viewer1: Option<nat>, viewer2: Option<nat>)
    ensures GetFeed(db, userId, limit, offset, viewer1, false).Success?
    ensures TracksOf(GetFeed(db, userId, limit, offset, viewer1, false).data)
         == TracksOf(GetFeed(db, userId, limit, offset, viewer2, false).data)
    ensures forall item :: item in GetFeed(db, userId, limit, offset, None, false).data ==> !item.isLiked
  {
  }

  /** From the start and with a limit that covers the store, the feed holds every track
      of every followed artist. */
  lemma FeedIsComplete(db: Snapshot, userId: nat, currentUserId: Option<nat>, t: Track)
    requires t in db.tracks && Subscription(userId, t.artistId) in db.subscriptions
    ensures t in TracksOf(GetFeed(db, userId, |db.tracks|, 0, currentUserId, false).data)
  {
    var ids := FollowedIds(db.subscriptions, userId);
    assert t.artistId in ids;
    var w := FeedWhere(ids);
    RankedFacts(db, New, w);
    FullListingIsOnePage(db, currentUserId, New, w);
    var ranked := Ranked(db, New, w);
    var k :| 0 <= k < |ranked| && ranked[k] == t;
    assert TracksOf(Personalise(db, currentUserId, ranked))[k] == t;
  }
}
