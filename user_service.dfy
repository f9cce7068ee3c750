/** User reads and writes (userService.ts): the profile with its aggregates and
    the `isSubscribed` flag, the name-filtered user list that is paged BEFORE it
    is sorted, and the update and delete operations guarded by a NotFound check. */
module UserService {
  import opened Common
  import opened Ranking
  import opened Store
  import opened SubscriptionService

  // ---------------------------------------------------------------------------
  // findById
  // ---------------------------------------------------------------------------

  /** The user row with the counts and the per-viewer flag findById attaches. */
  datatype Profile = Profile(
    user: User,
    likesCount: nat,
    subscribersCount: nat,
    subscriptionsCount: nat,
    tracksCount: nat,
    isSubscribed: bool)

  /** `currentUserId && currentUserId !== id`, then an edge lookup. */
  predicate IsSubscribed(subscriptions: seq<Subscription>, viewer: Option<nat>, id: nat) {
    IdGiven(viewer) && viewer.value != id && Subscription(viewer.value, id) in subscriptions
  }

  /** findById(id, currentUserId). */
  function FindById(db: Snapshot, id: nat, currentUserId: Option<nat>, storageFails: bool): (r: Response<Profile>)
    ensures r.Failure? <==> storageFails || forall u :: u in db.users ==> u.id != id
    ensures storageFails ==> r == Failure(InternalServerError)
    ensures !storageFails ==> (r == Failure(NotFound) <==> forall u :: u in db.users ==> u.id != id)
    ensures r.Success? ==> r.data.user in db.users && r.data.user.id == id
    ensures r.Success? ==> r.data.likesCount == LikesReceived(db.likes, db.tracks, id)
    ensures r.Success? && TrackIdsUnique(db.tracks) ==> r.data.likesCount == LikesOnTracksOf(db.likes, db.tracks, id)
    ensures r.Success? ==> r.data.subscribersCount == SubscribersCount(db.subscriptions, id)
    ensures r.Success? ==> r.data.subscriptionsCount == SubscriptionsCount(db.subscriptions, id)
    ensures r.Success? ==> r.data.tracksCount == TracksCount(db.tracks, id)
    ensures r.Success? ==> (r.data.isSubscribed <==>
      IdGiven(currentUserId) && currentUserId.value != id && Subscription(currentUserId.value, id) in db.subscriptions)
  {
    if storageFails then Failure(InternalServerError)
    else
      match UserById(db.users, id)
      case None => Failure(NotFound)
      case Some(user) =>
        if TrackIdsUnique(db.tracks) then
          LikesReceivedIsSumOverTracks(db.likes, db.tracks, id);
          Success(ProfileOf(db, user, currentUserId))
        else
          Success(ProfileOf(db, user, currentUserId))
  }

  function ProfileOf(db: Snapshot, user: User, currentUserId: Option<nat>): (p: Profile)
    ensures p.user == user && p.likesCount == LikesReceived(db.likes, db.tracks, user.id)
    ensures p.subscribersCount == SubscribersCount(db.subscriptions, user.id)
    ensures p.subscriptionsCount == SubscriptionsCount(db.subscriptions, user.id)
    ensures p.tracksCount == TracksCount(db.tracks, user.id)
    ensures p.isSubscribed <==> IdGiven(currentUserId) && currentUserId.value != user.id
                                && Subscription(currentUserId.value, user.id) in db.subscriptions
  {
    Profile(
      user,
      LikesReceived(db.likes, db.tracks, user.id),
      SubscribersCount(db.subscriptions, user.id),
      SubscriptionsCount(db.subscriptions, user.id),
      TracksCount(db.tracks, user.id),
      IsSubscribed(db.subscriptions, currentUserId, user.id))
  }

  /** A profile's `likesCount` is what the user's tracks received, not what the user gave:
      likes the user gives to other artists' tracks leave it unchanged. */
  lemma ProfileLikesAreReceived(db: Snapshot, id: nat, currentUserId: Option<nat>, trackId: nat)
    requires FindById(db, id, currentUserId, false).Success?
    requires !TrackOfArtist(db.tracks, trackId, id)
    ensures FindById(db.(likes := [Like(id, trackId)] + db.likes), id, currentUserId, false).data.likesCount
         == FindById(db, id, currentUserId, false).data.likesCount
  {
    assert ([Like(id, trackId)] + db.likes)[1..] == db.likes;
  }

  /** With the graph free of self-edges, `isSubscribed` holds exactly when the viewer is
      on the first page of the profile's subscriber list that covers the whole table. */
  lemma IsSubscribedMatchesSubscriberList(db: Snapshot, id: nat, viewer: nat)
    requires viewer != 0 && NoSelfEdges(db.subscriptions)
    ensures IsSubscribed(db.subscriptions, Some(viewer), id) <==>
      UserCard(viewer, LikesGiven(db.likes, viewer), SubscribersCount(db.subscriptions, viewer))
        in GetSubscribers(db, id, |db.subscriptions|, 0, false).data
  {
    var edges := Filter(db.subscriptions, EdgeTo(id));
    PageAll(edges, |db.subscriptions|);
    var cards := GetSubscribers(db, id, |db.subscriptions|, 0, false).data;
    var e := Subscription(viewer, id);
    if e in db.subscriptions {
      assert e in edges;
      var k :| 0 <= k < |edges| && edges[k] == e;
      assert cards[k] == CardOf(db, viewer);
    }
  }

  // ---------------------------------------------------------------------------
  // findAll
  // ---------------------------------------------------------------------------

  /** `sortBy: "likes" | "subscribers"`; absent keeps the page in storage order. */
  datatype UserSort = ByLikes | BySubscribers

  /** A listed user with the counts findAll attaches; `likesCount` is likes GIVEN here. */
  datatype UserStats = UserStats(id: nat, subscribersCount: nat, likesCount: nat)

  function StatsOf(db: Snapshot, u: User): (s: UserStats)
    ensures s.id == u.id
    ensures s.subscribersCount == SubscribersCount(db.subscriptions, u.id)
    ensures s.likesCount == LikesGiven(db.likes, u.id)
  {
    UserStats(u.id, SubscribersCount(db.subscriptions, u.id), LikesGiven(db.likes, u.id))
  }

  /** `if (name) where.name = { contains: name, mode: "insensitive" }`; a null name never matches. */
  function NameMatcher(name: Option<string>): User -> bool {
    (u: User) => !TextGiven(name) || (u.name.Some? && ContainsInsensitive(u.name.value, name.value))
  }

  function StatsKey(sortBy: UserSort): UserStats -> Rank {
    match sortBy
    case ByLikes => (s: UserStats) => Rank(s.likesCount, 0)
    case BySubscribers => (s: UserStats) => Rank(s.subscribersCount, 0)
  }

  /** Each user with the counts findAll attaches, in order. */
  function StatsOfUsers(db: Snapshot, users: seq<User>): (r: seq<UserStats>)
    ensures |r| == |users| && forall k :: 0 <= k < |r| ==> r[k] == StatsOf(db, users[k])
  {
    seq(|users|, k requires 0 <= k < |users| => StatsOf(db, users[k]))
  }

  lemma StatsOfUsersConcat(db: Snapshot, a: seq<User>, b: seq<User>)
    ensures StatsOfUsers(db, a + b) == StatsOfUsers(db, a) + StatsOfUsers(db, b)
  {
    var s := StatsOfUsers(db, a) + StatsOfUsers(db, b);
    forall k | 0 <= k < |a + b| ensures StatsOfUsers(db, a + b)[k] == s[k] {
      if k >= |a| {
        assert (a + b)[k] == b[k - |a|];
      }
    }
  }

  /** The page of matching users in storage order, with their counts. */
  function PageStats(db: Snapshot, name: Option<string>, limit: nat, offset: nat): (r: seq<UserStats>)
    ensures |r| <= limit
    ensures forall k :: 0 <= k < |r| ==> exists u :: u in db.users && NameMatcher(name)(u) && r[k] == StatsOf(db, u)
    ensures r == StatsOfUsers(db, Page(Filter(db.users, NameMatcher(name)), offset, limit))
  {
    var matching := Filter(db.users, NameMatcher(name));
    var page := Page(matching, offset, limit);
    var r := StatsOfUsers(db, page);
    assert forall k :: 0 <= k < |r| ==> page[k] in matching && r[k] == StatsOf(db, page[k]) by {
      forall k | 0 <= k < |r| ensures page[k] in matching {
        assert page[k] == matching[offset + k];
      }
    }
    r
  }

  /** Two consecutive pages of the user list are one page of the combined size. */
  lemma StatsPagesTile(db: Snapshot, name: Option<string>, offset: nat, a: nat, b: nat)
    ensures PageStats(db, name, a, offset) + PageStats(db, name, b, offset + a) == PageStats(db, name, a + b, offset)
  {
    var m := Filter(db.users, NameMatcher(name));
    PagesConcatenate(m, offset, a, b);
    StatsOfUsersConcat(db, Page(m, offset, a), Page(m, offset + a, b));
  }

  /** `users.sort(...)` on one page: descending by the chosen count, users with equal
      counts keep their page order. */
  function SortStats(order: UserSort, page: seq<UserStats>): (r: seq<UserStats>)
    ensures multiset(r) == multiset(page)
    ensures order == ByLikes ==> forall i, j :: 0 <= i < j < |r| ==> r[i].likesCount >= r[j].likesCount
    ensures order == BySubscribers ==> forall i, j :: 0 <= i < j < |r| ==> r[i].subscribersCount >= r[j].subscribersCount
    ensures forall c :: Filter(r, HasRank(StatsKey(order), c)) == Filter(page, HasRank(StatsKey(order), c))
  {
    StatsDescending(order, Sort(StatsKey(order), page));
    StatsStable(order, page);
    Sort(StatsKey(order), page)
  }

  /** Descending under a count's rank is non-increasing in that count. */
  lemma StatsDescending(order: UserSort, s: seq<UserStats>)
    requires Descending(StatsKey(order), s)
    ensures order == ByLikes ==> forall i, j :: 0 <= i < j < |s| ==> s[i].likesCount >= s[j].likesCount
    ensures order == BySubscribers ==> forall i, j :: 0 <= i < j < |s| ==> s[i].subscribersCount >= s[j].subscribersCount
  {
    forall i, j | 0 <= i < j < |s|
      ensures order == ByLikes ==> s[i].likesCount >= s[j].likesCount
      ensures order == BySubscribers ==> s[i].subscribersCount >= s[j].subscribersCount
    {
      assert !Ahead(StatsKey(order)(s[j]), StatsKey(order)(s[i]));
    }
  }

  /** Sorting a page by a count keeps users with equal counts in their page order. */
  lemma StatsStable(order: UserSort, page: seq<UserStats>)
    ensures forall c :: Filter(Sort(StatsKey(order), page), HasRank(StatsKey(order), c))
                     == Filter(page, HasRank(StatsKey(order), c))
  {
    forall c ensures Filter(Sort(StatsKey(order), page), HasRank(StatsKey(order), c))
                  == Filter(page, HasRank(StatsKey(order), c)) {
      SortIsStable(StatsKey(order), page, c);
    }
  }

  /** findAll(sortBy, name, limit, offset): skip/take on the name-filtered users first,
      then the page alone is sorted, stably, by the chosen count. */
  function FindAll(db: Snapshot, sortBy: Option<UserSort>, name: Option<string>, limit: nat, offset: nat,
                   storageFails: bool): (r: Response<seq<UserStats>>)
    ensures r.Failure? <==> storageFails
    ensures r.Failure? ==> r.status == InternalServerError
    ensures r.Success? ==> multiset(r.data) == multiset(PageStats(db, name, limit, offset))
    ensures r.Success? && sortBy.None? ==> r.data == PageStats(db, name, limit, offset)
    ensures r.Success? && sortBy == Some(ByLikes) ==>
      forall i, j :: 0 <= i < j < |r.data| ==> r.data[i].likesCount >= r.data[j].likesCount
    ensures r.Success? && sortBy == Some(BySubscribers) ==>
      forall i, j :: 0 <= i < j < |r.data| ==> r.data[i].subscribersCount >= r.data[j].subscribersCount
    ensures r.Success? && sortBy.Some? ==> forall c ::
      Filter(r.data, HasRank(StatsKey(sortBy.value), c)) == Filter(PageStats(db, name, limit, offset), HasRank(StatsKey(sortBy.value), c))
  {
    if storageFails then Failure(InternalServerError)
    else
      var page := PageStats(db, name, limit, offset);
      if |page| == 0 then Success([])
      else
        match sortBy
        case None => Success(page)
        case Some(order) => Success(SortStats(order, page))
  }

  /** Sorting changes only the order within a page: the users findAll returns, and
      how many, do not depend on `sortBy`. */
  lemma SortingKeepsThePage(db: Snapshot, order: UserSort, name: Option<string>, limit: nat, offset: nat)
    ensures multiset(FindAll(db, Some(order), name, limit, offset, false).data)
         == multiset(FindAll(db, None, name, limit, offset, false).data)
    ensures |FindAll(db, Some(order), name, limit, offset, false).data| <= limit
  {
    var a := FindAll(db, Some(order), name, limit, offset, false).data;
    assert |a| == |multiset(a)|;
  }

  // ---------------------------------------------------------------------------
  // updateUser / deleteUser
  // ---------------------------------------------------------------------------

  /** UpdateUserInput: each field is absent (`None`, left alone), null (`Some(None)`)
      or a new value. */
  datatype UserPatch = UserPatch(name: Option<Option<string>>, avatar: Option<Option<string>>, bio: Option<Option<string>>)

  function Patched(u: User, patch: UserPatch): (r: User)
    ensures r.id == u.id && r.email == u.email
    ensures r.name == (if patch.name.Some? then patch.name.value else u.name)
    ensures r.avatar == (if patch.avatar.Some? then patch.avatar.value else u.avatar)
    ensures r.bio == (if patch.bio.Some? then patch.bio.value else u.bio)
  {
    u.(name := if patch.name.Some? then patch.name.value else u.name,
       avatar := if patch.avatar.Some? then patch.avatar.value else u.avatar,
       bio := if patch.bio.Some? then patch.bio.value else u.bio)
  }

  /** An empty patch changes nothing; applying a patch twice is applying it once. */
  lemma PatchIdempotent(u: User, patch: UserPatch)
    ensures Patched(u, UserPatch(None, None, None)) == u
    ensures Patched(Patched(u, patch), patch) == Patched(u, patch)
  {
  }

  function NotUser(id: nat): User -> bool {
    (u: User) => u.id != id
  }

  class UserTable {
    var users: seq<User>

    ghost predicate Valid()
      reads this
    {
      UserIdsUnique(users)
    }

    constructor(users0: seq<User>)
      requires UserIdsUnique(users0)
      ensures Valid() && users == users0
    {
      users := users0;
    }

    /** updateUser(id, userData): NotFound leaves the table alone; otherwise only the
        supplied fields of that one user are written, and the updated row is returned. */
    method UpdateUser(id: nat, patch: UserPatch, storageFails: bool) returns (r: Response<User>)
      requires Valid()
      modifies this
      ensures Valid()
      ensures storageFails ==> r == Failure(InternalServerError) && users == old(users)
      ensures !storageFails && UserById(old(users), id).None? ==> r == Failure(NotFound) && users == old(users)
      ensures !storageFails && UserById(old(users), id).Some? ==>
        r == Success(Patched(UserById(old(users), id).value, patch))
      ensures |users| == |old(users)|
      ensures forall k :: 0 <= k < |users| ==>
        users[k] == if r.Success? && old(users)[k].id == id then Patched(old(users)[k], patch) else old(users)[k]
    {
      if storageFails {
        return Failure(InternalServerError);
      }
      var existing := UserById(users, id);
      if existing.None? {
        return Failure(NotFound);
      }
      var before := users;
      users := seq(|before|, k requires 0 <= k < |before| => if before[k].id == id then Patched(before[k], patch) else before[k]);
      assert UserIdsUnique(users) by {
        forall i, j | 0 <= i < j < |users| ensures users[i].id != users[j].id {
          assert users[i].id == before[i].id && users[j].id == before[j].id;
        }
      }
      r := Success(Patched(existing.value, patch));
    }

    /** deleteUser(id): NotFound leaves the table alone; otherwise exactly that user goes. */
    method DeleteUser(id: nat, storageFails: bool) returns (r: Response<()>)
      requires Valid()
      modifies this
      ensures Valid()
      ensures storageFails ==> r == Failure(InternalServerError) && users == old(users)
      ensures !storageFails && UserById(old(users), id).None? ==> r == Failure(NotFound) && users == old(users)
      ensures !storageFails && UserById(old(users), id).Some? ==> r.Success?
      ensures r.Success? ==> users == Filter(old(users), NotUser(id)) && |users| == |old(users)| - 1
      ensures forall u :: u in users <==> u in old(users) && (r.Failure? || u.id != id)
    {
      if storageFails {
        return Failure(InternalServerError);
      }
      var existing := UserById(users, id);
      if existing.None? {
        return Failure(NotFound);
      }
      var before := users;
      users := Filter(before, NotUser(id));
      assert UserIdsUnique(users) by {
        NoDuplicatesOfSub(before, users);
        forall i, j | 0 <= i < j < |users| ensures users[i].id != users[j].id {
          assert users[i] in before && users[j] in before;
          var p :| 0 <= p < |before| && before[p] == users[i];
          var q :| 0 <= q < |before| && before[q] == users[j];
          assert p != q;
        }
      }
      OneUserRemoved(before, id, existing.value);
      r := Success(());
    }
  }

  /** Removing a present id from a table of unique ids removes exactly one row. */
  lemma {:induction false} OneUserRemoved(users: seq<User>, id: nat, u: User)
    requires UserIdsUnique(users) && u in users && u.id == id
    ensures |Filter(users, NotUser(id))| == |users| - 1
  {
    var rest := users[1..];
    assert UserIdsUnique(rest) by {
      forall i, j | 0 <= i < j < |rest| ensures rest[i].id != rest[j].id {
        assert rest[i] == users[i + 1] && rest[j] == users[j + 1];
      }
    }
    if users[0].id == id {
      RestKeepsOtherIds(users, id);
      FilterCons(users, NotUser(id));
    } else {
      assert u in rest by {
        assert users == [users[0]] + rest;
      }
      OneUserRemoved(rest, id, u);
      FilterCons(users, NotUser(id));
    }
  }

  lemma RestKeepsOtherIds(users: seq<User>, id: nat)
    requires UserIdsUnique(users) && users != [] && users[0].id == id
    ensures Filter(users[1..], NotUser(id)) == users[1..]
  {
    var rest := users[1..];
    forall x | x in rest ensures NotUser(id)(x) {
      var k :| 0 <= k < |rest| && rest[k] == x;
      assert x == users[k + 1];
    }
    FilterKeepsAll(rest, NotUser(id));
  }
}
