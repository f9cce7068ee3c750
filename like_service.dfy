/** Like toggling (likeService.ts): the like table as a mutable set of
    (userId, trackId) rows with at most one row per pair. `likeTrack` looks the
    pair up and creates it only when missing; `unlikeTrack` deletes every row of
    the pair. A storage error leaves the table as it was and answers 500. */
module LikeService {
  import opened Common
  import opened Store
  import opened Table

  class LikeTable {
    var likes: seq<Like>

    /** The compound unique key (userId, trackId). */
    ghost predicate Valid()
      reads this
    {
      NoDuplicates(likes)
    }

    constructor(likes0: seq<Like>)
      requires NoDuplicates(likes0)
      ensures Valid() && likes == likes0
    {
      likes := likes0;
    }

    /** likeTrack(userId, trackId): "Already liked" leaves the table alone, otherwise one row is created. */
    method LikeTrack(userId: nat, trackId: nat, storageFails: bool) returns (r: Response<()>)
      requires Valid()
      modifies this
      ensures Valid()
      ensures r.Failure? <==> storageFails
      ensures r.Failure? ==> r.status == InternalServerError && likes == old(likes)
      ensures r.Success? ==> likes == Inserted(old(likes), Like(userId, trackId))
      ensures r.Success? ==> Like(userId, trackId) in likes
      ensures forall l :: l != Like(userId, trackId) ==> multiset(likes)[l] == multiset(old(likes))[l]
    {
      if storageFails {
        return Failure(InternalServerError);
      }
      if Like(userId, trackId) in likes {
        return Success(());
      }
      likes := likes + [Like(userId, trackId)];
      r := Success(());
    }

    /** unlikeTrack(userId, trackId): `deleteMany` on the pair; succeeds whether or not a row existed. */
    method UnlikeTrack(userId: nat, trackId: nat, storageFails: bool) returns (r: Response<()>)
      requires Valid()
      modifies this
      ensures Valid()
      ensures r.Failure? <==> storageFails
      ensures r.Failure? ==> r.status == InternalServerError && likes == old(likes)
      ensures r.Success? ==> likes == Deleted(old(likes), Like(userId, trackId))
      ensures r.Success? ==> Like(userId, trackId) !in likes
      ensures forall l :: l != Like(userId, trackId) ==> multiset(likes)[l] == multiset(old(likes))[l]
    {
      if storageFails {
        return Failure(InternalServerError);
      }
      likes := Deleted(likes, Like(userId, trackId));
      r := Success(());
    }
  }

  // ---------------------------------------------------------------------------
  // What a like or an unlike does to the counts the listings show
  // ---------------------------------------------------------------------------

  lemma {:induction false} LikesOfTrackAppend(likes: seq<Like>, l: Like, trackId: nat)
    ensures LikesOfTrack(likes + [l], trackId) == LikesOfTrack(likes, trackId) + (if l.trackId == trackId then 1 else 0)
  {
    if likes == [] {
      assert likes + [l] == [l] && [l][1..] == [];
    } else {
      assert (likes + [l])[0] == likes[0] && (likes + [l])[1..] == likes[1..] + [l];
      LikesOfTrackAppend(likes[1..], l, trackId);
    }
  }

  lemma {:induction false} LikesOfTrackDeleted(likes: seq<Like>, x: Like, trackId: nat)
    ensures LikesOfTrack(Deleted(likes, x), trackId) + (if x.trackId == trackId then multiset(likes)[x] else 0)
         == LikesOfTrack(likes, trackId)
  {
    if likes != [] {
      assert likes == [likes[0]] + likes[1..];
      FilterCons(likes, NotRow(x));
      LikesOfTrackDeleted(likes[1..], x, trackId);
      var head := if likes[0] != x then [likes[0]] else [];
      LikesOfTrackConcat(head, Deleted(likes[1..], x), trackId);
    }
  }

  /** A like raises the track's like count by one exactly when the pair was not liked yet,
      and changes no other track's count. */
  lemma LikeCountsOnce(likes: seq<Like>, userId: nat, trackId: nat, other: nat)
    ensures LikesOfTrack(Inserted(likes, Like(userId, trackId)), other)
         == LikesOfTrack(likes, other) + (if other == trackId && Like(userId, trackId) !in likes then 1 else 0)
  {
    if Like(userId, trackId) !in likes {
      LikesOfTrackAppend(likes, Like(userId, trackId), other);
    }
  }

  /** With one row per pair, an unlike lowers the track's like count by one exactly when
      the pair was liked, and changes no other track's count. */
  lemma UnlikeCountsOnce(likes: seq<Like>, userId: nat, trackId: nat, other: nat)
    requires NoDuplicates(likes)
    ensures LikesOfTrack(Deleted(likes, Like(userId, trackId)), other)
         == LikesOfTrack(likes, other) - (if other == trackId && Like(userId, trackId) in likes then 1 else 0)
  {
    var x := Like(userId, trackId);
    LikesOfTrackDeleted(likes, x, other);
    NoDuplicatesByCount(likes);
    assert x in likes <==> x in multiset(likes);
  }

  lemma {:induction false} LikesGivenAppend(likes: seq<Like>, l: Like, userId: nat)
    ensures LikesGiven(likes + [l], userId) == LikesGiven(likes, userId) + (if l.userId == userId then 1 else 0)
  {
    if likes == [] {
      assert likes + [l] == [l] && [l][1..] == [];
    } else {
      assert (likes + [l])[0] == likes[0] && (likes + [l])[1..] == likes[1..] + [l];
      LikesGivenAppend(likes[1..], l, userId);
    }
  }

  lemma {:induction false} LikesGivenConcat(a: seq<Like>, b: seq<Like>, userId: nat)
    ensures LikesGiven(a + b, userId) == LikesGiven(a, userId) + LikesGiven(b, userId)
  {
    if a == [] {
      assert a + b == b;
    } else {
      assert (a + b)[0] == a[0] && (a + b)[1..] == a[1..] + b;
      LikesGivenConcat(a[1..], b, userId);
    }
  }

  lemma {:induction false} LikesGivenDeleted(likes: seq<Like>, x: Like, userId: nat)
    ensures LikesGiven(Deleted(likes, x), userId) + (if x.userId == userId then multiset(likes)[x] else 0)
         == LikesGiven(likes, userId)
  {
    if likes != [] {
      assert likes == [likes[0]] + likes[1..];
      FilterCons(likes, NotRow(x));
      LikesGivenDeleted(likes[1..], x, userId);
      var head := if likes[0] != x then [likes[0]] else [];
      LikesGivenConcat(head, Deleted(likes[1..], x), userId);
    }
  }

  /** A like raises the liker's count of likes given by one exactly when the pair was not
      liked yet, and changes no other user's count. */
  lemma LikeCountsOnceForLiker(likes: seq<Like>, userId: nat, trackId: nat, other: nat)
    ensures LikesGiven(Inserted(likes, Like(userId, trackId)), other)
         == LikesGiven(likes, other) + (if other == userId && Like(userId, trackId) !in likes then 1 else 0)
  {
    if Like(userId, trackId) !in likes {
      LikesGivenAppend(likes, Like(userId, trackId), other);
    }
  }

  /** With one row per pair, an unlike lowers the liker's count of likes given by one exactly
      when the pair was liked, and changes no other user's count. */
  lemma UnlikeCountsOnceForLiker(likes: seq<Like>, userId: nat, trackId: nat, other: nat)
    requires NoDuplicates(likes)
    ensures LikesGiven(Deleted(likes, Like(userId, trackId)), other)
         == LikesGiven(likes, other) - (if other == userId && Like(userId, trackId) in likes then 1 else 0)
  {
    var x := Like(userId, trackId);
    LikesGivenDeleted(likes, x, other);
    NoDuplicatesByCount(likes);
    assert x in likes <==> x in multiset(likes);
  }

  /** After a like the liker sees the track as liked; after an unlike, as not liked. */
  lemma LikeShowsAsLiked(likes: seq<Like>, userId: nat, trackId: nat)
    requires userId != 0
    ensures LikedBy(Inserted(likes, Like(userId, trackId)), Some(userId), trackId)
    ensures !LikedBy(Deleted(likes, Like(userId, trackId)), Some(userId), trackId)
  {
  }

  /** Liking twice is liking once; unliking twice is unliking once; unliking a fresh like
      restores the table it was made on. */
  lemma TogglesAreIdempotent(likes: seq<Like>, userId: nat, trackId: nat)
    ensures Inserted(Inserted(likes, Like(userId, trackId)), Like(userId, trackId)) == Inserted(likes, Like(userId, trackId))
    ensures Deleted(Deleted(likes, Like(userId, trackId)), Like(userId, trackId)) == Deleted(likes, Like(userId, trackId))
    ensures Like(userId, trackId) !in likes ==> Deleted(Inserted(likes, Like(userId, trackId)), Like(userId, trackId)) == likes
  {
    var x := Like(userId, trackId);
    DeleteIdempotent(likes, x);
    if x !in likes {
      DeleteUndoesInsert(likes, x);
    }
  }
}
