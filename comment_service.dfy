/** Comments (commentService.ts): adding a comment, listing a track's comments
    oldest first, and the ownership protocol of delete and update, which answer
    NotFound for an unknown id and Forbidden for anyone but the author before
    they touch the row. The comment table is a class: the id the store assigns
    next and the creation time (a clock reading) are explicit. */
module CommentService {
  import opened Common
  import opened Ranking
  import opened Store

  /** `comment.findUnique({ where: { id } })`. */
  function CommentById(comments: seq<Comment>, id: nat): (r: Option<Comment>)
    ensures r.Some? ==> r.value in comments && r.value.id == id
    ensures r.None? ==> forall c :: c in comments ==> c.id != id
  {
    if comments == [] then None
    else if comments[0].id == id then Some(comments[0])
    else CommentById(comments[1..], id)
  }

  function OnTrack(trackId: nat): Comment -> bool {
    (c: Comment) => c.trackId == trackId
  }

  function NotComment(id: nat): Comment -> bool {
    (c: Comment) => c.id != id
  }

  /** `orderBy: { createdAt: "asc" }`: the earlier comment ranks higher. */
  function Oldest(c: Comment): Rank {
    Rank(-c.createdAt, 0)
  }

  /** getComments(trackId): the track's comments, oldest first. */
  function GetComments(comments: seq<Comment>, trackId: nat, storageFails: bool): (r: Response<seq<Comment>>)
    ensures r.Failure? <==> storageFails
    ensures r.Failure? ==> r.status == InternalServerError
    ensures r.Success? ==> forall c :: c in r.data <==> c in comments && c.trackId == trackId
    ensures r.Success? ==> multiset(r.data) == multiset(Filter(comments, OnTrack(trackId)))
    ensures r.Success? ==> forall i, j :: 0 <= i < j < |r.data| ==> r.data[i].createdAt <= r.data[j].createdAt
  {
    if storageFails then Failure(InternalServerError)
    else
      var own := Filter(comments, OnTrack(trackId));
      var sorted := Sort(Oldest, own);
      assert forall c :: c in sorted <==> c in own by {
        forall c ensures c in sorted <==> c in own {
          assert c in sorted <==> c in multiset(sorted);
          assert c in own <==> c in multiset(own);
        }
      }
      assert forall i, j :: 0 <= i < j < |sorted| ==> !Ahead(Oldest(sorted[j]), Oldest(sorted[i]));
      Success(sorted)
  }

  /** A comment made no earlier than every stored comment is listed last: the list is
      the one before, with the new comment appended. */
  lemma NewCommentListedLast(comments: seq<Comment>, c: Comment)
    requires forall d :: d in comments ==> d.createdAt <= c.createdAt
    ensures GetComments(comments + [c], c.trackId, false).data == GetComments(comments, c.trackId, false).data + [c]
  {
    FilterAppend(comments, c, OnTrack(c.trackId));
    SortAppendLast(Oldest, Filter(comments, OnTrack(c.trackId)), c);
  }

  /** What deleteComment and updateComment answer before touching the row: NotFound for
      an unknown id, Forbidden for anyone but the author, nothing for the author. */
  function Guard(comments: seq<Comment>, commentId: nat, userId: nat): (g: Option<Status>)
    ensures g == Some(NotFound) <==> CommentById(comments, commentId).None?
    ensures g == Some(Forbidden) <==>
      CommentById(comments, commentId).Some? && CommentById(comments, commentId).value.userId != userId
    ensures g.None? <==>
      CommentById(comments, commentId).Some? && CommentById(comments, commentId).value.userId == userId
  {
    match CommentById(comments, commentId)
    case None => Some(NotFound)
    case Some(c) => if c.userId != userId then Some(Forbidden) else None
  }

  /** With unique comment ids, the guard lets a call through exactly when the caller
      wrote a comment with that id. */
  lemma GuardAdmitsOnlyTheAuthor(comments: seq<Comment>, commentId: nat, userId: nat)
    requires CommentIdsUnique(comments)
    ensures Guard(comments, commentId, userId).None? <==>
      exists c :: c in comments && c.id == commentId && c.userId == userId
  {
    var found := CommentById(comments, commentId);
    if c :| c in comments && c.id == commentId && c.userId == userId {
      var p :| 0 <= p < |comments| && comments[p] == c;
      var q :| 0 <= q < |comments| && comments[q] == found.value;
      assert p == q;
    }
  }

  /** The comment table and the id the store assigns to the next row. */
  class CommentTable {
    var comments: seq<Comment>
    var nextId: nat

    ghost predicate Valid()
      reads this
    {
      CommentIdsUnique(comments) && forall c :: c in comments ==> c.id < nextId
    }

    constructor(comments0: seq<Comment>, nextId0: nat)
      requires CommentIdsUnique(comments0) && forall c :: c in comments0 ==> c.id < nextId0
      ensures Valid() && comments == comments0 && nextId == nextId0
    {
      comments := comments0;
      nextId := nextId0;
    }

    /** addComment(userId, trackId, text): a new row with a fresh id, stamped `now`. */
    method AddComment(userId: nat, trackId: nat, text: string, now: int, storageFails: bool)
      returns (r: Response<Comment>)
      requires Valid()
      modifies this
      ensures Valid()
      ensures storageFails ==> r == Failure(InternalServerError) && comments == old(comments) && nextId == old(nextId)
      ensures !storageFails ==> r.Success?
      ensures r.Success? ==> r.data == Comment(old(nextId), userId, trackId, text, now)
      ensures r.Success? ==> comments == old(comments) + [r.data] && nextId == old(nextId) + 1
      ensures r.Success? ==> forall c :: c in old(comments) ==> c.id != r.data.id
    {
      if storageFails {
        return Failure(InternalServerError);
      }
      var c := Comment(nextId, userId, trackId, text, now);
      comments := comments + [c];
      nextId := nextId + 1;
      assert CommentIdsUnique(comments) by {
        forall i, j | 0 <= i < j < |comments| ensures comments[i].id != comments[j].id {
          if j == |comments| - 1 {
            assert comments[i] in old(comments);
          } else {
            assert comments[i] == old(comments)[i] && comments[j] == old(comments)[j];
          }
        }
      }
      r := Success(c);
    }

    /** deleteComment(commentId, userId): NotFound, then Forbidden for a non-author,
        then the author's comment is removed and nothing else. */
    method DeleteComment(commentId: nat, userId: nat, storageFails: bool) returns (r: Response<()>)
      requires Valid()
      modifies this
      ensures Valid() && nextId == old(nextId)
      ensures storageFails ==> r == Failure(InternalServerError)
      ensures !storageFails && Guard(old(comments), commentId, userId).Some? ==>
        r == Failure(Guard(old(comments), commentId, userId).value)
      ensures !storageFails && Guard(old(comments), commentId, userId).None? ==> r.Success?
      ensures r.Failure? ==> comments == old(comments)
      ensures r.Success? ==> comments == Filter(old(comments), NotComment(commentId))
      ensures forall c :: c in comments <==> c in old(comments) && (r.Failure? || c.id != commentId)
    {
      if storageFails {
        return Failure(InternalServerError);
      }
      var guard := Guard(comments, commentId, userId);
      if guard.Some? {
        return Failure(guard.value);
      }
      var before := comments;
      comments := Filter(before, NotComment(commentId));
      assert CommentIdsUnique(comments) by {
        forall i, j | 0 <= i < j < |comments| ensures comments[i].id != comments[j].id {
          CommentIdsUniqueOfSub(before, comments, i, j);
        }
      }
      r := Success(());
    }

    /** updateComment(commentId, userId, text): NotFound, then Forbidden for a non-author,
        then only that comment's text changes, and the updated comment is returned. */
    method UpdateComment(commentId: nat, userId: nat, text: string, storageFails: bool)
      returns (r: Response<Comment>)
      requires Valid()
      modifies this
      ensures Valid() && nextId == old(nextId)
      ensures storageFails ==> r == Failure(InternalServerError)
      ensures !storageFails && Guard(old(comments), commentId, userId).Some? ==>
        r == Failure(Guard(old(comments), commentId, userId).value)
      ensures !storageFails && Guard(old(comments), commentId, userId).None? ==>
        r == Success(CommentById(old(comments), commentId).value.(text := text))
      ensures |comments| == |old(comments)|
      ensures forall k :: 0 <= k < |comments| ==>
        comments[k] == if r.Success? && old(comments)[k].id == commentId then old(comments)[k].(text := text)
                       else old(comments)[k]
    {
      if storageFails {
        return Failure(InternalServerError);
      }
      var guard := Guard(comments, commentId, userId);
      if guard.Some? {
        return Failure(guard.value);
      }
      var found := CommentById(comments, commentId);
      var before := comments;
      comments := seq(|before|, k requires 0 <= k < |before| =>
        if before[k].id == commentId then before[k].(text := text) else before[k]);
      assert Valid() by {
        forall i, j | 0 <= i < j < |comments| ensures comments[i].id != comments[j].id {
          assert comments[i].id == before[i].id && comments[j].id == before[j].id;
        }
        forall c | c in comments ensures c.id < nextId {
          var k :| 0 <= k < |comments| && comments[k] == c;
          assert before[k] in before;
        }
      }
      r := Success(found.value.(text := text));
    }
  }

  /** Two rows of a sub-multiset of a table with unique ids are distinct rows of the table. */
  lemma CommentIdsUniqueOfSub(s: seq<Comment>, r: seq<Comment>, i: nat, j: nat)
    requires CommentIdsUnique(s) && multiset(r) <= multiset(s) && i < j < |r|
    ensures r[i].id != r[j].id
  {
    assert NoDuplicates(s);
    NoDuplicatesOfSub(s, r);
    assert r[i] in multiset(s) && r[j] in multiset(s);
    var p :| 0 <= p < |s| && s[p] == r[i];
    var q :| 0 <= q < |s| && s[q] == r[j];
    assert p != q;
  }
}
