/** A table of rows keyed by the whole row, as the like table (unique on
    (userId, trackId)) and the subscription table are used: `create` after a
    failed lookup appends a row that is not there yet, and `deleteMany` on the
    whole key removes every copy of it. */
module Table {
  import opened Common

  function NotRow<T(==)>(x: T): T -> bool {
    (y: T) => y != x
  }

  /** `findFirst`/`findUnique` on the row, then `create` when it is missing. */
  function Inserted<T(==,!new)>(s: seq<T>, x: T): (r: seq<T>)
    ensures x in r
    ensures forall y :: y in r <==> y in s || y == x
    ensures forall y :: y != x ==> multiset(r)[y] == multiset(s)[y]
    ensures multiset(r)[x] == if x in s then multiset(s)[x] else 1
    ensures NoDuplicates(s) ==> NoDuplicates(r)
    ensures |r| <= |s| + 1
  {
    if x in s then s
    else
      assert NoDuplicates(s) ==> NoDuplicates(s + [x]) by {
        if NoDuplicates(s) {
          forall i, j | 0 <= i < j < |s + [x]| ensures (s + [x])[i] != (s + [x])[j] {
            if j == |s| {
              assert (s + [x])[i] == s[i];
            }
          }
        }
      }
      s + [x]
  }

  /** `deleteMany` on the row: every copy goes, every other row stays in its place. */
  function Deleted<T(==,!new)>(s: seq<T>, x: T): (r: seq<T>)
    ensures x !in r
    ensures forall y :: y in r <==> y in s && y != x
    ensures forall y :: y != x ==> multiset(r)[y] == multiset(s)[y]
    ensures NoDuplicates(s) ==> NoDuplicates(r)
    ensures |r| <= |s|
  {
    var r := Filter(s, NotRow(x));
    assert NoDuplicates(s) ==> NoDuplicates(r) by {
      if NoDuplicates(s) {
        assert multiset(r) <= multiset(s);
        NoDuplicatesOfSub(s, r);
      }
    }
    r
  }

  /** Inserting a row twice is inserting it once. */
  lemma InsertIdempotent<T(!new)>(s: seq<T>, x: T)
    ensures Inserted(Inserted(s, x), x) == Inserted(s, x)
  {
  }

  /** Deleting a row twice is deleting it once. */
  lemma DeleteIdempotent<T(!new)>(s: seq<T>, x: T)
    ensures Deleted(Deleted(s, x), x) == Deleted(s, x)
  {
    FilterKeepsAll(Deleted(s, x), NotRow(x));
  }

  /** Deleting a row that is not there changes nothing. */
  lemma DeleteAbsent<T(!new)>(s: seq<T>, x: T)
    requires x !in s
    ensures Deleted(s, x) == s
  {
    FilterKeepsAll(s, NotRow(x));
  }

  /** Inserting a fresh row and then deleting it gives back the table as it was. */
  lemma DeleteUndoesInsert<T(!new)>(s: seq<T>, x: T)
    requires x !in s
    ensures Deleted(Inserted(s, x), x) == s
  {
    FilterAppend(s, x, NotRow(x));
    DeleteAbsent(s, x);
  }

  /** Deleting a row and inserting it again leaves exactly one copy of it, at the end. */
  lemma InsertAfterDelete<T(!new)>(s: seq<T>, x: T)
    ensures Inserted(Deleted(s, x), x) == Deleted(s, x) + [x]
  {
  }
}
