/** Shared vocabulary of the services: optional values, the service response
    envelope, JavaScript truthiness of optional arguments, the case-insensitive
    text match the store performs, and the sequence operations every listing
    is built from (filtering in storage order, skip/take paging). */
module Common {

  datatype Option<+T> = None | Some(value: T)

  /** The status code a failed ServiceResponse carries (its data is always null). */
  datatype Status = BadRequest | Forbidden | NotFound | InternalServerError

  /** ServiceResponse: either a success with data or a failure with a status. */
  datatype Response<+T> = Success(data: T) | Failure(status: Status)

  /** `if (id)` on an optional numeric id: undefined and 0 are both falsy. */
  predicate IdGiven(id: Option<nat>) {
    id.Some? && id.value != 0
  }

  /** `if (s)` on an optional string: undefined and "" are both falsy. */
  predicate TextGiven(s: Option<string>) {
    s.Some? && s.value != ""
  }

  function Min(a: int, b: int): int {
    if a <= b then a else b
  }

  // ---------------------------------------------------------------------------
  // Case-insensitive substring match (ASCII case folding)
  // ---------------------------------------------------------------------------

  function LowerChar(c: char): char {
    if 'A' <= c <= 'Z' then (c as int + 32) as char else c
  }

  function Lower(s: string): (r: string)
    ensures |r| == |s|
  {
    if s == [] then [] else [LowerChar(s[0])] + Lower(s[1..])
  }

  /** `needle` occurs as a contiguous part of `hay`. */
  predicate IsSubstring(needle: string, hay: string)
    decreases |hay|
  {
    needle <= hay || (hay != [] && IsSubstring(needle, hay[1..]))
  }

  /** `{ contains: needle, mode: "insensitive" }` applied to `hay`. */
  predicate ContainsInsensitive(hay: string, needle: string) {
    IsSubstring(Lower(needle), Lower(hay))
  }

  // ---------------------------------------------------------------------------
  // Filtering in storage order
  // ---------------------------------------------------------------------------

  /** The rows of `s` that satisfy `p`, in the order `s` holds them. */
  function Filter<T(==,!new)>(s: seq<T>, p: T -> bool): (r: seq<T>)
    ensures |r| <= |s|
    ensures forall x :: multiset(r)[x] == if p(x) then multiset(s)[x] else 0
    ensures forall x :: x in r <==> x in s && p(x)
  {
    if s == [] then []
    else
      var rest := Filter(s[1..], p);
      assert s == [s[0]] + s[1..];
      if p(s[0]) then [s[0]] + rest else rest
  }

  /** Filtering with a predicate every row satisfies changes nothing. */
  lemma {:induction false} FilterKeepsAll<T(!new)>(s: seq<T>, p: T -> bool)
    requires forall x :: x in s ==> p(x)
    ensures Filter(s, p) == s
  {
    if s != [] {
      FilterKeepsAll(s[1..], p);
    }
  }

  /** Filtering a sequence with one more row at the end filters that row last. */
  lemma {:induction false} FilterAppend<T(!new)>(s: seq<T>, y: T, p: T -> bool)
    ensures Filter(s + [y], p) == Filter(s, p) + (if p(y) then [y] else [])
  {
    if s == [] {
      assert s + [y] == [y] && [y][1..] == [];
    } else {
      var t := s + [y];
      var head, tail := if p(s[0]) then [s[0]] else [], if p(y) then [y] else [];
      assert t[0] == s[0] && t[1..] == s[1..] + [y];
      calc {
        Filter(t, p);
      == { FilterCons(t, p); }
        head + Filter(s[1..] + [y], p);
      == { FilterAppend(s[1..], y, p); }
        head + (Filter(s[1..], p) + tail);
      == { ConcatAssoc(head, Filter(s[1..], p), tail); }
        (head + Filter(s[1..], p)) + tail;
      == { FilterCons(s, p); }
        Filter(s, p) + tail;
      }
    }
  }

  lemma FilterCons<T(!new)>(s: seq<T>, p: T -> bool)
    requires s != []
    ensures Filter(s, p) == (if p(s[0]) then [s[0]] else []) + Filter(s[1..], p)
  {
  }

  lemma FilterPrepend<T(!new)>(a: T, t: seq<T>, p: T -> bool)
    ensures Filter([a] + t, p) == (if p(a) then [a] else []) + Filter(t, p)
  {
    assert ([a] + t)[0] == a && ([a] + t)[1..] == t;
    FilterCons([a] + t, p);
  }

  lemma ConcatAssoc<T>(a: seq<T>, b: seq<T>, c: seq<T>)
    ensures a + (b + c) == (a + b) + c
  {
  }

  // ---------------------------------------------------------------------------
  // Paging: Prisma's `skip`/`take` and JavaScript's `slice(offset, offset + limit)`
  // ---------------------------------------------------------------------------

  /** Drop the first `offset` elements and keep at most `limit` of the rest. */
  function Page<T>(s: seq<T>, offset: nat, limit: nat): (r: seq<T>)
    ensures |r| == if offset >= |s| then 0 else Min(limit, |s| - offset)
    ensures forall k :: 0 <= k < |r| ==> r[k] == s[offset + k]
  {
    if offset >= |s| then [] else s[offset..Min(offset + limit, |s|)]
  }

  /** A page holds nothing that the paged sequence does not hold. */
  lemma PageIsSubMultiset<T>(s: seq<T>, offset: nat, limit: nat)
    ensures multiset(Page(s, offset, limit)) <= multiset(s)
  {
    if offset < |s| {
      var hi := Min(offset + limit, |s|);
      assert s == s[..offset] + s[offset..hi] + s[hi..];
      assert Page(s, offset, limit) == s[offset..hi];
    }
  }

  /** Two consecutive pages are one page of the combined size. */
  lemma PagesConcatenate<T>(s: seq<T>, offset: nat, a: nat, b: nat)
    ensures Page(s, offset, a) + Page(s, offset + a, b) == Page(s, offset, a + b)
  {
    var p, q, pq := Page(s, offset, a), Page(s, offset + a, b), Page(s, offset, a + b);
    assert |p + q| == |pq|;
    forall k | 0 <= k < |pq| ensures (p + q)[k] == pq[k] {
      if k >= |p| {
        assert (p + q)[k] == q[k - |p|];
      }
    }
  }

  /** With an offset of 0 and a limit that covers everything, the page is the sequence. */
  lemma PageAll<T>(s: seq<T>, limit: nat)
    requires |s| <= limit
    ensures Page(s, 0, limit) == s
  {
  }

  // ---------------------------------------------------------------------------
  // Duplicates
  // ---------------------------------------------------------------------------

  predicate NoDuplicates<T(==)>(s: seq<T>) {
    forall i, j :: 0 <= i < j < |s| ==> s[i] != s[j]
  }

  /** A sequence has no duplicates exactly when no element occurs twice in its multiset. */
  lemma {:induction false} NoDuplicatesByCount<T>(s: seq<T>)
    ensures NoDuplicates(s) <==> forall x :: multiset(s)[x] <= 1
  {
    if s != [] {
      var t := s[1..];
      assert s == [s[0]] + t;
      NoDuplicatesByCount(t);
      if NoDuplicates(s) {
        assert NoDuplicates(t) by {
          forall i, j | 0 <= i < j < |t| ensures t[i] != t[j] {
            assert t[i] == s[i + 1] && t[j] == s[j + 1];
          }
        }
        assert s[0] !in t;
        forall x ensures multiset(s)[x] <= 1 {
          assert multiset(s)[x] == multiset(t)[x] + (if x == s[0] then 1 else 0);
        }
      }
      if forall x :: multiset(s)[x] <= 1 {
        assert multiset(s)[s[0]] == multiset(t)[s[0]] + 1;
        forall x ensures multiset(t)[x] <= 1 {
          assert multiset(s)[x] == multiset(t)[x] + (if x == s[0] then 1 else 0);
        }
        forall i, j | 0 <= i < j < |s| ensures s[i] != s[j] {
          if i == 0 {
            assert s[j] in t;
          } else {
            assert s[i] == t[i - 1] && s[j] == t[j - 1];
          }
        }
      }
    }
  }

  /** Taking a sub-multiset (a filter, a page, a permutation) keeps a sequence duplicate-free. */
  lemma NoDuplicatesOfSub<T>(s: seq<T>, r: seq<T>)
    requires NoDuplicates(s)
    requires multiset(r) <= multiset(s)
    ensures NoDuplicates(r)
  {
    NoDuplicatesByCount(s);
    forall x ensures multiset(r)[x] <= 1 {
      assert multiset(r)[x] <= multiset(s)[x];
    }
    NoDuplicatesByCount(r);
  }
}
