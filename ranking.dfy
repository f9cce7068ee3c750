/** The ranking policy: listings are ordered descending by a two-part rank
    (a primary count or timestamp, then a tie-breaker), by a stable sort as
    JavaScript's Array.prototype.sort is. The sort is an insertion sort over
    values; what it promises is that its result is a descending permutation of
    its input, and that when ranks are distinct that permutation is the only one. */
module Ranking {
  import opened Common

  /** Ranks compare lexicographically: primary first, then secondary. */
  datatype Rank = Rank(primary: int, secondary: int)

  /** `a` strictly outranks `b`: the comparator returns a negative number for (a, b). */
  predicate Ahead(a: Rank, b: Rank) {
    a.primary > b.primary || (a.primary == b.primary && a.secondary > b.secondary)
  }

  /** No element is strictly outranked by a later one. */
  predicate Descending<T>(key: T -> Rank, s: seq<T>) {
    forall i, j :: 0 <= i < j < |s| ==> !Ahead(key(s[j]), key(s[i]))
  }

  /** Every element of `s` has a different rank, and none occurs twice. */
  ghost predicate RanksDistinct<T>(key: T -> Rank, s: seq<T>) {
    forall i, j :: 0 <= i < j < |s| ==> key(s[i]) != key(s[j])
  }

  /** Insert `x` before the first element it strictly outranks; ties stay ahead of `x`. */
  function Insert<T>(key: T -> Rank, x: T, s: seq<T>): (r: seq<T>)
    ensures |r| == |s| + 1
  {
    if s == [] then [x]
    else if Ahead(key(x), key(s[0])) then [x] + s
    else [s[0]] + Insert(key, x, s[1..])
  }

  /** Inserting adds exactly one occurrence of `x` and removes nothing. */
  lemma {:induction false} InsertPermutes<T>(key: T -> Rank, x: T, s: seq<T>)
    ensures multiset(Insert(key, x, s)) == multiset(s) + multiset{x}
  {
    if s != [] {
      assert s == [s[0]] + s[1..];
      if !Ahead(key(x), key(s[0])) {
        InsertPermutes(key, x, s[1..]);
      }
    }
  }

  /** Inserting into a descending sequence keeps it descending. */
  lemma {:induction false} InsertKeepsDescending<T>(key: T -> Rank, x: T, s: seq<T>)
    requires Descending(key, s)
    ensures Descending(key, Insert(key, x, s))
  {
    if s != [] && !Ahead(key(x), key(s[0])) {
      var tail := s[1..];
      var rest := Insert(key, x, tail);
      assert Descending(key, rest) by {
        assert Descending(key, tail) by {
          forall i, j | 0 <= i < j < |tail| ensures !Ahead(key(tail[j]), key(tail[i])) {
            assert tail[i] == s[i + 1] && tail[j] == s[j + 1];
          }
        }
        InsertKeepsDescending(key, x, tail);
      }
      assert forall j :: 0 <= j < |rest| ==> !Ahead(key(rest[j]), key(s[0])) by {
        forall y | y in tail ensures !Ahead(key(y), key(s[0])) {
          var j :| 0 <= j < |tail| && tail[j] == y;
          assert s[j + 1] == y;
        }
        InsertPermutes(key, x, tail);
        BehindHead(key, s[0], x, tail, rest);
      }
      var r := [s[0]] + rest;
      forall i, j | 0 <= i < j < |r| ensures !Ahead(key(r[j]), key(r[i])) {
        assert r[j] == rest[j - 1];
        if i > 0 {
          assert r[i] == rest[i - 1];
        }
      }
    } else if s != [] {
      var r := [x] + s;
      forall i, j | 0 <= i < j < |r| ensures !Ahead(key(r[j]), key(r[i])) {
        assert r[j] == s[j - 1];
        if i > 0 {
          assert r[i] == s[i - 1];
        } else {
          assert !Ahead(key(s[j - 1]), key(s[0]));
        }
      }
    }
  }

  /** A head that neither `x` nor any element of `t` outranks is not outranked by any
      arrangement of `t` with `x` added. */
  lemma BehindHead<T>(key: T -> Rank, head: T, x: T, t: seq<T>, rest: seq<T>)
    requires multiset(rest) == multiset(t) + multiset{x}
    requires !Ahead(key(x), key(head))
    requires forall y :: y in t ==> !Ahead(key(y), key(head))
    ensures forall j :: 0 <= j < |rest| ==> !Ahead(key(rest[j]), key(head))
  {
    forall j | 0 <= j < |rest| ensures !Ahead(key(rest[j]), key(head)) {
      assert rest[j] in multiset(rest);
      if rest[j] != x {
        assert rest[j] in multiset(t);
      }
    }
  }

  /** Stable sort, descending by `key`: elements are inserted in input order. */
  function Sort<T>(key: T -> Rank, s: seq<T>): (r: seq<T>)
    ensures |r| == |s|
    ensures multiset(r) == multiset(s)
    ensures Descending(key, r)
  {
    if s == [] then []
    else
      var init, last := s[..|s| - 1], s[|s| - 1];
      assert s == init + [last];
      InsertPermutes(key, last, Sort(key, init));
      InsertKeepsDescending(key, last, Sort(key, init));
      Insert(key, last, Sort(key, init))
  }

  /** An element that no element of `s` is outranked by goes to the end. */
  lemma {:induction false} InsertLast<T>(key: T -> Rank, x: T, s: seq<T>)
    requires forall y :: y in s ==> !Ahead(key(x), key(y))
    ensures Insert(key, x, s) == s + [x]
  {
    if s != [] {
      var rest := s[1..];
      assert Insert(key, x, rest) == rest + [x] by {
        assert forall y :: y in rest ==> y in s;
        InsertLast(key, x, rest);
      }
      assert Insert(key, x, s) == [s[0]] + Insert(key, x, rest) by {
        assert !Ahead(key(x), key(s[0]));
      }
      assert s + [x] == [s[0]] + (rest + [x]);
    }
  }

  /** Sorting an already descending sequence keeps it as it is (stability). */
  lemma {:induction false} SortKeepsDescending<T>(key: T -> Rank, s: seq<T>)
    requires Descending(key, s)
    ensures Sort(key, s) == s
  {
    if s != [] {
      var init, last := s[..|s| - 1], s[|s| - 1];
      assert Sort(key, init) == init by {
        assert Descending(key, init) by {
          forall i, j | 0 <= i < j < |init| ensures !Ahead(key(init[j]), key(init[i])) {
            assert init[i] == s[i] && init[j] == s[j];
          }
        }
        SortKeepsDescending(key, init);
      }
      assert Insert(key, last, init) == s by {
        forall y | y in init ensures !Ahead(key(last), key(y)) {
          var i :| 0 <= i < |init| && init[i] == y;
          assert s[i] == y;
        }
        InsertLast(key, last, init);
        assert init + [last] == s;
      }
    }
  }

  /** An element that outranks nothing before it is sorted to the end, after the rest in
      their sorted order: the stable sort is incremental. */
  lemma SortAppendLast<T>(key: T -> Rank, s: seq<T>, x: T)
    requires forall y :: y in s ==> !Ahead(key(x), key(y))
    ensures Sort(key, s + [x]) == Sort(key, s) + [x]
  {
    var t := s + [x];
    assert t[..|t| - 1] == s && t[|t| - 1] == x;
    var sorted := Sort(key, s);
    forall y | y in sorted ensures !Ahead(key(x), key(y)) {
      assert y in multiset(sorted);
      assert y in multiset(s);
    }
    InsertLast(key, x, sorted);
  }

  /** The elements whose rank is exactly `k`. */
  function HasRank<T>(key: T -> Rank, k: Rank): T -> bool {
    (x: T) => key(x) == k
  }

  /** No element of a descending sequence has a rank above its head's. */
  lemma NoneAboveHead<T(!new)>(key: T -> Rank, s: seq<T>, k: Rank)
    requires s != [] && Descending(key, s) && Ahead(k, key(s[0]))
    ensures Filter(s, HasRank(key, k)) == []
  {
    forall y | y in s ensures key(y) != k {
      var j :| 0 <= j < |s| && s[j] == y;
      if j > 0 {
        assert !Ahead(key(s[j]), key(s[0]));
      }
    }
  }

  /** Inserting into a descending sequence puts `x` after every element of its rank. */
  lemma {:induction false} FilterInsert<T(!new)>(key: T -> Rank, x: T, s: seq<T>, k: Rank)
    requires Descending(key, s)
    ensures Filter(Insert(key, x, s), HasRank(key, k))
         == Filter(s, HasRank(key, k)) + (if key(x) == k then [x] else [])
  {
    var p := HasRank(key, k);
    var tail := if key(x) == k then [x] else [];
    if s == [] {
      FilterPrepend(x, [], p);
    } else if Ahead(key(x), key(s[0])) {
      FilterPrepend(x, s, p);
      if key(x) == k {
        NoneAboveHead(key, s, k);
      }
    } else {
      var rest := s[1..];
      var head := if p(s[0]) then [s[0]] else [];
      assert Filter(Insert(key, x, s), p) == head + Filter(Insert(key, x, rest), p) by {
        FilterPrepend(s[0], Insert(key, x, rest), p);
      }
      assert Filter(Insert(key, x, rest), p) == Filter(rest, p) + tail by {
        assert Descending(key, rest) by {
          forall i, j | 0 <= i < j < |rest| ensures !Ahead(key(rest[j]), key(rest[i])) {
            assert rest[i] == s[i + 1] && rest[j] == s[j + 1];
          }
        }
        FilterInsert(key, x, rest, k);
      }
      assert Filter(s, p) == head + Filter(rest, p) by {
        FilterCons(s, p);
      }
      ConcatAssoc(head, Filter(rest, p), tail);
    }
  }

  /** The sort is stable: the elements of any one rank come out in their input order. */
  lemma {:induction false} SortIsStable<T(!new)>(key: T -> Rank, s: seq<T>, k: Rank)
    ensures Filter(Sort(key, s), HasRank(key, k)) == Filter(s, HasRank(key, k))
  {
    if s != [] {
      var init, last := s[..|s| - 1], s[|s| - 1];
      assert s == init + [last];
      calc {
        Filter(Sort(key, s), HasRank(key, k));
      == { FilterInsert(key, last, Sort(key, init), k); }
        Filter(Sort(key, init), HasRank(key, k)) + (if key(last) == k then [last] else []);
      == { SortIsStable(key, init, k); }
        Filter(init, HasRank(key, k)) + (if key(last) == k then [last] else []);
      == { FilterAppend(init, last, HasRank(key, k)); }
        Filter(s, HasRank(key, k));
      }
    }
  }

  /** Removing the head of a sequence removes one occurrence of it from its multiset. */
  lemma MultisetTail<T>(s: seq<T>)
    requires s != []
    ensures multiset(s[1..]) == multiset(s) - multiset{s[0]}
  {
    assert s == [s[0]] + s[1..];
  }

  /** The heads of two descending arrangements of the same elements agree when ranks are distinct. */
  lemma HeadsAgree<T>(key: T -> Rank, a: seq<T>, b: seq<T>)
    requires a != [] && b != []
    requires multiset(a) == multiset(b)
    requires Descending(key, a) && Descending(key, b)
    requires RanksDistinct(key, a)
    ensures a[0] == b[0]
  {
    assert a[0] in multiset(b);
    var j :| 0 <= j < |b| && b[j] == a[0];
    assert b[0] in multiset(a);
    var i :| 0 <= i < |a| && a[i] == b[0];
    assert !Ahead(key(b[j]), key(b[0]));
    assert !Ahead(key(a[i]), key(a[0]));
    assert key(a[i]) == key(a[0]);
  }

  /** Two descending arrangements of the same elements agree when ranks are distinct:
      the descending order is then fully determined by the elements. */
  lemma {:induction false} DescendingIsUnique<T>(key: T -> Rank, a: seq<T>, b: seq<T>)
    requires multiset(a) == multiset(b)
    requires Descending(key, a) && Descending(key, b)
    requires RanksDistinct(key, a)
    ensures a == b
  {
    assert |a| == |multiset(a)| == |multiset(b)| == |b|;
    if a != [] {
      assert a[0] == b[0] by {
        HeadsAgree(key, a, b);
      }
      assert a[1..] == b[1..] by {
        var ta, tb := a[1..], b[1..];
        assert multiset(ta) == multiset(tb) by {
          MultisetTail(a);
          MultisetTail(b);
        }
        assert Descending(key, ta) && Descending(key, tb) && RanksDistinct(key, ta) by {
          forall i, j | 0 <= i < j < |ta| ensures ta[i] == a[i + 1] && ta[j] == a[j + 1] && tb[i] == b[i + 1] && tb[j] == b[j + 1] {
          }
        }
        DescendingIsUnique(key, ta, tb);
      }
      assert a == [a[0]] + a[1..] && b == [b[0]] + b[1..];
    }
  }
}
