/** Generic sequence operations used to describe what the database queries
    return: filtering, offset/limit windows, ordering and lookup. */
module Sequences {
  import opened Common

  /** The elements of `s` that satisfy `p`, in their original order. */
  function Filter<T(!new)>(s: seq<T>, p: T -> bool): (r: seq<T>)
    ensures |r| <= |s|
    ensures forall x :: x in r <==> x in s && p(x)
    ensures forall i :: 0 <= i < |r| ==> p(r[i])
  {
    if s == [] then []
    else if p(s[0]) then [s[0]] + Filter(s[1..], p)
    else Filter(s[1..], p)
  }

  /** Filtering an extended sequence filters its last element on its own. */
  lemma {:induction false} FilterSnoc<T(!new)>(s: seq<T>, x: T, p: T -> bool)
    ensures Filter(s + [x], p) == Filter(s, p) + (if p(x) then [x] else [])
  {
    if s == [] {
      assert s + [x] == [x];
    } else {
      assert (s + [x])[1..] == s[1..] + [x];
      FilterSnoc(s[1..], x, p);
    }
  }

  /** A filter that every element passes keeps the whole sequence. */
  lemma {:induction false} FilterKeepsAll<T(!new)>(s: seq<T>, p: T -> bool)
    requires forall i :: 0 <= i < |s| ==> p(s[i])
    ensures Filter(s, p) == s
  {
    if s != [] {
      assert forall i :: 1 <= i < |s| ==> s[1..][i - 1] == s[i];
      FilterKeepsAll(s[1..], p);
    }
  }

  /** `r` can be obtained from `s` by deleting elements, keeping the order. */
  predicate IsSubsequence<T(==)>(r: seq<T>, s: seq<T>)
  {
    if r == [] then true
    else if s == [] then false
    else if r[0] == s[0] then IsSubsequence(r[1..], s[1..])
    else IsSubsequence(r, s[1..])
  }

  /** Filtering keeps the order of the elements it retains. */
  lemma {:induction false} FilterIsSubsequence<T(!new)>(s: seq<T>, p: T -> bool)
    ensures IsSubsequence(Filter(s, p), s)
  {
    if s != [] {
      FilterIsSubsequence(s[1..], p);
      if !p(s[0]) {
        SubsequenceOfTail(Filter(s[1..], p), s);
      }
    }
  }

  /** A subsequence of the tail is a subsequence of the whole. */
  lemma {:induction false} SubsequenceOfTail<T>(r: seq<T>, s: seq<T>)
    requires s != [] && IsSubsequence(r, s[1..])
    ensures IsSubsequence(r, s)
  {
    if r != [] && r[0] == s[0] {
      if s[1..] != [] {
        if r[0] == s[1..][0] {
          assert IsSubsequence(r[1..], s[1..][1..]);
          SubsequenceOfTail(r[1..], s[1..]);
        } else {
          assert IsSubsequence(r, s[1..][1..]);
          SubsequenceOfTail(r, s[1..]);
          DropFirst(r, s[1..]);
        }
      }
    }
  }

  /** Dropping the first element of a subsequence leaves a subsequence. */
  lemma {:induction false} DropFirst<T>(r: seq<T>, s: seq<T>)
    requires r != [] && IsSubsequence(r, s)
    ensures IsSubsequence(r[1..], s)
  {
    if s != [] {
      if r[0] == s[0] {
        SubsequenceOfTail(r[1..], s);
      } else {
        DropFirst(r, s[1..]);
        SubsequenceOfTail(r[1..], s);
      }
    }
  }

  /** `s` is ordered by `key`, smallest key first. */
  predicate SortedBy<T>(s: seq<T>, key: T -> int)
  {
    forall i, j :: 0 <= i < j < |s| ==> key(s[i]) <= key(s[j])
  }

  /** The tail of a sorted sequence is sorted. */
  lemma TailSorted<T>(s: seq<T>, key: T -> int)
    requires s != [] && SortedBy(s, key)
    ensures SortedBy(s[1..], key)
    ensures forall y :: y in s[1..] ==> key(s[0]) <= key(y)
  {
    forall i, j | 0 <= i < j < |s[1..]| ensures key(s[1..][i]) <= key(s[1..][j]) {
      assert s[1..][i] == s[i + 1] && s[1..][j] == s[j + 1];
    }
    forall y | y in s[1..] ensures key(s[0]) <= key(y) {
      var k :| 0 <= k < |s[1..]| && s[1..][k] == y;
      assert s[k + 1] == y;
    }
  }

  /** Putting an element no larger than every element in front of a sorted
      sequence keeps it sorted. */
  lemma ConsSorted<T>(x: T, t: seq<T>, key: T -> int)
    requires SortedBy(t, key)
    requires forall y :: y in t ==> key(x) <= key(y)
    ensures SortedBy([x] + t, key)
  {
    forall i, j | 0 <= i < j < |[x] + t| ensures key(([x] + t)[i]) <= key(([x] + t)[j]) {
      assert ([x] + t)[j] == t[j - 1];
      assert t[j - 1] in t;
      if i > 0 {
        assert ([x] + t)[i] == t[i - 1];
      }
    }
  }

  /** Filtering a sorted sequence leaves it sorted. */
  lemma {:induction false} FilterPreservesSorted<T(!new)>(s: seq<T>, p: T -> bool, key: T -> int)
    requires SortedBy(s, key)
    ensures SortedBy(Filter(s, p), key)
  {
    if s != [] {
      TailSorted(s, key);
      FilterPreservesSorted(s[1..], p, key);
      if p(s[0]) {
        ConsSorted(s[0], Filter(s[1..], p), key);
      }
    }
  }

  /** Inserts `x` into a sorted sequence before the first element whose key
      is not smaller than `x`'s. */
  function InsertBy<T(!new)>(x: T, s: seq<T>, key: T -> int): (r: seq<T>)
    requires SortedBy(s, key)
    ensures SortedBy(r, key)
    ensures multiset(r) == multiset(s) + multiset{x}
    ensures forall y :: y in r <==> y == x || y in s
  {
    if s == [] || key(x) <= key(s[0]) then
      assert forall y :: y in s ==> key(x) <= key(y) by {
        if s != [] { TailSorted(s, key); }
      }
      ConsSorted(x, s, key);
      [x] + s
    else
      TailSorted(s, key);
      var t := InsertBy(x, s[1..], key);
      assert s == [s[0]] + s[1..];
      ConsSorted(s[0], t, key);
      [s[0]] + t
  }

  /** The elements of `s` ordered by ascending `key` (an insertion sort).
      Elements with equal keys may come out in any order. */
  function SortBy<T(!new)>(s: seq<T>, key: T -> int): (r: seq<T>)
    ensures SortedBy(r, key)
    ensures multiset(r) == multiset(s)
    ensures |r| == |s|
    ensures forall y :: y in r <==> y in s
  {
    if s == [] then []
    else
      assert s == [s[0]] + s[1..];
      var t := SortBy(s[1..], key);
      var r := InsertBy(s[0], t, key);
      assert |r| == |multiset(r)| == |multiset(t)| + 1;
      r
  }

  /** The first index of `s` whose element satisfies `p`. */
  function FirstIndex<T>(s: seq<T>, p: T -> bool): (r: Option<nat>)
    ensures r.Some? ==> r.value < |s| && p(s[r.value])
    ensures r.Some? ==> forall j :: 0 <= j < r.value ==> !p(s[j])
    ensures r.None? <==> forall x :: x in s ==> !p(x)
  {
    if s == [] then None
    else if p(s[0]) then Some(0)
    else match FirstIndex(s[1..], p)
      case None => None
      case Some(i) => Some(i + 1)
  }

  /** No two elements of `s` have the same key. */
  predicate UniqueBy<T>(s: seq<T>, key: T -> int)
  {
    forall i, j :: 0 <= i < |s| && 0 <= j < |s| && i != j ==> key(s[i]) != key(s[j])
  }

  /** Elements at positions `offset` up to `offset + limit` (exclusive), cut at
      the end of `s`: the rows a query with OFFSET and LIMIT returns. */
  function Window<T>(s: seq<T>, offset: int, limit: int): (r: seq<T>)
    requires 0 <= offset && 0 <= limit
    ensures |r| <= limit
    ensures |s| <= offset ==> r == []
    ensures offset <= |s| ==> |r| == (if offset + limit <= |s| then limit else |s| - offset)
    ensures forall i :: 0 <= i < |r| ==> offset + i < |s| && r[i] == s[offset + i]
  {
    if |s| <= offset then []
    else if offset + limit <= |s| then s[offset..offset + limit]
    else s[offset..]
  }

  /** Every element of a window is an element of the windowed sequence. */
  lemma WindowElements<T>(s: seq<T>, offset: int, limit: int)
    requires 0 <= offset && 0 <= limit
    ensures forall x :: x in Window(s, offset, limit) ==> x in s
  {
    forall x | x in Window(s, offset, limit) ensures x in s {
      var r := Window(s, offset, limit);
      var i :| 0 <= i < |r| && r[i] == x;
      assert s[offset + i] == x;
    }
  }

  /** A window of a sorted sequence is sorted. */
  lemma WindowPreservesSorted<T>(s: seq<T>, offset: int, limit: int, key: T -> int)
    requires 0 <= offset && 0 <= limit
    requires SortedBy(s, key)
    ensures SortedBy(Window(s, offset, limit), key)
  {
    var r := Window(s, offset, limit);
    forall i, j | 0 <= i < j < |r| ensures key(r[i]) <= key(r[j]) {
      assert r[i] == s[offset + i] && r[j] == s[offset + j];
    }
  }

  /** The head of a non-empty sorted sequence has the least key. */
  lemma HeadIsLeast<T>(s: seq<T>, key: T -> int)
    requires SortedBy(s, key) && s != []
    ensures forall x :: x in s ==> key(s[0]) <= key(x)
  {
    forall x | x in s ensures key(s[0]) <= key(x) {
      var i :| 0 <= i < |s| && s[i] == x;
      if i > 0 {
        assert key(s[0]) <= key(s[i]);
      }
    }
  }
}
