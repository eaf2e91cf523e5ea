/** Sequence operations behind the repositories' WHERE / ORDER BY / LIMIT
    clauses: filtering, sorting by a caller-supplied order, and taking a prefix. */
module Ordering {

  /** The set of elements of a sequence. */
  function Elems<T>(s: seq<T>): set<T> {
    set x | x in s
  }

  /** `before` is a total preorder on `xs`: any two elements are comparable, and
      the relation is transitive. Ties are allowed (ORDER BY is not stable). */
  ghost predicate TotalPreorderOn<T>(xs: set<T>, before: (T, T) -> bool) {
    && (forall a, b | a in xs && b in xs :: before(a, b) || before(b, a))
    && (forall a, b, c | a in xs && b in xs && c in xs && before(a, b) && before(b, c) :: before(a, c))
  }

  /** Every element comes `before` every later one. */
  ghost predicate SortedBy<T>(s: seq<T>, before: (T, T) -> bool) {
    forall i, j :: 0 <= i < j < |s| ==> before(s[i], s[j])
  }

  /** The elements of `s` that satisfy `p`, in their original order (a WHERE clause). */
  function Filter<T>(s: seq<T>, p: T -> bool): (r: seq<T>)
    ensures |r| <= |s|
    ensures forall i :: 0 <= i < |r| ==> p(r[i])
  {
    if s == [] then []
    else
      assert s == [s[0]] + s[1..];
      if p(s[0]) then [s[0]] + Filter(s[1..], p)
      else Filter(s[1..], p)
  }

  /** Filtering drops only elements that fail `p`: every element that
      satisfies it is kept as often as it occurs. */
  lemma {:induction false} FilterMultiset<T>(s: seq<T>, p: T -> bool)
    ensures multiset(Filter(s, p)) <= multiset(s)
    ensures forall i :: 0 <= i < |s| && p(s[i]) ==> multiset(Filter(s, p))[s[i]] == multiset(s)[s[i]]
  {
    if s != [] {
      assert s == [s[0]] + s[1..];
      FilterMultiset(s[1..], p);
      assert forall i :: 1 <= i < |s| ==> s[i] == s[1..][i - 1];
    }
  }

  /** Filtering keeps the relative order: a key that increases strictly along
      `s` increases strictly along what is kept. */
  lemma {:induction false} FilterKeepsIncreasing<T>(s: seq<T>, p: T -> bool, key: T -> int)
    requires forall i, j :: 0 <= i < j < |s| ==> key(s[i]) < key(s[j])
    ensures forall i, j :: 0 <= i < j < |Filter(s, p)| ==> key(Filter(s, p)[i]) < key(Filter(s, p)[j])
  {
    if s != [] {
      var t := Filter(s[1..], p);
      FilterKeepsIncreasing(s[1..], p, key);
      FilterMultiset(s[1..], p);
      forall x | x in t ensures key(s[0]) < key(x) {
        assert x in multiset(s[1..]);
        var k :| 0 <= k < |s[1..]| && s[1..][k] == x;
        assert s[k + 1] == x;
      }
      if p(s[0]) {
        var f := Filter(s, p);
        assert f == [s[0]] + t;
        forall i, j | 0 <= i < j < |f| ensures key(f[i]) < key(f[j]) {
          assert f[j] == t[j - 1];
          if i > 0 {
            assert f[i] == t[i - 1];
          } else {
            assert t[j - 1] in t;
          }
        }
      }
    }
  }

  /** Filtering keeps distinctness: a key that differs between any two
      elements of `s` differs between any two elements that are kept. */
  lemma {:induction false} FilterKeepsDistinct<T>(s: seq<T>, p: T -> bool, key: T -> int)
    requires forall i, j :: 0 <= i < j < |s| ==> key(s[i]) != key(s[j])
    ensures forall i, j :: 0 <= i < j < |Filter(s, p)| ==> key(Filter(s, p)[i]) != key(Filter(s, p)[j])
  {
    if s != [] {
      var t := Filter(s[1..], p);
      FilterKeepsDistinct(s[1..], p, key);
      FilterMultiset(s[1..], p);
      forall x | x in t ensures key(s[0]) != key(x) {
        assert x in multiset(s[1..]);
        var k :| 0 <= k < |s[1..]| && s[1..][k] == x;
        assert s[k + 1] == x;
      }
      if p(s[0]) {
        var f := Filter(s, p);
        assert f == [s[0]] + t;
        forall i, j | 0 <= i < j < |f| ensures key(f[i]) != key(f[j]) {
          assert f[j] == t[j - 1];
          if i > 0 {
            assert f[i] == t[i - 1];
          } else {
            assert t[j - 1] in t;
          }
        }
      }
    }
  }

  /** Filtering distributes over concatenation. */
  lemma {:induction false} FilterAppend<T>(a: seq<T>, b: seq<T>, p: T -> bool)
    ensures Filter(a + b, p) == Filter(a, p) + Filter(b, p)
  {
    if a == [] {
      assert a + b == b;
    } else {
      assert (a + b)[1..] == a[1..] + b;
      FilterAppend(a[1..], b, p);
    }
  }

  /** Places `x` in front of the first element it comes before. */
  function Insert<T>(x: T, s: seq<T>, before: (T, T) -> bool): (r: seq<T>)
    ensures multiset(r) == multiset(s) + multiset{x}
  {
    if s == [] then [x]
    else if before(x, s[0]) then [x] + s
    else
      assert s == [s[0]] + s[1..];
      [s[0]] + Insert(x, s[1..], before)
  }

  /** Insertion sort by `before`: an ORDER BY. */
  function Sort<T>(s: seq<T>, before: (T, T) -> bool): (r: seq<T>)
    ensures multiset(r) == multiset(s)
  {
    if s == [] then []
    else
      assert s == [s[0]] + s[1..];
      Insert(s[0], Sort(s[1..], before), before)
  }

  lemma ElemsOfMultiset<T>(a: seq<T>, b: seq<T>)
    requires multiset(a) == multiset(b)
    ensures Elems(a) == Elems(b)
  {
    forall x ensures x in a <==> x in b {
      assert x in a <==> x in multiset(a);
      assert x in b <==> x in multiset(b);
    }
  }

  /** An element that comes before everything of `s` can lead it. */
  lemma ConsSorted<T>(y: T, s: seq<T>, before: (T, T) -> bool)
    requires SortedBy(s, before) && forall k :: 0 <= k < |s| ==> before(y, s[k])
    ensures SortedBy([y] + s, before)
  {
    var r := [y] + s;
    forall i, j | 0 <= i < j < |r| ensures before(r[i], r[j]) {
      assert r[j] == s[j - 1];
      if i > 0 {
        assert r[i] == s[i - 1];
      }
    }
  }

  /** What comes before `x` and before everything of `s` comes before
      everything of `Insert(x, s, before)`. */
  lemma InsertBound<T>(y: T, x: T, s: seq<T>, before: (T, T) -> bool)
    requires before(y, x) && forall k :: 0 <= k < |s| ==> before(y, s[k])
    ensures forall k :: 0 <= k < |Insert(x, s, before)| ==> before(y, Insert(x, s, before)[k])
  {
    var ins := Insert(x, s, before);
    forall k | 0 <= k < |ins| ensures before(y, ins[k]) {
      assert ins[k] in multiset(ins);
      if ins[k] != x {
        assert ins[k] in multiset(s);
        var j :| 0 <= j < |s| && s[j] == ins[k];
      }
    }
  }

  lemma {:induction false} InsertSorted<T>(x: T, s: seq<T>, before: (T, T) -> bool)
    requires SortedBy(s, before)
    requires TotalPreorderOn(Elems(s) + {x}, before)
    ensures SortedBy(Insert(x, s, before), before)
  {
    if s != [] && !before(x, s[0]) {
      var t := s[1..];
      assert Elems(t) + {x} <= Elems(s) + {x};
      InsertSorted(x, t, before);
      assert before(s[0], x);
      assert forall k :: 0 <= k < |t| ==> t[k] == s[k + 1];
      InsertBound(s[0], x, t, before);
      ConsSorted(s[0], Insert(x, t, before), before);
    } else if s != [] {
      assert forall k :: 0 <= k < |s| ==> before(s[0], s[k]) by {
        assert forall k :: 0 < k < |s| ==> before(s[0], s[k]);
      }
      ConsSorted(x, s, before);
    }
  }

  /** Sorting by a total preorder yields a sequence ordered by it. */
  lemma {:induction false} SortSorted<T>(s: seq<T>, before: (T, T) -> bool)
    requires TotalPreorderOn(Elems(s), before)
    ensures SortedBy(Sort(s, before), before)
  {
    if s != [] {
      var t := Sort(s[1..], before);
      assert Elems(s[1..]) <= Elems(s);
      SortSorted(s[1..], before);
      ElemsOfMultiset(t, s[1..]);
      assert Elems(t) + {s[0]} == Elems(s);
      InsertSorted(s[0], t, before);
    }
  }

  function Min(a: int, b: int): int {
    if a <= b then a else b
  }

  /** The first `n` elements, or all of them when there are fewer (a LIMIT). */
  function Take<T>(s: seq<T>, n: nat): (r: seq<T>)
    ensures |r| == Min(n, |s|)
    ensures r == s[..|r|]
  {
    s[..Min(n, |s|)]
  }

  /** The window [offset, offset + size) of `s` (OFFSET ... LIMIT ...). */
  function Window<T>(s: seq<T>, offset: nat, size: nat): (r: seq<T>)
    ensures |r| <= size
    ensures offset >= |s| ==> r == []
    ensures offset < |s| ==> |r| == Min(size, |s| - offset) && r == s[offset..offset + |r|]
  {
    if offset >= |s| then [] else Take(s[offset..], size)
  }

  /** A prefix of a sorted sequence comes before everything that was cut off:
      a LIMIT after an ORDER BY keeps the first elements in that order. */
  lemma PrefixBeforeRest<T>(s: seq<T>, n: nat, before: (T, T) -> bool)
    requires SortedBy(s, before)
    ensures forall i, j :: 0 <= i < |Take(s, n)| <= j < |s| ==> before(Take(s, n)[i], s[j])
  {
  }

  /** What a LIMIT after an ORDER BY leaves out comes after everything it keeps. */
  lemma TakeLeavesLater<T>(s: seq<T>, n: nat, before: (T, T) -> bool, r: T, o: T)
    requires SortedBy(s, before) && r in Take(s, n) && o in s && o !in Take(s, n)
    ensures before(r, o)
  {
    var t := Take(s, n);
    var i :| 0 <= i < |t| && t[i] == r;
    var j :| 0 <= j < |s| && s[j] == o;
    PrefixBeforeRest(s, n, before);
  }
}
