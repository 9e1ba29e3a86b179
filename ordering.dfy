/** Sequence queries used by the SQL reads of the source: `filter`,
    `order_by` (a stable insertion sort by a key and a total preorder) and
    `limit`. */
module Ordering {

  ghost predicate IsTotalPreorder<K(!new)>(le: (K, K) -> bool)
  {
    && (forall a, b :: le(a, b) || le(b, a))
    && (forall a, b, c :: le(a, b) && le(b, c) ==> le(a, c))
  }

  ghost predicate SortedBy<T, K>(s: seq<T>, key: T -> K, le: (K, K) -> bool)
  {
    forall i, j :: 0 <= i < j < |s| ==> le(key(s[i]), key(s[j]))
  }

  /** `x` goes in front of the first element it is not after, so elements
      with equal keys keep their relative order. */
  function InsertBy<T, K>(x: T, s: seq<T>, key: T -> K, le: (K, K) -> bool): (r: seq<T>)
    ensures |r| == |s| + 1
    ensures multiset(r) == multiset(s) + multiset{x}
  {
    if s == [] || le(key(x), key(s[0])) then [x] + s
    else
      assert s == [s[0]] + s[1..];
      [s[0]] + InsertBy(x, s[1..], key, le)
  }

  lemma {:induction false} InsertBySorted<T, K(!new)>(x: T, s: seq<T>, key: T -> K, le: (K, K) -> bool)
    requires IsTotalPreorder(le)
    requires SortedBy(s, key, le)
    ensures SortedBy(InsertBy(x, s, key, le), key, le)
  {
    if s != [] && !le(key(x), key(s[0])) {
      var tail := s[1..];
      var rest := InsertBy(x, tail, key, le);
      SortedTail(s, key, le);
      InsertBySorted(x, tail, key, le);
      assert le(key(s[0]), key(x));
      forall i | 0 <= i < |rest| ensures le(key(s[0]), key(rest[i])) {
        var y := rest[i];
        assert y in multiset(rest);
        if y != x {
          assert y in multiset(tail);
          var k :| 0 <= k < |tail| && tail[k] == y;
          assert s[k + 1] == y;
        }
      }
      PrependSorted(s[0], rest, key, le);
      assert InsertBy(x, s, key, le) == [s[0]] + rest;
    } else if s != [] {
      forall i | 0 <= i < |s| ensures le(key(x), key(s[i])) {
        if i > 0 { assert le(key(x), key(s[0])) && le(key(s[0]), key(s[i])); }
      }
      PrependSorted(x, s, key, le);
    }
  }

  lemma SortedTail<T, K>(s: seq<T>, key: T -> K, le: (K, K) -> bool)
    requires s != [] && SortedBy(s, key, le)
    ensures SortedBy(s[1..], key, le)
  {
    var tail := s[1..];
    forall i, j | 0 <= i < j < |tail| ensures le(key(tail[i]), key(tail[j])) {
      assert tail[i] == s[i + 1] && tail[j] == s[j + 1];
    }
  }

  /** Stable sort of `s` into `le` order of the keys. */
  function SortBy<T, K(!new)>(s: seq<T>, key: T -> K, le: (K, K) -> bool): (r: seq<T>)
    requires IsTotalPreorder(le)
    ensures |r| == |s|
    ensures multiset(r) == multiset(s)
    ensures SortedBy(r, key, le)
  {
    if s == [] then []
    else
      assert s == [s[0]] + s[1..];
      var rest := SortBy(s[1..], key, le);
      InsertBySorted(s[0], rest, key, le);
      InsertBy(s[0], rest, key, le)
  }

  /** Elements of `s` that satisfy `p`, in their order in `s`. */
  function Filter<T>(s: seq<T>, p: T -> bool): (r: seq<T>)
    ensures |r| <= |s|
    ensures forall i :: 0 <= i < |r| ==> r[i] in s && p(r[i])
    ensures forall i :: 0 <= i < |s| && p(s[i]) ==> s[i] in r
    ensures multiset(r) <= multiset(s)
  {
    if s == [] then []
    else
      assert s == [s[0]] + s[1..];
      (if p(s[0]) then [s[0]] else []) + Filter(s[1..], p)
  }

  /** Filtering commutes with concatenation: the kept elements stay in
      input order. */
  lemma {:induction false} FilterConcat<T>(a: seq<T>, b: seq<T>, p: T -> bool)
    ensures Filter(a + b, p) == Filter(a, p) + Filter(b, p)
  {
    if a == [] {
      assert a + b == b;
    } else {
      assert (a + b)[0] == a[0] && (a + b)[1..] == a[1..] + b;
      FilterConcat(a[1..], b, p);
    }
  }

  /** Filtering keeps a sorted sequence sorted. */
  lemma {:induction false} FilterSorted<T, K>(s: seq<T>, p: T -> bool, key: T -> K, le: (K, K) -> bool)
    requires SortedBy(s, key, le)
    ensures SortedBy(Filter(s, p), key, le)
  {
    if s != [] {
      var tail := s[1..];
      var rest := Filter(tail, p);
      SortedTail(s, key, le);
      FilterSorted(tail, p, key, le);
      if p(s[0]) {
        assert Filter(s, p) == [s[0]] + rest;
        HeadBeforeAll(s, rest, key, le);
        PrependSorted(s[0], rest, key, le);
      } else {
        assert Filter(s, p) == rest;
      }
    }
  }

  /** In a sorted sequence the head comes before every element of any
      selection from the tail. */
  lemma HeadBeforeAll<T, K>(s: seq<T>, sub: seq<T>, key: T -> K, le: (K, K) -> bool)
    requires s != [] && SortedBy(s, key, le)
    requires forall i :: 0 <= i < |sub| ==> sub[i] in s[1..]
    ensures forall i :: 0 <= i < |sub| ==> le(key(s[0]), key(sub[i]))
  {
    forall i | 0 <= i < |sub| ensures le(key(s[0]), key(sub[i])) {
      var tail := s[1..];
      assert sub[i] in tail;
      var k :| 0 <= k < |tail| && tail[k] == sub[i];
      assert s[k + 1] == sub[i];
    }
  }

  lemma PrependSorted<T, K>(x: T, s: seq<T>, key: T -> K, le: (K, K) -> bool)
    requires SortedBy(s, key, le)
    requires forall i :: 0 <= i < |s| ==> le(key(x), key(s[i]))
    ensures SortedBy([x] + s, key, le)
  {
    var r := [x] + s;
    forall i, j | 0 <= i < j < |r| ensures le(key(r[i]), key(r[j])) {
      assert r[j] == s[j - 1];
      if i > 0 { assert r[i] == s[i - 1]; }
    }
  }

  /** SQL `LIMIT n`; a negative limit imposes no bound, as in SQLite. */
  function Take<T>(s: seq<T>, limit: int): (r: seq<T>)
    ensures |r| <= |s| && r == s[..|r|]
    ensures limit < 0 ==> r == s
    ensures 0 <= limit ==> |r| == if limit < |s| then limit else |s|
  {
    if limit < 0 || limit >= |s| then s else s[..limit]
  }

  lemma TakeSubMultiset<T>(s: seq<T>, limit: int)
    ensures multiset(Take(s, limit)) <= multiset(s)
  {
    assert s == Take(s, limit) + s[|Take(s, limit)|..];
  }

  /** What a limit leaves out of a sorted sequence comes after everything
      it keeps. */
  lemma TakeSortedOmitted<T, K>(s: seq<T>, limit: int, key: T -> K, le: (K, K) -> bool, x: T)
    requires SortedBy(s, key, le)
    requires x in s && x !in Take(s, limit)
    ensures forall y :: y in Take(s, limit) ==> le(key(y), key(x))
  {
    var r := Take(s, limit);
    var m :| 0 <= m < |s| && s[m] == x;
    assert m >= |r|;
    forall y | y in r ensures le(key(y), key(x)) {
      var k :| 0 <= k < |r| && r[k] == y;
      assert s[k] == y;
    }
  }

  /** Sorting neither adds nor drops elements. */
  lemma SortByMembers<T, K(!new)>(s: seq<T>, key: T -> K, le: (K, K) -> bool)
    requires IsTotalPreorder(le)
    ensures forall i :: 0 <= i < |s| ==> s[i] in SortBy(s, key, le)
    ensures forall i :: 0 <= i < |SortBy(s, key, le)| ==> SortBy(s, key, le)[i] in s
  {
    var r := SortBy(s, key, le);
    forall i | 0 <= i < |s| ensures s[i] in r {
      assert s[i] in multiset(s);
    }
    forall i | 0 <= i < |r| ensures r[i] in s {
      assert r[i] in multiset(r);
    }
  }

  /** A query that filters by `p`, sorts by `key` and then keeps the
      elements satisfying `q` answers exactly the elements satisfying both,
      in sorted order. */
  lemma FilterSortFilter<T, K(!new)>(s: seq<T>, p: T -> bool, key: T -> K, le: (K, K) -> bool, q: T -> bool)
    requires IsTotalPreorder(le)
    ensures var r := Filter(SortBy(Filter(s, p), key, le), q);
            && (forall i :: 0 <= i < |r| ==> r[i] in s && p(r[i]) && q(r[i]))
            && (forall i :: 0 <= i < |s| ==> p(s[i]) && q(s[i]) ==> s[i] in r)
            && SortedBy(r, key, le)
    ensures multiset(Filter(SortBy(Filter(s, p), key, le), q)) <= multiset(s)
  {
    var kept := Filter(s, p);
    var sorted := SortBy(kept, key, le);
    var r := Filter(sorted, q);
    SortByMembers(kept, key, le);
    FilterSorted(sorted, q, key, le);
    forall i | 0 <= i < |r| ensures r[i] in s && p(r[i]) {
      var m :| 0 <= m < |sorted| && sorted[m] == r[i];
      var k :| 0 <= k < |kept| && kept[k] == r[i];
    }
    forall i | 0 <= i < |s| && p(s[i]) && q(s[i]) ensures s[i] in r {
      var k :| 0 <= k < |kept| && kept[k] == s[i];
      var m :| 0 <= m < |sorted| && sorted[m] == s[i];
    }
  }

  /** The same query with a limit after the sort: only matching elements,
      in sorted order, as many as the limit allows, and whatever matching
      element is left out comes after everything kept. */
  lemma FilterSortTake<T, K(!new)>(s: seq<T>, p: T -> bool, key: T -> K, le: (K, K) -> bool, limit: int)
    requires IsTotalPreorder(le)
    ensures var sorted := SortBy(Filter(s, p), key, le);
            var r := Take(sorted, limit);
            && (forall i :: 0 <= i < |r| ==> r[i] in s && p(r[i]))
            && multiset(r) <= multiset(s)
            && SortedBy(r, key, le)
            && |r| == (if 0 <= limit < |sorted| then limit else |sorted|)
            && (forall i :: 0 <= i < |s| && p(s[i]) && s[i] !in r ==>
                  forall j :: 0 <= j < |r| ==> le(key(r[j]), key(s[i])))
  {
    var kept := Filter(s, p);
    var sorted := SortBy(kept, key, le);
    var r := Take(sorted, limit);
    TakeSubMultiset(sorted, limit);
    TakeKeeps(s, p, key, le, limit);
    TakeOmits(s, p, key, le, limit);
  }

  lemma TakeCounts<T, K(!new)>(s: seq<T>, p: T -> bool, key: T -> K, le: (K, K) -> bool, limit: int)
    requires IsTotalPreorder(le)
    ensures multiset(Take(SortBy(Filter(s, p), key, le), limit)) <= multiset(s)
  {
    TakeSubMultiset(SortBy(Filter(s, p), key, le), limit);
  }

  lemma TakeKeeps<T, K(!new)>(s: seq<T>, p: T -> bool, key: T -> K, le: (K, K) -> bool, limit: int)
    requires IsTotalPreorder(le)
    ensures var r := Take(SortBy(Filter(s, p), key, le), limit);
            forall i :: 0 <= i < |r| ==> r[i] in s && p(r[i])
  {
    var kept := Filter(s, p);
    var sorted := SortBy(kept, key, le);
    var r := Take(sorted, limit);
    SortByMembers(kept, key, le);
    forall i | 0 <= i < |r| ensures r[i] in s && p(r[i]) {
      assert r[i] == sorted[i];
      var k :| 0 <= k < |kept| && kept[k] == r[i];
    }
  }

  lemma TakeOmits<T, K(!new)>(s: seq<T>, p: T -> bool, key: T -> K, le: (K, K) -> bool, limit: int)
    requires IsTotalPreorder(le)
    ensures var r := Take(SortBy(Filter(s, p), key, le), limit);
            forall i :: 0 <= i < |s| && p(s[i]) && s[i] !in r ==>
              forall j :: 0 <= j < |r| ==> le(key(r[j]), key(s[i]))
  {
    var kept := Filter(s, p);
    var sorted := SortBy(kept, key, le);
    var r := Take(sorted, limit);
    SortByMembers(kept, key, le);
    forall i | 0 <= i < |s| && p(s[i]) && s[i] !in r
      ensures forall j :: 0 <= j < |r| ==> le(key(r[j]), key(s[i]))
    {
      var k :| 0 <= k < |kept| && kept[k] == s[i];
      assert s[i] in sorted;
      TakeSortedOmitted(sorted, limit, key, le, s[i]);
      forall j | 0 <= j < |r| ensures le(key(r[j]), key(s[i])) {
        assert r[j] in r;
      }
    }
  }
}
