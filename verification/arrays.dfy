/**
 * `Array.prototype.filter`, `find`, `findIndex` and the stable `Array.prototype.sort` with a
 * numeric comparator `(a, b) => key(a) - key(b)`, as pure functions over
 * sequences. The sort is an insertion sort: since ECMAScript 2019 the
 * built-in sort is required to be stable, so the order it produces is
 * fully determined by the key, and `SortBy` states exactly that order:
 * a permutation, ascending by key, and with every group of equal keys in
 * input order.
 */
module Arrays {
  import Wrappers

  /** The elements of `s` that satisfy `p`, in their original order. */
  function Filter<T>(s: seq<T>, p: T -> bool): (r: seq<T>)
    ensures |r| <= |s|
    ensures forall i :: 0 <= i < |r| ==> p(r[i])
  {
    if s == [] then []
    else
      assert s == [s[0]] + s[1..];
      (if p(s[0]) then [s[0]] else []) + Filter(s[1..], p)
  }

  lemma {:induction false} FilterConcat<T>(a: seq<T>, b: seq<T>, p: T -> bool)
    ensures Filter(a + b, p) == Filter(a, p) + Filter(b, p)
  {
    if a == [] {
      assert a + b == b;
    } else {
      assert (a + b)[1..] == a[1..] + b;
      FilterConcat(a[1..], b, p);
    }
  }

  /** Every element satisfying the predicate is kept. */
  lemma {:induction false} FilterKeeps<T>(s: seq<T>, p: T -> bool, i: int)
    requires 0 <= i < |s| && p(s[i])
    ensures s[i] in Filter(s, p)
  {
    if i > 0 {
      FilterKeeps(s[1..], p, i - 1);
    }
  }

  /** The filter only drops elements: its result is a sub-multiset of the input. */
  lemma {:induction false} FilterSubMultiset<T>(s: seq<T>, p: T -> bool)
    ensures multiset(Filter(s, p)) <= multiset(s)
  {
    if s != [] {
      FilterSubMultiset(s[1..], p);
      assert s == [s[0]] + s[1..];
    }
  }

  /** An element kept by the filter was in the input and satisfies the predicate. */
  lemma FilterMember<T>(s: seq<T>, p: T -> bool, x: T)
    requires x in Filter(s, p)
    ensures x in s && p(x)
  {
    var r := Filter(s, p);
    var i :| 0 <= i < |r| && r[i] == x;
    FilterSubMultiset(s, p);
    assert x in multiset(r);
  }

  /** A filter that keeps every element is the identity. */
  lemma {:induction false} FilterKeepsAll<T>(s: seq<T>, p: T -> bool)
    requires forall i :: 0 <= i < |s| ==> p(s[i])
    ensures Filter(s, p) == s
  {
    if s != [] {
      FilterKeepsAll(s[1..], p);
    }
  }

  /** Filtering a sequence without repetitions leaves one without repetitions. */
  lemma {:induction false} FilterDistinct<T>(s: seq<T>, p: T -> bool)
    requires Distinct(s)
    ensures Distinct(Filter(s, p))
  {
    if s != [] {
      FilterDistinct(s[1..], p);
      assert s[0] !in s[1..];
      FilterSubMultiset(s[1..], p);
      assert s[0] !in multiset(Filter(s[1..], p));
    }
  }

  /** `indexOf`: the position of the first occurrence of `x` in `s`. */
  function IndexOf<T(==)>(s: seq<T>, x: T): (i: nat)
    requires x in s
    ensures i < |s| && s[i] == x && x !in s[..i]
  {
    if s[0] == x then 0 else 1 + IndexOf(s[1..], x)
  }

  lemma {:induction false} IndexOfAfterPrefix<T>(p: seq<T>, q: seq<T>, x: T)
    requires x !in p
    ensures x in p + [x] + q && IndexOf(p + [x] + q, x) == |p|
  {
    var s := p + [x] + q;
    assert s[|p|] == x;
    if p != [] {
      assert s[1..] == p[1..] + [x] + q;
      IndexOfAfterPrefix(p[1..], q, x);
    }
  }

  /** Looking an element up in a longer sequence finds the same first occurrence. */
  lemma IndexOfExtend<T>(p: seq<T>, q: seq<T>, x: T)
    requires x in p
    ensures IndexOf(p + q, x) == IndexOf(p, x)
  {
    var i := IndexOf(p, x);
    var j := IndexOf(p + q, x);
    assert (p + q)[i] == x;
    assert j <= i;
    assert (p + q)[..j] == p[..j];
  }

  /** No element occurs twice. */
  predicate Distinct<T(==)>(s: seq<T>) {
    forall i, j :: 0 <= i < j < |s| ==> s[i] != s[j]
  }

  lemma {:induction false} DistinctMultiplicity<T>(s: seq<T>, x: T)
    requires Distinct(s)
    ensures multiset(s)[x] <= 1
  {
    if s != [] {
      assert s == [s[0]] + s[1..];
      DistinctMultiplicity(s[1..], x);
      assert s[0] !in s[1..];
    }
  }

  /** A rearrangement of a sequence without repetitions has none either. */
  lemma DistinctPermutation<T>(s: seq<T>, r: seq<T>)
    requires Distinct(s) && multiset(r) == multiset(s)
    ensures Distinct(r)
  {
    forall i, j | 0 <= i < j < |r| ensures r[i] != r[j] {
      if r[i] == r[j] {
        var x := r[i];
        assert r == r[..j] + r[j..];
        assert x in r[..j] && x in r[j..];
        assert multiset(r)[x] == multiset(r[..j])[x] + multiset(r[j..])[x];
        DistinctMultiplicity(s, x);
        assert false;
      }
    }
  }

  /** `findIndex`: the position of the first element satisfying `p`, if any. */
  function FindIndex<T>(s: seq<T>, p: T -> bool): (r: Wrappers.Option<nat>)
    ensures r.Some? ==> r.value < |s| && p(s[r.value]) && forall j :: 0 <= j < r.value ==> !p(s[j])
    ensures r.None? ==> forall j :: 0 <= j < |s| ==> !p(s[j])
  {
    if s == [] then Wrappers.None
    else if p(s[0]) then Wrappers.Some(0)
    else match FindIndex(s[1..], p)
      case Some(i) => Wrappers.Some(i + 1)
      case None => Wrappers.None
  }

  /** `find`: the first element satisfying `p`, if any. */
  function Find<T>(s: seq<T>, p: T -> bool): (r: Wrappers.Option<T>)
    ensures r.Some? <==> exists i :: 0 <= i < |s| && p(s[i])
    ensures r.Some? ==> p(r.value) && r.value in s
  {
    match FindIndex(s, p)
    case Some(i) => Wrappers.Some(s[i])
    case None => Wrappers.None
  }

  /** The elements of `s` whose key is exactly `k`, in their original order. */
  function KeyGroup<T>(s: seq<T>, key: T -> int, k: int): seq<T> {
    if s == [] then []
    else (if key(s[0]) == k then [s[0]] else []) + KeyGroup(s[1..], key, k)
  }

  /** Ascending by key. */
  predicate SortedBy<T>(s: seq<T>, key: T -> int) {
    forall i, j :: 0 <= i < j < |s| ==> key(s[i]) <= key(s[j])
  }

  /** Inserts `x` before the first element whose key is not smaller than its own. */
  function Insert<T>(x: T, s: seq<T>, key: T -> int): (r: seq<T>)
    ensures |r| == |s| + 1
  {
    if s == [] || key(x) <= key(s[0]) then [x] + s
    else [s[0]] + Insert(x, s[1..], key)
  }

  lemma {:induction false} InsertMultiset<T>(x: T, s: seq<T>, key: T -> int)
    ensures multiset(Insert(x, s, key)) == multiset(s) + multiset{x}
  {
    if s != [] && key(x) > key(s[0]) {
      InsertMultiset(x, s[1..], key);
      assert s == [s[0]] + s[1..];
    }
  }

  lemma {:induction false} InsertSorted<T>(x: T, s: seq<T>, key: T -> int)
    requires SortedBy(s, key)
    ensures SortedBy(Insert(x, s, key), key)
  {
    if s != [] && key(x) > key(s[0]) {
      InsertSorted(x, s[1..], key);
      InsertMultiset(x, s[1..], key);
      var r := Insert(x, s[1..], key);
      forall y | y in r ensures key(s[0]) <= key(y) {
        assert y in multiset(r);
        assert y == x || y in multiset(s[1..]);
      }
    }
  }

  lemma {:induction false} InsertKeyGroup<T>(x: T, s: seq<T>, key: T -> int, k: int)
    ensures KeyGroup(Insert(x, s, key), key, k)
         == (if key(x) == k then [x] else []) + KeyGroup(s, key, k)
  {
    var r := Insert(x, s, key);
    if s == [] || key(x) <= key(s[0]) {
      assert r[0] == x && r[1..] == s;
    } else {
      assert r[0] == s[0] && r[1..] == Insert(x, s[1..], key);
      InsertKeyGroup(x, s[1..], key, k);
      var h := if key(s[0]) == k then [s[0]] else [];
      var g := if key(x) == k then [x] else [];
      assert key(x) == k ==> key(s[0]) != k;
      assert KeyGroup(r, key, k) == h + (g + KeyGroup(s[1..], key, k));
      assert h + (g + KeyGroup(s[1..], key, k)) == g + (h + KeyGroup(s[1..], key, k));
    }
  }

  lemma {:induction false} InsertFilter<T>(x: T, s: seq<T>, key: T -> int, p: T -> bool)
    ensures multiset(Filter(Insert(x, s, key), p))
         == multiset(Filter(s, p)) + (if p(x) then multiset{x} else multiset{})
  {
    var r := Insert(x, s, key);
    if s == [] || key(x) <= key(s[0]) {
      assert r[1..] == s;
    } else {
      assert r[1..] == Insert(x, s[1..], key);
      InsertFilter(x, s[1..], key, p);
    }
  }

  /**
   * The stable sort by `key`: a permutation of `s`, ascending by key, in
   * which the elements sharing any one key keep their input order.
   */
  function SortBy<T>(s: seq<T>, key: T -> int): (r: seq<T>)
    ensures multiset(r) == multiset(s)
    ensures SortedBy(r, key)
    ensures forall k :: KeyGroup(r, key, k) == KeyGroup(s, key, k)
  {
    if s == [] then []
    else
      var rest := SortBy(s[1..], key);
      InsertHead(s, rest, key);
      Insert(s[0], rest, key)
  }

  /** Inserting the head of `s` into a stable sort of its tail sorts all of `s`. */
  lemma {:induction false} InsertHead<T>(s: seq<T>, rest: seq<T>, key: T -> int)
    requires s != []
    requires multiset(rest) == multiset(s[1..]) && SortedBy(rest, key)
    requires forall k :: KeyGroup(rest, key, k) == KeyGroup(s[1..], key, k)
    ensures multiset(Insert(s[0], rest, key)) == multiset(s)
    ensures SortedBy(Insert(s[0], rest, key), key)
    ensures forall k :: KeyGroup(Insert(s[0], rest, key), key, k) == KeyGroup(s, key, k)
  {
    InsertMultiset(s[0], rest, key);
    InsertSorted(s[0], rest, key);
    assert s == [s[0]] + s[1..];
    forall k ensures KeyGroup(Insert(s[0], rest, key), key, k) == KeyGroup(s, key, k) {
      InsertKeyGroup(s[0], rest, key, k);
    }
  }

  /** Sorting never changes which elements, or how many of them, satisfy a predicate. */
  lemma {:induction false} SortFilterMultiset<T>(s: seq<T>, key: T -> int, p: T -> bool)
    ensures multiset(Filter(SortBy(s, key), p)) == multiset(Filter(s, p))
  {
    if s != [] {
      var rest := SortBy(s[1..], key);
      SortFilterMultiset(s[1..], key, p);
      InsertFilter(s[0], rest, key, p);
      var head: seq<T> := if p(s[0]) then [s[0]] else [];
      assert Filter(s, p) == head + Filter(s[1..], p);
      assert multiset(Filter(s, p)) == multiset(head) + multiset(Filter(s[1..], p));
    }
  }

  lemma SortFilterCount<T>(s: seq<T>, key: T -> int, p: T -> bool)
    ensures |Filter(SortBy(s, key), p)| == |Filter(s, p)|
  {
    SortFilterMultiset(s, key, p);
    assert |multiset(Filter(SortBy(s, key), p))| == |multiset(Filter(s, p))|;
  }

  /** `i` is the position of the first element of `s` with the smallest key. */
  predicate IsFirstMin<T>(s: seq<T>, key: T -> int, i: int) {
    && 0 <= i < |s|
    && (forall j :: 0 <= j < |s| ==> key(s[i]) <= key(s[j]))
    && (forall j :: 0 <= j < i ==> key(s[j]) > key(s[i]))
  }

  /** The position of the first element with the smallest key. */
  function FirstMinIndex<T>(s: seq<T>, key: T -> int): (i: nat)
    requires |s| > 0
    ensures IsFirstMin(s, key, i)
  {
    if |s| == 1 then 0
    else
      var j := FirstMinIndex(s[1..], key);
      if key(s[0]) <= key(s[1 + j]) then 0 else 1 + j
  }

  /** The head of the stable sort is the first element with the smallest key. */
  lemma {:induction false} SortHeadIsFirstMin<T>(s: seq<T>, key: T -> int)
    requires |s| > 0
    ensures SortBy(s, key)[0] == s[FirstMinIndex(s, key)]
  {
    if |s| > 1 {
      var rest := SortBy(s[1..], key);
      SortHeadIsFirstMin(s[1..], key);
    }
  }

  /** Sorting a sequence without repetitions keeps it without repetitions, with the same elements. */
  lemma SortSameElements<T>(s: seq<T>, key: T -> int)
    requires Distinct(s)
    ensures Distinct(SortBy(s, key))
    ensures forall x :: x in SortBy(s, key) <==> x in s
  {
    var r := SortBy(s, key);
    DistinctPermutation(s, r);
    forall x ensures x in r <==> x in s {
      assert x in r <==> x in multiset(r);
      assert x in s <==> x in multiset(s);
    }
  }

  /** Every element of the sorted sequence comes from the input. */
  lemma SortMember<T>(s: seq<T>, key: T -> int, i: int)
    requires 0 <= i < |SortBy(s, key)|
    ensures SortBy(s, key)[i] in s
  {
    assert SortBy(s, key)[i] in multiset(SortBy(s, key));
  }

  /** Sorting a sequence that is already ascending changes nothing. */
  lemma {:induction false} SortSortedIsIdentity<T>(s: seq<T>, key: T -> int)
    requires SortedBy(s, key)
    ensures SortBy(s, key) == s
  {
    if s != [] {
      SortSortedIsIdentity(s[1..], key);
      assert s == [s[0]] + s[1..];
    }
  }
}
