/** Generic operations on rows that the source leaves to the database or to
    the JavaScript runtime: `where` (Filter), `sum` (SumBy), and ordering
    (`orderBy`, `Array.prototype.sort`), modelled by one stable insertion sort
    ascending by an integer key (descending orders use the negated key). */
module Tables {

  ghost predicate SortedBy<T>(s: seq<T>, key: T -> int) {
    forall i, j :: 0 <= i < j < |s| ==> key(s[i]) <= key(s[j])
  }

  /** Inserts `x` before the first element whose key is not smaller. */
  function Insert<T>(x: T, s: seq<T>, key: T -> int): (r: seq<T>)
    ensures |r| == |s| + 1
    ensures multiset(r) == multiset(s) + multiset{x}
  {
    if s == [] || key(x) <= key(s[0]) then [x] + s
    else
      assert s == [s[0]] + s[1..];
      [s[0]] + Insert(x, s[1..], key)
  }

  function SortBy<T>(s: seq<T>, key: T -> int): (r: seq<T>)
    ensures |r| == |s|
    ensures multiset(r) == multiset(s)
  {
    if s == [] then []
    else
      assert s == [s[0]] + s[1..];
      Insert(s[0], SortBy(s[1..], key), key)
  }

  lemma {:induction false} InsertSorted<T>(x: T, s: seq<T>, key: T -> int)
    requires SortedBy(s, key)
    ensures SortedBy(Insert(x, s, key), key)
  {
    if s == [] || key(x) <= key(s[0]) {
    } else {
      var rest := Insert(x, s[1..], key);
      InsertSorted(x, s[1..], key);
      assert forall y :: y in rest ==> key(s[0]) <= key(y) by {
        forall y | y in rest ensures key(s[0]) <= key(y) {
          assert y in multiset(rest);
          if y != x {
            assert y in multiset(s[1..]);
            var k :| 0 <= k < |s[1..]| && s[1..][k] == y;
            assert s[k + 1] == y;
          }
        }
      }
      var r := [s[0]] + rest;
      forall i, j | 0 <= i < j < |r| ensures key(r[i]) <= key(r[j]) {
        if i == 0 {
          assert r[j] in rest;
          assert r[j] in multiset(rest);
        } else {
          assert r[i] == rest[i - 1] && r[j] == rest[j - 1];
        }
      }
    }
  }

  /** The result of SortBy is ordered by the key and is a permutation of the input. */
  lemma {:induction false} SortBySorted<T>(s: seq<T>, key: T -> int)
    ensures SortedBy(SortBy(s, key), key)
    ensures multiset(SortBy(s, key)) == multiset(s)
  {
    if s != [] {
      SortBySorted(s[1..], key);
      InsertSorted(s[0], SortBy(s[1..], key), key);
    }
  }

  ghost predicate KeysDistinct<T>(s: seq<T>, key: T -> int) {
    forall i, j :: 0 <= i < j < |s| ==> key(s[i]) != key(s[j])
  }

  lemma {:induction false} InsertKeysDistinct<T>(x: T, s: seq<T>, key: T -> int)
    requires KeysDistinct(s, key)
    requires forall y :: y in s ==> key(y) != key(x)
    ensures KeysDistinct(Insert(x, s, key), key)
  {
    if s == [] || key(x) <= key(s[0]) {
      var r := [x] + s;
      forall i, j | 0 <= i < j < |r| ensures key(r[i]) != key(r[j]) {
        if i == 0 { assert r[j] in s; }
      }
    } else {
      var rest := Insert(x, s[1..], key);
      InsertKeysDistinct(x, s[1..], key);
      var r := [s[0]] + rest;
      forall i, j | 0 <= i < j < |r| ensures key(r[i]) != key(r[j]) {
        if i == 0 {
          assert r[j] in multiset(rest);
          if r[j] != x {
            assert r[j] in multiset(s[1..]);
            var k :| 0 <= k < |s[1..]| && s[1..][k] == r[j];
            assert s[k + 1] == r[j];
          }
        } else {
          assert r[i] == rest[i - 1] && r[j] == rest[j - 1];
        }
      }
    }
  }

  /** Sorting keeps distinct keys distinct, so a sorted sequence with distinct
      keys is strictly increasing. */
  lemma {:induction false} SortByStrict<T>(s: seq<T>, key: T -> int)
    requires KeysDistinct(s, key)
    ensures KeysDistinct(SortBy(s, key), key)
    ensures forall i, j :: 0 <= i < j < |SortBy(s, key)| ==> key(SortBy(s, key)[i]) < key(SortBy(s, key)[j])
  {
    if s != [] {
      var t := SortBy(s[1..], key);
      SortByStrict(s[1..], key);
      forall y | y in t ensures key(y) != key(s[0]) {
        assert y in multiset(t);
        assert y in multiset(s[1..]);
        var k :| 0 <= k < |s[1..]| && s[1..][k] == y;
        assert s[k + 1] == y;
      }
      InsertKeysDistinct(s[0], t, key);
    }
    SortBySorted(s, key);
  }

  /** Sum of `f` over a sequence, accumulated from the front. */
  function SumBy<T>(s: seq<T>, f: T -> int): int {
    if s == [] then 0 else SumBy(s[..|s| - 1], f) + f(s[|s| - 1])
  }

  lemma {:induction false} SumByAppend<T>(a: seq<T>, b: seq<T>, f: T -> int)
    ensures SumBy(a + b, f) == SumBy(a, f) + SumBy(b, f)
  {
    if b == [] {
      assert a + b == a;
    } else {
      assert (a + b)[..|a + b| - 1] == a + b[..|b| - 1];
      SumByAppend(a, b[..|b| - 1], f);
    }
  }

  lemma SumByCons<T>(x: T, s: seq<T>, f: T -> int)
    ensures SumBy([x] + s, f) == f(x) + SumBy(s, f)
  {
    SumByAppend([x], s, f);
    assert [x][..0] == [];
  }

  lemma {:induction false} SumByInsert<T>(x: T, s: seq<T>, key: T -> int, f: T -> int)
    ensures SumBy(Insert(x, s, key), f) == f(x) + SumBy(s, f)
  {
    if s == [] || key(x) <= key(s[0]) {
      SumByCons(x, s, f);
    } else {
      SumByInsert(x, s[1..], key, f);
      SumByCons(s[0], Insert(x, s[1..], key), f);
      SumByCons(s[0], s[1..], f);
      assert s == [s[0]] + s[1..];
    }
  }

  /** Reordering does not change a sum. */
  lemma {:induction false} SumBySortBy<T>(s: seq<T>, key: T -> int, f: T -> int)
    ensures SumBy(SortBy(s, key), f) == SumBy(s, f)
  {
    if s != [] {
      var x, rest := s[0], s[1..];
      var t := SortBy(rest, key);
      assert SortBy(s, key) == Insert(x, t, key);
      SumBySortBy(rest, key, f);
      SumByInsert(x, t, key, f);
      SumByCons(x, rest, f);
      assert [x] + rest == s;
    }
  }

  lemma {:induction false} SumByUpdate<T>(s: seq<T>, k: nat, x: T, f: T -> int)
    requires k < |s|
    ensures SumBy(s[k := x], f) == SumBy(s, f) - f(s[k]) + f(x)
  {
    var n := |s| - 1;
    if k == n {
      assert s[k := x][..n] == s[..n];
    } else {
      assert s[k := x][..n] == s[..n][k := x];
      SumByUpdate(s[..n], k, x, f);
    }
  }

  /** Rows satisfying `p`, in their original order. */
  function Filter<T>(s: seq<T>, p: T -> bool): (r: seq<T>)
    ensures |r| <= |s|
  {
    if s == [] then []
    else
      var rest := Filter(s[..|s| - 1], p);
      if p(s[|s| - 1]) then rest + [s[|s| - 1]] else rest
  }

  lemma {:induction false} FilterMembers<T>(s: seq<T>, p: T -> bool)
    ensures forall x :: x in Filter(s, p) ==> x in s && p(x)
    ensures forall i :: 0 <= i < |s| && p(s[i]) ==> s[i] in Filter(s, p)
  {
    if s != [] {
      FilterMembers(s[..|s| - 1], p);
      forall i | 0 <= i < |s| - 1 ensures s[i] == s[..|s| - 1][i] { }
    }
  }

  lemma {:induction false} FilterAppend<T>(a: seq<T>, b: seq<T>, p: T -> bool)
    ensures Filter(a + b, p) == Filter(a, p) + Filter(b, p)
  {
    if b == [] {
      assert a + b == a;
    } else {
      assert (a + b)[..|a + b| - 1] == a + b[..|b| - 1];
      FilterAppend(a, b[..|b| - 1], p);
    }
  }

  /** Filtering by a condition no element meets gives nothing; by one every
      element meets, everything. */
  lemma {:induction false} FilterNone<T>(s: seq<T>, p: T -> bool)
    requires forall i :: 0 <= i < |s| ==> !p(s[i])
    ensures Filter(s, p) == []
  {
    if s != [] { FilterNone(s[..|s| - 1], p); }
  }

  lemma {:induction false} FilterAll<T>(s: seq<T>, p: T -> bool)
    requires forall i :: 0 <= i < |s| ==> p(s[i])
    ensures Filter(s, p) == s
  {
    if s != [] {
      FilterAll(s[..|s| - 1], p);
      assert s == s[..|s| - 1] + [s[|s| - 1]];
    }
  }

  /** Filtering twice is filtering by the stronger condition. */
  lemma {:induction false} FilterFilter<T>(s: seq<T>, q: T -> bool, p: T -> bool)
    requires forall x :: p(x) ==> q(x)
    ensures Filter(Filter(s, q), p) == Filter(s, p)
  {
    if s != [] {
      FilterFilter(s[..|s| - 1], q, p);
      var last := s[|s| - 1];
      if q(last) {
        var rest := Filter(s[..|s| - 1], q);
        assert (rest + [last])[..|rest + [last]| - 1] == rest;
      }
    }
  }

  /** Filtering by two incompatible conditions gives nothing. */
  lemma {:induction false} FilterDisjoint<T>(s: seq<T>, q: T -> bool, p: T -> bool)
    requires forall x :: p(x) ==> !q(x)
    ensures Filter(Filter(s, q), p) == []
  {
    FilterMembers(s, q);
    var f := Filter(s, q);
    forall i | 0 <= i < |f| ensures !p(f[i]) {
      assert f[i] in f;
    }
    FilterNone(f, p);
  }

  /** A relation that holds between every earlier and later element still
      holds after filtering. */
  lemma {:induction false} FilterPairwise<T>(s: seq<T>, p: T -> bool, rel: (T, T) -> bool)
    requires forall i, j :: 0 <= i < j < |s| ==> rel(s[i], s[j])
    ensures forall i, j :: 0 <= i < j < |Filter(s, p)| ==> rel(Filter(s, p)[i], Filter(s, p)[j])
  {
    if s != [] {
      var n := |s| - 1;
      var prefix := s[..n];
      FilterPairwise(prefix, p, rel);
      FilterMembers(prefix, p);
      var f := Filter(prefix, p);
      if p(s[n]) {
        var r := f + [s[n]];
        forall i, j | 0 <= i < j < |r| ensures rel(r[i], r[j]) {
          if j == |f| {
            assert r[i] in f;
            assert r[i] in prefix;
            var m :| 0 <= m < n && prefix[m] == r[i];
          }
        }
      }
    }
  }
}
