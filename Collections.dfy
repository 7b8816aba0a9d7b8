/**
 * The array operations the store and the handlers use: `filter`, the
 * stable `sort` with a numeric key comparator, and the `reduce` that takes
 * the largest id.
 */
module Collections {

  /** Concatenation is associative. */
  lemma AppendAssoc<T>(a: seq<T>, b: seq<T>, c: seq<T>)
    ensures (a + b) + c == a + (b + c)
  {
  }

  /** A non-empty sequence is its head followed by its tail. */
  lemma HeadTail<T>(s: seq<T>)
    requires s != []
    ensures s == [s[0]] + s[1..]
  {
  }

  /** The head and tail of `[c] + t`. */
  lemma ConsParts<T>(c: T, t: seq<T>)
    ensures ([c] + t)[0] == c && ([c] + t)[1..] == t
  {
  }

  /** `s.filter(p)`: the elements satisfying `p`, in their original order. */
  function Filter<T>(s: seq<T>, p: T -> bool): (r: seq<T>)
    ensures |r| <= |s|
  {
    if s == [] then []
    else if p(s[0]) then [s[0]] + Filter(s[1..], p)
    else Filter(s[1..], p)
  }

  /** An element is kept exactly when it occurs in `s` and satisfies `p`. */
  lemma {:induction false} FilterMembers<T>(s: seq<T>, p: T -> bool)
    ensures forall x :: x in Filter(s, p) <==> x in s && p(x)
  {
    if s != [] {
      FilterMembers(s[1..], p);
      assert forall x :: x in s <==> x == s[0] || x in s[1..];
    }
  }

  /** Filtering keeps every element exactly when every element satisfies `p`. */
  lemma {:induction false} FilterLength<T>(s: seq<T>, p: T -> bool)
    ensures |Filter(s, p)| == |s| <==> forall i :: 0 <= i < |s| ==> p(s[i])
    ensures (forall i :: 0 <= i < |s| ==> p(s[i])) ==> Filter(s, p) == s
  {
    if s != [] {
      FilterLength(s[1..], p);
      assert forall i :: 1 <= i < |s| ==> s[i] == s[1..][i - 1];
      if !p(s[0]) {
        assert |Filter(s, p)| <= |s[1..]|;
      }
    }
  }

  /** Filtering distributes over concatenation, so it keeps the relative order of what it keeps. */
  lemma {:induction false} FilterAppend<T>(s: seq<T>, t: seq<T>, p: T -> bool)
    ensures Filter(s + t, p) == Filter(s, p) + Filter(t, p)
  {
    if s == [] {
      assert s + t == t;
    } else {
      assert (s + t)[1..] == s[1..] + t;
      FilterAppend(s[1..], t, p);
    }
  }

  /** The index `s.findIndex(p)` finds, or `|s|` when no element satisfies `p`. */
  function FindIndex<T>(s: seq<T>, p: T -> bool): (i: nat)
    ensures i <= |s|
    ensures i < |s| ==> p(s[i])
    ensures forall j :: 0 <= j < i ==> !p(s[j])
  {
    if s == [] || p(s[0]) then 0
    else
      var i := 1 + FindIndex(s[1..], p);
      assert forall j :: 1 <= j < |s| ==> s[j] == s[1..][j - 1];
      i
  }

  /** `s` is in ascending order of `key`. */
  predicate SortedBy<T>(s: seq<T>, key: T -> int) {
    forall i, j :: 0 <= i < j < |s| ==> key(s[i]) <= key(s[j])
  }

  /** Every key in `s` is at least `b`. */
  predicate KeysAtLeast<T>(s: seq<T>, key: T -> int, b: int) {
    forall i :: 0 <= i < |s| ==> b <= key(s[i])
  }

  /** In a list sorted by `key`, the first element satisfying `p` has the smallest key among those that do. */
  lemma FindIndexSortedMin<T>(s: seq<T>, key: T -> int, p: T -> bool)
    requires SortedBy(s, key)
    ensures FindIndex(s, p) < |s| ==>
      forall k :: 0 <= k < |s| && p(s[k]) ==> key(s[FindIndex(s, p)]) <= key(s[k])
  {
    var i := FindIndex(s, p);
    if i < |s| {
      forall k | 0 <= k < |s| && p(s[k]) ensures key(s[i]) <= key(s[k]) {
        if k != i {
          assert i < k;
        }
      }
    }
  }

  /** `x` placed before the first element of `s` whose key is not smaller. */
  function InsertBy<T>(x: T, s: seq<T>, key: T -> int): (r: seq<T>)
    ensures multiset(r) == multiset(s) + multiset{x}
    ensures |r| == |s| + 1
  {
    if s == [] || key(x) <= key(s[0]) then [x] + s
    else
      var r := [s[0]] + InsertBy(x, s[1..], key);
      assert s == [s[0]] + s[1..];
      r
  }

  lemma InsertByKeysAtLeast<T>(x: T, s: seq<T>, key: T -> int, b: int)
    requires b <= key(x) && KeysAtLeast(s, key, b)
    ensures KeysAtLeast(InsertBy(x, s, key), key, b)
  {
    var r := InsertBy(x, s, key);
    forall i | 0 <= i < |r| ensures b <= key(r[i]) {
      assert r[i] in multiset(r);
      if r[i] != x {
        assert r[i] in multiset(s);
      }
    }
  }

  lemma {:induction false} InsertBySorted<T>(x: T, s: seq<T>, key: T -> int)
    requires SortedBy(s, key)
    ensures SortedBy(InsertBy(x, s, key), key)
  {
    if s != [] && key(x) > key(s[0]) {
      var t := s[1..];
      assert SortedBy(t, key) by {
        forall i, j | 0 <= i < j < |t| ensures key(t[i]) <= key(t[j]) {
          assert t[i] == s[i + 1] && t[j] == s[j + 1];
        }
      }
      InsertBySorted(x, t, key);
      assert KeysAtLeast(t, key, key(s[0])) by {
        forall i | 0 <= i < |t| ensures key(s[0]) <= key(t[i]) { assert t[i] == s[i + 1]; }
      }
      InsertByKeysAtLeast(x, t, key, key(s[0]));
    }
  }

  /**
   * `s.sort((a, b) => key(a) - key(b))`. The sort is stable: each element
   * goes before the already sorted later elements whose key is not smaller.
   */
  function SortBy<T>(s: seq<T>, key: T -> int): (r: seq<T>)
    ensures |r| == |s|
    ensures multiset(r) == multiset(s)
  {
    if s == [] then []
    else
      var r := InsertBy(s[0], SortBy(s[1..], key), key);
      assert s == [s[0]] + s[1..];
      r
  }

  /** The sorted list is in ascending key order and is a permutation of the input. */
  lemma {:induction false} SortBySpec<T>(s: seq<T>, key: T -> int)
    ensures SortedBy(SortBy(s, key), key)
    ensures multiset(SortBy(s, key)) == multiset(s)
  {
    if s != [] {
      SortBySpec(s[1..], key);
      InsertBySorted(s[0], SortBy(s[1..], key), key);
    }
  }

  /**
   * Inserting `x` keeps, among the elements that pass `p`, the order of `s`;
   * when `p` picks out `x`'s key, `x` goes before those elements, since it
   * is placed before the first element whose key is not smaller.
   */
  lemma {:induction false} InsertByFilterKey<T>(x: T, s: seq<T>, key: T -> int, p: T -> bool, k: int)
    requires forall y :: p(y) <==> key(y) == k
    ensures Filter(InsertBy(x, s, key), p) == if p(x) then [x] + Filter(s, p) else Filter(s, p)
  {
    if s == [] || key(x) <= key(s[0]) {
      ConsParts(x, s);
    } else {
      var t := InsertBy(x, s[1..], key);
      ConsParts(s[0], t);
      InsertByFilterKey(x, s[1..], key, p, k);
    }
  }

  /**
   * The sort is stable: the elements with any one key come out in the order
   * they had in the input.
   */
  lemma {:induction false} SortByStable<T>(s: seq<T>, key: T -> int, p: T -> bool, k: int)
    requires forall y :: p(y) <==> key(y) == k
    ensures Filter(SortBy(s, key), p) == Filter(s, p)
  {
    if s != [] {
      SortByStable(s[1..], key, p, k);
      InsertByFilterKey(s[0], SortBy(s[1..], key), key, p, k);
    }
  }

  /** Sorting neither adds nor drops an element. */
  lemma SortByMembers<T>(s: seq<T>, key: T -> int)
    ensures forall x :: x in SortBy(s, key) <==> x in s
  {
    var r := SortBy(s, key);
    forall x ensures x in r <==> x in s {
      assert x in r <==> x in multiset(r);
      assert x in s <==> x in multiset(s);
    }
  }

  /** The largest of `start` and the keys of `s`: `s.reduce((m, x) => Math.max(m, key(x)), start)`. */
  function MaxKey<T>(s: seq<T>, key: T -> int, start: int): (m: int)
    ensures m >= start
    ensures forall i :: 0 <= i < |s| ==> key(s[i]) <= m
    ensures m == start || exists i :: 0 <= i < |s| && key(s[i]) == m
  {
    if s == [] then start
    else
      var m := MaxKey(s[1..], key, if key(s[0]) > start then key(s[0]) else start);
      assert forall i :: 1 <= i < |s| ==> s[i] == s[1..][i - 1];
      m
  }
}
