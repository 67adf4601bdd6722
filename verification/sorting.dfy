/** Python's `sorted(xs, key=...)`: a stable sort by a real-valued key,
    written as an insertion sort that places each element after every
    earlier element whose key is not larger. */
module Sorting {

  predicate SortedBy<T>(s: seq<T>, key: T -> real) {
    forall a, b :: 0 <= a < b < |s| ==> key(s[a]) <= key(s[b])
  }

  /** Inserts `x` into a sorted sequence after every element whose key is at most `x`'s. */
  function Insert<T>(s: seq<T>, x: T, key: T -> real): (r: seq<T>)
    requires SortedBy(s, key)
    ensures SortedBy(r, key)
    ensures multiset(r) == multiset(s) + multiset{x}
    ensures forall e :: e in r ==> e in s || e == x
    ensures (|s| == 0 || key(s[|s| - 1]) <= key(x)) ==> r == s + [x]
    decreases |s|
  {
    if |s| == 0 then [x]
    else if key(s[|s| - 1]) <= key(x) then
      AppendSorted(s, x, key);
      s + [x]
    else
      var r0 := Insert(s[..|s| - 1], x, key);
      InsertStep(s, x, key, r0);
      r0 + [s[|s| - 1]]
  }

  lemma AppendSorted<T>(s: seq<T>, x: T, key: T -> real)
    requires SortedBy(s, key)
    requires |s| == 0 || key(s[|s| - 1]) <= key(x)
    ensures SortedBy(s + [x], key)
  {
    var r := s + [x];
    forall a, b | 0 <= a < b < |r| ensures key(r[a]) <= key(r[b]) {
      if b == |s| {
        assert key(s[a]) <= key(s[|s| - 1]);
      }
    }
  }

  /** The recursive case of `Insert`: the last element goes back on the end. */
  lemma InsertStep<T>(s: seq<T>, x: T, key: T -> real, r0: seq<T>)
    requires SortedBy(s, key) && |s| > 0 && key(x) < key(s[|s| - 1])
    requires SortedBy(r0, key)
    requires multiset(r0) == multiset(s[..|s| - 1]) + multiset{x}
    requires forall e :: e in r0 ==> e in s[..|s| - 1] || e == x
    ensures SortedBy(r0 + [s[|s| - 1]], key)
    ensures multiset(r0 + [s[|s| - 1]]) == multiset(s) + multiset{x}
    ensures forall e :: e in r0 + [s[|s| - 1]] ==> e in s || e == x
  {
    var init := s[..|s| - 1];
    var last := s[|s| - 1];
    assert s == init + [last];
    forall a | 0 <= a < |r0| ensures key(r0[a]) <= key(last) {
      assert r0[a] in r0;
      if r0[a] != x {
        var c :| 0 <= c < |init| && init[c] == r0[a];
        assert s[c] == r0[a];
      }
    }
    if |r0| > 0 {
      AppendSorted(r0, last, key);
    }
  }

  /** `sorted(s, key=key)`. */
  function SortBy<T>(s: seq<T>, key: T -> real): (r: seq<T>)
    ensures SortedBy(r, key)
    ensures multiset(r) == multiset(s)
    ensures |r| == |s|
    decreases |s|
  {
    if |s| == 0 then []
    else
      var sorted := SortBy(s[..|s| - 1], key);
      var r := Insert(sorted, s[|s| - 1], key);
      InsertLast(s, sorted, r);
      r
  }

  /** Inserting the last element into a permutation of the others gives a
      permutation of the whole sequence. */
  lemma InsertLast<T>(s: seq<T>, sorted: seq<T>, r: seq<T>)
    requires |s| > 0 && multiset(sorted) == multiset(s[..|s| - 1])
    requires multiset(r) == multiset(sorted) + multiset{s[|s| - 1]}
    ensures multiset(r) == multiset(s) && |r| == |s|
  {
    assert s == s[..|s| - 1] + [s[|s| - 1]];
    assert |r| == |multiset(r)| == |multiset(s)| == |s|;
  }

  lemma SortedInit<T>(s: seq<T>, key: T -> real)
    requires SortedBy(s, key) && |s| > 0
    ensures SortedBy(s[..|s| - 1], key)
    ensures |s| > 1 ==> key(s[..|s| - 1][|s| - 2]) <= key(s[|s| - 1])
  {
    var init := s[..|s| - 1];
    forall a, b | 0 <= a < b < |init| ensures key(init[a]) <= key(init[b]) {
      assert init[a] == s[a] && init[b] == s[b];
    }
  }

  /** A sequence already in key order is returned unchanged: ties keep their order. */
  lemma {:induction false} SortBySorted<T>(s: seq<T>, key: T -> real)
    requires SortedBy(s, key)
    ensures SortBy(s, key) == s
  {
    if |s| > 0 {
      var init := s[..|s| - 1];
      var x := s[|s| - 1];
      SortedInit(s, key);
      SortBySorted(init, key);
      assert SortBy(s, key) == Insert(SortBy(init, key), x, key);
      assert |init| == 0 || key(init[|init| - 1]) <= key(x);
      assert Insert(init, x, key) == init + [x];
      InitLast(s);
    }
  }

  /** `[y]` when `y`'s key is `v`, else empty. */
  function KeyMatch<T>(y: T, key: T -> real, v: real): seq<T> {
    if key(y) == v then [y] else []
  }

  /** The elements of `s` whose key is `v`, in their order in `s`. */
  function FilterKey<T>(s: seq<T>, key: T -> real, v: real): seq<T>
    decreases |s|
  {
    if |s| == 0 then []
    else FilterKey(s[..|s| - 1], key, v) + KeyMatch(s[|s| - 1], key, v)
  }

  lemma FilterSnoc<T>(s: seq<T>, y: T, key: T -> real, v: real)
    ensures FilterKey(s + [y], key, v) == FilterKey(s, key, v) + KeyMatch(y, key, v)
  {
    assert (s + [y])[..|s|] == s;
  }

  /** Inserting `x` places it after every earlier element of the same key. */
  lemma {:induction false} InsertFilter<T>(s: seq<T>, x: T, key: T -> real, v: real)
    requires SortedBy(s, key)
    ensures FilterKey(Insert(s, x, key), key, v) == FilterKey(s, key, v) + KeyMatch(x, key, v)
    decreases |s|
  {
    if |s| > 0 && key(x) < key(s[|s| - 1]) {
      var init := s[..|s| - 1];
      SortedInit(s, key);
      InsertFilter(init, x, key, v);
      InsertFilterStep(init, s[|s| - 1], x, key, v, Insert(init, x, key));
      assert Insert(s, x, key) == Insert(init, x, key) + [s[|s| - 1]];
      InitLast(s);
    } else {
      assert Insert(s, x, key) == s + [x];
      FilterSnoc(s, x, key, v);
    }
  }

  lemma InitLast<T>(s: seq<T>)
    requires |s| > 0
    ensures s[..|s| - 1] + [s[|s| - 1]] == s
  {
  }

  /** The recursive case of `InsertFilter`: putting `last` back after `x`
      keeps every key's order, because the two cannot share the key `v`. */
  lemma InsertFilterStep<T>(init: seq<T>, last: T, x: T, key: T -> real, v: real, r0: seq<T>)
    requires key(x) < key(last)
    requires FilterKey(r0, key, v) == FilterKey(init, key, v) + KeyMatch(x, key, v)
    ensures FilterKey(r0 + [last], key, v) == FilterKey(init + [last], key, v) + KeyMatch(x, key, v)
  {
    FilterSnoc(r0, last, key, v);
    FilterSnoc(init, last, key, v);
    SwapDisjoint(FilterKey(init, key, v), KeyMatch(x, key, v), KeyMatch(last, key, v));
  }

  /** Two pieces of which at least one is empty can be appended in either order. */
  lemma SwapDisjoint<T>(a: seq<T>, xs: seq<T>, ls: seq<T>)
    requires xs == [] || ls == []
    ensures (a + xs) + ls == (a + ls) + xs
  {
    if xs == [] {
      assert a + xs == a;
      assert (a + ls) + xs == a + ls;
    } else {
      assert a + ls == a;
      assert (a + xs) + ls == a + xs;
    }
  }

  /** `sorted` is stable: the elements of each key keep their input order. */
  lemma {:induction false} SortByStable<T>(s: seq<T>, key: T -> real, v: real)
    ensures FilterKey(SortBy(s, key), key, v) == FilterKey(s, key, v)
    decreases |s|
  {
    if |s| > 0 {
      var init := s[..|s| - 1];
      SortByStable(init, key, v);
      InsertFilter(SortBy(init, key), s[|s| - 1], key, v);
    }
  }

  /** The sorted sequence holds exactly the elements of the input. */
  lemma SortByMembers<T>(s: seq<T>, key: T -> real, e: T)
    ensures e in SortBy(s, key) <==> e in s
  {
    var r := SortBy(s, key);
    assert e in r <==> e in multiset(r);
    assert e in s <==> e in multiset(s);
  }
}
