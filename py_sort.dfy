/** Python 2 `list.sort(key=...)` with the key `x.get('index')`: a stable sort
    on keys that are either None (no `index` field) or a string. Python 2
    orders None before every string and strings lexicographically. */
module PySort {
  import opened Outcome
  import opened PyString

  /** The value of `d.get('index')`. */
  type Key = Option<string>

  /** Python 2 `a <= b` on sort keys. */
  predicate KeyLe(a: Key, b: Key)
    ensures a.None? ==> KeyLe(a, b)
    ensures a.Some? && b.None? ==> !KeyLe(a, b)
    ensures a.Some? && b.Some? ==> (KeyLe(a, b) <==> LexLe(a.value, b.value))
  {
    a.None? || (b.Some? && LexLe(a.value, b.value))
  }

  lemma KeyLeReflexive(a: Key)
    ensures KeyLe(a, a)
  {
    if a.Some? {
      LexLeReflexive(a.value);
    }
  }

  lemma KeyLeTotal(a: Key, b: Key)
    ensures KeyLe(a, b) || KeyLe(b, a)
  {
    if a.Some? && b.Some? {
      LexLeTotal(a.value, b.value);
    }
  }

  lemma KeyLeTransitive(a: Key, b: Key, c: Key)
    requires KeyLe(a, b) && KeyLe(b, c)
    ensures KeyLe(a, c)
  {
    if a.Some? {
      LexLeTransitive(a.value, b.value, c.value);
    }
  }

  lemma KeyLeAntisymmetric(a: Key, b: Key)
    requires KeyLe(a, b) && KeyLe(b, a)
    ensures a == b
  {
    if a.Some? {
      LexLeAntisymmetric(a.value, b.value);
    }
  }

  /** Every element's key is at most the key of every later element. */
  ghost predicate SortedBy<T>(s: seq<T>, key: T -> Key)
  {
    forall i, j :: 0 <= i < j < |s| ==> KeyLe(key(s[i]), key(s[j]))
  }

  /** The elements of `s` whose key is `k`, in their order in `s`. A sort is
      stable exactly when it keeps every such subsequence unchanged. */
  function Filter<T>(s: seq<T>, key: T -> Key, k: Key): seq<T>
  {
    if |s| == 0 then []
    else (if key(s[0]) == k then [s[0]] else []) + Filter(s[1..], key, k)
  }

  /** Inserts `x` before the first element whose key is not smaller. */
  function Insert<T>(x: T, s: seq<T>, key: T -> Key): seq<T>
  {
    if |s| == 0 then [x]
    else if KeyLe(key(x), key(s[0])) then [x] + s
    else [s[0]] + Insert(x, s[1..], key)
  }

  /** The list as `list.sort(key=key)` leaves it: a stable insertion sort,
      one element per element of the input. */
  function SortBy<T>(s: seq<T>, key: T -> Key): (r: seq<T>)
    ensures |r| == |s|
  {
    if |s| == 0 then []
    else
      var rest := SortBy(s[1..], key);
      InsertPermutes(s[0], rest, key);
      assert |multiset(Insert(s[0], rest, key))| == |rest| + 1;
      Insert(s[0], rest, key)
  }

  lemma {:induction false} InsertPermutes<T>(x: T, s: seq<T>, key: T -> Key)
    ensures multiset(Insert(x, s, key)) == multiset(s) + multiset{x}
  {
    if |s| > 0 && !KeyLe(key(x), key(s[0])) {
      InsertPermutes(x, s[1..], key);
      assert s == [s[0]] + s[1..];
    }
  }

  /** Sorting rearranges the list: the same elements, each as often. */
  lemma {:induction false} SortByPermutes<T>(s: seq<T>, key: T -> Key)
    ensures multiset(SortBy(s, key)) == multiset(s)
  {
    if |s| > 0 {
      SortByPermutes(s[1..], key);
      InsertPermutes(s[0], SortBy(s[1..], key), key);
      assert s == [s[0]] + s[1..];
    }
  }

  lemma {:induction false} InsertSorted<T>(x: T, s: seq<T>, key: T -> Key)
    requires SortedBy(s, key)
    ensures SortedBy(Insert(x, s, key), key)
  {
    if |s| == 0 {
    } else if KeyLe(key(x), key(s[0])) {
      forall j | 0 < j < |s| + 1
        ensures KeyLe(key(x), key(([x] + s)[j]))
      {
        if j > 1 {
          KeyLeTransitive(key(x), key(s[0]), key(s[j - 1]));
        }
      }
    } else {
      KeyLeTotal(key(x), key(s[0]));
      var tail := Insert(x, s[1..], key);
      InsertSorted(x, s[1..], key);
      InsertPermutes(x, s[1..], key);
      forall j | 0 <= j < |tail|
        ensures KeyLe(key(s[0]), key(tail[j]))
      {
        assert tail[j] in multiset(s[1..]) + multiset{x};
        if tail[j] != x {
          assert tail[j] in s[1..];
        }
      }
    }
  }

  /** The sorted list is in non-decreasing key order. */
  lemma {:induction false} SortBySorted<T>(s: seq<T>, key: T -> Key)
    ensures SortedBy(SortBy(s, key), key)
  {
    if |s| > 0 {
      SortBySorted(s[1..], key);
      InsertSorted(s[0], SortBy(s[1..], key), key);
    }
  }

  lemma {:induction false} InsertFilter<T>(x: T, s: seq<T>, key: T -> Key, k: Key)
    ensures Filter(Insert(x, s, key), key, k) ==
            (if key(x) == k then [x] else []) + Filter(s, key, k)
  {
    if |s| == 0 {
    } else if KeyLe(key(x), key(s[0])) {
      assert Insert(x, s, key) == [x] + s;
      assert ([x] + s)[1..] == s;
    } else {
      var t := Insert(x, s[1..], key);
      assert Insert(x, s, key) == [s[0]] + t;
      assert ([s[0]] + t)[1..] == t;
      InsertFilter(x, s[1..], key, k);
      KeyLeReflexive(key(x));
      assert key(x) != key(s[0]);
      var hx := if key(x) == k then [x] else [];
      var h0 := if key(s[0]) == k then [s[0]] else [];
      assert Filter([s[0]] + t, key, k) == h0 + (hx + Filter(s[1..], key, k));
      assert Filter(s, key, k) == h0 + Filter(s[1..], key, k);
      assert h0 == [] || hx == [];
    }
  }

  /** The sort is stable: the elements that share a key keep their order. */
  lemma {:induction false} SortByStable<T>(s: seq<T>, key: T -> Key, k: Key)
    ensures Filter(SortBy(s, key), key, k) == Filter(s, key, k)
  {
    if |s| > 0 {
      SortByStable(s[1..], key, k);
      InsertFilter(s[0], SortBy(s[1..], key), key, k);
    }
  }

  lemma {:induction false} FilterWitness<T>(s: seq<T>, key: T -> Key, k: Key)
    requires |Filter(s, key, k)| > 0
    ensures exists j :: 0 <= j < |s| && key(s[j]) == k
  {
    if key(s[0]) != k {
      FilterWitness(s[1..], key, k);
      var j :| 0 <= j < |s[1..]| && key(s[1..][j]) == k;
      assert key(s[j + 1]) == k;
    }
  }

  /** A non-empty list has an element with the key of its first one. */
  lemma FilterHead<T>(s: seq<T>, key: T -> Key)
    ensures |s| > 0 ==> |Filter(s, key, key(s[0]))| > 0
  {
  }

  /** Two sorted lists with the same elements per key start alike. */
  lemma SameHead<T>(a: seq<T>, b: seq<T>, key: T -> Key)
    requires |a| > 0 && |b| > 0
    requires SortedBy(a, key) && SortedBy(b, key)
    requires forall k :: Filter(a, key, k) == Filter(b, key, k)
    ensures a[0] == b[0]
  {
    var ka, kb := key(a[0]), key(b[0]);
    FilterHead(a, key);
    FilterHead(b, key);
    assert |Filter(b, key, ka)| > 0 by { assert Filter(a, key, ka) == Filter(b, key, ka); }
    FilterWitness(b, key, ka);
    var jb :| 0 <= jb < |b| && key(b[jb]) == ka;
    assert |Filter(a, key, kb)| > 0 by { assert Filter(a, key, kb) == Filter(b, key, kb); }
    FilterWitness(a, key, kb);
    var ja :| 0 <= ja < |a| && key(a[ja]) == kb;
    KeyLeReflexive(ka);
    KeyLeReflexive(kb);
    assert KeyLe(kb, ka) by { if jb > 0 { } }
    assert KeyLe(ka, kb) by { if ja > 0 { } }
    KeyLeAntisymmetric(ka, kb);
    assert Filter(a, key, ka)[0] == a[0];
    assert Filter(b, key, ka)[0] == b[0];
    assert Filter(a, key, ka) == Filter(b, key, ka);
  }

  /** Lists with the same first element and the same elements per key have
      tails with the same elements per key. */
  lemma SameTailFilters<T>(a: seq<T>, b: seq<T>, key: T -> Key)
    requires |a| > 0 && |b| > 0 && a[0] == b[0]
    requires forall k :: Filter(a, key, k) == Filter(b, key, k)
    ensures forall k :: Filter(a[1..], key, k) == Filter(b[1..], key, k)
  {
    forall k
      ensures Filter(a[1..], key, k) == Filter(b[1..], key, k)
    {
      var head := if key(a[0]) == k then [a[0]] else [];
      assert Filter(a, key, k) == head + Filter(a[1..], key, k);
      assert Filter(b, key, k) == head + Filter(b[1..], key, k);
      assert Filter(a, key, k) == Filter(b, key, k);
      assert (head + Filter(a[1..], key, k))[|head|..] == Filter(a[1..], key, k);
      assert (head + Filter(b[1..], key, k))[|head|..] == Filter(b[1..], key, k);
    }
  }

  /** Two sorted lists in which every key has the same elements in the same
      order are equal. */
  lemma {:induction false} SortedStableUnique<T>(a: seq<T>, b: seq<T>, key: T -> Key)
    requires SortedBy(a, key) && SortedBy(b, key)
    requires forall k :: Filter(a, key, k) == Filter(b, key, k)
    ensures a == b
    decreases |a| + |b|
  {
    FilterHead(a, key);
    FilterHead(b, key);
    if |a| > 0 && |b| > 0 {
      SameHead(a, b, key);
      SameTailFilters(a, b, key);
      assert SortedBy(a[1..], key) by {
        forall i, j | 0 <= i < j < |a[1..]|
          ensures KeyLe(key(a[1..][i]), key(a[1..][j]))
        {
          assert a[1..][i] == a[i + 1] && a[1..][j] == a[j + 1];
        }
      }
      assert SortedBy(b[1..], key) by {
        forall i, j | 0 <= i < j < |b[1..]|
          ensures KeyLe(key(b[1..][i]), key(b[1..][j]))
        {
          assert b[1..][i] == b[i + 1] && b[1..][j] == b[j + 1];
        }
      }
      SortedStableUnique(a[1..], b[1..], key);
      assert a == [a[0]] + a[1..];
      assert b == [b[0]] + b[1..];
    }
  }

  /** Any stable sort gives the list `SortBy` gives: a list in key order that
      keeps the order of every group of equal keys is `SortBy(s, key)`. So
      `SortBy` stands for CPython's own stable sort without loss. */
  lemma StableSortIsSortBy<T>(s: seq<T>, r: seq<T>, key: T -> Key)
    requires SortedBy(r, key)
    requires forall k :: Filter(r, key, k) == Filter(s, key, k)
    ensures r == SortBy(s, key)
  {
    SortBySorted(s, key);
    forall k
      ensures Filter(r, key, k) == Filter(SortBy(s, key), key, k)
    {
      SortByStable(s, key, k);
    }
    SortedStableUnique(r, SortBy(s, key), key);
  }

  /** No two elements share a key, as when every `index` is unique. */
  predicate DistinctKeys<T>(s: seq<T>, key: T -> Key)
  {
    forall i, j :: 0 <= i < j < |s| ==> key(s[i]) != key(s[j])
  }

  lemma {:induction false} FilterDistinct<T>(s: seq<T>, key: T -> Key, k: Key)
    requires DistinctKeys(s, key)
    ensures forall x :: x in s && key(x) == k ==> Filter(s, key, k) == [x]
    ensures (forall x :: x in s ==> key(x) != k) ==> Filter(s, key, k) == []
  {
    if |s| > 0 {
      FilterDistinct(s[1..], key, k);
      if key(s[0]) == k {
        forall x | x in s[1..]
          ensures key(x) != k
        {
          var j :| 0 <= j < |s[1..]| && s[1..][j] == x;
          assert s[j + 1] == x;
        }
      }
    }
  }

  /** With distinct keys the sorted list does not depend on the order of the
      input: any two arrangements of the same elements sort alike. */
  lemma SortIgnoresOrder<T>(s1: seq<T>, s2: seq<T>, key: T -> Key)
    requires forall x :: x in s1 <==> x in s2
    requires DistinctKeys(s1, key) && DistinctKeys(s2, key)
    ensures SortBy(s1, key) == SortBy(s2, key)
  {
    forall k
      ensures Filter(SortBy(s1, key), key, k) == Filter(SortBy(s2, key), key, k)
    {
      SortByStable(s1, key, k);
      SortByStable(s2, key, k);
      FilterDistinct(s1, key, k);
      FilterDistinct(s2, key, k);
    }
    SortBySorted(s1, key);
    SortBySorted(s2, key);
    SortedStableUnique(SortBy(s1, key), SortBy(s2, key), key);
  }

  /** A list already in key order is left as it is. */
  lemma SortByKeepsSorted<T>(s: seq<T>, key: T -> Key)
    requires SortedBy(s, key)
    ensures SortBy(s, key) == s
  {
    StableSortIsSortBy(s, s, key);
  }
}
