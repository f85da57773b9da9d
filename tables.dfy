/**
 * collections.Counter over string keys, as the analyzer uses it: `c[k] += n`,
 * `c.update(other)`, `c.most_common(n)`, plus the stable descending sort that
 * both `most_common` and `list.sort(key=..., reverse=True)` perform.
 *
 * A Counter remembers the order in which keys were first inserted (a Python
 * dict does), because `most_common` breaks ties in that order.
 */
module Tables {

  import opened Seqs

  /** No element occurs twice. */
  ghost predicate Distinct<T>(s: seq<T>) {
    forall i, j :: 0 <= i < j < |s| ==> s[i] != s[j]
  }

  /** No element of a occurs in b. */
  ghost predicate Disjoint<T>(a: seq<T>, b: seq<T>) {
    forall i, j :: 0 <= i < |a| && 0 <= j < |b| ==> a[i] != b[j]
  }

  lemma {:induction false} DistinctConcat<T>(a: seq<T>, b: seq<T>)
    requires Distinct(a) && Distinct(b) && Disjoint(a, b)
    ensures Distinct(a + b)
  {
    forall i, j | 0 <= i < j < |a + b|
      ensures (a + b)[i] != (a + b)[j]
    {
      if j >= |a| {
        assert (a + b)[j] == b[j - |a|];
        if i >= |a| {
          assert (a + b)[i] == b[i - |a|];
        }
      }
    }
  }

  lemma {:induction false} DisjointConcat<T>(a: seq<T>, b: seq<T>, c: seq<T>)
    requires Disjoint(a, c) && Disjoint(b, c)
    ensures Disjoint(a + b, c)
  {
    forall i, j | 0 <= i < |a + b| && 0 <= j < |c|
      ensures (a + b)[i] != c[j]
    {
      if i >= |a| {
        assert (a + b)[i] == b[i - |a|];
      }
    }
  }

  /** In a sequence without repeats every element occurs once. */
  lemma {:induction false} DistinctOnce<T>(s: seq<T>, x: T)
    requires Distinct(s)
    ensures multiset(s)[x] == if x in s then 1 else 0
    decreases |s|
  {
    if s != [] {
      var init, last := s[..|s| - 1], s[|s| - 1];
      assert s == init + [last];
      assert Distinct(init);
      DistinctOnce(init, x);
      assert x in s <==> x in init || x == last;
      if x == last {
        assert x !in init;
      }
    }
  }

  /** A Counter: its keys in first-insertion order and the count of each. */
  datatype Counter = Counter(keys: seq<string>, counts: map<string, nat>) {

    ghost predicate Valid() {
      Distinct(keys) && forall k :: k in counts <==> k in keys
    }

    /** c[k]: a missing key counts 0. */
    function Get(k: string): nat {
      if k in counts then counts[k] else 0
    }

    /** c[k] += n: a new key is appended to the insertion order. */
    function Add(k: string, n: nat): (c: Counter)
      requires Valid()
      ensures c.Valid()
      ensures c.Get(k) == Get(k) + n
      ensures forall j :: j != k ==> c.Get(j) == Get(j)
      ensures c.keys == if k in keys then keys else keys + [k]
    {
      if k in counts then Counter(keys, counts[k := counts[k] + n])
      else Counter(keys + [k], counts[k := n])
    }

    /** c.items(): the (key, count) pairs in insertion order. */
    function Items(): (r: seq<(string, nat)>)
      requires Valid()
      ensures |r| == |keys|
      ensures forall i :: 0 <= i < |r| ==> r[i] == (keys[i], Get(keys[i]))
    {
      seq(|keys|, i requires 0 <= i < |keys| => (keys[i], Get(keys[i])))
    }
  }

  /** Counter(): no keys. */
  const Empty: Counter := Counter([], map[])

  lemma {:induction false} EmptyValid()
    ensures Empty.Valid() && forall k :: Empty.Get(k) == 0
  {
  }

  /** a.update(b) for two Counters: b's keys, in b's order, are added one by one. */
  function Merge(a: Counter, b: Counter): (r: Counter)
    requires a.Valid() && b.Valid()
    ensures r.Valid()
  {
    MergeKeys(a, b, b.keys)
  }

  /** The first |ks| steps of a.update(b) when b's keys are ks. */
  function MergeKeys(a: Counter, b: Counter, ks: seq<string>): (r: Counter)
    requires a.Valid()
    ensures r.Valid()
    decreases |ks|
  {
    if ks == [] then a
    else MergeKeys(a, b, ks[..|ks| - 1]).Add(ks[|ks| - 1], b.Get(ks[|ks| - 1]))
  }

  lemma {:induction false} MergeKeysCounts(a: Counter, b: Counter, ks: seq<string>, k: string)
    requires a.Valid() && Distinct(ks)
    ensures MergeKeys(a, b, ks).Get(k) == a.Get(k) + (if k in ks then b.Get(k) else 0)
    ensures k in MergeKeys(a, b, ks).keys <==> k in a.keys || k in ks
    decreases |ks|
  {
    if ks != [] {
      var init := ks[..|ks| - 1];
      assert Distinct(init);
      MergeKeysCounts(a, b, init, k);
      assert k in ks <==> k in init || k == ks[|ks| - 1];
      if k == ks[|ks| - 1] {
        assert k !in init;
      }
    }
  }

  /** Combining two Counters adds their counts key by key and loses no key. */
  lemma {:induction false} MergeCounts(a: Counter, b: Counter, k: string)
    requires a.Valid() && b.Valid()
    ensures Merge(a, b).Get(k) == a.Get(k) + b.Get(k)
    ensures k in Merge(a, b).keys <==> k in a.keys || k in b.keys
  {
    MergeKeysCounts(a, b, b.keys, k);
  }

  /** Updating with an empty Counter changes nothing. */
  lemma {:induction false} MergeEmptyRight(a: Counter)
    requires a.Valid()
    ensures Merge(a, Empty) == a
  {
  }

  /** Updating an empty Counter with distinct keys ks inserts exactly ks, in order. */
  lemma {:induction false} MergeKeysFromEmpty(b: Counter, ks: seq<string>)
    requires Distinct(ks)
    ensures MergeKeys(Empty, b, ks).keys == ks
    decreases |ks|
  {
    if ks != [] {
      var init, x := ks[..|ks| - 1], ks[|ks| - 1];
      assert Distinct(init);
      MergeKeysFromEmpty(b, init);
      assert x !in init;
      assert init + [x] == ks;
    }
  }

  /** Updating an empty Counter with b gives b itself, keys in b's order. */
  lemma {:induction false} MergeEmptyLeft(b: Counter)
    requires b.Valid()
    ensures Merge(Empty, b) == b
  {
    var r := Merge(Empty, b);
    MergeKeysFromEmpty(b, b.keys);
    forall k
      ensures r.Get(k) == b.Get(k)
    {
      MergeCounts(Empty, b, k);
    }
    CounterEquality(r, b);
  }

  /** Two valid Counters with the same key order and the same counts are equal. */
  lemma {:induction false} CounterEquality(r: Counter, b: Counter)
    requires r.Valid() && b.Valid() && r.keys == b.keys
    requires forall k :: r.Get(k) == b.Get(k)
    ensures r == b
  {
    forall k | k in r.counts
      ensures k in b.counts && r.counts[k] == b.counts[k]
    {
      assert r.Get(k) == b.Get(k);
    }
    assert r.counts == b.counts;
  }

  // ---------------------------------------------------------------------------
  // Stable descending sort (Python's sorted(..., key=key, reverse=True))

  ghost predicate SortedDesc<T>(s: seq<T>, key: T -> nat) {
    forall i, j :: 0 <= i < j < |s| ==> key(s[i]) >= key(s[j])
  }

  /** Appending an element no larger than any before it keeps a sequence sorted. */
  lemma {:induction false} SortedSnoc<T>(s: seq<T>, x: T, key: T -> nat)
    requires SortedDesc(s, key) && forall i :: 0 <= i < |s| ==> key(s[i]) >= key(x)
    ensures SortedDesc(s + [x], key)
  {
    var r := s + [x];
    forall i, j | 0 <= i < j < |r|
      ensures key(r[i]) >= key(r[j])
    {
      assert r[i] == s[i];
      if j < |s| {
        assert r[j] == s[j];
      }
    }
  }

  /** The elements of s whose key is v, in their order in s. */
  function WithKey<T>(s: seq<T>, key: T -> nat, v: nat): seq<T> {
    if s == [] then []
    else WithKey(s[..|s| - 1], key, v) + (if key(s[|s| - 1]) == v then [s[|s| - 1]] else [])
  }

  lemma {:induction false} WithKeyConcat<T>(a: seq<T>, b: seq<T>, key: T -> nat, v: nat)
    ensures WithKey(a + b, key, v) == WithKey(a, key, v) + WithKey(b, key, v)
    decreases |b|
  {
    if b == [] {
      assert a + b == a;
    } else {
      var b' := b[..|b| - 1];
      WithKeyConcat(a, b', key, v);
      assert (a + b)[..|a + b| - 1] == a + b';
    }
  }

  lemma {:induction false} WithKeyNone<T>(s: seq<T>, key: T -> nat, v: nat)
    requires forall i :: 0 <= i < |s| ==> key(s[i]) < v
    ensures WithKey(s, key, v) == []
    decreases |s|
  {
    if s != [] {
      WithKeyNone(s[..|s| - 1], key, v);
    }
  }

  /** Insert x after every element whose key is at least x's: the insertion step of a stable sort. */
  function InsertDesc<T(==)>(s: seq<T>, x: T, key: T -> nat): (r: seq<T>)
    ensures |r| == |s| + 1
    ensures multiset(r) == multiset(s) + multiset{x}
    decreases |s|
  {
    if s == [] then [x]
    else if key(s[0]) >= key(x) then
      assert s == [s[0]] + s[1..];
      [s[0]] + InsertDesc(s[1..], x, key)
    else [x] + s
  }

  lemma {:induction false} InsertSorted<T>(s: seq<T>, x: T, key: T -> nat)
    requires SortedDesc(s, key)
    ensures SortedDesc(InsertDesc(s, x, key), key)
    decreases |s|
  {
    if s != [] && key(s[0]) >= key(x) {
      var tail := InsertDesc(s[1..], x, key);
      InsertSorted(s[1..], x, key);
      InsertElements(s[1..], x, key);
      forall j | 0 <= j < |tail|
        ensures key(tail[j]) <= key(s[0])
      {
        assert tail[j] in InsertDesc(s[1..], x, key);
        if tail[j] != x {
          var m :| 0 <= m < |s[1..]| && s[1..][m] == tail[j];
          assert s[m + 1] == tail[j];
        }
      }
    }
  }

  /** Every element after insertion is x or an element of s. */
  lemma {:induction false} InsertElements<T>(s: seq<T>, x: T, key: T -> nat)
    ensures forall y :: y in InsertDesc(s, x, key) ==> y == x || y in s
    decreases |s|
  {
    if s != [] && key(s[0]) >= key(x) {
      InsertElements(s[1..], x, key);
      assert InsertDesc(s, x, key) == [s[0]] + InsertDesc(s[1..], x, key);
      assert forall y :: y in s[1..] ==> y in s;
    }
  }

  /** Insertion keeps the equal-key elements of s in order and puts x after them. */
  lemma {:induction false} InsertStable<T>(s: seq<T>, x: T, key: T -> nat, v: nat)
    requires SortedDesc(s, key)
    ensures WithKey(InsertDesc(s, x, key), key, v) == WithKey(s, key, v) + WithKey([x], key, v)
    decreases |s|
  {
    if s == [] {
      assert [x][..0] == [];
    } else if key(s[0]) >= key(x) {
      assert SortedDesc(s[1..], key);
      InsertStable(s[1..], x, key, v);
      InsertStablePast(s, x, key, v);
    } else {
      InsertStableFront(s, x, key, v);
    }
  }

  /** The step of InsertStable where x goes past the first element. */
  lemma {:induction false} InsertStablePast<T>(s: seq<T>, x: T, key: T -> nat, v: nat)
    requires s != [] && key(s[0]) >= key(x)
    requires WithKey(InsertDesc(s[1..], x, key), key, v) == WithKey(s[1..], key, v) + WithKey([x], key, v)
    ensures WithKey(InsertDesc(s, x, key), key, v) == WithKey(s, key, v) + WithKey([x], key, v)
  {
    var head, tail := [s[0]], s[1..];
    var wh, wt, wx := WithKey(head, key, v), WithKey(tail, key, v), WithKey([x], key, v);
    assert InsertDesc(s, x, key) == head + InsertDesc(tail, x, key);
    WithKeyConcat(head, InsertDesc(tail, x, key), key, v);
    assert s == head + tail;
    WithKeyConcat(head, tail, key, v);
    assert wh + (wt + wx) == (wh + wt) + wx;
  }

  /** The step of InsertStable where x goes first: no element of s has x's key. */
  lemma {:induction false} InsertStableFront<T>(s: seq<T>, x: T, key: T -> nat, v: nat)
    requires SortedDesc(s, key) && s != [] && key(s[0]) < key(x)
    ensures WithKey(InsertDesc(s, x, key), key, v) == WithKey(s, key, v) + WithKey([x], key, v)
  {
    assert InsertDesc(s, x, key) == [x] + s;
    WithKeyConcat([x], s, key, v);
    assert WithKey([x], key, v) == (if key(x) == v then [x] else []) by {
      assert [x][..0] == [];
    }
    if key(x) == v {
      assert forall i :: 0 <= i < |s| ==> key(s[i]) <= key(s[0]);
      WithKeyNone(s, key, v);
    } else {
      assert WithKey([x], key, v) == [];
    }
  }

  /** InsertDesc appends x when nothing before it has a smaller key. */
  lemma {:induction false} InsertAtEnd<T>(s: seq<T>, x: T, key: T -> nat)
    requires forall i :: 0 <= i < |s| ==> key(s[i]) >= key(x)
    ensures InsertDesc(s, x, key) == s + [x]
    decreases |s|
  {
    if s != [] {
      InsertAtEnd(s[1..], x, key);
      assert s == [s[0]] + s[1..];
    }
  }

  /** Insertion sort: sorted by descending key, a permutation of the input. */
  function SortDesc<T(==)>(s: seq<T>, key: T -> nat): (r: seq<T>)
    ensures |r| == |s|
    ensures multiset(r) == multiset(s)
    ensures SortedDesc(r, key)
  {
    if s == [] then []
    else
      LastSplit(s);
      InsertSorted(SortDesc(s[..|s| - 1], key), s[|s| - 1], key);
      InsertDesc(SortDesc(s[..|s| - 1], key), s[|s| - 1], key)
  }

  /** The sort is stable: the elements sharing a key keep their relative order. */
  lemma {:induction false} SortStable<T>(s: seq<T>, key: T -> nat, v: nat)
    ensures WithKey(SortDesc(s, key), key, v) == WithKey(s, key, v)
    decreases |s|
  {
    if s != [] {
      var init, last := s[..|s| - 1], s[|s| - 1];
      SortStable(init, key, v);
      InsertStable(SortDesc(init, key), last, key, v);
      assert WithKey([last], key, v) == (if key(last) == v then [last] else []) by {
        assert [last][..0] == [];
      }
    }
  }

  /** Sorting an already sorted sequence leaves it as it is. */
  lemma {:induction false} SortSortedUnchanged<T>(s: seq<T>, key: T -> nat)
    requires SortedDesc(s, key)
    ensures SortDesc(s, key) == s
    decreases |s|
  {
    if s != [] {
      var init, last := s[..|s| - 1], s[|s| - 1];
      assert SortedDesc(init, key);
      assert forall i :: 0 <= i < |init| ==> init[i] == s[i];
      assert forall i :: 0 <= i < |init| ==> key(init[i]) >= key(last);
      SortSortedUnchanged(init, key);
      assert SortDesc(s, key) == InsertDesc(SortDesc(init, key), last, key);
      InsertAtEnd(init, last, key);
      LastSplit(s);
    }
  }

  /** A Python slice s[:n]. */
  function Take<T>(s: seq<T>, n: nat): (r: seq<T>)
    ensures |r| == if |s| <= n then |s| else n
    ensures forall i :: 0 <= i < |r| ==> r[i] == s[i]
  {
    if |s| <= n then s else s[..n]
  }

  /** A prefix of a sorted sequence is sorted and holds only elements of it. */
  lemma {:induction false} TakeSorted<T>(s: seq<T>, n: nat, key: T -> nat)
    requires SortedDesc(s, key)
    ensures SortedDesc(Take(s, n), key)
    ensures forall x :: x in Take(s, n) ==> x in s
  {
  }

  ghost predicate IsPrefix<T>(p: seq<T>, s: seq<T>) {
    |p| <= |s| && s[..|p|] == p
  }

  lemma {:induction false} WithKeyTake<T>(s: seq<T>, n: nat, key: T -> nat, v: nat)
    ensures IsPrefix(WithKey(Take(s, n), key, v), WithKey(s, key, v))
  {
    if |s| > n {
      WithKeyConcat(s[..n], s[n..], key, v);
      assert s[..n] + s[n..] == s;
    }
  }

  function Count(p: (string, nat)): nat {
    p.1
  }

  /** c.most_common(n): the n largest counts, ties in insertion order. */
  function MostCommon(c: Counter, n: nat): seq<(string, nat)>
    requires c.Valid()
  {
    Take(SortDesc(c.Items(), Count), n)
  }

  /**
   * most_common(n) returns min(n, |keys|) pairs, each a key with its count,
   * in descending count order; every key left out has no more than any key kept;
   * among keys of equal count it keeps the earliest inserted, in insertion order.
   */
  lemma {:induction false} MostCommonSpec(c: Counter, n: nat)
    requires c.Valid()
    ensures |MostCommon(c, n)| == if |c.keys| <= n then |c.keys| else n
    ensures SortedDesc(MostCommon(c, n), Count)
    ensures forall i :: 0 <= i < |MostCommon(c, n)| ==>
      MostCommon(c, n)[i].0 in c.keys && MostCommon(c, n)[i].1 == c.Get(MostCommon(c, n)[i].0)
    ensures forall k, i :: k in c.keys && (k, c.Get(k)) !in MostCommon(c, n) && 0 <= i < |MostCommon(c, n)| ==>
      MostCommon(c, n)[i].1 >= c.Get(k)
    ensures forall v :: IsPrefix(WithKey(MostCommon(c, n), Count, v), WithKey(c.Items(), Count, v))
  {
    MostCommonEntries(c, n);
    MostCommonDominates(c, n);
    forall v
      ensures IsPrefix(WithKey(MostCommon(c, n), Count, v), WithKey(c.Items(), Count, v))
    {
      WithKeyTake(SortDesc(c.Items(), Count), n, Count, v);
      SortStable(c.Items(), Count, v);
    }
  }

  /** Every pair most_common returns is a key of the Counter with its count. */
  lemma {:induction false} MostCommonEntries(c: Counter, n: nat)
    requires c.Valid()
    ensures forall i :: 0 <= i < |MostCommon(c, n)| ==>
      MostCommon(c, n)[i].0 in c.keys && MostCommon(c, n)[i].1 == c.Get(MostCommon(c, n)[i].0)
  {
    var items := c.Items();
    var sorted := SortDesc(items, Count);
    var r := MostCommon(c, n);
    forall i | 0 <= i < |r|
      ensures r[i].0 in c.keys && r[i].1 == c.Get(r[i].0)
    {
      assert r[i] == sorted[i];
      assert sorted[i] in multiset(items);
      var j :| 0 <= j < |items| && items[j] == sorted[i];
    }
  }

  /** No key that most_common leaves out has a larger count than one it returns. */
  lemma {:induction false} MostCommonDominates(c: Counter, n: nat)
    requires c.Valid()
    ensures forall k, i :: k in c.keys && (k, c.Get(k)) !in MostCommon(c, n) && 0 <= i < |MostCommon(c, n)| ==>
      MostCommon(c, n)[i].1 >= c.Get(k)
  {
    var items := c.Items();
    var sorted := SortDesc(items, Count);
    var r := MostCommon(c, n);
    assert forall p :: 0 <= p < |r| ==> sorted[p] == r[p];
    forall k, i | k in c.keys && (k, c.Get(k)) !in r && 0 <= i < |r|
      ensures r[i].1 >= c.Get(k)
    {
      var j :| 0 <= j < |c.keys| && c.keys[j] == k;
      assert items[j] == (k, c.Get(k));
      assert (k, c.Get(k)) in multiset(sorted);
      var m :| 0 <= m < |sorted| && sorted[m] == (k, c.Get(k));
      assert m >= |r|;
      assert r[i] == sorted[i];
    }
  }
}
