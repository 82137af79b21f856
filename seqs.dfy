/** The array idioms the viewer is built from: `filter`, `map`,
    `Array.from(new Set(...))`, a `reduce` that groups into an object whose
    keys keep insertion order, and the stable `sort`. */
module Seqs {

  // ---------------------------------------------------------------- filter

  /** `r` is `s` with some elements left out, the rest in the same order. */
  ghost predicate Subsequence<T>(r: seq<T>, s: seq<T>)
  {
    r == [] || (s != [] && (if r[0] == s[0] then Subsequence(r[1..], s[1..]) else Subsequence(r, s[1..])))
  }

  /** `s.filter(p)`: the elements of `s` satisfying `p`, in order. */
  function Filter<T(==)>(s: seq<T>, p: T -> bool): (r: seq<T>)
    ensures |r| <= |s|
    ensures forall i :: 0 <= i < |r| ==> p(r[i])
  {
    if s == [] then []
    else if p(s[0]) then [s[0]] + Filter(s[1..], p)
    else Filter(s[1..], p)
  }

  /** The filter keeps each element satisfying `p` as often as it occurs
      in `s`, and nothing else. */
  lemma {:induction false} FilterCounts<T>(s: seq<T>, p: T -> bool)
    ensures multiset(Filter(s, p)) <= multiset(s)
    ensures forall x :: multiset(Filter(s, p))[x] == if p(x) then multiset(s)[x] else 0
  {
    if s != [] {
      FilterCounts(s[1..], p);
      assert s == [s[0]] + s[1..];
      assert multiset(s) == multiset{s[0]} + multiset(s[1..]);
      if p(s[0]) {
        assert multiset(Filter(s, p)) == multiset{s[0]} + multiset(Filter(s[1..], p));
      }
    }
  }

  /** An element is kept exactly when it is in `s` and satisfies `p`. */
  lemma FilterMembers<T>(s: seq<T>, p: T -> bool)
    ensures forall x :: x in Filter(s, p) <==> x in s && p(x)
  {
    FilterCounts(s, p);
    forall x ensures x in Filter(s, p) <==> x in s && p(x) {
      if x in Filter(s, p) {
        assert x in multiset(Filter(s, p));
      }
      if x in s && p(x) {
        assert x in multiset(s);
      }
    }
  }

  /** The filter keeps the order of `s`. */
  lemma {:induction false} FilterSubsequence<T>(s: seq<T>, p: T -> bool)
    ensures Subsequence(Filter(s, p), s)
  {
    if s != [] {
      FilterSubsequence(s[1..], p);
      if !p(s[0]) {
        SubsequenceSkip(Filter(s[1..], p), s);
      }
    }
  }

  /** Skipping the first element of `s` keeps a subsequence a subsequence. */
  lemma {:induction false} SubsequenceSkip<T>(r: seq<T>, s: seq<T>)
    requires s != [] && Subsequence(r, s[1..])
    ensures Subsequence(r, s)
    decreases |s|, 0
  {
    if r != [] && r[0] == s[0] {
      SubsequenceDrop(r, s[1..]);
    }
  }

  /** A subsequence whose head is dropped is still a subsequence. */
  lemma {:induction false} SubsequenceDrop<T>(r: seq<T>, s: seq<T>)
    requires r != [] && Subsequence(r, s)
    ensures Subsequence(r[1..], s)
    decreases |s|, 1
  {
    if r[0] != s[0] {
      SubsequenceDrop(r, s[1..]);
    }
    if r[1..] != [] {
      SubsequenceSkip(r[1..], s);
    }
  }

  /** Extending both sequences by the same element keeps a subsequence. */
  lemma {:induction false} SubsequenceSnoc<T>(r: seq<T>, s: seq<T>, x: T)
    requires Subsequence(r, s)
    ensures Subsequence(r + [x], s + [x])
    decreases |s|
  {
    if r == [] {
      SubsequenceSingle(s, x);
      assert r + [x] == [x];
    } else {
      assert (r + [x])[0] == r[0];
      assert (s + [x])[0] == s[0];
      assert (s + [x])[1..] == s[1..] + [x];
      if r[0] == s[0] {
        assert (r + [x])[1..] == r[1..] + [x];
        SubsequenceSnoc(r[1..], s[1..], x);
      } else {
        SubsequenceSnoc(r, s[1..], x);
      }
    }
  }

  lemma {:induction false} SubsequenceSingle<T>(s: seq<T>, x: T)
    ensures Subsequence([x], s + [x])
    decreases |s|
  {
    if s != [] && s[0] != x {
      assert (s + [x])[1..] == s[1..] + [x];
      SubsequenceSingle(s[1..], x);
    }
  }

  /** Extending only the longer sequence keeps a subsequence. */
  lemma {:induction false} SubsequenceExtend<T>(r: seq<T>, s: seq<T>, x: T)
    requires Subsequence(r, s)
    ensures Subsequence(r, s + [x])
    decreases |s|
  {
    if r != [] {
      assert (s + [x])[1..] == s[1..] + [x];
      if r[0] == s[0] {
        SubsequenceExtend(r[1..], s[1..], x);
      } else {
        SubsequenceExtend(r, s[1..], x);
      }
    }
  }

  /** Mapping a sequence with one more element maps one more element. */
  lemma MapSnoc<T, U>(s: seq<T>, x: T, f: T -> U)
    ensures Map(s + [x], f) == Map(s, f) + [f(x)]
  {
  }

  /** Filtering a concatenation filters each part. */
  lemma {:induction false} FilterAppend<T>(s: seq<T>, t: seq<T>, p: T -> bool)
    ensures Filter(s + t, p) == Filter(s, p) + Filter(t, p)
  {
    if s != [] {
      assert (s + t)[1..] == s[1..] + t;
      FilterAppend(s[1..], t, p);
    } else {
      assert s + t == t;
    }
  }

  /** A filter that keeps nothing is empty. */
  lemma {:induction false} FilterNone<T>(s: seq<T>, p: T -> bool)
    requires forall i :: 0 <= i < |s| ==> !p(s[i])
    ensures Filter(s, p) == []
  {
    if s != [] {
      FilterNone(s[1..], p);
    }
  }

  /** A filter that keeps everything is the identity. */
  lemma {:induction false} FilterAll<T>(s: seq<T>, p: T -> bool)
    requires forall i :: 0 <= i < |s| ==> p(s[i])
    ensures Filter(s, p) == s
  {
    if s != [] {
      FilterAll(s[1..], p);
    }
  }

  /** The elements of `s` whose key is `k`, in order. */
  function WithKey<T(==), K(==)>(s: seq<T>, key: T -> K, k: K): (r: seq<T>)
    ensures forall i :: 0 <= i < |r| ==> key(r[i]) == k
  {
    Filter(s, x => key(x) == k)
  }

  /** An element is in the selection exactly when it is in `s` with key `k`. */
  lemma WithKeyMembers<T, K>(s: seq<T>, key: T -> K, k: K)
    ensures forall x :: x in WithKey(s, key, k) <==> x in s && key(x) == k
  {
    FilterMembers(s, x => key(x) == k);
  }

  /** The selection keeps the order of `s`. */
  lemma WithKeySubsequence<T, K>(s: seq<T>, key: T -> K, k: K)
    ensures Subsequence(WithKey(s, key, k), s)
  {
    FilterSubsequence(s, x => key(x) == k);
  }

  /** The selection keeps every element with key `k` as often as it occurs
      in `s`, and nothing else. */
  lemma WithKeyCounts<T, K>(s: seq<T>, key: T -> K, k: K)
    ensures forall x :: multiset(WithKey(s, key, k))[x] == if key(x) == k then multiset(s)[x] else 0
  {
    FilterCounts(s, x => key(x) == k);
  }

  lemma WithKeyAppend<T, K>(s: seq<T>, x: T, key: T -> K, k: K)
    ensures WithKey(s + [x], key, k) == WithKey(s, key, k) + (if key(x) == k then [x] else [])
  {
    FilterAppend(s, [x], y => key(y) == k);
  }

  /** `s.map(f)`. */
  function Map<T, U>(s: seq<T>, f: T -> U): (r: seq<U>)
    ensures |r| == |s| && forall i :: 0 <= i < |s| ==> r[i] == f(s[i])
  {
    seq(|s|, i requires 0 <= i < |s| => f(s[i]))
  }

  // ---------------------------------------------------------------- dedupe

  predicate Distinct<T(==)>(s: seq<T>) {
    forall i, j :: 0 <= i < j < |s| ==> s[i] != s[j]
  }

  /** The position of the first occurrence of `x` in `s`. */
  function FirstIndex<T(==)>(s: seq<T>, x: T): (i: nat)
    requires x in s
    ensures i < |s| && s[i] == x && forall j :: 0 <= j < i ==> s[j] != x
  {
    if s[0] == x then 0 else 1 + FirstIndex(s[1..], x)
  }

  /** `Array.from(new Set(s))`: every distinct element once, in the order of
      its first occurrence. */
  function Dedup<T(==)>(s: seq<T>): (r: seq<T>)
    ensures Distinct(r)
    ensures forall x :: x in r ==> x in s
    ensures forall x :: x in s ==> x in r
    decreases |s|
  {
    if s == [] then []
    else
      var init := s[..|s| - 1];
      var x := s[|s| - 1];
      assert s == init + [x];
      var d := Dedup(init);
      if x in d then d else d + [x]
  }

  /** The distinct elements come in the order of their first occurrences. */
  lemma {:induction false} DedupOrder<T>(s: seq<T>)
    ensures forall i, j :: 0 <= i < j < |Dedup(s)| ==> FirstIndex(s, Dedup(s)[i]) < FirstIndex(s, Dedup(s)[j])
    decreases |s|
  {
    if s != [] {
      var init := s[..|s| - 1];
      var x := s[|s| - 1];
      assert s == init + [x];
      DedupOrder(init);
      var d := Dedup(init);
      forall y | y in init ensures FirstIndex(s, y) == FirstIndex(init, y) {
        FirstIndexPrefix(init, [x], y);
      }
      if x !in init {
        assert s[|init|] == x;
        assert FirstIndex(s, x) == |init|;
      }
    }
  }

  lemma FirstIndexPrefix<T>(s: seq<T>, t: seq<T>, y: T)
    requires y in s
    ensures FirstIndex(s + t, y) == FirstIndex(s, y)
  {
    var i := FirstIndex(s, y);
    assert (s + t)[i] == y;
  }

  // ---------------------------------------------------------------- group

  /** The keys of a list of groups, in order. */
  function Keys<T(==), K(==)>(groups: seq<(K, seq<T>)>): (ks: seq<K>)
    ensures |ks| == |groups| && forall i :: 0 <= i < |groups| ==> ks[i] == groups[i].0
  {
    Map(groups, (g: (K, seq<T>)) => g.0)
  }

  /** One step of the grouping `reduce`: append `x` to the group with key
      `k`, opening a new group at the end when there is none. */
  function AddToGroup<T(==), K(==)>(groups: seq<(K, seq<T>)>, k: K, x: T): (r: seq<(K, seq<T>)>)
    requires Distinct(Keys(groups))
    ensures k in Keys(groups) ==> Keys(r) == Keys(groups)
    ensures k !in Keys(groups) ==> Keys(r) == Keys(groups) + [k]
    ensures forall i :: 0 <= i < |groups| ==>
      r[i].1 == if groups[i].0 == k then groups[i].1 + [x] else groups[i].1
    ensures k !in Keys(groups) ==> r[|groups|].1 == [x]
  {
    if k in Keys(groups) then
      var j := FirstIndex(Keys(groups), k);
      var r := groups[j := (k, groups[j].1 + [x])];
      assert Keys(r) == Keys(groups);
      r
    else
      var r := groups + [(k, [x])];
      assert Keys(r) == Keys(groups) + [k];
      r
  }

  /** `s.reduce((acc, x) => { (acc[key(x)] ||= []).push(x); return acc }, {})`
      read as its list of entries in insertion order. */
  function GroupBy<T(==), K(==)>(s: seq<T>, key: T -> K): (groups: seq<(K, seq<T>)>)
    ensures Distinct(Keys(groups))
    decreases |s|
  {
    if s == [] then []
    else AddToGroup(GroupBy(s[..|s| - 1], key), key(s[|s| - 1]), s[|s| - 1])
  }

  /** The keys of the grouping are the distinct keys of `s` in first-occurrence
      order, and each group holds exactly the elements with its key, in the
      order of `s`. */
  lemma GroupByCorrect<T, K>(s: seq<T>, key: T -> K)
    ensures Keys(GroupBy(s, key)) == Dedup(Map(s, key))
    ensures forall i :: 0 <= i < |GroupBy(s, key)| ==>
      GroupBy(s, key)[i].1 == WithKey(s, key, GroupBy(s, key)[i].0)
  {
    GroupByKeys(s, key);
    GroupByGroups(s, key);
  }

  lemma {:induction false} GroupByKeys<T, K>(s: seq<T>, key: T -> K)
    ensures Keys(GroupBy(s, key)) == Dedup(Map(s, key))
    decreases |s|
  {
    if s != [] {
      var init := s[..|s| - 1];
      GroupByKeys(init, key);
      var m := Map(s, key);
      assert m[..|m| - 1] == Map(init, key);
      assert m[|m| - 1] == key(s[|s| - 1]);
    }
  }

  /** Each group holds exactly the elements of `s` with its key. */
  predicate GroupsHold<T(==), K(==)>(groups: seq<(K, seq<T>)>, s: seq<T>, key: T -> K) {
    forall i :: 0 <= i < |groups| ==> groups[i].1 == WithKey(s, key, groups[i].0)
  }

  lemma {:induction false} GroupByGroups<T, K>(s: seq<T>, key: T -> K)
    ensures GroupsHold(GroupBy(s, key), s, key)
    decreases |s|
  {
    if s != [] {
      var init := s[..|s| - 1];
      var x := s[|s| - 1];
      GroupByGroups(init, key);
      GroupByKeys(init, key);
      LastSplit(s);
      var g := GroupBy(init, key);
      assert GroupBy(s, key) == AddToGroup(g, key(x), x);
      AddToGroupStep(g, init, x, key);
    }
  }

  /** One more element: the groups of `init` extended by `x` are the groups
      of `init + [x]`. */
  lemma AddToGroupStep<T, K>(g: seq<(K, seq<T>)>, init: seq<T>, x: T, key: T -> K)
    requires Distinct(Keys(g))
    requires Keys(g) == Dedup(Map(init, key))
    requires GroupsHold(g, init, key)
    ensures GroupsHold(AddToGroup(g, key(x), x), init + [x], key)
  {
    var r := AddToGroup(g, key(x), x);
    forall i | 0 <= i < |r| ensures r[i].1 == WithKey(init + [x], key, r[i].0) {
      WithKeyAppend(init, x, key, r[i].0);
      if i < |g| {
        assert Keys(r)[i] == Keys(g)[i];
      } else {
        assert Keys(r)[i] == key(x) && key(x) !in Keys(g);
        NoKeyNoElements(init, key, key(x));
      }
    }
  }

  /** A non-empty sequence is its front followed by its last element. */
  lemma LastSplit<T>(s: seq<T>)
    requires s != []
    ensures s == s[..|s| - 1] + [s[|s| - 1]]
  {
  }

  /** A key that no element has selects nothing. */
  lemma NoKeyNoElements<T, K>(s: seq<T>, key: T -> K, k: K)
    requires k !in Map(s, key)
    ensures WithKey(s, key, k) == []
  {
    assert forall i :: 0 <= i < |s| ==> Map(s, key)[i] == key(s[i]);
    FilterNone(s, x => key(x) == k);
  }

  /** Every element lies in exactly one group: the one for its key. */
  lemma GroupByPartition<T, K>(s: seq<T>, key: T -> K, x: T)
    requires x in s
    ensures key(x) in Keys(GroupBy(s, key))
    ensures forall i :: 0 <= i < |GroupBy(s, key)| ==>
      (x in GroupBy(s, key)[i].1 <==> GroupBy(s, key)[i].0 == key(x))
  {
    GroupByCorrect(s, key);
    var g := GroupBy(s, key);
    var j :| 0 <= j < |s| && s[j] == x;
    assert Map(s, key)[j] == key(x);
    forall i | 0 <= i < |g| ensures x in g[i].1 <==> g[i].0 == key(x) {
      WithKeyMembers(s, key, g[i].0);
    }
  }

  // ---------------------------------------------------------------- counts

  /** The sizes of the groups of `s` for each of `keys`, summed. */
  function SumOfCounts<T(==), K(==)>(s: seq<T>, key: T -> K, keys: seq<K>): nat
  {
    if keys == [] then 0 else |WithKey(s, key, keys[0])| + SumOfCounts(s, key, keys[1..])
  }

  /** Counting each distinct key once counts every element exactly once. */
  lemma {:induction false} SumOfCountsIsLength<T, K>(s: seq<T>, key: T -> K, keys: seq<K>)
    requires Distinct(keys)
    requires forall i :: 0 <= i < |s| ==> key(s[i]) in keys
    ensures SumOfCounts(s, key, keys) == |s|
    decreases |s|
  {
    if s != [] {
      var init := s[..|s| - 1];
      var x := s[|s| - 1];
      assert s == init + [x];
      SumOfCountsIsLength(init, key, keys);
      SumOfCountsSnoc(init, x, key, keys);
    } else {
      SumOfCountsEmpty(key, keys);
    }
  }

  lemma {:induction false} SumOfCountsEmpty<T, K>(key: T -> K, keys: seq<K>)
    ensures SumOfCounts([], key, keys) == 0
  {
    if keys != [] {
      SumOfCountsEmpty(key, keys[1..]);
    }
  }

  lemma {:induction false} SumOfCountsSnoc<T, K>(s: seq<T>, x: T, key: T -> K, keys: seq<K>)
    requires Distinct(keys)
    ensures SumOfCounts(s + [x], key, keys) == SumOfCounts(s, key, keys) + (if key(x) in keys then 1 else 0)
  {
    if keys != [] {
      WithKeyAppend(s, x, key, keys[0]);
      SumOfCountsSnoc(s, x, key, keys[1..]);
      assert key(x) in keys <==> key(x) == keys[0] || key(x) in keys[1..];
    }
  }

  // ---------------------------------------------------------------- sort

  /** `le` is a total preorder: what a consistent sort comparator gives. */
  ghost predicate TotalPreorder<T(!new)>(le: (T, T) -> bool) {
    && (forall a, b :: le(a, b) || le(b, a))
    && (forall a, b, c :: le(a, b) && le(b, c) ==> le(a, c))
  }

  ghost predicate SortedBy<T>(s: seq<T>, le: (T, T) -> bool) {
    forall i, j :: 0 <= i < j < |s| ==> le(s[i], s[j])
  }

  /** Places `x` before the first element it is not above. */
  function Insert<T(==)>(x: T, s: seq<T>, le: (T, T) -> bool): (r: seq<T>)
    ensures multiset(r) == multiset(s) + multiset{x}
  {
    if s == [] || le(x, s[0]) then [x] + s
    else
      assert s == [s[0]] + s[1..];
      [s[0]] + Insert(x, s[1..], le)
  }

  /** The stable `Array.prototype.sort` with comparator `le`, as insertion
      sort: sorted, a permutation of `s`, and elements the order does not
      separate keep their relative order. */
  function SortBy<T(==)>(s: seq<T>, le: (T, T) -> bool): (r: seq<T>)
    ensures multiset(r) == multiset(s)
    ensures |r| == |s|
  {
    if s == [] then []
    else
      assert s == [s[0]] + s[1..];
      Insert(s[0], SortBy(s[1..], le), le)
  }

  lemma {:induction false} InsertSorted<T(!new)>(x: T, s: seq<T>, le: (T, T) -> bool)
    requires TotalPreorder(le) && SortedBy(s, le)
    ensures SortedBy(Insert(x, s, le), le)
  {
    if s != [] && !le(x, s[0]) {
      InsertSorted(x, s[1..], le);
      var r := Insert(x, s, le);
      var t := Insert(x, s[1..], le);
      assert r == [s[0]] + t;
      forall j | 1 <= j < |r| ensures le(r[0], r[j]) {
        assert r[j] in multiset(t);
        assert r[j] in multiset(s[1..]) + multiset{x};
        if r[j] == x {
        } else {
          assert r[j] in s[1..];
        }
      }
    }
  }

  /** Sorting yields a sequence ordered by `le`. */
  lemma {:induction false} SortBySorted<T(!new)>(s: seq<T>, le: (T, T) -> bool)
    requires TotalPreorder(le)
    ensures SortedBy(SortBy(s, le), le)
  {
    if s != [] {
      SortBySorted(s[1..], le);
      InsertSorted(s[0], SortBy(s[1..], le), le);
    }
  }

  /** Inserting keeps the relative order of a class of elements that `le`
      does not separate: `x` was ahead of them all and stays ahead. */
  lemma {:induction false} InsertStable<T>(x: T, s: seq<T>, le: (T, T) -> bool, p: T -> bool)
    requires forall a, b :: p(a) && p(b) ==> le(a, b)
    ensures Filter(Insert(x, s, le), p) == Filter([x] + s, p)
  {
    if s != [] && !le(x, s[0]) {
      var t := s[1..];
      InsertStable(x, t, le, p);
      assert s == [s[0]] + t;
      assert Insert(x, s, le) == [s[0]] + Insert(x, t, le);
      FilterAppend([s[0]], Insert(x, t, le), p);
      FilterAppend([x], t, p);
      FilterAppend([s[0]], t, p);
      FilterAppend([x], s, p);
      // `x` and `s[0]` are not both kept, so their order does not matter
      assert !(p(x) && p(s[0]));
    }
  }

  /** Sorting is stable: elements that `le` does not separate come out in
      the order they went in. */
  lemma {:induction false} SortByStable<T>(s: seq<T>, le: (T, T) -> bool, p: T -> bool)
    requires forall a, b :: p(a) && p(b) ==> le(a, b)
    ensures Filter(SortBy(s, le), p) == Filter(s, p)
  {
    if s != [] {
      SortByStable(s[1..], le, p);
      InsertStable(s[0], SortBy(s[1..], le), le, p);
      assert s == [s[0]] + s[1..];
    }
  }

  /** A sequence without repetitions holds each value at most once. */
  lemma {:induction false} DistinctCounts<T>(s: seq<T>)
    requires Distinct(s)
    ensures forall x :: multiset(s)[x] <= 1
  {
    if s != [] {
      DistinctCounts(s[1..]);
      assert s == [s[0]] + s[1..];
      assert forall k :: 0 <= k < |s[1..]| ==> s[1..][k] != s[0];
    }
  }

  /** A permutation of a sequence without repetitions has none either. */
  lemma PermutationKeepsDistinct<T>(s: seq<T>, t: seq<T>)
    requires multiset(s) == multiset(t) && Distinct(s)
    ensures Distinct(t)
  {
    DistinctCounts(s);
    forall i, j | 0 <= i < j < |t| ensures t[i] != t[j] {
      assert t == t[..j] + t[j..];
      assert multiset(t) == multiset(t[..j]) + multiset(t[j..]);
      assert t[i] in t[..j] && t[j] in t[j..];
      assert multiset(t[..j])[t[i]] >= 1 && multiset(t[j..])[t[j]] >= 1;
      assert multiset(s)[t[i]] <= 1;
    }
  }
}
