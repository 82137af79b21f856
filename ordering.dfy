/** The default string sort the viewer uses for its option lists and
    group headings, and what it yields on a list of distinct values. */
module Ordering {
  import opened JsString
  import opened Seqs

  /** Code-point order on strings is a total preorder, so sorting by it is
      well defined. */
  lemma StrLeTotalPreorder()
    ensures TotalPreorder(StrLe)
  {
    forall a, b ensures StrLe(a, b) || StrLe(b, a) {
      StrLeTotal(a, b);
    }
    forall a, b, c | StrLe(a, b) && StrLe(b, c) ensures StrLe(a, c) {
      StrLeTransitive(a, b, c);
    }
  }

  /** `strings.sort()` with no comparator. */
  function SortStrings(s: seq<string>): (r: seq<string>)
    ensures multiset(r) == multiset(s)
  {
    SortBy(s, StrLe)
  }

  /** Each value is strictly below every later one. */
  predicate StrictlyAscending(s: seq<string>) {
    forall i, j :: 0 <= i < j < |s| ==> StrLe(s[i], s[j]) && s[i] != s[j]
  }

  /** Sorting a list without repetitions gives a strictly ascending list of
      the same values. */
  lemma SortStringsDistinct(s: seq<string>)
    requires Distinct(s)
    ensures StrictlyAscending(SortStrings(s))
    ensures forall x :: x in SortStrings(s) <==> x in s
  {
    var r := SortStrings(s);
    StrLeTotalPreorder();
    SortBySorted(s, StrLe);
    PermutationKeepsDistinct(s, r);
    forall x ensures x in r <==> x in s {
      assert x in r <==> x in multiset(r);
      assert x in s <==> x in multiset(s);
    }
  }

  /** `Array.from(new Set(values)).sort()`: the values that occur, each
      once, strictly ascending. */
  function SortedDistinct(values: seq<string>): (r: seq<string>)
    ensures StrictlyAscending(r)
    ensures forall x :: x in r <==> x in values
  {
    SortStringsDistinct(Dedup(values));
    SortStrings(Dedup(values))
  }

  /** There is only one strictly ascending list of a given set of values:
      the sorted option lists are determined by the values alone, whatever
      order they were collected in. */
  lemma {:induction false} StrictlyAscendingUnique(a: seq<string>, b: seq<string>)
    requires StrictlyAscending(a) && StrictlyAscending(b)
    requires forall x :: x in a <==> x in b
    ensures a == b
    decreases |a|
  {
    // an empty list has no values, so both are empty or neither is
    if a != [] {
      assert a[0] in a;
    }
    if b != [] {
      assert b[0] in b;
    }
    if a != [] && b != [] {
      // both heads are the least value
      assert a[0] in b;
      assert b[0] in a;
      assert StrLe(b[0], a[0]) by {
        var k :| 0 <= k < |b| && b[k] == a[0];
        if k > 0 {
          assert StrLe(b[0], b[k]);
        } else {
          StrLeReflexive(b[0]);
        }
      }
      assert StrLe(a[0], b[0]) by {
        var k :| 0 <= k < |a| && a[k] == b[0];
        if k > 0 {
          assert StrLe(a[0], a[k]);
        } else {
          StrLeReflexive(a[0]);
        }
      }
      StrLeAntisymmetric(a[0], b[0]);
      forall x ensures x in a[1..] <==> x in b[1..] {
        if x in a[1..] {
          var k :| 0 <= k < |a[1..]| && a[1..][k] == x;
          assert x != a[0] by { assert a[k + 1] != a[0]; }
          assert x in b;
        }
        if x in b[1..] {
          var k :| 0 <= k < |b[1..]| && b[1..][k] == x;
          assert x != b[0] by { assert b[k + 1] != b[0]; }
          assert x in a;
        }
      }
      StrictlyAscendingUnique(a[1..], b[1..]);
      assert a == [a[0]] + a[1..] && b == [b[0]] + b[1..];
    }
  }
}
