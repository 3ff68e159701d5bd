/** Order-preserving filtering and newest-first sorting of record sequences,
    the two things every listing query does. */
module Seqs {
  import opened Wrappers

  /** `s.filter(keep)`: the elements satisfying `keep`, in their original order. */
  function Filter<T(==,!new)>(s: seq<T>, keep: T -> bool): (r: seq<T>)
    ensures |r| <= |s|
    ensures forall x :: x in r <==> x in s && keep(x)
  {
    if |s| == 0 then []
    else if keep(s[0]) then [s[0]] + Filter(s[1..], keep)
    else Filter(s[1..], keep)
  }

  /** `r` is `s` with some elements dropped and the rest kept in order. */
  predicate IsSubsequence<T(==)>(r: seq<T>, s: seq<T>)
    decreases |s|
  {
    if |r| == 0 then true
    else if |s| == 0 then false
    else if r[0] == s[0] then IsSubsequence(r[1..], s[1..])
    else IsSubsequence(r, s[1..])
  }

  lemma {:induction false} FilterIsSubsequence<T(!new)>(s: seq<T>, keep: T -> bool)
    ensures IsSubsequence(Filter(s, keep), s)
  {
    if |s| > 0 {
      FilterIsSubsequence(s[1..], keep);
      if keep(s[0]) {
        assert Filter(s, keep)[1..] == Filter(s[1..], keep);
      } else {
        SubsequenceOfTail(Filter(s, keep), s);
      }
    }
  }

  /** A subsequence of the tail is a subsequence of the whole. */
  lemma {:induction false} SubsequenceOfTail<T>(r: seq<T>, s: seq<T>)
    requires |s| > 0 && IsSubsequence(r, s[1..])
    ensures IsSubsequence(r, s)
    decreases |s|, 0
  {
    if |r| > 0 && r[0] == s[0] {
      SubsequenceDropHead(r, s[1..]);
    }
  }

  /** Dropping the first element of a subsequence keeps it a subsequence. */
  lemma {:induction false} SubsequenceDropHead<T>(r: seq<T>, s: seq<T>)
    requires |r| > 0 && IsSubsequence(r, s)
    ensures IsSubsequence(r[1..], s)
    decreases |s|, 1
  {
    if r[0] != s[0] {
      SubsequenceDropHead(r, s[1..]);
      SubsequenceOfTail(r[1..], s);
    } else if |r| > 1 {
      SubsequenceOfTail(r[1..], s);
    }
  }

  lemma FilterCons<T(!new)>(x: T, s: seq<T>, keep: T -> bool)
    ensures Filter([x] + s, keep) == (if keep(x) then [x] else []) + Filter(s, keep)
  {
    assert ([x] + s)[1..] == s;
  }

  /** `[x]` when `keep(x)` holds, else empty: one step of a filter. */
  function Kept<T>(x: T, keep: T -> bool): seq<T> {
    if keep(x) then [x] else []
  }

  lemma FilterTwo<T(!new)>(d: T, e: T, keep: T -> bool)
    ensures Filter([d, e], keep) == Kept(d, keep) + Kept(e, keep)
  {
    FilterCons(e, [], keep);
    assert [e] == [e] + [];
    FilterCons(d, [e], keep);
    assert [d, e] == [d] + [e];
  }

  lemma FilterThree<T(!new)>(c: T, d: T, e: T, keep: T -> bool)
    ensures Filter([c, d, e], keep) == Kept(c, keep) + (Kept(d, keep) + Kept(e, keep))
  {
    FilterTwo(d, e, keep);
    FilterCons(c, [d, e], keep);
    assert [c, d, e] == [c] + [d, e];
  }

  lemma FilterFour<T(!new)>(b: T, c: T, d: T, e: T, keep: T -> bool)
    ensures Filter([b, c, d, e], keep) == Kept(b, keep) + (Kept(c, keep) + (Kept(d, keep) + Kept(e, keep)))
  {
    FilterThree(c, d, e, keep);
    FilterCons(b, [c, d, e], keep);
    assert [b, c, d, e] == [b] + [c, d, e];
  }

  /** Filtering five elements decides each one in turn. */
  lemma FilterFive<T(!new)>(a: T, b: T, c: T, d: T, e: T, keep: T -> bool)
    ensures Filter([a, b, c, d, e], keep)
            == Kept(a, keep) + (Kept(b, keep) + (Kept(c, keep) + (Kept(d, keep) + Kept(e, keep))))
  {
    FilterFour(b, c, d, e, keep);
    FilterCons(a, [b, c, d, e], keep);
    assert [a, b, c, d, e] == [a] + [b, c, d, e];
  }

  /** Two filters in a row are one filter by the conjunction. */
  lemma {:induction false} FilterTwice<T(!new)>(s: seq<T>, a: T -> bool, b: T -> bool, both: T -> bool)
    requires forall x :: both(x) == (a(x) && b(x))
    ensures Filter(Filter(s, a), b) == Filter(s, both)
  {
    if |s| > 0 {
      FilterTwice(s[1..], a, b, both);
    }
  }

  /** Filtering by a test that all elements pass changes nothing. */
  lemma {:induction false} FilterKeepsAll<T(!new)>(s: seq<T>, keep: T -> bool)
    requires forall i :: 0 <= i < |s| ==> keep(s[i])
    ensures Filter(s, keep) == s
  {
    if |s| > 0 {
      FilterKeepsAll(s[1..], keep);
    }
  }

  /** Filters by tests that agree on every element give the same result. */
  lemma {:induction false} FilterSameTest<T(!new)>(s: seq<T>, a: T -> bool, b: T -> bool)
    requires forall i :: 0 <= i < |s| ==> a(s[i]) == b(s[i])
    ensures Filter(s, a) == Filter(s, b)
  {
    if |s| > 0 {
      FilterSameTest(s[1..], a, b);
    }
  }

  /** Filtering preserves how often each kept element occurs. */
  lemma {:induction false} FilterMultiset<T(!new)>(s: seq<T>, keep: T -> bool, x: T)
    ensures multiset(Filter(s, keep))[x] == if keep(x) then multiset(s)[x] else 0
  {
    if |s| > 0 {
      FilterMultiset(s[1..], keep, x);
      assert s == [s[0]] + s[1..];
    }
  }

  lemma {:induction false} FilterConcat<T(!new)>(a: seq<T>, b: seq<T>, keep: T -> bool)
    ensures Filter(a + b, keep) == Filter(a, keep) + Filter(b, keep)
  {
    if |a| > 0 {
      assert (a + b)[0] == a[0];
      assert (a + b)[1..] == a[1..] + b;
      FilterConcat(a[1..], b, keep);
      if keep(a[0]) {
        assert Filter(a + b, keep) == [a[0]] + Filter(a[1..] + b, keep);
        assert Filter(a, keep) == [a[0]] + Filter(a[1..], keep);
      } else {
        assert Filter(a + b, keep) == Filter(a[1..] + b, keep);
      }
    } else {
      assert a + b == b;
    }
  }

  // ---------------------------------------------------------------------------
  // Single-row lookup and update
  // ---------------------------------------------------------------------------

  /** The first element satisfying `hit`: `const [row] = select … where …`. */
  function FirstWhere<T>(s: seq<T>, hit: T -> bool): (r: Option<T>)
    ensures r.Some? ==> r.value in s && hit(r.value)
    ensures r.None? <==> forall i :: 0 <= i < |s| ==> !hit(s[i])
    ensures r.Some? ==> exists i :: 0 <= i < |s| && s[i] == r.value && forall j :: 0 <= j < i ==> !hit(s[j])
  {
    if |s| == 0 then None
    else if hit(s[0]) then Some(s[0])
    else
      var r := FirstWhere(s[1..], hit);
      assert r.Some? ==> exists i :: 0 <= i < |s| && s[i] == r.value && forall j :: 0 <= j < i ==> !hit(s[j]) by {
        if r.Some? {
          var k :| 0 <= k < |s[1..]| && s[1..][k] == r.value && forall j :: 0 <= j < k ==> !hit(s[1..][j]);
          assert s[k + 1] == r.value;
          assert forall j :: 0 <= j < k + 1 ==> !hit(s[j]) by {
            forall j | 0 <= j < k + 1
              ensures !hit(s[j])
            {
              if j > 0 {
                assert s[j] == s[1..][j - 1];
              }
            }
          }
        }
      }
      r
  }

  /** `update … set … where hit`: every row satisfying `hit` is changed, every
      other row stays as it was, and the order of the rows is kept. */
  function UpdateWhere<T>(s: seq<T>, hit: T -> bool, change: T -> T): (r: seq<T>)
    ensures |r| == |s|
    ensures forall i :: 0 <= i < |s| && !hit(s[i]) ==> r[i] == s[i]
    ensures forall i :: 0 <= i < |s| && hit(s[i]) ==> r[i] == change(s[i])
  {
    seq(|s|, i requires 0 <= i < |s| => if hit(s[i]) then change(s[i]) else s[i])
  }

  /** Updating rows that `keep` rejects before and after the change leaves the
      rows `keep` selects as they were. */
  lemma {:induction false} FilterUpdateElsewhere<T(!new)>(s: seq<T>, hit: T -> bool, change: T -> T, keep: T -> bool)
    requires forall x :: hit(x) ==> !keep(x) && !keep(change(x))
    ensures Filter(UpdateWhere(s, hit, change), keep) == Filter(s, keep)
  {
    if |s| > 0 {
      var u := UpdateWhere(s, hit, change);
      assert u[1..] == UpdateWhere(s[1..], hit, change);
      FilterUpdateElsewhere(s[1..], hit, change, keep);
    }
  }

  /** An update that does not change what `sel` looks at: the first row `sel`
      finds afterwards is the first row it found before, updated if `hit` chose it. */
  lemma {:induction false} FirstWhereAfterUpdate<T>(s: seq<T>, hit: T -> bool, change: T -> T, sel: T -> bool)
    requires forall x :: sel(change(x)) == sel(x)
    ensures var before := FirstWhere(s, sel);
            FirstWhere(UpdateWhere(s, hit, change), sel)
            == if before.Some? && hit(before.value) then Some(change(before.value)) else before
  {
    if |s| > 0 {
      var u := UpdateWhere(s, hit, change);
      assert u[1..] == UpdateWhere(s[1..], hit, change);
      assert sel(u[0]) == sel(s[0]);
      FirstWhereAfterUpdate(s[1..], hit, change, sel);
    }
  }

  /** No two elements share a key. */
  predicate Distinct<T, K(==)>(s: seq<T>, key: T -> K) {
    forall i, j :: 0 <= i < j < |s| ==> key(s[i]) != key(s[j])
  }

  /** Keys are distinct when each one gives back its own position. */
  lemma DistinctByIndex<T, K>(s: seq<T>, key: T -> K, index: K -> int)
    requires forall i :: 0 <= i < |s| ==> index(key(s[i])) == i
    ensures Distinct(s, key)
  {
  }

  /** An update that does not touch the key keeps the keys of every position. */
  lemma UpdateKeepsKeys<T, K>(s: seq<T>, hit: T -> bool, change: T -> T, key: T -> K)
    requires forall x :: key(change(x)) == key(x)
    ensures forall i :: 0 <= i < |s| ==> key(UpdateWhere(s, hit, change)[i]) == key(s[i])
  {
  }

  // ---------------------------------------------------------------------------
  // Newest first
  // ---------------------------------------------------------------------------

  /** Non-increasing by `key`. */
  predicate SortedDesc<T>(s: seq<T>, key: T -> int) {
    forall i, j :: 0 <= i < j < |s| ==> key(s[i]) >= key(s[j])
  }

  /** Place `x` before the first element whose key does not exceed its own. */
  function Insert<T(==)>(x: T, s: seq<T>, key: T -> int): (r: seq<T>)
    requires SortedDesc(s, key)
    ensures SortedDesc(r, key)
    ensures multiset(r) == multiset(s) + multiset{x}
  {
    if |s| == 0 then [x]
    else if key(x) >= key(s[0]) then [x] + s
    else
      var rest := Insert(x, s[1..], key);
      assert s == [s[0]] + s[1..];
      InsertedBelowHead(x, s, rest, key);
      [s[0]] + rest
  }

  /** Everything in `rest` (the tail of `s` with `x` inserted) sorts after the head of `s`. */
  lemma InsertedBelowHead<T>(x: T, s: seq<T>, rest: seq<T>, key: T -> int)
    requires |s| > 0 && SortedDesc(s, key) && key(x) < key(s[0])
    requires multiset(rest) == multiset(s[1..]) + multiset{x}
    ensures forall j :: 0 <= j < |rest| ==> key(s[0]) >= key(rest[j])
  {
    forall j | 0 <= j < |rest|
      ensures key(s[0]) >= key(rest[j])
    {
      assert rest[j] in multiset(rest);
      if rest[j] != x {
        assert rest[j] in s[1..];
      }
    }
  }

  /** Stable insertion sort, largest key first: `ORDER BY key DESC`. Rows with
      equal keys stay in their original order. */
  function SortDesc<T(==,!new)>(s: seq<T>, key: T -> int): (r: seq<T>)
    ensures SortedDesc(r, key)
    ensures multiset(r) == multiset(s)
    ensures forall x :: x in r <==> x in s
  {
    if |s| == 0 then []
    else
      assert s == [s[0]] + s[1..];
      var r := Insert(s[0], SortDesc(s[1..], key), key);
      assert forall x :: x in r <==> x in multiset(r);
      r
  }

  /** Sorting a sequence that is already newest-first changes nothing. */
  lemma {:induction false} SortSortedIsIdentity<T(!new)>(s: seq<T>, key: T -> int)
    requires SortedDesc(s, key)
    ensures SortDesc(s, key) == s
  {
    if |s| > 0 {
      SortSortedIsIdentity(s[1..], key);
    }
  }

  lemma {:induction false} FilterPreservesSorted<T(!new)>(s: seq<T>, keep: T -> bool, key: T -> int)
    requires SortedDesc(s, key)
    ensures SortedDesc(Filter(s, keep), key)
  {
    if |s| > 0 {
      FilterPreservesSorted(s[1..], keep, key);
      var r := Filter(s, keep);
      if keep(s[0]) {
        forall j | 0 < j < |r|
          ensures key(r[0]) >= key(r[j])
        {
          assert r[j] in Filter(s[1..], keep);
        }
      }
    }
  }
}
