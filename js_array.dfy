/**
 * The `Array.prototype` operations the blog front-end relies on: `slice`, `filter`,
 * `find`, `some` and the (stable, comparator-driven) in-place `sort`.
 */
module JsArray {
  import opened Wrappers

  /** How `slice` resolves one index argument: negative values count back from the end. */
  function ResolveIndex(i: int, n: nat): (r: nat)
    ensures r <= n
    ensures 0 <= i ==> r == if i < n then i else n
    ensures i < 0 ==> r == if n + i < 0 then 0 else n + i
  {
    if i < 0 then (if n + i < 0 then 0 else n + i) else if i < n then i else n
  }

  /** `s.slice(start, end)`. */
  function Slice<T>(s: seq<T>, start: int, end: int): (r: seq<T>)
    ensures |r| <= |s|
  {
    var b := ResolveIndex(start, |s|);
    var e := ResolveIndex(end, |s|);
    if b < e then s[b..e] else []
  }

  /** With non-negative bounds, `slice` is the clamped subrange. */
  lemma SliceNonNegative<T>(s: seq<T>, start: int, end: int)
    requires 0 <= start && 0 <= end
    ensures var b := if start < |s| then start else |s|;
            var e := if end < |s| then end else |s|;
            Slice(s, start, end) == if b < e then s[b..e] else []
  {
  }

  /** `s.slice(0, k)` for `k >= 0` is the prefix of length min(k, |s|). */
  lemma SlicePrefix<T>(s: seq<T>, k: nat)
    ensures |Slice(s, 0, k)| == if k < |s| then k else |s|
    ensures Slice(s, 0, k) <= s
  {
  }

  /** `s.slice(0, end)` is a prefix of `s`, whatever `end` is. */
  lemma SliceFromZero<T>(s: seq<T>, end: int)
    ensures Slice(s, 0, end) == s[..ResolveIndex(end, |s|)]
    ensures Slice(s, 0, end) <= s
  {
  }

  /** `s.filter(keep)`. */
  function Filter<T>(s: seq<T>, keep: T -> bool): (r: seq<T>)
    ensures |r| <= |s|
    ensures forall i :: 0 <= i < |r| ==> r[i] in s && keep(r[i])
    ensures forall i :: 0 <= i < |s| && keep(s[i]) ==> s[i] in r
  {
    if s == [] then [] else (if keep(s[0]) then [s[0]] else []) + Filter(s[1..], keep)
  }

  lemma FilterSingleton<T>(x: T, keep: T -> bool)
    ensures Filter([x], keep) == if keep(x) then [x] else []
  {
    assert [x][1..] == [];
  }

  /** Filtering a three-element list, one element at a time. */
  lemma FilterThree<T>(a: T, b: T, c: T, keep: T -> bool)
    ensures Filter([a, b, c], keep) ==
            (if keep(a) then [a] else []) + (if keep(b) then [b] else []) + (if keep(c) then [c] else [])
  {
    assert [a, b, c] == [a] + [b] + [c];
    FilterAppend([a] + [b], [c], keep);
    FilterAppend([a], [b], keep);
    FilterSingleton(a, keep);
    FilterSingleton(b, keep);
    FilterSingleton(c, keep);
  }

  /** Filtering a four-element list, one element at a time. */
  lemma FilterFour<T>(a: T, b: T, c: T, d: T, keep: T -> bool)
    ensures Filter([a, b, c, d], keep) ==
            (if keep(a) then [a] else []) + (if keep(b) then [b] else []) +
            (if keep(c) then [c] else []) + (if keep(d) then [d] else [])
  {
    assert [a, b, c, d] == [a] + [b] + [c] + [d];
    FilterAppend([a] + [b] + [c], [d], keep);
    FilterAppend([a] + [b], [c], keep);
    FilterAppend([a], [b], keep);
    FilterSingleton(a, keep);
    FilterSingleton(b, keep);
    FilterSingleton(c, keep);
    FilterSingleton(d, keep);
  }

  /** A filter that keeps everything returns the list itself. */
  lemma {:induction false} FilterAll<T>(s: seq<T>, keep: T -> bool)
    requires forall i :: 0 <= i < |s| ==> keep(s[i])
    ensures Filter(s, keep) == s
  {
    if s != [] {
      FilterAll(s[1..], keep);
    }
  }

  /** A filter that keeps nothing returns the empty list. */
  lemma {:induction false} FilterNone<T>(s: seq<T>, keep: T -> bool)
    requires forall i :: 0 <= i < |s| ==> !keep(s[i])
    ensures Filter(s, keep) == []
  {
    if s != [] {
      FilterNone(s[1..], keep);
    }
  }

  lemma FilterConsMultiset<T>(s: seq<T>, keep: T -> bool)
    requires s != []
    ensures multiset(Filter(s, keep))
      == (if keep(s[0]) then multiset{s[0]} else multiset{}) + multiset(Filter(s[1..], keep))
  {
  }

  /** What a filter keeps and what the opposite filter keeps together make up the list. */
  lemma {:induction false} FilterPartition<T>(s: seq<T>, keep: T -> bool, drop: T -> bool)
    requires forall i :: 0 <= i < |s| ==> drop(s[i]) == !keep(s[i])
    ensures multiset(Filter(s, keep)) + multiset(Filter(s, drop)) == multiset(s)
  {
    if s != [] {
      assert forall i :: 0 <= i < |s[1..]| ==> s[1..][i] == s[i + 1];
      FilterPartition(s[1..], keep, drop);
      FilterConsMultiset(s, keep);
      FilterConsMultiset(s, drop);
      MultisetOfCons(s);
    }
  }

  lemma MultisetOfCons<T>(s: seq<T>)
    requires s != []
    ensures multiset(s) == multiset{s[0]} + multiset(s[1..])
  {
    assert s == [s[0]] + s[1..];
  }

  /** `r` is obtained from `s` by deleting elements, keeping the rest in order. */
  predicate IsSubsequence<T(==)>(r: seq<T>, s: seq<T>)
    decreases |s|
  {
    if r == [] then true
    else if s == [] then false
    else if r[0] == s[0] then IsSubsequence(r[1..], s[1..])
    else IsSubsequence(r, s[1..])
  }

  lemma {:induction false} FilterIsSubsequence<T>(s: seq<T>, keep: T -> bool)
    ensures IsSubsequence(Filter(s, keep), s)
  {
    if s != [] {
      FilterIsSubsequence(s[1..], keep);
      if keep(s[0]) {
        assert Filter(s, keep) == [s[0]] + Filter(s[1..], keep);
      } else {
        assert Filter(s, keep) == Filter(s[1..], keep);
        SubsequenceOfTail(Filter(s[1..], keep), s);
      }
    }
  }

  lemma {:induction false} SubsequenceOfTail<T>(r: seq<T>, s: seq<T>)
    requires s != [] && IsSubsequence(r, s[1..])
    ensures IsSubsequence(r, s)
    decreases |s|, 0
  {
    if r != [] && r[0] == s[0] {
      SubsequenceDropHead(r, s[1..]);
    }
  }

  lemma {:induction false} SubsequenceDropHead<T>(r: seq<T>, s: seq<T>)
    requires r != [] && IsSubsequence(r, s)
    ensures IsSubsequence(r[1..], s)
    decreases |s|, 1
  {
    if r[1..] != [] {
      if r[0] == s[0] {
        SubsequenceOfTail(r[1..], s);
      } else {
        SubsequenceDropHead(r, s[1..]);
        SubsequenceOfTail(r[1..], s);
      }
    }
  }

  /** A prefix is a subsequence. */
  lemma {:induction false} PrefixIsSubsequence<T>(r: seq<T>, s: seq<T>)
    requires r <= s
    ensures IsSubsequence(r, s)
  {
    if r != [] {
      assert r[1..] <= s[1..];
      PrefixIsSubsequence(r[1..], s[1..]);
    }
  }

  lemma {:induction false} SubsequenceTransitive<T>(a: seq<T>, b: seq<T>, c: seq<T>)
    requires IsSubsequence(a, b) && IsSubsequence(b, c)
    ensures IsSubsequence(a, c)
    decreases |c|
  {
    if a != [] {
      if b[0] == c[0] {
        if a[0] == b[0] {
          SubsequenceTransitive(a[1..], b[1..], c[1..]);
        } else {
          SubsequenceTransitive(a, b[1..], c[1..]);
          SubsequenceOfTail(a, c);
        }
      } else {
        SubsequenceTransitive(a, b, c[1..]);
        SubsequenceOfTail(a, c);
      }
    }
  }

  /** Filtering distributes over concatenation. */
  lemma {:induction false} FilterAppend<T>(a: seq<T>, b: seq<T>, keep: T -> bool)
    ensures Filter(a + b, keep) == Filter(a, keep) + Filter(b, keep)
  {
    if a == [] {
      assert a + b == b;
    } else {
      var head := if keep(a[0]) then [a[0]] else [];
      assert (a + b)[0] == a[0];
      assert (a + b)[1..] == a[1..] + b;
      FilterAppend(a[1..], b, keep);
      calc {
        Filter(a + b, keep);
        head + Filter(a[1..] + b, keep);
        head + (Filter(a[1..], keep) + Filter(b, keep));
        (head + Filter(a[1..], keep)) + Filter(b, keep);
        Filter(a, keep) + Filter(b, keep);
      }
    }
  }

  /** `s.findIndex(p)`: the first index whose element satisfies `p`, or -1. */
  function FindIndex<T>(s: seq<T>, p: T -> bool): (i: int)
    ensures -1 <= i < |s|
    ensures i == -1 <==> forall j :: 0 <= j < |s| ==> !p(s[j])
    ensures 0 <= i ==> p(s[i]) && forall j :: 0 <= j < i ==> !p(s[j])
  {
    if s == [] then -1
    else if p(s[0]) then 0
    else var i := FindIndex(s[1..], p); if i == -1 then -1 else i + 1
  }

  /** `s.find(p)`, with `undefined` as `None`. */
  function Find<T>(s: seq<T>, p: T -> bool): (r: Option<T>)
    ensures r.None? <==> forall j :: 0 <= j < |s| ==> !p(s[j])
    ensures r.Some? ==> exists i :: 0 <= i < |s| && s[i] == r.value && p(s[i]) && forall j :: 0 <= j < i ==> !p(s[j])
  {
    var i := FindIndex(s, p);
    if i == -1 then None else Some(s[i])
  }

  /** `s.some(p)`. */
  function Exists<T>(s: seq<T>, p: T -> bool): (b: bool)
    ensures b <==> exists j :: 0 <= j < |s| && p(s[j])
  {
    FindIndex(s, p) != -1
  }

  predicate NoDuplicates<T(==)>(s: seq<T>)
  {
    forall i, j :: 0 <= i < j < |s| ==> s[i] != s[j]
  }

  /** In a list without duplicates every element occurs once. */
  lemma {:induction false} NoDuplicatesOccurOnce<T>(s: seq<T>, x: T)
    requires NoDuplicates(s)
    ensures multiset(s)[x] <= 1
  {
    if s != [] {
      assert s == [s[0]] + s[1..];
      NoDuplicatesOccurOnce(s[1..], x);
      if s[0] == x {
        assert x !in s[1..];
      }
    }
  }

  /** A rearrangement of a list without duplicates has none either. */
  lemma PermutationNoDuplicates<T>(a: seq<T>, b: seq<T>)
    requires multiset(a) == multiset(b) && NoDuplicates(a)
    ensures NoDuplicates(b)
  {
    forall i, j | 0 <= i < j < |b| ensures b[i] != b[j] {
      if b[i] == b[j] {
        assert b == b[..j] + b[j..];
        assert b[i] in multiset(b[..j]) && b[j] in multiset(b[j..]);
        assert multiset(b)[b[i]] >= 2;
        NoDuplicatesOccurOnce(a, b[i]);
      }
    }
  }

  /** `s.indexOf(x)`: the first position of `x`, or -1. */
  function IndexOf<T(==)>(s: seq<T>, x: T): (i: int)
    ensures -1 <= i < |s|
    ensures i == -1 <==> x !in s
    ensures 0 <= i ==> s[i] == x && forall j :: 0 <= j < i ==> s[j] != x
  {
    if s == [] then -1
    else if s[0] == x then 0
    else var i := IndexOf(s[1..], x); if i == -1 then -1 else i + 1
  }

  /** Extending a list leaves the first position of an element already in it alone. */
  lemma IndexOfPrefix<T>(s: seq<T>, n: nat, x: T)
    requires n <= |s| && x in s[..n]
    ensures IndexOf(s, x) == IndexOf(s[..n], x)
  {
    var k := IndexOf(s[..n], x);
    assert forall j :: 0 <= j < n ==> s[..n][j] == s[j];
  }

  /** `Array.from(new Set(s))`: the distinct elements of `s`, in order of first occurrence. */
  function Distinct<T(==)>(s: seq<T>): (r: seq<T>)
    ensures forall i, j :: 0 <= i < j < |r| ==> r[i] != r[j]
    ensures forall i :: 0 <= i < |r| ==> r[i] in s
    ensures forall i :: 0 <= i < |s| ==> s[i] in r
  {
    if s == [] then []
    else
      var d := Distinct(s[..|s| - 1]);
      assert forall i :: 0 <= i < |s| - 1 ==> s[i] == s[..|s| - 1][i];
      if s[|s| - 1] in d then d else d + [s[|s| - 1]]
  }

  /** The distinct elements come in the order in which they first occur. */
  lemma {:induction false} DistinctFirstOccurrence<T>(s: seq<T>)
    ensures var r := Distinct(s);
            forall i, j :: 0 <= i < j < |r| ==> IndexOf(s, r[i]) < IndexOf(s, r[j])
  {
    if s != [] {
      var init := s[..|s| - 1];
      var d := Distinct(init);
      DistinctFirstOccurrence(init);
      forall i | 0 <= i < |d| ensures IndexOf(s, d[i]) == IndexOf(init, d[i]) {
        IndexOfPrefix(s, |s| - 1, d[i]);
      }
      if s[|s| - 1] !in d {
        AppendedLast(s, d);
      }
    }
  }

  /** The step of DistinctFirstOccurrence where the last element of `s` is new. */
  lemma AppendedLast<T>(s: seq<T>, d: seq<T>)
    requires s != [] && d == Distinct(s[..|s| - 1]) && s[|s| - 1] !in d
    requires forall i, j :: 0 <= i < j < |d| ==> IndexOf(s, d[i]) < IndexOf(s, d[j])
    requires forall i :: 0 <= i < |d| ==> IndexOf(s, d[i]) < |s| - 1
    ensures var r := d + [s[|s| - 1]];
            forall i, j :: 0 <= i < j < |r| ==> IndexOf(s, r[i]) < IndexOf(s, r[j])
  {
    var x := s[|s| - 1];
    assert x !in s[..|s| - 1];
    assert IndexOf(s, x) == |s| - 1;
  }

  // ---------------------------------------------------------------------------------
  // Sorting. ECMAScript 2019 requires `Array.prototype.sort` to be stable: with a
  // consistent comparator its result is THE stable sorted permutation of the input.
  // The model gives that result as insertion sort (SortBy) and proves it sorted, a
  // permutation and stable; the method Sort computes it in place on an array.
  // ---------------------------------------------------------------------------------

  /** A comparator as `sort` expects: `cmp(a, b) <= 0` is a total preorder ("a may precede b"). */
  ghost predicate IsComparator<T(!new)>(cmp: (T, T) -> int)
  {
    && (forall a, b :: cmp(a, b) <= 0 || cmp(b, a) <= 0)
    && (forall a, b, c :: cmp(a, b) <= 0 && cmp(b, c) <= 0 ==> cmp(a, c) <= 0)
  }

  ghost predicate SortedBy<T>(s: seq<T>, cmp: (T, T) -> int)
  {
    forall i, j :: 0 <= i < j < |s| ==> cmp(s[i], s[j]) <= 0
  }

  /** Inserts `x` into `t` after every element that may precede it (so after its equals). */
  function Insert<T>(t: seq<T>, x: T, cmp: (T, T) -> int): (r: seq<T>)
    ensures |r| == |t| + 1
  {
    if t == [] || cmp(t[|t| - 1], x) <= 0 then t + [x]
    else Insert(t[..|t| - 1], x, cmp) + [t[|t| - 1]]
  }

  lemma {:induction false} InsertPermutes<T>(t: seq<T>, x: T, cmp: (T, T) -> int)
    ensures multiset(Insert(t, x, cmp)) == multiset(t) + multiset{x}
  {
    if !(t == [] || cmp(t[|t| - 1], x) <= 0) {
      assert t == t[..|t| - 1] + [t[|t| - 1]];
      InsertPermutes(t[..|t| - 1], x, cmp);
    }
  }

  /** The stable sort of `s` under `cmp`. */
  function SortBy<T>(s: seq<T>, cmp: (T, T) -> int): (r: seq<T>)
    ensures |r| == |s|
  {
    if s == [] then [] else Insert(SortBy(s[..|s| - 1], cmp), s[|s| - 1], cmp)
  }

  /** The sorted result is a permutation of the input. */
  lemma {:induction false} SortByPermutes<T>(s: seq<T>, cmp: (T, T) -> int)
    ensures multiset(SortBy(s, cmp)) == multiset(s)
  {
    if s != [] {
      assert s == s[..|s| - 1] + [s[|s| - 1]];
      SortByPermutes(s[..|s| - 1], cmp);
      InsertPermutes(SortBy(s[..|s| - 1], cmp), s[|s| - 1], cmp);
    }
  }

  /** Sorting brings in no new elements: a property of every element holds after the sort. */
  lemma SortByKeeps<T>(s: seq<T>, cmp: (T, T) -> int, p: T -> bool)
    requires forall i :: 0 <= i < |s| ==> p(s[i])
    ensures forall i :: 0 <= i < |SortBy(s, cmp)| ==> p(SortBy(s, cmp)[i])
  {
    var r := SortBy(s, cmp);
    SortByPermutes(s, cmp);
    forall i | 0 <= i < |r| ensures p(r[i]) {
      assert r[i] in multiset(s);
    }
  }

  /** Every element of `s` may precede `z`. */
  ghost predicate AllPrecede<T>(s: seq<T>, z: T, cmp: (T, T) -> int)
  {
    forall i :: 0 <= i < |s| ==> cmp(s[i], z) <= 0
  }

  lemma {:induction false} InsertAllPrecede<T>(t: seq<T>, x: T, cmp: (T, T) -> int, z: T)
    requires AllPrecede(t, z, cmp) && cmp(x, z) <= 0
    ensures AllPrecede(Insert(t, x, cmp), z, cmp)
  {
    if !(t == [] || cmp(t[|t| - 1], x) <= 0) {
      InsertAllPrecede(t[..|t| - 1], x, cmp, z);
    }
  }

  lemma {:induction false} InsertSorted<T(!new)>(t: seq<T>, x: T, cmp: (T, T) -> int)
    requires IsComparator(cmp) && SortedBy(t, cmp)
    ensures SortedBy(Insert(t, x, cmp), cmp)
  {
    if t == [] {
    } else if cmp(t[|t| - 1], x) <= 0 {
      var r := t + [x];
      forall i | 0 <= i < |t| ensures cmp(t[i], x) <= 0 {
        if i < |t| - 1 {
          assert cmp(t[i], t[|t| - 1]) <= 0;
        }
      }
      assert forall i :: 0 <= i < |t| ==> r[i] == t[i];
    } else {
      var u := t[..|t| - 1];
      var last := t[|t| - 1];
      assert cmp(x, last) <= 0;
      assert AllPrecede(u, last, cmp) by {
        forall i | 0 <= i < |u| ensures cmp(u[i], last) <= 0 {
          assert u[i] == t[i];
        }
      }
      InsertSorted(u, x, cmp);
      InsertAllPrecede(u, x, cmp, last);
    }
  }

  lemma {:induction false} SortBySorted<T(!new)>(s: seq<T>, cmp: (T, T) -> int)
    requires IsComparator(cmp)
    ensures SortedBy(SortBy(s, cmp), cmp)
  {
    if s != [] {
      SortBySorted(s[..|s| - 1], cmp);
      InsertSorted(SortBy(s[..|s| - 1], cmp), s[|s| - 1], cmp);
    }
  }

  /** `a` and `b` are tied under `cmp`: neither must come first. */
  ghost predicate Tied<T>(cmp: (T, T) -> int, a: T, b: T)
  {
    cmp(a, b) <= 0 && cmp(b, a) <= 0
  }

  /** The filter that keeps the elements tied with `z`. */
  ghost function TiedWith<T>(cmp: (T, T) -> int, z: T): T -> bool
  {
    y => Tied(cmp, z, y)
  }

  lemma {:induction false} InsertStable<T(!new)>(t: seq<T>, x: T, cmp: (T, T) -> int, z: T)
    requires IsComparator(cmp)
    ensures Filter(Insert(t, x, cmp), TiedWith(cmp, z)) == Filter(t, TiedWith(cmp, z)) + Filter([x], TiedWith(cmp, z))
  {
    var tie := TiedWith(cmp, z);
    if t == [] || cmp(t[|t| - 1], x) <= 0 {
      FilterAppend(t, [x], tie);
    } else {
      var u := t[..|t| - 1];
      var last := t[|t| - 1];
      assert t == u + [last];
      InsertStable(u, x, cmp, z);
      FilterAppend(Insert(u, x, cmp), [last], tie);
      FilterAppend(u, [last], tie);
      // x and last cannot both be tied with z, for then cmp(last, x) <= 0.
      if tie(x) {
        assert !tie(last);
        assert Filter([last], tie) == [];
      } else {
        assert Filter([x], tie) == [];
      }
    }
  }

  /** Stability: the elements tied with any `z` keep their input order. */
  lemma {:induction false} SortByStable<T(!new)>(s: seq<T>, cmp: (T, T) -> int, z: T)
    requires IsComparator(cmp)
    ensures Filter(SortBy(s, cmp), TiedWith(cmp, z)) == Filter(s, TiedWith(cmp, z))
  {
    if s != [] {
      var init := s[..|s| - 1];
      assert s == init + [s[|s| - 1]];
      SortByStable(init, cmp, z);
      InsertStable(SortBy(init, cmp), s[|s| - 1], cmp, z);
      FilterAppend(init, [s[|s| - 1]], TiedWith(cmp, z));
    }
  }

  /** Where insertion puts `x`: after `t[..j]` when everything from `j` on must come after `x`. */
  lemma {:induction false} InsertPosition<T>(t: seq<T>, x: T, cmp: (T, T) -> int, j: nat)
    requires j <= |t| && (j == 0 || cmp(t[j - 1], x) <= 0)
    requires forall k :: j <= k < |t| ==> cmp(t[k], x) > 0
    ensures Insert(t, x, cmp) == t[..j] + [x] + t[j..]
    decreases |t|
  {
    if j < |t| {
      var u := t[..|t| - 1];
      assert u[..j] == t[..j];
      InsertPosition(u, x, cmp, j);
      assert t[j..] == u[j..] + [t[|t| - 1]];
    }
  }

  /** `s` in the opposite order. */
  function Reverse<T>(s: seq<T>): (r: seq<T>)
    ensures |r| == |s|
    ensures forall i {:trigger r[i]} :: 0 <= i < |s| ==> r[i] == s[|s| - 1 - i]
  {
    if s == [] then [] else [s[|s| - 1]] + Reverse(s[..|s| - 1])
  }

  /** A list in which every later element must come before every earlier one sorts into its reverse. */
  lemma {:induction false} SortByReversed<T>(s: seq<T>, cmp: (T, T) -> int)
    requires forall i, j :: 0 <= i < j < |s| ==> cmp(s[i], s[j]) > 0
    ensures SortBy(s, cmp) == Reverse(s)
  {
    if s != [] {
      var init, x := s[..|s| - 1], s[|s| - 1];
      forall i, j | 0 <= i < j < |init| ensures cmp(init[i], init[j]) > 0 {
        assert init[i] == s[i] && init[j] == s[j];
      }
      SortByReversed(init, cmp);
      var t := Reverse(init);
      forall k | 0 <= k < |t| ensures cmp(t[k], x) > 0 {
        assert t[k] == s[|init| - 1 - k];
      }
      InsertPosition(t, x, cmp, 0);
    }
  }

  /** `a.sort(cmp)`: sorts the array in place, giving the stable sorted permutation (insertion sort). */
  method Sort<T>(a: array<T>, cmp: (T, T) -> int)
    modifies a
    ensures a[..] == SortBy(old(a[..]), cmp)
  {
    ghost var input := a[..];
    var i := 0;
    while i < a.Length
      invariant 0 <= i <= a.Length
      invariant a[..i] == SortBy(input[..i], cmp)
      invariant forall k :: i <= k < a.Length ==> a[k] == input[k]
    {
      SortByStep(input, i, cmp);
      InsertInPlace(a, i, cmp);
      i := i + 1;
    }
    assert input[..a.Length] == input;
  }

  lemma SortByStep<T>(s: seq<T>, i: nat, cmp: (T, T) -> int)
    requires i < |s|
    ensures SortBy(s[..i + 1], cmp) == Insert(SortBy(s[..i], cmp), s[i], cmp)
  {
    assert s[..i + 1][..i] == s[..i];
  }

  /** Moves `a[i]` into the sorted prefix `a[..i]`, shifting the later elements up by one. */
  method InsertInPlace<T>(a: array<T>, i: nat, cmp: (T, T) -> int)
    requires i < a.Length
    modifies a
    ensures a[..i + 1] == Insert(old(a[..i]), old(a[i]), cmp)
    ensures forall k :: i < k < a.Length ==> a[k] == old(a[k])
  {
    var x := a[i];
    ghost var t := a[..i];
    var j := i;
    while j > 0 && cmp(a[j - 1], x) > 0
      invariant 0 <= j <= i
      invariant forall k {:trigger a[k]} :: 0 <= k < j ==> a[k] == t[k]
      invariant forall k {:trigger a[k]} :: j < k <= i ==> a[k] == t[k - 1]
      invariant forall k :: i < k < a.Length ==> a[k] == old(a[k])
      invariant forall k :: j <= k < i ==> cmp(t[k], x) > 0
    {
      a[j] := a[j - 1];
      j := j - 1;
    }
    InsertPosition(t, x, cmp, j);
    a[j] := x;
    ghost var done := t[..j] + [x] + t[j..];
    forall k | 0 <= k <= i ensures a[k] == done[k] {
    }
    assert a[..i + 1] == done;
  }
}
