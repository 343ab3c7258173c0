/** Filtering, grouping and summing over a table, generic in the row type and
    the grouping key: the row selections and `groupby(...).size()` /
    `groupby(...).sum()` of the dashboard, and the fact that a grouping whose
    keys are distinct and cover every row conserves the row count and the
    column total. */
module Grouping {

  /** The rows whose key equals `k`, in table order (`df[key(df) == k]`). */
  function Where<T(==,!new), K(==)>(xs: seq<T>, key: T -> K, k: K): (out: seq<T>)
    ensures |out| <= |xs|
    ensures forall x :: x in out <==> x in xs && key(x) == k
  {
    if xs == [] then []
    else Where(xs[..|xs| - 1], key, k) + (if key(xs[|xs| - 1]) == k then [xs[|xs| - 1]] else [])
  }

  /** The total of one column (`df[col].sum()`, 0 for no rows). */
  function Sum<T>(xs: seq<T>, val: T -> int): int {
    if xs == [] then 0 else Sum(xs[..|xs| - 1], val) + val(xs[|xs| - 1])
  }

  /** The sum of a list of numbers. */
  function Total(ns: seq<int>): int {
    if ns == [] then 0 else Total(ns[..|ns| - 1]) + ns[|ns| - 1]
  }

  /** The column of keys (`df[key]`), in table order. */
  function Column<T, K>(xs: seq<T>, key: T -> K): (ks: seq<K>)
    ensures |ks| == |xs|
    ensures forall i :: 0 <= i < |xs| ==> ks[i] == key(xs[i])
  {
    seq(|xs|, i requires 0 <= i < |xs| => key(xs[i]))
  }

  /** The size of each group, for the listed keys in that order. */
  function Counts<T(==,!new), K(==)>(xs: seq<T>, key: T -> K, ks: seq<K>): (cs: seq<nat>)
    ensures |cs| == |ks|
    ensures forall i :: 0 <= i < |ks| ==> cs[i] == |Where(xs, key, ks[i])|
  {
    if ks == [] then [] else Counts(xs, key, ks[..|ks| - 1]) + [|Where(xs, key, ks[|ks| - 1])|]
  }

  /** The column total of each group, for the listed keys in that order. */
  function Sums<T(==,!new), K(==)>(xs: seq<T>, key: T -> K, ks: seq<K>, val: T -> int): (ss: seq<int>)
    ensures |ss| == |ks|
    ensures forall i :: 0 <= i < |ks| ==> ss[i] == Sum(Where(xs, key, ks[i]), val)
  {
    if ks == [] then [] else Sums(xs, key, ks[..|ks| - 1], val) + [Sum(Where(xs, key, ks[|ks| - 1]), val)]
  }

  predicate Distinct<K(==)>(ks: seq<K>) {
    forall i, j :: 0 <= i < j < |ks| ==> ks[i] != ks[j]
  }

  predicate StrictlyIncreasing(s: seq<int>) {
    forall i, j :: 0 <= i < j < |s| ==> s[i] < s[j]
  }

  /** Adds `x` to a strictly increasing list unless it is already there. */
  function InsertUnique(x: int, s: seq<int>): (r: seq<int>)
    requires StrictlyIncreasing(s)
    ensures StrictlyIncreasing(r)
    ensures forall y :: y in r <==> y == x || y in s
  {
    if s == [] then [x]
    else if x < s[0] then
      ConsIncreasing(x, s);
      [x] + s
    else if x == s[0] then s
    else
      var t := InsertUnique(x, s[1..]);
      assert forall y :: y in t ==> s[0] < y;
      ConsIncreasing(s[0], t);
      [s[0]] + t
  }

  lemma ConsIncreasing(x: int, t: seq<int>)
    requires StrictlyIncreasing(t)
    requires t != [] ==> x < t[0]
    ensures StrictlyIncreasing([x] + t)
  {
    var r := [x] + t;
    forall i, j | 0 <= i < j < |r| ensures r[i] < r[j] {
      assert r[j] == t[j - 1];
      if i > 0 {
        assert r[i] == t[i - 1];
      } else {
        assert t[0] <= t[j - 1];
      }
    }
  }

  /** The distinct values of a column in ascending order: the group keys of
      `groupby`, which sorts them. */
  function SortedUnique(xs: seq<int>): (r: seq<int>)
    ensures StrictlyIncreasing(r)
    ensures forall y :: y in r <==> y in xs
  {
    if xs == [] then [] else InsertUnique(xs[0], SortedUnique(xs[1..]))
  }

  /** The position of the first occurrence of k. */
  function FirstIndex<K(==)>(ks: seq<K>, k: K): (i: nat)
    requires k in ks
    ensures i < |ks| && ks[i] == k
    ensures forall j :: 0 <= j < i ==> ks[j] != k
  {
    if ks[0] == k then 0 else 1 + FirstIndex(ks[1..], k)
  }

  /** The distinct keys in order of first appearance (the group order of a hash
      table filled row by row). */
  function FirstAppearance<K(==,!new)>(ks: seq<K>): (r: seq<K>)
    ensures Distinct(r)
    ensures forall k :: k in r <==> k in ks
    ensures FirstAppearanceOrder(ks, r)
  {
    if ks == [] then []
    else
      var init, last := ks[..|ks| - 1], ks[|ks| - 1];
      var r := FirstAppearance(init);
      assert ks == init + [last];
      assert forall k :: k in ks <==> k in init || k == last;
      OrderSnoc(init, last, r);
      if last in r then r else r + [last]
  }

  /** Appending a key to the list keeps the order of the keys seen so far, and
      a new key goes after all of them. */
  lemma OrderSnoc<K>(init: seq<K>, last: K, r: seq<K>)
    requires forall k :: k in r <==> k in init
    requires FirstAppearanceOrder(init, r)
    ensures forall k :: k in r ==> k in init + [last]
    ensures FirstAppearanceOrder(init + [last], r)
    ensures last !in r ==> FirstAppearanceOrder(init + [last], r + [last])
  {
    var ks := init + [last];
    FirstIndexPrefix(init, last);
    if last !in r {
      var r' := r + [last];
      forall i, j | 0 <= i < j < |r'| ensures FirstIndex(ks, r'[i]) < FirstIndex(ks, r'[j]) {
        assert r'[i] == r[i];
        if j < |r| {
          assert r'[j] == r[j];
        } else {
          assert r[i] in init;
        }
      }
    }
  }

  /** The keys of r, all occurring in ks, are listed in the order of their
      first occurrence in ks. */
  predicate FirstAppearanceOrder<K(==)>(ks: seq<K>, r: seq<K>)
    requires forall k :: k in r ==> k in ks
  {
    forall i, j :: 0 <= i < j < |r| ==> FirstIndex(ks, r[i]) < FirstIndex(ks, r[j])
  }

  /** Extending a list leaves the first index of every key already there. */
  lemma FirstIndexPrefix<K>(init: seq<K>, last: K)
    ensures forall k :: k in init ==> FirstIndex(init + [last], k) == FirstIndex(init, k)
    ensures last !in init ==> FirstIndex(init + [last], last) == |init|
  {
    var ks := init + [last];
    forall k | k in init ensures FirstIndex(ks, k) == FirstIndex(init, k) {
      var j := FirstIndex(init, k);
      assert ks[j] == k;
      assert forall m :: 0 <= m < j ==> ks[m] == init[m];
    }
    if last !in init {
      assert forall m :: 0 <= m < |init| ==> ks[m] == init[m];
    }
  }

  lemma StrictlyIncreasingIsDistinct(s: seq<int>)
    requires StrictlyIncreasing(s)
    ensures Distinct(s)
  {
  }

  // ---------------------------------------------------------------------------
  // Conservation under grouping

  lemma {:induction false} WhereSnoc<T(!new), K>(xs: seq<T>, x: T, key: T -> K, k: K)
    ensures Where(xs + [x], key, k) == Where(xs, key, k) + (if key(x) == k then [x] else [])
  {
    assert (xs + [x])[..|xs + [x]| - 1] == xs;
  }

  lemma {:induction false} SumSnoc<T>(xs: seq<T>, x: T, val: T -> int)
    ensures Sum(xs + [x], val) == Sum(xs, val) + val(x)
  {
    assert (xs + [x])[..|xs + [x]| - 1] == xs;
  }

  /** Adding one row to the table adds one to the count of its group, if that
      group is listed, and to no other. */
  lemma {:induction false} CountsSnoc<T(!new), K>(xs: seq<T>, x: T, key: T -> K, ks: seq<K>)
    requires Distinct(ks)
    ensures Total(Counts(xs + [x], key, ks)) == Total(Counts(xs, key, ks)) + (if key(x) in ks then 1 else 0)
  {
    if ks != [] {
      var init, last := ks[..|ks| - 1], ks[|ks| - 1];
      assert ks == init + [last];
      assert key(x) in ks <==> key(x) in init || key(x) == last;
      assert last !in init by {
        forall i | 0 <= i < |init| ensures init[i] != last {
          assert ks[i] == init[i];
        }
      }
      CountsSnoc(xs, x, key, init);
      WhereSnoc(xs, x, key, last);
    }
  }

  /** Adding one row to the table adds its value to the total of its group, if
      that group is listed, and to no other. */
  lemma {:induction false} SumsSnoc<T(!new), K>(xs: seq<T>, x: T, key: T -> K, ks: seq<K>, val: T -> int)
    requires Distinct(ks)
    ensures Total(Sums(xs + [x], key, ks, val)) == Total(Sums(xs, key, ks, val)) + (if key(x) in ks then val(x) else 0)
  {
    if ks != [] {
      var init, last := ks[..|ks| - 1], ks[|ks| - 1];
      assert ks == init + [last];
      assert key(x) in ks <==> key(x) in init || key(x) == last;
      assert last !in init by {
        forall i | 0 <= i < |init| ensures init[i] != last {
          assert ks[i] == init[i];
        }
      }
      SumsSnoc(xs, x, key, init, val);
      var before := Where(xs, key, last);
      WhereSnoc(xs, x, key, last);
      var after := Sum(Where(xs + [x], key, last), val);
      assert after == Sum(before, val) + (if key(x) == last then val(x) else 0) by {
        if key(x) == last {
          assert Where(xs + [x], key, last) == before + [x];
          SumSnoc(before, x, val);
        } else {
          assert Where(xs + [x], key, last) == before + [];
          assert before + [] == before;
        }
      }
      assert Sums(xs + [x], key, ks, val) == Sums(xs + [x], key, init, val) + [after];
      assert Sums(xs, key, ks, val) == Sums(xs, key, init, val) + [Sum(before, val)];
      TotalSnoc(Sums(xs + [x], key, init, val), after);
      TotalSnoc(Sums(xs, key, init, val), Sum(before, val));
    }
  }

  lemma TotalSnoc(ns: seq<int>, n: int)
    ensures Total(ns + [n]) == Total(ns) + n
  {
    assert (ns + [n])[..|ns + [n]| - 1] == ns;
  }

  /** The group sizes add up to the number of rows when the listed keys are
      distinct and every row's key is listed. */
  lemma {:induction false} CountsPartition<T(!new), K>(xs: seq<T>, key: T -> K, ks: seq<K>)
    requires Distinct(ks)
    requires forall x :: x in xs ==> key(x) in ks
    ensures Total(Counts(xs, key, ks)) == |xs|
  {
    if xs == [] {
      var cs := Counts(xs, key, ks);
      ZeroTotal(cs);
    } else {
      var init, last := xs[..|xs| - 1], xs[|xs| - 1];
      assert xs == init + [last];
      CountsPartition(init, key, ks);
      CountsSnoc(init, last, key, ks);
    }
  }

  /** The group totals add up to the column total when the listed keys are
      distinct and every row's key is listed. */
  lemma {:induction false} SumsPartition<T(!new), K>(xs: seq<T>, key: T -> K, ks: seq<K>, val: T -> int)
    requires Distinct(ks)
    requires forall x :: x in xs ==> key(x) in ks
    ensures Total(Sums(xs, key, ks, val)) == Sum(xs, val)
  {
    if xs == [] {
      var ss := Sums(xs, key, ks, val);
      ZeroTotal(ss);
    } else {
      var init, last := xs[..|xs| - 1], xs[|xs| - 1];
      assert xs == init + [last];
      SumsPartition(init, key, ks, val);
      SumsSnoc(init, last, key, ks, val);
      SumSnoc(init, last, val);
    }
  }

  lemma {:induction false} ZeroTotal(ns: seq<int>)
    requires forall i :: 0 <= i < |ns| ==> ns[i] == 0
    ensures Total(ns) == 0
  {
    if ns != [] {
      ZeroTotal(ns[..|ns| - 1]);
    }
  }

  /** Two tables whose rows have the same keys, row by row, have groups of the
      same sizes. */
  lemma {:induction false} WhereSameKeys<T(!new), K>(xs: seq<T>, ys: seq<T>, key: T -> K, k: K)
    requires |xs| == |ys|
    requires forall i :: 0 <= i < |xs| ==> key(xs[i]) == key(ys[i])
    ensures |Where(xs, key, k)| == |Where(ys, key, k)|
  {
    if xs != [] {
      WhereSameKeys(xs[..|xs| - 1], ys[..|ys| - 1], key, k);
    }
  }

  /** A column whose every value lies in [lo, hi] has a total between
      n * lo and n * hi. */
  lemma {:induction false} SumBounds<T>(xs: seq<T>, val: T -> int, lo: int, hi: int)
    requires forall x :: x in xs ==> lo <= val(x) <= hi
    ensures |xs| * lo <= Sum(xs, val) <= |xs| * hi
  {
    if xs != [] {
      var init := xs[..|xs| - 1];
      assert forall x :: x in init ==> x in xs;
      SumBounds(init, val, lo, hi);
      assert |xs| * lo == |init| * lo + lo && |xs| * hi == |init| * hi + hi;
    }
  }
}
