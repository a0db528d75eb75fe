/**
 * The pandas operations the reports are built from, over integer data:
 * column sums, `groupby(...).sum()`, `idxmax`, `nlargest`, value counts,
 * `isin` filters and sums of boolean columns.
 */
module Aggregation {
  import opened Order

  /** A pandas Series: labels with integer values, in index order. */
  type Series<K> = seq<(K, int)>

  function Index<K>(s: Series<K>): seq<K>
  {
    seq(|s|, i requires 0 <= i < |s| => s[i].0)
  }

  function Values<K>(s: Series<K>): seq<int>
  {
    seq(|s|, i requires 0 <= i < |s| => s[i].1)
  }

  function Ones(n: nat): seq<int>
  {
    seq(n, _ => 1)
  }

  /** The positions 0, 1, ..., n - 1 (a default RangeIndex). */
  function Range(n: nat): seq<int>
  {
    seq(n, i => i)
  }

  function Min(a: int, b: int): int
  {
    if a <= b then a else b
  }

  predicate Distinct<K(==)>(s: seq<K>)
  {
    forall i, j :: 0 <= i < j < |s| ==> s[i] != s[j]
  }

  /** `Series.sum()` of an integer column. */
  function Sum(vals: seq<int>): int
  {
    if vals == [] then 0 else vals[0] + Sum(vals[1..])
  }

  /** The sum of the values whose key is `k`. */
  function SumWhere<K(==)>(keys: seq<K>, vals: seq<int>, k: K): int
    requires |keys| == |vals|
  {
    if keys == [] then 0
    else (if keys[0] == k then vals[0] else 0) + SumWhere(keys[1..], vals[1..], k)
  }

  /** How many times `k` occurs among `keys`. */
  function CountOf<K(==)>(keys: seq<K>, k: K): (n: nat)
    ensures n <= |keys|
    ensures n > 0 <==> k in keys
  {
    if keys == [] then 0
    else (if keys[0] == k then 1 else 0) + CountOf(keys[1..], k)
  }

  lemma {:induction false} SumWhereOnes<K>(keys: seq<K>, k: K)
    ensures SumWhere(keys, Ones(|keys|), k) == CountOf(keys, k)
  {
    if keys != [] {
      assert Ones(|keys|)[1..] == Ones(|keys[1..]|);
      SumWhereOnes(keys[1..], k);
    }
  }

  /**
   * The sum of the values whose key is in `s` (`inside`) or not in `s`
   * (`!inside`): `df[df[key].isin(s)][val].sum()` and its complement.
   */
  function SumIf<K(==)>(keys: seq<K>, vals: seq<int>, s: set<K>, inside: bool): int
    requires |keys| == |vals|
  {
    if keys == [] then 0
    else (if (keys[0] in s) == inside then vals[0] else 0) + SumIf(keys[1..], vals[1..], s, inside)
  }

  predicate NonNegative(vals: seq<int>)
  {
    forall i :: 0 <= i < |vals| ==> vals[i] >= 0
  }

  /** An `isin` filter and its complement split the column sum. */
  lemma {:induction false} SumIfPartition<K>(keys: seq<K>, vals: seq<int>, s: set<K>)
    requires |keys| == |vals|
    ensures SumIf(keys, vals, s, true) + SumIf(keys, vals, s, false) == Sum(vals)
  {
    if keys != [] {
      SumIfPartition(keys[1..], vals[1..], s);
    }
  }

  lemma {:induction false} SumIfNonNegative<K>(keys: seq<K>, vals: seq<int>, s: set<K>, inside: bool)
    requires |keys| == |vals| && NonNegative(vals)
    ensures SumIf(keys, vals, s, inside) >= 0
  {
    if keys != [] {
      assert NonNegative(vals[1..]);
      SumIfNonNegative(keys[1..], vals[1..], s, inside);
    }
  }

  /** With non-negative values a filtered sum lies between 0 and the whole sum. */
  lemma SumIfBounded<K>(keys: seq<K>, vals: seq<int>, s: set<K>, inside: bool)
    requires |keys| == |vals|
    ensures NonNegative(vals) ==> 0 <= SumIf(keys, vals, s, inside) <= Sum(vals)
  {
    SumIfPartition(keys, vals, s);
    if NonNegative(vals) {
      SumIfNonNegative(keys, vals, s, true);
      SumIfNonNegative(keys, vals, s, false);
    }
  }

  // ---------------------------------------------------------------------
  // Sorted distinct keys

  /** Inserts `x` into the strictly sorted `s`, unless it is already there. */
  function Insert<K(==, !new)>(x: K, s: seq<K>, lt: (K, K) -> bool): (r: seq<K>)
    requires StrictTotalOrder(lt) && StrictlySorted(s, lt)
    ensures StrictlySorted(r, lt)
    ensures forall y :: y in r <==> y == x || y in s
    ensures |r| == if x in s then |s| else |s| + 1
  {
    if s == [] then [x]
    else if x == s[0] then s
    else if lt(x, s[0]) then
      assert x !in s by {
        assert forall j :: 0 < j < |s| ==> lt(s[0], s[j]);
      }
      [x] + s
    else
      assert lt(s[0], x);
      var t := Insert(x, s[1..], lt);
      assert s == [s[0]] + s[1..];
      assert x in s <==> x in s[1..];
      assert forall y :: y in t ==> lt(s[0], y) by {
        forall y | y in t ensures lt(s[0], y) {
          if y != x {
            var j :| 0 <= j < |s[1..]| && s[1..][j] == y;
            assert lt(s[0], s[j + 1]);
          }
        }
      }
      assert StrictlySorted([s[0]] + t, lt) by {
        forall i, j | 0 <= i < j < |t| + 1 ensures lt(([s[0]] + t)[i], ([s[0]] + t)[j]) {
          if i == 0 {
            assert ([s[0]] + t)[j] == t[j - 1];
            assert t[j - 1] in t;
          } else {
            assert ([s[0]] + t)[i] == t[i - 1] && ([s[0]] + t)[j] == t[j - 1];
          }
        }
      }
      [s[0]] + t
  }

  /** The distinct elements of `xs`, sorted by `lt`: the index a `groupby` builds. */
  function SortedDistinct<K(==, !new)>(xs: seq<K>, lt: (K, K) -> bool): (r: seq<K>)
    requires StrictTotalOrder(lt)
    ensures StrictlySorted(r, lt)
    ensures forall y :: y in r <==> y in xs
    ensures |r| <= |xs|
    ensures Distinct(xs) ==> |r| == |xs|
  {
    if xs == [] then []
    else
      var r := Insert(xs[0], SortedDistinct(xs[1..], lt), lt);
      assert xs == [xs[0]] + xs[1..];
      assert Distinct(xs) ==> Distinct(xs[1..]) && xs[0] !in xs[1..];
      r
  }

  lemma SortedIsDistinct<K(!new)>(s: seq<K>, lt: (K, K) -> bool)
    requires StrictTotalOrder(lt) && StrictlySorted(s, lt)
    ensures Distinct(s)
  {
    forall i, j | 0 <= i < j < |s| ensures s[i] != s[j] {
      assert lt(s[i], s[j]);
    }
  }

  // ---------------------------------------------------------------------
  // groupby(key)[val].sum()

  /** One entry per key of `ks`: the key with the sum of its values. */
  function GroupEntries<K(==)>(keys: seq<K>, vals: seq<int>, ks: seq<K>): Series<K>
    requires |keys| == |vals|
  {
    seq(|ks|, i requires 0 <= i < |ks| => (ks[i], SumWhere(keys, vals, ks[i])))
  }

  lemma GroupEntriesStep<K>(keys: seq<K>, vals: seq<int>, ks: seq<K>)
    requires |keys| == |vals| && ks != []
    ensures Sum(Values(GroupEntries(keys, vals, ks)))
         == SumWhere(keys, vals, ks[0]) + Sum(Values(GroupEntries(keys, vals, ks[1..])))
  {
    assert Values(GroupEntries(keys, vals, ks))[1..] == Values(GroupEntries(keys, vals, ks[1..]));
  }

  lemma {:induction false} GroupEntriesOfEmpty<K>(ks: seq<K>)
    ensures Sum(Values(GroupEntries([], [], ks))) == 0
  {
    if ks != [] {
      GroupEntriesStep([], [], ks);
      GroupEntriesOfEmpty(ks[1..]);
    }
  }

  /** Removing the first row takes its value out of exactly one group. */
  lemma {:induction false} GroupEntriesPeel<K>(keys: seq<K>, vals: seq<int>, ks: seq<K>)
    requires |keys| == |vals| && keys != [] && Distinct(ks)
    ensures Sum(Values(GroupEntries(keys, vals, ks)))
         == (if keys[0] in ks then vals[0] else 0) + Sum(Values(GroupEntries(keys[1..], vals[1..], ks)))
  {
    if ks != [] {
      GroupEntriesStep(keys, vals, ks);
      GroupEntriesStep(keys[1..], vals[1..], ks);
      assert Distinct(ks[1..]);
      GroupEntriesPeel(keys, vals, ks[1..]);
      assert ks == [ks[0]] + ks[1..];
      assert keys[0] == ks[0] ==> keys[0] !in ks[1..];
    }
  }

  /** Grouping over distinct keys that cover every key keeps the total. */
  lemma {:induction false} GroupEntriesTotal<K>(keys: seq<K>, vals: seq<int>, ks: seq<K>)
    requires |keys| == |vals| && Distinct(ks)
    requires forall k :: k in keys ==> k in ks
    ensures Sum(Values(GroupEntries(keys, vals, ks))) == Sum(vals)
  {
    if keys == [] {
      GroupEntriesOfEmpty(ks);
    } else {
      assert keys[0] in keys;
      GroupEntriesPeel(keys, vals, ks);
      forall k | k in keys[1..] ensures k in ks {
        assert k in keys;
      }
      GroupEntriesTotal(keys[1..], vals[1..], ks);
    }
  }

  /**
   * `groupby(key)[val].sum()`: one entry per distinct key, keys sorted by
   * `lt`, each with the sum of its values.
   */
  function GroupSum<K(==, !new)>(keys: seq<K>, vals: seq<int>, lt: (K, K) -> bool): (r: Series<K>)
    requires |keys| == |vals| && StrictTotalOrder(lt)
    ensures StrictlySorted(Index(r), lt)
    ensures forall k :: k in Index(r) <==> k in keys
    ensures forall i :: 0 <= i < |r| ==> r[i].1 == SumWhere(keys, vals, r[i].0)
    ensures Sum(Values(r)) == Sum(vals)
    ensures |r| <= |keys|
    ensures |r| > 0 <==> |keys| > 0
  {
    var ks := SortedDistinct(keys, lt);
    var r := GroupEntries(keys, vals, ks);
    assert Index(r) == ks;
    SortedIsDistinct(ks, lt);
    GroupEntriesTotal(keys, vals, ks);
    assert |keys| > 0 ==> keys[0] in ks;
    r
  }

  /**
   * Grouping by a column that holds one key throughout gives that key alone
   * with the whole sum, or nothing for an empty column.
   */
  lemma GroupSumSingleKey<K(!new)>(keys: seq<K>, vals: seq<int>, lt: (K, K) -> bool, k: K)
    requires |keys| == |vals| && StrictTotalOrder(lt)
    requires forall i :: 0 <= i < |keys| ==> keys[i] == k
    ensures var g := GroupSum(keys, vals, lt);
            && |g| == (if |keys| == 0 then 0 else 1)
            && (|keys| > 0 ==> g[0] == (k, Sum(vals)))
  {
    var g := GroupSum(keys, vals, lt);
    SortedDistinctOfConstant(keys, lt, k);
    assert |g| == 1 ==> Values(g) == [g[0].1] && Sum(Values(g)) == g[0].1 + Sum([]);
  }

  lemma {:induction false} SortedDistinctOfConstant<K(!new)>(keys: seq<K>, lt: (K, K) -> bool, k: K)
    requires StrictTotalOrder(lt)
    requires forall i :: 0 <= i < |keys| ==> keys[i] == k
    ensures SortedDistinct(keys, lt) == if |keys| == 0 then [] else [k]
  {
    if keys != [] {
      SortedDistinctOfConstant(keys[1..], lt, k);
    }
  }

  /**
   * `s[key] = total - s.sum()` for a key `s` does not hold yet: a new entry
   * is appended after the others, and the series then sums to `total`.
   */
  function WithRemainder<K(==)>(s: Series<K>, key: K, total: int): (r: Series<K>)
    requires key !in Index(s)
    ensures |r| == |s| + 1 && r[|s|] == (key, total - Sum(Values(s)))
    ensures forall i :: 0 <= i < |s| ==> r[i] == s[i]
    ensures Index(r) == Index(s) + [key]
    ensures Sum(Values(r)) == total
  {
    var v := total - Sum(Values(s));
    var r := s + [(key, v)];
    assert Values(r) == Values(s) + [v];
    SumAppend(Values(s), v);
    assert Index(r) == Index(s) + [key];
    r
  }

  lemma {:induction false} SumAppend(vals: seq<int>, x: int)
    ensures Sum(vals + [x]) == Sum(vals) + x
  {
    if vals == [] {
      assert vals + [x] == [x];
      assert Sum([x]) == x + Sum([]);
    } else {
      assert (vals + [x])[1..] == vals[1..] + [x];
      SumAppend(vals[1..], x);
    }
  }

  /** `value_counts()` followed by `sort_index()`: how often each key occurs, keys sorted. */
  function GroupCount<K(==, !new)>(keys: seq<K>, lt: (K, K) -> bool): (r: Series<K>)
    requires StrictTotalOrder(lt)
    ensures StrictlySorted(Index(r), lt)
    ensures forall k :: k in Index(r) <==> k in keys
    ensures forall i :: 0 <= i < |r| ==> r[i].1 == CountOf(keys, r[i].0) && r[i].1 >= 1
    ensures Sum(Values(r)) == |keys|
  {
    var r := GroupSum(keys, Ones(|keys|), lt);
    forall i | 0 <= i < |r| ensures r[i].1 == CountOf(keys, r[i].0) {
      SumWhereOnes(keys, r[i].0);
    }
    forall i | 0 <= i < |r| ensures r[i].0 in keys {
      assert Index(r)[i] == r[i].0;
    }
    OnesSum(|keys|);
    r
  }

  lemma {:induction false} OnesSum(n: nat)
    ensures Sum(Ones(n)) == n
  {
    if n > 0 {
      assert Ones(n)[1..] == Ones(n - 1);
      OnesSum(n - 1);
    }
  }

  /**
   * `value_counts()`: how often each key occurs, most frequent first.
   * Keys with equal counts come in the order `lt`.
   */
  function ValueCounts<K(==, !new)>(keys: seq<K>, lt: (K, K) -> bool): (r: Series<K>)
    requires StrictTotalOrder(lt)
    ensures Distinct(Index(r))
    ensures forall k :: k in Index(r) <==> k in keys
    ensures forall i :: 0 <= i < |r| ==> r[i].1 == CountOf(keys, r[i].0) && r[i].1 >= 1
    ensures forall i, j :: 0 <= i < j < |r| ==> r[i].1 >= r[j].1
    ensures Sum(Values(r)) == |keys|
  {
    var order := ByWeightDesc((k: K) => CountOf(keys, k), lt);
    ByWeightDescIsStrictTotalOrder((k: K) => CountOf(keys, k), lt);
    var ks := SortedDistinct(keys, order);
    var r := GroupEntries(keys, Ones(|keys|), ks);
    assert Index(r) == ks;
    SortedIsDistinct(ks, order);
    forall i | 0 <= i < |r| ensures r[i].1 == CountOf(keys, r[i].0) && r[i].1 >= 1 {
      SumWhereOnes(keys, r[i].0);
      assert r[i].0 in ks;
    }
    forall i, j | 0 <= i < j < |r| ensures r[i].1 >= r[j].1 {
      assert order(ks[i], ks[j]);
    }
    GroupEntriesTotal(keys, Ones(|keys|), ks);
    OnesSum(|keys|);
    r
  }

  // ---------------------------------------------------------------------
  // idxmax

  /** `idxmax` over positions: a position of the largest value, the first one on ties. */
  function ArgMaxFirst(vals: seq<int>): (k: nat)
    requires |vals| > 0
    ensures k < |vals|
    ensures forall j :: 0 <= j < |vals| ==> vals[j] <= vals[k]
    ensures forall j :: 0 <= j < k ==> vals[j] < vals[k]
  {
    if |vals| == 1 then 0
    else
      var t := 1 + ArgMaxFirst(vals[1..]);
      if vals[0] >= vals[t] then 0 else t
  }

  /**
   * `groupby(key)[val].sum().idxmax()` picks a key whose sum is largest;
   * among keys with that sum it picks the one first in the order `lt`.
   */
  lemma GroupArgMax<K(!new)>(keys: seq<K>, vals: seq<int>, lt: (K, K) -> bool)
    requires |keys| == |vals| && |keys| > 0 && StrictTotalOrder(lt)
    ensures var g := GroupSum(keys, vals, lt);
            var k := ArgMaxFirst(Values(g));
            && g[k].0 in keys
            && g[k].1 == SumWhere(keys, vals, g[k].0)
            && (forall x :: x in keys ==> SumWhere(keys, vals, x) <= g[k].1)
            && (forall x :: x in keys && SumWhere(keys, vals, x) == g[k].1 ==> x == g[k].0 || lt(g[k].0, x))
  {
    var g := GroupSum(keys, vals, lt);
    var k := ArgMaxFirst(Values(g));
    assert Index(g)[k] == g[k].0;
    forall x | x in keys
      ensures SumWhere(keys, vals, x) <= g[k].1
      ensures SumWhere(keys, vals, x) == g[k].1 ==> x == g[k].0 || lt(g[k].0, x)
    {
      assert x in Index(g);
      var j :| 0 <= j < |g| && Index(g)[j] == x;
      assert Values(g)[j] <= Values(g)[k];
      if SumWhere(keys, vals, x) == g[k].1 && j != k {
        assert !(j < k);
        assert lt(Index(g)[k], Index(g)[j]);
      }
    }
  }

  // ---------------------------------------------------------------------
  // nlargest(n, keep='first')

  lemma RangeFacts(n: nat)
    ensures Distinct(Range(n))
    ensures forall x :: x in Range(n) <==> 0 <= x < n
  {
    forall x | 0 <= x < n ensures x in Range(n) {
      assert Range(n)[x] == x;
    }
  }

  /** All positions of `vals`, ranked by `RankOrder`. */
  function Ranking(vals: seq<int>): (p: seq<int>)
    ensures |p| == |vals| && Distinct(p) && StrictlySorted(p, RankOrder(vals))
    ensures forall x :: x in p <==> 0 <= x < |vals|
  {
    RankOrderIsStrictTotalOrder(vals);
    RangeFacts(|vals|);
    var p := SortedDistinct(Range(|vals|), RankOrder(vals));
    SortedIsDistinct(p, RankOrder(vals));
    p
  }

  /**
   * The positions `nlargest(n, keep='first')` keeps, in the order it lists
   * them: at most `n`, by non-increasing value, the earlier position first
   * on equal values; no omitted position beats a kept one.
   */
  function TopPositions(vals: seq<int>, n: nat): (p: seq<int>)
    ensures |p| == Min(n, |vals|) && Distinct(p)
    ensures forall i :: 0 <= i < |p| ==> 0 <= p[i] < |vals|
    ensures forall i, j :: 0 <= i < j < |p| ==>
              vals[p[i]] > vals[p[j]] || (vals[p[i]] == vals[p[j]] && p[i] < p[j])
    ensures forall i, j :: 0 <= i < |p| && 0 <= j < |vals| && j !in p ==>
              vals[p[i]] > vals[j] || (vals[p[i]] == vals[j] && p[i] < j)
    ensures n >= |vals| ==> forall j :: 0 <= j < |vals| ==> j in p
  {
    var m := Min(n, |vals|);
    RankingPrefixOrdered(vals, m);
    RankingPrefixBeatsRest(vals, m);
    assert n >= |vals| ==> Ranking(vals)[..m] == Ranking(vals);
    Ranking(vals)[..m]
  }

  /** The first `m` ranked positions are in range, distinct and in rank order. */
  lemma RankingPrefixOrdered(vals: seq<int>, m: nat)
    requires m <= |vals|
    ensures var p := Ranking(vals)[..m];
            && Distinct(p)
            && (forall i :: 0 <= i < |p| ==> 0 <= p[i] < |vals|)
            && (forall i, j :: 0 <= i < j < |p| ==>
                  vals[p[i]] > vals[p[j]] || (vals[p[i]] == vals[p[j]] && p[i] < p[j]))
  {
    var q := Ranking(vals);
    var p := q[..m];
    forall i | 0 <= i < |p| ensures 0 <= p[i] < |vals| {
      assert p[i] in q;
    }
    forall i, j | 0 <= i < j < |p|
      ensures vals[p[i]] > vals[p[j]] || (vals[p[i]] == vals[p[j]] && p[i] < p[j])
    {
      assert RankOrder(vals)(q[i], q[j]);
      RankOrderAt(vals, p[i], p[j]);
    }
  }

  /** A position outside the first `m` ranked ones comes after each of them. */
  lemma RankingPrefixBeatsRest(vals: seq<int>, m: nat)
    requires m <= |vals|
    ensures var p := Ranking(vals)[..m];
            && (forall i :: 0 <= i < |p| ==> 0 <= p[i] < |vals|)
            && (forall i, j :: 0 <= i < |p| && 0 <= j < |vals| && j !in p ==>
                  vals[p[i]] > vals[j] || (vals[p[i]] == vals[j] && p[i] < j))
  {
    var q := Ranking(vals);
    var p := q[..m];
    RankingPrefixOrdered(vals, m);
    forall i, j | 0 <= i < |p| && 0 <= j < |vals| && j !in p
      ensures vals[p[i]] > vals[j] || (vals[p[i]] == vals[j] && p[i] < j)
    {
      assert j in q;
      var t :| 0 <= t < |q| && q[t] == j;
      assert t >= m by {
        assert forall u :: 0 <= u < m ==> q[u] == p[u] && p[u] in p;
      }
      assert RankOrder(vals)(q[i], q[t]);
      assert p[i] in q;
      RankOrderAt(vals, p[i], j);
    }
  }

  /** The elements of `s` at positions `p`, in that order (`s.iloc[p]`). */
  function Pick<T>(s: seq<T>, p: seq<int>): (r: seq<T>)
    requires forall i :: 0 <= i < |p| ==> 0 <= p[i] < |s|
    ensures |r| == |p|
  {
    seq(|p|, i requires 0 <= i < |p| => s[p[i]])
  }

  /**
   * `Series.nlargest(n)`: at most `n` entries of `s` by non-increasing
   * value; no omitted entry has a larger value than a listed one.
   */
  function NLargest<K>(s: Series<K>, n: nat): (r: Series<K>)
    ensures |r| == Min(n, |s|)
    ensures forall i :: 0 <= i < |r| ==> r[i] == s[TopPositions(Values(s), n)[i]]
    ensures forall i, j :: 0 <= i < j < |r| ==> r[i].1 >= r[j].1
    ensures forall i, j :: 0 <= i < |r| && 0 <= j < |s| && j !in TopPositions(Values(s), n) ==> s[j].1 <= r[i].1
  {
    var p := TopPositions(Values(s), n);
    Pick(s, p)
  }

  /**
   * What `groupby(key)[val].sum().nlargest(n)` lists: at most `n` distinct
   * keys with their sums, by non-increasing sum, equal sums in the order
   * `lt`; a key left out has a smaller sum than every listed one, or an
   * equal sum and a place after it in `lt`; and fewer than `n` are listed
   * only when every key is.
   */
  predicate IsTopGroups<K(==)>(r: Series<K>, keys: seq<K>, vals: seq<int>, lt: (K, K) -> bool, n: nat)
    requires |keys| == |vals|
  {
    && |r| <= n
    && Distinct(Index(r))
    && (forall i :: 0 <= i < |r| ==> r[i].0 in keys && r[i].1 == SumWhere(keys, vals, r[i].0))
    && (forall i, j :: 0 <= i < j < |r| ==> r[i].1 >= r[j].1)
    && (forall i, j :: 0 <= i < j < |r| && r[i].1 == r[j].1 ==> lt(r[i].0, r[j].0))
    && (forall i, x :: 0 <= i < |r| && x in keys && x !in Index(r) ==>
          SumWhere(keys, vals, x) < r[i].1 || (SumWhere(keys, vals, x) == r[i].1 && lt(r[i].0, x)))
    && (|r| < n ==> forall x :: x in keys ==> x in Index(r))
  }

  /** `groupby(key)[val].sum().nlargest(n)`. */
  function TopGroups<K(==, !new)>(keys: seq<K>, vals: seq<int>, lt: (K, K) -> bool, n: nat): (r: Series<K>)
    requires |keys| == |vals| && StrictTotalOrder(lt)
    ensures IsTopGroups(r, keys, vals, lt, n)
    ensures |r| == Min(n, |GroupSum(keys, vals, lt)|)
  {
    var g := GroupSum(keys, vals, lt);
    TopGroupsListed(keys, vals, lt, g, n);
    TopGroupsTies(keys, vals, lt, g, n);
    TopGroupsOmitted(keys, vals, lt, g, n);
    TopGroupsComplete(keys, vals, lt, g, n);
    NLargest(g, n)
  }

  lemma TopGroupsComplete<K(!new)>(keys: seq<K>, vals: seq<int>, lt: (K, K) -> bool, g: Series<K>, n: nat)
    requires |keys| == |vals| && StrictTotalOrder(lt) && g == GroupSum(keys, vals, lt)
    ensures var r := NLargest(g, n);
            |r| < n ==> forall x :: x in keys ==> x in Index(r)
  {
    var r := NLargest(g, n);
    var p := TopPositions(Values(g), n);
    if |r| < n {
      forall x | x in keys ensures x in Index(r) {
        assert x in Index(g);
        var j :| 0 <= j < |g| && Index(g)[j] == x;
        assert j in p;
        var t :| 0 <= t < |p| && p[t] == j;
        assert Index(r)[t] == x;
      }
    }
  }

  lemma TopGroupsListed<K(!new)>(keys: seq<K>, vals: seq<int>, lt: (K, K) -> bool, g: Series<K>, n: nat)
    requires |keys| == |vals| && StrictTotalOrder(lt) && g == GroupSum(keys, vals, lt)
    ensures var r := NLargest(g, n);
            && Distinct(Index(r))
            && forall i :: 0 <= i < |r| ==> r[i].0 in keys && r[i].1 == SumWhere(keys, vals, r[i].0)
  {
    var r := NLargest(g, n);
    var p := TopPositions(Values(g), n);
    forall i | 0 <= i < |r| ensures r[i].0 in keys {
      assert Index(g)[p[i]] == r[i].0;
    }
    SortedIsDistinct(Index(g), lt);
    forall i, j | 0 <= i < j < |r| ensures Index(r)[i] != Index(r)[j] {
      assert Index(g)[p[i]] == r[i].0 && Index(g)[p[j]] == r[j].0;
    }
  }

  lemma TopGroupsTies<K(!new)>(keys: seq<K>, vals: seq<int>, lt: (K, K) -> bool, g: Series<K>, n: nat)
    requires |keys| == |vals| && StrictTotalOrder(lt) && g == GroupSum(keys, vals, lt)
    ensures var r := NLargest(g, n);
            forall i, j :: 0 <= i < j < |r| && r[i].1 == r[j].1 ==> lt(r[i].0, r[j].0)
  {
    var r := NLargest(g, n);
    var p := TopPositions(Values(g), n);
    forall i, j | 0 <= i < j < |r| && r[i].1 == r[j].1 ensures lt(r[i].0, r[j].0) {
      assert Values(g)[p[i]] == r[i].1 && Values(g)[p[j]] == r[j].1;
      assert p[i] < p[j];
      assert Index(g)[p[i]] == r[i].0 && Index(g)[p[j]] == r[j].0;
    }
  }

  lemma TopGroupsOmitted<K(!new)>(keys: seq<K>, vals: seq<int>, lt: (K, K) -> bool, g: Series<K>, n: nat)
    requires |keys| == |vals| && StrictTotalOrder(lt) && g == GroupSum(keys, vals, lt)
    ensures var r := NLargest(g, n);
            forall i, x :: 0 <= i < |r| && x in keys && x !in Index(r) ==>
              SumWhere(keys, vals, x) < r[i].1 || (SumWhere(keys, vals, x) == r[i].1 && lt(r[i].0, x))
  {
    var r := NLargest(g, n);
    var p := TopPositions(Values(g), n);
    forall i, x | 0 <= i < |r| && x in keys && x !in Index(r)
      ensures SumWhere(keys, vals, x) < r[i].1 || (SumWhere(keys, vals, x) == r[i].1 && lt(r[i].0, x))
    {
      assert x in Index(g);
      var j :| 0 <= j < |g| && Index(g)[j] == x;
      assert j !in p by {
        assert forall t :: 0 <= t < |p| ==> Index(r)[t] == Index(g)[p[t]];
      }
      assert Values(g)[p[i]] > Values(g)[j] || (Values(g)[p[i]] == Values(g)[j] && p[i] < j);
      if Values(g)[p[i]] == Values(g)[j] {
        assert lt(Index(g)[p[i]], Index(g)[j]);
      }
    }
  }

  // ---------------------------------------------------------------------
  // Sums of boolean columns and means

  /** The sum of a boolean column: how many rows have `flag` set. */
  function CountTrue<R>(rows: seq<R>, flag: R -> bool): (n: nat)
    ensures n <= |rows|
  {
    if rows == [] then 0 else (if flag(rows[0]) then 1 else 0) + CountTrue(rows[1..], flag)
  }

  lemma {:induction false} CountTrueConcat<R>(a: seq<R>, b: seq<R>, flag: R -> bool)
    ensures CountTrue(a + b, flag) == CountTrue(a, flag) + CountTrue(b, flag)
  {
    if a == [] {
      assert a + b == b;
    } else {
      assert (a + b)[1..] == a[1..] + b;
      CountTrueConcat(a[1..], b, flag);
    }
  }

  lemma CountTrueRemove<R>(b: seq<R>, j: nat, flag: R -> bool)
    requires j < |b|
    ensures CountTrue(b, flag) == (if flag(b[j]) then 1 else 0) + CountTrue(b[..j] + b[j + 1..], flag)
  {
    assert b == b[..j] + ([b[j]] + b[j + 1..]);
    CountTrueConcat(b[..j], [b[j]] + b[j + 1..], flag);
    CountTrueConcat([b[j]], b[j + 1..], flag);
    CountTrueConcat(b[..j], b[j + 1..], flag);
  }

  lemma MultisetRemove<R>(b: seq<R>, j: nat)
    requires j < |b|
    ensures multiset(b[..j] + b[j + 1..]) == multiset(b) - multiset{b[j]}
  {
    assert b == b[..j] + [b[j]] + b[j + 1..];
    assert multiset(b) == multiset(b[..j]) + multiset{b[j]} + multiset(b[j + 1..]);
  }

  /** A boolean column's sum does not depend on the order of the rows. */
  lemma {:induction false} CountTruePermutation<R>(a: seq<R>, b: seq<R>, flag: R -> bool)
    requires multiset(a) == multiset(b)
    ensures CountTrue(a, flag) == CountTrue(b, flag)
    decreases |a|
  {
    if a == [] {
      assert |b| == |multiset(b)| == 0;
    } else {
      var x := a[0];
      assert x in multiset(b);
      var j :| 0 <= j < |b| && b[j] == x;
      MultisetRemove(a, 0);
      MultisetRemove(b, j);
      assert a[..0] + a[1..] == a[1..];
      CountTruePermutation(a[1..], b[..j] + b[j + 1..], flag);
      CountTrueRemove(b, j, flag);
    }
  }

  /** `Series.mean()` of a non-empty integer column. */
  function Mean(vals: seq<int>): (m: real)
    requires |vals| > 0
    ensures m * (|vals| as real) == Sum(vals) as real
  {
    Sum(vals) as real / |vals| as real
  }
}
