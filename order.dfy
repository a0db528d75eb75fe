/**
 * The orders in which pandas lays out keys: `groupby` sorts its keys
 * (integers numerically, strings the way Python compares them), and
 * `nlargest` ranks positions by value, earlier position first on ties.
 */
module Order {

  /** `lt` is a strict total order: irreflexive, transitive and connected. */
  ghost predicate StrictTotalOrder<K(!new)>(lt: (K, K) -> bool)
  {
    && (forall x :: !lt(x, x))
    && (forall x, y, z :: lt(x, y) && lt(y, z) ==> lt(x, z))
    && (forall x, y :: x != y ==> lt(x, y) || lt(y, x))
  }

  /** Every element of `s` comes strictly before every later one. */
  predicate StrictlySorted<K>(s: seq<K>, lt: (K, K) -> bool)
  {
    forall i, j :: 0 <= i < j < |s| ==> lt(s[i], s[j])
  }

  /** The order of integer group keys. */
  predicate IntLess(a: int, b: int)
  {
    a < b
  }

  lemma IntLessIsStrictTotalOrder()
    ensures StrictTotalOrder(IntLess)
  {
  }

  /**
   * Python's comparison of `str` values: code point by code point, and a
   * proper prefix before any longer string.
   */
  predicate StrLess(a: string, b: string)
    decreases |a|
  {
    if |a| == 0 then |b| > 0
    else if |b| == 0 then false
    else if a[0] != b[0] then a[0] < b[0]
    else StrLess(a[1..], b[1..])
  }

  lemma {:induction false} StrLessIrreflexive(a: string)
    ensures !StrLess(a, a)
    decreases |a|
  {
    if |a| > 0 {
      StrLessIrreflexive(a[1..]);
    }
  }

  lemma {:induction false} StrLessTransitive(a: string, b: string, c: string)
    requires StrLess(a, b) && StrLess(b, c)
    ensures StrLess(a, c)
    decreases |a|
  {
    if |a| > 0 && a[0] == b[0] && b[0] == c[0] {
      StrLessTransitive(a[1..], b[1..], c[1..]);
    }
  }

  lemma {:induction false} StrLessConnected(a: string, b: string)
    requires a != b
    ensures StrLess(a, b) || StrLess(b, a)
    decreases |a|
  {
    if |a| > 0 && |b| > 0 && a[0] == b[0] {
      assert a == [a[0]] + a[1..] && b == [b[0]] + b[1..];
      StrLessConnected(a[1..], b[1..]);
    }
  }

  /** A proper prefix comes first. */
  lemma {:induction false} StrLessPrefix(a: string, b: string)
    requires |a| < |b| && b[..|a|] == a
    ensures StrLess(a, b)
    decreases |a|
  {
    if |a| > 0 {
      assert b[1..][..|a| - 1] == a[1..];
      StrLessPrefix(a[1..], b[1..]);
    }
  }

  /** Strings that differ in their first character compare by it. */
  lemma StrLessFirst(a: string, b: string)
    requires |a| > 0 && |b| > 0 && a[0] < b[0]
    ensures StrLess(a, b)
  {
  }

  lemma StrLessAsymmetric(a: string, b: string)
    requires StrLess(a, b)
    ensures !StrLess(b, a)
  {
    StrLessIrreflexive(a);
    if StrLess(b, a) {
      StrLessTransitive(a, b, a);
    }
  }

  lemma StrLessIsStrictTotalOrder()
    ensures StrictTotalOrder(StrLess)
  {
    forall x: string ensures !StrLess(x, x) {
      StrLessIrreflexive(x);
    }
    forall x: string, y: string, z: string | StrLess(x, y) && StrLess(y, z)
      ensures StrLess(x, z)
    {
      StrLessTransitive(x, y, z);
    }
    forall x: string, y: string | x != y
      ensures StrLess(x, y) || StrLess(y, x)
    {
      StrLessConnected(x, y);
    }
  }

  /**
   * Larger weight first; equal weights in the order `lt`. This is how
   * `nlargest` and `value_counts` rank what they return.
   */
  function ByWeightDesc<K>(weight: K -> int, lt: (K, K) -> bool): (K, K) -> bool
  {
    (a: K, b: K) => weight(a) > weight(b) || (weight(a) == weight(b) && lt(a, b))
  }

  lemma ByWeightDescIsStrictTotalOrder<K(!new)>(weight: K -> int, lt: (K, K) -> bool)
    requires StrictTotalOrder(lt)
    ensures StrictTotalOrder(ByWeightDesc(weight, lt))
  {
  }

  /** The value at position `i` of `vals`, or 0 outside it. */
  function ValueAt(vals: seq<int>, i: int): int
  {
    if 0 <= i < |vals| then vals[i] else 0
  }

  /**
   * The order `nlargest(keep='first')` ranks positions in: larger value
   * first, and on equal values the earlier position first.
   */
  function RankOrder(vals: seq<int>): (int, int) -> bool
  {
    ByWeightDesc((i: int) => ValueAt(vals, i), IntLess)
  }

  lemma RankOrderIsStrictTotalOrder(vals: seq<int>)
    ensures StrictTotalOrder(RankOrder(vals))
  {
    IntLessIsStrictTotalOrder();
    ByWeightDescIsStrictTotalOrder((i: int) => ValueAt(vals, i), IntLess);
  }

  /** On positions inside `vals`, `RankOrder` reads as its definition says. */
  lemma RankOrderAt(vals: seq<int>, i: int, j: int)
    requires 0 <= i < |vals| && 0 <= j < |vals|
    ensures RankOrder(vals)(i, j) <==> vals[i] > vals[j] || (vals[i] == vals[j] && i < j)
  {
    var w := (k: int) => ValueAt(vals, k);
    assert w(i) == vals[i] && w(j) == vals[j];
    assert RankOrder(vals)(i, j) == (w(i) > w(j) || (w(i) == w(j) && IntLess(i, j)));
  }
}
