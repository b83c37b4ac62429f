/** Why integer keys are enough: the keys of any finite run, under whatever strict total
    order, can be renamed to integers without changing a single comparison. */
module Keys {
  import opened Base

  ghost predicate StrictTotalOrder<K>(keys: set<K>, less: (K, K) -> bool) {
    && (forall a, b :: a in keys && b in keys && less(a, b) ==> a != b && !less(b, a))
    && (forall a, b :: a in keys && b in keys && a != b ==> less(a, b) || less(b, a))
    && (forall a, b, c :: a in keys && b in keys && c in keys && less(a, b) && less(b, c) ==> less(a, c))
  }

  /** How many of `keys` are less than `k`. */
  ghost function Rank<K>(keys: set<K>, less: (K, K) -> bool, k: K): int {
    |set x | x in keys && less(x, k)|
  }

  lemma {:induction false} SmallerSet<K>(a: set<K>, b: set<K>, x: K)
    requires a <= b && x in b && x !in a
    ensures |a| < |b|
  {
    assert a <= b - {x};
    SubsetSize(a, b - {x});
  }

  lemma {:induction false} RankUp<K>(keys: set<K>, less: (K, K) -> bool, a: K, b: K)
    requires StrictTotalOrder(keys, less) && a in keys && b in keys && less(a, b)
    ensures Rank(keys, less, a) < Rank(keys, less, b)
  {
    var below := set x | x in keys && less(x, a);
    var above := set x | x in keys && less(x, b);
    SmallerSet(below, above, a);
  }

  /** The rank keeps `<` and `==`, in both directions. */
  lemma {:induction false} RankEmbeds<K>(keys: set<K>, less: (K, K) -> bool, a: K, b: K)
    requires StrictTotalOrder(keys, less) && a in keys && b in keys
    ensures less(a, b) <==> Rank(keys, less, a) < Rank(keys, less, b)
    ensures a == b <==> Rank(keys, less, a) == Rank(keys, less, b)
  {
    if less(a, b) {
      RankUp(keys, less, a, b);
    } else if less(b, a) {
      RankUp(keys, less, b, a);
    }
  }
}
