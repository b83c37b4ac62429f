/** Where a split cuts: how many pieces it aims at, how large, and at which message or
    pivot each piece ends. */
module Cutting {
  import opened Messages
  import opened Trees
  import opened Stores
  import opened Splitting

  /** `n` pieces are aimed at, as many as five twelfths of the maximum, rounded down, go into
      the whole; and `p` things in each, the least with which `n` pieces hold the whole. */
  ghost predicate Shares(total: nat, max: nat, n: nat, p: nat) {
    var q := 10 * max / 24;
    && n >= 1 && n * q <= total < (n + 1) * q
    && p >= 1 && (p - 1) * n < total <= p * n
  }

  lemma {:induction false} SharesUnique(total: nat, max: nat, n: nat, p: nat, n': nat, p': nat)
    requires Shares(total, max, n, p) && Shares(total, max, n', p')
    ensures n == n' && p == p'
  {
    var q := 10 * max / 24;
    MulCancel(n, n' + 1, q);
    MulCancel(n', n + 1, q);
    MulCancel(p - 1, p', n);
    MulCancel(p' - 1, p, n);
  }

  lemma {:induction false} SplitShares(total: nat, max: nat)
    requires max >= 3 && total >= max
    ensures NumNewLeaves(total, max) >= 1
    ensures Shares(total, max, NumNewLeaves(total, max), ThingsPerNewLeaf(total, max))
  {
    var q := 10 * max / 24;
    SplitArithmetic(total, max);
    var n, p := NumNewLeaves(total, max), ThingsPerNewLeaf(total, max);
    assert n * q <= total < n * q + q by {
      DivBounds(total, q);
    }
    assert p * n <= total + n - 1 < p * n + n by {
      DivBounds(total + n - 1, n);
    }
    hide NumNewLeaves, ThingsPerNewLeaf;
    OneLess(p, n);
    OneMore(n, q);
  }

  lemma {:induction false} OneLess(p: nat, n: nat)
    ensures (p - 1) * n == p * n - n
  {
  }

  lemma {:induction false} OneMore(n: nat, q: nat)
    ensures (n + 1) * q == n * q + q
  {
  }

  /** How many things the first `k` pieces hold. */
  ghost function Moved(forest: seq<Pivot>, k: nat): nat
    requires k <= |forest|
  {
    |FlatPivots(forest[..k])| + |FlatElements(forest[..k])|
  }

  /** Piece `k` ends with the share that the things before it have not filled yet: at the
      first message of a leaf, or the first pivot with its messages, at which that share is
      full; or where the node ends. */
  ghost predicate CutAt(t: Tree, forest: seq<Pivot>, p: nat, k: nat)
    requires p >= 1 && k < |forest|
  {
    var limit := Quota(Moved(forest, k) / p + 1, p);
    var end, pi := Moved(forest, k + 1), |FlatPivots(forest[..k + 1])|;
    && (end >= limit || end == Size(t))
    && if t.pivots == [] then end <= limit
       else 0 < pi <= |t.pivots| && end == BoundaryAt(t, pi) && BoundaryAt(t, pi - 1) < limit
  }

  /** How many things the first `i` pivots and the messages for them are. */
  ghost function BoundaryAt(t: Tree, i: nat): nat
    requires i <= |t.pivots|
  {
    i + ElementBegin(AsNode(t), i)
  }

  /** A piece is stored under the first key in it. */
  ghost predicate FirstKey(p: Pivot) {
    if p.child.pivots != [] then p.key == p.child.pivots[0].key
    else p.child.elements != [] && p.key == p.child.elements[0].mkey.key
  }

  ghost predicate Cuts(t: Tree, forest: seq<Pivot>, p: nat)
    requires p >= 1
  {
    forall k :: 0 <= k < |forest| ==> CutAt(t, forest, p, k) && FirstKey(forest[k])
  }

  /** `forest` is `t`, cut into even shares. */
  ghost predicate CutEvenly(t: Tree, forest: seq<Pivot>, max: nat) {
    && Partition(t, forest, |t.pivots|, |t.elements|)
    && exists n: nat, p: nat :: Shares(Size(t), max, n, p) && |forest| <= n && Cuts(t, forest, p)
  }

  /** The key of a piece that is cut off what is left. */
  lemma {:induction false} PieceKey(t: Tree, nid: NodeId, key: Key, pi: nat, ei: nat, pi': nat, ei': nat)
    requires pi <= pi' <= |t.pivots| && ei <= ei' <= |t.elements|
    requires RestBound(t.pivots[pi..], t.elements[ei..], Open) == At(key)
    requires if t.pivots == [] then ei < ei' else pi < pi'
    ensures FirstKey(Piece(t, nid, key, pi, ei, pi', ei'))
  {
    if t.pivots == [] {
      assert t.elements[ei..][0] == t.elements[ei] == t.elements[ei..ei'][0];
      assert t.pivots[pi..] == [] && t.pivots[pi..pi'] == [];
    } else {
      assert t.pivots[pi..][0] == t.pivots[pi] == t.pivots[pi..pi'][0];
    }
  }

  /** The share that is being filled. */
  lemma {:induction false} ShareIndex(moved: nat, p: nat, i: nat)
    requires p >= 1 && Quota(i, p) <= moved < Quota(i + 1, p)
    ensures moved / p == i
  {
    DivBounds(moved, p);
    MulCancel(i, moved / p + 1, p);
    MulCancel(moved / p, i + 1, p);
  }

  lemma {:induction false} NoCuts(t: Tree, p: nat)
    requires p >= 1
    ensures Cuts(t, [], p)
  {
  }

  lemma {:induction false} CutsGrow(t: Tree, forest: seq<Pivot>, forest': seq<Pivot>, p: nat, i: nat,
                                    pi: nat, ei: nat, pi': nat, ei': nat)
    requires p >= 1 && Cuts(t, forest, p) && |forest'| == |forest| + 1 && forest'[..|forest|] == forest
    requires Partition(t, forest, pi, ei) && Partition(t, forest', pi', ei')
    requires Quota(i, p) <= pi + ei < Quota(i + 1, p)
    requires FirstKey(forest'[|forest|]) && (pi' + ei' >= Quota(i + 1, p) || pi' + ei' == Size(t))
    requires if t.pivots == [] then pi' + ei' <= Quota(i + 1, p)
             else 0 < pi' && pi' + ei' == BoundaryAt(t, pi') && BoundaryAt(t, pi' - 1) < Quota(i + 1, p)
    ensures Cuts(t, forest', p)
  {
    hide Quota, ElementBegin, FlatPivots, FlatElements, FirstKey;
    ShareIndex(pi + ei, p, i);
    forall k | 0 <= k < |forest'| ensures CutAt(t, forest', p, k) && FirstKey(forest'[k]) {
      if k < |forest| {
        assert forest'[..k] == forest[..k] && forest'[..k + 1] == forest[..k + 1];
        assert CutAt(t, forest, p, k) && FirstKey(forest[k]);
        assert forest'[k] == forest[k];
      } else {
        assert forest'[..k + 1] == forest';
      }
    }
  }

  /** So a leaf is cut into pieces of exactly `p` messages, but for the last. */
  lemma {:induction false} LeafShares(t: Tree, forest: seq<Pivot>, p: nat, k: nat)
    requires p >= 1 && t.pivots == [] && Cuts(t, forest, p) && k < |forest|
    requires Partition(t, forest, 0, |t.elements|)
    ensures Moved(forest, k) == Quota(k, p)
    ensures k < |forest| - 1 ==> Size(forest[k].child) == p
  {
    hide Quota;
    NextQuota(k, p);
    MovedNext(forest, k);
    if k > 0 {
      LeafShares(t, forest, p, k - 1);
      NextQuota(k - 1, p);
      MovedNext(forest, k - 1);
    } else {
      assert forest[..0] == [];
    }
    ShareIndex(Moved(forest, k), p, k);
    assert CutAt(t, forest, p, k);
    if k < |forest| - 1 {
      MovedBefore(t, forest, k);
    }
  }

  lemma {:induction false} MovedNext(forest: seq<Pivot>, k: nat)
    requires k < |forest|
    ensures Moved(forest, k + 1) == Moved(forest, k) + Size(forest[k].child)
  {
    assert forest[..k + 1][..k] == forest[..k];
  }

  /** Before the last piece not everything is moved. */
  lemma {:induction false} MovedBefore(t: Tree, forest: seq<Pivot>, k: nat)
    requires Partition(t, forest, |t.pivots|, |t.elements|) && k < |forest| - 1
    ensures Moved(forest, k + 1) < Size(t)
    decreases |forest| - k
  {
    hide FlatPivots, FlatElements;
    MovedNext(forest, k + 1);
    if k + 1 < |forest| - 1 {
      MovedBefore(t, forest, k + 1);
    } else {
      assert forest[..k + 2] == forest;
    }
  }

  /** The pieces of a leaf, from its size and the maximum alone. */
  lemma {:induction false} EvenLeaf(t: Tree, forest: seq<Pivot>, max: nat, n: nat, p: nat)
    requires t.pivots == [] && CutEvenly(t, forest, max) && Shares(Size(t), max, n, p)
    ensures |forest| <= n && forall k :: 0 <= k < |forest| - 1 ==> Size(forest[k].child) == p
  {
    hide Cuts, Partition;
    var n': nat, p': nat :| Shares(Size(t), max, n', p') && |forest| <= n' && Cuts(t, forest, p');
    SharesUnique(Size(t), max, n, p, n', p');
    hide Shares;
    forall k | 0 <= k < |forest| - 1 ensures Size(forest[k].child) == p {
      LeafShares(t, forest, p, k);
    }
  }
}
