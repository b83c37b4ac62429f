/** Splitting an over-full node, on trees as values: how many pieces, how large, and
    why cutting pieces off one after the other keeps order and meaning. */
module Splitting {
  import opened Base
  import opened Messages
  import opened Buffer
  import opened Trees
  import opened Stores

  // ---------- Arithmetic ----------

  function NumNewLeaves(total: nat, max: nat): nat
    requires max >= 3
  {
    total / (10 * max / 24)
  }

  function ThingsPerNewLeaf(total: nat, max: nat): nat
    requires max >= 3 && NumNewLeaves(total, max) > 0
  {
    (total + NumNewLeaves(total, max) - 1) / NumNewLeaves(total, max)
  }

  /** How many things the first `i` pieces are to hold. */
  function Quota(i: nat, per: nat): nat {
    i * per
  }

  lemma {:induction false} NextQuota(i: nat, per: nat)
    ensures Quota(i + 1, per) == Quota(i, per) + per && Quota(0, per) == 0
  {
  }

  lemma DivBounds(x: nat, d: nat)
    requires d > 0
    ensures (x / d) * d <= x < (x / d) * d + d
  {
  }

  lemma MulCancel(a: nat, b: nat, n: nat)
    requires a * n < b * n
    ensures a < b
  {
  }

  /** `n` parts of a node of size below `n * q + q`, rounded up. */
  lemma PartBound(total: nat, q: nat, n: nat, per: nat)
    requires n >= 2 && q >= 1 && total < n * q + q
    requires per * n <= total + n - 1
    ensures 2 * per <= 3 * q
  {
    assert (n - 2) * (q - 1) >= 0;
    assert (n - 2) * (q - 1) == n * q - n - 2 * q + 2;
    assert (2 * per) * n == 2 * (per * n);
    assert (3 * q + 1) * n == 3 * (n * q) + n;
    MulCancel(2 * per, 3 * q + 1, n);
  }

  /** An over-full node is cut in at least two parts, the parts together hold all of
      it, and a part is at most five eighths of the maximum size. */
  lemma SplitArithmetic(total: nat, max: nat)
    requires max >= 3 && total >= max
    ensures NumNewLeaves(total, max) >= 2
    ensures var n, per := NumNewLeaves(total, max), ThingsPerNewLeaf(total, max);
            Quota(n, per) >= total && per >= 1 && 8 * per <= 5 * max && per < total
  {
    var q := 10 * max / 24;
    var n := NumNewLeaves(total, max);
    DivBounds(total, q);
    AtLeastTwo(total, q);
    var per := ThingsPerNewLeaf(total, max);
    DivBounds(total + n - 1, n);
    PartBound(total, q, n, per);
    MulCancel(0, per, n);
  }

  /** For nodes of fewer than 2^30 things, nothing the source keeps in an `int` overflows:
      the number of pieces, the things per piece, and the limit of every round. */
  lemma {:induction false} IntsFit(total: nat, max: nat, i: nat)
    requires max >= 3 && max <= total < 0x4000_0000 && i < NumNewLeaves(total, max)
    ensures var n, per := NumNewLeaves(total, max), ThingsPerNewLeaf(total, max);
            n <= 0x7FFF_FFFF && per <= 0x7FFF_FFFF && (i + 1) * per <= 0x7FFF_FFFF
  {
    var q := 10 * max / 24;
    var n, per := NumNewLeaves(total, max), ThingsPerNewLeaf(total, max);
    assert n * q <= total by {
      DivBounds(total, q);
    }
    assert per * n <= total + n - 1 by {
      DivBounds(total + n - 1, n);
    }
    hide NumNewLeaves, ThingsPerNewLeaf;
    LimitFits(total, q, n, per, i);
  }

  lemma {:induction false} MulMono(a: nat, b: nat, m: nat)
    requires a <= b
    ensures a * m <= b * m
  {
  }

  lemma {:induction false} LimitFits(total: nat, q: nat, n: nat, per: nat, i: nat)
    requires q >= 1 && n * q <= total && per * n <= total + n - 1 && i < n
    ensures n <= total && per < 2 * total && (i + 1) * per < 2 * total
  {
    MulMono(1, q, n);
    MulMono(i + 1, n, per);
    MulMono(1, n, per);
  }

  lemma AtLeastTwo(total: nat, q: nat)
    requires q >= 1 && total >= 2 * q
    ensures total / q >= 2
  {
  }

  // ---------- Cutting off one piece ----------

  lemma {:induction false} SwapBlocks(d: seq<Entry>, p1: seq<Entry>, p2: seq<Entry>, e1: seq<Entry>, e2: seq<Entry>)
    requires Ordered(d + p1 + p2 + e1 + e2)
    requires forall m, m' :: m in MKeys(p2) && m' in MKeys(e1) ==> m.key != m'.key
    ensures Refines(d + p1 + e1 + p2 + e2, d + p1 + p2 + e1 + e2)
  {
    var s := d + p1;
    assert forall k :: Eval(None, s + e1 + p2 + e2, k) == Eval(None, s + p2 + e1 + e2, k) by {
      forall k ensures Eval(None, s + e1 + p2 + e2, k) == Eval(None, s + p2 + e1 + e2, k) {
        EvalSwap(s, p2, e1, e2, k);
      }
    }
    OrderedSwap(s, p2, e1, e2);
  }

  lemma {:induction false} EvalSwap(s: seq<Entry>, p: seq<Entry>, e: seq<Entry>, z: seq<Entry>, k: Key)
    requires forall m, m' :: m in MKeys(p) && m' in MKeys(e) ==> m.key != m'.key
    ensures Eval(None, s + e + p + z, k) == Eval(None, s + p + e + z, k)
  {
    EvalConcat(None, s, e, k);
    EvalConcat(None, s + e, p, k);
    EvalConcat(None, s + e + p, z, k);
    EvalConcat(None, s, p, k);
    EvalConcat(None, s + p, e, k);
    EvalConcat(None, s + p + e, z, k);
    var o := Eval(None, s, k);
    if Absent(p, k) {
      EvalAbsent(o, p, k);
      EvalAbsent(Eval(o, e, k), p, k);
    } else {
      EvalAbsent(o, e, k);
      EvalAbsent(Eval(o, p, k), e, k);
    }
  }

  lemma {:induction false} OrderedSwap(s: seq<Entry>, p: seq<Entry>, e: seq<Entry>, z: seq<Entry>)
    requires Ordered(s + p + e + z)
    requires forall m, m' :: m in MKeys(p) && m' in MKeys(e) ==> m.key != m'.key
    ensures Ordered(s + e + p + z)
    ensures MKeys(s + e + p + z) == MKeys(s + p + e + z)
  {
    hide Ordered;
    OrderedConcat(s + p + e, z);
    OrderedConcat(s + p, e);
    OrderedConcat(s, p);
    MKeysConcat(s + p + e, z);
    MKeysConcat(s + p, e);
    MKeysConcat(s, p);
    MKeysConcat(s, e);
    MKeysConcat(s + e, p);
    MKeysConcat(s + e + p, z);
    OrderedConcat(s, e);
    OrderedConcat(s + e, p);
    OrderedConcat(s + e + p, z);
  }

  /** Where the part still to be moved begins. */
  ghost function RestBound(p: seq<Pivot>, e: seq<Entry>, hi: Bound): Bound {
    if p != [] then At(p[0].key) else if e != [] then At(e[0].mkey.key) else hi
  }

  /** A leaf piece: some first messages of what is left. */
  lemma {:induction false} LeafPiece(done: seq<Pivot>, nid: NodeId, e1: seq<Entry>, e2: seq<Entry>,
                                     lo: Bound, hi: Bound, max: nat)
    requires e1 != [] && |e1| < max
    requires Sorted(e1 + e2) && Shape(e1 + e2, true) && Within(e1 + e2, lo, hi)
    requires WFF(done, 0, lo, At(e1[0].mkey.key), max)
    ensures var done' := done + [Pivot(e1[0].mkey.key, Tree(nid, [], e1))];
            && WFF(done', 0, lo, RestBound([], e2, hi), max)
            && AllF(done') + e2 == AllF(done) + (e1 + e2)
  {
    hide WFF, WF, Sorted, Shape, Within;
    var key, mid := e1[0].mkey.key, RestBound([], e2, hi);
    var piece := Tree(nid, [], e1);
    LeafPieceWF(piece, e2, lo, hi, max);
    assert WFF([Pivot(key, piece)], 0, At(key), mid, max) by {
      RowOfOne(Pivot(key, piece), 0, mid, max);
    }
    WFFJoin(done, [Pivot(key, piece)], 0, lo, key, mid, max);
    AllFConcat(done, [Pivot(key, piece)]);
    AllFOne(Pivot(key, piece));
    assert All(piece) == AllF([]) + e1 == e1;
  }

  lemma {:induction false} LeafPieceWF(piece: Tree, e2: seq<Entry>, lo: Bound, hi: Bound, max: nat)
    requires piece.pivots == [] && piece.elements != [] && |piece.elements| < max
    requires Sorted(piece.elements + e2) && Shape(piece.elements + e2, true) && Within(piece.elements + e2, lo, hi)
    ensures WF(piece, 0, At(piece.elements[0].mkey.key), RestBound([], e2, hi), max)
    ensures Inside(piece.elements[0].mkey.key, lo, RestBound([], e2, hi))
  {
    var e1 := piece.elements;
    var s := e1 + e2;
    assert forall i :: 0 <= i < |e1| ==> s[i] == e1[i];
    assert e2 != [] ==> s[|e1|] == e2[0];
    forall m | m in MKeys(e1) ensures Inside(m.key, At(e1[0].mkey.key), RestBound([], e2, hi)) {
      var i :| 0 <= i < |e1| && e1[i].mkey == m;
      assert s[i].mkey in MKeys(s);
      assert i > 0 ==> Less(s[0].mkey, s[i].mkey);
      assert e2 != [] ==> Less(s[i].mkey, s[|e1|].mkey);
    }
    assert e1[0].mkey in MKeys(e1) && s[0].mkey in MKeys(s);
  }

  lemma {:induction false} RowOfOne(p: Pivot, h: nat, hi: Bound, max: nat)
    requires WF(p.child, h, At(p.key), hi, max) && (hi.At? ==> p.key < hi.key)
    ensures WFF([p], h, At(p.key), hi, max)
  {
  }

  /** An internal piece: some first pivots of what is left, with their messages. */
  lemma {:induction false} InnerPiece(done: seq<Pivot>, nid: NodeId, p1: seq<Pivot>, p2: seq<Pivot>,
                                      e1: seq<Entry>, e2: seq<Entry>, h: nat, lo: Bound, hi: Bound, max: nat)
    requires p1 != [] && WFF(p1 + p2, h, At(p1[0].key), hi, max) && (lo.At? ==> lo.key <= p1[0].key)
    requires Sorted(e1) && Shape(e1, false) && Within(e1, At(p1[0].key), RestBound(p2, [], hi))
    requires WFF(done, h + 1, lo, At(p1[0].key), max)
    requires p2 == [] ==> e2 == []
    requires Ordered(AllF(done) + AllF(p1 + p2) + (e1 + e2))
    ensures var done' := done + [Pivot(p1[0].key, Tree(nid, p1, e1))];
            && WFF(done', h + 1, lo, RestBound(p2, e2, hi), max)
            && Refines(AllF(done') + AllF(p2) + e2, AllF(done) + AllF(p1 + p2) + (e1 + e2))
  {
    hide WFF, Refines, Ordered, Within, Sorted, Shape, AllF, MKeys;
    var mid := RestBound(p2, e2, hi);
    var key, piece := p1[0].key, Tree(nid, p1, e1);
    InnerPieceWF(piece, p2, h, hi, max);
    RowOfOne(Pivot(key, piece), h + 1, mid, max);
    WFFJoin(done, [Pivot(key, piece)], h + 1, lo, key, mid, max);
    AllFConcat(done, [Pivot(key, piece)]);
    AllFOne(Pivot(key, piece));
    AllFConcat(p1, p2);
    var d, a1, a2 := AllF(done), AllF(p1), AllF(p2);
    assert d + (a1 + a2) + (e1 + e2) == d + a1 + a2 + e1 + e2;
    assert d + (a1 + e1) + a2 + e2 == d + a1 + e1 + a2 + e2;
    PiecesApart(p1, p2, e1, h, hi, max);
    SwapBlocks(d, a1, a2, e1, e2);
  }

  lemma {:induction false} InnerPieceWF(piece: Tree, p2: seq<Pivot>, h: nat, hi: Bound, max: nat)
    requires piece.pivots != [] && WFF(piece.pivots + p2, h, At(piece.pivots[0].key), hi, max)
    requires Sorted(piece.elements) && Shape(piece.elements, false)
    requires Within(piece.elements, At(piece.pivots[0].key), RestBound(p2, [], hi))
    ensures WF(piece, h + 1, At(piece.pivots[0].key), RestBound(p2, [], hi), max)
    ensures Inside(piece.pivots[0].key, Open, RestBound(p2, [], hi))
  {
    var p1 := piece.pivots;
    if p2 != [] {
      WFFCut(p1, p2, h, At(p1[0].key), hi, max);
      assert (p1 + p2)[|p1|] == p2[0] && (p1 + p2)[0] == p1[0];
    } else {
      assert p1 + p2 == p1;
    }
  }

  lemma {:induction false} PiecesApart(p1: seq<Pivot>, p2: seq<Pivot>, e1: seq<Entry>, h: nat, hi: Bound, max: nat)
    requires p1 != [] && WFF(p1 + p2, h, At(p1[0].key), hi, max)
    requires Within(e1, At(p1[0].key), RestBound(p2, [], hi))
    ensures forall m, m' :: m in MKeys(AllF(p2)) && m' in MKeys(e1) ==> m.key != m'.key
  {
    if p2 != [] {
      WFFCut(p1, p2, h, At(p1[0].key), hi, max);
      AllFWithin(p2, h, At(p2[0].key), hi, max);
    }
  }

  // ---------- The whole split ----------

  ghost function AsNode(t: Tree): Node {
    Node(Refs(t.pivots), t.elements)
  }

  ghost predicate SplitReady(t: Tree, h: nat, lo: Bound, hi: Bound, max: nat) {
    (if h == 0 then Leaf(t, lo, hi) else WF(t, h, lo, hi, max)) && Ordered(All(t))
  }

  /** The pivots held by the nodes of a row, in order. */
  ghost function FlatPivots(ps: seq<Pivot>): seq<Pivot> {
    if ps == [] then [] else FlatPivots(ps[..|ps| - 1]) + ps[|ps| - 1].child.pivots
  }

  /** The messages held by the nodes of a row, in order. */
  ghost function FlatElements(ps: seq<Pivot>): seq<Entry> {
    if ps == [] then [] else FlatElements(ps[..|ps| - 1]) + ps[|ps| - 1].child.elements
  }

  ghost function Size(t: Tree): nat {
    |t.pivots| + |t.elements|
  }

  /** The nodes of `forest` are the first `pi` pivots and `ei` messages of `t`, cut in
      order into non-empty nodes. */
  ghost predicate Partition(t: Tree, forest: seq<Pivot>, pi: nat, ei: nat) {
    && pi <= |t.pivots| && ei <= |t.elements|
    && FlatPivots(forest) == t.pivots[..pi]
    && FlatElements(forest) == t.elements[..ei]
    && forall i :: 0 <= i < |forest| ==> Size(forest[i].child) > 0
  }

  /** `t` is cut off up to pivot `pi` and message `ei`; together with the rest, the
      pieces mean what `t` meant. */
  ghost predicate SplitVal(t: Tree, h: nat, lo: Bound, hi: Bound, max: nat,
                           forest: seq<Pivot>, pi: nat, ei: nat)
  {
    && Partition(t, forest, pi, ei)
    && (h > 0 ==> ei == ElementBegin(AsNode(t), pi))
    && WFF(forest, h, lo, RestBound(t.pivots[pi..], t.elements[ei..], hi), max)
    && Refines(AllF(forest) + AllF(t.pivots[pi..]) + t.elements[ei..], All(t))
  }

  lemma {:induction false} SliceKept(s: seq<Entry>, i: nat, j: nat, leaf: bool)
    requires Sorted(s) && Shape(s, leaf) && i <= j <= |s|
    ensures Sorted(s[i..j]) && Shape(s[i..j], leaf)
  {
  }

  lemma {:induction false} SliceWithin(s: seq<Entry>, i: nat, j: nat, lo: Bound, hi: Bound)
    requires Within(s, lo, hi) && i <= j <= |s|
    ensures Within(s[i..j], lo, hi)
  {
  }

  lemma {:induction false} RefinesSelf(s: seq<Entry>)
    requires Ordered(s)
    ensures Refines(s, s)
  {
  }

  lemma {:induction false} SplitInit(t: Tree, h: nat, lo: Bound, hi: Bound, max: nat)
    requires SplitReady(t, h, lo, hi, max)
    ensures SplitVal(t, h, lo, hi, max, [], 0, 0)
  {
    hide Refines, Within, Sorted, Shape, Ordered, KeyLow;
    assert t.pivots[0..] == t.pivots && t.elements[0..] == t.elements;
    assert AllF([]) + AllF(t.pivots) + t.elements == All(t);
    RefinesSelf(All(t));
    if h > 0 {
      WFNode(t, h, lo, hi, max);
      KeyCut(t.elements, t.pivots[0].key);
      if t.elements != [] {
        WithinAt(t.elements, 0, At(t.pivots[0].key), hi);
      }
    }
  }

  lemma {:induction false} PartitionGrows(t: Tree, forest: seq<Pivot>, p: Pivot, pi: nat, ei: nat, pi': nat, ei': nat)
    requires Partition(t, forest, pi, ei) && pi <= pi' <= |t.pivots| && ei <= ei' <= |t.elements|
    requires pi < pi' || ei < ei'
    requires p.child.pivots == t.pivots[pi..pi'] && p.child.elements == t.elements[ei..ei']
    ensures Partition(t, forest + [p], pi', ei')
  {
  }

  lemma {:induction false} SplitLeaf(t: Tree, lo: Bound, hi: Bound, max: nat,
                                     forest: seq<Pivot>, ei: nat, nid: NodeId, ei': nat)
    requires SplitReady(t, 0, lo, hi, max) && SplitVal(t, 0, lo, hi, max, forest, 0, ei)
    requires ei < ei' <= |t.elements| && ei' - ei < max
    ensures SplitVal(t, 0, lo, hi, max,
                     forest + [Pivot(t.elements[ei].mkey.key, Tree(nid, [], t.elements[ei..ei']))], 0, ei')
  {
    hide WFF, Refines, Sorted, Shape, Within, Partition;
    var p := Pivot(t.elements[ei].mkey.key, Tree(nid, [], t.elements[ei..ei']));
    var e1, e2 := t.elements[ei..ei'], t.elements[ei'..];
    assert e1 + e2 == t.elements[ei..] == t.elements[ei..|t.elements|];
    SliceKept(t.elements, ei, |t.elements|, true);
    SliceWithin(t.elements, ei, |t.elements|, lo, hi);
    assert t.pivots[0..] == [];
    LeafPiece(forest, nid, e1, e2, lo, hi, max);
    assert AllF(t.pivots[0..]) == [];
    assert AllF(forest) + [] + (e1 + e2) == AllF(forest) + (e1 + e2);
    assert AllF(forest + [p]) + [] + e2 == AllF(forest + [p]) + e2;
    PartitionGrows(t, forest, p, 0, ei, 0, ei');
  }

  lemma {:induction false} WFNode(t: Tree, h: nat, lo: Bound, hi: Bound, max: nat)
    requires h > 0 && WF(t, h, lo, hi, max)
    ensures RefsSorted(Refs(t.pivots)) && Sorted(t.elements) && Shape(t.elements, false)
    ensures Within(t.elements, At(t.pivots[0].key), hi)
    ensures WFF(t.pivots, h - 1, lo, hi, max)
  {
  }

  /** The messages before and from a key's lower bound. */
  lemma {:induction false} KeyCut(s: seq<Entry>, k: Key)
    requires Sorted(s)
    ensures forall i :: 0 <= i < KeyLow(s, k) ==> s[i].mkey.key < k
    ensures forall i :: KeyLow(s, k) <= i < |s| ==> s[i].mkey.key >= k
  {
  }

  lemma {:induction false} WithinAt(s: seq<Entry>, i: nat, lo: Bound, hi: Bound)
    requires Within(s, lo, hi) && i < |s|
    ensures Inside(s[i].mkey.key, lo, hi)
  {
  }

  lemma {:induction false} WithinAll(s: seq<Entry>, lo: Bound, hi: Bound)
    requires forall i :: 0 <= i < |s| ==> Inside(s[i].mkey.key, lo, hi)
    ensures Within(s, lo, hi)
  {
  }

  lemma {:induction false} InnerSpan(t: Tree, h: nat, lo: Bound, hi: Bound, max: nat, pi: nat, pi': nat)
    requires h > 0 && WF(t, h, lo, hi, max) && pi < pi' <= |t.pivots|
    ensures var b, b' := ElementBegin(AsNode(t), pi), ElementBegin(AsNode(t), pi');
            b <= b' && Within(t.elements[b..b'], At(t.pivots[pi].key), RestBound(t.pivots[pi'..], [], hi))
  {
    hide WF, WFF, Sorted, Shape, Within, RefsSorted, KeyLow;
    WFNode(t, h, lo, hi, max);
    var n := AsNode(t);
    var b, b' := ElementBegin(n, pi), ElementBegin(n, pi');
    ElementBeginMono(n, pi, pi');
    KeyCut(t.elements, t.pivots[pi].key);
    if pi' < |t.pivots| {
      KeyCut(t.elements, t.pivots[pi'].key);
    }
    var e := t.elements[b..b'];
    forall i | 0 <= i < |e| ensures Inside(e[i].mkey.key, At(t.pivots[pi].key), RestBound(t.pivots[pi'..], [], hi)) {
      assert t.elements[b + i] == e[i];
      WithinAt(t.elements, b + i, At(t.pivots[0].key), hi);
    }
    WithinAll(e, At(t.pivots[pi].key), RestBound(t.pivots[pi'..], [], hi));
  }

  lemma {:induction false} SplitInner(t: Tree, h: nat, lo: Bound, hi: Bound, max: nat,
                                      forest: seq<Pivot>, pi: nat, ei: nat, nid: NodeId, pi': nat, ei': nat)
    requires h > 0 && SplitReady(t, h, lo, hi, max) && SplitVal(t, h, lo, hi, max, forest, pi, ei)
    requires pi < pi' <= |t.pivots| && ei' == ElementBegin(AsNode(t), pi')
    ensures ei <= ei' && SplitVal(t, h, lo, hi, max,
                     forest + [Pivot(t.pivots[pi].key, Tree(nid, t.pivots[pi..pi'], t.elements[ei..ei']))], pi', ei')
  {
    hide WFF, Refines, Sorted, Shape, Within, Partition, Ordered;
    InnerSpan(t, h, lo, hi, max, pi, pi');
    var p1, p2, e1, e2 := t.pivots[pi..pi'], t.pivots[pi'..], t.elements[ei..ei'], t.elements[ei'..];
    var p := Pivot(t.pivots[pi].key, Tree(nid, p1, e1));
    assert p1 + p2 == t.pivots[pi..] && e1 + e2 == t.elements[ei..] && p1[0] == t.pivots[pi];
    assert t.pivots == t.pivots[..pi] + t.pivots[pi..];
    WFFCut(t.pivots[..pi], t.pivots[pi..], h - 1, lo, hi, max);
    PivotInside(t.pivots, pi, h - 1, lo, hi, max);
    SliceKept(t.elements, ei, ei', false);
    RefinesOrdered(AllF(forest) + AllF(p1 + p2) + (e1 + e2), All(t));
    InnerPiece(forest, nid, p1, p2, e1, e2, h - 1, lo, hi, max);
    RefinesTransitive(AllF(forest + [p]) + AllF(p2) + e2, AllF(forest) + AllF(p1 + p2) + (e1 + e2), All(t));
    PartitionGrows(t, forest, p, pi, ei, pi', ei');
  }

  lemma {:induction false} RefinesOrdered(s: seq<Entry>, s': seq<Entry>)
    requires Refines(s, s')
    ensures Ordered(s)
  {
  }

  ghost function Piece(t: Tree, nid: NodeId, key: Key, pi: nat, ei: nat, pi': nat, ei': nat): Pivot
    requires pi <= pi' <= |t.pivots| && ei <= ei' <= |t.elements|
  {
    Pivot(key, Tree(nid, t.pivots[pi..pi'], t.elements[ei..ei']))
  }

  lemma {:induction false} SplitPiece(t: Tree, h: nat, lo: Bound, hi: Bound, max: nat,
                                      forest: seq<Pivot>, pi: nat, ei: nat, nid: NodeId, key: Key, pi': nat, ei': nat)
    requires SplitReady(t, h, lo, hi, max) && SplitVal(t, h, lo, hi, max, forest, pi, ei)
    requires pi <= pi' <= |t.pivots| && ei <= ei' <= |t.elements|
    requires RestBound(t.pivots[pi..], t.elements[ei..], Open) == At(key)
    requires h == 0 ==> ei < ei' && ei' - ei < max
    requires h > 0 ==> pi < pi' && ei' == ElementBegin(AsNode(t), pi')
    ensures SplitVal(t, h, lo, hi, max, forest + [Piece(t, nid, key, pi, ei, pi', ei')], pi', ei')
  {
    hide SplitVal, WFF, Ordered, ElementBegin;
    if h == 0 {
      assert t.pivots == [] && t.pivots[pi..pi'] == [] && pi == pi' == 0;
      SplitLeaf(t, lo, hi, max, forest, ei, nid, ei');
    } else {
      SplitInner(t, h, lo, hi, max, forest, pi, ei, nid, pi', ei');
    }
  }

  lemma {:induction false} SplitValBegin(t: Tree, h: nat, lo: Bound, hi: Bound, max: nat,
                                         forest: seq<Pivot>, pi: nat, ei: nat)
    requires h > 0 && SplitVal(t, h, lo, hi, max, forest, pi, ei)
    ensures pi <= |t.pivots| && ei == ElementBegin(AsNode(t), pi)
  {
  }

  lemma {:induction false} SplitValParts(t: Tree, h: nat, lo: Bound, hi: Bound, max: nat,
                                         forest: seq<Pivot>, pi: nat, ei: nat)
    requires SplitVal(t, h, lo, hi, max, forest, pi, ei)
    ensures Partition(t, forest, pi, ei)
  {
  }

  lemma {:induction false} ReadyLeaf(t: Tree, h: nat, lo: Bound, hi: Bound, max: nat)
    requires SplitReady(t, h, lo, hi, max)
    ensures h == 0 <==> t.pivots == []
  {
  }

  lemma {:induction false} SplitDone(t: Tree, h: nat, lo: Bound, hi: Bound, max: nat, forest: seq<Pivot>)
    requires SplitVal(t, h, lo, hi, max, forest, |t.pivots|, |t.elements|)
    ensures WFF(forest, h, lo, hi, max) && Refines(AllF(forest), All(t))
    ensures Partition(t, forest, |t.pivots|, |t.elements|)
    ensures Size(t) > 0 ==> forest != []
  {
    hide WFF, Refines;
    assert t.pivots[|t.pivots|..] == [] && t.elements[|t.elements|..] == [];
    assert AllF(forest) + AllF([]) + [] == AllF(forest);
    assert t.pivots[..|t.pivots|] == t.pivots && t.elements[..|t.elements|] == t.elements;
  }

  // ---------- In the node table ----------

  /** While `t` is being copied into `forest`, with `spare` the node allocated last and
      not filled yet: nothing old has changed, and every id is accounted for. */
  ghost predicate SplitStore(n0: Store, t: Tree, n: Store, forest: seq<Pivot>, spare: Option<NodeId>, pi: nat)
    requires pi <= |t.pivots|
  {
    && (forall x :: x in n0 ==> x in n && n[x] == n0[x])
    && (forall x: NodeId :: Held(n, x) + CountF(t.pivots[..pi], x)
                 == Held(n0, x) + CountF(forest, x) + (if spare == Some(x) then 1 else 0))
    && RepF(n, forest)
    && (spare.Some? ==> spare.value !in n0)
  }

  lemma {:induction false} PrefixCount(n0: Store, t: Tree, pi: nat, x: NodeId)
    requires Rep(n0, t) && pi <= |t.pivots| && x !in n0
    ensures CountF(t.pivots[..pi], x) == 0
  {
    if CountF(t.pivots[..pi], x) > 0 {
      assert t.pivots == t.pivots[..pi] + t.pivots[pi..];
      CountFConcat(t.pivots[..pi], t.pivots[pi..], x);
      RepHeld(n0, t, x);
    }
  }

  lemma {:induction false} SpareHeld(n0: Store, t: Tree, n: Store, forest: seq<Pivot>, spare: Option<NodeId>, pi: nat)
    requires Rep(n0, t) && pi <= |t.pivots| && SplitStore(n0, t, n, forest, spare, pi)
    ensures spare.Some? ==> spare.value in n && CountF(forest, spare.value) == 0
  {
    if spare.Some? {
      PrefixCount(n0, t, pi, spare.value);
      assert Held(n, spare.value) + CountF(t.pivots[..pi], spare.value)
          == Held(n0, spare.value) + CountF(forest, spare.value) + 1;
    }
  }

  /** A fresh node is entered; an unfilled node that it displaces is freed. */
  lemma {:induction false} SpareReplaced(n0: Store, t: Tree, n: Store, forest: seq<Pivot>, spare: Option<NodeId>,
                                         pi: nat, nid: NodeId, n': Store)
    requires Rep(n0, t) && pi <= |t.pivots| && SplitStore(n0, t, n, forest, spare, pi)
    requires nid !in n
    requires n' == (if spare.Some? then n[nid := Node([], [])] - {spare.value} else n[nid := Node([], [])])
    ensures SplitStore(n0, t, n', forest, Some(nid), pi)
  {
    SpareHeld(n0, t, n, forest, spare, pi);
    RepFFrame(n, n', forest);
    forall x ensures Held(n', x) + CountF(t.pivots[..pi], x)
                  == Held(n0, x) + CountF(forest, x) + (if nid == x then 1 else 0)
    {
      assert Held(n, x) + CountF(t.pivots[..pi], x)
          == Held(n0, x) + CountF(forest, x) + (if spare == Some(x) then 1 else 0);
    }
  }

  /** The node is filled with the next pivots and messages of `t`. */
  lemma {:induction false} SpareFilled(n0: Store, t: Tree, n: Store, forest: seq<Pivot>, nid: NodeId,
                                       pi: nat, pi': nat, p: Pivot, n': Store)
    requires Rep(n0, t) && pi <= pi' <= |t.pivots| && SplitStore(n0, t, n, forest, Some(nid), pi)
    requires p.child.id == nid && p.child.pivots == t.pivots[pi..pi'] && n' == n[nid := AsNode(p.child)]
    ensures SplitStore(n0, t, n', forest + [p], None, pi')
  {
    PrefixCount(n0, t, pi, nid);
    assert Held(n, nid) + CountF(t.pivots[..pi], nid) == Held(n0, nid) + CountF(forest, nid) + 1;
    forall x ensures CountF(forest + [p], x)
                  == CountF(forest, x) + (if x == nid then 1 else 0) + CountF(t.pivots[pi..pi'], x)
             ensures CountF(t.pivots[..pi'], x) == CountF(t.pivots[..pi], x) + CountF(t.pivots[pi..pi'], x)
    {
      CountFConcat(forest, [p], x);
      CountFOne(p, x);
      assert t.pivots[..pi'] == t.pivots[..pi] + t.pivots[pi..pi'];
      CountFConcat(t.pivots[..pi], t.pivots[pi..pi'], x);
    }
    RepFFrame(n, n', forest);
    PieceRep(n0, t, n', p, pi, pi');
  }

  lemma {:induction false} PieceRep(n0: Store, t: Tree, n: Store, p: Pivot, pi: nat, pi': nat)
    requires Rep(n0, t) && pi <= pi' <= |t.pivots|
    requires forall x :: x in n0 ==> x in n && n[x] == n0[x]
    requires p.child.pivots == t.pivots[pi..pi'] && p.child.id in n && n[p.child.id] == AsNode(p.child)
    ensures Rep(n, p.child)
  {
    forall i | 0 <= i < |p.child.pivots| ensures Rep(n, p.child.pivots[i].child) {
      assert p.child.pivots[i] == t.pivots[pi + i];
      RepFrame(n0, n, t.pivots[pi + i].child);
    }
  }

  /** When everything is copied the old node is emptied. */
  lemma {:induction false} SplitStored(n0: Store, t: Tree, n: Store, forest: seq<Pivot>)
    requires Rep(n0, t) && Once(n0, t) && SplitStore(n0, t, n, forest, None, |t.pivots|)
    ensures t.id in n && RepF(n[t.id := Node([], [])], forest)
    ensures EvolvesF(n0, t, n[t.id := Node([], [])], forest)
  {
    var n' := n[t.id := Node([], [])];
    assert t.pivots[..|t.pivots|] == t.pivots;
    assert CountF(forest, t.id) == 0 by {
      assert Held(n, t.id) + CountF(t.pivots, t.id) == Held(n0, t.id) + CountF(forest, t.id);
      assert Count(t, t.id) <= Held(n0, t.id);
    }
    RepFFrame(n, n', forest);
    forall x ensures Held(n', x) + Count(t, x) == Held(n0, x) + CountF(forest, x) + (if x == t.id then 1 else 0) {
      assert Held(n, x) + CountF(t.pivots, x) == Held(n0, x) + CountF(forest, x);
    }
  }

  /** Storing a node under the key where the rest begins: it comes last, in place of a
      node stored there before. */
  lemma {:induction false} PutLast(rs: seq<Ref>, old': seq<Ref>, r: Ref)
    requires forall i :: 0 <= i < |rs| ==> rs[i].key < r.key
    requires old' == [] || (|old'| == 1 && old'[0].key == r.key)
    ensures RefBound(rs + old', r.key) == |rs|
    ensures PutRef(rs + old', r) == rs + [r]
  {
    var s := rs + old';
    assert forall i :: 0 <= i < |rs| ==> s[i] == rs[i];
    assert old' != [] ==> s[|rs|] == old'[0];
    assert RefBound(s, r.key) == |rs|;
  }

  lemma {:induction false} SplitStoreInit(n0: Store, t: Tree)
    requires Rep(n0, t)
    ensures SplitStore(n0, t, n0, [], None, 0)
  {
  }

  /** The pivot map under construction: the filled nodes, then the unfilled one. */
  ghost function ResultRefs(t: Tree, forest: seq<Pivot>, spare: Option<NodeId>, pi: nat, ei: nat): seq<Ref>
    requires pi <= |t.pivots| && ei <= |t.elements|
  {
    var b := RestBound(t.pivots[pi..], t.elements[ei..], Open);
    Refs(forest) + (if spare.Some? && b.At? then [Ref(b.key, spare.value)] else [])
  }

  /** The keys of the nodes filled so far are below where the rest begins. */
  lemma {:induction false} ResultPut(t: Tree, h: nat, lo: Bound, hi: Bound, max: nat, forest: seq<Pivot>,
                                     spare: Option<NodeId>, pi: nat, ei: nat, r: Ref)
    requires SplitVal(t, h, lo, hi, max, forest, pi, ei)
    requires RestBound(t.pivots[pi..], t.elements[ei..], Open) == At(r.key)
    ensures var rs := ResultRefs(t, forest, spare, pi, ei);
            && RefBound(rs, r.key) == |forest|
            && (|forest| < |rs| <==> spare.Some?)
            && (spare.Some? ==> rs[|forest|] == Ref(r.key, spare.value))
            && PutRef(rs, r) == ResultRefs(t, forest, Some(r.child), pi, ei)
  {
    hide Refines, WF, RefBound, PutRef;
    var last := if spare.Some? then [Ref(r.key, spare.value)] else [];
    assert forall i :: 0 <= i < |forest| ==> Inside(forest[i].key, lo, At(r.key));
    PutLast(Refs(forest), last, r);
  }

  // ---------- The loops ----------

  /** Moves pivots with their messages, or single messages of a leaf, into a new node
      until `limit` things have been moved in all or nothing is left. */
  method FillPiece(n: Node, pi0: nat, ei0: nat, limit: nat, ghost g: nat)
    returns (np: seq<Ref>, ne: seq<Entry>, pi: nat, ei: nat)
    requires NodeSorted(n) && pi0 <= |n.pivots| && ei0 <= |n.elements|
    requires n.pivots != [] ==> ei0 == ElementBegin(n, pi0)
    requires forall i :: 0 <= i < |n.pivots| ==> Batch(n, i) <= g
    ensures pi0 <= pi <= |n.pivots| && ei0 <= ei <= |n.elements|
    ensures np == n.pivots[pi0..pi] && ne == n.elements[ei0..ei]
    ensures n.pivots != [] ==> ei == ElementBegin(n, pi)
    ensures (pi == |n.pivots| && ei == |n.elements|) || pi + ei >= limit
    ensures pi0 + ei0 >= limit ==> pi == pi0 && ei == ei0
    ensures pi0 + ei0 < limit && (pi0 < |n.pivots| || ei0 < |n.elements|)
            ==> if n.pivots == [] then ei0 < ei else pi0 < pi
    ensures pi + ei > pi0 + ei0 ==> pi + ei <= limit + (if n.pivots == [] then 0 else g)
    ensures pi > pi0 ==> pi - 1 + ElementBegin(n, pi - 1) < limit
  {
    hide KeyLow, RefsSorted, Sorted;
    np, ne, pi, ei := [], [], pi0, ei0;
    while pi + ei < limit && (pi < |n.pivots| || ei < |n.elements|)
      invariant pi0 <= pi <= |n.pivots| && ei0 <= ei <= |n.elements|
      invariant np == n.pivots[pi0..pi] && ne == n.elements[ei0..ei]
      invariant n.pivots != [] ==> ei == ElementBegin(n, pi)
      invariant pi0 + ei0 >= limit ==> pi == pi0 && ei == ei0
      invariant pi + ei > pi0 + ei0 ==> pi + ei <= limit + (if n.pivots == [] then 0 else g)
      invariant pi > pi0 ==> pi - 1 + ElementBegin(n, pi - 1) < limit
      invariant (pi == pi0 && ei == ei0) || (if n.pivots == [] then ei0 < ei else pi0 < pi)
      decreases |n.pivots| + |n.elements| - pi - ei
    {
      if pi < |n.pivots| {
        ghost var first, start := pi, ei;
        np := np + [n.pivots[pi]];
        pi := pi + 1;
        assert np == n.pivots[pi0..pi];
        var end := ElementBegin(n, pi);
        ElementBeginMono(n, first, pi);
        assert end - start == Batch(n, first);
        while ei != end
          invariant ei0 <= start <= ei <= end <= |n.elements|
          invariant ne == n.elements[ei0..ei]
        {
          ne := ne + [n.elements[ei]];
          ei := ei + 1;
        }
      } else {
        assert n.pivots == [];
        ne := ne + [n.elements[ei]];
        ei := ei + 1;
      }
    }
  }
}
