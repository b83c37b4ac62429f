/** The steps of a flush, on trees as values: each keeps the tree well formed and what
    it means at every key. */
module Flushing {
  import opened Messages
  import opened Buffer
  import opened Trees

  /** What a flush of the batch `elts` into `t` leaves: the tree `t'` when `forest` is
      empty, otherwise the pieces of a split, each under its new pivot key. */
  ghost predicate FlushPost(t: Tree, elts: seq<Entry>, h: nat, lo: Bound, hi: Bound, max: nat,
                            t': Tree, forest: seq<Pivot>)
  {
    if forest == [] then
      WF(t', h, lo, hi, max) && Refines(All(t'), All(t) + elts)
    else
      WFF(forest, h, lo, hi, max) && Refines(AllF(forest), All(t) + elts)
  }

  lemma {:induction false} WithinSubset(s: seq<Entry>, r: seq<Entry>, elts: seq<Entry>, lo: Bound, hi: Bound)
    requires MKeys(s) <= MKeys(r) + MKeys(elts) && Within(r, lo, hi) && Within(elts, lo, hi)
    ensures Within(s, lo, hi)
  {
  }

  /** A batch applied to a leaf. */
  lemma {:induction false} LeafStep(t: Tree, elts: seq<Entry>, lo: Bound, hi: Bound)
    requires Leaf(t, lo, hi) && Within(elts, lo, hi) && Ordered(All(t) + elts)
    ensures var t' := t.(elements := ApplyAll(t.elements, true, elts));
            Leaf(t', lo, hi) && Refines(All(t'), All(t) + elts)
  {
    hide Refines, Ordered, ApplyAll, Within, Sorted, Shape;
    var e' := ApplyAll(t.elements, true, elts);
    assert [] + t.elements == t.elements && [] + e' == e';
    ApplyRefines([], t.elements, true, elts);
    ApplyAllSound(t.elements, true, elts);
    WithinSubset(e', t.elements, elts, lo, hi);
  }

  /** A batch buffered at an internal node. */
  lemma {:induction false} BufferStep(t: Tree, elts: seq<Entry>, h: nat, lo: Bound, hi: Bound, max: nat)
    requires h > 0 && WF(t, h, lo, hi, max)
    requires Within(elts, At(t.pivots[0].key), hi) && Ordered(All(t) + elts)
    ensures var t' := t.(elements := ApplyAll(t.elements, false, elts));
            WF(t', h, lo, hi, max) && Refines(All(t'), All(t) + elts)
  {
    hide Refines, Ordered, ApplyAll, Within, Sorted, Shape, WFF;
    var e' := ApplyAll(t.elements, false, elts);
    ApplyRefines(AllF(t.pivots), t.elements, false, elts);
    assert AllF(t.pivots) + t.elements + elts == AllF(t.pivots) + (t.elements + elts);
    OrderedConcat(AllF(t.pivots), t.elements + elts);
    ApplyAllSound(t.elements, false, elts);
    WithinSubset(e', t.elements, elts, At(t.pivots[0].key), hi);
  }

  ghost function Lowered(t: Tree, k: Key): Tree
    requires |t.pivots| > 0
  {
    t.(pivots := [Pivot(k, t.pivots[0].child)] + t.pivots[1..])
  }

  /** The first pivot takes a smaller key of the node's range. */
  lemma {:induction false} LowerStep(t: Tree, k: Key, h: nat, lo: Bound, hi: Bound, max: nat)
    requires h > 0 && WF(t, h, lo, hi, max)
    requires k < t.pivots[0].key && Inside(k, lo, hi)
    ensures WF(Lowered(t, k), h, lo, hi, max)
    ensures All(Lowered(t, k)) == All(t)
  {
    var c, b := t.pivots[0], t.pivots[1..];
    var c' := Pivot(k, c.child);
    assert t.pivots == [c] + b;
    AllFConcat([c], b);
    AllFConcat([c'], b);
    AllFOne(c);
    AllFOne(c');
    assert WF(c.child, h - 1, At(c.key), NextKey(t.pivots, 0, hi), max);
    WFWiden(c.child, h - 1, At(c.key), NextKey(t.pivots, 0, hi), max, At(k), NextKey(t.pivots, 0, hi));
    LoweredRow(t.pivots, k, h - 1, lo, hi, max);
  }

  lemma {:induction false} LoweredRow(ps: seq<Pivot>, k: Key, h: nat, lo: Bound, hi: Bound, max: nat)
    requires ps != [] && WFF(ps, h, lo, hi, max) && k < ps[0].key && Inside(k, lo, hi)
    requires WF(ps[0].child, h, At(k), NextKey(ps, 0, hi), max)
    ensures WFF([Pivot(k, ps[0].child)] + ps[1..], h, lo, hi, max)
  {
  }

  /** Child `i` of `t` replaced by `ps`, with `e` left in the buffer. */
  ghost function Replaced(t: Tree, i: nat, ps: seq<Pivot>, e: seq<Entry>): Tree
    requires i < |t.pivots|
  {
    Tree(t.id, t.pivots[..i] + ps + t.pivots[i + 1..], e)
  }

  /** Messages `x`, `z` stay in the buffer while `y` went down to child `i`, which came
      back as `ps`: the node is well formed and means what it meant with `y` on top. */
  lemma {:induction false} ChildStep(t: Tree, i: nat, ps: seq<Pivot>, x: seq<Entry>, y: seq<Entry>, z: seq<Entry>,
                                     h: nat, lo: Bound, hi: Bound, max: nat)
    requires h > 0 && WF(t, h, lo, hi, max) && i < |t.pivots| && ps != []
    requires Ordered(AllF(t.pivots) + x + y + z)
    requires Sorted(x + z) && Shape(x + z, false) && Within(x + z, At(t.pivots[0].key), hi)
    requires Within(y, At(t.pivots[i].key), NextKey(t.pivots, i, hi))
    requires Without(x + z, At(t.pivots[i].key), NextKey(t.pivots, i, hi))
    requires WFF(ps, h - 1, At(t.pivots[i].key), NextKey(t.pivots, i, hi), max)
    requires Refines(AllF(ps), All(t.pivots[i].child) + y)
    ensures WF(Replaced(t, i, ps, x + z), h, lo, hi, max)
    ensures Refines(All(Replaced(t, i, ps, x + z)), AllF(t.pivots) + x + y + z)
  {
    hide WFF, Ordered, Refines, Sorted, Shape;
    var a, c, b := t.pivots[..i], t.pivots[i], t.pivots[i + 1..];
    assert t.pivots == a + [c] + b;
    assert NextKey([c] + b, 0, hi) == NextKey(t.pivots, i, hi);
    ReplaceWF(a, c, b, ps, h - 1, lo, hi, max);
    MKeysConcat(x, z);
    ReplaceRefines(a, c, b, ps, x, y, z, h - 1, lo, hi, max);
    assert AllF(a + ps + b) + x + z == AllF(a + ps + b) + (x + z);
    FirstPivotKept(t, i, ps, x + z, h, lo, hi, max);
  }

  lemma {:induction false} FirstPivotKept(t: Tree, i: nat, ps: seq<Pivot>, e: seq<Entry>,
                                          h: nat, lo: Bound, hi: Bound, max: nat)
    requires h > 0 && WF(t, h, lo, hi, max) && i < |t.pivots| && ps != []
    requires Within(e, At(t.pivots[0].key), hi)
    requires Without(e, At(t.pivots[i].key), NextKey(t.pivots, i, hi))
    requires WFF(ps, h - 1, At(t.pivots[i].key), NextKey(t.pivots, i, hi), max)
    ensures Within(e, At(Replaced(t, i, ps, e).pivots[0].key), hi)
  {
  }
}
