/** The shape of the tree as a value: nodes with identities, pivots in key order,
    the messages buffered at each node, and what it is for them to be well formed. */
module Trees {
  import opened Messages
  import opened Buffer

  type NodeId = nat

  datatype Tree = Tree(id: NodeId, pivots: seq<Pivot>, elements: seq<Entry>)

  datatype Pivot = Pivot(key: Key, child: Tree)

  // ---------- All messages of a tree, descendants first ----------

  ghost function All(t: Tree): seq<Entry>
    decreases t, 1
  {
    AllF(t.pivots) + t.elements
  }

  ghost function AllF(ps: seq<Pivot>): seq<Entry>
    decreases ps, 0
  {
    if ps == [] then []
    else
      assert ps[0] in ps && ps[0].child < ps[0];
      All(ps[0].child) + AllF(ps[1..])
  }

  lemma {:induction false} AllFConcat(a: seq<Pivot>, b: seq<Pivot>)
    ensures AllF(a + b) == AllF(a) + AllF(b)
    decreases |a|
  {
    if a == [] {
      assert a + b == b;
    } else {
      assert (a + b)[1..] == a[1..] + b;
      AllFConcat(a[1..], b);
    }
  }

  lemma {:induction false} AllFOne(p: Pivot)
    ensures AllF([p]) == All(p.child)
  {
  }

  // ---------- Well-formed trees ----------

  ghost predicate KeysSorted(ps: seq<Pivot>) {
    forall i, j :: 0 <= i < j < |ps| ==> ps[i].key < ps[j].key
  }

  ghost function NextKey(ps: seq<Pivot>, i: int, hi: Bound): Bound
    requires 0 <= i < |ps|
  {
    if i + 1 < |ps| then At(ps[i + 1].key) else hi
  }

  /** A leaf of the range [lo, hi), possibly over-full. */
  ghost predicate Leaf(t: Tree, lo: Bound, hi: Bound) {
    && t.pivots == []
    && Sorted(t.elements)
    && Shape(t.elements, true)
    && Within(t.elements, lo, hi)
  }

  /** A tree of height `h` with all its keys in [lo, hi): every leaf at depth `h` and
      holding fewer than `max` messages, every other node with at least one child,
      and each buffer sorted, compacted and at or above the node's first pivot. */
  ghost predicate WF(t: Tree, h: nat, lo: Bound, hi: Bound, max: nat)
    ensures WF(t, h, lo, hi, max) && h > 0 ==> |t.pivots| > 0
    decreases h, 2
  {
    if h == 0 then
      Leaf(t, lo, hi) && |t.elements| < max
    else
      && Sorted(t.elements)
      && Shape(t.elements, false)
      && |t.pivots| > 0
      && WFF(t.pivots, h - 1, lo, hi, max)
      && Within(t.elements, At(t.pivots[0].key), hi)
  }

  /** Children in key order, each well formed between its pivot and the next. */
  ghost predicate WFF(ps: seq<Pivot>, h: nat, lo: Bound, hi: Bound, max: nat)
    decreases h, 3
  {
    && KeysSorted(ps)
    && (forall i :: 0 <= i < |ps| ==> Inside(ps[i].key, lo, hi))
    && (forall i :: 0 <= i < |ps| ==> WF(ps[i].child, h, At(ps[i].key), NextKey(ps, i, hi), max))
  }

  ghost predicate Wider(lo': Bound, hi': Bound, lo: Bound, hi: Bound) {
    && (lo'.At? ==> lo.At? && lo'.key <= lo.key)
    && (hi'.At? ==> hi.At? && hi.key <= hi'.key)
  }

  lemma {:induction false} WFWiden(t: Tree, h: nat, lo: Bound, hi: Bound, max: nat, lo': Bound, hi': Bound)
    requires WF(t, h, lo, hi, max) && Wider(lo', hi', lo, hi)
    ensures WF(t, h, lo', hi', max)
    decreases h, 0
  {
    if h > 0 {
      WFFWiden(t.pivots, h - 1, lo, hi, max, lo', hi');
    }
  }

  lemma {:induction false} WFFWiden(ps: seq<Pivot>, h: nat, lo: Bound, hi: Bound, max: nat, lo': Bound, hi': Bound)
    requires WFF(ps, h, lo, hi, max) && Wider(lo', hi', lo, hi)
    ensures WFF(ps, h, lo', hi', max)
    decreases h, 1
  {
    if ps != [] {
      var n := |ps| - 1;
      WFWiden(ps[n].child, h, At(ps[n].key), hi, max, At(ps[n].key), hi');
      forall i | 0 <= i < |ps| ensures WF(ps[i].child, h, At(ps[i].key), NextKey(ps, i, hi'), max) {
        assert WF(ps[i].child, h, At(ps[i].key), NextKey(ps, i, hi), max);
      }
    }
  }

  /** Cutting a row of children in two. */
  lemma {:induction false} WFFCut(a: seq<Pivot>, b: seq<Pivot>, h: nat, lo: Bound, hi: Bound, max: nat)
    requires WFF(a + b, h, lo, hi, max) && b != []
    ensures WFF(a, h, lo, At(b[0].key), max)
    ensures WFF(b, h, At(b[0].key), hi, max)
  {
    hide WF;
    var s := a + b;
    assert forall i :: 0 <= i < |a| ==> s[i] == a[i];
    assert forall i :: 0 <= i < |b| ==> s[|a| + i] == b[i];
    forall i | 0 <= i < |a| ensures WF(a[i].child, h, At(a[i].key), NextKey(a, i, At(b[0].key)), max) {
      assert s[i] == a[i] && WF(s[i].child, h, At(s[i].key), NextKey(s, i, hi), max);
    }
    forall i | 0 <= i < |b| ensures WF(b[i].child, h, At(b[i].key), NextKey(b, i, hi), max) {
      var j := |a| + i;
      assert s[j] == b[i] && WF(s[j].child, h, At(s[j].key), NextKey(s, j, hi), max);
    }
  }

  /** Putting two rows side by side. */
  lemma {:induction false} WFFJoin(a: seq<Pivot>, b: seq<Pivot>, h: nat, lo: Bound, mid: Key, hi: Bound, max: nat)
    requires WFF(a, h, lo, At(mid), max) && WFF(b, h, At(mid), hi, max) && b != []
    requires lo.At? ==> lo.key <= mid
    ensures WFF(a + b, h, lo, hi, max)
  {
    hide WF;
    var s := a + b;
    assert forall i :: 0 <= i < |a| ==> s[i] == a[i];
    WFFWiden(a, h, lo, At(mid), max, lo, At(b[0].key));
    assert forall i :: 0 <= i < |b| ==> s[|a| + i] == b[i];
    forall i | 0 <= i < |s| ensures WF(s[i].child, h, At(s[i].key), NextKey(s, i, hi), max) {
      if i < |a| {
        assert WF(a[i].child, h, At(a[i].key), NextKey(a, i, At(b[0].key)), max);
      } else {
        assert WF(b[i - |a|].child, h, At(b[i - |a|].key), NextKey(b, i - |a|, hi), max);
      }
    }
  }

  /** Every message below a well-formed node lies in the node's range. */
  lemma {:induction false} AllWithin(t: Tree, h: nat, lo: Bound, hi: Bound, max: nat)
    requires WF(t, h, lo, hi, max)
    ensures Within(All(t), lo, hi)
    decreases h, 0, 0
  {
    MKeysConcat(AllF(t.pivots), t.elements);
    if h > 0 {
      AllFWithin(t.pivots, h - 1, lo, hi, max);
      assert Inside(t.pivots[0].key, lo, hi);
    } else {
      assert AllF(t.pivots) == [];
    }
  }

  lemma {:induction false} AllFWithin(ps: seq<Pivot>, h: nat, lo: Bound, hi: Bound, max: nat)
    requires WFF(ps, h, lo, hi, max)
    ensures Within(AllF(ps), lo, hi)
    decreases h, 1, |ps|
  {
    if ps != [] {
      assert WF(ps[0].child, h, At(ps[0].key), NextKey(ps, 0, hi), max);
      AllWithin(ps[0].child, h, At(ps[0].key), NextKey(ps, 0, hi), max);
      MKeysConcat(All(ps[0].child), AllF(ps[1..]));
      assert Inside(ps[0].key, lo, hi);
      if |ps| > 1 {
        assert ps == [ps[0]] + ps[1..];
        WFFCut([ps[0]], ps[1..], h, lo, hi, max);
        AllFWithin(ps[1..], h, At(ps[1].key), hi, max);
        assert Inside(ps[1].key, lo, hi);
      } else {
        assert ps[1..] == [];
      }
    }
  }

  // ---------- Replacing one child ----------

  lemma PivotInside(ps: seq<Pivot>, i: nat, h: nat, lo: Bound, hi: Bound, max: nat)
    requires WFF(ps, h, lo, hi, max) && i < |ps|
    ensures Inside(ps[i].key, lo, hi)
  {
  }

  /** Splicing the pieces of a split child into its place keeps the row sorted and in
      range: no new pivot meets an old one. */
  lemma {:induction false} ReplaceWF(a: seq<Pivot>, c: Pivot, b: seq<Pivot>, new': seq<Pivot>,
                                     h: nat, lo: Bound, hi: Bound, max: nat)
    requires WFF(a + [c] + b, h, lo, hi, max)
    requires new' != [] && WFF(new', h, At(c.key), NextKey([c] + b, 0, hi), max)
    ensures WFF(a + new' + b, h, lo, hi, max)
  {
    hide WF, WFF;
    assert Inside(c.key, lo, hi) by {
      assert (a + [c] + b)[|a|] == c;
      PivotInside(a + [c] + b, |a|, h, lo, hi, max);
    }
    assert a + [c] + b == a + ([c] + b) && ([c] + b)[0] == c;
    WFFCut(a, [c] + b, h, lo, hi, max);
    if b == [] {
      assert new' + b == new' && a + new' + b == a + new';
      WFFJoin(a, new', h, lo, c.key, hi, max);
    } else {
      WFFCut([c], b, h, At(c.key), hi, max);
      PivotInside([c] + b, 1, h, At(c.key), hi, max);
      WFFJoin(new', b, h, At(c.key), b[0].key, hi, max);
      assert a + new' + b == a + (new' + b);
      WFFJoin(a, new' + b, h, lo, c.key, hi, max);
    }
  }

  lemma {:induction false} RowWithout(a: seq<Pivot>, c: Pivot, b: seq<Pivot>, h: nat, lo: Bound, hi: Bound, max: nat)
    requires WFF(a + [c] + b, h, lo, hi, max)
    ensures Within(All(c.child), At(c.key), NextKey([c] + b, 0, hi))
    ensures Without(AllF(a), At(c.key), NextKey([c] + b, 0, hi))
    ensures Without(AllF(b), At(c.key), NextKey([c] + b, 0, hi))
  {
    assert a + [c] + b == a + ([c] + b);
    WFFCut(a, [c] + b, h, lo, hi, max);
    AllFWithin(a, h, lo, At(c.key), max);
    assert WF(([c] + b)[0].child, h, At(c.key), NextKey([c] + b, 0, hi), max);
    AllWithin(c.child, h, At(c.key), NextKey([c] + b, 0, hi), max);
    if b != [] {
      WFFCut([c], b, h, At(c.key), hi, max);
      AllFWithin(b, h, At(b[0].key), hi, max);
    }
  }

  /** A child that absorbed the batch `y`, alone or as several pieces, may take its
      old place under a node whose other messages `x`, `z` are not for it. */
  lemma {:induction false} ReplaceRefines(a: seq<Pivot>, c: Pivot, b: seq<Pivot>, new': seq<Pivot>,
                                          x: seq<Entry>, y: seq<Entry>, z: seq<Entry>,
                                          h: nat, lo: Bound, hi: Bound, max: nat)
    requires WFF(a + [c] + b, h, lo, hi, max)
    requires Ordered(AllF(a + [c] + b) + x + y + z)
    requires Refines(AllF(new'), All(c.child) + y)
    requires Within(y, At(c.key), NextKey([c] + b, 0, hi))
    requires Without(x, At(c.key), NextKey([c] + b, 0, hi))
    requires Without(z, At(c.key), NextKey([c] + b, 0, hi))
    ensures Refines(AllF(a + new' + b) + x + z, AllF(a + [c] + b) + x + y + z)
  {
    AllFConcat(a + [c], b);
    AllFConcat(a, [c]);
    AllFOne(c);
    AllFConcat(a + new', b);
    AllFConcat(a, new');
    RowWithout(a, c, b, h, lo, hi, max);
    RefinesInside(AllF(a), All(c.child), AllF(b), x, y, z, AllF(new'),
                  At(c.key), NextKey([c] + b, 0, hi));
  }
}
