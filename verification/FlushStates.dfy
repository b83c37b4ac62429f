/** What holds of the node table between the steps of a flush, and why each step keeps it. */
module FlushStates {
  import opened Base
  import opened Messages
  import opened Buffer
  import opened Trees
  import opened Stores
  import opened Splitting
  import opened Flushing

  ghost predicate IdsBelow(nodes: Store, next: NodeId) {
    forall x :: x in nodes ==> x < next
  }

  /** Each new node holds at most `b` things. */
  ghost predicate PieceSizes(forest: seq<Pivot>, b: nat) {
    forall i :: 0 <= i < |forest| ==> Size(forest[i].child) <= b
  }

  /** Each new node holds at most five eighths of the maximum size, and at most `g` more
      if it is internal. */
  ghost predicate SplitBound(forest: seq<Pivot>, leaf: bool, max: nat, g: nat) {
    forall i :: 0 <= i < |forest| ==> 8 * Size(forest[i].child) <= 5 * max + (if leaf then 0 else 8 * g)
  }

  lemma {:induction false} PieceSizesGrow(forest: seq<Pivot>, forest': seq<Pivot>, b: nat)
    requires PieceSizes(forest, b)
    requires exists p :: forest' == forest + [p] && Size(p.child) <= b
    ensures PieceSizes(forest', b) && |forest'| == |forest| + 1
  {
  }

  lemma {:induction false} SizesAddUp(forest: seq<Pivot>, b: nat)
    requires PieceSizes(forest, b)
    ensures |FlatPivots(forest)| + |FlatElements(forest)| <= |forest| * b
  {
    if forest != [] {
      var r := forest[..|forest| - 1];
      SizesAddUp(r, b);
      assert Size(forest[|forest| - 1].child) <= b;
      assert |forest| * b == |r| * b + b;
    }
  }

  /** A node cut into pieces that are all smaller was cut at least in two. */
  lemma {:induction false} AtLeastTwoPieces(t: Tree, forest: seq<Pivot>, b: nat)
    requires Partition(t, forest, |t.pivots|, |t.elements|) && PieceSizes(forest, b) && b < Size(t)
    ensures |forest| >= 2
  {
    SizesAddUp(forest, b);
    assert |forest| * b == (|forest| - 1) * b + b;
  }

  /** With a flush threshold of at most three eighths of the maximum size, splitting an
      internal node that is too large gives at least two nodes, none of them too large. */
  lemma {:induction false} SplitFits(t: Tree, forest: seq<Pivot>, max: nat, g: nat)
    requires Partition(t, forest, |t.pivots|, |t.elements|) && SplitBound(forest, false, max, g)
    requires 8 * g <= 3 * max && max < Size(t)
    ensures |forest| >= 2 && PieceSizes(forest, max)
  {
    assert PieceSizes(forest, max);
    AtLeastTwoPieces(t, forest, max);
  }

  /** No child of `t` has more than `g` messages waiting for it. */
  ghost predicate BatchesUpTo(t: Tree, g: nat) {
    forall i :: 0 <= i < |t.pivots| ==> Batch(AsNode(t), i) <= g
  }

  lemma {:induction false} RepRoot(n: Store, t: Tree)
    requires Rep(n, t)
    ensures t.id in n && n[t.id] == AsNode(t)
  {
  }

  lemma {:induction false} ReadySorted(t: Tree, h: nat, lo: Bound, hi: Bound, max: nat)
    requires SplitReady(t, h, lo, hi, max)
    ensures NodeSorted(AsNode(t)) && (h == 0 <==> t.pivots == [])
  {
    if h > 0 {
      WFNode(t, h, lo, hi, max);
    }
  }

  /** The table holds the nodes of `t`, each once, and no other node. */
  ghost predicate Exact(n: Store, t: Tree) {
    forall x: NodeId :: Count(t, x) == Held(n, x)
  }

  /** All timestamps lie in [1, next). */
  ghost predicate Stamped(s: seq<Entry>, next: nat) {
    forall m :: m in MKeys(s) ==> 1 <= m.timestamp < next
  }

  // ---------- The state of a flush ----------

  /** What a flush into the node of `t` may rely on. */
  ghost predicate FlushPre(n: Store, t: Tree, elts: seq<Entry>, h: nat, lo: Bound, hi: Bound, max: nat) {
    && Rep(n, t) && Once(n, t) && WF(t, h, lo, hi, max)
    && Sorted(elts) && Within(elts, lo, hi) && Ordered(All(t) + elts)
  }

  /** The flush has turned `t0` into `t`, still one node of the same id, which holds
      everything `t0` and the batch `elts` meant. */
  ghost predicate Working(n0: Store, t0: Tree, elts: seq<Entry>, h: nat, lo: Bound, hi: Bound, max: nat,
                          n: Store, t: Tree)
  {
    && Rep(n, t) && Once(n, t) && t.id == t0.id && Evolves(n0, t0, n, t)
    && WF(t, h, lo, hi, max) && Refines(All(t), All(t0) + elts)
  }

  /** The flush is over: the node stands for `t'`, or it was split into `forest`. */
  ghost predicate Flushed(n0: Store, t: Tree, elts: seq<Entry>, h: nat, lo: Bound, hi: Bound, max: nat,
                          n: Store, t': Tree, forest: seq<Pivot>)
  {
    && FlushPost(t, elts, h, lo, hi, max, t', forest)
    && (forest == [] ==> Rep(n, t') && t'.id == t.id && Evolves(n0, t, n, t'))
    && (forest != [] ==> RepF(n, forest) && EvolvesF(n0, t, n, forest) && t.id in n && n[t.id] == Node([], []))
  }

  /** The whole batch is for one child of `n`. */
  ghost predicate OneChild(n: Node, elts: seq<Entry>) {
    n.pivots != [] && elts != [] &&
    var first := GetPivot(n.pivots, elts[0].mkey.key);
    first.Some? && first == GetPivot(n.pivots, elts[|elts| - 1].mkey.key)
  }

  /** And `n` already buffers messages for that child. */
  ghost predicate Trips(n: Node, elts: seq<Entry>) {
    OneChild(n, elts) && Batch(n, GetPivot(n.pivots, elts[0].mkey.key).value) != 0
  }

  lemma {:induction false} WorkingParts(n0: Store, t0: Tree, elts: seq<Entry>, h: nat, lo: Bound, hi: Bound, max: nat,
                                        n: Store, t: Tree)
    requires Working(n0, t0, elts, h, lo, hi, max, n, t)
    ensures Rep(n, t) && Once(n, t) && t.id == t0.id && Evolves(n0, t0, n, t)
    ensures WF(t, h, lo, hi, max) && Refines(All(t), All(t0) + elts) && Ordered(All(t))
  {
    hide Rep, Once, Evolves, WF, Ordered;
    RefinesOrdered(All(t), All(t0) + elts);
  }

  lemma {:induction false} WorkingDone(n0: Store, t0: Tree, elts: seq<Entry>, h: nat, lo: Bound, hi: Bound, max: nat,
                                       n: Store, t: Tree)
    requires Working(n0, t0, elts, h, lo, hi, max, n, t)
    ensures Flushed(n0, t0, elts, h, lo, hi, max, n, t, [])
  {
  }

  /** A batch was applied to the buffer of the node. */
  lemma {:induction false} LeafApplied(n0: Store, t: Tree, elts: seq<Entry>, lo: Bound, hi: Bound, max: nat)
    requires FlushPre(n0, t, elts, 0, lo, hi, max)
    ensures var e := ApplyAll(t.elements, true, elts);
            var n, t' := n0[t.id := Node(Refs(t.pivots), e)], t.(elements := e);
            && Rep(n, t') && Once(n, t') && Evolves(n0, t, n, t')
            && Leaf(t', lo, hi) && Refines(All(t'), All(t) + elts)
  {
    hide Rep, Once, Evolves, Refines, ApplyAll, Leaf, Ordered;
    var e := ApplyAll(t.elements, true, elts);
    assert Leaf(t, lo, hi) by {
      LeafOf(t, lo, hi, max);
    }
    LeafStep(t, elts, lo, hi);
    BufferStored(n0, t, e);
    OnceKept(n0, t, n0[t.id := Node(Refs(t.pivots), e)], t.(elements := e));
  }

  lemma {:induction false} LeafGrows(n0: Store, t: Tree, elts: seq<Entry>, lo: Bound, hi: Bound, max: nat)
    requires FlushPre(n0, t, elts, 0, lo, hi, max)
    ensures |ApplyAll(t.elements, true, elts)| <= |t.elements| + |elts|
  {
    hide Rep, Once, Within, Ordered, ApplyAll, Sorted, Shape;
    LeafOf(t, lo, hi, max);
    assert All(t) == AllF([]) + t.elements == t.elements;
    ApplyAllSound(t.elements, true, elts);
  }

  lemma LeafOf(t: Tree, lo: Bound, hi: Bound, max: nat)
    requires WF(t, 0, lo, hi, max)
    ensures Leaf(t, lo, hi)
  {
  }

  lemma {:induction false} BatchBuffered(n0: Store, t0: Tree, elts: seq<Entry>, h: nat, lo: Bound, hi: Bound, max: nat,
                                         n: Store, t: Tree)
    requires h > 0 && Working(n0, t0, [], h, lo, hi, max, n, t) && All(t) == All(t0)
    requires Within(elts, At(t.pivots[0].key), hi) && Ordered(All(t) + elts)
    ensures var e := ApplyAll(t.elements, false, elts);
            Working(n0, t0, elts, h, lo, hi, max, n[t.id := Node(Refs(t.pivots), e)], t.(elements := e))
  {
    hide Rep, Once, Evolves, Refines, ApplyAll, WF, Ordered, Within;
    var e := ApplyAll(t.elements, false, elts);
    BufferStep(t, elts, h, lo, hi, max);
    BufferStored(n, t, e);
    OnceKept(n, t, n[t.id := Node(Refs(t.pivots), e)], t.(elements := e));
    EvolvesTransitive(n0, t0, n, t, n[t.id := Node(Refs(t.pivots), e)], t.(elements := e));
  }

  lemma {:induction false} SplitFinish(n0: Store, t0: Tree, elts: seq<Entry>, h: nat, lo: Bound, hi: Bound, max: nat,
                                       n1: Store, t1: Tree, n2: Store, forest: seq<Pivot>)
    requires t1.id == t0.id && Evolves(n0, t0, n1, t1) && Refines(All(t1), All(t0) + elts)
    requires forest != [] && WFF(forest, h, lo, hi, max) && Refines(AllF(forest), All(t1))
    requires RepF(n2, forest) && EvolvesF(n1, t1, n2, forest) && t0.id in n2 && n2[t0.id] == Node([], [])
    ensures Flushed(n0, t0, elts, h, lo, hi, max, n2, t0, forest)
  {
    hide Evolves, EvolvesF, Refines, WFF, RepF;
    EvolvesThenSplit(n0, t0, n1, t1, n2, forest);
    RefinesTransitive(AllF(forest), All(t1), All(t0) + elts);
  }

  // ---------- Flushing to one child ----------

  /** Of the messages above the children of `t`, `y` is for child `i` and `x`, `z` are
      not; `x` and `z` are what the node keeps. */
  ghost predicate ForChild(t: Tree, i: nat, x: seq<Entry>, y: seq<Entry>, z: seq<Entry>, hi: Bound)
    requires i < |t.pivots|
  {
    && Ordered(AllF(t.pivots) + x + y + z)
    && Sorted(y) && Within(y, At(t.pivots[i].key), NextKey(t.pivots, i, hi))
    && Sorted(x + z) && Shape(x + z, false) && Within(x + z, At(t.pivots[0].key), hi)
    && Without(x + z, At(t.pivots[i].key), NextKey(t.pivots, i, hi))
  }

  lemma {:induction false} ChildPre(n: Store, t: Tree, i: nat, x: seq<Entry>, y: seq<Entry>, z: seq<Entry>,
                                    h: nat, lo: Bound, hi: Bound, max: nat)
    requires h > 0 && Rep(n, t) && Once(n, t) && WF(t, h, lo, hi, max)
    requires i < |t.pivots| && ForChild(t, i, x, y, z, hi)
    ensures FlushPre(n, t.pivots[i].child, y, h - 1, At(t.pivots[i].key), NextKey(t.pivots, i, hi), max)
  {
    hide Rep, Once, Ordered, Sorted, Shape, Within, Without;
    OnceChild(n, t, i);
    var a, c, b := t.pivots[..i], t.pivots[i], t.pivots[i + 1..];
    assert t.pivots == a + [c] + b;
    AllFConcat(a + [c], b);
    AllFConcat(a, [c]);
    AllFOne(c);
    OrderedPart(AllF(a), All(c.child), AllF(b), x, y, z);
  }

  /** The row that takes the child's place. */
  ghost function NewRow(c: Pivot, c': Tree, forest: seq<Pivot>): (r: seq<Pivot>)
    ensures r != []
  {
    if forest == [] then [Pivot(c.key, c')] else forest
  }

  lemma {:induction false} NewRowWF(c: Pivot, y: seq<Entry>, h: nat, hi: Bound, max: nat, c': Tree, forest: seq<Pivot>)
    requires FlushPost(c.child, y, h, At(c.key), hi, max, c', forest)
    requires hi.At? ==> c.key < hi.key
    ensures WFF(NewRow(c, c', forest), h, At(c.key), hi, max)
    ensures Refines(AllF(NewRow(c, c', forest)), All(c.child) + y)
  {
    hide Refines, WF, WFF;
    if forest == [] {
      RowOfOne(Pivot(c.key, c'), h, hi, max);
      AllFOne(Pivot(c.key, c'));
    }
  }

  lemma {:induction false} NewRowStored(n0: Store, c: Pivot, y: seq<Entry>, h: nat, lo: Bound, hi: Bound, max: nat,
                                        n1: Store, c': Tree, forest: seq<Pivot>)
    requires Rep(n0, c.child) && Once(n0, c.child)
    requires Flushed(n0, c.child, y, h, lo, hi, max, n1, c', forest)
    ensures var n := if forest == [] then n1 else n1 - {c.child.id};
            EvolvesRow(n0, c.child, n, NewRow(c, c', forest)) && RepF(n, NewRow(c, c', forest))
  {
    hide Rep, Once, Evolves, EvolvesF, EvolvesRow, RepF, FlushPost;
    if forest == [] {
      KeptChild(n0, c, n1, c');
    } else {
      FreeSplit(n0, c.child, n1, forest);
    }
  }

  /** The node once its child came back as `c'` or as `forest`. */
  ghost function Regrown(t: Tree, i: nat, c': Tree, forest: seq<Pivot>, e: seq<Entry>): Tree
    requires i < |t.pivots|
  {
    Replaced(t, i, NewRow(t.pivots[i], c', forest), e)
  }

  lemma {:induction false} NextAbove(t: Tree, i: nat, h: nat, lo: Bound, hi: Bound, max: nat)
    requires h > 0 && WF(t, h, lo, hi, max) && i < |t.pivots|
    ensures NextKey(t.pivots, i, hi).At? ==> t.pivots[i].key < NextKey(t.pivots, i, hi).key
  {
  }

  /** A node whose child `i` absorbed the batch `y`. */
  lemma {:induction false} ChildFlushed(n0: Store, t: Tree, i: nat, x: seq<Entry>, y: seq<Entry>, z: seq<Entry>,
                                        h: nat, lo: Bound, hi: Bound, max: nat, n1: Store, c': Tree, forest: seq<Pivot>)
    requires h > 0 && Rep(n0, t) && Once(n0, t) && WF(t, h, lo, hi, max)
    requires i < |t.pivots| && ForChild(t, i, x, y, z, hi)
    requires Flushed(n0, t.pivots[i].child, y, h - 1, At(t.pivots[i].key), NextKey(t.pivots, i, hi), max,
                     n1, c', forest)
    ensures var t' := Regrown(t, i, c', forest, x + z);
            var n := if forest == [] then n1 else n1 - {t.pivots[i].child.id};
            var n2 := n[t.id := Node(Refs(t'.pivots), x + z)];
            && WF(t', h, lo, hi, max) && Refines(All(t'), AllF(t.pivots) + x + y + z)
            && Rep(n2, t') && Once(n2, t') && Evolves(n0, t, n2, t') && t.id in n
  {
    hide Rep, Once, Evolves, EvolvesRow, RepF, WF, WFF, Refines, Flushed, FlushPost, Ordered, Sorted, Shape, Within,
         Without;
    var c, next := t.pivots[i], NextKey(t.pivots, i, hi);
    NextAbove(t, i, h, lo, hi, max);
    FlushedPost(n0, c.child, y, h - 1, At(c.key), next, max, n1, c', forest);
    NewRowWF(c, y, h - 1, next, max, c', forest);
    ChildStep(t, i, NewRow(c, c', forest), x, y, z, h, lo, hi, max);
    OnceChild(n0, t, i);
    NewRowStored(n0, c, y, h - 1, At(c.key), next, max, n1, c', forest);
    var n := if forest == [] then n1 else n1 - {c.child.id};
    RowStored(n0, t, i, n, NewRow(c, c', forest), x + z);
    var t' := Regrown(t, i, c', forest, x + z);
    OnceKept(n0, t, n[t.id := Node(Refs(t'.pivots), x + z)], t');
  }

  lemma FlushedPost(n0: Store, t: Tree, elts: seq<Entry>, h: nat, lo: Bound, hi: Bound, max: nat,
                    n: Store, t': Tree, forest: seq<Pivot>)
    requires Flushed(n0, t, elts, h, lo, hi, max, n, t', forest)
    ensures FlushPost(t, elts, h, lo, hi, max, t', forest)
  {
  }

  /** pivots.erase(child) and pivots.insert(new_children) put exactly the new children in
      the child's place: none of them meets a pivot that is already there. */
  lemma {:induction false} PivotsReplaced(t: Tree, i: nat, forest: seq<Pivot>, e: seq<Entry>,
                                          h: nat, lo: Bound, hi: Bound, max: nat)
    requires h > 0 && WF(t, h, lo, hi, max) && i < |t.pivots| && WF(Replaced(t, i, forest, e), h, lo, hi, max)
    ensures InsertRefs(EraseRef(Refs(t.pivots), t.pivots[i].key), Refs(forest))
         == Refs(Replaced(t, i, forest, e).pivots)
  {
    hide WF, WFF, RefsSorted, InsertRefs, EraseRef, Sorted, Shape, Within;
    WFNode(t, h, lo, hi, max);
    WFNode(Replaced(t, i, forest, e), h, lo, hi, max);
    var a, b := t.pivots[..i], t.pivots[i + 1..];
    EraseRefAt(Refs(t.pivots), i);
    assert Refs(t.pivots)[..i] == Refs(a) && Refs(t.pivots)[i + 1..] == Refs(b);
    RefsConcat(a + forest, b);
    RefsConcat(a, forest);
    InsertRefsSplice(Refs(a), Refs(forest), Refs(b));
  }

  // ---------- The messages for one child ----------

  lemma {:induction false} CutKept(s: seq<Entry>, l: nat, u: nat, leaf: bool)
    requires Sorted(s) && Shape(s, leaf) && l <= u <= |s|
    ensures Sorted(s[..l] + s[u..]) && Shape(s[..l] + s[u..], leaf)
  {
  }

  lemma {:induction false} WithoutAll(s: seq<Entry>, lo: Bound, hi: Bound)
    requires forall i :: 0 <= i < |s| ==> !Inside(s[i].mkey.key, lo, hi)
    ensures Without(s, lo, hi)
  {
  }

  /** Where child `i`'s messages begin and end in the buffer of `t`. */
  lemma {:induction false} ChildSpan(t: Tree, i: nat, h: nat, lo: Bound, hi: Bound, max: nat)
    requires h > 0 && WF(t, h, lo, hi, max) && i < |t.pivots|
    ensures var l, u := ElementBegin(AsNode(t), i), ElementBegin(AsNode(t), i + 1);
            && l <= u
            && (forall j :: 0 <= j < l || u <= j < |t.elements|
                  ==> !Inside(t.elements[j].mkey.key, At(t.pivots[i].key), NextKey(t.pivots, i, hi)))
  {
    hide WF, WFF, Sorted, Shape, Within, RefsSorted, KeyLow;
    WFNode(t, h, lo, hi, max);
    ElementBeginMono(AsNode(t), i, i + 1);
    KeyCut(t.elements, t.pivots[i].key);
    if i + 1 < |t.pivots| {
      KeyCut(t.elements, t.pivots[i + 1].key);
    }
  }

  /** The buffer cut before and after child `i`'s messages. */
  lemma {:induction false} BatchForChild(t: Tree, i: nat, h: nat, lo: Bound, hi: Bound, max: nat)
    requires h > 0 && WF(t, h, lo, hi, max) && i < |t.pivots| && Ordered(All(t))
    ensures var l, u := ElementBegin(AsNode(t), i), ElementBegin(AsNode(t), i + 1);
            && l <= u
            && ForChild(t, i, t.elements[..l], t.elements[l..u], t.elements[u..], hi)
            && AllF(t.pivots) + t.elements[..l] + t.elements[l..u] + t.elements[u..] == All(t)
  {
    hide WF, WFF, Sorted, Shape, Within, Without, Ordered, ElementBegin;
    var l, u := ElementBegin(AsNode(t), i), ElementBegin(AsNode(t), i + 1);
    WFNode(t, h, lo, hi, max);
    ChildSpan(t, i, h, lo, hi, max);
    InnerSpan(t, h, lo, hi, max, i, i + 1);
    var x, y, z := t.elements[..l], t.elements[l..u], t.elements[u..];
    assert t.elements == x + y + z;
    assert AllF(t.pivots) + x + y + z == AllF(t.pivots) + (x + y + z);
    SliceKept(t.elements, l, u, false);
    CutKept(t.elements, l, u, false);
    KeepWithin(t.elements, l, u, At(t.pivots[0].key), hi);
    WithoutAll(x + z, At(t.pivots[i].key), NextKey(t.pivots, i, hi));
    assert RestBound(t.pivots[i + 1..], [], hi) == NextKey(t.pivots, i, hi);
  }

  lemma {:induction false} KeepWithin(s: seq<Entry>, l: nat, u: nat, lo: Bound, hi: Bound)
    requires Within(s, lo, hi) && l <= u <= |s|
    ensures Within(s[..l] + s[u..], lo, hi)
  {
  }

  /** A batch for child `i` when the buffer holds nothing for it. */
  lemma {:induction false} DirectForChild(t: Tree, i: nat, elts: seq<Entry>, h: nat, lo: Bound, hi: Bound, max: nat)
    requires h > 0 && WF(t, h, lo, hi, max) && i < |t.pivots| && Ordered(All(t) + elts) && Sorted(elts)
    requires Within(elts, At(t.pivots[i].key), NextKey(t.pivots, i, hi))
    requires ElementBegin(AsNode(t), i) == ElementBegin(AsNode(t), i + 1)
    ensures ForChild(t, i, t.elements, elts, [], hi)
    ensures AllF(t.pivots) + t.elements + elts + [] == All(t) + elts
  {
    hide WF, WFF, Sorted, Shape, Within, Without, Ordered, ElementBegin;
    WFNode(t, h, lo, hi, max);
    ChildSpan(t, i, h, lo, hi, max);
    WithoutAll(t.elements, At(t.pivots[i].key), NextKey(t.pivots, i, hi));
    assert t.elements + [] == t.elements;
    assert AllF(t.pivots) + t.elements + elts + [] == All(t) + elts;
  }

  // ---------- Between the steps of a flush ----------

  /** A batch that is buffered leaves messages waiting for every child it has messages
      for, whether or not that child is dirty: that a dirty child has nothing waiting for
      it is not an invariant. */
  lemma {:induction false} BufferedWaits(t: Tree, elts: seq<Entry>, i: nat, k: Key, h: nat, lo: Bound, hi: Bound,
                                         max: nat)
    requires h > 0 && WF(t, h, lo, hi, max) && i < |t.pivots|
    requires Within(elts, At(t.pivots[0].key), hi) && Ordered(All(t) + elts)
    requires !Absent(elts, k) && Inside(k, At(t.pivots[i].key), NextKey(t.pivots, i, hi))
    ensures Batch(AsNode(t.(elements := ApplyAll(t.elements, false, elts))), i) > 0
  {
    hide WF, WFF, ApplyAll, Sorted, Shape, Ordered, ElementBegin, Within;
    WFNode(t, h, lo, hi, max);
    assert All(t) + elts == AllF(t.pivots) + (t.elements + elts);
    OrderedConcat(AllF(t.pivots), t.elements + elts);
    StaysBuffered(t.elements, elts, k);
    BufferStep(t, elts, h, lo, hi, max);
    var t' := t.(elements := ApplyAll(t.elements, false, elts));
    ChildSpan(t', i, h, lo, hi, max);
    var m :| m in MKeys(t'.elements) && m.key == k;
    var e :| e in t'.elements && e.mkey == m;
    var j :| 0 <= j < |t'.elements| && t'.elements[j] == e;
    assert Inside(t'.elements[j].mkey.key, At(t.pivots[i].key), NextKey(t.pivots, i, hi));
  }

  lemma {:induction false} WorkingStart(n: Store, t: Tree, elts: seq<Entry>, h: nat, lo: Bound, hi: Bound, max: nat)
    requires FlushPre(n, t, elts, h, lo, hi, max)
    ensures Working(n, t, [], h, lo, hi, max, n, t)
    ensures Ordered(All(t))
  {
    OrderedConcat(All(t), elts);
    assert All(t) + [] == All(t);
  }

  /** The first pivot was lowered to the smallest key of the batch. */
  lemma {:induction false} WorkingLowered(n: Store, t: Tree, elts: seq<Entry>, h: nat, lo: Bound, hi: Bound, max: nat)
    requires h > 0 && FlushPre(n, t, elts, h, lo, hi, max)
    requires elts != [] && elts[0].mkey.key < t.pivots[0].key
    ensures var t' := Lowered(t, elts[0].mkey.key);
            && Working(n, t, [], h, lo, hi, max, n[t.id := AsNode(t')], t')
            && All(t') == All(t)
            && EraseRef(PutRef(Refs(t.pivots), Ref(elts[0].mkey.key, t.pivots[0].child.id)), t.pivots[0].key)
               == Refs(t'.pivots)
  {
    hide Rep, Once, Evolves, EvolvesRow, RepF, WF, WFF, Refines, Ordered, Within, Sorted, RefsSorted, EraseRef, PutRef;
    var k, t' := elts[0].mkey.key, Lowered(t, elts[0].mkey.key);
    WorkingStart(n, t, elts, h, lo, hi, max);
    WithinAt(elts, 0, lo, hi);
    WFNode(t, h, lo, hi, max);
    LowerStep(t, k, h, lo, hi, max);
    OnceChild(n, t, 0);
    RowUnchanged(n, t.pivots[0].child, k);
    RowStored(n, t, 0, n, [Pivot(k, t.pivots[0].child)], t.elements);
    assert t.pivots[..0] + [Pivot(k, t.pivots[0].child)] + t.pivots[1..] == t'.pivots;
    OnceKept(n, t, n[t.id := AsNode(t')], t');
    LowerRefs(Refs(t.pivots), k);
  }

  /** A child flush inside the drain loop. */
  lemma {:induction false} WorkingNext(n0: Store, t0: Tree, elts: seq<Entry>, h: nat, lo: Bound, hi: Bound, max: nat,
                                       n: Store, t: Tree, n': Store, t': Tree)
    requires Working(n0, t0, elts, h, lo, hi, max, n, t)
    requires WF(t', h, lo, hi, max) && Rep(n', t') && Once(n', t') && Evolves(n, t, n', t') && t'.id == t.id
    requires Refines(All(t'), All(t))
    ensures Working(n0, t0, elts, h, lo, hi, max, n', t')
  {
    hide Rep, Once, Evolves, WF, Refines;
    EvolvesTransitive(n0, t0, n, t, n', t');
    RefinesTransitive(All(t'), All(t), All(t0) + elts);
  }

  /** The fast path: the whole batch went to one child of the node. */
  lemma {:induction false} WorkingDirect(n0: Store, t0: Tree, elts: seq<Entry>, h: nat, lo: Bound, hi: Bound, max: nat,
                                         n: Store, t: Tree, n': Store, t': Tree)
    requires Working(n0, t0, [], h, lo, hi, max, n, t) && All(t) == All(t0)
    requires WF(t', h, lo, hi, max) && Rep(n', t') && Once(n', t') && Evolves(n, t, n', t') && t'.id == t.id
    requires Refines(All(t'), All(t) + elts)
    ensures Working(n0, t0, elts, h, lo, hi, max, n', t')
  {
    hide Rep, Once, Evolves, WF, Refines;
    EvolvesTransitive(n0, t0, n, t, n', t');
  }

  /** A sorted batch whose ends belong to pivot `i` belongs to it altogether. */
  lemma {:induction false} BatchOfPivot(ps: seq<Pivot>, i: nat, elts: seq<Entry>, lo: Bound, hi: Bound)
    requires i < |ps| && elts != [] && Sorted(elts) && Within(elts, lo, hi)
    requires ps[i].key <= elts[0].mkey.key
    requires i + 1 < |ps| ==> elts[|elts| - 1].mkey.key < ps[i + 1].key
    ensures Within(elts, At(ps[i].key), NextKey(ps, i, hi))
  {
  }

  /** The first child with the most buffered messages. */
  method LargestBatch(n: Node) returns (best: nat, size: nat)
    requires NodeSorted(n) && n.pivots != []
    ensures best < |n.pivots| && Batch(n, best) == size
    ensures forall i :: 0 <= i < |n.pivots| ==> Batch(n, i) <= size && (i < best ==> Batch(n, i) < size)
  {
    hide KeyLow, RefsSorted, Sorted;
    best, size := 0, 0;
    ElementBeginMono(n, 0, 1);
    var i := 0;
    while i < |n.pivots|
      invariant best <= i <= |n.pivots| && best < |n.pivots|
      invariant if i == 0 then best == size == 0 else Batch(n, best) == size
      invariant forall j :: 0 <= j < i ==> Batch(n, j) <= size && (j < best ==> Batch(n, j) < size)
    {
      ElementBeginMono(n, i, i + 1);
      var dist := ElementBegin(n, i + 1) - ElementBegin(n, i);
      if dist > size {
        best, size := i, dist;
      }
      i := i + 1;
    }
  }

  lemma {:induction false} ChildOf(n: Store, t: Tree, i: nat, h: nat, lo: Bound, hi: Bound, max: nat)
    requires h > 0 && Rep(n, t) && WF(t, h, lo, hi, max) && i < |t.pivots|
    ensures Rep(n, t.pivots[i].child)
    ensures WF(t.pivots[i].child, h - 1, At(t.pivots[i].key), NextKey(t.pivots, i, hi), max)
  {
  }

  lemma FlushedForest(n0: Store, t: Tree, elts: seq<Entry>, h: nat, lo: Bound, hi: Bound, max: nat,
                      n: Store, t': Tree, forest: seq<Pivot>)
    requires Flushed(n0, t, elts, h, lo, hi, max, n, t', forest) && forest != []
    ensures RepF(n, forest) && EvolvesF(n0, t, n, forest) && t.id in n && WFF(forest, h, lo, hi, max)
  {
  }

  lemma FlushedTree(n0: Store, t: Tree, elts: seq<Entry>, h: nat, lo: Bound, hi: Bound, max: nat,
                    n: Store, t': Tree, forest: seq<Pivot>)
    requires Flushed(n0, t, elts, h, lo, hi, max, n, t', forest) && forest == []
    ensures Rep(n, t') && t'.id == t.id && WF(t', h, lo, hi, max)
  {
  }

  lemma {:induction false} RootShape(t: Tree, h: nat, lo: Bound, hi: Bound, max: nat)
    requires WF(t, h, lo, hi, max)
    ensures t.pivots == [] ==> h == 0 && Leaf(t, lo, hi)
    ensures t.pivots != [] ==> h > 0
  {
  }

  lemma {:induction false} UpsertPre(n: Store, t: Tree, e: Entry, h: nat, max: nat, next: nat)
    requires Rep(n, t) && Exact(n, t) && WF(t, h, Open, Open, max) && Ordered(All(t)) && Stamped(All(t), next)
    requires e.mkey.timestamp == next
    ensures FlushPre(n, t, [e], h, Open, Open, max)
  {
  }

  lemma {:induction false} RefinesStep(s: seq<Entry>, a: seq<Entry>, e: Entry, next: nat)
    requires Refines(s, a + [e]) && Stamped(a, next) && e.mkey.timestamp == next && next >= 1
    ensures Ordered(s) && Stamped(s, next + 1)
    ensures forall x :: Eval(None, s, x) == if x == e.mkey.key then Step(Eval(None, a, x), e.msg) else Eval(None, a, x)
  {
  }

  /** One message flushed into the root is one map operation on what the tree means. */
  lemma {:induction false} UpsertMeaning(n0: Store, t: Tree, e: Entry, h: nat, max: nat,
                                         n: Store, t': Tree, forest: seq<Pivot>, next: nat)
    requires Flushed(n0, t, [e], h, Open, Open, max, n, t', forest)
    requires Exact(n0, t) && Stamped(All(t), next) && e.mkey.timestamp == next && next >= 1
    ensures var s := if forest == [] then All(t') else AllF(forest);
            && Ordered(s) && Stamped(s, next + 1)
            && forall x :: Eval(None, s, x) ==
                 if x == e.mkey.key then Step(Eval(None, All(t), x), e.msg) else Eval(None, All(t), x)
    ensures forest == [] ==> Exact(n, t')
  {
    hide Refines, Eval, Ordered, Stamped, WF, WFF, Rep, RepF, All, AllF;
    RefinesStep(if forest == [] then All(t') else AllF(forest), All(t), e, next);
  }

  /** The new root over the pieces of the old one. */
  lemma {:induction false} Rooted(n0: Store, t: Tree, n1: Store, forest: seq<Pivot>, rid: NodeId, h: nat, max: nat)
    requires Rep(n0, t) && Exact(n0, t) && forest != [] && RepF(n1, forest) && EvolvesF(n0, t, n1, forest)
    requires t.id in n1 && rid !in n1 && WFF(forest, h, Open, Open, max)
    ensures var n2, t' := n1[rid := Node(Refs(forest), [])] - {t.id}, Tree(rid, forest, []);
            && Rep(n2, t') && Exact(n2, t') && WF(t', h + 1, Open, Open, max) && All(t') == AllF(forest)
  {
    var n2, t' := n1[rid := Node(Refs(forest), [])] - {t.id}, Tree(rid, forest, []);
    assert forall x: NodeId :: Count(t, x) == Held(n0, x);
    FreeSplit(n0, t, n1, forest);
    assert CountF(forest, rid) == 0 by {
      assert Held(n1, rid) + Count(t, rid) == Held(n0, rid) + CountF(forest, rid) + (if rid == t.id then 1 else 0);
    }
    RepFFrame(n1 - {t.id}, n2, forest);
    assert forest == [] + forest + [];
    RowRep(n2, t', [], forest, []);
    forall x: NodeId ensures Count(t', x) == Held(n2, x) {
      assert Held(n1, x) + Count(t, x) == Held(n0, x) + CountF(forest, x) + (if x == t.id then 1 else 0);
    }
  }

  lemma {:induction false} FlushRoot(n: Store, t: Tree, elts: seq<Entry>, h: nat, lo: Bound, hi: Bound, max: nat)
    requires FlushPre(n, t, elts, h, lo, hi, max)
    ensures t.id in n && n[t.id] == AsNode(t) && (h == 0 <==> t.pivots == [])
    ensures Sorted(elts) && Within(elts, lo, hi) && Ordered(All(t) + elts)
  {
  }

  /** A batch at or above the first pivot finds a pivot for its ends. */
  lemma {:induction false} InnerBatch(t: Tree, elts: seq<Entry>, h: nat, lo: Bound, hi: Bound, max: nat)
    requires h > 0 && WF(t, h, lo, hi, max)
    requires elts != [] && Sorted(elts) && Within(elts, lo, hi) && t.pivots[0].key <= elts[0].mkey.key
    ensures NodeSorted(AsNode(t))
    ensures elts[0].mkey.key <= elts[|elts| - 1].mkey.key
    ensures Within(elts, At(t.pivots[0].key), hi)
  {
  }

  lemma PreLeaf(n: Store, t: Tree, elts: seq<Entry>, lo: Bound, hi: Bound, max: nat)
    requires FlushPre(n, t, elts, 0, lo, hi, max)
    ensures Rep(n, t) && t.pivots == []
  {
  }

  /** A flush into a child leaves the parent's own node as it was. */
  lemma {:induction false} SameNode(n0: Store, t: Tree, i: nat, n: Store, c': Tree, forest: seq<Pivot>, y: seq<Entry>,
                                    h: nat, lo: Bound, hi: Bound, max: nat)
    requires h > 0 && Rep(n0, t) && Once(n0, t) && i < |t.pivots|
    requires Flushed(n0, t.pivots[i].child, y, h - 1, At(t.pivots[i].key), NextKey(t.pivots, i, hi), max, n, c', forest)
    ensures t.id in n && n[t.id] == AsNode(t)
    ensures t.id != t.pivots[i].child.id
    ensures forest == [] ==> c'.id == t.pivots[i].child.id
  {
    assert Count(t, t.id) <= Held(n0, t.id);
    CountFAt(t.pivots, i, t.id);
    assert Count(t.pivots[i].child, t.id) == 0;
  }
}
