/** Runs on which the tree does what it should not: runs that its own assertion stops, and
    two that make the root larger than a node may be. */
module Witnesses {
  import opened Base
  import opened Messages
  import opened Buffer
  import opened Trees
  import opened Stores
  import opened Splitting
  import opened Flushing
  import opened FlushStates
  import opened Reading
  import opened Outcomes
  import opened Descents
  import opened Betrees

  // ---------- Counting ----------

  /** The tree holds the keys from 0 up to `n`, and no other. */
  ghost predicate Holds(s: seq<Entry>, n: nat) {
    forall k :: Eval(None, s, k).Some? <==> 0 <= k < n
  }

  ghost function Range(n: nat): (r: set<Key>)
    ensures forall k :: k in r <==> 0 <= k < n
  {
    if n == 0 then {} else Range(n - 1) + {n - 1}
  }

  lemma {:induction false} RangeSize(n: nat)
    ensures |Range(n)| == n
  {
    if n > 0 {
      RangeSize(n - 1);
    }
  }

  ghost function KeysOf(s: seq<Entry>): set<Key> {
    set e | e in s :: e.mkey.key
  }

  lemma {:induction false} FewKeys(s: seq<Entry>)
    ensures |KeysOf(s)| <= |s|
  {
    if s == [] {
      assert KeysOf(s) == {};
    } else {
      var r, e := s[..|s| - 1], s[|s| - 1];
      FewKeys(r);
      assert s == r + [e];
      assert KeysOf(s) == KeysOf(r) + {e.mkey.key};
    }
  }

  /** It takes a message to hold a key. */
  lemma {:induction false} EnoughMessages(s: seq<Entry>, n: nat)
    requires Holds(s, n)
    ensures n <= |s|
  {
    forall k | 0 <= k < n ensures k in KeysOf(s) {
      if k !in KeysOf(s) {
        EvalAbsent(None, s, k);
      }
    }
    RangeSize(n);
    assert Range(n) <= KeysOf(s);
    SubsetSize(Range(n), KeysOf(s));
    FewKeys(s);
  }

  /** A leaf holds exactly one message for each of its keys. */
  lemma {:induction false} LeafCount(t: Tree, n: nat, lo: Bound, hi: Bound)
    requires Leaf(t, lo, hi) && Holds(t.elements, n)
    ensures |t.elements| == n
  {
    EnoughMessages(t.elements, n);
    var keys := seq(|t.elements|, i requires 0 <= i < |t.elements| => t.elements[i].mkey.key);
    forall i | 0 <= i < |keys| ensures 0 <= keys[i] < n {
      LeafHolds(t.elements, i);
    }
    var ks := set k | k in keys;
    ListLength(keys, ks);
    RangeSize(n);
    SubsetSize(ks, Range(n));
  }

  lemma {:induction false} LeafHolds(s: seq<Entry>, i: nat)
    requires Sorted(s) && Shape(s, true) && i < |s|
    ensures Eval(None, s, s[i].mkey.key).Some?
  {
    var r, e := s[..|s| - 1], s[|s| - 1];
    if i < |s| - 1 {
      assert r[i] == s[i];
      LeafHolds(r, i);
    }
  }

  lemma {:induction false} RowMessages(ps: seq<Pivot>, m: nat)
    requires forall i :: 0 <= i < |ps| ==> ps[i].child.pivots == [] && |ps[i].child.elements| <= m
    ensures |AllF(ps)| <= |ps| * m
    decreases |ps|
  {
    if ps != [] {
      RowMessages(ps[1..], m);
      assert All(ps[0].child) == AllF([]) + ps[0].child.elements == ps[0].child.elements;
      assert |ps| * m == |ps[1..]| * m + m;
    }
  }

  lemma {:induction false} RowOfLeaves(ps: seq<Pivot>, i: nat, lo: Bound, hi: Bound, max: nat)
    requires WFF(ps, 0, lo, hi, max) && i < |ps|
    ensures ps[i].child.pivots == [] && |ps[i].child.elements| < max
  {
    assert WF(ps[i].child, 0, At(ps[i].key), NextKey(ps, i, hi), max);
  }

  /** What a tree with nothing but leaves below its root and nothing in the root's buffer
      can hold. */
  lemma {:induction false} FlatTree(t: Tree, n: nat, max: nat)
    requires WF(t, 1, Open, Open, max) && t.elements == [] && Holds(All(t), n)
    ensures n <= |t.pivots| * (max - 1)
  {
    hide WF, WFF, Holds;
    WFNode(t, 1, Open, Open, max);
    forall i | 0 <= i < |t.pivots| ensures t.pivots[i].child.pivots == [] && |t.pivots[i].child.elements| <= max - 1 {
      RowOfLeaves(t.pivots, i, Open, Open, max);
    }
    RowMessages(t.pivots, max - 1);
    assert All(t) == AllF(t.pivots);
    EnoughMessages(All(t), n);
  }

  // ---------- Inserting 0, 1, 2, ... ----------

  /** The keys from 0 up to `n` were inserted. */
  ghost predicate Grown(bet: Betree, n: nat)
    reads bet
  {
    bet.Valid() && bet.nextTimestamp == n + 1 && Holds(All(bet.tree), n)
  }

  ghost function Inserted(k: Key, ts: Timestamp): Entry {
    Entry(MessageKey(k, ts), Message(INSERT, Default))
  }

  method InsertNext(bet: Betree, n: nat) returns (ok: bool)
    requires Grown(bet, n) && n + 1 < UINT64_MAX
    modifies bet
    ensures ok ==> Grown(bet, n + 1)
    ensures Upserted(old(bet.tree), old(bet.height), Inserted(n, n + 1), bet.Bounds(), bet.dirty, old(bet.log), bet.log,
                     ok, bet.tree, bet.height)
  {
    hide Upserted, Eval;
    ok := bet.Upsert(INSERT, n, Default);
    if ok {
      forall k ensures Eval(None, All(bet.tree), k).Some? <==> 0 <= k < n + 1 {
        assert k != n ==> bet.Meaning(k) == old(bet.Meaning(k));
      }
    }
  }

  method NewTree(max: nat, flush: nat, dirty: nat -> bool, inMemory: nat -> bool) returns (bet: Betree)
    requires max >= 3
    ensures fresh(bet) && Grown(bet, 0) && bet.height == 0 && bet.log == [] && bet.tree == Tree(1, [], [])
    ensures bet.Bounds() == Limits(max, flush) && bet.dirty == dirty
  {
    hide Eval;
    bet := new Betree(max, flush, dirty, inMemory);
    forall k ensures Eval(None, All(bet.tree), k) == None {
      assert bet.Meaning(k) == None;
    }
  }

  /** A root that is a leaf holds one message per key, fewer than the maximum. */
  lemma {:induction false} GrownLeaf(t: Tree, n: nat, max: nat)
    requires WF(t, 0, Open, Open, max) && Holds(All(t), n)
    ensures |t.elements| == n < max && t.pivots == []
  {
    assert All(t) == AllF([]) + t.elements == t.elements;
    LeafCount(t, n, Open, Open);
  }

  // ---------- Every answer yes: the root grows without bound ----------

  lemma {:induction false} YesStep(t: Tree, h: nat, e: Entry, l: Limits, dirty: nat -> bool, log0: seq<Question>,
                                   log: seq<Question>, ok: bool, t': Tree, h': nat)
    requires l.max >= 3 && Upserted(t, h, e, l, dirty, log0, log, ok, t', h') && Dry(t) && h <= 1
    requires forall j :: dirty(j)
    requires ok ==> WF(t', h', Open, Open, l.max)
    ensures ok && Dry(t') && h' <= 1
  {
    hide Dry, Pieces, FitsF, WFF, OneChild, Asked, Ends, HasRoom, Stops, Trail, Rested, Roomy;
    assert Falling(dirty, |log|) && AllYes(dirty, |log0|, |log|);
    assert h == 1 ==> HandedOn(t, [e], dirty, |log0|);
  }

  lemma {:induction false} MoreThan(a: nat, b: nat, m: nat)
    requires b * m < a * m
    ensures b < a
  {
    assert a <= b ==> a * m <= b * m;
  }

  /** With every answer yes, every batch goes down at once, and the pieces of split leaves
      pile up in a root that is never looked at again. */
  method RootGrows(max: nat, flush: nat, dirty: nat -> bool, inMemory: nat -> bool) returns (bet: Betree)
    requires max >= 3 && max * (max - 1) + 2 < UINT64_MAX && forall j :: dirty(j)
    ensures bet.Valid() && bet.Bounds() == Limits(max, flush) && bet.dirty == dirty
    ensures bet.root in bet.nodes && |bet.nodes[bet.root].pivots| > max
  {
    hide Upserted, Dry, Holds, WF, Rep, Exact, Ordered, Stamped;
    bet := NewTree(max, flush, dirty, inMemory);
    LeafDry(bet.tree);
    var n := 0;
    while n < max * (max - 1) + 1
      invariant n <= max * (max - 1) + 1 && fresh(bet) && Grown(bet, n) && bet.height <= 1 && Dry(bet.tree)
      invariant bet.Bounds() == Limits(max, flush) && bet.dirty == dirty
    {
      ghost var t, h, log := bet.tree, bet.height, bet.log;
      var ok := InsertNext(bet, n);
      YesStep(t, h, Inserted(n, n + 1), bet.Bounds(), dirty, log, bet.log, ok, bet.tree, bet.height);
      n := n + 1;
    }
    RepRoot(bet.nodes, bet.tree);
    assert max * 1 <= max * (max - 1);
    if bet.height == 0 {
      GrownLeaf(bet.tree, n, max);
    } else {
      RootShape(bet.tree, 1, Open, Open, max);
      DryRow(bet.tree);
      FlatTree(bet.tree, n, max);
      MoreThan(|bet.tree.pivots|, max, max - 1);
    }
  }

  lemma {:induction false} LeafDry(t: Tree)
    requires t.pivots == []
    ensures Dry(t)
  {
  }

  // ---------- No answer yes: the root is split into too many ----------

  /** For a maximum of 3 and no flush size: the root is a leaf, or has three leaves and an
      empty buffer. */
  ghost predicate Small(t: Tree, h: nat) {
    if h == 0 then t.pivots == [] else h == 1 && |t.pivots| == 3 && t.elements == []
  }

  lemma {:induction false} NoStep(t: Tree, h: nat, e: Entry, dirty: nat -> bool, log0: seq<Question>,
                                  log: seq<Question>, ok: bool, t': Tree, h': nat)
    requires Upserted(t, h, e, Limits(3, 0), dirty, log0, log, ok, t', h') && AllNo(dirty, |log0|, |log|)
    requires Small(t, h) && FitsF(t.pivots, 3) && WF(t, h, Open, Open, 3) && (h == 0 ==> |t.elements| < 3)
    requires ok ==> WF(t', h', Open, Open, 3)
    ensures ok && FitsF(t'.pivots, 3) && (Size(t') <= 3 ==> Small(t', h'))
  {
    hide FitsF, WFF, OneChild, Descent, Dry, NumNewLeaves, Roomy;
    assert ok;
    if h' > h {
      ManyPieces(t, e, t'.pivots);
    } else {
      RootShape(t', h', Open, Open, 3);
    }
  }

  lemma {:induction false} ManyPieces(t: Tree, e: Entry, forest: seq<Pivot>)
    requires Pieces(t, [e], forest, Limits(3, 0)) && (t.pivots == [] ==> |t.elements| < 3)
    ensures if t.pivots == [] then |forest| == 3 else |forest| > 3
  {
    assert PieceSizes(forest, 1);
    SizesAddUp(forest, 1);
  }

  /** With no answer yes, a maximum of 3 and no flush size, at most seven insertions make a
      root of more than three pivots. */
  method RootTooLarge(dirty: nat -> bool, inMemory: nat -> bool) returns (bet: Betree, n: nat)
    requires forall j :: !dirty(j)
    ensures bet.Valid() && bet.Bounds() == Limits(3, 0) && bet.dirty == dirty && n <= 7
    ensures bet.root in bet.nodes && |bet.nodes[bet.root].pivots| + |bet.nodes[bet.root].elements| > 3
  {
    hide Upserted, Dry, Holds, WF, Rep, Exact, Ordered, Stamped, FitsF;
    bet := NewTree(3, 0, dirty, inMemory);
    n := 0;
    NoRow(3);
    RepRoot(bet.nodes, bet.tree);
    while |bet.nodes[bet.root].pivots| + |bet.nodes[bet.root].elements| <= 3
      invariant fresh(bet) && Grown(bet, n) && n <= 7 && bet.Bounds() == Limits(3, 0) && bet.dirty == dirty
      invariant bet.root in bet.nodes && bet.nodes[bet.root] == AsNode(bet.tree)
      invariant FitsF(bet.tree.pivots, 3) && (Size(bet.tree) <= 3 ==> Small(bet.tree, bet.height))
      decreases 7 - n
    {
      SmallHolds(bet.tree, bet.height, n);
      ghost var t, h, log := bet.tree, bet.height, bet.log;
      var ok := InsertNext(bet, n);
      NoStep(t, h, Inserted(n, n + 1), dirty, log, bet.log, ok, bet.tree, bet.height);
      RepRoot(bet.nodes, bet.tree);
      n := n + 1;
    }
  }

  lemma {:induction false} NoRow(max: nat)
    ensures FitsF([], max)
  {
  }

  lemma {:induction false} SmallHolds(t: Tree, h: nat, n: nat)
    requires Small(t, h) && WF(t, h, Open, Open, 3) && Holds(All(t), n)
    ensures n <= 6 && (h == 0 ==> |t.elements| < 3)
  {
    hide WF, Holds;
    if h == 0 {
      GrownLeaf(t, n, 3);
    } else {
      FlatTree(t, n, 3);
    }
  }

  // ---------- A no and a later yes: the assertion stops a run ----------

  lemma {:induction false} FirstPieces(max: nat)
    requires max >= 5
    ensures NumNewLeaves(max, max) + 1 < max
  {
    var q := 10 * max / 24;
    var n := NumNewLeaves(max, max);
    assert n * q <= max by {
      DivBounds(max, q);
    }
    assert q >= 2;
    hide NumNewLeaves;
    HalfAtMost(n, q, max);
  }

  lemma {:induction false} HalfAtMost(n: nat, q: nat, max: nat)
    requires n * q <= max && q >= 2
    ensures 2 * n <= max
  {
    MulMono(2, q, n);
  }

  /** While keys are inserted, a root that is a leaf stays one, up to the maximum. */
  lemma {:induction false} LeafPhase(t: Tree, e: Entry, l: Limits, dirty: nat -> bool, log0: seq<Question>,
                                     log: seq<Question>, ok: bool, t': Tree, h': nat, n: nat)
    requires l.max >= 5 && Upserted(t, 0, e, l, dirty, log0, log, ok, t', h') && n < l.max
    requires WF(t, 0, Open, Open, l.max) && Holds(All(t), n)
    requires ok ==> WF(t', h', Open, Open, l.max) && Holds(All(t'), n + 1)
    ensures ok && log == log0
    ensures if n + 1 < l.max then h' == 0 else h' == 1 && |t'.pivots| + 1 < l.max && t'.elements == []
  {
    hide WF, WFF, Holds, Dry, Fits, FitsF, Descent, OneChild, SplitBound, NumNewLeaves, Roomy;
    GrownLeaf(t, n, l.max);
    if h' == 0 {
      GrownLeaf(t', n + 1, l.max);
    } else {
      assert TotalSize(t'.pivots) == l.max;
      FirstPieces(l.max);
    }
  }

  lemma {:induction false} LeafHasNoQuestion(t: Tree, elts: seq<Entry>, dirty: nat -> bool, j: nat)
    requires t.pivots == []
    ensures Trail(t, elts, dirty, j) == []
  {
  }

  /** A key that a leaf holds already takes no more room. */
  lemma {:induction false} SameRoom(t: Tree, e: Entry, lo: Bound, hi: Bound)
    requires Leaf(t, lo, hi) && e.msg.opcode == INSERT && Eval(None, All(t), e.mkey.key).Some?
    ensures |ApplyAll(t.elements, true, [e])| <= |t.elements|
  {
    hide KeyLow, KeyHigh, Eval, Sorted, Shape, LowerBound;
    var s := t.elements;
    LeafValue(t, lo, hi, e.mkey.key);
    LeafSpan(s, e.mkey.key);
    assert [e][..0] == [];
    assert ApplyAll(s, true, []) == s;
  }

  /** The child a message goes to holds its key if the tree does. */
  lemma {:induction false} TargetHolds(t: Tree, e: Entry, max: nat)
    requires WF(t, 1, Open, Open, max) && t.elements == [] && Eval(None, All(t), e.mkey.key).Some?
    ensures LoweredFor(t, [e]) == t && OneChild(AsNode(t), [e])
    ensures var c := t.pivots[Target(t, [e])].child;
            Leaf(c, Open, Open) && |c.elements| < max && Eval(None, All(c), e.mkey.key).Some?
  {
    hide WF, WFF, Eval, GetPivot, OneChild, RefsSorted;
    WFNode(t, 1, Open, Open, max);
    SingleMessage(t, e, 1, Open, Open, max);
    assert All(t) == AllF(t.pivots);
    var k := e.mkey.key;
    if k < t.pivots[0].key {
      ForestNothing(t.pivots, 0, Open, Open, max, k);
    }
    assert LoweredFor(t, [e]) == t;
    var i := Target(t, [e]);
    TargetInside(t, e);
    ForestValue(t.pivots, i, 0, Open, Open, max, k);
    RowLeaf(t.pivots, i, Open, Open, max);
  }

  lemma {:induction false} TargetInside(t: Tree, e: Entry)
    requires LoweredFor(t, [e]) == t && OneChild(AsNode(t), [e]) && RefsSorted(Refs(t.pivots))
    ensures var i := Target(t, [e]); Inside(e.mkey.key, At(t.pivots[i].key), NextKey(t.pivots, i, Open))
  {
    hide GetPivot, LoweredFor, RefsSorted;
    var i := Target(t, [e]);
    assert Refs(t.pivots)[i].key == t.pivots[i].key;
    assert i + 1 < |t.pivots| ==> Refs(t.pivots)[i + 1].key == t.pivots[i + 1].key;
  }

  lemma {:induction false} RowLeaf(ps: seq<Pivot>, i: nat, lo: Bound, hi: Bound, max: nat)
    requires WFF(ps, 0, lo, hi, max) && i < |ps|
    ensures Leaf(ps[i].child, Open, Open) && |ps[i].child.elements| < max
  {
    assert WF(ps[i].child, 0, At(ps[i].key), NextKey(ps, i, hi), max);
  }

  /** A yes while nothing is buffered: the message replaces the one in its leaf. */
  lemma {:induction false} YesAgain(t: Tree, e: Entry, l: Limits, dirty: nat -> bool, log0: seq<Question>,
                                    log: seq<Question>, ok: bool, t': Tree, h': nat)
    requires l.max >= 3 && Upserted(t, 1, e, l, dirty, log0, log, ok, t', h') && dirty(|log0|)
    requires WF(t, 1, Open, Open, l.max) && t.elements == [] && Eval(None, All(t), e.mkey.key).Some?
    requires e.msg.opcode == INSERT && (ok ==> WF(t', h', Open, Open, l.max))
    ensures ok && h' == 1 && |log| == |log0| + 1
    ensures t'.elements == [] && |t'.pivots| == |t.pivots|
  {
    hide WF, WFF, Dry, Fits, FitsF, Pieces, Asked, Roomy, OneChild, Trips, Eval, ApplyAll, Leaf, LoweredFor;
    TargetHolds(t, e, l.max);
    DryNoTrip(t, [e]);
    var i := Target(t, [e]);
    var c := t.pivots[i].child;
    SameRoom(c, e, Open, Open);
    assert c.pivots == [] by {
      LeafPivots(c);
    }
    assert HasRoom(c, [e], l.max, dirty, |log0| + 1);
    assert HasRoom(t, [e], l.max, dirty, |log0|);
    LeafHasNoQuestion(c, [e], dirty, |log0| + 1);
    assert Ends(t, [e], l.max, dirty, |log0|);
    RootShape(t', h', Open, Open, l.max);
    RegrownSize(t, i, Rested(c, [e], dirty, |log0| + 1), [], t.elements);
  }

  lemma {:induction false} LeafPivots(t: Tree)
    requires Leaf(t, Open, Open)
    ensures t.pivots == []
  {
  }

  /** A no, with room at the root: the message is buffered there. */
  lemma {:induction false} NoBuffers(t: Tree, e: Entry, l: Limits, dirty: nat -> bool, log0: seq<Question>,
                                     log: seq<Question>, ok: bool, t': Tree, h': nat)
    requires l.max >= 3 && Upserted(t, 1, e, l, dirty, log0, log, ok, t', h') && !dirty(|log0|)
    requires WF(t, 1, Open, Open, l.max) && (ok ==> WF(t', h', Open, Open, l.max))
    requires |t.pivots| + 1 < l.max && ApplyAll(t.elements, false, [e]) == [e]
    ensures ok && h' == 1 && |log| == |log0| + 1
    ensures t'.elements == [e] && |t'.pivots| == |t.pivots| && t'.pivots != [] && t'.pivots[0].key <= e.mkey.key
  {
    hide WF, WFF, Dry, Fits, FitsF, Pieces, Asked, Roomy, OneChild, Trips, ApplyAll;
    RootShape(t, 1, Open, Open, l.max);
    assert HasRoom(t, [e], l.max, dirty, |log0|) && Ends(t, [e], l.max, dirty, |log0|);
    RootShape(t', h', Open, Open, l.max);
  }

  /** A message in an empty buffer, or over an older one for the same key. */
  lemma {:induction false} OneBuffered(e: Entry)
    ensures ApplyAll([], false, [e]) == [e]
  {
    assert [e][..0] == [];
    assert EraseKey([], e.mkey.key) == [] + [] && [] + [e] + [] == [e];
    PutBetween([], [], e);
  }

  lemma {:induction false} OneReplaced(e0: Entry, e: Entry)
    requires e0.mkey.key == e.mkey.key && e.msg.opcode == INSERT
    ensures ApplyAll([e0], false, [e]) == [e]
  {
    assert [e][..0] == [];
    KeySpanOf([], [e0], [], e.mkey.key);
    assert [] + [e0] + [] == [e0];
    assert EraseKey([e0], e.mkey.key) == [] + [];
    PutBetween([], [], e);
    assert [] + [e] + [] == [e];
  }

  /** A yes once a message for the same child is buffered. */
  lemma {:induction false} YesStops(t: Tree, e0: Entry, e: Entry, l: Limits, dirty: nat -> bool, log0: seq<Question>,
                                    log: seq<Question>, ok: bool, t': Tree, h': nat)
    requires l.max >= 3 && Upserted(t, 1, e, l, dirty, log0, log, ok, t', h') && dirty(|log0|)
    requires WF(t, 1, Open, Open, l.max) && t.elements == [e0] && t.pivots[0].key <= e0.mkey.key
    requires e.mkey.key == e0.mkey.key
    ensures !ok
  {
    hide WF, WFF, Dry, Fits, Pieces, Asked, GetPivot, RefsSorted, Sorted, Shape, Within, ElementBegin, Roomy;
    assert LoweredFor(t, [e]) == t;
    WFNode(t, 1, Open, Open, l.max);
    var i := Target(t, [e]);
    TargetInside(t, e);
    ChildSpan(t, i, 1, Open, Open, l.max);
    assert Inside(t.elements[0].mkey.key, At(t.pivots[i].key), NextKey(t.pivots, i, Open));
    assert Batch(AsNode(t), i) != 0;
    assert Stops(t, [e], dirty, |log0|);
  }

  /** Key 0, once more. */
  method InsertAgain(bet: Betree, ghost n: nat) returns (ok: bool)
    requires bet.Valid() && bet.nextTimestamp < UINT64_MAX && Holds(All(bet.tree), n) && n > 0
    modifies bet
    ensures ok ==> bet.Valid() && Holds(All(bet.tree), n)
    ensures bet.nextTimestamp == old(bet.nextTimestamp) + 1
    ensures Upserted(old(bet.tree), old(bet.height), Inserted(0, old(bet.nextTimestamp)), bet.Bounds(), bet.dirty,
                     old(bet.log), bet.log, ok, bet.tree, bet.height)
  {
    hide Upserted, Eval;
    ok := bet.Upsert(INSERT, 0, Default);
    if ok {
      forall k ensures Eval(None, All(bet.tree), k).Some? <==> 0 <= k < n {
        assert k != 0 ==> bet.Meaning(k) == old(bet.Meaning(k));
      }
    }
  }

  /** A root over leaves that has room; `waiting` says whether it buffers one INSERT of key 0. */
  ghost predicate Flat(t: Tree, max: nat, waiting: bool, ts: nat) {
    && |t.pivots| + 1 < max
    && if waiting then ts <= UINT64_MAX && t.elements == [Inserted(0, ts)] && t.pivots != [] && t.pivots[0].key <= 0
       else t.elements == []
  }

  /** One more insertion of key 0. */
  lemma {:induction false} AgainStep(t: Tree, l: Limits, dirty: nat -> bool, log0: seq<Question>, log: seq<Question>,
                                     ok: bool, t': Tree, h': nat, waiting: bool, ts: Timestamp, n: nat)
    requires l.max >= 3 && ts > 0 && Upserted(t, 1, Inserted(0, ts), l, dirty, log0, log, ok, t', h')
    requires WF(t, 1, Open, Open, l.max) && Holds(All(t), n) && n > 0 && Flat(t, l.max, waiting, ts - 1)
    requires ok ==> WF(t', h', Open, Open, l.max)
    ensures ok <==> !(waiting && dirty(|log0|))
    ensures ok ==> h' == 1 && |log| == |log0| + 1 && Flat(t', l.max, waiting || !dirty(|log0|), ts)
  {
    hide Upserted, WF, Eval, ApplyAll;
    var e := Inserted(0, ts);
    if dirty(|log0|) {
      if waiting {
        YesStops(t, Inserted(0, ts - 1), e, l, dirty, log0, log, ok, t', h');
      } else {
        YesAgain(t, e, l, dirty, log0, log, ok, t', h');
      }
    } else {
      if waiting {
        OneReplaced(Inserted(0, ts - 1), e);
      } else {
        OneBuffered(e);
      }
      NoBuffers(t, e, l, dirty, log0, log, ok, t', h');
    }
  }

  /** The keys of the run: 0 to max - 1, and then 0 again and again. */
  function KeyAt(max: nat, n: nat): Key {
    if n < max then n else 0
  }

  /** Answer `j` is the first yes after a no. */
  ghost predicate FirstRise(dirty: nat -> bool, j: nat) {
    Falling(dirty, j) && !AllYes(dirty, 0, j) && dirty(j)
  }

  lemma {:induction false} RiseStep(dirty: nat -> bool, j: nat)
    requires Falling(dirty, j)
    ensures if !AllYes(dirty, 0, j) && dirty(j) then FirstRise(dirty, j)
            else Falling(dirty, j + 1) && (AllYes(dirty, 0, j + 1) <==> AllYes(dirty, 0, j) && dirty(j))
  {
  }

  lemma {:induction false} NothingRises(dirty: nat -> bool)
    ensures Falling(dirty, 0) && AllYes(dirty, 0, 0)
  {
  }

  lemma {:induction false} RiseBefore(dirty: nat -> bool, j: nat, no: nat, yes: nat)
    requires Falling(dirty, j) && no < yes && !dirty(no) && dirty(yes)
    ensures j <= yes
  {
  }

  /** If a yes comes after a no, inserting 0 to max - 1 and then 0 again and again is stopped:
      the first no leaves key 0 in the buffer of the root, and the first yes after it finds
      it there, which is the earliest question that can stop any run.  For every maximum from
      5 up and every flush size. */
  method StoppedRun(max: nat, flush: nat, dirty: nat -> bool, inMemory: nat -> bool, ghost no: nat, ghost yes: nat)
    returns (keys: seq<Key>, oks: seq<bool>)
    requires max >= 5 && no < yes && !dirty(no) && dirty(yes) && max + yes + 2 < UINT64_MAX
    ensures |oks| == |keys| > max && forall n :: 0 <= n < |keys| ==> keys[n] == KeyAt(max, n)
    ensures forall n :: 0 <= n < |oks| ==> (oks[n] <==> n < |oks| - 1)
    ensures FirstRise(dirty, |oks| - max - 1)
  {
    hide Upserted, Holds, WF, Rep, Exact, Ordered, Stamped, Eval, FirstRise, Falling, AllYes;
    var bet := NewTree(max, flush, dirty, inMemory);
    keys, oks := [], [];
    var ok := true;
    var n := 0;
    while n < max
      invariant n <= max && fresh(bet) && Grown(bet, n) && bet.Bounds() == Limits(max, flush) && bet.dirty == dirty
      invariant |oks| == |keys| == n && (forall i :: 0 <= i < n ==> oks[i] && keys[i] == KeyAt(max, i))
      invariant ok && bet.log == []
      invariant if n < max then bet.height == 0 else bet.height == 1 && Flat(bet.tree, max, false, 0)
    {
      ghost var t, log := bet.tree, bet.log;
      ok := InsertNext(bet, n);
      LeafPhase(t, Inserted(n, n + 1), bet.Bounds(), dirty, log, bet.log, ok, bet.tree, bet.height, n);
      keys, oks, n := keys + [n], oks + [ok], n + 1;
    }
    ghost var waiting := false;
    NothingRises(dirty);
    RiseBefore(dirty, 0, no, yes);
    while ok
      invariant fresh(bet) && bet.Bounds() == Limits(max, flush) && bet.dirty == dirty && |oks| == |keys| >= max
      invariant forall i :: 0 <= i < |keys| ==> keys[i] == KeyAt(max, i)
      invariant forall i :: 0 <= i < |oks| - 1 ==> oks[i]
      invariant oks[|oks| - 1] == ok && (if ok then |oks| == max + |bet.log| else |oks| > max)
      invariant ok ==> bet.Valid() && Holds(All(bet.tree), max) && bet.height == 1
      invariant ok ==> bet.nextTimestamp == max + |bet.log| + 1
      invariant ok ==> Flat(bet.tree, max, waiting, bet.nextTimestamp - 1)
      invariant ok ==> |bet.log| <= yes && (waiting <==> !AllYes(dirty, 0, |bet.log|)) && Falling(dirty, |bet.log|)
      invariant !ok ==> FirstRise(dirty, |oks| - max - 1)
      decreases yes + max + 1 - |oks|
    {
      ghost var t, log, ts := bet.tree, bet.log, bet.nextTimestamp;
      ok := InsertAgain(bet, max);
      AgainStep(t, bet.Bounds(), dirty, log, bet.log, ok, bet.tree, bet.height, waiting, ts, max);
      RiseStep(dirty, |log|);
      if ok {
        RiseBefore(dirty, |bet.log|, no, yes);
      }
      waiting := waiting || !dirty(|log|);
      keys, oks := keys + [0], oks + [ok];
    }
  }

  // ---------- A batch for several children, one of them dirty ----------

  lemma {:induction false} OrderedOn(s': seq<Entry>, s: seq<Entry>, b: seq<Entry>)
    requires Refines(s', s) && Ordered(s + b)
    ensures Ordered(s' + b)
  {
    hide Eval;
    OrderedConcat(s, b);
    OrderedConcat(s', b);
  }

  lemma {:induction false} PivotOf(ps: seq<Ref>, i: nat, k: Key)
    requires RefsSorted(ps) && i < |ps| && ps[i].key <= k && (i + 1 < |ps| ==> k < ps[i + 1].key)
    ensures GetPivot(ps, k) == Some(i)
  {
    hide GetPivot;
    var r := GetPivot(ps, k);
    assert ps[0].key <= ps[i].key;
    assert r.Some?;
  }

  /** A batch within the range of one child is for that child. */
  lemma {:induction false} ForOne(t: Tree, elts: seq<Entry>, i: nat, hi: Bound)
    requires elts != [] && i < |t.pivots| && RefsSorted(Refs(t.pivots))
    requires Within(elts, At(t.pivots[i].key), NextKey(t.pivots, i, hi))
    ensures LoweredFor(t, elts) == t && OneChild(AsNode(t), elts) && Target(t, elts) == i
  {
    hide GetPivot;
    WithinAt(elts, 0, At(t.pivots[i].key), NextKey(t.pivots, i, hi));
    WithinAt(elts, |elts| - 1, At(t.pivots[i].key), NextKey(t.pivots, i, hi));
    var ps := Refs(t.pivots);
    assert ps[i].key == t.pivots[i].key && (i + 1 < |ps| ==> ps[i + 1].key == t.pivots[i + 1].key);
    PivotOf(ps, i, elts[0].mkey.key);
    PivotOf(ps, i, elts[|elts| - 1].mkey.key);
    assert ps[0].key <= ps[i].key && ps[0].key == t.pivots[0].key;
  }

  /** The batch `both` is for several children of the node of `t` and there is room for it;
      the later batch `one` is for child `i` alone, and so is key `k` of `both`. */
  ghost predicate Crossing(n: Store, t: Tree, both: seq<Entry>, one: seq<Entry>, i: nat, k: Key, h: nat, lo: Bound,
                           hi: Bound, max: nat)
  {
    var t1 := LoweredFor(t, both);
    && h > 0 && FlushPre(n, t, both, h, lo, hi, max) && both != [] && !OneChild(AsNode(t1), both)
    && |t.pivots| + |ApplyAll(t.elements, false, both)| < max
    && one != [] && Sorted(one) && Within(one, lo, hi) && Ordered(All(t) + both + one)
    && i < |t1.pivots| && Within(one, At(t1.pivots[i].key), NextKey(t1.pivots, i, hi))
    && !Absent(both, k) && Inside(k, At(t1.pivots[i].key), NextKey(t1.pivots, i, hi))
  }

  /** What the first batch leaves. */
  ghost function Crossed(t: Tree, both: seq<Entry>): Tree {
    LoweredFor(t, both).(elements := ApplyAll(t.elements, false, both))
  }

  lemma {:induction false} FirstBuffered(n: Store, t: Tree, both: seq<Entry>, one: seq<Entry>, i: nat, k: Key, h: nat,
                                         lo: Bound, hi: Bound, l: Limits, dirty: nat -> bool, log0: seq<Question>,
                                         log: seq<Question>, ok: bool, t': Tree, forest: seq<Pivot>)
    requires Crossing(n, t, both, one, i, k, h, lo, hi, l.max)
    requires Descent(t, both, l, dirty, log0, log, ok, t', forest)
    ensures ok && forest == [] && t' == Crossed(t, both) && log == log0
  {
    hide Rep, Once, WFF, Sorted, Within, Ordered, OneChild, ApplyAll, LoweredFor, Absent;
    RootShape(t, h, lo, hi, l.max);
    assert HasRoom(t, both, l.max, dirty, |log0|) && Ends(t, both, l.max, dirty, |log0|);
  }

  lemma {:induction false} LoweredFine(n: Store, t: Tree, elts: seq<Entry>, h: nat, lo: Bound, hi: Bound, max: nat)
    requires h > 0 && FlushPre(n, t, elts, h, lo, hi, max) && elts != []
    ensures var t1 := LoweredFor(t, elts);
            WF(t1, h, lo, hi, max) && All(t1) == All(t) && Within(elts, At(t1.pivots[0].key), hi)
  {
    hide Rep, Once, WF, WFF, Ordered, Within, Sorted, All;
    RootShape(t, h, lo, hi, max);
    if elts[0].mkey.key < t.pivots[0].key {
      WithinAt(elts, 0, lo, hi);
      LowerStep(t, elts[0].mkey.key, h, lo, hi, max);
    }
    InnerBatch(LoweredFor(t, elts), elts, h, lo, hi, max);
  }

  /** And the second batch finds it. */
  lemma {:induction false} SecondTrips(n: Store, t: Tree, both: seq<Entry>, one: seq<Entry>, i: nat, k: Key, h: nat,
                                       lo: Bound, hi: Bound, max: nat)
    requires Crossing(n, t, both, one, i, k, h, lo, hi, max)
    ensures var t2 := Crossed(t, both);
            LoweredFor(t2, one) == t2 && OneChild(AsNode(t2), one) && Trips(AsNode(t2), one)
  {
    hide Rep, Once, WF, WFF, Sorted, Within, Ordered, OneChild, ApplyAll, LoweredFor, Absent, Batch, RefsSorted,
         GetPivot;
    LoweredFine(n, t, both, h, lo, hi, max);
    var t1, t2 := LoweredFor(t, both), Crossed(t, both);
    OrderedPrefix(All(t) + both, one);
    LoweredElements(t, both);
    BufferedWaits(t1, both, i, k, h, lo, hi, max);
    WFNode(t1, h, lo, hi, max);
    ForOne(t2, one, i, hi);
    assert Batch(AsNode(t2), i) > 0;
    TripsAt(t2, one);
  }

  lemma {:induction false} OrderedPrefix(a: seq<Entry>, b: seq<Entry>)
    requires Ordered(a + b)
    ensures Ordered(a)
  {
    OrderedConcat(a, b);
  }

  lemma {:induction false} LoweredElements(t: Tree, elts: seq<Entry>)
    ensures LoweredFor(t, elts).elements == t.elements
  {
  }

  lemma {:induction false} TripsAt(t: Tree, elts: seq<Entry>)
    requires LoweredFor(t, elts) == t && OneChild(AsNode(t), elts) && Batch(AsNode(t), Target(t, elts)) > 0
    ensures Trips(Found(t, elts), elts)
  {
  }

  /** At every node with room: flushing a batch for several children, and then a batch for
      one of these that is dirty, fails the second time.  This is how a dirty child comes to
      have messages waiting: the first batch is buffered without asking who is dirty. */
  method BufferedThenDirty(bet: Betree, id: NodeId, both: seq<Entry>, one: seq<Entry>, ghost t: Tree, ghost i: nat,
                           ghost k: Key, ghost h: nat, ghost lo: Bound, ghost hi: Bound)
    returns (first: bool, second: bool)
    requires bet.maxNodeSize >= 3 && IdsBelow(bet.nodes, bet.nextId) && t.id == id && bet.dirty(|bet.log|)
    requires Crossing(bet.nodes, t, both, one, i, k, h, lo, hi, bet.maxNodeSize)
    modifies bet
    ensures first && !second && bet.log == old(bet.log) + [Question(id, AsNode(Crossed(t, both)), one)]
  {
    hide Crossing, Crossed, Flushed, FlushPre, Descent, Outcome, Stuck, Stops, Rep, Once, WF, Ordered;
    ghost var n0, log0 := bet.nodes, bet.log;
    CrossingPre(n0, t, both, one, i, k, h, lo, hi, bet.maxNodeSize);
    var result;
    ghost var t', forest;
    first, result, t', forest := bet.Flush(id, both, t, h, lo, hi);
    FirstBuffered(n0, t, both, one, i, k, h, lo, hi, bet.Bounds(), bet.dirty, log0, bet.log, first, t', forest);
    SecondPre(n0, t, both, one, i, k, h, lo, hi, bet.maxNodeSize, bet.nodes, t');
    ghost var t'', forest';
    second, result, t'', forest' := bet.Flush(id, one, t', h, lo, hi);
    SecondStopped(n0, t, both, one, i, k, h, lo, hi, bet.Bounds(), bet.dirty, log0, bet.log, second, t'', forest');
  }

  lemma {:induction false} CrossingPre(n: Store, t: Tree, both: seq<Entry>, one: seq<Entry>, i: nat, k: Key, h: nat,
                                       lo: Bound, hi: Bound, max: nat)
    requires Crossing(n, t, both, one, i, k, h, lo, hi, max)
    ensures FlushPre(n, t, both, h, lo, hi, max) && Crossed(t, both).id == t.id
  {
  }

  lemma {:induction false} SecondPre(n0: Store, t: Tree, both: seq<Entry>, one: seq<Entry>, i: nat, k: Key, h: nat,
                                     lo: Bound, hi: Bound, max: nat, n: Store, t': Tree)
    requires Crossing(n0, t, both, one, i, k, h, lo, hi, max)
    requires Flushed(n0, t, both, h, lo, hi, max, n, t', [])
    ensures FlushPre(n, t', one, h, lo, hi, max) && t'.id == t.id
  {
    hide Rep, Once, WF, Sorted, Within, Ordered, OneChild, ApplyAll, LoweredFor, Absent, Refines, Evolves;
    OrderedOn(All(t'), All(t) + both, one);
    OnceKept(n0, t, n, t');
  }

  lemma {:induction false} SecondStopped(n: Store, t: Tree, both: seq<Entry>, one: seq<Entry>, i: nat, k: Key, h: nat,
                                         lo: Bound, hi: Bound, l: Limits, dirty: nat -> bool, log0: seq<Question>,
                                         log: seq<Question>, ok: bool, t': Tree, forest: seq<Pivot>)
    requires Crossing(n, t, both, one, i, k, h, lo, hi, l.max) && dirty(|log0|)
    requires Descent(Crossed(t, both), one, l, dirty, log0, log, ok, t', forest)
    ensures !ok && log == log0 + [Question(t.id, AsNode(Crossed(t, both)), one)]
  {
    hide Crossing, Crossed, OneChild, Trips, LoweredFor;
    CrossingPre(n, t, both, one, i, k, h, lo, hi, l.max);
    SecondTrips(n, t, both, one, i, k, h, lo, hi, l.max);
  }
}
