/** What holds of every node of a tree in every reachable state, said of the node table
    itself: a node is what a path of child numbers from the root leads to. */
module Invariants {
  import opened Base
  import opened Messages
  import opened Buffer
  import opened Trees
  import opened Stores
  import opened Splitting
  import opened FlushStates
  import opened Outcomes
  import opened Betrees

  /** The node a path of child numbers leads to. */
  ghost function Walk(nodes: Store, id: NodeId, path: seq<nat>): Option<NodeId>
    decreases |path|
  {
    if path == [] then Some(id)
    else if id in nodes && path[0] < |nodes[id].pivots| then Walk(nodes, nodes[id].pivots[path[0]].child, path[1..])
    else None
  }

  ghost function SubTree(t: Tree, path: seq<nat>): Option<Tree>
    decreases |path|
  {
    if path == [] then Some(t)
    else if path[0] < |t.pivots| then SubTree(t.pivots[path[0]].child, path[1..])
    else None
  }

  lemma {:induction false} WalkTree(n: Store, t: Tree, path: seq<nat>)
    requires Rep(n, t)
    ensures var u := SubTree(t, path);
            Walk(n, t.id, path) == (if u.Some? then Some(u.value.id) else None) && (u.Some? ==> Rep(n, u.value))
    decreases |path|
  {
    if path != [] {
      assert |n[t.id].pivots| == |t.pivots|;
      if path[0] < |t.pivots| {
        assert n[t.id].pivots[path[0]].child == t.pivots[path[0]].child.id;
        WalkTree(n, t.pivots[path[0]].child, path[1..]);
      }
    }
  }

  lemma {:induction false} ChildWF(t: Tree, i: nat, h: nat, lo: Bound, hi: Bound, max: nat)
    requires WF(t, h, lo, hi, max) && i < |t.pivots|
    ensures h > 0 && WF(t.pivots[i].child, h - 1, At(t.pivots[i].key), NextKey(t.pivots, i, hi), max)
  {
  }

  lemma {:induction false} SubTreeWF(t: Tree, h: nat, lo: Bound, hi: Bound, max: nat, path: seq<nat>)
    returns (lo': Bound, hi': Bound)
    requires WF(t, h, lo, hi, max) && SubTree(t, path).Some?
    ensures |path| <= h && WF(SubTree(t, path).value, h - |path|, lo', hi', max)
    decreases |path|
  {
    hide WF, WFF;
    lo', hi' := lo, hi;
    if path != [] {
      var i := path[0];
      ChildWF(t, i, h, lo, hi, max);
      lo', hi' := SubTreeWF(t.pivots[i].child, h - 1, At(t.pivots[i].key), NextKey(t.pivots, i, hi), max, path[1..]);
    }
  }

  /** The messages of a subtree are a block of those of the tree. */
  lemma {:induction false} SubTreeBlock(t: Tree, path: seq<nat>) returns (a: seq<Entry>, b: seq<Entry>)
    requires SubTree(t, path).Some?
    ensures All(t) == a + All(SubTree(t, path).value) + b
    decreases |path|
  {
    if path == [] {
      a, b := [], [];
    } else {
      var i := path[0];
      var x, y := SubTreeBlock(t.pivots[i].child, path[1..]);
      var ps := t.pivots;
      assert ps == ps[..i] + [ps[i]] + ps[i + 1..];
      AllFConcat(ps[..i] + [ps[i]], ps[i + 1..]);
      AllFConcat(ps[..i], [ps[i]]);
      AllFOne(ps[i]);
      a, b := AllF(ps[..i]) + x, y + AllF(ps[i + 1..]) + t.elements;
    }
  }

  lemma {:induction false} BlockOrdered(a: seq<Entry>, s: seq<Entry>, b: seq<Entry>)
    requires Ordered(a + s + b)
    ensures Ordered(s) && MKeys(s) <= MKeys(a + s + b)
  {
    OrderedConcat(a + s, b);
    OrderedConcat(a, s);
    MKeysConcat(a + s, b);
    MKeysConcat(a, s);
  }

  /** All leaves are equally deep, hold fewer messages than the maximum size, at most one
      per key and all of them INSERTs; every other node has a child, holds no message
      below its first pivot, and of a key an INSERT alone, or a DELETE and then UPDATEs,
      or UPDATEs. Nodes exist where the pivots point. */
  lemma {:induction false} EveryNode(bet: Betree, path: seq<nat>)
    requires bet.Valid() && Walk(bet.nodes, bet.root, path).Some?
    ensures var id := Walk(bet.nodes, bet.root, path).value;
            && id in bet.nodes && |path| <= bet.height
            && var n := bet.nodes[id];
            && RefsSorted(n.pivots) && Sorted(n.elements) && Shape(n.elements, n.pivots == [])
            && (n.pivots == [] <==> |path| == bet.height)
            && (n.pivots == [] ==> |n.elements| < bet.maxNodeSize)
            && (n.pivots != [] ==> forall i :: 0 <= i < |n.elements| ==> n.pivots[0].key <= n.elements[i].mkey.key)
  {
    hide Rep, WF, WFF, Sorted, Shape, Exact, Ordered, Stamped, RefsSorted;
    WalkTree(bet.nodes, bet.tree, path);
    var u := SubTree(bet.tree, path).value;
    var lo, hi := SubTreeWF(bet.tree, bet.height, Open, Open, bet.maxNodeSize, path);
    RepRoot(bet.nodes, u);
    NodeShape(u, bet.height - |path|, lo, hi, bet.maxNodeSize);
  }

  lemma {:induction false} NodeShape(t: Tree, h: nat, lo: Bound, hi: Bound, max: nat)
    requires WF(t, h, lo, hi, max)
    ensures RefsSorted(Refs(t.pivots)) && Sorted(t.elements) && Shape(t.elements, t.pivots == [])
    ensures t.pivots == [] <==> h == 0
    ensures t.pivots == [] ==> |t.elements| < max
    ensures t.pivots != [] ==> forall i :: 0 <= i < |t.elements| ==> t.pivots[0].key <= t.elements[i].mkey.key
  {
    if h > 0 {
      WFNode(t, h, lo, hi, max);
      forall i | 0 <= i < |t.elements| ensures t.pivots[0].key <= t.elements[i].mkey.key {
        WithinAt(t.elements, i, At(t.pivots[0].key), hi);
      }
    }
  }

  lemma {:induction false} SubTreeStep(t: Tree, path: seq<nat>, i: nat, rest: seq<nat>)
    requires SubTree(t, path).Some? && i < |SubTree(t, path).value.pivots|
    ensures SubTree(t, path + [i] + rest) == SubTree(SubTree(t, path).value.pivots[i].child, rest)
    decreases |path|
  {
    if path == [] {
      assert (path + [i] + rest)[1..] == rest;
    } else {
      assert (path + [i] + rest)[1..] == path[1..] + [i] + rest;
      SubTreeStep(t.pivots[path[0]].child, path[1..], i, rest);
    }
  }

  lemma {:induction false} ChildBlock(t: Tree, i: nat, rest: seq<nat>)
    requires i < |t.pivots| && SubTree(t.pivots[i].child, rest).Some?
    ensures MKeys(SubTree(t.pivots[i].child, rest).value.elements) <= MKeys(All(t.pivots[i].child))
    ensures MKeys(All(t.pivots[i].child)) <= MKeys(AllF(t.pivots))
  {
    var u := SubTree(t.pivots[i].child, rest).value;
    var a, b := SubTreeBlock(t.pivots[i].child, rest);
    MKeysConcat(a + All(u), b);
    MKeysConcat(a, All(u));
    MKeysConcat(AllF(u.pivots), u.elements);
    var ps := t.pivots;
    assert ps == ps[..i] + [ps[i]] + ps[i + 1..];
    AllFConcat(ps[..i] + [ps[i]], ps[i + 1..]);
    AllFConcat(ps[..i], [ps[i]]);
    AllFOne(ps[i]);
    MKeysConcat(AllF(ps[..i]) + All(ps[i].child), AllF(ps[i + 1..]));
    MKeysConcat(AllF(ps[..i]), All(ps[i].child));
  }

  /** Below pivot `i` of a node, in however deep a node, there are only keys from that
      pivot up to the next; and a message is strictly newer than every message for the same
      key below it. */
  lemma {:induction false} Descendant(bet: Betree, path: seq<nat>, i: nat, rest: seq<nat>, m: Entry)
    requires bet.Valid() && Walk(bet.nodes, bet.root, path).Some? && Walk(bet.nodes, bet.root, path).value in bet.nodes
    requires i < |bet.nodes[Walk(bet.nodes, bet.root, path).value].pivots|
    requires Walk(bet.nodes, bet.root, path + [i] + rest).Some?
    requires Walk(bet.nodes, bet.root, path + [i] + rest).value in bet.nodes
    requires m in bet.nodes[Walk(bet.nodes, bet.root, path + [i] + rest).value].elements
    ensures var n := bet.nodes[Walk(bet.nodes, bet.root, path).value];
            && n.pivots[i].key <= m.mkey.key && (i + 1 < |n.pivots| ==> m.mkey.key < n.pivots[i + 1].key)
            && forall e :: e in n.elements && e.mkey.key == m.mkey.key ==> m.mkey.timestamp < e.mkey.timestamp
  {
    hide Rep, WF, WFF, Exact, Ordered, Stamped, Within, MKeys;
    WalkTree(bet.nodes, bet.tree, path);
    WalkTree(bet.nodes, bet.tree, path + [i] + rest);
    var u := SubTree(bet.tree, path).value;
    var lo, hi := SubTreeWF(bet.tree, bet.height, Open, Open, bet.maxNodeSize, path);
    RepRoot(bet.nodes, u);
    SubTreeStep(bet.tree, path, i, rest);
    RepRoot(bet.nodes, SubTree(u.pivots[i].child, rest).value);
    var a, b := SubTreeBlock(bet.tree, path);
    BlockOrdered(a, All(u), b);
    BelowNode(u, i, rest, m, bet.height - |path|, lo, hi, bet.maxNodeSize);
  }

  lemma {:induction false} BelowNode(u: Tree, i: nat, rest: seq<nat>, m: Entry, h: nat, lo: Bound, hi: Bound, max: nat)
    requires WF(u, h, lo, hi, max) && Ordered(All(u)) && i < |u.pivots|
    requires SubTree(u.pivots[i].child, rest).Some? && m in SubTree(u.pivots[i].child, rest).value.elements
    ensures Inside(m.mkey.key, At(u.pivots[i].key), NextKey(u.pivots, i, hi))
    ensures forall e :: e in u.elements && e.mkey.key == m.mkey.key ==> m.mkey.timestamp < e.mkey.timestamp
  {
    hide Ordered;
    ChildBlock(u, i, rest);
    assert m.mkey in MKeys(AllF(u.pivots));
    AllWithin(u.pivots[i].child, h - 1, At(u.pivots[i].key), NextKey(u.pivots, i, hi), max);
    OrderedConcat(AllF(u.pivots), u.elements);
    assert forall e :: e in u.elements ==> e.mkey in MKeys(u.elements);
  }

  // ---------- Sizes and buffers ----------

  lemma {:induction false} SubTreeFits(t: Tree, max: nat, path: seq<nat>)
    requires Fits(t, max) && SubTree(t, path).Some?
    ensures Fits(SubTree(t, path).value, max)
    decreases |path|
  {
    if path != [] {
      SubTreeFits(t.pivots[path[0]].child, max, path[1..]);
    }
  }

  lemma {:induction false} SubTreeDry(t: Tree, path: seq<nat>)
    requires Dry(t) && SubTree(t, path).Some?
    ensures Dry(SubTree(t, path).value)
    decreases |path|
  {
    if path != [] {
      SubTreeDry(t.pivots[path[0]].child, path[1..]);
    }
  }

  /** Where the invariant of the sizes holds, every node but the root is within the
      maximum size. */
  lemma {:induction false} NodeSizes(bet: Betree, path: seq<nat>)
    requires bet.Valid() && FitsF(bet.tree.pivots, bet.maxNodeSize)
    requires path != [] && Walk(bet.nodes, bet.root, path).Some?
    ensures var id := Walk(bet.nodes, bet.root, path).value;
            id in bet.nodes && |bet.nodes[id].pivots| + |bet.nodes[id].elements| <= bet.maxNodeSize
  {
    hide Rep, WF, Exact, Ordered, Stamped;
    WalkTree(bet.nodes, bet.tree, path);
    SubTreeFits(bet.tree.pivots[path[0]].child, bet.maxNodeSize, path[1..]);
    RepRoot(bet.nodes, SubTree(bet.tree, path).value);
  }

  /** Where it holds of the root as well, every node is. */
  lemma {:induction false} AllSizes(bet: Betree, path: seq<nat>)
    requires bet.Valid() && Fits(bet.tree, bet.maxNodeSize) && Walk(bet.nodes, bet.root, path).Some?
    ensures var id := Walk(bet.nodes, bet.root, path).value;
            id in bet.nodes && |bet.nodes[id].pivots| + |bet.nodes[id].elements| <= bet.maxNodeSize
  {
    hide Rep, WF, Exact, Ordered, Stamped;
    WalkTree(bet.nodes, bet.tree, path);
    SubTreeFits(bet.tree, bet.maxNodeSize, path);
    RepRoot(bet.nodes, SubTree(bet.tree, path).value);
  }

  /** Where the tree is dry, no node with children has a message. */
  lemma {:induction false} NothingBuffered(bet: Betree, path: seq<nat>)
    requires bet.Valid() && Dry(bet.tree) && Walk(bet.nodes, bet.root, path).Some?
    ensures var id := Walk(bet.nodes, bet.root, path).value;
            id in bet.nodes && (bet.nodes[id].pivots == [] || bet.nodes[id].elements == [])
  {
    hide Rep, WF, Exact, Ordered, Stamped;
    WalkTree(bet.nodes, bet.tree, path);
    SubTreeDry(bet.tree, path);
    RepRoot(bet.nodes, SubTree(bet.tree, path).value);
  }

  // ---------- The table holds the tree and nothing else ----------

  lemma {:induction false} WalkCounted(t: Tree, path: seq<nat>)
    requires SubTree(t, path).Some?
    ensures Count(t, SubTree(t, path).value.id) > 0
    decreases |path|
  {
    if path != [] {
      var u := SubTree(t, path).value;
      WalkCounted(t.pivots[path[0]].child, path[1..]);
      CountFAt(t.pivots, path[0], u.id);
    }
  }

  lemma {:induction false} TwoChildren(ps: seq<Pivot>, i: nat, j: nat, x: NodeId)
    requires i < j < |ps|
    ensures CountF(ps, x) >= Count(ps[i].child, x) + Count(ps[j].child, x)
  {
    assert ps == ps[..j] + ps[j..];
    CountFConcat(ps[..j], ps[j..], x);
    CountFAt(ps[..j], i, x);
    CountFAt(ps[j..], 0, x);
  }

  lemma {:induction false} TwoPaths(t: Tree, p: seq<nat>, q: seq<nat>)
    requires SubTree(t, p).Some? && SubTree(t, q).Some? && p != q
    requires SubTree(t, p).value.id == SubTree(t, q).value.id
    ensures Count(t, SubTree(t, p).value.id) >= 2
    decreases |p|
  {
    var x := SubTree(t, p).value.id;
    if p == [] || q == [] {
      var r := if p == [] then q else p;
      WalkCounted(t.pivots[r[0]].child, r[1..]);
      CountFAt(t.pivots, r[0], x);
    } else if p[0] == q[0] {
      assert p == [p[0]] + p[1..] && q == [q[0]] + q[1..];
      TwoPaths(t.pivots[p[0]].child, p[1..], q[1..]);
      CountFAt(t.pivots, p[0], x);
    } else {
      WalkCounted(t.pivots[p[0]].child, p[1..]);
      WalkCounted(t.pivots[q[0]].child, q[1..]);
      if p[0] < q[0] {
        TwoChildren(t.pivots, p[0], q[0], x);
      } else {
        TwoChildren(t.pivots, q[0], p[0], x);
      }
    }
  }

  lemma {:induction false} CountedWalk(t: Tree, x: NodeId) returns (path: seq<nat>)
    requires Count(t, x) > 0
    ensures SubTree(t, path).Some? && SubTree(t, path).value.id == x
    decreases t, 1
  {
    if x == t.id {
      path := [];
    } else {
      var i, rest := CountedRow(t.pivots, x);
      path := [i] + rest;
    }
  }

  lemma {:induction false} CountedRow(ps: seq<Pivot>, x: NodeId) returns (i: nat, rest: seq<nat>)
    requires CountF(ps, x) > 0
    ensures i < |ps| && SubTree(ps[i].child, rest).Some? && SubTree(ps[i].child, rest).value.id == x
    decreases ps, 0
  {
    assert ps[0] in ps && ps[0].child < ps[0];
    if Count(ps[0].child, x) > 0 {
      i := 0;
      rest := CountedWalk(ps[0].child, x);
    } else {
      i, rest := CountedRow(ps[1..], x);
      i := i + 1;
    }
  }

  /** Every node of the table is reached from the root by exactly one path: no node is
      shared between parents, and none is left behind by splits and new roots. */
  lemma {:induction false} OnePath(bet: Betree, x: NodeId) returns (path: seq<nat>)
    requires bet.Valid() && x in bet.nodes
    ensures Walk(bet.nodes, bet.root, path) == Some(x)
    ensures forall q :: Walk(bet.nodes, bet.root, q) == Some(x) ==> q == path
  {
    hide Rep, WF, Ordered, Stamped, Count;
    assert Count(bet.tree, x) == Held(bet.nodes, x) == 1;
    path := CountedWalk(bet.tree, x);
    WalkTree(bet.nodes, bet.tree, path);
    forall q | Walk(bet.nodes, bet.root, q) == Some(x) ensures q == path {
      WalkTree(bet.nodes, bet.tree, q);
      if q != path {
        TwoPaths(bet.tree, path, q);
      }
    }
  }
}
