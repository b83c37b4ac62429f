/** The loop that flushes batches down: which batch it takes, when it takes none, and which
    replies of is_in_memory that depends on. */
module Drains {
  import opened Messages
  import opened Buffer
  import opened Trees
  import opened Stores
  import opened Splitting
  import opened Cutting
  import opened FlushStates
  import opened Outcomes
  import opened Descents

  /** Is child `child` of node `id` in memory?  With the node as it was then. */
  datatype Probe = Probe(id: NodeId, node: Node, child: nat)

  /** A batch handed down by the loop: the node as it was, the child, and how many questions
      had been put to is_in_memory before. */
  datatype Handing = Handing(id: NodeId, node: Node, child: nat, at: nat)

  /** The first child with the most messages waiting. */
  ghost predicate Largest(n: Node, i: nat) {
    && i < |n.pivots|
    && (forall j :: 0 <= j < i ==> Batch(n, j) < Batch(n, i))
    && (forall j :: i <= j < |n.pivots| ==> Batch(n, j) <= Batch(n, i))
  }

  lemma {:induction false} LargestUnique(n: Node, i: nat, j: nat)
    requires Largest(n, i) && Largest(n, j)
    ensures i == j
  {
    assert Batch(n, i) <= Batch(n, j) <= Batch(n, i);
  }

  /** The batch was the largest of a node that was too large, and larger than the flush
      size; or than half of it, and the answer about that child was yes. */
  ghost predicate Justified(l: Limits, inMemory: nat -> bool, probes: seq<Probe>, h: Handing) {
    && |h.node.pivots| + |h.node.elements| >= l.max && Largest(h.node, h.child)
    && (Batch(h.node, h.child) > l.flush
        || (Batch(h.node, h.child) > l.flush / 2
            && h.at < |probes| && probes[h.at] == Probe(h.id, h.node, h.child) && inMemory(h.at)))
  }

  /** The question was asked about the largest batch of a node that was too large, when the
      size of the batch left it open. */
  ghost predicate OpenQuestion(l: Limits, p: Probe) {
    && |p.node.pivots| + |p.node.elements| >= l.max && Largest(p.node, p.child)
    && l.flush / 2 < Batch(p.node, p.child) <= l.flush
  }

  /** Between two moments, every batch handed down was justified and every question open. */
  ghost predicate Handed(l: Limits, inMemory: nat -> bool, probes0: seq<Probe>, probes: seq<Probe>,
                         handed0: seq<Handing>, handed: seq<Handing>)
  {
    && probes0 <= probes && handed0 <= handed
    && (forall k :: |probes0| <= k < |probes| ==> OpenQuestion(l, probes[k]))
    && (forall k :: |handed0| <= k < |handed| ==> Justified(l, inMemory, probes, handed[k]))
  }

  lemma {:induction false} NothingHanded(l: Limits, inMemory: nat -> bool, probes: seq<Probe>, handed: seq<Handing>)
    ensures Handed(l, inMemory, probes, probes, handed, handed)
  {
  }

  lemma {:induction false} JustifiedStill(l: Limits, inMemory: nat -> bool, probes: seq<Probe>, probes': seq<Probe>,
                                          h: Handing)
    requires Justified(l, inMemory, probes, h) && probes <= probes'
    ensures Justified(l, inMemory, probes', h)
  {
  }

  lemma {:induction false} HandedMore(l: Limits, inMemory: nat -> bool, p0: seq<Probe>, p1: seq<Probe>, p2: seq<Probe>,
                                      h0: seq<Handing>, h1: seq<Handing>, h2: seq<Handing>)
    requires Handed(l, inMemory, p0, p1, h0, h1) && Handed(l, inMemory, p1, p2, h1, h2)
    ensures Handed(l, inMemory, p0, p2, h0, h2)
  {
    hide Justified, OpenQuestion;
    forall k | |h0| <= k < |h2| ensures Justified(l, inMemory, p2, h2[k]) {
      if k < |h1| {
        assert h2[k] == h1[k];
        JustifiedStill(l, inMemory, p1, p2, h1[k]);
      }
    }
    forall k | |p0| <= k < |p2| ensures OpenQuestion(l, p2[k]) {
      if k < |p1| {
        assert p2[k] == p1[k];
      }
    }
  }

  lemma {:induction false} HandedOne(l: Limits, inMemory: nat -> bool, probes: seq<Probe>, handed: seq<Handing>,
                                     h: Handing)
    requires Justified(l, inMemory, probes, h)
    ensures Handed(l, inMemory, probes, probes, handed, handed + [h])
  {
    hide Justified, OpenQuestion;
  }

  lemma {:induction false} ProbedOne(l: Limits, inMemory: nat -> bool, probes: seq<Probe>, handed: seq<Handing>,
                                     p: Probe)
    requires OpenQuestion(l, p)
    ensures Handed(l, inMemory, probes, probes + [p], handed, handed)
  {
    hide Justified, OpenQuestion;
  }

  // ---------- The rounds of the loop at one node ----------

  /** One round: the node before, the child taken, the questions asked before, and what came
      back from the child. */
  datatype Round = Round(tree: Tree, child: nat, at: nat, child': Tree, row: seq<Pivot>)

  ghost function HandingOf(r: Round): Handing {
    Handing(r.tree.id, AsNode(r.tree), r.child, r.at)
  }

  /** The node after the round: the batch is out of the buffer, and what came back is in the
      child's place. */
  ghost function RoundDone(r: Round): Tree
    requires r.child < |r.tree.pivots|
  {
    var n := AsNode(r.tree);
    var e := r.tree.elements;
    Regrown(r.tree, r.child, r.child', r.row, e[..ElementBegin(n, r.child)] + e[ElementBegin(n, r.child + 1)..])
  }

  lemma {:induction false} SameRound(r: Round)
    requires r.child < |r.tree.pivots|
    ensures RoundDone(r) == RoundDone(r.(at := 0))
  {
  }

  /** The rounds lead from `t1` to `t`, each of them justified, in the order of the questions. */
  ghost predicate Rounds(t1: Tree, rs: seq<Round>, l: Limits, inMemory: nat -> bool, from: nat, probes: seq<Probe>,
                         t: Tree)
  {
    if rs == [] then t == t1 && from == |probes|
    else
      var r := rs[|rs| - 1];
      && Justified(l, inMemory, probes, HandingOf(r)) && t == RoundDone(r)
      && r.at <= |probes| && Rounds(t1, rs[..|rs| - 1], l, inMemory, from, probes[..r.at], r.tree)
  }

  /** No batch is worth handing down: the largest is no larger than half the flush size; or
      than the flush size, and the last answer, about that child, was no. */
  ghost predicate NoneWorth(l: Limits, inMemory: nat -> bool, asked: seq<Probe>, probes: seq<Probe>, t: Tree, i: nat) {
    && Largest(AsNode(t), i) && Batch(AsNode(t), i) <= l.flush
    && if Batch(AsNode(t), i) <= l.flush / 2 then probes == asked
       else probes == asked + [Probe(t.id, AsNode(t), i)] && !inMemory(|asked|)
  }

  ghost predicate LoopEnds(l: Limits, inMemory: nat -> bool, asked: seq<Probe>, probes: seq<Probe>, t: Tree) {
    if Size(t) < l.max then probes == asked else exists i: nat :: NoneWorth(l, inMemory, asked, probes, t, i)
  }

  /** The loop at a node that held `t1`: rounds as long as the node is too large and a batch
      is worth it, and then a split if it is still too large. */
  ghost predicate Looped(t1: Tree, l: Limits, inMemory: nat -> bool, from: nat, probes: seq<Probe>, t': Tree,
                         forest: seq<Pivot>)
  {
    exists rs, asked, t :: Rounds(t1, rs, l, inMemory, from, asked, t) && LoopEnds(l, inMemory, asked, probes, t) &&
                           SplitIfOver(t, l, t', forest)
  }

  ghost predicate SplitIfOver(t: Tree, l: Limits, t': Tree, forest: seq<Pivot>) {
    if Size(t) <= l.max then forest == [] && t' == t else CutEvenly(t, forest, l.max)
  }

  lemma {:induction false} RoundsStart(t: Tree, l: Limits, inMemory: nat -> bool, probes: seq<Probe>)
    ensures Rounds(t, [], l, inMemory, |probes|, probes, t)
  {
  }

  /** One round more. */
  lemma {:induction false} RoundsMore(t1: Tree, rs: seq<Round>, l: Limits, inMemory: nat -> bool, from: nat,
                                      probes: seq<Probe>, probes1: seq<Probe>, probes': seq<Probe>, r: Round)
    requires Rounds(t1, rs, l, inMemory, from, probes, r.tree) && r.at == |probes| && probes <= probes1 <= probes'
    requires Justified(l, inMemory, probes1, HandingOf(r))
    ensures Rounds(t1, rs + [r], l, inMemory, from, probes', RoundDone(r))
  {
    hide Justified, RoundDone;
    JustifiedStill(l, inMemory, probes1, probes', HandingOf(r));
    assert (rs + [r])[..|rs|] == rs && probes'[..r.at] == probes;
    assert r.child < |r.tree.pivots| by {
      JustifiedChild(l, inMemory, probes1, r);
    }
  }

  lemma {:induction false} JustifiedChild(l: Limits, inMemory: nat -> bool, probes: seq<Probe>, r: Round)
    requires Justified(l, inMemory, probes, HandingOf(r))
    ensures r.child < |r.tree.pivots|
  {
  }

  lemma {:induction false} LoopDone(t1: Tree, rs: seq<Round>, l: Limits, inMemory: nat -> bool, from: nat,
                                    asked: seq<Probe>, probes: seq<Probe>, t: Tree, t': Tree, forest: seq<Pivot>)
    requires Rounds(t1, rs, l, inMemory, from, asked, t) && LoopEnds(l, inMemory, asked, probes, t)
    requires SplitIfOver(t, l, t', forest)
    ensures Looped(t1, l, inMemory, from, probes, t', forest)
  {
  }

  lemma {:induction false} HandedProbes(l: Limits, inMemory: nat -> bool, probes0: seq<Probe>, probes: seq<Probe>,
                                        handed0: seq<Handing>, handed: seq<Handing>)
    requires Handed(l, inMemory, probes0, probes, handed0, handed)
    ensures probes0 <= probes
  {
  }

  // ---------- A flush, by the node it is for ----------

  /** A leaf with the batch applied, cut evenly if that is too large. */
  ghost predicate LeafFlow(t: Tree, elts: seq<Entry>, l: Limits, t': Tree, forest: seq<Pivot>) {
    var u := t.(elements := ApplyAll(t.elements, true, elts));
    if Size(u) < l.max then forest == [] && t' == u else CutEvenly(u, forest, l.max)
  }

  /** On the fast path the child is replaced by what came back, and the buffer stays. */
  ghost predicate DirectFlow(t1: Tree, i: nat, t': Tree, forest: seq<Pivot>) {
    forest == [] && i < |t1.pivots| && exists c', row :: t' == Regrown(t1, i, c', row, t1.elements)
  }

  /** What a flush does with the node it is for. */
  ghost predicate Flow(t: Tree, elts: seq<Entry>, l: Limits, dirty: nat -> bool, inMemory: nat -> bool, j: nat,
                       from: nat, probes: seq<Probe>, t': Tree, forest: seq<Pivot>)
  {
    var t1 := LoweredFor(t, elts);
    if elts == [] then forest == [] && t' == t
    else if t.pivots == [] then LeafFlow(t, elts, l, t', forest)
    else if HandedOn(t, elts, dirty, j) then DirectFlow(t1, Target(t, elts), t', forest)
    else Looped(t1.(elements := ApplyAll(t.elements, false, elts)), l, inMemory, from, probes, t', forest)
  }

  /** When the node was split, nothing hangs on what it is taken for afterwards. */
  lemma {:induction false} FlowForest(t: Tree, elts: seq<Entry>, l: Limits, dirty: nat -> bool, inMemory: nat -> bool,
                                      j: nat, from: nat, probes: seq<Probe>, t': Tree, t'': Tree, forest: seq<Pivot>)
    requires Flow(t, elts, l, dirty, inMemory, j, from, probes, t', forest) && forest != []
    ensures Flow(t, elts, l, dirty, inMemory, j, from, probes, t'', forest)
  {
    hide OneChild, ApplyAll, GetPivot, LoweredFor, Rounds, LoopEnds, CutEvenly;
  }

  lemma {:induction false} LoweredFlow(t: Tree, elts: seq<Entry>, l: Limits, dirty: nat -> bool, inMemory: nat -> bool,
                                       j: nat, from: nat, probes: seq<Probe>, t': Tree, forest: seq<Pivot>)
    requires Flow(LoweredFor(t, elts), elts, l, dirty, inMemory, j, from, probes, t', forest)
    requires elts != [] && t.pivots != []
    ensures Flow(t, elts, l, dirty, inMemory, j, from, probes, t', forest)
  {
    hide OneChild, ApplyAll, GetPivot, Looped, DirectFlow;
    LoweredTwice(t, elts);
    var t1 := LoweredFor(t, elts);
    assert t1.elements == t.elements && |t1.pivots| == |t.pivots|;
    hide LoweredFor;
  }
}
