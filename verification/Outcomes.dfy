/** What a flush asks, when it stops, and how large the nodes are that it leaves. */
module Outcomes {
  import opened Messages
  import opened Buffer
  import opened Trees
  import opened Stores
  import opened Splitting
  import opened Flushing
  import opened FlushStates

  // ---------- Questions ----------

  /** Is the child that the whole batch is for dirty?  With the node as it was then. */
  datatype Question = Question(id: NodeId, node: Node, batch: seq<Entry>)

  /** Question `j` was answered with yes although messages for that child were waiting. */
  ghost predicate Stop(dirty: nat -> bool, log: seq<Question>, j: nat)
    requires j < |log|
  {
    dirty(j) && Trips(log[j].node, log[j].batch)
  }

  ghost predicate NoStop(dirty: nat -> bool, log: seq<Question>, from: nat) {
    forall j :: from <= j < |log| ==> !Stop(dirty, log, j)
  }

  /** The questions asked since `log0`: the fast path is taken safely at each of them, or
      at each but the last. */
  ghost predicate Asked(dirty: nat -> bool, log0: seq<Question>, log: seq<Question>, ok: bool) {
    && |log0| <= |log| && log[..|log0|] == log0
    && if ok then NoStop(dirty, log, |log0|)
       else |log0| < |log| && NoStop(dirty, log[..|log| - 1], |log0|) && Stop(dirty, log, |log| - 1)
  }

  ghost predicate AllNo(dirty: nat -> bool, from: nat, to: nat) {
    forall j :: from <= j < to ==> !dirty(j)
  }

  ghost predicate AllYes(dirty: nat -> bool, from: nat, to: nat) {
    forall j :: from <= j < to ==> dirty(j)
  }

  /** Among the first `n` answers no yes comes after a no. */
  ghost predicate Falling(dirty: nat -> bool, n: nat) {
    forall i, j :: 0 <= i < j < n && dirty(j) ==> dirty(i)
  }

  /** After a no, with no yes to come, nothing stops a flush. */
  lemma {:induction false} FallenRuns(dirty: nat -> bool, log0: seq<Question>, log: seq<Question>, ok: bool, i: nat)
    requires Falling(dirty, |log|) && !dirty(i) && i < |log0| && Asked(dirty, log0, log, ok)
    ensures ok
  {
  }

  lemma {:induction false} AskedNothing(dirty: nat -> bool, log: seq<Question>)
    ensures Asked(dirty, log, log, true)
  {
  }

  lemma {:induction false} AskedOne(dirty: nat -> bool, log: seq<Question>, q: Question)
    ensures Asked(dirty, log, log + [q], !(dirty(|log|) && Trips(q.node, q.batch)))
  {
    hide Trips;
    var log' := log + [q];
    assert log'[..|log|] == log && log'[|log|] == q;
    if dirty(|log|) && Trips(q.node, q.batch) {
      assert Stop(dirty, log', |log|);
    }
  }

  lemma {:induction false} AskedMore(dirty: nat -> bool, a: seq<Question>, b: seq<Question>, c: seq<Question>, ok: bool)
    requires Asked(dirty, a, b, true) && Asked(dirty, b, c, ok)
    ensures Asked(dirty, a, c, ok)
  {
    hide Trips;
    assert c[..|a|] == c[..|b|][..|a|] == a;
    forall j | |a| <= j < |b| ensures !Stop(dirty, c, j) {
      assert c[j] == c[..|b|][j] == b[j];
      assert !Stop(dirty, b, j);
    }
    if !ok {
      var d := c[..|c| - 1];
      assert forall j :: |a| <= j < |b| ==> d[j] == c[j] && (Stop(dirty, d, j) <==> Stop(dirty, c, j));
    }
  }

  // ---------- Buffers and sizes ----------

  /** No internal node buffers anything. */
  ghost predicate Dry(t: Tree)
    decreases t
  {
    t.pivots == [] || (t.elements == [] && forall i :: 0 <= i < |t.pivots| ==> Dry(t.pivots[i].child))
  }

  ghost predicate DryF(ps: seq<Pivot>) {
    forall i :: 0 <= i < |ps| ==> Dry(ps[i].child)
  }

  /** Every node is within the maximum size. */
  ghost predicate Fits(t: Tree, max: nat)
    decreases t
  {
    Size(t) <= max && forall i :: 0 <= i < |t.pivots| ==> Fits(t.pivots[i].child, max)
  }

  ghost predicate FitsF(ps: seq<Pivot>, max: nat) {
    forall i :: 0 <= i < |ps| ==> Fits(ps[i].child, max)
  }

  lemma {:induction false} DryRow(t: Tree)
    requires t.pivots != []
    ensures Dry(t) <==> t.elements == [] && DryF(t.pivots)
  {
  }

  lemma {:induction false} FitsRow(t: Tree, max: nat)
    ensures Fits(t, max) <==> Size(t) <= max && FitsF(t.pivots, max)
  {
  }

  /** The things the nodes of a row hold together. */
  ghost function TotalSize(ps: seq<Pivot>): nat {
    |FlatPivots(ps)| + |FlatElements(ps)|
  }

  ghost predicate DryResult(t': Tree, forest: seq<Pivot>) {
    if forest == [] then Dry(t') else DryF(forest)
  }

  ghost predicate FitsResult(t': Tree, forest: seq<Pivot>, max: nat) {
    if forest == [] then Fits(t', max) else FitsF(forest, max)
  }

  // ---------- The outcome of a flush ----------

  /** The limits a tree was made with. */
  datatype Limits = Limits(max: nat, flush: nat)

  /** Pieces of a split: how large, how many, and of how much. */
  ghost predicate Pieces(t: Tree, elts: seq<Entry>, forest: seq<Pivot>, l: Limits)
    requires l.max >= 3
  {
    && SplitBound(forest, t.pivots == [], l.max, l.flush)
    && |forest| <= NumNewLeaves(TotalSize(forest), l.max)
    && (if t.pivots == [] then l.max <= TotalSize(forest) <= |t.elements| + |elts| else l.max < TotalSize(forest))
  }

  /** Splitting a node that is over the maximum by no more than `b` gives at most `1 + b`
      pieces.  So it is for every maximum from 15 up. */
  ghost predicate Roomy(max: nat) {
    max + 1 < 3 * (10 * max / 24)
  }

  lemma {:induction false} RoomyFrom15(max: nat)
    requires max >= 15
    ensures Roomy(max)
  {
  }

  lemma {:induction false} FewPieces(total: nat, max: nat, b: nat)
    requires max >= 3 && Roomy(max) && total <= max + b && b >= 1
    ensures NumNewLeaves(total, max) <= 1 + b
  {
    var q := 10 * max / 24;
    var n := NumNewLeaves(total, max);
    assert n * q <= total by {
      DivBounds(total, q);
    }
    hide NumNewLeaves;
    RoomFor(max, b, q);
    MulCancel(n, 2 + b, q);
  }

  lemma {:induction false} RoomFor(max: nat, b: nat, q: nat)
    requires max + 1 < 3 * q && b >= 1
    ensures max + b < (2 + b) * q
  {
    MulMono(1, b, q - 1);
    assert b * q == b * (q - 1) + b;
    assert (2 + b) * q == 2 * q + b * q;
  }

  /** The conditions under which sizes stay within the maximum: no answer yes, and a flush
      size of at most three eighths. */
  ghost predicate Calm(l: Limits, dirty: nat -> bool, from: nat, to: nat) {
    AllNo(dirty, from, to) && 8 * l.flush <= 3 * l.max
  }

  /** What a flush of `elts` into `t` did, beside keeping what the messages mean:
      - it was stopped by the last question it asked, or by none;
      - if no yes came after a no, it was not stopped in a dry tree, and left it dry unless
        a no was among the answers;
      - under calm conditions, with all nodes below within the maximum, it left all nodes
        within the maximum, and in no more pieces than messages and one, if the maximum is
        roomy and the node was within it;
      - it took no pivot away. */
  ghost predicate Outcome(t: Tree, elts: seq<Entry>, l: Limits, dirty: nat -> bool, log0: seq<Question>,
                          log: seq<Question>, ok: bool, t': Tree, forest: seq<Pivot>)
    requires l.max >= 3
  {
    && Asked(dirty, log0, log, ok)
    && (t.pivots == [] ==> log == log0)
    && (Falling(dirty, |log|) && |elts| <= 1 && Dry(t)
        ==> ok && (AllYes(dirty, |log0|, |log|) ==> DryResult(t', forest)))
    && (ok && Calm(l, dirty, |log0|, |log|) && FitsF(t.pivots, l.max) && elts != [] ==> FitsResult(t', forest, l.max))
    && (ok && Calm(l, dirty, |log0|, |log|) && Fits(t, l.max) && elts != [] && Roomy(l.max)
        ==> |forest| <= 1 + |elts|)
    && (ok && forest == [] ==> |t'.pivots| >= |t.pivots|)
    && (ok && forest != [] ==> Pieces(t, elts, forest, l))
  }

  /** Nothing to flush. */
  lemma {:induction false} NothingFlushed(t: Tree, l: Limits, dirty: nat -> bool, log: seq<Question>)
    requires l.max >= 3
    ensures Outcome(t, [], l, dirty, log, log, true, t, [])
  {
  }

  lemma {:induction false} LeavesFine(lo: Bound, hi: Bound, max: nat, t': Tree, forest: seq<Pivot>)
    requires if forest == [] then WF(t', 0, lo, hi, max) else WFF(forest, 0, lo, hi, max)
    ensures DryResult(t', forest) && FitsResult(t', forest, max)
  {
    if forest != [] {
      forall i | 0 <= i < |forest| ensures Dry(forest[i].child) && Fits(forest[i].child, max) {
        assert WF(forest[i].child, 0, At(forest[i].key), NextKey(forest, i, hi), max);
      }
    }
  }

  lemma {:induction false} LeafFits(t: Tree, lo: Bound, hi: Bound, max: nat)
    requires Leaf(t, lo, hi) && |t.elements| < max
    ensures WF(t, 0, lo, hi, max)
  {
  }

  /** A flush into a leaf. */
  lemma {:induction false} LeafOutcome(t: Tree, elts: seq<Entry>, lo: Bound, hi: Bound, l: Limits, dirty: nat -> bool,
                                       log: seq<Question>, t': Tree, forest: seq<Pivot>)
    requires l.max >= 3 && t.pivots == []
    requires if forest == [] then WF(t', 0, lo, hi, l.max) else WFF(forest, 0, lo, hi, l.max)
    requires forest != [] ==> Pieces(t, elts, forest, l)
    ensures Outcome(t, elts, l, dirty, log, log, true, t', forest)
  {
    hide DryResult, FitsResult, WF, WFF, SplitBound, NumNewLeaves, Roomy;
    LeavesFine(lo, hi, l.max, t', forest);
    AskedNothing(dirty, log);
    if forest != [] && elts != [] && Fits(t, l.max) && Roomy(l.max) {
      FewPieces(TotalSize(forest), l.max, |elts|);
    }
  }

  // ---------- One child replaced ----------

  lemma {:induction false} RegrownAt(t: Tree, i: nat, c': Tree, forest: seq<Pivot>, e: seq<Entry>, j: nat)
    requires i < |t.pivots| && j < |Regrown(t, i, c', forest, e).pivots|
    ensures var r := NewRow(t.pivots[i], c', forest);
            var c := Regrown(t, i, c', forest, e).pivots[j].child;
            if j < i then c == t.pivots[j].child
            else if j < i + |r| then c == r[j - i].child
            else j - |r| + 1 < |t.pivots| && c == t.pivots[j - |r| + 1].child
  {
  }

  lemma {:induction false} RegrownSize(t: Tree, i: nat, c': Tree, forest: seq<Pivot>, e: seq<Entry>)
    requires i < |t.pivots|
    ensures var r := NewRow(t.pivots[i], c', forest);
            |Regrown(t, i, c', forest, e).pivots| == |t.pivots| - 1 + |r| && |r| >= 1
  {
  }

  lemma {:induction false} RegrownElements(t: Tree, i: nat, c': Tree, forest: seq<Pivot>, e: seq<Entry>)
    requires i < |t.pivots|
    ensures Regrown(t, i, c', forest, e).elements == e
  {
  }

  lemma {:induction false} RegrownDry(t: Tree, i: nat, c': Tree, forest: seq<Pivot>)
    requires i < |t.pivots| && DryF(t.pivots) && DryResult(c', forest)
    ensures Dry(Regrown(t, i, c', forest, []))
  {
    hide Dry;
    var t' := Regrown(t, i, c', forest, []);
    forall j | 0 <= j < |t'.pivots| ensures Dry(t'.pivots[j].child) {
      RegrownAt(t, i, c', forest, [], j);
    }
    DryRow(t');
  }

  lemma {:induction false} RegrownFits(t: Tree, i: nat, c': Tree, forest: seq<Pivot>, e: seq<Entry>, max: nat)
    requires i < |t.pivots| && FitsF(t.pivots, max) && FitsResult(c', forest, max)
    ensures FitsF(Regrown(t, i, c', forest, e).pivots, max)
  {
    hide Fits;
    var t' := Regrown(t, i, c', forest, e);
    forall j | 0 <= j < |t'.pivots| ensures Fits(t'.pivots[j].child, max) {
      RegrownAt(t, i, c', forest, e, j);
    }
  }

  // ---------- Splitting ----------

  lemma {:induction false} FlatHolds(forest: seq<Pivot>, i: nat, p: Pivot)
    requires i < |forest| && p in forest[i].child.pivots
    ensures p in FlatPivots(forest)
  {
    if i < |forest| - 1 {
      FlatHolds(forest[..|forest| - 1], i, p);
    }
  }

  lemma {:induction false} SplitFitsF(t: Tree, forest: seq<Pivot>, max: nat)
    requires Partition(t, forest, |t.pivots|, |t.elements|) && PieceSizes(forest, max) && FitsF(t.pivots, max)
    ensures FitsF(forest, max)
  {
    hide Fits, FlatPivots, FlatElements;
    assert t.pivots[..|t.pivots|] == t.pivots;
    forall i | 0 <= i < |forest| ensures Fits(forest[i].child, max) {
      var c := forest[i].child;
      forall j | 0 <= j < |c.pivots| ensures Fits(c.pivots[j].child, max) {
        FlatHolds(forest, i, c.pivots[j]);
      }
      FitsRow(c, max);
    }
  }

  lemma {:induction false} PartitionTotal(t: Tree, forest: seq<Pivot>)
    requires Partition(t, forest, |t.pivots|, |t.elements|)
    ensures TotalSize(forest) == Size(t)
  {
  }

  /** A leaf, with its batch applied, was too large and was split. */
  lemma {:induction false} LeafPieces(t: Tree, elts: seq<Entry>, t1: Tree, forest: seq<Pivot>, l: Limits)
    requires l.max >= 3 && t.pivots == [] && t1.pivots == [] && l.max <= Size(t1) <= |t.elements| + |elts|
    requires Partition(t1, forest, 0, |t1.elements|) && SplitBound(forest, true, l.max, 0)
    requires |forest| <= NumNewLeaves(Size(t1), l.max)
    ensures Pieces(t, elts, forest, l)
  {
    hide NumNewLeaves, Partition;
    PartitionTotal(t1, forest);
  }

  // ---------- The fast path ----------

  lemma {:induction false} DryNoTrip(t: Tree, elts: seq<Entry>)
    requires t.elements == []
    ensures !Trips(AsNode(t), elts)
  {
  }

  /** The fast path was refused: messages for the child were waiting. */
  lemma {:induction false} RefusedOutcome(t: Tree, elts: seq<Entry>, l: Limits, dirty: nat -> bool, log0: seq<Question>)
    requires l.max >= 3 && t.pivots != [] && dirty(|log0|) && Trips(AsNode(t), elts)
    ensures Outcome(t, elts, l, dirty, log0, log0 + [Question(t.id, AsNode(t), elts)], false, t, [])
  {
    hide Trips;
    AskedOne(dirty, log0, Question(t.id, AsNode(t), elts));
    DryRow(t);
    if Dry(t) {
      DryNoTrip(t, elts);
    }
  }

  /** The fast path was taken: everything depends on the child. */
  lemma {:induction false} DirectOutcome(t: Tree, i: nat, elts: seq<Entry>, l: Limits, dirty: nat -> bool,
                                         log0: seq<Question>, log: seq<Question>, ok: bool, c': Tree,
                                         forest: seq<Pivot>, t': Tree)
    requires l.max >= 3 && i < |t.pivots| && dirty(|log0|) && !Trips(AsNode(t), elts)
    requires Outcome(t.pivots[i].child, elts, l, dirty, log0 + [Question(t.id, AsNode(t), elts)], log, ok, c', forest)
    requires ok ==> t' == Regrown(t, i, c', forest, t.elements)
    ensures Outcome(t, elts, l, dirty, log0, log, ok, t', [])
  {
    hide Trips, Asked, Dry, Fits, DryResult, FitsResult, Regrown, Pieces;
    var log1 := log0 + [Question(t.id, AsNode(t), elts)];
    AskedOne(dirty, log0, Question(t.id, AsNode(t), elts));
    AskedMore(dirty, log0, log1, log, ok);
    AskedLength(dirty, log1, log, ok);
    DryRow(t);
    if ok {
      RegrownSize(t, i, c', forest, t.elements);
      if Falling(dirty, |log|) && |elts| <= 1 && Dry(t) && AllYes(dirty, |log0|, |log|) {
        RegrownDry(t, i, c', forest);
        assert DryResult(t', []) by {
          DryOne(t');
        }
      }
    }
  }

  lemma DryOne(t: Tree)
    ensures DryResult(t, []) <==> Dry(t)
  {
  }

  lemma DrainedAsked(t0: Tree, l: Limits, dirty: nat -> bool, log0: seq<Question>, log: seq<Question>, ok: bool,
                     t': Tree, forest: seq<Pivot>)
    requires l.max >= 3 && Drained(t0, l, dirty, log0, log, ok, t', forest)
    ensures Asked(dirty, log0, log, ok)
  {
  }

  lemma AskedLength(dirty: nat -> bool, log0: seq<Question>, log: seq<Question>, ok: bool)
    requires Asked(dirty, log0, log, ok)
    ensures |log0| <= |log|
  {
  }

  // ---------- The slow path ----------

  /** The loop that flushes batches down has turned `t0` into `t`. */
  ghost predicate Draining(t0: Tree, l: Limits, dirty: nat -> bool, log0: seq<Question>, log: seq<Question>, t: Tree) {
    && Asked(dirty, log0, log, true) && |t.pivots| >= |t0.pivots|
    && (Calm(l, dirty, |log0|, |log|) && FitsF(t0.pivots, l.max)
        ==> FitsF(t.pivots, l.max) && (Roomy(l.max) ==> Size(t) <= Size(t0)))
  }

  lemma {:induction false} DrainStart(t: Tree, l: Limits, dirty: nat -> bool, log: seq<Question>)
    ensures Draining(t, l, dirty, log, log, t)
  {
  }

  lemma {:induction false} DrainStep(t0: Tree, l: Limits, dirty: nat -> bool, log0: seq<Question>, log: seq<Question>,
                                     t: Tree, i: nat, batch: seq<Entry>, keep: seq<Entry>, log': seq<Question>,
                                     ok: bool, c': Tree, forest: seq<Pivot>, t': Tree)
    requires l.max >= 3 && Draining(t0, l, dirty, log0, log, t) && i < |t.pivots| && batch != []
    requires |keep| + |batch| == |t.elements|
    requires Outcome(t.pivots[i].child, batch, l, dirty, log, log', ok, c', forest)
    requires ok ==> t' == Regrown(t, i, c', forest, keep)
    ensures if ok then Draining(t0, l, dirty, log0, log', t') else Asked(dirty, log0, log', false)
  {
    hide Asked, Fits, FitsResult, Regrown, Dry, DryResult, Pieces, Roomy;
    AskedMore(dirty, log0, log, log', ok);
    AskedLength(dirty, log0, log, true);
    AskedLength(dirty, log, log', ok);
    if ok {
      RegrownSize(t, i, c', forest, keep);
      RegrownElements(t, i, c', forest, keep);
      if Calm(l, dirty, |log0|, |log'|) && FitsF(t0.pivots, l.max) {
        FitsChild(t, i, l.max);
        RegrownFits(t, i, c', forest, keep, l.max);
      }
    }
  }

  lemma {:induction false} FitsChild(t: Tree, i: nat, max: nat)
    requires FitsF(t.pivots, max) && i < |t.pivots|
    ensures FitsF(t.pivots[i].child.pivots, max) && Fits(t.pivots[i].child, max)
  {
    FitsRow(t.pivots[i].child, max);
  }

  /** What the slow path did from the moment the batch was buffered. */
  ghost predicate Drained(t0: Tree, l: Limits, dirty: nat -> bool, log0: seq<Question>, log: seq<Question>, ok: bool,
                          t': Tree, forest: seq<Pivot>)
    requires l.max >= 3
  {
    && Asked(dirty, log0, log, ok)
    && (ok && Calm(l, dirty, |log0|, |log|) && FitsF(t0.pivots, l.max) ==> FitsResult(t', forest, l.max))
    && (ok && Calm(l, dirty, |log0|, |log|) && FitsF(t0.pivots, l.max) && forest != [] && Roomy(l.max)
        ==> TotalSize(forest) <= Size(t0))
    && (ok && forest == [] ==> |t'.pivots| >= |t0.pivots|)
    && (ok && forest != [] ==> t0.pivots != [] ==> Pieces(t0, [], forest, l))
  }

  lemma {:induction false} DrainFailed(t0: Tree, l: Limits, dirty: nat -> bool, log0: seq<Question>, log: seq<Question>,
                                       t': Tree, forest: seq<Pivot>)
    requires l.max >= 3 && Asked(dirty, log0, log, false)
    ensures Drained(t0, l, dirty, log0, log, false, t', forest)
  {
  }

  lemma {:induction false} DrainedKept(t0: Tree, l: Limits, dirty: nat -> bool, log0: seq<Question>,
                                       log: seq<Question>, t: Tree)
    requires l.max >= 3 && Draining(t0, l, dirty, log0, log, t) && Size(t) <= l.max
    ensures Drained(t0, l, dirty, log0, log, true, t, [])
  {
    hide Asked, Fits;
    FitsRow(t, l.max);
  }

  lemma {:induction false} DrainedSplit(t0: Tree, l: Limits, dirty: nat -> bool, log0: seq<Question>,
                                        log: seq<Question>, t: Tree, forest: seq<Pivot>, t': Tree)
    requires l.max >= 3 && Draining(t0, l, dirty, log0, log, t) && l.max < Size(t) && forest != []
    requires Partition(t, forest, |t.pivots|, |t.elements|) && SplitBound(forest, false, l.max, l.flush)
    requires |forest| <= NumNewLeaves(Size(t), l.max)
    ensures Drained(t0, l, dirty, log0, log, true, t', forest)
  {
    hide Asked, Fits, Partition, NumNewLeaves, SplitBound, PieceSizes;
    PartitionTotal(t, forest);
    if 8 * l.flush <= 3 * l.max {
      SplitFits(t, forest, l.max, l.flush);
      if FitsF(t.pivots, l.max) {
        SplitFitsF(t, forest, l.max);
      }
    }
  }

  /** The batch was buffered because it is for several children, or the child is clean. */
  lemma {:induction false} SlowOutcome(t: Tree, elts: seq<Entry>, e: seq<Entry>, l: Limits, dirty: nat -> bool,
                                       log0: seq<Question>, log1: seq<Question>, log: seq<Question>, ok: bool,
                                       t': Tree, forest: seq<Pivot>)
    requires l.max >= 3 && t.pivots != []
    requires if |elts| == 1 || log1 != log0 then log1 == log0 + [Question(t.id, AsNode(t), elts)] && !dirty(|log0|)
             else |elts| > 1
    requires |e| <= |t.elements| + |elts|
    requires Drained(t.(elements := e), l, dirty, log1, log, ok, t', forest)
    ensures Outcome(t, elts, l, dirty, log0, log, ok, t', forest)
  {
    hide Asked, Fits, FitsResult, DryResult, Dry, SplitBound, NumNewLeaves, Roomy;
    if log1 == log0 {
      AskedNothing(dirty, log0);
    } else {
      AskedOne(dirty, log0, Question(t.id, AsNode(t), elts));
    }
    AskedMore(dirty, log0, log1, log, ok);
    AskedLength(dirty, log1, log, ok);
    if Falling(dirty, |log|) && |elts| <= 1 {
      FallenRuns(dirty, log1, log, ok, |log0|);
    }
    FitsRow(t, l.max);
    if ok && forest != [] && elts != [] && Roomy(l.max) && Calm(l, dirty, |log0|, |log|) && Fits(t, l.max) {
      FewPieces(TotalSize(forest), l.max, |elts|);
    }
  }

  // ---------- At the node itself ----------

  /** The node as a batch finds it, once the first pivot is low enough. */
  ghost function LoweredFor(t: Tree, elts: seq<Entry>): Tree {
    if t.pivots != [] && elts != [] && elts[0].mkey.key < t.pivots[0].key then Lowered(t, elts[0].mkey.key) else t
  }

  lemma {:induction false} LoweredOutcome(t: Tree, elts: seq<Entry>, l: Limits, dirty: nat -> bool, log0: seq<Question>,
                                          log: seq<Question>, ok: bool, t': Tree, forest: seq<Pivot>)
    requires l.max >= 3 && Outcome(LoweredFor(t, elts), elts, l, dirty, log0, log, ok, t', forest)
    ensures Outcome(t, elts, l, dirty, log0, log, ok, t', forest)
  {
    hide Asked, Fits, Dry, DryResult, FitsResult, SplitBound, NumNewLeaves;
    var t1 := LoweredFor(t, elts);
    assert |t1.pivots| == |t.pivots| && forall i :: 0 <= i < |t.pivots| ==> t1.pivots[i].child == t.pivots[i].child;
    if t.pivots != [] {
      DryRow(t);
      DryRow(t1);
    }
    FitsRow(t, l.max);
    FitsRow(t1, l.max);
  }

  lemma {:induction false} LowEnough(t: Tree, elts: seq<Entry>)
    requires t.pivots != [] && elts != [] && t.pivots[0].key <= elts[0].mkey.key
    ensures LoweredFor(t, elts) == t
  {
  }

  lemma {:induction false} BufferGrows(t: Tree, elts: seq<Entry>, h: nat, lo: Bound, hi: Bound, max: nat)
    requires h > 0 && WF(t, h, lo, hi, max) && Ordered(All(t) + elts)
    ensures |ApplyAll(t.elements, false, elts)| <= |t.elements| + |elts|
  {
    hide WFF, Sorted, Shape, Within, Ordered, ApplyAll;
    assert All(t) + elts == AllF(t.pivots) + (t.elements + elts);
    OrderedConcat(AllF(t.pivots), t.elements + elts);
    ApplyAllSound(t.elements, false, elts);
  }
}
