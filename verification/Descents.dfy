/** The way of a batch down the fast path: which questions it asks, where it stops, and the
    tree it makes when it finds room where it ends. */
module Descents {
  import opened Base
  import opened Messages
  import opened Buffer
  import opened Trees
  import opened Stores
  import opened Splitting
  import opened FlushStates
  import opened Outcomes

  // ---------- The descent, on the tree before the flush ----------

  /** The node a batch finds at the root of `t`. */
  ghost function Found(t: Tree, elts: seq<Entry>): Node {
    AsNode(LoweredFor(t, elts))
  }

  /** The child that a batch for one child is for. */
  ghost function Target(t: Tree, elts: seq<Entry>): (i: nat)
    requires OneChild(Found(t, elts), elts)
    ensures i < |t.pivots| && t.pivots[i].child < t
  {
    var i := GetPivot(Found(t, elts).pivots, elts[0].mkey.key).value;
    assert t.pivots[i] in t.pivots;
    i
  }

  /** The batch is handed on to its child: question `j` is answered with yes. */
  ghost predicate HandedOn(t: Tree, elts: seq<Entry>, dirty: nat -> bool, j: nat) {
    OneChild(Found(t, elts), elts) && dirty(j)
  }

  /** On the way down, some node has messages waiting for the child the batch is handed to. */
  ghost predicate Stops(t: Tree, elts: seq<Entry>, dirty: nat -> bool, j: nat)
    decreases t
  {
    HandedOn(t, elts, dirty, j) &&
    (Trips(Found(t, elts), elts) || Stops(t.pivots[Target(t, elts)].child, elts, dirty, j + 1))
  }

  /** The way down ends at a leaf, or at a node with room for the batch, or at a stop. */
  ghost predicate Ends(t: Tree, elts: seq<Entry>, max: nat, dirty: nat -> bool, j: nat)
    decreases t
  {
    if t.pivots == [] then true
    else if HandedOn(t, elts, dirty, j) then
      Trips(Found(t, elts), elts) || Ends(t.pivots[Target(t, elts)].child, elts, max, dirty, j + 1)
    else |t.pivots| + |ApplyAll(t.elements, false, elts)| < max
  }

  /** It ends, without a stop, at a leaf or another node with room for the batch. */
  ghost predicate HasRoom(t: Tree, elts: seq<Entry>, max: nat, dirty: nat -> bool, j: nat)
    decreases t
  {
    if t.pivots == [] then |ApplyAll(t.elements, true, elts)| < max
    else if HandedOn(t, elts, dirty, j) then
      !Trips(Found(t, elts), elts) && HasRoom(t.pivots[Target(t, elts)].child, elts, max, dirty, j + 1)
    else |t.pivots| + |ApplyAll(t.elements, false, elts)| < max
  }

  /** The tree when the batch has come to rest there. */
  ghost function Rested(t: Tree, elts: seq<Entry>, dirty: nat -> bool, j: nat): Tree
    decreases t
  {
    var t1 := LoweredFor(t, elts);
    if t.pivots == [] then t.(elements := ApplyAll(t.elements, true, elts))
    else if HandedOn(t, elts, dirty, j) then
      var i := Target(t, elts);
      Regrown(t1, i, Rested(t.pivots[i].child, elts, dirty, j + 1), [], t1.elements)
    else t1.(elements := ApplyAll(t.elements, false, elts))
  }

  /** The questions asked on the way. */
  ghost function Trail(t: Tree, elts: seq<Entry>, dirty: nat -> bool, j: nat): seq<Question>
    decreases t
  {
    if !OneChild(Found(t, elts), elts) then []
    else
      [Question(t.id, Found(t, elts), elts)] +
      if dirty(j) && !Trips(Found(t, elts), elts) then Trail(t.pivots[Target(t, elts)].child, elts, dirty, j + 1)
      else []
  }

  /** What a flush of `elts` into `t` did with the batch on its way down. */
  ghost predicate Descent(t: Tree, elts: seq<Entry>, l: Limits, dirty: nat -> bool, log0: seq<Question>,
                          log: seq<Question>, ok: bool, t': Tree, forest: seq<Pivot>)
  {
    var j, trail := |log0|, Trail(t, elts, dirty, |log0|);
    && log0 + trail <= log
    && (Stops(t, elts, dirty, j) ==> !ok)
    && (Ends(t, elts, l.max, dirty, j) ==> (ok <==> !Stops(t, elts, dirty, j)) && log == log0 + trail)
    && (HasRoom(t, elts, l.max, dirty, j) ==> ok && forest == [] && t' == Rested(t, elts, dirty, j))
    && (HandedOn(t, elts, dirty, j) && ok ==> forest == [])
  }

  // ---------- The parts of a flush ----------

  lemma {:induction false} NothingDescends(t: Tree, l: Limits, dirty: nat -> bool, log: seq<Question>)
    ensures Descent(t, [], l, dirty, log, log, true, t, [])
  {
  }

  lemma {:induction false} LeafDescent(t: Tree, elts: seq<Entry>, l: Limits, dirty: nat -> bool, log: seq<Question>,
                                       t': Tree, forest: seq<Pivot>)
    requires t.pivots == []
    requires var e := ApplyAll(t.elements, true, elts); |e| < l.max ==> forest == [] && t' == t.(elements := e)
    ensures Descent(t, elts, l, dirty, log, log, true, t', forest)
  {
    hide ApplyAll;
  }

  lemma {:induction false} RefusedDescent(t: Tree, elts: seq<Entry>, l: Limits, dirty: nat -> bool, log0: seq<Question>,
                                          t': Tree)
    requires LoweredFor(t, elts) == t && dirty(|log0|) && Trips(AsNode(t), elts)
    ensures Descent(t, elts, l, dirty, log0, log0 + [Question(t.id, AsNode(t), elts)], false, t', [])
  {
    hide ApplyAll, LoweredFor;
  }

  lemma {:induction false} DirectDescent(t: Tree, i: nat, elts: seq<Entry>, l: Limits, dirty: nat -> bool,
                                         log0: seq<Question>, log: seq<Question>, ok: bool, c': Tree,
                                         forest: seq<Pivot>, t': Tree)
    requires LoweredFor(t, elts) == t && OneChild(AsNode(t), elts) && dirty(|log0|) && !Trips(AsNode(t), elts)
    requires GetPivot(Refs(t.pivots), elts[0].mkey.key) == Some(i) && i < |t.pivots|
    requires Descent(t.pivots[i].child, elts, l, dirty, log0 + [Question(t.id, AsNode(t), elts)], log, ok, c', forest)
    requires ok ==> t' == Regrown(t, i, c', forest, t.elements)
    ensures Descent(t, elts, l, dirty, log0, log, ok, t', [])
  {
    hide ApplyAll, LoweredFor, OneChild, Trips, Regrown, GetPivot;
    var q := Question(t.id, AsNode(t), elts);
    assert Target(t, elts) == i;
    var rest := Trail(t.pivots[i].child, elts, dirty, |log0| + 1);
    assert Trail(t, elts, dirty, |log0|) == [q] + rest;
    assert log0 + [q] + rest == log0 + ([q] + rest);
  }

  lemma {:induction false} SlowDescent(t: Tree, elts: seq<Entry>, l: Limits, dirty: nat -> bool, log0: seq<Question>,
                                       log1: seq<Question>, log: seq<Question>, ok: bool, t': Tree, forest: seq<Pivot>)
    requires LoweredFor(t, elts) == t && t.pivots != []
    requires if OneChild(AsNode(t), elts) then !dirty(|log0|) && log1 == log0 + [Question(t.id, AsNode(t), elts)]
             else log1 == log0
    requires Asked(dirty, log1, log, ok)
    requires var t2 := t.(elements := ApplyAll(t.elements, false, elts));
             Size(t2) < l.max ==> ok && forest == [] && t' == t2 && log == log1
    ensures Descent(t, elts, l, dirty, log0, log, ok, t', forest)
  {
    hide OneChild, ApplyAll, LoweredFor, Trips;
    assert log1 == log0 + Trail(t, elts, dirty, |log0|);
  }

  lemma {:induction false} LoweredTwice(t: Tree, elts: seq<Entry>)
    ensures LoweredFor(LoweredFor(t, elts), elts) == LoweredFor(t, elts)
  {
  }

  lemma {:induction false} LoweredDescent(t: Tree, elts: seq<Entry>, l: Limits, dirty: nat -> bool, log0: seq<Question>,
                                          log: seq<Question>, ok: bool, t': Tree, forest: seq<Pivot>)
    requires Descent(LoweredFor(t, elts), elts, l, dirty, log0, log, ok, t', forest)
    ensures Descent(t, elts, l, dirty, log0, log, ok, t', forest)
  {
    hide OneChild, ApplyAll, Trips, Regrown, GetPivot;
    LoweredTwice(t, elts);
    var t1 := LoweredFor(t, elts);
    assert t1.id == t.id && t1.elements == t.elements && |t1.pivots| == |t.pivots|;
    assert forall i :: 0 <= i < |t.pivots| ==> t1.pivots[i].child == t.pivots[i].child;
    hide LoweredFor;
  }

  // ---------- At the root ----------

  /** The node of the last question is as it was when the question was asked. */
  ghost predicate Stuck(n: Store, log: seq<Question>) {
    log != [] && log[|log| - 1].id in n && n[log[|log| - 1].id] == log[|log| - 1].node
  }

  /** A single message always belongs to one child. */
  lemma {:induction false} SingleMessage(t: Tree, e: Entry, h: nat, lo: Bound, hi: Bound, max: nat)
    requires WF(t, h, lo, hi, max) && h > 0
    ensures OneChild(Found(t, [e]), [e])
  {
  }

  /** What inserting the message `e` did to a tree of height `h`: see Outcome and Descent;
      the root is split only when it is a leaf or the child the message is for is clean; and
      under calm conditions all nodes stay within a roomy maximum, the root among them. */
  ghost predicate Upserted(t: Tree, h: nat, e: Entry, l: Limits, dirty: nat -> bool, log0: seq<Question>,
                           log: seq<Question>, ok: bool, t': Tree, h': nat)
    requires l.max >= 3
  {
    && Asked(dirty, log0, log, ok)
    && Descent(t, [e], l, dirty, log0, log, ok, t', if h' == h then [] else t'.pivots)
    && (Falling(dirty, |log|) && Dry(t) ==> ok && (AllYes(dirty, |log0|, |log|) ==> Dry(t')))
    && (ok ==> h <= h' <= h + 1)
    && (ok && h' == h ==> |t'.pivots| >= |t.pivots|)
    && (ok && h' > h ==> t'.elements == [] && Pieces(t, [e], t'.pivots, l))
    && (ok && Calm(l, dirty, |log0|, |log|) && FitsF(t.pivots, l.max)
        ==> FitsF(t'.pivots, l.max) && (h' == h ==> Size(t') <= l.max))
    && (ok && Calm(l, dirty, |log0|, |log|) && Fits(t, l.max) && Roomy(l.max) ==> Fits(t', l.max))
    && (h == 0 ==> ok && log == log0)
    && (h > 0 ==> OneChild(Found(t, [e]), [e]))
  }

  lemma {:induction false} UpsertKept(t: Tree, h: nat, e: Entry, l: Limits, dirty: nat -> bool, log0: seq<Question>,
                                      log: seq<Question>, ok: bool, t': Tree)
    requires l.max >= 3 && WF(t, h, Open, Open, l.max)
    requires Outcome(t, [e], l, dirty, log0, log, ok, t', []) && Descent(t, [e], l, dirty, log0, log, ok, t', [])
    ensures Upserted(t, h, e, l, dirty, log0, log, ok, t', h)
  {
    hide Dry, Fits, WF, WFF, Descent, Found, Pieces, OneChild, Roomy;
    RootShape(t, h, Open, Open, l.max);
    if h > 0 {
      SingleMessage(t, e, h, Open, Open, l.max);
    }
    FitsRow(t', l.max);
    FitsRow(t, l.max);
  }

  lemma {:induction false} UpsertFailed(t: Tree, h: nat, e: Entry, l: Limits, dirty: nat -> bool, log0: seq<Question>,
                                        log: seq<Question>, t': Tree, forest: seq<Pivot>)
    requires l.max >= 3 && WF(t, h, Open, Open, l.max)
    requires Outcome(t, [e], l, dirty, log0, log, false, t', forest)
    requires Descent(t, [e], l, dirty, log0, log, false, t', forest)
    ensures Upserted(t, h, e, l, dirty, log0, log, false, t, h)
  {
    hide Dry, Fits, WF, WFF, Found, Pieces, OneChild, Roomy, HasRoom, Ends, Stops, Trail, HandedOn, Rested;
    RootShape(t, h, Open, Open, l.max);
    if h > 0 {
      SingleMessage(t, e, h, Open, Open, l.max);
    }
  }

  lemma {:induction false} UpsertRooted(t: Tree, h: nat, e: Entry, l: Limits, dirty: nat -> bool, log0: seq<Question>,
                                        log: seq<Question>, t': Tree, forest: seq<Pivot>, rid: NodeId)
    requires l.max >= 3 && WF(t, h, Open, Open, l.max) && forest != []
    requires Outcome(t, [e], l, dirty, log0, log, true, t', forest)
    requires Descent(t, [e], l, dirty, log0, log, true, t', forest)
    ensures Upserted(t, h, e, l, dirty, log0, log, true, Tree(rid, forest, []), h + 1)
  {
    hide Dry, Fits, WF, WFF, Found, Pieces, OneChild, Roomy, HasRoom, Ends, Stops, Trail, HandedOn, Rested;
    RootShape(t, h, Open, Open, l.max);
    if h > 0 {
      SingleMessage(t, e, h, Open, Open, l.max);
    }
    var t'' := Tree(rid, forest, []);
    DryRow(t'');
    FitsRow(t'', l.max);
    FitsRow(t, l.max);
  }
}
