/** The B^e-tree: nodes in a table, changed in place by apply, split, flush and upsert. */
module Betrees {
  import opened Base
  import opened Messages
  import opened Buffer
  import opened Trees
  import opened Stores
  import opened Splitting
  import opened Cutting
  import opened Flushing
  import opened FlushStates
  import opened Reading
  import opened Outcomes
  import opened Descents
  import opened Drains

  class Betree {
    const maxNodeSize: nat
    const minFlushSize: nat
    /** The swap space's replies to is_dirty and to is_in_memory, each in the order asked. */
    const dirty: nat -> bool
    const inMemory: nat -> bool
    var nodes: Store
    var nextId: NodeId
    /** The questions put so far to is_dirty and to is_in_memory. */
    var log: seq<Question>
    var probes: seq<Probe>
    var root: NodeId
    var nextTimestamp: nat
    /** The tree that `nodes` holds under `root`, and its height. */
    ghost var tree: Tree
    ghost var height: nat
    /** The batches handed down so far because a node was too large. */
    ghost var handed: seq<Handing>

    ghost predicate Valid()
      reads this
    {
      && maxNodeSize >= 3
      && IdsBelow(nodes, nextId)
      && root == tree.id && Rep(nodes, tree) && Exact(nodes, tree)
      && WF(tree, height, Open, Open, maxNodeSize)
      && 1 <= nextTimestamp <= UINT64_MAX && Ordered(All(tree)) && Stamped(All(tree), nextTimestamp)
    }

    /** What the tree holds at a key. */
    ghost function Meaning(k: Key): Option<Value>
      reads this
    {
      Eval(None, All(tree), k)
    }

    ghost function Bounds(): Limits {
      Limits(maxNodeSize, minFlushSize)
    }

    constructor (maxNodeSize: nat, minFlushSize: nat, dirty: nat -> bool, inMemory: nat -> bool)
      requires maxNodeSize >= 3
      ensures Valid() && nextTimestamp == 1 && tree == Tree(1, [], []) && height == 0
      ensures log == [] && probes == [] && handed == []
      ensures forall k :: Meaning(k) == None
      ensures this.maxNodeSize == maxNodeSize && this.minFlushSize == minFlushSize
      ensures this.dirty == dirty && this.inMemory == inMemory
    {
      this.maxNodeSize := maxNodeSize;
      this.minFlushSize := minFlushSize;
      this.dirty := dirty;
      this.inMemory := inMemory;
      nodes := map[1 := Node([], [])];
      nextId := 2;
      log := [];
      probes := [];
      root := 1;
      nextTimestamp := 1;
      tree := Tree(1, [], []);
      height := 0;
      handed := [];
      new;
      assert All(tree) == [];
      assert Refs([]) == [];
    }

    /** is_dirty of the child of node `id` that the batch is for. */
    method AskDirty(id: NodeId, elts: seq<Entry>) returns (answer: bool)
      requires id in nodes
      modifies this`log
      ensures log == old(log) + [Question(id, nodes[id], elts)] && answer == dirty(old(|log|))
    {
      answer := dirty(|log|);
      log := log + [Question(id, nodes[id], elts)];
    }

    /** is_in_memory of child `i` of node `id`. */
    method AskInMemory(id: NodeId, i: nat) returns (answer: bool)
      requires id in nodes
      modifies this`probes
      ensures probes == old(probes) + [Probe(id, nodes[id], i)] && answer == inMemory(old(|probes|))
    {
      answer := inMemory(|probes|);
      probes := probes + [Probe(id, nodes[id], i)];
    }

    method Allocate() returns (nid: NodeId)
      requires IdsBelow(nodes, nextId)
      modifies this`nodes, this`nextId
      ensures IdsBelow(nodes, nextId) && nid < nextId
      ensures nid == old(nextId) && nid !in old(nodes) && nodes == old(nodes)[nid := Node([], [])]
    {
      nid := nextId;
      nextId := nextId + 1;
      nodes := nodes[nid := Node([], [])];
    }

    /** Allocates a node and stores it under the key where the rest begins; a node stored
        there before loses its only reference and is freed. */
    method NewPiece(result: seq<Ref>, key: Key, ghost n0: Store, ghost t: Tree, ghost h: nat, ghost lo: Bound,
                    ghost hi: Bound, ghost forest: seq<Pivot>, ghost spare: Option<NodeId>, ghost pi: nat,
                    ghost ei: nat)
      returns (result': seq<Ref>, nid: NodeId)
      requires IdsBelow(nodes, nextId) && Rep(n0, t)
      requires pi <= |t.pivots| && ei <= |t.elements|
      requires RestBound(t.pivots[pi..], t.elements[ei..], Open) == At(key)
      requires SplitVal(t, h, lo, hi, maxNodeSize, forest, pi, ei)
      requires SplitStore(n0, t, nodes, forest, spare, pi)
      requires result == ResultRefs(t, forest, spare, pi, ei)
      modifies this`nodes, this`nextId
      ensures IdsBelow(nodes, nextId) && nid in nodes && nodes[nid] == Node([], [])
      ensures SplitStore(n0, t, nodes, forest, Some(nid), pi)
      ensures result' == ResultRefs(t, forest, Some(nid), pi, ei)
    {
      hide Rep, SplitVal, SplitStore, PutRef, RefBound, ResultRefs;
      ghost var before := nodes;
      nid := Allocate();
      ResultPut(t, h, lo, hi, maxNodeSize, forest, spare, pi, ei, Ref(key, nid));
      SpareHeld(n0, t, before, forest, spare, pi);
      var p := RefBound(result, key);
      if p < |result| && result[p].key == key {
        nodes := nodes - {result[p].child};
      }
      result' := PutRef(result, Ref(key, nid));
      SpareReplaced(n0, t, before, forest, spare, pi, nid, nodes);
    }

    /** One round of the splitting loop: a new node, filled up to `limit`. */
    method SplitOne(result: seq<Ref>, pi: nat, ei: nat, limit: nat, n: Node, ghost n0: Store, ghost t: Tree,
                    ghost h: nat, ghost lo: Bound, ghost hi: Bound, ghost g: nat,
                    ghost forest: seq<Pivot>, ghost spare: Option<NodeId>)
      returns (result': seq<Ref>, pi': nat, ei': nat, ghost forest': seq<Pivot>, ghost spare': Option<NodeId>)
      requires IdsBelow(nodes, nextId) && Rep(n0, t) && n == AsNode(t)
      requires SplitReady(t, h, lo, hi, maxNodeSize) && BatchesUpTo(t, g)
      requires pi <= |t.pivots| && ei <= |t.elements| && pi + ei < Size(t)
      requires h == 0 ==> limit - (pi + ei) < maxNodeSize
      requires SplitVal(t, h, lo, hi, maxNodeSize, forest, pi, ei)
      requires SplitStore(n0, t, nodes, forest, spare, pi)
      requires result == ResultRefs(t, forest, spare, pi, ei)
      modifies this`nodes, this`nextId
      ensures IdsBelow(nodes, nextId)
      ensures pi <= pi' <= |t.pivots| && ei <= ei' <= |t.elements|
      ensures SplitVal(t, h, lo, hi, maxNodeSize, forest', pi', ei')
      ensures SplitStore(n0, t, nodes, forest', spare', pi')
      ensures result' == ResultRefs(t, forest', spare', pi', ei')
      ensures pi' + ei' == Size(t) || pi' + ei' >= limit
      ensures spare'.Some? ==> forest' == forest && pi' == pi && ei' == ei
      ensures spare'.None? ==> pi' + ei' <= limit + (if h == 0 then 0 else g)
      ensures spare'.None?
              ==> exists p :: forest' == forest + [p] && Size(p.child) == pi' + ei' - pi - ei && FirstKey(p)
      ensures spare'.None? ==> pi + ei < limit
      ensures spare'.None? && h > 0 ==> pi < pi' && pi' + ei' == BoundaryAt(t, pi') && BoundaryAt(t, pi' - 1) < limit
    {
      hide WFF, Refines, RepF, Rep, Once, SplitVal, SplitReady, SplitStore, Partition, Batch, NodeSorted, ElementBegin,
           FirstKey;
      ReadySorted(t, h, lo, hi, maxNodeSize);
      var key := if pi < |n.pivots| then n.pivots[pi].key else n.elements[ei].mkey.key;
      var nid;
      result', nid := NewPiece(result, key, n0, t, h, lo, hi, forest, spare, pi, ei);
      if h > 0 {
        SplitValBegin(t, h, lo, hi, maxNodeSize, forest, pi, ei);
      }
      ghost var unfilled := nodes;
      var np, ne;
      np, ne, pi', ei' := FillPiece(n, pi, ei, limit, g);
      nodes := nodes[nid := Node(np, ne)];
      if pi' == pi && ei' == ei {
        forest', spare' := forest, Some(nid);
        assert nodes == unfilled;
      } else {
        ghost var piece := Piece(t, nid, key, pi, ei, pi', ei');
        forest', spare' := forest + [piece], None;
        assert Refs(t.pivots)[pi..pi'] == Refs(t.pivots[pi..pi']);
        SplitPiece(t, h, lo, hi, maxNodeSize, forest, pi, ei, nid, key, pi', ei');
        PieceKey(t, nid, key, pi, ei, pi', ei');
        SpareFilled(n0, t, unfilled, forest, nid, pi, pi', piece, nodes);
        RefsConcat(forest, [piece]);
      }
    }

    /** Cuts an over-full node into new nodes and empties it. */
    method Split(id: NodeId, ghost t: Tree, ghost h: nat, ghost lo: Bound, ghost hi: Bound, ghost g: nat)
      returns (result: seq<Ref>, ghost forest: seq<Pivot>)
      requires maxNodeSize >= 3 && IdsBelow(nodes, nextId)
      requires Rep(nodes, t) && Once(nodes, t) && t.id == id
      requires SplitReady(t, h, lo, hi, maxNodeSize) && Size(t) >= maxNodeSize && BatchesUpTo(t, g)
      modifies this`nodes, this`nextId
      ensures IdsBelow(nodes, nextId)
      ensures result == Refs(forest) && forest != []
      ensures WFF(forest, h, lo, hi, maxNodeSize) && Refines(AllF(forest), All(t))
      ensures Partition(t, forest, |t.pivots|, |t.elements|)
      ensures CutEvenly(t, forest, maxNodeSize) && SplitBound(forest, h == 0, maxNodeSize, g)
      ensures |forest| <= NumNewLeaves(Size(t), maxNodeSize) && (h == 0 ==> |forest| >= 2)
      ensures id in nodes && nodes[id] == Node([], [])
      ensures RepF(nodes, forest) && EvolvesF(old(nodes), t, nodes, forest)
    {
      hide WFF, Refines, RepF, Rep, Once, SplitVal, SplitReady, SplitStore, EvolvesF, Batch, NumNewLeaves,
           ThingsPerNewLeaf, Partition, BatchesUpTo, Quota, Cuts, Shares, BoundaryAt, FirstKey;
      RepRoot(nodes, t);
      var n := nodes[id];
      var total := |n.pivots| + |n.elements|;
      SplitArithmetic(total, maxNodeSize);
      SplitShares(total, maxNodeSize);
      ReadyLeaf(t, h, lo, hi, maxNodeSize);
      var num, per := NumNewLeaves(total, maxNodeSize), ThingsPerNewLeaf(total, maxNodeSize);
      result, forest := [], [];
      NextQuota(0, per);
      var pi, ei, i := 0, 0, 0;
      ghost var spare: Option<NodeId> := None;
      SplitInit(t, h, lo, hi, maxNodeSize);
      NoCuts(t, per);
      SplitStoreInit(nodes, t);
      ghost var b := per + (if h == 0 then 0 else g);
      while i < num
        invariant i <= num && IdsBelow(nodes, nextId)
        invariant pi <= |t.pivots| && ei <= |t.elements|
        invariant SplitVal(t, h, lo, hi, maxNodeSize, forest, pi, ei)
        invariant SplitStore(old(nodes), t, nodes, forest, spare, pi)
        invariant result == ResultRefs(t, forest, spare, pi, ei)
        invariant spare.Some? ==> pi + ei < total
        invariant pi + ei == total || pi + ei >= Quota(i, per)
        invariant PieceSizes(forest, b) && |forest| <= i && Cuts(t, forest, per)
      {
        if pi == |n.pivots| && ei == |n.elements| {
          break;
        }
        NextQuota(i, per);
        ghost var filled, p0, e0 := forest, pi, ei;
        SplitValParts(t, h, lo, hi, maxNodeSize, forest, pi, ei);
        result, pi, ei, forest, spare := SplitOne(result, pi, ei, Quota(i + 1, per), n, old(nodes), t, h, lo, hi, g,
                                                  forest, spare);
        if spare.None? {
          PieceSizesGrow(filled, forest, b);
          SplitValParts(t, h, lo, hi, maxNodeSize, forest, pi, ei);
          CutsGrow(t, filled, forest, per, i, p0, e0, pi, ei);
        }
        i := i + 1;
      }
      assert pi == |t.pivots| && ei == |t.elements|;
      SplitDone(t, h, lo, hi, maxNodeSize, forest);
      SplitStored(old(nodes), t, nodes, forest);
      if h == 0 {
        AtLeastTwoPieces(t, forest, b);
      }
      nodes := nodes[id := Node([], [])];
    }

    /** Applies one message to a node's own buffer. */
    method Apply(id: NodeId, e: Entry)
      requires id in nodes
      modifies this`nodes
      ensures var n := old(nodes[id]);
              nodes == old(nodes)[id := Node(n.pivots, Applied(n.elements, n.pivots == [], e))]
      decreases e.msg.opcode == UPDATE
    {
      hide Put, EraseKey, UpperBound;
      var n, k := nodes[id], e.mkey.key;
      match e.msg.opcode
      case INSERT =>
        nodes := nodes[id := Node(n.pivots, Put(EraseKey(n.elements, k), e))];
      case DELETE =>
        if n.pivots == [] {
          nodes := nodes[id := Node(n.pivots, EraseKey(n.elements, k))];
        } else {
          nodes := nodes[id := Node(n.pivots, Put(EraseKey(n.elements, k), e))];
        }
      case UPDATE =>
        var iter := KeyHigh(n.elements, k);
        if iter != 0 {
          iter := iter - 1;
        }
        if iter == |n.elements| || n.elements[iter].mkey.key != k {
          if n.pivots == [] {
            Apply(id, Entry(e.mkey, Message(INSERT, Plus(Default, e.msg.val))));
          } else {
            nodes := nodes[id := Node(n.pivots, Put(n.elements, e))];
          }
        } else {
          if n.elements[iter].msg.opcode == INSERT {
            Apply(id, Entry(e.mkey, Message(INSERT, Plus(n.elements[iter].msg.val, e.msg.val))));
          } else {
            nodes := nodes[id := Node(n.pivots, Put(n.elements, e))];
          }
        }
    }

    method ApplyBatch(id: NodeId, elts: seq<Entry>)
      requires id in nodes
      modifies this`nodes
      ensures var n := old(nodes[id]);
              nodes == old(nodes)[id := Node(n.pivots, ApplyAll(n.elements, n.pivots == [], elts))]
    {
      hide Applied;
      ghost var n := nodes[id];
      var i := 0;
      assert elts[..0] == [];
      while i < |elts|
        invariant i <= |elts|
        invariant nodes == old(nodes)[id := Node(n.pivots, ApplyAll(n.elements, n.pivots == [], elts[..i]))]
      {
        Apply(id, elts[i]);
        assert elts[..i + 1][..i] == elts[..i];
        i := i + 1;
      }
      assert elts[..|elts|] == elts;
    }

    /** Flush into a leaf: apply, then split when over-full. */
    method FlushLeaf(id: NodeId, elts: seq<Entry>, ghost t: Tree, ghost lo: Bound, ghost hi: Bound)
      returns (result: seq<Ref>, ghost t': Tree, ghost forest: seq<Pivot>)
      requires maxNodeSize >= 3 && IdsBelow(nodes, nextId)
      requires t.id == id && FlushPre(nodes, t, elts, 0, lo, hi, maxNodeSize)
      modifies this`nodes, this`nextId
      ensures IdsBelow(nodes, nextId) && result == Refs(forest)
      ensures Flushed(old(nodes), t, elts, 0, lo, hi, maxNodeSize, nodes, t', forest)
      ensures Outcome(t, elts, Bounds(), dirty, log, log, true, t', forest)
      ensures Descent(t, elts, Bounds(), dirty, log, log, true, t', forest)
      ensures LeafFlow(t, elts, Bounds(), t', forest)
    {
      hide Rep, RepF, Once, Evolves, EvolvesF, Refines, ApplyAll, WF, WFF, Ordered, Partition, SplitBound, Flushed,
           FlushPre, Outcome, Pieces, NumNewLeaves, Descent, CutEvenly;
      assert Rep(nodes, t) && t.pivots == [] by {
        PreLeaf(nodes, t, elts, lo, hi, maxNodeSize);
      }
      RepRoot(nodes, t);
      LeafApplied(nodes, t, elts, lo, hi, maxNodeSize);
      LeafGrows(nodes, t, elts, lo, hi, maxNodeSize);
      ApplyBatch(id, elts);
      t' := t.(elements := ApplyAll(t.elements, true, elts));
      result, forest := [], [];
      ghost var n1 := nodes;
      if |nodes[id].elements| + |nodes[id].pivots| >= maxNodeSize {
        RefinesOrdered(All(t'), All(t) + elts);
        result, forest := Split(id, t', 0, lo, hi, 0);
        SplitFinish(old(nodes), t, elts, 0, lo, hi, maxNodeSize, n1, t', nodes, forest);
        LeafPieces(t, elts, t', forest, Bounds());
        t' := t;
      } else {
        LeafFits(t', lo, hi, maxNodeSize);
        assert Working(old(nodes), t, elts, 0, lo, hi, maxNodeSize, nodes, t');
        WorkingDone(old(nodes), t, elts, 0, lo, hi, maxNodeSize, nodes, t');
      }
      LeafOutcome(t, elts, lo, hi, Bounds(), dirty, log, t', forest);
      LeafDescent(t, elts, Bounds(), dirty, log, t', forest);
    }

    /** Flushes `batch` to child `i` and puts what comes back in the child's place, with
        `keep` left in the buffer. */
    method FlushChild(id: NodeId, i: nat, batch: seq<Entry>, keep: seq<Entry>, ghost t: Tree, ghost h: nat,
                      ghost lo: Bound, ghost hi: Bound, ghost x: seq<Entry>, ghost z: seq<Entry>)
      returns (ok: bool, ghost t': Tree, ghost c': Tree, ghost forest: seq<Pivot>)
      requires maxNodeSize >= 3 && IdsBelow(nodes, nextId)
      requires h > 0 && t.id == id && Rep(nodes, t) && Once(nodes, t) && WF(t, h, lo, hi, maxNodeSize)
      requires i < |t.pivots| && keep == x + z && ForChild(t, i, x, batch, z, hi)
      modifies this`nodes, this`nextId, this`log, this`probes, this`handed
      ensures ok ==> IdsBelow(nodes, nextId) && t'.id == id && t' == Regrown(t, i, c', forest, keep)
      ensures ok ==> WF(t', h, lo, hi, maxNodeSize) && Refines(All(t'), AllF(t.pivots) + x + batch + z)
      ensures ok ==> Rep(nodes, t') && Once(nodes, t') && Evolves(old(nodes), t, nodes, t')
      ensures Outcome(t.pivots[i].child, batch, Bounds(), dirty, old(log), log, ok, c', forest)
      ensures Descent(t.pivots[i].child, batch, Bounds(), dirty, old(log), log, ok, c', forest)
      ensures !ok ==> Stuck(nodes, log)
      ensures Handed(Bounds(), inMemory, old(probes), probes, old(handed), handed)
      decreases h, 0
    {
      hide Rep, RepF, Once, Evolves, EvolvesF, EvolvesRow, Refines, WF, WFF, Flushed, FlushPre, ForChild, InsertRefs,
           EraseRef, Outcome, Descent, Stuck, Handed, Flow;
      RepRoot(nodes, t);
      ghost var n0, c := nodes, t.pivots[i];
      ghost var next := NextKey(t.pivots, i, hi);
      var child := nodes[id].pivots[i].child;
      ChildPre(nodes, t, i, x, batch, z, h, lo, hi, maxNodeSize);
      var new';
      ok, new', c', forest := Flush(child, batch, c.child, h - 1, At(c.key), next);
      t' := t;
      if ok {
        ChildFlushed(n0, t, i, x, batch, z, h, lo, hi, maxNodeSize, nodes, c', forest);
        t' := Regrown(t, i, c', forest, keep);
        SameNode(n0, t, i, nodes, c', forest, batch, h, lo, hi, maxNodeSize);
        ghost var n1 := nodes;
        if new' != [] {
          PivotsReplaced(t, i, forest, keep, h, lo, hi, maxNodeSize);
          var ps := nodes[id].pivots;
          nodes := nodes[id := Node(InsertRefs(EraseRef(ps, ps[i].key), new'), keep)];
          nodes := nodes - {child};
          assert nodes == (n1 - {child})[id := Node(Refs(t'.pivots), keep)];
        } else {
          assert Refs(t'.pivots) == Refs(t.pivots);
          nodes := nodes[id := Node(nodes[id].pivots, keep)];
        }
      }
    }

    /** Splits a node that is still too large when no batch is worth flushing. */
    method Settle(id: NodeId, ghost n0: Store, ghost t0: Tree, ghost elts: seq<Entry>, ghost t1: Tree, ghost t: Tree,
                  ghost h: nat, ghost lo: Bound, ghost hi: Bound, ghost log0: seq<Question>)
      returns (result: seq<Ref>, ghost t': Tree, ghost forest: seq<Pivot>)
      requires maxNodeSize >= 3 && IdsBelow(nodes, nextId) && h > 0 && t0.id == id
      requires Working(n0, t0, elts, h, lo, hi, maxNodeSize, nodes, t)
      requires Draining(t1, Bounds(), dirty, log0, log, t) && (Size(t) > maxNodeSize ==> BatchesUpTo(t, minFlushSize))
      modifies this`nodes, this`nextId
      ensures IdsBelow(nodes, nextId) && result == Refs(forest)
      ensures Flushed(n0, t0, elts, h, lo, hi, maxNodeSize, nodes, t', forest)
      ensures Drained(t1, Bounds(), dirty, log0, log, true, t', forest)
      ensures SplitIfOver(t, Bounds(), t', forest) && (Size(t) > maxNodeSize ==> forest != [])
    {
      hide Rep, RepF, Once, Evolves, EvolvesF, Refines, WF, WFF, Flushed, Partition, SplitBound, PieceSizes, Ordered,
           Draining, Drained, NumNewLeaves, Working, BatchesUpTo, CutEvenly;
      WorkingParts(n0, t0, elts, h, lo, hi, maxNodeSize, nodes, t);
      RepRoot(nodes, t);
      result, forest, t' := [], [], t;
      if |nodes[id].elements| + |nodes[id].pivots| > maxNodeSize {
        ghost var nt := nodes;
        result, forest := Split(id, t, h, lo, hi, minFlushSize);
        SplitFinish(n0, t0, elts, h, lo, hi, maxNodeSize, nt, t, nodes, forest);
        DrainedSplit(t1, Bounds(), dirty, log0, log, t, forest, t0);
        t' := t0;
      } else {
        WorkingDone(n0, t0, elts, h, lo, hi, maxNodeSize, nodes, t');
        DrainedKept(t1, Bounds(), dirty, log0, log, t');
      }
    }

    /** Whether the batch for child `i`, the largest of the node, is worth handing down. */
    method Decide(id: NodeId, i: nat, size: nat, ghost t: Tree) returns (enough: bool)
      requires id in nodes && nodes[id] == AsNode(t) && t.id == id && Size(t) >= maxNodeSize
      requires Largest(AsNode(t), i) && Batch(AsNode(t), i) == size
      modifies this`probes, this`handed
      ensures Handed(Bounds(), inMemory, old(probes), probes, old(handed), handed)
      ensures if enough then Justified(Bounds(), inMemory, probes, Handing(id, AsNode(t), i, old(|probes|)))
              else NoneWorth(Bounds(), inMemory, old(probes), probes, t, i)
      ensures if enough then size > 0 else size <= minFlushSize
    {
      hide Largest, Batch, Handed;
      NothingHanded(Bounds(), inMemory, probes, handed);
      enough := size > minFlushSize;
      if !enough && size > minFlushSize / 2 {
        enough := AskInMemory(id, i);
        ProbedOne(Bounds(), inMemory, old(probes), handed, Probe(id, AsNode(t), i));
      }
      if enough {
        ghost var h := Handing(id, AsNode(t), i, old(|probes|));
        HandedOne(Bounds(), inMemory, probes, handed, h);
        HandedMore(Bounds(), inMemory, old(probes), probes, probes, old(handed), handed, handed + [h]);
        handed := handed + [h];
      }
    }

    /** Flushes the batch for child `i` down and takes it out of the buffer. */
    method HandDown(id: NodeId, i: nat, ghost n0: Store, ghost t0: Tree, ghost elts: seq<Entry>, ghost t1: Tree,
                    ghost t: Tree, ghost h: nat, ghost lo: Bound, ghost hi: Bound, ghost log0: seq<Question>)
      returns (ok: bool, ghost t': Tree, ghost c': Tree, ghost row: seq<Pivot>)
      requires maxNodeSize >= 3 && IdsBelow(nodes, nextId) && h > 0 && t0.id == id
      requires Working(n0, t0, elts, h, lo, hi, maxNodeSize, nodes, t) && Draining(t1, Bounds(), dirty, log0, log, t)
      requires i < |t.pivots| && Batch(AsNode(t), i) > 0
      modifies this`nodes, this`nextId, this`log, this`probes, this`handed
      ensures ok ==> IdsBelow(nodes, nextId) && Working(n0, t0, elts, h, lo, hi, maxNodeSize, nodes, t')
      ensures ok ==> id in nodes && nodes[id] == AsNode(t') && |t'.elements| < |t.elements|
      ensures ok ==> Draining(t1, Bounds(), dirty, log0, log, t') && t' == RoundDone(Round(t, i, 0, c', row))
      ensures !ok ==> Asked(dirty, log0, log, false) && Stuck(nodes, log)
      ensures Handed(Bounds(), inMemory, old(probes), probes, old(handed), handed)
      decreases h, 1
    {
      hide Rep, RepF, Once, Evolves, EvolvesF, EvolvesRow, Refines, WF, WFF, Flushed, ForChild, ElementBegin, Ordered,
           Outcome, Draining, Regrown, Working, Descent, Stuck, Handed, Asked;
      WorkingParts(n0, t0, elts, h, lo, hi, maxNodeSize, nodes, t);
      RepRoot(nodes, t);
      var n := nodes[id];
      var l, u := ElementBegin(n, i), ElementBegin(n, i + 1);
      BatchForChild(t, i, h, lo, hi, maxNodeSize);
      ghost var nt, log1 := nodes, log;
      ok, t', c', row := FlushChild(id, i, n.elements[l..u], n.elements[..l] + n.elements[u..], t, h, lo, hi,
                                    n.elements[..l], n.elements[u..]);
      DrainStep(t1, Bounds(), dirty, log0, log1, t, i, n.elements[l..u], n.elements[..l] + n.elements[u..], log,
                ok, c', row, t');
      if ok {
        WorkingNext(n0, t0, elts, h, lo, hi, maxNodeSize, nt, t, nodes, t');
        RepRoot(nodes, t');
        RegrownElements(t, i, c', row, n.elements[..l] + n.elements[u..]);
      }
    }

    /** Flushes the largest batches down until the node fits or no batch is large enough,
        then splits it if it is still too large. */
    method Drain(id: NodeId, ghost n0: Store, ghost t0: Tree, ghost elts: seq<Entry>, ghost t1: Tree, ghost h: nat,
                 ghost lo: Bound, ghost hi: Bound)
      returns (ok: bool, result: seq<Ref>, ghost t': Tree, ghost forest: seq<Pivot>)
      requires maxNodeSize >= 3 && IdsBelow(nodes, nextId)
      requires h > 0 && t0.id == id && Working(n0, t0, elts, h, lo, hi, maxNodeSize, nodes, t1)
      modifies this`nodes, this`nextId, this`log, this`probes, this`handed
      ensures ok ==> IdsBelow(nodes, nextId) && result == Refs(forest)
      ensures ok ==> Flushed(n0, t0, elts, h, lo, hi, maxNodeSize, nodes, t', forest)
      ensures Drained(t1, Bounds(), dirty, old(log), log, ok, t', forest)
      ensures !ok ==> Stuck(nodes, log)
      ensures Handed(Bounds(), inMemory, old(probes), probes, old(handed), handed)
      ensures ok ==> Looped(t1, Bounds(), inMemory, old(|probes|), probes, t', forest)
      ensures ok && forest == [] ==> Size(t') <= maxNodeSize
      ensures Size(t1) < maxNodeSize ==> ok && forest == [] && t' == t1 && log == old(log)
      decreases h, 2
    {
      hide Rep, RepF, Once, Evolves, Refines, WF, WFF, Flushed, ElementBegin, Ordered, Draining, Drained, Working,
           Stuck, Handed, Justified, Rounds, NoneWorth, RoundDone, CutEvenly, Asked, Batch;
      ok, result, forest, t' := true, [], [], t1;
      WorkingParts(n0, t0, elts, h, lo, hi, maxNodeSize, nodes, t');
      RepRoot(nodes, t');
      DrainStart(t1, Bounds(), dirty, log);
      NothingHanded(Bounds(), inMemory, probes, handed);
      ghost var rounds, asked := [], probes;
      RoundsStart(t1, Bounds(), inMemory, probes);
      while |nodes[id].elements| + |nodes[id].pivots| >= maxNodeSize
        invariant id in nodes && nodes[id] == AsNode(t') && IdsBelow(nodes, nextId)
        invariant Working(n0, t0, elts, h, lo, hi, maxNodeSize, nodes, t')
        invariant Draining(t1, Bounds(), dirty, old(log), log, t')
        invariant Size(t1) < maxNodeSize ==> t' == t1 && log == old(log)
        invariant Handed(Bounds(), inMemory, old(probes), probes, old(handed), handed)
        invariant asked == probes && Rounds(t1, rounds, Bounds(), inMemory, old(|probes|), probes, t')
        decreases |t'.elements|
      {
        WorkingParts(n0, t0, elts, h, lo, hi, maxNodeSize, nodes, t');
        WFNode(t', h, lo, hi, maxNodeSize);
        var i, size := LargestBatch(nodes[id]);
        ghost var handed0 := handed;
        var enough := Decide(id, i, size, t');
        HandedMore(Bounds(), inMemory, old(probes), asked, probes, old(handed), handed0, handed);
        if !enough {
          break;
        }
        ghost var probes1, handed1, t := probes, handed, t';
        ghost var c', row;
        ok, t', c', row := HandDown(id, i, n0, t0, elts, t1, t, h, lo, hi, old(log));
        HandedMore(Bounds(), inMemory, old(probes), probes1, probes, old(handed), handed1, handed);
        if !ok {
          DrainFailed(t1, Bounds(), dirty, old(log), log, t', forest);
          return;
        }
        HandedProbes(Bounds(), inMemory, asked, probes1, handed0, handed1);
        HandedProbes(Bounds(), inMemory, probes1, probes, handed1, handed);
        ghost var r := Round(t, i, |asked|, c', row);
        SameRound(r);
        RoundsMore(t1, rounds, Bounds(), inMemory, old(|probes|), asked, probes1, probes, r);
        rounds, asked := rounds + [r], probes;
      }
      ghost var t2 := t';
      result, t', forest := Settle(id, n0, t0, elts, t1, t2, h, lo, hi, old(log));
      LoopDone(t1, rounds, Bounds(), inMemory, old(|probes|), asked, probes, t2, t', forest);
    }

    /** Hands the whole batch to the one child it is for.  The source asserts that nothing
        is buffered for that child; `ok` is false when the assertion fails, here or further
        down. */
    method FlushDirect(id: NodeId, i: nat, elts: seq<Entry>, ghost n0: Store, ghost t0: Tree, ghost t1: Tree,
                       ghost h: nat, ghost lo: Bound, ghost hi: Bound)
      returns (ok: bool, ghost t': Tree, ghost c': Tree, ghost forest: seq<Pivot>)
      requires maxNodeSize >= 3 && IdsBelow(nodes, nextId) && h > 0 && t0.id == id
      requires Working(n0, t0, [], h, lo, hi, maxNodeSize, nodes, t1) && All(t1) == All(t0)
      requires i < |t1.pivots| && Sorted(elts) && Ordered(All(t0) + elts)
      requires Within(elts, At(t1.pivots[i].key), NextKey(t1.pivots, i, hi))
      modifies this`nodes, this`nextId, this`log, this`probes, this`handed
      ensures ok ==> IdsBelow(nodes, nextId)
      ensures ok ==> Flushed(n0, t0, elts, h, lo, hi, maxNodeSize, nodes, t', [])
      ensures Batch(AsNode(t1), i) != 0 ==> !ok && log == old(log) && t' == t1
      ensures Batch(AsNode(t1), i) != 0 ==> nodes == old(nodes)
      ensures Batch(AsNode(t1), i) == 0
              ==> Outcome(t1.pivots[i].child, elts, Bounds(), dirty, old(log), log, ok, c', forest)
      ensures Batch(AsNode(t1), i) == 0
              ==> Descent(t1.pivots[i].child, elts, Bounds(), dirty, old(log), log, ok, c', forest)
      ensures Batch(AsNode(t1), i) == 0 && !ok ==> Stuck(nodes, log)
      ensures Handed(Bounds(), inMemory, old(probes), probes, old(handed), handed)
      ensures ok ==> t' == Regrown(t1, i, c', forest, t1.elements) && t'.elements == t1.elements
      ensures ok ==> Size(t') == Size(t1) - 1 + |NewRow(t1.pivots[i], c', forest)|
      decreases h, 1
    {
      hide Rep, RepF, Once, Evolves, EvolvesF, EvolvesRow, Refines, WF, WFF, Flushed, ForChild, Within, Sorted, Ordered,
           ElementBegin, Outcome, Regrown, Descent, Stuck, Handed;
      NothingHanded(Bounds(), inMemory, probes, handed);
      t', c', forest := t1, t1, [];
      RepRoot(nodes, t1);
      WFNode(t1, h, lo, hi, maxNodeSize);
      var n := nodes[id];
      if ElementBegin(n, i) != ElementBegin(n, i + 1) {
        ok := false;
        return;
      }
      DirectForChild(t1, i, elts, h, lo, hi, maxNodeSize);
      ghost var nt := nodes;
      ok, t', c', forest := FlushChild(id, i, elts, n.elements, t1, h, lo, hi, t1.elements, []);
      if ok {
        RegrownSize(t1, i, c', forest, t1.elements);
        RegrownElements(t1, i, c', forest, t1.elements);
        WorkingDirect(n0, t0, elts, h, lo, hi, maxNodeSize, nt, t1, nodes, t');
        WorkingDone(n0, t0, elts, h, lo, hi, maxNodeSize, nodes, t');
      }
    }

    /** Flush into an internal node whose first pivot is at or below the batch. */
    method FlushInner(id: NodeId, elts: seq<Entry>, ghost n0: Store, ghost t0: Tree, ghost t1: Tree, ghost h: nat,
                      ghost lo: Bound, ghost hi: Bound)
      returns (ok: bool, result: seq<Ref>, ghost t': Tree, ghost forest: seq<Pivot>)
      requires maxNodeSize >= 3 && IdsBelow(nodes, nextId) && h > 0 && t0.id == id
      requires Working(n0, t0, [], h, lo, hi, maxNodeSize, nodes, t1) && All(t1) == All(t0)
      requires elts != [] && Sorted(elts) && Within(elts, lo, hi) && Ordered(All(t0) + elts)
      requires t1.pivots[0].key <= elts[0].mkey.key
      modifies this`nodes, this`nextId, this`log, this`probes, this`handed
      ensures ok ==> IdsBelow(nodes, nextId) && result == Refs(forest)
      ensures ok ==> Flushed(n0, t0, elts, h, lo, hi, maxNodeSize, nodes, t', forest)
      ensures Outcome(t1, elts, Bounds(), dirty, old(log), log, ok, t', forest)
      ensures Descent(t1, elts, Bounds(), dirty, old(log), log, ok, t', forest)
      ensures !ok ==> Stuck(nodes, log)
      ensures Handed(Bounds(), inMemory, old(probes), probes, old(handed), handed)
      ensures ok ==> Flow(t1, elts, Bounds(), dirty, inMemory, old(|log|), old(|probes|), probes, t', forest)
      ensures var direct := OneChild(AsNode(t1), elts) && dirty(old(|log|));
              && (direct && Trips(AsNode(t1), elts) ==> !ok && |log| == old(|log|) + 1)
              && (direct && ok ==> forest == [] && t'.elements == t1.elements)
              && (!direct && ok && forest == [] ==> Size(t') <= maxNodeSize)
      decreases h, 3
    {
      hide Rep, RepF, Once, Evolves, EvolvesF, EvolvesRow, Refines, WF, WFF, Flushed, ForChild, Within, Sorted, Ordered,
           ElementBegin, ApplyAll, SplitBound, Batch, Outcome, Drained, Regrown, Descent, Asked, LoweredFor, Handed,
           Looped;
      ok, result, forest, t' := true, [], [], t1;
      RepRoot(nodes, t1);
      var n := nodes[id];
      InnerBatch(t1, elts, h, lo, hi, maxNodeSize);
      LowEnough(t1, elts);
      var first := GetPivot(n.pivots, elts[0].mkey.key);
      var last := GetPivot(n.pivots, elts[|elts| - 1].mkey.key);
      var direct := false;
      if first == last {
        direct := AskDirty(id, elts);
      }
      if direct {
        var i := first.value;
        BatchOfPivot(t1.pivots, i, elts, lo, hi);
        ghost var c', row;
        ok, t', c', row := FlushDirect(id, i, elts, n0, t0, t1, h, lo, hi);
        if Trips(AsNode(t1), elts) {
          RefusedOutcome(t1, elts, Bounds(), dirty, old(log));
          RefusedDescent(t1, elts, Bounds(), dirty, old(log), t');
        } else {
          DirectOutcome(t1, i, elts, Bounds(), dirty, old(log), log, ok, c', row, t');
          DirectDescent(t1, i, elts, Bounds(), dirty, old(log), log, ok, c', row, t');
        }
      } else {
        BatchBuffered(n0, t0, elts, h, lo, hi, maxNodeSize, nodes, t1);
        BufferGrows(t1, elts, h, lo, hi, maxNodeSize);
        ApplyBatch(id, elts);
        ghost var e, log1 := ApplyAll(t1.elements, false, elts), log;
        ok, result, t', forest := Drain(id, n0, t0, elts, t1.(elements := e), h, lo, hi);
        SlowOutcome(t1, elts, e, Bounds(), dirty, old(log), log1, log, ok, t', forest);
        DrainedAsked(t1.(elements := e), Bounds(), dirty, log1, log, ok, t', forest);
        SlowDescent(t1, elts, Bounds(), dirty, old(log), log1, log, ok, t', forest);
      }
    }

    /** Receives a batch of new messages and flushes or splits as necessary. */
    method Flush(id: NodeId, elts: seq<Entry>, ghost t: Tree, ghost h: nat, ghost lo: Bound, ghost hi: Bound)
      returns (ok: bool, result: seq<Ref>, ghost t': Tree, ghost forest: seq<Pivot>)
      requires maxNodeSize >= 3 && IdsBelow(nodes, nextId)
      requires t.id == id && FlushPre(nodes, t, elts, h, lo, hi, maxNodeSize)
      modifies this`nodes, this`nextId, this`log, this`probes, this`handed
      ensures ok ==> IdsBelow(nodes, nextId) && result == Refs(forest)
      ensures ok ==> Flushed(old(nodes), t, elts, h, lo, hi, maxNodeSize, nodes, t', forest)
      ensures Outcome(t, elts, Bounds(), dirty, old(log), log, ok, t', forest)
      ensures Descent(t, elts, Bounds(), dirty, old(log), log, ok, t', forest)
      ensures !ok ==> Stuck(nodes, log)
      ensures Handed(Bounds(), inMemory, old(probes), probes, old(handed), handed)
      ensures ok ==> Flow(t, elts, Bounds(), dirty, inMemory, old(|log|), old(|probes|), probes, t', forest)
      decreases h, 4
    {
      hide Rep, RepF, Once, Evolves, EvolvesF, EvolvesRow, Refines, WF, WFF, Flushed, FlushPre, Working, ForChild,
           InsertRefs, EraseRef, PutRef, Within, Sorted, Ordered, ElementBegin, ApplyAll, SplitBound, Outcome, Descent,
           Stuck, Handed, LeafFlow, DirectFlow, Looped;
      NothingHanded(Bounds(), inMemory, probes, handed);
      ok, result, forest, t' := true, [], [], t;
      WorkingStart(nodes, t, elts, h, lo, hi, maxNodeSize);
      if |elts| == 0 {
        WorkingDone(nodes, t, elts, h, lo, hi, maxNodeSize, nodes, t);
        NothingFlushed(t, Bounds(), dirty, log);
        NothingDescends(t, Bounds(), dirty, log);
        return;
      }
      FlushRoot(nodes, t, elts, h, lo, hi, maxNodeSize);
      if nodes[id].pivots == [] {
        result, t', forest := FlushLeaf(id, elts, t, lo, hi);
        return;
      }
      // The first child's key comes down to the batch
      var newmin, oldmin := elts[0].mkey.key, nodes[id].pivots[0].key;
      ghost var t1 := t;
      if newmin < oldmin {
        WorkingLowered(nodes, t, elts, h, lo, hi, maxNodeSize);
        t1 := Lowered(t, newmin);
        var ps := PutRef(nodes[id].pivots, Ref(newmin, nodes[id].pivots[0].child));
        nodes := nodes[id := Node(EraseRef(ps, oldmin), nodes[id].elements)];
      }
      assert t1 == LoweredFor(t, elts);
      ok, result, t', forest := FlushInner(id, elts, old(nodes), t, t1, h, lo, hi);
      LoweredOutcome(t, elts, Bounds(), dirty, old(log), log, ok, t', forest);
      LoweredDescent(t, elts, Bounds(), dirty, old(log), log, ok, t', forest);
      if ok {
        LoweredFlow(t, elts, Bounds(), dirty, inMemory, old(|log|), old(|probes|), probes, t', forest);
      }
    }

    /** A new root over the pieces of the old one, which loses its only reference. */
    method NewRoot(result: seq<Ref>, ghost n0: Store, ghost t: Tree, ghost h: nat, ghost forest: seq<Pivot>)
      requires maxNodeSize >= 3 && IdsBelow(nodes, nextId) && result == Refs(forest) && root == t.id
      requires Rep(n0, t) && Exact(n0, t) && forest != [] && RepF(nodes, forest) && EvolvesF(n0, t, nodes, forest)
      requires t.id in nodes && WFF(forest, h, Open, Open, maxNodeSize)
      modifies this`nodes, this`nextId, this`root
      ensures IdsBelow(nodes, nextId) && root == old(nextId)
      ensures var t' := Tree(root, forest, []);
              && Rep(nodes, t') && Exact(nodes, t') && WF(t', h + 1, Open, Open, maxNodeSize) && All(t') == AllF(forest)
    {
      hide Rep, RepF, EvolvesF, WF, WFF, Exact, All, AllF;
      ghost var n1 := nodes;
      var rid := Allocate();
      var oldRoot := root;
      root := rid;
      nodes := nodes[rid := Node(result, [])];
      nodes := nodes - {oldRoot};
      Rooted(n0, t, n1, forest, rid, h, maxNodeSize);
      assert nodes == n1[rid := Node(Refs(forest), [])] - {t.id};
    }

    /** Adds one message at the root and handles a split of the root. */
    method Upsert(opcode: Opcode, k: Key, v: Value) returns (ok: bool)
      requires Valid() && nextTimestamp < UINT64_MAX
      modifies this
      ensures nextTimestamp == old(nextTimestamp) + 1
      ensures ok ==> Valid()
      ensures ok ==> forall x :: x != k ==> Meaning(x) == old(Meaning(x))
      ensures ok ==> Meaning(k) == Step(old(Meaning(k)), Message(opcode, v))
      ensures Upserted(old(tree), old(height), Entry(MessageKey(k, old(nextTimestamp)), Message(opcode, v)), Bounds(),
                       dirty, old(log), log, ok, tree, height)
      ensures !ok ==> Stuck(nodes, log) && tree == old(tree) && height == old(height)
      ensures Handed(Bounds(), inMemory, old(probes), probes, old(handed), handed)
      ensures ok ==> Flow(old(tree), [Entry(MessageKey(k, old(nextTimestamp)), Message(opcode, v))], Bounds(), dirty,
                          inMemory, old(|log|), old(|probes|), probes, tree,
                          if height == old(height) then [] else tree.pivots)
    {
      hide Rep, RepF, EvolvesF, Evolves, WF, WFF, Ordered, Eval, Flushed, FlushPre, Exact, Stamped, Outcome, Descent,
           Upserted, LoweredFor, Handed, Flow;
      ghost var t, h := tree, height;
      var e := Entry(MessageKey(k, nextTimestamp), Message(opcode, v));
      UpsertPre(nodes, t, e, h, maxNodeSize, nextTimestamp);
      nextTimestamp := nextTimestamp + 1;
      var new';
      ghost var t', forest;
      ok, new', t', forest := Flush(root, [e], t, h, Open, Open);
      if ok {
        UpsertMeaning(old(nodes), t, e, h, maxNodeSize, nodes, t', forest, old(nextTimestamp));
        if |new'| > 0 {
          FlushedForest(old(nodes), t, [e], h, Open, Open, maxNodeSize, nodes, t', forest);
          UpsertRooted(t, h, e, Bounds(), dirty, old(log), log, t', forest, nextId);
          NewRoot(new', old(nodes), t, h, forest);
          tree, height := Tree(root, forest, []), h + 1;
          FlowForest(t, [e], Bounds(), dirty, inMemory, old(|log|), old(|probes|), probes, t', tree, forest);
        } else {
          FlushedTree(old(nodes), t, [e], h, Open, Open, maxNodeSize, nodes, t', forest);
          UpsertKept(t, h, e, Bounds(), dirty, old(log), log, ok, t');
          tree := t';
        }
      } else {
        UpsertFailed(t, h, e, Bounds(), dirty, old(log), log, t', forest);
      }
    }

    /** The value a subtree holds at `k`, or nothing where the source throws out_of_range. */
    method QueryNode(id: NodeId, k: Key, ghost t: Tree, ghost h: nat, ghost lo: Bound, ghost hi: Bound)
      returns (r: Option<Value>)
      requires t.id == id && Rep(nodes, t) && WF(t, h, lo, hi, maxNodeSize) && Inside(k, Open, hi)
      ensures r == Eval(None, All(t), k)
      decreases h, 1
    {
      hide Eval, WF, WFF, KeyLow, KeyHigh, Sorted;
      RepRoot(nodes, t);
      RootShape(t, h, lo, hi, maxNodeSize);
      var n := nodes[id];
      if n.pivots == [] {
        LeafValue(t, lo, hi, k);
        var it := KeyLow(n.elements, k);
        if it < |n.elements| && n.elements[it].mkey.key == k {
          assert n.elements[it].msg.opcode == INSERT;
          return Some(n.elements[it].msg.val);
        } else {
          return None;
        }
      }
      WFNode(t, h, lo, hi, maxNodeSize);
      KeySpan(t.elements, k);
      InnerValue(t, h, lo, hi, maxNodeSize, k);
      ghost var below := Eval(None, AllF(t.pivots), k);
      var it := KeyLow(n.elements, k);
      ghost var l, u := it, KeyHigh(n.elements, k);
      assert n.elements[l..l] == [];
      EvalAbsent(below, [], k);
      var v := Default;
      if it == |n.elements| || k < n.elements[it].mkey.key {
        // No messages for this key here
        var c := QueryChild(n, k, t, h, lo, hi);
        if c.None? {
          return None;
        }
        v := c.value;
      } else if n.elements[it].msg.opcode == UPDATE {
        var c := QueryChild(n, k, t, h, lo, hi);
        if c.Some? {
          v := c.value;
        }
      } else if n.elements[it].msg.opcode == DELETE {
        EvalSlice(below, n.elements, l, it, k);
        it := it + 1;
        if it == |n.elements| || k < n.elements[it].mkey.key {
          return None;
        }
      } else {
        EvalSlice(below, n.elements, l, it, k);
        v := n.elements[it].msg.val;
        it := it + 1;
      }
      while it < |n.elements| && n.elements[it].mkey.key == k
        invariant l <= it <= u
        invariant v == OrDefault(Eval(below, n.elements[l..it], k))
        invariant it > l || n.elements[l..u] == [] || n.elements[it].msg.opcode == UPDATE
        invariant Eval(below, n.elements[l..it], k).Some? || it < u
      {
        assert n.elements[it].msg.opcode == UPDATE;
        EvalSlice(below, n.elements, l, it, k);
        v := Plus(v, n.elements[it].msg.val);
        it := it + 1;
      }
      return Some(v);
    }

    /** The value of the child a key belongs to. */
    method QueryChild(n: Node, k: Key, ghost t: Tree, ghost h: nat, ghost lo: Bound, ghost hi: Bound)
      returns (r: Option<Value>)
      requires h > 0 && Rep(nodes, t) && WF(t, h, lo, hi, maxNodeSize) && n == AsNode(t) && Inside(k, Open, hi)
      ensures r == Eval(None, AllF(t.pivots), k)
      decreases h, 0
    {
      hide Eval, WF, WFF, Rep;
      WFNode(t, h, lo, hi, maxNodeSize);
      var i := GetPivot(n.pivots, k);
      if i.None? {
        ForestNothing(t.pivots, h - 1, lo, hi, maxNodeSize, k);
        return None;
      }
      ghost var next := NextKey(t.pivots, i.value, hi);
      ChildOf(nodes, t, i.value, h, lo, hi, maxNodeSize);
      r := QueryNode(n.pivots[i.value].child, k, t.pivots[i.value].child, h - 1, At(t.pivots[i.value].key), next);
      ForestValue(t.pivots, i.value, h - 1, lo, hi, maxNodeSize, k);
    }

    /** betree::query: the value at `k`, or nothing when the key does not exist. */
    method Query(k: Key) returns (r: Option<Value>)
      requires Valid()
      ensures r == Meaning(k)
    {
      r := QueryNode(root, k, tree, height, Open, Open);
    }

    /** The least message after `from` in a subtree; nothing where the source throws. */
    method GetNextMessage(id: NodeId, from: Option<MessageKey>, ghost t: Tree, ghost h: nat, ghost lo: Bound,
                          ghost hi: Bound)
      returns (r: Option<Entry>)
      requires t.id == id && Rep(nodes, t) && WF(t, h, lo, hi, maxNodeSize)
      ensures IsNext(All(t), from, r)
      decreases h, 1
    {
      hide WF, WFF, Rep, IsNext, Sorted;
      RepRoot(nodes, t);
      RootShape(t, h, lo, hi, maxNodeSize);
      var n := nodes[id];
      var own := BufferNext(n.elements, from);
      if n.pivots == [] {
        BufferNextIsNext(n.elements, from);
        assert All(t) == AllF([]) + t.elements == t.elements;
        return own;
      }
      WFNode(t, h, lo, hi, maxNodeSize);
      BufferNextIsNext(n.elements, from);
      var kids := GetNextMessageFromChildren(n, from, t, h, lo, hi);
      NextMerge(AllF(t.pivots), t.elements, from, kids, own);
      if own.None? {
        return kids;
      }
      return Some(Earlier(kids, own.value));
    }

    method GetNextMessageFromChildren(n: Node, from: Option<MessageKey>, ghost t: Tree, ghost h: nat, ghost lo: Bound,
                                      ghost hi: Bound)
      returns (r: Option<Entry>)
      requires h > 0 && Rep(nodes, t) && WF(t, h, lo, hi, maxNodeSize) && n == AsNode(t)
      ensures IsNext(AllF(t.pivots), from, r)
      decreases h, 0
    {
      hide WF, WFF, Rep, IsNext, NoneAfter, Within, Sorted;
      WFNode(t, h, lo, hi, maxNodeSize);
      var from' := from;
      if from.Some? && from.value.key < n.pivots[0].key {
        from' := None;
      }
      var i := 0;
      if from'.Some? {
        i := GetPivot(n.pivots, from'.value.key).value;
        NothingLeft(t.pivots, i, h - 1, lo, hi, maxNodeSize, from'.value);
      } else {
        NothingAtAll(t.pivots, from');
      }
      r := None;
      while i < |n.pivots| && r.None?
        invariant i <= |n.pivots|
        invariant r.None? ==> NoneAfter(AllF(t.pivots[..i]), from')
        invariant r.Some? ==> IsNext(AllF(t.pivots), from', r)
        decreases |n.pivots| - i, r.None?
      {
        ChildOf(nodes, t, i, h, lo, hi, maxNodeSize);
        r := GetNextMessage(n.pivots[i].child, from', t.pivots[i].child, h - 1,
                            At(t.pivots[i].key), NextKey(t.pivots, i, hi));
        if r.Some? {
          NextFromChild(t.pivots, i, h - 1, lo, hi, maxNodeSize, from', r.value);
        } else {
          NextNone(All(t.pivots[i].child), from');
          NoneAfterStep(t.pivots, i, from');
          i := i + 1;
        }
      }
      if r.None? {
        assert t.pivots[..i] == t.pivots;
        NextNone(AllF(t.pivots), from');
      }
      if from' != from {
        ForestWithin(t.pivots, h - 1, lo, hi, maxNodeSize);
        NextFromStart(AllF(t.pivots), from.value, n.pivots[0].key, hi, r);
      }
    }
  }
}
