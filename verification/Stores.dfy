/** Nodes as the program keeps them: a table from node ids to nodes whose pivots hold
    child ids, and how such a table holds a tree. */
module Stores {
  import opened Base
  import opened Messages
  import opened Buffer
  import opened Trees

  /** A pivot as stored: its key and the id of the child it points to. */
  datatype Ref = Ref(key: Key, child: NodeId)

  datatype Node = Node(pivots: seq<Ref>, elements: seq<Entry>)

  type Store = map<NodeId, Node>

  ghost function Refs(ps: seq<Pivot>): seq<Ref> {
    seq(|ps|, i requires 0 <= i < |ps| => Ref(ps[i].key, ps[i].child.id))
  }

  lemma RefsConcat(a: seq<Pivot>, b: seq<Pivot>)
    ensures Refs(a + b) == Refs(a) + Refs(b)
  {
  }

  /** `nodes` holds the tree `t`, node for node. */
  ghost predicate Rep(nodes: Store, t: Tree)
    decreases t
  {
    && t.id in nodes
    && nodes[t.id] == Node(Refs(t.pivots), t.elements)
    && forall i :: 0 <= i < |t.pivots| ==> Rep(nodes, t.pivots[i].child)
  }

  ghost predicate RepF(nodes: Store, ps: seq<Pivot>) {
    forall i :: 0 <= i < |ps| ==> Rep(nodes, ps[i].child)
  }

  // ---------- Occurrences of an id ----------

  /** How often node id `x` occurs in a tree. */
  ghost function Count(t: Tree, x: NodeId): nat
    decreases t, 1
  {
    (if t.id == x then 1 else 0) + CountF(t.pivots, x)
  }

  ghost function CountF(ps: seq<Pivot>, x: NodeId): nat
    decreases ps, 0
  {
    if ps == [] then 0
    else
      assert ps[0] in ps && ps[0].child < ps[0];
      Count(ps[0].child, x) + CountF(ps[1..], x)
  }

  lemma {:induction false} CountFConcat(a: seq<Pivot>, b: seq<Pivot>, x: NodeId)
    ensures CountF(a + b, x) == CountF(a, x) + CountF(b, x)
    decreases |a|
  {
    if a == [] {
      assert a + b == b;
    } else {
      assert (a + b)[1..] == a[1..] + b;
      CountFConcat(a[1..], b, x);
    }
  }

  lemma {:induction false} CountFOne(p: Pivot, x: NodeId)
    ensures CountF([p], x) == Count(p.child, x)
  {
  }

  lemma {:induction false} CountFAt(ps: seq<Pivot>, i: nat, x: NodeId)
    requires i < |ps|
    ensures Count(ps[i].child, x) <= CountF(ps, x)
  {
    assert ps == ps[..i] + [ps[i]] + ps[i + 1..];
    CountFConcat(ps[..i] + [ps[i]], ps[i + 1..], x);
    CountFConcat(ps[..i], [ps[i]], x);
    CountFOne(ps[i], x);
  }

  ghost function Held(nodes: Store, x: NodeId): nat {
    if x in nodes then 1 else 0
  }

  /** The table agrees with the old one on every node of `t`. */
  ghost predicate AgreeOn(n: Store, n': Store, t: Tree) {
    forall x :: Count(t, x) > 0 && x in n ==> x in n' && n'[x] == n[x]
  }

  lemma {:induction false} RepFrame(n: Store, n': Store, t: Tree)
    requires Rep(n, t) && AgreeOn(n, n', t)
    ensures Rep(n', t)
    decreases t
  {
    assert Count(t, t.id) > 0;
    forall i | 0 <= i < |t.pivots| ensures Rep(n', t.pivots[i].child) {
      forall x | Count(t.pivots[i].child, x) > 0 && x in n ensures x in n' && n'[x] == n[x] {
        CountFAt(t.pivots, i, x);
      }
      RepFrame(n, n', t.pivots[i].child);
    }
  }

  lemma {:induction false} RepFFrame(n: Store, n': Store, ps: seq<Pivot>)
    requires RepF(n, ps)
    requires forall x :: CountF(ps, x) > 0 && x in n ==> x in n' && n'[x] == n[x]
    ensures RepF(n', ps)
  {
    forall i | 0 <= i < |ps| ensures Rep(n', ps[i].child) {
      forall x | Count(ps[i].child, x) > 0 && x in n ensures x in n' && n'[x] == n[x] {
        CountFAt(ps, i, x);
      }
      RepFrame(n, n', ps[i].child);
    }
  }

  // ---------- Steps of the table ----------

  /** No id occurs twice in `t`. */
  ghost predicate Once(nodes: Store, t: Tree) {
    forall x :: Count(t, x) <= Held(nodes, x)
  }

  /** Outside the tree nothing changed, and ids come and go only with the tree's nodes. */
  ghost predicate Evolves(n: Store, t: Tree, n': Store, t': Tree) {
    && (forall x :: Held(n', x) + Count(t, x) == Held(n, x) + Count(t', x))
    && (forall x :: x in n && Count(t, x) == 0 ==> x in n' && n'[x] == n[x])
  }

  /** The same when the tree at `t.id` was emptied in favour of `forest`. */
  ghost predicate EvolvesF(n: Store, t: Tree, n': Store, forest: seq<Pivot>) {
    && (forall x :: Held(n', x) + Count(t, x)
                 == Held(n, x) + CountF(forest, x) + (if x == t.id then 1 else 0))
    && (forall x :: x in n && Count(t, x) == 0 ==> x in n' && n'[x] == n[x])
  }

  lemma {:induction false} EvolvesTransitive(n0: Store, t0: Tree, n1: Store, t1: Tree, n2: Store, t2: Tree)
    requires Evolves(n0, t0, n1, t1) && Evolves(n1, t1, n2, t2)
    ensures Evolves(n0, t0, n2, t2)
  {
  }

  lemma {:induction false} RepHeld(n: Store, t: Tree, x: NodeId)
    requires Rep(n, t) && Count(t, x) > 0
    ensures x in n
    decreases t, 1
  {
    if t.id != x {
      RepFHeld(n, t.pivots, x);
    }
  }

  lemma {:induction false} RepFHeld(n: Store, ps: seq<Pivot>, x: NodeId)
    requires RepF(n, ps) && CountF(ps, x) > 0
    ensures x in n
    decreases ps, 0
  {
    assert ps[0] in ps && ps[0].child < ps[0];
    if Count(ps[0].child, x) > 0 {
      RepHeld(n, ps[0].child, x);
    } else {
      RepFHeld(n, ps[1..], x);
    }
  }

  /** One child's nodes gave way to those of the row `ps`. */
  ghost predicate EvolvesRow(n: Store, c: Tree, n': Store, ps: seq<Pivot>) {
    && (forall x :: Held(n', x) + Count(c, x) == Held(n, x) + CountF(ps, x))
    && (forall x :: x in n && Count(c, x) == 0 ==> x in n' && n'[x] == n[x])
  }

  /** Dropping the last reference to a child that was split frees exactly its own,
      emptied node. */
  lemma {:induction false} FreeSplit(n: Store, c: Tree, n': Store, forest: seq<Pivot>)
    requires Rep(n, c) && Once(n, c) && EvolvesF(n, c, n', forest) && RepF(n', forest) && c.id in n'
    ensures EvolvesRow(n, c, n' - {c.id}, forest)
    ensures RepF(n' - {c.id}, forest)
  {
    assert CountF(forest, c.id) == 0 by {
      assert Count(c, c.id) >= 1 && Count(c, c.id) <= Held(n, c.id);
      assert Held(n', c.id) + Count(c, c.id) == Held(n, c.id) + CountF(forest, c.id) + 1;
    }
    RepFFrame(n', n' - {c.id}, forest);
    forall x ensures Held(n' - {c.id}, x) + Count(c, x) == Held(n, x) + CountF(forest, x) {
      assert Held(n', x) + Count(c, x) == Held(n, x) + CountF(forest, x) + (if x == c.id then 1 else 0);
    }
    forall x | x in n && Count(c, x) == 0 ensures x in n' - {c.id} && (n' - {c.id})[x] == n[x] {
      assert x != c.id;
    }
  }

  lemma {:induction false} KeptChild(n: Store, c: Pivot, n': Store, c': Tree)
    requires Evolves(n, c.child, n', c') && Rep(n', c')
    ensures EvolvesRow(n, c.child, n', [Pivot(c.key, c')])
    ensures RepF(n', [Pivot(c.key, c')])
  {
  }

  lemma {:induction false} CountRow(a: seq<Pivot>, ps: seq<Pivot>, b: seq<Pivot>, x: NodeId)
    ensures CountF(a + ps + b, x) == CountF(a, x) + CountF(ps, x) + CountF(b, x)
  {
    CountFConcat(a + ps, b, x);
    CountFConcat(a, ps, x);
  }

  /** Writing the parent after one of its children became the row `ps`. */
  lemma {:induction false} RowStored(n: Store, t: Tree, i: nat, n': Store, ps: seq<Pivot>, e: seq<Entry>)
    requires Rep(n, t) && Once(n, t) && i < |t.pivots|
    requires EvolvesRow(n, t.pivots[i].child, n', ps) && RepF(n', ps)
    ensures var qs := t.pivots[..i] + ps + t.pivots[i + 1..];
            var n'' := n'[t.id := Node(Refs(qs), e)];
            Rep(n'', Tree(t.id, qs, e)) && Evolves(n, t, n'', Tree(t.id, qs, e)) && t.id in n'
  {
    hide Rep, CountF, RepF, Refs;
    var a, c, b := t.pivots[..i], t.pivots[i], t.pivots[i + 1..];
    assert t.pivots == a + [c] + b;
    var qs := a + ps + b;
    var n'' := n'[t.id := Node(Refs(qs), e)];
    var t' := Tree(t.id, qs, e);
    forall x ensures Count(t, x) == (if x == t.id then 1 else 0) + CountF(a, x) + Count(c.child, x) + CountF(b, x)
             ensures Count(t', x) == (if x == t.id then 1 else 0) + CountF(a, x) + CountF(ps, x) + CountF(b, x)
    {
      CountRow(a, [c], b, x);
      CountFOne(c, x);
      CountRow(a, ps, b, x);
    }
    assert t.id in n by {
      RepHeld(n, t, t.id);
    }
    RowSeparate(n, t, a, c, b, n', ps);
    RepFFrame(n', n'', a);
    RepFFrame(n', n'', b);
    RepFFrame(n', n'', ps);
    RowRep(n'', t', a, ps, b);
  }

  lemma {:induction false} RowRep(n: Store, t: Tree, a: seq<Pivot>, ps: seq<Pivot>, b: seq<Pivot>)
    requires t.pivots == a + ps + b && RepF(n, a) && RepF(n, ps) && RepF(n, b)
    requires t.id in n && n[t.id] == Node(Refs(t.pivots), t.elements)
    ensures Rep(n, t)
  {
  }

  lemma {:induction false} RowSeparate(n: Store, t: Tree, a: seq<Pivot>, c: Pivot, b: seq<Pivot>, n': Store,
                                       ps: seq<Pivot>)
    requires Rep(n, t) && Once(n, t) && t.pivots == a + [c] + b
    requires EvolvesRow(n, c.child, n', ps) && RepF(n', ps)
    requires forall x :: Count(t, x) == (if x == t.id then 1 else 0) + CountF(a, x) + Count(c.child, x) + CountF(b, x)
    ensures RepF(n', a) && RepF(n', b)
    ensures t.id in n' && n'[t.id] == n[t.id]
    ensures CountF(a, t.id) == 0 && CountF(b, t.id) == 0 && CountF(ps, t.id) == 0
  {
    assert Count(t, t.id) <= Held(n, t.id);
    assert Held(n', t.id) + Count(c.child, t.id) == Held(n, t.id) + CountF(ps, t.id);
    assert RepF(n, a) && RepF(n, b) by {
      assert forall i :: 0 <= i < |a| ==> t.pivots[i] == a[i];
      assert forall i :: 0 <= i < |b| ==> t.pivots[|a| + 1 + i] == b[i];
    }
    forall x | CountF(a, x) > 0 && x in n ensures x in n' && n'[x] == n[x] {
      assert Count(t, x) <= Held(n, x);
    }
    forall x | CountF(b, x) > 0 && x in n ensures x in n' && n'[x] == n[x] {
      assert Count(t, x) <= Held(n, x);
    }
    RepFFrame(n, n', a);
    RepFFrame(n, n', b);
  }

  // ---------- Pivot maps ----------

  ghost predicate RefsSorted(ps: seq<Ref>) {
    forall i, j :: 0 <= i < j < |ps| ==> ps[i].key < ps[j].key
  }

  /** std::map::lower_bound on pivots. */
  function RefBound(ps: seq<Ref>, k: Key): (r: nat)
    ensures r <= |ps|
    ensures forall i :: 0 <= i < r ==> ps[i].key < k
    ensures r < |ps| ==> ps[r].key >= k
  {
    if ps == [] || ps[0].key >= k then 0 else 1 + RefBound(ps[1..], k)
  }

  /** The pivot a key belongs to, or nothing (std::out_of_range) when the key is
      smaller than every pivot. */
  function GetPivot(ps: seq<Ref>, k: Key): (r: Option<nat>)
    requires ps != []
    ensures r.None? ==> k < ps[0].key
    ensures r.Some? ==> r.value < |ps| && ps[r.value].key <= k
    ensures r.Some? && RefsSorted(ps) && r.value + 1 < |ps| ==> k < ps[r.value + 1].key
  {
    var p := RefBound(ps, k);
    if p == 0 && k < ps[0].key then None
    else if p == |ps| || k < ps[p].key then Some(p - 1)
    else Some(p)
  }

  /** std::map::insert of one pivot: an existing key keeps its child. */
  function InsertRef(ps: seq<Ref>, r: Ref): seq<Ref> {
    var p := RefBound(ps, r.key);
    if p < |ps| && ps[p].key == r.key then ps else ps[..p] + [r] + ps[p..]
  }

  /** std::map::operator[] assignment of one pivot: an existing key changes its child. */
  function PutRef(ps: seq<Ref>, r: Ref): seq<Ref> {
    var p := RefBound(ps, r.key);
    if p < |ps| && ps[p].key == r.key then ps[p := r] else ps[..p] + [r] + ps[p..]
  }

  /** pivots.insert(new_children.begin(), new_children.end()). */
  function InsertRefs(ps: seq<Ref>, rs: seq<Ref>): seq<Ref> {
    if rs == [] then ps else InsertRef(InsertRefs(ps, rs[..|rs| - 1]), rs[|rs| - 1])
  }

  lemma {:induction false} InsertRefBetween(a: seq<Ref>, r: Ref, b: seq<Ref>)
    requires RefsSorted(a + [r] + b)
    ensures InsertRef(a + b, r) == a + [r] + b
    ensures RefsSorted(a + b)
  {
    var s, s' := a + [r] + b, a + b;
    assert forall i :: 0 <= i < |s'| ==> s'[i] == s[if i < |a| then i else i + 1];
    assert s[|a|] == r;
    assert forall i :: 0 <= i < |a| ==> s'[i] == s[i] && s[i].key < r.key;
    assert b != [] ==> s'[|a|] == s[|a| + 1] && r.key < s'[|a|].key;
    assert RefBound(s', r.key) == |a|;
    assert s'[..|a|] == a && s'[|a|..] == b;
  }

  /** Every inserted pivot that fits between its neighbours is kept, in order. */
  lemma {:induction false} InsertRefsSplice(a: seq<Ref>, rs: seq<Ref>, b: seq<Ref>)
    requires RefsSorted(a + rs + b)
    ensures InsertRefs(a + b, rs) == a + rs + b
    decreases |rs|
  {
    hide RefsSorted, InsertRef;
    if rs == [] {
      assert a + rs + b == a + b;
    } else {
      var rs', r := rs[..|rs| - 1], rs[|rs| - 1];
      assert a + rs + b == a + rs' + [r] + b;
      InsertRefBetween(a + rs', r, b);
      InsertRefsSplice(a, rs', b);
    }
  }

  // ---------- The messages for one child ----------

  /** get_element_begin of pivot `i`; one past the last pivot means elements.end(). */
  function ElementBegin(n: Node, i: nat): (r: nat)
    requires i <= |n.pivots|
    ensures r <= |n.elements|
  {
    if i < |n.pivots| then KeyLow(n.elements, n.pivots[i].key) else |n.elements|
  }

  lemma {:induction false} ElementBeginMono(n: Node, i: nat, j: nat)
    requires RefsSorted(n.pivots) && Sorted(n.elements) && i <= j <= |n.pivots|
    ensures ElementBegin(n, i) <= ElementBegin(n, j)
  {
  }

  /** How many buffered messages are for child `i`. */
  function Batch(n: Node, i: nat): int
    requires i < |n.pivots|
  {
    ElementBegin(n, i + 1) - ElementBegin(n, i)
  }

  ghost predicate NodeSorted(n: Node) {
    RefsSorted(n.pivots) && Sorted(n.elements)
  }

  /** std::map::erase of a key. */
  function EraseRef(ps: seq<Ref>, k: Key): seq<Ref> {
    var p := RefBound(ps, k);
    if p < |ps| && ps[p].key == k then ps[..p] + ps[p + 1..] else ps
  }

  lemma {:induction false} EraseRefAt(ps: seq<Ref>, i: nat)
    requires RefsSorted(ps) && i < |ps|
    ensures EraseRef(ps, ps[i].key) == ps[..i] + ps[i + 1..]
  {
  }

  /** pivots[newmin] = pivots[oldmin]; pivots.erase(oldmin). */
  lemma {:induction false} LowerRefs(ps: seq<Ref>, k: Key)
    requires RefsSorted(ps) && ps != [] && k < ps[0].key
    ensures EraseRef(PutRef(ps, Ref(k, ps[0].child)), ps[0].key) == [Ref(k, ps[0].child)] + ps[1..]
  {
  }

  // ---------- Writing a node's buffer ----------

  lemma {:induction false} ChildrenApart(n: Store, t: Tree)
    requires Rep(n, t) && Once(n, t)
    ensures CountF(t.pivots, t.id) == 0 && RepF(n, t.pivots)
  {
    assert Count(t, t.id) <= Held(n, t.id);
  }

  lemma {:induction false} BufferStored(n: Store, t: Tree, e: seq<Entry>)
    requires Rep(n, t) && Once(n, t)
    ensures var n', t' := n[t.id := Node(Refs(t.pivots), e)], t.(elements := e);
            Rep(n', t') && Evolves(n, t, n', t')
  {
    var n', t' := n[t.id := Node(Refs(t.pivots), e)], t.(elements := e);
    ChildrenApart(n, t);
    RepFFrame(n, n', t.pivots);
    assert t.pivots == [] + t.pivots + [];
    RowRep(n', t', [], t.pivots, []);
  }

  lemma {:induction false} OnceKept(n: Store, t: Tree, n': Store, t': Tree)
    requires Once(n, t) && Evolves(n, t, n', t')
    ensures Once(n', t')
  {
  }

  lemma {:induction false} OnceChild(n: Store, t: Tree, i: nat)
    requires Rep(n, t) && Once(n, t) && i < |t.pivots|
    ensures Rep(n, t.pivots[i].child) && Once(n, t.pivots[i].child)
  {
    forall x: NodeId ensures Count(t.pivots[i].child, x) <= Held(n, x) {
      CountFAt(t.pivots, i, x);
    }
  }

  lemma {:induction false} EvolvesThenSplit(n0: Store, t0: Tree, n1: Store, t1: Tree, n2: Store, forest: seq<Pivot>)
    requires Evolves(n0, t0, n1, t1) && EvolvesF(n1, t1, n2, forest) && t0.id == t1.id
    ensures EvolvesF(n0, t0, n2, forest)
  {
  }

  lemma {:induction false} RowUnchanged(n: Store, c: Tree, k: Key)
    requires Rep(n, c)
    ensures EvolvesRow(n, c, n, [Pivot(k, c)]) && RepF(n, [Pivot(k, c)])
  {
  }
}
