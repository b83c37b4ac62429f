/** What reading the tree relies on: where a key's messages are, and what they fold to. */
module Reading {
  import opened Base
  import opened Messages
  import opened Buffer
  import opened Trees

  // ---------- Queries ----------

  /** Only the messages for `k` matter, and in a sorted buffer they stand together. */
  lemma {:induction false} EvalSpan(o: Option<Value>, s: seq<Entry>, k: Key)
    requires Sorted(s)
    ensures KeyLow(s, k) <= KeyHigh(s, k)
    ensures Eval(o, s, k) == Eval(o, s[KeyLow(s, k)..KeyHigh(s, k)], k)
  {
    hide Eval, Sorted, KeyLow, KeyHigh, Absent;
    KeySpan(s, k);
    var l, h := KeyLow(s, k), KeyHigh(s, k);
    var a, m, b := s[..l], s[l..h], s[h..];
    assert s == a + m + b;
    EvalConcat(o, a + m, b, k);
    EvalConcat(o, a, m, k);
    AbsentOutside(a, k);
    AbsentOutside(b, k);
    EvalAbsent(o, a, k);
    EvalAbsent(Eval(o, m, k), b, k);
  }

  lemma {:induction false} EvalOne(o: Option<Value>, e: Entry, k: Key)
    ensures Eval(o, [e], k) == if e.mkey.key == k then Step(o, e.msg) else o
  {
  }

  lemma {:induction false} EvalSlice(o: Option<Value>, s: seq<Entry>, l: nat, i: nat, k: Key)
    requires l <= i < |s| && s[i].mkey.key == k
    ensures Eval(o, s[l..i + 1], k) == Step(Eval(o, s[l..i], k), s[i].msg)
  {
    assert s[l..i + 1] == s[l..i] + [s[i]];
    EvalConcat(o, s[l..i], [s[i]], k);
    EvalOne(Eval(o, s[l..i], k), s[i], k);
  }

  /** A leaf holds at most one message for a key. */
  lemma {:induction false} LeafSpan(e: seq<Entry>, k: Key)
    requires Sorted(e) && Shape(e, true)
    ensures KeyLow(e, k) <= KeyHigh(e, k) <= KeyLow(e, k) + 1
    ensures KeyLow(e, k) < KeyHigh(e, k) <==> KeyLow(e, k) < |e| && e[KeyLow(e, k)].mkey.key == k
  {
    hide Sorted, KeyLow, KeyHigh;
    KeySpan(e, k);
    var l := KeyLow(e, k);
    assert l + 1 < |e| ==> e[l].mkey.key != e[l + 1].mkey.key;
  }

  /** A leaf holds the value itself, or nothing. */
  lemma {:induction false} LeafValue(t: Tree, lo: Bound, hi: Bound, k: Key)
    requires Leaf(t, lo, hi)
    ensures var e, it := t.elements, KeyLow(t.elements, k);
            && Eval(None, All(t), k) == (if it < |e| && e[it].mkey.key == k then Some(e[it].msg.val) else None)
            && (it < |e| ==> e[it].msg.opcode == INSERT)
  {
    hide Eval, Sorted, KeyLow, KeyHigh, Within;
    var e, l, h := t.elements, KeyLow(t.elements, k), KeyHigh(t.elements, k);
    assert All(t) == AllF([]) + e == e;
    EvalSpan(None, e, k);
    LeafSpan(e, k);
    if l < h {
      assert e[l..h] == [e[l]];
      EvalOne(None, e[l], k);
    } else {
      assert e[l..h] == [];
      EvalAbsent(None, [], k);
    }
  }

  /** What the children hold at `k` is what the child its pivot leads to holds. */
  lemma {:induction false} ForestValue(ps: seq<Pivot>, i: nat, h: nat, lo: Bound, hi: Bound, max: nat, k: Key)
    requires WFF(ps, h, lo, hi, max) && i < |ps| && Inside(k, At(ps[i].key), NextKey(ps, i, hi))
    ensures Eval(None, AllF(ps), k) == Eval(None, All(ps[i].child), k)
  {
    var a, c, b := ps[..i], ps[i], ps[i + 1..];
    assert ps == a + [c] + b;
    assert NextKey([c] + b, 0, hi) == NextKey(ps, i, hi);
    RowWithout(a, c, b, h, lo, hi, max);
    AllFConcat(a + [c], b);
    AllFConcat(a, [c]);
    AllFOne(c);
    EvalConcat(None, AllF(a) + All(c.child), AllF(b), k);
    EvalConcat(None, AllF(a), All(c.child), k);
    EvalAbsent(None, AllF(a), k);
    EvalAbsent(Eval(None, All(c.child), k), AllF(b), k);
  }

  /** Nothing is held at a key smaller than every pivot. */
  lemma {:induction false} ForestNothing(ps: seq<Pivot>, h: nat, lo: Bound, hi: Bound, max: nat, k: Key)
    requires WFF(ps, h, lo, hi, max) && ps != [] && k < ps[0].key
    ensures Eval(None, AllF(ps), k) == None
  {
    ForestWithin(ps, h, lo, hi, max);
    EvalAbsent(None, AllF(ps), k);
  }

  /** A node's value at `k`: its own messages over what its children hold. */
  lemma {:induction false} InnerValue(t: Tree, h: nat, lo: Bound, hi: Bound, max: nat, k: Key)
    requires h > 0 && WF(t, h, lo, hi, max)
    ensures var l, u := KeyLow(t.elements, k), KeyHigh(t.elements, k);
            && l <= u
            && Eval(None, All(t), k) == Eval(Eval(None, AllF(t.pivots), k), t.elements[l..u], k)
  {
    EvalConcat(None, AllF(t.pivots), t.elements, k);
    EvalSpan(Eval(None, AllF(t.pivots), k), t.elements, k);
  }

  function OrDefault(o: Option<Value>): Value {
    if o.Some? then o.value else Default
  }

  // ---------- The next message ----------

  /** `m` comes after the optional start `from` (none: from the very beginning). */
  predicate After(from: Option<MessageKey>, m: MessageKey) {
    from.Some? ==> Less(from.value, m)
  }

  ghost predicate NoneAfter(s: seq<Entry>, from: Option<MessageKey>) {
    forall m :: m in MKeys(s) ==> !After(from, m)
  }

  /** `r` is the least message of `s` after `from`, or there is none. */
  ghost predicate IsNext(s: seq<Entry>, from: Option<MessageKey>, r: Option<Entry>) {
    if r.None? then NoneAfter(s, from)
    else
      && r.value in s && After(from, r.value.mkey)
      && forall m :: m in MKeys(s) && After(from, m) ==> !Less(m, r.value.mkey)
  }

  function BufferNext(e: seq<Entry>, from: Option<MessageKey>): Option<Entry> {
    var it := if from.Some? then UpperBound(e, from.value) else 0;
    if it == |e| then None else Some(e[it])
  }

  lemma {:induction false} BufferNextIsNext(e: seq<Entry>, from: Option<MessageKey>)
    requires Sorted(e)
    ensures IsNext(e, from, BufferNext(e, from))
  {
  }

  /** The smaller of the children's and the node's own next message. */
  function Earlier(kids: Option<Entry>, own: Entry): Entry {
    if kids.Some? && Less(kids.value.mkey, own.mkey) then kids.value else own
  }

  lemma {:induction false} NextMerge(a: seq<Entry>, b: seq<Entry>, from: Option<MessageKey>,
                                     kids: Option<Entry>, own: Option<Entry>)
    requires IsNext(a, from, kids) && IsNext(b, from, own)
    ensures IsNext(a + b, from, if own.None? then kids else Some(Earlier(kids, own.value)))
  {
  }

  /** A start below every message is as good as none. */
  lemma {:induction false} NextFromStart(s: seq<Entry>, from: MessageKey, lo: Key, hi: Bound, r: Option<Entry>)
    requires Within(s, At(lo), hi) && from.key < lo && IsNext(s, None, r)
    ensures IsNext(s, Some(from), r)
  {
  }

  /** Children left of the pivot a start belongs to have nothing after it. */
  lemma {:induction false} NothingLeft(ps: seq<Pivot>, i: nat, h: nat, lo: Bound, hi: Bound, max: nat, from: MessageKey)
    requires WFF(ps, h, lo, hi, max) && i < |ps| && ps[i].key <= from.key
    ensures NoneAfter(AllF(ps[..i]), Some(from))
  {
    assert ps == ps[..i] + ps[i..];
    WFFCut(ps[..i], ps[i..], h, lo, hi, max);
    AllFWithin(ps[..i], h, lo, At(ps[i].key), max);
  }

  lemma {:induction false} NoneAfterStep(ps: seq<Pivot>, i: nat, from: Option<MessageKey>)
    requires i < |ps| && NoneAfter(AllF(ps[..i]), from) && NoneAfter(All(ps[i].child), from)
    ensures NoneAfter(AllF(ps[..i + 1]), from)
  {
    assert ps[..i + 1] == ps[..i] + [ps[i]];
    AllFConcat(ps[..i], [ps[i]]);
    AllFOne(ps[i]);
    MKeysConcat(AllF(ps[..i]), All(ps[i].child));
  }

  /** Of three blocks, the first with nothing after the start and the last above the
      middle one, the middle one has the least message after the start. */
  lemma {:induction false} NextOfBlocks(x: seq<Entry>, y: seq<Entry>, z: seq<Entry>, mid: Bound, hi: Bound,
                                        from: Option<MessageKey>, r: Entry)
    requires NoneAfter(x, from) && IsNext(y, from, Some(r))
    requires Within(y, Open, mid) && (z != [] ==> mid.At? && Within(z, mid, hi))
    ensures IsNext(x + y + z, from, Some(r))
  {
  }

  lemma {:induction false} ChildWithin(ps: seq<Pivot>, i: nat, h: nat, lo: Bound, hi: Bound, max: nat)
    requires WFF(ps, h, lo, hi, max) && i < |ps|
    ensures Within(All(ps[i].child), Open, NextKey(ps, i, hi))
  {
    AllWithin(ps[i].child, h, At(ps[i].key), NextKey(ps, i, hi), max);
  }

  lemma AllFNone()
    ensures AllF([]) == []
  {
  }

  /** The first child with a message after the start has the least one of all. */
  lemma {:induction false} NextFromChild(ps: seq<Pivot>, i: nat, h: nat, lo: Bound, hi: Bound, max: nat,
                                         from: Option<MessageKey>, r: Entry)
    requires WFF(ps, h, lo, hi, max) && i < |ps|
    requires NoneAfter(AllF(ps[..i]), from) && IsNext(All(ps[i].child), from, Some(r))
    ensures IsNext(AllF(ps), from, Some(r))
  {
    hide IsNext, NoneAfter, WF, WFF, Within, AllF;
    var a, c, b := ps[..i], ps[i], ps[i + 1..];
    assert ps == a + [c] + b;
    AllFConcat(a + [c], b);
    AllFConcat(a, [c]);
    AllFOne(c);
    var mid := NextKey(ps, i, hi);
    ChildWithin(ps, i, h, lo, hi, max);
    if b == [] {
      AllFNone();
    } else {
      WFFCut(a + [c], b, h, lo, hi, max);
      AllFWithin(b, h, mid, hi, max);
    }
    NextOfBlocks(AllF(a), All(c.child), AllF(b), mid, hi, from, r);
  }

  lemma NextNone(s: seq<Entry>, from: Option<MessageKey>)
    ensures IsNext(s, from, None) <==> NoneAfter(s, from)
  {
  }

  lemma NothingAtAll(ps: seq<Pivot>, from: Option<MessageKey>)
    ensures NoneAfter(AllF(ps[..0]), from)
  {
  }

  lemma {:induction false} ForestWithin(ps: seq<Pivot>, h: nat, lo: Bound, hi: Bound, max: nat)
    requires ps != [] && WFF(ps, h, lo, hi, max)
    ensures Within(AllF(ps), At(ps[0].key), hi)
  {
    assert ps == [] + ps;
    WFFCut([], ps, h, lo, hi, max);
    AllFWithin(ps, h, At(ps[0].key), hi, max);
  }
}
