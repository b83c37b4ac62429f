/** A node's message map: a std::map from message keys to messages, kept as the
    sequence of its entries in key order, and the compaction `apply` performs on it. */
module Buffer {
  import opened Base
  import opened Messages

  ghost predicate Sorted(s: seq<Entry>) {
    forall i, j :: 0 <= i < j < |s| ==> Less(s[i].mkey, s[j].mkey)
  }

  /** std::map::lower_bound: the first position whose key is not below `mk`. */
  function LowerBound(s: seq<Entry>, mk: MessageKey): (r: nat)
    ensures r <= |s|
    ensures forall i :: 0 <= i < r ==> Less(s[i].mkey, mk)
    ensures r < |s| ==> !Less(s[r].mkey, mk)
  {
    if s == [] || !Less(s[0].mkey, mk) then 0 else 1 + LowerBound(s[1..], mk)
  }

  /** std::map::upper_bound: the first position whose key is above `mk`. */
  function UpperBound(s: seq<Entry>, mk: MessageKey): (r: nat)
    ensures r <= |s|
    ensures forall i :: 0 <= i < r ==> !Less(mk, s[i].mkey)
    ensures r < |s| ==> Less(mk, s[r].mkey)
  {
    if s == [] || Less(mk, s[0].mkey) then 0 else 1 + UpperBound(s[1..], mk)
  }

  /** std::map::operator[] assignment: overwrite in place or insert in order. */
  function Put(s: seq<Entry>, e: Entry): seq<Entry> {
    var p := LowerBound(s, e.mkey);
    if p < |s| && s[p].mkey == e.mkey then s[p := e] else s[..p] + [e] + s[p..]
  }

  function KeyLow(s: seq<Entry>, k: Key): (r: nat)
    ensures r <= |s|
  {
    LowerBound(s, RangeStart(k))
  }

  function KeyHigh(s: seq<Entry>, k: Key): (r: nat)
    ensures r <= |s|
  {
    UpperBound(s, RangeEnd(k))
  }

  /** KeyLow and KeyHigh delimit exactly the messages for `k`. */
  lemma {:induction false} KeySpan(s: seq<Entry>, k: Key)
    requires Sorted(s)
    ensures KeyLow(s, k) <= KeyHigh(s, k)
    ensures forall i :: 0 <= i < KeyLow(s, k) ==> s[i].mkey.key < k
    ensures forall i :: KeyLow(s, k) <= i < KeyHigh(s, k) ==> s[i].mkey.key == k
    ensures forall i :: KeyHigh(s, k) <= i < |s| ==> s[i].mkey.key > k
  {
  }

  /** elements.erase(lower_bound(range_start), upper_bound(range_end)). */
  function EraseKey(s: seq<Entry>, k: Key): seq<Entry> {
    var l, h := KeyLow(s, k), KeyHigh(s, k);
    s[..l] + s[if l <= h then h else l..]
  }

  /** The message map after `apply` of message `e` at a leaf or an internal node. */
  function Applied(s: seq<Entry>, leaf: bool, e: Entry): seq<Entry> {
    var k := e.mkey.key;
    match e.msg.opcode
    case INSERT => Put(EraseKey(s, k), e)
    case DELETE => if leaf then EraseKey(s, k) else Put(EraseKey(s, k), e)
    case UPDATE =>
      var h := KeyHigh(s, k);
      if h == 0 || s[h - 1].mkey.key != k then
        if leaf then Put(EraseKey(s, k), Entry(e.mkey, Message(INSERT, Plus(Default, e.msg.val))))
        else Put(s, e)
      else if s[h - 1].msg.opcode == INSERT then
        Put(EraseKey(s, k), Entry(e.mkey, Message(INSERT, Plus(s[h - 1].msg.val, e.msg.val))))
      else Put(s, e)
  }

  function ApplyAll(s: seq<Entry>, leaf: bool, elts: seq<Entry>): seq<Entry> {
    if elts == [] then s
    else Applied(ApplyAll(s, leaf, elts[..|elts| - 1]), leaf, elts[|elts| - 1])
  }

  /** What compaction keeps of one key's messages.  A leaf holds at most one message
      per key, an INSERT.  An internal node holds an INSERT alone, or a DELETE
      followed by UPDATEs, or UPDATEs. */
  ghost predicate Shape(s: seq<Entry>, leaf: bool) {
    && (leaf ==> forall i :: 0 <= i < |s| ==> s[i].msg.opcode == INSERT)
    && (forall i, j :: 0 <= i < j < |s| && s[i].mkey.key == s[j].mkey.key
          ==> !leaf && s[i].msg.opcode != INSERT && s[j].msg.opcode == UPDATE)
  }

  // ---------- One key at a time ----------

  /** `apply` seen on the messages `m` of the key it is for. */
  ghost function AppliedKey(m: seq<Entry>, leaf: bool, e: Entry): (r: seq<Entry>)
    ensures |r| <= |m| + 1
  {
    match e.msg.opcode
    case INSERT => [e]
    case DELETE => if leaf then [] else [e]
    case UPDATE =>
      if m == [] then
        if leaf then [Entry(e.mkey, Message(INSERT, Plus(Default, e.msg.val)))] else [e]
      else if m[|m| - 1].msg.opcode == INSERT then
        [Entry(e.mkey, Message(INSERT, Plus(m[|m| - 1].msg.val, e.msg.val)))]
      else m + [e]
  }

  ghost predicate ForKey(m: seq<Entry>, k: Key) {
    forall i :: 0 <= i < |m| ==> m[i].mkey.key == k
  }

  ghost predicate BelowKey(a: seq<Entry>, k: Key) {
    forall i :: 0 <= i < |a| ==> a[i].mkey.key < k
  }

  ghost predicate AboveKey(b: seq<Entry>, k: Key) {
    forall i :: 0 <= i < |b| ==> b[i].mkey.key > k
  }

  /** A sorted insertion between a block below and a block above. */
  lemma {:induction false} PutBetween(a: seq<Entry>, b: seq<Entry>, e: Entry)
    requires forall i :: 0 <= i < |a| ==> Less(a[i].mkey, e.mkey)
    requires forall i :: 0 <= i < |b| ==> Less(e.mkey, b[i].mkey)
    ensures Put(a + b, e) == a + [e] + b
  {
    var s := a + b;
    var p := LowerBound(s, e.mkey);
    assert forall i :: 0 <= i < |b| ==> s[|a| + i] == b[i];
    assert |b| > 0 ==> s[|a|] == b[0];
    assert p == |a|;
    assert s[..p] == a && s[p..] == b;
  }

  /** `apply` rewrites the messages of its own key and leaves the rest in place. */
  lemma {:induction false} AppliedSplits(a: seq<Entry>, m: seq<Entry>, b: seq<Entry>, leaf: bool, e: Entry)
    requires Sorted(a + m + b)
    requires BelowKey(a, e.mkey.key) && ForKey(m, e.mkey.key) && AboveKey(b, e.mkey.key)
    requires forall i :: 0 <= i < |m| ==> m[i].mkey.timestamp < e.mkey.timestamp
    ensures Applied(a + m + b, leaf, e) == a + AppliedKey(m, leaf, e) + b
  {
    hide LowerBound, UpperBound, Put, KeyLow, KeyHigh, Sorted;
    var s, k := a + m + b, e.mkey.key;
    KeySpanOf(a, m, b, k);
    assert EraseKey(s, k) == a + b;
    if e.msg.opcode == UPDATE {
      if m == [] {
        assert a == [] || s[|a| - 1] == a[|a| - 1];
        PutBetween(a, b, Entry(e.mkey, Message(INSERT, Plus(Default, e.msg.val))));
        assert s == a + b;
        PutBetween(a, b, e);
      } else {
        var last := m[|m| - 1];
        assert s[|a| + |m| - 1] == last;
        PutBetween(a, b, Entry(e.mkey, Message(INSERT, Plus(last.msg.val, e.msg.val))));
        assert forall i :: 0 <= i < |a + m| ==> Less((a + m)[i].mkey, e.mkey);
        PutBetween(a + m, b, e);
        assert a + m + [e] == a + (m + [e]);
      }
    } else {
      PutBetween(a, b, e);
      assert a + b == a + [] + b;
    }
  }

  lemma {:induction false} KeySpanOf(a: seq<Entry>, m: seq<Entry>, b: seq<Entry>, k: Key)
    requires Sorted(a + m + b) && BelowKey(a, k) && ForKey(m, k) && AboveKey(b, k)
    ensures KeyLow(a + m + b, k) == |a| && KeyHigh(a + m + b, k) == |a| + |m|
  {
    var s := a + m + b;
    KeySpan(s, k);
    assert forall i :: 0 <= i < |a| ==> s[i] == a[i];
    assert forall i :: 0 <= i < |m| ==> s[|a| + i] == m[i];
    assert forall i :: 0 <= i < |b| ==> s[|a| + |m| + i] == b[i];
    var l, h := KeyLow(s, k), KeyHigh(s, k);
    assert |a| > 0 ==> s[|a| - 1] == a[|a| - 1];
    assert |m| > 0 ==> s[|a|] == m[0] && s[|a| + |m| - 1] == m[|m| - 1];
    assert |b| > 0 ==> s[|a| + |m|] == b[0];
    assert l == |a|;
  }

  lemma {:induction false} EvalAppliedKey(o: Option<Value>, m: seq<Entry>, leaf: bool, e: Entry)
    requires ForKey(m, e.mkey.key) && (leaf ==> o == None && Shape(m, leaf))
    ensures Eval(o, AppliedKey(m, leaf, e), e.mkey.key) == Eval(o, m + [e], e.mkey.key)
  {
  }

  lemma {:induction false} AbsentOutside(s: seq<Entry>, k: Key)
    requires forall i :: 0 <= i < |s| ==> s[i].mkey.key != k
    ensures Absent(s, k)
  {
  }

  lemma {:induction false} EvalApplied(o: Option<Value>, a: seq<Entry>, m: seq<Entry>, b: seq<Entry>,
                                       leaf: bool, e: Entry, k: Key)
    requires BelowKey(a, e.mkey.key) && ForKey(m, e.mkey.key) && AboveKey(b, e.mkey.key)
    requires leaf ==> o == None && Shape(m, leaf)
    ensures Eval(o, a + AppliedKey(m, leaf, e) + b, k) == Eval(o, a + m + b + [e], k)
  {
    var m' := AppliedKey(m, leaf, e);
    EvalConcat(o, a, m', k);
    EvalConcat(o, a + m', b, k);
    EvalConcat(o, a, m, k);
    EvalConcat(o, a + m, b, k);
    EvalConcat(o, a + m + b, [e], k);
    if k == e.mkey.key {
      AbsentOutside(a, k);
      AbsentOutside(b, k);
      EvalAbsent(o, a, k);
      EvalAbsent(Eval(o, m', k), b, k);
      EvalAbsent(Eval(o, m, k), b, k);
      EvalConcat(o, m, [e], k);
      EvalAppliedKey(o, m, leaf, e);
    } else {
      AbsentOutside(m, k);
      AbsentOutside(m', k);
      AbsentOutside([e], k);
      EvalAbsent(Eval(o, a, k), m, k);
      EvalAbsent(Eval(o, a, k), m', k);
      EvalAbsent(Eval(o, a + m + b, k), [e], k);
    }
  }

  /** Sortedness and shape of three blocks below, at and above a key. */
  lemma {:induction false} ThreeBlocks(a: seq<Entry>, m: seq<Entry>, b: seq<Entry>, k: Key, leaf: bool)
    requires BelowKey(a, k) && ForKey(m, k) && AboveKey(b, k)
    ensures Sorted(a + m + b) <==> Sorted(a) && Sorted(m) && Sorted(b)
    ensures Shape(a + m + b, leaf) <==> Shape(a, leaf) && Shape(m, leaf) && Shape(b, leaf)
  {
    assert BelowKey(a, k) && ForKey(m, k) ==> forall i :: 0 <= i < |a + m| ==> (a + m)[i].mkey.key <= k;
    TwoBlocks(a, m, leaf);
    TwoBlocks(a + m, b, leaf);
  }

  lemma {:induction false} TwoBlocks(a: seq<Entry>, b: seq<Entry>, leaf: bool)
    requires forall i, j :: 0 <= i < |a| && 0 <= j < |b| ==> a[i].mkey.key < b[j].mkey.key
    ensures Sorted(a + b) <==> Sorted(a) && Sorted(b)
    ensures Shape(a + b, leaf) <==> Shape(a, leaf) && Shape(b, leaf)
  {
    TwoBlocksSorted(a, b);
    TwoBlocksShape(a, b, leaf);
  }

  lemma {:induction false} TwoBlocksSorted(a: seq<Entry>, b: seq<Entry>)
    requires forall i, j :: 0 <= i < |a| && 0 <= j < |b| ==> a[i].mkey.key < b[j].mkey.key
    ensures Sorted(a + b) <==> Sorted(a) && Sorted(b)
  {
    var s := a + b;
    assert forall i :: 0 <= i < |a| ==> s[i] == a[i];
    assert forall i :: 0 <= i < |b| ==> s[|a| + i] == b[i];
  }

  lemma {:induction false} TwoBlocksShape(a: seq<Entry>, b: seq<Entry>, leaf: bool)
    requires forall i, j :: 0 <= i < |a| && 0 <= j < |b| ==> a[i].mkey.key < b[j].mkey.key
    ensures Shape(a + b, leaf) <==> Shape(a, leaf) && Shape(b, leaf)
  {
    var s := a + b;
    assert forall i :: 0 <= i < |a| ==> s[i] == a[i];
    assert forall i :: 0 <= i < |b| ==> s[|a| + i] == b[i];
    if Shape(a, leaf) && Shape(b, leaf) {
      assert leaf ==> forall i :: 0 <= i < |s| ==> s[i].msg.opcode == INSERT;
      assert Shape(s, leaf);
    }
    if Shape(s, leaf) {
      assert Shape(a, leaf);
      assert Shape(b, leaf);
    }
  }

  lemma {:induction false} AppliedStructure(a: seq<Entry>, m: seq<Entry>, b: seq<Entry>, leaf: bool, e: Entry)
    requires Sorted(a + m + b) && Shape(a + m + b, leaf)
    requires BelowKey(a, e.mkey.key) && ForKey(m, e.mkey.key) && AboveKey(b, e.mkey.key)
    requires forall i :: 0 <= i < |m| ==> m[i].mkey.timestamp < e.mkey.timestamp
    ensures Sorted(a + AppliedKey(m, leaf, e) + b)
    ensures Shape(a + AppliedKey(m, leaf, e) + b, leaf)
  {
    ThreeBlocks(a, m, b, e.mkey.key, leaf);
    var m' := AppliedKey(m, leaf, e);
    assert Sorted(m') && ForKey(m', e.mkey.key) && Shape(m', leaf);
    ThreeBlocks(a, m', b, e.mkey.key, leaf);
  }

  /** Compaction is sound: a newer message changes what the buffer means at its key
      by exactly its map operation, over any older value `o` from below (a leaf has
      nothing below it), and at no other key; shape and order are kept. */
  lemma {:induction false} ApplySound(s: seq<Entry>, leaf: bool, e: Entry)
    requires Sorted(s) && Shape(s, leaf) && Older(MKeys(s), {e.mkey})
    ensures Sorted(Applied(s, leaf, e)) && Shape(Applied(s, leaf, e), leaf)
    ensures MKeys(Applied(s, leaf, e)) <= MKeys(s) + {e.mkey}
    ensures |Applied(s, leaf, e)| <= |s| + 1
    ensures forall o, k :: (leaf ==> o == None)
              ==> Eval(o, Applied(s, leaf, e), k) == Eval(o, s + [e], k)
  {
    hide Eval, KeyLow, KeyHigh, Applied, AppliedKey, Shape, Sorted;
    var l, h := KeyLow(s, e.mkey.key), KeyHigh(s, e.mkey.key);
    KeySpan(s, e.mkey.key);
    var a, m, b := s[..l], s[l..h], s[h..];
    assert s == a + m + b;
    forall i | 0 <= i < |m| ensures m[i].mkey.timestamp < e.mkey.timestamp {
      assert m[i] in s && m[i].mkey in MKeys(s);
    }
    AppliedSplits(a, m, b, leaf, e);
    AppliedStructure(a, m, b, leaf, e);
    AppliedMKeys(a, m, b, leaf, e);
    ThreeBlocks(a, m, b, e.mkey.key, leaf);
    forall o, k | leaf ==> o == None
      ensures Eval(o, Applied(s, leaf, e), k) == Eval(o, s + [e], k)
    {
      EvalApplied(o, a, m, b, leaf, e, k);
    }
  }

  lemma {:induction false} AppliedMKeys(a: seq<Entry>, m: seq<Entry>, b: seq<Entry>, leaf: bool, e: Entry)
    ensures MKeys(a + AppliedKey(m, leaf, e) + b) <= MKeys(a + m + b) + {e.mkey}
  {
  }

  /** A whole batch, applied oldest first. */
  lemma {:induction false} ApplyAllSound(s: seq<Entry>, leaf: bool, elts: seq<Entry>)
    requires Sorted(s) && Shape(s, leaf) && Ordered(s + elts)
    ensures Sorted(ApplyAll(s, leaf, elts)) && Shape(ApplyAll(s, leaf, elts), leaf)
    ensures MKeys(ApplyAll(s, leaf, elts)) <= MKeys(s) + MKeys(elts)
    ensures |ApplyAll(s, leaf, elts)| <= |s| + |elts|
    ensures forall o, k :: (leaf ==> o == None)
              ==> Eval(o, ApplyAll(s, leaf, elts), k) == Eval(o, s + elts, k)
    decreases |elts|
  {
    if elts == [] {
      assert s + elts == s;
    } else {
      var r, e := elts[..|elts| - 1], elts[|elts| - 1];
      assert elts == r + [e];
      assert s + elts == s + r + [e];
      OrderedConcat(s + r, [e]);
      MKeysConcat(s, r);
      MKeysConcat(r, [e]);
      assert MKeys([e]) == {e.mkey};
      ApplyAllSound(s, leaf, r);
      ApplySound(ApplyAll(s, leaf, r), leaf, e);
      forall o, k | leaf ==> o == None
        ensures Eval(o, ApplyAll(s, leaf, elts), k) == Eval(o, s + elts, k)
      {
        EvalConcat(o, ApplyAll(s, leaf, r), [e], k);
        EvalConcat(o, s + r, [e], k);
      }
    }
  }

  /** Messages for a key always make a difference to some older value. */
  lemma {:induction false} NotInert(s: seq<Entry>, k: Key) returns (o: Option<Value>)
    requires !Absent(s, k)
    ensures Eval(o, s, k) != o
  {
    var r, e := s[..|s| - 1], s[|s| - 1];
    if e.mkey.key == k {
      o := if e.msg.opcode == DELETE then Some(Default) else None;
    } else {
      assert s == r + [e];
      MKeysConcat(r, [e]);
      o := NotInert(r, k);
    }
  }

  /** Compaction in an internal node leaves something behind for every key of the batch. */
  lemma {:induction false} StaysBuffered(s: seq<Entry>, elts: seq<Entry>, k: Key)
    requires Sorted(s) && Shape(s, false) && Ordered(s + elts) && !Absent(elts, k)
    ensures !Absent(ApplyAll(s, false, elts), k)
  {
    MKeysConcat(s, elts);
    ApplyAllSound(s, false, elts);
    var o := NotInert(s + elts, k);
    if Absent(ApplyAll(s, false, elts), k) {
      EvalAbsent(o, ApplyAll(s, false, elts), k);
      assert false;
    }
  }

  lemma {:induction false} SortedIsOrdered(s: seq<Entry>)
    requires Sorted(s)
    ensures Ordered(s)
  {
  }

  /** The buffer of a node standing over `below` after the batch was applied. */
  lemma {:induction false} ApplyRefines(below: seq<Entry>, s: seq<Entry>, leaf: bool, elts: seq<Entry>)
    requires Sorted(s) && Shape(s, leaf) && Ordered(below + s + elts)
    requires leaf ==> below == []
    ensures Refines(below + ApplyAll(s, leaf, elts), below + s + elts)
  {
    assert below + s + elts == below + (s + elts);
    OrderedConcat(below, s + elts);
    MKeysConcat(s, elts);
    MKeysConcat(below, s + elts);
    ApplyAllSound(s, leaf, elts);
    var s' := ApplyAll(s, leaf, elts);
    SortedIsOrdered(s');
    OrderedConcat(below, s');
    MKeysConcat(below, s');
    forall k ensures Eval(None, below + s', k) == Eval(None, below + s + elts, k) {
      EvalConcat(None, below, s', k);
      EvalConcat(None, below, s + elts, k);
    }
  }
}
