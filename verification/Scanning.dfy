/** Why folding the messages of the whole tree in message order, key after key, yields
    exactly the live pairs. */
module Scanning {
  import opened Base
  import opened Messages
  import opened PlainMaps
  import opened Reading

  /** The messages of `s` up to and including `c`, in the order of `s`. */
  ghost function Before(s: seq<Entry>, c: Option<MessageKey>): seq<Entry> {
    if s == [] then []
    else
      var e := s[|s| - 1];
      Before(s[..|s| - 1], c) + (if After(c, e.mkey) then [] else [e])
  }

  lemma {:induction false} BeforeConcat(a: seq<Entry>, b: seq<Entry>, c: Option<MessageKey>)
    ensures Before(a + b, c) == Before(a, c) + Before(b, c)
    decreases |b|
  {
    if b == [] {
      assert a + b == a;
    } else {
      var s := a + b;
      assert s[..|s| - 1] == a + b[..|b| - 1];
      BeforeConcat(a, b[..|b| - 1], c);
    }
  }

  lemma {:induction false} InitLast(s: seq<Entry>)
    requires s != []
    ensures MKeys(s) == MKeys(s[..|s| - 1]) + {s[|s| - 1].mkey}
  {
  }

  lemma {:induction false} BeforeMKeys(s: seq<Entry>, c: Option<MessageKey>)
    ensures forall m :: m in MKeys(Before(s, c)) ==> m in MKeys(s) && !After(c, m)
  {
    if s != [] {
      var e := s[|s| - 1];
      InitLast(s);
      BeforeMKeys(s[..|s| - 1], c);
      MKeysConcat(Before(s[..|s| - 1], c), if After(c, e.mkey) then [] else [e]);
    }
  }

  lemma {:induction false} BeforeSame(s: seq<Entry>, c: Option<MessageKey>, d: Option<MessageKey>)
    requires forall m :: m in MKeys(s) ==> (After(c, m) <==> After(d, m))
    ensures Before(s, c) == Before(s, d)
  {
    if s != [] {
      InitLast(s);
      BeforeSame(s[..|s| - 1], c, d);
    }
  }

  /** Once all messages of a key are passed, the fold over the passed ones is final. */
  lemma {:induction false} EvalPassed(s: seq<Entry>, c: Option<MessageKey>, k: Key)
    requires forall m :: m in MKeys(s) && m.key == k ==> !After(c, m)
    ensures Eval(None, Before(s, c), k) == Eval(None, s, k)
  {
    if s != [] {
      var e, r := s[|s| - 1], s[..|s| - 1];
      InitLast(s);
      EvalPassed(r, c, k);
      EvalConcat(None, Before(r, c), if After(c, e.mkey) then [] else [e], k);
      EvalOne(Eval(None, Before(r, c), k), e, k);
    }
  }

  /** While none is passed, the fold is empty. */
  lemma {:induction false} EvalNotReached(s: seq<Entry>, c: Option<MessageKey>, k: Key)
    requires forall m :: m in MKeys(s) && m.key == k ==> After(c, m)
    ensures Eval(None, Before(s, c), k) == None
  {
    BeforeMKeys(s, c);
    EvalAbsent(None, Before(s, c), k);
  }

  lemma {:induction false} Distinct(s: seq<Entry>, i: nat)
    requires Ordered(s) && i < |s|
    ensures s[i].mkey !in MKeys(s[..i]) && s[i].mkey !in MKeys(s[i + 1..])
    ensures forall m :: m in MKeys(s[i + 1..]) && m.key == s[i].mkey.key ==> s[i].mkey.timestamp < m.timestamp
  {
  }

  lemma {:induction false} BetweenNone(p: seq<Entry>, s: seq<Entry>, c: Option<MessageKey>, e: Entry)
    requires IsNext(s, c, Some(e)) && MKeys(p) <= MKeys(s) && e.mkey !in MKeys(p)
    ensures Before(p, c) == Before(p, Some(e.mkey))
  {
    forall m | m in MKeys(p) ensures After(c, m) <==> After(Some(e.mkey), m) {
      assert m != e.mkey;
    }
    BeforeSame(p, c, Some(e.mkey));
  }

  /** Passing the next message is one step of its key's fold and of no other. */
  lemma {:induction false} PassNext(s: seq<Entry>, c: Option<MessageKey>, e: Entry, k: Key)
    requires Ordered(s) && IsNext(s, c, Some(e))
    ensures Eval(None, Before(s, Some(e.mkey)), k)
         == if k == e.mkey.key then Step(Eval(None, Before(s, c), k), e.msg) else Eval(None, Before(s, c), k)
  {
    hide Ordered, Eval;
    var i :| 0 <= i < |s| && s[i] == e;
    var a, b, d := s[..i], s[i + 1..], Some(e.mkey);
    Distinct(s, i);
    assert s == a + [e] + b;
    MKeysConcat(a + [e], b);
    MKeysConcat(a, [e]);
    BetweenNone(a, s, c, e);
    BetweenNone(b, s, c, e);
    BeforeConcat(a + [e], b, c);
    BeforeConcat(a, [e], c);
    BeforeConcat(a + [e], b, d);
    BeforeConcat(a, [e], d);
    assert Before([e], c) == [] && Before([e], d) == [e] by {
      assert [e][..0] == [];
      assert Before([], c) == [] && Before([], d) == [];
    }
    var a', b' := Before(a, c), Before(b, c);
    assert a' + [] == a';
    EvalConcat(None, a', b', k);
    EvalConcat(None, a', [e], k);
    EvalConcat(None, a' + [e], b', k);
    EvalOne(Eval(None, a', k), e, k);
    if k == e.mkey.key {
      BeforeMKeys(b, d);
      assert Absent(b', k);
      EvalAbsent(Eval(None, a', k), b', k);
      EvalAbsent(Eval(None, a' + [e], k), b', k);
    }
  }

  // ---------- One key after the other ----------

  /** Some message for `k` is still to come. */
  ghost predicate Pending(s: seq<Entry>, c: Option<MessageKey>, k: Key) {
    exists m :: m in MKeys(s) && m.key == k && After(c, m)
  }

  /** `c` lies between two keys: of each key all messages are passed or none is. */
  ghost predicate Unsplit(s: seq<Entry>, c: Option<MessageKey>) {
    forall m, m' :: m in MKeys(s) && m' in MKeys(s) && m.key == m'.key ==> (After(c, m) <==> After(c, m'))
  }

  /** Having started from `start` and passed `c`, the key reached holds `val` so far, and
      every key skipped on the way holds nothing. */
  ghost predicate Reached(s: seq<Entry>, start: Option<MessageKey>, c: MessageKey, val: Option<Value>) {
    && After(start, c) && c in MKeys(s)
    && Eval(None, Before(s, Some(c)), c.key) == val
    && forall k :: Pending(s, start, k) && k < c.key ==> Eval(None, s, k) == None
  }

  /** The first message after the start opens its key. */
  lemma {:induction false} ReachFirst(s: seq<Entry>, start: Option<MessageKey>, e: Entry)
    requires Ordered(s) && Unsplit(s, start) && IsNext(s, start, Some(e))
    ensures Reached(s, start, e.mkey, Step(None, e.msg))
  {
    assert e.mkey in MKeys(s);
    EvalNotReached(s, start, e.mkey.key);
    PassNext(s, start, e, e.mkey.key);
  }

  /** The next message continues the key reached, or opens the next key after one that
      came to nothing. */
  lemma {:induction false} ReachNext(s: seq<Entry>, start: Option<MessageKey>, c: MessageKey, val: Option<Value>,
                                     e: Entry)
    requires Ordered(s) && Reached(s, start, c, val) && IsNext(s, Some(c), Some(e))
    requires val.Some? ==> e.mkey.key == c.key
    ensures Reached(s, start, e.mkey, Step(val, e.msg))
  {
    assert e.mkey in MKeys(s);
    PassNext(s, Some(c), e, e.mkey.key);
    if e.mkey.key != c.key {
      EvalNotReached(s, Some(c), e.mkey.key);
      EvalPassed(s, Some(c), c.key);
      forall k | Pending(s, start, k) && k < e.mkey.key ensures Eval(None, s, k) == None {
        var m :| m in MKeys(s) && m.key == k && After(start, m);
        assert k > c.key ==> After(Some(c), m);
      }
    }
  }

  /** At the end of a key the fold is the key's value, and the keys still to come are
      those behind it. */
  lemma {:induction false} ReachEnd(s: seq<Entry>, start: Option<MessageKey>, c: MessageKey, val: Option<Value>,
                                    r: Option<Entry>)
    requires Ordered(s) && Reached(s, start, c, val) && IsNext(s, Some(c), r)
    requires r.Some? ==> r.value.mkey.key != c.key
    ensures Unsplit(s, Some(c))
    ensures Eval(None, s, c.key) == val && Pending(s, start, c.key)
    ensures forall k :: Pending(s, Some(c), k) <==> Pending(s, start, k) && k > c.key
  {
    forall m | m in MKeys(s) && m.key == c.key ensures !After(Some(c), m) {
      assert r.Some? ==> c.key < r.value.mkey.key;
    }
    EvalPassed(s, Some(c), c.key);
    forall k | Pending(s, Some(c), k) ensures Pending(s, start, k) && k > c.key {
      var m :| m in MKeys(s) && m.key == k && After(Some(c), m);
      assert After(start, m);
    }
    forall k | Pending(s, start, k) && k > c.key ensures Pending(s, Some(c), k) {
      var m :| m in MKeys(s) && m.key == k && After(start, m);
      assert After(Some(c), m);
    }
  }

  /** What moving from `start` to `c` yields: the least live key that was still to come,
      with its value; or nothing, when none of them was live. */
  ghost predicate YieldsFrom(s: seq<Entry>, start: Option<MessageKey>, c: Option<MessageKey>,
                             val: Option<Value>, first: Key)
  {
    && (forall k :: Pending(s, start, k) && (val.Some? ==> k < first) ==> Eval(None, s, k) == None)
    && (val.Some? ==> Pending(s, start, first) && Eval(None, s, first) == val)
    && (val.Some? ==> forall k :: Pending(s, c, k) <==> Pending(s, start, k) && k > first)
  }

  lemma {:induction false} ReachYields(s: seq<Entry>, start: Option<MessageKey>, c: MessageKey, val: Option<Value>,
                                       r: Option<Entry>, first: Key)
    requires Ordered(s) && Reached(s, start, c, val) && IsNext(s, Some(c), r)
    requires r.Some? ==> val.Some? && r.value.mkey.key != c.key
    requires val.Some? ==> first == c.key
    ensures Unsplit(s, Some(c)) && YieldsFrom(s, start, Some(c), val, first)
  {
    hide IsNext, Ordered, Eval, Before;
    ReachEnd(s, start, c, val, r);
    if val.None? {
      NothingPending(s, Some(c));
      forall k | Pending(s, start, k) ensures Eval(None, s, k) == None {
        assert k > c.key ==> Pending(s, Some(c), k);
      }
    }
  }

  lemma {:induction false} NothingPending(s: seq<Entry>, c: Option<MessageKey>)
    requires IsNext(s, c, None)
    ensures forall k :: !Pending(s, c, k)
  {
  }

  // ---------- Measure ----------

  ghost function Coming(s: seq<Entry>, c: Option<MessageKey>): set<MessageKey> {
    set m | m in MKeys(s) && After(c, m)
  }

  lemma {:induction false} ComingShrinks(s: seq<Entry>, c: Option<MessageKey>, e: Entry)
    requires IsNext(s, c, Some(e))
    ensures Coming(s, Some(e.mkey)) < Coming(s, c)
  {
    assert e.mkey in MKeys(s);
    assert e.mkey in Coming(s, c) && e.mkey !in Coming(s, Some(e.mkey));
    forall m | m in Coming(s, Some(e.mkey)) ensures m in Coming(s, c) {
      assert Less(e.mkey, m);
    }
  }

  // ---------- Whole scans ----------

  /** A key that is live and still to come after `c`. */
  ghost predicate LiveAfter(s: seq<Entry>, c: Option<MessageKey>, k: Key) {
    Pending(s, c, k) && Eval(None, s, k).Some?
  }

  /** `ps` are exactly the live pairs after `c0`, in key order. */
  ghost predicate IsScan(s: seq<Entry>, c0: Option<MessageKey>, ps: Pairs) {
    && Ascending(ps)
    && (forall i :: 0 <= i < |ps| ==> LiveAfter(s, c0, ps[i].0) && Eval(None, s, ps[i].0) == Some(ps[i].1))
    && (forall k :: LiveAfter(s, c0, k) ==> exists i :: 0 <= i < |ps| && ps[i].0 == k)
  }

  /** `ps` has been collected; `first` with value `val` is next, then what follows `c`. */
  ghost predicate Collected(s: seq<Entry>, c0: Option<MessageKey>, ps: Pairs, c: Option<MessageKey>,
                            val: Option<Value>, first: Key)
  {
    && Ascending(ps)
    && (forall i :: 0 <= i < |ps| ==> LiveAfter(s, c0, ps[i].0) && Eval(None, s, ps[i].0) == Some(ps[i].1))
    && (val.Some? ==> LiveAfter(s, c0, first) && Eval(None, s, first) == val)
    && (val.Some? ==> forall i :: 0 <= i < |ps| ==> ps[i].0 < first)
    && (val.Some? ==> forall k :: Pending(s, c, k) <==> Pending(s, c0, k) && k > first)
    && (forall k :: LiveAfter(s, c0, k) ==>
          (exists i :: 0 <= i < |ps| && ps[i].0 == k) || (val.Some? && k >= first))
  }

  lemma {:induction false} CollectStart(s: seq<Entry>, c0: Option<MessageKey>, c: Option<MessageKey>,
                                        val: Option<Value>, first: Key)
    requires YieldsFrom(s, c0, c, val, first)
    ensures Collected(s, c0, [], c, val, first)
  {
  }

  lemma {:induction false} CollectNext(s: seq<Entry>, c0: Option<MessageKey>, ps: Pairs, c: Option<MessageKey>,
                                       v: Value, first: Key, c': Option<MessageKey>, val': Option<Value>, first': Key)
    requires Collected(s, c0, ps, c, Some(v), first) && YieldsFrom(s, c, c', val', first')
    ensures Collected(s, c0, ps + [(first, v)], c', val', first')
  {
    var qs := ps + [(first, v)];
    assert qs[|ps|].0 == first;
    forall k | LiveAfter(s, c0, k)
      ensures (exists i :: 0 <= i < |qs| && qs[i].0 == k) || (val'.Some? && k >= first')
    {
      if k < first {
        var i :| 0 <= i < |ps| && ps[i].0 == k;
        assert qs[i] == ps[i];
      } else if k > first {
        assert Pending(s, c, k);
      }
    }
  }

  lemma {:induction false} CollectEnd(s: seq<Entry>, c0: Option<MessageKey>, ps: Pairs, c: Option<MessageKey>,
                                      first: Key)
    requires Collected(s, c0, ps, c, None, first)
    ensures IsScan(s, c0, ps)
  {
  }

  /** A live key has a message. */
  lemma {:induction false} LiveHasMessage(s: seq<Entry>, k: Key)
    requires Eval(None, s, k).Some?
    ensures exists m :: m in MKeys(s) && m.key == k
  {
    if Absent(s, k) {
      EvalAbsent(None, s, k);
    }
  }

  ghost predicate Stamps(s: seq<Entry>) {
    forall m :: m in MKeys(s) ==> 1 <= m.timestamp < UINT64_MAX
  }

  /** Where begin, lower_bound and upper_bound start: at every live key, at those from
      `k` on, at those behind `k`. */
  lemma {:induction false} ScanStarts(s: seq<Entry>, k: Key)
    requires Stamps(s)
    ensures Unsplit(s, None) && Unsplit(s, Some(RangeStart(k))) && Unsplit(s, Some(RangeEnd(k)))
    ensures forall x :: LiveAfter(s, None, x) <==> Eval(None, s, x).Some?
    ensures forall x :: LiveAfter(s, Some(RangeStart(k)), x) <==> Eval(None, s, x).Some? && x >= k
    ensures forall x :: LiveAfter(s, Some(RangeEnd(k)), x) <==> Eval(None, s, x).Some? && x > k
  {
    forall x | Eval(None, s, x).Some? ensures exists m :: m in MKeys(s) && m.key == x {
      LiveHasMessage(s, x);
    }
  }
}
