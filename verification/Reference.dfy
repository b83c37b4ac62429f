/** The repository's own test: the same operations on the tree and on a plain map, with
    every answer compared. */
module Reference {
  import opened Base
  import opened Messages
  import opened PlainMaps
  import opened Trees
  import opened Scanning
  import opened FlushStates
  import opened Outcomes
  import opened Descents
  import opened Drains
  import opened Betrees
  import opened Iterators

  datatype Operation<K> =
    | Insert(key: K, val: Value)
    | Update(key: K, val: Value)
    | Erase(key: K)
    | Query(key: K)
    | FullScan
    | LowerBoundScan(key: K)
    | UpperBoundScan(key: K)

  datatype Answer<K> = Done | Found(value: Option<Value>) | Scanned(pairs: seq<(K, Value)>)

  // ---------- The plain map ----------

  function MapStep<K(==)>(m: map<K, Value>, op: Operation<K>): map<K, Value> {
    match op
    case Insert(k, v) => m[k := v]
    case Update(k, v) => m[k := Plus(if k in m then m[k] else Default, v)]
    case Erase(k) => m - {k}
    case _ => m
  }

  ghost function From(m: Map, k: Key): Map {
    map x | x in m && x >= k :: m[x]
  }

  ghost function Behind(m: Map, k: Key): Map {
    map x | x in m && x > k :: m[x]
  }

  ghost function MapAnswer(m: Map, op: Operation<Key>): Answer<Key> {
    match op
    case Query(k) => Found(if k in m then Some(m[k]) else None)
    case FullScan => Scanned(InOrder(m))
    case LowerBoundScan(k) => Scanned(InOrder(From(m, k)))
    case UpperBoundScan(k) => Scanned(InOrder(Behind(m, k)))
    case _ => Done
  }

  function MapAfter<K(==)>(ops: seq<Operation<K>>): map<K, Value> {
    if ops == [] then map[] else MapStep(MapAfter(ops[..|ops| - 1]), ops[|ops| - 1])
  }

  /** What the plain map answers to a whole run. */
  ghost function MapAnswers(ops: seq<Operation<Key>>): seq<Answer<Key>> {
    if ops == [] then []
    else
      var r := ops[..|ops| - 1];
      MapAnswers(r) + [MapAnswer(MapAfter(r), ops[|ops| - 1])]
  }

  function MapStepIn<T>(r: ValueType<T>, m: map<Key, T>, op: Operation<Key>): map<Key, T> {
    match op
    case Insert(k, v) => m[k := Read(r, v)]
    case Update(k, v) => m[k := r.plus(if k in m then m[k] else r.zero, Read(r, v))]
    case Erase(k) => m - {k}
    case _ => m
  }

  function MapAfterIn<T>(r: ValueType<T>, ops: seq<Operation<Key>>): map<Key, T> {
    if ops == [] then map[] else MapStepIn(r, MapAfterIn(r, ops[..|ops| - 1]), ops[|ops| - 1])
  }

  function ReadAll<T>(r: ValueType<T>, m: Map): map<Key, T> {
    map k | k in m :: Read(r, m[k])
  }

  /** The map of terms, read in any value type, is the map of that type's values: for
      std::string, where the default is empty and `+` appends, the map of the test. */
  lemma {:induction false} MapReads<T>(r: ValueType<T>, ops: seq<Operation<Key>>)
    ensures MapAfterIn(r, ops) == ReadAll(r, MapAfter(ops))
  {
    if ops == [] {
      assert ReadAll(r, map[]) == map[];
    } else {
      MapReads(r, ops[..|ops| - 1]);
      MapStepReads(r, MapAfter(ops[..|ops| - 1]), ops[|ops| - 1]);
    }
  }

  lemma {:induction false} MapStepReads<T>(r: ValueType<T>, m: Map, op: Operation<Key>)
    ensures MapStepIn(r, ReadAll(r, m), op) == ReadAll(r, MapStep(m, op))
  {
    var left, right := MapStepIn(r, ReadAll(r, m), op), ReadAll(r, MapStep(m, op));
    assert left.Keys == right.Keys;
    if op.Update? {
      var v := if op.key in m then m[op.key] else Default;
      assert Read(r, Plus(v, op.val)) == r.plus(Read(r, v), Read(r, op.val));
    }
    assert left == right;
  }

  // ---------- The tree against it ----------

  ghost predicate Same(bet: Betree, m: Map)
    reads bet
  {
    forall k :: bet.Meaning(k) == if k in m then Some(m[k]) else None
  }

  lemma {:induction false} ScanLists(s: seq<Entry>, c: Option<MessageKey>, m: Map, ps: Pairs)
    requires IsScan(s, c, ps)
    requires forall k :: LiveAfter(s, c, k) <==> k in m
    requires forall k :: k in m ==> Eval(None, s, k) == Some(m[k])
    ensures ps == InOrder(m)
  {
    assert Lists(m, ps);
    ListsInOrder(m, ps);
  }

  /** The operation sends a message. */
  predicate Changes(op: Operation<Key>) {
    op.Insert? || op.Update? || op.Erase?
  }

  ghost function MessageOf(op: Operation<Key>, ts: Timestamp): Entry
    requires Changes(op)
  {
    match op
    case Insert(k, v) => Entry(MessageKey(k, ts), Message(INSERT, v))
    case Update(k, v) => Entry(MessageKey(k, ts), Message(UPDATE, v))
    case Erase(k) => Entry(MessageKey(k, ts), Message(DELETE, Default))
  }

  /** Beside what it means: an operation is not stopped if no yes comes after a no, provided
      the tree is dry unless there was a no; and under calm conditions it keeps the nodes
      within the maximum, the root too if the maximum is roomy. */
  ghost predicate Performed(t: Tree, l: Limits, dirty: nat -> bool, log0: seq<Question>, log: seq<Question>, ok: bool,
                            t': Tree)
  {
    && Asked(dirty, log0, log, ok)
    && (Falling(dirty, |log|) && (AllYes(dirty, 0, |log0|) ==> Dry(t)) ==> ok && (AllYes(dirty, 0, |log|) ==> Dry(t')))
    && (ok && Calm(l, dirty, |log0|, |log|) && FitsF(t.pivots, l.max) ==> FitsF(t'.pivots, l.max))
    && (ok && Calm(l, dirty, |log0|, |log|) && Fits(t, l.max) && Roomy(l.max) ==> Fits(t', l.max))
  }

  /** Performs one operation on the tree. */
  method Perform(bet: Betree, op: Operation<Key>, ghost m: Map) returns (ok: bool, a: Answer<Key>)
    requires bet.Valid() && bet.nextTimestamp < UINT64_MAX && Same(bet, m)
    modifies bet
    ensures bet.nextTimestamp <= old(bet.nextTimestamp) + 1
    ensures ok ==> bet.Valid() && Same(bet, MapStep(m, op)) && a == MapAnswer(m, op)
    ensures Performed(old(bet.tree), bet.Bounds(), bet.dirty, old(bet.log), bet.log, ok, bet.tree)
    ensures Handed(bet.Bounds(), bet.inMemory, old(bet.probes), bet.probes, old(bet.handed), bet.handed)
    ensures !ok ==> Changes(op) && Stuck(bet.nodes, bet.log)
    ensures !ok ==> Upserted(old(bet.tree), old(bet.height), MessageOf(op, old(bet.nextTimestamp)), bet.Bounds(),
                             bet.dirty, old(bet.log), bet.log, false, old(bet.tree), old(bet.height))
  {
    hide Eval, IsScan, LiveAfter, InOrder, Performed, Upserted, Stuck, Handed, Flow;
    NothingHanded(bet.Bounds(), bet.inMemory, bet.probes, bet.handed);
    ok, a := true, Done;
    match op
    case Insert(k, v) => ok := PerformUpsert(bet, INSERT, k, v);
    case Update(k, v) => ok := PerformUpsert(bet, UPDATE, k, v);
    case Erase(k) => ok := PerformUpsert(bet, DELETE, k, Default);
    case Query(k) =>
      var r := bet.Query(k);
      a := Found(r);
      NothingPerformed(bet.tree, bet.Bounds(), bet.dirty, bet.log);
    case FullScan =>
      StampsOf(bet, 0);
      var ps := Scan(bet, None);
      a := Scanned(ps);
      ScanLists(All(bet.tree), None, m, ps);
      NothingPerformed(bet.tree, bet.Bounds(), bet.dirty, bet.log);
    case LowerBoundScan(k) =>
      StampsOf(bet, k);
      var ps := Scan(bet, Some(RangeStart(k)));
      a := Scanned(ps);
      ScanLists(All(bet.tree), Some(RangeStart(k)), From(m, k), ps);
      NothingPerformed(bet.tree, bet.Bounds(), bet.dirty, bet.log);
    case UpperBoundScan(k) =>
      StampsOf(bet, k);
      var ps := Scan(bet, Some(RangeEnd(k)));
      a := Scanned(ps);
      ScanLists(All(bet.tree), Some(RangeEnd(k)), Behind(m, k), ps);
      NothingPerformed(bet.tree, bet.Bounds(), bet.dirty, bet.log);
  }

  method PerformUpsert(bet: Betree, opcode: Opcode, k: Key, v: Value) returns (ok: bool)
    requires bet.Valid() && bet.nextTimestamp < UINT64_MAX
    modifies bet
    ensures bet.nextTimestamp == old(bet.nextTimestamp) + 1
    ensures ok ==> bet.Valid()
    ensures ok ==> forall x :: x != k ==> bet.Meaning(x) == old(bet.Meaning(x))
    ensures ok ==> bet.Meaning(k) == Step(old(bet.Meaning(k)), Message(opcode, v))
    ensures Performed(old(bet.tree), bet.Bounds(), bet.dirty, old(bet.log), bet.log, ok, bet.tree)
    ensures !ok ==> Stuck(bet.nodes, bet.log)
    ensures Handed(bet.Bounds(), bet.inMemory, old(bet.probes), bet.probes, old(bet.handed), bet.handed)
    ensures !ok ==> Upserted(old(bet.tree), old(bet.height),
                             Entry(MessageKey(k, old(bet.nextTimestamp)), Message(opcode, v)), bet.Bounds(), bet.dirty,
                             old(bet.log), bet.log, false, old(bet.tree), old(bet.height))
  {
    hide Upserted, Performed, Eval, Stuck, Handed, Flow;
    ok := bet.Upsert(opcode, k, v);
    UpsertPerformed(old(bet.tree), old(bet.height), Entry(MessageKey(k, old(bet.nextTimestamp)), Message(opcode, v)),
                    bet.Bounds(), bet.dirty, old(bet.log), bet.log, ok, bet.tree, bet.height);
  }

  lemma {:induction false} UpsertPerformed(t: Tree, h: nat, e: Entry, l: Limits, dirty: nat -> bool,
                                           log0: seq<Question>, log: seq<Question>, ok: bool, t': Tree, h': nat)
    requires l.max >= 3 && Upserted(t, h, e, l, dirty, log0, log, ok, t', h')
    ensures Performed(t, l, dirty, log0, log, ok, t')
  {
    hide Dry, Fits, FitsF, Pieces, Descent, OneChild, Roomy;
    if Falling(dirty, |log|) && !AllYes(dirty, 0, |log0|) {
      var i :| 0 <= i < |log0| && !dirty(i);
      FallenRuns(dirty, log0, log, ok, i);
    }
  }

  lemma {:induction false} NothingPerformed(t: Tree, l: Limits, dirty: nat -> bool, log: seq<Question>)
    ensures Performed(t, l, dirty, log, log, true, t)
  {
  }

  lemma {:induction false} StampsOf(bet: Betree, k: Key)
    requires bet.Valid()
    ensures var s := All(bet.tree);
            && Unsplit(s, None) && Unsplit(s, Some(RangeStart(k))) && Unsplit(s, Some(RangeEnd(k)))
            && (forall x :: LiveAfter(s, None, x) <==> Eval(None, s, x).Some?)
            && (forall x :: LiveAfter(s, Some(RangeStart(k)), x) <==> Eval(None, s, x).Some? && x >= k)
            && (forall x :: LiveAfter(s, Some(RangeEnd(k)), x) <==> Eval(None, s, x).Some? && x > k)
  {
    ScanStarts(All(bet.tree), k);
  }

  /** The tree after a run of operations that got as far as `n`. */
  ghost predicate Ran(bet: Betree, ops: seq<Operation<Key>>, n: nat)
    requires n <= |ops|
    reads bet
  {
    bet.Valid() && bet.nextTimestamp <= n + 1 && Same(bet, MapAfter(ops[..n]))
  }

  /** The operation a run was stopped at: the tree it found, the message it sent, and the
      questions asked before. */
  datatype Failure = Failure(tree: Tree, height: nat, message: Entry, log: seq<Question>)

  /** Operation `n` of the run was stopped on a tree that meant what the plain map holds. */
  ghost predicate StoppedAt(ops: seq<Operation<Key>>, n: nat, l: Limits, dirty: nat -> bool, log: seq<Question>,
                            f: Failure)
    requires l.max >= 3
  {
    && n < |ops| && Changes(ops[n]) && f.message == MessageOf(ops[n], f.message.mkey.timestamp)
    && WF(f.tree, f.height, Open, Open, l.max) && Stamped(All(f.tree), f.message.mkey.timestamp)
    && f.message.mkey.timestamp <= n + 1
    && (forall k :: Eval(None, All(f.tree), k) == if k in MapAfter(ops[..n]) then Some(MapAfter(ops[..n])[k]) else None)
    && Upserted(f.tree, f.height, f.message, l, dirty, f.log, log, false, f.tree, f.height)
  }

  /** Performs the operations on a new tree, up to the first that is stopped.  If no yes comes
      after a no, none is, and without a no no internal node ever buffers anything.  Under
      calm conditions every node but the root stays within the maximum size, and the root
      too if the maximum is roomy.  Every batch that was handed down because a node was too
      large was its largest, and large enough. */
  method RunAll(ops: seq<Operation<Key>>, maxNodeSize: nat, minFlushSize: nat, dirty: nat -> bool,
                inMemory: nat -> bool)
    returns (ok: bool, outs: seq<Answer<Key>>, bet: Betree, ghost failure: Failure)
    requires maxNodeSize >= 3 && |ops| < UINT64_MAX
    ensures fresh(bet) && bet.Bounds() == Limits(maxNodeSize, minFlushSize) && bet.dirty == dirty
    ensures bet.inMemory == inMemory && Handed(bet.Bounds(), inMemory, [], bet.probes, [], bet.handed)
    ensures |outs| <= |ops| && outs == MapAnswers(ops[..|outs|])
    ensures ok ==> |outs| == |ops| && Ran(bet, ops, |ops|)
    ensures !ok ==> StoppedAt(ops, |outs|, bet.Bounds(), dirty, bet.log, failure) && Stuck(bet.nodes, bet.log)
    ensures Performed(Tree(1, [], []), bet.Bounds(), dirty, [], bet.log, ok, bet.tree)
  {
    hide Eval, MapAnswer, MapStep, Performed, Same, StoppedAt, Upserted, Stuck, Handed;
    bet := new Betree(maxNodeSize, minFlushSize, dirty, inMemory);
    outs, ok := [], true;
    failure := Failure(bet.tree, 0, Entry(MessageKey(0, 0), Message(INSERT, Default)), []);
    var i := 0;
    assert ops[..0] == [];
    NothingPerformed(bet.tree, bet.Bounds(), dirty, []);
    SameEmpty(bet);
    NothingHanded(bet.Bounds(), inMemory, [], []);
    while i < |ops|
      invariant i <= |ops| && fresh(bet) && bet.Bounds() == Limits(maxNodeSize, minFlushSize) && bet.dirty == dirty
      invariant Ran(bet, ops, i) && |outs| == i && outs == MapAnswers(ops[..i])
      invariant Performed(Tree(1, [], []), bet.Bounds(), dirty, [], bet.log, true, bet.tree)
      invariant bet.inMemory == inMemory && Handed(bet.Bounds(), inMemory, [], bet.probes, [], bet.handed)
    {
      var a;
      ghost var t, log, probes, handed := bet.tree, bet.log, bet.probes, bet.handed;
      failure := Before(bet, ops, i);
      ok, a := Perform(bet, ops[i], MapAfter(ops[..i]));
      PerformedMore(Tree(1, [], []), bet.Bounds(), dirty, [], log, t, bet.log, ok, bet.tree);
      HandedMore(bet.Bounds(), inMemory, [], probes, bet.probes, [], handed, bet.handed);
      if !ok {
        StoppedHere(ops, i, bet.Bounds(), dirty, bet.log, failure);
        return;
      }
      outs := outs + [a];
      assert ops[..i + 1][..i] == ops[..i];
      i := i + 1;
    }
    assert ops[..i] == ops;
  }

  /** The state an operation is about to be performed in. */
  ghost function Before(bet: Betree, ops: seq<Operation<Key>>, i: nat): (f: Failure)
    reads bet
    requires i < |ops| && Ran(bet, ops, i) && bet.nextTimestamp <= UINT64_MAX
    ensures f.tree == bet.tree && f.height == bet.height && f.log == bet.log
    ensures Changes(ops[i]) ==> f.message == MessageOf(ops[i], bet.nextTimestamp)
    ensures Ready(ops, i, bet.maxNodeSize, f)
  {
    assert forall k :: Eval(None, All(bet.tree), k) == bet.Meaning(k);
    Failure(bet.tree, bet.height,
            if Changes(ops[i]) then MessageOf(ops[i], bet.nextTimestamp)
            else Entry(MessageKey(0, 0), Message(INSERT, Default)), bet.log)
  }

  ghost predicate Ready(ops: seq<Operation<Key>>, i: nat, max: nat, f: Failure)
    requires i < |ops|
  {
    && WF(f.tree, f.height, Open, Open, max)
    && (Changes(ops[i]) ==> Stamped(All(f.tree), f.message.mkey.timestamp) && f.message.mkey.timestamp <= i + 1)
    && (forall k :: Eval(None, All(f.tree), k) == if k in MapAfter(ops[..i]) then Some(MapAfter(ops[..i])[k]) else None)
  }

  lemma {:induction false} StoppedHere(ops: seq<Operation<Key>>, i: nat, l: Limits, dirty: nat -> bool,
                                       log: seq<Question>, f: Failure)
    requires l.max >= 3 && i < |ops| && Ready(ops, i, l.max, f) && Changes(ops[i])
    requires f.message == MessageOf(ops[i], f.message.mkey.timestamp)
    requires Upserted(f.tree, f.height, f.message, l, dirty, f.log, log, false, f.tree, f.height)
    ensures StoppedAt(ops, i, l, dirty, log, f)
  {
    hide Upserted, Eval, WF, Stamped;
  }

  lemma {:induction false} SameEmpty(bet: Betree)
    requires forall k :: bet.Meaning(k) == None
    ensures Same(bet, map[])
  {
  }

  lemma {:induction false} PerformedMore(t0: Tree, l: Limits, dirty: nat -> bool, log0: seq<Question>,
                                         log: seq<Question>, t: Tree, log': seq<Question>, ok: bool, t': Tree)
    requires Performed(t0, l, dirty, log0, log, true, t) && Performed(t, l, dirty, log, log', ok, t')
    ensures Performed(t0, l, dirty, log0, log', ok, t')
  {
    hide Asked, Dry, FitsF, Fits, Roomy;
    AskedMore(dirty, log0, log, log', ok);
    AskedLength(dirty, log0, log, true);
    AskedLength(dirty, log, log', ok);
  }

  /** Every run of operations on a new tree gives, answer for answer, what the same run
      on a plain map gives, whatever the swap space replies; unless the assertion on the
      fast path stops it, up to where the answers are right.  If no yes of is_dirty comes
      after a no, nothing stops it; Witnesses.StoppedRun shows that otherwise a run can be
      stopped. */
  method Test(ops: seq<Operation<Key>>, maxNodeSize: nat, minFlushSize: nat, dirty: nat -> bool, inMemory: nat -> bool)
    returns (ok: bool, outs: seq<Answer<Key>>, ghost log: seq<Question>, ghost failure: Failure)
    requires maxNodeSize >= 3 && |ops| < UINT64_MAX
    ensures ok ==> outs == MapAnswers(ops)
    ensures |outs| <= |ops| && outs == MapAnswers(ops[..|outs|])
    ensures (forall i, j :: 0 <= i < j && dirty(j) ==> dirty(i)) ==> ok
    ensures Falling(dirty, |log|) ==> ok
    ensures !ok ==> StoppedAt(ops, |outs|, Limits(maxNodeSize, minFlushSize), dirty, log, failure)
    ensures ok <==> NoStop(dirty, log, 0)
  {
    hide MapAnswers, Stop, Ran, StoppedAt;
    var bet;
    ok, outs, bet, failure := RunAll(ops, maxNodeSize, minFlushSize, dirty, inMemory);
    log := bet.log;
    EmptyDry();
    assert ops[..|ops|] == ops;
  }

  lemma {:induction false} EmptyDry()
    ensures Dry(Tree(1, [], []))
  {
  }
}
