/** From integer keys back to the keys of the program: a run over the keys of any strict
    total order is, renamed, the run over their ranks. */
module AnyKeys {
  import opened Base
  import opened Messages
  import opened Keys
  import opened PlainMaps
  import opened Reference

  // ---------- The plain map over ordered keys ----------

  /** `ps` lists the entries of `m`, each once, in the order `less`. */
  ghost predicate ListsBy<K>(less: (K, K) -> bool, m: map<K, Value>, ps: seq<(K, Value)>) {
    && (forall i, j :: 0 <= i < j < |ps| ==> less(ps[i].0, ps[j].0))
    && (forall i :: 0 <= i < |ps| ==> ps[i].0 in m && m[ps[i].0] == ps[i].1)
    && (forall k :: k in m ==> exists i :: 0 <= i < |ps| && ps[i].0 == k)
  }

  ghost function FromBy<K>(less: (K, K) -> bool, m: map<K, Value>, k: K): map<K, Value> {
    map x | x in m && !less(x, k) :: m[x]
  }

  ghost function BehindBy<K>(less: (K, K) -> bool, m: map<K, Value>, k: K): map<K, Value> {
    map x | x in m && less(k, x) :: m[x]
  }

  /** What a map ordered by `less` answers. */
  ghost predicate AnswersBy<K>(less: (K, K) -> bool, m: map<K, Value>, op: Operation<K>, a: Answer<K>) {
    match op
    case Query(k) => a == Found(if k in m then Some(m[k]) else None)
    case FullScan => a.Scanned? && ListsBy(less, m, a.pairs)
    case LowerBoundScan(k) => a.Scanned? && ListsBy(less, FromBy(less, m, k), a.pairs)
    case UpperBoundScan(k) => a.Scanned? && ListsBy(less, BehindBy(less, m, k), a.pairs)
    case _ => a == Done
  }

  // ---------- Renaming ----------

  ghost function RenamedOp<K>(keys: set<K>, less: (K, K) -> bool, op: Operation<K>): Operation<Key> {
    match op
    case Insert(k, v) => Insert(Rank(keys, less, k), v)
    case Update(k, v) => Update(Rank(keys, less, k), v)
    case Erase(k) => Erase(Rank(keys, less, k))
    case Query(k) => Query(Rank(keys, less, k))
    case FullScan => FullScan
    case LowerBoundScan(k) => LowerBoundScan(Rank(keys, less, k))
    case UpperBoundScan(k) => UpperBoundScan(Rank(keys, less, k))
  }

  ghost function RenamedOps<K>(keys: set<K>, less: (K, K) -> bool, ops: seq<Operation<K>>): seq<Operation<Key>> {
    seq(|ops|, i requires 0 <= i < |ops| => RenamedOp(keys, less, ops[i]))
  }

  ghost function RenamedPairs<K>(keys: set<K>, less: (K, K) -> bool, ps: seq<(K, Value)>): Pairs {
    seq(|ps|, i requires 0 <= i < |ps| => (Rank(keys, less, ps[i].0), ps[i].1))
  }

  ghost function RenamedAnswer<K>(keys: set<K>, less: (K, K) -> bool, a: Answer<K>): Answer<Key> {
    match a
    case Done => Done
    case Found(v) => Found(v)
    case Scanned(ps) => Scanned(RenamedPairs(keys, less, ps))
  }

  /** The operation names only keys of the set. */
  ghost predicate Over<K>(keys: set<K>, op: Operation<K>) {
    op.FullScan? || op.key in keys
  }

  /** `m'` is `m` with its keys renamed. */
  ghost predicate Renames<K>(keys: set<K>, less: (K, K) -> bool, m: map<K, Value>, m': Map) {
    && m.Keys <= keys
    && (forall k :: k in m ==> Rank(keys, less, k) in m' && m'[Rank(keys, less, k)] == m[k])
    && (forall r :: r in m' ==> exists k :: k in m && Rank(keys, less, k) == r)
  }

  lemma {:induction false} StepRenames<K>(keys: set<K>, less: (K, K) -> bool, m: map<K, Value>, m': Map,
                                          op: Operation<K>)
    requires StrictTotalOrder(keys, less) && Renames(keys, less, m, m') && Over(keys, op)
    ensures Renames(keys, less, MapStep(m, op), MapStep(m', RenamedOp(keys, less, op)))
  {
    hide Rank, StrictTotalOrder;
    if op.Insert? || op.Update? || op.Erase? {
      forall k | k in keys ensures k == op.key <==> Rank(keys, less, k) == Rank(keys, less, op.key) {
        RankEmbeds(keys, less, k, op.key);
      }
    }
  }

  lemma {:induction false} AfterRenames<K>(keys: set<K>, less: (K, K) -> bool, ops: seq<Operation<K>>)
    requires StrictTotalOrder(keys, less) && forall i :: 0 <= i < |ops| ==> Over(keys, ops[i])
    ensures Renames(keys, less, MapAfter(ops), MapAfter(RenamedOps(keys, less, ops)))
  {
    if ops != [] {
      var r, ren := ops[..|ops| - 1], RenamedOps(keys, less, ops);
      AfterRenames(keys, less, r);
      assert ren[..|ren| - 1] == RenamedOps(keys, less, r);
      StepRenames(keys, less, MapAfter(r), MapAfter(RenamedOps(keys, less, r)), ops[|ops| - 1]);
    }
  }

  // ---------- Answers ----------

  ghost function Unrank<K>(keys: set<K>, less: (K, K) -> bool, m: map<K, Value>, m': Map, r: Key): (k: K)
    requires Renames(keys, less, m, m') && r in m'
    ensures k in m && Rank(keys, less, k) == r
  {
    var k :| k in m && Rank(keys, less, k) == r;
    k
  }

  ghost function Unranked<K>(keys: set<K>, less: (K, K) -> bool, m: map<K, Value>, m': Map, qs: Pairs): (ps: seq<(K,
                             Value)>)
    requires Renames(keys, less, m, m') && forall i :: 0 <= i < |qs| ==> qs[i].0 in m'
    ensures |ps| == |qs|
    ensures forall i :: 0 <= i < |ps| ==> ps[i].0 in m && Rank(keys, less, ps[i].0) == qs[i].0 && ps[i].1 == qs[i].1
  {
    seq(|qs|, i requires 0 <= i < |qs| => (Unrank(keys, less, m, m', qs[i].0), qs[i].1))
  }

  /** A listing of the renamed map is the renaming of a listing. */
  lemma {:induction false} ListingRenamed<K>(keys: set<K>, less: (K, K) -> bool, m: map<K, Value>, m': Map)
    returns (ps: seq<(K, Value)>)
    requires StrictTotalOrder(keys, less) && Renames(keys, less, m, m')
    ensures ListsBy(less, m, ps) && InOrder(m') == RenamedPairs(keys, less, ps)
  {
    hide Rank, StrictTotalOrder, InOrder, Unranked;
    InOrderLists(m');
    var qs := InOrder(m');
    ps := Unranked(keys, less, m, m', qs);
    forall i, j | 0 <= i < j < |ps| ensures less(ps[i].0, ps[j].0) {
      RankEmbeds(keys, less, ps[i].0, ps[j].0);
    }
    forall k | k in m ensures exists i :: 0 <= i < |ps| && ps[i].0 == k {
      Listed(keys, less, m, m', qs, ps, k);
    }
    assert RenamedPairs(keys, less, ps) == qs;
  }

  lemma {:induction false} Listed<K>(keys: set<K>, less: (K, K) -> bool, m: map<K, Value>, m': Map, qs: Pairs,
                                     ps: seq<(K, Value)>, k: K)
    requires StrictTotalOrder(keys, less) && Renames(keys, less, m, m') && PlainMaps.Lists(m', qs) && k in m
    requires |ps| == |qs| && forall i :: 0 <= i < |ps| ==> ps[i].0 in m && Rank(keys, less, ps[i].0) == qs[i].0
    ensures exists i :: 0 <= i < |ps| && ps[i].0 == k
  {
    hide Rank, StrictTotalOrder;
    var i :| 0 <= i < |qs| && qs[i].0 == Rank(keys, less, k);
    RankEmbeds(keys, less, k, ps[i].0);
  }

  lemma {:induction false} PartRenames<K>(keys: set<K>, less: (K, K) -> bool, m: map<K, Value>, m': Map, k: K)
    requires StrictTotalOrder(keys, less) && Renames(keys, less, m, m') && k in keys
    ensures Renames(keys, less, FromBy(less, m, k), From(m', Rank(keys, less, k)))
    ensures Renames(keys, less, BehindBy(less, m, k), Behind(m', Rank(keys, less, k)))
  {
    hide Rank, StrictTotalOrder;
    forall x | x in m
      ensures less(x, k) <==> Rank(keys, less, x) < Rank(keys, less, k)
      ensures less(k, x) <==> Rank(keys, less, k) < Rank(keys, less, x)
    {
      RankEmbeds(keys, less, x, k);
      RankEmbeds(keys, less, k, x);
    }
  }

  lemma {:induction false} AnswerRenamed<K>(keys: set<K>, less: (K, K) -> bool, m: map<K, Value>, m': Map,
                                            op: Operation<K>)
    returns (a: Answer<K>)
    requires StrictTotalOrder(keys, less) && Renames(keys, less, m, m') && Over(keys, op)
    ensures AnswersBy(less, m, op, a) && MapAnswer(m', RenamedOp(keys, less, op)) == RenamedAnswer(keys, less, a)
  {
    hide Rank, StrictTotalOrder, InOrder, ListsBy, RenamedPairs;
    match op
    case Query(k) =>
      a := Found(if k in m then Some(m[k]) else None);
      QueryRenamed(keys, less, m, m', k);
    case FullScan =>
      var ps := ListingRenamed(keys, less, m, m');
      a := Scanned(ps);
    case LowerBoundScan(k) =>
      PartRenames(keys, less, m, m', k);
      var ps := ListingRenamed(keys, less, FromBy(less, m, k), From(m', Rank(keys, less, k)));
      a := Scanned(ps);
    case UpperBoundScan(k) =>
      PartRenames(keys, less, m, m', k);
      var ps := ListingRenamed(keys, less, BehindBy(less, m, k), Behind(m', Rank(keys, less, k)));
      a := Scanned(ps);
    case _ =>
      a := Done;
  }

  lemma {:induction false} QueryRenamed<K>(keys: set<K>, less: (K, K) -> bool, m: map<K, Value>, m': Map, k: K)
    requires StrictTotalOrder(keys, less) && Renames(keys, less, m, m') && k in keys
    ensures k in m <==> Rank(keys, less, k) in m'
    ensures k in m ==> m'[Rank(keys, less, k)] == m[k]
  {
    hide Rank, StrictTotalOrder;
    if Rank(keys, less, k) in m' {
      var x := Unrank(keys, less, m, m', Rank(keys, less, k));
      RankEmbeds(keys, less, x, k);
    }
  }

  lemma {:induction false} AnswersAt(ops: seq<Operation<Key>>, i: nat)
    requires i < |ops|
    ensures |MapAnswers(ops)| == |ops| && MapAnswers(ops)[i] == MapAnswer(MapAfter(ops[..i]), ops[i])
    decreases |ops|
  {
    hide MapAnswer;
    var r := ops[..|ops| - 1];
    if r != [] {
      AnswersAt(r, if i < |r| then i else 0);
    }
    if i < |r| {
      assert r[..i] == ops[..i];
    }
  }

  /** Renamed to ranks, a run answers at each step with the renaming of what a map ordered
      by `less` answers; so what holds of every run over integers holds of every run over
      the keys of a strict total order. */
  lemma {:induction false} RunRenamed<K>(keys: set<K>, less: (K, K) -> bool, ops: seq<Operation<K>>, i: nat)
    returns (a: Answer<K>)
    requires StrictTotalOrder(keys, less) && (forall j :: 0 <= j < |ops| ==> Over(keys, ops[j])) && i < |ops|
    ensures AnswersBy(less, MapAfter(ops[..i]), ops[i], a)
    ensures var outs := MapAnswers(RenamedOps(keys, less, ops));
            i < |outs| && outs[i] == RenamedAnswer(keys, less, a)
  {
    hide StrictTotalOrder, MapAnswer, RenamedOp, AnswersBy, RenamedAnswer;
    var ren := RenamedOps(keys, less, ops);
    AnswersAt(ren, i);
    AfterRenames(keys, less, ops[..i]);
    assert ren[..i] == RenamedOps(keys, less, ops[..i]);
    a := AnswerRenamed(keys, less, MapAfter(ops[..i]), MapAfter(ren[..i]), ops[i]);
  }
}
