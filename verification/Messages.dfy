/** Timestamped messages, the map operation each one stands for, and what a
    sequence of messages (oldest first) means at a key.

    Keys are only ever compared, so they are integers: Keys.dfy shows that any
    finite part of any strict total order is an order-isomorphic copy of a set of
    integers.  Values are only ever added, so they are the free terms over `+`:
    an equation between such terms holds under every reading of `+` and of the
    default value (see ReadingCommutes). */
module Messages {

  import opened Base

  type Key = int

  type Timestamp = t: nat | t <= UINT64_MAX

  datatype Value = Default | Given(tag: int) | Plus(left: Value, right: Value)

  datatype MessageKey = MessageKey(key: Key, timestamp: Timestamp)

  datatype Opcode = INSERT | DELETE | UPDATE

  datatype Message = Message(opcode: Opcode, val: Value)

  /** One node of a message map: its key and the message stored there. */
  datatype Entry = Entry(mkey: MessageKey, msg: Message)

  predicate Less(a: MessageKey, b: MessageKey) {
    a.key < b.key || (a.key == b.key && a.timestamp < b.timestamp)
  }

  function RangeStart(k: Key): MessageKey {
    MessageKey(k, 0)
  }

  function RangeEnd(k: Key): MessageKey {
    MessageKey(k, UINT64_MAX)
  }

  // ---------- Meaning ----------

  /** The map operation a message performs on what the map holds at its key. */
  function Step(held: Option<Value>, m: Message): Option<Value> {
    match m.opcode
    case INSERT => Some(m.val)
    case DELETE => None
    case UPDATE => Some(Plus(if held.Some? then held.value else Default, m.val))
  }

  /** Left fold of the messages for `k` in `s`, oldest first, from `o`. */
  function Eval(o: Option<Value>, s: seq<Entry>, k: Key): Option<Value> {
    if s == [] then o
    else
      var e := s[|s| - 1];
      var r := Eval(o, s[..|s| - 1], k);
      if e.mkey.key == k then Step(r, e.msg) else r
  }

  lemma {:induction false} EvalConcat(o: Option<Value>, a: seq<Entry>, b: seq<Entry>, k: Key)
    ensures Eval(o, a + b, k) == Eval(Eval(o, a, k), b, k)
    decreases |b|
  {
    if b == [] {
      assert a + b == a;
    } else {
      var s := a + b;
      assert s[..|s| - 1] == a + b[..|b| - 1];
      EvalConcat(o, a, b[..|b| - 1], k);
    }
  }

  /** A value type: its values, its default and its operator+. */
  datatype ValueType<!T> = ValueType(given: int -> T, zero: T, plus: (T, T) -> T)

  function Read<T>(r: ValueType<T>, v: Value): T {
    match v
    case Default => r.zero
    case Given(tag) => r.given(tag)
    case Plus(left, right) => r.plus(Read(r, left), Read(r, right))
  }

  function ReadHeld<T>(r: ValueType<T>, o: Option<Value>): Option<T> {
    if o.Some? then Some(Read(r, o.value)) else None
  }

  function StepIn<T>(r: ValueType<T>, held: Option<T>, m: Message): Option<T> {
    match m.opcode
    case INSERT => Some(Read(r, m.val))
    case DELETE => None
    case UPDATE => Some(r.plus(if held.Some? then held.value else r.zero, Read(r, m.val)))
  }

  /** Eval, with the values added up in the value type itself. */
  function EvalIn<T>(r: ValueType<T>, o: Option<T>, s: seq<Entry>, k: Key): Option<T> {
    if s == [] then o
    else
      var e := s[|s| - 1];
      var held := EvalIn(r, o, s[..|s| - 1], k);
      if e.mkey.key == k then StepIn(r, held, e.msg) else held
  }

  lemma {:induction false} StepCommutes<T>(r: ValueType<T>, held: Option<Value>, m: Message)
    ensures StepIn(r, ReadHeld(r, held), m) == ReadHeld(r, Step(held, m))
  {
    if m.opcode == UPDATE {
      var v := if held.Some? then held.value else Default;
      assert Read(r, Plus(v, m.val)) == r.plus(Read(r, v), Read(r, m.val));
    }
  }

  /** Adding up terms and reading the result is adding up in the value type. */
  lemma {:induction false} ReadingCommutes<T>(r: ValueType<T>, o: Option<Value>, s: seq<Entry>, k: Key)
    ensures EvalIn(r, ReadHeld(r, o), s, k) == ReadHeld(r, Eval(o, s, k))
  {
    if s != [] {
      ReadingCommutes(r, o, s[..|s| - 1], k);
      StepCommutes(r, Eval(o, s[..|s| - 1], k), s[|s| - 1].msg);
    }
  }

  // ---------- Message keys of a sequence ----------

  ghost function MKeys(s: seq<Entry>): set<MessageKey> {
    set e | e in s :: e.mkey
  }

  lemma {:induction false} MKeysConcat(a: seq<Entry>, b: seq<Entry>)
    ensures MKeys(a + b) == MKeys(a) + MKeys(b)
  {
  }

  ghost predicate Absent(s: seq<Entry>, k: Key) {
    forall m :: m in MKeys(s) ==> m.key != k
  }

  lemma {:induction false} EvalAbsent(o: Option<Value>, s: seq<Entry>, k: Key)
    requires Absent(s, k)
    ensures Eval(o, s, k) == o
  {
    if s != [] {
      var r := s[..|s| - 1];
      assert s == r + [s[|s| - 1]];
      MKeysConcat(r, [s[|s| - 1]]);
      assert s[|s| - 1].mkey in MKeys(s);
      EvalAbsent(o, r, k);
    }
  }

  /** Wherever the two sets meet in a key, the first is strictly older. */
  ghost predicate Older(a: set<MessageKey>, b: set<MessageKey>) {
    forall x, y :: x in a && y in b && x.key == y.key ==> x.timestamp < y.timestamp
  }

  /** Within one key, timestamps strictly increase along the sequence. */
  ghost predicate Ordered(s: seq<Entry>) {
    forall i, j :: 0 <= i < j < |s| && s[i].mkey.key == s[j].mkey.key
      ==> s[i].mkey.timestamp < s[j].mkey.timestamp
  }

  lemma {:induction false} OrderedConcat(a: seq<Entry>, b: seq<Entry>)
    ensures Ordered(a + b) <==> Ordered(a) && Ordered(b) && Older(MKeys(a), MKeys(b))
  {
    var s := a + b;
    if Ordered(s) {
      assert forall i :: 0 <= i < |a| ==> s[i] == a[i];
      assert forall i :: 0 <= i < |b| ==> s[|a| + i] == b[i];
      forall x, y | x in MKeys(a) && y in MKeys(b) && x.key == y.key
        ensures x.timestamp < y.timestamp
      {
        var i :| 0 <= i < |a| && a[i].mkey == x;
        var j :| 0 <= j < |b| && b[j].mkey == y;
        assert s[i] == a[i] && s[|a| + j] == b[j];
      }
    }
    if Ordered(a) && Ordered(b) && Older(MKeys(a), MKeys(b)) {
      forall i, j | 0 <= i < j < |s| && s[i].mkey.key == s[j].mkey.key
        ensures s[i].mkey.timestamp < s[j].mkey.timestamp
      {
        if i < |a| <= j {
          assert a[i].mkey in MKeys(a) && b[j - |a|].mkey in MKeys(b);
        }
      }
    }
  }

  // ---------- Refinement between message sequences ----------

  /** `t` may stand where `s` stood: it invents no message key, keeps each key's
      messages oldest first, and means the same at every key. */
  ghost predicate Refines(t: seq<Entry>, s: seq<Entry>) {
    && Ordered(t)
    && MKeys(t) <= MKeys(s)
    && forall k :: Eval(None, t, k) == Eval(None, s, k)
  }

  lemma {:induction false} RefinesTransitive(u: seq<Entry>, t: seq<Entry>, s: seq<Entry>)
    requires Refines(u, t) && Refines(t, s)
    ensures Refines(u, s)
  {
  }

  // ---------- Key ranges ----------

  datatype Bound = Open | At(key: Key)

  predicate Inside(k: Key, lo: Bound, hi: Bound) {
    (lo.At? ==> lo.key <= k) && (hi.At? ==> k < hi.key)
  }

  ghost predicate Within(s: seq<Entry>, lo: Bound, hi: Bound) {
    forall m :: m in MKeys(s) ==> Inside(m.key, lo, hi)
  }

  ghost predicate Without(s: seq<Entry>, lo: Bound, hi: Bound) {
    forall m :: m in MKeys(s) ==> !Inside(m.key, lo, hi)
  }

  lemma {:induction false} EvalConcat6(a: seq<Entry>, c: seq<Entry>, b: seq<Entry>,
                    x: seq<Entry>, y: seq<Entry>, z: seq<Entry>, k: Key)
    ensures Eval(None, a + c + b + x + y + z, k)
         == Eval(Eval(Eval(Eval(Eval(Eval(None, a, k), c, k), b, k), x, k), y, k), z, k)
  {
    EvalConcat(None, a, c, k);
    EvalConcat(None, a + c, b, k);
    EvalConcat(None, a + c + b, x, k);
    EvalConcat(None, a + c + b + x, y, k);
    EvalConcat(None, a + c + b + x + y, z, k);
  }

  lemma {:induction false} MKeysConcat6(a: seq<Entry>, c: seq<Entry>, b: seq<Entry>,
                     x: seq<Entry>, y: seq<Entry>, z: seq<Entry>)
    ensures MKeys(a + c + b + x + y + z)
         == MKeys(a) + MKeys(c) + MKeys(b) + MKeys(x) + MKeys(y) + MKeys(z)
  {
  }

  /** Work confined to one key range: inside it `c` receives the batch `y` and
      becomes `c'`; everything else lies outside it. */
  lemma {:induction false} RefinesInside(a: seq<Entry>, c: seq<Entry>, b: seq<Entry>,
                      x: seq<Entry>, y: seq<Entry>, z: seq<Entry>,
                      c': seq<Entry>, lo: Bound, hi: Bound)
    requires Ordered(a + c + b + x + y + z)
    requires Refines(c', c + y)
    requires Within(c, lo, hi) && Within(y, lo, hi)
    requires Without(a, lo, hi) && Without(b, lo, hi)
    requires Without(x, lo, hi) && Without(z, lo, hi)
    ensures Refines(a + c' + b + x + z, a + c + b + x + y + z)
  {
    MKeysConcat(c, y);
    MKeysConcat6(a, c, b, x, y, z);
    MKeysConcat6(a, c', b, x, [], z);
    assert a + c' + b + x + [] == a + c' + b + x;
    assert Within(c', lo, hi);
    forall k ensures Eval(None, a + c' + b + x + z, k) == Eval(None, a + c + b + x + y + z, k) {
      EvalConcat6(a, c, b, x, y, z, k);
      EvalConcat6(a, c', b, x, [], z, k);
      EvalInside(a, c, b, x, y, z, c', lo, hi, k);
    }
    OrderedInside(a, c, b, x, y, z, c', lo, hi);
  }

  lemma {:induction false} EvalInside(a: seq<Entry>, c: seq<Entry>, b: seq<Entry>,
                   x: seq<Entry>, y: seq<Entry>, z: seq<Entry>,
                   c': seq<Entry>, lo: Bound, hi: Bound, k: Key)
    requires Eval(None, c', k) == Eval(None, c + y, k)
    requires Within(c, lo, hi) && Within(y, lo, hi) && Within(c', lo, hi)
    requires Without(a, lo, hi) && Without(b, lo, hi)
    requires Without(x, lo, hi) && Without(z, lo, hi)
    ensures Eval(Eval(Eval(Eval(Eval(None, a, k), c', k), b, k), x, k), z, k)
         == Eval(Eval(Eval(Eval(Eval(Eval(None, a, k), c, k), b, k), x, k), y, k), z, k)
  {
    if Inside(k, lo, hi) {
      EvalAbsent(None, a, k);
      EvalConcat(None, c, y, k);
      EvalAbsent(Eval(None, c, k), b, k);
      EvalAbsent(Eval(None, c, k), x, k);
      EvalAbsent(Eval(None, c + y, k), z, k);
      EvalAbsent(Eval(None, c', k), b, k);
      EvalAbsent(Eval(None, c', k), x, k);
      EvalAbsent(Eval(None, c', k), z, k);
    } else {
      EvalAbsent(Eval(None, a, k), c, k);
      EvalAbsent(Eval(None, a, k), c', k);
      EvalAbsent(Eval(Eval(Eval(None, a, k), b, k), x, k), y, k);
    }
  }

  lemma {:induction false} OrderedInside(a: seq<Entry>, c: seq<Entry>, b: seq<Entry>,
                      x: seq<Entry>, y: seq<Entry>, z: seq<Entry>,
                      c': seq<Entry>, lo: Bound, hi: Bound)
    requires Ordered(a + c + b + x + y + z)
    requires Ordered(c') && Within(c', lo, hi)
    requires Without(a, lo, hi) && Without(b, lo, hi)
    requires Without(x, lo, hi) && Without(z, lo, hi)
    ensures Ordered(a + c' + b + x + z)
  {
    OrderedConcat(a + c + b + x + y, z);
    OrderedConcat(a + c + b + x, y);
    OrderedConcat(a + c + b, x);
    OrderedConcat(a + c, b);
    OrderedConcat(a, c);
    MKeysConcat6(a, c, b, x, y, []);
    assert a + c + b + x + y + [] == a + c + b + x + y;
    MKeysConcat(a, c);
    MKeysConcat(a + c, b);
    OrderedConcat(a, c');
    MKeysConcat(a, c');
    OrderedConcat(a + c', b);
    MKeysConcat(a + c', b);
    OrderedConcat(a + c' + b, x);
    MKeysConcat(a + c' + b, x);
    OrderedConcat(a + c' + b + x, z);
  }

  /** A block and a later one keep their order when what surrounds them goes. */
  lemma {:induction false} OrderedPart(a: seq<Entry>, c: seq<Entry>, b: seq<Entry>,
                                       x: seq<Entry>, y: seq<Entry>, z: seq<Entry>)
    requires Ordered(a + c + b + x + y + z)
    ensures Ordered(c + y)
  {
    hide Ordered;
    OrderedConcat(a + c + b + x + y, z);
    OrderedConcat(a + c + b + x, y);
    OrderedConcat(a + c + b, x);
    OrderedConcat(a + c, b);
    OrderedConcat(a, c);
    MKeysConcat(a, c);
    MKeysConcat(a + c, b);
    MKeysConcat(a + c + b, x);
    OrderedConcat(c, y);
  }
}
