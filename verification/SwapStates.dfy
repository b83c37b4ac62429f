/** The swap space's tables, and what must hold between them. */
module SwapStates {
  import opened Base

  type ObjectId = nat

  type StoreId = nat

  /** A swappable object: its plain data and the pointers it holds to other objects. */
  datatype Content = Content(data: int, refs: seq<ObjectId>)

  datatype Object = Object(target: Option<Content>, bsid: StoreId, isLeaf: bool, refcount: nat,
                           lastAccess: nat, dirty: bool, pincount: nat)

  type Table = map<ObjectId, Object>

  type Files = map<StoreId, Content>

  type Heap = map<ObjectId, Content>

  // ---------- The invariants ----------

  /** Ids are positive and below the next one to be given out. */
  ghost predicate Named(t: Table, next: ObjectId) {
    0 !in t && forall o :: o in t ==> o < next
  }

  lemma {:induction false} NamedSame(t: Table, next: ObjectId, id: ObjectId, o: Object)
    requires Named(t, next) && id in t
    ensures Named(t[id := o], next)
  {
  }

  lemma {:induction false} NamedNew(t: Table, next: ObjectId, id: ObjectId, o: Object)
    requires Named(t, next) && 0 < id && next <= id
    ensures id !in t && Named(t[id := o], id + 1)
  {
  }

  /** Memory and disk against the plain heap `h`: a resident object is what the heap
      holds, a clean one has its image on disk, and what is not resident is clean and
      knows whether its image holds references. */
  ghost predicate Imaged(t: Table, f: Files, h: Heap) {
    && t.Keys == h.Keys
    && forall o :: o in t ==>
         && (t[o].target.Some? ==> t[o].target.value == h[o])
         && (!t[o].dirty ==> t[o].bsid in f && f[t[o].bsid] == h[o])
         && (t[o].target.None? ==> !t[o].dirty && (t[o].isLeaf <==> h[o].refs == []))
  }

  /** The allocated store ids are those of the objects, one object each, and `doomed`. */
  ghost predicate Owned(t: Table, f: Files, owner: map<StoreId, ObjectId>, doomed: set<StoreId>, next: StoreId) {
    && 0 !in f && (forall b :: b in f ==> b < next)
    && owner.Keys !! doomed && f.Keys == owner.Keys + doomed
    && (forall b :: b in owner ==> owner[b] in t && t[owner[b]].bsid == b)
    && (forall o :: o in t && t[o].bsid > 0 ==> t[o].bsid in owner && owner[t[o].bsid] == o)
  }

  /** Access times are in the past and pairwise distinct. */
  ghost predicate Clocked(t: Table, now: nat) {
    && (forall o :: o in t ==> t[o].lastAccess < now)
    && (forall o, o' :: o in t && o' in t && o != o' ==> t[o].lastAccess != t[o'].lastAccess)
  }

  /** Least recently accessed first. */
  ghost predicate LruOrder(t: Table, q: seq<ObjectId>) {
    && (forall i :: 0 <= i < |q| ==> q[i] in t)
    && (forall i, j :: 0 <= i < j < |q| ==> t[q[i]].lastAccess < t[q[j]].lastAccess)
  }

  /** The queue holds exactly the resident objects, least recently accessed first. */
  ghost predicate Queued(t: Table, q: seq<ObjectId>, now: nat) {
    && Clocked(t, now) && LruOrder(t, q)
    && forall o :: o in q <==> o in t && t[o].target.Some?
  }

  /** How many of the pointers in `s` point to `x`. */
  ghost function Occurs(s: seq<ObjectId>, x: ObjectId): nat {
    multiset(s)[x]
  }

  lemma Shrinks(h: Heap, o: ObjectId)
    requires o in h
    ensures |h - {o}| == |h| - 1
  {
  }

  /** How many of the pointers inside the objects of a heap point to `x`. */
  ghost function Inner(h: Heap, x: ObjectId): nat
    decreases |h|
  {
    if h.Keys == {} then 0
    else
      var o := Pick(h.Keys);
      Shrinks(h, o);
      Occurs(h[o].refs, x) + Inner(h - {o}, x)
  }

  /** Every object's count is the number of pointers to it: those in `bag`, outside the
      objects, and those inside objects, resident or not; and no pointer dangles. */
  ghost predicate Counted(t: Table, h: Heap, bag: multiset<ObjectId>) {
    && (forall o :: o in t ==> t[o].refcount == bag[o] + Inner(h, o) && t[o].refcount > 0)
    && (forall o :: bag[o] + Inner(h, o) > 0 ==> o in t)
  }

  // ---------- References inside a heap ----------

  lemma {:induction false} InnerRemove(h: Heap, o: ObjectId, x: ObjectId)
    requires o in h
    ensures Inner(h, x) == Occurs(h[o].refs, x) + Inner(h - {o}, x)
    decreases |h|
  {
    hide Occurs;
    var p := Pick(h.Keys);
    if p != o {
      Shrinks(h, p);
      Shrinks(h, o);
      InnerRemove(h - {p}, o, x);
      InnerRemove(h - {o}, p, x);
      assert h - {p} - {o} == h - {o} - {p};
    }
  }

  lemma {:induction false} InnerUpdate(h: Heap, o: ObjectId, c: Content, x: ObjectId)
    ensures o in h ==> Inner(h[o := c], x) + Occurs(h[o].refs, x) == Inner(h, x) + Occurs(c.refs, x)
    ensures o !in h ==> Inner(h[o := c], x) == Inner(h, x) + Occurs(c.refs, x)
  {
    hide Occurs, Inner;
    InnerRemove(h[o := c], o, x);
    if o in h {
      InnerRemove(h, o, x);
      assert h[o := c] - {o} == h - {o};
    } else {
      assert h[o := c] - {o} == h;
    }
  }

  // ---------- Queue ----------

  function Without(q: seq<ObjectId>, o: ObjectId): (r: seq<ObjectId>)
    ensures o !in r && forall x :: x in r <==> x in q && x != o
    ensures o !in q ==> r == q
  {
    if q == [] then [] else
    var r := Without(q[..|q| - 1], o);
    if q[|q| - 1] == o then r else r + [q[|q| - 1]]
  }

  lemma {:induction false} WithoutOrder(t: Table, q: seq<ObjectId>, o: ObjectId)
    requires LruOrder(t, q)
    ensures LruOrder(t, Without(q, o))
  {
    if q != [] {
      var p, last := q[..|q| - 1], q[|q| - 1];
      WithoutOrder(t, p, o);
      var r := Without(p, o);
      forall i | 0 <= i < |r| ensures t[r[i]].lastAccess < t[last].lastAccess {
        assert r[i] in p;
      }
    }
  }

  lemma {:induction false} WithoutLength(t: Table, q: seq<ObjectId>, o: ObjectId)
    requires LruOrder(t, q)
    ensures |Without(q, o)| == |q| - (if o in q then 1 else 0)
  {
    assert forall i, j :: 0 <= i < j < |q| ==> q[i] != q[j];
    WithoutOne(q, o);
  }

  lemma {:induction false} WithoutOne(q: seq<ObjectId>, o: ObjectId)
    requires forall i, j :: 0 <= i < j < |q| ==> q[i] != q[j]
    ensures |Without(q, o)| == |q| - (if o in q then 1 else 0)
  {
    if q != [] {
      var p, last := q[..|q| - 1], q[|q| - 1];
      WithoutOne(p, o);
      assert last !in p;
      assert o in q <==> o in p || o == last;
    }
  }

  lemma {:induction false} LruSame(t: Table, t': Table, q: seq<ObjectId>)
    requires LruOrder(t, q) && forall x :: x in q ==> x in t' && x in t && t'[x].lastAccess == t[x].lastAccess
    ensures LruOrder(t', q)
  {
  }

  lemma {:induction false} LruAppend(t: Table, q: seq<ObjectId>, id: ObjectId)
    requires LruOrder(t, q) && id in t && forall x :: x in q ==> x in t && t[x].lastAccess < t[id].lastAccess
    ensures LruOrder(t, q + [id])
  {
  }

  // ---------- Steps ----------

  /** The tables differ in reference and pin counts only. */
  ghost predicate SameButCounts(t: Table, t': Table) {
    && t.Keys == t'.Keys
    && forall o :: o in t ==> t'[o] == t[o].(refcount := t'[o].refcount, pincount := t'[o].pincount)
  }

  lemma {:induction false} CountsOnly(t: Table, t': Table, f: Files, h: Heap, owner: map<StoreId, ObjectId>,
                                      doomed: set<StoreId>, next: StoreId, q: seq<ObjectId>, now: nat)
    requires Imaged(t, f, h) && Owned(t, f, owner, doomed, next) && Queued(t, q, now) && SameButCounts(t, t')
    ensures Imaged(t', f, h) && Owned(t', f, owner, doomed, next) && Queued(t', q, now)
  {
  }

  /** What writing an object back and dropping it from memory makes of it. */
  function Evicted(o: Object, b: StoreId): Object
    requires o.target.Some?
  {
    o.(target := None, isLeaf := o.target.value.refs == [], dirty := false,
       bsid := if o.dirty then b else o.bsid)
  }

  /** What serialising an object leaves of it in memory: every pointer in it is null. */
  function Nulled(c: Content): Content {
    Content(c.data, seq(|c.refs|, i => 0))
  }

  predicate AllNull(refs: seq<ObjectId>) {
    forall r :: r in refs ==> r == 0
  }

  lemma {:induction false} NullAt(refs: seq<ObjectId>, i: nat)
    requires AllNull(refs) && i < |refs|
    ensures refs[i] == 0
  {
    assert refs[i] in refs;
  }

  lemma {:induction false} NulledNull(c: Content)
    ensures AllNull(Nulled(c).refs)
  {
    var refs := Nulled(c).refs;
    forall r | r in refs ensures r == 0 {
      var i :| 0 <= i < |refs| && refs[i] == r;
    }
  }

  ghost function EvictedFiles(f: Files, o: Object, b: StoreId): Files
    requires o.target.Some?
  {
    if o.dirty then f[b := o.target.value] - (if o.bsid > 0 then {o.bsid} else {}) else f
  }

  ghost function EvictedOwner(owner: map<StoreId, ObjectId>, id: ObjectId, o: Object, b: StoreId): map<StoreId,
                              ObjectId> {
    if o.dirty then (owner - {o.bsid})[b := id] else owner
  }

  lemma {:induction false} EvictImaged(t: Table, f: Files, h: Heap, owner: map<StoreId, ObjectId>, doomed: set<StoreId>,
                                       next: StoreId, id: ObjectId)
    requires Imaged(t, f, h) && Owned(t, f, owner, doomed, next) && id in t && t[id].target.Some? && next > 0
    ensures var t', f' := t[id := Evicted(t[id], next)], EvictedFiles(f, t[id], next);
            Imaged(t', f', h)
  {
    var t', f' := t[id := Evicted(t[id], next)], EvictedFiles(f, t[id], next);
    forall o | o in t && o != id && !t[o].dirty ensures t[o].bsid in f' && f'[t[o].bsid] == h[o] {
      assert t[o].bsid in f && t[o].bsid < next && t[o].bsid in owner;
      assert t[id].bsid > 0 ==> t[id].bsid in owner && owner[t[id].bsid] == id;
      assert owner[t[o].bsid] == o;
    }
  }

  lemma {:induction false} EvictOwned(t: Table, f: Files, owner: map<StoreId, ObjectId>, doomed: set<StoreId>,
                                      next: StoreId, id: ObjectId)
    requires Owned(t, f, owner, doomed, next) && id in t && t[id].target.Some? && next > 0
    ensures var t', f' := t[id := Evicted(t[id], next)], EvictedFiles(f, t[id], next);
            Owned(t', f', EvictedOwner(owner, id, t[id], next), doomed, if t[id].dirty then next + 1 else next)
  {
  }

  lemma {:induction false} EvictQueued(t: Table, q: seq<ObjectId>, now: nat, id: ObjectId, b: StoreId)
    requires Queued(t, q, now) && id in t && t[id].target.Some?
    ensures Queued(t[id := Evicted(t[id], b)], Without(q, id), now)
    ensures |Without(q, id)| == |q| - 1
  {
    hide LruOrder;
    WithoutOrder(t, q, id);
    WithoutLength(t, q, id);
    LruSame(t, t[id := Evicted(t[id], b)], Without(q, id));
  }

  lemma {:induction false} EvictCounted(t: Table, h: Heap, bag: multiset<ObjectId>, id: ObjectId, o: Object)
    requires Counted(t, h, bag) && id in t && o.refcount == t[id].refcount
    ensures Counted(t[id := o], h, bag)
  {
  }

  /** What an access makes of an object whose current content is `c`. */
  function Accessed(o: Object, now: nat, dirty: bool, c: Content): Object {
    o.(target := Some(c), lastAccess := now, dirty := o.dirty || dirty)
  }

  lemma {:induction false} AccessImaged(t: Table, f: Files, h: Heap, now: nat, id: ObjectId, dirty: bool)
    requires Imaged(t, f, h) && id in t
    ensures Imaged(t[id := Accessed(t[id], now, dirty, h[id])], f, h)
  {
  }

  lemma {:induction false} AccessOwned(t: Table, f: Files, owner: map<StoreId, ObjectId>, doomed: set<StoreId>,
                                       next: StoreId, id: ObjectId, o: Object)
    requires Owned(t, f, owner, doomed, next) && id in t && o.bsid == t[id].bsid
    ensures Owned(t[id := o], f, owner, doomed, next)
  {
  }

  lemma {:induction false} AccessQueued(t: Table, q: seq<ObjectId>, now: nat, id: ObjectId, o: Object)
    requires Queued(t, q, now) && id in t && o.target.Some? && o.lastAccess == now
    ensures Queued(t[id := o], Without(q, id) + [id], now + 1)
    ensures |Without(q, id)| + 1 == |q| + (if t[id].target.Some? then 0 else 1)
  {
    hide LruOrder;
    var r, t' := Without(q, id), t[id := o];
    WithoutOrder(t, q, id);
    WithoutLength(t, q, id);
    LruSame(t, t', r);
    LruAppend(t', r, id);
    forall x ensures x in r + [id] <==> x in t' && t'[x].target.Some? {
      assert x in r + [id] <==> x in r || x == id;
    }
  }

  /** A new object enters the table. */
  lemma {:induction false} AllocateStep(t: Table, f: Files, h: Heap, owner: map<StoreId, ObjectId>,
                                        doomed: set<StoreId>,
                                        next: StoreId, q: seq<ObjectId>, now: nat, bag: multiset<ObjectId>,
                                        id: ObjectId, o: Object)
    requires Imaged(t, f, h) && Owned(t, f, owner, doomed, next) && Queued(t, q, now) && Counted(t, h, bag)
    requires id !in t && o.target.Some? && o.target.value.refs == [] && o.dirty && o.bsid == 0
    requires o.refcount == 1 && o.lastAccess == now
    ensures var t', h' := t[id := o], h[id := o.target.value];
            && Imaged(t', f, h') && Owned(t', f, owner, doomed, next)
            && Queued(t', q + [id], now + 1) && Counted(t', h', bag + multiset{id})
  {
    AllocateCounted(t, h, bag, id, o);
    AllocateQueued(t, q, now, id, o);
  }

  lemma {:induction false} AllocateQueued(t: Table, q: seq<ObjectId>, now: nat, id: ObjectId, o: Object)
    requires Queued(t, q, now) && id !in t && o.target.Some? && o.lastAccess == now
    ensures Queued(t[id := o], q + [id], now + 1)
  {
  }

  lemma {:induction false} AllocateCounted(t: Table, h: Heap, bag: multiset<ObjectId>, id: ObjectId, o: Object)
    requires Counted(t, h, bag) && t.Keys == h.Keys
    requires id !in t && o.target.Some? && o.target.value.refs == [] && o.refcount == 1
    ensures Counted(t[id := o], h[id := o.target.value], bag + multiset{id})
  {
    hide Inner;
    var h' := h[id := o.target.value];
    forall x: ObjectId ensures Inner(h', x) == Inner(h, x) {
      InnerUpdate(h, id, o.target.value, x);
    }
    assert bag[id] + Inner(h, id) == 0;
  }

  /** Removing an object whose last pointer is the one in `bag`: the pointers it held
      come out of it. */
  lemma {:induction false} RemoveCounted(t: Table, h: Heap, bag: multiset<ObjectId>, id: ObjectId,
                                         bag': multiset<ObjectId>)
    requires Counted(t, h, bag) && t.Keys == h.Keys && id in t && t[id].refcount == 1 && bag[id] > 0
    requires forall x: ObjectId :: bag'[x] == bag[x] - (if x == id then 1 else 0) + Occurs(h[id].refs, x)
    ensures Counted(t - {id}, h - {id}, bag')
  {
    hide Inner, Occurs;
    forall x: ObjectId ensures Inner(h, x) == Occurs(h[id].refs, x) + Inner(h - {id}, x) {
      InnerRemove(h, id, x);
    }
    assert t[id].refcount == bag[id] + Inner(h, id);
  }

  lemma {:induction false} RemoveImaged(t: Table, f: Files, h: Heap, id: ObjectId)
    requires Imaged(t, f, h) && id in t
    ensures Imaged(t - {id}, f, h - {id})
  {
  }

  lemma {:induction false} RemoveOwned(t: Table, f: Files, owner: map<StoreId, ObjectId>, doomed: set<StoreId>,
                                       next: StoreId, id: ObjectId)
    requires Owned(t, f, owner, doomed, next) && id in t
    ensures var b := t[id].bsid;
            && Owned(t - {id}, f, if b > 0 then owner - {b} else owner, if b > 0 then doomed + {b} else doomed, next)
            && (b > 0 ==> b in f && b !in doomed)
  {
  }

  lemma {:induction false} RemoveQueued(t: Table, q: seq<ObjectId>, now: nat, id: ObjectId)
    requires Queued(t, q, now) && id in t
    ensures Queued(t - {id}, Without(q, id), now)
    ensures |Without(q, id)| == |q| - (if t[id].target.Some? then 1 else 0)
  {
    hide LruOrder;
    WithoutOrder(t, q, id);
    WithoutLength(t, q, id);
    LruSame(t, t - {id}, Without(q, id));
  }

  lemma {:induction false} ImageHeld(t: Table, f: Files, owner: map<StoreId, ObjectId>, doomed: set<StoreId>,
                                     next: StoreId, id: ObjectId)
    requires Owned(t, f, owner, doomed, next) && id in t && t[id].bsid > 0
    ensures t[id].bsid in f && t[id].bsid < next
  {
  }

  lemma {:induction false} QueueHolds(t: Table, q: seq<ObjectId>, now: nat)
    requires Queued(t, q, now)
    ensures forall i :: 0 <= i < |q| ==> q[i] in t && t[q[i]].target.Some?
    ensures forall i, j :: 0 <= i < j < |q| ==> t[q[i]].lastAccess < t[q[j]].lastAccess
  {
  }

  /** Every other unpinned object in the queue was accessed after `v`. */
  ghost predicate OldestUnpinned(t: Table, q: seq<ObjectId>, v: ObjectId) {
    v in t && t[v].pincount == 0 &&
    forall o :: o in q && o != v && o in t && t[o].pincount == 0 ==> t[v].lastAccess < t[o].lastAccess
  }

  ghost predicate AllPinned(t: Table, q: seq<ObjectId>) {
    forall o :: o in q ==> o in t && t[o].pincount > 0
  }

  /** The first unpinned entry of the queue is the one least recently accessed. */
  lemma {:induction false} VictimOldest(t: Table, q: seq<ObjectId>, i: nat, now: nat)
    requires Queued(t, q, now) && i < |q| && forall j :: 0 <= j < i ==> q[j] in t && t[q[j]].pincount > 0
    requires q[i] in t && t[q[i]].pincount == 0
    ensures OldestUnpinned(t, q, q[i])
  {
  }

  // ---------- The whole state ----------

  /** Everything the swap space keeps, and the plain heap it stands for. */
  datatype View = View(objects: Table, files: Files, owner: map<StoreId, ObjectId>, nextStore: StoreId,
                       heap: Heap, lru: seq<ObjectId>, now: nat, ext: multiset<ObjectId>, nextId: ObjectId)

  ghost predicate Sound(v: View, doomed: set<StoreId>) {
    && Named(v.objects, v.nextId)
    && Imaged(v.objects, v.files, v.heap)
    && Owned(v.objects, v.files, v.owner, doomed, v.nextStore) && v.nextStore > 0
    && Queued(v.objects, v.lru, v.now)
    && Counted(v.objects, v.heap, v.ext)
  }

  // ---------- Eviction and access ----------

  ghost function EvictView(v: View, id: ObjectId): View
    requires id in v.objects && v.objects[id].target.Some?
  {
    var o := v.objects[id];
    v.(objects := v.objects[id := Evicted(o, v.nextStore)], files := EvictedFiles(v.files, o, v.nextStore),
       owner := EvictedOwner(v.owner, id, o, v.nextStore),
       nextStore := if o.dirty then v.nextStore + 1 else v.nextStore,
       lru := Without(v.lru, id))
  }

  lemma {:induction false} EvictKeeps(v: View, doomed: set<StoreId>, id: ObjectId)
    requires Sound(v, doomed) && id in v.objects && v.objects[id].target.Some?
    ensures Sound(EvictView(v, id), doomed)
    ensures |Without(v.lru, id)| == |v.lru| - 1
    ensures var b := v.objects[id].bsid; b > 0 ==> b in v.files && b < v.nextStore
  {
    hide Imaged, Owned, Queued, Counted, Named;
    EvictImaged(v.objects, v.files, v.heap, v.owner, doomed, v.nextStore, id);
    EvictOwned(v.objects, v.files, v.owner, doomed, v.nextStore, id);
    EvictQueued(v.objects, v.lru, v.now, id, v.nextStore);
    EvictCounted(v.objects, v.heap, v.ext, id, Evicted(v.objects[id], v.nextStore));
    NamedSame(v.objects, v.nextId, id, Evicted(v.objects[id], v.nextStore));
    if v.objects[id].bsid > 0 {
      ImageHeld(v.objects, v.files, v.owner, doomed, v.nextStore, id);
    }
  }

  ghost function AccessView(v: View, id: ObjectId, dirty: bool): View
    requires id in v.objects && id in v.heap
  {
    v.(objects := v.objects[id := Accessed(v.objects[id], v.now, dirty, v.heap[id])],
       lru := Without(v.lru, id) + [id], now := v.now + 1)
  }

  lemma {:induction false} AccessKeeps(v: View, doomed: set<StoreId>, id: ObjectId, dirty: bool)
    requires Sound(v, doomed) && id in v.objects
    ensures id in v.heap && Sound(AccessView(v, id, dirty), doomed)
    ensures var o := v.objects[id];
            && |Without(v.lru, id)| + 1 == |v.lru| + (if o.target.Some? then 0 else 1)
            && (o.target.Some? ==> o.target.value == v.heap[id])
            && (o.target.None? ==> o.bsid in v.files && v.files[o.bsid] == v.heap[id])
  {
    hide Imaged, Owned, Queued, Counted, Named;
    HeapOf(v.objects, v.files, v.heap, id);
    var o := Accessed(v.objects[id], v.now, dirty, v.heap[id]);
    AccessImaged(v.objects, v.files, v.heap, v.now, id, dirty);
    AccessOwned(v.objects, v.files, v.owner, doomed, v.nextStore, id, o);
    AccessQueued(v.objects, v.lru, v.now, id, o);
    EvictCounted(v.objects, v.heap, v.ext, id, o);
    NamedSame(v.objects, v.nextId, id, o);
  }

  lemma HeapOf(t: Table, f: Files, h: Heap, id: ObjectId)
    requires Imaged(t, f, h) && id in t
    ensures id in h
    ensures t[id].target.Some? ==> t[id].target.value == h[id]
    ensures t[id].target.None? ==> t[id].bsid in f && f[t[id].bsid] == h[id]
  {
  }

  // ---------- Eviction ----------

  /** Some unpinned objects have left memory, each of them less recently accessed than
      every unpinned object that is still there; nothing else has changed. */
  ghost predicate Trimmed(t: Table, q: seq<ObjectId>, t': Table, q': seq<ObjectId>) {
    && t.Keys == t'.Keys
    && (forall o :: o in t ==> t'[o].refcount == t[o].refcount && t'[o].pincount == t[o].pincount
                               && t'[o].lastAccess == t[o].lastAccess)
    && (forall o :: o in t && t'[o] != t[o] ==> t[o].target.Some? && t[o].pincount == 0 && t'[o].target.None?)
    && (forall o :: o in q' ==> o in q)
    && (forall v, o :: v in q && v !in q' && v in t && o in q' && o in t && t[o].pincount == 0
          ==> t[v].lastAccess < t[o].lastAccess)
  }

  lemma {:induction false} TrimmedMore(t: Table, q: seq<ObjectId>, t1: Table, q1: seq<ObjectId>, now: nat,
                                       v: ObjectId, b: StoreId)
    requires Trimmed(t, q, t1, q1) && Queued(t1, q1, now)
    requires v in q1 && v in t1 && t1[v].target.Some? && OldestUnpinned(t1, q1, v)
    ensures Trimmed(t, q, t1[v := Evicted(t1[v], b)], Without(q1, v))
  {
  }

  /** What eviction has made of the tables and the counter: objects have left memory only
      while the counter was above the limit, until it no longer was or everything in memory
      was pinned, least recently accessed first. */
  ghost predicate EvictedTo(limit: nat, t: Table, q: seq<ObjectId>, current: nat, t': Table, q': seq<ObjectId>,
                            current': nat)
  {
    && Trimmed(t, q, t', q')
    && (current' <= limit || AllPinned(t', q'))
    && if current <= limit then t' == t && q' == q && current' == current else current' >= limit
  }

  lemma {:induction false} EvictedTrims(limit: nat, t: Table, q: seq<ObjectId>, current: nat, t': Table,
                                        q': seq<ObjectId>, current': nat)
    requires EvictedTo(limit, t, q, current, t', q', current')
    ensures Trimmed(t, q, t', q')
  {
  }

  /** What was accessed last, and is still there, is last in the queue. */
  lemma {:induction false} LastInQueue(t: Table, q: seq<ObjectId>, now: nat, id: ObjectId)
    requires Queued(t, q, now) && id in t && t[id].target.Some? && t[id].lastAccess == now - 1
    ensures q != [] && q[|q| - 1] == id
  {
    var i :| 0 <= i < |q| && q[i] == id;
    assert q[|q| - 1] in t;
  }

  /** Pins are as they were, and whatever is pinned is in memory as it was. */
  ghost predicate PinsKept(t: Table, t': Table) {
    forall o :: o in t && o in t' ==>
      && t'[o].pincount == t[o].pincount
      && (t[o].pincount > 0 ==> t'[o].target == t[o].target && t'[o].dirty == t[o].dirty)
  }

  lemma {:induction false} TrimmedPins(t: Table, q: seq<ObjectId>, t': Table, q': seq<ObjectId>)
    requires Trimmed(t, q, t', q')
    ensures PinsKept(t, t') && t'.Keys == t.Keys
  {
  }

  // ---------- Pointers ----------

  ghost function CountView(v: View, id: ObjectId, refcount: nat, pincount: nat, ext: multiset<ObjectId>): View
    requires id in v.objects
  {
    v.(objects := v.objects[id := v.objects[id].(refcount := refcount, pincount := pincount)], ext := ext)
  }

  /** A pointer more or less, a pin more or less. */
  lemma {:induction false} CountsKeep(v: View, doomed: set<StoreId>, id: ObjectId, refcount: nat, pincount: nat,
                                      ext: multiset<ObjectId>)
    requires Sound(v, doomed) && id in v.objects && refcount > 0
    requires ext[id] + v.objects[id].refcount == v.ext[id] + refcount
    requires forall o: ObjectId :: o != id ==> ext[o] == v.ext[o]
    ensures Sound(CountView(v, id, refcount, pincount, ext), doomed)
  {
    hide Imaged, Owned, Queued, Counted, Named, SameButCounts;
    var t := v.objects;
    var t' := t[id := t[id].(refcount := refcount, pincount := pincount)];
    OnlyCounts(t, id, refcount, pincount);
    CountsCounted(t, v.heap, v.ext, id, t'[id], ext);
    CountsOnly(t, t', v.files, v.heap, v.owner, doomed, v.nextStore, v.lru, v.now);
    NamedSame(t, v.nextId, id, t'[id]);
  }

  lemma {:induction false} OnlyCounts(t: Table, id: ObjectId, refcount: nat, pincount: nat)
    requires id in t
    ensures SameButCounts(t, t[id := t[id].(refcount := refcount, pincount := pincount)])
  {
  }

  lemma {:induction false} CountsCounted(t: Table, h: Heap, bag: multiset<ObjectId>, id: ObjectId, o: Object,
                                         bag': multiset<ObjectId>)
    requires Counted(t, h, bag) && id in t && o.refcount > 0
    requires bag'[id] + t[id].refcount == bag[id] + o.refcount
    requires forall x: ObjectId :: x != id ==> bag'[x] == bag[x]
    ensures Counted(t[id := o], h, bag')
  {
  }

  lemma {:induction false} UpdatedTwice(t: Table, id: ObjectId, a: Object, b: Object)
    ensures t[id := a][id := b] == t[id := b]
  {
  }

  ghost function EnterView(v: View, id: ObjectId, o: Object): View
    requires o.target.Some?
  {
    v.(objects := v.objects[id := o], heap := v.heap[id := o.target.value], lru := v.lru + [id], now := v.now + 1,
       ext := v.ext + multiset{id}, nextId := id + 1)
  }

  lemma {:induction false} EnterKeeps(v: View, doomed: set<StoreId>, id: ObjectId, o: Object)
    requires Sound(v, doomed) && 0 < id && v.nextId <= id
    requires o.target.Some? && o.target.value.refs == [] && o.dirty && o.bsid == 0
    requires o.refcount == 1 && o.lastAccess == v.now
    ensures id !in v.objects && Sound(EnterView(v, id, o), doomed)
  {
    hide Imaged, Owned, Queued, Counted, Named;
    NamedNew(v.objects, v.nextId, id, o);
    AllocateStep(v.objects, v.files, v.heap, v.owner, doomed, v.nextStore, v.lru, v.now, v.ext, id, o);
  }

  ghost function WriteView(v: View, id: ObjectId, c: Content, ext: multiset<ObjectId>): View
    requires id in v.objects
  {
    v.(objects := v.objects[id := v.objects[id].(target := Some(c))], heap := v.heap[id := c], ext := ext)
  }

  /** Replacing a resident, dirty object's content: the pointers it gave up are outside
      now, those it took are not any more. */
  lemma {:induction false} WriteKeeps(v: View, doomed: set<StoreId>, id: ObjectId, c: Content, ext: multiset<ObjectId>)
    requires Sound(v, doomed) && id in v.objects && id in v.heap && v.objects[id].target.Some? && v.objects[id].dirty
    requires forall x: ObjectId :: ext[x] + Occurs(c.refs, x) == v.ext[x] + Occurs(v.heap[id].refs, x)
    ensures Sound(WriteView(v, id, c, ext), doomed)
  {
    hide Imaged, Owned, Queued, Counted, Occurs, Named;
    WriteImaged(v.objects, v.files, v.heap, id, c);
    AccessOwned(v.objects, v.files, v.owner, doomed, v.nextStore, id, v.objects[id].(target := Some(c)));
    WriteQueued(v.objects, v.lru, v.now, id, c);
    WriteCounted(v.objects, v.heap, v.ext, id, c, ext);
    NamedSame(v.objects, v.nextId, id, v.objects[id].(target := Some(c)));
  }

  lemma {:induction false} WriteQueued(t: Table, q: seq<ObjectId>, now: nat, id: ObjectId, c: Content)
    requires Queued(t, q, now) && id in t && t[id].target.Some?
    ensures Queued(t[id := t[id].(target := Some(c))], q, now)
  {
  }

  lemma {:induction false} WriteImaged(t: Table, f: Files, h: Heap, id: ObjectId, c: Content)
    requires Imaged(t, f, h) && id in t && t[id].target.Some? && t[id].dirty
    ensures Imaged(t[id := t[id].(target := Some(c))], f, h[id := c])
  {
  }

  lemma {:induction false} WriteCounted(t: Table, h: Heap, bag: multiset<ObjectId>, id: ObjectId, c: Content,
                                        bag': multiset<ObjectId>)
    requires Counted(t, h, bag) && id in t && id in h
    requires forall x: ObjectId :: bag'[x] + Occurs(c.refs, x) == bag[x] + Occurs(h[id].refs, x)
    ensures Counted(t[id := t[id].(target := Some(c))], h[id := c], bag')
  {
    hide Inner, Occurs;
    forall x: ObjectId ensures bag'[x] + Inner(h[id := c], x) == bag[x] + Inner(h, x) {
      InnerUpdate(h, id, c, x);
    }
  }

  // ---------- Reclaiming ----------

  ghost function DoomedWith(doomed: set<StoreId>, b: StoreId): set<StoreId> {
    if b > 0 then doomed + {b} else doomed
  }

  ghost function RemoveView(v: View, id: ObjectId, ext: multiset<ObjectId>): View
    requires id in v.objects
  {
    var b := v.objects[id].bsid;
    v.(objects := v.objects - {id}, owner := if b > 0 then v.owner - {b} else v.owner, heap := v.heap - {id},
       lru := Without(v.lru, id), ext := ext)
  }

  /** Taking out an object that has one pointer left, outside. */
  lemma {:induction false} RemoveKeeps(v: View, doomed: set<StoreId>, id: ObjectId, ext: multiset<ObjectId>)
    requires Sound(v, doomed) && id in v.objects && id in v.heap && v.objects[id].refcount == 1 && v.ext[id] > 0
    requires forall x: ObjectId :: ext[x] == v.ext[x] - (if x == id then 1 else 0) + Occurs(v.heap[id].refs, x)
    ensures Sound(RemoveView(v, id, ext), DoomedWith(doomed, v.objects[id].bsid))
    ensures |Without(v.lru, id)| == |v.lru| - (if v.objects[id].target.Some? then 1 else 0)
    ensures v.objects[id].bsid > 0 ==> v.objects[id].bsid in v.files && v.objects[id].bsid !in doomed
  {
    hide Imaged, Queued, Counted, Occurs, Named, Owned;
    RemoveCounted(v.objects, v.heap, v.ext, id, ext) by {
      SameKeys(v, doomed);
    }
    RemoveImaged(v.objects, v.files, v.heap, id);
    RemoveOwned(v.objects, v.files, v.owner, doomed, v.nextStore, id);
    RemoveQueued(v.objects, v.lru, v.now, id);
    NamedFewer(v.objects, v.nextId, id);
  }

  lemma {:induction false} SameKeys(v: View, doomed: set<StoreId>)
    requires Sound(v, doomed)
    ensures v.objects.Keys == v.heap.Keys && 0 !in v.objects
    ensures forall o :: o in v.objects ==> v.objects[o].refcount > 0
    ensures forall o :: v.ext[o] > 0 ==> o in v.objects
  {
  }

  /** Deleting a file that belongs to no object any more. */
  lemma {:induction false} DeleteKeeps(v: View, doomed: set<StoreId>, b: StoreId)
    requires Sound(v, doomed + {b}) && b !in doomed
    ensures b in v.files && Sound(v.(files := v.files - {b}), doomed)
  {
    hide Queued, Counted;
    assert b in v.files;
    assert (v.files - {b}).Keys == v.files.Keys - {b};
    forall o | o in v.objects && !v.objects[o].dirty ensures v.objects[o].bsid in v.files - {b} {
      assert v.objects[o].bsid in v.files;
      assert v.objects[o].bsid in v.owner;
    }
  }

  /** The objects that are gone and were leaves that had been evicted. */
  ghost function Unloaded(t: Table, t': Table): set<ObjectId> {
    set o | o in t && o !in t' && t[o].target.None? && t[o].isLeaf
  }

  lemma {:induction false} NoneUnloaded(t: Table)
    ensures Unloaded(t, t) == {}
  {
  }

  lemma {:induction false} OneUnloaded(t: Table, x: ObjectId)
    requires x in t
    ensures |Unloaded(t, t - {x})| == if t[x].target.None? && t[x].isLeaf then 1 else 0
  {
    assert Unloaded(t, t - {x}) == if t[x].target.None? && t[x].isLeaf then {x} else {};
  }

  lemma {:induction false} UnloadedMore(t: Table, t1: Table, t2: Table)
    requires Kept(t, t1) && Kept(t1, t2)
    ensures |Unloaded(t, t2)| == |Unloaded(t, t1)| + |Unloaded(t1, t2)|
  {
    assert Unloaded(t, t2) == Unloaded(t, t1) + Unloaded(t1, t2);
    assert Unloaded(t, t1) !! Unloaded(t1, t2);
  }

  /** Some objects are gone; the others hold what they held. */
  ghost predicate Shrunk(h: Heap, h': Heap) {
    h'.Keys <= h.Keys && forall o :: o in h' ==> h'[o] == h[o]
  }

  /** Some objects are gone; of the others only the reference counts have changed. */
  ghost predicate Kept(t: Table, t': Table) {
    t'.Keys <= t.Keys && forall o :: o in t' ==> t'[o] == t[o].(refcount := t'[o].refcount)
  }

  lemma {:induction false} NamedFewer(t: Table, next: ObjectId, id: ObjectId)
    requires Named(t, next)
    ensures Named(t - {id}, next)
  {
  }

  lemma {:induction false} OneGone(t: Table, h: Heap, id: ObjectId)
    requires id in t
    ensures Kept(t, t - {id}) && Shrunk(h, h - {id}) && |t - {id}| < |t|
  {
  }

  lemma {:induction false} KeptTransitive(t0: Table, t1: Table, t2: Table, h0: Heap, h1: Heap, h2: Heap)
    requires Kept(t0, t1) && Kept(t1, t2) && Shrunk(h0, h1) && Shrunk(h1, h2)
    ensures Kept(t0, t2) && Shrunk(h0, h2)
  {
  }

  lemma {:induction false} PointersOut(ext: multiset<ObjectId>, x: ObjectId, refs: seq<ObjectId>)
    requires ext[x] > 0
    ensures forall y: ObjectId ::
              (ext - multiset{x} + multiset(refs))[y] == ext[y] - (if y == x then 1 else 0) + Occurs(refs, y)
  {
  }

  /** Taking a dying object out, its pointers joining those held outside. */
  lemma {:induction false} TakenOut(v: View, doomed: set<StoreId>, id: ObjectId)
    requires Sound(v, doomed) && id in v.objects && id in v.heap && v.objects[id].refcount == 1 && v.ext[id] > 0
    ensures var ext := v.ext - multiset{id} + multiset(v.heap[id].refs);
            Sound(RemoveView(v, id, ext), DoomedWith(doomed, v.objects[id].bsid))
    ensures |Without(v.lru, id)| == |v.lru| - (if v.objects[id].target.Some? then 1 else 0)
    ensures v.objects[id].bsid > 0 ==> v.objects[id].bsid !in doomed
  {
    hide Sound, RemoveView, DoomedWith, Without, Occurs;
    PointersOut(v.ext, id, v.heap[id].refs);
    RemoveKeeps(v, doomed, id, v.ext - multiset{id} + multiset(v.heap[id].refs));
  }

  /** No pointer that is counted is null. */
  lemma {:induction false} NullsGone(v: View, doomed: set<StoreId>, refs: seq<ObjectId>, rest: multiset<ObjectId>)
    requires Sound(v, doomed) && v.ext == rest + multiset(refs)
    ensures AllNull(refs) ==> refs == [] && v.ext == rest
  {
    hide Sound;
    SameKeys(v, doomed);
    if refs != [] {
      assert refs[0] in multiset(refs);
      assert v.ext[refs[0]] > 0 && refs[0] in refs;
    }
  }

  lemma {:induction false} NextPointer(ext: multiset<ObjectId>, rest: multiset<ObjectId>, refs: seq<ObjectId>, i: nat)
    requires i < |refs| && ext == rest + multiset(refs[i..])
    ensures ext[refs[i]] > 0 && ext - multiset{refs[i]} == rest + multiset(refs[i + 1..])
  {
    assert refs[i..] == [refs[i]] + refs[i + 1..];
  }

  lemma {:induction false} NothingTrimmed(t: Table, q: seq<ObjectId>)
    ensures Trimmed(t, q, t, q)
  {
  }

  lemma {:induction false} SoundQueue(v: View, doomed: set<StoreId>)
    requires Sound(v, doomed)
    ensures Queued(v.objects, v.lru, v.now)
  {
  }

  lemma {:induction false} EmptySound(next: StoreId)
    requires next > 0
    ensures Sound(View(map[], map[], map[], next, map[], [], 0, multiset{}, 1), {})
  {
  }

  /** Where an object's current content is. */
  lemma {:induction false} SoundContent(v: View, doomed: set<StoreId>, id: ObjectId)
    requires Sound(v, doomed) && id in v.objects
    ensures id in v.heap
    ensures var o := v.objects[id];
            && (o.target.Some? ==> o.target.value == v.heap[id])
            && (o.target.None? ==> o.bsid in v.files && v.files[o.bsid] == v.heap[id])
            && (o.target.None? && o.isLeaf ==> v.heap[id].refs == [])
  {
  }

  lemma {:induction false} PointersExchanged(ext: multiset<ObjectId>, out: seq<ObjectId>, into: seq<ObjectId>)
    requires multiset(into) <= ext + multiset(out)
    ensures forall x: ObjectId ::
              (ext + multiset(out) - multiset(into))[x] + Occurs(into, x) == ext[x] + Occurs(out, x)
  {
  }
}
