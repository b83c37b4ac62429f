/** What the swap space's invariant means: which objects are alive, when everything is
    gone, and when the counter is right. */
module SwapTheorems {
  import opened Base
  import opened SwapStates
  import opened SwapSpaces

  /** The pointer graph has no cycle: ranks fall along every pointer. */
  ghost predicate Ranked(h: Heap, rank: map<ObjectId, nat>) {
    && h.Keys <= rank.Keys
    && forall o, r :: o in h && r in h[o].refs ==> r in rank && rank[r] < rank[o]
  }

  /** A pointer counted inside the objects is inside one of them. */
  lemma {:induction false} InnerHolder(h: Heap, x: ObjectId) returns (o: ObjectId)
    requires Inner(h, x) > 0
    ensures o in h && x in h[o].refs
    decreases |h|
  {
    var p := Pick(h.Keys);
    if Occurs(h[p].refs, x) > 0 {
      o := p;
    } else {
      Shrinks(h, p);
      o := InnerHolder(h - {p}, x);
    }
  }

  /** `path` leads from a pointer held outside, along pointers inside objects, to `x`. */
  ghost predicate LeadsTo(h: Heap, ext: multiset<ObjectId>, path: seq<ObjectId>, x: ObjectId) {
    && path != [] && ext[path[0]] > 0 && path[|path| - 1] == x
    && (forall i :: 0 <= i < |path| - 1 ==> path[i] in h && path[i + 1] in h[path[i]].refs)
  }

  ghost predicate Reachable(h: Heap, ext: multiset<ObjectId>, x: ObjectId) {
    exists path :: LeadsTo(h, ext, path, x)
  }

  lemma {:induction false} StepFurther(h: Heap, ext: multiset<ObjectId>, path: seq<ObjectId>, o: ObjectId, x: ObjectId)
    requires LeadsTo(h, ext, path, o) && o in h && x in h[o].refs
    ensures Reachable(h, ext, x)
  {
    var longer := path + [x];
    assert forall i :: 0 <= i < |path| ==> longer[i] == path[i];
    assert longer[|path|] == x;
    assert LeadsTo(h, ext, longer, x);
  }

  lemma {:induction false} CountOf(v: View, x: ObjectId)
    requires Sound(v, {})
    ensures x in v.objects <==> x in v.heap
    ensures x in v.objects <==> v.ext[x] > 0 || Inner(v.heap, x) > 0
  {
  }

  lemma {:induction false} AliveIsReachable(v: View, rank: map<ObjectId, nat>, top: nat, x: ObjectId)
    requires Sound(v, {}) && Ranked(v.heap, rank) && x in v.heap
    requires forall o :: o in v.heap ==> rank[o] <= top
    ensures Reachable(v.heap, v.ext, x)
    decreases top - rank[x]
  {
    hide Sound, Inner;
    CountOf(v, x);
    if v.ext[x] > 0 {
      assert LeadsTo(v.heap, v.ext, [x], x);
    } else {
      var o := InnerHolder(v.heap, x);
      AliveIsReachable(v, rank, top, o);
      var path :| LeadsTo(v.heap, v.ext, path, o);
      StepFurther(v.heap, v.ext, path, o, x);
    }
  }

  lemma {:induction false} ReachableIsAlive(v: View, path: seq<ObjectId>, x: ObjectId)
    requires Sound(v, {}) && LeadsTo(v.heap, v.ext, path, x)
    ensures x in v.objects
  {
    hide Sound, Inner;
    CountOf(v, x);
    if |path| > 1 {
      var r := path[|path| - 2];
      assert path[|path| - 2 + 1] == x;
      InnerRemove(v.heap, r, x);
    }
  }

  lemma {:induction false} HighestRank(h: Heap, rank: map<ObjectId, nat>, s: set<ObjectId>) returns (top: ObjectId)
    requires s != {} && s <= h.Keys && h.Keys <= rank.Keys
    ensures top in s && forall o :: o in s ==> rank[o] <= rank[top]
    decreases |s|
  {
    top := Pick(s);
    if s != {top} {
      var r := s - {top};
      assert r != {};
      var other := HighestRank(h, rank, r);
      if rank[top] < rank[other] {
        top := other;
      }
    }
  }

  /** On an acyclic pointer graph the objects in the table are exactly those that can be
      reached: nothing reachable is freed, and nothing else is kept. */
  lemma {:induction false} AliveIffReachable(v: View, rank: map<ObjectId, nat>, x: ObjectId)
    requires Sound(v, {}) && Ranked(v.heap, rank)
    ensures x in v.objects <==> Reachable(v.heap, v.ext, x)
  {
    CountOf(v, x);
    if x in v.heap {
      var top := HighestRank(v.heap, rank, v.heap.Keys);
      AliveIsReachable(v, rank, rank[top], x);
    }
    if Reachable(v.heap, v.ext, x) {
      var path :| LeadsTo(v.heap, v.ext, path, x);
      ReachableIsAlive(v, path, x);
    }
  }

  /** As long as there is an object there is a pointer held outside. */
  lemma {:induction false} SomePointer(v: View, rank: map<ObjectId, nat>) returns (y: ObjectId)
    requires Sound(v, {}) && Ranked(v.heap, rank) && v.heap.Keys != {}
    ensures v.ext[y] > 0
  {
    var x := Pick(v.heap.Keys);
    CountOf(v, x);
    AliveIffReachable(v, rank, x);
    var path :| LeadsTo(v.heap, v.ext, path, x);
    y := path[0];
  }

  /** Once the last pointer is gone, so is every object and every image. */
  lemma {:induction false} AllGone(v: View, rank: map<ObjectId, nat>)
    requires Sound(v, {}) && Ranked(v.heap, rank) && v.ext == multiset{}
    ensures v.objects == map[] && v.heap == map[] && v.files == map[]
  {
    if v.heap.Keys != {} {
      var y := SomePointer(v, rank);
    }
    assert v.objects.Keys == {};
    assert forall b :: b !in v.owner;
    assert v.files.Keys == {};
  }

  /** The files are exactly the images of the objects, no two objects sharing one. */
  lemma {:induction false} FilesExact(v: View)
    requires Sound(v, {})
    ensures forall b: StoreId :: b in v.files <==> b > 0 && exists o :: o in v.objects && v.objects[o].bsid == b
    ensures forall o, o' :: o in v.objects && o' in v.objects && o != o' && v.objects[o].bsid > 0
              ==> v.objects[o].bsid != v.objects[o'].bsid
  {
    hide Imaged, Queued, Counted, Named;
    forall b: StoreId | b in v.files ensures exists o :: o in v.objects && v.objects[o].bsid == b {
      assert v.objects[v.owner[b]].bsid == b;
    }
  }

  // ---------- References, wherever they are ----------

  /** The objects in memory, as they are there. */
  ghost function InMemory(t: Table): Heap {
    map o | o in t && t[o].target.Some? :: t[o].target.value
  }

  /** The other objects, as their images are. */
  ghost function OnDisk(t: Table, f: Files): Heap {
    map o | o in t && t[o].target.None? && t[o].bsid in f :: f[t[o].bsid]
  }

  lemma {:induction false} UnionWithout(a: Heap, b: Heap, o: ObjectId)
    requires a.Keys !! b.Keys && o in a
    ensures (a + b) - {o} == (a - {o}) + b && (a + b)[o] == a[o] && (a - {o}).Keys !! b.Keys
  {
  }

  lemma {:induction false} InnerUnion(a: Heap, b: Heap, x: ObjectId)
    requires a.Keys !! b.Keys
    ensures Inner(a + b, x) == Inner(a, x) + Inner(b, x)
    decreases |a|
  {
    hide Inner, Occurs;
    if a.Keys == {} {
      assert a + b == b;
      InnerNone(a, x);
    } else {
      var o := Pick(a.Keys);
      InnerRemove(a + b, o, x);
      InnerRemove(a, o, x);
      Shrinks(a, o);
      UnionWithout(a, b, o);
      InnerUnion(a - {o}, b, x);
    }
  }

  lemma {:induction false} InnerNone(h: Heap, x: ObjectId)
    requires h.Keys == {}
    ensures Inner(h, x) == 0
  {
  }

  /** An object's count is the number of pointers to it: those held outside, those in the
      objects in memory, and those in the images of the objects that are not. */
  lemma {:induction false} ReferencesCounted(v: View, x: ObjectId)
    requires Sound(v, {}) && x in v.objects
    ensures v.objects[x].refcount
         == v.ext[x] + Inner(InMemory(v.objects), x) + Inner(OnDisk(v.objects, v.files), x)
  {
    hide Owned, Queued, Named, Inner;
    assert v.heap == InMemory(v.objects) + OnDisk(v.objects, v.files) by {
      hide Counted;
      assert v.heap.Keys == (InMemory(v.objects) + OnDisk(v.objects, v.files)).Keys;
    }
    InnerUnion(InMemory(v.objects), OnDisk(v.objects, v.files), x);
  }

  // ---------- Images ----------

  /** The files after some events. */
  ghost function Replay(f: Files, events: seq<StoreEvent>): Files {
    if events == [] then f
    else
      var r := Replay(f, events[..|events| - 1]);
      match events[|events| - 1]
      case Allocated(b) => r[b := Content(0, [])]
      case Written(b, c) => r[b := c]
      case Freed(b) => r - {b}
  }

  /** However far writing an object back has got, there is a file with its old image or
      with its content, unless it never had one. */
  lemma {:induction false} NeverWithout(f: Files, o: Object, b: StoreId, k: nat)
    requires o.target.Some? && o.bsid > 0 && o.bsid in f && b !in f && k <= |WriteBackEvents(o, b)|
    ensures var f' := Replay(f, WriteBackEvents(o, b)[..k]);
            || (o.bsid in f' && f'[o.bsid] == f[o.bsid])
            || (b in f' && f'[b] == o.target.value)
  {
    var events := WriteBackEvents(o, b);
    if k > 0 {
      assert events[..k][..k - 1] == events[..k - 1];
      if k > 1 {
        assert events[..k - 1][..k - 2] == events[..k - 2];
        if k > 2 {
          assert events[..k - 2][..k - 3] == events[..k - 3];
        }
      }
    }
  }

  /** All of them make the files what eviction makes them. */
  lemma {:induction false} ReplayAll(f: Files, o: Object, b: StoreId)
    requires o.target.Some? && b !in f && (o.bsid > 0 ==> o.bsid in f)
    ensures Replay(f, WriteBackEvents(o, b)) == EvictedFiles(f, o, b)
  {
    if o.dirty {
      var a, c := Allocated(b), Written(b, o.target.value);
      assert [a][..0] == [] && [a, c][..1] == [a];
      assert Replay(f, [a]) == f[b := Content(0, [])];
      assert Replay(f, [a, c]) == f[b := o.target.value];
      if o.bsid > 0 {
        var events := [a, c, Freed(o.bsid)];
        assert events[..2] == [a, c] && WriteBackEvents(o, b) == events;
      } else {
        assert WriteBackEvents(o, b) == [a, c];
      }
    }
  }

  // ---------- The counter ----------

  ghost function Resident(t: Table): set<ObjectId> {
    set o | o in t && t[o].target.Some?
  }

  /** The counter of objects in memory is right exactly as long as no evicted leaf was
      reclaimed without being loaded (or a multiple of 2^64 of them were). */
  lemma {:induction false} CounterRight(s: SwapSpace)
    requires s.Valid() && |Resident(s.objects)| <= UINT64_MAX
    ensures s.current == |Resident(s.objects)| <==> s.plain.skipped % 0x1_0000_0000_0000_0000 == 0
  {
    hide Sound, Resident, Tallied;
    QueueLength(s.Now(), {});
    WrapsAway(s.current, s.plain.skipped, s.plain.wraps, |s.lru|);
  }

  lemma {:induction false} QueueLength(v: View, doomed: set<StoreId>)
    requires Sound(v, doomed)
    ensures |v.lru| == |Resident(v.objects)|
  {
    hide Imaged, Owned, Counted, Named;
    assert forall i, j :: 0 <= i < j < |v.lru| ==> v.objects[v.lru[i]].lastAccess < v.objects[v.lru[j]].lastAccess;
    ListLength(v.lru, Resident(v.objects));
  }

  lemma {:induction false} WrapsAway(current: nat, skipped: nat, wraps: int, n: nat)
    requires Tallied(current, skipped, wraps, n) && n <= UINT64_MAX
    ensures current == n <==> skipped % 0x1_0000_0000_0000_0000 == 0
  {
  }

  /** Whoever can be reached without `x` survives the drop of a pointer to `x`, and nobody
      else does. */
  lemma {:induction false} DropDies(v: View, v': View, rank: map<ObjectId, nat>, o: ObjectId)
    requires Sound(v, {}) && Sound(v', {}) && Ranked(v.heap, rank) && Shrunk(v.heap, v'.heap) && o in v.objects
    ensures o in v'.objects <==> Reachable(v.heap, v'.ext, o)
  {
    hide Sound;
    AliveIffReachable(v', rank, o);
    if Reachable(v'.heap, v'.ext, o) {
      var path :| LeadsTo(v'.heap, v'.ext, path, o);
      assert LeadsTo(v.heap, v'.ext, path, o);
    }
    if Reachable(v.heap, v'.ext, o) {
      var path :| LeadsTo(v.heap, v'.ext, path, o);
      StillThere(v, v', path, |path| - 1);
    }
  }

  lemma {:induction false} StillThere(v: View, v': View, path: seq<ObjectId>, i: nat)
    requires Sound(v', {}) && Shrunk(v.heap, v'.heap) && i < |path| && v'.ext[path[0]] > 0
    requires forall j :: 0 <= j < |path| - 1 ==> path[j] in v.heap && path[j + 1] in v.heap[path[j]].refs
    ensures path[i] in v'.objects
  {
    hide Sound, Inner;
    CountOf(v', path[i]);
    if i > 0 {
      StillThere(v, v', path, i - 1);
      CountOf(v', path[i - 1]);
      assert path[i - 1 + 1] in v.heap[path[i - 1]].refs;
      InnerRemove(v'.heap, path[i - 1], path[i]);
    }
  }

  /** An evicted leaf. */
  ghost predicate EvictedLeaf(t: Table, o: ObjectId) {
    o in t && t[o].target.None? && t[o].isLeaf
  }

  /** Objects were freed while the counter was right: it still is exactly when every evicted
      leaf can be reached from the pointers that are left. */
  lemma {:induction false} CounterKept(v: View, current: nat, p: Plain, s: SwapSpace, rank: map<ObjectId, nat>)
    requires Sound(v, {}) && v.heap == p.heap && Ranked(v.heap, rank) && |v.objects| <= UINT64_MAX
    requires Tallied(current, p.skipped, p.wraps, |v.lru|) && current == |Resident(v.objects)|
    requires s.Valid() && Reclaimed(v.objects, s.objects, p, s.plain)
    ensures s.current == |Resident(s.objects)| <==>
              forall o :: EvictedLeaf(v.objects, o) ==> Reachable(v.heap, s.plain.ext, o)
  {
    hide Sound, Tallied, Reachable, Ranked, Resident, Unloaded;
    ResidentFew(v.objects);
    QueueLength(v, {});
    WrapsAway(current, p.skipped, p.wraps, |v.lru|);
    ResidentFew(s.objects);
    CounterRight(s);
    UnloadedFew(v.objects, s.objects);
    forall o | o in v.objects ensures o in s.objects <==> Reachable(v.heap, s.plain.ext, o) {
      DropDies(v, s.Now(), rank, o);
    }
    NoneLost(v.objects, s.objects);
  }

  /** Drops a pointer while the counter is right: it stays right exactly when every evicted
      leaf can still be reached without that pointer. */
  method DropCounted(s: SwapSpace, x: ObjectId, ghost rank: map<ObjectId, nat>)
    requires s.Valid() && s.plain.ext[x] > 0 && Ranked(s.plain.heap, rank) && |s.objects| <= UINT64_MAX
    requires s.current == |Resident(s.objects)|
    modifies s, s.store
    ensures s.Valid() && s.plain.ext == old(s.plain.ext) - multiset{x}
    ensures s.current == |Resident(s.objects)| <==>
              forall o :: EvictedLeaf(old(s.objects), o)
                ==> Reachable(old(s.plain.heap), old(s.plain.ext) - multiset{x}, o)
  {
    hide Sound, Tallied, Reachable, Ranked, Resident, Reclaimed;
    ghost var v, current, p := s.Now(), s.current, s.plain;
    s.Drop(x);
    CounterKept(v, current, p, s, rank);
  }

  /** The pointers held outside once one to `dst` has become one to `src`; 0 is null. */
  ghost function Reassigned(ext: multiset<ObjectId>, dst: ObjectId, src: ObjectId): multiset<ObjectId> {
    ext - (if dst > 0 then multiset{dst} else multiset{}) + (if src > 0 then multiset{src} else multiset{})
  }

  /** The same for an assignment: it stays right exactly when every evicted leaf can be
      reached with the pointer changed. */
  method AssignCounted(s: SwapSpace, dst: ObjectId, src: ObjectId, ghost rank: map<ObjectId, nat>)
    requires s.Valid() && (dst > 0 ==> s.plain.ext[dst] > 0)
    requires src > 0 ==> (s.plain.ext - multiset{dst})[src] > 0
    requires Ranked(s.plain.heap, rank) && |s.objects| <= UINT64_MAX && s.current == |Resident(s.objects)|
    modifies s, s.store
    ensures s.Valid() && s.plain.ext == Reassigned(old(s.plain.ext), dst, src)
    ensures s.current == |Resident(s.objects)| <==>
              forall o :: EvictedLeaf(old(s.objects), o)
                ==> Reachable(old(s.plain.heap), Reassigned(old(s.plain.ext), dst, src), o)
  {
    hide Sound, Tallied, Reachable, Ranked, Resident, Reclaimed;
    ghost var v, current, p := s.Now(), s.current, s.plain;
    s.Assign(dst, src);
    CounterKept(v, current, p, s, rank);
  }

  lemma {:induction false} ResidentFew(t: Table)
    ensures |Resident(t)| <= |t|
  {
    SubsetSize(Resident(t), t.Keys);
  }

  lemma {:induction false} UnloadedFew(t: Table, t': Table)
    ensures |Unloaded(t, t')| <= |t|
  {
    SubsetSize(Unloaded(t, t'), t.Keys);
  }

  lemma {:induction false} NoneLost(t: Table, t': Table)
    ensures |Unloaded(t, t')| == 0 <==> forall o :: EvictedLeaf(t, o) ==> o in t'
  {
    if forall o :: EvictedLeaf(t, o) ==> o in t' {
      assert Unloaded(t, t') == {};
    } else {
      var o :| EvictedLeaf(t, o) && o !in t';
      assert o in Unloaded(t, t');
    }
  }

  /** One object, allocated, evicted and dropped: the counter of objects in memory wraps
      around to its largest value, with nothing in memory. */
  method CounterWraps(cacheSize: nat) returns (s: SwapSpace)
    ensures s.Valid() && s.objects == map[] && s.current == UINT64_MAX
  {
    hide Sound, Tallied;
    var id;
    s, id := OneEvicted(cacheSize);
    ghost var t := s.objects;
    s.Drop(id);
    AllGone(s.Now(), map[id := 0]);
    OneLost(t, id);
    WrapsTo(s.current, s.plain.wraps, s.Now());
  }

  method OneEvicted(cacheSize: nat) returns (s: SwapSpace, id: ObjectId)
    ensures fresh(s) && fresh(s.store) && s.Valid() && s.plain.skipped == 0 && s.plain.ext == multiset{id}
    ensures s.plain.heap == map[id := Content(0, [])]
    ensures EvictedLeaf(s.objects, id) && s.objects.Keys == {id}
  {
    hide Sound, Tallied, AllPinned;
    var store := new BackingStore();
    s := new SwapSpace(store, cacheSize);
    id := s.Allocate(0);
    s.EvictAll();
    AllEvicted(s, id);
  }

  lemma {:induction false} AllEvicted(s: SwapSpace, id: ObjectId)
    requires s.Valid() && s.plain.skipped == 0 && id in s.objects && s.objects[id].pincount == 0
    requires s.plain.heap == map[id := Content(0, [])] && (s.current == 0 || AllPinned(s.objects, s.lru))
    ensures EvictedLeaf(s.objects, id) && s.objects.Keys == {id}
  {
    hide Owned, Counted, Named, Tallied;
    SubsetSize(Resident(s.objects), {id});
    CounterRight(s);
    assert s.current == 0 ==> Resident(s.objects) == {};
    assert s.objects[id].target.Some? <==> id in s.lru;
    assert s.objects[id].target.Some? <==> id in Resident(s.objects);
  }

  lemma {:induction false} OneLost(t: Table, id: ObjectId)
    requires t.Keys == {id} && EvictedLeaf(t, id)
    ensures |Unloaded(t, map[])| == 1
  {
    assert Unloaded(t, map[]) == {id};
  }

  lemma {:induction false} WrapsTo(current: nat, wraps: int, v: View)
    requires Tallied(current, 1, wraps, |v.lru|) && Sound(v, {}) && v.objects == map[]
    ensures current == UINT64_MAX
  {
    hide Sound;
    QueueLength(v, {});
    assert Resident(v.objects) == {};
  }
}
