/** The swap space: pinned, reference-counted objects cached in memory over a backing store. */
module SwapSpaces {
  import opened Base
  import opened SwapStates

  datatype StoreEvent = Allocated(id: StoreId) | Written(id: StoreId, content: Content) | Freed(id: StoreId)

  /** One file per image; ids are handed out in order and never again. */
  class BackingStore {
    var files: Files
    var nextId: StoreId
    /** What was done to the store, in order. */
    ghost var events: seq<StoreEvent>

    constructor ()
      ensures files == map[] && nextId == 1 && events == []
    {
      files := map[];
      nextId := 1;
      events := [];
    }

    method Allocate() returns (id: StoreId)
      modifies this
      ensures id == old(nextId) && nextId == id + 1
      ensures files == old(files)[id := Content(0, [])] && events == old(events) + [Allocated(id)]
    {
      id := nextId;
      nextId := nextId + 1;
      files := files[id := Content(0, [])];
      events := events + [Allocated(id)];
    }

    method Write(id: StoreId, c: Content)
      requires id in files
      modifies this`files, this`events
      ensures files == old(files)[id := c] && events == old(events) + [Written(id, c)]
    {
      files := files[id := c];
      events := events + [Written(id, c)];
    }

    method Read(id: StoreId) returns (c: Content)
      requires id in files
      ensures c == files[id]
    {
      c := files[id];
    }

    method Deallocate(id: StoreId)
      requires id in files
      modifies this`files, this`events
      ensures files == old(files) - {id} && events == old(events) + [Freed(id)]
    {
      files := files - {id};
      events := events + [Freed(id)];
    }
  }

  ghost predicate SamePlain(p: Plain, p': Plain) {
    p'.heap == p.heap && p'.ext == p.ext && p'.skipped == p.skipped
  }

  /** What a reclaim in progress still has to do: files to delete and decrements of the
      counter to make. */
  datatype Limbo = Limbo(files: set<StoreId>, owed: nat)

  const AT_REST: Limbo := Limbo({}, 0)

  /** uint64 arithmetic on the counter of objects in memory. */
  function Up(n: nat): nat {
    if n == UINT64_MAX then 0 else n + 1
  }

  function Down(n: nat): nat {
    if n == 0 then UINT64_MAX else n - 1
  }

  /** The counter is `n`, short of the decrements made for objects never loaded, up to
      the times it wrapped around. */
  ghost predicate Tallied(current: nat, skipped: nat, wraps: int, n: nat) {
    current <= UINT64_MAX && current + skipped == n + wraps * 0x1_0000_0000_0000_0000
  }

  ghost function WrapUp(current: nat, wraps: int): int {
    if current == UINT64_MAX then wraps - 1 else wraps
  }

  ghost function WrapDown(current: nat, wraps: int): int {
    if current == 0 then wraps + 1 else wraps
  }

  lemma TallyUp(current: nat, skipped: nat, wraps: int, n: nat)
    requires Tallied(current, skipped, wraps, n)
    ensures Tallied(Up(current), skipped, WrapUp(current, wraps), n + 1)
  {
  }

  lemma TallyDown(current: nat, skipped: nat, wraps: int, n: nat)
    requires Tallied(current, skipped, wraps, n) && n > 0
    ensures Tallied(Down(current), skipped, WrapDown(current, wraps), n - 1)
  {
  }

  /** A decrement for an object that was not in memory. */
  lemma TallySkip(current: nat, skipped: nat, wraps: int, n: nat)
    requires Tallied(current, skipped, wraps, n)
    ensures Tallied(Down(current), skipped + 1, WrapDown(current, wraps), n)
  {
  }

  /** The plain heap the swap space stands for, and the book-keeping of the proof. */
  datatype Plain = Plain(
    heap: Heap,                         // what a heap that never evicts would hold
    ext: multiset<ObjectId>,            // the pointers held outside any object
    owner: map<StoreId, ObjectId>,      // whose image a file is
    skipped: nat,                       // how often an evicted leaf was reclaimed without being loaded
    wraps: int)                         // how often the counter wrapped around

  /** Objects were freed: the others hold what they held, with fewer pointers to them, and
      each freed leaf that was not in memory was noted. */
  ghost predicate Reclaimed(t: Table, t': Table, p: Plain, p': Plain) {
    && Kept(t, t') && Shrunk(p.heap, p'.heap) && |t'| <= |t|
    && p'.skipped == p.skipped + |Unloaded(t, t')|
  }

  ghost predicate Untouched(v: View, v': View, current: nat, current': nat, p: Plain, p': Plain) {
    v' == v && current' == current && p' == p
  }

  lemma {:induction false} NothingReclaimed(t: Table, p: Plain)
    ensures Reclaimed(t, t, p, p)
  {
    NoneUnloaded(t);
  }

  lemma {:induction false} FewerLeft(t: Table, t': Table, p: Plain, p': Plain)
    requires Reclaimed(t, t', p, p')
    ensures |t'| <= |t|
  {
  }

  lemma {:induction false} ReclaimedMore(t: Table, t1: Table, t2: Table, p: Plain, p1: Plain, p2: Plain)
    requires Reclaimed(t, t1, p, p1) && Reclaimed(t1, t2, p1, p2)
    ensures Reclaimed(t, t2, p, p2)
  {
    hide Kept, Shrunk, Unloaded;
    KeptTransitive(t, t1, t2, p.heap, p1.heap, p2.heap);
    UnloadedMore(t, t1, t2);
  }

  /** An object and then what only it held. */
  lemma {:induction false} ReclaimedWhole(t: Table, x: ObjectId, t': Table, p: Plain, p1: Plain, p2: Plain, p': Plain,
                                          loaded: bool)
    requires x in t && loaded == !(t[x].target.None? && t[x].isLeaf)
    requires p1.heap == p.heap - {x} && p1.skipped == p.skipped
    requires Reclaimed(t - {x}, t', p1, p2)
    requires p'.heap == p2.heap && p'.skipped == (if loaded then p2.skipped else p2.skipped + 1)
    ensures Reclaimed(t, t', p, p') && |t'| < |t|
  {
    hide Kept, Shrunk, Unloaded;
    OneGone(t, p.heap, x);
    OneUnloaded(t, x);
    KeptTransitive(t, t - {x}, t', p.heap, p1.heap, p2.heap);
    UnloadedMore(t, t - {x}, t');
  }

  lemma {:induction false} CountDropped(t: Table, x: ObjectId, p: Plain, ext: multiset<ObjectId>)
    requires x in t && t[x].refcount > 1
    ensures Reclaimed(t, t[x := t[x].(refcount := t[x].refcount - 1)], p, p.(ext := ext))
  {
    var t' := t[x := t[x].(refcount := t[x].refcount - 1)];
    assert t'.Keys == t.Keys;
    assert Unloaded(t, t') == {};
  }

  /** What writing an object back does to the store: at no moment is there no image. */
  ghost function WriteBackEvents(o: Object, b: StoreId): seq<StoreEvent>
    requires o.target.Some?
  {
    if !o.dirty then []
    else [Allocated(b), Written(b, o.target.value)] + (if o.bsid > 0 then [Freed(o.bsid)] else [])
  }

  /** An object as it is entered: in memory, dirty, with one pointer to it. */
  function Entered(data: int, now: nat): Object {
    Object(Some(Content(data, [])), 0, false, 1, now, true, 0)
  }

  lemma {:induction false} TrimmedTimes(t: Table, q: seq<ObjectId>, t': Table, q': seq<ObjectId>)
    requires Trimmed(t, q, t', q')
    ensures forall o :: o in t ==> o in t' && t'[o].lastAccess == t[o].lastAccess
  {
  }

  lemma {:induction false} PinnedStays(t: Table, t': Table, id: ObjectId)
    requires PinsKept(t, t') && id in t && id in t' && t[id].pincount > 0 && t[id].target.Some?
    ensures t'[id].target.Some?
  {
  }

  class SwapSpace {
    const store: BackingStore
    var objects: Table
    var lru: seq<ObjectId>
    var nextId: ObjectId
    var nextAccess: nat
    var maxInMemory: nat
    var current: nat
    ghost var plain: Plain

    ghost function Now(): View
      reads this, store
    {
      View(objects, store.files, plain.owner, store.nextId, plain.heap, lru, nextAccess, plain.ext, nextId)
    }

    ghost predicate Inv(l: Limbo)
      reads this, store
    {
      Sound(Now(), l.files) && Tallied(current, plain.skipped, plain.wraps, |lru| + l.owed)
    }

    ghost predicate Valid()
      reads this, store
    {
      Inv(AT_REST)
    }

    constructor (store: BackingStore, n: nat)
      requires store.files == map[] && store.nextId > 0
      ensures Valid() && plain.heap == map[] && plain.ext == multiset{} && plain.skipped == 0
      ensures this.store == store && maxInMemory == n && nextId == 1
    {
      this.store := store;
      objects, lru, nextId, nextAccess := map[], [], 1, 0;
      maxInMemory, current := n, 0;
      plain := Plain(map[], multiset{}, map[], 0, 0);
      new;
      hide Sound;
      EmptySound(store.nextId);
    }

    // ---------- Eviction ----------

    /** Writes an object's content to the store if it is dirty: the new image first, then
        the old one is deleted.  Serialising it nulls the pointers of the copy in memory,
        whether the text is kept or not. */
    method WriteBack(id: ObjectId)
      requires id in objects && objects[id].target.Some?
      requires objects[id].bsid > 0 ==> objects[id].bsid in store.files && objects[id].bsid < store.nextId
      modifies this`objects, store
      ensures var o := old(objects[id]);
              && objects == old(objects)[id := Evicted(o, old(store.nextId)).(target := Some(Nulled(o.target.value)))]
              && store.files == old(EvictedFiles(store.files, objects[id], store.nextId))
              && store.nextId == (if o.dirty then old(store.nextId) + 1 else old(store.nextId))
              && store.events == old(store.events) + WriteBackEvents(o, old(store.nextId))
    {
      hide Nulled;
      var o := objects[id];
      var text := o.target.value;
      objects := objects[id := o.(isLeaf := text.refs == [], target := Some(Nulled(text)))];
      if o.dirty {
        var bsid := store.Allocate();
        store.Write(bsid, text);
        if o.bsid > 0 {
          store.Deallocate(o.bsid);
        }
        objects := objects[id := objects[id].(bsid := bsid, dirty := false)];
      }
    }

    /** Writes an object back, destroys the copy in memory and forgets it.  The pointers in
        the copy are null by then, so destroying it takes no reference from any object. */
    method Evict(id: ObjectId)
      requires Valid() && id in objects && objects[id].target.Some?
      modifies this`objects, this`lru, this`current, this`plain, store
      ensures Valid() && Now() == old(EvictView(Now(), id))
      ensures current == Down(old(current)) && |lru| == |old(lru)| - 1 && SamePlain(old(plain), plain)
    {
      hide Sound, EvictedFiles, EvictedOwner, Tallied, Down, WrapDown, Nulled, AllNull;
      ghost var v := Now();
      EvictKeeps(v, {}, id);
      TallyDown(current, plain.skipped, plain.wraps, |lru|);
      WriteBack(id);
      NulledNull(v.objects[id].target.value);
      DropAll(objects[id].target.value.refs, AT_REST, plain.ext);
      UpdatedTwice(v.objects, id, objects[id], objects[id].(target := None));
      objects := objects[id := objects[id].(target := None)];
      plain := plain.(owner := EvictedOwner(plain.owner, id, v.objects[id], v.nextStore),
                      wraps := WrapDown(current, plain.wraps));
      lru, current := Without(lru, id), Down(current);
    }

    /** Evicts the least recently accessed object that is not pinned, if there is one. */
    method EvictOne() returns (found: bool, ghost victim: ObjectId)
      requires Valid()
      modifies this`objects, this`lru, this`current, this`plain, store
      ensures Valid()
      ensures !found ==> Now() == old(Now()) && current == old(current) && AllPinned(objects, lru)
      ensures found ==> victim in old(lru) && victim in old(objects) && old(objects)[victim].target.Some?
      ensures found ==> old(objects)[victim].pincount == 0 && current == Down(old(current))
      ensures found ==> Now() == old(EvictView(Now(), victim)) && |lru| == |old(lru)| - 1
      ensures found ==> OldestUnpinned(old(objects), old(lru), victim)
      ensures SamePlain(old(plain), plain)
    {
      hide Sound, Tallied, Queued, OldestUnpinned;
      found, victim := false, 0;
      SoundQueue(Now(), {});
      QueueHolds(objects, lru, nextAccess);
      var i := 0;
      while i < |lru| && objects[lru[i]].pincount > 0
        invariant i <= |lru|
        invariant forall j :: 0 <= j < i ==> objects[lru[j]].pincount > 0
      {
        i := i + 1;
      }
      if i < |lru| {
        found, victim := true, lru[i];
        VictimOldest(objects, lru, i, nextAccess);
        Evict(lru[i]);
      }
    }

    method EvictDownTo(limit: nat)
      requires Valid()
      modifies this`objects, this`lru, this`current, this`plain, store
      ensures Valid() && SamePlain(old(plain), plain)
      ensures EvictedTo(limit, old(objects), old(lru), old(current), objects, lru, current)
      ensures old(current) <= limit ==> Now() == old(Now())
    {
      hide Sound, Tallied, Trimmed, Queued, OldestUnpinned;
      NothingTrimmed(objects, lru);
      while current > limit
        invariant Valid() && SamePlain(old(plain), plain) && Trimmed(old(objects), old(lru), objects, lru)
        invariant if old(current) <= limit then Now() == old(Now()) && current == old(current) else current >= limit
        decreases |lru|
      {
        ghost var v := Now();
        SoundQueue(v, {});
        var found;
        ghost var victim;
        found, victim := EvictOne();
        if !found {
          return;
        }
        TrimmedMore(old(objects), old(lru), v.objects, v.lru, nextAccess, victim, v.nextStore);
      }
    }

    /** Evicts until the counter is within the limit or everything resident is pinned. */
    method MaybeEvictSomething()
      requires Valid()
      modifies this`objects, this`lru, this`current, this`plain, store
      ensures Valid() && SamePlain(old(plain), plain)
      ensures EvictedTo(maxInMemory, old(objects), old(lru), old(current), objects, lru, current)
      ensures old(current) <= maxInMemory ==> Now() == old(Now())
    {
      EvictDownTo(maxInMemory);
    }

    /** The same with a limit of nothing. */
    method EvictAll()
      requires Valid()
      modifies this`objects, this`lru, this`current, this`plain, store
      ensures Valid() && SamePlain(old(plain), plain)
      ensures EvictedTo(0, old(objects), old(lru), old(current), objects, lru, current)
    {
      EvictDownTo(0);
    }

    method SetCacheSize(size: nat)
      requires Valid() && size > 0
      modifies this`objects, this`lru, this`current, this`plain, this`maxInMemory, store
      ensures Valid() && maxInMemory == size && SamePlain(old(plain), plain)
      ensures EvictedTo(size, old(objects), old(lru), old(current), objects, lru, current)
    {
      maxInMemory := size;
      MaybeEvictSomething();
    }

    // ---------- Pins ----------

    /** pin::dopin. */
    method Pin(id: ObjectId)
      requires Valid() && id in objects
      modifies this`objects
      ensures Valid() && Now() == old(CountView(Now(), id, objects[id].refcount, objects[id].pincount + 1, plain.ext))
    {
      hide Sound, Tallied;
      SameKeys(Now(), {});
      CountsKeep(Now(), {}, id, objects[id].refcount, objects[id].pincount + 1, plain.ext);
      objects := objects[id := objects[id].(pincount := objects[id].pincount + 1)];
    }

    /** pin::unpin. */
    method Unpin(id: ObjectId)
      requires Valid() && id in objects && objects[id].pincount > 0
      modifies this`objects, this`lru, this`current, this`plain, store
      ensures Valid() && SamePlain(old(plain), plain) && objects.Keys == old(objects.Keys)
      ensures var t := old(objects)[id := old(objects)[id].(pincount := old(objects)[id].pincount - 1)];
              PinsKept(t, objects) && EvictedTo(maxInMemory, t, old(lru), old(current), objects, lru, current)
    {
      hide Sound, Tallied, EvictedTo, Trimmed, PinsKept;
      SameKeys(Now(), {});
      CountsKeep(Now(), {}, id, objects[id].refcount, objects[id].pincount - 1, plain.ext);
      objects := objects[id := objects[id].(pincount := objects[id].pincount - 1)];
      ghost var v := Now();
      MaybeEvictSomething();
      EvictedTrims(maxInMemory, v.objects, v.lru, old(current), objects, lru, current);
      TrimmedPins(v.objects, v.lru, objects, lru);
    }

    /** Brings an object into memory and marks it used and, for a non-const access, dirty. */
    method Touch(id: ObjectId, dirty: bool) returns (c: Content)
      requires Valid() && id in objects
      modifies this`objects, this`lru, this`nextAccess, this`current, this`plain
      ensures Valid() && SamePlain(old(plain), plain) && id in plain.heap && c == plain.heap[id]
      ensures Now() == old(AccessView(Now(), id, dirty))
      ensures current == if old(objects)[id].target.None? then Up(old(current)) else old(current)
    {
      hide Sound, Tallied, Up, WrapUp;
      AccessKeeps(Now(), {}, id, dirty);
      var o := objects[id];
      if o.target.None? {
        TallyUp(current, plain.skipped, plain.wraps, |lru|);
        c := store.Read(o.bsid);
        plain := plain.(wraps := WrapUp(current, plain.wraps));
        current := Up(current);
      } else {
        c := o.target.value;
      }
      objects := objects[id := Accessed(o, nextAccess, dirty, c)];
      lru, nextAccess := Without(lru, id) + [id], nextAccess + 1;
    }

    /** pin::operator->: reads what the plain heap holds, and leaves the object in memory,
        as the one accessed last. */
    method Access(id: ObjectId, dirty: bool) returns (c: Content)
      requires Valid() && id in objects && objects[id].pincount > 0
      modifies this`objects, this`lru, this`nextAccess, this`current, this`plain, store
      ensures Valid() && SamePlain(old(plain), plain) && id in plain.heap && c == plain.heap[id]
      ensures objects.Keys == old(objects.Keys) && nextAccess == old(nextAccess) + 1
      ensures objects[id].lastAccess == old(nextAccess) && lru != [] && lru[|lru| - 1] == id
      ensures forall o :: o in objects && o != id ==> objects[o].lastAccess == old(objects)[o].lastAccess
      ensures var t := old(objects)[id := Accessed(old(objects)[id], old(nextAccess), dirty, c)];
              var loaded := if old(objects)[id].target.None? then Up(old(current)) else old(current);
              && PinsKept(t, objects)
              && EvictedTo(maxInMemory, t, Without(old(lru), id) + [id], loaded, objects, lru, current)
    {
      hide Sound, Tallied, EvictedTo, Trimmed, PinsKept, Up, Queued, Without;
      SameKeys(Now(), {});
      c := Touch(id, dirty);
      ghost var v, loaded := Now(), current;
      MaybeEvictSomething();
      EvictedTrims(maxInMemory, v.objects, v.lru, loaded, objects, lru, current);
      TrimmedPins(v.objects, v.lru, objects, lru);
      TrimmedTimes(v.objects, v.lru, objects, lru);
      SoundQueue(Now(), {});
      PinnedStays(v.objects, objects, id);
      LastInQueue(objects, lru, nextAccess, id);
    }

    // ---------- Pointers ----------

    /** Enters a new object, without pointers, and the first pointer to it. */
    method Enter(data: int) returns (id: ObjectId)
      requires Valid()
      modifies this`objects, this`lru, this`nextId, this`nextAccess, this`current, this`plain
      ensures Valid() && id !in old(objects) && id == old(nextId) + 1 && nextId == id + 1
      ensures plain.heap == old(plain.heap)[id := Content(data, [])] && plain.ext == old(plain.ext) + multiset{id}
      ensures plain.skipped == old(plain.skipped)
      ensures objects == old(objects)[id := Entered(data, old(nextAccess))] && lru == old(lru) + [id]
      ensures current == Up(old(current)) && nextAccess == old(nextAccess) + 1
    {
      hide Sound, Tallied, Up, WrapUp;
      id := nextId + 1;
      var o := Entered(data, nextAccess);
      EnterKeeps(Now(), {}, id, o);
      TallyUp(current, plain.skipped, plain.wraps, |lru|);
      objects, lru, nextId, nextAccess := objects[id := o], lru + [id], id + 1, nextAccess + 1;
      plain := plain.(heap := plain.heap[id := Content(data, [])], ext := plain.ext + multiset{id},
                      wraps := WrapUp(current, plain.wraps));
      current := Up(current);
    }

    /** swap_space::allocate. */
    method Allocate(data: int) returns (id: ObjectId)
      requires Valid()
      modifies this`objects, this`lru, this`nextId, this`nextAccess, this`current, this`plain, store
      ensures Valid() && id !in old(objects) && id == old(nextId) + 1 && nextId == id + 1
      ensures plain.skipped == old(plain.skipped)
      ensures plain.heap == old(plain.heap)[id := Content(data, [])] && plain.ext == old(plain.ext) + multiset{id}
      ensures objects.Keys == old(objects.Keys) + {id} && PinsKept(old(objects), objects) && objects[id].pincount == 0
      ensures objects[id].lastAccess == old(nextAccess) && nextAccess == old(nextAccess) + 1
      ensures forall o :: o in old(objects) ==> objects[o].lastAccess == old(objects)[o].lastAccess
      ensures EvictedTo(maxInMemory, old(objects)[id := Entered(data, old(nextAccess))], old(lru) + [id],
                        Up(old(current)), objects, lru, current)
    {
      hide Sound, Trimmed, EvictedTo, Tallied, Up;
      id := Enter(data);
      ghost var v, more := Now(), current;
      MaybeEvictSomething();
      EvictedTrims(maxInMemory, v.objects, v.lru, more, objects, lru, current);
      TrimmedPins(v.objects, v.lru, objects, lru);
      TrimmedTimes(v.objects, v.lru, objects, lru);
    }

    /** Copying a pointer. */
    method Copy(id: ObjectId)
      requires Valid() && id in objects
      modifies this`objects, this`plain
      ensures Valid()
      ensures Now() == old(CountView(Now(), id, objects[id].refcount + 1, objects[id].pincount,
                                     plain.ext + multiset{id}))
      ensures plain == old(plain).(ext := old(plain.ext) + multiset{id})
    {
      hide Sound, Tallied;
      CountsKeep(Now(), {}, id, objects[id].refcount + 1, objects[id].pincount, plain.ext + multiset{id});
      objects := objects[id := objects[id].(refcount := objects[id].refcount + 1)];
      plain := plain.(ext := plain.ext + multiset{id});
    }

    /** pointer::depoint: gives up one pointer; with the last one the object goes, and with
        it the pointers it held. */
    method Depoint(x: ObjectId, ghost l: Limbo)
      requires x > 0 ==> Inv(l) && plain.ext[x] > 0
      modifies this`objects, this`lru, this`current, this`plain, store
      ensures x == 0 ==> Untouched(old(Now()), Now(), old(current), current, old(plain), plain)
      ensures x > 0 ==> Inv(l) && plain.ext == old(plain.ext) - multiset{x}
      ensures x > 0 ==> Reclaimed(old(objects), objects, old(plain), plain)
      decreases |objects|, 1
    {
      hide Sound, Tallied;
      if x > 0 {
        SameKeys(Now(), l.files);
        hide Reclaimed;
        if objects[x].refcount > 1 {
          CountDropped(objects, x, plain, plain.ext - multiset{x});
          CountDown(x, l);
        } else {
          Reclaim(x, l);
        }
      }
    }

    method CountDown(x: ObjectId, ghost l: Limbo)
      requires Inv(l) && plain.ext[x] > 0 && x in objects && objects[x].refcount > 1
      modifies this`objects, this`plain
      ensures Inv(l) && plain == old(plain).(ext := old(plain.ext) - multiset{x})
      ensures objects == old(objects)[x := old(objects)[x].(refcount := old(objects)[x].refcount - 1)]
    {
      hide Sound, Tallied;
      CountsKeep(Now(), l.files, x, objects[x].refcount - 1, objects[x].pincount, plain.ext - multiset{x});
      objects := objects[x := objects[x].(refcount := objects[x].refcount - 1)];
      plain := plain.(ext := plain.ext - multiset{x});
    }

    /** The pointers a dying object holds.  An evicted object is loaded for them, unless it
        has none; `loaded` says whether the object is in memory then. */
    method FindRefs(x: ObjectId, ghost l: Limbo) returns (refs: seq<ObjectId>, loaded: bool)
      requires Inv(l) && x in objects
      modifies this`current, this`plain
      ensures Now() == old(Now()) && SamePlain(old(plain), plain) && x in plain.heap && refs == plain.heap[x].refs
      ensures loaded == !(objects[x].target.None? && objects[x].isLeaf)
      ensures Tallied(current, plain.skipped, plain.wraps,
                      |lru| + l.owed + (if loaded && objects[x].target.None? then 1 else 0))
    {
      hide Sound, Tallied, Up, WrapUp;
      var o := objects[x];
      loaded := true;
      SoundContent(Now(), l.files, x);
      if o.target.Some? {
        refs := o.target.value.refs;
      } else if !o.isLeaf {
        TallyUp(current, plain.skipped, plain.wraps, |lru| + l.owed);
        var c := store.Read(o.bsid);
        refs := c.refs;
        plain := plain.(wraps := WrapUp(current, plain.wraps));
        current := Up(current);
      } else {
        refs, loaded := [], false;
      }
    }

    /** Takes a dying object out of the tables; the pointers it held stand on their own. */
    method TakeOut(x: ObjectId, refs: seq<ObjectId>, loaded: bool, ghost l: Limbo) returns (bsid: StoreId)
      requires Sound(Now(), l.files) && x in objects && x in plain.heap && objects[x].refcount == 1 && plain.ext[x] > 0
      requires refs == plain.heap[x].refs && (objects[x].target.Some? ==> loaded)
      requires Tallied(current, plain.skipped, plain.wraps,
                       |lru| + l.owed + (if loaded && objects[x].target.None? then 1 else 0))
      modifies this`objects, this`lru, this`plain
      ensures Inv(Limbo(DoomedWith(l.files, bsid), if loaded then l.owed + 1 else l.owed))
      ensures bsid > 0 ==> bsid !in l.files
      ensures plain.ext == old(plain.ext) - multiset{x} + multiset(refs)
      ensures plain.heap == old(plain.heap) - {x} && objects == old(objects) - {x}
      ensures plain.skipped == old(plain.skipped)
    {
      hide Sound, Tallied, DoomedWith, Without;
      bsid := objects[x].bsid;
      ghost var ext' := plain.ext - multiset{x} + multiset(refs);
      TakenOut(Now(), l.files, x);
      objects, lru := objects - {x}, Without(lru, x);
      plain := plain.(heap := plain.heap - {x}, ext := ext',
                      owner := if bsid > 0 then plain.owner - {bsid} else plain.owner);
    }

    /** Destroying an object's content gives up the pointers in it, one after the other;
        null pointers are given up without effect, whatever state the tables are in. */
    method DropAll(refs: seq<ObjectId>, ghost l: Limbo, ghost rest: multiset<ObjectId>)
      requires AllNull(refs) || (Inv(l) && plain.ext == rest + multiset(refs))
      modifies this`objects, this`lru, this`current, this`plain, store
      ensures AllNull(refs) ==> Untouched(old(Now()), Now(), old(current), current, old(plain), plain)
      ensures !AllNull(refs) ==> Inv(l) && plain.ext == rest && Reclaimed(old(objects), objects, old(plain), plain)
      decreases |objects|, 2
    {
      hide Sound, Tallied, Reclaimed, AllNull;
      var i := 0;
      assert refs[0..] == refs;
      NothingReclaimed(objects, plain);
      while i < |refs|
        invariant i <= |refs|
        invariant AllNull(refs) ==> Untouched(old(Now()), Now(), old(current), current, old(plain), plain)
        invariant !AllNull(refs) ==> Inv(l) && plain.ext == rest + multiset(refs[i..])
        invariant !AllNull(refs) ==> Reclaimed(old(objects), objects, old(plain), plain) && |objects| <= |old(objects)|
      {
        ghost var t, p := objects, plain;
        if AllNull(refs) {
          NullAt(refs, i);
        } else {
          NextPointer(plain.ext, rest, refs, i);
          SameKeys(Now(), l.files);
        }
        Depoint(refs[i], l);
        if !AllNull(refs) {
          ReclaimedMore(old(objects), t, objects, old(plain), p, plain);
          FewerLeft(old(objects), objects, old(plain), plain);
        }
        i := i + 1;
      }
    }

    /** The pointers of a dying object, none of which is null. */
    method DropContent(refs: seq<ObjectId>, ghost l: Limbo, ghost rest: multiset<ObjectId>)
      requires Inv(l) && plain.ext == rest + multiset(refs)
      modifies this`objects, this`lru, this`current, this`plain, store
      ensures Inv(l) && plain.ext == rest && Reclaimed(old(objects), objects, old(plain), plain)
      decreases |objects|, 3
    {
      hide Sound, Tallied, Reclaimed, AllNull;
      NothingReclaimed(objects, plain);
      NullsGone(Now(), l.files, refs, rest);
      DropAll(refs, l, rest);
    }

    /** What remains to be done for an object once its pointers are given up. */
    method Finish(bsid: StoreId, loaded: bool, ghost l: Limbo)
      requires Inv(Limbo(DoomedWith(l.files, bsid), if loaded then l.owed + 1 else l.owed))
      requires bsid > 0 ==> bsid !in l.files
      modifies this`current, this`plain, store`files, store`events
      ensures Inv(l) && plain.heap == old(plain.heap) && plain.ext == old(plain.ext)
      ensures plain.skipped == (if loaded then old(plain.skipped) else old(plain.skipped) + 1)
    {
      hide Sound, Tallied, Down, WrapDown;
      if loaded {
        TallyDown(current, plain.skipped, plain.wraps, |lru| + l.owed + 1);
      } else {
        TallySkip(current, plain.skipped, plain.wraps, |lru| + l.owed);
      }
      plain := plain.(skipped := if loaded then plain.skipped else plain.skipped + 1,
                      wraps := WrapDown(current, plain.wraps));
      current := Down(current);
      if bsid > 0 {
        DeleteKeeps(Now(), l.files, bsid);
        store.Deallocate(bsid);
      }
    }

    /** Frees an object that has lost its last pointer. */
    method Reclaim(x: ObjectId, ghost l: Limbo)
      requires Inv(l) && x in objects && x in plain.heap && objects[x].refcount == 1 && plain.ext[x] > 0
      modifies this`objects, this`lru, this`current, this`plain, store
      ensures Inv(l) && plain.ext == old(plain.ext) - multiset{x}
      ensures Reclaimed(old(objects), objects, old(plain), plain) && |objects| < |old(objects)|
      decreases |objects|, 0
    {
      hide Sound, Tallied, Reclaimed, DoomedWith, AllNull;
      OneGone(objects, plain.heap, x);
      var refs, loaded := FindRefs(x, l);
      var bsid := TakeOut(x, refs, loaded, l);
      ghost var t, p1 := objects, plain;
      ghost var l1 := Limbo(DoomedWith(l.files, bsid), if loaded then l.owed + 1 else l.owed);
      DropContent(refs, l1, old(plain.ext) - multiset{x});
      ghost var p2 := plain;
      Finish(bsid, loaded, l);
      ReclaimedWhole(old(objects), x, objects, old(plain), p1, p2, plain, loaded);
    }

    /** Destroying a pointer held outside any object. */
    method Drop(x: ObjectId)
      requires Valid() && plain.ext[x] > 0
      modifies this`objects, this`lru, this`current, this`plain, store
      ensures Valid() && plain.ext == old(plain.ext) - multiset{x}
      ensures Reclaimed(old(objects), objects, old(plain), plain)
    {
      hide Sound, Tallied, Reclaimed;
      SameKeys(Now(), {});
      Depoint(x, AT_REST);
    }

    /** pointer::operator=: the old target loses a pointer before the new one gains it.  The
        new target survives because the pointer assigned from still points to it. */
    method Assign(dst: ObjectId, src: ObjectId)
      requires Valid() && (dst > 0 ==> plain.ext[dst] > 0)
      requires src > 0 ==> (plain.ext - multiset{dst})[src] > 0
      modifies this`objects, this`lru, this`current, this`plain, store
      ensures Valid()
      ensures plain.ext == old(plain.ext) - (if dst > 0 then multiset{dst} else multiset{})
                                          + (if src > 0 then multiset{src} else multiset{})
      ensures Reclaimed(old(objects), objects, old(plain), plain) && (src > 0 ==> src in plain.heap)
    {
      hide Sound, Tallied, Reclaimed;
      SameKeys(Now(), {});
      NothingReclaimed(objects, plain);
      Depoint(dst, AT_REST);
      SameKeys(Now(), {});
      if src > 0 {
        ReclaimedCount(old(objects), objects, old(plain), plain, src, objects[src].refcount + 1,
                       plain.ext + multiset{src});
        Copy(src);
      }
    }

    /** The code that holds a non-const pin changes the object in memory: new data, and
        pointers exchanged with those held outside. */
    method Mutate(id: ObjectId, c: Content)
      requires Valid() && id in objects && id in plain.heap
      requires objects[id].pincount > 0 && objects[id].target.Some? && objects[id].dirty
      requires multiset(c.refs) <= plain.ext + multiset(plain.heap[id].refs)
      modifies this`objects, this`plain
      ensures Valid() && plain.heap == old(plain.heap)[id := c] && plain.skipped == old(plain.skipped)
      ensures plain.ext == old(plain.ext) + multiset(old(plain.heap[id].refs)) - multiset(c.refs)
      ensures objects == old(objects)[id := old(objects[id]).(target := Some(c))]
    {
      hide Sound, Tallied, Occurs;
      ghost var ext' := plain.ext + multiset(plain.heap[id].refs) - multiset(c.refs);
      PointersExchanged(plain.ext, plain.heap[id].refs, c.refs);
      WriteKeeps(Now(), {}, id, c, ext');
      objects := objects[id := objects[id].(target := Some(c))];
      plain := plain.(heap := plain.heap[id := c], ext := ext');
    }
  }

  lemma {:induction false} ReclaimedCount(t: Table, t': Table, p: Plain, p': Plain, x: ObjectId, refcount: nat,
                                          ext: multiset<ObjectId>)
    requires Reclaimed(t, t', p, p') && x in t'
    ensures Reclaimed(t, t'[x := t'[x].(refcount := refcount, pincount := t'[x].pincount)], p, p'.(ext := ext))
  {
    var t'' := t'[x := t'[x].(refcount := refcount, pincount := t'[x].pincount)];
    assert t''.Keys == t'.Keys;
    assert Unloaded(t, t'') == Unloaded(t, t');
  }

  lemma {:induction false} KeptPins(t: Table, t': Table)
    requires Kept(t, t')
    ensures PinsKept(t, t') && t'.Keys <= t.Keys
  {
  }
}
