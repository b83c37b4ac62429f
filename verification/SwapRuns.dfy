/** Cache transparency over whole runs: a program that allocates, copies, assigns and drops
    pointers, pins objects for as long as it likes and reads and writes them under its pins
    gets from the swap space, whatever its size and whenever it evicts, the replies of a
    heap that neither evicts nor frees anything. */
module SwapRuns {
  import opened Base
  import opened SwapStates
  import opened SwapCommands
  import opened SwapReplies
  import opened SwapSpaces

  // ---------- The swap space against it ----------

  /** The pins are those in hand, and an object open for writing is in memory and dirty. */
  ghost predicate PinsMirror(t: Table, h: Hands) {
    && (forall o :: o in t ==> t[o].pincount == multiset(Ids(h.pins))[o])
    && (forall o :: o in h.open ==> o in t && Pinned(h, o) && t[o].target.Some? && t[o].dirty)
  }

  /** Everything still pointed to is what the plain heap holds. */
  ghost predicate HeapMirrors(h: Heap, contents: Heap) {
    forall o :: o in h ==> o in contents && contents[o] == h[o]
  }

  ghost predicate Mirrors(s: SwapSpace, m: Memory)
    reads s
  {
    && s.plain.ext == m.hands.held && s.nextId == m.nextId
    && HeapMirrors(s.plain.heap, m.contents) && PinsMirror(s.objects, m.hands)
    && Safe(m.hands.held, m.hands.pins) && Linked(m.contents, m.hands.pins) && Numbered(m.contents, m.nextId)
  }

  // ---------- Access times ----------

  /** What a command does to the times of the last access: it gives the object it accesses
      a time that is not in the past, and all others keep theirs. */
  ghost predicate Timed(t: Table, now: nat, t': Table, now': nat, used: Option<ObjectId>) {
    && now <= now'
    && forall o :: o in t' ==> if used == Some(o) then t'[o].lastAccess >= now
                               else o in t && t'[o].lastAccess == t[o].lastAccess
  }

  /** `v` was in memory and is no longer, although it is still alive. */
  ghost predicate Left(t: Table, t': Table, used: Option<ObjectId>, v: ObjectId) {
    v in t' && t'[v].target.None? && (used == Some(v) || (v in t && t[v].target.Some?))
  }

  /** What has left memory was accessed before anything that could have left and did not. */
  ghost predicate OldestLeft(t: Table, t': Table, used: Option<ObjectId>) {
    forall v, o :: Left(t, t', used, v) && o in t' && t'[o].target.Some? && t'[o].pincount == 0
      ==> t'[v].lastAccess < t'[o].lastAccess
  }

  ghost predicate Stepped(t: Table, now: nat, t': Table, now': nat, used: Option<ObjectId>) {
    Timed(t, now, t', now', used) && OldestLeft(t, t', used)
  }

  /** Nothing is accessed and nothing leaves memory. */
  lemma {:induction false} StepStill(t: Table, t': Table, now: nat)
    requires forall o :: o in t'
               ==> o in t && t'[o].lastAccess == t[o].lastAccess && (t'[o].target.Some? <==> t[o].target.Some?)
    ensures Stepped(t, now, t', now, None)
  {
  }

  /** A table with one object accessed, or none, then trimmed. */
  lemma {:induction false} StepTrimmed(t: Table, now: nat, t1: Table, q1: seq<ObjectId>, t': Table, q': seq<ObjectId>,
                                       now': nat, used: Option<ObjectId>)
    requires Trimmed(t1, q1, t', q') && Queued(t', q', now') && now <= now'
    requires forall o :: o in q1 <==> o in t1 && t1[o].target.Some?
    requires forall o :: o in t1 && used != Some(o)
               ==> o in t && t1[o].lastAccess == t[o].lastAccess && t1[o].target == t[o].target
    requires used.Some? && used.value in t1 ==> t1[used.value].lastAccess >= now && t1[used.value].target.Some?
    ensures Stepped(t, now, t', now', used)
  {
  }

  /** The same with a pin or a pointer more on an object in the end. */
  lemma {:induction false} StepCounted(t: Table, now: nat, t1: Table, now': nat, used: Option<ObjectId>, x: ObjectId,
                                       refcount: nat, pincount: nat)
    requires Stepped(t, now, t1, now', used) && x in t1 && pincount >= t1[x].pincount
    ensures Stepped(t, now, t1[x := t1[x].(refcount := refcount, pincount := pincount)], now', used)
  {
    var t' := t1[x := t1[x].(refcount := refcount, pincount := pincount)];
    forall v, o | Left(t, t', used, v) && o in t' && t'[o].target.Some? && t'[o].pincount == 0
      ensures t'[v].lastAccess < t'[o].lastAccess
    {
      assert Left(t, t1, used, v);
    }
  }

  /** The objects are in the order of their last use in the run. */
  ghost predicate Timeline(t: Table, past: seq<Command>) {
    && (forall o :: o in t ==> LastUse(past, o) >= 0)
    && (forall o, o' :: o in t && o' in t
          ==> (t[o].lastAccess < t[o'].lastAccess <==> LastUse(past, o) < LastUse(past, o')))
  }

  lemma {:induction false} TimelineNext(t: Table, now: nat, t': Table, now': nat, past: seq<Command>, cmd: Command)
    requires Timeline(t, past) && Clocked(t, now) && Stepped(t, now, t', now', Uses(After(past), cmd))
    ensures Timeline(t', past + [cmd])
  {
    hide LastUse, Uses, After;
    forall o: ObjectId
      ensures LastUse(past + [cmd], o) == if Uses(After(past), cmd) == Some(o) then |past| else LastUse(past, o)
      ensures LastUse(past, o) < |past|
    {
      LastUseMore(past, cmd, o);
      LastUseBelow(past, o);
    }
  }

  /** What a command has driven out of memory was last used, in the whole run, before
      anything still there without a pin. */
  ghost predicate VictimsFirst(t: Table, t': Table, past: seq<Command>, cmd: Command) {
    forall v, o :: Left(t, t', Uses(After(past), cmd), v) && o in t' && t'[o].target.Some?
                   && !Pinned(After(past + [cmd]).hands, o)
      ==> LastUse(past + [cmd], v) < LastUse(past + [cmd], o)
  }

  lemma {:induction false} VictimsNext(t: Table, now: nat, t': Table, now': nat, past: seq<Command>, cmd: Command)
    requires Timeline(t', past + [cmd]) && Stepped(t, now, t', now', Uses(After(past), cmd))
    requires PinsMirror(t', After(past + [cmd]).hands)
    ensures VictimsFirst(t, t', past, cmd)
  {
    hide LastUse, Uses, After;
    var h := After(past + [cmd]).hands;
    forall o | o in t' ensures t'[o].pincount == 0 <==> !Pinned(h, o) {
      PinnedCount(h, o);
    }
  }

  /** A pointer inside an object leads to an object. */
  lemma {:induction false} InsideLeads(v: View, o: ObjectId, i: nat)
    requires Sound(v, {}) && o in v.heap && i < |v.heap[o].refs|
    ensures v.heap[o].refs[i] in v.objects
  {
    hide Inner;
    var r := v.heap[o].refs[i];
    InnerRemove(v.heap, o, r);
    assert r in multiset(v.heap[o].refs);
  }

  /** Whatever is pinned is there. */
  lemma {:induction false} PinsAlive(v: View, contents: Heap, held: multiset<ObjectId>, pins: seq<Pin>, k: nat)
    requires Sound(v, {}) && v.ext == held && HeapMirrors(v.heap, contents)
    requires Safe(held, pins) && Linked(contents, pins)
    requires k < |pins|
    ensures pins[k].id in v.objects
    decreases k
  {
    hide Sound;
    SameKeys(v, {});
    if pins[k].via.Some? {
      var q := pins[k].via.value;
      var j :| 0 <= j < k && Ids(pins[..k])[j] == q;
      PinsAlive(v, contents, held, pins, j);
      var i :| 0 <= i < |v.heap[q].refs| && v.heap[q].refs[i] == pins[k].id;
      InsideLeads(v, q, i);
    }
  }

  /** A step that keeps the pins and what is pinned. */
  lemma {:induction false} PinsStay(t: Table, t': Table, h: Hands, h': Hands)
    requires PinsMirror(t, h) && PinsKept(t, t') && h'.pins == h.pins && h'.open == h.open
    requires forall k :: 0 <= k < |h.pins| ==> h.pins[k].id in t'
    requires forall o :: o in t' && o !in t ==> t'[o].pincount == 0 && o !in Ids(h.pins)
    ensures PinsMirror(t', h')
  {
    forall o | o in h'.open ensures o in t' && t'[o].target.Some? && t'[o].dirty {
      var k :| 0 <= k < |h.pins| && Ids(h.pins)[k] == o;
      assert o in multiset(Ids(h.pins));
    }
  }

  lemma {:induction false} PinsUnpinned(t: Table, t': Table, h: Hands, id: ObjectId)
    requires PinsMirror(t, h) && id in t && Pinned(h, id) && t'.Keys == t.Keys
    requires t[id].pincount > 0 && PinsKept(t[id := t[id].(pincount := t[id].pincount - 1)], t')
    ensures PinsMirror(t', HandsUnpinned(h, id))
  {
    hide Unpinned;
    UnpinnedCount(h.pins, id);
    var h' := HandsUnpinned(h, id);
    forall o | o in h'.open ensures Pinned(h', o) && t'[o].target.Some? && t'[o].dirty {
      assert o in multiset(Ids(h.pins));
      assert o in multiset(Ids(h'.pins));
    }
  }

  lemma {:induction false} PinsAccessed(t: Table, t': Table, h: Hands, id: ObjectId, now: nat, dirty: bool, c: Content)
    requires PinsMirror(t, h) && id in t && Pinned(h, id) && t'.Keys == t.Keys
    requires t[id].pincount > 0 && PinsKept(t[id := Accessed(t[id], now, dirty, c)], t')
    ensures PinsMirror(t', if dirty then h.(open := h.open + {id}) else h)
  {
    forall o | o in h.open ensures t'[o].target.Some? && t'[o].dirty {
      assert o in multiset(Ids(h.pins));
    }
  }

  /** Objects may have gone, but nothing that is pinned. */
  lemma {:induction false} PinsDropped(t: Table, v: View, contents: Heap, h: Hands, h': Hands)
    requires PinsMirror(t, h) && Sound(v, {}) && Kept(t, v.objects) && v.ext == h'.held && HeapMirrors(v.heap, contents)
    requires h'.pins == h.pins && h'.open == h.open && Safe(h'.held, h'.pins) && Linked(contents, h'.pins)
    ensures PinsMirror(v.objects, h')
  {
    hide Sound, Kept, PinsKept, PinsMirror, Safe, Linked, HeapMirrors;
    forall k | 0 <= k < |h.pins| ensures h.pins[k].id in v.objects {
      PinsAlive(v, contents, h'.held, h.pins, k);
    }
    KeptPins(t, v.objects);
    PinsStay(t, v.objects, h, h');
  }

  lemma {:induction false} HeapShrinks(h: Heap, h': Heap, contents: Heap)
    requires HeapMirrors(h, contents) && Shrunk(h, h')
    ensures HeapMirrors(h', contents)
  {
  }

  lemma {:induction false} PinsNew(v: View, contents: Heap, t': Table, h: Hands, id: ObjectId)
    requires PinsMirror(v.objects, h) && Sound(v, {}) && v.ext == h.held && PinsKept(v.objects, t')
    requires HeapMirrors(v.heap, contents) && Safe(h.held, h.pins) && Linked(contents, h.pins)
    requires id !in v.objects && t'.Keys == v.objects.Keys + {id} && t'[id].pincount == 0
    ensures PinsMirror(t', h.(held := h.held + multiset{id}))
  {
    hide Sound, PinsKept, PinsMirror, Safe, Linked, HeapMirrors;
    forall k | 0 <= k < |h.pins| ensures h.pins[k].id in v.objects {
      PinsAlive(v, contents, h.held, h.pins, k);
    }
    PinsStay(v.objects, t', h, h.(held := h.held + multiset{id}));
  }

  lemma {:induction false} ContentsNew(h: Heap, contents: Heap, id: ObjectId, c: Content, pins: seq<Pin>)
    requires HeapMirrors(h, contents) && Linked(contents, pins) && Numbered(contents, id)
    ensures HeapMirrors(h[id := c], contents[id := c]) && Linked(contents[id := c], pins)
    ensures Numbered(contents[id := c], id + 1)
  {
  }

  /** The steps of the swap space, as steps in time. */
  lemma {:induction false} StepNew(t: Table, q: seq<ObjectId>, now: nat, id: ObjectId, d: int, limit: nat, current: nat,
                                   t': Table, q': seq<ObjectId>, current': nat)
    requires Queued(t, q, now) && Queued(t', q', now + 1)
    requires EvictedTo(limit, t[id := Entered(d, now)], q + [id], current, t', q', current')
    ensures Stepped(t, now, t', now + 1, Some(id))
  {
    hide Trimmed, AllPinned, Stepped;
    StepTrimmed(t, now, t[id := Entered(d, now)], q + [id], t', q', now + 1, Some(id));
  }

  lemma {:induction false} StepUnpinned(t: Table, q: seq<ObjectId>, now: nat, id: ObjectId, limit: nat, current: nat,
                                        t': Table, q': seq<ObjectId>, current': nat)
    requires Queued(t, q, now) && Queued(t', q', now) && id in t && t[id].pincount > 0
    requires EvictedTo(limit, t[id := t[id].(pincount := t[id].pincount - 1)], q, current, t', q', current')
    ensures Stepped(t, now, t', now, None)
  {
    hide Trimmed, AllPinned, Stepped;
    StepTrimmed(t, now, t[id := t[id].(pincount := t[id].pincount - 1)], q, t', q', now, None);
  }

  lemma {:induction false} StepAccessed(t: Table, q: seq<ObjectId>, now: nat, id: ObjectId, dirty: bool, c: Content,
                                        limit: nat, current: nat, t': Table, q': seq<ObjectId>, current': nat)
    requires Queued(t, q, now) && Queued(t', q', now + 1) && id in t
    requires EvictedTo(limit, t[id := Accessed(t[id], now, dirty, c)], Without(q, id) + [id], current, t', q', current')
    ensures Stepped(t, now, t', now + 1, Some(id))
  {
    hide Trimmed, AllPinned, Stepped, Without;
    StepTrimmed(t, now, t[id := Accessed(t[id], now, dirty, c)], Without(q, id) + [id], t', q', now + 1, Some(id));
  }

  lemma {:induction false} StepKept(t: Table, t': Table, now: nat)
    requires Kept(t, t')
    ensures Stepped(t, now, t', now, None)
  {
    StepStill(t, t', now);
  }

  method PerformNew(s: SwapSpace, d: int, ghost m: Memory, h: Hands) returns (reply: Reply, h': Hands)
    requires s.Valid() && Mirrors(s, m) && h == m.hands
    modifies s, s.store
    ensures s.Valid() && Mirrors(s, Next(m, New(d))) && h' == Next(m, New(d)).hands
    ensures reply == Answer(m, New(d))
    ensures Stepped(old(s.objects), old(s.nextAccess), s.objects, s.nextAccess, Uses(m, New(d)))
  {
    hide Sound, Tallied, PinsKept, PinsMirror, HeapMirrors, Linked, Safe, Numbered, EvictedTo, Stepped, Queued, Up;
    ghost var v := s.Now();
    SoundQueue(v, {});
    var id := s.Allocate(d);
    SoundQueue(s.Now(), {});
    StepNew(v.objects, v.lru, v.now, id, d, s.maxInMemory, Up(old(s.current)), s.objects, s.lru, s.current);
    reply, h' := Pointer(id), h.(held := h.held + multiset{id});
    PinsNew(v, m.contents, s.objects, h, id);
    MoreHeld(h.held, multiset{id}, h.pins);
    NumberedMore(m.contents, m.nextId, id);
    ContentsNew(v.heap, m.contents, id, Content(d, []), h.pins);
  }

  method PerformDrop(s: SwapSpace, id: ObjectId, ghost m: Memory, h: Hands) returns (reply: Reply, h': Hands)
    requires s.Valid() && Mirrors(s, m) && h == m.hands
    modifies s, s.store
    ensures s.Valid() && Mirrors(s, Next(m, DropPointer(id))) && h' == Next(m, DropPointer(id)).hands
    ensures reply == Answer(m, DropPointer(id))
    ensures Stepped(old(s.objects), old(s.nextAccess), s.objects, s.nextAccess, None)
  {
    hide Sound, Tallied, Kept, Shrunk, HeapMirrors, PinsMirror, Safe, Linked, Numbered;
    reply, h' := Refused, h;
    StepStill(s.objects, s.objects, s.nextAccess);
    if MayDrop(h, id) {
      ghost var v := s.Now();
      s.Drop(id);
      StepKept(v.objects, s.objects, s.nextAccess);
      reply, h' := Done, h.(held := h.held - multiset{id});
      HeapShrinks(v.heap, s.plain.heap, m.contents);
      PinsDropped(v.objects, s.Now(), m.contents, h, h');
    }
  }

  method PerformAssign(s: SwapSpace, dst: ObjectId, src: ObjectId, ghost m: Memory, h: Hands)
    returns (reply: Reply, h': Hands)
    requires s.Valid() && Mirrors(s, m) && h == m.hands
    modifies s, s.store
    ensures s.Valid() && Mirrors(s, Next(m, AssignPointer(dst, src))) && h' == Next(m, AssignPointer(dst, src)).hands
    ensures reply == Answer(m, AssignPointer(dst, src))
    ensures Stepped(old(s.objects), old(s.nextAccess), s.objects, s.nextAccess, None)
  {
    hide Sound, Tallied, Kept, Shrunk, HeapMirrors, PinsMirror, Safe, Linked, Numbered;
    reply, h' := Refused, h;
    StepStill(s.objects, s.objects, s.nextAccess);
    if MayAssign(h, dst, src) {
      ghost var v := s.Now();
      PositiveIds(v, dst, src);
      s.Assign(dst, src);
      StepKept(v.objects, s.objects, s.nextAccess);
      reply, h' := Done, h.(held := h.held - multiset{dst} + multiset{src});
      MoreHeld(h.held - multiset{dst}, multiset{src}, h.pins);
      HeapShrinks(v.heap, s.plain.heap, m.contents);
      PinsDropped(v.objects, s.Now(), m.contents, h, h');
    }
  }

  lemma {:induction false} PositiveIds(v: View, dst: ObjectId, src: ObjectId)
    requires Sound(v, {}) && v.ext[dst] > 0 && v.ext[src] > 0
    ensures dst > 0 && src > 0
  {
    hide Sound;
    SameKeys(v, {});
  }

  /** An object with a pin is there, and the swap space knows of the pin. */
  lemma {:induction false} PinAlive(s: SwapSpace, m: Memory, id: ObjectId)
    requires s.Valid() && Mirrors(s, m) && Pinned(m.hands, id)
    ensures id in s.objects && id in s.plain.heap && s.objects[id].pincount > 0
  {
    hide Sound, Tallied, Safe, Linked, HeapMirrors;
    SameKeys(s.Now(), {});
    var k :| 0 <= k < |m.hands.pins| && Ids(m.hands.pins)[k] == id;
    PinsAlive(s.Now(), m.contents, m.hands.held, m.hands.pins, k);
    assert id in multiset(Ids(m.hands.pins));
  }

  method PerformUnpin(s: SwapSpace, id: ObjectId, ghost m: Memory, h: Hands) returns (reply: Reply, h': Hands)
    requires s.Valid() && Mirrors(s, m) && h == m.hands
    modifies s, s.store
    ensures s.Valid() && Mirrors(s, Next(m, UnpinObject(id))) && h' == Next(m, UnpinObject(id)).hands
    ensures reply == Answer(m, UnpinObject(id))
    ensures Stepped(old(s.objects), old(s.nextAccess), s.objects, s.nextAccess, None)
  {
    hide Sound, Tallied, PinsKept, PinsMirror, Safe, Linked, HeapMirrors, Pinned, Unpinned, Numbered, EvictedTo,
         Stepped, Queued;
    reply, h' := Refused, h;
    StepStill(s.objects, s.objects, s.nextAccess);
    if MayUnpin(h, id) {
      ghost var t, q, current := s.objects, s.lru, s.current;
      PinAlive(s, m, id);
      SoundQueue(s.Now(), {});
      s.Unpin(id);
      SoundQueue(s.Now(), {});
      StepUnpinned(t, q, s.nextAccess, id, s.maxInMemory, current, s.objects, s.lru, s.current);
      PinsUnpinned(t, s.objects, h, id);
      UnpinnedLinked(m.contents, h.pins, id);
      reply, h' := Done, HandsUnpinned(h, id);
    }
  }

  /** operator->, const or not, through a pin in hand. */
  method PerformAccess(s: SwapSpace, id: ObjectId, dirty: bool, ghost m: Memory, h: Hands) returns (c: Content)
    requires s.Valid() && Mirrors(s, m) && h == m.hands && Pinned(h, id)
    modifies s, s.store
    ensures s.Valid() && Mirrors(s, if dirty then Next(m, Open(id)) else m)
    ensures id in m.contents && c == m.contents[id]
    ensures s.objects.Keys == old(s.objects.Keys) && id in s.plain.heap && s.plain.heap[id] == c
    ensures Stepped(old(s.objects), old(s.nextAccess), s.objects, s.nextAccess, Some(id))
  {
    hide Sound, Tallied, PinsKept, PinsMirror, Safe, Linked, Pinned, Numbered, EvictedTo, Stepped, Queued, Up, Without;
    PinAlive(s, m, id);
    ghost var t, q, now, current := s.objects, s.lru, s.nextAccess, s.current;
    SoundQueue(s.Now(), {});
    c := s.Access(id, dirty);
    SoundQueue(s.Now(), {});
    StepAccessed(t, q, now, id, dirty, c, s.maxInMemory, if t[id].target.None? then Up(current) else current,
                 s.objects, s.lru, s.current);
    PinsAccessed(t, s.objects, h, id, now, dirty, c);
  }

  /** An object open for writing is in memory and dirty, and holds what the plain heap does. */
  lemma {:induction false} OpenAlive(s: SwapSpace, m: Memory, id: ObjectId)
    requires s.Valid() && Mirrors(s, m) && id in m.hands.open
    ensures id in s.objects && id in s.plain.heap && id in m.contents
    ensures s.objects[id].pincount > 0 && s.objects[id].dirty
    ensures s.objects[id].target == Some(s.plain.heap[id]) && s.plain.heap[id] == m.contents[id]
  {
    hide Sound, Tallied, Safe, Linked;
    PinAlive(s, m, id);
    SoundContent(s.Now(), {}, id);
  }

  lemma {:induction false} ContentsWritten(heap: Heap, contents: Heap, id: ObjectId, was: Content, c: Content,
                                           h: Hands, next: ObjectId)
    requires HeapMirrors(heap, contents) && Linked(contents, h.pins) && MayWrite(h, id, was, c)
    requires id in contents && Numbered(contents, next)
    ensures HeapMirrors(heap[id := c], contents[id := c]) && Linked(contents[id := c], h.pins)
    ensures Numbered(contents[id := c], next)
  {
  }

  method PerformWrite(s: SwapSpace, id: ObjectId, c: Content, ghost m: Memory, h: Hands)
    returns (reply: Reply, h': Hands)
    requires s.Valid() && Mirrors(s, m) && h == m.hands
    modifies s, s.store
    ensures s.Valid() && Mirrors(s, Next(m, Write(id, c))) && h' == Next(m, Write(id, c)).hands
    ensures reply == Answer(m, Write(id, c))
    ensures Stepped(old(s.objects), old(s.nextAccess), s.objects, s.nextAccess, None)
  {
    hide Sound, Tallied, HeapMirrors, PinsMirror, Safe, Linked, Numbered;
    reply, h' := Refused, h;
    StepStill(s.objects, s.objects, s.nextAccess);
    if id in h.open {
      OpenAlive(s, m, id);
      var was := s.objects[id].target.value;
      if MayWrite(h, id, was, c) {
        PinsWritten(s.objects, h, id, c, Exchanged(h.held, was, c));
        ContentsWritten(s.plain.heap, m.contents, id, was, c, h, m.nextId);
        ghost var t := s.objects;
        s.Mutate(id, c);
        StepStill(t, s.objects, s.nextAccess);
        reply, h' := Done, h.(held := Exchanged(h.held, was, c));
      }
    }
  }

  lemma {:induction false} PinsWritten(t: Table, h: Hands, id: ObjectId, c: Content, held: multiset<ObjectId>)
    requires PinsMirror(t, h) && id in t && t[id].target.Some?
    ensures PinsMirror(t[id := t[id].(target := Some(c))], h.(held := held))
  {
  }

  /** Copying a pointer that is inside a pinned object, or pinning what it points to. */
  method PerformFollow(s: SwapSpace, id: ObjectId, index: nat, pin: bool, ghost m: Memory, h: Hands)
    returns (reply: Reply, h': Hands)
    requires s.Valid() && Mirrors(s, m) && h == m.hands
    modifies s, s.store
    ensures var cmd := if pin then PinInside(id, index) else Follow(id, index);
            s.Valid() && Mirrors(s, Next(m, cmd)) && h' == Next(m, cmd).hands && reply == Answer(m, cmd)
    ensures Stepped(old(s.objects), old(s.nextAccess), s.objects, s.nextAccess,
                    if Pinned(h, id) then Some(id) else None)
  {
    hide Sound, Tallied, PinsMirror, Safe, Linked, HeapMirrors, Numbered, Stepped;
    reply, h' := Refused, h;
    StepStill(s.objects, s.objects, s.nextAccess);
    if Pinned(h, id) {
      var c := PerformAccess(s, id, false, m, h);
      if index < |c.refs| {
        var r := c.refs[index];
        InsideLeads(s.Now(), id, index);
        StepCounted(old(s.objects), old(s.nextAccess), s.objects, s.nextAccess, Some(id), r,
                    if pin then s.objects[r].refcount else s.objects[r].refcount + 1,
                    if pin then s.objects[r].pincount + 1 else s.objects[r].pincount);
        if pin {
          PinsPinned(s.objects, h, Pin(r, Some(id)));
          SafeInside(h.held, h.pins, r, id);
          LinkedInside(m.contents, h.pins, id, index);
          s.Pin(r);
          reply, h' := Done, h.(pins := h.pins + [Pin(r, Some(id))]);
        } else {
          PinsCopied(s.objects, h, r, s.objects[r].refcount + 1);
          MoreHeld(h.held, multiset{r}, h.pins);
          s.Copy(r);
          reply, h' := Pointer(r), h.(held := h.held + multiset{r});
        }
      }
    }
  }

  lemma {:induction false} PinsCopied(t: Table, h: Hands, id: ObjectId, refcount: nat)
    requires PinsMirror(t, h) && id in t
    ensures PinsMirror(t[id := t[id].(refcount := refcount, pincount := t[id].pincount)],
                       h.(held := h.held + multiset{id}))
  {
  }

  lemma {:induction false} PinsPinned(t: Table, h: Hands, p: Pin)
    requires PinsMirror(t, h) && p.id in t
    ensures PinsMirror(t[p.id := t[p.id].(refcount := t[p.id].refcount, pincount := t[p.id].pincount + 1)],
                       h.(pins := h.pins + [p]))
  {
    assert Ids(h.pins + [p]) == Ids(h.pins) + [p.id];
  }

  method PerformCopy(s: SwapSpace, id: ObjectId, pin: bool, ghost m: Memory, h: Hands) returns (reply: Reply, h': Hands)
    requires s.Valid() && Mirrors(s, m) && h == m.hands
    modifies s, s.store
    ensures var cmd := if pin then PinObject(id) else CopyPointer(id);
            s.Valid() && Mirrors(s, Next(m, cmd)) && h' == Next(m, cmd).hands && reply == Answer(m, cmd)
    ensures Stepped(old(s.objects), old(s.nextAccess), s.objects, s.nextAccess, None)
  {
    hide Sound, Tallied, PinsMirror, Safe, Linked, HeapMirrors, Numbered, Stepped;
    reply, h' := Refused, h;
    StepStill(s.objects, s.objects, s.nextAccess);
    if h.held[id] > 0 {
      SameKeys(s.Now(), {});
      StepCounted(s.objects, s.nextAccess, s.objects, s.nextAccess, None, id,
                  if pin then s.objects[id].refcount else s.objects[id].refcount + 1,
                  if pin then s.objects[id].pincount + 1 else s.objects[id].pincount);
      reply := Done;
      if pin {
        PinsPinned(s.objects, h, Pin(id, None));
        SafeOutside(h.held, h.pins, id);
        LinkedOutside(m.contents, h.pins, id);
        s.Pin(id);
        h' := h.(pins := h.pins + [Pin(id, None)]);
      } else {
        PinsCopied(s.objects, h, id, s.objects[id].refcount + 1);
        MoreHeld(h.held, multiset{id}, h.pins);
        s.Copy(id);
        h' := h.(held := h.held + multiset{id});
      }
    }
  }

  method PerformEvict(s: SwapSpace, size: Option<nat>, ghost m: Memory)
    requires s.Valid() && Mirrors(s, m) && (size.Some? ==> size.value > 0)
    modifies s, s.store
    ensures s.Valid() && Mirrors(s, m) && Stepped(old(s.objects), old(s.nextAccess), s.objects, s.nextAccess, None)
  {
    hide Sound, Tallied, Trimmed, AllPinned, PinsMirror, PinsKept, Safe, Linked, HeapMirrors, Numbered, Stepped;
    ghost var t, q := s.objects, s.lru;
    SameKeys(s.Now(), {});
    SoundQueue(s.Now(), {});
    if size.Some? {
      s.SetCacheSize(size.value);
    } else {
      s.EvictAll();
    }
    TrimmedPins(t, q, s.objects, s.lru);
    PinsTrimmed(t, s.objects, m.hands);
    SoundQueue(s.Now(), {});
    StepTrimmed(t, s.nextAccess, t, q, s.objects, s.lru, s.nextAccess, None);
  }

  lemma {:induction false} PinsTrimmed(t: Table, t': Table, h: Hands)
    requires PinsMirror(t, h) && PinsKept(t, t') && t'.Keys == t.Keys
    ensures PinsMirror(t', h)
  {
    forall o | o in h.open ensures t'[o].target.Some? && t'[o].dirty {
      assert o in multiset(Ids(h.pins));
    }
  }

  method Perform(s: SwapSpace, cmd: Command, ghost m: Memory, h: Hands) returns (reply: Reply, h': Hands)
    requires s.Valid() && Mirrors(s, m) && h == m.hands
    modifies s, s.store
    ensures s.Valid() && Mirrors(s, Next(m, cmd)) && h' == Next(m, cmd).hands
    ensures reply == Answer(m, cmd)
    ensures Stepped(old(s.objects), old(s.nextAccess), s.objects, s.nextAccess, Uses(m, cmd))
  {
    hide Sound, Tallied, Mirrors, Stepped;
    reply, h' := Refused, h;
    StepStill(s.objects, s.objects, s.nextAccess);
    match cmd
    case New(d) =>
      reply, h' := PerformNew(s, d, m, h);
    case CopyPointer(id) =>
      reply, h' := PerformCopy(s, id, false, m, h);
    case DropPointer(id) =>
      reply, h' := PerformDrop(s, id, m, h);
    case AssignPointer(dst, src) =>
      reply, h' := PerformAssign(s, dst, src, m, h);
    case PinObject(id) =>
      reply, h' := PerformCopy(s, id, true, m, h);
    case PinInside(p, i) =>
      reply, h' := PerformFollow(s, p, i, true, m, h);
    case UnpinObject(id) =>
      reply, h' := PerformUnpin(s, id, m, h);
    case Look(id) =>
      if Pinned(h, id) {
        var c := PerformAccess(s, id, false, m, h);
        reply := Data(c);
      }
    case Open(id) =>
      if Pinned(h, id) {
        var c := PerformAccess(s, id, true, m, h);
        reply, h' := Data(c), h.(open := h.open + {id});
      }
    case Write(id, c) =>
      reply, h' := PerformWrite(s, id, c, m, h);
    case Follow(id, i) =>
      reply, h' := PerformFollow(s, id, i, false, m, h);
    case EvictEverything =>
      PerformEvict(s, None, m);
      reply := Done;
    case Resize(n) =>
      if n > 0 {
        PerformEvict(s, Some(n), m);
        reply := Done;
      }
  }

  /** The next command of a run.  Objects stay in the order of their last use in the run, and
      what leaves memory is what was used least recently. */
  method PerformNext(s: SwapSpace, cmd: Command, ghost past: seq<Command>, h: Hands) returns (reply: Reply, h': Hands)
    requires s.Valid() && Mirrors(s, After(past)) && h == After(past).hands && Timeline(s.objects, past)
    modifies s, s.store
    ensures s.Valid() && Mirrors(s, After(past + [cmd])) && h' == After(past + [cmd]).hands
    ensures reply == Answer(After(past), cmd)
    ensures Timeline(s.objects, past + [cmd]) && VictimsFirst(old(s.objects), s.objects, past, cmd)
  {
    hide Sound, Tallied, Next, Answer, Timeline, VictimsFirst, Stepped, Uses, Queued;
    ghost var t, now := s.objects, s.nextAccess;
    SoundQueue(s.Now(), {});
    QueueClock(s.objects, s.lru, s.nextAccess);
    assert (past + [cmd])[..|past|] == past;
    reply, h' := Perform(s, cmd, After(past), h);
    TimelineNext(t, now, s.objects, s.nextAccess, past, cmd);
    VictimsNext(t, now, s.objects, s.nextAccess, past, cmd);
  }

  lemma {:induction false} QueueClock(t: Table, q: seq<ObjectId>, now: nat)
    requires Queued(t, q, now)
    ensures Clocked(t, now)
  {
  }

  /** A whole run, and the swap space it leaves. */
  method RunAll(cmds: seq<Command>, cacheSize: nat) returns (replies: seq<Reply>, s: SwapSpace)
    ensures replies == Answers(cmds)
    ensures fresh(s) && s.Valid() && Mirrors(s, After(cmds)) && Timeline(s.objects, cmds)
  {
    hide Sound, Tallied, Next, Answer, Timeline;
    var store := new BackingStore();
    s := new SwapSpace(store, cacheSize);
    var h := Hands(multiset{}, [], {});
    replies := [];
    var i := 0;
    assert cmds[..0] == [];
    SameKeys(s.Now(), {});
    NoTime(s.objects);
    while i < |cmds|
      invariant i <= |cmds| && fresh(s) && fresh(s.store) && s.Valid()
      invariant Mirrors(s, After(cmds[..i])) && h == After(cmds[..i]).hands && Timeline(s.objects, cmds[..i])
      invariant replies == Answers(cmds[..i])
    {
      var reply;
      assert cmds[..i + 1] == cmds[..i] + [cmds[i]];
      reply, h := PerformNext(s, cmds[i], cmds[..i], h);
      replies := replies + [reply];
      assert cmds[..i + 1][..i] == cmds[..i];
      i := i + 1;
    }
    assert cmds[..i] == cmds;
  }

  lemma {:induction false} NoTime(t: Table)
    requires t == map[]
    ensures Timeline(t, [])
  {
  }

  /** Whatever the cache size and wherever evictions fall, the replies are those of the
      plain heap, and they are right. */
  method Run(cmds: seq<Command>, cacheSize: nat) returns (replies: seq<Reply>)
    ensures replies == Answers(cmds) && AllRight(cmds, replies)
  {
    hide Answers, AllRight;
    var s;
    replies, s := RunAll(cmds, cacheSize);
    AnswersRight(cmds);
  }
}
