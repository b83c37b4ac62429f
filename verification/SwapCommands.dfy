/** What a program does with a swap space, and what a heap that neither evicts nor frees
    anything replies to it. */
module SwapCommands {
  import opened Base
  import opened SwapStates

  datatype Command =
    | New(data: int)
    | CopyPointer(id: ObjectId)
    | DropPointer(id: ObjectId)
    | AssignPointer(dst: ObjectId, src: ObjectId)
    | PinObject(id: ObjectId)
    | PinInside(parent: ObjectId, index: nat)
    | UnpinObject(id: ObjectId)
    | Look(id: ObjectId)
    | Open(id: ObjectId)
    | Write(id: ObjectId, content: Content)
    | Follow(id: ObjectId, index: nat)
    | EvictEverything
    | Resize(size: nat)

  datatype Reply = Done | Refused | Pointer(id: ObjectId) | Data(content: Content)

  /** A pin on an object, made from a pointer the program holds itself or from a pointer
      inside an object it has pinned. */
  datatype Pin = Pin(id: ObjectId, via: Option<ObjectId>)

  /** What the program has in hand: pointers, pins in the order they were made, and the
      objects it got a non-const reference to under a pin it still has. */
  datatype Hands = Hands(held: multiset<ObjectId>, pins: seq<Pin>, open: set<ObjectId>)

  /** The plain heap: contents are never moved and never freed. */
  datatype Memory = Memory(contents: Heap, hands: Hands, nextId: ObjectId)

  function Ids(pins: seq<Pin>): (ids: seq<ObjectId>)
    ensures |ids| == |pins| && forall k :: 0 <= k < |pins| ==> ids[k] == pins[k].id
  {
    seq(|pins|, k requires 0 <= k < |pins| => pins[k].id)
  }

  /** A pin lasts no longer than what it was made from: a pointer in hand, or an earlier pin
      on the object with the pointer in it. */
  predicate Safe(held: multiset<ObjectId>, pins: seq<Pin>) {
    forall k :: 0 <= k < |pins| ==>
      if pins[k].via.None? then held[pins[k].id] > 0 else pins[k].via.value in Ids(pins[..k])
  }

  /** The pins without the last one on `id`. */
  function Unpinned(pins: seq<Pin>, id: ObjectId): seq<Pin> {
    if pins == [] then []
    else if pins[|pins| - 1].id == id then pins[..|pins| - 1]
    else Unpinned(pins[..|pins| - 1], id) + [pins[|pins| - 1]]
  }

  function HandsUnpinned(h: Hands, id: ObjectId): Hands {
    var pins := Unpinned(h.pins, id);
    h.(pins := pins, open := if id in Ids(pins) then h.open else h.open - {id})
  }

  predicate Pinned(h: Hands, id: ObjectId) {
    id in Ids(h.pins)
  }

  predicate MayUnpin(h: Hands, id: ObjectId) {
    Pinned(h, id) && Safe(h.held, Unpinned(h.pins, id))
  }

  /** The pointers in hand once `was` was overwritten with `now`. */
  function Exchanged(held: multiset<ObjectId>, was: Content, now: Content): multiset<ObjectId> {
    held + multiset(was.refs) - multiset(now.refs)
  }

  /** Only pointers the program has, in hand or in the object, can be written to the object
      `id`, and none that a pin was made from can be taken out. */
  predicate MayWrite(h: Hands, id: ObjectId, was: Content, now: Content) {
    && multiset(now.refs) <= h.held + multiset(was.refs) && Safe(Exchanged(h.held, was, now), h.pins)
    && forall k :: 0 <= k < |h.pins| && h.pins[k].via == Some(id) ==> h.pins[k].id in now.refs
  }

  predicate MayDrop(h: Hands, id: ObjectId) {
    h.held[id] > 0 && Safe(h.held - multiset{id}, h.pins)
  }

  predicate MayAssign(h: Hands, dst: ObjectId, src: ObjectId) {
    MayDrop(h, dst) && (h.held - multiset{dst})[src] > 0
  }

  function Next(m: Memory, cmd: Command): Memory {
    var h := m.hands;
    match cmd
    case New(d) =>
      var id := m.nextId + 1;
      Memory(m.contents[id := Content(d, [])], h.(held := h.held + multiset{id}), id + 1)
    case CopyPointer(id) =>
      if h.held[id] > 0 then m.(hands := h.(held := h.held + multiset{id})) else m
    case DropPointer(id) =>
      if MayDrop(h, id) then m.(hands := h.(held := h.held - multiset{id})) else m
    case AssignPointer(dst, src) =>
      if MayAssign(h, dst, src) then m.(hands := h.(held := h.held - multiset{dst} + multiset{src})) else m
    case PinObject(id) =>
      if h.held[id] > 0 then m.(hands := h.(pins := h.pins + [Pin(id, None)])) else m
    case PinInside(p, i) =>
      if Pinned(h, p) && p in m.contents && i < |m.contents[p].refs|
      then m.(hands := h.(pins := h.pins + [Pin(m.contents[p].refs[i], Some(p))])) else m
    case UnpinObject(id) =>
      if MayUnpin(h, id) then m.(hands := HandsUnpinned(h, id)) else m
    case Open(id) =>
      if Pinned(h, id) then m.(hands := h.(open := h.open + {id})) else m
    case Write(id, c) =>
      if id in h.open && id in m.contents && MayWrite(h, id, m.contents[id], c)
      then m.(contents := m.contents[id := c], hands := h.(held := Exchanged(h.held, m.contents[id], c))) else m
    case Follow(id, i) =>
      if Pinned(h, id) && id in m.contents && i < |m.contents[id].refs|
      then m.(hands := h.(held := h.held + multiset{m.contents[id].refs[i]})) else m
    case _ => m
  }

  function Answer(m: Memory, cmd: Command): Reply {
    var h := m.hands;
    match cmd
    case New(_) => Pointer(m.nextId + 1)
    case CopyPointer(id) => if h.held[id] > 0 then Done else Refused
    case DropPointer(id) => if MayDrop(h, id) then Done else Refused
    case AssignPointer(dst, src) => if MayAssign(h, dst, src) then Done else Refused
    case PinObject(id) => if h.held[id] > 0 then Done else Refused
    case PinInside(p, i) => if Pinned(h, p) && p in m.contents && i < |m.contents[p].refs| then Done else Refused
    case UnpinObject(id) => if MayUnpin(h, id) then Done else Refused
    case Look(id) => if Pinned(h, id) && id in m.contents then Data(m.contents[id]) else Refused
    case Open(id) => if Pinned(h, id) && id in m.contents then Data(m.contents[id]) else Refused
    case Write(id, c) =>
      if id in h.open && id in m.contents && MayWrite(h, id, m.contents[id], c) then Done else Refused
    case Follow(id, i) =>
      if Pinned(h, id) && id in m.contents && i < |m.contents[id].refs|
      then Pointer(m.contents[id].refs[i]) else Refused
    case EvictEverything => Done
    case Resize(n) => if n > 0 then Done else Refused
  }

  function After(cmds: seq<Command>): Memory {
    if cmds == [] then Memory(map[], Hands(multiset{}, [], {}), 1)
    else Next(After(cmds[..|cmds| - 1]), cmds[|cmds| - 1])
  }

  function Answers(cmds: seq<Command>): seq<Reply> {
    if cmds == [] then []
    else
      var r := cmds[..|cmds| - 1];
      Answers(r) + [Answer(After(r), cmds[|cmds| - 1])]
  }

  /** The object a command accesses: makes, or reads through a pin. */
  function Uses(m: Memory, cmd: Command): Option<ObjectId> {
    match cmd
    case New(_) => Some(m.nextId + 1)
    case Look(id) => if Pinned(m.hands, id) then Some(id) else None
    case Open(id) => if Pinned(m.hands, id) then Some(id) else None
    case PinInside(p, _) => if Pinned(m.hands, p) then Some(p) else None
    case Follow(id, _) => if Pinned(m.hands, id) then Some(id) else None
    case _ => None
  }

  /** The number of the last command that accessed `x`, or -1. */
  function LastUse(cmds: seq<Command>, x: ObjectId): int {
    if cmds == [] then -1
    else
      var n := |cmds| - 1;
      if Uses(After(cmds[..n]), cmds[n]) == Some(x) then n else LastUse(cmds[..n], x)
  }

  lemma {:induction false} LastUseMore(cmds: seq<Command>, cmd: Command, x: ObjectId)
    ensures LastUse(cmds + [cmd], x) == if Uses(After(cmds), cmd) == Some(x) then |cmds| else LastUse(cmds, x)
  {
    assert (cmds + [cmd])[..|cmds|] == cmds;
  }

  lemma {:induction false} LastUseBelow(cmds: seq<Command>, x: ObjectId)
    ensures LastUse(cmds, x) < |cmds|
  {
    if cmds != [] {
      LastUseBelow(cmds[..|cmds| - 1], x);
    }
  }

  // ---------- Pins and what they were made from ----------

  /** The pointers pins were made from are where they were. */
  ghost predicate Linked(contents: Heap, pins: seq<Pin>) {
    forall k :: 0 <= k < |pins| && pins[k].via.Some?
      ==> pins[k].via.value in contents && pins[k].id in contents[pins[k].via.value].refs
  }

  ghost predicate Numbered(contents: Heap, next: ObjectId) {
    forall o :: o in contents ==> o < next
  }

  lemma {:induction false} UnpinnedCount(pins: seq<Pin>, id: ObjectId)
    requires id in Ids(pins)
    ensures multiset(Ids(Unpinned(pins, id))) == multiset(Ids(pins)) - multiset{id}
  {
    var r, p := pins[..|pins| - 1], pins[|pins| - 1];
    assert Ids(pins) == Ids(r) + [p.id];
    if p.id != id {
      UnpinnedCount(r, id);
      assert Ids(Unpinned(r, id) + [p]) == Ids(Unpinned(r, id)) + [p.id];
    }
  }

  lemma {:induction false} UnpinnedLinked(contents: Heap, pins: seq<Pin>, id: ObjectId)
    requires Linked(contents, pins)
    ensures Linked(contents, Unpinned(pins, id))
  {
    if pins != [] {
      UnpinnedLinked(contents, pins[..|pins| - 1], id);
    }
  }

  lemma {:induction false} MoreHeld(held: multiset<ObjectId>, more: multiset<ObjectId>, pins: seq<Pin>)
    requires Safe(held, pins)
    ensures Safe(held + more, pins)
  {
  }

  lemma {:induction false} NumberedMore(contents: Heap, next: ObjectId, next': ObjectId)
    requires Numbered(contents, next) && next <= next'
    ensures Numbered(contents, next')
  {
  }

  lemma {:induction false} SafeInside(held: multiset<ObjectId>, pins: seq<Pin>, r: ObjectId, id: ObjectId)
    requires Safe(held, pins) && id in Ids(pins)
    ensures Safe(held, pins + [Pin(r, Some(id))])
  {
    var pins' := pins + [Pin(r, Some(id))];
    assert pins'[..|pins|] == pins;
    assert forall k :: 0 <= k < |pins| ==> pins'[..k] == pins[..k];
  }

  lemma {:induction false} SafeOutside(held: multiset<ObjectId>, pins: seq<Pin>, id: ObjectId)
    requires Safe(held, pins) && held[id] > 0
    ensures Safe(held, pins + [Pin(id, None)])
  {
    var pins' := pins + [Pin(id, None)];
    assert forall k :: 0 <= k < |pins| ==> pins'[..k] == pins[..k];
  }

  lemma {:induction false} LinkedInside(contents: Heap, pins: seq<Pin>, id: ObjectId, index: nat)
    requires Linked(contents, pins) && id in contents && index < |contents[id].refs|
    ensures Linked(contents, pins + [Pin(contents[id].refs[index], Some(id))])
  {
  }

  lemma {:induction false} LinkedOutside(contents: Heap, pins: seq<Pin>, id: ObjectId)
    requires Linked(contents, pins)
    ensures Linked(contents, pins + [Pin(id, None)])
  {
  }
}
