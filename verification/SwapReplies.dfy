/** What the replies of the plain heap have to do with each other: what is read is what was
    written last, and pointers and pins are counted by what was done with them. Said of
    commands and replies alone, object by object. */
module SwapReplies {
  import opened Base
  import opened SwapStates
  import opened SwapCommands

  // ---------- What a program can tell from its commands and the replies ----------

  /** The content the command gave to object `x`. */
  function Given(cmd: Command, reply: Reply, x: ObjectId): Option<Content> {
    match cmd
    case New(d) => if reply == Pointer(x) then Some(Content(d, [])) else None
    case Write(id, c) => if id == x && reply == Done then Some(c) else None
    case _ => None
  }

  /** The content given to `x` last. */
  function Latest(cmds: seq<Command>, replies: seq<Reply>, x: ObjectId): Option<Content>
    requires |cmds| == |replies|
  {
    if cmds == [] then None
    else
      var n := |cmds| - 1;
      var c := Given(cmds[n], replies[n], x);
      if c.Some? then c else Latest(cmds[..n], replies[..n], x)
  }

  /** How many of the pointers in a content point to `x`. */
  function Points(c: Option<Content>, x: ObjectId): nat {
    if c.None? then 0 else multiset(c.value.refs)[x]
  }

  function One(b: bool): int {
    if b then 1 else 0
  }

  /** How many pointers to `x` the command put into the program's hands, less those it took
      out, when it was carried out; `was` is the content of a written object before. */
  function HandChange(cmd: Command, reply: Reply, was: Option<Content>, x: ObjectId): int {
    if reply == Refused then 0 else
    match cmd
    case New(_) => One(reply == Pointer(x))
    case CopyPointer(id) => One(id == x)
    case DropPointer(id) => -One(id == x)
    case AssignPointer(dst, src) => One(src == x) - One(dst == x)
    case Follow(_, _) => One(reply == Pointer(x))
    case Write(_, c) => Points(was, x) - Points(Some(c), x)
    case _ => 0
  }

  /** The object a command names, for commands that read or write inside an object. */
  function Inside(cmd: Command): ObjectId {
    match cmd
    case Write(id, _) => id
    case PinInside(p, _) => p
    case Follow(id, _) => id
    case _ => 0
  }

  /** How many pointers to `x` the program has in hand. */
  function InHand(cmds: seq<Command>, replies: seq<Reply>, x: ObjectId): int
    requires |cmds| == |replies|
  {
    if cmds == [] then 0
    else
      var n := |cmds| - 1;
      InHand(cmds[..n], replies[..n], x) +
      HandChange(cmds[n], replies[n], Latest(cmds[..n], replies[..n], Inside(cmds[n])), x)
  }

  function PinChange(cmd: Command, reply: Reply, was: Option<Content>, x: ObjectId): int {
    if reply == Refused then 0 else
    match cmd
    case PinObject(id) => One(id == x)
    case PinInside(_, i) => One(was.Some? && i < |was.value.refs| && was.value.refs[i] == x)
    case UnpinObject(id) => -One(id == x)
    case _ => 0
  }

  /** How many pins the program has on `x`. */
  function PinCount(cmds: seq<Command>, replies: seq<Reply>, x: ObjectId): int
    requires |cmds| == |replies|
  {
    if cmds == [] then 0
    else
      var n := |cmds| - 1;
      PinCount(cmds[..n], replies[..n], x) +
      PinChange(cmds[n], replies[n], Latest(cmds[..n], replies[..n], Inside(cmds[n])), x)
  }

  /** Whether the program has a non-const reference to `x` under a pin it still has. */
  function IsOpen(cmds: seq<Command>, replies: seq<Reply>, x: ObjectId): bool
    requires |cmds| == |replies|
  {
    cmds != [] &&
    var n := |cmds| - 1;
    PinCount(cmds, replies, x) > 0 &&
    ((cmds[n] == Open(x) && replies[n] != Refused) || IsOpen(cmds[..n], replies[..n], x))
  }

  /** Pins were made from pointers in hand only. */
  ghost predicate NothingInside(cmds: seq<Command>, replies: seq<Reply>)
    requires |cmds| == |replies|
  {
    forall n :: 0 <= n < |cmds| && cmds[n].PinInside? ==> replies[n] == Refused
  }

  /** Whether a reply is right, given the commands and replies before.  Three kinds of
      command may be refused for the sake of a pin; where no pin can stand in the way they
      are not. */
  ghost predicate Right(cmds: seq<Command>, replies: seq<Reply>, cmd: Command, reply: Reply)
    requires |cmds| == |replies|
  {
    match cmd
    case New(_) =>
      reply.Pointer? && reply.id > 0 && Latest(cmds, replies, reply.id) == None && InHand(cmds, replies, reply.id) == 0
    case CopyPointer(id) => reply == if InHand(cmds, replies, id) > 0 then Done else Refused
    case DropPointer(id) =>
      var n := InHand(cmds, replies, id);
      (reply == Done || reply == Refused) && (reply == Done ==> n > 0) &&
      (n > 1 || (n > 0 && PinCount(cmds, replies, id) == 0) ==> reply == Done)
    case AssignPointer(dst, src) =>
      var n := InHand(cmds, replies, dst);
      var two := n > 0 && InHand(cmds, replies, src) > One(dst == src);
      (reply == Done || reply == Refused) && (reply == Done ==> two) &&
      (two && (n > 1 || PinCount(cmds, replies, dst) == 0) ==> reply == Done)
    case PinObject(id) => reply == if InHand(cmds, replies, id) > 0 then Done else Refused
    case PinInside(p, i) =>
      var c := Latest(cmds, replies, p);
      reply == if PinCount(cmds, replies, p) > 0 && c.Some? && i < |c.value.refs| then Done else Refused
    case UnpinObject(id) =>
      var n := PinCount(cmds, replies, id);
      (reply == Done || reply == Refused) && (reply == Done ==> n > 0) &&
      (n > 0 && NothingInside(cmds, replies) ==> reply == Done)
    case Look(id) => ReadsLatest(cmds, replies, id, reply)
    case Open(id) => ReadsLatest(cmds, replies, id, reply)
    case Write(id, c) =>
      var was := Latest(cmds, replies, id);
      (reply == Done || reply == Refused) &&
      (reply == Done ==> IsOpen(cmds, replies, id) && was.Some? &&
                         forall x: ObjectId :: Points(Some(c), x) <= InHand(cmds, replies, x) + Points(was, x)) &&
      (IsOpen(cmds, replies, id) && was.Some? && c.refs == was.value.refs ==> reply == Done)
    case Follow(id, i) =>
      var c := Latest(cmds, replies, id);
      reply == if PinCount(cmds, replies, id) > 0 && c.Some? && i < |c.value.refs| then Pointer(c.value.refs[i])
               else Refused
    case EvictEverything => reply == Done
    case Resize(n) => reply == if n > 0 then Done else Refused
  }

  /** Under a pin, what is read is what the object was given last. */
  ghost predicate ReadsLatest(cmds: seq<Command>, replies: seq<Reply>, id: ObjectId, reply: Reply)
    requires |cmds| == |replies|
  {
    if PinCount(cmds, replies, id) > 0
    then Latest(cmds, replies, id).Some? && reply == Data(Latest(cmds, replies, id).value)
    else reply == Refused
  }

  ghost predicate AllRight(cmds: seq<Command>, replies: seq<Reply>) {
    |cmds| == |replies| && forall n :: 0 <= n < |cmds| ==> Right(cmds[..n], replies[..n], cmds[n], replies[n])
  }

  // ---------- The plain heap keeps count ----------

  ghost predicate HeldThere(held: multiset<ObjectId>, contents: Heap) {
    forall x :: held[x] > 0 ==> x in contents
  }

  ghost predicate RefsThere(contents: Heap) {
    forall o, r :: o in contents && r in contents[o].refs ==> r in contents
  }

  ghost predicate PinsThere(pins: seq<Pin>, contents: Heap) {
    forall k :: 0 <= k < |pins| ==> pins[k].id in contents
  }

  ghost predicate OpenPinned(h: Hands) {
    forall o :: o in h.open ==> Pinned(h, o)
  }

  /** Nothing points nowhere, pins are on objects, and what is open is pinned. */
  ghost predicate Closed(m: Memory) {
    && HeldThere(m.hands.held, m.contents) && RefsThere(m.contents) && PinsThere(m.hands.pins, m.contents)
    && OpenPinned(m.hands)
  }

  ghost predicate Sane(m: Memory) {
    && Safe(m.hands.held, m.hands.pins) && Linked(m.contents, m.hands.pins) && Numbered(m.contents, m.nextId)
    && Closed(m)
  }

  function ContentOf(contents: Heap, x: ObjectId): Option<Content> {
    if x in contents then Some(contents[x]) else None
  }

  /** The plain heap is what the replies tell. */
  ghost predicate Told(m: Memory, cmds: seq<Command>, replies: seq<Reply>)
    requires |cmds| == |replies|
  {
    && (forall x :: Latest(cmds, replies, x) == ContentOf(m.contents, x))
    && (forall x: ObjectId :: InHand(cmds, replies, x) == m.hands.held[x])
    && (forall x: ObjectId :: PinCount(cmds, replies, x) == multiset(Ids(m.hands.pins))[x])
    && (forall x :: IsOpen(cmds, replies, x) <==> x in m.hands.open)
    && (NothingInside(cmds, replies) ==> forall k :: 0 <= k < |m.hands.pins| ==> m.hands.pins[k].via.None?)
  }

  lemma {:induction false} OneMore(cmds: seq<Command>, replies: seq<Reply>, cmd: Command, reply: Reply, x: ObjectId)
    requires |cmds| == |replies|
    ensures var cmds', replies', c := cmds + [cmd], replies + [reply], Given(cmd, reply, x);
            var was := Latest(cmds, replies, Inside(cmd));
            && Latest(cmds', replies', x) == (if c.Some? then c else Latest(cmds, replies, x))
            && InHand(cmds', replies', x) == InHand(cmds, replies, x) + HandChange(cmd, reply, was, x)
            && PinCount(cmds', replies', x) == PinCount(cmds, replies, x) + PinChange(cmd, reply, was, x)
            && (IsOpen(cmds', replies', x)
                <==> PinCount(cmds', replies', x) > 0
                     && ((cmd == Open(x) && reply != Refused) || IsOpen(cmds, replies, x)))
  {
    var cmds', replies' := cmds + [cmd], replies + [reply];
    assert cmds'[..|cmds|] == cmds && replies'[..|cmds|] == replies;
    assert cmds'[|cmds|] == cmd && replies'[|cmds|] == reply;
    hide Given, HandChange, PinChange;
  }

  lemma {:induction false} LatestNext(m: Memory, cmds: seq<Command>, replies: seq<Reply>, cmd: Command, x: ObjectId)
    requires |cmds| == |replies| && Told(m, cmds, replies)
    ensures Latest(cmds + [cmd], replies + [Answer(m, cmd)], x) == ContentOf(Next(m, cmd).contents, x)
  {
    hide InHand, PinCount, IsOpen, Latest, MayWrite, MayDrop, MayAssign, MayUnpin, Pinned;
    OneMore(cmds, replies, cmd, Answer(m, cmd), x);
  }

  /** What the plain heap does to the pointers in hand is what the reply tells. */
  lemma {:induction false} HandsMove(m: Memory, cmd: Command, x: ObjectId)
    ensures Next(m, cmd).hands.held[x]
         == m.hands.held[x] + HandChange(cmd, Answer(m, cmd), ContentOf(m.contents, Inside(cmd)), x)
  {
    hide MayUnpin, Pinned, Safe;
    if cmd.Write? {
      HandsWrite(m, cmd.id, cmd.content, x);
    } else if cmd.AssignPointer? {
      HandsAssign(m, cmd.dst, cmd.src, x);
    } else {
      hide MayWrite, MayAssign, ContentOf, Exchanged;
    }
  }

  lemma {:induction false} HandsWrite(m: Memory, id: ObjectId, c: Content, x: ObjectId)
    ensures var cmd := Write(id, c);
            Next(m, cmd).hands.held[x]
            == m.hands.held[x] + HandChange(cmd, Answer(m, cmd), ContentOf(m.contents, id), x)
  {
    hide Safe;
  }

  lemma {:induction false} HandsAssign(m: Memory, dst: ObjectId, src: ObjectId, x: ObjectId)
    ensures var cmd := AssignPointer(dst, src);
            Next(m, cmd).hands.held[x] == m.hands.held[x] + HandChange(cmd, Answer(m, cmd), None, x)
  {
    hide Safe;
  }

  lemma {:induction false} HandNext(m: Memory, cmds: seq<Command>, replies: seq<Reply>, cmd: Command, x: ObjectId)
    requires |cmds| == |replies| && Told(m, cmds, replies)
    ensures InHand(cmds + [cmd], replies + [Answer(m, cmd)], x) == Next(m, cmd).hands.held[x]
  {
    hide InHand, PinCount, IsOpen, Latest, Next, Answer, HandChange, Inside;
    OneMore(cmds, replies, cmd, Answer(m, cmd), x);
    HandsMove(m, cmd, x);
  }

  lemma {:induction false} PinsMove(m: Memory, cmd: Command, x: ObjectId)
    ensures multiset(Ids(Next(m, cmd).hands.pins))[x]
         == multiset(Ids(m.hands.pins))[x] + PinChange(cmd, Answer(m, cmd), ContentOf(m.contents, Inside(cmd)), x)
  {
    hide MayWrite, MayDrop, MayAssign, Safe, Unpinned, Ids, Exchanged;
    var h := m.hands;
    if cmd.PinObject? {
      IdsMore(h.pins, Pin(cmd.id, None));
    } else if cmd.PinInside? {
      PinsInside(m, cmd.parent, cmd.index, x);
    } else if cmd.UnpinObject? {
      PinsFewer(m, cmd.id, x);
    } else {
      assert Next(m, cmd).hands.pins == h.pins;
    }
  }

  lemma {:induction false} PinsInside(m: Memory, p: ObjectId, i: nat, x: ObjectId)
    ensures var cmd := PinInside(p, i);
            multiset(Ids(Next(m, cmd).hands.pins))[x]
            == multiset(Ids(m.hands.pins))[x] + PinChange(cmd, Answer(m, cmd), ContentOf(m.contents, p), x)
  {
    hide Ids;
    if Answer(m, PinInside(p, i)) == Done {
      IdsMore(m.hands.pins, Pin(m.contents[p].refs[i], Some(p)));
    }
  }

  lemma {:induction false} PinsFewer(m: Memory, id: ObjectId, x: ObjectId)
    ensures var cmd := UnpinObject(id);
            multiset(Ids(Next(m, cmd).hands.pins))[x]
            == multiset(Ids(m.hands.pins))[x] + PinChange(cmd, Answer(m, cmd), None, x)
  {
    hide Ids, Safe, Unpinned;
    var h := m.hands;
    if MayUnpin(h, id) {
      UnpinnedCount(h.pins, id);
      assert id in multiset(Ids(h.pins));
    }
  }

  lemma {:induction false} PinsNext(m: Memory, cmds: seq<Command>, replies: seq<Reply>, cmd: Command, x: ObjectId)
    requires |cmds| == |replies| && Told(m, cmds, replies)
    ensures PinCount(cmds + [cmd], replies + [Answer(m, cmd)], x) == multiset(Ids(Next(m, cmd).hands.pins))[x]
  {
    hide InHand, PinCount, IsOpen, Latest, Next, Answer, PinChange, Inside, Ids;
    OneMore(cmds, replies, cmd, Answer(m, cmd), x);
    PinsMove(m, cmd, x);
  }

  lemma {:induction false} IdsMore(pins: seq<Pin>, p: Pin)
    ensures Ids(pins + [p]) == Ids(pins) + [p.id]
  {
  }

  /** Only unpinning takes a pin away, and a reference goes with the last pin. */
  lemma {:induction false} OpenAfter(m: Memory, cmd: Command, x: ObjectId)
    requires Closed(m)
    ensures var h' := Next(m, cmd).hands;
            x in h'.open <==> Pinned(h', x) && ((cmd == Open(x) && Answer(m, cmd) != Refused) || x in m.hands.open)
  {
    hide MayWrite, MayDrop, MayAssign, MayUnpin, Safe, Unpinned, HeldThere, RefsThere, PinsThere, Ids;
    var h := m.hands;
    match cmd
    case PinObject(id) =>
      IdsMore(h.pins, Pin(id, None));
    case PinInside(p, i) =>
      if Answer(m, cmd) == Done {
        IdsMore(h.pins, Pin(m.contents[p].refs[i], Some(p)));
      }
    case UnpinObject(id) =>
      UnpinnedAmong(h.pins, id);
    case Open(id) =>
      if Pinned(h, id) {
        PinnedThere(m, id);
      }
    case _ =>
  }

  lemma {:induction false} OpenNext(m: Memory, cmds: seq<Command>, replies: seq<Reply>, cmd: Command, x: ObjectId)
    requires |cmds| == |replies| && Told(m, cmds, replies) && Sane(m)
    ensures IsOpen(cmds + [cmd], replies + [Answer(m, cmd)], x) <==> x in Next(m, cmd).hands.open
  {
    hide InHand, PinCount, IsOpen, Latest, Next, Answer, Safe, Linked, Numbered, Closed;
    OneMore(cmds, replies, cmd, Answer(m, cmd), x);
    PinsNext(m, cmds, replies, cmd, x);
    OpenAfter(m, cmd, x);
    var h' := Next(m, cmd).hands;
    assert x in Ids(h'.pins) <==> x in multiset(Ids(h'.pins));
  }

  lemma {:induction false} PinnedThere(m: Memory, id: ObjectId)
    requires Closed(m) && Pinned(m.hands, id)
    ensures id in m.contents
  {
    var k :| 0 <= k < |m.hands.pins| && Ids(m.hands.pins)[k] == id;
  }

  lemma {:induction false} InsideNext(m: Memory, cmds: seq<Command>, replies: seq<Reply>, cmd: Command)
    requires |cmds| == |replies| && Told(m, cmds, replies) && NothingInside(cmds + [cmd], replies + [Answer(m, cmd)])
    ensures var pins := Next(m, cmd).hands.pins; forall k :: 0 <= k < |pins| ==> pins[k].via.None?
  {
    hide InHand, PinCount, IsOpen, Latest, MayWrite, MayDrop, MayAssign, MayUnpin, Safe, Unpinned, Pinned;
    var cmds', replies' := cmds + [cmd], replies + [Answer(m, cmd)];
    assert cmds'[|cmds|] == cmd && replies'[|cmds|] == Answer(m, cmd);
    assert NothingInside(cmds, replies) by {
      assert forall n :: 0 <= n < |cmds| ==> cmds'[n] == cmds[n] && replies'[n] == replies[n];
    }
    if cmd.UnpinObject? {
      UnpinnedOutside(m.hands.pins, cmd.id);
    }
  }

  lemma {:induction false} UnpinnedOutside(pins: seq<Pin>, id: ObjectId)
    requires forall k :: 0 <= k < |pins| ==> pins[k].via.None?
    ensures forall k :: 0 <= k < |Unpinned(pins, id)| ==> Unpinned(pins, id)[k].via.None?
  {
    if pins != [] {
      UnpinnedOutside(pins[..|pins| - 1], id);
    }
  }

  lemma {:induction false} ToldNext(m: Memory, cmds: seq<Command>, replies: seq<Reply>, cmd: Command)
    requires |cmds| == |replies| && Told(m, cmds, replies) && Sane(m)
    ensures Told(Next(m, cmd), cmds + [cmd], replies + [Answer(m, cmd)])
  {
    hide InHand, PinCount, IsOpen, Latest, NothingInside, Next, Answer, Sane;
    var m', cmds', replies' := Next(m, cmd), cmds + [cmd], replies + [Answer(m, cmd)];
    forall x ensures Latest(cmds', replies', x) == ContentOf(m'.contents, x) {
      LatestNext(m, cmds, replies, cmd, x);
    }
    forall x: ObjectId ensures InHand(cmds', replies', x) == m'.hands.held[x] {
      HandNext(m, cmds, replies, cmd, x);
    }
    forall x: ObjectId ensures PinCount(cmds', replies', x) == multiset(Ids(m'.hands.pins))[x] {
      PinsNext(m, cmds, replies, cmd, x);
    }
    forall x ensures IsOpen(cmds', replies', x) <==> x in m'.hands.open {
      OpenNext(m, cmds, replies, cmd, x);
    }
    if NothingInside(cmds + [cmd], replies + [Answer(m, cmd)]) {
      InsideNext(m, cmds, replies, cmd);
    }
  }

  // ---------- The plain heap stays in order ----------

  lemma {:induction false} ClosedNext(m: Memory, cmd: Command)
    requires Closed(m)
    ensures Closed(Next(m, cmd))
  {
    var m' := Next(m, cmd);
    HeldNext(m, cmd);
    PinsThereNext(m, cmd);
    hide HeldThere, RefsThere, PinsThere, Next, Answer;
    forall x | x in m'.hands.open ensures Pinned(m'.hands, x) {
      OpenAfter(m, cmd, x);
    }
  }

  /** All pointers in hand and in contents lead to objects. */
  ghost predicate AllThere(m: Memory) {
    HeldThere(m.hands.held, m.contents) && RefsThere(m.contents)
  }

  lemma {:induction false} HeldNext(m: Memory, cmd: Command)
    requires AllThere(m)
    ensures AllThere(Next(m, cmd))
  {
    hide HeldThere, RefsThere, MayWrite, MayDrop, MayAssign, MayUnpin, Pinned, Exchanged, HandsUnpinned;
    if cmd.New? {
      HeldEntered(m.hands.held, m.contents, m.nextId + 1, cmd.data);
    } else if cmd.Follow? {
      HeldFollowed(m, cmd.id, cmd.index);
    } else if cmd.Write? {
      if Answer(m, cmd) == Done {
        HeldWritten(m.contents, m.hands, cmd.id, cmd.content);
      }
    } else if cmd.UnpinObject? {
      SameHeld(m.hands, cmd.id);
    } else {
      HeldMoved(m, cmd);
    }
  }

  lemma {:induction false} SameHeld(h: Hands, id: ObjectId)
    ensures HandsUnpinned(h, id).held == h.held
  {
  }

  lemma {:induction false} HeldFollowed(m: Memory, id: ObjectId, i: nat)
    requires AllThere(m)
    ensures AllThere(Next(m, Follow(id, i)))
  {
    hide HeldThere, RefsThere, Pinned;
    if Answer(m, Follow(id, i)) != Refused {
      var r := m.contents[id].refs[i];
      RefThere(m.contents, id, i);
      HeldSome(m.hands.held, m.hands.held + multiset{r}, m.contents, r);
    }
  }

  lemma {:induction false} HeldMoved(m: Memory, cmd: Command)
    requires AllThere(m) && !cmd.New? && !cmd.Follow? && !cmd.Write? && !cmd.UnpinObject?
    ensures AllThere(Next(m, cmd))
  {
    hide HeldThere, RefsThere, Pinned, Safe;
    var held := m.hands.held;
    if cmd.CopyPointer? {
      HeldSome(held, held + multiset{cmd.id}, m.contents, cmd.id);
    } else if cmd.DropPointer? {
      HeldSome(held, held - multiset{cmd.id}, m.contents, cmd.id);
    } else if cmd.AssignPointer? {
      HeldSome(held, held - multiset{cmd.dst} + multiset{cmd.src}, m.contents, cmd.src);
    }
  }

  lemma {:induction false} RefThere(contents: Heap, id: ObjectId, i: nat)
    requires RefsThere(contents) && id in contents && i < |contents[id].refs|
    ensures contents[id].refs[i] in contents
  {
  }

  /** Pointers held, and one to `x` perhaps. */
  lemma {:induction false} HeldSome(held: multiset<ObjectId>, held': multiset<ObjectId>, contents: Heap, x: ObjectId)
    requires HeldThere(held, contents) && forall y :: y != x && held'[y] > 0 ==> held[y] > 0
    ensures x in contents || held[x] > 0 ==> HeldThere(held', contents)
  {
  }

  lemma {:induction false} HeldEntered(held: multiset<ObjectId>, contents: Heap, id: ObjectId, d: int)
    requires HeldThere(held, contents) && RefsThere(contents)
    ensures HeldThere(held + multiset{id}, contents[id := Content(d, [])])
    ensures RefsThere(contents[id := Content(d, [])])
  {
  }

  lemma {:induction false} HeldWritten(contents: Heap, h: Hands, id: ObjectId, c: Content)
    requires HeldThere(h.held, contents) && RefsThere(contents)
    requires id in contents && MayWrite(h, id, contents[id], c)
    ensures HeldThere(Exchanged(h.held, contents[id], c), contents[id := c]) && RefsThere(contents[id := c])
  {
    hide Safe;
    var was := contents[id];
    forall r | r in multiset(c.refs) || Exchanged(h.held, was, c)[r] > 0 ensures r in contents {
      assert h.held[r] > 0 || r in multiset(was.refs);
    }
    assert forall r :: r in c.refs ==> r in multiset(c.refs);
  }

  lemma {:induction false} PinsThereNext(m: Memory, cmd: Command)
    requires HeldThere(m.hands.held, m.contents) && RefsThere(m.contents) && PinsThere(m.hands.pins, m.contents)
    ensures PinsThere(Next(m, cmd).hands.pins, Next(m, cmd).contents)
  {
    hide Safe, Unpinned, MayUnpin, MayWrite, MayDrop, MayAssign, Ids, Pinned, Exchanged;
    if cmd.UnpinObject? {
      UnpinnedAmong(m.hands.pins, cmd.id);
      var pins := Unpinned(m.hands.pins, cmd.id);
      forall k | 0 <= k < |pins| ensures pins[k].id in m.contents {
        assert pins[k] in pins;
      }
    }
  }

  lemma {:induction false} UnpinnedAmong(pins: seq<Pin>, id: ObjectId)
    ensures forall p :: p in Unpinned(pins, id) ==> p in pins
    ensures forall x :: x != id && x in Ids(pins) ==> x in Ids(Unpinned(pins, id))
  {
    if pins != [] {
      var r, p := pins[..|pins| - 1], pins[|pins| - 1];
      UnpinnedAmong(r, id);
      assert Ids(pins) == Ids(r) + [p.id];
      assert Ids(Unpinned(r, id) + [p]) == Ids(Unpinned(r, id)) + [p.id];
    }
  }

  lemma {:induction false} SaneNext(m: Memory, cmd: Command)
    requires Sane(m)
    ensures Sane(Next(m, cmd))
  {
    hide Closed, Safe, Linked, Numbered, Unpinned, Pinned;
    ClosedNext(m, cmd);
    var h := m.hands;
    match cmd
    case New(d) =>
      MoreHeld(h.held, multiset{m.nextId + 1}, h.pins);
      NumberedMore(m.contents, m.nextId, m.nextId + 1);
      ContentsEntered(m.contents, m.nextId + 1, Content(d, []), h.pins);
    case CopyPointer(id) =>
      MoreHeld(h.held, multiset{id}, h.pins);
    case AssignPointer(dst, src) =>
      if MayAssign(h, dst, src) {
        MoreHeld(h.held - multiset{dst}, multiset{src}, h.pins);
      }
    case PinObject(id) =>
      if h.held[id] > 0 {
        SafeOutside(h.held, h.pins, id);
        LinkedOutside(m.contents, h.pins, id);
      }
    case PinInside(p, i) =>
      if Pinned(h, p) && p in m.contents && i < |m.contents[p].refs| {
        PinnedIds(h, p);
        SafeInside(h.held, h.pins, m.contents[p].refs[i], p);
        LinkedInside(m.contents, h.pins, p, i);
      }
    case UnpinObject(id) =>
      UnpinnedLinked(m.contents, h.pins, id);
    case Write(id, c) =>
      if Answer(m, cmd) == Done {
        ContentsChanged(m.contents, id, m.contents[id], c, h, m.nextId);
      }
    case Follow(id, i) =>
      if Pinned(h, id) && id in m.contents && i < |m.contents[id].refs| {
        MoreHeld(h.held, multiset{m.contents[id].refs[i]}, h.pins);
      }
    case _ =>
  }

  lemma {:induction false} PinnedIds(h: Hands, id: ObjectId)
    ensures Pinned(h, id) <==> id in Ids(h.pins)
  {
  }

  lemma {:induction false} ContentsEntered(contents: Heap, id: ObjectId, c: Content, pins: seq<Pin>)
    requires Linked(contents, pins) && Numbered(contents, id)
    ensures Linked(contents[id := c], pins) && Numbered(contents[id := c], id + 1)
  {
  }

  lemma {:induction false} ContentsChanged(contents: Heap, id: ObjectId, was: Content, c: Content, h: Hands,
                                           next: ObjectId)
    requires Linked(contents, h.pins) && MayWrite(h, id, was, c) && id in contents && Numbered(contents, next)
    ensures Linked(contents[id := c], h.pins) && Numbered(contents[id := c], next)
  {
  }

  // ---------- The replies are right ----------

  lemma {:induction false} SafeWithout(held: multiset<ObjectId>, pins: seq<Pin>, id: ObjectId)
    requires Safe(held, pins) && (held[id] > 1 || id !in Ids(pins))
    ensures Safe(held - multiset{id}, pins)
  {
    assert forall k :: 0 <= k < |pins| ==> pins[k].id == Ids(pins)[k];
  }

  lemma {:induction false} SafeUnpinned(held: multiset<ObjectId>, pins: seq<Pin>, id: ObjectId)
    requires Safe(held, pins) && forall k :: 0 <= k < |pins| ==> pins[k].via.None?
    ensures Safe(held, Unpinned(pins, id))
  {
    hide Unpinned;
    UnpinnedAmong(pins, id);
    UnpinnedOutside(pins, id);
    var pins' := Unpinned(pins, id);
    forall k | 0 <= k < |pins'| ensures pins'[k].via.None? && held[pins'[k].id] > 0 {
      assert pins'[k] in pins';
    }
  }

  lemma {:induction false} MayRewrite(m: Memory, id: ObjectId, c: Content)
    requires Safe(m.hands.held, m.hands.pins) && Linked(m.contents, m.hands.pins)
    requires id in m.contents && c.refs == m.contents[id].refs
    ensures MayWrite(m.hands, id, m.contents[id], c)
  {
    hide Safe;
    assert Exchanged(m.hands.held, m.contents[id], c) == m.hands.held;
  }

  lemma {:induction false} PinnedCount(h: Hands, id: ObjectId)
    ensures Pinned(h, id) <==> multiset(Ids(h.pins))[id] > 0
  {
    assert id in Ids(h.pins) <==> id in multiset(Ids(h.pins));
  }

  lemma {:induction false} FreshId(m: Memory)
    requires Sane(m)
    ensures m.nextId + 1 !in m.contents && m.hands.held[m.nextId + 1] == 0
  {
  }

  lemma {:induction false} DropRight(m: Memory, cmds: seq<Command>, replies: seq<Reply>, id: ObjectId)
    requires |cmds| == |replies| && Told(m, cmds, replies) && Sane(m)
    ensures Right(cmds, replies, DropPointer(id), Answer(m, DropPointer(id)))
  {
    hide InHand, PinCount, IsOpen, Latest, NothingInside, Safe, Linked, Numbered, Closed, Pinned, Unpinned, Ids,
         MayWrite;
    var h := m.hands;
    PinnedCount(h, id);
    PinnedIds(h, id);
    if h.held[id] > 1 || !Pinned(h, id) {
      SafeWithout(h.held, h.pins, id);
    }
  }

  lemma {:induction false} AssignRight(m: Memory, cmds: seq<Command>, replies: seq<Reply>, dst: ObjectId, src: ObjectId)
    requires |cmds| == |replies| && Told(m, cmds, replies) && Sane(m)
    ensures Right(cmds, replies, AssignPointer(dst, src), Answer(m, AssignPointer(dst, src)))
  {
    hide InHand, PinCount, IsOpen, Latest, NothingInside, Safe, Linked, Numbered, Closed, Pinned, Unpinned, Ids,
         MayWrite;
    var h := m.hands;
    PinnedCount(h, dst);
    PinnedIds(h, dst);
    if h.held[dst] > 1 || !Pinned(h, dst) {
      SafeWithout(h.held, h.pins, dst);
    }
  }

  lemma {:induction false} UnpinRight(m: Memory, cmds: seq<Command>, replies: seq<Reply>, id: ObjectId)
    requires |cmds| == |replies| && Told(m, cmds, replies) && Sane(m)
    ensures Right(cmds, replies, UnpinObject(id), Answer(m, UnpinObject(id)))
  {
    hide InHand, PinCount, IsOpen, Latest, NothingInside, Safe, Linked, Numbered, Closed, Pinned, Unpinned, Ids,
         MayWrite;
    PinnedCount(m.hands, id);
    if NothingInside(cmds, replies) {
      SafeUnpinned(m.hands.held, m.hands.pins, id);
    }
  }

  lemma {:induction false} ReadsRight(m: Memory, cmds: seq<Command>, replies: seq<Reply>, id: ObjectId, i: nat)
    requires |cmds| == |replies| && Told(m, cmds, replies) && Sane(m)
    ensures Right(cmds, replies, Look(id), Answer(m, Look(id))) && Right(cmds, replies, Open(id), Answer(m, Open(id)))
    ensures Right(cmds, replies, PinInside(id, i), Answer(m, PinInside(id, i)))
    ensures Right(cmds, replies, Follow(id, i), Answer(m, Follow(id, i)))
  {
    hide InHand, PinCount, IsOpen, Latest, NothingInside, Safe, Linked, Numbered, Closed, Pinned, Unpinned, Ids,
         MayWrite;
    ReadRight(m, id);
  }

  lemma {:induction false} OthersRight(m: Memory, cmds: seq<Command>, replies: seq<Reply>, cmd: Command)
    requires |cmds| == |replies| && Told(m, cmds, replies) && Sane(m)
    requires cmd.New? || cmd.CopyPointer? || cmd.PinObject? || cmd.EvictEverything? || cmd.Resize?
    ensures Right(cmds, replies, cmd, Answer(m, cmd))
  {
    hide InHand, PinCount, IsOpen, Latest, NothingInside, Safe, Linked, Numbered, Closed, Pinned, Unpinned, Ids,
         MayWrite;
    FreshId(m);
  }

  lemma {:induction false} RightNext(m: Memory, cmds: seq<Command>, replies: seq<Reply>, cmd: Command)
    requires |cmds| == |replies| && Told(m, cmds, replies) && Sane(m)
    ensures Right(cmds, replies, cmd, Answer(m, cmd))
  {
    hide Right, Answer, Told, Sane;
    match cmd
    case DropPointer(id) => DropRight(m, cmds, replies, id);
    case AssignPointer(dst, src) => AssignRight(m, cmds, replies, dst, src);
    case UnpinObject(id) => UnpinRight(m, cmds, replies, id);
    case Write(id, c) => WriteRight(m, cmds, replies, id, c);
    case Look(id) => ReadsRight(m, cmds, replies, id, 0);
    case Open(id) => ReadsRight(m, cmds, replies, id, 0);
    case PinInside(id, i) => ReadsRight(m, cmds, replies, id, i);
    case Follow(id, i) => ReadsRight(m, cmds, replies, id, i);
    case _ => OthersRight(m, cmds, replies, cmd);
  }

  lemma {:induction false} ReadRight(m: Memory, id: ObjectId)
    requires Sane(m)
    ensures Pinned(m.hands, id) <==> multiset(Ids(m.hands.pins))[id] > 0
    ensures Pinned(m.hands, id) ==> id in m.contents
  {
    hide Pinned, Ids, Closed;
    PinnedCount(m.hands, id);
    if Pinned(m.hands, id) {
      PinnedThere(m, id);
    }
  }

  lemma {:induction false} WriteRight(m: Memory, cmds: seq<Command>, replies: seq<Reply>, id: ObjectId, c: Content)
    requires |cmds| == |replies| && Told(m, cmds, replies) && Sane(m)
    ensures Right(cmds, replies, Write(id, c), Answer(m, Write(id, c)))
  {
    hide InHand, PinCount, IsOpen, Latest, NothingInside, Safe, Linked, Numbered, Closed, Pinned, Ids;
    if id in m.contents && c.refs == m.contents[id].refs {
      MayRewrite(m, id, c);
    }
  }

  lemma {:induction false} HeapTold(cmds: seq<Command>)
    ensures |Answers(cmds)| == |cmds| && Sane(After(cmds)) && Told(After(cmds), cmds, Answers(cmds))
  {
    hide Sane, Next, Answer;
    if cmds == [] {
      NothingTold();
    } else {
      var r, cmd := cmds[..|cmds| - 1], cmds[|cmds| - 1];
      HeapTold(r);
      SaneNext(After(r), cmd);
      ToldNext(After(r), r, Answers(r), cmd);
      assert cmds == r + [cmd];
    }
  }

  lemma {:induction false} NothingTold()
    ensures var m := After([]); Sane(m) && Told(m, [], [])
  {
  }

  /** All replies of the plain heap are right. */
  lemma {:induction false} AnswersRight(cmds: seq<Command>)
    ensures AllRight(cmds, Answers(cmds))
  {
    hide Right, Sane, Told, Answer, Next;
    HeapTold(cmds);
    if cmds != [] {
      var n := |cmds| - 1;
      var r := cmds[..n];
      AnswersRight(r);
      HeapTold(r);
      RightNext(After(r), r, Answers(r), cmds[n]);
      forall k | 0 <= k < |cmds| ensures Right(cmds[..k], Answers(cmds)[..k], cmds[k], Answers(cmds)[k]) {
        assert cmds[..k] == if k < n then r[..k] else r;
        assert Answers(cmds)[..k] == if k < n then Answers(r)[..k] else Answers(r);
      }
    }
  }

  // ---------- Reading what was written ----------

  /** Between `i` and `n` nothing was given to `x`. */
  ghost predicate NotGiven(cmds: seq<Command>, replies: seq<Reply>, x: ObjectId, i: nat, n: nat)
    requires i <= n <= |cmds| == |replies|
  {
    forall k :: i <= k < n ==> Given(cmds[k], replies[k], x) == None
  }

  lemma {:induction false} LatestSince(cmds: seq<Command>, replies: seq<Reply>, x: ObjectId, i: nat)
    requires i < |cmds| == |replies| && Given(cmds[i], replies[i], x).Some?
    requires NotGiven(cmds, replies, x, i + 1, |cmds|)
    ensures Latest(cmds, replies, x) == Given(cmds[i], replies[i], x)
  {
    hide Given;
    var n := |cmds| - 1;
    if i < n {
      LatestSince(cmds[..n], replies[..n], x, i);
    }
  }

  /** Whatever else was done in between, and to whichever objects: reading an object gives
      what was written to it last, or what it was made with. */
  lemma {:induction false} ReadsWhatWasGiven(cmds: seq<Command>, replies: seq<Reply>, x: ObjectId, i: nat, n: nat)
    requires AllRight(cmds, replies) && i < n < |cmds| && (cmds[n] == Look(x) || cmds[n] == Open(x))
    requires Given(cmds[i], replies[i], x).Some? && NotGiven(cmds, replies, x, i + 1, n)
    ensures replies[n] == Refused || replies[n] == Data(Given(cmds[i], replies[i], x).value)
    ensures replies[n] == Refused <==> PinCount(cmds[..n], replies[..n], x) <= 0
  {
    hide Given, PinCount, Latest;
    LatestSince(cmds[..n], replies[..n], x, i);
    assert Right(cmds[..n], replies[..n], cmds[n], replies[n]);
  }
}
