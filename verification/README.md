# A verified model of the B^e-tree and its swap space

The repository is a write-optimised search tree (a B^e-tree) whose nodes live in a
swap space: a pinned, reference-counted, least-recently-used cache over a backing
store. Inserts, deletes and "add to the old value" updates travel down the tree as
timestamped messages; they are buffered in internal nodes, compacted, flushed in
batches and folded lazily by queries and iterators. This project models both layers
and the two smaller pieces they rest on, the text form nodes are stored in and the
order of path keys, and proves what they are for.

Main results, each for all inputs:

- **The tree is a map** (`Reference.Test`). Every run of inserts, updates, erases,
  queries and full, lower-bound and upper-bound scans on a new tree gives, answer for
  answer, what a plain map gives, for every node size from 3 up, every flush size, and
  all replies to "is this child dirty?" and "is it in memory?". The only way out is the
  assertion on the flush fast path; see below for exactly when. `AnyKeys.RunRenamed`
  carries this to the keys of any strict total order, `Reference.MapReads` to any value
  type.
- **A flush means what its messages mean** (`Betrees.Betree.Flush`), through pivot
  lowering, the fast path, buffering, repeated batches and recursive splits. It
  terminates for all replies, and keeps order, ranges, balance, message shapes, the leaf
  bound and the ownership of nodes.
- **Batches and cuts are the ones meant** (`Drains.Flow`, promised by `Betrees.Betree.Flush`
  and `Upsert`). A node that is too large hands down its largest batch as long as that is
  larger than the flush size, or than half of it and the child is in memory, and nothing
  otherwise; over whole runs, `Reference.RunAll`. A split cuts at the first message or pivot
  at which each even share is full (`Betrees.Betree.Split`, `Cutting.EvenLeaf`).
- **Scans are exact** (`Iterators.Scan`): the live pairs from the start on, each once, in
  key order.
- **Every node is in order** (`Invariants`): in every reachable state all leaves are
  equally deep and below the maximum size, keys lie between their pivots, a message is
  newer than any for the same key below it, and each node of the table is reached by
  exactly one path.
- **The cache is invisible** (`SwapRuns.Run`): every run of allocations, pointer copies,
  assignments and drops, pins made from pointers in hand or inside pinned objects, const
  and non-const accesses, writes under a pin however much later, forced evictions and
  changes of the cache size gives the replies of a heap that never evicts. Those replies are
  right, said of commands and replies alone (`SwapReplies.AnswersRight`,
  `ReadsWhatWasGiven`): what is read is what was written to that object last.
- **Eviction is by last use** (`SwapRuns.PerformNext`, `RunAll`): in every run the objects
  are in the order of their last use, and what a command drives out of memory was used
  before anything without a pin that stays.
- **References are conserved** (`SwapTheorems.ReferencesCounted`, `AliveIffReachable`,
  `AllGone`): through eviction, which nulls and then destroys the copy in memory, every
  count is the number of pointers outside, in memory and in images; on an acyclic pointer
  graph the objects alive are exactly those reachable, and when the last pointer goes, so
  does every object and every file.
- **Nodes survive storage** (`Serial.NodeRoundTrip`): text written for a node reads back
  as that node, whatever bytes its keys and values hold and whatever follows it. Numbers are
  the decimal numerals that mean them (`Serial.DecimalIff`, `ReadNatIff`).

Properties the code does not have, each with the condition under which it does and a
run or an input on which it fails:

- **Nothing is buffered for a dirty child** (asserted at client/betree.hpp:460-466). A
  batch for several children is buffered for each of them without asking who is dirty
  (client/betree.hpp:480-481), and a later batch for one of them that is dirty fails, at
  every node with room for the first (`Witnesses.BufferedThenDirty`). For whole runs: if
  no "dirty" comes after a "clean", no run is stopped (`Reference.Test`); if one does, a
  run is, by the first such reply, for every maximum from 5 up (`Witnesses.StoppedRun`).
  For one call: it is stopped if, on the way down through children said to be dirty,
  some node has messages waiting for the next (`Descents.Stops`), and only then if that
  way ends at a leaf or at a node with room (`Descents.Ends`; promised by
  `Betrees.Betree.Flush` and `Upsert`). In the source the replies come from the swap
  space: a child is dirty from its creation or a flush into it until it is evicted, so
  it does not turn dirty while nothing is flushed into it. `BufferedThenDirty` needs no
  more than a child that is dirty throughout; `StoppedRun` is about all replies there
  can be.
- **Every node is within the maximum size** (client/betree.hpp:34-40). With a flush size
  of at most 3/8 of the maximum and no reply of "dirty", every node but the root is, and
  so is the root if max + 1 < 3 * (10 * max / 24), which holds for 10, 12, 13 and every
  maximum from 15 up, the default among them (`Outcomes.RoomyFrom15`, `Reference.RunAll`,
  `Invariants.NodeSizes`, `AllSizes`). For a maximum of 3 the root is not
  (`Witnesses.RootTooLarge`), and on the fast path, where a node grows by exactly the
  number of nodes put back, less one (`Betrees.Betree.FlushDirect`), it is not for any
  maximum (`Witnesses.RootGrows`).
- **The counter of objects in memory is right.** Dropping a pointer keeps it right
  exactly when every evicted leaf can be reached without that pointer, and assigning one
  likewise (`SwapTheorems.DropCounted`, `AssignCounted`). `SwapTheorems.CounterWraps`
  makes it wrap around.
- **`FKey` is an order.** `operator<` puts shallower paths first and equally deep ones
  in dictionary order of the first token that differs (`PathKeys.Less`). It returns on
  any two paths of a set and orders them exactly when no path is in the set with and
  without a trailing slash, and no two equally deep paths agree on their first 256
  tokens (`PathKeys.OrderedIff`, `NeverDecides`). A stored key reads back exactly when
  the path is one word (`KeyRoundTrip`), and keys that were read back are never ordered,
  because reading does not rebuild the tokens (`LoadedIff`).

## How the model is built

- Messages, and what a sequence of them means at a key: `Messages.dfy`. A `std::map` is
  the sorted sequence of its entries: `Buffer.dfy` (messages), `Stores.dfy` (pivots).
- The tree as a value and its invariant: `Trees.dfy`. The table of nodes that represents
  it, with the count that says each node is held once: `Stores.dfy`.
- Splitting and flushing step by step: `Splitting.dfy`, `Cutting.dfy`, `Flushing.dfy`,
  `FlushStates.dfy`. Which batches go down: `Drains.dfy`. When a flush is stopped and
  how large the nodes get: `Outcomes.dfy`, `Descents.dfy`. Reading: `Reading.dfy`. The
  class itself: `Betree.dfy`. What its validity means, node by node: `Invariants.dfy`.
  Runs that go wrong: `Witnesses.dfy`.
- Iteration: `Scanning.dfy`, `Iterators.dfy`. The map to compare with: `PlainMaps.dfy`,
  `Reference.dfy`. Other keys than integers: `Keys.dfy`, `AnyKeys.dfy`.
- The swap space: `SwapStates.dfy` (invariant and single steps), `SwapSpace.dfy` (the
  classes), `SwapTheorems.dfy`. Programs that use it: `SwapCommands.dfy` (the plain heap),
  `SwapReplies.dfy` (what its replies mean), `SwapRuns.dfy` (the swap space against it).
- Text form: `Serial.dfy`. Path keys: `PathKeys.dfy`.

Keys are integers, because keys are only compared: `Keys.RankEmbeds` renames the keys of
any strict total order to integers without changing a comparison, and
`AnyKeys.RunRenamed` renames whole runs. Values are free terms over `+`, because values
are only added: `Messages.ReadingCommutes` and `Reference.MapReads` carry the results to
any value type, with no law assumed of its `+`. A thrown `std::out_of_range` is `None`;
the assertion on the fast path is `ok == false`. The replies of `is_dirty` and of
`is_in_memory` are two parameters, one reply per question; the questions put to
each are kept in a log, with the node as it was when it was asked.

## Model

| member | source | states |
|---|---|---|
| Reference.Test | client/main.cpp:131-226 | a whole run on a new tree answers as a plain map does, up to where it is stopped; it is not stopped if no yes of is_dirty comes after a no, whatever is_in_memory replies; if it is, a yes was given after a no, at an operation that sends a message, on a tree that means the plain map, as Upserted says |
| Reference.Perform | client/main.cpp:155-217 | one operation keeps tree and map equal at every key and gives the map's answer; with no yes after a no it is not stopped, provided the tree is dry as long as there was no no; under calm conditions sizes stay within the maximum; if stopped, the node asked about last is as it was asked about |
| Reference.RunAll | client/main.cpp:139-221 | the same for the tree a whole run leaves: with no yes and a flush size of at most 3/8, every node but the root within the maximum, and the root too for a roomy maximum; as long as every reply is yes, nothing buffered anywhere; every batch handed down in the run because a node was too large was its largest and large enough for the replies given |
| Reference.MapReads | client/main.cpp:155-175 | the plain map of terms, read in any value type, is the plain map of that type |
| Reference.ScanLists | client/main.cpp:80-97 | a scan of the tree is the map's own listing in key order |
| PlainMaps.ListsInOrder | client/main.cpp:86-96 | an ascending listing of all entries of a map is unique |
| Messages.ReadingCommutes | client/betree.hpp:128-135 | folding messages over terms and reading the result is folding in the value type |
| Keys.RankEmbeds | client/betree.hpp:106-125 | ranking the keys of a strict total order keeps `<` and `==` both ways |
| AnyKeys.RunRenamed | client/main.cpp:131-226 | a run over the keys of any strict total order, renamed to ranks, answers at each step with the renaming of what a map in that order answers |
| AnyKeys.AfterRenames | client/main.cpp:155-175 | the plain map after a renamed run is the renamed plain map |
| AnyKeys.ListingRenamed | client/main.cpp:80-97 | the listing of a renamed map is the renaming of the listing in the keys' own order |
| Betrees.Betree.constructor | client/betree.hpp:652-662 | a new tree is valid and means the empty map |
| Betrees.Betree.Upsert | client/betree.hpp:666-675 | one map operation at its key and no change at any other, validity kept; stopped if the way down the fast path meets a node with messages waiting, and only then if that way ends at a leaf or at a node with room, where the new tree is given outright; no yes after a no, no stop in a dry tree; under calm conditions all nodes stay within a roomy maximum; on a stop the node asked about last is as it was; what happens at the root is Flow |
| Betrees.Betree.NewRoot | client/betree.hpp:671-674 | the new root over the pieces is a valid tree of the next height, and the old root is freed |
| Betrees.Betree.Query | client/betree.hpp:692-696 | exactly what the tree means at the key, nothing exactly where the key is absent |
| Betrees.Betree.QueryNode | client/betree.hpp:531-585 | the fold of all messages of the subtree for the key, oldest first; the opcode assertions hold |
| Betrees.Betree.QueryChild | client/betree.hpp:552-561 | the fold of the children's messages, nothing for a key below the first pivot |
| Betrees.Betree.GetNextMessage | client/betree.hpp:601-623 | the least message of the subtree after the argument, nothing exactly when there is none |
| Betrees.Betree.GetNextMessageFromChildren | client/betree.hpp:587-599 | the same over all children |
| Betrees.Betree.Flush | client/betree.hpp:426-529 | the node, or the forest that replaces it, means the old subtree followed by the batch; well-formedness, ranges, balance, node ownership kept; terminates; stopped if and, where the way down ends with room or at a leaf, only if Stops holds of the tree before; under calm conditions all nodes within the maximum, in at most one piece more than messages for a roomy one; nothing is written after a stop; at the node itself (Flow): a leaf is cut evenly when too large, the fast path replaces the child, anything else goes through the loop as Looped says |
| Betrees.Betree.FlushLeaf | client/betree.hpp:436-442 | the same for a leaf, which ends below the maximum size, cut evenly exactly when it would not |
| Betrees.Betree.FlushInner | client/betree.hpp:454-523 | the same for an internal node; a batch for one child said to be dirty fails at once if something is buffered for it and otherwise leaves the buffer alone; any other batch leaves the node within the maximum size or split |
| Betrees.Betree.FlushDirect | client/betree.hpp:458-476 | the fast path: fails at once, with no question asked and nothing changed, when something is buffered for the child, and otherwise exactly when the child's flush fails; then the node has grown by exactly the number of nodes put back, less one |
| Betrees.Betree.FlushChild | client/betree.hpp:503-514 | a batch handed to one child, with the child or its pieces put back in its place |
| Betrees.Betree.Drain | client/betree.hpp:483-522 | the loop ends; each round takes the first largest batch of a node that is too large, if it is larger than the flush size, or than half of it and is_in_memory says yes of that child; it stops only below the maximum or when the largest batch is neither, with exactly those questions asked; then the node is split exactly if it is above the maximum; children within the maximum stay so unless the fast path is taken below |
| Betrees.Betree.Decide | client/betree.hpp:500-503 | a batch is handed down exactly when it is larger than the flush size, or than half of it and the reply about its child is yes; the question is asked only in between |
| Betrees.Betree.HandDown | client/betree.hpp:503-514 | one round: the batch leaves the buffer and what comes back takes the place of the child |
| Drains.HandedMore | client/betree.hpp:483-517 | batches handed down stay justified by the replies as more are asked for |
| Drains.RoundsMore | client/betree.hpp:483-517 | the rounds of the loop, in the order of the questions they asked |
| Drains.LargestUnique | client/betree.hpp:485-499 | the child taken is the only one that is the first with the most messages |
| Betrees.Betree.Settle | client/betree.hpp:519-522 | a node above the maximum is split, any other is left as it is |
| Betrees.Betree.Split | client/betree.hpp:327-380 | the pieces partition pivots and messages in order, mean the same, are well formed and bounded by 5/8 of the maximum (plus a batch); never none, at least two for a leaf, never more than computed; the cuts are even: n pieces aimed at with n * q <= total < (n + 1) * q for q = 10 * max / 24, p things each with (p - 1) * n < total <= p * n, and each piece ends at the first message or pivot boundary at which its share is full and is stored under the first key in it |
| Betrees.Betree.SplitOne | client/betree.hpp:340-369 | one round of the loop moves the next piece over and keeps all of this; and ends it at the first boundary at or past the limit |
| Betrees.Betree.NewPiece | client/betree.hpp:343-348 | a new node under its key; an empty one is overwritten under the same key |
| Betrees.Betree.Apply | client/betree.hpp:279-323 | the node's messages become the compaction of the old ones with the new one |
| Betrees.Betree.ApplyBatch | client/betree.hpp:437-438 | a batch compacted message by message |
| Buffer.KeySpan | client/betree.hpp:283-284 | lower_bound and upper_bound of a key's range delimit exactly its messages |
| Buffer.ApplySound | client/betree.hpp:279-323 | compaction changes the meaning at the key by exactly one map step over any older value, and at no other key; order and shape kept |
| Buffer.ApplyAllSound | client/betree.hpp:480-481 | the same for a batch |
| Buffer.ApplyRefines | client/betree.hpp:480-481 | with anything older below, the compacted buffer means the old one followed by the batch |
| Buffer.AppliedSplits | client/betree.hpp:279-323 | compaction rewrites the messages of its own key and leaves the rest in place |
| Buffer.StaysBuffered | client/betree.hpp:279-323 | in an internal node something stays behind for every key of the batch |
| Buffer.LowerBound | client/betree.hpp:257-259 | everything before is below the key, the position itself is not |
| Buffer.UpperBound | client/betree.hpp:297-297 | everything before is not above the key, the position itself is |
| Messages.RefinesInside | client/betree.hpp:503-514 | replacing a middle part by one that means its part of the batch keeps the meaning of the whole |
| Stores.GetPivot | client/betree.hpp:230-240 | the pivot at or below the key with the next one above it, nothing exactly below the first |
| Stores.InsertRefsSplice | client/betree.hpp:504-509 | inserting new children between the neighbours of the erased one drops none |
| Stores.LowerRefs | client/betree.hpp:446-452 | rewriting the first pivot to a smaller key changes that key only |
| Stores.ElementBeginMono | client/betree.hpp:273-276 | the children's messages start in the order of the children |
| Stores.RowStored | client/betree.hpp:504-512 | replacing one child's nodes leaves every other subtree stored as it was, each node once |
| Stores.FreeSplit | client/betree.hpp:504-509 | freeing a split node leaves exactly the nodes of its pieces |
| Trees.AllWithin | client/betree.hpp:230-240 | every message under a pivot lies between that pivot and the next |
| Trees.ReplaceWF | client/betree.hpp:504-512 | a row of children with one replaced by well-formed pieces is well formed |
| Trees.ReplaceRefines | client/betree.hpp:504-512 | and means the old row followed by what the pieces absorbed |
| Splitting.SplitArithmetic | client/betree.hpp:328-334 | for a maximum of at least 3 no division by zero, at least two pieces, all things fit, each piece at most 5/8 of the maximum |
| Cutting.SplitShares | client/betree.hpp:331-334 | the number of pieces is the n with n * q <= total < (n + 1) * q, q = 10 * max / 24, and the things in each the p with (p - 1) * n < total <= p * n |
| Cutting.SharesUnique | client/betree.hpp:331-334 | there is only one such n and p |
| Cutting.CutsGrow | client/betree.hpp:349-368 | each round that fills a piece ends it at the first boundary at which the share is full |
| Cutting.LeafShares | client/betree.hpp:361-367 | so the first k pieces of a leaf hold k * p messages |
| Cutting.EvenLeaf | client/betree.hpp:361-367 | a leaf is cut into at most n pieces, of exactly p messages each but for the last |
| Splitting.IntsFit | client/betree.hpp:331-349 | for fewer than 2^30 things nothing the source keeps in an int overflows |
| Splitting.FillPiece | client/betree.hpp:349-368 | the inner loops move whole pivots with their messages, past the limit by at most one batch, and stop at the first boundary at or past it |
| Splitting.LeafPiece | client/betree.hpp:361-367 | cutting a leaf's messages keeps the meaning |
| Splitting.InnerPiece | client/betree.hpp:351-360 | cutting between pivots, with every message going with its child, keeps the meaning |
| Splitting.SplitDone | client/betree.hpp:375-379 | when the loop ends nothing is left over |
| FlushStates.AtLeastTwoPieces | client/betree.hpp:327-380 | pieces that are all smaller than the node are at least two |
| FlushStates.SplitFits | client/betree.hpp:519-522 | flush size at most 3/8 of the maximum: at least two pieces, none above the maximum |
| FlushStates.LargestBatch | client/betree.hpp:485-499 | the first child with the most messages waiting, and how many |
| FlushStates.BatchForChild | client/betree.hpp:503-506 | the messages cut out are those for the child, sorted and newest; the rest keeps order and shape |
| FlushStates.PivotsReplaced | client/betree.hpp:504-509 | erase and insert put exactly the new children in the child's place |
| FlushStates.ChildFlushed | client/betree.hpp:503-514 | the node with its child replaced is well formed and means what it meant with the batch moved down |
| FlushStates.WorkingLowered | client/betree.hpp:446-452 | lowering the first pivot changes no meaning |
| FlushStates.BufferedWaits | client/betree.hpp:460-481 | a buffered batch leaves messages waiting for every child it is for, dirty or not |
| Outcomes.RefusedOutcome | client/betree.hpp:460-466 | the refusal is accounted for by the question just asked, and does not happen in a dry tree |
| Outcomes.DirectOutcome | client/betree.hpp:468-476 | with the fast path taken, failing and buffers depend on the child alone |
| Outcomes.SlowOutcome | client/betree.hpp:477-523 | with the batch buffered, sizes stay within the maximum where the children's did, and no pivot is lost |
| Outcomes.DrainedSplit | client/betree.hpp:519-522 | the pieces of a node whose subtrees are within the maximum are too, for a flush size of at most 3/8 |
| Outcomes.FallenRuns | client/betree.hpp:458-466 | after a no, with no yes to come, a flush is not stopped |
| Outcomes.FewPieces | client/betree.hpp:331-334 | a node over a roomy maximum by at most b is split into at most 1 + b pieces |
| Outcomes.RoomyFrom15 | client/betree.hpp:331-334 | every maximum from 15 up is roomy |
| Outcomes.DrainStep | client/betree.hpp:500-514 | under calm conditions handing a batch of m messages to a child within a roomy maximum, which comes back as at most 1 + m nodes, does not enlarge the node |
| Descents.DirectDescent | client/betree.hpp:458-476 | the questions, the stop and the resting place of a batch handed on are those of the child, after the question asked here |
| Descents.SlowDescent | client/betree.hpp:477-484 | a batch that is not handed on rests here if there is room, with at most one question asked |
| Descents.UpsertRooted | client/betree.hpp:671-674 | a root made of the pieces of a split is within a roomy maximum under calm conditions |
| Witnesses.StoppedRun | client/betree.hpp:460-466 | for every maximum from 5 up, every flush size and all replies with a yes after a no: inserting 0 to max - 1 and then 0 again and again succeeds up to the first question answered yes after a no, and is stopped by it |
| Witnesses.BufferedThenDirty | client/betree.hpp:454-481 | at every node with room: a batch for several children is buffered with no question asked, and a later batch for one of them that is dirty fails |
| Witnesses.SecondTrips | client/betree.hpp:460-481 | after a batch for several children was buffered, the assertion does not hold for a later batch for one of them |
| Witnesses.RootTooLarge | client/betree.hpp:671-674 | for a maximum of 3 and flush size 0, with no reply yes, at most seven insertions make a root above the maximum |
| Witnesses.RootGrows | client/betree.hpp:468-476 | for any maximum, with every reply yes, inserting one key more than max * (max - 1) makes a root of more pivots than the maximum |
| FlushStates.UpsertMeaning | client/betree.hpp:666-675 | one message flushed into the root is one map operation; timestamps stay in [1, next) |
| FlushStates.Rooted | client/betree.hpp:671-674 | a new root over the pieces of the old one is a valid tree of the next height |
| Invariants.EveryNode | client/betree.hpp:213-222 | in a valid tree the node at the end of any path: leaves all at the same depth, below the maximum size, one INSERT per key; other nodes with children, nothing below the first pivot, INSERT or DELETE UPDATE* or UPDATE+ per key |
| Invariants.Descendant | client/betree.hpp:230-240 | however deep below a pivot, keys lie between it and the next pivot, and messages are strictly older than the node's own for the same key |
| Invariants.OnePath | client/betree.hpp:504-512 | every node of the table is reached from the root by exactly one path: none shared, none left behind |
| Invariants.NodeSizes | client/betree.hpp:34-40 | where a run kept the sizes, the node at the end of any path but the empty one is within the maximum |
| Invariants.AllSizes | client/betree.hpp:34-40 | where a run kept the root within the maximum too, so is the node at the end of any path |
| Invariants.NothingBuffered | client/betree.hpp:458-466 | where a run kept the tree dry, no node with children holds a message |
| Reading.LeafValue | client/betree.hpp:534-541 | a leaf's first message for the key is an INSERT of its value, or there is none |
| Reading.ForestValue | client/betree.hpp:552-552 | all messages of the children for a key are in the child get_pivot names |
| Reading.InnerValue | client/betree.hpp:544-584 | the node's own messages for the key fold over the value from below |
| Reading.NextFromChild | client/betree.hpp:592-597 | the first child with a message after the argument has the least one |
| Reading.NextMerge | client/betree.hpp:611-622 | the smaller of the buffer's and the children's next message is the next of both |
| Iterators.Iterator.constructor | client/betree.hpp:731-744 | stands at the first live pair after the start, or at the end when there is none |
| Iterators.Iterator.Apply | client/betree.hpp:746-767 | one map step on the current pair |
| Iterators.Iterator.SetupNextElement | client/betree.hpp:769-779 | moves to the next live pair, with all its messages folded oldest first, skipping dead keys |
| Iterators.Scan | client/main.cpp:80-97 | the pairs listed are exactly the live ones after the start, ascending, with their values |
| Scanning.PassNext | client/betree.hpp:771-778 | passing the next message extends what has been folded at its key by that message only |
| Scanning.ReachYields | client/betree.hpp:769-779 | when the loop stops, the pair is the least live key with its full value |
| Scanning.ScanStarts | client/betree.hpp:806-818 | the three starting points see all keys, those at or above, those above |
| SwapRuns.Run | client/swap_space.hpp:172-455 | a whole run of commands replies as a heap that never evicts, for every cache size, and every reply is right (AllRight) |
| SwapRuns.Perform | client/swap_space.hpp:178-333 | one command replies as the plain heap and keeps the two alike; the object it accesses gets a new access time, no other does, and what leaves memory is older than anything without a pin that stays |
| SwapRuns.PerformNext | client/swap_space.cpp:112-131 | the same in a run: objects stay in the order of their last use among the commands so far, and what leaves memory was used before anything without a pin that stays |
| SwapRuns.RunAll | client/swap_space.cpp:49-51 | after any run the access times order the objects by their last use in it |
| SwapRuns.TimelineNext | client/swap_space.hpp:253-259 | one access more keeps the order of access times that of last uses |
| SwapReplies.AnswersRight | client/swap_space.hpp:178-333 | in every run: reading gives what the object was given last, exactly under a pin; following gives the pointer in it; copying and pinning succeed exactly with a pointer in hand, counted from New, Copy, Drop, Assign, Follow and Write; new ids are new; dropping, assigning, unpinning and writing need what they say and succeed where no pin stands in the way |
| SwapReplies.ReadsWhatWasGiven | client/swap_space.hpp:189-203 | whatever else is done, and to whichever objects, a Look or Open replies what the last successful Write to that object wrote, or what it was made with; refused exactly without a pin |
| SwapReplies.HeapTold | client/swap_space.hpp:279-333 | contents, pointers in hand, pins and open references of the plain heap are those the commands and replies add up to |
| SwapReplies.HandNext | client/swap_space.hpp:279-333 | pointers in hand after each command |
| SwapRuns.PerformAccess | client/swap_space.hpp:189-203 | an access through a pin reads the plain heap; a non-const one leaves the object open for writing |
| SwapRuns.PerformWrite | client/swap_space.hpp:197-203 | a write through a reference obtained earlier under the same pin is not lost, whatever was evicted in between; it is no access |
| SwapRuns.PerformAssign | client/swap_space.hpp:322-333 | an assignment replies and acts as on the plain heap |
| SwapRuns.OpenAlive | client/swap_space.cpp:116-120 | an object open for writing is still in memory, dirty, and holds what the plain heap does |
| SwapTheorems.AliveIffReachable | client/swap_space.hpp:279-333 | acyclic: an object exists exactly when a pointer held outside leads to it |
| SwapTheorems.AllGone | client/swap_space.hpp:292-320 | no pointer left: no object, no file |
| SwapTheorems.ReferencesCounted | client/swap_space.hpp:374-392 | each count is the number of pointers outside, plus those in objects in memory, plus those in images of the others |
| SwapTheorems.NeverWithout | client/swap_space.cpp:96-109 | at every moment of a write-back there is a file with the old image or with the new content |
| SwapTheorems.ReplayAll | client/swap_space.cpp:96-109 | the events of a write-back make the files what eviction makes them |
| SwapTheorems.FilesExact | client/swap_space.cpp:96-109 | the files are exactly the non-zero image ids of the objects, no two objects sharing one |
| SwapTheorems.DropDies | client/swap_space.hpp:292-320 | dropping a pointer leaves exactly the objects that can be reached without it |
| SwapTheorems.DropCounted | client/swap_space.hpp:302-314 | from a right counter, a drop leaves it right exactly when every evicted leaf can be reached without the dropped pointer |
| SwapTheorems.AssignCounted | client/swap_space.hpp:322-333 | from a right counter, an assignment, null pointers included, leaves it right exactly when every evicted leaf can be reached with the pointer changed |
| SwapTheorems.CounterRight | client/swap_space.hpp:302-314 | the counter is the number of objects in memory exactly when the evicted leaves freed so far are a multiple of 2^64, none included |
| SwapTheorems.CounterWraps | client/swap_space.hpp:302-314 | one object allocated, evicted and dropped leaves a counter of 2^64 - 1 with nothing in memory |
| SwapSpaces.SwapSpace.constructor | client/swap_space.cpp:53-59 | an empty swap space keeps the invariant |
| SwapSpaces.SwapSpace.WriteBack | client/swap_space.cpp:78-110 | a dirty object gets a new image before the old one is deleted, in that order; a clean one keeps its image; either way the pointers of the copy in memory are null afterwards |
| SwapSpaces.SwapSpace.Evict | client/swap_space.cpp:123-129 | the copy in memory is destroyed, pointers and all, and yet no count changes; nothing changes in the plain heap and the invariant is kept |
| SwapSpaces.SwapSpace.EvictOne | client/swap_space.cpp:115-129 | the victim is the least recently accessed unpinned object; none exactly when all are pinned |
| SwapSpaces.SwapSpace.MaybeEvictSomething | client/swap_space.cpp:112-131 | EvictedTo: ends at the limit or with everything resident pinned; nothing happens below the limit; pinned objects stay, and those that leave are older than the unpinned ones that stay |
| SwapSpaces.SwapSpace.EvictAll | client/swap_space.cpp:133-152 | the same with a limit of nothing |
| SwapSpaces.SwapSpace.SetCacheSize | client/swap_space.cpp:72-76 | the same with the new limit |
| SwapSpaces.SwapSpace.Pin | client/swap_space.hpp:241-251 | one more pin and nothing else |
| SwapSpaces.SwapSpace.Unpin | client/swap_space.hpp:229-239 | one pin less; content kept, and eviction as above follows |
| SwapSpaces.SwapSpace.Touch | client/swap_space.hpp:253-260 | loads if needed, most recent in the queue, dirty if written; reads the plain heap |
| SwapSpaces.SwapSpace.Access | client/swap_space.hpp:189-203 | reads the plain heap; the object has the newest access time, is last in the queue and still in memory after the eviction that follows; no other access time changes |
| SwapSpaces.SwapSpace.Allocate | client/swap_space.hpp:399-413 | a fresh id, one pointer, the new content, the newest access time; everything else kept; eviction follows |
| SwapSpaces.SwapSpace.Copy | client/swap_space.hpp:279-286 | one more reference to the object and one more pointer |
| SwapSpaces.SwapSpace.Depoint | client/swap_space.hpp:292-320 | a null pointer has no effect; otherwise one pointer less, the objects that die are the only change, counts exact, and each evicted leaf among them is noted |
| SwapSpaces.SwapSpace.FindRefs | client/swap_space.hpp:302-309 | the pointers of a dying object, right also when an evicted leaf is not loaded |
| SwapSpaces.SwapSpace.Reclaim | client/swap_space.hpp:299-317 | frees the object and, recursively, what only it held; terminates; notes exactly the evicted leaves among them |
| SwapSpaces.SwapSpace.DropAll | client/swap_space.hpp:312-313 | destroying a content gives up its pointers one by one; if all are null nothing changes, whatever state the tables are in |
| SwapSpaces.SwapSpace.Finish | client/swap_space.hpp:314-316 | decrements the counter and deletes the image, if there is one |
| SwapSpaces.SwapSpace.Drop | client/swap_space.hpp:288-290 | destroying a pointer keeps the invariant and every other object's content, and notes exactly the evicted leaves freed |
| SwapSpaces.SwapSpace.Assign | client/swap_space.hpp:322-333 | the new target outlives the drop of the old one; the evicted leaves freed are noted |
| SwapSpaces.SwapSpace.Mutate | client/swap_space.hpp:197-203 | writing through a non-const pin writes the plain heap and moves pointers in and out |
| SwapSpaces.BackingStore.Allocate | client/backing_store.cpp:15-22 | ids in order, never reused |
| SwapSpaces.BackingStore.Deallocate | client/backing_store.cpp:24-27 | removes the one file |
| SwapStates.EvictKeeps | client/swap_space.cpp:78-131 | once the copy is gone, images, ownership of files, queue and counts are as they should be |
| SwapStates.NulledNull | client/swap_space.hpp:374-381 | serialising nulls every pointer of the copy |
| SwapStates.AccessKeeps | client/swap_space.hpp:253-262 | so does an access, which finds the plain heap's content |
| SwapStates.WriteKeeps | client/swap_space.hpp:197-203 | so does a write under a non-const pin |
| SwapStates.RemoveKeeps | client/swap_space.hpp:310-311 | so does taking a dying object out, whose pointers then stand on their own |
| SwapStates.DeleteKeeps | client/swap_space.hpp:315-316 | so does deleting its image |
| SwapStates.VictimOldest | client/swap_space.cpp:116-120 | the first unpinned object of the queue is the least recently accessed one |
| Serial.NodeRoundTrip | client/betree.hpp:625-638 | a node written and read back is the same node, with any suffix, for all key and value types that read back |
| Serial.SwapOutAndIn | client/swap_space.cpp:91-102 | the same through the loops, for string keys and values of any bytes |
| Serial.MapRoundTrip | client/swap_space.hpp:112-145 | a map reads back whatever order it is listed in, stopping right behind it |
| Serial.EntryRoundTrip | client/swap_space.hpp:119-124 | one entry reads back |
| Serial.StringRoundTrip | client/swap_space.cpp:27-47 | a string of any bytes reads back exactly, with any suffix |
| Serial.NatRoundTrip | client/swap_space.cpp:3-13 | a printed number reads back, if something other than a digit follows |
| Serial.DecimalIff | client/swap_space.cpp:3-7 | a number is printed as the one string of digits without leading zero whose digits, each times its power of ten, add up to it |
| Serial.ValueOfPlaces | client/swap_space.cpp:9-13 | digits read one after the other are worth their places |
| Serial.ReadNatIff | client/swap_space.cpp:9-13 | reading accepts exactly white space, digits worth at most the maximum and something else behind, and yields what they are worth |
| Serial.MapText | client/swap_space.hpp:112-126 | the text of a map: its size, a line per entry in order, a brace |
| Serial.ChildText | client/betree.hpp:196-200 | the line of a child: key, object and size |
| Serial.MessageText | client/betree.hpp:92-158 | the line of a message: timestamp, key, opcode and value |
| Serial.NumberFaithful | client/swap_space.cpp:3-13 | 64-bit numbers read back and ignore white space in front |
| Serial.OpcodeFaithful | client/betree.hpp:150-158 | so do opcodes |
| Serial.PairFaithful | client/betree.hpp:92-100 | two texts that read back do so one after the other |
| Serial.NodeCodecsFaithful | client/betree.hpp:196-205 | children, message keys and messages read back |
| Serial.Stream.SerializeMap | client/swap_space.hpp:112-126 | the loop appends the map's text |
| Serial.Stream.DeserializeMap | client/swap_space.hpp:128-145 | the loop reads as specified and fails exactly when that does |
| Serial.Stream.SerializeNode | client/betree.hpp:625-630 | appends the node's text |
| Serial.Stream.DeserializeNode | client/betree.hpp:632-638 | reads as specified and fails exactly when that does |
| PathKeys.SplitPath | client/filesystem.hpp:18-28 | the loop cuts the path as specified |
| PathKeys.SplitJoin | client/filesystem.hpp:18-28 | joining the tokens restores the path up to one trailing slash |
| PathKeys.SameTokens | client/filesystem.hpp:18-28 | different paths have the same tokens exactly when they differ by a trailing slash |
| PathKeys.TokensApart | client/filesystem.hpp:18-28 | no token holds a slash, and there is one for every slash and one more if something is behind the last |
| PathKeys.StringLessIff | client/filesystem.hpp:36-37 | strings are in dictionary order: at the first difference the one that ends or has the smaller character comes first |
| PathKeys.KeyLessIff | client/filesystem.hpp:30-41 | shallower keys come first, equally deep ones by the first tokens that differ, in dictionary order |
| PathKeys.Less | client/filesystem.hpp:30-41 | the loop with its 8-bit index returns whether the first key comes before the second: shallower, or smaller at the first token that differs |
| PathKeys.Greater | client/filesystem.hpp:43-54 | is the converse, in the same terms |
| PathKeys.GoesRound | client/filesystem.hpp:35-38 | comparing never ends exactly when 256 tokens or more agree on the first 256 |
| PathKeys.LessTotal | client/filesystem.hpp:30-41 | different keys compare; both ways round exactly for a trailing slash |
| PathKeys.LessTransitive | client/filesystem.hpp:30-41 | "less" passes on except back to the same key |
| PathKeys.OrderedIff | client/filesystem.hpp:30-58 | operator< returns on any two paths of a set and is a strict total order on it exactly when no path is in it with and without its slash and no two equally deep ones agree on the first 256 tokens |
| PathKeys.EndlessIff | client/filesystem.hpp:35-38 | those are exactly the pairs on which it does not return |
| PathKeys.NeverDecides | client/filesystem.hpp:35-38 | 256 slashes before "a" and before "b" are such a pair |
| PathKeys.KeyRoundTrip | client/filesystem.hpp:64-72 | a stored key reads back exactly when it is one word |
| PathKeys.SpaceInPath | client/filesystem.hpp:64-72 | a path with a space in it is not |
| PathKeys.LoadedIff | client/filesystem.hpp:69-72 | keys read back are ordered exactly when there are no two different ones |

## Left out

- `merge`, `merge_small_children` and the `child_size` they read (client/betree.hpp:382-420): never called; `child_size` is modelled only as stored text.
- How `is_dirty` and `is_in_memory` come out of the swap space: the tree's results hold for every sequence of replies.
- Betrees.Betree.Upsert: nothing is said of the size of the root for maxima 4 to 9, 11 and 14, whose splits may give more pieces than messages and one.
- Witnesses.StoppedRun: for maxima 3 and 4 only the other half is proved, that no run is stopped without a yes after a no.
- Splitting.SplitArithmetic: does not model overflow of the 32-bit `int` the source keeps the number of pieces and the things moved in, which takes nodes of 2^30 things (IntsFit).
- Betrees.Betree.Upsert: does not model the timestamp counter wrapping around after 2^64 - 1 operations; it requires room for one more.
- SwapSpaces.SwapSpace.Mutate: takes the content a caller writes as a value; the calls of the tree between a pin and its unpin are not composed with the tree's own model.
- SwapSpaces.SwapSpace.Pin: pins are explicit steps; copy elision and temporary lifetimes of C++ pins are not modelled.
- SwapReplies.AnswersRight: where a pin stands in the way, which of dropping, assigning, unpinning and writing are refused is not said; the source has no such refusals.
- SwapRuns.Run: a command that would take away the pointer a pin was made from, or the pin on the object that pointer is in, is refused; the source's pins are temporaries that go before either does.
- SwapSpaces.BackingStore.Allocate: a file is a value, not a text on a disk; writing, flushing and closing files, and I/O errors, are not modelled.
- Serial.SwapOutAndIn: negative numbers and signs are not read, because none are written; the `pointer` form of serialising (client/swap_space.hpp:147-160) is not used by nodes.
- Wrap-around of reference counts, pin counts, object ids and access times at 2^64; the counter of objects in memory does wrap around in the model.
- Self-assignment of pointers, assignment of pins and the null swap space of default pointers: they only add easy members.
- `dump_messages`, debugging output, timers, benchmarks and argument handling: output and user interface.
- The network layer, the storage client and the server: wrappers over libraries, whose replies the client only logs.
