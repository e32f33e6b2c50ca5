# Algorithms of a set-top-box software tree, modelled and proved in Dafny

The tree holds drivers, a video recorder, firmware tools and build scripts. This project models the
parts of it that are real algorithms and proves what they are for. Each group of modules follows one
source file: specification functions say what the code computes, classes and methods repeat its loops
and its updates in place and are proved against those functions, and lemmas about the functions state
the properties.

- **Transport stream** (`PtiStream`, `PtiPackets`, `PtiDriver`, `PtiMisread`). Hardware, poll timer and injector
  thread are one state machine of small steps in any order; the driver's code for a whole poll and a
  whole injector pass is proved to be exactly those steps. Delivery holds under conditions on single
  steps, named in `Env`: the hardware overwrites no byte before it was consumed, fewer than 400 entries
  are outstanding when one is stored and when the injector looks for one, and a poll does not sample
  the pointers in the state `Misread`. A run that meets them up to a misreading poll is given.
- **PID slots** (`PtiSlots`, `PtiSlotEffects`). The table that the firmware reads, with the state between
  the two writes of each change.
- **Dependency graph** (`DepGraph`, `DepGraphEnds`, `DepGraphRepeats`, `DepGraphWalk`). The walk with an
  explicit stack that deletes edges of the graph it walks over, exactly when it ends, and what it leaves.
- **SHA-1** (`Sha1Bits`, `Sha1Rounds`, `Sha1Stream`, `Sha1`, `Sha1Known`). The unrolled transform against the loop
  of FIPS 180-4, and the streaming functions against the padded message. Which byte order `blk0`
  loads is a parameter.
- **Channel list** (`ChannelText`, `ChannelLine`, `ChannelOldLine`, `ChannelKnown`, `ChannelRecord`,
  `ChannelIndex`, `ChannelNumbers`, `ChannelList`). The line of a channel and back, the numbering, and the
  hash over service ids beside the list.
- **Compressed block device** (`Zram`). The table refines a map from page numbers to contents while
  five counters and the allocators' live memory stay exact.
- **Cutter** (`CutterPlan`, `CutterCopy`, `Cutter`). Which frames, files, index and marks a list of editing marks
  leads to, and the loop that produces them.
- **Firmware container** (`Fup`, `FupBytes`, `Xor16`, `Crc16`, `Xor32`, `Crc32`). Creating and extracting a container, and
  the checks in it.
- **Smart card** (`ByteInvert`, `SmartCard`, `SmartCardEffects`, `SmartCardDriver`, `Atr`, `AtrAccepted`,
  `AtrRecord`). The half-duplex
  transfer with interrupts between any two steps of a read, and the answer to reset of section 8.2 of
  ISO/IEC 7816-3.
- **Version order** (`VersionOrder`, `VersionNumbers`). The comparison of package versions, which pads to the longer
  version and puts suffixes back behind the padding, and its memory.

`Common` holds what several of them share. `PtiPackets`, `PtiSlotEffects`, `Sha1Known`, `ChannelKnown`,
`CutterCopy`, `FupBytes`, `SmartCardEffects`, `AtrAccepted`, `ChannelNumbers` and `VersionNumbers` say in
numbers, bytes and characters what the specification functions of the other modules give, without them.

## What turned out not to hold

Some properties one would expect are not true of the code. For each the project proves exactly when the
code does what it should.

- `CountIsExact`, `SampleKeepsInvIff`, `MisreadIsReached`: a write pointer read as the top of the ring
  while the reader is at either end counts as a full ring; if there is no unread packet all of the ring
  is queued a second time. A full ring is counted as empty if the register has wrapped.
- `FullQueueLosesSignal`, `CheckDiscardsIff`, `SemaphoreIsDistance`: the 400th outstanding entry makes
  the queue look empty, and its signal is lost.
- `SetPidOkIff`, `FreeSlotOkIff`, `ReservedPidLeaks`: a second PID on one slot, and the PID 0xFFFF,
  leave table entries without an owner. `MatchedAlways`: whatever is called, the slots keep entries of
  their own.
- `EndsIff`: on a graph that lists neighbours twice the walk ends exactly if the walk over the same
  graph without repeats, which always ends, deletes all the edges listed twice at reachable nodes,
  self-loops apart. `RepeatNeverEnds`, `NoWayBackNeverEnds`: so it goes on for ever if the walk cannot
  have come through such a neighbour. `TwiceBackEnds` is a graph with a repeat on which it ends. Where
  it ends it leaves and prints what the walk without repeats does, but may lose a self-loop that is
  listed twice (`EndsAlike`, `LoopsGone`).
- `FillTestIsExact`: a piece whose length makes the 32-bit sum wrap is mistaken for one that fits.
- `HeaderCountIsExact`, `AllUsedIff`: the block count is kept in sixteen bits, the argument count in
  eight.
- `VideoBackIff`, `VideoLost`: the video field is cut to 31 characters, so that three PIDs and types of
  ten digits lose the last digit of the type.
- `VideoBackIff`, `CaBackIff`, `SeparatorBackIff`: what a channel line cannot bring back. A comma in the
  name of a group separator grows by another one with every save, since the comma is added for
  separators too and never taken off; and loading takes the space off the end of its name.
- `OldFormatParses`: of a line in the old format the access id is stored as the teletext PID as well: the
  assignment of zero meant to prevent it comes before the field is read again.
- `MatchesIff`: once a look-up has tried without the radio id, its last pass looks for a radio id of zero.
- `SetIdKeepsIff`: changing the id of a numbered separator puts it into the hash.
- `ExactlyMarkedIff`, `OkIff`: an empty interval still gets a frame, and a cut-out behind which no
  independent frame follows ends in an error although all its frames are there. `LastIFrameIs`: the
  cut-out mark uses 0 for "none", so frame 0 counts as none.
- `ByteLostIff`: an interrupt that takes a byte between the test `rx_wptr == rx_rptr` and the second of
  the assignments behind it loses that byte. `OverlongIff`: a read of more than 1024 bytes gets
  1024, and behind the answer that is there it gets what the buffer held before.
- `WriteDropsIff`, `FirstOfTwoDropped`: a write does not wait for the FIFO and clears what is still in
  it, so that the end of the message before is never sent.
- `RaisesIff`: the suffix names `cvs`, `bk` and `HEAD` are accepted as valid but have no weight, and
  raise an exception when the comparison gets as far as the suffix.

## Model

| member | source | states |
|---|---|---|
| `DepGraphWalk.Grapher.DFS` | tdt/cvs/cdk/dep-graph.py:166-195 | on every graph on which its iterations end, and only there, the walk ends; afterwards the original reachability is kept, the lists of nodes not reached are as before, only self-loops are left among reachable nodes, every other deleted edge closed a loop, and each kept reachable edge was printed once; without repeated neighbours the lists are the old ones without the deleted edges |
| `DepGraphWalk.Grapher.PrintCmd` | tdt/cvs/cdk/dep-graph.py:197-199 | appends the edge from the last node of the walk to the current one, and nothing for the start |
| `DepGraph.DoneBreaksLoops` | tdt/cvs/cdk/dep-graph.py:180-184 | a walk that has come to its end satisfies the whole of `LoopsBroken`, whatever steps led there |
| `DepGraph.ReachabilityKept` | tdt/cvs/cdk/dep-graph.py:166-195 | what the start reached over the original edges it still reaches over the kept ones |
| `DepGraph.OnlySelfLoopsLeft` | tdt/cvs/cdk/dep-graph.py:166-195 | a path along kept edges from a reachable node back to itself has a single node |
| `DepGraph.EveryCutClosedALoop` | tdt/cvs/cdk/dep-graph.py:187-192 | putting a deleted edge back would close a loop through it |
| `DepGraph.PrintedOnce` | tdt/cvs/cdk/dep-graph.py:180-199 | the printed edges are, as a multiset, the kept edges that leave reachable nodes |
| `DepGraph.DownInv` | tdt/cvs/cdk/dep-graph.py:186-195 | going down a new edge keeps the invariant of the walk and makes the set of pending edges smaller |
| `DepGraph.CutInv` | tdt/cvs/cdk/dep-graph.py:189-192 | deleting an edge to the current path keeps the invariant and makes the set of pending edges smaller |
| `DepGraph.UpInv` | tdt/cvs/cdk/dep-graph.py:180-185 | going back keeps the invariant; the node left is finished behind all its kept neighbours |
| `DepGraphEnds.EndsWithoutRepeats` | tdt/cvs/cdk/dep-graph.py:166-195 | without repeated neighbours at reachable nodes the iterations come to an end |
| `DepGraphRepeats.EndsIff` | tdt/cvs/cdk/dep-graph.py:166-195 | the walk over any graph ends if and only if the walk over the graph without repeats, which always ends, deletes every edge listed twice at a reachable node, self-loops apart |
| `DepGraphWalk.EndsAlike` | tdt/cvs/cdk/dep-graph.py:166-195 | a walk that is over has printed the edges that the walk without repeats prints, and has kept the same edges apart from self-loops |
| `DepGraphWalk.EndedGone` | tdt/cvs/cdk/dep-graph.py:166-195 | so on any graph on which it ends it keeps reachability, leaves only self-loops, and prints every kept edge of a reachable node once |
| `DepGraphRepeats.FallenNeverOver` | tdt/cvs/cdk/dep-graph.py:172-178 | a walk that stands at a neighbour it has gone down to before and that is not on its path never ends |
| `DepGraphRepeats.CutGone` | tdt/cvs/cdk/dep-graph.py:189-192 | `remove` deletes the entry at the position or an earlier equal one, and the position found by value afterwards stands in front of the same rest |
| `DepGraphRepeats.CrossedStays` | tdt/cvs/cdk/dep-graph.py:186-195 | without repeats an edge gone down is never deleted later |
| `DepGraphEnds.RepeatNeverEnds` | tdt/cvs/cdk/dep-graph.py:172-178 | a reachable node with a repeated neighbour that no way without return leads through before it: after any number of iterations the walk is not over |
| `DepGraphEnds.NoWayBackNeverEnds` | tdt/cvs/cdk/dep-graph.py:172-178 | in particular if the repeated neighbour does not reach the node |
| `DepGraphEnds.TwiceTheSameNeverEnds` | tdt/cvs/cdk/dep-graph.py:172-178 | the smallest graph on which the walk never ends |
| `DepGraphEnds.TwiceBackEnds` | tdt/cvs/cdk/dep-graph.py:187-192 | a graph with a repeated neighbour on the path, whose entries are both deleted, on which it ends |
| `DepGraphEnds.RemoveBehind` | tdt/cvs/cdk/dep-graph.py:173-192 | deleting the entry at the position keeps the neighbour taken last in the list, so that the look-up never fails, and loses nothing behind it |
| `DepGraphEnds.OverSawAll` | tdt/cvs/cdk/dep-graph.py:166-195 | on any graph, a walk that is over has been at every reachable node and has gone through its list |
| `PtiStream.MaskedTestIsExact` | tdt/cvs/driver/pti/pti_main.c:549 | for a read pointer on a packet boundary the comparison without the low four bits is the comparison with the top |
| `PtiStream.CountIsExact` | tdt/cvs/driver/pti/pti_main.c:549-562 | a poll counts exactly the unread packets if and only if the pointers read as a full ring when the ring is full and only then; otherwise it counts the whole ring for none or none for the whole ring |
| `PtiStream.SampleKeepsInvIff` | tdt/cvs/driver/pti/pti_main.c:546-578 | a poll keeps the invariant if and only if it does not take the empty ring for a full one |
| `PtiMisread.MisreadIsReached` | tdt/cvs/driver/pti/pti_main.c:330-606 | from every initial state a run within the conditions leads to the state in which the next poll misreads the pointers |
| `PtiStream.EntriesCover` | tdt/cvs/driver/pti/pti_main.c:549-597 | the one or two entries of a poll cover exactly the unread interval of the stream, cut once at the wrap |
| `PtiStream.PacketIsNext` | tdt/cvs/driver/pti/pti_main.c:375-483 | the packet at the injector's position is the next packet of the stream, still unharmed in the ring |
| `PtiStream.PackedHolds` | tdt/cvs/driver/pti/pti_main.c:398-481 | one packet moves to the buffer or the output of its tag only, and a batch leaves exactly when twenty are together |
| `PtiStream.StepKeepsInv` | tdt/cvs/driver/pti/pti_main.c:330-606 | every step of hardware, poll and injector, in any order within the conditions, keeps the invariant that ties ring, queue, indices, semaphore, buffers and output to the stream |
| `PtiStream.Delivery` | tdt/cvs/driver/pti/pti_main.c:330-606 | in every interleaving within the conditions, whenever the injector is between iterations a registered demux has received exactly its tag's payloads of the finished entries, in order, each once, in batches of one to twenty, and an unregistered one nothing |
| `PtiStream.DeliveryAlways` | tdt/cvs/driver/pti/pti_main.c:330-606 | at any moment the bytes received and the bytes in the tag's buffer together are the payloads due |
| `PtiPackets.PacketsDelivered` | tdt/cvs/driver/pti/pti_main.c:390-483 | for any stream of packets given by first byte 64 hi + 4 tag + lo, five more bytes and 188 bytes of payload: a registered demux has the payloads with its tag of the packets dealt with so far, each once and in order, in calls of one to twenty; an idle system has dealt with every packet of the last poll |
| `PtiPackets.TagAndPayload` | tdt/cvs/driver/pti/pti_main.c:398-460 | the tag are bits 2 to 5 of the first byte, and the payload is what follows the sixth |
| `PtiPackets.TwentyTogether` | tdt/cvs/driver/pti/pti_main.c:466-483 | in the middle of an entry something leaves exactly with the twentieth payload of a registered tag, and then all twenty together |
| `PtiStream.SemaphoreIsDistance` | tdt/cvs/driver/pti/pti_main.c:334-498 | with the injector waiting and no signal due the semaphore is the distance of the two indices modulo 400 exactly unless 400 entries are outstanding |
| `PtiStream.NothingLeftBehind` | tdt/cvs/driver/pti/pti_main.c:330-606 | an idle injector with the semaphore at zero and no poll under way has delivered every packet polled |
| `PtiStream.CheckDiscardsIff` | tdt/cvs/driver/pti/pti_main.c:337-346 | the equality test takes an entry for an empty queue exactly when the outstanding entries are a multiple of 400 |
| `PtiStream.FullQueueLosesSignal` | tdt/cvs/driver/pti/pti_main.c:337-346 | with 400 entries outstanding a signal is lost and the semaphore no longer counts the queue |
| `PtiDriver.PolledOutcome` | tdt/cvs/driver/pti/pti_main.c:546-598 | the outcomes of an uninterrupted poll: only a rewound pointer, one posted entry, or two around the wrap |
| `PtiDriver.Driver.ProcessPtiDma` | tdt/cvs/driver/pti/pti_main.c:513-606 | the timer function on the driver's variables is exactly one whole poll of the machine |
| `PtiDriver.Driver.Measure` | tdt/cvs/driver/pti/pti_main.c:519-559 | aligned write pointer, rewound read pointer, packet count and wrap flag are those of the machine |
| `PtiDriver.Driver.Notify` | tdt/cvs/driver/pti/pti_main.c:580-598 | the entries are posted in the order and with the fields of the machine's steps |
| `PtiDriver.Driver.Post` | tdt/cvs/driver/pti/pti_main.c:582-596 | offset, count, write index and semaphore change as in the four steps of one entry |
| `PtiDriver.Driver.InjectNext` | tdt/cvs/driver/pti/pti_main.c:334-498 | one pass of the endless loop is one whole pass of the machine, and only takes the signal when the indices are equal |
| `PtiDriver.Driver.InjectEntry` | tdt/cvs/driver/pti/pti_main.c:349-498 | from reading the entry at the read index to moving the index |
| `PtiDriver.Driver.InjectPackets` | tdt/cvs/driver/pti/pti_main.c:375-494 | the packets of one entry followed by the remainders of all tags |
| `PtiDriver.Driver.SortPackets` | tdt/cvs/driver/pti/pti_main.c:390-483 | the packet loop with its moving pointers leaves the buffers, counts and output of the machine's packet steps |
| `PtiDriver.Driver.SortPacket` | tdt/cvs/driver/pti/pti_main.c:398-482 | one packet changes buffer, count and output as the machine's step does |
| `PtiDriver.Driver.Append` | tdt/cvs/driver/pti/pti_main.c:459-460 | the payload is copied behind the bytes the tag's buffer already holds, and no other buffer changes |
| `PtiDriver.Driver.FlushRemainders` | tdt/cvs/driver/pti/pti_main.c:484-494 | what is left in the buffers is handed on tag by tag |
| `PtiSlots.SetPidOkIff` | tdt/cvs/driver/pti/pti_main.c:948-990 | setting a PID keeps the one-to-one correspondence of slots and table exactly when the slot found has no PID yet |
| `PtiSlots.ClearPidOk` | tdt/cvs/driver/pti/pti_main.c:884-911 | deleting by moving the last PID keeps the correspondence, removes exactly that PID, and leaves the other slots' PIDs alone |
| `PtiSlots.FreeSlotOkIff` | tdt/cvs/driver/pti/pti_main.c:918-934 | freeing keeps the correspondence exactly unless the slot holds the reserved PID |
| `PtiSlots.ReservedPidLeaks` | tdt/cvs/driver/pti/pti_main.c:884-930 | setting the reserved PID on a fresh slot and freeing it leaves it in the table without an owner |
| `PtiSlots.GapFilledKeeps` | tdt/cvs/driver/pti/pti_main.c:895-898 | between the two writes of a deletion every other PID is still collected and none is new |
| `PtiSlots.TableFits` | tdt/cvs/driver/pti/pti_main.c:948-990 | the table never has more than 32 entries, and a slot without a PID leaves room for one |
| `PtiSlots.SequencesKeepCorrespondence` | tdt/cvs/driver/pti/pti_main.c:874-1013 | after any sequence of slot operations that sets PIDs on slots without one and never the reserved one, slots and table correspond one to one with distinct PIDs |
| `PtiSlots.MatchedAlways` | tdt/cvs/driver/pti/pti_main.c:874-1013 | after any operation, also a second PID on a slot or the reserved one, each slot with an index has an entry of its own with its PID, and no PID is collected twice |
| `PtiSlots.StartOk` | tdt/cvs/driver/pti/pti_main.c:822-835 | the table set up at start satisfies the correspondence |
| `PtiSlotEffects.SetPidCollects` | tdt/cvs/driver/pti/pti_main.c:948-990 | a PID is set exactly if the handle is that of a slot in use and nobody collects it yet; then it is collected behind the others, the slot knows where, and nothing else changes |
| `PtiSlotEffects.NewSlotTaken` | tdt/cvs/driver/pti/pti_main.c:992-1013 | exactly the first slot not in use is taken, without a PID |
| `PtiSlotEffects.ClearPidRemoves` | tdt/cvs/driver/pti/pti_main.c:874-916 | a slot with an index and a PID other than 0xFFFF gives its PID up and all others stay collected; otherwise nothing changes |
| `PtiSlotEffects.FreeSlotReleases` | tdt/cvs/driver/pti/pti_main.c:918-934 | a freed slot is not in use, has no index and the PID 0xFFFF, and only its own PID is no longer collected, unless it was 0xFFFF |
| `PtiSlots.Controller.PtiWrite` | tdt/cvs/driver/pti/pti_main.c:151-160 | writing one half-word through the word changes that half-word and no other |
| `PtiSlots.Controller.SlotSetPid` | tdt/cvs/driver/pti/pti_main.c:948-990 | the method on firmware memory and slots is the table operation, and in between the two writes the firmware sees the PIDs as before |
| `PtiSlots.Controller.SlotClearPid` | tdt/cvs/driver/pti/pti_main.c:874-916 | the method is the table operation; in between the two writes every PID but the one removed is collected |
| `PtiSlots.Controller.Reindex` | tdt/cvs/driver/pti/pti_main.c:901-911 | the slot of the moved PID takes over the freed index, found as the first with the last index |
| `PtiSlots.Controller.SlotFree` | tdt/cvs/driver/pti/pti_main.c:918-934 | clears only if an index is set, then releases the slot |
| `PtiSlots.Controller.GetNewSlotHandle` | tdt/cvs/driver/pti/pti_main.c:992-1013 | the first slot not in use is taken and its handle returned, or -1 |
| `Sha1Rounds.Blk` | tdt/flash/common/mup.src/sh1.h:57-58 | the circular update stores the schedule word of the standard over the oldest one |
| `Sha1Rounds.R0` | tdt/flash/common/mup.src/sh1.h:61 | one operation of the first sixteen is one step of the standard with renamed words |
| `Sha1Rounds.R1` | tdt/flash/common/mup.src/sh1.h:62 | operations 16 to 19, with a schedule word |
| `Sha1Rounds.R2` | tdt/flash/common/mup.src/sh1.h:63 | operations 20 to 39 |
| `Sha1Rounds.R3` | tdt/flash/common/mup.src/sh1.h:64 | operations 40 to 59, with the majority written as in the macro |
| `Sha1Rounds.R4` | tdt/flash/common/mup.src/sh1.h:65 | operations 60 to 79 |
| `Sha1Rounds.Operations0` | tdt/flash/common/mup.src/sh1.cpp:36-40 | twenty unrolled operations with rotated register names are twenty steps of the standard's loop |
| `Sha1Rounds.Operations20` | tdt/flash/common/mup.src/sh1.cpp:41-45 | the second twenty |
| `Sha1Rounds.Operations40` | tdt/flash/common/mup.src/sh1.cpp:46-50 | the third twenty |
| `Sha1Rounds.Operations60` | tdt/flash/common/mup.src/sh1.cpp:51-55 | the last twenty |
| `Sha1Rounds.Transform` | tdt/flash/common/mup.src/sh1.cpp:14-64 | for every hash value and every sixteen loaded words the transform gives the compression of section 6.1.2 of FIPS 180-4 with its 80-word schedule |
| `Sha1.TransformBlock` | tdt/flash/common/mup.src/sh1.cpp:14-64 | the transform used by the streaming layer, for either byte order of the load |
| `Sha1Stream.CounterStep` | tdt/flash/common/mup.src/sh1.cpp:88-89 | the two-word update with its carry adds the length in bits modulo 2^64 |
| `Sha1Stream.CounterIsBitLength` | tdt/flash/common/mup.src/sh1.cpp:88-89 | after any number of pieces the two counter words are the bit length modulo 2^64 |
| `Sha1Stream.FillTestIsExact` | tdt/flash/common/mup.src/sh1.cpp:90 | the 32-bit sum decides correctly whether a piece fills the buffer exactly when it does not wrap |
| `Sha1Stream.LengthFromWords` | tdt/flash/common/mup.src/sh1.cpp:110-113 | the eight length bytes taken from the counter words are the big-endian bit length |
| `Sha1Stream.PadTest` | tdt/flash/common/mup.src/sh1.cpp:115 | the loop test on the low counter word sees the end of the padding |
| `Sha1Stream.Context.Init` | tdt/flash/common/mup.src/sh1.cpp:69-78 | the five initial words and a zero counter: nothing was fed |
| `Sha1Stream.Context.Update` | tdt/flash/common/mup.src/sh1.cpp:83-100 | one piece is appended to the message: whole blocks are hashed, the buffer holds the unprocessed tail and the counter the bit length |
| `Sha1Stream.Context.Count` | tdt/flash/common/mup.src/sh1.cpp:87-89 | the counter words after a piece, and the old position in the buffer |
| `Sha1Stream.Context.HashBlocks` | tdt/flash/common/mup.src/sh1.cpp:93-95 | the loop hashes all whole blocks of the piece and returns where the rest begins |
| `Sha1Stream.Context.Final` | tdt/flash/common/mup.src/sh1.cpp:105-132 | the digest is the fold of the transform over the message padded as in section 5.1.1 of FIPS 180-4 |
| `Sha1Stream.Context.Pad` | tdt/flash/common/mup.src/sh1.cpp:114-117 | the padding loop ends, with the mark and as many zero bytes as the standard asks for |
| `Sha1Stream.Context.Output` | tdt/flash/common/mup.src/sh1.cpp:119-122 | the digest is the hash value, most significant byte first |
| `Sha1Stream.HashPieces` | tdt/flash/common/mup.src/sh1.cpp:83-123 | however a message is cut into pieces, none of which makes the 32-bit sum wrap at its place, the digest is that of the whole message |
| `Sha1.HashMessage` | tdt/flash/common/mup.src/sh1.cpp:69-132 | the same for the program's own transform, for either byte order of the load |
| `Sha1Known.AbcDigest` | tdt/flash/common/mup.src/sh1.cpp:69-132 | the digest of "abc", byte by byte, as appendix A.1 of FIPS 180-2 gives it |
| `Sha1Known.HashAbc` | tdt/flash/common/mup.src/sh1.cpp:69-132 | the program computes it, in whatever pieces the three bytes come |
| `Sha1Known.NextBlock` | tdt/flash/common/mup.src/sh1.cpp:14-64 | each block of sixteen words goes on from the hash value of all blocks in front of it |
| `Sha1Known.LengthIsLength` | tdt/flash/common/mup.src/sh1.cpp:110-113 | the eight bytes of the length field are worth the bit length, the most significant first |
| `Sha1Known.LittleIsBackwards` | tdt/flash/common/mup.src/sh1.h:57-58 | the two byte orders of the load differ in the direction only |
| `ChannelText.ScanfBack` | tdt/cvs/apps/vdr/vdr-1.7.22/channels.c:521-557 | for every format of this shape scanning what was printed gives back every value |
| `ChannelText.ListBack` | tdt/cvs/apps/vdr/vdr-1.7.22/channels.c:277-298 | a PID list of any length up to its limit, with languages and types, comes back from its text, with the default type where there was none |
| `ChannelText.UntypedParses` | tdt/cvs/apps/vdr/vdr-1.7.22/channels.c:606-627 | a list of PIDs with optional languages and no types gives for each its PID, its language and the default type |
| `ChannelLine.NameBack` | tdt/cvs/apps/vdr/vdr-1.7.22/channels.c:473-484 | name, short name and provider come back, also when the name holds commas or colons |
| `ChannelLine.VideoParses` | tdt/cvs/apps/vdr/vdr-1.7.22/channels.c:494-498 | a field that fits its buffer parses to the PID with the defaults for what was not printed; a longer one is cut and parses to another type |
| `ChannelLine.VideoBackIff` | tdt/cvs/apps/vdr/vdr-1.7.22/channels.c:494-498 | PID, clock PID and type come back exactly if no part is missing or zero beside a PID and the printed field has fewer than 32 characters |
| `ChannelLine.VideoLost` | tdt/cvs/apps/vdr/vdr-1.7.22/channels.c:492-499 | three numbers of ten digits are 32 characters, and the type comes back without its last digit |
| `ChannelLine.FewDigitsFit` | tdt/cvs/apps/vdr/vdr-1.7.22/channels.c:500-524 | with PIDs of up to five digits and types of up to four every list fits its buffer, up to its limit of entries |
| `ChannelLine.CaParses` | tdt/cvs/apps/vdr/vdr-1.7.22/channels.c:683-699 | the conditional access ids come back, except those behind a first one of at most 0xFF |
| `ChannelLine.CaBackIff` | tdt/cvs/apps/vdr/vdr-1.7.22/channels.c:683-699 | they all come back exactly if there is at most one or the first is above 0xFF |
| `ChannelLine.RoundTrip` | tdt/cvs/apps/vdr/vdr-1.7.22/channels.c:471-731 | parsing a printed line restores every printed field, for every channel in normal form, whose fields fit their buffers, and every source codec that can read its own text |
| `ChannelLine.PrintedParses` | tdt/cvs/apps/vdr/vdr-1.7.22/channels.c:471-731 | which printed lines are accepted, and as what: all but those with an unknown source, with service id zero, or with network, stream and transponder all zero |
| `ChannelLine.DefaultTypes` | tdt/cvs/apps/vdr/vdr-1.7.22/channels.c:609-650 | without types everything else is restored, and the types become 4 in the audio list and 0x6A in the Dolby list |
| `ChannelOldLine.FewIdsParse` | tdt/cvs/apps/vdr/vdr-1.7.22/channels.c:557-558 | a line of ten to thirteen fields gives every field it has, and the missing ids stay as they were |
| `ChannelOldLine.OldFormatParses` | tdt/cvs/apps/vdr/vdr-1.7.22/channels.c:559-569 | a line of nine fields gives its fields, its access id as the only one, and the service id from its end; the other ids stay as they were, and the teletext PID is the access id |
| `ChannelOldLine.ScanfFew` | tdt/cvs/apps/vdr/vdr-1.7.22/channels.c:557-557 | scanning a text that ends behind an earlier number gives the values up to it |
| `ChannelKnown.RtlParses` | tdt/cvs/apps/vdr/vdr-1.7.22/vdr.5:48-48 | the line the manual explains, character by character, parses to the fields the manual names, with types 4 and 0x6A |
| `ChannelKnown.RtlPrinted` | tdt/cvs/apps/vdr/vdr-1.7.22/vdr.5:48-48 | the channel of that line is printed as it |
| `ChannelKnown.TypedList` | tdt/cvs/apps/vdr/vdr-1.7.22/channels.c:277-298 | PIDs with language and type written out: `80=deu@3,81=@4` |
| `ChannelKnown.ClockAndType` | tdt/cvs/apps/vdr/vdr-1.7.22/channels.c:492-499 | PID, clock PID and type written out: `160+161=27` |
| `ChannelKnown.AccessIds` | tdt/cvs/apps/vdr/vdr-1.7.22/channels.c:517-520 | access ids written out: `ABCD,EF0` |
| `ChannelKnown.Subtitles` | tdt/cvs/apps/vdr/vdr-1.7.22/channels.c:509-516 | teletext and subtitles written out: `32;33=deu` |
| `ChannelKnown.SeparatorWrittenOut` | tdt/cvs/apps/vdr/vdr-1.7.22/channels.c:483-490 | a numbered separator written out, with the colon of its name as a bar |
| `ChannelLine.SeparatorBackIff` | tdt/cvs/apps/vdr/vdr-1.7.22/channels.c:534-547 | saved and loaded, number and name of a group separator come back exactly if the name has no bar, no comma and no newline, starts and ends with no space, and starts with no `@` unless it is numbered |
| `ChannelLine.LineBackIff` | tdt/cvs/apps/vdr/vdr-1.7.22/channels.c:534-547 | the same for the bare line, where space at the end of the name does no harm |
| `ChannelLine.NameFromFile` | tdt/cvs/apps/vdr/vdr-1.7.22/config.h:113-125 | no name that is read from a file ends with space or holds a newline |
| `ChannelLine.SeparatorLineIsPrinted` | tdt/cvs/apps/vdr/vdr-1.7.22/channels.c:486-490 | what is printed for a separator is that line with a newline |
| `ChannelRecord.IntArrayToString` | tdt/cvs/apps/vdr/vdr-1.7.22/channels.c:277-298 | the loop over the zero-terminated arrays prints the entries in front of the first zero, or `0` |
| `ChannelRecord.PrintEntry` | tdt/cvs/apps/vdr/vdr-1.7.22/channels.c:282-292 | one entry: its number, and with a PID its language and type |
| `ChannelRecord.PrintPids` | tdt/cvs/apps/vdr/vdr-1.7.22/channels.c:503-516 | a PID array prints as the list of its entries |
| `ChannelRecord.PrintIds` | tdt/cvs/apps/vdr/vdr-1.7.22/channels.c:518-519 | the conditional access array prints as the list of its ids in hexadecimal |
| `ChannelRecord.ParsePids` | tdt/cvs/apps/vdr/vdr-1.7.22/channels.c:600-680 | the token loop stores the parsed entries up to the limit and ends the list with a zero |
| `ChannelRecord.ParsePid` | tdt/cvs/apps/vdr/vdr-1.7.22/channels.c:609-622 | one token: PID, language cut to seven characters, and a type with its default |
| `ChannelRecord.ParseCaids` | tdt/cvs/apps/vdr/vdr-1.7.22/channels.c:683-699 | the token loop of the conditional access field, with its early exit |
| `ChannelRecord.Channel.constructor` | tdt/cvs/apps/vdr/vdr-1.7.22/channels.c:531-532 | a fresh channel: empty lists and zero fields |
| `ChannelRecord.Channel.ToText` | tdt/cvs/apps/vdr/vdr-1.7.22/channels.c:471-524 | the method on the channel's fields and arrays prints the specified line |
| `ChannelRecord.Channel.Parse` | tdt/cvs/apps/vdr/vdr-1.7.22/channels.c:531-731 | the method succeeds exactly when the specified parse does, and leaves the specified fields |
| `ChannelRecord.Channel.ParseFields` | tdt/cvs/apps/vdr/vdr-1.7.22/channels.c:558-728 | the part behind a successful `sscanf`, in the order of the source with its early returns |
| `ChannelRecord.Channel.ParseGroup` | tdt/cvs/apps/vdr/vdr-1.7.22/channels.c:534-547 | the separator's branch |
| `ChannelRecord.Channel.ParseNames` | tdt/cvs/apps/vdr/vdr-1.7.22/channels.c:701-713 | provider behind the first semicolon, short name behind the last comma in front of it |
| `ChannelRecord.Channel.ParseVideoField` | tdt/cvs/apps/vdr/vdr-1.7.22/channels.c:582-598 | the video field with its two optional parts and their defaults |
| `ChannelRecord.Channel.ParseAudio` | tdt/cvs/apps/vdr/vdr-1.7.22/channels.c:600-657 | audio PIDs, and Dolby PIDs behind the semicolon |
| `ChannelRecord.Channel.ParseSubtitles` | tdt/cvs/apps/vdr/vdr-1.7.22/channels.c:659-682 | teletext PID, and subtitle PIDs behind the semicolon |
| `ChannelRecord.Channel.ParseAccess` | tdt/cvs/apps/vdr/vdr-1.7.22/channels.c:559-569 | conditional access ids and service id, in the new format and in the old one |
| `ChannelRecord.Channel.NameBuffer` | tdt/cvs/apps/vdr/vdr-1.7.22/channels.c:473-485 | the full name with its colons replaced |
| `ChannelRecord.Channel.VideoBuffer` | tdt/cvs/apps/vdr/vdr-1.7.22/channels.c:492-499 | the video field's text, each part cut to what is left of the buffer |
| `ChannelRecord.Channel.HasValidId` | tdt/cvs/apps/vdr/vdr-1.7.22/channels.c:722-725 | whether the channel's id is valid, with the transponder standing in for a missing stream id |
| `ChannelIndex.SetIdKeepsIff` | tdt/cvs/apps/vdr/vdr-1.7.22/channels.c:205-222 | changing an id keeps hash and list together; on a separator exactly if nothing changes or it has no number |
| `ChannelIndex.ReNumberOk` | tdt/cvs/apps/vdr/vdr-1.7.22/channels.c:835-851 | numbering puts hash and numbers in order whatever they were, and changes nothing but numbers of channels |
| `ChannelIndex.NewChannelOk` | tdt/cvs/apps/vdr/vdr-1.7.22/channels.c:950-962 | a new channel is hashed and numbered behind the others, with the id asked for, and no other id changes |
| `ChannelIndex.LookupIsScan` | tdt/cvs/apps/vdr/vdr-1.7.22/channels.c:881-909 | the look-up through one bucket succeeds exactly if a scan of the whole list in three tiers does, with a channel of the same tier |
| `ChannelIndex.DuplicatesGo` | tdt/cvs/apps/vdr/vdr-1.7.22/channels.c:764-781 | removal of duplicates leaves pairwise distinct ids, loses no id and no separator, and keeps the order |
| `ChannelIndex.AlwaysIndexed` | tdt/cvs/apps/vdr/vdr-1.7.22/channels.c:764-963 | after loading and any sequence of id changes, new channels and renumberings the hash holds exactly the channels of the list under their current ids, and numbers increase along the list |
| `ChannelNumbers.ReNumberConsecutive` | tdt/cvs/apps/vdr/vdr-1.7.22/channels.c:835-851 | each channel has one more than the one in front of it, the first has 1, unless a separator between has a larger number, which it then has; the number given last is remembered |
| `ChannelNumbers.AlwaysConsecutive` | tdt/cvs/apps/vdr/vdr-1.7.22/channels.c:764-963 | so it is after loading and any operations |
| `ChannelNumbers.MatchesIff` | tdt/cvs/apps/vdr/vdr-1.7.22/channels.c:884-906 | the three ways to match, field by field |
| `ChannelNumbers.PolarizationIs` | tdt/cvs/apps/vdr/vdr-1.7.22/channels.c:49-54 | above 100000 a stream id counts in steps of 100000 |
| `ChannelList.Channels.HashChannel` | tdt/cvs/apps/vdr/vdr-1.7.22/channels.c:793-796 | the channel goes to the end of its bucket |
| `ChannelList.Channels.UnhashChannel` | tdt/cvs/apps/vdr/vdr-1.7.22/channels.c:798-801 | its first entry goes from its bucket |
| `ChannelList.Channels.SetId` | tdt/cvs/apps/vdr/vdr-1.7.22/channels.c:205-222 | the method is the specified change of id, hash and channel |
| `ChannelList.Channels.ReNumber` | tdt/cvs/apps/vdr/vdr-1.7.22/channels.c:835-851 | the loop over the list computes the specified numbering and hash |
| `ChannelList.Channels.GetByChannelID` | tdt/cvs/apps/vdr/vdr-1.7.22/channels.c:881-909 | the three passes over one bucket |
| `ChannelList.Channels.NewChannel` | tdt/cvs/apps/vdr/vdr-1.7.22/channels.c:950-962 | copies the transponder's data, sets the id, appends and renumbers |
| `ChannelList.Channels.DeleteDuplicateChannels` | tdt/cvs/apps/vdr/vdr-1.7.22/channels.c:764-781 | the walk along the sorted channels deletes the specified duplicates |
| `ChannelList.Channels.Load` | tdt/cvs/apps/vdr/vdr-1.7.22/channels.c:783-791 | duplicates go, then the list is numbered |
| `Zram.FreeOk` | tdt/cvs/driver/compcache/zram_drv.c:132-174 | freeing an entry empties that page of the disk, no other, frees its memory once, and keeps the invariant of table, allocators and counters |
| `Zram.WriteOk` | tdt/cvs/driver/compcache/zram_drv.c:326-427 | writing a segment, in every way it can end, keeps the invariant and every other page; the page then reads back, or is empty if the write failed |
| `Zram.SegmentOk` | tdt/cvs/driver/compcache/zram_drv.c:326-427 | the same for the store seen as a map from page numbers to contents |
| `Zram.WriteCosts` | tdt/cvs/driver/compcache/zram_drv.c:326-427 | a segment is stored exactly if the page is zero, or compresses and finds memory; the entry is a whole page exactly if it compresses to more than 3072 bytes; each counter changes by what the old page took and the new one takes, 4096 bytes for a whole page and the compressed length otherwise |
| `Zram.StoredIff` | tdt/cvs/driver/compcache/zram_drv.c:336-400 | only a compressor that fails, or no memory, keeps a page that is not zero from being stored |
| `Zram.StillLive` | tdt/cvs/driver/compcache/zram_drv.c:498-512 | when the reset reaches an entry its memory is still live, so nothing is freed twice |
| `Zram.AllFreed` | tdt/cvs/driver/compcache/zram_drv.c:498-512 | the table refers to everything live, so nothing is leaked |
| `Zram.NoTable` | tdt/cvs/driver/compcache/zram_drv.c:514-523 | without a table nothing is live and all counters are zero |
| `Zram.Device.ZramFreePage` | tdt/cvs/driver/compcache/zram_drv.c:132-174 | frees what the entry holds and adjusts exactly the counters that counted it |
| `Zram.Device.WriteSegment` | tdt/cvs/driver/compcache/zram_drv.c:326-427 | free, zero test, compression, allocation and copy, with every failure; the segment is stored exactly if the page is zero, or compresses and finds memory, and entry and counters become what `Written` says in numbers |
| `Zram.Device.StoreSegment` | tdt/cvs/driver/compcache/zram_drv.c:336-425 | the zero page, the compressed object and the expanded page |
| `Zram.Device.ZramWrite` | tdt/cvs/driver/compcache/zram_drv.c:302-432 | a write stores a prefix of its segments - all of them unless it reports an error, when the first one not stored is left empty - and changes no other page; it fails exactly if at that segment the page is not zero and the compressor fails or no memory is found; each page stored is a zero mark, a whole page if it compresses to more than 3072 bytes, or a compressed object |
| `Zram.Device.ZramRead` | tdt/cvs/driver/compcache/zram_drv.c:221-300 | a read gives each page of the disk back, zero pages as zeros, and leaves the buffer alone for a missing page |
| `Zram.Device.ZramDiscard` | tdt/cvs/driver/compcache/zram_drv.c:176-192 | a discard empties exactly its pages |
| `Zram.Device.ZramInitDevice` | tdt/cvs/driver/compcache/zram_drv.c:527-582 | first use sets up an empty disk of the configured size, cut to whole pages |
| `Zram.Device.ZramSlotFreeNotify` | tdt/cvs/driver/compcache/zram_drv.c:593-600 | the notified page is emptied and counted |
| `Zram.Device.ZramResetDevice` | tdt/cvs/driver/compcache/zram_drv.c:483-525 | everything live is freed once, nothing is left, all counters are zero |
| `Zram.Device.FreeAll` | tdt/cvs/driver/compcache/zram_drv.c:498-512 | the loop frees exactly what is live |
| `Cutter.Cutter.Action` | tdt/cvs/apps/vdr/vdr-1.7.22/cutter.c:67-192 | a run ends; without an error each new index entry leads to the bytes of its frame in the recording, unchanged unless it is marked as broken; without an error it wrote exactly the planned frames, files, index and marks; with the index error it wrote all that was planned and the plan needed more; otherwise a part of it; and without faults of the system no other error occurs than a full set of files |
| `Cutter.Cutter.Fetch` | tdt/cvs/apps/vdr/vdr-1.7.22/cutter.c:100-128 | reading sequentially or after a seek gives the bytes of the frame's file from its offset on, as many as index, file and buffer allow |
| `Cutter.Cutter.Write` | tdt/cvs/apps/vdr/vdr-1.7.22/cutter.c:132-163 | a frame goes where the plan of files and index puts it, and the first independent one behind a cut is marked |
| `Cutter.Cutter.AtMark` | tdt/cvs/apps/vdr/vdr-1.7.22/cutter.c:167-189 | at a mark the new marks are set, and the next segment or the tail begins |
| `Cutter.Cutter.EndOfIndex` | tdt/cvs/apps/vdr/vdr-1.7.22/cutter.c:123-128 | the end of the index is an error unless the last cut-in is open |
| `CutterPlan.ExactlyMarkedIff` | tdt/cvs/apps/vdr/vdr-1.7.22/cutter.c:88-190 | the segments written are the marked intervals exactly if no interval is empty; an empty one still gets a frame |
| `CutterPlan.OkIff` | tdt/cvs/apps/vdr/vdr-1.7.22/cutter.c:88-190 | the index suffices exactly if every interval, with the one frame that an empty one gets, is within it and an independent frame follows the last one |
| `CutterPlan.TailIs` | tdt/cvs/apps/vdr/vdr-1.7.22/cutter.c:132-134 | behind the last interval exactly the frames in front of the next independent one are written |
| `CutterPlan.SegmentsStartAtCutIns` | tdt/cvs/apps/vdr/vdr-1.7.22/cutter.c:167-176 | the first frames of the segments are the cut-ins, in order |
| `CutterPlan.FirstOfEachMarked` | tdt/cvs/apps/vdr/vdr-1.7.22/cutter.c:143-151 | with cut-ins on independent frames exactly the first frame of each segment is marked as broken |
| `CutterPlan.Addressed` | tdt/cvs/apps/vdr/vdr-1.7.22/cutter.c:153-161 | every index entry addresses exactly its frame's bytes in its file |
| `CutterPlan.NothingElse` | tdt/cvs/apps/vdr/vdr-1.7.22/cutter.c:153-161 | the files together are the frames' bytes in order, and nothing else |
| `CutterPlan.Laid` | tdt/cvs/apps/vdr/vdr-1.7.22/cutter.c:132-186 | a frame starts the next file exactly if the size limit or a cut-in asks for it, and otherwise lies behind the one before |
| `CutterPlan.IndependentWithinLimit` | tdt/cvs/apps/vdr/vdr-1.7.22/cutter.c:132-142 | no independent frame begins beyond the size limit |
| `CutterPlan.FilesStartIndependent` | tdt/cvs/apps/vdr/vdr-1.7.22/cutter.c:132-186 | every file starts with an independent frame if the segments do |
| `CutterPlan.PlannedFilesStartIndependent` | tdt/cvs/apps/vdr/vdr-1.7.22/cutter.c:67-192 | with cut-ins on independent frames every file of a whole run starts with an independent frame at offset zero, and no independent frame lies behind the size limit |
| `CutterPlan.CutInMarked` | tdt/cvs/apps/vdr/vdr-1.7.22/cutter.c:83-171 | the output number of every segment's first frame is among the new marks |
| `CutterPlan.MarkedOnly` | tdt/cvs/apps/vdr/vdr-1.7.22/cutter.c:83-171 | and every other one is where the segment in front of a cut-in is cut out |
| `CutterPlan.LastIFrameIs` | tdt/cvs/apps/vdr/vdr-1.7.22/cutter.c:143-163 | the cut-out is the last independent frame written, but frame 0 cannot be told from none |
| `CutterCopy.FrameBytes` | tdt/cvs/apps/vdr/vdr-1.7.22/cutter.c:100-118 | reading a frame gives the bytes of its file from its offset on, as many as the index, the file and the buffer allow |
| `CutterCopy.WholeFrame` | tdt/cvs/apps/vdr/vdr-1.7.22/cutter.c:100-118 | a frame that its file holds is read whole, up to the size of the buffer |
| `CutterCopy.FrameCopied` | tdt/cvs/apps/vdr/vdr-1.7.22/cutter.c:153-161 | at each new index entry the new files hold the frame's bytes as they are in the recording, unchanged unless the frame is marked as broken |
| `CutterCopy.LaidOut` | tdt/cvs/apps/vdr/vdr-1.7.22/cutter.c:132-186 | each frame lies where the one before it ends, or starts the next file if it is independent behind the limit or starts a segment of its own file |
| `CutterCopy.CoveredIs` | tdt/cvs/apps/vdr/vdr-1.7.22/cutter.c:88-190 | a frame is covered exactly if it is not in front of some cut-in and in front of its cut-out or the end |
| `CutterCopy.MarkedFramesWritten` | tdt/cvs/apps/vdr/vdr-1.7.22/cutter.c:88-190 | without empty intervals a frame is in a segment exactly if a marked interval holds it |
| `Fup.FramedBack` | tdt/flash/common/fup.src/fup.c:199-274 | a framed payload reads back with its length and a matching check, and reading goes on behind it |
| `Fup.ContainerBlocks` | tdt/flash/common/fup.src/fup.c:401-518 | a created container reads back as its header and its blocks, and every stored check matches |
| `Fup.HeaderCountIsExact` | tdt/flash/common/fup.src/fup.c:483-501 | the header's count is the number of data blocks exactly while they are fewer than 65536 |
| `Fup.RoundTrip` | tdt/flash/common/fup.src/fup.c:372-518 | extracting a created container gives for each partition type the files added with it, joined, whatever their sizes |
| `Fup.AllUsedIff` | tdt/flash/common/fup.src/fup.c:410-411 | the byte-sized argument count takes every file exactly while they are fewer than 128 |
| `FupBytes.HeaderBytes` | tdt/flash/common/fup.src/fup.c:199-242 | the first twenty bytes of a container, one by one: length 18, check, 0x00 0x10 0x23 0x03, and the count with its high byte first among zeros |
| `FupBytes.BlockBytes` | tdt/flash/common/fup.src/fup.c:199-242 | a data block, byte by byte: length / 256 and % 256, check, type, length of the data, data |
| `FupBytes.PiecesAt` | tdt/flash/common/fup.src/fup.c:483-487 | a file of n bytes has n / 0x7FFA + 1 pieces, and piece i starts at i * 0x7FFA |
| `FupBytes.InOrder` | tdt/flash/common/fup.src/fup.c:475-491 | blocks and files follow each other in the order given |
| `FupBytes.UsedIs` | tdt/flash/common/fup.src/fup.c:410-411 | of n files the first n % 128 are used |
| `FupBytes.NotWritten` | tdt/flash/common/fup.src/fup.c:281-300 | types from 17 on are not written |
| `Fup.InsertInt16` | tdt/flash/common/fup.src/fup.c:191-195 | two bytes are stored, most significant first, and no other byte changes |
| `Fup.WriteBlock` | tdt/flash/common/fup.src/fup.c:199-242 | one data block holds what the file still has, up to the block size, framed |
| `Fup.WritePart` | tdt/flash/common/fup.src/fup.c:483-487 | all blocks of a file; the last is the first one that is not full |
| `Fup.Create` | tdt/flash/common/fup.src/fup.c:401-518 | the container is header and framed blocks of all files, with the header's count and check patched at the end |
| `Fup.RefreshHeader` | tdt/flash/common/fup.src/fup.c:493-513 | reading, patching and rewriting the header gives the framed header with the count |
| `Fup.ReadShort` | tdt/flash/common/fup.src/fup.c:92-108 | two bytes, most significant first, and zero at the end of the file |
| `Fup.ReadBlock` | tdt/flash/common/fup.src/fup.c:244-323 | one block goes to the output of its type, the header nowhere, and the length is returned |
| `Fup.ExtractContainer` | tdt/flash/common/fup.src/fup.c:372-396 | the loop over blocks yields the specified outputs |
| `Crc16.TableIsSerial` | tdt/flash/common/fup.src/crc16.c:9-42 | every entry of the table is eight bit-serial steps with the reflected polynomial 0x8005 |
| `Crc16.TableByteIsSerial` | tdt/flash/common/fup.src/crc16.c:49-52 | the look-up of a byte is eight bit-serial steps |
| `Crc16.ComputeCrc16` | tdt/flash/common/fup.src/crc16.c:62-67 | the loop computes the bit-serial CRC of the buffer |
| `Crc16.Composes` | tdt/flash/common/fup.src/crc16.c:62-67 | the CRC of two buffers one after the other continues the first |
| `Crc16.KnownAnswer` | tdt/flash/common/fup.src/crc16.c:62-67 | the check of the digits one to nine is 0xBB3D |
| `Crc16.Linear` | tdt/flash/common/fup.src/crc16.c:62-67 | the CRC is linear over exclusive or of start values and buffers |
| `Crc16.DifferenceStays` | tdt/flash/common/fup.src/crc16.c:62-67 | different CRCs stay different under equal further bytes |
| `Crc16.TwoBytes` | tdt/flash/common/fup.src/crc16.c:62-67 | from one start value two bytes are told apart from any other two |
| `Crc16.BurstDetected` | tdt/flash/common/fup.src/crc16.c:62-67 | buffers of one length that differ only within two neighbouring bytes always have different CRCs |
| `Crc32.ComputeCrc32` | tdt/flash/common/fup.src/crc32.cpp:71-85 | the loop with its table computes the bit-serial CRC with the reflected polynomial 0xEDB88320 between two complements |
| `Crc32.Composes` | tdt/flash/common/fup.src/crc32.cpp:71-85 | continuing with the CRC of the first buffer gives the CRC of both, despite the complements |
| `Crc32.KnownAnswer` | tdt/flash/common/fup.src/crc32.cpp:71-85 | the check of the digits one to nine is 0xCBF43926 |
| `Crc32.TableIsSerial` | tdt/flash/common/fup.src/crc32.cpp:16-69 | every entry of the table is what eight bit steps make of its index |
| `Crc32.TableByteIsSerial` | tdt/flash/common/fup.src/crc32.cpp:71 | the look-up for a byte does what eight bit steps do |
| `Crc32.FourBytesAreAWord` | tdt/flash/common/fup.src/crc32.cpp:71-85 | four bytes go in like one word, the first byte at the low end, followed by 32 bit steps |
| `Crc32.DifferenceStays` | tdt/flash/common/fup.src/crc32.cpp:71-85 | equal further bytes never make different states equal |
| `Crc32.BurstDetected` | tdt/flash/common/fup.src/crc32.cpp:71-85 | buffers that differ only within four neighbouring bytes have different check values |
| `ByteInvert.BitsTurned` | tdt/cvs/driver/smartcard/sci_drv.c:65-81 | the table reverses the order of the bits of every byte and inverts each |
| `ByteInvert.InvertedTwice` | tdt/cvs/driver/smartcard/sci_drv.c:65-81 | applying the table twice gives the byte back |
| `SmartCard.StepKeepsInv` | tdt/cvs/driver/smartcard/sci_drv.c:795-933 | every step of line, card, handler, write and read, in any order within the conditions, keeps the invariant that ties pointers, buffers and FIFOs to message and answer |
| `SmartCard.SentInOrder` | tdt/cvs/driver/smartcard/sci_drv.c:869-924 | in every run the bytes pushed to the FIFO are the message's first bytes in order, each once, in the card's convention, the FIFO never overflows, and transmission stays enabled while bytes are left |
| `SmartCard.ReadsAnswer` | tdt/cvs/driver/smartcard/sci_drv.c:2044-2104 | in every run the reads since the last write deliver the beginning of the card's answer and no byte of the echo |
| `SmartCard.NothingLost` | tdt/cvs/driver/smartcard/sci_drv.c:2044-2104 | between reads the answer is what was delivered, what waits in the buffer and what waits in the FIFO |
| `SmartCard.ByteLostIff` | tdt/cvs/driver/smartcard/sci_drv.c:2094-2102 | whatever interrupts and card bytes come between the test of the pointers and the second assignment that clears them, the answer stays complete exactly if no interrupt took a byte |
| `SmartCard.OverlongIff` | tdt/cvs/driver/smartcard/sci_drv.c:2085-2089 | the caller of a read gets bytes of the answer only, exactly if it asks for at most 1024 or 1024 are there; otherwise it gets all that is there and then the old contents of the buffer |
| `SmartCard.AllSent` | tdt/cvs/driver/smartcard/sci_drv.c:806-924 | between reads some sequence of echoes and interrupts always gets the whole message sent and echoed; line and handler never wait for each other |
| `SmartCard.WriteDropsIff` | tdt/cvs/driver/smartcard/sci_drv.c:2126-2168 | the message before was sent completely exactly if the FIFO is empty when a write clears it |
| `SmartCard.FirstOfTwoDropped` | tdt/cvs/driver/smartcard/sci_drv.c:2126-2168 | two writes of one byte with one interrupt in between: the first byte never leaves the port |
| `SmartCardEffects.MappedIs` | tdt/cvs/driver/smartcard/sci_drv.c:857-891 | only the inverse convention turns a byte round: each bit moves to the other end and changes |
| `SmartCardEffects.IrqSends` | tdt/cvs/driver/smartcard/sci_drv.c:863-924 | with the FIFO empty an interrupt sends up to sixteen bytes of the message in order, with it at most half full in the mode for long messages up to eight, and otherwise none; behind the last byte only reception stays on |
| `SmartCardEffects.FirstByteTells` | tdt/cvs/driver/smartcard/sci_drv.c:840-861 | a first byte of 0x03 sets the inverse convention and 0x3B the direct one, and every byte from it on is read accordingly |
| `SmartCardEffects.OtherBytesTellNothing` | tdt/cvs/driver/smartcard/sci_drv.c:840-861 | as long as neither comes the convention stays unknown and bytes are taken as they are |
| `SmartCardEffects.ReadTakes` | tdt/cvs/driver/smartcard/sci_drv.c:2068-2092 | a read of at most 1024 bytes takes what is there, but no more than it asks for |
| `SmartCardEffects.WriteStarts` | tdt/cvs/driver/smartcard/sci_drv.c:2143-2178 | a write keeps the first 1024 bytes, empties FIFOs and buffer, and chooses the mode by the length |
| `SmartCardDriver.ControlBlock.RxTxHandler` | tdt/cvs/driver/smartcard/sci_drv.c:795-933 | the handler on the control block is the machine's interrupt step |
| `SmartCardDriver.ControlBlock.Receive` | tdt/cvs/driver/smartcard/sci_drv.c:820-861 | the loop empties the receive FIFO into the buffer, detecting the convention |
| `SmartCardDriver.ControlBlock.Fill` | tdt/cvs/driver/smartcard/sci_drv.c:869-893 | the loop fills the transmit FIFO and moves the reading pointer over the echo to come |
| `SmartCardDriver.ControlBlock.SciWrite` | tdt/cvs/driver/smartcard/sci_drv.c:2143-2178 | a write stores the message, clears FIFOs and pointers, and enables transmission |
| `SmartCardDriver.ControlBlock.SciRead` | tdt/cvs/driver/smartcard/sci_drv.c:2068-2103 | an uninterrupted read is the machine's steps of a read, and returns what they deliver: what is there, up to what was asked for |
| `SmartCardDriver.ControlBlock.SetSerialIrq` | tdt/cvs/driver/smartcard/sci_drv.c:326-350 | only the known combinations of interrupts are set |
| `Atr.TableCounts` | tdt/cvs/driver/smartcard/atr.c:40 | the table gives the number of interface bytes a byte announces |
| `Atr.PrintsWhatWasParsed` | tdt/cvs/driver/smartcard/atr.c:65-200 | for every buffer the parser accepts, printing the answer gives exactly the bytes it takes, in the direct convention |
| `Atr.ParsesWhatWasPrinted` | tdt/cvs/driver/smartcard/atr.c:65-200 | parsing what was printed gives the same answer and length |
| `AtrAccepted.ParsesIff` | tdt/cvs/driver/smartcard/atr.c:65-200 | a buffer is accepted as an answer exactly if the answer is put together by the rules - each group announced by the byte in front of it, as many historical bytes as `T0` says, a check byte if the last `TD` names a protocol - and its bytes are the first of the buffer, in either convention |
| `AtrAccepted.BuiltParses` | tdt/cvs/driver/smartcard/atr.c:65-200 | every such answer is accepted with all its parts |
| `AtrAccepted.ParsedIsBuilt` | tdt/cvs/driver/smartcard/atr.c:65-200 | nothing else is |
| `AtrRecord.Record.InitFromArray` | tdt/cvs/driver/smartcard/atr.c:65-201 | the parser, in place, accepts exactly the specified buffers of at most seven groups, stores the specified answer, and never reads behind the bytes given |
| `AtrRecord.Record.ReadGroups` | tdt/cvs/driver/smartcard/atr.c:99-162 | the loop over the chain of groups ends, with the groups, the position and whether a check byte follows |
| `AtrRecord.Record.ReadGroup` | tdt/cvs/driver/smartcard/atr.c:107-157 | the announced bytes of one group are stored in their places, and no other group changes |
| `AtrRecord.Record.CheckFirstGroup` | tdt/cvs/driver/smartcard/atr.c:184-198 | the checks on an answer of one group |
| `AtrRecord.Record.GetRaw` | tdt/cvs/driver/smartcard/atr.c:420-456 | the printer writes exactly the specified bytes |
| `VersionOrder.SignIsKeyOrder` | tdt/cvs/cdk/bb.py:904-990 | wherever comparing two versions gives a result, its sign is an order of keys of the single versions, although padding and suffixes depend on the pair |
| `VersionOrder.RaisesIff` | tdt/cvs/cdk/bb.py:578-605 | an exception is raised exactly if a version has one of the three names without a weight and nothing in front of the last component decides |
| `VersionOrder.Total` | tdt/cvs/cdk/bb.py:904-990 | on versions with weighted suffixes there is always a result |
| `VersionOrder.Antisymmetric` | tdt/cvs/cdk/bb.py:904-990 | exchanging the versions changes the sign, and never whether there is a result |
| `VersionOrder.Transitive` | tdt/cvs/cdk/bb.py:904-990 | the order is transitive, also in which versions count as equal |
| `VersionOrder.KeyTransitive` | tdt/cvs/cdk/bb.py:904-990 | the order of keys is transitive |
| `VersionOrder.LetterAboveWeight` | tdt/cvs/cdk/bb.py:974-986 | a letter in one version against a suffix in the other: the letter is above every weight |
| `VersionNumbers.FirstNumberDecides` | tdt/cvs/cdk/bb.py:904-990 | versions of decimal numbers compare as the lists of numbers, missing ones counting as zero, whatever the suffixes are |
| `VersionNumbers.SuffixDecides` | tdt/cvs/cdk/bb.py:575-606 | behind equal numbers alpha, beta, pre, rc and release stand in this order, p with the release, and behind equal names the number decides |
| `VersionNumbers.NineBelowTen` | tdt/cvs/cdk/bb.py:904-990 | 1.9 is below 1.10, and 2_beta below 2 |
| `VersionNumbers.ComponentWorth` | tdt/cvs/cdk/bb.py:578-624 | a component counts as its number, then its letter or the place of its suffix, then the number of the suffix |
| `VersionNumbers.FractionIs` | tdt/cvs/cdk/bb.py:960-966 | behind a point the digits are worth their number divided by a power of ten |
| `VersionNumbers.PackagesDecide` | tdt/cvs/cdk/bb.py:995-1019 | of two packages the version numbers decide first, and then the numbers of the revisions |
| `VersionOrder.PackagesTransitive` | tdt/cvs/cdk/bb.py:995-1019 | packages are ordered by version and then revision |
| `VersionOrder.PackagesAntisymmetric` | tdt/cvs/cdk/bb.py:995-1019 | exchanging two packages changes the sign |
| `VersionOrder.AddPoints` | tdt/cvs/cdk/bb.py:960-966 | a component behind the first one that starts with a zero becomes a fraction |
| `VersionOrder.Expand` | tdt/cvs/cdk/bb.py:941-978 | components of equal number with the suffixes put back |
| `VersionOrder.CompareLists` | tdt/cvs/cdk/bb.py:981-990 | the first difference of the parsed components |
| `VersionOrder.Comparer.Vercmp` | tdt/cvs/cdk/bb.py:904-990 | the memory changes no result |
| `VersionOrder.Comparer.Pkgcmp` | tdt/cvs/cdk/bb.py:995-1019 | the method computes the specified comparison |

## Left out

- Hardware access, memory mapping, delays, module set-up and debugging output: registers are the
  variables the properties name, and messages are left out.
- The reset branch of the poll when the firmware had to discard packets, the poll of other boards, and a
  missing demultiplexer function: the machine has no such step.
- PtiDriver.Driver.ProcessPtiDma: one poll without interruption; interruptions between its assignments
  are the separate steps of `PtiStream`.
- The overrun branch of the smart card handler, the second card slot and card removal: the receive FIFO
  is taken to be served in time.
- SmartCardDriver.ControlBlock.SciRead: a read without interrupts in between; interrupts between its
  assignments are the steps of `SmartCard`. A read of more than 1024 bytes from behind the start of the
  buffer, which would copy memory behind it, is excluded.
- Sha1Stream.Context.Update: pieces that make the 32-bit sum wrap, on which the source writes behind its
  buffer, are excluded.
- AtrRecord.Record.InitFromArray: answers of more than seven groups, which the parser would write behind
  its record, are excluded, as in `ReadGroups`.
- LZO, the allocators and bios of the kernel: decompression inverts compression, an object has the size
  asked for, an allocation that fails leaves no page, and requests are whole pages one after the other.
- Failure to initialise the block device, and requests that race with a reset.
- zlib in the firmware container: blocks are stored as they are.
- Fup.ExtractContainer: containers whose blocks have a length of one to five bytes, and streams cut off
  inside a block, are not extracted by the model.
- cSource, the transponder of a channel, and the sorting of channels are libraries: a source codec reads
  its own text, a transponder is a number, and sorting puts equal ids next to each other.
- ChannelRecord.Channel.ToText: lists that are longer than their buffers, which the source writes behind,
  are excluded; nor is the zero modelled that it writes behind the buffer of a video field that was cut.
- PtiSlots.Controller.SlotSetPid: a table that leaked PIDs have filled up, behind which the source writes,
  is excluded.
- ChannelLine.RoundTrip: numbers are not limited to 32 bits, so nothing is said about texts whose numbers
  overflow; delimiters in languages are excluded as in the other texts of a normal channel.
- ChannelIndex.SetIdKeepsIff: channel objects are entries of a map by identity, not objects of their own.
- Editing and deleting channels by hand, links between channels, and timers.
- Cutter.Cutter.Action: file systems and disk space are predicates that let reads, writes and new files
  through; numbers of new files have no gaps, as in an empty directory; a run is not interrupted; what
  marking a broken frame does to its bytes is a parameter that keeps their number.
- VersionOrder.Comparer.Vercmp: decimals are exact, and versions with a dash, which the source replaces by
  a point, are not versions here.
- VersionOrder.Comparer.Pkgcmp: a revision is a character and digits; the source raises an exception on others.
- The parser pair for dependency lists in the same script, and downloading and copying files.
- Answers to reset are not checked against their check byte, as in the source.
- CEC, inventory and packaging tools, front-panel and clock drivers: they would only add easy members.
