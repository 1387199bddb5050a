# Dive capture model

Dive loads a GPU capture, keeps its memory as address-tagged blocks, turns a stream of PM4 callbacks or
recorded Vulkan commands into node trees, and correlates the nodes with performance records. This project
models the five parts of Dive that carry state through that pipeline and proves what they promise.
`dafny verify dfyconfig.toml` checks all of it.

- **Captured memory** (`MemoryBlocks`, `MemoryManagement`, `RdLoader`). The class `MemoryManager` has the
  source's sorted block vector and its last-used-block cache. Its meaning is a partial byte map
  `(submit, address) -> byte`. Retrieval, the contiguity walks and the overlap removal of `Finalize` are
  proved against the byte map. `RdLoader` feeds it from the sections of an RD file, which `RdSections` reads.
- **Node trees** (`Forests`, `Topologies`, `Ancestry`). `Forests` describes nested child lists, the stackless
  successor and depth-first preorder. The class `SharedNodeTopology` flattens the lists. `Ancestry` has the
  trees whose numbering is a preorder.
- **PM4 callbacks** (`Pm4Trace`, `Pm4Effects`, `Pm4Tracker`, `Pm4Masks`, `Pm4Stacks`, `Pm4Chains`, `Pm4Flattening`,
  `Pm4Layout`, `Pm4Causes`, `Pm4Events`, `Pm4Ranges`, `Pm4Metadata`, `Pm4Opcodes`, `Pm4Filters`, `Pm4Shared`,
  `Pm4Forest`, `Pm4Reach`, `Pm4Hierarchy`, `Pm4Passes`).
  `Pm4Trace` is `CommandHierarchyCreator` as a state
  machine. The class of that name in `Pm4Hierarchy` updates the source's fields step by step and is proved equal
  to the machine. `Pm4Tracker` has the callbacks as the emulator makes them, before a pass's state tracker has
  told which packets are events. The other modules prove what every trace keeps. The emulator appears as a grammar
  of traces. `Pm4Layout` reads all nodes and their parents off the nesting of the buffers, without a stack, and says
  exactly when the machine makes the same nodes. `Pm4Opcodes` says what both passes make of each opcode. `Pm4Shared`
  is a machine of its own for the nodes that packets become shared children of.
- **GFXR commands and the mixed tree** (`GfxrRows`, `GfxrHierarchy`, `GfxrNames`, `GfxrPaths`, `GfxrTrees`,
  `GfxrBlocks`, `GfxrLayout`, `MixedHierarchy`). The class `GfxrCreator` builds nodes and child lists. `RunCapture` says which rows (a node
  and its parent) it makes. `GfxrNames` says what each command does from its name, `GfxrLayout` reads
  the nodes of a bracketed capture off its blocks, and `GfxrPaths` decides from the command names whether the nodes come
  out in preorder.
  `MixedHierarchy` merges them with a PM4 tree.
- **Metrics** (`PerfDraws`, `PerfHierarchy`, `PerfRecords`, `PerfAverages`, `PerfMetrics`). Draw numbering, the
  template frame, frame matching and averages over `real`.
- **Shader interning and the trace manager** (`ShaderIndex`, `TraceManagement`).

The packets' opcodes, register nodes and markers, the JSON arguments, the parsed records and the file sections are
inputs. The state tracker is any deterministic one, given by its functions.

## Results that differ from what the code or its comments suggest

- The assertion in the loop of `Finalize` looks at adjacent blocks only, and three blocks pass it but overlap in the
  result (`AdjacentCheckTooWeak`). A debug build's sanity check after the loop (lines 299-317) catches them. Empty
  blocks can break the result too (`EmptyBlockBreaksCompaction`). For blocks that do not wrap around, the assertion
  holds and the result is disjoint, or equally a debug build passes both checks, exactly if all pairs of blocks of a
  submit are disjoint or start at the same address and, among those that start together, an empty block that comes
  after a non-empty one comes last (`FinalizeOrderedIff`, `FinalizeAssertsIff`). The RD loader never adds an empty
  block, because a read of size 0 fails (`BlocksLoad`). The loader of Dive's own format does add them
  (dive_core/pm4_capture_data.cpp:1057-1077), and the queries are proved for indices with empty blocks too.
- The debug check of flat memory is meant to find every overlap, but misses those between blocks of different
  submits (`FlatCheckTooWeak`). For blocks of one submit that do not wrap around it finds them all (`FlatAssertsIff`). `FlatOrderedIff` says
  exactly when the flat index has no overlap.
- A retrieval of size 0 can depend on the cache (`ZeroSizeUsesCache`). `ZeroSizeIgnoresCacheIff` says exactly when it
  does not.
- `OnIbEnd` relies on chains being reported as chains (dive_core/command_hierarchy.cpp:906-917). The emulator
  sets the reported type when it enters an IB level (dive_core/common/emulate_pm4.cpp:620) and not when it
  follows a chain (lines 623-641), so it reports a continuation with the type of the buffer it continues. The
  assertions hold either way, but each such continuation leaves a buffer open (`NormalChainStaysOpen`). The stacks
  are empty at the end of a submit exactly if there was none (`SubmitBalance`), and the range of a buffer around
  such continuations is recorded exactly if there was none in it (`BufferRangeIff`).
- A submit's buffers need not hang from it: a listed buffer hangs from its submit exactly if all continuations in the
  buffers listed before it were reported as chains (`ListedBufferIff`), and else from a buffer that was left open. All
  nodes of a capture hang from where the nesting of its buffers puts them exactly if nothing is entered or continued after
  a continuation that was not reported as a chain, within the buffer around it (`CapturePlanned`).
- Flattening should hang chain nodes from the first buffer of their chain, and never from a chain node
  (dive_core/command_hierarchy.h:379-381). `FlattenedRun` is about reported types alone: no node reported as a chain
  hangs from another. But the emulator does not report continuations as chains, and then the second continuation of a
  buffer hangs from the first (`SecondContinuationHangs`). Every continuation hangs from the first buffer of its chain
  exactly if `FlatLink` holds of the buffer (`FlatIff`): so it is for the buffers entered in it, a link that is
  continued has no mislabelled continuation inside, and several continuations are all reported as chains.
- The tracker's enable mask is pushed for every continuation and popped once for a whole chain. Each continuation
  leaves one mask more on the stack, the masks are restored after a buffer exactly if nothing in it is continued
  (`BufferMasks`), and a buffer continued once leaves its own mask in force (`ContinuedMaskStays`). The reset for the
  next submit does not restore them (`SubmitMasks`).
- Packets of a buffer that the submit lists become shared children of the submit exactly if no packet of an earlier
  listed buffer called another buffer. Otherwise they go to the last packet that did (`PrimaryHolderIff`), because the
  last calling packet is forgotten only at the start of a submit (`SecondBufferMisses`).
- A command outside the command buffers can hang from the last command buffer of an earlier submit, which ends the
  preorder numbering (`StrayCommandBreaksPreorder`). `PreorderedCaptures` says exactly which captures are numbered
  in preorder.
- A GFXR draw is numbered beyond the listed draws (`NumberOutOfRange`) exactly if a capture with PM4 draws has more
  GFXR draws than first-instance PM4 draws (`NumbersInRangeIff`).
- The RD loader's assertion that a submit exists fails for a file that starts with a command stream
  (`NoSubmitToJoin`). It holds exactly if memory is announced before the first command stream (`HasSubmitsIff`).

## Model

| member | source | states |
|---|---|---|
| MemoryManagement.MemoryManager.RetrieveMemoryData | dive_core/pm4_capture_data.cpp:350-416 | for size > 0 it succeeds exactly if every requested byte is captured, whatever block was used last; the buffer then holds exactly these bytes, and on failure only captured bytes are written |
| MemoryManagement.MemoryManager.ScanBlocks | dive_core/pm4_capture_data.cpp:367-416 | the backwards scan over overlapping pieces has the same answer without the cache |
| MemoryManagement.MemoryManager.Finalize | dive_core/pm4_capture_data.cpp:229-298 | blocks become the sorted and compacted blocks; acceptable input makes the index valid |
| MemoryManagement.MemoryManager.DropOverlaps | dive_core/pm4_capture_data.cpp:257-298 | the in-place pass keeps and frees the blocks that its specification picks |
| MemoryManagement.MemoryManager.GetMaxContiguousSize | dive_core/pm4_capture_data.cpp:467-501 | the greatest n such that all of [address, address + n) is captured |
| MemoryManagement.MemoryManager.IsValid | dive_core/pm4_capture_data.cpp:504-508 | true exactly if all bytes are captured, as for retrieval |
| MemoryManagement.MemoryManager.GetMemoryOfUnknownSizeViaCallback | dive_core/pm4_capture_data.cpp:419-464 | chunks start at the address, are adjacent, equal the byte map, stop at the first refused one, and otherwise add up to the contiguous size |
| MemoryManagement.FinalizeConserves | dive_core/pm4_capture_data.cpp:257-298 | every input buffer is kept once or freed once |
| MemoryManagement.FinalizedIsValid | dive_core/pm4_capture_data.cpp:229-298 | acceptable input leaves blocks sorted and disjoint within each submit, or all of them in flat mode |
| MemoryManagement.ZeroSizeIgnoresCacheIff | dive_core/pm4_capture_data.cpp:354-365 | a request of size 0 is independent of the cache exactly if a block straddles the address or no block begins or ends there |
| MemoryManagement.ZeroSizeUsesCache | dive_core/pm4_capture_data.cpp:354-365 | a request of size 0 that succeeds exactly if the block was used last |
| MemoryBlocks.StableSortCorrect | dive_core/pm4_capture_data.cpp:236-251 | sorted by (submit, address), or by address in flat mode, with equal blocks in the order they were added |
| MemoryBlocks.SortedBySubmit | dive_core/pm4_capture_data.cpp:236-251 | the order is by submit number and then by address, or by address alone |
| MemoryBlocks.CompactPicksWinners | dive_core/pm4_capture_data.cpp:257-298 | the pass keeps, in order, one block for each start address: the last of the largest |
| MemoryBlocks.FinalizeKeepsLastLargest | dive_core/pm4_capture_data.cpp:253-298 | for each (submit, address) the last-added among the largest blocks is kept, and nothing else |
| MemoryBlocks.FinalizeOrderedIff | dive_core/pm4_capture_data.cpp:274-298 | for blocks that do not wrap around, the assertion holds and the result is disjoint exactly if all pairs are disjoint or start at the same address, and of those that start together an empty block after a non-empty one is the last added |
| MemoryBlocks.FinalizeAssertsIff | dive_core/pm4_capture_data.cpp:274-317 | exactly then a debug build passes the assertion and the sanity check after the loop |
| MemoryBlocks.AdjacentCheckTooWeak | dive_core/pm4_capture_data.cpp:279 | adjacent blocks that pass the loop's assertion can still overlap in the result |
| MemoryBlocks.EmptyBlockBreaksCompaction | dive_core/pm4_capture_data.cpp:294-295 | an empty block between two that start with it makes the result overlap |
| MemoryBlocks.FlatOrderedIff | dive_core/pm4_capture_data.cpp:236-251 | sorting without regard to submits leaves no overlap exactly if of every two added blocks the one sorted first ends where the other starts or earlier |
| MemoryBlocks.FlatAssertsIff | dive_core/pm4_capture_data.cpp:318-333 | for blocks of one submit that do not wrap around the debug check of flat memory passes exactly then |
| MemoryBlocks.FlatCheckTooWeak | dive_core/pm4_capture_data.cpp:318-333 | overlapping blocks of different submits pass it |
| MemoryBlocks.FinalizeKeepsCoverage | dive_core/pm4_capture_data.cpp:253-298 | exactly the addresses that were captured stay captured |
| RdLoader.Pm4CaptureData.LoadAdrenoRdFile | dive_core/pm4_capture_data.cpp:793-917 | stops at the first bad section with its error; submits hold the command streams in groups; blocks and submit indices are those of the sections; success finalizes the memory |
| RdLoader.SubmitsAreLists | dive_core/pm4_capture_data.cpp:1257-1284 | joined together, the submits' lists are the command streams in file order, none lost or repeated, and no submit is empty |
| RdLoader.BlockAt | dive_core/pm4_capture_data.cpp:1238-1254 | a block has the address announced last and the index of the next submit created after it |
| RdLoader.BlocksLoad | dive_core/pm4_capture_data.cpp:1238-1254 | every buffer section that loads becomes a block, in file order, and none is empty |
| RdLoader.SubmitsRead | dive_core/pm4_capture_data.cpp:793-917 | every command stream is in its place, in the submit of the last stream that memory was announced for, and is skipped exactly if the last command before it is of fdperf, chrome, surfaceflinger or a name that begins with X |
| RdLoader.FailureIs | dive_core/pm4_capture_data.cpp:793-917 | a section fails exactly if its contents do not have the announced size, or there is nothing to read |
| RdLoader.HasSubmitsIff | dive_core/pm4_capture_data.cpp:1277-1282 | the assertion that there is a submit holds exactly if memory is announced before the first command stream |
| RdLoader.NoSubmitToJoin | dive_core/pm4_capture_data.cpp:1277-1282 | the assertion fails for a file that starts with a command stream |
| Topologies.SharedNodeTopology.AddChildren | dive_core/command_hierarchy.cpp:102-129 | for distinct children without a parent the one-parent assertions hold, and all lookups read the lists with these children added |
| Topologies.SharedNodeTopology.GetChildNodeIndex | dive_core/command_hierarchy.cpp:68-75 | child lookup returns the nested list's entry |
| Topologies.SharedNodeTopology.GetParentNodeIndex | dive_core/command_hierarchy.cpp:50-54 | with the child index it inverts child lookup, and marks nodes without a parent |
| Topologies.SharedNodeTopology.GetNextNodeIndex | dive_core/command_hierarchy.cpp:78-91 | the climbing loop ends and returns the successor in the child lists |
| Topologies.SharedNodeTopology.AddSharedChildren | dive_core/command_hierarchy.cpp:192-207 | shared lookup reads the lists that were added |
| Topologies.CreateTopology | dive_core/command_hierarchy.cpp:2030-2071 | flattening a forest keeps every child list and shared list, and no assertion fails |
| Forests.WalkIsPreorder | dive_core/command_hierarchy.cpp:78-91 | repeated successors from the root visit exactly the nodes reachable from it, once each, in depth-first preorder, and then the end marker |
| Ancestry.PreorderedIff | dive_core/command_hierarchy.cpp:78-91 | the successor of every node is the node numbered next exactly if each node's parent is the previous node or one of its ancestors |
| Pm4Stacks.AlignedRun | dive_core/command_hierarchy.cpp:868-946 | in every allowed trace one more buffer than start is open exactly while the innermost buffer has had no packet |
| Pm4Stacks.SubmitBalance | dive_core/command_hierarchy.cpp:878-920 | for every well-formed submit no assertion fails and no pop hits an empty stack; both stacks end empty exactly if all continuations were reported as chains |
| Pm4Stacks.BufferRestores | dive_core/command_hierarchy.cpp:878-920 | if all continuations are reported as chains, a buffer with its chains leaves both stacks as they were, and so does a continuation with the chain it continues |
| Pm4Stacks.BufferRange | dive_core/command_hierarchy.cpp:895-904 | if all continuations in it are reported as chains, the range of an unchained buffer holds exactly the packets emitted between its start and its end, nested buffers included |
| Pm4Stacks.EndIbRange | dive_core/command_hierarchy.cpp:893-904 | whatever buffer is closed, its range holds exactly the packets since it was entered |
| Pm4Chains.BufferRestoresIff | dive_core/command_hierarchy.cpp:878-920 | a buffer leaves the stack as it was exactly if all continuations in it are reported as chains |
| Pm4Chains.BufferRangeIff | dive_core/command_hierarchy.cpp:893-920 | the range of an unchained buffer with packets is recorded exactly if all continuations in it are reported as chains, and is then the packets since its start; otherwise the buffer stays open |
| Pm4Chains.BufferKeeps | dive_core/command_hierarchy.cpp:910-920 | a buffer closes nothing below itself, and a continuation at most its chain, whatever types are reported |
| Pm4Chains.NormalChainStaysOpen | dive_core/common/emulate_pm4.cpp:620-664 | a continuation reported as the emulator does leaves a buffer open at the end of the submit |
| Pm4Layout.CapturePlanned | dive_core/command_hierarchy.cpp:740-1257 | all nodes of a capture and their parents in both topologies are those that the nesting of the buffers gives, exactly if no buffer is entered or continued after a continuation with another reported type |
| Pm4Layout.SubmitPlanned | dive_core/command_hierarchy.cpp:740-1257 | the same for a submit after any nodes, for both settings of flattening |
| Pm4Layout.ListedBufferIff | dive_core/command_hierarchy.cpp:840-864 | a buffer that the submit lists hangs from its node exactly if all continuations before it were reported as chains |
| Pm4Reach.SubmitsAtRoot | dive_core/command_hierarchy.cpp:1182-1189 | in every trace a submit hangs from the root in both topologies |
| Pm4Reach.TopologiesReach | dive_core/command_hierarchy.cpp:2030-2071 | from the root the submit topology reaches exactly the submits and buffers, and the other one exactly the submits, passes, events and presents |
| Pm4Causes.InOrderIff | dive_core/command_hierarchy.cpp:814-838 | the packets that bin and draw-table buffers hang from exist exactly if each bin buffer comes between a start and an end of its bin and each draw-table buffer after a table |
| Pm4Flattening.FlattenedRun | dive_core/command_hierarchy.cpp:846-866 | with flattening on, no node that is reported as a chain is ever a child of one that is |
| Pm4Flattening.FlatIff | dive_core/command_hierarchy.cpp:846-866 | with flattening on, all continuations in a well-formed buffer hang from the first buffers of their chains exactly if the buffer meets a condition on its reported types |
| Pm4Flattening.SecondContinuationHangs | dive_core/command_hierarchy.h:379-381 | a buffer continued twice as the emulator reports it does not meet the condition: the second continuation hangs from the first |
| Pm4Masks.BufferMasks | dive_core/common/emulate_pm4.h:175-188 | no pop hits an empty stack; each continuation in a buffer leaves one mask on the stack, above those that were there; the masks are restored exactly if there is none |
| Pm4Masks.ContinuedMaskStays | dive_core/common/emulate_pm4.cpp:223-234 | the mask of a buffer that is continued once stays in force after it |
| Pm4Masks.SubmitMasks | dive_core/common/emulate_pm4.cpp:215-234 | a submit leaves the masks as it found them exactly if nothing in it is continued |
| Pm4Shared.BlockShares | dive_core/command_hierarchy.cpp:744-838 | the array of holders by level gives all packets directly in a buffer one holder, whatever its nested buffers do: its own node, or the last packet before it that called a buffer |
| Pm4Shared.DirectHolder | dive_core/command_hierarchy.cpp:744-838 | a buffer with a node of its own gives its packets to it, whatever packets called buffers before |
| Pm4Shared.PrimaryHolderIff | dive_core/command_hierarchy.cpp:1195-1197 | packets of a listed buffer are shared children of the submit exactly if no packet of the buffers before it called one, and else of the last packet that did |
| Pm4Shared.SecondBufferMisses | dive_core/command_hierarchy.cpp:747-748 | a second listed buffer after one that calls another |
| Pm4Events.RecordedRun | dive_core/command_hierarchy.cpp:925-1161 | in every trace the event starts have 0 or 2 entries outside or inside a pass, plus 1 while an event is open, and all recorded ranges stay correct |
| Pm4Events.EventRange | dive_core/command_hierarchy.cpp:936-1005 | an event's range ends in its only event packet, crosses no pass boundary, and reaches back to the boundary before |
| Pm4Events.EventRangesIncrease | dive_core/command_hierarchy.cpp:994-1005 | event ranges are disjoint and increasing |
| Pm4Events.PassRange | dive_core/command_hierarchy.cpp:1094-1160 | a closed pass's shared children are exactly the packets in its range, which contains only its own pass-starting packet |
| Pm4Ranges.RangedRun | dive_core/command_hierarchy.cpp:1094-1112 | in every trace a pass has a recorded range exactly if another pass of its submit comes after it |
| Pm4Opcodes.OpcodeMakes | dive_core/command_hierarchy.cpp:964-1141 | for every tracker and trace, which node and which event type each opcode makes, and which opcodes set or clear the packets that bin and draw-table buffers hang from |
| Pm4Opcodes.EventsRecorded | dive_core/data_core.cpp:280-361 | for every tracker and trace the metadata has all events with their types in order, each with the render mode of the last marker packet before it in its submit, and counts the packets |
| Pm4Opcodes.SubmitsStartAfresh | dive_core/data_core.cpp:254-258 | if resetting the tracker forgets everything, what comes before a submit has no bearing on it |
| Pm4Tracker.HierarchyRunIs | dive_core/common/emulate_pm4.h:175-199 | the hierarchy pass with its tracker is the state machine on the trace that the tracker resolves |
| Pm4Passes.TrackedCreator.Dispatch | dive_core/command_hierarchy.cpp:925-952 | the creator updates its tracker before anything else, and takes from it whether a packet is an event |
| Pm4Metadata.CaptureMetadataCreator.OnPacket | dive_core/data_core.cpp:280-361 | one step of the metadata pass on a packet as the emulator emits it, with the pass's own tracker |
| Pm4Metadata.TrackersAgree | dive_core/data_core.cpp:280-361 | for every deterministic tracker the two passes' copies stay equal over every trace, and the passes have the same events in the same order with equal types |
| Pm4Metadata.PassesAgree | dive_core/data_core.cpp:280-361 | on a resolved trace both passes have the same events in the same order with equal types, and an event with a render mode is under a pass of that mode |
| Pm4Metadata.GetEventIndex | dive_core/command_hierarchy.cpp:398-407 | the binary search returns the event's id plus one on event nodes and 0 elsewhere |
| Pm4Filters.FiltersRun | dive_core/command_hierarchy.cpp:1117-1140 | which passes each filter leaves out, from the passes alone: tile and resolve passes; binning visibility passes and later tiles; later tiles |
| Pm4Forest.HoldsForest | dive_core/command_hierarchy.cpp:1966-1973 | lists that hold each attached node once are a forest with exactly the given parents |
| Pm4Forest.SortIbsCorrect | dive_core/command_hierarchy.cpp:1211-1221 | sorting by buffer index keeps every child, once |
| Pm4Hierarchy.CommandHierarchyCreator.AddNode | dive_core/command_hierarchy.cpp:1936-1958 | a node that is nobody's child in either topology |
| Pm4Hierarchy.CommandHierarchyCreator.OnIbStart | dive_core/command_hierarchy.cpp:740-875 | does what the state machine does, and keeps the child lists those of the attached nodes |
| Pm4Hierarchy.CommandHierarchyCreator.OnIbEnd | dive_core/command_hierarchy.cpp:878-922 | the same, for the range and the pops |
| Pm4Hierarchy.CommandHierarchyCreator.OnPacket | dive_core/command_hierarchy.cpp:925-1162 | the same, for packets, events, passes and filters |
| Pm4Hierarchy.CommandHierarchyCreator.OnSubmitStart | dive_core/command_hierarchy.cpp:1165-1206 | the same, for the resets |
| Pm4Hierarchy.CommandHierarchyCreator.OnSubmitEnd | dive_core/command_hierarchy.cpp:1209-1257 | the submit's buffers end up in index order, its lists still a forest's, and present nodes hang from the root |
| Pm4Hierarchy.CommandHierarchyCreator.ProcessSubmits | dive_core/command_hierarchy.cpp:878-1257 | any sequence of well-formed submits in which bin and draw-table buffers come after their causes runs through, and the stack and child-list assertions hold |
| Pm4Hierarchy.CommandHierarchyCreator.CreateTopologies | dive_core/command_hierarchy.cpp:2030-2071 | both topologies are forests in which each node hangs from the parent it was attached to, and reach exactly the nodes that they are for |
| Pm4Hierarchy.CreateTrees | dive_core/command_hierarchy.cpp:574-620 | from submits to both topologies: in a tidy capture their child lists are those that the nesting of the buffers gives |
| GfxrRows.ArgRowsHang | dive_core/gfxr_vulkan_command_hierarchy.cpp:459-547 | argument expansion builds the indented outline of the JSON value, in order and at its depths, and keeps the numbering a preorder |
| GfxrHierarchy.GfxrCreator.GetArgs | dive_core/gfxr_vulkan_command_hierarchy.cpp:459-547 | adds the rows of the arguments below the current node |
| GfxrHierarchy.GfxrCreator.AddChild | dive_core/gfxr_vulkan_command_hierarchy.cpp:439-457 | a fresh child is attached once, in the slot of its parent; beside PM4 nodes the root's slot is the frame's |
| GfxrHierarchy.GfxrCreator.OnCommand | dive_core/gfxr_vulkan_command_hierarchy.cpp:221-332 | does what the bracket stack's specification does |
| GfxrNames.CommandDoes | dive_core/gfxr_vulkan_command_hierarchy.cpp:204-332 | for every command name, by the tests on it in their order: the kind and the parent of the node that is made, and what happens to the stack |
| GfxrHierarchy.GfxrCreator.ProcessGfxrSubmits | dive_core/gfxr_vulkan_command_hierarchy.cpp:357-389 | builds the rows of the whole capture, and lists that record them |
| GfxrBlocks.BlockRuns | dive_core/gfxr_vulkan_command_hierarchy.cpp:204-332 | the commands of nested labels and passes build exactly the tree of the blocks, below what was open, and leave the stack as it was |
| GfxrLayout.CaptureRuns | dive_core/gfxr_vulkan_command_hierarchy.cpp:335-389 | the nodes of a capture of bracketed command buffers are a frame, submits in order, their command buffers in order, and below each its labels and passes as they are nested |
| GfxrTrees.CaptureIsSound | dive_core/gfxr_vulkan_command_hierarchy.cpp:335-389 | in every capture a node hangs from the root or an earlier node, and frame and submit nodes from the root |
| GfxrTrees.PreorderedCaptures | dive_core/gfxr_vulkan_command_hierarchy.cpp:204-389 | the nodes of a capture are created in depth-first preorder exactly if the automaton over its command names keeps to the path, also beside PM4 nodes |
| GfxrTrees.WellFormedIsPreordered | dive_core/gfxr_vulkan_command_hierarchy.cpp:204-389 | captures of bracketed command buffers are numbered in depth-first preorder |
| GfxrTrees.CapturesAreTrees | dive_core/gfxr_vulkan_command_hierarchy.cpp:392-415 | every node is reachable from the root; the successor of every node is the next one, and the end marker after the last, exactly if the capture keeps to the path |
| GfxrTrees.StrayCommandBreaksPreorder | dive_core/gfxr_vulkan_command_hierarchy.cpp:370-371 | one command outside the command buffers can end the preorder |
| GfxrTrees.CreateTrees | dive_core/gfxr_vulkan_command_hierarchy.cpp:392-415 | the topology of a GFXR-only capture is the tree of its rows |
| MixedHierarchy.KeptAreMerged | dive_core/dive_command_hierarchy.cpp:127-149 | dropping the node itself and submit nodes repairs the list that was stored in the frame's slot |
| MixedHierarchy.MergedIsForest | dive_core/dive_command_hierarchy.cpp:75-186 | the merged lists are a forest |
| MixedHierarchy.GfxrNodeHasParent | dive_core/dive_command_hierarchy.cpp:119-178 | every GFXR node has exactly one parent, an earlier one; frame and submit nodes hang from the root and no other does |
| MixedHierarchy.MergedRooted | dive_core/dive_command_hierarchy.cpp:75-186 | every GFXR node is reachable from the root, and a PM4 node exactly if it was before |
| MixedHierarchy.MixedWalk | dive_core/dive_command_hierarchy.cpp:75-186 | for captures that keep to the path with no command before the first command buffer, the walk is the PM4 walk followed by the GFXR nodes in creation order |
| MixedHierarchy.CreateTopology | dive_core/dive_command_hierarchy.cpp:75-186 | the loops build the merged lists, no one-parent assertion fails, and PM4 nodes but the root keep their shared children |
| PerfDraws.ExtractDraws | dive_core/perf_metrics_data.cpp:391-479 | the listed draws, and exactly the numbered nodes with their numbers |
| PerfDraws.TileDraw | dive_core/perf_metrics_data.cpp:408-423 | the k-th of a tile pass's n draws is draw m - n + k after m first-instance draws, or has no number if n > m |
| PerfDraws.ConsecutiveTiles | dive_core/perf_metrics_data.cpp:408-441 | tile passes that follow each other stand for the same draws |
| PerfDraws.FirstInstanceInverts | dive_core/perf_metrics_data.cpp:461-478 | the lists invert each other on first-instance draws |
| PerfDraws.DrawToNodeInverts | dive_core/perf_metrics_data.cpp:461-478 | every listed draw has its place as its number |
| PerfDraws.NumbersInRangeIff | dive_core/perf_metrics_data.cpp:461-478 | all numbers are places in the list exactly if there are no PM4 draws or no more GFXR draws than those |
| PerfHierarchy.AliasIffBelowTile | dive_core/perf_metrics_data.cpp:425-459 | in every capture the alias draws are exactly the draw and dispatch events below a tile or resolve pass |
| PerfHierarchy.TileDrawOfCapture | dive_core/perf_metrics_data.cpp:408-441 | their numbers, for the nodes of a capture |
| PerfHierarchy.GfxrNumbers | dive_core/perf_metrics_data.cpp:443-452 | the draw and dispatch commands of a GFXR capture are numbered from 0, and its other nodes have no number |
| PerfHierarchy.Pm4NumbersInRange | dive_core/perf_metrics_data.cpp:461-478 | in a capture without GFXR commands every number is a place in the list |
| PerfHierarchy.NumberOutOfRange | dive_core/perf_metrics_data.cpp:465-478 | a capture of one PM4 draw beside two GFXR draws has a number past the list |
| PerfRecords.FindTemplate | dive_core/perf_metrics_data.cpp:523-543 | the first of the longest runs of equal frame ids |
| PerfRecords.FrameIff | dive_core/perf_metrics_data.cpp:523-543 | a frame is a run of equal frame ids that cannot be made longer |
| PerfRecords.MapDraws | dive_core/perf_metrics_data.cpp:545-554 | draws and slots are mutually inverse and in the same order |
| PerfRecords.MapRecords | dive_core/perf_metrics_data.cpp:566-590 | a record has a slot exactly if its frame matches the template, namely its place in the frame |
| PerfRecords.MatchDrawSignatures | dive_core/perf_metrics_data.cpp:486-509 | equal sequences of command buffers and draw ids |
| PerfAverages.Analyze | dive_core/perf_metrics_data.cpp:644-710 | each slot gets the means of the records that count for it, and the skipped records are those without a slot |
| PerfAverages.KeptIs | dive_core/perf_metrics_data.cpp:662-671 | a slot keeps the other fields of the first record that counts for it, or of the last one if none does |
| PerfMetrics.MeansOverFrames | dive_core/perf_metrics_data.cpp:644-710 | a slot has one record for each matching frame with all metrics there, and its values are the means over exactly these frames; if every record has all metrics, as CSV loading sees to, they are all matching frames and the same positive number for every slot |
| PerfMetrics.AllRecords | dive_core/perf_metrics_data.cpp:644-670 | the records of the matching frames, as many as the template's for each, and the skipped records are all records |
| PerfMetrics.Correlator.FirstInstanceRoundTrip | dive_core/perf_metrics_data.cpp:335-352 | node to metric to node returns a first-instance draw to itself when the counts match |
| PerfMetrics.Correlator.AliasRoundTrip | dive_core/perf_metrics_data.cpp:335-352 | and the draw of a tile pass to its binning draw |
| PerfMetrics.Correlator.DisabledLookups | dive_core/perf_metrics_data.cpp:371-380 | when the counts differ, all lookups between nodes and metrics are empty |
| PerfMetrics.Correlator.MetricRoundTrip | dive_core/perf_metrics_data.cpp:335-344 | a slot has a draw exactly if it is a draw or dispatch, and comes back from it |
| PerfMetrics.Correlator.CorrelatedLookups | dive_core/perf_metrics_data.cpp:371-380 | without listed draws, as without a hierarchy, or when the counts match, draws and slots are found by counting the draws of the template |
| PerfMetrics.Analyze | dive_core/perf_metrics_data.cpp:628-711 | the correlator and the averaged records, with the template's command buffers and draw ids; matched and skipped records are all records |
| ShaderIndex.ShaderTable.HandleShaders | dive_core/data_core.cpp:398-467 | an event's references name each shader it uses once, with the enable bits of all its uses and the stage of the first; shaders are only ever added |
| ShaderIndex.ReferencesAre | dive_core/data_core.cpp:398-467 | a dispatch refers to its compute shaders and any other event to all its other shaders, each once, with the bits of all uses and the stage of the first |
| ShaderIndex.EntriesDiffer | dive_core/data_core.cpp:420-461 | every shader address has one entry |
| TraceManagement.AlwaysMatches | capture_service/android_trace_mgr.cc:42-163 | in every interleaving tracing implies capturing, and idle or finished implies not |
| TraceManagement.TriggerTraces | capture_service/android_trace_mgr.cc:42-163 | a trigger starts a trace in any state: by frames for the requested number, and by duration from its start to its end |
| TraceManagement.TraceByFrame | capture_service/android_trace_mgr.cc:104-163 | an undisturbed trace captures for exactly the requested number of frames, one at least, also past the wrap of the counter |

## Left out

- The PM4 emulator, the register tracker and the PM4 tables: a trace grammar, any tracker, and in each packet what the code asks of it.
- MemoryManagement.MemoryManager.Finalize: the flag for duplicate buffers, which only turns off the check in FlatAssertsIff, is not modelled.
- Topologies.CreateTopology: the arrays of range starts, range ends and root nodes that are moved along are not modelled.
- Pm4Hierarchy.CommandHierarchyCreator.OnIbStart: the parents of shared children by IB level are in Pm4Shared, not in this class; the lookup of draw-state groups and its assertion are not modelled.
- Pm4Hierarchy.CommandHierarchyCreator.OnIbEnd: the root node of a range is not modelled; the IB level is in Pm4Shared.
- Pm4Hierarchy.CommandHierarchyCreator.OnPacket: the class has the shared children of passes only; those of submits, calling packets and groups are in Pm4Shared.
- Pm4Hierarchy.CommandHierarchyCreator.OnSubmitStart: the first parent of shared children is in Pm4Shared; the tracker's reset is in Pm4Tracker.
- Pm4Shared.BlockShares: packets are told apart by whether they call a buffer, and nodes by number; buffers without a node of their own come after a calling packet in the buffer around them, as the emulator makes them.
- Pm4Hierarchy.CommandHierarchyCreator.CreateTopologies: the range arrays and the shared children of the submit topology are not modelled.
- Pm4Hierarchy.CommandHierarchyCreator.ProcessSubmits: the draw-state group assertion is not modelled, nor the emulator's own queueing.
- Pm4Hierarchy.CommandHierarchyCreator.OnSubmitEnd: std::sort may order buffers with equal indices in any way, the model sorts them stably; the contract only says index order.
- Pm4Metadata.CaptureMetadataCreator.OnPacket: submit indices, event strings, index counts and event state are not modelled; shaders are in ShaderIndex.
- MixedHierarchy.CreateTopology: the PM4 lists may be those of any forest; the range arrays that are resized, and the topology of submits, which has no GFXR nodes, are not modelled.
- The ranges that the code never sets: those of the last pass of a submit and of the earlier buffers of a chain.
- PerfAverages.Analyze: averages are over reals, floating-point rounding is not modelled.
- TraceManagement.AlwaysMatches: sleeps, file names and waiting are not modelled; liveness is not claimed.
- RdLoader.Pm4CaptureData.LoadAdrenoRdFile: padding, truncated files, GPU ids and the splitting of 64-bit addresses into words are not modelled.
- Node descriptions except for what tells arguments apart, value formatting, enum tables and command summaries.
- The recorded draw-call counts that become part of node descriptions.
- File, archive and CSV reading, and the Dive capture format beside RD files.
- The generated event state, shader disassembly, logging, register-to-Vulkan state copying, the UI and the rest of the capture service.
- GPU timing and replay settings, which are checks of one branch each.
