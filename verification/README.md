# SnapJVM: verified models

This project models four parts of SnapJVM in Dafny and proves what each is for.

**The allocator** (`snap_malloc/myMalloc.cpp`, `.hpp`). The class `MallocHeaps.MallocHeap` keeps the
memory as addressed 64-bit words: headers, `left_size`, and the `next` and `prev` fields that share
their words with user data are ordinary words of one memory, and every method updates them in place,
in the order of the source. What the memory represents is a heap value (`HeapModel.Heap`): a map from
addresses to blocks, the 59 free lists, the recorded chunks and the last right fencepost. Each method
is proved equal to a function on that value, and each also keeps every word of every live payload.
The theorems are about the value: an invariant over all runs of malloc and free (`ReachableKeeps`),
with consistent boundary tags, lists that link exactly the free blocks, exact size classes and maximal
coalescing; and what follows for callers. `sbrk` is an environment: it fails, or answers with the
program break, which other code may have moved up by whole words since. The guard of `move_coalesced`
is a parameter, so that the code as it is (`AsCoded`) and a guard that compares list indices
(`ByIndex`) are compared by the same theorems.

**The code generator** (`ByteCodeGen_X86_64.cpp`). `CodeGen.ByteCodeGen` is the pass: it appends
instructions, moves `_top`, and walks the code. The emitted instructions are a datatype with a
machine of five window registers, `rax`, a frame and the flags. `MethodIsSimulated` says that the
generated code of a method simulates the bytecode: where the bytecode machine returns, so does the
code, with the same locals in its frame. The bytecode machine has 64-bit slots, as the generator does
(`ByteCodeGen_X86_64.cpp:1615`); its instructions are those of section 6.5 of the JVM Specification.

**The class-file reader** (`ClassParser.cpp`, `.hpp`, and the format scanner of `ByteCode.cpp`).
`ClassFormat` holds the structures and their encoding as sections 4.1 and 4.4 to 4.7 of the JVM
Specification lay it out, written from the specification since the repository has no writer. The
cursor-driven methods of `ClassParsers.ClassParser` are proved equal to a parse function, and
`ClassIsItsEncoding` says that this function inverts the encoding in both directions.

**The typed arrays** (`SnapJVMRuntime.cpp`): a byte-addressed memory refines sequences of elements.

Facts about the code that shape the theorems:

- The guard of `move_coalesced` tests `size >> 3 < n_lists`, but the list index is `(size >> 3) - 3`,
  so a block that changes size among 472 bytes and more stays on its list (`MoveIsExact`). In all
  reachable heaps the blocks of a size are on the list of that size if and only if it is below 472
  bytes (`PlacementIsExactBelow`); from there on they are on lists 56 to 58.
- For that reason a free block can be too large for its list: after `malloc(456)`, `malloc(504)` and
  a free of the first pointer, a request for any block of more than 472 bytes takes chunk after chunk
  from `sbrk` and never finds them (`StuckNeverEnds`). Up to 472 bytes search is complete and one chunk
  is enough, and 472 is exactly the limit (`SearchCompleteExactly`, `GrowthBoundedExactly`). Other
  answers of `sbrk`, with a gap in front of the chunk, help for every size but 480 bytes: in some
  reachable heap no answers at all satisfy `malloc(464)` (`SatisfiableInAllRunsExactly`).
- The size sum of `allocate_object` wraps for requests of 2^64 - 23 bytes and more. A heap with a free
  block answers these as well, and the block has room for a request if and only if its sum does not
  wrap (`AllocationSafety`, `WrappedRequestIsAnswered`).
- `popVirtualStack` reloads a spilled value into the register that is read next, so an operand read
  after a pop is right exactly up to depth five, or if the two values happen to be equal
  (`ReadAfterPop`), and a method with a stack of six may store another value than its bytecode
  (`PushingIsRightExactly`).
- `codeGen` goes through the code in linear order with one depth. Code that comes to an instruction at
  two depths, as that of `x ? a : b`, stores the right value exactly on one of its ways, or by chance
  (`ChoiceIsRightExactly`).
- `codeGen` advances by the length of the format, which is 0 for the switches, so that its loop never
  ends on a method with one (`WalkEndsExactly`, `SwitchNeverEnds`). It sets `_top` once, so each
  method begins at the depth that the ones before it have left (`StartIsWhatIsLeft`).
- `parseFields` follows the class names of all field references and takes one reference for each field,
  without checking either; both are defined if and only if `FieldsDefined` holds
  (`FieldsDefinedExactly`). They are not for a class with a field that no field reference is there for
  (`UnusedFieldsAreUndefined`).
- `runtime_newarray` computes the size in an int, which `malloc` takes as a `size_t`. A size that
  memory can have is enough if and only if the size needed fits the int (`AskedSizeExact`).
- `lcmp` leaves 0 or 1, which is right for operands in order and for a following `ifeq` or `ifne`
  (`LcmpAgreesExactly`). `ldiv` traps on the least value divided by -1
  (`DivFitsUnlessLeastByMinusOne`).
- The comment on `detect_cycles` promises a node on the cycle or NULL if there is no cycle; every
  sound ring is a cycle, and NULL means that every sentinel is on one (`DetectCycles`).
- Array elements are loaded zero-extended, whatever their type.

What the theorems build on is pinned down by laws in plain numbers, which do not speak of the
definitions that model and theorems share: which block `malloc` takes (`HeapChoice`) and where headers
and links lie (`MemoryWords`); each opcode of the bytecode machine (`Section65`), each emitted
instruction (`MachineLaws`), what is emitted for each opcode (`EmissionLaws`) and for a switch
(`SwitchLaws`); the bytes of a class file, the names and flags that its fields are filed by
(`ClassFileLaws`), and one whole file with what is read of it (`SampleFile`); the table of formats by
opcode (`FormatLaws`); and the widths and places of array elements (`ArrayLaws`).

Files: `Layout`, `Tags`, `FreeLists`, `HeapModel`, `HeapRuns`, `HeapTheorems`, `HeapChoice`, `HeapRegions`,
`HeapSearch`, `HeapGrowth`, `HeapBlocked`, `HeapPlacement` (the heap value), `Words`, `Representation`, `MallocHeap`,
`MemoryWords`, `CycleDetection` (memory); `Bytecode`, `Section65`, `X86`, `MachineLaws`, `CodeGen`, `EmissionLaws`,
`Window`, `Labels`, `Simulation`, `Correctness`, `Switches`, `SwitchLaws`, `Walk`, `DeepStacks`, `Conditionals`,
`Methods` (code generation); `ClassFormat`, `ClassRoundTrip`, `FieldRefs`, `NativeBytes`, `ClassParser`,
`ClassFileLaws`, `SampleFile`, `Formats`, `FormatLaws` (class files); `TypedArrays`, `ArrayLaws` (arrays).

## Model

| member | source | states |
|---|---|---|
| `HeapRuns.ReachableKeeps` | snap_malloc/myMalloc.cpp:290-468 | in every state of every run of malloc and free, whatever sbrk answers, the boundary tags are consistent, the lists link exactly the free blocks, each once and within its size class, and no two free blocks are neighbours |
| `HeapModel.CoalesceKeeps` | snap_malloc/myMalloc.cpp:351-442 | linking a freed block back restores the whole invariant in each of the four cases of free neighbours |
| `HeapModel.TakeKeeps` | snap_malloc/myMalloc.cpp:197-216 | taking a block whole or splitting it keeps the invariant |
| `HeapModel.GrowKeeps` | snap_malloc/myMalloc.cpp:306-335 | a new chunk keeps the invariant, also when it swallows the old fencepost pair |
| `HeapModel.MoveAgrees` | snap_malloc/myMalloc.cpp:351-358 | move_coalesced repairs the size class of a block that changed size, exactly below 472 bytes and within lists 56 to 58 from there on; exactly for all sizes with a guard that compares list indices |
| `HeapModel.MoveIsExact` | snap_malloc/myMalloc.cpp:351-358 | a block on the list for its old size is afterwards on the list for its new size if and only if one of the two sizes is below 472 bytes or both have the same list; always with a guard that compares list indices |
| `HeapPlacement.PlacementIsExactBelow` | snap_malloc/myMalloc.cpp:351-358 | for a block size s: in every reachable heap all free blocks of size s are on the list for s, if and only if s is below 472 |
| `HeapPlacement.StuckTailIsMisplaced` | snap_malloc/myMalloc.cpp:351-358 | a reachable heap, after three calls and one adjacent chunk, has a free block of 1496 bytes on list 56 instead of 58 |
| `HeapPlacement.MisplacedBlock` | snap_malloc/myMalloc.cpp:351-358 | for every size of 472 bytes and more, a reachable heap with a free block of that size on another list than its own |
| `HeapPlacement.PlacementByIndex` | snap_malloc/myMalloc.cpp:351-358 | with a guard that compares list indices, placement is exact for all sizes in all reachable heaps |
| `HeapModel.FitFinds` | snap_malloc/myMalloc.cpp:267-281 | the block chosen is free and large enough; NULL means that no block of the list looked at is (which one is `HeapChoice.FitIsFirst`) |
| `HeapChoice.FitIsFirst` | snap_malloc/myMalloc.cpp:267-281 | the block chosen stands at a position of the first populated list, counted from the request's own, and every block in front of it there is too small |
| `HeapChoice.ListsBySize` | snap_malloc/myMalloc.cpp:51-54 | the list of a block size: one for each multiple of eight from 24 to 480 bytes, and the last one for all larger sizes |
| `HeapChoice.FreedIsChosen` | snap_malloc/myMalloc.cpp:253-281 | a block freed between blocks in use is the one chosen next for its size, whatever else is free |
| `HeapChoice.FreedIsReused` | snap_malloc/myMalloc.cpp:611-638 | malloc directly after such a free gives the same block back, asks sbrk for nothing and restores all blocks |
| `HeapRegions.WalkTiles` | snap_malloc/myMalloc.cpp:76-89 | following sizes from any block leads over adjoining blocks, each of which knows its left neighbour's size, to the first right fencepost |
| `HeapRegions.WalkFills` | snap_malloc/myMalloc.cpp:76-89 | the sizes of the blocks on the way add up to the whole range |
| `HeapRegions.EveryBlockIsInOneRegion` | snap_malloc/myMalloc.cpp:109-135 | every block is reached from exactly one recorded left fencepost |
| `HeapRegions.FreeAll` | snap_malloc/myMalloc.cpp:429-468 | freeing all live blocks in any order is a legal run that ends with one free block filling each region and no other free block |
| `HeapTheorems.AllocationSafety` | snap_malloc/myMalloc.cpp:290-338 | for every request below 2^64 bytes, a non-NULL result is aligned and one new live block, which has room for the request if and only if the size sum does not wrap; then the payload meets no header and no other block |
| `HeapTheorems.AllocateTight` | snap_malloc/myMalloc.cpp:197-216 | the block handed out is less than a Header larger than the size asked for |
| `HeapSearch.WrappedRequestIsAnswered` | snap_malloc/myMalloc.cpp:295-298 | a request whose sum wraps is answered at once by any heap with a free block, with a block that it does not fit |
| `HeapSearch.FreshHeapAnswersWrapped` | snap_malloc/myMalloc.cpp:295-298 | in particular by the heap of the constructor |
| `HeapTheorems.AllocateLive` | snap_malloc/myMalloc.cpp:300-338 | a successful allocation adds exactly one live block of sufficient size, a failed one none |
| `HeapTheorems.ReleaseLive` | snap_malloc/myMalloc.cpp:450-468 | free takes exactly the freed block out of the live blocks |
| `HeapTheorems.TakeThenRelease` | snap_malloc/myMalloc.cpp:197-216 | freeing at once what was taken restores every block, in the split and in the whole-block case |
| `HeapTheorems.MallocThenFree` | snap_malloc/myMalloc.cpp:611-638 | malloc followed at once by free restores all addresses, sizes, left sizes and states whenever no chunk was added |
| `HeapSearch.SearchComplete` | snap_malloc/myMalloc.cpp:184-186 | up to 472 bytes (for all sizes if the guard compared indices) the search of one list succeeds if and only if some free block of the heap is large enough |
| `HeapGrowth.SearchCompleteExactly` | snap_malloc/myMalloc.cpp:267-281 | that holds in all reachable heaps if and only if the block size is at most 472 |
| `HeapSearch.OneChunkIsEnough` | snap_malloc/myMalloc.cpp:300-338 | up to 472 bytes an allocation asks for no chunk if a free block fits and for one otherwise, and fails only if sbrk does, leaving the heap as it was |
| `HeapSearch.AdjacentChunksAreEnough` | snap_malloc/myMalloc.cpp:306-335 | with a guard that compares indices, as many adjacent chunks are enough as the free tail needs to cover the request |
| `HeapGrowth.GrowthEndsExactly` | snap_malloc/myMalloc.cpp:306-335 | some number of adjacent chunks satisfies a request if and only if the search succeeds at once or after one chunk, or the tail is then on the list that is searched |
| `HeapGrowth.ChunkApartExactly` | snap_malloc/myMalloc.cpp:306-335 | a chunk with a gap in front of it ends the search if and only if there is room in it and no list from that of the request up to the last one is populated |
| `HeapGrowth.SatisfiableExactly` | snap_malloc/myMalloc.cpp:300-338 | in every sound heap: some answers of sbrk satisfy a request if and only if its block size is not 480 bytes, or the search succeeds at once, or nothing is on list 57, or the block next to the last fencepost is |
| `HeapBlocked.BlockedNeverEnds` | snap_malloc/myMalloc.cpp:300-338 | in a heap reached by six calls, malloc(464) fails for every list of answers of sbrk |
| `HeapBlocked.SatisfiableInAllRunsExactly` | snap_malloc/myMalloc.cpp:300-338 | for a block size: in every reachable heap some answers of sbrk satisfy the request, if and only if the size is not 480 |
| `HeapGrowth.StuckIsReachable` | snap_malloc/myMalloc.cpp:351-358 | three calls lead to a heap whose free tail of 472 bytes is on list 56 |
| `HeapGrowth.StuckNeverEnds` | snap_malloc/myMalloc.cpp:306-335 | there no number of adjacent chunks satisfies any request above 472 bytes, although the free tail grows beyond it |
| `HeapGrowth.GrowthBoundedExactly` | snap_malloc/myMalloc.cpp:306-335 | some fixed number of chunks is always enough if and only if the block size is at most 472, and then one is |
| `Layout.RequestSizeExact` | snap_malloc/myMalloc.cpp:295-298 | the computed block size is legal, and has room for the request, as the smallest legal size, if and only if the 64-bit sum does not wrap |
| `FreeLists.RemoveMembers` | snap_malloc/myMalloc.cpp:223-231 | unlinking removes that block and no other from the lists |
| `FreeLists.ReplaceMembers` | snap_malloc/myMalloc.cpp:393-397 | the pointer swap of coalesce_right exchanges exactly one member of one list |
| `HeapChoice.RemoveInOrder` | snap_malloc/myMalloc.cpp:223-231 | unlinking keeps the order of the other blocks |
| `HeapChoice.ReplaceInPlace` | snap_malloc/myMalloc.cpp:393-397 | the pointer swap changes one entry where it stands |
| `MallocHeaps.MallocHeap.MyMalloc` | snap_malloc/myMalloc.cpp:611-621 | in memory: the new heap and pointer are those of the abstract malloc, the representation and the invariant hold, and no word of a live payload has changed |
| `MallocHeaps.MallocHeap.MyFree` | snap_malloc/myMalloc.cpp:634-638 | in memory: the new heap is that of the abstract free; no word of a remaining payload changes; a pointer whose header is not that of a live block and reads free, as after a double free or inside a merged block, is detected and changes nothing; and the header of a freed pointer reads free afterwards, also if the block has been merged away, so that freeing it again at once is always detected |
| `MallocHeaps.InnerIsFreeable` | snap_malloc/myMalloc.cpp:450-468 | the pointer behind the header of any block, live or free, is one that free deals with |
| `MallocHeaps.MallocHeap.constructor` | snap_malloc/myMalloc.cpp:575-606 | the initial memory represents one chunk with one free block on the right list, and the invariant holds |
| `HeapBlocked.InitialHeap` | snap_malloc/myMalloc.cpp:575-606 | the heap of the constructor in numbers: a free block of 992 bytes on list 58 between two fenceposts of 16 |
| `MemoryWords.HeaderWords` | snap_malloc/myMalloc.hpp:65-88 | in memory, the first word of a block is its size plus 0, 1 or 2 for free, allocated and fencepost, and the second the size of its left neighbour |
| `MemoryWords.LinkWords` | snap_malloc/myMalloc.hpp:65-77 | the words 16 and 24 bytes into a free block are the next block of its list and the one before, or the sentinel at the ends |
| `MemoryWords.SentinelWords` | snap_malloc/myMalloc.cpp:596-602 | the same words of a sentinel are the first and the last block of its list, or itself, and the bit of the list is set if and only if the list is populated |
| `MallocHeaps.MallocHeap.StorePayload` | snap_malloc/myMalloc.hpp:65-77 | any store into a live payload keeps all invariants and the heap, although the words were links of the free block |
| `MallocHeaps.MallocHeap.AllocateObject` | snap_malloc/myMalloc.cpp:300-338 | the loop of search and growth computes the abstract allocation and ends |
| `MallocHeaps.MallocHeap.FreeListGetAllocable` | snap_malloc/myMalloc.cpp:267-281 | bitmap search and first fit on the links choose the abstract block, which is the first one that fits (`HeapChoice.FitIsFirst`), and take it |
| `MallocHeaps.MallocHeap.GetNextSetBit` | snap_malloc/myMalloc.cpp:35-42 | the bit found is the first populated list from i on, or the last list |
| `MallocHeaps.MallocHeap.FreelistRemove` | snap_malloc/myMalloc.cpp:223-231 | rings and bitmap represent the lists without the block, so the test next-of-next recognises exactly the last block of a list |
| `MallocHeaps.MallocHeap.FreelistInsert` | snap_malloc/myMalloc.cpp:240-257 | rings and bitmap represent the lists with the block in front of its size class; only link words change |
| `MallocHeaps.MallocHeap.SplitBlock` | snap_malloc/myMalloc.cpp:197-216 | the header stores represent the split heap with the remainder in its size class |
| `MallocHeaps.MallocHeap.MoveCoalesced` | snap_malloc/myMalloc.cpp:351-358 | the relinking represents the moved lists |
| `MallocHeaps.MallocHeap.CoalesceLeft` | snap_malloc/myMalloc.cpp:367-377 | the stores represent the heap with the block merged into its left neighbour |
| `MallocHeaps.MallocHeap.CoalesceRight` | snap_malloc/myMalloc.cpp:385-400 | the stores and the pointer swap represent the heap with the right neighbour merged |
| `MallocHeaps.MallocHeap.CoalesceBoth` | snap_malloc/myMalloc.cpp:410-422 | the stores represent the heap with three blocks merged |
| `MallocHeaps.MallocHeap.FreeListDeallocate` | snap_malloc/myMalloc.cpp:429-442 | the case distinction represents the coalesced heap |
| `MallocHeaps.MallocHeap.DeallocateObject` | snap_malloc/myMalloc.cpp:450-468 | free of a pointer: NULL is ignored, a header that reads free is refused, also a stale one inside another block, and a live block is coalesced; its header reads free afterwards |
| `MallocHeaps.MallocHeap.AllocateChunk` | snap_malloc/myMalloc.cpp:146-158 | the tags of a new chunk are in memory behind all blocks, or nothing has changed and NULL is returned |
| `MallocHeaps.MallocHeap.AddNewChunk` | snap_malloc/myMalloc.cpp:313-331 | the chunk becomes part of the last region or a region of its own, as the heap function says |
| `CycleDetection.DetectCycles` | snap_malloc/myMalloc.cpp:476-488 | it ends on every closed finite successor graph and returns NULL if and only if the walk from every sentinel comes back to it, even though the fast pointer may step over it; otherwise a node on a cycle |
| `CycleDetection.MeetingPoint` | snap_malloc/myMalloc.cpp:479-485 | the two pointers meet after finitely many steps |
| `CycleDetection.MeetingExcludesReturn` | snap_malloc/myMalloc.cpp:482-484 | a meeting away from the sentinel shows that the walk never comes back to it |
| `CycleDetection.SoundRingsReturn` | snap_malloc/myMalloc.cpp:476-488 | on the rings that malloc and free keep, every sentinel is on a cycle |
| `Window.PushKeeps` | ByteCodeGen_X86_64.cpp:51-59 | at any depth, writing the next register and pushing represent the longer stack in registers and spill slots |
| `Window.PopKeeps` | ByteCodeGen_X86_64.cpp:61-69 | at any depth, a discarding pop represents the shorter stack |
| `Window.ReadAfterPop` | ByteCodeGen_X86_64.cpp:61-80 | the register read after a pop has the popped value if and only if the depth was at most five or the value five positions further down is equal |
| `DeepStacks.PushingIsRightExactly` | ByteCodeGen_X86_64.cpp:51-80 | a method that pushes constants and stores the last one ends with the right local variable if and only if it pushes at most five or the last is equal to the one five positions before it |
| `DeepStacks.SixDeepGoesWrong` | ByteCodeGen_X86_64.cpp:51-80 | a method of depth six whose bytecode returns 0 and whose generated code returns 1 |
| `Conditionals.ChoiceIsRightExactly` | ByteCodeGen_X86_64.cpp:216-268 | the code of x ? a : b stores the right value if and only if x is zero or a was in the second register before |
| `Conditionals.ChoiceIsNotAcceptable` | ByteCodeGen_X86_64.cpp:216-268 | its branch comes to an instruction at another depth than the linear pass has there |
| `Walk.WalkEndsExactly` | ByteCodeGen_X86_64.cpp:216-268 | the loop over the code leaves it if and only if every instruction start that it meets has a positive length |
| `Walk.SwitchNeverEnds` | ByteCodeGen_X86_64.cpp:216-268 | it never leaves a certain method with a well-formed tableswitch |
| `CodeGen.WalkableExactly` | ByteCodeGen_X86_64.cpp:216-268 | the whole code is generated if and only if the walk advances to its end and finds, at each instruction, its operands on the virtual stack and code that is modelled |
| `CodeGen.ByteCodeGen.GenMethod` | ByteCodeGen_X86_64.cpp:216-268 | the walk over the code ends, emits for every instruction its label and its code, and leaves the pass where the code ends |
| `CodeGen.ByteCodeGen.CodeGenOne` | ByteCodeGen_X86_64.cpp:329-1588 | one instruction appends its code and moves the virtual stack by its pops and pushes |
| `EmissionLaws.FrameLayout` | ByteCodeGen_X86_64.cpp:179-183 | the local variables begin behind eleven saved registers, and the spilled values behind them |
| `EmissionLaws.FirstSpill` | ByteCodeGen_X86_64.cpp:51-69 | the push from depth four is the first to spill, and the pop from depth six the first to reload, both at slot five |
| `EmissionLaws.DeepPushAndPop` | ByteCodeGen_X86_64.cpp:51-80 | below that, a push spills the register of its depth modulo five to the slot of its depth, and a pop reloads it |
| `EmissionLaws.MoveEmission` | ByteCodeGen_X86_64.cpp:341-745 | the instructions for constants, loads and stores, by opcode number and operand bytes |
| `EmissionLaws.DupEmission` | ByteCodeGen_X86_64.cpp:868-875 | the instructions for dup |
| `EmissionLaws.ArithmeticEmission` | ByteCodeGen_X86_64.cpp:908-1010 | opcodes 96 and 97 are addq, 100 and 101 subq, 104 and 105 imulq, with the top as source and the spill in front |
| `EmissionLaws.LogicEmission` | ByteCodeGen_X86_64.cpp:1181-1247 | opcodes 126 and 127 are andq, 128 and 129 orq, 130 and 131 xorq, with the spill behind |
| `EmissionLaws.DivideAndNegateEmission` | ByteCodeGen_X86_64.cpp:1036-1103 | the instructions for ldiv and ineg |
| `EmissionLaws.CompareEmission` | ByteCodeGen_X86_64.cpp:1372-1389 | the instructions for lcmp with their numbered labels |
| `EmissionLaws.ZeroBranchEmission` | ByteCodeGen_X86_64.cpp:1411-1478 | opcodes 153 to 158 compare with zero and are je, jne, jl, jge, jg and jle to the label of the offset plus the position |
| `EmissionLaws.CompareBranchEmission` | ByteCodeGen_X86_64.cpp:1411-1478 | opcodes 159 to 164 compare two operands and are the same jumps |
| `EmissionLaws.KindByOpcode` | ByteCodeGen_X86_64.cpp:329-1816 | nothing is emitted, or code that is not modelled, exactly for the opcodes outside the modelled subset, by number |
| `EmissionLaws.LoadStoreOpcodes` | ByteCodeGen_X86_64.cpp:329-801 | both lists among the opcodes 0 to 66 |
| `EmissionLaws.StackOpcodes` | ByteCodeGen_X86_64.cpp:747-906 | both lists among the opcodes 67 to 95 |
| `EmissionLaws.ArithmeticOpcodes` | ByteCodeGen_X86_64.cpp:908-1294 | both lists among the opcodes 96 to 132 |
| `EmissionLaws.BranchOpcodes` | ByteCodeGen_X86_64.cpp:1296-1488 | both lists among the opcodes 133 to 168 |
| `EmissionLaws.ObjectOpcodes` | ByteCodeGen_X86_64.cpp:1485-1816 | both lists among the opcodes 169 to 201, except the switches |
| `MachineLaws.MoveLaws` | ByteCodeGen_X86_64.cpp:51-69 | movq sets its destination and nothing else |
| `MachineLaws.ArithmeticLaws` | ByteCodeGen_X86_64.cpp:908-1103 | addq, subq, imulq and negq leave the 64-bit value congruent to destination plus, minus or times source, and nothing else changes |
| `MachineLaws.LogicLaws` | ByteCodeGen_X86_64.cpp:1181-1247 | andq, orq and xorq leave the value whose 64 bits are that operator on the bits of the operands |
| `MachineLaws.DivideLaws` | ByteCodeGen_X86_64.cpp:1036-1056 | idivq traps if and only if rax is not sign-extended or there is no 64-bit quotient, and leaves a quotient truncated towards zero |
| `MachineLaws.CompareLaws` | ByteCodeGen_X86_64.cpp:1411-1478 | cmpq compares the destination with the source |
| `MachineLaws.JumpLaws` | ByteCodeGen_X86_64.cpp:1421-1478 | je, jne, jl, jge, jg and jle go to their label if and only if the compared values are so in plain comparisons |
| `CodeGen.ByteCodeGen.GenTableswitch` | ByteCodeGen_X86_64.cpp:1490-1524 | one comparison and jump for each row, in order, and the jump to the default |
| `CodeGen.ByteCodeGen.GenLookupswitch` | ByteCodeGen_X86_64.cpp:1526-1554 | one comparison and jump for each pair, in order, and the jump to the default |
| `Labels.OffsetIsUnique` | ByteCodeGen_X86_64.cpp:217 | each offset label occurs once, in front of the code for its instruction |
| `Labels.FindOffset` | ByteCodeGen_X86_64.cpp:216-268 | a jump to the label of an instruction offset goes to the code for that instruction |
| `Labels.LcmpLabelIsUnique` | ByteCodeGen_X86_64.cpp:1372-1387 | the numbered labels of an lcmp occur once, inside its own code |
| `Correctness.BranchNameIsTarget` | ByteCodeGen_X86_64.cpp:1440-1442 | the 16-bit or 32-bit wrapped sum names the signed branch target for every target inside the code |
| `Simulation.EmitStraight` | ByteCodeGen_X86_64.cpp:341-1247 | running the code of a constant, load, store, dup, arithmetic or logic instruction does to the represented state what the instruction does |
| `Section65.ConstantLaws` | ByteCodeGen_X86_64.cpp:341-428 | opcodes 2 to 10, 16 and 17 push the constants of section 6.5, without a decoded form in the statement |
| `Section65.LoadLaws` | ByteCodeGen_X86_64.cpp:494-563 | the load opcodes push the local variable of their number or operand byte, and are stuck if there is none |
| `Section65.StoreLaws` | ByteCodeGen_X86_64.cpp:676-745 | the store opcodes pop into that local variable, and are stuck without an operand or a variable |
| `Section65.SumLaws` | ByteCodeGen_X86_64.cpp:908-1010 | opcodes 96 and 97, 100 and 101, 104 and 105 leave the value in 64 bits congruent to x + y, x - y and x * y |
| `Section65.NegationLaw` | ByteCodeGen_X86_64.cpp:1097-1103 | opcode 116 leaves the value in 64 bits congruent to -x |
| `Section65.DivisionLaw` | ByteCodeGen_X86_64.cpp:1036-1056 | opcode 109 is stuck for a zero divisor, and otherwise leaves the value of the truncated quotient |
| `Section65.BitLaws` | ByteCodeGen_X86_64.cpp:1181-1247 | opcodes 126 to 131 leave the value whose 64 bits are and, or and xor of those of the operands |
| `Section65.DupLaw` | ByteCodeGen_X86_64.cpp:868-875 | opcode 89 repeats the top |
| `Section65.LcmpLaw` | ByteCodeGen_X86_64.cpp:1372-1389 | opcode 148, as specified, leaves 1, 0 or -1 for greater, equal or less |
| `Section65.TooFewOperands` | ByteCodeGen_X86_64.cpp:908-1478 | an instruction that finds too few operands is stuck |
| `Section65.ZeroBranchLaws` | ByteCodeGen_X86_64.cpp:1411-1478 | opcodes 153 to 158 go to pc plus the signed offset if and only if the operand is ==, !=, <, >=, > or <= zero, and to pc + 3 otherwise |
| `Section65.CompareBranchLaws` | ByteCodeGen_X86_64.cpp:1411-1478 | the same of opcodes 159 to 164 and two operands |
| `Section65.GotoLaws` | ByteCodeGen_X86_64.cpp:1471-1802 | opcodes 167 and 200 go to pc plus the signed offset of two and of four bytes |
| `Section65.ReturnLaw` | ByteCodeGen_X86_64.cpp:1581-1588 | opcode 177 ends the method with its locals |
| `Simulation.DivBlock` | ByteCodeGen_X86_64.cpp:1036-1056 | the five instructions of ldiv leave the truncated quotient, unless the division traps |
| `Simulation.DivFitsUnlessLeastByMinusOne` | ByteCodeGen_X86_64.cpp:1036-1056 | the quotient fits if and only if it is not the least value divided by -1 |
| `Correctness.SimBranch` | ByteCodeGen_X86_64.cpp:1411-1478 | the code of a branch or goto comes to the code of the instruction that the bytecode goes to |
| `Correctness.SimLcmp` | ByteCodeGen_X86_64.cpp:1372-1389 | the code of lcmp, with its own labels and jumps, leaves 0 or 1 and comes to its end |
| `Correctness.LcmpAgreesExactly` | ByteCodeGen_X86_64.cpp:1379-1386 | the generated lcmp is the specified one if and only if the operands are in order, and is zero exactly when the specified one is |
| `Correctness.SimStep` | ByteCodeGen_X86_64.cpp:329-1588 | each supported instruction is simulated: from representing states the code comes to a machine that represents the next state |
| `Correctness.SimRun` | ByteCodeGen_X86_64.cpp:216-268 | after any number of instructions the generated code has come to a machine that represents the state of the bytecode |
| `Correctness.AlikeRun` | ByteCodeGen_X86_64.cpp:1372-1389 | if every lcmp of the run has operands in order or feeds ifeq or ifne, the specified run and the run with the generated lcmp differ only in the sign of values about to be tested for zero |
| `Correctness.MethodIsSimulated` | ByteCodeGen_X86_64.cpp:216-268 | if the specified bytecode machine returns, the generated code comes to its return with the same locals in its frame, from any depth below five at which the pass begins, if every division of the run fits and every lcmp of the run has operands in order or feeds ifeq or ifne |
| `Correctness.TestedMethodFits` | ByteCodeGen_X86_64.cpp:1372-1389 | the condition on lcmp holds of every run if every lcmp instruction that the pass meets feeds ifeq or ifne |
| `Methods.ClassIsSimulated` | ByteCodeGen_X86_64.cpp:95-268 | every method of a class that is acceptable from the depth at which the pass comes to it is simulated |
| `Methods.StartIsWhatIsLeft` | ByteCodeGen_X86_64.cpp:22-268 | the pass over a method begins with the sum of what the methods before it have left on the virtual stack |
| `Switches.OperandsAligned` | ByteCodeGen_X86_64.cpp:1491-1493 | the operands are taken from the first offset behind the opcode that is a multiple of four |
| `Switches.TableswitchJumps` | ByteCodeGen_X86_64.cpp:1505-1523 | the emitted chain goes to the label of the row for the compared value, or of the default, as section 6.5 says, and represents the popped stack |
| `Switches.LookupswitchJumps` | ByteCodeGen_X86_64.cpp:1535-1553 | the emitted chain goes to the label of the one offset that section 6.5 gives for the compared value, paired or default, and represents the popped stack |
| `Switches.LookupGoesSomewhere` | ByteCodeGen_X86_64.cpp:1535-1553 | for every value there is exactly one such offset |
| `SwitchLaws.TableLaw` | ByteCodeGen_X86_64.cpp:1490-1524 | the target of a value is the offset in its row between low and high, or the default, each at its place in the bytes |
| `SwitchLaws.LookupLaw` | ByteCodeGen_X86_64.cpp:1526-1554 | the target of a value is the offset of a pair with that match if there is one, and the default otherwise, each at its place in the bytes |
| `SwitchLaws.TwoCases` | ByteCodeGen_X86_64.cpp:1505-1523 | the instructions emitted for two cases and a default |
| `ClassRoundTrip.ClassIsItsEncoding` | ClassParser.cpp:94-130 | the reader yields a class if and only if the file begins with the encoding of that class, and stops behind its methods table |
| `ClassRoundTrip.EncodingIsUnique` | ClassParser.cpp:94-130 | no file begins with the encodings of two different classes |
| `ClassRoundTrip.PoolIsItsEncoding` | ClassParser.cpp:142-383 | the constant pool is read if and only if the bytes are its encoding, and the cursor advances by exactly the encoded length |
| `ClassRoundTrip.InfoIsItsEncoding` | ClassParser.cpp:158-374 | each of the fourteen kinds of entry is read if and only if the bytes are its tag and body |
| `ClassRoundTrip.SlotsAreFiled` | ClassParser.cpp:376-378 | every slot of a pool holds the entry with its own index and tag, or is empty, and it is empty exactly behind a long or a double |
| `ClassRoundTrip.InterfacesAreTheirEncoding` | ClassParser.cpp:385-397 | the interface table is read if and only if the bytes are its encoding |
| `ClassRoundTrip.AttributesAreTheirEncoding` | ClassParser.cpp:449-460 | any number of attributes of any lengths is read if and only if the bytes are their encodings in order |
| `ClassRoundTrip.MembersAreTheirEncoding` | ClassParser.cpp:489-510 | any number of fields or methods is read if and only if the bytes are their encodings in order |
| `ClassParsers.ClassParser.ReadU2` | ClassParser.hpp:60-73 | in both byte-order branches the value is the big-endian number at the cursor |
| `ClassParsers.ClassParser.ReadU4` | ClassParser.hpp:75-92 | in both byte-order branches the value is the big-endian number at the cursor |
| `ClassParsers.ClassParser.ReadU8` | ClassParser.hpp:94-119 | in both byte-order branches the value is the big-endian number at the cursor |
| `ClassParsers.ClassParser.ParseConstantPool` | ClassParser.cpp:142-383 | the loop fills the slots as the parse function says and queues the indices of the field references in order, or reports the unknown tag |
| `ClassParsers.ClassParser.ParseInterfaceTable` | ClassParser.cpp:385-397 | the loop fills the interface table as the parse function says |
| `ClassParsers.ClassParser.ReadMember` | ClassParser.cpp:492-508 | one field or method with its attributes, as the parse function says |
| `ClassParsers.ClassParser.KeepFields` | ClassParser.cpp:427-439 | the queue ends as the references to fields of classes whose names do not begin with "java", in order |
| `ClassParsers.ClassParser.ParseFields` | ClassParser.cpp:399-470 | the field table is read as the parse function says, and each field takes the next reference as a static or an instance variable |
| `ClassParsers.ClassParser.ParseMethods` | ClassParser.cpp:472-511 | the loop over the methods, as the parse function says |
| `ClassParsers.ClassParser.Parse` | ClassParser.cpp:94-130 | the object returned has the contents of the parsed class and the keys of its static and instance variables; NULL for another magic number; the process is left at an unknown tag |
| `SampleFile.SampleIsRead` | ClassParser.cpp:94-130 | a file of 92 bytes, written out, with the class that is read of it, written out |
| `SampleFile.SampleVariables` | ClassParser.cpp:427-467 | it refers to a field of a class java/A first and then to its own two fields: the static one is filed under the second reference, the other one under the third |
| `SampleFile.ReadSample` | ClassParser.cpp:94-130 | the object that the reader returns for that file |
| `ClassFileLaws.IndexEntries` | ClassParser.cpp:158-374 | the nine kinds of entries with indices by tag number, with the bytes that each index is read from |
| `ClassFileLaws.ValueEntries` | ClassParser.cpp:158-374 | the same of the numbers and the strings |
| `ClassFileLaws.NoClassFileExactly` | ClassParser.cpp:100-104 | NULL if and only if there are four bytes and they are not CA FE BA BE |
| `ClassFileLaws.UnknownTagExactly` | ClassParser.cpp:370-373 | the process is left if and only if the file begins as a class file and, behind the encodings of fewer entries than counted, there is a tag that is none of the fourteen |
| `ClassFileLaws.KeptExactly` | ClassParser.cpp:427-439 | a reference is dropped if and only if the name of its class begins with the letters j, a, v, a |
| `ClassFileLaws.StaticExactly` | ClassParser.cpp:462-466 | a field is static if and only if its flags have the bit 0x0008 |
| `ClassFileLaws.HasDataExactly` | ClassClass.hpp:196-307 | the kinds of entries that the name of a class may be taken from |
| `ClassFileLaws.StringData` | ClassClass.hpp:269-307 | the bytes of a string, also by way of a String entry |
| `ClassFileLaws.NumberData` | ClassClass.hpp:196-248 | the bytes of a number, in the order of the machine |
| `FieldRefs.RotateExactly` | ClassParser.cpp:427-439 | the rotation of the queue filters it, in order, and its accesses are defined if and only if every field reference names a class whose name leads to data, as a string or as the bytes of a number |
| `FieldRefs.AssignExactly` | ClassParser.cpp:461-467 | the accesses to the front of the queue are defined if and only if there are at least as many references as fields; then the static variables are those of the static fields, and the instance variables those of the others |
| `FieldRefs.FieldsDefinedExactly` | ClassParser.cpp:427-467 | both for a whole class |
| `FieldRefs.UnusedFieldsAreUndefined` | ClassParser.cpp:461-467 | the reader goes wrong on every class with more fields than field references |
| `FieldRefs.LoneFieldIsUndefined` | ClassParser.cpp:461-467 | a file of 30 bytes that is read to its end and whose only field takes its reference from an empty queue |
| `FieldRefs.LoneReferenceIsUndefined` | ClassParser.cpp:427-439 | a file of 27 bytes that is read to its end and whose only field reference names no class |
| `Formats.ComputeFlags` | ByteCode.cpp:62-131 | the scanner runs into an assertion if and only if the format is not well-formed, and otherwise collects exactly the flags of its prefix and of its fields |
| `Formats.TableIsAccepted` | ByteCode.cpp:150-408 | initialisation of the table runs into no assertion |
| `Formats.LengthIsThatOfFormat` | ByteCode.cpp:28-42 | the length by which the code is walked is that of the format, also by way of the four bits it is kept in |
| `FormatLaws.LengthsOfOpcodes` | ByteCode.cpp:150-408 | the lengths of the opcodes of class files, by number |
| `FormatLaws.FlagsOfOpcodes` | ByteCode.cpp:62-408 | for every opcode of the table, by number, exactly the flags that its format gives |
| `FormatLaws.WideFormats` | ByteCode.cpp:150-408 | the opcodes that have a wide format, by number, with its length and flags |
| `FormatLaws.FlagsInTable` | ByteCode.cpp:28-131 | the scanner, run on the format of an opcode, returns those flags and the ones that def adds |
| `TypedArrays.StoreUpdates` | SnapJVMRuntime.cpp:106-140 | a store changes its element to the value modulo 2 to the element width, and neither another element nor the length |
| `ArrayLaws.StoreThenLoad` | SnapJVMRuntime.cpp:30-140 | by type code 4 to 11 and width of section 6.5, a load after a store of v at the same index gives v modulo 2 to the width; references have 64 bits |
| `ArrayLaws.NewStoreLoad` | SnapJVMRuntime.cpp:30-140 | the same in a new array, whose other elements load as 0 |
| `ArrayLaws.NewArrayLies` | SnapJVMRuntime.cpp:30-72 | a new array takes 8 + width / 8 * length bytes from its address on, and its elements are 0 |
| `ArrayLaws.ElementsLieAt` | SnapJVMRuntime.cpp:74-140 | the length is the number in the first eight bytes of an array, and element i the one in the width / 8 bytes at the address + 8 + width / 8 * i |
| `TypedArrays.StoreKeepsOthers` | SnapJVMRuntime.cpp:106-140 | a store does not change an array that lies elsewhere |
| `TypedArrays.SnapJVMRuntime.NewArray` | SnapJVMRuntime.cpp:50-72 | a new array has its length and only zeros, and no other byte of memory changes |
| `TypedArrays.AskedSizeExact` | SnapJVMRuntime.cpp:57-62 | of the size_t that malloc is asked for: below 2^63 it has room for the array if and only if the size needed fits an int, and then it is that size; it is 2^63 or more exactly if the int is negative |
| `TypedArrays.SnapJVMRuntime.ArrayLoad` | SnapJVMRuntime.cpp:74-104 | a load gives the element at the index |
| `TypedArrays.SnapJVMRuntime.ArrayStore` | SnapJVMRuntime.cpp:106-140 | a store updates the element sequence at the index |
| `NativeBytes.NativeOfBytes` | SnapJVMRuntime.cpp:115-140 | reading the stored bytes back, in either byte order, gives the value modulo 256 to the number of bytes |

## Left out

- Threads: calls are sequential and atomic; the mutex and the state store behind the unlock in `my_malloc` (`snap_malloc/myMalloc.cpp:614-618`) are not modelled.
- The bitmap is 59 bits that start clear; the source declares seven bytes (`snap_malloc/myMalloc.hpp:192`) and does not clear them.
- `osChunkList` is unbounded; the source has 1024 entries and no check.
- `sbrk`: its successful answers are 8-aligned and never below the last chunk, the sentinel table lies below the heap, and an exhausted list of answers is a failure; addresses are unbounded. The constructor's steps are in another order than in the source, sentinels before the first chunk.
- `my_calloc`, `my_realloc`, `verify_freelist`, `verify_pointers`, printing and the C skeleton: thin. `verify_chunk` and `verify_tags`: their loop is not entered, and their result is inverted; consistency of the tags is `WalkTiles` instead.
- MallocHeaps.MallocHeap.MyFree: pointers whose header word lies outside the memory of the heap, or reads allocated or fencepost without being that of a live block, are excluded, as the source would take what it finds there for a block.
- MallocHeaps.MallocHeap.DeallocateObject: the same pointers.
- MallocHeaps.MallocHeap.constructor: the first `sbrk` must succeed; the source goes on with the NULL of a failure.
- CodeGen.ByteCodeGen.GenMethod: code that finds too few operands on the virtual stack, for which the source prints an error and reads a register name in front of its table.
- CodeGen.ByteCodeGen.CodeGenOne: opcodes for which the source emits code that is not modelled (`EmitsOtherCode`) are excluded.
- Correctness.MethodIsSimulated: covers code whose instruction lengths are positive, without opcodes for which code is emitted that is not modelled, and whose depth in linear order is the depth of every branch target and at most five; and runs in which no division traps and every lcmp has operands in order or feeds ifeq or ifne. Beyond depth five and for other branch targets it is not true (`SixDeepGoesWrong`, `ChoiceIsRightExactly`).
- Bytes of 239 and more, for which the source reads behind its tables, have length 0 in the model. The switches are proved by themselves in `Switches`, since the walk never passes them.
- Simulation.EmitStraight: int instructions compute in 64 bits as the generator does; wrap-around at 32 bits is not modelled.
- Prologue and epilogue, register saving, and the text of the instructions; the frame holds the arguments when the code is entered.
- Shifts, iinc, ldc, floating point, array, field and method access, and calls of the runtime.
- ClassParsers.ClassParser.Parse: the file must be long enough for what its counts and lengths say, a long or double must not be the last entry of the pool, and `FieldsDefined` must hold, since the source reads and writes without checking. The values of the static and instance variables are not modelled. Byte counters are unbounded.
- Formats.ComputeFlags: flags are a set instead of bits of a word. `def` only stores its arguments and the two string lengths.
- TypedArrays.SnapJVMRuntime.NewArray: the address that `malloc` returns is a parameter; the size must fit an int, since otherwise the array does not fit the block, or memory does not have it (`AskedSizeExact`). Indices must be in range, since the runtime only prints a message for others.
- Keystone, mmap, reading the file, `Object.cpp`, the listings and the command line: foreign code or input and output.
