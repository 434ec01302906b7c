# The Mythryl heapcleaner, modelled and proved in Dafny

This project models the memory manager of the Mythryl runtime and proves what it promises: the generational
copying heapcleaner (minor and major cleans), its remembered set, weak references, hugechunks, to-space sizing,
the allocation paths, the protocol that stops all threads for a clean, the allocator of hugechunks, and how heaps and
datastructures are written to files and read back.

The memory is an array of words (`HeapObject.Heap`), addressed by word index.  Each phase of the cleaner is a method
over that array in the shape of the C function it models.  What holds while cleaning is said by predicates over a
ghost snapshot of the heap (`Forwarding.Flip`) and the progress made (`Forwarding.Copy`); lemmas about those values
carry the proofs, and the methods' contracts tie the memory to them.

How the files build on each other:

- `HeapTags`, `HeapModel`: words and their bits, sibs, cards, quires, labels.
- `Forwarding`: copying as a relation between memories; liveness; room.
- `MajorForward`, `MajorSweep`, `MajorCards`, `MajorRoots`, `Weakrefs`, `MajorClean`, `CleanResult`: the phases of a
  major clean and what they add up to.
- `MajorHuge`, `MajorSizing`, `MajorFinish`: hugechunks, sizes, senior boundaries and trimming.
- `HeapWorld`, `MajorSetup`, `MajorRest`, `MajorRisk`, `MajorMain`: a heap between cleans (`AtRest`), and that a major
  clean goes from one to another.
- `MinorForward`, `MinorClean`, `MinorRest`: the same for the nursery and its changelog (`AtWork`).
- `NurseryLabels`, `CallHeapcleaner`, `Mutator`, `TaskObject`, `FirstHeap`, `SetUpHeap`: runs of a single hostthread.
- `FreshMemory`: memory not granted stays free for later cleans.
- `MixedQuire`, `ExactFit`: a heap on which the card scan goes wrong, and a request that is retried for ever.
- `StopTheWorld`, `Hostthreads`: the stop-the-world protocol as a transition system, and the functions that take its
  steps.
- `HugechunkPool`, `HugechunkQuire`, `HugechunkFreelist`, `HugechunkHeap`: the allocator of hugechunks.
- `CfunTable`, `HeapImage`, `HeapImport`, `Pickle`: tables of C functions, heap images and pickles.
- `Literals`, `LiteralMachine`: the bytecode that makes literals.

## Findings

- **Card marks.** Re-marking a dirty card of an uncleaned agegroup looks only at the references it follows
  (src/c/heapcleaner/heapclean-n-agegroups.c:1160-1235).  If all of those lead to code older than another reference of
  the same card, the new mark is too old and that reference is lost to later scans.  This needs a quire that holds live
  code at least two ages above its label.  `MixedQuire.MixedQuireIsAtRisk` is such a heap and
  `MixedQuire.MixedQuireGoesWrong` cleans it; `MajorRisk.CardsAreRight` gives the exact condition on the heap before the
  clean, `MajorRisk.SafeUnlessMixed` two conditions under which it cannot happen.
- **Missed extra roots.** A thread that still waits for one clean when the next one starts has its extra roots
  registered in the first only (src/c/heapcleaner/hostthread-heapcleaner-stuff.c:338-385).
  `StopTheWorld.RootsAreThoseOfThisRound` says exactly whose are registered; `StopTheWorld.RootsCanBeMissed` is a run
  in which some are not.
- **Lost cons cells.** The importer counts the books of a sib from the sib's size and forgets that cons cells start two
  words into their first book (src/c/heapcleaner/import-heap.c:414-425).  If their size is a multiple of 64KB the last
  cell is looked up in a book nobody marked, in memory nobody cleared: `HeapImport.CellsAreMarked`,
  `HeapImport.LastCellIsLost`.
- **Unpublished addresses.** An external pointer that no name is published for is replaced by void on export, and the
  repair cannot bring it back (`HeapImage.PatchIsUndone`, `HeapImage.UnpublishedIsLost`).
- **Quire sizes.** The quire sizing loop does not always find the smallest quire that holds the request: it does if and
  only if its first guess, filled up with pages, needs no larger record, and otherwise it is one book over
  (`HugechunkQuire.LeastQuire`, `HugechunkQuire.LeastFilledQuire`, `HugechunkQuire.OneBookOver`).
- **Seniors at once.** The comment at src/c/heapcleaner/heapclean-n-agegroups.c:367-371 and the code disagree about
  chunks promoted into an agegroup that is cleaned too: they are senior at once.  The model follows the code.
- **Stale sizes.** The fallback after a failed quire allocation uses, for a sib that is not in use and needs nothing,
  the smallest size computed for its next younger sibling (src/c/heapcleaner/heapclean-n-agegroups.c:1050-1056).  It
  wastes memory and does no harm (`MajorSizing.MinAtServes`).
- **Retry for ever.** Direct allocation in agegroup1 asks for strictly more room than it needs
  (src/c/heapcleaner/make-strings-and-vectors-etc.c:496-521).  After a major clean it lacks it if and only if the sib fits
  the need exactly, and then it cleans again with the same request.  What is needed is what is in use, the vector with
  its tagword and a nursery; only whole books fit exactly, and they always do if they are at or beyond the soft limit
  and trimming is on (`TaskObject.MakeNonemptyRwVector`, `MajorFinish.WhenTrimLeavesNothing`).  If what is in use stays
  the same, so does the outcome: `ExactFit.TryForever` is a run in which any number of tries fail, none for lack of
  memory.

## Model

| member | source | states |
|---|---|---|
| HeapTags.MarksAreBitsOnTheAddress | src/c/h/heap-tags.h:48-70 | The two marks that forwarding leaves in heap words are the address with exactly one tag bit set, are read back exactly, and no sweeper takes either for a pointer |
| HeapTags.DecodeEncode | src/c/h/heap-tags.h:48-70 | The three kinds of word have disjoint bit patterns: reading the bits of a word gives that word |
| HeapTags.EncodeDecode | src/c/h/heap-tags.h:48-70 | Every bit pattern is the bits of some word |
| MajorForward.ForwardChunk | src/c/heapcleaner/heapclean-n-agegroups.c:1485-1723 | Returns the one copy of a live chunk, making it if there is none yet; keeps the copying invariant: every chunk has at most one copy, all of its words, kind and length preserved, no word outside changed |
| MajorForward.ForwardSpecialChunk | src/c/heapcleaner/heapclean-n-agegroups.c:1791-1982 | As for plain chunks; a weakref whose referent is not copied yet is put on the chain with two marked words, any other special is copied as it is |
| Forwarding.NextCopyFits | src/c/heapcleaner/heapclean-n-agegroups.c:789-1080 | However far copying has gone and in whatever order, the next chunk fits its to-space if each to-space is as large as all that may be copied into it |
| Forwarding.CopiedAtMost | src/c/heapcleaner/heapclean-n-agegroups.c:789-1080 | No more has been copied into a sib than the words of the chunks bound for it |
| Forwarding.CopiedIsLive | src/c/heapcleaner/heapclean-n-agegroups.c:1386-1479 | Once nothing copied refers to anything that is not, the copied chunks are exactly the strongly reachable ones, whatever the order of visits |
| MajorRoots.SecondVisitMisreads | src/c/heapcleaner/heapclean-n-agegroups.c:146-162 | Why root locations must be distinct: a location that has been visited refers to a to-space, and that carries the labels of what is being cleaned exactly when the chunk did not leave the cleaned agegroups |
| CleanResult.GraphIsCopied | src/c/heapcleaner/heapclean-n-agegroups.c:1386-1479 | When every reference out of a copy has been followed and the weakrefs are settled, the to-spaces hold a graph isomorphic to the live graph: one copy per live chunk, no two overlapping, same lengths and data, references moved along, each weakref holding its referent's copy or nulled.  A nursery chunk is in the sib its tagword says, an older one in its own sib or, from below the boundary, in the next; all keep their tagword but pairs, and the sibs of cons cells hold nothing but pairs |
| MajorSweep.ForwardRestOfRoPointersSib | src/c/heapcleaner/heapclean-n-agegroups.c:1249-1286 | Sweeps an immutable sib's queue to its end, even while it grows, visiting each word once and following every reference |
| MajorCards.ForwardRestOfRwPointersSib | src/c/heapcleaner/heapclean-n-agegroups.c:1288-1382 | The same for mutable vectors, noting per card the least age the swept words refer to: every swept word stays covered by its card, and every mark that was lowered is the age of what a swept word of that card refers to |
| MajorRoots.ForwardAllRootChunks | src/c/heapcleaner/heapclean-n-agegroups.c:1084-1110 | Visits every root once; afterwards each refers to the copy of what it referred to |
| MajorRoots.ForwardAllChunksReferencedByUncleanedAgegroups | src/c/heapcleaner/heapclean-n-agegroups.c:1113-1245 | Visits exactly the words on dirty cards of the uncleaned agegroups and re-marks each such card with the least age its followed references now have |
| MajorClean.CleanPlainChunks | src/c/heapcleaner/heapclean-n-agegroups.c:667-723 | A major clean up to its hugechunk pass terminates with the live graph copied, every outside reference moved along, nothing else changed, cards covering every word that was not on a card at risk, and exactly the reached hugechunks marked |
| MajorClean.MarkHasCause | src/c/heapcleaner/heapclean-n-agegroups.c:1288-1382 | After a major clean the mark of every card is the one the scan left there, or that of the new map, or just the age of what some copied word on the card refers to |
| Weakrefs.NullOutNewlyDeadWeakrefs | src/c/heapcleaner/heapcleaner-stuff.c:240-340 | Walks the chain of weakrefs backwards and leaves each with its referent's copy if that was made and nulled otherwise, with no link and no marked word left |
| MajorClean.RemarkIsRight | src/c/heapcleaner/heapclean-n-agegroups.c:1113-1245 | The mark that scanning leaves on a dirty card covers all its words if and only if the card was not at risk |
| MajorRisk.CardsAreRight | src/c/heapcleaner/heapclean-n-agegroups.c:1113-1245 | After a clean of ages 1 to k every card agrees with a full scan if and only if, in the heap before the clean, no card was at risk |
| MajorRisk.RiskyIsLost | src/c/heapcleaner/heapclean-n-agegroups.c:1113-1245 | On every card at risk some reference is lost: its card is marked older than what it refers to |
| MajorRisk.OffRiskIsCovered | src/c/heapcleaner/heapclean-n-agegroups.c:1113-1245 | Every word that was on no card at risk is covered by its card afterwards |
| MajorRisk.RiskNeedsMixedQuire | src/c/heapcleaner/heapclean-n-agegroups.c:1113-1245 | A card is at risk only through live code at least two ages older than the oldest cleaned agegroup, in a quire labelled as being cleaned |
| MajorRisk.SafeUnlessMixed | src/c/heapcleaner/heapclean-n-agegroups.c:1113-1245 | No card is at risk if all agegroups but the oldest are cleaned, or if no quire holds live code more than one age above its label |
| MixedQuire.MixedQuireIsAtRisk | src/c/heapcleaner/heapclean-n-agegroups.c:1113-1245 | A concrete heap at rest in which a card is at risk when agegroup1 is cleaned |
| MixedQuire.MixedQuireGoesWrong | src/c/heapcleaner/heapclean-n-agegroups.c:1113-1245 | Cleaning agegroup1 of that heap with four books granted succeeds, cleans nothing else, keeps everything else of the invariant and leaves a wrong card |
| MajorForward.MarkHugechunkAsLive | src/c/heapcleaner/heapclean-n-agegroups.c:1727-1787 | Finds the descriptor covering a code address and moves it to its waiting state if its age is being cleaned; everything else is unchanged |
| MajorHuge.ForwardPromoteOrReclaimAllHugechunks | src/c/heapcleaner/heapclean-n-agegroups.c:164-359 | Afterwards each live hugechunk is in exactly the list of its age, none is waiting, the oldest agegroup holds only juniors, every from-space book is unmapped and each quire's label is at most the age of every live chunk in it |
| MajorHuge.SurvivesIfMarked | src/c/heapcleaner/heapclean-n-agegroups.c:164-359 | A hugechunk survives if and only if it was live and either older than what was cleaned or marked; it ages by at most one |
| MajorHuge.QuireLabel | src/c/h/heap.h:360-400 | The label of a code address is at most the age of the live hugechunk there |
| MajorSizing.SizeSib | src/c/heapcleaner/heapclean-n-agegroups.c:993-1030 | The chosen to-space is the whole number of books that just holds what is preferred: asked for plus what may be promoted plus the juniors per younger clean times the ratio; or the least that serves if that is more; or, when the preference is beyond the soft limit, the larger of soft limit and least |
| MajorSizing.EstablishAllRequiredEmptyTospaceSibBuffers | src/c/heapcleaner/heapclean-n-agegroups.c:789-1080 | Flips the agegroups asked for and each older one that could not absorb what may be promoted into it, and no others; each gets to-spaces of just the sizes chosen first if they are granted together and of the smallest sizes otherwise; counts each cleaning once; fails only if an agegroup is granted less than its smallest sizes |
| MajorSizing.MinAtServes | src/c/heapcleaner/heapclean-n-agegroups.c:893-1060 | The smallest sizes, which are fallen back on, are enough too, even where a stale one of the next younger sib is used |
| MajorSetup.FlipHasRoom | src/c/heapcleaner/heapclean-n-agegroups.c:789-1080 | Every to-space of a pointer sib, and the pointer sibs of the first agegroup not cleaned, are at least as large as all that may arrive |
| MajorMain.RoomAfterMajor | src/c/heapcleaner/heapclean-n-agegroups.c:1986-2042 | After a major clean and trimming each pointer sib of agegroup1 has room for a nursery and what was asked for |
| MajorFinish.TrimHeap | src/c/heapcleaner/heapclean-n-agegroups.c:1986-2042 | Trimming lowers only limits, never into used space.  Unless it is off, every sib of a cleaned agegroup ends with just the size its soft limit and its need say, the need being what is used, what was asked for and a nursery or the trimmed next younger sib |
| MajorFinish.TrimmedIsLeast | src/c/heapcleaner/heapclean-n-agegroups.c:2008-2038 | That size is the old one if that is within the soft limit, else the soft limit if that is more than the need, else the least whole books that hold the need or the old size, whichever is less |
| MajorFinish.UpdateFromspaceSeniorchunksEndPointers | src/c/heapcleaner/heapclean-n-agegroups.c:362-404 | Every chunk of a cleaned agegroup is senior afterwards, except that the oldest agegroup has only juniors |
| MajorSetup.FlipIsReady | src/c/heapcleaner/heapclean-n-agegroups.c:635-664 | Flipping any heap at rest gives a heap that copying can start from, with room everywhere |
| MajorRest.PlacesKeepOrder | src/c/heapcleaner/heapclean-n-agegroups.c:1542-1578 | A clean never reverses the order of two places (age, then seniority) |
| MajorRest.RestOrdered | src/c/heapcleaner/heapclean-n-agegroups.c:362-404 | No immutable chunk refers to a younger place than its own after a major clean if none did before |
| MajorRest.CleanRests | src/c/heapcleaner/heapclean-n-agegroups.c:667-723 | A major clean of any number of agegroups leaves a heap at rest: well-formed, every chunk at home, boundaries, order of immutable chunks, hugechunk lists and labels all intact |
| MajorMain.HeapcleanNAgegroups | src/c/heapcleaner/heapclean-n-agegroups.c:667-723 | The whole major clean: copies the live graph, keeps the reached hugechunks, leaves a heap at rest with room for the next nursery, with right cards if and only if no card was at risk; cleans no agegroup for nothing and fails only for lack of memory |
| MinorForward.ForwardAgegroup0ChunkToAgegroup1 | src/c/heapcleaner/heapclean-agegroup0.c:421-545 | Returns the one copy of a live nursery chunk: a record of two words stands without its tagword in the sib of cons cells, any other chunk behind its tagword in the sib for its b-tag |
| MinorClean.ProcessTaskHeapChangelog | src/c/heapcleaner/heapclean-agegroup0.c:261-338 | Follows every logged reference into the nursery and lowers cards so that every mutable word is covered again; only logged words change, and every mark that was lowered is the age of what a logged word of that card refers to |
| MinorClean.HeapcleanAgegroup0 | src/c/heapcleaner/heapclean-agegroup0.c:81-232 | A minor clean of a heap whose references into the nursery from outside are all logged or roots copies the live nursery graph, each chunk to the sib its tagword says, and leaves no reference to the nursery, every mutable word covered and no card lowered without a logged word that refers to that age |
| MinorRest.MinorCleanRests | src/c/heapcleaner/heapclean-agegroup0.c:81-232 | What a minor clean leaves is a heap at rest |
| CallHeapcleaner.MinorCopiesAtMost | src/c/heapcleaner/call-heapcleaner.c:203-217 | A minor clean copies no more words into a pointer sib than the nursery held |
| CallHeapcleaner.CallHeapcleaner | src/c/heapcleaner/call-heapcleaner.c:194-245 | Minor clean, then a major one if and only if it was asked for or some active sib of agegroup1 has less room than the nursery's size; agegroup1 has that room again afterwards |
| CallHeapcleaner.UnpaddedFits | src/c/heapcleaner/heapclean-n-agegroups.c:1631-1640 | Without eight-byte data no alignment gap arises, and the room that is there is enough for the minor clean and any major one after it |
| Mutator.GrowthKeepsWork | src/c/h/make-strings-and-vectors-etc.h:34-46 | A new chunk, in the nursery or at the free end of a sib of agegroup1, keeps the heap at work |
| Mutator.ChangeKeepsWork | src/c/heapcleaner/heapclean-agegroup0.c:261-338 | A logged store into a mutable chunk, or a store into a root, keeps the heap at work |
| FirstHeap.FirstHeapRests | src/c/heapcleaner/heapcleaner-initialization.c:250-400 | The first heap is at rest and agegroup1 has room for a nursery |
| SetUpHeap.SetUp | src/c/heapcleaner/heapcleaner-initialization.c:205-425 | A run starts at work |
| TaskObject.CommitNascentHeapchunk | src/c/h/make-strings-and-vectors-etc.h:34-46 | Allocates exactly the given words in the nursery and keeps the run invariant |
| TaskObject.Store | src/c/heapcleaner/heapclean-agegroup0.c:48-53 | Changes that one word, logs it and keeps the run invariant |
| TaskObject.Heapclean | src/c/heapcleaner/call-heapcleaner.c:57-258 | A call of the heapcleaner keeps the run invariant if no card was at risk, which is so if before the call no quire held live code more than one age above its label |
| FreshMemory.FreshAfterMajor | src/c/heapcleaner/heapclean-n-agegroups.c:789-1080 | Memory that is in nobody's use and is not granted to a clean is in nobody's use after it |
| TaskObject.MakeNonemptyRwVector | src/c/heapcleaner/make-strings-and-vectors-etc.c:434-560 | Allocates a vector of that length holding the value throughout: a small one in the nursery at once; a large one at the free end of the mutable sib of agegroup1, at once if there is more room than it and a nursery need and the value is no pointer, else after a clean; no result if and only if the sib, as the clean if any left it, has not that much room; after a major clean that is if and only if it fits exactly, which only whole books do; keeps the run invariant |
| MajorFinish.WhenTrimLeavesNothing | src/c/heapcleaner/heapclean-n-agegroups.c:2008-2038 | Trimming leaves no word beyond what is needed if and only if that is whole books and either the to-space was no larger or the need is at or beyond the soft limit |
| ExactFit.TryOnce | src/c/heapcleaner/make-strings-and-vectors-etc.c:489-521 | In a heap that holds nothing, a request that makes whole books with a nursery fails though memory is granted, and leaves things as they were |
| ExactFit.TryForever | src/c/heapcleaner/make-strings-and-vectors-etc.c:489-521 | For every n, n tries in a row fail |
| StopTheWorld.RunKeepsInv | src/c/heapcleaner/hostthread-heapcleaner-stuff.c:222-429 | Every step of every run keeps the protocol's invariant: counts, modes, who waits and who sleeps, whose extra roots are registered |
| StopTheWorld.SafeAlways | src/c/heapcleaner/hostthread-heapcleaner-stuff.c:222-313 | In every reachable state the count is the number of running threads, there is at most one primary, a primary exactly when a clean is starting or going on, and nobody runs while one is going on |
| StopTheWorld.NobodyRunsDuringCleaning | src/c/hostthread/hostthread-on-posix-threads.c:1351-1397 | While a clean goes on no step, of creation, exit, release, recovery or waking, makes a thread run, except the one that finishes the clean |
| StopTheWorld.EndedIsGone | src/c/hostthread/hostthread-on-posix-threads.c:835-863 | After a thread has ended none of its steps is possible, however the run goes on, until another thread is created in its slot, and any running thread may do that |
| StopTheWorld.ReleasedMayRecover | src/c/hostthread/hostthread-on-posix-threads.c:1351-1397 | After a thread has released its heap it may recover it at any time and do nothing else; it then runs unless a clean is starting or going on, and waits if one is |
| StopTheWorld.StarterFinishes | src/c/heapcleaner/hostthread-heapcleaner-stuff.c:222-313 | The thread that starts a clean is its only primary until it has finished it, however the run goes on; nobody else can finish it or start another |
| StopTheWorld.CreatedRuns | src/c/hostthread/hostthread-on-posix-threads.c:699-830 | A created thread may do whatever a running one may; one that could not be started leaves all others as they were |
| StopTheWorld.FinishedRuns | src/c/heapcleaner/hostthread-heapcleaner-stuff.c:410-429 | The end of a clean makes just its primary run |
| StopTheWorld.WakeupIsSent | src/c/heapcleaner/hostthread-heapcleaner-stuff.c:265-313 | Every step that makes true what a sleeping thread waits for wakes it |
| StopTheWorld.NoDeadlock | src/c/heapcleaner/hostthread-heapcleaner-stuff.c:265-313 | In every reachable state some step gets something done if and only if there is a thread left |
| StopTheWorld.AllMayResume | src/c/heapcleaner/hostthread-heapcleaner-stuff.c:410-429 | Once a clean has ended every thread that waited for its end can run again |
| StopTheWorld.StartingEnds | src/c/heapcleaner/hostthread-heapcleaner-stuff.c:265-290 | While a clean is starting every step but a creation and a spurious wakeup brings it closer, so it begins |
| StopTheWorld.RootsAreThoseOfThisRound | src/c/heapcleaner/hostthread-heapcleaner-stuff.c:316-408 | The registered extra roots are those of exactly the threads that handed theirs in since the present clean began to start |
| StopTheWorld.RootsByHistory | src/c/heapcleaner/hostthread-heapcleaner-stuff.c:316-408 | Told from the events of the run: a thread's extra roots are registered if and only if one of its calls that handed some in was made in the round of the present or last clean |
| StopTheWorld.RootsCanBeMissed | src/c/heapcleaner/hostthread-heapcleaner-stuff.c:338-385 | A run at whose end a clean goes on without the extra roots of a thread that waits through it |
| Hostthreads.Runtime.StartHeapcleaning | src/c/heapcleaner/hostthread-heapcleaner-stuff.c:222-408 | Takes exactly the protocol's step, waiting included, and keeps its invariant |
| Hostthreads.Runtime.FinishHeapcleaning | src/c/heapcleaner/hostthread-heapcleaner-stuff.c:410-429 | Takes exactly the protocol's step, broadcast included |
| Hostthreads.Runtime.RecoverMythrylHeap | src/c/hostthread/hostthread-on-posix-threads.c:1374-1397 | Takes exactly the protocol's step: runs again unless a clean is starting or going on |
| Hostthreads.Runtime.ReleaseMythrylHeap | src/c/hostthread/hostthread-on-posix-threads.c:1351-1371 | Takes exactly the protocol's step, broadcast included |
| Hostthreads.Runtime.PthreadExit | src/c/hostthread/hostthread-on-posix-threads.c:835-863 | Takes exactly the protocol's step, which makes its slot void (StopTheWorld.EndedIsGone) |
| Hostthreads.Runtime.PthreadCreate | src/c/hostthread/hostthread-on-posix-threads.c:699-830 | Takes exactly the protocol's step in the first void slot; none is left void after a success |
| Hostthreads.Runtime.ValidateRunningHostthreadsCount | src/c/heapcleaner/hostthread-heapcleaner-stuff.c:185-215 | Recounting the running threads never finds a difference |
| HugechunkPool.PagesArePartitioned | src/c/heapcleaner/hugechunk.c:43-360 | Chunks partition the pages of each quire: a page is covered by exactly one, the one the page map names |
| HugechunkPool.SplitKeepsInv | src/c/heapcleaner/hugechunk.c:225-262 | Carving a chunk from the front of a free one keeps partition, page map, coalescing and counts |
| HugechunkPool.FreedKeepsInv | src/c/heapcleaner/hugechunk.c:273-360 | Freeing with both neighbours merged keeps them too: no two adjacent chunks are free, and free_pages counts the free pages |
| HugechunkPool.FreeUndoesSplit | src/c/heapcleaner/hugechunk.c:146-360 | Freeing the chunk just split off restores the free chunk and the counts; only the mark of the youngest age stays |
| HugechunkQuire.SizeQuire | src/c/heapcleaner/hugechunk.c:67-94 | The sizing loop ends for every request; record and pages fill the quire exactly, which is whole books, at least 128KB and large enough |
| HugechunkQuire.SecondRefitIsFixpoint | src/c/heapcleaner/hugechunk.c:67-94 | It ends because the second refit is always the last; the size first guessed stays exactly when filling it up does not make the record grow, and is one book short otherwise |
| HugechunkQuire.LeastQuire | src/c/heapcleaner/hugechunk.c:67-94 | The quire found is the smallest that holds the request, with or without room to spare, if and only if the first guess, filled up, needs no larger record |
| HugechunkQuire.LeastFilledQuire | src/c/heapcleaner/hugechunk.c:67-94 | The same among the quires that record and pages fill exactly, with its own condition |
| HugechunkQuire.AtMostOneBookOver | src/c/heapcleaner/hugechunk.c:67-94 | No quire that holds the request, with or without room to spare, is smaller than the one found by more than one book |
| HugechunkQuire.OneBookOver | src/c/heapcleaner/hugechunk.c:67-94 | Two requests for which a quire one book smaller would do, one filled exactly and one with room to spare |
| HugechunkFreelist.RemoveKeepsRing | src/c/h/heap.h:459-483 | Unlinking a node leaves a ring of the others in the same order |
| HugechunkFreelist.InsertKeepsRing | src/c/h/heap.h:459-483 | Inserting behind the header leaves a ring with the node first |
| HugechunkHeap.HugechunkHeap.AllocateHugechunkQuire | src/c/heapcleaner/hugechunk.c:96-141 | A new quire is one free chunk that every page is mapped to |
| HugechunkHeap.HugechunkHeap.AllocateHugechunk | src/c/heapcleaner/hugechunk.c:146-270 | Takes the first chunk of the freelist that fits, whole or its front, or else a new quire; exactly one chunk becomes live, of the size and age asked for; the freelist still holds exactly the free chunks, and books carry the youngest age |
| HugechunkHeap.HugechunkHeap.FreeHugechunk | src/c/heapcleaner/hugechunk.c:273-360 | Exactly one chunk stops being live, merged with its free neighbours, which leave the freelist as it enters it; nothing else changes |
| HugechunkHeap.HugechunkHeap.AddressToHugechunk | src/c/heapcleaner/hugechunk.c:363-380 | Walking down the book labels and reading the page map finds the chunk that holds an address |
| CfunTable.SymbolTable.PublishCfun | src/c/heapcleaner/mythryl-callable-cfun-hashtable.c:167-351 | Publishes unless the name or the address is published with another partner, through every doubling of the buckets |
| CfunTable.IndexesAreInverse | src/c/heapcleaner/mythryl-callable-cfun-hashtable.c:360-424 | The lookups by name and by address are inverse to each other |
| CfunTable.HeapfileCfunTable.AddCfun | src/c/heapcleaner/mythryl-callable-cfun-hashtable.c:450-559 | An address gets one index for good: indices are dense, in order of first use, never change and belong to one address each; an unpublished address gets none |
| CfunTable.ReadExternsTable | src/c/heapcleaner/import-heap-stuff.c:37-69 | Reads back the names that were written one after the other and looks each up; fails only if one is not published |
| CfunTable.ExternsRoundTrip | src/c/heapcleaner/export-heap-stuff.c:56-138 | Where the same resources are published every index gets its address back |
| HeapImage.PatchIsUndone | src/c/heapcleaner/export-heap.c:239-267 | Undoing the replacement of a word gives it back if and only if it was not a pointer to something unpublished |
| HeapImage.UnpublishedIsLost | src/c/heapcleaner/export-heap.c:239-267 | A word that is lost |
| HeapImage.ExportHeapImage | src/c/heapcleaner/export-heap.c:239-296 | The image has a tag for every external pointer of every pointer sib; the heap in memory is afterwards as it was but for pointers to unpublished resources |
| HeapImport.OldBook2sibid | src/c/heapcleaner/import-heap.c:346-442 | The table of the old address space has the right label in every book a header marks, and in every other what its memory held |
| HeapImport.MarksCover | src/c/heapcleaner/import-heap.c:414-425 | All words of a sib lie in marked books if and only if they fit, from where its first word is, in as many books as its size rounds to |
| HeapImport.CellsAreMarked | src/c/heapcleaner/import-heap.c:414-425 | For a sib of cons cells all cells do if and only if its size does not fill whole books |
| HeapImport.LastCellIsLost | src/c/heapcleaner/import-heap.c:414-425 | A sib whose last cell is looked up in uncleared memory |
| HeapImport.HugeTarget | src/c/heapcleaner/import-heap.c:902-927 | Every address in a hugechunk that was read is mapped to the same offset in its new place |
| HeapImport.ReadHugechunks | src/c/heapcleaner/import-heap.c:483-592 | Places the hugechunks of each agegroup one directly behind the other from the first page of a quire of its own, and enters for every page of each where it went |
| HeapImport.StackedFits | src/c/heapcleaner/import-heap.c:739-755 | Chunks placed so all lie in the quire got for them and none over another |
| HeapImport.HugechunksApart | src/c/heapcleaner/import-heap.c:739-755 | No two hugechunks of all agegroups share a word of the new heap |
| HeapImport.ImportKeepsApart | src/c/heapcleaner/import-heap.c:860-927 | Different old addresses, in sibs or hugechunks, become different new ones, if no quire that was got overlaps another or a sib |
| HeapImport.RepairImportedHeap | src/c/heapcleaner/import-heap.c:795-856 | Repairs every word of every pointer sib, each once, and leaves data alone |
| HeapImport.RepairSib | src/c/heapcleaner/import-heap.c:815-848 | Repairs each word of a sib and marks the cards: never older than what a word of the card refers to, and never without such a word |
| HeapImport.ImageRoundTrip | src/c/heapcleaner/import-heap.c:805-898 | Every word of a heap that is exported and imported arrives at the same place of its sib, and what it refers to at the same place of its sib or hugechunk; external references are the same addresses |
| HeapImport.CardsAgree | src/c/heapcleaner/import-heap.c:815-848 | After the import every mutable word that refers to a younger sib or hugechunk is on a card that says so |
| Pickle.HioRoundTrip | src/c/heapcleaner/runtime-heap-image.h:188-194 | Kind and offset packed in one word are read back if and only if the offset has at most 24 bits |
| Pickle.PickleHeapDatastructure | src/c/heapcleaner/datastructure-pickler.c:124-449 | Refuses exactly what holds code; otherwise writes every word of every sib at its offset in the merged buffer of its kind |
| Pickle.ReadImage | src/c/heapcleaner/datastructure-unpickler.c:210-292 | Appends each buffer to its sib of agegroup1, adjusts every word that is not data, and changes nothing else |
| Pickle.PickleRoundTrip | src/c/heapcleaner/datastructure-unpickler.c:98-298 | Reading what was pickled gives every word of a closed set of sibs back at its new place, data unchanged, references moved along, external references as their addresses |
| Pickle.RootRoundTrip | src/c/heapcleaner/datastructure-unpickler.c:273-289 | The root that is read follows the root that was pickled |
| Pickle.HomesAreApart | src/c/heapcleaner/datastructure-pickler.c:149-188 | No two words arrive at the same place, so sharing is neither lost nor made |
| Literals.CodeMakesLiteral | src/c/heapcleaner/make-package-literals-via-bytecode-interpreter.c:48-67 | The postfix code of any literal, referring back to literals made before, pushes exactly that literal and leaves the rest of the list as it was |
| Literals.StackAfterCleaning | src/c/heapcleaner/make-package-literals-via-bytecode-interpreter.c:192-231 | The list of literals means the same after any heapcleaning that has it as a root |
| Literals.TaggedIsKept | src/c/heapcleaner/make-package-literals-via-bytecode-interpreter.c:235-241 | A tagged literal is the number in the bytecode if and only if that has 31 bits |
| LiteralMachine.PutGet | src/c/heapcleaner/make-package-literals-via-bytecode-interpreter.c:95-104 | Four bytes in big-endian order are read back as the signed number they are |
| LiteralMachine.SampleMakesRecord | src/c/heapcleaner/make-package-literals-via-bytecode-interpreter.c:48-104 | A program given byte for byte and the record it makes |
| LiteralMachine.Interpreter.MakePackageLiterals | src/c/heapcleaner/make-package-literals-via-bytecode-interpreter.c:192-475 | Running a program of instructions returns the literal it makes, wherever heapcleanings happen and whatever they move; no literal for a short vector, death for a wrong magic number or opcode |

## Left out

- 32-bit overflow of sizes and addresses: words and sizes are unbounded.
- Memory from the operating system: the regions it would grant are parameters, required to be in nobody's use.
- MajorHuge.DealWithOne: does not coalesce a freed hugechunk with its neighbours or rewrite the page map; freeing is the change of state.
- Reuse of a retained from-space quire: each flip gets new memory.
- MajorSetup.FlipHasRoom: exact space for eight-byte data is not modelled, because its alignment gaps depend on the copying order; CallHeapcleaner.UnpaddedFits covers heaps without such data.
- Runs of several hostthreads share one nursery size test (src/c/heapcleaner/call-heapcleaner.c:223), so runs are those of one hostthread.
- A weakref whose referent is in a younger place than itself: weakrefs are made when their referents exist and are never written by the program, so they are ordered like immutable chunks.
- Card maps of agegroup1: the source makes the first one at the first major clean; here it is there from the start, and nothing reads it before.
- Read-only vectors allocated directly in agegroup1, whose initialisers the source takes from a list; Mutator.GrowthKeepsWork covers the step.
- Statistics, logging, tripwires, debugging code, signals and timers.
- Hostthreads: joining threads, signal masks, the barrier and mutex tables of hostthread-on-posix-threads.c, and the heapcleaning a thread calls just before it exits, which is a step of its own here.
- HugechunkHeap.HugechunkHeap.AllocateHugechunk: does not model failure of the operating system or of malloc, which ends the program; descriptors are numbered instead of having addresses.
- The hugechunk descriptors of a clean (MajorHuge) and those of the allocator (HugechunkHeap) are two models; a clean only changes states, ages and labels.
- CfunTable.SymbolTable.PublishCfun: no nicknames; a doubling moves them only if the name being published has one (src/c/heapcleaner/mythryl-callable-cfun-hashtable.c:235).
- CfunTable.SymbolTable.FindCfun: the hash of a name is a parameter, so the 32-bit arithmetic of HASH_STRING does not matter.
- HeapImage.ExportHeapImage: file offsets, headers other than the sibs' and quires', and the task's registers, which go through the same replacement word by word.
- Pickle.PickleHeapDatastructure: takes the sibs to pickle as closed and their external addresses as entered in the table, which pickler__clean_heap sees to; embedded literals, which the source does not implement either, and pickles of unboxed values.
- LiteralMachine.Interpreter.MakePackageLiterals: programs of well-formed instructions; the source does not check lengths or that the list is long enough.  Room in the nursery is not counted here.
- TaskObject.MakeNonemptyRwVector: makes one try, where the source loops; `ExactFit.TryForever` strings tries together.  The header that make_vector_header adds is a chunk like any other.
- MinorClean.HeapcleanAgegroup0: walks the changelog of one hostthread; the source walks those of all, one after the other.
- CallHeapcleaner.CallHeapcleaner: takes the root locations as given and does not gather them from registers, globals and extra roots.
- MajorHuge.ForwardPromoteOrReclaimAllHugechunks: gives hugechunks back by their state alone, as MajorHuge.DealWithOne does.
