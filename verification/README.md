# Verification model of the loader

The loader runs an Android game library on another console. Most of it forwards calls. This project
models the parts that carry an algorithm, and proves what the rest of the loader relies on. Every
source file named below is cited by its path in the repository.

| files | component |
|---|---|
| `EmergencySet.dfy` | the open-addressing pointer index with deletion by re-insertion |
| `HeapOwners.dfy`, `AllocatorSpec.dfy`, `AllocatorRuns.dfy`, `AllocatorFacade.dfy` | malloc, calloc, memalign, realloc and free above three allocators: who owns what, the calls as functions of the allocators' answers, whole runs of a client, and the code |
| `ArmMachine.dfy`, `Trampoline.dfy`, `SpinThunk.dfy`, `NullGuard.dfy`, `PatchPool.dfy`, `HookAddr.dfy` | the run-time patcher of ARM code, over an interpreter of the encodings it meets |
| `AudioRing.dfy`, `RingCopies.dfy` | the lock-free sample ring between the game's thread and the audio thread |
| `ElfHash.dfy`, `SymbolLookup.dfy`, `Relocation.dfy` | symbol lookup and the two relocation passes |
| `TexRename.dfy`, `StaticGlobals.dfy`, `MulAssign.dfy`, `GlslMeaning.dfy`, `TextBuffer.dfy` | the three passes over shader source, and what the third one does to the meaning |
| `MemCfg.dfy`, `MemCfgRules.dfy`, `MemCfgTidy.dfy` | the rewriting of the heap table: one rule, the rules together, and which rule wins |
| `FboCache.dfy` | the two caches that suppress repeated attachments of renderbuffers and textures |
| `LazySlot.dfy` | mutexes, condition variables and semaphores created on first use |
| `TouchSlots.dfy` | fingers, slots and the events that the game gets |
| `Common.dfy`, `Words.dfy` | what several of them share |

Code that updates state in place is modelled by classes and methods with loops over arrays, each tied
by its `ensures` to a function of the old state; what the component promises is proved about that
function. Threads are modelled by their atomic steps in every order. Words are numbers below 2^32,
and every wrap-around is written out.

## Main results

- The pointer index is exactly a set. Removing a pointer empties its slot and re-inserts the rest of
  the probe chain; the invariant of that loop says which pointers may be missed behind which slots
  while it runs, and that at its end none is. Every probe ends because a slot is empty.
- Above it, every call is a function of the state and of the answers of the underlying allocators,
  and every run of a client is the fold of these functions (`ServeAll`). Whatever the answers, the
  first call that goes wrong is one where the client was not careful: it passes a pointer it does not
  hold, writes outside a block, resizes a block of 6 MB or more, or asks for a size to which the
  header cannot be added in 32 bits (`CarefulRun`). Until then each live pointer has exactly one
  owner, what was asked for and written is still there, also after a resize, and nothing leaks except
  by a resize to 0. Per call it is known exactly when it goes wrong (`FaultIsExact`); `realloc` of a
  block of the big table always does, and every size without room for the header can.
- A trampoline has the effect of the two instructions it replaces if each of them acts at its copy
  as it does in place, in the state in which it runs. Which instructions do is decided exactly:
  everything without the pc, register loads and pops that read the same words from both images,
  taken branches to the next word only, and performed calls never.
- The thunk that replaces the busy loop refines it for every behaviour of the other threads. The null
  guard works because its literal, fallen into, decodes to an instruction whose condition fails: this
  holds for exactly four values of an address's top four bits, 9 among them. The sleeping loop checks
  every tenth move and is out exactly three moves after it read the first 2. Patches and hooks stay
  in place however many others are made later, a later hook of the same words excepted.
- The guard of `make_trampoline` asks for 16 bytes where 24 may be written. The pool then ends at
  0x9C8 instead of 0x9C0, exactly when 0x9B0 bytes were used and one of the instructions loads a
  literal. All thunks stay disjoint and every branch stays in range nevertheless.
- The ring refines an unbounded queue in every interleaving, across the wrap-around of its cursors.
- Relocating and resolving is one function of the initial image in which the order of the entries
  does not matter. The hashed lookup finds a symbol exactly when there is one, and the first one of the
  table when names are unique. That is needed: whenever two symbols qualify, some well-formed
  hash table makes the answers differ (others need not).
- `L *= R` has the same effect after the rewriting, under every interpretation of the operators, if
  and only if the statement is left alone (the text taken for its left side has 48 characters or
  more, or a line break comes before the operator), or L consists of identifier characters only,
  without blanks, and R is no binary or conditional expression. Where `*` is associative R may also be
  a product, and nothing else. `x *= a+b` becomes `x = x *a+b`, and `v [0] *= a` no statement at all;
  `x *= 1e-3` is kept.
- A rule of the heap table leaves a text alone if and only if every size it names is already set; it
  sets them all, changes nothing else, and can be applied twice for once. A later rule undoes it if
  and only if it replaces a size that both name and has another value. So the table sets every size
  it names if no size is named by two rules with different values; a line with two names shows that
  it can miss one. Where no value has a blank inside braces, every size ends with the value of the
  last rule that names it, and that condition is exact. A value stays on its line if and only if the
  text ends there or the line has a delimiter outside all braces.
- With the attach caches the driver is always in the state it would be in without, and they are true,
  as long as a guard holds of every call; the guard is exact, and after a client's call that breaks it
  a continuation of proper calls makes the driver differ. A client meets the guard if it rebinds after
  deleting its bound framebuffer, attaches live names only, attaches either renderbuffers or textures
  at a point, deletes no attached texture, and attaches no other face of the texture that is there;
  for each of these a run shows that it is needed.
- One object is created for a slot, whatever the threads do, and every call returns after at most eight
  steps for each thread. That needs a first value and handles on their sides of 0x10000: a semaphore
  with a count from there on is never created, and a smaller handle is replaced by a second object.
- Every slot's stream of touch events is presses, moves and a release at the last position, in order.

The comment above `make_trampoline` asks for position-independent instructions; the code also
relocates literal loads, and the model follows the code. The comment above `rewrite_memcfg` calls a
name whitespace-delimited; in the code a name at the start of a line, behind a newline, is not found
except at the start of the file, and the model follows the code.

## Model

| member | source | states |
|---|---|---|
| EmergencySet.HoleMeansAbsent | loader/default_dynlib.c:370 | a probe that reaches an empty slot proves that the pointer is not in the table |
| EmergencySet.EmptySlotExists | loader/default_dynlib.c:372-377 | fewer pointers than slots leave an empty slot, so that every probing loop ends |
| EmergencySet.StoreKeepsIndex | loader/default_dynlib.c:377 | storing a pointer where its probe ends keeps every stored pointer reachable from its home and adds just that pointer |
| EmergencySet.RebuildingStart | loader/default_dynlib.c:385 | emptying a slot leaves only pointers of the rest of its chain unreachable |
| EmergencySet.MovedPastHole | loader/default_dynlib.c:386 | a slot vacated by re-insertion can only be missed by pointers that are still to be moved |
| EmergencySet.RebuildingStep | loader/default_dynlib.c:386 | one round of re-insertion keeps the set and shrinks the part that may be unreachable |
| EmergencySet.RebuildingDone | loader/default_dynlib.c:386 | the first empty slot met is the end of the old chain, and then no pointer is behind a hole |
| EmergencySet.EmergencyTable.Find | loader/default_dynlib.c:370 | answers exactly membership, with the pointer's slot |
| EmergencySet.EmergencyTable.Probe | loader/default_dynlib.c:377 | ends, at the first empty slot from the pointer's home |
| EmergencySet.ProbedMeans | loader/default_dynlib.c:369-377 | the probe goes slot by slot from the 32-bit hash of the pointer, around the end of the 16384 slots |
| EmergencySet.EmergencyTable.Insert | loader/default_dynlib.c:377 | adds exactly the pointer, and counts it, up to half of the table |
| EmergencySet.EmergencyTable.Reinsert | loader/default_dynlib.c:385-386 | the loop ends with the index whole again and the same pointers in it |
| EmergencySet.EmergencyTable.Remove | loader/default_dynlib.c:381-388 | yields exactly the old set without the pointer, the count one less, and says whether it was there |
| HeapOwners.SizeRoundTrip | loader/default_dynlib.c:376-396 | the size read back from a header is the one that was written |
| HeapOwners.Owners.FreshMeansNew | loader/default_dynlib.c:371-380 | nothing inside a newly handed out block is known to any of the three owners, so a pointer behind a header is new |
| HeapOwners.Owners.AddEmerg | loader/default_dynlib.c:371-380 | a block recorded behind its header gets exactly one owner, all others keep theirs |
| HeapOwners.Owners.WriteIsLocal | loader/default_dynlib.c:392-398 | writing to a live block disturbs neither another block nor any owner |
| AllocatorSpec.EmergMeans | loader/default_dynlib.c:371-380 | the emergency allocator asks RAM and then VRAM for 16 bytes more, unless the alignment exceeds 16 or 8192 blocks are live; it leaves nothing, or one new recorded block with its owner, too short exactly when the header addition wraps around |
| AllocatorSpec.RequestMeans | loader/default_dynlib.c:391-393 | malloc and memalign as functions of the answers: who is asked in which order, and that the first grant is the client's new block |
| AllocatorSpec.CallocMeans | loader/default_dynlib.c:392 | the same of calloc, for every product, and the block is cleared |
| AllocatorSpec.ReallocMeans | loader/default_dynlib.c:394-401 | the same of realloc: the new block starts like the old one and takes its place, or the old one stays; wrong exactly for pointers that newlib gets and does not own, and for wrapped sizes |
| AllocatorSpec.NullMeans | loader/default_dynlib.c:391-393 | NULL only if newlib refused and the emergency allocator was full or both of its pools refused |
| AllocatorRuns.FreeMeans | loader/default_dynlib.c:390 | a live pointer leaves its owner, and just that; wrong exactly for other pointers but NULL |
| AllocatorRuns.FaultIsExact | loader/default_dynlib.c:390-401 | for every call of a client, exactly when it goes wrong |
| AllocatorRuns.StepKeeps | loader/default_dynlib.c:390-401 | a call that does not go wrong keeps single ownership and everything that the client knows of its blocks |
| AllocatorRuns.RunKeeps | loader/default_dynlib.c:346-401 | so does every run, and what the client holds is what its calls and the answers make it |
| AllocatorRuns.CarefulRun | loader/default_dynlib.c:346-401 | in every run, whatever the allocators answer, the first call that goes wrong is not careful, by the client's own knowledge |
| AllocatorRuns.NothingIsLost | loader/default_dynlib.c:362-401 | the client holds every live pointer unless it resizes to 0, and when it has released all no memory is in use |
| AllocatorRuns.ReallocOfBigBlock | loader/default_dynlib.c:347-397 | a run of two calls in which newlib is handed a block of the big table, for every new size |
| AllocatorRuns.WrappedRequest | loader/default_dynlib.c:371-391 | for every size without room for the header, a run in which malloc returns a block with fewer than 16 bytes |
| AllocatorFacade.Allocator.BigAlloc | loader/default_dynlib.c:347-361 | asks the pools in their order, by size and room; NULL and no change, or a new block of at least 6 MB in a free entry of the table, as specified |
| AllocatorFacade.Allocator.BigFree | loader/default_dynlib.c:362 | releases and forgets the block, and nothing else, exactly when the table has it |
| AllocatorFacade.Allocator.EmergAlloc | loader/default_dynlib.c:371-380 | answers and leaves the state as specified: no pool is asked if and only if the alignment exceeds 16 or 8192 blocks are live, else one and then the other; too short exactly when the header addition wraps around |
| AllocatorFacade.Allocator.EmergFree | loader/default_dynlib.c:381-388 | releases the block with its header, and nothing else, exactly when the index has the pointer |
| AllocatorFacade.Allocator.MallocLog | loader/default_dynlib.c:391 | the first of the big table (from 6 MB on, either pool from 25 MB on, the second one below if it reports room), newlib and the emergency allocator that has a block serves the request; NULL only if all refuse, with no change; the block is new, and long enough exactly unless the header addition of the last one wraps around |
| AllocatorFacade.Allocator.CallocLog | loader/default_dynlib.c:392 | the same for the product without the big table, cleared; the block is too short exactly when the emergency allocator serves it and the product, or that and the header, exceeds 32 bits |
| AllocatorFacade.Allocator.MemalignLog | loader/default_dynlib.c:393 | the same as malloc for an alignment, with the big table up to 4096 and the emergency allocator up to 16 |
| AllocatorFacade.MemalignAligns | loader/default_dynlib.c:372-393 | the pointer is aligned if what the underlying allocators hand out is, behind the header too |
| AllocatorFacade.Allocator.EmergRealloc | loader/default_dynlib.c:396 | a successful resize of an emergency block keeps the first min(old, new) bytes and releases the old one; the new one is too short exactly on a wrap-around |
| AllocatorFacade.Allocator.NewlibEvict | loader/default_dynlib.c:398 | the same for a newlib block that moves to the emergency allocator |
| AllocatorFacade.Allocator.ReallocLog | loader/default_dynlib.c:394-401 | who is asked in which order; success keeps the common prefix and moves ownership, failure keeps the old block; it goes wrong exactly when a header addition wraps around or newlib gets a pointer that neither newlib nor the index owns |
| AllocatorFacade.Allocator.FreeBig | loader/default_dynlib.c:390 | a live pointer goes back to where it came from and to nobody else; only a pointer that is not live breaks that |
| AllocatorFacade.Allocator.Serve | loader/default_dynlib.c:390-401 | one call of a client gives the specified answer, leaves the specified state, and says what the client now knows |
| AllocatorFacade.Allocator.ServeAll | loader/default_dynlib.c:346-401 | every sequence of calls gives the answers, the final state and the client's knowledge of the specified run, up to the first call that goes wrong |
| ArmMachine.BranchDecodes | loader/main.c:104-105 | the branch word written at a site decodes to an unconditional branch by the intended number of words |
| ArmMachine.BranchLands | loader/main.c:104-105 | it lands on the thunk if and only if the distance is word-aligned and fits 26 signed bits |
| Trampoline.RelocatedDecodes | loader/main.c:68-70 | a relocated literal load is a load into the same register, under the same condition, from the literal four words on |
| Trampoline.LiteralLoads | loader/main.c:68-70 | every ldr rD,[pc,#imm] with either sign is found, what it reads, and what it becomes |
| Trampoline.OnlyLiteralLoads | loader/main.c:68 | no other word is, and another word is copied as it is |
| Trampoline.ThunkIs | loader/main.c:65-77 | the four or six words of the thunk |
| Trampoline.LiteralMovable | loader/main.c:57-70 | a function may begin with a literal load of a constant |
| Trampoline.LoadsDecode | loader/main.c:57-58 | the load encodings that the theorems cover |
| Trampoline.ImmediatesDecode | loader/main.c:57-58 | the comparison and move encodings |
| Trampoline.StackDecodes | loader/main.c:57-58 | the push and pop encodings |
| Trampoline.BranchesDecode | loader/main.c:57-58 | the branch and call encodings |
| Trampoline.InstructionMoves | loader/main.c:66-74 | either of the two instructions has at its copy the effect it had in place, in the state in which it runs |
| Trampoline.Preserves | loader/main.c:60-78 | executing the trampoline gives the registers, flags and memory of executing the two instructions, and both go on at target+8 |
| Trampoline.AgreesExactly | loader/main.c:57-58 | which instructions meet the condition: all that do not name the pc, loads and pops if and only if they read the same words, a branch if and only if it goes to the next word, a call never |
| Trampoline.LoadMovable | loader/main.c:57-74 | so a function may begin with a register load, exactly when it is skipped or the word it reads is the same with the thunk in place |
| Trampoline.BranchAgrees | loader/main.c:57-58 | and not with a branch that is taken, but to the next word |
| Trampoline.DecodedIsEncodable | loader/main.c:60-66 | every word is decoded to one of the instructions that this covers, or to none |
| Trampoline.HookOfHook | loader/main.c:60-78 | the trampoline of a function that is hooked already leads to the first hook |
| SpinThunk.Simulates | loader/main.c:89-102 | each step of the thunk, interleaved with any writes of other threads, is matched by steps of the busy loop |
| SpinThunk.RunSimulates | loader/main.c:83-106 | each run of the patched code is matched by a run of the busy loop that reads the same values |
| SpinThunk.Refines | loader/main.c:83-106 | the patched code leaves to site+12 only on the first 2 it reads, with the registers, stack pointer and flags of a loop exit, and with the same memory but for the thread's own dead stack words |
| SpinThunk.Timetable | loader/main.c:88-102 | every tenth move is a check, and the patched code is out exactly three moves after it read the first 2 |
| SpinThunk.SleepsTwoHundred | loader/main.c:92-96 | whenever the sleep routine is called it is for 200 microseconds, and it returns into the thunk |
| SpinThunk.NeverStuck | loader/main.c:88-102 | until then the thread can always move |
| SpinThunk.ReadyWhenInstalled | loader/main.c:89-106 | the words that patch_spin writes are, decoded, the thunk that the refinement is about |
| NullGuard.Lists | loader/main.c:117-124 | the six words of the thunk decode as intended, the address among them to an instruction with condition LS |
| NullGuard.AddressIsSkipped | loader/main.c:117-121 | falling through that address with r0 not NULL changes nothing |
| NullGuard.SafeNibbles | loader/main.c:117-120 | falling through is harmless for all non-zero r0 exactly when the top four bits of the address are 0, 3, 6 or 9 |
| NullGuard.Behaviour | loader/main.c:111-128 | the patched site goes to ret exactly when r0 is NULL; otherwise it performs the load and resumes behind the site, and only r3 and the flags change |
| NullGuard.Original | loader/main.c:110-113 | the replaced instruction makes the same r3 and goes on at the same address |
| PatchPool.PoolInRange | loader/main.c:61-62 | every branch from the game's text into the pool is in range, the overlong last trampoline included |
| PatchPool.ThunkWritten | loader/main.c:75-76 | writing the next thunk disturbs no earlier thunk and no site |
| PatchPool.SiteWritten | loader/main.c:106 | writing a branch at a new site disturbs no earlier thunk and no earlier site |
| PatchPool.SiteIsNew | loader/main.c:85-113 | the word that a patcher checks for is never the branch of an earlier patch |
| PatchPool.PatchesStayInstalled | loader/main.c:59-128 | after any number of patches each one's premises hold of the text as it is, so its theorem applies |
| PatchPool.HookedPreserves | loader/main.c:59-78 | however many patches were made since, a hook's trampoline has the effect of the two instructions that were there |
| PatchPool.GuardedBehaves | loader/main.c:111-128 | likewise a guarded load goes to ret exactly for NULL, and else loads and resumes |
| PatchPool.SleptRefines | loader/main.c:83-107 | likewise a sleeping loop refines the busy loop that was there |
| PatchPool.HookedFunctionEnters | loader/so_util.c:42-49 | a function that was hooked goes to its replacement with everything else unchanged, whatever was patched since |
| PatchPool.Patcher.MakeTrampoline | loader/main.c:60-78 | NULL when the guard fails, else a disjoint thunk; the pool's end is passed, by 8 bytes, exactly with 0x9B0 bytes used and a literal load |
| PatchPool.Patcher.PatchSpin | loader/main.c:83-108 | acts exactly on the expected three words with room in the pool, and then changes only the site and the pool |
| PatchPool.Patcher.PatchNullGuard | loader/main.c:111-129 | the same for the null guard |
| PatchPool.Patcher.HookArm | loader/so_util.c:42-49 | writes the two words of the hook, records it, and keeps every patch and every hook besides |
| HookAddr.HookEnters | loader/so_util.c:27-58 | the code written for an ARM function, or a Thumb function at either halfword alignment, loads dst into pc |
| HookAddr.HookIsWritten | loader/so_util.c:27-60 | the words that are written, for each alignment, and nothing for a null address |
| HookAddr.HookIsLocal | loader/so_util.c:27-58 | nothing but those eight bytes, and the nop of the odd alignment, is overwritten |
| AudioRing.CellIsModular | loader/audio.c:43-46 | masked cursors and split copies address the cell of an unbounded counter modulo the size, across the wrap-around |
| AudioRing.StepInv | loader/audio.c:38-62 | every step of either thread keeps the invariant |
| AudioRing.RunInv | loader/audio.c:38-62 | so does every interleaving |
| AudioRing.RunOffers | loader/audio.c:38-48 | the accepted submits are the offered ones in order with some left out, each accepted whole |
| AudioRing.Safety | loader/audio.c:38-62 | in every interleaving s_w - s_r is 0 to 65536, the unpadded samples delivered are a prefix of the accepted ones, and a chunk is its samples followed by just the zeros that fill it |
| AudioRing.NoOverlap | loader/audio.c:45-59 | the cell being written never holds an unread sample, nor the one being read |
| AudioRing.RefinesQueue | loader/audio.c:38-62 | the ring refines an unbounded queue: a submit is turned away exactly when it does not fit, and a chunk takes what is queued up to its size |
| RingCopies.QueueGrows | loader/audio.c:43-46 | the spliced copy puts the new samples behind the queued ones, which stay |
| RingCopies.QueueShrinks | loader/audio.c:56-61 | moving the read cursor takes samples off the front |
| RingCopies.CopyIn | loader/audio.c:43-46 | two copies store the samples around the end of the ring |
| RingCopies.CopyOut | loader/audio.c:56-59 | two copies fetch them around the end |
| RingCopies.Ring.RingWrite | loader/audio.c:38-48 | appends the whole submit to the queue or changes nothing, the latter exactly when it does not fit |
| RingCopies.Ring.RingReadChunk | loader/audio.c:51-62 | fills the chunk with the next samples, then with zeros, and removes just those samples |
| ElfHash.RoundIsGabiStep | loader/so_util.c:364-369 | a round of the loop in 64 bits is the 32-bit step of the System V gABI, chapter 5, Hash Table |
| ElfHash.GabiHashIsSmall | loader/so_util.c:368-370 | the gABI hash of every name is below 2^28 |
| ElfHash.XorDigitIs | loader/so_util.c:367-368 | the digit that is folded in is combined by exclusive or, bit by bit |
| ElfHash.StepIs | loader/so_util.c:366-369 | a step in hexadecimal digits: shifted by one, the top one folded into the second lowest |
| ElfHash.KnownHash | loader/so_util.c:362-371 | the gABI hash of printf is 0x077905A6 |
| ElfHash.SoHash | loader/so_util.c:362-371 | computes the gABI hash of the bytes before the terminating zero |
| SymbolLookup.Module.LookupFinds | loader/so_util.c:373-395 | a symbol is found exactly when one qualifies, wherever the hash table puts it |
| SymbolLookup.Module.LookupIsScan | loader/so_util.c:373-395 | with unique names the hashed lookup gives the linear scan's answer |
| SymbolLookup.Module.ChainIsShort | loader/so_util.c:379 | a chain without cycles meets fewer symbols than the table has, so the walk ends |
| SymbolLookup.Module.ChainSearch | loader/so_util.c:375-385 | the walk along a chain answers the first qualifying symbol on it |
| SymbolLookup.Module.TableSearch | loader/so_util.c:387-392 | the scan answers the first qualifying symbol of the table |
| SymbolLookup.Module.SoSymbol | loader/so_util.c:373-395 | returns base plus value, in 32 bits, of a symbol that is defined, has an info and the name, and 0 exactly when the table has none |
| SymbolLookup.Module.ChainDecides | loader/so_util.c:375-385 | it is the first such symbol on the chain of bucket hash % nbucket |
| SymbolLookup.Module.TableDecides | loader/so_util.c:375-392 | and when that chain has none, the first one of the table |
| SymbolLookup.Module.AddressIs | loader/so_util.c:383-394 | the address, and that nothing qualifies when there is none |
| SymbolLookup.DuplicatesMatter | loader/so_util.c:379-392 | the lookup gives the scan's answer under every well-formed hash table if and only if at most one symbol qualifies |
| Relocation.OnePassSettles | loader/so_util.c:236-347 | each entry is settled by exactly one pass, to base, link or table entry with the addend where the type has one |
| Relocation.FoldIsEach | loader/so_util.c:230-263 | with distinct slots a pass changes each entry's word by its own rule and nothing else |
| Relocation.PassesSettle | loader/so_util.c:228-351 | both passes together are one pure function of the initial image |
| Relocation.OrderDoesNotMatter | loader/so_util.c:228-351 | the same entries in another order give the same image |
| Relocation.FinalEndsAs | loader/so_util.c:228-351 | one entry in the fields of the tables: what its word ends as, per type |
| Relocation.TableAnswerIs | loader/so_util.c:323-335 | the table's answer is the func of the first entry of that name |
| Relocation.SymbolInIs | loader/so_util.c:277-279 | a dependency answers base plus value of a defined symbol of that name, or 0 |
| Relocation.SoResolveLink | loader/so_util.c:268-291 | answers the first needed library, in dependency order and then load order, that has the symbol; 0 exactly when none has |
| Relocation.LinkIsUnique | loader/so_util.c:268-291 | that description has one answer |
| Relocation.TableSearch | loader/so_util.c:323-335 | answers the first table entry of the name |
| Relocation.Loaded.SoRelocate | loader/so_util.c:228-266 | performs the first pass on the image; fails exactly on an unknown type |
| Relocation.Loaded.ResolveOne | loader/so_util.c:296-343 | one entry: a table entry overrides a dependency and has no addend |
| Relocation.Loaded.SoResolve | loader/so_util.c:293-351 | performs the second pass on the image |
| Relocation.Loaded.RelocateAndResolve | loader/so_util.c:228-351 | leaves each entry's word, by type and symbol, at base plus value, the first table entry of the name, the link or itself, with the old word added for R_ARM_ABS32, and every other word as it was; fails exactly on a type other than 2, 21, 22 and 23 |
| TexRename.MapWordsTwice | loader/default_dynlib.c:87-98 | renaming words twice is renaming them once by the composed renaming |
| TexRename.RenameTwice | loader/default_dynlib.c:87-100 | the renaming is idempotent |
| TexRename.WordInContext | loader/default_dynlib.c:90-98 | a word between characters that are no letter, digit or underscore is renamed if it is tex, and else stays |
| TexRename.GapInContext | loader/default_dynlib.c:90-98 | every other character stays, and both sides are renamed by themselves |
| TexRename.RenameIsUndone | loader/default_dynlib.c:87-100 | the inverse renaming gives the source back if and only if it has no word s_tex |
| TexRename.ScanMaps | loader/default_dynlib.c:90-98 | the character scan replaces exactly the maximal identifier runs that are tex |
| TexRename.RenameTexSampler | loader/default_dynlib.c:88-100 | the buffer, of its computed size, holds the renamed text and a zero |
| StaticGlobals.FixedLine | loader/default_dynlib.c:113-116 | a prefixed line keeps its indentation and is not prefixed again |
| StaticGlobals.MapLinesTwice | loader/default_dynlib.c:109-121 | two line-wise passes that keep lines and braces are one |
| StaticGlobals.PassTwice | loader/default_dynlib.c:106-123 | the pass is idempotent |
| StaticGlobals.LineInContext | loader/default_dynlib.c:109-121 | in any text a line is prefixed behind its indentation if and only if as many braces are closed as opened before it, it ends with a semicolon, has none of ( = { } and does not start with #, / or one of the eight words |
| StaticGlobals.PassIsUndone | loader/default_dynlib.c:106-123 | erasing the prefix from file-scope lines gives the source back if and only if it had no such line |
| StaticGlobals.PassSize | loader/default_dynlib.c:107-108 | seven characters for each line are room enough |
| StaticGlobals.FixLine | loader/default_dynlib.c:111-117 | one line, prefixed exactly when it is a plain declaration at brace depth 0 |
| StaticGlobals.EmitLine | loader/default_dynlib.c:109-120 | a round of the loop emits one line and carries the brace depth on |
| StaticGlobals.Run | loader/default_dynlib.c:106-123 | the buffer, of its computed size, holds the passed text and a zero |
| MulAssign.CountHits | loader/default_dynlib.c:74 | 64 characters for each occurrence of the operator |
| MulAssign.HitsCount | loader/default_dynlib.c:74 | the occurrences are the places where a star is followed by an equals sign |
| MulAssign.GoSize | loader/default_dynlib.c:74-84 | the text never outgrows the buffer computed beforehand |
| MulAssign.StatementsAreIndependent | loader/default_dynlib.c:76-84 | the pass works on each statement by itself |
| MulAssign.Rewrites | loader/default_dynlib.c:76-84 | a statement with one "*=" becomes "= L *", or stays when L has 48 characters or more |
| MulAssign.StatementInContext | loader/default_dynlib.c:72-84 | the same in terms of characters: a run of letters, digits, underscores, points and brackets before the blanks is the left side, and is repeated if it has up to 47 |
| MulAssign.FindLeftSide | loader/default_dynlib.c:78-79 | finds the identifier characters before the blanks at the end of what was emitted |
| MulAssign.EmitOne | loader/default_dynlib.c:77-83 | a round of the loop stays inside the buffer |
| MulAssign.Run | loader/default_dynlib.c:73-86 | the buffer, of its computed size, holds the rewritten text and a zero |
| GlslMeaning.ParseGrafts | loader/default_dynlib.c:70-81 | "L *" before any text that parses hangs L onto the leftmost factor of its tree, unless L is a mere suffix |
| GlslMeaning.SourceTree | loader/default_dynlib.c:70-71 | "L *= R" assigns the product of L and all of R, with blanks between the parts of L or not |
| GlslMeaning.RewrittenTree | loader/default_dynlib.c:76-84 | what the text after the pass assigns, for every left side and every right side that parses: as before, a product with what the pass took for the left side, or no statement |
| GlslMeaning.TreeKept | loader/default_dynlib.c:70-86 | the two texts parse to one tree on the same condition |
| GlslMeaning.MeaningKept | loader/default_dynlib.c:70-86 | the effect is the same under every interpretation of leaves and operators if and only if the statement is left alone, or L has identifier characters only, without blanks, and R is no binary or conditional expression |
| GlslMeaning.ValuesKept | loader/default_dynlib.c:70-86 | on that condition also for values of any type |
| GlslMeaning.NamesAreLvalues | loader/default_dynlib.c:71-72 | every name of letters, digits and underscores with its swizzles and plain subscripts is a left side of identifier characters |
| GlslMeaning.NamesAreKept | loader/default_dynlib.c:70-84 | so one of up to 47 characters is repeated whole, and the meaning is kept if and only if R is no binary or conditional expression |
| GlslMeaning.ProductValues | loader/default_dynlib.c:81 | with an associative product the added factor may join the leftmost one |
| GlslMeaning.MeaningKeptByProducts | loader/default_dynlib.c:70-86 | the effect is the same under every interpretation with an associative product if and only if the statement is left alone, or L has identifier characters only and R is a product of such factors |
| GlslMeaning.ExponentsAreKept | loader/default_dynlib.c:70-86 | x *= 1e-3 multiplies by one literal, before and after |
| GlslMeaning.SumsBreak | loader/default_dynlib.c:81 | x *= a+b multiplies a alone after the pass |
| GlslMeaning.BlanksBreak | loader/default_dynlib.c:78-81 | v [0] *= a is no statement after the pass |
| MulAssign.BreakIsLeft | loader/default_dynlib.c:78-83 | behind a line break the operator stays |
| MemCfg.ApplyIsDone | loader/jni_patch.c:133-145 | after a rule every size that follows its name on a line has the rule's value |
| MemCfg.DoneIsFixed | loader/jni_patch.c:133-145 | a rule leaves a text alone in which all its sizes are set |
| MemCfg.ApplyTwice | loader/jni_patch.c:133-145 | applying a rule twice is applying it once, and a text is left alone if and only if its sizes are set |
| MemCfg.OnlyValuesChange | loader/jni_patch.c:135-144 | source and result are the same but for value tokens, each complete, behind a "size=" that follows the name on its line |
| MemCfgRules.NameAtIs | loader/jni_patch.c:135-138 | where a rule finds its name, in terms of characters: between blanks or tabs or at the beginning of the text, with no newline and no other size= before the one that counts |
| MemCfgRules.TokenEndIs | loader/jni_patch.c:139-140 | a value ends at the first of , ] blank and newline before which as many braces are opened as closed, or with the text |
| MemCfg.FindSize | loader/jni_patch.c:136-138 | stops at the first "size=" of the line, or at its end |
| MemCfg.FindValueEnd | loader/jni_patch.c:139-140 | stops at the first delimiter outside all braces |
| MemCfg.Replace | loader/jni_patch.c:141-144 | the new buffer holds the text with the token replaced and has one character to spare |
| MemCfg.Round | loader/jni_patch.c:134-144 | a round keeps the outcome, and size - i decreases although size may grow |
| MemCfg.ApplyRule | loader/jni_patch.c:132-145 | the loop ends with the rule applied and with size the length of the text |
| MemCfg.Rewrite | loader/jni_patch.c:121-149 | the buffer holds what all rules in order make of the text, and a terminating zero inside it |
| MemCfg.TableIsProper | loader/jni_patch.c:112-119 | the names and the values of the 18 rules are free of the characters that would upset the scan |
| MemCfg.TableAppliesTwice | loader/jni_patch.c:112-145 | so each of the 18 rules sets its sizes and is idempotent |
| MemCfgRules.CutKeeps | loader/jni_patch.c:133-145 | which replacements of one rule leave the sizes of another one set |
| MemCfgRules.AppliedKeeps | loader/jni_patch.c:133-145 | a rule leaves all sizes of another one set if and only if both have one value or it replaces no size that the other names too |
| MemCfgRules.RewriteSetsAll | loader/jni_patch.c:131-147 | if no size is named by two rules with different values, all rules are set after the rewriting, and rewriting again changes nothing |
| MemCfgRules.TableSetsAll | loader/jni_patch.c:112-147 | the same of the 18 rules |
| MemCfgRules.SharedSpoils | loader/jni_patch.c:131-147 | two rules with different values are never both set where they name one size |
| MemCfgRules.LastRuleWins | loader/jni_patch.c:131-147 | a line that names a rule and then the last one gets the last one's value, and the other rule is not set |
| MemCfgRules.TableCanMiss | loader/jni_patch.c:118-147 | such a line for two rules of the table, with any value |
| MemCfgRules.ValueStaysOnLine | loader/jni_patch.c:139-140 | a value ends on its line if and only if the text ends there or the line has a delimiter outside all braces; otherwise the replacement swallows following lines |
| MemCfgTidy.TidyStays | loader/jni_patch.c:133-145 | values without blanks inside stay so |
| MemCfgTidy.LastStays | loader/jni_patch.c:133-145 | a rule leaves every size that it does not name with the value of the last rule before it that does |
| MemCfgTidy.LastRuleSets | loader/jni_patch.c:131-147 | after the rewriting every size that a rule names has the value of the last rule that names it |
| MemCfgTidy.SetsAllExactly | loader/jni_patch.c:131-147 | the rewriting sets all sizes of all rules if and only if no size is named by two rules with different values |
| MemCfgTidy.BlanksMatter | loader/jni_patch.c:133-145 | where a value with blanks inside swallows the names of two rules, all sizes are set although these share one |
| MemCfgTidy.TableSetsExactly | loader/jni_patch.c:112-147 | every size that a rule names has the last one's value, and all are set on that condition exactly, of the 18 rules |
| FboCache.RepeatChangesNothing | loader/gl_lock.c:146-147 | a suppressed attach of a renderbuffer would not have changed the driver |
| FboCache.AttachAgrees | loader/gl_lock.c:143-153 | attaching a renderbuffer keeps both caches true if and only if it meets the guard, with a full table too |
| FboCache.AttachTexAgrees | loader/gl_lock.c:156-170 | so does attaching a texture |
| FboCache.DeleteTexsAgrees | loader/gl_lock.c:128 | deleting textures keeps them true if and only if none of these is remembered |
| FboCache.DeleteRbsAgrees | loader/gl_lock.c:126 | deleting renderbuffers keeps both caches true, whichever framebuffers they were attached to |
| FboCache.DeleteFbosAgrees | loader/gl_lock.c:124 | so does deleting framebuffers |
| FboCache.SameDriver | loader/gl_lock.c:143-170 | while the caches are true a call is suppressed wrongly only if it is for another face of the texture that is there |
| FboCache.GuardIsExact | loader/gl_lock.c:48-170 | a call leaves the driver as without the caches and them true if and only if it meets the guard |
| FboCache.RunAgrees | loader/gl_lock.c:48-170 | after each run of such calls the driver is as it would be without the caches |
| FboCache.RunGuardIsExact | loader/gl_lock.c:48-170 | the driver is the same and the caches are true all along a run if and only if each of its calls meets the guard |
| FboCache.AllowedRunAgrees | loader/gl_lock.c:48-170 | a client that rebinds, uses live names, one kind of image at a point and one face of a texture, and deletes no attached texture, meets the guard in every run |
| FboCache.AnyAllowedRun | loader/gl_lock.c:37-170 | and so in every run from the beginning |
| FboCache.BreakingTheGuard | loader/gl_lock.c:48-170 | after every call of the client that breaks the guard there is a continuation of calls without an error that leaves the driver in another state |
| FboCache.NamesMatter | loader/gl_lock.c:143-153 | an instance: a renderbuffer attached before its name was generated is not attached when it exists |
| FboCache.RebindingMatters | loader/gl_lock.c:124-153 | an instance: without rebinding after deleting the bound framebuffer a later attach is lost |
| FboCache.KindsMatter | loader/gl_lock.c:143-170 | an instance: a renderbuffer at the point of a texture |
| FboCache.DeletingMatters | loader/gl_lock.c:128-163 | an instance: a texture name that is used again |
| FboCache.FacesMatter | loader/gl_lock.c:156-163 | an instance: another face of the texture that is attached |
| FboCache.Cache.FramebufferRenderbuffer | loader/gl_lock.c:143-153 | acts as the specified filter on the cache and the driver |
| FboCache.Cache.FramebufferTexture2D | loader/gl_lock.c:156-170 | so does the other wrapper, on the other cache |
| FboCache.Cache.DeleteFramebuffers | loader/gl_lock.c:124 | the nested loops forget exactly the entries of the named framebuffers in both tables |
| FboCache.Cache.DeleteRenderbuffers | loader/gl_lock.c:126 | the nested loops forget exactly the entries with the named renderbuffers |
| FboCache.Cache.Play | loader/gl_lock.c:48-170 | a whole run of calls is the specified run, and leaves the driver as it would be without the caches when they meet the guard |
| LazySlot.StepInv | loader/pthread_bridge.c:24-38 | every step of every thread keeps the invariant |
| LazySlot.RunInv | loader/pthread_bridge.c:24-38 | so does every interleaving, and a published object stays for good |
| LazySlot.OneObject | loader/pthread_bridge.c:24-189 | in every interleaving of any number of threads, with handles from 0x10000 on, at most one object is created, of the kind or count that the slot's first value encodes, and every call returns it unless a semaphore could not be created; a first value from 0x10000 on is returned as it is and nothing is created |
| LazySlot.SemaphoreOfCount | loader/pthread_bridge.c:182-189 | the semaphore has the first value as its count |
| LazySlot.ConditionOfAny | loader/pthread_bridge.c:62-69 | a condition variable is created from any first value |
| LazySlot.MutexOfBits | loader/pthread_bridge.c:24-38 | the mutex is recursive with bit 0x4000, else error-checking with bit 0x8000, else normal |
| LazySlot.FirstValueDecides | loader/pthread_bridge.c:16-189 | an object can be created if and only if the first value is below 0x10000 |
| LazySlot.SmallHandlesMatter | loader/pthread_bridge.c:24-189 | with a handle below 0x10000 two threads create two objects |
| LazySlot.MutexOfType | loader/pthread_bridge.c:43-49 | initialising a mutex with a type creates a mutex of that type |
| LazySlot.NoDeadlock | loader/pthread_bridge.c:27-37 | while a call is unfinished some thread can move |
| LazySlot.RunsEnd | loader/pthread_bridge.c:24-38 | every step of a run is one of those that its threads have left |
| LazySlot.EightSteps | loader/pthread_bridge.c:24-38 | no run is longer than eight steps for each thread |
| TouchSlots.AllTaken | loader/main.c:622-633 | after the reports of a frame each slot has its finger's last position and one event for each of its reports, the first one a press when the slot was free |
| TouchSlots.FrameMeans | loader/main.c:619-638 | a finger keeps its slot while it is among the first four reports, is released at its last position otherwise, and no two slots hold one finger |
| TouchSlots.PlayFrameMeans | loader/main.c:619-638 | one frame of a run: what its first four reports make of each slot, the events of each slot, and that the releases come last in the order of the slots |
| TouchSlots.SeatedAll | loader/main.c:624-626 | new fingers get the free slots in the order of their first reports |
| TouchSlots.RunDraws | loader/main.c:619-638 | over every run each slot's stream is presses, moves and releases in order, and a slot is held exactly while its last press is open |
| TouchSlots.Screen.Find | loader/main.c:624-625 | the slot that tracks a finger, else the first free one |
| TouchSlots.Screen.TakeOne | loader/main.c:623-632 | one report: one event, mirrored to the mouse for slot 0, and the slot's new position |
| TouchSlots.Screen.ReleaseLost | loader/main.c:634-637 | releases exactly the held slots that were not seen |
| TouchSlots.Screen.PlayOne | loader/main.c:619-638 | the block of one frame acts as specified |
| TouchSlots.PlayFrames | loader/main.c:619-638 | so do all frames of a run, the mouse stream being slot 0's |

## Left out

- Assumed of newlib and of the console's allocators: what they hand out is new and lies apart from every other block; they keep their bookkeeping between blocks; newlib's realloc keeps all usable bytes.
- Assumed of the sleep routine: it obeys the ARM procedure call standard. Assumed of the environment of the busy loop: it does not write the thread's own dead stack words or the code.
- Counters and log lines (`emerg_total`, `emerg_bytes`, hits, drops) and the one-time dump of the heap table.
- Emergency allocations from several threads at once: the code takes no lock there.
- The ring's memory ordering is modelled as sequentially consistent steps.
- Memory is keyed by word addresses and the interpreter knows the encodings that the patcher writes, reads or relocates; unaligned and byte accesses, VFP registers and cache maintenance are not modelled.
- Trampoline.Preserves: literal loads into pc and never-conditional literal loads are not covered, because a relocated one is not the same load.
- Trampoline.AgreesExactly: encodings that the interpreter does not know are not decided.
- Instruction-set selection is modelled in HookAddr only, where it matters.
- Symbol tables with an empty bucket array, and names that contain a zero byte, which C strings cannot.
- GlslMeaning.MeaningKept: subscripts are compared as text and a name is one value, so the number of times that a side effect inside a subscript happens is not counted; comments, the preprocessor and the comma operator are not parsed, because the pass does not look at them; a right side with another assignment in it and increments and decrements behind a variable are not covered.
- MemCfg.ApplyRule: a comparison with "size=" that would run past the end of the text is a mismatch, because what lies there is undefined.
- MemCfgTidy.SetsAllExactly: for texts with a blank inside the braces of a value the condition suffices (MemCfgRules.RewriteSetsAll) but is not needed (MemCfgTidy.BlanksMatter): which names and sizes a replaced value takes with it depends on the order of the table, and no exact condition is given.
- Allocation failure inside rewrite_memcfg and in the creation of mutexes and condition variables, which the code does not check.
- Destroying a mutex, condition variable or semaphore while it is in use, and pthread_once, whose function may run twice.
- Buffer mapping, the plain locked wrappers, the import table and the JNI table.
- FboCache.GuardIsExact: the guard of the two calls that generate names says what the driver owes, unused names; a face that does not belong to the type of its texture, an error of the driver, is taken for one that does.
- The scaling of touch positions and stick axes in floating point: positions are given after scaling.
