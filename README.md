# Allocation engine of a `malloc` replacement, in Dafny

This project models three parts of an arena-based `malloc` replacement and proves properties about them.

1. **Chunk carving and fast-bin reuse** (`src/arena/bin.c`).
   - `split_top_chunk` bump-allocates from a heap's top chunk.
   - `new_chunk` chooses a heap of the requested class, creating heaps when needed.
   - `find_in_fastbin` pops the head of a size-indexed LIFO list.
   - `find_memory` aligns the request, tries the fast bin, then carves.
2. **Arena lifecycle** (`src/arena/arena.c`).
   - `g_manager` holds an append-only chain of arenas linked by `next`, and numbers them with a global counter.
   - `arena_can_create` is a "burst, then latch a ceiling" creation limit.
   - `arena_get` falls back in a fixed order: reuse an idle arena, create one, or hand out the embedded first arena.
   - `arena_find` caches the arena per thread.
3. **The bounded formatter `aprintf`** (`src/utils/aprintf.c`).
   - It renders a `printf` subset into a 4096-byte buffer with a sticky error flag.
   - It then appends the text to the allocation history and writes it to a file descriptor.

## Layout

| File | Module | Contents |
|---|---|---|
| `chunk.dfy` | `Chunk` | The constants of the allocator's header, gathered in `Config`. Chunk headers as records (`Header`, `SizeWord`), `ALIGN`, the fast-bin index, the two headers a split writes (`CarveTop`), and the tiling of a heap by its carved chunks. |
| `heap.dfy` | `ArenaState` | The classes `Heap` (`t_heap`) and `Arena` (`t_arena`); heap chains linked by `next`; the arena invariant `BinValid`; `heap_create` as an oracle (`Arena.HeapCreate`). |
| `bin.dfy` | `Bin` | The heap selection rule and the effect of one `new_chunk` call, as functions over heap summaries (`Select`, `Plan`, `After`). The imperative `SplitTopChunk`, `NewChunk`, `FindInFastbin` and `FindMemory` are proved against them. |
| `arena.dfy` | `ArenaChain` | The creation limit as a function (`Admit`) with bound lemmas. The class `Manager` (`g_manager`) with `ArenaInitialize`, `GetCPUs`, `CanCreate`, `ArenaCreate`, `ArenaReuse`, `ArenaGet` and `ArenaFind`. |
| `aprintf.dfy` | `Aprintf` | The buffer as `Out(text, error)`. `Step` is one `print_c_buf` and `Feed` is a string of them. Digit strings have round-trip lemmas, and `Render`/`Output` give the text of a whole call. The class `Buffer` (`t_buffer`) has one method per printing routine, each proved to act as `Feed` of the text it stands for. `Aprintf` covers the history and `write` bookkeeping. |

### Modelling choices

**Constants of the allocator's header.** The header defines `sizeof(t_chunk)`, `ALIGNMENT`, `MXFAST`, `TINY_USER`, `TINY_SIZE`, `SMALL_SIZE` and `ARCHITECTURE`. The header itself is not modelled; its values are fields of `Config`, or constructor parameters of `Manager`.
- `GET_SIZE` is the `size` field of a `SizeWord`.
- `GET_NEXT(c)` is `c + header + GET_SIZE(c)` (`Chunk.NextOf`).

**Heap memory.** A heap's memory is the map of chunk headers written in it, keyed by offset.
- A ghost list `carved` records the chunks carved so far.
- Together with the top chunk, the carved chunks tile the heap (`Chunk.Tiles`, `ArenaState.HeapConservation`).
- `Bin.HeapImage` holds every field of a heap that the engine writes: `free`, the top chunk, the chunk headers and `carved`. Two states of a heap with equal images are the same heap state.
- `Bin.SplitOff` relates the images of a heap before and after one split of `size` bytes: the chunk is at the old top chunk, the new top follows it, both headers are as `CarveTop` says, `free` drops by `size`, and every chunk carved before keeps its header.
- `Bin.MemoryKept` says, for a chain of heaps, that the heap a chunk was carved from changed by `SplitOff` and every other heap kept its image.

**OS and library calls as inputs.** `heap_create`, `internal_alloc`, `sysconf`, `heap_hist_extend` and `write` are given as parameters:
- `grants`: the answers of successive `heap_create` calls;
- `granted`: whether `internal_alloc` returns a page;
- `cores`: what `sysconf` returns;
- `grown`: the capacity `heap_hist_extend` leaves;
- `written`: what `write` returns.

`heap_create`'s body is not part of this model. It is assumed to map `HEAP_SIZE` bytes, lay one top chunk over everything after `heapBase`, and start the heap's `free` counter at `HEAP_SIZE - heapBase` (`ArenaState.Heap.Map`, `Bin.Fresh`). That starting value sets the usage of a fresh heap, so it bears on which heap the selection picks, and the fall-through example below depends on it. It installs the fresh heap as the new head of the arena's chain of that class, as `bin.c` re-reads `arena->tiny`/`arena->small` after the call.

**Configuration assumptions.** `Config.Valid` states what the model takes of the header's constants:
- `sizeof(t_chunk)` and ALIGNMENT are positive;
- the fast bins have a slot for every index below `MXFAST / ALIGNMENT`;
- a heap's own header (`heapBase`) plus one chunk header fits in both TINY_SIZE and SMALL_SIZE.

**The fast bins.** `Arena.BinValid` requires every chunk in fast-bin slot `b` to be a carved chunk of one of the arena's heaps, of size `(b + 1) * ALIGNMENT` with its header. `find_in_fastbin` checks none of this (bin.c:115-120). It relies on the free path, which fills the fast bins. The free path is not part of this model; it is assumed to push only such chunks, and never the same chunk twice.

**The try-lock probe.** The probe of `arena_reuse` is the set `busy` of arenas whose mutex another thread holds.

**Variadic arguments.** These are a sequence of tagged values (`Aprintf.Arg`). `FormatOk` states what the C code assumes of its callers:
- every `%` is followed by one more character;
- each conversion that reads an argument finds one of the right type and range.

A character after `%` that is not a known conversion prints nothing. The format holds no NUL byte, because the C loop (aprintf.c:108) stops at the first one.

## Model

| member | source | states |
|---|---|---|
| Chunk.Align | src/arena/bin.c:151 | `ALIGN(x)` is the least multiple of ALIGNMENT that is at least `x`: `x <= r < x + ALIGNMENT` and `r % ALIGNMENT == 0` |
| Chunk.BinIndexRecoversSize | src/arena/bin.c:170-172 | for an aligned size, `(index + 1) * ALIGNMENT` gives the size back, and a size of at most MXFAST has an index below `MXFAST / ALIGNMENT` |
| Chunk.BinIndexFits | src/arena/bin.c:113 | the slot `(size - 1) / ALIGNMENT` serves chunks of at least `size` bytes, with less than one ALIGNMENT to spare |
| Chunk.SameBinSameSize | src/arena/bin.c:170-172 | two aligned sizes that share a fast-bin slot are equal |
| Chunk.CarveTop | src/arena/bin.c:32-38 | a split conserves bytes (carved usable + header + new top == old top); the carved chunk keeps HEAP_TYPE and PREV_INUSE and clears TOP_CHUNK; the new top has TOP_CHUNK and PREV_INUSE, has HEAP_TYPE iff the heap is SMALL, and its `prev_size` is the carved chunk's usable size. HEAP_TYPE is set on the new top chunk of SMALL heaps (bin.c:37) |
| Chunk.TilesConserve | src/arena/bin.c:29-39 | the carved chunks cover exactly the bytes from the heap's first chunk to its top chunk |
| Chunk.TilesCarve | src/arena/bin.c:32-39 | carving at the top chunk extends the tiling by one chunk, ending at the new top chunk |
| Chunk.NextOfCarved | src/arena/bin.c:118-119 | `GET_NEXT` of a carved chunk is a chunk with a header (another carved chunk or the top chunk), so `find_in_fastbin` writes a real header |
| ArenaState.Arena.HeapCreate | src/arena/bin.c:57-62 | a granted `heap_create` puts exactly one fresh heap, with one top chunk over the mapping, at the head of that class's chain and leaves the other chain alone; a refused one changes nothing; the arena invariant is kept |
| ArenaState.HeapConservation | src/arena/bin.c:29-39 | in a valid heap, first chunk offset + carved chunks + top header + top chunk == capacity |
| Bin.Usage | src/arena/bin.c:69 | the usage of a heap is a whole percentage between 0 and 100 |
| Bin.Scan | src/arena/bin.c:67-74 | the loop picks only a heap with `free >= size`, and picks none only when no remaining heap has room and none was picked before |
| Bin.Select | src/arena/bin.c:64-74 | the selected heap has room, and there is none iff no heap of the chain has `free >= size` |
| Bin.ScanFollowsRule | src/arena/bin.c:67-74 | from any point of the loop that agrees with what was seen so far, the loop's answer follows the selection rule |
| Bin.SelectFollowsRule | src/arena/bin.c:64-74 | the selected heap is the first with room and usage > 10%; failing that, the one with room and the highest usage, the earliest on ties (strict `>`); none iff no heap has room |
| Bin.Choose | src/arena/bin.c:77-92 | after selection at most one more `heap_create`; the carved heap's top chunk is large enough; a heap created here is carved only when it is the newest; an existing heap is carved only when selected, or as the head after a refused `heap_create` |
| Bin.Plan | src/arena/bin.c:48-98 | one `new_chunk` makes at most two `heap_create` calls, each adding at most one heap; the carved heap has a large enough top chunk; the selected heap is used whenever it fits; a request of size 0 does nothing |
| Bin.Take | src/arena/bin.c:94 | carving `size` bytes lowers both the heap's `free` counter and its top chunk by exactly `size` |
| Bin.After | src/arena/bin.c:94 | after the call only the carved heap differs, and its `free` counter is lower by exactly `size`; created heaps come first |
| Bin.ChooseSelected | src/arena/bin.c:84-85 | when the selected heap's top chunk fits, it is carved with no `heap_create`, and only its counters change |
| Bin.ChooseGivesUp | src/arena/bin.c:85-86 | when a heap was already created and the selected heap cannot be split, no retry is made and nothing changes |
| Bin.ChooseRetries | src/arena/bin.c:77-92 | with no heap selected, or a failed split and no heap created yet, `heap_create` is tried once more |
| Bin.RetryAfter | src/arena/bin.c:86-91 | the retry makes exactly one `heap_create` call and carves the new head of the chain iff its top chunk fits |
| Bin.PlanOnChain | src/arena/bin.c:56-67 | on a non-empty chain the selection runs directly |
| Bin.PlanOnEmptyChain | src/arena/bin.c:57-62 | on an empty chain a granted first `heap_create` gives a one-heap chain, and the selection runs on it; counting that heap in the chain or in the outcome gives the same chain after the call |
| Bin.PlanAsWritten | src/arena/bin.c:84-95 | as written, the fall-through to `GET_PTR(chunk)` happens only when the heap then used has too small a top chunk |
| Bin.WrapSub | src/arena/bin.c:94 | `size_t` subtraction is exact without underflow and wraps modulo 2^64 below zero |
| Bin.AsWrittenDiffersOnlyInFallThrough | src/arena/bin.c:84-95 | the code as written and the corrected `Plan` make the same calls and create the same heaps; they differ only where the written code falls through with a null chunk |
| Bin.AfterAsWritten | src/arena/bin.c:84-95 | the chain after `new_chunk` as written: the chain grows by the heaps created; a call that returns null changes no counter |
| Bin.FallThroughExample | src/arena/bin.c:84-95 | an input where the written code makes two heaps, fails the split, and returns `GET_PTR(NULL)`; the newest heap's `free` is then 2^64 - 1 in the chain after the call. The corrected version returns null and leaves both heaps as created |
| Bin.SplitTopChunk | src/arena/bin.c:23-42 | null, with the heap untouched, exactly when there is no heap, `size` is 0, there is no top chunk or it is too small; otherwise the chunk is at the old top, both headers are as `CarveTop` says, the new top follows it, earlier chunks keep their headers, and the heap stays valid |
| Bin.WalkChain | src/arena/bin.c:67-74 | the `while (heap)` loop over the linked chain returns exactly the heap `Select` designates |
| Bin.SelectHeap | src/arena/bin.c:63-74 | the selection on the arena's chain changes nothing and returns the heap `Select` designates |
| Bin.CreateHeap | src/arena/bin.c:78-81 | `heap_create` followed by re-reading the chain head: the head is the new heap when granted, and the chain's summaries grow by one fresh heap |
| Bin.CarveInArena | src/arena/bin.c:85-94 | a split of one of the arena's heaps followed by `free -= size` keeps the arena invariant; it fails, changing nothing, iff the top chunk is too small; otherwise the heap changes exactly as `SplitOff` says (chunk at the old top, `CarveTop` headers, new top after it, `free` and the top chunk down by `size`, earlier chunks' headers kept) and the chunk holds `size` bytes |
| Bin.KeptSuffix | src/arena/bin.c:86-92 | what `MemoryKept` says of a chain with heaps created in front also holds of the chain that was there before |
| Bin.SplitAndCharge | src/arena/bin.c:85-95 | a split of the `i`-th heap followed by `free -= size`: only that heap's summary changes, by `Take`; the arena's fields are untouched; on the chain, the split heap changes as `SplitOff` says and every other heap keeps its image (`MemoryKept`) |
| Bin.CreateAndSplit | src/arena/bin.c:86-92 | the retry path follows `Retry` on the chain; of the heaps already on the chain, only the one carved from changes, as `SplitOff` says (`MemoryKept`) |
| Bin.SelectAndSplit | src/arena/bin.c:63-95 | from the selection on, the call follows `Choose`, and the new chain is `After` of the old; of the heaps already on the chain, only the one carved from changes, as `SplitOff` says (`MemoryKept`) |
| Bin.SplitSelected | src/arena/bin.c:84-95 | with a selected heap, the call follows `Choose`; of the heaps already on the chain, only the one carved from changes, as `SplitOff` says (`MemoryKept`) |
| Bin.SplitFailed | src/arena/bin.c:86-92 | after a failed split of the selected heap, the call follows `Choose`; of the heaps already on the chain, only the one carved from changes, as `SplitOff` says (`MemoryKept`) |
| Bin.NewChunk | src/arena/bin.c:48-98 | the chain evolves as `Plan` and `After` say (`Grown`); the result is non-null iff `Plan` carves a heap, and is then a carved chunk of exactly `size` bytes of that heap; of the heaps already on the chain only that one changes, by one split as `SplitOff` says, and every other keeps its image (`MemoryKept`); the other class's chain and its heaps are untouched |
| Bin.NewChunkOnEmpty | src/arena/bin.c:57-62 | on an empty chain the call follows `Plan` |
| Bin.PrevInuseSet | src/arena/bin.c:118-119 | setting PREV_INUSE in `next->size` sets that bit in one header and keeps its size, its `prev_size` and every other header |
| Bin.PopFastbin | src/arena/bin.c:115-121 | the head of the slot is returned and its successor becomes the head; other slots are unchanged; the chunk is carved and of the slot's size; only the next chunk's PREV_INUSE bit changes, and no other heap changes (`Popped`) |
| Bin.FastSlot | src/arena/bin.c:113-114 | the slot is `(size - 1) / ALIGNMENT` below the slot count, or none iff `size` is 0 or the index is at least `MXFAST / ALIGNMENT` |
| Bin.FastSlotOfAligned | src/arena/bin.c:153 | an aligned size of at most MXFAST always has a slot |
| Bin.FindInFastbin | src/arena/bin.c:108-127 | the arena's own fields are untouched; null, with nothing changed, iff `size` is 0, the index is out of range or the slot is empty; otherwise the slot's head is popped (`Popped`: the other slots keep their chunks; of the heaps only the chunk's own changes, in the next chunk's PREV_INUSE bit) and holds `size` bytes with less than one ALIGNMENT to spare, exactly `size` when aligned |
| Bin.KindFor | src/arena/bin.c:159 | the class is SMALL iff the aligned size exceeds TINY_USER |
| Bin.Search | src/arena/bin.c:153-161 | `alloc_count` rises by 1 iff the result is non-null; when the aligned size is at most MXFAST and its slot is not empty, the slot's head is popped as `Popped` says and handed out, no heap is created and the arena's chain heads and chains stay; otherwise `new_chunk` runs on the class `KindFor` gives: that chain's summaries change as `Plan` and `After` say, the chunk comes from the heap `Plan` targets, that heap changes by one split as `SplitOff` says, every other heap of the chain keeps its image (`MemoryKept`), and the fast bins, the other chain and its heaps stay; the chunk holds exactly the aligned size |
| Bin.FromHeaps | src/arena/bin.c:159-161 | `new_chunk` followed by the count: `alloc_count` rises by 1 iff a chunk is returned, and the rest is as `Bin.NewChunk` states (`Grown`, a carved chunk of the aligned size, the other chain untouched) |
| Bin.CountAllocation | src/arena/bin.c:161 | `alloc_count` rises by exactly one; the arena invariant, the chains, the given heap, the summaries of a chain and the images of a sequence of heaps are unchanged |
| Bin.FindMemory | src/arena/bin.c:147-164 | size 0 gives null and changes nothing; `alloc_count` rises by 1 iff the result is non-null; the chunk holds `ALIGN(size + header)` bytes; a fast-bin hit pops the slot's head as `Popped` says, creates no heap and leaves the chains; otherwise `new_chunk` runs on the class of the aligned size: that chain's summaries change as `Plan` and `After` say, the chunk comes from the heap `Plan` targets, that heap changes by one split as `SplitOff` says while every other heap of the old chain keeps its image (`MemoryKept`), and the fast bins, the other chain and its heaps stay |
| ArenaChain.CpuCount | src/arena/arena.c:57-58 | the CPU count is at least 1, and equal to `sysconf`'s answer when that is positive |
| ArenaChain.Limit | src/arena/arena.c:71 | the ceiling is the smaller of twice the CPUs and twice ARCHITECTURE |
| ArenaChain.Admit | src/arena/arena.c:68-76 | with no ceiling and count < ARENA_TEST: yes, and no ceiling set; with no ceiling and count >= ARENA_TEST: the limit is latched; with a ceiling: unchanged; the answer is `count < ceiling` (or `< ARENA_TEST` while none is set) |
| ArenaChain.Attempt | src/arena/arena.c:82-87 | the count grows by one exactly when the limit admits and the page is granted |
| ArenaChain.AttemptBound | src/arena/arena.c:68-76 | one attempt stays under the ceiling and does not raise it |
| ArenaChain.RunBound | src/arena/arena.c:68-87 | no sequence of creation attempts takes the arena count past the larger of ARENA_TEST and the latched ceiling. The burst may create ARENA_TEST arenas whatever ceiling is latched later (arena.c:69-73), so the ceiling alone is not a bound |
| ArenaChain.LatchedRunBound | src/arena/arena.c:75 | once ARENA_MAX is set, the count never passes it unless it already had |
| ArenaChain.BurstWithinLimit | src/arena/arena.c:69-73 | from one arena and no ceiling, the count stays within `min(2*CPUs, 2*ARCHITECTURE)` when ARENA_TEST does not exceed it |
| ArenaChain.BurstPastLimit | src/arena/arena.c:69-73 | with ARENA_TEST 8 and one CPU (ceiling 2), seven granted attempts leave eight arenas: the burst may create ARENA_TEST arenas whatever ceiling is latched later (arena.c:69-73) |
| ArenaChain.FirstIdleFrom | src/arena/arena.c:108-116 | the first arena from position `i` whose mutex is free, with all before it busy; none iff all are busy |
| ArenaChain.FirstIdle | src/arena/arena.c:104-119 | the first arena of the chain whose mutex is free, with all before it busy; none iff all are busy |
| ArenaChain.Manager.ArenaInitialize | src/arena/arena.c:21-29 | the arena's id is the old counter, the counter grows by exactly one, both counters are zero, all 257 bin slots are null, and `heap_header` and `next` are null |
| ArenaChain.Manager.GetCPUs | src/arena/arena.c:53-62 | the result is at least 1 and is cached: once computed, every later call returns the same value |
| ArenaChain.Manager.CanCreate | src/arena/arena.c:68-76 | the answer and the new ARENA_MAX are `Admit`'s; the CPU count is computed only when the ceiling is latched, and is then `get_CPUs`' value; an admitted creation stays within `Bound` |
| ArenaChain.Manager.ArenaCreate | src/arena/arena.c:82-96 | ARENA_MAX and the CPU cache become what `arena_can_create` leaves; null, with the chain, its links and the counter unchanged, when the limit refuses or the page is not granted; otherwise the chain becomes `old + [new]` with every earlier link intact; the new arena has the next id and `next == null`; the count stays within a latched ARENA_MAX |
| ArenaChain.Manager.NewArena | src/arena/arena.c:85-87 | a zero-filled page initialized by `arena_initialize` |
| ArenaChain.Manager.Append | src/arena/arena.c:89-91 | the walk to the end of the chain links the new arena after the last one; the chain becomes `old + [new]`, still linked and numbered |
| ArenaChain.Manager.ArenaReuse | src/arena/arena.c:104-119 | the result is the first arena in chain order whose try-lock succeeds, or null when all are busy; the chain is not changed |
| ArenaChain.Manager.ArenaGet | src/arena/arena.c:125-146 | never null; the first call initializes the embedded arena (id 0, counters zero, bins null) and returns it, leaving ARENA_MAX and the CPU cache; later calls leave the embedded arena's fields and return the first idle arena, changing nothing else; failing that, a newly created one appended to the chain (the counter grows by one, the new arena has the next id); failing that, the embedded arena with the chain and counter unchanged. ARENA_MAX and the CPU cache then become what `arena_can_create` leaves |
| ArenaChain.Manager.ArenaFind | src/arena/arena.c:35-45 | the cached arena is returned once set, and nothing else changes (manager, chain links, embedded arena); otherwise `arena_get`'s arena is returned and cached, with `arena_get`'s three-way choice and frames restated; the result is never null |
| Aprintf.Step | src/utils/aprintf.c:36-39 | a byte is stored only with no error and room below the last byte; otherwise the error flag is set; the flag is never cleared |
| Aprintf.FeedError | src/utils/aprintf.c:37 | once the error flag is set, no printing changes the buffer |
| Aprintf.FeedAppend | src/utils/aprintf.c:108-112 | printing `a` then `b` is printing `a + b` |
| Aprintf.FeedClips | src/utils/aprintf.c:36-39 | from a clean buffer, the stored bytes are the first `size - 1` bytes of everything printed, and the error flag says whether anything was cut off |
| Aprintf.DigitRoundTrip | src/utils/aprintf.c:55 | each digit character is the entry at the digit's index of `"0123456789ABCDEF"` or `"0123456789abcdef"`; it reads back as its value, is '0' only for 0, and is neither 'x' nor '-' |
| Aprintf.DigitsRoundTrip | src/utils/aprintf.c:60-61 | the digits of `n` in any base from 2 to 16, most significant first, read back as `n` |
| Aprintf.DigitsNoLeadingZero | src/utils/aprintf.c:68-71 | the first digit is '0' only for 0, and 0 is printed as "0" |
| Aprintf.DigitsPlain | src/utils/aprintf.c:55 | digit strings contain no 'x' and no '-' |
| Aprintf.DigitsCase | src/utils/aprintf.c:55 | with `uppercase` every digit is in `"0123456789ABCDEF"`, without it in `"0123456789abcdef"`; `uppercase` changes only the case of the letters, not the length or the values, and changes nothing in bases up to 10 |
| Aprintf.NumberPieces | src/utils/aprintf.c:57-61 | printing the prefix, then the higher digits, then the last digit, prints the number's text |
| Aprintf.NumberPrefix | src/utils/aprintf.c:57-58 | base 17 prints "0x" exactly once and then hexadecimal digits of `n`; base 11 prints '-' exactly once and then decimal digits of `n`; bases 10 and 16 print the digits of `n` |
| Aprintf.IntTextRoundTrip | src/utils/aprintf.c:85-89 | the text of `%d` reads back as the int, `INT_MIN` included, and starts with '-' iff the int is negative |
| Aprintf.FormatConversion | src/utils/aprintf.c:109 | a '%' is followed by one more character; that character's conversion text is printed (nothing for an unknown one), then the text after it |
| Aprintf.FormatPlain | src/utils/aprintf.c:110 | any other byte prints as itself, then the text after it |
| Aprintf.OutputTruncates | src/utils/aprintf.c:118 | the output is a prefix of the untruncated rendering, at most 4095 bytes long, and all of it when that fits |
| Aprintf.Buffer.Empty | src/utils/aprintf.c:97-103 | a fresh buffer of the given size, holding nothing and with no error |
| Aprintf.Buffer.PutChar | src/utils/aprintf.c:36-39 | the buffer moves as `Step` says; the array is written only at the old `pos`, which is below `size - 1`, and is untouched when the byte is refused |
| Aprintf.Buffer.PutString | src/utils/aprintf.c:45-48 | the buffer moves as `Feed` of the string, or of "(null)" for a null pointer |
| Aprintf.Buffer.PutNumber | src/utils/aprintf.c:54-62 | the buffer moves as `Feed` of the number's text in bases 10, 16, 11 (with '-') and 17 (with "0x") |
| Aprintf.Buffer.PutUnsigned | src/utils/aprintf.c:68-71 | the buffer moves as `Feed` of the decimal digits of `n` |
| Aprintf.Buffer.Choose | src/utils/aprintf.c:77-90 | the buffer moves as `Feed` of the conversion's text, and the argument index advances by the number of arguments the letter reads |
| Aprintf.Buffer.Format | src/utils/aprintf.c:108-112 | the loop leaves the buffer as `Feed` of the whole rendering, even when it stops early at an error |
| Aprintf.Buffer.Advance | src/utils/aprintf.c:109-111 | one loop turn moves forward in the format and keeps the total still to print the same |
| Aprintf.Buffer.PutConversion | src/utils/aprintf.c:109 | a conversion followed by the rest prints as the conversion's text followed by the rest |
| Aprintf.Buffer.PutPlain | src/utils/aprintf.c:110 | a plain byte followed by the rest prints as that byte followed by the rest |
| Aprintf.Aprintf | src/utils/aprintf.c:96-141 | the text handed on is the first 4095 bytes of the rendering. It is appended to the history exactly when it is non-empty, `add_alloc_hist` and LOGGING are on and `hist_size < SIZE_MAX`; in that case the capacity becomes `grown` exactly when it was 0 or the text would not fit, and otherwise it stays. The result is 0 with nothing written when the text is empty, `fd == -1`, or `add_alloc_hist && !DEBUG && !LOGGING`; otherwise it is what `write` returns |

## Left out

- Mutexes (`MTX_LOCK`, `MTX_TRYLOCK`, `MTX_UNLOCK`, `MTX_INIT`) are left out. They are concurrency, and the model is sequential. The try-lock probe of `arena_reuse` is the input set `busy`.
- The thread-local storage of `tcache` and the race behaviour of the static `initialized` flag are left out. `tcache` is the object `ThreadCache`.
- The bodies of `heap_create`, `internal_alloc`, `sysconf`, `heap_hist_extend` and `write` are left out. They are not part of this model; each one is an input parameter (see Modelling choices).
- Debug and log output (`print_log`, the `aprintf` calls inside `bin.c` and `arena.c`) is left out. It is a diagnostic side channel.
- The packed bit layout of a size word and pointer arithmetic on real addresses are left out. A size word is a record, and a chunk is a heap plus an offset.
- The `float best_usage` in `new_chunk` is modelled as an integer. It only ever holds -1000 or a whole percentage.
- Bin.NewChunk: the guard `type < TINY || type > SMALL` is not modelled, because the class is a two-valued datatype.
- Bin.NewChunk: `t_chunk_int` and `size_t` widths are not modelled. Sizes are unbounded naturals. The one wrap-around that matters, `free -= size` on the fall-through path, is `Bin.WrapSub` in the finding below.
- Bin.FindInFastbin: the index is an `int` in the C code. The model does not model its overflow for sizes near 2^31 * ALIGNMENT.
- Bin.FindMemory: the null-arena guard is not modelled, because an `Arena` reference is never null here.
- Bin.FindMemory: the overflow of `size + sizeof(t_chunk)` near `SIZE_MAX` is not modelled.
- ArenaChain.Manager.ArenaCreate: requires an initialized manager, because `arena_get` only calls `arena_create` after it has initialized the embedded arena.
- ArenaChain.Manager.ArenaGet: does not state the arena invariant of the arenas it hands out, beyond the newly created one (`BinValid`). The manager does not track what happens to an arena's bins after it is handed out.
- ArenaChain.Manager.ArenaFind: does not model the `ENOMEM` branch. `arena_get` never returns null (its last fallback is the embedded arena), so that branch is dead.
- ArenaChain.Manager.ArenaInitialize: leaves out `mutex(MTX_INIT)`.
- Aprintf.Aprintf: requires a well-formed format (`FormatOk`). A trailing lone '%' makes the C loop read past the terminating NUL, and a missing or wrongly typed argument is undefined behaviour.
- Aprintf.Aprintf: requires a format with no NUL byte. The C loop stops at the first NUL, and the model does not cut the format there.
- Aprintf.Aprintf: does not model the `memcpy` room in the history buffer, or what `heap_hist_extend` does when it fails. The history is an unbounded string whose capacity is set to `grown` when the code would extend it.
- Aprintf.Aprintf: the `va_list` handed to `chooser_buf` is taken to advance the caller's list. That is the behaviour on the usual x86-64 ABI.
- Aprintf.Buffer.Choose: `%c` stores `c % 256` as a byte, and the model does not distinguish signed from unsigned `char`. `%x` and `%X` arguments are taken below 2^32, `%u` and `%p` arguments below 2^64, and `%d` and `%i` arguments in the `int` range.
- Strings are sequences of `char` standing for bytes. A NUL inside a `%s` argument is excluded, because C would stop there.

## Findings

| source | as written | input that shows it | evidently intended | confidence | as-written member | corrected member |
|---|---|---|---|---|---|---|
| src/arena/bin.c:84-95 | when a heap was already created in the call (`created` true) and `split_top_chunk` fails, the `if (!chunk && !created)` guard is skipped. Control falls through to `best_heap->free -= size`, which charges `free` for a chunk never carved. It wraps `free` below zero when no heap had `free >= size` (as in the input given: the heap used is the one the second `heap_create` made); when the first heap created was selected, `free - size` stays between 0 and the header size. `GET_PTR(NULL)` is then returned as a non-null pointer | empty chain, a 100-byte heap whose fresh top chunk holds 80 usable bytes (96 free), a 97-byte request, two granted `heap_create` calls | return null when the split fails, whatever `created` is | not executed | Bin.PlanAsWritten | Bin.Plan |
