# Exploidus, modelled and verified in Dafny

Exploidus is a kernel and userland written from scratch. This project models the parts of it where
correctness is hardest to see, and proves what they are for.

- **Modular arithmetic in limbs.** `Words`, `Field25519`, `Limbs25519`, `Bytes25519`, `X25519` and
  `Poly1305` take X25519 and Poly1305 from the machine words, with every truncation written out, to
  the definitions of RFC 7748 and RFC 8439.
- **Memory.** `Pmm` is the zoned frame allocator, `Paging` and `Vmm` the page tables as a finite map,
  `Fork` the deep copy of an address space with its rollback, `Kmalloc` the kernel heap.
- **Processes.** `Sched` and `Blocking` are the scheduler, mutexes, semaphores, messages, waitpid,
  sleep and exit as one machine whose steps interleave freely, with an invariant; `Runs` is what
  holds over all runs of it from boot. `Kernel` is the code, with run queues linked through the
  process table, each method proved to be one step of that machine. `Inbox` is the ring behind an
  inbox.
- **The file system.** `Exfs` says what the checker checks, `Fsck` is the checker, `Mkexfs` the image
  writer, `ExfsWalk` what the walk of the directories means, `ExfsTree` the tree of a new image.
- **The packet layer of the SSH server.** `Packets` over values and whole sessions, `Transport` the
  code over short reads and writes.
- **Hashes, checksum, calendar.** `Blake3`, `Sha256`, `Checksum`, `Calendar`.

The main results are `X25519.ScalarMult` with `X25519.AgreesWithRfc`, `Poly1305.Auth`,
`Fork.CloneAddressSpace` with `Fork.CloneTranslates` and `Fork.ForkAndReap`, `Vmm.Machine.MapInto`,
`Pmm.RunKeeps`, `Kmalloc.RunKeeps`, `Runs.RunKeeps` with `Runs.NoLostWakeup`,
`Runs.MutualExclusion`, `Runs.MessagesInOrder`, `Runs.SleepLasts` and
`Runs.WaitpidReturnsExitCode`, `Mkexfs.Maker.Make` with `Fsck.Check` and `ExfsWalk.WalkCleanIff`,
`Transport.Converse` with `Packets.SessionDelivers`, and the two round trips of `Calendar`.

`dafny verify dfyconfig.toml` checks everything.

## Reading the model

- Machine words are natural numbers. A cast is an explicit remainder or a function such as `Low64`
  that says what is lost; a mask of the form 2^k-1 is written as a remainder, which `Words.AndMask`
  justifies, and other masks, `|` and `^` use the bitwise functions of `Words`.
- The four page-table levels that the C code writes out, as nested loops or in sequence, are one
  method with a level argument; the unrolled lookup walk is kept as it is.
- The kernel is single-core and its timer never switches processes, so each stretch of code between
  points where interrupts are on is one step. A tick or an interrupt that sends a message may come
  between any two steps, also between blocking and the switch. What a process will do when it next
  runs, which its kernel stack holds, is the field `at`.
- `sched_next` links are a column of their own, `link`, beside the process table.
- The heap keeps a header image in `hdrs` until something is written over it. `Kmalloc.Heap.Kfree`
  may be called with NULL, any address outside the heap, and any address whose header image is still
  there: every live pointer, and one freed before as long as its memory has not been handed out again.
  In `Kmalloc.RunKeeps` a call is its meaning, and freeing any other value changes nothing.
- ExFS blocks and inodes are typed values, not packed bytes. A name is what the 256-byte field keeps.
- The ChaCha20 block function and the BLAKE3 and SHA-256 compression functions are arbitrary
  functions of the right shape; nothing proved depends on which. Random padding is a parameter.
- A stream socket is a queue of bytes that accepts and gives pieces of any size; `up` says that no
  call fails.

## Where the code and its comments differ

- The comment above `fmul` admits limbs below 2^55. `Limbs25519.DocumentedBoundIsTooWide` shows
  such limbs for which a carry is cut; `Limbs25519.FMul` says exactly when the result is right, and
  limbs of at most 2^54+2^51, which is all the ladder produces, are always enough.
- The comment on `fmul` asks for distinct output and input; `crecip` passes the same array twice.
  The code reads its inputs first, and `Limbs25519.FMul` is proved with aliasing allowed.
- `cmult` runs over 256 bits where RFC 7748 runs over 255. `X25519.AgreesWithRfc` shows that the
  result is the same, given Fermat's little theorem for one element.
- A second free of a frame, or a reference to a free one, makes a zone counter wrong, and nothing in
  `pmm.c` prevents it: `Pmm.FreedKeepsIff` and `Pmm.ReffedKeepsIff` give the exact conditions.
- Fork keeps the low 12 bits of a page-table entry and drops bits 52 to 63, the no-execute bit among
  them; the copy is stated for what is kept.
- `plain_send` accepts payloads that `plain_recv` refuses, and a sealed empty payload is sent and
  then refused: `Packets.Delivers` gives the exact sizes.
- `sys_sleep` adds its ticks to a 64-bit clock and uses a wake-up time of 0 for "not sleeping". A
  sleep lasts its ticks if the sum stays below 2^64 (`Runs.SleepLasts`), never ends if it is exactly
  2^64 (`Runs.SleepForever`), and is cut short above (`Runs.SleepCutShort`).
- `days_from_civil` computes the day of the era in unsigned int. `mktime` passes it any day of the
  month, so a day before the first of an era comes out 2^32 days late: `Calendar.DayZeroWraps`, with
  the exact condition in `Calendar.CastsExactIff`.
- In `sched_yield` the branch for a RUNNING process that finds no next one cannot be taken:
  `Blocking.YieldKeeps`.
- `blake3.c` says it supports one chunk of 1024 bytes; the code and `gen_index.py` agree on inputs of
  any length, which is what `Blake3.Streamed` states. Above one chunk neither computes the tree hash
  of the BLAKE3 specification.

## Model

| member | source | states |
|---|---|---|
| Limbs25519.Narrow | kernel/crypto/x25519.c:104-108 | the low 51 bits, the carry cut to 64 bits and the part the cut drops add up to the column |
| Limbs25519.FoldTop | kernel/crypto/x25519.c:109-111 | the last carry times 19 is folded in without changing the value, apart from what a 64-bit product drops; r0, r1 are below 2^51 and r2 is at most 2^51 |
| Limbs25519.LossIffCarries | kernel/crypto/x25519.c:104-111 | nothing was dropped along the chain exactly when every full-width carry fits its word |
| Limbs25519.LossIsVisible | kernel/crypto/x25519.c:104-111 | what the chain can drop is never a non-zero multiple of the prime, so a loss always shows in the result |
| Limbs25519.Carry | kernel/crypto/x25519.c:104-113 | five 128-bit columns become five limbs of at most 2^51 that are congruent to them modulo 2^255-19 if and only if no carry is cut |
| Limbs25519.MulColumns | kernel/crypto/x25519.c:88-102 | the five columns, with the folding by 19, computed without overflow at 128 bits for limbs below 2^55 |
| Limbs25519.FMul | kernel/crypto/x25519.c:83-114 | for limbs below 2^55 the product is right modulo 2^255-19 if and only if no carry is cut; for limbs of at most 2^54+2^51 it is always the field product, with limbs of at most 2^51 |
| Limbs25519.LooseFits | kernel/crypto/x25519.c:77-114 | limbs of at most 2^54+2^51 cut no carry |
| Limbs25519.DocumentedBoundIsTooWide | kernel/crypto/x25519.c:77-114 | with every limb 2^55-1, which the comment above fmul admits, a carry is cut |
| Limbs25519.SquareColumns | kernel/crypto/x25519.c:125-135 | the doubled columns of a square are the columns of the product of the number with itself |
| Limbs25519.FSquareTimes | kernel/crypto/x25519.c:116-148 | the 2^count-th power in the field, for any count the do-while loop takes and limbs of at most 2^54+2^51 |
| Limbs25519.FSum | kernel/crypto/x25519.c:26-33 | limb-wise sum without wrap, which is the field sum |
| Limbs25519.FDifferenceBackwards | kernel/crypto/x25519.c:41-52 | the field difference, never below zero in any limb |
| Limbs25519.ScalarStep | kernel/crypto/x25519.c:59-72 | one product and carry split at bit 51 with the carry bounded by the scalar |
| Limbs25519.FScalarProduct | kernel/crypto/x25519.c:55-75 | the field product with a small scalar, the top carry folded back |
| Bytes25519.LoadIsLE | kernel/crypto/x25519.c:151-162 | load_limb is the little-endian value of its eight bytes |
| Bytes25519.Window | kernel/crypto/x25519.c:177-184 | a load shifted and masked to 51 bits is a window of the whole 256-bit number |
| Bytes25519.Windows | kernel/crypto/x25519.c:177-184 | five 51-bit windows make up the number modulo 2^255 |
| Bytes25519.FExpand | kernel/crypto/x25519.c:177-184 | the low 255 bits of any 32 bytes as five limbs below 2^51 |
| Bytes25519.Pass | kernel/crypto/x25519.c:194-204 | one carry pass keeps the value up to a multiple of 2^255 |
| Bytes25519.TwoPasses | kernel/crypto/x25519.c:194-204 | after two passes all limbs are below 2^51 and the value is congruent to the input |
| Bytes25519.Freeze | kernel/crypto/x25519.c:192-231 | for any five 64-bit limbs, the unique representative in 0..2^255-20 |
| Bytes25519.StoreLimb | kernel/crypto/x25519.c:164-174 | eight bytes are replaced by the bytes of the word and no other byte changes |
| Bytes25519.PackWords | kernel/crypto/x25519.c:233-236 | the four shifted and or-ed words hold the value of the five limbs |
| Bytes25519.FContract | kernel/crypto/x25519.c:188-237 | writes the unique little-endian form below 2^255-19, for any 64-bit limbs |
| Bytes25519.Normalize | kernel/crypto/x25519.c:176-237 | fexpand then fcontract is the low 255 bits modulo 2^255-19, and the encoding of an element comes back unchanged |
| X25519.FMonty | kernel/crypto/x25519.c:245-277 | one step of the Montgomery ladder of section 5 of RFC 7748 in the field; all limbs in and out at most 2^51 |
| X25519.SwapConditional | kernel/crypto/x25519.c:286-296 | the masked exchange swaps the two vectors exactly when the bit is 1 |
| X25519.ScalarBit | kernel/crypto/x25519.c:315-327 | the top bit of the shifted byte is the scalar bit the ladder is at |
| X25519.BitStep | kernel/crypto/x25519.c:317-327 | swap, step, swap for one bit, on limbs that stay within 2^51 |
| X25519.ByteSteps | kernel/crypto/x25519.c:314-335 | the eight bits of a byte advance the ladder by eight steps and leave each buffer pointer where it was |
| X25519.CMult | kernel/crypto/x25519.c:304-340 | for every scalar and point, the ladder of RFC 7748 run over all 256 bits, with every held limb at most 2^51 |
| X25519.LazySwapIsEager | kernel/crypto/x25519.c:318-327 | deferring the swaps, as the RFC does, and swapping at once give the same ladder |
| X25519.Chain | kernel/crypto/x25519.c:346-372 | the addition chain raises to the power 2^255-21 |
| X25519.CRecip | kernel/crypto/x25519.c:346-372 | returns the power 2^255-21 of its argument in the field |
| X25519.ClampValue | kernel/crypto/x25519.c:380-383 | clamping keeps bits 3 to 253, clears the others and sets bit 254 |
| X25519.ClampCopy | kernel/crypto/x25519.c:380-383 | the private copy is the clamped scalar and the secret is left alone |
| X25519.ScalarMult | kernel/crypto/x25519.c:374-390 | the output is the little-endian form of x times the inverse power of z of the ladder over the clamped scalar and the low 255 bits of the point |
| X25519.ClearedTopStep | kernel/crypto/x25519.c:304-340 | the extra step on the cleared bit 255 only scales the second point by 4u |
| X25519.StepScales | kernel/crypto/x25519.c:245-277 | a step carries projective scale factors (a, b) to (a^4, (ab)^2) |
| X25519.RunScales | kernel/crypto/x25519.c:304-340 | a whole ladder carries scale factors that are powers of one element to such factors |
| X25519.AgreesWithRfc | kernel/crypto/x25519.c:374-390 | the 256-step result equals the 255-step result of RFC 7748, always for u = 0 and otherwise whenever (4u)^(2^255-20) is 1 |
| Poly1305.KeyLimbs | kernel/crypto/poly1305.c:43-53 | the five masked limbs are the clamped first half of the key |
| Poly1305.ClampDigits | kernel/crypto/poly1305.c:43-53 | masking each 26-bit limb is masking the whole number with the clamp of section 2.5 of RFC 8439 |
| Poly1305.AddBlock | kernel/crypto/poly1305.c:69-78 | adds sixteen bytes and the high bit to the accumulator; the limbs stay within the bound the products need |
| Poly1305.ColumnsBounded | kernel/crypto/poly1305.c:81-85 | no 64-bit column overflows |
| Poly1305.CarryChain | kernel/crypto/poly1305.c:87-92 | no carry narrowed to 32 bits loses a bit, and the value changes only by a multiple of 2^130-5 |
| Poly1305.Multiply | kernel/crypto/poly1305.c:81-92 | accumulator times r modulo 2^130-5, back within the loop bound on the uncarried h0 |
| Poly1305.PadBlock | kernel/crypto/poly1305.c:97-103 | the last partial block ended by a one byte and zero-filled |
| Poly1305.Settle | kernel/crypto/poly1305.c:119-125 | after the final carries every limb, h1 included, is below 2^26 and the value is congruent |
| Poly1305.Freeze | kernel/crypto/poly1305.c:127-139 | the masked choice is the remainder modulo 2^130-5 |
| Poly1305.Emit | kernel/crypto/poly1305.c:141-149 | adds the second half of the key and stores the sum modulo 2^128 |
| Poly1305.Auth | kernel/crypto/poly1305.c:27-149 | for every key and message, the tag of section 2.5.1 of RFC 8439 |
| Pmm.Allocator.Database | kernel/mm/pmm.c:41-59 | the frame records after initialisation: reserved frames held and locked, the rest in three zones |
| Pmm.Allocator.constructor | kernel/mm/pmm.c:24-70 | every zone counter starts as the number of allocatable frames of its zone |
| Pmm.InitialCounted | kernel/mm/pmm.c:24-70 | the initial state satisfies the invariant with nothing held |
| Pmm.Allocator.Scan | kernel/mm/pmm.c:78-103 | the unbounded circular scan ends, at the first allocatable frame of the zone after the cursor |
| Pmm.Allocator.Take | kernel/mm/pmm.c:90-99 | handing a frame out keeps every counter equal to its count |
| Pmm.Allocator.Alloc | kernel/mm/pmm.c:73-106 | returns 0 exactly when the zone number is bad or the zone has no allocatable frame; otherwise hands out the next one |
| Pmm.Allocator.Free | kernel/mm/pmm.c:109-125 | the whole new state, and: the counters stay right if and only if the frame was held, locked or outside the region |
| Pmm.Allocator.Ref | kernel/mm/pmm.c:128-133 | the whole new state, and: the counters stay right if and only if the frame was held and its 32-bit count does not wrap, or it is locked or outside |
| Pmm.FreedKeepsIff | kernel/mm/pmm.c:109-125 | a free keeps the counters right if and only if the frame was held or locked: a double free counts it twice |
| Pmm.ReffedKeepsIff | kernel/mm/pmm.c:128-133 | a reference keeps the counters right if and only if the frame is held without wrap, or locked |
| Pmm.TakenKeeps | kernel/mm/pmm.c:90-99 | taking an allocatable frame keeps every counter right |
| Pmm.Allocator.AddressRoundTrip | kernel/mm/pmm.c:13-21 | addresses and frame numbers are inverse; addresses outside the region, wrapped subtraction included, name no frame |
| Pmm.NextKeeps | kernel/mm/pmm.c:73-133 | a call that frees or references only held frames keeps the invariant; an allocation fails exactly when the zone is exhausted and never grants a held frame |
| Pmm.RunKeeps | kernel/mm/pmm.c:73-133 | in every state of every such run each zone counter is the number of allocatable frames and each reference count the number of holders |
| Pmm.NoDoubleGrant | kernel/mm/pmm.c:73-133 | between two grants of one frame lies the free that gave back its last reference |
| Vmm.SamePageIff | kernel/mm/vmm.c:118-135 | four nine-bit indices pick out one 4 KiB page of the 48-bit address space |
| Vmm.LookupFrame | kernel/mm/vmm.c:169-191 | a translation depends only on the tables the root owns |
| Paging.OwnedFrame | kernel/mm/vmm.c:118-191 | what a table owns, and whether it is a tree, depends only on the frames it owns |
| Paging.SwapChild | kernel/mm/vmm.c:118-158 | replacing what hangs below one entry keeps a tree a tree when the new part is apart from the rest |
| Vmm.Descend | kernel/mm/vmm.c:118-158 | a one-page update of a child table is a one-page update of its parent |
| Vmm.Grow | kernel/mm/vmm.c:29-38 | hanging a fresh zeroed table below an absent entry changes no translation |
| Vmm.WriteLeaf | kernel/mm/vmm.c:130-134 | writing a last-level entry changes exactly one page |
| Vmm.Machine.AllocFrame | kernel/mm/vmm.c:29-38 | pmm_alloc by frame number: a free frame of the zone becomes held, or none exists |
| Vmm.Machine.AllocTable | kernel/mm/vmm.c:29-38 | returns the table an entry names, or installs a zeroed free frame with flags 7, or fails leaving everything unchanged |
| Vmm.Machine.MapAt | kernel/mm/vmm.c:118-135 | from any level down: on success exactly the page of the address changes, on failure none does and memory is exhausted |
| Vmm.Machine.MapInto | kernel/mm/vmm.c:118-135 | refines update on the map from pages to frames; a null root fails without effect |
| Vmm.MapIsUpdate | kernel/mm/vmm.c:118-135 | in addresses: the page of virt now leads to the frame with the same offset, every other address translates as before |
| Vmm.Machine.UnmapAt | kernel/mm/vmm.c:141-158 | from any level down: deletes exactly the page, or nothing below a huge entry |
| Vmm.Machine.UnmapInto | kernel/mm/vmm.c:141-158 | refines deletion on the map from pages to frames |
| Vmm.Machine.GetPhysInto | kernel/mm/vmm.c:169-191 | the unrolled walk is lookup on that map, huge pages at both levels included |
| Fork.ReleaseClaim | kernel/proc/fork_exec.c:29-66 | releasing exactly the frames claimed restores every frame record |
| Fork.FreeFrame | kernel/proc/fork_exec.c:52-62 | freeing a frame held once releases it and no other |
| Fork.FreeTable | kernel/proc/fork_exec.c:41-63 | the loops below one root entry give back everything the table owns, once |
| Fork.FreeAddressSpace | kernel/proc/fork_exec.c:29-66 | all private frames of the low half and the root go back to the allocator, kernel entries are left alone |
| Fork.NewRoot | kernel/proc/fork_exec.c:157-176 | a fresh root with the 512 kernel entries, or nothing changed |
| Fork.Grab | kernel/proc/fork_exec.c:188-232 | one more frame on top of those claimed so far, never one already in use |
| Fork.CloneEntry | kernel/proc/fork_exec.c:195-238 | one entry copied, with the claimed frames still exactly those the child owns, also when memory runs out midway |
| Fork.CloneEntries | kernel/proc/fork_exec.c:195-238 | the deep copy below one table; the child owns exactly the frames claimed whether or not it completed |
| Fork.CloneRootEntry | kernel/proc/fork_exec.c:182-240 | one low-half root entry: skipped, or cloned, or out of memory with everything accounted for |
| Fork.CloneAddressSpace | kernel/proc/fork_exec.c:157-280 | success gives a clone that owns exactly the frames claimed; on the out-of-memory path, taken at any point, every frame record and zone counter is as before |
| Fork.CopyTranslates | kernel/proc/fork_exec.c:195-238 | a copied table translates the same addresses, to pages with equal contents and equal low 12 flag bits, in frames of its own |
| Fork.CloneTranslates | kernel/proc/fork_exec.c:157-280 | the same for every low-half address of the whole clone; addresses without a private entry mean what they mean to the kernel |
| Fork.ForkAndReap | kernel/proc/fork_exec.c:416-447 | forking and then freeing the unchanged clone restores every frame record and zone counter |
| Kmalloc.Heap.constructor | kernel/mm/kmalloc.c:29-41 | one free block that fills the heap |
| Kmalloc.FirstFit | kernel/mm/kmalloc.c:81-117 | the first free block that is large enough |
| Kmalloc.GiveGood | kernel/mm/kmalloc.c:88-114 | splitting keeps the tiling and adds exactly one live pointer, of a size less than 48 bytes above the request |
| Kmalloc.CoalesceGood | kernel/mm/kmalloc.c:161-176 | one scan leaves no two free neighbours and changes no live block |
| Kmalloc.ReleaseGood | kernel/mm/kmalloc.c:157-176 | freeing removes exactly its own pointer |
| Kmalloc.ReleaseUndoesGive | kernel/mm/kmalloc.c:61-181 | freeing the block just given restores the block list exactly |
| Kmalloc.FreeUndoesAlloc | kernel/mm/kmalloc.c:61-181 | kmalloc followed by kfree of its result leaves the heap exactly as it was |
| Kmalloc.AllocateIsFresh | kernel/mm/kmalloc.c:61-125 | NULL if and only if the size is 0 or no free block fits the rounded size; otherwise a new pointer, apart from all live payloads, inside the heap and aligned like it |
| Kmalloc.DeallocateIsRemoval | kernel/mm/kmalloc.c:139-181 | kfree removes its pointer from the live map and does nothing for any other value |
| Kmalloc.AllFree | kernel/mm/kmalloc.c:139-181 | with nothing live the heap is one block again |
| Kmalloc.LiveApart | kernel/mm/kmalloc.c:61-181 | live payloads are disjoint, in the heap and aligned |
| Kmalloc.RunKeeps | kernel/mm/kmalloc.c:61-181 | after every sequence of calls the blocks tile the heap, no two free ones adjoin, live payloads are apart, and with nothing live the single initial block is back; a free of anything but a live pointer changes nothing here |
| Kmalloc.Heap.Take | kernel/mm/kmalloc.c:88-116 | the header writes that split and claim a block |
| Kmalloc.Heap.Kmalloc | kernel/mm/kmalloc.c:61-125 | the list walk over headers in memory computes the abstract allocation, with the 64-bit rounding never wrapping |
| Kmalloc.Heap.Kfree | kernel/mm/kmalloc.c:139-181 | the header tests and the merge scan compute the abstract release; NULL, foreign and already freed pointers change nothing |
| Kmalloc.Heap.Merge | kernel/mm/kmalloc.c:157-176 | marking and merging |
| Kmalloc.Heap.MergeScan | kernel/mm/kmalloc.c:160-176 | the in-place scan computes the merged list |
| Sched.PutQueued | kernel/proc/scheduler.c:36-81 | making one process READY and enqueueing it keeps every queue exact and in order of arrival |
| Sched.ResumeQueued | kernel/proc/scheduler.c:237-241 | dispatching keeps every queue exact and in order |
| Sched.DispatchOrder | kernel/proc/scheduler.c:102-110 | the process dispatched is of the best non-empty class and arrived first in it |
| Sched.SweepEffect | kernel/proc/scheduler.c:131-172 | a scan rouses exactly the processes that were due when it began |
| Sched.WakeEffect | kernel/sync/sync.c:104-111 | the wakeup loop readies exactly the blocked processes it lists |
| Blocking.TickKeeps | kernel/proc/scheduler.c:174-191 | a tick keeps the invariant and leaves no sleeper overdue |
| Blocking.WaitersIdle | kernel/proc/scheduler.c:131-148 | the scan for waitpid waiters never finds one, because exit has woken them already |
| Blocking.YieldKeeps | kernel/proc/scheduler.c:193-271 | a switch keeps the invariant, and a yielding RUNNING process always finds a next one |
| Blocking.IdleKeeps | kernel/proc/scheduler.c:227-235 | a round of the idle loop keeps the invariant |
| Blocking.YieldOrder | kernel/proc/scheduler.c:193-271 | whatever was READY, the process dispatched is of a class at least as urgent and had waited longest within it |
| Blocking.LockKeeps | kernel/sync/sync.c:64-91 | a round of mutex_lock keeps the invariant, with room for a waiter or without |
| Blocking.TryLockKeeps | kernel/sync/sync.c:51-62 | mutex_trylock keeps the invariant |
| Blocking.UnlockKeeps | kernel/sync/sync.c:93-114 | mutex_unlock keeps the invariant: every waiter is READY and none is left registered |
| Blocking.SemWaitKeeps | kernel/sync/sync.c:126-146 | a round of sem_wait keeps the invariant and the account of the count |
| Blocking.PostKeeps | kernel/sync/sync.c:148-163 | sem_post keeps the invariant and the account of the count |
| Blocking.SendKeeps | kernel/ipc/ipc.c:44-94 | ipc_send, from a process or an interrupt, keeps the invariant |
| Blocking.ReceiveKeeps | kernel/ipc/ipc.c:98-156 | a round of ipc_recv or ipc_recv_nb keeps the invariant |
| Blocking.WaitpidKeeps | kernel/proc/fork_exec.c:416-424 | blocking in waitpid keeps the invariant, also on one's own pid |
| Blocking.ReapsOnlyZombies | kernel/proc/fork_exec.c:425-447 | a process that resumes in waitpid never reaps one that is not a zombie |
| Blocking.ReapKeeps | kernel/proc/fork_exec.c:425-447 | reaping keeps the invariant |
| Blocking.NapKeeps | kernel/syscall/sys_proc.c:293-304 | going to sleep keeps the invariant |
| Blocking.CreateKeeps | kernel/proc/process.c:38-109 | a new process keeps the invariant; a full table changes nothing |
| Blocking.DieKeeps | kernel/proc/process.c:121-159 | exit of the running process, or of a child that failed to start, keeps the invariant and wakes exactly its waiters |
| Blocking.StartKeeps | kernel/proc/fork_exec.c:260-261 | starting a prepared child keeps the invariant |
| Blocking.StepKeeps | kernel/proc/scheduler.c:36-271 | every step of the machine keeps the invariant |
| Runs.RunKeeps | kernel/proc/scheduler.c:36-271 | the invariant holds in every state of every run from boot |
| Runs.QueuesInEveryState | kernel/proc/scheduler.c:36-271 | in every state of every run a process is READY exactly when it is in the queue of its class, once and in no other, and only the current process is RUNNING |
| Runs.NoLostWakeup | kernel/sync/sync.c:64-163 | in every state of every run what a blocked process waits for has not happened and it is registered where that will be noticed; for a sleeper whose sum does not wrap, its tick has not come |
| Runs.WaitersInEveryState | kernel/sync/sync.c:64-163 | in every state of every run an unlocked mutex and a positive semaphore have no waiter, every registered waiter is parked there, and count is initial plus posts minus completed waits, never negative if it did not start so |
| Blocking.UnlockWakes | kernel/sync/sync.c:104-111 | unlocking makes READY exactly the processes blocked on that mutex |
| Blocking.PostWakes | kernel/sync/sync.c:155-162 | posting makes READY exactly the processes blocked on that semaphore |
| Runs.StepMark | kernel/proc/scheduler.c:150-191 | what every step does to the clock, to a sleeper and to a zombie: only a due sweep wakes a sleeper, and then it is READY; only waitpid takes a zombie away |
| Runs.TimelyInEveryState | kernel/proc/scheduler.c:150-191 | in every state of every run the clock is below 2^64 and no sleeper whose sum did not wrap has outlived its tick |
| Runs.ClockCounts | kernel/proc/scheduler.c:174-191 | over any stretch of any run the clock advances by the number of ticks, modulo 2^64 |
| Runs.SleepsUntilDue | kernel/syscall/sys_proc.c:293-304 | over any run a sleeper stays BLOCKED through every step that is not a sweep due for it, and is READY or running right after the first that is |
| Runs.SleepLasts | kernel/syscall/sys_proc.c:293-304 | in every run a sleep of n ticks with uptime plus n below 2^64 is not over before the n-th tick, and that tick ends it, whatever else happens |
| Runs.NeverDue | kernel/syscall/sys_proc.c:293-304 | a sleeper whose wake tick is 0 is BLOCKED in every later state of every run |
| Runs.SleepForever | kernel/syscall/sys_proc.c:293-304 | a sleep with uptime plus ticks exactly 2^64 never ends |
| Runs.SleepCutShort | kernel/syscall/sys_proc.c:293-304 | a sleep with uptime plus ticks above 2^64 ends at the first idle round, or at the first tick unless the clock wraps there, with more than one tick to go |
| Runs.ExitCodeKept | kernel/proc/process.c:121-159 | in every run a zombie keeps its pid and exit code until a waitpid that names it, and that call returns the code |
| Runs.WaitpidReturnsExitCode | kernel/proc/fork_exec.c:416-447 | what waitpid returns is what the child passed to exit, or -1 for a child that failed to start |
| Runs.LockedStays | kernel/sync/sync.c:51-114 | a locked mutex stays locked through every step but its own unlock |
| Runs.MutualExclusion | kernel/sync/sync.c:51-114 | in every run, between two steps that take one mutex lies an unlock of it |
| Runs.InboxStep | kernel/ipc/ipc.c:44-156 | no step but a send to it and a receive of its own changes the inbox of a living process |
| Runs.MessagesInOrder | kernel/ipc/ipc.c:44-156 | over any stretch of any run in which a process lives, its inbox then plus the messages accepted is the messages received plus its inbox now, in order |
| Kernel.Cpu.constructor | kernel/proc/process.c:25-36 | an empty table, empty queues and fresh locks |
| Kernel.Cpu.LaunchInit | kernel/main.c:438-486 | after init is created, queued, taken out again and made RUNNING, the machine is booted and its invariant holds |
| Kernel.Cpu.GuardNeverFires | kernel/proc/scheduler.c:44-57 | a queue never has more than 256 members |
| Kernel.Cpu.Contains | kernel/proc/scheduler.c:40-58 | the first scan finds the process if and only if it is queued, and its cycle guard does not fire |
| Kernel.Cpu.Append | kernel/proc/scheduler.c:60-80 | the linked queue grows by the process at its end, and the cycle guard does not fire |
| Kernel.Cpu.Enqueue | kernel/proc/scheduler.c:36-81 | appends exactly when absent; no guard fires |
| Kernel.Cpu.Dequeue | kernel/proc/scheduler.c:83-100 | unlinks the process and keeps the order of the others |
| Kernel.Cpu.Next | kernel/proc/scheduler.c:102-110 | the head of the first non-empty queue in QUEUE_ORDER |
| Kernel.Cpu.ProcGet | kernel/proc/process.c:111-119 | the slot of a pid in use |
| Kernel.Cpu.UnblockSleepers | kernel/proc/scheduler.c:150-172 | the loop is the sleepers scan of the machine |
| Kernel.Cpu.UnblockWaiters | kernel/proc/scheduler.c:131-148 | the loop is the waiters scan of the machine |
| Kernel.Cpu.WakeWaitersFor | kernel/proc/process.c:149-158 | the loop is the exit scan of the machine |
| Kernel.Cpu.WakePids | kernel/sync/sync.c:104-111 | the loop is the wakeup of the machine |
| Kernel.Cpu.Tick | kernel/proc/scheduler.c:174-191 | one tick of the machine, invariant kept |
| Kernel.Cpu.Dispatch | kernel/proc/scheduler.c:237-241 | the end of a switch |
| Kernel.Cpu.Yield | kernel/proc/scheduler.c:193-271 | one switch of the machine, invariant kept; never idle after a RUNNING process yields |
| Kernel.Cpu.IdleRound | kernel/proc/scheduler.c:227-233 | one idle round of the machine, invariant kept |
| Kernel.Cpu.MutexLock | kernel/sync/sync.c:64-91 | one round: taken if and only if it was free |
| Kernel.Cpu.MutexTryLock | kernel/sync/sync.c:51-62 | taken if and only if it was free |
| Kernel.Cpu.MutexUnlock | kernel/sync/sync.c:93-114 | afterwards nobody is blocked on the mutex |
| Kernel.Cpu.SemWait | kernel/sync/sync.c:126-146 | one round: taken if and only if the count was positive |
| Kernel.Cpu.SemPost | kernel/sync/sync.c:148-163 | afterwards nobody is blocked on the semaphore unless its count is still not positive |
| Kernel.Cpu.Send | kernel/ipc/ipc.c:44-94 | delivered if and only if the receiver lives, has an inbox and it is not full |
| Kernel.Cpu.Receive | kernel/ipc/ipc.c:98-156 | returns the oldest message if there is one |
| Kernel.Cpu.Waitpid | kernel/proc/fork_exec.c:416-424 | the part of waitpid before the switch |
| Kernel.Cpu.ReapChild | kernel/proc/fork_exec.c:425-447 | only a slot that held a zombie becomes unused; the exit code is returned, or -1 when the pid is gone |
| Kernel.Cpu.Nap | kernel/syscall/sys_proc.c:293-301 | the part of sleep before the switch |
| Kernel.Cpu.WakeUp | kernel/syscall/sys_proc.c:302-303 | the return from sleep |
| Kernel.Cpu.Start | kernel/syscall/sys_proc.c:279-280 | the prepared child is READY and at the end of its queue |
| Kernel.Cpu.ProcCreate | kernel/proc/process.c:38-109 | the first unused slot becomes a fresh blocked process; without memory for its stack NULL is returned and the slot and pid are spent |
| Kernel.Cpu.ProcExit | kernel/proc/process.c:121-159 | exit as the machine has it |
| Inbox.Ring.Push | kernel/ipc/ipc.c:57-76 | the ring takes a message at its end unless full, cut to 120 bytes, as the machine says |
| Inbox.Ring.Pop | kernel/ipc/ipc.c:112-119 | the ring gives its oldest message |
| Mkexfs.Maker.AllocBlock | tools/mkexfs.py:78-83 | allocates the next block of the data region, or fails exactly when it is full |
| Mkexfs.Maker.WritePtrBlock | tools/mkexfs.py:116-125 | a pointer block that resolves to the numbers written |
| Mkexfs.Maker.WriteGroups | tools/mkexfs.py:161-168 | the level-two blocks list the data blocks in order and hold each once |
| Mkexfs.Maker.PlaceBlocks | tools/mkexfs.py:127-171 | through direct, single and double indirection the checker lists exactly these blocks in order, and everything held is these blocks and the new pointer blocks, once each |
| Mkexfs.Maker.WriteData | tools/mkexfs.py:95-102 | consecutive blocks that hold the bytes |
| Mkexfs.Maker.WriteFile | tools/mkexfs.py:95-110 | the file is stored and every data block so far is still held exactly once |
| Mkexfs.Maker.NewDir | tools/mkexfs.py:174-213 | a directory inode with its block |
| Mkexfs.Maker.MakeDirs | tools/mkexfs.py:174-239 | the fixed directories |
| Mkexfs.Maker.AddFiles | tools/mkexfs.py:255-301 | all files stored, their entries packed at most fifteen to a block |
| Mkexfs.Maker.AddBin | tools/mkexfs.py:303-319 | /bin lists exactly the files; fails past twelve blocks |
| Mkexfs.Maker.WriteBitmap | tools/mkexfs.py:384-392 | a bit is set exactly for the used blocks of the volume |
| Mkexfs.Maker.Make | tools/mkexfs.py:24-392 | when the tool completes, the checker finds the image clean if and only if the names are distinct, and every file is stored |
| Mkexfs.MadeBlocks | tools/mkexfs.py:74-171 | bitmap bits are reserved plus held blocks and no block is held twice |
| ExfsTree.TreeCleanIff | tools/fsck.py:289-351 | the tree of a new image is clean if and only if the names in /bin differ |
| ExfsTree.WalkFiles | tools/fsck.py:312-337 | every file entry is reached and a repeated name is always noticed |
| Fsck.ResolveInto | tools/fsck.py:196-207 | appends the non-zero pointers, or complains exactly when the block is out of range |
| Fsck.ScanDouble | tools/fsck.py:225-232 | appends the level-one pointers and what they list |
| Fsck.ScanInode | tools/fsck.py:219-234 | collects the blocks of an inode and complains exactly when a pointer is out of range |
| Fsck.Record | tools/fsck.py:236-241 | one entry per reference to a block in range |
| Fsck.ScanInodes | tools/fsck.py:209-241 | the table of references of the whole image, and no complaint exactly when every pointer is in range |
| Fsck.CrossLinked | tools/fsck.py:243-246 | complains exactly when a block is held twice |
| Fsck.CrossCheck | tools/fsck.py:255-271 | lists exactly the leaked blocks and complains exactly when a reserved or held block is not marked |
| ExfsWalk.TrailFound | tools/fsck.py:294-337 | whatever a path of directories from the root shows (a repeated name, a dangling entry, an inode, a depth above 64) the walk finds |
| ExfsWalk.FoundTrail | tools/fsck.py:294-337 | whatever the walk finds, some path of directories from the root shows |
| ExfsWalk.WalkCleanIff | tools/fsck.py:294-341 | for every image the walk has nothing to report if and only if no path has more than 65 directories, no directory on one has a name twice or an entry for an unused inode, and every inode in use is in the tree |
| Fsck.WalkDir | tools/fsck.py:294-337 | the recursion with its list of names seen computes the walk |
| Fsck.Orphans | tools/fsck.py:341 | none exactly when every inode in use was reached |
| Fsck.Check | tools/fsck.py:148-351 | no error and no warning if and only if the image is clean: regions in order, every pointer in range, every block held once and marked, and the tree clean in terms of its paths |
| Fsck.Fix | tools/fsck.py:278-285 | clears exactly the bits of the leaked blocks |
| Fsck.FixReclaims | tools/fsck.py:278-285 | after the repair nothing is leaked, no mark that is needed is lost, and the image is clean if and only if leaks were its only fault |
| Packets.XorStreamTwice | kernel/crypto/chacha20.c:83-104 | deciphering is enciphering again, for every key, nonce, counter and length |
| Packets.U32RoundTrip | userspace/bin/sshd_packet.c:73-81 | get_u32 undoes put_u32 |
| Packets.PadLength | userspace/bin/sshd_packet.c:105-107 | at least 4 and at most 11 bytes, up to a multiple of eight |
| Packets.Aligned | userspace/bin/sshd_packet.c:85-117 | packets in the clear are multiples of eight bytes with at least four bytes of padding, as section 6 of RFC 4253 requires; sealed ones apart from length and tag |
| Packets.Delivers | userspace/bin/sshd_packet.c:85-253 | a packet that is sent is taken back whole if and only if its payload has at most 34991 bytes in the clear, or 1 to 34995 sealed; otherwise the receiver fails |
| Packets.SendableWhen | userspace/bin/sshd_packet.c:198-202 | the sizes enc_send accepts, and those of plain_send that plain_recv accepts |
| Packets.SessionDelivers | userspace/bin/sshd_packet.c:257-287 | over any session with key changes at the same places both ends stay in step and every payload arrives whole and in order, leaving later bytes untouched |
| Packets.FlowSend | userspace/bin/sshd_packet.c:263-281 | while a session goes on, one more event of the sender keeps the bytes on their way equal to what the receiver has still to take |
| Packets.FlowReceive | userspace/bin/sshd_packet.c:270-287 | the next event of the receiver takes exactly the first of those bytes, and its payload is the next one |
| Transport.SendAll | userspace/bin/sshd_packet.c:49-58 | over any short writes the buffer goes out in order; no failure while the link is up |
| Transport.RecvExact | userspace/bin/sshd_packet.c:60-69 | over any short reads exactly len bytes come in, in order, and nothing else in the buffer changes |
| Transport.ChachaXor | kernel/crypto/chacha20.c:83-104 | in place, the key stream of successive 64-byte blocks with a 32-bit counter |
| Transport.CtEqual | userspace/bin/sshd_packet.c:183-187 | true exactly for equal tags |
| Transport.Authenticate | userspace/bin/sshd_packet.c:217 | the Poly1305 tag as sixteen bytes |
| Transport.PlainSend | userspace/bin/sshd_packet.c:85-128 | writes the packet, or refuses a payload above 35000 bytes |
| Transport.PlainRecv | userspace/bin/sshd_packet.c:130-155 | takes exactly one packet off the stream, or fails exactly when the bytes do not hold one |
| Transport.Seal | userspace/bin/sshd_packet.c:213-218 | the buffer becomes the sealed packet |
| Transport.Unseal | userspace/bin/sshd_packet.c:239-252 | the tag decides before anything is deciphered |
| Transport.Connection.constructor | userspace/bin/sshd_packet.c:257-261 | both directions start in the clear at number 0 |
| Transport.Connection.EncSend | userspace/bin/sshd_packet.c:194-221 | writes the sealed packet, or refuses a packet length above 35000 |
| Transport.Connection.EncRecv | userspace/bin/sshd_packet.c:223-253 | takes exactly one sealed packet off the stream, or fails exactly when the bytes do not hold one |
| Transport.Connection.Send | userspace/bin/sshd_packet.c:263-268 | one packet by the current mode; the number advances modulo 2^32 exactly on success |
| Transport.Connection.Recv | userspace/bin/sshd_packet.c:270-275 | one packet by the current mode; the number advances modulo 2^32 exactly on success |
| Transport.Connection.StartSend | userspace/bin/sshd_packet.c:277-281 | new key, sealed from now on, number reset exactly in strict mode |
| Transport.Connection.StartRecv | userspace/bin/sshd_packet.c:283-287 | new key, sealed from now on, number reset exactly in strict mode |
| Transport.SendEvent | userspace/bin/sshd_packet.c:263-281 | the sending code performs one event and writes exactly its bytes |
| Transport.ReceiveEvent | userspace/bin/sshd_packet.c:270-287 | the receiving code takes exactly the bytes of one event and returns its payload |
| Transport.Converse | userspace/bin/sshd_packet.c:257-287 | two connections joined by two links, sending and receiving in any order in both directions and changing keys on the way: every payload arrives whole and in order, both ends agree on keys and numbers, and nothing is left on the links |
| Calendar.FloorDiv | userspace/libc/time.c:14 | the adjusted truncating division is division rounded down |
| Calendar.CastsExactIff | userspace/libc/time.c:11-19 | with its unsigned conversions the day number of any fields is right if and only if the day of the era lies in 0..2^32-1, and is off by a multiple of 2^32 otherwise |
| Calendar.IntFieldsExactIff | userspace/libc/time.c:11-19 | for int fields the only loss is a day before the era |
| Calendar.DayZeroWraps | userspace/libc/time.c:11-19 | 2000-03-00 comes out 2^32 days late |
| Calendar.CastsKeep | userspace/libc/time.c:11-19 | on every valid date no conversion loses anything |
| Calendar.YearFound | userspace/libc/time.c:25-26 | the closed form gives the year of every day of the 400-year era |
| Calendar.MonthFound | userspace/libc/time.c:29-30 | the closed form gives the month of every day of the year |
| Calendar.CivilRoundTrip | userspace/libc/time.c:11-35 | civil_from_days undoes days_from_civil on every valid proleptic Gregorian date, negative years included |
| Calendar.DaysRoundTrip | userspace/libc/time.c:11-35 | days_from_civil undoes civil_from_days on every day number, and the date is valid |
| Calendar.NextDayNext | userspace/libc/time.c:11-19 | the following date has the following number |
| Calendar.CivilIsCount | userspace/libc/time.c:21-35 | civil_from_days is counting days from 1970-01-01 by the rules of the calendar |
| Calendar.YearDay | userspace/libc/time.c:78-79 | the day of the year is the lengths of the months before plus the day |
| Calendar.YearDayRange | userspace/libc/time.c:78-79 | 0 to 364, or to 365 in a leap year |
| Calendar.WeekDay | userspace/libc/time.c:75-76 | the weekday formula is days plus four modulo seven, before the epoch too |
| Calendar.Tm.Fill | userspace/libc/time.c:58-82 | date, time of day, weekday and day of the year of every time; the year as far as a 32-bit int holds it |
| Calendar.Tm.Mktime | userspace/libc/time.c:87-98 | the time of the fields, right if and only if the day of the era is in the range of an unsigned int, and the fields normalised |
| Calendar.Tm.RoundTrip | userspace/libc/time.c:84-98 | mktime of gmtime of t is t |
| Blake3.HashChain | kernel/crypto/blake3.c:111-152 | hashing can pause before any block that is followed by more |
| Blake3.OneShot | tools/gen_index.py:98-145 | the loop computes the hash, for empty input, exact multiples of 64 and any length |
| Blake3.Context.constructor | kernel/crypto/blake3.c:117-122 | an empty context |
| Blake3.Context.Flush | kernel/crypto/blake3.c:129-152 | a full pending block is folded into the chaining value |
| Blake3.Context.Update | kernel/crypto/blake3.c:154-172 | the context has been fed the old input followed by the data |
| Blake3.Context.Final | kernel/crypto/blake3.c:174-204 | the digest of everything fed |
| Blake3.Streamed | kernel/crypto/blake3.c:117-204 | however a message is cut up, the streamed digest is that of the one-shot form |
| Sha256.FoldMore | kernel/crypto/sha256.c:69-79 | one more block is one more compression |
| Sha256.Context.constructor | kernel/crypto/sha256.c:56-67 | an empty context |
| Sha256.Context.Update | kernel/crypto/sha256.c:69-79 | the context has been fed the old input followed by the bytes |
| Sha256.Finish | kernel/crypto/sha256.c:81-106 | the last one or two blocks are the rest of the message padded as in section 5.1.1 of FIPS 180-4 |
| Sha256.Context.Final | kernel/crypto/sha256.c:81-115 | the digest of everything fed |
| Sha256.LengthFits | kernel/crypto/sha256.c:94-103 | below 2^61 bytes the length field does not wrap |
| Sha256.Streamed | kernel/crypto/sha256.c:56-115 | however a message is cut up, the digest is the fold of the compression function over the padded message |
| Checksum.AddWords | kernel/net/net.c:188-195 | the 16-bit words of at most 65535 bytes summed without overflow, an odd byte high |
| Checksum.Fold | kernel/net/net.c:197-198 | the fold ends and keeps the sum modulo 65535, zero only for zero |
| Checksum.InetCksum | kernel/net/net.c:183-201 | the complement of the one's-complement sum |
| Checksum.InetCksumPseudo | kernel/net/net.c:207-236 | the checksum of the 12-byte pseudo-header followed by the data |
| Checksum.VerifiesToZero | kernel/net/net.c:183-201 | storing the checksum big-endian in a zeroed aligned field makes the recomputed checksum 0, as section 1 of RFC 1071 uses it |

## Left out

- X25519.AgreesWithRfc: takes Fermat's little theorem for 4u as a hypothesis, because the primality of 2^255-19 is not proved here; the curve's group law is not modelled either.
- Kmalloc.Heap.constructor: asks for a heap that starts and ends on multiples of 16 and holds more than a header, as the one caller provides; other sizes are not modelled.
- Kmalloc.Heap.Kfree: pointers into the middle of a payload are not modelled, because what lies there belongs to the client.
- Vmm.Machine.MapInto: asks that no huge page lies on the path, because alloc_table does not split one.
- Fork.CloneAddressSpace: asks for a private low half that is a tree with pages held once, so shared-memory regions are not modelled.
- Sha256.Context.Final: the length field is taken modulo 2^64, which is the standard's field only below 2^61 bytes.
- Calendar.Tm.Mktime: the width of long is not modelled, so sums that overflow it are not; months outside 0..11 follow the formula of the code, which gives them no calendar meaning.
- Calendar.Tm.RoundTrip: asks for a time whose year fits a 32-bit int.
- Kernel.Cpu.ReapChild: the release of the child's address space is `Fork.FreeAddressSpace`, not part of this method.
- Mkexfs.Maker.Make: reads no files; the list of names and contents is its argument, and a run with more files than inodes is cut short where the tool would go on to its own failure.
- Blocking.Enabled: sys_execv, sys_set_intent and futexes are not steps, because the first two set states or queues outside the queue discipline and a futex can only be woken by its own pid.
- Runs.RunKeeps: process identifiers do not wrap at 2^32, and the count of a semaphore, an int in the code, does not overflow.
- Transport.Connection.EncSend: a failure of getrandom is not modelled; the padding bytes are an argument.
- Transport.Converse: the two sides are given their keys at the same places; key exchange, KEXINIT parsing and the session layers above the packets are not modelled.
- Interrupt masking, context switching, CR3, FPU state, time slices and the network poll of the tick.
- Capability tables, audit log and file descriptors of a process.
- kernel/crypto/ed25519.c, and the bit-level cores of ChaCha20, BLAKE3 and SHA-256.
- The byte layout of ExFS structures, the in-kernel ExFS driver, its journal and provenance log; the embedded test scripts, which are empty in the tool.
- Decoding of names: two names are compared as bytes, not as the text that replaces malformed UTF-8.
- Network buffers, interfaces and protocols above the checksum; strftime, clock and the RTC.
- Drivers, graphics, shells, and all other user programs.
