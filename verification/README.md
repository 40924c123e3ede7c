# Verified model of the teaching kernel and its companions

This project models, in Dafny, the algorithms of a JOS-style kernel (`sched/`), a
process-chain prime sieve (`lab/primes.c`) and the inode table of a small file system
(`fisopfs/fs.c`), and proves what they are for.

The parts that are one thread of code have two forms.  The *specification* is a set of functions on values: physical
memory is a `Phys` (reference counts, frames as words, the free list, the directory of each
environment), and `page_insert` is a function from one `Phys` to the next.  The *code* is a
class whose methods run the loops of the C function on arrays and fields, each proved to
compute its specification function.  The properties are lemmas about the functions.  What
several processors, environments or processes do together is a step relation, and its
lemmas hold for every sequence of steps.

| file | what it holds |
|---|---|
| `Paging.dfy`, `PagingLaws.dfy`, `PageOps.dfy`, `RefCounts.dfy`, `FlatMap.dfy` | frames, two-level tables in the 32-bit layout, reference counts; insert, remove and lookup as operations on a flat map |
| `AddressSpace.dfy`, `Window.dfy` | setting up and freeing an address space; what programs read through `uvpt` and `uvpd` |
| `PageCalls.dfy`, `MemoryRuns.dfy`, `IpcPage.dfy` | the memory system calls, whole runs of them, sending a page by IPC |
| `Kernel.dfy` | the memory code in place: descriptors threaded into a free list, tables in arrays |
| `UserCalls.dfy`, `Cow.dfy`, `Eager.dfy`, `Supply.dfy`, `ForkSupply.dfy`, `Forks.dfy`, `UserFork.dfy` | copy-on-write `fork`, eager `fork_v0`, what they need to succeed, runs of programs that fork and write, the library code in place |
| `Smp.dfy` | processors, the big kernel lock, environment states |
| `Sched.dfy`, `Turns.dfy` | round robin and priorities with boost; the same in a closed loop |
| `EnvIds.dfy` | environment slots, identifiers and their generations |
| `Upcall.dfy` | page-fault upcalls on byte-addressed memory |
| `Ipc.dfy` | rendezvous messages |
| `Stabs.dfy`, `Format.dfy` | the debug-table search; number printing and parsing |
| `Sieve.dfy` | the process-chain sieve |
| `Inodes.dfy` | the inode table |

The numbers of environments, processors, frames and pipe slots are symbolic, except where
the C arithmetic depends on a constant (`NENV` in identifiers, `BOOST_CYCLES`, `MAX_INODES`).

The references to a frame are the entries of the user half of each directory and table and
the directory pointers of the environments (`Paging.Refs`).  The invariant `Paging.InvHeld`
says that every count is the number of references (plus those the kernel code in progress
holds), that the free list holds once each exactly the frames with count 0 that are neither
reserved nor in flight, that a frame used as a directory or table has one reference, and
that every directory has the entries of `kern_pgdir` above UTOP and maps itself at UVPT.

## What turned out to be false, and when it holds

- A reference count is 16 bits wide, and the permission word of `sys_page_map` is stored
  unchecked, so its bits above the low twelve can change the frame an entry names.
  `RefCounts.InsertExactIff`: after a successful `page_insert` the counts are exact if and
  only if those bits were set in the frame's address already, and the frame had fewer than
  65535 references or was already mapped there.  `MemoryRuns.ApplyKeepsIff` says it of each
  system call; `RefCounts.InsertOverflows` and `MemoryRuns.BitTwelveBreaksCounts` are inputs.
- `env_page_alloc` keeps its frame when `page_insert` fails.  The frame goes to the set
  `lost`, which every invariant carries; it happens if and only if the permissions are
  proper, one frame is left and the page needs a table (`PageCalls.FrameLostIff`).
- `page_free` takes an unlinked frame for one that is not free, but the last frame of the
  list is unlinked too: freeing that again makes the list a cycle, freeing any other free
  frame panics (`Kernel.Memory.PageFree`).
- Sending a page to an environment's own source address maps the placeholder instead
  (`IpcPage.SendPageOntoItself`); in all other cases a send of a mapped page that keeps the
  counts exact is one insertion (`IpcPage.SendPageIsInsert`), and it keeps them exact if and
  only if that insertion would (`IpcPage.SendPageExactIff`).
- A send is to change nothing when it fails.  Where the source page is not mapped the
  placeholder goes in before the error is found; a failed send changes nothing if and only
  if the placeholder did not go in (`IpcPage.SendPageSucceedsIff`).
- The guard at the top of `pgfault` combines `&` with `!` and never fires
  (`Cow.GuardNeverFires`).  The handler does what its panic message says if and only if the
  fault is no write or the page is copy-on-write (`Cow.GuardHoldsIff`); a store to a
  read-only page gets a writable copy (`Forks.ReadOnlyBecomesWritable`).
- A writable I/O page stays shared under `fork_v0`: parent and child are independent
  afterwards if and only if the parent has none (`Eager.ForkV0IndependentIff`).  Under
  `fork` they always are (`Forks.CowRunIsIndependent`).
- `env_destroy` of a dying environment, `sys_env_set_status` of one that runs elsewhere or
  to wake one that waits for a message, and `sys_ipc_recv` at a bad address break the
  inductive invariant of the processors, and no other step does
  (`Smp.StepKeepsExactlySafe`).  With a second processor in user mode each of them leads by
  permitted steps to a free lock and a current environment that is not RUNNING
  (`Smp.UnsafeLosesOwnership`, `Smp.OwnedIffSafe`); with one processor none does
  (`Smp.OneProcessorIsOwned`).  A system call that names a bad address destroys an
  environment and counts as `env_destroy`: with `sys_env_set_pgfault_upcall` that can be a
  child.
- A receive at a bad address is also what breaks the invariant of messages, and nothing else
  (`Ipc.StepKeepsIffSafe`): after it a message is lost (`Ipc.BadReceiveLosesMessage`,
  `Ipc.InOrderIffSafe`).
- The boost of the priority scheduler is to prevent starvation.  It does if and only if at
  most BOOST_CYCLES environments are live (`Sched.PriorityFairIff`); NENV is 1024.
- `stab_binsearch` looks for the next address once it has matched the one it was given.  On
  increasing entries it is wrong if and only if it then meets an entry there
  (`Stabs.StabBinsearch`, `Stabs.MisledByTwo`).
- After a send whose page was not wanted `env_ipc_perm` is stale (`Ipc.PermIsExactIff`).
- A fault with the stack pointer at `UXSTACKTOP` loses its return address, which lands in
  the frame; every other fault that is served to its end resumes where it was
  (`Upcall.ResumesIff`).
- An environment whose exception stack overflows is to be destroyed; the kernel panics
  (`Upcall.OverflowPanics`).
- `%d` padded with blanks is not read back when negative (`Format.SignedRoundTripIff`), and
  the `-` flag pads with dashes on the left (`Format.DashPaddingIff`).
- `strtol` reads back what was printed if and only if a `long` holds it
  (`Format.PrintThenParse`); `%p` with blanks is not read back
  (`Format.AddressRoundTripIff`).
- `rmdir` is to remove exactly the empty directories.  It compares the last component of the
  path with the parents that the entries record, which are whole paths, and `unlink` leaves
  the parent of a removed file in its slot.  So a directory inside another is removed with
  its files (`Inodes.NestedRmdir`), and an emptied one is refused (`Inodes.RmdirOfEmptied`);
  `Inodes.RmdirIff` is the exact condition.
- `sched.md` says that the lowest number wins; the code picks the highest, and the model
  follows the code (`Sched.Highest`).
- The comment of `sys_ipc_recv` counts address 0 as a place to receive a page; the code of
  `sys_ipc_try_send` treats it as none, and the model follows the code.

## Model

| member | source | states |
|---|---|---|
| Paging.Refs | sched/kern/pmap.c:383-505 | the pointers to a frame are exactly the directory pointers, user-half directory entries and table entries that hold it |
| PagingLaws.AllocKeeps | sched/kern/pmap.c:346-360 | `page_alloc` takes the frame off the list into the in-flight set and keeps every count and mapping; the frame was referenced nowhere |
| PagingLaws.DecKeeps | sched/kern/pmap.c:366-388 | `page_decref` gives back one held reference, returns the frame to the list exactly when it was the last one, and keeps the invariant |
| PagingLaws.IncKeeps | sched/kern/pmap.c:490-505 | counting a reference before storing it keeps the invariant, with the reference held by the kernel, below 65535 |
| PageOps.WalkLaw | sched/kern/pmap.c:412-429 | a creating walk changes no mapping and keeps the invariant; it fails only when a table is missing and no frame is free |
| PageOps.RemoveLaw | sched/kern/pmap.c:549-568 | `page_remove` deletes one mapping, drops exactly that reference, changes no data frame, and keeps counts and free list exact |
| Paging.EntryWordIsOr | sched/kern/pmap.c:501 | the word stored is the bitwise or of the frame address, any 32-bit `perm` and PTE_P |
| RefCounts.InsertLaw | sched/kern/pmap.c:489-505 | `page_insert`, for every 32-bit `perm` and every count, binds one page number to the word it stores and keeps all other mappings and data frames; it fails, changing nothing, only for want of a table frame; it keeps all counts exact where the word names the frame and the counter has room |
| FlatMap.InsertIsUpdate | sched/kern/pmap.c:489-505 | insertion is a map update of one address space at one key; every other address space is equal |
| FlatMap.RemoveIsDelete | sched/kern/pmap.c:549-568 | removal is a map delete; where nothing is mapped the whole state is unchanged |
| FlatMap.FlatAt | sched/kern/pmap.c:518-532 | looking an address up is reading the flat map |
| FlatMap.ReinsertIsPermChange | sched/kern/pmap.c:467-505 | re-inserting the frame at its own address changes its permissions and no count, no list and no other mapping |
| RefCounts.InsertExactIff | sched/kern/pmap.c:489-505 | after a success counts are exact if and only if the high bits of `perm` were set in the frame's address already, and the 16-bit counter had room or the frame was already mapped there |
| RefCounts.InsertOverflows | sched/inc/memlayout.h:178-188 | one reference more than 65535: 65536 pointers to a frame whose counter has wrapped to 0 |
| RefCounts.InsertWrongFrame | sched/kern/pmap.c:501 | with bit 12 in `perm` and an even frame the next frame is mapped, uncounted, whatever the counters hold |
| AddressSpace.SetupLaw | sched/kern/env.c:163-197 | `env_setup_vm` adds an address space that is empty below UTOP, has the kernel's entries above it and maps itself at UVPT, with exact counts, or changes nothing when no frame is free |
| Window.UvptReads | sched/kern/env.c:189-195 | the two-level walk of `uvpt[v]` through the tables in memory reads exactly the entry of page `v` where its table is there and faults where it is not; readable and not writable by the program |
| Window.UvpdReads | sched/inc/memlayout.h:151-165 | the same walk of `uvpd[i]` reads word i of the environment's own directory: its entries below UTOP, the window itself, the kernel's entries elsewhere |
| Window.KernelHalfIsShared | sched/kern/env.c:169-190 | any walk above UTOP, the window apart, reads what it reads under `kern_pgdir` |
| AddressSpace.EnvFreeLaw | sched/kern/env.c:411-452 | `env_free`'s nested loops drop every reference of the environment and no other, and keep the invariant |
| AddressSpace.EnvFreeReclaims | sched/kern/env.c:411-452 | every frame only that environment referenced is back on the free list, each shared count falls by exactly its references there, and every other address space is unchanged |
| PageCalls.PageAllocLaw | sched/kern/syscall.c:46-58 | `env_page_alloc` maps a zeroed frame or changes no mapping and no count; on a failed insertion exactly the frame it took is lost |
| PageCalls.FrameLostIff | sched/kern/syscall.c:46-58 | a frame is lost if and only if the permissions are proper, one frame is left and the page needs a table |
| PageCalls.PageMapLaw | sched/kern/syscall.c:61-73 | `env_page_map`, for every 32-bit `perm` and every count, stores one word at the destination or changes nothing, with the exact condition of each error; counts stay exact where the word names the source's frame and the counter has room |
| PageCalls.PageMapExactIff | sched/kern/syscall.c:61-73 | after a success counts are exact if and only if that holds |
| MemoryRuns.CountsExactInEveryRun | sched/kern/pmap.c:346-568 | in every state of every run of the memory system calls, page sends, stores, environment creations and exits, each step of which fits, each count is the number of references and the free list is exact |
| MemoryRuns.WindowInEveryRun | sched/kern/env.c:169-195 | in every state of every such run `kern_pgdir` is as it was, every environment has its entries above UTOP, and `uvpt` reads the environment's own tables and nothing else |
| MemoryRuns.ApplyKeepsIff | sched/kern/syscall.c:227-320 | each step keeps counts and free list exact if and only if it fits: it is not a `sys_page_map` that stores a word with another frame's number or overflows the counter, nor a page send that overflows it |
| MemoryRuns.BitTwelveBreaksCounts | sched/kern/syscall.c:265-295 | one such call: permission 0x1007 on an even frame leaves counts that no set of lost frames explains |
| IpcPage.SendPageIsInsert | sched/kern/syscall.c:378-395 | placeholder and mapping together have the net effect of one `page_insert` of the sender's frame, contents of all mapped pages included, up to the order of the free list and the frame used for a new table; the placeholder is free again |
| IpcPage.SendPageSucceedsIff | sched/kern/syscall.c:378-395 | the send succeeds exactly when the placeholder goes in and the source is mapped; the second step never runs out of memory; an error leaves every mapping and count as it was if and only if the placeholder did not go in |
| IpcPage.SendPageExactIff | sched/kern/syscall.c:378-395 | counts are exact afterwards if and only if the send fails, its source was not mapped, or a single insertion would keep them exact |
| IpcPage.SendPageOntoItself | sched/kern/syscall.c:387-395 | sent by an environment to its own source address, the placeholder is what ends up mapped |
| Kernel.Memory.PageInit | sched/kern/pmap.c:291-332 | the list loop establishes the invariant, with exactly the frames not in use free |
| Kernel.Memory.PageAlloc | sched/kern/pmap.c:346-360 | pops the threaded list and computes the allocation function |
| Kernel.Memory.PageFree | sched/kern/pmap.c:366-377 | panics exactly when the count is not 0 or the frame is on the list and not its last; else pushes onto the threaded list, which freeing the list's last frame turns into a cycle |
| Kernel.Memory.PageDecref | sched/kern/pmap.c:383-388 | computes the 16-bit decrement and the freeing it triggers |
| Kernel.Memory.PgdirWalk | sched/kern/pmap.c:412-429 | answers where the entry is stored; creating, it computes the walk function, otherwise it changes nothing |
| Kernel.Memory.PageLookup | sched/kern/pmap.c:518-532 | answers the frame of the flat map and where the entry is, or none, with the pointer as it was |
| Kernel.Memory.PageRemove | sched/kern/pmap.c:549-568 | the in-place code computes the removal function |
| Kernel.Memory.PageInsert | sched/kern/pmap.c:489-505 | the in-place code computes the insertion function, counting before removing, for every 32-bit `perm` and every count |
| Kernel.Memory.EnvSetupVm | sched/kern/env.c:163-197 | the in-place copy of `kern_pgdir` and the UVPT entry compute the set-up function |
| Kernel.Memory.FreeEnvTable | sched/kern/env.c:429-447 | the inner loop computes the freeing of one table |
| Kernel.Memory.EnvFree | sched/kern/env.c:411-452 | the nested loops compute the freeing of the address space |
| Kernel.Memory.EnvPageAlloc | sched/kern/syscall.c:46-58 | the in-place code computes the call's outcome, lost frame included |
| Kernel.Memory.EnvPageMap | sched/kern/syscall.c:61-73 | the in-place code computes the call's outcome |
| Kernel.Memory.UserMemCheck | sched/kern/pmap.c:643-664 | 0 exactly when the rounded end is at most UTOP and every page visited has the permissions asked for, empty and wrapping ranges included; for a non-empty range that does not wrap this is every byte of it, and the recorded address is the least byte that fails |
| UserCalls.AllocEffect | sched/kern/syscall.c:227-247 | `sys_page_alloc` shows a zeroed page from a frame nobody else shows, and nothing else changes in any environment |
| Supply.AllocSucceedsIff | sched/kern/syscall.c:46-58 | a zeroed page can be had if and only if the permissions are proper and the free list has a frame for the page and one for its table if that is missing |
| Supply.MapSucceedsIff | sched/kern/syscall.c:61-73 | a page is mapped if and only if it is there, may be granted, has fewer than 65535 references or is mapped there already, and its table is there or can be had |
| Supply.NewEnvSucceedsIff | sched/kern/env.c:163-197 | an address space is created if and only if the slot is free and a frame is left |
| UserCalls.MapEffect | sched/kern/syscall.c:265-295 | `sys_page_map`, where it keeps counts exact, shows the source's frame at the destination with the new permissions, never granting write access anew |
| UserCalls.UnmapEffect | sched/kern/syscall.c:304-320 | `sys_page_unmap` removes one page from one environment |
| UserCalls.FillEffect | sched/lib/fork.c:41-42 | a store shows at every place that maps the frame and nowhere else |
| UserCalls.NewEnvEffect | sched/kern/syscall.c:137-157 | a new environment shows nothing and changes nothing |
| UserCalls.EndEnvEffect | sched/kern/env.c:411-458 | ending an environment takes away its pages and changes no other |
| Cow.GuardHoldsIff | sched/lib/fork.c:22-29 | the guard as written lets every fault through; the handler does what its panic message says if and only if the fault is no write or the page is copy-on-write, and what its comment says if and only if both hold |
| Cow.PgFaultEffect | sched/lib/fork.c:14-48 | after `pgfault`, for every error code, the page shows the same contents from a frame of its own, writable, and nothing is left at PFTEMP |
| Cow.WriteEffect | sched/lib/fork.c:14-48 | a store, through the handler if need be, changes one word of one page of one environment |
| Cow.DupPageEffect | sched/lib/fork.c:61-96 | when `duppage` succeeds (`ForkSupply.DupPageSucceedsIff`) it shows the page on both sides with the same right to write it, and keeps every frame mapped twice writable nowhere |
| ForkSupply.DupPageSucceedsIff | sched/lib/fork.c:61-96 | `duppage` succeeds if and only if the page is mapped for users, its frame has room in the counter, and the child's table is there or a frame for it: a copy-on-write page like any other |
| ForkSupply.PrivateCopySucceedsIff | sched/lib/fork.c:30-48 | the handler serves a fault if and only if the free list has a frame, and one more for the table of PFTEMP if that is missing |
| Cow.PresentIsPage | sched/lib/fork.c:229-235 | the tests through `uvpd` and `uvpt` pick exactly the mapped pages |
| Cow.DupAllLaw | sched/lib/fork.c:220-237 | after the loop the child sees what the parent sees, and nobody else sees a change |
| Cow.ForkLaw | sched/lib/fork.c:205-251 | when `fork` succeeds (`ForkSupply.ForkSucceedsIff`) it leaves two address spaces that look like independent copies, each with a zeroed or untouched exception stack of its own |
| ForkSupply.DupAllSucceedsIff | sched/lib/fork.c:220-237 | the loop goes through if and only if the free list has a frame for each table the child lacks and every counter has room for all the pages that map its frame |
| ForkSupply.ForkSucceedsIff | sched/lib/fork.c:205-251 | `fork` succeeds if and only if the parent's exception stack can be had where it needs one, the slot is free, the free list then covers the directory, one table per region of 4 MB in use and the child's exception stack, and every counter has room |
| ForkSupply.ForkSucceedsFromHere | sched/lib/fork.c:205-251 | the same in terms of the state `fork` is called in |
| Eager.DupOrShareEffect | sched/lib/fork.c:110-143 | `dup_or_share` gives the child its own frame for a writable page that is not I/O and shares the frame of the others, with the same contents and right to write |
| ForkSupply.DupOrShareSucceedsIff | sched/lib/fork.c:110-143 | a shared page takes what `duppage` takes; a copied one a frame, its table, and the table of UTEMP |
| Eager.ShareAllLaw | sched/lib/fork.c:170-179 | the same law as for the copy-on-write loop, for the eager loop |
| Eager.ForkV0Law | sched/lib/fork.c:157-186 | right after `fork_v0` the child sees what the parent sees, and nobody else sees a change |
| ForkSupply.ForkV0SucceedsIff | sched/lib/fork.c:157-186 | `fork_v0` succeeds if and only if the slot is free, the free list covers a directory, the child's tables, a frame for each page to copy and the table of UTEMP if any is copied, and every counter has room for the pages shared |
| Eager.ForkV0IndependentIff | sched/lib/fork.c:110-186 | a successful `fork_v0` leaves parent and child independent, no store of one appearing in the other, if and only if the parent has no writable I/O page |
| Eager.ParentStoreAppears | sched/lib/fork.c:125-130 | what the parent stores to such a page appears in the child |
| Forks.CowStepLaw | sched/lib/fork.c:205-251 | each fork, store, allocation, unmapping and exit under copy-on-write does to what programs see what it would do to independent copies |
| Forks.CowGoesOnIff | sched/lib/fork.c:14-251 | each step under copy-on-write succeeds if and only if the state has the frames, tables, counters and the slot it needs |
| Forks.EagerGoesOnIff | sched/lib/fork.c:110-186 | the same for the eager form |
| Forks.CowRunGoesOnIff | sched/lib/fork.c:14-251 | so a run goes on by one more step exactly when that step has what it needs in the state reached |
| Forks.CowRefinesCopies | sched/lib/fork.c:14-251 | after any run every read gives what independent copies would give |
| Forks.EagerRefinesCopies | sched/lib/fork.c:110-186 | the same for the eager form, with no writable I/O page at the start |
| Forks.CowRefinesEager | sched/lib/fork.c:14-251 | from states that look alike the same run leaves copy-on-write and eager programs seeing the same pages with the same rights |
| Forks.BootIsFair | sched/kern/env.c:115-128 | with no environment yet both forms start from the same view, so runs may begin at boot |
| Forks.ReadOnlyBecomesWritable | sched/lib/fork.c:27-29 | whatever the error code, the fault of a page that is read-only for good makes it writable |
| Forks.CowRunIsIndependent | sched/lib/fork.c:14-251 | after any run of copy-on-write forks no environment sees another's stores, I/O pages included |
| UserFork.Library.PgFault | sched/lib/fork.c:14-48 | the guard, the three system calls and the copy compute the handler's function, or stop where it fails |
| UserFork.Library.DupPage | sched/lib/fork.c:61-96 | the library code computes `duppage`, its entry read through the window, its panic exactly where the page is not for users |
| UserFork.Library.Load | sched/inc/memlayout.h:151-165 | a load by the program is the two-level walk, refused where the page is not for users |
| UserFork.Library.Uvpt | sched/lib/fork.c:68 | `uvpt[v]`, read through that walk, is the entry of page v |
| UserFork.Library.Uvpd | sched/lib/fork.c:229 | `uvpd[i]`, read through that walk, is the directory entry |
| UserFork.Library.DupAllPages | sched/lib/fork.c:220-237 | the loop computes the function on all pages |
| UserFork.Library.Fork | sched/lib/fork.c:205-251 | the library code computes `fork` |
| UserFork.Library.DupOrShare | sched/lib/fork.c:110-143 | the library code computes `dup_or_share` |
| UserFork.Library.ForkV0 | sched/lib/fork.c:157-186 | the loop computes `fork_v0` |
| Smp.StepKeepsExactlySafe | sched/kern/trap.c:244-301 | one step of one processor keeps the inductive invariant of lock and environments if and only if it is not one of the excluded calls |
| Smp.LockFreeMeansOwned | sched/kern/spinlock.c:60-124 | in every run from boot at most one processor is between lock and unlock, none panics over the lock or curenv, and when the lock is free the RUNNING and DYING environments are exactly the curenvs, none shared |
| Smp.MonitorMeansIdle | sched/kern/sched.c:172-192 | the monitor is entered for good only when no other processor has an environment |
| Smp.Progress | sched/kern/spinlock.c:60-124 | in every run from boot every processor outside the monitor has a step to make that keeps the invariant, and one in the kernel gives the lock back or stops in the monitor within seven steps of its own |
| Smp.LockStep | sched/kern/spinlock.c:60-124 | each step keeps mutual exclusion and the recorded owner |
| Smp.EnvStep | sched/kern/env.c:465-535 | each safe step keeps every busy environment with exactly one processor, and receivers blocked; which status each becomes is `Smp.StatusChangesIff` |
| Smp.StatusChangesIff | sched/kern/env.c:465-522 | every change of status there is: FREE exactly when the environment ends, DYING exactly when it is destroyed while it runs elsewhere, NOT_RUNNABLE, RUNNABLE and RUNNING each in exactly the cases of the code |
| Smp.DestroyEnds | sched/kern/env.c:465-484 | a permitted destroy leaves the environment FREE, or DYING where it runs on another processor; the caller's own end leaves its processor with none |
| Smp.DyingUntilFree | sched/kern/trap.c:262-301 | in every run an environment once DYING is neither dispatched nor chosen, and stays so until it is FREE |
| Smp.DyingEndsSoon | sched/kern/trap.c:262-301 | the processor that has it comes nearer to its end with each step of its own, waiting for the lock apart, and the sixth at the latest makes the slot FREE |
| Smp.ExoforkMakesChild | sched/kern/syscall.c:137-157 | `sys_exofork` makes a stopped child that only environments with the caller's identifier, and itself, may act on, and changes no other environment |
| Smp.RunKnowsCpu | sched/kern/env.c:530 | in every run an environment in user mode has the number of its processor |
| Smp.UnsafeCall | sched/kern/env.c:465-484 | each excluded call breaks the invariant at once |
| Smp.UnsafeLosesOwnership | sched/kern/syscall.c:110-185 | with another processor in user mode, each excluded call leads by permitted steps to a free lock and an environment in some curenv that is neither RUNNING nor DYING |
| Smp.OwnedIffSafe | sched/kern/trap.c:244-301 | so a step is safe if and only if ownership is exact, whenever the lock is free, in all that safe steps can lead to |
| Smp.OneProcessorIsOwned | sched/kern/trap.c:244-301 | with one processor ownership is exact whenever the lock is free, whatever is called |
| Sched.RrFair | sched/kern/sched.c:70-95 | round robin reaches an environment RUNNABLE at each decision after no more others than there are slots between |
| Sched.RrFairWithinNenv | sched/kern/sched.c:70-95 | hence within NENV decisions |
| Sched.PriorityFair | sched/kern/sched.c:97-140 | with at most BOOST_CYCLES live environments one that stays RUNNABLE and is not lowered is chosen within 2 * BOOST_CYCLES - 1 calls, whatever happens in between |
| Sched.PriorityBoundIsTight | sched/kern/sched.c:97-140 | a run of one call less in which it never is |
| Sched.PriorityFairIff | sched/kern/sched.c:97-140 | free of starvation if and only if at most BOOST_CYCLES environments are live; beyond that no number of calls is enough |
| Sched.CrowdStarves | sched/kern/sched.c:97-140 | the run, of any length, in which one of BOOST_CYCLES + 1 RUNNABLE environments is never chosen |
| Sched.TopsDrop | sched/kern/sched.c:118-132 | after a boost each choice of another environment leaves fewer others at DEFAULT_PRIORITY |
| Sched.PicksAreAllowed | sched/kern/sched.c:70-140 | both schedulers choose only what the processors' model may be given |
| Sched.Highest | sched/kern/sched.c:118-125 | the first of the RUNNABLE environments with the highest number |
| Sched.Processor.SchedRr | sched/kern/sched.c:70-95 | the loop runs the first RUNNABLE slot after the current one, else goes on, else halts: the round-robin turn function |
| Sched.Processor.PrioritySched | sched/kern/sched.c:97-140 | boost, choice, lowering and switch in the order of the code: the priority turn function |
| Sched.Processor.BoostAll | sched/kern/sched.c:106-114 | raises exactly the RUNNABLE environments below the default |
| Sched.Processor.SchedHalt | sched/kern/sched.c:172-204 | the monitor exactly when nothing is RUNNABLE, RUNNING or DYING; otherwise no environment is left on the processor |
| Sched.Processor.EnvRun | sched/kern/env.c:501-524 | the old environment goes back to RUNNABLE if it was RUNNING, the new one runs: the switch of `Turns.SwitchIsEnvRun` |
| Turns.SwitchIsEnvRun | sched/kern/env.c:501-522 | the switch gives the statuses of the processors' model, touches no environment but the old and the new one, no priority and no counter |
| Turns.TurnIsStep | sched/kern/sched.c:70-192 | a call of either scheduler is a step the processors' model permits, with the same statuses, the same current environment and the monitor in the same cases |
| Turns.RrRound | sched/kern/sched.c:70-95 | in a closed loop, each call finding what the one before left, n calls of round robin run each of the n environments exactly once and leave the whole table and the current environment as they were |
| Turns.PrioTurnsFair | sched/kern/sched.c:97-140 | in a closed loop of the priority scheduler with at most BOOST_CYCLES live environments, one that waits after any number of calls is run by one of the next 2 * BOOST_CYCLES - 1 |
| Turns.PrioTurnEffect | sched/kern/sched.c:106-132 | what a call does to priorities: the chosen one goes one down and never below 1, the boost lifts exactly the RUNNABLE ones, no other changes |
| Turns.StatisticsAgree | sched/kern/sched.c:106-112 | a call adds to the environments' own boost counters what it adds to the total |
| EnvIds.IdClosedForm | sched/kern/env.c:221-225 | the k-th allocation of a slot gives generation 4096 * (((k - 1) mod (2^19 - 1)) + 1), a positive identifier that names its slot |
| EnvIds.SameIdIff | sched/kern/env.c:221-225 | an identifier recurs exactly after a whole number of rounds |
| EnvIds.StepKeepsInv | sched/kern/env.c:207-271 | allocating and freeing keep identifiers at their closed form, parents at the identifiers of the creators, and the list exactly the free slots |
| EnvIds.LiveIdsDistinct | sched/kern/env.c:207-271 | in every run live identifiers are positive, name their slots and differ |
| EnvIds.LookupIff | sched/kern/env.c:73-107 | for every identifier `envid2env` finds what it names and nothing else: the caller for 0 and for its own identifier, else the environment in use that has it, with `checkperm` only the caller or a child; and -E_BAD_ENV exactly when it names nothing |
| EnvIds.ChildrenIff | sched/kern/env.c:96-102 | in every state of every run whom an environment may act on is itself and those it created itself; what an earlier tenant of its slot created only a whole number of rounds later |
| EnvIds.ReusedAtOnce | sched/kern/env.c:207-271 | the slot freed last is taken first; the old identifier then finds nobody and the new one finds the new tenant, with its own parent |
| EnvIds.ProcessorsAgree | sched/kern/syscall.c:137-185 | the processors' model takes from here whom a caller may touch, what an exofork writes and what a destruction leaves |
| EnvIds.StaleIds | sched/kern/env.c:73-107 | `envid2env` finds an old identifier exactly when the slot is in use a whole number of rounds later, and rejects it for the 2^19 - 2 reuses before that; with `checkperm`, exactly when it is the caller or its child besides |
| EnvIds.EnvTable.EnvInit | sched/kern/env.c:115-128 | all slots free, in order, with identifier 0 |
| EnvIds.EnvTable.EnvAlloc | sched/kern/env.c:207-271 | takes the first slot of the list, or reports that there is none or that its address space cannot be set up, changing nothing |
| EnvIds.EnvTable.Envid2Env | sched/kern/env.c:73-107 | the code computes the lookup, storing NULL with every error |
| EnvIds.EnvTable.SysExofork | sched/kern/syscall.c:137-157 | answers the identifier of a stopped child of the caller, or an error that changes nothing |
| EnvIds.EnvTable.NextId | sched/kern/env.c:222-225 | the 32-bit mask and or, on the identifier that the k-th allocation of the slot gave, give the closed form of the next one |
| EnvIds.EnvTable.EnvRelease | sched/kern/env.c:454-457 | the slot becomes free and first on the list |
| Upcall.PushSaves | sched/kern/trap.c:346-378 | the pushed frame holds fault address, error code and the interrupted registers, eip, eflags and esp, has a zeroed word above it when nested, lies within the stack, and no other byte of memory changes |
| Upcall.UnwindRestores | sched/lib/pfentry.S:67-91 | the epilogue restores them all when the word below the trap-time stack pointer is clear of the frame |
| Upcall.FaultIsInvisible | sched/lib/pfentry.S:34-91 | at any depth of nested faults, in handlers and at the store of the epilogue, the interrupted code goes on unchanged, with its part of the exception stack |
| Upcall.HandlerKeepsFrame | sched/kern/trap.c:346-378 | a handler whose own faults are served keeps every frame above it |
| Upcall.RetryKeeps | sched/lib/pfentry.S:70 | the store of the epilogue, tried until its word is writable, finds the registers and the frame as they were |
| Upcall.ResumesIff | sched/kern/trap.c:363-370 | over all stack pointers: a fault can be served if and only if the word below lies under UTOP and the frame fits; what is served resumes if and only if the stack pointer is not UXSTACKTOP |
| Upcall.OverflowPanics | sched/kern/trap.c:335-373 | the kernel panics, where destroying the environment is promised, exactly for stack pointers in the lowest 56 bytes of a writable exception stack |
| Upcall.Processor.PageFaultHandler | sched/kern/trap.c:346-386 | the C code computes the push, or destroys the environment, or panics on overflow |
| Upcall.Processor.ToStore | sched/lib/pfentry.S:67-69 | the instructions before the store compute eip and the word below the trap-time stack pointer |
| Upcall.Processor.FromStore | sched/lib/pfentry.S:70-91 | the store faults exactly where its word is not writable, changing nothing; otherwise the rest computes the unwinding |
| Ipc.ExactlyOnce | sched/lib/ipc.c:22-60 | in every interleaving the i-th receive returns value, sender and permissions of the i-th successful send, whose page the kernel maps at the address that receive asked for, and at most one send is ahead |
| Ipc.UnreadIsKept | sched/kern/syscall.c:361-404 | until it is read nothing overwrites a delivered message and no other send succeeds |
| Ipc.StepKeepsIffSafe | sched/kern/syscall.c:417-430 | the invariant behind exactly-once survives a step if and only if it is not a receive at a bad address |
| Ipc.BadReceiveLosesMessage | sched/kern/syscall.c:417-430 | from every state, after a receive at a bad address two sends of another environment succeed and only the second is ever read |
| Ipc.InOrderIffSafe | sched/kern/syscall.c:417-430 | with another environment free to send, a step is safe if and only if messages stay in order in all that safe steps can lead to |
| Ipc.PermIsExactIff | sched/kern/syscall.c:371-395 | when `env_ipc_perm` is what is documented |
| Ipc.TrySendIff | sched/kern/syscall.c:322-404 | a send succeeds exactly when the receiver waits and what is offered can be handed over; then the mailbox holds the message and the permissions with PTE_U and PTE_P, and any error changes nothing |
| Ipc.Boxes.SysIpcTrySend | sched/kern/syscall.c:360-404 | the field updates compute the send function, errors included, given the outcome of the page's part |
| Ipc.Boxes.SysIpcRecv | sched/kern/syscall.c:417-430 | the flag is set before the address is checked |
| Stabs.StabBinsearch | sched/kern/kdebug.c:59-106 | terminates on every table and address; on increasing entries it answers the bracket of the address if and only if it is not misled: no entry at the address is met before another one at the next address |
| Stabs.NotMisled | sched/kern/kdebug.c:82-93 | it is not misled where no entry holds the next address |
| Stabs.MisledByTwo | sched/kern/kdebug.c:82-93 | entries at A and A + 1 mislead the search for A; one more entry behind them and they do not |
| Stabs.BracketIsTight | sched/kern/kdebug.c:39-57 | the bracket is unique and no other entry lies inside it |
| Format.PrintThenParse | sched/lib/printfmt.c:36-55 | `strtol` reads back all of what `printnum` printed, for every number, in bases 2 to 16, padded with spaces or zeros: the number itself if and only if a `long` holds it, else its low 32 bits |
| Format.StrTolReads | sched/lib/string.c:246-291 | what `strtol` reads of any text: blanks, a sign, a prefix that gives or confirms the base, and digits as far as they go |
| Format.UpperValue | sched/lib/string.c:272-280 | digits count alike in either case |
| Format.SnprintfThenStrtol | sched/lib/printfmt.c:207-230 | what `%u`, `%o` and `%x` leave in a buffer that has room is read back in base 10, 8 and 16; one without room holds the leading characters |
| Format.AddressRoundTripIff | sched/lib/printfmt.c:219-225 | `%p` is read back, in base 16 and in base 0, if and only if it is padded with zeros or not at all |
| Format.PaddedLength | sched/lib/printfmt.c:36-55 | the length is the larger of width and digit count |
| Format.SignedRoundTripIff | sched/lib/printfmt.c:198-205 | `%d` is read back exactly for non-negative numbers and for negative ones padded with zeros or not at all |
| Format.DashPaddingIff | sched/lib/printfmt.c:112-114 | when the `-` flag's output is read back |
| Format.SprintBuf.Printnum | sched/lib/printfmt.c:36-55 | the recursion prints the padded numeral |
| Format.SprintBuf.PrintConversion | sched/lib/printfmt.c:197-233 | the numeric conversions |
| Format.SprintBuf.Sprintputch | sched/lib/printfmt.c:266-272 | counts every character and stores those that fit |
| Format.Snprintf | sched/lib/printfmt.c:274-302 | for a format that is one numeric conversion: the full length, and the terminated text cut to the buffer |
| Format.Strtol | sched/lib/string.c:246-291 | the pointer loop computes the parse function |
| Sieve.SievePrintsPrimes | lab/primes.c:10-89 | in every interleaving, with pipes of any size, the output is always the first primes in order; a run that cannot go on has printed all up to n, every process has exited, and all such runs take equally many steps |
| Sieve.StepKeeps | lab/primes.c:10-53 | each step of each process keeps what every process has read and written a prefix of its stream |
| Sieve.NoDeadlock | lab/primes.c:43-51 | until all processes have exited one can go on |
| Sieve.StepCounts | lab/primes.c:10-89 | every step brings the end nearer by exactly one |
| Sieve.PrintedPrimes | lab/primes.c:20-21 | what has been printed is a prefix of the primes, and all of them at the end |
| Sieve.HeadsArePrimes | lab/primes.c:42-47 | repeated sifting of the numbers from 2 leaves the primes as first numbers |
| Inodes.PathParts | fisopfs/fs.c:51-110 | a path is its parent directory and its last component |
| Inodes.LookupLaw | fisopfs/fs.c:83-98 | `get_index_inodo`, which never reads the bitmap, agrees with the map |
| Inodes.CreateFileLaw | fisopfs/fs.c:147-197 | creation binds the name to the lowest free slot, or answers the right error, a path too long included, and changes nothing |
| Inodes.CreateDirLaw | fisopfs/fs.c:273-322 | the same for directories |
| Inodes.DeleteFileLaw | fisopfs/fs.c:199-219 | takes exactly a file's name out of the map |
| Inodes.UnlinkLaw | fisopfs/fs.c:333-358 | takes exactly a file's name out of the map; directories stay |
| Inodes.UnlinkLeaves | fisopfs/fs.c:346-357 | `unlink` changes no other slot, and of the file's own it leaves the kind and the name of its directory |
| Inodes.DeleteFileLeaves | fisopfs/fs.c:199-219 | `delete_file` clears the slot, name of the directory included, and changes no other |
| Inodes.RmdirAfterUnlink | fisopfs/fs.c:380-386 | so the directory then answers -ENOTEMPTY, whatever else it holds |
| Inodes.DeleteDirLaw | fisopfs/fs.c:361-399 | takes a directory out exactly when no slot names it as parent; the root stays |
| Inodes.RmdirIff | fisopfs/fs.c:380-399 | `rmdir` removes exactly the empty directories if and only if, in the root, this is not an empty one that a free slot still names; deeper down it searches for the entries of another directory |
| Inodes.NestedRmdir | fisopfs/fs.c:374-399 | the input: `/a/b` is removed with `/a/b/f` in it |
| Inodes.RmdirOfEmptied | fisopfs/fs.c:346-386 | the other input: `/a` is refused after its only file was unlinked |
| Inodes.StepKeepsCleanIff | fisopfs/fs.c:147-399 | a successful `unlink`, and no other step, leaves the name of a directory in a free slot |
| Inodes.RmdirWithoutUnlink | fisopfs/fs.c:147-399 | after any run without `unlink`, `rmdir` removes exactly the empty directories of the root |
| Inodes.EveryRunIsAMap | fisopfs/fs.c:83-399 | after any sequence of operations names are distinct, free slots have none, the root is in slot 0 and lookup agrees with the map |
| Inodes.FreshInv | fisopfs/fs.c:10-33 | a new file system is the map with the root alone |
| Inodes.SuperBlock.InitializeFs | fisopfs/fs.c:10-33 | establishes the invariant |
| Inodes.SuperBlock.GetIndexInodo | fisopfs/fs.c:83-98 | the scan computes the lookup function |
| Inodes.SuperBlock.NextFreeInodo | fisopfs/fs.c:115-138 | one scan finds both the lowest free slot and whether the name exists |
| Inodes.SuperBlock.CreateFile | fisopfs/fs.c:147-197 | the in-place code computes the creation function |
| Inodes.SuperBlock.CreateDir | fisopfs/fs.c:273-322 | the in-place code computes the creation function |
| Inodes.SuperBlock.DeleteFile | fisopfs/fs.c:199-219 | the scan computes the deletion function |
| Inodes.SuperBlock.Unlink | fisopfs/fs.c:333-358 | the in-place code computes the function |
| Inodes.SuperBlock.DeleteDir | fisopfs/fs.c:361-399 | the scan and the clearing compute the function |

## Left out

- Device, boot and interrupt-controller code, ELF loading, `boot_map_region`, `mmio_map_region` and the self-tests of `pmap.c`: hardware or run once.
- The TLB, the accessed and dirty bits and large pages. The kernel half above UTOP is the copied directory entries; the tables they name are memory like any other, never written and never counted.
- Arrays of frames hold words, and the page that `kern_pgdir` occupies is reserved; physical addresses and `KADDR` are frame numbers.
- MemoryRuns.CountsExactInEveryRun: a run goes on only by steps that fit (`MemoryRuns.Fits`); after one that does not, which `MemoryRuns.ApplyKeepsIff` shows to break the counts, nothing more is claimed. The same steps are left out of `UserCalls.MapCall`.
- Forks.CowRefinesEager: programs store only to pages that are writable or copy-on-write, use neither the two temporary pages nor the exception stack page, share no writable frame at the start, and send no page by IPC; under `fork_v0` they have no writable I/O page either; a run in which a system call fails stops there (`Forks.CowGoesOnIff` says when).
- Turns.RrRound: one processor whose environments only compute; with others in between `Sched.RrFair` and `Sched.PriorityFair` take the statuses as given.
- Cow.ForkLaw: the parent's own stores to its stack between the system calls of the loop, which can fall between the two mappings of `duppage` and then show in the child, are not modelled; the same goes for `fork_v0`.
- Cow.GuardHoldsIff: a fault on a page that is not mapped, where the handler faults again in its own copy, is not modelled.
- Cow.WriteEffect: the kernel's push onto the exception stack page and the handler's own stack are not shown here; `Upcall` has them.
- The child's half of `fork` (`thisenv`), `sys_env_set_pgfault_upcall` and `sys_env_set_status` at its end are control flow outside memory.
- Smp.LockFreeMeansOwned: what the schedulers choose is any choice `Smp.MayPick` allows; memory operations are steps without effect on statuses, and panics for other reasons than the lock and `curenv` are left out.
- The lock, `trap`, `env_run`, `env_destroy`, `ipc_send` and the processes of the sieve are steps on values, not methods on fields, because others act between any two of their accesses.
- Interrupts are taken only where the C code has them enabled: in user mode and in `hlt`.
- Smp.OwnedIffSafe: the other processor is in user mode with a RUNNING environment; with none there nobody can send, and nothing is claimed.
- Sched.PriorityFair: priorities lie at or below the default, which `env_alloc` and `sys_set_priority` give; no environment is created during the calls.
- Of the fields that `env_alloc` resets only identifier, status and parent are in `EnvIds`; `env_runs` and the count of calls of the scheduler, which only statistics read, are left out.
- Environment identifiers as `EnvIds` computes them are plain integers in `Smp`, and slots in `Ipc`: environments are neither created nor ended during a run of messages, and no blocked receiver is woken by `sys_env_set_status`.
- Ipc.ExactlyOnce: the page that may travel with a message is in `IpcPage`; here it has an address, and mapping it succeeds or fails with an error.
- Upcall.FaultIsInvisible: a handler leaves the exception stack writable and its own frame as it found it, and keeps to that page; `popfl` restores all of eflags. A program stores to a word without a fault where both its pages are writable and it lies below UTOP, above which everything is read-only to programs.
- Upcall.AtStore: of the flags that `subl` and `addl` leave only the zero flag is told apart; they are overwritten before the return.
- Format.Snprintf: the format is one numeric conversion; literal text and several conversions in one format are left out.
- IpcPage.SendPage: where the source is not mapped the code reads through a pointer that `page_lookup` did not set; what it reads is a parameter, and that reading it faults is left out.
- EnvIds.EnvTable.EnvAlloc: what `env_setup_vm` answers is a parameter; `AddressSpace.EnvSetupVm` computes it.
- UserFork.Library.SysPageMap: stops at a call that would leave a count inexact (`RefCounts.ExactInsert`), a test that is part of the model and not of the code; `UserCalls.MapCall` has the same.
- Paging.FreeOk: reserved frames have count 0. Among the frames the kernel keeps for itself, the tables that `boot_map_region` creates above UTOP have `pp_ref` 1 in the code; nothing in the user half refers to them.
- Ipc.Boxes.SysIpcTrySend: whether the sender may grant the permission, and what mapping the page answers, are parameters; `IpcPage.SendPage` computes them.
- Format.SignedRoundTripIff: signed overflow in `strtol`, undefined in C, wraps around here; `%s`, `%e`, `%c` and the parsing of the format string itself are left out.
- Stabs.StabBinsearch: where entries of the wanted type do not increase, or one holds the last address, only termination is claimed; `debuginfo_eip` around it is left out.
- Sieve.SievePrintsPrimes: `pipe` and `fork` succeed, reads and writes move whole integers, and n is below the largest `int`, where the generator's counter would overflow.
- Inodes.EveryRunIsAMap: last components are not empty; paths to create have at most 200 characters or more than 1025, because `fs.c` tests against MAX_CONTENT and the lengths between overrun its buffers of MAX_PATH; contents, sizes, times, owners, modes, FUSE glue and persistence are left out, and so is `write_file`.
- The shell, `xargs`, the other exercises of `lab/`, and the user programs of `sched/`.
