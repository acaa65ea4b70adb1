# Models of the MkLinux server

A Dafny model of the parts of the MkLinux server (`mklinux/src`) whose data structures are furthest from what they
mean, with proofs that they mean it. `dafny verify dfyconfig.toml` checks the whole project.

The server runs under one lock, so a stretch of code between two calls that may sleep is one step. A method models
such a stretch; what holds over whole runs is proved about the steps.

## The parts

**Record locks** (`RecordLocks`, `InodeLocks`, `LockTables`, `LockForms`, `WaitGraph`; `fs/locks.c`).
`posix_lock_file` merges, replaces, cuts and splits the locks of one owner. The meaning of a lock list is which owner
holds which type on which byte. The update is proved to set exactly the caller's bytes and to leave the owner's locks
sorted, disjoint and maximally merged; that normal form is unique. Over every run of the calls, no byte is locked for
writing beside another lock, POSIX and FLOCK locks do not meet on an inode, every waiter conflicts with the lock it
waits for, the graph of waiting tasks has out-degree one and no cycle, and every list stays in normal form. On such
graphs the deadlock search ends and answers exactly whether waiting would close a cycle. *Where the code differs from
its intent:* offsets are 32-bit, and the code compares with the end of the request plus one. That sum wraps for a
request to the end of the file, and the update is right if and only if no lock of the same type reaches the start of
such a request (`EndWraps`); the bytes alone are right if and only if no lock of another type stands behind such a lock
(`MixedBehind`). `WrapExample` is a request that goes wrong. The list of an inode stays in normal form over a run until
such a request on that inode.

**Timer wheel** (`TimerBag`, `TimerWheels`; `kernel/sched.c`). Five levels of slots with cascades, proved to be a bag
of timers with due ticks, including the calls that timer functions make while they run. In the bag a timer that is not
deleted fires exactly once, at its due tick. Words are 32-bit and time is not: `DueBeforeWrap` says exactly when the
due tick is the later of expiry and now.

**Inflate** (`BitStrings`, `HuffmanCode`, `HuffmanTables`, `HuffmanShape`, `HuffmanSteps`, `HuffmanBuild`, `Huft`,
`Windows`, `BitReaders`, `InflateSpec`, `Inflates`; `lib/inflate.c`). `huft_build` makes linked lookup tables for the
canonical code of a list of lengths (section 3.2.2 of RFC 1951). A symbol that a lookup gives is the one whose code the
stream begins with; over-subscribed sets are refused exactly when the Kraft sum exceeds one; and tables that decode
every stream undo the encoding of any message. *Where the code differs from its intent:* the search for a table's size
can give a table below the root more bits than its parent links it for, and then some stream is not decoded. The tables
decode every stream if and only if no node of the code tree has that shape (`Hazard`). `HazardExample` is a set that has
it; `DeflateSets` excludes it for sets of two levels or of no more codes than a table has entries, as the complete sets
of Deflate are with the table sizes used here. And the code strings without a symbol are marked as invalid if and only if
there are none or every symbol has a code (`SpareInvalid`); else their entries come from unset memory.
The window copy, by memcpy or byte by byte, across the end of the ring and its flush, is copying from unlimited history
(section 3.2.3 of RFC 1951). `inflate_codes` puts bit buffer, tables and window together: a block is a sequence of
literals and copies written in the two codes and an end (sections 3.2.3 and 3.2.5 of RFC 1951), a stream is one in at
most one way, and every stream that is a block with enough behind it is decoded to exactly that block; a stream that is
refused is none. Enough is 16 bits, or nothing if the end-of-block code is as long as the first lookup or as any other
code and the distance codes do not need more than the shortest of them and the end have (`Ample`); the comment at
lib/inflate.c:192-207 does not mention distances. For blocks with the fixed codes (section 3.2.6 of RFC 1951) all this
holds with no condition on tables and nothing behind the block.

**Semaphores** (`SemSpec`, `Semaphores`; `ipc/sem.c`). The dry run changes nothing and says go exactly when the
operations are possible one after the other; after it the real run meets no race. Between calls no sleeper could go
on. Over every run a value plus all live adjustments changes through operations without SEM_UNDO, through SETVAL and
SETALL, through exits that cannot adjust in full, and by 2^16 whenever an adjustment wraps: adjustments are shorts. It is
exact all along a run if and only if no adjustment wraps (`LedgerExact`), and `CarryExample` is one that does. A process
that always used SEM_UNDO leaves no trace of its operations if and only if the wraps cancel and its exit adjusts in full.

**kmalloc** (`Kmallocs`; `mm/kmalloc.c`). Pages of blocks with linked free chains. The branches for a block that is
not free and for a page that is not on its list are never taken; the set of blocks in use changes by exactly the block
given or taken; blocks in use are disjoint. Asking for a page may sleep, so `kmalloc` is two stretches, and the second
begins with any valid heap. *Where the code differs from its intent:* the size plus the header is summed in 32 bits, and
the block is long enough if and only if that sum does not wrap (`ShortBlockExample`).

**Name cache** (`NameCacheSpec`, `NameCaches`; `fs/dcache.c`). Entries copied between two rings, both copies hashed,
proved to be two lists in order of use. Level 2 holds the 128 most recently used names, and a hit gives a number that
was added for exactly that name. *Where the code differs from its intent:* a refresh of a name on both levels does not
reach its copy on level 1. Over every run, a hit is not the last number added if and only if that addition was such a
refresh and level 2 has since been without the name (`StaleIff`); `StaleExample` is such a run.

**Buffer cache** (`BufferCaches`; `fs/buffer.c`). Every buffer is on exactly one list, and the counts are the lengths.
No block comes to be hashed twice, except exactly where one is asked for with another size than it is hashed with, and
where a buffer taken off its hash queue is filed again beside another; so in every run in which each device keeps one
block size no block is hashed twice.

**Areas** (`VmAreas`; `mm/mprotect.c`, `mm/mlock.c`, `mm/mmap.c`). Splitting and merging keep what backs every
address, change the flags exactly on the range, and keep `locked_vm`; on an error, exactly on the part before the
failure. *Where the code differs from its intent:* a length within a page of 2^32 is rounded to nothing, so a call may
return success and do nothing (`RoundedAwayExample`).

**Pipes** (`Pipes`; `fs/pipe.c`) and **argument pages** (`ArgPages`; `fs/exec.c`). The ring carries the run of its own
steps, so the laws of all runs are laws of the ring: bytes come out as they went in under any interleaving, and writes of
at most PIPE_BUF bytes go in whole and in one piece (section 6.4.2 of POSIX.1-1990). Strings are copied downwards across pages, and `remove_arg_zero` steps over exactly the first.

## Model

| member | source | states |
|---|---|---|
| `RecordLocks.MadeRequest` | mklinux/src/fs/locks.c:543-594 | a request is refused exactly for a negative length or start, and covers exactly the bytes that exist of the length from its start, or all of them for length 0 |
| `RecordLocks.CanonicalUnique` | mklinux/src/fs/locks.c:883-991 | lists in normal form that hold the same types on the same bytes have the same ranges |
| `RecordLocks.SpliceCanonical` | mklinux/src/fs/locks.c:883-991 | the kept locks with the pieces of a cut lock and the caller between them are in normal form |
| `RecordLocks.SpliceMeaning` | mklinux/src/fs/locks.c:883-991 | a byte of that list has the caller's type in the caller's range and its old type outside |
| `RecordLocks.VisitSameType` | mklinux/src/fs/locks.c:890-922 | a lock of the caller's type is passed, merged with the caller, or ends the pass, and the pass stays right |
| `RecordLocks.VisitOtherType` | mklinux/src/fs/locks.c:923-960 | a lock of another type is passed, cut, replaced, deleted, or ends the pass, and the pass stays right |
| `RecordLocks.ScanRun` | mklinux/src/fs/locks.c:883-965 | the pass stops at the end, before a lock beyond the caller, or at a lock to be cut on the right |
| `RecordLocks.FinishRun` | mklinux/src/fs/locks.c:967-991 | the caller inserted and the locks at its two sides cut give the list that is the splice of the pieces |
| `RecordLocks.UpdateRun` | mklinux/src/fs/locks.c:883-991 | on every list no byte gains a type not asked for and no waiter stays without conflict; from normal form, normal form with exactly the caller's bytes set, if and only if the 32-bit sum does not wrap; exactly the caller's bytes set, if and only if no lock of another type stands behind one that meets the wrapped sum; and where it wraps the locks from there on stay as they were |
| `RecordLocks.WrapExample` | mklinux/src/fs/locks.c:898-901 | a read lock to the end of the file leaves a byte locked for writing |
| `InodeLocks.PosixApply` | mklinux/src/fs/locks.c:868-991 | only the caller's own locks change, owners stay contiguous, and every byte of every owner is as before except the caller's range: with the list in normal form if and only if the sum does not wrap, for the bytes alone if and only if no lock of another type stands behind one that meets the wrapped sum |
| `WaitGraph.AcyclicAdd` | mklinux/src/fs/locks.c:691-714 | a new edge keeps a graph acyclic exactly when its target does not reach its source |
| `LockTables.PosixLocksDeadlock` | mklinux/src/fs/locks.c:691-714 | on graphs with out-degree one and no cycle the search ends, and answers yes exactly when waiting would close a cycle |
| `LockTables.ConflictSymmetric` | mklinux/src/fs/locks.c:633-679 | conflicts do not depend on who asks |
| `LockTables.ApplyKeeps` | mklinux/src/fs/locks.c:841-991 | a granted POSIX request keeps exclusion, unmixed lists, conflicting waiters and the acyclic graph |
| `LockTables.EnqueueKeeps` | mklinux/src/fs/locks.c:182-200 | so does queueing a request that conflicts and closes no cycle |
| `LockTables.FlockInsertKeeps` | mklinux/src/fs/locks.c:742-800 | so does a granted FLOCK request |
| `LockTables.NextKeeps` | mklinux/src/fs/locks.c:182-249 | so does every step |
| `LockTables.RunsAreSafe` | mklinux/src/fs/locks.c:820-1002 | so every state of every run has them |
| `LockTables.LockTable.PosixLockFile` | mklinux/src/fs/locks.c:820-1002 | each stretch is one such step, and its outcome is the one the state calls for: no memory, busy beside FLOCK locks, again or asleep on the first lock in conflict, deadlock exactly if its owner waits for the caller, or the request applied |
| `LockTables.LockTable.Queue` | mklinux/src/fs/locks.c:182-200 | a waiter goes to the end of a block list |
| `LockTables.LockTable.StopWaiting` | mklinux/src/fs/locks.c:205-225 | a waiter leaves a block list |
| `LockTables.LockTable.MandatoryArea` | mklinux/src/fs/locks.c:486-525 | one stretch: access goes on only where no lock is in conflict, and else fails or waits for the first of them without closing a cycle |
| `LockTables.LockTable.MandatoryAgain` | mklinux/src/fs/locks.c:526-538 | the stretch after a sleep: a signal restarts the call, access goes on if mandatory locking has ended, and else as before the sleep |
| `LockTables.LockTable.PosixRemoveLocks` | mklinux/src/fs/locks.c:398-428 | exactly the task's locks are removed |
| `LockTables.LockTable.FlockTry` | mklinux/src/fs/locks.c:776-800 | the new lock goes to the head exactly if nothing is in conflict, else the caller fails or waits for the first lock that is |
| `LockTables.LockTable.FlockLockFile` | mklinux/src/fs/locks.c:720-806 | when done the open file holds a lock of the type asked for, or one less after an unlock; a lock of another type is deleted before the search is repeated |
| `LockForms.StepKeepsForm` | mklinux/src/fs/locks.c:820-1002 | every step keeps the lists in normal form, unless it applies a request that meets a wrapped sum |
| `LockForms.RunsStayMerged` | mklinux/src/fs/locks.c:820-1002 | so in every run the list of an inode is grouped by owner, sorted, disjoint and merged as long as no such request on that inode came before, whatever happened on others |
| `LockForms.RunsSetBytes` | mklinux/src/fs/locks.c:820-1002 | and then the next granted request on it sets exactly its bytes and keeps the form, if and only if its own sum does not wrap |
| `TimerBag.DueBeforeWrap` | mklinux/src/kernel/sched.c:883-915 | a timer is due at the later of expiry and now, if and only if it is not overdue by more than 2^32 - 2^26 ticks and not 2^32 - 1 ahead |
| `TimerBag.ServesConcat` | mklinux/src/kernel/sched.c:994-1002 | runs in which the k-th timer to fire makes its calls at once go on as such runs |
| `TimerBag.FiresOnTime` | mklinux/src/kernel/sched.c:983-1007 | in every run a pending timer that nobody deletes fires once its tick has passed, at that tick |
| `TimerBag.IdleStaysQuiet` | mklinux/src/kernel/sched.c:936-963 | a timer that is not pending does not fire until it is added |
| `TimerBag.FiresExactlyOnce` | mklinux/src/kernel/sched.c:983-1007 | a timer added once fires once, at its due tick |
| `TimerWheels.LevelFits` | mklinux/src/kernel/sched.c:891-910 | a timer fits the level its distance calls for, whichever levels of this tick have been cascaded |
| `TimerWheels.PlacedRightly` | mklinux/src/kernel/sched.c:883-915 | a timer is put into the slot that is served at its due tick, and dropped exactly when the bag drops it |
| `TimerWheels.InCurrentSlot` | mklinux/src/kernel/sched.c:965-981 | the slot a level's index points at holds exactly its timers due in the block of ticks that begins now |
| `TimerWheels.MoveHolds` | mklinux/src/kernel/sched.c:974-978 | a cascaded timer goes to a finer level, rightly |
| `TimerWheels.ServedHolds` | mklinux/src/kernel/sched.c:965-981 | with its current slot empty, a level is served for the block |
| `TimerWheels.RestHolds` | mklinux/src/kernel/sched.c:988-993 | levels whose block does not begin now need no cascade |
| `TimerWheels.CarryOn` | mklinux/src/kernel/sched.c:980-992 | an index comes to 1 exactly when the next level has to be cascaded too |
| `TimerWheels.TickHolds` | mklinux/src/kernel/sched.c:1003-1004 | once nothing is due the clock moves on |
| `TimerWheels.TimerWheel.InternalAddTimer` | mklinux/src/kernel/sched.c:883-915 | the timer comes to the head of the slot that is served at its due tick, on the level of its distance, and all other slots stay; exactly a timer that is never due is linked to itself |
| `TimerWheels.TimerWheel.AddTimer` | mklinux/src/kernel/sched.c:917-934 | the bag gains the timer |
| `TimerWheels.TimerWheel.DelTimer` | mklinux/src/kernel/sched.c:936-963 | the bag loses the timer, and the result says whether it was there |
| `TimerWheels.TimerWheel.CascadeTimers` | mklinux/src/kernel/sched.c:965-981 | no timer is lost, doubled or delayed by a cascade |
| `TimerWheels.TimerWheel.CascadeLevels` | mklinux/src/kernel/sched.c:988-993 | exactly the levels whose block begins now are cascaded |
| `TimerWheels.TimerWheel.FireDue` | mklinux/src/kernel/sched.c:994-1002 | exactly the due timers fire, and each makes exactly its calls before the next |
| `TimerWheels.TimerWheel.RunTimerList` | mklinux/src/kernel/sched.c:983-1007 | the run is a run of the bag up to the tick given, whose fired timers are those reported, each with its calls |
| `HuffmanCode.UsedIsKraft` | mklinux/src/lib/inflate.c:341-346 | the strings the codes use up are counted by the Kraft sum |
| `HuffmanCode.CompleteFits` | mklinux/src/lib/inflate.c:341-346 | in a complete set no length uses up more strings than there are, and only the greatest all |
| `HuffmanTables.WalkSound` | mklinux/src/lib/inflate.c:532-541 | a lookup gives only a symbol whose code the stream begins with, and the length of that code |
| `HuffmanTables.WalkAgrees` | mklinux/src/lib/inflate.c:457-460 | entries written for one code change no lookup of streams that do not begin with it |
| `HuffmanShape.HazardBreaks` | mklinux/src/lib/inflate.c:394-409 | a node that needs more bits than it is linked for leaves a stream that is not decoded |
| `HuffmanShape.NoHazardSize` | mklinux/src/lib/inflate.c:394-409 | without such a node every table below the root has at most the bits it is linked for |
| `HuffmanSteps.NextLength` | mklinux/src/lib/inflate.c:379-383 | at the next length the code doubles and the tables stay right for it |
| `HuffmanSteps.WriteCodeDecodes` | mklinux/src/lib/inflate.c:457-460 | with a code's entries written all streams up to its end are decoded |
| `HuffmanSteps.NewTable` | mklinux/src/lib/inflate.c:411-435 | a new table linked in keeps the tables right |
| `HuffmanSteps.PopTables` | mklinux/src/lib/inflate.c:467-472 | the tables left on the stack are on the way to the next code, which is the first in any table it needs |
| `HuffmanBuild.TableSize` | mklinux/src/lib/inflate.c:394-409 | the number of bits chosen closes the node, or is the limit, or is one more than the code needs when that reaches the limit |
| `HuffmanBuild.AddTable` | mklinux/src/lib/inflate.c:388-437 | one more table is made for the first code in it, of the size the rule gives, and linked |
| `HuffmanBuild.FillEntries` | mklinux/src/lib/inflate.c:457-460 | every entry whose bits begin with the code is written, and no other |
| `HuffmanBuild.NextCode` | mklinux/src/lib/inflate.c:462-465 | the backwards increment adds one to the code read from its other end, and gives all zeros after the last |
| `HuffmanBuild.PopStack` | mklinux/src/lib/inflate.c:467-472 | the stack is cut to its longest part on the way to the next code |
| `HuffmanBuild.Advance` | mklinux/src/lib/inflate.c:462-472 | the state is ready for the next code; the table written to need not be updated, since the next code makes a new one |
| `HuffmanBuild.PlaceCode` | mklinux/src/lib/inflate.c:385-474 | one code more is decoded |
| `HuffmanBuild.BuildTables` | mklinux/src/lib/inflate.c:369-476 | the tables tell no lies, and without a hazard decode every stream |
| `Huft.CountLengths` | mklinux/src/lib/inflate.c:304-318 | how many codes have each length |
| `Huft.FindExtremes` | mklinux/src/lib/inflate.c:322-336 | the least and the greatest length |
| `Huft.SpareCodes` | mklinux/src/lib/inflate.c:340-346 | negative exactly if the Kraft sum exceeds one, else the strings left |
| `Huft.Offsets` | mklinux/src/lib/inflate.c:350-355 | where the symbols of each length begin |
| `Huft.SortValues` | mklinux/src/lib/inflate.c:359-364 | the symbols stand in the order of their codes |
| `Huft.PrefixFree` | mklinux/src/lib/inflate.c:369-476 | no code begins another |
| `Huft.DecodesIff` | mklinux/src/lib/inflate.c:369-476 | finished tables decode every stream to the symbol whose code it begins with if and only if the set has no hazard |
| `Huft.HuftBuild` | mklinux/src/lib/inflate.c:268-482 | no codes, over-subscribed or built, each exactly when; incomplete reported exactly for spare codes beyond one bit; a lookup gives the symbol whose code the stream begins with, or a spare code if there is none; every stream is decoded if and only if there is no hazard |
| `Huft.SymbolPlaces` | mklinux/src/lib/inflate.c:359-364 | the list of symbols has as many places as symbols with codes, so a spare code's place is known |
| `Huft.SpareInvalid` | mklinux/src/lib/inflate.c:440-454 | all spare codes are marked as invalid if and only if there are none or every symbol has a code |
| `Huft.NoHazard` | mklinux/src/lib/inflate.c:394-409 | two levels at most, or no more codes than a table has entries: no hazard |
| `Huft.DeflateSets` | mklinux/src/lib/inflate.c:256-257 | so no hazard for sets with codes of at most twice the table bits (literals, 9 bits), or with no more codes and spare codes than table entries (complete distance sets, 6 bits) |
| `Huft.HazardExample` | mklinux/src/lib/inflate.c:394-409 | lengths 1, 2, 3, 3 with one-bit tables have a hazard |
| `Huft.RoundTrip` | mklinux/src/lib/inflate.c:507-551 | decoding the codes of a message gives the message and the rest of the stream |
| `Windows.CopiedRepeats` | mklinux/src/lib/inflate.c:580-600 | byte-by-byte copying repeats the last dist bytes |
| `Windows.CopiedBlock` | mklinux/src/lib/inflate.c:584-589 | up to the distance it is one block |
| `Windows.MovedCopies` | mklinux/src/lib/inflate.c:584-589 | memcpy of a stretch inside the window is such a copy from history |
| `Windows.Window.Output` | mklinux/src/lib/inflate.c:542-551 | a byte is added to the output, across flushes |
| `Windows.Window.CopySlow` | mklinux/src/lib/inflate.c:590-594 | the byte loop copies from history, also what it has just written |
| `Windows.Window.CopyFast` | mklinux/src/lib/inflate.c:584-589 | the memcpy form does the same |
| `Windows.Window.CopyMatch` | mklinux/src/lib/inflate.c:580-600 | a match is copied from unlimited history at its distance, for any distance up to 32768 within the output; beyond it as many bytes come out |
| `BitReaders.BitReader.NeedBits` | mklinux/src/lib/inflate.c:218-219 | the bits to come stay as they are, and it fails exactly if there are fewer |
| `BitReaders.BitReader.Peek` | mklinux/src/lib/inflate.c:212-216 | the mask gives the next bits of the input, least significant first |
| `BitReaders.BitReader.DumpBits` | mklinux/src/lib/inflate.c:220 | exactly the next bits are dropped |
| `InflateSpec.DistFits` | mklinux/src/lib/inflate.c:168-175 | no distance is beyond the window |
| `InflateSpec.CodeUnique` | mklinux/src/lib/inflate.c:369-476 | one code at most begins a stream |
| `InflateSpec.TokensKnown` | mklinux/src/lib/inflate.c:530-601 | a block that begins with some tokens is those tokens and a block behind them |
| `InflateSpec.BlockUnique` | mklinux/src/lib/inflate.c:530-601 | a stream is a block in one way at most: one sequence of literals and copies, and one rest |
| `Inflates.SomeCode` | mklinux/src/lib/inflate.c:340-346 | in a complete set every stream begins with a code |
| `Inflates.Lookup` | mklinux/src/lib/inflate.c:532-541 | the symbol whose code the stream begins with, and the bits of that code dropped; invalid only if no code begins it; out of input only if there are fewer bits than the first lookup takes, or the code is longer than that and there are fewer than the longest has |
| `Inflates.ReadDistance` | mklinux/src/lib/inflate.c:563-577 | a distance and its extra bits are read off the stream, or the stream begins with none |
| `Inflates.ReadItem` | mklinux/src/lib/inflate.c:532-577 | a literal, a copy or the end is read off the stream, or the stream is no block, or too little follows it |
| `Inflates.Write` | mklinux/src/lib/inflate.c:542-600 | a token's output is appended |
| `Inflates.InflateCodes` | mklinux/src/lib/inflate.c:507-612 | done: the stream was a block and what is left, and the output is the block's unless that copies from before the beginning; refused: the stream is no block; and every block with enough behind it is read, no further than its end |
| `Inflates.FixedComplete` | mklinux/src/lib/inflate.c:686-697 | the fixed literal lengths are a complete set |
| `Inflates.FixedSpare` | mklinux/src/lib/inflate.c:700-710 | the fixed distance lengths leave two codes, both marked as invalid |
| `Inflates.InflateFixed` | mklinux/src/lib/inflate.c:672-722 | so for the fixed codes, with the tables built for them, whatever follows the block and even if nothing does |
| `SemSpec.TryIsFeasible` | mklinux/src/ipc/sem.c:175-210 | go exactly if every operation in turn stays within 0 .. SEMVMX and every wait for zero finds zero |
| `SemSpec.DoTotal` | mklinux/src/ipc/sem.c:214-249 | a value plus all adjustments changes by the operations without SEM_UNDO and 2^16 for every wrap of the adjustment, so by the operations alone if and only if the new adjustment is a short |
| `SemSpec.CarryExample` | mklinux/src/ipc/sem.c:236-241 | an operation with SEM_UNDO on an adjustment of -32767 changes the sum by 2^16 |
| `SemSpec.ExitValueExact` | mklinux/src/ipc/sem.c:677-706 | an exit adjusts in full exactly if the sum is a semaphore value, and else leaves zero |
| `Semaphores.LedgerRun` | mklinux/src/ipc/sem.c:212-249 | over every run the sum changes by what the calls without SEM_UNDO, SETVAL, SETALL and short exits do, and 2^16 for every wrap |
| `Semaphores.LedgerExact` | mklinux/src/ipc/sem.c:212-249 | the sum is exact after every part of a run if and only if no adjustment wraps in it |
| `Semaphores.UndoLeavesNoTrace` | mklinux/src/ipc/sem.c:661-708 | after the exit of a process that always used SEM_UNDO only what others did shows, whatever else happened in the run, if and only if the wraps cancel and its exit adjusts in full |
| `Semaphores.SemSet.TrySemop` | mklinux/src/ipc/sem.c:175-210 | no value changes, and the verdict is that of the first operation that cannot be done |
| `Semaphores.SemSet.DoSemop` | mklinux/src/ipc/sem.c:214-249 | a race exactly if the dry run would not say go; else all operations and their charges |
| `Semaphores.SemSet.UpdatePass` | mklinux/src/ipc/sem.c:255-278 | sleepers that need not wait are finished, each with the verdict on it at that time, and none is lost |
| `Semaphores.SemSet.UpdateQueue` | mklinux/src/ipc/sem.c:255-278 | the passes end, no sleeper is lost or finished with a wrong verdict, and then every sleeper has to wait |
| `Semaphores.SemSet.SysSemop` | mklinux/src/ipc/sem.c:555-647 | each error exactly when the source gives it, without effect; else the operations happen, or the process sleeps at the end of the queue, and no sleeper is lost or could go on afterwards |
| `Semaphores.SemSet.Interrupt` | mklinux/src/ipc/sem.c:629-647 | a sleeper leaves the queue, and no other could go on |
| `Semaphores.SemSet.SetValue` | mklinux/src/ipc/sem.c:508-517 | refused exactly for a bad number or value, without effect; else the value is set, the adjustments to it are cleared, and no sleeper is lost or could go on |
| `Semaphores.SemSet.SetAllValues` | mklinux/src/ipc/sem.c:537-547 | the same for all values |
| `Semaphores.SemSet.SemExit` | mklinux/src/ipc/sem.c:661-708 | a sleeping process leaves the queue; its adjustments are made and dropped, and no sleeper is lost or could go on |
| `Kmallocs.TableFits` | mklinux/src/mm/kmalloc.c:204-224 | the blocks of every order fit their area, so the check at the start never panics |
| `Kmallocs.PageOfBlock` | mklinux/src/mm/kmalloc.c:390-391 | masking the address of a block gives its page |
| `Kmallocs.OrderFor` | mklinux/src/mm/kmalloc.c:240-255 | the least order with room for the 32-bit sum of size and header |
| `Kmallocs.WrapIsShort` | mklinux/src/mm/kmalloc.c:243-246 | that block is long enough if and only if the sum does not wrap |
| `Kmallocs.ShortBlockExample` | mklinux/src/mm/kmalloc.c:243-246 | a request of 0xfffffff8 bytes finds a block of the smallest size |
| `Kmallocs.NewPage` | mklinux/src/mm/kmalloc.c:326-340 | all blocks of a new page are on its chain, each once |
| `Kmallocs.AllFree` | mklinux/src/mm/kmalloc.c:427-440 | as many free blocks as blocks means that none is in use |
| `Kmallocs.LiveDisjoint` | mklinux/src/mm/kmalloc.c:278-350 | blocks in use do not overlap, headers included, and lie in their areas |
| `Kmallocs.Heap.TakeFirst` | mklinux/src/mm/kmalloc.c:278-301 | the first block of the first page was not in use, and exactly it comes into use |
| `Kmallocs.FreeIsUnused` | mklinux/src/mm/kmalloc.c:284-301 | a block on a free chain is at no address in use |
| `Kmallocs.Heap.AddPage` | mklinux/src/mm/kmalloc.c:304-350 | a new page goes to the head of its list with all blocks free |
| `Kmallocs.Heap.Kmalloc` | mklinux/src/mm/kmalloc.c:231-317 | up to the request for a page: refused exactly if no order has room for the 32-bit sum, a page asked for only if the order has none with a free block; else exactly one block that was not in use comes into use, on a page of that order and kind, and all blocks stay long enough if and only if the sum does not wrap |
| `Kmallocs.Heap.KmallocPage` | mklinux/src/mm/kmalloc.c:319-377 | from there on, with any valid heap: memory is given exactly if there is an area; exactly one block that was not in use comes into use; no block that was in use is touched; all blocks stay long enough if and only if the sum does not wrap |
| `Kmallocs.Heap.GiveUp` | mklinux/src/mm/kmalloc.c:426-440 | a wholly free page is found on its list and leaves it |
| `Kmallocs.Heap.PutBack` | mklinux/src/mm/kmalloc.c:417-425 | the block heads the chain, and a page with its first free block joins its list |
| `Kmallocs.Heap.Kfree` | mklinux/src/mm/kmalloc.c:379-453 | exactly the block leaves use; an address that is not that of a block in use is refused and nothing changes, and null does nothing |
| `NameCacheSpec.RecentIs` | mklinux/src/fs/dcache.c:7-17 | the keys of a history in the order of their last uses, each once |
| `NameCacheSpec.LevelTwoIsRecent` | mklinux/src/fs/dcache.c:164-181 | after every run level 2 holds the 128 most recently used keys in that order |
| `NameCacheSpec.AddsEvictNothing` | mklinux/src/fs/dcache.c:199-222 | no number of additions of keys not on level 2 changes level 2 |
| `NameCacheSpec.HitWasAdded` | mklinux/src/fs/dcache.c:183-197 | a hit gives a number added for exactly that device, directory, version and name |
| `NameCacheSpec.AddIsFound` | mklinux/src/fs/dcache.c:207-211 | an addition is found by the next lookup, and reaches both copies exactly if the key is not on level 2 or level 1 agrees |
| `NameCacheSpec.StaleIff` | mklinux/src/fs/dcache.c:164-222 | over every run, a hit is not the last number added if and only if that addition found the name on level 2 with another number on level 1, and level 2 has since been without the name |
| `NameCacheSpec.StaleExample` | mklinux/src/fs/dcache.c:164-222 | after number 2 was added for a name, 128 other names are used, and a lookup gives number 1 |
| `NameCaches.FirstIsOnly` | mklinux/src/fs/dcache.c:144-162 | on a hash queue a copy on level 2 goes before one on level 1, and there are no others |
| `NameCaches.FirstIsFound` | mklinux/src/fs/dcache.c:144-162 | the first entry on the queue is what the two lists give |
| `NameCaches.RelinkedOk` | mklinux/src/fs/dcache.c:117-139 | moving an entry to another queue keeps all queues right |
| `NameCaches.LiveTouched` | mklinux/src/fs/dcache.c:96-104 | an entry used again is the most recent of its list |
| `NameCaches.LiveReplaced` | mklinux/src/fs/dcache.c:176-180 | the oldest entry taken for a new key drops the oldest item exactly if the list was full |
| `NameCaches.NameCache.FindEntry` | mklinux/src/fs/dcache.c:144-162 | the first entry of the queue with the key |
| `NameCaches.NameCache.UpdateLru` | mklinux/src/fs/dcache.c:96-104 | the entry becomes the most recent of its level |
| `NameCaches.NameCache.MoveToLevel2` | mklinux/src/fs/dcache.c:168-181 | the item becomes the most recent of level 2, level 1 stays |
| `NameCaches.NameCache.Lookup` | mklinux/src/fs/dcache.c:183-197 | the lookup of the two lists; long names are not cached |
| `NameCaches.NameCache.Add` | mklinux/src/fs/dcache.c:199-222 | the addition of the two lists |
| `NameCaches.NameCache.constructor` | mklinux/src/fs/dcache.c:224-264 | the cache is empty |
| `BufferCaches.OneList` | mklinux/src/fs/buffer.c:375-458 | a buffer is on the free list of its size or on the LRU list it names, and on no other, in every state that is valid, as all methods below keep it |
| `BufferCaches.RemovedOk` | mklinux/src/fs/buffer.c:328-385 | a buffer off its queues leaves lists, queues and counts right |
| `BufferCaches.InsertedOk` | mklinux/src/fs/buffer.c:411-458 | so does a buffer put onto them |
| `BufferCaches.InsertedUnique` | mklinux/src/fs/buffer.c:431-458 | blocks stay unique exactly if the block was not hashed |
| `BufferCaches.OneSizeKeeps` | mklinux/src/fs/buffer.c:789-834 | a call that uses a device with its one block size keeps blocks unique |
| `BufferCaches.OneSizeUnique` | mklinux/src/fs/buffer.c:789-834 | so in every run from an empty cache in which each device keeps one block size, no block is hashed twice |
| `BufferCaches.BufferCache.FindBuffer` | mklinux/src/fs/buffer.c:460-481 | the hashed buffer of the block and size; none means that the block is not hashed, or with another size |
| `BufferCaches.BufferCache.GetBlk` | mklinux/src/fs/buffer.c:789-834 | the block's buffer exactly if it is hashed with that size, else the first free one made it and put at the end of the clean list; blocks stay unique if and only if it was not hashed with another size; and the call is a step of such a run |
| `BufferCaches.BufferCache.PutLastLru` | mklinux/src/fs/buffer.c:387-409 | the buffer goes to the end of its list |
| `BufferCaches.BufferCache.Refile` | mklinux/src/fs/buffer.c:856-893 | a buffer not on the list its state calls for goes to the end of that list, any other stays; blocks stay unique if and only if it is not hashed again beside another |
| `BufferCaches.BufferCache.Reclaim` | mklinux/src/fs/buffer.c:723-731 | the buffer goes to the end of the free list of its size |
| `BufferCaches.BufferCache.Unhash` | mklinux/src/fs/buffer.c:328-337 | the buffer leaves its hash queue and stays on its list |
| `BufferCaches.BufferCache.GrowBuffers` | mklinux/src/fs/buffer.c:1400-1424 | the new buffers go before the others of their size and are counted |
| `BufferCaches.BufferCache.FreePage` | mklinux/src/fs/buffer.c:1460-1473 | the buffers of a page leave all queues and the count |
| `VmAreas.SplitMeans` | mklinux/src/mm/mprotect.c:97-184 | a split area gives every address its old backing, and new flags exactly on the range |
| `VmAreas.SplitLocked` | mklinux/src/mm/mlock.c:160-165 | the locked pages change by those of the range |
| `VmAreas.WholePagesCover` | mklinux/src/mm/mprotect.c:225-228 | rounding a length up covers it if and only if the sum does not wrap |
| `VmAreas.RoundedAwayExample` | mklinux/src/mm/mprotect.c:225-228 | a length one byte into the last page is rounded to nothing |
| `VmAreas.AddressSpace.FixupStart` | mklinux/src/mm/mprotect.c:105-126 | the new area is put before what is left, or nothing changes, exactly if there is no memory |
| `VmAreas.AddressSpace.FixupEnd` | mklinux/src/mm/mprotect.c:128-149 | the new area is put behind what is left, or nothing changes, exactly if there is no memory |
| `VmAreas.AddressSpace.FixupMiddle` | mklinux/src/mm/mprotect.c:151-184 | both sides are put around the range, or nothing changes, exactly if there is no memory for both |
| `VmAreas.AddressSpace.RangeStep` | mklinux/src/mm/mprotect.c:259-274 | one area is changed, and the next goes on where it ends or there is a hole |
| `VmAreas.AddressSpace.ProtectRange` | mklinux/src/mm/mprotect.c:248-275 | flags change exactly on the part before the end, a hole, or an area that denies them |
| `VmAreas.AddressSpace.LockRange` | mklinux/src/mm/mlock.c:197-222 | the same for VM_LOCKED, and `locked_vm` stays the pages locked |
| `VmAreas.JoinAlike` | mklinux/src/mm/mmap.c:1051-1079 | two areas made one leave every address its flags and backing, and its place in it if it has one |
| `VmAreas.JoinLocked` | mklinux/src/mm/mmap.c:1051-1079 | and leave the pages locked |
| `VmAreas.AddressSpace.MergeSegments` | mklinux/src/mm/mmap.c:1024-1093 | all addresses stay alike, and no two areas that meet at the start of the range or after, the first beginning before its end, could be one |
| `VmAreas.AddressSpace.Mprotect` | mklinux/src/mm/mprotect.c:217-278 | on success the protection changes exactly on the rounded range, all of it mapped, and areas there are merged; on an error exactly before the failure, and each error says what is there; backing never changes |
| `VmAreas.AddressSpace.Mlock` | mklinux/src/mm/mlock.c:179-225 | the same for locking and unlocking, with `locked_vm` the pages locked |
| `Pipes.RingPut` | mklinux/src/fs/pipe.c:106-118 | bytes written behind the ring are added to it |
| `Pipes.RingTake` | mklinux/src/fs/pipe.c:53-67 | bytes taken from its front leave the rest |
| `Pipes.Pipe.PutChunk` | mklinux/src/fs/pipe.c:106-118 | one turn adds a prefix of the buffer to the ring, as a step of the run |
| `Pipes.Pipe.TakeChunk` | mklinux/src/fs/pipe.c:53-67 | one turn takes a prefix of the ring, as a step of the run |
| `Pipes.Pipe.PutLocked` | mklinux/src/fs/pipe.c:105-119 | a holder of the lock puts in all there is room for, and the run goes on by exactly those bytes |
| `Pipes.Pipe.TakeLocked` | mklinux/src/fs/pipe.c:52-68 | a reader takes all there is, up to its count |
| `Pipes.Pipe.GrabWrite` | mklinux/src/fs/pipe.c:94-105 | the lock is taken exactly if nobody has it and there is the room the write waits for |
| `Pipes.Pipe.WriteTurn` | mklinux/src/fs/pipe.c:93-121 | one turn sleeps exactly if there is no room or the lock is held, and else adds all there is room for in one step of the run |
| `Pipes.Pipe.ReadTurn` | mklinux/src/fs/pipe.c:43-69 | one turn sleeps exactly if the pipe is empty or the lock is held, and else takes all there is, up to its count |
| `Pipes.StepKeeps` | mklinux/src/fs/pipe.c:43-122 | every step of readers and writers keeps the order, each call's bytes a prefix in order, and an atomic write whole |
| `Pipes.PipeKeepsOrder` | mklinux/src/fs/pipe.c:79-125 | after every run the bytes read and those in the pipe are the bytes written in order; each call has put in a prefix of its bytes; one of at most PIPE_BUF bytes is in one piece, and all or nothing once it returns |
| `Pipes.Pipe.RingKeepsOrder` | mklinux/src/fs/pipe.c:30-125 | so it is with the ring: the bytes read and those in the ring are the bytes written in order, and writes of at most PIPE_BUF bytes are in one piece, all or nothing once they return |
| `ArgPages.ArgSpace.CopyStretch` | mklinux/src/fs/exec.c:252-277 | a byte or a stretch of a page is copied, and nothing else is touched |
| `ArgPages.ArgSpace.CopyString` | mklinux/src/fs/exec.c:252-277 | a string with its zero is copied to end at the old address |
| `ArgPages.ArgSpace.CopyStrings` | mklinux/src/fs/exec.c:221-282 | all strings in order lie below the old address; 0 means that they do not fit or that there are no more pages; nothing at or above the old address changes |
| `ArgPages.ArgSpace.RemoveArgZero` | mklinux/src/fs/exec.c:587-601 | the address after the next zero |
| `ArgPages.StepsOverFirst` | mklinux/src/fs/exec.c:587-601 | after a copy that is where the second string begins |

## Left out

- FLOCK and POSIX locks: F_GETLK, the status file, permission checks, and the checks of files and lock types in `fcntl` and `flock`.
- `posix_lock_file` waits and wake-ups: a wake-up is a new stretch; the sleep itself, signals and the order in which woken tasks go on are parameters.
- The global list of locks: `posix_locks_deadlock` searches inode by inode in the model; with out-degree one the order does not matter.
- Timers: a timer is found by searching the slots where the source follows its own links; adding a timer that is pending breaks the rules of `add_timer`, and a timer function's call to do so is skipped.
- TimerWheels.TimerWheel.RunTimerList: the clock does not wrap, expiry words do.
- Huft.HuftBuild: a spare code's entry is its number beyond the symbols; what the source puts there instead is `KindOf` it, and where that is unset memory, the model says no more.
- Huft.HuftBuild: the extra bits and base values of a symbol are a function of the symbol and not part of an entry; allocation failure and `huft_free` are left out.
- Huft.RoundTrip: about the tables alone, with as many bits behind the message as the longest code has; the loop with its bit buffer is `Inflates.InflateCodes`.
- Inflates.InflateCodes: it stops where a lookup meets an entry of unset memory, which it says (`Unknown`), and with the end of the input where the source calls `error`; for a copy from before the beginning of the output it does not say which bytes come out.
- Inflate: reading the block headers and the code lengths of dynamic blocks, stored blocks beyond their bytes, gzip headers and the CRC.
- Semaphores: one set, without permissions, set creation and removal, GETALL and the like, and times.
- Kmallocs.Heap.Kmalloc: the small cache of pages is part of where an area comes from; it is filled by the order of the area and drained by that of the block (mm/kmalloc.c:193-202 and 358-362), so areas are not conserved through it.
- Kmallocs.Heap.Kfree: the alignment check of the page's list link; for an address that is not that of a block, only memory whose words do not look like a block in use.
- NameCaches.NameCache.Lookup: the hash is any function of device, directory and name; for an empty name the source reads the byte before it.
- BufferCaches.BufferCache.GetBlk: the step from the last look at the hash queue on; waiting for a locked buffer and finding buffers to reclaim are other steps.
- VmAreas.AddressSpace.Mprotect: page tables, the splitting of Mach mappings beforehand, and reference counts of inodes; the AVL tree is the sorted list.
- VmAreas.AddressSpace.Mlock: a hole is ENOMEM in the source and EFault here; the limits and privileges checked by its callers, and locking of everything.
- Pipes.Pipe.WriteTurn: a write may give up at any time it does not hold the lock; which signals, missing readers or flags make it do so is left out.
- ArgPages.ArgSpace.CopyStrings: user and kernel segments, and the panic for a missing string.
- Everything else: scheduling, the clock, networking, devices, file systems, the Mach interface.
