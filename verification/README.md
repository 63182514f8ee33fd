# OMB, modelled and verified

OMB is a small microkernel with two user-space companions that matter here: proc0, which owns
physical memory, and mkuboot, which turns an ELF kernel into a boot image. This project models
five parts of it in Dafny and proves what a user of each part relies on.

- **Rendezvous and scheduling** (`Ipc`, `IpcInvariant`, `Rendezvous`, `Calls`, `Blocking`,
  `Missed`, `Fairness`, `LostWakeup`, `Starvation`, `WaitLists`, `Kernel`, `ProcNewRace`). `Ipc` is a
  step machine over values: a process table, the process list, the wait queues, and for every process
  the point at which it resumes. A kernel call runs with interrupts masked, so it is one step up to its
  `schedule`; what follows the `schedule` is the next step of that process. `Calls` says what each call
  answers, over runs. `Kernel` is the code itself: static arrays of process
  records and list nodes, pointers as indices, loops that walk pointers. Its methods are proved equal
  to the steps of `Ipc`, so every theorem about runs of `Ipc` is about runs of `Kernel`.
  `ProcNewRace` drops the atomicity and lets any number of callers of `proc_new` interleave at single
  reads and compare-and-swaps, which may also fail spuriously.
- **Page tables and page transfer** (`PageTable`, `Translation`, `AddrTransfer`, `PageConservation`).
  Descriptors are 32-bit words as in section B3.5.1 of the ARM Architecture Reference Manual (DDI
  0406C). The two levels of tables are proved to be a partial map from pages to descriptors, and the
  MMU's walk over them, written down apart, to find what was last mapped.
- **proc0's allocator** (`SectionBook`, `SectionLedger`, `Proc0`, `Board`). Conservation is stated by
  counting: how many of the ranges contain an address.
- **The ELF image writer** (`ImageWriter`, `ElfImage`, `ElfFaithful`, `CopyElf`). Files are byte
  sequences and the checksum is any left fold over bytes.
- **Numbers as text** (`Numbers`, `Printf`).

`Common` holds shared sequence vocabulary. Code that changes state in place is a class or a method
with loops, proved against functions on values; the properties are lemmas about those functions.

The code is modelled as it is. In these places it does not do what it is there for. Each is stated
with its exact condition, the two kinds of starvation with runs of every length, and the board's list of
regions as it stands:

- `vsnprintf` stores its NUL behind the `max` bytes it was given once the text has that many; `debug`
  and `panic` pass the whole size of their buffer: `Printf.OverrunIff`, `Printf.DebugOverrun`.
- `copy_elf` says in a comment that the gap filling makes up for a segment without file bytes in the
  middle; it does not. Nor is the image right when a skipped header comes first:
  `ElfFaithful.FaithfulIff`, `ElfFaithful.MiddleBssExample`.
- `sys_addr_accept` tests another pointer where `space_find`'s answer is meant, so an unmapped source
  page is handed over as frame zero: `PageConservation.ConservedIffClean`,
  `PageConservation.UncleanExample`.
- Nor does it withdraw an offer it has accepted, or look at the flags the pages had:
  `PageConservation.SecondAcceptanceSpoils`, `PageConservation.WriteGainedIff`.
- `flags_from_map` reads the cache flag from the bit in which `l2_map` stores its negation:
  `PageTable.DecodeEncode`.
- `get_io` adds in 32 bits, and a request that wraps can match any section, even an empty one:
  `SectionBook.IoConservedIff`, `SectionBook.IoNilIff`, over runs `SectionLedger.BalancedIffNeverWrong`,
  and `SectionLedger.WrongMatchExample`.
- The kernel lists the registers of GPIO3 a second time where MMCHS0 is meant, so proc0 grants them
  twice: `Board.SameDeviceTwice`.
- `kreply_recv` parks without looking at its queue. A wake-up is lost exactly when it does so with a
  message queued: `Missed.MissesIffSkips`, over runs `Missed.WakeupLostIffSkipped`. It can deadlock:
  `LostWakeup.LostWakeupIsReachable`, `LostWakeup.ReplyRecvAloneDeadlocks`.
- `krecv` for any sender takes the last of its queue, so a sender can be passed over any number of
  times: `Starvation.PassedOverAnyNumber`.
- A reply hands the CPU over directly, and then `schedule` goes on from there, so two processes can
  keep a ready one from ever running: `Starvation.StarvedByHandOff`.
- `proc_new` past MAX_PROCS creations reuses a record in the list, which closes the list into a loop:
  `Kernel.Kernel.ProcNew`, `Kernel.AppendedIff`, under interleaving `ProcNewRace.AlwaysListIff`.
- `strtol` takes letters for digits that are 39 too high: `Numbers.StrtolInvertsPrintint`,
  `Numbers.HexIsNotRead`.

## Model

| member | source | states |
|---|---|---|
| `IpcInvariant.StepKeepsInv` | kern/sys.c:30-125 | every enabled step (tick, user write, send, receive, reply, reply-and-receive, create, resumption) keeps the invariant: q is on p's queue, once, iff q is blocked sending to p; on-CPU iff it is `up`; pool nodes in use count the blocked senders |
| `IpcInvariant.RunKeepsInv` | kern/sys.c:30-125 | so does every run, of any length |
| `IpcInvariant.BootInv` | am335x/kern/main.c:70-86 | the state `kmain` hands to process 0 satisfies it |
| `IpcInvariant.ScheduleSwitches` | kern/proc.c:67-97 | `schedule` moves the CPU to its argument, or for nil to a ready process unless there is none, makes a preempted process ready, and touches nothing else |
| `IpcInvariant.ScheduleKeepsInv` | kern/proc.c:67-97 | `schedule` re-establishes the invariant from the weaker state in which kernel calls reach it |
| `IpcInvariant.PickedSender` | kern/proc.c:238-268 | whichever node `proc_list_remove` takes, it is a process blocked sending to the owner of the list |
| `IpcInvariant.KsendKeepsInv` | kern/sys.c:30-55 | `ksend` in all its branches keeps the invariant, also when sending to itself |
| `IpcInvariant.KrecvKeepsInv` | kern/sys.c:57-80 | a turn of `krecv`'s loop keeps it, whether it blocks or takes a message |
| `IpcInvariant.KreplyKeepsInv` | kern/sys.c:82-101 | `kreply` keeps it, refused or not |
| `IpcInvariant.KreplyRecvKeepsInv` | kern/sys.c:103-125 | `kreply_recv` keeps it although it parks without looking at its queue |
| `IpcInvariant.CreateKeepsInv` | kern/proc.c:166-196 | creating a process keeps it, up to MAX_PROCS creations, which are those that leave a process list (`Kernel.AppendedIff`) |
| `Rendezvous.ProtocolNeverBroken` | kern/sys.c:30-125 | over every run each process's calls follow sent, received, replied, returned, with the right partner and bytes, and the kernel state of the process is that phase |
| `Rendezvous.RendezvousHistory` | kern/sys.c:30-125 | a returned `ksend` is preceded by exactly one send, one receipt of those bytes by its target and one reply of that target, in this order, and the value and message returned are that reply's |
| `Rendezvous.ReplyReachesCaller` | kern/sys.c:53-54 | a caller resuming in `ksend` gets in its register and its page what the reply recorded |
| `Rendezvous.ReplyAcceptedIff` | kern/sys.c:82-124 | over every run a reply is accepted iff the caller received the addressee's current message and has not answered it; a refused one changes nothing but the register with the error |
| `Rendezvous.StepKeepsLog` | kern/sys.c:30-125 | every step keeps record and kernel state in agreement |
| `Missed.MissesIffSkips` | kern/sys.c:103-125 | from a state in which no blocked receiver has a queued message, a step leads to such a state iff it is not an accepted `kreply_recv` by a process with a non-empty queue |
| `Missed.WakeupLostIffSkipped` | kern/sys.c:120-124 | a run from boot never has a blocked receiver with a queued message iff no step of it is such a call |
| `Blocking.PickFirstMatchElseLast` | kern/proc.c:248-256 | the node taken is the first match, and without a match the last node, whatever pid was asked for |
| `Blocking.KrecvGetsMessage` | kern/sys.c:64-79 | with a non-empty queue a turn of `krecv`'s loop does not block: it delivers the sender's bytes and pid, prefers the pid asked for, and disturbs nobody else |
| `Blocking.ReceiverBlocksOnce` | kern/sys.c:64-79 | over every run, a receiver switched to again takes a message at once, so `krecv` blocks at most once per call |
| `Blocking.SendHandsOver` | kern/sys.c:42-51 | a send to a receiver blocked in `krecv`'s own loop switches to it, and its next step delivers exactly that message, whatever pid it asked for |
| `Calls.ReceiveReturns` | kern/sys.c:57-125 | over every run, a `krecv` that has to wait or an accepted `kreply_recv`: when its caller is first on the CPU again, it gets the message of the process it asked for if that one is queued, else of the last in its queue, with nobody else touched |
| `Calls.RecvAtOnce` | kern/sys.c:57-80 | a `krecv` with somebody queued does so in the same step |
| `Calls.StartReceives` | kern/proc.c:143-165 | a new process takes the last message in its queue, answers its sender OK with its own message and hands over to it |
| `Calls.SendReturns` | kern/sys.c:30-55 | over every run, a send to a created process: its caller is first on the CPU again by an answer of that very process, and returns with the value of that answer and the message its answerer had then |
| `Calls.SendToNobody` | kern/sys.c:35-38 | a send to a process never created returns the error and changes nothing else |
| `Calls.SendQueues` | kern/sys.c:40-51 | any other send puts its caller last on the target's queue, blocks it with its page as it was, and switches to the target if that was receiving |
| `Calls.ReplyReturns` | kern/sys.c:82-101 | over every run, an accepted `kreply` returns OK when its caller is on the CPU again, and that return changes nothing else |
| `Calls.StepOthers` | kern/sys.c:30-125 | no step of another process changes where a process goes on, whom it waits for, its register or the message it sends |
| `Calls.CreateReturns` | kern/proc.c:166-196 | creation returns the number of processes there were, the pid of a ready process with no queue and a zeroed page, about to start; nobody else changes |
| `Calls.ReplyHandsOver` | kern/sys.c:82-125 | an accepted `kreply` or `kreply_recv` runs its addressee next, whose `ksend` returns the value and the message given; nobody else changes |
| `Blocking.PoolNeverExhausted` | kern/proc.c:206-236 | over every run nodes in use are as many as blocked senders, at most 512 of 2048, so `ksend`'s allocation succeeds |
| `Blocking.DeadlockHasCulprit` | kern/sys.c:40-51 | if nothing can run while a process is blocked sending, there is a circle of waiting processes, one held by a server that receives, or one queued at a server parked by `kreply_recv` |
| `Blocking.DeadlockWithoutReplyRecv` | kern/sys.c:40-51 | in runs without `kreply_recv` only the first two remain |
| `Blocking.StuckForever` | kern/proc.c:88-97 | once nothing runs, every later tick leaves the whole state as it is |
| `LostWakeup.LostWakeupIsReachable` | kern/sys.c:120-124 | a concrete run reaches a parked receiver with a message in its queue |
| `LostWakeup.ReplyRecvAloneDeadlocks` | kern/sys.c:120-124 | a concrete run deadlocks with neither a circle nor a held process: the third culprit is needed |
| `Starvation.PassedOverAnyNumber` | kern/proc.c:248-256 | for every n a run in which a queued sender stays queued while its receiver takes n messages of others, nothing happening to it |
| `Starvation.StarvedByHandOff` | kern/proc.c:67-97 | for every n a run with n calls of `schedule(nil)` and no creation in which a ready process never gets the CPU, because the others hand it to each other |
| `Fairness.NextProcIsNearest` | kern/proc.c:39-65 | `next_proc` finds a ready process if there is one, and none ready is nearer in the rotation after `up` |
| `Fairness.NextPidIsNearest` | kern/proc.c:39-65 | and in pids: the first ready one going up from the running process and round; nil iff none is ready |
| `Fairness.NilScheduleApproaches` | kern/proc.c:67-97 | each `schedule(nil)` runs a given ready process or strictly shrinks its cyclic distance from `up` |
| `Fairness.BoundedWaiting` | kern/proc.c:39-97 | in any stretch of any run without hand-off or creation, a ready process gets the CPU within as many `schedule(nil)` calls as there are processes |
| `WaitLists.LinkingKeepsLists` | kern/proc.c:206-236 | linking a claimed node at the end of one chain keeps all chains disjoint, nil-terminated and equal to their queues |
| `WaitLists.UnlinkingKeepsLists` | kern/proc.c:238-268 | so does cutting a node out of a chain and freeing it |
| `WaitLists.PoolHasRoom` | kern/proc.c:212-225 | a free node means fewer nodes in use than the pool has |
| `WaitLists.PoolFull` | kern/proc.c:212-225 | no free node means all of them are in use |
| `Kernel.Kernel.ProcListAdd` | kern/proc.c:206-236 | the scan and the pointer-to-pointer walk append to exactly one queue, or change nothing when the pool is full |
| `Kernel.Kernel.ProcListRemove` | kern/proc.c:238-268 | the walk removes the first match, else the last node, and frees exactly that node; nil iff the list is empty |
| `Kernel.Kernel.NextProc` | kern/proc.c:39-65 | the do-while loop over the process list terminates with the first ready process of the rotation, nil iff none |
| `Kernel.Kernel.Schedule` | kern/proc.c:67-97 | equals the machine's switch on the records |
| `Kernel.Kernel.AddToListBack` | kern/proc.c:99-118 | clears the process's link, walks the list as far as it still leads, and links the process behind its last |
| `Kernel.AppendedIff` | kern/proc.c:99-118 | appending a record set up anew leaves a list without repetition iff it was not on the list, and then that list and the record |
| `Kernel.Kernel.ProcNew` | kern/proc.c:166-196 | the cleared record of the next pid joins the list, ready to start; with MAX_PROCS processes there, what the head leads to is no list any more |
| `Kernel.Kernel.Ksend` | kern/sys.c:30-55 | the code on records and nodes is the machine's `ksend` |
| `Kernel.Kernel.Krecv` | kern/sys.c:57-80 | likewise `krecv`'s loop turn, with the reply of `proc_start` |
| `Kernel.Kernel.Kreply` | kern/sys.c:82-101 | likewise `kreply` |
| `Kernel.Kernel.KreplyRecv` | kern/sys.c:103-125 | likewise `kreply_recv` |
| `Kernel.Kernel.Execute` | kern/sys.c:30-125 | any step on the arrays is that step of the machine, and keeps representation and invariant |
| `Kernel.Kernel.Run` | kern/sys.c:30-125 | any run on the arrays ends in the state the machine's run ends in |
| `Kernel.Kernel.constructor` | am335x/kern/main.c:50-86 | booting on zeroed arrays gives the machine's first state |
| `ProcNewRace.RaceKeepsPids` | kern/proc.c:172-177 | under any interleaving and any spurious failures the k-th successful claim owns pid k mod 512 |
| `ProcNewRace.PidsDistinctIff` | kern/proc.c:172-177 | claimed pids are pairwise distinct iff at most MAX_PROCS were claimed |
| `ProcNewRace.AccessKeepsList` | kern/proc.c:99-118 | every single read or CAS keeps the list linked and acyclic and at most appends one finished caller to it |
| `ProcNewRace.AppendIsAtomic` | kern/proc.c:99-118 | under any interleaving each earlier list is a prefix of each later one, and holds each finished caller's process, once, and no other |
| `ProcNewRace.LinkedUnique` | kern/proc.c:99-118 | head and next pointers determine the list |
| `ProcNewRace.OneTooMany` | kern/proc.c:99-118 | for any number of callers above MAX_PROCS and any stale links, an interleaving of their accesses that ends with no list at all |
| `ProcNewRace.AlwaysListIff` | kern/proc.c:99-196 | the process list is a list after every interleaving of n callers iff n is at most MAX_PROCS |
| `PageTable.DecodeEncode` | am335x/kern/mem.c:173-189 | a descriptor is never zero; the frame decodes iff it was aligned; then write permission decodes exactly and the cache flag decodes to its negation |
| `PageTable.DescriptorFields` | am335x/kern/mem.c:173-189 | type, AP, TEX, C and B of the descriptor, and nothing in the other attribute bits |
| `PageTable.StoreInView` | am335x/kern/mem.c:191-228 | a store into a second-level table changes the mapping of one page and of no other |
| `PageTable.StaysApart` | am335x/kern/mem.c:191-228 | giving a slot a fresh table keeps two address spaces from sharing one |
| `PageTable.Mmu.SpaceMap` | am335x/kern/mem.c:191-228 | maps exactly that page with the encoded descriptor, or fails and changes nothing iff it needed a table and got nil |
| `PageTable.Mmu.SpaceFind` | am335x/kern/mem.c:246-260 | the frame mapped at the page, nil iff none, and the flags where there is a table |
| `PageTable.Mmu.SpaceUnmap` | am335x/kern/mem.c:262-272 | unmaps exactly that page |
| `PageTable.Mmu.Execute` | am335x/kern/mem.c:191-272 | any sequence of maps and unmaps on one space: which of them fail, exactly, and the mapping they leave; other spaces unchanged |
| `PageTable.FindReturnsLastMapped` | am335x/kern/mem.c:191-272 | after any sequence of maps, failing ones included, and unmaps `space_find` answers the frame last mapped there, nil if never or since unmapped |
| `PageTable.OtherPagesUntouched` | am335x/kern/mem.c:191-272 | pages an operation sequence does not name keep their mapping, shared table or not |
| `Translation.WalkReadsDescriptor` | am335x/kern/mem.c:36-37 | the MMU's walk by the architecture's rules reads the second-level word the tables hold for the page |
| `Translation.AccessReachesLastMapped` | am335x/kern/mem.c:173-272 | after any maps and unmaps on a new space, failing ones included, an access goes to the frame last mapped at its page, at its offset, with user writes iff the write flag, cacheable iff the cache flag and device memory else; it faults iff there is none |
| `AddrTransfer.SysAddrOffer` | kern/sys.c:226-242 | the offer replaces the caller's previous one |
| `AddrTransfer.AgreedTests` | kern/sys.c:271-301 | the acceptance tests pass iff the offer names the caller, lengths agree, and the flags differ in the take bit only |
| `AddrTransfer.SysAddrAccept` | kern/sys.c:254-325 | refused iff not agreed, changing nothing; else pages go from the giving to the taking side: those before the first page whose slot lacks a table for which no page can be had, all of them and OK iff there is none |
| `AddrTransfer.MovePages` | kern/sys.c:309-322 | the page loop moves exactly the pages before the first lacking one, also when both sides are one space |
| `AddrTransfer.AllTablesThere` | kern/sys.c:244-252 | when get_page always answers nil, nothing is lacking iff every slot of the target range has a table |
| `AddrTransfer.MovedPagesAre` | kern/sys.c:309-322 | between different spaces: giver without the range, taker with it, everybody else unchanged |
| `PageConservation.AcceptedPagesGo` | kern/sys.c:281-322 | between two processes: with the take bit in its flags the accepting process has the frames offered, page by page, and the offering one no longer; without it the other way round |
| `PageConservation.PagesMove` | kern/sys.c:309-322 | each page ends at its matching target address and nowhere in the source range |
| `PageConservation.CleanTransferConserves` | kern/sys.c:309-322 | a clean transfer, between two spaces or within one: no frame lost, none invented, none mapped twice in any space |
| `PageConservation.UnmappedSourceMapsZero` | kern/sys.c:311-318 | an unmapped source page becomes a mapping of frame zero |
| `PageConservation.OverwrittenIsLost` | am335x/kern/mem.c:220-228 | a frame mapped in the target range is mapped nowhere afterwards |
| `PageConservation.ConservedIffClean` | kern/sys.c:309-322 | the set of mapped frames is unchanged iff the transfer is clean: source mapped and target free, within one space as far as earlier turns have not filled or freed them |
| `PageConservation.UncleanExample` | kern/sys.c:311-318 | a one-page transfer of an unmapped page that ends with frame zero mapped |
| `PageConservation.SecondAcceptanceSpoils` | kern/sys.c:254-325 | after a clean acceptance between two spaces, accepting again from the same source or to the same target, as the offer that stands allows, never conserves frames |
| `PageConservation.WriteGainedIff` | kern/sys.c:309-322 | the taker may write a page the giver could not iff the transfer's flags ask for writing and some page of the range was not writable |
| `SectionBook.GetRamFirstFit` | am335x/proc0/main.c:57-66 | nil iff no section is long enough; else the tail of the first that is, the others untouched |
| `SectionBook.GetRamHeld` | am335x/proc0/main.c:50-67 | `get_ram` removes exactly what it returns from the RAM book |
| `SectionBook.AddrAddHeld` | am335x/proc0/main.c:69-102 | `addr_add` adds exactly its range, or nothing iff no slot and no page; a page taken for a new holder stays in the books |
| `SectionBook.GetIoHeld` | am335x/proc0/main.c:104-130 | unless its sum wraps into a match, `get_io` removes exactly what it hands out, and its tail only if there was no room for it |
| `SectionBook.IoConservedIff` | am335x/proc0/main.c:104-130 | conservation holds for exactly the calls whose sum does not wrap into a match |
| `SectionBook.IoNilIff` | am335x/proc0/main.c:104-130 | for the same calls, and only those, nil is answered iff no single section contains the request |
| `SectionBook.GetIoRamHeld` | am335x/proc0/main.c:104-130 | `get_io` leaves the RAM book balanced even when it takes a page for a holder |
| `SectionLedger.ListedIsPrefix` | am335x/proc0/main.c:138-141 | the regions read are those before the first at nil, or all |
| `SectionLedger.InitBalanced` | am335x/proc0/main.c:132-184 | initialisation accounts for every address of the regions, holders included, and for nothing else |
| `SectionLedger.ServeAllBalanced` | am335x/proc0/main.c:213-241 | so does every sequence of requests after it in which none wraps into a match when its turn comes |
| `SectionLedger.BalancedIffNeverWrong` | am335x/proc0/main.c:104-241 | any sequence of requests with 32-bit addresses ends with every address accounted for iff none of them wrapped into a match when its turn came |
| `SectionLedger.WrongMatchExample` | am335x/proc0/main.c:114-115 | started on one megabyte of RAM, proc0 grants the last page of the address space, which nobody listed |
| `SectionLedger.NothingLostOrInvented` | am335x/proc0/main.c:50-241 | over any run without a wrong match free, handed out, dropped and holder ranges together cover each address as often as the regions do |
| `SectionLedger.NothingOverlaps` | am335x/proc0/main.c:50-241 | disjoint regions: over any such run all those ranges stay pairwise disjoint |
| `SectionLedger.HandedOutIsListed` | am335x/proc0/main.c:213-241 | over any such run RAM handed out lies in RAM regions, I/O in I/O regions |
| `SectionLedger.PageAlignCovers` | am335x/include/mach.h:35-35 | rounding up gives the least whole number of pages that covers the length; it gives zero iff the length is zero or above 2^32 less a page |
| `SectionLedger.ServeAnswers` | am335x/proc0/main.c:213-241 | what a request gets: nothing for those lengths; else as many whole pages as cover it, from RAM iff a section is long enough, or of I/O at the address asked for iff one section contains them all; entered in the ledger of that kind |
| `Board.SameDeviceTwice` | am335x/kern/mem.c:130-139 | whatever RAM the linker leaves: booted on the kernel's list, which is not disjoint, proc0 grants the registers of GPIO3 to a first and to a second request |
| `SectionLedger.RamStaysPaged` | am335x/proc0/main.c:213-241 | page-aligned RAM regions give page-aligned results, sections and holders in any run |
| `Proc0.Allocator.GetRam` | am335x/proc0/main.c:50-67 | the nested loops find the first section that fits and cut its tail off |
| `Proc0.Allocator.AddrAdd` | am335x/proc0/main.c:69-102 | the holder walk fills the first empty slot or grows the list by a page it gets from itself |
| `Proc0.Allocator.GetIo` | am335x/proc0/main.c:104-130 | first match, tail split off before the section is cut, in 32-bit arithmetic |
| `Proc0.Allocator.InitRamSections` | am335x/proc0/main.c:132-156 | stops at the first nil region and puts the first holder into the first RAM region |
| `Proc0.Allocator.InitIoSections` | am335x/proc0/main.c:158-177 | the first holder comes from `get_ram`, then the I/O regions |
| `Proc0.Allocator.constructor` | am335x/proc0/main.c:179-184 | after initialisation both lists stand and the ledger balances |
| `Proc0.Allocator.HandleAddrRequest` | am335x/proc0/main.c:213-241 | hands to `addr_accept`, with its flags, a range taken from the books that covers the request by less than a page more, whole pages, of I/O at the address asked for; ERR iff it hands over nothing, for length zero, one that cannot be rounded up, or want of room; else that call's answer |
| `Proc0.GrantFlags` | am335x/proc0/main.c:227-234 | what proc0 hands over is readable, writable, given, and cached iff it is RAM |
| `ImageWriter.ChecksumConcat` | tools/mkuboot/mkuboot.c:318-318 | checksumming in pieces is checksumming the whole |
| `ImageWriter.ChecksumFirst` | tools/mkuboot/mkuboot.c:318-318 | the checksum takes each byte once, the first one first |
| `ImageWriter.Image.CopyData` | tools/mkuboot/mkuboot.c:304-324 | in chunks of any size appends exactly those bytes with size and checksum kept, and fails iff the file is too short |
| `ImageWriter.Image.CopyMem` | tools/mkuboot/mkuboot.c:326-344 | likewise from memory |
| `ImageWriter.Image.FillZeroes` | tools/mkuboot/mkuboot.c:346-365 | likewise for zeroes |
| `ElfImage.PassesAgreeOnSections` | tools/mkuboot/copy_elf.c:104-123 | a section of type 2 or 3 stands in the block with its file bytes at the offset its emitted header gives, which is else unchanged; the emitted header of any other type is unchanged |
| `ElfImage.BlockHeaderAt` | tools/mkuboot/copy_elf.c:254-259 | the emitted header points at the emitted section headers: each rewritten one stands at its place |
| `ElfImage.BlockStarts` | tools/mkuboot/copy_elf.c:254-258 | the block starts with the file's ELF header without program headers, and with section headers right behind it |
| `CopyElf.OutputIs` | tools/mkuboot/copy_elf.c:247-252 | the block follows the segments iff there is a section of type 2 |
| `ElfImage.EsymIsFirstData` | tools/mkuboot/copy_elf.c:105-107 | the patched address is that of the first section with both flag bits, write and allocate, that has one |
| `ElfImage.PassesAgreeOnEnd` | tools/mkuboot/copy_elf.c:238-288 | the emit pass ends at the address patched in iff the last segment ends on a whole word |
| `ElfImage.SegmentFaithful` | tools/mkuboot/copy_elf.c:176-229 | a segment's bytes are its file bytes, with the patched word in place, then zeroes |
| `ElfImage.BodyLength` | tools/mkuboot/copy_elf.c:129-245 | the image is short of memory by exactly the memory of segments without file bytes that are not last |
| `ElfFaithful.FaithfulIff` | tools/mkuboot/copy_elf.c:129-245 | any headers, image and symbols below 2^31 bytes: faithful iff the first header is a segment and no segment but the last has memory without file bytes |
| `ElfFaithful.MiddleBssExample` | tools/mkuboot/copy_elf.c:230-235 | three segments, the middle one without file bytes: eight bytes come out for twelve |
| `ElfImage.LateStartIsPadded` | tools/mkuboot/copy_elf.c:163-174 | if the first header is not a segment, the image starts with a gap counted from the end of the symbols |
| `CopyElf.Layout` | tools/mkuboot/copy_elf.c:79-124 | the first pass computes the layout functions |
| `CopyElf.CopySegments` | tools/mkuboot/copy_elf.c:129-245 | the second pass writes the image body, and gives up iff a read or a segment type is bad |
| `CopyElf.CopySymbols` | tools/mkuboot/copy_elf.c:263-284 | the symbol sections, padded, with the address counted past them |
| `CopyElf.Run` | tools/mkuboot/copy_elf.c:48-291 | all of it: what is written, when it fails, and that the mismatch warning appears iff symbols are present and the image does not end on a whole word |
| `Numbers.ScratchSuffices` | lib/libstring/string.c:99-112 | no 32-bit value has more than 32 digits in any base from two up |
| `Numbers.ValueOfDigits` | lib/libstring/conv.c:50-54 | read back in the same base, each letter digit counts 39 too much at its place |
| `Numbers.DigitsIff` | lib/libstring/string.c:99-120 | what `printint` writes is the numeral of the number, digits below the base without leading zeroes, and the only one |
| `Numbers.StrtolReads` | lib/libstring/conv.c:33-61 | any string: leading spaces, a sign or none, the word up to the next space, and nothing of the rest |
| `Numbers.StrtolInvertsPrintint` | lib/libstring/conv.c:33-61 | below 2^31 and for bases to 36, `strtol` inverts `printint` iff all digits are below ten, wrap-around included |
| `Numbers.RoundTrip` | lib/libstring/conv.c:33-61 | so always for bases two to ten |
| `Numbers.HexIsNotRead` | lib/libstring/conv.c:50-54 | "a" in base sixteen reads as forty-nine |
| `Numbers.SignedRoundTrip` | lib/libstring/string.c:141-154 | `strtol` reads back every int that `%i` prints |
| `Printf.FillScratch` | lib/libstring/string.c:106-112 | the digit loop stays inside the 32-byte buffer and leaves the digits reversed |
| `Printf.PrintInt` | lib/libstring/string.c:99-120 | writes the first `max` digits and nothing else |
| `Printf.Vsnprintf` | lib/libstring/string.c:121-189 | in any buffer with a place for the NUL: the first `max` characters of the full text, a NUL after them, and everything else as it was |
| `Printf.OverrunIff` | lib/libstring/string.c:187-188 | the byte behind a buffer of `max` bytes survives iff the text is shorter than `max` |
| `Printf.DebugOverrun` | am335x/kern/uart.c:54-70 | `debug`'s 128-byte buffer and a string of 128 characters: the byte behind it becomes NUL |
| `Printf.StrtolRun` | lib/libstring/conv.c:33-61 | the loops, wrapping at each step, compute the wrapped value of the first word |
| `Printf.DirectivesMean` | lib/libstring/string.c:131-184 | every directive: %u, %h, %b the numeral in base 10, 16, 2, %i with its sign, %c and %s their argument, nil as "(null)", %% a percent sign, any other nothing |
| `Printf.RenderConcat` | lib/libstring/string.c:121-189 | a format followed by another prints the two texts one after the other, each with its own arguments |
| `Printf.FormatRoundTrip` | lib/libstring/conv.c:33-61 | what `%i`, `%u` and `%b` print is read back as the same number |

## Left out

- Preemption inside kernel code: `proc_start` runs with interrupts on (am335x/kern/proc.c:38), so its
  receive could be preempted; here every kernel call is atomic between its `schedule` points.
- Concurrent removal from a list: `proc_list_remove` and the unused `remove_from_list` read a next
  pointer before their CAS. Removal is proved as it runs with interrupts masked.
- The `sys_` wrappers around the calls: they turn processes into pids, and the register of a process
  holds what they return.
- `find_proc` with a pid out of range: it indexes the table unchecked, so pids are in range here.
- CreateKeepsInv: creations past MAX_PROCS are not steps of the machine, because they overwrite a live
  process and leave no process list to state the machine over; what they leave on the records is
  stated in `Kernel.Kernel.ProcNew`, `Kernel.AppendedIff` and `ProcNewRace.AlwaysListIff`.
- Contexts and stacks (`set_label`, `goto_label`, `drop_to_user`), vectors, timers, interrupts, UART:
  they appear only as resume points and as a tick that schedules.
- `PROC_enter`, `PROC_recving`, process death and rejected offers: declared, never entered.
- Process pages shared through mappings: each process page is private.
- Pointers to records and nodes are indices into the static arrays they point into.
- First-level and second-level tables are words by physical address; `imap`, the device table, cache
  and TLB maintenance, and `sys_proc_create`'s page handling are not modelled.
- Virtual addresses from 0x40000000 up: the first-level array has 1024 entries, and addresses beyond
  them index past it.
- `get_page` is the sequence of its answers, each nil or an unused aligned page; the shipped one always
  answers nil.
- Numbers.StrtolInvertsPrintint: bases above 36 are left out, where `printint` leaves the letters.
- Signed overflow in `strtol` is taken to wrap; in C it is undefined from 2^31 up.
- `init_procs` is three page-sized RAM requests per process. What `addr_accept` answers is a parameter;
  memory taken for an acceptance that fails counts as handed out.
- An allocator without any RAM region, or without a page for the first I/O holder, writes through nil;
  the regions must provide both.
- ELF files are given as parsed headers: byte order, `is_elf`, `copy_raw`, scripts, option parsing,
  file descriptors and the image header itself are not modelled; encoders of records are parameters
  of fixed length. Write errors are not modelled.
- `%` at the very end of a format: the code reads past it, so formats must not end there.
- `vsscanf`, `strtok`, `strlcpy`, string comparison, `memcpy` and `memset`.
