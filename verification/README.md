# A verified model of the hypervisor and its boot loader

A bare-metal Arm hypervisor runs up to N guests on one core: each guest has a vCPU, its own stage-2 page tables, a
virtual interrupt controller, a virtual timer and an emulated UART. A small boot loader brings the hypervisor's
image over a serial line. This project models both in Dafny and proves what they are meant to guarantee.

Code that changes things in place is modelled in place: page tables are one array of descriptors, vCPUs, VMs, the
scheduler, the emulated UARTs, the serial ports and the CPU's registers are objects, and the handlers are methods. Each
such method is proved against a function on values, and the theorems over whole runs are about those functions. The
number of guests and the size of the table pools are arbitrary.

| files | what they hold |
|---|---|
| Bits, Descriptors | C's `&`, `\|`, `<<`, `>>` on naturals, and the long-descriptor fields |
| PageTable, PageTableSteps, TableCount, PageRuns, Stage2 | the tables: a tree over one array that refines a finite map |
| Regions, Vm, Mmu, Tlb, Coherence | the region policy, building and changing the tables, VTTBR, the hardware walk, TLB coherence |
| Cpu, Vcpu, Virq, Timers | live registers, one vCPU, its interrupts, many timers on one one-shot |
| SchedulerSpec, Scheduler, Rescheduling | the scheduler as functions, as a class, and what its decisions keep |
| Handlers, Exceptions, Steps | every trap as a function, as a method, and the invariant |
| Traps, TrapEffects | the kinds of trap, and what each does, told from the trap's own fields |
| Runs, Fairness, Wakeup, Deadlines, Interrupts, Aborts | theorems over whole runs |
| GuestSpace, Isolation | the guests' address spaces, the boot sequence, and physical memory over whole runs |
| Vuart, Mmio | the emulated UART and the emulation of a trapped access |
| BootCrc, BootWire, BootPi, BootHost, BootTransfer | the boot protocol: CRC, words and opcodes, both programs, and the two together |

## The main results

- **Tables.** Allocated pool pages always form a three-level tree with one parent entry per page. The tables refine a
  finite map; mapping adds exactly a prefix of the asked-for pages, unmapping removes exactly one page, exhaustion of
  the pool is reported exactly when the missing tables do not fit, and a hardware walk sees the same map, attributes
  included. No sequence of calls maps what a VM's regions do not allow.
- **Isolation.** Over any run of traps with any guest execution between them, a vCPU resumes with the registers of its
  own last trap as its handler left them; while a guest runs, stage 2 is on and the hardware lets exactly the
  accesses to its window through, into that guest's own slot of physical memory. Guest stores change no tables and no other guest's slot.
- **Scheduling.** Exactly one vCPU runs, HCR.VI, TWI and VM fit it, the idle vCPU runs only if no guest is runnable, and a
  runnable guest runs within N ticks, yields or waits. Which traps halt, which ask the scheduler and what it answers is told
  from the trap's fields alone.
- **Timers.** The one-shot always serves the earliest deadline, never early and under one tick late; a blocked guest is
  woken by exactly the first timer interrupt at or past its deadline, under an exact condition; far deadlines are reached
  after finitely many interrupts, however many timers share the one-shot, and none is slept through by more than a tick.
- **Devices.** Emulated registers hold what their own VM last stored, over any interleaving of all VMs; an abort resumes
  after exactly one instruction or stops its guest, on an exact condition on the fault registers.
- **Boot.** Host success means the image is in the Pi's memory and nothing else was written, over every interleaving; the
  collision check's and the deadlock's exact conditions.

## What the code does not do

- A delay taken while VIRQ_TIMER is pending or active, or a WFI while it is active, blocks the guest for ever: delivery
  then takes the BUSY branch, which does not wake (src/arch/hyp-exceptions.c:136-140). `Wakeup.WokenExactly`
  and `Wakeup.BlocksSafelyIff` give the exact condition, and `Wakeup.LostWakeupAtBoot` builds a run.
- A guest load of the UART's data register into r13 or r15 is refused only after the driver took a received byte, which is
  lost (src/hv/mmio.c:158-175). `Mmio.ByteLostIff` gives the exact condition and `Mmio.LoadIntoR13LosesByte`
  a syndrome.
- The boot loader's collision check adds in 32 bits, so an image whose end wraps past zero can overwrite the loader.
  `BootPi.AcceptedIsSafeIff` gives the exact condition and `BootPi.WrapOverwrites` an image.
- Any byte in the Pi's receive buffer ends its beacon, so a host that is not in step yet can wait for ever.
  `BootTransfer.DeadlocksIff` gives the exact condition on what is on the line beforehand, `BootTransfer.JunkDeadlocks` an
  example.
- docs/presentation-diagrams.md:101-102 says a context switch needs no TLB flush because entries carry VMIDs; the code
  flushes (src/hv/mmu.c:34). The model follows the code, and `Tlb.SwitchWithoutFlushIsStale` shows why it has to.

## Assumptions

- The idle vCPU makes no hypercall: it runs two instructions, WFI and a branch (src/hv/idle-vcpu.S:6-8).
- Guests change only their own registers between traps; what the assembly entry and exit save and restore is the frame,
  the banked registers and VBAR that src/hv/vcpu.c moves.
- For physical isolation: the linker keeps the table pools outside the guests' slots, the hypervisor stores neither into
  the pools after boot nor into the slots, and the idle vCPU makes no stores.
- For deadlines: the clock does not run backwards, and a timer interrupt comes no sooner than it was armed for; for the
  wake latency also that the interrupt is taken within a given slack, before any other trap.
- HCR.VI is clear at boot, and N is small enough for the slots to fit below 4 GB.
- For the boot protocol: the serial line loses and changes nothing, the junk before the opcode does not contain it, and what the
  host missed is part of the beacon. The Pi echoes the CRC without computing it, so delivery rests on the line. An
  accepted image does not overwrite the running bootloader, which is so for every accepted image below 2^32.

## Model

| member | source | states |
|---|---|---|
| Descriptors.IndexFields | src/hv/stage2.c:14-16 | the three table indices of an address are the digits of its page number |
| Descriptors.TableDescRoundTrip | src/hv/stage2.c:99-100 | a table descriptor gives back the table address it was made from |
| Descriptors.PageDescRoundTrip | src/hv/stage2.c:172-174 | no attribute bits, however chosen, change the address or type of a page descriptor |
| Descriptors.PageDescBits | src/hv/stage2.c:172-174 | bit by bit: bits 1:0 of a page descriptor are set, bits 39:12 are those of the physical address, and every other bit is that of the attributes asked for |
| Descriptors.LeafOfPageDesc | src/hv/stage2.c:172-174 | so a page descriptor gives back exactly the address and the attributes it was made from |
| Descriptors.LeafBits | src/hv/stage2.c:172-174 | the attributes a mapped page has, bit by bit |
| PageTable.DescToTableRoundTrip | src/hv/stage2.c:65-81 | a descriptor made for a pool page is decoded to that page |
| PageTable.WalkInTree | src/hv/stage2.c:105-120 | a walk stays among allocated pages, and each page it meets has exactly the entry it came from as its parent |
| PageTable.WalkInjective | src/hv/stage2.c:105-120 | two page numbers never share a page descriptor |
| PageTableSteps.FillAddsPage | src/hv/stage2.c:172-174 | writing one leaf entry adds exactly one page to the map, with the address and attributes the entry has, and keeps the tree |
| PageTableSteps.ClearRemovesPage | src/hv/stage2.c:233-236 | clearing one leaf entry removes exactly one page, keeps the tree and every table |
| PageTableSteps.LinkKeepsTree | src/hv/stage2.c:93-101 | hanging a fresh page under an empty entry keeps the one-parent tree |
| PageTableSteps.HangStep | src/hv/stage2.c:53-62 | clearing a page and hanging it changes no translation, and opens exactly the walks through that entry |
| PageTableSteps.EmptyTree | src/hv/stage2.c:141-160 | cleared tables are a tree that maps nothing |
| TableCount.ExactAllocation | src/hv/stage2.c:53-62 | pool_used is 1 + the valid level 1 entries + the valid level 2 entries |
| TableCount.BlocksSuffice | src/hv/stage2.c:84-102 | a run of pages never needs more tables than the 1 GB and 2 MB blocks it touches |
| PageRuns.RunFailure | src/hv/stage2.c:205-213 | what page k of a run meets is told by the tables before the run |
| PageRuns.RunSuccess | src/hv/stage2.c:205-213 | one more page of a run: exactly that page is added and exactly the tables it lacked |
| Stage2.HvStage2.AllocTable | src/hv/stage2.c:53-62 | the next pool page, cleared, or failure exactly if the pool is used up |
| Stage2.HvStage2.HangTable | src/hv/stage2.c:93-101 | a new table under an empty entry; no translation changes |
| Stage2.HvStage2.NextTable | src/hv/stage2.c:84-102 | the table under an entry, new only if there was none, failing only if the pool is full |
| Stage2.HvStage2.WalkL3 | src/hv/stage2.c:105-120 | the walk without allocation finds the descriptor the map is defined by |
| Stage2.HvStage2.WalkL3Alloc | src/hv/stage2.c:105-120 | the walk with allocation adds exactly the missing tables; it fails only if they do not fit |
| Stage2.HvStage2.FillPage | src/hv/stage2.c:163-175 | a page is written exactly if it was unmapped, the map gains only it, with the attributes asked for, and every bit of its descriptor is pinned |
| Stage2.HvStage2.MapPage | src/hv/stage2.c:162-176 | MAPPED iff mapped before; NO_TABLES iff the missing tables exceed the pool; on OK the map gains exactly one page with the attributes asked for, and every other page keeps its own |
| Stage2.HvStage2.ClearPage | src/hv/stage2.c:233-236 | the map loses exactly one page; no table comes or goes |
| Stage2.HvStage2.Translate | src/hv/stage2.c:246-259 | OK with the mapped address plus the page offset iff the page is mapped; the error codes otherwise |
| Stage2.HvStage2.Init | src/hv/stage2.c:141-160 | slot id of the pools becomes an empty tree with every descriptor invalid; nothing of another slot is written |
| Regions.OverlapMeansShared | src/hv/vm.c:56-61 | two regions overlap exactly if they share an address |
| Regions.RegionValidIff | src/hv/vm.c:20-54 | a region is valid iff it is whole pages that end by 4 GB, in physical memory too if it is RAM, and it has a device if it is for one |
| Regions.OneRegion | src/hv/vm.c:83-101 | an address is in at most one region of an accepted table |
| Regions.RegionByPage | src/hv/vm.c:20-54 | page offsets never decide which region an address is in |
| Regions.FindByPage | src/hv/vm.c:103-115 | the region found for an address is the one found for its page |
| Regions.PolicyMapAt | src/hv/vm.c:117-140 | the policy maps an address iff a RAM region contains it, at that region's offset and with that region's attributes |
| Regions.PolicyDisjoint | src/hv/vm.c:117-140 | no two RAM regions ask for the same page |
| Vm.RunFitsIff | src/hv/stage2.c:178-219 | mapping a run of unmapped pages succeeds iff the pool has room for exactly the tables it lacks |
| TableCount.LackingCounts | src/hv/stage2.c:84-102 | the tables a run needs are exactly the 1 GB and 2 MB blocks it touches that have none |
| Vm.BuildFitsIff | src/hv/vm.c:117-140 | a build of unmapped regions succeeds iff the pool has room for exactly the blocks its RAM regions lack, each counted once |
| Vm.BlocksBoundLacking | src/hv/vm.c:117-140 | that is never more than the blocks counted region by region |
| Vm.BuiltTranslation | src/hv/vm.c:117-140 | after a successful build every address translates iff one RAM region contains it, at that region's offset and with its attributes; guards, devices and unlisted addresses do not |
| Vm.StoresMap | src/hv/stage2.c:205-218 | the stores of a mapping, applied in order to what a root table translates, add exactly the run of pages and touch no other root |
| Vm.UnmapStores | src/hv/stage2.c:233-241 | the store of an unmapping takes exactly its page from its own root |
| Vm.HvVm.Init | src/hv/vm.c:63-81 | an empty VM over its own slot, or INVAL and nothing changed |
| Vm.HvVm.AddRegion | src/hv/vm.c:83-101 | accepted exactly if valid, not one too many and sharing no address with an earlier region |
| Vm.HvVm.FindRegion | src/hv/vm.c:103-115 | the first region that contains the address |
| Vm.HvVm.CheckMapArgs | src/hv/stage2.c:182-202 | the verdict of the argument checks, in their order |
| Vm.MapCheckIs | src/hv/stage2.c:182-202 | a mapping is let through iff it is whole pages that one RAM region has, at the place that region has them; INVAL iff something is not whole pages, empty or wraps 64 bits |
| Vm.WithinRun | src/hv/stage2.c:178-219 | a prefix of an accepted mapping adds no page that the regions do not allow, which is part of what every VM call keeps (HvVm.Valid) |
| Vm.HvVm.MapNext | src/hv/stage2.c:205-207 | one page of the loop, with the reason if it fails |
| Vm.HvVm.MapPages | src/hv/stage2.c:205-213 | a prefix of the run is mapped, all of it on OK; no translation that existed changes |
| Vm.HvVm.MapRegion | src/hv/stage2.c:178-219 | checks, then exactly a prefix of the pages with the attributes given, then a flush; why it stopped is stated truthfully, and nothing the regions do not allow is ever mapped |
| Vm.HvVm.UnmapPage | src/hv/stage2.c:221-242 | exactly one page leaves the map, no table changes, that page is invalidated, and what is left is still allowed by the regions |
| Vm.HvVm.BuildStage2 | src/hv/vm.c:117-140 | the tables come to hold what the policy asks for, attributes included, at the cost of exactly the tables it lacked, or a prefix of it; NO_TABLES only if they do not fit |
| Vm.MapUnmapMap | src/hv/stage2.c:178-242 | mapping and unmapping a page restores the map, and the page can then be mapped again without fail |
| Mmu.VttbrFields | src/hv/mmu.c:8-12 | the root table and the low 8 VMID bits come back out of VTTBR |
| Mmu.HardwareAgrees | src/hv/mmu.c:8-12 | with VTTBR set for a VM, a hardware walk that trusts every table address finds exactly that VM's map, attributes included |
| Mmu.DeactivateStage2 | src/hv/mmu.c:14-19 | HCR.VM is cleared and the TLB flushed, in that order |
| Mmu.ActivateVcpu | src/hv/mmu.c:21-40 | VTCR and VTTBR are the VM's, and the TLB is flushed before HCR.VM is set |
| Tlb.AlwaysCoherent | src/hv/stage2.c:204-218 | for any TLB that may cache any current translation at any time, every entry the guest can hit agrees with the active tables after any sequence of whole maps, unmaps and switches |
| Coherence.MapOne | src/hv/stage2.c:178-219 | a map call on any VM keeps the log's tables equal to every VM's descriptors |
| Coherence.UnmapOne | src/hv/stage2.c:221-242 | so does an unmap call |
| Coherence.SwitchOne | src/hv/mmu.c:14-40 | so does a switch |
| Coherence.MakeCalls | src/hv/stage2.c:178-242 | so does any sequence of calls on any VMs, successful or not; the log is whole calls, and no VM ever maps what its regions do not allow |
| Coherence.EntriesAgree | src/hv/mmu.c:21-40 | at its end, whatever the hardware cached in between, every entry the current guest can hit agrees with the descriptors in memory, in address and attributes, and leads to a page its regions allow |
| Tlb.UnmapKeepsCoherent | src/hv/stage2.c:232-241 | invalidating one page is enough after unmapping it |
| Tlb.ActivateMakesCoherent | src/hv/mmu.c:21-40 | a switch makes any TLB coherent, whatever it held |
| Tlb.SwitchWithoutFlushIsStale | src/hv/mmu.c:33-36 | VMID tags alone would not do: without the flush a page unmapped in an inactive VM is still hit |
| Cpu.FlagsIndependent | src/hv/scheduler.c:20-26 | setting or clearing HCR.VM, VI, TWI or IMO leaves the other three alone |
| Cpu.FlagsAreBits | include/arch/hyp-regs.h:41-47 | the four flags are bits 0, 7, 13 and 4 of HCR |
| Cpu.AdvancedIsNext | src/arch/hyp-exceptions.c:261-264 | a trapped instruction is retired by moving elr 4 bytes on if bit 25 of the syndrome is set and 2 if not, modulo 2^32, and changing no other register |
| Cpu.HsrDigits | include/arch/hyp-regs.h:3-15 | exception class, instruction length and ISS are digits of the syndrome |
| Vcpu.NextDeadlineWindow | src/hv/vcpu.c:84-86 | an expired deadline moves by a whole number of periods into (now, now + period] |
| Vcpu.FrequencyIs | src/hv/vcpu.c:100-106 | the frequency f a guest with period p is told satisfies f * p <= 1000000 < (f + 1) * p; it is 0 without an enabled timer |
| Vcpu.HvVcpu.Init | src/hv/vcpu.c:8-27 | everything but the VM is reset |
| Vcpu.HvVcpu.Wake | src/hv/vcpu.c:40-44 | BLOCKED becomes RUNNABLE, any other state stays |
| Vcpu.HvVcpu.TimerStartPeriodic | src/hv/vcpu.c:47-55 | first deadline one period from now; a zero period is ignored |
| Vcpu.HvVcpu.TimerAdvance | src/hv/vcpu.c:73-87 | the loop ends, without ever holding a deadline past now + period, at the next deadline; a one-shot timer goes off |
| Vcpu.HvVcpu.TimerDelay | src/hv/vcpu.c:89-98 | deadline in the given ticks and BLOCKED; the period is kept |
| Vcpu.HvVcpu.Save | src/hv/vcpu.c:119-124 | frame, banked registers and VBAR go into the context |
| Vcpu.HvVcpu.Load | src/hv/vcpu.c:127-132 | frame, banked registers and VBAR come back from it |
| Virq.ClaimTakesLowest | src/hv/virq.c:61-82 | a claim moves the lowest pending line to active, and finds none exactly if the bitmap is zero |
| Virq.LinesAreBits | src/hv/virq.c:21-35 | line i is pending or active exactly if bit i of its bitmap is set |
| Virq.RaiseIs | src/hv/virq.c:47-58 | busy iff bit i is set in either bitmap, invalid iff out of range; otherwise exactly bit i becomes pending and a blocked vCPU runnable |
| Virq.CompleteIs | src/hv/virq.c:84-93 | completed iff bit i is active, and then exactly that bit is cleared; invalid iff out of range |
| Virq.SetLines | src/hv/virq.c:55 | setting a bit adds exactly one line |
| Virq.ClearLines | src/hv/virq.c:73 | clearing a bit removes exactly one line |
| Virq.Conservation | src/hv/virq.c:47-93 | over any run: raised = claimed + pending, claimed = completed + active, and pending and active stay disjoint |
| Virq.Raise | src/hv/virq.c:47-58 | busy, invalid, or the line becomes pending and a blocked vCPU runnable |
| Virq.Claim | src/hv/virq.c:61-82 | the scan finds the lowest pending line |
| Virq.Complete | src/hv/virq.c:84-93 | only an active line is completed |
| Virq.Sync | src/hv/virq.c:37-44 | HCR.VI follows the pending bitmap |
| Timers.ArmUsec | src/drivers/timer.c:33-55 | the one-shot is armed with the clamped tick count |
| Timers.TicksBound | src/drivers/timer.c:33-41 | never early and under one tick late, exactly up to the maximum delta; within the 23-bit counter |
| Timers.EarliestIsMin | src/hv/scheduler.c:264-282 | the scan finds the earliest enabled deadline of the eligible guests, none iff there is none |
| Timers.RearmBound | src/hv/scheduler.c:264-296 | disarmed iff no eligible timer; otherwise armed for the earliest deadline or the maximum delta, never early and under one tick late |
| Timers.DeliveryLeavesNothing | src/arch/hyp-exceptions.c:123-152 | after delivery a timer is not expired; if it was, a one-shot is off, a periodic one is on with its period and a deadline moved by k >= 1 whole periods into (now, now + period], and VIRQ_TIMER is pending or active |
| Timers.DeliveryIs | src/arch/hyp-exceptions.c:126-148 | what delivery makes of one vCPU in every case: line 0 set unless it is active, woken only if line 0 is new, and nothing at all changed without an expired timer |
| SchedulerSpec.PickNextIsNearest | src/hv/scheduler.c:134-150 | the vCPU picked is the nearest runnable guest in cyclic order, none iff no guest is runnable |
| Rescheduling.SwitchReschedules | src/hv/scheduler.c:160-194 | a switch moves the CPU and nothing else: every vCPU keeps its registers, timer and interrupts |
| Rescheduling.SwitchInv | src/hv/scheduler.c:160-194 | a switch to a vCPU that may run establishes the invariant, from any HCR value |
| Rescheduling.EnterIdleInv | src/hv/scheduler.c:251-262 | entering idle keeps the invariant when no guest is runnable |
| Rescheduling.AdvanceInv | src/hv/scheduler.c:213-232 | from whatever state a handler leaves, advance restores the invariant and picks the nearest guest that may run, the one giving up the CPU included if it was running |
| Rescheduling.YieldInv | src/hv/scheduler.c:196-211 | yield keeps the invariant and picks in the same way |
| Scheduler.HvScheduler.SyncTraps | src/hv/scheduler.c:20-26 | HCR.TWI is set iff the index is not idle |
| Scheduler.HvScheduler.PickNextIdx | src/hv/scheduler.c:134-150 | the in-place search is the round-robin pick |
| Scheduler.HvScheduler.HasRunnable | src/hv/scheduler.c:123-131 | whether some guest is runnable |
| Scheduler.HvScheduler.SaveCurrent | src/hv/scheduler.c:165-175 | the current vCPU is saved, and demoted if it was running |
| Scheduler.HvScheduler.Resume | src/hv/scheduler.c:184-193 | running mark, traps, address space, registers and HCR.VI of the next vCPU, in this order |
| Scheduler.HvScheduler.SwitchTo | src/hv/scheduler.c:160-194 | refines the switch on values; the operation log stays whole calls |
| Scheduler.HvScheduler.EnterIdle | src/hv/scheduler.c:251-262 | refines entering idle on values |
| Scheduler.HvScheduler.Advance | src/hv/scheduler.c:213-232 | refines advance on values |
| Scheduler.HvScheduler.Yield | src/hv/scheduler.c:196-211 | refines yield on values |
| Scheduler.HvScheduler.HandleWfi | src/hv/scheduler.c:234-249 | refines WFI on values: retire, then return with HCR.VI in step if an interrupt is pending, or block, or idle |
| Scheduler.HvScheduler.RearmPhysical | src/hv/scheduler.c:264-296 | the loop arms the one-shot for the earliest deadline |
| Exceptions.Hypervisor.CallVirqClaim | src/hv/hypercall.c:42-55 | claim on the current vCPU, result in r0, HCR.VI in step |
| Exceptions.Hypervisor.CallVirqComplete | src/hv/hypercall.c:56-61 | completion on the current vCPU, result in r0, HCR.VI in step |
| Exceptions.Hypervisor.CallDelay | src/hv/hypercall.c:74-89 | idle refused, zero ticks return at once, otherwise blocked, rearmed and rescheduled |
| Exceptions.Hypervisor.TimerFrequency | src/hv/hypercall.c:65-73 | zero for the idle vCPU, otherwise the frequency of the virtual timer |
| Exceptions.Hypervisor.Hypercall | src/hv/hypercall.c:9-94 | each call number changes the whole machine as specified; an unknown one halts |
| Exceptions.Hypervisor.StopCurrent | src/arch/hyp-exceptions.c:266-271 | timer off, EXITED, one-shot rearmed, rescheduled |
| Exceptions.Hypervisor.DeliverTo | src/arch/hyp-exceptions.c:126-148 | one vCPU's turn, as Timers.DeliveryIs pins it: raised or busy, and the timer moved on |
| Exceptions.Hypervisor.DeliverExpiredTimers | src/arch/hyp-exceptions.c:123-152 | every guest gets its turn; the result says whether any timer had expired |
| Exceptions.Hypervisor.DeliverAndSync | src/arch/hyp-exceptions.c:409-424 | delivery, rearming, and HCR.VI in step if anything was delivered |
| Exceptions.Hypervisor.TimerIrq | src/arch/hyp-exceptions.c:404-428 | the whole BCM timer path |
| Exceptions.Hypervisor.MmioAbort | src/arch/hyp-exceptions.c:317-325 | an emulated access retires the instruction, as Cpu.AdvancedIsNext and Aborts.AbortRetiresOrStops pin it; any other stops the guest |
| Exceptions.Hypervisor.GuestAbort | src/arch/hyp-exceptions.c:273-336 | idle or no VM halts; a device region is emulated; everything else stops the guest |
| Exceptions.Hypervisor.LowerSync | src/arch/hyp-exceptions.c:366-393 | dispatch on the exception class, with every case that halts |
| Exceptions.Hypervisor.Irq | src/arch/hyp-exceptions.c:395-432 | generic timer first, counted and rescheduling, then BCM timer, else halt, as TrapEffects.HaltsIff and TickReschedules pin it |
| Exceptions.Hypervisor.HandleException | src/arch/hyp-exceptions.c:154-183 | the dispatcher: the whole in-place hypervisor refines the step on values |
| Steps.HypercallPrepared | src/hv/hypercall.c:9-94 | every hypercall leaves what its scheduling decision needs |
| Steps.AbortPrepared | src/arch/hyp-exceptions.c:273-336 | every abort leaves what its scheduling decision needs |
| Steps.WfiPrepared | src/hv/scheduler.c:234-249 | WFI leaves what its scheduling decision needs |
| Steps.TimerPrepared | src/arch/hyp-exceptions.c:404-428 | a timer interrupt leaves what its scheduling decision needs |
| Steps.StepInv | src/arch/hyp-exceptions.c:154-183 | after every trap that returns: exactly one vCPU runs and it is the current one, HCR.VI, TWI and VM and VTTBR fit it, HCR.IMO stays set, idle runs only if no guest is runnable |
| Runs.RunInv | src/arch/hyp-exceptions.c:154-183 | the same over whole runs of any traps with any guest execution between them; no VM's tables are exchanged |
| Runs.BootInv | tests/test-guest-sched-timer.c:51-92 | the boot sequence starts from the invariant |
| Runs.BootRegisters | tests/test-guest-sched-timer.c:51-92 | what each vCPU starts from: a guest at 0x20000 with zero registers, in the mode given, with its periodic timer running; the idle vCPU at its entry with its stack |
| Runs.StepRegs | src/hv/scheduler.c:160-194 | a trap writes into its own vCPU what its handler writes there, and no other vCPU's registers |
| Runs.ResumesOwnContext | src/hv/scheduler.c:160-194 | context isolation over whole runs: a vCPU comes back with the registers of its own last trap as that trap's handler left them, whatever ran in between |
| Runs.StartsWithBootContext | src/hv/vcpu.c:8-27 | before its first trap a vCPU has the registers it was given at boot |
| Traps.KindsInSyndrome | src/arch/hyp-exceptions.c:366-393 | the kinds of trap the theorems speak of, in arithmetic on the syndrome |
| TrapEffects.HaltsIff | src/arch/hyp-exceptions.c:154-183 | a trap halts the machine iff it is none of: tick, BCM timer interrupt, HVC from hypervisor mode, HVC #0 with one of the eleven call numbers, WFI, or an abort of a guest |
| TrapEffects.AsksIff | src/arch/hyp-exceptions.c:366-432 | the scheduler is asked for the next vCPU iff the trap is a tick, a timer interrupt of the idle vCPU, or a guest's yield, exit, delay, WFI with nothing pending, or abort that cannot be emulated |
| TrapEffects.AskedGoesRound | src/hv/scheduler.c:196-232 | whenever it is asked, no runnable guest is left nearer ahead than the vCPU it gives the CPU to, and idle runs only if there is none |
| TrapEffects.TickReschedules | src/arch/hyp-exceptions.c:397-403 | a generic-timer tick never halts, is counted, puts the running vCPU back among the runnable ones and gives the CPU to the next in order; no timer, interrupt or device changes |
| TrapEffects.YieldReschedules | src/hv/hypercall.c:33-34 | a yield does the same, uncounted |
| TrapEffects.WfiWaits | src/hv/scheduler.c:234-249 | a guest's WFI blocks it iff nothing is pending; otherwise the same guest runs on with HCR.VI set and no vCPU changed. Either way it is past the WFI by 4 or 2 bytes as IL says, with every other register as it was |
| Fairness.StepApproaches | src/hv/scheduler.c:134-150 | each trap after which the scheduler must choose, told by TrapEffects.Asks from the trap's own fields, brings the CPU to a waiting guest or strictly nearer to it |
| Fairness.Fair | src/hv/scheduler.c:134-150 | a runnable guest runs within as many ticks, yields, exits, delays, idle waits and the like as there are guests |
| Wakeup.ExitedForever | src/arch/hyp-exceptions.c:266-271 | EXITED is never left |
| Wakeup.BlocksSafelyIff | src/hv/hypercall.c:74-89 | a delay always blocks and a WFI iff nothing is pending; a blocked guest can be woken iff VIRQ_TIMER is not pending or active and the timer is enabled, and its timer is the one asked for |
| Wakeup.WokenExactly | src/arch/hyp-exceptions.c:123-152 | a blocked guest is woken by exactly the first timer interrupt at or past its deadline, iff its timer was enabled and VIRQ_TIMER clear; otherwise never |
| Wakeup.DelayAfterTickHangs | src/arch/hyp-exceptions.c:135-140 | a guest whose timer goes off just before it asks for a delay is blocked for ever |
| Wakeup.NothingExpired | src/arch/hyp-exceptions.c:404-428 | after a timer interrupt no guest has an expired timer, and each that had is pending or being handled |
| Wakeup.TimersServed | src/arch/hyp-exceptions.c:404-428 | what a timer interrupt leaves of every guest: an expired one-shot off, an expired periodic timer on with its period and k >= 1 periods later in (now, now + period], line 0 set unless active, a blocked guest woken iff line 0 is new; every other guest with its timer and interrupts as they were |
| Wakeup.LostWakeupRun | src/arch/hyp-exceptions.c:135-140 | such a run of two traps exists from every point at which a guest with an enabled timer runs |
| Wakeup.LostWakeupAtBoot | tests/test-guest-sched-timer.c:51-92 | and from the boot sequence on |
| Deadlines.AlwaysArmed | src/hv/scheduler.c:264-296 | at every point of a run the one-shot is armed for the timers as they are, reckoned from the last trap whose handler rearmed it |
| Deadlines.FarDeadlineReached | src/hv/scheduler.c:264-296 | on any run with a clock that does not run backwards and timer interrupts that come no sooner than armed for, a sleeping guest is awake once these interrupts have brought the clock to its deadline: each by a microsecond at least, and by the maximum delta if it delivered nothing, whatever other timers share the one-shot |
| Deadlines.FinitelyManyInterrupts | src/hv/scheduler.c:289-293 | so a far deadline is reached after finitely many timer interrupts |
| Deadlines.EverySleeperWakes | src/hv/scheduler.c:264-296 | the same for a guest that falls asleep at any point of a run |
| Deadlines.NotSleptThrough | src/hv/scheduler.c:264-296 | a guest that still sleeps at a trap is less than one tick and the hardware's slack past its deadline, or past the last rearming if that came later |
| Interrupts.InterruptsConserved | src/hv/virq.c:47-93 | conservation of every interrupt line of every vCPU over whole runs |
| Aborts.AbortRetiresOrStops | src/arch/hyp-exceptions.c:273-336 | an abort that can be emulated resumes the guest at elr plus 4 or 2 as IL says, with the named register loaded by a load and no register changed by a store, and only its own VM's device changed; any other stops that guest alone |
| Aborts.EmulatedIff | src/hv/mmio.c:126-178 | which of the two it is, in arithmetic on the fault registers and the region table |
| Aborts.ExitStops | src/hv/hypercall.c:20-32 | the exit call stops the guest that makes it, and only that guest |
| Aborts.StepPrints | src/hv/hypercall.c:35-38 | what a trap sends to the physical UART is exactly the low byte of r1 of a PUTCHAR call, or of the register stored to the emulated data register, and exactly the interrupts are counted |
| Aborts.IdleAbortHalts | src/arch/hyp-exceptions.c:295-297 | an abort of the idle vCPU halts |
| Aborts.DevicesIsolated | src/hv/vuart.c:26 | over whole runs a VM's device changes only while its own vCPU runs |
| GuestSpace.GuestReach | src/hv/scheduler.c:54-61 | a guest reaches its RAM window, and there exactly its own slot without the last page, as normal read-write memory |
| GuestSpace.GuestAttributes | include/hv/stage2.h:79-83 | the leaf of a guest page has the access flag, read and write permission, normal non-cacheable memory and no XN |
| GuestSpace.GuestLayout | src/hv/scheduler.c:54-84 | what every address of a guest is: RAM, the guard page, the emulated UART, or nothing |
| GuestSpace.SlotsDisjoint | src/hv/scheduler.c:57 | the slots of two guests share no address |
| GuestSpace.GuestNeedsThree | src/hv/scheduler.c:54-84 | a guest with only its root table lacks exactly two |
| GuestSpace.BuildGuest | src/hv/scheduler.c:46-84 | a guest gets exactly its layout, and setting it up fails iff the pool has fewer than three pages |
| GuestSpace.BuildGuests | src/hv/scheduler.c:46-96 | every guest gets exactly its layout, and building one leaves the others' tables alone |
| GuestSpace.HardwareStaysInSlot | src/hv/scheduler.c:46-96 | under a guest's VTTBR the hardware, which refuses a leaf without access flag or permission, lets a fetch, load or store through iff it is to its window, into its own slot |
| Isolation.InitScheduler | src/hv/scheduler.c:34-108 | tables built, guests tied to their VMs, idle vCPU ready, HCR.TWI set |
| Isolation.EnterInitial | src/hv/vcpu.c:29-32 | guest 0's tables are activated and its registers loaded |
| Isolation.BootAll | tests/test-guest-sched-timer.c:51-92 | the boot sequence leaves exactly the state runs start from |
| Isolation.BootIsBacked | src/hv/scheduler.c:46-96 | the tables boot leaves are the ones the isolation theorem speaks of |
| Isolation.StoresStayInSlot | src/hv/scheduler.c:46-96 | however a guest stores through its own tables, it changes only its own slot and no VM's tables |
| Isolation.TablesStay | src/hv/scheduler.c:184-192 | all tables stay as built through any run with any guest stores |
| Isolation.SlotsIsolated | src/hv/scheduler.c:184-192 | a guest's slot of memory changes only while that guest runs |
| Isolation.GuestsStayInTheirSlots | src/hv/scheduler.c:184-192 | after any trap of any run, whatever the guests have stored, if a guest runs then HCR.VM is set, VTCR and VTTBR are right, and the hardware lets exactly its fetches, loads and stores to its window through, into its own slot |
| Mmio.DecodeRecoversIpa | src/arch/hyp-exceptions.c:216-243 | HPFAR and HDFAR give back any IPA below 2^40, to the byte if the offset is valid and to the page if not |
| Mmio.RegionNeedsNoOffset | src/arch/hyp-exceptions.c:307-315 | the region an abort is charged to does not depend on the offset being valid |
| Mmio.DecodeIs | src/arch/hyp-exceptions.c:216-243 | the decoded fault in arithmetic on HSR, HPFAR and HDFAR |
| Mmio.RequestIs | src/hv/mmio.c:126-178 | the checks let an access through to the device iff the syndrome is valid and not for a table walk, it is 1, 2 or 4 aligned bytes at an offset the UART has for that direction, and a store names r0-r12 or r14; with the register, size and direction of the syndrome |
| Mmio.EmulationSends | src/hv/virtual-device.c:6-36 | an emulated access sends the low byte of a store to the data register and nothing else |
| Mmio.MaskExtends | src/hv/mmio.c:80-99 | masking is the low 8, 16 or 32 bits, sign-extended in two's complement on request |
| Mmio.UnhandledChangesNothing | src/hv/mmio.c:126-178 | an unhandled access leaves the guest's frame, its device and what was sent alone |
| Mmio.ByteLostIff | src/hv/mmio.c:158-175 | a received byte is lost exactly for a load of the data register into a register the guest does not have, while a byte waits |
| Mmio.LoadIntoR13LosesByte | src/hv/mmio.c:158-175 | a syndrome that loses a byte: a 4-byte load of the data register into r13 |
| Cpu.HsrFields | include/arch/hyp-regs.h:3-15 | the exception class, instruction length and ISS fields of a syndrome are taken apart as they were put together |
| Mmio.HandledChangesOneRegister | src/hv/mmio.c:126-178 | a handled access changes at most one guest register and never the return state |
| Mmio.RegisterIsLastStore | src/hv/vuart.c:32-73 | over any interleaving of all VMs every register holds what its own VM last stored there; AUX_ENABLES the low bit of it, the modem status nothing |
| Mmio.LoadSeesOwnStore | src/hv/vuart.c:75-127 | a load at any offset gives the VM's own last stored value (bit 1 of the status set, the oldest received byte, or the line status, where the device says so), cut or extended to its width, in exactly the register named; a byte is taken iff the data register is read |
| Mmio.DeviceAccess | src/hv/virtual-device.c:6-36 | alignment check and dispatch, with the device's whole new state |
| Mmio.HandleMmioFault | src/hv/mmio.c:126-178 | refines the emulation on values |
| Vuart.FieldAfterWrite | src/hv/vuart.c:32-73 | a write is seen in its own register and in no other |
| Vuart.OffsetsAre | include/hv/mmio-abi.h:9-22 | which offsets can be written and read, in numbers |
| Vuart.ReadIs | src/hv/vuart.c:75-127 | what a read gives and takes at every offset |
| Vuart.WriteSends | src/hv/vuart.c:32-73 | a write sends its low byte iff it is to the data register |
| Vuart.VirtualUarts.Write | src/hv/vuart.c:32-73 | the registers of one VM and the bytes sent; refused exactly off the writable offsets |
| Vuart.VirtualUarts.Read | src/hv/vuart.c:75-127 | the value read and the byte taken; refused exactly off the readable offsets |
| BootCrc.TableIsShifted | bootloader/include/boot-crc.h:10-54 | each of the 256 table entries is eight bit steps of its index |
| BootCrc.TableStepIsShifted | bootloader/include/boot-crc.h:61 | a table lookup does the work of eight bit steps |
| BootCrc.Crc32Inc | bootloader/include/boot-crc.h:56-63 | the loop computes the bit-by-bit CRC of section 8 of RFC 1952 |
| BootCrc.CrcComposes | bootloader/include/boot-crc.h:56-63 | a CRC can be computed piece by piece |
| BootCrc.OneByteDetected | bootloader/include/boot-crc.h:56-67 | changing one byte of an image always changes its CRC |
| BootWire.WordRoundTrip | bootloader/include/boot-mmio.h:35-40 | a word put is the word got |
| BootWire.WindowIsLastWord | bootloader/include/boot-mmio.h:28-32 | after four bytes the window is the word of the last four |
| BootWire.FoundExactly | bootloader/include/boot-mmio.h:23-33 | an opcode after junk without it is found at its own end and nowhere before |
| BootWire.WaitConsumesJunk | bootloader/include/boot-mmio.h:23-33 | the wait consumes exactly the junk and four bytes |
| BootWire.Port.Get32 | bootloader/include/boot-mmio.h:14-21 | four bytes, low byte first |
| BootWire.Port.Put32 | bootloader/include/boot-mmio.h:35-40 | four bytes, low byte first |
| BootWire.Port.WaitForOpcode | bootloader/include/boot-mmio.h:23-33 | reads up to and including the first occurrence |
| BootPi.LoadedHolds | bootloader/src/main.c:47-50 | byte i of the image is at base + i |
| BootPi.LoadedElsewhere | bootloader/src/main.c:47-50 | no other address changes |
| BootPi.AcceptedIsSafeIff | bootloader/src/main.c:36-39 | an accepted image overwrites the bootloader iff base + size wraps and the image starts below its end or comes round to its start |
| BootPi.RejectedIff | bootloader/src/main.c:36-39 | an image of at least one byte that ends below 2^32 is turned down iff it would overwrite the bootloader |
| BootPi.WrapOverwrites | bootloader/src/main.c:36-39 | such an image exists |
| BootPi.StoreCode | bootloader/src/main.c:47-50 | the loop stores the bytes in order, as many as come |
| BootPi.ReceiveInfo | bootloader/src/main.c:22-42 | the answer and the verdict of the byte-by-byte bootloader |
| BootPi.ReceiveCode | bootloader/src/main.c:44-52 | the memory of the byte-by-byte bootloader |
| BootPi.RunLoader | bootloader/src/main.c:7-52 | the whole program reads, answers and stores what the byte-by-byte bootloader does |
| BootHost.Realigns | bootloader/src/put-code.c:70-72 | starting anywhere in repeated GET_PROG_INFO words the host is in step after as many skips as bytes are left of the first word, at most three |
| BootHost.WordsMean | bootloader/src/put-code.c:66-110 | what each word does to a host that waits for one: text is passed over, the code is sent iff the CRC is that of the data, success is reported iff the word is BOOT_SUCCESS |
| BootHost.InfoCarries | bootloader/src/put-code.c:75-78 | the program info is the opcode, the address, the size and the CRC, in this order |
| BootHost.CrcIs | bootloader/src/put-code.c:78 | and that CRC is the bit-by-bit CRC of the data |
| BootHost.GetOp | bootloader/src/put-code.c:47-64 | the next word that is not PRINT_STRING |
| BootHost.SeekPi | bootloader/src/put-code.c:70-72 | the first loop ends in step, or the bytes run out |
| BootHost.GetAnswer | bootloader/src/put-code.c:82-87 | further GET_PROG_INFO words are passed over |
| BootHost.Transfer | bootloader/src/put-code.c:80-109 | answer, CRC, code and result, with every way to give up |
| BootHost.PutCode | bootloader/src/put-code.c:66-110 | the whole program reads, sends and reports what the byte-by-byte host does |
| BootTransfer.PiFollowsScript | bootloader/src/main.c:22-52 | where the Pi is after any part of what the host sends |
| BootTransfer.NextInv | bootloader/src/put-code.c:66-110 | each byte put or got, and each beacon, keeps the two sides in step |
| BootTransfer.SuccessMeansLoaded | bootloader/src/put-code.c:66-110 | over lossless FIFOs and any interleaving, for an image that does not overwrite the running bootloader, host success means the Pi has the whole image in place and wrote nothing else |
| BootTransfer.NoWrapSurvives | bootloader/src/main.c:36-39 | an accepted image that ends below 2^32 does not overwrite the bootloader |
| BootTransfer.FailureMeansRejected | bootloader/src/put-code.c:83-87 | the host gives up only on an image that collides, and then nothing was written |
| BootTransfer.OnlyDeadlock | bootloader/src/main.c:12-20 | the only state in which nothing more happens before the host has its result, success or refusal, is a Pi silenced by junk with the host not in step |
| BootTransfer.DeadlocksIff | bootloader/src/main.c:12-20 | for an accepted or rejected image alike, some run deadlocks exactly if junk is on its way to the Pi and the bytes already on their way to the host, counted as |tail| < 5 * (|tail| % 4), end before it is in step |
| BootTransfer.JunkDeadlocks | bootloader/src/main.c:12-20 | for example with one byte of junk and one byte of an earlier beacon |

## Left out

- Null-pointer guards: the model has no null vCPU, VM, region or frame, so the branches for them do not exist.
- Assembly entry and exit, and boot assembly: modelled as copies between the live registers and the frame or context.
- Tlb.AlwaysCoherent: the modelled TLB caches whole translations only, not the table entries of a walk. Table entries, once
  valid, are never changed by any call, so such caches would not go stale.
- Stage 1 translation, memory types and shareability in use: the hardware model checks the access flag, S2AP and XN of a
  stage-2 leaf, and nothing else of its attributes.
- Barriers, caches and weak memory: table stores, register writes and TLB operations are one sequence.
- Registers the switch code does not save (abort, undefined and FIQ banks, SCTLR, TTBR and the like).
- 32-bit wrap of the microsecond clock: deadlines are unbounded naturals and clock readings are 32-bit words, so a
  clock that has wrapped reads as a smaller number.
- Vcpu.HvVcpu.TimerAdvance: the 64-bit deadline is a natural; the loop never holds more than now + period, so it cannot overflow
  for any period below 2^63.
- 64-bit overflow of ipa_base + size in hv_vm_regions_overlap cannot happen for valid regions and is not modelled.
- HvStage2 and HvVm error codes share their integer values; the model keeps the two enumerations apart.
- hv_vcpu_timer_get_frequency divides by the period cut to 32 bits, with no defined result if that is zero; the model returns 0 there.
- Fault fields that are only logged (level, status, access kind, vCPU and VM ids), printing and tracing.
- GEN_TIM, IRQ controller, GPIO and UART drivers, and all of the timer driver but TIM_Arm_Usec: an abstract one-shot, byte
  source and byte sink stand for them.
- The host's tty and file handling, its sleep and its time-outs: running out of bytes is the time-out.
- The Pi's jump to the image, and its reboot when the base address is 0.
- Wrap-around of nbytes in boot_wait_for_opcode after 2^32 bytes of junk.
- BootWire.Port.Get8: running out of input is a result, where the Pi would wait and the host would time out.
- Guest programs and test mains, except the boot sequence that runs start from.
