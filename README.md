# Taller platform drivers: a Dafny model

This project models three small Linux drivers of the Taller ARM system-on-chip and
proves what each one does to its hardware registers.

- **Altera countdown timer** (`drivers/clocksource/timer-altera.c`). Six 16-bit
  registers: STATUS, CONTROL, PERIODL, PERIODH, SNAPL and SNAPH. The driver uses the
  timer either as a clock source or as a clock event device.
  - The clock source is a continuously running counter, read through a snapshot and
    complemented.
  - The clock event device is programmed with a one-shot delta or with a periodic
    period of ceil(rate / HZ). Its interrupt handler clears STATUS and then calls the
    tick handler.
  - The probe function unwinds its allocations goto-style when a step fails.
- **Taller interrupt controller** (`drivers/irqchip/irq-taller.c`). A 32-bit STATUS
  register of pending lines and a 32-bit MASK register whose set bits enable lines.
  - The demultiplexer reads STATUS once. It then calls the domain handler for every
    pending line, lowest first.
  - Init maps the registers, creates a 32-line domain and its generic chip, writes 0
    to MASK and installs the demultiplexer. On failure it unwinds in stages.
- **SMP boot** (`arch/arm/mach-taller/platsmp.c`). Prepare maps the SMP controller
  and marks CPUs 0 to 3 possible. Booting a secondary CPU copies the trampoline
  image to physical address 0 and then writes `1 << cpu` to the doorbell.

Each driver is a class whose fields are its registers and the driver's global state.
Register contents are plain storage: a `u16` array for the timer and `u32` fields
for the interrupt controller. Low memory and the possible-CPU mask are arrays.

Every class also keeps an ordered log (`trace`) of register accesses and callbacks, so
ordering rules can be stated as equations on the log. The two probe functions also
keep a log of resource acquisitions and releases. `Unwind.Replay` replays such a log
as a stack, and the lemmas show that a failed probe ends holding nothing.

Machine words are bounded naturals (`Bits.u16`, `Bits.u32`). The C operators `|`,
`& ~`, `~`, `1 << n` and `__ffs` are defined bit by bit in module `Bits`.

Modules:

- `Bits` — words and bit operators;
- `Errno` — the error codes used;
- `Unwind` — LIFO resource logs;
- `TimerAltera`, `IrqTaller` and `TallerSmp` — the three drivers.

The results of the framework calls are parameters of the methods that make them:

- `kzalloc`, `timer_of_init` and `clocksource_register_hz` in the timer
  (`TimerAltera.ProbeOutcome`);
- `of_iomap`, `irq_domain_add_linear` and `irq_alloc_domain_generic_chips` in the
  interrupt controller (`IrqTaller.IntcOutcome`);
- `of_find_compatible_node` and `of_iomap` in SMP prepare.

The live counter that a snapshot latches is also a parameter (`counter`), and so is
HZ (`hz`). The tick handler and the domain handler are entries in the log.

## Model

| member | source | states |
|---|---|---|
| TimerAltera.MaskBits | drivers/clocksource/timer-altera.c:32-35 | ITO, CONT, START and STOP are the single bits 0, 1, 2 and 3 |
| TimerAltera.StartControl | drivers/clocksource/timer-altera.c:84-86 | the control word written back has START set and every other bit as read |
| TimerAltera.StopControl | drivers/clocksource/timer-altera.c:93-95 | the control word written back has STOP set and every other bit as read |
| TimerAltera.ConfiguredControl | drivers/clocksource/timer-altera.c:116-121 | the final control word has START and ITO set, CONT set exactly when periodic, and every other bit as read |
| TimerAltera.Decrement32 | drivers/clocksource/timer-altera.c:103-105 | `period--` on a 32-bit unsigned long is period - 1 for a positive period and wraps 0 to 0xFFFFFFFF |
| TimerAltera.DivRoundUp | drivers/clocksource/timer-altera.c:146 | the result is the least r with r * d >= n (the ceiling of n / d) |
| TimerAltera.ConfigWritesPeriodMinusOne | drivers/clocksource/timer-altera.c:103-114 | for a period p >= 1, PERIODL receives (p - 1) mod 2^16 and PERIODH (p - 1) div 2^16, and shifting the high half up 16 bits and ORing in the low half gives p - 1 |
| TimerAltera.ConfigAccessOrder | drivers/clocksource/timer-altera.c:107-121 | config makes one control read, then exactly four writes: control, PERIODL, PERIODH, control |
| TimerAltera.PeriodicExample | drivers/clocksource/timer-altera.c:141-149 | at 100 MHz and HZ = 100 the period is 1000000, stored as 999999: PERIODL 0x423F, PERIODH 0x000F |
| TimerAltera.ClocksourceControlWord | drivers/clocksource/timer-altera.c:212-214 | the clock source's control word is 0x6: CONT and START set, ITO and STOP clear |
| TimerAltera.ComplementReversesOrder | drivers/clocksource/timer-altera.c:76-77 | the 32-bit complement stays below 2^32 and reverses order: c1 >= c2 gives ~c1 <= ~c2 |
| TimerAltera.ProbeSucceedsIff | drivers/clocksource/timer-altera.c:228-255 | the probe returns 0 exactly when the allocation and timer_of_init succeed and, for a clock source, the second allocation and the registration succeed too |
| TimerAltera.ProbeFailsNegative | drivers/clocksource/timer-altera.c:228-244 | a failed probe returns a negative value; an allocation failure returns -ENOMEM |
| TimerAltera.ProbeLogUnwinds | drivers/clocksource/timer-altera.c:228-263 | each path's log is its acquisitions followed, on failure, by their release newest first: err_free_cs, err_timer_of and err_free_to free altr_cs, then timer_of, then to |
| TimerAltera.ProbeLogBalanced | drivers/clocksource/timer-altera.c:257-263 | replaying the probe's log with nothing held fails no release; it ends holding nothing after a failure and the acquired resources after a success |
| TimerAltera.ProbeRoleResources | drivers/clocksource/timer-altera.c:239-253 | a successful probe holds the clock source's private data exactly when it is set up as the clock source |
| TimerAltera.AlteraTimer.ReadW | drivers/clocksource/timer-altera.c:42-45 | returns the register's contents and logs the read |
| TimerAltera.AlteraTimer.WriteW | drivers/clocksource/timer-altera.c:47-50 | stores the low 16 bits of the value in that register only and logs the write |
| TimerAltera.AlteraTimer.Start | drivers/clocksource/timer-altera.c:80-87 | one read-modify-write of CONTROL that ORs in START; no other register changes |
| TimerAltera.AlteraTimer.Stop | drivers/clocksource/timer-altera.c:89-96 | one read-modify-write of CONTROL that ORs in STOP; no other register changes |
| TimerAltera.AlteraTimer.Config | drivers/clocksource/timer-altera.c:98-122 | the new registers and the log of reads and writes, in order: stop, PERIODL, PERIODH, then the configured control word |
| TimerAltera.AlteraTimer.Snapshot | drivers/clocksource/timer-altera.c:52-62 | writes SNAPL first, then reads SNAPH and SNAPL in either order; the result is the latched 32-bit count |
| TimerAltera.AlteraTimer.ClocksourceRead | drivers/clocksource/timer-altera.c:64-78 | returns 0xFFFFFFFF minus the latched count, after the snapshot's write and two reads |
| TimerAltera.AlteraTimer.SetNextEvent | drivers/clocksource/timer-altera.c:124-131 | a one-shot config with the given delta; returns 0 |
| TimerAltera.AlteraTimer.Shutdown | drivers/clocksource/timer-altera.c:133-139 | shutdown (also set_state_oneshot, line 181) is a stop and nothing more; returns 0 |
| TimerAltera.AlteraTimer.SetPeriodic | drivers/clocksource/timer-altera.c:141-149 | a periodic config of ceil(rate / HZ) cycles; returns 0 |
| TimerAltera.AlteraTimer.Resume | drivers/clocksource/timer-altera.c:151-157 | a start and nothing more; returns 0 |
| TimerAltera.AlteraTimer.ClockeventHandler | drivers/clocksource/timer-altera.c:159-169 | writes 0 to STATUS, then calls the tick handler exactly once; returns IRQ_HANDLED |
| TimerAltera.AlteraTimer.ClockeventInit | drivers/clocksource/timer-altera.c:171-190 | stops the timer, clears STATUS, then registers a clock event device with rating 250 and deltas 1 to ULONG_MAX |
| TimerAltera.AlteraTimer.ClocksourceInit | drivers/clocksource/timer-altera.c:192-217 | registers a 32-bit clock source of rating 250; only if that succeeds does it write 0xFFFF to both period halves and CONT plus START to CONTROL |
| TimerAltera.AlteraTimer.TimerInit | drivers/clocksource/timer-altera.c:219-264 | returns the probe's result and appends the probe's resource log; a failure leaves registers and log untouched; a success sets up exactly the chosen role |
| Unwind.UnwindRestores | drivers/clocksource/timer-altera.c:257-263 | acquiring resources and releasing them newest first returns to the state held before |
| Bits.LowestSetBit | drivers/irqchip/irq-taller.c:36 | `__ffs`: the result is a set bit of x, no lower bit is set, and 2^result <= x |
| IrqTaller.SetBitsExactlyPending | drivers/irqchip/irq-taller.c:35-39 | the dispatch order contains a line exactly when its status bit is set, and is strictly ascending |
| IrqTaller.SetBitsCoverWord | drivers/irqchip/irq-taller.c:33-39 | every set bit of a 32-bit status word is dispatched |
| IrqTaller.NothingPending | drivers/irqchip/irq-taller.c:35 | a status of 0 dispatches nothing |
| IrqTaller.DispatchOrderExample | drivers/irqchip/irq-taller.c:35-39 | status 0xA4 (bits 2, 5, 7) dispatches lines 2, 5, 7 in that order |
| IrqTaller.DispatchExactlyPending | drivers/irqchip/irq-taller.c:35-39 | the handler is called for line j exactly when j < 32 and bit j of the status is set, and never twice for one line |
| IrqTaller.DispatchStep | drivers/irqchip/irq-taller.c:36-38 | one iteration dispatches the next pending line above those already dispatched and clears only that bit from the local copy |
| IrqTaller.MaskedValue | drivers/irqchip/irq-taller.c:75 | mask clears the line's bit and keeps every other bit |
| IrqTaller.UnmaskedValue | drivers/irqchip/irq-taller.c:76 | unmask sets the line's bit and keeps every other bit |
| IrqTaller.MaskDisables | drivers/irqchip/irq-taller.c:74-76 | after mask the line is disabled and after unmask it is enabled; other lines keep their state |
| IrqTaller.MaskNoChange | drivers/irqchip/irq-taller.c:74-76 | unmask changes nothing exactly when the line is enabled, and mask changes nothing exactly when it is disabled |
| IrqTaller.MaskRoundTrip | drivers/irqchip/irq-taller.c:74-76 | unmask then mask restores a disabled line's register, and mask then unmask restores an enabled line's register |
| IrqTaller.MaskRoundTripNeedsEnabled | drivers/irqchip/irq-taller.c:74-76 | for every MASK value and every disabled line, mask then unmask does not give back the original value |
| IrqTaller.MaskCommutes | drivers/irqchip/irq-taller.c:74-76 | mask and unmask on different lines commute |
| IrqTaller.InitialMaskDisablesAll | drivers/irqchip/irq-taller.c:78 | after the MASK write of 0 no line is enabled |
| IrqTaller.IntcInitResult | drivers/irqchip/irq-taller.c:50-70 | init returns 0 exactly when mapping, domain and chips all succeed; otherwise a negative value, -ENOMEM for a NULL mapping or a missing domain |
| IrqTaller.IntcLogUnwinds | drivers/irqchip/irq-taller.c:50-87 | each path's log is its acquisitions followed, on failure, by their release newest first: a map failure acquires nothing, a domain failure unmaps, a chip failure removes the domain and then unmaps |
| IrqTaller.IntcLogBalanced | drivers/irqchip/irq-taller.c:83-87 | replaying init's log releases only what is held; it ends holding nothing after a failure and the mapping and domain after a success |
| IrqTaller.TallerIntc.HandleIrq | drivers/irqchip/irq-taller.c:26-40 | one read of STATUS, then one handler call per pending line of that value in ascending order, with no further register access |
| IrqTaller.TallerIntc.Mask | drivers/irqchip/irq-taller.c:75 | MASK becomes the masked value and is written once |
| IrqTaller.TallerIntc.Unmask | drivers/irqchip/irq-taller.c:76 | MASK becomes the unmasked value and is written once |
| IrqTaller.TallerIntc.Init | drivers/irqchip/irq-taller.c:42-88 | returns init's result and appends its resource log; on failure MASK, handler and register log are untouched; on success it creates a 32-line domain, writes 0 to MASK and then installs the handler |
| TallerSmp.LoadTrampoline | arch/arm/mach-taller/platsmp.c:47-51 | memory after the copy holds the image in [0, size) and its old contents everywhere else |
| TallerSmp.LoadTrampolineIdempotent | arch/arm/mach-taller/platsmp.c:51 | copying the trampoline a second time changes nothing |
| TallerSmp.LoadTrampolineFixesLoaded | arch/arm/mach-taller/platsmp.c:51 | memory that already holds the image is unchanged by the copy |
| TallerSmp.MarkPossible | arch/arm/mach-taller/platsmp.c:41-42 | CPUs 0 to 3 become possible and the others keep their state |
| TallerSmp.MarkPossibleExactly | arch/arm/mach-taller/platsmp.c:41-42 | after a successful prepare a CPU is possible exactly when it is 0 to 3 or already was |
| TallerSmp.MarkPossibleIdempotent | arch/arm/mach-taller/platsmp.c:41-42 | a second successful prepare changes nothing |
| TallerSmp.DoorbellValue | arch/arm/mach-taller/platsmp.c:54 | `1 << cpu` has exactly the bit of that CPU set |
| TallerSmp.DoorbellDistinct | arch/arm/mach-taller/platsmp.c:54 | two CPUs get the same doorbell value only if they are the same CPU |
| TallerSmp.DoorbellExample | arch/arm/mach-taller/platsmp.c:54 | CPU 2 rings the doorbell with 4 |
| TallerSmp.SmpBoot.PrepareCpus | arch/arm/mach-taller/platsmp.c:22-43 | no node: nothing changes; mapping fails: smp_ctrl null and no CPU marked; success: smp_ctrl set and exactly CPUs 0 to 3 marked |
| TallerSmp.SmpBoot.BootSecondary | arch/arm/mach-taller/platsmp.c:45-56 | unprepared: -EINVAL, memory and log untouched; prepared: copies the image to address 0, then writes `1 << cpu` to the doorbell once, and returns 0 |

## Notes on the MASK register

- A set MASK bit enables its line. `irq_mask` is the clear-bit helper and
  `irq_unmask` the set-bit helper (drivers/irqchip/irq-taller.c:75-76). So the write
  of 0 at init leaves every line masked (`IrqTaller.InitialMaskDisablesAll`).
- A mask followed by an unmask restores MASK only for a line that was enabled
  (`IrqTaller.MaskRoundTrip`). `IrqTaller.MaskRoundTripNeedsEnabled` shows that for
  every disabled line the round trip leaves MASK changed.

## Left out

- drivers/clocksource/timer-taller.c is not part of this model. It is one coprocessor
  register read plus clock source and sched_clock registration, with no logic to
  state.
- arch/arm/mach-taller/board-dt.c is not part of this model. It is a static machine
  descriptor and an I/O mapping table.
- `local_irq_save`/`local_irq_restore` around the snapshot and the `smp_wmb` before
  the doorbell are there for concurrency and memory ordering. They are not modelled.
  Only the sequential order is: copy, then doorbell.
- Real hardware behaviour is not modelled. That covers counting down, interrupt
  assertion, the START/STOP strobes and level-triggered re-assertion. Registers are
  plain storage.
  - The one exception is the snapshot latch. Its effect on SNAPL and SNAPH is
    modelled with the live count as a parameter, because plain storage would make
    the SNAPL read return the 0 just written.
- TimerAltera.AlteraTimer.Snapshot: fixes the latch write before both reads but not
  which of SNAPH and SNAPL is read first. C leaves the evaluation order of the
  operands of `|` unspecified, so the read order is stated as a multiset.
- Framework internals are left out; each call becomes a parameter holding its result:
  - `timer_of_init`;
  - `clocksource_register_hz`;
  - `clockevents_config_and_register` (recorded as a logged registration);
  - `irq_domain_add_linear`;
  - `irq_alloc_domain_generic_chips`;
  - `generic_handle_domain_irq` (a logged dispatch);
  - `of_iomap`, `of_find_compatible_node`, `of_property_read_bool` and `kzalloc`.
- The release calls return nothing, and each is logged as an `Unwind.Step.Release`
  of the resource it frees. That covers `kfree`, `timer_of_cleanup`,
  `irq_domain_remove` and `iounmap`.
- The generic chip's mask cache is left out. IrqTaller.TallerIntc.Mask and
  IrqTaller.TallerIntc.Unmask update the MASK register value itself. The real helpers
  update a cached copy and write the copy.
  - `gc->reg_base` and `regs.mask` are set only after the chips are allocated
    (drivers/irqchip/irq-taller.c:65-74), so the cache is filled when the first line is
    mapped, after init has written 0. With registers as plain storage the cache then
    equals MASK, and updating MASK directly loses nothing.
- The clock event device's features, shift and callback table, and the clock
  source's flags and read callback (drivers/clocksource/timer-altera.c:175-182,
  201, 203), are static settings. The logged registrations carry only the rate, the
  rating, the delta range and, for the clock source, the counter width of
  `CLOCKSOURCE_MASK(32)`.
- The `pr_err`, `pr_crit` and `pr_warn` diagnostics (drivers/irqchip/irq-taller.c:52,
  60, 68; arch/arm/mach-taller/platsmp.c:29, 37) are console output with no effect on
  the state, and are not modelled.
- The device-node reference dropped by `of_node_put` (arch/arm/mach-taller/platsmp.c:34)
  is reference counting outside the driver's state, and is not modelled.
- The tick handler and the per-line flow handler are logged as events
  (`TickCallback`, `Dispatch`) that touch no register. So
  TimerAltera.AlteraTimer.ClockeventHandler's register postcondition and
  IrqTaller.TallerIntc.HandleIrq's log hold only for callbacks that leave the
  registers alone. In the kernel a one-shot tick handler reprograms the timer through
  `set_next_event`, and `handle_level_irq` (drivers/irqchip/irq-taller.c:66) masks
  and unmasks the line through MASK.
- TimerAltera.AlteraTimer.SetPeriodic: requires rate + HZ - 1 < 2^32, so the
  unsigned long sum inside DIV_ROUND_UP does not wrap; the wrapped case is not
  modelled.
- TimerAltera.AlteraTimer.Snapshot: `readw(SNAPH) << 16` shifts a promoted `int`,
  which overflows for a high half of 0x8000 or more. The model takes the intended
  arithmetic value.
- TallerSmp.DoorbellValue: `1 << cpu` is an `int` shift, which overflows for CPU 31;
  the model takes 2^cpu, the value the unsigned register receives in practice.
  IrqTaller.TallerIntc.HandleIrq does the same for `~(1 << hwirq)` at drivers/irqchip/irq-taller.c:38.
- TallerSmp.SmpBoot.PrepareCpus: `max_cpus` is ignored, as in the source.
- After a chip allocation failure the global `taller_irq_domain` still points at the
  removed domain. The model records this as `DomainSlot.Removed` and proves nothing
  further about it.
