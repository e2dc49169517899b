/**
 * The Altera countdown timer driver (drivers/clocksource/timer-altera.c).
 *
 * The timer has six 16-bit registers, four bytes apart. The driver binds it either as
 * a clock source (a free-running count read through a snapshot pair) or as a clock
 * event device (a one-shot or periodic alarm), never both.
 *
 * The model keeps the register window as an array of 16-bit values and logs every
 * register access, every call into the tick framework and every resource the probe
 * function acquires or releases, so that the order of these effects can be stated.
 * `unsigned long` is 32 bits wide on this target, so periods, counts and rates are
 * `u32` values.
 */
module TimerAltera {
  import opened Bits
  import opened Errno
  import opened Unwind

  // Register byte offsets in the timer's window.
  const STATUS_REG: nat := 0
  const CONTROL_REG: nat := 4
  const PERIODL_REG: nat := 8
  const PERIODH_REG: nat := 12
  const SNAPL_REG: nat := 16
  const SNAPH_REG: nat := 20
  const NUM_REGS: nat := 6

  // Control register masks, and the bit each one occupies.
  const ITO: nat := 0x1
  const CONT: nat := 0x2
  const START: nat := 0x4
  const STOP: nat := 0x8
  const ITO_BIT: nat := 0
  const CONT_BIT: nat := 1
  const START_BIT: nat := 2
  const STOP_BIT: nat := 3

  const USHRT_MAX: nat := 0xFFFF
  const ULONG_MAX: nat := 0xFFFF_FFFF
  /** The rating of the timer as a clock source and as a clock event device. */
  const TIMER_RATING: nat := 250
  /** The width of the clock source's counter (`CLOCKSOURCE_MASK(32)`). */
  const COUNTER_BITS: nat := 32
  /** `CONT | START`, the control word of a free-running clock source
      (see ClocksourceControlWord). */
  const CLOCKSOURCE_CONTROL: u16 := 0x6

  predicate IsTimerReg(offs: nat)
  {
    offs % 4 == 0 && offs <= SNAPH_REG
  }

  datatype IrqReturn = IrqNone | IrqHandled

  /** What the probe function acquires: the `timer_of` allocation, what `timer_of_init`
      sets up for it (register mapping, interrupt, clock), and the clock source's
      private allocation. */
  datatype Resource = TimerOfMem | TimerOfSetup | ClocksourceMem

  /** A registration with the tick framework. */
  datatype Registration =
    | ClockSource(rate: nat, rating: nat, counterBits: nat)
    | ClockEvent(rate: nat, rating: nat, minDelta: nat, maxDelta: nat)

  datatype Event =
    | RegRead(offs: nat, val: u16)
    | RegWrite(offs: nat, val: u16)
    /** The tick framework's event handler, called from the interrupt handler. */
    | TickCallback
    | Registered(reg: Registration)

  /** The result of each framework call the probe function makes. */
  datatype ProbeOutcome = ProbeOutcome(
    timerOfAllocated: bool,   // kzalloc of the timer_of
    timerOfInitRet: int,      // timer_of_init
    clockRate: u32,           // the rate timer_of_init finds for the input clock
    csAllocated: bool,        // kzalloc of the clock source's private data
    csRegisterRet: int)       // clocksource_register_hz

  lemma MaskBits()
    ensures ITO == Pow2(ITO_BIT) && CONT == Pow2(CONT_BIT)
    ensures START == Pow2(START_BIT) && STOP == Pow2(STOP_BIT)
  {
    assert Pow2(3) == 8;
  }

  /** `ctrl | START`: the control word altera_timer_start writes back. */
  function StartControl(ctrl: u16): (r: u16)
    ensures Bit(r, START_BIT)
    ensures forall k: nat :: k != START_BIT ==> (Bit(r, k) <==> Bit(ctrl, k))
  {
    MaskBits();
    WordSizes();
    OrBound(ctrl, START, 16);
    OrBits(ctrl, START);
    Pow2Bits(START_BIT);
    Or(ctrl, START)
  }

  /** `ctrl | STOP`: the control word altera_timer_stop writes back. */
  function StopControl(ctrl: u16): (r: u16)
    ensures Bit(r, STOP_BIT)
    ensures forall k: nat :: k != STOP_BIT ==> (Bit(r, k) <==> Bit(ctrl, k))
  {
    MaskBits();
    WordSizes();
    OrBound(ctrl, STOP, 16);
    OrBits(ctrl, STOP);
    Pow2Bits(STOP_BIT);
    Or(ctrl, STOP)
  }

  /** The final control word of altera_timer_config: START and ITO set, CONT set when
      periodic and cleared otherwise, every other bit as read. */
  function ConfiguredControl(ctrl: u16, periodic: bool): (r: u16)
    ensures Bit(r, START_BIT) && Bit(r, ITO_BIT)
    ensures Bit(r, CONT_BIT) <==> periodic
    ensures forall k: nat :: k != START_BIT && k != ITO_BIT && k != CONT_BIT ==>
              (Bit(r, k) <==> Bit(ctrl, k))
  {
    MaskBits();
    WordSizes();
    var startIto := Or(START, ITO);
    OrBound(START, ITO, 16);
    OrBits(START, ITO);
    Pow2Bits(START_BIT);
    Pow2Bits(ITO_BIT);
    Pow2Bits(CONT_BIT);
    var c := Or(ctrl, startIto);
    OrBound(ctrl, startIto, 16);
    OrBits(ctrl, startIto);
    if periodic then
      OrBound(c, CONT, 16);
      OrBits(c, CONT);
      Or(c, CONT)
    else
      AndNotBound(c, CONT);
      AndNotBits(c, CONT);
      AndNot(c, CONT)
  }

  /** `period--` on a 32-bit unsigned long: the hardware counts one cycle more than
      the value in the period registers. */
  function Decrement32(period: u32): (q: u32)
    ensures period >= 1 ==> q == period - 1
    ensures period == 0 ==> q == ULONG_MAX
  {
    (period + ULONG_MAX) % U32_LIMIT
  }

  /** `DIV_ROUND_UP(n, d)`, computed as the kernel does, as `(n + d - 1) / d`. */
  function DivRoundUp(n: nat, d: nat): (r: nat)
    requires d >= 1
    ensures r * d >= n
    ensures r > 0 ==> (r - 1) * d < n
  {
    var q := (n + d - 1) / d;
    assert d * q <= n + d - 1 < d * q + d;
    q
  }

  /** The five register accesses of altera_timer_config, given the control word it
      reads: stop, low half, high half, final control. */
  function ConfigEvents(ctrl: u16, period: u32, periodic: bool): seq<Event>
  {
    var q := Decrement32(period);
    [RegRead(CONTROL_REG, ctrl),
     RegWrite(CONTROL_REG, StopControl(ctrl)),
     RegWrite(PERIODL_REG, q % U16_LIMIT),
     RegWrite(PERIODH_REG, q / U16_LIMIT),
     RegWrite(CONTROL_REG, ConfiguredControl(ctrl, periodic))]
  }

  /** For a period p in [1, 2^32), the two halves altera_timer_config writes are
      (p - 1) mod 2^16 and (p - 1) div 2^16, and read back as `high << 16 | low` they
      give p - 1. */
  lemma ConfigWritesPeriodMinusOne(ctrl: u16, p: u32, periodic: bool)
    requires p >= 1
    ensures ConfigEvents(ctrl, p, periodic)[2] == RegWrite(PERIODL_REG, (p - 1) % U16_LIMIT)
    ensures ConfigEvents(ctrl, p, periodic)[3] == RegWrite(PERIODH_REG, (p - 1) / U16_LIMIT)
    ensures Or((p - 1) / U16_LIMIT * U16_LIMIT, (p - 1) % U16_LIMIT) == p - 1
  {
    HalvesRecombine(p - 1);
  }

  /** A 32-bit value split into 16-bit halves comes back as `high << 16 | low`. */
  lemma HalvesRecombine(x: u32)
    ensures Or(x / U16_LIMIT * U16_LIMIT, x % U16_LIMIT) == x
  {
    WordSizes();
    OrShifted(x / U16_LIMIT, x % U16_LIMIT, 16);
  }

  /** altera_timer_config reads the control register once and then writes four times:
      control with STOP, PERIODL, PERIODH, control. */
  lemma ConfigAccessOrder(ctrl: u16, p: u32, periodic: bool)
    ensures var t := ConfigEvents(ctrl, p, periodic);
            |t| == 5 && t[0].RegRead? && t[0].offs == CONTROL_REG &&
            (forall i :: 1 <= i < 5 ==> t[i].RegWrite?) &&
            t[1].offs == CONTROL_REG && t[2].offs == PERIODL_REG &&
            t[3].offs == PERIODH_REG && t[4].offs == CONTROL_REG
  {
  }

  /** set_periodic at 100 MHz with HZ = 100 programs 999999: PERIODL 0x423F, PERIODH 0x000F. */
  lemma PeriodicExample()
    ensures DivRoundUp(100_000_000, 100) == 1_000_000
    ensures Decrement32(1_000_000) == 999_999
    ensures 999_999 % U16_LIMIT == 0x423F && 999_999 / U16_LIMIT == 0x000F
  {
  }

  /** The control word altera_clocksource_init writes: CONT and START, with the
      interrupt (ITO) and STOP clear. */
  lemma ClocksourceControlWord()
    ensures Or(CONT, START) == CLOCKSOURCE_CONTROL
    ensures Bit(Or(CONT, START), CONT_BIT) && Bit(Or(CONT, START), START_BIT)
    ensures !Bit(Or(CONT, START), ITO_BIT) && !Bit(Or(CONT, START), STOP_BIT)
  {
    MaskBits();
    OrBits(CONT, START);
    Pow2Bits(CONT_BIT);
    Pow2Bits(START_BIT);
  }

  /** The clock source reports the complement of the raw count, so a counter that
      counts down reads as a value that counts up. */
  lemma ComplementReversesOrder(c1: u32, c2: u32)
    requires c1 >= c2
    ensures Not(c1, COUNTER_BITS) <= Not(c2, COUNTER_BITS)
    ensures Not(c1, COUNTER_BITS) < U32_LIMIT && Not(c2, COUNTER_BITS) < U32_LIMIT
  {
    WordSizes();
    NotIsSubtraction(c1, 32);
    NotIsSubtraction(c2, 32);
  }

  /** What altera_timer_init returns for a given outcome of the calls it makes. */
  function ProbeRet(clocksource: bool, o: ProbeOutcome): int
  {
    if !o.timerOfAllocated then -ENOMEM
    else if o.timerOfInitRet != 0 then o.timerOfInitRet
    else if !clocksource then 0
    else if !o.csAllocated then -ENOMEM
    else o.csRegisterRet
  }

  /** The resources altera_timer_init has acquired when it stops, in acquisition order. */
  function ProbeAcquired(clocksource: bool, o: ProbeOutcome): (rs: seq<Resource>)
    ensures |rs| <= 3
  {
    if !o.timerOfAllocated then []
    else if o.timerOfInitRet != 0 then [TimerOfMem]
    else if !clocksource || !o.csAllocated then [TimerOfMem, TimerOfSetup]
    else [TimerOfMem, TimerOfSetup, ClocksourceMem]
  }

  /** Its acquire/release log, path by path: the acquisitions, then on failure the
      error labels err_free_cs, err_timer_of and err_free_to, which release what was
      acquired. */
  function ProbeLog(clocksource: bool, o: ProbeOutcome): seq<Step<Resource>>
  {
    if !o.timerOfAllocated then []
    else if o.timerOfInitRet != 0 then
      [Step.Acquire(TimerOfMem), Step.Release(TimerOfMem)]
    else if !clocksource then
      [Step.Acquire(TimerOfMem), Step.Acquire(TimerOfSetup)]
    else if !o.csAllocated then
      [Step.Acquire(TimerOfMem), Step.Acquire(TimerOfSetup),
       Step.Release(TimerOfSetup), Step.Release(TimerOfMem)]
    else if o.csRegisterRet != 0 then
      [Step.Acquire(TimerOfMem), Step.Acquire(TimerOfSetup), Step.Acquire(ClocksourceMem),
       Step.Release(ClocksourceMem), Step.Release(TimerOfSetup), Step.Release(TimerOfMem)]
    else
      [Step.Acquire(TimerOfMem), Step.Acquire(TimerOfSetup), Step.Acquire(ClocksourceMem)]
  }

  /** Every path's log is its acquisitions followed, on failure, by the release of
      each of them, newest first. */
  lemma ProbeLogUnwinds(clocksource: bool, o: ProbeOutcome)
    ensures var rs := ProbeAcquired(clocksource, o);
            ProbeLog(clocksource, o) ==
              Acquisitions(rs) + (if ProbeRet(clocksource, o) == 0 then [] else Unwinding(rs))
  {
  }

  /** altera_timer_init succeeds exactly when every call it makes succeeds. */
  lemma ProbeSucceedsIff(clocksource: bool, o: ProbeOutcome)
    ensures ProbeRet(clocksource, o) == 0 <==>
              o.timerOfAllocated && o.timerOfInitRet == 0 &&
              (clocksource ==> o.csAllocated && o.csRegisterRet == 0)
  {
  }

  /** When the framework calls report errors as negative numbers, so does the probe. */
  lemma ProbeFailsNegative(clocksource: bool, o: ProbeOutcome)
    requires o.timerOfInitRet <= 0 && o.csRegisterRet <= 0
    requires ProbeRet(clocksource, o) != 0
    ensures ProbeRet(clocksource, o) < 0
    ensures !o.timerOfAllocated || (clocksource && o.timerOfInitRet == 0 && !o.csAllocated) ==>
              ProbeRet(clocksource, o) == -ENOMEM
  {
  }

  /** No leak and no double free: replaying the log from nothing held ends holding
      nothing after a failure, and holding the acquired resources after a success. */
  lemma ProbeLogBalanced(clocksource: bool, o: ProbeOutcome)
    ensures ProbeRet(clocksource, o) != 0 ==> Replay([], ProbeLog(clocksource, o)) == Some([])
    ensures ProbeRet(clocksource, o) == 0 ==>
              Replay([], ProbeLog(clocksource, o)) == Some(ProbeAcquired(clocksource, o))
  {
    ProbeLogUnwinds(clocksource, o);
    var rs := ProbeAcquired(clocksource, o);
    if ProbeRet(clocksource, o) != 0 {
      UnwindRestores([], rs);
    } else {
      AcquireAll([], rs);
      assert Acquisitions(rs) + [] == Acquisitions(rs);
      assert [] + rs == rs;
    }
  }

  /** A clock source probe that succeeds holds the timer_of and the clock source's
      private data; a clock event probe only the timer_of. */
  lemma ProbeRoleResources(clocksource: bool, o: ProbeOutcome)
    requires ProbeRet(clocksource, o) == 0
    ensures ClocksourceMem in ProbeAcquired(clocksource, o) <==> clocksource
    ensures TimerOfMem in ProbeAcquired(clocksource, o) && TimerOfSetup in ProbeAcquired(clocksource, o)
  {
  }

  /** The register window of one timer, with the log of what the driver did to it and
      the resources the probe function holds. */
  class AlteraTimer {
    const regs: array<u16>
    var trace: seq<Event>
    var resources: seq<Step<Resource>>
    var held: seq<Resource>
    /** timer_of_rate(to): the input clock's rate, known once timer_of_init succeeded. */
    var rate: u32

    ghost predicate Valid()
      reads this
    {
      regs.Length == NUM_REGS
    }

    /** A timer whose registers hold `power`; nothing done to it yet. */
    constructor (power: seq<u16>)
      requires |power| == NUM_REGS
      ensures Valid() && fresh(regs) && regs[..] == power
      ensures trace == [] && resources == [] && held == [] && rate == 0
    {
      regs := new u16[NUM_REGS](i requires 0 <= i < NUM_REGS => power[i]);
      trace, resources, held, rate := [], [], [], 0;
    }

    /** altera_timer_readw. */
    method ReadW(offs: nat) returns (val: u16)
      requires Valid() && IsTimerReg(offs)
      modifies this`trace
      ensures val == regs[offs / 4]
      ensures trace == old(trace) + [RegRead(offs, val)]
    {
      val := regs[offs / 4];
      trace := trace + [RegRead(offs, val)];
    }

    /** altera_timer_writew: its `u16` parameter keeps the low 16 bits of the value. */
    method WriteW(offs: nat, val: nat)
      requires Valid() && IsTimerReg(offs)
      modifies regs, this`trace
      ensures regs[..] == old(regs[..])[offs / 4 := val % U16_LIMIT]
      ensures trace == old(trace) + [RegWrite(offs, val % U16_LIMIT)]
    {
      regs[offs / 4] := val % U16_LIMIT;
      trace := trace + [RegWrite(offs, val % U16_LIMIT)];
    }

    /** altera_timer_start: one read-modify-write of the control register that ORs in START. */
    method Start()
      requires Valid()
      modifies regs, this`trace
      ensures var c := old(regs[CONTROL_REG / 4]);
              regs[..] == old(regs[..])[CONTROL_REG / 4 := StartControl(c)] &&
              trace == old(trace) + [RegRead(CONTROL_REG, c), RegWrite(CONTROL_REG, StartControl(c))]
    {
      var ctrl := ReadW(CONTROL_REG);
      ctrl := StartControl(ctrl);
      WriteW(CONTROL_REG, ctrl);
    }

    /** altera_timer_stop: one read-modify-write of the control register that ORs in STOP. */
    method Stop()
      requires Valid()
      modifies regs, this`trace
      ensures var c := old(regs[CONTROL_REG / 4]);
              regs[..] == old(regs[..])[CONTROL_REG / 4 := StopControl(c)] &&
              trace == old(trace) + [RegRead(CONTROL_REG, c), RegWrite(CONTROL_REG, StopControl(c))]
    {
      var ctrl := ReadW(CONTROL_REG);
      ctrl := StopControl(ctrl);
      WriteW(CONTROL_REG, ctrl);
    }

    /** altera_timer_config: stop, store period - 1 in two halves, restart with the
        interrupt enabled and CONT set exactly when periodic. */
    method Config(period: u32, periodic: bool)
      requires Valid()
      modifies regs, this`trace
      ensures var c := old(regs[CONTROL_REG / 4]);
              var q := Decrement32(period);
              regs[..] == old(regs[..])[CONTROL_REG / 4 := ConfiguredControl(c, periodic)]
                                       [PERIODL_REG / 4 := q % U16_LIMIT]
                                       [PERIODH_REG / 4 := q / U16_LIMIT] &&
              trace == old(trace) + ConfigEvents(c, period, periodic)
    {
      var p := Decrement32(period);
      var ctrl := ReadW(CONTROL_REG);
      ghost var c := ctrl;
      ghost var t0 := old(trace);
      ghost var r0: seq<u16> := old(regs[..]);
      WriteW(CONTROL_REG, StopControl(ctrl));
      WriteW(PERIODL_REG, p);
      WriteW(PERIODH_REG, p / U16_LIMIT);
      assert p / U16_LIMIT % U16_LIMIT == p / U16_LIMIT;
      ghost var t3 := trace;
      assert t3 == t0 + [RegRead(CONTROL_REG, c), RegWrite(CONTROL_REG, StopControl(c)),
                         RegWrite(PERIODL_REG, p % U16_LIMIT), RegWrite(PERIODH_REG, p / U16_LIMIT)];
      ctrl := ConfiguredControl(ctrl, periodic);
      WriteW(CONTROL_REG, ctrl);
      assert trace == t3 + [RegWrite(CONTROL_REG, ConfiguredControl(c, periodic))];
      assert regs[..] == r0[CONTROL_REG / 4 := ConfiguredControl(c, periodic)]
                           [PERIODL_REG / 4 := p % U16_LIMIT]
                           [PERIODH_REG / 4 := p / U16_LIMIT];
    }

    /** altera_clocksource_snapshot. Writing SNAPL latches the live count (`counter`,
        supplied by the hardware) into SNAPL and SNAPH; both halves are then read, in an
        order C leaves open, and combined as `high << 16 | low`. */
    method Snapshot(counter: u32) returns (count: u32)
      requires Valid()
      modifies regs, this`trace
      ensures count == counter
      ensures regs[..] == old(regs[..])[SNAPL_REG / 4 := counter % U16_LIMIT]
                                       [SNAPH_REG / 4 := counter / U16_LIMIT]
      ensures |trace| == |old(trace)| + 3
      ensures trace[..|old(trace)| + 1] == old(trace) + [RegWrite(SNAPL_REG, 0)]
      ensures multiset(trace[|old(trace)| + 1..]) ==
              multiset{RegRead(SNAPH_REG, counter / U16_LIMIT), RegRead(SNAPL_REG, counter % U16_LIMIT)}
    {
      WriteW(SNAPL_REG, 0);
      regs[SNAPL_REG / 4] := counter % U16_LIMIT;
      regs[SNAPH_REG / 4] := counter / U16_LIMIT;
      var hi := ReadW(SNAPH_REG);
      var lo := ReadW(SNAPL_REG);
      HalvesRecombine(counter);
      count := Or(hi * U16_LIMIT, lo);
      assert trace[|old(trace)| + 1..] == [RegRead(SNAPH_REG, hi), RegRead(SNAPL_REG, lo)];
    }

    /** altera_clocksource_read: the complement of the snapshot, so the reported count
        rises as the hardware counts down. */
    method ClocksourceRead(counter: u32) returns (r: nat)
      requires Valid()
      modifies regs, this`trace
      ensures r == ULONG_MAX - counter
      ensures regs[..] == old(regs[..])[SNAPL_REG / 4 := counter % U16_LIMIT]
                                       [SNAPH_REG / 4 := counter / U16_LIMIT]
      ensures |trace| == |old(trace)| + 3
      ensures trace[..|old(trace)| + 1] == old(trace) + [RegWrite(SNAPL_REG, 0)]
      ensures multiset(trace[|old(trace)| + 1..]) ==
              multiset{RegRead(SNAPH_REG, counter / U16_LIMIT), RegRead(SNAPL_REG, counter % U16_LIMIT)}
    {
      var count := Snapshot(counter);
      WordSizes();
      NotIsSubtraction(count, COUNTER_BITS);
      r := Not(count, COUNTER_BITS);
    }

    /** altera_clockevent_set_next_event: a one-shot configuration with the given delta. */
    method SetNextEvent(delta: u32) returns (ret: int)
      requires Valid()
      modifies regs, this`trace
      ensures ret == 0
      ensures var c := old(regs[CONTROL_REG / 4]);
              var q := Decrement32(delta);
              regs[..] == old(regs[..])[CONTROL_REG / 4 := ConfiguredControl(c, false)]
                                       [PERIODL_REG / 4 := q % U16_LIMIT]
                                       [PERIODH_REG / 4 := q / U16_LIMIT] &&
              trace == old(trace) + ConfigEvents(c, delta, false)
    {
      Config(delta, false);
      ret := 0;
    }

    /** altera_clockevent_shutdown, which is also the set_state_oneshot callback: stop
        the timer and nothing else. */
    method Shutdown() returns (ret: int)
      requires Valid()
      modifies regs, this`trace
      ensures ret == 0
      ensures var c := old(regs[CONTROL_REG / 4]);
              regs[..] == old(regs[..])[CONTROL_REG / 4 := StopControl(c)] &&
              trace == old(trace) + [RegRead(CONTROL_REG, c), RegWrite(CONTROL_REG, StopControl(c))]
    {
      Stop();
      ret := 0;
    }

    /** altera_clockevent_set_periodic: a periodic configuration of ceil(rate / HZ)
        cycles. The division is done in unsigned long, so rate + HZ - 1 must fit. */
    method SetPeriodic(hz: nat) returns (ret: int)
      requires Valid() && hz >= 1 && rate + hz - 1 < U32_LIMIT
      modifies regs, this`trace
      ensures ret == 0
      ensures var c := old(regs[CONTROL_REG / 4]);
              var period := DivRoundUp(rate, hz);
              period < U32_LIMIT &&
              var q := Decrement32(period);
              regs[..] == old(regs[..])[CONTROL_REG / 4 := ConfiguredControl(c, true)]
                                       [PERIODL_REG / 4 := q % U16_LIMIT]
                                       [PERIODH_REG / 4 := q / U16_LIMIT] &&
              trace == old(trace) + ConfigEvents(c, period, true)
    {
      var period := DivRoundUp(rate, hz);
      Config(period, true);
      ret := 0;
    }

    /** altera_clockevent_resume: start the timer and nothing else. */
    method Resume() returns (ret: int)
      requires Valid()
      modifies regs, this`trace
      ensures ret == 0
      ensures var c := old(regs[CONTROL_REG / 4]);
              regs[..] == old(regs[..])[CONTROL_REG / 4 := StartControl(c)] &&
              trace == old(trace) + [RegRead(CONTROL_REG, c), RegWrite(CONTROL_REG, StartControl(c))]
    {
      Start();
      ret := 0;
    }

    /** altera_clockevent_handler: clear the interrupt condition, then call the tick
        framework's handler once. */
    method ClockeventHandler() returns (r: IrqReturn)
      requires Valid()
      modifies regs, this`trace
      ensures r == IrqHandled
      ensures regs[..] == old(regs[..])[STATUS_REG / 4 := 0]
      ensures trace == old(trace) + [RegWrite(STATUS_REG, 0), TickCallback]
    {
      WriteW(STATUS_REG, 0);
      trace := trace + [TickCallback];
      r := IrqHandled;
    }

    /** altera_clockevent_init: stop the timer, clear a pending interrupt, register as a
        clock event device accepting deltas from 1 to ULONG_MAX. */
    method ClockeventInit()
      requires Valid()
      modifies regs, this`trace
      ensures var c := old(regs[CONTROL_REG / 4]);
              regs[..] == old(regs[..])[CONTROL_REG / 4 := StopControl(c)][STATUS_REG / 4 := 0] &&
              trace == old(trace) + [RegRead(CONTROL_REG, c), RegWrite(CONTROL_REG, StopControl(c)),
                                     RegWrite(STATUS_REG, 0),
                                     Registered(ClockEvent(rate, TIMER_RATING, 1, ULONG_MAX))]
    {
      Stop();
      WriteW(STATUS_REG, 0);
      trace := trace + [Registered(ClockEvent(rate, TIMER_RATING, 1, ULONG_MAX))];
    }

    /** altera_clocksource_init: register as a 32-bit clock source; only when that
        succeeds, program the largest period and start counting continuously with the
        interrupt disabled. */
    method ClocksourceInit(registerRet: int) returns (ret: int)
      requires Valid()
      modifies regs, this`trace
      ensures ret == registerRet
      ensures registerRet != 0 ==> regs[..] == old(regs[..]) && trace == old(trace)
      ensures registerRet == 0 ==>
                regs[..] == old(regs[..])[PERIODL_REG / 4 := USHRT_MAX][PERIODH_REG / 4 := USHRT_MAX]
                                         [CONTROL_REG / 4 := CLOCKSOURCE_CONTROL] &&
                trace == old(trace) + [Registered(ClockSource(rate, TIMER_RATING, COUNTER_BITS)),
                                       RegWrite(PERIODL_REG, USHRT_MAX), RegWrite(PERIODH_REG, USHRT_MAX),
                                       RegWrite(CONTROL_REG, CLOCKSOURCE_CONTROL)]
    {
      if registerRet != 0 {
        return registerRet;
      }
      trace := trace + [Registered(ClockSource(rate, TIMER_RATING, COUNTER_BITS))];
      WriteW(PERIODL_REG, USHRT_MAX);
      WriteW(PERIODH_REG, USHRT_MAX);
      WriteW(CONTROL_REG, CLOCKSOURCE_CONTROL);
      ret := 0;
    }

    method AcquireResource(r: Resource)
      modifies this`resources, this`held
      ensures resources == old(resources) + [Step.Acquire(r)]
      ensures held == old(held) + [r]
    {
      resources := resources + [Step.Acquire(r)];
      held := held + [r];
    }

    method ReleaseResource(r: Resource)
      requires held != [] && held[|held| - 1] == r
      modifies this`resources, this`held
      ensures resources == old(resources) + [Step.Release(r)]
      ensures held == old(held)[..|old(held)| - 1]
    {
      resources := resources + [Step.Release(r)];
      held := held[..|held| - 1];
    }

    /** altera_timer_init: set the timer up in exactly one role, the clock source when
        `clocksource` is set and the clock event device otherwise. On a failure it
        returns the error with everything acquired so far released, newest first. */
    method TimerInit(clocksource: bool, o: ProbeOutcome) returns (ret: int)
      requires Valid() && held == []
      modifies regs, this`trace, this`resources, this`held, this`rate
      ensures Valid()
      ensures ret == ProbeRet(clocksource, o)
      ensures resources == old(resources) + ProbeLog(clocksource, o)
      ensures held == (if ret == 0 then ProbeAcquired(clocksource, o) else [])
      ensures rate == (if o.timerOfAllocated && o.timerOfInitRet == 0 then o.clockRate else old(rate))
      ensures ret != 0 ==> regs[..] == old(regs[..]) && trace == old(trace)
      ensures ret == 0 && clocksource ==>
                rate == o.clockRate &&
                regs[..] == old(regs[..])[PERIODL_REG / 4 := USHRT_MAX][PERIODH_REG / 4 := USHRT_MAX]
                                         [CONTROL_REG / 4 := CLOCKSOURCE_CONTROL] &&
                trace == old(trace) + [Registered(ClockSource(rate, TIMER_RATING, COUNTER_BITS)),
                                       RegWrite(PERIODL_REG, USHRT_MAX), RegWrite(PERIODH_REG, USHRT_MAX),
                                       RegWrite(CONTROL_REG, CLOCKSOURCE_CONTROL)]
      ensures ret == 0 && !clocksource ==>
                rate == o.clockRate &&
                var c := old(regs[CONTROL_REG / 4]);
                regs[..] == old(regs[..])[CONTROL_REG / 4 := StopControl(c)][STATUS_REG / 4 := 0] &&
                trace == old(trace) + [RegRead(CONTROL_REG, c), RegWrite(CONTROL_REG, StopControl(c)),
                                       RegWrite(STATUS_REG, 0),
                                       Registered(ClockEvent(rate, TIMER_RATING, 1, ULONG_MAX))]
    {
      ghost var log0 := resources;
      if !o.timerOfAllocated {
        return -ENOMEM;
      }
      AcquireResource(TimerOfMem);
      ret := o.timerOfInitRet;
      if ret != 0 {
        // err_free_to
        ReleaseResource(TimerOfMem);
        assert held == [];
        assert resources == log0 + [Step.Acquire(TimerOfMem), Step.Release(TimerOfMem)];
        return;
      }
      AcquireResource(TimerOfSetup);
      assert held == [TimerOfMem, TimerOfSetup];
      ghost var log1 := resources;
      assert log1 == log0 + [Step.Acquire(TimerOfMem), Step.Acquire(TimerOfSetup)];
      rate := o.clockRate;
      if clocksource {
        if !o.csAllocated {
          ret := -ENOMEM;
          // err_timer_of, err_free_to
          ReleaseResource(TimerOfSetup);
          ReleaseResource(TimerOfMem);
          assert held == [];
          assert resources == log1 + [Step.Release(TimerOfSetup), Step.Release(TimerOfMem)];
          return;
        }
        AcquireResource(ClocksourceMem);
        ret := ClocksourceInit(o.csRegisterRet);
        if ret != 0 {
          // err_free_cs, err_timer_of, err_free_to
          ReleaseResource(ClocksourceMem);
          ReleaseResource(TimerOfSetup);
          ReleaseResource(TimerOfMem);
          assert held == [];
          assert resources == log1 + [Step.Acquire(ClocksourceMem), Step.Release(ClocksourceMem),
                                      Step.Release(TimerOfSetup), Step.Release(TimerOfMem)];
          return;
        }
        assert resources == log1 + [Step.Acquire(ClocksourceMem)];
      } else {
        ClockeventInit();
      }
      ret := 0;
    }
  }
}
