/**
 * The Taller interrupt controller: a STATUS register whose bit n is set while line n
 * is pending, and a MASK register whose bit n enables line n. The driver demultiplexes
 * the controller's one parent interrupt into a linear domain of 32 lines, and its
 * init function maps the registers, creates that domain and its generic chip, and
 * unwinds what it acquired when a later step fails.
 *
 * The registers are plain 32-bit storage; the model logs each access, each call into
 * the domain's handler, and the acquisition and release of the register mapping and
 * the domain.
 */
module IrqTaller {
  import opened Bits
  import opened Errno
  import opened Unwind

  /** Register offsets in the controller's window. */
  const STATUS_REG: nat := 0x00
  const MASK_REG: nat := 0x04

  /** Lines of the domain; one generic chip serves all of them. */
  const NUM_LINES: nat := 32

  datatype Event =
    | RegRead(offs: nat, val: u32)
    | RegWrite(offs: nat, val: u32)
    /** generic_handle_domain_irq(taller_irq_domain, hwirq) */
    | Dispatch(hwirq: nat)
    /** set_handle_irq(taller_handle_irq) */
    | HandlerInstalled

  /** What the probe acquires and must give back on failure. */
  datatype Resource = RegisterMap | Domain

  /** The global taller_irq_domain. `Removed` is a pointer to a domain that
      irq_domain_remove has freed: the failure path does not clear the global. */
  datatype DomainSlot = NoDomain | Live(size: nat) | Removed

  /** What of_iomap returns: a mapping, NULL, or an error pointer carrying an errno. */
  datatype MapResult = Mapped | MapNull | MapError(err: int)

  /** The outcomes of the calls taller_intc_init makes. */
  datatype IntcOutcome = IntcOutcome(
    mapping: MapResult,       // of_iomap
    domainAllocated: bool,    // irq_domain_add_linear
    chipsRet: int)            // irq_alloc_domain_generic_chips

  /** An error pointer is one whose value is a negated errno (IS_ERR). */
  predicate WellFormedMap(m: MapResult)
  {
    m.MapError? ==> -MAX_ERRNO <= m.err < 0
  }

  // ---------------------------------------------------------------------------------
  // Demultiplexing: the reference order of dispatch

  /** The set bits of x below n, in ascending order. */
  function SetBitsBelow(x: nat, n: nat): (lines: seq<nat>)
    ensures |lines| <= n
    ensures forall i :: 0 <= i < |lines| ==> lines[i] < n
  {
    if n == 0 then [] else SetBitsBelow(x, n - 1) + (if Bit(x, n - 1) then [n - 1] else [])
  }

  /** The lines a status word reports pending, lowest first. */
  function SetBits(x: u32): (lines: seq<nat>)
    ensures |lines| <= NUM_LINES
  {
    SetBitsBelow(x, NUM_LINES)
  }

  lemma {:induction false} SetBitsBelowMembers(x: nat, n: nat)
    ensures forall j: nat :: j in SetBitsBelow(x, n) <==> j < n && Bit(x, j)
  {
    if n > 0 {
      SetBitsBelowMembers(x, n - 1);
    }
  }

  lemma {:induction false} SetBitsBelowAscending(x: nat, n: nat)
    ensures forall i, j :: 0 <= i < j < |SetBitsBelow(x, n)| ==>
              SetBitsBelow(x, n)[i] < SetBitsBelow(x, n)[j]
  {
    if n > 0 {
      SetBitsBelowAscending(x, n - 1);
    }
  }

  /** Positions with no set bit add nothing. */
  lemma {:induction false} SetBitsSkip(x: nat, k: nat, h: nat)
    requires k <= h
    requires forall j: nat :: k <= j < h ==> !Bit(x, j)
    ensures SetBitsBelow(x, h) == SetBitsBelow(x, k)
    decreases h
  {
    if h > k {
      SetBitsSkip(x, k, h - 1);
    }
  }

  /** A pending line is in the list exactly when its bit is set in the status word;
      the list is strictly ascending, so no line appears twice. */
  lemma SetBitsExactlyPending(x: u32)
    ensures forall j: nat :: j in SetBits(x) <==> j < NUM_LINES && Bit(x, j)
    ensures forall i, j :: 0 <= i < j < |SetBits(x)| ==> SetBits(x)[i] < SetBits(x)[j]
  {
    SetBitsBelowMembers(x, NUM_LINES);
    SetBitsBelowAscending(x, NUM_LINES);
  }

  /** Every bit of a 32-bit status word is one of the 32 lines. */
  lemma SetBitsCoverWord(x: u32)
    ensures forall j: nat :: Bit(x, j) ==> j in SetBits(x)
  {
    WordSizes();
    SetBitsBelowMembers(x, NUM_LINES);
    forall j: nat | Bit(x, j)
      ensures j in SetBits(x)
    {
      SetBitBelowBound(x, NUM_LINES, j);
    }
  }

  lemma {:induction false} NothingPendingBelow(n: nat)
    ensures SetBitsBelow(0, n) == []
  {
    if n > 0 {
      NothingPendingBelow(n - 1);
      ZeroHasNoBits(n - 1);
    }
  }

  /** A zero status word dispatches nothing. */
  lemma NothingPending()
    ensures SetBits(0) == []
  {
    NothingPendingBelow(NUM_LINES);
  }

  /** Status 0xA4 has bits 2, 5 and 7: lines 2, 5 and 7 are dispatched in that order. */
  lemma DispatchOrderExample()
    ensures SetBits(0xA4) == [2, 5, 7]
  {
    WordSizes();
    forall j: nat | 8 <= j < NUM_LINES
      ensures !Bit(0xA4, j)
    {
      assert Pow2(8) == 0x100;
      BitsBelowBound(0xA4, 8, j);
    }
    SetBitsSkip(0xA4, 8, NUM_LINES);
    assert SetBitsBelow(0xA4, 3) == [2];
    assert SetBitsBelow(0xA4, 6) == [2, 5];
    // 0xA4 halves to 82, 41, 20, 10, 5, 2, 1: bit 6 is clear and bit 7 set.
    assert !Bit(0xA4, 6) by {
      assert !Bit(2, 0); assert !Bit(5, 1); assert !Bit(10, 2);
      assert !Bit(20, 3); assert !Bit(41, 4); assert !Bit(82, 5);
    }
    assert Bit(0xA4, 7) by {
      assert Bit(1, 0); assert Bit(2, 1); assert Bit(5, 2); assert Bit(10, 3);
      assert Bit(20, 4); assert Bit(41, 5); assert Bit(82, 6);
    }
  }

  /** The calls into the domain handler for `lines`, in order. */
  function DispatchEvents(lines: seq<nat>): (es: seq<Event>)
    ensures |es| == |lines|
    ensures forall i :: 0 <= i < |lines| ==> es[i] == Dispatch(lines[i])
  {
    if lines == [] then [] else [Dispatch(lines[0])] + DispatchEvents(lines[1..])
  }

  /** The handler is called for a line exactly when that line is pending, and at
      most once per line. */
  lemma DispatchExactlyPending(x: u32)
    ensures forall j: nat :: Dispatch(j) in DispatchEvents(SetBits(x)) <==> j < NUM_LINES && Bit(x, j)
    ensures forall i, j :: 0 <= i < j < |SetBits(x)| ==>
              DispatchEvents(SetBits(x))[i] != DispatchEvents(SetBits(x))[j]
  {
    SetBitsExactlyPending(x);
    var es := DispatchEvents(SetBits(x));
    forall j: nat
      ensures Dispatch(j) in es <==> j in SetBits(x)
    {
      if Dispatch(j) in es {
        var i :| 0 <= i < |es| && es[i] == Dispatch(j);
        assert SetBits(x)[i] == j;
      }
      if j in SetBits(x) {
        var i :| 0 <= i < |SetBits(x)| && SetBits(x)[i] == j;
        assert es[i] == Dispatch(j);
      }
    }
  }

  /** Dispatching one more line extends the log by that line's dispatch. */
  lemma DispatchEventsAppend(t0: seq<Event>, lines: seq<nat>, h: nat)
    ensures t0 + DispatchEvents(lines) + [Dispatch(h)] == t0 + DispatchEvents(lines + [h])
  {
    assert DispatchEvents(lines + [h]) == DispatchEvents(lines) + [Dispatch(h)];
  }

  /** The local copy `status` holds exactly the bits of the status word `s` from
      position k up. */
  ghost predicate BitsFrom(status: nat, s: nat, k: nat)
  {
    forall j: nat :: Bit(status, j) <==> Bit(s, j) && k <= j
  }

  /** One iteration of the demultiplexing loop: its lowest set bit h is the next
      pending line of `s`, and clearing it leaves the bits of `s` from h + 1 up. */
  lemma {:induction false} DispatchStep(s: u32, status: nat, k: nat)
    requires status != 0 && BitsFrom(status, s, k)
    ensures var h := LowestSetBit(status);
            k <= h < NUM_LINES &&
            SetBitsBelow(s, h + 1) == SetBitsBelow(s, k) + [h] &&
            AndNot(status, Pow2(h)) < status &&
            BitsFrom(AndNot(status, Pow2(h)), s, h + 1)
  {
    var h := LowestSetBit(status);
    WordSizes();
    SetBitBelowBound(s, NUM_LINES, h);
    SetBitsSkip(s, k, h);
    AndNotBits(status, Pow2(h));
    Pow2Bits(h);
    AndNotBound(status, Pow2(h));
    assert Bit(status, h) && !Bit(AndNot(status, Pow2(h)), h);
  }

  /** When the local copy is 0, no line of `s` from k up is left to dispatch. */
  lemma DispatchDone(s: u32, k: nat)
    requires k <= NUM_LINES && BitsFrom(0, s, k)
    ensures SetBits(s) == SetBitsBelow(s, k)
  {
    forall j: nat | k <= j < NUM_LINES
      ensures !Bit(s, j)
    {
      ZeroHasNoBits(j);
    }
    SetBitsSkip(s, k, NUM_LINES);
  }

  // ---------------------------------------------------------------------------------
  // Mask and unmask: irq_gc_mask_clr_bit and irq_gc_mask_set_bit on the MASK register

  /** A line is enabled when its MASK bit is set. */
  predicate LineEnabled(mask: nat, line: nat)
  {
    Bit(mask, line)
  }

  lemma LineBelowWord(line: nat)
    requires line < NUM_LINES
    ensures Pow2(line) < U32_LIMIT
  {
    WordSizes();
    Pow2Monotone(line, NUM_LINES);
  }

  /** The MASK value after masking `line`: only that line's bit changes, to clear. */
  function MaskedValue(v: u32, line: nat): (r: u32)
    requires line < NUM_LINES
    ensures forall j: nat :: Bit(r, j) <==> Bit(v, j) && j != line
  {
    AndNotBits(v, Pow2(line));
    Pow2Bits(line);
    AndNotBound(v, Pow2(line));
    AndNot(v, Pow2(line))
  }

  /** The MASK value after unmasking `line`: only that line's bit changes, to set. */
  function UnmaskedValue(v: u32, line: nat): (r: u32)
    requires line < NUM_LINES
    ensures forall j: nat :: Bit(r, j) <==> Bit(v, j) || j == line
  {
    OrBits(v, Pow2(line));
    Pow2Bits(line);
    LineBelowWord(line);
    WordSizes();
    OrBound(v, Pow2(line), NUM_LINES);
    Or(v, Pow2(line))
  }

  lemma MaskDisables(v: u32, line: nat)
    requires line < NUM_LINES
    ensures !LineEnabled(MaskedValue(v, line), line) && LineEnabled(UnmaskedValue(v, line), line)
    ensures forall j: nat :: j != line ==>
              (LineEnabled(MaskedValue(v, line), j) <==> LineEnabled(v, j)) &&
              (LineEnabled(UnmaskedValue(v, line), j) <==> LineEnabled(v, j))
  {
  }

  /** Unmasking an enabled line, or masking a disabled one, changes nothing. */
  lemma MaskNoChange(v: u32, line: nat)
    requires line < NUM_LINES
    ensures LineEnabled(v, line) <==> UnmaskedValue(v, line) == v
    ensures !LineEnabled(v, line) <==> MaskedValue(v, line) == v
  {
    if LineEnabled(v, line) {
      BitsDetermine(UnmaskedValue(v, line), v);
    } else {
      BitsDetermine(MaskedValue(v, line), v);
    }
  }

  /** Mask undoes unmask on a line that was disabled, and unmask undoes mask on a line
      that was enabled. */
  lemma MaskRoundTrip(v: u32, line: nat)
    requires line < NUM_LINES
    ensures !LineEnabled(v, line) ==> MaskedValue(UnmaskedValue(v, line), line) == v
    ensures LineEnabled(v, line) ==> UnmaskedValue(MaskedValue(v, line), line) == v
  {
    if LineEnabled(v, line) {
      BitsDetermine(UnmaskedValue(MaskedValue(v, line), line), v);
    } else {
      BitsDetermine(MaskedValue(UnmaskedValue(v, line), line), v);
    }
  }

  /** Without that condition the round trip fails: masking a line that is already
      disabled and then unmasking it leaves the line enabled, so MASK differs from
      the value it started with. */
  lemma MaskRoundTripNeedsEnabled(v: u32, line: nat)
    requires line < NUM_LINES && !LineEnabled(v, line)
    ensures UnmaskedValue(MaskedValue(v, line), line) != v
  {
    MaskNoChange(v, line);
  }

  /** Operations on different lines do not interfere. */
  lemma MaskCommutes(v: u32, a: nat, b: nat)
    requires a < NUM_LINES && b < NUM_LINES && a != b
    ensures MaskedValue(UnmaskedValue(v, a), b) == UnmaskedValue(MaskedValue(v, b), a)
  {
    BitsDetermine(MaskedValue(UnmaskedValue(v, a), b), UnmaskedValue(MaskedValue(v, b), a));
  }

  /** The value init writes to MASK disables every line. */
  lemma InitialMaskDisablesAll()
    ensures forall line: nat :: !LineEnabled(0, line)
  {
    forall line: nat
      ensures !LineEnabled(0, line)
    {
      ZeroHasNoBits(line);
    }
  }

  // ---------------------------------------------------------------------------------
  // Init: what taller_intc_init returns, acquires and releases

  function IntcInitRet(o: IntcOutcome): int
  {
    match o.mapping
    case MapError(err) => err
    case MapNull => -ENOMEM
    case Mapped =>
      if !o.domainAllocated then -ENOMEM
      else o.chipsRet
  }

  /** The resources acquired before init stops, in acquisition order. */
  function IntcAcquired(o: IntcOutcome): (rs: seq<Resource>)
    ensures |rs| <= 2
  {
    if !o.mapping.Mapped? then []
    else if !o.domainAllocated then [RegisterMap]
    else [RegisterMap, Domain]
  }

  /** The acquire/release log, path by path: the acquisitions, then on failure the
      error labels err_domain_remove and err_unmap, which release what was acquired. */
  function IntcLog(o: IntcOutcome): seq<Step<Resource>>
  {
    if !o.mapping.Mapped? then []
    else if !o.domainAllocated then
      [Step.Acquire(RegisterMap), Step.Release(RegisterMap)]
    else if o.chipsRet != 0 then
      [Step.Acquire(RegisterMap), Step.Acquire(Domain), Step.Release(Domain), Step.Release(RegisterMap)]
    else
      [Step.Acquire(RegisterMap), Step.Acquire(Domain)]
  }

  /** Every path's log is its acquisitions followed, on failure, by the release of
      each of them, newest first. */
  lemma IntcLogUnwinds(o: IntcOutcome)
    ensures var rs := IntcAcquired(o);
            IntcLog(o) == Acquisitions(rs) + (if IntcInitRet(o) == 0 then [] else Unwinding(rs))
  {
  }

  /** Init succeeds exactly when every call succeeds, and a failure is a negative errno
      when the calls report theirs that way. */
  lemma IntcInitResult(o: IntcOutcome)
    requires WellFormedMap(o.mapping) && o.chipsRet <= 0
    ensures IntcInitRet(o) == 0 <==> o.mapping.Mapped? && o.domainAllocated && o.chipsRet == 0
    ensures IntcInitRet(o) <= 0
    ensures o.mapping.MapNull? || (o.mapping.Mapped? && !o.domainAllocated) ==> IntcInitRet(o) == -ENOMEM
  {
  }

  /** A failed init holds nothing afterwards; a successful one holds the mapping and the
      domain. No release is of something not held. */
  lemma IntcLogBalanced(o: IntcOutcome)
    requires WellFormedMap(o.mapping)
    ensures IntcInitRet(o) != 0 ==> Replay([], IntcLog(o)) == Some([])
    ensures IntcInitRet(o) == 0 ==> Replay([], IntcLog(o)) == Some([RegisterMap, Domain])
  {
    IntcLogUnwinds(o);
    var rs := IntcAcquired(o);
    if IntcInitRet(o) != 0 {
      UnwindRestores([], rs);
    } else {
      AcquireAll([], rs);
      assert Acquisitions(rs) + [] == Acquisitions(rs);
      assert [] + rs == rs;
    }
  }

  // ---------------------------------------------------------------------------------
  // The driver

  /** The controller's registers, the driver's global state, and the logs of what the
      driver did. */
  class TallerIntc {
    var statusReg: u32
    var maskReg: u32
    /** taller_irq_domain */
    var domain: DomainSlot
    /** set_handle_irq(taller_handle_irq) has been called. */
    var handlerInstalled: bool
    var trace: seq<Event>
    var resources: seq<Step<Resource>>
    var held: seq<Resource>

    /** A controller with the given register contents, before init. */
    constructor (status: u32, mask: u32)
      ensures statusReg == status && maskReg == mask
      ensures domain == NoDomain && !handlerInstalled
      ensures trace == [] && resources == [] && held == []
    {
      statusReg, maskReg := status, mask;
      domain, handlerInstalled := NoDomain, false;
      trace, resources, held := [], [], [];
    }

    /** taller_handle_irq: read STATUS once, then dispatch each pending line, lowest
        first, clearing it from the local copy. */
    method HandleIrq()
      modifies this`trace
      ensures trace == old(trace) + [RegRead(STATUS_REG, statusReg)] + DispatchEvents(SetBits(statusReg))
    {
      trace := trace + [RegRead(STATUS_REG, statusReg)];
      var status: u32 := statusReg;
      ghost var s := status;
      ghost var t0 := trace;
      ghost var k: nat := 0;
      while status != 0
        invariant k <= NUM_LINES
        invariant BitsFrom(status, s, k)
        invariant trace == t0 + DispatchEvents(SetBitsBelow(s, k))
        decreases NUM_LINES - k
      {
        var hwirq := LowestSetBit(status);
        DispatchStep(s, status, k);
        DispatchEventsAppend(t0, SetBitsBelow(s, k), hwirq);
        trace := trace + [Dispatch(hwirq)];
        status := AndNot(status, Pow2(hwirq));
        k := hwirq + 1;
      }
      DispatchDone(s, k);
    }

    /** The generic chip's irq_mask callback, irq_gc_mask_clr_bit: clear the line's
        bit and write the result to MASK. */
    method Mask(line: nat)
      requires line < NUM_LINES
      modifies this`maskReg, this`trace
      ensures maskReg == MaskedValue(old(maskReg), line)
      ensures trace == old(trace) + [RegWrite(MASK_REG, maskReg)]
    {
      maskReg := MaskedValue(maskReg, line);
      trace := trace + [RegWrite(MASK_REG, maskReg)];
    }

    /** The generic chip's irq_unmask callback, irq_gc_mask_set_bit: set the line's bit
        and write the result to MASK. */
    method Unmask(line: nat)
      requires line < NUM_LINES
      modifies this`maskReg, this`trace
      ensures maskReg == UnmaskedValue(old(maskReg), line)
      ensures trace == old(trace) + [RegWrite(MASK_REG, maskReg)]
    {
      maskReg := UnmaskedValue(maskReg, line);
      trace := trace + [RegWrite(MASK_REG, maskReg)];
    }

    method AcquireResource(r: Resource)
      modifies this`resources, this`held
      ensures resources == old(resources) + [Step.Acquire(r)]
      ensures held == old(held) + [r]
    {
      resources := resources + [Step.Acquire(r)];
      held := held + [r];
    }

    method ReleaseResource(r: Resource)
      requires held != [] && held[|held| - 1] == r
      modifies this`resources, this`held
      ensures resources == old(resources) + [Step.Release(r)]
      ensures held == old(held)[..|old(held)| - 1]
    {
      resources := resources + [Step.Release(r)];
      held := held[..|held| - 1];
    }

    /** taller_intc_init: map the registers, create the 32-line domain and its generic
        chip, disable every line and install the demultiplexer. */
    method Init(o: IntcOutcome) returns (ret: int)
      requires held == [] && WellFormedMap(o.mapping)
      modifies this
      ensures ret == IntcInitRet(o)
      ensures resources == old(resources) + IntcLog(o)
      ensures held == (if ret == 0 then IntcAcquired(o) else [])
      ensures statusReg == old(statusReg)
      ensures domain == (if !o.mapping.Mapped? then old(domain)
                         else if !o.domainAllocated then NoDomain
                         else if o.chipsRet != 0 then Removed
                         else Live(NUM_LINES))
      ensures ret != 0 ==>
                maskReg == old(maskReg) && handlerInstalled == old(handlerInstalled) && trace == old(trace)
      ensures ret == 0 ==>
                maskReg == 0 && handlerInstalled &&
                trace == old(trace) + [RegWrite(MASK_REG, 0), HandlerInstalled]
    {
      match o.mapping {
        case MapError(err) =>
          return err;
        case MapNull =>
          return -ENOMEM;
        case Mapped =>
      }
      AcquireResource(RegisterMap);
      if !o.domainAllocated {
        domain := NoDomain;
        ret := -ENOMEM;
        // err_unmap
        ReleaseResource(RegisterMap);
        return;
      }
      domain := Live(NUM_LINES);
      AcquireResource(Domain);
      ret := o.chipsRet;
      if ret != 0 {
        // err_domain_remove, err_unmap
        ReleaseResource(Domain);
        domain := Removed;
        ReleaseResource(RegisterMap);
        return;
      }
      maskReg := 0;
      trace := trace + [RegWrite(MASK_REG, 0)];
      handlerInstalled := true;
      trace := trace + [HandlerInstalled];
      ret := 0;
    }
  }
}
