/**
 * Secondary CPU bring-up on the Taller platform. Prepare looks up the SMP controller
 * in the device tree and maps its doorbell register; only then does it mark CPUs 0 to 3
 * possible. Booting a secondary copies the trampoline image to physical address 0 and
 * rings the doorbell with the CPU's bit.
 *
 * Low memory and the possible-CPU mask are arrays, the image is a fixed byte sequence,
 * and the doorbell writes go to an ordered log after the copy that precedes them.
 */
module TallerSmp {
  import opened Bits
  import opened Errno

  /** The CPUs prepare marks possible are 0 .. CPUS_MARKED - 1. */
  const CPUS_MARKED: nat := 4

  /** Width of the doorbell register, and so the CPUs it can address. */
  const DOORBELL_BITS: nat := 32

  datatype Event =
    /** memcpy(phys_to_virt(0), secondary_trampoline, size) */
    | TrampolineCopy(size: nat)
    /** writel(val, smp_ctrl) */
    | Doorbell(val: u32)

  /** Low memory after the trampoline is copied to address 0: the image at the start and
      everything after it as it was. */
  function LoadTrampoline(mem: seq<u8>, image: seq<u8>): (m: seq<u8>)
    requires |image| <= |mem|
    ensures |m| == |mem|
    ensures forall i :: 0 <= i < |image| ==> m[i] == image[i]
    ensures forall i :: |image| <= i < |mem| ==> m[i] == mem[i]
  {
    image + mem[|image|..]
  }

  /** Copying the trampoline again changes nothing more. */
  lemma LoadTrampolineIdempotent(mem: seq<u8>, image: seq<u8>)
    requires |image| <= |mem|
    ensures LoadTrampoline(LoadTrampoline(mem, image), image) == LoadTrampoline(mem, image)
  {
  }

  /** Memory that already holds the image is left as it is. */
  lemma LoadTrampolineFixesLoaded(mem: seq<u8>, image: seq<u8>)
    requires |image| <= |mem| && mem[..|image|] == image
    ensures LoadTrampoline(mem, image) == mem
  {
    assert mem == mem[..|image|] + mem[|image|..];
  }

  /** The possible mask after a successful prepare: CPUs 0 to 3 set, the rest kept. */
  function MarkPossible(p: seq<bool>): (q: seq<bool>)
    requires |p| >= CPUS_MARKED
    ensures |q| == |p|
    ensures forall i :: 0 <= i < CPUS_MARKED ==> q[i]
    ensures forall i :: CPUS_MARKED <= i < |p| ==> q[i] == p[i]
  {
    [true, true, true, true] + p[CPUS_MARKED..]
  }

  /** A second prepare marks nothing new. */
  lemma MarkPossibleIdempotent(p: seq<bool>)
    requires |p| >= CPUS_MARKED
    ensures MarkPossible(MarkPossible(p)) == MarkPossible(p)
  {
  }

  /** After a successful prepare a CPU is possible exactly when it is one of 0 to 3 or
      was already possible. */
  lemma MarkPossibleExactly(p: seq<bool>)
    requires |p| >= CPUS_MARKED
    ensures forall i :: 0 <= i < |p| ==> (MarkPossible(p)[i] <==> i < CPUS_MARKED || p[i])
  {
  }

  /** The value a boot writes to the doorbell: `1 << cpu`, the CPU's bit alone. */
  function DoorbellValue(cpu: nat): (v: u32)
    requires cpu < DOORBELL_BITS
    ensures forall j: nat :: Bit(v, j) <==> j == cpu
  {
    Pow2Bits(cpu);
    WordSizes();
    Pow2Monotone(cpu, DOORBELL_BITS);
    Pow2(cpu)
  }

  /** Different CPUs ring different doorbell values, so each write wakes one CPU. */
  lemma DoorbellDistinct(a: nat, b: nat)
    requires a < DOORBELL_BITS && b < DOORBELL_BITS
    ensures DoorbellValue(a) == DoorbellValue(b) <==> a == b
  {
    if DoorbellValue(a) == DoorbellValue(b) {
      assert Bit(DoorbellValue(a), a);
    }
  }

  /** CPU 2's doorbell value is 4. */
  lemma DoorbellExample()
    ensures DoorbellValue(2) == 4
  {
  }

  /** The platform's SMP state: whether smp_ctrl is mapped, low memory, the possible-CPU
      mask, the trampoline image linked into the kernel, and the log of copies and
      doorbell writes. */
  class SmpBoot {
    /** smp_ctrl != NULL */
    var smpCtrl: bool
    const lowMem: array<u8>
    const possible: array<bool>
    /** secondary_trampoline .. secondary_trampoline_end */
    const trampoline: seq<u8>
    var trace: seq<Event>

    ghost predicate Valid()
      reads this
    {
      possible.Length >= CPUS_MARKED && |trampoline| <= lowMem.Length
    }

    /** The state at boot: smp_ctrl null, nothing logged. */
    constructor (mem: seq<u8>, cpus: seq<bool>, image: seq<u8>)
      requires |cpus| >= CPUS_MARKED && |image| <= |mem|
      ensures Valid() && fresh(lowMem) && fresh(possible)
      ensures lowMem[..] == mem && possible[..] == cpus && trampoline == image
      ensures !smpCtrl && trace == []
    {
      lowMem := new u8[|mem|](i requires 0 <= i < |mem| => mem[i]);
      possible := new bool[|cpus|](i requires 0 <= i < |cpus| => cpus[i]);
      trampoline := image;
      smpCtrl := false;
      trace := [];
    }

    /** taller_smp_prepare_cpus. `nodeFound` is whether of_find_compatible_node found the
        controller and `mapped` whether of_iomap mapped it; max_cpus is not used. */
    method PrepareCpus(maxCpus: nat, nodeFound: bool, mapped: bool)
      requires Valid()
      modifies this`smpCtrl, possible
      ensures smpCtrl == (if nodeFound then mapped else old(smpCtrl))
      ensures nodeFound && mapped ==> possible[..] == MarkPossible(old(possible[..]))
      ensures !(nodeFound && mapped) ==> possible[..] == old(possible[..])
    {
      if !nodeFound {
        return;
      }
      smpCtrl := mapped;
      if !smpCtrl {
        return;
      }
      for i := 0 to CPUS_MARKED
        invariant smpCtrl
        invariant forall j :: 0 <= j < possible.Length ==>
                    possible[j] == (j < i || old(possible[j]))
      {
        possible[i] := true;
      }
      assert possible[..] == MarkPossible(old(possible[..]));
    }

    /** taller_boot_secondary: refuse when prepare has not mapped the controller;
        otherwise copy the trampoline to address 0, then ring the doorbell for `cpu`. */
    method BootSecondary(cpu: nat) returns (ret: int)
      requires Valid() && cpu < DOORBELL_BITS
      modifies lowMem, this`trace
      ensures !smpCtrl ==> ret == -EINVAL && lowMem[..] == old(lowMem[..]) && trace == old(trace)
      ensures smpCtrl ==>
                ret == 0 &&
                lowMem[..] == LoadTrampoline(old(lowMem[..]), trampoline) &&
                trace == old(trace) + [TrampolineCopy(|trampoline|), Doorbell(DoorbellValue(cpu))]
    {
      if !smpCtrl {
        return -EINVAL;
      }
      forall i | 0 <= i < |trampoline| {
        lowMem[i] := trampoline[i];
      }
      trace := trace + [TrampolineCopy(|trampoline|)];
      trace := trace + [Doorbell(DoorbellValue(cpu))];
      ret := 0;
    }
  }
}
