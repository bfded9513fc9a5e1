/**
 * The interrupt-mask critical section of the Rust bindings
 * (rust/src/tasks.rs). A `CriticalSection` guard masks interrupts through
 * PRIMASK when it is created and writes the previous mask back when it is
 * dropped; the `critical!` macro keeps one alive around a block.
 *
 * PRIMASK is a one-bit register on ARMv7-M and ARMv6-M: `MRS` reads it as
 * 0 or 1 and `MSR` keeps only bit 0 of the value written.
 */
module RustTasks {

  /** The core's PRIMASK register. */
  class Cpu {
    var primask: nat

    ghost predicate Valid()
      reads this
    {
      primask < 2
    }

    constructor (initial: nat)
      requires initial < 2
      ensures Valid() && primask == initial
    {
      primask := initial;
    }
  }

  /** `CriticalSection(u32)`: the PRIMASK value to restore. */
  datatype CriticalSection = CriticalSection(saved: nat)

  /**
   * `mask_interrupts`: reads PRIMASK, then writes `mask` to it; returns
   * the value read.
   */
  method MaskInterrupts(cpu: Cpu, mask: nat) returns (prev: nat)
    requires cpu.Valid()
    modifies cpu
    ensures cpu.Valid()
    ensures prev == old(cpu.primask) && cpu.primask == mask % 2
  {
    prev := cpu.primask;
    cpu.primask := mask % 2;
  }

  /** `CriticalSection::start`: masks interrupts, keeping the previous mask. */
  method Start(cpu: Cpu) returns (cs: CriticalSection)
    requires cpu.Valid()
    modifies cpu
    ensures cpu.Valid() && cpu.primask == 1
    ensures cs.saved == old(cpu.primask)
  {
    var prev := MaskInterrupts(cpu, 1);
    cs := CriticalSection(prev);
  }

  /** `Drop for CriticalSection`: writes the saved mask back. */
  method Drop(cpu: Cpu, cs: CriticalSection)
    requires cpu.Valid()
    modifies cpu
    ensures cpu.Valid() && cpu.primask == cs.saved % 2
  {
    var _ := MaskInterrupts(cpu, cs.saved);
  }

  /**
   * `critical!`: the block, here `body` as a function of the PRIMASK
   * value it runs under, is evaluated while a guard is alive, and the
   * macro's value is the block's.
   */
  method Critical<T>(cpu: Cpu, body: nat -> T) returns (r: T)
    requires cpu.Valid()
    modifies cpu
    ensures cpu.Valid() && cpu.primask == old(cpu.primask)
    ensures r == body(1)
  {
    var guard := Start(cpu);
    r := body(cpu.primask);
    Drop(cpu, guard);
  }

  /**
   * Two nested sections over a core whose PRIMASK was `p`: after the
   * inner guard is dropped interrupts are still masked, and after the
   * outer one PRIMASK is `p` again.
   */
  method Nested(p: nat) returns (inside: nat, afterInner: nat, afterOuter: nat)
    requires p < 2
    ensures inside == 1 && afterInner == 1 && afterOuter == p
  {
    var cpu := new Cpu(p);
    var outer := Start(cpu);
    var inner := Start(cpu);
    inside := cpu.primask;
    Drop(cpu, inner);
    afterInner := cpu.primask;
    Drop(cpu, outer);
    afterOuter := cpu.primask;
  }

  /**
   * `d` sections nested inside one another, each guard created within the
   * block of the one before. `exits[i]` is PRIMASK once `i + 1` guards,
   * innermost first, have been dropped: interrupts stay masked until the
   * outermost guard goes, which writes back the mask found on entry.
   */
  method NestedSections(cpu: Cpu, d: nat) returns (inside: nat, exits: seq<nat>)
    requires cpu.Valid() && d >= 1
    modifies cpu
    ensures cpu.Valid() && cpu.primask == old(cpu.primask)
    ensures inside == 1 && |exits| == d
    ensures forall i :: 0 <= i < d - 1 ==> exits[i] == 1
    ensures exits[d - 1] == old(cpu.primask)
    decreases d
  {
    var guard := Start(cpu);
    if d == 1 {
      inside := cpu.primask;
      exits := [];
    } else {
      inside, exits := NestedSections(cpu, d - 1);
    }
    Drop(cpu, guard);
    exits := exits + [cpu.primask];
  }

  /** Sections nested `d` deep over a core whose PRIMASK was `p`. */
  method NestedAt(p: nat, d: nat) returns (inside: nat, exits: seq<nat>)
    requires p < 2 && d >= 1
    ensures inside == 1 && |exits| == d
    ensures forall i :: 0 <= i < d - 1 ==> exits[i] == 1
    ensures exits[d - 1] == p
  {
    var cpu := new Cpu(p);
    inside, exits := NestedSections(cpu, d);
  }
}
