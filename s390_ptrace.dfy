// The pt_regs helpers of arch/s390/include/asm/ptrace.h: the PIF flag
// bits, general register and return value access, and kernel-stack
// argument lookup. Kernel memory is a function from address to the
// unsigned long stored there.

module S390Ptrace {
  import opened Ints
  import opened Bits

  /** NUM_GPRS of uapi/asm/ptrace.h. */
  const NUM_GPRS: nat := 16
  /** THREAD_SIZE: PAGE_SIZE << THREAD_SIZE_ORDER, 4096 << 2. */
  const THREAD_SHIFT: nat := 14
  /** STACK_FRAME_OVERHEAD of the 64-bit s390 ABI, and sizeof(long). */
  const STACK_FRAME_OVERHEAD: nat := 160
  const LONG_SIZE: nat := 8
  const NR_REG_ARGUMENTS: nat := 5

  /** An unsigned long read as a long. */
  function Signed64(x: u64): int
  {
    if x < U64_LIMIT / 2 then x else x - U64_LIMIT
  }

  /** `flags | (1UL << flag)` */
  function WithFlag(flags: u64, flag: nat): (r: u64)
    requires flag < 64
    ensures Bit(r, flag) == 1
    ensures forall k: nat :: k != flag ==> Bit(r, k) == Bit(flags, k)
  {
    SetFlagBits(flags, flag);
    Or(flags, Pow2(flag))
  }

  lemma SetFlagBits(flags: u64, flag: nat)
    requires flag < 64
    ensures Or(flags, Pow2(flag)) < U64_LIMIT
    ensures Bit(Or(flags, Pow2(flag)), flag) == 1
    ensures forall k: nat :: Bit(Or(flags, Pow2(flag)), k) == if k == flag then 1 else Bit(flags, k)
  {
    Pow2Literals();
    Pow2Mono(flag + 1, 64);
    AndOrBelow(flags, Pow2(flag), 64);
    forall k: nat
      ensures Bit(Or(flags, Pow2(flag)), k) == if k == flag then 1 else Bit(flags, k)
    {
      OrBit(flags, Pow2(flag), k);
      PowBit(flag, k);
    }
  }

  /** `flags & ~(1UL << flag)` */
  function WithoutFlag(flags: u64, flag: nat): (r: u64)
    requires flag < 64
    ensures Bit(r, flag) == 0
    ensures forall k: nat :: k != flag ==> Bit(r, k) == Bit(flags, k)
  {
    ClearFlagBits(flags, flag);
    And(flags, Mask(64, 0) - Pow2(flag))
  }

  /** `~(1UL << flag)` is GENMASK(63, 0) less the flag bit. */
  lemma ClearFlagBits(flags: u64, flag: nat)
    requires flag < 64
    ensures Pow2(flag) <= Mask(64, 0) && And(flags, Mask(64, 0) - Pow2(flag)) < U64_LIMIT
    ensures Bit(And(flags, Mask(64, 0) - Pow2(flag)), flag) == 0
    ensures forall k: nat :: Bit(And(flags, Mask(64, 0) - Pow2(flag)), k) == if k == flag then 0 else Bit(flags, k)
  {
    Pow2Literals();
    Pow2Mono(flag + 1, 64);
    var notFlag := Mask(64, 0) - Pow2(flag);
    AndOrBelow(flags, notFlag, 64);
    forall k: nat
      ensures Bit(And(flags, notFlag), k) == if k == flag then 0 else Bit(flags, k)
    {
      AndBit(flags, notFlag, k);
      ComplementBit(Pow2(flag), 64, k);
      PowBit(flag, k);
      TimesBit(Bit(flags, k), Bit(notFlag, k));
      if k >= 64 {
        BitsAbove(flags, 64, k);
      }
    }
  }

  /** `!!(flags & (1UL << flag))` */
  function FlagTest(flags: u64, flag: nat): (r: int)
    requires flag < 64
    ensures r == Bit(flags, flag)
  {
    SingleBit(flags, flag);
    if And(flags, Pow2(flag)) != 0 then 1 else 0
  }

  /** The saved register state; only the members the helpers touch. */
  class PtRegs {
    var gprs: seq<u64>
    var flags: u64

    ghost predicate Valid()
      reads this
    {
      |gprs| == NUM_GPRS
    }

    constructor (gprs0: seq<u64>, flags0: u64)
      requires |gprs0| == NUM_GPRS
      ensures Valid() && gprs == gprs0 && flags == flags0
    {
      gprs := gprs0;
      flags := flags0;
    }

    /** set_pt_regs_flag */
    method SetFlag(flag: nat)
      requires flag < 64
      modifies this
      ensures flags == WithFlag(old(flags), flag) && gprs == old(gprs)
      ensures TestFlag(flag) == 1
    {
      flags := WithFlag(flags, flag);
    }

    /** clear_pt_regs_flag */
    method ClearFlag(flag: nat)
      requires flag < 64
      modifies this
      ensures flags == WithoutFlag(old(flags), flag) && gprs == old(gprs)
      ensures TestFlag(flag) == 0
    {
      flags := WithoutFlag(flags, flag);
    }

    /** test_pt_regs_flag */
    function TestFlag(flag: nat): (r: int)
      requires flag < 64
      reads this
      ensures r == Bit(flags, flag)
    {
      FlagTest(flags, flag)
    }

    /** test_and_clear_pt_regs_flag: the flag's prior value, with the flag left clear. */
    method TestAndClearFlag(flag: nat) returns (ret: int)
      requires flag < 64
      modifies this
      ensures ret == old(TestFlag(flag)) && TestFlag(flag) == 0
      ensures flags == WithoutFlag(old(flags), flag) && gprs == old(gprs)
    {
      ret := TestFlag(flag);
      ClearFlag(flag);
    }

    /** regs_return_value: gprs[2] as a long. */
    function ReturnValue(): (r: int)
      requires Valid()
      reads this
      ensures -U64_LIMIT / 2 <= r < U64_LIMIT / 2 && Wrap64(r) == gprs[2]
    {
      Signed64(gprs[2])
    }

    /** regs_set_return_value */
    method SetReturnValue(rc: u64)
      requires Valid()
      modifies this
      ensures Valid() && gprs == old(gprs)[2 := rc] && flags == old(flags)
      ensures ReturnValue() == Signed64(rc)
    {
      gprs := gprs[2 := rc];
    }
  }

  /** Flag bits other than the one set or cleared keep their values. */
  lemma FlagsIndependent(flags: u64, flag: nat, other: nat)
    requires flag < 64 && other < 64 && other != flag
    ensures FlagTest(WithFlag(flags, flag), other) == FlagTest(flags, other)
    ensures FlagTest(WithoutFlag(flags, flag), other) == FlagTest(flags, other)
  {
  }

  /** Clearing undoes setting a bit that was clear, and setting undoes clearing one that was set. */
  lemma {:induction false} SetClearInverse(flags: u64, flag: nat)
    requires flag < 64
    ensures FlagTest(flags, flag) == 0 ==> WithoutFlag(WithFlag(flags, flag), flag) == flags
    ensures FlagTest(flags, flag) == 1 ==> WithFlag(WithoutFlag(flags, flag), flag) == flags
  {
    forall k: nat
      ensures Bit(WithoutFlag(WithFlag(flags, flag), flag), k) == (if FlagTest(flags, flag) == 0 then Bit(flags, k) else Bit(WithoutFlag(WithFlag(flags, flag), flag), k))
      ensures Bit(WithFlag(WithoutFlag(flags, flag), flag), k) == (if FlagTest(flags, flag) == 1 then Bit(flags, k) else Bit(WithFlag(WithoutFlag(flags, flag), flag), k))
    {
    }
    if FlagTest(flags, flag) == 0 {
      BitsEqual(WithoutFlag(WithFlag(flags, flag), flag), flags);
    } else {
      BitsEqual(WithFlag(WithoutFlag(flags, flag), flag), flags);
    }
  }

  /** kernel_stack_pointer: gprs[15]. */
  function KernelStackPointer(gprs: seq<u64>): (r: u64)
    requires |gprs| == NUM_GPRS
    ensures r == GetRegister(gprs, 15)
  {
    gprs[15]
  }

  /** regs_get_register: gprs[offset], or 0 for an offset past the last register. */
  function GetRegister(gprs: seq<u64>, offset: nat): (r: u64)
    requires |gprs| == NUM_GPRS
    ensures offset < NUM_GPRS ==> r == gprs[offset]
    ensures offset >= NUM_GPRS ==> r == 0
  {
    if offset >= NUM_GPRS then 0 else gprs[offset]
  }

  /** `addr & ~(THREAD_SIZE - 1)` in unsigned long. */
  function StackBase(addr: u64): nat
  {
    And(addr, Mask(64, THREAD_SHIFT))
  }

  /** regs_within_kernel_stack: addr shares the THREAD_SIZE-aligned block of the stack pointer. */
  function WithinKernelStack(gprs: seq<u64>, addr: u64): (r: bool)
    requires |gprs| == NUM_GPRS
    ensures r <==> addr / Pow2(THREAD_SHIFT) == KernelStackPointer(gprs) / Pow2(THREAD_SHIFT)
  {
    var ksp := KernelStackPointer(gprs);
    Pow2Literals();
    HighBits(addr, 64, THREAD_SHIFT);
    HighBits(ksp, 64, THREAD_SHIFT);
    SameBlock(addr, ksp, Pow2(THREAD_SHIFT));
    StackBase(addr) == StackBase(ksp)
  }

  lemma SameBlock(a: nat, b: nat, t: nat)
    requires t >= 1
    ensures (a / t) * t == (b / t) * t <==> a / t == b / t
  {
    MulCancel(a / t, b / t, t);
  }

  lemma MulCancel(x: int, y: int, t: int)
    requires t >= 1
    ensures x * t == y * t ==> x == y
  {
    assert x * t - y * t == (x - y) * t;
  }

  /** regs_get_kernel_stack_nth: the n-th long above the stack pointer, or 0 outside its stack block. */
  function GetKernelStackNth(gprs: seq<u64>, mem: u64 -> u64, n: u32): (r: u64)
    requires |gprs| == NUM_GPRS
    ensures var addr := Wrap64(KernelStackPointer(gprs) + n * LONG_SIZE);
            r == if addr / Pow2(THREAD_SHIFT) == KernelStackPointer(gprs) / Pow2(THREAD_SHIFT) then mem(addr) else 0
  {
    var addr := Wrap64(KernelStackPointer(gprs) + n * LONG_SIZE);
    if !WithinKernelStack(gprs, addr) then 0 else mem(addr)
  }

  /**
   * regs_get_kernel_argument: the first five arguments are in r2 to r6;
   * later ones come from the caller's frame, STACK_FRAME_OVERHEAD bytes
   * above the stack pointer (the slot index is unsigned int arithmetic).
   */
  function GetKernelArgument(gprs: seq<u64>, mem: u64 -> u64, n: u32): (r: u64)
    requires |gprs| == NUM_GPRS
    ensures n < NR_REG_ARGUMENTS ==> r == gprs[2 + n]
    ensures n >= NR_REG_ARGUMENTS ==>
              r == GetKernelStackNth(gprs, mem, Wrap32(STACK_FRAME_OVERHEAD / LONG_SIZE + (n - NR_REG_ARGUMENTS)))
  {
    var argoffset := STACK_FRAME_OVERHEAD / LONG_SIZE;
    if n < NR_REG_ARGUMENTS then GetRegister(gprs, 2 + n)
    else GetKernelStackNth(gprs, mem, Wrap32(argoffset + (n - NR_REG_ARGUMENTS)))
  }

  /** A stack argument is read from argument slot 20 + (n - 5) when that slot lies in the stack block. */
  lemma StackArgument(gprs: seq<u64>, mem: u64 -> u64, n: u32)
    requires |gprs| == NUM_GPRS && NR_REG_ARGUMENTS <= n < U32_LIMIT - 15
    ensures var addr := Wrap64(KernelStackPointer(gprs) + (20 + n - NR_REG_ARGUMENTS) * 8);
            GetKernelArgument(gprs, mem, n) == if WithinKernelStack(gprs, addr) then mem(addr) else 0
  {
  }
}
