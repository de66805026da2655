// The TI DaVinci GPIO controller of drivers/gpio/gpio-davinci.c: the
// per-pin direction and data operations, the probe-time counts, the IRQ
// setup, the chained bank interrupt handler, the trigger-type handlers and
// the suspend/resume register context. Each 32-pin register set is a value
// of BankRegs; a write stores the value, except for INTSTAT, where writing
// ones clears the written bits.

module GpioDavinci {
  import opened Ints
  import opened Errno
  import opened Wrappers
  import opened Bits

  const MAX_REGS_BANKS: nat := 5
  const MAX_INT_PER_BANK: nat := 32
  const IRQ_TYPE_EDGE_RISING: u32 := 1
  const IRQ_TYPE_EDGE_FALLING: u32 := 2
  const IRQ_TYPE_EDGE_BOTH: u32 := 3
  const ALL_ONES: u32 := 0xffff_ffff

  /** A register set of 32 pins. */
  datatype BankRegs = BankRegs(dir: u32, outData: u32, setData: u32, clrData: u32, inData: u32,
                               setRising: u32, clrRising: u32, setFalling: u32, clrFalling: u32,
                               intstat: u32)

  const ZERO_REGS: BankRegs := BankRegs(0, 0, 0, 0, 0, 0, 0, 0, 0, 0)

  function DivRoundUp(n: nat, d: nat): nat
    requires d > 0
  {
    (n + d - 1) / d
  }

  /** __gpio_mask: the pin's bit within its register set. */
  function GpioMask(gpio: nat): (m: u32)
    ensures m == Pow2(gpio % 32)
  {
    Pow2Is32();
    Pow2Mono(gpio % 32, 31);
    Pow2(gpio % 32)
  }

  // ---------------------------------------------------------------------
  // Probe counts
  // ---------------------------------------------------------------------

  datatype ProbeCounts = ProbeCounts(nirq: nat, nbank: nat)

  /** The first negative platform_get_irq result among the first n, if any. */
  function FirstIrqError(irqs: seq<int>, n: nat): (r: Option<int>)
    requires n <= |irqs|
    ensures r.Some? <==> exists i :: 0 <= i < n && irqs[i] < 0
    ensures r.Some? ==> r.value < 0
    decreases n
  {
    if n == 0 then None
    else match FirstIrqError(irqs, n - 1)
      case Some(e) => Some(e)
      case None => if irqs[n - 1] < 0 then Some(irqs[n - 1]) else None
  }

  /**
   * DIV_ROUND_UP on an unsigned int: the sum n + d - 1 is computed in 32
   * bits, so it wraps for the largest n.
   */
  function DivRoundUpU32(n: u32, d: nat): (r: nat)
    requires 0 < d < U32_LIMIT
    ensures n + d - 1 < U32_LIMIT ==> r == DivRoundUp(n, d)
    ensures n + d - 1 >= U32_LIMIT ==> r == (n + d - 1 - U32_LIMIT) / d
  {
    Wrap32(n + d - 1) / d
  }

  /**
   * The checks davinci_gpio_probe makes, as written: ngpio, the IRQ count
   * and the platform IRQs, with nirq and nbank computed in unsigned int.
   * Nothing here bounds the bank count.
   */
  function ProbeCheck(ngpio: u32, unbanked: u32, platformIrqs: seq<int>): (r: Result<ProbeCounts>)
    requires |platformIrqs| == MAX_INT_PER_BANK
    ensures ngpio == 0 ==> r == Err(-EINVAL)
    ensures r.Err? ==> r.code < 0
    ensures r.Ok? ==> r.value.nirq <= MAX_INT_PER_BANK && r.value.nbank == DivRoundUpU32(ngpio, 32)
    ensures r.Ok? ==> r.value.nirq == if unbanked != 0 then unbanked else DivRoundUpU32(ngpio, 16)
    ensures r.Ok? ==> forall i :: 0 <= i < r.value.nirq ==> platformIrqs[i] >= 0
  {
    var nirq := if unbanked != 0 then unbanked else DivRoundUpU32(ngpio, 16);
    if ngpio == 0 then Err(-EINVAL)
    else if nirq > MAX_INT_PER_BANK then Err(-EINVAL)
    else match FirstIrqError(platformIrqs, nirq)
      case Some(e) => Err(e)
      case None => Ok(ProbeCounts(nirq, DivRoundUpU32(ngpio, 32)))
  }

  /** Probe as written accepts 200 banked pins, which need 7 register sets of the 5 it has. */
  lemma ProbeAcceptsTooManyBanks()
    ensures var irqs := seq(MAX_INT_PER_BANK, _ => 1);
            ProbeCheck(200, 0, irqs) == Ok(ProbeCounts(13, 7)) && 7 > MAX_REGS_BANKS
  {
    var irqs := seq(MAX_INT_PER_BANK, _ => 1);
    assert FirstIrqError(irqs, 13).None?;
  }

  /**
   * With the largest ngpio both rounded-up counts wrap to 0: probe as
   * written reads no platform IRQ and goes on with no register set at all.
   */
  lemma ProbeWrapsToNoBanks(platformIrqs: seq<int>)
    requires |platformIrqs| == MAX_INT_PER_BANK
    ensures ProbeCheck(0xffff_ffff, 0, platformIrqs) == Ok(ProbeCounts(0, 0))
  {
    assert DivRoundUpU32(0xffff_ffff, 16) == 0;
    assert DivRoundUpU32(0xffff_ffff, 32) == 0;
  }

  /**
   * The probe checks with the bound on ngpio that regs[] and offset_array[]
   * need: at most 32 * MAX_REGS_BANKS pins. Below that bound the unsigned
   * int sums cannot wrap.
   */
  function ProbeCheckBounded(ngpio: u32, unbanked: u32, platformIrqs: seq<int>): (r: Result<ProbeCounts>)
    requires |platformIrqs| == MAX_INT_PER_BANK
    ensures r.Ok? ==> 1 <= r.value.nbank <= MAX_REGS_BANKS && r.value.nirq <= MAX_INT_PER_BANK
    ensures r.Ok? ==> r.value.nbank == DivRoundUp(ngpio, 32)
    ensures r.Ok? <==> ProbeCheck(ngpio, unbanked, platformIrqs).Ok? && ngpio <= 32 * MAX_REGS_BANKS
    ensures r.Ok? ==> r == ProbeCheck(ngpio, unbanked, platformIrqs)
  {
    if ngpio > 32 * MAX_REGS_BANKS then Err(-EINVAL) else ProbeCheck(ngpio, unbanked, platformIrqs)
  }

  lemma ProbeCheckMeaning(ngpio: u32, unbanked: u32, platformIrqs: seq<int>)
    requires |platformIrqs| == MAX_INT_PER_BANK
    ensures var nirq := if unbanked != 0 then unbanked else DivRoundUp(ngpio, 16);
            ProbeCheckBounded(ngpio, unbanked, platformIrqs).Ok? <==>
              ngpio != 0 && nirq <= MAX_INT_PER_BANK && ngpio <= 32 * MAX_REGS_BANKS
              && forall i :: 0 <= i < nirq ==> platformIrqs[i] >= 0
    ensures ProbeCheckBounded(ngpio, unbanked, platformIrqs).Ok? ==>
              ProbeCheckBounded(ngpio, unbanked, platformIrqs).value.nbank == DivRoundUp(ngpio, 32)
  {
    if ngpio <= 32 * MAX_REGS_BANKS {
      assert DivRoundUpU32(ngpio, 16) == DivRoundUp(ngpio, 16);
    }
  }

  /**
   * Without the bound, probe as written (in unsigned int) succeeds exactly
   * when ngpio is nonzero, the wrapped IRQ count is at most 32 and those
   * platform IRQs are valid.
   */
  lemma ProbeCheckAsWrittenMeaning(ngpio: u32, unbanked: u32, platformIrqs: seq<int>)
    requires |platformIrqs| == MAX_INT_PER_BANK
    ensures var nirq := if unbanked != 0 then unbanked else DivRoundUpU32(ngpio, 16);
            ProbeCheck(ngpio, unbanked, platformIrqs).Ok? <==>
              ngpio != 0 && nirq <= MAX_INT_PER_BANK
              && forall i :: 0 <= i < nirq ==> platformIrqs[i] >= 0
    ensures ngpio + 15 >= U32_LIMIT ==> DivRoundUpU32(ngpio, 16) == 0
  {
  }

  // ---------------------------------------------------------------------
  // Interrupt status
  // ---------------------------------------------------------------------

  /** The half of INTSTAT a 16-pin IRQ bank owns: the low half for even banks. */
  function HandlerMask(bankNum: nat): u32
  {
    if bankNum % 2 == 1 then 0xffff_0000 else 0xffff
  }

  /** hw_irq for each listed bit. */
  function Offsets(base: nat, bits: seq<nat>): (r: seq<nat>)
    ensures |r| == |bits| && forall i :: 0 <= i < |bits| ==> r[i] == base + bits[i]
  {
    seq(|bits|, i requires 0 <= i < |bits| => base + bits[i])
  }

  /** Acking what was read clears it from the masked half and keeps everything else. */
  lemma AckBit(x: u32, mask: u32, k: nat)
    ensures And(x, mask) < U32_LIMIT
    ensures Bit(And(x, Not32(And(x, mask))), k) == (if Bit(mask, k) == 1 then 0 else Bit(x, k))
  {
    Pow2Is32();
    AndOrBelow(x, mask, 32);
    var m := And(x, mask);
    var n := Not32(m);
    var xb, mb := Bit(x, k), Bit(mask, k);
    AndBit(x, mask, k);
    TimesBit(xb, mb);
    ComplementBit(m, 32, k);
    AndBit(x, n, k);
    TimesBit(xb, Bit(n, k));
    if k >= 32 {
      BitsAbove(x, 32, k);
    }
  }

  lemma AckClears(x: u32, mask: u32)
    ensures And(x, mask) < U32_LIMIT
    ensures And(And(x, Not32(And(x, mask))), mask) == 0
  {
    Pow2Is32();
    AndOrBelow(x, mask, 32);
    var acked := And(x, Not32(And(x, mask)));
    forall k: nat
      ensures Bit(And(acked, mask), k) == Bit(0, k)
    {
      AckBit(x, mask, k);
      AndBit(acked, mask, k);
      TimesBit(Bit(acked, k), Bit(mask, k));
      BitZero(k);
    }
    BitsEqual(And(acked, mask), 0);
  }

  /** The bank's half of INTSTAT, as the handler reads it. */
  function Status(intstat: u32, mask: u32): (r: u32)
    ensures r == And(intstat, mask)
  {
    Pow2Is32();
    AndOrBelow(intstat, mask, 32);
    And(intstat, mask)
  }

  /** INTSTAT after the handler writes back what it read. */
  function Acked(intstat: u32, mask: u32): (r: u32)
    ensures And(r, mask) == 0
    ensures forall k: nat :: Bit(mask, k) == 0 ==> Bit(r, k) == Bit(intstat, k)
  {
    AckClears(intstat, mask);
    Pow2Is32();
    AndOrBelow(intstat, Not32(Status(intstat, mask)), 32);
    var r: u32 := And(intstat, Not32(Status(intstat, mask)));
    assert forall k: nat :: Bit(mask, k) == 0 ==> Bit(r, k) == Bit(intstat, k) by {
      forall k: nat | Bit(mask, k) == 0
        ensures Bit(r, k) == Bit(intstat, k)
      {
        AckBit(intstat, mask, k);
      }
    }
    r
  }

  /** INTSTAT after new interrupts latch. */
  function Latch(intstat: u32, arrived: u32): (r: u32)
    ensures r == Or(intstat, arrived)
  {
    Pow2Is32();
    AndOrBelow(intstat, arrived, 32);
    Or(intstat, arrived)
  }

  /**
   * The chained handler's rounds: read the bank's half of INTSTAT, stop on
   * zero, otherwise ack it, dispatch its bits lowest first, let the next
   * arrival latch, and read again. Returns the dispatched hw_irqs and the
   * final INTSTAT.
   */
  function HandlerRounds(intstat: u32, mask: u32, arrivals: seq<u32>, base: nat): (r: (seq<nat>, u32))
    decreases |arrivals|, And(intstat, mask)
  {
    var status := Status(intstat, mask);
    if status == 0 then ([], intstat)
    else
      var acked := Acked(intstat, mask);
      var rest := if |arrivals| == 0 then HandlerRounds(acked, mask, [], base)
                  else HandlerRounds(Latch(acked, arrivals[0]), mask, arrivals[1..], base);
      (Offsets(base, BitList(status)) + rest.0, rest.1)
  }

  lemma ClearLowest32(s: u32, bit: nat)
    requires s > 0 && bit == Ffs(s)
    ensures bit < 32 && Pow2(bit) < U32_LIMIT && And(s, Not32(Pow2(bit))) == s - Pow2(bit)
  {
    Pow2Is32();
    assert bit < 32 by {
      if bit >= 32 {
        BitsAbove(s, 32, bit);
      }
    }
    Pow2Mono(bit + 1, 32);
    ClearBit(s, bit, 32);
    assert Not32(Pow2(bit)) == Mask(32, 0) - Pow2(bit);
  }

  /** `status &= ~BIT(__ffs(status))`: the lowest set bit cleared. */
  function ClearFfs(s: u32): (r: u32)
    requires s > 0
    ensures Ffs(s) < 32 && r == s - Pow2(Ffs(s))
  {
    var bit := Ffs(s);
    ClearLowest32(s, bit);
    var bitMask: u32 := Pow2(bit);
    And(s, Not32(bitMask))
  }

  lemma OffsetsStep(base: nat, s: nat)
    requires s > 0
    ensures s >= Pow2(Ffs(s))
    ensures Offsets(base, BitList(s)) == [base + Ffs(s)] + Offsets(base, BitList(s - Pow2(Ffs(s))))
  {
    BitListClear(s);
    OffsetsCons(base, Ffs(s), BitList(s - Pow2(Ffs(s))));
  }

  lemma OffsetsCons(base: nat, h: nat, t: seq<nat>)
    ensures Offsets(base, [h] + t) == [base + h] + Offsets(base, t)
  {
    var l := Offsets(base, [h] + t);
    var r := [base + h] + Offsets(base, t);
    assert |l| == |r|;
    forall i | 0 <= i < |l|
      ensures l[i] == r[i]
    {
      if i > 0 {
        assert ([h] + t)[i] == t[i - 1];
      }
    }
  }

  /** The dispatch loop's invariant: hw followed by the bits still in s is the whole dispatch of status. */
  predicate Dispatched(hw: seq<nat>, base: nat, s: nat, status: nat)
  {
    hw + Offsets(base, BitList(s)) == Offsets(base, BitList(status))
  }

  lemma DispatchStep(hw: seq<nat>, base: nat, s: nat, rest: nat, status: nat, hwirq: nat)
    requires s > 0 && s >= Pow2(Ffs(s)) && rest == s - Pow2(Ffs(s)) && Dispatched(hw, base, s, status)
    requires hwirq == base + Ffs(s)
    ensures Dispatched(hw + [hwirq], base, rest, status)
  {
    OffsetsStep(base, s);
    assert (hw + [hwirq]) + Offsets(base, BitList(rest)) == hw + ([hwirq] + Offsets(base, BitList(rest)));
  }

  lemma DispatchStart(base: nat, status: nat)
    ensures Dispatched([], base, status, status)
  {
    assert [] + Offsets(base, BitList(status)) == Offsets(base, BitList(status));
  }

  lemma DispatchDone(hw: seq<nat>, base: nat, status: nat)
    requires Dispatched(hw, base, 0, status)
    ensures hw == Offsets(base, BitList(status))
  {
    assert Offsets(base, BitList(0)) == [];
  }

  /** One round of HandlerRounds, unfolded. */
  lemma HandlerStep(cur: u32, mask: u32, rest: seq<u32>, base: nat)
    requires Status(cur, mask) != 0
    ensures var next := if |rest| == 0 then Acked(cur, mask) else Latch(Acked(cur, mask), rest[0]);
            var later := if |rest| == 0 then [] else rest[1..];
            var r := HandlerRounds(next, mask, later, base);
            HandlerRounds(cur, mask, rest, base) == (Offsets(base, BitList(Status(cur, mask))) + r.0, r.1)
  {
  }

  /** The handler loop's invariant: what was dispatched, then the rounds still to come, is the whole run. */
  ghost predicate HandledSoFar(dispatched: seq<nat>, cur: u32, mask: u32, rest: seq<u32>, base: nat, r0: (seq<nat>, u32))
  {
    var r := HandlerRounds(cur, mask, rest, base);
    dispatched + r.0 == r0.0 && r.1 == r0.1
  }

  lemma HandlerLoopStep(dispatched: seq<nat>, cur: u32, mask: u32, arrivals: seq<u32>, k: nat, base: nat,
                        r0: (seq<nat>, u32), bits: seq<nat>, next: u32, k2: nat)
    requires k <= |arrivals| && HandledSoFar(dispatched, cur, mask, arrivals[k..], base, r0)
    requires Status(cur, mask) != 0 && bits == Offsets(base, BitList(Status(cur, mask)))
    requires k < |arrivals| ==> next == Latch(Acked(cur, mask), arrivals[k]) && k2 == k + 1
    requires k >= |arrivals| ==> next == Acked(cur, mask) && k2 == k
    ensures k2 <= |arrivals| && HandledSoFar(dispatched + bits, next, mask, arrivals[k2..], base, r0)
  {
    HandlerStep(cur, mask, arrivals[k..], base);
    var later := if k < |arrivals| then arrivals[k..][1..] else [];
    assert later == arrivals[k2..];
    var r := HandlerRounds(next, mask, later, base);
    assert (dispatched + bits) + r.0 == dispatched + (bits + r.0);
  }

  lemma HandlerDone(dispatched: seq<nat>, cur: u32, mask: u32, rest: seq<u32>, base: nat, r0: (seq<nat>, u32))
    requires HandledSoFar(dispatched, cur, mask, rest, base, r0) && Status(cur, mask) == 0
    ensures (dispatched, cur) == r0
  {
    assert HandlerRounds(cur, mask, rest, base) == ([], cur);
    assert dispatched + [] == dispatched;
  }

  /** The offsets of a status word: exactly its set bits above base, in increasing order. */
  lemma OffsetsOfBits(base: nat, status: nat)
    ensures forall h: nat :: h in Offsets(base, BitList(status)) <==> h >= base && Bit(status, h - base) == 1
    ensures var o := Offsets(base, BitList(status));
            forall i, j :: 0 <= i < j < |o| ==> o[i] < o[j]
  {
    BitListMeaning(status);
    OffsetsOfList(base, BitList(status), status);
  }

  /** Offsets of a sorted list of exactly the set bits of status. */
  lemma OffsetsOfList(base: nat, l: seq<nat>, status: nat)
    requires forall k :: k in l <==> Bit(status, k) == 1
    requires forall i, j :: 0 <= i < j < |l| ==> l[i] < l[j]
    ensures forall h: nat :: h in Offsets(base, l) <==> h >= base && Bit(status, h - base) == 1
    ensures var o := Offsets(base, l);
            forall i, j :: 0 <= i < j < |o| ==> o[i] < o[j]
  {
    var o := Offsets(base, l);
    forall h: nat
      ensures h in o <==> h >= base && Bit(status, h - base) == 1
    {
      if h in o {
        var i :| 0 <= i < |o| && o[i] == h;
        assert l[i] in l;
      }
    }
  }

  /**
   * With no new arrivals the handler makes one pass: it dispatches each set
   * bit of the bank's half once, in increasing order, and leaves that half
   * clear and the other half as it was.
   */
  lemma OneRound(intstat: u32, mask: u32, base: nat)
    ensures var r := HandlerRounds(intstat, mask, [], base);
            var status := And(intstat, mask);
            (forall h: nat :: h in r.0 <==> h >= base && Bit(status, h - base) == 1)
            && (forall i, j :: 0 <= i < j < |r.0| ==> r.0[i] < r.0[j])
            && And(r.1, mask) == 0
            && (forall k: nat :: Bit(mask, k) == 0 ==> Bit(r.1, k) == Bit(intstat, k))
  {
    var status := Status(intstat, mask);
    OneRoundShape(intstat, mask, base);
    OffsetsOfBits(base, status);
  }

  lemma OneRoundShape(intstat: u32, mask: u32, base: nat)
    ensures var status := Status(intstat, mask);
            HandlerRounds(intstat, mask, [], base) ==
              (Offsets(base, BitList(status)), if status == 0 then intstat else Acked(intstat, mask))
  {
    var status := Status(intstat, mask);
    if status != 0 {
      var acked := Acked(intstat, mask);
      assert HandlerRounds(acked, mask, [], base) == ([], acked);
      assert Offsets(base, BitList(status)) + [] == Offsets(base, BitList(status));
    } else {
      assert BitList(status) == [];
    }
  }

  // ---------------------------------------------------------------------
  // Restore bookkeeping
  // ---------------------------------------------------------------------

  /** A register restore_context writes. */
  datatype RegName = Binten | Dir(bank: nat) | SetData(bank: nat) | SetRising(bank: nat) | SetFalling(bank: nat)

  /** The writes restoring one register set: each saved register that differs. */
  function BankWrites(b: nat, cur: BankRegs, ctx: BankRegs): seq<RegName>
  {
    (if cur.dir != ctx.dir then [Dir(b)] else [])
    + (if cur.setData != ctx.setData then [SetData(b)] else [])
    + (if cur.setRising != ctx.setRising then [SetRising(b)] else [])
    + (if cur.setFalling != ctx.setFalling then [SetFalling(b)] else [])
  }

  /** The writes restoring register sets 0 .. n-1, in order. */
  function BanksWrites(banks: seq<BankRegs>, ctx: seq<BankRegs>, n: nat): seq<RegName>
    requires n <= |banks| && n <= |ctx|
  {
    if n == 0 then [] else BanksWrites(banks, ctx, n - 1) + BankWrites(n - 1, banks[n - 1], ctx[n - 1])
  }

  /** Whether register w of the first n register sets holds something other than its saved value. */
  predicate Differs(banks: seq<BankRegs>, ctx: seq<BankRegs>, n: nat, w: RegName)
    requires n <= |banks| && n <= |ctx|
  {
    match w
    case Binten => false
    case Dir(b) => b < n && banks[b].dir != ctx[b].dir
    case SetData(b) => b < n && banks[b].setData != ctx[b].setData
    case SetRising(b) => b < n && banks[b].setRising != ctx[b].setRising
    case SetFalling(b) => b < n && banks[b].setFalling != ctx[b].setFalling
  }

  /** A register is written back exactly when its saved value differs from the current one. */
  lemma {:induction false} BanksWritesMeaning(banks: seq<BankRegs>, ctx: seq<BankRegs>, n: nat)
    requires n <= |banks| && n <= |ctx|
    ensures forall w :: w in BanksWrites(banks, ctx, n) <==> Differs(banks, ctx, n, w)
    decreases n
  {
    if n > 0 {
      BanksWritesMeaning(banks, ctx, n - 1);
      forall w
        ensures w in BanksWrites(banks, ctx, n) <==> Differs(banks, ctx, n, w)
      {
        DiffersStep(banks, ctx, n, w);
      }
    }
  }

  lemma DiffersStep(banks: seq<BankRegs>, ctx: seq<BankRegs>, n: nat, w: RegName)
    requires 0 < n <= |banks| && n <= |ctx|
    ensures Differs(banks, ctx, n, w) <==>
              Differs(banks, ctx, n - 1, w) || w in BankWrites(n - 1, banks[n - 1], ctx[n - 1])
  {
    InBankWrites(n - 1, banks[n - 1], ctx[n - 1], w);
  }

  /** The writes of one register set name that set, each register that differs. */
  lemma InBankWrites(b: nat, cur: BankRegs, c: BankRegs, w: RegName)
    ensures w in BankWrites(b, cur, c) <==>
              match w
              case Binten => false
              case Dir(x) => x == b && cur.dir != c.dir
              case SetData(x) => x == b && cur.setData != c.setData
              case SetRising(x) => x == b && cur.setRising != c.setRising
              case SetFalling(x) => x == b && cur.setFalling != c.setFalling
  {
    var p1 := if cur.dir != c.dir then [Dir(b)] else [];
    var p2 := if cur.setData != c.setData then [SetData(b)] else [];
    var p3 := if cur.setRising != c.setRising then [SetRising(b)] else [];
    var p4 := if cur.setFalling != c.setFalling then [SetFalling(b)] else [];
    assert BankWrites(b, cur, c) == ((p1 + p2) + p3) + p4;
    assert w in BankWrites(b, cur, c) <==> w in p1 || w in p2 || w in p3 || w in p4;
  }

  /** The register set with the four saved registers taken from the context. */
  function Restored(cur: BankRegs, ctx: BankRegs): BankRegs
  {
    cur.(dir := ctx.dir, setData := ctx.setData, setRising := ctx.setRising, setFalling := ctx.setFalling)
  }

  /** The register set with the four saved registers copied into a context slot. */
  function Saved(ctx: BankRegs, cur: BankRegs): BankRegs
  {
    ctx.(dir := cur.dir, setData := cur.setData, setRising := cur.setRising, setFalling := cur.setFalling)
  }

  /** Restoring right after saving writes nothing back. */
  lemma {:induction false} RestoreAfterSave(banks: seq<BankRegs>, ctx: seq<BankRegs>, n: nat)
    requires n <= |banks| && n <= |ctx|
    requires forall b :: 0 <= b < n ==> ctx[b] == Saved(ctx[b], banks[b])
    ensures BanksWrites(banks, ctx, n) == []
    decreases n
  {
    if n > 0 {
      RestoreAfterSave(banks, ctx, n - 1);
      assert ctx[n - 1] == Saved(ctx[n - 1], banks[n - 1]);
    }
  }

  // ---------------------------------------------------------------------
  // The controller
  // ---------------------------------------------------------------------

  /** Banks below index bank / 2 have had both edge triggers cleared, the rest are untouched. */
  ghost predicate BanksCleared(banks: seq<BankRegs>, banks0: seq<BankRegs>, bank: nat)
  {
    |banks| == |banks0|
    && forall i :: 0 <= i < |banks| ==>
         banks[i] == if 2 * i < bank then banks0[i].(clrFalling := ALL_ONES, clrRising := ALL_ONES) else banks0[i]
  }

  lemma ClearBankStep(banks: seq<BankRegs>, banks0: seq<BankRegs>, bank: nat, ngpio: nat)
    requires BanksCleared(banks, banks0, bank) && 16 * bank < ngpio && |banks| == DivRoundUp(ngpio, 32)
    ensures bank / 2 < |banks|
    ensures BanksCleared(banks[bank / 2 := banks[bank / 2].(clrFalling := ALL_ONES, clrRising := ALL_ONES)], banks0, bank + 1)
  {
    assert 32 * (bank / 2) <= 16 * bank < ngpio;
  }

  lemma EnableStep(acc: nat, bank: nat, ngpio: nat)
    requires acc == Mask(bank, 0) && 16 * bank < ngpio && DivRoundUp(ngpio, 16) <= 32
    ensures Or(acc, Pow2(bank)) == Mask(bank + 1, 0) < U32_LIMIT
  {
    assert bank < 32;
    Pow2Is32();
    Pow2Mono(bank + 1, 32);
    MaskStep(bank);
  }

  lemma BankLoopDone(banks: seq<BankRegs>, banks0: seq<BankRegs>, bank: nat, ngpio: nat)
    requires BanksCleared(banks, banks0, bank) && 16 * bank >= ngpio && 16 * bank < ngpio + 16
    requires |banks| == DivRoundUp(ngpio, 32)
    ensures bank == DivRoundUp(ngpio, 16)
    ensures forall i :: 0 <= i < |banks| ==> banks[i] == banks0[i].(clrFalling := ALL_ONES, clrRising := ALL_ONES)
  {
    forall i | 0 <= i < |banks|
      ensures 2 * i < bank
    {
      assert 32 * i < ngpio;
    }
  }

  /**
   * The loop of irq_setup over 16-pin IRQ banks: both edge triggers of
   * every register set are cleared, and the enable mask gets one bit per bank.
   */
  method BankedIrqSetup(banks0: seq<BankRegs>, ngpio: nat) returns (banks: seq<BankRegs>, acc: u32)
    requires |banks0| == DivRoundUp(ngpio, 32) && DivRoundUp(ngpio, 16) <= MAX_INT_PER_BANK
    ensures acc == Mask(DivRoundUp(ngpio, 16), 0)
    ensures |banks| == |banks0|
    ensures forall i :: 0 <= i < |banks| ==> banks[i] == banks0[i].(clrFalling := ALL_ONES, clrRising := ALL_ONES)
  {
    var gpio := 0;
    var bank := 0;
    acc := 0;
    banks := banks0;
    while gpio < ngpio
      invariant gpio == 16 * bank && 16 * bank < ngpio + 16
      invariant acc == Mask(bank, 0)
      invariant BanksCleared(banks, banks0, bank)
    {
      ClearBankStep(banks, banks0, bank, ngpio);
      banks := banks[bank / 2 := banks[bank / 2].(clrFalling := ALL_ONES, clrRising := ALL_ONES)];
      EnableStep(acc, bank, ngpio);
      acc := Or(acc, Pow2(bank));
      bank := bank + 1;
      gpio := gpio + 16;
    }
    BankLoopDone(banks, banks0, bank, ngpio);
  }

  class Controller {
    const ngpio: u32
    const gpioUnbanked: u32
    var banks: seq<BankRegs>
    var binten: u32
    var irqs: seq<int>
    var context: seq<BankRegs>
    var bintenContext: u32

    predicate Valid()
      reads this
    {
      1 <= ngpio && |banks| == DivRoundUp(ngpio, 32) && 1 <= |banks| <= MAX_REGS_BANKS
      && |context| == MAX_REGS_BANKS && |irqs| == MAX_INT_PER_BANK
      && gpioUnbanked <= MAX_INT_PER_BANK
      && (gpioUnbanked == 0 ==> DivRoundUp(ngpio, 16) <= MAX_INT_PER_BANK)
    }

    /**
     * The controller a successful probe leaves: the register sets (with
     * their current values), the first nirq platform IRQs and zeros after
     * them, as kzalloc left them.
     */
    constructor (ngpio: u32, unbanked: u32, platformIrqs: seq<int>, regs: seq<BankRegs>)
      requires |platformIrqs| == MAX_INT_PER_BANK
      requires ProbeCheckBounded(ngpio, unbanked, platformIrqs).Ok?
      requires |regs| == ProbeCheckBounded(ngpio, unbanked, platformIrqs).value.nbank
      ensures Valid()
      ensures this.ngpio == ngpio && gpioUnbanked == unbanked && banks == regs
      ensures var nirq := ProbeCheckBounded(ngpio, unbanked, platformIrqs).value.nirq;
              irqs == platformIrqs[..nirq] + seq(MAX_INT_PER_BANK - nirq, _ => 0)
    {
      var nirq := ProbeCheckBounded(ngpio, unbanked, platformIrqs).value.nirq;
      this.ngpio := ngpio;
      gpioUnbanked := unbanked;
      banks := regs;
      binten := 0;
      irqs := platformIrqs[..nirq] + seq(MAX_INT_PER_BANK - nirq, _ => 0);
      context := seq(MAX_REGS_BANKS, _ => ZERO_REGS);
      bintenContext := 0;
    }

    // -------------------------------------------------------------------
    // Pins
    // -------------------------------------------------------------------

    /**
     * __davinci_direction: output clears the pin's dir bit after driving
     * the value through set_data or clr_data; input sets it.
     */
    method Direction(offset: nat, out: bool, value: int) returns (ret: int)
      requires Valid() && offset < ngpio
      modifies this`banks
      ensures Valid()
      ensures ret == 0 && |banks| == |old(banks)|
      ensures var b := offset / 32;
              var r := old(banks[b]);
              var m := GpioMask(offset);
              banks == old(banks)[b :=
                if !out then r.(dir := SetPinBit(r.dir, offset))
                else if value != 0 then r.(setData := m, dir := ClearPinBit(r.dir, offset))
                else r.(clrData := m, dir := ClearPinBit(r.dir, offset))]
    {
      var b := offset / 32;
      assert b < |banks| by {
        assert offset < 32 * |banks|;
      }
      var mask := GpioMask(offset);
      var g := banks[b];
      var temp := g.dir;
      if out {
        temp := ClearPinBit(temp, offset);
        if value != 0 {
          g := g.(setData := mask);
        } else {
          g := g.(clrData := mask);
        }
      } else {
        temp := SetPinBit(temp, offset);
      }
      banks := banks[b := g.(dir := temp)];
      return 0;
    }

    /** gpio_get: 1 exactly when the pin's in_data bit is set. */
    function Get(offset: nat): (r: nat)
      requires Valid() && offset < ngpio
      reads this
      ensures r == Bit(banks[offset / 32].inData, offset % 32)
    {
      assert offset / 32 < |banks| by {
        assert offset < 32 * |banks|;
      }
      SingleBit(banks[offset / 32].inData, offset % 32);
      if And(banks[offset / 32].inData, GpioMask(offset)) != 0 then 1 else 0
    }

    /** gpio_set: the pin's mask goes to set_data for a nonzero value, to clr_data otherwise. */
    method Set(offset: nat, value: int) returns (ret: int)
      requires Valid() && offset < ngpio
      modifies this`banks
      ensures Valid()
      ensures ret == 0
      ensures var b := offset / 32;
              b < |old(banks)| &&
              banks == old(banks)[b := if value != 0 then old(banks[b]).(setData := GpioMask(offset))
                                       else old(banks[b]).(clrData := GpioMask(offset))]
    {
      var b := offset / 32;
      assert b < |banks| by {
        assert offset < 32 * |banks|;
      }
      if value != 0 {
        banks := banks[b := banks[b].(setData := GpioMask(offset))];
      } else {
        banks := banks[b := banks[b].(clrData := GpioMask(offset))];
      }
      return 0;
    }

    // -------------------------------------------------------------------
    // Interrupts
    // -------------------------------------------------------------------

    /**
     * irq_setup after the clock and the IRQ domain are in place: unbanked
     * pins default to both edges and enable GENMASK(unbanked/16, 0); banked
     * pins start with both edges disabled and enable one bit per 16 pins.
     */
    method IrqSetup()
      requires Valid()
      modifies this`banks, this`binten
      ensures Valid()
      ensures |banks| == |old(banks)|
      ensures gpioUnbanked != 0 ==>
                binten == Mask(gpioUnbanked / 16 + 1, 0)
                && banks == old(banks)[0 := old(banks[0]).(setFalling := ALL_ONES, setRising := ALL_ONES)]
      ensures gpioUnbanked == 0 ==>
                binten == Mask(DivRoundUp(ngpio, 16), 0)
                && forall i :: 0 <= i < |banks| ==> banks[i] == old(banks[i]).(clrFalling := ALL_ONES, clrRising := ALL_ONES)
    {
      Pow2Is32();
      if gpioUnbanked != 0 {
        Pow2Mono(gpioUnbanked / 16 + 1, 32);
        binten := Mask(gpioUnbanked / 16 + 1, 0);
        banks := banks[0 := banks[0].(setFalling := ALL_ONES, setRising := ALL_ONES)];
        return;
      }
      IrqSetupBanked();
    }

    /** The banked branch of irq_setup. */
    method IrqSetupBanked()
      requires Valid()
      modifies this`banks, this`binten
      ensures Valid()
      ensures |banks| == |old(banks)|
      ensures binten == Mask(DivRoundUp(ngpio, 16), 0)
      ensures forall i :: 0 <= i < |banks| ==> banks[i] == old(banks[i]).(clrFalling := ALL_ONES, clrRising := ALL_ONES)
    {
      banks, binten := BankedIrqSetup(banks, ngpio);
    }

    /**
     * The chained handler of 16-pin IRQ bank bankNum; `arrivals` are the
     * interrupts that latch in INTSTAT after each round.
     */
    method IrqHandler(bankNum: nat, arrivals: seq<u32>) returns (dispatched: seq<nat>)
      requires Valid() && bankNum / 2 < |banks|
      modifies this`banks
      ensures Valid()
      ensures var r := HandlerRounds(old(banks[bankNum / 2].intstat), HandlerMask(bankNum), arrivals, (bankNum / 2) * 32);
              dispatched == r.0 && banks == old(banks)[bankNum / 2 := old(banks[bankNum / 2]).(intstat := r.1)]
    {
      var b := bankNum / 2;
      var intstat;
      dispatched, intstat := HandlerLoop(banks[b].intstat, HandlerMask(bankNum), arrivals, (bankNum / 2) * 32);
      banks := banks[b := banks[b].(intstat := intstat)];
    }

    /**
     * The handler's loop on the bank's INTSTAT value: read the masked half,
     * ack it, dispatch its bits, and go round again while anything
     * latched. Only the last INTSTAT value is written back, since nothing
     * else reads the register between rounds.
     */
    static method HandlerLoop(intstat: u32, mask: u32, arrivals: seq<u32>, base: nat) returns (dispatched: seq<nat>, cur: u32)
      ensures (dispatched, cur) == HandlerRounds(intstat, mask, arrivals, base)
    {
      cur := intstat;
      ghost var r0 := HandlerRounds(cur, mask, arrivals, base);
      var k := 0;
      dispatched := [];
      while true
        invariant 0 <= k <= |arrivals|
        invariant HandledSoFar(dispatched, cur, mask, arrivals[k..], base, r0)
        decreases |arrivals| - k, And(cur, mask)
      {
        var status := Status(cur, mask);
        if status == 0 {
          HandlerDone(dispatched, cur, mask, arrivals[k..], base, r0);
          return;
        }
        var acked := Acked(cur, mask);
        var bits := DispatchBits(status, base);
        var next := acked;
        var k2 := k;
        if k < |arrivals| {
          next := Latch(acked, arrivals[k]);
          k2 := k + 1;
        }
        HandlerLoopStep(dispatched, cur, mask, arrivals, k, base, r0, bits, next, k2);
        cur := next;
        k := k2;
        dispatched := dispatched + bits;
      }
    }

    /** The inner demux loop: each set bit of status, lowest first, as base + bit. */
    static method DispatchBits(status: u32, base: nat) returns (hw: seq<nat>)
      ensures hw == Offsets(base, BitList(status))
    {
      var s: u32 := status;
      hw := [];
      DispatchStart(base, status);
      while s != 0
        invariant Dispatched(hw, base, s, status)
        decreases s
      {
        var bit := Ffs(s);
        var rest := ClearFfs(s);
        var hwirq: nat := base + bit;
        DispatchStep(hw, base, s, rest, status, hwirq);
        hw := hw + [hwirq];
        s := rest;
      }
      DispatchDone(hw, base, status);
    }

    /** gpio_irq_mask: both edges of the pin disabled. */
    method IrqMask(hwirq: nat)
      requires Valid() && hwirq < ngpio
      modifies this`banks
      ensures Valid()
      ensures hwirq / 32 < |old(banks)|
      ensures banks == old(banks)[hwirq / 32 := old(banks[hwirq / 32]).(clrFalling := GpioMask(hwirq), clrRising := GpioMask(hwirq))]
    {
      var b := hwirq / 32;
      assert b < |banks| by {
        assert hwirq < 32 * |banks|;
      }
      var mask := GpioMask(hwirq);
      banks := banks[b := banks[b].(clrFalling := mask, clrRising := mask)];
    }

    /** gpio_irq_unmask: the trigger's edges enabled, both when it names none. */
    method IrqUnmask(hwirq: nat, trigger: u32)
      requires Valid() && hwirq < ngpio
      modifies this`banks
      ensures Valid()
      ensures hwirq / 32 < |old(banks)|
      ensures var edges := UnmaskEdges(trigger);
              var r := old(banks[hwirq / 32]);
              var m := GpioMask(hwirq);
              banks == old(banks)[hwirq / 32 :=
                r.(setFalling := if And(edges, IRQ_TYPE_EDGE_FALLING) != 0 then m else r.setFalling,
                   setRising := if And(edges, IRQ_TYPE_EDGE_RISING) != 0 then m else r.setRising)]
    {
      var b := hwirq / 32;
      assert b < |banks| by {
        assert hwirq < 32 * |banks|;
      }
      var mask := GpioMask(hwirq);
      var status := UnmaskEdges(trigger);
      if And(status, IRQ_TYPE_EDGE_FALLING) != 0 {
        banks := banks[b := banks[b].(setFalling := mask)];
      }
      if And(status, IRQ_TYPE_EDGE_RISING) != 0 {
        banks := banks[b := banks[b].(setRising := mask)];
      }
    }

    /** gpio_to_irq_unbanked: the pin's direct IRQ, or -ENODEV past the unbanked pins. */
    function ToIrqUnbanked(offset: nat): (r: int)
      requires Valid()
      reads this
      ensures offset < gpioUnbanked ==> r == irqs[offset]
      ensures offset >= gpioUnbanked ==> r == -ENODEV
    {
      if offset < gpioUnbanked then irqs[offset] else -ENODEV
    }

    /**
     * gpio_irq_type_unbanked: looks the IRQ up among irqs[], checks the
     * trigger and programs both edges of that pin in register set 0.
     */
    method IrqTypeUnbanked(irq: int, trigger: u32) returns (ret: int)
      requires Valid()
      modifies this`banks
      ensures Valid()
      ensures (forall i :: 0 <= i < MAX_INT_PER_BANK ==> irqs[i] != irq) ==> ret == -EINVAL && banks == old(banks)
      ensures (exists i :: 0 <= i < MAX_INT_PER_BANK && irqs[i] == irq) && !EdgesOnly(trigger) ==>
                ret == -EINVAL && banks == old(banks)
      ensures (exists i :: 0 <= i < MAX_INT_PER_BANK && irqs[i] == irq) && EdgesOnly(trigger) ==>
                ret == 0 &&
                var i := FirstIndex(irqs, irq);
                var m := GpioMask(i);
                var r := old(banks[0]);
                var r1 := if And(trigger, IRQ_TYPE_EDGE_FALLING) != 0 then r.(setFalling := m) else r.(clrFalling := m);
                banks == old(banks)[0 := if And(trigger, IRQ_TYPE_EDGE_RISING) != 0 then r1.(setRising := m) else r1.(clrRising := m)]
    {
      var i := 0;
      while i < MAX_INT_PER_BANK
        invariant 0 <= i <= MAX_INT_PER_BANK
        invariant forall j :: 0 <= j < i ==> irqs[j] != irq
      {
        if irq == irqs[i] {
          break;
        }
        i := i + 1;
      }
      if i == MAX_INT_PER_BANK {
        return -EINVAL;
      }
      FirstIndexIs(irqs, irq, i);
      var mask := GpioMask(i);
      if !EdgesOnly(trigger) {
        return -EINVAL;
      }
      if And(trigger, IRQ_TYPE_EDGE_FALLING) != 0 {
        banks := banks[0 := banks[0].(setFalling := mask)];
      } else {
        banks := banks[0 := banks[0].(clrFalling := mask)];
      }
      if And(trigger, IRQ_TYPE_EDGE_RISING) != 0 {
        banks := banks[0 := banks[0].(setRising := mask)];
      } else {
        banks := banks[0 := banks[0].(clrRising := mask)];
      }
      assert irqs[i] == irq;
      return 0;
    }

    // -------------------------------------------------------------------
    // Suspend and resume
    // -------------------------------------------------------------------

    /**
     * save_context as written: BINTEN and each register set's dir,
     * set_data, set_rising and set_falling are saved, then INTSTAT is
     * cleared in the last register set only.
     */
    method SaveContext()
      requires Valid()
      modifies this`context, this`bintenContext, this`banks
      ensures Valid()
      ensures bintenContext == binten && |context| == MAX_REGS_BANKS
      ensures forall b :: 0 <= b < MAX_REGS_BANKS ==>
                context[b] == if b < |banks| then Saved(old(context[b]), banks[b]) else old(context[b])
      ensures banks == SavedAsWritten(old(banks))
    {
      bintenContext := binten;
      var bank := 0;
      while bank < |banks|
        invariant 0 <= bank <= |banks| <= MAX_REGS_BANKS && |context| == MAX_REGS_BANKS
        invariant bintenContext == binten && banks == old(banks)
        invariant forall b :: 0 <= b < MAX_REGS_BANKS ==>
                    context[b] == if b < bank then Saved(old(context[b]), banks[b]) else old(context[b])
      {
        context := context[bank := Saved(context[bank], banks[bank])];
        bank := bank + 1;
      }
      banks := banks[|banks| - 1 := banks[|banks| - 1].(intstat := 0)];
    }

    /**
     * save_context with every register set's INTSTAT cleared, as its
     * comment says; the model's corrected save.
     */
    method SaveContextClearingAll()
      requires Valid()
      modifies this`context, this`bintenContext, this`banks
      ensures Valid()
      ensures bintenContext == binten && |context| == MAX_REGS_BANKS
      ensures forall b :: 0 <= b < MAX_REGS_BANKS ==>
                context[b] == if b < |banks| then Saved(old(context[b]), banks[b]) else old(context[b])
      ensures banks == AllStatusCleared(old(banks))
      ensures forall b :: 0 <= b < |banks| ==> banks[b].intstat == 0
    {
      bintenContext := binten;
      var bank := 0;
      ghost var banks0 := banks;
      while bank < |banks|
        invariant 0 <= bank <= |banks| == |banks0| <= MAX_REGS_BANKS && |context| == MAX_REGS_BANKS
        invariant bintenContext == binten && banks0 == old(banks)
        invariant forall b :: 0 <= b < |banks| ==> banks[b] == if b < bank then banks0[b].(intstat := 0) else banks0[b]
        invariant forall b :: 0 <= b < MAX_REGS_BANKS ==>
                    context[b] == if b < bank then Saved(old(context[b]), banks[b]) else old(context[b])
      {
        context := context[bank := Saved(context[bank], banks[bank])];
        banks := banks[bank := banks[bank].(intstat := 0)];
        bank := bank + 1;
      }
    }

    /**
     * restore_context: BINTEN and each register set's saved registers are
     * written back, each only when it differs; `written` lists the writes.
     */
    method RestoreContext() returns (written: seq<RegName>)
      requires Valid()
      modifies this`banks, this`binten
      ensures Valid()
      ensures binten == bintenContext && |banks| == |old(banks)|
      ensures forall b :: 0 <= b < |banks| ==> banks[b] == Restored(old(banks[b]), context[b])
      ensures written == (if old(binten) != bintenContext then [Binten] else []) + BanksWrites(old(banks), context, |banks|)
    {
      written := [];
      if binten != bintenContext {
        binten := bintenContext;
        written := [Binten];
      }
      var w;
      banks, w := RestoreBanks(banks, context);
      written := written + w;
    }
  }

  /** The loop of restore_context over the register sets: banks[b] gets context[b], in order. */
  method RestoreBanks(banks0: seq<BankRegs>, context: seq<BankRegs>) returns (banks: seq<BankRegs>, written: seq<RegName>)
    requires |banks0| <= |context|
    ensures |banks| == |banks0|
    ensures forall b :: 0 <= b < |banks| ==> banks[b] == Restored(banks0[b], context[b])
    ensures written == BanksWrites(banks0, context, |banks0|)
  {
    banks := banks0;
    written := [];
    var bank := 0;
    while bank < |banks|
      invariant 0 <= bank <= |banks| == |banks0|
      invariant forall b :: 0 <= b < |banks| ==> banks[b] == if b < bank then Restored(banks0[b], context[b]) else banks0[b]
      invariant written == BanksWrites(banks0, context, bank)
    {
      var g, w := RestoreBank(bank, banks[bank], context[bank]);
      banks := banks[bank := g];
      written := written + w;
      bank := bank + 1;
    }
  }

  /** One register set of restore_context: each saved register written back when it differs. */
  method RestoreBank(bank: nat, cur: BankRegs, ctx: BankRegs) returns (g: BankRegs, w: seq<RegName>)
    ensures g == Restored(cur, ctx) && w == BankWrites(bank, cur, ctx)
  {
    g := cur;
    w := [];
    if g.dir != ctx.dir {
      g := g.(dir := ctx.dir);
      w := w + [Dir(bank)];
    }
    if g.setData != ctx.setData {
      g := g.(setData := ctx.setData);
      w := w + [SetData(bank)];
    }
    if g.setRising != ctx.setRising {
      g := g.(setRising := ctx.setRising);
      w := w + [SetRising(bank)];
    }
    if g.setFalling != ctx.setFalling {
      g := g.(setFalling := ctx.setFalling);
      w := w + [SetFalling(bank)];
    }
  }

  /** The trigger bits unmask enables: the edge bits, or both edges when there are none. */
  function UnmaskEdges(trigger: u32): (r: u32)
    ensures And(trigger, IRQ_TYPE_EDGE_BOTH) == 0 ==> r == IRQ_TYPE_EDGE_BOTH
  {
    var status := And(trigger, IRQ_TYPE_EDGE_BOTH);
    Pow2Is32();
    AndOrBelow(trigger, IRQ_TYPE_EDGE_BOTH, 32);
    if status == 0 then IRQ_TYPE_EDGE_BOTH else status
  }

  /** The rising and falling bits who reach unmask enable at least one edge. */
  lemma UnmaskEnablesAnEdge(trigger: u32)
    ensures And(UnmaskEdges(trigger), IRQ_TYPE_EDGE_FALLING) != 0 || And(UnmaskEdges(trigger), IRQ_TYPE_EDGE_RISING) != 0
  {
    var s := UnmaskEdges(trigger);
    SingleBit(s, 0);
    SingleBit(s, 1);
    if And(trigger, IRQ_TYPE_EDGE_BOTH) == 0 {
      assert s == 3;
      assert Bit(3, 0) == 1;
    } else {
      assert s == And(trigger, IRQ_TYPE_EDGE_BOTH);
      assert s < 4 by {
        Pow2Is32();
        LowBits(trigger, 2);
        assert Mask(2, 0) == 3;
      }
      assert s % 2 == 1 || (s / 2) % 2 == 1;
    }
  }

  /** gpio_irq_type and the unbanked handler's check: only edge bits may be set. */
  predicate EdgesOnly(trigger: u32)
  {
    And(trigger, Not32(IRQ_TYPE_EDGE_BOTH)) == 0
  }

  /** The banked gpio_irq_type: -EINVAL for anything but edge triggers. */
  function IrqType(trigger: u32): (r: int)
    ensures r == 0 <==> trigger <= IRQ_TYPE_EDGE_BOTH
    ensures r == 0 || r == -EINVAL
  {
    Pow2Is32();
    HighBitsClear(trigger, 2, 32);
    assert Not32(IRQ_TYPE_EDGE_BOTH) == Mask(32, 2);
    if !EdgesOnly(trigger) then -EINVAL else 0
  }

  function FirstIndex(s: seq<int>, x: int): (i: nat)
    requires exists i :: 0 <= i < |s| && s[i] == x
    ensures i < |s| && s[i] == x && forall j :: 0 <= j < i ==> s[j] != x
  {
    if s[0] == x then 0 else
      assert exists i :: 0 <= i < |s[1..]| && s[1..][i] == x by {
        var i :| 0 <= i < |s| && s[i] == x;
        assert s[1..][i - 1] == x;
      }
      FirstIndex(s[1..], x) + 1
  }

  lemma FirstIndexIs(s: seq<int>, x: int, i: nat)
    requires i < |s| && s[i] == x && forall j :: 0 <= j < i ==> s[j] != x
    ensures FirstIndex(s, x) == i
  {
  }

  /** Register set b's INTSTAT after save_context as written: only the last register set is cleared. */
  function SavedAsWritten(banks: seq<BankRegs>): seq<BankRegs>
    requires |banks| >= 1
  {
    banks[|banks| - 1 := banks[|banks| - 1].(intstat := 0)]
  }

  function AllStatusCleared(banks: seq<BankRegs>): (r: seq<BankRegs>)
    ensures |r| == |banks| && forall b :: 0 <= b < |banks| ==> r[b] == banks[b].(intstat := 0)
  {
    seq(|banks|, b requires 0 <= b < |banks| => banks[b].(intstat := 0))
  }

  /** With two register sets, save_context as written leaves the first one's pending status. */
  lemma SaveLeavesStatus()
    ensures var pending := ZERO_REGS.(intstat := 1);
            SavedAsWritten([pending, pending])[0].intstat == 1
            && AllStatusCleared([pending, pending])[0].intstat == 0
  {
  }

  /** An output pin's dir: `dir & ~mask`, which clears the pin's bit and keeps the rest. */
  function ClearPinBit(d: u32, gpio: nat): (r: u32)
    ensures forall k: nat :: Bit(r, k) == if k == gpio % 32 then 0 else Bit(d, k)
  {
    Pow2Is32();
    AndOrBelow(d, Not32(GpioMask(gpio)), 32);
    var r: u32 := And(d, Not32(GpioMask(gpio)));
    assert forall k: nat :: Bit(r, k) == if k == gpio % 32 then 0 else Bit(d, k) by {
      forall k: nat
        ensures Bit(r, k) == if k == gpio % 32 then 0 else Bit(d, k)
      {
        DirBitClear(d, gpio % 32, k);
      }
    }
    r
  }

  /** An input pin's dir: `dir | mask`, which sets the pin's bit and keeps the rest. */
  function SetPinBit(d: u32, gpio: nat): (r: u32)
    ensures forall k: nat :: Bit(r, k) == if k == gpio % 32 then 1 else Bit(d, k)
  {
    Pow2Is32();
    AndOrBelow(d, GpioMask(gpio), 32);
    var r: u32 := Or(d, GpioMask(gpio));
    assert forall k: nat :: Bit(r, k) == if k == gpio % 32 then 1 else Bit(d, k) by {
      forall k: nat
        ensures Bit(r, k) == if k == gpio % 32 then 1 else Bit(d, k)
      {
        DirBitSet(d, gpio % 32, k);
      }
    }
    r
  }

  lemma DirBitClear(d: u32, g: nat, k: nat)
    requires g < 32
    ensures Pow2(g) < U32_LIMIT
    ensures Bit(And(d, Not32(Pow2(g))), k) == if k == g then 0 else Bit(d, k)
  {
    Pow2Is32();
    Pow2Mono(g + 1, 32);
    var m := Pow2(g);
    var nm := Not32(m);
    AndBit(d, nm, k);
    ComplementBit(m, 32, k);
    PowBit(g, k);
    var b := Bit(nm, k);
    assert b == if k < 32 && k != g then 1 else 0;
    if k >= 32 {
      BitsAbove(d, 32, k);
    }
    TimesBit(Bit(d, k), b);
  }

  lemma DirBitSet(d: u32, g: nat, k: nat)
    ensures Bit(Or(d, Pow2(g)), k) == if k == g then 1 else Bit(d, k)
  {
    OrBit(d, Pow2(g), k);
    PowBit(g, k);
  }
}
