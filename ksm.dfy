// KSM scan policy of mm/ksm.c: the scan-time advisor arithmetic, the
// smart-scan skip state machine, the stable-node sharing test and append
// counters, the address-sorted per-mm rmap_item list and the sysfs knob
// validation. Tree walks keyed on page contents are not modelled.

module Ksm {
  import opened Errno
  import opened Wrappers
  import opened Ints

  const PAGE_SIZE: nat := 4096
  // Low bits of rmap_item->address carry these flags.
  const SEQNR_MASK: nat := 0x0ff
  const UNSTABLE_FLAG: nat := 0x100
  const STABLE_FLAG: nat := 0x200

  const DEFAULT_PAGES_TO_SCAN: nat := 100
  const EWMA_WEIGHT: nat := 30
  const KSM_ADVISOR_MIN_CPU: nat := 10
  const U8_MAX: nat := 255

  const KSM_RUN_STOP: nat := 0
  const KSM_RUN_MERGE: nat := 1
  const KSM_RUN_UNMERGE: nat := 2

  /** C division of signed values, which truncates toward zero (div_s64). */
  function TruncDiv(a: int, b: nat): (q: int)
    requires b > 0
    ensures a >= 0 ==> 0 <= q && q * b <= a < q * b + b
    ensures a < 0 ==> q <= 0 && q * b - b < a <= q * b
  {
    if a >= 0 then DivBounds(a, b); a / b else DivBounds(-a, b); -((-a) / b)
  }

  lemma DivBounds(a: nat, b: nat)
    requires b > 0
    ensures 0 <= a / b && (a / b) * b <= a < (a / b) * b + b
  {
    assert a == (a / b) * b + a % b;
  }

  // ---------------------------------------------------------------------
  // Scan-time advisor
  // ---------------------------------------------------------------------

  /**
   * ewma: integer weighted average, 70% previous and 30% current, in
   * unsigned long arithmetic; when the weighted sum fits it lies between
   * prev and curr.
   */
  function Ewma(prev: u64, curr: u64): (r: u64)
    ensures NoWrap(70 * prev + 30 * curr) ==> 100 * r <= 70 * prev + 30 * curr < 100 * r + 100
    ensures NoWrap(70 * prev + 30 * curr) && prev <= curr ==> prev <= r <= curr
    ensures NoWrap(70 * prev + 30 * curr) && curr <= prev ==> curr <= r <= prev
    ensures 100 * r < U64_LIMIT
  {
    Wrap64((100 - EWMA_WEIGHT) * prev + EWMA_WEIGHT * curr) / 100
  }

  /** A value an unsigned long holds without wrapping. */
  predicate NoWrap(x: int)
  {
    0 <= x < U64_LIMIT
  }

  /**
   * prev_scan_time: the stored scan time, or the current one when none is
   * stored yet; it is nonzero whenever the current one is, which makes the
   * division by it in the advisor safe.
   */
  function PrevScanTime(stored: u64, current: u64): (r: u64)
    ensures stored != 0 ==> r == stored
    ensures stored == 0 ==> r == current
    ensures current != 0 ==> r != 0
  {
    if stored != 0 then stored else current
  }

  /** Every intermediate value of one scan_time_advisor round. */
  datatype AdvisorRound = AdvisorRound(
    scanTime: u64,
    cpuTime: u64,
    cpuPercent: u32,
    lastScanTime: u64,
    factor: u64,
    rawChange: u64,
    change: u64,
    perPageCost: u64,
    pages: nat)

  /** The "x ? x : 1" guard the advisor puts in front of every divisor. */
  function AtLeastOne(x: u64): (r: u64)
    ensures r >= 1
    ensures x != 0 ==> r == x
    ensures x == 0 ==> r == 1
  {
    if x == 0 then 1 else x
  }

  /**
   * The three caps on the new pages_to_scan: at most `cpuCap`, at least
   * `cpuFloor`, and at most `maxPages`, applied in that order.
   */
  function CapPages(pages: int, cpuCap: int, cpuFloor: int, maxPages: int): (r: int)
    ensures r <= maxPages
    ensures r <= Max(cpuCap, cpuFloor)
    ensures cpuFloor <= maxPages ==> cpuFloor <= r
    ensures cpuFloor <= pages <= cpuCap && pages <= maxPages ==> r == pages
  {
    Min(Max(Min(pages, cpuCap), cpuFloor), maxPages)
  }

  /** The whole seconds of a signed millisecond delta, stored in an unsigned long. */
  function ScanSeconds(elapsedMs: s64): (r: u64)
    ensures elapsedMs >= 0 ==> r * 1000 <= elapsedMs < r * 1000 + 1000
  {
    Wrap64(TruncDiv(elapsedMs, 1000))
  }

  /**
   * The divisor scan_time * 1000 of cpu_percent wraps as an unsigned long
   * but never to 0: a scan time from an s64 millisecond delta is below
   * 2^54 or above 2^64 - 2^54.
   */
  lemma ScanTimeDivisor(elapsedMs: s64)
    ensures Wrap64(AtLeastOne(ScanSeconds(elapsedMs)) * 1000) != 0
  {
    var q := TruncDiv(elapsedMs, 1000);
    assert -0x40_0000_0000_0000 < q < 0x40_0000_0000_0000;
    var t: int := AtLeastOne(ScanSeconds(elapsedMs));
    if q > 0 {
      assert t == q;
    } else if q == 0 {
      assert t == 1;
    } else {
      assert t == U64_LIMIT + q;
      assert t * 1000 == 1000 * U64_LIMIT + 1000 * q;
      assert Wrap64(t * 1000) == U64_LIMIT + 1000 * q;
    }
  }

  /**
   * ksmd's CPU use over the last scan, in percent of the scan time: the
   * unsigned long difference of CPU times in ms, times 100, over the
   * unsigned long scan_time * 1000, stored in an unsigned int.
   */
  function CpuPercent(cpuNow: u64, ctxCpuTime: u64, scanTime: u64): (r: u32)
    requires Wrap64(scanTime * 1000) != 0
  {
    var diffMs := Wrap64(cpuNow - ctxCpuTime) / 1000 / 1000;
    Wrap32(Wrap64(diffMs * 100) / Wrap64(scanTime * 1000))
  }

  /**
   * `x * 100 / y` in unsigned long arithmetic, or 1 when that is 0: the
   * advisor's factor and change. Without a wrap it is the exact quotient.
   */
  function Ratio(x: u64, y: u64): (r: u64)
    requires y >= 1
    ensures r >= 1
    ensures NoWrap(x * 100) && x * 100 >= y ==> r * y <= x * 100 < r * y + y
    ensures x * 100 < y ==> r == 1
  {
    var w := Wrap64(x * 100);
    var q := w / y;
    DivBounds(w, y);
    assert w < y ==> q == 0;
    assert w >= y ==> q >= 1;
    AtLeastOne(q)
  }

  /** per_page_cost: pages scanned per percent of CPU, at least 1 and at most pages_to_scan. */
  function PerPageCost(pagesToScan: u32, cpuPercent: u32): (r: u32)
    requires cpuPercent >= 1
    ensures 1 <= r && (pagesToScan >= 1 ==> r <= pagesToScan)
  {
    var q := pagesToScan / cpuPercent;
    DivBounds(pagesToScan, cpuPercent);
    MulMono(q, 1, cpuPercent);
    AtLeastOne(q)
  }

  /**
   * pages_to_scan rescaled: the unsigned int product pages_to_scan * 100
   * over the factor, then the unsigned long product with the smoothed
   * change over 100.
   */
  function ScaledPages(pagesToScan: u32, factor: u64, change: u64): (r: u64)
    requires factor >= 1
    ensures 100 * r < U64_LIMIT
    ensures NoWrap(Wrap32(pagesToScan * 100) / factor * change) ==>
              100 * r <= Wrap32(pagesToScan * 100) / factor * change
  {
    Wrap64(Wrap32(pagesToScan * 100) / factor * change) / 100
  }

  /** Two unsigned int values multiply without wrapping an unsigned long. */
  lemma U32Product(a: u32, b: u32)
    ensures NoWrap(a * b)
  {
    MulMono(a, b, U32_LIMIT - 1);
    MulMono(U32_LIMIT - 1, a, U32_LIMIT - 1);
    assert a * (U32_LIMIT - 1) == (U32_LIMIT - 1) * a;
  }

  lemma {:induction false} MulMono(a: nat, b: nat, c: nat)
    requires b <= c
    ensures a * b <= a * c
    decreases a
  {
    if a > 0 {
      MulMono(a - 1, b, c);
      assert a * b == (a - 1) * b + b && a * c == (a - 1) * c + c;
    }
  }

  /**
   * scan_time_advisor's arithmetic. `elapsedMs` is ktime_ms_delta(now,
   * start_scan) and `cpuNow` the ksmd runtime in ns; both are read from
   * clocks by the source. Every product is an unsigned long (pages_to_scan
   * * 100 an unsigned int) and wraps as in C; the two CPU caps are proved
   * not to wrap.
   */
  function AdvisorStep(elapsedMs: s64, cpuNow: u64, ctxScanTime: u64, ctxChange: u64,
                       ctxCpuTime: u64, pagesToScan: u32, targetScanTime: u64,
                       maxCpu: u32, maxPages: u64): (c: AdvisorRound)
    ensures c.scanTime >= 1 && c.cpuPercent >= 1 && c.factor >= 1
    ensures c.rawChange >= 1 && c.perPageCost >= 1 && c.lastScanTime >= 1
    ensures c.cpuTime == cpuNow
    ensures c.change == Ewma(ctxChange, c.rawChange)
    ensures NoWrap(c.perPageCost * maxCpu) && NoWrap(c.perPageCost * KSM_ADVISOR_MIN_CPU)
    ensures c.pages <= maxPages
    ensures c.pages <= Max(c.perPageCost * maxCpu, c.perPageCost * KSM_ADVISOR_MIN_CPU)
    ensures c.perPageCost * KSM_ADVISOR_MIN_CPU <= maxPages ==>
              c.perPageCost * KSM_ADVISOR_MIN_CPU <= c.pages
  {
    var scanTime := AtLeastOne(ScanSeconds(elapsedMs));
    ScanTimeDivisor(elapsedMs);
    var cpuPercent: u32 := AtLeastOne(CpuPercent(cpuNow, ctxCpuTime, scanTime));
    var last := PrevScanTime(ctxScanTime, scanTime);
    var factor := Ratio(targetScanTime, scanTime);
    var rawChange := Ratio(scanTime, last);
    var change := Ewma(ctxChange, rawChange);
    var pages := ScaledPages(pagesToScan, factor, change);
    var ppc := PerPageCost(pagesToScan, cpuPercent);
    U32Product(ppc, maxCpu);
    U32Product(ppc, KSM_ADVISOR_MIN_CPU);
    var capped := CapPages(pages, ppc * maxCpu, ppc * KSM_ADVISOR_MIN_CPU, maxPages);
    AdvisorRound(scanTime, cpuNow, cpuPercent, last, factor, rawChange, change, ppc, capped)
  }

  // ---------------------------------------------------------------------
  // Smart-scan skipping
  // ---------------------------------------------------------------------

  /** skip_age: how many scans an item of this age may skip. */
  function SkipAge(age: u8): (r: nat)
    ensures r == 1 || r == 2 || r == 4 || r == 8
    ensures age <= 3 ==> r == 1
    ensures 3 < age <= 5 ==> r == 2
    ensures 5 < age <= 8 ==> r == 4
    ensures 8 < age ==> r == 8
  {
    if age <= 3 then 1
    else if age <= 5 then 2
    else if age <= 8 then 4
    else 8
  }

  /** Older items never get fewer skips. */
  lemma SkipAgeMonotone(a: u8, b: u8)
    requires a <= b
    ensures SkipAge(a) <= SkipAge(b)
  {
  }

  /** The decision and new item fields of one should_skip_rmap_item call. */
  datatype SkipOutcome = SkipOutcome(skip: bool, age: u8, remaining: u8)

  /** The age counter saturates at U8_MAX. */
  function AgeInc(age: u8): (r: u8)
    ensures age < U8_MAX ==> r == age + 1
    ensures age == U8_MAX ==> r == age
  {
    if age != U8_MAX then age + 1 else age
  }

  function SkipStep(smartScan: bool, folioIsKsm: bool, age: u8, remaining: u8): (o: SkipOutcome)
    ensures !smartScan || folioIsKsm ==> o == SkipOutcome(false, age, remaining)
    ensures smartScan && !folioIsKsm ==> o.age == AgeInc(age)
    ensures o.skip <==> smartScan && !folioIsKsm && age >= 3 && remaining != 0
    ensures o.skip ==> o.remaining == remaining - 1
    ensures smartScan && !folioIsKsm && age >= 3 && remaining == 0 ==> o.remaining == SkipAge(age)
    ensures smartScan && !folioIsKsm && age < 3 ==> o.remaining == remaining
  {
    if !smartScan || folioIsKsm then SkipOutcome(false, age, remaining)
    else if age < 3 then SkipOutcome(false, AgeInc(age), remaining)
    else if remaining == 0 then SkipOutcome(false, AgeInc(age), SkipAge(age))
    else SkipOutcome(true, AgeInc(age), remaining - 1)
  }

  /** The number of skips among `n` successive smart-scan visits of a non-KSM page. */
  function SkipsIn(n: nat, age: u8, remaining: u8): nat
  {
    if n == 0 then 0
    else
      var o := SkipStep(true, false, age, remaining);
      (if o.skip then 1 else 0) + SkipsIn(n - 1, o.age, o.remaining)
  }

  /**
   * Once an item is at least 3 scans old, its `remaining` budget is spent in
   * exactly that many consecutive skipped visits.
   */
  lemma {:induction false} SkipBudgetSpent(n: nat, age: u8, remaining: u8)
    requires age >= 3 && n <= remaining
    ensures SkipsIn(n, age, remaining) == n
  {
    if n > 0 {
      var o := SkipStep(true, false, age, remaining);
      SkipBudgetSpent(n - 1, o.age, o.remaining);
    }
  }

  /** After the budget is spent the next visit scans the page and refills it. */
  lemma {:induction false} SkipBudgetRefill(age: u8, remaining: u8)
    requires age >= 3
    ensures SkipsIn(remaining as nat + 1, age, remaining) == remaining
    decreases remaining
  {
    var o := SkipStep(true, false, age, remaining);
    if remaining == 0 {
      assert !o.skip;
    } else {
      assert o.skip && o.remaining == remaining - 1 && o.age >= 3;
      SkipBudgetRefill(o.age, o.remaining);
    }
  }

  // ---------------------------------------------------------------------
  // Sharing candidates and VMA compatibility
  // ---------------------------------------------------------------------

  /** __is_page_sharing_candidate over rmap_hlist_len, which must not be negative. */
  predicate IsPageSharingCandidate(rmapHlistLen: int, offset: int, maxPageSharing: int): (r: bool)
    requires rmapHlistLen >= 0
    ensures r ==> 1 <= rmapHlistLen < maxPageSharing - offset
    ensures rmapHlistLen == 0 ==> !r
    ensures r && offset >= 0 ==> rmapHlistLen < maxPageSharing
  {
    rmapHlistLen != 0 && rmapHlistLen + offset < maxPageSharing
  }

  /** The vm_flags bits ksm_compatible tests, plus file_is_dax(file). */
  datatype VmFlags = VmFlags(shared: bool, mayShare: bool, special: bool, hugetlb: bool,
                             droppable: bool, sao: bool, sparcAdi: bool)

  function KsmCompatible(flags: VmFlags, fileIsDax: bool): (ok: bool)
    ensures ok ==> !flags.shared && !flags.mayShare && !flags.special && !flags.hugetlb
    ensures ok ==> !flags.droppable && !fileIsDax && !flags.sao && !flags.sparcAdi
    ensures flags == VmFlags(false, false, false, false, false, false, false) && !fileIsDax ==> ok
  {
    if flags.shared || flags.mayShare || flags.special || flags.hugetlb || flags.droppable then false
    else if fileIsDax then false
    else if flags.sao then false
    else if flags.sparcAdi then false
    else true
  }

  // ---------------------------------------------------------------------
  // Objects: rmap items, stable nodes, per-mm slots
  // ---------------------------------------------------------------------

  /** address & PAGE_MASK. */
  function Masked(a: nat): (m: nat)
    ensures m <= a < m + PAGE_SIZE && m % PAGE_SIZE == 0
  {
    a - a % PAGE_SIZE
  }

  /** STABLE_FLAG and UNSTABLE_FLAG among an item's low address bits. */
  predicate IsStable(flags: nat)
  {
    (flags / STABLE_FLAG) % 2 == 1
  }

  predicate IsUnstable(flags: nat)
  {
    (flags / UNSTABLE_FLAG) % 2 == 1
  }

  /** hlist_del on a node's hlist: l without x. */
  function Without<T(==)>(l: seq<T>, x: T): (r: seq<T>)
    ensures |r| <= |l| && x !in r
  {
    if |l| == 0 then []
    else (if l[0] == x then [] else [l[0]]) + Without(l[1..], x)
  }

  /** The low, sub-page bits of an address with STABLE_FLAG set. */
  function SetStable(flags: nat): (r: nat)
    requires flags < PAGE_SIZE
    ensures r < PAGE_SIZE
    ensures IsStable(flags) ==> r == flags
    ensures IsStable(r)
  {
    if IsStable(flags) then flags
    else
      assert flags / STABLE_FLAG <= 6;
      flags + STABLE_FLAG
  }

  class StableNode {
    var rmapHlistLen: int
    var hlist: seq<RmapItem>

    constructor()
      ensures rmapHlistLen == 0 && hlist == []
    {
      rmapHlistLen := 0;
      hlist := [];
    }
  }

  /**
   * A ksm_rmap_item. Its address is split into the page (address &
   * PAGE_MASK), which never changes once the item exists, and the low flag
   * bits (seqnr, UNSTABLE_FLAG, STABLE_FLAG).
   */
  class RmapItem {
    const page: nat
    var flags: nat
    var age: u8
    var remainingSkips: u8
    var head: StableNode?
    var mm: MmSlot?

    function Address(): nat
      reads this
    {
      page + flags
    }

    /** The low bits stay below a page, and a stable item has its stable node. */
    ghost predicate Valid()
      reads this
    {
      page % PAGE_SIZE == 0 && flags < PAGE_SIZE && (IsStable(flags) ==> head != null)
    }

    /** A zeroed item from alloc_rmap_item, given its mm and its page address. */
    constructor(addr: nat, owner: MmSlot)
      requires addr % PAGE_SIZE == 0
      ensures Valid() && Address() == addr && page == addr
      ensures age == 0 && remainingSkips == 0 && head == null && mm == owner
    {
      page := addr;
      flags := 0;
      age := 0;
      remainingSkips := 0;
      head := null;
      mm := owner;
    }
  }

  /** The page of a valid item is its masked address; only later pages compare above addr. */
  lemma AddressParts(it: RmapItem, addr: nat)
    requires it.Valid() && addr % PAGE_SIZE == 0
    ensures Masked(it.Address()) == it.page
    ensures it.page != addr ==> (it.Address() > addr <==> it.page > addr)
  {
    var k := it.page / PAGE_SIZE;
    assert it.page == k * PAGE_SIZE;
    assert (k * PAGE_SIZE + it.flags) % PAGE_SIZE == it.flags;
    if it.page < addr {
      assert it.page / PAGE_SIZE < addr / PAGE_SIZE;
      assert it.page + PAGE_SIZE <= addr;
    }
  }

  /** No item is listed twice. */
  predicate Distinct(l: seq<RmapItem>)
  {
    |l| == 0 || (l[0] !in l[1..] && Distinct(l[1..]))
  }

  lemma {:induction false} DistinctPairs(l: seq<RmapItem>)
    requires Distinct(l)
    ensures forall i, j :: 0 <= i < j < |l| ==> l[i] != l[j]
  {
    if |l| > 0 {
      var t := l[1..];
      DistinctPairs(t);
      forall i, j | 0 <= i < j < |l|
        ensures l[i] != l[j]
      {
        assert l[j] == t[j - 1];
        if i > 0 {
          assert l[i] == t[i - 1];
        }
      }
    }
  }

  /** In a distinct list, the item at k occurs nowhere else. */
  lemma DistinctAt(l: seq<RmapItem>, k: nat)
    requires Distinct(l) && k < |l|
    ensures forall j :: 0 <= j < |l| && j != k ==> l[j] != l[k]
  {
    DistinctPairs(l);
    forall j | 0 <= j < |l| && j != k
      ensures l[j] != l[k]
    {
      if j < k {
        assert l[j] != l[k];
      } else {
        assert l[k] != l[j];
      }
    }
  }

  lemma {:induction false} PairsDistinct(l: seq<RmapItem>)
    requires forall i, j :: 0 <= i < j < |l| ==> l[i] != l[j]
    ensures Distinct(l)
  {
    if |l| > 0 {
      var t := l[1..];
      forall i, j | 0 <= i < j < |t|
        ensures t[i] != t[j]
      {
        assert t[i] == l[i + 1] && t[j] == l[j + 1];
      }
      PairsDistinct(t);
      forall j | 0 <= j < |t|
        ensures t[j] != l[0]
      {
        assert t[j] == l[j + 1];
      }
    }
  }

  /** Every item of l is well formed and belongs to the mm of slot. */
  ghost predicate OwnedBy(l: seq<RmapItem>, slot: MmSlot)
    reads l
  {
    forall i :: 0 <= i < |l| ==> l[i].mm == slot && l[i].Valid()
  }

  /** Items strictly increasing by page (hence pairwise distinct). */
  predicate SortedItems(l: seq<RmapItem>)
  {
    forall i, j :: 0 <= i < j < |l| ==> l[i].page < l[j].page
  }

  lemma SortedSlice(l: seq<RmapItem>, pos: nat, k: nat)
    requires pos <= k <= |l| && SortedItems(l)
    ensures SortedItems(l[..pos] + l[k..])
  {
    var m := l[..pos] + l[k..];
    forall i, j | 0 <= i < j < |m|
      ensures m[i].page < m[j].page
    {
      var ii := if i < pos then i else i - pos + k;
      var jj := if j < pos then j else j - pos + k;
      assert m[i] == l[ii] && m[j] == l[jj] && ii < jj;
    }
  }

  /**
   * get_next_rmap_item keeps the list sorted by address: when the item
   * before the cursor is below addr, what is left after dropping the
   * passed items l[pos..k] is sorted, and so is the list with a new item
   * of page addr put in their place.
   */
  lemma NextItemKeepsSorted(l: seq<RmapItem>, pos: nat, k: nat, addr: nat, r: RmapItem)
    requires pos <= k <= |l| && SortedItems(l)
    requires pos == 0 || l[pos - 1].page < addr
    requires k == |l| || l[k].page > addr
    requires r.page == addr
    ensures SortedItems(l[..pos] + l[k..])
    ensures SortedItems(l[..pos] + [r] + l[k..])
  {
    SortedSlice(l, pos, k);
    SortedReplace(l, pos, k, r);
  }

  /** Inserting at pos after dropping l[pos..k] is replacing l[pos..k] by the new item. */
  lemma SpliceInsert<T>(l: seq<T>, pos: nat, k: nat, r: T)
    requires pos <= k <= |l|
    ensures var kept := l[..pos] + l[k..];
            kept[..pos] + [r] + kept[pos..] == l[..pos] + [r] + l[k..]
  {
    var kept := l[..pos] + l[k..];
    assert kept[..pos] == l[..pos] && kept[pos..] == l[k..];
  }

  /** Replacing l[pos..k] of a sorted list by one item that fits there keeps it sorted. */
  lemma SortedReplace(l: seq<RmapItem>, pos: nat, k: nat, r: RmapItem)
    requires pos <= k <= |l| && SortedItems(l)
    requires pos == 0 || l[pos - 1].page < r.page
    requires k == |l| || r.page < l[k].page
    ensures SortedItems(l[..pos] + [r] + l[k..])
  {
    SortedSlice(l, pos, k);
    var kept := l[..pos] + l[k..];
    assert kept[..pos] == l[..pos] && kept[pos..] == l[k..];
    SortedInsert(kept, pos, r);
  }

  lemma SortedInsert(l: seq<RmapItem>, pos: nat, r: RmapItem)
    requires pos <= |l| && SortedItems(l)
    requires pos == 0 || l[pos - 1].page < r.page
    requires pos == |l| || r.page < l[pos].page
    ensures SortedItems(l[..pos] + [r] + l[pos..])
  {
    var m := l[..pos] + [r] + l[pos..];
    forall i, j | 0 <= i < j < |m|
      ensures m[i].page < m[j].page
    {
      if i < pos && j < pos {
        assert m[i] == l[i] && m[j] == l[j];
      } else if i < pos && j == pos {
        assert m[i] == l[i];
        if i < pos - 1 { assert l[i].page < l[pos - 1].page; }
      } else if i < pos {
        assert m[i] == l[i] && m[j] == l[j - 1];
      } else if i == pos {
        assert m[j] == l[j - 1];
        if j - 1 > pos { assert l[pos].page < l[j - 1].page; }
      } else {
        assert m[i] == l[i - 1] && m[j] == l[j - 1];
      }
    }
  }

  /** One mm's ksm_mm_slot: its rmap_item list and per-mm counters. */
  class MmSlot {
    var rmapList: seq<RmapItem>
    var ksmRmapItems: int
    var ksmMergingPages: int

    /**
     * Each listed item is well formed, belongs to this mm (which counts them
     * all) and is linked once.
     */
    ghost predicate Valid()
      reads this, rmapList
    {
      && ksmRmapItems == |rmapList|
      && OwnedBy(rmapList, this)
      && Distinct(rmapList)
    }

    ghost predicate Sorted()
      reads this
    {
      SortedItems(rmapList)
    }

    constructor()
      ensures Valid() && Sorted() && rmapList == [] && ksmMergingPages == 0
    {
      rmapList := [];
      ksmRmapItems := 0;
      ksmMergingPages := 0;
    }

    /**
     * The walk of get_next_rmap_item from the cursor at `pos`: it passes a
     * run of n items of earlier pages and stops at the item of page addr
     * (`found`), at one past addr, or at the end of the list.
     */
    method PassedRun(pos: nat, addr: nat) returns (found: bool, n: nat)
      requires Valid() && pos <= |rmapList| && addr % PAGE_SIZE == 0
      ensures pos + n <= |rmapList|
      ensures forall j :: pos <= j < pos + n ==> rmapList[j].page < addr
      ensures found <==> pos + n < |rmapList| && rmapList[pos + n].page == addr
      ensures !found && pos + n < |rmapList| ==> rmapList[pos + n].page > addr
    {
      n := 0;
      found := false;
      while pos + n < |rmapList|
        invariant pos + n <= |rmapList|
        invariant forall j :: pos <= j < pos + n ==> rmapList[j].page < addr
        invariant !found
        decreases |rmapList| - pos - n
      {
        var item := rmapList[pos + n];
        AddressParts(item, addr);
        if Masked(item.Address()) == addr {
          found := true;
          break;
        }
        if item.Address() > addr {
          break;
        }
        n := n + 1;
      }
    }

    /** Unlinking a run keeps every other item well formed and linked once. */
    lemma UnlinkValid(pos: nat, n: nat)
      requires Valid() && pos + n <= |rmapList|
      ensures Distinct(rmapList[..pos] + rmapList[pos + n..])
      ensures OwnedBy(rmapList[..pos] + rmapList[pos + n..], this)
    {
      var l := rmapList[..pos] + rmapList[pos + n..];
      DistinctPairs(rmapList);
      forall i, j | 0 <= i < j < |l|
        ensures l[i] != l[j]
      {
        var ii := if i < pos then i else i + n;
        var jj := if j < pos then j else j + n;
        assert l[i] == rmapList[ii] && l[j] == rmapList[jj] && ii < jj;
      }
      PairsDistinct(l);
      forall i | 0 <= i < |l|
        ensures l[i].mm == this && l[i].Valid()
      {
        assert l[i] == rmapList[if i < pos then i else i + n];
      }
    }

    /** list_del of the n items from `pos` on. */
    method Unlink(pos: nat, n: nat)
      requires Valid() && pos + n <= |rmapList|
      modifies this`rmapList, this`ksmRmapItems
      ensures Valid() && rmapList == old(rmapList)[..pos] + old(rmapList)[pos + n..]
      ensures old(Sorted()) ==> Sorted()
    {
      UnlinkValid(pos, n);
      if Sorted() {
        SortedSlice(rmapList, pos, pos + n);
      }
      rmapList := rmapList[..pos] + rmapList[pos + n..];
      ksmRmapItems := ksmRmapItems - n;
    }

    /** The allocation half of get_next_rmap_item: a new item of page addr at `pos`. */
    method InsertNew(pos: nat, addr: nat) returns (r: RmapItem)
      requires Valid() && pos <= |rmapList| && addr % PAGE_SIZE == 0
      modifies this
      ensures Valid() && ksmMergingPages == old(ksmMergingPages)
      ensures fresh(r) && r.Address() == addr && r.page == addr
      ensures r.age == 0 && r.remainingSkips == 0 && r.head == null
      ensures rmapList == old(rmapList)[..pos] + [r] + old(rmapList)[pos..]
    {
      r := new RmapItem(addr, this);
      ghost var l := rmapList[..pos] + [r] + rmapList[pos..];
      DistinctPairs(rmapList);
      forall i, j | 0 <= i < j < |l|
        ensures l[i] != l[j]
      {
        var ii := if i < pos then i else i - 1;
        var jj := if j < pos then j else j - 1;
        if i != pos && j != pos {
          assert l[i] == rmapList[ii] && l[j] == rmapList[jj] && ii < jj;
        }
      }
      PairsDistinct(l);
      ksmRmapItems := ksmRmapItems + 1;
      rmapList := rmapList[..pos] + [r] + rmapList[pos..];
    }
  }

  /** The links and heads of a run of a list are the run of its links, and among its heads. */
  lemma SliceOf(l: seq<RmapItem>, pos: nat, end: nat)
    requires pos <= end <= |l|
    ensures Links(l[pos..end]) == Links(l)[pos..end] && Heads(l[pos..end]) <= Heads(l)
  {
    var t := l[pos..end];
    LinksAt(l);
    LinksAt(t);
    forall k | 0 <= k < |t|
      ensures Links(t)[k] == Links(l)[pos..end][k]
    {
      assert t[k] == l[pos + k];
    }
    assert Links(t) == Links(l)[pos..end];
    forall x | x in t
      ensures x in l
    {
      var k :| 0 <= k < |t| && t[k] == x;
      assert l[pos + k] == x;
    }
  }

  /** The items unlinked from a list an mm owns are its own, well formed and distinct. */
  lemma GoneItems(l0: seq<RmapItem>, pos: nat, gone: seq<RmapItem>, slot: MmSlot)
    requires pos + |gone| <= |l0| && gone == l0[pos..pos + |gone|]
    requires OwnedBy(l0, slot)
    requires Distinct(l0)
    ensures Distinct(gone)
    ensures forall i :: 0 <= i < |gone| ==> gone[i].mm == slot && gone[i].Valid()
  {
    DistinctPairs(l0);
    forall i, j | 0 <= i < j < |gone|
      ensures gone[i] != gone[j]
    {
      assert gone[i] == l0[pos + i] && gone[j] == l0[pos + j];
    }
    PairsDistinct(gone);
    forall i | 0 <= i < |gone|
      ensures gone[i].mm == slot && gone[i].Valid()
    {
      assert gone[i] == l0[pos + i];
    }
  }

  /** What remove_rmap_item_from_tree reads of an item: its low flag bits and its stable node. */
  datatype TreeLink = TreeLink(flags: nat, head: StableNode?)

  function LinkOf(it: RmapItem): TreeLink
    reads it`flags, it`head
  {
    TreeLink(it.flags, it.head)
  }

  /** The links of a sequence of items, in order. */
  function Links(items: seq<RmapItem>): (s: seq<TreeLink>)
    reads items`flags, items`head
    ensures |s| == |items|
  {
    if |items| == 0 then [] else [LinkOf(items[0])] + Links(items[1..])
  }

  lemma {:induction false} LinksAt(items: seq<RmapItem>)
    ensures forall k :: 0 <= k < |items| ==> Links(items)[k] == LinkOf(items[k])
    decreases |items|
  {
    if |items| > 0 {
      LinksAt(items[1..]);
    }
  }

  /**
   * Whether remove_rmap_item_from_tree unhooks an item from a stable node:
   * it is stable and ksm_get_folio finds the node's folio (the node is in
   * `live`); and whether it only leaves the unstable tree.
   */
  predicate LeavesStable(l: TreeLink, live: set<StableNode>)
  {
    IsStable(l.flags) && l.head in live
  }

  predicate LeavesUnstable(l: TreeLink)
  {
    !IsStable(l.flags) && IsUnstable(l.flags)
  }

  /** How many of the links leave the stable tree (`stable`) or the unstable one. */
  function Leaving(s: seq<TreeLink>, live: set<StableNode>, stable: bool): (n: nat)
    ensures n <= |s|
  {
    if |s| == 0 then 0
    else (if (if stable then LeavesStable(s[0], live) else LeavesUnstable(s[0])) then 1 else 0)
         + Leaving(s[1..], live, stable)
  }

  lemma {:induction false} LeavingStep(s: seq<TreeLink>, k: nat, live: set<StableNode>, stable: bool)
    requires k < |s|
    ensures Leaving(s[..k + 1], live, stable) ==
            Leaving(s[..k], live, stable) + (if (if stable then LeavesStable(s[k], live) else LeavesUnstable(s[k])) then 1 else 0)
    decreases k
  {
    if k > 0 {
      assert s[..k + 1][1..] == s[1..][..k];
      assert s[..k][1..] == s[1..][..k - 1];
      LeavingStep(s[1..], k - 1, live, stable);
    }
  }

  /** The KSM page counters remove_rmap_item_from_tree updates, with the mm's ksm_merging_pages. */
  datatype TreeCounts = TreeCounts(shared: int, sharing: int, unshared: int, merging: int)

  /** A stable node's hlist and rmap_hlist_len; a NULL node has an empty one. */
  datatype NodeState = NodeState(hlist: seq<RmapItem>, len: int)

  function NodeOf(n: StableNode?): NodeState
    reads {n}`hlist, {n}`rmapHlistLen
  {
    if n == null then NodeState([], 0) else NodeState(n.hlist, n.rmapHlistLen)
  }

  /**
   * remove_rmap_item_from_tree on `item`, from counters c0, link l0 and
   * its node n0 to c, l and n. A stable item whose folio is found leaves
   * its node's hlist, which loses one from rmap_hlist_len; the node then
   * counts one page sharing less, or one shared page less when it was the
   * last item; the mm has one merging page less; the item loses its node
   * and its low bits. An unstable item counts one unshared page less and
   * loses its low bits. For a stable item whose folio is gone the predicate
   * keeps everything as it was: the stale-node cleanup ksm_get_folio does
   * then (remove_node_from_stable_tree, which unhooks every item of the
   * node and frees it) is not part of this model.
   */
  predicate RemovedFromTree(item: RmapItem, live: set<StableNode>,
                            c0: TreeCounts, l0: TreeLink, n0: NodeState,
                            c: TreeCounts, l: TreeLink, n: NodeState)
  {
    if LeavesStable(l0, live) then
      && n == NodeState(Without(n0.hlist, item), n0.len - 1)
      && l == TreeLink(0, null)
      && c == (if n.hlist != [] then c0.(sharing := c0.sharing - 1) else c0.(shared := c0.shared - 1))
                .(merging := c0.merging - 1)
    else if LeavesUnstable(l0) then
      n == n0 && l == l0.(flags := 0) && c == c0.(unshared := c0.unshared - 1)
    else
      n == n0 && l == l0 && c == c0
  }

  /** What remove_rmap_item_from_tree changes, one counter and one link at a time. */
  lemma RemovedCounts(item: RmapItem, live: set<StableNode>, c0: TreeCounts, l0: TreeLink, n0: NodeState,
                      c: TreeCounts, l: TreeLink, n: NodeState)
    requires RemovedFromTree(item, live, c0, l0, n0, c, l, n)
    ensures c.merging == c0.merging - (if LeavesStable(l0, live) then 1 else 0)
    ensures c.shared + c.sharing == c0.shared + c0.sharing - (if LeavesStable(l0, live) then 1 else 0)
    ensures c.unshared == c0.unshared - (if LeavesUnstable(l0) then 1 else 0)
    ensures LeavesStable(l0, live) || LeavesUnstable(l0) ==> l.flags == 0 && !IsStable(l.flags)
    ensures !LeavesStable(l0, live) && !LeavesUnstable(l0) ==> l == l0
  {
  }

  /** An item's link once remove_rmap_item_from_tree has run on it. */
  function Unlinked(l: TreeLink, live: set<StableNode>): (r: TreeLink)
    ensures LeavesStable(l, live) ==> r == TreeLink(0, null)
    ensures !LeavesStable(l, live) && LeavesUnstable(l) ==> r == l.(flags := 0)
    ensures !LeavesStable(l, live) && !LeavesUnstable(l) ==> r == l
  {
    if LeavesStable(l, live) then TreeLink(0, null)
    else if LeavesUnstable(l) then l.(flags := 0)
    else l
  }

  /** The stable nodes the items point to. */
  function Heads(items: seq<RmapItem>): (h: set<StableNode>)
    reads items`head
    ensures forall k :: 0 <= k < |items| && items[k].head != null ==> items[k].head in h
  {
    set i | i in items && i.head != null :: i.head
  }

  /** The items, in order, whose links s say they leave node n's hlist. */
  function Unhooked(items: seq<RmapItem>, s: seq<TreeLink>, live: set<StableNode>, n: StableNode): seq<RmapItem>
    requires |s| == |items|
  {
    if |items| == 0 then []
    else Unhooked(items[..|items| - 1], s[..|s| - 1], live, n)
         + (if LeavesStable(s[|s| - 1], live) && s[|s| - 1].head == n then [items[|items| - 1]] else [])
  }

  /** l without any element of xs, in order. */
  function Purge<T(==)>(l: seq<T>, xs: seq<T>): (r: seq<T>)
    ensures |r| <= |l|
  {
    if |l| == 0 then []
    else (if l[0] in xs then [] else [l[0]]) + Purge(l[1..], xs)
  }

  /** Deleting x after purging xs is purging xs and x. */
  lemma {:induction false} WithoutPurge<T>(l: seq<T>, xs: seq<T>, x: T)
    ensures Without(Purge(l, xs), x) == Purge(l, xs + [x])
    decreases |l|
  {
    if |l| > 0 {
      var rest := Purge(l[1..], xs);
      WithoutPurge(l[1..], xs, x);
      assert (l[0] in xs + [x]) <==> (l[0] in xs || l[0] == x);
      if l[0] in xs {
        assert Purge(l, xs) == rest;
      } else {
        var p := [l[0]] + rest;
        assert Purge(l, xs) == p;
        assert p[0] == l[0] && p[1..] == rest;
        assert Without(p, x) == (if l[0] == x then [] else [l[0]]) + Without(rest, x);
      }
    }
  }

  /** Purging nothing keeps the list. */
  lemma {:induction false} PurgeNone<T>(l: seq<T>)
    ensures Purge(l, []) == l
    decreases |l|
  {
    if |l| > 0 {
      PurgeNone(l[1..]);
      assert l == [l[0]] + l[1..];
    }
  }

  /**
   * The counters after the freeing loops ran remove_rmap_item_from_tree on
   * `items`, whose links were s: the mm loses a merging page and the KSM
   * counters a shared or sharing page per stable item whose folio is found,
   * and they lose an unshared page per unstable item.
   */
  predicate RemovedAll(live: set<StableNode>, s: seq<TreeLink>, c0: TreeCounts, c: TreeCounts)
  {
    && c.merging == c0.merging - Leaving(s, live, true)
    && c.shared + c.sharing == c0.shared + c0.sharing - Leaving(s, live, true)
    && c.unshared == c0.unshared - Leaving(s, live, false)
  }

  /** The nodes (hlist and rmap_hlist_len) of the heads h. */
  function NodeStates(h: set<StableNode>): (m: map<StableNode, NodeState>)
    reads h`hlist, h`rmapHlistLen
    ensures m.Keys == h && NodesAre(m)
  {
    map n | n in h :: NodeOf(n)
  }

  /** The nodes of m hold what m says. */
  predicate NodesAre(m: map<StableNode, NodeState>)
    reads m.Keys`hlist, m.Keys`rmapHlistLen
  {
    forall n :: n in m ==> NodeOf(n) == m[n]
  }

  /**
   * Each node of m0 has lost from its hlist, and from rmap_hlist_len, the
   * items whose links s say they leave it.
   */
  predicate HooksAfter(items: seq<RmapItem>, s: seq<TreeLink>, live: set<StableNode>,
                       m0: map<StableNode, NodeState>, m: map<StableNode, NodeState>)
    requires |s| == |items|
  {
    forall n :: n in m0 ==>
      n in m && m[n] == NodeState(Purge(m0[n].hlist, Unhooked(items, s, live, n)),
                                  m0[n].len - |Unhooked(items, s, live, n)|)
  }

  /** One removal's effect on the nodes of m: the node the item leaves loses it. */
  function HookStep(m: map<StableNode, NodeState>, item: RmapItem, l: TreeLink, live: set<StableNode>)
    : (r: map<StableNode, NodeState>)
    ensures r.Keys == m.Keys
  {
    if LeavesStable(l, live) && l.head in m
    then m[l.head := NodeState(Without(m[l.head].hlist, item), m[l.head].len - 1)]
    else m
  }

  /** The removals of items (with links s), one after the other, on the nodes of m0. */
  function HookFold(m0: map<StableNode, NodeState>, items: seq<RmapItem>, s: seq<TreeLink>, live: set<StableNode>)
    : (r: map<StableNode, NodeState>)
    requires |s| == |items|
    ensures r.Keys == m0.Keys
  {
    if |items| == 0 then m0
    else HookStep(HookFold(m0, items[..|items| - 1], s[..|s| - 1], live), items[|items| - 1], s[|s| - 1], live)
  }

  /** Removing the items one after the other leaves each node without those it loses. */
  lemma {:induction false} HookFoldAfter(items: seq<RmapItem>, s: seq<TreeLink>, live: set<StableNode>,
                                         m0: map<StableNode, NodeState>)
    requires |s| == |items|
    ensures HooksAfter(items, s, live, m0, HookFold(m0, items, s, live))
    decreases |items|
  {
    if |items| == 0 {
      forall n | n in m0
        ensures m0[n] == NodeState(Purge(m0[n].hlist, []), m0[n].len)
      {
        PurgeNone(m0[n].hlist);
      }
    } else {
      var last := |items| - 1;
      HookFoldAfter(items[..last], s[..last], live, m0);
      var m := HookFold(m0, items[..last], s[..last], live);
      forall n | n in m0
        ensures n in HookFold(m0, items, s, live)
        ensures HookFold(m0, items, s, live)[n] ==
                NodeState(Purge(m0[n].hlist, Unhooked(items, s, live, n)), m0[n].len - |Unhooked(items, s, live, n)|)
      {
        var u := Unhooked(items[..last], s[..last], live, n);
        assert n in m && m[n] == NodeState(Purge(m0[n].hlist, u), m0[n].len - |u|);
        if LeavesStable(s[last], live) && s[last].head == n {
          assert Unhooked(items, s, live, n) == u + [items[last]];
          WithoutPurge(m0[n].hlist, u, items[last]);
        } else {
          assert Unhooked(items, s, live, n) == u + [];
          assert u + [] == u;
        }
      }
    }
  }

  /** The counters after one more removal. */
  lemma RemovedAllStep(item: RmapItem, live: set<StableNode>, s: seq<TreeLink>, k: nat,
                       c0: TreeCounts, cb: TreeCounts, c: TreeCounts, nb: NodeState, l: TreeLink, n: NodeState)
    requires k < |s| && RemovedAll(live, s[..k], c0, cb)
    requires RemovedFromTree(item, live, cb, s[k], nb, c, l, n)
    ensures RemovedAll(live, s[..k + 1], c0, c)
  {
    RemovedCounts(item, live, cb, s[k], nb, c, l, n);
    LeavingStep(s, k, live, true);
    LeavingStep(s, k, live, false);
  }

  // ---------------------------------------------------------------------
  // Global KSM state and its sysfs knobs
  // ---------------------------------------------------------------------

  datatype AdvisorType = AdvisorNone | AdvisorScanTime

  class KsmState {
    var run: nat
    var pagesToScan: u32
    var advisor: AdvisorType
    var smartScan: bool
    // advisor_ctx
    var ctxScanTime: u64
    var ctxChange: u64
    var ctxCpuTime: u64
    // advisor knobs
    var targetScanTime: u64
    var maxCpu: u32
    var maxPagesToScan: u64
    var minPagesToScan: u64
    // sharing limits and statistics
    var maxPageSharing: int
    var pagesShared: int
    var pagesSharing: int
    var pagesUnshared: int
    var rmapItems: int
    var pagesSkipped: nat

    /** What the knob stores keep: a known run mode and sane limits. */
    ghost predicate Valid()
      reads this
    {
      run <= KSM_RUN_UNMERGE && maxPageSharing >= 2 && targetScanTime >= 1
    }

    /** The boot-time defaults. */
    constructor()
      ensures Valid()
      ensures run == KSM_RUN_STOP && pagesToScan == DEFAULT_PAGES_TO_SCAN && advisor == AdvisorNone
      ensures smartScan && maxPageSharing == 256 && targetScanTime == 200
      ensures maxCpu == 70 && maxPagesToScan == 30000 && minPagesToScan == 500
      ensures ctxScanTime == 0 && ctxChange == 0 && ctxCpuTime == 0
      ensures pagesShared == 0 && pagesSharing == 0 && pagesUnshared == 0
      ensures rmapItems == 0 && pagesSkipped == 0
    {
      run := KSM_RUN_STOP;
      pagesToScan := DEFAULT_PAGES_TO_SCAN;
      advisor := AdvisorNone;
      smartScan := true;
      ctxScanTime := 0;
      ctxChange := 0;
      ctxCpuTime := 0;
      targetScanTime := 200;
      maxCpu := 70;
      maxPagesToScan := 30000;
      minPagesToScan := 500;
      maxPageSharing := 256;
      pagesShared := 0;
      pagesSharing := 0;
      pagesUnshared := 0;
      rmapItems := 0;
      pagesSkipped := 0;
    }

    /**
     * scan_time_advisor: one round of AdvisorStep, stored into advisor_ctx
     * and (truncated to u32) into pages_to_scan, which stays within the max
     * knob.
     */
    method ScanTimeAdvisor(elapsedMs: s64, cpuNow: u64)
      modifies this`ctxScanTime, this`ctxChange, this`ctxCpuTime, this`pagesToScan
      ensures
        var c := AdvisorStep(elapsedMs, cpuNow, old(ctxScanTime), old(ctxChange), old(ctxCpuTime),
                             old(pagesToScan), targetScanTime, maxCpu, maxPagesToScan);
        ctxScanTime == c.scanTime && ctxChange == c.change && ctxCpuTime == c.cpuTime &&
        pagesToScan == Wrap32(c.pages)
      ensures pagesToScan <= maxPagesToScan
      ensures ctxScanTime >= 1
    {
      var c := AdvisorStep(elapsedMs, cpuNow, ctxScanTime, ctxChange, ctxCpuTime,
                           pagesToScan, targetScanTime, maxCpu, maxPagesToScan);
      ctxChange := c.change;
      ctxScanTime := c.scanTime;
      ctxCpuTime := c.cpuTime;
      pagesToScan := Wrap32(c.pages);
    }

    /** set_advisor_defaults: resets pages_to_scan, and advisor_ctx for the scan-time advisor. */
    method SetAdvisorDefaults()
      modifies this`ctxScanTime, this`ctxChange, this`ctxCpuTime, this`pagesToScan
      ensures advisor == AdvisorNone ==>
                (pagesToScan == DEFAULT_PAGES_TO_SCAN &&
                 unchanged(this`ctxScanTime, this`ctxChange, this`ctxCpuTime))
      ensures advisor == AdvisorScanTime ==>
                (pagesToScan == Wrap32(minPagesToScan) &&
                 ctxScanTime == 0 && ctxChange == 0 && ctxCpuTime == 0)
    {
      if advisor == AdvisorNone {
        pagesToScan := DEFAULT_PAGES_TO_SCAN;
      } else {
        ctxScanTime := 0;
        ctxChange := 0;
        ctxCpuTime := 0;
        pagesToScan := Wrap32(minPagesToScan);
      }
    }

    /** The counters remove_rmap_item_from_tree updates, with those of mm m. */
    function Counts(m: MmSlot): TreeCounts
      reads this`pagesShared, this`pagesSharing, this`pagesUnshared, m`ksmMergingPages
    {
      TreeCounts(pagesShared, pagesSharing, pagesUnshared, m.ksmMergingPages)
    }

    /**
     * remove_rmap_item_from_tree. `live` are the stable nodes whose folio
     * ksm_get_folio finds; the item leaves its tree as RemovedFromTree says.
     * For a node outside `live` the method returns at once, without the
     * remove_node_from_stable_tree that ksm_get_folio runs on a stale node.
     */
    method RemoveRmapItemFromTree(item: RmapItem, live: set<StableNode>, ghost m: map<StableNode, NodeState>)
      requires item.mm != null && item.Valid() && NodesAre(m)
      modifies this`pagesShared, this`pagesSharing, this`pagesUnshared
      modifies item`flags, item`head, {item.head}`hlist, {item.head}`rmapHlistLen, item.mm`ksmMergingPages
      ensures RemovedFromTree(item, live, old(Counts(item.mm)), old(LinkOf(item)), old(NodeOf(item.head)),
                              Counts(item.mm), LinkOf(item), NodeOf(old(item.head)))
      ensures item.Valid()
      ensures NodesAre(HookStep(m, item, old(LinkOf(item)), live))
    {
      if IsStable(item.flags) {
        var node := item.head;
        if node !in live {
          return;
        }
        node.hlist := Without(node.hlist, item);
        if node.hlist != [] {
          pagesSharing := pagesSharing - 1;
        } else {
          pagesShared := pagesShared - 1;
        }
        item.mm.ksmMergingPages := item.mm.ksmMergingPages - 1;
        node.rmapHlistLen := node.rmapHlistLen - 1;
        item.head := null;
        item.flags := 0;
        ghost var ma := HookStep(m, item, old(LinkOf(item)), live);
        forall n | n in ma
          ensures NodeOf(n) == ma[n]
        {
          if n != node {
            assert NodeOf(n) == old(NodeOf(n));
          }
        }
      } else if IsUnstable(item.flags) {
        pagesUnshared := pagesUnshared - 1;
        item.flags := 0;
      }
    }

    /**
     * remove_rmap_item_from_tree on each of an mm's items in turn, as the
     * freeing loops do, given the items' links s, the counters c0 and the
     * nodes m0 they reach. Each stable item whose folio is found counts one
     * merging page of the mm less and one shared or sharing page less, and
     * leaves its node's hlist; each unstable item one unshared page less.
     */
    method RemoveItemsFromTree(items: seq<RmapItem>, slot: MmSlot, live: set<StableNode>,
                               ghost s: seq<TreeLink>, ghost c0: TreeCounts, ghost m0: map<StableNode, NodeState>)
      requires |s| == |items| && Counts(slot) == c0 && NodesAre(m0)
      requires Distinct(items)
      requires forall k :: 0 <= k < |items| ==>
                 items[k].mm == slot && items[k].Valid() && LinkOf(items[k]) == s[k] &&
                 (s[k].head != null ==> s[k].head in m0)
      modifies this`pagesShared, this`pagesSharing, this`pagesUnshared, slot`ksmMergingPages
      modifies items`flags, items`head, m0.Keys`hlist, m0.Keys`rmapHlistLen
      ensures RemovedAll(live, s, c0, Counts(slot))
      ensures NodesAre(HookFold(m0, items, s, live))
      ensures forall k :: 0 <= k < |items| ==> LinkOf(items[k]) == Unlinked(s[k], live)
      ensures forall i :: i in items ==> i.Valid()
    {
      var k := 0;
      assert items[..0] == [] && s[..0] == [];
      while k < |items|
        invariant k <= |items| && Progress(items, s, k, slot, live, c0, m0)
      {
        RemoveStep(items, s, k, items[k], slot, live, c0, m0);
        k := k + 1;
      }
      assert items[..k] == items && s[..k] == s;
      forall i | i in items
        ensures i.Valid()
      {
        var j :| 0 <= j < |items| && items[j] == i;
      }
    }

    /**
     * How far RemoveItemsFromTree has got: the first k items have left
     * their trees and the rest are untouched.
     */
    ghost predicate Progress(items: seq<RmapItem>, s: seq<TreeLink>, k: nat, slot: MmSlot, live: set<StableNode>,
                             c0: TreeCounts, m0: map<StableNode, NodeState>)
      reads this, slot, m0.Keys`hlist, m0.Keys`rmapHlistLen, set i | i in items
    {
      && k <= |items| == |s|
      && RemovedAll(live, s[..k], c0, Counts(slot))
      && NodesAre(HookFold(m0, items[..k], s[..k], live))
      && (forall j :: 0 <= j < k ==> LinkOf(items[j]) == Unlinked(s[j], live) && items[j].Valid())
      && (forall j :: k <= j < |items| ==> LinkOf(items[j]) == s[j] && items[j].Valid())
    }

    /** One round of RemoveItemsFromTree: item k leaves its tree. */
    method RemoveStep(items: seq<RmapItem>, ghost s: seq<TreeLink>, k: nat, item: RmapItem, slot: MmSlot,
                      live: set<StableNode>, ghost c0: TreeCounts, ghost m0: map<StableNode, NodeState>)
      requires k < |items| && item == items[k] && Progress(items, s, k, slot, live, c0, m0)
      requires Distinct(items)
      requires item.mm == slot && (s[k].head != null ==> s[k].head in m0)
      modifies this`pagesShared, this`pagesSharing, this`pagesUnshared, slot`ksmMergingPages
      modifies item`flags, item`head, {item.head}`hlist, {item.head}`rmapHlistLen
      ensures Progress(items, s, k + 1, slot, live, c0, m0)
    {
      ghost var cb := Counts(slot);
      ghost var mb := HookFold(m0, items[..k], s[..k], live);
      ghost var hd := item.head;
      ghost var nb := NodeOf(hd);
      DistinctAt(items, k);
      label Before:
      RemoveRmapItemFromTree(item, live, mb);
      forall j | 0 <= j < |items| && j != k
        ensures LinkOf(items[j]) == old@Before(LinkOf(items[j])) && items[j].Valid()
      {
        assert items[j] != item;
      }
      RemovedAllStep(item, live, s, k, c0, cb, Counts(slot), nb, LinkOf(item), NodeOf(hd));
      assert items[..k + 1][..k] == items[..k] && s[..k + 1][..k] == s[..k];
    }

    /**
     * should_skip_rmap_item on an item of a page whose folio is or is not
     * already KSM: the item's fields and the skip counter follow SkipStep,
     * and a skipped item leaves its tree (`live` as for
     * RemoveRmapItemFromTree); an item not skipped keeps it.
     */
    method ShouldSkipRmapItem(item: RmapItem, folioIsKsm: bool, live: set<StableNode>) returns (skip: bool)
      requires item.mm != null && item.Valid()
      modifies this`pagesSkipped, item`age, item`remainingSkips
      modifies this`pagesShared, this`pagesSharing, this`pagesUnshared
      modifies item`flags, item`head, {item.head}`hlist, {item.head}`rmapHlistLen, item.mm`ksmMergingPages
      ensures
        var o := SkipStep(smartScan, folioIsKsm, old(item.age), old(item.remainingSkips));
        skip == o.skip && item.age == o.age && item.remainingSkips == o.remaining
      ensures pagesSkipped == old(pagesSkipped) + (if skip then 1 else 0)
      ensures skip ==> RemovedFromTree(item, live, old(Counts(item.mm)), old(LinkOf(item)), old(NodeOf(item.head)),
                                       Counts(item.mm), LinkOf(item), NodeOf(old(item.head)))
      ensures !skip ==> Counts(item.mm) == old(Counts(item.mm)) && LinkOf(item) == old(LinkOf(item)) &&
                        NodeOf(item.head) == old(NodeOf(item.head))
      ensures item.Valid()
    {
      if !smartScan {
        return false;
      }
      if folioIsKsm {
        return false;
      }
      var age := item.age;
      if age != U8_MAX {
        item.age := item.age + 1;
      }
      if age < 3 {
        return false;
      }
      if item.remainingSkips == 0 {
        item.remainingSkips := SkipAge(age);
        return false;
      }
      pagesSkipped := pagesSkipped + 1;
      item.remainingSkips := item.remainingSkips - 1;
      RemoveRmapItemFromTree(item, live, map[]);
      return true;
    }

    /**
     * get_next_rmap_item with the cursor at `pos` of slot's list: each item
     * passed before page addr is unlinked (`removed`), leaves its tree and
     * is freed; then the item of page addr is returned, or a new item of
     * page addr is allocated in their place (none when allocation fails).
     * s are the links of slot's items, c0 the counters and m0 the nodes
     * the items reach. The source unlinks and removes each item in turn;
     * here the walk finds the run first, the run leaves its trees and is
     * then unlinked at once, which ends the same since the list and the
     * trees are apart.
     */
    method GetNextRmapItem(slot: MmSlot, pos: nat, addr: nat, allocOk: bool, live: set<StableNode>,
                           ghost s: seq<TreeLink>, ghost c0: TreeCounts, ghost m0: map<StableNode, NodeState>)
      returns (r: RmapItem?, ghost removed: seq<RmapItem>)
      requires slot.Valid() && pos <= |slot.rmapList| && addr % PAGE_SIZE == 0
      requires Links(slot.rmapList) == s && Counts(slot) == c0 && Heads(slot.rmapList) <= m0.Keys && NodesAre(m0)
      modifies slot, this`pagesShared, this`pagesSharing, this`pagesUnshared, this`rmapItems
      modifies slot.rmapList`flags, slot.rmapList`head, m0.Keys`hlist, m0.Keys`rmapHlistLen
      ensures slot.Valid()
      ensures pos + |removed| <= |old(slot.rmapList)| && removed == old(slot.rmapList)[pos..pos + |removed|]
      ensures forall j :: pos <= j < pos + |removed| ==> old(slot.rmapList)[j].page < addr
      ensures RemovedAll(live, s[pos..pos + |removed|], c0, Counts(slot))
      ensures NodesAre(HookFold(m0, removed, s[pos..pos + |removed|], live))
      ensures pos + |removed| < |old(slot.rmapList)| && old(slot.rmapList)[pos + |removed|].page == addr ==>
                r == old(slot.rmapList)[pos + |removed|] && rmapItems == old(rmapItems) - |removed| &&
                slot.rmapList == old(slot.rmapList)[..pos] + old(slot.rmapList)[pos + |removed|..]
      ensures pos + |removed| < |old(slot.rmapList)| && old(slot.rmapList)[pos + |removed|].page != addr ==>
                old(slot.rmapList)[pos + |removed|].page > addr
      ensures !(pos + |removed| < |old(slot.rmapList)| && old(slot.rmapList)[pos + |removed|].page == addr) ==>
                if allocOk then
                  r != null && fresh(r) && r.Address() == addr && r.age == 0 && r.remainingSkips == 0 &&
                  r.head == null && rmapItems == old(rmapItems) - |removed| + 1 &&
                  slot.rmapList == old(slot.rmapList)[..pos] + [r] + old(slot.rmapList)[pos + |removed|..]
                else
                  r == null && rmapItems == old(rmapItems) - |removed| &&
                  slot.rmapList == old(slot.rmapList)[..pos] + old(slot.rmapList)[pos + |removed|..]
    {
      ghost var l0 := slot.rmapList;
      var found, n := slot.PassedRun(pos, addr);
      removed := RemoveRun(slot, pos, n, live, s, c0, m0);
      r := TakeOrAllocate(slot, pos, addr, found, allocOk, Counts(slot), HookFold(m0, removed, s[pos..pos + |removed|], live));
      if !found && allocOk {
        SpliceInsert(l0, pos, pos + n, r);
      }
    }

    /**
     * The end of get_next_rmap_item, once the passed items are gone: the
     * item at the cursor when it is of page addr (`found`), else a new
     * item of page addr linked at the cursor, or none when allocation
     * fails.
     */
    method TakeOrAllocate(slot: MmSlot, pos: nat, addr: nat, found: bool, allocOk: bool,
                          ghost c: TreeCounts, ghost m: map<StableNode, NodeState>) returns (r: RmapItem?)
      requires slot.Valid() && pos <= |slot.rmapList| && addr % PAGE_SIZE == 0
      requires found ==> pos < |slot.rmapList| && slot.rmapList[pos].page == addr
      requires Counts(slot) == c && NodesAre(m)
      modifies slot, this`rmapItems
      ensures slot.Valid() && Counts(slot) == c && NodesAre(m)
      ensures found ==> r == old(slot.rmapList)[pos] && rmapItems == old(rmapItems) && slot.rmapList == old(slot.rmapList)
      ensures !found && allocOk ==>
                r != null && fresh(r) && r.Address() == addr && r.age == 0 && r.remainingSkips == 0 &&
                r.head == null && rmapItems == old(rmapItems) + 1 &&
                slot.rmapList == old(slot.rmapList)[..pos] + [r] + old(slot.rmapList)[pos..]
      ensures !found && !allocOk ==> r == null && rmapItems == old(rmapItems) && slot.rmapList == old(slot.rmapList)
    {
      if found {
        r := slot.rmapList[pos];
      } else if allocOk {
        r := slot.InsertNew(pos, addr);
        rmapItems := rmapItems + 1;
      } else {
        r := null;
      }
    }

    /**
     * The n items from the cursor at `pos` of slot's list leave their
     * trees and are freed, each as by remove_rmap_item_from_tree followed
     * by free_rmap_item; s, c0 and m0 are as for GetNextRmapItem.
     */
    method RemoveRun(slot: MmSlot, pos: nat, n: nat, live: set<StableNode>,
                     ghost s: seq<TreeLink>, ghost c0: TreeCounts, ghost m0: map<StableNode, NodeState>)
      returns (ghost removed: seq<RmapItem>)
      requires slot.Valid() && pos + n <= |slot.rmapList|
      requires Links(slot.rmapList) == s && Counts(slot) == c0 && Heads(slot.rmapList) <= m0.Keys && NodesAre(m0)
      modifies slot, this`pagesShared, this`pagesSharing, this`pagesUnshared, this`rmapItems
      modifies slot.rmapList`flags, slot.rmapList`head, m0.Keys`hlist, m0.Keys`rmapHlistLen
      ensures slot.Valid() && |removed| == n && removed == old(slot.rmapList)[pos..pos + n]
      ensures slot.rmapList == old(slot.rmapList)[..pos] + old(slot.rmapList)[pos + n..]
      ensures RemovedAll(live, s[pos..pos + |removed|], c0, Counts(slot))
      ensures NodesAre(HookFold(m0, removed, s[pos..pos + |removed|], live))
      ensures rmapItems == old(rmapItems) - n
    {
      ghost var l0 := slot.rmapList;
      var gone := slot.rmapList[pos..pos + n];
      removed := gone;
      SliceOf(l0, pos, pos + n);
      assert |gone| == n;
      LeaveTrees(slot, l0, pos, gone, live, s[pos..pos + |gone|], c0, m0);
      FreeRun(slot, pos, n, Counts(slot), HookFold(m0, gone, s[pos..pos + |gone|], live));
    }

    /**
     * remove_trailing_rmap_items: every item from the cursor onward leaves
     * its tree and is freed; s, c0 and m0 are as for GetNextRmapItem.
     */
    method RemoveTrailingRmapItems(slot: MmSlot, pos: nat, live: set<StableNode>,
                                   ghost s: seq<TreeLink>, ghost c0: TreeCounts, ghost m0: map<StableNode, NodeState>)
      returns (ghost removed: seq<RmapItem>)
      requires slot.Valid() && pos <= |slot.rmapList|
      requires Links(slot.rmapList) == s && Counts(slot) == c0 && Heads(slot.rmapList) <= m0.Keys && NodesAre(m0)
      modifies slot, this`pagesShared, this`pagesSharing, this`pagesUnshared, this`rmapItems
      modifies slot.rmapList`flags, slot.rmapList`head, m0.Keys`hlist, m0.Keys`rmapHlistLen
      ensures slot.Valid() && slot.rmapList == old(slot.rmapList)[..pos] && removed == old(slot.rmapList)[pos..]
      ensures old(slot.Sorted()) ==> slot.Sorted()
      ensures RemovedAll(live, s[pos..], c0, Counts(slot))
      ensures NodesAre(HookFold(m0, removed, s[pos..], live))
      ensures rmapItems == old(rmapItems) - |removed|
    {
      ghost var l0 := slot.rmapList;
      var gone := slot.rmapList[pos..];
      removed := gone;
      SliceOf(l0, pos, |l0|);
      assert gone == l0[pos..|l0|];
      LeaveTrees(slot, l0, pos, gone, live, s[pos..], c0, m0);
      FreeRun(slot, pos, |gone|, Counts(slot), HookFold(m0, gone, s[pos..], live));
    }

    /**
     * free_rmap_item on a run of n items from the cursor, which have left
     * their trees: they are unlinked, and both the mm's and the global
     * count of items drop by n.
     */
    method FreeRun(slot: MmSlot, pos: nat, n: nat, ghost c: TreeCounts, ghost m: map<StableNode, NodeState>)
      requires slot.Valid() && pos + n <= |slot.rmapList|
      requires Counts(slot) == c && NodesAre(m)
      modifies slot`rmapList, slot`ksmRmapItems, this`rmapItems
      ensures Counts(slot) == c && NodesAre(m)
      ensures slot.Valid() && slot.rmapList == old(slot.rmapList)[..pos] + old(slot.rmapList)[pos + n..]
      ensures old(slot.Sorted()) ==> slot.Sorted()
      ensures rmapItems == old(rmapItems) - n
    {
      slot.Unlink(pos, n);
      rmapItems := rmapItems - n;
    }

    /**
     * The tree half of the two freeing loops: the unlinked items `gone`,
     * whose links are s, leave their trees; c0 are the counters and m0
     * holds the nodes they reach.
     */
    method LeaveTrees(slot: MmSlot, ghost l0: seq<RmapItem>, ghost pos: nat, gone: seq<RmapItem>, live: set<StableNode>,
                      ghost s: seq<TreeLink>, ghost c0: TreeCounts, ghost m0: map<StableNode, NodeState>)
      requires slot.Valid() && Links(gone) == s && Heads(gone) <= m0.Keys && NodesAre(m0) && Counts(slot) == c0
      requires pos + |gone| <= |l0| && gone == l0[pos..pos + |gone|]
      requires OwnedBy(l0, slot)
      requires Distinct(l0)
      modifies this`pagesShared, this`pagesSharing, this`pagesUnshared, slot`ksmMergingPages
      modifies gone`flags, gone`head, m0.Keys`hlist, m0.Keys`rmapHlistLen
      ensures slot.Valid()
      ensures RemovedAll(live, s, c0, Counts(slot))
      ensures NodesAre(HookFold(m0, gone, s, live))
    {
      GoneItems(l0, pos, gone, slot);
      LinksAt(gone);
      RemoveItemsFromTree(gone, slot, live, s, c0, m0);
      forall i | 0 <= i < |slot.rmapList|
        ensures slot.rmapList[i].Valid()
      {
        if slot.rmapList[i] !in gone {
          assert old(slot.rmapList[i].Valid());
        }
      }
    }

    /**
     * stable_tree_append: links the item at the head of the node's hlist,
     * marks it stable, and counts the node's first item as shared and each
     * later one as sharing. Appending to a sharing candidate (offset 0)
     * never exceeds max_page_sharing.
     */
    method StableTreeAppend(item: RmapItem, node: StableNode, bypass: bool) returns (warned: bool)
      requires node.rmapHlistLen >= 0 && item.mm != null && item.Valid()
      modifies this`pagesShared, this`pagesSharing, item`head, item`flags, node, item.mm`ksmMergingPages
      ensures node.rmapHlistLen == old(node.rmapHlistLen) + 1
      ensures warned <==> !bypass && node.rmapHlistLen > maxPageSharing
      ensures !bypass && old(IsPageSharingCandidate(node.rmapHlistLen, 0, maxPageSharing)) ==> !warned
      ensures item.head == node && item.flags == SetStable(old(item.flags)) && item.Valid()
      ensures node.hlist == [item] + old(node.hlist)
      ensures old(node.hlist) == [] ==> pagesShared == old(pagesShared) + 1 && pagesSharing == old(pagesSharing)
      ensures old(node.hlist) != [] ==> pagesSharing == old(pagesSharing) + 1 && pagesShared == old(pagesShared)
      ensures item.mm.ksmMergingPages == old(item.mm.ksmMergingPages) + 1
    {
      node.rmapHlistLen := node.rmapHlistLen + 1;
      warned := !bypass && node.rmapHlistLen > maxPageSharing;
      item.head := node;
      item.flags := SetStable(item.flags);
      var hadNext := node.hlist != [];
      node.hlist := [item] + node.hlist;
      if hadNext {
        pagesSharing := pagesSharing + 1;
      } else {
        pagesShared := pagesShared + 1;
      }
      item.mm.ksmMergingPages := item.mm.ksmMergingPages + 1;
    }

    /**
     * run_store given kstrtouint's result; `unmergeErr` is what
     * unmerge_and_remove_all_rmap_items would return (0 or -errno).
     */
    method RunStore(parsed: Option<u32>, count: nat, unmergeErr: int) returns (ret: int)
      requires Valid() && unmergeErr <= 0
      modifies this`run
      ensures Valid()
      ensures parsed.None? || parsed.value > KSM_RUN_UNMERGE ==> ret == -EINVAL && run == old(run)
      ensures parsed.Some? && parsed.value <= KSM_RUN_UNMERGE ==>
                if parsed.value != old(run) && parsed.value == KSM_RUN_UNMERGE && unmergeErr != 0
                then run == KSM_RUN_STOP && ret == unmergeErr
                else run == parsed.value && ret == count
    {
      if parsed.None? {
        return -EINVAL;
      }
      var flags := parsed.value;
      if flags > KSM_RUN_UNMERGE {
        return -EINVAL;
      }
      ret := count;
      if run != flags {
        run := flags;
        if flags == KSM_RUN_UNMERGE {
          if unmergeErr != 0 {
            run := KSM_RUN_STOP;
            ret := unmergeErr;
          }
        }
      }
    }

    /** pages_to_scan_store: refused while an advisor drives the rate. */
    method PagesToScanStore(parsed: Option<u32>, count: nat) returns (ret: int)
      modifies this`pagesToScan
      ensures advisor != AdvisorNone || parsed.None? ==> ret == -EINVAL && pagesToScan == old(pagesToScan)
      ensures advisor == AdvisorNone && parsed.Some? ==> ret == count && pagesToScan == parsed.value
    {
      if advisor != AdvisorNone {
        return -EINVAL;
      }
      if parsed.None? {
        return -EINVAL;
      }
      pagesToScan := parsed.value;
      return count;
    }

    /**
     * max_page_sharing_store given kstrtoint's result (an error is passed
     * through); `removeFails` is whether remove_all_stable_nodes fails.
     */
    method MaxPageSharingStore(parsed: Result<int>, count: nat, removeFails: bool) returns (ret: int)
      requires Valid() && (parsed.Err? ==> parsed.code < 0)
      modifies this`maxPageSharing
      ensures Valid()
      ensures parsed.Err? ==> ret == parsed.code && maxPageSharing == old(maxPageSharing)
      ensures parsed.Ok? && parsed.value < 2 ==> ret == -EINVAL && maxPageSharing == old(maxPageSharing)
      ensures parsed.Ok? && parsed.value >= 2 ==>
                if parsed.value == old(maxPageSharing) then ret == count && maxPageSharing == old(maxPageSharing)
                else if pagesShared != 0 || removeFails then ret == -EBUSY && maxPageSharing == old(maxPageSharing)
                else ret == count && maxPageSharing == parsed.value
    {
      if parsed.Err? {
        return parsed.code;
      }
      var knob := parsed.value;
      if knob < 2 {
        return -EINVAL;
      }
      if maxPageSharing == knob {
        return count;
      }
      if pagesShared != 0 || removeFails {
        return -EBUSY;
      }
      maxPageSharing := knob;
      return count;
    }

    /** advisor_target_scan_time_store: the target must be at least 1 second. */
    method TargetScanTimeStore(parsed: Option<u64>, count: nat) returns (ret: int)
      requires Valid()
      modifies this`targetScanTime
      ensures Valid()
      ensures parsed.None? || parsed.value < 1 ==> ret == -EINVAL && targetScanTime == old(targetScanTime)
      ensures parsed.Some? && parsed.value >= 1 ==> ret == count && targetScanTime == parsed.value
    {
      if parsed.None? || parsed.value < 1 {
        return -EINVAL;
      }
      targetScanTime := parsed.value;
      return count;
    }

    /** pages_volatile_show: items neither shared, sharing nor unshared, never negative. */
    function PagesVolatile(): (v: nat)
      reads this
      ensures pagesShared + pagesSharing + pagesUnshared <= rmapItems ==>
                v + pagesShared + pagesSharing + pagesUnshared == rmapItems
      ensures rmapItems < pagesShared + pagesSharing + pagesUnshared ==> v == 0
    {
      var d := rmapItems - pagesShared - pagesSharing - pagesUnshared;
      if d < 0 then 0 else d
    }
  }
}
