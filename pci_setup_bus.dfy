// PCI bridge window sizing of drivers/pci/setup-bus.c: window size and
// alignment arithmetic, the alignment-sorted resource list, the release
// decision table, the bridge base/limit register encodings, carving
// available space and the root-bus retry loop. Config-space accesses are
// modelled as the values that would be written.

module PciSetupBus {
  import opened Wrappers
  import opened Ints

  /**
   * The resource flag bits this model distinguishes (IORESOURCE_IO,
   * IORESOURCE_MEM, IORESOURCE_PREFETCH and IORESOURCE_MEM_64 of
   * include/linux/ioport.h). A flags word is the set of its bits, so `|`
   * is union, `&` is intersection and `flags == 0` is the empty set.
   */
  datatype ResFlag = Io | Mem | Prefetch | Mem64
  type ResFlags = set<ResFlag>

  /** The types pci_fail_res_type_mask keeps: IO | MEM | PREFETCH. */
  const FAIL_TYPES: ResFlags := {Io, Mem, Prefetch}

  const SZ_1K: nat := 0x400
  const SZ_4K: nat := 0x1000
  const SZ_1M: nat := 0x10_0000

  // Class codes and command bits (include/uapi/linux/pci_regs.h).
  const PCI_CLASS_NOT_DEFINED: nat := 0x0000
  const PCI_CLASS_BRIDGE_HOST: nat := 0x0600
  const PCI_CLASS_SYSTEM_PIC: nat := 0x0800
  const PCI_COMMAND_IO: bv16 := 0x1
  const PCI_COMMAND_MEMORY: bv16 := 0x2

  // Low-byte masks of the I/O base/limit registers (PCI_IO_RANGE_MASK and
  // PCI_IO_1K_RANGE_MASK once truncated to the u8 register fields).
  const PCI_IO_RANGE_MASK: bv64 := 0xf0
  const PCI_IO_1K_RANGE_MASK: bv64 := 0xfc

  // ---------------------------------------------------------------------
  // Size and alignment arithmetic
  // ---------------------------------------------------------------------

  /**
   * ALIGN(x, a): x rounded up to a multiple of a. The kernel's mask formula
   * computes this for the power-of-two alignments used here.
   */
  function AlignUp(x: nat, a: nat): (r: nat)
    requires a >= 1
    ensures r % a == 0 && x <= r < x + a
  {
    var q := (x + a - 1) / a;
    assert x + a - 1 == q * a + (x + a - 1) % a;
    DivModUnique(q * a, a, q, 0);
    q * a
  }

  /** ALIGN_DOWN(x, a) when a is nonzero, x itself otherwise. */
  function AlignDownIfNonzero(x: nat, a: nat): (r: nat)
    ensures r <= x
    ensures a == 0 ==> r == x
    ensures a >= 1 ==> r % a == 0 && x < r + a
  {
    if a == 0 then x
    else
      var q := x / a;
      assert x == q * a + x % a;
      DivModUnique(q * a, a, q, 0);
      q * a
  }

  /**
   * calculate_memsize: at least min_size, at least the required and optional
   * sizes, at least the old size (1 meaning none), rounded up to align.
   */
  function CalculateMemsize(size: nat, minSize: nat, addSize: nat, childrenAddSize: nat,
                            oldSize: nat, align: nat): (r: nat)
    requires align >= 1
    ensures r % align == 0
    ensures r >= Max(size, minSize) + childrenAddSize && r >= addSize + childrenAddSize
    ensures oldSize != 1 ==> r >= oldSize
    ensures r < Max(Max(Max(size, minSize), addSize) + childrenAddSize, if oldSize == 1 then 0 else oldSize) + align
  {
    var size := if size < minSize then minSize else size;
    var oldSize := if oldSize == 1 then 0 else oldSize;
    var size := Max(size, addSize) + childrenAddSize;
    AlignUp(Max(size, oldSize), align)
  }

  /** calculate_iosize: calculate_memsize after adding size1 (no ISA alias fold). */
  function CalculateIosize(size: nat, minSize: nat, size1: nat, addSize: nat,
                           childrenAddSize: nat, oldSize: nat, align: nat): (r: nat)
    requires align >= 1
    ensures r % align == 0
    ensures r >= Max(size, minSize) + size1 + childrenAddSize && r >= addSize + childrenAddSize
    ensures oldSize != 1 ==> r >= oldSize
    ensures r < Max(Max(Max(size, minSize) + size1, addSize) + childrenAddSize, if oldSize == 1 then 0 else oldSize) + align
  {
    var size := if size < minSize then minSize else size;
    var oldSize := if oldSize == 1 then 0 else oldSize;
    var size := size + size1;
    var size := Max(size, addSize) + childrenAddSize;
    AlignUp(Max(size, oldSize), align)
  }

  /**
   * calculate_mem_align over aligns[0..max_order], where aligns[k] sums the
   * alignments of order k (1 MB << k): the result is 1 MB << k for some
   * k <= max_order.
   */
  method CalculateMemAlign(aligns: seq<nat>, maxOrder: nat) returns (minAlign: nat)
    requires maxOrder < |aligns|
    ensures exists k :: 0 <= k <= maxOrder && minAlign == SZ_1M * Pow2(k)
  {
    var align: nat := 0;
    minAlign := 0;
    ghost var k: nat := 0;
    var order: nat := 0;
    while order <= maxOrder
      invariant 0 <= order <= maxOrder + 1
      invariant order == 0 ==> minAlign == 0 && align == 0
      invariant order > 0 ==> k < order && minAlign == SZ_1M * Pow2(k)
    {
      var align1 := SZ_1M * Pow2(order);
      if align == 0 {
        minAlign := align1;
        k := order;
      } else if AlignUp(align + minAlign, minAlign) < align1 {
        minAlign := SZ_1M * Pow2(order - 1);
        k := order - 1;
      }
      align := align + aligns[order];
      order := order + 1;
    }
  }

  /**
   * window_alignment: 1 MB for memory windows, 1 KB or 4 KB for I/O windows
   * (1 KB when the bus's bridge supports it), 1 otherwise, then at least the
   * architecture's pcibios_window_alignment (whose weak default is 1).
   */
  function WindowAlignment(windowType: ResFlags, bridgeIo1k: bool, archAlign: nat): (r: nat)
    ensures Mem in windowType ==> r == Max(SZ_1M, archAlign)
    ensures Mem !in windowType && Io in windowType ==>
              r == Max(if bridgeIo1k then SZ_1K else SZ_4K, archAlign)
    ensures Mem !in windowType && Io !in windowType ==> r == Max(1, archAlign)
    ensures r >= 1 && r >= archAlign
  {
    var align :=
      if Mem in windowType then SZ_1M
      else if Io in windowType then (if bridgeIo1k then SZ_1K else SZ_4K)
      else 1;
    Max(align, archAlign)
  }

  // ---------------------------------------------------------------------
  // Alignment-sorted resource list
  // ---------------------------------------------------------------------

  /** A device resource as pdev_sort_resources sees it. */
  datatype Resource = Resource(id: nat, flags: ResFlags, fixed: bool, hasParent: bool, align: nat, size: nat)

  /** A pci_dev_resource tracker on the list. */
  datatype Tracker = Tracker(res: nat, align: nat, addSize: nat, minAlign: nat)

  /** pdev_resources_assignable: classless devices, host bridges and enabled IOAPICs are left alone. */
  function ResourcesAssignable(devClass: u16, command: bv16): (ok: bool)
    ensures devClass == PCI_CLASS_NOT_DEFINED || devClass == PCI_CLASS_BRIDGE_HOST ==> !ok
    ensures devClass == PCI_CLASS_SYSTEM_PIC ==> (ok <==> command & (PCI_COMMAND_IO | PCI_COMMAND_MEMORY) == 0)
    ensures (devClass != PCI_CLASS_NOT_DEFINED && devClass != PCI_CLASS_BRIDGE_HOST &&
             devClass != PCI_CLASS_SYSTEM_PIC) ==> ok
  {
    if devClass == PCI_CLASS_NOT_DEFINED || devClass == PCI_CLASS_BRIDGE_HOST then false
    else if devClass == PCI_CLASS_SYSTEM_PIC && command & (PCI_COMMAND_IO | PCI_COMMAND_MEMORY) != 0 then false
    else true
  }

  /** Whether pdev_sort_resources tracks a resource at all. */
  predicate Sortable(r: Resource)
  {
    !r.fixed && r.flags != {} && !r.hasParent && r.align != 0
  }

  /** Non-increasing alignment. */
  predicate AlignSorted(l: seq<Tracker>)
  {
    forall i, j :: 0 <= i < j < |l| ==> l[i].align >= l[j].align
  }

  /** The index of the first tracker with strictly smaller alignment than `align`, or |l|. */
  function InsertPoint(l: seq<Tracker>, align: nat): (k: nat)
    ensures k <= |l|
    ensures forall i :: 0 <= i < k ==> l[i].align >= align
    ensures k < |l| ==> l[k].align < align
    decreases |l|
  {
    if |l| == 0 || l[0].align < align then 0 else 1 + InsertPoint(l[1..], align)
  }

  /** list_add_tail before the first smaller entry: ties keep arrival order. */
  function InsertByAlign(l: seq<Tracker>, t: Tracker): (r: seq<Tracker>)
  {
    var k := InsertPoint(l, t.align);
    l[..k] + [t] + l[k..]
  }

  lemma InsertByAlignElems(l: seq<Tracker>, t: Tracker)
    ensures multiset(InsertByAlign(l, t)) == multiset(l) + multiset{t}
  {
    var k := InsertPoint(l, t.align);
    assert l == l[..k] + l[k..];
  }

  lemma InsertByAlignSorted(l: seq<Tracker>, t: Tracker)
    requires AlignSorted(l)
    ensures AlignSorted(InsertByAlign(l, t))
  {
    var k := InsertPoint(l, t.align);
    var m := InsertByAlign(l, t);
    forall i, j | 0 <= i < j < |m|
      ensures m[i].align >= m[j].align
    {
      if j < k {
        assert m[i] == l[i] && m[j] == l[j];
      } else if j == k {
        assert m[i] == l[i];
      } else if i < k {
        assert m[i] == l[i] && m[j] == l[j - 1];
      } else if i == k {
        assert m[j] == l[j - 1];
        assert l[k].align < t.align;
        if j - 1 > k { assert l[k].align >= l[j - 1].align; }
      } else {
        assert m[i] == l[i - 1] && m[j] == l[j - 1];
      }
    }
  }

  /** The result of pdev_sort_resources adding a device's resources to `head`. */
  function SortResources(head: seq<Tracker>, res: seq<Resource>): seq<Tracker>
    decreases |res|
  {
    if |res| == 0 then head
    else
      var r := res[0];
      var head' := if Sortable(r) then InsertByAlign(head, Tracker(r.id, r.align, 0, 0)) else head;
      SortResources(head', res[1..])
  }

  /** The trackers a device contributes. */
  function Tracked(res: seq<Resource>): seq<Tracker>
    decreases |res|
  {
    if |res| == 0 then []
    else (if Sortable(res[0]) then [Tracker(res[0].id, res[0].align, 0, 0)] else []) + Tracked(res[1..])
  }

  /** Sorting keeps the list in alignment order and adds exactly the sortable resources. */
  lemma {:induction false} SortResourcesSpec(head: seq<Tracker>, res: seq<Resource>)
    requires AlignSorted(head)
    ensures AlignSorted(SortResources(head, res))
    ensures multiset(SortResources(head, res)) == multiset(head) + multiset(Tracked(res))
    decreases |res|
  {
    if |res| > 0 {
      var r := res[0];
      var t := Tracker(r.id, r.align, 0, 0);
      var head' := if Sortable(r) then InsertByAlign(head, t) else head;
      if Sortable(r) {
        InsertByAlignSorted(head, t);
        InsertByAlignElems(head, t);
      }
      SortResourcesSpec(head', res[1..]);
    }
  }

  /** A device's resource list being built by pdev_sort_resources. */
  class ResourceList {
    var head: seq<Tracker>

    constructor()
      ensures head == []
    {
      head := [];
    }

    /**
     * pdev_sort_resources: each tracked resource is inserted just before
     * the first entry of strictly smaller alignment.
     */
    method PdevSortResources(devClass: u16, command: bv16, res: seq<Resource>)
      modifies this
      ensures ResourcesAssignable(devClass, command) ==> head == SortResources(old(head), res)
      ensures !ResourcesAssignable(devClass, command) ==> head == old(head)
      ensures old(AlignSorted(head)) ==> AlignSorted(head)
    {
      if !ResourcesAssignable(devClass, command) {
        return;
      }
      var cur := head;
      var i := 0;
      while i < |res|
        invariant 0 <= i <= |res|
        invariant SortResources(old(head), res) == SortResources(cur, res[i..])
        invariant old(AlignSorted(head)) ==> AlignSorted(cur)
      {
        var r := res[i];
        assert res[i..][0] == r && res[i..][1..] == res[i + 1..];
        if r.fixed || r.flags == {} || r.hasParent || r.align == 0 {
          i := i + 1;
          continue;
        }
        var t := Tracker(r.id, r.align, 0, 0);
        var n := 0;
        while n < |cur| && !(r.align > cur[n].align)
          invariant 0 <= n <= |cur|
          invariant forall m :: 0 <= m < n ==> cur[m].align >= r.align
          invariant InsertPoint(cur, r.align) >= n
        {
          InsertPointStep(cur, r.align, n);
          n := n + 1;
        }
        InsertPointAt(cur, r.align, n);
        if AlignSorted(cur) {
          InsertByAlignSorted(cur, t);
        }
        cur := cur[..n] + [t] + cur[n..];
        i := i + 1;
      }
      assert res[i..] == [];
      head := cur;
    }
  }

  lemma InsertPointStep(l: seq<Tracker>, align: nat, n: nat)
    requires n < |l| && l[n].align >= align && InsertPoint(l, align) >= n
    ensures InsertPoint(l, align) >= n + 1
  {
  }

  lemma InsertPointAt(l: seq<Tracker>, align: nat, n: nat)
    requires n <= |l| && InsertPoint(l, align) >= n
    requires n == |l| || l[n].align < align
    ensures InsertPoint(l, align) == n
  {
  }

  /** res_to_dev_res: the first tracker of this resource, if any. */
  method ResToDevRes(head: seq<Tracker>, res: nat) returns (k: Option<nat>)
    ensures k.None? <==> forall i :: 0 <= i < |head| ==> head[i].res != res
    ensures k.Some? ==> k.value < |head| && head[k.value].res == res &&
                        forall i :: 0 <= i < k.value ==> head[i].res != res
  {
    var i := 0;
    while i < |head|
      invariant 0 <= i <= |head|
      invariant forall j :: 0 <= j < i ==> head[j].res != res
    {
      if head[i].res == res {
        return Some(i);
      }
      i := i + 1;
    }
    return None;
  }

  /** get_res_add_size: the tracked add_size, 0 for an untracked resource. */
  method GetResAddSize(head: seq<Tracker>, res: nat) returns (size: nat)
    ensures (forall i :: 0 <= i < |head| ==> head[i].res != res) ==> size == 0
    ensures forall i :: (0 <= i < |head| && head[i].res == res &&
                         (forall j :: 0 <= j < i ==> head[j].res != res)) ==> size == head[i].addSize
  {
    var k := ResToDevRes(head, res);
    size := if k.Some? then head[k.value].addSize else 0;
  }

  /** get_res_add_align: the tracked min_align, 0 for an untracked resource. */
  method GetResAddAlign(head: seq<Tracker>, res: nat) returns (align: nat)
    ensures (forall i :: 0 <= i < |head| ==> head[i].res != res) ==> align == 0
    ensures forall i :: (0 <= i < |head| && head[i].res == res &&
                         (forall j :: 0 <= j < i ==> head[j].res != res)) ==> align == head[i].minAlign
  {
    var k := ResToDevRes(head, res);
    align := if k.Some? then head[k.value].minAlign else 0;
  }

  // ---------------------------------------------------------------------
  // Release decisions
  // ---------------------------------------------------------------------

  /** The OR of every failed resource's flags. */
  function OrAll(flags: seq<ResFlags>): ResFlags
    decreases |flags|
  {
    if |flags| == 0 then {} else OrAll(flags[..|flags| - 1]) + flags[|flags| - 1]
  }

  /** Whether some failed resource has flag `f`. */
  predicate AnyHas(flags: seq<ResFlags>, f: ResFlag)
  {
    exists i :: 0 <= i < |flags| && f in flags[i]
  }

  lemma {:induction false} OrAllHas(flags: seq<ResFlags>, f: ResFlag)
    ensures f in OrAll(flags) <==> AnyHas(flags, f)
    decreases |flags|
  {
    if |flags| > 0 {
      var init := flags[..|flags| - 1];
      OrAllHas(init, f);
      if AnyHas(init, f) {
        var i :| 0 <= i < |init| && f in init[i];
        assert flags[i] == init[i];
      }
      if AnyHas(flags, f) && f !in flags[|flags| - 1] {
        var i :| 0 <= i < |flags| && f in flags[i];
        assert i < |init| && init[i] == flags[i];
      }
    }
  }

  /** pci_fail_res_type_mask: the IO, MEM and PREFETCH bits of any failed resource. */
  method FailResTypeMask(failFlags: seq<ResFlags>) returns (mask: ResFlags)
    ensures mask == OrAll(failFlags) * FAIL_TYPES
  {
    var acc: ResFlags := {};
    var i := 0;
    while i < |failFlags|
      invariant 0 <= i <= |failFlags|
      invariant acc == OrAll(failFlags[..i])
    {
      assert failFlags[..i + 1][..i] == failFlags[..i];
      acc := acc + failFlags[i];
      i := i + 1;
    }
    assert failFlags[..i] == failFlags;
    mask := acc * FAIL_TYPES;
  }

  /** The mask holds exactly the failed types, and nothing else. */
  lemma FailMaskHas(failFlags: seq<ResFlags>, f: ResFlag)
    ensures f in OrAll(failFlags) * FAIL_TYPES <==> f in FAIL_TYPES && AnyHas(failFlags, f)
  {
    OrAllHas(failFlags, f);
  }

  /**
   * pci_need_to_release: IO resources go when IO failed; prefetchable ones
   * when PREFETCH failed, or MEM failed and the parent is not
   * prefetchable; plain memory when MEM failed.
   */
  function NeedToRelease(mask: ResFlags, resFlags: ResFlags, parentFlags: ResFlags): (release: bool)
    ensures Io in resFlags ==> (release <==> Io in mask)
    ensures Io !in resFlags && Prefetch in resFlags ==>
              (release <==> Prefetch in mask || (Mem in mask && Prefetch !in parentFlags))
    ensures Io !in resFlags && Prefetch !in resFlags && Mem in resFlags ==> (release <==> Mem in mask)
    ensures Io !in resFlags && Prefetch !in resFlags && Mem !in resFlags ==> !release
  {
    if Io in resFlags then Io in mask
    else if Prefetch in resFlags then
      if Prefetch in mask then true
      else if Mem in mask && Prefetch !in parentFlags then true
      else false
    else if Mem in resFlags then Mem in mask
    else false
  }

  /** An I/O resource is released iff some failed resource was an I/O resource. */
  lemma IoReleasedIffIoFailed(failFlags: seq<ResFlags>, resFlags: ResFlags, parentFlags: ResFlags)
    requires Io in resFlags
    ensures NeedToRelease(OrAll(failFlags) * FAIL_TYPES, resFlags, parentFlags) <==>
            AnyHas(failFlags, Io)
  {
    FailMaskHas(failFlags, Io);
  }

  /**
   * A plain (non-prefetchable) memory resource is released iff some failed
   * resource was a memory resource.
   */
  lemma MemReleasedIffMemFailed(failFlags: seq<ResFlags>, resFlags: ResFlags, parentFlags: ResFlags)
    requires Io !in resFlags && Prefetch !in resFlags && Mem in resFlags
    ensures NeedToRelease(OrAll(failFlags) * FAIL_TYPES, resFlags, parentFlags) <==>
            AnyHas(failFlags, Mem)
  {
    FailMaskHas(failFlags, Mem);
  }

  // ---------------------------------------------------------------------
  // Bridge base/limit registers
  // ---------------------------------------------------------------------

  /** The PCI_IO_BASE word and PCI_IO_BASE_UPPER16 dword pci_setup_bridge_io writes last. */
  datatype IoRegs = IoRegs(baseLimit: bv16, upper16: bv32)

  function IoWindowRegs(enabled: bool, io1k: bool, start: bv64, end: bv64): (r: IoRegs)
    ensures !enabled ==> r == IoRegs(0x00f0, 0)
  {
    if enabled then
      var mask := if io1k then PCI_IO_1K_RANGE_MASK else PCI_IO_RANGE_MASK;
      var baseLo := ((start >> 8) & mask) as bv16;
      var limitLo := ((end >> 8) & mask) as bv16;
      IoRegs((limitLo << 8) | baseLo, (((end & 0xffff_0000) | (start >> 16)) & 0xffff_ffff) as bv32)
    else IoRegs(0x00f0, 0)
  }

  /** The window base a bridge decodes from its I/O registers. */
  function IoBase(r: IoRegs, io1k: bool): bv64
  {
    var mask: bv16 := if io1k then 0xfc else 0xf0;
    ((r.upper16 & 0xffff) as bv64 << 16) | (((r.baseLimit & mask) as bv64) << 8)
  }

  /** The window limit a bridge decodes from its I/O registers. */
  function IoLimit(r: IoRegs, io1k: bool): bv64
  {
    var mask: bv16 := if io1k then 0xfc else 0xf0;
    var low: bv64 := if io1k then 0x3ff else 0xfff;
    ((r.upper16 >> 16) as bv64 << 16) | ((((r.baseLimit >> 8) & mask) as bv64) << 8) | low
  }

  /** An I/O window aligned to the bridge's granularity within 32 bits is decoded back exactly. */
  lemma IoWindowRoundTrip(io1k: bool, start: bv64, end: bv64)
    requires end < 0x1_0000_0000 && start <= end
    requires if io1k then start & 0x3ff == 0 && end & 0x3ff == 0x3ff else start & 0xfff == 0 && end & 0xfff == 0xfff
    ensures IoBase(IoWindowRegs(true, io1k, start, end), io1k) == start
    ensures IoLimit(IoWindowRegs(true, io1k, start, end), io1k) == end
  {
  }

  /** A disabled I/O window decodes to base 0xf000 above limit 0x0fff. */
  lemma IoWindowDisabled(io1k: bool)
    ensures IoBase(IoWindowRegs(false, io1k, 0, 0), false) > IoLimit(IoWindowRegs(false, io1k, 0, 0), false)
  {
  }

  /** The PCI_MEMORY_BASE dword of pci_setup_bridge_mmio. */
  function MmioWindowReg(enabled: bool, start: bv64, end: bv64): (l: bv32)
    ensures !enabled ==> l == 0x0000_fff0
  {
    if enabled then ((((start >> 16) & 0xfff0) | (end & 0xfff0_0000)) & 0xffff_ffff) as bv32
    else 0x0000_fff0
  }

  function MmioBase(l: bv32): bv64 { ((l & 0xfff0) as bv64) << 16 }
  function MmioLimit(l: bv32): bv64 { ((l & 0xfff0_0000) as bv64) | 0xf_ffff }

  /** A 1 MB aligned memory window below 4 GB is decoded back exactly; a disabled one has base above limit. */
  lemma MmioWindowRoundTrip(start: bv64, end: bv64)
    requires end < 0x1_0000_0000 && start <= end
    requires start & 0xf_ffff == 0 && end & 0xf_ffff == 0xf_ffff
    ensures MmioBase(MmioWindowReg(true, start, end)) == start
    ensures MmioLimit(MmioWindowReg(true, start, end)) == end
    ensures MmioBase(MmioWindowReg(false, start, end)) > MmioLimit(MmioWindowReg(false, start, end))
  {
  }

  // ---------------------------------------------------------------------
  // Available space
  // ---------------------------------------------------------------------

  /** A bridge window's available space [start, end] being carved up. */
  class AvailWindow {
    var start: nat
    var end: nat

    ghost predicate Valid()
      reads this
    {
      start <= end + 1
    }

    constructor(s: nat, e: nat)
      requires s <= e + 1
      ensures Valid() && start == s && end == e
    {
      start := s;
      end := e;
    }

    /**
     * remove_dev_resource for a resource of `size` bytes and alignment
     * `align` (pci_resource_alignment): start moves past the alignment
     * padding and the resource, but never past end + 1.
     */
    method RemoveDevResource(size: nat, align: nat)
      requires Valid()
      modifies this`start
      ensures Valid()
      ensures size == 0 ==> start == old(start)
      ensures size != 0 ==>
                start == Min(old(start) + (if align != 0 then AlignUp(old(start), align) - old(start) else 0) + size,
                             end + 1)
      ensures old(start) <= start <= end + 1
      ensures size != 0 && align != 0 && AlignUp(old(start), align) + size <= end + 1 ==>
                start == AlignUp(old(start), align) + size
    {
      if size == 0 {
        return;
      }
      var pad := if align != 0 then AlignUp(start, align) - start else 0;
      var tmp := pad + size;
      start := Min(start + tmp, end + 1);
    }
  }

  // ---------------------------------------------------------------------
  // Root-bus assignment rounds
  // ---------------------------------------------------------------------

  datatype EnableType = Undefined | UserDisabled | AutoDisabled | UserEnabled | AutoEnabled
  datatype ReleaseType = LeafOnly | WholeSubtree

  /** pci_realloc_enabled: enable >= user_enabled. */
  predicate ReallocEnabled(e: EnableType)
  {
    e == UserEnabled || e == AutoEnabled
  }

  /** The number of rounds pci_assign_unassigned_root_bus_resources may take. */
  function TryNum(e: EnableType, maxDepth: nat): (n: nat)
    ensures n >= 1
    ensures ReallocEnabled(e) ==> n == maxDepth + 1
    ensures !ReallocEnabled(e) ==> n == 1
  {
    if ReallocEnabled(e) then maxDepth + 1 else 1
  }

  /**
   * The retry loop of pci_assign_unassigned_root_bus_resources. Round i
   * (from 0) reports failures iff failed(i). Returns the rounds run, whether
   * each round used the realloc add_list, and the release type handed to
   * each pci_prepare_next_assign_round.
   */
  method AssignRootBusRounds(enableLocal: EnableType, maxDepth: nat, failed: nat -> bool)
    returns (rounds: nat, usedAddList: seq<bool>, released: seq<ReleaseType>)
    ensures 1 <= rounds <= TryNum(enableLocal, maxDepth)
    ensures forall i :: 0 <= i < rounds - 1 ==> failed(i)
    ensures rounds < TryNum(enableLocal, maxDepth) ==> !failed(rounds - 1)
    ensures |usedAddList| == rounds
    ensures forall i :: 0 <= i < rounds ==> (usedAddList[i] <==> i + 1 == TryNum(enableLocal, maxDepth))
    ensures |released| == rounds - 1
    ensures forall i :: 0 <= i < rounds - 1 ==> (released[i] == WholeSubtree <==> i >= 1)
  {
    var tryNum := if ReallocEnabled(enableLocal) then maxDepth + 1 else 1;
    var triedTimes := 0;
    var relType := LeafOnly;
    usedAddList := [];
    released := [];
    while true
      invariant 0 <= triedTimes < tryNum
      invariant forall i :: 0 <= i < triedTimes ==> failed(i)
      invariant |usedAddList| == triedTimes
      invariant forall i :: 0 <= i < triedTimes ==> (usedAddList[i] <==> i + 1 == tryNum)
      invariant |released| == triedTimes
      invariant forall i :: 0 <= i < triedTimes ==> (released[i] == WholeSubtree <==> i >= 1)
      invariant relType == WholeSubtree <==> triedTimes >= 2
      decreases tryNum - triedTimes
    {
      var addList := triedTimes + 1 == tryNum;
      usedAddList := usedAddList + [addList];
      var fails := failed(triedTimes);
      triedTimes := triedTimes + 1;
      if !fails {
        break;
      }
      if triedTimes >= tryNum {
        break;
      }
      if triedTimes + 1 > 2 {
        relType := WholeSubtree;
      }
      released := released + [relType];
    }
    rounds := triedTimes;
  }
}
