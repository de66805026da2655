# Verified models of fourteen Linux kernel components

This project models, in Dafny, the sequential logic of fourteen pieces of a Linux kernel tree. It proves properties of each model. One module corresponds to each source file:

| module | file | what is modelled |
|---|---|---|
| `VhostScsi` | `vhost_scsi.dfy` | vhost-scsi: request classification, in-flight epochs, the command-tag pool, the event queue, LUN encodings, task management |
| `Ksm` | `ksm.dfy` | KSM: scan-time advisor, smart-scan skipping, sharing-candidate test, stable-node append, sorted rmap list, sysfs knobs |
| `PciSetupBus` | `pci_setup_bus.dfy` | PCI bridge windows: size and alignment arithmetic, alignment-sorted lists, release decisions, base/limit encoding, window carving |
| `IavfH`, `IavfVirtchnl` | `iavf_h.dfy`, `iavf_virtchnl.dfy` | iavf VF: MAC, VLAN and flow-director filter lists, batching, promiscuous mode, queue and version checks, adapter state |
| `Einj` | `einj.dfy` | APEI EINJ: table and error-type validation, the 128-bit hex component format, parameter checks, the busy-wait budget |
| `Rt712` | `rt712.dfy` | rt712 SDCA codec: register addressing, gain and mute controls, jack and button decoding, stream parameters |
| `GpioDavinci` | `gpio_davinci.dfy` | DaVinci GPIO: bank and mask arithmetic, direction/get/set, the banked interrupt handler, suspend context |
| `Hmm` | `hmm.dfy` | atomisp hmm: page-split store, load and set over a buffer object's pages, address checks, allocation unwinding |
| `SysfsFile` | `sysfs_file.dfy` | sysfs: read/write clamping, show-buffer handling, operation-table selection, `sysfs_create_files`, `sysfs_emit_at` |
| `Uaccess` | `uaccess.dfy` | `copy_from_user` tail zeroing, `copy_struct_from_user`/`copy_struct_to_user`, the pagefault-disable counter |
| `Printk` | `printk.dfy` | printk level headers |
| `PerfExpr` | `perf_expr.dfy` | perf metric expressions: the id hash and the id table |
| `Mlx5Core` | `mlx5_core.dfy` | mlx5 helpers: checked command length, EC VF vports, EQ capability, printk level |
| `S390Ptrace` | `s390_ptrace.dfy` | s390 `pt_regs` helpers: flag bits, registers, kernel-stack arguments |

The models are built in two styles.

- **Pure code** becomes datatypes and functions with named results. Lemmas state what the code promises.
- **State changed in place** becomes a class whose methods carry `modifies` clauses. Examples are a queue's in-flight slots and tag bitmap, a device's interrupt registers, a buffer object's pages, a kobject's files, the perf id table and `pt_regs`.
  - Loops stay loops, with their invariants.
  - Each method is proved against a specification function or a stated invariant.

The shared modules in `common.dfy` are:

- `Errno`: error numbers from `include/uapi/asm-generic/errno-base.h` and `errno.h`.
- `Wrappers`: `Option` and `Result`.
- `Ints`: fixed-width wrap-around and powers of two.
- `Bits`: bitwise AND/OR on naturals, with per-bit lemmas. The models use these where the source uses `&`, `|`, `~` and shifts.

Hardware, guest and user memory, allocators, callbacks and other code outside the model are parameters. The outcome of each is passed in, for example `allocOk`, `copyOk`, a register map, or a memory function.

## Model

| member | source | states |
|---|---|---|
| VhostScsi.ChkSize | drivers/vhost/scsi.c:1193-1208 | -EINVAL exactly when the response buffer is too small; -EIO exactly when it fits but the request buffer is too small; 0 exactly when both fit |
| VhostScsi.DataDirectionCases | drivers/vhost/scsi.c:1373-1388 | out_size > req_size gives DMA_TO_DEVICE with length out_size - req_size; otherwise in_size > rsp_size gives DMA_FROM_DEVICE with length in_size - rsp_size; otherwise DMA_NONE with length 0 |
| VhostScsi.PiAdjustSpec | drivers/vhost/scsi.c:1394-1423 | with T10-PI, nonzero pi_bytesout without DMA_TO_DEVICE (or nonzero pi_bytesin without DMA_FROM_DEVICE) is -EIO; otherwise prot_bytes is taken from the matching field and the submitted length prot_bytes + exp_data_len equals the original length, even when the u32 subtraction wraps |
| VhostScsi.ToTcmAttr | drivers/vhost/scsi.c:1023-1038 | ORDERED, HEAD and ACA map to their tags in both directions; anything else maps to SIMPLE |
| VhostScsi.BufToLun | drivers/vhost/scsi.c:1278-1281 | the decoded unit is ((lun[2] << 8) \| lun[3]) & 0x3FFF and below 0x4000 |
| VhostScsi.EventLun | drivers/vhost/scsi.c:1810-1821 | an event LUN is 8 bytes: 0x01, the tpgt, (unit >> 8) \| 0x40 only when unit >= 256, and unit & 0xFF; all zero without a tpg and LUN |
| VhostScsi.EventLunRoundTrip | drivers/vhost/scsi.c:1816-1820 | decoding an event LUN with vhost_buf_to_lun gives back the unit modulo 0x4000, so every flat-space unit round-trips |
| VhostScsi.GetReq | drivers/vhost/scsi.c:1211-1239 | Ok exactly when the header copy succeeds, lun[0] == 1 and lun[1] names a present target; the result is that target; every failure is -EIO |
| VhostScsi.ErrorAction | drivers/vhost/scsi.c:1504-1520 | -ENXIO ends the pass; -EIO replies BAD_TARGET; -ENOMEM replies TASK_SET_FULL; every other code sends nothing |
| VhostScsi.GetDescRet | drivers/vhost/scsi.c:1139-1190 | 0 for an available descriptor; -EAGAIN when the ring was empty but notification raced; -ENXIO on a ring error or an empty ring |
| VhostScsi.Precheck | drivers/vhost/scsi.c:1340-1450 | a too-small response buffer is -EINVAL; a request that passes has lun[0] == 1 and a CDB of at most 32 bytes, and carries BufToLun's unit and ToTcmAttr's tag; every failure is one of -ENXIO, -EAGAIN, -EINVAL or -EIO |
| VhostScsi.SizeErrorsDisposition | drivers/vhost/scsi.c:1195-1206 | a too-small response buffer drops the request with no reply, even when the request buffer is too small too; a too-small request buffer alone is answered BAD_TARGET |
| VhostScsi.PrecheckSubmitsPayload | drivers/vhost/scsi.c:1494-1501 | a submitted command's direction and length are DataDirection of the buffer sizes, and protection bytes occur only with T10-PI and a data direction |
| VhostScsi.TmfImmediate | drivers/vhost/scsi.c:1594-1601 | a TMF goes to the target core exactly for a LOGICAL_UNIT_RESET on a tpg with nexus and session; every immediate answer is FUNCTION_REJECTED |
| VhostScsi.TmfRespCode | drivers/vhost/scsi.c:1554-1557 | FUNCTION_SUCCEEDED exactly for TMR_FUNCTION_COMPLETE, FUNCTION_REJECTED for every other response |
| VhostScsi.ResetCmd | drivers/vhost/scsi.c:759-768 | a reserved slot keeps sgl, prot_sgl and tvc_log, has every other field zeroed, and records its tag and epoch |
| VhostScsi.ScsiVirtqueue.InitInflight | drivers/vhost/scsi.c:302-327 | the index flips between 0 and 1, the previous slot is reported as old, and the new slot is reset to one reference; the reference-count invariant is kept |
| VhostScsi.ScsiVirtqueue.GetInflight | drivers/vhost/scsi.c:330-340 | the current slot gains exactly one reference and nothing else changes |
| VhostScsi.ScsiVirtqueue.PutInflight | drivers/vhost/scsi.c:342-345 | one reference is dropped; the completion fires exactly when the count reaches 0 |
| VhostScsi.ScsiVirtqueue.DropInitialRef | drivers/vhost/scsi.c:1864-1865 | dropping an old slot's initial reference completes it exactly when no command and no TMF still holds it |
| VhostScsi.ScsiVirtqueue.Flush | drivers/vhost/scsi.c:1855-1876 | a new epoch starts with one reference; the old one loses its initial reference and completes at once exactly when nobody holds it |
| VhostScsi.ScsiVirtqueue.FindFreeTag | drivers/vhost/scsi.c:753 | -1 exactly when every tag is reserved; otherwise an unreserved tag, fixed here to the lowest one (one of the tags sbitmap_get may return) |
| VhostScsi.ScsiVirtqueue.GetCmd | drivers/vhost/scsi.c:744-771 | -ENOMEM with nothing changed exactly when every tag is taken; otherwise one free tag becomes reserved, its slot is ResetCmd of the old slot, and the current epoch gains one holder |
| VhostScsi.ScsiVirtqueue.ReleaseCmdRes | drivers/vhost/scsi.c:415-455 | exactly the command's tag bit is cleared and exactly one reference on its epoch is dropped; a tag that is not reserved cannot be released |
| VhostScsi.ScsiVirtqueue.SetupVqCmds | drivers/vhost/scsi.c:1920-1975 | no change when the commands exist; otherwise success exactly when every allocation succeeds, giving maxCmds free tags, and -ENOMEM leaves no commands |
| VhostScsi.ScsiVirtqueue.AllocateCmds | drivers/vhost/scsi.c:1930-1968 | the allocated pool has maxCmds tags, all free, over fresh arrays, and the reference-count invariant still holds |
| VhostScsi.ScsiVirtqueue.HandleTmf | drivers/vhost/scsi.c:1584-1643 | the answer is TmfImmediate; an immediate answer leaves the epochs as they were; a submitted reset holds one reference on the current slot |
| VhostScsi.ScsiVirtqueue.TmfRespWork | drivers/vhost/scsi.c:1548-1567 | the response code is TmfRespCode and the TMF's one reference is dropped, firing the completion when it was the last |
| VhostScsi.ScsiVirtqueue.HandleOne | drivers/vhost/scsi.c:1340-1520 | one loop pass agrees with Precheck; once the checks pass, the code is -ENOMEM when every tag is taken and otherwise the first failure of the response iovecs, the dirty-log copy (scsi.c:1470-1476) and the data mapping, or 0; a submitted command owns a newly reserved tag; no previously reserved tag is released |
| VhostScsi.ScsiVirtqueue.HandleVq | drivers/vhost/scsi.c:1284-1524 | without a backend (scsi.c:1308-1310) nothing is read and no tag is taken; otherwise at most 256 requests per kick, ending early only on -ENXIO; each pass agrees with Precheck; submitted commands own distinct reserved tags |
| VhostScsi.Settle | drivers/vhost/scsi.c:581-598 | the `goto again` loop ends on a descriptor that is not a refilled ring |
| VhostScsi.EvtWorkSpec | drivers/vhost/scsi.c:569-630 | the missed flag is set afterwards exactly when no correctly sized buffer was reached (backend, ring and length); an event is written exactly when such a buffer was reached and the copy succeeded, and it carries EVENTS_MISSED exactly when a miss was pending or it had it, with its other bits, reason and LUN unchanged |
| VhostScsi.DeliverAllSpec | drivers/vhost/scsi.c:632-646 | at most one write per queued event; without a backend nothing is written and a miss is recorded whenever an event was queued; a pending miss survives a pass in which no correctly sized buffer is reached |
| VhostScsi.VhostScsi.AllocateEvt | drivers/vhost/scsi.c:538-561 | allocation fails, leaving vs_events_nr and setting vs_events_missed, exactly when vs_events_nr > 128 or the allocation fails; otherwise vs_events_nr grows by one |
| VhostScsi.VhostScsi.FreeEvt | drivers/vhost/scsi.c:531-535 | vs_events_nr drops by one |
| VhostScsi.VhostScsi.DoEvtWork | drivers/vhost/scsi.c:569-630 | the new missed flag and the written event are given by EvtWork |
| VhostScsi.VhostScsi.CompleteEvents | drivers/vhost/scsi.c:632-646 | the list is emptied and every event freed; in drop mode nothing is written and the flag is unchanged; otherwise the writes are DeliverAll of the list |
| VhostScsi.VhostScsi.SendEvt | drivers/vhost/scsi.c:1800-1826 | a refused allocation records a miss; otherwise the event with EventLun(target) is queued, or all queued events are dropped when the work cannot be queued |
| Ksm.TruncDiv | mm/ksm.c:416-417 | div_s64 truncates toward zero: the quotient has the sign of a, and a lies between q * b and the next multiple of b away from zero (q * b <= a < q * b + b for a >= 0, q * b - b < a <= q * b below 0) |
| Ksm.Ewma | mm/ksm.c:376-379 | the weighted sum is an unsigned long; when 70 * prev + 30 * curr does not wrap, the result is that sum / 100 rounded down and lies between prev and curr; in every case 100 times the result fits an unsigned long |
| Ksm.PrevScanTime | mm/ksm.c:369-373 | the stored scan time unless it is 0, then the current one; nonzero whenever the current one is, so the advisor never divides by 0 |
| Ksm.AtLeastOne | mm/ksm.c:418 | the `x ? x : 1` guard gives x when nonzero and 1 otherwise |
| Ksm.CapPages | mm/ksm.c:450-452 | the new rate is at most max_pages_to_scan and at most the larger CPU cap; it is at least the 10% CPU floor when the floor is under max_pages_to_scan; a rate already between the caps is unchanged |
| Ksm.ScanSeconds | mm/ksm.c:416-417 | for a non-negative delta, the whole seconds of the millisecond delta, rounded down |
| Ksm.ScanTimeDivisor | mm/ksm.c:414-425 | the unsigned long divisor scan_time * 1000 of cpu_percent wraps for a negative delta but is never 0, so the division is defined for every s64 delta |
| Ksm.Ratio | mm/ksm.c:430-438 | factor and change are at least 1; when x * 100 does not wrap and reaches y, the result is the exact quotient (r * y <= x * 100 < r * y + y); below y it is the guard's 1 |
| Ksm.PerPageCost | mm/ksm.c:446-447 | per_page_cost is at least 1 and, for a nonzero pages_to_scan, at most pages_to_scan |
| Ksm.ScaledPages | mm/ksm.c:440-443 | 100 times the rescaled rate fits an unsigned long, and without a wrap of the product it is at most that product over 100 |
| Ksm.U32Product | mm/ksm.c:449-450 | the product of two unsigned int values never wraps an unsigned long, so both CPU caps are exact |
| Ksm.AdvisorStep | mm/ksm.c:402-461 | each product wraps as the source's unsigned long (pages_to_scan * 100 as unsigned int); scan_time, cpu_percent, factor, the raw change and per_page_cost are all at least 1 before use; the smoothed change is Ewma of the stored and raw change; the two CPU caps fit an unsigned long; the new rate obeys CapPages's bounds; cpu_time is the current runtime |
| Ksm.SkipAge | mm/ksm.c:2400-2410 | 1 for age <= 3, 2 for age <= 5, 4 for age <= 8, 8 otherwise |
| Ksm.SkipAgeMonotone | mm/ksm.c:2400-2410 | an older item never gets fewer skips |
| Ksm.AgeInc | mm/ksm.c:2434-2436 | the age counter grows by one and saturates at 255 |
| Ksm.SkipStep | mm/ksm.c:2418-2459 | no change and no skip when smart scan is off or the folio is KSM; otherwise age is incremented; the page is skipped exactly when the age before the increment is at least 3 and remaining_skips is nonzero, which is then decremented; a zero budget is refilled with skip_age(age) |
| Ksm.SkipBudgetSpent | mm/ksm.c:2418-2459 | an item at least 3 scans old is skipped on exactly `remaining` consecutive visits |
| Ksm.SkipBudgetRefill | mm/ksm.c:2449-2456 | after the budget is spent the next visit scans the page, so remaining + 1 visits give remaining skips |
| Ksm.IsPageSharingCandidate | mm/ksm.c:1618-1629 | a candidate still has a mapping and room for offset more below ksm_max_page_sharing; a node with no mapping never is; with a non-negative offset a candidate is also one for offset 0 |
| Ksm.KsmCompatible | mm/ksm.c:680-699 | a compatible VMA has none of the excluded flags and is not a DAX file; a VMA with none of them is compatible |
| Ksm.Masked | mm/ksm.c:2372 | address & PAGE_MASK is the page-aligned address at or below the address, within one page |
| Ksm.SetStable | mm/ksm.c:2206 | setting STABLE_FLAG keeps the low bits below a page and sets that bit; it is a no-op when the bit was set |
| Ksm.StableNode.constructor | mm/ksm.c:580-588 | a new stable node has an empty hlist and rmap_hlist_len 0 |
| Ksm.RmapItem.constructor | mm/ksm.c:561-570 | a new item is zeroed apart from its mm and page address |
| Ksm.AddressParts | mm/ksm.c:2372 | an item's address masks to its page, and on a different page it compares with addr as its page does |
| Ksm.MmSlot.PassedRun | mm/ksm.c:2370-2381 | the walk passes exactly a run of items on pages below addr from the cursor; it stops at the item of page addr (found), at the first item beyond addr, or at the end |
| Ksm.MmSlot.Unlink | mm/ksm.c:1022 | the n unlinked items are cut out of the list, which stays well formed (owned, counted, each item once) and stays sorted |
| Ksm.MmSlot.InsertNew | mm/ksm.c:2383-2389 | a fresh zeroed item of page addr is inserted at the cursor, and the rest of the list is unchanged |
| Ksm.KsmState.GetNextRmapItem | mm/ksm.c:2364-2391 | the passed items (all on pages below addr) each leave their tree as remove_rmap_item_from_tree does (RemovedAll for the counters, HookFold for the nodes) and are unlinked and freed; then the item of page addr is returned when the walk reaches it; otherwise a new zeroed item of page addr is linked in their place and counted, or none when allocation fails; the next kept item is beyond addr |
| Ksm.NextItemKeepsSorted | mm/ksm.c:2364-2391 | when the item before the cursor is below addr, the list get_next_rmap_item leaves stays sorted by address, with or without the new item |
| Ksm.KsmState.RemoveTrailingRmapItems | mm/ksm.c:1018-1025 | every item from the cursor on leaves its tree as remove_rmap_item_from_tree does (RemovedAll, HookFold) and is freed; the list is cut at the cursor and stays sorted; ksm_rmap_items drops by the number freed |
| Ksm.KsmState.RemoveRmapItemFromTree | mm/ksm.c:968-1009 | a stable item whose folio is found leaves its node's hlist, rmap_hlist_len and the mm's ksm_merging_pages drop by one, ksm_pages_sharing drops by one, or ksm_pages_shared when it was the node's last item, and the item loses its node and flag bits; a stable item whose folio is gone keeps its state here, because the stale-node cleanup of ksm_get_folio is not modelled; an unstable item counts one unshared page less and loses its flag bits; every other node keeps its state |
| Ksm.RemovedCounts | mm/ksm.c:968-1009 | per counter: the mm loses one merging page and shared plus sharing drops by one exactly for a stable item whose folio is found, unshared drops by one exactly for an unstable item, and only a removed item loses its flag bits |
| Ksm.KsmState.RemoveItemsFromTree | mm/ksm.c:1021-1024 | remove_rmap_item_from_tree on each item in turn: the counters drop by the number of stable items with a found folio and of unstable items (RemovedAll), each node loses those of its items (HookFold), and each item ends with the link Unlinked gives |
| Ksm.HookFoldAfter | mm/ksm.c:968-1009 | after the removals each node has lost from its hlist exactly the items whose links say they leave it, in order, and from rmap_hlist_len that many |
| Ksm.KsmState.LeaveTrees | mm/ksm.c:2376-2377 | the unlinked run leaves its trees as RemoveItemsFromTree says while the mm's list stays well formed |
| Ksm.KsmState.FreeRun | mm/ksm.c:572-578 | free_rmap_item on a run: the items are unlinked, ksm_rmap_items and the mm's count drop by n, and no tree counter or node changes |
| Ksm.KsmState.RemoveRun | mm/ksm.c:2374-2378 | the n passed items leave their trees (RemovedAll, HookFold), are unlinked and freed, and ksm_rmap_items drops by n |
| Ksm.KsmState.TakeOrAllocate | mm/ksm.c:2372-2390 | the found item is returned with the list unchanged; otherwise a new zeroed item of page addr is linked at the cursor and counted, or none when allocation fails; no tree counter or node changes |
| Ksm.KsmState.constructor | mm/ksm.c:279-346 | the boot defaults: run STOP, 100 pages per scan, no advisor, smart scan on, max_page_sharing 256, target 200 s, CPU 70%, 500 to 30000 pages, zero statistics |
| Ksm.KsmState.ScanTimeAdvisor | mm/ksm.c:402-461 | advisor_ctx and pages_to_scan take the values of AdvisorStep; pages_to_scan stays within max_pages_to_scan and the stored scan time is at least 1 |
| Ksm.KsmState.SetAdvisorDefaults | mm/ksm.c:348-356 | without an advisor pages_to_scan returns to its default; with the scan-time advisor it is set to min_pages_to_scan and advisor_ctx is reset |
| Ksm.KsmState.ShouldSkipRmapItem | mm/ksm.c:2418-2459 | the item's age and remaining_skips and the decision follow SkipStep; ksm_pages_skipped counts each skip; a skipped item leaves its tree as remove_rmap_item_from_tree does (2457); an item not skipped keeps its counters, link and node |
| Ksm.KsmState.StableTreeAppend | mm/ksm.c:2183-2215 | rmap_hlist_len grows by one and the item is linked at the head with STABLE_FLAG set; the node's first item counts as shared and later ones as sharing; appending to a sharing candidate never triggers the over-limit warning |
| Ksm.KsmState.RunStore | mm/ksm.c:3377-3416 | an unparsable value or one above 2 is -EINVAL with run unchanged; a failed unmerge resets run to STOP and returns the error |
| Ksm.KsmState.PagesToScanStore | mm/ksm.c:3351-3368 | refused with -EINVAL while an advisor is active or on a parse error; otherwise stores the value |
| Ksm.KsmState.MaxPageSharingStore | mm/ksm.c:3505-3537 | a parse error is passed through and a value below 2 is -EINVAL, both leaving the limit; an unchanged value succeeds; a new one is -EBUSY while pages are shared or removing the stable nodes fails, and is stored otherwise |
| Ksm.KsmState.TargetScanTimeStore | mm/ksm.c:3786-3801 | a target below 1 second, or one that does not parse, is -EINVAL with nothing changed; otherwise it is stored |
| Ksm.KsmState.PagesVolatile | mm/ksm.c:3568-3582 | rmap_items minus shared, sharing and unshared pages, reported as 0 when that is negative |
| PciSetupBus.AlignUp | drivers/pci/setup-bus.c:935 | ALIGN(x, a) is the least multiple of a at or above x |
| PciSetupBus.AlignDownIfNonzero | drivers/pci/setup-bus.c:2012-2013 | with a nonzero alignment, the greatest multiple of it at or below x; otherwise x |
| PciSetupBus.CalculateMemsize | drivers/pci/setup-bus.c:922-936 | the size is a multiple of align, at least max(size, min_size) + children_add_size, at least add_size + children_add_size, and at least old_size unless that is 1; and it is less than the largest of these plus align |
| PciSetupBus.CalculateIosize | drivers/pci/setup-bus.c:897-920 | the result is aligned, at least max(size, min_size) + size1 + children_add_size, at least add_size + children_add_size and at least old_size (unless 1), and below the largest of these plus the alignment |
| PciSetupBus.CalculateMemAlign | drivers/pci/setup-bus.c:1055-1075 | the result is 1 MB << k for some k <= max_order |
| PciSetupBus.WindowAlignment | drivers/pci/setup-bus.c:948-967 | 1 MB for memory, 1 KB or 4 KB for I/O depending on io_window_1k, 1 otherwise, each raised to the architecture alignment |
| PciSetupBus.ResourcesAssignable | drivers/pci/setup-bus.c:139-155 | classless devices and host bridges are never assigned; an IOAPIC only when its I/O and memory decoding are off; every other class is assigned |
| PciSetupBus.InsertPoint | drivers/pci/setup-bus.c:194-206 | the insertion point is the first entry with strictly smaller alignment, or the end |
| PciSetupBus.InsertByAlignElems | drivers/pci/setup-bus.c:194-208 | an insertion adds exactly the new tracker to the list's multiset |
| PciSetupBus.InsertByAlignSorted | drivers/pci/setup-bus.c:194-208 | an insertion keeps the list in non-increasing alignment |
| PciSetupBus.SortResourcesSpec | drivers/pci/setup-bus.c:158-210 | sorting a device's resources keeps head in non-increasing alignment and adds exactly the trackers of its sortable resources |
| PciSetupBus.ResourceList.PdevSortResources | drivers/pci/setup-bus.c:158-210 | an assignable device's resources are inserted as SortResources says; an unassignable device leaves head unchanged; head stays sorted |
| PciSetupBus.ResToDevRes | drivers/pci/setup-bus.c:99-110 | the first tracker of the resource, or none exactly when no tracker has it |
| PciSetupBus.GetResAddSize | drivers/pci/setup-bus.c:112-119 | the first tracker's add_size, or 0 for an untracked resource |
| PciSetupBus.GetResAddAlign | drivers/pci/setup-bus.c:121-128 | the first tracker's min_align, or 0 for an untracked resource |
| PciSetupBus.OrAllHas | drivers/pci/setup-bus.c:352-358 | a bit is in the OR of the failed flags exactly when some failed resource has it |
| PciSetupBus.FailResTypeMask | drivers/pci/setup-bus.c:346-361 | the mask is the OR of the failed flags restricted to IO, MEM and PREFETCH |
| PciSetupBus.FailMaskHas | drivers/pci/setup-bus.c:346-361 | a type is in the mask exactly when it is IO, MEM or PREFETCH and some failed resource has it |
| PciSetupBus.NeedToRelease | drivers/pci/setup-bus.c:363-384 | IO is released when IO failed; prefetchable memory when PREFETCH failed, or when MEM failed and the parent is not prefetchable; plain memory when MEM failed; nothing else |
| PciSetupBus.IoReleasedIffIoFailed | drivers/pci/setup-bus.c:346-384 | an I/O resource is released exactly when some failed resource was an I/O resource |
| PciSetupBus.MemReleasedIffMemFailed | drivers/pci/setup-bus.c:346-384 | a plain memory resource is released exactly when some failed resource was a memory resource |
| PciSetupBus.IoWindowRegs | drivers/pci/setup-bus.c:678-715 | a disabled I/O window writes base 0xf0 over limit 0 and a zero upper half |
| PciSetupBus.IoWindowRoundTrip | drivers/pci/setup-bus.c:678-715 | an I/O window aligned to the bridge granularity below 4 GB is decoded back to exactly its start and end |
| PciSetupBus.IoWindowDisabled | drivers/pci/setup-bus.c:706-708 | a disabled I/O window decodes with its base above its limit |
| PciSetupBus.MmioWindowReg | drivers/pci/setup-bus.c:717-736 | a disabled memory window writes 0x0000fff0 |
| PciSetupBus.MmioWindowRoundTrip | drivers/pci/setup-bus.c:717-736 | a 1 MB aligned memory window below 4 GB decodes back exactly; a disabled one decodes with its base above its limit |
| PciSetupBus.AvailWindow.RemoveDevResource | drivers/pci/setup-bus.c:1967-1980 | a zero-size resource changes nothing; otherwise start moves past the alignment padding and the resource, capped at end + 1; a resource that fits leaves start right after it |
| PciSetupBus.TryNum | drivers/pci/setup-bus.c:2275-2286 | max_depth + 1 rounds when reallocation is enabled, otherwise one |
| PciSetupBus.AssignRootBusRounds | drivers/pci/setup-bus.c:2267-2333 | rounds run while failures remain, up to TryNum; only the last possible round uses the add_list; the first retry releases leaf resources only and every later one whole subtrees |
| IavfH.DescUnused | drivers/net/ethernet/intel/iavf/iavf.h:127-129 | for in-range ring indices the free descriptors are (next_to_clean - next_to_use - 1) mod count, between 0 and count - 1; count - 1 for an empty ring |
| IavfH.EitrIntsPerSecToReg | drivers/net/ethernet/intel/iavf/iavf.h:123-125 | 8 for a rate of 0; otherwise 10^9 / (rate * 256) rounded down |
| IavfH.StateStr | drivers/net/ethernet/intel/iavf/iavf.h:517-551 | a value outside the enumeration is named __IAVF_UNKNOWN_STATE |
| IavfH.StateStrInjective | drivers/net/ethernet/intel/iavf/iavf.h:517-551 | different states get different names, and no state gets the unknown name |
| IavfH.CountInc | drivers/net/ethernet/intel/iavf/iavf.h:492-500 | the u16 counter grows by one and wraps from 65535 to 0 |
| IavfH.CountDec | drivers/net/ethernet/intel/iavf/iavf.h:502-510 | the u16 counter drops by one and wraps from 0 to 65535 |
| IavfH.CountDecInc | drivers/net/ethernet/intel/iavf/iavf.h:492-510 | decrementing undoes incrementing and the reverse, wrap-around included |
| IavfH.Adapter.ChangeState | drivers/net/ethernet/intel/iavf/iavf.h:553-564 | the new state is stored; last_state records the previous state only when the state really changes |
| IavfH.Adapter.IncFdirActiveFltr | drivers/net/ethernet/intel/iavf/iavf.h:492-500 | only the counter of the filter's kind (raw or not) is incremented |
| IavfH.Adapter.DecFdirActiveFltr | drivers/net/ethernet/intel/iavf/iavf.h:502-510 | only the counter of the filter's kind is decremented |
| IavfH.IncThenDecRestores | drivers/net/ethernet/intel/iavf/iavf.h:486-510 | an increment then a decrement of the same kind restores both counters and the max-reached test |
| IavfH.Adapter.FdirMaxReached | drivers/net/ethernet/intel/iavf/iavf.h:486-490 | the adapter is at the cap exactly when MaxReached holds of its two active-filter counters |
| IavfH.MaxReached | drivers/net/ethernet/intel/iavf/iavf.h:486-490 | the cap counts both filter kinds together: either counter alone at IAVF_MAX_FDIR_FILTERS reaches it, and below it their sum is under the cap |
| IavfH.Adapter.VlanFilteringAllowed | drivers/net/ethernet/intel/iavf/iavf.h:424-429 | V1 VLAN offload always allows filtering; without it, filtering needs V2 with outer or inner filtering support |
| IavfVirtchnl.Count | drivers/net/ethernet/intel/iavf/iavf_virtchnl.c:576-579 | the count of selected list entries is at most the list length |
| IavfVirtchnl.TakeFirstSpec | drivers/net/ethernet/intel/iavf/iavf_virtchnl.c:603-612 | the message holds min(count, selected) entries, each of them a selected list entry |
| IavfVirtchnl.WalkFirstCount | drivers/net/ethernet/intel/iavf/iavf_virtchnl.c:603-612 | when handling an entry takes it out of the selection, count - min(k, count) selected entries remain |
| IavfVirtchnl.WalkFirstUnlinks | drivers/net/ethernet/intel/iavf/iavf_virtchnl.c:667-680 | a walk that unlinks what it sends splits the list into what stays plus what was sent |
| IavfVirtchnl.CountAppend | drivers/net/ethernet/intel/iavf/iavf_virtchnl.c:576-579 | the count over a concatenation is the sum of the counts |
| IavfVirtchnl.WalkAll | drivers/net/ethernet/intel/iavf/iavf_virtchnl.c:697-708 | every entry a walk leaves satisfies P when every step yields only such entries |
| IavfVirtchnl.CountEntries | drivers/net/ethernet/intel/iavf/iavf_virtchnl.c:576-579 | the counting loop computes Count |
| IavfVirtchnl.WalkEntries | drivers/net/ethernet/intel/iavf/iavf_virtchnl.c:697-708 | the list_for_each_entry(_safe) loop computes Walk |
| IavfVirtchnl.WalkFirstEntries | drivers/net/ethernet/intel/iavf/iavf_virtchnl.c:603-612 | the batching loop computes WalkFirst, and the message is TakeFirst |
| IavfVirtchnl.FitCountSpec | drivers/net/ethernet/intel/iavf/iavf_virtchnl.c:587-593 | the shrunk count is the largest count up to the original whose message fits in IAVF_MAX_AQ_BUF_SIZE; it is unchanged exactly when the original fits |
| IavfVirtchnl.ShrinkToFit | drivers/net/ethernet/intel/iavf/iavf_virtchnl.c:587-593 | the shrinking loop computes FitCount and its length; `more` is set exactly when the original did not fit |
| IavfVirtchnl.AddEtherAddrs | drivers/net/ethernet/intel/iavf/iavf_virtchnl.c:559-620 | with a request outstanding nothing changes; with no add-marked filter the flag is cleared; otherwise the first FitCount add-marked filters are sent with their add bit cleared, current_op becomes ADD_ETH_ADDR, and the flag is cleared only if all fitted |
| IavfVirtchnl.AddEtherAddrsOutcome | drivers/net/ethernet/intel/iavf/iavf_virtchnl.c:587-614 | the message fits one buffer and holds exactly the shrunk count; that many fewer filters stay add-marked; none stay when all fitted |
| IavfVirtchnl.DelEtherAddrs | drivers/net/ethernet/intel/iavf/iavf_virtchnl.c:628-689 | the same rule for remove-marked filters, except that the sent filters are unlinked: the list that stays plus the message is the old list |
| IavfVirtchnl.MacAddOk | drivers/net/ethernet/intel/iavf/iavf_virtchnl.c:697-708 | every filter is marked handled and not new |
| IavfVirtchnl.MacAddOkOutcome | drivers/net/ethernet/intel/iavf/iavf_virtchnl.c:697-708 | after an accepted add no filter is new, every filter not pending add is handled, and none is removed |
| IavfVirtchnl.MacAddReject | drivers/net/ethernet/intel/iavf/iavf_virtchnl.c:716-735 | new filters are freed, and a pending removal of the netdev's own address is cancelled |
| IavfVirtchnl.MacAddRejectOutcome | drivers/net/ethernet/intel/iavf/iavf_virtchnl.c:716-735 | after a rejected add no new filter is left, the netdev address is not pending removal, and exactly the new filters are gone |
| IavfVirtchnl.V2Count | drivers/net/ethernet/intel/iavf/iavf_virtchnl.c:827-838 | the V2 count never exceeds the request, fits in the PF's room when there is room, and is at least one when there is |
| IavfVirtchnl.AddVlans | drivers/net/ethernet/intel/iavf/iavf_virtchnl.c:764-888 | with a request outstanding nothing changes; with no ADD filter or no VLAN filtering the flag is cleared; otherwise the first FitCount ADD filters (held to the V2 room) move to IS_NEW and are sent as a V1 or V2 message |
| IavfVirtchnl.AddVlansSend | drivers/net/ethernet/intel/iavf/iavf_virtchnl.c:789-888 | the first FitCount of the (room-limited) ADD filters move to IS_NEW and are sent with the opcode given; the flag is cleared only when every ADD filter went out |
| IavfVirtchnl.AddVlansV2Room | drivers/net/ethernet/intel/iavf/iavf_virtchnl.c:827-848 | a V2 request never asks for more filters than the PF has room for |
| IavfVirtchnl.DelVlans | drivers/net/ethernet/intel/iavf/iavf_virtchnl.c:896-1043 | without VLAN filtering, REMOVE filters are freed and DISABLE filters become INACTIVE with no message; otherwise the first FitCount of them are sent, DISABLE ones becoming INACTIVE and REMOVE ones freed, and num_vlan_filters drops by those freed |
| IavfVirtchnl.DelVlansLocally | drivers/net/ethernet/intel/iavf/iavf_virtchnl.c:909-930 | REMOVE filters are freed, DISABLE filters become INACTIVE, num_vlan_filters drops by the number freed and the flag is cleared |
| IavfVirtchnl.DelVlansSend | drivers/net/ethernet/intel/iavf/iavf_virtchnl.c:931-1040 | with nothing to delete only the flag is cleared; otherwise the first FitCount filters to delete are sent, DISABLE ones becoming INACTIVE and REMOVE ones freed |
| IavfVirtchnl.DelVlansLocalOutcome | drivers/net/ethernet/intel/iavf/iavf_virtchnl.c:909-930 | without VLAN filtering no filter is left waiting for deletion |
| IavfVirtchnl.DelVlansSentOutcome | drivers/net/ethernet/intel/iavf/iavf_virtchnl.c:943-1040 | after a sent delete of c filters, exactly c fewer wait for deletion and the message holds c |
| IavfVirtchnl.VlanAddReject | drivers/net/ethernet/intel/iavf/iavf_virtchnl.c:743-756 | IS_NEW filters are freed and num_vlan_filters drops by their number |
| IavfVirtchnl.VlanAddV2Done | drivers/net/ethernet/intel/iavf/iavf_virtchnl.c:2905-2915 | IS_NEW filters become ACTIVE |
| IavfVirtchnl.VlanAddV2Outcome | drivers/net/ethernet/intel/iavf/iavf_virtchnl.c:2538-2542 | neither the V2 rejection nor the V2 success leaves a filter in IS_NEW |
| IavfVirtchnl.PromiscFlagsMeaning | drivers/net/ethernet/intel/iavf/iavf_virtchnl.c:1068-1105 | unicast promiscuity is requested exactly with IFF_PROMISC; multicast with IFF_PROMISC or IFF_ALLMULTI; no other bit |
| IavfVirtchnl.SetPromiscuous | drivers/net/ethernet/intel/iavf/iavf_virtchnl.c:1051-1120 | with a request outstanding nothing changes; otherwise the flag is cleared, and when the mode changed the flags of PromiscFlags are sent and recorded |
| IavfVirtchnl.RequestStats | drivers/net/ethernet/intel/iavf/iavf_virtchnl.c:1128-1145 | with a request outstanding nothing changes; otherwise the flag is cleared and current_op is GET_STATS, or back to UNKNOWN when the send fails |
| IavfVirtchnl.EnableQueues | drivers/net/ethernet/intel/iavf/iavf_virtchnl.c:439-456 | requests queues BIT(n) - 1 in a u32 and sets current_op, unless a request is outstanding |
| IavfVirtchnl.ValidateNumQueues | drivers/net/ethernet/intel/iavf/iavf_virtchnl.c:255-272 | num_queue_pairs is clamped to IAVF_MAX_REQ_QUEUES, and only when it was too large every VSI's count is set to that maximum |
| IavfVirtchnl.ApiVerResult | drivers/net/ethernet/intel/iavf/iavf_virtchnl.c:132-138 | -EIO exactly when the PF's version is newer than the VF's own (1.1), otherwise 0 |
| IavfVirtchnl.ApiVerAcceptsOlder | drivers/net/ethernet/intel/iavf/iavf_virtchnl.c:132-138 | a PF at or below version 1.1 is accepted |
| IavfVirtchnl.VerifyApiVer | drivers/net/ethernet/intel/iavf/iavf_virtchnl.c:116-141 | a polling error is returned with nothing changed; otherwise the PF version is stored and checked by ApiVerResult |
| IavfVirtchnl.WalkFdir | drivers/net/ethernet/intel/iavf/iavf_virtchnl.c:2241-2263 | the Flow Director walk computes Walk, and each counter drops (u16) by the number of freed filters of its kind |
| IavfVirtchnl.WalkFdirList | drivers/net/ethernet/intel/iavf/iavf_virtchnl.c:2241-2263 | the walk over the list yields Walk of the list, and each u16 counter ends at its start value minus the filters of its kind freed |
| IavfVirtchnl.FreedStep | drivers/net/ethernet/intel/iavf/iavf_virtchnl.c:2241-2263 | one step of the walk unfolds Walk and Freed by one entry |
| IavfVirtchnl.ActivatedFdir | drivers/net/ethernet/intel/iavf/iavf_virtchnl.c:2235-2268 | the value form of iavf_activate_fdir_filters: the list and counters follow ActivateStep, and IAVF_FLAG_AQ_ADD_FDIR_FILTER is added exactly when some filter needs re-adding |
| IavfVirtchnl.ActivateFdirFilters | drivers/net/ethernet/intel/iavf/iavf_virtchnl.c:2235-2268 | after a reset the list and counters follow ActivateStep, and IAVF_FLAG_AQ_ADD_FDIR_FILTER is raised exactly when some filter needs re-adding |
| IavfVirtchnl.ActivateOutcome | drivers/net/ethernet/intel/iavf/iavf_virtchnl.c:2235-2268 | after a reset every filter is waiting to be added or inactive |
| IavfVirtchnl.FdirAddDone | drivers/net/ethernet/intel/iavf/iavf_virtchnl.c:2803-2833 | each ADD_PENDING filter becomes ACTIVE with the PF's flow id on success, or is freed with its counter decremented |
| IavfVirtchnl.FdirDelDone | drivers/net/ethernet/intel/iavf/iavf_virtchnl.c:2834-2875 | pending deletes and disables are resolved by the PF's answer, and freed filters decrement their counter |
| IavfVirtchnl.FdirAddDoneOutcome | drivers/net/ethernet/intel/iavf/iavf_virtchnl.c:2449-2471 | no filter stays ADD_PENDING once its answer is in, and a successful add frees nothing |
| IavfVirtchnl.FdirDelDoneOutcome | drivers/net/ethernet/intel/iavf/iavf_virtchnl.c:2472-2489 | no filter stays DEL_PENDING or DIS_PENDING once its answer is in |
| IavfVirtchnl.WalkIdentity | drivers/net/ethernet/intel/iavf/iavf_virtchnl.c:2803-2833 | a walk whose steps keep every entry changes nothing, which makes the success pass after an error pass a no-op |
| IavfVirtchnl.VirtchnlCompletion | drivers/net/ethernet/intel/iavf/iavf_virtchnl.c:2313-2955 | PF events, a VERSION or CONFIG_IRQ_MAP reply that is not the current request (2745-2753), and a GET_SUPPORTED_RXDIDS or 1588_PTP_GET_CAPS reply of the wrong size (2713-2722) return early, leaving current_op and every list alone; every other reply changes the lists exactly as Completed says and sets current_op to UNKNOWN |
| IavfVirtchnl.CompletionSwitch | drivers/net/ethernet/intel/iavf/iavf_virtchnl.c:2376-2946 | the error switch then the success switch change the MAC, VLAN, Flow Director, queue and aq_required state exactly as Completed says for the opcode, and nothing else |
| IavfVirtchnl.CompletedOutcome | drivers/net/ethernet/intel/iavf/iavf_virtchnl.c:2376-2946 | after a completion no MAC filter is new (ADD_ETH_ADDR), no VLAN filter is IS_NEW (ADD_VLAN_V2), no Flow Director add, delete or disable is pending (ADD_FDIR / DEL_FDIR), and after GET_VF_RESOURCES every Flow Director filter waits to be added or is inactive and, with V1 VLANs allowed, every VLAN filter waits to be added |
| IavfVirtchnl.CompleteAddEthAddr | drivers/net/ethernet/intel/iavf/iavf_virtchnl.c:2382-2385 | an error reply rejects the pending MAC adds, a success reply accepts them |
| IavfVirtchnl.CompleteGetVfResources | drivers/net/ethernet/intel/iavf/iavf_virtchnl.c:2604-2640 | the queue count is clamped to IAVF_MAX_REQ_QUEUES and the VSI queue counts follow ValidateNumQueues; with VLAN_ALLOWED and a non-empty VLAN list every VLAN filter is re-marked ADD and IAVF_FLAG_AQ_ADD_VLAN_FILTER raised; the Flow Director filters are re-activated as ActivatedFdir says; nothing else changes |
| IavfVirtchnl.ReAddedVlans | drivers/net/ethernet/intel/iavf/iavf_virtchnl.c:2623-2636 | with VLAN_ALLOWED and a non-empty list, every VLAN filter is re-marked ADD and IAVF_FLAG_AQ_ADD_VLAN_FILTER is added; otherwise nothing changes |
| IavfVirtchnl.ReAddOutcome | drivers/net/ethernet/intel/iavf/iavf_virtchnl.c:2623-2636 | the re-add keeps the length and order of the VLAN list, changes only each filter's state, and leaves every filter in state ADD |
| IavfVirtchnl.CompleteAddFdir | drivers/net/ethernet/intel/iavf/iavf_virtchnl.c:2449-2471 | an error reply frees every ADD_PENDING filter and the success handling then changes nothing; otherwise the PF's answer decides |
| IavfVirtchnl.CompleteDelFdir | drivers/net/ethernet/intel/iavf/iavf_virtchnl.c:2472-2489 | an error reply restores pending deletes and disables to ACTIVE; otherwise the PF's answer decides |
| IavfVirtchnl.AnsweredFdir | drivers/net/ethernet/intel/iavf/iavf_virtchnl.c:2449-2489 | an error pass then a success pass over the Flow Director list ends as a single walk with the step the answer selects, the counters dropping by the filters of each kind freed |
| IavfVirtchnl.CompleteAddVlanV2 | drivers/net/ethernet/intel/iavf/iavf_virtchnl.c:2538-2542 | an error reply frees the IS_NEW filters, a success reply makes them ACTIVE |
| Rt712.IndexAddrFields | sound/soc/codecs/rt712-sdca.c:33 | for a 12-bit nid and a 20-bit register the private address (nid << 20) \| reg keeps both fields apart: dividing by 2^20 gives the nid back and the remainder gives the register |
| Rt712.IndexAddrInjective | sound/soc/codecs/rt712-sdca.c:49 | two in-range (nid, reg) pairs name the same private register exactly when they are equal |
| Rt712.UpdateBitsBit | sound/soc/codecs/rt712-sdca.c:70 | when val lies within mask, each bit of set_mask_bits is val's bit inside the mask and the old bit outside it |
| Rt712.UpdateBitsKeeps | sound/soc/codecs/rt712-sdca.c:70 | set_mask_bits keeps the bits outside the mask, puts val inside it, and applying it twice equals applying it once |
| Rt712.Clamp | sound/soc/codecs/rt712-sdca.c:508-510 | the requested level never exceeds the control's max, and an in-range request is kept as is |
| Rt712.ControlsFit | sound/soc/codecs/rt712-sdca.c:713-741 | each of the FU05, FU0F, FU44 and FU06 volume controls has a range whose encoding fits 16 bits (0.75 dB steps) or 32 bits (10 dB boost steps) |
| Rt712.EncodeGain | sound/soc/codecs/rt712-sdca.c:507-545 | a volume register value is masked to 16 bits and the top level encodes as the control's base; a boost value whose range fits is a whole number of 10 dB steps, at most max of them |
| Rt712.DecodeGain | sound/soc/codecs/rt712-sdca.c:570-589 | a boost register decodes to its whole 10 dB steps, rounded down; the base value of a volume decodes to the top level |
| Rt712.GetAfterPut | sound/soc/codecs/rt712-sdca.c:512-598 | for a control whose range fits its encoding, set_gain_get decodes what set_gain_put encodes back to the clamped request |
| Rt712.ButtonsOfMeaning | sound/soc/codecs/rt712-sdca.c:166-199 | only a 0x11 message reports a button, at most two are reported, and each button is reported exactly when the high nibble of byte 1 or byte 2 names it |
| Rt712.PortsAndRatesDistinct | sound/soc/codecs/rt712-sdca.c:1480-1538 | every accepted (direction, DAI) pair gets its own data port, and every supported rate its own one of the four rate indices |
| Rt712.HwParamsResult | sound/soc/codecs/rt712-sdca.c:1469-1538 | the result is 0, -EINVAL or sdw_stream_add_slave's error; a missing stream or slave or a DAI without a port in that direction is -EINVAL; success implies at most 16 channels and a supported rate |
| Rt712.HwParamsAccepts | sound/soc/codecs/rt712-sdca.c:1469-1538 | hw_params succeeds exactly when a stream and slave exist, VA is not asked for AIF3, the DAI has a port in that direction, the port is configured, at most 16 channels are asked for and the rate is 44.1, 48, 96 or 192 kHz |
| Rt712.Codec.constructor | sound/soc/codecs/rt712-sdca.c:1675-1683 | the driver starts with FU0F muted by DAPM and both mixer channels, FU05 muted by DAPM only, and no jack |
| Rt712.Codec.Write | sound/soc/codecs/rt712-sdca.c:35 | a write to a register on which the bus fails returns -EIO and changes nothing; any other write stores the value and returns 0 |
| Rt712.Codec.IndexWrite | sound/soc/codecs/rt712-sdca.c:28-42 | writes the value to the private register (nid << 20) \| reg and returns the bus result |
| Rt712.Codec.IndexRead | sound/soc/codecs/rt712-sdca.c:44-58 | returns 0 and the private register's value |
| Rt712.Codec.IndexUpdateBits | sound/soc/codecs/rt712-sdca.c:60-72 | writes set_mask_bits of the current value back; on success the bits outside the mask are kept and the masked bits hold val |
| Rt712.Codec.GainPut | sound/soc/codecs/rt712-sdca.c:488-553 | returns 0 with no write when both registers already hold the encoded gains; otherwise writes both and returns 1 when both read back; after a successful put of a fitting control, a get gives the clamped request |
| Rt712.Codec.GainGet | sound/soc/codecs/rt712-sdca.c:555-598 | each channel is the decoding of its own register; R is copied from L only when the two registers agree, which gives the same value |
| Rt712.Codec.SetMuteCtl | sound/soc/codecs/rt712-sdca.c:600-621 | each channel's mute register is written with dapm mute OR that channel's mixer mute; the first failing write returns -EIO and skips the rest; on success the hardware mutes match the stored state (set_fu05_playback_ctl at 654-675 does the same for FU05) |
| Rt712.Codec.SwitchGet | sound/soc/codecs/rt712-sdca.c:623-632 | each channel reads 1 (on) unless its mixer mute is set, for FU0F capture and, at 677-686, FU05 playback |
| Rt712.Codec.SwitchPut | sound/soc/codecs/rt712-sdca.c:634-652 | a request equal to the stored state returns 0 and changes nothing; otherwise the mixer mutes become the request, the other switch is untouched, and the result is 1 with the hardware matching or -EIO; afterwards a get returns the request (fu05_playback_put at 688-707 is the same) |
| Rt712.Codec.DapmMuteEvent | sound/soc/codecs/rt712-sdca.c:819-857 | POST_PMU clears and PRE_PMD sets the DAPM mute of the unit and writes it through, leaving the mixer mutes and the other unit alone; after PRE_PMD the writable channel mutes read 1; other events change nothing; the return is always 0 |
| Rt712.Codec.ButtonDetect | sound/soc/codecs/rt712-sdca.c:134-216 | returns the buttons of the UMP message when the host owns it and none when the device does; on owner 0 it writes 1 to the version's owner register, otherwise it writes nothing |
| Rt712.Codec.HeadsetDetect | sound/soc/codecs/rt712-sdca.c:218-259 | jack_type becomes none, headphone or headset for detected modes 0, 3 and 5 and is kept otherwise; a nonzero mode is written to selected_mode, and a refused write returns -EIO |
| Rt712.Codec.JackDetectHandler | sound/soc/codecs/rt712-sdca.c:261-310 | with no jack or no card nothing happens; a failed headset detection reports nothing; otherwise one report of jack type and buttons is made, with no buttons when there is no jack, and a second report of release when a button was seen; the registers end as the headset detection's write-back (on a jack interrupt) followed by the button detection's owner write (on a button interrupt, unless the headset detection failed) |
| Rt712.Codec.HwParams | sound/soc/codecs/rt712-sdca.c:1453-1569 | returns the result HwParamsAccepts characterises, hands the DAI's port to the SoundWire core once the first checks pass, and on success writes the rate index to exactly the DAI's sample-frequency controls; on failure no register changes |
| Einj.ValidateErrorType | drivers/acpi/apei/einj-core.c:804-827 | the result is 0 or -EINVAL |
| Einj.ValidateErrorTypeMeaning | drivers/acpi/apei/einj-core.c:804-827 | a type is refused exactly when it uses a bit above 31, sets two or more of bits 0 to 30, or lacks the vendor bit and shares no bit with the v1 or v2 available types |
| Einj.OneTypeBit | drivers/acpi/apei/einj-core.c:820 | `tval & (tval - 1)` in 32-bit arithmetic is nonzero exactly when tval has two or more bits set |
| Einj.CheckTriggerHeader | drivers/acpi/apei/einj-core.c:357-370 | the result is 0 or -EINVAL |
| Einj.TriggerHeaderMeaning | drivers/acpi/apei/einj-core.c:357-370 | a trigger table passes exactly when its header has the trigger header size, it fits in a page, and its entries fill the rest of the table to within less than one entry |
| Einj.CheckTable | drivers/acpi/apei/einj-core.c:883-897 | the result is 0 or -EINVAL |
| Einj.CheckTableMeaning | drivers/acpi/apei/einj-core.c:883-897 | an EINJ table passes exactly when header_length is 12 or 48 and the entry count fills the table after the 48-byte header to within less than one entry |
| Einj.U128Write | drivers/acpi/apei/einj-core.c:915-964 | returns the length written, or -EINVAL for a nonzero offset, a line without a final newline or a bad digit pair; an empty line sets all 16 bytes to 0xFF; a parsed value is copied into the component only when every pair is valid, so a rejected line leaves it unchanged |
| Einj.ParseDigits | drivers/acpi/apei/einj-core.c:943-959 | the loop reads digit pairs from the right end of the line into bytes 0, 1, ..., a lone leading digit counting as its pair with a '0' high digit, and stops after 16 bytes or at the digit start |
| Einj.ParseHexDigits | drivers/acpi/apei/einj-core.c:949-959 | parsing the digits printed for a byte sequence gives that sequence back |
| Einj.U128Read | drivers/acpi/apei/einj-core.c:899-913 | the output is the part of the 33-character line (32 hex digits, last byte first, then a newline) that simple_read_from_buffer returns for the count and offset, and the offset advances by its length |
| Einj.ReadAt | drivers/acpi/apei/einj-core.c:912 | a read at or past the end returns nothing; otherwise it returns min(count, remaining) characters of the line from the offset |
| Einj.ReadAtSplit | drivers/acpi/apei/einj-core.c:912 | reading the line in two consecutive reads gives the same text as one read of the combined count |
| Einj.ReadLineDigits | drivers/acpi/apei/einj-core.c:908-910 | the printed line is 2 * 16 lower-case hex digits and a newline |
| Einj.WriteAfterRead | drivers/acpi/apei/einj-core.c:899-964 | writing back the line u128_read printed succeeds with length 33 and restores the 16 bytes |
| Einj.PrintParsed | drivers/acpi/apei/einj-core.c:949-957 | an even run of hex digits parses into bytes that print back as the same digits in lower case |
| Einj.ReadAfterWrite | drivers/acpi/apei/einj-core.c:915-964 | writing 32 hex digits, with or without a 0x or 0X prefix, succeeds, and reading the component back gives the same digits in lower case |
| Einj.EmptyLineEndsList | drivers/acpi/apei/einj-core.c:938-940 | an empty line written to a component id makes it the end-of-list marker |
| Einj.IsEndOfList | drivers/acpi/apei/einj-core.c:518-525 | true exactly when all 16 bytes of the id are 0xFF |
| Einj.CopyComponents | drivers/acpi/apei/einj-core.c:564-573 | copies the components in order, stopping before the first end-of-list id or at max_nr_components; every copied id is a real component |
| Einj.Timedout | drivers/acpi/apei/einj-core.c:236-246 | reports a timeout exactly when the budget, read as a signed value, is below one sleep unit; otherwise the budget shrinks by one unit |
| Einj.BusyPoll | drivers/acpi/apei/einj-core.c:619-628 | stops at the first busy check that fails (with its return code) or that reports not busy (with 0); every earlier check was busy; while the firmware stays busy it gives up with -EIO after 1000 sleeps, the one-second budget |
| Einj.CommandStatus | drivers/acpi/apei/einj-core.c:632-636 | the command status is accepted exactly when it is neither FAIL nor INVAL |
| Einj.FillV5Param | drivers/acpi/apei/einj-core.c:539-600 | the ACPI 5 parameter block gets the type; with the vendor bit the vendor flags pick the field that takes param1 (and param2 for memory); explicit flags take the address and mask and, in EINJv2 mode, the component list up to its end marker, or else the APIC id and SBDF from param3 and param4; with neither, the type's group picks apicid, memory address or SBDF and its flag; other types change nothing else |
| Einj.ErrorInjectCheck | drivers/acpi/apei/einj-core.c:659-722 | the checks inject, or refuse with -EINVAL, or with -EADDRINUSE only when the parameters are in use and the masked address is the zero page; in EINJv2 mode a type the firmware does not list is refused |
| Einj.UnknownFlagsRejected | drivers/acpi/apei/einj-core.c:664-666 | flags with a bit outside the four SETWA flags, i.e. flags of 16 or more, are refused with -EINVAL |
| Einj.UnavailableV2Rejected | drivers/acpi/apei/einj-core.c:669-672 | in EINJv2 mode a type sharing no bit with the v2 available types is refused |
| Einj.CxlMemoryRejected | drivers/acpi/apei/einj-core.c:695-741 | once the parameters are in use, a CXL memory injection is refused by einj_error_inject and accepted by einj_cxl_rch_error_inject |
| Einj.CoarseMaskRejected | drivers/acpi/apei/einj-core.c:704-715 | a memory injection whose address mask has any of bits 12 to 63 clear is refused with -EINVAL |
| Einj.NoParamsNoMemoryChecks | drivers/acpi/apei/einj-core.c:679-680 | without the parameter extension or ACPI 5, legal flags and an available type go straight to injection |
| Einj.CxlRchCheck | drivers/acpi/apei/einj-core.c:728-741 | einj_cxl_rch_error_inject proceeds exactly for a CXL error type with the memory flag |
| Einj.ErrorInjectSetFlags | drivers/acpi/apei/einj-core.c:867-879 | the write fails, with -EINVAL, exactly when no error type is chosen |
| Einj.ErrorInjectSetFlagsBits | drivers/acpi/apei/einj-core.c:867-879 | with an error type chosen, the EINJv2 flag bit follows the v2 mode and every other flag bit is kept |
| GpioDavinci.GpioMask | drivers/gpio/gpio-davinci.c:66-69 | a pin's mask is the single bit of its position within its 32-pin register set |
| GpioDavinci.FirstIrqError | drivers/gpio/gpio-davinci.c:194-198 | an error is returned exactly when one of the first nirq platform IRQs is negative, and the returned value is negative |
| GpioDavinci.ProbeCheck | drivers/gpio/gpio-davinci.c:160-221 | ngpio 0 is -EINVAL and every failure is negative; a success has at most MAX_INT_PER_BANK IRQs, the unbanked count or the u32 DIV_ROUND_UP of ngpio by 16, the u32 DIV_ROUND_UP of ngpio by 32 banks, and every IRQ it reads is valid |
| GpioDavinci.ProbeAcceptsTooManyBanks | drivers/gpio/gpio-davinci.c:160-221 | probe as written accepts ngpio 200 with no unbanked pins (13 IRQs) and computes 7 register sets, more than the 5 of regs[] and offset_array[] |
| GpioDavinci.DivRoundUpU32 | drivers/gpio/gpio-davinci.c:176-179 | DIV_ROUND_UP on a u32: the exact ceiling when n + d - 1 fits in 32 bits, otherwise the quotient of the wrapped sum |
| GpioDavinci.ProbeWrapsToNoBanks | drivers/gpio/gpio-davinci.c:160-221 | probe as written accepts ngpio 0xFFFFFFFF with no unbanked pins: the wrapped DIV_ROUND_UP gives 0 IRQs and 0 register sets |
| GpioDavinci.ProbeCheckAsWrittenMeaning | drivers/gpio/gpio-davinci.c:160-221 | probe as written succeeds exactly when ngpio is nonzero, the wrapped IRQ count is at most 32 and those platform IRQs are valid; for ngpio above 0xFFFFFFF0 the banked IRQ count wraps to 0 |
| GpioDavinci.ProbeCheckBounded | drivers/gpio/gpio-davinci.c:160-221 | a probe that succeeds has between 1 and 5 register sets, ceil(ngpio / 32) of them, and at most 32 IRQs; it succeeds exactly when the probe as written does and ngpio is at most 160, and then agrees with it |
| GpioDavinci.ProbeCheckMeaning | drivers/gpio/gpio-davinci.c:160-221 | the bounded probe succeeds exactly when ngpio is nonzero and at most 160 (so no u32 wrap occurs), the IRQ count (unbanked pins, or one per 16 pins) is at most 32, and those platform IRQs are all valid; it then has ceil(ngpio / 32) register sets |
| GpioDavinci.Acked | drivers/gpio/gpio-davinci.c:325 | writing the status back clears it from the bank's half and leaves every other bit of INTSTAT as it was |
| GpioDavinci.ClearFfs | drivers/gpio/gpio-davinci.c:330-331 | `status &= ~BIT(__ffs(status))` removes exactly the lowest set bit |
| GpioDavinci.OffsetsOfBits | drivers/gpio/gpio-davinci.c:329-338 | the demux loop dispatches exactly the set bits of the status above base, each once, in increasing order |
| GpioDavinci.OneRound | drivers/gpio/gpio-davinci.c:297-342 | with nothing new arriving the handler dispatches each set bit of its half once, in increasing order, clears its half of INTSTAT and leaves the other half unchanged |
| GpioDavinci.BanksWritesMeaning | drivers/gpio/gpio-davinci.c:613-624 | restore_context writes a register back exactly when its saved value differs from its current one |
| GpioDavinci.RestoreAfterSave | drivers/gpio/gpio-davinci.c:576-625 | restoring right after saving writes nothing |
| GpioDavinci.Controller.constructor | drivers/gpio/gpio-davinci.c:194-221 | the controller a successful probe leaves holds ngpio, the unbanked count, the register sets and the first nirq platform IRQs followed by zeros |
| GpioDavinci.Controller.Direction | drivers/gpio/gpio-davinci.c:76-110 | for output the pin's dir bit is cleared after its mask goes to set_data (value nonzero) or clr_data; for input the dir bit is set; other register sets are untouched and the result is 0 |
| GpioDavinci.Controller.Get | drivers/gpio/gpio-davinci.c:119-128 | 1 exactly when the pin's in_data bit is set |
| GpioDavinci.Controller.Set | drivers/gpio/gpio-davinci.c:134-146 | the pin's mask goes to set_data for a nonzero value and to clr_data otherwise; nothing else changes and the result is 0 |
| GpioDavinci.Controller.IrqSetup | drivers/gpio/gpio-davinci.c:503-571 | with unbanked pins BINTEN is GENMASK(unbanked / 16, 0) and register set 0 triggers on both edges; otherwise BINTEN has one bit per 16 pins and every register set starts with both edges disabled |
| GpioDavinci.Controller.IrqSetupBanked | drivers/gpio/gpio-davinci.c:531-571 | the banked branch: every register set starts with both edges disabled and BINTEN gets one bit per 16-pin bank |
| GpioDavinci.BankedIrqSetup | drivers/gpio/gpio-davinci.c:535-564 | the loop over 16-pin banks clears both edge triggers of every register set and leaves the enable mask GENMASK(DIV_ROUND_UP(ngpio, 16) - 1, 0) |
| GpioDavinci.Controller.IrqHandler | drivers/gpio/gpio-davinci.c:297-342 | the dispatched hardware IRQs and the final INTSTAT are those of the handler's rounds over the arrivals; no other register set changes |
| GpioDavinci.Controller.HandlerLoop | drivers/gpio/gpio-davinci.c:316-339 | the read, ack and demux rounds on one INTSTAT value dispatch what the handler's rounds dispatch and end with their final INTSTAT |
| GpioDavinci.Controller.DispatchBits | drivers/gpio/gpio-davinci.c:329-338 | the demux loop yields base + bit for each set bit of the status, lowest first |
| GpioDavinci.Controller.IrqMask | drivers/gpio/gpio-davinci.c:247-258 | both edges of the pin are disabled in its register set and nothing else changes |
| GpioDavinci.Controller.IrqUnmask | drivers/gpio/gpio-davinci.c:260-278 | the trigger's edges are enabled for the pin (both when the trigger names none); nothing else changes |
| GpioDavinci.UnmaskEdges | drivers/gpio/gpio-davinci.c:270-272 | a trigger with no edge bit enables both edges |
| GpioDavinci.UnmaskEnablesAnEdge | drivers/gpio/gpio-davinci.c:260-278 | unmask always enables the pin on at least one edge |
| GpioDavinci.IrqType | drivers/gpio/gpio-davinci.c:280-286 | the banked set_type accepts exactly the edge triggers and otherwise returns -EINVAL |
| GpioDavinci.Controller.ToIrqUnbanked | drivers/gpio/gpio-davinci.c:354-366 | an unbanked pin maps to its direct IRQ, and any other offset gives -ENODEV |
| GpioDavinci.Controller.IrqTypeUnbanked | drivers/gpio/gpio-davinci.c:368-394 | an IRQ that is not one of the controller's, or a trigger with non-edge bits, returns -EINVAL with no change; otherwise the first pin with that IRQ has its falling and rising edges set or cleared in register set 0 as the trigger says |
| GpioDavinci.Controller.SaveContext | drivers/gpio/gpio-davinci.c:576-598 | BINTEN and each register set's dir, set_data, set_rising and set_falling are saved; as written, only the last register set's INTSTAT is cleared |
| GpioDavinci.SaveLeavesStatus | drivers/gpio/gpio-davinci.c:587-597 | with two register sets pending an interrupt, save_context as written leaves the first one pending, while clearing every set would not |
| GpioDavinci.Controller.SaveContextClearingAll | drivers/gpio/gpio-davinci.c:596-597 | saves the same context and clears every register set's INTSTAT, as the comment says |
| GpioDavinci.Controller.RestoreContext | drivers/gpio/gpio-davinci.c:600-625 | BINTEN and the four saved registers of every set hold their saved values afterwards; the writes made are BINTEN when it differed and each register that differed, in order |
| GpioDavinci.RestoreBank | drivers/gpio/gpio-davinci.c:613-624 | one register set gets its saved registers back, and the writes listed are those that differed |
| GpioDavinci.RestoreBanks | drivers/gpio/gpio-davinci.c:612-624 | every register set gets its saved registers back, and the writes made are those that differed, set by set in order |
| Hmm.SearchInRange | drivers/staging/media/atomisp/pci/hmm/hmm.c:220 | returns an object whose ISP range holds the address, with no earlier one holding it, and None exactly when no object holds it (hmm_bo.c is not part of this model) |
| Hmm.CheckBo | drivers/staging/media/atomisp/pci/hmm/hmm.c:146-168 | 0 exactly when an object was found and it has both its pages and its ISP address range; otherwise -EINVAL |
| Hmm.ChunkLen | drivers/staging/media/atomisp/pci/hmm/hmm.c:191-197 | a chunk is the rest of the page or what is left of the request, whichever is smaller, and at least one byte while anything is left |
| Hmm.ChunksTile | drivers/staging/media/atomisp/pci/hmm/hmm.c:185-209 | the chunks the copy loops visit stay within their pages, each starts where the previous one ended, and their lengths add up to the request |
| Hmm.LoadSpec | drivers/staging/media/atomisp/pci/hmm/hmm.c:171-212 | the n bytes read are the object's bytes from the offset, in order |
| Hmm.StoreSpec | drivers/staging/media/atomisp/pci/hmm/hmm.c:272-352 | a store keeps the page count and the page size |
| Hmm.StoreNothing | drivers/staging/media/atomisp/pci/hmm/hmm.c:272-352 | storing zero bytes changes nothing |
| Hmm.StoreBytes | drivers/staging/media/atomisp/pci/hmm/hmm.c:272-352 | after a store a byte holds the stored byte inside the range and its old value outside it |
| Hmm.StoreThenLoad | drivers/staging/media/atomisp/pci/hmm/hmm.c:250-352 | loading the range just stored returns the stored bytes |
| Hmm.SetThenLoad | drivers/staging/media/atomisp/pci/hmm/hmm.c:355-412 | after hmm_set every byte of the range reads back as c converted to unsigned char |
| Hmm.StoreTwice | drivers/staging/media/atomisp/pci/hmm/hmm.c:272-352 | storing the same bytes twice leaves the same object as storing them once, which is why the mapped store falling through to the page loop is harmless |
| Hmm.StoreKeepsOutside | drivers/staging/media/atomisp/pci/hmm/hmm.c:272-352 | a store leaves every range it does not overlap as it was |
| Hmm.FlushOfMappedCopiesToNull | drivers/staging/media/atomisp/pci/hmm/hmm.c:225-229 | flushing one byte of a mapped object, as written, copies into the NULL buffer hmm_flush passes |
| Hmm.MappedLoadAsWritten | drivers/staging/media/atomisp/pci/hmm/hmm.c:225-244 | the mapped copy as written faults exactly when there is no buffer and the length is nonzero; with a buffer it delivers exactly bytes bytes |
| Hmm.MappedLoad | drivers/staging/media/atomisp/pci/hmm/hmm.c:225-244 | with a buffer the mapped copy returns the object's bytes from the offset; with none it copies nothing |
| Hmm.MappedLoadAgrees | drivers/staging/media/atomisp/pci/hmm/hmm.c:225-244 | the corrected mapped load gives the same bytes as the one as written wherever that one does not fault, and that one faults exactly when there is no buffer and the length is nonzero |
| Hmm.PagesFor | drivers/staging/media/atomisp/pci/hmm/hmm.c:78 | size_to_pgnr_ceil gives the fewest pages that hold the size |
| Hmm.Device.constructor | drivers/staging/media/atomisp/pci/hmm/hmm.c:67-113 | the device starts with no buffer objects |
| Hmm.Device.LoadAndFlushByKmap | drivers/staging/media/atomisp/pci/hmm/hmm.c:171-212 | returns the check's result; on success the buffer receives the object's bytes from the offset, page chunk by page chunk, or nothing when there is no buffer |
| Hmm.KmapLoad | drivers/staging/media/atomisp/pci/hmm/hmm.c:185-209 | the page-chunk loop yields exactly the object's bytes from the offset with a buffer, and nothing without one |
| Hmm.Device.LoadAndFlush | drivers/staging/media/atomisp/pci/hmm/hmm.c:215-247 | returns the check's result and, on success, the same bytes whether the mapping or the kmap loop is used, nothing being copied when there is no buffer (the corrected mapped copy) |
| Hmm.Device.Load | drivers/staging/media/atomisp/pci/hmm/hmm.c:250-263 | a zero address or a missing buffer is -EINVAL before any lookup; otherwise the check's result and, on success, the object's bytes from the offset |
| Hmm.Device.Flush | drivers/staging/media/atomisp/pci/hmm/hmm.c:266-269 | the corrected flush: returns the check's result and copies nothing (as written, the mapped path copies into NULL; see Hmm.FlushOfMappedCopiesToNull) |
| Hmm.Device.StoreByKmap | drivers/staging/media/atomisp/pci/hmm/hmm.c:316-349 | the object's pages become the store of the data at the offset; no other object changes |
| Hmm.KmapStore | drivers/staging/media/atomisp/pci/hmm/hmm.c:317-349 | the page-chunk loop leaves the pages with the data written from the offset and every other byte as it was |
| Hmm.Device.Store | drivers/staging/media/atomisp/pci/hmm/hmm.c:272-352 | a zero address or missing data is -EINVAL with no change; otherwise the check's result, and on success exactly the data is written at the offset of the object that holds the address |
| Hmm.Device.Set | drivers/staging/media/atomisp/pci/hmm/hmm.c:355-412 | returns the check's result; on success the range of the object holding the address is filled with c converted to unsigned char and nothing else changes |
| Hmm.Device.SetByKmap | drivers/staging/media/atomisp/pci/hmm/hmm.c:388-409 | the object's pages become the fill of the range with c; no other object changes |
| Hmm.KmapSet | drivers/staging/media/atomisp/pci/hmm/hmm.c:388-409 | the page-chunk loop leaves the pages with c written over the range and every other byte as it was |
| Hmm.Device.VirtToPhys | drivers/staging/media/atomisp/pci/hmm/hmm.c:415-432 | with no object holding the address the result is (phys_addr_t)-1; otherwise it is the frame of the address's page times the page size plus its offset in the page |
| Hmm.Device.Alloc | drivers/staging/media/atomisp/pci/hmm/hmm.c:67-113 | on success the new object with the ceiling page count, its pages and its binding is added and its start returned; a failure at any step undoes the completed steps in reverse order, returns 0 and leaves the objects as they were |
| SysfsFile.BinRead | fs/sysfs/file.c:83-107 | an empty read, or a read at or past the end of a sized file, answers 0; with no read callback it answers -EIO; otherwise the callback is called at pos with a count clamped to what is left of the file, at least 1 and at most the request |
| SysfsFile.BinWrite | fs/sysfs/file.c:149-171 | a write at or past the end of a sized file is -EFBIG; an empty write within bounds answers 0; with no write callback it answers -EIO; otherwise the callback is called at pos with the count clamped in the same way |
| SysfsFile.EmptyAccessPastEnd | fs/sysfs/file.c:83-171 | an empty access past the end succeeds for a read and is -EFBIG for a write |
| SysfsFile.KfWrite | fs/sysfs/file.c:136-146 | an empty write succeeds without calling store; otherwise the result is store's |
| SysfsFile.SeqShow | fs/sysfs/file.c:46-81 | no show is -EINVAL; a buffer smaller than a page overflows; a failed show passes its error on; otherwise the committed bytes are a prefix of show's output, shorter than a page, and all of it when it is shorter than a page |
| SysfsFile.AfterShow | fs/sysfs/file.c:123 | show's output lies at the start of the buffer and the rest of the buffer is kept |
| SysfsFile.MovedDown | fs/sysfs/file.c:130 | the n bytes from pos are at the start of the buffer and the rest is kept |
| SysfsFile.KfReadReturnsTail | fs/sysfs/file.c:110-133 | a preallocated read at pos returns at most count bytes: the output from pos on, as much of it as fits, or nothing when pos is at or past its end |
| SysfsFile.KfRead | fs/sysfs/file.c:110-133 | a buffer other than the preallocated one gives 0 and no change; a failed show passes its error on with the buffer unchanged; otherwise the result and buffer are those KfReadReturnsTail describes |
| SysfsFile.WriteShown | fs/sysfs/file.c:123 | the buffer afterwards holds show's output at its start and its old bytes after it |
| SysfsFile.MemmoveDown | fs/sysfs/file.c:130 | the forward byte copy gives the same buffer as memmove for the overlapping downward move |
| SysfsFile.FileOpsMeaning | fs/sysfs/file.c:295-312 | a regular attribute's table shows through seq_file exactly when it has show and is not preallocated, reads through the buffer exactly when it has show and is preallocated, writes exactly when it has store, is marked preallocated exactly when SYSFS_PREALLOC is set and it has show or store, and never maps |
| SysfsFile.AddFileModeNs | fs/sysfs/file.c:279-327 | a kobject type without sysfs_ops is -EINVAL; a failure of the kernfs create is returned; on success the table is FileOps's choice and the mode is cut to its permission bits |
| SysfsFile.BinFileOps | fs/sysfs/file.c:338-353 | a binary attribute with both read and read_new, or both write and write_new, is -EINVAL |
| SysfsFile.BinFileOpsMeaning | fs/sysfs/file.c:344-353 | an accepted binary attribute's table reads exactly when it has a read callback or mmap, writes exactly when it has a write callback or mmap, maps exactly when it has mmap, and never shows through seq_file or preallocates |
| SysfsFile.EmitAt | fs/sysfs/file.c:790-804 | a missing or unaligned buffer or an offset outside the page returns 0 and stores nothing; otherwise as much of the text as fits before the NUL that ends the page is stored from at, followed by that NUL, and its length is returned |
| SysfsFile.Kobject.CreateFile | fs/sysfs/file.c:376-387 | a name already present is -EEXIST; otherwise the create's outcome; the name is added exactly when the result is 0 |
| SysfsFile.Kobject.RemoveFile | fs/sysfs/file.c:519-525 | the name is no longer present and nothing else changes |
| SysfsFile.Kobject.CreateFiles | fs/sysfs/file.c:390-401 | with no failure every name is created and 0 returned; otherwise the first failure's error is returned and the rollback, as written, removes the failing entry's name as well as every name created before it |
| SysfsFile.CreatedWereAbsent | fs/sysfs/file.c:395-396 | the names created before the first failure were not present before |
| SysfsFile.UndoRestores | fs/sysfs/file.c:397-399 | undoing only the names that were created restores the directory exactly |
| SysfsFile.RollbackRemovesExisting | fs/sysfs/file.c:395-400 | with a file "a" present, sysfs_create_files of ["a"] fails with -EEXIST on it and its rollback leaves no files |
| SysfsFile.Kobject.CreateFilesUndoingCreated | fs/sysfs/file.c:390-401 | the same creates, with a rollback of only the created names: a failure leaves the directory as it was |
| Uaccess.FromUser | include/linux/uaccess.h:159-185 | after copy_from_user of n bytes the bytes that arrived are the user's, the n - res uncopied bytes after them are zero, and the kernel buffer past n is untouched |
| Uaccess.ToUser | include/linux/uaccess.h:190-199 | after copy_to_user the bytes that arrived are the kernel's, and the user buffer from the first uncopied byte on is untouched, with nothing zeroed |
| Uaccess.CopyPrefix | include/linux/uaccess.h:178 | the first n bytes of the array become the source's and the rest keep their values |
| Uaccess.ZeroFill | include/linux/uaccess.h:183 | the range is zeroed and every other byte keeps its value |
| Uaccess.CopyFromUser | include/linux/uaccess.h:159-185 | returns the number of bytes not copied, and the kernel buffer is FromUser's: the arrived bytes, then zeros up to n |
| Uaccess.CopyToUser | include/linux/uaccess.h:190-199 | returns the number of bytes not copied, and the user buffer is ToUser's |
| Uaccess.StructFromUser | include/linux/uaccess.h:384-406 | a ksize beyond the object is -E2BIG; a larger user struct whose extra bytes cannot be read is -EFAULT and one with a nonzero extra byte is -E2BIG, both with no change; success is exactly ksize within the object and a complete copy; a success copies the common part, zeroes the kernel's extra tail when the user struct is smaller, and leaves the object past ksize alone |
| Uaccess.CopyStructFromUser | include/linux/uaccess.h:384-406 | the error and the kernel object afterwards are StructFromUser's |
| Uaccess.IgnoredTrailingAsWritten | include/linux/uaccess.h:496-498 | the test as written is true exactly when usize exceeds ksize and some byte from ksize to usize, past the kernel object, is nonzero |
| Uaccess.IgnoredTrailing | include/linux/uaccess.h:409-470 | the flag is set exactly when the kernel struct has a nonzero byte beyond what the user struct can hold, as the comment above copy_struct_to_user describes |
| Uaccess.IgnoredTrailingMissed | include/linux/uaccess.h:496-498 | as written, src [0, 1] with ksize 2 and usize 1 has a nonzero byte the user cannot see, yet the flag is false |
| Uaccess.IgnoredTrailingReadsPastObject | include/linux/uaccess.h:496-498 | as written, with ksize 1 and usize 2 the test reads the byte after the one-byte kernel object and reports it |
| Uaccess.StructToUser | include/linux/uaccess.h:481-503 | a ksize beyond the object is -E2BIG with nothing written; success is exactly a complete clear of the user's extra tail and a complete copy; a success copies the common part, zeroes the user's extra tail and leaves the user buffer past usize alone; the flag is reported exactly when asked for and the clear succeeded, with IgnoredTrailing's meaning |
| Uaccess.CopyStructToUser | include/linux/uaccess.h:481-503 | the error, the reported flag and the user buffer afterwards are StructToUser's |
| Uaccess.Task.PagefaultDisabled | include/linux/uaccess.h:282-285 | the handler is reported disabled whenever the counter is positive and enabled when it is 0 |
| Uaccess.Task.constructor | include/linux/uaccess.h:282-285 | a new task has the counter at 0, so pagefault_disabled() is false |
| Uaccess.Task.PagefaultDisable | include/linux/uaccess.h:242-267 | the counter goes up by one and, from a non-negative count, pagefault_disabled() becomes true |
| Uaccess.Task.PagefaultEnable | include/linux/uaccess.h:247-277 | the counter goes down by one |
| Uaccess.AfterCalls | include/linux/uaccess.h:242-277 | after a sequence of calls the counter has moved up once per disable and down once per enable |
| Uaccess.BalancedRestores | include/linux/uaccess.h:252-285 | a sequence with as many enables as disables restores the counter, and with it pagefault_disabled() |
| Uaccess.FaulthandlerDisabled | include/linux/uaccess.h:297 | the fault handler is off exactly when the counter is nonzero or the context is atomic |
| Printk.GetLevel | include/linux/printk.h:21-31 | the result is nonzero exactly when the string starts with SOH followed by '0' to '7' or 'c', and then it is that character |
| Printk.SkipLevel | include/linux/printk.h:33-39 | a string that starts with a header loses exactly its first two characters; any other string is returned unchanged |
| Printk.HeadersLen | include/linux/printk.h:41-47 | the skip stays within the buffer and is a whole number of two-character headers |
| Printk.HeadersLenMeaning | include/linux/printk.h:41-47 | the prefix printk_skip_headers skips is a run of whole two-character headers, and what follows starts with none |
| Printk.HeadersLenMaximal | include/linux/printk.h:41-47 | every run of whole leading headers is at most as long as the skipped prefix, so the skip is the longest one |
| Printk.SkipHeadersIdempotent | include/linux/printk.h:41-47 | skipping headers a second time skips nothing, and a string without a leading header is not advanced |
| Printk.SkipHeaders | include/linux/printk.h:41-47 | the loop stops at the offset after the longest run of leading headers, with no header there |
| Mlx5Core.PrintkLevel | drivers/net/ethernet/mellanox/mlx5/core/mlx5_core.h:143-145 | a level in LOGLEVEL_EMERG..LOGLEVEL_DEBUG is kept, any other becomes LOGLEVEL_DEFAULT, so the result is always a valid level or the default |
| Mlx5Core.PrintkLevelIdempotent | drivers/net/ethernet/mellanox/mlx5/core/mlx5_core.h:143-145 | clamping a clamped level changes nothing |
| Mlx5Core.FlexibleInlen | drivers/net/ethernet/mellanox/mlx5/core/mlx5_core.h:186-211 | -ENOMEM exactly when an input exceeds INT_MAX or the product or sum leaves int; otherwise the exact fixed + item_size * num_items, within int |
| Mlx5Core.FlexibleInlenMonotone | drivers/net/ethernet/mellanox/mlx5/core/mlx5_core.h:186-211 | if a length for more items is accepted, the one for fewer items is accepted and no larger |
| Mlx5Core.EcSriovEnabled | drivers/net/ethernet/mellanox/mlx5/core/mlx5_core.h:475-478 | EC SR-IOV is on only for an ECPF with a base of at least 1, never with base 0, and then the base vport is EC VF function 1 |
| Mlx5Core.IsEcVfVport | drivers/net/ethernet/mellanox/mlx5/core/mlx5_core.h:480-489 | true exactly when EC SR-IOV is enabled (an ECPF with a nonzero base) and the vport lies in [base, base + max_ec_vfs) |
| Mlx5Core.VportToFuncId | drivers/net/ethernet/mellanox/mlx5/core/mlx5_core.h:491-495 | an EC VF vport's function id counts from 1 at the base vport; any other vport is its own id |
| Mlx5Core.EcVfFuncIds | drivers/net/ethernet/mellanox/mlx5/core/mlx5_core.h:480-495 | EC VF vports get function ids 1 to max_ec_vfs, and distinct vports distinct ids |
| Mlx5Core.MaxEqCap | drivers/net/ethernet/mellanox/mlx5/core/mlx5_core.h:497-506 | max_num_eqs_24b when nonzero, else max_num_eqs when nonzero, else 1 << log_max_eq; always at least one EQ |
| S390Ptrace.WithFlag | arch/s390/include/asm/ptrace.h:181-184 | the flag bit becomes 1 and every other bit of flags is unchanged |
| S390Ptrace.WithoutFlag | arch/s390/include/asm/ptrace.h:186-189 | the flag bit becomes 0 and every other bit of flags is unchanged |
| S390Ptrace.FlagTest | arch/s390/include/asm/ptrace.h:191-194 | 1 when bit flag of flags is set, else 0 |
| S390Ptrace.FlagsIndependent | arch/s390/include/asm/ptrace.h:181-194 | setting or clearing one flag never changes the test of another |
| S390Ptrace.SetClearInverse | arch/s390/include/asm/ptrace.h:181-189 | clearing a flag that setting turned on restores flags, and setting a flag that clearing turned off restores them |
| S390Ptrace.PtRegs.constructor | arch/s390/include/asm/ptrace.h:117 | the registers and flags start as given, with NUM_GPRS general registers |
| S390Ptrace.PtRegs.SetFlag | arch/s390/include/asm/ptrace.h:181-184 | flags gains the bit, the registers are untouched, and the flag then tests 1 |
| S390Ptrace.PtRegs.ClearFlag | arch/s390/include/asm/ptrace.h:186-189 | flags loses the bit, the registers are untouched, and the flag then tests 0 |
| S390Ptrace.PtRegs.TestFlag | arch/s390/include/asm/ptrace.h:191-194 | the value of bit flag of the saved flags |
| S390Ptrace.PtRegs.TestAndClearFlag | arch/s390/include/asm/ptrace.h:196-202 | returns the flag's value before the call and leaves the flag clear, the other bits and registers untouched |
| S390Ptrace.PtRegs.ReturnValue | arch/s390/include/asm/ptrace.h:219-222 | gprs[2] read as a long: a value in the signed 64-bit range with the same bit pattern |
| S390Ptrace.PtRegs.SetReturnValue | arch/s390/include/asm/ptrace.h:290-293 | only gprs[2] changes, to rc, so regs_return_value then gives rc read as a long |
| S390Ptrace.GetRegister | arch/s390/include/asm/ptrace.h:238-243 | the register at offset for offset below NUM_GPRS, and 0 past the last register |
| S390Ptrace.KernelStackPointer | arch/s390/include/asm/ptrace.h:233-236 | the kernel stack pointer is general register 15 as regs_get_register reads it |
| S390Ptrace.WithinKernelStack | arch/s390/include/asm/ptrace.h:245-250 | true exactly when addr and the stack pointer lie in the same THREAD_SIZE-aligned block |
| S390Ptrace.GetKernelStackNth | arch/s390/include/asm/ptrace.h:261-269 | the word n longs above the stack pointer (64-bit wrapped address) when it is in the stack's block, else 0 |
| S390Ptrace.GetKernelArgument | arch/s390/include/asm/ptrace.h:278-288 | arguments 0 to 4 come from r2 to r6; later ones from stack slot STACK_FRAME_OVERHEAD / 8 + (n - 5), in unsigned int arithmetic |
| S390Ptrace.StackArgument | arch/s390/include/asm/ptrace.h:278-288 | a stack argument n is the word at stack pointer + (20 + n - 5) * 8 when that address is in the stack block, else 0 |
| PerfExpr.Hash | tools/perf/util/expr.c:48-59 | the hash is a size_t value |
| PerfExpr.HashIsPoly | tools/perf/util/expr.c:48-59 | wrapping at each step of h = h * 31 + c gives the polynomial sum of the characters times powers of 31, reduced once modulo 2^64 |
| PerfExpr.KeyHash | tools/perf/util/expr.c:48-59 | the loop computes the hash of the whole string |
| PerfExpr.EqualKeysHashAlike | tools/perf/util/expr.c:61-64 | keys that key_equal calls equal are the same string and hash alike, as the hashmap requires |
| PerfExpr.DataValue | tools/perf/util/expr.c:382-388 | the double of a VALUE or resolved REF entry; an unresolved REF is outside its domain, where the source asserts |
| PerfExpr.DataSourceCount | tools/perf/util/expr.c:390-394 | the source count of a VALUE entry, the only kind it is defined for |
| PerfExpr.IdMap.constructor | tools/perf/util/expr.c:66-74 | a new id table is empty |
| PerfExpr.IdMap.Insert | tools/perf/util/expr.c:92-104 | on success the id is present with NULL data and everything else is as before; on a hashmap__set failure the table is unchanged and the error returned |
| PerfExpr.IdMap.AddIdValSourceCount | tools/perf/util/expr.c:154-178 | -ENOMEM and no change when allocation fails; otherwise the id holds a VALUE summed with the data it replaces, or the table is unchanged on a set failure |
| PerfExpr.IdMap.AddIdVal | tools/perf/util/expr.c:148-151 | the same as adding with source count 1 |
| PerfExpr.IdMap.AddRef | tools/perf/util/expr.c:180-217 | -ENOMEM and no change when an allocation or the name copy fails; otherwise the metric name holds an unresolved REF of that expression, replacing any old entry |
| PerfExpr.IdMap.ResolveId | tools/perf/util/expr.c:242-278 | -1 and no change for a missing id or NULL data; a VALUE or resolved REF is returned as is; an unresolved REF becomes REF_VALUE, with the parsed value on success and -1 on a parse failure |
| PerfExpr.IdMap.SetAll | tools/perf/util/expr.c:126-136 | the loop either fails, when a set fails on a non-empty source, or leaves the union of both tables with the source's data winning on shared keys |
| PerfExpr.IdMap.DelId | tools/perf/util/expr.c:280-288 | exactly the id's entry is removed |
| PerfExpr.IdMap.Clear | tools/perf/util/expr.c:307-317 | the table becomes empty |
| PerfExpr.IdMap.FindIds | tools/perf/util/expr.c:371-380 | the parser's result is returned; every found id has been entered with NULL data, other entries kept, and then the one excluded id removed |
| PerfExpr.MergedAll | tools/perf/util/expr.c:126-136 | once no entry of the source is pending, the table is the start with the source laid over it |
| PerfExpr.Summed | tools/perf/util/expr.c:168-174 | a fresh or NULL entry takes the new value; an old VALUE entry adds its value and source count to the new ones |
| PerfExpr.AddTwiceSums | tools/perf/util/expr.c:154-178 | adding two values to a fresh id leaves their sum and the sum of their source counts |
| PerfExpr.WithIds | tools/perf/util/expr.c:142-145 | every id of the set is present with NULL data, every other entry keeps its data, and no other key appears |
| PerfExpr.GetId | tools/perf/util/expr.c:219-225 | -1 exactly for a NULL table, a NULL id or an absent key; otherwise the entry's data |
| PerfExpr.SubsetOfIds | tools/perf/util/expr.c:227-239 | true exactly when the haystack is non-NULL and holds every key of the needles, or when the haystack is NULL and the needles are empty |
| PerfExpr.IdsUnion | tools/perf/util/expr.c:106-139 | a NULL side yields the other; otherwise the larger table receives the smaller's entries and holds the union of both key sets, or NULL is returned when a set fails |

Where the code and its own documentation disagree, or the code is evidently wrong, the main member models the corrected behaviour and a separate member models the code as written, with a lemma that shows the difference. This is so for `Uaccess.CopyStructToUser` (as written: `Uaccess.IgnoredTrailingAsWritten`), `Hmm.Device.LoadAndFlush` and `Hmm.Device.Flush` (as written: `Hmm.FlushOfMappedCopiesToNull`), and the other rows of "## Findings". `copy_struct_to_user` is one case. Its doc comment says `*ignored_trailing` is set when the kernel struct is larger than the user's and its tail is nonzero. The code at `include/linux/uaccess.h:497-498` tests `ksize < usize` instead. `Uaccess.IgnoredTrailingAsWritten` models that test. `Uaccess.CopyStructToUser` uses the documented one, `Uaccess.IgnoredTrailing`.

The event bound in vhost-scsi is another borderline case. `vhost_scsi_allocate_evt` refuses only when `vs_events_nr > VHOST_SCSI_MAX_EVT`, so up to 129 events can be outstanding. The model keeps that `>` test and proves the bound of 129.

## Findings

| source | as written | input that shows it | evidently intended | confidence | as-written member | corrected member |
|---|---|---|---|---|---|---|
| drivers/gpio/gpio-davinci.c:219-221 | probe bounds nirq but never nbank, although `regs[]` and `offset_array[]` have MAX_REGS_BANKS (5) entries | ngpio 200 and no unbanked lines give nbank 7; with the u32 wrap of DIV_ROUND_UP, ngpio 0xFFFFFFFF gives nirq 0 and nbank 0 (ProbeWrapsToNoBanks), so nbank can even be 0 | reject an ngpio above 32 * MAX_REGS_BANKS (160), so nbank never exceeds 5 | not executed | GpioDavinci.ProbeAcceptsTooManyBanks | GpioDavinci.ProbeCheckBounded |
| drivers/gpio/gpio-davinci.c:596-597 | save_context writes INTSTAT once, after the bank loop, through the last bank's register pointer, though the comment says all interrupt status is cleared | two register sets, each with intstat 1: the first keeps its 1 | clear INTSTAT in every register set | not executed | GpioDavinci.SaveLeavesStatus | GpioDavinci.Controller.SaveContextClearingAll |
| drivers/staging/media/atomisp/pci/hmm/hmm.c:225-229 | hmm_flush passes a NULL data pointer, and load_and_flush on a vmapped object memcpy's into it before flushing | a one-page mapped object and hmm_flush with bytes 1 | skip the memcpy when data is NULL, as the kmap path does | not executed | Hmm.FlushOfMappedCopiesToNull | Hmm.MappedLoadAgrees |
| fs/sysfs/file.c:395-400 | the rollback loop starts at the index that failed, so on -EEXIST it removes the attribute that already existed | files {"a"} and attributes ["a"] leave no files | remove only the files this call created, those before the failing index | not executed | SysfsFile.RollbackRemovesExisting | SysfsFile.UndoRestores |
| include/linux/uaccess.h:497-498 | ignored_trailing tests `ksize < usize`, the reverse of its documented condition | src [0, 1], ksize 2, usize 1 misses a nonzero tail; ksize 1, usize 2 reads byte 1 of a 1-byte object | set ignored_trailing when `ksize > usize` and src[usize, ksize) has a nonzero byte | not executed | Uaccess.IgnoredTrailingReadsPastObject | Uaccess.IgnoredTrailing |

## Left out

- Concurrency: work queues, the lock-free completion and event lists, mutexes, spinlocks, RCU and atomic reference counts. Each operation is modelled by its sequential effect.
- vhost-scsi plumbing: guest-page pinning and iov copying, the vring interface and target-core submission. What they report (sizes, copy results, descriptor heads) is a parameter.
- VhostScsi.ScsiVirtqueue.FindFreeTag: sbitmap_get (drivers/vhost/scsi.c:753) starts its search at a per-CPU hint and may return any free tag. The model fixes that choice to the lowest free tag, so its lowest-first ensures is a property of the model, not of the source.
- VhostScsi.ScsiVirtqueue.Flush: modelled on one virtqueue at a time. A loop over a sequence of queue objects exceeded the verifier's resource budget.
- KSM page machinery: the stable and unstable tree walks keyed on page content, page-table and folio changes, the ksmd thread and mmap locking.
- Ksm: the advisor's products wrap as unsigned long, and pages_to_scan * 100 as unsigned int, as in C. The model states the quotient bounds only when a product does not wrap. The two CPU caps are proved never to wrap.
- Ksm.KsmState.RemoveRmapItemFromTree: ksm_get_folio, with its folio lock and reference, is the parameter `live` (the stable nodes whose folio is found). The unstable tree's rb_erase, the seqnr age test with its BUG_ON, the VM_BUG_ON on rmap_hlist_len, put_anon_vma and cond_resched are not modelled. The page counters are unbounded integers, so they are not unsigned long.
- Ksm.KsmState.RemoveRmapItemFromTree: the stale-node cleanup is not modelled. When ksm_get_folio finds a stable node's folio gone (mm/ksm.c:950-960) it calls remove_node_from_stable_tree (821-857) before remove_rmap_item_from_tree returns at `if (!folio) goto out` (975-976). For a node of k items that cleanup drops ksm_pages_shared by one and ksm_pages_sharing by k-1, takes one ksm_merging_page from each item's mm, clears STABLE_FLAG in each item's address and frees the node. The model changes nothing for an item whose node is outside `live`.
- Ksm.RemovedFromTree: inherits the unmodelled stale-node cleanup of RemoveRmapItemFromTree. For a stable item whose folio is gone it keeps the counters, the link and the node unchanged.
- Ksm.RemovedCounts: inherits the unmodelled stale-node cleanup of RemoveRmapItemFromTree. For a stable item whose folio is gone it states that no counter drops. The source drops shared plus sharing by the node's hlist length and merging once per item.
- Ksm.Unlinked: inherits the unmodelled stale-node cleanup of RemoveRmapItemFromTree. A stable item whose folio is gone keeps its link; the source clears its STABLE_FLAG.
- Ksm.HookFoldAfter: inherits the unmodelled stale-node cleanup of RemoveRmapItemFromTree. The fold keeps a stale node and its items intact; the source frees the node and unhooks all its items.
- Ksm.KsmState.RemoveItemsFromTree: inherits the unmodelled stale-node cleanup of RemoveRmapItemFromTree for every item of the run whose node is stale. This includes an item whose node another item of the run met first: that cleanup would already have unhooked it.
- Ksm.KsmState.LeaveTrees: inherits the unmodelled stale-node cleanup of RemoveRmapItemFromTree through RemoveItemsFromTree.
- Ksm.KsmState.RemoveRun: inherits the unmodelled stale-node cleanup of RemoveRmapItemFromTree through LeaveTrees.
- Ksm.KsmState.GetNextRmapItem: inherits the unmodelled stale-node cleanup of RemoveRmapItemFromTree through RemoveRun for the passed items.
- Ksm.KsmState.RemoveTrailingRmapItems: inherits the unmodelled stale-node cleanup of RemoveRmapItemFromTree through RemoveItemsFromTree for the freed items.
- Ksm.KsmState.ShouldSkipRmapItem: inherits the unmodelled stale-node cleanup of RemoveRmapItemFromTree for a skipped item whose node is stale.
- Ksm.KsmState.RemoveItemsFromTree: the split between ksm_pages_shared and ksm_pages_sharing is stated exactly only by RemovedFromTree for a single item. Over a run, RemovedAll states only their sum.
- Ksm.KsmState.GetNextRmapItem: the source unlinks, removes and frees each passed item in turn. The model first finds the run (PassedRun), then removes the run from its trees, then unlinks it at once (RemoveRun). This ends in the same state, because the list links and the trees are apart.
- Ksm.KsmState.GetNextRmapItem: the ghost parameters s, c0 and m0 name the items' links, the counters and the reached nodes on entry. RemoveTrailingRmapItems, RemoveRun and LeaveTrees take the same snapshot.
- Ksm.KsmState.ShouldSkipRmapItem: it states the removed item's own node and the counters, not the other nodes of the tree (its snapshot of nodes is empty).
- PCI resource flags are sets of flag names, not bit masks. Bit operations on 64-bit vectors made the quantified proofs exceed the resource budget.
- PCI constants: the IORESOURCE_*, PCI_CLASS_* and PCI_COMMAND_* values and the I/O range masks come from kernel headers outside this model. They are named constants here.
- PCI: config-space writes are the values that would be written. Real resource assignment and release are parameters. The CONFIG_ISA alias fold in calculate_iosize is left out.
- iavf: virtchnl.h constants and structure sizes are fields of a MsgLayout parameter. That header is not part of this model.
- iavf: iavf_promiscuous_mode_changed and iavf_get_num_vlans_added are parameters. The message buffers' kzalloc failures are not modelled, including the -ENOMEM path of verify_api_ver. The admin-queue transport, netdev calls and logging are out as well.
- IavfVirtchnl.CompleteGetVfResources: the copy and parsing of vf_res (iavf_vf_parse_hw_config, iavf_parse_vf_resource_msg) and the MAC address refresh are out; the reply's queue counts are the PfReply fields.
- IavfVirtchnl.CompleteGetVfResources: iavf_add_filter(adapter->hw.mac.addr) at iavf_virtchnl.c:2621 is not modelled, so the MAC filter list is left unchanged.
- IavfVirtchnl.CompleteGetVfResources: when VLAN V2 is not negotiated the case falls through into the GET_OFFLOAD_VLAN_V2_CAPS handling (iavf_virtchnl.c:2655-2712), which re-adds every MAC filter and the VLAN filters; that fall-through is not modelled.
- IavfVirtchnl.VirtchnlCompletion: the length checks of GET_SUPPORTED_RXDIDS and 1588_PTP_GET_CAPS are the flag PfReply.payloadSizeOk; supp_rxdids and the PTP capabilities themselves are not stored. The other opcodes' effects on statistics, RSS, queues and link state are out.
- VhostScsi.ScsiVirtqueue.HandleOne: vhost_scsi_copy_cmd_log is its return code, Request.logRet; the log entries it copies are not modelled.
- PciSetupBus.AlignUp: the exact ceiling to a multiple of a. The kernel's ALIGN is the mask formula ((x + a - 1) & ~(a - 1)), which agrees with it for power-of-two a, and its u64 wrap-around for x near 2^64 is not modelled.
- PciSetupBus.AvailWindow.RemoveDevResource: resource_size_t sums are unbounded here. The u64 wrap of start + align + size and of end + 1 is not modelled, so a window ending at the top of the address space is not covered.
- Einj: the error-type bits and ACPI table sizes come from actbl1.h, which is not part of this model. They are named constants here.
- Einj: each two-character pair goes through kstrtol(…, 16), modelled as HexPair, which accepts exactly two hex digits. Pairs that kstrtol accepts and HexPair rejects are not modelled: "-5" (kstrtol gives -5, stored as the byte 0xFB), "+5" (5) and "5\n" (5). So U128Write returns -EINVAL for some lines that the source stores.
- Einj plumbing: the ACPI interpreter (apei_exec_run), firmware memory, region_intersects, is_zero_pfn and debugfs are parameters. Sleeping is out.
- Rt712: the constants of rt712-sdca.h, sdw_registers.h and jack.h are symbolic. The rate codes are a parameter. Register reads never fail in the model; only writes can fail.
- Rt712: the mux controls, the DMIC (FU1E) controls, btn_check_handler, the calibration poll and io_init are left out. So are DAPM routing, pm_runtime and the scheduling of the jack and button work.
- GpioDavinci: registers are plain storage, except INTSTAT, where writing ones clears bits. Clock, irq-domain and platform-device failures in probe and irq setup are out.
- Hmm: the buffer-object allocator and vmap (hmm_bo.c) are not part of this model. search_in_range is the first object containing the address. Whether vmap succeeds is the parameter vmapOk.
- Hmm: PAGE_SIZE is 4096. asm/page.h is not part of this model.
- Hmm: the kmap failure check at hmm.c:323-327 is out, because kmap_local_page never returns NULL. hmm_init, hmm_free, hmm_mmap and cache flushing are out as well.
- Hmm.Device.LoadAndFlushByKmap: requires [virt, virt + bytes) to lie inside the object that holds virt. The driver's callers guarantee this; the source never checks it.
- Hmm.Device.LoadAndFlush: requires [virt, virt + bytes) to lie inside the object that holds virt. The driver's callers guarantee this; the source never checks it.
- Hmm.Device.Load: requires [virt, virt + bytes) to lie inside the object that holds virt. The driver's callers guarantee this; the source never checks it.
- Hmm.Device.Flush: requires [virt, virt + bytes) to lie inside the object that holds virt. The driver's callers guarantee this; the source never checks it.
- Hmm.Device.Store: requires [virt, virt + bytes) to lie inside the object that holds virt. The driver's callers guarantee this; the source never checks it.
- Hmm.Device.Set: requires [virt, virt + bytes) to lie inside the object that holds virt. The driver's callers guarantee this; the source never checks it.
- SysfsFile: kernfs node management, seq_file internals, sysfs_notify, chmod and attribute groups are out. Attribute callbacks and __kernfs_create_file results are parameters.
- SysfsFile.EmitAt: the vscnprintf formatting is an input text. The model states only the bounds and the copy.
- SysfsFile: SYSFS_PREALLOC (bit 12) comes from include/linux/sysfs.h, which is not part of this model. EEXIST is defined locally.
- SysfsFile: the -EINVAL of sysfs_create_file_ns for a NULL kobject or attribute is out. References cannot be NULL in the model.
- Uaccess: the architecture copy primitives, instrumentation, should_fail_usercopy, access_ok and check_zeroed_user are counts of bytes not copied, or results given as parameters.
- Uaccess: the NULL ignored_trailing pointer is modelled as the flag wantIgnored. The compiler barriers around the pagefault counter are out.
- Printk: KERN_SOH_ASCII comes from kern_levels.h, which is not part of this model. It is the constant '\001' here.
- PerfExpr: doubles are exact reals, so IEEE rounding is not modelled. The parser, malloc, strdup and hashmap__set outcomes are parameters (parsed, parseRet, allocOk, dupOk, setErr, setOk).
- PerfExpr: memory freeing is not modelled, including the freeing of the smaller map in ids__union. Keys are sequences of chars, so the sign of a non-ASCII char in key_hash is out.
- Mlx5Core: the capability values are a record, not the MLX5_CAP_* bit fields. The shift 1 << log_max_eq is unbounded. The LOGLEVEL_* constants come from kern_levels.h. The dev_err and WARN output is out.
- S390Ptrace: header constants (NUM_GPRS, THREAD_SIZE, STACK_FRAME_OVERHEAD) are written here from the s390 ABI. Only the pt_regs members the helpers touch are modelled. Kernel memory is a function, so READ_ONCE ordering is out.
